/** The manager of background sessions (internal/server/backup.go:91-156), one call at a
    time; the lemmas at the end say that a call on its own is a run of the steps of
    `Sessions`. */
module BackupManager {
  import opened Text
  import opened BackupStore
  import opened LogWriter
  import opened Sessions

  /** The snapshot folders on disk. */
  class Disk {
    var folders: set<Folder>

    constructor ()
      ensures folders == {}
    {
      folders := {};
    }

    method RemoveAll(f: Folder)
      modifies this
      ensures folders == old(folders) - {f}
    {
      folders := folders - {f};
    }
  }

  /** The sessions whose cancel function is registered, and the contexts cancelled so far. */
  class Manager {
    const store: Store
    var cancels: set<string>
    var cancelled: set<string>

    constructor (store: Store)
      ensures this.store == store && cancels == {} && cancelled == {}
    {
      this.store := store;
      cancels, cancelled := {}, {};
    }

    /** A running session of the slot is returned instead of starting another; otherwise one
        is created under the id drawn and its goroutine can be cancelled. */
    method Start(slot: Slot, id: string, now: int) returns (session: string)
      requires id !in store.sessions
      modifies this, store
      ensures IsRunningIn(store.Db(), session, slot)
      ensures (exists x :: IsRunningIn(old(store.Db()), x, slot)) ==>
        store.Db() == old(store.Db()) && cancels == old(cancels) && IsLatestRunning(store.Db(), session, slot, {})
      ensures (forall x :: !IsRunningIn(old(store.Db()), x, slot)) ==>
        session == id && store.Db() == InsertSession(old(store.Db()), id, Session(slot, Running, "", "", now))
        && cancels == old(cancels) + {id}
      ensures cancelled == old(cancelled)
    {
      var found := store.RunningForService(slot);
      if found.Some? {
        return found.value;
      }
      var s := store.CreateSession(id, slot, now);
      cancels := cancels + {id};
      session := id;
    }

    method Cancel(id: string)
      modifies this`cancelled
      ensures cancelled == old(cancelled) + if id in cancels then {id} else {}
    {
      if id in cancels {
        cancelled := cancelled + {id};
      }
    }

    /** What a session's goroutine does once its run has returned. */
    method AfterRun(w: StoreLogWriter, disk: Disk, req: Request, err: Option<RunError>)
      requires w.store == store
      modifies this, w, store, disk
      ensures var o := Classify(req, err);
        && store.Db() == Settle(AppendRows(old(store.Db()), w.id, if old(w.buf) != "" then [old(w.buf)] else []),
                                w.id, o.status, o.snapshot, o.error)
        && disk.folders == old(disk.folders) - (if Cleans(err) && req.owned.Some? then {req.owned.value} else {})
      ensures cancels == old(cancels) - {w.id} && cancelled == old(cancelled)
    {
      w.Flush();
      cancels := cancels - {w.id};
      match err
      case None =>
        store.Finish(w.id, Success, req.snapshot, "");
      case Some(e) =>
        if e.notImplemented {
          store.Finish(w.id, Unsupported, "", "");
        } else if e.canceled {
          if req.owned.Some? {
            disk.RemoveAll(req.owned.value);
          }
          store.Finish(w.id, Cancelled, "", KindName(req.slot.kind) + " cancelled");
        } else {
          if req.owned.Some? {
            disk.RemoveAll(req.owned.value);
          }
          store.Finish(w.id, Error, "", e.text);
        }
    }
  }

  // ------------------------------------------------------------ calls as runs of steps

  ghost function Then(s: Option<State>, e: Event): Option<State> {
    if s == None then None else Step(s.value, e)
  }

  /** `Start` with no step of another goroutine in between. */
  ghost function StartAlone(s: State, req: Request, found: Option<string>, id: string, now: int): Option<State> {
    var checked := Then(Step(s, InStart(Acquire(req))), InStart(Check(found)));
    if found.Some? then Then(checked, InStart(Release))
    else Then(Then(Then(checked, InStart(Create(id, now))), InStart(Register)), InStart(Release))
  }

  lemma StartIsRun(s: State, req: Request, id: string, now: int)
    requires s.holder == None && id !in s.requests
    requires req.owned.Some? ==> req.owned.value !in s.claimed + s.folders
    requires forall x :: !IsRunningIn(s.db, x, req.slot)
    ensures var t := StartAlone(s, req, None, id, now);
      && t.Some? && t.value.holder == None
      && t.value.db == InsertSession(s.db, id, Session(req.slot, Running, "", "", now))
      && t.value.cancels == s.cancels + {id} && t.value.workers == s.workers[id := Working("")]
  {
  }

  lemma ReattachIsRun(s: State, req: Request, found: string, id: string, now: int)
    requires s.holder == None
    requires req.owned.Some? ==> req.owned.value !in s.claimed + s.folders
    requires IsLatestRunning(s.db, found, req.slot, {})
    ensures var t := StartAlone(s, req, Some(found), id, now);
      t.Some? && t.value.db == s.db && t.value.cancels == s.cancels && t.value.workers == s.workers && t.value.holder == None
  {
  }

  /** A delete request with no step of another in between. */
  ghost function DeleteAlone(s: State, t: nat, id: string): Option<State> {
    var read := Step(s, InDelete(t, ReadRow(id)));
    if read.Some? && t !in read.value.deleters then read
    else Then(Then(Then(read, InDelete(t, DropRow)), InDelete(t, DropLog)), InDelete(t, DropFolder))
  }

  /** The folder of a session's snapshot. */
  predicate IsFolderOf(row: Session, f: Folder) {
    row.snapshot != "" && f.profile == row.slot.profile && f.service == row.slot.service && f.name == row.snapshot
  }

  /** Row, log and folder. */
  lemma DropAll(s: State, t: nat)
    requires t in s.deleters && s.deleters[t].DroppingRow? && s.deleters[t].id in s.db.sessions
    ensures var d := s.deleters[t];
      var u := Then(Then(Step(s, InDelete(t, DropRow)), InDelete(t, DropLog)), InDelete(t, DropFolder));
      && u.Some? && u.value.db.sessions == s.db.sessions - {d.id} && u.value.db.logs == s.db.logs - {d.id}
      && (forall f :: f in u.value.folders <==> f in s.folders && !IsFolderOf(d.read, f))
      && u.value == s.(db := u.value.db, folders := u.value.folders, dropped := u.value.dropped, deleters := s.deleters - {t})
  {
    var id, row := s.deleters[t].id, s.deleters[t].read;
    var s1 := DropRowStep(s, t).value;
    assert s1 == s.(db := DropSession(s.db, id), deleters := s.deleters[t := DroppingLogs(id, row)]);
    var s2 := DropLogStep(s1, t).value;
    assert s2 == s1.(db := DropLogs(s1.db, id), deleters := s.deleters[t := DroppingFolder(row)]);
    assert s2.deleters - {t} == s.deleters - {t};
    assert Then(Then(Step(s, InDelete(t, DropRow)), InDelete(t, DropLog)), InDelete(t, DropFolder)) == DropFolderStep(s2, t);
  }

  /** It takes a settled session with its log and the folder of its snapshot, if it has one, and
      nothing else; a running or missing session ends it. */
  lemma DeleteIsRun(s: State, t: nat, id: string)
    requires t !in s.deleters
    ensures var u := DeleteAlone(s, t, id);
      if id !in s.db.sessions || IsRunning(s, id) then u == Some(s)
      else
        && u.Some? && u.value.db.sessions == s.db.sessions - {id} && u.value.db.logs == s.db.logs - {id}
        && (forall f :: f in u.value.folders <==> f in s.folders && !IsFolderOf(s.db.sessions[id], f))
        && u.value == s.(db := u.value.db, folders := u.value.folders, dropped := u.value.dropped)
  {
    if id in s.db.sessions && !IsRunning(s, id) {
      var read := s.(deleters := s.deleters[t := DroppingRow(id, s.db.sessions[id])]);
      assert ReadRowStep(s, t, id) == Some(read) && read.deleters - {t} == s.deleters;
      DropAll(read, t);
      hide DropRowStep, DropLogStep, DropFolderStep;
    }
  }

  /** The end of a goroutine with no step of another in between. */
  ghost function EndAlone(s: State, id: string, err: Option<RunError>): Option<State> {
    Then(Then(Then(Then(Step(s, InRun(id, Return(err))), InRun(id, Flush)), InEnd(id, Forget)), InEnd(id, Clean)), InEnd(id, Finish))
  }

  /** Returning and flushing: the log gets what was left of the output. */
  lemma ReturnAndFlush(s: State, id: string, err: Option<RunError>)
    requires Inv(s) && Sessions.Idle(s, id)
    ensures var buf := s.workers[id].buf;
      Then(Step(s, InRun(id, Return(err))), InRun(id, Flush))
      == Some(s.(db := AppendRows(s.db, id, if buf != "" then [buf] else []), workers := s.workers[id := Flushed(err)]))
  {
    hide Inv;
    var buf := s.workers[id].buf;
    var s1 := RunStep(s, id, Return(err)).value;
    assert s1 == s.(workers := s.workers[id := Returned(buf, err)]);
    var s2 := RunStep(s1, id, Flush).value;
    assert s2.db == AppendRows(s.db, id, if buf != "" then [buf] else []);
    assert s2.workers == s.workers[id := Flushed(err)];
  }

  /** Forgetting, cleaning up and settling. */
  lemma ForgetAndSettle(s: State, id: string)
    requires s.holder == None && id in s.workers && s.workers[id].Flushed? && id in s.requests
    ensures var err, owned := s.workers[id].err, s.requests[id].owned;
      var o := Classify(s.requests[id], err);
      var t := Then(Then(Step(s, InEnd(id, Forget)), InEnd(id, Clean)), InEnd(id, Finish));
      && t.Some? && t.value.db == Settle(s.db, id, o.status, o.snapshot, o.error)
      && t.value.folders == s.folders - (if Cleans(err) && owned.Some? then {owned.value} else {})
      && t.value.cancels == s.cancels - {id} && id !in t.value.workers
  {
    hide Cleans, Settle, Classify;
    var s1 := EndStep(s, id, Forget).value;
    var s2 := EndStep(s1, id, Clean).value;
    assert Then(Then(Step(s, InEnd(id, Forget)), InEnd(id, Clean)), InEnd(id, Finish)) == EndStep(s2, id, Finish);
  }

  lemma AfterRunIsRun(s: State, id: string, err: Option<RunError>)
    requires Inv(s) && s.holder == None && Sessions.Idle(s, id)
    ensures var o, buf := Classify(s.requests[id], err), s.workers[id].buf;
      var owned := s.requests[id].owned;
      var t := EndAlone(s, id, err);
      && t.Some?
      && t.value.db == Settle(AppendRows(s.db, id, if buf != "" then [buf] else []), id, o.status, o.snapshot, o.error)
      && t.value.folders == s.folders - (if Cleans(err) && owned.Some? then {owned.value} else {})
      && t.value.cancels == s.cancels - {id} && id !in t.value.workers
  {
    var buf := s.workers[id].buf;
    hide Inv, Classify, Step, Settle, Cleans, AppendRows;
    ReturnAndFlush(s, id, err);
    ForgetAndSettle(s.(db := AppendRows(s.db, id, if buf != "" then [buf] else []), workers := s.workers[id := Flushed(err)]), id);
  }
}
