/** What every run of the background-session protocol keeps, and what that means: the safety
    theorems about the steps of `Sessions`. */
module SessionSafety {
  import opened Text
  import opened BackupStore
  import opened LogWriter
  import opened Sessions

  // ----------------------------------------------------------------------- every run

  /** The event creates this session. */
  predicate Creates(e: Event, id: string) {
    e.InStart? && e.start.Create? && e.start.id == id
  }

  lemma RowLivesUnchanged(s: State, t: State, id: string)
    requires t.db == s.db && t.requests == s.requests
    ensures RowLives(s, s, id) && RowLives(s, t, id)
  {
  }

  /** A settled session stays settled, its row unchanged for as long as it exists; and no
      session comes back to running. */
  lemma NeverRevived(s: State, e: Event, id: string)
    requires Inv(s) && Step(s, e).Some?
    ensures !Creates(e, id) ==> RowLives(s, Step(s, e).value, id)
    ensures id in s.requests ==> !Creates(e, id)
  {
    hide StartStep, RunStep, EndStep, DeleteStep, RestartStep, RowLives;
    match e
    case InStart(start) => RowLivesThroughStart(s, start, id);
    case InRun(x, run) => RowKeptByRun(s, x, run, id);
    case InEnd(x, end) => RowKeptByEnd(s, x, end, id);
    case InDelete(t, delete) => RowLivesThroughDelete(s, t, delete, id);
    case Cancel(_) =>
      assert RowLives(s, s, id) && RowLives(s, Step(s, e).value, id) by { RowLivesUnchanged(s, Step(s, e).value, id); }
    case Restart => KeptByRestart(s, id);
  }

  lemma SessionKept(s: State, e: Event, id: string)
    requires Inv(s) && Step(s, e).Some?
    ensures RowOk(Step(s, e).value, id) && LogOk(Step(s, e).value, id) && FolderOk(Step(s, e).value, id)
  {
    hide StartStep, RunStep, EndStep, DeleteStep, RestartStep, PairOk, DeleterOk, HolderOk;
    match e
    case InStart(start) =>
      RowKeptByStart(s, start, id);
      LogKeptByStart(s, start, id);
      FolderKeptByStart(s, start, id);
    case InRun(x, run) =>
      RowKeptByRun(s, x, run, id);
      LogKeptByRun(s, x, run, id);
      FolderKeptByRun(s, x, run, id);
    case InEnd(x, end) =>
      RowKeptByEnd(s, x, end, id);
      LogKeptByEnd(s, x, end, id);
      FolderKeptByEnd(s, x, end, id);
    case InDelete(t, delete) =>
      RowKeptByDelete(s, t, delete, id);
      LogKeptByDelete(s, t, delete, id);
      FolderKeptByDelete(s, t, delete, id);
    case Cancel(_) =>
      assert RowOk(s, id) && LogOk(s, id) && FolderOk(s, id);
    case Restart =>
      KeptByRestart(s, id);
  }

  lemma StartFrame(s: State, e: StartEvent)
    requires StartStep(s, e).Some?
    ensures StartStep(s, e).value.deleters == s.deleters
  {
  }

  lemma RunFrame(s: State, id: string, e: RunEvent)
    requires RunStep(s, id, e).Some?
    ensures var t := RunStep(s, id, e).value; s.(db := t.db, workers := t.workers, outputs := t.outputs, folders := t.folders, made := t.made, dropped := t.dropped) == t
  {
    hide CutLine, Classify;
  }

  lemma EndFrame(s: State, id: string, e: EndEvent)
    requires EndStep(s, id, e).Some?
    ensures var t := EndStep(s, id, e).value;
      t == s.(db := t.db, workers := t.workers, cancels := t.cancels, folders := t.folders, cleaned := t.cleaned,
              settles := t.settles, finished := t.finished)
  {
  }

  /** Only `Start` creates sessions and holds the mutex; only delete requests delete. */
  lemma SameRequests(s: State, e: Event)
    requires Step(s, e).Some?
    ensures !e.InStart? ==> Step(s, e).value.requests == s.requests
    ensures !e.InDelete? && !e.Restart? ==> Step(s, e).value.deleters == s.deleters
    ensures !e.InStart? && !e.Restart? ==> Step(s, e).value.holder == s.holder && Step(s, e).value.claimed == s.claimed
  {
    hide StartStep, RunStep, EndStep, DeleteStep;
    match e
    case InStart(start) => StartFrame(s, start);
    case InRun(id, run) => RunFrame(s, id, run);
    case InEnd(id, end) => EndFrame(s, id, end);
    case InDelete(t, delete) => DeleteFrame(s, t, delete);
    case _ =>
  }

  lemma PairKept(s: State, e: Event, a: string, b: string)
    requires Inv(s) && Step(s, e).Some?
    ensures PairOk(Step(s, e).value, a, b)
  {
    hide StartStep, RunStep, EndStep, DeleteStep, RestartStep, LogOk, FolderOk, RowOk, DeleterOk, HolderOk;
    if e.InStart? {
      PairKeptByStart(s, e.start, a, b);
    } else {
      NeverRevived(s, e, a);
      NeverRevived(s, e, b);
      assert PairOk(s, a, b);
      SameRequests(s, e);
    }
  }

  lemma DeleterKept(s: State, e: Event, t: nat)
    requires Inv(s) && Step(s, e).Some?
    ensures DeleterOk(Step(s, e).value, t)
  {
    hide StartStep, RunStep, EndStep, DeleteStep, LogOk, FolderOk, RowOk, PairOk, HolderOk;
    if e.InDelete? {
      DeleterKeptByDelete(s, e.ticket, e.delete, t);
    } else if !e.Restart? {
      assert DeleterOk(s, t);
      SameRequests(s, e);
      if t in s.deleters && !s.deleters[t].DroppingFolder? {
        NeverRevived(s, e, s.deleters[t].id);
      }
    }
  }

  /** Nobody else makes the folder of the request that holds the mutex. */
  lemma FolderNotMade(s: State, e: Event)
    requires Inv(s) && Step(s, e).Some? && !e.InStart? && Starting(s) && s.holder.value.req.owned.Some?
    ensures s.holder.value.req.owned.value !in Step(s, e).value.folders
  {
    hide StartStep, LogOk, RowOk, PairOk, DeleterOk, CutLine, Classify, Cleans, Reconcile;
    if e.InRun? {
      assert FolderOk(s, e.id);
    }
  }

  lemma HolderKept(s: State, e: Event)
    requires Inv(s) && Step(s, e).Some?
    ensures HolderOk(Step(s, e).value)
  {
    hide StartStep, RunStep, EndStep, DeleteStep, LogOk, FolderOk, RowOk, PairOk, DeleterOk;
    if e.InStart? {
      HolderKeptByStart(s, e.start);
    } else if !e.Restart? {
      SameRequests(s, e);
      if Starting(s) && s.holder.value.req.owned.Some? {
        FolderNotMade(s, e);
      }
      var t := Step(s, e).value;
      forall id | t.holder.Some? && t.holder.value.Creating? ensures !IsRunningIn(t.db, id, t.holder.value.req.slot) {
        NeverRevived(s, e, id);
        assert !IsRunningIn(s.db, id, t.holder.value.req.slot);
      }
    }
  }

  /** Every step keeps the invariant. */
  lemma StepKeeps(s: State, e: Event)
    requires Inv(s) && Step(s, e).Some?
    ensures Inv(Step(s, e).value)
  {
    hide Step, RowOk, LogOk, FolderOk, PairOk, DeleterOk, HolderOk;
    var t := Step(s, e).value;
    forall id ensures RowOk(t, id) { SessionKept(s, e, id); }
    forall id ensures LogOk(t, id) { SessionKept(s, e, id); }
    forall id ensures FolderOk(t, id) { SessionKept(s, e, id); }
    forall a, b ensures PairOk(t, a, b) { PairKept(s, e, a, b); }
    forall ticket ensures DeleterOk(t, ticket) { DeleterKept(s, e, ticket); }
    HolderKept(s, e);
  }

  lemma InitialOk()
    ensures Inv(INITIAL)
  {
  }

  /** So every run does, from an empty store, whatever the interleaving. */
  lemma {:induction false} RunKeeps(events: seq<Event>)
    requires Run(INITIAL, events).Some?
    ensures Inv(Run(INITIAL, events).value)
    decreases |events|
  {
    hide Inv;
    if events == [] {
      InitialOk();
    } else {
      RunKeeps(events[..|events| - 1]);
      StepKeeps(Run(INITIAL, events[..|events| - 1]).value, events[|events| - 1]);
    }
  }

  lemma ReachableOk(s: State)
    requires Reachable(s)
    ensures Inv(s)
  {
    var events :| Run(INITIAL, events) == Some(s);
    RunKeeps(events);
  }

  // --------------------------------------------------------------------- what it means

  /** At most one session of a kind runs per workspace, service and profile. */
  lemma OneRunningPerSlot(s: State, a: string, b: string)
    requires Reachable(s)
    requires IsRunning(s, a) && IsRunning(s, b) && s.db.sessions[a].slot == s.db.sessions[b].slot
    ensures a == b
  {
    ReachableOk(s);
    assert PairOk(s, a, b);
  }

  /** A stored session has settled once if it is not running, not at all if it is. */
  lemma SettlesOnce(s: State, id: string)
    requires Reachable(s) && id in s.db.sessions
    ensures SettlesOf(s, id) == if IsRunning(s, id) then 0 else 1
  {
    ReachableOk(s);
    assert RowOk(s, id);
  }

  /** What can be cancelled is running, with a goroutine that has not ended its run's
      bookkeeping. */
  lemma CancelsAreRunning(s: State, id: string)
    requires Reachable(s) && id in s.cancels
    ensures IsRunning(s, id) && id in s.workers
  {
    ReachableOk(s);
    assert RowOk(s, id);
  }

  /** The last statement of a goroutine finds its session's row, still running, and makes it
      what the run's outcome says. */
  lemma FinishHitsLiveRow(s: State, id: string)
    requires Reachable(s) && EndStep(s, id, Finish).Some?
    ensures IsRunning(s, id) && id in s.requests
    ensures var t := EndStep(s, id, Finish).value;
      id in t.db.sessions && t.db.sessions[id].status != Running && SettledAs(t.db.sessions[id], Classify(s.requests[id], s.workers[id].err))
  {
    ReachableOk(s);
    assert RowOk(s, id);
  }

  /** A session settled by its own goroutine says what its run has returned: nothing, and then
      it has the snapshot it was started for; or an error, and then it has none. */
  lemma SettledAsRunEnded(s: State, id: string)
    requires Reachable(s) && id in s.db.sessions
    requires !IsRunning(s, id) && id !in s.interrupted
    ensures id in s.requests && id in s.finished && s.db.sessions[id].slot == s.requests[id].slot
    ensures var row, req := s.db.sessions[id], s.requests[id];
      match s.finished[id]
      case None => row.status == Success && row.snapshot == req.snapshot && row.error == ""
      case Some(e) =>
        row.snapshot == "" &&
        if e.notImplemented then row.status == Unsupported && row.error == ""
        else if e.canceled then row.status == Cancelled && row.error == (match req.slot.kind
          case Backup => "backup cancelled"
          case Apply => "apply cancelled"
          case Fork => "fork cancelled")
        else row.status == Error && row.error == e.text
  {
    ReachableOk(s);
    hide LogOk, FolderOk, PairOk, DeleterOk, HolderOk;
    assert RowOk(s, id);
  }

  /** One settled by a restart says so. */
  lemma SettledByRestart(s: State, id: string)
    requires Reachable(s) && id in s.db.sessions && id in s.interrupted
    ensures var row := s.db.sessions[id];
      row.status == Error && row.error == "interrupted by server restart" && row.snapshot == ""
  {
    ReachableOk(s);
    hide LogOk, FolderOk, PairOk, DeleterOk, HolderOk;
    assert RowOk(s, id);
  }

  /** A delete never removes a running session, nor the log of a stored one. */
  lemma DeleteSparesRunning(s: State, t: nat, e: DeleteEvent, id: string)
    requires Reachable(s) && DeleteStep(s, t, e).Some? && IsRunning(s, id)
    ensures var u := DeleteStep(s, t, e).value;
      IsRunning(u, id) && u.db.sessions[id] == s.db.sessions[id] && LogOf(u.db, id) == LogOf(s.db, id)
  {
    ReachableOk(s);
    assert DeleterOk(s, t);
  }

  /** A session settled by its own goroutine has the whole output of its run in its log,
      split at newlines. */
  lemma WholeOutputLogged(s: State, id: string)
    requires Reachable(s) && id in s.db.sessions
    requires !IsRunning(s, id) && id !in s.interrupted
    ensures id in s.outputs && Lines(LogOf(s.db, id)) == SplitOutput(s.outputs[id])
  {
    ReachableOk(s);
    assert RowOk(s, id) && LogOk(s, id);
  }

  /** The folder of a session that failed or was cancelled stays on disk if and only if a
      restart interrupted the session after its run had made the folder and before its
      clean-up, and no delete has dropped the folder since. */
  lemma FailureLeavesNoFolder(s: State, id: string)
    requires Reachable(s) && id in s.db.sessions
    requires s.db.sessions[id].status == Error || s.db.sessions[id].status == Cancelled
    ensures id in s.requests && (id in s.interrupted || id in s.cleaned)
    ensures s.requests[id].owned.Some? ==>
      var f := s.requests[id].owned.value;
      (f in s.folders <==> id in s.interrupted && id in s.made && id !in s.cleaned && f !in s.dropped)
  {
    ReachableOk(s);
    assert RowOk(s, id) && FolderOk(s, id);
  }

  /** A session that ended otherwise has not cleaned up: its folder is there if its run has made
      it, until a delete drops it. */
  lemma SuccessKeepsFolder(s: State, id: string)
    requires Reachable(s) && id in s.db.sessions
    requires s.db.sessions[id].status == Success || s.db.sessions[id].status == Unsupported
    ensures id in s.requests && (s.requests[id].owned.Some? ==>
      (s.requests[id].owned.value in s.folders <==> id in s.made && s.requests[id].owned.value !in s.dropped))
  {
    ReachableOk(s);
    hide LogOk, PairOk, DeleterOk, HolderOk;
    assert RowOk(s, id) && FolderOk(s, id);
  }

  /** A delete that has read a session still holds the row as it is. */
  lemma DeleteHoldsRow(s: State, t: nat)
    requires Reachable(s) && t in s.deleters && s.deleters[t].DroppingRow? && s.deleters[t].id in s.db.sessions
    ensures s.db.sessions[s.deleters[t].id] == s.deleters[t].read && !IsRunning(s, s.deleters[t].id)
  {
    ReachableOk(s);
    hide RowOk, LogOk, FolderOk, PairOk, HolderOk;
    assert DeleterOk(s, t);
  }

  predicate FailedWithFolder(s: State, id: string) {
    && id in s.db.sessions && s.db.sessions[id].status == Error
    && id in s.requests && s.requests[id].owned.Some? && s.requests[id].owned.value in s.folders
  }

  /** One more event on a run. */
  lemma After(s: State, events: seq<Event>, e: Event) returns (t: State)
    requires Run(INITIAL, events) == Some(s) && Step(s, e).Some?
    ensures Run(INITIAL, events + [e]) == Some(t) && Some(t) == Step(s, e)
  {
    assert (events + [e])[..|events + [e]| - 1] == events;
    t := Step(s, e).value;
  }

  /** A backup on its way that has made its folder. */
  lemma BackupUnderWay() returns (s: State, events: seq<Event>)
    ensures Run(INITIAL, events) == Some(s) && IsRunning(s, "a")
    ensures "a" in s.requests && s.requests["a"].owned.Some? && s.requests["a"].owned.value in s.folders
  {
    var slot, f := Slot(1, "db", "local", Backup), Folder("local", "db", "stamp");
    var req := Request(slot, "stamp", Some(f));
    var s1 := After(INITIAL, [], InStart(Acquire(req)));
    var s2 := After(s1, [InStart(Acquire(req))], InStart(Check(None)));
    events := [InStart(Acquire(req))] + [InStart(Check(None))];
    var s3 := After(s2, events, InStart(Create("a", 0)));
    events := events + [InStart(Create("a", 0))];
    var s4 := After(s3, events, InStart(Register));
    events := events + [InStart(Register)];
    s := After(s4, events, InRun("a", MakeFolder));
    events := events + [InRun("a", MakeFolder)];
  }

  /** This happens: a restart during a backup settles it as failed and keeps what it has
      written. */
  lemma InterruptedKeepsFolder()
    ensures exists s, id :: Reachable(s) && FailedWithFolder(s, id)
  {
    var s, events := BackupUnderWay();
    var t := After(s, events, Restart);
    assert Reachable(t) && FailedWithFolder(t, "a");
  }
}
