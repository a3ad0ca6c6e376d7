/** Background sessions (internal/server/backup.go): starts, cancels, run goroutines, deletes
    and restarts as interleaved atomic steps. One statement of the store, one critical
    section of a goroutine, or one stretch of code between two of them is one step. */
module Sessions {
  import opened Text
  import opened BackupStore
  import opened LogWriter

  /** A snapshot folder on disk. */
  datatype Folder = Folder(profile: string, service: string, name: string)

  /** A request to start a session: the snapshot it records when it succeeds, and the fresh
      folder that its cleanup removes, if it has a cleanup. */
  datatype Request = Request(slot: Slot, snapshot: string, owned: Option<Folder>)

  /** A run's error, as `errors.Is` sees it, and its text. */
  datatype RunError = RunError(notImplemented: bool, canceled: bool, text: string)

  /** What a finished run leads to. */
  datatype Outcome = Outcome(status: Status, snapshot: string, error: string)

  function KindName(k: Kind): string {
    match k
    case Backup => "backup"
    case Apply => "apply"
    case Fork => "fork"
  }

  function Classify(req: Request, err: Option<RunError>): (o: Outcome)
    ensures o.status != Running
    ensures o.status == Success <==> err == None
    ensures o.status == Unsupported <==> err.Some? && err.value.notImplemented
    ensures o.status == Cancelled <==> err.Some? && err.value.canceled && !err.value.notImplemented
    ensures o.status == Success ==> o.snapshot == req.snapshot && o.error == ""
    ensures o.status != Success ==> o.snapshot == ""
    ensures o.status == Unsupported ==> o.error == ""
    ensures o.status == Cancelled ==> o.error == KindName(req.slot.kind) + " cancelled"
    ensures o.status == Error ==> o.error == err.value.text
  {
    match err
    case None => Outcome(Success, req.snapshot, "")
    case Some(e) =>
      if e.notImplemented then Outcome(Unsupported, "", "")
      else if e.canceled then Outcome(Cancelled, "", KindName(req.slot.kind) + " cancelled")
      else Outcome(Error, "", e.text)
  }

  /** Whether the goroutine cleans up after a run that returned this. */
  predicate Cleans(err: Option<RunError>) {
    err.Some? && !err.value.notImplemented
  }

  // -------------------------------------------------------------------------- the state

  /** The holder of the manager's mutex: a call of `Start`, by where it stands. */
  datatype Starter =
    | Checking(req: Request)
    | Creating(req: Request)
    | Registering(req: Request, id: string)
    | Leaving(session: Option<string>)

  /** A session's goroutine, by where it stands. */
  datatype Worker =
    | Working(buf: string)
    | Returned(buf: string, err: Option<RunError>)
    | Flushed(err: Option<RunError>)
    | Forgotten(err: Option<RunError>)
    | Cleaned(err: Option<RunError>)

  /** A delete request, past reading the session it deletes. */
  datatype Deleter =
    | DroppingRow(id: string, read: Session)
    | DroppingLogs(id: string, read: Session)
    | DroppingFolder(read: Session)

  /** The store, the process and the disk; then what has happened so far, which no step reads:
      among it what the runs of the sessions that their goroutine settled have returned, the
      sessions that a restart interrupted, those whose run has made their folder,
      those whose clean-up has removed it, and the folders that a delete has dropped and no
      run has made since. */
  datatype State = State(
    db: Tables,
    holder: Option<Starter>,
    cancels: set<string>,
    workers: map<string, Worker>,
    deleters: map<nat, Deleter>,
    folders: set<Folder>,
    requests: map<string, Request>,
    claimed: set<Folder>,
    outputs: map<string, string>,
    settles: map<string, nat>,
    finished: map<string, Option<RunError>>,
    cancelled: set<string>,
    interrupted: set<string>,
    made: set<string>,
    cleaned: set<string>,
    dropped: set<Folder>)

  const INITIAL := State(Tables(map[], map[]), None, {}, map[], map[], {}, map[], {}, map[], map[], map[], {}, {}, {}, {}, {})

  /** A call of `Start`, from taking the mutex to releasing it. */
  datatype StartEvent =
    | Acquire(req: Request)
    | Check(found: Option<string>)
    | CheckFails
    | Create(id: string, now: int)
    | CreateFails
    | Register
    | Release

  /** A goroutine inside its run, up to the flush of its writer. */
  datatype RunEvent =
    | Write(chunk: string)
    | Append
    | MakeFolder
    | Return(err: Option<RunError>)
    | Flush

  /** A goroutine after its run. */
  datatype EndEvent = Forget | Clean | Finish | FinishFails

  datatype DeleteEvent = ReadRow(id: string) | DropRow | DropLog | DropFolder

  datatype Event =
    | InStart(start: StartEvent)
    | InRun(id: string, run: RunEvent)
    | InEnd(id: string, end: EndEvent)
    | InDelete(ticket: nat, delete: DeleteEvent)
    | Cancel(id: string)
    | Restart

  // ------------------------------------------------------------------------- the steps

  /** Taking the mutex. A request that owns a folder has made up a name never used before. */
  function AcquireStep(s: State, req: Request): Option<State> {
    if s.holder == None && (req.owned.Some? ==> req.owned.value !in s.claimed + s.folders)
    then Some(s.(holder := Some(Checking(req)), claimed := s.claimed + if req.owned.Some? then {req.owned.value} else {}))
    else None
  }

  ghost function CheckStep(s: State, found: Option<string>): Option<State> {
    match s.holder
    case Some(Checking(req)) =>
      (match found
       case None =>
         if forall id :: !IsRunningIn(s.db, id, req.slot) then Some(s.(holder := Some(Creating(req)))) else None
       case Some(id) =>
         if IsLatestRunning(s.db, id, req.slot, {}) then Some(s.(holder := Some(Leaving(found)))) else None)
    case _ => None
  }

  /** A store error makes `Start` give up. */
  function GiveUpStep(s: State, checking: bool): Option<State> {
    if s.holder.Some? && (if checking then s.holder.value.Checking? else s.holder.value.Creating?)
    then Some(s.(holder := Some(Leaving(None))))
    else None
  }

  /** Session ids are random: never one used before. */
  function CreateStep(s: State, id: string, now: int): Option<State> {
    match s.holder
    case Some(Creating(req)) =>
      if id in s.requests then None
      else Some(s.(
        db := InsertSession(s.db, id, Session(req.slot, Running, "", "", now)),
        holder := Some(Registering(req, id)),
        requests := s.requests[id := req],
        outputs := s.outputs[id := ""],
        settles := s.settles[id := 0]))
    case _ => None
  }

  /** Entering the cancel function and spawning the goroutine. */
  function RegisterStep(s: State): Option<State> {
    match s.holder
    case Some(Registering(_, id)) =>
      Some(s.(holder := Some(Leaving(Some(id))), cancels := s.cancels + {id}, workers := s.workers[id := Working("")]))
    case _ => None
  }

  function ReleaseStep(s: State): Option<State> {
    match s.holder
    case Some(Leaving(_)) => Some(s.(holder := None))
    case _ => None
  }

  /** The run goes on only when `Write` has appended every complete line. */
  predicate Idle(s: State, id: string) {
    id in s.workers && s.workers[id].Working? && '\n' !in s.workers[id].buf && id in s.outputs && id in s.requests
  }

  function WriteStep(s: State, id: string, chunk: string): Option<State> {
    if Idle(s, id)
    then Some(s.(workers := s.workers[id := Working(s.workers[id].buf + chunk)], outputs := s.outputs[id := s.outputs[id] + chunk]))
    else None
  }

  function AppendStep(s: State, id: string): Option<State> {
    if id in s.workers && s.workers[id].Working? && '\n' in s.workers[id].buf then
      var (line, rest) := CutLine(s.workers[id].buf);
      Some(s.(db := AppendRow(s.db, id, line), workers := s.workers[id := Working(rest)]))
    else None
  }

  function MakeFolderStep(s: State, id: string): Option<State> {
    if Idle(s, id) && s.requests[id].owned.Some?
    then
      var f := s.requests[id].owned.value;
      Some(s.(folders := s.folders + {f}, made := s.made + {id}, dropped := s.dropped - {f}))
    else None
  }

  function ReturnStep(s: State, id: string, err: Option<RunError>): Option<State> {
    if Idle(s, id)
    then Some(s.(workers := s.workers[id := Returned(s.workers[id].buf, err)]))
    else None
  }

  function FlushStep(s: State, id: string): Option<State> {
    if id in s.workers && s.workers[id].Returned? then
      var w := s.workers[id];
      Some(s.(
        db := if w.buf == "" then s.db else AppendRow(s.db, id, w.buf),
        workers := s.workers[id := Flushed(w.err)]))
    else None
  }

  /** The goroutine's critical section. */
  function ForgetStep(s: State, id: string): Option<State> {
    if s.holder == None && id in s.workers && s.workers[id].Flushed?
    then Some(s.(cancels := s.cancels - {id}, workers := s.workers[id := Forgotten(s.workers[id].err)]))
    else None
  }

  function CleanStep(s: State, id: string): Option<State> {
    if id in s.workers && s.workers[id].Forgotten? && id in s.requests then
      var err := s.workers[id].err;
      Some(s.(
        folders := if Cleans(err) && s.requests[id].owned.Some? then s.folders - {s.requests[id].owned.value} else s.folders,
        cleaned := if Cleans(err) then s.cleaned + {id} else s.cleaned,
        workers := s.workers[id := Cleaned(err)]))
    else None
  }

  function SettlesOf(s: State, id: string): nat {
    if id in s.settles then s.settles[id] else 0
  }

  function FinishStep(s: State, id: string): Option<State> {
    if id in s.workers && s.workers[id].Cleaned? && id in s.requests then
      var err := s.workers[id].err;
      var o := Classify(s.requests[id], err);
      Some(s.(
        db := Settle(s.db, id, o.status, o.snapshot, o.error),
        workers := s.workers - {id},
        settles := s.settles[id := SettlesOf(s, id) + 1],
        finished := s.finished[id := err]))
    else None
  }

  /** The error of the last statement is dropped: the goroutine ends all the same. */
  function FinishFailsStep(s: State, id: string): Option<State> {
    if id in s.workers && s.workers[id].Cleaned? then Some(s.(workers := s.workers - {id})) else None
  }

  function CancelStep(s: State, id: string): Option<State> {
    if s.holder != None then None
    else Some(s.(cancelled := if id in s.cancels then s.cancelled + {id} else s.cancelled))
  }

  /** Reading the session; a missing or running one ends the request. */
  function ReadRowStep(s: State, t: nat, id: string): Option<State> {
    if t in s.deleters then None
    else if id in s.db.sessions && s.db.sessions[id].status != Running
    then Some(s.(deleters := s.deleters[t := DroppingRow(id, s.db.sessions[id])]))
    else Some(s)
  }

  function DropRowStep(s: State, t: nat): Option<State> {
    if t in s.deleters && s.deleters[t].DroppingRow? then
      var d := s.deleters[t];
      if d.id in s.db.sessions
      then Some(s.(db := DropSession(s.db, d.id), deleters := s.deleters[t := DroppingLogs(d.id, d.read)]))
      else Some(s.(deleters := s.deleters - {t}))
    else None
  }

  function DropLogStep(s: State, t: nat): Option<State> {
    if t in s.deleters && s.deleters[t].DroppingLogs? then
      var d := s.deleters[t];
      Some(s.(db := DropLogs(s.db, d.id), deleters := s.deleters[t := DroppingFolder(d.read)]))
    else None
  }

  function DropFolderStep(s: State, t: nat): Option<State> {
    if t in s.deleters && s.deleters[t].DroppingFolder? then
      var r := s.deleters[t].read;
      var dropped := if r.snapshot != "" then {Folder(r.slot.profile, r.slot.service, r.snapshot)} else {};
      Some(s.(folders := s.folders - dropped, dropped := s.dropped + dropped, deleters := s.deleters - {t}))
    else None
  }

  function RunningIds(db: Tables): set<string> {
    set id | id in db.sessions && db.sessions[id].status == Running
  }

  /** The process dies at any point and is started again on what the store holds. */
  function RestartStep(s: State): Option<State> {
    Some(s.(
      db := Reconcile(s.db), holder := None, cancels := {}, workers := map[], deleters := map[],
      interrupted := s.interrupted + RunningIds(s.db),
      settles := map id | id in s.settles ::
        s.settles[id] + if id in s.db.sessions && s.db.sessions[id].status == Running then 1 else 0))
  }

  ghost function StartStep(s: State, e: StartEvent): Option<State> {
    match e
    case Acquire(req) => AcquireStep(s, req)
    case Check(found) => CheckStep(s, found)
    case CheckFails => GiveUpStep(s, true)
    case Create(id, now) => CreateStep(s, id, now)
    case CreateFails => GiveUpStep(s, false)
    case Register => RegisterStep(s)
    case Release => ReleaseStep(s)
  }

  function RunStep(s: State, id: string, e: RunEvent): Option<State> {
    match e
    case Write(chunk) => WriteStep(s, id, chunk)
    case Append => AppendStep(s, id)
    case MakeFolder => MakeFolderStep(s, id)
    case Return(err) => ReturnStep(s, id, err)
    case Flush => FlushStep(s, id)
  }

  function EndStep(s: State, id: string, e: EndEvent): Option<State> {
    match e
    case Forget => ForgetStep(s, id)
    case Clean => CleanStep(s, id)
    case Finish => FinishStep(s, id)
    case FinishFails => FinishFailsStep(s, id)
  }

  function DeleteStep(s: State, t: nat, e: DeleteEvent): Option<State> {
    match e
    case ReadRow(id) => ReadRowStep(s, t, id)
    case DropRow => DropRowStep(s, t)
    case DropLog => DropLogStep(s, t)
    case DropFolder => DropFolderStep(s, t)
  }

  ghost function Step(s: State, e: Event): Option<State> {
    match e
    case InStart(start) => StartStep(s, start)
    case InRun(id, run) => RunStep(s, id, run)
    case InEnd(id, end) => EndStep(s, id, end)
    case InDelete(t, delete) => DeleteStep(s, t, delete)
    case Cancel(id) => CancelStep(s, id)
    case Restart => RestartStep(s)
  }

  /** A run: `None` when some event could not happen where it is listed. */
  ghost function Run(s: State, events: seq<Event>): Option<State>
    decreases |events|
  {
    if events == [] then Some(s)
    else
      var before := Run(s, events[..|events| - 1]);
      if before == None then None else Step(before.value, events[|events| - 1])
  }

  ghost predicate Reachable(s: State) {
    exists events :: Run(INITIAL, events) == Some(s)
  }

  // ------------------------------------------------------------------ what runs keep

  predicate IsRunning(s: State, id: string) {
    id in s.db.sessions && s.db.sessions[id].status == Running
  }

  predicate Registered(w: Worker) {
    w.Working? || w.Returned? || w.Flushed?
  }

  /** Between inserting a session and spawning its goroutine. */
  predicate BeingRegistered(s: State, id: string) {
    s.holder.Some? && s.holder.value.Registering? && s.holder.value.id == id
  }

  predicate SettledAs(row: Session, o: Outcome) {
    row.status == o.status && row.snapshot == o.snapshot && row.error == o.error
  }

  predicate SaysInterrupted(row: Session) {
    row.status == Error && row.error == INTERRUPTED && row.snapshot == ""
  }

  /** A session's row: its goroutine, or the `Start` about to spawn it, works on a running
      row; it can be cancelled exactly until its goroutine forgets it; it has settled once
      if it is not running and not at all if it is; it was settled either by its goroutine,
      and stays as what its run returned says, or by a restart, and says so. */
  predicate RowOk(s: State, id: string) {
    && (id in s.db.sessions ==> id in s.requests && s.db.sessions[id].slot == s.requests[id].slot)
    && (id in s.settles <==> id in s.requests)
    && (id in s.workers || BeingRegistered(s, id) ==> IsRunning(s, id))
    && (id in s.cancels <==> id in s.workers && Registered(s.workers[id]))
    && (BeingRegistered(s, id) ==> id !in s.workers && id in s.requests && s.requests[id] == s.holder.value.req)
    && SettlesOf(s, id) <= 1
    && (id in s.db.sessions ==> SettlesOf(s, id) == if IsRunning(s, id) then 0 else 1)
    && (IsRunning(s, id) ==> s.db.sessions[id].snapshot == s.db.sessions[id].error == "")
    && (id in s.finished ==> id in s.requests)
    && (id in s.finished && id in s.db.sessions ==> SettledAs(s.db.sessions[id], Classify(s.requests[id], s.finished[id])))
    && (id in s.db.sessions && !IsRunning(s, id) ==> id in s.finished || id in s.interrupted)
    && (id in s.interrupted ==> id in s.requests && id !in s.finished && !IsRunning(s, id))
    && (id in s.interrupted && id in s.db.sessions ==> SaysInterrupted(s.db.sessions[id]))
  }

  /** What a goroutine's log holds, by where it stands. */
  ghost predicate LogMatches(w: Worker, rows: seq<LogLine>, output: string) {
    match w
    case Working(buf) => Lines(rows) + Complete(buf) == Complete(output) && Partial(buf) == Partial(output)
    case Returned(buf, _) => Lines(rows) == Complete(output) && buf == Partial(output)
    case _ => Lines(rows) == SplitOutput(output)
  }

  /** A session's log: numbered, and once the goroutine has flushed, the newline-split of
      all the output of the run. */
  ghost predicate LogOk(s: State, id: string) {
    && (id in s.db.logs ==> id in s.requests)
    && (id in s.outputs <==> id in s.requests)
    && Numbered(LogOf(s.db, id))
    && (id in s.workers && id in s.outputs ==> LogMatches(s.workers[id], LogOf(s.db, id), s.outputs[id]))
    && (BeingRegistered(s, id) && id in s.outputs ==> LogOf(s.db, id) == [] && s.outputs[id] == "")
    && (id in s.finished && id in s.db.sessions && id in s.outputs ==> Lines(LogOf(s.db, id)) == SplitOutput(s.outputs[id]))
  }

  /** The holder of the mutex has a request and no session yet. */
  predicate Starting(s: State) {
    s.holder.Some? && (s.holder.value.Checking? || s.holder.value.Creating?)
  }

  /** A session's folder: claimed by no other request, and on disk from when the run has made
      it until the goroutine cleans up, unless a delete drops it. */
  predicate FolderOk(s: State, id: string) {
    && (id in s.requests && s.requests[id].owned.Some? ==>
          var f := s.requests[id].owned.value;
          && f in s.claimed
          && (Starting(s) ==> s.holder.value.req.owned != Some(f))
          && (f in s.folders <==> id in s.made && id !in s.cleaned && f !in s.dropped))
    && (id in s.made ==> id in s.requests)
    && (id in s.cleaned ==> id in s.requests && !BeingRegistered(s, id) && (id in s.workers ==> s.workers[id].Cleaned?))
    && (id in s.workers && s.workers[id].Cleaned? ==> (id in s.cleaned <==> Cleans(s.workers[id].err)))
    && (id in s.finished ==> (id in s.cleaned <==> Cleans(s.finished[id])))
  }

  /** Two sessions: not both running in one slot, not both owners of one folder. */
  predicate PairOk(s: State, a: string, b: string) {
    a != b ==>
      && !(IsRunning(s, a) && IsRunning(s, b) && s.db.sessions[a].slot == s.db.sessions[b].slot)
      && !(a in s.requests && b in s.requests && s.requests[a].owned.Some? && s.requests[a].owned == s.requests[b].owned)
  }

  /** A delete past its first read never finds the session running again, nor changed. */
  predicate DeleterOk(s: State, t: nat) {
    t in s.deleters ==>
      match s.deleters[t]
      case DroppingRow(id, read) => id in s.requests && !IsRunning(s, id) && (id in s.db.sessions ==> s.db.sessions[id] == read)
      case DroppingLogs(id, _) => id in s.requests && id !in s.db.sessions
      case DroppingFolder(_) => true
  }

  /** The holder of the mutex: creating only when its slot is free, its folder claimed and not
      there yet. */
  ghost predicate HolderOk(s: State) {
    && (Starting(s) && s.holder.value.req.owned.Some? ==>
          s.holder.value.req.owned.value in s.claimed && s.holder.value.req.owned.value !in s.folders)
    && (s.holder.Some? && s.holder.value.Creating? ==> forall id :: !IsRunningIn(s.db, id, s.holder.value.req.slot))
  }

  ghost predicate Inv(s: State) {
    && (forall id :: RowOk(s, id))
    && (forall id :: LogOk(s, id))
    && (forall id :: FolderOk(s, id))
    && (forall a, b :: PairOk(s, a, b))
    && (forall t :: DeleterOk(s, t))
    && HolderOk(s)
  }

  // ------------------------------------------------------- one kind of step at a time

  /** What a step does to the row of a session that it does not create: a settled row stays
      as it is while it exists, and nothing runs again. */
  ghost predicate RowLives(s: State, t: State, id: string) {
    && (IsRunning(t, id) ==> IsRunning(s, id) && t.db.sessions[id] == s.db.sessions[id])
    && (id in s.db.sessions && !IsRunning(s, id) && id in t.db.sessions ==> t.db.sessions[id] == s.db.sessions[id])
    && (id in s.requests ==> id in t.requests && t.requests[id] == s.requests[id])
    && (id in s.requests && id !in s.db.sessions ==> id !in t.db.sessions)
  }

  /** All that `Start` does but for inserting and registering its session touches the mutex
      only. */
  lemma OnlyMutex(s: State, e: StartEvent)
    requires StartStep(s, e).Some? && !e.Create? && !e.Register?
    ensures var t := StartStep(s, e).value;
      s.(holder := t.holder, claimed := t.claimed) == t && !(t.holder.Some? && t.holder.value.Registering?)
  {
    hide CreateStep, RegisterStep, IsRunningIn, IsLatestRunning;
  }

  lemma RowKeptByStart(s: State, e: StartEvent, id: string)
    requires StartStep(s, e).Some? && Inv(s)
    ensures RowOk(StartStep(s, e).value, id)
  {
    hide LogOk, FolderOk, PairOk, DeleterOk, HolderOk, Cleans, KindName, Classify;
    assert RowOk(s, id);
    if e.Create? {
      hide StartStep;
    } else if e.Register? {
      hide StartStep;
    } else {
      hide StartStep;
      OnlyMutex(s, e);
    }
  }

  lemma RowLivesThroughStart(s: State, e: StartEvent, id: string)
    requires StartStep(s, e).Some? && Inv(s)
    ensures !(e.Create? && e.id == id) ==> RowLives(s, StartStep(s, e).value, id)
    ensures e.Create? ==> e.id !in s.requests
  {
    hide Inv;
  }

  lemma LogKeptByStart(s: State, e: StartEvent, id: string)
    requires StartStep(s, e).Some? && Inv(s)
    ensures LogOk(StartStep(s, e).value, id)
  {
    hide FolderOk, PairOk, DeleterOk, HolderOk, SplitOutput;
    assert RowOk(s, id) && LogOk(s, id);
    if !e.Create? && !e.Register? {
      hide StartStep, LogMatches, Numbered, Lines;
      OnlyMutex(s, e);
    }
  }

  lemma FolderKeptByStart(s: State, e: StartEvent, id: string)
    requires StartStep(s, e).Some? && Inv(s)
    ensures FolderOk(StartStep(s, e).value, id)
  {
    hide LogOk, PairOk, DeleterOk, Cleans;
    assert RowOk(s, id) && FolderOk(s, id);
    if !e.Create? && !e.Register? && !e.Acquire? {
      OnlyMutex(s, e);
    }
  }

  lemma PairKeptByStart(s: State, e: StartEvent, a: string, b: string)
    requires StartStep(s, e).Some? && Inv(s)
    ensures PairOk(StartStep(s, e).value, a, b)
  {
    hide LogOk, DeleterOk, RowOk, Cleans;
    assert PairOk(s, a, b) && FolderOk(s, a) && FolderOk(s, b);
    if !e.Create? && !e.Register? {
      hide StartStep;
      OnlyMutex(s, e);
    } else if e.Create? {
      assert !IsRunningIn(s.db, a, s.holder.value.req.slot) && !IsRunningIn(s.db, b, s.holder.value.req.slot);
    }
  }

  lemma HolderKeptByStart(s: State, e: StartEvent)
    requires StartStep(s, e).Some? && Inv(s)
    ensures HolderOk(StartStep(s, e).value)
  {
    hide LogOk, DeleterOk, RowOk, FolderOk, PairOk;
  }

  lemma RowKeptByRun(s: State, x: string, e: RunEvent, id: string)
    requires RunStep(s, x, e).Some? && Inv(s)
    ensures RowOk(RunStep(s, x, e).value, id) && RowLives(s, RunStep(s, x, e).value, id)
  {
    hide CutLine, Classify, LogOk, FolderOk, PairOk, HolderOk, DeleterOk;
    assert RowOk(s, id);
  }

  lemma LogOnWrite(buf: string, rows: seq<LogLine>, output: string, chunk: string)
    requires LogMatches(Working(buf), rows, output) && '\n' !in buf
    ensures LogMatches(Working(buf + chunk), rows, output + chunk)
  {
    SplitConcat(output, chunk);
    assert Lines(rows) + [] == Lines(rows);
  }

  lemma LogOnAppend(buf: string, db: Tables, id: string, output: string)
    requires LogMatches(Working(buf), LogOf(db, id), output) && Numbered(LogOf(db, id)) && '\n' in buf
    ensures LogMatches(Working(CutLine(buf).1), LogOf(AppendRow(db, id, CutLine(buf).0), id), output)
  {
    AppendKeepsNumbered(db, id, CutLine(buf).0);
    Regroup(Lines(LogOf(db, id)), [CutLine(buf).0], Complete(CutLine(buf).1));
  }

  lemma LogOnReturn(buf: string, err: Option<RunError>, rows: seq<LogLine>, output: string)
    requires LogMatches(Working(buf), rows, output) && '\n' !in buf
    ensures LogMatches(Returned(buf, err), rows, output)
  {
    assert Lines(rows) + [] == Lines(rows);
  }

  lemma LogOnFlush(buf: string, err: Option<RunError>, db: Tables, id: string, output: string)
    requires LogMatches(Returned(buf, err), LogOf(db, id), output) && Numbered(LogOf(db, id))
    ensures buf == "" ==> LogMatches(Flushed(err), LogOf(db, id), output)
    ensures buf != "" ==> LogMatches(Flushed(err), LogOf(AppendRow(db, id, buf), id), output)
  {
    AppendKeepsNumbered(db, id, buf);
    assert Complete(output) + [] == Complete(output);
  }

  lemma LogKeptByRun(s: State, x: string, e: RunEvent, id: string)
    requires RunStep(s, x, e).Some? && Inv(s)
    ensures LogOk(RunStep(s, x, e).value, id)
  {
    hide LogMatches, Numbered, Lines, SplitOutput, CutLine, FolderOk, PairOk, HolderOk, DeleterOk;
    assert RowOk(s, id) && LogOk(s, id);
    if x == id && !e.MakeFolder? {
      var w, log := s.workers[id], LogOf(s.db, id);
      match e
      case Write(chunk) =>
        LogOnWrite(w.buf, log, s.outputs[id], chunk);
      case Append =>
        LogOnAppend(w.buf, s.db, id, s.outputs[id]);
        AppendKeepsNumbered(s.db, id, CutLine(w.buf).0);
      case Return(err) =>
        LogOnReturn(w.buf, err, log, s.outputs[id]);
      case Flush =>
        LogOnFlush(w.buf, w.err, s.db, id, s.outputs[id]);
        AppendKeepsNumbered(s.db, id, w.buf);
    }
  }

  lemma FolderKeptByRun(s: State, x: string, e: RunEvent, id: string)
    requires RunStep(s, x, e).Some? && Inv(s)
    ensures FolderOk(RunStep(s, x, e).value, id)
  {
    hide CutLine, LogOk, DeleterOk, HolderOk;
    assert RowOk(s, id) && FolderOk(s, id) && PairOk(s, id, x) && RowOk(s, x);
  }

  lemma RowKeptByEnd(s: State, x: string, e: EndEvent, id: string)
    requires EndStep(s, x, e).Some? && Inv(s)
    ensures RowOk(EndStep(s, x, e).value, id) && RowLives(s, EndStep(s, x, e).value, id)
  {
    hide LogOk, FolderOk, PairOk, HolderOk, DeleterOk;
    assert RowOk(s, id);
  }

  lemma LogKeptByEnd(s: State, x: string, e: EndEvent, id: string)
    requires EndStep(s, x, e).Some? && Inv(s)
    ensures LogOk(EndStep(s, x, e).value, id)
  {
    hide Numbered, Lines, SplitOutput, Cleans, FolderOk, PairOk, HolderOk, DeleterOk;
    assert RowOk(s, id) && LogOk(s, id);
  }

  lemma FolderKeptByEnd(s: State, x: string, e: EndEvent, id: string)
    requires EndStep(s, x, e).Some? && Inv(s)
    ensures FolderOk(EndStep(s, x, e).value, id)
  {
    hide LogOk, Cleans, HolderOk, DeleterOk;
    assert RowOk(s, id) && RowOk(s, x) && FolderOk(s, id) && PairOk(s, id, x);
  }

  lemma DeleteFrame(s: State, t: nat, e: DeleteEvent)
    requires DeleteStep(s, t, e).Some?
    ensures var u := DeleteStep(s, t, e).value;
      u == s.(db := u.db, deleters := u.deleters, folders := u.folders, dropped := u.dropped)
  {
  }

  lemma RowLivesThroughDelete(s: State, t: nat, e: DeleteEvent, id: string)
    requires DeleteStep(s, t, e).Some?
    ensures RowLives(s, DeleteStep(s, t, e).value, id)
    ensures DeleterOk(s, t) && IsRunning(s, id) ==> IsRunning(DeleteStep(s, t, e).value, id)
    ensures id in DeleteStep(s, t, e).value.db.sessions ==> id in s.db.sessions
  {
  }

  lemma RowKeptByDelete(s: State, t: nat, e: DeleteEvent, id: string)
    requires DeleteStep(s, t, e).Some? && Inv(s)
    ensures RowOk(DeleteStep(s, t, e).value, id)
  {
    hide DeleteStep, DeleterOk, LogOk, FolderOk, PairOk, HolderOk;
    DeleteFrame(s, t, e);
    RowLivesThroughDelete(s, t, e, id);
    assert RowOk(s, id) && DeleterOk(s, t);
  }

  lemma LogKeptByDelete(s: State, t: nat, e: DeleteEvent, id: string)
    requires DeleteStep(s, t, e).Some? && Inv(s)
    ensures LogOk(DeleteStep(s, t, e).value, id)
  {
    hide LogMatches, Lines, SplitOutput, Cleans, FolderOk, PairOk, HolderOk;
    assert RowOk(s, id) && LogOk(s, id) && DeleterOk(s, t);
  }

  lemma FolderKeptByDelete(s: State, t: nat, e: DeleteEvent, id: string)
    requires DeleteStep(s, t, e).Some? && Inv(s)
    ensures FolderOk(DeleteStep(s, t, e).value, id)
  {
    hide LogOk, Cleans, RowOk, PairOk, HolderOk, DeleterOk;
    assert FolderOk(s, id);
  }

  lemma DeleterKeptByDelete(s: State, t: nat, e: DeleteEvent, u: nat)
    requires DeleteStep(s, t, e).Some? && Inv(s)
    ensures DeleterOk(DeleteStep(s, t, e).value, u)
  {
    hide LogOk, FolderOk, PairOk, HolderOk, Cleans;
    assert DeleterOk(s, u) && DeleterOk(s, t);
    if e.ReadRow? {
      assert RowOk(s, e.id);
    }
  }

  lemma KeptByRestart(s: State, id: string)
    requires Inv(s)
    ensures var t := RestartStep(s).value; RowOk(t, id) && LogOk(t, id) && FolderOk(t, id) && RowLives(s, t, id)
  {
    hide LogMatches, Numbered, Lines, SplitOutput, Cleans, PairOk, HolderOk, DeleterOk;
    assert RowOk(s, id) && LogOk(s, id) && FolderOk(s, id);
  }
}
