/** A client that follows a session by polling (ui/src/features/backups/hooks/
    useBackupSession.ts), against the server of `Sessions` (handleGetBackup). */
module Polling {
  import opened Text
  import opened BackupStore
  import opened LogWriter
  import opened Sessions
  import opened SessionSafety

  /** What the server answers a poll with: the session, then its log past the cursor. */
  datatype Reply = Reply(session: Session, logs: seq<LogLine>)

  datatype Shown = Idle | Shows(status: Status)

  /** The hook's references and its state. An absent error or snapshot is empty. `timer` is a
      timer that can still be cleared; `loose` counts those whose handle was written over. */
  datatype View = View(
    sessionId: Option<string>, lastSeq: nat, stopped: bool, timer: bool, loose: nat,
    shown: Shown, lines: seq<string>, error: string, snapshot: string)

  const IDLE := View(None, 0, false, false, 0, Idle, [], "", "")

  function Stopped(v: View): View {
    v.(stopped := true, timer := false)
  }

  function Attached(v: View, id: string): View {
    View(Some(id), 0, false, false, v.loose, Shows(Running), [], "", "")
  }

  function Detached(v: View): View {
    View(None, 0, true, false, v.loose, Idle, [], "", "")
  }

  /** Whether a call of `poll` sends a request. */
  predicate Asks(v: View) {
    !v.stopped && v.sessionId.Some?
  }

  function Failed(v: View, cause: string): View {
    if v.stopped then v else v.(shown := Shows(Error), error := cause)
  }

  function Received(v: View, r: Reply): View {
    if v.stopped then v
    else v.(
      lastSeq := if r.logs != [] then r.logs[|r.logs| - 1].seq_ else v.lastSeq,
      lines := v.lines + Lines(r.logs),
      shown := Shows(r.session.status),
      error := if r.session.error != "" then r.session.error else v.error,
      snapshot := if r.session.snapshot != "" then r.session.snapshot else v.snapshot,
      timer := r.session.status == Running || v.timer,
      loose := if r.session.status == Running && v.timer then v.loose + 1 else v.loose)
  }

  /** The hook itself. */
  class BackupSessionHook {
    var sessionId: Option<string>
    var lastSeq: nat
    var stopped: bool
    var timer: bool
    ghost var loose: nat
    var shown: Shown
    var lines: seq<string>
    var error: string
    var snapshot: string

    ghost function Now(): View
      reads this
    {
      View(sessionId, lastSeq, stopped, timer, loose, shown, lines, error, snapshot)
    }

    constructor ()
      ensures Now() == IDLE
    {
      sessionId, lastSeq, stopped, timer, loose := None, 0, false, false, 0;
      shown, lines, error, snapshot := Idle, [], "", "";
    }

    method Stop()
      modifies this
      ensures Now() == Stopped(old(Now()))
    {
      stopped := true;
      timer := false;
    }

    /** Starts watching from the beginning; the poll it starts asks for the whole log. */
    method Attach(id: string)
      modifies this
      ensures Now() == Attached(old(Now()), id) && Asks(Now())
    {
      Stop();
      stopped := false;
      sessionId := Some(id);
      lastSeq := 0;
      shown, lines, error, snapshot := Shows(Running), [], "", "";
    }

    method Detach()
      modifies this
      ensures Now() == Detached(old(Now()))
    {
      Stop();
      sessionId := None;
      lastSeq := 0;
      shown, lines, error, snapshot := Idle, [], "", "";
    }

    /** The second half of `poll`: the request has been answered. */
    method Receive(r: Reply)
      modifies this
      ensures Now() == Received(old(Now()), r)
    {
      if stopped {
        return;
      }
      if |r.logs| > 0 {
        lastSeq := r.logs[|r.logs| - 1].seq_;
      }
      shown := Shows(r.session.status);
      var i := 0;
      ghost var before := lines;
      while i < |r.logs|
        invariant i <= |r.logs| && lines == before + Lines(r.logs[..i])
        invariant Now() == old(Received(Now(), r)).(lines := lines, error := old(error), snapshot := old(snapshot), timer := old(timer), loose := old(loose))
      {
        assert Lines(r.logs[..i + 1]) == Lines(r.logs[..i]) + [r.logs[i].line];
        lines := lines + [r.logs[i].line];
        i := i + 1;
      }
      assert r.logs[..i] == r.logs;
      if r.session.error != "" {
        error := r.session.error;
      }
      if r.session.snapshot != "" {
        snapshot := r.session.snapshot;
      }
      if r.session.status == Running {
        if timer {
          loose := loose + 1;
        }
        timer := true;
      }
    }

    method Fail(cause: string)
      modifies this
      ensures Now() == Failed(old(Now()), cause)
    {
      if !stopped {
        shown := Shows(Error);
        error := cause;
      }
    }
  }

  // ------------------------------------------------------------------ one reply

  /** The lines shown are the first of the log, up to the cursor. */
  ghost predicate Follows(lines: seq<string>, lastSeq: nat, log: seq<LogLine>) {
    lastSeq <= |log| && lines == Lines(log[..lastSeq])
  }

  /** A reply keeps a view exact just when it brings nothing, or exactly the next lines of the
      session's log, numbered on from the cursor. */
  lemma ReceiveExact(v: View, reply: Reply, log: seq<LogLine>)
    requires !v.stopped && Numbered(log) && Follows(v.lines, v.lastSeq, log)
    ensures var t := Received(v, reply); var end := v.lastSeq + |reply.logs|;
      Follows(t.lines, t.lastSeq, log)
      <==> reply.logs == [] || (end <= |log| && reply.logs[|reply.logs| - 1].seq_ == end && Lines(reply.logs) == Lines(log[v.lastSeq..end]))
  {
    var t, end := Received(v, reply), v.lastSeq + |reply.logs|;
    if reply.logs == [] {
      assert t.lines == v.lines;
    } else {
      assert |t.lines| == end;
      if end <= |log| && t.lastSeq == end {
        assert Lines(log[..v.lastSeq]) + Lines(log[v.lastSeq..end]) == Lines(log[..end]);
        assert (v.lines + Lines(reply.logs))[v.lastSeq..] == Lines(reply.logs);
        assert Lines(log[..end])[v.lastSeq..] == Lines(log[v.lastSeq..end]);
      }
    }
  }

  /** A reply to a question at cursor `after`, read off the session's own log, is such a one
      just when it is empty or the cursor is still where the view is: an older poll's reply
      repeats lines or skips some. */
  lemma OwnReplyExact(v: View, session: Session, log: seq<LogLine>, after: nat, n: nat)
    requires !v.stopped && Numbered(log) && Follows(v.lines, v.lastSeq, log)
    requires after + n <= |log|
    ensures var t := Received(v, Reply(session, log[after..after + n]));
      Follows(t.lines, t.lastSeq, log) <==> n == 0 || after == v.lastSeq
  {
    ReceiveExact(v, Reply(session, log[after..after + n]), log);
  }

  // ------------------------------------------------------------------ the system

  /** A request on its way: asked, past the server's first read, answered, or lost. */
  datatype Flight =
    | Asked(id: string, after: nat)
    | RowRead(id: string, after: nat, row: Session)
    | Answered(id: string, after: nat, reply: Reply)
    | Broken

  /** The server, one client, its requests in flight, and the session in the last reply that
      the client took. */
  datatype System = System(server: State, view: View, flights: seq<Flight>, heard: Option<Session>)

  datatype Move =
    | Serve(e: Event)
    | Attach(id: string)
    | Detach
    | Unmount
    | Fire
    | FireLoose
    | ReadSession(i: nat)
    | ReadLog(i: nat)
    | Lose(i: nat)
    | Deliver(i: nat)

  const BEGINNING := System(INITIAL, IDLE, [], None)

  /** What a call of `poll` sends. */
  function Ask(v: View): seq<Flight> {
    if Asks(v) then [Asked(v.sessionId.value, v.lastSeq)] else []
  }

  /** A restart of the server breaks the requests it has not answered. */
  function Unanswered(flights: seq<Flight>): seq<Flight> {
    seq(|flights|, i requires 0 <= i < |flights| => if flights[i].Answered? then flights[i] else Broken)
  }

  ghost function ServeMove(y: System, e: Event): Option<System> {
    var next := Step(y.server, e);
    if next == None then None
    else Some(y.(server := next.value, flights := if e == Restart then Unanswered(y.flights) else y.flights))
  }

  /** Attaching, whatever is in flight. */
  function AttachMove(y: System, id: string): System {
    var v := Attached(y.view, id);
    y.(view := v, flights := y.flights + Ask(v), heard := None)
  }

  /** A timer goes off. */
  function FireMove(y: System): Option<System> {
    if y.view.timer then Some(y.(view := y.view.(timer := false), flights := y.flights + Ask(y.view))) else None
  }

  function FireLooseMove(y: System): Option<System> {
    if y.view.loose > 0 then Some(y.(view := y.view.(loose := y.view.loose - 1), flights := y.flights + Ask(y.view))) else None
  }

  /** The server reads the session first ... */
  function ReadSessionMove(y: System, i: nat): Option<System> {
    if i < |y.flights| && y.flights[i].Asked? then
      var (id, after) := (y.flights[i].id, y.flights[i].after);
      var found := if id in y.server.db.sessions then RowRead(id, after, y.server.db.sessions[id]) else Broken;
      Some(y.(flights := y.flights[i := found]))
    else None
  }

  /** ... and then the log. */
  function ReadLogMove(y: System, i: nat): Option<System> {
    if i < |y.flights| && y.flights[i].RowRead? then
      var (id, after) := (y.flights[i].id, y.flights[i].after);
      Some(y.(flights := y.flights[i := Answered(id, after, Reply(y.flights[i].row, RowsAfter(LogOf(y.server.db, id), after)))]))
    else None
  }

  function LoseMove(y: System, i: nat): Option<System> {
    if i < |y.flights| then Some(y.(flights := y.flights[i := Broken])) else None
  }

  /** The client takes a reply, of whatever session it is. */
  function DeliverMove(y: System, i: nat): Option<System> {
    if i < |y.flights| && (y.flights[i].Answered? || y.flights[i].Broken?) then
      var rest := y.flights[..i] + y.flights[i + 1..];
      if y.flights[i].Broken? then Some(y.(view := Failed(y.view, "request failed"), flights := rest))
      else
        var reply := y.flights[i].reply;
        Some(y.(view := Received(y.view, reply), flights := rest, heard := if y.view.stopped then y.heard else Some(reply.session)))
    else None
  }

  ghost function Moved(y: System, m: Move): Option<System> {
    match m
    case Serve(e) => ServeMove(y, e)
    case Attach(id) => Some(AttachMove(y, id))
    case Detach => Some(y.(view := Detached(y.view), heard := None))
    case Unmount => Some(y.(view := Stopped(y.view)))
    case Fire => FireMove(y)
    case FireLoose => FireLooseMove(y)
    case ReadSession(i) => ReadSessionMove(y, i)
    case ReadLog(i) => ReadLogMove(y, i)
    case Lose(i) => LoseMove(y, i)
    case Deliver(i) => DeliverMove(y, i)
  }

  ghost function RunAll(moves: seq<Move>): Option<System>
    decreases |moves|
  {
    if moves == [] then Some(BEGINNING)
    else
      var before := RunAll(moves[..|moves| - 1]);
      if before == None then None else Moved(before.value, moves[|moves| - 1])
  }

  /** No attach finds an older request still in flight. */
  ghost predicate Quiet(moves: seq<Move>)
    decreases |moves|
  {
    moves == [] || (
      var front := moves[..|moves| - 1];
      Quiet(front) && (moves[|moves| - 1].Attach? && RunAll(front).Some? ==> RunAll(front).value.flights == []))
  }

  // --------------------------------------------------------------- what all runs keep

  /** A client that shows a running session has something coming: a timer or a request. One that
      watches nothing shows nothing. */
  predicate Attends(y: System) {
    && (Asks(y.view) && y.view.shown == Shows(Running) ==> y.view.timer || y.view.loose > 0 || y.flights != [])
    && (y.view.sessionId == None ==> y.view.shown == Idle && y.view.lines == [] && (y.view.stopped || y.flights == []))
  }

  lemma AttendsKept(y: System, m: Move)
    requires Attends(y) && Moved(y, m).Some?
    ensures Attends(Moved(y, m).value)
  {
    hide Step, LogOf, RowsAfter, Lines;
  }

  lemma BeginningAttends()
    ensures Attends(BEGINNING)
  {}

  lemma {:induction false} RunsAttend(moves: seq<Move>)
    requires RunAll(moves).Some?
    ensures Attends(RunAll(moves).value)
    decreases |moves|
  {
    hide Moved, Attends;
    if moves == [] {
      BeginningAttends();
    } else {
      RunsAttend(moves[..|moves| - 1]);
      AttendsKept(RunAll(moves[..|moves| - 1]).value, moves[|moves| - 1]);
    }
  }

  /** In every run whatever the interleaving: while a client that has not been stopped shows a
      session as running, a timer is set or a request is under way, so it asks again; and
      a client that has been detached shows nothing of what was under way. */
  lemma AsksAgain(moves: seq<Move>)
    requires RunAll(moves).Some?
    ensures var y := RunAll(moves).value;
      !y.view.stopped && y.view.sessionId.Some? && y.view.shown == Shows(Running) ==> y.view.timer || y.view.loose > 0 || y.flights != []
    ensures var y := RunAll(moves).value; y.view.sessionId == None ==> y.view.shown == Idle && y.view.lines == []
  {
    RunsAttend(moves);
  }

  /** A client that unmounts or detaches has stopped: it takes no answer and sends no request any
      more, until it is attached again. */
  lemma StopsAsking(y: System, m: Move)
    requires m.Unmount? || m.Detach?
    ensures Moved(y, m).Some?
    ensures var v := Moved(y, m).value.view; v.stopped && !v.timer && Ask(v) == []
    ensures m.Detach? ==> Moved(y, m).value.view.sessionId == None
  {
  }

  /** An attach starts over: it shows the session as running with nothing of before, and one
      request for its log from the beginning is sent. */
  lemma AttachAsks(y: System, id: string)
    ensures Moved(y, Attach(id)).Some?
    ensures var t := Moved(y, Attach(id)).value; var v := t.view;
      && v.sessionId == Some(id) && !v.stopped && !v.timer && v.loose == y.view.loose
      && v.shown == Shows(Running) && v.lines == [] && v.error == "" && v.snapshot == ""
      && t.flights == y.flights + [Asked(id, 0)] && t.server == y.server
  {
  }

  /** What taking an answer leaves: a timer if the session was running, and no new one if it
      was not or if the request failed; a stopped client takes nothing. */
  lemma TimerAfterReply(y: System, i: nat)
    requires Moved(y, Deliver(i)).Some?
    ensures var v, t, f := y.view, Moved(y, Deliver(i)).value.view, y.flights[i];
      && (v.stopped ==> t == v)
      && (!v.stopped && f.Answered? && f.reply.session.status == Running ==> t.timer && t.loose == v.loose + if v.timer then 1 else 0)
      && (!v.stopped && f.Answered? && f.reply.session.status != Running ==> t.timer == v.timer && t.loose == v.loose)
      && (!v.stopped && f.Broken? ==> t == v.(shown := Shows(Error), error := t.error) && t.error != "")
      && t.sessionId == v.sessionId && t.stopped == v.stopped
  {
    hide Lines;
  }

  // ------------------------------------------------------------- what quiet runs keep

  /** A row read before the log was: if it had settled, row and log are final. */
  ghost predicate Final(s: State, id: string, row: Session, end: nat) {
    row.status != Running && id in s.db.sessions ==> s.db.sessions[id] == row && end == |LogOf(s.db, id)|
  }

  ghost predicate FlightOk(s: State, id: string, lastSeq: nat, f: Flight) {
    match f
    case Asked(x, after) => x == id && after == lastSeq
    case RowRead(x, after, row) =>
      && x == id && after == lastSeq && id in s.requests
      && (row.status != Running && id in s.db.sessions ==> s.db.sessions[id] == row)
    case Answered(x, after, reply) =>
      && x == id && after == lastSeq && id in s.requests
      && (id in s.db.sessions ==>
            lastSeq + |reply.logs| <= |LogOf(s.db, id)| && reply.logs == LogOf(s.db, id)[lastSeq..lastSeq + |reply.logs|])
      && Final(s, id, reply.session, lastSeq + |reply.logs|)
    case Broken => true
  }

  /** The client watches `id`: while the session is stored, the client holds the log up to
      its cursor; once it has heard that the session has settled, it holds all of it. */
  ghost predicate Watching(y: System, id: string) {
    && (id in y.server.db.sessions ==> Follows(y.view.lines, y.view.lastSeq, LogOf(y.server.db, id)))
    && (id !in y.server.requests ==> y.view.lines == [] && y.view.lastSeq == 0 && y.heard == None)
    && (y.flights != [] ==> FlightOk(y.server, id, y.view.lastSeq, y.flights[0]))
    && (y.heard.Some? ==> Final(y.server, id, y.heard.value, y.view.lastSeq))
  }

  /** What the client shows is what it has heard, or that a request failed. */
  predicate ShowsHeard(y: System) {
    match y.view.shown
    case Idle => y.heard == None
    case Shows(Running) => y.heard.Some? ==> y.heard.value.status == Running
    case Shows(Error) => true
    case Shows(status) => y.heard.Some? && y.heard.value.status == status
  }

  /** A running session's row has no error and no snapshot. */
  predicate Blank(row: Session) {
    row.status == Running ==> row.error == row.snapshot == ""
  }

  predicate FlightBlank(f: Flight) {
    (f.RowRead? ==> Blank(f.row)) && (f.Answered? ==> Blank(f.reply.session))
  }

  /** Error and snapshot are what the client has heard: none while the session runs, unless a
      request has failed, and what the session settled with after that. Settled or failed,
      nothing more is asked. */
  predicate TellsHeard(y: System) {
    && (forall i :: 0 <= i < |y.flights| ==> FlightBlank(y.flights[i]))
    && if y.heard.Some? && y.heard.value.status != Running
       then y.view.error == y.heard.value.error && y.view.snapshot == y.heard.value.snapshot && y.flights == [] && !y.view.timer
       else y.view.snapshot == "" && (if y.view.shown == Shows(Error) then y.flights == [] && !y.view.timer else y.view.error == "")
  }

  /** One request or one timer at a time. */
  predicate OneAtATime(y: System) {
    |y.flights| <= 1 && y.view.loose == 0 && (y.view.timer ==> y.flights == [])
  }

  ghost predicate SystemOk(y: System) {
    && Inv(y.server) && OneAtATime(y)
    && (Asks(y.view) ==> Watching(y, y.view.sessionId.value) && ShowsHeard(y) && TellsHeard(y))
  }

  lemma LogStaysInStart(s: State, e: StartEvent, id: string)
    requires StartStep(s, e).Some?
    ensures LogOf(StartStep(s, e).value.db, id) == LogOf(s.db, id)
  {
  }

  lemma LogGrowsInRun(s: State, x: string, e: RunEvent, id: string)
    requires Inv(s) && RunStep(s, x, e).Some?
    ensures var t := RunStep(s, x, e).value; LogOf(s.db, id) <= LogOf(t.db, id) && (!IsRunning(s, id) ==> LogOf(t.db, id) == LogOf(s.db, id))
  {
    hide CutLine, Classify, LogOk, FolderOk, PairOk, HolderOk, DeleterOk;
    assert RowOk(s, x);
  }

  lemma LogStaysAtEnd(s: State, x: string, e: EndEvent)
    requires EndStep(s, x, e).Some?
    ensures EndStep(s, x, e).value.db.logs == s.db.logs
  {
  }

  lemma LogStaysInDelete(s: State, t: nat, e: DeleteEvent, id: string)
    requires Inv(s) && DeleteStep(s, t, e).Some?
    ensures id in s.db.sessions ==> LogOf(DeleteStep(s, t, e).value.db, id) == LogOf(s.db, id)
  {
    hide LogOk, FolderOk, PairOk, HolderOk, RowOk;
    assert DeleterOk(s, t);
  }

  /** While a session is stored its log only grows, and not once it has settled. */
  lemma LogGrows(s: State, e: Event, id: string)
    requires Inv(s) && Step(s, e).Some?
    ensures var t := Step(s, e).value;
      && (id in s.db.sessions && id in t.db.sessions ==> LogOf(s.db, id) <= LogOf(t.db, id))
      && (id in s.db.sessions && id in t.db.sessions && !IsRunning(s, id) ==> LogOf(t.db, id) == LogOf(s.db, id))
  {
    hide StartStep, RunStep, EndStep, DeleteStep, LogOk, FolderOk, PairOk, HolderOk;
    match e
    case InStart(start) => LogStaysInStart(s, start, id);
    case InRun(x, run) => LogGrowsInRun(s, x, run, id);
    case InEnd(x, end) => LogStaysAtEnd(s, x, end);
    case InDelete(t, delete) => LogStaysInDelete(s, t, delete, id);
    case _ =>
  }

  lemma RowStays(s: State, e: Event, id: string)
    requires Inv(s) && Step(s, e).Some?
    ensures var t := Step(s, e).value;
      && (id in s.requests ==> id in t.requests)
      && (id in s.requests && id !in s.db.sessions ==> id !in t.db.sessions)
      && (id in s.db.sessions && !IsRunning(s, id) && id in t.db.sessions ==> t.db.sessions[id] == s.db.sessions[id])
      && (id !in s.requests && id in t.requests ==> LogOf(t.db, id) == [])
  {
    hide StartStep, RunStep, EndStep, DeleteStep, RestartStep, FolderOk, PairOk, HolderOk, DeleterOk;
    NeverRevived(s, e, id);
    SameRequests(s, e);
    assert RowOk(s, id) && LogOk(s, id);
    if e.InStart? {
      LogStaysInStart(s, e.start, id);
    }
  }

  /** What the server does meanwhile does not disturb a client. */
  lemma ServeKeeps(y: System, e: Event, id: string)
    requires Inv(y.server) && ServeMove(y, e).Some? && Watching(y, id)
    ensures Watching(ServeMove(y, e).value, id)
  {
    hide Step, RowOk, FolderOk, PairOk, HolderOk, DeleterOk, RowLives;
    var s, t := y.server, Step(y.server, e).value;
    LogGrows(s, e, id);
    StepKeeps(s, e);
    RowStays(s, e, id);
    assert LogOk(s, id) && LogOk(t, id);
    assert Lines([]) == [];
  }

  lemma LogIsNumbered(s: State, id: string)
    requires Inv(s)
    ensures Numbered(LogOf(s.db, id))
  {
    assert LogOk(s, id);
  }

  /** Taking a reply. */
  lemma DeliverKeeps(y: System, id: string)
    requires Inv(y.server) && |y.flights| == 1 && !y.view.stopped && y.view.sessionId == Some(id) && Watching(y, id) && ShowsHeard(y)
    requires DeliverMove(y, 0).Some?
    ensures Watching(DeliverMove(y, 0).value, id) && ShowsHeard(DeliverMove(y, 0).value)
  {
    hide Inv;
    if y.flights[0].Answered? && id in y.server.db.sessions {
      var log, reply := LogOf(y.server.db, id), y.flights[0].reply;
      LogIsNumbered(y.server, id);
      OwnReplyExact(y.view, reply.session, log, y.view.lastSeq, |reply.logs|);
    } else if y.flights[0].Answered? {
      assert id in y.server.requests;
    }
  }

  lemma ReadLogKeeps(y: System, id: string)
    requires Inv(y.server) && |y.flights| == 1 && Watching(y, id) && ReadLogMove(y, 0).Some?
    ensures Watching(ReadLogMove(y, 0).value, id)
  {
    hide Inv;
    if id in y.server.db.sessions {
      LogIsNumbered(y.server, id);
      RowsAfterOfNumbered(LogOf(y.server.db, id), y.view.lastSeq);
    }
  }

  lemma ReadSessionKeeps(y: System, id: string)
    requires Inv(y.server) && |y.flights| == 1 && Watching(y, id) && ReadSessionMove(y, 0).Some?
    ensures Watching(ReadSessionMove(y, 0).value, id)
  {
    hide LogOk, FolderOk, PairOk, HolderOk, DeleterOk;
    assert RowOk(y.server, id);
  }

  lemma FireKeeps(y: System, id: string)
    requires |y.flights| == 0 && y.view.sessionId == Some(id) && !y.view.stopped && Watching(y, id) && ShowsHeard(y)
    requires FireMove(y).Some?
    ensures Watching(FireMove(y).value, id) && ShowsHeard(FireMove(y).value)
  {
    hide Final, Follows;
    assert y.flights + Ask(y.view) == Ask(y.view);
  }

  lemma AttachKeeps(y: System, id: string)
    requires y.flights == []
    ensures Watching(AttachMove(y, id), id) && ShowsHeard(AttachMove(y, id))
  {
    assert [] + Ask(Attached(y.view, id)) == Ask(Attached(y.view, id));
    assert Lines([]) == [];
  }

  lemma OneAtATimeKept(y: System, m: Move)
    requires OneAtATime(y) && Moved(y, m).Some? && (m.Attach? ==> y.flights == [])
    ensures OneAtATime(Moved(y, m).value)
  {
    hide Step;
  }

  lemma TellsKept(y: System, m: Move)
    requires Inv(y.server) && OneAtATime(y) && Moved(y, m).Some? && (m.Attach? ==> y.flights == [])
    requires Asks(y.view) ==> TellsHeard(y)
    ensures Asks(Moved(y, m).value.view) ==> TellsHeard(Moved(y, m).value)
  {
    hide Step, LogOk, FolderOk, PairOk, HolderOk, DeleterOk, Lines, LogOf, RowsAfter;
    if m.ReadSession? {
      assert RowOk(y.server, y.flights[m.i].id);
    }
  }

  lemma WatchKept(y: System, m: Move)
    requires SystemOk(y) && Moved(y, m).Some? && (m.Attach? ==> y.flights == [])
    ensures var t := Moved(y, m).value; Asks(t.view) ==> Watching(t, t.view.sessionId.value) && ShowsHeard(t)
  {
    hide Inv, Step, Final, Follows, TellsHeard;
    match m
    case Serve(e) =>
      if Asks(y.view) {
        ServeKeeps(y, e, y.view.sessionId.value);
      }
    case Attach(id) => AttachKeeps(y, id);
    case Fire =>
      if Asks(y.view) {
        FireKeeps(y, y.view.sessionId.value);
      }
    case ReadSession(_) =>
      if Asks(y.view) {
        ReadSessionKeeps(y, y.view.sessionId.value);
      }
    case ReadLog(_) =>
      if Asks(y.view) {
        ReadLogKeeps(y, y.view.sessionId.value);
      }
    case Deliver(_) =>
      if Asks(y.view) {
        DeliverKeeps(y, y.view.sessionId.value);
      }
    case _ =>
  }

  /** Every move keeps this, an attach if it finds no request in flight. */
  lemma MoveKeeps(y: System, m: Move)
    requires SystemOk(y) && Moved(y, m).Some? && (m.Attach? ==> y.flights == [])
    ensures SystemOk(Moved(y, m).value)
  {
    OneAtATimeKept(y, m);
    TellsKept(y, m);
    WatchKept(y, m);
    hide Inv, Step, Watching, ShowsHeard, TellsHeard, OneAtATime, Asks;
    if m.Serve? {
      StepKeeps(y.server, m.e);
    }
  }

  lemma BeginningOk()
    ensures SystemOk(BEGINNING)
  {
    InitialOk();
  }

  lemma {:induction false} QuietRunsOk(moves: seq<Move>)
    requires Quiet(moves) && RunAll(moves).Some?
    ensures SystemOk(RunAll(moves).value)
    decreases |moves|
  {
    hide SystemOk, Inv, Moved;
    if moves == [] {
      BeginningOk();
    } else {
      QuietRunsOk(moves[..|moves| - 1]);
      MoveKeeps(RunAll(moves[..|moves| - 1]).value, moves[|moves| - 1]);
    }
  }

  /** Whatever the interleaving of goroutine, server and client, as long as no attach finds a
      request in flight: the lines a client shows of a stored session are the first lines
      of its log, each once and in order. */
  lemma ShowsPrefix(moves: seq<Move>)
    requires Quiet(moves) && RunAll(moves).Some? && Asks(RunAll(moves).value.view)
    ensures var y := RunAll(moves).value; y.view.sessionId.value in y.server.db.sessions ==>
      y.view.lines <= Lines(LogOf(y.server.db, y.view.sessionId.value))
  {
    QuietRunsOk(moves);
    var y := RunAll(moves).value;
    if y.view.sessionId.value in y.server.db.sessions {
      var log := LogOf(y.server.db, y.view.sessionId.value);
      assert Lines(log[..y.view.lastSeq]) == Lines(log)[..y.view.lastSeq];
    }
  }

  /** In such a run a client that shows a session as settled (by what it has heard, not
      because a request failed) shows how it settled and, while it is stored, its whole
      log: exactly once each line, in order; and its snapshot and its error. For a session
      that no restart interrupted, that is the whole output. */
  lemma ExactDelivery(moves: seq<Move>)
    requires Quiet(moves) && RunAll(moves).Some?
    requires var y := RunAll(moves).value;
      Asks(y.view) && y.view.shown.Shows? && y.view.shown.status != Running && y.view.sessionId.value in y.server.db.sessions
    requires var y := RunAll(moves).value; y.view.shown.status == Error ==> y.heard.Some? && y.heard.value.status != Running
    ensures var y := RunAll(moves).value; var id := y.view.sessionId.value; var row := y.server.db.sessions[id];
      && row.status != Running && (y.view.shown.status != Error ==> row.status == y.view.shown.status)
      && y.view.snapshot == row.snapshot && y.view.error == row.error
      && y.view.lines == Lines(LogOf(y.server.db, id))
      && (id !in y.server.interrupted ==> id in y.server.outputs && y.view.lines == SplitOutput(y.server.outputs[id]))
  {
    QuietRunsOk(moves);
    var y := RunAll(moves).value;
    var id := y.view.sessionId.value;
    var log := LogOf(y.server.db, id);
    assert log[..|log|] == log;
    assert RowOk(y.server, id) && LogOk(y.server, id);
  }

  // ---------------------------------------------------------- runs that are not quiet

  /** A reply that is taken after an attach to another session: its lines, its cursor and its
      status are what the client shows of the session it is attached to now. */
  lemma LateReplyTaken(y: System, id: string, i: nat)
    requires i < |y.flights| && y.flights[i].Answered?
    ensures var t := DeliverMove(AttachMove(y, id), i); var reply := y.flights[i].reply;
      && t.Some? && t.value.view.sessionId == Some(id)
      && t.value.view.lines == Lines(reply.logs) && t.value.view.shown == Shows(reply.session.status)
      && (reply.logs != [] ==> t.value.view.lastSeq == reply.logs[|reply.logs| - 1].seq_)
  {
    assert AttachMove(y, id).flights[i] == y.flights[i];
    assert [] + Lines(y.flights[i].reply.logs) == Lines(y.flights[i].reply.logs);
  }

  function Serves(events: seq<Event>): seq<Move> {
    seq(|events|, i requires 0 <= i < |events| => Serve(events[i]))
  }

  /** A run of the server alone. */
  lemma {:induction false} ServerAlone(events: seq<Event>)
    requires Run(INITIAL, events).Some?
    ensures RunAll(Serves(events)) == Some(BEGINNING.(server := Run(INITIAL, events).value))
    decreases |events|
  {
    hide Step;
    if events == [] {
    } else {
      var front := events[..|events| - 1];
      ServerAlone(front);
      assert Serves(events)[..|events| - 1] == Serves(front);
      assert Unanswered([]) == [];
    }
  }

  /** One more move of a run. */
  lemma AndThen(y: System, moves: seq<Move>, m: Move) returns (z: System, more: seq<Move>)
    requires RunAll(moves) == Some(y) && Moved(y, m).Some?
    ensures more == moves + [m] && RunAll(more) == Some(z) && Some(z) == Moved(y, m)
  {
    more := moves + [m];
    assert more[..|more| - 1] == moves;
    z := Moved(y, m).value;
  }

  /** A server with one session that runs and nothing else. */
  ghost predicate OnlyA(s: State) {
    && s.holder == None && s.requests.Keys == {"a"} && s.db.sessions.Keys == {"a"}
    && s.db.sessions["a"] == Session(Slot(1, "a", "local", Backup), Running, "", "", 0)
    && s.workers.Keys == {"a"} && s.outputs.Keys == {"a"}
  }

  lemma FirstSession() returns (s: State, events: seq<Event>)
    ensures Run(INITIAL, events) == Some(s) && OnlyA(s) && s.db.logs == map[] && s.workers["a"] == Working("")
  {
    var req := Request(Slot(1, "a", "local", Backup), "", None);
    var s1 := After(INITIAL, [], InStart(Acquire(req)));
    var s2 := After(s1, [] + [InStart(Acquire(req))], InStart(Check(None)));
    events := [] + [InStart(Acquire(req))] + [InStart(Check(None))];
    var s3 := After(s2, events, InStart(Create("a", 0)));
    events := events + [InStart(Create("a", 0))];
    var s4 := After(s3, events, InStart(Register));
    events := events + [InStart(Register)];
    s := After(s4, events, InStart(Release));
    events := events + [InStart(Release)];
  }

  lemma LineLogged(s0: State, e0: seq<Event>) returns (s: State, events: seq<Event>)
    requires Run(INITIAL, e0) == Some(s0) && OnlyA(s0) && s0.db.logs == map[] && s0.workers["a"] == Working("")
    ensures Run(INITIAL, events) == Some(s) && OnlyA(s) && s.db.logs == map["a" := [LogLine(1, "x")]]
  {
    var s1 := After(s0, e0, InRun("a", Write("x\n")));
    events := e0 + [InRun("a", Write("x\n"))];
    assert s1.workers["a"] == Working("" + "x\n");
    assert "" + "x\n" == "x" + "\n" + "";
    CutLineAt("x", "");
    s := After(s1, events, InRun("a", Append));
    events := events + [InRun("a", Append)];
    assert LogOf(s1.db, "a") == [] && MaxSeq([]) == 0;
    assert [] + [LogLine(1, "x")] == [LogLine(1, "x")];
    assert s.db == AppendRow(s1.db, "a", "x");
  }

  lemma SecondSession(s0: State, e0: seq<Event>) returns (s: State, events: seq<Event>)
    requires Run(INITIAL, e0) == Some(s0) && OnlyA(s0) && s0.db.logs == map["a" := [LogLine(1, "x")]]
    ensures Run(INITIAL, events) == Some(s) && s.db.logs == s0.db.logs
    ensures s.db.sessions.Keys == {"a", "b"} && s.db.sessions["a"].status == s.db.sessions["b"].status == Running
  {
    var req := Request(Slot(1, "b", "local", Backup), "", None);
    var s1 := After(s0, e0, InStart(Acquire(req)));
    events := e0 + [InStart(Acquire(req))];
    var s2 := After(s1, events, InStart(Check(None)));
    events := events + [InStart(Check(None))];
    s := After(s2, events, InStart(Create("b", 0)));
    events := events + [InStart(Create("b", 0))];
  }

  /** A server with two running sessions, of which one has logged a line. */
  lemma TwoSessions() returns (s: State, events: seq<Event>)
    ensures Run(INITIAL, events) == Some(s) && {"a", "b"} <= s.db.sessions.Keys
    ensures s.db.sessions["a"].status == s.db.sessions["b"].status == Running
    ensures LogOf(s.db, "a") == [LogLine(1, "x")] && LogOf(s.db, "b") == []
  {
    var s1, e1 := FirstSession();
    var s2, e2 := LineLogged(s1, e1);
    s, events := SecondSession(s2, e2);
  }

  /** The server answers the request sent last. */
  lemma Answer(y0: System, m0: seq<Move>, id: string) returns (y: System, moves: seq<Move>)
    requires RunAll(m0) == Some(y0) && y0.flights != [] && y0.flights[|y0.flights| - 1] == Asked("a", 0)
    requires "a" in y0.server.db.sessions && y0.server.db.sessions["a"].status == Running && LogOf(y0.server.db, "a") == [LogLine(1, "x")]
    ensures RunAll(moves) == Some(y) && y.server == y0.server && y.view == y0.view
    ensures |y.flights| == |y0.flights| && y.flights[..|y.flights| - 1] == y0.flights[..|y.flights| - 1]
    ensures y.flights[|y.flights| - 1] == Answered("a", 0, Reply(y.server.db.sessions["a"], [LogLine(1, "x")]))
  {
    hide Step, RunAll;
    var i := |y0.flights| - 1;
    y, moves := AndThen(y0, m0, ReadSession(i));
    assert [LogLine(1, "x")][..0] == [];
    assert RowsAfter([LogLine(1, "x")], 0) == [] + [LogLine(1, "x")];
    y, moves := AndThen(y, moves, ReadLog(i));
  }

  /** A reply on its way with the one line of session "a". */
  lemma ReplyOnItsWay() returns (y: System, moves: seq<Move>)
    ensures RunAll(moves) == Some(y) && |y.flights| == 1 && y.flights[0].Answered? && y.flights[0].reply.logs == [LogLine(1, "x")]
    ensures y.flights[0].reply.session.status == Running && {"a", "b"} <= y.server.db.sessions.Keys
    ensures y.server.db.sessions["a"].status == Running
    ensures LogOf(y.server.db, "a") == [LogLine(1, "x")] && LogOf(y.server.db, "b") == []
  {
    var s, events := TwoSessions();
    ServerAlone(events);
    hide Run, Step;
    moves := Serves(events);
    y := RunAll(moves).value;
    y, moves := AndThen(y, moves, Attach("a"));
    y, moves := Answer(y, moves, "a");
  }

  /** The client shows the line of session "a" as a line of session "b", which has logged none:
      `poll` does not look whether the session is still the one it asked for. */
  lemma ForeignLines() returns (moves: seq<Move>)
    ensures RunAll(moves).Some? && Asks(RunAll(moves).value.view)
    ensures var y := RunAll(moves).value;
      && y.view.sessionId == Some("b") && "b" in y.server.db.sessions
      && y.view.lines == ["x"] && y.view.lastSeq == 1 && LogOf(y.server.db, "b") == []
  {
    var y;
    y, moves := ReplyOnItsWay();
    LateReplyTaken(y, "b", 0);
    var z;
    z, moves := AndThen(y, moves, Attach("b"));
    z, moves := AndThen(z, moves, Deliver(0));
    assert Lines([LogLine(1, "x")]) == ["x"];
  }

  /** Attaching twice to one session shows its line twice. */
  lemma RepeatedLines() returns (moves: seq<Move>)
    ensures RunAll(moves).Some? && Asks(RunAll(moves).value.view)
    ensures var y := RunAll(moves).value;
      && y.view.sessionId == Some("a") && "a" in y.server.db.sessions
      && y.view.lines == ["x", "x"] && Lines(LogOf(y.server.db, "a")) == ["x"]
  {
    var y;
    y, moves := ReplyOnItsWay();
    y, moves := AndThen(y, moves, Attach("a"));
    y, moves := Answer(y, moves, "a");
    y, moves := AndThen(y, moves, Deliver(0));
    assert Lines([LogLine(1, "x")]) == ["x"];
    y, moves := AndThen(y, moves, Deliver(0));
  }
}
