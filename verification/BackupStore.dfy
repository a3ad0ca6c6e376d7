/** The store of background sessions and their log lines (internal/backup/store.go). Each
    statement the store executes is one atomic change of the two tables. */
module BackupStore {
  import opened Text

  datatype Kind = Backup | Apply | Fork

  datatype Status = Running | Success | Unsupported | Error | Cancelled

  /** Where a session runs: at most one of a kind may be under way per slot. */
  datatype Slot = Slot(workspace: int, service: string, profile: string, kind: Kind)

  datatype Session = Session(slot: Slot, status: Status, snapshot: string, error: string, createdAt: int)

  datatype LogLine = LogLine(seq_: nat, line: string)

  /** The tables: sessions by id, and the log rows of each session in insertion order. */
  datatype Tables = Tables(sessions: map<string, Session>, logs: map<string, seq<LogLine>>)

  const INTERRUPTED := "interrupted by server restart"

  function LogOf(db: Tables, id: string): seq<LogLine> {
    if id in db.logs then db.logs[id] else []
  }

  /** `COALESCE(MAX(seq), 0)`. */
  function MaxSeq(rows: seq<LogLine>): nat {
    if rows == [] then 0
    else
      var m := MaxSeq(rows[..|rows| - 1]);
      if rows[|rows| - 1].seq_ > m then rows[|rows| - 1].seq_ else m
  }

  /** The rows past a cursor. */
  function RowsAfter(rows: seq<LogLine>, after: int): seq<LogLine> {
    if rows == [] then []
    else RowsAfter(rows[..|rows| - 1], after) + if rows[|rows| - 1].seq_ > after then [rows[|rows| - 1]] else []
  }

  // The statements.

  function InsertSession(db: Tables, id: string, s: Session): Tables {
    db.(sessions := db.sessions[id := s])
  }

  function AppendRow(db: Tables, id: string, line: string): Tables {
    db.(logs := db.logs[id := LogOf(db, id) + [LogLine(MaxSeq(LogOf(db, id)) + 1, line)]])
  }

  /** An UPDATE: without a row of that id it changes nothing. */
  function Settle(db: Tables, id: string, status: Status, snapshot: string, error: string): Tables {
    if id in db.sessions
    then db.(sessions := db.sessions[id := db.sessions[id].(status := status, snapshot := snapshot, error := error)])
    else db
  }

  function DropSession(db: Tables, id: string): Tables {
    db.(sessions := db.sessions - {id})
  }

  function DropLogs(db: Tables, id: string): Tables {
    db.(logs := db.logs - {id})
  }

  /** What opening the store does to sessions a previous process left running. */
  function Reconcile(db: Tables): Tables {
    db.(sessions := map id | id in db.sessions ::
      if db.sessions[id].status.Running? then db.sessions[id].(status := Error, error := INTERRUPTED) else db.sessions[id])
  }

  ghost predicate IsRunningIn(db: Tables, id: string, slot: Slot) {
    id in db.sessions && db.sessions[id].status.Running? && db.sessions[id].slot == slot
  }

  /** A running session of the slot, and no later one outside `aside`. */
  ghost predicate IsLatestRunning(db: Tables, id: string, slot: Slot, aside: set<string>) {
    && IsRunningIn(db, id, slot)
    && forall other :: other !in aside && IsRunningIn(db, other, slot) ==>
      db.sessions[other].createdAt <= db.sessions[id].createdAt
  }

  // -------------------------------------------------------------------- numbered logs

  /** The rows are numbered 1, 2, 3, ... */
  ghost predicate Numbered(rows: seq<LogLine>) {
    forall i :: 0 <= i < |rows| ==> rows[i].seq_ == i + 1
  }

  function Lines(rows: seq<LogLine>): seq<string> {
    seq(|rows|, i requires 0 <= i < |rows| => rows[i].line)
  }

  lemma {:induction false} MaxSeqOfNumbered(rows: seq<LogLine>)
    requires Numbered(rows)
    ensures MaxSeq(rows) == |rows|
  {
    if rows == [] {
    } else {
      MaxSeqOfNumbered(rows[..|rows| - 1]);
    }
  }

  /** `MAX(seq) + 1` keeps a log numbered without gaps or repeats. */
  lemma AppendKeepsNumbered(db: Tables, id: string, line: string)
    requires Numbered(LogOf(db, id))
    ensures Numbered(LogOf(AppendRow(db, id, line), id))
    ensures Lines(LogOf(AppendRow(db, id, line), id)) == Lines(LogOf(db, id)) + [line]
  {
    MaxSeqOfNumbered(LogOf(db, id));
  }

  lemma {:induction false} NoRowsAfter(rows: seq<LogLine>, k: nat)
    requires Numbered(rows) && |rows| <= k
    ensures RowsAfter(rows, k) == []
  {
    if rows == [] {
    } else {
      NoRowsAfter(rows[..|rows| - 1], k);
    }
  }

  /** Asking for the rows past seq `k` of a numbered log gives exactly those not seen yet. */
  lemma {:induction false} RowsAfterOfNumbered(rows: seq<LogLine>, k: nat)
    requires Numbered(rows) && k <= |rows|
    ensures RowsAfter(rows, k) == rows[k..]
  {
    if k == |rows| {
      NoRowsAfter(rows, k);
    } else {
      var front := rows[..|rows| - 1];
      RowsAfterOfNumbered(front, k);
      assert front[k..] + [rows[|rows| - 1]] == rows[k..];
    }
  }

  // ------------------------------------------------------------------------- the store

  /** The store itself. `Db` is the state of its tables. */
  class Store {
    var sessions: map<string, Session>
    var logs: map<string, seq<LogLine>>

    function Db(): Tables
      reads this
    {
      Tables(sessions, logs)
    }

    /** Opens the store on the tables a previous process left behind. */
    constructor (db: Tables)
      ensures Db() == Reconcile(db)
    {
      sessions := Reconcile(db).sessions;
      logs := db.logs;
    }

    method CreateSession(id: string, slot: Slot, now: int) returns (s: Session)
      requires id !in sessions
      modifies this
      ensures s == Session(slot, Running, "", "", now) && Db() == InsertSession(old(Db()), id, s)
    {
      s := Session(slot, Running, "", "", now);
      sessions := sessions[id := s];
    }

    /** The most recent running session of a slot. */
    method RunningForService(slot: Slot) returns (found: Option<string>)
      ensures match found
              case None => forall id :: !IsRunningIn(Db(), id, slot)
              case Some(id) => IsLatestRunning(Db(), id, slot, {})
    {
      found := None;
      var todo := sessions.Keys;
      while todo != {}
        invariant todo <= sessions.Keys
        invariant match found
                  case None => forall id :: id !in todo ==> !IsRunningIn(Db(), id, slot)
                  case Some(id) => IsLatestRunning(Db(), id, slot, todo)
        decreases todo
      {
        var id :| id in todo;
        todo := todo - {id};
        if sessions[id].status == Running && sessions[id].slot == slot {
          if found == None || sessions[found.value].createdAt < sessions[id].createdAt {
            found := Some(id);
          }
        }
      }
    }

    method Get(id: string) returns (s: Option<Session>)
      ensures s == if id in sessions then Some(sessions[id]) else None
    {
      s := if id in sessions then Some(sessions[id]) else None;
    }

    /** Removes a session and its log. */
    method Delete(id: string) returns (found: bool)
      modifies this
      ensures found <==> id in old(sessions)
      ensures Db() == if found then DropLogs(DropSession(old(Db()), id), id) else old(Db())
    {
      found := id in sessions;
      if found {
        sessions := sessions - {id};
        logs := logs - {id};
      }
    }

    method AppendLog(id: string, line: string)
      modifies this
      ensures Db() == AppendRow(old(Db()), id, line)
    {
      var rows := if id in logs then logs[id] else [];
      var max := 0;
      for i := 0 to |rows|
        invariant max == MaxSeq(rows[..i])
      {
        assert rows[..i + 1][..i] == rows[..i];
        if rows[i].seq_ > max {
          max := rows[i].seq_;
        }
      }
      assert rows[..|rows|] == rows;
      logs := logs[id := rows + [LogLine(max + 1, line)]];
    }

    /** The log rows past a cursor, in order. */
    method Logs(id: string, after: int) returns (out: seq<LogLine>)
      ensures out == RowsAfter(LogOf(Db(), id), after)
    {
      var rows := if id in logs then logs[id] else [];
      out := [];
      for i := 0 to |rows|
        invariant out == RowsAfter(rows[..i], after)
      {
        assert rows[..i + 1][..i] == rows[..i];
        if rows[i].seq_ > after {
          out := out + [rows[i]];
        }
      }
      assert rows[..|rows|] == rows;
    }

    method Finish(id: string, status: Status, snapshot: string, error: string)
      modifies this
      ensures Db() == Settle(old(Db()), id, status, snapshot, error)
    {
      if id in sessions {
        sessions := sessions[id := sessions[id].(status := status, snapshot := snapshot, error := error)];
      }
    }
  }
}
