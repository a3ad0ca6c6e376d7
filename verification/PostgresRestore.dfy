/** Restoring a dump (internal/service/postgres_restore.go): reading the text line by line,
    running what it says inside one transaction, and what comes of a dump that is restored. */
module PostgresRestore {
  import opened Text
  import opened Quoting
  import opened PostgresScript
  import opened CopyFormat
  import opened PostgresDump
  import opened PostgresRoundTrip
  import opened PostgresDatabase
  import opened PostgresSource
  import opened PostgresSql

  /** How a server answers: whether it can open and commit a transaction, and what each
      statement or COPY makes of a database (None: it is rejected). */
  datatype Server = Server(begins: bool, commits: bool,
                           exec: (Database, string) -> Option<Database>,
                           copy: (Database, string, string) -> Option<Database>)

  function RunAction(server: Server, db: Database, a: Action): Option<Database> {
    match a
    case Exec(sql) => server.exec(db, sql)
    case CopyFrom(sql, data) => server.copy(db, sql, data)
  }

  /** Running actions in order, up to the first that is rejected. */
  function RunActions(server: Server, db: Database, actions: seq<Action>): Option<Database>
    decreases |actions|
  {
    if actions == [] then Some(db) else
      match RunAction(server, db, actions[0])
      case None => None
      case Some(db') => RunActions(server, db', actions[1..])
  }

  lemma {:induction false} RunActionsConcat(server: Server, db: Database, a: seq<Action>, b: seq<Action>)
    ensures RunActions(server, db, a + b)
         == match RunActions(server, db, a) case None => None case Some(db') => RunActions(server, db', b)
    decreases |a|
  {
    if a == [] {
      assert a + b == b;
    } else {
      assert (a + b)[0] == a[0] && (a + b)[1..] == a[1..] + b;
      match RunAction(server, db, a[0]) {
        case None =>
        case Some(db') => RunActionsConcat(server, db', a[1..], b);
      }
    }
  }

  lemma RunOneMore(server: Server, db: Database, a: seq<Action>, x: Action, b: seq<Action>)
    requires RunActions(server, db, a).Some?
    ensures RunActions(server, db, a + [x]) == RunAction(server, RunActions(server, db, a).value, x)
    ensures RunAction(server, RunActions(server, db, a).value, x).None? ==> RunActions(server, db, a + ([x] + b)).None?
  {
    RunActionsConcat(server, db, a, [x]);
    RunActionsConcat(server, db, a, [x] + b);
    assert ([x] + b)[1..] == b;
  }

  // --------------------------------------------------------------------- the two ends

  /** A buffered reader over a text. */
  class Reader {
    const text: string
    var pos: nat

    constructor (text: string)
      ensures this.text == text && pos == 0
    {
      this.text := text;
      pos := 0;
    }

    predicate Valid()
      reads this
    {
      pos <= |text|
    }

    function Rest(): string
      requires Valid()
      reads this
    {
      text[pos..]
    }

    /** The next line with its newline; at the end of the text whatever is left, and `eof`. */
    method ReadString() returns (line: string, eof: bool)
      requires Valid()
      modifies this
      ensures Valid() && line + Rest() == old(Rest()) && pos == old(pos) + |line|
      ensures if eof then line == old(Rest()) && '\n' !in line
              else line == CutLine(old(Rest())).0 + "\n" && Rest() == CutLine(old(Rest())).1
    {
      ghost var rest := Rest();
      var start := pos;
      while pos < |text| && text[pos] != '\n'
        invariant start <= pos <= |text|
        invariant forall k :: start <= k < pos ==> text[k] != '\n'
      {
        pos := pos + 1;
      }
      if pos == |text| {
        line, eof := text[start..], true;
      } else {
        ghost var raw := text[start..pos];
        CutLineAt(raw, text[pos + 1..]);
        assert rest == raw + "\n" + text[pos + 1..];
        pos := pos + 1;
        line, eof := text[start..pos], false;
        assert line == raw + "\n";
      }
    }
  }

  /** One connection. `saved` is the database as of BEGIN while a transaction is open. */
  class Conn {
    const server: Server
    var db: Database
    var saved: Option<Database>

    constructor (server: Server, db: Database)
      ensures this.server == server && this.db == db && saved == None
    {
      this.server := server;
      this.db := db;
      saved := None;
    }

    method Begin() returns (ok: bool)
      modifies this
      ensures ok == server.begins && db == old(db) && saved == if ok then Some(db) else old(saved)
    {
      ok := server.begins;
      if ok {
        saved := Some(db);
      }
    }

    method Rollback()
      requires saved.Some?
      modifies this
      ensures db == old(saved).value && saved == None
    {
      db := saved.value;
      saved := None;
    }

    /** A commit that fails leaves the database as it was before the transaction. */
    method Commit() returns (ok: bool)
      requires saved.Some?
      modifies this
      ensures ok == server.commits && saved == None && db == if ok then old(db) else old(saved).value
    {
      ok := server.commits;
      if !ok {
        db := saved.value;
      }
      saved := None;
    }

    method Run(a: Action) returns (ok: bool)
      modifies this`db
      ensures ok <==> RunAction(server, old(db), a).Some?
      ensures db == if ok then RunAction(server, old(db), a).value else old(db)
    {
      var r := RunAction(server, db, a);
      ok := r.Some?;
      if ok {
        db := r.value;
      }
    }
  }

  // ----------------------------------------------------------------------- the replay

  /** `strings.TrimRight(line, "\n")`. */
  function TrimNewlines(s: string): string {
    if s != "" && s[|s| - 1] == '\n' then TrimNewlines(s[..|s| - 1]) else s
  }

  lemma TrimOneNewline(raw: string)
    requires '\n' !in raw
    ensures TrimNewlines(raw) == raw && TrimNewlines(raw + "\n") == raw
  {
    assert (raw + "\n")[..|raw|] == raw;
  }

  /** The line that ends a text, which no newline follows. */
  lemma LineRead(line: string, rest: string, eof: bool)
    requires line != "" && line <= rest
    requires if eof then line == rest && '\n' !in line else line == CutLine(rest).0 + "\n"
    ensures rest != "" && CutLine(rest).0 == TrimNewlines(line)
    ensures eof ==> CutLine(rest) == (rest, "")
    ensures !eof ==> line == TrimNewlines(line) + "\n" && TrimNewlines(line) != rest
  {
    if eof {
      TrimOneNewline(line);
    } else {
      TrimOneNewline(CutLine(rest).0);
    }
  }

  /** COPY data from its next line on. */
  lemma CopyDataLine(rest: string)
    requires rest != ""
    ensures CopyData(rest) ==
            if CutLine(rest).0 == END_OF_DATA then Some(("", CutLine(rest).1))
            else if CutLine(rest).0 == rest then None
            else match CopyData(CutLine(rest).1)
              case None => None
              case Some((data, after)) => Some((CutLine(rest).0 + "\n" + data, after))
  {}

  function After(data: string, r: Option<(string, string)>): Option<(string, string)> {
    match r
    case None => None
    case Some((more, after)) => Some((data + more, after))
  }

  lemma AfterLine(data: string, line: string, r: Option<(string, string)>)
    ensures After(data, match r case None => None case Some((more, after)) => Some((line + more, after)))
         == After(data + line, r)
  {
    if r.Some? {
      Regroup(data, line, r.value.0);
    }
  }

  lemma CopyDataOfNothing()
    ensures CopyData("") == None
  {}

  /** Collects COPY data up to the end marker and streams it to the server. */
  method ReplayCopy(conn: Conn, r: Reader, copySQL: string) returns (ok: bool)
    requires r.Valid()
    modifies conn`db, r
    ensures r.Valid() && r.pos >= old(r.pos)
    ensures match CopyData(old(r.Rest()))
            case None => !ok && conn.db == old(conn.db)
            case Some((data, after)) =>
              r.Rest() == after &&
              var result := RunAction(conn.server, old(conn.db), CopyFrom(copySQL, data));
              ok == result.Some? && conn.db == if ok then result.value else old(conn.db)
  {
    hide CopyData, CutLine;
    var data := "";
    ghost var all := CopyData(r.Rest());
    assert After("", all) == all by {
      if all.Some? { assert "" + all.value.0 == all.value.0; }
    }
    while true
      invariant r.Valid() && r.pos >= old(r.pos) && conn.db == old(conn.db)
      invariant all == After(data, CopyData(r.Rest()))
      decreases |r.text| - r.pos
    {
      ghost var rest := r.Rest();
      var line, eof := r.ReadString();
      if |line| == 0 && eof {
        CopyDataOfNothing();
        return false;
      }
      LineRead(line, rest, eof);
      CopyDataLine(rest);
      if TrimNewlines(line) == END_OF_DATA {
        assert data + "" == data;
        break;
      }
      if eof {
        return false;
      }
      AfterLine(data, line, CopyData(r.Rest()));
      data := data + line;
    }
    ok := conn.Run(CopyFrom(copySQL, data));
  }

  // A replay under way: `done` has been run, `due` is what the rest of the text leads to.

  ghost predicate Replaying(server: Server, db0: Database, script: Replayed, done: seq<Action>, due: Replayed, db: Database) {
    && script == Replayed(done + due.actions, due.complete)
    && RunActions(server, db0, done) == Some(db)
  }

  /** A replay stops with `k` actions run: the next one is rejected, or there is none and the
      text ends inside COPY data. */
  ghost predicate StopsAt(server: Server, db0: Database, script: Replayed, k: nat, db: Database)
    requires k <= |script.actions|
  {
    && RunActions(server, db0, script.actions[..k]) == Some(db)
    && if k < |script.actions| then RunAction(server, db, script.actions[k]).None? else !script.complete
  }

  /** The replay fails and leaves `db`. */
  ghost predicate Fails(server: Server, db0: Database, script: Replayed, db: Database) {
    exists k: nat :: k <= |script.actions| && StopsAt(server, db0, script, k, db)
  }

  lemma FailsFor(server: Server, db0: Database, script: Replayed, db: Database)
    requires Fails(server, db0, script, db)
    ensures !script.complete || RunActions(server, db0, script.actions).None?
  {
    var k: nat :| k <= |script.actions| && StopsAt(server, db0, script, k, db);
    if k < |script.actions| {
      RunOneMore(server, db0, script.actions[..k], script.actions[k], script.actions[k + 1..]);
      assert script.actions == script.actions[..k] + ([script.actions[k]] + script.actions[k + 1..]);
    }
  }

  lemma NextAction(server: Server, db0: Database, script: Replayed, done: seq<Action>, due: Replayed, db: Database, a: Action, due': Replayed)
    requires Replaying(server, db0, script, done, due, db) && due == Prepend(a, due')
    ensures match RunAction(server, db, a)
            case None => Fails(server, db0, script, db)
            case Some(db') => Replaying(server, db0, script, done + [a], due', db')
  {
    if RunAction(server, db, a).None? {
      assert script.actions[..|done|] == done && script.actions[|done|] == a;
      assert StopsAt(server, db0, script, |done|, db);
    } else {
      RunOneMore(server, db0, done, a, due'.actions);
      Regroup(done, [a], due'.actions);
    }
  }

  lemma NothingDue(server: Server, db0: Database, script: Replayed, done: seq<Action>, due: Replayed, db: Database)
    requires Replaying(server, db0, script, done, due, db) && due.actions == []
    ensures script.complete == due.complete && RunActions(server, db0, script.actions) == Some(db)
  {
    assert done + [] == done;
  }

  lemma Incomplete(server: Server, db0: Database, script: Replayed, done: seq<Action>, due: Replayed, db: Database)
    requires Replaying(server, db0, script, done, due, db) && due == Replayed([], false)
    ensures Fails(server, db0, script, db)
  {
    assert done + [] == done && done[..|done|] == done;
    assert StopsAt(server, db0, script, |done|, db);
  }

  // A text from its next line on: a COPY header, a line to skip, a line of a statement.

  lemma ReplayHeader(text: string)
    requires text != "" && IsCopyHeader(TrimSpace(CutLine(text).0))
    ensures var trimmed := TrimSpace(CutLine(text).0);
            ReplayText("", text) ==
            match CopyData(CutLine(text).1)
            case None => Replayed([], false)
            case Some((data, after)) => Prepend(CopyFrom(trimmed[..|trimmed| - 1], data), ReplayText("", after))
  {}

  lemma ReplaySkipped(text: string)
    requires text != "" && !IsCopyHeader(TrimSpace(CutLine(text).0))
    requires TrimSpace(CutLine(text).0) == "" || "--" <= TrimSpace(CutLine(text).0)
    ensures ReplayText("", text) == ReplayText("", CutLine(text).1)
  {}

  lemma ReplayCollected(stmt: string, text: string)
    requires text != ""
    requires stmt != "" || !(IsCopyHeader(TrimSpace(CutLine(text).0))
                             || TrimSpace(CutLine(text).0) == "" || "--" <= TrimSpace(CutLine(text).0))
    ensures var (raw, rest) := CutLine(text);
            ReplayText(stmt, text) ==
            if HasSuffix(TrimSpace(raw), ";") then Prepend(Exec(TrimSpace(stmt + raw + "\n")), ReplayText("", rest))
            else ReplayText(stmt + raw + "\n", rest)
  {}

  lemma ReplayOfNothing(stmt: string)
    ensures ReplayText(stmt, "") == Replayed([], true)
  {}

  /** A COPY header has been read off the front of `text`: the block is run. */
  method RunCopyBlock(conn: Conn, r: Reader, trimmed: string,
                      ghost db0: Database, ghost script: Replayed, ghost done0: seq<Action>, ghost text: string)
    returns (ok: bool, ghost done: seq<Action>)
    requires r.Valid() && text != "" && CutLine(text).1 == r.Rest() && TrimSpace(CutLine(text).0) == trimmed
    requires IsCopyHeader(trimmed) && Replaying(conn.server, db0, script, done0, ReplayText("", text), conn.db)
    modifies conn`db, r
    ensures r.Valid() && r.pos >= old(r.pos)
    ensures if ok then Replaying(conn.server, db0, script, done, ReplayText("", r.Rest()), conn.db)
            else Fails(conn.server, db0, script, conn.db)
  {
    ReplayHeader(text);
    hide ReplayText, CopyData, CutLine, TrimSpace;
    var copySQL := trimmed[..|trimmed| - 1];
    ghost var data := CopyData(r.Rest());
    if data.Some? {
      NextAction(conn.server, db0, script, done0, ReplayText("", text), conn.db,
                 CopyFrom(copySQL, data.value.0), ReplayText("", data.value.1));
      done := done0 + [CopyFrom(copySQL, data.value.0)];
    } else {
      Incomplete(conn.server, db0, script, done0, ReplayText("", text), conn.db);
      done := done0;
    }
    hide Replaying;
    ok := ReplayCopy(conn, r, copySQL);
  }

  /** A line of a statement has been read off the front of `text`: it is added to the
      statement, which is run if the line closes it. */
  method CollectLine(conn: Conn, stmt0: string, raw: string, trimmed: string,
                     ghost db0: Database, ghost script: Replayed, ghost done0: seq<Action>, ghost text: string)
    returns (ok: bool, stmt: string, ghost done: seq<Action>)
    requires text != "" && CutLine(text).0 == raw && TrimSpace(raw) == trimmed
    requires stmt0 != "" || !(IsCopyHeader(trimmed) || trimmed == "" || "--" <= trimmed)
    requires Replaying(conn.server, db0, script, done0, ReplayText(stmt0, text), conn.db)
    modifies conn`db
    ensures if ok then Replaying(conn.server, db0, script, done, ReplayText(stmt, CutLine(text).1), conn.db)
            else Fails(conn.server, db0, script, conn.db)
  {
    ReplayCollected(stmt0, text);
    hide ReplayText, CutLine, TrimSpace;
    ok, done := true, done0;
    stmt := stmt0 + raw + "\n";
    if HasSuffix(trimmed, ";") {
      var sql := TrimSpace(stmt);
      stmt := "";
      NextAction(conn.server, db0, script, done0, ReplayText(stmt0, text), conn.db, Exec(sql), ReplayText("", CutLine(text).1));
      hide Replaying;
      ok := conn.Run(Exec(sql));
      done := done0 + [Exec(sql)];
    }
  }

  /** Reads the dump line by line and runs what it says. It succeeds exactly when the text
      is complete and the server accepts every action, in order; then all have been run. If
      not, those before the first rejected one have been run, or all of a text that ends
      inside COPY data. */
  method Replay(conn: Conn, r: Reader) returns (ok: bool)
    requires r.Valid()
    modifies conn`db, r
    ensures var script := ReplayText("", old(r.Rest()));
            var result := RunActions(conn.server, old(conn.db), script.actions);
            && (ok <==> script.complete && result.Some?)
            && if ok then conn.db == result.value else Fails(conn.server, old(conn.db), script, conn.db)
  {
    var stmt := "";
    ghost var script := ReplayText("", r.Rest());
    ghost var db0, done: seq<Action> := conn.db, [];
    assert Replaying(conn.server, db0, script, done, script, conn.db) by { assert [] + script.actions == script.actions; }
    hide ReplayText, CutLine, TrimSpace, TrimNewlines, Replaying, RunActions;
    ok := true;
    while true
      invariant ok && r.Valid()
      invariant Replaying(conn.server, db0, script, done, ReplayText(stmt, r.Rest()), conn.db)
      decreases |r.text| - r.pos
    {
      ghost var rest := r.Rest();
      var line, eof := r.ReadString();
      if |line| == 0 && eof {
        break;
      }
      LineRead(line, rest, eof);
      var raw := TrimNewlines(line);
      var trimmed := TrimSpace(raw);
      if stmt == "" && IsCopyHeader(trimmed) {
        ok, done := RunCopyBlock(conn, r, trimmed, db0, script, done, rest);
      } else if stmt == "" && (trimmed == "" || "--" <= trimmed) {
        // blank lines and comments between statements
        ReplaySkipped(rest);
      } else {
        ok, stmt, done := CollectLine(conn, stmt, raw, trimmed, db0, script, done, rest);
      }
      if !ok {
        FailsFor(conn.server, db0, script, conn.db);
        return;
      }
      if eof {
        break;
      }
    }
    ReplayOfNothing(stmt);
    NothingDue(conn.server, db0, script, done, ReplayText(stmt, r.Rest()), conn.db);
  }

  /** A restore is all or nothing: it succeeds exactly when the transaction opens and
      commits, the text is complete and every action is accepted, and then the database is
      what the actions make of it; in every other case the database is untouched. */
  method Restore(conn: Conn, r: Reader) returns (ok: bool)
    requires r.Valid() && conn.saved == None
    modifies conn, r
    ensures var script := ReplayText("", old(r.Rest()));
            var result := RunActions(conn.server, old(conn.db), script.actions);
            && (ok <==> conn.server.begins && conn.server.commits && script.complete && result.Some?)
            && conn.db == if ok then result.value else old(conn.db)
    ensures conn.saved == None
  {
    ok := conn.Begin();
    if !ok {
      return;
    }
    ok := Replay(conn, r);
    if !ok {
      conn.Rollback();
      return;
    }
    ok := conn.Commit();
  }

  // ------------------------------------------------------------- a dump, restored

  ghost function CopyResult(m: Meaning, db: Database, t: Table, data: string): Option<Database> {
    match ReadRows(|t.columns|, data)
    case None => None
    case Some(rows) => ExecCopy(m, db, t.name, rows)
  }

  /** A statement about another schema: it may fail, but has no effect on this one. */
  predicate Elsewhere(db: Database, result: Option<Database>) {
    result == None || result == Some(db)
  }

  /** What a statement does, by what it says. Defaults and the definitions of constraints and
      indexes mean what they meant where the catalog was read. */
  ghost predicate Does(m: Meaning, cat: Catalog, db: Database, sql: Sql, result: Option<Database>) {
    match sql
    case Utf8 => result == Some(db)
    case NewSchema(name) => if name == cat.schema then result == Some(db.(ready := true)) else Elsewhere(db, result)
    case NewSequence(schema, s) => if schema == cat.schema then result == MakeSequence(db, s) else Elsewhere(db, result)
    case NewTable(schema, name, columns) =>
      if schema != cat.schema then Elsewhere(db, result)
      else forall t :: t in cat.tables && TextsOf(t.columns) == columns ==> result == MakeTable(db, name, t.columns)
    case NewConstraint(schema, table, name, def) =>
      if schema != cat.schema then Elsewhere(db, result)
      else forall t, c :: t in cat.tables && t.name == table && c in t.constraints && c.def == def ==>
        result == ExecStep(m, db, AddConstraint(table, c.(name := name)))
    case NewIndex(def) =>
      forall t, x :: t in cat.tables && x in t.indexes && x.def == def ==> result == ExecStep(m, db, CreateIndex(t.name, x))
    case Setval(schema, name, value) =>
      if schema == cat.schema then result == ExecStep(m, db, SetValue(name, value)) else Elsewhere(db, result)
  }

  /** What COPY does with data in the text format. */
  ghost predicate CopyDoes(m: Meaning, cat: Catalog, db: Database, schema: string, name: string, data: string, result: Option<Database>) {
    schema == cat.schema ==> forall t :: t in cat.tables && t.name == name ==> result == CopyResult(m, db, t, data)
  }

  /** The server reads statements and COPY data for itself: each statement does what it says, a
      setval that cannot be read is rejected. What it has printed for the catalog is as its
      functions print it. */
  ghost predicate Understands(server: Server, m: Meaning, cat: Catalog) {
    && Printed(cat)
    && (forall db, text :: ReadSql(text).Some? ==> Does(m, cat, db, ReadSql(text).value, server.exec(db, text)))
    && (forall db, step :: step in Plan(cat) && step.SetValue? && ReadSql(StepPiece(cat.schema, step).sql) == None ==>
          server.exec(db, StepPiece(cat.schema, step).sql) == None)
    && (forall db, text, data :: ReadCopy(text).Some? ==>
          CopyDoes(m, cat, db, ReadCopy(text).value.0, ReadCopy(text).value.1, data, server.copy(db, text, data)))
  }

  /** A step whose statement reads as the step. */
  predicate ReadsAsIs(schema: string, step: Step) {
    step.SetValue? ==> !Unescaped(schema, step.name)
  }

  /** What the statement of a step says is what the step does. */
  lemma SaysDoes(m: Meaning, cat: Catalog, db: Database, step: Step, result: Option<Database>)
    requires OfCatalog(cat, step) && StepPiece(cat.schema, step).Statement?
    requires Says(cat.schema, step).Some? && Does(m, cat, db, Says(cat.schema, step).value, result)
    ensures result == ExecStep(m, db, step)
  {
    hide MakeTable, MakeSequence, Admits, Distinct, StepPiece, TextsOf;
    match step
    case AddConstraint(table, c) =>
      var t :| t in cat.tables && t.name == table && c in t.constraints;
      assert c.(name := c.name) == c;
    case CreateIndex(table, x) =>
      var t :| t in cat.tables && t.name == table && x in t.indexes;
    case CreateTable(t) =>
      assert t in cat.tables;
    case _ =>
  }

  lemma StatementRuns(server: Server, m: Meaning, cat: Catalog, db: Database, step: Step)
    requires Understands(server, m, cat) && step in Plan(cat) && ReadsAsIs(cat.schema, step) && StepPiece(cat.schema, step).Statement?
    ensures server.exec(db, TrimSpace(StepPiece(cat.schema, step).sql)) == ExecStep(m, db, step)
  {
    PlanOfCatalog(cat);
    StepIsPrinted(cat, step);
    hide Plan, Printed, PrintedStep, Does, ExecStep, TrimSpace, ReadSql, OfCatalog, Unescaped;
    StatementTight(cat.schema, step);
    StatementReadsBack(cat.schema, step);
    SaysDoes(m, cat, db, step, server.exec(db, StepPiece(cat.schema, step).sql));
  }

  lemma LoadRuns(server: Server, m: Meaning, cat: Catalog, db: Database, t: Table)
    requires Understands(server, m, cat) && t in cat.tables && RowsFit(t)
    ensures server.copy(db, CopySQL(Qualified(cat.schema, t.name)), RowsText(t.rows)) == ExecStep(m, db, LoadTable(t))
  {
    hide Plan, Printed, Does, ReadCopy, ReadSql, ExecCopy, ReadRows;
    ReadsCopyBack(cat.schema, t.name);
    RowsRoundTrip(|t.columns|, t.rows);
  }

  /** The action of a step does to the database what the step does. */
  lemma StepActionRuns(server: Server, m: Meaning, cat: Catalog, db: Database, step: Step)
    requires Understands(server, m, cat) && step in Plan(cat) && ReadsAsIs(cat.schema, step)
    requires forall t :: t in cat.tables ==> RowsFit(t)
    ensures RunActions(server, db, PieceActions(StepPiece(cat.schema, step))) == ExecStep(m, db, step)
  {
    hide Understands, Plan, ReadsAsIs, CopySQL, TrimSpace, RowsText;
    var actions := PieceActions(StepPiece(cat.schema, step));
    if step.LoadTable? {
      PlanLoads(cat);
      LoadRuns(server, m, cat, db, step.table);
    } else if StepPiece(cat.schema, step).Statement? {
      StatementRuns(server, m, cat, db, step);
    }
    assert actions != [] ==> actions[1..] == [];
  }

  /** The actions of steps that read as they are do to the database what the steps do. */
  lemma {:induction false} ActionsRunPlan(server: Server, m: Meaning, cat: Catalog, db: Database, steps: seq<Step>)
    requires Understands(server, m, cat) && forall step :: step in steps ==> step in Plan(cat) && ReadsAsIs(cat.schema, step)
    requires forall t :: t in cat.tables ==> RowsFit(t)
    ensures RunActions(server, db, ScriptActions(Pieces(cat.schema, steps))) == Run(m, db, steps)
    decreases |steps|
  {
    var pieces := Pieces(cat.schema, steps);
    if steps == [] {
    } else {
      var step, rest := steps[0], Pieces(cat.schema, steps[1..]);
      assert pieces[0] == StepPiece(cat.schema, step) && pieces[1..] == rest;
      assert step in steps;
      var actions := PieceActions(pieces[0]);
      RunActionsConcat(server, db, actions, ScriptActions(rest));
      StepActionRuns(server, m, cat, db, step);
      hide RunActions, ExecStep, PieceActions, Understands, Plan;
      match ExecStep(m, db, step) {
        case None =>
        case Some(db') => ActionsRunPlan(server, m, cat, db', steps[1..]);
      }
    }
  }

  // Sequences whose names cannot be read.

  /** No sequence that has a last value has a single quote in its name or its schema. */
  ghost predicate NamesReadable(cat: Catalog) {
    forall i :: 0 <= i < |cat.sequences| && cat.sequences[i].lastValue.Some? ==> !Unescaped(cat.schema, cat.sequences[i].name)
  }

  lemma {:induction false} SetvalStepsOf(seqs: seq<Sequence>)
    ensures forall step :: step in SetvalSteps(seqs) ==>
              step.SetValue? && exists i :: 0 <= i < |seqs| && seqs[i].name == step.name && seqs[i].lastValue == Some(step.value)
  {
    if seqs == [] {
    } else {
      SetvalStepsOf(seqs[1..]);
      forall step | step in SetvalSteps(seqs)
        ensures step.SetValue? && exists i :: 0 <= i < |seqs| && seqs[i].name == step.name && seqs[i].lastValue == Some(step.value)
      {
        if step in SetvalSteps(seqs[1..]) {
          var i :| 0 <= i < |seqs[1..]| && seqs[1..][i].name == step.name && seqs[1..][i].lastValue == Some(step.value);
          assert seqs[i + 1] == seqs[1..][i];
        } else {
          assert seqs[0].name == step.name;
        }
      }
    }
  }

  /** An unreadable name that no other unreadable one is longer than. */
  lemma {:induction false} LongestUnreadable(schema: string, seqs: seq<Sequence>) returns (x: Sequence)
    requires exists i :: 0 <= i < |seqs| && seqs[i].lastValue.Some? && Unescaped(schema, seqs[i].name)
    ensures x in seqs && x.lastValue.Some? && Unescaped(schema, x.name)
    ensures forall i :: 0 <= i < |seqs| && seqs[i].lastValue.Some? && Unescaped(schema, seqs[i].name) ==>
              |Qualified(schema, seqs[i].name)| <= |Qualified(schema, x.name)|
  {
    hide Qualified, Unescaped;
    var first, rest := seqs[0], seqs[1..];
    if forall i :: 0 <= i < |rest| ==> rest[i].lastValue == None || !Unescaped(schema, rest[i].name) {
      x := first;
      assert forall i :: 0 < i < |seqs| ==> seqs[i] == rest[i - 1];
    } else {
      var y := LongestUnreadable(schema, rest);
      x := if first.lastValue.Some? && Unescaped(schema, first.name) && |Qualified(schema, first.name)| > |Qualified(schema, y.name)|
           then first else y;
    }
  }

  /** What a setval statement does: what it reads as, if it can be read. */
  ghost predicate SetvalDoes(m: Meaning, schema: string, sql: string, db: Database, result: Option<Database>) {
    match ReadSetval(sql)
    case None => result == None
    case Some((s, name, value)) =>
      if s == schema then result == ExecStep(m, db, SetValue(name, value)) else Elsewhere(db, result)
  }

  /** One setval statement leaves the longest unreadable sequence alone. */
  lemma NotSet(m: Meaning, cat: Catalog, x: string, step: Step, db: Database, result: Option<Database>)
    requires step.SetValue? && SetvalDoes(m, cat.schema, SetvalSQL(cat.schema, step.name, step.value), db, result)
    requires Unescaped(cat.schema, x)
    requires Unescaped(cat.schema, step.name) ==> |Qualified(cat.schema, step.name)| <= |Qualified(cat.schema, x)|
    requires x in db.sequences && result.Some?
    ensures x in result.value.sequences && result.value.sequences[x] == db.sequences[x]
  {
    SetvalReadsBack(cat.schema, step.name, step.value);
    hide Qualified, ReadSetval, SetvalSQL;
  }

  lemma SetvalRuns(server: Server, schema: string, db: Database, steps: seq<Step>)
    requires steps != [] && steps[0].SetValue?
    ensures RunActions(server, db, ScriptActions(Pieces(schema, steps)))
         == match server.exec(db, TrimSpace(SetvalSQL(schema, steps[0].name, steps[0].value)))
            case None => None
            case Some(db') => RunActions(server, db', ScriptActions(Pieces(schema, steps[1..])))
  {
    hide SetvalSQL, TrimSpace;
    var pieces, rest := Pieces(schema, steps), Pieces(schema, steps[1..]);
    assert pieces[0] == StepPiece(schema, steps[0]) && pieces[1..] == rest;
    var action := Exec(TrimSpace(SetvalSQL(schema, steps[0].name, steps[0].value)));
    assert PieceActions(pieces[0]) == [action];
    assert ([action] + ScriptActions(rest))[1..] == ScriptActions(rest);
  }

  lemma SetvalUnderstood(server: Server, m: Meaning, cat: Catalog, db: Database, step: Step) returns (result: Option<Database>)
    requires Understands(server, m, cat) && step in Plan(cat) && step.SetValue?
    ensures result == server.exec(db, TrimSpace(SetvalSQL(cat.schema, step.name, step.value)))
    ensures SetvalDoes(m, cat.schema, SetvalSQL(cat.schema, step.name, step.value), db, result)
  {
    var sql := SetvalSQL(cat.schema, step.name, step.value);
    assert StepPiece(cat.schema, step) == Statement(sql);
    StatementTight(cat.schema, step);
    SetvalFront(cat.schema, step.name, step.value);
    hide TrimSpace, SetvalSQL, Plan, Printed, ReadSql, ReadSetval, StepPiece, ExecStep;
    SetvalRead(sql);
    result := server.exec(db, sql);
  }

  lemma {:induction false} NeverSet(server: Server, m: Meaning, cat: Catalog, x: string, db: Database, steps: seq<Step>)
    requires Understands(server, m, cat) && forall step :: step in steps ==> step in Plan(cat) && step.SetValue?
    requires Unescaped(cat.schema, x) && x in db.sequences
    requires forall step :: step in steps && Unescaped(cat.schema, step.name) ==>
               |Qualified(cat.schema, step.name)| <= |Qualified(cat.schema, x)|
    ensures var r := RunActions(server, db, ScriptActions(Pieces(cat.schema, steps)));
            r.Some? ==> x in r.value.sequences && r.value.sequences[x] == db.sequences[x]
    decreases |steps|
  {
    if steps == [] {
      assert ScriptActions(Pieces(cat.schema, steps)) == [];
    } else {
      hide *;
      var step := steps[0];
      assert step in steps;
      var result := SetvalUnderstood(server, m, cat, db, step);
      SetvalRuns(server, cat.schema, db, steps);
      if result.Some? {
        NotSet(m, cat, x, step, db, result);
        NeverSet(server, m, cat, x, result.value, steps[1..]);
      }
    }
  }

  /** With an unreadable name the values come out wrong, or the restore is rejected. */
  lemma UnreadableLost(server: Server, m: Meaning, cat: Catalog, db: Database)
    requires Understands(server, m, cat) && SequencesOk(cat.sequences) && SequencesAt(db, cat.sequences, 0) && !NamesReadable(cat)
    ensures var r := RunActions(server, db, ScriptActions(Pieces(cat.schema, SetvalSteps(cat.sequences))));
            r.Some? ==> exists s :: s in cat.sequences && s.lastValue.Some? && s.name in r.value.sequences && r.value.sequences[s.name] != Positioned(s)
  {
    var seqs := cat.sequences;
    var x := LongestUnreadable(cat.schema, seqs);
    var k :| 0 <= k < |seqs| && seqs[k] == x;
    assert db.sequences[x.name] == Created(x);
    SetvalStepsOf(seqs);
    PlanParts(cat);
    assert forall step :: step in SetvalSteps(seqs) ==> step in Plan(cat);
    hide Understands, Plan, Qualified, Unescaped, SetvalSteps;
    NeverSet(server, m, cat, x.name, db, SetvalSteps(seqs));
  }

  // The end to end.

  lemma {:induction false} NoValuesOf(t: Table, cons: seq<Constraint>, indexes: seq<Index>, keys: bool)
    ensures forall s :: s in ConstraintStepsOf(t.name, cons, keys) || s in IndexStepsOf(t.name, indexes) ==> !s.SetValue?
    decreases |cons| + |indexes|
  {
    if cons == [] && indexes == [] {
    } else if cons != [] {
      NoValuesOf(t, cons[1..], indexes, keys);
    } else {
      NoValuesOf(t, cons, indexes[1..], keys);
    }
  }

  lemma {:induction false} FrontReadsAsIs(cat: Catalog, keys: bool)
    ensures forall step :: step in SequenceSteps(cat.sequences) ==> !step.SetValue?
    ensures forall step :: step in TableSteps(cat.tables) || step in LoadSteps(cat.tables) ==> !step.SetValue?
    ensures forall step :: step in ConstraintSteps(cat.tables, keys) || step in IndexSteps(cat.tables) ==> !step.SetValue?
    decreases |cat.sequences| + |cat.tables|
  {
    if cat.sequences == [] && cat.tables == [] {
    } else if cat.sequences != [] {
      FrontReadsAsIs(cat.(sequences := cat.sequences[1..]), keys);
    } else {
      FrontReadsAsIs(cat.(tables := cat.tables[1..]), keys);
      NoValuesOf(cat.tables[0], cat.tables[0].constraints, cat.tables[0].indexes, keys);
    }
  }

  lemma FrontInPlan(cat: Catalog)
    ensures forall step :: step in Front(cat) ==> step in Plan(cat) && ReadsAsIs(cat.schema, step)
  {
    FrontReadsAsIs(cat, true);
    FrontReadsAsIs(cat, false);
    PlanParts(cat);
    assert forall step :: step in Front(cat) ==> !step.SetValue?;
    hide Plan, Front;
  }

  lemma PiecesConcat(schema: string, a: seq<Step>, b: seq<Step>)
    ensures Pieces(schema, a + b) == Pieces(schema, a) + Pieces(schema, b)
  {
    hide StepPiece;
  }

  lemma StepActionsConcat(server: Server, db: Database, schema: string, a: seq<Step>, b: seq<Step>)
    ensures RunActions(server, db, ScriptActions(Pieces(schema, a + b)))
         == match RunActions(server, db, ScriptActions(Pieces(schema, a)))
            case None => None
            case Some(db') => RunActions(server, db', ScriptActions(Pieces(schema, b)))
  {
    PiecesConcat(schema, a, b);
    hide *;
    ScriptTextConcat(Pieces(schema, a), Pieces(schema, b));
    RunActionsConcat(server, db, ScriptActions(Pieces(schema, a)), ScriptActions(Pieces(schema, b)));
  }

  /** The actions of a plan: those of its front, then the values. */
  lemma PlanActions(server: Server, m: Meaning, cat: Catalog)
    requires Understands(server, m, cat) && forall t :: t in cat.tables ==> RowsFit(t)
    ensures RunActions(server, EmptyDatabase(cat.schema), ScriptActions(Pieces(cat.schema, Plan(cat))))
         == match Run(m, EmptyDatabase(cat.schema), Front(cat))
            case None => None
            case Some(db) => RunActions(server, db, ScriptActions(Pieces(cat.schema, SetvalSteps(cat.sequences))))
  {
    hide *;
    PlanParts(cat);
    FrontInPlan(cat);
    StepActionsConcat(server, EmptyDatabase(cat.schema), cat.schema, Front(cat), SetvalSteps(cat.sequences));
    ActionsRunPlan(server, m, cat, EmptyDatabase(cat.schema), Front(cat));
  }

  /** The values come out right just when every name can be read. */
  lemma ValuesSet(server: Server, m: Meaning, cat: Catalog, db: Database)
    requires Consistent(m, cat) && Understands(server, m, cat)
    requires forall t :: t in cat.tables ==> Named(t.constraints) && RowsFit(t)
    requires AllButValues(db, cat)
    ensures var r := RunActions(server, db, ScriptActions(Pieces(cat.schema, SetvalSteps(cat.sequences))));
      if NamesReadable(cat) then r == Run(m, db, SetvalSteps(cat.sequences)) && r.Some? && IsImage(r.value, cat)
      else r.Some? ==> exists s :: s in cat.sequences && s.lastValue.Some? && s.name in r.value.sequences && r.value.sequences[s.name] != Positioned(s)
  {
    if NamesReadable(cat) {
      SetvalStepsOf(cat.sequences);
      PlanParts(cat);
      hide Understands, Plan, IsImage, SetvalSteps;
      ActionsRunPlan(server, m, cat, db, SetvalSteps(cat.sequences));
      ValuesReached(m, cat, db);
    } else {
      UnreadableLost(server, m, cat, db);
    }
  }

  /** A sequence whose value was read but not set is not as it was. */
  lemma NotRebuilt(src: Source, db: Database, r: Sequence)
    requires r in ReadSequences(src) && r.lastValue.Some? && r.name in db.sequences && db.sequences[r.name] != Positioned(r)
    ensures !SequencesAre(db, src)
  {
    SequencesOf(src);
    var s :| s in src.sequences && r == ReadSequence(s, src.hidden);
    assert Positioned(r) == s;
  }

  lemma Rebuilt(src: Source, cat: Catalog, r: Option<Database>)
    requires cat == ReadCatalog(src) && NamesOk(cat)
    requires if NamesReadable(cat) then r.Some? && IsImage(r.value, cat)
             else r.Some? ==> exists s :: s in cat.sequences && s.lastValue.Some? && s.name in r.value.sequences && r.value.sequences[s.name] != Positioned(s)
    ensures r.Some? && IsSource(r.value, src) <==> BoundToKeys(src) && PositionsRead(src) && NamesReadable(cat)
  {
    hide NamesReadable, BoundToKeys, PositionsRead, SequencesAre, IsImage;
    if NamesReadable(cat) {
      ImageIsSource(r.value, src);
    } else if r.Some? {
      var s :| s in cat.sequences && s.lastValue.Some? && s.name in r.value.sequences && r.value.sequences[s.name] != Positioned(s);
      NotRebuilt(src, r.value, s);
    }
  }

  /** Dump and restore end to end. For a clean catalog, replaying the dump of a live database
      into an empty one rebuilds exactly the source if and only if every foreign key stands
      on the index of a key, every sequence with a last value to read has a name that can
      be read back, and every other sequence stands at its start; and a foreign key without
      a key to refer to is rejected, hence rolled back. */
  lemma DumpThenRestore(server: Server, m: Meaning, src: Source)
    requires Live(m, src) && CleanCatalog(ReadCatalog(src)) && Understands(server, m, ReadCatalog(src))
    ensures var script := ReplayText("", DumpText(ReadCatalog(src)));
            var result := RunActions(server, EmptyDatabase(src.schema), script.actions);
            && script.complete
            && (result.Some? && IsSource(result.value, src)
                <==> BoundToKeys(src) && PositionsRead(src) && NamesReadable(ReadCatalog(src)))
            && (!ConstraintBacked(ReadCatalog(src)) ==> result.None?)
  {
    var cat := ReadCatalog(src);
    ConsistentNames(m, cat);
    DumpRoundTrip(cat);
    FrontRuns(m, cat);
    PlanActions(server, m, cat);
    hide ReadCatalog, Understands, ReplayText, DumpText, CleanCatalog, Plan, Front, RunActions, Run, ConstraintBacked, Consistent;
    var front := Run(m, EmptyDatabase(cat.schema), Front(cat));
    if front.Some? {
      ValuesSet(server, m, cat, front.value);
      hide AllButValues, SetvalSteps;
      Rebuilt(src, cat, RunActions(server, front.value, ScriptActions(Pieces(cat.schema, SetvalSteps(cat.sequences)))));
    } else if BoundToKeys(src) {
      BoundIsBacked(m, src);
    }
  }
}
