/** An abstract PostgreSQL database whose statements have prerequisites, and the proof that
    the order of a dump meets them (internal/service/postgres_dump.go:9-117). */
module PostgresDatabase {
  import opened Text
  import opened CopyFormat
  import opened PostgresDump
  import opened PostgresRoundTrip

  datatype TableState = TableState(columns: seq<Column>, rows: seq<Row>,
                                   constraints: map<string, Constraint>, indexes: seq<Index>)

  /** A database as far as one schema goes: whether it has the schema, and what is in it. */
  datatype Database = Database(ready: bool, sequences: map<string, PgSequence>, tables: map<string, TableState>)

  /** A database just created: it has the schema "public" and nothing in it. */
  function EmptyDatabase(schema: string): Database {
    Database(schema == "public", map[], map[])
  }

  /** What the definition of an opaque constraint says of the rows of its table. */
  type Meaning = (string, seq<Row>) -> bool

  // ---------------------------------------------------------------------- constraints

  function Key(row: Row, cols: seq<nat>): seq<Option<string>> {
    seq(|cols|, i requires 0 <= i < |cols| => if cols[i] < |row| then row[cols[i]] else None)
  }

  /** Keys with a null part never clash. */
  ghost predicate Distinct(rows: seq<Row>, cols: seq<nat>) {
    forall i, j :: 0 <= i < j < |rows| && Key(rows[i], cols) == Key(rows[j], cols) ==> None in Key(rows[i], cols)
  }

  ghost predicate NoNulls(rows: seq<Row>, cols: seq<nat>) {
    forall i :: 0 <= i < |rows| ==> None !in Key(rows[i], cols)
  }

  ghost predicate Refers(rows: seq<Row>, cols: seq<nat>, refRows: seq<Row>, refCols: seq<nat>) {
    forall i :: 0 <= i < |rows| && None !in Key(rows[i], cols) ==>
      exists j :: 0 <= j < |refRows| && Key(refRows[j], refCols) == Key(rows[i], cols)
  }

  predicate IsKey(rule: Rule) {
    rule.PrimaryKey? || rule.UniqueKey?
  }

  ghost predicate SameColumns(a: seq<nat>, b: seq<nat>) {
    forall c :: c in a <==> c in b
  }

  ghost predicate KeyOn(c: Constraint, cols: seq<nat>) {
    IsKey(c.rule) && !c.deferrable && SameColumns(c.rule.cols, cols)
  }

  /** A primary-key or unique constraint on these columns, checked at once: what a foreign key
      needs. */
  ghost predicate HasKey(ts: TableState, cols: seq<nat>) {
    exists n :: n in ts.constraints && KeyOn(ts.constraints[n], cols)
  }

  /** The rows of a table, as far as the database has it. */
  function RowsOf(db: Database, name: string): seq<Row> {
    if name in db.tables then db.tables[name].rows else []
  }

  /** What is demanded of the rows of a table; nothing by a constraint that is NOT VALID. */
  ghost predicate Holds(m: Meaning, db: Database, rows: seq<Row>, c: Constraint) {
    match c.rule
    case PrimaryKey(cols) => Distinct(rows, cols) && NoNulls(rows, cols)
    case UniqueKey(cols) => Distinct(rows, cols)
    case ForeignKey(cols, refTable, refCols) =>
      refTable in db.tables && (c.validated ==> Refers(rows, cols, RowsOf(db, refTable), refCols))
    case Opaque(_) => c.validated ==> m(c.def, rows)
  }

  // ----------------------------------------------------------------------- statements

  /** ALTER TABLE ... ADD CONSTRAINT goes through. */
  ghost predicate Admits(m: Meaning, db: Database, ts: TableState, c: Constraint) {
    && c.name !in ts.constraints
    && Holds(m, db, ts.rows, c)
    && (c.rule.PrimaryKey? ==> forall n :: n in ts.constraints ==> !ts.constraints[n].rule.PrimaryKey?)
    && (c.rule.ForeignKey? ==> HasKey(db.tables[c.rule.refTable], c.rule.refCols))
  }

  ghost predicate DefaultsKnown(db: Database, cols: seq<Column>) {
    forall i :: 0 <= i < |cols| && cols[i].default.Some? ==>
      forall u :: u in cols[i].default.value.uses ==> u in db.sequences
  }

  ghost predicate NotNullsMet(cols: seq<Column>, rows: seq<Row>) {
    forall i, k :: 0 <= i < |rows| && 0 <= k < |cols| && k < |rows[i]| && cols[k].notNull ==> rows[i][k] != None
  }

  /** A sequence as CREATE SEQUENCE makes it: at its start value, not called yet. */
  function Created(s: Sequence): PgSequence {
    PgSequence(s.name, s.dataType, s.startValue, s.minValue, s.maxValue, s.incrementBy, s.cycle, Position(s.startValue, false))
  }

  /** A sequence as its row describes it. */
  function Positioned(s: Sequence): PgSequence {
    if s.lastValue.Some? then Created(s).(position := Position(s.lastValue.value, true)) else Created(s)
  }

  /** CREATE SEQUENCE IF NOT EXISTS. */
  function MakeSequence(db: Database, s: PgSequence): Option<Database> {
    if !db.ready then None
    else if s.name in db.sequences then Some(db)
    else if !(s.minValue <= s.startValue <= s.maxValue) then None
    else Some(db.(sequences := db.sequences[s.name := s]))
  }

  /** CREATE TABLE: defaults must know their sequences. */
  ghost function MakeTable(db: Database, name: string, columns: seq<Column>): Option<Database> {
    if !db.ready || name in db.tables || !DefaultsKnown(db, columns) then None
    else Some(db.(tables := db.tables[name := TableState(columns, [], map[], [])]))
  }

  /** New rows must meet also a constraint that the old ones need not. */
  ghost predicate Keeps(m: Meaning, db: Database, all: seq<Row>, rows: seq<Row>, c: Constraint) {
    Holds(m, db, if c.validated then all else rows, c.(validated := true))
  }

  /** COPY into a table: every row must fit the columns and keep what is already demanded. */
  ghost function ExecCopy(m: Meaning, db: Database, name: string, rows: seq<Row>): Option<Database> {
    if name !in db.tables then None else
      var ts := db.tables[name];
      var all := ts.rows + rows;
      var db' := db.(tables := db.tables[name := ts.(rows := all)]);
      if && (forall i :: 0 <= i < |rows| ==> |rows[i]| == |ts.columns|)
         && NotNullsMet(ts.columns, rows)
         && (forall n :: n in ts.constraints ==> Keeps(m, db', all, rows, ts.constraints[n]))
         && (forall i :: 0 <= i < |ts.indexes| && ts.indexes[i].unique.Some? ==> Distinct(all, ts.indexes[i].unique.value))
      then Some(db') else None
  }

  /** One statement; None when the server rejects it. */
  ghost function ExecStep(m: Meaning, db: Database, step: Step): Option<Database> {
    match step
    case Banner => Some(db)
    case Gap => Some(db)
    case SetEncoding => Some(db)
    case CreateSchema => Some(db.(ready := true))
    case CreateSequence(s) => MakeSequence(db, Created(s))
    case CreateTable(t) => MakeTable(db, t.name, t.columns)
    case LoadTable(t) => ExecCopy(m, db, t.name, t.rows)
    case AddConstraint(name, c) =>
      if name !in db.tables || !Admits(m, db, db.tables[name], c) then None
      else Some(db.(tables := db.tables[name := db.tables[name].(constraints := db.tables[name].constraints[c.name := c])]))
    case CreateIndex(name, index) =>
      if name !in db.tables || (index.unique.Some? && !Distinct(db.tables[name].rows, index.unique.value)) then None
      else Some(db.(tables := db.tables[name := db.tables[name].(indexes := db.tables[name].indexes + [index])]))
    case SetValue(name, v) =>
      if name !in db.sequences || !(db.sequences[name].minValue <= v <= db.sequences[name].maxValue) then None
      else Some(db.(sequences := db.sequences[name := db.sequences[name].(position := Position(v, true))]))
  }

  ghost function Run(m: Meaning, db: Database, steps: seq<Step>): Option<Database>
    decreases |steps|
  {
    if steps == [] then Some(db) else
      match ExecStep(m, db, steps[0])
      case None => None
      case Some(db') => Run(m, db', steps[1..])
  }

  lemma {:induction false} RunConcat(m: Meaning, db: Database, a: seq<Step>, b: seq<Step>)
    ensures Run(m, db, a + b) == match Run(m, db, a) case None => None case Some(db') => Run(m, db', b)
    decreases |a|
  {
    if a == [] {
      assert a + b == b;
    } else {
      assert (a + b)[0] == a[0] && (a + b)[1..] == a[1..] + b;
      match ExecStep(m, db, a[0]) {
        case None =>
        case Some(db') => RunConcat(m, db', a[1..], b);
      }
    }
  }

  // ----------------------------------------------------- the database a catalog is of

  ghost predicate Named(cs: seq<Constraint>) {
    forall i, j :: 0 <= i < j < |cs| ==> cs[i].name != cs[j].name
  }

  ghost predicate NamedTables(ts: seq<Table>) {
    forall i, j :: 0 <= i < j < |ts| ==> ts[i].name != ts[j].name
  }

  /** Start value and last value, if it has one, are within bounds. */
  predicate InBounds(s: Sequence) {
    && s.minValue <= s.startValue <= s.maxValue
    && (s.lastValue.Some? ==> s.minValue <= s.lastValue.value <= s.maxValue)
  }

  /** Names are different, and values within bounds. */
  ghost predicate SequencesOk(ss: seq<Sequence>) {
    && (forall i, j :: 0 <= i < j < |ss| ==> ss[i].name != ss[j].name)
    && (forall i :: 0 <= i < |ss| ==> InBounds(ss[i]))
  }

  /** The constraints of a table of which the keys up to `a` and the others up to `b` have
      been added. */
  ghost function Present(cs: seq<Constraint>, a: nat, b: nat): map<string, Constraint>
    requires Named(cs)
  {
    map k | 0 <= k < |cs| && (if IsKey(cs[k].rule) then k < a else k < b) :: cs[k].name := cs[k]
  }

  ghost function FinalTable(t: Table): TableState
    requires Named(t.constraints)
  {
    TableState(t.columns, t.rows, Present(t.constraints, |t.constraints|, |t.constraints|), t.indexes)
  }

  ghost function TableNames(ts: seq<Table>): set<string> {
    set t | t in ts :: t.name
  }

  ghost predicate SequencesImage(db: Database, ss: seq<Sequence>) {
    && db.sequences.Keys == (set s | s in ss :: s.name)
    && (forall s :: s in ss ==> db.sequences[s.name] == Positioned(s))
  }

  ghost predicate TablesImage(db: Database, ts: seq<Table>)
    requires forall t :: t in ts ==> Named(t.constraints)
  {
    && db.tables.Keys == TableNames(ts)
    && (forall t :: t in ts ==> db.tables[t.name] == FinalTable(t))
  }

  /** `db` is exactly the database the catalog describes. */
  ghost predicate IsImage(db: Database, cat: Catalog)
    requires forall t :: t in cat.tables ==> Named(t.constraints)
  {
    SequencesImage(db, cat.sequences) && TablesImage(db, cat.tables)
  }

  /** A key constraint of the catalog on these columns. */
  ghost predicate Backed(t: Table, cols: seq<nat>) {
    exists c :: c in t.constraints && KeyOn(c, cols)
  }

  ghost predicate Satisfied(m: Meaning, cat: Catalog, t: Table, c: Constraint) {
    match c.rule
    case PrimaryKey(cols) => Distinct(t.rows, cols) && NoNulls(t.rows, cols)
    case UniqueKey(cols) => Distinct(t.rows, cols)
    case ForeignKey(cols, refTable, refCols) =>
      exists r :: r in cat.tables && r.name == refTable && (c.validated ==> Refers(t.rows, cols, r.rows, refCols))
    case Opaque(_) => c.validated ==> m(c.def, t.rows)
  }

  ghost predicate ConsistentTable(m: Meaning, cat: Catalog, t: Table) {
    && Named(t.constraints)
    && (forall i, j :: 0 <= i < j < |t.constraints| ==> !(t.constraints[i].rule.PrimaryKey? && t.constraints[j].rule.PrimaryKey?))
    && (forall c :: c in t.constraints && c.rule.Opaque? ==> c.rule.contype != "p" && c.rule.contype != "u")
    && (forall i, u :: 0 <= i < |t.columns| && t.columns[i].default.Some? && u in t.columns[i].default.value.uses ==>
          exists s :: s in cat.sequences && s.name == u)
    && RowsFit(t) && NotNullsMet(t.columns, t.rows)
    && (forall c :: c in t.constraints ==> Satisfied(m, cat, t, c))
    && (forall x :: x in t.indexes && x.unique.Some? ==> Distinct(t.rows, x.unique.value))
  }

  /** What every live database keeps of itself, as far as a catalog read from it shows. */
  ghost predicate Consistent(m: Meaning, cat: Catalog) {
    && SequencesOk(cat.sequences) && NamedTables(cat.tables)
    && forall t :: t in cat.tables ==> ConsistentTable(m, cat, t)
  }

  /** The foreign key refers to columns that a primary-key or unique constraint covers at once. */
  ghost predicate ForeignKeyBacked(cat: Catalog, c: Constraint) {
    c.rule.ForeignKey? ==> exists r :: r in cat.tables && r.name == c.rule.refTable && Backed(r, c.rule.refCols)
  }

  ghost predicate ConstraintBacked(cat: Catalog) {
    forall t, c :: t in cat.tables && c in t.constraints ==> ForeignKeyBacked(cat, c)
  }

  // ------------------------------------------------------------- sequences and tables

  /** The sequences of a plan under way: all created, the first `i` with their value. */
  ghost predicate SequencesAt(db: Database, ss: seq<Sequence>, i: nat) {
    && db.sequences.Keys == (set s | s in ss :: s.name)
    && forall k :: 0 <= k < |ss| ==> db.sequences[ss[k].name] == if k < i then Positioned(ss[k]) else Created(ss[k])
  }

  /** The first `i` sequences exist, without values. */
  ghost predicate SequencesUpTo(db: Database, ss: seq<Sequence>, i: nat)
    requires i <= |ss|
  {
    && db.sequences.Keys == (set s | s in ss[..i] :: s.name)
    && forall k :: 0 <= k < i ==> db.sequences[ss[k].name] == Created(ss[k])
  }

  lemma CreateResult(m: Meaning, db: Database, s: Sequence)
    requires db.ready && s.name !in db.sequences && InBounds(s)
    ensures ExecStep(m, db, CreateSequence(s)) == Some(db.(sequences := db.sequences[s.name := Created(s)]))
  {
  }

  lemma SequenceNext(m: Meaning, db: Database, ss: seq<Sequence>, i: nat) returns (db': Database)
    requires db.ready && SequencesOk(ss) && i < |ss| && SequencesUpTo(db, ss, i)
    ensures ExecStep(m, db, CreateSequence(ss[i])) == Some(db')
    ensures db'.ready && SequencesUpTo(db', ss, i + 1) && db'.tables == db.tables
  {
    hide ExecStep, Created, InBounds;
    assert ss[..i + 1] == ss[..i] + [ss[i]];
    assert ss[i].name !in db.sequences;
    CreateResult(m, db, ss[i]);
    db' := db.(sequences := db.sequences[ss[i].name := Created(ss[i])]);
  }

  lemma AllSequences(db: Database, ss: seq<Sequence>)
    requires SequencesUpTo(db, ss, |ss|)
    ensures SequencesAt(db, ss, 0)
  {
    assert ss[..|ss|] == ss;
  }

  lemma StepResult(m: Meaning, db: Database, step: Step, db': Database, more: seq<Step>)
    requires ExecStep(m, db, step) == Some(db')
    ensures Run(m, db, [step] + more) == Run(m, db', more)
  {
    assert ([step] + more)[1..] == more;
  }

  lemma {:induction false} CreateSequences(m: Meaning, db: Database, ss: seq<Sequence>, i: nat)
    requires db.ready && SequencesOk(ss) && i <= |ss| && SequencesUpTo(db, ss, i)
    ensures var r := Run(m, db, SequenceSteps(ss[i..]));
            r.Some? && r.value.ready && SequencesAt(r.value, ss, 0) && r.value.tables == db.tables
    decreases |ss| - i
  {
    if i == |ss| {
      assert SequenceSteps(ss[i..]) == [];
      AllSequences(db, ss);
    } else {
      var db' := SequenceNext(m, db, ss, i);
      assert ss[i..][1..] == ss[i + 1..];
      StepResult(m, db, CreateSequence(ss[i]), db', SequenceSteps(ss[i + 1..]));
      hide Run, ExecStep, SequencesAt, SequencesOk, SequencesUpTo;
      CreateSequences(m, db', ss, i + 1);
    }
  }

  lemma SetResult(m: Meaning, db: Database, s: Sequence)
    requires s.lastValue.Some? && InBounds(s) && s.name in db.sequences && db.sequences[s.name] == Created(s)
    ensures ExecStep(m, db, SetValue(s.name, s.lastValue.value)) == Some(db.(sequences := db.sequences[s.name := Positioned(s)]))
  {}

  lemma SetNext(m: Meaning, db: Database, ss: seq<Sequence>, i: nat) returns (db': Database)
    requires SequencesOk(ss) && i < |ss| && SequencesAt(db, ss, i)
    ensures SequencesAt(db', ss, i + 1) && db'.tables == db.tables
    ensures if ss[i].lastValue.Some? then ExecStep(m, db, SetValue(ss[i].name, ss[i].lastValue.value)) == Some(db') else db' == db
  {
    assert ss[i] in ss && (ss[i].lastValue == None ==> Positioned(ss[i]) == Created(ss[i]));
    hide ExecStep, Created, Positioned, InBounds;
    if ss[i].lastValue.Some? {
      SetResult(m, db, ss[i]);
      db' := db.(sequences := db.sequences[ss[i].name := Positioned(ss[i])]);
    } else {
      db' := db;
    }
  }

  lemma {:induction false} SetValues(m: Meaning, db: Database, ss: seq<Sequence>, i: nat)
    requires SequencesOk(ss) && i <= |ss| && SequencesAt(db, ss, i)
    ensures var r := Run(m, db, SetvalSteps(ss[i..]));
            r.Some? && SequencesAt(r.value, ss, |ss|) && r.value.tables == db.tables
    decreases |ss| - i
  {
    if i == |ss| {
      assert SetvalSteps(ss[i..]) == [];
    } else {
      var db' := SetNext(m, db, ss, i);
      NextSetval(ss, i);
      if ss[i].lastValue.Some? {
        StepResult(m, db, SetValue(ss[i].name, ss[i].lastValue.value), db', SetvalSteps(ss[i + 1..]));
      }
      hide Run, ExecStep, SequencesAt, SequencesOk;
      SetValues(m, db', ss, i + 1);
    }
  }

  /** The stages a table goes through. */
  datatype Stage = Bare | Loaded | Keyed | Constrained | Indexed

  ghost function At(t: Table, stage: Stage): TableState
    requires Named(t.constraints)
  {
    var n := |t.constraints|;
    match stage
    case Bare => TableState(t.columns, [], map[], [])
    case Loaded => TableState(t.columns, t.rows, Present(t.constraints, 0, 0), [])
    case Keyed => TableState(t.columns, t.rows, Present(t.constraints, n, 0), [])
    case Constrained => TableState(t.columns, t.rows, Present(t.constraints, n, n), [])
    case Indexed => FinalTable(t)
  }

  /** The first `i` tables have reached `next`, the others are still at `stage`. */
  ghost predicate TablesAt(db: Database, ts: seq<Table>, i: nat, next: Stage, stage: Stage)
    requires forall t :: t in ts ==> Named(t.constraints)
  {
    && db.tables.Keys == TableNames(ts)
    && forall k :: 0 <= k < |ts| ==> db.tables[ts[k].name] == At(ts[k], if k < i then next else stage)
  }

  lemma TableReached(db: Database, ts: seq<Table>, i: nat, next: Stage, stage: Stage, db': Database)
    requires NamedTables(ts) && (forall t :: t in ts ==> Named(t.constraints))
    requires i < |ts| && TablesAt(db, ts, i, next, stage)
    requires db' == db.(tables := db.tables[ts[i].name := At(ts[i], next)])
    ensures TablesAt(db', ts, i + 1, next, stage)
  {
    hide At;
  }

  lemma NextStage(db: Database, ts: seq<Table>, next: Stage, stage: Stage, after: Stage)
    requires (forall t :: t in ts ==> Named(t.constraints)) && TablesAt(db, ts, |ts|, next, stage)
    ensures TablesAt(db, ts, 0, after, next)
  {}

  /** The first `i` tables exist, all bare. */
  ghost predicate CreatedUpTo(db: Database, ts: seq<Table>, i: nat)
    requires forall t :: t in ts ==> Named(t.constraints)
    requires i <= |ts|
  {
    && db.tables.Keys == TableNames(ts[..i])
    && forall k :: 0 <= k < i ==> db.tables[ts[k].name] == At(ts[k], Bare)
  }

  lemma CreateNext(m: Meaning, db: Database, ts: seq<Table>, i: nat, more: seq<Step>) returns (db': Database)
    requires NamedTables(ts) && (forall t :: t in ts ==> Named(t.constraints) && DefaultsKnown(db, t.columns)) && i < |ts|
    requires db.ready && CreatedUpTo(db, ts, i)
    ensures db'.ready && CreatedUpTo(db', ts, i + 1) && db'.sequences == db.sequences
    ensures Run(m, db, [CreateTable(ts[i]), Gap] + more) == Run(m, db', more)
  {
    assert ts[..i + 1] == ts[..i] + [ts[i]];
    assert ts[i] in ts && ts[i].name !in db.tables;
    db' := ExecStep(m, db, CreateTable(ts[i])).value;
    assert ([CreateTable(ts[i]), Gap] + more)[1..] == [Gap] + more && ([Gap] + more)[1..] == more;
  }

  lemma AllCreated(db: Database, ts: seq<Table>)
    requires forall t :: t in ts ==> Named(t.constraints)
    requires CreatedUpTo(db, ts, |ts|)
    ensures TablesAt(db, ts, 0, Loaded, Bare)
  {
    assert ts[..|ts|] == ts;
  }

  lemma {:induction false} CreateTables(m: Meaning, db: Database, ts: seq<Table>, i: nat)
    requires NamedTables(ts) && (forall t :: t in ts ==> Named(t.constraints) && DefaultsKnown(db, t.columns)) && i <= |ts|
    requires db.ready && CreatedUpTo(db, ts, i)
    ensures var r := Run(m, db, TableSteps(ts[i..]));
            r.Some? && TablesAt(r.value, ts, 0, Loaded, Bare) && r.value.sequences == db.sequences
    decreases |ts| - i
  {
    if i == |ts| {
      assert TableSteps(ts[i..]) == [];
      AllCreated(db, ts);
    } else {
      assert ts[i..][1..] == ts[i + 1..];
      var db' := CreateNext(m, db, ts, i, TableSteps(ts[i + 1..]));
      hide Run, CreatedUpTo, TablesAt, NamedTables;
      CreateTables(m, db', ts, i + 1);
    }
  }

  lemma LoadOne(m: Meaning, db: Database, t: Table)
    requires Named(t.constraints) && RowsFit(t) && NotNullsMet(t.columns, t.rows)
    requires t.name in db.tables && db.tables[t.name] == At(t, Bare)
    ensures ExecStep(m, db, LoadTable(t)) == Some(db.(tables := db.tables[t.name := At(t, Loaded)]))
  {
    assert [] + t.rows == t.rows && Present(t.constraints, 0, 0) == map[];
  }

  /** Loading one more table. */
  lemma LoadNext(m: Meaning, db: Database, ts: seq<Table>, i: nat) returns (db': Database)
    requires NamedTables(ts) && i < |ts|
    requires forall t :: t in ts ==> Named(t.constraints) && RowsFit(t) && NotNullsMet(t.columns, t.rows)
    requires TablesAt(db, ts, i, Loaded, Bare)
    ensures TablesAt(db', ts, i + 1, Loaded, Bare) && db'.sequences == db.sequences
    ensures ExecStep(m, db, LoadTable(ts[i])) == Some(db')
  {
    hide ExecStep;
    assert ts[i] in ts;
    LoadOne(m, db, ts[i]);
    db' := db.(tables := db.tables[ts[i].name := At(ts[i], Loaded)]);
    TableReached(db, ts, i, Loaded, Bare, db');
  }

  lemma LoadResult(m: Meaning, db: Database, t: Table, db': Database, more: seq<Step>)
    requires ExecStep(m, db, LoadTable(t)) == Some(db')
    ensures Run(m, db, [LoadTable(t), Gap] + more) == Run(m, db', more)
  {
    hide ExecCopy;
    assert ([LoadTable(t), Gap] + more)[1..] == [Gap] + more && ([Gap] + more)[1..] == more;
  }

  lemma {:induction false} LoadTables(m: Meaning, db: Database, ts: seq<Table>, i: nat)
    requires NamedTables(ts) && i <= |ts|
    requires forall t :: t in ts ==> Named(t.constraints) && RowsFit(t) && NotNullsMet(t.columns, t.rows)
    requires TablesAt(db, ts, i, Loaded, Bare)
    ensures var r := Run(m, db, LoadSteps(ts[i..]));
            r.Some? && TablesAt(r.value, ts, |ts|, Loaded, Bare) && r.value.sequences == db.sequences
    decreases |ts| - i
  {
    if i == |ts| {
      assert ts[i..] == [];
    } else {
      assert ts[i] in ts && ts[i..][1..] == ts[i + 1..];
      var db' := LoadNext(m, db, ts, i);
      LoadResult(m, db, ts[i], db', LoadSteps(ts[i + 1..]));
      hide Run, ExecStep, TablesAt;
      LoadTables(m, db', ts, i + 1);
    }
  }

  // ------------------------------------------------------------------- the two passes

  /** `db` with a new state for one table. */
  function With(db: Database, name: string, ts: TableState): Database {
    db.(tables := db.tables[name := ts])
  }

  lemma WithTwice(db: Database, name: string, a: TableState, b: TableState)
    ensures With(With(db, name, a), name, b) == With(db, name, b)
  {}

  /** Which constraints are present, name by name. */
  lemma PresentNames(cs: seq<Constraint>, a: nat, b: nat)
    requires Named(cs)
    ensures forall k :: 0 <= k < |cs| ==>
              if (if IsKey(cs[k].rule) then k < a else k < b)
              then cs[k].name in Present(cs, a, b) && Present(cs, a, b)[cs[k].name] == cs[k]
              else cs[k].name !in Present(cs, a, b)
    ensures forall n :: n in Present(cs, a, b) ==> exists k :: 0 <= k < |cs| && cs[k].name == n
  {}

  lemma SamePresent(cs: seq<Constraint>, a: nat, b: nat, m: map<string, Constraint>)
    requires Named(cs)
    requires forall k :: 0 <= k < |cs| ==>
               if (if IsKey(cs[k].rule) then k < a else k < b) then cs[k].name in m && m[cs[k].name] == cs[k] else cs[k].name !in m
    requires forall n :: n in m ==> exists k :: 0 <= k < |cs| && cs[k].name == n
    ensures m == Present(cs, a, b)
  {
    PresentNames(cs, a, b);
    hide Present;
    assert forall n :: n in m <==> n in Present(cs, a, b);
  }

  lemma KeyAdded(cs: seq<Constraint>, a: nat, b: nat)
    requires Named(cs) && a < |cs|
    ensures IsKey(cs[a].rule) ==> cs[a].name !in Present(cs, a, b) && Present(cs, a + 1, b) == Present(cs, a, b)[cs[a].name := cs[a]]
    ensures !IsKey(cs[a].rule) ==> Present(cs, a + 1, b) == Present(cs, a, b)
  {
    PresentNames(cs, a, b);
    hide Present;
    SamePresent(cs, a + 1, b, if IsKey(cs[a].rule) then Present(cs, a, b)[cs[a].name := cs[a]] else Present(cs, a, b));
  }

  lemma OtherAdded(cs: seq<Constraint>, a: nat, b: nat)
    requires Named(cs) && b < |cs|
    ensures !IsKey(cs[b].rule) ==> cs[b].name !in Present(cs, a, b) && Present(cs, a, b + 1) == Present(cs, a, b)[cs[b].name := cs[b]]
    ensures IsKey(cs[b].rule) ==> Present(cs, a, b + 1) == Present(cs, a, b)
  {
    PresentNames(cs, a, b);
    hide Present;
    SamePresent(cs, a, b + 1, if IsKey(cs[b].rule) then Present(cs, a, b) else Present(cs, a, b)[cs[b].name := cs[b]]);
  }

  lemma AddResult(m: Meaning, db: Database, name: string, c: Constraint, more: seq<Step>)
    requires name in db.tables
    ensures Run(m, db, [AddConstraint(name, c)] + more)
         == if Admits(m, db, db.tables[name], c)
            then Run(m, With(db, name, db.tables[name].(constraints := db.tables[name].constraints[c.name := c])), more)
            else None
  {
    assert ([AddConstraint(name, c)] + more)[1..] == more;
  }

  lemma StepsOfConstraint(table: string, cs: seq<Constraint>, j: nat, keys: bool)
    requires j < |cs|
    ensures ConstraintStepsOf(table, cs[j..], keys)
         == if Wanted(keys, Contype(cs[j].rule)) then [AddConstraint(table, cs[j])] + ConstraintStepsOf(table, cs[j + 1..], keys)
            else ConstraintStepsOf(table, cs[j + 1..], keys)
  {
    assert cs[j..][1..] == cs[j + 1..];
  }

  /** A key of a consistent table is admitted while no other key after it is present. */
  lemma AdmitsKey(m: Meaning, cat: Catalog, db: Database, t: Table, ts: TableState, j: nat)
    requires ConsistentTable(m, cat, t) && j < |t.constraints| && IsKey(t.constraints[j].rule)
    requires ts.rows == t.rows && ts.constraints == Present(t.constraints, j, 0)
    ensures Admits(m, db, ts, t.constraints[j])
  {
    assert t.constraints[j] in t.constraints && Satisfied(m, cat, t, t.constraints[j]);
  }

  /** The key pass over one table always goes through. */
  lemma {:induction false} AddKeys(m: Meaning, cat: Catalog, db: Database, t: Table, j: nat)
    requires ConsistentTable(m, cat, t) && j <= |t.constraints| && t.name in db.tables
    requires db.tables[t.name] == TableState(t.columns, t.rows, Present(t.constraints, j, 0), [])
    ensures Run(m, db, ConstraintStepsOf(t.name, t.constraints[j..], true)) == Some(With(db, t.name, At(t, Keyed)))
    decreases |t.constraints| - j
  {
    var cs := t.constraints;
    if j == |cs| {
      assert With(db, t.name, At(t, Keyed)) == db;
    } else {
      StepsOfConstraint(t.name, cs, j, true);
      KeyAdded(cs, j, 0);
      if IsKey(cs[j].rule) {
        AdmitsKey(m, cat, db, t, db.tables[t.name], j);
        hide Admits, Present, ConstraintStepsOf;
        AddResult(m, db, t.name, cs[j], ConstraintStepsOf(t.name, cs[j + 1..], true));
        var state := TableState(t.columns, t.rows, Present(cs, j + 1, 0), []);
        AddKeys(m, cat, With(db, t.name, state), t, j + 1);
        WithTwice(db, t.name, state, At(t, Keyed));
      } else {
        AddKeys(m, cat, db, t, j + 1);
      }
    }
  }

  lemma {:induction false} KeyPass(m: Meaning, cat: Catalog, db: Database, i: nat)
    requires Consistent(m, cat) && i <= |cat.tables|
    requires TablesAt(db, cat.tables, i, Keyed, Loaded)
    ensures var r := Run(m, db, ConstraintSteps(cat.tables[i..], true));
            r.Some? && TablesAt(r.value, cat.tables, |cat.tables|, Keyed, Loaded) && r.value.sequences == db.sequences
    decreases |cat.tables| - i
  {
    var ts := cat.tables;
    if i == |ts| {
    } else {
      var t := ts[i];
      assert t in ts && ts[i..][1..] == ts[i + 1..];
      assert ConstraintSteps(ts[i..], true) == ConstraintStepsOf(t.name, t.constraints, true) + ConstraintSteps(ts[i + 1..], true);
      AddKeys(m, cat, db, t, 0);
      assert t.constraints[0..] == t.constraints;
      var db' := With(db, t.name, At(t, Keyed));
      TableReached(db, ts, i, Keyed, Loaded, db');
      hide Run, TablesAt, ConstraintSteps, ConstraintStepsOf, At;
      RunConcat(m, db, ConstraintStepsOf(t.name, t.constraints, true), ConstraintSteps(ts[i + 1..], true));
      KeyPass(m, cat, db', i + 1);
    }
  }

  /** All rows are in, and each table has exactly its own key constraints. */
  ghost predicate KeysAre(db: Database, ts: seq<Table>) {
    && db.tables.Keys == TableNames(ts)
    && forall t :: t in ts ==> db.tables[t.name].rows == t.rows && forall cols :: HasKey(db.tables[t.name], cols) <==> Backed(t, cols)
  }

  lemma PresentKeyListed(t: Table, b: nat, n: string, cols: seq<nat>)
    requires Named(t.constraints)
    requires var present := Present(t.constraints, |t.constraints|, b); n in present && KeyOn(present[n], cols)
    ensures Backed(t, cols)
  {
    hide KeyOn;
    PresentNames(t.constraints, |t.constraints|, b);
    var k :| 0 <= k < |t.constraints| && t.constraints[k].name == n;
    assert t.constraints[k] in t.constraints;
  }

  lemma ListedKeyPresent(t: Table, b: nat, c: Constraint, cols: seq<nat>)
    requires Named(t.constraints) && c in t.constraints && KeyOn(c, cols)
    ensures var present := Present(t.constraints, |t.constraints|, b); c.name in present && present[c.name] == c
  {
    hide SameColumns;
    PresentNames(t.constraints, |t.constraints|, b);
    var k :| 0 <= k < |t.constraints| && t.constraints[k] == c;
  }

  lemma PresentKeys(t: Table, ts: TableState, b: nat, cols: seq<nat>)
    requires Named(t.constraints) && ts.constraints == Present(t.constraints, |t.constraints|, b)
    ensures HasKey(ts, cols) <==> Backed(t, cols)
  {
    hide Present, KeyOn;
    if HasKey(ts, cols) {
      var n :| n in ts.constraints && KeyOn(ts.constraints[n], cols);
      PresentKeyListed(t, b, n, cols);
    }
    if Backed(t, cols) {
      var c :| c in t.constraints && KeyOn(c, cols);
      ListedKeyPresent(t, b, c, cols);
    }
  }

  lemma KeysAreAt(db: Database, ts: seq<Table>, i: nat)
    requires (forall t :: t in ts ==> Named(t.constraints)) && TablesAt(db, ts, i, Constrained, Keyed)
    ensures KeysAre(db, ts)
  {
    forall t, cols | t in ts
      ensures db.tables[t.name].rows == t.rows && (HasKey(db.tables[t.name], cols) <==> Backed(t, cols))
    {
      var k :| 0 <= k < |ts| && ts[k] == t;
      PresentKeys(t, db.tables[t.name], if k < i then |t.constraints| else 0, cols);
    }
  }

  /** Adding a constraint that is no key keeps the keys as they are. */
  lemma KeysAreKept(db: Database, ts: seq<Table>, t: Table, b: nat, state: TableState)
    requires NamedTables(ts) && KeysAre(db, ts) && t in ts && Named(t.constraints)
    requires state.rows == t.rows && state.constraints == Present(t.constraints, |t.constraints|, b)
    ensures KeysAre(With(db, t.name, state), ts)
  {
    var db' := With(db, t.name, state);
    forall u, cols | u in ts
      ensures db'.tables[u.name].rows == u.rows && (HasKey(db'.tables[u.name], cols) <==> Backed(u, cols))
    {
      if u.name == t.name {
        assert u == t;
        PresentKeys(t, state, b, cols);
      }
    }
  }

  /** Once rows and keys are in, the server admits a constraint of a consistent catalog
      exactly when, being a foreign key, it refers to constraint-backed columns. */
  lemma AdmitsOther(m: Meaning, cat: Catalog, db: Database, t: Table, ts: TableState, c: Constraint)
    requires Consistent(m, cat) && KeysAre(db, cat.tables) && t in cat.tables && c in t.constraints && !IsKey(c.rule)
    requires ts.rows == t.rows && c.name !in ts.constraints
    ensures Admits(m, db, ts, c) <==> ForeignKeyBacked(cat, c)
  {
    assert ConsistentTable(m, cat, t) && Satisfied(m, cat, t, c);
    if c.rule.ForeignKey? {
      var r :| r in cat.tables && r.name == c.rule.refTable && (c.validated ==> Refers(t.rows, c.rule.cols, r.rows, c.rule.refCols));
      assert db.tables[r.name].rows == r.rows;
      assert forall q :: q in cat.tables && q.name == r.name ==> q == r;
    }
  }

  ghost predicate AllBacked(cat: Catalog, cs: seq<Constraint>) {
    forall c :: c in cs ==> ForeignKeyBacked(cat, c)
  }

  lemma BackedFrom(cat: Catalog, cs: seq<Constraint>, j: nat)
    requires j < |cs|
    ensures AllBacked(cat, cs[j..]) <==> ForeignKeyBacked(cat, cs[j]) && AllBacked(cat, cs[j + 1..])
  {
    assert cs[j..] == [cs[j]] + cs[j + 1..];
  }

  lemma {:induction false} AddOther(m: Meaning, cat: Catalog, db: Database, t: Table, j: nat)
    requires Consistent(m, cat) && t in cat.tables && j < |t.constraints| && KeysAre(db, cat.tables)
    requires ConsistentTable(m, cat, t) && t.name in db.tables
    requires db.tables[t.name] == TableState(t.columns, t.rows, Present(t.constraints, |t.constraints|, j), [])
    requires !IsKey(t.constraints[j].rule)
    ensures Run(m, db, [AddConstraint(t.name, t.constraints[j])] + ConstraintStepsOf(t.name, t.constraints[j + 1..], false))
         == if ForeignKeyBacked(cat, t.constraints[j]) && AllBacked(cat, t.constraints[j + 1..])
            then Some(With(db, t.name, At(t, Constrained))) else None
    decreases |t.constraints| - j, 0
  {
    var cs, n, c := t.constraints, |t.constraints|, t.constraints[j];
    assert c in cs;
    var state := TableState(t.columns, t.rows, Present(cs, n, j + 1), []);
    var more := ConstraintStepsOf(t.name, cs[j + 1..], false);
    OtherAdded(cs, n, j);
    AdmitsOther(m, cat, db, t, db.tables[t.name], c);
    AddResult(m, db, t.name, c, more);
    hide Admits, Present, ConstraintStepsOf, ForeignKeyBacked, Run;
    if ForeignKeyBacked(cat, c) {
      KeysAreKept(db, cat.tables, t, j + 1, state);
      hide KeysAre;
      AddOthers(m, cat, With(db, t.name, state), t, j + 1);
      WithTwice(db, t.name, state, At(t, Constrained));
    }
  }

  /** The second pass over one table goes through exactly when its foreign keys are backed. */
  lemma {:induction false} AddOthers(m: Meaning, cat: Catalog, db: Database, t: Table, j: nat)
    requires Consistent(m, cat) && t in cat.tables && j <= |t.constraints| && KeysAre(db, cat.tables)
    requires ConsistentTable(m, cat, t) && t.name in db.tables
    requires db.tables[t.name] == TableState(t.columns, t.rows, Present(t.constraints, |t.constraints|, j), [])
    ensures Run(m, db, ConstraintStepsOf(t.name, t.constraints[j..], false))
         == if AllBacked(cat, t.constraints[j..]) then Some(With(db, t.name, At(t, Constrained))) else None
    decreases |t.constraints| - j, 1
  {
    var cs, n := t.constraints, |t.constraints|;
    if j == n {
      assert With(db, t.name, At(t, Constrained)) == db;
    } else {
      StepsOfConstraint(t.name, cs, j, false);
      BackedFrom(cat, cs, j);
      OtherAdded(cs, n, j);
      hide Present, KeysAre, AllBacked, ForeignKeyBacked, Run, ConstraintStepsOf;
      if IsKey(cs[j].rule) {
        AddOthers(m, cat, db, t, j + 1);
      } else {
        AddOther(m, cat, db, t, j);
      }
    }
  }

  ghost predicate TablesBacked(cat: Catalog, ts: seq<Table>) {
    forall t :: t in ts ==> AllBacked(cat, t.constraints)
  }

  lemma TablesBackedFrom(cat: Catalog, ts: seq<Table>, i: nat)
    requires i < |ts|
    ensures TablesBacked(cat, ts[i..]) <==> AllBacked(cat, ts[i].constraints) && TablesBacked(cat, ts[i + 1..])
  {
    assert ts[i..] == [ts[i]] + ts[i + 1..];
  }

  /** The second pass over one more table. */
  lemma OtherNext(m: Meaning, cat: Catalog, db: Database, i: nat) returns (db': Database)
    requires Consistent(m, cat) && i < |cat.tables| && TablesAt(db, cat.tables, i, Constrained, Keyed)
    ensures TablesAt(db', cat.tables, i + 1, Constrained, Keyed) && db'.sequences == db.sequences
    ensures Run(m, db, ConstraintSteps(cat.tables[i..], false))
         == if AllBacked(cat, cat.tables[i].constraints) then Run(m, db', ConstraintSteps(cat.tables[i + 1..], false)) else None
  {
    hide AllBacked, Run;
    var ts, t := cat.tables, cat.tables[i];
    assert t in ts && ts[i..][1..] == ts[i + 1..] && ts[i..][0] == t;
    KeysAreAt(db, ts, i);
    AddOthers(m, cat, db, t, 0);
    assert t.constraints[0..] == t.constraints;
    db' := With(db, t.name, At(t, Constrained));
    TableReached(db, ts, i, Constrained, Keyed, db');
    assert ConstraintSteps(ts[i..], false) == ConstraintStepsOf(t.name, t.constraints, false) + ConstraintSteps(ts[i + 1..], false);
    RunConcat(m, db, ConstraintStepsOf(t.name, t.constraints, false), ConstraintSteps(ts[i + 1..], false));
  }

  lemma {:induction false} OtherPass(m: Meaning, cat: Catalog, db: Database, i: nat)
    requires Consistent(m, cat) && i <= |cat.tables|
    requires TablesAt(db, cat.tables, i, Constrained, Keyed)
    ensures var r := Run(m, db, ConstraintSteps(cat.tables[i..], false));
            if TablesBacked(cat, cat.tables[i..]) then
              r.Some? && TablesAt(r.value, cat.tables, |cat.tables|, Constrained, Keyed) && r.value.sequences == db.sequences
            else r.None?
    decreases |cat.tables| - i
  {
    if i == |cat.tables| {
      assert ConstraintSteps(cat.tables[i..], false) == [];
    } else {
      var db' := OtherNext(m, cat, db, i);
      TablesBackedFrom(cat, cat.tables, i);
      hide Run, TablesAt, TablesBacked, AllBacked, Consistent, ConstraintSteps;
      OtherPass(m, cat, db', i + 1);
    }
  }

  lemma {:induction false} AddIndexes(m: Meaning, cat: Catalog, db: Database, t: Table, j: nat)
    requires ConsistentTable(m, cat, t) && j <= |t.indexes| && t.name in db.tables
    requires db.tables[t.name] == At(t, Constrained).(indexes := t.indexes[..j])
    ensures Run(m, db, IndexStepsOf(t.name, t.indexes[j..])) == Some(With(db, t.name, FinalTable(t)))
    decreases |t.indexes| - j
  {
    if j == |t.indexes| {
      assert t.indexes[..j] == t.indexes;
      assert With(db, t.name, FinalTable(t)) == db;
    } else {
      var x := t.indexes[j];
      assert x in t.indexes && t.indexes[j..][1..] == t.indexes[j + 1..] && t.indexes[..j + 1] == t.indexes[..j] + [x];
      assert IndexStepsOf(t.name, t.indexes[j..]) == [CreateIndex(t.name, x)] + IndexStepsOf(t.name, t.indexes[j + 1..]);
      var db' := With(db, t.name, At(t, Constrained).(indexes := t.indexes[..j + 1]));
      assert ExecStep(m, db, CreateIndex(t.name, x)) == Some(db');
      AddIndexes(m, cat, db', t, j + 1);
      WithTwice(db, t.name, db'.tables[t.name], FinalTable(t));
    }
  }

  /** Indexing one more table. */
  lemma IndexOne(m: Meaning, cat: Catalog, db: Database, i: nat) returns (db': Database)
    requires Consistent(m, cat) && i < |cat.tables| && TablesAt(db, cat.tables, i, Indexed, Constrained)
    ensures TablesAt(db', cat.tables, i + 1, Indexed, Constrained) && db'.sequences == db.sequences
    ensures Run(m, db, IndexSteps(cat.tables[i..])) == Run(m, db', IndexSteps(cat.tables[i + 1..]))
  {
    hide Run;
    var ts, t := cat.tables, cat.tables[i];
    assert t in ts && ts[i..][1..] == ts[i + 1..];
    assert t.indexes[..0] == [] && t.indexes[0..] == t.indexes;
    AddIndexes(m, cat, db, t, 0);
    db' := With(db, t.name, FinalTable(t));
    TableReached(db, ts, i, Indexed, Constrained, db');
    RunConcat(m, db, IndexStepsOf(t.name, t.indexes), IndexSteps(ts[i + 1..]));
  }

  lemma {:induction false} IndexPass(m: Meaning, cat: Catalog, db: Database, i: nat)
    requires Consistent(m, cat) && i <= |cat.tables|
    requires TablesAt(db, cat.tables, i, Indexed, Constrained)
    ensures var r := Run(m, db, IndexSteps(cat.tables[i..]));
            r.Some? && TablesAt(r.value, cat.tables, |cat.tables|, Indexed, Constrained) && r.value.sequences == db.sequences
    decreases |cat.tables| - i
  {
    if i == |cat.tables| {
    } else {
      var db' := IndexOne(m, cat, db, i);
      IndexPass(m, cat, db', i + 1);
    }
  }

  // -------------------------------------------------------------------- the whole plan

  lemma {:induction false} LayoutRuns(m: Meaning, db: Database, steps: seq<Step>)
    requires forall s :: s in steps ==> s.Banner? || s.Gap? || s.SetEncoding?
    ensures Run(m, db, steps) == Some(db)
  {
    if steps == [] {
    } else {
      assert steps[0] in steps;
      LayoutRuns(m, db, steps[1..]);
    }
  }

  /** After the header the schema is there. */
  lemma HeaderRuns(m: Meaning, cat: Catalog)
    ensures Run(m, EmptyDatabase(cat.schema), Header(cat)) == Some(Database(true, map[], map[]))
  {
    var front, db := [Banner, SetEncoding, Gap], EmptyDatabase(cat.schema);
    LayoutRuns(m, db, front);
    if cat.schema == "public" {
      assert Header(cat) == front;
    } else {
      RunConcat(m, db, front, [CreateSchema, Gap]);
      assert [CreateSchema, Gap][1..] == [Gap];
      LayoutRuns(m, Database(true, map[], map[]), [Gap]);
    }
  }

  /** Everything up to and including the key pass always goes through. */
  lemma UpToKeys(m: Meaning, cat: Catalog, rest: seq<Step>) returns (db: Database)
    requires Consistent(m, cat)
    ensures SequencesAt(db, cat.sequences, 0) && TablesAt(db, cat.tables, |cat.tables|, Keyed, Loaded)
    ensures Run(m, EmptyDatabase(cat.schema),
                Header(cat) + (SequenceSteps(cat.sequences) + ((if cat.sequences != [] then [Gap] else [])
                + (TableSteps(cat.tables) + (LoadSteps(cat.tables) + (ConstraintSteps(cat.tables, true) + rest))))))
         == Run(m, db, rest)
  {
    var ss, ts, gap := cat.sequences, cat.tables, if cat.sequences != [] then [Gap] else [];
    var keys := ConstraintSteps(ts, true) + rest;
    var loads := LoadSteps(ts) + keys;
    var tables := TableSteps(ts) + loads;
    var sequences := SequenceSteps(ss) + (gap + tables);
    HeaderRuns(m, cat);
    RunConcat(m, EmptyDatabase(cat.schema), Header(cat), sequences);
    var db0 := Database(true, map[], map[]);
    assert ss[0..] == ss && ts[0..] == ts;
    assert ss[..0] == [];
    CreateSequences(m, db0, ss, 0);
    RunConcat(m, db0, SequenceSteps(ss), gap + tables);
    var db1 := Run(m, db0, SequenceSteps(ss)).value;
    LayoutRuns(m, db1, gap);
    RunConcat(m, db1, gap, tables);
    forall t | t in ts ensures Named(t.constraints) && DefaultsKnown(db1, t.columns) {
      assert ConsistentTable(m, cat, t);
    }
    assert ts[..0] == [];
    CreateTables(m, db1, ts, 0);
    RunConcat(m, db1, TableSteps(ts), loads);
    var db2 := Run(m, db1, TableSteps(ts)).value;
    LoadTables(m, db2, ts, 0);
    RunConcat(m, db2, LoadSteps(ts), keys);
    var db3 := Run(m, db2, LoadSteps(ts)).value;
    NextStage(db3, ts, Loaded, Bare, Keyed);
    KeyPass(m, cat, db3, 0);
    RunConcat(m, db3, ConstraintSteps(ts, true), rest);
    db := Run(m, db3, ConstraintSteps(ts, true)).value;
  }

  lemma ImageReached(cat: Catalog, db: Database)
    requires forall t :: t in cat.tables ==> Named(t.constraints)
    requires SequencesAt(db, cat.sequences, |cat.sequences|)
    requires TablesAt(db, cat.tables, |cat.tables|, Indexed, Constrained)
    ensures IsImage(db, cat)
  {
    forall t | t in cat.tables ensures db.tables[t.name] == FinalTable(t) {
      var k :| 0 <= k < |cat.tables| && cat.tables[k] == t;
    }
    forall s | s in cat.sequences ensures db.sequences[s.name] == Positioned(s) {
      var k :| 0 <= k < |cat.sequences| && cat.sequences[k] == s;
    }
  }

  /** All is in place but the values of the sequences. */
  ghost predicate AllButValues(db: Database, cat: Catalog)
    requires forall t :: t in cat.tables ==> Named(t.constraints)
  {
    SequencesAt(db, cat.sequences, 0) && TablesAt(db, cat.tables, |cat.tables|, Indexed, Constrained)
  }

  lemma ConsistentNames(m: Meaning, cat: Catalog)
    requires Consistent(m, cat)
    ensures forall t :: t in cat.tables ==> Named(t.constraints) && RowsFit(t)
  {
    assert forall t :: t in cat.tables ==> ConsistentTable(m, cat, t);
  }

  lemma FromOthers(m: Meaning, cat: Catalog, db: Database)
    requires Consistent(m, cat) && SequencesAt(db, cat.sequences, 0) && TablesAt(db, cat.tables, 0, Constrained, Keyed)
    ensures forall t :: t in cat.tables ==> Named(t.constraints)
    ensures var r := Run(m, db, ConstraintSteps(cat.tables, false) + IndexSteps(cat.tables));
            if TablesBacked(cat, cat.tables) then r.Some? && AllButValues(r.value, cat) else r.None?
  {
    var ts := cat.tables;
    ConsistentNames(m, cat);
    assert ts[0..] == ts;
    OtherPass(m, cat, db, 0);
    RunConcat(m, db, ConstraintSteps(ts, false), IndexSteps(ts));
    if TablesBacked(cat, ts) {
      var db1 := Run(m, db, ConstraintSteps(ts, false)).value;
      hide Run;
      NextStage(db1, ts, Constrained, Keyed, Indexed);
      IndexPass(m, cat, db1, 0);
    }
  }

  /** All of a plan but the sequence values runs if and only if every foreign key refers to
      columns that a primary-key or unique constraint covers. */
  lemma FrontRuns(m: Meaning, cat: Catalog)
    requires Consistent(m, cat)
    ensures forall t :: t in cat.tables ==> Named(t.constraints)
    ensures var r := Run(m, EmptyDatabase(cat.schema), Front(cat));
            if ConstraintBacked(cat) then r.Some? && AllButValues(r.value, cat) else r.None?
  {
    var db := UpToKeys(m, cat, ConstraintSteps(cat.tables, false) + IndexSteps(cat.tables));
    NextStage(db, cat.tables, Keyed, Loaded, Constrained);
    FromOthers(m, cat, db);
    assert ConstraintBacked(cat) <==> TablesBacked(cat, cat.tables);
  }

  lemma SameTables(db: Database, db': Database, cat: Catalog)
    requires (forall t :: t in cat.tables ==> Named(t.constraints)) && TablesAt(db, cat.tables, |cat.tables|, Indexed, Constrained)
    requires db'.tables == db.tables
    ensures TablesAt(db', cat.tables, |cat.tables|, Indexed, Constrained)
  {}

  /** The values of the sequences complete what a plan rebuilds. */
  lemma ValuesReached(m: Meaning, cat: Catalog, db: Database)
    requires Consistent(m, cat) && (forall t :: t in cat.tables ==> Named(t.constraints)) && AllButValues(db, cat)
    ensures var r := Run(m, db, SetvalSteps(cat.sequences)); r.Some? && IsImage(r.value, cat)
  {
    var ss := cat.sequences;
    hide Run, IsImage, TablesAt;
    assert ss[0..] == ss;
    SetValues(m, db, ss, 0);
    SameTables(db, Run(m, db, SetvalSteps(ss)).value, cat);
    ImageReached(cat, Run(m, db, SetvalSteps(ss)).value);
  }

  /** Running a plan into an empty database rebuilds exactly what its catalog lists, whatever
      the order of the tables and however their foreign keys cross, if every foreign key
      refers to columns that a primary-key or unique constraint covers; if one does not, a
      statement is rejected. */
  lemma PlanRuns(m: Meaning, cat: Catalog)
    requires Consistent(m, cat)
    ensures forall t :: t in cat.tables ==> Named(t.constraints)
    ensures var r := Run(m, EmptyDatabase(cat.schema), Plan(cat));
            if ConstraintBacked(cat) then r.Some? && IsImage(r.value, cat) else r.None?
  {
    FrontRuns(m, cat);
    PlanParts(cat);
    RunConcat(m, EmptyDatabase(cat.schema), Front(cat), SetvalSteps(cat.sequences));
    if ConstraintBacked(cat) {
      var db := Run(m, EmptyDatabase(cat.schema), Front(cat)).value;
      hide Run, IsImage, ConstraintBacked, Consistent, Plan, Front, AllButValues;
      ValuesReached(m, cat, db);
    }
  }

  // ---------------------------------------------------------- each constraint once only

  function Added(steps: seq<Step>): seq<(string, Constraint)> {
    if steps == [] then []
    else (if steps[0].AddConstraint? then [(steps[0].tableName, steps[0].constraint)] else []) + Added(steps[1..])
  }

  function OfTable(name: string, cs: seq<Constraint>): seq<(string, Constraint)> {
    if cs == [] then [] else [(name, cs[0])] + OfTable(name, cs[1..])
  }

  function AllConstraints(ts: seq<Table>): seq<(string, Constraint)> {
    if ts == [] then [] else OfTable(ts[0].name, ts[0].constraints) + AllConstraints(ts[1..])
  }

  lemma {:induction false} AddedConcat(a: seq<Step>, b: seq<Step>)
    ensures Added(a + b) == Added(a) + Added(b)
  {
    if a == [] {
      assert a + b == b;
    } else {
      assert (a + b)[0] == a[0] && (a + b)[1..] == a[1..] + b;
      AddedConcat(a[1..], b);
    }
  }

  lemma {:induction false} AddedOf(name: string, cs: seq<Constraint>)
    ensures multiset(Added(ConstraintStepsOf(name, cs, true))) + multiset(Added(ConstraintStepsOf(name, cs, false)))
         == multiset(OfTable(name, cs))
  {
    if cs == [] {
    } else {
      AddedOf(name, cs[1..]);
      forall keys | true
        ensures Added(ConstraintStepsOf(name, cs, keys))
             == (if Wanted(keys, Contype(cs[0].rule)) then [(name, cs[0])] else []) + Added(ConstraintStepsOf(name, cs[1..], keys))
      {
        AddedConcat(if Wanted(keys, Contype(cs[0].rule)) then [AddConstraint(name, cs[0])] else [], ConstraintStepsOf(name, cs[1..], keys));
      }
    }
  }

  /** Together the two passes add each constraint of each table exactly once. */
  lemma {:induction false} PassesAddEachOnce(ts: seq<Table>)
    ensures multiset(Added(ConstraintSteps(ts, true))) + multiset(Added(ConstraintSteps(ts, false))) == multiset(AllConstraints(ts))
  {
    if ts == [] {
    } else {
      PassesAddEachOnce(ts[1..]);
      AddedOf(ts[0].name, ts[0].constraints);
      AddedConcat(ConstraintStepsOf(ts[0].name, ts[0].constraints, true), ConstraintSteps(ts[1..], true));
      AddedConcat(ConstraintStepsOf(ts[0].name, ts[0].constraints, false), ConstraintSteps(ts[1..], false));
    }
  }
}
