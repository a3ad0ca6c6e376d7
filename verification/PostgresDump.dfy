/** The logical dump (internal/service/postgres_dump.go): what it reads from the catalogs,
    the order in which it writes, and the text of each statement. */
module PostgresDump {
  import opened Text
  import opened Quoting
  import opened PostgresScript
  import opened CopyFormat

  // --------------------------------------------------------------------- the catalog

  /** A row of pg_sequences. */
  datatype Sequence = Sequence(name: string, dataType: string, startValue: int, minValue: int,
                               maxValue: int, incrementBy: int, cycle: bool, lastValue: Option<int>)

  /** A column default: its expression, and the sequences of the schema it draws from. */
  datatype Default = Default(expr: string, uses: seq<string>)

  datatype Column = Column(name: string, typ: string, notNull: bool, default: Option<Default>)

  /** What a constraint means; columns are positions in the table. `Opaque` covers checks,
      exclusions and whatever else depends on the rows of the one table only. */
  datatype Rule =
    | PrimaryKey(cols: seq<nat>)
    | UniqueKey(cols: seq<nat>)
    | ForeignKey(cols: seq<nat>, refTable: string, refCols: seq<nat>)
    | Opaque(contype: string)

  /** `contype` of pg_constraint. */
  function Contype(rule: Rule): string {
    match rule
    case PrimaryKey(_) => "p"
    case UniqueKey(_) => "u"
    case ForeignKey(_, _, _) => "f"
    case Opaque(contype) => contype
  }

  /** A constraint; a deferrable key is no target for foreign keys, and what is NOT VALID has
      not been checked against the rows there are. */
  datatype Constraint = Constraint(name: string, def: string, rule: Rule, deferrable: bool, validated: bool)

  /** An index; `unique` holds the columns of one that keeps them unique in all rows at once. */
  datatype Index = Index(def: string, unique: Option<seq<nat>>)

  datatype Table = Table(name: string, columns: seq<Column>, rows: seq<Row>,
                         constraints: seq<Constraint>, indexes: seq<Index>)

  datatype Catalog = Catalog(schema: string, sequences: seq<Sequence>, tables: seq<Table>)

  // ------------------------------------------------ what the catalog is read from

  /** Where a sequence stands: at the value handed out last, or, not called yet, at the value
      to hand out first. */
  datatype Position = Position(value: int, called: bool)

  /** A sequence itself. */
  datatype PgSequence = PgSequence(name: string, dataType: string, startValue: int, minValue: int,
                                   maxValue: int, incrementBy: int, cycle: bool, position: Position)

  /** A row of pg_constraint: a constraint and its `conindid`, the index it stands on. For a
      key or an exclusion that is its own index, for a foreign key the unique index of the
      referenced table that it was bound to when it was made. */
  datatype PgConstraint = PgConstraint(constraint: Constraint, conindid: Option<nat>)

  /** A row of pg_index. */
  datatype PgIndex = PgIndex(oid: nat, index: Index)

  /** A table with all its indexes, those of its constraints included. */
  datatype PgTable = PgTable(name: string, columns: seq<Column>, rows: seq<Row>,
                             constraints: seq<PgConstraint>, indexes: seq<PgIndex>)

  /** A schema; `outside` holds the indexes that foreign keys of other schemas stand on, and
      `hidden` the names of the sequences that the role may not read. */
  datatype Source = Source(schema: string, sequences: seq<PgSequence>, tables: seq<PgTable>, outside: set<nat>, hidden: set<string>)

  /** The row of a sequence: pg_sequences has no last value for one that has not been called or
      that the role may not read. */
  function ReadSequence(s: PgSequence, hidden: set<string>): Sequence {
    Sequence(s.name, s.dataType, s.startValue, s.minValue, s.maxValue, s.incrementBy, s.cycle,
             if s.position.called && s.name !in hidden then Some(s.position.value) else None)
  }

  function ConstraintsOf(t: PgTable): seq<Constraint> {
    seq(|t.constraints|, i requires 0 <= i < |t.constraints| => t.constraints[i].constraint)
  }

  /** The indexes that foreign keys stand on. */
  function BoundIndexes(src: Source): set<nat> {
    src.outside
    + set t, c | t in src.tables && c in t.constraints && c.constraint.rule.ForeignKey? && c.conindid.Some? :: c.conindid.value
  }

  /** The indexes that were made for a constraint. */
  function OwnedIndexes(src: Source): set<nat> {
    set t, c | t in src.tables && c in t.constraints && !c.constraint.rule.ForeignKey? && c.conindid.Some? :: c.conindid.value
  }

  /** The indexes outside a set, in order. */
  function Without(indexes: seq<PgIndex>, oids: set<nat>): seq<Index> {
    if indexes == [] then []
    else (if indexes[0].oid in oids then [] else [indexes[0].index]) + Without(indexes[1..], oids)
  }

  function TableWithout(t: PgTable, oids: set<nat>): Table {
    Table(t.name, t.columns, t.rows, ConstraintsOf(t), Without(t.indexes, oids))
  }

  function ReadSequences(src: Source): seq<Sequence> {
    seq(|src.sequences|, i requires 0 <= i < |src.sequences| => ReadSequence(src.sequences[i], src.hidden))
  }

  function CatalogWithout(src: Source, oids: set<nat>): Catalog {
    Catalog(src.schema, ReadSequences(src), seq(|src.tables|, i requires 0 <= i < |src.tables| => TableWithout(src.tables[i], oids)))
  }

  /** What the catalog queries return. `tableIndexes` leaves out every index that some
      constraint stands on, of whatever type the constraint is. */
  function ReadCatalog(src: Source): Catalog {
    CatalogWithout(src, OwnedIndexes(src) + BoundIndexes(src))
  }

  // ------------------------------------------------------------------ statement texts

  function SequenceOptions(s: Sequence): string {
    " INCREMENT BY " + Decimal(s.incrementBy) + " MINVALUE " + Decimal(s.minValue)
    + " MAXVALUE " + Decimal(s.maxValue) + " START WITH " + Decimal(s.startValue)
    + " " + (if s.cycle then "CYCLE" else "NO CYCLE")
  }

  function SequenceSQL(schema: string, s: Sequence): string {
    "CREATE SEQUENCE IF NOT EXISTS " + Qualified(schema, s.name) + " AS " + s.dataType + SequenceOptions(s) + ";"
  }

  function ColumnSQL(c: Column): string {
    "    " + QuoteIdent(c.name) + " " + c.typ + (if c.notNull then " NOT NULL" else "")
    + (if c.default.Some? then " DEFAULT " + c.default.value.expr else "")
  }

  function ColumnLines(cols: seq<Column>): string {
    if cols == [] then ""
    else ColumnSQL(cols[0]) + (if |cols| > 1 then "," else "") + "\n" + ColumnLines(cols[1..])
  }

  function TableSQL(schema: string, t: Table): string {
    "CREATE TABLE " + Qualified(schema, t.name) + " (\n" + ColumnLines(t.columns) + ");"
  }

  function ConstraintSQL(schema: string, table: string, c: Constraint): string {
    "ALTER TABLE " + Qualified(schema, table) + " ADD CONSTRAINT " + QuoteIdent(c.name) + " " + c.def + ";"
  }

  function SetvalSQL(schema: string, name: string, value: int): string {
    "SELECT pg_catalog.setval('" + Qualified(schema, name) + "', " + Decimal(value) + ", true);"
  }

  // ------------------------------------------------------------------------- the plan

  /** One thing a dump writes: a statement, a COPY block, or layout. */
  datatype Step =
    | Banner
    | Gap
    | SetEncoding
    | CreateSchema
    | CreateSequence(sequence: Sequence)
    | CreateTable(table: Table)
    | LoadTable(table: Table)
    | AddConstraint(tableName: string, constraint: Constraint)
    | CreateIndex(tableName: string, index: Index)
    | SetValue(name: string, value: int)

  function StepPiece(schema: string, step: Step): Piece {
    match step
    case Banner => Comment("-- easy-infra postgres backup")
    case Gap => Blank
    case SetEncoding => Statement("SET client_encoding = 'UTF8';")
    case CreateSchema => Statement("CREATE SCHEMA IF NOT EXISTS " + QuoteIdent(schema) + ";")
    case CreateSequence(s) => Statement(SequenceSQL(schema, s))
    case CreateTable(t) => Statement(TableSQL(schema, t))
    case LoadTable(t) => CopyBlock(Qualified(schema, t.name), RowsText(t.rows))
    case AddConstraint(table, c) => Statement(ConstraintSQL(schema, table, c))
    case CreateIndex(_, index) => Statement(index.def + ";")
    case SetValue(name, value) => Statement(SetvalSQL(schema, name, value))
  }

  function Pieces(schema: string, steps: seq<Step>): seq<Piece> {
    seq(|steps|, i requires 0 <= i < |steps| => StepPiece(schema, steps[i]))
  }

  function SequenceSteps(seqs: seq<Sequence>): seq<Step> {
    if seqs == [] then [] else [CreateSequence(seqs[0])] + SequenceSteps(seqs[1..])
  }

  function TableSteps(tables: seq<Table>): seq<Step> {
    if tables == [] then [] else [CreateTable(tables[0]), Gap] + TableSteps(tables[1..])
  }

  function LoadSteps(tables: seq<Table>): seq<Step> {
    if tables == [] then [] else [LoadTable(tables[0]), Gap] + LoadSteps(tables[1..])
  }

  /** Which constraints a pass wants: the first pass takes the keys, the second the rest. */
  predicate Wanted(keys: bool, contype: string) {
    keys <==> (contype == "p" || contype == "u")
  }

  function ConstraintStepsOf(table: string, cons: seq<Constraint>, keys: bool): seq<Step> {
    if cons == [] then []
    else (if Wanted(keys, Contype(cons[0].rule)) then [AddConstraint(table, cons[0])] else [])
         + ConstraintStepsOf(table, cons[1..], keys)
  }

  function ConstraintSteps(tables: seq<Table>, keys: bool): seq<Step> {
    if tables == [] then []
    else ConstraintStepsOf(tables[0].name, tables[0].constraints, keys) + ConstraintSteps(tables[1..], keys)
  }

  function IndexStepsOf(table: string, indexes: seq<Index>): seq<Step> {
    if indexes == [] then [] else [CreateIndex(table, indexes[0])] + IndexStepsOf(table, indexes[1..])
  }

  function IndexSteps(tables: seq<Table>): seq<Step> {
    if tables == [] then [] else IndexStepsOf(tables[0].name, tables[0].indexes) + IndexSteps(tables[1..])
  }

  function SetvalSteps(seqs: seq<Sequence>): seq<Step> {
    if seqs == [] then []
    else (if seqs[0].lastValue.Some? then [SetValue(seqs[0].name, seqs[0].lastValue.value)] else [])
         + SetvalSteps(seqs[1..])
  }

  function Header(cat: Catalog): seq<Step> {
    [Banner, SetEncoding, Gap] + if cat.schema != "public" then [CreateSchema, Gap] else []
  }

  function Plan(cat: Catalog): seq<Step> {
    Header(cat)
    + (SequenceSteps(cat.sequences) + ((if cat.sequences != [] then [Gap] else [])
    + (TableSteps(cat.tables)
    + (LoadSteps(cat.tables)
    + (ConstraintSteps(cat.tables, true)
    + (ConstraintSteps(cat.tables, false)
    + (IndexSteps(cat.tables)
    + SetvalSteps(cat.sequences))))))))
  }

  /** All of a plan but the sequence values, with which it ends. */
  function Front(cat: Catalog): seq<Step> {
    Header(cat)
    + (SequenceSteps(cat.sequences) + ((if cat.sequences != [] then [Gap] else [])
    + (TableSteps(cat.tables)
    + (LoadSteps(cat.tables)
    + (ConstraintSteps(cat.tables, true)
    + (ConstraintSteps(cat.tables, false)
    + IndexSteps(cat.tables)))))))
  }

  lemma PlanIs(cat: Catalog, header: seq<Step>, sequences: seq<Step>, gap: seq<Step>, tables: seq<Step>, loads: seq<Step>,
               keys: seq<Step>, others: seq<Step>, indexes: seq<Step>, setvals: seq<Step>)
    requires header == Header(cat) && sequences == SequenceSteps(cat.sequences) && gap == if cat.sequences != [] then [Gap] else []
    requires tables == TableSteps(cat.tables) && loads == LoadSteps(cat.tables)
    requires keys == ConstraintSteps(cat.tables, true) && others == ConstraintSteps(cat.tables, false)
    requires indexes == IndexSteps(cat.tables) && setvals == SetvalSteps(cat.sequences)
    ensures Plan(cat) == header + (sequences + (gap + (tables + (loads + (keys + (others + (indexes + setvals)))))))
    ensures Front(cat) == header + (sequences + (gap + (tables + (loads + (keys + (others + indexes))))))
  {}

  lemma PlanParts(cat: Catalog)
    ensures Plan(cat) == Front(cat) + SetvalSteps(cat.sequences)
  {
    var setvals := SetvalSteps(cat.sequences);
    var others, indexes := ConstraintSteps(cat.tables, false), IndexSteps(cat.tables);
    var keys, loads, tables := ConstraintSteps(cat.tables, true), LoadSteps(cat.tables), TableSteps(cat.tables);
    var sequences, gap, header := SequenceSteps(cat.sequences), if cat.sequences != [] then [Gap] else [], Header(cat);
    hide *;
    Regroup(others, indexes, setvals);
    Regroup(keys, others + indexes, setvals);
    Regroup(loads, keys + (others + indexes), setvals);
    Regroup(tables, loads + (keys + (others + indexes)), setvals);
    Regroup(gap, tables + (loads + (keys + (others + indexes))), setvals);
    Regroup(sequences, gap + (tables + (loads + (keys + (others + indexes)))), setvals);
    Regroup(header, sequences + (gap + (tables + (loads + (keys + (others + indexes))))), setvals);
    PlanIs(cat, header, sequences, gap, tables, loads, keys, others, indexes, setvals);
  }

  function DumpText(cat: Catalog): string {
    ScriptText(Pieces(cat.schema, Plan(cat)))
  }

  /** The text of one step. */
  function StepText(schema: string, step: Step): string {
    PieceText(StepPiece(schema, step))
  }

  lemma {:induction false} ScriptTextConcat(a: seq<Piece>, b: seq<Piece>)
    ensures ScriptText(a + b) == ScriptText(a) + ScriptText(b)
    ensures ScriptActions(a + b) == ScriptActions(a) + ScriptActions(b)
  {
    hide PieceText, PieceActions;
    if a == [] {
      assert a + b == b;
      assert "" + ScriptText(b) == ScriptText(b) && [] + ScriptActions(b) == ScriptActions(b);
    } else {
      assert (a + b)[0] == a[0] && (a + b)[1..] == a[1..] + b;
      ScriptTextConcat(a[1..], b);
      Regroup(PieceText(a[0]), ScriptText(a[1..]), ScriptText(b));
      Regroup(PieceActions(a[0]), ScriptActions(a[1..]), ScriptActions(b));
    }
  }

  lemma StepsTextAppend(schema: string, steps: seq<Step>, step: Step)
    ensures ScriptText(Pieces(schema, steps + [step])) == ScriptText(Pieces(schema, steps)) + StepText(schema, step)
  {
    assert Pieces(schema, steps + [step]) == Pieces(schema, steps) + [StepPiece(schema, step)];
    ScriptTextConcat(Pieces(schema, steps), [StepPiece(schema, step)]);
    assert ScriptText([StepPiece(schema, step)]) == StepText(schema, step) + "";
  }

  // ------------------------------------------------------------------------ the writer

  /** As much of `s` as fits. */
  function Fit(s: string, room: nat): (r: string)
    ensures |r| <= room && r <= s
    ensures |s| <= room ==> r == s
  {
    if |s| <= room then s else s[..room]
  }

  /** A destination with room for so many characters; a write that does not fit fills the
      room and fails. */
  class Sink {
    var out: string
    var room: nat

    constructor (room: nat)
      ensures out == "" && this.room == room
    {
      out := "";
      this.room := room;
    }

    method Write(s: string) returns (ok: bool)
      modifies this
      ensures ok <==> |s| <= old(room)
      ensures out == old(out) + Fit(s, old(room))
      ensures room == old(room) - |Fit(s, old(room))|
    {
      ok := |s| <= room;
      var part := if ok then s else s[..room];
      out := out + part;
      room := room - |part|;
    }
  }

  lemma FitConcat(a: string, b: string, room: nat)
    ensures Fit(a + b, room) == Fit(a, room) + Fit(b, room - |Fit(a, room)|)
  {
    if |a| <= room && |a + b| > room {
      assert (a + b)[..room] == a + b[..room - |a|];
    }
  }

  /** Writes to its sink until a write fails, and remembers that it did. `text` is what it
      was asked to write. */
  class SqlWriter {
    const w: Sink
    var failed: bool
    ghost const before: string
    ghost const room: nat
    ghost var text: string

    constructor (w: Sink)
      ensures this.w == w && text == "" && before == w.out && room == w.room && Valid() && !failed
    {
      this.w := w;
      failed := false;
      before := w.out;
      room := w.room;
      text := "";
    }

    /** The sink holds as much of `t` as fits. */
    ghost predicate Holds(t: string)
      reads w
    {
      w.out == before + Fit(t, room) && w.room == room - |Fit(t, room)|
    }

    ghost predicate Valid()
      reads this, w
    {
      Holds(text) && (failed <==> |text| > room)
    }

    method Printf(s: string)
      requires Valid()
      modifies this, w
      ensures Valid() && text == old(text) + s
    {
      FitConcat(text, s, room);
      text := text + s;
      if !failed {
        var ok := w.Write(s);
        failed := !ok;
      }
    }
  }

  lemma ColumnText(c: Column, col: string)
    requires col == (if c.default.Some? then
                       ("    " + QuoteIdent(c.name) + " " + c.typ + if c.notNull then " NOT NULL" else "")
                       + " DEFAULT " + c.default.value.expr
                     else "    " + QuoteIdent(c.name) + " " + c.typ + if c.notNull then " NOT NULL" else "")
    ensures col == ColumnSQL(c)
  {}

  /** The columns written and still to be written make up the whole list. */
  ghost predicate ColumnsDue(head: string, cols: seq<Column>, sql: string, i: nat)
    requires i <= |cols|
  {
    sql + ColumnLines(cols[i..]) == head + ColumnLines(cols)
  }

  lemma NextColumn(head: string, cols: seq<Column>, before: string, i: nat, after: string)
    requires i < |cols| && ColumnsDue(head, cols, before, i)
    requires after == before + ColumnSQL(cols[i]) + (if i < |cols| - 1 then "," else "") + "\n"
    ensures ColumnsDue(head, cols, after, i + 1)
  {
    hide ColumnSQL;
    assert cols[i..][1..] == cols[i + 1..];
    Regroup5(before, ColumnSQL(cols[i]), if i < |cols| - 1 then "," else "", "\n", ColumnLines(cols[i + 1..]));
  }

  lemma NoMoreColumns(schema: string, t: Table, sql: string)
    requires ColumnsDue("CREATE TABLE " + Qualified(schema, t.name) + " (\n", t.columns, sql, |t.columns|)
    ensures sql + ");" == TableSQL(schema, t)
  {
    hide Qualified;
    assert sql + "" == sql;
  }

  lemma ColumnWritten(before: string, col: string, more: bool, after: string)
    requires after == (if more then before + col + "," else before + col) + "\n"
    ensures after == before + col + (if more then "," else "") + "\n"
  {
    assert before + col + "" == before + col;
  }

  /** The columns of a table as lines of its CREATE TABLE statement. */
  method TableDDL(schema: string, t: Table) returns (sql: string)
    ensures sql == TableSQL(schema, t)
  {
    hide ColumnSQL, ColumnLines, QuoteIdent, TableSQL;
    var cols: seq<string> := [];
    for i := 0 to |t.columns|
      invariant |cols| == i && forall k :: 0 <= k < i ==> cols[k] == ColumnSQL(t.columns[k])
    {
      var c := t.columns[i];
      var col := "    " + QuoteIdent(c.name) + " " + c.typ;
      if c.notNull {
        col := col + " NOT NULL";
      }
      if c.default.Some? {
        col := col + " DEFAULT " + c.default.value.expr;
      }
      assert col == ColumnSQL(c) by { ColumnText(c, col); }
      cols := cols + [col];
    }
    sql := "CREATE TABLE " + Qualified(schema, t.name) + " (\n";
    ghost var head := sql;
    hide Qualified;
    assert ColumnsDue(head, t.columns, sql, 0) by { assert t.columns[0..] == t.columns; }
    hide ColumnsDue;
    for i := 0 to |cols|
      invariant ColumnsDue(head, t.columns, sql, i)
    {
      ghost var before := sql;
      sql := sql + cols[i];
      if i < |cols| - 1 {
        sql := sql + ",";
      }
      sql := sql + "\n";
      ColumnWritten(before, cols[i], i < |cols| - 1, sql);
      NextColumn(head, t.columns, before, i, sql);
    }
    NoMoreColumns(schema, t, sql);
    sql := sql + ");";
  }

  /** The schema a dump is for and the steps it is to take. */
  datatype Dumping = Dumping(schema: string, plan: seq<Step>)

  /** The state of a dump under way: the steps written so far and the steps still due. */
  ghost predicate Underway(d: Dumping, out: SqlWriter, done: seq<Step>, due: seq<Step>)
    reads out, out.w
  {
    out.Valid() && done + due == d.plan && out.text == ScriptText(Pieces(d.schema, done))
  }

  /** Prints the next step due. */
  method Emit(ghost d: Dumping, out: SqlWriter, s: string, ghost step: Step, ghost done: seq<Step>, ghost due: seq<Step>)
    returns (ghost done': seq<Step>)
    requires Underway(d, out, done, [step] + due) && s == StepText(d.schema, step)
    modifies out, out.w
    ensures done' == done + [step] && Underway(d, out, done', due)
  {
    out.Printf(s);
    StepsTextAppend(d.schema, done, step);
    Regroup(done, [step], due);
    done' := done + [step];
  }

  lemma NextSequence(seqs: seq<Sequence>, i: nat, due: seq<Step>)
    requires i < |seqs|
    ensures SequenceSteps(seqs[i..]) + due == [CreateSequence(seqs[i])] + (SequenceSteps(seqs[i + 1..]) + due)
  {
    assert seqs[i..][1..] == seqs[i + 1..];
    Regroup([CreateSequence(seqs[i])], SequenceSteps(seqs[i + 1..]), due);
  }

  lemma NoMoreSequences(seqs: seq<Sequence>, due: seq<Step>)
    ensures SequenceSteps(seqs[|seqs|..]) + due == due
  {}

  method DumpSequences(cat: Catalog, ghost d: Dumping, out: SqlWriter, ghost done0: seq<Step>, ghost due: seq<Step>) returns (ghost done: seq<Step>)
    requires d.schema == cat.schema
    requires Underway(d, out, done0, SequenceSteps(cat.sequences) + due)
    modifies out, out.w
    ensures Underway(d, out, done, due)
  {
    hide Underway, SequenceSteps;
    done := done0;
    assert cat.sequences[0..] == cat.sequences;
    for i := 0 to |cat.sequences|
      invariant Underway(d, out, done, SequenceSteps(cat.sequences[i..]) + due)
    {
      var s := cat.sequences[i];
      NextSequence(cat.sequences, i, due);
      done := Emit(d, out, SequenceSQL(cat.schema, s) + "\n", CreateSequence(s), done, SequenceSteps(cat.sequences[i + 1..]) + due);
    }
    NoMoreSequences(cat.sequences, due);
  }

  lemma NextTable(tables: seq<Table>, i: nat, due: seq<Step>)
    requires i < |tables|
    ensures TableSteps(tables[i..]) + due == [CreateTable(tables[i])] + ([Gap] + (TableSteps(tables[i + 1..]) + due))
    ensures LoadSteps(tables[i..]) + due == [LoadTable(tables[i]), Gap] + (LoadSteps(tables[i + 1..]) + due)
  {
    assert tables[i..][1..] == tables[i + 1..];
    Regroup([CreateTable(tables[i]), Gap], TableSteps(tables[i + 1..]), due);
    Regroup([LoadTable(tables[i]), Gap], LoadSteps(tables[i + 1..]), due);
    assert [CreateTable(tables[i]), Gap] == [CreateTable(tables[i])] + [Gap];
    Regroup([CreateTable(tables[i])], [Gap], TableSteps(tables[i + 1..]) + due);
  }

  lemma NoMoreTables(tables: seq<Table>, keys: bool, due: seq<Step>)
    ensures TableSteps(tables[|tables|..]) + due == due
    ensures LoadSteps(tables[|tables|..]) + due == due
    ensures ConstraintSteps(tables[|tables|..], keys) + due == due
    ensures IndexSteps(tables[|tables|..]) + due == due
  {}

  method DumpTables(cat: Catalog, ghost d: Dumping, out: SqlWriter, ghost done0: seq<Step>, ghost due: seq<Step>) returns (ghost done: seq<Step>)
    requires d.schema == cat.schema
    requires Underway(d, out, done0, TableSteps(cat.tables) + due)
    modifies out, out.w
    ensures Underway(d, out, done, due)
  {
    hide Underway, TableSteps;
    done := done0;
    assert cat.tables[0..] == cat.tables;
    for i := 0 to |cat.tables|
      invariant Underway(d, out, done, TableSteps(cat.tables[i..]) + due)
    {
      var t := cat.tables[i];
      ghost var rest := TableSteps(cat.tables[i + 1..]) + due;
      NextTable(cat.tables, i, due);
      var ddl := TableDDL(cat.schema, t);
      done := Emit(d, out, ddl + "\n", CreateTable(t), done, [Gap] + rest);
      done := Emit(d, out, "\n", Gap, done, rest);
    }
    NoMoreTables(cat.tables, true, due);
  }

  /** Any text that a dump under way has been asked to write starts the whole dump. */
  lemma UnderwayPrefix(d: Dumping, done: seq<Step>, due: seq<Step>)
    requires done + due == d.plan
    ensures ScriptText(Pieces(d.schema, done)) <= ScriptText(Pieces(d.schema, d.plan))
  {
    assert Pieces(d.schema, done + due) == Pieces(d.schema, done) + Pieces(d.schema, due);
    ScriptTextConcat(Pieces(d.schema, done), Pieces(d.schema, due));
  }

  lemma FitOfPrefix(a: string, b: string, room: nat)
    requires a <= b && |a| > room
    ensures Fit(b, room) == Fit(a, room) && |b| > room
  {}

  /** The three parts in which a COPY block is written are the texts of its two steps. */
  lemma CopyParts(schema: string, t: Table)
    ensures "COPY " + Qualified(schema, t.name) + " FROM stdin;\n" + RowsText(t.rows) + "\\.\n\n"
         == StepText(schema, LoadTable(t)) + StepText(schema, Gap)
  {
    var q, rows := Qualified(schema, t.name), RowsText(t.rows);
    assert " FROM stdin" + ";\n" == " FROM stdin;\n" && "\\.\n" + "\n" == "\\.\n\n";
    assert CopySQL(q) + ";\n" == "COPY " + q + " FROM stdin;\n";
    Regroup(CopySQL(q) + ";\n" + rows, "\\.\n", "\n");
  }

  /** The text of a dump after one more COPY block. */
  lemma CopyBlockText(schema: string, done: seq<Step>, t: Table)
    ensures ScriptText(Pieces(schema, done + [LoadTable(t), Gap]))
         == ScriptText(Pieces(schema, done)) + ("COPY " + Qualified(schema, t.name) + " FROM stdin;\n") + RowsText(t.rows) + "\\.\n\n"
  {
    StepsTextAppend(schema, done, LoadTable(t));
    StepsTextAppend(schema, done + [LoadTable(t)], Gap);
    assert done + [LoadTable(t)] + [Gap] == done + [LoadTable(t), Gap];
    CopyParts(schema, t);
    Regroup4(ScriptText(Pieces(schema, done)), "COPY " + Qualified(schema, t.name) + " FROM stdin;\n", RowsText(t.rows), "\\.\n\n");
    Regroup(ScriptText(Pieces(schema, done)), StepText(schema, LoadTable(t)), StepText(schema, Gap));
  }

  /** The whole dump did not fit, and what fits of it has been written. */
  ghost predicate Overrun(d: Dumping, out: SqlWriter)
    reads out, out.w
  {
    out.Holds(ScriptText(Pieces(d.schema, d.plan))) && |ScriptText(Pieces(d.schema, d.plan))| > out.room
  }

  lemma Thirds(a: string, b: string, c: string, all: string)
    requires a + b + c <= all
    ensures a <= all && a + b <= all
  {
    assert a == all[..|a|];
    assert a + b == all[..|a + b|];
  }

  /** Rows go to the sink past the writer, which is why a failure there ends the dump at
      once. On failure the sink holds what fits of any text that goes on this way. */
  method WriteBlock(out: SqlWriter, head: string, rows: string, tail: string, ghost all: string) returns (ok: bool)
    requires out.Valid() && out.text + head + rows + tail <= all
    modifies out, out.w
    ensures ok ==> out.Valid() && out.text == old(out.text) + head + rows + tail
    ensures !ok ==> out.Holds(all) && |all| > out.room
  {
    hide Fit;
    ghost var before := out.text;
    Thirds(before + head, rows, tail, all);
    out.Printf(head);
    if out.failed {
      FitOfPrefix(before + head, all, out.room);
      return false;
    }
    FitConcat(before + head, rows, out.room);
    ok := out.w.Write(rows);
    if !ok {
      FitOfPrefix(before + head + rows, all, out.room);
      return;
    }
    out.text := out.text + rows;
    out.Printf(tail);
    if out.failed {
      FitOfPrefix(before + head + rows + tail, all, out.room);
    }
    ok := !out.failed;
  }

  /** One table's COPY block. */
  method DumpTableData(ghost d: Dumping, schema: string, out: SqlWriter, t: Table, ghost done0: seq<Step>, ghost due: seq<Step>)
    returns (ok: bool, ghost done: seq<Step>)
    requires d.schema == schema && Underway(d, out, done0, [LoadTable(t), Gap] + due)
    modifies out, out.w
    ensures if ok then Underway(d, out, done, due) else Overrun(d, out)
  {
    done := done0 + [LoadTable(t), Gap];
    Regroup(done0, [LoadTable(t), Gap], due);
    CopyBlockText(schema, done0, t);
    UnderwayPrefix(d, done, due);
    ok := WriteBlock(out, "COPY " + Qualified(schema, t.name) + " FROM stdin;\n", RowsText(t.rows), "\\.\n\n",
                     ScriptText(Pieces(d.schema, d.plan)));
  }

  method DumpData(cat: Catalog, ghost d: Dumping, out: SqlWriter, ghost done0: seq<Step>, ghost due: seq<Step>)
    returns (ok: bool, ghost done: seq<Step>)
    requires d.schema == cat.schema
    requires Underway(d, out, done0, LoadSteps(cat.tables) + due)
    modifies out, out.w
    ensures if ok then Underway(d, out, done, due) else Overrun(d, out)
  {
    hide Underway, LoadSteps;
    done := done0;
    ok := true;
    assert cat.tables[0..] == cat.tables;
    for i := 0 to |cat.tables|
      invariant Underway(d, out, done, LoadSteps(cat.tables[i..]) + due)
    {
      NextTable(cat.tables, i, due);
      ok, done := DumpTableData(d, cat.schema, out, cat.tables[i], done, LoadSteps(cat.tables[i + 1..]) + due);
      if !ok {
        return;
      }
    }
    NoMoreTables(cat.tables, true, due);
  }

  lemma NextTableParts(tables: seq<Table>, i: nat, keys: bool, due: seq<Step>)
    requires i < |tables|
    ensures ConstraintSteps(tables[i..], keys) + due
         == ConstraintStepsOf(tables[i].name, tables[i].constraints, keys) + (ConstraintSteps(tables[i + 1..], keys) + due)
    ensures IndexSteps(tables[i..]) + due
         == IndexStepsOf(tables[i].name, tables[i].indexes) + (IndexSteps(tables[i + 1..]) + due)
  {
    assert tables[i..][1..] == tables[i + 1..];
    Regroup(ConstraintStepsOf(tables[i].name, tables[i].constraints, keys), ConstraintSteps(tables[i + 1..], keys), due);
    Regroup(IndexStepsOf(tables[i].name, tables[i].indexes), IndexSteps(tables[i + 1..]), due);
  }

  lemma NextConstraint(table: string, cons: seq<Constraint>, j: nat, keys: bool, due: seq<Step>)
    requires j < |cons|
    ensures ConstraintStepsOf(table, cons[j..], keys) + due
         == if Wanted(keys, Contype(cons[j].rule)) then [AddConstraint(table, cons[j])] + (ConstraintStepsOf(table, cons[j + 1..], keys) + due)
            else ConstraintStepsOf(table, cons[j + 1..], keys) + due
  {
    assert cons[j..][1..] == cons[j + 1..];
    if Wanted(keys, Contype(cons[j].rule)) {
      Regroup([AddConstraint(table, cons[j])], ConstraintStepsOf(table, cons[j + 1..], keys), due);
    } else {
      assert [] + ConstraintStepsOf(table, cons[j + 1..], keys) == ConstraintStepsOf(table, cons[j + 1..], keys);
    }
  }

  lemma NextIndex(table: string, indexes: seq<Index>, j: nat, due: seq<Step>)
    requires j < |indexes|
    ensures IndexStepsOf(table, indexes[j..]) + due
         == [CreateIndex(table, indexes[j])] + (IndexStepsOf(table, indexes[j + 1..]) + due)
  {
    assert indexes[j..][1..] == indexes[j + 1..];
    Regroup([CreateIndex(table, indexes[j])], IndexStepsOf(table, indexes[j + 1..]), due);
  }

  lemma NoMoreOfTable(t: Table, keys: bool, due: seq<Step>)
    ensures ConstraintStepsOf(t.name, t.constraints[|t.constraints|..], keys) + due == due
    ensures IndexStepsOf(t.name, t.indexes[|t.indexes|..]) + due == due
  {}

  /** One constraint pass over all tables: the keys, or everything else. */
  method EmitConstraints(cat: Catalog, ghost d: Dumping, out: SqlWriter, keys: bool, ghost done0: seq<Step>, ghost due: seq<Step>)
    returns (ghost done: seq<Step>)
    requires d.schema == cat.schema
    requires Underway(d, out, done0, ConstraintSteps(cat.tables, keys) + due)
    modifies out, out.w
    ensures Underway(d, out, done, due)
  {
    hide Underway, ConstraintSteps, ConstraintStepsOf;
    done := done0;
    assert cat.tables[0..] == cat.tables;
    for i := 0 to |cat.tables|
      invariant Underway(d, out, done, ConstraintSteps(cat.tables[i..], keys) + due)
    {
      var t := cat.tables[i];
      ghost var rest := ConstraintSteps(cat.tables[i + 1..], keys) + due;
      NextTableParts(cat.tables, i, keys, due);
      assert t.constraints[0..] == t.constraints;
      for j := 0 to |t.constraints|
        invariant Underway(d, out, done, ConstraintStepsOf(t.name, t.constraints[j..], keys) + rest)
      {
        var c := t.constraints[j];
        NextConstraint(t.name, t.constraints, j, keys, rest);
        if Wanted(keys, Contype(c.rule)) {
          done := Emit(d, out, ConstraintSQL(cat.schema, t.name, c) + "\n", AddConstraint(t.name, c), done,
                       ConstraintStepsOf(t.name, t.constraints[j + 1..], keys) + rest);
        }
      }
      NoMoreOfTable(t, keys, rest);
    }
    NoMoreTables(cat.tables, keys, due);
  }

  method DumpIndexes(cat: Catalog, ghost d: Dumping, out: SqlWriter, ghost done0: seq<Step>, ghost due: seq<Step>) returns (ghost done: seq<Step>)
    requires d.schema == cat.schema
    requires Underway(d, out, done0, IndexSteps(cat.tables) + due)
    modifies out, out.w
    ensures Underway(d, out, done, due)
  {
    hide Underway, IndexSteps, IndexStepsOf;
    done := done0;
    assert cat.tables[0..] == cat.tables;
    for i := 0 to |cat.tables|
      invariant Underway(d, out, done, IndexSteps(cat.tables[i..]) + due)
    {
      var t := cat.tables[i];
      ghost var rest := IndexSteps(cat.tables[i + 1..]) + due;
      NextTableParts(cat.tables, i, true, due);
      assert t.indexes[0..] == t.indexes;
      for j := 0 to |t.indexes|
        invariant Underway(d, out, done, IndexStepsOf(t.name, t.indexes[j..]) + rest)
      {
        NextIndex(t.name, t.indexes, j, rest);
        assert t.indexes[j].def + ";" + "\n" == t.indexes[j].def + ";\n";
        done := Emit(d, out, t.indexes[j].def + ";\n", CreateIndex(t.name, t.indexes[j]), done,
                     IndexStepsOf(t.name, t.indexes[j + 1..]) + rest);
      }
      NoMoreOfTable(t, true, rest);
    }
    NoMoreTables(cat.tables, true, due);
  }

  lemma NextSetval(seqs: seq<Sequence>, i: nat)
    requires i < |seqs|
    ensures SetvalSteps(seqs[i..]) == if seqs[i].lastValue.Some?
            then [SetValue(seqs[i].name, seqs[i].lastValue.value)] + SetvalSteps(seqs[i + 1..]) else SetvalSteps(seqs[i + 1..])
  {
    assert seqs[i..][1..] == seqs[i + 1..];
  }

  method DumpSetvals(cat: Catalog, ghost d: Dumping, out: SqlWriter, ghost done0: seq<Step>) returns (ghost done: seq<Step>)
    requires d.schema == cat.schema
    requires Underway(d, out, done0, SetvalSteps(cat.sequences))
    modifies out, out.w
    ensures Underway(d, out, done, [])
  {
    hide Underway;
    done := done0;
    assert cat.sequences[0..] == cat.sequences;
    for i := 0 to |cat.sequences|
      invariant Underway(d, out, done, SetvalSteps(cat.sequences[i..]))
    {
      var s := cat.sequences[i];
      NextSetval(cat.sequences, i);
      if s.lastValue.Some? {
        var v := s.lastValue.value;
        done := Emit(d, out, SetvalSQL(cat.schema, s.name, v) + "\n", SetValue(s.name, v), done, SetvalSteps(cat.sequences[i + 1..]));
      }
    }
    assert SetvalSteps(cat.sequences[|cat.sequences|..]) == [];
  }

  lemma HeaderOrder(cat: Catalog, due: seq<Step>)
    ensures var rest := if cat.schema != "public" then [CreateSchema] + ([Gap] + due) else due;
      Header(cat) + due == [Banner] + ([SetEncoding] + ([Gap] + rest))
  {}

  method DumpHeader(cat: Catalog, ghost d: Dumping, out: SqlWriter, ghost due: seq<Step>) returns (ghost done: seq<Step>)
    requires d.schema == cat.schema
    requires out.Valid() && out.text == "" && Header(cat) + due == d.plan
    modifies out, out.w
    ensures Underway(d, out, done, due)
  {
    ghost var rest := if cat.schema != "public" then [CreateSchema] + ([Gap] + due) else due;
    HeaderOrder(cat, due);
    done := [];
    assert Underway(d, out, done, [Banner] + ([SetEncoding] + ([Gap] + rest)));
    hide Underway;
    done := Emit(d, out, "-- easy-infra postgres backup\n", Banner, done, [SetEncoding] + ([Gap] + rest));
    done := Emit(d, out, "SET client_encoding = 'UTF8';\n", SetEncoding, done, [Gap] + rest);
    done := Emit(d, out, "\n", Gap, done, rest);
    if cat.schema != "public" {
      done := Emit(d, out, "CREATE SCHEMA IF NOT EXISTS " + QuoteIdent(cat.schema) + ";" + "\n", CreateSchema, done, [Gap] + due);
      done := Emit(d, out, "\n", Gap, done, due);
    }
  }

  /** Dumps a schema. It succeeds exactly when the whole text fits the destination, and what
      it writes is always as much of that one text as fits. */
  method Dump(src: Source, w: Sink) returns (ok: bool)
    modifies w
    ensures ok <==> |DumpText(ReadCatalog(src))| <= old(w.room)
    ensures w.out == old(w.out) + Fit(DumpText(ReadCatalog(src)), old(w.room))
  {
    var cat := ReadCatalog(src);
    var out := new SqlWriter(w);
    ghost var d := Dumping(cat.schema, Plan(cat));
    ghost var done: seq<Step> := [];
    ghost var setvals := SetvalSteps(cat.sequences);
    ghost var fromIndexes := IndexSteps(cat.tables) + setvals;
    ghost var fromOthers := ConstraintSteps(cat.tables, false) + fromIndexes;
    ghost var fromKeys := ConstraintSteps(cat.tables, true) + fromOthers;
    ghost var fromData := LoadSteps(cat.tables) + fromKeys;
    ghost var fromTables := TableSteps(cat.tables) + fromData;
    ghost var fromSequences := SequenceSteps(cat.sequences) + ((if cat.sequences != [] then [Gap] else []) + fromTables);
    done := DumpHeader(cat, d, out, fromSequences);
    done := DumpSequences(cat, d, out, done, (if cat.sequences != [] then [Gap] else []) + fromTables);
    if |cat.sequences| > 0 {
      done := Emit(d, out, "\n", Gap, done, fromTables);
    } else {
      assert [] + fromTables == fromTables;
    }
    done := DumpTables(cat, d, out, done, fromData);
    ok, done := DumpData(cat, d, out, done, fromKeys);
    if !ok {
      return;
    }
    done := EmitConstraints(cat, d, out, true, done, fromOthers);
    done := EmitConstraints(cat, d, out, false, done, fromIndexes);
    done := DumpIndexes(cat, d, out, done, setvals);
    done := DumpSetvals(cat, d, out, done);
    assert done + [] == done;
    ok := !out.failed;
  }
}
