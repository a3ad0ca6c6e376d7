/** When replaying a dump gives back what was dumped. */
module PostgresRoundTrip {
  import opened Text
  import opened Quoting
  import opened PostgresScript
  import opened CopyFormat
  import opened PostgresDump

  ghost predicate CleanStep(schema: string, step: Step) {
    match StepPiece(schema, step)
    case Statement(sql) =>
      && NoInnerTerminator(sql)
      && (step.CreateIndex? ==> !("--" <= TrimSpace(sql)) && !(IsCopyHeader(TrimSpace(sql)) && '\n' !in TrimSpace(sql)))
    case _ => true
  }

  /** What the names and definitions of a catalog must be like for its dump to replay:
      table names, and the schema name if there are tables, hold no newline; no printed
      statement has a line of its own ending in a semicolon before its last line; and no
      index definition starts like a comment or reads like a COPY header. The rows of the
      tables may hold anything. */
  ghost predicate CleanCatalog(cat: Catalog) {
    && (forall t :: t in cat.tables ==> '\n' !in cat.schema && '\n' !in t.name)
    && (forall step :: step in Plan(cat) ==> CleanStep(cat.schema, step))
  }

  /** A statement that starts with one of the dump's own keywords is neither a comment nor
      a COPY header. */
  lemma KeywordStatement(word: string, sql: string)
    requires word in {"SET", "CREATE", "ALTER", "SELECT"} && word <= sql
    ensures !("--" <= TrimSpace(sql)) && !IsCopyHeader(TrimSpace(sql))
  {
    TrimSpaceKeeps(word, sql);
    var t := TrimSpace(sql);
    assert t[..|word|] == word;
    assert t[0] == word[0] && t[1] == word[1];
    assert "COPY "[1] == 'O' && t[1] != 'O';
  }

  /** The keyword with which a step's statement starts. */
  function Keyword(step: Step): string
    requires step.SetEncoding? || step.CreateSchema? || step.CreateSequence? || step.CreateTable?
          || step.AddConstraint? || step.SetValue?
  {
    match step
    case SetEncoding => "SET"
    case AddConstraint(_, _) => "ALTER"
    case SetValue(_, _) => "SELECT"
    case _ => "CREATE"
  }

  lemma KeepsFront(front: string, a: string, b: string)
    requires front <= a
    ensures front <= a + b
  {}

  lemma SequenceKeyword(schema: string, s: Sequence)
    ensures "CREATE" <= SequenceSQL(schema, s)
  {
    var a := "CREATE SEQUENCE IF NOT EXISTS ";
    assert a[..6] == "CREATE";
    KeepsFront("CREATE", a, Qualified(schema, s.name));
    KeepsFront("CREATE", a + Qualified(schema, s.name), " AS ");
    KeepsFront("CREATE", a + Qualified(schema, s.name) + " AS ", s.dataType);
    KeepsFront("CREATE", a + Qualified(schema, s.name) + " AS " + s.dataType, SequenceOptions(s));
    KeepsFront("CREATE", a + Qualified(schema, s.name) + " AS " + s.dataType + SequenceOptions(s), ";");
  }

  lemma TableKeyword(schema: string, t: Table)
    ensures "CREATE" <= TableSQL(schema, t)
  {
    assert TableSQL(schema, t)[..6] == "CREATE";
  }

  lemma ConstraintKeyword(schema: string, table: string, c: Constraint)
    ensures "ALTER" <= ConstraintSQL(schema, table, c)
  {
    assert ConstraintSQL(schema, table, c)[..5] == "ALTER";
  }

  lemma SetvalKeyword(schema: string, name: string, v: int)
    ensures "SELECT" <= SetvalSQL(schema, name, v)
  {
    assert SetvalSQL(schema, name, v)[..6] == "SELECT";
  }

  lemma StatementKeyword(schema: string, step: Step)
    requires step.SetEncoding? || step.CreateSchema? || step.CreateSequence? || step.CreateTable?
          || step.AddConstraint? || step.SetValue?
    ensures Keyword(step) <= StepPiece(schema, step).sql
  {
    match step {
      case SetEncoding =>
      case CreateSchema => assert StepPiece(schema, step).sql[..6] == "CREATE";
      case CreateSequence(s) => SequenceKeyword(schema, s);
      case CreateTable(t) => TableKeyword(schema, t);
      case AddConstraint(table, c) => ConstraintKeyword(schema, table, c);
      case SetValue(name, v) => SetvalKeyword(schema, name, v);
    }
  }

  lemma Closed(sql: string)
    ensures (sql + ";")[|sql + ";"| - 1] == ';'
  {}

  lemma StepWellShaped(schema: string, step: Step)
    ensures WellShaped(StepPiece(schema, step))
  {
    match step {
      case CreateSchema => Closed("CREATE SCHEMA IF NOT EXISTS " + QuoteIdent(schema));
      case CreateSequence(s) =>
        Closed("CREATE SEQUENCE IF NOT EXISTS " + Qualified(schema, s.name) + " AS " + s.dataType + SequenceOptions(s));
      case AddConstraint(table, c) =>
        Closed("ALTER TABLE " + Qualified(schema, table) + " ADD CONSTRAINT " + QuoteIdent(c.name) + " " + c.def);
      case CreateIndex(_, index) => Closed(index.def);
      case _ =>
    }
  }

  lemma QualifiedNewline(schema: string, name: string)
    ensures '\n' in Qualified(schema, name) <==> '\n' in schema || '\n' in name
  {
    QualifiedKeeps(schema, name, '\n');
  }

  lemma StepReplays(schema: string, step: Step, arity: nat)
    requires step.LoadTable? ==> forall i :: 0 <= i < |step.table.rows| ==> |step.table.rows[i]| == arity
    ensures PieceReplays(StepPiece(schema, step))
       <==> CleanStep(schema, step) && (step.LoadTable? ==> '\n' !in schema && '\n' !in step.table.name)
  {
    if step.LoadTable? {
      RowsRoundTrip(arity, step.table.rows);
      QualifiedNewline(schema, step.table.name);
    } else if !step.Banner? && !step.Gap? && !step.CreateIndex? {
      StatementKeyword(schema, step);
      KeywordStatement(Keyword(step), StepPiece(schema, step).sql);
    }
  }

  ghost predicate RowsFit(t: Table) {
    forall i :: 0 <= i < |t.rows| ==> |t.rows[i]| == |t.columns|
  }

  lemma {:induction false} LoadStepsLoad(tables: seq<Table>)
    ensures forall t :: t in tables <==> LoadTable(t) in LoadSteps(tables)
    ensures forall s :: s in LoadSteps(tables) ==> s.LoadTable? || s.Gap?
  {
    if tables == [] {
    } else {
      LoadStepsLoad(tables[1..]);
      assert tables == [tables[0]] + tables[1..];
    }
  }

  lemma {:induction false} NoLoadsOf(t: Table, cons: seq<Constraint>, indexes: seq<Index>, keys: bool)
    ensures forall s :: s in ConstraintStepsOf(t.name, cons, keys) || s in IndexStepsOf(t.name, indexes) ==> !s.LoadTable?
    decreases |cons| + |indexes|
  {
    if cons == [] && indexes == [] {
    } else if cons != [] {
      NoLoadsOf(t, cons[1..], indexes, keys);
    } else {
      NoLoadsOf(t, cons, indexes[1..], keys);
    }
  }

  lemma {:induction false} NoLoads(cat: Catalog, keys: bool)
    ensures forall s :: s in SequenceSteps(cat.sequences) || s in SetvalSteps(cat.sequences) ==> !s.LoadTable?
    ensures forall s :: s in TableSteps(cat.tables) || s in ConstraintSteps(cat.tables, keys) || s in IndexSteps(cat.tables) ==> !s.LoadTable?
    decreases |cat.sequences| + |cat.tables|
  {
    if cat.sequences == [] && cat.tables == [] {
    } else if cat.sequences != [] {
      NoLoads(cat.(sequences := cat.sequences[1..]), keys);
    } else {
      NoLoads(cat.(tables := cat.tables[1..]), keys);
      NoLoadsOf(cat.tables[0], cat.tables[0].constraints, cat.tables[0].indexes, keys);
    }
  }

  /** The tables a plan loads are the catalog's. */
  lemma PlanLoads(cat: Catalog)
    ensures forall t :: LoadTable(t) in Plan(cat) <==> t in cat.tables
  {
    LoadStepsLoad(cat.tables);
    NoLoads(cat, true);
    NoLoads(cat, false);
  }

  ghost predicate StepFits(step: Step) {
    step.LoadTable? ==> RowsFit(step.table)
  }

  ghost predicate StepComesBack(schema: string, step: Step) {
    CleanStep(schema, step) && (step.LoadTable? ==> '\n' !in schema && '\n' !in step.table.name)
  }

  /** The text of a plan replays exactly when each of its steps is clean. */
  lemma PlanRoundTrip(schema: string, plan: seq<Step>)
    requires forall step :: step in plan ==> StepFits(step)
    ensures ReplayText("", ScriptText(Pieces(schema, plan))) == Replayed(ScriptActions(Pieces(schema, plan)), true)
       <==> forall step :: step in plan ==> StepComesBack(schema, step)
  {
    var pieces := Pieces(schema, plan);
    forall p | p in pieces
      ensures WellShaped(p)
    {
      var i :| 0 <= i < |plan| && p == StepPiece(schema, plan[i]);
      StepWellShaped(schema, plan[i]);
    }
    ScriptRoundTrip(pieces);
    forall i | 0 <= i < |plan|
      ensures PieceReplays(pieces[i]) <==> StepComesBack(schema, plan[i])
    {
      assert StepFits(plan[i]);
      StepReplays(schema, plan[i], if plan[i].LoadTable? then |plan[i].table.columns| else 0);
    }
    hide StepComesBack, PieceReplays;
    assert forall p :: p in pieces ==> exists i :: 0 <= i < |plan| && p == pieces[i];
    assert forall i :: 0 <= i < |plan| ==> pieces[i] in pieces;
  }

  /** The round trip of a dump: replaying the text issues exactly the dumped statements,
      trimmed, and COPY blocks, byte for byte and in order, if and only if the catalog is
      clean. Table data never gets in the way. */
  lemma DumpRoundTrip(cat: Catalog)
    requires forall t :: t in cat.tables ==> RowsFit(t)
    ensures ReplayText("", DumpText(cat)) == Replayed(ScriptActions(Pieces(cat.schema, Plan(cat))), true)
       <==> CleanCatalog(cat)
  {
    PlanLoads(cat);
    hide Plan;
    PlanRoundTrip(cat.schema, Plan(cat));
    assert forall t :: t in cat.tables ==> LoadTable(t) in Plan(cat);
  }

  // ------------------------------------------------------------- sequence values

  /** What a setval statement sets: a string literal that holds a qualified name, then the
      value. */
  function ReadSetval(s: string): Option<(string, string, int)> {
    match DropPrefix("SELECT pg_catalog.setval('", s)
    case None => None
    case Some(s1) =>
      match ReadLiteralBody(s1)
      case None => None
      case Some((literal, s2)) =>
        match ReadQualified(literal)
        case None => None
        case Some(((schema, name), more)) =>
          match DropPrefix(", ", s2)
          case None => None
          case Some(s3) =>
            match ReadDecimal(s3)
            case None => None
            case Some((value, s4)) => if more == "" && s4 == ", true);" then Some((schema, name, value)) else None
  }

  predicate Unescaped(schema: string, name: string) {
    '\'' in schema || '\'' in name
  }

  lemma SetvalParts(schema: string, name: string, value: int)
    ensures SetvalSQL(schema, name, value)
         == "SELECT pg_catalog.setval('" + (Qualified(schema, name) + "'" + (", " + (Decimal(value) + ", true);")))
  {
    hide Qualified, Decimal;
    var q, d := Qualified(schema, name), Decimal(value);
    assert "', " == "'" + ", ";
    assert "SELECT pg_catalog.setval('" + q + "', " == "SELECT pg_catalog.setval('" + (q + "'" + ", ");
  }

  lemma ValuePart(value: int)
    ensures '\'' !in ", " + (Decimal(value) + ", true);")
    ensures DropPrefix(", ", ", " + (Decimal(value) + ", true);")) == Some(Decimal(value) + ", true);")
    ensures ReadDecimal(Decimal(value) + ", true);") == Some((value, ", true);"))
  {
    hide ReadDecimal;
    ReadsDecimalBack(value, ", true);");
    var d := Decimal(value) + ", true);";
    assert (", " + d)[2..] == d;
  }

  /** A setval statement reads back as what it was printed for if and only if there is no
      single quote in its names: what is read otherwise, if anything, is a shorter name. */
  lemma SetvalReadsBack(schema: string, name: string, value: int)
    ensures var r := ReadSetval(SetvalSQL(schema, name, value));
      if Unescaped(schema, name) then r.Some? ==> |Qualified(r.value.0, r.value.1)| < |Qualified(schema, name)|
      else r == Some((schema, name, value))
  {
    var tail := ", " + (Decimal(value) + ", true);");
    var s1 := Qualified(schema, name) + "'" + tail;
    SetvalParts(schema, name, value);
    assert ("SELECT pg_catalog.setval('" + s1)[|"SELECT pg_catalog.setval('"|..] == s1;
    ValuePart(value);
    hide SetvalSQL, Qualified, Decimal, ReadDecimal, ReadLiteralBody, ReadQualified;
    UnescapedLiteral(Qualified(schema, name), tail);
    QualifiedKeeps(schema, name, '\'');
    if Unescaped(schema, name) {
      var literal := ReadLiteralBody(s1);
      if literal.Some? && ReadQualified(literal.value.0).Some? {
        ReadQualifiedOnly(literal.value.0);
      }
    } else {
      ReadsQualifiedBack(schema, name, "");
      assert Qualified(schema, name) + "" == Qualified(schema, name);
    }
  }

  lemma {:induction false} DoubleSinglesConcat(a: string, b: string)
    ensures DoubleSingles(a + b) == DoubleSingles(a) + DoubleSingles(b)
  {
    if a == "" {
      assert a + b == b;
    } else {
      assert (a + b)[1..] == a[1..] + b;
      DoubleSinglesConcat(a[1..], b);
      Regroup(if a[0] == '\'' then "''" else [a[0]], DoubleSingles(a[1..]), DoubleSingles(b));
    }
  }

  lemma DoubleSinglesOfQuotes()
    ensures DoubleSingles("\"") == "\"" && DoubleSingles(".") == "."
  {}

  /** Doubling single quotes and doubling double quotes do not meet. */
  lemma {:induction false} QuotesCommute(s: string)
    ensures DoubleSingles(DoubleQuotes(s)) == DoubleQuotes(DoubleSingles(s))
  {
    if s == "" {
    } else {
      QuotesCommute(s[1..]);
      var rest := DoubleSingles(s[1..]);
      DoubleSinglesConcat(if s[0] == '"' then "\"\"" else [s[0]], DoubleQuotes(s[1..]));
      if s[0] == '"' {
        assert "\"\""[1..] == "\"" && ([s[0]] + rest)[1..] == rest;
        assert DoubleSingles("\"\"") == "\"\"";
      } else if s[0] == '\'' {
        assert ("''" + rest)[1..] == "'" + rest && ("'" + rest)[1..] == rest;
        assert DoubleSingles("'") == "''";
      } else {
        assert ([s[0]] + rest)[1..] == rest;
        assert DoubleSingles([s[0]]) == [s[0]];
      }
    }
  }

  lemma DoubleSinglesOfIdent(s: string)
    ensures DoubleSingles(QuoteIdent(s)) == QuoteIdent(DoubleSingles(s))
  {
    hide DoubleQuotes, DoubleSingles;
    DoubleSinglesOfQuotes();
    QuotesCommute(s);
    DoubleSinglesConcat("\"" + DoubleQuotes(s), "\"");
    DoubleSinglesConcat("\"", DoubleQuotes(s));
  }

  lemma DoubleSinglesOfQualified(schema: string, name: string)
    requires '\'' !in schema
    ensures DoubleSingles(Qualified(schema, name)) == Qualified(schema, DoubleSingles(name))
  {
    hide QuoteIdent, DoubleSingles;
    DoubleSinglesOfIdent(schema);
    DoubleSinglesGrow(schema);
    DoubleSinglesOfIdent(name);
    DoubleSinglesOfQuotes();
    DoubleSinglesConcat(QuoteIdent(schema) + ".", QuoteIdent(name));
    DoubleSinglesConcat(QuoteIdent(schema), ".");
  }

  /** A name all of whose single quotes come in pairs makes a statement that sets the value of
      another sequence, the one with each pair as one quote. */
  lemma SetsAnother(schema: string, name: string, value: int)
    requires '\'' !in schema && '\'' in name
    ensures ReadSetval(SetvalSQL(schema, DoubleSingles(name), value)) == Some((schema, name, value))
    ensures DoubleSingles(name) != name
  {
    hide SetvalSQL, Qualified, Decimal, ReadDecimal, ReadLiteralBody, ReadQualified, DoubleSingles;
    var q, tail := Qualified(schema, DoubleSingles(name)), ", " + (Decimal(value) + ", true);");
    DoubleSinglesGrow(name);
    SetvalParts(schema, DoubleSingles(name), value);
    assert ("SELECT pg_catalog.setval('" + (q + "'" + tail))[|"SELECT pg_catalog.setval('"|..] == q + "'" + tail;
    ValuePart(value);
    DoubleSinglesOfQualified(schema, name);
    ReadLiteralBodyOfDoubled(Qualified(schema, name), tail);
    ReadsQualifiedBack(schema, name, "");
    assert Qualified(schema, name) + "" == Qualified(schema, name);
  }
}
