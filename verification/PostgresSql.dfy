/** What the statements of a dump say to a server: readers of the SQL that the dump prints,
    and the proof that each statement reads back as what it was printed for
    (internal/service/postgres_dump.go:22-120, 182-228, 313-321). */
module PostgresSql {
  import opened Text
  import opened Quoting
  import opened CopyFormat
  import opened PostgresScript
  import opened PostgresDump
  import opened PostgresRoundTrip
  import opened PostgresDatabase

  // ------------------------------------------------------------------------ fragments

  /** Where a lexer stands: inside quotes, or that many brackets deep. A doubled quote closes
      and opens again. */
  datatype Lexer = Lexer(quote: Option<char>, depth: nat)

  const TOP := Lexer(None, 0)

  /** One more character; None for a bracket that closes nothing. */
  function Scan(l: Lexer, c: char): Option<Lexer> {
    if l.quote.Some? then Some(if c == l.quote.value then l.(quote := None) else l)
    else if c == '\'' || c == '"' then Some(l.(quote := Some(c)))
    else if c == '(' || c == '[' then Some(l.(depth := l.depth + 1))
    else if c == ')' || c == ']' then if l.depth == 0 then None else Some(l.(depth := l.depth - 1))
    else Some(l)
  }

  predicate StartsWith(stops: seq<string>, s: string) {
    exists i :: 0 <= i < |stops| && stops[i] <= s
  }

  /** A fragment of SQL: all up to one of the `stops` or to a closing bracket, outside quotes and
      brackets. */
  function ReadFragment(l: Lexer, s: string, stops: seq<string>): (r: (string, string))
    ensures |r.0| + |r.1| == |s|
    decreases |s|
  {
    if s == "" || (l == TOP && StartsWith(stops, s)) then ("", s)
    else
      match Scan(l, s[0])
      case None => ("", s)
      case Some(next) =>
        var (f, rest) := ReadFragment(next, s[1..], stops);
        ([s[0]] + f, rest)
  }

  /** A text from a lexer state on that ends at the top with no stop before. */
  predicate WholeFrom(l: Lexer, f: string, stops: seq<string>)
    decreases |f|
  {
    if f == "" then l == TOP
    else !(l == TOP && StartsWith(stops, f)) && Scan(l, f[0]).Some? && WholeFrom(Scan(l, f[0]).value, f[1..], stops)
  }

  /** What may follow a fragment: nothing, a stop, or a bracket that closes nothing; and no stop
      reaches from the fragment into it. */
  predicate Follows(stops: seq<string>, rest: string) {
    && (rest != "" ==> StartsWith(stops, rest) || rest[0] == ')' || rest[0] == ']')
    && (rest != "" ==> forall i, k :: 0 <= i < |stops| && 1 <= k < |stops[i]| ==> stops[i][k] != rest[0])
  }

  lemma ReachesInto(f: string, rest: string, stop: string)
    requires f != "" && stop <= f + rest && |stop| > |f|
    ensures rest != "" && exists k :: 1 <= k < |stop| && stop[k] == rest[0]
  {
    assert stop[|f|] == (f + rest)[|f|];
  }

  lemma StopInside(f: string, rest: string, stop: string)
    requires f != "" && stop <= f + rest
    requires rest != "" ==> forall k :: 1 <= k < |stop| ==> stop[k] != rest[0]
    ensures stop <= f
  {
    if |stop| > |f| {
      ReachesInto(f, rest, stop);
      assert false;
    }
    assert (f + rest)[..|stop|] == stop;
  }

  lemma {:induction false} ReadsFragmentBack(l: Lexer, f: string, rest: string, stops: seq<string>)
    requires WholeFrom(l, f, stops) && Follows(stops, rest)
    ensures ReadFragment(l, f + rest, stops) == (f, rest)
    decreases |f|
  {
    if f == "" {
      assert f + rest == rest;
    } else {
      assert (f + rest)[1..] == f[1..] + rest;
      ReadsFragmentBack(Scan(l, f[0]).value, f[1..], rest, stops);
      if StartsWith(stops, f + rest) {
        var i :| 0 <= i < |stops| && stops[i] <= f + rest;
        StopInside(f, rest, stops[i]);
      }
      assert f == [f[0]] + f[1..];
    }
  }

  const COMMA: seq<string> := [","]

  /** Words that no type name holds outside quotes and brackets: both are reserved. */
  const KEYWORDS: seq<string> := [" NOT", " DEFAULT"]

  lemma CommaFirst(s: string)
    ensures StartsWith(COMMA, s) <==> s != "" && s[0] == ','
  {
    assert COMMA[0] == ",";
    assert "," <= s <==> s != "" && s[0] == ',';
  }

  /** Up to a comma the parts of a text are whole just when the text is. */
  lemma {:induction false} WholeConcat(l: Lexer, a: string, b: string)
    requires WholeFrom(l, a, COMMA) && WholeFrom(TOP, b, COMMA)
    ensures WholeFrom(l, a + b, COMMA)
    decreases |a|
  {
    if a == "" {
      assert a + b == b;
    } else {
      assert (a + b)[1..] == a[1..] + b;
      WholeConcat(Scan(l, a[0]).value, a[1..], b);
      CommaFirst(a + b);
      CommaFirst(a);
    }
  }

  /** Inside a quoted name nothing stops. */
  lemma {:induction false} QuotedWhole(name: string)
    ensures WholeFrom(Lexer(Some('"'), 0), DoubleQuotes(name) + "\"", COMMA)
  {
    var l := Lexer(Some('"'), 0);
    if name == "" {
      assert DoubleQuotes(name) + "\"" == "\"" && "\""[1..] == "";
    } else {
      QuotedWhole(name[1..]);
      var rest := DoubleQuotes(name[1..]) + "\"";
      if name[0] == '"' {
        assert DoubleQuotes(name) + "\"" == "\"" + ("\"" + rest);
        assert ("\"" + ("\"" + rest))[1..] == "\"" + rest && ("\"" + rest)[1..] == rest;
        CommaFirst("\"" + rest);
      } else {
        assert DoubleQuotes(name) + "\"" == [name[0]] + rest;
        assert ([name[0]] + rest)[1..] == rest;
      }
    }
  }

  lemma IdentWhole(name: string)
    ensures WholeFrom(TOP, QuoteIdent(name), COMMA)
  {
    QuotedWhole(name);
    assert QuoteIdent(name) == "\"" + (DoubleQuotes(name) + "\"");
    assert ("\"" + (DoubleQuotes(name) + "\""))[1..] == DoubleQuotes(name) + "\"";
    CommaFirst(QuoteIdent(name));
  }

  // -------------------------------------------------------------------------- columns

  /** A column as CREATE TABLE says it. */
  datatype ColumnText = ColumnText(name: string, typ: string, notNull: bool, default: Option<string>)

  /** A name, a type, perhaps NOT NULL, perhaps a DEFAULT up to the end. */
  function ReadColumn(s: string): Option<ColumnText> {
    match ReadIdent(s)
    case None => None
    case Some((name, s1)) =>
      match DropPrefix(" ", s1)
      case None => None
      case Some(s2) =>
        var (typ, s3) := ReadFragment(TOP, s2, KEYWORDS);
        var notNull := " NOT NULL" <= s3;
        var s4 := if notNull then s3[9..] else s3;
        if s4 == "" then Some(ColumnText(name, typ, notNull, None))
        else
          match DropPrefix(" DEFAULT ", s4)
          case None => None
          case Some(expr) => Some(ColumnText(name, typ, notNull, Some(expr)))
  }

  /** Columns between commas, up to the end of the statement. */
  function ReadColumns(s: string): Option<seq<ColumnText>>
    decreases |s|
  {
    var (item, rest) := ReadFragment(TOP, s, COMMA);
    match ReadColumn(TrimSpace(item))
    case None => None
    case Some(c) =>
      if rest == ");" then Some([c])
      else
        match DropPrefix(",", rest)
        case None => None
        case Some(more) =>
          match ReadColumns(more)
          case None => None
          case Some(cs) => Some([c] + cs)
  }

  /** A table may be without columns. */
  function ReadBody(s: string): Option<seq<ColumnText>> {
    var (item, rest) := ReadFragment(TOP, s, COMMA);
    if TrimSpace(item) == "" then if rest == ");" then Some([]) else None else ReadColumns(s)
  }

  /** What the server's own functions print of a type and of a default: quotes and brackets
      closed, no comma outside them, no white space around; and no type holds a reserved
      word. */
  predicate PrintedColumn(c: Column) {
    && Tight(c.typ) && WholeFrom(TOP, c.typ, COMMA) && WholeFrom(TOP, c.typ, KEYWORDS)
    && (c.default.Some? ==> Tight(c.default.value.expr) && WholeFrom(TOP, c.default.value.expr, COMMA))
  }

  function TextOf(c: Column): ColumnText {
    ColumnText(c.name, c.typ, c.notNull, if c.default.Some? then Some(c.default.value.expr) else None)
  }

  function TextsOf(cols: seq<Column>): seq<ColumnText> {
    seq(|cols|, i requires 0 <= i < |cols| => TextOf(cols[i]))
  }

  /** What follows the type of a column. */
  function Tail(c: Column): string {
    (if c.notNull then " NOT NULL" else "") + if c.default.Some? then " DEFAULT " + c.default.value.expr else ""
  }

  /** A column's text but for its indentation. */
  function Core(c: Column): string {
    QuoteIdent(c.name) + (" " + (c.typ + Tail(c)))
  }

  lemma ColumnCore(c: Column)
    ensures ColumnSQL(c) == "    " + Core(c)
  {
    hide QuoteIdent;
    var n, d := if c.notNull then " NOT NULL" else "", if c.default.Some? then " DEFAULT " + c.default.value.expr else "";
    assert ColumnSQL(c) == "    " + QuoteIdent(c.name) + " " + c.typ + n + d;
    assert "    " + QuoteIdent(c.name) + " " + c.typ + n + d == "    " + (QuoteIdent(c.name) + (" " + (c.typ + (n + d))));
  }

  lemma TailFollows(c: Column)
    ensures Follows(KEYWORDS, Tail(c))
  {
    if c.notNull {
      assert KEYWORDS[0] <= Tail(c);
    } else if c.default.Some? {
      assert KEYWORDS[1] <= Tail(c);
    }
  }

  lemma TailRead(c: Column)
    ensures " NOT NULL" <= Tail(c) <==> c.notNull
    ensures var s4 := if c.notNull then Tail(c)[9..] else Tail(c);
      if c.default.Some? then s4 != "" && DropPrefix(" DEFAULT ", s4) == Some(c.default.value.expr) else s4 == ""
  {
    var d := if c.default.Some? then " DEFAULT " + c.default.value.expr else "";
    assert "" + d == d;
    if c.notNull {
      assert (" NOT NULL" + d)[9..] == d;
    } else if c.default.Some? {
      assert d[1] == 'D' && " NOT NULL"[1] == 'N';
    }
    if c.default.Some? {
      assert d[9..] == c.default.value.expr;
    }
  }

  /** A column reads back as it is. */
  lemma ReadsColumnBack(c: Column)
    requires PrintedColumn(c)
    ensures ReadColumn(Core(c)) == Some(TextOf(c))
  {
    var s1 := " " + (c.typ + Tail(c));
    QuoteIdentLossless(c.name, s1);
    assert s1[1..] == c.typ + Tail(c);
    TailFollows(c);
    ReadsFragmentBack(TOP, c.typ, Tail(c), KEYWORDS);
    TailRead(c);
    hide ReadIdent, QuoteIdent, ReadFragment, WholeFrom, Tail;
  }

  lemma PlainWhole(s: string, c: char)
    requires c in " \n" && WholeFrom(TOP, s, COMMA)
    ensures WholeFrom(TOP, [c] + s, COMMA)
  {
    assert ([c] + s)[1..] == s;
    CommaFirst([c] + s);
  }

  /** A text without quotes, brackets and commas. */
  predicate Simple(s: string) {
    forall i :: 0 <= i < |s| ==> s[i] !in "'\"()[],"
  }

  lemma {:induction false} SimpleWhole(s: string)
    requires Simple(s)
    ensures WholeFrom(TOP, s, COMMA)
  {
    if s == "" {
    } else {
      SimpleWhole(s[1..]);
      CommaFirst(s);
    }
  }

  lemma NotNullWhole()
    ensures WholeFrom(TOP, " NOT NULL", COMMA)
  {
    SimpleWhole(" NOT NULL");
  }

  lemma DefaultWhole()
    ensures WholeFrom(TOP, " DEFAULT ", COMMA)
  {
    SimpleWhole(" DEFAULT ");
  }

  lemma NothingWhole()
    ensures WholeFrom(TOP, "", COMMA)
  {}

  lemma TailWhole(c: Column)
    requires PrintedColumn(c)
    ensures WholeFrom(TOP, Tail(c), COMMA)
  {
    var expr := if c.default.Some? then c.default.value.expr else "";
    assert WholeFrom(TOP, " NOT NULL", COMMA) by { NotNullWhole(); }
    DefaultWhole();
    hide WholeFrom;
    if c.default.Some? {
      WholeConcat(TOP, " DEFAULT ", expr);
    }
    if c.notNull {
      assert c.default == None ==> Tail(c) == " NOT NULL" + "" && " NOT NULL" + "" == " NOT NULL";
      if c.default.Some? {
        WholeConcat(TOP, " NOT NULL", " DEFAULT " + expr);
      }
    } else {
      assert Tail(c) == "" + (if c.default.Some? then " DEFAULT " + expr else "");
      if c.default.Some? {
        assert Tail(c) == " DEFAULT " + expr;
      } else {
        NothingWhole();
      }
    }
  }

  // ----------------------------------------------------------------- the list of columns

  /** The text of a column between the commas, up to the one that follows or, after the last,
      to the closing bracket. */
  function Item(c: Column, last: bool): string {
    "\n" + ("    " + (Core(c) + if last then "\n" else ""))
  }

  /** The columns of a table without the newline before the first. */
  function Items(cols: seq<Column>): string {
    if cols == [] then "" else Item(cols[0], |cols| == 1) + (if |cols| > 1 then "," else "") + Items(cols[1..])
  }

  lemma LastLine(core: string)
    ensures "\n" + (("    " + core) + "" + "\n" + "") == "\n" + ("    " + (core + "\n")) + "" + ""
  {}

  lemma InnerLine(core: string, more: string)
    ensures "\n" + (("    " + core) + "," + "\n" + more) == "\n" + ("    " + (core + "")) + "," + ("\n" + more)
  {}

  /** The newline that ends a line is put in front of what follows. */
  lemma {:induction false} LinesAreItems(cols: seq<Column>)
    requires cols != []
    ensures "\n" + ColumnLines(cols) == Items(cols)
  {
    var c, rest := cols[0], cols[1..];
    ColumnCore(c);
    hide Core, ColumnSQL;
    if |cols| == 1 {
      assert ColumnLines(rest) == "" && Items(rest) == "";
      assert ColumnLines(cols) == ("    " + Core(c)) + "" + "\n" + "";
      assert Items(cols) == Item(c, true) + "" + "";
      LastLine(Core(c));
    } else {
      LinesAreItems(rest);
      assert ColumnLines(cols) == ("    " + Core(c)) + "," + "\n" + ColumnLines(rest);
      assert Items(cols) == Item(c, false) + "," + Items(rest);
      InnerLine(Core(c), ColumnLines(rest));
    }
  }

  lemma CoreTight(c: Column)
    requires PrintedColumn(c)
    ensures Tight(Core(c))
  {
    var t := c.typ + Tail(c);
    hide WholeFrom;
    assert QuoteIdent(c.name)[0] == '"';
    assert !IsSpace('"');
    assert t != "" && !IsSpace(t[|t| - 1]) by {
      if c.default.Some? {
        var expr := c.default.value.expr;
        assert t[|t| - 1] == expr[|expr| - 1];
      } else if c.notNull {
        assert t[|t| - 1] == 'L';
      }
    }
    assert Core(c)[|Core(c)| - 1] == t[|t| - 1];
  }

  lemma CoreWhole(c: Column)
    requires PrintedColumn(c)
    ensures WholeFrom(TOP, Core(c), COMMA)
  {
    IdentWhole(c.name);
    TailWhole(c);
    hide WholeFrom, Tail, QuoteIdent;
    WholeConcat(TOP, c.typ, Tail(c));
    PlainWhole(c.typ + Tail(c), ' ');
    WholeConcat(TOP, QuoteIdent(c.name), " " + (c.typ + Tail(c)));
  }

  /** A column between commas is whole, and trims to its core. */
  lemma ItemParts(c: Column, last: bool)
    requires PrintedColumn(c)
    ensures WholeFrom(TOP, Item(c, last), COMMA) && TrimSpace(Item(c, last)) == Core(c)
  {
    CoreWhole(c);
    CoreTight(c);
    SimpleWhole("\n    ");
    SimpleWhole(if last then "\n" else "");
    hide WholeFrom, Core, TrimSpace;
    var end := if last then "\n" else "";
    assert Item(c, last) == "\n    " + (Core(c) + end);
    WholeConcat(TOP, Core(c), end);
    WholeConcat(TOP, "\n    ", Core(c) + end);
    assert "\n    " + Core(c) + end == "\n    " + (Core(c) + end);
    TrimSpaceCore("\n    ", Core(c), end);
  }

  lemma ItemRead(c: Column, last: bool, rest: string)
    requires PrintedColumn(c) && (rest == ");" || (rest != "" && rest[0] == ','))
    ensures var (item, after) := ReadFragment(TOP, Item(c, last) + rest, COMMA);
      after == rest && ReadColumn(TrimSpace(item)) == Some(TextOf(c)) && TrimSpace(item) != ""
  {
    ItemParts(c, last);
    CommaFirst(rest);
    assert COMMA[0] == ",";
    ReadsFragmentBack(TOP, Item(c, last), rest, COMMA);
    ReadsColumnBack(c);
    CoreTight(c);
  }

  /** The columns of a table read back in order. */
  lemma {:induction false} ReadsColumnsBack(cols: seq<Column>)
    requires cols != [] && forall c :: c in cols ==> PrintedColumn(c)
    ensures ReadColumns(Items(cols) + ");") == Some(TextsOf(cols))
    ensures ReadBody(Items(cols) + ");") == Some(TextsOf(cols))
    decreases |cols|
  {
    hide PrintedColumn, Item, ReadFragment, ReadColumn, TrimSpace;
    var c, rest := cols[0], cols[1..];
    assert c in cols;
    if |cols| == 1 {
      assert Items(rest) == "" && Items(cols) == Item(c, true) + "" + "";
      assert Item(c, true) + "" + "" + ");" == Item(c, true) + ");";
      ItemRead(c, true, ");");
      assert TextsOf(cols) == [TextOf(c)];
    } else {
      var tail := "," + (Items(rest) + ");");
      assert Item(c, false) + "," + Items(rest) + ");" == Item(c, false) + tail;
      assert tail[1..] == Items(rest) + ");" && tail[0] == ',' && ");"[0] == ')';
      ItemRead(c, false, tail);
      ReadsColumnsBack(rest);
      assert TextsOf(cols) == [TextOf(c)] + TextsOf(rest);
    }
  }

  // ----------------------------------------------------------------------- statements

  /** What a statement says. The definitions of constraints and indexes are texts of the server's
      own, which it understands. */
  datatype Sql =
    | Utf8
    | NewSchema(name: string)
    | NewSequence(schema: string, sequence: PgSequence)
    | NewTable(schema: string, name: string, columns: seq<ColumnText>)
    | NewConstraint(schema: string, table: string, name: string, def: string)
    | NewIndex(def: string)
    | Setval(schema: string, name: string, value: int)

  /** Up to the next blank. */
  function ReadWord(s: string): (string, string) {
    if s == "" || s[0] == ' ' then ("", s)
    else var (word, rest) := ReadWord(s[1..]); ([s[0]] + word, rest)
  }

  /** A keyword with the number after it. */
  function ReadOption(keyword: string, s: string): Option<(int, string)> {
    match DropPrefix(keyword, s)
    case None => None
    case Some(rest) => ReadDecimal(rest)
  }

  /** The options of a sequence, in the order of the dump: a new sequence stands at its start
      value, not called yet. */
  function ReadOptions(name: string, dataType: string, s: string): Option<PgSequence> {
    match ReadOption(" INCREMENT BY ", s)
    case None => None
    case Some((increment, s1)) =>
      match ReadOption(" MINVALUE ", s1)
      case None => None
      case Some((min, s2)) =>
        match ReadOption(" MAXVALUE ", s2)
        case None => None
        case Some((max, s3)) =>
          match ReadOption(" START WITH ", s3)
          case None => None
          case Some((start, s4)) =>
            if s4 != " CYCLE;" && s4 != " NO CYCLE;" then None
            else
              Some(PgSequence(name := name, dataType := dataType, startValue := start, minValue := min, maxValue := max,
                              incrementBy := increment, cycle := s4 == " CYCLE;", position := Position(start, false)))
  }

  /** CREATE SEQUENCE after its keywords. */
  function ReadSequenceBody(s: string): Option<Sql> {
    match ReadQualified(s)
    case None => None
    case Some(((schema, name), s1)) =>
      match DropPrefix(" AS ", s1)
      case None => None
      case Some(s2) =>
        var (dataType, s3) := ReadWord(s2);
        match ReadOptions(name, dataType, s3)
        case None => None
        case Some(p) => Some(NewSequence(schema, p))
  }

  function ReadTableBody(s: string): Option<Sql> {
    match ReadQualified(s)
    case None => None
    case Some(((schema, name), s1)) =>
      match DropPrefix(" (", s1)
      case None => None
      case Some(s2) =>
        match ReadBody(s2)
        case None => None
        case Some(columns) => Some(NewTable(schema, name, columns))
  }

  function ReadConstraintBody(s: string): Option<Sql> {
    match ReadQualified(s)
    case None => None
    case Some(((schema, table), s1)) =>
      match DropPrefix(" ADD CONSTRAINT ", s1)
      case None => None
      case Some(s2) =>
        match ReadIdent(s2)
        case None => None
        case Some((name, s3)) =>
          match DropPrefix(" ", s3)
          case None => None
          case Some(s4) => if HasSuffix(s4, ";") then Some(NewConstraint(schema, table, name, s4[..|s4| - 1])) else None
  }

  function ReadSchemaBody(s: string): Option<Sql> {
    match ReadIdent(s)
    case None => None
    case Some((name, rest)) => if rest == ";" then Some(NewSchema(name)) else None
  }

  /** A statement, by its keywords. */
  function ReadSql(s: string): Option<Sql> {
    if s == "SET client_encoding = 'UTF8';" then Some(Utf8)
    else if "CREATE SCHEMA IF NOT EXISTS " <= s then ReadSchemaBody(s[28..])
    else if "CREATE SEQUENCE IF NOT EXISTS " <= s then ReadSequenceBody(s[30..])
    else if "CREATE TABLE " <= s then ReadTableBody(s[13..])
    else if "ALTER TABLE " <= s then ReadConstraintBody(s[12..])
    else if ("CREATE INDEX " <= s || "CREATE UNIQUE INDEX " <= s) && HasSuffix(s, ";") then Some(NewIndex(s[..|s| - 1]))
    else
      match ReadSetval(s)
      case None => None
      case Some((schema, name, value)) => Some(Setval(schema, name, value))
  }

  /** The types a sequence can have. */
  const SEQUENCE_TYPES := {"smallint", "integer", "bigint"}

  /** What the server's own functions print: types and defaults as `PrintedColumn` says, the three
      types of sequences, and index definitions that begin with their keywords. */
  ghost predicate Printed(cat: Catalog) {
    && (forall s :: s in cat.sequences ==> s.dataType in SEQUENCE_TYPES)
    && (forall t, c :: t in cat.tables && c in t.columns ==> PrintedColumn(c))
    && (forall t, x :: t in cat.tables && x in t.indexes ==> "CREATE INDEX " <= x.def || "CREATE UNIQUE INDEX " <= x.def)
  }

  lemma {:induction false} ReadsWordBack(word: string, rest: string)
    requires (forall i :: 0 <= i < |word| ==> word[i] != ' ') && (rest == "" || rest[0] == ' ')
    ensures ReadWord(word + rest) == (word, rest)
  {
    if word == "" {
      assert word + rest == rest;
    } else {
      assert (word + rest)[1..] == word[1..] + rest;
      ReadsWordBack(word[1..], rest);
      assert word == [word[0]] + word[1..];
    }
  }

  lemma ReadsOptionBack(keyword: string, n: int, rest: string)
    requires rest != "" && rest[0] == ' '
    ensures ReadOption(keyword, keyword + (Decimal(n) + rest)) == Some((n, rest))
  {
    hide Decimal, ReadDecimal;
    ReadsDecimalBack(n, rest);
    assert (keyword + (Decimal(n) + rest))[|keyword|..] == Decimal(n) + rest;
  }

  /** The options of CREATE SEQUENCE, piece by piece. */
  function OptionsText(s: Sequence): string {
    " INCREMENT BY " + (Decimal(s.incrementBy) + (" MINVALUE " + (Decimal(s.minValue) + (" MAXVALUE " + (Decimal(s.maxValue)
    + (" START WITH " + (Decimal(s.startValue) + if s.cycle then " CYCLE;" else " NO CYCLE;")))))))
  }

  lemma OptionsParts(a: string, b: string, c: string, d: string, cycle: bool)
    ensures " INCREMENT BY " + a + " MINVALUE " + b + " MAXVALUE " + c + " START WITH " + d + " " + (if cycle then "CYCLE" else "NO CYCLE") + ";"
      == " INCREMENT BY " + (a + (" MINVALUE " + (b + (" MAXVALUE " + (c + (" START WITH " + (d + if cycle then " CYCLE;" else " NO CYCLE;")))))))
  {
    assert " " + "CYCLE" + ";" == " CYCLE;" && " " + "NO CYCLE" + ";" == " NO CYCLE;";
  }

  lemma OptionsAre(s: Sequence)
    ensures SequenceOptions(s) + ";" == OptionsText(s)
  {
    hide Decimal;
    OptionsParts(Decimal(s.incrementBy), Decimal(s.minValue), Decimal(s.maxValue), Decimal(s.startValue), s.cycle);
  }

  lemma ReadsOptionsBack(name: string, dataType: string, s: Sequence)
    ensures ReadOptions(name, dataType, OptionsText(s))
      == Some(PgSequence(name, dataType, s.startValue, s.minValue, s.maxValue, s.incrementBy, s.cycle, Position(s.startValue, false)))
  {
    hide Decimal, ReadOption;
    var s4 := if s.cycle then " CYCLE;" else " NO CYCLE;";
    var s3 := " START WITH " + (Decimal(s.startValue) + s4);
    var s2 := " MAXVALUE " + (Decimal(s.maxValue) + s3);
    var s1 := " MINVALUE " + (Decimal(s.minValue) + s2);
    ReadsOptionBack(" START WITH ", s.startValue, s4);
    ReadsOptionBack(" MAXVALUE ", s.maxValue, s3);
    ReadsOptionBack(" MINVALUE ", s.minValue, s2);
    ReadsOptionBack(" INCREMENT BY ", s.incrementBy, s1);
    assert " CYCLE;"[1] != " NO CYCLE;"[1];
  }

  lemma SequenceParts(q: string, typ: string, options: string)
    ensures "CREATE SEQUENCE IF NOT EXISTS " + q + " AS " + typ + options + ";" == "CREATE SEQUENCE IF NOT EXISTS " + (q + (" AS " + (typ + (options + ";"))))
  {}

  lemma OptionsFront(s: Sequence)
    ensures OptionsText(s) != "" && OptionsText(s)[0] == ' '
  {}

  lemma TypeIsWord(dataType: string)
    requires dataType in SEQUENCE_TYPES
    ensures forall i :: 0 <= i < |dataType| ==> dataType[i] != ' '
  {}

  lemma ReadsSequenceBody(schema: string, s: Sequence)
    requires s.dataType in SEQUENCE_TYPES
    ensures ReadSequenceBody(Qualified(schema, s.name) + (" AS " + (s.dataType + OptionsText(s)))) == Some(NewSequence(schema,
      PgSequence(s.name, s.dataType, s.startValue, s.minValue, s.maxValue, s.incrementBy, s.cycle, Position(s.startValue, false))))
  {
    var options := OptionsText(s);
    OptionsFront(s);
    var s2 := s.dataType + options;
    var s1 := " AS " + s2;
    hide OptionsText, Qualified, ReadQualified, ReadOptions, ReadWord;
    TypeIsWord(s.dataType);
    ReadsWordBack(s.dataType, options);
    ReadsQualifiedBack(schema, s.name, s1);
    ReadsOptionsBack(s.name, s.dataType, s);
    assert s1[4..] == s2;
  }

  // Which reader a statement goes to.

  lemma SequenceRead(body: string)
    ensures ReadSql("CREATE SEQUENCE IF NOT EXISTS " + body) == ReadSequenceBody(body)
  {
    hide ReadSequenceBody, ReadSetval, ReadSchemaBody, ReadTableBody, ReadConstraintBody;
    var sql := "CREATE SEQUENCE IF NOT EXISTS " + body;
    assert sql[30..] == body;
    assert sql[0] == 'C' && sql[8] == 'E';
  }

  lemma SchemaRead(body: string)
    ensures ReadSql("CREATE SCHEMA IF NOT EXISTS " + body) == ReadSchemaBody(body)
  {
    hide ReadSequenceBody, ReadSetval, ReadSchemaBody, ReadTableBody, ReadConstraintBody;
    var sql := "CREATE SCHEMA IF NOT EXISTS " + body;
    assert sql[28..] == body;
    assert sql[0] == 'C';
  }

  lemma TableRead(body: string)
    ensures ReadSql("CREATE TABLE " + body) == ReadTableBody(body)
  {
    hide ReadSequenceBody, ReadSetval, ReadSchemaBody, ReadTableBody, ReadConstraintBody;
    var sql := "CREATE TABLE " + body;
    assert sql[13..] == body;
    assert sql[0] == 'C' && sql[7] == 'T';
  }

  lemma ConstraintRead(body: string)
    ensures ReadSql("ALTER TABLE " + body) == ReadConstraintBody(body)
  {
    hide ReadSequenceBody, ReadSetval, ReadSchemaBody, ReadTableBody, ReadConstraintBody;
    var sql := "ALTER TABLE " + body;
    assert sql[12..] == body;
    assert sql[0] == 'A';
  }

  lemma IndexLetters(sql: string)
    requires "CREATE INDEX " <= sql || "CREATE UNIQUE INDEX " <= sql
    ensures |sql| > 7 && sql[0] == 'C' && (sql[7] == 'I' || sql[7] == 'U')
  {
    if "CREATE INDEX " <= sql {
      assert sql[7] == "CREATE INDEX "[7];
    } else {
      assert sql[7] == "CREATE UNIQUE INDEX "[7];
    }
  }

  lemma KeywordDiffers(keyword: string, sql: string, i: nat)
    requires i < |keyword| && i < |sql| && keyword[i] != sql[i]
    ensures !(keyword <= sql)
  {}

  lemma NoOtherKeyword(sql: string)
    requires "CREATE INDEX " <= sql || "CREATE UNIQUE INDEX " <= sql
    ensures sql != "SET client_encoding = 'UTF8';" && !("ALTER TABLE " <= sql)
    ensures !("CREATE SCHEMA IF NOT EXISTS " <= sql) && !("CREATE SEQUENCE IF NOT EXISTS " <= sql) && !("CREATE TABLE " <= sql)
  {
    IndexLetters(sql);
    KeywordDiffers("CREATE SCHEMA IF NOT EXISTS ", sql, 7);
    KeywordDiffers("CREATE SEQUENCE IF NOT EXISTS ", sql, 7);
    KeywordDiffers("CREATE TABLE ", sql, 7);
    KeywordDiffers("ALTER TABLE ", sql, 0);
    KeywordDiffers("SET client_encoding = 'UTF8';", sql, 0);
  }

  /** A statement that begins as an index definition begins as no other. */
  lemma IndexSaid(sql: string)
    requires ("CREATE INDEX " <= sql || "CREATE UNIQUE INDEX " <= sql) && HasSuffix(sql, ";")
    ensures ReadSql(sql) == Some(NewIndex(sql[..|sql| - 1]))
  {
    NoOtherKeyword(sql);
    hide ReadSequenceBody, ReadSetval, ReadSchemaBody, ReadTableBody, ReadConstraintBody;
  }

  lemma IndexFront(def: string)
    requires "CREATE INDEX " <= def || "CREATE UNIQUE INDEX " <= def
    ensures ("CREATE INDEX " <= def + ";" || "CREATE UNIQUE INDEX " <= def + ";") && HasSuffix(def + ";", ";")
  {
    if "CREATE INDEX " <= def {
      KeepsFront("CREATE INDEX ", def, ";");
    } else {
      KeepsFront("CREATE UNIQUE INDEX ", def, ";");
    }
    assert (def + ";")[|def|..] == ";";
  }

  lemma IndexRead(def: string)
    requires "CREATE INDEX " <= def || "CREATE UNIQUE INDEX " <= def
    ensures ReadSql(def + ";") == Some(NewIndex(def))
  {
    hide ReadSequenceBody, ReadSetval, ReadSchemaBody, ReadTableBody, ReadConstraintBody;
    IndexFront(def);
    hide *;
    IndexSaid(def + ";");
    assert (def + ";")[..|def + ";"| - 1] == def;
  }

  lemma SetvalRead(s: string)
    requires "SELECT " <= s
    ensures ReadSql(s) == match ReadSetval(s) case None => None case Some((schema, name, value)) => Some(Setval(schema, name, value))
  {
    hide ReadSequenceBody, ReadSetval, ReadSchemaBody, ReadTableBody, ReadConstraintBody;
    assert s[0] == 'S' && s[2] == 'L';
  }

  // What each statement says.

  /** CREATE SEQUENCE says exactly schema, name, type, increment, bounds, start and cycle. */
  lemma ReadsSequenceBack(schema: string, s: Sequence)
    requires s.dataType in SEQUENCE_TYPES
    ensures ReadSql(SequenceSQL(schema, s)) == Some(NewSequence(schema,
      PgSequence(s.name, s.dataType, s.startValue, s.minValue, s.maxValue, s.incrementBy, s.cycle, Position(s.startValue, false))))
  {
    SequenceParts(Qualified(schema, s.name), s.dataType, SequenceOptions(s));
    OptionsAre(s);
    hide SequenceOptions, OptionsText, Qualified, ReadSequenceBody, ReadSql;
    var body := Qualified(schema, s.name) + (" AS " + (s.dataType + OptionsText(s)));
    SequenceRead(body);
    ReadsSequenceBody(schema, s);
  }

  lemma ReadsSchemaBack(schema: string)
    ensures ReadSql("CREATE SCHEMA IF NOT EXISTS " + QuoteIdent(schema) + ";") == Some(NewSchema(schema))
  {
    hide QuoteIdent, ReadIdent, ReadSql;
    Regroup("CREATE SCHEMA IF NOT EXISTS ", QuoteIdent(schema), ";");
    SchemaRead(QuoteIdent(schema) + ";");
    QuoteIdentLossless(schema, ";");
  }

  lemma TableParts(q: string, lines: string)
    ensures "CREATE TABLE " + q + " (\n" + lines + ");" == "CREATE TABLE " + (q + (" (" + ("\n" + lines + ");")))
  {
    assert " (\n" == " (" + "\n";
  }

  lemma EmptyBody()
    ensures ReadBody("\n" + "" + ");") == Some([])
  {
    assert "\n" + "" + ");" == "\n" + ");" && ");"[0] == ')';
    SimpleWhole("\n");
    ReadsFragmentBack(TOP, "\n", ");", COMMA);
    TrimSpaceOfSpace("\n");
  }

  lemma ReadsBodyBack(cols: seq<Column>)
    requires forall c :: c in cols ==> PrintedColumn(c)
    ensures ReadBody("\n" + ColumnLines(cols) + ");") == Some(TextsOf(cols))
  {
    hide ReadBody, PrintedColumn;
    if cols == [] {
      EmptyBody();
      assert ColumnLines(cols) == "" && TextsOf(cols) == [];
    } else {
      LinesAreItems(cols);
      ReadsColumnsBack(cols);
    }
  }

  /** CREATE TABLE says exactly schema, name and columns: of each column its name, its type,
      whether it takes NULL, and its default. */
  lemma ReadsTableBack(schema: string, t: Table)
    requires forall c :: c in t.columns ==> PrintedColumn(c)
    ensures ReadSql(TableSQL(schema, t)) == Some(NewTable(schema, t.name, TextsOf(t.columns)))
  {
    var s2 := "\n" + ColumnLines(t.columns) + ");";
    ReadsBodyBack(t.columns);
    TableParts(Qualified(schema, t.name), ColumnLines(t.columns));
    hide PrintedColumn, ColumnLines, Qualified, ReadQualified, ReadBody, ReadSql;
    var s1 := " (" + s2;
    TableRead(Qualified(schema, t.name) + s1);
    ReadsQualifiedBack(schema, t.name, s1);
    assert s1[2..] == s2;
  }

  lemma ConstraintParts(q: string, name: string, def: string)
    ensures "ALTER TABLE " + q + " ADD CONSTRAINT " + name + " " + def + ";" == "ALTER TABLE " + (q + (" ADD CONSTRAINT " + (name + (" " + (def + ";")))))
  {}

  /** ALTER TABLE says exactly schema, table, name and definition of the constraint. */
  lemma ReadsConstraintBack(schema: string, table: string, c: Constraint)
    ensures ReadSql(ConstraintSQL(schema, table, c)) == Some(NewConstraint(schema, table, c.name, c.def))
  {
    hide Qualified, ReadQualified, QuoteIdent, ReadIdent, ReadSql;
    ConstraintParts(Qualified(schema, table), QuoteIdent(c.name), c.def);
    var s3 := " " + (c.def + ";");
    var s2 := QuoteIdent(c.name) + s3;
    var s1 := " ADD CONSTRAINT " + s2;
    ConstraintRead(Qualified(schema, table) + s1);
    ReadsQualifiedBack(schema, table, s1);
    assert s1[16..] == s2;
    QuoteIdentLossless(c.name, s3);
    assert s3[1..] == c.def + ";" && (c.def + ";")[..|c.def|] == c.def && (c.def + ";")[|c.def|..] == ";";
  }

  /** What the statement of a step says. */
  function Says(schema: string, step: Step): Option<Sql> {
    match step
    case SetEncoding => Some(Utf8)
    case CreateSchema => Some(NewSchema(schema))
    case CreateSequence(s) =>
      Some(NewSequence(schema,
        PgSequence(s.name, s.dataType, s.startValue, s.minValue, s.maxValue, s.incrementBy, s.cycle, Position(s.startValue, false))))
    case CreateTable(t) => Some(NewTable(schema, t.name, TextsOf(t.columns)))
    case AddConstraint(table, c) => Some(NewConstraint(schema, table, c.name, c.def))
    case CreateIndex(_, index) => Some(NewIndex(index.def))
    case SetValue(name, value) => Some(Setval(schema, name, value))
    case _ => None
  }

  /** A step as the server's own functions print it. */
  predicate PrintedStep(step: Step) {
    match step
    case CreateSequence(s) => s.dataType in SEQUENCE_TYPES
    case CreateTable(t) => forall c :: c in t.columns ==> PrintedColumn(c)
    case CreateIndex(_, index) => "CREATE INDEX " <= index.def || "CREATE UNIQUE INDEX " <= index.def
    case _ => true
  }

  lemma EncodingRead()
    ensures ReadSql("SET client_encoding = 'UTF8';") == Some(Utf8)
  {}

  lemma SetvalFront(schema: string, name: string, value: int)
    ensures "SELECT " <= SetvalSQL(schema, name, value)
  {
    SetvalParts(schema, name, value);
    hide Qualified, Decimal, SetvalSQL;
    var more := Qualified(schema, name) + "'" + (", " + (Decimal(value) + ", true);"));
    assert "SELECT pg_catalog.setval('"[..7] == "SELECT ";
  }

  /** Every statement reads back as what it was printed for, but for the names in a setval. */
  lemma StatementReadsBack(schema: string, step: Step)
    requires StepPiece(schema, step).Statement? && PrintedStep(step) && (step.SetValue? ==> !Unescaped(schema, step.name))
    ensures ReadSql(StepPiece(schema, step).sql) == Says(schema, step)
  {
    hide ReadSql, PrintedColumn, SequenceSQL, TableSQL, ConstraintSQL, SetvalSQL, ReadSetval;
    match step
    case SetEncoding => EncodingRead();
    case CreateSchema => ReadsSchemaBack(schema);
    case CreateSequence(s) => ReadsSequenceBack(schema, s);
    case CreateTable(t) => ReadsTableBack(schema, t);
    case AddConstraint(table, c) => ReadsConstraintBack(schema, table, c);
    case CreateIndex(_, index) => IndexRead(index.def);
    case SetValue(name, value) =>
      SetvalFront(schema, name, value);
      SetvalRead(SetvalSQL(schema, name, value));
      SetvalReadsBack(schema, name, value);
  }

  // -------------------------------------------------- the steps of a plan, as printed

  lemma {:induction false} SequenceStepsOf(ss: seq<Sequence>)
    ensures forall step :: step in SequenceSteps(ss) ==> step.CreateSequence? && step.sequence in ss
  {
    if ss == [] {
    } else {
      SequenceStepsOf(ss[1..]);
    }
  }

  lemma {:induction false} TableStepsOf(ts: seq<Table>)
    ensures forall step :: step in TableSteps(ts) ==> step.Gap? || (step.CreateTable? && step.table in ts)
  {
    if ts == [] {
    } else {
      TableStepsOf(ts[1..]);
    }
  }

  lemma {:induction false} ConstraintStepsAre(name: string, cs: seq<Constraint>, keys: bool)
    ensures forall step :: step in ConstraintStepsOf(name, cs, keys) ==> step.AddConstraint? && step.tableName == name && step.constraint in cs
  {
    if cs == [] {
    } else {
      ConstraintStepsAre(name, cs[1..], keys);
    }
  }

  /** A constraint or an index of a table of the catalog. */
  ghost predicate OfTables(ts: seq<Table>, step: Step) {
    && (step.AddConstraint? ==> exists t :: t in ts && t.name == step.tableName && step.constraint in t.constraints)
    && (step.CreateIndex? ==> exists t :: t in ts && t.name == step.tableName && step.index in t.indexes)
  }

  lemma {:induction false} AllConstraintSteps(ts: seq<Table>, keys: bool)
    ensures forall step :: step in ConstraintSteps(ts, keys) ==> step.AddConstraint? && OfTables(ts, step)
  {
    if ts == [] {
    } else {
      AllConstraintSteps(ts[1..], keys);
      ConstraintStepsAre(ts[0].name, ts[0].constraints, keys);
      forall step | step in ConstraintSteps(ts, keys) ensures step.AddConstraint? && OfTables(ts, step) {
        if step in ConstraintSteps(ts[1..], keys) {
          var t :| t in ts[1..] && t.name == step.tableName && step.constraint in t.constraints;
          assert t in ts;
        } else {
          assert ts[0] in ts;
        }
      }
    }
  }

  lemma {:induction false} IndexStepsAre(name: string, indexes: seq<Index>)
    ensures forall step :: step in IndexStepsOf(name, indexes) ==> step.CreateIndex? && step.tableName == name && step.index in indexes
  {
    if indexes == [] {
    } else {
      IndexStepsAre(name, indexes[1..]);
    }
  }

  lemma {:induction false} AllIndexSteps(ts: seq<Table>)
    ensures forall step :: step in IndexSteps(ts) ==> step.CreateIndex? && OfTables(ts, step)
  {
    if ts == [] {
    } else {
      AllIndexSteps(ts[1..]);
      IndexStepsAre(ts[0].name, ts[0].indexes);
      forall step | step in IndexSteps(ts) ensures step.CreateIndex? && OfTables(ts, step) {
        if step in IndexSteps(ts[1..]) {
          var t :| t in ts[1..] && t.name == step.tableName && step.index in t.indexes;
          assert t in ts;
        } else {
          assert ts[0] in ts;
        }
      }
    }
  }

  lemma {:induction false} SetvalStepsSet(ss: seq<Sequence>)
    ensures forall step :: step in SetvalSteps(ss) ==> step.SetValue?
  {
    if ss == [] {
    } else {
      SetvalStepsSet(ss[1..]);
    }
  }

  /** Where the steps of a plan come from. */
  ghost predicate OfCatalog(cat: Catalog, step: Step) {
    && (step.CreateSequence? ==> step.sequence in cat.sequences)
    && (step.CreateTable? ==> step.table in cat.tables)
    && (step.LoadTable? ==> step.table in cat.tables)
    && OfTables(cat.tables, step)
  }

  lemma NeitherOf(ts: seq<Table>, step: Step)
    ensures !step.AddConstraint? && !step.CreateIndex? ==> OfTables(ts, step)
  {}

  lemma PlanOfCatalog(cat: Catalog)
    ensures forall step :: step in Plan(cat) ==> OfCatalog(cat, step)
  {
    var ss, ts := cat.sequences, cat.tables;
    SequenceStepsOf(ss);
    TableStepsOf(ts);
    LoadStepsLoad(ts);
    AllConstraintSteps(ts, true);
    AllConstraintSteps(ts, false);
    AllIndexSteps(ts);
    SetvalStepsSet(ss);
    hide OfTables, SequenceSteps, TableSteps, LoadSteps, ConstraintSteps, IndexSteps, SetvalSteps;
    forall step | step in Plan(cat) ensures OfCatalog(cat, step) {
      assert step in Header(cat) || step.Gap? || step in SequenceSteps(ss) || step in TableSteps(ts) || step in LoadSteps(ts)
        || step in ConstraintSteps(ts, true) || step in ConstraintSteps(ts, false) || step in IndexSteps(ts) || step in SetvalSteps(ss);
      assert !step.AddConstraint? && !step.CreateIndex? ==> OfTables(ts, step) by { NeitherOf(ts, step); }
    }
  }

  lemma StepIsPrinted(cat: Catalog, step: Step)
    requires Printed(cat) && OfCatalog(cat, step)
    ensures PrintedStep(step)
  {
    hide PrintedColumn;
  }

  lemma KeywordLetter(step: Step, sql: string)
    requires step.SetEncoding? || step.CreateSchema? || step.CreateSequence? || step.CreateTable?
          || step.AddConstraint? || step.SetValue?
    requires Keyword(step) <= sql
    ensures sql != "" && sql[0] in "SCA"
  {
    assert Keyword(step)[0] in "SCA";
  }

  lemma StatementFront(schema: string, step: Step)
    requires StepPiece(schema, step).Statement? && PrintedStep(step)
    ensures StepPiece(schema, step).sql != "" && StepPiece(schema, step).sql[0] in "SCA"
  {
    hide SequenceSQL, TableSQL, ConstraintSQL, SetvalSQL, PrintedColumn, Keyword;
    if step.CreateIndex? {
      assert step.index.def[0] == 'C' && (step.index.def + ";")[0] == 'C';
    } else {
      StatementKeyword(schema, step);
      KeywordLetter(step, StepPiece(schema, step).sql);
    }
  }

  lemma StatementEnd(schema: string, step: Step)
    requires StepPiece(schema, step).Statement?
    ensures var sql := StepPiece(schema, step).sql; sql != "" && sql[|sql| - 1] == ';'
  {
    StepWellShaped(schema, step);
    hide StepPiece;
  }

  lemma TightTrims(sql: string)
    requires sql != "" && sql[0] in "SCA" && sql[|sql| - 1] == ';'
    ensures TrimSpace(sql) == sql
  {
    hide TrimSpace;
    assert "" + sql + "" == sql;
    TrimSpaceCore("", sql, "");
  }

  /** A printed statement has no white space around it. */
  lemma StatementTight(schema: string, step: Step)
    requires StepPiece(schema, step).Statement? && PrintedStep(step)
    ensures TrimSpace(StepPiece(schema, step).sql) == StepPiece(schema, step).sql
  {
    hide *;
    StatementFront(schema, step);
    StatementEnd(schema, step);
    TightTrims(StepPiece(schema, step).sql);
  }

  /** `COPY "schema"."table" FROM stdin`. */
  function ReadCopy(s: string): Option<(string, string)> {
    match DropPrefix("COPY ", s)
    case None => None
    case Some(s1) =>
      match ReadQualified(s1)
      case None => None
      case Some((target, rest)) => if rest == " FROM stdin" then Some(target) else None
  }

  lemma ReadsCopyBack(schema: string, name: string)
    ensures ReadCopy(CopySQL(Qualified(schema, name))) == Some((schema, name))
  {
    hide Qualified, ReadQualified;
    var q := Qualified(schema, name);
    assert CopySQL(q) == "COPY " + (q + " FROM stdin");
    assert CopySQL(q)[5..] == q + " FROM stdin";
    ReadsQualifiedBack(schema, name, " FROM stdin");
  }
}
