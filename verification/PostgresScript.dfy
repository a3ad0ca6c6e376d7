/** The text format of a logical dump, and what `replay` makes of a text
    (internal/service/postgres_restore.go): it cuts the text into lines and rebuilds
    statements and COPY blocks from them without an SQL lexer. */
module PostgresScript {
  import opened Text

  /** What a replay asks of the server. */
  datatype Action = Exec(sql: string) | CopyFrom(sql: string, data: string)

  /** The actions a text leads to; `complete` is false when the text ends inside COPY data. */
  datatype Replayed = Replayed(actions: seq<Action>, complete: bool)

  function Prepend(a: Action, r: Replayed): Replayed {
    r.(actions := [a] + r.actions)
  }

  predicate IsCopyHeader(trimmed: string) {
    "COPY " <= trimmed && HasSuffix(trimmed, "FROM stdin;")
  }

  const END_OF_DATA := "\\."

  /** COPY data up to its end marker, with what follows the marker; None when the text
      ends before the marker does. */
  function CopyData(text: string): (r: Option<(string, string)>)
    ensures r.Some? ==> |r.value.1| < |text|
    decreases |text|
  {
    if text == "" then None else
      var (raw, rest) := CutLine(text);
      if raw == END_OF_DATA then Some(("", rest))
      else if raw == text then None
      else match CopyData(rest)
        case None => None
        case Some((data, after)) => Some((raw + "\n" + data, after))
  }

  /** The whole of `replay`, from a statement buffer and the text still to be read. */
  function ReplayText(buf: string, text: string): Replayed
    decreases |text|
  {
    if text == "" then Replayed([], true) else
      var (raw, rest) := CutLine(text);
      var trimmed := TrimSpace(raw);
      if buf == "" && IsCopyHeader(trimmed) then
        match CopyData(rest)
        case None => Replayed([], false)
        case Some((data, after)) => Prepend(CopyFrom(trimmed[..|trimmed| - 1], data), ReplayText("", after))
      else if buf == "" && (trimmed == "" || "--" <= trimmed) then ReplayText("", rest)
      else if HasSuffix(trimmed, ";") then Prepend(Exec(TrimSpace(buf + raw + "\n")), ReplayText("", rest))
      else ReplayText(buf + raw + "\n", rest)
  }

  // ------------------------------------------------------------------- the script

  /** What `dump` writes, piece by piece. */
  datatype Piece =
    | Blank
    | Comment(text: string)
    | Statement(sql: string)
    | CopyBlock(target: string, rows: string)

  function CopySQL(target: string): string {
    "COPY " + target + " FROM stdin"
  }

  function PieceText(p: Piece): string {
    match p
    case Blank => "\n"
    case Comment(text) => text + "\n"
    case Statement(sql) => sql + "\n"
    case CopyBlock(target, rows) => CopySQL(target) + ";\n" + rows + "\\.\n"
  }

  function PieceActions(p: Piece): seq<Action> {
    match p
    case Blank => []
    case Comment(_) => []
    case Statement(sql) => [Exec(TrimSpace(sql))]
    case CopyBlock(target, rows) => [CopyFrom(CopySQL(target), rows)]
  }

  function ScriptText(ps: seq<Piece>): string {
    if ps == [] then "" else PieceText(ps[0]) + ScriptText(ps[1..])
  }

  function ScriptActions(ps: seq<Piece>): seq<Action> {
    if ps == [] then [] else PieceActions(ps[0]) + ScriptActions(ps[1..])
  }

  /** Every statement a dump writes ends in a semicolon, every comment is one line. */
  predicate WellShaped(p: Piece) {
    match p
    case Statement(sql) => sql != "" && sql[|sql| - 1] == ';'
    case Comment(text) => "--" <= text && '\n' !in text
    case _ => true
  }

  // ------------------------------------------- when a piece survives the round trip

  /** A semicolon at `j` that closes the line ending at `i`. */
  predicate TerminatorAt(s: string, j: int, i: int) {
    0 <= j < i < |s| && s[j] == ';' && s[i] == '\n' && forall k :: j < k < i ==> IsSpace(s[k])
  }

  ghost predicate NoInnerTerminator(s: string) {
    forall j, i :: !TerminatorAt(s, j, i)
  }

  ghost predicate StatementReplays(sql: string) {
    && NoInnerTerminator(sql)
    && !("--" <= TrimSpace(sql))
    && !(IsCopyHeader(TrimSpace(sql)) && '\n' !in TrimSpace(sql))
  }

  /** Newline-terminated lines, none of which is the end marker. */
  predicate CopyRows(rows: string)
    decreases |rows|
  {
    rows == "" || (var (raw, rest) := CutLine(rows); raw != rows && raw != END_OF_DATA && CopyRows(rest))
  }

  ghost predicate PieceReplays(p: Piece) {
    match p
    case Statement(sql) => StatementReplays(sql)
    case CopyBlock(target, rows) => '\n' !in target && CopyRows(rows)
    case _ => true
  }

  // -------------------------------------------------------------------- line lemmas

  /** A line ends a statement exactly when only white space follows its last semicolon. */
  lemma ClosedLine(raw: string, j: nat)
    requires j < |raw| && raw[j] == ';' && AllSpace(raw[j + 1..])
    ensures HasSuffix(TrimSpace(raw), ";")
  {
    hide TrimSpace, TrimLeft, TrimRight;
    var front := raw[..j + 1];
    var a := TrimLeftSplits(front);
    var t := TrimLeft(front);
    assert front == a + t && front[j] == ';';
    assert forall k :: 0 <= k < |a| ==> front[k] == a[k];
    assert t[|t| - 1] == front[j];
    assert raw == a + t + raw[j + 1..];
    TrimSpaceCore(a, t, raw[j + 1..]);
    assert t[|t| - 1..] == ";";
  }

  lemma ClosedLineAt(raw: string) returns (j: nat)
    requires HasSuffix(TrimSpace(raw), ";")
    ensures j < |raw| && raw[j] == ';' && forall k :: j < k < |raw| ==> IsSpace(raw[k])
  {
    var a, b := TrimSpaceSplits(raw);
    var t := TrimSpace(raw);
    j := |a| + |t| - 1;
    assert t[|t| - 1] == ';';
    forall k | j < k < |raw| ensures IsSpace(raw[k]) {
      assert raw[k] == b[k - |a| - |t|];
    }
  }

  /** Trimming a longer text: the trimmed front stays in front, the white space trimmed
      off its end comes back, and more follows. */
  lemma TrimSpaceExtends(x: string, y: string) returns (gap: string, core: string)
    requires TrimSpace(x) != "" && TrimSpace(y) != ""
    ensures TrimSpace(x + y) == TrimSpace(x) + gap + core && core != "" && core <= y
    ensures AllSpace(gap) && (IsSpace(x[|x| - 1]) ==> gap != "")
  {
    var a, b := TrimSpaceSplits(x);
    var c, d := TrimSpaceSplits(y);
    gap := b;
    core := c + TrimSpace(y);
    var t := TrimSpace(x) + gap + core;
    assert x + y == a + t + d;
    TrimSpaceCore(a, t, d);
  }

  /** Blank text at the end is trimmed away. */
  lemma TrimSpaceDrops(x: string, y: string)
    requires AllSpace(y)
    ensures TrimSpace(x + y) == TrimSpace(x)
  {
    var a, b := TrimSpaceSplits(x);
    if TrimSpace(x) == "" {
      assert x == a + b;
      TrimSpaceOfSpace(x + y);
    } else {
      assert x + y == a + TrimSpace(x) + (b + y);
      TrimSpaceCore(a, TrimSpace(x), b + y);
    }
  }

  /** Blank text at the front is trimmed away. */
  lemma TrimSpaceSkips(x: string, y: string)
    requires AllSpace(x)
    ensures TrimSpace(x + y) == TrimSpace(y)
  {
    var a, b := TrimSpaceSplits(y);
    if TrimSpace(y) == "" {
      assert y == a + b;
      TrimSpaceOfSpace(x + y);
    } else {
      assert x + y == (x + a) + TrimSpace(y) + b;
      TrimSpaceCore(x + a, TrimSpace(y), b);
    }
  }

  lemma TrimSpaceBlank(x: string)
    requires TrimSpace(x) == ""
    ensures AllSpace(x)
  {
    var a, b := TrimSpaceSplits(x);
    assert x == a + b;
  }

  lemma TrimSpaceOneLine(x: string)
    requires '\n' !in x
    ensures '\n' !in TrimSpace(x)
  {
    var a, b := TrimSpaceSplits(x);
    assert forall c :: c in TrimSpace(x) ==> c in x;
  }

  /** Trimming keeps tight text at the front of a line. */
  lemma TrimSpaceKeeps(front: string, s: string)
    requires Tight(front) && front <= s
    ensures front <= TrimSpace(s)
  {
    var b := TrimRightSplits(s);
    assert TrimLeft(s) == s;
    assert forall k :: |TrimRight(s)| <= k < |s| ==> s[k] == b[k - |TrimRight(s)|];
    assert s[|front| - 1] == front[|front| - 1];
    assert TrimRight(s)[..|front|] == s[..|front|];
  }

  lemma DashPrefix(t: string, more: string)
    requires t != "" && more != "" && IsSpace(more[0])
    ensures "--" <= t + more <==> "--" <= t
  {
    if "--" <= t + more {
      assert (t + more)[..2] == "--";
      assert (t + more)[0] == '-' && (t + more)[1] == '-';
      assert |t| >= 2;
      assert t[..2] == (t + more)[..2];
    }
    if "--" <= t {
      assert (t + more)[..2] == t[..2];
    }
  }

  // -------------------------------------------------------------- one statement back

  lemma PrefixTerminator(raw: string, more: string)
    requires HasSuffix(TrimSpace(raw), ";")
    ensures !NoInnerTerminator(raw + "\n" + more)
  {
    var j := ClosedLineAt(raw);
    assert TerminatorAt(raw + "\n" + more, j, |raw|);
  }

  lemma TerminatorInLine(raw: string, more: string, j: int, i: int)
    requires '\n' !in raw && TerminatorAt(raw + "\n" + more, j, i) && j < |raw|
    ensures HasSuffix(TrimSpace(raw), ";")
  {
    var s := raw + "\n" + more;
    assert forall k :: 0 <= k < |raw| ==> s[k] == raw[k] && raw[k] != '\n';
    ClosedLine(raw, j);
  }

  /** A first line that does not close the statement holds none of its terminators. */
  lemma TerminatorsAfterLine(raw: string, more: string)
    requires '\n' !in raw && !HasSuffix(TrimSpace(raw), ";")
    ensures NoInnerTerminator(raw + "\n" + more) <==> NoInnerTerminator(more)
  {
    var s, n := raw + "\n" + more, |raw| + 1;
    forall j, i | TerminatorAt(s, j, i) ensures TerminatorAt(more, j - n, i - n) {
      if j < |raw| {
        TerminatorInLine(raw, more, j, i);
        assert false;
      }
      forall k | j - n < k < i - n ensures IsSpace(more[k]) { assert more[k] == s[k + n]; }
    }
    forall j, i | TerminatorAt(more, j, i) ensures TerminatorAt(s, j + n, i + n) {
      forall k | j + n < k < i + n ensures IsSpace(s[k]) { assert s[k] == more[k - n]; }
    }
  }

  lemma AfterNewline(raw: string, more: string)
    requires (raw + "\n" + more)[|raw + "\n" + more| - 1] == ';'
    ensures more != "" && more[|more| - 1] == ';'
  {}

  lemma OneLine(s: string)
    requires '\n' !in s
    ensures NoInnerTerminator(s)
  {}

  lemma ClosedStatement(s: string)
    requires s != "" && s[|s| - 1] == ';'
    ensures HasSuffix(TrimSpace(s), ";")
  {
    assert s[|s| - 1 + 1..] == "";
    ClosedLine(s, |s| - 1);
  }

  function ReplayedInside(buf: string, raw: string, rest: string): Replayed {
    if HasSuffix(TrimSpace(raw), ";") then Prepend(Exec(TrimSpace(buf + raw + "\n")), ReplayText("", rest))
    else ReplayText(buf + raw + "\n", rest)
  }

  /** One line read while a statement is being collected. */
  lemma ReplayInside(buf: string, raw: string, rest: string)
    requires buf != "" && '\n' !in raw
    ensures ReplayText(buf, raw + "\n" + rest) == ReplayedInside(buf, raw, rest)
  {
    CutLineAt(raw, rest);
  }

  /** One line read between statements. */
  lemma ReplayBetween(raw: string, rest: string)
    requires '\n' !in raw
    ensures var trimmed := TrimSpace(raw);
            ReplayText("", raw + "\n" + rest) ==
            if IsCopyHeader(trimmed) then
              match CopyData(rest)
              case None => Replayed([], false)
              case Some((data, after)) => Prepend(CopyFrom(trimmed[..|trimmed| - 1], data), ReplayText("", after))
            else if trimmed == "" || "--" <= trimmed then ReplayText("", rest)
            else if HasSuffix(trimmed, ";") then Prepend(Exec(TrimSpace(raw + "\n")), ReplayText("", rest))
            else ReplayText(raw + "\n", rest)
  {
    CutLineAt(raw, rest);
    assert "" + raw + "\n" == raw + "\n";
  }

  lemma SplitStatement(s: string, rest: string) returns (raw: string, more: string)
    requires '\n' in s
    ensures '\n' !in raw && s == raw + "\n" + more && |more| < |s|
    ensures s + "\n" + rest == raw + "\n" + (more + "\n" + rest)
  {
    raw, more := CutLine(s).0, CutLine(s).1;
  }

  lemma BufferGrows(buf: string, raw: string, more: string)
    ensures buf + raw + "\n" + (more + "\n") == buf + (raw + "\n" + more) + "\n"
    ensures buf + raw + "\n" + more + "\n" == buf + (raw + "\n" + more) + "\n"
  {}

  /** The rest of a statement whose buffer has been started. */
  lemma {:induction false} StatementTail(buf: string, s: string, rest: string)
    requires buf != "" && s != "" && s[|s| - 1] == ';' && NoInnerTerminator(s)
    ensures ReplayText(buf, s + "\n" + rest) == Prepend(Exec(TrimSpace(buf + s + "\n")), ReplayText("", rest))
    decreases |s|
  {
    if '\n' in s {
      var raw, more := SplitStatement(s, rest);
      if HasSuffix(TrimSpace(raw), ";") {
        PrefixTerminator(raw, more);
        assert false;
      }
      TerminatorsAfterLine(raw, more);
      AfterNewline(raw, more);
      ReplayInside(buf, raw, more + "\n" + rest);
      StatementTail(buf + raw + "\n", more, rest);
      BufferGrows(buf, raw, more);
    } else {
      ClosedStatement(s);
      ReplayInside(buf, s, rest);
    }
  }

  lemma NonBlank(s: string, j: nat)
    requires j < |s| && !IsSpace(s[j])
    ensures TrimSpace(s) != ""
  {
    var a, b := TrimSpaceSplits(s);
    forall k | 0 <= k < |s| && (k < |a| || |a| + |TrimSpace(s)| <= k) ensures IsSpace(s[k]) {
      assert s[k] == if k < |a| then a[k] else b[k - |a| - |TrimSpace(s)|];
    }
  }

  lemma ShorterWhenCut(buf: string, raw: string, more: string)
    requires HasSuffix(TrimSpace(raw), ";") && more != "" && more[|more| - 1] == ';'
    ensures |TrimSpace(buf + raw + "\n")| < |TrimSpace(buf + (raw + "\n" + more) + "\n")|
  {
    var j := ClosedLineAt(raw);
    ClosedStatement(more);
    TrimSpaceDrops(more, "\n");
    NonBlank(buf + raw + "\n", |buf| + j);
    var gap, core := TrimSpaceExtends(buf + raw + "\n", more + "\n");
    BufferGrows(buf, raw, more);
  }

  /** An inner terminator cuts the statement short: the first thing run is shorter. */
  lemma {:induction false} StatementCutShort(buf: string, s: string, rest: string)
    requires buf != "" && s != "" && s[|s| - 1] == ';' && !NoInnerTerminator(s)
    ensures var r := ReplayText(buf, s + "\n" + rest);
            r.actions != [] && r.actions[0].Exec? && |r.actions[0].sql| < |TrimSpace(buf + s + "\n")|
    decreases |s|
  {
    var raw, more := SplitStatement(s, rest);
    AfterNewline(raw, more);
    ReplayInside(buf, raw, more + "\n" + rest);
    BufferGrows(buf, raw, more);
    if HasSuffix(TrimSpace(raw), ";") {
      ShorterWhenCut(buf, raw, more);
    } else {
      TerminatorsAfterLine(raw, more);
      StatementCutShort(buf + raw + "\n", more, rest);
    }
  }

  // ----------------------------------------------------------- one piece of a script

  ghost predicate Begins(r: Replayed, a: Action) {
    r.actions != [] && r.actions[0] == a
  }

  lemma CollectedLine(buf: string, raw: string)
    requires buf != "" && buf[|buf| - 1] == '\n' && TrimSpace(buf) != "" && !("--" <= TrimSpace(buf))
    ensures TrimSpace(buf + raw + "\n") != "" && !("--" <= TrimSpace(buf + raw + "\n"))
  {
    var line := raw + "\n";
    assert buf + raw + "\n" == buf + line;
    if TrimSpace(line) == "" {
      TrimSpaceBlank(line);
      TrimSpaceDrops(buf, line);
    } else {
      var gap, core := TrimSpaceExtends(buf, line);
      assert TrimSpace(buf + line) == TrimSpace(buf) + (gap + core);
      DashPrefix(TrimSpace(buf), gap + core);
    }
  }

  /** Nothing that starts like a comment is ever run. */
  lemma {:induction false} CommentsAreNotRun(buf: string, text: string)
    requires buf != "" ==> buf[|buf| - 1] == '\n' && TrimSpace(buf) != "" && !("--" <= TrimSpace(buf))
    ensures var r := ReplayText(buf, text); r.actions != [] && r.actions[0].Exec? ==> !("--" <= r.actions[0].sql)
    decreases |text|
  {
    if text == "" {
    } else {
      var (raw, rest) := CutLine(text);
      if buf != "" {
        CollectedLine(buf, raw);
      } else {
        TrimSpaceDrops(raw, "\n");
        assert "" + raw + "\n" == raw + "\n";
      }
      if buf == "" && !IsCopyHeader(TrimSpace(raw)) && (TrimSpace(raw) == "" || "--" <= TrimSpace(raw)) {
        CommentsAreNotRun("", rest);
      } else if (buf != "" || !IsCopyHeader(TrimSpace(raw))) && !HasSuffix(TrimSpace(raw), ";") {
        CommentsAreNotRun(buf + raw + "\n", rest);
      }
    }
  }

  lemma {:induction false} InsideRunsFirst(buf: string, text: string)
    requires buf != ""
    ensures var r := ReplayText(buf, text); r.actions != [] ==> r.actions[0].Exec?
    decreases |text|
  {
    if text == "" {
    } else {
      InsideRunsFirst(buf + CutLine(text).0 + "\n", CutLine(text).1);
    }
  }

  /** `r` is what is replayed of a statement and the rest, `tail` what is of the rest: the
      statement comes back first and whole if it can, and else not at all. */
  ghost predicate ComesBackIn(s: string, r: Replayed, tail: Replayed) {
    if StatementReplays(s) then r == Prepend(Exec(TrimSpace(s)), tail) else !Begins(r, Exec(TrimSpace(s)))
  }

  ghost predicate ComesBack(s: string, rest: string) {
    ComesBackIn(s, ReplayText("", s + "\n" + rest), ReplayText("", rest))
  }

  lemma OneLineComesBack(s: string, rest: string, r: Replayed, tail: Replayed)
    requires s != "" && s[|s| - 1] == ';' && '\n' !in s
    requires r == ReplayText("", s + "\n" + rest) && tail == ReplayText("", rest)
    ensures ComesBackIn(s, r, tail)
  {
    var t := TrimSpace(s);
    assert HasSuffix(t, ";") by { ClosedStatement(s); }
    assert StatementReplays(s) <==> !("--" <= t) && !IsCopyHeader(t) by {
      OneLine(s);
      TrimSpaceOneLine(s);
    }
    assert TrimSpace(s + "\n") == t by { TrimSpaceDrops(s, "\n"); }
    ReplayBetween(s, rest);
    if "--" <= t {
      CommentsAreNotRun("", rest);
    }
  }

  lemma BlankFirstLineComesBack(raw: string, more: string, r: Replayed, tail: Replayed)
    requires TrimSpace(raw) == "" && '\n' !in raw && ComesBackIn(more, r, tail)
    ensures ComesBackIn(raw + "\n" + more, r, tail)
  {
    TrimSpaceBlank(raw);
    TrimSpaceSkips(raw + "\n", more);
    TerminatorsAfterLine(raw, more);
  }

  lemma FirstOfMany(front: string, gap: string, core: string)
    requires front != "" && AllSpace(gap) && core != "" && core[0] == '\n'
    ensures var t := front + gap + core;
            '\n' in t && |front| < |t| && ("--" <= t <==> "--" <= front)
  {
    var t := front + gap + core;
    assert t == front + (gap + core);
    assert t[|front| + |gap|] == '\n';
    DashPrefix(front, gap + core);
  }

  /** What the trimmed text of several lines owes to its first, non-blank line. */
  lemma FirstLineOf(raw: string, more: string)
    requires TrimSpace(raw) != "" && more != "" && more[|more| - 1] == ';'
    ensures var t := TrimSpace(raw + "\n" + more);
            '\n' in t && |TrimSpace(raw)| < |t| && ("--" <= t <==> "--" <= TrimSpace(raw))
  {
    var y := "\n" + more;
    NonBlank(y, |y| - 1);
    var gap, core := TrimSpaceExtends(raw, y);
    assert raw + "\n" + more == raw + y;
    FirstOfMany(TrimSpace(raw), gap, core);
  }

  /** A first line that `replay` skips or takes for a COPY header. */
  lemma MisreadFirstLine(raw: string, more: string, rest: string, r: Replayed, tail: Replayed)
    requires '\n' !in raw && more != "" && more[|more| - 1] == ';'
    requires IsCopyHeader(TrimSpace(raw)) || "--" <= TrimSpace(raw)
    requires r == ReplayText("", raw + "\n" + more + "\n" + rest)
    ensures ComesBackIn(raw + "\n" + more, r, tail)
  {
    hide ReplayText, TrimSpace, NoInnerTerminator, CutLine;
    FirstLineOf(raw, more);
    ReplayBetween(raw, more + "\n" + rest);
    assert raw + "\n" + more + "\n" + rest == raw + "\n" + (more + "\n" + rest);
    if IsCopyHeader(TrimSpace(raw)) {
      PrefixTerminator(raw, more);
    } else {
      CommentsAreNotRun("", more + "\n" + rest);
    }
  }

  /** A first line that `replay` starts a statement with, and that closes it too soon ... */
  lemma ClosedTooSoon(raw: string, more: string, rest: string, r: Replayed, tail: Replayed)
    requires '\n' !in raw && more != "" && more[|more| - 1] == ';' && HasSuffix(TrimSpace(raw), ";")
    requires TrimSpace(raw) != "" && !IsCopyHeader(TrimSpace(raw)) && !("--" <= TrimSpace(raw))
    requires r == ReplayText("", raw + "\n" + (more + "\n" + rest))
    ensures ComesBackIn(raw + "\n" + more, r, tail)
  {
    hide ReplayText, TrimSpace, NoInnerTerminator, CutLine;
    FirstLineOf(raw, more);
    ReplayBetween(raw, more + "\n" + rest);
    TrimSpaceDrops(raw, "\n");
    PrefixTerminator(raw, more);
  }

  /** ... or that leaves it open. */
  lemma LeftOpen(raw: string, more: string, rest: string, r: Replayed, tail: Replayed)
    requires '\n' !in raw && more != "" && more[|more| - 1] == ';' && !HasSuffix(TrimSpace(raw), ";")
    requires TrimSpace(raw) != "" && !IsCopyHeader(TrimSpace(raw)) && !("--" <= TrimSpace(raw))
    requires r == ReplayText("", raw + "\n" + (more + "\n" + rest)) && tail == ReplayText("", rest)
    ensures ComesBackIn(raw + "\n" + more, r, tail)
  {
    hide ReplayText, TrimSpace, NoInnerTerminator, CutLine;
    var s := raw + "\n" + more;
    assert '\n' in TrimSpace(s) && ("--" <= TrimSpace(s) <==> "--" <= TrimSpace(raw)) by { FirstLineOf(raw, more); }
    assert r == ReplayText(raw + "\n", more + "\n" + rest) by { ReplayBetween(raw, more + "\n" + rest); }
    assert NoInnerTerminator(s) <==> NoInnerTerminator(more) by { TerminatorsAfterLine(raw, more); }
    assert TrimSpace(s + "\n") == TrimSpace(s) by { TrimSpaceDrops(s, "\n"); }
    assert raw + "\n" + more + "\n" == s + "\n";
    if NoInnerTerminator(more) {
      StatementTail(raw + "\n", more, rest);
    } else {
      StatementCutShort(raw + "\n", more, rest);
    }
  }

  /** A statement printed on lines of its own comes back, trimmed, as the first thing run
      exactly when it `StatementReplays`. */
  lemma {:induction false} StatementRoundTrip(s: string, rest: string)
    requires s != "" && s[|s| - 1] == ';'
    ensures ComesBack(s, rest)
    decreases |s|
  {
    var r, tail := ReplayText("", s + "\n" + rest), ReplayText("", rest);
    if '\n' !in s {
      OneLineComesBack(s, rest, r, tail);
    } else {
      var raw, more := SplitStatement(s, rest);
      AfterNewline(raw, more);
      if TrimSpace(raw) == "" {
        StatementRoundTrip(more, rest);
        ReplayBetween(raw, more + "\n" + rest);
        assert raw + "\n" + more + "\n" + rest == raw + "\n" + (more + "\n" + rest);
        BlankFirstLineComesBack(raw, more, r, tail);
      } else if IsCopyHeader(TrimSpace(raw)) || "--" <= TrimSpace(raw) {
        MisreadFirstLine(raw, more, rest, r, tail);
      } else {
        assert raw + "\n" + more + "\n" + rest == raw + "\n" + (more + "\n" + rest);
        if HasSuffix(TrimSpace(raw), ";") {
          ClosedTooSoon(raw, more, rest, r, tail);
        } else {
          LeftOpen(raw, more, rest, r, tail);
        }
      }
    }
  }

  /** COPY data followed by the end marker is read back exactly, or not at all. */
  lemma {:induction false} CopyDataRoundTrip(rows: string, rest: string)
    ensures var r := CopyData(rows + "\\.\n" + rest);
            if CopyRows(rows) then r == Some((rows, rest)) else r.None? || r.value.0 != rows
    decreases |rows|
  {
    var text := rows + "\\.\n" + rest;
    if rows == "" {
      assert text == END_OF_DATA + "\n" + rest;
      CutLineAt(END_OF_DATA, rest);
    } else {
      var (raw, more) := CutLine(rows);
      if raw == rows {
        assert text == (rows + "\\.") + "\n" + rest;
        CutLineAt(rows + "\\.", rest);
      } else {
        assert text == raw + "\n" + (more + "\\.\n" + rest);
        CutLineAt(raw, more + "\\.\n" + rest);
        CopyDataRoundTrip(more, rest);
        var r := CopyData(more + "\\.\n" + rest);
        assert r.Some? && raw + "\n" + r.value.0 == rows ==> (raw + "\n" + r.value.0)[|raw| + 1..] == rows[|raw| + 1..];
      }
    }
  }

  lemma CopyHeaderLine(target: string)
    ensures IsCopyHeader(CopySQL(target) + ";") && TrimSpace(CopySQL(target) + ";") == CopySQL(target) + ";"
  {
    var h := CopySQL(target) + ";";
    assert h == "COPY " + target + " FROM stdin;";
    assert h[..5] == "COPY ";
    assert h[|h| - |"FROM stdin;"|..] == "FROM stdin;";
    assert h[0] == 'C' && h[|h| - 1] == ';';
    assert h == "" + h + "";
    TrimSpaceCore("", h, "");
  }

  lemma BrokenHeaderText(front: string, back: string, tail: string)
    ensures CopySQL(front + "\n" + back) + ";" + "\n" + tail == "COPY " + front + "\n" + (back + " FROM stdin;\n" + tail)
    ensures "COPY" <= "COPY " + front
  {
    assert " FROM stdin" + ";" + "\n" == " FROM stdin;\n";
    assert ("COPY " + front)[..4] == "COPY";
  }

  /** A newline in the target breaks the header line. */
  lemma BrokenHeader(target: string, tail: string)
    requires '\n' in target
    ensures var r := ReplayText("", CopySQL(target) + ";" + "\n" + tail);
            r.actions != [] && r.actions[0].CopyFrom? ==> r.actions[0].sql != CopySQL(target)
  {
    var front, back := CutLine(target).0, CutLine(target).1;
    var raw, rest := "COPY " + front, back + " FROM stdin;\n" + tail;
    BrokenHeaderText(front, back, tail);
    assert '\n' in CopySQL(target) by {
      assert CopySQL(target)[5 + |front|] == '\n';
    }
    TrimSpaceOneLine(raw);
    TrimSpaceKeeps("COPY", raw);
    ReplayBetween(raw, rest);
    InsideRunsFirst(raw + "\n", rest);
    assert forall c :: c in TrimSpace(raw)[..|TrimSpace(raw)| - 1] ==> c in TrimSpace(raw);
  }

  /** A COPY block comes back, header and rows, exactly when it `PieceReplays`. */
  lemma CopyBlockRoundTrip(target: string, rows: string, rest: string)
    ensures var r := ReplayText("", PieceText(CopyBlock(target, rows)) + rest);
            var a := CopyFrom(CopySQL(target), rows);
            if PieceReplays(CopyBlock(target, rows)) then r == Prepend(a, ReplayText("", rest)) else !Begins(r, a)
  {
    hide ReplayText, TrimSpace, CopyRows, CutLine;
    var tail := rows + "\\.\n" + rest;
    var header := CopySQL(target) + ";";
    assert PieceText(CopyBlock(target, rows)) + rest == header + "\n" + tail;
    if '\n' !in target {
      CopyHeaderLine(target);
      ReplayBetween(header, tail);
      CopyDataRoundTrip(rows, rest);
    } else {
      BrokenHeader(target, tail);
    }
  }

  lemma SkippedPiece(p: Piece, rest: string)
    requires WellShaped(p) && (p.Blank? || p.Comment?)
    ensures ReplayText("", PieceText(p) + rest) == ReplayText("", rest)
  {
    hide ReplayText, TrimSpace;
    if p.Blank? {
      assert PieceText(p) + rest == "" + "\n" + rest;
      assert TrimSpace("") == "" by { TrimSpaceOfSpace(""); }
      ReplayBetween("", rest);
    } else {
      TrimSpaceKeeps("--", p.text);
      ReplayBetween(p.text, rest);
    }
  }

  /** Replaying a text issues exactly these actions, to its end. */
  predicate Issues(text: string, actions: seq<Action>) {
    ReplayText("", text) == Replayed(actions, true)
  }

  /** A piece in front of a text comes back exactly when it replays: nothing for layout, else
      its one action. */
  ghost predicate PieceComesBack(p: Piece, whole: Replayed, tail: Replayed) {
    if PieceActions(p) == [] then whole == tail && PieceReplays(p)
    else if PieceReplays(p) then whole == Prepend(PieceActions(p)[0], tail)
    else !Begins(whole, PieceActions(p)[0])
  }

  lemma PieceRoundTrip(p: Piece, rest: string)
    requires WellShaped(p)
    ensures PieceComesBack(p, ReplayText("", PieceText(p) + rest), ReplayText("", rest))
  {
    hide ReplayText, StatementReplays, CopyRows;
    match p {
      case Blank => SkippedPiece(p, rest);
      case Comment(_) => SkippedPiece(p, rest);
      case Statement(sql) => StatementRoundTrip(sql, rest);
      case CopyBlock(target, rows) => CopyBlockRoundTrip(target, rows, rest);
    }
  }

  lemma PieceStep(p: Piece, whole: Replayed, tail: Replayed, more: seq<Action>)
    requires PieceComesBack(p, whole, tail)
    ensures whole == Replayed(PieceActions(p) + more, true) <==> PieceReplays(p) && tail == Replayed(more, true)
  {
    hide PieceReplays;
    if PieceActions(p) == [] {
      assert PieceActions(p) + more == more;
    } else {
      var a := PieceActions(p)[0];
      assert PieceActions(p) + more == [a] + more;
      assert ([a] + more)[1..] == more;
      assert whole == Prepend(a, tail) ==> whole.actions[1..] == tail.actions;
    }
  }

  /** The round trip of a dump: replaying the text of a script issues exactly its
      statements, trimmed, and its COPY blocks, byte for byte and in order, if and only
      if every piece of the script replays on its own. */
  lemma {:induction false} ScriptRoundTrip(ps: seq<Piece>)
    requires forall p :: p in ps ==> WellShaped(p)
    ensures Issues(ScriptText(ps), ScriptActions(ps)) <==> forall p :: p in ps ==> PieceReplays(p)
  {
    if ps == [] {
    } else {
      hide ReplayText, PieceReplays, PieceText, PieceActions, WellShaped, PieceComesBack;
      var p, rest := ps[0], ScriptText(ps[1..]);
      assert p in ps && forall q :: q in ps <==> q == p || q in ps[1..];
      ScriptRoundTrip(ps[1..]);
      PieceRoundTrip(p, rest);
      PieceStep(p, ReplayText("", PieceText(p) + rest), ReplayText("", rest), ScriptActions(ps[1..]));
    }
  }
}
