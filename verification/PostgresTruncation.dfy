/** What a restore makes of a dump that was cut short (internal/service/postgres_restore.go:
    32-91): it reports the missing end of COPY data, and nothing else. */
module PostgresTruncation {
  import opened Text
  import opened Quoting
  import opened PostgresScript
  import opened CopyFormat
  import opened PostgresDump
  import opened PostgresRoundTrip
  import opened PostgresDatabase
  import opened PostgresSource
  import opened PostgresRestore

  function PrependAll(actions: seq<Action>, r: Replayed): Replayed {
    r.(actions := actions + r.actions)
  }

  // ------------------------------------------------------------- the part of one piece

  /** The text ends inside COPY data: past a header, and short of the end marker. */
  predicate InCopyData(p: Piece, part: string) {
    && p.CopyBlock?
    && IsCopyHeader(TrimSpace(CutLine(part).0))
    && |part| < |CopySQL(p.target)| + 2 + |p.rows| + 2
  }

  /** A last statement that is run: one that ends in a semicolon. */
  function Closing(part: string): seq<Action> {
    if HasSuffix(TrimSpace(part), ";") then [Exec(TrimSpace(part))] else []
  }

  /** What is run of the first part of a piece. */
  function PartActions(p: Piece, part: string): seq<Action> {
    match p
    case Blank => []
    case Comment(_) => []
    case Statement(_) => Closing(part)
    case CopyBlock(target, rows) =>
      if |part| >= |CopySQL(target)| + 2 + |rows| + 2 then [CopyFrom(CopySQL(target), rows)]
      else if IsCopyHeader(TrimSpace(CutLine(part).0)) then []
      else Closing(part)
  }

  /** No line begins like the end marker. */
  predicate MarkerFree(rows: string)
    decreases |rows|
  {
    rows == "" || (var (raw, rest) := CutLine(rows); !(END_OF_DATA <= raw) && MarkerFree(rest))
  }

  /** No statement begins like a COPY header, no row like the end marker. */
  predicate OpensPlainly(p: Piece) {
    match p
    case Statement(sql) => !("COPY " <= TrimLeft(sql))
    case CopyBlock(_, rows) => MarkerFree(rows)
    case _ => true
  }

  // ------------------------------------------------------------------------ statements

  lemma LastChar(s: string)
    requires s != ""
    ensures HasSuffix(s, ";") <==> s[|s| - 1] == ';'
  {
    assert s[|s| - 1..] == [s[|s| - 1]];
  }

  lemma SuffixOfMore(raw: string, more: string)
    requires !HasSuffix(TrimSpace(raw), ";")
    ensures HasSuffix(TrimSpace(raw + "\n" + more), ";") <==> HasSuffix(TrimSpace(more), ";")
  {
    hide TrimSpace;
    assert raw + "\n" + more == (raw + "\n") + more;
    TrimSpaceDrops(raw, "\n");
    if TrimSpace(more) == "" {
      TrimSpaceBlank(more);
      TrimSpaceDrops(raw + "\n", more);
    } else if TrimSpace(raw + "\n") == "" {
      TrimSpaceBlank(raw + "\n");
      TrimSpaceSkips(raw + "\n", more);
    } else {
      var x, y := raw + "\n", more;
      var a, b := TrimSpaceSplits(x);
      var c, d := TrimSpaceSplits(y);
      assert x + y == a + (TrimSpace(x) + b + c + TrimSpace(y)) + d;
      TrimSpaceCore(a, TrimSpace(x) + b + c + TrimSpace(y), d);
      assert TrimSpace(x + y)[|TrimSpace(x + y)| - 1] == TrimSpace(y)[|TrimSpace(y)| - 1];
      LastChar(TrimSpace(x + y));
      LastChar(TrimSpace(y));
    }
  }

  /** The rest of a cut statement whose buffer has been started. */
  lemma {:induction false} PartTail(buf: string, part: string)
    requires buf != "" && NoInnerTerminator(part)
    ensures ReplayText(buf, part)
         == Replayed(if HasSuffix(TrimSpace(part), ";") then [Exec(TrimSpace(buf + part + "\n"))] else [], true)
    decreases |part|
  {
    if part == "" {
      TrimSpaceOfSpace("");
    } else if '\n' !in part {
      assert CutLine(part) == (part, "");
    } else {
      var raw, more := SplitStatement(part, "");
      CutLineAt(raw, more);
      if HasSuffix(TrimSpace(raw), ";") {
        PrefixTerminator(raw, more);
        assert false;
      }
      TerminatorsAfterLine(raw, more);
      SuffixOfMore(raw, more);
      PartTail(buf + raw + "\n", more);
      BufferGrows(buf, raw, more);
    }
  }

  lemma TrimLeftOfLine(raw: string, y: string)
    ensures TrimLeft(raw + y) == if TrimLeft(raw) == "" then TrimLeft(y) else TrimLeft(raw) + y
    decreases |raw|
  {
    if raw == "" {
      assert raw + y == y;
    } else {
      assert (raw + y)[1..] == raw[1..] + y;
      if IsSpace(raw[0]) {
        TrimLeftOfLine(raw[1..], y);
      }
    }
  }

  /** Trimming on the right takes nothing off the front. */
  lemma FrontOfTrimmed(front: string, s: string)
    ensures front <= TrimSpace(s) ==> front <= TrimLeft(s)
    ensures Tight(front) && front <= TrimLeft(s) ==> front <= TrimSpace(s)
  {
    var b := TrimRightSplits(TrimLeft(s));
    if Tight(front) && front <= TrimLeft(s) {
      assert TrimLeft(s)[0] == front[0];
      assert TrimLeft(TrimLeft(s)) == TrimLeft(s);
      TrimSpaceKeeps(front, TrimLeft(s));
    }
  }

  /** The part of a text that begins neither as a comment nor as a COPY header. */
  predicate Begun(part: string) {
    !("--" <= TrimLeft(part)) && !("COPY " <= TrimLeft(part))
  }

  lemma BegunOfPrefix(part: string, whole: string)
    requires part <= whole && Begun(whole)
    ensures Begun(part)
  {
    assert whole == part + whole[|part|..];
    TrimLeftOfLine(part, whole[|part|..]);
  }

  lemma BegunLine(part: string)
    requires Begun(part)
    ensures !("--" <= TrimSpace(part)) && !IsCopyHeader(TrimSpace(part))
  {
    FrontOfTrimmed("--", part);
    FrontOfTrimmed("COPY ", part);
  }

  /** The last line of a text that no newline ends. */
  lemma LastLine(part: string)
    requires part != "" && '\n' !in part
    ensures var trimmed := TrimSpace(part);
      ReplayText("", part)
      == if IsCopyHeader(trimmed) then Replayed([], false)
         else if trimmed == "" || "--" <= trimmed then Replayed([], true)
         else Replayed(Closing(part), true)
  {
    assert CutLine(part) == (part, "");
    assert "" + part + "\n" == part + "\n";
    TrimSpaceDrops(part, "\n");
    hide TrimSpace, CutLine, IsCopyHeader;
    ReplayOfNothing("");
    ReplayOfNothing(part + "\n");
  }

  lemma NothingCloses()
    ensures Closing("") == [] && ReplayText("", "") == Replayed([], true)
  {
    TrimSpaceOfSpace("");
  }

  lemma OneLinePart(part: string)
    requires '\n' !in part && Begun(part)
    ensures ReplayText("", part) == Replayed(Closing(part), true)
  {
    hide ReplayText, TrimSpace;
    NothingCloses();
    if part != "" {
      BegunLine(part);
      LastLine(part);
    }
  }

  lemma BlankFirstLine(raw: string, more: string)
    requires TrimSpace(raw) == "" && '\n' !in raw && NoInnerTerminator(raw + "\n" + more) && Begun(raw + "\n" + more)
    ensures NoInnerTerminator(more) && Begun(more) && Closing(raw + "\n" + more) == Closing(more)
    ensures ReplayText("", raw + "\n" + more) == ReplayText("", more)
  {
    TrimSpaceBlank(raw);
    TerminatorsAfterLine(raw, more);
    TrimSpaceSkips(raw + "\n", more);
    assert TrimLeft(raw + "\n") == "" by {
      assert (raw + "\n") + "" == raw + "\n";
      TrimLeftSkips(raw + "\n", "");
    }
    TrimLeftOfLine(raw + "\n", more);
    assert raw + "\n" + more == (raw + "\n") + more;
    ReplayBetween(raw, more);
  }

  lemma StartedPart(raw: string, more: string)
    requires TrimSpace(raw) != "" && '\n' !in raw && NoInnerTerminator(raw + "\n" + more) && Begun(raw + "\n" + more)
    ensures ReplayText("", raw + "\n" + more) == Replayed(Closing(raw + "\n" + more), true)
  {
    if HasSuffix(TrimSpace(raw), ";") {
      PrefixTerminator(raw, more);
      assert false;
    }
    hide ReplayText, TrimSpace, NoInnerTerminator, TrimLeft;
    assert Begun(raw) by {
      assert raw + "\n" + more == raw + ("\n" + more);
      BegunOfPrefix(raw, raw + "\n" + more);
    }
    BegunLine(raw);
    TerminatorsAfterLine(raw, more);
    ReplayBetween(raw, more);
    PartTail(raw + "\n", more);
    SuffixOfMore(raw, more);
    TrimSpaceDrops(raw + "\n" + more, "\n");
  }

  /** A statement that is cut short, or not, runs just when it ends in a semicolon. */
  lemma {:induction false} StatementPart(part: string)
    requires NoInnerTerminator(part) && Begun(part)
    ensures ReplayText("", part) == Replayed(Closing(part), true)
    decreases |part|
  {
    if '\n' !in part {
      OneLinePart(part);
    } else {
      var raw, more := SplitStatement(part, "");
      if TrimSpace(raw) == "" {
        BlankFirstLine(raw, more);
        StatementPart(more);
      } else {
        StartedPart(raw, more);
      }
    }
  }

  lemma NoTerminatorOfPrefix(part: string, whole: string)
    requires part <= whole && NoInnerTerminator(whole)
    ensures NoInnerTerminator(part)
  {
    forall j, i | TerminatorAt(part, j, i) ensures TerminatorAt(whole, j, i) {
      forall k | j < k < i ensures IsSpace(whole[k]) { assert whole[k] == part[k]; }
    }
  }

  lemma PartOfStatement(sql: string, part: string)
    requires sql != "" && sql[|sql| - 1] == ';' && StatementReplays(sql) && !("COPY " <= TrimLeft(sql)) && part <= sql + "\n"
    ensures ReplayText("", part) == Replayed(Closing(part), true)
  {
    if |part| == |sql| + 1 {
      assert part == sql + "\n" && part + "" == part;
      hide StatementReplays, ReplayText, TrimSpace;
      StatementRoundTrip(sql, "");
      ReplayOfNothing("");
      TrimSpaceDrops(sql, "\n");
      ClosedStatement(sql);
    } else {
      assert part <= sql;
      FrontOfTrimmed("--", sql);
      BegunOfPrefix(part, sql);
      NoTerminatorOfPrefix(part, sql);
      StatementPart(part);
    }
  }

  // ----------------------------------------------------------------------- COPY blocks

  lemma {:induction false} RowsMarkerFree(rows: seq<Row>)
    ensures MarkerFree(RowsText(rows))
  {
    if rows == [] {
    } else {
      RowLine(rows[0]);
      CutLineAt(RowText(rows[0]), RowsText(rows[1..]));
      RowsMarkerFree(rows[1..]);
    }
  }

  lemma MarkerPart(part: string)
    requires part <= "\\.\n"
    ensures CopyData(part) == if |part| < 2 then None else Some(("", ""))
  {
    assert part == "\\.\n"[..|part|];
    if |part| == 3 {
      assert part == END_OF_DATA + "\n" + "";
      CutLineAt(END_OF_DATA, "");
    } else {
      assert '\n' !in part && CutLine(part) == (part, "");
    }
  }

  lemma LinePart(raw: string, more: string, part: string)
    requires '\n' !in raw && !(END_OF_DATA <= raw) && part <= raw + "\n" + more && |part| <= |raw|
    ensures CopyData(part) == None
  {
    assert part == raw[..|part|];
    assert '\n' !in part && CutLine(part) == (part, "");
    assert part == END_OF_DATA ==> END_OF_DATA <= raw;
  }

  /** COPY data that is cut before the end of its marker is never complete. */
  lemma {:induction false} CopyDataPart(rows: string, part: string)
    requires CopyRows(rows) && MarkerFree(rows) && part <= rows + "\\.\n"
    ensures CopyData(part) == if |part| < |rows| + 2 then None else Some((rows, ""))
    decreases |rows|
  {
    if rows == "" {
      assert rows + "\\.\n" == "\\.\n";
      MarkerPart(part);
    } else {
      var (raw, more) := CutLine(rows);
      assert rows + "\\.\n" == raw + "\n" + (more + "\\.\n");
      if |part| <= |raw| {
        LinePart(raw, more + "\\.\n", part);
      } else {
        var tail := part[|raw| + 1..];
        assert part == raw + "\n" + tail && tail <= more + "\\.\n";
        CutLineAt(raw, tail);
        CopyDataPart(more, tail);
      }
    }
  }

  /** A COPY header that is cut short. */
  lemma HeaderPart(target: string, part: string)
    requires part <= CopySQL(target) + ";" && '\n' !in part
    ensures ReplayText("", part)
         == if IsCopyHeader(TrimSpace(part)) then Replayed([], false) else Replayed(Closing(part), true)
  {
    NothingCloses();
    if part == "" {
      TrimSpaceOfSpace("");
    } else {
      assert part[0] == 'C' by { assert (CopySQL(target) + ";")[0] == 'C'; }
      assert TrimLeft(part) == part;
      FrontOfTrimmed("--", part);
      NonBlank(part, 0);
      hide ReplayText, TrimSpace, TrimLeft;
      LastLine(part);
    }
  }

  lemma HeaderLine(target: string)
    requires '\n' !in target
    ensures '\n' !in CopySQL(target) + ";"
  {}

  /** A COPY block cut after its header. */
  lemma BlockInside(target: string, rows: string, d: string)
    requires '\n' !in target && CopyRows(rows) && MarkerFree(rows) && d <= rows + "\\.\n"
    ensures var p, part := CopyBlock(target, rows), CopySQL(target) + ";" + "\n" + d;
      ReplayText("", part) == Replayed(PartActions(p, part), !InCopyData(p, part))
  {
    var header := CopySQL(target) + ";";
    HeaderLine(target);
    CutLineAt(header, d);
    hide ReplayText, TrimSpace, CopyData, CopyRows, MarkerFree, CopySQL, IsCopyHeader, CutLine;
    CopyHeaderLine(target);
    ReplayBetween(header, d);
    CopyDataPart(rows, d);
    ReplayOfNothing("");
  }

  lemma BlockPart(target: string, rows: string, part: string)
    requires '\n' !in target && CopyRows(rows) && MarkerFree(rows) && part <= PieceText(CopyBlock(target, rows))
    ensures var p := CopyBlock(target, rows); ReplayText("", part) == Replayed(PartActions(p, part), !InCopyData(p, part))
  {
    var header, tail := CopySQL(target) + ";", rows + "\\.\n";
    assert PieceText(CopyBlock(target, rows)) == header + "\n" + tail;
    assert '\n' !in header by { HeaderLine(target); }
    if |part| <= |header| {
      assert part == header[..|part|];
      assert CutLine(part) == (part, "") by { assert '\n' !in part; }
      hide ReplayText, TrimSpace, CopySQL;
      HeaderPart(target, part);
    } else {
      var d := part[|header| + 1..];
      assert part == header + "\n" + d && d <= tail;
      hide PieceText;
      BlockInside(target, rows, d);
    }
  }

  // -------------------------------------------------------------- a part of a script

  lemma LoneDash(text: string, part: string)
    requires "--" <= text && part <= text && |part| == 1
    ensures TrimSpace(part) == "-" && Closing(part) == [] && !IsCopyHeader(TrimSpace(part))
  {
    assert part[0] == text[0];
    assert part == "" + "-" + "";
    TrimSpaceCore("", "-", "");
  }

  lemma DashIsNoCopy(part: string)
    requires "--" <= TrimSpace(part)
    ensures !IsCopyHeader(TrimSpace(part))
  {
    hide TrimSpace;
    assert TrimSpace(part)[0] == '-' && "COPY "[0] == 'C';
  }

  lemma PartOfComment(text: string, part: string)
    requires "--" <= text && '\n' !in text && part <= text && part != ""
    ensures ReplayText("", part) == Replayed([], true)
  {
    hide ReplayText, TrimSpace, CutLine;
    assert '\n' !in part by { assert part == text[..|part|]; }
    LastLine(part);
    if |part| == 1 {
      LoneDash(text, part);
    } else {
      assert part[..2] == text[..2];
      TrimSpaceKeeps("--", part);
      DashIsNoCopy(part);
    }
  }

  lemma PartOfLayout(p: Piece, part: string)
    requires WellShaped(p) && (p.Blank? || p.Comment?) && part <= PieceText(p)
    ensures ReplayText("", part) == Replayed([], true)
  {
    hide ReplayText, TrimSpace;
    NothingCloses();
    if part == PieceText(p) {
      assert part + "" == part;
      SkippedPiece(p, "");
    } else if part != "" {
      assert p.Comment? && part <= p.text;
      PartOfComment(p.text, part);
    }
  }

  lemma PartOfPiece(p: Piece, part: string)
    requires WellShaped(p) && PieceReplays(p) && OpensPlainly(p) && part <= PieceText(p)
    ensures ReplayText("", part) == Replayed(PartActions(p, part), !InCopyData(p, part))
  {
    match p {
      case Blank => PartOfLayout(p, part);
      case Comment(_) => PartOfLayout(p, part);
      case Statement(sql) => PartOfStatement(sql, part);
      case CopyBlock(target, rows) => BlockPart(target, rows, part);
    }
  }

  lemma FirstComesBack(p: Piece, whole: Replayed, tail: Replayed)
    requires PieceComesBack(p, whole, tail) && PieceReplays(p)
    ensures whole == PrependAll(PieceActions(p), tail)
  {
    if PieceActions(p) == [] {
      assert [] + tail.actions == tail.actions;
    } else {
      assert PieceActions(p) == [PieceActions(p)[0]];
    }
  }

  /** Pieces that replay come back whatever follows them. */
  lemma {:induction false} FrontComesBack(ps: seq<Piece>, rest: string)
    requires forall p :: p in ps ==> WellShaped(p) && PieceReplays(p)
    ensures ReplayText("", ScriptText(ps) + rest) == PrependAll(ScriptActions(ps), ReplayText("", rest))
  {
    hide ReplayText, PieceReplays, PieceText, PieceActions, WellShaped;
    if ps == [] {
      assert "" + rest == rest && [] + ReplayText("", rest).actions == ReplayText("", rest).actions;
    } else {
      var p, more := ps[0], ScriptText(ps[1..]) + rest;
      assert p in ps && forall q :: q in ps[1..] ==> q in ps;
      FrontComesBack(ps[1..], rest);
      Regroup(PieceText(p), ScriptText(ps[1..]), rest);
      PieceRoundTrip(p, more);
      FirstComesBack(p, ReplayText("", PieceText(p) + more), ReplayText("", more));
      Regroup(PieceActions(p), ScriptActions(ps[1..]), ReplayText("", rest).actions);
    }
  }

  /** Where a script is cut: after some pieces, within the next. */
  lemma {:induction false} CutWithin(ps: seq<Piece>, n: nat) returns (i: nat, part: string)
    requires n < |ScriptText(ps)|
    ensures i < |ps| && part < PieceText(ps[i]) && ScriptText(ps)[..n] == ScriptText(ps[..i]) + part
  {
    hide PieceText;
    var first, more := PieceText(ps[0]), ScriptText(ps[1..]);
    if n < |first| {
      i, part := 0, first[..n];
      assert ScriptText(ps)[..n] == part && ps[..0] == [] && "" + part == part;
    } else {
      i, part := CutWithin(ps[1..], n - |first|);
      i := i + 1;
      assert ScriptText(ps)[..n] == first + more[..n - |first|];
      assert ps[..i][1..] == ps[1..][..i - 1] && ps[..i][0] == ps[0];
      Regroup(first, ScriptText(ps[1..][..i - 1]), part);
    }
  }

  /** What is replayed of a script cut anywhere: the pieces before the cut, what there is of
      the piece that is cut, and a failure just when the cut is inside COPY data. */
  lemma CutScript(ps: seq<Piece>, n: nat) returns (i: nat, part: string)
    requires forall p :: p in ps ==> WellShaped(p) && PieceReplays(p) && OpensPlainly(p)
    requires n < |ScriptText(ps)|
    ensures i < |ps| && part < PieceText(ps[i]) && ScriptText(ps)[..n] == ScriptText(ps[..i]) + part
    ensures ReplayText("", ScriptText(ps)[..n])
         == Replayed(ScriptActions(ps[..i]) + PartActions(ps[i], part), !InCopyData(ps[i], part))
  {
    hide ReplayText, PieceReplays, PieceText, PartActions, InCopyData, WellShaped, OpensPlainly;
    i, part := CutWithin(ps, n);
    FrontComesBack(ps[..i], part);
    PartOfPiece(ps[i], part);
  }

  // ------------------------------------------------------------------- a dump cut short

  /** No index definition begins like a COPY header. */
  ghost predicate IndexesOpenPlainly(cat: Catalog) {
    forall step :: step in Plan(cat) && step.CreateIndex? ==> OpensPlainly(StepPiece(cat.schema, step))
  }

  lemma KeywordOpens(word: string, sql: string)
    requires word in {"SET", "CREATE", "ALTER", "SELECT"} && word <= sql
    ensures !("COPY " <= TrimLeft(sql))
  {
    assert sql[0] == word[0] && sql[1] == word[1];
    assert TrimLeft(sql) == sql;
    assert "COPY "[1] == 'O' && word[1] != 'O';
  }

  lemma StepOpens(schema: string, step: Step)
    requires !step.CreateIndex?
    ensures OpensPlainly(StepPiece(schema, step))
  {
    if step.LoadTable? {
      RowsMarkerFree(step.table.rows);
    } else if !step.Banner? && !step.Gap? {
      StatementKeyword(schema, step);
      KeywordOpens(Keyword(step), StepPiece(schema, step).sql);
    }
  }

  lemma PiecesReady(cat: Catalog, steps: seq<Step>)
    requires CleanCatalog(cat) && (forall t :: t in cat.tables ==> RowsFit(t)) && forall step :: step in steps ==> step in Plan(cat)
    ensures forall p :: p in Pieces(cat.schema, steps) ==> WellShaped(p) && PieceReplays(p)
  {
    PlanLoads(cat);
    hide Plan, PieceReplays, WellShaped;
    forall p | p in Pieces(cat.schema, steps) ensures WellShaped(p) && PieceReplays(p) {
      var i :| 0 <= i < |steps| && p == StepPiece(cat.schema, steps[i]);
      var step := steps[i];
      assert step in steps;
      StepWellShaped(cat.schema, step);
      StepReplays(cat.schema, step, if step.LoadTable? then |step.table.columns| else 0);
    }
  }

  lemma PiecesOpen(cat: Catalog)
    requires IndexesOpenPlainly(cat)
    ensures forall p :: p in Pieces(cat.schema, Plan(cat)) ==> OpensPlainly(p)
  {
    hide Plan, OpensPlainly;
    forall p | p in Pieces(cat.schema, Plan(cat)) ensures OpensPlainly(p) {
      var i :| 0 <= i < |Plan(cat)| && p == StepPiece(cat.schema, Plan(cat)[i]);
      assert Plan(cat)[i] in Plan(cat);
      if !Plan(cat)[i].CreateIndex? {
        StepOpens(cat.schema, Plan(cat)[i]);
      }
    }
  }

  lemma PiecesTaken(schema: string, steps: seq<Step>, i: nat)
    requires i < |steps|
    ensures |Pieces(schema, steps)| == |steps| && Pieces(schema, steps)[..i] == Pieces(schema, steps[..i])
    ensures Pieces(schema, steps)[i] == StepPiece(schema, steps[i]) && PieceText(Pieces(schema, steps)[i]) == StepText(schema, steps[i])
  {
    hide StepPiece, PieceText;
  }

  /** A clean dump cut anywhere short of its end: every step before the cut is replayed, of the
      step that is cut at most a statement that happens to end in a semicolon, and the
      replay reports that something is missing if and only if the cut is inside COPY data. */
  lemma CutDump(cat: Catalog, n: nat) returns (i: nat, part: string)
    requires CleanCatalog(cat) && IndexesOpenPlainly(cat) && (forall t :: t in cat.tables ==> RowsFit(t))
    requires n < |DumpText(cat)|
    ensures i < |Plan(cat)| && part < StepText(cat.schema, Plan(cat)[i])
    ensures DumpText(cat)[..n] == ScriptText(Pieces(cat.schema, Plan(cat)[..i])) + part
    ensures var p := StepPiece(cat.schema, Plan(cat)[i]);
      ReplayText("", DumpText(cat)[..n])
      == Replayed(ScriptActions(Pieces(cat.schema, Plan(cat)[..i])) + PartActions(p, part), !InCopyData(p, part))
  {
    PiecesReady(cat, Plan(cat));
    PiecesOpen(cat);
    var pieces := Pieces(cat.schema, Plan(cat));
    assert DumpText(cat) == ScriptText(pieces) && |pieces| == |Plan(cat)|;
    hide *;
    i, part := CutScript(pieces, n);
    PiecesTaken(cat.schema, Plan(cat), i);
  }

  lemma PlanReadsAsIs(cat: Catalog)
    requires NamesReadable(cat)
    ensures forall step :: step in Plan(cat) ==> ReadsAsIs(cat.schema, step)
  {
    PlanParts(cat);
    FrontInPlan(cat);
    SetvalStepsOf(cat.sequences);
    hide Plan, Front, Unescaped, SetvalSteps;
    forall step | step in Plan(cat) ensures ReadsAsIs(cat.schema, step) {
      assert step in Front(cat) || step in SetvalSteps(cat.sequences);
    }
  }

  lemma PartRuns(m: Meaning, cat: Catalog, k: nat)
    requires Consistent(m, cat) && ConstraintBacked(cat) && k <= |Plan(cat)|
    ensures Run(m, EmptyDatabase(cat.schema), Plan(cat)[..k]).Some?
  {
    PlanRuns(m, cat);
    hide Plan, Run, Consistent, ConstraintBacked, IsImage;
    RunConcat(m, EmptyDatabase(cat.schema), Plan(cat)[..k], Plan(cat)[k..]);
    assert Plan(cat)[..k] + Plan(cat)[k..] == Plan(cat);
  }

  lemma AllReplayed(ps: seq<Piece>)
    requires ReplayText("", ScriptText(ps) + "") == PrependAll(ScriptActions(ps), ReplayText("", ""))
    ensures ReplayText("", ScriptText(ps)) == Replayed(ScriptActions(ps), true)
  {
    assert ScriptText(ps) + "" == ScriptText(ps) && ScriptActions(ps) + [] == ScriptActions(ps);
    ReplayOfNothing("");
  }

  lemma LiveIsConsistent(m: Meaning, src: Source)
    requires Live(m, src)
    ensures Consistent(m, ReadCatalog(src))
  {}

  lemma PartIsPrefix(cat: Catalog, k: nat)
    requires k <= |Plan(cat)|
    ensures ScriptText(Pieces(cat.schema, Plan(cat)[..k])) <= DumpText(cat)
  {
    assert Plan(cat)[..k] + Plan(cat)[k..] == Plan(cat);
    UnderwayPrefix(Dumping(cat.schema, Plan(cat)), Plan(cat)[..k], Plan(cat)[k..]);
  }

  /** So a dump that ends after any of its steps restores without an error, as just these
      steps: a restore cannot tell that the rest is missing. */
  lemma PartRestores(server: Server, m: Meaning, src: Source, k: nat)
    requires Live(m, src) && CleanCatalog(ReadCatalog(src)) && Understands(server, m, ReadCatalog(src))
    requires ConstraintBacked(ReadCatalog(src)) && NamesReadable(ReadCatalog(src)) && k <= |Plan(ReadCatalog(src))|
    ensures var cat := ReadCatalog(src);
      var text := ScriptText(Pieces(cat.schema, Plan(cat)[..k]));
      var script := ReplayText("", text);
      && text <= DumpText(cat) && script.complete
      && RunActions(server, EmptyDatabase(cat.schema), script.actions) == Run(m, EmptyDatabase(cat.schema), Plan(cat)[..k])
      && Run(m, EmptyDatabase(cat.schema), Plan(cat)[..k]).Some?
  {
    var cat := ReadCatalog(src);
    var steps := Plan(cat)[..k];
    ConsistentNames(m, cat);
    hide *;
    assert forall step :: step in steps ==> step in Plan(cat);
    PiecesReady(cat, steps);
    FrontComesBack(Pieces(cat.schema, steps), "");
    AllReplayed(Pieces(cat.schema, steps));
    PlanReadsAsIs(cat);
    ActionsRunPlan(server, m, cat, EmptyDatabase(cat.schema), steps);
    LiveIsConsistent(m, src);
    PartRuns(m, cat, k);
    PartIsPrefix(cat, k);
  }
}
