/** Placeholders of SQL templates: the server's scanner and renderer
    (internal/sqltemplate/sqltemplate.go) and their mirror in the client
    (ui/src/features/templates/variables.ts). */
module SqlTemplate {
  import opened Text
  import opened Distinct

  // ---------------------------------------------------------------------- the pattern

  predicate IsLetter(c: char) {
    'a' <= c <= 'z' || 'A' <= c <= 'Z' || c == '_'
  }

  predicate IsWord(c: char) {
    IsLetter(c) || '0' <= c <= '9'
  }

  predicate IsName(s: string) {
    s != "" && IsLetter(s[0]) && forall i :: 0 <= i < |s| ==> IsWord(s[i])
  }

  /** `\s` of Go's regular expressions. */
  predicate GoSpace(c: char) {
    c == '\t' || c == '\n' || c == '\U{C}' || c == '\r' || c == ' '
  }

  /** `\s` of JavaScript's. */
  predicate JsSpace(c: char) {
    || '\t' <= c <= '\r' || c == ' ' || c == '\U{A0}' || c == '\U{1680}'
    || '\U{2000}' <= c <= '\U{200A}' || c == '\U{2028}' || c == '\U{2029}'
    || c == '\U{202F}' || c == '\U{205F}' || c == '\U{3000}' || c == '\U{FEFF}'
  }

  /** A class of white space: it holds no character that the pattern names otherwise. */
  ghost predicate IsSpaceClass(space: char -> bool) {
    forall c :: space(c) ==> !IsWord(c) && c != '{' && c != '}'
  }

  ghost predicate All(p: char -> bool, s: string) {
    forall i :: 0 <= i < |s| ==> p(s[i])
  }

  ghost predicate Shape(space: char -> bool, t: string, a: string, name: string, b: string) {
    t == "{{" + a + name + b + "}}" && All(space, a) && All(space, b) && IsName(name)
  }

  /** What the pattern matches, declaratively. */
  ghost predicate IsPlaceholder(space: char -> bool, t: string, name: string) {
    exists a, b :: Shape(space, t, a, name, b)
  }

  /** The longest prefix in a class, and what follows it. */
  function Take(p: char -> bool, s: string): string {
    if s == "" || !p(s[0]) then "" else [s[0]] + Take(p, s[1..])
  }

  function Skip(p: char -> bool, s: string): string {
    if s == "" || !p(s[0]) then s else Skip(p, s[1..])
  }

  lemma {:induction false} TakeSkip(p: char -> bool, s: string)
    ensures Take(p, s) + Skip(p, s) == s && All(p, Take(p, s))
  {
    if s == "" || !p(s[0]) {
      assert "" + s == s;
    } else {
      TakeSkip(p, s[1..]);
      assert s == [s[0]] + s[1..];
      Regroup([s[0]], Take(p, s[1..]), Skip(p, s[1..]));
    }
  }

  lemma {:induction false} TakeOf(p: char -> bool, x: string, y: string)
    requires All(p, x) && (y == "" || !p(y[0]))
    ensures Take(p, x + y) == x && Skip(p, x + y) == y
  {
    if x == "" {
      assert x + y == y;
    } else {
      assert (x + y)[1..] == x[1..] + y;
      TakeOf(p, x[1..], y);
    }
  }

  lemma SkipShortens(p: char -> bool, s: string)
    ensures |Skip(p, s)| <= |s|
  {
    TakeSkip(p, s);
  }

  /** The greedy match at the start of a text: its length and its name. */
  function MatchPrefix(space: char -> bool, s: string): (m: Option<(nat, string)>)
    ensures m.Some? ==> 0 < m.value.0 <= |s|
  {
    if !("{{" <= s) then None
    else
      var s1 := Skip(space, s[2..]);
      var name := Take(IsWord, s1);
      var s2 := Skip(space, Skip(IsWord, s1));
      SkipShortens(space, s[2..]);
      SkipShortens(IsWord, s1);
      SkipShortens(space, Skip(IsWord, s1));
      if name == "" || !IsLetter(name[0]) || !("}}" <= s2) then None else Some((|s| - |s2| + 2, name))
  }

  lemma Parts(a: string, name: string, b: string, rest: string)
    ensures "{{" + a + name + b + "}}" + rest == "{{" + (a + (name + (b + ("}}" + rest))))
  {
  }

  lemma WordsAreName(s: string)
    requires All(IsWord, s) && s != "" && IsLetter(s[0])
    ensures IsName(s)
  {
    forall i | 0 <= i < |s| ensures IsWord(s[i]) {
      assert IsWord(s[i]);
    }
  }

  lemma ShapeIsPlaceholder(space: char -> bool, a: string, name: string, b: string)
    requires All(space, a) && All(space, b) && IsName(name)
    ensures IsPlaceholder(space, "{{" + a + name + b + "}}", name)
  {
    assert Shape(space, "{{" + a + name + b + "}}", a, name, b);
  }

  lemma MatchShape(space: char -> bool, s: string)
    requires MatchPrefix(space, s).Some?
    ensures IsPlaceholder(space, s[..MatchPrefix(space, s).value.0], MatchPrefix(space, s).value.1)
  {
    hide Take, Skip, IsPlaceholder;
    var s1 := Skip(space, s[2..]);
    var a, name, b := Take(space, s[2..]), Take(IsWord, s1), Take(space, Skip(IsWord, s1));
    var s2 := Skip(space, Skip(IsWord, s1));
    TakeSkip(space, s[2..]);
    TakeSkip(IsWord, s1);
    TakeSkip(space, Skip(IsWord, s1));
    var rest := s2[2..];
    assert s2 == "}}" + rest && s == "{{" + s[2..];
    Parts(a, name, b, rest);
    assert s[..|s| - |rest|] == "{{" + a + name + b + "}}";
    WordsAreName(name);
    ShapeIsPlaceholder(space, a, name, b);
  }

  lemma NotSpaceFirst(space: char -> bool, name: string, rest: string)
    requires IsSpaceClass(space) && IsName(name)
    ensures name + rest != "" && !space((name + rest)[0]) && All(IsWord, name)
  {
    assert (name + rest)[0] == name[0] && IsWord(name[0]);
  }

  lemma NotWordFirst(space: char -> bool, b: string, s3: string)
    requires IsSpaceClass(space) && All(space, b) && "}}" <= s3
    ensures !IsWord((b + s3)[0]) && !space(s3[0])
  {
    if b != "" {
      assert (b + s3)[0] == b[0] && space(b[0]);
    } else {
      assert (b + s3)[0] == s3[0];
    }
  }

  lemma ShapeMatches(space: char -> bool, a: string, name: string, b: string, rest: string)
    requires IsSpaceClass(space) && All(space, a) && All(space, b) && IsName(name)
    ensures var t := "{{" + a + name + b + "}}"; MatchPrefix(space, t + rest) == Some((|t|, name))
  {
    hide Take, Skip;
    var s3 := "}}" + rest;
    var s2 := b + s3;
    var s1 := name + s2;
    Parts(a, name, b, rest);
    assert ("{{" + (a + s1))[2..] == a + s1;
    NotSpaceFirst(space, name, s2);
    TakeOf(space, a, s1);
    NotWordFirst(space, b, s3);
    TakeOf(IsWord, name, s2);
    TakeOf(space, b, s3);
    assert "}}" <= s3;
  }

  /** The greedy match is the only one: classes that follow each other share no character. */
  lemma MatchExact(space: char -> bool, s: string, n: nat, name: string)
    requires IsSpaceClass(space) && n <= |s|
    ensures MatchPrefix(space, s) == Some((n, name)) <==> IsPlaceholder(space, s[..n], name)
  {
    hide MatchPrefix;
    if MatchPrefix(space, s) == Some((n, name)) {
      MatchShape(space, s);
    }
    if IsPlaceholder(space, s[..n], name) {
      var a, b :| Shape(space, s[..n], a, name, b);
      assert s == s[..n] + s[n..];
      ShapeMatches(space, a, name, b, s[n..]);
    }
  }

  // ---------------------------------------------------------------------- the scan

  /** A scanned text: characters that stay, and placeholders. */
  datatype Piece = Literal(c: char) | Variable(name: string, text: string)

  /** All matches from left to right, each search starting where the last match ended. */
  function Scan(space: char -> bool, s: string): seq<Piece>
    decreases |s|
  {
    if s == "" then []
    else
      match MatchPrefix(space, s)
      case Some(m) => [Variable(m.1, s[..m.0])] + Scan(space, s[m.0..])
      case None => [Literal(s[0])] + Scan(space, s[1..])
  }

  function TextOf(pieces: seq<Piece>): string {
    if pieces == [] then ""
    else (if pieces[0].Literal? then [pieces[0].c] else pieces[0].text) + TextOf(pieces[1..])
  }

  /** No placeholder starts where a literal stands; every variable's text is a placeholder. */
  ghost predicate IsScan(space: char -> bool, pieces: seq<Piece>) {
    forall i :: 0 <= i < |pieces| ==>
      match pieces[i]
      case Literal(_) => forall n, name :: 0 <= n <= |TextOf(pieces[i..])| ==> !IsPlaceholder(space, TextOf(pieces[i..])[..n], name)
      case Variable(name, text) => IsPlaceholder(space, text, name)
  }

  /** A scan one piece longer. */
  lemma IsScanCons(space: char -> bool, piece: Piece, rest: seq<Piece>)
    requires IsScan(space, rest)
    requires match piece
             case Literal(_) =>
               var s := TextOf([piece] + rest); forall n, name :: 0 <= n <= |s| ==> !IsPlaceholder(space, s[..n], name)
             case Variable(name, text) => IsPlaceholder(space, text, name)
    ensures IsScan(space, [piece] + rest)
  {
    var all := [piece] + rest;
    assert all[0..] == all;
    forall i | 1 <= i < |all| ensures all[i..] == rest[i - 1..] && all[i] == rest[i - 1] {
    }
  }

  /** The scan loses nothing and is the leftmost one ... */
  lemma {:induction false} ScanIsScan(space: char -> bool, s: string)
    requires IsSpaceClass(space)
    ensures TextOf(Scan(space, s)) == s && IsScan(space, Scan(space, s))
    decreases |s|
  {
    hide MatchPrefix, IsPlaceholder;
    if s == "" {
    } else {
      var pieces := Scan(space, s);
      var rest := match MatchPrefix(space, s) case Some(m) => s[m.0..] case None => s[1..];
      ScanIsScan(space, rest);
      assert pieces[1..] == Scan(space, rest);
      assert TextOf(pieces) == s by {
        assert s == s[..|s| - |rest|] + rest;
      }
      if MatchPrefix(space, s).Some? {
        MatchShape(space, s);
      } else {
        forall n, name | 0 <= n <= |s| ensures !IsPlaceholder(space, s[..n], name) {
          MatchExact(space, s, n, name);
        }
      }
      IsScanCons(space, pieces[0], pieces[1..]);
      assert [pieces[0]] + pieces[1..] == pieces;
    }
  }

  /** ... and the only one. */
  lemma {:induction false} ScanUnique(space: char -> bool, pieces: seq<Piece>)
    requires IsSpaceClass(space) && IsScan(space, pieces)
    ensures Scan(space, TextOf(pieces)) == pieces
  {
    if pieces == [] {
    } else {
      var s, rest := TextOf(pieces), pieces[1..];
      forall i | 0 <= i < |rest| ensures rest[i..] == pieces[i + 1..] && rest[i] == pieces[i + 1] {
      }
      ScanUnique(space, rest);
      assert pieces == [pieces[0]] + rest;
      match pieces[0]
      case Literal(c) =>
        assert pieces[0..] == pieces;
        if MatchPrefix(space, s).Some? {
          MatchShape(space, s);
        }
        assert s[1..] == TextOf(rest);
      case Variable(name, text) =>
        var a, b :| Shape(space, text, a, name, b);
        ShapeMatches(space, a, name, b, TextOf(rest));
        assert s[|text|..] == TextOf(rest) && s[..|text|] == text;
    }
  }

  // -------------------------------------------------------------------- variables

  /** The names of the placeholders, in order. */
  function NamesOf(pieces: seq<Piece>): seq<string> {
    if pieces == [] then []
    else
      var last := pieces[|pieces| - 1];
      NamesOf(pieces[..|pieces| - 1]) + if last.Variable? then [last.name] else []
  }

  function VariablesOf(space: char -> bool, sql: string): seq<string> {
    FirstSeen(NamesOf(Scan(space, sql)))
  }

  /** The distinct names, by the loop that both scanners share. */
  method CollectNames(pieces: seq<Piece>) returns (out: seq<string>)
    ensures out == FirstSeen(NamesOf(pieces))
  {
    out := [];
    var seen := {};
    for i := 0 to |pieces|
      invariant out == FirstSeen(NamesOf(pieces[..i])) && forall x :: x in seen <==> x in out
    {
      assert pieces[..i + 1][..i] == pieces[..i];
      match pieces[i]
      case Literal(_) =>
        assert NamesOf(pieces[..i]) + [] == NamesOf(pieces[..i]);
      case Variable(name, _) =>
        FirstSeenSnoc(NamesOf(pieces[..i]), name);
        if name !in seen {
          seen := seen + {name};
          out := out + [name];
        }
    }
    assert pieces[..|pieces|] == pieces;
  }

  method Variables(sql: string) returns (out: seq<string>)
    ensures out == VariablesOf(GoSpace, sql)
  {
    out := CollectNames(Scan(GoSpace, sql));
  }

  /** The client's mirror. */
  method ParseVariables(sql: string) returns (out: seq<string>)
    ensures out == VariablesOf(JsSpace, sql)
  {
    out := CollectNames(Scan(JsSpace, sql));
  }

  // ---------------------------------------------------------------------- rendering

  datatype Rendering = Rendered(sql: string) | MissingValue(name: string)

  /** One pass: a placeholder with a value becomes the value, one without stays. */
  function Substituted(pieces: seq<Piece>, vars: map<string, string>): string {
    if pieces == [] then ""
    else
      Substituted(pieces[..|pieces| - 1], vars)
      + match pieces[|pieces| - 1]
        case Literal(c) => [c]
        case Variable(name, text) => if name in vars then vars[name] else text
  }

  /** The first name without a value. */
  predicate IsFirstMissing(names: seq<string>, vars: map<string, string>, name: string) {
    exists i :: 0 <= i < |names| && names[i] == name && name !in vars && forall j :: 0 <= j < i ==> names[j] in vars
  }

  /** What `missing` holds after a list of names. */
  predicate MissingOk(names: seq<string>, vars: map<string, string>, missing: seq<string>) {
    if missing == [] then forall i :: 0 <= i < |names| ==> names[i] in vars
    else IsFirstMissing(names, vars, missing[0])
  }

  lemma FirstMissingStays(a: seq<string>, b: seq<string>, vars: map<string, string>, name: string)
    requires IsFirstMissing(a, vars, name)
    ensures IsFirstMissing(a + b, vars, name)
  {
    var i :| 0 <= i < |a| && a[i] == name && name !in vars && forall j :: 0 <= j < i ==> a[j] in vars;
    assert (a + b)[i] == name && forall j :: 0 <= j < i ==> (a + b)[j] == a[j];
  }

  lemma FirstMissingAtEnd(names: seq<string>, vars: map<string, string>, name: string)
    requires name !in vars && forall i :: 0 <= i < |names| ==> names[i] in vars
    ensures IsFirstMissing(names + [name], vars, name)
  {
    assert (names + [name])[|names|] == name;
  }

  lemma MissingStep(names: seq<string>, vars: map<string, string>, missing: seq<string>, name: string)
    requires MissingOk(names, vars, missing)
    ensures MissingOk(names + [name], vars, if name in vars then missing else missing + [name])
  {
    if missing != [] {
      FirstMissingStays(names, [name], vars, missing[0]);
    } else if name !in vars {
      FirstMissingAtEnd(names, vars, name);
    }
  }

  ghost predicate AllGiven(sql: string, vars: map<string, string>) {
    forall name :: name in VariablesOf(GoSpace, sql) ==> name in vars
  }

  /** The server renders this text. */
  ghost predicate RendersAs(sql: string, vars: map<string, string>, text: string) {
    AllGiven(sql, vars) && text == Substituted(Scan(GoSpace, sql), vars)
  }

  lemma DistinctMissing(pre: seq<string>, name: string, post: seq<string>, vars: map<string, string>)
    requires name !in vars && forall i :: 0 <= i < |pre| ==> pre[i] in vars
    ensures IsFirstMissing(FirstSeen(pre + [name] + post), vars, name)
  {
    hide FirstSeen;
    var seen, all := FirstSeen(pre), FirstSeen(pre + [name] + post);
    forall i | 0 <= i < |seen| ensures seen[i] in vars {
      assert seen[i] in seen;
      FirstSeenHas(pre, seen[i]);
    }
    FirstSeenHas(pre, name);
    FirstSeenSnoc(pre, name);
    FirstSeenGrows(pre + [name], post);
    FirstMissingAtEnd(seen, vars, name);
    FirstMissingStays(seen + [name], all[|seen| + 1..], vars, name);
    assert all == seen + [name] + all[|seen| + 1..];
  }

  /** The first missing name among all is the first missing among the distinct ones. */
  lemma FirstMissingDistinct(names: seq<string>, vars: map<string, string>, name: string)
    requires IsFirstMissing(names, vars, name)
    ensures IsFirstMissing(FirstSeen(names), vars, name)
  {
    var i :| 0 <= i < |names| && names[i] == name && name !in vars && forall j :: 0 <= j < i ==> names[j] in vars;
    var pre, post := names[..i], names[i + 1..];
    assert names == pre + [name] + post;
    DistinctMissing(pre, name, post, vars);
  }

  lemma MissingMeans(names: seq<string>, vars: map<string, string>, missing: seq<string>)
    requires MissingOk(names, vars, missing)
    ensures missing == [] <==> forall name :: name in FirstSeen(names) ==> name in vars
    ensures missing != [] ==> IsFirstMissing(FirstSeen(names), vars, missing[0])
  {
    if missing != [] {
      FirstMissingDistinct(names, vars, missing[0]);
    } else {
      forall name | name in FirstSeen(names) ensures name in vars {
        FirstSeenHas(names, name);
      }
    }
  }

  /** Succeeds exactly when every variable has a value, and otherwise names the first one, in
      the order of `Variables`, that has none. */
  method Render(sql: string, vars: map<string, string>) returns (r: Rendering)
    ensures r.Rendered? <==> AllGiven(sql, vars)
    ensures r.Rendered? ==> RendersAs(sql, vars, r.sql)
    ensures r.MissingValue? ==> IsFirstMissing(VariablesOf(GoSpace, sql), vars, r.name)
  {
    var pieces := Scan(GoSpace, sql);
    var out, missing: seq<string> := "", [];
    for i := 0 to |pieces|
      invariant out == Substituted(pieces[..i], vars) && MissingOk(NamesOf(pieces[..i]), vars, missing)
    {
      hide MissingOk;
      assert pieces[..i + 1][..i] == pieces[..i];
      match pieces[i]
      case Literal(c) =>
        out := out + [c];
        assert NamesOf(pieces[..i]) + [] == NamesOf(pieces[..i]);
      case Variable(name, text) =>
        MissingStep(NamesOf(pieces[..i]), vars, missing, name);
        if name in vars {
          out := out + vars[name];
        } else {
          missing := missing + [name];
          out := out + text;
        }
    }
    assert pieces[..|pieces|] == pieces;
    MissingMeans(NamesOf(pieces), vars, missing);
    r := if |missing| > 0 then MissingValue(missing[0]) else Rendered(out);
  }

  // ----------------------------------------------------- what the rendered text is made of

  /** The literal text before, between and after the placeholders. */
  function Segments(pieces: seq<Piece>): (r: seq<string>)
    ensures |r| == |NamesOf(pieces)| + 1
  {
    if pieces == [] then [""]
    else
      var front, last := Segments(pieces[..|pieces| - 1]), pieces[|pieces| - 1];
      if last.Variable? then front + [""] else front[|front| - 1 := front[|front| - 1] + [last.c]]
  }

  function Interleaved(segments: seq<string>, values: seq<string>): string
    requires |segments| == |values| + 1
    decreases |values|
  {
    if values == [] then segments[0]
    else
      var n := |values|;
      Interleaved(segments[..n], values[..n - 1]) + values[n - 1] + segments[n]
  }

  function ValuesOf(names: seq<string>, vars: map<string, string>): seq<string>
    requires forall i :: 0 <= i < |names| ==> names[i] in vars
  {
    seq(|names|, i requires 0 <= i < |names| => vars[names[i]])
  }

  lemma InterleavedMore(segments: seq<string>, values: seq<string>, value: string)
    requires |segments| == |values| + 1
    ensures Interleaved(segments + [""], values + [value]) == Interleaved(segments, values) + value
  {
    var n := |values| + 1;
    assert (segments + [""])[..n] == segments && (values + [value])[..n - 1] == values;
    assert Interleaved(segments, values) + value + "" == Interleaved(segments, values) + value;
  }

  lemma InterleavedLonger(segments: seq<string>, values: seq<string>, c: char)
    requires |segments| == |values| + 1
    ensures Interleaved(segments[|segments| - 1 := segments[|segments| - 1] + [c]], values) == Interleaved(segments, values) + [c]
  {
    var n := |values|;
    var longer := segments[n := segments[n] + [c]];
    if values != [] {
      assert longer[..n] == segments[..n];
      Regroup(Interleaved(segments[..n], values[..n - 1]) + values[n - 1], segments[n], [c]);
    }
  }

  /** The rendered text is the template's literal segments, which no value changes, with the
      values in between, verbatim: inserted text is never scanned again. */
  lemma {:induction false} RenderedInterleaves(pieces: seq<Piece>, vars: map<string, string>)
    requires forall i :: 0 <= i < |NamesOf(pieces)| ==> NamesOf(pieces)[i] in vars
    ensures Substituted(pieces, vars) == Interleaved(Segments(pieces), ValuesOf(NamesOf(pieces), vars))
  {
    if pieces == [] {
    } else {
      hide Interleaved;
      var front, last := pieces[..|pieces| - 1], pieces[|pieces| - 1];
      var names, segs := NamesOf(front), Segments(front);
      forall i | 0 <= i < |names| ensures names[i] in vars {
        assert NamesOf(pieces)[i] == names[i];
      }
      RenderedInterleaves(front, vars);
      if last.Variable? {
        assert NamesOf(pieces)[|names|] == last.name;
        assert ValuesOf(NamesOf(pieces), vars) == ValuesOf(names, vars) + [vars[last.name]];
        InterleavedMore(segs, ValuesOf(names, vars), vars[last.name]);
      } else {
        assert NamesOf(pieces) == names;
        InterleavedLonger(segs, ValuesOf(names, vars), last.c);
      }
    }
  }

  // ------------------------------------------------------------------------- the mirror

  /** The values that the client counts as given. */
  function Supplied(values: map<string, string>): map<string, string> {
    map name | name in values && values[name] != "" :: values[name]
  }

  method RenderSql(sql: string, values: map<string, string>) returns (r: string)
    ensures r == Substituted(Scan(JsSpace, sql), Supplied(values))
  {
    var pieces := Scan(JsSpace, sql);
    r := "";
    for i := 0 to |pieces|
      invariant r == Substituted(pieces[..i], Supplied(values))
    {
      assert pieces[..i + 1][..i] == pieces[..i];
      match pieces[i]
      case Literal(c) => r := r + [c];
      case Variable(name, text) => r := r + if name in values && values[name] != "" then values[name] else text;
    }
    assert pieces[..|pieces|] == pieces;
  }

  /** What the client shows of a template. */
  function Preview(sql: string, values: map<string, string>): string {
    Substituted(Scan(JsSpace, sql), Supplied(values))
  }

  /** White space to the client only. */
  predicate ClientSpace(c: char) {
    || c == '\U{B}' || c == '\U{A0}' || c == '\U{1680}' || '\U{2000}' <= c <= '\U{200A}'
    || c == '\U{2028}' || c == '\U{2029}' || c == '\U{202F}' || c == '\U{205F}' || c == '\U{3000}' || c == '\U{FEFF}'
  }

  ghost predicate NoClientSpace(text: string) {
    forall c :: c in text ==> !ClientSpace(c)
  }

  /** No placeholder that the client finds holds white space that only it knows. */
  ghost predicate SameSpaces(sql: string) {
    forall i :: 0 <= i < |Scan(JsSpace, sql)| && Scan(JsSpace, sql)[i].Variable? ==> NoClientSpace(Scan(JsSpace, sql)[i].text)
  }

  lemma SpaceClasses()
    ensures IsSpaceClass(GoSpace) && IsSpaceClass(JsSpace)
  {}

  lemma ClientSpaces()
    ensures forall c :: ClientSpace(c) <==> JsSpace(c) && !GoSpace(c)
    ensures forall c :: GoSpace(c) ==> JsSpace(c)
  {}

  /** The client's placeholders that are the server's too. */
  lemma PlaceholderForBoth(text: string, name: string)
    ensures IsPlaceholder(GoSpace, text, name) <==> IsPlaceholder(JsSpace, text, name) && NoClientSpace(text)
  {
    ClientSpaces();
    SpaceClasses();
    hide ClientSpace, GoSpace, JsSpace;
    if IsPlaceholder(GoSpace, text, name) {
      var a, b :| Shape(GoSpace, text, a, name, b);
      assert Shape(JsSpace, text, a, name, b);
    }
    if IsPlaceholder(JsSpace, text, name) && NoClientSpace(text) {
      var a, b :| Shape(JsSpace, text, a, name, b);
      assert forall c :: c in a || c in b ==> c in text;
      assert forall i :: 0 <= i < |a| ==> a[i] in a;
      assert forall i :: 0 <= i < |b| ==> b[i] in b;
      assert Shape(GoSpace, text, a, name, b);
    }
  }

  /** Client and server cut a template alike if and only if no placeholder that the client
      finds holds white space that only it knows; then they find the same variables. */
  lemma MirrorScans(sql: string)
    ensures Scan(JsSpace, sql) == Scan(GoSpace, sql) <==> SameSpaces(sql)
    ensures SameSpaces(sql) ==> VariablesOf(JsSpace, sql) == VariablesOf(GoSpace, sql)
  {
    var js, go := Scan(JsSpace, sql), Scan(GoSpace, sql);
    hide Scan, IsPlaceholder, NoClientSpace;
    SpaceClasses();
    ScanIsScan(JsSpace, sql);
    ScanIsScan(GoSpace, sql);
    if SameSpaces(sql) {
      forall i | 0 <= i < |js|
        ensures match js[i]
                case Literal(_) => forall n, name :: 0 <= n <= |TextOf(js[i..])| ==> !IsPlaceholder(GoSpace, TextOf(js[i..])[..n], name)
                case Variable(name, text) => IsPlaceholder(GoSpace, text, name)
      {
        match js[i]
        case Literal(_) =>
          forall n, name | 0 <= n <= |TextOf(js[i..])| ensures !IsPlaceholder(GoSpace, TextOf(js[i..])[..n], name) {
            PlaceholderForBoth(TextOf(js[i..])[..n], name);
          }
        case Variable(name, text) => PlaceholderForBoth(text, name);
      }
      assert IsScan(GoSpace, js);
      ScanUnique(GoSpace, js);
    } else {
      var i :| 0 <= i < |js| && js[i].Variable? && !NoClientSpace(js[i].text);
      PlaceholderForBoth(js[i].text, js[i].name);
    }
  }

  lemma {:induction false} SuppliedAgrees(pieces: seq<Piece>, values: map<string, string>)
    requires forall i :: 0 <= i < |pieces| && pieces[i].Variable? ==> pieces[i].text != ""
    ensures |Substituted(pieces, Supplied(values))| >= |Substituted(pieces, values)|
    ensures if forall name :: name in NamesOf(pieces) && name in values ==> values[name] != ""
      then Substituted(pieces, Supplied(values)) == Substituted(pieces, values)
      else |Substituted(pieces, Supplied(values))| > |Substituted(pieces, values)|
  {
    if pieces == [] {
    } else {
      SuppliedAgrees(pieces[..|pieces| - 1], values);
    }
  }

  /** On such a template the preview is the text that the server renders if and only if every
      variable has a value and none is empty. */
  lemma MirrorRenders(sql: string, values: map<string, string>)
    requires SameSpaces(sql)
    ensures RendersAs(sql, values, Preview(sql, values))
       <==> forall name :: name in VariablesOf(GoSpace, sql) ==> name in values && values[name] != ""
  {
    var pieces := Scan(GoSpace, sql);
    hide Scan, SameSpaces;
    MirrorScans(sql);
    SpaceClasses();
    ScanIsScan(GoSpace, sql);
    forall i | 0 <= i < |pieces| && pieces[i].Variable? ensures pieces[i].text != "" {
      assert IsPlaceholder(GoSpace, pieces[i].text, pieces[i].name);
    }
    SuppliedAgrees(pieces, values);
    forall name ensures name in FirstSeen(NamesOf(pieces)) <==> name in NamesOf(pieces) {
      FirstSeenHas(NamesOf(pieces), name);
    }
  }

  lemma {:induction false} NoBraceNoNames(s: string)
    requires '{' !in s
    ensures forall i :: 0 <= i < |Scan(GoSpace, s)| ==> Scan(GoSpace, s)[i].Literal?
    decreases |s|
  {
    if s == "" {
    } else {
      assert s[0] in s;
      NoBraceNoNames(s[1..]);
    }
  }

  lemma {:induction false} NoVariableNoNames(pieces: seq<Piece>)
    requires forall i :: 0 <= i < |pieces| ==> pieces[i].Literal?
    ensures NamesOf(pieces) == []
  {
    if pieces == [] {
    } else {
      NoVariableNoNames(pieces[..|pieces| - 1]);
    }
  }

  lemma ServerMisses()
    ensures VariablesOf(GoSpace, "{{\U{A0}x}}") == []
  {
    var sql := "{{\U{A0}x}}";
    assert MatchPrefix(GoSpace, sql) == None by {
      assert sql[2..][0] == '\U{A0}' && Skip(GoSpace, sql[2..]) == sql[2..] && Take(IsWord, sql[2..]) == "";
    }
    assert MatchPrefix(GoSpace, sql[1..]) == None;
    hide MatchPrefix;
    assert Scan(GoSpace, sql) == [Literal('{')] + Scan(GoSpace, sql[1..]);
    assert Scan(GoSpace, sql[1..]) == [Literal('{')] + Scan(GoSpace, sql[1..][1..]);
    NoBraceNoNames(sql[1..][1..]);
    NoVariableNoNames(Scan(GoSpace, sql));
  }

  lemma ClientFinds()
    ensures VariablesOf(JsSpace, "{{\U{A0}x}}") == ["x"]
  {
    var sql := "{{\U{A0}x}}";
    assert sql == "{{" + "\U{A0}" + "x" + "" + "}}" + "";
    ShapeMatches(JsSpace, "\U{A0}", "x", "", "");
    hide MatchPrefix;
    assert sql[6..] == "" && sql[..6] == sql;
    var pieces := [Variable("x", sql)];
    assert Scan(JsSpace, sql) == pieces + Scan(JsSpace, "") == pieces;
    assert pieces[..0] == [] && NamesOf(pieces) == [] + ["x"] == ["x"];
    FirstSeenSnoc([], "x");
  }

  /** White space that only the client knows makes them differ. */
  lemma MirrorDiffers()
    ensures VariablesOf(GoSpace, "{{\U{A0}x}}") == [] && VariablesOf(JsSpace, "{{\U{A0}x}}") == ["x"]
  {
    ServerMisses();
    ClientFinds();
  }
}
