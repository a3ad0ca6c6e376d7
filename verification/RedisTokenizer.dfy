/** Splitting a Redis command line into arguments (internal/service/redis_query.go:107-147). */
module RedisTokenizer {
  import opened Text

  datatype Tokens = Tokens(args: seq<string>) | UnterminatedQuote

  predicate IsBlank(c: char) {
    c == ' ' || c == '\t' || c == '\n' || c == '\r'
  }

  predicate IsQuote(c: char) {
    c == '\'' || c == '"'
  }

  /** Where the scan stands: the arguments so far, the one being read, the open quote. */
  datatype State = State(tokens: seq<string>, cur: string, inToken: bool, quote: Option<char>)

  const START := State([], "", false, None)

  function Flush(s: State): State {
    if s.inToken then s.(tokens := s.tokens + [s.cur], cur := "", inToken := false) else s
  }

  function Step(s: State, c: char): State {
    if s.quote.Some? then
      if c == s.quote.value then s.(quote := None) else s.(cur := s.cur + [c])
    else if IsQuote(c) then s.(inToken := true, quote := Some(c))
    else if IsBlank(c) then Flush(s)
    else s.(inToken := true, cur := s.cur + [c])
  }

  function Run(s: State, line: string): State {
    if line == "" then s else Step(Run(s, line[..|line| - 1]), line[|line| - 1])
  }

  function Tokenized(line: string): Tokens {
    var end := Run(START, line);
    if end.quote.Some? then UnterminatedQuote else Tokens(Flush(end).tokens)
  }

  method Tokenize(line: string) returns (r: Tokens)
    ensures r == Tokenized(line)
  {
    var tokens, cur, inToken := [], "", false;
    var quote: Option<char> := None;
    for i := 0 to |line|
      invariant State(tokens, cur, inToken, quote) == Run(START, line[..i])
    {
      var c := line[i];
      assert line[..i + 1][..i] == line[..i];
      if quote.Some? {
        if c == quote.value {
          quote := None;
        } else {
          cur := cur + [c];
        }
      } else if IsQuote(c) {
        inToken, quote := true, Some(c);
      } else if IsBlank(c) {
        if inToken {
          tokens, cur, inToken := tokens + [cur], "", false;
        }
      } else {
        inToken, cur := true, cur + [c];
      }
    }
    assert line[..|line|] == line;
    if quote.Some? {
      return UnterminatedQuote;
    }
    if inToken {
      tokens := tokens + [cur];
    }
    r := Tokens(tokens);
  }

  lemma {:induction false} RunConcat(s: State, a: string, b: string)
    ensures Run(s, a + b) == Run(Run(s, a), b)
    decreases |b|
  {
    if b == "" {
      assert a + b == a;
    } else {
      assert (a + b)[..|a + b| - 1] == a + b[..|b| - 1];
      RunConcat(s, a, b[..|b| - 1]);
    }
  }

  // ------------------------------------------------------------------ writing arguments

  /** An argument as written: bare, or wrapped in a quote character it does not contain. */
  datatype Written = Bare(text: string) | Quoted(quote: char, text: string)

  ghost predicate CanWrite(w: Written) {
    match w
    case Bare(text) => text != "" && forall i :: 0 <= i < |text| ==> text[i] !in " \t\n\r'\""
    case Quoted(q, text) => (q == '\'' || q == '"') && q !in text
  }

  function TextOf(w: Written): string {
    match w
    case Bare(text) => text
    case Quoted(q, text) => [q] + text + [q]
  }

  ghost predicate IsGap(gap: string) {
    forall i :: 0 <= i < |gap| ==> gap[i] in " \t\n\r"
  }

  /** The arguments, each with the white space before it. */
  function LineOf(args: seq<(string, Written)>): string {
    if args == [] then ""
    else LineOf(args[..|args| - 1]) + args[|args| - 1].0 + TextOf(args[|args| - 1].1)
  }

  function Values(args: seq<(string, Written)>): seq<string> {
    seq(|args|, i requires 0 <= i < |args| => args[i].1.text)
  }

  /** Every argument can be written, and white space stands between each two. */
  ghost predicate Separated(args: seq<(string, Written)>) {
    forall i :: 0 <= i < |args| ==> CanWrite(args[i].1) && IsGap(args[i].0) && (i > 0 ==> args[i].0 != "")
  }

  lemma {:induction false} RunGap(s: State, gap: string)
    requires IsGap(gap) && s.quote == None
    ensures Run(s, gap) == if gap == "" then s else Flush(s)
  {
    if gap == "" {
    } else {
      RunGap(s, gap[..|gap| - 1]);
    }
  }

  lemma {:induction false} RunBare(s: State, text: string)
    requires s.quote == None && forall i :: 0 <= i < |text| ==> !IsBlank(text[i]) && !IsQuote(text[i])
    ensures Run(s, text) == if text == "" then s else s.(inToken := true, cur := s.cur + text)
  {
    if text == "" {
    } else {
      RunBare(s, text[..|text| - 1]);
      assert text == text[..|text| - 1] + [text[|text| - 1]];
      if |text| > 1 {
        Regroup(s.cur, text[..|text| - 1], [text[|text| - 1]]);
      }
    }
  }

  lemma {:induction false} RunInQuote(s: State, text: string)
    requires s.quote.Some? && s.quote.value !in text
    ensures Run(s, text) == s.(cur := s.cur + text)
  {
    if text == "" {
      assert s.cur + "" == s.cur;
    } else {
      RunInQuote(s, text[..|text| - 1]);
      assert text == text[..|text| - 1] + [text[|text| - 1]];
      Regroup(s.cur, text[..|text| - 1], [text[|text| - 1]]);
    }
  }

  lemma RunWritten(s: State, w: Written)
    requires CanWrite(w) && s.quote == None
    ensures Run(s, TextOf(w)) == s.(inToken := true, cur := s.cur + w.text)
  {
    match w
    case Bare(text) => RunBare(s, text);
    case Quoted(q, text) =>
      RunConcat(s, [q] + text, [q]);
      RunConcat(s, [q], text);
      RunInQuote(Step(s, q), text);
  }

  /** White space ends the argument before; what is written next is the argument being read. */
  lemma RunNext(s: State, gap: string, w: Written)
    requires IsGap(gap) && CanWrite(w) && s.quote == None
    requires gap != "" || !s.inToken
    requires !s.inToken ==> s.cur == ""
    ensures Run(Run(s, gap), TextOf(w)) == State(Flush(s).tokens, w.text, true, None)
  {
    RunGap(s, gap);
    RunWritten(Run(s, gap), w);
    assert "" + w.text == w.text;
  }

  lemma LineSnoc(args: seq<(string, Written)>)
    requires Separated(args) && args != []
    ensures var front, last := args[..|args| - 1], args[|args| - 1];
      && Separated(front) && CanWrite(last.1) && IsGap(last.0) && (front != [] ==> last.0 != "")
      && Values(args) == Values(front) + [last.1.text]
  {
    hide LineOf, TextOf;
  }

  lemma {:induction false} RunLine(args: seq<(string, Written)>)
    requires Separated(args)
    ensures var end := Run(START, LineOf(args));
      && end.quote == None && Flush(end).tokens == Values(args)
      && (end.inToken <==> args != []) && (args == [] ==> end == START)
  {
    if args == [] {
      assert Values(args) == [];
    } else {
      hide Run, Flush, CanWrite, IsGap, LineOf, TextOf, Values, Separated;
      var front, last := args[..|args| - 1], args[|args| - 1];
      LineSnoc(args);
      RunLine(front);
      var mid := Run(START, LineOf(front));
      RunConcat(START, LineOf(front) + last.0, TextOf(last.1));
      RunConcat(START, LineOf(front), last.0);
      RunNext(mid, last.0, last.1);
    }
  }

  /** Tokenizing undoes quoting: arguments written bare or quoted, with white space between
      them and anywhere around them, come back exactly. */
  lemma TokenizeInvertsWriting(args: seq<(string, Written)>, trailing: string)
    requires Separated(args) && IsGap(trailing)
    ensures Tokenized(LineOf(args) + trailing) == Tokens(Values(args))
  {
    RunLine(args);
    RunConcat(START, LineOf(args), trailing);
    RunGap(Run(START, LineOf(args)), trailing);
  }

  // ------------------------------------------------------------------------- open quotes

  /** A line cut up: quoted parts, and single characters outside quotes. */
  datatype Item = Plain(c: char) | Wrapped(quote: char, text: string)

  ghost predicate Closed(items: seq<Item>) {
    forall i :: 0 <= i < |items| ==>
      match items[i]
      case Plain(c) => c != '\'' && c != '"'
      case Wrapped(q, text) => (q == '\'' || q == '"') && q !in text
  }

  function ItemsText(items: seq<Item>): string {
    if items == [] then ""
    else
      ItemsText(items[..|items| - 1]) + match items[|items| - 1]
        case Plain(c) => [c]
        case Wrapped(q, text) => [q] + text + [q]
  }

  lemma {:induction false} ClosedLeavesNoQuote(items: seq<Item>)
    requires Closed(items)
    ensures Run(START, ItemsText(items)).quote == None
  {
    if items == [] {
    } else {
      var front := ItemsText(items[..|items| - 1]);
      ClosedLeavesNoQuote(items[..|items| - 1]);
      var mid := Run(START, front);
      match items[|items| - 1]
      case Plain(c) =>
        RunConcat(START, front, [c]);
      case Wrapped(q, text) =>
        RunConcat(START, front, [q] + text + [q]);
        RunConcat(mid, [q] + text, [q]);
        RunConcat(mid, [q], text);
        RunInQuote(Step(mid, q), text);
    }
  }

  /** Every line is closed, or closed up to a quote that is still open at its end. */
  lemma {:induction false} CutUp(line: string) returns (items: seq<Item>, tail: string)
    ensures Closed(items)
    ensures match Run(START, line).quote
            case None => line == ItemsText(items) && tail == ""
            case Some(q) => line == ItemsText(items) + [q] + tail && (q == '\'' || q == '"') && q !in tail
  {
    if line == "" {
      items, tail := [], "";
    } else {
      var front, c := line[..|line| - 1], line[|line| - 1];
      assert line == front + [c];
      items, tail := CutUp(front);
      match Run(START, front).quote
      case Some(q) =>
        if c == q {
          var longer := items + [Wrapped(q, tail)];
          assert longer[..|longer| - 1] == items;
          Regroup(ItemsText(items), [q] + tail, [q]);
          Regroup(ItemsText(items), [q], tail);
          items, tail := longer, "";
        } else {
          Regroup(ItemsText(items) + [q], tail, [c]);
          tail := tail + [c];
        }
      case None =>
        if IsQuote(c) {
          assert ItemsText(items) + [c] + "" == line;
        } else {
          var longer := items + [Plain(c)];
          assert longer[..|longer| - 1] == items;
          items := longer;
        }
    }
  }

  ghost predicate IsClosed(line: string) {
    exists items :: Closed(items) && ItemsText(items) == line
  }

  /** A command is refused exactly when a quote is still open at its end. */
  lemma RefusesOpenQuotes(line: string)
    ensures Tokenized(line) == UnterminatedQuote <==> !IsClosed(line)
  {
    if IsClosed(line) {
      var items :| Closed(items) && ItemsText(items) == line;
      ClosedLeavesNoQuote(items);
    }
    var items, tail := CutUp(line);
  }
}
