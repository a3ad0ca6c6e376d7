/** The few operations of Go's `strings` package that the modelled code leans on.
    Text is a sequence of Unicode code points; none of the code depends on how they
    are encoded as bytes. */
module Text {

  datatype Option<+T> = None | Some(value: T)

  /** `unicode.IsSpace`, the class that `strings.TrimSpace` trims. */
  predicate IsSpace(c: char) {
    || '\t' <= c <= '\r' || c == ' '
    || c == '\U{85}' || c == '\U{A0}' || c == '\U{1680}'
    || '\U{2000}' <= c <= '\U{200A}'
    || c == '\U{2028}' || c == '\U{2029}' || c == '\U{202F}' || c == '\U{205F}' || c == '\U{3000}'
  }

  ghost predicate AllSpace(s: string) {
    forall i :: 0 <= i < |s| ==> IsSpace(s[i])
  }

  function TrimLeft(s: string): string {
    if s != "" && IsSpace(s[0]) then TrimLeft(s[1..]) else s
  }

  function TrimRight(s: string): string {
    if s != "" && IsSpace(s[|s| - 1]) then TrimRight(s[..|s| - 1]) else s
  }

  function TrimSpace(s: string): string {
    TrimRight(TrimLeft(s))
  }

  predicate HasSuffix(s: string, t: string) {
    |t| <= |s| && s[|s| - |t|..] == t
  }

  /** Non-empty text that no trimming changes. */
  predicate Tight(t: string) {
    t != "" && !IsSpace(t[0]) && !IsSpace(t[|t| - 1])
  }

  lemma {:induction false} TrimLeftSkips(a: string, t: string)
    requires AllSpace(a)
    requires t == "" || !IsSpace(t[0])
    ensures TrimLeft(a + t) == t
  {
    if a == "" {
      assert a + t == t;
    } else {
      assert (a + t)[1..] == a[1..] + t;
      TrimLeftSkips(a[1..], t);
    }
  }

  lemma {:induction false} TrimRightSkips(t: string, b: string)
    requires AllSpace(b)
    requires t == "" || !IsSpace(t[|t| - 1])
    ensures TrimRight(t + b) == t
  {
    if b == "" {
      assert t + b == t;
    } else {
      assert (t + b)[..|t + b| - 1] == t + b[..|b| - 1];
      TrimRightSkips(t, b[..|b| - 1]);
    }
  }

  /** Trimming removes exactly the white space around a tight core. */
  lemma TrimSpaceCore(a: string, t: string, b: string)
    requires AllSpace(a) && AllSpace(b) && Tight(t)
    ensures TrimSpace(a + t + b) == t
  {
    assert a + t + b == a + (t + b);
    TrimLeftSkips(a, t + b);
    TrimRightSkips(t, b);
  }

  lemma TrimSpaceOfSpace(a: string)
    requires AllSpace(a)
    ensures TrimSpace(a) == ""
  {
    assert a + "" == a;
    TrimLeftSkips(a, "");
  }

  /** Every text splits into white space, its trimmed core, and white space. */
  lemma {:induction false} TrimLeftSplits(s: string) returns (a: string)
    ensures AllSpace(a) && s == a + TrimLeft(s)
    ensures TrimLeft(s) == "" || !IsSpace(TrimLeft(s)[0])
  {
    if s == "" || !IsSpace(s[0]) {
      a := "";
    } else {
      var a' := TrimLeftSplits(s[1..]);
      a := [s[0]] + a';
      assert s == [s[0]] + s[1..];
    }
  }

  lemma {:induction false} TrimRightSplits(s: string) returns (b: string)
    ensures AllSpace(b) && s == TrimRight(s) + b
    ensures TrimRight(s) == "" || !IsSpace(TrimRight(s)[|TrimRight(s)| - 1])
  {
    if s == "" || !IsSpace(s[|s| - 1]) {
      b := "";
    } else {
      var b' := TrimRightSplits(s[..|s| - 1]);
      b := b' + [s[|s| - 1]];
      assert s == s[..|s| - 1] + [s[|s| - 1]];
    }
  }

  lemma TrimSpaceSplits(s: string) returns (a: string, b: string)
    ensures AllSpace(a) && AllSpace(b) && s == a + TrimSpace(s) + b
    ensures TrimSpace(s) == "" || Tight(TrimSpace(s))
  {
    a := TrimLeftSplits(s);
    b := TrimRightSplits(TrimLeft(s));
    assert s == a + (TrimSpace(s) + b);
    if TrimSpace(s) != "" {
      assert TrimLeft(s)[0] == TrimSpace(s)[0];
    }
  }

  /** Decimal digits of a natural number, as `%d` prints them. */
  function Digits(n: nat): (s: string)
    ensures s != ""
    ensures forall i :: 0 <= i < |s| ==> '0' <= s[i] <= '9'
  {
    if n < 10 then [('0' as int + n) as char] else Digits(n / 10) + [('0' as int + n % 10) as char]
  }

  function Decimal(n: int): (s: string)
    ensures s != ""
    ensures forall i :: 0 <= i < |s| ==> '0' <= s[i] <= '9' || s[i] == '-'
  {
    if n < 0 then "-" + Digits(-n) else Digits(n)
  }

  /** The number a digit string denotes. */
  function DigitsValue(s: string): int
  {
    if s == "" then 0 else 10 * DigitsValue(s[..|s| - 1]) + (s[|s| - 1] as int - '0' as int)
  }

  /** Printing a number loses nothing: its value can be read back. */
  lemma {:induction false} DigitsRoundTrip(n: nat)
    ensures DigitsValue(Digits(n)) == n
  {
    if n < 10 {
      assert Digits(n)[..0] == "";
    } else {
      assert Digits(n)[..|Digits(n)| - 1] == Digits(n / 10);
      DigitsRoundTrip(n / 10);
    }
  }

  lemma DigitsInjective(m: nat, n: nat)
    requires Digits(m) == Digits(n)
    ensures m == n
  {
    DigitsRoundTrip(m);
    DigitsRoundTrip(n);
  }

  /** The digits at the front of a text. */
  function TakeDigits(s: string): string {
    if s != "" && '0' <= s[0] <= '9' then [s[0]] + TakeDigits(s[1..]) else ""
  }

  lemma {:induction false} TakeDigitsOf(d: string, rest: string)
    requires forall i :: 0 <= i < |d| ==> '0' <= d[i] <= '9'
    requires rest == "" || !('0' <= rest[0] <= '9')
    ensures TakeDigits(d + rest) == d
  {
    if d == "" {
      assert d + rest == rest;
    } else {
      assert (d + rest)[1..] == d[1..] + rest;
      TakeDigitsOf(d[1..], rest);
    }
  }

  lemma {:induction false} TakeDigitsShort(s: string)
    ensures |TakeDigits(s)| <= |s| && forall i :: 0 <= i < |TakeDigits(s)| ==> '0' <= TakeDigits(s)[i] <= '9'
  {
    if s == "" || !('0' <= s[0] <= '9') {
    } else {
      TakeDigitsShort(s[1..]);
    }
  }

  lemma {:induction false} DigitsValueNat(s: string)
    requires forall i :: 0 <= i < |s| ==> '0' <= s[i] <= '9'
    ensures DigitsValue(s) >= 0
  {
    if s == "" {
    } else {
      DigitsValueNat(s[..|s| - 1]);
    }
  }

  /** Drops a fixed piece of text. */
  function DropPrefix(prefix: string, s: string): Option<string> {
    if prefix <= s then Some(s[|prefix|..]) else None
  }

  /** The number at the front of a text, as `%d` prints it. */
  function ReadDecimal(s: string): Option<(int, string)> {
    var digits := TakeDigits(if s != "" && s[0] == '-' then s[1..] else s);
    TakeDigitsShort(if s != "" && s[0] == '-' then s[1..] else s);
    if digits == "" then None
    else if s[0] == '-' then Some((-DigitsValue(digits), s[1 + |digits|..]))
    else Some((DigitsValue(digits), s[|digits|..]))
  }

  lemma ReadsDigitsBack(n: nat, rest: string)
    requires rest == "" || !('0' <= rest[0] <= '9')
    ensures ReadDecimal(Digits(n) + rest) == Some((n, rest))
  {
    var digits := Digits(n);
    TakeDigitsOf(digits, rest);
    DigitsRoundTrip(n);
    hide Digits, DigitsValue, TakeDigits;
    assert (digits + rest)[|digits|..] == rest && (digits + rest)[0] == digits[0];
  }

  lemma MinusParts(digits: string, rest: string)
    ensures var s := "-" + digits + rest; s[0] == '-' && s[1..] == digits + rest && s[1 + |digits|..] == rest
  {}

  lemma ReadsMinusBack(n: int, rest: string)
    requires n > 0 && (rest == "" || !('0' <= rest[0] <= '9'))
    ensures ReadDecimal("-" + Digits(n) + rest) == Some((-n, rest))
  {
    var digits := Digits(n);
    TakeDigitsOf(digits, rest);
    DigitsRoundTrip(n);
    hide Digits, DigitsValue, TakeDigits;
    MinusParts(digits, rest);
  }

  lemma ReadsDecimalBack(n: int, rest: string)
    requires rest == "" || !('0' <= rest[0] <= '9')
    ensures ReadDecimal(Decimal(n) + rest) == Some((n, rest))
  {
    hide ReadDecimal, Digits;
    if n < 0 {
      ReadsMinusBack(-n, rest);
    } else {
      ReadsDigitsBack(n, rest);
    }
  }

  // --------------------------------------------------------------------------- lines

  /** The first line of `s` without its newline, and what follows that newline. */
  function CutLine(s: string): (r: (string, string))
    ensures '\n' !in r.0
    ensures s == r.0 || s == r.0 + "\n" + r.1
    ensures s == r.0 ==> r.1 == ""
    ensures s != "" ==> |r.1| < |s|
  {
    if s == "" then ("", "")
    else if s[0] == '\n' then ("", s[1..])
    else var (raw, rest) := CutLine(s[1..]); ([s[0]] + raw, rest)
  }

  lemma {:induction false} CutLineAt(raw: string, rest: string)
    requires '\n' !in raw
    ensures CutLine(raw + "\n" + rest) == (raw, rest)
  {
    var s := raw + "\n" + rest;
    if raw == "" {
      assert s == "\n" + rest;
    } else {
      assert s[1..] == raw[1..] + "\n" + rest;
      CutLineAt(raw[1..], rest);
      assert raw == [raw[0]] + raw[1..];
    }
  }

  // ------------------------------------------------------------------------- joining

  /** `strings.Join`. */
  function Join(parts: seq<string>, sep: string): string {
    if |parts| == 0 then "" else if |parts| == 1 then parts[0] else parts[0] + sep + Join(parts[1..], sep)
  }

  lemma JoinStep(parts: seq<string>, sep: string)
    requires parts != []
    ensures Join(parts, sep) == parts[0] + if |parts| == 1 then "" else sep + Join(parts[1..], sep)
  {
    if |parts| > 1 {
      assert parts[0] + sep + Join(parts[1..], sep) == parts[0] + (sep + Join(parts[1..], sep));
    }
  }

  lemma Regroup<T>(a: seq<T>, b: seq<T>, c: seq<T>)
    ensures a + b + c == a + (b + c)
  {}

  lemma Regroup4<T>(a: seq<T>, b: seq<T>, c: seq<T>, d: seq<T>)
    ensures a + b + c + d == a + (b + c + d)
  {}

  lemma Regroup5<T>(a: seq<T>, b: seq<T>, c: seq<T>, d: seq<T>, e: seq<T>)
    ensures a + b + c + d + e == a + (b + c + d + e)
  {}
}
