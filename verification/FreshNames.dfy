/** The counting loops that make up a name not taken yet (internal/project/transfer.go:185-203,
    internal/project/service.go:145-155). */
module FreshNames {
  import opened Text

  /** `base (n)` for workspaces, `base-n` for service ids. */
  datatype Style = Parenthesized | Dashed

  function Candidate(style: Style, base: string, n: nat): string {
    match style
    case Parenthesized => base + " (" + Digits(n) + ")"
    case Dashed => base + "-" + Digits(n)
  }

  lemma CandidatesDiffer(style: Style, base: string, m: nat, n: nat)
    requires Candidate(style, base, m) == Candidate(style, base, n)
    ensures m == n
  {
    var pre := base + if style.Parenthesized? then " (" else "-";
    var a, b := Candidate(style, base, m), Candidate(style, base, n);
    var post := if style.Parenthesized? then 1 else 0;
    assert a == b;
    assert a[|pre|..|a| - post] == Digits(m);
    assert b[|pre|..|b| - post] == Digits(n);
    DigitsInjective(m, n);
  }

  ghost predicate AllTaken(taken: set<string>, style: Style, base: string, n: nat) {
    forall k :: 2 <= k < n ==> Candidate(style, base, k) in taken
  }

  ghost function Tried(style: Style, base: string, n: nat): set<string>
    requires n >= 2
  {
    if n == 2 then {} else Tried(style, base, n - 1) + {Candidate(style, base, n - 1)}
  }

  lemma {:induction false} TriedAreDistinct(style: Style, base: string, n: nat)
    requires n >= 2
    ensures |Tried(style, base, n)| == n - 2
    ensures forall c :: c in Tried(style, base, n) ==> exists k :: 2 <= k < n && c == Candidate(style, base, k)
  {
    hide Candidate;
    if n == 2 {
    } else {
      TriedAreDistinct(style, base, n - 1);
      if Candidate(style, base, n - 1) in Tried(style, base, n - 1) {
        var k :| 2 <= k < n - 1 && Candidate(style, base, n - 1) == Candidate(style, base, k);
        CandidatesDiffer(style, base, n - 1, k);
      }
    }
  }

  lemma {:induction false} SubsetSize(a: set<string>, b: set<string>)
    requires a <= b
    ensures |a| <= |b|
  {
    if a == {} {
    } else {
      var x :| x in a;
      SubsetSize(a - {x}, b - {x});
    }
  }

  /** Only so many names can be taken. */
  lemma Pigeonhole(taken: set<string>, style: Style, base: string, n: nat)
    requires n >= 2 && AllTaken(taken, style, base, n)
    ensures n - 2 <= |taken|
  {
    TriedAreDistinct(style, base, n);
    SubsetSize(Tried(style, base, n), taken);
  }

  /** The name is free; it is the base, or the base and every smaller candidate are taken. */
  ghost predicate IsFresh(taken: set<string>, style: Style, base: string, r: string) {
    && r !in taken
    && (r == base || (base in taken && exists n :: 2 <= n && r == Candidate(style, base, n) && AllTaken(taken, style, base, n)))
  }

  /** There is always such a name, and only one. */
  function FreshFrom(taken: set<string>, style: Style, base: string, n: nat): (r: string)
    requires base in taken && n >= 2 && AllTaken(taken, style, base, n)
    ensures IsFresh(taken, style, base, r)
    decreases |taken| + 2 - n
  {
    Pigeonhole(taken, style, base, n);
    if Candidate(style, base, n) !in taken then Candidate(style, base, n)
    else
      Pigeonhole(taken, style, base, n + 1);
      FreshFrom(taken, style, base, n + 1)
  }

  function Fresh(taken: set<string>, style: Style, base: string): (r: string)
    ensures IsFresh(taken, style, base, r)
  {
    if base !in taken then base else FreshFrom(taken, style, base, 2)
  }

  lemma FreshUnique(taken: set<string>, style: Style, base: string, r: string, s: string)
    requires IsFresh(taken, style, base, r) && IsFresh(taken, style, base, s)
    ensures r == s
  {
    if r != base && s != base {
      var m :| 2 <= m && r == Candidate(style, base, m) && AllTaken(taken, style, base, m);
      var n :| 2 <= n && s == Candidate(style, base, n) && AllTaken(taken, style, base, n);
    }
  }

  /** The loop. It halts for every finite set of taken names. */
  method FindFresh(taken: set<string>, style: Style, base: string) returns (r: string)
    ensures IsFresh(taken, style, base, r) && r == Fresh(taken, style, base)
  {
    if base !in taken {
      return base;
    }
    var n := 2;
    r := Candidate(style, base, n);
    while r in taken
      invariant n >= 2 && r == Candidate(style, base, n) && AllTaken(taken, style, base, n)
      decreases |taken| + 2 - n
    {
      Pigeonhole(taken, style, base, n + 1);
      n := n + 1;
      r := Candidate(style, base, n);
    }
    FreshUnique(taken, style, base, r, Fresh(taken, style, base));
  }
}
