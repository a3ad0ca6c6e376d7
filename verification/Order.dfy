/** Text in the order Go's `sort.Strings` and SQLite's `ORDER BY` put it: by bytes of its
    UTF-8 form, which is by code points. */
module Order {

  predicate LE(a: string, b: string) {
    if a == "" then true
    else if b == "" then false
    else if a[0] == b[0] then LE(a[1..], b[1..])
    else a[0] < b[0]
  }

  lemma {:induction false} Total(a: string, b: string)
    ensures LE(a, b) || LE(b, a)
  {
    if a == "" || b == "" || a[0] != b[0] {
    } else {
      Total(a[1..], b[1..]);
    }
  }

  lemma {:induction false} Antisymmetric(a: string, b: string)
    requires LE(a, b) && LE(b, a)
    ensures a == b
  {
    if a == "" || b == "" {
    } else {
      Antisymmetric(a[1..], b[1..]);
      assert a == [a[0]] + a[1..] && b == [b[0]] + b[1..];
    }
  }

  lemma {:induction false} Transitive(a: string, b: string, c: string)
    requires LE(a, b) && LE(b, c)
    ensures LE(a, c)
  {
    if a == "" || b == "" || c == "" || a[0] != b[0] || b[0] != c[0] {
    } else {
      Transitive(a[1..], b[1..], c[1..]);
    }
  }

  ghost predicate Sorted(s: seq<string>) {
    forall i, j :: 0 <= i < j < |s| ==> LE(s[i], s[j])
  }

  /** The elements of a set, each once, in order. */
  ghost predicate IsListing(s: seq<string>, keys: set<string>) {
    && Sorted(s)
    && (forall i, j :: 0 <= i < j < |s| ==> s[i] != s[j])
    && (forall x :: x in s <==> x in keys)
  }

  lemma FirstListed(s: seq<string>, keys: set<string>)
    requires IsListing(s, keys) && s != []
    ensures s[0] in keys
  {
  }

  lemma FirstIsLeast(s: seq<string>, x: string)
    requires Sorted(s) && x in s
    ensures LE(s[0], x)
  {
    var i :| 0 <= i < |s| && s[i] == x;
    if i == 0 {
      Total(x, x);
    }
  }

  lemma {:induction false} ListingUnique(s: seq<string>, t: seq<string>, keys: set<string>)
    requires IsListing(s, keys) && IsListing(t, keys)
    ensures s == t
    decreases |s|
  {
    if s == [] {
      assert keys == {};
      if t != [] {
        FirstListed(t, keys);
      }
    } else {
      assert s[0] in keys && t != [] by { assert s[0] in t; }
      assert s[0] == t[0] by {
        assert s[0] in t && t[0] in s;
        FirstIsLeast(s, t[0]);
        FirstIsLeast(t, s[0]);
        Antisymmetric(s[0], t[0]);
      }
      ListingUnique(s[1..], t[1..], keys - {s[0]});
      assert s == [s[0]] + s[1..] && t == [t[0]] + t[1..];
    }
  }

  // -------------------------------------------------------------------------- sorting

  /** Moves element `i` down to its place among the sorted elements before it. */
  method Sink(a: array<string>, i: nat)
    requires i < a.Length && Sorted(a[..i])
    modifies a
    ensures Sorted(a[..i + 1]) && multiset(a[..]) == multiset(old(a[..]))
  {
    var j := i;
    while j > 0 && !LE(a[j - 1], a[j])
      invariant j <= i
      invariant forall x, y :: 0 <= x < y <= i && y != j ==> LE(a[x], a[y])
      invariant multiset(a[..]) == multiset(old(a[..]))
    {
      Total(a[j - 1], a[j]);
      a[j - 1], a[j] := a[j], a[j - 1];
      j := j - 1;
    }
    if j > 0 {
      forall x | 0 <= x < j ensures LE(a[x], a[j]) {
        if x < j - 1 {
          Transitive(a[x], a[j - 1], a[j]);
        }
      }
    }
  }

  /** An in-place insertion sort. */
  method InsertionSort(a: array<string>)
    modifies a
    ensures Sorted(a[..]) && multiset(a[..]) == multiset(old(a[..]))
  {
    for i := 0 to a.Length
      invariant Sorted(a[..i])
      invariant multiset(a[..]) == multiset(old(a[..]))
    {
      Sink(a, i);
    }
    assert a[..a.Length] == a[..];
  }

  lemma Twice(t: seq<string>, i: nat, j: nat)
    requires i < j < |t| && t[i] == t[j]
    ensures multiset(t)[t[i]] >= 2
  {
    assert t == t[..j] + t[j..];
    assert t[i] in multiset(t[..j]) by { assert t[..j][i] == t[i]; }
    assert t[j] in multiset(t[j..]) by { assert t[j..][0] == t[j]; }
  }

  lemma {:induction false} OnlyOnce(s: seq<string>, x: string)
    requires forall i, j :: 0 <= i < j < |s| ==> s[i] != s[j]
    ensures multiset(s)[x] <= 1
  {
    if s == [] {
    } else {
      OnlyOnce(s[1..], x);
      assert s == [s[0]] + s[1..];
      if s[0] == x {
        assert x !in s[1..];
      }
    }
  }

  /** A rearrangement has the same elements, as often. */
  lemma SameElements(s: seq<string>, t: seq<string>)
    requires multiset(s) == multiset(t)
    requires forall i, j :: 0 <= i < j < |s| ==> s[i] != s[j]
    ensures forall x :: x in t <==> x in s
    ensures forall i, j :: 0 <= i < j < |t| ==> t[i] != t[j]
  {
    forall x ensures x in t <==> x in s {
      assert x in t <==> x in multiset(t);
      assert x in s <==> x in multiset(s);
    }
    forall i, j | 0 <= i < j < |t| ensures t[i] != t[j] {
      if t[i] == t[j] {
        Twice(t, i, j);
        OnlyOnce(s, t[i]);
        assert false;
      }
    }
  }

  /** The keys of a map in order: collected in any order, then sorted. */
  method SortedKeys(keys: set<string>) returns (s: seq<string>)
    ensures IsListing(s, keys)
  {
    var collected := [];
    var todo := keys;
    while todo != {}
      invariant todo <= keys
      invariant forall x :: x in collected <==> x in keys && x !in todo
      invariant forall i, j :: 0 <= i < j < |collected| ==> collected[i] != collected[j]
      decreases todo
    {
      var x :| x in todo;
      collected := collected + [x];
      todo := todo - {x};
    }
    var a := new string[|collected|](i requires 0 <= i < |collected| => collected[i]);
    assert a[..] == collected;
    InsertionSort(a);
    s := a[..];
    SameElements(collected, s);
  }
}
