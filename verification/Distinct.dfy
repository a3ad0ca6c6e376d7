/** The first occurrences of a list's elements, as a loop with a "seen" set collects them. */
module Distinct {

  function FirstSeen(visits: seq<string>): seq<string> {
    if visits == [] then []
    else
      var front, last := FirstSeen(visits[..|visits| - 1]), visits[|visits| - 1];
      if last in front then front else front + [last]
  }

  lemma FirstSeenSnoc(visits: seq<string>, x: string)
    ensures FirstSeen(visits + [x]) == if x in FirstSeen(visits) then FirstSeen(visits) else FirstSeen(visits) + [x]
  {
    assert (visits + [x])[..|visits + [x]| - 1] == visits;
  }

  lemma {:induction false} FirstSeenHas(visits: seq<string>, x: string)
    ensures x in FirstSeen(visits) <==> x in visits
  {
    if visits == [] {
    } else {
      FirstSeenHas(visits[..|visits| - 1], x);
      assert visits == visits[..|visits| - 1] + [visits[|visits| - 1]];
    }
  }

  lemma {:induction false} FirstSeenOnce(visits: seq<string>)
    ensures forall i, j :: 0 <= i < j < |FirstSeen(visits)| ==> FirstSeen(visits)[i] != FirstSeen(visits)[j]
  {
    if visits == [] {
    } else {
      FirstSeenOnce(visits[..|visits| - 1]);
    }
  }

  /** Where an element first stands in a list. */
  function FirstAt(visits: seq<string>, x: string): nat
    requires x in visits
  {
    if visits[0] == x then 0 else 1 + FirstAt(visits[1..], x)
  }

  lemma {:induction false} FirstAtSnoc(visits: seq<string>, last: string, x: string)
    requires x in visits + [last]
    ensures x in visits ==> FirstAt(visits + [last], x) == FirstAt(visits, x) < |visits|
    ensures x !in visits ==> FirstAt(visits + [last], x) == |visits|
  {
    if visits == [] {
    } else {
      assert (visits + [last])[1..] == visits[1..] + [last];
      assert visits == [visits[0]] + visits[1..];
      if visits[0] != x {
        FirstAtSnoc(visits[1..], last, x);
      }
    }
  }

  /** The order is that of the first occurrences. */
  lemma {:induction false} FirstSeenOrder(visits: seq<string>, i: nat, j: nat)
    requires i < j < |FirstSeen(visits)|
    ensures var out := FirstSeen(visits);
      out[i] in visits && out[j] in visits && FirstAt(visits, out[i]) < FirstAt(visits, out[j])
  {
    var front, last := visits[..|visits| - 1], visits[|visits| - 1];
    assert visits == front + [last];
    var out := FirstSeen(visits);
    FirstSeenHas(front, out[i]);
    FirstSeenHas(front, out[j]);
    FirstAtSnoc(front, last, out[i]);
    FirstAtSnoc(front, last, out[j]);
    if j == |FirstSeen(front)| {
    } else {
      FirstSeenOrder(front, i, j);
    }
  }

  /** More elements only add to the end. */
  lemma {:induction false} FirstSeenGrows(a: seq<string>, b: seq<string>)
    ensures FirstSeen(a) <= FirstSeen(a + b)
    decreases |b|
  {
    if b == [] {
      assert a + b == a;
    } else {
      assert (a + b)[..|a + b| - 1] == a + b[..|b| - 1];
      FirstSeenGrows(a, b[..|b| - 1]);
    }
  }
}
