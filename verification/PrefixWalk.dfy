/** Selecting objects by key and by folder (internal/server/browse.go:216-297) over
    delimiter listings (internal/service/minio_client.go:122-142). */
module PrefixWalk {
  import opened Text
  import opened Distinct

  /** A bucket's keys, in listing order. */
  type Keys = seq<string>

  predicate EndsInSlash(k: string) {
    HasSuffix(k, "/")
  }

  // ------------------------------------------------------------------------- listings

  /** `s` up to and including its first "/"; all of it without one. */
  function ThroughSlash(s: string): (r: string)
    ensures |r| <= |s| && s[..|r|] == r
    ensures s != "" ==> r != ""
    ensures '/' in s <==> r != "" && r[|r| - 1] == '/'
    ensures '/' !in s ==> r == s
  {
    if s == "" then ""
    else if s[0] == '/' then "/"
    else [s[0]] + ThroughSlash(s[1..])
  }

  /** What a key is listed as at the level of a prefix: itself, or the folder it is in. */
  function Level(prefix: string, key: string): (r: string)
    requires prefix <= key
    ensures prefix <= r <= key
  {
    var r := prefix + ThroughSlash(key[|prefix|..]);
    assert key == prefix + key[|prefix|..];
    r
  }

  /** A non-recursive listing: each folder once, where its first key stands. */
  function Listed(keys: Keys, prefix: string): seq<string> {
    if keys == [] then []
    else
      var front, key := Listed(keys[..|keys| - 1], prefix), keys[|keys| - 1];
      if prefix <= key && Level(prefix, key) !in front then front + [Level(prefix, key)] else front
  }

  function Folders(listed: seq<string>): seq<string> {
    if listed == [] then []
    else Folders(listed[..|listed| - 1]) + if EndsInSlash(listed[|listed| - 1]) then [listed[|listed| - 1]] else []
  }

  function Objects(listed: seq<string>): seq<string> {
    if listed == [] then []
    else Objects(listed[..|listed| - 1]) + if EndsInSlash(listed[|listed| - 1]) then [] else [listed[|listed| - 1]]
  }

  /** One page of a level: what ends in "/" counts as a folder, all else as an object. */
  method ListObjectsPage(keys: Keys, prefix: string) returns (prefixes: seq<string>, objects: seq<string>)
    ensures prefixes == Folders(Listed(keys, prefix)) && objects == Objects(Listed(keys, prefix))
  {
    var listed := Listed(keys, prefix);
    prefixes, objects := [], [];
    for i := 0 to |listed|
      invariant prefixes == Folders(listed[..i]) && objects == Objects(listed[..i])
    {
      assert listed[..i + 1][..i] == listed[..i];
      if EndsInSlash(listed[i]) {
        prefixes := prefixes + [listed[i]];
      } else {
        objects := objects + [listed[i]];
      }
    }
    assert listed[..|listed|] == listed;
  }

  predicate ListsAs(prefix: string, key: string, x: string) {
    prefix <= key && Level(prefix, key) == x
  }

  lemma {:induction false} ListedHas(keys: Keys, prefix: string, x: string)
    ensures x in Listed(keys, prefix) <==> exists k :: k in keys && ListsAs(prefix, k, x)
  {
    if keys == [] {
    } else {
      ListedHas(keys[..|keys| - 1], prefix, x);
      var last := keys[|keys| - 1];
      assert keys == keys[..|keys| - 1] + [last];
      if prefix <= last {
        assert ListsAs(prefix, last, Level(prefix, last));
      }
    }
  }

  lemma {:induction false} PageHas(listed: seq<string>, x: string)
    ensures x in Folders(listed) <==> x in listed && EndsInSlash(x)
    ensures x in Objects(listed) <==> x in listed && !EndsInSlash(x)
  {
    if listed == [] {
    } else {
      PageHas(listed[..|listed| - 1], x);
      assert listed == listed[..|listed| - 1] + [listed[|listed| - 1]];
    }
  }

  /** Folders and objects keep the order of the listing. */
  lemma {:induction false} PageParts(a: seq<string>, b: seq<string>)
    ensures Folders(a + b) == Folders(a) + Folders(b) && Objects(a + b) == Objects(a) + Objects(b)
    decreases |b|
  {
    if b == [] {
      assert a + b == a;
    } else {
      var front, last := b[..|b| - 1], b[|b| - 1];
      PageParts(a, front);
      assert (a + b)[..|a + b| - 1] == a + front;
      Regroup(Folders(a), Folders(front), if EndsInSlash(last) then [last] else []);
      Regroup(Objects(a), Objects(front), if EndsInSlash(last) then [] else [last]);
    }
  }

  /** A folder of a level: some stored key is at it or below it. */
  lemma FolderHas(keys: Keys, prefix: string, sub: string)
    ensures sub in Folders(Listed(keys, prefix)) <==> EndsInSlash(sub) && exists k :: k in keys && ListsAs(prefix, k, sub)
  {
    ListedHas(keys, prefix, sub);
    PageHas(Listed(keys, prefix), sub);
  }

  lemma SlashLevel(prefix: string, key: string)
    requires prefix <= key && '/' in key[|prefix|..]
    ensures EndsInSlash(Level(prefix, key))
  {
    var sub, t := Level(prefix, key), ThroughSlash(key[|prefix|..]);
    assert sub == prefix + t;
    assert sub[|sub| - 1] == t[|t| - 1];
    assert sub[|sub| - 1..] == "/";
  }

  /** An object of a level is a stored key without a "/" after the prefix. */
  lemma ObjectHas(keys: Keys, prefix: string, x: string)
    ensures x in Objects(Listed(keys, prefix)) <==> x in keys && prefix <= x && !EndsInSlash(x) && '/' !in x[|prefix|..]
  {
    ListedHas(keys, prefix, x);
    PageHas(Listed(keys, prefix), x);
    if k :| k in keys && ListsAs(prefix, k, x) {
      if '/' in k[|prefix|..] {
        SlashLevel(prefix, k);
      } else {
        assert k == prefix + k[|prefix|..];
      }
    }
    if x in keys && prefix <= x && '/' !in x[|prefix|..] {
      assert x == prefix + x[|prefix|..];
      assert ListsAs(prefix, x, x);
    }
  }

  // ------------------------------------------------------------------------ termination

  /** No stored key at or below the prefix ends in "/". */
  predicate NoMarkers(keys: Keys, prefix: string) {
    forall k :: k in keys && prefix <= k ==> !EndsInSlash(k)
  }

  /** The walk of a prefix needs at most `n` levels. */
  predicate Halts(keys: Keys, prefix: string, n: nat)
    decreases n
  {
    n > 0 && forall sub :: sub in Folders(Listed(keys, prefix)) ==> Halts(keys, sub, n - 1)
  }

  function MaxLength(keys: Keys): nat {
    if keys == [] then 0 else var m := MaxLength(keys[1..]); if |keys[0]| > m then |keys[0]| else m
  }

  lemma {:induction false} MaxLengthBounds(keys: Keys, k: string)
    requires k in keys
    ensures |k| <= MaxLength(keys)
  {
    if k == keys[0] {
    } else {
      assert keys == [keys[0]] + keys[1..];
      MaxLengthBounds(keys[1..], k);
    }
  }

  /** The room below a prefix: the longest key's length minus the prefix's. */
  function Room(keys: Keys, prefix: string): nat {
    if |prefix| <= MaxLength(keys) then MaxLength(keys) - |prefix| else 0
  }

  lemma EmptyStep(prefix: string, k: string)
    requires prefix <= k && Level(prefix, k) == prefix
    ensures k == prefix
  {
    var rest := k[|prefix|..];
    assert |Level(prefix, k)| == |prefix| + |ThroughSlash(rest)|;
    assert k == prefix + rest;
  }

  /** Without folder markers each folder leads to a longer prefix, within the longest key. */
  lemma FolderDeeper(keys: Keys, prefix: string, sub: string)
    requires NoMarkers(keys, prefix) && sub in Folders(Listed(keys, prefix))
    ensures prefix < sub && Room(keys, sub) < Room(keys, prefix) && NoMarkers(keys, sub)
  {
    FolderHas(keys, prefix, sub);
    var k :| k in keys && ListsAs(prefix, k, sub);
    MaxLengthBounds(keys, k);
    if prefix == sub {
      EmptyStep(prefix, k);
    }
  }

  lemma {:induction false} HaltsMore(keys: Keys, prefix: string, m: nat, n: nat)
    requires m <= n && Halts(keys, prefix, m)
    ensures Halts(keys, prefix, n)
    decreases m
  {
    forall sub | sub in Folders(Listed(keys, prefix)) ensures Halts(keys, sub, n - 1) {
      HaltsMore(keys, sub, m - 1, n - 1);
    }
  }

  lemma {:induction false} HaltsWithoutMarkers(keys: Keys, prefix: string)
    requires NoMarkers(keys, prefix)
    ensures Halts(keys, prefix, Room(keys, prefix) + 1)
    decreases Room(keys, prefix)
  {
    forall sub | sub in Folders(Listed(keys, prefix)) ensures Halts(keys, sub, Room(keys, prefix)) {
      FolderDeeper(keys, prefix, sub);
      HaltsWithoutMarkers(keys, sub);
      HaltsMore(keys, sub, Room(keys, sub) + 1, Room(keys, prefix));
    }
  }

  /** A key that ends in "/" is listed as a folder at its own level: the walk comes back to it
      at any depth. */
  lemma {:induction false} MarkerNeverHalts(keys: Keys, prefix: string, marker: string, n: nat)
    requires marker in keys && prefix <= marker && EndsInSlash(marker)
    ensures !Halts(keys, prefix, n)
    decreases n
  {
    if n == 0 {
    } else {
      var sub := Level(prefix, marker);
      FolderHas(keys, prefix, sub);
      assert ListsAs(prefix, marker, sub);
      MarkerNeverHalts(keys, sub, marker, n - 1);
    }
  }

  /** The walk of a prefix ends exactly when no stored key at or below it ends in "/". */
  lemma WalkEnds(keys: Keys, prefix: string)
    ensures (exists n: nat :: Halts(keys, prefix, n)) <==> NoMarkers(keys, prefix)
  {
    if NoMarkers(keys, prefix) {
      HaltsWithoutMarkers(keys, prefix);
      var n := Room(keys, prefix) + 1;
      assert Halts(keys, prefix, n);
    } else {
      var marker :| marker in keys && prefix <= marker && EndsInSlash(marker);
      forall n: nat ensures !Halts(keys, prefix, n) {
        MarkerNeverHalts(keys, prefix, marker, n);
      }
    }
  }

  // --------------------------------------------------------------------------- the walk

  ghost function WalkedAll(keys: Keys, prefix: string, subs: seq<string>): seq<string>
    requires NoMarkers(keys, prefix)
    requires forall sub :: sub in subs ==> sub in Folders(Listed(keys, prefix))
    decreases Room(keys, prefix), 0, |subs|
  {
    if subs == [] then []
    else
      var last := subs[|subs| - 1];
      FolderDeeper(keys, prefix, last);
      WalkedAll(keys, prefix, subs[..|subs| - 1]) + Walked(keys, last)
  }

  /** The keys a walk visits, in order. */
  ghost function Walked(keys: Keys, prefix: string): seq<string>
    requires NoMarkers(keys, prefix)
    decreases Room(keys, prefix), 1, 0
  {
    Objects(Listed(keys, prefix)) + WalkedAll(keys, prefix, Folders(Listed(keys, prefix)))
  }

  ghost predicate UnderSome(subs: seq<string>, x: string) {
    exists sub :: sub in subs && sub <= x
  }

  lemma UnderSomeSnoc(subs: seq<string>, last: string, x: string)
    ensures UnderSome(subs + [last], x) <==> UnderSome(subs, x) || last <= x
  {
    assert last in subs + [last];
    if sub :| sub in subs && sub <= x {
      assert sub in subs + [last];
    }
  }

  lemma {:induction false} WalkedAllExact(keys: Keys, prefix: string, subs: seq<string>, x: string)
    requires NoMarkers(keys, prefix)
    requires forall sub :: sub in subs ==> sub in Folders(Listed(keys, prefix))
    ensures x in WalkedAll(keys, prefix, subs) <==> x in keys && UnderSome(subs, x)
    decreases Room(keys, prefix), 0, |subs|
  {
    hide Listed, Folders;
    if subs == [] {
    } else {
      var front, last := subs[..|subs| - 1], subs[|subs| - 1];
      FolderDeeper(keys, prefix, last);
      WalkedAllExact(keys, prefix, front, x);
      WalkedExact(keys, last, x);
      assert subs == front + [last];
      UnderSomeSnoc(front, last, x);
    }
  }

  /** The walk of a prefix visits exactly the stored keys under it. */
  lemma {:induction false} WalkedExact(keys: Keys, prefix: string, x: string)
    requires NoMarkers(keys, prefix)
    ensures x in Walked(keys, prefix) <==> x in keys && prefix <= x
    decreases Room(keys, prefix), 1, 0
  {
    hide Listed, Folders, Objects, Level, EndsInSlash;
    var listed := Listed(keys, prefix);
    ObjectHas(keys, prefix, x);
    WalkedAllExact(keys, prefix, Folders(listed), x);
    if x in keys && prefix <= x && '/' in x[|prefix|..] {
      var sub := Level(prefix, x);
      assert ListsAs(prefix, x, sub);
      SlashLevel(prefix, x);
      FolderHas(keys, prefix, sub);
      assert sub <= x;
      assert UnderSome(Folders(listed), x);
    }
    if UnderSome(Folders(listed), x) {
      var sub :| sub in Folders(listed) && sub <= x;
      FolderDeeper(keys, prefix, sub);
    }
  }

  lemma {:induction false} WalkedAllParts(keys: Keys, prefix: string, a: seq<string>, b: seq<string>)
    requires NoMarkers(keys, prefix)
    requires forall sub :: sub in a || sub in b ==> sub in Folders(Listed(keys, prefix))
    ensures WalkedAll(keys, prefix, a + b) == WalkedAll(keys, prefix, a) + WalkedAll(keys, prefix, b)
    decreases |b|
  {
    hide Listed, Folders, Walked;
    if b == [] {
      assert a + b == a;
    } else {
      var front, last := b[..|b| - 1], b[|b| - 1];
      assert (a + b)[..|a + b| - 1] == a + front;
      FolderDeeper(keys, prefix, last);
      WalkedAllParts(keys, prefix, a, front);
      Regroup(WalkedAll(keys, prefix, a), WalkedAll(keys, prefix, front), Walked(keys, last));
    }
  }

  /** What a level holds itself is visited first, then its folders in order. */
  lemma WalkedOrder(keys: Keys, prefix: string, i: nat)
    requires NoMarkers(keys, prefix) && i < |Folders(Listed(keys, prefix))|
    ensures var subs := Folders(Listed(keys, prefix));
      NoMarkers(keys, subs[i]) && exists before, after :: (
        && Walked(keys, prefix) == Objects(Listed(keys, prefix)) + before + Walked(keys, subs[i]) + after
        && (forall x :: x in before <==> x in keys && UnderSome(subs[..i], x))
        && (forall x :: x in after <==> x in keys && UnderSome(subs[i + 1..], x)))
  {
    var subs := Folders(Listed(keys, prefix));
    hide Listed, Folders, Objects, UnderSome;
    FolderDeeper(keys, prefix, subs[i]);
    var before := WalkedAll(keys, prefix, subs[..i]);
    var after := WalkedAll(keys, prefix, subs[i + 1..]);
    assert subs == subs[..i] + [subs[i]] + subs[i + 1..];
    WalkedAllParts(keys, prefix, subs[..i] + [subs[i]], subs[i + 1..]);
    assert (subs[..i] + [subs[i]])[..i] == subs[..i];
    forall x ensures x in before <==> x in keys && UnderSome(subs[..i], x) {
      WalkedAllExact(keys, prefix, subs[..i], x);
    }
    forall x ensures x in after <==> x in keys && UnderSome(subs[i + 1..], x) {
      WalkedAllExact(keys, prefix, subs[i + 1..], x);
    }
    Regroup4(Objects(Listed(keys, prefix)), before, Walked(keys, subs[i]), after);
  }

  // --------------------------------------------------------------------- the selection

  function NonEmpty(visits: seq<string>): seq<string> {
    if visits == [] then []
    else NonEmpty(visits[..|visits| - 1]) + if visits[|visits| - 1] == "" then [] else [visits[|visits| - 1]]
  }

  lemma {:induction false} NonEmptyHas(visits: seq<string>, x: string)
    ensures x in NonEmpty(visits) <==> x in visits && x != ""
  {
    if visits == [] {
    } else {
      NonEmptyHas(visits[..|visits| - 1], x);
      assert visits == visits[..|visits| - 1] + [visits[|visits| - 1]];
    }
  }

  /** The keys collected so far; `visits` is every key offered. */
  class Collector {
    var seen: set<string>
    var out: seq<string>
    ghost var visits: seq<string>

    ghost predicate Valid()
      reads this
    {
      out == FirstSeen(NonEmpty(visits)) && forall k :: k in seen <==> k in out
    }

    constructor ()
      ensures Valid() && visits == []
    {
      seen, out, visits := {}, [], [];
    }

    method Add(key: string)
      requires Valid()
      modifies this
      ensures Valid() && visits == old(visits) + [key]
    {
      FirstSeenSnoc(NonEmpty(visits), key);
      assert NonEmpty(visits) + [] == NonEmpty(visits);
      visits := visits + [key];
      if key == "" || key in seen {
        return;
      }
      seen := seen + {key};
      out := out + [key];
    }

    method AddAll(keys: seq<string>)
      requires Valid()
      modifies this
      ensures Valid() && visits == old(visits) + keys
    {
      for i := 0 to |keys|
        invariant Valid() && visits == old(visits) + keys[..i]
      {
        assert keys[..i + 1] == keys[..i] + [keys[i]];
        Add(keys[i]);
      }
      assert keys[..|keys|] == keys;
    }
  }

  /** Lists a prefix level by level. Ends because each folder leads to a longer prefix. */
  method WalkPrefix(keys: Keys, prefix: string, c: Collector)
    requires NoMarkers(keys, prefix) && c.Valid()
    modifies c
    ensures c.Valid() && c.visits == old(c.visits) + Walked(keys, prefix)
    decreases Room(keys, prefix)
  {
    hide Listed, Folders, Objects, NoMarkers;
    ghost var before := c.visits;
    var prefixes, objects := ListObjectsPage(keys, prefix);
    c.AddAll(objects);
    for i := 0 to |prefixes|
      invariant c.Valid()
      invariant c.visits == before + objects + WalkedAll(keys, prefix, prefixes[..i])
    {
      FolderDeeper(keys, prefix, prefixes[i]);
      WalkPrefix(keys, prefixes[i], c);
      assert prefixes[..i + 1][..i] == prefixes[..i];
      Regroup(before + objects, WalkedAll(keys, prefix, prefixes[..i]), Walked(keys, prefixes[i]));
    }
    assert prefixes[..|prefixes|] == prefixes;
    Regroup(before, objects, WalkedAll(keys, prefix, prefixes));
  }

  /** No stored key under a selected folder ends in "/". */
  predicate Walkable(keys: Keys, prefixes: seq<string>) {
    forall p :: p in prefixes && p != "" ==> NoMarkers(keys, p)
  }

  /** What a selection offers, in order: the explicit keys, then the walk of each folder. */
  ghost function Visited(keys: Keys, explicit: seq<string>, prefixes: seq<string>): seq<string>
    requires Walkable(keys, prefixes)
  {
    if prefixes == [] then explicit
    else
      var last := prefixes[|prefixes| - 1];
      Visited(keys, explicit, prefixes[..|prefixes| - 1]) + if last == "" then [] else Walked(keys, last)
  }

  predicate InSome(prefixes: seq<string>, x: string) {
    exists p :: p in prefixes && p != "" && p <= x
  }

  /** The non-empty explicit keys, and every stored key under a non-empty selected folder. */
  predicate IsSelected(keys: Keys, explicit: seq<string>, prefixes: seq<string>, x: string) {
    x != "" && (x in explicit || (x in keys && InSome(prefixes, x)))
  }

  lemma InSomeSnoc(prefixes: seq<string>, last: string, x: string)
    ensures InSome(prefixes + [last], x) <==> InSome(prefixes, x) || (last != "" && last <= x)
  {
    assert last in prefixes + [last];
    if p :| p in prefixes && p != "" && p <= x {
      assert p in prefixes + [last];
    }
  }

  lemma {:induction false} VisitedExact(keys: Keys, explicit: seq<string>, prefixes: seq<string>, x: string)
    requires Walkable(keys, prefixes)
    ensures x != "" ==> (x in Visited(keys, explicit, prefixes) <==> IsSelected(keys, explicit, prefixes, x))
  {
    if prefixes == [] {
    } else {
      var front, last := prefixes[..|prefixes| - 1], prefixes[|prefixes| - 1];
      assert prefixes == front + [last];
      VisitedExact(keys, explicit, front, x);
      InSomeSnoc(front, last, x);
      if last != "" {
        WalkedExact(keys, last, x);
      }
    }
  }

  /** The selection without duplicates, in first-seen order. */
  method CollectSelectionKeys(keys: Keys, explicit: seq<string>, prefixes: seq<string>) returns (out: seq<string>)
    requires Walkable(keys, prefixes)
    ensures out == FirstSeen(NonEmpty(Visited(keys, explicit, prefixes)))
    ensures forall x :: x in out <==> IsSelected(keys, explicit, prefixes, x)
    ensures forall i, j :: 0 <= i < j < |out| ==> out[i] != out[j]
  {
    var c := new Collector();
    c.AddAll(explicit);
    for i := 0 to |prefixes|
      invariant c.Valid() && c.visits == Visited(keys, explicit, prefixes[..i])
    {
      assert prefixes[..i + 1][..i] == prefixes[..i];
      if prefixes[i] != "" {
        WalkPrefix(keys, prefixes[i], c);
      }
    }
    assert prefixes[..|prefixes|] == prefixes;
    out := c.out;
    FirstSeenOnce(NonEmpty(c.visits));
    forall x ensures x in out <==> IsSelected(keys, explicit, prefixes, x) {
      FirstSeenHas(NonEmpty(c.visits), x);
      NonEmptyHas(c.visits, x);
      VisitedExact(keys, explicit, prefixes, x);
    }
  }

  /** A bucket; removing a key it does not have does nothing. */
  class Bucket {
    var keys: set<string>

    constructor (keys: set<string>)
      ensures this.keys == keys
    {
      this.keys := keys;
    }

    method Remove(key: string)
      modifies this
      ensures keys == old(keys) - {key}
    {
      keys := keys - {key};
    }
  }

  /** Deleting a selection removes exactly the selected keys. `listing` is how the server
      lists the bucket. */
  method BrowseDelete(b: Bucket, listing: Keys, explicit: seq<string>, prefixes: seq<string>)
    requires (set k | k in listing) == b.keys && Walkable(listing, prefixes)
    modifies b
    ensures forall k :: k in b.keys <==> k in old(b.keys) && !IsSelected(listing, explicit, prefixes, k)
  {
    var selected := CollectSelectionKeys(listing, explicit, prefixes);
    for i := 0 to |selected|
      invariant forall k :: k in b.keys <==> k in old(b.keys) && k !in selected[..i]
    {
      assert selected[..i + 1] == selected[..i] + [selected[i]];
      b.Remove(selected[i]);
    }
    assert selected[..|selected|] == selected;
  }
}
