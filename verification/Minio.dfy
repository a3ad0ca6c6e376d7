/** Backup, restore and clean of an object store (internal/service/minio.go). */
module Minio {
  import opened Text
  import opened Paths
  import opened FileTree

  datatype Object = Object(data: string, contentType: string)

  type Buckets = map<string, map<string, Object>>

  /** One captured object, as the manifest lists it. */
  datatype Entry = Entry(bucket: string, key: string, size: nat, contentType: string)

  datatype Manifest = Manifest(buckets: seq<string>, objects: seq<Entry>)

  /** The manifest's JSON text: any encoding that loses nothing. */
  datatype Codec = Codec(encode: Manifest -> string, decode: string -> Option<Manifest>)

  ghost predicate Lossless(codec: Codec) {
    forall m :: codec.decode(codec.encode(m)) == Some(m)
  }

  const MANIFEST := "manifest.json"

  // ------------------------------------------------------------------------ the clients

  /** The names of a set, in some order, each once. */
  method Enumerate(names: set<string>) returns (r: seq<string>)
    ensures forall x :: x in r <==> x in names
    ensures forall i, j :: 0 <= i < j < |r| ==> r[i] != r[j]
  {
    r := [];
    var todo := names;
    while todo != {}
      invariant todo <= names
      invariant forall x :: x in r <==> x in names && x !in todo
      invariant forall i, j :: 0 <= i < j < |r| ==> r[i] != r[j]
      decreases todo
    {
      var x :| x in todo;
      r := r + [x];
      todo := todo - {x};
    }
  }

  function Ensured(buckets: Buckets, names: seq<string>): Buckets {
    if names == [] then buckets
    else
      var b, last := Ensured(buckets, names[..|names| - 1]), names[|names| - 1];
      if last in b then b else b[last := map[]]
  }

  /** An S3 server, reached through calls that do not fail for reasons outside the store. */
  class ObjectStore {
    var buckets: Buckets

    constructor (buckets: Buckets)
      ensures this.buckets == buckets
    {
      this.buckets := buckets;
    }

    /** Does nothing for a bucket that exists. */
    method EnsureBucket(bucket: string)
      modifies this
      ensures buckets == Ensured(old(buckets), [bucket])
    {
      if bucket !in buckets {
        buckets := buckets[bucket := map[]];
      }
    }

    /** Fails without the bucket. */
    method PutObject(bucket: string, key: string, o: Object) returns (ok: bool)
      modifies this
      ensures ok <==> bucket in old(buckets)
      ensures buckets == if ok then old(buckets)[bucket := old(buckets)[bucket][key := o]] else old(buckets)
    {
      ok := bucket in buckets;
      if ok {
        buckets := buckets[bucket := buckets[bucket][key := o]];
      }
    }

    method RemoveObject(bucket: string, key: string)
      requires bucket in buckets
      modifies this
      ensures buckets == old(buckets)[bucket := old(buckets)[bucket] - {key}]
    {
      buckets := buckets[bucket := buckets[bucket] - {key}];
    }

    /** A bucket must be empty to be removed. */
    method RemoveBucket(bucket: string) returns (ok: bool)
      modifies this
      ensures ok <==> bucket in old(buckets) && old(buckets)[bucket] == map[]
      ensures buckets == if ok then old(buckets) - {bucket} else old(buckets)
    {
      ok := bucket in buckets && buckets[bucket].Keys == {};
      assert ok ==> buckets[bucket] == map[];
      if ok {
        buckets := buckets - {bucket};
      }
    }
  }

  class FileSystem {
    var tree: Tree

    constructor (tree: Tree)
      ensures this.tree == tree
    {
      this.tree := tree;
    }

    method MakeDir(p: Path) returns (ok: bool)
      modifies this
      ensures match MkdirAll(old(tree), p)
              case None => !ok && tree == old(tree)
              case Some(t) => ok && tree == t
    {
      var t := MkdirAll(tree, p);
      ok := t.Some?;
      if ok {
        tree := t.value;
      }
    }

    method Write(p: Path, content: string) returns (ok: bool)
      modifies this
      ensures match WriteFile(old(tree), p, content)
              case None => !ok && tree == old(tree)
              case Some(t) => ok && tree == t
    {
      var t := WriteFile(tree, p, content);
      ok := t.Some?;
      if ok {
        tree := t.value;
      }
    }
  }

  // ------------------------------------------------------------------- choosing buckets

  /** The available names that are wanted, in order. */
  function Filtered(available: seq<string>, want: seq<string>): seq<string> {
    if available == [] then []
    else
      var last := available[|available| - 1];
      Filtered(available[..|available| - 1], want) + if last in want then [last] else []
  }

  lemma {:induction false} FilteredHas(available: seq<string>, want: seq<string>, x: string)
    ensures x in Filtered(available, want) <==> x in available && x in want
  {
    if available == [] {
    } else {
      FilteredHas(available[..|available| - 1], want, x);
      assert available == available[..|available| - 1] + [available[|available| - 1]];
    }
  }

  /** The order is that of the available names. */
  lemma {:induction false} FilteredParts(a: seq<string>, b: seq<string>, want: seq<string>)
    ensures Filtered(a + b, want) == Filtered(a, want) + Filtered(b, want)
    ensures forall x :: Filtered([x], want) == if x in want then [x] else []
    decreases |b|
  {
    forall x ensures Filtered([x], want) == if x in want then [x] else [] {
      assert [x][..0] == [];
    }
    if b == [] {
      assert a + b == a;
    } else {
      var front, last := b[..|b| - 1], b[|b| - 1];
      FilteredParts(a, front, want);
      assert (a + b)[..|a + b| - 1] == a + front;
      Regroup(Filtered(a, want), Filtered(front, want), if last in want then [last] else []);
    }
  }

  method FilterBuckets(available: seq<string>, want: seq<string>) returns (out: seq<string>, missing: seq<string>)
    ensures out == Filtered(available, want)
    ensures forall w :: w in missing <==> w in want && w !in available
  {
    out, missing := [], [];
    var present := {};
    for i := 0 to |available|
      invariant out == Filtered(available[..i], want)
      invariant present == set b | b in available[..i]
    {
      assert available[..i + 1][..i] == available[..i];
      present := present + {available[i]};
      if available[i] in want {
        out := out + [available[i]];
      }
    }
    assert available[..|available|] == available;
    for i := 0 to |want|
      invariant forall w :: w in missing <==> w in want[..i] && w !in available
    {
      if want[i] !in present {
        missing := missing + [want[i]];
      }
    }
  }

  predicate IsSelected(buckets: Buckets, wanted: seq<string>, b: string) {
    b in buckets && (wanted == [] || b in wanted)
  }

  // ---------------------------------------------------------------------- what is kept

  /** An entry describes an object of the store. */
  predicate Describes(buckets: Buckets, e: Entry) {
    e.bucket in buckets && e.key in buckets[e.bucket]
    && e.contentType == buckets[e.bucket][e.key].contentType && e.size == |buckets[e.bucket][e.key].data|
  }

  /** ... and its file lies inside the snapshot folder. */
  predicate Kept(base: Path, buckets: Buckets, e: Entry) {
    Describes(buckets, e) && SafeJoin(base, e.bucket, e.key).Some?
  }

  function FileOf(base: Path, buckets: Buckets, e: Entry): FileAt
    requires Kept(base, buckets, e)
  {
    FileAt(SafeJoin(base, e.bucket, e.key).value, buckets[e.bucket][e.key].data)
  }

  ghost predicate AllKept(base: Path, buckets: Buckets, entries: seq<Entry>) {
    forall i :: 0 <= i < |entries| ==> Kept(base, buckets, entries[i])
  }

  ghost function FilesOf(base: Path, buckets: Buckets, entries: seq<Entry>): (r: seq<FileAt>)
    requires AllKept(base, buckets, entries)
    ensures |r| == |entries|
    ensures forall i :: 0 <= i < |r| ==> r[i] == FileOf(base, buckets, entries[i])
  {
    seq(|entries|, i requires 0 <= i < |entries| => FileOf(base, buckets, entries[i]))
  }

  function ManifestFile(base: Path, codec: Codec, m: Manifest): FileAt {
    FileAt(base + [MANIFEST], codec.encode(m))
  }

  ghost predicate HasEntry(entries: seq<Entry>, b: string, k: string) {
    exists e :: e in entries && e.bucket == b && e.key == k
  }

  /** The manifest lists the selected buckets, and every object of theirs. */
  ghost predicate Captures(buckets: Buckets, wanted: seq<string>, m: Manifest) {
    && (forall b :: b in m.buckets <==> IsSelected(buckets, wanted, b))
    && (forall e :: e in m.objects ==> Describes(buckets, e) && e.bucket in m.buckets)
    && (forall b, k :: b in m.buckets && b in buckets && k in buckets[b] ==> HasEntry(m.objects, b, k))
  }

  /** Everything a backup writes: the objects' files, then the manifest. */
  ghost function Snapshot(base: Path, buckets: Buckets, codec: Codec, m: Manifest): seq<FileAt>
    requires AllKept(base, buckets, m.objects)
  {
    FilesOf(base, buckets, m.objects) + [ManifestFile(base, codec, m)]
  }

  // ------------------------------------------------------------------------- restoring

  lemma {:induction false} EnsuredHas(buckets: Buckets, names: seq<string>, b: string)
    ensures b in Ensured(buckets, names) <==> b in buckets || b in names
    ensures b in Ensured(buckets, names) ==> Ensured(buckets, names)[b] == if b in buckets then buckets[b] else map[]
  {
    if names == [] {
    } else {
      EnsuredHas(buckets, names[..|names| - 1], b);
      assert names == names[..|names| - 1] + [names[|names| - 1]];
    }
  }

  /** Uploading one captured object: its bytes from its file, its type from the manifest. */
  function PutBack(base: Path, tree: Tree, buckets: Buckets, e: Entry): Option<Buckets> {
    match SafeJoin(base, e.bucket, e.key)
    case None => None
    case Some(p) =>
      if IsFile(tree, p) && e.bucket in buckets
      then Some(buckets[e.bucket := buckets[e.bucket][e.key := Object(tree[p].content, e.contentType)]])
      else None
  }

  function PutAllBack(base: Path, tree: Tree, buckets: Buckets, entries: seq<Entry>): Option<Buckets> {
    if entries == [] then Some(buckets)
    else
      match PutAllBack(base, tree, buckets, entries[..|entries| - 1])
      case None => None
      case Some(b) => PutBack(base, tree, b, entries[|entries| - 1])
  }

  /** A missing manifest reads as none; a directory in its place, a file on the way to it, or a
      text that is no manifest is an error. */
  datatype Reading = Missing | Unreadable | Malformed | Found(m: Manifest)

  function ReadManifest(base: Path, tree: Tree, codec: Codec): Reading {
    if IsDir(tree, base + [MANIFEST]) || (exists q :: q in Prefixes(base) && IsFile(tree, q)) then Unreadable
    else if !IsFile(tree, base + [MANIFEST]) then Missing
    else
      match codec.decode(tree[base + [MANIFEST]].content)
      case None => Malformed
      case Some(m) => Found(m)
  }

  /** What is read of a folder: a manifest only from a file "manifest.json" in it that decodes;
      nothing only if there is no such file or directory, and no file on the way. */
  lemma ReadingIs(base: Path, tree: Tree, codec: Codec)
    ensures var p := base + ["manifest.json"];
      var blocked := exists n :: 0 <= n <= |base| && base[..n] in tree && tree[base[..n]].File?;
      && (ReadManifest(base, tree, codec) == Missing <==> !blocked && p !in tree)
      && (ReadManifest(base, tree, codec) == Malformed <==> !blocked && p in tree && tree[p].File? && codec.decode(tree[p].content) == None)
      && (forall m :: ReadManifest(base, tree, codec) == Found(m) <==>
            !blocked && p in tree && tree[p].File? && codec.decode(tree[p].content) == Some(m))
  {
    if q :| q in Prefixes(base) && IsFile(tree, q) {
      assert q == base[..|q|];
    }
    if n :| 0 <= n <= |base| && base[..n] in tree && tree[base[..n]].File? {
      assert base[..n] in Prefixes(base) && IsFile(tree, base[..n]);
    }
  }

  /** What restoring a snapshot is for: the captured buckets' objects override the target's. */
  function Overridden(target: Buckets, configured: seq<string>, captured: Buckets): Buckets {
    map b | b in target.Keys + (set c | c in configured) + captured.Keys ::
      (if b in target then target[b] else map[]) + (if b in captured then captured[b] else map[])
  }

  function Captured(buckets: Buckets, m: Manifest): Buckets {
    map b | b in buckets && b in m.buckets :: buckets[b]
  }

  /** No file of the snapshot is written over with something else: two objects, or an object
      and the manifest, share a path only if they hold the same bytes. */
  ghost predicate Unclobbered(files: seq<FileAt>) {
    forall i, j :: 0 <= i < j < |files| && files[i].path == files[j].path ==> files[i].content == files[j].content
  }

  lemma {:induction false} LatestExists(files: seq<FileAt>, i: nat)
    requires i < |files|
    ensures Latest(files, files[i].path).Some?
  {
    if i == |files| - 1 {
    } else {
      LatestExists(files[..|files| - 1], i);
    }
  }

  /** The last file of a path decides; unless clobbered, every file is as good as the last. */
  lemma {:induction false} LatestIs(files: seq<FileAt>, i: nat)
    requires i < |files|
    requires forall j :: i < j < |files| && files[j].path == files[i].path ==> files[j].content == files[i].content
    ensures Latest(files, files[i].path) == Some(files[i].content)
  {
    if i == |files| - 1 {
    } else {
      LatestIs(files[..|files| - 1], i);
    }
  }

  lemma LatestFaithful(files: seq<FileAt>)
    ensures Unclobbered(files) <==> forall i :: 0 <= i < |files| ==> Latest(files, files[i].path) == Some(files[i].content)
  {
    if Unclobbered(files) {
      forall i | 0 <= i < |files| ensures Latest(files, files[i].path) == Some(files[i].content) {
        LatestIs(files, i);
      }
    } else {
      var i, j :| 0 <= i < j < |files| && files[i].path == files[j].path && files[i].content != files[j].content;
      if Latest(files, files[i].path) == Some(files[i].content) && Latest(files, files[j].path) == Some(files[j].content) {
        assert false;
      }
    }
  }

  /** The entries' files are all there, and their buckets. */
  ghost predicate CanPutBack(base: Path, tree: Tree, src: Buckets, t: Buckets, entries: seq<Entry>) {
    forall i :: 0 <= i < |entries| ==>
      && Kept(base, src, entries[i]) && entries[i].bucket in t
      && IsFile(tree, SafeJoin(base, entries[i].bucket, entries[i].key).value)
  }

  /** What one object of the target is after a restore. */
  ghost predicate PutBackAt(base: Path, tree: Tree, src: Buckets, t: Buckets, entries: seq<Entry>, r: Buckets, b: string, k: string) {
    && r.Keys == t.Keys
    && (b in t ==> (k in r[b] <==> k in t[b] || HasEntry(entries, b, k)))
    && (b in t && HasEntry(entries, b, k) ==>
          b in src && k in src[b] && SafeJoin(base, b, k).Some? && IsFile(tree, SafeJoin(base, b, k).value)
          && r[b][k] == Object(tree[SafeJoin(base, b, k).value].content, src[b][k].contentType))
    && (b in t && !HasEntry(entries, b, k) && k in t[b] ==> r[b][k] == t[b][k])
  }

  lemma HasEntrySnoc(entries: seq<Entry>, e: Entry, b: string, k: string)
    ensures HasEntry(entries + [e], b, k) <==> HasEntry(entries, b, k) || (e.bucket == b && e.key == k)
  {
    if HasEntry(entries, b, k) {
      var x :| x in entries && x.bucket == b && x.key == k;
      assert x in entries + [e];
    }
    assert e in entries + [e];
  }

  lemma {:induction false} PutAllBackAt(base: Path, tree: Tree, src: Buckets, t: Buckets, entries: seq<Entry>, b: string, k: string)
    requires CanPutBack(base, tree, src, t, entries)
    ensures PutAllBack(base, tree, t, entries).Some?
    ensures PutBackAt(base, tree, src, t, entries, PutAllBack(base, tree, t, entries).value, b, k)
  {
    hide SafeJoin;
    if entries == [] {
    } else {
      var front, e := entries[..|entries| - 1], entries[|entries| - 1];
      PutAllBackAt(base, tree, src, t, front, b, k);
      HasEntrySnoc(front, e, b, k);
      assert entries == front + [e];
    }
  }

  predicate OnDisk(tree: Tree, files: seq<FileAt>, i: nat)
    requires i < |files|
  {
    IsFile(tree, files[i].path) && Latest(files, files[i].path) == Some(tree[files[i].path].content)
  }

  /** What is on disk after a backup: the manifest, and for each object the last file written
      to its path. */
  lemma SnapshotOnDisk(base: Path, src: Buckets, codec: Codec, m: Manifest, before: Tree, tree: Tree)
    requires Lossless(codec) && AllKept(base, src, m.objects)
    requires SaveAll(before, Snapshot(base, src, codec, m)) == Some(tree)
    ensures ReadManifest(base, tree, codec) == Found(m)
    ensures var files := Snapshot(base, src, codec, m); forall i :: 0 <= i < |files| ==> OnDisk(tree, files, i)
  {
    var files := Snapshot(base, src, codec, m);
    forall i | 0 <= i < |files| ensures OnDisk(tree, files, i) {
      LatestExists(files, i);
      SaveAllWrites(before, files, files[i].path);
    }
    assert files[|m.objects|] == ManifestFile(base, codec, m);
    LatestIs(files, |m.objects|);
  }

  /** The target with every bucket the restore needs. */
  function Prepared(target: Buckets, configured: seq<string>, m: Manifest): Buckets {
    Ensured(Ensured(target, configured), m.buckets)
  }

  lemma PreparedAt(target: Buckets, configured: seq<string>, m: Manifest, b: string)
    ensures b in Prepared(target, configured, m) <==> b in target || b in configured || b in m.buckets
    ensures b in Prepared(target, configured, m) ==> Prepared(target, configured, m)[b] == if b in target then target[b] else map[]
  {
    EnsuredHas(target, configured, b);
    EnsuredHas(Ensured(target, configured), m.buckets, b);
  }

  lemma CapturedEntry(src: Buckets, wanted: seq<string>, m: Manifest, b: string, k: string)
    requires Captures(src, wanted, m)
    ensures HasEntry(m.objects, b, k) <==> b in Captured(src, m) && k in src[b]
  {
    if e :| e in m.objects && e.bucket == b && e.key == k {
      assert Describes(src, e) && e.bucket in m.buckets;
    }
  }

  predicate TrueFile(base: Path, src: Buckets, tree: Tree, e: Entry) {
    Kept(base, src, e) && IsFile(tree, FileOf(base, src, e).path) && tree[FileOf(base, src, e).path].content == FileOf(base, src, e).content
  }

  /** Each entry's file holds the bytes of its object. */
  ghost predicate TrueFiles(base: Path, src: Buckets, tree: Tree, entries: seq<Entry>) {
    forall i :: 0 <= i < |entries| ==> TrueFile(base, src, tree, entries[i])
  }

  lemma UnclobberedIsTrue(base: Path, src: Buckets, codec: Codec, m: Manifest, tree: Tree)
    requires AllKept(base, src, m.objects)
    requires var files := Snapshot(base, src, codec, m); forall i :: 0 <= i < |files| ==> OnDisk(tree, files, i)
    requires Latest(Snapshot(base, src, codec, m), base + [MANIFEST]) == Some(codec.encode(m))
    ensures TrueFiles(base, src, tree, m.objects) <==> Unclobbered(Snapshot(base, src, codec, m))
  {
    var files := Snapshot(base, src, codec, m);
    LatestFaithful(files);
    forall i | 0 <= i < |m.objects|
      ensures TrueFile(base, src, tree, m.objects[i]) <==> Latest(files, files[i].path) == Some(files[i].content) {
      assert OnDisk(tree, files, i) && files[i] == FileOf(base, src, m.objects[i]);
    }
    assert files[|m.objects|] == ManifestFile(base, codec, m);
  }

  /** One object of the overridden target. */
  lemma OverriddenAt(target: Buckets, configured: seq<string>, src: Buckets, m: Manifest, b: string)
    ensures var o := Overridden(target, configured, Captured(src, m));
      && (b in o <==> b in target || b in configured || b in Captured(src, m))
      && (b in o ==> o[b] == (if b in target then target[b] else map[]) + (if b in Captured(src, m) then src[b] else map[]))
  {
  }

  lemma SelectedExists(src: Buckets, wanted: seq<string>, m: Manifest, b: string)
    requires Captures(src, wanted, m) && b in m.buckets
    ensures b in src
  {
    assert IsSelected(src, wanted, b);
  }

  lemma TrueEntry(base: Path, src: Buckets, tree: Tree, entries: seq<Entry>, b: string, k: string)
    requires TrueFiles(base, src, tree, entries) && HasEntry(entries, b, k)
    ensures b in src && k in src[b] && SafeJoin(base, b, k).Some? && IsFile(tree, SafeJoin(base, b, k).value)
    ensures Object(tree[SafeJoin(base, b, k).value].content, src[b][k].contentType) == src[b][k]
  {
    var e :| e in entries && e.bucket == b && e.key == k;
    var i :| 0 <= i < |entries| && entries[i] == e;
    assert TrueFile(base, src, tree, entries[i]);
  }

  lemma RestoredBucket(base: Path, src: Buckets, wanted: seq<string>, m: Manifest, tree: Tree,
                       target: Buckets, configured: seq<string>, r: Buckets, b: string)
    requires Captures(src, wanted, m) && TrueFiles(base, src, tree, m.objects)
    requires forall k :: PutBackAt(base, tree, src, Prepared(target, configured, m), m.objects, r, b, k)
    ensures var o := Overridden(target, configured, Captured(src, m)); (b in r <==> b in o) && (b in r ==> r[b] == o[b])
  {
    hide Overridden, Ensured, SafeJoin;
    OverriddenAt(target, configured, src, m, b);
    PreparedAt(target, configured, m, b);
    assert PutBackAt(base, tree, src, Prepared(target, configured, m), m.objects, r, b, "");
    if b in m.buckets {
      SelectedExists(src, wanted, m, b);
    }
    if b in r {
      var o := Overridden(target, configured, Captured(src, m));
      forall k ensures (k in r[b] <==> k in o[b]) && (k in r[b] ==> r[b][k] == o[b][k]) {
        assert PutBackAt(base, tree, src, Prepared(target, configured, m), m.objects, r, b, k);
        CapturedEntry(src, wanted, m, b, k);
        if HasEntry(m.objects, b, k) {
          TrueEntry(base, src, tree, m.objects, b, k);
        }
      }
      assert r[b] == o[b];
    }
  }

  lemma Restorable(base: Path, src: Buckets, wanted: seq<string>, codec: Codec, m: Manifest, tree: Tree, prepared: Buckets)
    requires Captures(src, wanted, m) && AllKept(base, src, m.objects)
    requires forall b :: b in m.buckets ==> b in prepared
    requires var files := Snapshot(base, src, codec, m); forall i :: 0 <= i < |files| ==> OnDisk(tree, files, i)
    ensures CanPutBack(base, tree, src, prepared, m.objects)
  {
    hide SafeJoin, Latest;
    var files := Snapshot(base, src, codec, m);
    forall i | 0 <= i < |m.objects|
      ensures m.objects[i].bucket in prepared && IsFile(tree, SafeJoin(base, m.objects[i].bucket, m.objects[i].key).value) {
      assert OnDisk(tree, files, i) && files[i] == FileOf(base, src, m.objects[i]);
      assert m.objects[i] in m.objects;
    }
  }

  /** If the restore is exact, each object's file is. */
  lemma ExactIsTrue(base: Path, src: Buckets, wanted: seq<string>, m: Manifest, tree: Tree,
                    target: Buckets, configured: seq<string>, r: Buckets, i: nat)
    requires Captures(src, wanted, m) && i < |m.objects| && Kept(base, src, m.objects[i])
    requires PutBackAt(base, tree, src, Prepared(target, configured, m), m.objects, r, m.objects[i].bucket, m.objects[i].key)
    requires r == Overridden(target, configured, Captured(src, m))
    ensures TrueFile(base, src, tree, m.objects[i])
  {
    hide SafeJoin, Ensured, Captures;
    var e := m.objects[i];
    assert e in m.objects;
    assert HasEntry(m.objects, e.bucket, e.key);
    CapturedEntry(src, wanted, m, e.bucket, e.key);
    PreparedAt(target, configured, m, e.bucket);
  }

  /** Restoring a snapshot that a backup has written always succeeds; and it turns any target
      into the target overridden by what was captured exactly when no file of the snapshot was
      clobbered. */
  lemma RoundTrip(base: Path, src: Buckets, wanted: seq<string>, codec: Codec, m: Manifest, before: Tree, tree: Tree,
                  target: Buckets, configured: seq<string>)
    requires Lossless(codec) && Captures(src, wanted, m) && AllKept(base, src, m.objects)
    requires SaveAll(before, Snapshot(base, src, codec, m)) == Some(tree)
    ensures ReadManifest(base, tree, codec) == Found(m)
    ensures var r := PutAllBack(base, tree, Prepared(target, configured, m), m.objects);
      r.Some? && (r.value == Overridden(target, configured, Captured(src, m)) <==> Unclobbered(Snapshot(base, src, codec, m)))
  {
    hide Overridden, Ensured, Prepared, Unclobbered, SafeJoin, SaveAll, Captures, PutAllBack, Captured;
    var files := Snapshot(base, src, codec, m);
    var prepared := Prepared(target, configured, m);
    SnapshotOnDisk(base, src, codec, m, before, tree);
    UnclobberedIsTrue(base, src, codec, m, tree);
    forall b | b in m.buckets ensures b in prepared {
      PreparedAt(target, configured, m, b);
    }
    Restorable(base, src, wanted, codec, m, tree, prepared);
    PutAllBackAt(base, tree, src, prepared, m.objects, "", "");
    forall b, k ensures PutBackAt(base, tree, src, prepared, m.objects, PutAllBack(base, tree, prepared, m.objects).value, b, k) {
      PutAllBackAt(base, tree, src, prepared, m.objects, b, k);
    }
    var r, o := PutAllBack(base, tree, prepared, m.objects).value, Overridden(target, configured, Captured(src, m));
    if TrueFiles(base, src, tree, m.objects) {
      forall b ensures (b in r <==> b in o) && (b in r ==> r[b] == o[b]) {
        RestoredBucket(base, src, wanted, m, tree, target, configured, r, b);
      }
      assert r == o;
    } else if r == o {
      forall i | 0 <= i < |m.objects| ensures TrueFile(base, src, tree, m.objects[i]) {
        assert OnDisk(tree, files, i);
        ExactIsTrue(base, src, wanted, m, tree, target, configured, r, i);
      }
    }
  }

  // ---------------------------------------------------------------- when that is the case

  lemma NotManifestPath(base: Path, bucket: string, rest: Path)
    requires bucket != MANIFEST
    ensures base + [bucket] + rest != base + [MANIFEST]
  {
    assert (base + [bucket] + rest)[|base|] == bucket && (base + [MANIFEST])[|base|] == MANIFEST;
  }

  /** Clean keys never clobber: for keys that are clean relative paths, in buckets whose names
      are path segments other than the manifest's name, every snapshot is faithful. */
  lemma CleanKeysUnclobbered(base: Path, src: Buckets, codec: Codec, m: Manifest)
    requires Plain(base) && AllKept(base, src, m.objects)
    requires forall i :: 0 <= i < |m.objects| ==>
      PlainSegment(m.objects[i].bucket) && m.objects[i].bucket != MANIFEST && CleanKey(m.objects[i].key)
    ensures Unclobbered(Snapshot(base, src, codec, m))
  {
    hide SafeJoin, Split;
    var files := Snapshot(base, src, codec, m);
    forall i, j | 0 <= i < j < |files| && files[i].path == files[j].path ensures files[i].content == files[j].content {
      var e := m.objects[i];
      assert files[i] == FileOf(base, src, e);
      SafeJoinClean(base, e.bucket, e.key);
      if j < |m.objects| {
        var f := m.objects[j];
        assert files[j] == FileOf(base, src, f);
        SafeJoinInjective(base, e.bucket, e.key, f.bucket, f.key);
      } else {
        NotManifestPath(base, e.bucket, Split(e.key));
      }
    }
  }

  lemma TwoKeysCaptured()
    ensures Captures(map["b" := map["x//y" := Object("1", ""), "x/y" := Object("2", "")]], [],
                     Manifest(["b"], [Entry("b", "x//y", 1, ""), Entry("b", "x/y", 1, "")]))
  {
    var m := Manifest(["b"], [Entry("b", "x//y", 1, ""), Entry("b", "x/y", 1, "")]);
    assert HasEntry(m.objects, "b", "x//y") by { assert m.objects[0] in m.objects; }
    assert HasEntry(m.objects, "b", "x/y") by { assert m.objects[1] in m.objects; }
  }

  lemma SplitTwo()
    ensures Split("b") == ["b"] && Split("x//y") == ["x", "", "y"] && Split("x/y") == ["x", "y"]
  {
    SplitPlain("b");
    SplitPlain("y");
    assert "/y"[1..] == "y" && "//y"[1..] == "/y" && "x//y"[1..] == "//y" && "x/y"[1..] == "/y";
    assert Split("/y") == [""] + ["y"];
    assert Split("//y") == [""] + ["", "y"];
    assert ['x'] + "" == "x";
    assert Split("x/y") == ["x"] + ["", "y"][1..];
    assert Split("x//y") == ["x"] + ["", "", "y"][1..];
  }

  lemma ResolveThree(base: Path, segs: seq<string>, a: string, b: string, c: string)
    requires segs == [a, b, "", c] && PlainSegment(a) && PlainSegment(b) && PlainSegment(c)
    ensures Resolve(base, segs) == base + [a] + [b] + [c]
  {
    assert segs[1..] == [b, "", c] && segs[1..][1..] == ["", c] && segs[1..][1..][1..] == [c] && segs[1..][1..][1..][1..] == [];
    assert Resolve(base + [a] + [b], ["", c]) == Resolve(base + [a] + [b], [c]);
  }

  lemma SamePath(base: Path)
    requires Plain(base)
    ensures SafeJoin(base, "b", "x//y").Some? && SafeJoin(base, "b", "x//y") == SafeJoin(base, "b", "x/y")
  {
    SplitTwo();
    hide Resolve, Split, SafeJoin;
    var p := base + ["b"] + ["x"] + ["y"];
    assert Resolve(base, ["b"] + ["x", "", "y"]) == p by { ResolveThree(base, ["b"] + ["x", "", "y"], "b", "x", "y"); }
    assert Resolve(base, ["b"] + ["x", "y"]) == p by {
      ResolvePlain(base, ["b"] + ["x", "y"]);
      assert base + (["b"] + ["x", "y"]) == p;
    }
    SafeJoinContained(base, "b", "x//y");
    SafeJoinContained(base, "b", "x/y");
  }

  /** Keys that differ only by an empty segment share a file: a backup of both restores the
      bytes of one under both keys. */
  lemma EmptySegmentsClobber(base: Path, codec: Codec)
    requires Plain(base)
    ensures var src: Buckets := map["b" := map["x//y" := Object("1", ""), "x/y" := Object("2", "")]];
      var m := Manifest(["b"], [Entry("b", "x//y", 1, ""), Entry("b", "x/y", 1, "")]);
      && Captures(src, [], m) && AllKept(base, src, m.objects) && !Unclobbered(Snapshot(base, src, codec, m))
  {
    TwoKeysCaptured();
    SamePath(base);
    hide SafeJoin, Captures;
    var src: Buckets := map["b" := map["x//y" := Object("1", ""), "x/y" := Object("2", "")]];
    var m := Manifest(["b"], [Entry("b", "x//y", 1, ""), Entry("b", "x/y", 1, "")]);
    var files := Snapshot(base, src, codec, m);
    assert files[0] == FileOf(base, src, m.objects[0]) && files[1] == FileOf(base, src, m.objects[1]);
  }

  // ---------------------------------------------------------------------------- backup

  /** A place that a snapshot of the selected buckets writes to. */
  ghost predicate IsTarget(base: Path, buckets: Buckets, wanted: seq<string>, p: Path) {
    p == base + [MANIFEST]
    || exists b, k :: IsSelected(buckets, wanted, b) && k in buckets[b] && SafeJoin(base, b, k) == Some(p)
  }

  /** Every selected object has a place below the folder, and none is in the way of another. */
  ghost predicate Storable(base: Path, buckets: Buckets, wanted: seq<string>) {
    && (forall b, k :: IsSelected(buckets, wanted, b) && k in buckets[b] ==> SafeJoin(base, b, k).Some? && base < SafeJoin(base, b, k).value)
    && (forall p, q :: IsTarget(base, buckets, wanted, p) && IsTarget(base, buckets, wanted, q) ==> !InTheWay(p, q))
  }

  predicate CleanNames(bucket: string, key: string) {
    PlainSegment(bucket) && bucket != MANIFEST && CleanKey(key)
  }

  /** The buckets and keys of a selection are plain: bucket names are path segments other than
      the manifest's name, keys are relative paths without empty, "." or ".." segments. */
  ghost predicate CleanSelection(buckets: Buckets, wanted: seq<string>) {
    forall b, k :: IsSelected(buckets, wanted, b) && k in buckets[b] ==> CleanNames(b, k)
  }

  /** No key is a directory on the way to another key of its bucket. */
  ghost predicate NoneNested(buckets: Buckets, wanted: seq<string>) {
    forall b, k, l :: IsSelected(buckets, wanted, b) && k in buckets[b] && l in buckets[b] ==> !(Split(k) < Split(l))
  }

  lemma PrefixBelow(base: Path, b: string, x: Path, c: string, y: Path)
    ensures base + [b] + x < base + [c] + y <==> b == c && x < y
  {
    var p, q := base + [b] + x, base + [c] + y;
    assert p[|base|] == b && q[|base|] == c && p[|base| + 1..] == x && q[|base| + 1..] == y;
    if p < q {
      assert p == q[..|p|];
      assert x == y[..|x|];
    }
    if b == c && x < y {
      assert y == x + y[|x|..];
      assert q == p + y[|x|..];
    }
  }

  lemma CleanPlace(base: Path, buckets: Buckets, wanted: seq<string>, b: string, k: string)
    requires Plain(base) && CleanSelection(buckets, wanted) && IsSelected(buckets, wanted, b) && k in buckets[b]
    ensures SafeJoin(base, b, k) == Some(base + [b] + Split(k)) && b != MANIFEST
    ensures base < base + [b] + Split(k)
    ensures IsTarget(base, buckets, wanted, base + [b] + Split(k))
  {
    hide SafeJoin, Split, Plain, PlainSegment;
    assert CleanNames(b, k);
    SafeJoinClean(base, b, k);
    hide CleanSelection, IsSelected;
    assert base + [b] + Split(k) == base + ([b] + Split(k));
  }

  /** A target by its bucket and the path below it; the manifest counts as a bucket of one. */
  lemma TargetAt(base: Path, buckets: Buckets, wanted: seq<string>, p: Path) returns (b: string, x: Path)
    requires Plain(base) && CleanSelection(buckets, wanted) && IsTarget(base, buckets, wanted, p)
    ensures p == base + [b] + x
    ensures if b == MANIFEST then x == []
            else IsSelected(buckets, wanted, b) && exists k :: k in buckets[b] && x == Split(k)
  {
    if p == base + [MANIFEST] {
      b, x := MANIFEST, [];
      assert base + [MANIFEST] + [] == base + [MANIFEST];
    } else {
      var k;
      b, k :| IsSelected(buckets, wanted, b) && k in buckets[b] && SafeJoin(base, b, k) == Some(p);
      CleanPlace(base, buckets, wanted, b, k);
      x := Split(k);
    }
  }

  lemma TargetsApart(base: Path, buckets: Buckets, wanted: seq<string>, p: Path, q: Path)
    requires Plain(base) && CleanSelection(buckets, wanted) && NoneNested(buckets, wanted)
    requires IsTarget(base, buckets, wanted, p) && IsTarget(base, buckets, wanted, q)
    ensures !(p < q)
  {
    hide SafeJoin, Split, CleanSelection;
    var b, x := TargetAt(base, buckets, wanted, p);
    var c, y := TargetAt(base, buckets, wanted, q);
    PrefixBelow(base, b, x, c, y);
  }

  /** A selection of clean keys is storable if and only if no key is a directory prefix of
      another. */
  lemma CleanKeysStorable(base: Path, buckets: Buckets, wanted: seq<string>)
    requires Plain(base) && CleanSelection(buckets, wanted)
    ensures Storable(base, buckets, wanted) <==> NoneNested(buckets, wanted)
  {
    hide SafeJoin, Split, CleanSelection;
    forall b, k | IsSelected(buckets, wanted, b) && k in buckets[b]
      ensures SafeJoin(base, b, k).Some? && base < SafeJoin(base, b, k).value {
      CleanPlace(base, buckets, wanted, b, k);
    }
    if NoneNested(buckets, wanted) {
      forall p, q | IsTarget(base, buckets, wanted, p) && IsTarget(base, buckets, wanted, q) ensures !(p < q) {
        TargetsApart(base, buckets, wanted, p, q);
      }
    }
    if Storable(base, buckets, wanted) {
      forall b, k, l | IsSelected(buckets, wanted, b) && k in buckets[b] && l in buckets[b] ensures !(Split(k) < Split(l)) {
        CleanPlace(base, buckets, wanted, b, k);
        CleanPlace(base, buckets, wanted, b, l);
        PrefixBelow(base, b, Split(k), b, Split(l));
        assert !InTheWay(base + [b] + Split(k), base + [b] + Split(l));
      }
    }
  }

  /** Nothing at the folder or below it, and no file on the way to it. */
  ghost predicate Unused(t: Tree, base: Path) {
    && (forall q :: q in Prefixes(base) ==> !IsFile(t, q))
    && (forall q :: q in t ==> !(base < q))
  }

  lemma UnusedIsFresh(t: Tree, base: Path)
    requires Unused(t, base)
    ensures MkdirAll(t, base).Some? && FreshDir(MkdirAll(t, base).value, base)
  {
    var u := MkdirAll(t, base).value;
    forall q | q in u ensures !(base < q) {
      if q in Prefixes(base) {
        assert |q| <= |base|;
      }
    }
  }

  lemma {:induction false} SaveAllKeepsDir(t: Tree, files: seq<FileAt>, base: Path)
    requires IsDir(t, base) && SaveAll(t, files).Some?
    requires forall i :: 0 <= i < |files| ==> base <= files[i].path
    ensures IsDir(SaveAll(t, files).value, base) && Below(base, files)
  {
    if files == [] {
    } else {
      var front, f := files[..|files| - 1], files[|files| - 1];
      SaveAllKeepsDir(t, front, base);
      SaveAt(SaveAll(t, front).value, f, base);
      SaveFails(SaveAll(t, front).value, f);
    }
  }

  lemma KeptInside(base: Path, buckets: Buckets, e: Entry)
    requires Plain(base) && Kept(base, buckets, e)
    ensures base <= FileOf(base, buckets, e).path
  {
    SafeJoinContained(base, e.bucket, e.key);
  }

  ghost predicate AllSelected(buckets: Buckets, wanted: seq<string>, entries: seq<Entry>) {
    forall i :: 0 <= i < |entries| ==> IsSelected(buckets, wanted, entries[i].bucket) && Describes(buckets, entries[i])
  }

  /** Targets of a storable selection can all be written. */
  lemma StorableSucceeds(t: Tree, base: Path, buckets: Buckets, wanted: seq<string>, files: seq<FileAt>)
    requires FreshDir(t, base) && Storable(base, buckets, wanted)
    requires forall i :: 0 <= i < |files| ==> IsTarget(base, buckets, wanted, files[i].path)
    ensures SaveAll(t, files).Some?
  {
    hide SaveAll, SafeJoin, FreshDir;
    forall i | 0 <= i < |files| ensures base < files[i].path {
      assert IsTarget(base, buckets, wanted, files[i].path);
    }
    SaveAllSucceeds(t, base, files);
  }

  lemma SelectedFile(base: Path, buckets: Buckets, wanted: seq<string>, m: Manifest, b: string, k: string) returns (i: nat)
    requires Captures(buckets, wanted, m) && IsSelected(buckets, wanted, b) && k in buckets[b]
    ensures i < |m.objects| && m.objects[i].bucket == b && m.objects[i].key == k
  {
    assert b in m.buckets;
    assert HasEntry(m.objects, b, k);
    var e :| e in m.objects && e.bucket == b && e.key == k;
    i :| 0 <= i < |m.objects| && m.objects[i] == e;
  }

  lemma TargetFile(base: Path, buckets: Buckets, wanted: seq<string>, codec: Codec, m: Manifest, p: Path) returns (i: nat)
    requires Captures(buckets, wanted, m) && AllKept(base, buckets, m.objects)
    requires IsTarget(base, buckets, wanted, p)
    ensures i <= |m.objects| && Snapshot(base, buckets, codec, m)[i].path == p
  {
    if p == base + [MANIFEST] {
      i := |m.objects|;
    } else {
      var b, k :| IsSelected(buckets, wanted, b) && k in buckets[b] && SafeJoin(base, b, k) == Some(p);
      i := SelectedFile(base, buckets, wanted, m, b, k);
      assert Snapshot(base, buckets, codec, m)[i] == FileOf(base, buckets, m.objects[i]);
    }
  }

  /** If a snapshot could be written, its selection is storable. */
  lemma SuccessMeansStorable(t: Tree, base: Path, buckets: Buckets, wanted: seq<string>, codec: Codec, m: Manifest)
    requires FreshDir(t, base) && Plain(base)
    requires Captures(buckets, wanted, m) && AllKept(base, buckets, m.objects)
    requires SaveAll(t, Snapshot(base, buckets, codec, m)).Some?
    ensures Storable(base, buckets, wanted)
  {
    hide SaveAll, SafeJoin;
    var files := Snapshot(base, buckets, codec, m);
    forall i | 0 <= i < |files| ensures base <= files[i].path {
      if i < |m.objects| {
        KeptInside(base, buckets, m.objects[i]);
      }
    }
    assert base in Prefixes(base) by { assert base == base[..|base|]; }
    SaveAllKeepsDir(t, files, base);
    SaveAllSucceeds(t, base, files);
    forall b, k | IsSelected(buckets, wanted, b) && k in buckets[b]
      ensures SafeJoin(base, b, k).Some? && base < SafeJoin(base, b, k).value {
      var i := SelectedFile(base, buckets, wanted, m, b, k);
      assert files[i] == FileOf(base, buckets, m.objects[i]);
    }
    forall p, q | IsTarget(base, buckets, wanted, p) && IsTarget(base, buckets, wanted, q) ensures !InTheWay(p, q) {
      var i := TargetFile(base, buckets, wanted, codec, m, p);
      var j := TargetFile(base, buckets, wanted, codec, m, q);
      if i < j {
        assert !InTheWay(files[i].path, files[j].path);
      } else if j < i {
        assert !InTheWay(files[j].path, files[i].path);
      }
    }
  }

  /** Streams a file to disk, with the directories it needs. */
  method SaveFile(disk: FileSystem, f: FileAt) returns (ok: bool)
    requires f.path != []
    modifies disk
    ensures ok <==> Save(old(disk.tree), f).Some?
    ensures ok ==> Some(disk.tree) == Save(old(disk.tree), f)
  {
    ok := disk.MakeDir(f.path[..|f.path| - 1]);
    if ok {
      ok := disk.Write(f.path, f.content);
    }
  }

  /** Downloads one object to its place in the folder; `e` is its entry in the manifest. */
  method DownloadObject(s3: ObjectStore, disk: FileSystem, bucket: string, key: string, base: Path) returns (ok: bool, e: Entry)
    requires bucket in s3.buckets && key in s3.buckets[bucket] && base != [] && Plain(base)
    modifies disk
    ensures Describes(s3.buckets, e) && e.bucket == bucket && e.key == key
    ensures ok <==> Kept(base, s3.buckets, e) && Save(old(disk.tree), FileOf(base, s3.buckets, e)).Some?
    ensures ok ==> Some(disk.tree) == Save(old(disk.tree), FileOf(base, s3.buckets, e))
  {
    var o := s3.buckets[bucket][key];
    e := Entry(bucket, key, |o.data|, o.contentType);
    var path := SafeJoin(base, bucket, key);
    if path == None {
      return false, e;
    }
    SafeJoinContained(base, bucket, key);
    ok := SaveFile(disk, FileAt(path.value, o.data));
  }

  /** The entries done so far are selected objects, and their files are on disk. */
  ghost predicate Written(base: Path, buckets: Buckets, wanted: seq<string>, start: Tree, tree: Tree, done: seq<Entry>) {
    && AllSelected(buckets, wanted, done) && AllKept(base, buckets, done)
    && SaveAll(start, FilesOf(base, buckets, done)) == Some(tree)
  }

  lemma FilesOfSnoc(base: Path, buckets: Buckets, entries: seq<Entry>, e: Entry)
    requires AllKept(base, buckets, entries) && Kept(base, buckets, e)
    ensures FilesOf(base, buckets, entries + [e]) == FilesOf(base, buckets, entries) + [FileOf(base, buckets, e)]
  {
  }

  lemma WrittenSnoc(base: Path, buckets: Buckets, wanted: seq<string>, start: Tree, tree: Tree, done: seq<Entry>, e: Entry, after: Tree)
    requires Written(base, buckets, wanted, start, tree, done)
    requires IsSelected(buckets, wanted, e.bucket) && Kept(base, buckets, e)
    requires Save(tree, FileOf(base, buckets, e)) == Some(after)
    ensures Written(base, buckets, wanted, start, after, done + [e])
  {
    hide Save, SaveAll, SafeJoin;
    FilesOfSnoc(base, buckets, done, e);
    SaveAllSnoc(start, FilesOf(base, buckets, done), FileOf(base, buckets, e));
  }

  /** A selection with a file that cannot be written is not storable. */
  lemma DownloadFails(t: Tree, base: Path, buckets: Buckets, wanted: seq<string>, tree: Tree, done: seq<Entry>, e: Entry)
    requires FreshDir(t, base) && Written(base, buckets, wanted, t, tree, done)
    requires IsSelected(buckets, wanted, e.bucket) && Describes(buckets, e)
    requires Kept(base, buckets, e) ==> Save(tree, FileOf(base, buckets, e)) == None
    ensures !Storable(base, buckets, wanted)
  {
    hide SaveAll, SafeJoin, FreshDir, Save;
    if Storable(base, buckets, wanted) {
      assert Kept(base, buckets, e);
      StorableSucceeds(t, base, buckets, wanted, FilesOf(base, buckets, done + [e]));
      FilesOfSnoc(base, buckets, done, e);
      SaveAllSnoc(t, FilesOf(base, buckets, done), FileOf(base, buckets, e));
    }
  }

  /** Downloads a bucket's objects after those already done. */
  method DownloadBucket(s3: ObjectStore, disk: FileSystem, base: Path, bucket: string, done: seq<Entry>,
                        ghost wanted: seq<string>, ghost start: Tree) returns (ok: bool, objects: seq<Entry>)
    requires IsSelected(s3.buckets, wanted, bucket) && base != [] && Plain(base)
    requires Written(base, s3.buckets, wanted, start, disk.tree, done)
    modifies disk
    ensures ok ==> done <= objects && Written(base, s3.buckets, wanted, start, disk.tree, objects)
    ensures ok ==> forall k :: k in s3.buckets[bucket] ==> HasEntry(objects, bucket, k)
    ensures ok ==> forall e :: e in objects ==> e in done || e.bucket == bucket
    ensures !ok && FreshDir(start, base) ==> !Storable(base, s3.buckets, wanted)
  {
    hide Written, SafeJoin, Save, FreshDir, Storable, HasEntry, Describes;
    var keys := Enumerate(s3.buckets[bucket].Keys);
    objects := done;
    ok := true;
    for j := 0 to |keys|
      invariant done <= objects && Written(base, s3.buckets, wanted, start, disk.tree, objects)
      invariant forall k :: k in keys[..j] ==> HasEntry(objects, bucket, k)
      invariant forall e :: e in objects ==> e in done || e.bucket == bucket
    {
      ghost var tree := disk.tree;
      var got, e := DownloadObject(s3, disk, bucket, keys[j], base);
      if !got {
        ok := false;
        if FreshDir(start, base) {
          DownloadFails(start, base, s3.buckets, wanted, tree, objects, e);
        }
        return;
      }
      WrittenSnoc(base, s3.buckets, wanted, start, tree, objects, e, disk.tree);
      forall k | k in keys[..j + 1] ensures HasEntry(objects + [e], bucket, k) {
        HasEntrySnoc(objects, e, bucket, k);
      }
      objects := objects + [e];
    }
    assert keys[..|keys|] == keys;
  }

  lemma ManifestFails(t: Tree, base: Path, buckets: Buckets, wanted: seq<string>, codec: Codec, m: Manifest)
    requires FreshDir(t, base) && AllSelected(buckets, wanted, m.objects) && AllKept(base, buckets, m.objects)
    requires SaveAll(t, Snapshot(base, buckets, codec, m)) == None
    ensures !Storable(base, buckets, wanted)
  {
    hide SaveAll, SafeJoin, FreshDir;
    if Storable(base, buckets, wanted) {
      StorableSucceeds(t, base, buckets, wanted, Snapshot(base, buckets, codec, m));
    }
  }

  method SelectBuckets(s3: ObjectStore, wanted: seq<string>) returns (buckets: seq<string>)
    ensures forall b :: b in buckets <==> IsSelected(s3.buckets, wanted, b)
  {
    buckets := Enumerate(s3.buckets.Keys);
    if |wanted| > 0 {
      forall b ensures b in Filtered(buckets, wanted) <==> b in buckets && b in wanted {
        FilteredHas(buckets, wanted, b);
      }
      var missing;
      buckets, missing := FilterBuckets(buckets, wanted);
    }
  }

  lemma WrittenNothing(base: Path, buckets: Buckets, wanted: seq<string>, start: Tree)
    ensures Written(base, buckets, wanted, start, start, [])
  {
    assert FilesOf(base, buckets, []) == [];
  }

  lemma HasEntryGrows(a: seq<Entry>, b: seq<Entry>, bucket: string, key: string)
    requires a <= b && HasEntry(a, bucket, key)
    ensures HasEntry(b, bucket, key)
  {
    var e :| e in a && e.bucket == bucket && e.key == key;
    assert e in b;
  }

  lemma {:induction false} DirsStay(t: Tree, files: seq<FileAt>, q: Path)
    requires IsDir(t, q) && SaveAll(t, files).Some?
    ensures IsDir(SaveAll(t, files).value, q)
  {
    if files == [] {
    } else {
      DirsStay(t, files[..|files| - 1], q);
      SaveAt(SaveAll(t, files[..|files| - 1]).value, files[|files| - 1], q);
    }
  }

  /** The folder is there, so writing the manifest is saving it. */
  lemma WritesManifest(before: Tree, start: Tree, files: seq<FileAt>, tree: Tree, base: Path, codec: Codec, m: Manifest)
    requires MkdirAll(before, base) == Some(start) && SaveAll(start, files) == Some(tree)
    ensures Save(tree, ManifestFile(base, codec, m)) == WriteFile(tree, base + [MANIFEST], codec.encode(m))
  {
    forall q | q in Prefixes(base) ensures IsDir(tree, q) {
      DirsStay(start, files, q);
    }
    assert tree + (map q | q in Prefixes(base) :: Dir) == tree;
    assert (base + [MANIFEST])[..|base|] == base;
  }

  /** Saves the selected buckets under a folder. Into an unused folder this succeeds exactly
      when the selection is storable; what a success has written is the snapshot of a manifest
      that captures the selection. */
  method Backup(s3: ObjectStore, disk: FileSystem, codec: Codec, base: Path, wanted: seq<string>)
    returns (ok: bool, ghost m: Manifest)
    requires base != [] && Plain(base)
    modifies disk
    ensures ok ==> Captures(s3.buckets, wanted, m) && AllKept(base, s3.buckets, m.objects)
    ensures ok ==> var start := MkdirAll(old(disk.tree), base);
      start.Some? && SaveAll(start.value, Snapshot(base, s3.buckets, codec, m)) == Some(disk.tree)
    ensures Unused(old(disk.tree), base) ==> (ok <==> Storable(base, s3.buckets, wanted))
  {
    hide SafeJoin, Save, FreshDir, Storable, HasEntry, Describes, Unused, MkdirAll, SaveAll;
    ghost var bk := s3.buckets;
    ghost var before := disk.tree;
    if Unused(before, base) {
      UnusedIsFresh(before, base);
    }
    m := Manifest([], []);
    ok := disk.MakeDir(base);
    if !ok {
      return;
    }
    ghost var start := disk.tree;
    var buckets := SelectBuckets(s3, wanted);
    var objects := [];
    WrittenNothing(base, bk, wanted, start);
    for i := 0 to |buckets|
      invariant Written(base, bk, wanted, start, disk.tree, objects)
      invariant forall b, k :: b in buckets[..i] && b in bk && k in bk[b] ==> HasEntry(objects, b, k)
      invariant forall e :: e in objects ==> e.bucket in buckets
    {
      hide Written;
      ghost var done := objects;
      ok, objects := DownloadBucket(s3, disk, base, buckets[i], objects, wanted, start);
      if !ok {
        return;
      }
      forall b, k | b in buckets[..i + 1] && b in bk && k in bk[b] ensures HasEntry(objects, b, k) {
        if b in buckets[..i] {
          HasEntryGrows(done, objects, b, k);
        }
      }
    }
    assert buckets[..|buckets|] == buckets;
    var manifest := Manifest(buckets, objects);
    m := manifest;
    SaveAllSnoc(start, FilesOf(base, bk, objects), ManifestFile(base, codec, m));
    WritesManifest(before, start, FilesOf(base, bk, objects), disk.tree, base, codec, m);
    ok := disk.Write(base + [MANIFEST], codec.encode(manifest));
    if Unused(before, base) {
      if ok {
        SuccessMeansStorable(start, base, bk, wanted, codec, m);
      } else {
        ManifestFails(start, base, bk, wanted, codec, m);
      }
    }
  }

  // --------------------------------------------------------------------- apply and clean

  method EnsureAll(s3: ObjectStore, names: seq<string>)
    modifies s3
    ensures s3.buckets == Ensured(old(s3.buckets), names)
  {
    for i := 0 to |names|
      invariant s3.buckets == Ensured(old(s3.buckets), names[..i])
    {
      assert names[..i + 1][..i] == names[..i];
      s3.EnsureBucket(names[i]);
      assert Ensured(s3.buckets, []) == s3.buckets;
    }
    assert names[..|names|] == names;
  }

  /** The first `n` objects are put back and the next cannot be. */
  predicate StopsAt(base: Path, tree: Tree, t: Buckets, entries: seq<Entry>, n: nat, after: Buckets)
    requires n < |entries|
  {
    PutAllBack(base, tree, t, entries[..n]) == Some(after) && PutBack(base, tree, after, entries[n]) == None
  }

  /** What a failed upload leaves. */
  ghost predicate StopsShort(base: Path, tree: Tree, t: Buckets, entries: seq<Entry>, after: Buckets) {
    exists n: nat :: n < |entries| && StopsAt(base, tree, t, entries, n, after)
  }

  lemma {:induction false} StaysNone(base: Path, tree: Tree, t: Buckets, entries: seq<Entry>, n: nat)
    requires n <= |entries| && PutAllBack(base, tree, t, entries[..n]) == None
    ensures PutAllBack(base, tree, t, entries) == None
  {
    if n == |entries| {
      assert entries[..n] == entries;
    } else {
      assert entries[..|entries| - 1][..n] == entries[..n];
      StaysNone(base, tree, t, entries[..|entries| - 1], n);
    }
  }

  /** Uploads the listed objects in order, up to the first that cannot be read or put; those
      before it stay uploaded. */
  method UploadAll(s3: ObjectStore, disk: FileSystem, base: Path, objects: seq<Entry>) returns (ok: bool)
    modifies s3
    ensures var r := PutAllBack(base, disk.tree, old(s3.buckets), objects);
      (ok <==> r.Some?)
      && if ok then s3.buckets == r.value else StopsShort(base, disk.tree, old(s3.buckets), objects, s3.buckets)
  {
    ghost var t := s3.buckets;
    for i := 0 to |objects|
      invariant PutAllBack(base, disk.tree, t, objects[..i]) == Some(s3.buckets)
    {
      var e := objects[i];
      assert objects[..i + 1][..i] == objects[..i];
      var path := SafeJoin(base, e.bucket, e.key);
      ok := path.Some? && IsFile(disk.tree, path.value);
      if ok {
        ok := s3.PutObject(e.bucket, e.key, Object(disk.tree[path.value].content, e.contentType));
      }
      if !ok {
        assert StopsAt(base, disk.tree, t, objects, i, s3.buckets);
        StaysNone(base, disk.tree, t, objects, i + 1);
        return;
      }
    }
    assert objects[..|objects|] == objects;
    ok := true;
  }

  /** Restores a snapshot folder, if there is one: the configured buckets and the manifest's
      are created, and every listed object is uploaded. A missing manifest restores nothing;
      what fails leaves what came before it. */
  method ApplySnapshot(s3: ObjectStore, disk: FileSystem, codec: Codec, dir: Option<Path>, configured: seq<string>)
    returns (ok: bool)
    modifies s3
    ensures var reading := if dir == None then Missing else ReadManifest(dir.value, disk.tree, codec);
      match reading
      case Missing => ok && s3.buckets == Ensured(old(s3.buckets), configured)
      case Unreadable => !ok && s3.buckets == old(s3.buckets)
      case Malformed => !ok && s3.buckets == old(s3.buckets)
      case Found(m) =>
        var r := PutAllBack(dir.value, disk.tree, Prepared(old(s3.buckets), configured, m), m.objects);
        (ok <==> r.Some?)
        && if ok then s3.buckets == r.value
           else StopsShort(dir.value, disk.tree, Prepared(old(s3.buckets), configured, m), m.objects, s3.buckets)
  {
    var manifest := None;
    if dir.Some? {
      match ReadManifest(dir.value, disk.tree, codec)
      case Missing =>
      case Unreadable => return false;
      case Malformed => return false;
      case Found(m) => manifest := Some(m);
    }
    if configured == [] && manifest == None {
      return true;
    }
    EnsureAll(s3, configured);
    if manifest == None {
      return true;
    }
    EnsureAll(s3, manifest.value.buckets);
    ok := UploadAll(s3, disk, dir.value, manifest.value.objects);
  }

  method CleanBucket(s3: ObjectStore, bucket: string) returns (ok: bool)
    requires bucket in s3.buckets
    modifies s3
    ensures ok && s3.buckets == old(s3.buckets) - {bucket}
  {
    var keys := Enumerate(s3.buckets[bucket].Keys);
    for j := 0 to |keys|
      invariant s3.buckets.Keys == old(s3.buckets).Keys
      invariant forall b :: b in s3.buckets && b != bucket ==> s3.buckets[b] == old(s3.buckets)[b]
      invariant forall k :: k in s3.buckets[bucket] <==> k in keys[j..]
    {
      s3.RemoveObject(bucket, keys[j]);
    }
    assert s3.buckets[bucket] == map[];
    ok := s3.RemoveBucket(bucket);
  }

  /** Empties every bucket and removes it. */
  method Clean(s3: ObjectStore) returns (ok: bool)
    modifies s3
    ensures ok && s3.buckets == map[]
  {
    var buckets := Enumerate(s3.buckets.Keys);
    for i := 0 to |buckets|
      invariant forall b :: b in s3.buckets <==> b in buckets[i..]
    {
      ok := CleanBucket(s3, buckets[i]);
    }
    ok := true;
  }

  /** A backup of one store into an unused folder, applied to another store from that folder:
      whenever the backup succeeds so does the restore, and it overrides the target with what
      was captured exactly when no file was clobbered. */
  method BackupThenApply(source: ObjectStore, target: ObjectStore, disk: FileSystem, codec: Codec, base: Path, wanted: seq<string>)
    returns (saved: bool, restored: bool, ghost m: Manifest)
    requires Lossless(codec) && base != [] && Plain(base) && source != target && Unused(disk.tree, base)
    modifies disk, target
    ensures saved <==> Storable(base, source.buckets, wanted)
    ensures restored == saved
    ensures saved ==> Captures(source.buckets, wanted, m) && AllKept(base, source.buckets, m.objects)
    ensures saved ==>
      (target.buckets == Overridden(old(target.buckets), [], Captured(source.buckets, m))
       <==> Unclobbered(Snapshot(base, source.buckets, codec, m)))
    ensures !saved ==> target.buckets == old(target.buckets)
  {
    hide Storable, Captures, AllKept, Unclobbered, Overridden, Snapshot, SaveAll, MkdirAll, PutAllBack, Unused, Captured, ReadManifest;
    ghost var before := disk.tree;
    saved, m := Backup(source, disk, codec, base, wanted);
    restored := false;
    if saved {
      RoundTrip(base, source.buckets, wanted, codec, m, MkdirAll(before, base).value, disk.tree, target.buckets, []);
      restored := ApplySnapshot(target, disk, codec, Some(base), []);
    }
  }
}
