/** A tree of files, as `os.MkdirAll`, `os.Create` and `os.Open` see it. */
module FileTree {
  import opened Text
  import opened Paths

  datatype Node = Dir | File(content: string)

  type Tree = map<Path, Node>

  /** A file to be written. */
  datatype FileAt = FileAt(path: Path, content: string)

  predicate IsFile(t: Tree, p: Path) {
    p in t && t[p].File?
  }

  predicate IsDir(t: Tree, p: Path) {
    p in t && t[p].Dir?
  }

  function Prefixes(p: Path): set<Path> {
    set i | 0 <= i <= |p| :: p[..i]
  }

  /** Fails when a file is in the way. */
  function MkdirAll(t: Tree, p: Path): Option<Tree> {
    if exists q :: q in Prefixes(p) && IsFile(t, q) then None else Some(t + map q | q in Prefixes(p) :: Dir)
  }

  /** Replaces a file; fails without a parent directory or on a directory. */
  function WriteFile(t: Tree, p: Path, content: string): Option<Tree> {
    if p == [] || !IsDir(t, p[..|p| - 1]) || IsDir(t, p) then None else Some(t[p := File(content)])
  }

  /** Writes a file into the directories it needs. */
  function Save(t: Tree, f: FileAt): Option<Tree> {
    if f.path == [] then None
    else
      match MkdirAll(t, f.path[..|f.path| - 1])
      case None => None
      case Some(u) => WriteFile(u, f.path, f.content)
  }

  function SaveAll(t: Tree, files: seq<FileAt>): Option<Tree> {
    if files == [] then Some(t)
    else
      match SaveAll(t, files[..|files| - 1])
      case None => None
      case Some(u) => Save(u, files[|files| - 1])
  }

  lemma SaveAllSnoc(t: Tree, files: seq<FileAt>, f: FileAt)
    ensures SaveAll(t, files + [f]) == if SaveAll(t, files) == None then None else Save(SaveAll(t, files).value, f)
  {
    assert (files + [f])[..|files + [f]| - 1] == files;
  }

  /** The content last written to a path. */
  function Latest(files: seq<FileAt>, p: Path): Option<string> {
    if files == [] then None
    else if files[|files| - 1].path == p then Some(files[|files| - 1].content)
    else Latest(files[..|files| - 1], p)
  }

  // ------------------------------------------------------------------- what is written

  /** A path holds what was last written to it; other files stay. */
  lemma {:induction false} SaveAllWrites(t: Tree, files: seq<FileAt>, p: Path)
    requires SaveAll(t, files).Some?
    ensures var u := SaveAll(t, files).value;
      match Latest(files, p)
      case Some(c) => p in u && u[p] == File(c)
      case None => IsFile(t, p) ==> p in u && u[p] == t[p]
  {
    if files == [] {
    } else {
      SaveAllWrites(t, files[..|files| - 1], p);
    }
  }

  // ---------------------------------------------------------------- when writing succeeds

  /** A folder with nothing in it and nothing in its way. */
  ghost predicate FreshDir(t: Tree, base: Path) {
    && (forall q :: q in Prefixes(base) ==> IsDir(t, q))
    && (forall q :: q in t ==> !(base < q))
  }

  /** One path is a directory on the way to the other. */
  predicate InTheWay(p: Path, q: Path) {
    p < q || q < p
  }

  ghost predicate NoneInTheWay(files: seq<FileAt>) {
    forall i, j :: 0 <= i < j < |files| ==> !InTheWay(files[i].path, files[j].path)
  }

  ghost predicate Below(base: Path, files: seq<FileAt>) {
    forall i :: 0 <= i < |files| ==> base < files[i].path
  }

  /** Below a folder that was fresh: the files written, and the directories on the way. */
  ghost predicate Laid(u: Tree, base: Path, files: seq<FileAt>) {
    && (forall q :: q in Prefixes(base) ==> IsDir(u, q))
    && (forall q :: base < q ==> (IsFile(u, q) <==> exists i :: 0 <= i < |files| && files[i].path == q))
    && (forall q :: base < q ==> (IsDir(u, q) <==> exists i :: 0 <= i < |files| && q < files[i].path))
  }

  lemma NoneInTheWaySnoc(files: seq<FileAt>, f: FileAt)
    ensures NoneInTheWay(files + [f]) <==> NoneInTheWay(files) && forall i :: 0 <= i < |files| ==> !InTheWay(files[i].path, f.path)
  {
    var all := files + [f];
    if NoneInTheWay(all) {
      forall i, j | 0 <= i < j < |files| ensures !InTheWay(files[i].path, files[j].path) {
        assert !InTheWay(all[i].path, all[j].path);
      }
      forall i | 0 <= i < |files| ensures !InTheWay(files[i].path, f.path) {
        assert !InTheWay(all[i].path, all[|files|].path);
      }
    }
  }

  lemma PrefixesAre(p: Path, q: Path)
    ensures q in Prefixes(p) <==> q <= p
  {
    if q <= p {
      assert q == p[..|q|];
    }
  }

  lemma PrefixIsBefore(p: Path, q: Path)
    requires p != []
    ensures q in Prefixes(p[..|p| - 1]) <==> q < p
  {
    var parent := p[..|p| - 1];
    PrefixesAre(parent, q);
    if q < p {
      assert q == parent[..|q|];
    }
    if q <= parent {
      assert q == p[..|q|];
    }
  }

  /** Writing a file fails on a directory, and behind a file. */
  lemma SaveFails(u: Tree, f: FileAt)
    requires f.path != []
    ensures Save(u, f) == None <==> IsDir(u, f.path) || exists q :: q < f.path && IsFile(u, q)
  {
    var parent := f.path[..|f.path| - 1];
    PrefixIsBefore(f.path, f.path);
    PrefixIsBefore(f.path, parent);
    if q :| q in Prefixes(parent) && IsFile(u, q) {
      PrefixIsBefore(f.path, q);
    }
    if q :| q < f.path && IsFile(u, q) {
      PrefixIsBefore(f.path, q);
    }
  }

  /** On the way to a path below the base: on the way to the base, or below it. */
  lemma BeforeBelow(base: Path, p: Path, q: Path)
    requires base < p && q < p
    ensures q in Prefixes(base) || base < q
  {
    if |q| <= |base| {
      assert q == p[..|q|] == base[..|q|];
    } else {
      assert base == p[..|base|] == q[..|base|];
    }
  }

  /** What writing a file does to one path. */
  lemma SaveAt(u: Tree, f: FileAt, q: Path)
    requires Save(u, f).Some?
    ensures IsFile(Save(u, f).value, q) <==> q == f.path || IsFile(u, q)
    ensures IsDir(Save(u, f).value, q) <==> q < f.path || IsDir(u, q)
  {
    PrefixIsBefore(f.path, q);
    PrefixIsBefore(f.path, f.path);
  }

  lemma SaveLays(u: Tree, base: Path, files: seq<FileAt>, f: FileAt)
    requires Laid(u, base, files) && base < f.path && Save(u, f).Some?
    ensures Laid(Save(u, f).value, base, files + [f])
  {
    hide Save;
    var w, all := Save(u, f).value, files + [f];
    forall q | q in Prefixes(base) ensures IsDir(w, q) {
      SaveAt(u, f, q);
    }
    forall q | base < q ensures IsFile(w, q) <==> exists i :: 0 <= i < |all| && all[i].path == q {
      SaveAt(u, f, q);
      assert all[|files|].path == f.path;
      if i :| 0 <= i < |files| && files[i].path == q {
        assert all[i].path == q;
      }
    }
    forall q | base < q ensures IsDir(w, q) <==> exists i :: 0 <= i < |all| && q < all[i].path {
      SaveAt(u, f, q);
      assert all[|files|].path == f.path;
      if i :| 0 <= i < |files| && q < files[i].path {
        assert q < all[i].path;
      }
    }
  }

  lemma SaveSucceeds(u: Tree, base: Path, files: seq<FileAt>, f: FileAt)
    requires Laid(u, base, files) && Below(base, files) && base < f.path
    ensures Save(u, f).Some? <==> forall i :: 0 <= i < |files| ==> !InTheWay(files[i].path, f.path)
    ensures Save(u, f).Some? ==> Laid(Save(u, f).value, base, files + [f])
  {
    hide Save;
    SaveFails(u, f);
    if q :| q < f.path && IsFile(u, q) {
      BeforeBelow(base, f.path, q);
      var i :| 0 <= i < |files| && files[i].path == q;
      assert InTheWay(files[i].path, f.path);
    }
    if i :| 0 <= i < |files| && InTheWay(files[i].path, f.path) {
      assert base < files[i].path;
      assert IsFile(u, files[i].path);
    }
    if Save(u, f).Some? {
      SaveLays(u, base, files, f);
    }
  }

  /** Into a fresh folder a list of files can be written just when none is a directory on the
      way to another. */
  lemma {:induction false} SaveAllSucceeds(t: Tree, base: Path, files: seq<FileAt>)
    requires FreshDir(t, base) && Below(base, files)
    ensures SaveAll(t, files).Some? <==> NoneInTheWay(files)
    ensures SaveAll(t, files).Some? ==> Laid(SaveAll(t, files).value, base, files)
  {
    if files == [] {
    } else {
      hide NoneInTheWay, Laid, InTheWay, Save, FreshDir, SaveAll;
      var front, f := files[..|files| - 1], files[|files| - 1];
      SaveAllSucceeds(t, base, front);
      NoneInTheWaySnoc(front, f);
      SaveAllSnoc(t, front, f);
      assert files == front + [f];
      if SaveAll(t, front).Some? {
        SaveSucceeds(SaveAll(t, front).value, base, front, f);
      }
    }
  }
}
