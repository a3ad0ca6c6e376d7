/** Slash-separated relative paths as `path/filepath` treats them, and the join that keeps a
    snapshot's files inside its folder (internal/service/minio.go:537-544). */
module Paths {
  import opened Text

  /** A path by its segments; the empty path is ".". */
  type Path = seq<string>

  predicate PlainSegment(s: string) {
    s != "" && s != "." && s != ".." && '/' !in s
  }

  predicate Plain(p: Path) {
    forall i :: 0 <= i < |p| ==> PlainSegment(p[i])
  }

  /** The segments of a path text. */
  function Split(s: string): (r: seq<string>)
    ensures r != []
  {
    if s == "" then [""]
    else
      var rest := Split(s[1..]);
      if s[0] == '/' then [""] + rest else [[s[0]] + rest[0]] + rest[1..]
  }

  lemma {:induction false} SplitLossless(s: string)
    ensures Join(Split(s), "/") == s
  {
    if s == "" {
    } else {
      SplitLossless(s[1..]);
      if s[0] == '/' {
        assert "" + "/" + s[1..] == s;
      } else {
        assert [s[0]] + s[1..] == s;
      }
    }
  }

  // ---------------------------------------------------------------- cleaning and joining

  /** One segment of `filepath.Clean` on a relative path. */
  function Push(stack: Path, seg: string): Path {
    if seg == "" || seg == "." then stack
    else if seg == ".." && stack != [] && stack[|stack| - 1] != ".." then stack[..|stack| - 1]
    else stack + [seg]
  }

  function Resolve(stack: Path, segs: seq<string>): Path
    decreases |segs|
  {
    if segs == [] then stack else Resolve(Push(stack, segs[0]), segs[1..])
  }

  function Common(a: Path, b: Path): (n: nat)
    ensures n <= |a| && n <= |b| && a[..n] == b[..n]
    ensures n < |a| && n < |b| ==> a[n] != b[n]
  {
    if a == [] || b == [] || a[0] != b[0] then 0
    else
      var n := Common(a[1..], b[1..]);
      assert a[..n + 1] == [a[0]] + a[1..][..n] && b[..n + 1] == [b[0]] + b[1..][..n];
      n + 1
  }

  /** `filepath.Rel`: up to the common part, then down. */
  function Rel(base: Path, target: Path): Path {
    var n := Common(base, target);
    seq(|base| - n, _ => "..") + target[n..]
  }

  function SafeJoin(base: Path, bucket: string, key: string): Option<Path> {
    var joined := Resolve(base, Split(bucket) + Split(key));
    var rel := Rel(base, joined);
    if rel != [] && rel[0] == ".." then None else Some(joined)
  }

  predicate CleanedAt(p: Path, i: nat)
    requires i < |p|
  {
    PlainSegment(p[i]) || (p[i] == ".." && (i > 0 ==> p[i - 1] == ".."))
  }

  /** What `filepath.Clean` leaves of a relative path: ".." only in front. */
  predicate Cleaned(p: Path) {
    forall i :: 0 <= i < |p| ==> CleanedAt(p, i)
  }

  lemma PushCleans(stack: Path, seg: string)
    requires Cleaned(stack) && '/' !in seg
    ensures Cleaned(Push(stack, seg))
  {
    var p := Push(stack, seg);
    forall i | 0 <= i < |p| ensures CleanedAt(p, i) {
      if i < |stack| {
        assert CleanedAt(stack, i);
      }
    }
  }

  lemma {:induction false} ResolveCleans(stack: Path, segs: seq<string>)
    requires Cleaned(stack)
    requires forall i :: 0 <= i < |segs| ==> '/' !in segs[i]
    ensures Cleaned(Resolve(stack, segs))
    decreases |segs|
  {
    if segs == [] {
    } else {
      PushCleans(stack, segs[0]);
      ResolveCleans(Push(stack, segs[0]), segs[1..]);
    }
  }

  lemma {:induction false} SplitHasNoSlash(s: string)
    ensures forall i :: 0 <= i < |Split(s)| ==> '/' !in Split(s)[i]
  {
    if s == "" {
    } else {
      SplitHasNoSlash(s[1..]);
    }
  }

  lemma {:induction false} CommonOfPrefix(a: Path, b: Path)
    requires a <= b
    ensures Common(a, b) == |a|
  {
    if a == [] {
    } else {
      CommonOfPrefix(a[1..], b[1..]);
    }
  }

  lemma {:induction false} PlainFrom(p: Path, n: nat, i: nat)
    requires Cleaned(p) && n <= i < |p| && p[n] != ".."
    ensures PlainSegment(p[i])
    decreases i
  {
    assert CleanedAt(p, i);
    if i == n {
    } else {
      PlainFrom(p, n, i - 1);
    }
  }

  lemma {:induction false} CleanedAfterPlain(p: Path, n: nat)
    requires Cleaned(p) && n <= |p| && Plain(p[..n])
    requires n < |p| ==> p[n] != ".."
    ensures Plain(p)
  {
    forall i | 0 <= i < |p| ensures PlainSegment(p[i]) {
      if i < n {
        assert p[..n][i] == p[i];
      } else {
        PlainFrom(p, n, i);
      }
    }
  }

  /** The joined path is refused exactly when it is not inside the base; what is accepted has
      no ".." left. */
  lemma SafeJoinContained(base: Path, bucket: string, key: string)
    requires Plain(base)
    ensures var joined := Resolve(base, Split(bucket) + Split(key));
      SafeJoin(base, bucket, key) == if base <= joined && Plain(joined) then Some(joined) else None
  {
    var segs := Split(bucket) + Split(key);
    var joined := Resolve(base, segs);
    SplitHasNoSlash(bucket);
    SplitHasNoSlash(key);
    ResolveCleans(base, segs);
    var n := Common(base, joined);
    if base <= joined {
      CommonOfPrefix(base, joined);
    }
    if n == |base| {
      assert base == base[..n] == joined[..n];
      assert Rel(base, joined) == joined[n..];
      if joined[n..] == [] || joined[n] != ".." {
        CleanedAfterPlain(joined, n);
      }
    }
  }

  lemma {:induction false} ResolvePlain(stack: Path, segs: seq<string>)
    requires Plain(segs)
    ensures Resolve(stack, segs) == stack + segs
    decreases |segs|
  {
    if segs == [] {
      assert stack + segs == stack;
    } else {
      ResolvePlain(Push(stack, segs[0]), segs[1..]);
      assert stack + segs == stack + [segs[0]] + segs[1..];
    }
  }

  // Going up.

  function Ups(k: nat): seq<string> {
    seq(k, _ => "..")
  }

  lemma {:induction false} ResolveConcat(stack: Path, a: seq<string>, b: seq<string>)
    ensures Resolve(stack, a + b) == Resolve(Resolve(stack, a), b)
    decreases |a|
  {
    if a == [] {
      assert a + b == b;
    } else {
      assert (a + b)[0] == a[0] && (a + b)[1..] == a[1..] + b;
      ResolveConcat(Push(stack, a[0]), a[1..], b);
    }
  }

  /** Anywhere in a path an empty segment and "." say nothing, and ".." takes back the segment
      before it. */
  lemma ResolveRules(stack: Path, a: seq<string>, x: string, b: seq<string>)
    ensures Resolve(stack, a + [""] + b) == Resolve(stack, a + b)
    ensures Resolve(stack, a + ["."] + b) == Resolve(stack, a + b)
    ensures PlainSegment(x) ==> Resolve(stack, a + [x, ".."] + b) == Resolve(stack, a + b)
  {
    var mid := Resolve(stack, a);
    ResolveConcat(stack, a, b);
    forall skipped | skipped in {[""], ["."], [x, ".."]} ensures Resolve(stack, a + skipped + b) == Resolve(Resolve(mid, skipped), b) {
      ResolveConcat(stack, a + skipped, b);
      ResolveConcat(stack, a, skipped);
    }
    assert Resolve(mid, [""]) == mid && Resolve(mid, ["."]) == mid;
    if PlainSegment(x) {
      assert [x, ".."][1..] == [".."] && [".."][1..] == [];
      assert Resolve(mid, [x, ".."]) == Push(mid + [x], "..") == (mid + [x])[..|mid|] == mid;
    }
  }

  lemma {:induction false} UpMore(j: nat, k: nat)
    ensures Resolve(Ups(j), Ups(k)) == Ups(j + k)
    decreases k
  {
    if k == 0 {
    } else {
      assert Ups(k)[1..] == Ups(k - 1) && Ups(j) + [".."] == Ups(j + 1);
      UpMore(j + 1, k - 1);
    }
  }

  /** ".." goes up one level, and on above where there is none. */
  lemma {:induction false} UpAll(stack: Path, k: nat)
    requires Plain(stack)
    ensures Resolve(stack, Ups(k)) == if k <= |stack| then stack[..|stack| - k] else Ups(k - |stack|)
    decreases k
  {
    if k == 0 {
      assert stack[..|stack|] == stack;
    } else if stack == [] {
      assert Ups(0) == [];
      UpMore(0, k);
    } else {
      assert Ups(k)[1..] == Ups(k - 1);
      UpAll(stack[..|stack| - 1], k - 1);
      assert k <= |stack| ==> stack[..|stack| - 1][..|stack| - k] == stack[..|stack| - k];
    }
  }

  lemma UpwardSegments(bucket: string, k: nat, rest: Path)
    ensures [bucket] + (Ups(k + 1) + rest) == [] + [bucket, ".."] + (Ups(k) + rest)
    ensures [] + (Ups(k) + rest) == Ups(k) + rest
  {
    assert Ups(k + 1) == [".."] + Ups(k);
    hide Ups;
    assert [bucket] + ([".."] + Ups(k) + rest) == [bucket, ".."] + (Ups(k) + rest);
  }

  /** Where a bucket, more ".." and a plain rest lead to. */
  lemma UpwardPath(base: Path, bucket: string, k: nat, rest: Path)
    requires Plain(base) && PlainSegment(bucket) && Plain(rest)
    ensures Resolve(base, [bucket] + (Ups(k + 1) + rest)) == (if k <= |base| then base[..|base| - k] else Ups(k - |base|)) + rest
  {
    hide *;
    UpwardSegments(bucket, k, rest);
    ResolveRules(base, [], bucket, Ups(k) + rest);
    ResolveConcat(base, Ups(k), rest);
    UpAll(base, k);
    ResolvePlain(Resolve(base, Ups(k)), rest);
  }

  lemma BackInside(front: Path, back: Path, rest: Path)
    ensures front + back <= front + rest <==> back <= rest
  {
    if front + back <= front + rest {
      assert (front + rest)[..|front + back|] == front + back;
      assert (front + rest)[..|front + back|][|front|..] == rest[..|back|];
    }
    if back <= rest {
      assert rest[..|back|] == back;
      assert (front + rest)[..|front + back|] == front + rest[..|back|];
    }
  }

  lemma {:induction false} SplitPlain(s: string)
    requires '/' !in s
    ensures Split(s) == [s]
  {
    if s == "" {
    } else {
      SplitPlain(s[1..]);
      assert [s[0]] + s[1..] == s;
    }
  }

  /** A key that begins with two or more ".." is refused, unless what follows leads back into
      the base. */
  lemma UpwardKey(base: Path, bucket: string, key: string, k: nat, rest: Path)
    requires Plain(base) && PlainSegment(bucket) && Plain(rest) && k >= 1 && Split(key) == Ups(k + 1) + rest
    ensures SafeJoin(base, bucket, key)
      == if k <= |base| && base[|base| - k..] <= rest then Some(base[..|base| - k] + rest) else None
  {
    hide Resolve, SafeJoin, Split;
    SplitPlain(bucket);
    SafeJoinContained(base, bucket, key);
    UpwardPath(base, bucket, k, rest);
    if k <= |base| {
      var front, back := base[..|base| - k], base[|base| - k..];
      assert base == front + back && Plain(front + rest);
      BackInside(front, back, rest);
    } else {
      assert (Ups(k - |base|) + rest)[0] == "..";
    }
  }

  lemma SplitAt(a: string, b: string)
    requires '/' !in a
    ensures Split(a + "/" + b) == [a] + Split(b)
  {
    if a == "" {
      assert ("" + "/" + b)[1..] == b;
    } else {
      assert (a + "/" + b)[1..] == a[1..] + "/" + b;
      SplitAt(a[1..], b);
      assert [a[0]] + a[1..] == a;
    }
  }

  /** So is "../../x" under a base that does not end in "x". */
  lemma TwoUp(base: Path, bucket: string)
    requires Plain(base) && PlainSegment(bucket) && (base != [] ==> base[|base| - 1] != "x")
    ensures SafeJoin(base, bucket, "../../x") == None
  {
    assert "../../x" == ".." + "/" + "../x" && "../x" == ".." + "/" + "x";
    SplitAt("..", "../x");
    SplitAt("..", "x");
    SplitPlain("x");
    assert Ups(2) + ["x"] == [".."] + ([".."] + ["x"]);
    hide SafeJoin, Split;
    UpwardKey(base, bucket, "../../x", 1, ["x"]);
    if base != [] {
      assert base[|base| - 1..][0] == base[|base| - 1];
    }
  }

  /** A key that is a relative path without empty, "." or ".." segments. */
  predicate CleanKey(key: string) {
    Plain(Split(key))
  }

  lemma SafeJoinClean(base: Path, bucket: string, key: string)
    requires Plain(base) && PlainSegment(bucket) && CleanKey(key)
    ensures SafeJoin(base, bucket, key) == Some(base + [bucket] + Split(key))
  {
    hide Resolve, SafeJoin, Split;
    var segs := [bucket] + Split(key);
    SplitPlain(bucket);
    ResolvePlain(base, segs);
    assert base + segs == base + [bucket] + Split(key);
    assert Plain(base + segs);
    SafeJoinContained(base, bucket, key);
  }

  /** On such keys different objects get different paths. */
  lemma SafeJoinInjective(base: Path, bucket: string, key: string, bucket': string, key': string)
    requires Plain(base) && PlainSegment(bucket) && CleanKey(key) && PlainSegment(bucket') && CleanKey(key')
    requires SafeJoin(base, bucket, key) == SafeJoin(base, bucket', key')
    ensures bucket == bucket' && key == key'
  {
    SafeJoinClean(base, bucket, key);
    SafeJoinClean(base, bucket', key');
    var p, q := base + [bucket] + Split(key), base + [bucket'] + Split(key');
    assert p[|base|] == bucket && q[|base|] == bucket';
    assert p[|base| + 1..] == Split(key) && q[|base| + 1..] == Split(key');
    SplitLossless(key);
    SplitLossless(key');
  }
}
