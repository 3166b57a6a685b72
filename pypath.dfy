/**
 * The POSIX path operations the scripts call: `os.path.join` (two
 * arguments; more arguments fold from the left), `os.path.splitext`,
 * `os.path.basename`, `os.path.dirname`, and `pathlib`'s `suffix` and
 * `with_suffix` on a file name. Paths are strings with `/` as separator.
 */
module PyPath {
  import opened Text

  /** `s.rfind(c)`: the last index holding `c`, or -1. */
  function LastIndexOf(s: string, c: char): (i: int)
    ensures -1 <= i < |s|
    ensures i >= 0 ==> s[i] == c
    ensures forall j :: i < j < |s| ==> s[j] != c
    decreases |s|
  {
    if s == [] then -1
    else if s[|s| - 1] == c then |s| - 1
    else LastIndexOf(s[..|s| - 1], c)
  }

  lemma LastIndexOfFound(s: string, c: char)
    ensures LastIndexOf(s, c) >= 0 ==> c in s
  {
    var i := LastIndexOf(s, c);
    if i >= 0 {
      assert s[i] in s;
    }
  }

  lemma LastIndexOfAbsent(s: string, c: char)
    requires c !in s
    ensures LastIndexOf(s, c) == -1
  {
    LastIndexOfFound(s, c);
  }

  /** A character absent from every position from `lo` on is absent from `s[lo..]`. */
  lemma NotInSuffix(s: string, c: char, lo: int)
    requires 0 <= lo <= |s|
    requires forall j :: lo <= j < |s| ==> s[j] != c
    ensures c !in s[lo..]
  {
    forall k | 0 <= k < |s| - lo
      ensures s[lo..][k] != c
    {
      assert s[lo..][k] == s[lo + k];
    }
  }

  /** rfind on a concatenation looks in the right part first. */
  lemma {:induction false} LastIndexOfAppend(a: string, b: string, c: char)
    ensures LastIndexOf(a + b, c) ==
            if LastIndexOf(b, c) >= 0 then |a| + LastIndexOf(b, c) else LastIndexOf(a, c)
    decreases |b|
  {
    if b == [] {
      assert a + b == a;
    } else if b[|b| - 1] != c {
      assert (a + b)[..|a + b| - 1] == a + b[..|b| - 1];
      LastIndexOfAppend(a, b[..|b| - 1], c);
    }
  }

  /** `os.path.join(a, b)`: an absolute `b` wins; otherwise one `/` separates them. */
  function Join(a: string, b: string): string {
    if StartsWith(b, "/") then b
    else if a == [] || a[|a| - 1] == '/' then a + b
    else a + "/" + b
  }

  /** What `Join(d, x)` puts in front of a relative `x`. */
  function DirPrefix(d: string): (r: string)
    ensures r == [] || r[|r| - 1] == '/'
  {
    if d == [] || d[|d| - 1] == '/' then d else d + "/"
  }

  lemma JoinRelative(d: string, x: string)
    requires x == [] || x[0] != '/'
    ensures Join(d, x) == DirPrefix(d) + x
  {
  }

  /** Joining a single relative name that does not end in `/`. */
  lemma JoinName(d: string, w: string)
    requires w != [] && w[0] != '/' && w[|w| - 1] != '/'
    ensures Join(d, w) == DirPrefix(d) + w
    ensures DirPrefix(Join(d, w)) == DirPrefix(d) + w + "/"
  {
    JoinRelative(d, w);
  }

  /** Appending to a joined path appends to its last component. */
  lemma JoinAppend(d: string, x: string, s: string)
    requires x != [] && x[0] != '/'
    ensures Join(d, x) + s == Join(d, x + s)
  {
    JoinRelative(d, x);
    JoinRelative(d, x + s);
  }

  /** Like `JoinAppend`, also for an empty `x` when the appended text is relative. */
  lemma JoinThenAppend(d: string, x: string, s: string)
    requires x == [] || x[0] != '/'
    requires s != [] && s[0] != '/'
    ensures Join(d, x) + s == Join(d, x + s)
  {
    JoinRelative(d, x);
    assert (x + s)[0] != '/' by {
      if x != [] {
        assert (x + s)[0] == x[0];
      }
    }
    JoinRelative(d, x + s);
  }

  lemma JoinEndsWith(d: string, x: string)
    ensures EndsWith(Join(d, x), x)
  {
    if !StartsWith(x, "/") {
      EndsWithConcat(DirPrefix(d), x);
    } else {
      assert x[|x| - |x|..] == x;
    }
  }

  // ---- os.path.splitext ------------------------------------------------------

  predicate AllDots(s: string)
    decreases |s|
  {
    s == [] || (s[0] == '.' && AllDots(s[1..]))
  }

  /** Some character of `p[lo..hi]` is not a dot. */
  predicate HasNonDot(p: string, lo: int, hi: int)
    requires 0 <= lo <= hi <= |p|
  {
    !AllDots(p[lo..hi])
  }

  /**
   * `os.path.splitext(p)`: the extension starts at the last `.` of the last
   * path component, unless only dots precede it in that component (so
   * `.bashrc` has no extension); `root + ext == p`.
   */
  function SplitExt(p: string): (r: (string, string))
    ensures r.0 + r.1 == p
    ensures r.1 == [] || (r.1[0] == '.' && '/' !in r.1)
  {
    var sep := LastIndexOf(p, '/');
    var dot := LastIndexOf(p, '.');
    if sep < dot && HasNonDot(p, sep + 1, dot) then
      NotInSuffix(p, '/', dot);
      (p[..dot], p[dot..])
    else (p, [])
  }

  /** `splitext` only looks at the last component. */
  lemma SplitExtUnder(a: string, f: string)
    requires a == [] || a[|a| - 1] == '/'
    requires '/' !in f
    ensures SplitExt(a + f) == (a + SplitExt(f).0, SplitExt(f).1)
  {
    LastIndexOfAbsent(f, '/');
    LastIndexOfAppend(a, f, '/');
    LastIndexOfAppend(a, f, '.');
    assert LastIndexOf(a, '/') == |a| - 1;
    if LastIndexOf(f, '.') >= 0 {
      SplitExtUnderDot(a, f);
    } else {
      assert LastIndexOf(a + f, '.') <= LastIndexOf(a + f, '/');
    }
  }

  /** `SplitExtUnder` when the file name has a dot: both split at the same dot, or neither splits. */
  lemma SplitExtUnderDot(a: string, f: string)
    requires LastIndexOf(a + f, '/') == |a| - 1 && LastIndexOf(f, '/') == -1
    requires 0 <= LastIndexOf(f, '.') && LastIndexOf(a + f, '.') == |a| + LastIndexOf(f, '.')
    ensures SplitExt(a + f) == (a + SplitExt(f).0, SplitExt(f).1)
  {
    var p := a + f;
    var dotF := LastIndexOf(f, '.');
    var dotP := |a| + dotF;
    assert p[|a|..dotP] == f[0..dotF];
    assert HasNonDot(p, |a|, dotP) == HasNonDot(f, 0, dotF);
    SplitExtAt(f, -1, dotF);
    SplitExtAt(p, |a| - 1, dotP);
    if HasNonDot(f, 0, dotF) {
      SlicesUnder(a, f, dotF);
    }
  }

  /** `SplitExt` once the last `/` and the last `.` are known. */
  lemma SplitExtAt(p: string, sep: int, dot: int)
    requires sep == LastIndexOf(p, '/') && dot == LastIndexOf(p, '.')
    ensures sep < dot ==> 0 <= sep + 1 <= dot <= |p|
    ensures SplitExt(p) == if sep < dot && HasNonDot(p, sep + 1, dot) then (p[..dot], p[dot..]) else (p, [])
  {
  }

  lemma SlicesUnder(a: string, f: string, i: nat)
    requires i <= |f|
    ensures (a + f)[..|a| + i] == a + f[..i] && (a + f)[|a| + i..] == f[i..]
  {
  }

  /**
   * A name `root + e` whose extension `e` is a dot and dot-free text splits
   * into `root` and `e`, unless `root` is dots only (as in `.mp3`).
   */
  lemma SplitExtKnown(root: string, e: string)
    requires '/' !in root + e
    requires e != [] && e[0] == '.' && '.' !in e[1..]
    ensures SplitExt(root + e) == if AllDots(root) then (root + e, []) else (root, e)
  {
    var p := root + e;
    LastIndexOfAbsent(p, '/');
    LastDot(root, e);
    assert p[0..|root|] == root;
    assert p[..|root|] == root && p[|root|..] == e;
  }

  /** The last dot of `root + e` is the first character of `e` when the rest of `e` has none. */
  lemma LastDot(root: string, e: string)
    requires e != [] && e[0] == '.' && '.' !in e[1..]
    ensures LastIndexOf(root + e, '.') == |root|
  {
    LastIndexOfAbsent(e[1..], '.');
    assert e == [e[0]] + e[1..];
    LastIndexOfAppend([e[0]], e[1..], '.');
    assert LastIndexOf([e[0]], '.') == 0;
    LastIndexOfAppend(root, e, '.');
  }

  /** `os.path.splitext(p)[0]`. */
  function Stem(p: string): string {
    SplitExt(p).0
  }

  /** The root of a name without `/` has no `/` either. */
  lemma SplitExtRootRelative(f: string)
    requires '/' !in f
    ensures '/' !in SplitExt(f).0
    ensures SplitExt(f).0 == [] || SplitExt(f).0[0] != '/'
  {
    var root := SplitExt(f).0;
    assert root == f[..|root|];
    assert forall c :: c in root ==> c in f;
    assert root == [] || root[0] in root;
  }

  /** `splitext(join(d, f))` splits only the file name `f`. */
  lemma SplitExtJoin(d: string, f: string)
    requires '/' !in f
    ensures SplitExt(Join(d, f)).0 == Join(d, SplitExt(f).0)
    ensures SplitExt(Join(d, f)).1 == SplitExt(f).1
  {
    assert f == [] || f[0] in f;
    JoinRelative(d, f);
    SplitExtUnder(DirPrefix(d), f);
    var stem := SplitExt(f).0;
    assert stem == f[..|stem|];
    assert stem == [] || stem[0] in f;
    JoinRelative(d, stem);
  }

  // ---- os.path.basename / os.path.dirname ------------------------------------

  /** Where the last component starts: one past the last `/`. */
  function ComponentStart(p: string): (i: nat)
    ensures i <= |p|
    ensures i > 0 ==> p[i - 1] == '/'
    ensures '/' !in p[i..]
  {
    var k := LastIndexOf(p, '/');
    NotInSuffix(p, '/', k + 1);
    k + 1
  }

  /** `os.path.basename(p)`. */
  function BaseName(p: string): string {
    p[ComponentStart(p)..]
  }

  predicate AllSlashes(s: string) {
    forall k :: 0 <= k < |s| ==> s[k] == '/'
  }

  /** `s.rstrip("/")`: what is left of `s` and the run of slashes it drops. */
  function RStripSlashes(s: string): (r: string)
    ensures |r| <= |s| && s[..|r|] == r && AllSlashes(s[|r|..])
    ensures r == [] || r[|r| - 1] != '/'
    decreases |s|
  {
    if s != [] && s[|s| - 1] == '/' then
      var r := RStripSlashes(s[..|s| - 1]);
      assert s[|r|..] == s[..|s| - 1][|r|..] + ['/'];
      r
    else s
  }

  /**
   * `os.path.dirname(p)`: everything before the last component, with
   * trailing slashes removed unless it consists of slashes only.
   */
  function DirName(p: string): string {
    var head := p[..ComponentStart(p)];
    if head != [] && !AllSlashes(head) then RStripSlashes(head) else head
  }

  // ---- pathlib suffix / with_suffix ---------------------------------------------

  /** `PurePath(name).suffix`: from the last `.`, if it is neither first nor last. */
  function PathSuffix(name: string): (r: string)
    ensures r == [] || (EndsWith(name, r) && r[0] == '.' && |r| >= 2 && |r| < |name|)
  {
    var i := LastIndexOf(name, '.');
    if 0 < i < |name| - 1 then name[i..] else []
  }

  /** `PurePath(name).with_suffix(suffix)` on the last component `name`. */
  function WithSuffix(name: string, suffix: string): (r: string)
    ensures EndsWith(r, suffix)
  {
    var current := PathSuffix(name);
    EndsWithConcat(name[..|name| - |current|], suffix);
    EndsWithConcat(name, suffix);
    if current == [] then name + suffix else name[..|name| - |current|] + suffix
  }
}
