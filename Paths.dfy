/** Slash-separated paths as the modelled code handles them: `String.prototype.split`
    and `Array.prototype.join` on a separator, and the parts of Node's `path` module
    that it calls (`dirname`, `basename`, `extname`, `join`/`resolve`, `relative`),
    restricted to absolute paths that are already normalised. */
module Paths {

  /** Index of the first `c` in `s`, or `|s|` when there is none. */
  function IndexOf(s: string, c: char): (i: nat)
    ensures i <= |s|
    ensures i < |s| ==> s[i] == c
    ensures forall j :: 0 <= j < i ==> s[j] != c
  {
    if s == [] then 0
    else if s[0] == c then 0
    else 1 + IndexOf(s[1..], c)
  }

  /** Index of the last `c` in `s`, or -1 when there is none. */
  function LastIndexOf(s: string, c: char): (k: int)
    ensures -1 <= k < |s|
    ensures k >= 0 ==> s[k] == c
    ensures forall j :: k < j < |s| ==> s[j] != c
  {
    if s == [] then -1
    else if s[|s| - 1] == c then |s| - 1
    else LastIndexOf(s[..|s| - 1], c)
  }

  /** `s.split(sep)`: the fragments between separators, always at least one. */
  function Split(s: string, sep: char): (parts: seq<string>)
    ensures |parts| >= 1
    ensures forall i :: 0 <= i < |parts| ==> sep !in parts[i]
    decreases |s|
  {
    var i := IndexOf(s, sep);
    if i == |s| then [s]
    else
      assert forall c :: c in s[..i] ==> c != sep;
      [s[..i]] + Split(s[i + 1..], sep)
  }

  /** `parts.join(sep)`. */
  function Join(parts: seq<string>, sep: char): string
  {
    if |parts| == 0 then ""
    else if |parts| == 1 then parts[0]
    else parts[0] + [sep] + Join(parts[1..], sep)
  }

  /** Joining the fragments of a split gives back the string. */
  lemma {:induction false} JoinSplit(s: string, sep: char)
    ensures Join(Split(s, sep), sep) == s
    decreases |s|
  {
    var i := IndexOf(s, sep);
    if i < |s| {
      var rest := Split(s[i + 1..], sep);
      JoinSplit(s[i + 1..], sep);
      assert Split(s, sep) == [s[..i]] + rest;
      assert ([s[..i]] + rest)[1..] == rest;
      assert s == s[..i] + [sep] + s[i + 1..];
    }
  }

  /** Splitting a join of separator-free fragments gives back the fragments. */
  lemma {:induction false} SplitJoin(parts: seq<string>, sep: char)
    requires |parts| >= 1
    requires forall i :: 0 <= i < |parts| ==> sep !in parts[i]
    ensures Split(Join(parts, sep), sep) == parts
  {
    var s := Join(parts, sep);
    if |parts| == 1 {
      assert IndexOf(s, sep) == |s|;
    } else {
      var rest := Join(parts[1..], sep);
      assert s == parts[0] + [sep] + rest;
      assert s[|parts[0]|] == sep;
      assert IndexOf(s, sep) == |parts[0]|;
      assert s[..|parts[0]|] == parts[0];
      assert s[|parts[0]| + 1..] == rest;
      SplitJoin(parts[1..], sep);
      assert parts == [parts[0]] + parts[1..];
    }
  }

  /** Joining a concatenation puts one separator between the two joins. */
  lemma {:induction false} JoinAppend(a: seq<string>, b: seq<string>, sep: char)
    requires |a| >= 1 && |b| >= 1
    ensures Join(a + b, sep) == Join(a, sep) + [sep] + Join(b, sep)
  {
    if |a| == 1 {
      assert (a + b)[0] == a[0];
      assert (a + b)[1..] == b;
    } else {
      assert (a + b)[0] == a[0];
      assert (a + b)[1..] == a[1..] + b;
      JoinAppend(a[1..], b, sep);
    }
  }

  /** `q` names `p` or one of its ancestors: it is a leading part of `p` that ends
      where `p` does or just before one of its separators. */
  predicate IsPathPrefix(q: string, p: string)
  {
    |q| <= |p| && p[..|q|] == q && (|q| == |p| || p[|q|] == '/')
  }

  /** `a` is a strictly shorter leading part of `b`. */
  predicate IsStrictPrefix(a: string, b: string)
  {
    |a| < |b| && b[..|a|] == a
  }

  /** The first `n` fragments of `p`, joined back, name `p` itself (all of them)
      or an ancestor of `p` ending just before a separator (fewer). */
  lemma PrefixShape(p: string, n: nat)
    requires 1 <= n <= |Split(p, '/')|
    ensures IsPathPrefix(Join(Split(p, '/')[..n], '/'), p)
    ensures n < |Split(p, '/')| ==> |Join(Split(p, '/')[..n], '/')| < |p|
  {
    var parts := Split(p, '/');
    JoinSplit(p, '/');
    if n == |parts| {
      assert parts[..n] == parts;
    } else {
      assert parts == parts[..n] + parts[n..];
      JoinAppend(parts[..n], parts[n..], '/');
      var q := Join(parts[..n], '/');
      assert p == q + ['/'] + Join(parts[n..], '/');
      assert p[..|q|] == q;
    }
  }

  /** Taking more fragments gives a strictly longer prefix extending the shorter one. */
  lemma PrefixGrows(parts: seq<string>, m: nat, n: nat)
    requires 1 <= m < n <= |parts|
    ensures IsStrictPrefix(Join(parts[..m], '/'), Join(parts[..n], '/'))
  {
    assert parts[..n] == parts[..m] + parts[m..n];
    JoinAppend(parts[..m], parts[m..n], '/');
  }

  /** The segment of `p` that starts at `k` is `.` or `..`: it ends at the next
      slash or at the end of `p`. */
  predicate DotAt(p: string, k: nat)
  {
    && k < |p|
    && p[k] == '.'
    && (|| k + 1 == |p|
        || p[k + 1] == '/'
        || (p[k + 1] == '.' && (k + 2 == |p| || p[k + 2] == '/')))
  }

  /** No segment of `p` is `.` or `..`. */
  predicate NoDots(p: string)
  {
    forall i :: 0 <= i < |p| && p[i] == '/' ==> !DotAt(p, i + 1)
  }

  /** An absolute, normalised path: it starts with a slash, has no empty segment
      (no doubled slash), no `.` or `..` segment, and no trailing slash unless it
      is the root itself. */
  predicate Abs(p: string)
  {
    && |p| >= 1
    && p[0] == '/'
    && (|p| > 1 ==> p[|p| - 1] != '/')
    && (forall i :: 0 < i < |p| ==> p[i] == '/' ==> p[i - 1] != '/')
    && NoDots(p)
  }

  /** A path that goes through a `.` or `..` segment is not normalised. */
  lemma DotsAreNotAbs()
    ensures !Abs("/a/../x.ts") && !Abs("/src/./index.ts") && !Abs("/..")
    ensures !RelPath("../evil") && !RelPath("a/.")
  {
    assert ("/a/../x.ts")[2] == '/' && DotAt("/a/../x.ts", 3);
    assert ("/src/./index.ts")[4] == '/' && DotAt("/src/./index.ts", 5);
    assert ("/..")[0] == '/' && DotAt("/..", 1);
    assert ("/" + "../evil")[0] == '/' && DotAt("/" + "../evil", 1);
    assert ("/" + "a/.")[2] == '/' && DotAt("/" + "a/.", 3);
  }

  /** A segment of a path cut at its end or just before a slash is the segment of
      the whole path at the same place. */
  lemma DotAtPrefix(p: string, k: nat, j: nat)
    requires k <= |p| && (k == |p| || p[k] == '/')
    ensures DotAt(p[..k], j) ==> DotAt(p, j)
  {
    var q := p[..k];
    if j < k {
      assert p[j] == q[j];
      if j + 1 < k {
        assert p[j + 1] == q[j + 1];
        if j + 2 < k {
          assert p[j + 2] == q[j + 2];
        }
      }
    }
  }

  /** A segment of a suffix is the segment of the whole path at the shifted place. */
  lemma DotAtSuffix(p: string, k: nat, j: nat)
    requires k <= |p|
    ensures DotAt(p[k..], j) <==> DotAt(p, k + j)
  {
    var t := p[k..];
    if j < |t| {
      assert p[k + j] == t[j];
      if j + 1 < |t| {
        assert p[k + j + 1] == t[j + 1];
        if j + 2 < |t| {
          assert p[k + j + 2] == t[j + 2];
        }
      }
    }
  }

  /** A cut at the end or just before a slash keeps `NoDots`. */
  lemma NoDotsPrefix(p: string, k: nat)
    requires NoDots(p) && k <= |p| && (k == |p| || p[k] == '/')
    ensures NoDots(p[..k])
  {
    var q := p[..k];
    forall i | 0 <= i < |q| && q[i] == '/' ensures !DotAt(q, i + 1) {
      assert p[i] == q[i];
      DotAtPrefix(p, k, i + 1);
    }
  }

  /** A suffix keeps `NoDots` when it starts with a slash. */
  lemma NoDotsSuffix(p: string, k: nat)
    requires NoDots(p) && k < |p| && p[k] == '/'
    ensures NoDots(p[k..])
  {
    var t := p[k..];
    forall i | 0 <= i < |t| && t[i] == '/' ensures !DotAt(t, i + 1) {
      assert p[k + i] == t[i];
      DotAtSuffix(p, k, i + 1);
    }
  }

  /** Two paths without dot segments, the second starting with a slash, written
      one after the other have none either. */
  lemma NoDotsConcat(a: string, b: string)
    requires NoDots(a) && NoDots(b) && |b| > 0 && b[0] == '/'
    ensures NoDots(a + b)
  {
    var p := a + b;
    assert p[..|a|] == a && p[|a|..] == b;
    forall i | 0 <= i < |p| && p[i] == '/' ensures !DotAt(p, i + 1) {
      if i < |a| {
        assert a[i] == p[i];
        DotAtPrefix(p, |a|, i + 1);
        if i + 1 == |a| {
          assert p[i + 1] == b[0];
        }
      } else {
        assert b[i - |a|] == p[i];
        DotAtSuffix(p, |a|, i - |a| + 1);
      }
    }
  }

  /** A relative, normalised path: non-empty and absolute once a slash is put in front. */
  predicate RelPath(r: string)
  {
    |r| > 0 && Abs("/" + r)
  }

  /** What follows a slash inside an absolute path, slash included, is absolute. */
  lemma AbsSuffix(p: string, k: nat)
    requires Abs(p) && k < |p| && p[k] == '/'
    ensures Abs(p[k..])
  {
    var t := p[k..];
    forall i | 0 < i < |t| && t[i] == '/' ensures t[i - 1] != '/' {
      assert t[i] == p[i + k] && t[i - 1] == p[i + k - 1];
    }
    assert |t| > 1 ==> t[|t| - 1] == p[|p| - 1];
    NoDotsSuffix(p, k);
  }

  /** An absolute path cut at its end or just before a slash is absolute. */
  lemma AbsPrefix(p: string, k: nat)
    requires Abs(p)
    requires 1 <= k <= |p|
    requires k == |p| || p[k] == '/'
    ensures Abs(p[..k])
  {
    var q := p[..k];
    forall i | 0 < i < |q| && q[i] == '/' ensures q[i - 1] != '/' {
      assert p[i] == q[i] && p[i - 1] == q[i - 1];
    }
    if k < |p| && k > 1 {
      assert p[k] == '/';
      assert q[k - 1] == p[k - 1];
    }
    NoDotsPrefix(p, k);
  }

  /** Every non-empty ancestor spelled out by the fragments of an absolute path is absolute. */
  lemma AbsPathPrefix(q: string, p: string)
    requires Abs(p) && q != "" && IsPathPrefix(q, p)
    ensures Abs(q)
  {
    AbsPrefix(p, |q|);
  }

  /** `path.dirname`: everything before the last slash; `"/"` when that is the
      leading slash, `"."` when there is no slash at all. */
  function Dirname(p: string): string
  {
    var k := LastIndexOf(p, '/');
    if k < 0 then "." else if k == 0 then "/" else p[..k]
  }

  /** `path.basename`: everything after the last slash. */
  function Basename(p: string): string
  {
    p[LastIndexOf(p, '/') + 1..]
  }

  /** `path.extname`: the basename from its last dot on; empty when the basename
      has no dot, starts with its only dot, or is `..`. */
  function Extname(p: string): (ext: string)
  {
    var name := Basename(p);
    var d := LastIndexOf(name, '.');
    if d <= 0 || name == ".." then "" else name[d..]
  }

  /** `path.join(dir, name)` (equally `path.resolve(dir, name)` for an absolute
      `dir`) with a relative `name`. */
  function Combine(dir: string, name: string): string
  {
    if dir == "" || dir == "." then name
    else if dir[|dir| - 1] == '/' then dir + name
    else dir + "/" + name
  }

  /** `p` lies strictly below the directory `dir`. */
  predicate Inside(dir: string, p: string)
  {
    if dir == "/" then |p| > 1 && p[0] == '/'
    else |p| > |dir| + 1 && p[..|dir|] == dir && p[|dir|] == '/'
  }

  /** `path.relative(dir, p)` for a `p` strictly below `dir`. */
  function Relative(dir: string, p: string): string
    requires Inside(dir, p)
  {
    if dir == "/" then p[1..] else p[|dir| + 1..]
  }

  /** The directory of `a/b` is `a` (the root when `a` is empty) whenever `b` has no slash. */
  lemma DirnameOfJoin(a: string, b: string)
    requires '/' !in b
    ensures Dirname(a + "/" + b) == if a == "" then "/" else a
    ensures Basename(a + "/" + b) == b
  {
    var p := a + "/" + b;
    assert p[|a|] == '/';
    assert LastIndexOf(p, '/') == |a|;
    assert p[..|a|] == a;
    assert p[|a| + 1..] == b;
  }

  /** An absolute path other than the root lies directly inside its directory,
      which is absolute and shorter. */
  lemma DirnameInside(p: string)
    requires Abs(p) && p != "/"
    ensures Inside(Dirname(p), p)
    ensures Abs(Dirname(p))
    ensures |Dirname(p)| < |p|
  {
    var k := LastIndexOf(p, '/');
    assert k >= 0;
    if k > 0 {
      assert p[|p| - 1] != '/';
      AbsPrefix(p, k);
    }
  }

  /** The directory of an absolute path is absolute (the root is its own directory). */
  lemma DirnameAbs(p: string)
    requires Abs(p)
    ensures Abs(Dirname(p))
  {
    if p != "/" {
      DirnameInside(p);
    } else {
      assert LastIndexOf(p, '/') == 0;
    }
  }

  /** Stepping up from a path inside `dir` reaches `dir` or stays inside it. */
  lemma DirnameStaysInside(dir: string, p: string)
    requires Abs(dir) && Abs(p) && Inside(dir, p)
    ensures Dirname(p) == dir || Inside(dir, Dirname(p))
  {
    var k := LastIndexOf(p, '/');
    if dir == "/" {
      assert p[0] == '/' && p[k] == '/';
    } else {
      assert p[|dir|] == '/';
      assert k >= |dir|;
      assert p[k] == '/' && p[k - 1] != '/';
      if k > |dir| {
        var d := p[..k];
        assert Dirname(p) == d;
        assert |d| > |dir| + 1;
        assert d[..|dir|] == dir;
        assert d[|dir|] == '/';
        assert Inside(dir, d);
      }
    }
  }

  /** Putting an absolute path's basename back into its directory rebuilds the path. */
  lemma CombineDirnameBasename(p: string)
    requires Abs(p) && p != "/"
    ensures Combine(Dirname(p), Basename(p)) == p
  {
    var k := LastIndexOf(p, '/');
    if k > 0 {
      assert p[k - 1] != '/';
      assert p == p[..k] + "/" + p[k + 1..];
    } else {
      assert p == "/" + p[1..];
    }
  }

  /** Placing a slash-free name into a directory: the directory and the basename of
      the result are the two arguments again. */
  lemma CombineParts(dir: string, name: string)
    requires '/' !in name
    requires dir != ""
    requires dir == "/" || dir[|dir| - 1] != '/'
    ensures Dirname(Combine(dir, name)) == dir
    ensures Basename(Combine(dir, name)) == name
  {
    if dir == "." {
      assert LastIndexOf(name, '/') == -1;
    } else if dir == "/" {
      assert Combine(dir, name) == "" + "/" + name;
      DirnameOfJoin("", name);
    } else {
      DirnameOfJoin(dir, name);
    }
  }

  /** Two absolute paths written one after the other (neither the root) form
      an absolute path. */
  lemma AbsConcat(a: string, b: string)
    requires Abs(a) && a != "/" && Abs(b) && b != "/"
    ensures Abs(a + b)
  {
    var p := a + b;
    forall i | 0 < i < |p| && p[i] == '/' ensures p[i - 1] != '/' {
      if i < |a| {
        assert p[i] == a[i] && p[i - 1] == a[i - 1];
      } else if i > |a| {
        assert p[i] == b[i - |a|] && p[i - 1] == b[i - |a| - 1];
      } else {
        assert p[i - 1] == a[|a| - 1];
      }
    }
    assert p[|p| - 1] == b[|b| - 1];
    NoDotsConcat(a, b);
  }

  /** Resolving a relative path against an absolute directory stays absolute and
      lands strictly inside that directory; `path.relative` gives the relative path back. */
  lemma CombineRelative(dir: string, r: string)
    requires Abs(dir) && RelPath(r)
    ensures Abs(Combine(dir, r))
    ensures Inside(dir, Combine(dir, r))
    ensures Relative(dir, Combine(dir, r)) == r
  {
    if dir != "/" {
      var p := dir + ("/" + r);
      assert Combine(dir, r) == p;
      AbsConcat(dir, "/" + r);
      assert p[..|dir|] == dir;
      assert p[|dir| + 1..] == r;
    }
  }

  /** `path.relative` of a path inside an absolute directory is a relative path,
      and resolving it against the directory gives the path back. */
  lemma RelativeCombine(dir: string, p: string)
    requires Abs(dir) && Abs(p) && Inside(dir, p)
    ensures RelPath(Relative(dir, p))
    ensures Combine(dir, Relative(dir, p)) == p
  {
    var r := Relative(dir, p);
    if dir == "/" {
      assert "/" + r == p;
    } else {
      var t := p[|dir|..];
      AbsSuffix(p, |dir|);
      assert "/" + r == t;
      assert p == dir + "/" + r;
    }
  }

  /** Being inside is transitive. */
  lemma InsideTrans(a: string, b: string, c: string)
    requires Inside(a, b) && Inside(b, c)
    ensures Inside(a, c)
  {
    assert b != "/";
    assert c[..|b|] == b;
    if a != "/" {
      assert c[..|a|] == b[..|a|];
      assert c[|a|] == b[|a|];
    } else {
      assert c[0] == b[0];
    }
  }

  /** A non-empty slash-free name other than `.` and `..` with a slash in front
      is an absolute path. */
  lemma SlashName(name: string)
    requires |name| > 0 && '/' !in name && name != "." && name != ".."
    ensures Abs("/" + name)
  {
    var p := "/" + name;
    forall i | 0 < i < |p| ensures p[i] != '/' {
      assert p[i] == name[i - 1];
    }
    if |p| == 2 {
      assert name == [p[1]];
    } else if |p| == 3 {
      assert name == [p[1], p[2]];
    } else {
      assert p[2] == name[1] && p[3] == name[2];
    }
  }

  /** The basename with its extension removed (`path.basename(p, path.extname(p))`). */
  function Stem(p: string): string
  {
    ExtnameSuffix(p);
    Basename(p)[..|Basename(p)| - |Extname(p)|]
  }

  /** The extension is a suffix of the basename, shorter than it unless both are empty. */
  lemma ExtnameSuffix(p: string)
    ensures |Extname(p)| <= |Basename(p)|
    ensures Basename(p)[|Basename(p)| - |Extname(p)|..] == Extname(p)
    ensures Extname(p) != "" ==> |Extname(p)| < |Basename(p)|
  {
  }

  /** Stem and extension put back together give the basename; the basename of a
      normalised absolute path other than the root, and so its stem, is not empty. */
  lemma StemExtname(p: string)
    requires Abs(p) && p != "/"
    ensures Stem(p) + Extname(p) == Basename(p)
    ensures |Stem(p)| > 0 && '/' !in Stem(p)
  {
    ExtnameSuffix(p);
    var b := Basename(p);
    assert b == b[..|b| - |Extname(p)|] + b[|b| - |Extname(p)|..];
    assert p[|p| - 1] != '/';
    assert |b| > 0;
    assert forall c :: c in Stem(p) ==> c in b;
  }

  /** The extension of a non-empty stem followed by `.` and a dot-free suffix is
      that `.` and suffix. */
  lemma ExtnameOfName(stem: string, ext: string)
    requires |stem| > 0 && '/' !in stem
    requires |ext| >= 2 && ext[0] == '.' && '.' !in ext[1..] && '/' !in ext
    ensures Extname(stem + ext) == ext
    ensures Basename(stem + ext) == stem + ext
  {
    var name := stem + ext;
    assert '/' !in name;
    assert LastIndexOf(name, '/') == -1;
    assert name[|stem|] == '.';
    assert forall j :: |stem| < j < |name| ==> name[j] == ext[1..][j - |stem| - 1];
    assert LastIndexOf(name, '.') == |stem|;
    assert name[|stem|..] == ext;
  }

  /** The basename of a slash-free name placed in a non-empty directory is that name. */
  lemma BasenameCombine(dir: string, name: string)
    requires dir != "" && '/' !in name
    ensures Basename(Combine(dir, name)) == name
  {
    if dir == "." {
      assert LastIndexOf(name, '/') == -1;
    } else if dir[|dir| - 1] == '/' {
      var p := dir + name;
      assert p[|dir| - 1] == '/';
      assert forall j :: |dir| <= j < |p| ==> p[j] == name[j - |dir|];
      assert LastIndexOf(p, '/') == |dir| - 1;
      assert p[|dir|..] == name;
    } else {
      DirnameOfJoin(dir, name);
    }
  }
}
