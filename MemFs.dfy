/** The helpers that lay out files in a volume: `mkdirp`, `createFile`,
    `createModule`, `list` and `copy`. Each state-changing helper is a method on
    a `Volume` whose result is tied to a function on `Store` values (`AfterMkdirp`,
    `AfterCreateFile`, ...); the lemmas state what those functions guarantee. */
module MemFs {
  import opened Wrappers
  import opened Arrays
  import opened Paths
  import opened Vfs
  import Json

  /** A mock package: its name under `/node_modules` and the source of its entry file. */
  datatype ModuleDescriptor = ModuleDescriptor(name: string, content: string)

  // ----- mkdirp -----

  /** For every fragment of a split path, the fragments up to and including it
      joined back with slashes. */
  function Prefixes(fragments: seq<string>): seq<string>
  {
    seq(|fragments|, i requires 0 <= i < |fragments| => Join(fragments[..i + 1], '/'))
  }

  /** The joined prefixes of a path's fragments spell out the path's ancestors,
      each a strictly longer extension of the ones before it, the last one the
      path itself. */
  lemma PrefixesOfPath(path: string)
    ensures var ps := Prefixes(Split(path, '/'));
      && |ps| >= 1 && ps[|ps| - 1] == path
      && (forall q :: q in ps ==> IsPathPrefix(q, path))
      && (forall i, j :: 0 <= i < j < |ps| ==> IsStrictPrefix(ps[i], ps[j]))
  {
    PrefixesEndAtPath(path);
    PrefixesInsidePath(path);
    PrefixesGrow(path);
  }

  lemma PrefixesEndAtPath(path: string)
    ensures var ps := Prefixes(Split(path, '/'));
      |ps| >= 1 && ps[|ps| - 1] == path
  {
    var parts := Split(path, '/');
    JoinSplit(path, '/');
    assert parts[..|parts|] == parts;
  }

  lemma PrefixesInsidePath(path: string)
    ensures forall q :: q in Prefixes(Split(path, '/')) ==> IsPathPrefix(q, path)
  {
    var ps := Prefixes(Split(path, '/'));
    forall q | q in ps ensures IsPathPrefix(q, path) {
      var i :| 0 <= i < |ps| && ps[i] == q;
      PrefixShape(path, i + 1);
    }
  }

  lemma PrefixesGrow(path: string)
    ensures var ps := Prefixes(Split(path, '/'));
      forall i, j :: 0 <= i < j < |ps| ==> IsStrictPrefix(ps[i], ps[j])
  {
    var parts := Split(path, '/');
    var ps := Prefixes(parts);
    forall i, j | 0 <= i < j < |ps| ensures IsStrictPrefix(ps[i], ps[j]) {
      PrefixGrows(parts, i + 1, j + 1);
    }
  }

  /** `filter(Boolean)` on path strings: the empty string is dropped. */
  predicate Named(p: string)
  {
    p != ""
  }

  /** `p => !fs.existsSync(p)` on a volume holding `s`. */
  function Absent(s: Store): string -> bool
  {
    (p: string) => p !in s.entries
  }

  /** The directories `mkdirp(path)` creates, in the order it creates them: the
      non-empty prefixes of the path that are missing from the volume before the
      first one is made. */
  function MkdirpTargets(s: Store, path: string): (targets: seq<string>)
    requires Abs(path)
    ensures forall q :: q in targets <==> q in Prefixes(Split(path, '/')) && q != "" && q !in s.entries
    ensures forall t :: t in targets ==> Abs(t) && IsPathPrefix(t, path)
    ensures forall i, j :: 0 <= i < j < |targets| ==> IsStrictPrefix(targets[i], targets[j])
  {
    var prefixes := Prefixes(Split(path, '/'));
    var named := Filter(prefixes, Named);
    var missing := Filter(named, Absent(s));
    PrefixesOfPath(path);
    FilterKeepsOrder(prefixes, Named, (a, b) => IsStrictPrefix(a, b));
    FilterKeepsOrder(named, Absent(s), (a, b) => IsStrictPrefix(a, b));
    assert forall t :: t in missing ==> Abs(t) by {
      forall t | t in missing ensures Abs(t) {
        AbsPathPrefix(t, path);
      }
    }
    missing
  }

  /** `mkdirSync` on each path in turn, stopping at the first failure. */
  function MkdirAll(s: Store, paths: seq<string>): (e: Effect)
    requires forall p :: p in paths ==> Abs(p)
    decreases |paths|
  {
    if paths == [] then Effect(s, None)
    else
      var first := Mkdir(s, paths[0]);
      if first.error.Some? then first else MkdirAll(first.store, paths[1..])
  }

  /** What `mkdirp(path)` leaves behind. */
  function AfterMkdirp(s: Store, path: string): Effect
    requires Abs(path)
  {
    MkdirAll(s, MkdirpTargets(s, path))
  }

  /** Making directories one by one keeps the volume well formed, keeps every
      existing entry, adds only directories from the list, and on success adds
      all of them. */
  lemma {:induction false} MkdirAllEffect(s: Store, paths: seq<string>)
    requires WellFormed(s)
    requires forall p :: p in paths ==> Abs(p)
    ensures WellFormed(MkdirAll(s, paths).store)
    ensures Extends(s, MkdirAll(s, paths).store)
    ensures forall k :: k in MkdirAll(s, paths).store.entries && k !in s.entries ==>
      k in paths && MkdirAll(s, paths).store.entries[k] == Dir
    ensures MkdirAll(s, paths).error == None ==>
      forall p :: p in paths ==> p in MkdirAll(s, paths).store.entries
    decreases |paths|
  {
    if paths != [] {
      var first := Mkdir(s, paths[0]);
      MkdirPreserves(s, paths[0]);
      if first.error == None {
        MkdirAllEffect(first.store, paths[1..]);
        forall p | p in paths ensures p == paths[0] || p in paths[1..] {
        }
      }
    }
  }

  /** After `mkdirp(path)` the volume is still well formed, every entry it had is
      untouched (existence was decided before the first directory was made), and
      everything new is a directory on the way to `path`. */
  lemma MkdirpKeepsExisting(s: Store, path: string)
    requires WellFormed(s) && Abs(path)
    ensures WellFormed(AfterMkdirp(s, path).store)
    ensures Extends(s, AfterMkdirp(s, path).store)
    ensures forall k :: k in AfterMkdirp(s, path).store.entries && k !in s.entries ==>
      k in MkdirpTargets(s, path) && AfterMkdirp(s, path).store.entries[k] == Dir
  {
    MkdirAllEffect(s, MkdirpTargets(s, path));
  }

  /** After a successful `mkdirp(path)`, every non-empty prefix of the path exists. */
  lemma MkdirpCreatesAncestors(s: Store, path: string)
    requires WellFormed(s) && Abs(path)
    requires AfterMkdirp(s, path).error == None
    ensures forall q :: q in Prefixes(Split(path, '/')) && q != "" ==> q in AfterMkdirp(s, path).store.entries
    ensures path in AfterMkdirp(s, path).store.entries
  {
    var ps := Prefixes(Split(path, '/'));
    var targets := MkdirpTargets(s, path);
    var after := AfterMkdirp(s, path).store;
    MkdirAllEffect(s, targets);
    forall q | q in ps && q != "" ensures q in after.entries {
      if q !in s.entries {
        assert q in targets;
      }
    }
    PrefixesEndAtPath(path);
    assert path in ps;
  }

  /** `mkdirp` is idempotent: once it has succeeded, a second call with the same
      path has nothing left to create and leaves the volume as it is. */
  lemma MkdirpIdempotent(s: Store, path: string)
    requires WellFormed(s) && Abs(path)
    requires AfterMkdirp(s, path).error == None
    ensures MkdirpTargets(AfterMkdirp(s, path).store, path) == []
    ensures AfterMkdirp(AfterMkdirp(s, path).store, path) == Effect(AfterMkdirp(s, path).store, None)
  {
    var t := AfterMkdirp(s, path).store;
    MkdirpCreatesAncestors(s, path);
    var again := MkdirpTargets(t, path);
    NoMemberEmpty(again);
  }

  lemma NoMemberEmpty<T>(xs: seq<T>)
    ensures (forall x :: x !in xs) ==> xs == []
  {
    if xs != [] {
      assert xs[0] in xs;
    }
  }

  /** No prefix of `path` short of `path` itself is a file. */
  ghost predicate ClearWay(s: Store, path: string)
  {
    forall q :: q in Prefixes(Split(path, '/')) && q != path && q in s.entries ==> s.entries[q] == Dir
  }

  /** Whether the directory of one prefix is the previous prefix or the root. */
  lemma PrefixDirname(path: string, i: nat)
    requires Abs(path)
    requires 1 <= i < |Split(path, '/')|
    ensures var ps := Prefixes(Split(path, '/'));
      Dirname(ps[i]) == if ps[i - 1] == "" then Root else ps[i - 1]
  {
    var parts := Split(path, '/');
    assert parts[..i + 1] == parts[..i] + [parts[i]];
    JoinAppend(parts[..i], [parts[i]], '/');
    assert Join([parts[i]], '/') == parts[i];
    DirnameOfJoin(Join(parts[..i], '/'), parts[i]);
  }

  /** `mkdirSync` on each path in turn succeeds when every path is missing, the
      list is ordered shortest first, and each path's directory either is already
      a directory or comes earlier in the list. */
  lemma {:induction false} MkdirAllSucceeds(s: Store, paths: seq<string>)
    requires WellFormed(s)
    requires forall p :: p in paths ==> Abs(p) && p !in s.entries
    requires forall i, j :: 0 <= i < j < |paths| ==> IsStrictPrefix(paths[i], paths[j])
    requires forall i :: 0 <= i < |paths| ==>
      (Dirname(paths[i]) in s.entries && s.entries[Dirname(paths[i])] == Dir) || Dirname(paths[i]) in paths[..i]
    ensures MkdirAll(s, paths).error == None
    decreases |paths|
  {
    if paths != [] {
      var first := Mkdir(s, paths[0]);
      MkdirPreserves(s, paths[0]);
      assert Dirname(paths[0]) in s.entries && s.entries[Dirname(paths[0])] == Dir by {
        assert paths[..0] == [];
      }
      var t := first.store;
      assert t.entries == s.entries[paths[0] := Dir];
      var rest := paths[1..];
      forall p | p in rest ensures Abs(p) && p !in t.entries {
        var j :| 0 <= j < |rest| && rest[j] == p;
        assert IsStrictPrefix(paths[0], paths[j + 1]);
      }
      forall i, j | 0 <= i < j < |rest| ensures IsStrictPrefix(rest[i], rest[j]) {
        assert rest[i] == paths[i + 1] && rest[j] == paths[j + 1];
      }
      forall i | 0 <= i < |rest| ensures
        (Dirname(rest[i]) in t.entries && t.entries[Dirname(rest[i])] == Dir) || Dirname(rest[i]) in rest[..i]
      {
        var d := Dirname(paths[i + 1]);
        if d in paths[..i + 1] && d != paths[0] {
          var j :| 0 <= j < i + 1 && paths[j] == d;
          assert rest[..i][j - 1] == d;
        }
      }
      MkdirAllSucceeds(t, rest);
    }
  }

  /** `mkdirSync` on each path in turn fails when one of the paths sits in a file. */
  lemma {:induction false} MkdirAllFails(s: Store, paths: seq<string>, i: nat)
    requires forall p :: p in paths ==> Abs(p)
    requires i < |paths|
    requires Dirname(paths[i]) in s.entries && s.entries[Dirname(paths[i])].File?
    ensures MkdirAll(s, paths).error.Some?
    decreases |paths|
  {
    var first := Mkdir(s, paths[0]);
    if first.error == None && i > 0 {
      assert first.store.entries == s.entries[paths[0] := Dir];
      assert paths[1..][i - 1] == paths[i];
      MkdirAllFails(first.store, paths[1..], i - 1);
    }
  }

  /** The first fragment of an absolute path is empty, so its first prefix is too. */
  lemma FirstPrefixEmpty(path: string)
    requires Abs(path)
    ensures Prefixes(Split(path, '/'))[0] == ""
  {
    assert IndexOf(path, '/') == 0;
  }

  /** In a list ordered by strict prefix, a path that is a strict prefix of the
      `i`-th one comes before it. */
  lemma EarlierTarget(targets: seq<string>, i: nat, q: string)
    requires i < |targets| && q in targets && IsStrictPrefix(q, targets[i])
    requires forall a, b :: 0 <= a < b < |targets| ==> IsStrictPrefix(targets[a], targets[b])
    ensures q in targets[..i]
  {
    var j :| 0 <= j < |targets| && targets[j] == q;
    assert forall b :: i < b < |targets| ==> |targets[i]| < |targets[b]|;
    assert targets[..i][j] == q;
  }

  /** A non-empty prefix of a path has its directory among the earlier prefixes
      (the empty one standing for the root). */
  lemma PrevPrefix(path: string, t: string) returns (q: string)
    requires Abs(path)
    requires t in Prefixes(Split(path, '/')) && t != ""
    ensures q in Prefixes(Split(path, '/')) && q != path
    ensures IsStrictPrefix(q, t)
    ensures Dirname(t) == if q == "" then Root else q
  {
    var ps := Prefixes(Split(path, '/'));
    PrefixesEndAtPath(path);
    PrefixesGrow(path);
    FirstPrefixEmpty(path);
    var m :| 0 <= m < |ps| && ps[m] == t;
    assert m >= 1;
    PrefixDirname(path, m);
    q := ps[m - 1];
    assert IsStrictPrefix(q, ps[|ps| - 1]);
  }

  /** On a clear way, the directory of each directory `mkdirp` makes is already
      a directory or is made before it. */
  lemma TargetParentReady(s: Store, path: string, i: nat)
    requires WellFormed(s) && Abs(path) && ClearWay(s, path)
    requires i < |MkdirpTargets(s, path)|
    ensures var targets := MkdirpTargets(s, path);
      (Dirname(targets[i]) in s.entries && s.entries[Dirname(targets[i])] == Dir) || Dirname(targets[i]) in targets[..i]
  {
    var targets := MkdirpTargets(s, path);
    var t := targets[i];
    assert t in targets;
    var q := PrevPrefix(path, t);
    if q != "" && q !in s.entries {
      assert q in targets;
      EarlierTarget(targets, i, q);
    }
  }

  /** `mkdirp(path)` succeeds when no proper prefix of the path is a file. */
  lemma MkdirpSucceeds(s: Store, path: string)
    requires WellFormed(s) && Abs(path) && ClearWay(s, path)
    ensures AfterMkdirp(s, path).error == None
  {
    var targets := MkdirpTargets(s, path);
    forall i | 0 <= i < |targets| ensures
      (Dirname(targets[i]) in s.entries && s.entries[Dirname(targets[i])] == Dir) || Dirname(targets[i]) in targets[..i]
    {
      TargetParentReady(s, path, i);
    }
    MkdirAllSucceeds(s, targets);
  }

  /** Nothing exists below a file. */
  lemma UnderFile(s: Store, k: string)
    requires WellFormed(s)
    requires Dirname(k) in s.entries && s.entries[Dirname(k)] != Dir
    ensures k != "" && k != Root && k !in s.entries
  {
    assert Dirname(Root) == Root;
  }

  /** A proper prefix of a path is followed, among the prefixes, by one whose
      directory it is. */
  lemma NextPrefix(path: string, q: string) returns (next: string)
    requires Abs(path)
    requires q in Prefixes(Split(path, '/')) && q != path
    ensures next in Prefixes(Split(path, '/'))
    ensures Dirname(next) == if q == "" then Root else q
  {
    var ps := Prefixes(Split(path, '/'));
    PrefixesEndAtPath(path);
    var m :| 0 <= m < |ps| && ps[m] == q;
    assert m != |ps| - 1;
    PrefixDirname(path, m + 1);
    next := ps[m + 1];
  }

  /** `mkdirp(path)` fails when a proper prefix of the path is a file. */
  lemma MkdirpFails(s: Store, path: string)
    requires WellFormed(s) && Abs(path) && !ClearWay(s, path)
    ensures AfterMkdirp(s, path).error.Some?
  {
    var q :| q in Prefixes(Split(path, '/')) && q != path && q in s.entries && s.entries[q] != Dir;
    var next := NextPrefix(path, q);
    assert q != "" by {
      assert Root in s.entries;
    }
    UnderFile(s, next);
    var targets := MkdirpTargets(s, path);
    assert next in targets;
    var i :| 0 <= i < |targets| && targets[i] == next;
    MkdirAllFails(s, targets, i);
  }

  /** `mkdirp(path)` succeeds exactly when no proper prefix of the path is a file. */
  lemma MkdirpSucceedsIff(s: Store, path: string)
    requires WellFormed(s) && Abs(path)
    ensures AfterMkdirp(s, path).error == None <==> ClearWay(s, path)
  {
    if ClearWay(s, path) {
      MkdirpSucceeds(s, path);
    } else {
      MkdirpFails(s, path);
    }
  }

  /** The first half of `mkdirp`: the non-empty prefixes of `path`, kept when
      `existsSync` says they are missing. */
  method MissingPrefixes(fs: Volume, path: string) returns (targets: seq<string>)
    requires fs.Valid() && Abs(path)
    ensures targets == MkdirpTargets(fs.State(), path)
  {
    ghost var absent := Absent(fs.State());
    var named := Filter(Prefixes(Split(path, '/')), Named);
    ghost var goal := Filter(named, absent);
    assert goal == MkdirpTargets(fs.State(), path);
    targets := [];
    var k := 0;
    while k < |named|
      invariant 0 <= k <= |named|
      invariant targets + Filter(named[k..], absent) == goal
    {
      FilterStep(targets, named, k, absent);
      var present := fs.ExistsSync(named[k]);
      assert absent(named[k]) == !present;
      if !present {
        targets := targets + [named[k]];
      }
      k := k + 1;
    }
  }

  /** `mkdirp(path)` on a volume: makes, root to leaf, each directory on the way
      to `path` that was missing when it started; the first failing `mkdirSync`
      stops it. */
  method Mkdirp(fs: Volume, path: string) returns (err: Option<FsError>)
    requires fs.Valid() && Abs(path)
    modifies fs
    ensures fs.Valid()
    ensures Effect(fs.State(), err) == AfterMkdirp(old(fs.State()), path)
  {
    var targets := MissingPrefixes(fs, path);
    ghost var start := fs.State();
    var i := 0;
    while i < |targets|
      invariant 0 <= i <= |targets|
      invariant fs.Valid()
      invariant MkdirAll(fs.State(), targets[i..]) == MkdirAll(start, targets)
    {
      assert targets[i..][1..] == targets[i + 1..];
      err := fs.MkdirSync(targets[i]);
      if err.Some? {
        return;
      }
      i := i + 1;
    }
    err := None;
  }

  // ----- list -----

  /** The length of the longest path in `xs`. */
  function MaxLen(xs: seq<string>): (n: nat)
    ensures forall x :: x in xs ==> |x| <= n
  {
    if xs == [] then 0
    else
      var m := MaxLen(xs[1..]);
      if |xs[0]| > m then |xs[0]| else m
  }

  /** A path inside `dir`, which is `base` or inside it, is inside `base`. */
  lemma BelowBase(base: string, dir: string, p: string)
    requires dir == base || Inside(base, dir)
    requires Inside(dir, p)
    ensures Inside(base, p)
  {
    if dir != base {
      InsideTrans(base, dir, p);
    }
  }

  /** `list(dir, fs, base)` for a directory `dir` that exists: its children in
      listing order, each directory replaced by its own listing and each file by
      its path relative to `base`. */
  function ListTree(s: Store, dir: string, base: string): seq<string>
    requires WellFormed(s)
    requires dir == Root || dir in s.order
    requires dir == base || Inside(base, dir)
    decreases MaxLen(s.order) - |dir|, 1, 0
  {
    ListEntries(s, dir, Children(s, dir), base)
  }

  /** The `map` and `reduce` of `list` over the children `cs` of `dir` still to visit. */
  function ListEntries(s: Store, dir: string, cs: seq<string>, base: string): seq<string>
    requires WellFormed(s)
    requires forall c :: c in cs ==> c in s.order && Dirname(c) == dir
    requires dir == base || Inside(base, dir)
    decreases MaxLen(s.order) - |dir|, 0, |cs|
  {
    if cs == [] then []
    else
      var c := cs[0];
      DirnameInside(c);
      BelowBase(base, dir, c);
      var here := if s.entries[c] == Dir then ListTree(s, c, base) else [Relative(base, c)];
      here + ListEntries(s, dir, cs[1..], base)
  }

  /** `list(dir, fs)`: fails as `readdirSync` does when `dir` is missing or a
      file; otherwise lists the files under `dir` relative to `dir` itself. */
  function List(s: Store, dir: string): (r: Result<seq<string>, FsError>)
    requires WellFormed(s) && Abs(dir)
    ensures r.Err? <==> dir !in s.entries || s.entries[dir].File?
  {
    match Readdir(s, dir)
    case Err(e) => Err(e)
    case Ok(_) => Ok(ListTree(s, dir, dir))
  }

  /** Every path `list` returns, resolved against `base`, is a file (never a
      directory) at some depth below `dir`, and it is written relative to `base`. */
  lemma {:induction false} ListTreeSound(s: Store, dir: string, base: string)
    requires WellFormed(s) && Abs(base)
    requires dir == Root || dir in s.order
    requires dir == base || Inside(base, dir)
    ensures forall x :: x in ListTree(s, dir, base) ==>
      && RelPath(x) && Inside(dir, Combine(base, x))
      && Combine(base, x) in s.entries && s.entries[Combine(base, x)].File?
    decreases MaxLen(s.order) - |dir|, 1, 0
  {
    ListEntriesSound(s, dir, Children(s, dir), base);
  }

  lemma {:induction false} ListEntriesSound(s: Store, dir: string, cs: seq<string>, base: string)
    requires WellFormed(s) && Abs(base)
    requires forall c :: c in cs ==> c in s.order && Dirname(c) == dir
    requires dir == base || Inside(base, dir)
    ensures forall x :: x in ListEntries(s, dir, cs, base) ==>
      && RelPath(x) && Inside(dir, Combine(base, x))
      && Combine(base, x) in s.entries && s.entries[Combine(base, x)].File?
    decreases MaxLen(s.order) - |dir|, 0, |cs|
  {
    if cs != [] {
      var c := cs[0];
      DirnameInside(c);
      BelowBase(base, dir, c);
      ListEntriesSound(s, dir, cs[1..], base);
      var here := if s.entries[c] == Dir then ListTree(s, c, base) else [Relative(base, c)];
      assert ListEntries(s, dir, cs, base) == here + ListEntries(s, dir, cs[1..], base);
      if s.entries[c] == Dir {
        ListTreeSound(s, c, base);
        forall x | x in here ensures Inside(dir, Combine(base, x)) {
          InsideTrans(dir, c, Combine(base, x));
        }
      } else {
        RelativeCombine(base, c);
      }
    }
  }

  /** Every file at any depth below `dir` appears in `list`, relative to `base`. */
  lemma {:induction false} ListTreeComplete(s: Store, dir: string, base: string, f: string)
    requires WellFormed(s)
    requires dir == Root || dir in s.order
    requires dir == base || Inside(base, dir)
    requires f in s.entries && s.entries[f].File? && Inside(dir, f) && Inside(base, f)
    ensures Relative(base, f) in ListTree(s, dir, base)
    decreases MaxLen(s.order) - |dir|, 1, 0
  {
    var c := ChildOnTheWay(s, dir, f);
    ListEntriesComplete(s, dir, Children(s, dir), base, c, f);
  }

  lemma {:induction false} ListEntriesComplete(s: Store, dir: string, cs: seq<string>, base: string, c: string, f: string)
    requires WellFormed(s)
    requires forall c :: c in cs ==> c in s.order && Dirname(c) == dir
    requires dir == base || Inside(base, dir)
    requires c in cs
    requires f in s.entries && s.entries[f].File? && Inside(base, f)
    requires c == f || (Inside(c, f) && s.entries[c] == Dir)
    ensures Relative(base, f) in ListEntries(s, dir, cs, base)
    decreases MaxLen(s.order) - |dir|, 0, |cs|
  {
    var c0 := cs[0];
    DirnameInside(c0);
    BelowBase(base, dir, c0);
    if c0 == c {
      if c != f {
        ListTreeComplete(s, c, base, f);
      }
    } else {
      ListEntriesComplete(s, dir, cs[1..], base, c, f);
    }
  }

  /** The child of `dir` through which a path below `dir` is reached: the path
      itself, or a directory it lies inside. */
  lemma {:induction false} ChildOnTheWay(s: Store, dir: string, f: string) returns (c: string)
    requires WellFormed(s) && (dir == Root || dir in s.order)
    requires f in s.entries && Inside(dir, f)
    ensures c in Children(s, dir)
    ensures c == f || (Inside(c, f) && s.entries[c] == Dir)
    decreases |f|
  {
    assert f != Root;
    assert f in s.order;
    DirnameInside(f);
    var d := Dirname(f);
    if d == dir {
      c := f;
    } else {
      assert Abs(dir);
      DirnameStaysInside(dir, f);
      c := ChildOnTheWay(s, dir, d);
      if c != d {
        InsideTrans(c, d, f);
      }
    }
  }

  /** What `list` promises: it fails exactly when `readdirSync` does; on success it
      returns, relative to `dir`, every file at any depth below `dir` and nothing else. */
  lemma ListFilesBelow(s: Store, dir: string)
    requires WellFormed(s) && Abs(dir)
    requires List(s, dir).Ok?
    ensures forall x :: x in List(s, dir).value ==>
      && RelPath(x) && Inside(dir, Combine(dir, x))
      && Combine(dir, x) in s.entries && s.entries[Combine(dir, x)].File?
    ensures forall f :: f in s.entries && s.entries[f].File? && Inside(dir, f) ==>
      Relative(dir, f) in List(s, dir).value
  {
    assert dir == Root || dir in s.order;
    ListTreeSound(s, dir, dir);
    forall f | f in s.entries && s.entries[f].File? && Inside(dir, f)
      ensures Relative(dir, f) in List(s, dir).value
    {
      ListTreeComplete(s, dir, dir, f);
    }
  }

  /** A directory with no file anywhere below it lists as empty. */
  lemma ListEmpty(s: Store, dir: string)
    requires WellFormed(s) && Abs(dir)
    requires dir in s.entries && s.entries[dir] == Dir
    requires forall f :: f in s.entries && Inside(dir, f) ==> s.entries[f] == Dir
    ensures List(s, dir) == Ok([])
  {
    ListFilesBelow(s, dir);
    NoMemberEmpty(List(s, dir).value);
  }

  // ----- createFile -----

  /** What `createFile(p, data)` leaves behind: `mkdirp` of the file's directory,
      then `writeFileSync`. */
  function AfterCreateFile(s: Store, p: string, data: string): Effect
    requires Abs(p)
  {
    DirnameAbs(p);
    var m := AfterMkdirp(s, Dirname(p));
    if m.error.Some? then m else WriteFile(m.store, p, data)
  }

  /** After `createFile(p, data)` the volume is still well formed; every entry other
      than `p` is kept; everything new besides `p` is a directory on the way to
      it; and on success `p` holds exactly `data`, replacing what it held, with
      every ancestor of `p` an existing directory. */
  lemma CreateFileEffect(s: Store, p: string, data: string)
    requires WellFormed(s) && Abs(p)
    ensures WellFormed(AfterCreateFile(s, p, data).store)
    ensures forall k :: k in s.entries && k != p ==>
      k in AfterCreateFile(s, p, data).store.entries && AfterCreateFile(s, p, data).store.entries[k] == s.entries[k]
    ensures forall k :: k in AfterCreateFile(s, p, data).store.entries && k !in s.entries && k != p ==>
      AfterCreateFile(s, p, data).store.entries[k] == Dir && IsPathPrefix(k, Dirname(p))
    ensures AfterCreateFile(s, p, data).error == None ==>
      && ReadFile(AfterCreateFile(s, p, data).store, p) == Ok(data)
      && forall q :: q in Prefixes(Split(Dirname(p), '/')) && q != "" ==>
           q in AfterCreateFile(s, p, data).store.entries && AfterCreateFile(s, p, data).store.entries[q] == Dir
  {
    CreateFileFrame(s, p, data);
    CreateFileWrites(s, p, data);
  }

  lemma CreateFileFrame(s: Store, p: string, data: string)
    requires WellFormed(s) && Abs(p)
    ensures WellFormed(AfterCreateFile(s, p, data).store)
    ensures forall k :: k in s.entries && k != p ==>
      k in AfterCreateFile(s, p, data).store.entries && AfterCreateFile(s, p, data).store.entries[k] == s.entries[k]
    ensures forall k :: k in AfterCreateFile(s, p, data).store.entries && k !in s.entries && k != p ==>
      AfterCreateFile(s, p, data).store.entries[k] == Dir && IsPathPrefix(k, Dirname(p))
  {
    var d := Dirname(p);
    DirnameAbs(p);
    var m := AfterMkdirp(s, d);
    var e := AfterCreateFile(s, p, data);
    MkdirpKeepsExisting(s, d);
    if m.error == None {
      WriteFilePreserves(m.store, p, data);
      assert e == WriteFile(m.store, p, data);
    } else {
      assert e == m;
    }
    forall k | k in e.store.entries && k !in s.entries && k != p
      ensures e.store.entries[k] == Dir && IsPathPrefix(k, d)
    {
      assert k in m.store.entries;
      assert k in MkdirpTargets(s, d);
    }
  }

  lemma CreateFileWrites(s: Store, p: string, data: string)
    requires WellFormed(s) && Abs(p)
    ensures AfterCreateFile(s, p, data).error == None ==>
      && ReadFile(AfterCreateFile(s, p, data).store, p) == Ok(data)
      && forall q :: q in Prefixes(Split(Dirname(p), '/')) && q != "" ==>
           q in AfterCreateFile(s, p, data).store.entries && AfterCreateFile(s, p, data).store.entries[q] == Dir
  {
    var d := Dirname(p);
    DirnameAbs(p);
    var m := AfterMkdirp(s, d);
    if m.error == None {
      MkdirpKeepsExisting(s, d);
      WriteFilePreserves(m.store, p, data);
      var t := WriteFile(m.store, p, data);
      if t.error == None {
        MkdirpMakesDirs(s, d);
        PrefixesInsidePath(d);
        assert p != Root;
        DirnameInside(p);
        forall q | q in Prefixes(Split(d, '/')) && q != "" ensures q in t.store.entries && t.store.entries[q] == Dir {
          assert IsPathPrefix(q, d);
        }
      }
    }
  }

  /** After a successful `mkdirp(path)` every non-empty proper prefix of the path
      is a directory, and the path itself exists. */
  lemma MkdirpMakesDirs(s: Store, path: string)
    requires WellFormed(s) && Abs(path)
    requires AfterMkdirp(s, path).error == None
    ensures path in AfterMkdirp(s, path).store.entries
    ensures forall q :: q in Prefixes(Split(path, '/')) && q != "" && q != path ==>
      q in AfterMkdirp(s, path).store.entries && AfterMkdirp(s, path).store.entries[q] == Dir
  {
    MkdirpCreatesAncestors(s, path);
    MkdirpSucceedsIff(s, path);
    MkdirpKeepsExisting(s, path);
  }

  /** `createFile(p, data)` succeeds exactly when no ancestor of `p` is a file and
      `p` is not a directory. */
  lemma CreateFileSucceedsIff(s: Store, p: string, data: string)
    requires WellFormed(s) && Abs(p)
    ensures AfterCreateFile(s, p, data).error == None <==>
      && ClearWay(s, Dirname(p))
      && (Dirname(p) in s.entries ==> s.entries[Dirname(p)] == Dir)
      && (p in s.entries ==> s.entries[p].File?)
  {
    var d := Dirname(p);
    DirnameAbs(p);
    var m := AfterMkdirp(s, d);
    MkdirpSucceedsIff(s, d);
    MkdirpKeepsExisting(s, d);
    if m.error == None {
      MkdirpCreatesAncestors(s, d);
      WriteFilePreserves(m.store, p, data);
      if p != Root {
        DirnameInside(p);
        assert p !in MkdirpTargets(s, d);
      }
    }
  }

  /** `createFile(p, data)` on a volume. */
  method CreateFile(fs: Volume, p: string, data: string) returns (err: Option<FsError>)
    requires fs.Valid() && Abs(p)
    modifies fs
    ensures fs.Valid()
    ensures Effect(fs.State(), err) == AfterCreateFile(old(fs.State()), p, data)
  {
    DirnameAbs(p);
    err := Mkdirp(fs, Dirname(p));
    if err.Some? {
      return;
    }
    err := fs.WriteFileSync(p, data);
  }

  // ----- createModule -----

  /** The directory of a mock package. */
  function ModuleDir(name: string): string
  {
    "/node_modules/" + name
  }

  /** A file directly in a mock package's directory. */
  function PackageFile(name: string, file: string): string
  {
    ModuleDir(name) + "/" + file
  }

  function IndexFile(name: string): string
  {
    PackageFile(name, "index.ts")
  }

  function ManifestFile(name: string): string
  {
    PackageFile(name, "package.json")
  }

  /** The package's `index.ts` and `package.json` are different paths. */
  lemma ModuleFilesDiffer(name: string)
    ensures IndexFile(name) != ManifestFile(name)
  {
    assert |IndexFile(name)| != |ManifestFile(name)|;
  }

  /** For a normalised package name the package directory is absolute. */
  lemma ModuleDirAbs(name: string)
    requires RelPath(name)
    ensures Abs(ModuleDir(name))
  {
    SlashName("node_modules");
    assert ModuleDir(name) == "/node_modules" + ("/" + name);
    AbsConcat("/node_modules", "/" + name);
  }

  /** A slash-free file name put in the package directory gives an absolute path
      whose directory is the package directory. */
  lemma PackageFileAbs(name: string, file: string)
    requires RelPath(name) && |file| > 0 && '/' !in file && file != "." && file != ".."
    ensures Abs(PackageFile(name, file))
    ensures Dirname(PackageFile(name, file)) == ModuleDir(name)
  {
    ModuleDirAbs(name);
    SlashName(file);
    assert PackageFile(name, file) == ModuleDir(name) + ("/" + file);
    AbsConcat(ModuleDir(name), "/" + file);
    DirnameOfJoin(ModuleDir(name), file);
  }

  /** The paths `createModule` uses are absolute, both files sit directly in the
      package directory, and they are different files. */
  lemma ModulePaths(name: string)
    requires RelPath(name)
    ensures Abs(ModuleDir(name)) && Abs(IndexFile(name)) && Abs(ManifestFile(name))
    ensures Dirname(IndexFile(name)) == ModuleDir(name) && Dirname(ManifestFile(name)) == ModuleDir(name)
    ensures IndexFile(name) != ManifestFile(name)
  {
    ModuleDirAbs(name);
    PackageFileAbs(name, "index.ts");
    PackageFileAbs(name, "package.json");
    ModuleFilesDiffer(name);
  }

  /** Every file of `b` that is new or different from `a` is one of `files`. */
  ghost predicate WroteOnly(a: Store, b: Store, files: set<string>)
  {
    forall k :: k in b.entries && b.entries[k].File? && (k !in a.entries || a.entries[k] != b.entries[k]) ==> k in files
  }

  /** Every entry of `a` outside `files` is in `b` as it was. */
  ghost predicate KeptExcept(a: Store, b: Store, files: set<string>)
  {
    forall k :: k in a.entries && k !in files ==> k in b.entries && b.entries[k] == a.entries[k]
  }

  /** Two steps that each write only some files write only their union. */
  lemma WroteOnlyTrans(a: Store, b: Store, c: Store, f: set<string>, g: set<string>)
    requires WroteOnly(a, b, f) && KeptExcept(a, b, f)
    requires WroteOnly(b, c, g) && KeptExcept(b, c, g)
    ensures WroteOnly(a, c, f + g) && KeptExcept(a, c, f + g)
  {
  }

  /** What `createModule(mod)` leaves behind: `mkdirp` of the package directory,
      then the package's two files. */
  function AfterCreateModule(s: Store, mod: ModuleDescriptor): Effect
    requires RelPath(mod.name)
  {
    ModulePaths(mod.name);
    var m := AfterMkdirp(s, ModuleDir(mod.name));
    if m.error.Some? then m else AfterPackageFiles(m.store, mod)
  }

  /** `createFile` of the package's `index.ts`, then of its `package.json`. */
  function AfterPackageFiles(s: Store, mod: ModuleDescriptor): Effect
    requires RelPath(mod.name)
  {
    ModulePaths(mod.name);
    var m := AfterCreateFile(s, IndexFile(mod.name), mod.content);
    if m.error.Some? then m
    else AfterCreateFile(m.store, ManifestFile(mod.name), Json.PackageJson(mod.name))
  }

  /** `createFile(p, data)` writes only `p`, keeps the volume well formed, and on
      success `p` holds `data`. */
  lemma CreateFileWritesOnly(s: Store, p: string, data: string)
    requires WellFormed(s) && Abs(p)
    ensures var e := AfterCreateFile(s, p, data);
      && WellFormed(e.store)
      && WroteOnly(s, e.store, {p}) && KeptExcept(s, e.store, {p})
      && (e.error == None ==> ReadFile(e.store, p) == Ok(data))
  {
    CreateFileEffect(s, p, data);
  }

  /** The package's two files hold the content and the manifest, and nothing
      else is written. */
  lemma PackageFilesWrite(s: Store, mod: ModuleDescriptor)
    requires WellFormed(s) && RelPath(mod.name)
    ensures var e := AfterPackageFiles(s, mod);
      && WellFormed(e.store)
      && WroteOnly(s, e.store, {IndexFile(mod.name), ManifestFile(mod.name)})
      && KeptExcept(s, e.store, {IndexFile(mod.name), ManifestFile(mod.name)})
      && (e.error == None ==>
            && ReadFile(e.store, IndexFile(mod.name)) == Ok(mod.content)
            && ReadFile(e.store, ManifestFile(mod.name)) == Ok(Json.PackageJson(mod.name)))
  {
    ModulePaths(mod.name);
    var index := IndexFile(mod.name);
    var manifest := ManifestFile(mod.name);
    var m := AfterCreateFile(s, index, mod.content);
    CreateFileWritesOnly(s, index, mod.content);
    if m.error == None {
      var t := AfterCreateFile(m.store, manifest, Json.PackageJson(mod.name));
      CreateFileWritesOnly(m.store, manifest, Json.PackageJson(mod.name));
      TwoWrites(s, m, t, index, manifest, mod.content, Json.PackageJson(mod.name));
    }
  }

  /** Writing one file and then another different one: both hold what was written
      last, and nothing else is written. */
  lemma TwoWrites(s: Store, m: Effect, t: Effect, p: string, q: string, dp: string, dq: string)
    requires p != q
    requires WroteOnly(s, m.store, {p}) && KeptExcept(s, m.store, {p})
    requires m.error == None && ReadFile(m.store, p) == Ok(dp)
    requires WroteOnly(m.store, t.store, {q}) && KeptExcept(m.store, t.store, {q})
    requires t.error == None ==> ReadFile(t.store, q) == Ok(dq)
    ensures WroteOnly(s, t.store, {p, q}) && KeptExcept(s, t.store, {p, q})
    ensures t.error == None ==> ReadFile(t.store, p) == Ok(dp) && ReadFile(t.store, q) == Ok(dq)
  {
    WroteOnlyTrans(s, m.store, t.store, {p}, {q});
    assert {p} + {q} == {p, q};
    assert p in m.store.entries && m.store.entries[p] == File(dp);
  }

  /** `createModule` writes exactly two files: the package's `index.ts` holding the
      module's content and its `package.json` holding the manifest; every other
      entry is kept and everything else it adds is a directory. */
  lemma CreateModuleWrites(s: Store, mod: ModuleDescriptor)
    requires WellFormed(s) && RelPath(mod.name)
    ensures var e := AfterCreateModule(s, mod);
      && WellFormed(e.store)
      && WroteOnly(s, e.store, {IndexFile(mod.name), ManifestFile(mod.name)})
      && KeptExcept(s, e.store, {IndexFile(mod.name), ManifestFile(mod.name)})
      && (e.error == None ==>
            && ReadFile(e.store, IndexFile(mod.name)) == Ok(mod.content)
            && ReadFile(e.store, ManifestFile(mod.name)) == Ok(Json.PackageJson(mod.name)))
  {
    ModulePaths(mod.name);
    var dir := ModuleDir(mod.name);
    var files := {IndexFile(mod.name), ManifestFile(mod.name)};
    var m := AfterMkdirp(s, dir);
    var e := AfterCreateModule(s, mod);
    MkdirpWritesNothing(s, dir);
    if m.error == None {
      assert e == AfterPackageFiles(m.store, mod);
      PackageFilesWrite(m.store, mod);
      WroteOnlyTrans(s, m.store, e.store, {}, files);
      assert {} + files == files;
    } else {
      assert e == m;
    }
  }

  /** `mkdirp` writes no file and keeps every entry. */
  lemma MkdirpWritesNothing(s: Store, path: string)
    requires WellFormed(s) && Abs(path)
    ensures var m := AfterMkdirp(s, path);
      WellFormed(m.store) && WroteOnly(s, m.store, {}) && KeptExcept(s, m.store, {})
  {
    MkdirpKeepsExisting(s, path);
  }

  /** `createModule(mod, fs)` on a volume. */
  method CreateModule(mod: ModuleDescriptor, fs: Volume) returns (err: Option<FsError>)
    requires fs.Valid() && RelPath(mod.name)
    modifies fs
    ensures fs.Valid()
    ensures Effect(fs.State(), err) == AfterCreateModule(old(fs.State()), mod)
  {
    ModulePaths(mod.name);
    err := Mkdirp(fs, ModuleDir(mod.name));
    if err.Some? {
      return;
    }
    var base := ModuleDir(mod.name);
    err := CreateFile(fs, base + "/" + "index.ts", mod.content);
    if err.Some? {
      return;
    }
    err := CreateFile(fs, base + "/" + "package.json", Json.PackageJson(mod.name));
  }

  // ----- copy -----

  /** One step of `copy` for the listed path `x`: `mkdirp` of the target's
      directory, then `readFileSync` of the source file, then `writeFileSync` of
      the target. */
  function AfterCopyOne(src: Store, dst: Store, from: string, to: string, x: string): Effect
    requires Abs(to) && RelPath(x)
  {
    CombineRelative(to, x);
    var target := Combine(to, x);
    DirnameAbs(target);
    var m := AfterMkdirp(dst, Dirname(target));
    if m.error.Some? then m
    else
      match ReadFile(src, Combine(from, x))
      case Err(e) => Effect(m.store, Some(e))
      case Ok(data) => WriteFile(m.store, target, data)
  }

  /** The steps of `copy` for each listed path in turn, stopping at the first error. */
  function CopyEach(src: Store, dst: Store, from: string, to: string, xs: seq<string>): Effect
    requires Abs(to) && forall x :: x in xs ==> RelPath(x)
    decreases |xs|
  {
    if xs == [] then Effect(dst, None)
    else
      var first := AfterCopyOne(src, dst, from, to, xs[0]);
      if first.error.Some? then first else CopyEach(src, first.store, from, to, xs[1..])
  }

  /** What `copy(from, to)` leaves in the target volume: it fails as `list` does
      when `from` cannot be listed, and otherwise copies each listed file. */
  function AfterCopy(src: Store, dst: Store, from: string, to: string): Effect
    requires WellFormed(src) && Abs(from) && Abs(to)
  {
    match List(src, from)
    case Err(e) => Effect(dst, Some(e))
    case Ok(xs) =>
      ListFilesBelow(src, from);
      CopyEach(src, dst, from, to, xs)
  }

  /** The target paths of the listed paths `xs`. */
  function Targets(to: string, xs: seq<string>): set<string>
  {
    set x | x in xs :: Combine(to, x)
  }

  lemma TargetsCons(to: string, xs: seq<string>)
    requires xs != []
    ensures Targets(to, xs) == {Combine(to, xs[0])} + Targets(to, xs[1..])
  {
    assert forall y :: y in xs <==> y == xs[0] || y in xs[1..];
  }

  /** A path not listed again has a target no other listed path shares. */
  lemma TargetFresh(to: string, x: string, rest: seq<string>)
    requires Abs(to) && RelPath(x) && forall y :: y in rest ==> RelPath(y)
    requires x !in rest
    ensures Combine(to, x) !in Targets(to, rest)
  {
    forall y | y in rest ensures Combine(to, y) != Combine(to, x) {
      if Combine(to, y) == Combine(to, x) {
        CombineInjective(to, x, y);
      }
    }
  }

  /** Resolving two relative paths against the same directory gives the same
      path only when they are the same. */
  lemma CombineInjective(to: string, x: string, y: string)
    requires Abs(to) && RelPath(x) && RelPath(y)
    requires Combine(to, x) == Combine(to, y)
    ensures x == y
  {
    CombineRelative(to, x);
    CombineRelative(to, y);
  }

  /** One step of `copy` writes only its target, keeps the volume well formed, and
      on success the target holds the source file's bytes. */
  lemma CopyOneEffect(src: Store, dst: Store, from: string, to: string, x: string)
    requires WellFormed(dst) && Abs(to) && RelPath(x)
    ensures var e := AfterCopyOne(src, dst, from, to, x);
      && WellFormed(e.store)
      && WroteOnly(dst, e.store, {Combine(to, x)}) && KeptExcept(dst, e.store, {Combine(to, x)})
      && (e.error == None ==> ReadFile(src, Combine(from, x)).Ok? && ReadFile(e.store, Combine(to, x)) == ReadFile(src, Combine(from, x)))
  {
    CombineRelative(to, x);
    var target := Combine(to, x);
    DirnameAbs(target);
    var m := AfterMkdirp(dst, Dirname(target));
    var e := AfterCopyOne(src, dst, from, to, x);
    var r := ReadFile(src, Combine(from, x));
    if m.error == None && r.Ok? {
      assert e == AfterCreateFile(dst, target, r.value);
      CreateFileWritesOnly(dst, target, r.value);
    } else {
      MkdirpWritesNothing(dst, Dirname(target));
      assert e.store == m.store && e.error.Some?;
    }
  }

  /** After the steps of `copy` for `xs` succeed, the target of every listed path
      holds the bytes of its source file; only those targets are written and the
      volume stays well formed. */
  lemma {:induction false} CopyEachReplicates(src: Store, dst: Store, from: string, to: string, xs: seq<string>)
    requires WellFormed(dst) && Abs(to) && forall x :: x in xs ==> RelPath(x)
    ensures var e := CopyEach(src, dst, from, to, xs);
      && WellFormed(e.store)
      && WroteOnly(dst, e.store, Targets(to, xs)) && KeptExcept(dst, e.store, Targets(to, xs))
      && (e.error == None ==> forall x :: x in xs ==>
            ReadFile(src, Combine(from, x)).Ok? && ReadFile(e.store, Combine(to, x)) == ReadFile(src, Combine(from, x)))
    decreases |xs|
  {
    if xs != [] {
      var x := xs[0];
      var first := AfterCopyOne(src, dst, from, to, x);
      CopyOneEffect(src, dst, from, to, x);
      TargetsCons(to, xs);
      if first.error == None {
        var rest := xs[1..];
        var e := CopyEach(src, first.store, from, to, rest);
        CopyEachReplicates(src, first.store, from, to, rest);
        WroteOnlyTrans(dst, first.store, e.store, {Combine(to, x)}, Targets(to, rest));
        if x !in rest {
          TargetFresh(to, x, rest);
        }
      }
    }
  }

  /** What `copy(from, to)` promises: on success, for every path `list(from)`
      returns, the target volume holds at `to/p` a file with the same bytes as
      `from/p`; so every file below `from` is replicated below `to` at the same
      relative path. Nothing but those targets is written. */
  lemma CopyReplicates(src: Store, dst: Store, from: string, to: string)
    requires WellFormed(src) && WellFormed(dst) && Abs(from) && Abs(to)
    ensures WellFormed(AfterCopy(src, dst, from, to).store)
    ensures AfterCopy(src, dst, from, to).error == None ==>
      && List(src, from).Ok?
      && WroteOnly(dst, AfterCopy(src, dst, from, to).store, Targets(to, List(src, from).value))
      && KeptExcept(dst, AfterCopy(src, dst, from, to).store, Targets(to, List(src, from).value))
      && (forall x :: x in List(src, from).value ==>
            ReadFile(AfterCopy(src, dst, from, to).store, Combine(to, x)) == ReadFile(src, Combine(from, x)))
      && (forall f :: f in src.entries && src.entries[f].File? && Inside(from, f) ==>
            ReadFile(AfterCopy(src, dst, from, to).store, Combine(to, Relative(from, f))) == Ok(src.entries[f].data))
  {
    if List(src, from).Ok? {
      var xs := List(src, from).value;
      ListFilesBelow(src, from);
      CopyEachReplicates(src, dst, from, to, xs);
      forall f | f in src.entries && src.entries[f].File? && Inside(from, f)
        ensures Combine(from, Relative(from, f)) == f
      {
        RelativeCombine(from, f);
      }
    }
  }

  /** One step of `copy` on two different volumes. */
  method CopyOne(src: Volume, from: string, dst: Volume, to: string, x: string) returns (err: Option<FsError>)
    requires src != dst
    requires dst.Valid() && Abs(to) && RelPath(x)
    modifies dst
    ensures dst.Valid()
    ensures Effect(dst.State(), err) == AfterCopyOne(src.State(), old(dst.State()), from, to, x)
  {
    CombineRelative(to, x);
    var target := Combine(to, x);
    DirnameAbs(target);
    err := Mkdirp(dst, Dirname(target));
    if err.Some? {
      return;
    }
    var data := src.ReadFileSync(Combine(from, x));
    if data.Err? {
      return Some(data.error);
    }
    err := dst.WriteFileSync(target, data.value);
  }

  /** `copy(from, to)` between two different volumes: only the target volume
      changes. */
  method Copy(src: Volume, from: string, dst: Volume, to: string) returns (err: Option<FsError>)
    requires src != dst
    requires src.Valid() && dst.Valid() && Abs(from) && Abs(to)
    modifies dst
    ensures dst.Valid()
    ensures Effect(dst.State(), err) == AfterCopy(src.State(), old(dst.State()), from, to)
  {
    var listed := List(src.State(), from);
    if listed.Err? {
      return Some(listed.error);
    }
    var xs := listed.value;
    ListFilesBelow(src.State(), from);
    ghost var start := dst.State();
    var i := 0;
    while i < |xs|
      invariant 0 <= i <= |xs|
      invariant dst.Valid()
      invariant CopyEach(src.State(), dst.State(), from, to, xs[i..]) == CopyEach(src.State(), start, from, to, xs)
    {
      assert xs[i..][1..] == xs[i + 1..];
      err := CopyOne(src, from, dst, to, xs[i]);
      if err.Some? {
        return;
      }
      i := i + 1;
    }
    err := None;
  }
}
