/** The in-memory volume the helpers work on: a map from absolute path to a
    directory or a file, plus the order in which entries were created (a
    directory listing returns its children in that order). `Volume` is the
    mutable object; `Store` is its value at one moment, on which the
    specification functions are written. The primitive operations are those
    of the volume's own API that the modelled code calls: `mkdirSync`,
    `writeFileSync`, `readFileSync`, `readdirSync` and `existsSync`. */
module Vfs {
  import opened Wrappers
  import opened Arrays
  import opened Paths

  datatype Entry = Dir | File(data: string)

  datatype Store = Store(entries: map<string, Entry>, order: seq<string>)

  /** The volume's error codes: ENOENT, EEXIST, ENOTDIR and EISDIR. */
  datatype FsError =
    | NoEntry(path: string)
    | AlreadyExists(path: string)
    | NotADirectory(path: string)
    | IsADirectory(path: string)

  /** What a sequence of volume calls leaves behind: the store, and the error
      that stopped it, if one did. */
  datatype Effect = Effect(store: Store, error: Option<FsError>)

  const Root := "/"

  /** A fresh volume (`Volume.fromJSON({})`): only the root directory. */
  function Empty(): Store
  {
    Store(map[Root := Dir], [])
  }

  /** The volume's own invariant: the root is a directory; every other entry
      has an absolute path, is recorded once in the creation order, and sits in
      a directory that exists. */
  ghost predicate WellFormed(s: Store)
  {
    && Root in s.entries && s.entries[Root] == Dir
    && Root !in s.order
    && (forall k :: k in s.entries && k != Root ==> k in s.order)
    && (forall i, j :: 0 <= i < j < |s.order| ==> s.order[i] != s.order[j])
    && forall k :: k in s.order ==>
         && k in s.entries && Abs(k)
         && Dirname(k) in s.entries && s.entries[Dirname(k)] == Dir
  }

  /** `b` keeps every entry of `a` exactly as it was. */
  ghost predicate Extends(a: Store, b: Store)
  {
    forall k :: k in a.entries ==> k in b.entries && b.entries[k] == a.entries[k]
  }

  /** `mkdirSync(p)`: fails if `p` exists, if its directory does not exist, or if
      that directory is a file; otherwise adds `p` as an empty directory. */
  function Mkdir(s: Store, p: string): (e: Effect)
    requires Abs(p)
    ensures e.error.Some? ==> e.store == s
  {
    if p in s.entries then Effect(s, Some(AlreadyExists(p)))
    else if Dirname(p) !in s.entries then Effect(s, Some(NoEntry(p)))
    else if s.entries[Dirname(p)].File? then Effect(s, Some(NotADirectory(p)))
    else Effect(Store(s.entries[p := Dir], s.order + [p]), None)
  }

  /** `writeFileSync(p, data)`: fails if `p` is a directory, or if its directory
      does not exist or is a file; otherwise `p` holds exactly `data`. */
  function WriteFile(s: Store, p: string, data: string): (e: Effect)
    requires Abs(p)
    ensures e.error.Some? ==> e.store == s
  {
    if p in s.entries && s.entries[p].Dir? then Effect(s, Some(IsADirectory(p)))
    else if Dirname(p) !in s.entries then Effect(s, Some(NoEntry(p)))
    else if s.entries[Dirname(p)].File? then Effect(s, Some(NotADirectory(p)))
    else
      var order := if p in s.entries then s.order else s.order + [p];
      Effect(Store(s.entries[p := File(data)], order), None)
  }

  /** `readFileSync(p)`. */
  function ReadFile(s: Store, p: string): (r: Result<string, FsError>)
    ensures r.Ok? <==> p in s.entries && s.entries[p].File?
    ensures r.Ok? ==> s.entries[p] == File(r.value)
  {
    if p !in s.entries then Err(NoEntry(p))
    else if s.entries[p].Dir? then Err(IsADirectory(p))
    else Ok(s.entries[p].data)
  }

  /** The entries directly inside `dir`, in creation order, as full paths. */
  function Children(s: Store, dir: string): (r: seq<string>)
    ensures forall k :: k in r <==> k in s.order && Dirname(k) == dir
  {
    Filter(s.order, k => Dirname(k) == dir)
  }

  /** `readdirSync(dir)`, each name already resolved against `dir`. */
  function Readdir(s: Store, dir: string): (r: Result<seq<string>, FsError>)
    ensures r.Ok? <==> dir in s.entries && s.entries[dir] == Dir
  {
    if dir !in s.entries then Err(NoEntry(dir))
    else if s.entries[dir].File? then Err(NotADirectory(dir))
    else Ok(Children(s, dir))
  }

  /** A successful `mkdirSync` adds exactly the new directory and keeps the volume well formed. */
  lemma MkdirPreserves(s: Store, p: string)
    requires WellFormed(s) && Abs(p)
    ensures Extends(s, Mkdir(s, p).store)
    ensures WellFormed(Mkdir(s, p).store)
    ensures Mkdir(s, p).error == None <==>
      p !in s.entries && Dirname(p) in s.entries && s.entries[Dirname(p)] == Dir
    ensures Mkdir(s, p).error == None ==> Mkdir(s, p).store.entries == s.entries[p := Dir]
  {
    var e := Mkdir(s, p);
    if e.error == None {
      var t := e.store;
      assert p != Root;
      forall k | k in t.order ensures k in t.entries && Abs(k) && Dirname(k) in t.entries && t.entries[Dirname(k)] == Dir {
        if k != p {
          assert k in s.order;
        }
      }
      forall i, j | 0 <= i < j < |t.order| ensures t.order[i] != t.order[j] {
        if j == |s.order| {
          assert t.order[i] == s.order[i];
        } else {
          assert t.order[i] == s.order[i] && t.order[j] == s.order[j];
        }
      }
    }
  }

  /** A successful `writeFileSync` changes only the file it writes and keeps the volume well formed. */
  lemma WriteFilePreserves(s: Store, p: string, data: string)
    requires WellFormed(s) && Abs(p)
    ensures WellFormed(WriteFile(s, p, data).store)
    ensures forall k :: k in s.entries && k != p ==>
      k in WriteFile(s, p, data).store.entries && WriteFile(s, p, data).store.entries[k] == s.entries[k]
    ensures WriteFile(s, p, data).error == None <==>
      (p !in s.entries || s.entries[p].File?) && Dirname(p) in s.entries && s.entries[Dirname(p)] == Dir
    ensures WriteFile(s, p, data).error == None ==> WriteFile(s, p, data).store.entries == s.entries[p := File(data)]
  {
    var e := WriteFile(s, p, data);
    if e.error == None {
      var t := e.store;
      assert p != Root;
      forall k | k in t.order ensures k in t.entries && Abs(k) && Dirname(k) in t.entries && t.entries[Dirname(k)] == Dir {
        if k != p {
          assert k in s.order;
          assert Dirname(k) != p;
        }
      }
      if p !in s.entries {
        forall i, j | 0 <= i < j < |t.order| ensures t.order[i] != t.order[j] {
          if j == |s.order| {
            assert t.order[i] == s.order[i];
          } else {
            assert t.order[i] == s.order[i] && t.order[j] == s.order[j];
          }
        }
      }
    }
  }

  /** The volume object, updated in place by its primitive operations. */
  class Volume {
    var entries: map<string, Entry>
    var order: seq<string>

    function State(): Store
      reads this
    {
      Store(entries, order)
    }

    ghost predicate Valid()
      reads this
    {
      WellFormed(State())
    }

    /** `Volume.fromJSON({})`. */
    constructor ()
      ensures Valid() && State() == Empty()
    {
      entries := map[Root := Dir];
      order := [];
    }

    method ExistsSync(p: string) returns (b: bool)
      ensures b <==> p in entries
    {
      b := p in entries;
    }

    method MkdirSync(p: string) returns (err: Option<FsError>)
      requires Valid() && Abs(p)
      modifies this
      ensures Valid()
      ensures Effect(State(), err) == Mkdir(old(State()), p)
    {
      MkdirPreserves(State(), p);
      if p in entries {
        return Some(AlreadyExists(p));
      }
      var dir := Dirname(p);
      if dir !in entries {
        return Some(NoEntry(p));
      }
      if entries[dir].File? {
        return Some(NotADirectory(p));
      }
      entries := entries[p := Dir];
      order := order + [p];
      err := None;
    }

    method WriteFileSync(p: string, data: string) returns (err: Option<FsError>)
      requires Valid() && Abs(p)
      modifies this
      ensures Valid()
      ensures Effect(State(), err) == WriteFile(old(State()), p, data)
    {
      WriteFilePreserves(State(), p, data);
      if p in entries && entries[p].Dir? {
        return Some(IsADirectory(p));
      }
      var dir := Dirname(p);
      if dir !in entries {
        return Some(NoEntry(p));
      }
      if entries[dir].File? {
        return Some(NotADirectory(p));
      }
      if p !in entries {
        order := order + [p];
      }
      entries := entries[p := File(data)];
      err := None;
    }

    method ReadFileSync(p: string) returns (r: Result<string, FsError>)
      ensures r == ReadFile(State(), p)
    {
      if p !in entries {
        r := Err(NoEntry(p));
      } else if entries[p].Dir? {
        r := Err(IsADirectory(p));
      } else {
        r := Ok(entries[p].data);
      }
    }
  }
}
