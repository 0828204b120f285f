/** `transformFile`: seeds a volume with the root file, the extra sources and the
    mock packages, merges the caller's compiler options over fixed defaults,
    hands the program to the compiler (an opaque step here) whose emitted files go
    through a `writeFile` hook into the volume, and reads back the emitted
    artifact of the root file. */
module TransformFile {
  import opened Wrappers
  import opened Paths
  import opened Vfs
  import opened MemFs

  // ----- compiler options -----

  /** The members of `JsxEmit` the harness can be given. */
  datatype JsxEmit = JsxNone | Preserve | React | ReactNative

  /** A compiler option's value. Enumerations other than `JsxEmit` only matter
      here by identity, so they are kept as the enumeration's and the member's
      names. An explicitly `undefined` value is a value too: the object spread
      copies it over the default. */
  datatype Value =
    | Undefined
    | Flag(flag: bool)
    | Str(str: string)
    | StrList(strs: seq<string>)
    | Jsx(jsx: JsxEmit)
    | Enum(kind: string, member: string)

  /** A set of compiler options: option name to value. */
  type Config = map<string, Value>

  /** The options every compilation starts from. */
  const Defaults: Config := map[
    "jsx" := Jsx(Preserve),
    "outDir" := Str("/dist"),
    "lib" := StrList(["/node_modules/typescript/lib/lib.esnext.full.d.ts"]),
    "module" := Enum("ModuleKind", "ESNext"),
    "moduleResolution" := Enum("ModuleResolutionKind", "NodeJs"),
    "suppressImplicitAnyIndexErrors" := Flag(true),
    "resolveJsonModule" := Flag(true),
    "skipLibCheck" := Flag(true),
    "target" := Enum("ScriptTarget", "ESNext"),
    "types" := StrList([]),
    "noEmitOnError" := Flag(true)
  ]

  /** `{ ...Defaults, ...(compilerOptions || {}) }`. */
  function Merge(overrides: Option<Config>): (c: Config)
    ensures c.Keys == Defaults.Keys + (if overrides.Some? then overrides.value.Keys else {})
    ensures overrides.Some? ==> forall k :: k in overrides.value ==> c[k] == overrides.value[k]
    ensures forall k :: k in Defaults && (overrides.None? || k !in overrides.value) ==> c[k] == Defaults[k]
  {
    match overrides
    case None => Defaults
    case Some(o) => Defaults + o
  }

  /** With no options supplied, or an empty set, the defaults are used as they are. */
  lemma MergeNothing()
    ensures Merge(None) == Defaults
    ensures Merge(Some(map[])) == Defaults
  {
    assert Defaults + map[] == Defaults;
  }

  /** Options the caller does not supply keep their defaults, among them the
      output directory `/dist`, JSX preserved and no emit on error; a supplied
      option wins, even when it is `undefined`. */
  lemma MergeKeepsDefaults(o: Config)
    ensures "outDir" !in o ==> Merge(Some(o))["outDir"] == Str("/dist")
    ensures "jsx" !in o ==> Merge(Some(o))["jsx"] == Jsx(Preserve)
    ensures "noEmitOnError" !in o ==> Merge(Some(o))["noEmitOnError"] == Flag(true)
    ensures forall k :: k in o ==> Merge(Some(o))[k] == o[k]
  {
    DefaultOutput();
  }

  /** Merging is idempotent: spreading a merged set over the defaults again
      changes nothing. */
  lemma MergeIdempotent(o: Option<Config>)
    ensures Merge(Some(Merge(o))) == Merge(o)
  {
    var m := Merge(o);
    assert Defaults + m == m;
  }

  // ----- the artifact path -----

  /** `options.jsx === JsxEmit.Preserve`. */
  predicate PreservesJsx(cfg: Config)
  {
    "jsx" in cfg && cfg["jsx"] == Jsx(Preserve)
  }

  /** `options.outDir || "."`: a non-empty string output directory, else `.`. */
  function OutDir(cfg: Config): (dir: string)
    ensures dir != ""
  {
    if "outDir" in cfg && cfg["outDir"].Str? && cfg["outDir"].str != "" then cfg["outDir"].str else "."
  }

  /** The artifact's extension: `.jsx` for a `.tsx` file whose JSX is preserved,
      `.js` otherwise. */
  function ArtifactExt(fileName: string, cfg: Config): string
  {
    if Extname(fileName) == ".tsx" && PreservesJsx(cfg) then ".jsx" else ".js"
  }

  /** `getFileArtifactPath`: the source's basename without its extension, with the
      artifact's extension, in the output directory. */
  function ArtifactPath(fileName: string, cfg: Config): string
  {
    Combine(OutDir(cfg), Stem(fileName) + ArtifactExt(fileName, cfg))
  }

  /** The artifact path is never empty, so the "could not determine" error after
      it cannot happen. Its extension is `.jsx` exactly when the source's is
      `.tsx` and JSX is preserved, `.js` otherwise; its basename is the source's
      stem with that extension; it lies directly in the output directory (when
      that has no trailing slash). */
  lemma ArtifactPathShape(fileName: string, cfg: Config)
    requires Abs(fileName) && fileName != "/"
    ensures ArtifactPath(fileName, cfg) != ""
    ensures Extname(ArtifactPath(fileName, cfg)) ==
      if Extname(fileName) == ".tsx" && PreservesJsx(cfg) then ".jsx" else ".js"
    ensures Basename(ArtifactPath(fileName, cfg)) == Stem(fileName) + ArtifactExt(fileName, cfg)
    ensures OutDir(cfg) == "/" || OutDir(cfg)[|OutDir(cfg)| - 1] != '/' ==>
      Dirname(ArtifactPath(fileName, cfg)) == OutDir(cfg)
  {
    StemExtname(fileName);
    ArtifactOfStem(fileName, cfg);
  }

  /** The shape of the artifact path, from a non-empty slash-free stem. */
  lemma ArtifactOfStem(fileName: string, cfg: Config)
    requires |Stem(fileName)| > 0 && '/' !in Stem(fileName)
    ensures ArtifactPath(fileName, cfg) != ""
    ensures Extname(ArtifactPath(fileName, cfg)) ==
      if Extname(fileName) == ".tsx" && PreservesJsx(cfg) then ".jsx" else ".js"
    ensures Basename(ArtifactPath(fileName, cfg)) == Stem(fileName) + ArtifactExt(fileName, cfg)
    ensures OutDir(cfg) == "/" || OutDir(cfg)[|OutDir(cfg)| - 1] != '/' ==>
      Dirname(ArtifactPath(fileName, cfg)) == OutDir(cfg)
  {
    var ext := ArtifactExt(fileName, cfg);
    var dir := OutDir(cfg);
    assert ext == ".js" || ext == ".jsx";
    PlaceArtifact(dir, Stem(fileName), ext);
    assert ArtifactPath(fileName, cfg) == Combine(dir, Stem(fileName) + ext);
  }

  /** A file named by a non-empty stem and `.js` or `.jsx`, placed in a directory. */
  lemma PlaceArtifact(dir: string, stem: string, ext: string)
    requires dir != "" && |stem| > 0 && '/' !in stem
    requires ext == ".js" || ext == ".jsx"
    ensures Combine(dir, stem + ext) != ""
    ensures Extname(Combine(dir, stem + ext)) == ext
    ensures Basename(Combine(dir, stem + ext)) == stem + ext
    ensures dir == "/" || dir[|dir| - 1] != '/' ==> Dirname(Combine(dir, stem + ext)) == dir
  {
    var name := stem + ext;
    assert ext[0] == '.' && '.' !in ext[1..] && '/' !in ext;
    ExtnameOfName(stem, ext);
    assert '/' !in name;
    BasenameCombine(dir, name);
    if dir == "/" || dir[|dir| - 1] != '/' {
      CombineParts(dir, name);
    }
  }

  /** The source's directories play no part: two sources with the same basename
      have the same artifact path. */
  lemma ArtifactPathIgnoresDirectory(f: string, g: string, cfg: Config)
    requires Basename(f) == Basename(g)
    ensures ArtifactPath(f, cfg) == ArtifactPath(g, cfg)
  {
    assert Extname(f) == Extname(g);
    assert Stem(f) == Stem(g);
  }

  /** With the default options a source `/<dir>/<stem>.ts` becomes `/dist/<stem>.js`
      and a `.tsx` source becomes `/dist/<stem>.jsx`. */
  lemma DefaultArtifactPath(fileName: string)
    requires Abs(fileName) && fileName != "/"
    ensures ArtifactPath(fileName, Defaults) ==
      "/dist/" + Stem(fileName) + (if Extname(fileName) == ".tsx" then ".jsx" else ".js")
  {
    DefaultOutput();
    ArtifactPathInDist(fileName, Defaults);
  }

  /** Options that put artifacts in `/dist` and preserve JSX. */
  lemma ArtifactPathInDist(fileName: string, cfg: Config)
    requires OutDir(cfg) == "/dist" && PreservesJsx(cfg)
    ensures ArtifactPath(fileName, cfg) ==
      "/dist/" + Stem(fileName) + (if Extname(fileName) == ".tsx" then ".jsx" else ".js")
  {
    var stem := Stem(fileName);
    var ext := ArtifactExt(fileName, cfg);
    assert ext == if Extname(fileName) == ".tsx" then ".jsx" else ".js";
    InDist(stem, ext);
  }

  lemma InDist(stem: string, ext: string)
    ensures Combine("/dist", stem + ext) == "/dist/" + stem + ext
  {
    assert Combine("/dist", stem + ext) == "/dist" + "/" + (stem + ext);
  }

  /** The defaults put artifacts in `/dist`, preserve JSX and emit nothing on error. */
  lemma DefaultOutput()
    ensures OutDir(Defaults) == "/dist"
    ensures PreservesJsx(Defaults)
    ensures "noEmitOnError" in Defaults && Defaults["noEmitOnError"] == Flag(true)
  {
    assert Defaults["outDir"] == Str("/dist");
    assert Defaults["jsx"] == Jsx(Preserve);
  }

  // ----- module resolution -----

  /** What `resolve.sync` is given besides the name: the directory of the file
      that imports it, and the extensions to try, in order. */
  datatype ResolveOptions = ResolveOptions(basedir: string, extensions: seq<string>)

  const ResolveExtensions := [".js", ".json", ".node", ".tsx", ".ts", ".d.ts"]

  function ResolverOptions(containingFile: string): ResolveOptions
  {
    ResolveOptions(Dirname(containingFile), ResolveExtensions)
  }

  /** The resolver starts from the directory the importing file is in: that file
      lies directly inside `basedir`, under its own basename; TypeScript sources
      are tried only after `.js`, `.json` and `.node`. */
  lemma ResolverStartsBesideImporter(containingFile: string)
    requires Abs(containingFile) && containingFile != "/"
    ensures Inside(ResolverOptions(containingFile).basedir, containingFile)
    ensures Combine(ResolverOptions(containingFile).basedir, Basename(containingFile)) == containingFile
    ensures ResolverOptions(containingFile).extensions[..3] == [".js", ".json", ".node"]
    ensures ResolverOptions(containingFile).extensions[3..] == [".tsx", ".ts", ".d.ts"]
  {
    DirnameInside(containingFile);
    CombineDirnameBasename(containingFile);
  }

  /** What the host's hooks throw while the compiler builds the program:
      `resolve.sync` finds no candidate for a name imported from `basedir`, or
      `getSourceFile`'s `readFileSync` fails. */
  datatype HostError =
    | ModuleNotFound(name: string, basedir: string)
    | SourceUnreadable(error: FsError)

  /** `resolve.sync` over the volume: the file a name resolves to, or `None` when
      no candidate exists (where the real resolver throws). */
  type Resolver = (string, ResolveOptions) -> Option<string>

  /** The host's `resolveModuleNames`: the names resolved one after another from
      the importing file's directory; the first that does not resolve throws. */
  function ResolveModuleNames(resolve: Resolver, names: seq<string>, containingFile: string): (r: Result<seq<string>, HostError>)
    ensures r.Ok? ==> |r.value| == |names|
    ensures r.Ok? ==> forall i :: 0 <= i < |names| ==> resolve(names[i], ResolverOptions(containingFile)) == Some(r.value[i])
    ensures r.Err? ==> r.error.ModuleNotFound? && r.error.name in names && r.error.basedir == Dirname(containingFile)
    decreases |names|
  {
    if names == [] then Ok([])
    else
      var opts := ResolverOptions(containingFile);
      match resolve(names[0], opts)
      case None => Err(ModuleNotFound(names[0], opts.basedir))
      case Some(f) =>
        match ResolveModuleNames(resolve, names[1..], containingFile)
        case Err(e) => Err(e)
        case Ok(rest) =>
          assert forall i :: 1 <= i < |names| ==> names[i] == names[1..][i - 1];
          Ok([f] + rest)
  }

  /** Resolution throws exactly when some name has no candidate, and then it
      names the first such name: every name before it resolved. */
  lemma {:induction false} ResolveFailsAtFirstMissing(resolve: Resolver, names: seq<string>, containingFile: string)
    ensures var r := ResolveModuleNames(resolve, names, containingFile);
      var opts := ResolverOptions(containingFile);
      && (r.Err? <==> exists i :: 0 <= i < |names| && resolve(names[i], opts) == None)
      && (r.Err? ==> exists k ::
            && 0 <= k < |names|
            && resolve(names[k], opts) == None
            && r.error == ModuleNotFound(names[k], Dirname(containingFile))
            && forall j :: 0 <= j < k ==> resolve(names[j], opts).Some?)
    decreases |names|
  {
    if names != [] {
      var opts := ResolverOptions(containingFile);
      var r := ResolveModuleNames(resolve, names, containingFile);
      if resolve(names[0], opts) == None {
        assert r.error == ModuleNotFound(names[0], Dirname(containingFile));
      } else {
        var tail := names[1..];
        ResolveFailsAtFirstMissing(resolve, tail, containingFile);
        var rt := ResolveModuleNames(resolve, tail, containingFile);
        assert r.Err? <==> rt.Err?;
        forall i | 1 <= i < |names| ensures names[i] == tail[i - 1] { }
        if rt.Err? {
          var k :| 0 <= k < |tail| && resolve(tail[k], opts) == None
            && rt.error == ModuleNotFound(tail[k], Dirname(containingFile))
            && forall j :: 0 <= j < k ==> resolve(tail[j], opts).Some?;
          assert names[k + 1] == tail[k];
          assert r.error == rt.error;
          assert forall j :: 0 <= j < k + 1 ==> resolve(names[j], opts).Some?;
        } else {
          assert forall i :: 0 <= i < |names| ==> resolve(names[i], opts).Some?;
        }
      }
    }
  }

  /** The host's `getSourceFile` reads `path.join("/", filename)`: a normalised
      absolute name is read as it is, a normalised relative one below the root;
      any other name is refused. */
  function SourceText(s: Store, filename: string): (r: Result<string, HostError>)
    ensures Abs(filename) ==> (r.Ok? <==> filename in s.entries && s.entries[filename].File?)
    ensures Abs(filename) && r.Ok? ==> s.entries[filename] == File(r.value)
    ensures Abs(filename) && r.Err? ==> r.error == SourceUnreadable(ReadFile(s, filename).error)
  {
    var path := if Abs(filename) then filename else "/" + filename;
    if !Abs(path) then Err(SourceUnreadable(NoEntry(filename)))
    else
      match ReadFile(s, path)
      case Err(e) => Err(SourceUnreadable(e))
      case Ok(data) => Ok(data)
  }

  /** A relative name is read from the file of the same name below the root. */
  lemma SourceTextRelative(s: Store, name: string)
    requires RelPath(name)
    ensures SourceText(s, name) == SourceText(s, "/" + name)
  {
    assert name[0] != '/' by {
      var p := "/" + name;
      assert p[1] == name[0] && p[0] == '/';
    }
    assert !Abs(name);
  }

  // ----- the emit-skipped error -----

  /** A diagnostic's `messageText`: a string, or a chain of messages (an object). */
  datatype MessageText = Text(text: string) | Chain(head: string)

  /** How `Array.prototype.join` renders a message: a string as itself, a chain
      as `[object Object]`. */
  function Render(m: MessageText): string
  {
    match m
    case Text(t) => t
    case Chain(_) => "[object Object]"
  }

  /** The error message of a skipped emit: the rendered diagnostics joined by
      newlines, in report order. */
  function EmitFailure(diagnostics: seq<MessageText>): string
  {
    Join(seq(|diagnostics|, i requires 0 <= i < |diagnostics| => Render(diagnostics[i])), '\n')
  }

  /** For plain one-line messages the error lists them one per line, in report
      order: splitting it at newlines gives the messages back. */
  lemma EmitFailureLines(diagnostics: seq<MessageText>)
    requires |diagnostics| >= 1
    requires forall i :: 0 <= i < |diagnostics| ==> diagnostics[i].Text? && '\n' !in diagnostics[i].text
    ensures Split(EmitFailure(diagnostics), '\n') == seq(|diagnostics|, i requires 0 <= i < |diagnostics| => diagnostics[i].text)
  {
    var lines := seq(|diagnostics|, i requires 0 <= i < |diagnostics| => Render(diagnostics[i]));
    SplitJoin(lines, '\n');
  }

  // ----- seeding the volume -----

  /** A file handed to the harness: its absolute path and its contents. */
  datatype SourceFile = SourceFile(path: string, contents: string)

  /** `createFile` of each file in turn, stopping at the first failure. */
  function CreateEach(s: Store, files: seq<SourceFile>): Effect
    requires forall f :: f in files ==> Abs(f.path)
    decreases |files|
  {
    if files == [] then Effect(s, None)
    else
      var first := AfterCreateFile(s, files[0].path, files[0].contents);
      if first.error.Some? then first else CreateEach(first.store, files[1..])
  }

  /** `createModule` of each mock in turn, stopping at the first failure. */
  function ModuleEach(s: Store, mocks: seq<ModuleDescriptor>): Effect
    requires forall m :: m in mocks ==> RelPath(m.name)
    decreases |mocks|
  {
    if mocks == [] then Effect(s, None)
    else
      var first := AfterCreateModule(s, mocks[0]);
      if first.error.Some? then first else ModuleEach(first.store, mocks[1..])
  }

  /** What the harness can seed: absolute source paths and normalised package names. */
  predicate Seedable(root: SourceFile, sources: seq<SourceFile>, mocks: seq<ModuleDescriptor>)
  {
    && Abs(root.path)
    && (forall f :: f in sources ==> Abs(f.path))
    && (forall m :: m in mocks ==> RelPath(m.name))
  }

  /** Seeding: the root file, then the sources in order, then the mocks in order. */
  function AfterSeed(s: Store, root: SourceFile, sources: seq<SourceFile>, mocks: seq<ModuleDescriptor>): Effect
    requires Seedable(root, sources, mocks)
  {
    var a := AfterCreateFile(s, root.path, root.contents);
    if a.error.Some? then a
    else
      var b := CreateEach(a.store, sources);
      if b.error.Some? then b else ModuleEach(b.store, mocks)
  }

  /** The two files a mock package consists of. */
  function ModuleFiles(m: ModuleDescriptor): seq<SourceFile>
  {
    [SourceFile(IndexFile(m.name), m.content), SourceFile(ManifestFile(m.name), Json.PackageJson(m.name))]
  }

  /** The files of the mocks, in order. */
  function MockFiles(mocks: seq<ModuleDescriptor>): seq<SourceFile>
  {
    if mocks == [] then [] else ModuleFiles(mocks[0]) + MockFiles(mocks[1..])
  }

  /** Every file seeding writes, in the order it writes them. */
  function SeedWrites(root: SourceFile, sources: seq<SourceFile>, mocks: seq<ModuleDescriptor>): seq<SourceFile>
  {
    [root] + sources + MockFiles(mocks)
  }

  /** The paths written by a sequence of writes. */
  function PathsOf(ws: seq<SourceFile>): set<string>
  {
    set w | w in ws :: w.path
  }

  lemma PathsOfAppend(a: seq<SourceFile>, b: seq<SourceFile>)
    ensures PathsOf(a + b) == PathsOf(a) + PathsOf(b)
  {
    assert forall w :: w in a + b <==> w in a || w in b;
  }

  lemma PathsOfCons(f: SourceFile, rest: seq<SourceFile>)
    ensures PathsOf([f] + rest) == {f.path} + PathsOf(rest)
  {
    PathsOfAppend([f], rest);
    assert forall w :: w in [f] <==> w == f;
  }

  /** The contents of the last write to `p`, if any. */
  function LastContent(ws: seq<SourceFile>, p: string): (r: Option<string>)
    ensures r.Some? <==> p in PathsOf(ws)
  {
    if ws == [] then None
    else if ws[|ws| - 1].path == p then Some(ws[|ws| - 1].contents)
    else
      var r := LastContent(ws[..|ws| - 1], p);
      assert forall w :: w in ws ==> w in ws[..|ws| - 1] || w == ws[|ws| - 1] by {
        assert ws == ws[..|ws| - 1] + [ws[|ws| - 1]];
      }
      r
  }

  /** Every path written holds the contents of the last write to it. */
  ghost predicate Holds(t: Store, ws: seq<SourceFile>)
  {
    forall p :: LastContent(ws, p).Some? ==> ReadFile(t, p) == Ok(LastContent(ws, p).value)
  }

  /** The last write to `p` in `ws + vs` is the last one in `vs`, if `vs` writes
      `p` at all. */
  lemma {:induction false} LastContentAppend(ws: seq<SourceFile>, vs: seq<SourceFile>, p: string)
    ensures LastContent(ws + vs, p) == if LastContent(vs, p).Some? then LastContent(vs, p) else LastContent(ws, p)
    decreases |vs|
  {
    if vs != [] {
      var all := ws + vs;
      assert all[..|all| - 1] == ws + vs[..|vs| - 1];
      assert all[|all| - 1] == vs[|vs| - 1];
      if vs[|vs| - 1].path != p {
        LastContentAppend(ws, vs[..|vs| - 1], p);
      }
    } else {
      assert ws + vs == ws;
    }
  }

  /** The write at index `i` is the last one to its path when no later write has it. */
  lemma {:induction false} LastContentAt(ws: seq<SourceFile>, i: nat)
    requires i < |ws|
    requires forall j :: i < j < |ws| ==> ws[j].path != ws[i].path
    ensures LastContent(ws, ws[i].path) == Some(ws[i].contents)
    decreases |ws|
  {
    if i < |ws| - 1 {
      LastContentAt(ws[..|ws| - 1], i);
    }
  }

  /** Writing the files `vs` on top of a state where `ws` holds keeps `ws + vs` holding. */
  lemma HoldsExtend(t: Store, u: Store, ws: seq<SourceFile>, vs: seq<SourceFile>)
    requires Holds(t, ws)
    requires KeptExcept(t, u, PathsOf(vs))
    requires forall p :: p in PathsOf(vs) ==> ReadFile(u, p) == Ok(LastContent(vs, p).value)
    ensures Holds(u, ws + vs)
  {
    forall p | LastContent(ws + vs, p).Some? ensures ReadFile(u, p) == Ok(LastContent(ws + vs, p).value) {
      LastContentAppend(ws, vs, p);
    }
  }

  /** A step that writes `f` (with contents `vs` on success) followed, if it
      succeeded, by a step that writes `g` (with `us`) writes `f + g`, and on
      success leaves `ws + vs + us` holding. */
  lemma ThenStep(s: Store, a: Effect, b: Effect, f: set<string>, g: set<string>,
              ws: seq<SourceFile>, vs: seq<SourceFile>, us: seq<SourceFile>)
    requires WellFormed(a.store) && WroteOnly(s, a.store, f) && KeptExcept(s, a.store, f)
    requires a.error == None ==> Holds(a.store, ws + vs)
    requires a.error == None ==>
      && WellFormed(b.store) && WroteOnly(a.store, b.store, g) && KeptExcept(a.store, b.store, g)
      && (b.error == None ==> Holds(b.store, ws + vs + us))
    ensures var e := if a.error.Some? then a else b;
      && WellFormed(e.store)
      && WroteOnly(s, e.store, f + g) && KeptExcept(s, e.store, f + g)
      && (e.error == None ==> Holds(e.store, ws + (vs + us)))
  {
    if a.error == None {
      WroteOnlyTrans(s, a.store, b.store, f, g);
      assert ws + vs + us == ws + (vs + us);
    }
  }

  /** `createFile` of one file writes its path, and on success it holds the
      file's contents on top of whatever held before. */
  lemma OneFileWrites(s: Store, f: SourceFile, ws: seq<SourceFile>)
    requires WellFormed(s) && Abs(f.path) && Holds(s, ws)
    ensures var a := AfterCreateFile(s, f.path, f.contents);
      && WellFormed(a.store)
      && WroteOnly(s, a.store, {f.path}) && KeptExcept(s, a.store, {f.path})
      && (a.error == None ==> Holds(a.store, ws + [f]))
  {
    var a := AfterCreateFile(s, f.path, f.contents);
    CreateFileWritesOnly(s, f.path, f.contents);
    SingleWrite(f);
    if a.error == None {
      HoldsExtend(s, a.store, ws, [f]);
    }
  }

  /** One write writes its own path with its own contents. */
  lemma SingleWrite(f: SourceFile)
    ensures PathsOf([f]) == {f.path}
    ensures LastContent([f], f.path) == Some(f.contents)
  {
    assert forall w :: w in [f] <==> w == f;
  }

  /** `createFile` of each file: only their paths are written, and on success
      every path holds the contents of the last file with that path, on top of
      whatever held before. */
  lemma {:induction false} CreateEachWrites(s: Store, files: seq<SourceFile>, ws: seq<SourceFile>)
    requires WellFormed(s) && forall f :: f in files ==> Abs(f.path)
    requires Holds(s, ws)
    ensures var e := CreateEach(s, files);
      && WellFormed(e.store)
      && WroteOnly(s, e.store, PathsOf(files)) && KeptExcept(s, e.store, PathsOf(files))
      && (e.error == None ==> Holds(e.store, ws + files))
    decreases |files|
  {
    if files == [] {
      assert ws + files == ws;
    } else {
      var f := files[0];
      var first := AfterCreateFile(s, f.path, f.contents);
      OneFileWrites(s, f, ws);
      var rest := files[1..];
      if first.error == None {
        CreateEachWrites(first.store, rest, ws + [f]);
      }
      ThenStep(s, first, CreateEach(first.store, rest), {f.path}, PathsOf(rest), ws, [f], rest);
      var e := CreateEach(s, files);
      assert e == if first.error.Some? then first else CreateEach(first.store, rest);
      ConsShape(files, ws);
      Reshape(s, e, {f.path} + PathsOf(rest), PathsOf(files), ws + ([f] + rest), ws + files);
    }
  }

  /** A non-empty sequence of writes is its first write followed by the rest. */
  lemma ConsShape(files: seq<SourceFile>, ws: seq<SourceFile>)
    requires files != []
    ensures ws + ([files[0]] + files[1..]) == ws + files
    ensures {files[0].path} + PathsOf(files[1..]) == PathsOf(files)
  {
    assert [files[0]] + files[1..] == files;
    PathsOfCons(files[0], files[1..]);
  }

  /** `createModule` of each mock: only the mocks' files are written, and on success
      each holds what the last mock to write it put there. */
  lemma {:induction false} ModuleEachWrites(s: Store, mocks: seq<ModuleDescriptor>, ws: seq<SourceFile>)
    requires WellFormed(s) && forall m :: m in mocks ==> RelPath(m.name)
    requires Holds(s, ws)
    ensures var e := ModuleEach(s, mocks);
      && WellFormed(e.store)
      && WroteOnly(s, e.store, PathsOf(MockFiles(mocks))) && KeptExcept(s, e.store, PathsOf(MockFiles(mocks)))
      && (e.error == None ==> Holds(e.store, ws + MockFiles(mocks)))
    decreases |mocks|
  {
    if mocks == [] {
      assert ws + MockFiles(mocks) == ws;
    } else {
      var m := mocks[0];
      var first := AfterCreateModule(s, m);
      var mine := ModuleFiles(m);
      ModuleFilesWritten(s, m);
      var rest := mocks[1..];
      if first.error == None {
        HoldsExtend(s, first.store, ws, mine);
        ModuleEachWrites(first.store, rest, ws + mine);
      }
      ThenStep(s, first, ModuleEach(first.store, rest), PathsOf(mine), PathsOf(MockFiles(rest)), ws, mine, MockFiles(rest));
      var e := ModuleEach(s, mocks);
      assert e == if first.error.Some? then first else ModuleEach(first.store, rest);
      MockFilesShape(mocks, ws);
      Reshape(s, e, PathsOf(mine) + PathsOf(MockFiles(rest)), PathsOf(MockFiles(mocks)),
        ws + (mine + MockFiles(rest)), ws + MockFiles(mocks));
    }
  }

  /** The files of a non-empty list of mocks are the first mock's, then the rest's. */
  lemma MockFilesShape(mocks: seq<ModuleDescriptor>, ws: seq<SourceFile>)
    requires mocks != []
    ensures ws + (ModuleFiles(mocks[0]) + MockFiles(mocks[1..])) == ws + MockFiles(mocks)
    ensures PathsOf(ModuleFiles(mocks[0])) + PathsOf(MockFiles(mocks[1..])) == PathsOf(MockFiles(mocks))
  {
    assert MockFiles(mocks) == ModuleFiles(mocks[0]) + MockFiles(mocks[1..]);
    PathsOfAppend(ModuleFiles(mocks[0]), MockFiles(mocks[1..]));
  }

  /** `createModule` in the terms of the seeding lemmas: it writes the paths of its
      two files and on success each holds its contents. */
  lemma ModuleFilesWritten(s: Store, m: ModuleDescriptor)
    requires WellFormed(s) && RelPath(m.name)
    ensures var e := AfterCreateModule(s, m);
      && WellFormed(e.store)
      && WroteOnly(s, e.store, PathsOf(ModuleFiles(m))) && KeptExcept(s, e.store, PathsOf(ModuleFiles(m)))
      && (e.error == None ==> forall p :: p in PathsOf(ModuleFiles(m)) ==>
            ReadFile(e.store, p) == Ok(LastContent(ModuleFiles(m), p).value))
  {
    ModuleFilesLast(m);
    CreateModuleWrites(s, m);
  }

  /** The two files of a package are written to different paths, so each keeps
      its own contents. */
  lemma ModuleFilesLast(m: ModuleDescriptor)
    requires RelPath(m.name)
    ensures PathsOf(ModuleFiles(m)) == {IndexFile(m.name), ManifestFile(m.name)}
    ensures LastContent(ModuleFiles(m), IndexFile(m.name)) == Some(m.content)
    ensures LastContent(ModuleFiles(m), ManifestFile(m.name)) == Some(Json.PackageJson(m.name))
  {
    ModuleFilesDiffer(m.name);
    LastOfTwo(ModuleFiles(m)[0], ModuleFiles(m)[1]);
  }

  /** Two writes to different paths: each path holds its own write. */
  lemma LastOfTwo(a: SourceFile, b: SourceFile)
    requires a.path != b.path
    ensures PathsOf([a, b]) == {a.path, b.path}
    ensures LastContent([a, b], a.path) == Some(a.contents)
    ensures LastContent([a, b], b.path) == Some(b.contents)
  {
    assert [a, b][..1] == [a];
    assert forall w :: w in [a, b] <==> w == a || w == b;
  }

  /** The sources, then the mocks, on top of a state where `ws` holds. */
  lemma SourcesThenMocks(t: Store, sources: seq<SourceFile>, mocks: seq<ModuleDescriptor>, ws: seq<SourceFile>)
    requires WellFormed(t) && Holds(t, ws)
    requires forall f :: f in sources ==> Abs(f.path)
    requires forall m :: m in mocks ==> RelPath(m.name)
    ensures var b := CreateEach(t, sources);
      var e := if b.error.Some? then b else ModuleEach(b.store, mocks);
      && WellFormed(e.store)
      && WroteOnly(t, e.store, PathsOf(sources) + PathsOf(MockFiles(mocks)))
      && KeptExcept(t, e.store, PathsOf(sources) + PathsOf(MockFiles(mocks)))
      && (e.error == None ==> Holds(e.store, ws + (sources + MockFiles(mocks))))
  {
    var b := CreateEach(t, sources);
    CreateEachWrites(t, sources, ws);
    if b.error == None {
      ModuleEachWrites(b.store, mocks, ws + sources);
    }
    ThenStep(t, b, ModuleEach(b.store, mocks), PathsOf(sources), PathsOf(MockFiles(mocks)), ws, sources, MockFiles(mocks));
  }

  /** What seeding promises: the root file, then the sources, then the mocks are
      written, each path ending up with the contents of the last of them to write
      it; nothing else is written. */
  lemma SeedOrder(s: Store, root: SourceFile, sources: seq<SourceFile>, mocks: seq<ModuleDescriptor>)
    requires WellFormed(s) && Seedable(root, sources, mocks)
    ensures var e := AfterSeed(s, root, sources, mocks);
      && WellFormed(e.store)
      && WroteOnly(s, e.store, PathsOf(SeedWrites(root, sources, mocks)))
      && KeptExcept(s, e.store, PathsOf(SeedWrites(root, sources, mocks)))
      && (e.error == None ==> Holds(e.store, SeedWrites(root, sources, mocks)))
  {
    var a := AfterCreateFile(s, root.path, root.contents);
    var rest := sources + MockFiles(mocks);
    var later := PathsOf(sources) + PathsOf(MockFiles(mocks));
    assert Holds(s, []);
    OneFileWrites(s, root, []);
    var b := CreateEach(a.store, sources);
    var bc := if b.error.Some? then b else ModuleEach(b.store, mocks);
    if a.error == None {
      SourcesThenMocks(a.store, sources, mocks, [] + [root]);
    }
    ThenStep(s, a, bc, {root.path}, later, [], [root], rest);
    var e := AfterSeed(s, root, sources, mocks);
    assert e == if a.error.Some? then a else bc;
    SeedWritesShape(root, sources, mocks);
    Reshape(s, e, {root.path} + later, PathsOf(SeedWrites(root, sources, mocks)), [] + ([root] + rest), SeedWrites(root, sources, mocks));
  }

  /** The seeded writes, grouped as the root and then the rest. */
  lemma SeedWritesShape(root: SourceFile, sources: seq<SourceFile>, mocks: seq<ModuleDescriptor>)
    ensures [] + ([root] + (sources + MockFiles(mocks))) == SeedWrites(root, sources, mocks)
    ensures {root.path} + (PathsOf(sources) + PathsOf(MockFiles(mocks))) == PathsOf(SeedWrites(root, sources, mocks))
  {
    ConsAppendShape(root, sources, MockFiles(mocks));
  }

  lemma ConsAppendShape(x: SourceFile, a: seq<SourceFile>, b: seq<SourceFile>)
    ensures [] + ([x] + (a + b)) == [x] + a + b
    ensures {x.path} + (PathsOf(a) + PathsOf(b)) == PathsOf([x] + a + b)
  {
    assert [] + ([x] + (a + b)) == [x] + a + b;
    PathsOfCons(x, a);
    PathsOfAppend([x] + a, b);
  }

  /** The seeding facts are about sets of paths and sequences of writes, not about
      how they are written down. */
  lemma Reshape(s: Store, e: Effect, f: set<string>, g: set<string>, ws: seq<SourceFile>, vs: seq<SourceFile>)
    requires f == g && ws == vs
    requires WellFormed(e.store) && WroteOnly(s, e.store, f) && KeptExcept(s, e.store, f)
    requires e.error == None ==> Holds(e.store, ws)
    ensures WellFormed(e.store) && WroteOnly(s, e.store, g) && KeptExcept(s, e.store, g)
    ensures e.error == None ==> Holds(e.store, vs)
  {
  }

  /** A source listed after the root with the root's path replaces the root's
      contents: the last such source wins, unless a mock writes that path. */
  lemma SeedLaterSourceWins(s: Store, root: SourceFile, sources: seq<SourceFile>, mocks: seq<ModuleDescriptor>, i: nat)
    requires WellFormed(s) && Seedable(root, sources, mocks)
    requires i < |sources| && sources[i].path == root.path
    requires forall j :: i < j < |sources| ==> sources[j].path != root.path
    requires root.path !in PathsOf(MockFiles(mocks))
    requires AfterSeed(s, root, sources, mocks).error == None
    ensures ReadFile(AfterSeed(s, root, sources, mocks).store, root.path) == Ok(sources[i].contents)
  {
    SeedOrder(s, root, sources, mocks);
    SeedLastAtRoot(root, sources, mocks, i);
    assert LastContent(SeedWrites(root, sources, mocks), root.path) == Some(sources[i].contents);
  }

  /** Among the seeding writes, the last one to the root's path is the last
      source with that path when no mock writes it. */
  lemma SeedLastAtRoot(root: SourceFile, sources: seq<SourceFile>, mocks: seq<ModuleDescriptor>, i: nat)
    requires i < |sources| && sources[i].path == root.path
    requires forall j :: i < j < |sources| ==> sources[j].path != root.path
    requires root.path !in PathsOf(MockFiles(mocks))
    ensures LastContent(SeedWrites(root, sources, mocks), root.path) == Some(sources[i].contents)
  {
    var early := [root] + sources;
    LastContentAppend(early, MockFiles(mocks), root.path);
    EarlyLastAtRoot(root, sources, i);
  }

  /** The last of the root and the sources to write the root's path is the last
      source with that path. */
  lemma EarlyLastAtRoot(root: SourceFile, sources: seq<SourceFile>, i: nat)
    requires i < |sources| && sources[i].path == root.path
    requires forall j :: i < j < |sources| ==> sources[j].path != root.path
    ensures LastContent([root] + sources, root.path) == Some(sources[i].contents)
  {
    LastContentAppend([root], sources, root.path);
    LastContentAt(sources, i);
  }

  // ----- the compilation -----

  /** The transformer factory the caller supplies; only its identity matters here. */
  datatype TransformRef = TransformRef(id: nat)

  /** What the compiler reports: the files `emit` writes through the host, in
      order; whether emission was skipped; the diagnostics; and whether the
      program has the root file among its source files. */
  datatype Emission = Emission(writes: seq<SourceFile>, emitSkipped: bool, diagnostics: seq<MessageText>, rootFound: bool)

  /** How building and emitting the program ends: a host hook throws while the
      program is built (before anything is emitted), or the compiler reports. */
  datatype Report = Threw(error: HostError) | Reported(emission: Emission)

  /** The compiler, given the seeded volume, the merged options, the root path and
      the transform. */
  type Compiler = (Store, Config, string, TransformRef) -> Report

  /** `TransformFileOptions`; the optional lists and options are `None` when left out. */
  datatype Options = Options(
    fs: Option<Volume>,
    sources: Option<seq<SourceFile>>,
    mocks: Option<seq<ModuleDescriptor>>,
    compilerOptions: Option<Config>,
    transform: TransformRef)

  /** `xs || []`. */
  function OrEmpty<T>(xs: Option<seq<T>>): seq<T>
  {
    if xs.Some? then xs.value else []
  }

  /** How `transformFile` fails: a volume call throws, a host hook throws while
      the program is built, emission is skipped, the root is not a source file of
      the program, or no artifact path is found. */
  datatype TransformError =
    | FsFailure(error: FsError)
    | HostFailure(cause: HostError)
    | EmitSkipped(message: string)
    | NoSourceFile(path: string)
    | NoArtifactPath(path: string)

  /** The messages of the errors the harness throws itself. */
  function HarnessMessage(e: TransformError): string
    requires e.EmitSkipped? || e.NoSourceFile? || e.NoArtifactPath?
  {
    match e
    case EmitSkipped(m) => m
    case NoSourceFile(p) => "Could not get SourceFile for " + p
    case NoArtifactPath(p) => "Could not determine fileArtifactPath for " + p
  }

  /** The host's `writeFile(filename, data)`: `mkdirp` of the file's directory, then
      `writeFileSync`; a file name that is not a normalised absolute path is refused. */
  function HookWrite(s: Store, filename: string, data: string): Effect
  {
    if Abs(filename) then AfterCreateFile(s, filename, data) else Effect(s, Some(NoEntry(filename)))
  }

  /** The compiler's writes through the host, in order; a write that throws ends
      the transformation. */
  function HookEach(s: Store, writes: seq<SourceFile>): Effect
    decreases |writes|
  {
    if writes == [] then Effect(s, None)
    else
      var first := HookWrite(s, writes[0].path, writes[0].contents);
      if first.error.Some? then first else HookEach(first.store, writes[1..])
  }

  /** When every emitted name is a normalised absolute path, the hook's writes are
      `createFile` of each emitted file. */
  lemma {:induction false} HookEachCreates(s: Store, writes: seq<SourceFile>)
    requires forall w :: w in writes ==> Abs(w.path)
    ensures HookEach(s, writes) == CreateEach(s, writes)
    decreases |writes|
  {
    if writes != [] {
      var first := HookWrite(s, writes[0].path, writes[0].contents);
      if first.error == None {
        HookEachCreates(first.store, writes[1..]);
      }
    }
  }

  /** What `transformFile` does once the compiler has reported: the writes go
      through the host, then emission is checked, then the root's source file,
      then the artifact is read back. */
  function Emitted(seeded: Store, fileName: string, config: Config, emission: Emission): (Result<string, TransformError>, Store)
  {
    var written := HookEach(seeded, emission.writes);
    if written.error.Some? then (Err(FsFailure(written.error.value)), written.store)
    else if emission.emitSkipped then (Err(EmitSkipped(EmitFailure(emission.diagnostics))), written.store)
    else if !emission.rootFound then (Err(NoSourceFile(fileName)), written.store)
    else
      var artifact := ArtifactPath(fileName, config);
      if artifact == "" then (Err(NoArtifactPath(fileName)), written.store)
      else
        match ReadFile(written.store, artifact)
        case Err(e) => (Err(FsFailure(e)), written.store)
        case Ok(data) => (Ok(data), written.store)
  }

  /** `transformFile(file, options)` run on a volume holding `s`: the result and
      what the volume holds afterwards. */
  function Transformed(s: Store, file: SourceFile, options: Options, compile: Compiler): (Result<string, TransformError>, Store)
    requires Seedable(file, OrEmpty(options.sources), OrEmpty(options.mocks))
  {
    var seeded := AfterSeed(s, file, OrEmpty(options.sources), OrEmpty(options.mocks));
    if seeded.error.Some? then (Err(FsFailure(seeded.error.value)), seeded.store)
    else
      var config := Merge(options.compilerOptions);
      Concluded(seeded.store, file.path, config, compile(seeded.store, config, file.path, options.transform))
  }

  /** What the compiler's report leads to: a hook that threw is the result, and
      otherwise the emission is handled as `Emitted` specifies. */
  function Concluded(seeded: Store, fileName: string, config: Config, report: Report): (Result<string, TransformError>, Store)
  {
    match report
    case Threw(e) => (Err(HostFailure(e)), seeded)
    case Reported(emission) => Emitted(seeded, fileName, config, emission)
  }

  /** The artifact path is never empty. */
  lemma ArtifactPathNonEmpty(fileName: string, cfg: Config)
    ensures ArtifactPath(fileName, cfg) != ""
  {
    assert |Stem(fileName) + ArtifactExt(fileName, cfg)| > 0;
  }

  /** Once the compiler has reported and its writes are in: a skipped emit fails
      with the joined diagnostics, whatever the artifact would have been; the
      "could not determine" error never happens; and a result is the contents of
      the artifact path in the final volume. */
  lemma EmittedOutcome(seeded: Store, fileName: string, config: Config, emission: Emission)
    ensures var written := HookEach(seeded, emission.writes);
      var (r, t) := Emitted(seeded, fileName, config, emission);
      && r != Err(NoArtifactPath(fileName))
      && (written.error == None && emission.emitSkipped ==>
            && r == Err(EmitSkipped(EmitFailure(emission.diagnostics)))
            && HarnessMessage(r.error) == EmitFailure(emission.diagnostics))
      && (written.error == None && !emission.emitSkipped && !emission.rootFound ==>
            && r == Err(NoSourceFile(fileName))
            && HarnessMessage(r.error) == "Could not get SourceFile for " + fileName)
      && (r.Ok? ==>
            && written.error == None && !emission.emitSkipped && emission.rootFound
            && ReadFile(t, ArtifactPath(fileName, config)) == Ok(r.value))
  {
    ArtifactPathNonEmpty(fileName, config);
  }

  /** When the compiler emits the artifact itself, under a normalised absolute
      name, and nothing fails, the result is what was last emitted to the
      artifact path. */
  lemma EmittedReturnsLast(seeded: Store, fileName: string, config: Config, emission: Emission)
    requires WellFormed(seeded)
    requires forall w :: w in emission.writes ==> Abs(w.path)
    requires HookEach(seeded, emission.writes).error == None
    requires !emission.emitSkipped && emission.rootFound
    requires ArtifactPath(fileName, config) in PathsOf(emission.writes)
    ensures Emitted(seeded, fileName, config, emission).0 ==
      Ok(LastContent(emission.writes, ArtifactPath(fileName, config)).value)
  {
    var artifact := ArtifactPath(fileName, config);
    var written := HookEach(seeded, emission.writes);
    HookEachHolds(seeded, emission.writes);
    assert ReadFile(written.store, artifact) == Ok(LastContent(emission.writes, artifact).value);
    ArtifactPathNonEmpty(fileName, config);
  }

  /** Emitted files that all go through the hook each hold what was last written to them. */
  lemma HookEachHolds(seeded: Store, writes: seq<SourceFile>)
    requires WellFormed(seeded)
    requires forall w :: w in writes ==> Abs(w.path)
    requires HookEach(seeded, writes).error == None
    ensures Holds(HookEach(seeded, writes).store, writes)
  {
    HookEachCreates(seeded, writes);
    assert Holds(seeded, []);
    CreateEachWrites(seeded, writes, []);
    assert [] + writes == writes;
  }

  /** The compiler works on the seeded volume with the merged options: a failed
      seeding is the result; a hook that throws while the program is built is the
      result and leaves the seeded volume as it is; otherwise the result is what
      the emission leads to. */
  lemma TransformedStages(s: Store, file: SourceFile, options: Options, compile: Compiler)
    requires WellFormed(s) && Seedable(file, OrEmpty(options.sources), OrEmpty(options.mocks))
    ensures var seeded := AfterSeed(s, file, OrEmpty(options.sources), OrEmpty(options.mocks));
      var config := Merge(options.compilerOptions);
      var report := compile(seeded.store, config, file.path, options.transform);
      && WellFormed(seeded.store)
      && (seeded.error.Some? ==> Transformed(s, file, options, compile).0 == Err(FsFailure(seeded.error.value)))
      && (seeded.error == None ==>
            && Holds(seeded.store, SeedWrites(file, OrEmpty(options.sources), OrEmpty(options.mocks)))
            && (report.Threw? ==> Transformed(s, file, options, compile) == (Err(HostFailure(report.error)), seeded.store))
            && (report.Reported? ==>
                  Transformed(s, file, options, compile) == Emitted(seeded.store, file.path, config, report.emission)))
  {
    SeedOrder(s, file, OrEmpty(options.sources), OrEmpty(options.mocks));
  }

  /** After a seeding that did not throw, `getSourceFile` reads every seeded
      file as last written: the root, a source or a mock's file. */
  lemma SeededSourceText(s: Store, root: SourceFile, sources: seq<SourceFile>, mocks: seq<ModuleDescriptor>, p: string)
    requires WellFormed(s) && Seedable(root, sources, mocks)
    requires AfterSeed(s, root, sources, mocks).error == None
    requires Abs(p) && p in PathsOf(SeedWrites(root, sources, mocks))
    ensures SourceText(AfterSeed(s, root, sources, mocks).store, p) == Ok(LastContent(SeedWrites(root, sources, mocks), p).value)
  {
    SeedOrder(s, root, sources, mocks);
  }

  // ----- the harness on a volume -----

  /** The `writeFile` hook installed on the compiler host: `mkdirp` of the file's
      directory, then `writeFileSync`. */
  method WriteHook(fs: Volume, filename: string, data: string) returns (err: Option<FsError>)
    requires fs.Valid()
    modifies fs
    ensures fs.Valid()
    ensures Effect(fs.State(), err) == HookWrite(old(fs.State()), filename, data)
  {
    if !Abs(filename) {
      return Some(NoEntry(filename));
    }
    DirnameAbs(filename);
    err := Mkdirp(fs, Dirname(filename));
    if err.Some? {
      return;
    }
    err := fs.WriteFileSync(filename, data);
  }

  /** The compiler's writes, each through the hook, stopping at the first that throws. */
  method WriteEach(fs: Volume, writes: seq<SourceFile>) returns (err: Option<FsError>)
    requires fs.Valid()
    modifies fs
    ensures fs.Valid()
    ensures Effect(fs.State(), err) == HookEach(old(fs.State()), writes)
  {
    var i := 0;
    while i < |writes|
      invariant 0 <= i <= |writes|
      invariant fs.Valid()
      invariant HookEach(fs.State(), writes[i..]) == HookEach(old(fs.State()), writes)
    {
      assert writes[i..][1..] == writes[i + 1..];
      err := WriteHook(fs, writes[i].path, writes[i].contents);
      if err.Some? {
        return;
      }
      i := i + 1;
    }
    err := None;
  }

  /** `(options.sources || []).forEach(source => createFile(...))`; a throwing
      `createFile` ends it. */
  method CreateSources(fs: Volume, sources: seq<SourceFile>) returns (err: Option<FsError>)
    requires fs.Valid() && forall f :: f in sources ==> Abs(f.path)
    modifies fs
    ensures fs.Valid()
    ensures Effect(fs.State(), err) == CreateEach(old(fs.State()), sources)
  {
    var i := 0;
    while i < |sources|
      invariant 0 <= i <= |sources|
      invariant fs.Valid()
      invariant CreateEach(fs.State(), sources[i..]) == CreateEach(old(fs.State()), sources)
    {
      assert sources[i..][1..] == sources[i + 1..];
      err := CreateFile(fs, sources[i].path, sources[i].contents);
      if err.Some? {
        return;
      }
      i := i + 1;
    }
    err := None;
  }

  /** `(options.mocks || []).forEach(mock => createModule(mock, fs))`; a throwing
      `createModule` ends it. */
  method CreateMocks(fs: Volume, mocks: seq<ModuleDescriptor>) returns (err: Option<FsError>)
    requires fs.Valid() && forall m :: m in mocks ==> RelPath(m.name)
    modifies fs
    ensures fs.Valid()
    ensures Effect(fs.State(), err) == ModuleEach(old(fs.State()), mocks)
  {
    var i := 0;
    while i < |mocks|
      invariant 0 <= i <= |mocks|
      invariant fs.Valid()
      invariant ModuleEach(fs.State(), mocks[i..]) == ModuleEach(old(fs.State()), mocks)
    {
      assert mocks[i..][1..] == mocks[i + 1..];
      err := CreateModule(mocks[i], fs);
      if err.Some? {
        return;
      }
      i := i + 1;
    }
    err := None;
  }

  /** Seeding the volume: the root file, then the sources, then the mocks. */
  method Seed(fs: Volume, root: SourceFile, sources: seq<SourceFile>, mocks: seq<ModuleDescriptor>) returns (err: Option<FsError>)
    requires fs.Valid() && Seedable(root, sources, mocks)
    modifies fs
    ensures fs.Valid()
    ensures Effect(fs.State(), err) == AfterSeed(old(fs.State()), root, sources, mocks)
  {
    err := CreateFile(fs, root.path, root.contents);
    if err.Some? {
      return;
    }
    err := CreateSources(fs, sources);
    if err.Some? {
      return;
    }
    err := CreateMocks(fs, mocks);
  }

  /** What follows the compiler's report: its writes through the hook, the
      checks on the emission, and reading the artifact back. */
  method Emit(fs: Volume, fileName: string, config: Config, emission: Emission) returns (r: Result<string, TransformError>)
    requires fs.Valid()
    modifies fs
    ensures fs.Valid()
    ensures (r, fs.State()) == Emitted(old(fs.State()), fileName, config, emission)
  {
    var err := WriteEach(fs, emission.writes);
    if err.Some? {
      return Err(FsFailure(err.value));
    }
    if emission.emitSkipped {
      return Err(EmitSkipped(EmitFailure(emission.diagnostics)));
    }
    if !emission.rootFound {
      return Err(NoSourceFile(fileName));
    }
    var artifact := ArtifactPath(fileName, config);
    if artifact == "" {
      return Err(NoArtifactPath(fileName));
    }
    var data := fs.ReadFileSync(artifact);
    match data
    case Err(e) => r := Err(FsFailure(e));
    case Ok(text) => r := Ok(text);
  }

  /** Acting on the compiler's report. */
  method Conclude(fs: Volume, fileName: string, config: Config, report: Report) returns (r: Result<string, TransformError>)
    requires fs.Valid()
    modifies fs
    ensures fs.Valid()
    ensures (r, fs.State()) == Concluded(old(fs.State()), fileName, config, report)
  {
    match report
    case Threw(e) => r := Err(HostFailure(e));
    case Reported(emission) => r := Emit(fs, fileName, config, emission);
  }

  /** `transformFile(file, options)`: works on `options.fs` when one is given and
      on a fresh empty volume otherwise; the compiler is the `compile` parameter. */
  method TransformFile(file: SourceFile, options: Options, compile: Compiler) returns (r: Result<string, TransformError>)
    requires Seedable(file, OrEmpty(options.sources), OrEmpty(options.mocks))
    requires options.fs.Some? ==> options.fs.value.Valid()
    modifies if options.fs.Some? then {options.fs.value} else {}
    ensures options.fs.Some? ==>
      && options.fs.value.Valid()
      && (r, options.fs.value.State()) == Transformed(old(options.fs.value.State()), file, options, compile)
    ensures options.fs.None? ==> r == Transformed(Empty(), file, options, compile).0
  {
    var fs: Volume;
    if options.fs.Some? {
      fs := options.fs.value;
    } else {
      fs := new Volume();
    }
    var err := Seed(fs, file, OrEmpty(options.sources), OrEmpty(options.mocks));
    if err.Some? {
      return Err(FsFailure(err.value));
    }
    var config := Merge(options.compilerOptions);
    r := Conclude(fs, file.path, config, compile(fs.State(), config, file.path, options.transform));
  }
}
