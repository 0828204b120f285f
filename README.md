# ts-transformer-testing-library, modelled in Dafny

The library compiles one TypeScript file inside an in-memory volume and applies
a caller's AST transform while it emits. This project models the part that
decides what ends up in the volume and what the caller gets back:

- **memfs helpers** (`src/memfs.ts`):
  - `mkdirp` creates every missing ancestor of a path, root to leaf.
  - `createFile` runs `mkdirp` on the file's directory, then `writeFileSync`.
  - `createModule` writes a mock package: its `index.ts` and a `package.json` made by `JSON.stringify`.
  - `list` lists every file below a directory, relative to a base.
  - `copy` replicates a listed tree into another volume.
- **`transformFile`** (`src/transform-file.ts`):
  - It seeds the volume: the root file, then the sources, then the mocks.
  - It spreads the caller's compiler options over fixed defaults.
  - It gives the resolver the importing file's directory and a fixed extension list.
  - It routes the compiler's output through a `writeFile` hook (`mkdirp`, then `writeFileSync`).
  - Its host hooks throw while the program is built when a module name resolves to no file or a source cannot be read.
  - It fails on a skipped emit with the diagnostics joined by newlines.
  - It reads back the artifact at the path `getFileArtifactPath` derives.
- **The `Transformer` builder** (`src/transformer.ts`):
  - The adders append and the setters replace; every call returns the builder.
  - `transform(input)` picks the root file (a string input becomes `/index.ts`) or fails with the fixed message.

The model is split into these modules:

- **`Vfs`**:
  - The volume is a `Volume` class whose fields its primitive calls update in place.
  - The functions on its value `Store` (`Mkdir`, `WriteFile`, `ReadFile`, `Readdir`) specify those calls.
- **`MemFs`**:
  - Each helper is a method on a `Volume`, proved equal to a function on `Store` (`AfterMkdirp`, `AfterCreateFile`, `AfterCreateModule`, `AfterCopy`).
  - `List` is a function, as in the source.
  - Lemmas prove what those functions guarantee.
- **`TransformFile`**:
  - The config merge and the artifact path are pure functions.
  - The driver is a method over a `Volume`.
  - The compiler is an opaque function parameter. It either reports that a host hook threw while the program was built, or reports the files it emits, whether emit was skipped, the diagnostics, and whether the root is a source file.
  - The hooks that can throw while the program is built, `resolveModuleNames` and `getSourceFile`, are functions with their failures (`ResolveModuleNames`, `SourceText`).
  - `Transformed` specifies the whole run. `Emitted` specifies the stage after the compiler has reported.
- **`Transformers`**:
  - The builder is a class. Each method is proved against `Apply` on a `Snapshot` value.
  - `Replay` of a chain of calls carries the append and last-set-wins lemmas.
- **`Paths`**, **`Arrays`**, **`Json`**: the parts of Node's `path`, `Array.prototype.filter` and `JSON.stringify` that the code relies on.

Paths are normalised absolute strings (`Paths.Abs`): a leading slash, no empty, `.` or `..` segment, and no trailing slash. Package names are normalised relative paths (`Paths.RelPath`). Listings return entries in creation order, because `readdirSync` with a `buffer` encoding does not sort. Throwing is modelled as an `Option` error or a `Result`. A sequence of volume calls stops at the first error and keeps the state reached so far (`Vfs.Effect`).

Behaviour as written, which the model follows:

- Emission fails only when `emitSkipped` is set. Diagnostics reported with a non-skipped emit do not stop the run.
- Nothing is rolled back on failure. Whatever was written before an error stays in a volume the caller passed in.
- A diagnostic whose `messageText` is a message chain is joined as `[object Object]`.
- The second `if (!inFile)` check (`src/transform-file.ts:186-188`) can never fire, because it repeats the check before it.
- The `fileArtifactPath` check can never fire either, because `ArtifactPath` is never empty (`TransformFile.EmittedOutcome`).

## Model

| member | source | states |
|---|---|---|
| Arrays.Filter | src/memfs.ts:25-26 | the kept elements are exactly the elements of the input that the predicate accepts, and there are no more of them than in the input |
| Arrays.FilterKeepsOrder | src/memfs.ts:23-26 | an order that holds between every earlier and later input element still holds between the kept ones, so `mkdirp`'s filters keep the prefixes root to leaf |
| Paths.JoinSplit | src/memfs.ts:21-24 | joining the fragments of `split("/")` gives back the path, so the last prefix `mkdirp` builds is the path itself |
| Paths.SplitJoin | src/transform-file.ts:174-177 | splitting a newline join of newline-free lines gives the lines back |
| Paths.DirnameInside | src/memfs.ts:40 | a non-root absolute path lies directly inside its `dirname`, which is absolute and strictly shorter |
| Paths.CombineDirnameBasename | src/transform-file.ts:100-103 | putting a path's basename back into its dirname rebuilds the path |
| Paths.CombineRelative | src/memfs.ts:32-33 | resolving a relative path against an absolute directory gives an absolute path inside it, and `relative` gives the relative path back |
| Paths.RelativeCombine | src/memfs.ts:58-64 | `path.relative` of a path inside a directory is relative, and resolving it against that directory gives the path back |
| Paths.StemExtname | src/transform-file.ts:204-205 | the stem followed by the extension is the basename, and the stem is non-empty and slash-free |
| Vfs.Mkdir | src/memfs.ts:27 | a failed `mkdirSync` leaves the volume as it was |
| Vfs.WriteFile | src/memfs.ts:41 | a failed `writeFileSync` leaves the volume as it was |
| Vfs.ReadFile | src/memfs.ts:35 | `readFileSync` succeeds exactly on a file and returns that file's contents |
| Vfs.Children | src/memfs.ts:55-56 | a directory's listing holds exactly the entries whose directory it is |
| Vfs.Readdir | src/memfs.ts:55-56 | `readdirSync` succeeds exactly on an existing directory |
| Vfs.MkdirPreserves | src/memfs.ts:27 | `mkdirSync` keeps every entry and keeps the volume well formed; it succeeds exactly when the path is missing and its directory is a directory, and then adds only that directory |
| Vfs.WriteFilePreserves | src/memfs.ts:41 | `writeFileSync` keeps every other entry and keeps the volume well formed; it succeeds exactly when the path is not a directory and its directory is a directory, and then the path holds exactly the data |
| Vfs.Volume.constructor | src/transform-file.ts:78-80 | a fresh volume holds only the root directory |
| Vfs.Volume.ExistsSync | src/memfs.ts:26 | `existsSync` is true exactly for an existing entry |
| Vfs.Volume.MkdirSync | src/memfs.ts:27 | the new state and error are those of `Mkdir`, and the volume stays valid |
| Vfs.Volume.WriteFileSync | src/memfs.ts:41 | the new state and error are those of `WriteFile`, and the volume stays valid |
| Vfs.Volume.ReadFileSync | src/memfs.ts:35 | the result is `ReadFile` of the current state |
| MemFs.PrefixesOfPath | src/memfs.ts:21-24 | the joined prefixes are path-prefixes of the path, each strictly longer than the ones before it, and the last one is the path |
| MemFs.MkdirpTargets | src/memfs.ts:21-26 | the directories `mkdirp` makes are exactly the non-empty prefixes of the path missing from the volume; they are absolute ancestors of the path, ordered root to leaf |
| MemFs.MkdirAllEffect | src/memfs.ts:27 | `mkdirSync` on each target keeps every existing entry and keeps the volume well formed; it adds only directories from the list, and on success all of them |
| MemFs.MkdirpKeepsExisting | src/memfs.ts:20-28 | `mkdirp` keeps every entry it found, and everything it adds is a directory on the way to the path |
| MemFs.MkdirpCreatesAncestors | src/memfs.ts:20-28 | after a successful `mkdirp`, every non-empty prefix of the path, the path included, exists |
| MemFs.MkdirpMakesDirs | src/memfs.ts:20-28 | after a successful `mkdirp`, every proper non-empty prefix of the path is a directory |
| MemFs.MkdirpIdempotent | src/memfs.ts:20-28 | a second `mkdirp` of the same path has nothing to create and changes nothing |
| MemFs.TargetParentReady | src/memfs.ts:24-27 | on a clear way, each target's directory already is a directory or is made earlier |
| MemFs.MkdirAllSucceeds | src/memfs.ts:27 | making missing directories, shortest first, each with its directory ready or made earlier, never fails |
| MemFs.MkdirAllFails | src/memfs.ts:27 | making directories fails when one of them has a file for its directory |
| MemFs.MkdirpSucceedsIff | src/memfs.ts:20-28 | `mkdirp` succeeds exactly when no proper prefix of the path is a file |
| MemFs.MissingPrefixes | src/memfs.ts:21-26 | asking `existsSync` of each non-empty prefix in turn keeps exactly the directories `MkdirpTargets` specifies for the volume |
| MemFs.Mkdirp | src/memfs.ts:20-28 | the targets found through `existsSync`, then `mkdirSync` on each in turn, leave the state and error `AfterMkdirp` specifies |
| MemFs.List | src/memfs.ts:52-56 | `list` fails exactly when the directory is missing or is a file |
| MemFs.ListTreeSound | src/memfs.ts:55-67 | every path listed is relative; resolved against the base it is a file below the listed directory |
| MemFs.ListEntriesSound | src/memfs.ts:57-67 | the same for the concatenated listings of a run of children |
| MemFs.ListTreeComplete | src/memfs.ts:55-67 | every file at any depth below the listed directory appears, relative to the base |
| MemFs.ListEntriesComplete | src/memfs.ts:57-67 | a file below one of a run of children appears in their concatenated listings |
| MemFs.ChildOnTheWay | src/memfs.ts:55-62 | a path below a directory is one of its children or lies below a child directory |
| MemFs.ListFilesBelow | src/memfs.ts:52-68 | `list(dir)` returns, relative to `dir`, every file below `dir` and nothing but files below it |
| MemFs.ListEmpty | src/memfs.ts:52-68 | a directory with no file below it lists as empty, not as an error |
| MemFs.CreateFileEffect | src/memfs.ts:39-42 | `createFile` keeps every other entry and adds only directories on the way to the file; on success the file holds exactly the data and all its ancestors are directories |
| MemFs.CreateFileFrame | src/memfs.ts:39-42 | `createFile` keeps every entry other than the file and keeps the volume well formed; anything new besides the file is a directory above it |
| MemFs.CreateFileWrites | src/memfs.ts:39-42 | after a successful `createFile` the file reads back as the data and every ancestor is a directory |
| MemFs.CreateFileSucceedsIff | src/memfs.ts:39-42 | `createFile` succeeds exactly when no ancestor of the file is a file and the file is not a directory |
| MemFs.CreateFileWritesOnly | src/memfs.ts:39-42 | `createFile` writes no file but its own and keeps every other entry |
| MemFs.CreateFile | src/memfs.ts:39-42 | `mkdirp` of the directory, then `writeFileSync`, leaves what `AfterCreateFile` specifies |
| MemFs.ModulePaths | src/memfs.ts:45-49 | the package directory and both package files are absolute; both files sit directly in the package directory and are different paths |
| MemFs.PackageFilesWrite | src/memfs.ts:48-49 | the two `createFile` calls write only the two package files; on success `index.ts` holds the content and `package.json` the manifest |
| MemFs.MkdirpWritesNothing | src/memfs.ts:45 | `mkdirp` writes no file and keeps every entry |
| MemFs.CreateModuleWrites | src/memfs.ts:44-50 | `createModule` writes exactly the package's `index.ts` and `package.json`, keeps every other entry, and on success they hold the content and the manifest |
| MemFs.CreateModule | src/memfs.ts:44-50 | the three calls leave what `AfterCreateModule` specifies |
| MemFs.CopyOneEffect | src/memfs.ts:32-35 | one copy step writes only its target; on success the source file exists and the target holds the same bytes |
| MemFs.CopyEachReplicates | src/memfs.ts:31-36 | the copy steps write only their targets, and on success each target holds its source's bytes |
| MemFs.CopyReplicates | src/memfs.ts:30-37 | a successful `copy` replicates every file below `from` at the same relative path below `to`, and writes nothing else |
| MemFs.CopyOne | src/memfs.ts:32-35 | one step on two volumes leaves what `AfterCopyOne` specifies |
| MemFs.Copy | src/memfs.ts:30-37 | the loop over the listing leaves the target volume as `AfterCopy` specifies |
| Json.ReadEscape | src/memfs.ts:49 | the escaped form of any string reads back as that string, leaving what follows its closing quote |
| Json.ReadQuote | src/memfs.ts:49 | a quoted string reads back as itself, whatever follows it |
| Json.ReadEscapedChar | src/memfs.ts:49 | each escaped character decodes to itself |
| Json.ReadManifestJson | src/memfs.ts:49 | a written `{name, main}` manifest reads back as the name and entry it was written with |
| Json.ReadPackageJson | src/memfs.ts:49 | a mock's `package.json` reads back as its name with `main` set to `./src/index.ts` |
| TransformFile.Merge | src/transform-file.ts:117-130 | the merged keys are the defaults' and the caller's; a supplied option wins, and any other default is kept |
| TransformFile.MergeNothing | src/transform-file.ts:129 | without options, or with an empty set, the defaults are used as they are |
| TransformFile.MergeKeepsDefaults | src/transform-file.ts:117-130 | options not supplied keep `/dist`, preserved JSX and no emit on error; a supplied option wins even when `undefined` |
| TransformFile.MergeIdempotent | src/transform-file.ts:117-130 | spreading a merged set over the defaults again changes nothing |
| TransformFile.DefaultOutput | src/transform-file.ts:118-128 | the defaults' output directory is `/dist`; they preserve JSX and emit nothing on error |
| TransformFile.ArtifactPathShape | src/transform-file.ts:199-211 | the artifact path is non-empty, its extension is `.jsx` exactly for a `.tsx` source with preserved JSX, its basename is the stem with that extension, and it lies in the output directory |
| TransformFile.PlaceArtifact | src/transform-file.ts:207-210 | a stem with `.js` or `.jsx` joined to a directory keeps that extension and basename and has that directory |
| TransformFile.ArtifactPathIgnoresDirectory | src/transform-file.ts:204-210 | two sources with the same basename have the same artifact path |
| TransformFile.DefaultArtifactPath | src/transform-file.ts:199-211 | with the default options, `<stem>.ts` maps to `/dist/<stem>.js` and `<stem>.tsx` to `/dist/<stem>.jsx` |
| TransformFile.ArtifactPathInDist | src/transform-file.ts:207-210 | with the output in `/dist` and JSX preserved, the artifact is `/dist/` followed by the stem and the artifact extension |
| TransformFile.ArtifactPathNonEmpty | src/transform-file.ts:190-194 | the artifact path is never empty |
| TransformFile.ResolverStartsBesideImporter | src/transform-file.ts:100-108 | the resolver's basedir is the directory the importer lies directly in; the extensions are `.js`, `.json`, `.node`, then `.tsx`, `.ts`, `.d.ts` |
| TransformFile.ResolveModuleNames | src/transform-file.ts:143-147 | on success one resolved file per name, in order, each the resolver's answer for that name with the importer's options; a failure names an imported name and the importer's directory |
| TransformFile.ResolveFailsAtFirstMissing | src/transform-file.ts:143-147 | resolution throws exactly when some name has no candidate, and then it names the first such name: every name before it resolved |
| TransformFile.SourceText | src/transform-file.ts:149-155 | for a normalised absolute name `getSourceFile` gets text exactly when the name is a file, that file's contents, and otherwise the read error |
| TransformFile.SourceTextRelative | src/transform-file.ts:152 | a relative name is read from the file of the same name below the root |
| TransformFile.SeededSourceText | src/transform-file.ts:110-152 | after a seeding that did not throw, `getSourceFile` reads each seeded file as it was last written |
| TransformFile.EmitFailureLines | src/transform-file.ts:174-178 | the error of a skipped emit, split at newlines, gives back the diagnostics' messages in report order |
| TransformFile.LastContent | src/transform-file.ts:110-115 | a path has a last write exactly when some write in the sequence has that path |
| TransformFile.OneFileWrites | src/transform-file.ts:110 | seeding the root writes only its path, and on success it holds the root's contents |
| TransformFile.CreateEachWrites | src/transform-file.ts:112-114 | the sources write only their paths, and on success each path holds the last source written to it |
| TransformFile.ModuleFilesWritten | src/transform-file.ts:115 | one mock writes only its two files, and on success they hold the content and the manifest |
| TransformFile.ModuleEachWrites | src/transform-file.ts:115 | the mocks write only their files, and on success each holds what the last mock to write it put there |
| TransformFile.SourcesThenMocks | src/transform-file.ts:112-115 | sources then mocks write only their paths, and on success each holds its last write |
| TransformFile.SeedOrder | src/transform-file.ts:110-115 | seeding writes the root, then the sources, then the mocks; each path holds its last write in that order, and nothing else is written |
| TransformFile.SeedLaterSourceWins | src/transform-file.ts:110-114 | a source with the root's path, written after the root, replaces the root's contents unless a mock writes that path |
| TransformFile.HookEachCreates | src/transform-file.ts:157-160 | when every emitted name is a normalised absolute path, the hook's writes are `createFile` of each emitted file |
| TransformFile.HookEachHolds | src/transform-file.ts:157-160 | after the hook's writes succeed, every emitted path holds its last emitted contents |
| TransformFile.EmittedOutcome | src/transform-file.ts:174-196 | a skipped emit fails with the joined diagnostics as its message; a missing root source fails with "Could not get SourceFile for" and the path; the "could not determine" error never occurs; a result is the artifact's contents in the final volume |
| TransformFile.EmittedReturnsLast | src/transform-file.ts:157-196 | when the compiler emits the artifact and nothing fails, the result is the last contents emitted to the artifact path |
| TransformFile.TransformedStages | src/transform-file.ts:110-172 | a failed seeding is the result; otherwise the compiler sees the seeded volume with the merged options and the seeded paths hold their last writes; a hook that throws while the program is built is the result and leaves the seeded volume; a report leads to what `Emitted` specifies |
| TransformFile.WriteHook | src/transform-file.ts:157-160 | `mkdirp` of the dirname, then `writeFileSync`, leaves what `HookWrite` specifies |
| TransformFile.WriteEach | src/transform-file.ts:162-172 | the emitted files go through the hook in order, stopping at the first that throws, as `HookEach` specifies |
| TransformFile.CreateSources | src/transform-file.ts:112-114 | the sources are created in order, as `CreateEach` specifies |
| TransformFile.CreateMocks | src/transform-file.ts:115 | the mocks are created in order, as `ModuleEach` specifies |
| TransformFile.Seed | src/transform-file.ts:110-115 | the root, the sources and the mocks, in that order, leave what `AfterSeed` specifies |
| TransformFile.Emit | src/transform-file.ts:157-196 | the writes, the emission checks and the read-back give the result and state `Emitted` specifies |
| TransformFile.Conclude | src/transform-file.ts:162-196 | a hook that threw while the program was built is the result and the volume is left as it is; a report goes through `Emit`, as `Concluded` specifies |
| TransformFile.TransformFile | src/transform-file.ts:74-197 | on the caller's volume, or on a fresh one when none is given, the result and final state are those of `Transformed` |
| Transformers.ReplaySnoc | src/transformer.ts:15-38 | a chain of calls is its last call applied to what the earlier calls built |
| Transformers.ReplayAppends | src/transformer.ts:15-28 | each list holds what it held, followed by what the chain added to it, in call order |
| Transformers.PickedAppend | src/transformer.ts:15-28 | what a chain adds to a list is what its first part adds, then what its second part adds |
| Transformers.ReplayLastSetWins | src/transformer.ts:30-38 | the root file and the options are those of the last `setFile` and the last `setCompilerOptions`, or unchanged without one |
| Transformers.ApplyCommutes | src/transformer.ts:15-38 | calls of different kinds commute |
| Transformers.Transformation | src/transformer.ts:41-56 | `transform` fails with the fixed message exactly when there is neither an input nor a file; a string input becomes `/index.ts` and overrides the file; the fields are passed on unchanged |
| Transformers.InputOverridesFile | src/transformer.ts:41-44 | a string input makes any `setFile` irrelevant, and the empty string is an input |
| Transformers.TransformAfterChain | src/transformer.ts:35-56 | a chain that called `setFile` transforms the last file set, with every mock, source and transformer the chain added |
| Transformers.Transformer.constructor | src/transformer.ts:9-13 | a new builder has no options, no file and empty lists |
| Transformers.Transformer.AddMock | src/transformer.ts:15-18 | appends the mock, returns the builder itself, and changes nothing else |
| Transformers.Transformer.AddSource | src/transformer.ts:20-23 | appends the source, returns the builder itself, and changes nothing else |
| Transformers.Transformer.AddTransformer | src/transformer.ts:25-28 | appends the transformer, returns the builder itself, and changes nothing else |
| Transformers.Transformer.SetCompilerOptions | src/transformer.ts:30-33 | replaces the options, returns the builder itself, and changes nothing else |
| Transformers.Transformer.SetFile | src/transformer.ts:35-38 | replaces the root file, returns the builder itself, and changes nothing else |
| Transformers.Transformer.Transform | src/transformer.ts:41-56 | the result is `Transformation` of the input and the current fields |

## Left out

- The TypeScript compiler is the opaque `TransformFile.Compiler` parameter. This covers `createCompilerHost`, `createProgram`, `emit`, `Ts.createSourceFile` and the transform factories. Its reported writes go through the `writeFile` hook after it has seen the seeded volume. Writes interleaved with its reads are not modelled.
- Which names the compiler resolves and which files it reads is not modelled. When a hook throws, the compiler reports `Threw` with a `HostError` of the kinds `ResolveModuleNames` and `SourceText` produce, but the parameter is not tied to those functions.
- The search inside `resolve.sync` is an opaque `Resolver` parameter of `TransformFile.ResolveModuleNames`. It gives `None` where the real resolver throws. The `isFile`, `isDirectory` and `readFileSync` wrappers handed to it are not modelled. Only the basedir and the extension list the harness passes are modelled.
- The copy of the real disk's default-library directory into `/node_modules/typescript/lib/` (`src/transform-file.ts:134-137`) is not modelled, because it reads the real disk. `MemFs.Copy` models `copy` itself.
- The host's `getDefaultLibLocation` and `fileExists` overrides are not modelled, because only the compiler calls them.
- Path normalisation (`.`, `..`, repeated or trailing slashes) is not modelled. Paths handed to the volume are required to be normalised and absolute, and package names normalised and relative (`Paths.DotsAreNotAbs`). So `createFile` of `/a/../x.ts`, which memfs would resolve to `/x.ts`, is outside the model.
- TransformFile.SourceText: refuses a name that is neither a normalised absolute nor a normalised relative path with `NoEntry`. `path.join` would normalise it first.
- TransformFile.HookWrite: refuses an emitted name that is not a normalised absolute path with `NoEntry`. The volume would normalise such a name and resolve it against its working directory.
- TransformFile.ArtifactPath: a relative output directory gives a relative artifact path. It is not resolved against a working directory.
- TransformFile.OutDir: a non-string `outDir` option is treated as missing, so `.` is used.
- MemFs.Copy: requires two different volumes. Copying a volume onto itself while listing it is not modelled.
- Json.ReadBody: rejects escapes of surrogate code units instead of pairing them. `JSON.stringify` never writes such escapes for the manifests modelled here.
- Transformers.Transformer.Transform: delegates to an opaque `run` with the root file and the fields. The source passes the transformers under a `transforms` key that `transformFile`'s options do not declare, so that link is not modelled.
- `src/transform-string.ts` and `src/transform.ts` are not part of this model.
- Builder operations that this revision of `src/transformer.ts` does not have (`addTransformers`, `setFilePath`) are not modelled.
- Volume internals (inodes, links, permissions, stat) are not modelled. `readdirSync` returns entries in creation order, which is the order the model's listings follow.
