/** The `Transformer` builder: a chain of calls collects the project context
    (root file, sources, mocks, compiler options, transformers), and
    `transform` hands it to the transformation. Each adder appends to its list
    and each setter replaces its value; every call returns the builder itself.
    The value-level model is `Snapshot` with `Apply`, the object is
    `Transformer`, whose methods are proved against `Apply`. */
module Transformers {
  import opened Wrappers
  import opened MemFs
  import opened TransformFile

  /** The builder's fields at one moment. */
  datatype Snapshot = Snapshot(
    compilerOptions: Config,
    file: Option<SourceFile>,
    mocks: seq<ModuleDescriptor>,
    sources: seq<SourceFile>,
    transformers: seq<TransformRef>)

  /** A new builder: no options, no file, empty lists. */
  function Initial(): Snapshot
  {
    Snapshot(map[], None, [], [], [])
  }

  /** One builder call. */
  datatype Step =
    | MockStep(mock: ModuleDescriptor)
    | SourceStep(source: SourceFile)
    | TransformerStep(transformer: TransformRef)
    | OptionsStep(options: Config)
    | FileStep(root: SourceFile)

  /** What one call does to the fields. */
  function Apply(b: Snapshot, step: Step): Snapshot
  {
    match step
    case MockStep(m) => b.(mocks := b.mocks + [m])
    case SourceStep(f) => b.(sources := b.sources + [f])
    case TransformerStep(t) => b.(transformers := b.transformers + [t])
    case OptionsStep(c) => b.(compilerOptions := c)
    case FileStep(f) => b.(file := Some(f))
  }

  /** A chain of calls, first to last. */
  function Replay(b: Snapshot, steps: seq<Step>): Snapshot
    decreases |steps|
  {
    if steps == [] then b else Replay(Apply(b, steps[0]), steps[1..])
  }

  /** What a chain passes to one kind of adder, in call order. */
  function Picked<T>(steps: seq<Step>, pick: Step -> Option<T>): seq<T>
  {
    if steps == [] then []
    else (if pick(steps[0]).Some? then [pick(steps[0]).value] else []) + Picked(steps[1..], pick)
  }

  function MockOf(step: Step): Option<ModuleDescriptor>
  {
    if step.MockStep? then Some(step.mock) else None
  }

  function SourceOf(step: Step): Option<SourceFile>
  {
    if step.SourceStep? then Some(step.source) else None
  }

  function TransformerOf(step: Step): Option<TransformRef>
  {
    if step.TransformerStep? then Some(step.transformer) else None
  }

  /** The mocks a chain adds, in call order. */
  function MocksOf(steps: seq<Step>): seq<ModuleDescriptor>
  {
    Picked(steps, MockOf)
  }

  /** The sources a chain adds, in call order. */
  function SourcesOf(steps: seq<Step>): seq<SourceFile>
  {
    Picked(steps, SourceOf)
  }

  /** The transformers a chain adds, in call order. */
  function TransformersOf(steps: seq<Step>): seq<TransformRef>
  {
    Picked(steps, TransformerOf)
  }

  /** The position of the last `setFile` of a chain, searched from the end. */
  function LastSetFile(steps: seq<Step>): (r: Option<nat>)
    ensures r.Some? ==> r.value < |steps| && steps[r.value].FileStep?
    ensures r.Some? ==> forall j :: r.value < j < |steps| ==> !steps[j].FileStep?
    ensures r.None? ==> forall j :: 0 <= j < |steps| ==> !steps[j].FileStep?
    decreases |steps|
  {
    if steps == [] then None
    else if steps[|steps| - 1].FileStep? then Some(|steps| - 1)
    else LastSetFile(steps[..|steps| - 1])
  }

  /** The position of the last `setCompilerOptions` of a chain, searched from the end. */
  function LastSetOptions(steps: seq<Step>): (r: Option<nat>)
    ensures r.Some? ==> r.value < |steps| && steps[r.value].OptionsStep?
    ensures r.Some? ==> forall j :: r.value < j < |steps| ==> !steps[j].OptionsStep?
    ensures r.None? ==> forall j :: 0 <= j < |steps| ==> !steps[j].OptionsStep?
    decreases |steps|
  {
    if steps == [] then None
    else if steps[|steps| - 1].OptionsStep? then Some(|steps| - 1)
    else LastSetOptions(steps[..|steps| - 1])
  }

  /** A chain applied from its last call backwards: the last call is applied to
      what the calls before it built. */
  lemma {:induction false} ReplaySnoc(b: Snapshot, steps: seq<Step>, step: Step)
    ensures Replay(b, steps + [step]) == Apply(Replay(b, steps), step)
    decreases |steps|
  {
    if steps == [] {
      assert Replay(Apply(b, step), []) == Apply(b, step);
    } else {
      assert (steps + [step])[1..] == steps[1..] + [step];
      ReplaySnoc(Apply(b, steps[0]), steps[1..], step);
    }
  }

  /** The adders append: each list ends up as what it held, followed by what the
      chain added to it, in call order. */
  lemma {:induction false} ReplayAppends(b: Snapshot, steps: seq<Step>)
    ensures Replay(b, steps).mocks == b.mocks + MocksOf(steps)
    ensures Replay(b, steps).sources == b.sources + SourcesOf(steps)
    ensures Replay(b, steps).transformers == b.transformers + TransformersOf(steps)
    decreases |steps|
  {
    if steps != [] {
      var next := Apply(b, steps[0]);
      ReplayAppends(next, steps[1..]);
      var one := [steps[0]];
      ApplyAppends(b, steps[0]);
      assert steps == one + steps[1..];
      PickedAppend(one, steps[1..], MockOf);
      PickedAppend(one, steps[1..], SourceOf);
      PickedAppend(one, steps[1..], TransformerOf);
    }
  }

  /** One call appends to the lists what it adds. */
  lemma ApplyAppends(b: Snapshot, step: Step)
    ensures Apply(b, step).mocks == b.mocks + MocksOf([step])
    ensures Apply(b, step).sources == b.sources + SourcesOf([step])
    ensures Apply(b, step).transformers == b.transformers + TransformersOf([step])
  {
    PickedOne(step, MockOf);
    PickedOne(step, SourceOf);
    PickedOne(step, TransformerOf);
  }

  /** What one call passes to an adder. */
  lemma PickedOne<T>(step: Step, pick: Step -> Option<T>)
    ensures Picked([step], pick) == if pick(step).Some? then [pick(step).value] else []
  {
    assert [step][1..] == [];
  }

  /** What a chain adds is what its first part adds, then what its second part adds. */
  lemma {:induction false} PickedAppend<T>(xs: seq<Step>, ys: seq<Step>, pick: Step -> Option<T>)
    ensures Picked(xs + ys, pick) == Picked(xs, pick) + Picked(ys, pick)
    decreases |xs|
  {
    if xs == [] {
      assert xs + ys == ys;
    } else {
      var zs := xs + ys;
      assert zs[0] == xs[0] && zs[1..] == xs[1..] + ys;
      PickedAppend(xs[1..], ys, pick);
      var h := if pick(xs[0]).Some? then [pick(xs[0]).value] else [];
      assert Picked(zs, pick) == h + (Picked(xs[1..], pick) + Picked(ys, pick));
      assert Picked(xs, pick) == h + Picked(xs[1..], pick);
    }
  }

  /** The setters replace: the root file is the one given to the last `setFile`,
      and the options are those given to the last `setCompilerOptions`; without
      such a call the builder keeps what it had. */
  lemma {:induction false} ReplayLastSetWins(b: Snapshot, steps: seq<Step>)
    ensures Replay(b, steps).file ==
      if LastSetFile(steps).Some? then Some(steps[LastSetFile(steps).value].root) else b.file
    ensures Replay(b, steps).compilerOptions ==
      if LastSetOptions(steps).Some? then steps[LastSetOptions(steps).value].options else b.compilerOptions
    decreases |steps|
  {
    if steps != [] {
      var init := steps[..|steps| - 1];
      var last := steps[|steps| - 1];
      assert init + [last] == steps;
      ReplaySnoc(b, init, last);
      ReplayLastSetWins(b, init);
    }
  }

  /** Which builder method a call is. */
  function Kind(step: Step): nat
  {
    match step
    case MockStep(_) => 0
    case SourceStep(_) => 1
    case TransformerStep(_) => 2
    case OptionsStep(_) => 3
    case FileStep(_) => 4
  }

  /** Calls of different kinds commute; only the order among calls of one kind
      matters. */
  lemma ApplyCommutes(b: Snapshot, x: Step, y: Step)
    requires Kind(x) != Kind(y)
    ensures Apply(Apply(b, x), y) == Apply(Apply(b, y), x)
  {
  }

  /** The message `transform` throws when it has no root file. */
  const MissingInput := "transform must be called on Transformer with file or with string input"

  /** The root file of a string input. */
  const InputPath := "/index.ts"

  /** The root file `transform(input)` uses: a string input becomes `/index.ts`,
      otherwise the file given to `setFile`. */
  function RootFile(input: Option<string>, file: Option<SourceFile>): Option<SourceFile>
  {
    if input.Some? then Some(SourceFile(InputPath, input.value)) else file
  }

  /** What `transform` passes on besides the root file. */
  datatype Request = Request(
    compilerOptions: Config,
    mocks: seq<ModuleDescriptor>,
    sources: seq<SourceFile>,
    transforms: seq<TransformRef>)

  /** `transform(input)` on a builder whose fields are `b`; `run` is the
      transformation it delegates to. */
  function Transformation<T>(input: Option<string>, b: Snapshot, run: (SourceFile, Request) -> T): (r: Result<T, string>)
    ensures r.Err? <==> input.None? && b.file.None?
    ensures r.Err? ==> r.error == MissingInput
    ensures input.Some? ==> r == Ok(run(SourceFile(InputPath, input.value), Request(b.compilerOptions, b.mocks, b.sources, b.transformers)))
    ensures input.None? && b.file.Some? ==> r == Ok(run(b.file.value, Request(b.compilerOptions, b.mocks, b.sources, b.transformers)))
  {
    match RootFile(input, b.file)
    case None => Err(MissingInput)
    case Some(root) => Ok(run(root, Request(b.compilerOptions, b.mocks, b.sources, b.transformers)))
  }

  /** A string input overrides any `setFile`, and the empty string is an input
      like any other. */
  lemma InputOverridesFile<T>(text: string, b: Snapshot, root: SourceFile, run: (SourceFile, Request) -> T)
    ensures Transformation(Some(text), b.(file := Some(root)), run) == Transformation(Some(text), b.(file := None), run)
    ensures Transformation(Some(""), b, run).Ok?
  {
  }

  /** A chain that calls `setFile` can be transformed without an input, and it
      transforms the last file set, with everything the chain added. */
  lemma TransformAfterChain<T>(steps: seq<Step>, run: (SourceFile, Request) -> T)
    requires LastSetFile(steps).Some?
    ensures var b := Replay(Initial(), steps);
      Transformation(None, b, run) ==
        Ok(run(steps[LastSetFile(steps).value].root,
               Request(b.compilerOptions, MocksOf(steps), SourcesOf(steps), TransformersOf(steps))))
  {
    var b := Replay(Initial(), steps);
    ReplayAppends(Initial(), steps);
    ReplayLastSetWins(Initial(), steps);
    assert b.mocks == MocksOf(steps) && b.sources == SourcesOf(steps) && b.transformers == TransformersOf(steps);
    assert b.file == Some(steps[LastSetFile(steps).value].root);
  }

  /** The builder object. */
  class Transformer {
    var compilerOptions: Config
    var file: Option<SourceFile>
    var mocks: seq<ModuleDescriptor>
    var sources: seq<SourceFile>
    var transformers: seq<TransformRef>

    function Fields(): Snapshot
      reads this
    {
      Snapshot(compilerOptions, file, mocks, sources, transformers)
    }

    constructor ()
      ensures Fields() == Initial()
    {
      compilerOptions := map[];
      file := None;
      mocks := [];
      sources := [];
      transformers := [];
    }

    method AddMock(mock: ModuleDescriptor) returns (self: Transformer)
      modifies this
      ensures self == this
      ensures Fields() == Apply(old(Fields()), MockStep(mock))
    {
      mocks := mocks + [mock];
      self := this;
    }

    method AddSource(source: SourceFile) returns (self: Transformer)
      modifies this
      ensures self == this
      ensures Fields() == Apply(old(Fields()), SourceStep(source))
    {
      sources := sources + [source];
      self := this;
    }

    method AddTransformer(transformer: TransformRef) returns (self: Transformer)
      modifies this
      ensures self == this
      ensures Fields() == Apply(old(Fields()), TransformerStep(transformer))
    {
      transformers := transformers + [transformer];
      self := this;
    }

    method SetCompilerOptions(options: Config) returns (self: Transformer)
      modifies this
      ensures self == this
      ensures Fields() == Apply(old(Fields()), OptionsStep(options))
    {
      compilerOptions := options;
      self := this;
    }

    method SetFile(root: SourceFile) returns (self: Transformer)
      modifies this
      ensures self == this
      ensures Fields() == Apply(old(Fields()), FileStep(root))
    {
      file := Some(root);
      self := this;
    }

    /** `transform(input)`; `run` is the transformation it delegates to. */
    method Transform<T>(input: Option<string>, run: (SourceFile, Request) -> T) returns (r: Result<T, string>)
      ensures r == Transformation(input, Fields(), run)
    {
      var root := RootFile(input, file);
      if root.None? {
        return Err(MissingInput);
      }
      r := Ok(run(root.value, Request(compilerOptions, mocks, sources, transformers)));
    }
  }
}
