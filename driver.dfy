/** The body of the `generate` command after the search paths are set and
    the modules are loaded: one buffer per module, skipped when empty,
    formatted and written with or without the file header, then one types
    file built from the registry in sorted key order. Files, the console
    and `go/format` are parameters; what the command writes is the list of
    units it hands to them, in order. */
module Driver {
  import opened Wrappers
  import opened Strings
  import opened Smi
  import opened Registry
  import opened Ordering
  import opened Fragments
  import opened Generate
  import opened Paths

  /** Where output goes, from the `-o` and `-d` flags. */
  datatype Output = Stdout | NamedFile(path: string) | PerModule(dir: string)

  /** `-o -` is standard output, an empty `-o` one file per module under
      `-d`, anything else that one file. */
  function OutputFor(outFilename: string, outDir: string): (o: Output)
    ensures o.PerModule? <==> outFilename == ""
    ensures o.Stdout? <==> outFilename == "-"
    ensures o.NamedFile? ==> o.path == outFilename
    ensures o.PerModule? ==> o.dir == outDir
  {
    if outFilename == "-" then Stdout
    else if outFilename != "" then NamedFile(outFilename)
    else PerModule(outDir)
  }

  /** What a write goes into. */
  datatype Target = StandardOutput | FileAt(path: string)

  /** Whose text a unit holds. */
  datatype Origin = FromModule(name: string) | FromTypes

  /** One `writeGoFile` call that got past formatting: the formatted body,
      preceded by the file header when `header` is set. */
  datatype Unit = Unit(target: Target, origin: Origin, header: bool, body: string)

  datatype RunError = ModuleFormatError(moduleName: string) | TypesFormatError

  /** The units written, and the error the command returned, if any. */
  datatype Outcome = Outcome(units: seq<Unit>, error: Option<RunError>)

  /** The command's surroundings: the literal renderers, `format.Source`
      (None when it reports an error), the output flags, and the system
      calls that `expandPath` also uses, `filepath.Join` among them. */
  datatype Env = Env(
    lit: Literals,
    format: string -> Option<string>,
    out: Output,
    host: Host)

  /** The header `writeGoFile` writes before a body when asked to. */
  function FileHeader(packageName: string): string
  {
    "// Code generated by mib2go. DO NOT EDIT.\npackage " + packageName
    + "\n\nimport (\n\t\"github.com/sleepinggenius2/gosmi/models\"\n\t\"github.com/sleepinggenius2/gosmi/types\"\n)\n\n"
  }

  /** The bytes one unit puts into its target. */
  function UnitText(packageName: string, u: Unit): string
  {
    (if u.header then FileHeader(packageName) else "") + u.body
  }

  function ModuleTarget(env: Env, moduleName: string): Target
  {
    match env.out
    case Stdout => StandardOutput
    case NamedFile(path) => FileAt(path)
    case PerModule(dir) => FileAt(env.host.join(dir, ToLower(moduleName) + ".go"))
  }

  function TypesTarget(env: Env): Target
  {
    match env.out
    case Stdout => StandardOutput
    case NamedFile(path) => FileAt(path)
    case PerModule(dir) => FileAt(env.host.join(dir, "types.go"))
  }

  /** A unit's bytes are the header, when it has one, followed by the
      formatted body and nothing else. */
  lemma UnitTextLayout(packageName: string, u: Unit)
    ensures var h := FileHeader(packageName);
      && (u.header ==> UnitText(packageName, u)[..|h|] == h && UnitText(packageName, u)[|h|..] == u.body)
      && (!u.header ==> UnitText(packageName, u) == u.body)
  {
  }

  /** With the output chosen from `-o` and `-d`: `-o -` sends everything
      to standard output, any other non-empty `-o` to that file, and an empty
      `-o` each module to `<lower-cased name>.go` and the types to
      `types.go`, both under `-d`. */
  lemma OutputTargets(env: Env, outFilename: string, outDir: string, moduleName: string)
    requires env.out == OutputFor(outFilename, outDir)
    ensures outFilename == "-" ==>
      ModuleTarget(env, moduleName) == StandardOutput && TypesTarget(env) == StandardOutput
    ensures outFilename != "-" && outFilename != "" ==>
      ModuleTarget(env, moduleName) == FileAt(outFilename) && TypesTarget(env) == FileAt(outFilename)
    ensures outFilename == "" ==>
      && ModuleTarget(env, moduleName) == FileAt(env.host.join(outDir, ToLower(moduleName) + ".go"))
      && TypesTarget(env) == FileAt(env.host.join(outDir, "types.go"))
  {
  }

  /** The text `generateMibFile` leaves in a module's buffer. */
  function ModuleText(lit: Literals, m: Module): string
    requires WellFormedModule(m)
  {
    Concat(MibFile(lit, m))
  }

  /** The types `generateMibFile` registers for one module. */
  function ModuleTypes(m: Module): seq<Type>
  {
    ReferencedTypes(EligibleNodes(m.nodes))
  }

  predicate ModulesWellFormed(modules: seq<Module>)
  {
    forall i :: 0 <= i < |modules| ==> WellFormedModule(modules[i])
  }

  /** A module after `generateMibFile`: its name, the text in its buffer
      and the uses of types it registered. */
  datatype Generated = Generated(name: string, text: string, types: seq<Type>)

  predicate NamedUses(g: Generated)
  {
    forall i :: 0 <= i < |g.types| ==> g.types[i].name != ""
  }

  /** The buffers of the modules, in load order. */
  function ModuleTexts(lit: Literals, modules: seq<Module>): (r: seq<string>)
    requires ModulesWellFormed(modules)
    ensures |r| == |modules|
    decreases |modules|
  {
    if modules == [] then [] else [ModuleText(lit, modules[0])] + ModuleTexts(lit, modules[1..])
  }

  lemma {:induction false} ModuleTextsAt(lit: Literals, modules: seq<Module>, i: nat)
    requires ModulesWellFormed(modules) && i < |modules|
    ensures ModuleTexts(lit, modules)[i] == ModuleText(lit, modules[i])
    decreases i
  {
    if i > 0 {
      ModuleTextsAt(lit, modules[1..], i - 1);
    }
  }

  /** The modules after `generateMibFile`, in load order. */
  function GenerateAll(lit: Literals, modules: seq<Module>): (r: seq<Generated>)
    requires ModulesWellFormed(modules)
    ensures |r| == |modules|
  {
    var texts := ModuleTexts(lit, modules);
    seq(|modules|, i requires 0 <= i < |modules| =>
      Generated(modules[i].name, texts[i], ModuleTypes(modules[i])))
  }

  /** A module's buffer is empty exactly when it has no eligible node, and
      every type it registers has a name. */
  lemma GenerateAllAt(lit: Literals, modules: seq<Module>, i: nat)
    requires ModulesWellFormed(modules) && i < |modules|
    ensures var g := GenerateAll(lit, modules)[i];
      && g.name == modules[i].name
      && (g.text == [] <==> EligibleNodes(modules[i].nodes) == [])
      && NamedUses(g)
  {
    ModuleTextsAt(lit, modules, i);
    MibFileEmptyIff(lit, modules[i]);
    ReferencedTypesNamed(EligibleNodes(modules[i].nodes));
  }

  predicate AllNamedUses(gs: seq<Generated>)
  {
    forall i :: 0 <= i < |gs| ==> NamedUses(gs[i])
  }

  lemma GenerateAllNamed(lit: Literals, modules: seq<Module>)
    requires ModulesWellFormed(modules)
    ensures AllNamedUses(GenerateAll(lit, modules))
  {
    forall i | 0 <= i < |modules| ensures NamedUses(GenerateAll(lit, modules)[i]) {
      GenerateAllAt(lit, modules, i);
    }
  }

  // ------------------------------------------------------- the module loop

  /** The variables of the module loop: `firstModule`, `typesMap`, what has
      been written, and the error that ended the loop. */
  datatype State = State(firstModule: bool, types: map<string, Type>, units: seq<Unit>, error: Option<RunError>)

  /** One iteration: the module's types are registered even when it turns
      out to be empty; an empty buffer is skipped without using up the
      header of a shared output; otherwise the header is written for a file
      of its own or for the first module, and a format failure ends the
      loop with an error. */
  function Step(env: Env, s: State, g: Generated): State
  {
    var types := RegisterAll(s.types, g.types);
    if |g.text| == 0 then s.(types := types)
    else
      var header := env.out.PerModule? || s.firstModule;
      match env.format(g.text)
      case None => State(false, types, s.units, Some(ModuleFormatError(g.name)))
      case Some(body) => State(false, types, s.units + [Unit(ModuleTarget(env, g.name), FromModule(g.name), header, body)], None)
  }

  /** The module loop from state `s`, stopping at the first error. */
  function RunFrom(env: Env, s: State, gs: seq<Generated>): State
    decreases |gs|
  {
    if s.error.Some? || gs == [] then s
    else RunFrom(env, Step(env, s, gs[0]), gs[1..])
  }

  const Initial: State := State(true, map[], [], None)

  /** The type blocks of the registry in sorted key order. */
  ghost function TypesText(lit: Literals, types: map<string, Type>): string
    requires ValidTypes(types)
  {
    Concat(TypesFile(lit, types, SortedKeys(types.Keys)))
  }

  /** The module loop over the loaded modules. */
  function RunModules(env: Env, modules: seq<Module>): State
    requires ModulesWellFormed(modules)
  {
    RunFrom(env, Initial, GenerateAll(env.lit, modules))
  }

  /** After the module loop: unless it failed, the types unit, headed only
      when every module has a file of its own. */
  ghost function Finish(env: Env, s: State): Outcome
    requires s.error.None? ==> ValidTypes(s.types)
  {
    if s.error.Some? then Outcome(s.units, s.error)
    else
      match env.format(TypesText(env.lit, s.types))
      case None => Outcome(s.units, Some(TypesFormatError))
      case Some(body) => Outcome(s.units + [Unit(TypesTarget(env), FromTypes, env.out.PerModule?, body)], None)
  }

  /** The whole command: the module loop, then the types unit. */
  ghost function RunSpec(env: Env, modules: seq<Module>): Outcome
    requires ModulesWellFormed(modules)
  {
    GenerateAllNamed(env.lit, modules);
    RunFromValid(env, Initial, GenerateAll(env.lit, modules));
    Finish(env, RunModules(env, modules))
  }

  // ------------------------------------------------------------ the method

  /** One module of the loop, from a state that has not failed. */
  lemma RunFromStep(env: Env, s: State, gs: seq<Generated>, i: nat)
    requires i < |gs| && s.error.None?
    ensures RunFrom(env, s, gs[i..]) == RunFrom(env, Step(env, s, gs[i]), gs[i + 1..])
  {
    assert gs[i..][0] == gs[i] && gs[i..][1..] == gs[i + 1..];
  }

  /** After an error the loop does nothing more. */
  lemma RunFromFailed(env: Env, s: State, gs: seq<Generated>)
    requires s.error.Some?
    ensures RunFrom(env, s, gs) == s
  {
  }

  /** One module's buffer, generated against the shared registry. */
  method GenerateModule(lit: Literals, modules: seq<Module>, i: nat, reg: TypeRegistry) returns (text: string)
    requires ModulesWellFormed(modules) && i < |modules| && reg.Valid()
    modifies reg
    ensures reg.Valid()
    ensures text == GenerateAll(lit, modules)[i].text
    ensures reg.types == RegisterAll(old(reg.types), GenerateAll(lit, modules)[i].types)
  {
    ModuleTextsAt(lit, modules, i);
    var fileBuf := new Buffer();
    GenerateMibFile(fileBuf, lit, modules[i], reg);
    assert fileBuf.frags == MibFile(lit, modules[i]);
    text := fileBuf.Bytes();
  }

  /** The loop of the command over the loaded modules: each module's buffer
      is generated against the shared registry, empty buffers are skipped,
      the others are formatted and written, and the first format failure
      ends the loop. */
  method GenerateModules(env: Env, modules: seq<Module>, reg: TypeRegistry)
    returns (units: seq<Unit>, error: Option<RunError>)
    requires ModulesWellFormed(modules) && reg.Valid()
    modifies reg
    ensures reg.Valid()
    ensures var s := RunFrom(env, State(true, old(reg.types), [], None), GenerateAll(env.lit, modules));
      s.types == reg.types && s.units == units && s.error == error
  {
    ghost var gs := GenerateAll(env.lit, modules);
    ghost var target := RunFrom(env, State(true, reg.types, [], None), gs);
    var firstModule := true;
    units := [];
    for i := 0 to |modules|
      invariant reg.Valid()
      invariant RunFrom(env, State(firstModule, reg.types, units, None), gs[i..]) == target
    {
      var m := modules[i];
      ghost var s := State(firstModule, reg.types, units, None);
      RunFromStep(env, s, gs, i);
      var text := GenerateModule(env.lit, modules, i, reg);
      if |text| == 0 {
        continue;
      }
      var writeHeader := env.out.PerModule? || firstModule;
      firstModule := false;
      var formatted := env.format(text);
      if formatted.None? {
        RunFromFailed(env, Step(env, s, gs[i]), gs[i + 1..]);
        return units, Some(ModuleFormatError(m.name));
      }
      units := units + [Unit(ModuleTarget(env, m.name), FromModule(m.name), writeHeader, formatted.value)];
    }
    assert gs[|modules|..] == [];
    error := None;
  }

  lemma TypesFileStep(lit: Literals, types: map<string, Type>, keys: seq<string>, k: nat)
    requires ValidTypes(types) && k < |keys|
    requires forall i :: 0 <= i < |keys| ==> keys[i] in types
    ensures TypesFile(lit, types, keys[k..]) == TypeBlock(lit, types[keys[k]], true) + TypesFile(lit, types, keys[k + 1..])
  {
    assert keys[k..][0] == keys[k] && keys[k..][1..] == keys[k + 1..];
  }

  /** The loop over the sorted keys, one `var ...Type` block per key. */
  method GenerateTypeBlocks(lit: Literals, types: map<string, Type>, keys: seq<string>) returns (text: string)
    requires ValidTypes(types)
    requires forall i :: 0 <= i < |keys| ==> keys[i] in types
    ensures text == Concat(TypesFile(lit, types, keys))
  {
    var typesBuf := new Buffer();
    for k := 0 to |keys|
      invariant typesBuf.frags + TypesFile(lit, types, keys[k..]) == TypesFile(lit, types, keys)
    {
      TypesFileStep(lit, types, keys, k);
      ghost var pre := typesBuf.frags;
      GenerateTypeBlock(typesBuf, lit, types[keys[k]], true);
      Regroup(pre, TypeBlock(lit, types[keys[k]], true), TypesFile(lit, types, keys[k + 1..]));
    }
    assert keys[|keys|..] == [];
    assert TypesFile(lit, types, keys[|keys|..]) == [];
    assert typesBuf.frags == TypesFile(lit, types, keys);
    text := typesBuf.Bytes();
  }

  /** The types buffer: one block per registered name, in sorted order. */
  method GenerateTypes(lit: Literals, reg: TypeRegistry) returns (text: string)
    requires reg.Valid()
    ensures text == TypesText(lit, reg.types)
  {
    var typeKeys := reg.Flush();
    text := GenerateTypeBlocks(lit, reg.types, typeKeys);
  }

  /** The command body over the loaded modules. */
  method Run(env: Env, modules: seq<Module>) returns (r: Outcome)
    requires ModulesWellFormed(modules)
    ensures r == RunSpec(env, modules)
  {
    var reg := new TypeRegistry();
    var units, error := GenerateModules(env, modules, reg);
    if error.Some? {
      return Outcome(units, error);
    }
    var typesText := GenerateTypes(env.lit, reg);
    var formatted := env.format(typesText);
    if formatted.None? {
      return Outcome(units, Some(TypesFormatError));
    }
    r := Outcome(units + [Unit(TypesTarget(env), FromTypes, env.out.PerModule?, formatted.value)], None);
  }

  // ------------------------------------------------------------ properties

  /** The registry stays valid through the loop. */
  lemma {:induction false} RunFromValid(env: Env, s: State, gs: seq<Generated>)
    requires AllNamedUses(gs) && ValidTypes(s.types)
    ensures ValidTypes(RunFrom(env, s, gs).types)
    decreases |gs|
  {
    if s.error.None? && gs != [] {
      RegisterAllValid(s.types, gs[0].types);
      RunFromValid(env, Step(env, s, gs[0]), gs[1..]);
    }
  }

  /** What the loop keeps true of the units written so far: all come from
      modules, each goes to its module's target, and the header is set on
      every unit of a file per module, and only on the first unit of a
      shared output, which is written exactly when `firstModule` drops. */
  predicate LoopConsistent(env: Env, s: State)
  {
    && (forall i :: 0 <= i < |s.units| ==> s.units[i].origin.FromModule?)
    && (forall i :: 0 <= i < |s.units| ==> s.units[i].target == ModuleTarget(env, s.units[i].origin.name))
    && (env.out.PerModule? ==> forall i :: 0 <= i < |s.units| ==> s.units[i].header)
    && (!env.out.PerModule? ==> forall i :: 0 <= i < |s.units| ==> (s.units[i].header <==> i == 0))
    && (s.error.None? ==> (s.firstModule <==> s.units == []))
  }

  lemma StepConsistent(env: Env, s: State, g: Generated)
    requires LoopConsistent(env, s) && s.error.None?
    ensures LoopConsistent(env, Step(env, s, g))
  {
    if |g.text| > 0 && env.format(g.text).Some? {
      var next := Step(env, s, g);
      assert forall i :: 0 <= i < |s.units| ==> next.units[i] == s.units[i];
    }
  }

  lemma {:induction false} RunFromConsistent(env: Env, s: State, gs: seq<Generated>)
    requires LoopConsistent(env, s)
    ensures LoopConsistent(env, RunFrom(env, s, gs))
    decreases |gs|
  {
    if s.error.None? && gs != [] {
      StepConsistent(env, s, gs[0]);
      RunFromConsistent(env, Step(env, s, gs[0]), gs[1..]);
    }
  }

  /** After the loop: its units, followed by the types unit when neither
      the loop nor the formatting of the types failed. */
  lemma FinishShape(env: Env, s: State)
    requires s.error.None? ==> ValidTypes(s.types)
    ensures var r := Finish(env, s);
      && |s.units| <= |r.units| <= |s.units| + 1
      && (forall i :: 0 <= i < |s.units| ==> r.units[i] == s.units[i])
      && (|r.units| == |s.units| + 1 <==> r.error.None?)
      && (s.error.Some? ==> r.error == s.error)
      && (r.error.None? ==> && r.units[|s.units|].origin == FromTypes
                            && r.units[|s.units|].header == env.out.PerModule?
                            && r.units[|s.units|].target == TypesTarget(env)
                            && Some(r.units[|s.units|].body) == env.format(TypesText(env.lit, s.types)))
  {
  }

  /** `r` holds the loop's units, followed by the types unit exactly when
      `r` reports no error. */
  predicate FollowsLoop(env: Env, s: State, r: Outcome)
  {
    && |s.units| <= |r.units| <= |s.units| + 1
    && (forall i :: 0 <= i < |s.units| ==> r.units[i] == s.units[i])
    && (|r.units| == |s.units| + 1 <==> r.error.None?)
    && (r.error.None? ==> && r.units[|s.units|].origin == FromTypes
                          && r.units[|s.units|].header == env.out.PerModule?
                          && r.units[|s.units|].target == TypesTarget(env))
  }

  /** The outcome is the loop's units, followed by the types unit when
      neither the loop nor the formatting of the types failed. */
  lemma RunSpecShape(env: Env, modules: seq<Module>)
    requires ModulesWellFormed(modules)
    ensures FollowsLoop(env, RunModules(env, modules), RunSpec(env, modules))
  {
    var s := RunModules(env, modules);
    GenerateAllNamed(env.lit, modules);
    RunFromValid(env, Initial, GenerateAll(env.lit, modules));
    assert RunSpec(env, modules) == Finish(env, s);
    FinishShape(env, s);
  }

  /** The header rule on a shared output or on a file per module. */
  predicate HeadersAsDesigned(env: Env, r: Outcome)
  {
    && (env.out.PerModule? ==> forall i :: 0 <= i < |r.units| ==> r.units[i].header)
    && (!env.out.PerModule? ==> forall i :: 0 <= i < |r.units| ==>
          (r.units[i].header <==> i == 0 && r.units[i].origin.FromModule?))
  }

  /** Every module unit goes to its module's target, and the types unit,
      if written, is last and goes to the types target. */
  predicate TargetsAsDesigned(env: Env, r: Outcome)
  {
    && (forall i :: 0 <= i < |r.units| && r.units[i].origin.FromModule? ==>
          r.units[i].target == ModuleTarget(env, r.units[i].origin.name))
    && (forall i :: 0 <= i < |r.units| && r.units[i].origin.FromTypes? ==>
          i == |r.units| - 1 && r.units[i].target == TypesTarget(env))
  }

  lemma FollowsConsistentLoop(env: Env, s: State, r: Outcome)
    requires LoopConsistent(env, s) && FollowsLoop(env, s, r)
    ensures HeadersAsDesigned(env, r) && TargetsAsDesigned(env, r)
    ensures r.error.Some? ==> forall i :: 0 <= i < |r.units| ==> r.units[i].origin.FromModule?
  {
    var k := |s.units|;
    forall i | 0 <= i < |r.units|
      ensures !env.out.PerModule? ==> (r.units[i].header <==> i == 0 && r.units[i].origin.FromModule?)
    {
      if i < k {
        assert r.units[i] == s.units[i];
      } else {
        assert i == k && r.units[i].origin == FromTypes;
      }
    }
  }

  /** The header rule: with a file per module every unit, the types unit
      included, starts with the header; with a shared output only the first
      unit does, and only when a module wrote it; a types unit on a shared
      output never has it. Every module unit goes to its module's target,
      and the types unit, if written, is last. */
  lemma HeaderRule(env: Env, modules: seq<Module>)
    requires ModulesWellFormed(modules)
    ensures HeadersAsDesigned(env, RunSpec(env, modules))
    ensures TargetsAsDesigned(env, RunSpec(env, modules))
  {
    RunFromConsistent(env, Initial, GenerateAll(env.lit, modules));
    RunSpecShape(env, modules);
    FollowsConsistentLoop(env, RunModules(env, modules), RunSpec(env, modules));
  }

  /** An error ends the command before the types unit is written. */
  lemma ErrorStopsOutput(env: Env, modules: seq<Module>)
    requires ModulesWellFormed(modules)
    ensures var r := RunSpec(env, modules);
      r.error.Some? ==> forall i :: 0 <= i < |r.units| ==> r.units[i].origin.FromModule?
  {
    RunFromConsistent(env, Initial, GenerateAll(env.lit, modules));
    RunSpecShape(env, modules);
    FollowsConsistentLoop(env, RunModules(env, modules), RunSpec(env, modules));
  }

  // ------------------------------------------------------ which modules

  /** The origins of a sequence of units, in order. */
  function Origins(units: seq<Unit>): (r: seq<Origin>)
    ensures |r| == |units|
    ensures forall i :: 0 <= i < |units| ==> r[i] == units[i].origin
  {
    seq(|units|, i requires 0 <= i < |units| => units[i].origin)
  }

  /** The modules that have eligible nodes, in load order. */
  function WrittenModules(modules: seq<Module>): seq<Origin>
  {
    if modules == [] then []
    else
      (if EligibleNodes(modules[0].nodes) != [] then [FromModule(modules[0].name)] else [])
      + WrittenModules(modules[1..])
  }

  /** The generated modules whose buffers are not empty, in order. */
  function NonEmptyBuffers(gs: seq<Generated>): seq<Origin>
  {
    if gs == [] then []
    else (if gs[0].text != [] then [FromModule(gs[0].name)] else []) + NonEmptyBuffers(gs[1..])
  }

  lemma NonEmptyBuffersOfModules(lit: Literals, modules: seq<Module>)
    requires ModulesWellFormed(modules)
    ensures NonEmptyBuffers(GenerateAll(lit, modules)) == WrittenModules(modules)
  {
    NonEmptyBuffersFrom(lit, modules, 0);
    assert GenerateAll(lit, modules)[0..] == GenerateAll(lit, modules);
    assert modules[0..] == modules;
  }

  lemma {:induction false} NonEmptyBuffersFrom(lit: Literals, modules: seq<Module>, k: nat)
    requires ModulesWellFormed(modules) && k <= |modules|
    ensures NonEmptyBuffers(GenerateAll(lit, modules)[k..]) == WrittenModules(modules[k..])
    decreases |modules| - k
  {
    if k < |modules| {
      var gs := GenerateAll(lit, modules);
      GenerateAllAt(lit, modules, k);
      NonEmptyBuffersFrom(lit, modules, k + 1);
      assert gs[k..][0] == gs[k] && gs[k..][1..] == gs[k + 1..];
      assert modules[k..][0] == modules[k] && modules[k..][1..] == modules[k + 1..];
    }
  }

  lemma OriginsSnoc(units: seq<Unit>, u: Unit)
    ensures Origins(units + [u]) == Origins(units) + [u.origin]
  {
  }

  /** When formatting never fails, the loop writes one unit for each
      non-empty buffer, in order, and skips the others. */
  lemma {:induction false} RunFromWritesNonEmpty(env: Env, s: State, gs: seq<Generated>)
    requires s.error.None?
    requires forall text :: env.format(text).Some?
    ensures RunFrom(env, s, gs).error.None?
    ensures Origins(RunFrom(env, s, gs).units) == Origins(s.units) + NonEmptyBuffers(gs)
    decreases |gs|
  {
    if gs != [] {
      var g := gs[0];
      var next := Step(env, s, g);
      RunFromWritesNonEmpty(env, next, gs[1..]);
      var mine := if g.text != [] then [FromModule(g.name)] else [];
      if |g.text| > 0 {
        OriginsSnoc(s.units, next.units[|next.units| - 1]);
      }
      assert Origins(next.units) == Origins(s.units) + mine;
      Regroup(Origins(s.units), mine, NonEmptyBuffers(gs[1..]));
    }
  }

  /** For any formatter: the loop writes a prefix of the non-empty buffers. */
  lemma {:induction false} RunFromWritesPrefix(env: Env, s: State, gs: seq<Generated>)
    requires s.error.None?
    ensures var r := RunFrom(env, s, gs);
      var n := |r.units| - |s.units|;
      && 0 <= n <= |NonEmptyBuffers(gs)|
      && Origins(r.units) == Origins(s.units) + NonEmptyBuffers(gs)[..n]
    decreases |gs|
  {
    if gs != [] {
      var g := gs[0];
      var next := Step(env, s, g);
      var mine := if g.text != [] then [FromModule(g.name)] else [];
      var rest := NonEmptyBuffers(gs[1..]);
      assert NonEmptyBuffers(gs) == mine + rest;
      assert RunFrom(env, s, gs) == RunFrom(env, next, gs[1..]);
      if next.error.Some? {
        RunFromFailed(env, next, gs[1..]);
        assert next.units == s.units;
      } else {
        RunFromWritesPrefix(env, next, gs[1..]);
        if |g.text| > 0 {
          OriginsSnoc(s.units, next.units[|next.units| - 1]);
        }
        assert Origins(next.units) == Origins(s.units) + mine;
        var r := RunFrom(env, next, gs[1..]);
        var k := |r.units| - |next.units|;
        PrefixShift(Origins(s.units), mine, rest, k);
        assert |r.units| - |s.units| == |mine| + k;
      }
    }
  }

  /** The loop writes all the non-empty buffers exactly when it ends
      without error; a format error names the first one it did not write. */
  lemma {:induction false} RunFromStopsAtFailure(env: Env, s: State, gs: seq<Generated>)
    requires s.error.None?
    ensures var r := RunFrom(env, s, gs);
      var n := |r.units| - |s.units|;
      var ne := NonEmptyBuffers(gs);
      && 0 <= n <= |ne|
      && (r.error.None? <==> n == |ne|)
      && (r.error.Some? ==> r.error.value.ModuleFormatError? && ne[n] == FromModule(r.error.value.moduleName))
    decreases |gs|
  {
    if gs != [] {
      var g := gs[0];
      var next := Step(env, s, g);
      var mine := if g.text != [] then [FromModule(g.name)] else [];
      var rest := NonEmptyBuffers(gs[1..]);
      assert NonEmptyBuffers(gs) == mine + rest;
      assert RunFrom(env, s, gs) == RunFrom(env, next, gs[1..]);
      if next.error.Some? {
        RunFromFailed(env, next, gs[1..]);
        assert next.units == s.units && mine == [FromModule(g.name)];
      } else {
        RunFromStopsAtFailure(env, next, gs[1..]);
        assert |next.units| == |s.units| + |mine|;
        var r := RunFrom(env, next, gs[1..]);
        PrefixShift(Origins(s.units), mine, rest, |r.units| - |next.units|);
      }
    }
  }

  /** Writing `mine` and then a prefix of `rest` writes a prefix of both. */
  lemma PrefixShift<T>(a: seq<T>, mine: seq<T>, rest: seq<T>, k: nat)
    requires k <= |rest|
    ensures (a + mine) + rest[..k] == a + (mine + rest)[..|mine| + k]
    ensures k < |rest| ==> (mine + rest)[|mine| + k] == rest[k]
  {
    assert (mine + rest)[..|mine| + k] == mine + rest[..k];
  }

  /** The same for the whole command over any generated modules: with no
      error, the non-empty buffers then the types unit; when formatting
      the types fails, the non-empty buffers alone; when formatting a module
      fails, a proper prefix of them, that module being the first missing. */
  lemma WritesPrefix(env: Env, gs: seq<Generated>)
    requires AllNamedUses(gs)
    ensures (RunFromValid(env, Initial, gs);
      var r := Finish(env, RunFrom(env, Initial, gs));
      var ne := NonEmptyBuffers(gs);
      && (r.error.None? ==> Origins(r.units) == ne + [FromTypes])
      && (r.error == Some(TypesFormatError) ==> Origins(r.units) == ne)
      && (r.error.Some? && r.error.value.ModuleFormatError? ==>
            && |r.units| < |ne|
            && Origins(r.units) == ne[..|r.units|]
            && ne[|r.units|] == FromModule(r.error.value.moduleName)))
  {
    RunFromValid(env, Initial, gs);
    var s := RunFrom(env, Initial, gs);
    var ne := NonEmptyBuffers(gs);
    RunFromWritesPrefix(env, Initial, gs);
    RunFromStopsAtFailure(env, Initial, gs);
    assert Origins(s.units) == ne[..|s.units|] by {
      assert Origins(Initial.units) == [];
    }
    FinishShape(env, s);
    var r := Finish(env, s);
    if s.error.None? {
      assert ne[..|s.units|] == ne;
      if r.error.None? {
        assert r.units == s.units + [r.units[|s.units|]];
        OriginsSnoc(s.units, r.units[|s.units|]);
      } else {
        assert r.units == s.units;
      }
    }
  }

  /** Whatever `format.Source` does, the modules written are the modules
      with eligible nodes in load order, all of them unless formatting a
      module failed; then they stop right before the first module with
      eligible nodes that failed, its header included, and no types unit
      follows. */
  lemma ModulesWrittenUntilFailure(env: Env, modules: seq<Module>)
    requires ModulesWellFormed(modules)
    ensures var r := RunSpec(env, modules);
      var w := WrittenModules(modules);
      && (r.error.None? ==> Origins(r.units) == w + [FromTypes])
      && (r.error == Some(TypesFormatError) ==> Origins(r.units) == w)
      && (r.error.Some? && r.error.value.ModuleFormatError? ==>
            && |r.units| < |w|
            && Origins(r.units) == w[..|r.units|]
            && w[|r.units|] == FromModule(r.error.value.moduleName))
  {
    var gs := GenerateAll(env.lit, modules);
    GenerateAllNamed(env.lit, modules);
    NonEmptyBuffersOfModules(env.lit, modules);
    WritesPrefix(env, gs);
    RunFromValid(env, Initial, gs);
    assert RunSpec(env, modules) == Finish(env, RunFrom(env, Initial, gs));
  }

  /** When formatting never fails, the command writes the modules with
      eligible nodes, in order, then the types unit, and reports no error. */
  lemma EveryNonEmptyModuleWritten(env: Env, modules: seq<Module>)
    requires ModulesWellFormed(modules)
    requires forall text :: env.format(text).Some?
    ensures RunSpec(env, modules).error.None?
    ensures Origins(RunSpec(env, modules).units) == WrittenModules(modules) + [FromTypes]
  {
    var gs := GenerateAll(env.lit, modules);
    GenerateAllNamed(env.lit, modules);
    NonEmptyBuffersOfModules(env.lit, modules);
    RunWritesNonEmpty(env, gs);
    RunFromValid(env, Initial, gs);
    assert RunSpec(env, modules) == Finish(env, RunFrom(env, Initial, gs));
  }

  /** The same over any generated modules: one unit per non-empty buffer,
      then the types unit. */
  lemma RunWritesNonEmpty(env: Env, gs: seq<Generated>)
    requires AllNamedUses(gs)
    requires forall text :: env.format(text).Some?
    ensures (RunFromValid(env, Initial, gs);
      && Finish(env, RunFrom(env, Initial, gs)).error.None?
      && Origins(Finish(env, RunFrom(env, Initial, gs)).units) == NonEmptyBuffers(gs) + [FromTypes])
  {
    RunFromValid(env, Initial, gs);
    var s := RunFrom(env, Initial, gs);
    RunFromWritesNonEmpty(env, Initial, gs);
    assert Origins(s.units) == NonEmptyBuffers(gs) by {
      assert Origins(Initial.units) == [];
    }
    FinishOrigins(env, s);
  }

  /** When formatting never fails, the types unit follows the loop's units. */
  lemma FinishOrigins(env: Env, s: State)
    requires s.error.None? && ValidTypes(s.types)
    requires forall text :: env.format(text).Some?
    ensures Finish(env, s).error.None?
    ensures Origins(Finish(env, s).units) == Origins(s.units) + [FromTypes]
  {
    FinishShape(env, s);
    var r := Finish(env, s);
    assert r.units == s.units + [r.units[|s.units|]];
    OriginsSnoc(s.units, r.units[|s.units|]);
  }

  lemma {:induction false} NoWrittenModules(modules: seq<Module>)
    requires forall i :: 0 <= i < |modules| ==> EligibleNodes(modules[i].nodes) == []
    ensures WrittenModules(modules) == []
    decreases |modules|
  {
    if modules != [] {
      NoWrittenModules(modules[1..]);
    }
  }

  /** On a shared output where no module has an eligible node, nothing the
      command writes carries the file header, whatever `format.Source` does:
      at most the types unit is written, and it never has one there. When
      formatting never fails, that unit is written. */
  lemma SharedOutputWithoutModulesIsHeaderless(env: Env, modules: seq<Module>)
    requires ModulesWellFormed(modules) && !env.out.PerModule?
    requires forall i :: 0 <= i < |modules| ==> EligibleNodes(modules[i].nodes) == []
    ensures |RunSpec(env, modules).units| <= 1
    ensures forall i :: 0 <= i < |RunSpec(env, modules).units| ==> !RunSpec(env, modules).units[i].header
    ensures (forall text :: env.format(text).Some?) ==> |RunSpec(env, modules).units| == 1
  {
    var r := RunSpec(env, modules);
    NoWrittenModules(modules);
    ModulesWrittenUntilFailure(env, modules);
    HeaderRule(env, modules);
    OnlyTypesUnitHeaderless(env, r, WrittenModules(modules));
    if forall text :: env.format(text).Some? {
      EveryNonEmptyModuleWritten(env, modules);
    }
  }

  /** An outcome that wrote a prefix of no modules holds at most the types
      unit, and on a shared output that unit has no header. */
  lemma OnlyTypesUnitHeaderless(env: Env, r: Outcome, w: seq<Origin>)
    requires !env.out.PerModule? && HeadersAsDesigned(env, r) && w == []
    requires r.error.None? ==> Origins(r.units) == w + [FromTypes]
    requires r.error == Some(TypesFormatError) ==> Origins(r.units) == w
    requires r.error.Some? && r.error.value.ModuleFormatError? ==> |r.units| < |w|
    ensures |r.units| <= 1
    ensures forall i :: 0 <= i < |r.units| ==> !r.units[i].header
  {
    assert Origins(r.units) == [] || Origins(r.units) == [FromTypes];
    forall i | 0 <= i < |r.units|
      ensures !r.units[i].header
    {
      assert r.units[i].origin == Origins(r.units)[i] == FromTypes;
    }
  }

  // ---------------------------------------------------------- the registry

  /** Every use of a type by the modules, in load order. */
  function AllModuleTypes(modules: seq<Module>): seq<Type>
  {
    if modules == [] then [] else ModuleTypes(modules[0]) + AllModuleTypes(modules[1..])
  }

  function AllUses(gs: seq<Generated>): seq<Type>
  {
    if gs == [] then [] else gs[0].types + AllUses(gs[1..])
  }

  lemma AllUsesOfModules(lit: Literals, modules: seq<Module>)
    requires ModulesWellFormed(modules)
    ensures AllUses(GenerateAll(lit, modules)) == AllModuleTypes(modules)
  {
    AllUsesFrom(lit, modules, 0);
    assert GenerateAll(lit, modules)[0..] == GenerateAll(lit, modules);
    assert modules[0..] == modules;
  }

  lemma {:induction false} AllUsesFrom(lit: Literals, modules: seq<Module>, k: nat)
    requires ModulesWellFormed(modules) && k <= |modules|
    ensures AllUses(GenerateAll(lit, modules)[k..]) == AllModuleTypes(modules[k..])
    decreases |modules| - k
  {
    if k < |modules| {
      var gs := GenerateAll(lit, modules);
      AllUsesFrom(lit, modules, k + 1);
      assert gs[k..][0] == gs[k] && gs[k..][1..] == gs[k + 1..];
      assert gs[k].types == ModuleTypes(modules[k]);
      assert modules[k..][0] == modules[k] && modules[k..][1..] == modules[k + 1..];
    }
  }

  /** A loop that ends without error has registered the uses of every
      module, empty ones included, first use first. */
  lemma {:induction false} RunFromTypes(env: Env, s: State, gs: seq<Generated>)
    requires s.error.None?
    ensures RunFrom(env, s, gs).error.None? ==>
      RunFrom(env, s, gs).types == RegisterAll(s.types, AllUses(gs))
    decreases |gs|
  {
    if gs != [] {
      var next := Step(env, s, gs[0]);
      if next.error.None? {
        RunFromTypes(env, next, gs[1..]);
        RegisterAllAppend(s.types, gs[0].types, AllUses(gs[1..]));
      } else {
        RunFromFailed(env, next, gs[1..]);
      }
    }
  }

  /** The types unit holds the formatted blocks of every type the modules
      use, each under its first definition, in sorted name order. */
  lemma TypesUnitContents(env: Env, modules: seq<Module>)
    requires ModulesWellFormed(modules)
    ensures var r := RunSpec(env, modules);
      r.error.None? ==>
        var types := RegisterAll(map[], AllModuleTypes(modules));
        && ValidTypes(types)
        && |r.units| > 0
        && r.units[|r.units| - 1].origin == FromTypes
        && Some(r.units[|r.units| - 1].body) == env.format(TypesText(env.lit, types))
  {
    var gs := GenerateAll(env.lit, modules);
    var s := RunModules(env, modules);
    RunFromTypes(env, Initial, gs);
    GenerateAllNamed(env.lit, modules);
    RunFromValid(env, Initial, gs);
    AllUsesOfModules(env.lit, modules);
    assert RunSpec(env, modules) == Finish(env, s);
    FinishShape(env, s);
  }
}
