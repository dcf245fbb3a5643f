/** The extracted entities as the objects the source builds and fills in place,
    and the extractors as methods that update them, each proved to produce what
    module Extraction specifies. */
module Terraform {
  import opened Syntax
  import opened Evaluator
  import opened EvaluatorLoops
  import opened Extraction
  import Paths

  class Resource {
    var resourceType: string
    var name: string
    var labels: seq<string>
    var attributes: map<string, Value>

    constructor (resourceType: string, name: string, labels: seq<string>)
      ensures Data() == ResourceData(resourceType, name, labels, map[])
    {
      this.resourceType := resourceType;
      this.name := name;
      this.labels := labels;
      attributes := map[];
    }

    function Data(): ResourceData
      reads this
    {
      ResourceData(resourceType, name, labels, attributes)
    }
  }

  class Module {
    var source: string
    var labels: seq<string>
    var attributes: map<string, Value>

    constructor (labels: seq<string>)
      ensures Data() == ModuleData("", labels, map[])
    {
      source := "";
      this.labels := labels;
      attributes := map[];
    }

    function Data(): ModuleData
      reads this
    {
      ModuleData(source, labels, attributes)
    }
  }

  class Local {
    var attributes: map<string, Value>

    constructor ()
      ensures Data() == LocalData(map[])
    {
      attributes := map[];
    }

    function Data(): LocalData
      reads this
    {
      LocalData(attributes)
    }
  }

  /** Declared by the source's data model; no extractor creates one. */
  class Variable {
    var attributes: map<string, Value>

    constructor ()
      ensures Data() == VariableData(map[])
    {
      attributes := map[];
    }

    function Data(): VariableData
      reads this
    {
      VariableData(attributes)
    }
  }

  function ResourcesData(rs: seq<Resource>): (ds: seq<ResourceData>)
    reads rs
    ensures |ds| == |rs|
  {
    if rs == [] then [] else ResourcesData(rs[..|rs| - 1]) + [rs[|rs| - 1].Data()]
  }

  function ModulesData(ms: seq<Module>): (ds: seq<ModuleData>)
    reads ms
    ensures |ds| == |ms|
  {
    if ms == [] then [] else ModulesData(ms[..|ms| - 1]) + [ms[|ms| - 1].Data()]
  }

  function LocalsData(ls: seq<Local>): (ds: seq<LocalData>)
    reads ls
    ensures |ds| == |ls|
  {
    if ls == [] then [] else LocalsData(ls[..|ls| - 1]) + [ls[|ls| - 1].Data()]
  }

  function VariablesData(vs: seq<Variable>): (ds: seq<VariableData>)
    reads vs
    ensures |ds| == |vs|
  {
    if vs == [] then [] else VariablesData(vs[..|vs| - 1]) + [vs[|vs| - 1].Data()]
  }

  class Config {
    var resources: seq<Resource>
    var modules: seq<Module>
    var variables: seq<Variable>
    var locals: seq<Local>

    constructor ()
      ensures resources == [] && modules == [] && variables == [] && locals == []
    {
      resources, modules, variables, locals := [], [], [], [];
    }

    constructor FromParts(resources: seq<Resource>, modules: seq<Module>, locals: seq<Local>)
      ensures this.resources == resources && this.modules == modules && this.locals == locals
      ensures variables == []
    {
      this.resources := resources;
      this.modules := modules;
      this.locals := locals;
      variables := [];
    }

    /** The three appends of parseSingleFile: the parsed file's modules,
        resources and locals after the existing ones. */
    method Append(parsed: Config)
      requires parsed != this
      modifies this
      ensures resources == old(resources) + parsed.resources
      ensures modules == old(modules) + parsed.modules
      ensures locals == old(locals) + parsed.locals
      ensures variables == old(variables)
      ensures Data() == Merge(old(Data()), old(parsed.Data()))
    {
      ghost var rs := resources + parsed.resources;
      ghost var ms := modules + parsed.modules;
      ghost var ls := locals + parsed.locals;
      ResourcesAppend(resources, parsed.resources);
      ModulesAppend(modules, parsed.modules);
      LocalsAppend(locals, parsed.locals);
      modules := modules + parsed.modules;
      resources := resources + parsed.resources;
      locals := locals + parsed.locals;
      ResourcesUnchanged(rs);
      ModulesUnchanged(ms);
      LocalsUnchanged(ls);
      VariablesUnchanged(variables);
    }

    /** The configuration's contents as values. */
    function Data(): ConfigData
      reads this, resources, modules, variables, locals
    {
      ConfigData(ResourcesData(resources), ModulesData(modules), VariablesData(variables), LocalsData(locals))
    }
  }

  /** parseModule. Attributes are visited in whatever order the Go map yields them. */
  method ParseModule(block: Block, order: KeyOrder) returns (r: Result<Module>)
    ensures r.Ok? <==> ModuleOf(block, order).Ok?
    ensures r.Ok? ==> fresh(r.value) && r.value.Data() == ModuleOf(block, order).value
    ensures r.Panic? ==> r.fault == ModuleOf(block, order).fault
  {
    var mod := new Module(block.labels);
    var attrs := block.body.attributes;
    var remaining := attrs.Keys;
    EvaluatedNone(attrs, order);
    while remaining != {}
      invariant remaining <= attrs.Keys
      invariant EvaluatedSoFar(attrs, attrs.Keys - remaining, mod.attributes, order)
      invariant mod.labels == block.labels
      invariant "source" in attrs.Keys - remaining ==> Eval(attrs["source"], order) == Ok(Str(mod.source))
      invariant "source" !in attrs.Keys - remaining ==> mod.source == ""
      decreases remaining
    {
      var n :| n in remaining;
      var value := EvaluateExpression(attrs[n], order);
      if value.Panic? {
        EvaluationFails(attrs, n, order);
        return Panic(value.fault);
      }
      EvaluatedStep(attrs, attrs.Keys - remaining, mod.attributes, n, value.value, order);
      mod.attributes := mod.attributes[n := value.value];
      if n == "source" {
        if !value.value.Str? {
          SourceNotAString(block, order);
          return Panic(NotAString);
        }
        mod.source := value.value.s;
      }
      DoneStep(attrs.Keys, remaining, n);
      remaining := remaining - {n};
    }
    DoneAll(attrs.Keys, remaining);
    EvaluatedAll(attrs, mod.attributes, order);
    return Ok(mod);
  }

  lemma SourceNotAString(block: Block, order: KeyOrder)
    requires var attrs := block.body.attributes;
      "source" in attrs && Eval(attrs["source"], order).Ok? && Eval(attrs["source"], order).value.Obj?
    ensures ModuleOf(block, order) == Panic(NotAString)
  {
    var attrs := block.body.attributes;
    if Attributes(attrs, order).Ok? {
      assert Attributes(attrs, order).value["source"] == Eval(attrs["source"], order).value;
    }
  }

  /** parseLocals */
  method ParseLocals(block: Block, order: KeyOrder) returns (r: Result<Local>)
    ensures r.Ok? <==> LocalOf(block, order).Ok?
    ensures r.Ok? ==> fresh(r.value) && r.value.Data() == LocalOf(block, order).value
    ensures r.Panic? ==> r.fault == LocalOf(block, order).fault
  {
    var local := new Local();
    var attrs := block.body.attributes;
    var remaining := attrs.Keys;
    EvaluatedNone(attrs, order);
    while remaining != {}
      invariant remaining <= attrs.Keys
      invariant EvaluatedSoFar(attrs, attrs.Keys - remaining, local.attributes, order)
      decreases remaining
    {
      var n :| n in remaining;
      var value := EvaluateExpression(attrs[n], order);
      if value.Panic? {
        EvaluationFails(attrs, n, order);
        return Panic(value.fault);
      }
      EvaluatedStep(attrs, attrs.Keys - remaining, local.attributes, n, value.value, order);
      local.attributes := local.attributes[n := value.value];
      DoneStep(attrs.Keys, remaining, n);
      remaining := remaining - {n};
    }
    DoneAll(attrs.Keys, remaining);
    EvaluatedAll(attrs, local.attributes, order);
    return Ok(local);
  }

  /** parseResourcesFromBlock: writes the nested block's attributes into the
      map the resource holds under the block's type, creating it when absent.
      The Go code writes through an alias of that inner map; here the map is
      built in a local and stored back once the loop is done, which leaves the
      resource in the same state. */
  method ParseResourcesFromBlock(bodyBlock: Block, resource: Resource, order: KeyOrder) returns (r: Result<()>)
    modifies resource
    ensures resource.resourceType == old(resource.resourceType)
    ensures resource.name == old(resource.name)
    ensures resource.labels == old(resource.labels)
    ensures r.Ok? <==> NestedInto(old(resource.attributes), bodyBlock, order).Ok?
    ensures r.Ok? ==> resource.attributes == NestedInto(old(resource.attributes), bodyBlock, order).value
    ensures r.Panic? ==> r.fault == NestedInto(old(resource.attributes), bodyBlock, order).fault
  {
    var blType := bodyBlock.blockType;
    var current := resource.attributes;
    if blType !in current {
      current := current[blType := Obj(map[])];
    }
    if !current[blType].Obj? {
      return Panic(NotAMap);
    }
    var data := current[blType].m;
    ghost var base := data;
    ghost var added: map<string, Value> := map[];
    var attrs := bodyBlock.body.attributes;
    var remaining := attrs.Keys;
    EvaluatedNone(attrs, order);
    while remaining != {}
      invariant remaining <= attrs.Keys
      invariant EvaluatedSoFar(attrs, attrs.Keys - remaining, added, order)
      invariant data == base + added
      invariant unchanged(resource)
      decreases remaining
    {
      var n :| n in remaining;
      var value := EvaluateExpression(attrs[n], order);
      if value.Panic? {
        EvaluationFails(attrs, n, order);
        NestedIntoFails(resource.attributes, bodyBlock, order);
        return Panic(value.fault);
      }
      EvaluatedStep(attrs, attrs.Keys - remaining, added, n, value.value, order);
      UnionStep(base, added, n, value.value);
      added := added[n := value.value];
      data := data[n := value.value];
      DoneStep(attrs.Keys, remaining, n);
      remaining := remaining - {n};
    }
    DoneAll(attrs.Keys, remaining);
    EvaluatedAll(attrs, added, order);
    NestedIntoMerges(resource.attributes, bodyBlock, added, order);
    resource.attributes := current[blType := Obj(data)];
    return Ok(());
  }

  lemma UnionStep(base: map<string, Value>, added: map<string, Value>, n: string, v: Value)
    ensures (base + added)[n := v] == base + added[n := v]
  {
  }

  lemma DoneStep(keys: set<string>, remaining: set<string>, n: string)
    requires remaining <= keys && n in remaining
    ensures keys - (remaining - {n}) == (keys - remaining) + {n}
  {
  }

  lemma DoneAll(keys: set<string>, remaining: set<string>)
    requires remaining == {}
    ensures keys - remaining == keys
  {
  }

  /** parseResource */
  method ParseResource(block: Block, order: KeyOrder) returns (r: Result<Resource>)
    ensures r.Ok? <==> ResourceOf(block, order).Ok?
    ensures r.Ok? ==> fresh(r.value) && r.value.Data() == ResourceOf(block, order).value
    ensures r.Panic? ==> r.fault == ResourceOf(block, order).fault
  {
    if |block.labels| < 2 {
      return Panic(LabelOutOfRange);
    }
    var resource := new Resource(block.labels[0], block.labels[1], block.labels);
    var attrs := block.body.attributes;
    var remaining := attrs.Keys;
    EvaluatedNone(attrs, order);
    while remaining != {}
      invariant remaining <= attrs.Keys
      invariant EvaluatedSoFar(attrs, attrs.Keys - remaining, resource.attributes, order)
      invariant resource.resourceType == block.labels[0] && resource.name == block.labels[1]
      invariant resource.labels == block.labels
      decreases remaining
    {
      var n :| n in remaining;
      var value := EvaluateExpression(attrs[n], order);
      if value.Panic? {
        EvaluationFails(attrs, n, order);
        return Panic(value.fault);
      }
      EvaluatedStep(attrs, attrs.Keys - remaining, resource.attributes, n, value.value, order);
      resource.attributes := resource.attributes[n := value.value];
      DoneStep(attrs.Keys, remaining, n);
      remaining := remaining - {n};
    }
    DoneAll(attrs.Keys, remaining);
    EvaluatedAll(attrs, resource.attributes, order);
    ghost var top := resource.attributes;
    var blocks := block.body.blocks;
    for i := 0 to |blocks|
      invariant FoldBlocks(top, blocks[..i], order) == Ok(resource.attributes)
      invariant resource.resourceType == block.labels[0] && resource.name == block.labels[1]
      invariant resource.labels == block.labels
    {
      FoldStep(top, blocks, order, i, resource.attributes);
      var outcome := ParseResourcesFromBlock(blocks[i], resource, order);
      if outcome.Panic? {
        FoldPanicSticks(top, blocks, order, i + 1);
        return Panic(outcome.fault);
      }
    }
    assert blocks[..|blocks|] == blocks;
    return Ok(resource);
  }

  lemma FoldStep(attrs: map<string, Value>, blocks: seq<Block>, order: KeyOrder, i: nat, a: map<string, Value>)
    requires i < |blocks| && FoldBlocks(attrs, blocks[..i], order) == Ok(a)
    ensures FoldBlocks(attrs, blocks[..i + 1], order) == NestedInto(a, blocks[i], order)
  {
    assert blocks[..i + 1][..i] == blocks[..i];
  }

  lemma {:induction false} FoldPanicSticks(attrs: map<string, Value>, blocks: seq<Block>, order: KeyOrder, j: nat)
    requires j <= |blocks| && FoldBlocks(attrs, blocks[..j], order).Panic?
    ensures FoldBlocks(attrs, blocks, order).Panic?
    ensures FoldBlocks(attrs, blocks, order).fault == FoldBlocks(attrs, blocks[..j], order).fault
    decreases |blocks|
  {
    if j < |blocks| {
      var init := blocks[..|blocks| - 1];
      assert init[..j] == blocks[..j];
      FoldPanicSticks(attrs, init, order, j);
    } else {
      assert blocks[..j] == blocks;
    }
  }

  lemma {:induction false} ConfigPanicSticks(blocks: seq<Block>, order: KeyOrder, j: nat)
    requires j <= |blocks| && ConfigOf(blocks[..j], order).Panic?
    ensures ConfigOf(blocks, order).Panic?
    ensures ConfigOf(blocks, order).fault == ConfigOf(blocks[..j], order).fault
    decreases |blocks|
  {
    if j < |blocks| {
      var init := blocks[..|blocks| - 1];
      assert init[..j] == blocks[..j];
      ConfigPanicSticks(init, order, j);
    } else {
      assert blocks[..j] == blocks;
    }
  }

  /** parseConfig: one entity per module, resource or locals block, in order. */
  method ParseConfig(body: Body, order: KeyOrder) returns (r: Result<Config>)
    ensures r.Ok? <==> ConfigOf(body.blocks, order).Ok?
    ensures r.Ok? ==> fresh(r.value) && r.value.Data() == ConfigOf(body.blocks, order).value
    ensures r.Panic? ==> r.fault == ConfigOf(body.blocks, order).fault
  {
    var resources: seq<Resource> := [];
    var modules: seq<Module> := [];
    var locals: seq<Local> := [];
    var blocks := body.blocks;
    ghost var c := EmptyConfig;
    for i := 0 to |blocks|
      invariant ConfigOf(blocks[..i], order) == Ok(c)
      invariant c == ConfigData(ResourcesData(resources), ModulesData(modules), [], LocalsData(locals))
    {
      ConfigStep(blocks, order, i, c);
      var block := blocks[i];
      label before:
      if block.blockType == "module" {
        var m := ParseModule(block, order);
        if m.Panic? {
          ConfigPanicSticks(blocks, order, i + 1);
          return Panic(m.fault);
        }
        ResourcesUnchanged@before(resources);
        ModulesUnchanged@before(modules);
        LocalsUnchanged@before(locals);
        ModulesAppend(modules, [m.value]);
        modules := modules + [m.value];
        c := c.(modules := c.modules + [m.value.Data()]);
      } else if block.blockType == "resource" {
        var res := ParseResource(block, order);
        if res.Panic? {
          ConfigPanicSticks(blocks, order, i + 1);
          return Panic(res.fault);
        }
        ResourcesUnchanged@before(resources);
        ModulesUnchanged@before(modules);
        LocalsUnchanged@before(locals);
        ResourcesAppend(resources, [res.value]);
        resources := resources + [res.value];
        c := c.(resources := c.resources + [res.value.Data()]);
      } else if block.blockType == "locals" {
        var l := ParseLocals(block, order);
        if l.Panic? {
          ConfigPanicSticks(blocks, order, i + 1);
          return Panic(l.fault);
        }
        ResourcesUnchanged@before(resources);
        ModulesUnchanged@before(modules);
        LocalsUnchanged@before(locals);
        LocalsAppend(locals, [l.value]);
        locals := locals + [l.value];
        c := c.(locals := c.locals + [l.value.Data()]);
      }
    }
    assert blocks[..|blocks|] == blocks;
    var config := new Config.FromParts(resources, modules, locals);
    return Ok(config);
  }

  lemma ConfigStep(blocks: seq<Block>, order: KeyOrder, i: nat, c: ConfigData)
    requires i < |blocks| && ConfigOf(blocks[..i], order) == Ok(c)
    ensures ConfigOf(blocks[..i + 1], order) == AddBlock(c, blocks[i], order)
  {
    assert blocks[..i + 1][..i] == blocks[..i];
  }

  /** parseHCLFile's result: a new configuration, the parser's error, or a
      runtime panic raised while extracting. */
  datatype HclResult = HclConfig(config: Config) | HclError(diagnostics: string) | HclPanic(fault: Fault)

  /** parseHCLFile: a missing file or one without the ".tf" extension yields an
      empty configuration, a malformed one the parser's error. */
  method ParseHCLFile(file: SourceFile, order: KeyOrder) returns (r: HclResult)
    ensures match LoadFile(file, order)
      case Loaded(c) => r.HclConfig? && fresh(r.config) && r.config.Data() == c
      case LoadError(d) => r == HclError(d)
      case LoadPanic(f) => r == HclPanic(f)
  {
    if Paths.Ext(file.path) == ".tf" && !file.content.Missing? {
      match file.content {
        case Malformed(d) =>
          return HclError(d);
        case Parsed(body) =>
          var parsed := ParseConfig(body, order);
          if parsed.Panic? {
            return HclPanic(parsed.fault);
          }
          return HclConfig(parsed.value);
      }
    }
    var empty := new Config();
    return HclConfig(empty);
  }

  /** How one file's parse ends: its entities merged into the configuration,
      an error returned to the caller, or a runtime panic. */
  datatype FileOutcome = Merged | LoadFailed(diagnostics: string) | Panicked(fault: Fault)

  /** parseSingleFile: the file's modules, resources and locals appended after
      the existing entries, which stay as they were; on an error or a panic
      nothing is appended. */
  method ParseSingleFile(file: SourceFile, config: Config, order: KeyOrder) returns (outcome: FileOutcome)
    modifies config
    ensures config.variables == old(config.variables)
    ensures |config.resources| >= |old(config.resources)|
    ensures |config.modules| >= |old(config.modules)|
    ensures |config.locals| >= |old(config.locals)|
    ensures config.resources[..|old(config.resources)|] == old(config.resources)
    ensures config.modules[..|old(config.modules)|] == old(config.modules)
    ensures config.locals[..|old(config.locals)|] == old(config.locals)
    ensures match LoadFile(file, order)
      case Loaded(c) => outcome == Merged && config.Data() == Merge(old(config.Data()), c)
      case LoadError(d) => outcome == LoadFailed(d) && config.Data() == old(config.Data())
      case LoadPanic(f) => outcome == Panicked(f) && config.Data() == old(config.Data())
  {
    var r := ParseHCLFile(file, order);
    match r {
      case HclError(d) =>
        return LoadFailed(d);
      case HclPanic(f) =>
        return Panicked(f);
      case HclConfig(parsed) =>
        config.Append(parsed);
        return Merged;
    }
  }

  /** An entity sequence's contents depend on the entities' own fields only. */
  twostate lemma ResourcesUnchanged(rs: seq<Resource>)
    requires unchanged(rs)
    ensures ResourcesData(rs) == old(ResourcesData(rs))
  {
  }

  twostate lemma ModulesUnchanged(ms: seq<Module>)
    requires unchanged(ms)
    ensures ModulesData(ms) == old(ModulesData(ms))
  {
  }

  twostate lemma LocalsUnchanged(ls: seq<Local>)
    requires unchanged(ls)
    ensures LocalsData(ls) == old(LocalsData(ls))
  {
  }

  twostate lemma VariablesUnchanged(vs: seq<Variable>)
    requires unchanged(vs)
    ensures VariablesData(vs) == old(VariablesData(vs))
  {
  }

  lemma {:induction false} ResourcesAppend(a: seq<Resource>, b: seq<Resource>)
    ensures ResourcesData(a + b) == ResourcesData(a) + ResourcesData(b)
    decreases |b|
  {
    if b == [] {
      assert a + b == a;
    } else {
      assert (a + b)[..|a + b| - 1] == a + b[..|b| - 1];
      ResourcesAppend(a, b[..|b| - 1]);
    }
  }

  lemma {:induction false} ModulesAppend(a: seq<Module>, b: seq<Module>)
    ensures ModulesData(a + b) == ModulesData(a) + ModulesData(b)
    decreases |b|
  {
    if b == [] {
      assert a + b == a;
    } else {
      assert (a + b)[..|a + b| - 1] == a + b[..|b| - 1];
      ModulesAppend(a, b[..|b| - 1]);
    }
  }

  lemma {:induction false} LocalsAppend(a: seq<Local>, b: seq<Local>)
    ensures LocalsData(a + b) == LocalsData(a) + LocalsData(b)
    decreases |b|
  {
    if b == [] {
      assert a + b == a;
    } else {
      assert (a + b)[..|a + b| - 1] == a + b[..|b| - 1];
      LocalsAppend(a, b[..|b| - 1]);
    }
  }
}
