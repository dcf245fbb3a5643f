/** What parseModule, parseResource, parseResourcesFromBlock, parseLocals,
    parseConfig and parseHCLFile produce, as functions over values: the
    specification the methods of module Terraform are proved against. */
module Extraction {
  import opened Syntax
  import opened Evaluator
  import Paths

  datatype ModuleData = ModuleData(source: string, labels: seq<string>, attributes: map<string, Value>)
  datatype ResourceData = ResourceData(resourceType: string, name: string, labels: seq<string>, attributes: map<string, Value>)
  datatype LocalData = LocalData(attributes: map<string, Value>)
  datatype VariableData = VariableData(attributes: map<string, Value>)
  datatype ConfigData = ConfigData(
    resources: seq<ResourceData>,
    modules: seq<ModuleData>,
    variables: seq<VariableData>,
    locals: seq<LocalData>)

  const EmptyConfig := ConfigData([], [], [], [])

  /** Every attribute evaluated and stored under its name; a panic when any
      attribute's evaluation panics. The attributes come from a Go map, so no
      visiting order is involved. */
  function Attributes(attrs: map<string, Expr>, order: KeyOrder): (r: Result<map<string, Value>>)
    ensures r.Ok? <==> forall n | n in attrs :: Eval(attrs[n], order).Ok?
    ensures r.Ok? ==> r.value.Keys == attrs.Keys
    ensures r.Ok? ==> forall n | n in attrs :: Eval(attrs[n], order) == Ok(r.value[n])
    ensures r.Panic? ==> r.fault == NotAString
  {
    if forall n | n in attrs :: Eval(attrs[n], order).Ok?
    then Ok(map n | n in attrs :: Eval(attrs[n], order).value)
    else Panic(NotAString)
  }

  /** `m` holds the evaluations of exactly the attributes named in `done`:
      what an attribute loop has built after visiting `done`. */
  ghost predicate EvaluatedSoFar(attrs: map<string, Expr>, done: set<string>, m: map<string, Value>, order: KeyOrder) {
    && done <= attrs.Keys
    && (forall n | n in done :: Eval(attrs[n], order).Ok?)
    && m == map n | n in done :: Eval(attrs[n], order).value
  }

  lemma EvaluatedNone(attrs: map<string, Expr>, order: KeyOrder)
    ensures EvaluatedSoFar(attrs, {}, map[], order)
  {
  }

  lemma EvaluatedStep(attrs: map<string, Expr>, done: set<string>, m: map<string, Value>, n: string, v: Value, order: KeyOrder)
    requires EvaluatedSoFar(attrs, done, m, order)
    requires n in attrs && Eval(attrs[n], order) == Ok(v)
    ensures EvaluatedSoFar(attrs, done + {n}, m[n := v], order)
  {
  }

  lemma EvaluatedAll(attrs: map<string, Expr>, m: map<string, Value>, order: KeyOrder)
    requires EvaluatedSoFar(attrs, attrs.Keys, m, order)
    ensures Attributes(attrs, order) == Ok(m)
  {
  }

  lemma EvaluationFails(attrs: map<string, Expr>, n: string, order: KeyOrder)
    requires n in attrs && Eval(attrs[n], order).Panic?
    ensures Attributes(attrs, order) == Panic(Eval(attrs[n], order).fault)
  {
  }

  /** parseModule */
  function ModuleOf(block: Block, order: KeyOrder): Result<ModuleData> {
    match Attributes(block.body.attributes, order)
    case Panic(f) => Panic(f)
    case Ok(m) =>
      if "source" in m && m["source"].Obj? then Panic(NotAString)
      else Ok(ModuleData(if "source" in m then m["source"].s else "", block.labels, m))
  }

  /** parseLocals */
  function LocalOf(block: Block, order: KeyOrder): Result<LocalData> {
    match Attributes(block.body.attributes, order)
    case Panic(f) => Panic(f)
    case Ok(m) => Ok(LocalData(m))
  }

  /** parseResourcesFromBlock: the nested block's attributes written into the
      map under its block type, which is created when absent and must be a map
      when present. The nested block's labels and own blocks play no part. */
  function NestedInto(attrs: map<string, Value>, nested: Block, order: KeyOrder): Result<map<string, Value>> {
    var t := nested.blockType;
    if t in attrs && attrs[t].Str? then Panic(NotAMap)
    else
      match Attributes(nested.body.attributes, order)
      case Panic(f) => Panic(f)
      case Ok(m) => Ok(attrs[t := Obj((if t in attrs then attrs[t].m else map[]) + m)])
  }

  lemma NestedIntoMerges(attrs: map<string, Value>, nested: Block, added: map<string, Value>, order: KeyOrder)
    requires var t := nested.blockType; !(t in attrs && attrs[t].Str?)
    requires Attributes(nested.body.attributes, order) == Ok(added)
    ensures var t := nested.blockType;
      NestedInto(attrs, nested, order) == Ok(attrs[t := Obj((if t in attrs then attrs[t].m else map[]) + added)])
  {
  }

  lemma NestedIntoFails(attrs: map<string, Value>, nested: Block, order: KeyOrder)
    requires var t := nested.blockType; !(t in attrs && attrs[t].Str?)
    requires Attributes(nested.body.attributes, order).Panic?
    ensures NestedInto(attrs, nested, order) == Panic(NotAString)
  {
  }

  /** The nested blocks of a resource folded in, in declaration order. */
  function FoldBlocks(attrs: map<string, Value>, blocks: seq<Block>, order: KeyOrder): Result<map<string, Value>> {
    if blocks == [] then Ok(attrs)
    else
      match FoldBlocks(attrs, blocks[..|blocks| - 1], order)
      case Panic(f) => Panic(f)
      case Ok(a) => NestedInto(a, blocks[|blocks| - 1], order)
  }

  /** parseResource */
  function ResourceOf(block: Block, order: KeyOrder): Result<ResourceData> {
    if |block.labels| < 2 then Panic(LabelOutOfRange)
    else
      match Attributes(block.body.attributes, order)
      case Panic(f) => Panic(f)
      case Ok(m) =>
        match FoldBlocks(m, block.body.blocks, order)
        case Panic(f) => Panic(f)
        case Ok(a) => Ok(ResourceData(block.labels[0], block.labels[1], block.labels, a))
  }

  /** One top-level block added to the configuration under construction. */
  function AddBlock(c: ConfigData, block: Block, order: KeyOrder): Result<ConfigData> {
    if block.blockType == "module" then
      match ModuleOf(block, order)
      case Panic(f) => Panic(f)
      case Ok(md) => Ok(c.(modules := c.modules + [md]))
    else if block.blockType == "resource" then
      match ResourceOf(block, order)
      case Panic(f) => Panic(f)
      case Ok(rd) => Ok(c.(resources := c.resources + [rd]))
    else if block.blockType == "locals" then
      match LocalOf(block, order)
      case Panic(f) => Panic(f)
      case Ok(ld) => Ok(c.(locals := c.locals + [ld]))
    else Ok(c)
  }

  /** parseConfig over a file's top-level blocks. */
  function ConfigOf(blocks: seq<Block>, order: KeyOrder): Result<ConfigData> {
    if blocks == [] then Ok(EmptyConfig)
    else
      match ConfigOf(blocks[..|blocks| - 1], order)
      case Panic(f) => Panic(f)
      case Ok(c) => AddBlock(c, blocks[|blocks| - 1], order)
  }

  /** What the external HCL parser makes of a file. */
  datatype FileContent =
    | Missing                           // os.Stat reports that the file does not exist
    | Malformed(diagnostics: string)    // the parser reported errors
    | Parsed(body: Body)

  datatype SourceFile = SourceFile(path: string, content: FileContent)

  datatype Loaded = Loaded(config: ConfigData) | LoadError(diagnostics: string) | LoadPanic(fault: Fault)

  /** parseHCLFile: a missing file or one without the ".tf" extension yields an
      empty configuration; a malformed one an error. */
  function LoadFile(file: SourceFile, order: KeyOrder): Loaded {
    if Paths.Ext(file.path) == ".tf" && !file.content.Missing? then
      match file.content
      case Malformed(d) => LoadError(d)
      case Parsed(body) =>
        (match ConfigOf(body.blocks, order)
         case Ok(c) => Loaded(c)
         case Panic(f) => LoadPanic(f))
    else Loaded(EmptyConfig)
  }

  /** The append of parseSingleFile: modules, resources and locals after the
      existing ones; variables are not carried over. */
  function Merge(into: ConfigData, parsed: ConfigData): ConfigData {
    ConfigData(
      into.resources + parsed.resources,
      into.modules + parsed.modules,
      into.variables,
      into.locals + parsed.locals)
  }
}
