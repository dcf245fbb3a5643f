# HCL configuration extractor, modelled in Dafny

This project models the extractor in `pkg/parser/hcl/hcl.go`. The extractor turns
a parsed Terraform/HCL syntax tree into plain data: resources, modules and locals
whose attributes are strings or maps from strings to such values. The model has two layers:

- **Specification functions over values.** A closed `Expr` datatype stands in for
  the hclsyntax node kinds. `Value = Str | Obj` is the `string` /
  `map[string]any` result. `Evaluator.Eval` is a recursive function, and
  `Extraction.ModuleOf`, `ResourceOf`, `NestedInto`, `LocalOf`, `ConfigOf` and
  `LoadFile` say what each extractor builds.
- **Imperative code in the source's own shape.**
  - `BuildVarExpressions`, `EvaluateExpression`, `EvaluateFunctionExpression` and
    `RenderEntries` accumulate their result in loops.
  - `Resource`, `Module`, `Local`, `Variable` and `Config` are classes whose
    fields the extractor methods fill in place.
  - Each method is proved to compute the matching specification function.

Every runtime panic a Go type assertion or slice index can raise is part of the
model as `Result.Panic(fault)`. That covers `.(string)` on a map, `.(map[string]any)`
on a string, and `Labels[0]` / `Labels[1]` with fewer than two labels. None of
these is a precondition. Lemmas characterise exactly when each panic happens:
`EvalSucceedsIff` for expressions, `ModuleSucceedsIff` for modules,
`ResourceSucceedsIff` for resources and `ConfigDispatch` for a whole file.

Go map iteration order enters in two places:

- **Attribute maps.** A block body's attributes (`Body.Attributes`) are a
  `map<string, Expr>`. The methods visit them in an arbitrary order (`:|`), and
  the specification does not depend on that order.
- **Map arguments of a function call.** Rendering a map argument visits its keys
  in some order. That order is a parameter, `order: KeyOrder`.

`parseSingleFile` appends only modules, resources and locals (hcl.go:96-98).
`Config.Variables` is declared (hcl.go:48) but nothing ever fills it, so in the
model the variables of a configuration never change.

Files:

| file | module | contents |
|---|---|---|
| syntax.dfy | Syntax | input syntax tree, values, faults, key orders |
| traversal.dfy | Traversal | `buildVarExpressions`, `strings.Join`, dot counting and splitting |
| scalars.dfy | Scalars | `convertValueToString` |
| evaluator.dfy | Evaluator | recursive specification of `evaluateExpression` / `evaluateFunctionExpression` and its properties |
| evaluator_loops.dfy | EvaluatorLoops | the loop implementations, proved against `Evaluator` |
| paths.dfy | Paths | `filepath.Ext`, `strings.Contains`, the directory-walk filter |
| extraction.dfy | Extraction | what each extractor produces, as functions |
| extraction_props.dfy | ExtractionProperties | properties of the extractors, and worked examples |
| terraform.dfy | Terraform | the entity classes and the extractor methods |

## Model

| member | source | states |
|---|---|---|
| Traversal.Names | pkg/parser/hcl/hcl.go:211-222 | at most one name per step, and every collected name is non-empty |
| Traversal.Join | pkg/parser/hcl/hcl.go:224 | specification of `strings.Join`: the parts with the separator between neighbours (properties in JoinDots, SplitJoin) |
| Traversal.VarExpression | pkg/parser/hcl/hcl.go:208-225 | specification of the string `buildVarExpressions` returns: the collected names joined by "." (computed by BuildVarExpressions; properties in VarExpressionShape) |
| Traversal.BuildVarExpressions | pkg/parser/hcl/hcl.go:208-225 | the loop returns the contributing names joined by "." |
| Traversal.NamesAppend | pkg/parser/hcl/hcl.go:211-222 | names of a concatenated traversal are the concatenation of the names, so order is kept |
| Traversal.NamesMembership | pkg/parser/hcl/hcl.go:212-221 | a string is collected iff some root or attribute step has it as a non-empty name; index and splat steps contribute nothing |
| Traversal.CountAppend | pkg/parser/hcl/hcl.go:224 | helper for the dot count of the join (JoinDots): counting a character is additive over concatenation |
| Traversal.CountAbsent | pkg/parser/hcl/hcl.go:224 | helper for the dot count of the join (JoinDots): a string without the character counts zero of it |
| Traversal.JoinDots | pkg/parser/hcl/hcl.go:224 | joining k dot-free names with "." yields exactly k-1 dots |
| Traversal.FirstIndex | pkg/parser/hcl/hcl.go:224 | helper for the join-inverse partner (SplitJoin), not a source operation: the first position of a character that occurs |
| Traversal.SplitDots | pkg/parser/hcl/hcl.go:224 | helper for the join-inverse partner (SplitJoin), not a source operation: splitting at "." yields at least one part (inverse of the join) |
| Traversal.SplitHead | pkg/parser/hcl/hcl.go:224 | helper for the join-inverse partner (SplitJoin), not a source operation: splitting `x + "." + rest` with dot-free x yields x then the parts of rest |
| Traversal.SplitJoin | pkg/parser/hcl/hcl.go:224 | splitting the join of dot-free names at "." gives the names back |
| Traversal.VarExpressionShape | pkg/parser/hcl/hcl.go:208-225 | "" with no names; otherwise k-1 dots for k names, and splitting at "." recovers the names in order |
| Scalars.ConvertValueToString | pkg/parser/hcl/hcl.go:227-241 | specification: a number's formatted text, a string's content, a bool's `%v` word, "" for any other type (properties in ScalarForms) |
| Scalars.ParseBool | pkg/parser/hcl/hcl.go:233-237 | reads "true"/"false" back, and nothing else |
| Scalars.ScalarForms | pkg/parser/hcl/hcl.go:227-241 | a string is unchanged, a bool renders as "true"/"false" (read back by ParseBool), a number as its formatted text, any other type as "" |
| Evaluator.AsString | pkg/parser/hcl/hcl.go:257-274 | specification of the `.(string)` assertion at lines 257, 261, 264, 269 and 274: a string passes, a map panics with NotAString, an earlier panic is kept |
| Evaluator.Eval | pkg/parser/hcl/hcl.go:245-282 | every panic is a failed `.(string)`; a successful result is a map iff the node is an object constructor |
| Evaluator.Concat | pkg/parser/hcl/hcl.go:255-262 | template-part and tuple-element loops panic only on a failed `.(string)` |
| Evaluator.EvalItem | pkg/parser/hcl/hcl.go:269 | an object item panics only on a failed `.(string)`, of its key or inside its value |
| Evaluator.EvalItems | pkg/parser/hcl/hcl.go:266-270 | the object loop panics only on a failed `.(string)` |
| Evaluator.CallArgs | pkg/parser/hcl/hcl.go:287-313 | the argument loop panics only on a failed `.(string)` inside an argument |
| Evaluator.ArgText | pkg/parser/hcl/hcl.go:292-309 | specification: a string argument as it is, a map argument as its entries in braces in the given key order (properties in EmptyMapArg, SingleEntryMapArg) |
| Evaluator.Entries | pkg/parser/hcl/hcl.go:298-307 | specification: the entry text of each visited key, in visiting order (computed by RenderEntries) |
| Evaluator.EntryText | pkg/parser/hcl/hcl.go:299-306 | specification: a key, followed by ":" and its value when the value is a string |
| Evaluator.EvalSucceedsIff | pkg/parser/hcl/hcl.go:249-281 | evaluation succeeds iff no object constructor sits where a string is asserted (lines 257, 261, 264, 269, 274) |
| Evaluator.ConcatSucceedsIff | pkg/parser/hcl/hcl.go:255-262 | a part loop succeeds iff every part is string-like |
| Evaluator.ItemsSucceedIff | pkg/parser/hcl/hcl.go:266-270 | the object loop succeeds iff every item's key is string-like and its value evaluable |
| Evaluator.ItemSucceedsIff | pkg/parser/hcl/hcl.go:269 | one item succeeds iff its key is string-like and its value evaluable |
| Evaluator.ArgsSucceedIff | pkg/parser/hcl/hcl.go:287-289 | the argument loop succeeds iff every argument is evaluable |
| Evaluator.ItemsAllEvaluate | pkg/parser/hcl/hcl.go:266-270 | a successful object evaluates every item |
| Evaluator.ObjectKeys | pkg/parser/hcl/hcl.go:265-272 | the object's keys are exactly the evaluated item keys |
| Evaluator.ObjectLastWins | pkg/parser/hcl/hcl.go:266-270 | an item not followed by one with the same key determines that key's value, so later items overwrite earlier ones |
| Evaluator.ConcatAppend | pkg/parser/hcl/hcl.go:254-262 | the part loop over `a + b` is the part loop over a followed by the one over b, or a panic |
| Evaluator.TemplateConcatenates | pkg/parser/hcl/hcl.go:254-258 | a template's string is the in-order concatenation of its parts' strings |
| Evaluator.TupleShape | pkg/parser/hcl/hcl.go:259-262 | the tuple loop gives "" iff there are no elements, otherwise ends in ",", with at least one "," per element |
| Evaluator.TupleRendersCommaTerminated | pkg/parser/hcl/hcl.go:259-262 | the same shape for an evaluated tuple expression |
| Evaluator.IndexIgnoresKey | pkg/parser/hcl/hcl.go:273-274 | an index expression's result does not depend on the key; it is exactly the collection's string, and it panics when the collection is a map |
| Evaluator.ArgsOfStrings | pkg/parser/hcl/hcl.go:287-294 | string arguments are concatenated with no separator |
| Evaluator.CallOfStrings | pkg/parser/hcl/hcl.go:284-316 | a call with string arguments renders as name + "(" + concatenated arguments + ")" |
| Evaluator.SingletonEnumeration | pkg/parser/hcl/hcl.go:298 | helper for the map-argument lemmas, not a source operation: the only enumeration of a one-key map is that key |
| Evaluator.EmptyEnumeration | pkg/parser/hcl/hcl.go:298 | helper for the map-argument lemmas, not a source operation: the only enumeration of an empty map is empty |
| Evaluator.EmptyMapArg | pkg/parser/hcl/hcl.go:295-309 | an empty map argument renders as "{}" |
| Evaluator.SingleEntryMapArg | pkg/parser/hcl/hcl.go:295-309 | a one-entry map argument renders as "{k:v}" when v is a string and as "{k}" otherwise |
| Evaluator.EntriesOfOne | pkg/parser/hcl/hcl.go:298-307 | rendering one key gives that key's entry text |
| Evaluator.ConcatPanicSticks | pkg/parser/hcl/hcl.go:256-262 | a panic on some part panics the whole template or tuple |
| Evaluator.ItemsPanicSticks | pkg/parser/hcl/hcl.go:266-270 | a panic on some item panics the whole object |
| Evaluator.ArgsPanicSticks | pkg/parser/hcl/hcl.go:287-288 | a panic on some argument panics the whole call |
| EvaluatorLoops.EvaluateExpression | pkg/parser/hcl/hcl.go:245-282 | the accumulating loops return exactly `Eval`, panics included |
| EvaluatorLoops.EvaluateFunctionExpression | pkg/parser/hcl/hcl.go:284-316 | the argument loop returns exactly `Eval` of the call |
| EvaluatorLoops.RenderEntries | pkg/parser/hcl/hcl.go:296-309 | the inner map loop returns the entry text of the enumerated keys |
| EvaluatorLoops.ConcatStep | pkg/parser/hcl/hcl.go:256-262 | helper for the loop proof of the template and tuple loops: one more part extends the accumulated string by its string and the suffix |
| EvaluatorLoops.ItemsStep | pkg/parser/hcl/hcl.go:266-270 | helper for the loop proof of the object loop: one more item updates the accumulated map at its key |
| EvaluatorLoops.ArgsStep | pkg/parser/hcl/hcl.go:287-312 | helper for the loop proof of the argument loop: one more argument extends the accumulated text by its rendering |
| Paths.Contains | pkg/parser/hcl/hcl.go:81 | specification of `strings.Contains`: the substring occurs at some position (property in ToolStateSkipped) |
| Paths.Ext | pkg/parser/hcl/hcl.go:81 | specification of `filepath.Ext`: the extension of the final path element (properties in ExtBefore and TfExtension) |
| Paths.WalkSelects | pkg/parser/hcl/hcl.go:81 | specification of the walk filter: not a directory, no ".terraform/" in the path, extension ".tf" (property in ToolStateSkipped) |
| Paths.ExtBefore | pkg/parser/hcl/hcl.go:81 | an extension is empty or a suffix of the path starting at a "." |
| Paths.TfExtension | pkg/parser/hcl/hcl.go:81 | the extension is ".tf" iff the path ends in ".tf" |
| Paths.ToolStateSkipped | pkg/parser/hcl/hcl.go:81 | no path containing ".terraform/" is selected by the walk filter |
| Extraction.Attributes | pkg/parser/hcl/hcl.go:147-149 | succeeds iff every attribute evaluates; then it has exactly the attributes' names, each mapped to its evaluation; a panic is a failed `.(string)` |
| Extraction.ModuleOf | pkg/parser/hcl/hcl.go:141-157 | specification of parseModule (computed by Terraform.ParseModule; properties in ModuleContents, ModuleSucceedsIff) |
| Extraction.LocalOf | pkg/parser/hcl/hcl.go:195-206 | specification of parseLocals (computed by Terraform.ParseLocals) |
| Extraction.NestedInto | pkg/parser/hcl/hcl.go:181-192 | specification of parseResourcesFromBlock (computed by Terraform.ParseResourcesFromBlock; properties in NestedMerge, NestedIgnoresSubBlocks) |
| Extraction.FoldBlocks | pkg/parser/hcl/hcl.go:173-175 | specification of the nested-block loop of parseResource (properties in FoldBlocksFrame, FoldLastWins) |
| Extraction.ResourceOf | pkg/parser/hcl/hcl.go:160-178 | specification of parseResource (computed by Terraform.ParseResource; properties in ResourceContents) |
| Extraction.AddBlock | pkg/parser/hcl/hcl.go:127-134 | specification of one iteration of parseConfig's dispatch on the block keyword |
| Extraction.ConfigOf | pkg/parser/hcl/hcl.go:121-138 | specification of parseConfig (computed by Terraform.ParseConfig; properties in ConfigDispatch, ConfigIgnoresOtherBlocks) |
| Extraction.LoadFile | pkg/parser/hcl/hcl.go:104-118 | specification of parseHCLFile over the parser's outcome (computed by Terraform.ParseHCLFile) |
| Extraction.Merge | pkg/parser/hcl/hcl.go:96-98 | specification of parseSingleFile's appends (computed by Terraform.Config.Append) |
| Extraction.EvaluatedNone | pkg/parser/hcl/hcl.go:147 | before the attribute loop, nothing is evaluated |
| Extraction.EvaluatedStep | pkg/parser/hcl/hcl.go:147-149 | one loop iteration adds one evaluated attribute |
| Extraction.EvaluatedAll | pkg/parser/hcl/hcl.go:147-154 | once every attribute is visited, the map built is `Attributes` |
| Extraction.EvaluationFails | pkg/parser/hcl/hcl.go:148 | one attribute's panic is the whole map's panic |
| ExtractionProperties.ModuleContents | pkg/parser/hcl/hcl.go:141-157 | labels unchanged; one attribute per name with its evaluation; Source is the evaluated "source" when present, else "" |
| ExtractionProperties.ModuleSucceedsIff | pkg/parser/hcl/hcl.go:147-153 | a module is extracted iff every attribute evaluates and "source" is not an object; a panic is a failed `.(string)` |
| ExtractionProperties.NestedMerge | pkg/parser/hcl/hcl.go:181-192 | panics with a failed map assertion iff the type key holds a string; otherwise only that key changes, and its map holds the old entries overwritten by the block's evaluated attributes |
| ExtractionProperties.NestedIgnoresSubBlocks | pkg/parser/hcl/hcl.go:181-192 | the nested block's labels and own sub-blocks play no part |
| ExtractionProperties.BlockTypesSnoc | pkg/parser/hcl/hcl.go:173-175 | the set of types of these blocks grows by the last block's type |
| ExtractionProperties.FoldBlocksFrame | pkg/parser/hcl/hcl.go:173-175 | folding nested blocks adds exactly their types as keys, leaves every other key unchanged, and leaves a map under each type |
| ExtractionProperties.RepeatedNestedType | pkg/parser/hcl/hcl.go:173-191 | for two nested blocks of one type, the second's attributes win and the first's others survive |
| ExtractionProperties.LastDefining | pkg/parser/hcl/hcl.go:173-191 | the index of the last nested block of a type that sets a name, or none when no block of that type sets it |
| ExtractionProperties.NestedEntry | pkg/parser/hcl/hcl.go:181-192 | helper for FoldLastWins: folding one block sets name n under type t when the block sets it, keeps the old entry when the block has type t but does not, and leaves t alone for any other type |
| ExtractionProperties.FoldLastWins | pkg/parser/hcl/hcl.go:173-191 | after any number of nested blocks, name n under type t holds the evaluation from the last block of type t that sets n; otherwise it is the entry that the resource's own attribute t had, or absent |
| ExtractionProperties.NestedFine | pkg/parser/hcl/hcl.go:181-190 | helper for ResourceSucceedsIff: a nested block's attributes evaluate and its type, if among the evaluated attributes, holds a map |
| ExtractionProperties.FoldSucceedsIff | pkg/parser/hcl/hcl.go:173-190 | the nested-block loop succeeds iff every nested block is fine against the resource's own evaluated attributes |
| ExtractionProperties.NestedOk | pkg/parser/hcl/hcl.go:181-190 | a nested block's attributes are evaluable and a top-level attribute of its type name, if any, is an object constructor |
| ExtractionProperties.ResourceSucceedsIff | pkg/parser/hcl/hcl.go:160-190 | a resource extracts iff it has two labels, its attributes are evaluable, and every nested block is `NestedOk`, so a scalar attribute sharing a nested block's name panics |
| ExtractionProperties.ResourceContents | pkg/parser/hcl/hcl.go:160-178 | fewer than two labels panic; otherwise type and name are labels 0 and 1, labels unchanged, keys are the attributes plus nested types, and non-nested attributes hold their evaluation |
| ExtractionProperties.OfType | pkg/parser/hcl/hcl.go:127-134 | helper for ConfigDispatch: every block it keeps has the keyword (completeness and order in OfTypeAppend and OfTypeMembership) |
| ExtractionProperties.OfTypeAppend | pkg/parser/hcl/hcl.go:126-134 | the blocks of one keyword in `a + b` are those of `a` followed by those of `b`, so declaration order is kept |
| ExtractionProperties.OfTypeMembership | pkg/parser/hcl/hcl.go:126-134 | a block is kept iff it is one of the blocks and has the keyword |
| ExtractionProperties.ConfigDispatch | pkg/parser/hcl/hcl.go:121-138 | succeeds iff every recognised block extracts; then one module, resource or local per block of that keyword, in order, and no variables |
| ExtractionProperties.ConfigIgnoresOtherBlocks | pkg/parser/hcl/hcl.go:127-134 | blocks other than module, resource and locals do not affect the configuration |
| ExtractionProperties.QuotedIsItself | pkg/parser/hcl/hcl.go:254-258 | a quoted string (a one-literal template) evaluates to itself |
| ExtractionProperties.ResourceExample | pkg/parser/hcl/hcl.go:160-178 | `resource "aws_instance" "web" { ami = "abc123" }` extracts as expected |
| ExtractionProperties.AttributeBlockClash | pkg/parser/hcl/hcl.go:181-190 | `resource "a" "b" { environment = "x"  environment { k = "v" } }` panics with a failed map assertion |
| ExtractionProperties.ModuleExample | pkg/parser/hcl/hcl.go:141-157 | a module with source and cidr extracts with Source set |
| ExtractionProperties.LocalsExample | pkg/parser/hcl/hcl.go:195-206 | `locals { a = 1  b = "x" }` gives {"a": "1", "b": "x"} |
| Terraform.Resource.constructor | pkg/parser/hcl/hcl.go:161-166 | type, name and labels set, attributes empty |
| Terraform.Module.constructor | pkg/parser/hcl/hcl.go:142-145 | labels set, source "", attributes empty |
| Terraform.Local.constructor | pkg/parser/hcl/hcl.go:196-198 | attributes empty |
| Terraform.Variable.constructor | pkg/parser/hcl/hcl.go:40-42 | attributes empty; exists only for completeness of the declared struct, since the extractor never builds a `Variable` |
| Terraform.Config.constructor | pkg/parser/hcl/hcl.go:117 | an empty configuration |
| Terraform.Config.FromParts | pkg/parser/hcl/hcl.go:137 | the three collected sequences, no variables |
| Terraform.Config.Append | pkg/parser/hcl/hcl.go:96-98 | modules, resources and locals appended after the existing ones, variables unchanged, contents equal to `Merge` |
| Terraform.ResourcesData | pkg/parser/hcl/hcl.go:46 | one value per resource |
| Terraform.ModulesData | pkg/parser/hcl/hcl.go:47 | one value per module |
| Terraform.LocalsData | pkg/parser/hcl/hcl.go:49 | one value per local |
| Terraform.VariablesData | pkg/parser/hcl/hcl.go:48 | one value per variable |
| Terraform.ParseModule | pkg/parser/hcl/hcl.go:141-157 | returns a new module equal to `ModuleOf`, or `ModuleOf`'s panic |
| Terraform.SourceNotAString | pkg/parser/hcl/hcl.go:151-152 | a "source" that evaluates to a map panics the module |
| Terraform.ParseLocals | pkg/parser/hcl/hcl.go:195-206 | returns a new local equal to `LocalOf`, or its panic |
| Terraform.ParseResourcesFromBlock | pkg/parser/hcl/hcl.go:181-192 | type, name and labels unchanged; attributes become `NestedInto` of the old ones, or its panic (a failed map assertion included) |
| Terraform.ParseResource | pkg/parser/hcl/hcl.go:160-178 | returns a new resource equal to `ResourceOf`, or its panic (the label panic included) |
| Terraform.FoldStep | pkg/parser/hcl/hcl.go:173-175 | helper for the loop proof of ParseResource: one more nested block folds by `NestedInto` |
| Terraform.FoldPanicSticks | pkg/parser/hcl/hcl.go:173-175 | a panic on some nested block panics the whole resource |
| Terraform.ConfigPanicSticks | pkg/parser/hcl/hcl.go:126-135 | a panic on some block panics the whole file |
| Terraform.ParseConfig | pkg/parser/hcl/hcl.go:121-138 | returns a new configuration whose contents equal `ConfigOf` of the blocks, or its panic |
| Terraform.ConfigStep | pkg/parser/hcl/hcl.go:126-135 | helper for the loop proof of ParseConfig: one more block is added by `AddBlock` |
| Terraform.ParseHCLFile | pkg/parser/hcl/hcl.go:104-118 | a new configuration equal to `LoadFile`'s, the parser's error, or the extraction's panic |
| Terraform.ParseSingleFile | pkg/parser/hcl/hcl.go:90-101 | on success the file's entities are appended after the existing ones (`Merge`), which stay as they were; on an error or a panic the configuration is unchanged; variables never change |
| Terraform.ResourcesUnchanged | pkg/parser/hcl/hcl.go:20-25 | a resource's contents depend only on its own fields |
| Terraform.ModulesUnchanged | pkg/parser/hcl/hcl.go:28-32 | a module's contents depend only on its own fields |
| Terraform.LocalsUnchanged | pkg/parser/hcl/hcl.go:35-37 | a local's contents depend only on its own fields |
| Terraform.VariablesUnchanged | pkg/parser/hcl/hcl.go:40-42 | a variable's contents depend only on its own fields |
| Terraform.ResourcesAppend | pkg/parser/hcl/hcl.go:97 | contents of appended resources are the appended contents |
| Terraform.ModulesAppend | pkg/parser/hcl/hcl.go:96 | contents of appended modules are the appended contents |
| Terraform.LocalsAppend | pkg/parser/hcl/hcl.go:98 | contents of appended locals are the appended contents |

## Left out

- `Parse` and `parseDirectory` (hcl.go:53-87) are left out: they sequence files from `filepath.Walk` and caller lists, which is I/O. The walk's line-81 filter is modelled as `Paths.WalkSelects`.
- `os.Stat` and `hclparse.Parser.ParseHCLFile` (hcl.go:106-111) are foreign. Their outcome is an input: a file is `Missing`, `Malformed(diagnostics)` or `Parsed(body)`.
- The hclsyntax and cty libraries are foreign. Their output is the `Expr`, `Block` and `CtyValue` datatypes, and every node kind the evaluator does not name is `Unsupported`.
- Scalars.ConvertValueToString: number formatting with `big.Float.String` (hcl.go:230) is not modelled. A number literal carries the text that formatting produces, and no round-trip of numeric precision is claimed.
- The `fmtcolor` warnings (hcl.go:239, 278, 305, 311) are console output and are not modelled. They do not affect any result.
- The text of error messages (`fmt.Errorf`, hcl.go:93, 110) is not modelled. The parser's diagnostics are passed through as they are.
- Go map iteration order is not modelled. A map argument's key order is a parameter of the evaluator. Lemmas about map arguments assume only that it enumerates the keys, so rendering maps with more than one key is stated only through `Entries`.
- Evaluator.Eval: the key order is one function of the key set for the whole evaluation, so every map argument with the same keys is rendered in the same order. Each `range` at hcl.go:298 draws a fresh order in Go, so `f({a = "1", b = "2"}, {a = "1", b = "2"})` may render its two arguments differently there, an outcome the model does not produce.
- EvaluatorLoops.RenderEntries: it skips a key missing from the map. Go's `range` only yields present keys, so this guard is needed only because the order is an arbitrary parameter.
- Null and unknown cty values are not modelled as such. The `null` keyword, of type `cty.DynamicPseudoType`, falls to the default branch (hcl.go:238-240) and is `OtherVal`, rendering as "", as do the types other than number, string and bool. A null or unknown value of type string or number would panic inside `AsString` / `AsBigFloat` (hcl.go:230-232), and a null bool renders "false" (hcl.go:234-237). The model has no typed null or unknown value, so it has neither of those outcomes.
- Terraform.ParseResourcesFromBlock: the Go code writes through the alias `data` of the inner map (hcl.go:187-190). The model builds the map in a local and stores it back once, which leaves the same final state. Because a panic ends the run, the partly written state after a panic is not modelled.
- Panics are not unwound: a `Panic` result ends the operation. Go would also abort the whole `Parse` call, which is left out.
