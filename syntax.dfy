/** The already-parsed HCL tree the extractor consumes (standing in for the
    hclsyntax and cty libraries), the evaluator's result type, and the ways the
    Go code can panic. */
module Syntax {

  /** A literal's cty value, reduced to what the formatter looks at. */
  datatype CtyValue =
    | NumberVal(formatted: string)  // a number, carried as the text big.Float.String() gives for it
    | StringVal(text: string)
    | BoolVal(b: bool)
    | OtherVal(typeName: string)    // any other cty type: null, lists, maps, objects, ...

  /** One step of a reference path such as `aws_instance.web.id` or `var.list[0]`. */
  datatype Traverser =
    | TraverseRoot(name: string)
    | TraverseAttr(name: string)
    | TraverseIndex(key: CtyValue)
    | TraverseSplat

  /** The expression node kinds the evaluator distinguishes; every other hclsyntax
      node kind (conditionals, operators, for-expressions, ...) is `Unsupported`. */
  datatype Expr =
    | ScopeTraversal(traversal: seq<Traverser>)
    | LiteralValue(val: CtyValue)
    | Template(parts: seq<Expr>)
    | TupleCons(exprs: seq<Expr>)
    | ObjectConsKey(wrapped: Expr)
    | ObjectCons(items: seq<ObjectItem>)
    | Index(collection: Expr, key: Expr)
    | FunctionCall(name: string, args: seq<Expr>)
    | Unsupported(kind: string)

  datatype ObjectItem = ObjectItem(keyExpr: Expr, valueExpr: Expr)

  /** A block body: its attributes keyed by name (a Go map, so unordered) and its
      nested blocks in declaration order. */
  datatype Body = Body(attributes: map<string, Expr>, blocks: seq<Block>)

  datatype Block = Block(blockType: string, labels: seq<string>, body: Body)

  /** What evaluating an expression yields: the Go `any` that is either a string
      or a `map[string]any`. */
  datatype Value = Str(s: string) | Obj(m: map<string, Value>)

  /** The runtime panics the Go code can raise: a failed `.(string)` or
      `.(map[string]any)` assertion, or `Labels[i]` out of range. */
  datatype Fault = NotAString | NotAMap | LabelOutOfRange

  datatype Result<T> = Ok(value: T) | Panic(fault: Fault)

  datatype Option<T> = None | Some(value: T)

  /** The order in which Go's `range` happens to visit the keys of a map. */
  type KeyOrder = set<string> -> seq<string>

  /** True when `ks` lists every key of `keys` exactly once, as a Go map range does. */
  predicate IsEnumeration(ks: seq<string>, keys: set<string>) {
    multiset(ks) == multiset(keys)
  }
}
