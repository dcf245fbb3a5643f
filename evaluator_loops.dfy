/** evaluateExpression and evaluateFunctionExpression as the source writes them:
    loops that accumulate into a result string, a result map and the argument
    text, each proved to compute the recursive specification of module Evaluator. */
module EvaluatorLoops {
  import opened Syntax
  import opened Evaluator
  import Traversal
  import Scalars

  /** evaluateExpression. Returns `Panic(NotAString)` where the source's
      `.(string)` assertion would panic. */
  method EvaluateExpression(expr: Expr, order: KeyOrder) returns (r: Result<Value>)
    ensures r == Eval(expr, order)
    decreases expr, 1
  {
    var resultString := "";
    match expr {
      case ScopeTraversal(t) =>
        resultString := Traversal.BuildVarExpressions(t);
      case LiteralValue(v) =>
        resultString := Scalars.ConvertValueToString(v);
      case Template(parts) =>
        for i := 0 to |parts|
          invariant Concat(parts[..i], "", order) == Ok(resultString)
        {
          var part := EvaluateExpression(parts[i], order);
          if !(part.Ok? && part.value.Str?) {
            ConcatPanicSticks(parts, "", order, i + 1);
            return Panic(NotAString);
          }
          ConcatStep(parts, "", order, i, resultString, part.value.s);
          assert resultString + part.value.s + "" == resultString + part.value.s;
          resultString := resultString + part.value.s;
        }
        assert parts[..|parts|] == parts;
      case TupleCons(exprs) =>
        for i := 0 to |exprs|
          invariant Concat(exprs[..i], ",", order) == Ok(resultString)
        {
          var elem := EvaluateExpression(exprs[i], order);
          if !(elem.Ok? && elem.value.Str?) {
            ConcatPanicSticks(exprs, ",", order, i + 1);
            return Panic(NotAString);
          }
          ConcatStep(exprs, ",", order, i, resultString, elem.value.s);
          resultString := resultString + elem.value.s + ",";
        }
        assert exprs[..|exprs|] == exprs;
      case ObjectConsKey(wrapped) =>
        var w := EvaluateExpression(wrapped, order);
        if !(w.Ok? && w.value.Str?) {
          return Panic(NotAString);
        }
        resultString := w.value.s;
      case ObjectCons(items) =>
        var resultMap: map<string, Value> := map[];
        for i := 0 to |items|
          invariant EvalItems(items[..i], order) == Ok(resultMap)
        {
          var item := items[i];
          assert item in items;
          var key := EvaluateExpression(item.keyExpr, order);
          var value := EvaluateExpression(item.valueExpr, order);
          if !(key.Ok? && key.value.Str?) || value.Panic? {
            ItemsPanicSticks(items, order, i + 1);
            return Panic(NotAString);
          }
          ItemsStep(items, order, i, resultMap, key.value.s, value.value);
          resultMap := resultMap[key.value.s := value.value];
        }
        assert items[..|items|] == items;
        return Ok(Obj(resultMap));
      case Index(collection, _) =>
        var c := EvaluateExpression(collection, order);
        if !(c.Ok? && c.value.Str?) {
          return Panic(NotAString);
        }
        resultString := c.value.s;
      case FunctionCall(_, _) =>
        var call := EvaluateFunctionExpression(expr, order);
        if call.Panic? {
          return Panic(call.fault);
        }
        resultString := call.value;
      case Unsupported(_) =>
    }
    return Ok(Str(resultString));
  }

  /** evaluateFunctionExpression: `name(` + the arguments' text + `)`. */
  method EvaluateFunctionExpression(call: Expr, order: KeyOrder) returns (r: Result<string>)
    requires call.FunctionCall?
    ensures StrOf(r) == Eval(call, order)
    decreases call, 0
  {
    var args := "";
    for i := 0 to |call.args|
      invariant CallArgs(call.args[..i], order) == Ok(args)
    {
      var exp := EvaluateExpression(call.args[i], order);
      if exp.Panic? {
        ArgsPanicSticks(call.args, order, i + 1);
        return Panic(exp.fault);
      }
      ArgsStep(call.args, order, i, args, exp.value);
      match exp.value {
        case Str(s) =>
          args := args + s;
        case Obj(m) =>
          var values := RenderEntries(m, order);
          assert args + "{" + values + "}" == args + ArgText(Obj(m), order);
          args := args + "{" + values + "}";
      }
    }
    assert call.args[..|call.args|] == call.args;
    return Ok(call.name + "(" + args + ")");
  }

  lemma ConcatStep(es: seq<Expr>, suffix: string, order: KeyOrder, i: nat, acc: string, s: string)
    requires i < |es| && Concat(es[..i], suffix, order) == Ok(acc) && Eval(es[i], order) == Ok(Str(s))
    ensures Concat(es[..i + 1], suffix, order) == Ok(acc + s + suffix)
  {
    assert es[..i + 1][..i] == es[..i];
  }

  lemma ItemsStep(items: seq<ObjectItem>, order: KeyOrder, i: nat, m: map<string, Value>, k: string, v: Value)
    requires i < |items| && EvalItems(items[..i], order) == Ok(m)
    requires Eval(items[i].keyExpr, order) == Ok(Str(k)) && Eval(items[i].valueExpr, order) == Ok(v)
    ensures EvalItems(items[..i + 1], order) == Ok(m[k := v])
  {
    assert items[..i + 1][..i] == items[..i];
  }

  lemma ArgsStep(args: seq<Expr>, order: KeyOrder, i: nat, acc: string, v: Value)
    requires i < |args| && CallArgs(args[..i], order) == Ok(acc) && Eval(args[i], order) == Ok(v)
    ensures CallArgs(args[..i + 1], order) == Ok(acc + ArgText(v, order))
  {
    assert args[..i + 1][..i] == args[..i];
  }

  /** The inner `range` loop of evaluateFunctionExpression over a map argument. */
  method RenderEntries(m: map<string, Value>, order: KeyOrder) returns (values: string)
    ensures values == Entries(order(m.Keys), m)
  {
    var ks := order(m.Keys);
    values := "";
    for j := 0 to |ks|
      invariant values == Entries(ks[..j], m)
    {
      assert ks[..j + 1][..j] == ks[..j];
      var k := ks[j];
      if k in m {
        values := values + k;
        match m[k] {
          case Str(v) =>
            values := values + ":" + v;
          case Obj(_) =>
        }
      }
    }
    assert ks[..|ks|] == ks;
  }
}
