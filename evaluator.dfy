/** evaluateExpression and evaluateFunctionExpression, as recursive functions:
    the specification the loop versions in module EvaluatorLoops are proved against. */
module Evaluator {
  import opened Syntax
  import Traversal
  import Scalars

  /** The `.(string)` assertion applied to a sub-evaluation. */
  function AsString(r: Result<Value>): Result<string> {
    match r
    case Ok(Str(s)) => Ok(s)
    case Ok(Obj(_)) => Panic(NotAString)
    case Panic(f) => Panic(f)
  }

  function StrOf(r: Result<string>): Result<Value> {
    match r
    case Ok(s) => Ok(Str(s))
    case Panic(f) => Panic(f)
  }

  /** evaluateExpression. The only runtime failure is a `.(string)` assertion
      meeting a map, and only an object constructor yields a map. */
  function Eval(e: Expr, order: KeyOrder): (r: Result<Value>)
    ensures r.Panic? ==> r.fault == NotAString
    ensures r.Ok? ==> (r.value.Obj? <==> e.ObjectCons?)
    decreases e, 1
  {
    match e
    case ScopeTraversal(t) => Ok(Str(Traversal.VarExpression(t)))
    case LiteralValue(v) => Ok(Str(Scalars.ConvertValueToString(v)))
    case Template(parts) => StrOf(Concat(parts, "", order))
    case TupleCons(es) => StrOf(Concat(es, ",", order))
    case ObjectConsKey(w) => StrOf(AsString(Eval(w, order)))
    case ObjectCons(items) =>
      (match EvalItems(items, order)
       case Ok(m) => Ok(Obj(m))
       case Panic(f) => Panic(f))
    case Index(c, _) => StrOf(AsString(Eval(c, order)))
    case FunctionCall(name, args) =>
      (match CallArgs(args, order)
       case Ok(a) => Ok(Str(name + "(" + a + ")"))
       case Panic(f) => Panic(f))
    case Unsupported(_) => Ok(Str(""))
  }

  /** The string of each expression followed by `suffix`, in order: "" for a
      template's parts, "," for a tuple's elements. */
  function Concat(es: seq<Expr>, suffix: string, order: KeyOrder): (r: Result<string>)
    ensures r.Panic? ==> r.fault == NotAString
    decreases es
  {
    if es == [] then Ok("")
    else
      match Concat(es[..|es| - 1], suffix, order)
      case Panic(f) => Panic(f)
      case Ok(acc) =>
        match AsString(Eval(es[|es| - 1], order))
        case Panic(f) => Panic(f)
        case Ok(s) => Ok(acc + s + suffix)
  }

  /** One object item: its key, which must be a string, and its value. */
  function EvalItem(item: ObjectItem, order: KeyOrder): (r: Result<(string, Value)>)
    ensures r.Panic? ==> r.fault == NotAString
    decreases item, 0
  {
    match AsString(Eval(item.keyExpr, order))
    case Panic(f) => Panic(f)
    case Ok(k) =>
      match Eval(item.valueExpr, order)
      case Panic(f) => Panic(f)
      case Ok(v) => Ok((k, v))
  }

  /** The map an object constructor builds, item by item, a later item
      overwriting an earlier one with the same key. */
  function EvalItems(items: seq<ObjectItem>, order: KeyOrder): (r: Result<map<string, Value>>)
    ensures r.Panic? ==> r.fault == NotAString
    decreases items
  {
    if items == [] then Ok(map[])
    else
      var last := items[|items| - 1];
      assert last in items;
      match EvalItems(items[..|items| - 1], order)
      case Panic(f) => Panic(f)
      case Ok(m) =>
        match EvalItem(last, order)
        case Panic(f) => Panic(f)
        case Ok(kv) => Ok(m[kv.0 := kv.1])
  }

  /** The argument text evaluateFunctionExpression builds: each argument's text, in order. */
  function CallArgs(args: seq<Expr>, order: KeyOrder): (r: Result<string>)
    ensures r.Panic? ==> r.fault == NotAString
    decreases args
  {
    if args == [] then Ok("")
    else
      match CallArgs(args[..|args| - 1], order)
      case Panic(f) => Panic(f)
      case Ok(acc) =>
        match Eval(args[|args| - 1], order)
        case Panic(f) => Panic(f)
        case Ok(v) => Ok(acc + ArgText(v, order))
  }

  /** A string argument as it is; a map argument as its entries in braces, in
      the order Go's `range` visits its keys. */
  function ArgText(v: Value, order: KeyOrder): string {
    match v
    case Str(s) => s
    case Obj(m) => "{" + Entries(order(m.Keys), m) + "}"
  }

  /** `k` then `:v` when the value is a string, for each key visited. */
  function Entries(ks: seq<string>, m: map<string, Value>): string {
    if ks == [] then ""
    else Entries(ks[..|ks| - 1], m) + EntryText(ks[|ks| - 1], m)
  }

  function EntryText(k: string, m: map<string, Value>): string {
    if k !in m then ""
    else if m[k].Str? then k + ":" + m[k].s
    else k
  }

  // ---------------------------------------------------------------------
  // When evaluation panics: a syntactic characterisation.

  /** No `.(string)` assertion of the source meets a map inside `e`: no object
      constructor sits where a string is asserted (a template part, a tuple
      element, an object key, a wrapped key, an indexed collection). */
  predicate Evaluable(e: Expr)
    decreases e, 1
  {
    match e
    case Template(parts) => forall i | 0 <= i < |parts| :: StringLike(parts[i])
    case TupleCons(es) => forall i | 0 <= i < |es| :: StringLike(es[i])
    case ObjectConsKey(w) => StringLike(w)
    case ObjectCons(items) => forall i | 0 <= i < |items| :: ItemEvaluable(items[i])
    case Index(c, _) => StringLike(c)
    case FunctionCall(_, args) => forall i | 0 <= i < |args| :: Evaluable(args[i])
    case _ => true
  }

  predicate StringLike(e: Expr)
    decreases e, 2
  {
    Evaluable(e) && !e.ObjectCons?
  }

  predicate ItemEvaluable(item: ObjectItem)
    decreases item, 2
  {
    StringLike(item.keyExpr) && Evaluable(item.valueExpr)
  }

  /** Evaluation succeeds exactly on the expressions `Evaluable` admits, under
      every key order. */
  lemma {:induction false} EvalSucceedsIff(e: Expr, order: KeyOrder)
    ensures Eval(e, order).Ok? <==> Evaluable(e)
    decreases e, 1
  {
    match e
    case Template(parts) => ConcatSucceedsIff(parts, "", order);
    case TupleCons(es) => ConcatSucceedsIff(es, ",", order);
    case ObjectConsKey(w) => EvalSucceedsIff(w, order);
    case ObjectCons(items) => ItemsSucceedIff(items, order);
    case Index(c, _) => EvalSucceedsIff(c, order);
    case FunctionCall(_, args) => ArgsSucceedIff(args, order);
    case _ =>
  }

  lemma {:induction false} ConcatSucceedsIff(es: seq<Expr>, suffix: string, order: KeyOrder)
    ensures Concat(es, suffix, order).Ok? <==> forall i | 0 <= i < |es| :: StringLike(es[i])
    decreases es
  {
    if es != [] {
      var init := es[..|es| - 1];
      ConcatSucceedsIff(init, suffix, order);
      EvalSucceedsIff(es[|es| - 1], order);
      assert forall i | 0 <= i < |init| :: init[i] == es[i];
    }
  }

  lemma {:induction false} ItemsSucceedIff(items: seq<ObjectItem>, order: KeyOrder)
    ensures EvalItems(items, order).Ok? <==> forall i | 0 <= i < |items| :: ItemEvaluable(items[i])
    decreases items
  {
    if items != [] {
      var init := items[..|items| - 1];
      var last := items[|items| - 1];
      assert last in items;
      ItemsSucceedIff(init, order);
      ItemSucceedsIff(last, order);
      assert forall i | 0 <= i < |init| :: init[i] == items[i];
    }
  }

  lemma {:induction false} ItemSucceedsIff(item: ObjectItem, order: KeyOrder)
    ensures EvalItem(item, order).Ok? <==> ItemEvaluable(item)
    decreases item, 0
  {
    EvalSucceedsIff(item.keyExpr, order);
    EvalSucceedsIff(item.valueExpr, order);
  }

  lemma {:induction false} ArgsSucceedIff(args: seq<Expr>, order: KeyOrder)
    ensures CallArgs(args, order).Ok? <==> forall i | 0 <= i < |args| :: Evaluable(args[i])
    decreases args
  {
    if args != [] {
      var init := args[..|args| - 1];
      ArgsSucceedIff(init, order);
      EvalSucceedsIff(args[|args| - 1], order);
      assert forall i | 0 <= i < |init| :: init[i] == args[i];
    }
  }

  // ---------------------------------------------------------------------
  // Properties of the individual node kinds.

  /** An object constructor that evaluates has every item evaluated. */
  lemma {:induction false} ItemsAllEvaluate(items: seq<ObjectItem>, order: KeyOrder)
    requires EvalItems(items, order).Ok?
    ensures forall i | 0 <= i < |items| :: EvalItem(items[i], order).Ok?
    decreases items
  {
    if items != [] {
      var n := |items| - 1;
      assert items[n] in items;
      ItemsAllEvaluate(items[..n], order);
      assert forall i | 0 <= i < n :: items[..n][i] == items[i];
    }
  }

  /** The map of an object constructor has exactly its items' evaluated keys. */
  lemma {:induction false} ObjectKeys(items: seq<ObjectItem>, order: KeyOrder)
    requires EvalItems(items, order).Ok?
    ensures forall i | 0 <= i < |items| :: EvalItem(items[i], order).Ok?
    ensures forall k :: k in EvalItems(items, order).value <==>
      exists i | 0 <= i < |items| :: EvalItem(items[i], order).value.0 == k
    decreases items
  {
    ItemsAllEvaluate(items, order);
    if items != [] {
      var n := |items| - 1;
      var init := items[..n];
      assert items[n] in items;
      ObjectKeys(init, order);
      assert forall i | 0 <= i < n :: init[i] == items[i];
      var kv := EvalItem(items[n], order).value;
      forall k
        ensures k in EvalItems(items, order).value <==>
          exists i | 0 <= i < |items| :: EvalItem(items[i], order).value.0 == k
      {
        if k != kv.0 && k in EvalItems(init, order).value {
          var i :| 0 <= i < n && EvalItem(init[i], order).value.0 == k;
          assert EvalItem(items[i], order).value.0 == k;
        }
      }
    }
  }

  /** Each key of an object constructor's map is bound to the value of the LAST
      item carrying that key: a later item overwrites an earlier one. */
  lemma {:induction false} ObjectLastWins(items: seq<ObjectItem>, order: KeyOrder, i: nat)
    requires EvalItems(items, order).Ok?
    requires i < |items|
    ensures EvalItem(items[i], order).Ok?
    ensures var kv := EvalItem(items[i], order).value;
      (forall j | i < j < |items| :: !EvalItem(items[j], order).Ok? || EvalItem(items[j], order).value.0 != kv.0) ==>
        kv.0 in EvalItems(items, order).value && EvalItems(items, order).value[kv.0] == kv.1
    decreases items
  {
    ItemsAllEvaluate(items, order);
    var n := |items| - 1;
    var init := items[..n];
    assert items[n] in items;
    if i < n {
      assert init[i] == items[i];
      assert forall j | i < j < n :: init[j] == items[j];
      ObjectLastWins(init, order, i);
    }
  }

  /** A template over `a + b` is the template over `a` followed by the one over
      `b`: parts are concatenated in order, and a failing part fails the whole. */
  lemma {:induction false} ConcatAppend(a: seq<Expr>, b: seq<Expr>, suffix: string, order: KeyOrder)
    ensures Concat(a + b, suffix, order) ==
      if Concat(a, suffix, order).Ok? && Concat(b, suffix, order).Ok?
      then Ok(Concat(a, suffix, order).value + Concat(b, suffix, order).value)
      else Panic(NotAString)
    decreases |b|
  {
    if b == [] {
      assert a + b == a;
      if Concat(a, suffix, order).Ok? {
        assert Concat(a, suffix, order).value + "" == Concat(a, suffix, order).value;
      }
    } else {
      var init := b[..|b| - 1];
      var last := b[|b| - 1];
      assert (a + b)[..|a + b| - 1] == a + init;
      assert (a + b)[|a + b| - 1] == last;
      ConcatAppend(a, init, suffix, order);
      var x := AsString(Eval(last, order));
      if Concat(a, suffix, order).Ok? && Concat(init, suffix, order).Ok? && x.Ok? {
        var p, q := Concat(a, suffix, order).value, Concat(init, suffix, order).value;
        assert Concat(a + b, suffix, order) == Ok(p + q + x.value + suffix);
        AppendRegroups(p, q, x.value, suffix);
      }
    }
  }

  lemma AppendRegroups(p: string, q: string, r: string, s: string)
    ensures p + q + r + s == p + (q + r + s)
  {
  }

  /** A template of parts `a` then `b` renders as the rendering of `a`'s parts
      followed by the rendering of `b`'s parts. */
  lemma TemplateConcatenates(a: seq<Expr>, b: seq<Expr>, order: KeyOrder)
    requires Eval(Template(a + b), order).Ok?
    ensures Eval(Template(a), order).Ok? && Eval(Template(b), order).Ok?
    ensures Eval(Template(a + b), order).value.s == Eval(Template(a), order).value.s + Eval(Template(b), order).value.s
  {
    ConcatAppend(a, b, "", order);
  }

  /** A tuple of n elements renders as each element followed by a comma: empty
      exactly when n = 0, otherwise ending in a comma, with at least n commas. */
  lemma {:induction false} TupleShape(es: seq<Expr>, order: KeyOrder)
    requires Concat(es, ",", order).Ok?
    ensures var s := Concat(es, ",", order).value;
      && (s == "" <==> es == [])
      && (es != [] ==> s[|s| - 1] == ',')
      && Traversal.Count(',', s) >= |es|
    decreases es
  {
    if es != [] {
      var init := es[..|es| - 1];
      TupleShape(init, order);
      var acc := Concat(init, ",", order).value;
      var x := AsString(Eval(es[|es| - 1], order)).value;
      Traversal.CountAppend(',', acc + x, ",");
      Traversal.CountAppend(',', acc, x);
      assert Traversal.Count(',', ",") == 1 by {
        assert ","[1..] == "";
      }
    }
  }

  /** Evaluating a tuple is `TupleShape`'s Concat with a "," suffix. */
  lemma TupleRendersCommaTerminated(es: seq<Expr>, order: KeyOrder)
    requires Eval(TupleCons(es), order).Ok?
    ensures var s := Eval(TupleCons(es), order).value.s;
      && (s == "" <==> es == [])
      && (es != [] ==> s[|s| - 1] == ',')
      && Traversal.Count(',', s) >= |es|
  {
    TupleShape(es, order);
  }

  /** An index expression is its collection's string; the key is never looked at. */
  lemma IndexIgnoresKey(c: Expr, k1: Expr, k2: Expr, order: KeyOrder)
    ensures Eval(Index(c, k1), order) == Eval(Index(c, k2), order)
    ensures Eval(Index(c, k1), order).Ok? <==> Eval(c, order).Ok? && Eval(c, order).value.Str?
    ensures Eval(Index(c, k1), order).Ok? ==> Eval(Index(c, k1), order).value == Eval(c, order).value
  {
  }

  lemma {:induction false} ArgsOfStrings(args: seq<Expr>, order: KeyOrder)
    requires forall i | 0 <= i < |args| :: StringLike(args[i])
    ensures CallArgs(args, order) == Concat(args, "", order)
    decreases args
  {
    if args != [] {
      var init := args[..|args| - 1];
      assert forall i | 0 <= i < |init| :: init[i] == args[i];
      ArgsOfStrings(init, order);
      EvalSucceedsIff(args[|args| - 1], order);
      if CallArgs(init, order).Ok? {
        var acc, x := CallArgs(init, order).value, Eval(args[|args| - 1], order).value.s;
        assert acc + x + "" == acc + x;
      }
    }
  }

  /** A call whose arguments all evaluate to strings is rebuilt as
      `name(` + the arguments concatenated with no separator + `)`. */
  lemma CallOfStrings(name: string, args: seq<Expr>, order: KeyOrder)
    requires forall i | 0 <= i < |args| :: StringLike(args[i])
    ensures Eval(Template(args), order).Ok?
    ensures Eval(FunctionCall(name, args), order) == Ok(Str(name + "(" + Eval(Template(args), order).value.s + ")"))
  {
    ConcatSucceedsIff(args, "", order);
    ArgsOfStrings(args, order);
  }

  lemma SingletonEnumeration(ks: seq<string>, k: string)
    requires IsEnumeration(ks, {k})
    ensures ks == [k]
  {
    assert |ks| == 1;
    assert ks[0] in multiset(ks);
  }

  lemma EmptyEnumeration(ks: seq<string>)
    requires IsEnumeration(ks, {})
    ensures ks == []
  {
    var none: set<string> := {};
    assert multiset(none) == multiset{};
    assert |ks| == |multiset(ks)|;
  }

  /** An empty map argument renders as "{}". */
  lemma EmptyMapArg(order: KeyOrder)
    requires IsEnumeration(order({}), {})
    ensures ArgText(Obj(map[]), order) == "{}"
  {
    var empty: map<string, Value> := map[];
    assert empty.Keys == {};
    EmptyEnumeration(order({}));
  }

  /** A one-entry map argument renders as its key, followed by ":value" only
      when the value is a string, in braces. */
  lemma SingleEntryMapArg(k: string, v: Value, order: KeyOrder)
    requires IsEnumeration(order({k}), {k})
    ensures ArgText(Obj(map[k := v]), order) == "{" + k + (if v.Str? then ":" + v.s else "") + "}"
  {
    var m := map[k := v];
    assert m.Keys == {k};
    SingletonEnumeration(order({k}), k);
    EntriesOfOne(k, m);
    assert EntryText(k, m) == k + (if v.Str? then ":" + v.s else "");
  }

  lemma EntriesOfOne(k: string, m: map<string, Value>)
    ensures Entries([k], m) == EntryText(k, m)
  {
    assert [k][..0] == [];
    assert "" + EntryText(k, m) == EntryText(k, m);
  }

  // ---------------------------------------------------------------------
  // A panic part-way through a loop is a panic of the whole node.

  lemma {:induction false} ConcatPanicSticks(es: seq<Expr>, suffix: string, order: KeyOrder, j: nat)
    requires j <= |es| && Concat(es[..j], suffix, order).Panic?
    ensures Concat(es, suffix, order).Panic?
    decreases |es|
  {
    if j < |es| {
      var init := es[..|es| - 1];
      assert init[..j] == es[..j];
      ConcatPanicSticks(init, suffix, order, j);
    } else {
      assert es[..j] == es;
    }
  }

  lemma {:induction false} ItemsPanicSticks(items: seq<ObjectItem>, order: KeyOrder, j: nat)
    requires j <= |items| && EvalItems(items[..j], order).Panic?
    ensures EvalItems(items, order).Panic?
    decreases |items|
  {
    if j < |items| {
      var init := items[..|items| - 1];
      assert init[..j] == items[..j];
      ItemsPanicSticks(init, order, j);
    } else {
      assert items[..j] == items;
    }
  }

  lemma {:induction false} ArgsPanicSticks(args: seq<Expr>, order: KeyOrder, j: nat)
    requires j <= |args| && CallArgs(args[..j], order).Panic?
    ensures CallArgs(args, order).Panic?
    decreases |args|
  {
    if j < |args| {
      var init := args[..|args| - 1];
      assert init[..j] == args[..j];
      ArgsPanicSticks(init, order, j);
    } else {
      assert args[..j] == args;
    }
  }
}
