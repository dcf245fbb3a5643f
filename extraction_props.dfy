/** Properties of the block extractors and of parseConfig's dispatch. */
module ExtractionProperties {
  import opened Syntax
  import opened Evaluator
  import opened Extraction

  // ---------------------------------------------------------------------
  // Modules

  /** A module keeps its labels, stores every attribute's evaluation under its
      name, and takes `Source` from the `source` attribute when there is one
      (otherwise ""). */
  lemma ModuleContents(block: Block, order: KeyOrder)
    requires ModuleOf(block, order).Ok?
    ensures var md := ModuleOf(block, order).value;
      && md.labels == block.labels
      && md.attributes.Keys == block.body.attributes.Keys
      && (forall n | n in block.body.attributes :: Eval(block.body.attributes[n], order) == Ok(md.attributes[n]))
      && ("source" in block.body.attributes ==> Eval(block.body.attributes["source"], order) == Ok(Str(md.source)))
      && ("source" !in block.body.attributes ==> md.source == "")
  {
  }

  /** A module block extracts exactly when every attribute evaluates and its
      `source`, if any, is not an object constructor (the only thing that
      evaluates to a map); otherwise the run panics on a failed `.(string)`. */
  lemma ModuleSucceedsIff(block: Block, order: KeyOrder)
    ensures ModuleOf(block, order).Ok? <==>
      && (forall n | n in block.body.attributes :: Evaluable(block.body.attributes[n]))
      && ("source" in block.body.attributes ==> !block.body.attributes["source"].ObjectCons?)
    ensures ModuleOf(block, order).Panic? ==> ModuleOf(block, order).fault == NotAString
  {
    var attrs := block.body.attributes;
    forall n | n in attrs
      ensures Eval(attrs[n], order).Ok? <==> Evaluable(attrs[n])
    {
      EvalSucceedsIff(attrs[n], order);
    }
  }

  // ---------------------------------------------------------------------
  // Resources

  /** The block types of a sequence of nested blocks. */
  function BlockTypes(blocks: seq<Block>): set<string> {
    set i | 0 <= i < |blocks| :: blocks[i].blockType
  }

  /** Folding one nested block writes only under its type: a map holding the
      earlier entries there, overwritten by the block's own evaluated
      attributes. It panics with NotAMap exactly when that key holds a string. */
  lemma NestedMerge(attrs: map<string, Value>, nested: Block, order: KeyOrder)
    ensures var t := nested.blockType;
      (NestedInto(attrs, nested, order).Panic? && NestedInto(attrs, nested, order).fault == NotAMap)
        <==> (t in attrs && attrs[t].Str?)
    ensures NestedInto(attrs, nested, order).Ok? ==>
      var t := nested.blockType;
      var a := NestedInto(attrs, nested, order).value;
      var own := nested.body.attributes;
      && a.Keys == attrs.Keys + {t}
      && (forall k | k in attrs && k != t :: a[k] == attrs[k])
      && a[t].Obj?
      && (forall n :: n in a[t].m <==> n in own || (t in attrs && n in attrs[t].m))
      && (forall n | n in own :: Eval(own[n], order) == Ok(a[t].m[n]))
      && (forall n | n !in own && t in attrs && n in attrs[t].m :: a[t].m[n] == attrs[t].m[n])
  {
  }

  /** The nested block's labels and its own nested blocks are ignored. */
  lemma NestedIgnoresSubBlocks(attrs: map<string, Value>, nested: Block, labels: seq<string>, blocks: seq<Block>, order: KeyOrder)
    ensures NestedInto(attrs, nested, order) ==
      NestedInto(attrs, Block(nested.blockType, labels, Body(nested.body.attributes, blocks)), order)
  {
  }

  lemma BlockTypesSnoc(blocks: seq<Block>)
    requires blocks != []
    ensures BlockTypes(blocks) == BlockTypes(blocks[..|blocks| - 1]) + {blocks[|blocks| - 1].blockType}
  {
    var init := blocks[..|blocks| - 1];
    forall t | t in BlockTypes(blocks)
      ensures t in BlockTypes(init) + {blocks[|blocks| - 1].blockType}
    {
      var i :| 0 <= i < |blocks| && blocks[i].blockType == t;
      if i < |init| {
        assert init[i] == blocks[i];
      }
    }
    forall t | t in BlockTypes(init)
      ensures t in BlockTypes(blocks)
    {
      var i :| 0 <= i < |init| && init[i].blockType == t;
      assert blocks[i] == init[i];
    }
  }

  /** Folding nested blocks never touches a key that is not one of their types,
      and leaves a map under every type it folded. */
  lemma {:induction false} FoldBlocksFrame(attrs: map<string, Value>, blocks: seq<Block>, order: KeyOrder)
    requires FoldBlocks(attrs, blocks, order).Ok?
    ensures var a := FoldBlocks(attrs, blocks, order).value;
      && a.Keys == attrs.Keys + BlockTypes(blocks)
      && (forall k | k in attrs && k !in BlockTypes(blocks) :: a[k] == attrs[k])
      && (forall t | t in BlockTypes(blocks) :: a[t].Obj?)
    decreases |blocks|
  {
    if blocks != [] {
      var init := blocks[..|blocks| - 1];
      var last := blocks[|blocks| - 1];
      FoldBlocksFrame(attrs, init, order);
      NestedMerge(FoldBlocks(attrs, init, order).value, last, order);
      BlockTypesSnoc(blocks);
    }
  }

  /** Two nested blocks of the same type share one map: a name set by the
      second wins, a name set only by the first keeps the first's value. */
  lemma RepeatedNestedType(attrs: map<string, Value>, b1: Block, b2: Block, order: KeyOrder)
    requires b1.blockType == b2.blockType
    requires FoldBlocks(attrs, [b1, b2], order).Ok?
    ensures var a := FoldBlocks(attrs, [b1, b2], order).value;
      var t := b1.blockType;
      && a[t].Obj?
      && (forall n | n in b2.body.attributes ::
            n in a[t].m && Eval(b2.body.attributes[n], order) == Ok(a[t].m[n]))
      && (forall n | n in b1.body.attributes && n !in b2.body.attributes ::
            n in a[t].m && Eval(b1.body.attributes[n], order) == Ok(a[t].m[n]))
  {
    assert [b1, b2][..1] == [b1];
    assert [b1][..0] == [];
    assert FoldBlocks(attrs, [], order) == Ok(attrs);
    var a1 := FoldBlocks(attrs, [b1], order);
    assert a1 == NestedInto(attrs, b1, order);
    NestedMerge(attrs, b1, order);
    NestedMerge(a1.value, b2, order);
  }

  /** The block of `t` is the one that writes name `n`. */
  predicate Defines(b: Block, t: string, n: string) {
    b.blockType == t && n in b.body.attributes
  }

  /** The index of the last nested block of type `t` that writes name `n`, if any. */
  function LastDefining(blocks: seq<Block>, t: string, n: string): (r: Option<nat>)
    ensures r.Some? ==>
      && r.value < |blocks|
      && Defines(blocks[r.value], t, n)
      && (forall j | r.value < j < |blocks| :: !Defines(blocks[j], t, n))
    ensures r.None? ==> forall j | 0 <= j < |blocks| :: !Defines(blocks[j], t, n)
  {
    if blocks == [] then None
    else if Defines(blocks[|blocks| - 1], t, n) then Some(|blocks| - 1)
    else LastDefining(blocks[..|blocks| - 1], t, n)
  }

  /** Nested blocks of one type share one map, written in declaration order:
      name `n` under type `t` holds the evaluation from the last block of type
      `t` that sets `n`; when no such block sets it, the entry (present or not)
      is the one the resource's own attribute `t` had. */
  lemma {:induction false} FoldLastWins(attrs: map<string, Value>, blocks: seq<Block>, t: string, n: string, order: KeyOrder)
    requires FoldBlocks(attrs, blocks, order).Ok?
    requires t in BlockTypes(blocks)
    ensures var a := FoldBlocks(attrs, blocks, order).value;
      && t in a && a[t].Obj?
      && match LastDefining(blocks, t, n)
         case Some(i) => n in a[t].m && Eval(blocks[i].body.attributes[n], order) == Ok(a[t].m[n])
         case None =>
           && (n in a[t].m <==> t in attrs && attrs[t].Obj? && n in attrs[t].m)
           && (n in a[t].m ==> a[t].m[n] == attrs[t].m[n])
    decreases |blocks|
  {
    var init := blocks[..|blocks| - 1];
    var last := blocks[|blocks| - 1];
    var a0 := FoldBlocks(attrs, init, order).value;
    BlockTypesSnoc(blocks);
    NestedEntry(a0, last, t, n, order);
    if Defines(last, t, n) {
    } else if t in BlockTypes(init) {
      FoldLastWins(attrs, init, t, n, order);
      assert LastDefining(blocks, t, n) == LastDefining(init, t, n);
      if LastDefining(init, t, n).Some? {
        var i := LastDefining(init, t, n).value;
        assert init[i] == blocks[i];
      }
    } else {
      assert last.blockType == t;
      FoldBlocksFrame(attrs, init, order);
      assert LastDefining(blocks, t, n) == LastDefining(init, t, n);
    }
  }

  /** What folding one nested block does to name `n` under type `t`. */
  lemma NestedEntry(a0: map<string, Value>, last: Block, t: string, n: string, order: KeyOrder)
    requires NestedInto(a0, last, order).Ok?
    ensures var a := NestedInto(a0, last, order).value;
      && (last.blockType == t ==> t in a && a[t].Obj?)
      && (Defines(last, t, n) ==> n in a[t].m && Eval(last.body.attributes[n], order) == Ok(a[t].m[n]))
      && (last.blockType == t && !Defines(last, t, n) ==>
            && (n in a[t].m <==> t in a0 && a0[t].Obj? && n in a0[t].m)
            && (n in a[t].m ==> a[t].m[n] == a0[t].m[n]))
      && (last.blockType != t ==> (t in a <==> t in a0) && (t in a0 ==> a[t] == a0[t]))
  {
    NestedMerge(a0, last, order);
  }

  /** A resource's type and name are its first two labels, and it panics with
      an index out of range when it has fewer; each top-level attribute whose
      name no nested block uses is stored as evaluated. */
  lemma ResourceContents(block: Block, order: KeyOrder)
    ensures |block.labels| < 2 ==> ResourceOf(block, order) == Panic(LabelOutOfRange)
    ensures ResourceOf(block, order).Ok? ==>
      var rd := ResourceOf(block, order).value;
      var attrs := block.body.attributes;
      && rd.resourceType == block.labels[0]
      && rd.name == block.labels[1]
      && rd.labels == block.labels
      && rd.attributes.Keys == attrs.Keys + BlockTypes(block.body.blocks)
      && (forall n | n in attrs && n !in BlockTypes(block.body.blocks) :: Eval(attrs[n], order) == Ok(rd.attributes[n]))
  {
    if ResourceOf(block, order).Ok? {
      FoldBlocksFrame(Attributes(block.body.attributes, order).value, block.body.blocks, order);
    }
  }

  /** One nested block folds without a panic over the resource's evaluated
      attributes `m`: its attributes evaluate, and its type, when `m` has it,
      holds a map. */
  predicate NestedFine(m: map<string, Value>, b: Block) {
    && (forall n | n in b.body.attributes :: Evaluable(b.body.attributes[n]))
    && (b.blockType in m ==> m[b.blockType].Obj?)
  }

  /** The nested-block loop succeeds exactly when every nested block is fine
      against the resource's own attributes: a block of a type already folded
      meets a map, so only a top-level attribute of that name can clash. */
  lemma {:induction false} FoldSucceedsIff(m: map<string, Value>, blocks: seq<Block>, order: KeyOrder)
    ensures FoldBlocks(m, blocks, order).Ok? <==> forall i | 0 <= i < |blocks| :: NestedFine(m, blocks[i])
    decreases |blocks|
  {
    if blocks != [] {
      var init := blocks[..|blocks| - 1];
      var last := blocks[|blocks| - 1];
      assert forall i | 0 <= i < |init| :: init[i] == blocks[i];
      FoldSucceedsIff(m, init, order);
      if FoldBlocks(m, init, order).Ok? {
        var a0 := FoldBlocks(m, init, order).value;
        FoldBlocksFrame(m, init, order);
        NestedMerge(a0, last, order);
        var own := last.body.attributes;
        forall n | n in own
          ensures Eval(own[n], order).Ok? <==> Evaluable(own[n])
        {
          EvalSucceedsIff(own[n], order);
        }
        var t := last.blockType;
        if t in BlockTypes(init) {
          var i :| 0 <= i < |init| && init[i].blockType == t;
          assert NestedFine(m, init[i]);
        }
      }
    }
  }

  /** The nested block `b` of a resource whose own attributes are `top` folds
      without a panic: its attributes evaluate, and a top-level attribute of
      its type name, if any, is an object constructor. */
  predicate NestedOk(top: map<string, Expr>, b: Block) {
    && (forall n | n in b.body.attributes :: Evaluable(b.body.attributes[n]))
    && (b.blockType in top ==> top[b.blockType].ObjectCons?)
  }

  /** A resource block extracts exactly when it has two labels, its attributes
      evaluate, and every nested block is `NestedOk`; in particular a scalar
      attribute and a nested block of the same name panic. */
  lemma ResourceSucceedsIff(block: Block, order: KeyOrder)
    ensures ResourceOf(block, order).Ok? <==>
      && |block.labels| >= 2
      && (forall n | n in block.body.attributes :: Evaluable(block.body.attributes[n]))
      && (forall i | 0 <= i < |block.body.blocks| :: NestedOk(block.body.attributes, block.body.blocks[i]))
  {
    var top := block.body.attributes;
    var blocks := block.body.blocks;
    forall n | n in top
      ensures Eval(top[n], order).Ok? <==> Evaluable(top[n])
    {
      EvalSucceedsIff(top[n], order);
    }
    var attrs := Attributes(top, order);
    if attrs.Ok? {
      var m := attrs.value;
      FoldSucceedsIff(m, blocks, order);
      forall i | 0 <= i < |blocks|
        ensures NestedFine(m, blocks[i]) <==> NestedOk(top, blocks[i])
      {
        var t := blocks[i].blockType;
        if t in top {
          assert Eval(top[t], order) == Ok(m[t]);
        }
      }
    }
  }

  // ---------------------------------------------------------------------
  // parseConfig

  /** The blocks of one type, in declaration order. */
  function OfType(blocks: seq<Block>, t: string): (r: seq<Block>)
    ensures forall i | 0 <= i < |r| :: r[i].blockType == t
  {
    if blocks == [] then []
    else OfType(blocks[..|blocks| - 1], t) + (if blocks[|blocks| - 1].blockType == t then [blocks[|blocks| - 1]] else [])
  }

  /** Filtering by keyword keeps declaration order: it distributes over concatenation. */
  lemma {:induction false} OfTypeAppend(a: seq<Block>, b: seq<Block>, t: string)
    ensures OfType(a + b, t) == OfType(a, t) + OfType(b, t)
    decreases |b|
  {
    if b == [] {
      assert a + b == a;
    } else {
      var init := b[..|b| - 1];
      var last := b[|b| - 1];
      assert (a + b)[..|a + b| - 1] == a + init;
      assert (a + b)[|a + b| - 1] == last;
      OfTypeAppend(a, init, t);
      var tail := if last.blockType == t then [last] else [];
      assert OfType(a, t) + OfType(init, t) + tail == OfType(a, t) + (OfType(init, t) + tail);
    }
  }

  /** Exactly the blocks with that keyword are kept. */
  lemma {:induction false} OfTypeMembership(blocks: seq<Block>, t: string, b: Block)
    ensures b in OfType(blocks, t) <==> b in blocks && b.blockType == t
    decreases |blocks|
  {
    if blocks != [] {
      var init := blocks[..|blocks| - 1];
      var last := blocks[|blocks| - 1];
      OfTypeMembership(init, t, b);
      assert blocks == init + [last];
    }
  }

  /** Whether the extractor for the block's keyword succeeds on it. */
  predicate Extracts(block: Block, order: KeyOrder) {
    if block.blockType == "module" then ModuleOf(block, order).Ok?
    else if block.blockType == "resource" then ResourceOf(block, order).Ok?
    else if block.blockType == "locals" then LocalOf(block, order).Ok?
    else true
  }

  /** parseConfig yields one module, resource and local per block of that
      keyword, in declaration order, never a variable; it succeeds exactly when
      every block extracts. */
  lemma {:induction false} ConfigDispatch(blocks: seq<Block>, order: KeyOrder)
    ensures ConfigOf(blocks, order).Ok? <==> forall i | 0 <= i < |blocks| :: Extracts(blocks[i], order)
    ensures ConfigOf(blocks, order).Ok? ==>
      var c := ConfigOf(blocks, order).value;
      && c.variables == []
      && |c.modules| == |OfType(blocks, "module")|
      && (forall j | 0 <= j < |c.modules| :: ModuleOf(OfType(blocks, "module")[j], order) == Ok(c.modules[j]))
      && |c.resources| == |OfType(blocks, "resource")|
      && (forall j | 0 <= j < |c.resources| :: ResourceOf(OfType(blocks, "resource")[j], order) == Ok(c.resources[j]))
      && |c.locals| == |OfType(blocks, "locals")|
      && (forall j | 0 <= j < |c.locals| :: LocalOf(OfType(blocks, "locals")[j], order) == Ok(c.locals[j]))
    decreases |blocks|
  {
    if blocks != [] {
      var init := blocks[..|blocks| - 1];
      ConfigDispatch(init, order);
      assert forall i | 0 <= i < |init| :: init[i] == blocks[i];
    }
  }

  /** Only `module`, `resource` and `locals` blocks matter. */
  predicate Recognized(block: Block) {
    block.blockType == "module" || block.blockType == "resource" || block.blockType == "locals"
  }

  function RecognizedBlocks(blocks: seq<Block>): seq<Block> {
    if blocks == [] then []
    else RecognizedBlocks(blocks[..|blocks| - 1]) + (if Recognized(blocks[|blocks| - 1]) then [blocks[|blocks| - 1]] else [])
  }

  /** Every other block keyword is ignored: dropping those blocks changes nothing. */
  lemma {:induction false} ConfigIgnoresOtherBlocks(blocks: seq<Block>, order: KeyOrder)
    ensures ConfigOf(blocks, order) == ConfigOf(RecognizedBlocks(blocks), order)
    decreases |blocks|
  {
    if blocks != [] {
      var init := blocks[..|blocks| - 1];
      var last := blocks[|blocks| - 1];
      ConfigIgnoresOtherBlocks(init, order);
      if Recognized(last) {
        var r := RecognizedBlocks(init) + [last];
        assert RecognizedBlocks(blocks) == r;
        assert r[..|r| - 1] == RecognizedBlocks(init);
        assert r[|r| - 1] == last;
      } else {
        assert RecognizedBlocks(blocks) == RecognizedBlocks(init) + [];
        assert RecognizedBlocks(init) + [] == RecognizedBlocks(init);
      }
    }
  }

  // ---------------------------------------------------------------------
  // Worked examples. A quoted HCL string is a template with one literal part.

  function Quoted(s: string): Expr {
    Template([LiteralValue(StringVal(s))])
  }

  lemma QuotedIsItself(s: string, order: KeyOrder)
    ensures Eval(Quoted(s), order) == Ok(Str(s))
  {
    assert Concat([LiteralValue(StringVal(s))], "", order) == Ok("" + s + "");
    assert "" + s + "" == s;
  }

  /** resource "aws_instance" "web" { ami = "abc123" } */
  lemma ResourceExample(order: KeyOrder)
    ensures ResourceOf(Block("resource", ["aws_instance", "web"], Body(map["ami" := Quoted("abc123")], [])), order)
      == Ok(ResourceData("aws_instance", "web", ["aws_instance", "web"], map["ami" := Str("abc123")]))
  {
    QuotedIsItself("abc123", order);
    var attrs := map["ami" := Quoted("abc123")];
    assert Attributes(attrs, order).value == map["ami" := Str("abc123")];
  }

  /** resource "a" "b" { environment = "x"  environment { k = "v" } }: the
      nested block meets a string under its own name and the run panics. */
  lemma AttributeBlockClash(order: KeyOrder)
    ensures ResourceOf(Block("resource", ["a", "b"], Body(map["environment" := Quoted("x")],
      [Block("environment", [], Body(map["k" := Quoted("v")], []))])), order) == Panic(NotAMap)
  {
    QuotedIsItself("x", order);
    var nested := Block("environment", [], Body(map["k" := Quoted("v")], []));
    var m := Attributes(map["environment" := Quoted("x")], order).value;
    assert m == map["environment" := Str("x")];
    assert [nested][..0] == [];
    assert FoldBlocks(m, [nested], order) == NestedInto(m, nested, order);
  }

  /** module "net" { source = "./modules/net"  cidr = "10.0.0.0/16" } */
  lemma ModuleExample(order: KeyOrder)
    ensures var block := Block("module", ["net"],
      Body(map["source" := Quoted("./modules/net"), "cidr" := Quoted("10.0.0.0/16")], []));
      ModuleOf(block, order) == Ok(ModuleData("./modules/net", ["net"],
        map["source" := Str("./modules/net"), "cidr" := Str("10.0.0.0/16")]))
  {
    QuotedIsItself("./modules/net", order);
    QuotedIsItself("10.0.0.0/16", order);
    var attrs := map["source" := Quoted("./modules/net"), "cidr" := Quoted("10.0.0.0/16")];
    assert Attributes(attrs, order).value == map["source" := Str("./modules/net"), "cidr" := Str("10.0.0.0/16")];
  }

  /** locals { a = 1  b = "x" }, the number 1 being formatted as "1". */
  lemma LocalsExample(order: KeyOrder)
    ensures LocalOf(Block("locals", [], Body(map["a" := LiteralValue(NumberVal("1")), "b" := Quoted("x")], [])), order)
      == Ok(LocalData(map["a" := Str("1"), "b" := Str("x")]))
  {
    QuotedIsItself("x", order);
    var attrs := map["a" := LiteralValue(NumberVal("1")), "b" := Quoted("x")];
    assert Attributes(attrs, order).value == map["a" := Str("1"), "b" := Str("x")];
  }
}
