/** buildVarExpressions: a reference path rendered as a dotted name. */
module Traversal {
  import opened Syntax

  /** A step contributes its name when it is a root or attribute step with a non-empty name. */
  predicate Contributes(step: Traverser) {
    (step.TraverseRoot? || step.TraverseAttr?) && step.name != ""
  }

  /** The names the traversal contributes, in order. */
  function Names(t: seq<Traverser>): (names: seq<string>)
    ensures |names| <= |t|
    ensures forall x | x in names :: x != ""
  {
    if t == [] then []
    else Names(t[..|t| - 1]) + (if Contributes(t[|t| - 1]) then [t[|t| - 1].name] else [])
  }

  /** strings.Join */
  function Join(xs: seq<string>, sep: string): string {
    if xs == [] then ""
    else if |xs| == 1 then xs[0]
    else xs[0] + sep + Join(xs[1..], sep)
  }

  /** The string buildVarExpressions returns for a traversal. */
  function VarExpression(t: seq<Traverser>): string {
    Join(Names(t), ".")
  }

  /** The loop of buildVarExpressions: collect the contributing names, then join them. */
  method BuildVarExpressions(traversal: seq<Traverser>) returns (s: string)
    ensures s == Join(Names(traversal), ".")
  {
    var varExp: seq<string> := [];
    for i := 0 to |traversal|
      invariant varExp == Names(traversal[..i])
    {
      var v := traversal[i];
      assert traversal[..i + 1][..i] == traversal[..i];
      match v {
        case TraverseRoot(name) =>
          if name != "" {
            varExp := varExp + [name];
          }
        case TraverseAttr(name) =>
          if name != "" {
            varExp := varExp + [name];
          }
        case _ =>
      }
    }
    assert traversal[..|traversal|] == traversal;
    s := Join(varExp, ".");
  }

  /** Names distributes over concatenation: steps are neither reordered nor merged. */
  lemma {:induction false} NamesAppend(t1: seq<Traverser>, t2: seq<Traverser>)
    ensures Names(t1 + t2) == Names(t1) + Names(t2)
    decreases |t2|
  {
    if t2 == [] {
      assert t1 + t2 == t1;
    } else {
      var init := t2[..|t2| - 1];
      assert (t1 + t2)[..|t1 + t2| - 1] == t1 + init;
      assert (t1 + t2)[|t1 + t2| - 1] == t2[|t2| - 1];
      NamesAppend(t1, init);
    }
  }

  /** A name appears in the result exactly when some step contributes it. */
  lemma {:induction false} NamesMembership(t: seq<Traverser>, x: string)
    ensures x in Names(t) <==> exists i | 0 <= i < |t| :: Contributes(t[i]) && t[i].name == x
  {
    if t != [] {
      var init := t[..|t| - 1];
      NamesMembership(init, x);
      if x in Names(init) {
        var i :| 0 <= i < |init| && Contributes(init[i]) && init[i].name == x;
        assert t[i] == init[i];
      }
      if exists i | 0 <= i < |t| :: Contributes(t[i]) && t[i].name == x {
        var i :| 0 <= i < |t| && Contributes(t[i]) && t[i].name == x;
        if i < |init| {
          assert init[i] == t[i];
        }
      }
    }
  }

  /** The number of occurrences of `c` in `s`. */
  function Count(c: char, s: string): nat {
    if s == [] then 0 else (if s[0] == c then 1 else 0) + Count(c, s[1..])
  }

  lemma {:induction false} CountAppend(c: char, a: string, b: string)
    ensures Count(c, a + b) == Count(c, a) + Count(c, b)
  {
    if a != [] {
      assert (a + b)[1..] == a[1..] + b;
      CountAppend(c, a[1..], b);
    } else {
      assert a + b == b;
    }
  }

  lemma {:induction false} CountAbsent(c: char, s: string)
    requires c !in s
    ensures Count(c, s) == 0
  {
    if s != [] {
      CountAbsent(c, s[1..]);
    }
  }

  /** Joining k dot-free names puts exactly k - 1 dots between them. */
  lemma {:induction false} JoinDots(xs: seq<string>)
    requires xs != []
    requires forall x | x in xs :: '.' !in x
    ensures Count('.', Join(xs, ".")) == |xs| - 1
  {
    CountAbsent('.', xs[0]);
    if |xs| > 1 {
      JoinDots(xs[1..]);
      CountAppend('.', xs[0], ".");
      CountAppend('.', xs[0] + ".", Join(xs[1..], "."));
      assert Count('.', ".") == 1 by {
        assert "."[1..] == "";
      }
    }
  }

  /** The position of the first `c` in `s`. */
  function FirstIndex(s: string, c: char): (i: nat)
    requires c in s
    ensures i < |s| && s[i] == c && c !in s[..i]
  {
    if s[0] == c then 0
    else
      assert c in s[1..] by {
        var k :| 0 <= k < |s| && s[k] == c;
        assert s[1..][k - 1] == c;
      }
      var j := FirstIndex(s[1..], c);
      assert s[..j + 1] == [s[0]] + s[1..][..j];
      j + 1
  }

  /** strings.Split(s, "."), the inverse of joining with dots. */
  function SplitDots(s: string): (parts: seq<string>)
    ensures parts != []
    decreases |s|
  {
    if '.' !in s then [s]
    else
      var i := FirstIndex(s, '.');
      [s[..i]] + SplitDots(s[i + 1..])
  }

  lemma SplitHead(x: string, rest: string)
    requires '.' !in x
    ensures SplitDots(x + "." + rest) == [x] + SplitDots(rest)
  {
    var s := x + "." + rest;
    assert s[|x|] == '.';
    assert s[..|x|] == x;
    var i := FirstIndex(s, '.');
    assert s[..i] == x;
    assert s[i + 1..] == rest;
  }

  /** Splitting the dotted name on "." gives back the names, in order. */
  lemma {:induction false} SplitJoin(xs: seq<string>)
    requires xs != []
    requires forall x | x in xs :: '.' !in x
    ensures SplitDots(Join(xs, ".")) == xs
  {
    if |xs| > 1 {
      SplitJoin(xs[1..]);
      SplitHead(xs[0], Join(xs[1..], "."));
    }
  }

  /** With k contributing dot-free names the dotted name has exactly k - 1 dots,
      and splitting it on "." recovers exactly those names in path order; with
      none it is empty. */
  lemma VarExpressionShape(t: seq<Traverser>)
    requires forall i | 0 <= i < |t| :: (t[i].TraverseRoot? || t[i].TraverseAttr?) ==> '.' !in t[i].name
    ensures Names(t) == [] ==> VarExpression(t) == ""
    ensures Names(t) != [] ==> Count('.', VarExpression(t)) == |Names(t)| - 1
    ensures Names(t) != [] ==> SplitDots(VarExpression(t)) == Names(t)
  {
    var names := Names(t);
    forall x | x in names
      ensures '.' !in x
    {
      NamesMembership(t, x);
    }
    if names != [] {
      JoinDots(names);
      SplitJoin(names);
    }
  }
}
