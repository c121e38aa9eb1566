/**
  Edge-valued decision trees: what an edge (node, weight) of the EVDD table
  stands for. The value under an assignment is the product of the weights
  along the path it selects.
*/
module Wdd {
  import opened Field
  import opened WeightNorm
  import Dd

  datatype Tree = One | Node(level: nat, wlow: real, low: Tree, whigh: real, high: Tree)

  datatype Edge = Edge(w: real, node: Tree)

  type Assign = Dd.Assign

  function Value(t: Tree, a: Assign): real {
    match t
    case One => 1.0
    case Node(l, wl, lo, wh, hi) => if a(l) then Mul(wh, Value(hi, a)) else Mul(wl, Value(lo, a))
  }

  /** The product along the whole path, incoming weight included. */
  function EdgeValue(e: Edge, a: Assign): real { Mul(e.w, Value(e.node, a)) }

  /** evdd_false */
  const FALSE_EDGE: Edge := Edge(0.0, One)

  predicate Under(l: nat, t: Tree) { t.Node? ==> l < t.level }

  predicate From(l: nat, t: Tree) { t.Node? ==> l <= t.level }

  predicate Ordered(t: Tree) {
    t.Node? ==> Under(t.level, t.low) && Under(t.level, t.high) && Ordered(t.low) && Ordered(t.high)
  }

  function Size(t: Tree): nat {
    match t
    case One => 0
    case Node(_, _, lo, _, hi) => 1 + Size(lo) + Size(hi)
  }

  /** s is t or a part of it. */
  predicate Part(s: Tree, t: Tree) {
    s == t || (t.Node? && (Part(s, t.low) || Part(s, t.high)))
  }

  lemma {:induction false} PartTransitive(r: Tree, s: Tree, t: Tree)
    requires Part(r, s) && Part(s, t)
    ensures Part(r, t)
  {
    if s != t {
      if Part(s, t.low) {
        PartTransitive(r, s, t.low);
      } else {
        PartTransitive(r, s, t.high);
      }
    }
  }

  lemma {:induction false} UpdateAbove(t: Tree, a: Assign, l: nat, v: bool)
    requires Ordered(t) && Under(l, t)
    ensures Value(t, Dd.Update(a, l, v)) == Value(t, a)
  {
    hide Mul;
    if t.Node? {
      UpdateAbove(t.low, a, l, v);
      UpdateAbove(t.high, a, l, v);
    }
  }

  /* ---- cofactors ---- */

  /** evdd_edge_low and evdd_edge_high; an edge that does not test l is its own cofactor. */
  function Cofactor(e: Edge, l: nat, v: bool): Edge {
    if e.node.Node? && e.node.level == l then
      if v then Edge(Mul(e.w, e.node.whigh), e.node.high) else Edge(Mul(e.w, e.node.wlow), e.node.low)
    else e
  }

  /** The first level either node tests. */
  function TopLevel(a: Tree, b: Tree): nat
    requires !(a.One? && b.One?)
  {
    if a.One? then b.level else if b.One? then a.level else if a.level < b.level then a.level else b.level
  }

  lemma CofactorUnder(e: Edge, l: nat, v: bool)
    requires Ordered(e.node) && From(l, e.node)
    ensures Ordered(Cofactor(e, l, v).node) && Under(l, Cofactor(e, l, v).node)
    ensures Size(Cofactor(e, l, v).node) <= Size(e.node)
    ensures e.node.Node? && e.node.level == l ==> Size(Cofactor(e, l, v).node) < Size(e.node)
  {
    hide Mul;
  }

  lemma CofactorAt(e: Edge, l: nat, a: Assign)
    ensures EdgeValue(Cofactor(e, l, a(l)), a) == EdgeValue(e, a)
  {
    hide Mul;
    if e.node.Node? && e.node.level == l {
      var w, t := if a(l) then e.node.whigh else e.node.wlow, if a(l) then e.node.high else e.node.low;
      MulAssoc(e.w, w, Value(t, a));
    }
  }

  /** Shannon: a cofactor has the values of the edge with the level fixed. */
  lemma CofactorValue(e: Edge, l: nat, v: bool, a: Assign)
    requires Ordered(e.node) && From(l, e.node)
    ensures EdgeValue(Cofactor(e, l, v), a) == EdgeValue(e, Dd.Update(a, l, v))
  {
    hide Mul, Value;
    var b := Dd.Update(a, l, v);
    CofactorAt(e, l, b);
    CofactorUnder(e, l, v);
    UpdateAbove(Cofactor(e, l, v).node, a, l, v);
  }

  /* ---- canonical edges ---- */

  /** Zero is an edge to the terminal and nothing else. */
  predicate ZeroTidy(w: real, t: Tree) { w == 0.0 ==> t.One? }

  predicate Canonical(s: Strategy, t: Tree) {
    t.Node? ==>
      && Under(t.level, t.low) && Under(t.level, t.high)
      && Canonical(s, t.low) && Canonical(s, t.high)
      && ZeroTidy(t.wlow, t.low) && ZeroTidy(t.whigh, t.high)
      && Normalize(s, t.wlow, t.whigh) == Norm(t.wlow, t.whigh, 1.0)
      && !(t.low == t.high && t.wlow == t.whigh)
  }

  predicate CanonicalEdge(s: Strategy, e: Edge) {
    Canonical(s, e.node) && ZeroTidy(e.w, e.node)
  }

  lemma {:induction false} CanonicalOrdered(s: Strategy, t: Tree)
    requires Canonical(s, t)
    ensures Ordered(t)
  {
    hide Normalize;
    if t.Node? {
      CanonicalOrdered(s, t.low);
      CanonicalOrdered(s, t.high);
    }
  }

  lemma CofactorCanonical(s: Strategy, e: Edge, l: nat, v: bool)
    requires CanonicalEdge(s, e)
    ensures CanonicalEdge(s, Cofactor(e, l, v))
  {
    hide Mul, Normalize;
    if e.node.Node? && e.node.level == l {
      NoDivisors(e.w, if v then e.node.whigh else e.node.wlow);
    }
  }

  /** Every pair of t is one whose normal form does not depend on a common factor. */
  predicate SteadyTree(s: Strategy, t: Tree) {
    t.Node? ==> Steady(s, t.wlow, t.whigh) && SteadyTree(s, t.low) && SteadyTree(s, t.high)
  }

  lemma {:induction false} AlwaysSteady(s: Strategy, t: Tree)
    requires Canonizing(s)
    ensures SteadyTree(s, t)
  {
    if t.Node? {
      AlwaysSteady(s, t.low);
      AlwaysSteady(s, t.high);
    }
  }

  /** Proportional normalized pairs are equal, and so are the factors. */
  lemma SamePair(s: Strategy, e: Edge, f: Edge)
    requires SteadyTree(s, e.node) && CanonicalEdge(s, e) && CanonicalEdge(s, f)
    requires e.node.Node? && f.node.Node? && e.node.level == f.node.level
    requires forall v :: Cofactor(e, e.node.level, v) == Cofactor(f, e.node.level, v)
    ensures e == f
  {
    hide Mul, Div, Normalize;
    var t, u := e.node, f.node;
    assert Cofactor(e, t.level, false) == Cofactor(f, t.level, false) && Cofactor(e, t.level, true) == Cofactor(f, t.level, true);
    var c := Div(e.w, f.w);
    DivMul(e.w, f.w);
    DivZero(e.w, f.w);
    MulAssoc(f.w, c, t.wlow);
    Cancel(f.w, u.wlow, Mul(c, t.wlow));
    MulAssoc(f.w, c, t.whigh);
    Cancel(f.w, u.whigh, Mul(c, t.whigh));
    ScaleInvariant(s, c, t.wlow, t.whigh);
    MulOne(c);
    MulOne(f.w);
  }

  /** A node both of whose cofactors are the edge f is a node that reduction removes. */
  lemma OneSided(s: Strategy, e: Edge, f: Edge, l: nat)
    requires CanonicalEdge(s, e) && e.node.Node? && e.node.level == l
    ensures exists v :: Cofactor(e, l, v) != f
  {
    hide Mul, Normalize;
    assert e.w != 0.0;
    Cancel(e.w, e.node.wlow, e.node.whigh);
    assert Cofactor(e, l, false) != Cofactor(e, l, true);
  }

  /** Two different canonical edges have different cofactors at the first level either tests. */
  lemma SomeCofactorDiffers(s: Strategy, e: Edge, f: Edge) returns (v: bool)
    requires SteadyTree(s, e.node) && CanonicalEdge(s, e) && CanonicalEdge(s, f) && e != f
    requires !(e.node.One? && f.node.One?)
    ensures var l := TopLevel(e.node, f.node); Cofactor(e, l, v) != Cofactor(f, l, v)
  {
    hide Mul, Normalize, Canonical;
    var l := TopLevel(e.node, f.node);
    if !(exists v :: Cofactor(e, l, v) != Cofactor(f, l, v)) {
      if e.node.Node? && f.node.Node? && e.node.level == f.node.level {
        SamePair(s, e, f);
      } else if e.node.Node? && e.node.level == l {
        OneSided(s, e, f, l);
      } else {
        OneSided(s, f, e, l);
      }
    }
    v :| Cofactor(e, l, v) != Cofactor(f, l, v);
  }

  lemma {:induction false} Distinguish(s: Strategy, e: Edge, f: Edge) returns (a: Assign)
    requires SteadyTree(s, e.node) && CanonicalEdge(s, e) && CanonicalEdge(s, f) && e != f
    ensures EdgeValue(e, a) != EdgeValue(f, a)
    decreases Size(e.node) + Size(f.node)
  {
    hide Mul, Normalize, Canonical;
    CanonicalOrdered(s, e.node);
    CanonicalOrdered(s, f.node);
    if e.node.One? && f.node.One? {
      a := (x: nat) => false;
      MulOne(e.w);
      MulOne(f.w);
    } else {
      var l := TopLevel(e.node, f.node);
      var v := SomeCofactorDiffers(s, e, f);
      CofactorCanonical(s, e, l, v);
      CofactorCanonical(s, f, l, v);
      CofactorUnder(e, l, v);
      CofactorUnder(f, l, v);
      var b := Distinguish(s, Cofactor(e, l, v), Cofactor(f, l, v));
      CofactorValue(e, l, v, b);
      CofactorValue(f, l, v, b);
      a := Dd.Update(b, l, v);
    }
  }

  ghost predicate SameFunction(e: Edge, f: Edge) { forall a: Assign {:trigger EdgeValue(f, a)} :: EdgeValue(f, a) == EdgeValue(e, a) }

  /**
    Canonicity: two canonical edges are the same edge, weight included, exactly
    when they denote the same function. One of them has to be steady.
  */
  lemma Canonicity(s: Strategy, e: Edge, f: Edge)
    requires SteadyTree(s, e.node) && CanonicalEdge(s, e) && CanonicalEdge(s, f)
    ensures e == f <==> forall a: Assign :: EdgeValue(e, a) == EdgeValue(f, a)
  {
    if e != f {
      var a := Distinguish(s, e, f);
    }
  }

  /** A weight larger than those on the high edges of the given trees. */
  lemma {:induction false} Larger(avoid: set<Tree>) returns (w: real)
    ensures 0.0 < w && forall t {:trigger t in avoid} :: t in avoid && t.Node? ==> t.whigh < w
  {
    if avoid == {} {
      w := 1.0;
    } else {
      var t :| t in avoid;
      var w0 := Larger(avoid - {t});
      w := if t.Node? && w0 <= t.whigh then t.whigh + 1.0 else w0;
      forall u | u in avoid && u.Node? ensures u.whigh < w {
        assert u == t || u in avoid - {t};
      }
    }
  }

  /**
    LowEdge without that condition: when some pair, at the root or anywhere
    below, has a zero low weight, there are canonical edges of the same function
    on infinitely many other nodes: one outside any finite set.
  */
  lemma {:induction false} LowElsewhere(e: Edge, avoid: set<Tree>) returns (f: Edge)
    requires CanonicalEdge(LowEdge, e) && !SteadyTree(LowEdge, e.node)
    ensures CanonicalEdge(LowEdge, f) && f.node !in avoid && SameFunction(e, f)
    ensures f.node.Node? && f.node.level == e.node.level
    decreases e.node
  {
    var t := e.node;
    if !Steady(LowEdge, t.wlow, t.whigh) {
      f := LowAtRoot(e, avoid);
    } else if !SteadyTree(LowEdge, t.low) {
      var lows := set u | u in avoid && u.Node? :: u.low;
      var g := LowElsewhere(Edge(t.wlow, t.low), lows + {t.high});
      assert forall u {:trigger u in avoid} :: u in avoid && u.Node? ==> u.low in lows;
      f := LowRebuilt(e, g);
    } else {
      var highs := set u | u in avoid && u.Node? :: u.high;
      var g := LowElsewhere(Edge(t.whigh, t.high), highs + {t.low});
      assert forall u {:trigger u in avoid} :: u in avoid && u.Node? ==> u.high in highs;
      f := HighRebuilt(e, g);
    }
  }

  lemma {:induction false} LowAtRoot(e: Edge, avoid: set<Tree>) returns (f: Edge)
    requires CanonicalEdge(LowEdge, e) && e.node.Node? && !Steady(LowEdge, e.node.wlow, e.node.whigh)
    ensures CanonicalEdge(LowEdge, f) && f.node !in avoid && SameFunction(e, f) && f.node.Node? && f.node.level == e.node.level
  {
    hide Mul, Div, Value;
    var t := e.node;
    var w := Larger(avoid);
    var c := Div(w, t.whigh);
    DivMul(w, t.whigh);
    DivZero(w, t.whigh);
    MulCommutes(c, t.whigh);
    f := Edge(Div(e.w, c), Node(t.level, 0.0, One, w, t.high));
    MulOne(w);
    MulZero(1.0);
    DivZero(e.w, c);
    forall a: Assign ensures EdgeValue(f, a) == EdgeValue(e, a) {
      LowVariant(e, c, a);
    }
  }

  /** Another edge in place of the low one; its weight is the new factor of the node. */
  lemma {:induction false} LowRebuilt(e: Edge, g: Edge) returns (f: Edge)
    requires CanonicalEdge(LowEdge, e) && e.node.Node? && Steady(LowEdge, e.node.wlow, e.node.whigh) && e.node.low.Node?
    requires CanonicalEdge(LowEdge, g) && g.node.Node? && g.node.level == e.node.low.level && g.node != e.node.high
    requires SameFunction(Edge(e.node.wlow, e.node.low), g)
    ensures CanonicalEdge(LowEdge, f) && SameFunction(e, f)
    ensures f.node.Node? && f.node.level == e.node.level && f.node.low == g.node
  {
    hide Mul, Div, Value;
    var t := e.node;
    var wh := Div(t.whigh, g.w);
    f := Edge(Mul(e.w, g.w), Node(t.level, 1.0, g.node, wh, t.high));
    DivZero(t.whigh, g.w);
    MulOne(wh);
    MulOne(1.0);
    NoDivisors(e.w, g.w);
    forall a: Assign ensures EdgeValue(f, a) == EdgeValue(e, a) {
      LowRebuiltValue(e, g, a);
    }
  }

  lemma LowRebuiltValue(e: Edge, g: Edge, a: Assign)
    requires e.node.Node? && g.w != 0.0 && EdgeValue(g, a) == EdgeValue(Edge(e.node.wlow, e.node.low), a)
    ensures var t := e.node;
            EdgeValue(Edge(Mul(e.w, g.w), Node(t.level, 1.0, g.node, Div(t.whigh, g.w), t.high)), a) == EdgeValue(e, a)
  {
    hide Mul, Div;
    var t := e.node;
    var wh := Div(t.whigh, g.w);
    if a(t.level) {
      var v := Value(t.high, a);
      MulAssoc(e.w, g.w, Mul(wh, v));
      MulAssoc(g.w, wh, v);
      DivMul(t.whigh, g.w);
    } else {
      MulOne(Value(g.node, a));
      MulAssoc(e.w, g.w, Value(g.node, a));
    }
  }

  /** Another edge in place of the high one. */
  lemma {:induction false} HighRebuilt(e: Edge, g: Edge) returns (f: Edge)
    requires CanonicalEdge(LowEdge, e) && e.node.Node? && Steady(LowEdge, e.node.wlow, e.node.whigh) && e.node.high.Node?
    requires CanonicalEdge(LowEdge, g) && g.node.Node? && g.node.level == e.node.high.level && g.node != e.node.low
    requires SameFunction(Edge(e.node.whigh, e.node.high), g)
    ensures CanonicalEdge(LowEdge, f) && SameFunction(e, f)
    ensures f.node.Node? && f.node.level == e.node.level && f.node.high == g.node
  {
    hide Mul, Div, Value;
    var t := e.node;
    DivSelf(t.wlow);
    f := Edge(e.w, Node(t.level, t.wlow, t.low, g.w, g.node));
    MulOne(g.w);
    MulOne(1.0);
    forall a: Assign ensures EdgeValue(f, a) == EdgeValue(e, a) {
      HighRebuiltValue(e, g, a);
    }
  }

  lemma HighRebuiltValue(e: Edge, g: Edge, a: Assign)
    requires e.node.Node? && EdgeValue(g, a) == EdgeValue(Edge(e.node.whigh, e.node.high), a)
    ensures var t := e.node; EdgeValue(Edge(e.w, Node(t.level, t.wlow, t.low, g.w, g.node)), a) == EdgeValue(e, a)
  {
    hide Mul;
  }

  /** Exactly the diagrams without such a pair are the only canonical form of their function. */
  lemma LowUnique(e: Edge)
    requires CanonicalEdge(LowEdge, e)
    ensures SteadyTree(LowEdge, e.node) <==> forall f {:trigger CanonicalEdge(LowEdge, f)} :: CanonicalEdge(LowEdge, f) && SameFunction(e, f) ==> f == e
  {
    hide CanonicalEdge, EdgeValue;
    if SteadyTree(LowEdge, e.node) {
      forall f | CanonicalEdge(LowEdge, f) && SameFunction(e, f) ensures f == e {
        Canonicity(LowEdge, e, f);
      }
    } else {
      var f := LowElsewhere(e, {e.node});
    }
  }

  lemma LowVariant(e: Edge, c: real, a: Assign)
    requires e.node.Node? && e.node.wlow == 0.0 && e.node.low.One? && c != 0.0
    ensures EdgeValue(Edge(Div(e.w, c), Node(e.node.level, 0.0, One, Mul(c, e.node.whigh), e.node.high)), a) == EdgeValue(e, a)
  {
    hide Mul, Div;
    var v := Value(e.node.high, a);
    MulAssoc(c, e.node.whigh, v);
    MulAssoc(Div(e.w, c), c, Mul(e.node.whigh, v));
    MulCommutes(Div(e.w, c), c);
    DivMul(e.w, c);
    MulZero(Value(One, a));
    MulZero(e.w);
    MulZero(Div(e.w, c));
  }

  /** L2 canonizes no diagram but the constants: the negated node carries the negated function. */
  lemma L2NotCanonical(s: Strategy, e: Edge) returns (f: Edge)
    requires s.L2? && SquareRoot(s) && CanonicalEdge(s, e) && e.node.Node?
    ensures CanonicalEdge(s, f) && f.node != e.node && forall a: Assign :: EdgeValue(e, a) == EdgeValue(f, a)
  {
    hide Mul, Div, Value;
    var t := e.node;
    f := Edge(0.0 - e.w, Node(t.level, 0.0 - t.wlow, t.low, 0.0 - t.whigh, t.high));
    MulSign(t.wlow, 0.0 - t.wlow);
    MulSign(t.whigh, 0.0 - t.whigh);
    MulSign(t.wlow, t.wlow);
    MulSign(t.whigh, t.whigh);
    MulOne(0.0 - t.wlow);
    MulOne(0.0 - t.whigh);
    forall a: Assign ensures EdgeValue(e, a) == EdgeValue(f, a) {
      Negated(e, a);
    }
  }

  lemma Negated(e: Edge, a: Assign)
    requires e.node.Node?
    ensures var t := e.node;
            EdgeValue(Edge(0.0 - e.w, Node(t.level, 0.0 - t.wlow, t.low, 0.0 - t.whigh, t.high)), a) == EdgeValue(e, a)
  {
    hide Mul, Div;
    var t := e.node;
    var u := Node(t.level, 0.0 - t.wlow, t.low, 0.0 - t.whigh, t.high);
    MulSign(t.wlow, Value(t.low, a));
    MulSign(t.whigh, Value(t.high, a));
    MulSign(e.w, Value(u, a));
    MulSign(e.w, Value(t, a));
  }
}
