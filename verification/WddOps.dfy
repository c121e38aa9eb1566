/**
  The EVDD operations on trees: makenode, apply and the normalization pass,
  what each denotes, and that their results are canonical.
*/
module WddOps {
  import opened Field
  import opened WeightNorm
  import opened Wdd

  /** evdd_value_unit_from_pair */
  function UnitFromPair(wl: real, wh: real): real { if wl == 0.0 && wh == 0.0 then 0.0 else 1.0 }

  /** evdd_makenode_raw: the reducing constructor without normalization. */
  function MkRaw(l: nat, low: Edge, high: Edge): Edge {
    if low == high then low else Edge(UnitFromPair(low.w, high.w), Node(l, low.w, low.node, high.w, high.node))
  }

  /** evdd_makenode */
  function Mk(s: Strategy, l: nat, low: Edge, high: Edge): Edge {
    var n := Normalize(s, low.w, high.w);
    if n.incoming == 0.0 then FALSE_EDGE
    else var e := MkRaw(l, Edge(n.wlow, low.node), Edge(n.whigh, high.node)); Edge(Mul(n.incoming, e.w), e.node)
  }

  /** A raw node denotes the choice between its two edges; so does a normalized one. */
  lemma MkRawValue(l: nat, low: Edge, high: Edge, a: Assign)
    ensures EdgeValue(MkRaw(l, low, high), a) == if a(l) then EdgeValue(high, a) else EdgeValue(low, a)
  {
    hide Mul;
    MulOne(EdgeValue(low, a));
    MulOne(EdgeValue(high, a));
    MulZero(EdgeValue(low, a));
    MulZero(EdgeValue(high, a));
    MulZero(Value(low.node, a));
    MulZero(Value(high.node, a));
  }

  lemma MkValue(s: Strategy, l: nat, low: Edge, high: Edge, a: Assign)
    requires SquareRoot(s)
    ensures EdgeValue(Mk(s, l, low, high), a) == if a(l) then EdgeValue(high, a) else EdgeValue(low, a)
  {
    hide Mul, Normalize, SquareRoot, MkRaw, Value;
    var n := Normalize(s, low.w, high.w);
    NormalizeKeeps(s, low.w, high.w);
    if n.incoming == 0.0 {
      MulZero(Value(One, a));
      MulZero(Value(low.node, a));
      MulZero(Value(high.node, a));
    } else {
      var e := MkRaw(l, Edge(n.wlow, low.node), Edge(n.whigh, high.node));
      MkRawValue(l, Edge(n.wlow, low.node), Edge(n.whigh, high.node), a);
      MulAssoc(n.incoming, e.w, Value(e.node, a));
      MulAssoc(n.incoming, n.wlow, Value(low.node, a));
      MulAssoc(n.incoming, n.whigh, Value(high.node, a));
    }
  }

  lemma MkCanonical(s: Strategy, l: nat, low: Edge, high: Edge)
    requires SquareRoot(s) && CanonicalEdge(s, low) && CanonicalEdge(s, high)
    requires Under(l, low.node) && Under(l, high.node)
    ensures CanonicalEdge(s, Mk(s, l, low, high)) && From(l, Mk(s, l, low, high).node)
  {
    hide Mul, Normalize, SquareRoot;
    var n := Normalize(s, low.w, high.w);
    NormalizeKeeps(s, low.w, high.w);
    if n.incoming != 0.0 {
      Idempotent(s, low.w, high.w);
      MulOne(n.incoming);
    }
  }

  lemma OneCanonical(s: Strategy)
    ensures Canonical(s, One)
  {
  }

  lemma OneValue(a: Assign)
    ensures Value(One, a) == 1.0
  {
  }

  /* ---- apply ---- */

  /** The operation evdd_apply combines path values with. */
  type Op = (real, real) -> real

  /** evdd_apply_rec without its cache. */
  function Apply(s: Strategy, op: Op, a: Edge, b: Edge): Edge
    requires Ordered(a.node) && Ordered(b.node)
    decreases Size(a.node) + Size(b.node)
  {
    if a.node.One? && b.node.One? then Edge(op(a.w, b.w), One)
    else
      var l := TopLevel(a.node, b.node);
      CofactorUnder(a, l, false); CofactorUnder(a, l, true); CofactorUnder(b, l, false); CofactorUnder(b, l, true);
      Mk(s, l, Apply(s, op, Cofactor(a, l, false), Cofactor(b, l, false)), Apply(s, op, Cofactor(a, l, true), Cofactor(b, l, true)))
  }

  /** Apply is pointwise on path products. */
  lemma {:induction false} ApplyMeans(s: Strategy, op: Op, a: Edge, b: Edge, x: Assign)
    requires SquareRoot(s) && Ordered(a.node) && Ordered(b.node)
    ensures EdgeValue(Apply(s, op, a, b), x) == op(EdgeValue(a, x), EdgeValue(b, x))
    decreases Size(a.node) + Size(b.node)
  {
    hide Mul, Mk, Cofactor, SquareRoot;
    if a.node.One? && b.node.One? {
      MulOne(a.w);
      MulOne(b.w);
      MulOne(op(a.w, b.w));
    } else {
      var l := TopLevel(a.node, b.node);
      CofactorUnder(a, l, false);
      CofactorUnder(a, l, true);
      CofactorUnder(b, l, false);
      CofactorUnder(b, l, true);
      MkValue(s, l, Apply(s, op, Cofactor(a, l, false), Cofactor(b, l, false)), Apply(s, op, Cofactor(a, l, true), Cofactor(b, l, true)), x);
      ApplyMeans(s, op, Cofactor(a, l, x(l)), Cofactor(b, l, x(l)), x);
      CofactorAt(a, l, x);
      CofactorAt(b, l, x);
    }
  }

  /** ... and canonical whatever the shape of the operands: they may be raw diagrams. */
  lemma {:induction false} ApplyCanonical(s: Strategy, op: Op, a: Edge, b: Edge, l: nat)
    requires SquareRoot(s) && Ordered(a.node) && Ordered(b.node) && From(l, a.node) && From(l, b.node)
    ensures CanonicalEdge(s, Apply(s, op, a, b)) && From(l, Apply(s, op, a, b).node)
    decreases Size(a.node) + Size(b.node)
  {
    hide Mul, Mk, Cofactor, SquareRoot, Canonical;
    if a.node.One? && b.node.One? {
      OneCanonical(s);
    } else {
      var t := TopLevel(a.node, b.node);
      CofactorUnder(a, t, false);
      CofactorUnder(a, t, true);
      CofactorUnder(b, t, false);
      CofactorUnder(b, t, true);
      ApplyCanonical(s, op, Cofactor(a, t, false), Cofactor(b, t, false), t + 1);
      ApplyCanonical(s, op, Cofactor(a, t, true), Cofactor(b, t, true), t + 1);
      MkCanonical(s, t, Apply(s, op, Cofactor(a, t, false), Cofactor(b, t, false)), Apply(s, op, Cofactor(a, t, true), Cofactor(b, t, true)));
    }
  }

  /** Two applies with equal pointwise results return the same edge, whatever their operands. */
  lemma ApplyUnique(s: Strategy, op: Op, a: Edge, b: Edge, op': Op, a': Edge, b': Edge)
    requires Canonizing(s) && Ordered(a.node) && Ordered(b.node) && Ordered(a'.node) && Ordered(b'.node)
    ensures Apply(s, op, a, b) == Apply(s, op', a', b')
       <==> forall x: Assign :: op(EdgeValue(a, x), EdgeValue(b, x)) == op'(EdgeValue(a', x), EdgeValue(b', x))
  {
    hide Apply, EdgeValue, CanonicalEdge;
    var e, f := Apply(s, op, a, b), Apply(s, op', a', b');
    ApplyCanonical(s, op, a, b, 0);
    ApplyCanonical(s, op', a', b', 0);
    AlwaysSteady(s, e.node);
    AlwaysSteady(s, f.node);
    Canonicity(s, e, f);
    forall x: Assign
      ensures EdgeValue(e, x) == op(EdgeValue(a, x), EdgeValue(b, x))
      ensures EdgeValue(f, x) == op'(EdgeValue(a', x), EdgeValue(b', x))
    {
      ApplyMeans(s, op, a, b, x);
      ApplyMeans(s, op', a', b', x);
    }
  }

  /* ---- evdd_normalize ---- */

  /** evdd_normalize_node on a node, folded with the weight of the edge that reaches it. */
  function NormEdge(s: Strategy, e: Edge): Edge
    decreases e.node
  {
    if e.node.One? then e
    else var n := NormNode(s, e.node); Edge(Mul(e.w, n.w), n.node)
  }

  function NormNode(s: Strategy, t: Tree): Edge
    requires t.Node?
    decreases t, 0
  {
    Mk(s, t.level, NormEdge(s, Edge(t.wlow, t.low)), NormEdge(s, Edge(t.whigh, t.high)))
  }

  /** The pass changes no function, whatever the raw diagram. */
  lemma {:induction false} NormMeans(s: Strategy, e: Edge, a: Assign)
    requires SquareRoot(s)
    ensures EdgeValue(NormEdge(s, e), a) == EdgeValue(e, a)
    decreases e.node
  {
    hide Mul, Mk, SquareRoot;
    if e.node.Node? {
      var t := e.node;
      var n := NormNode(s, t);
      NormMeans(s, Edge(t.wlow, t.low), a);
      NormMeans(s, Edge(t.whigh, t.high), a);
      MkValue(s, t.level, NormEdge(s, Edge(t.wlow, t.low)), NormEdge(s, Edge(t.whigh, t.high)), a);
      MulAssoc(e.w, n.w, Value(n.node, a));
    }
  }

  /** Every zero-weight edge of the raw diagram points at the terminal. */
  predicate Tidy(t: Tree) {
    t.Node? ==> ZeroTidy(t.wlow, t.low) && ZeroTidy(t.whigh, t.high) && Tidy(t.low) && Tidy(t.high)
  }

  /** Building keeps order, whatever the edges. */
  lemma MkOrdered(s: Strategy, l: nat, low: Edge, high: Edge)
    requires Ordered(low.node) && Ordered(high.node) && Under(l, low.node) && Under(l, high.node)
    ensures Ordered(Mk(s, l, low, high).node) && From(l, Mk(s, l, low, high).node)
  {
    hide Mul, Normalize;
  }

  /** ... and so does the pass. */
  lemma {:induction false} NormOrdered(s: Strategy, e: Edge, l: nat)
    requires Ordered(e.node) && From(l, e.node)
    ensures Ordered(NormEdge(s, e).node) && From(l, NormEdge(s, e).node)
    decreases e.node
  {
    hide Mul, Mk;
    if e.node.Node? {
      var t := e.node;
      NormOrdered(s, Edge(t.wlow, t.low), t.level + 1);
      NormOrdered(s, Edge(t.whigh, t.high), t.level + 1);
      MkOrdered(s, t.level, NormEdge(s, Edge(t.wlow, t.low)), NormEdge(s, Edge(t.whigh, t.high)));
    }
  }

  lemma {:induction false} NormCanonical(s: Strategy, e: Edge, l: nat)
    requires SquareRoot(s) && Ordered(e.node) && From(l, e.node) && Tidy(e.node) && ZeroTidy(e.w, e.node)
    ensures CanonicalEdge(s, NormEdge(s, e)) && From(l, NormEdge(s, e).node)
    decreases e.node
  {
    hide Mul, Mk, SquareRoot, Canonical;
    if e.node.Node? {
      var t := e.node;
      NormCanonical(s, Edge(t.wlow, t.low), t.level + 1);
      NormCanonical(s, Edge(t.whigh, t.high), t.level + 1);
      MkCanonical(s, t.level, NormEdge(s, Edge(t.wlow, t.low)), NormEdge(s, Edge(t.whigh, t.high)));
      NoDivisors(e.w, NormNode(s, t).w);
    } else {
      OneCanonical(s);
    }
  }

  /** The pass reaches the one canonical edge of the function: every raw form of a function ends at the same edge. */
  lemma NormReaches(s: Strategy, e: Edge, f: Edge)
    requires Canonizing(s) && Ordered(e.node) && Tidy(e.node) && ZeroTidy(e.w, e.node) && CanonicalEdge(s, f)
    ensures NormEdge(s, e) == f <==> forall a: Assign :: EdgeValue(e, a) == EdgeValue(f, a)
  {
    hide NormEdge, EdgeValue, CanonicalEdge;
    var n := NormEdge(s, e);
    NormCanonical(s, e, 0);
    AlwaysSteady(s, n.node);
    AlwaysSteady(s, f.node);
    Canonicity(s, n, f);
    forall a: Assign ensures EdgeValue(n, a) == EdgeValue(e, a) {
      NormMeans(s, e, a);
    }
  }

  ghost predicate Always(e: Edge, c: real) { forall a: Assign {:trigger EdgeValue(e, a)} :: EdgeValue(e, a) == c }

  ghost predicate Constant(e: Edge) { exists c: real :: Always(e, c) }

  /** A canonical edge of a constant function is an edge to the terminal, whatever the strategy. */
  lemma {:induction false} ConstantTerminal(s: Strategy, e: Edge)
    requires CanonicalEdge(s, e) && Constant(e)
    ensures e.node.One?
    decreases e.node
  {
    hide Mul, Normalize, SteadyTree;
    if e.node.Node? {
      var l := e.node.level;
      var w: real :| Always(e, w);
      CanonicalOrdered(s, e.node);
      forall v ensures Cofactor(e, l, v) == Edge(w, One) {
        var c := Cofactor(e, l, v);
        CofactorCanonical(s, e, l, v);
        forall a: Assign ensures EdgeValue(c, a) == w {
          CofactorValue(e, l, v, a);
        }
        assert Always(c, w);
        ConstantTerminal(s, c);
        OneValue((x: nat) => false);
        assert EdgeValue(c, (x: nat) => false) == Mul(c.w, 1.0);
        MulOne(c.w);
      }
      OneSided(s, e, Edge(w, One), l);
    }
  }

  /**
    With a zero weight on the root edge the function is zero, and the pass finds
    the false edge exactly when the node below is constant.
  */
  lemma {:induction false} NormUntidyRoot(s: Strategy, t: Tree)
    requires SquareRoot(s) && Ordered(t) && Tidy(t)
    ensures forall x: Assign :: EdgeValue(Edge(0.0, t), x) == 0.0
    ensures NormEdge(s, Edge(0.0, t)) == FALSE_EDGE <==> Constant(Edge(1.0, t))
  {
    hide Mul, NormNode, Value, Canonical;
    forall x: Assign ensures EdgeValue(Edge(0.0, t), x) == 0.0 {
      MulZero(Value(t, x));
    }
    var e := Edge(1.0, t);
    var n := NormEdge(s, e);
    NormCanonical(s, e, 0);
    forall a: Assign ensures EdgeValue(n, a) == EdgeValue(e, a) {
      NormMeans(s, e, a);
    }
    NormZero(s, t);
    if n.node.One? {
      forall a: Assign ensures EdgeValue(e, a) == n.w {
        OneValue(a);
        MulOne(n.w);
        assert EdgeValue(n, a) == Mul(n.w, 1.0);
      }
      assert Always(e, n.w);
    } else if Constant(e) {
      var c: real :| Always(e, c);
      assert Always(n, c);
      ConstantTerminal(s, n);
    }
  }

  lemma NormZero(s: Strategy, t: Tree)
    ensures NormEdge(s, Edge(0.0, t)).w == 0.0 && NormEdge(s, Edge(0.0, t)).node == NormEdge(s, Edge(1.0, t)).node
  {
    hide Mul, NormNode;
    if t.Node? {
      MulZero(NormNode(s, t).w);
    }
  }
}
