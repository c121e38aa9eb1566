/**
  What exchanging two adjacent variables does to a diagram, as a relation
  between the graph before and the graph after.

  During a reordering session a node carries its VARIABLE; the order is the
  separate table var2level. Node ids 0 and 1 are the constants.
*/
module SwapTheory {
  import Dd

  datatype Inner = Inner(v: nat, low: nat, high: nat)
  type Graph = map<nat, Inner>
  type Assign = nat -> bool

  /** var2level; its last entry, for the pseudo variable of the constants, is the number of variables. */
  type Order = seq<nat>

  predicate Node(g: Graph, n: nat) { n < 2 || n in g }

  function Var(g: Graph, lev: Order, n: nat): nat
    requires |lev| > 0
  {
    if n in g then g[n].v else |lev| - 1
  }

  /** var2level is injective and the constants come last. */
  predicate IsOrder(lev: Order) {
    && |lev| > 0 && lev[|lev| - 1] == |lev| - 1
    && (forall v {:trigger lev[v]} :: 0 <= v < |lev| ==> lev[v] < |lev|)
    && (forall v, w {:trigger lev[v], lev[w]} :: 0 <= v < w < |lev| ==> lev[v] != lev[w])
  }

  predicate GoodNode(g: Graph, lev: Order, n: nat)
    requires |lev| > 0 && n in g
  {
    && 2 <= n && g[n].v < |lev| - 1
    && Node(g, g[n].low) && Node(g, g[n].high) && g[n].low != g[n].high
    && (g[n].low in g ==> g[g[n].low].v < |lev| - 1 && lev[g[n].v] < lev[g[g[n].low].v])
    && (g[n].high in g ==> g[g[n].high].v < |lev| - 1 && lev[g[n].v] < lev[g[g[n].high].v])
  }

  /** Closed, ordered and reduced. */
  ghost predicate Wf(g: Graph, lev: Order) {
    && IsOrder(lev)
    && 0 !in g && 1 !in g
    && forall n {:trigger GoodNode(g, lev, n)} {:trigger n in g} :: n in g ==> GoodNode(g, lev, n)
  }

  ghost predicate Unique(g: Graph) {
    forall m, n {:trigger g[m], g[n]} :: m in g && n in g && g[m] == g[n] ==> m == n
  }

  ghost function Rank(g: Graph, lev: Order, n: nat): nat
    requires Wf(g, lev) && Node(g, n)
  {
    if n in g then (assert GoodNode(g, lev, n); |lev| - lev[g[n].v]) else 0
  }

  ghost function Eval(g: Graph, lev: Order, n: nat, a: Assign): bool
    requires Wf(g, lev) && Node(g, n)
    decreases Rank(g, lev, n)
  {
    if n !in g then n == 1
    else assert GoodNode(g, lev, n);
         if a(g[n].v) then Eval(g, lev, g[n].high, a) else Eval(g, lev, g[n].low, a)
  }

  /** The variables a node's diagram tests. */
  ghost function Support(g: Graph, lev: Order, n: nat): set<nat>
    requires Wf(g, lev) && Node(g, n)
    decreases Rank(g, lev, n)
  {
    if n !in g then {}
    else assert GoodNode(g, lev, n);
         {g[n].v} + Support(g, lev, g[n].low) + Support(g, lev, g[n].high)
  }

  /** A v0 node that has a v1 child: the only kind the exchange rewrites. */
  predicate Depends(g: Graph, n: nat, v0: nat, v1: nat) {
    && n in g && g[n].v == v0
    && ((g[n].low in g && g[g[n].low].v == v1) || (g[n].high in g && g[g[n].high].v == v1))
  }

  /** The cofactor of node k by variable v1 when v1 can only be its top variable. */
  function Cof(g: Graph, k: nat, v1: nat, b: bool): nat {
    if k in g && g[k].v == v1 then (if b then g[k].high else g[k].low) else k
  }

  /** r is what reorder_makenode returns for (v, low, high). */
  predicate IsMk(h: Graph, r: nat, v: nat, low: nat, high: nat) {
    if low == high then r == low else r in h && h[r] == Inner(v, low, high)
  }

  /** Node n of g, rewritten in place in h. */
  predicate Rewritten(g: Graph, h: Graph, n: nat, v0: nat, v1: nat)
    requires n in g && n in h
  {
    && h[n].v == v1
    && IsMk(h, h[n].low, v0, Cof(g, g[n].low, v1, false), Cof(g, g[n].high, v1, false))
    && IsMk(h, h[n].high, v0, Cof(g, g[n].low, v1, true), Cof(g, g[n].high, v1, true))
  }

  /** A node that h has and g has not: it tests v0 over two nodes of g from below both variables. */
  predicate Fresh(g: Graph, h: Graph, lev: Order, n: nat, v0: nat, v1: nat)
    requires n in h && |lev| > 0 && v1 < |lev|
  {
    && 2 <= n && h[n].v == v0 && h[n].low != h[n].high
    && Node(g, h[n].low) && Node(g, h[n].high)
    && Var(g, lev, h[n].low) < |lev| && Var(g, lev, h[n].high) < |lev|
    && lev[v1] < lev[Var(g, lev, h[n].low)] && lev[v1] < lev[Var(g, lev, h[n].high)]
  }

  predicate Kept(g: Graph, h: Graph, n: nat, v0: nat, v1: nat, todo: set<nat>)
    requires n in g && n in h
  {
    if Depends(g, n, v0, v1) && n !in todo then Rewritten(g, h, n, v0, v1) else h[n] == g[n]
  }

  /**
    The state of the exchange while the nodes of `todo` still wait. Nodes may
    already have been dropped from h, but never one that h still points to.
  */
  ghost predicate Swapping(g: Graph, h: Graph, lev: Order, v0: nat, v1: nat, todo: set<nat>) {
    && Wf(g, lev) && Unique(g)
    && v0 < |lev| - 1 && v1 < |lev| - 1 && lev[v1] == lev[v0] + 1
    && 0 !in h && 1 !in h
    && (forall n {:trigger n in h} :: n in h ==> Node(h, h[n].low) && Node(h, h[n].high))
    && (forall n {:trigger Kept(g, h, n, v0, v1, todo)} {:trigger n in h} :: n in h && n in g ==> Kept(g, h, n, v0, v1, todo))
    && (forall n {:trigger Fresh(g, h, lev, n, v0, v1)} {:trigger n in h} :: n in h && n !in g ==> Fresh(g, h, lev, n, v0, v1))
    && (forall m, n {:trigger h[m], h[n]} :: m in h && n in h && h[m].v == v0 && h[m] == h[n] ==> m == n)
  }

  function SwapLevels(lev: Order, v0: nat, v1: nat): Order
    requires v0 < |lev| && v1 < |lev|
  {
    lev[v0 := lev[v1]][v1 := lev[v0]]
  }

  /** A rewritten node really tests v0 below: not both of its new children skip it. */
  lemma RewrittenTestsBoth(g: Graph, lev: Order, n: nat, v0: nat, v1: nat)
    requires Wf(g, lev) && Depends(g, n, v0, v1)
    requires v0 < |lev| - 1 && v1 < |lev| - 1 && lev[v1] == lev[v0] + 1
    ensures forall b ::
              var c, d := Cof(g, g[n].low, v1, b), Cof(g, g[n].high, v1, b);
              && Node(g, c) && Node(g, d)
              && Var(g, lev, c) < |lev| && Var(g, lev, d) < |lev|
              && lev[v1] < lev[Var(g, lev, c)] && lev[v1] < lev[Var(g, lev, d)]
    ensures Cof(g, g[n].low, v1, false) != Cof(g, g[n].low, v1, true)
            || Cof(g, g[n].high, v1, false) != Cof(g, g[n].high, v1, true)
  {
    assert GoodNode(g, lev, n);
    assert g[n].low in g ==> GoodNode(g, lev, g[n].low);
    assert g[n].high in g ==> GoodNode(g, lev, g[n].high);
    assert g[n].low in g && g[g[n].low].v != v1 ==> lev[g[g[n].low].v] != lev[v1];
    assert g[n].high in g && g[g[n].high].v != v1 ==> lev[g[g[n].high].v] != lev[v1];
  }

  /** From the four cofactors the two children can be recovered. */
  lemma CofDetermine(g: Graph, lev: Order, k: nat, l: nat, v1: nat)
    requires Wf(g, lev) && Unique(g) && Node(g, k) && Node(g, l)
    requires Cof(g, k, v1, false) == Cof(g, l, v1, false) && Cof(g, k, v1, true) == Cof(g, l, v1, true)
    requires v1 < |lev| - 1
    ensures k == l
  {
    assert k in g ==> GoodNode(g, lev, k);
    assert l in g ==> GoodNode(g, lev, l);
    if k in g && g[k].v == v1 && l in g && g[l].v == v1 {
      assert g[k] == g[l];
    }
  }

  /** Nodes of g from below both variables are never touched. */
  lemma BelowUntouched(g: Graph, h: Graph, lev: Order, v0: nat, v1: nat, todo: set<nat>, k: nat)
    requires Swapping(g, h, lev, v0, v1, todo)
    requires Node(g, k) && Node(h, k) && Var(g, lev, k) < |lev| && lev[v1] < lev[Var(g, lev, k)]
    ensures k in g <==> k in h
    ensures k in h ==> h[k] == g[k] && h[k].v != v0 && h[k].v != v1
  {
    if k in h && k in g {
      assert Kept(g, h, k, v0, v1, todo);
    }
  }

  /**
    Two rewritten nodes never collide, although they are put into the table
    without a lookup; and they never collide with a v1 node that was there.
  */
  lemma SwapUnique(g: Graph, h: Graph, lev: Order, v0: nat, v1: nat)
    requires Swapping(g, h, lev, v0, v1, {})
    ensures Unique(h)
  {
    forall m, n | m in h && n in h && h[m] == h[n]
      ensures m == n
    {
      if m in g && n in g && h[m].v != v0 {
        assert Kept(g, h, m, v0, v1, {}) && Kept(g, h, n, v0, v1, {});
        if Depends(g, m, v0, v1) && Depends(g, n, v0, v1) {
          RewrittenCollide(g, h, lev, v0, v1, m, n);
        } else if Depends(g, m, v0, v1) {
          RewrittenApart(g, h, lev, v0, v1, m, n);
        } else if Depends(g, n, v0, v1) {
          RewrittenApart(g, h, lev, v0, v1, n, m);
        }
      }
    }
  }

  /** A child of a rewritten node is a new v0 node, or lies below both variables. */
  lemma RewrittenChild(g: Graph, h: Graph, lev: Order, v0: nat, v1: nat, n: nat, b: bool)
    requires Swapping(g, h, lev, v0, v1, {})
    requires n in g && n in h && Depends(g, n, v0, v1)
    ensures var c, d := Cof(g, g[n].low, v1, b), Cof(g, g[n].high, v1, b);
            && IsMk(h, if b then h[n].high else h[n].low, v0, c, d)
            && Node(h, c) && Node(h, d) && Node(g, c) && Node(g, d)
            && (c in h ==> h[c].v != v0 && h[c].v != v1 && c in g && h[c] == g[c])
            && (d in h ==> h[d].v != v0 && h[d].v != v1 && d in g && h[d] == g[d])
            && Var(g, lev, c) < |lev| && lev[v1] < lev[Var(g, lev, c)]
            && Var(g, lev, d) < |lev| && lev[v1] < lev[Var(g, lev, d)]
  {
    assert Kept(g, h, n, v0, v1, {});
    RewrittenTestsBoth(g, lev, n, v0, v1);
    var c, d := Cof(g, g[n].low, v1, b), Cof(g, g[n].high, v1, b);
    var r := if b then h[n].high else h[n].low;
    assert IsMk(h, r, v0, c, d);
    assert Node(h, r);
    assert c != d ==> r in h && Node(h, h[r].low) && Node(h, h[r].high);
    BelowUntouched(g, h, lev, v0, v1, {}, c);
    BelowUntouched(g, h, lev, v0, v1, {}, d);
  }

  lemma RewrittenCollide(g: Graph, h: Graph, lev: Order, v0: nat, v1: nat, m: nat, n: nat)
    requires Swapping(g, h, lev, v0, v1, {})
    requires m in g && m in h && Depends(g, m, v0, v1)
    requires n in g && n in h && Depends(g, n, v0, v1)
    requires h[m] == h[n]
    ensures m == n
  {
    forall b ensures Cof(g, g[m].low, v1, b) == Cof(g, g[n].low, v1, b)
                     && Cof(g, g[m].high, v1, b) == Cof(g, g[n].high, v1, b)
    {
      RewrittenChild(g, h, lev, v0, v1, m, b);
      RewrittenChild(g, h, lev, v0, v1, n, b);
    }
    assert GoodNode(g, lev, m) && GoodNode(g, lev, n);
    CofDetermine(g, lev, g[m].low, g[n].low, v1);
    CofDetermine(g, lev, g[m].high, g[n].high, v1);
    assert g[m] == g[n];
  }

  lemma {:induction false} RewrittenApart(g: Graph, h: Graph, lev: Order, v0: nat, v1: nat, m: nat, n: nat)
    requires Swapping(g, h, lev, v0, v1, {})
    requires m in g && m in h && Depends(g, m, v0, v1)
    requires n in g && n in h && !Depends(g, n, v0, v1)
    ensures h[m] != h[n]
  {
    hide Wf, Unique, Fresh;
    assert Kept(g, h, n, v0, v1, {}) && Kept(g, h, m, v0, v1, {});
    GoodAt(g, lev, n);
    GoodAt(g, lev, m);
    RewrittenTestsBoth(g, lev, m, v0, v1);
    RewrittenChild(g, h, lev, v0, v1, m, false);
    RewrittenChild(g, h, lev, v0, v1, m, true);
    if h[m] == h[n] {
      // n is an old v1 node: its children lie below, so neither is a v0 node
      assert Cof(g, g[m].low, v1, false) == Cof(g, g[m].high, v1, false);
      assert Cof(g, g[m].low, v1, true) == Cof(g, g[m].high, v1, true);
      CofDetermine(g, lev, g[m].low, g[m].high, v1);
    }
  }

  lemma GoodAt(g: Graph, lev: Order, n: nat)
    requires Wf(g, lev) && n in g
    ensures GoodNode(g, lev, n)
  {
  }

  /** The graph after the exchange is closed, reduced and ordered by the new order. */
  lemma SwapWf(g: Graph, h: Graph, lev: Order, v0: nat, v1: nat)
    requires Swapping(g, h, lev, v0, v1, {})
    ensures IsOrder(SwapLevels(lev, v0, v1))
    ensures Wf(h, SwapLevels(lev, v0, v1))
  {
    var lev' := SwapLevels(lev, v0, v1);
    forall n | n in h ensures GoodNode(h, lev', n) {
      if n !in g {
        assert Fresh(g, h, lev, n, v0, v1);
        BelowUntouched(g, h, lev, v0, v1, {}, h[n].low);
        BelowUntouched(g, h, lev, v0, v1, {}, h[n].high);
        NewGood(g, h, lev, v0, v1, n);
      } else if Depends(g, n, v0, v1) {
        RewrittenGood(g, h, lev, v0, v1, n);
      } else {
        KeptGood(g, h, lev, v0, v1, n);
      }
    }
  }

  lemma {:induction false} NewGood(g: Graph, h: Graph, lev: Order, v0: nat, v1: nat, n: nat)
    requires Swapping(g, h, lev, v0, v1, {})
    requires n in h && 2 <= n && h[n].v == v0 && h[n].low != h[n].high
    requires forall k {:trigger Node(h, k)} :: k == h[n].low || k == h[n].high ==>
               Node(h, k) && Node(g, k) && Var(g, lev, k) < |lev| && lev[v1] < lev[Var(g, lev, k)]
    ensures GoodNode(h, SwapLevels(lev, v0, v1), n)
  {
    assert Node(h, h[n].low) && Node(h, h[n].high);
    BelowUntouched(g, h, lev, v0, v1, {}, h[n].low);
    BelowUntouched(g, h, lev, v0, v1, {}, h[n].high);
    assert h[n].low in g ==> GoodNode(g, lev, h[n].low);
    assert h[n].high in g ==> GoodNode(g, lev, h[n].high);
  }

  lemma RewrittenGood(g: Graph, h: Graph, lev: Order, v0: nat, v1: nat, n: nat)
    requires Swapping(g, h, lev, v0, v1, {})
    requires n in g && n in h && Depends(g, n, v0, v1)
    ensures GoodNode(h, SwapLevels(lev, v0, v1), n)
  {
    assert Kept(g, h, n, v0, v1, {}) && GoodNode(g, lev, n);
    assert Node(h, h[n].low) && Node(h, h[n].high);
    RewrittenTestsBoth(g, lev, n, v0, v1);
    RewrittenChild(g, h, lev, v0, v1, n, false);
    RewrittenChild(g, h, lev, v0, v1, n, true);
    RewrittenChildLevel(g, h, lev, v0, v1, n, false);
    RewrittenChildLevel(g, h, lev, v0, v1, n, true);
    hide Swapping, Wf;
  }

  /** A child of a rewritten node comes after v1 in the new order. */
  lemma RewrittenChildLevel(g: Graph, h: Graph, lev: Order, v0: nat, v1: nat, n: nat, b: bool)
    requires Swapping(g, h, lev, v0, v1, {})
    requires n in g && n in h && Depends(g, n, v0, v1)
    ensures var r := if b then h[n].high else h[n].low;
            r in h ==> h[r].v < |lev| - 1 && SwapLevels(lev, v0, v1)[v1] < SwapLevels(lev, v0, v1)[h[r].v]
  {
    RewrittenChild(g, h, lev, v0, v1, n, b);
    var c := Cof(g, g[n].low, v1, b);
    WfAt(g, lev, c);
    hide Wf;
  }

  lemma KeptGood(g: Graph, h: Graph, lev: Order, v0: nat, v1: nat, n: nat)
    requires Swapping(g, h, lev, v0, v1, {})
    requires n in g && n in h && !Depends(g, n, v0, v1)
    ensures GoodNode(h, SwapLevels(lev, v0, v1), n)
  {
    assert Kept(g, h, n, v0, v1, {}) && GoodNode(g, lev, n);
    KeptChild(g, h, lev, v0, v1, n, g[n].low);
    KeptChild(g, h, lev, v0, v1, n, g[n].high);
  }

  lemma KeptChild(g: Graph, h: Graph, lev: Order, v0: nat, v1: nat, n: nat, k: nat)
    requires Swapping(g, h, lev, v0, v1, {})
    requires n in g && n in h && !Depends(g, n, v0, v1) && (k == g[n].low || k == g[n].high)
    requires Node(h, k)
    ensures k in h ==> k in g && h[k].v < |lev| - 1
                       && SwapLevels(lev, v0, v1)[g[n].v] < SwapLevels(lev, v0, v1)[h[k].v]
  {
    assert GoodNode(g, lev, n);
    if k in h {
      assert k in g;
      assert GoodNode(g, lev, k) && Kept(g, h, k, v0, v1, {});
      assert lev[g[n].v] < lev[g[k].v];
    }
  }

  /** Under an assignment, a rewritten node's child stands for the matching cofactor. */
  lemma RewrittenEval(g: Graph, h: Graph, lev: Order, v0: nat, v1: nat, n: nat, a: Assign)
    requires Swapping(g, h, lev, v0, v1, {})
    requires Wf(h, SwapLevels(lev, v0, v1))
    requires n in g && n in h && Depends(g, n, v0, v1)
    ensures Node(g, g[n].low) && Node(g, g[n].high)
    ensures var c := Cof(g, if a(v0) then g[n].high else g[n].low, v1, a(v1));
            && Node(g, c) && Node(h, c) && Rank(g, lev, c) < Rank(g, lev, n)
            && Eval(g, lev, n, a) == Eval(g, lev, c, a)
            && Eval(h, SwapLevels(lev, v0, v1), n, a) == Eval(h, SwapLevels(lev, v0, v1), c, a)
  {
    var lev' := SwapLevels(lev, v0, v1);
    assert GoodNode(g, lev, n) && GoodNode(h, lev', n) && Kept(g, h, n, v0, v1, {});
    RewrittenChild(g, h, lev, v0, v1, n, a(v1));
    var k := if a(v0) then g[n].high else g[n].low;
    var r := if a(v1) then h[n].high else h[n].low;
    hide Swapping, Wf, Kept, Rewritten;
    assert k in g ==> GoodNode(g, lev, k) by { WfAt(g, lev, k); }
    assert r in h ==> GoodNode(h, lev', r) by { WfAt(h, lev', r); }
  }

  lemma WfAt(g: Graph, lev: Order, n: nat)
    requires Wf(g, lev)
    ensures n in g ==> GoodNode(g, lev, n)
  {
  }

  /** Exchanging two adjacent variables changes no node's function. */
  lemma {:induction false} SwapEval(g: Graph, h: Graph, lev: Order, v0: nat, v1: nat, n: nat, a: Assign)
    requires Swapping(g, h, lev, v0, v1, {})
    requires Wf(h, SwapLevels(lev, v0, v1))
    requires Node(g, n) && Node(h, n)
    ensures Eval(h, SwapLevels(lev, v0, v1), n, a) == Eval(g, lev, n, a)
    decreases Rank(g, lev, n)
  {
    if n in h {
      assert n in g && GoodNode(g, lev, n) && GoodNode(h, SwapLevels(lev, v0, v1), n);
      if Depends(g, n, v0, v1) {
        RewrittenEval(g, h, lev, v0, v1, n, a);
        SwapEval(g, h, lev, v0, v1, Cof(g, if a(v0) then g[n].high else g[n].low, v1, a(v1)), a);
      } else {
        assert Kept(g, h, n, v0, v1, {});
        SwapEval(g, h, lev, v0, v1, if a(g[n].v) then g[n].high else g[n].low, a);
      }
    } else {
      assert n !in g;
    }
  }

  /** ... and makes no node depend on a variable it did not test before. */
  lemma {:induction false} SwapSupport(g: Graph, h: Graph, lev: Order, v0: nat, v1: nat, n: nat)
    requires Swapping(g, h, lev, v0, v1, {})
    requires Wf(h, SwapLevels(lev, v0, v1))
    requires Node(g, n) && Node(h, n)
    ensures Support(h, SwapLevels(lev, v0, v1), n) <= Support(g, lev, n)
    decreases Rank(g, lev, n)
  {
    var lev' := SwapLevels(lev, v0, v1);
    if n in h {
      assert GoodNode(g, lev, n) && GoodNode(h, lev', n);
      assert Kept(g, h, n, v0, v1, {});
      if Depends(g, n, v0, v1) {
        SwapSupportRewritten(g, h, lev, v0, v1, n, false);
        SwapSupportRewritten(g, h, lev, v0, v1, n, true);
      } else {
        SwapSupport(g, h, lev, v0, v1, g[n].low);
        SwapSupport(g, h, lev, v0, v1, g[n].high);
      }
    } else {
      assert n !in g;
    }
  }

  lemma {:induction false} SwapSupportRewritten(g: Graph, h: Graph, lev: Order, v0: nat, v1: nat, n: nat, b: bool)
    requires Swapping(g, h, lev, v0, v1, {})
    requires Wf(h, SwapLevels(lev, v0, v1))
    requires n in g && n in h && Depends(g, n, v0, v1)
    ensures var r := if b then h[n].high else h[n].low;
            Node(h, r) && Support(h, SwapLevels(lev, v0, v1), r) <= Support(g, lev, n)
    decreases Rank(g, lev, n), 0
  {
    var lev' := SwapLevels(lev, v0, v1);
    assert GoodNode(g, lev, n) && GoodNode(h, lev', n);
    RewrittenTestsBoth(g, lev, n, v0, v1);
    RewrittenChild(g, h, lev, v0, v1, n, b);
    var r := if b then h[n].high else h[n].low;
    CofSupport(g, lev, g[n].low, v1, b);
    CofSupport(g, lev, g[n].high, v1, b);
    SwapSupport(g, h, lev, v0, v1, Cof(g, g[n].low, v1, b));
    SwapSupport(g, h, lev, v0, v1, Cof(g, g[n].high, v1, b));
    assert r in h ==> GoodNode(h, lev', r);
  }

  lemma CofSupport(g: Graph, lev: Order, k: nat, v1: nat, b: bool)
    requires Wf(g, lev) && Node(g, k)
    ensures var c := Cof(g, k, v1, b); Node(g, c) && Support(g, lev, c) <= Support(g, lev, k)
  {
    assert k in g ==> GoodNode(g, lev, k);
  }

  /** With no v0 node over a v1 node the exchange only renames the order. */
  lemma SwapNothing(g: Graph, lev: Order, v0: nat, v1: nat)
    requires Wf(g, lev) && Unique(g)
    requires v0 < |lev| - 1 && v1 < |lev| - 1 && lev[v1] == lev[v0] + 1
    requires forall n {:trigger Depends(g, n, v0, v1)} :: !Depends(g, n, v0, v1)
    ensures Swapping(g, g, lev, v0, v1, {})
  {
    forall n | n in g ensures Kept(g, g, n, v0, v1, {}) && Node(g, g[n].low) && Node(g, g[n].high) {
      assert !Depends(g, n, v0, v1) && GoodNode(g, lev, n);
    }
  }

  /** The node as a decision tree over the levels of the current order. */
  ghost function Unfold(g: Graph, lev: Order, n: nat): Dd.Dd
    requires Wf(g, lev) && Node(g, n)
    decreases Rank(g, lev, n)
  {
    if n !in g then Dd.Leaf(n == 1)
    else assert GoodNode(g, lev, n);
         Dd.Node(lev[g[n].v], Unfold(g, lev, g[n].low), Unfold(g, lev, g[n].high))
  }

  lemma {:induction false} UnfoldInjective(g: Graph, lev: Order, m: nat, n: nat)
    requires Wf(g, lev) && Unique(g) && Node(g, m) && Node(g, n)
    requires Unfold(g, lev, m) == Unfold(g, lev, n)
    ensures m == n
    decreases Rank(g, lev, m)
  {
    if m in g && n in g {
      assert GoodNode(g, lev, m) && GoodNode(g, lev, n);
      UnfoldInjective(g, lev, g[m].low, g[n].low);
      UnfoldInjective(g, lev, g[m].high, g[n].high);
      assert g[m] == g[n];
    }
  }

  lemma {:induction false} UnfoldRobdd(g: Graph, lev: Order, n: nat)
    requires Wf(g, lev) && Unique(g) && Node(g, n)
    ensures Dd.Robdd(Unfold(g, lev, n))
    decreases Rank(g, lev, n)
  {
    if n in g {
      assert GoodNode(g, lev, n);
      UnfoldRobdd(g, lev, g[n].low);
      UnfoldRobdd(g, lev, g[n].high);
      if Unfold(g, lev, g[n].low) == Unfold(g, lev, g[n].high) {
        UnfoldInjective(g, lev, g[n].low, g[n].high);
      }
    }
  }

  /** The assignment of variables that gives every level the value b gives it. */
  function ByVar(lev: Order, b: Dd.Assign): Assign {
    (v: nat) => v < |lev| && b(lev[v])
  }

  lemma {:induction false} UnfoldEval(g: Graph, lev: Order, n: nat, b: Dd.Assign)
    requires Wf(g, lev) && Node(g, n)
    ensures Dd.Eval(Unfold(g, lev, n), b) == Eval(g, lev, n, ByVar(lev, b))
    decreases Rank(g, lev, n)
  {
    if n in g {
      assert GoodNode(g, lev, n);
      UnfoldEval(g, lev, if b(lev[g[n].v]) then g[n].high else g[n].low, b);
    }
  }

  /** Only the values of the variables matter. */
  lemma {:induction false} EvalAgree(g: Graph, lev: Order, n: nat, a: Assign, b: Assign)
    requires Wf(g, lev) && Node(g, n) && forall v: nat {:trigger a(v)} {:trigger b(v)} :: v < |lev| - 1 ==> a(v) == b(v)
    ensures Eval(g, lev, n, a) == Eval(g, lev, n, b)
    decreases Rank(g, lev, n)
  {
    if n in g {
      assert GoodNode(g, lev, n);
      EvalAgree(g, lev, if a(g[n].v) then g[n].high else g[n].low, a, b);
    }
  }

  /** Canonicity of the table: nodes that are equal as functions of the variables are the same node. */
  lemma GraphCanonical(g: Graph, lev: Order, m: nat, n: nat)
    requires Wf(g, lev) && Unique(g) && Node(g, m) && Node(g, n)
    requires forall a: Assign :: Eval(g, lev, m, a) == Eval(g, lev, n, a)
    ensures m == n
  {
    UnfoldRobdd(g, lev, m);
    UnfoldRobdd(g, lev, n);
    forall b: Dd.Assign
      ensures Dd.Eval(Unfold(g, lev, m), b) == Dd.Eval(Unfold(g, lev, n), b)
    {
      UnfoldEval(g, lev, m, b);
      UnfoldEval(g, lev, n, b);
    }
    Dd.Canonical(Unfold(g, lev, m), Unfold(g, lev, n));
    UnfoldInjective(g, lev, m, n);
  }

  type Matrix = seq<seq<bool>>

  predicate Marked(mtx: Matrix, x: nat, y: nat) {
    x < |mtx| && y < |mtx[x]| && mtx[x][y]
  }

  /** The interaction matrix covers a node: any two variables it tests are marked. */
  ghost predicate CoveredNode(g: Graph, lev: Order, mtx: Matrix, n: nat)
    requires Wf(g, lev) && Node(g, n)
  {
    forall x, y :: x in Support(g, lev, n) && y in Support(g, lev, n) ==> Marked(mtx, x, y)
  }

  ghost predicate Covered(g: Graph, lev: Order, mtx: Matrix)
    requires Wf(g, lev)
  {
    forall n {:trigger CoveredNode(g, lev, mtx, n)} :: n in g ==> CoveredNode(g, lev, mtx, n)
  }

  predicate IsParent(g: Graph, q: nat, n: nat) {
    q in g && (g[q].low == n || g[q].high == n)
  }

  /** A matrix that covers the external roots covers the table, when every node is held or has a parent. */
  lemma {:induction false} CoverFromRoots(g: Graph, lev: Order, mtx: Matrix, roots: set<nat>, n: nat)
    requires Wf(g, lev)
    requires forall r {:trigger CoveredNode(g, lev, mtx, r)} :: r in roots && r in g ==> CoveredNode(g, lev, mtx, r)
    requires forall m {:trigger m in g} :: m in g && m !in roots ==> exists q {:trigger IsParent(g, q, m)} :: IsParent(g, q, m)
    requires n in g
    ensures CoveredNode(g, lev, mtx, n)
    decreases assert GoodNode(g, lev, n); lev[g[n].v]
  {
    if n !in roots {
      var q :| IsParent(g, q, n);
      assert GoodNode(g, lev, q);
      CoverFromRoots(g, lev, mtx, roots, q);
      assert Support(g, lev, n) <= Support(g, lev, q);
    }
  }

  /** Where a v0 node is over a v1 node, the matrix marks the pair. */
  lemma DependsMarked(g: Graph, lev: Order, mtx: Matrix, v0: nat, v1: nat, n: nat)
    requires Wf(g, lev) && Covered(g, lev, mtx)
    ensures Depends(g, n, v0, v1) ==> Marked(mtx, v0, v1)
  {
    if Depends(g, n, v0, v1) {
      assert GoodNode(g, lev, n) && CoveredNode(g, lev, mtx, n);
      var k := if g[n].low in g && g[g[n].low].v == v1 then g[n].low else g[n].high;
      assert GoodNode(g, lev, k);
      assert v1 in Support(g, lev, k) && v1 in Support(g, lev, n) && v0 in Support(g, lev, n);
    }
  }
}
