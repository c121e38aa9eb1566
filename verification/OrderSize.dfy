/**
  Why the number of nodes may be taken as a function of the variable order:
  two tables with the same order that hold the same functions for the same
  external nodes, and no node beside what these need, have equally many nodes.
*/
module OrderSize {
  import Dd
  import opened Threads
  import opened SwapTheory
  import opened Counting
  import opened SessionState
  import opened RefCounts
  import opened ReorderSteps
  import opened LocalGbc
  import opened Rehash
  import opened Number

  ghost function Tree(g: Graph, lev: Order, n: nat): Dd.Dd {
    if Wf(g, lev) && Node(g, n) then Unfold(g, lev, n) else Dd.Leaf(false)
  }

  ghost function Trees(g: Graph, lev: Order, ids: set<nat>): set<Dd.Dd> { set n | n in ids :: Tree(g, lev, n) }

  /** Distinct nodes have distinct trees. */
  lemma {:induction false} TreesCount(g: Graph, lev: Order, ids: set<nat>)
    requires Wf(g, lev) && Unique(g) && ids <= g.Keys
    ensures |Trees(g, lev, ids)| == |ids|
  {
    if ids == {} {
      assert Trees(g, lev, ids) == {};
    } else {
      var n :| n in ids;
      TreesCount(g, lev, ids - {n});
      if Tree(g, lev, n) in Trees(g, lev, ids - {n}) {
        var m :| m in ids - {n} && Tree(g, lev, m) == Tree(g, lev, n);
        UnfoldInjective(g, lev, m, n);
      }
      assert Trees(g, lev, ids) == Trees(g, lev, ids - {n}) + {Tree(g, lev, n)};
    }
  }

  /** Every node is a root or has a parent. */
  ghost predicate Rooted(g: Graph, roots: set<nat>) {
    forall n {:trigger n in g} :: n in g && n !in roots ==> exists q {:trigger IsParent(g, q, n)} :: IsParent(g, q, n)
  }

  ghost predicate SameRoots(g: Graph, h: Graph, lev: Order, roots: set<nat>) {
    && Wf(g, lev) && Unique(g) && Wf(h, lev) && Unique(h)
    && (forall r {:trigger r in roots} :: r in roots ==> r in g && r in h)
    && (forall r, a: Assign {:trigger Eval(h, lev, r, a)} :: r in roots ==> Eval(h, lev, r, a) == Eval(g, lev, r, a))
  }

  lemma RootTree(g: Graph, h: Graph, lev: Order, roots: set<nat>, r: nat)
    requires SameRoots(g, h, lev, roots) && r in roots
    ensures r in g && r in h && Tree(g, lev, r) == Tree(h, lev, r)
  {
    UnfoldRobdd(g, lev, r);
    UnfoldRobdd(h, lev, r);
    forall b: Dd.Assign ensures Dd.Eval(Tree(g, lev, r), b) == Dd.Eval(Tree(h, lev, r), b) {
      UnfoldEval(g, lev, r, b);
      UnfoldEval(h, lev, r, b);
    }
    Dd.Canonical(Tree(g, lev, r), Tree(h, lev, r));
  }

  lemma RootsWf(g: Graph, h: Graph, lev: Order, roots: set<nat>)
    requires SameRoots(g, h, lev, roots)
    ensures Wf(g, lev) && Unique(g) && Wf(h, lev) && Unique(h)
  {
  }

  /** A node of one table has a twin in the other: climb to a root, then go down again. */
  lemma {:induction false} Twin(g: Graph, h: Graph, lev: Order, roots: set<nat>, n: nat) returns (m: nat)
    requires SameRoots(g, h, lev, roots) && Rooted(g, roots) && n in g
    ensures m in h && Tree(h, lev, m) == Tree(g, lev, n)
    decreases assert GoodNode(g, lev, n); lev[g[n].v]
  {
    hide SameRoots;
    RootsWf(g, h, lev, roots);
    if n in roots {
      RootTree(g, h, lev, roots, n);
      m := n;
    } else {
      var q :| IsParent(g, q, n);
      assert GoodNode(g, lev, q) && GoodNode(g, lev, n);
      var p := Twin(g, h, lev, roots, q);
      hide Rooted, Wf;
      m := TwinChild(g, h, lev, q, p, n);
    }
  }

  lemma TwinChild(g: Graph, h: Graph, lev: Order, q: nat, p: nat, n: nat) returns (m: nat)
    requires Wf(g, lev) && Wf(h, lev) && IsParent(g, q, n) && n in g && p in h && Tree(h, lev, p) == Tree(g, lev, q)
    ensures m in h && Tree(h, lev, m) == Tree(g, lev, n)
  {
    assert GoodNode(g, lev, q) && GoodNode(h, lev, p);
    m := if g[q].low == n then h[p].low else h[p].high;
    TreeNode(g, lev, q);
    TreeNode(h, lev, p);
    TreeNode(g, lev, n);
  }

  lemma TreeNode(g: Graph, lev: Order, n: nat)
    requires Wf(g, lev) && n in g
    ensures Node(g, g[n].low) && Node(g, g[n].high)
    ensures Tree(g, lev, n) == Dd.Node(lev[g[n].v], Tree(g, lev, g[n].low), Tree(g, lev, g[n].high))
  {
    assert GoodNode(g, lev, n);
  }

  lemma SameSizeHalf(g: Graph, h: Graph, lev: Order, roots: set<nat>)
    requires SameRoots(g, h, lev, roots) && Rooted(g, roots)
    ensures |g.Keys| <= |h.Keys|
  {
    TreesCount(g, lev, g.Keys);
    TreesCount(h, lev, h.Keys);
    forall t | t in Trees(g, lev, g.Keys) ensures t in Trees(h, lev, h.Keys) {
      var n :| n in g.Keys && t == Tree(g, lev, n);
      var m := Twin(g, h, lev, roots, n);
    }
    SubsetSize(Trees(g, lev, g.Keys), Trees(h, lev, h.Keys));
  }

  lemma SameSize(g: Graph, h: Graph, lev: Order, roots: set<nat>)
    requires SameRoots(g, h, lev, roots) && Rooted(g, roots) && Rooted(h, roots)
    ensures |g.Keys| == |h.Keys|
  {
    SameSizeHalf(g, h, lev, roots);
    SameSizeHalf(h, g, lev, roots);
  }

  /** reorder_nodenum. */
  function NodeNum(s: State): int { |s.nodes| - s.freenum }

  lemma NodeNumIsSize(s: State, hash: Hash)
    requires Sound(s, hash)
    ensures NodeNum(s) == |s.g.Keys| + 2
  {
    hide Sound;
    VacantBefore(s, hash);
    forall n | n in s.g ensures 2 <= n < |s.nodes| { NodeFacts(s, hash, n); }
    ConstantFacts(s, hash);
    hide Vacant;
    Slots(|s.nodes|);
    VacantSplit(|s.nodes|, s.g);
  }

  lemma VacantSplit(size: nat, g: Graph)
    requires forall n {:trigger n in g} :: n in g ==> 2 <= n < size
    ensures |Vacant(size, map[])| == |Vacant(size, g)| + |g.Keys|
  {
    var all, free := Vacant(size, map[]), Vacant(size, g);
    forall n ensures n in all <==> n in free || n in g.Keys {}
    assert all == free + g.Keys && free !! g.Keys;
  }

  lemma {:induction false} Slots(size: nat)
    requires 2 <= size
    ensures |Vacant(size, map[])| == size - 2
  {
    if size == 2 {
      assert Vacant(2, map[]) == {};
    } else {
      Slots(size - 1);
      assert Vacant(size, map[]) == Vacant(size - 1, map[]) + {size - 1};
    }
  }

  lemma {:induction false} RestRooted(s: State, hash: Hash, ext: map<nat, nat>, lev: Order, mtx: Matrix)
    requires Rest(s, hash, ext, lev, mtx)
    ensures Rooted(s.g, ext.Keys + Full(s))
  {
    hide Sound, Wf, Unique, Covered, Rows, AtRest, IsParent;
    AnchoredAlive(s, ext);
  }

  /** The moment a run of exchanges starts from. */
  datatype Origin = Origin(s: State, lev: Order, level2var: seq<nat>, hash: Hash, ext: map<nat, nat>, mtx: Matrix)

  /** A moment of the run, at the order level2var, before any other counter has saturated. */
  ghost predicate Moment(o: Origin, level2var: seq<nat>, t: State, lev: Order) {
    && Orders(lev, level2var, |t.levels|) && Rest(t, o.hash, o.ext, lev, o.mtx)
    && Later(o.s, o.lev, t, lev, o.ext) && Full(t) == Full(o.s)
  }

  /**
    Whatever exchanges lie between them, two moments of a run with the same
    order count the same number of nodes.
  */
  lemma {:induction false} SizeOfOrder(o: Origin, level2var: seq<nat>, s: State, lev: Order, t: State, lev': Order)
    requires Moment(o, level2var, s, lev) && Moment(o, level2var, t, lev')
    ensures NodeNum(s) == NodeNum(t)
  {
    hide Rest, Later, Full;
    SameOrder(level2var, lev, |s.levels|, lev', |t.levels|);
    MomentRoots(o, level2var, s, t, lev);
    RestRooted(s, o.hash, o.ext, lev, o.mtx);
    RestRooted(t, o.hash, o.ext, lev, o.mtx);
    MomentSize(o, level2var, s, lev);
    MomentSize(o, level2var, t, lev);
    hide Rooted, SameRoots;
    SameSize(s.g, t.g, lev, o.ext.Keys + Full(o.s));
  }

  lemma MomentSize(o: Origin, level2var: seq<nat>, s: State, lev: Order)
    requires Moment(o, level2var, s, lev)
    ensures NodeNum(s) == |s.g.Keys| + 2
  {
    hide Orders, Later, Full, Sound, Rows, Refs, AtRest, Alive, Wf, Unique, Covered;
    NodeNumIsSize(s, o.hash);
  }

  lemma SameOrder(level2var: seq<nat>, lev: Order, n: nat, lev': Order, n': nat)
    requires Orders(lev, level2var, n) && Orders(lev', level2var, n')
    ensures lev == lev' && n == n'
  {
    forall v | 0 <= v < |lev| ensures lev'[v] == lev[v] {
      assert level2var[lev[v]] == v;
      assert lev'[level2var[lev[v]]] == lev[v];
    }
  }

  lemma {:induction false} MomentRoots(o: Origin, level2var: seq<nat>, s: State, t: State, lev: Order)
    requires Moment(o, level2var, s, lev) && Moment(o, level2var, t, lev)
    ensures SameRoots(s.g, t.g, lev, o.ext.Keys + Full(o.s))
  {
    hide Rest, Orders, Wf, Unique;
    var roots := o.ext.Keys + Full(o.s);
    forall r, a: Assign | r in roots ensures r in s.g && r in t.g && Eval(t.g, lev, r, a) == Eval(s.g, lev, r, a) {
      if r in o.ext {
        assert r in s.g && r in t.g && Eval(s.g, lev, r, a) == Eval(o.s.g, o.lev, r, a);
        assert Eval(t.g, lev, r, a) == Eval(o.s.g, o.lev, r, a);
      } else {
        assert r in Full(s) && r in Full(t);
        assert Eval(s.g, lev, r, a) == Eval(o.s.g, o.lev, r, a);
        assert Eval(t.g, lev, r, a) == Eval(o.s.g, o.lev, r, a);
      }
    }
  }

  /** The number of nodes under an order. */
  ghost function SizeAt(o: Origin, level2var: seq<nat>): int {
    if exists t, lev :: Moment(o, level2var, t, lev) then
      var t, lev :| Moment(o, level2var, t, lev);
      NodeNum(t)
    else 0
  }

  /** It is what reorder_nodenum returns at any moment with that order. */
  lemma SizeIs(o: Origin, level2var: seq<nat>, s: State, lev: Order)
    requires Moment(o, level2var, s, lev)
    ensures SizeAt(o, level2var) == NodeNum(s)
  {
    hide Moment;
    var t, lev' :| Moment(o, level2var, t, lev') && SizeAt(o, level2var) == NodeNum(t);
    SizeOfOrder(o, level2var, s, lev, t, lev');
  }

  /* ---- a bound on all sizes ---- */

  /** All trees over the levels from l to below n. */
  ghost function AllTrees(l: nat, n: nat): set<Dd.Dd>
    requires l <= n
    decreases n - l
  {
    if l == n then {Dd.Leaf(false), Dd.Leaf(true)}
    else AllTrees(l + 1, n) + (set a, b | a in AllTrees(l + 1, n) && b in AllTrees(l + 1, n) :: Dd.Node(l, a, b))
  }

  lemma ChildLevels(g: Graph, lev: Order, n: nat)
    requires Wf(g, lev) && n in g
    ensures g[n].v < |lev| && lev[g[n].v] < |lev| - 1
    ensures var l, h := g[n].low, g[n].high;
            && Node(g, l) && (l in g ==> g[l].v < |lev| && lev[g[n].v] < lev[g[l].v])
            && Node(g, h) && (h in g ==> g[h].v < |lev| && lev[g[n].v] < lev[g[h].v])
            && Unfold(g, lev, n) == Dd.Node(lev[g[n].v], Unfold(g, lev, l), Unfold(g, lev, h))
  {
    assert GoodNode(g, lev, n) && lev[|lev| - 1] == |lev| - 1;
  }

  lemma LeafOf(g: Graph, lev: Order, n: nat)
    requires Wf(g, lev) && Node(g, n) && n !in g
    ensures Unfold(g, lev, n) == Dd.Leaf(n == 1)
  {
  }

  lemma {:induction false} UnfoldAmong(g: Graph, lev: Order, n: nat, l: nat)
    requires Wf(g, lev) && Node(g, n) && l < |lev| && (n in g && g[n].v < |lev| ==> l <= lev[g[n].v])
    ensures Unfold(g, lev, n) in AllTrees(l, |lev| - 1)
    decreases |lev| - l
  {
    hide Wf, Unfold;
    if n in g { ChildLevels(g, lev, n); } else { LeafOf(g, lev, n); }
    if l < |lev| - 1 {
      if n in g && lev[g[n].v] == l {
        UnfoldAmong(g, lev, g[n].low, l + 1);
        UnfoldAmong(g, lev, g[n].high, l + 1);
      } else {
        UnfoldAmong(g, lev, n, l + 1);
      }
    }
  }

  /** There are no more nodes than trees, whatever the order. */
  lemma {:induction false} NodesBound(s: State, hash: Hash, ext: map<nat, nat>, lev: Order, mtx: Matrix)
    requires Rest(s, hash, ext, lev, mtx)
    ensures |s.g.Keys| <= |AllTrees(0, |s.levels|)|
  {
    RestGraph(s, hash, ext, lev, mtx);
    hide Rest, Wf, Unique, AllTrees;
    var all := AllTrees(0, |s.levels|);
    forall d | d in Trees(s.g, lev, s.g.Keys) ensures d in all {
      var n :| n in s.g && d == Tree(s.g, lev, n);
      UnfoldAmong(s.g, lev, n, 0);
    }
    hide Trees;
    TreesCount(s.g, lev, s.g.Keys);
    SubsetSize(Trees(s.g, lev, s.g.Keys), all);
  }

  /** However many nodes saturate, there are no more than trees. */
  lemma {:induction false} FullBound(s: State, hash: Hash, ext: map<nat, nat>, lev: Order, mtx: Matrix)
    requires Rest(s, hash, ext, lev, mtx)
    ensures |Full(s)| <= |AllTrees(0, |s.levels|)|
  {
    NodesBound(s, hash, ext, lev, mtx);
    hide Rest, AllTrees;
    SubsetSize(Full(s), s.g.Keys);
  }

  /** The inner nodes that n needs, itself among them. */
  ghost function Under(g: Graph, lev: Order, n: nat): set<nat>
    requires Wf(g, lev) && Node(g, n)
    decreases Rank(g, lev, n)
  {
    if n !in g then {} else (assert GoodNode(g, lev, n); {n} + Under(g, lev, g[n].low) + Under(g, lev, g[n].high))
  }

  lemma {:induction false} UnderSize(g: Graph, lev: Order, n: nat, depth: nat)
    requires Wf(g, lev) && Node(g, n) && (n in g ==> |lev| - 1 - lev[g[n].v] <= depth)
    ensures |Under(g, lev, n)| < Two(depth)
    decreases depth
  {
    hide Wf, Under, Unfold;
    if n in g {
      ChildLevels(g, lev, n);
      UnderParts(g, lev, n);
      UnderSize(g, lev, g[n].low, depth - 1);
      UnderSize(g, lev, g[n].high, depth - 1);
      ThreeParts(n, Under(g, lev, g[n].low), Under(g, lev, g[n].high));
    } else {
      NothingUnder(g, lev, n);
    }
  }

  lemma NothingUnder(g: Graph, lev: Order, n: nat)
    requires Wf(g, lev) && Node(g, n) && n !in g
    ensures Under(g, lev, n) == {}
  {
  }

  lemma UnderParts(g: Graph, lev: Order, n: nat)
    requires Wf(g, lev) && n in g
    ensures Node(g, g[n].low) && Node(g, g[n].high)
    ensures Under(g, lev, n) == {n} + Under(g, lev, g[n].low) + Under(g, lev, g[n].high)
  {
    assert GoodNode(g, lev, n);
  }

  lemma ThreeParts(n: nat, a: set<nat>, b: set<nat>)
    ensures |{n} + a + b| <= 1 + |a| + |b|
  {
    assert |{n} + a| <= 1 + |a|;
  }

  ghost function UnderAll(g: Graph, lev: Order, roots: set<nat>): set<nat>
    requires Wf(g, lev)
  {
    set r, n | r in roots && r in g && n in Under(g, lev, r) :: n
  }

  lemma {:induction false} UnderAllSize(g: Graph, lev: Order, roots: set<nat>)
    requires Wf(g, lev)
    ensures |UnderAll(g, lev, roots)| <= ManyUnder(|roots|, |lev| - 1)
  {
    if roots != {} {
      hide ManyUnder, Wf, UnderAll;
      var r :| r in roots;
      UnderAllSize(g, lev, roots - {r});
      RootSize(g, lev, r);
      OneRoot(g, lev, roots, r);
      assert |roots| == |roots - {r}| + 1;
      OneMore(|roots - {r}|, |lev| - 1);
    } else {
      assert UnderAll(g, lev, roots) == {};
    }
  }

  lemma OneRoot(g: Graph, lev: Order, roots: set<nat>, r: nat)
    requires Wf(g, lev) && r in roots
    ensures |UnderAll(g, lev, roots)| <= |UnderAll(g, lev, roots - {r})| + if r in g then |Under(g, lev, r)| else 0
  {
    hide Wf;
    var one, rest := if r in g then Under(g, lev, r) else {}, UnderAll(g, lev, roots - {r});
    SubsetSize(UnderAll(g, lev, roots), one + rest);
    hide UnderAll;
    assert |one + rest| <= |one| + |rest|;
  }

  lemma {:induction false} RootSize(g: Graph, lev: Order, r: nat)
    requires Wf(g, lev)
    ensures r in g ==> |Under(g, lev, r)| <= Two(|lev| - 1)
  {
    if r in g {
      assert GoodNode(g, lev, r);
      UnderSize(g, lev, r, |lev| - 1);
    }
  }

  /** As many nodes as so many roots can need over so many variables. */
  function ManyUnder(roots: nat, nvars: nat): nat { roots * Two(nvars) }

  lemma OneMore(k: nat, nvars: nat)
    ensures ManyUnder(k + 1, nvars) == ManyUnder(k, nvars) + Two(nvars)
  {
  }

  /** Climbing from n ends at a root that needs it. */
  lemma {:induction false} RootAbove(g: Graph, lev: Order, roots: set<nat>, n: nat)
    requires Wf(g, lev) && Rooted(g, roots) && n in g
    ensures n in UnderAll(g, lev, roots)
    decreases assert GoodNode(g, lev, n); lev[g[n].v]
  {
    if n in roots {
      assert n in Under(g, lev, n);
    } else {
      var q :| IsParent(g, q, n);
      assert GoodNode(g, lev, q) && GoodNode(g, lev, n);
      RootAbove(g, lev, roots, q);
      var r :| r in roots && r in g && q in Under(g, lev, r);
      UnderChild(g, lev, r, q, n);
    }
  }

  lemma {:induction false} UnderChild(g: Graph, lev: Order, r: nat, q: nat, n: nat)
    requires Wf(g, lev) && Node(g, r) && q in Under(g, lev, r) && IsParent(g, q, n) && n in g
    ensures n in Under(g, lev, r)
    decreases Rank(g, lev, r)
  {
    if r in g {
      assert GoodNode(g, lev, r);
      if q == r {
        assert n in Under(g, lev, n);
      } else if q in Under(g, lev, g[r].low) {
        UnderChild(g, lev, g[r].low, q, n);
      } else {
        UnderChild(g, lev, g[r].high, q, n);
      }
    }
  }

  /** Each root needs less than 2 to the number of variables, whatever the order. */
  lemma {:induction false} NodesByRoots(s: State, hash: Hash, ext: map<nat, nat>, lev: Order, mtx: Matrix)
    requires Rest(s, hash, ext, lev, mtx)
    ensures |s.g.Keys| <= ManyUnder(|ext.Keys + Full(s)|, |s.levels|)
  {
    hide ManyUnder, Rest, Wf, Unique, Rooted, Full, Under;
    RestGraph(s, hash, ext, lev, mtx);
    RestRooted(s, hash, ext, lev, mtx);
    forall n | n in s.g ensures n in UnderAll(s.g, lev, ext.Keys + Full(s)) {
      RootAbove(s.g, lev, ext.Keys + Full(s), n);
    }
    hide UnderAll;
    UnderAllSize(s.g, lev, ext.Keys + Full(s));
    SubsetSize(s.g.Keys, UnderAll(s.g, lev, ext.Keys + Full(s)));
  }

  lemma RestGraph(s: State, hash: Hash, ext: map<nat, nat>, lev: Order, mtx: Matrix)
    requires Rest(s, hash, ext, lev, mtx)
    ensures Wf(s.g, lev) && Unique(s.g) && |lev| == |s.levels| + 1
  {
    hide Wf, Unique, Steady, AtRest;
  }
}
