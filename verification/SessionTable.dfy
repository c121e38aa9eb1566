/**
  A table of the kernel as the start of a session: its graph by variable, and
  that this graph has the trees of the table.
*/
module SessionTable {
  import Dd
  import opened TableState
  import opened Threads
  import SwapTheory
  import SessionState
  import ReorderSteps
  import SessionStart
  import RefCounts
  import LocalGbc
  import Rehash
  import Reorder
  import Interaction
  import Counting
  import PairTable

  /** What the kernel knows of its table and the order, beside Sound. */
  ghost predicate Ready(t: Table, hash: Hash, var2level: SwapTheory.Order, level2var: seq<nat>, nvars: nat) {
    && Sound(t, hash) && ReorderSteps.Orders(var2level, level2var, nvars) && BelowConstants(t.dd, nvars)
  }

  /** All tests are above the level of the constants. */
  ghost predicate BelowConstants(dd: Trees, nvars: nat) {
    forall m {:trigger dd[m]} :: m in dd ==> (dd[m].Node? ==> dd[m].level < nvars)
  }

  /** The graph by variable of a table whose records carry levels. */
  ghost function ByVariable(t: Table, level2var: seq<nat>): SwapTheory.Graph {
    map n | n in t.dd && 2 <= n < |t.nodes| && t.nodes[n].level < |level2var| && 0 <= t.nodes[n].low && 0 <= t.nodes[n].high
      :: SwapTheory.Inner(level2var[t.nodes[n].level], t.nodes[n].low, t.nodes[n].high)
  }

  /** The external references with their counts. */
  ghost function RefsOf(t: Table): map<nat, nat> {
    map n | n in t.ext && n < |t.nodes| :: t.nodes[n].refcou
  }

  lemma {:induction false} TableFits(t: Table, hash: Hash, n: nat)
    requires Sound(t, hash) && n in t.dd && 2 <= n
    ensures n < |t.nodes| && Fits(t.nodes, t.dd, n) && Dd.Robdd(t.dd[n])
  {
    hide Fits, Threaded, Heads, Keyed, Referenced;
  }

  lemma {:induction false} SameTree(t: Table, hash: Hash, m: nat, n: nat)
    requires Sound(t, hash) && m in t.dd && n in t.dd && t.dd[m] == t.dd[n]
    ensures m == n
  {
    hide Fits, Threaded, Heads, Keyed, Referenced, Recorded;
  }

  lemma LevelVar(var2level: SwapTheory.Order, level2var: seq<nat>, nvars: nat, l: nat)
    requires ReorderSteps.Orders(var2level, level2var, nvars) && l < nvars
    ensures l < |level2var| && level2var[l] < nvars == |var2level| - 1 && var2level[level2var[l]] == l
  {
    assert var2level[level2var[l]] == l && var2level[nvars] == nvars;
  }

  /** The record of one node. */
  lemma {:induction false} TableNode(t: Table, hash: Hash, var2level: SwapTheory.Order, level2var: seq<nat>, nvars: nat, n: nat)
    requires Ready(t, hash, var2level, level2var, nvars) && n in t.dd && 2 <= n
    ensures n < |t.nodes| && Fits(t.nodes, t.dd, n) && n in ByVariable(t, level2var)
    ensures var i := ByVariable(t, level2var)[n];
            && i.v < nvars < |var2level| && var2level[i.v] == t.nodes[n].level == t.dd[n].level
            && i.low == t.nodes[n].low && i.high == t.nodes[n].high
  {
    hide Sound, ReorderSteps.Orders;
    TableFits(t, hash, n);
    assert t.dd[n].level < nvars;
    LevelVar(var2level, level2var, nvars, t.nodes[n].level);
  }

  lemma {:induction false} Apart(t: Table, hash: Hash, var2level: SwapTheory.Order, level2var: seq<nat>, nvars: nat, m: nat, n: nat)
    requires Ready(t, hash, var2level, level2var, nvars)
    requires var g0 := ByVariable(t, level2var); m in g0 && n in g0 && g0[m] == g0[n]
    ensures m == n
  {
    hide Ready;
    TableNode(t, hash, var2level, level2var, nvars, m);
    TableNode(t, hash, var2level, level2var, nvars, n);
    ReadySound(t, hash, var2level, level2var, nvars);
    SameTree(t, hash, m, n);
  }

  lemma ReadySound(t: Table, hash: Hash, var2level: SwapTheory.Order, level2var: seq<nat>, nvars: nat)
    requires Ready(t, hash, var2level, level2var, nvars)
    ensures Sound(t, hash) && ReorderSteps.Orders(var2level, level2var, nvars) && SwapTheory.IsOrder(var2level) && |var2level| == nvars + 1
  {
    hide Sound, SwapTheory.IsOrder;
  }

  /** A child is a constant, or a node of the graph that is tested later. */
  lemma {:induction false} ChildAfter(t: Table, hash: Hash, var2level: SwapTheory.Order, level2var: seq<nat>, nvars: nat, n: nat, k: nat)
    requires Ready(t, hash, var2level, level2var, nvars) && n in ByVariable(t, level2var)
    requires k == ByVariable(t, level2var)[n].low || k == ByVariable(t, level2var)[n].high
    ensures ByVariable(t, level2var)[n].v < nvars < |var2level|
    ensures var g0 := ByVariable(t, level2var);
            k < 2 || (k in g0 && g0[k].v < nvars && var2level[g0[n].v] < var2level[g0[k].v])
  {
    hide Ready;
    ReadySound(t, hash, var2level, level2var, nvars);
    hide Sound, ReorderSteps.Orders, SwapTheory.IsOrder;
    TableNode(t, hash, var2level, level2var, nvars, n);
    TableFits(t, hash, n);
    if 2 <= k {
      TableNode(t, hash, var2level, level2var, nvars, k);
      assert Dd.Under(t.dd[n].level, t.dd[k]);
    }
  }

  lemma {:induction false} GoodTableNode(t: Table, hash: Hash, var2level: SwapTheory.Order, level2var: seq<nat>, nvars: nat, n: nat)
    requires Ready(t, hash, var2level, level2var, nvars) && n in ByVariable(t, level2var)
    ensures |var2level| == nvars + 1 && SwapTheory.GoodNode(ByVariable(t, level2var), var2level, n)
  {
    var g0 := ByVariable(t, level2var);
    hide Ready;
    ReadySound(t, hash, var2level, level2var, nvars);
    hide Sound, ReorderSteps.Orders, SwapTheory.IsOrder;
    TableNode(t, hash, var2level, level2var, nvars, n);
    TableFits(t, hash, n);
    ChildAfter(t, hash, var2level, level2var, nvars, n, g0[n].low);
    ChildAfter(t, hash, var2level, level2var, nvars, n, g0[n].high);
    hide ByVariable;
  }

  lemma {:induction false} TableGood(t: Table, hash: Hash, var2level: SwapTheory.Order, level2var: seq<nat>, nvars: nat)
    requires Ready(t, hash, var2level, level2var, nvars)
    ensures SwapTheory.Wf(ByVariable(t, level2var), var2level) && SwapTheory.Unique(ByVariable(t, level2var))
  {
    var g0 := ByVariable(t, level2var);
    hide Ready;
    ReadySound(t, hash, var2level, level2var, nvars);
    hide Sound, ReorderSteps.Orders, SwapTheory.IsOrder, SwapTheory.GoodNode;
    forall n | n in g0 ensures SwapTheory.GoodNode(g0, var2level, n) {
      GoodTableNode(t, hash, var2level, level2var, nvars, n);
    }
    forall m, n | m in g0 && n in g0 && g0[m] == g0[n] ensures m == n {
      Apart(t, hash, var2level, level2var, nvars, m, n);
    }
  }

  lemma {:induction false} TableRefs(t: Table, hash: Hash, level2var: seq<nat>, n: nat)
    requires Sound(t, hash) && 2 <= n < |t.nodes|
    ensures !t.nodes[n].mark && (n in t.ext <==> 0 < t.nodes[n].refcou) && (n in t.ext ==> n in t.dd)
  {
    hide Fits, Threaded, Heads, Keyed, Recorded, Canon;
  }

  /**
    Every table of the kernel can start a session. The last two hypotheses are
    the widths of the record's fields: the level of a slot, free or not, is a
    level, and the counter stops at MAXREF.
  */
  lemma {:induction false} TableBefore(t: Table, hash: Hash, var2level: SwapTheory.Order, level2var: seq<nat>, nvars: nat)
    requires Ready(t, hash, var2level, level2var, nvars) && 0 < nvars <= |t.nodes| && SessionState.Constants(t.nodes, nvars)
    requires !t.nodes[0].mark && !t.nodes[1].mark
    requires forall n {:trigger t.nodes[n]} :: 0 <= n < |t.nodes| ==> t.nodes[n].level <= nvars && t.nodes[n].refcou <= MAXREF
    ensures SessionStart.Before(t.nodes, ByVariable(t, level2var), RefsOf(t), var2level, level2var, nvars)
  {
    var g0, ext := ByVariable(t, level2var), RefsOf(t);
    hide Ready;
    TableGood(t, hash, var2level, level2var, nvars);
    ReadySound(t, hash, var2level, level2var, nvars);
    hide Sound, SwapTheory.IsOrder, SwapTheory.Wf, SwapTheory.Unique, Fits;
    forall n | n in g0
      ensures 2 <= n < |t.nodes| && g0[n].v < nvars && t.nodes[n].level == var2level[g0[n].v]
      ensures t.nodes[n].low == g0[n].low && t.nodes[n].high == g0[n].high
    {
      TableNode(t, hash, var2level, level2var, nvars, n);
    }
    forall n | n in ext ensures n in g0 && 0 < ext[n] <= MAXREF {
      ExtNode(t, hash, var2level, level2var, nvars, n);
    }
    forall n | 2 <= n < |t.nodes| ensures !t.nodes[n].mark && t.nodes[n].refcou == RefCounts.Ext(ext, n) {
      TableRefs(t, hash, level2var, n);
    }
    hide ByVariable, RefsOf;
  }

  lemma {:induction false} ExtNode(t: Table, hash: Hash, var2level: SwapTheory.Order, level2var: seq<nat>, nvars: nat, n: nat)
    requires Ready(t, hash, var2level, level2var, nvars) && n in RefsOf(t)
    ensures n in ByVariable(t, level2var) && n < |t.nodes| && 0 < t.nodes[n].refcou
  {
    hide Ready, Fits;
    ReadySound(t, hash, var2level, level2var, nvars);
    ExtRange(t, hash, n);
    hide Sound;
    TableRefs(t, hash, level2var, n);
    TableNode(t, hash, var2level, level2var, nvars, n);
  }

  lemma {:induction false} ExtRange(t: Table, hash: Hash, n: nat)
    requires Sound(t, hash) && n in t.ext
    ensures 2 <= n < |t.nodes|
  {
    hide Fits, Threaded, Heads, Keyed, Recorded, Canon;
  }

  /** ... and the graph the session works on has the trees of the table. */
  lemma {:induction false} TableTrees(t: Table, hash: Hash, var2level: SwapTheory.Order, level2var: seq<nat>, nvars: nat, n: nat)
    requires Ready(t, hash, var2level, level2var, nvars) && n in t.dd
    requires SwapTheory.Wf(ByVariable(t, level2var), var2level)
    ensures SwapTheory.Node(ByVariable(t, level2var), n) && SwapTheory.Unfold(ByVariable(t, level2var), var2level, n) == t.dd[n]
    decreases t.dd[n]
  {
    hide Ready, SwapTheory.Wf;
    if 2 <= n {
      TableNode(t, hash, var2level, level2var, nvars, n);
      TableTrees(t, hash, var2level, level2var, nvars, t.nodes[n].low);
      TableTrees(t, hash, var2level, level2var, nvars, t.nodes[n].high);
    } else {
      ReadySound(t, hash, var2level, level2var, nvars);
      ConstantTree(t, hash, n);
    }
  }

  lemma {:induction false} ConstantTree(t: Table, hash: Hash, n: nat)
    requires Sound(t, hash) && n < 2
    ensures n in t.dd && t.dd[n] == Dd.Leaf(n == 1)
  {
    hide Fits, Threaded, Heads, Keyed, Recorded, Referenced;
  }

  /* ---- the interaction matrix ---- */

  /** No root is part of one with a smaller number. */
  ghost predicate RootsAscend(dd: Trees, ext: set<nat>) {
    forall q, r {:trigger Dd.Subtree(dd[q], dd[r])} :: q in ext && r in ext && q in dd && r in dd && Dd.Subtree(dd[q], dd[r]) ==> q <= r
  }

  lemma {:induction false} ReachesSubtree(t: Table, hash: Hash, var2level: SwapTheory.Order, level2var: seq<nat>, nvars: nat, r: nat, q: nat)
    requires Ready(t, hash, var2level, level2var, nvars) && r in t.dd && SwapTheory.Wf(ByVariable(t, level2var), var2level)
    requires SwapTheory.Node(ByVariable(t, level2var), r) && Interaction.Reaches(ByVariable(t, level2var), var2level, r, q)
    ensures q in t.dd && Dd.Subtree(t.dd[q], t.dd[r])
    decreases t.dd[r]
  {
    var g0 := ByVariable(t, level2var);
    hide Ready, SwapTheory.Wf;
    if q != r {
      TableNode(t, hash, var2level, level2var, nvars, r);
      TableTrees(t, hash, var2level, level2var, nvars, g0[r].low);
      TableTrees(t, hash, var2level, level2var, nvars, g0[r].high);
      if Interaction.Reaches(g0, var2level, g0[r].low, q) {
        ReachesSubtree(t, hash, var2level, level2var, nvars, g0[r].low, q);
      } else {
        ReachesSubtree(t, hash, var2level, level2var, nvars, g0[r].high, q);
      }
    }
  }

  /** When no root is part of an earlier one, the matrix of the session marks any two variables of one root. */
  lemma {:induction false} AscendingMarks(t: Table, hash: Hash, var2level: SwapTheory.Order, level2var: seq<nat>, nvars: nat)
    requires Ready(t, hash, var2level, level2var, nvars) && RootsAscend(t.dd, t.ext)
    ensures SessionStart.Marks(ByVariable(t, level2var), var2level, RefsOf(t), |t.nodes|)
  {
    var g0, ext := ByVariable(t, level2var), RefsOf(t);
    hide Ready, SwapTheory.Unique, SwapTheory.Wf, Interaction.Interactions, SwapTheory.CoveredNode;
    TableGood(t, hash, var2level, level2var, nvars);
    forall q, r | q in ext.Keys && r in ext.Keys && r in g0 && Interaction.Reaches(g0, var2level, r, q) ensures q <= r {
      ExtNode(t, hash, var2level, level2var, nvars, r);
      TableTrees(t, hash, var2level, level2var, nvars, r);
      ReachesSubtree(t, hash, var2level, level2var, nvars, r, q);
    }
    assert Interaction.RootsInOrder(g0, var2level, ext.Keys);
    hide ByVariable, RefsOf;
    forall r | r in ext
      ensures r in g0 && SwapTheory.CoveredNode(g0, var2level, Interaction.Interactions(g0, var2level, ext.Keys, |t.nodes|), r)
    {
      ExtNode(t, hash, var2level, level2var, nvars, r);
      Interaction.InOrderCovers(g0, var2level, ext.Keys, |t.nodes|, r);
    }
  }

  /** A node of a part of the graph has the values of its tree. */
  lemma {:induction false} PartTree(t: Table, hash: Hash, var2level: SwapTheory.Order, level2var: seq<nat>, nvars: nat, g: SwapTheory.Graph, n: nat, b: Dd.Assign)
    requires Ready(t, hash, var2level, level2var, nvars) && SwapTheory.Wf(g, var2level) && n in g
    requires SwapTheory.Wf(ByVariable(t, level2var), var2level)
    requires forall m {:trigger m in g} :: m in g ==> m in ByVariable(t, level2var) && g[m] == ByVariable(t, level2var)[m]
    ensures n in t.dd && SwapTheory.Eval(g, var2level, n, SwapTheory.ByVar(var2level, b)) == Dd.Eval(t.dd[n], b)
  {
    var g0 := ByVariable(t, level2var);
    assert n in g0 && n in t.dd;
    hide Ready, SwapTheory.Wf;
    TableTrees(t, hash, var2level, level2var, nvars, n);
    SessionStart.PartSame(g0, g, var2level, n);
    SwapTheory.UnfoldEval(g0, var2level, n, b);
  }

  /**
    reorder_init on a table of the kernel: a session that holds the same
    external references, on nodes that stand for the functions they stood for.
  */
  method Start(table: seq<BddNode>, var2level: SwapTheory.Order, level2var: seq<nat>, pairs: seq<PairTable.Pair>,
               pair: SessionState.Hash, largerSize: nat -> nat, ghost t: Table, ghost hash: Hash, ghost literal: nat -> nat)
    returns (s: Reorder.Session)
    requires 0 < |level2var| && table == t.nodes && Ready(t, hash, var2level, level2var, |level2var| - 1)
    requires 0 < |level2var| - 1 <= |table| && SessionState.Constants(table, |level2var| - 1)
    requires forall n {:trigger table[n]} :: 0 <= n < |table| ==> table[n].level < |level2var| && table[n].refcou <= MAXREF
    requires SessionStart.Marks(ByVariable(t, level2var), var2level, RefsOf(t), |table|)
    requires PairTable.Fit(pairs, |level2var| - 1) && PairTable.PlainPairs(pairs, level2var, literal)
    requires SessionState.Spreads(pair) && Grows(largerSize)
    ensures fresh(s) && s.Valid() && s.ext == RefsOf(t) && s.ext.Keys == t.ext && s.pairs == pairs && s.literal == literal
    ensures s.var2level == var2level && s.level2var == level2var && |s.levels| == |level2var| - 1
    ensures Rehash.Preserved(ByVariable(t, level2var), var2level, s.g, var2level, RefsOf(t))
    ensures forall n, b: Dd.Assign {:trigger SwapTheory.Eval(s.g, var2level, n, SwapTheory.ByVar(var2level, b))} ::
              n in s.g ==> n in t.dd && SwapTheory.Eval(s.g, var2level, n, SwapTheory.ByVar(var2level, b)) == Dd.Eval(t.dd[n], b)
    ensures forall n {:trigger n in s.extroots} :: n in s.extroots <==> n in s.ext
  {
    ghost var nvars := |level2var| - 1;
    ghost var g0, ext := ByVariable(t, level2var), RefsOf(t);
    hide Ready, SwapTheory.Wf, SwapTheory.Unique, SessionStart.Before, SessionStart.Marks, Rehash.Preserved, LocalGbc.Rest,
      PairTable.Fit, PairTable.PlainPairs, SessionState.Spreads, Grows;
    TableGood(t, hash, var2level, level2var, nvars);
    ConstantMarks(t, hash, var2level, level2var, nvars);
    TableBefore(t, hash, var2level, level2var, nvars);
    s := new Reorder.Session(table, var2level, level2var, pairs, pair, largerSize, g0, ext, literal);
    RefKeys(t, hash, var2level, level2var, nvars);
    ValidGraph(s);
    forall n, b: Dd.Assign | n in s.g
      ensures n in t.dd && SwapTheory.Eval(s.g, var2level, n, SwapTheory.ByVar(var2level, b)) == Dd.Eval(t.dd[n], b)
    {
      PartTree(t, hash, var2level, level2var, nvars, s.g, n, b);
    }
  }

  lemma ValidGraph(s: Reorder.Session)
    requires s.Valid()
    ensures SwapTheory.Wf(s.g, s.var2level)
  {
    hide SwapTheory.Wf, SwapTheory.Unique, ReorderSteps.Steady, ReorderSteps.AtRest;
  }

  lemma {:induction false} ConstantMarks(t: Table, hash: Hash, var2level: SwapTheory.Order, level2var: seq<nat>, nvars: nat)
    requires Ready(t, hash, var2level, level2var, nvars)
    ensures 2 <= |t.nodes| && !t.nodes[0].mark && !t.nodes[1].mark
  {
    hide Fits, Threaded, Heads, Keyed, Canon, ReorderSteps.Orders, Referenced;
  }

  lemma {:induction false} RefKeys(t: Table, hash: Hash, var2level: SwapTheory.Order, level2var: seq<nat>, nvars: nat)
    requires Ready(t, hash, var2level, level2var, nvars)
    ensures RefsOf(t).Keys == t.ext
  {
    hide Ready;
    ReadySound(t, hash, var2level, level2var, nvars);
    hide Sound;
    forall n | n in t.ext ensures n < |t.nodes| {
      ExtRange(t, hash, n);
    }
  }

  /* ---- back in the kernel ---- */

  /** The trees of a session's graph over the levels of its order. */
  ghost function TreesOf(g: SwapTheory.Graph, lev: SwapTheory.Order): Trees
    requires SwapTheory.Wf(g, lev)
  {
    map n | n in g.Keys + {0, 1} :: if n in g then SwapTheory.Unfold(g, lev, n) else Dd.Leaf(n == 1)
  }

  lemma {:induction false} TreesCanon(g: SwapTheory.Graph, lev: SwapTheory.Order)
    requires SwapTheory.Wf(g, lev) && SwapTheory.Unique(g)
    ensures Canon(TreesOf(g, lev))
  {
    var dd := TreesOf(g, lev);
    forall n | n in dd ensures SwapTheory.Node(g, n) && dd[n] == SwapTheory.Unfold(g, lev, n) && Dd.Robdd(dd[n]) && (2 <= n ==> dd[n].Node?) {
      hide SwapTheory.Wf, SwapTheory.Unique;
      SwapTheory.UnfoldRobdd(g, lev, n);
    }
    hide SwapTheory.Wf, SwapTheory.Unique, TreesOf, SwapTheory.Unfold;
    forall m, n | m in dd && n in dd && dd[m] == dd[n] ensures m == n {
      SwapTheory.UnfoldInjective(g, lev, m, n);
    }
  }

  /**
    What a session leaves to the kernel: records that fit canonical trees, and
    references to exactly the nodes that had one. The chains are still those of
    the sub-tables; the collection reorder_done ends with builds them anew.
  */
  lemma {:induction false} SessionBack(s: SessionState.State, hash: SessionState.Hash, ext: map<nat, nat>, lev: SwapTheory.Order, mtx: SwapTheory.Matrix,
                                       nodes: seq<BddNode>)
    requires LocalGbc.Rest(s, hash, ext, lev, mtx) && SessionStart.Returned(s.nodes, lev, ext, nodes, |s.nodes|)
    ensures SwapTheory.Wf(s.g, lev)
    ensures var dd := TreesOf(s.g, lev);
            Canon(dd) && Recorded(nodes, dd) && Referenced(nodes, dd, ext.Keys) && forall n {:trigger nodes[n]} :: 2 <= n < |nodes| ==> !nodes[n].mark
  {
    hide LocalGbc.Rest, SessionStart.Returned, TreesOf, Canon, Fits;
    RestGraph(s, hash, ext, lev, mtx);
    hide SwapTheory.Wf, SwapTheory.Unique;
    TreesCanon(s.g, lev);
    BackKeys(s.g, lev);
    BackSize(s, hash, ext, lev, mtx, nodes);
    forall n | n in s.g ensures 2 <= n < |nodes| && Fits(nodes, TreesOf(s.g, lev), n) && (n in ext <==> 0 < nodes[n].refcou) && !nodes[n].mark {
      BackNode(s, hash, ext, lev, mtx, nodes, n);
    }
    forall n | 2 <= n < |nodes| && n !in s.g ensures nodes[n].low == -1 && nodes[n].refcou == 0 && n !in ext && !nodes[n].mark {
      BackFree(s, hash, ext, lev, mtx, nodes, n);
    }
  }

  lemma RestGraph(s: SessionState.State, hash: SessionState.Hash, ext: map<nat, nat>, lev: SwapTheory.Order, mtx: SwapTheory.Matrix)
    requires LocalGbc.Rest(s, hash, ext, lev, mtx)
    ensures SwapTheory.Wf(s.g, lev) && SwapTheory.Unique(s.g)
  {
    hide SwapTheory.Wf, SwapTheory.Unique, ReorderSteps.Steady, ReorderSteps.AtRest;
  }

  lemma TreeAt(g: SwapTheory.Graph, lev: SwapTheory.Order, n: nat)
    requires SwapTheory.Wf(g, lev) && SwapTheory.Node(g, n)
    ensures n in TreesOf(g, lev) && TreesOf(g, lev)[n] == SwapTheory.Unfold(g, lev, n)
  {
  }

  lemma BackKeys(g: SwapTheory.Graph, lev: SwapTheory.Order)
    requires SwapTheory.Wf(g, lev)
    ensures TreesOf(g, lev).Keys == g.Keys + {0, 1} && 0 !in g && 1 !in g
  {
  }

  lemma {:induction false} BackSize(s: SessionState.State, hash: SessionState.Hash, ext: map<nat, nat>, lev: SwapTheory.Order, mtx: SwapTheory.Matrix,
                                    nodes: seq<BddNode>)
    requires LocalGbc.Rest(s, hash, ext, lev, mtx) && SessionStart.Returned(s.nodes, lev, ext, nodes, |s.nodes|)
    ensures 2 <= |nodes| == |s.nodes| && forall n {:trigger n in ext} :: n in ext ==> n in s.g
  {
    hide SessionState.Sound, ReorderSteps.Rows, ReorderSteps.AtRest, SwapTheory.Wf, SwapTheory.Unique, SwapTheory.Covered, RefCounts.Closed, RefCounts.RefOk;
    SessionStart.RestSlots(s, hash, ext, lev, mtx);
  }

  lemma {:induction false} BackNode(s: SessionState.State, hash: SessionState.Hash, ext: map<nat, nat>, lev: SwapTheory.Order, mtx: SwapTheory.Matrix,
                                    nodes: seq<BddNode>, n: nat)
    requires LocalGbc.Rest(s, hash, ext, lev, mtx) && SessionStart.Returned(s.nodes, lev, ext, nodes, |s.nodes|) && n in s.g
    ensures 2 <= n < |nodes| && Fits(nodes, TreesOf(s.g, lev), n) && (n in ext <==> 0 < nodes[n].refcou) && !nodes[n].mark
  {
    hide SessionState.Sound, ReorderSteps.Rows, ReorderSteps.AtRest, SwapTheory.Unique, SwapTheory.Covered, RefCounts.Refs;
    SessionState.NodeFacts(s, hash, n);
    SessionStart.RestSlots(s, hash, ext, lev, mtx);
    assert 0 < s.nodes[n].refcou;
    hide LocalGbc.Rest, RefCounts.Alive;
    assert SwapTheory.GoodNode(s.g, lev, n);
    assert nodes[n] == s.nodes[n].(level := lev[s.nodes[n].level], refcou := if n in ext then s.nodes[n].refcou else 0);
    hide SessionStart.Returned, TreesOf;
    TreeAt(s.g, lev, n);
    TreeAt(s.g, lev, s.g[n].low);
    TreeAt(s.g, lev, s.g[n].high);
  }

  lemma {:induction false} BackFree(s: SessionState.State, hash: SessionState.Hash, ext: map<nat, nat>, lev: SwapTheory.Order, mtx: SwapTheory.Matrix,
                                    nodes: seq<BddNode>, n: nat)
    requires LocalGbc.Rest(s, hash, ext, lev, mtx) && SessionStart.Returned(s.nodes, lev, ext, nodes, |s.nodes|) && 2 <= n < |nodes| && n !in s.g
    ensures nodes[n].low == -1 && nodes[n].refcou == 0 && n !in ext && !nodes[n].mark
  {
    BackSize(s, hash, ext, lev, mtx, nodes);
    SessionState.FreeFacts(s, hash, n);
    hide LocalGbc.Rest;
  }

  /** b' gives every variable at its level in lev the value that b gives it at its level in var2level. */
  ghost predicate SameByVariable(var2level: SwapTheory.Order, b: Dd.Assign, lev: SwapTheory.Order, b': Dd.Assign) {
    |lev| == |var2level| && forall v {:trigger lev[v]} {:trigger var2level[v]} :: 0 <= v < |lev| - 1 ==> b'(lev[v]) == b(var2level[v])
  }

  /**
    Nothing is lost on the way: whatever exchanges a session makes of the table
    t, a node with an external reference has, over the new order, a tree with
    the values of its old one.
  */
  lemma {:induction false} FunctionsKept(t: Table, hash: Hash, var2level: SwapTheory.Order, level2var: seq<nat>, nvars: nat,
                                         g: SwapTheory.Graph, lev: SwapTheory.Order, n: nat, b: Dd.Assign, b': Dd.Assign)
    requires Ready(t, hash, var2level, level2var, nvars) && n in t.ext
    requires Rehash.Preserved(ByVariable(t, level2var), var2level, g, lev, RefsOf(t))
    requires SameByVariable(var2level, b, lev, b')
    ensures n in t.dd && SwapTheory.Wf(g, lev) && n in TreesOf(g, lev)
    ensures Dd.Eval(TreesOf(g, lev)[n], b') == Dd.Eval(t.dd[n], b)
  {
    var g0 := ByVariable(t, level2var);
    ReadySound(t, hash, var2level, level2var, nvars);
    hide Ready, Sound, ReorderSteps.Orders, SwapTheory.IsOrder;
    ExtRange(t, hash, n);
    TableRefs(t, hash, level2var, n);
    TableTrees(t, hash, var2level, level2var, nvars, n);
    assert n in RefsOf(t);
    hide SwapTheory.Wf, SwapTheory.Unique;
    SwapTheory.UnfoldEval(g0, var2level, n, b);
    SwapTheory.UnfoldEval(g, lev, n, b');
    SwapTheory.EvalAgree(g, lev, n, SwapTheory.ByVar(lev, b'), SwapTheory.ByVar(var2level, b));
  }

  /**
    What reorder_done leaves of the counters: an external reference is counted
    together with the edges that point to the node. So, unless it is saturated,
    the count is what it was before the session exactly when no node of the
    session points there.
  */
  lemma {:induction false} CountsAfter(s: SessionState.State, hash: SessionState.Hash, ext: map<nat, nat>, lev: SwapTheory.Order, mtx: SwapTheory.Matrix,
                                       nodes: seq<BddNode>, n: nat)
    requires LocalGbc.Rest(s, hash, ext, lev, mtx) && SessionStart.Returned(s.nodes, lev, ext, nodes, |s.nodes|) && n in ext
    ensures n in s.g && 2 <= n < |nodes| && (nodes[n].refcou == MAXREF || nodes[n].refcou == ext[n] + Counting.Parents(s.g, n))
    ensures nodes[n].refcou != MAXREF ==>
              (nodes[n].refcou == ext[n] <==> !exists q {:trigger SwapTheory.IsParent(s.g, q, n)} :: SwapTheory.IsParent(s.g, q, n))
  {
    BackSize(s, hash, ext, lev, mtx, nodes);
    RestRef(s, hash, ext, lev, mtx, n);
    hide LocalGbc.Rest, Counting.Parents;
    Counting.HasParent(s.g, n);
    assert nodes[n] == s.nodes[n].(level := lev[s.nodes[n].level], refcou := s.nodes[n].refcou);
  }

  lemma {:induction false} RestRef(s: SessionState.State, hash: SessionState.Hash, ext: map<nat, nat>, lev: SwapTheory.Order, mtx: SwapTheory.Matrix, n: nat)
    requires LocalGbc.Rest(s, hash, ext, lev, mtx) && n in s.g
    ensures n < |s.nodes| && RefCounts.RefOk(s.nodes[n].refcou, s.g, ext, multiset{}, n)
  {
    hide SessionState.Sound, ReorderSteps.Rows, ReorderSteps.AtRest, SwapTheory.Wf, SwapTheory.Unique, SwapTheory.Covered, RefCounts.Closed, RefCounts.RefOk;
  }
}
