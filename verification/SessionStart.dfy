/**
  The start of a reordering session, argued on values. reorder_init counts, for
  every node that a referenced one needs, the edges that point to it, drops
  all other nodes, and links the rest into the sub-tables of their variables.
*/
module SessionStart {
  import opened Threads
  import opened SwapTheory
  import opened Counting
  import opened SessionState
  import opened RefCounts
  import opened ReorderSteps
  import opened LocalGbc
  import opened Rehash
  import Interaction

  /**
    The table as the kernel leaves it: records carry levels, and reference
    counts are the external ones only. g0 is its graph by variable.
  */
  ghost predicate Before(table: seq<BddNode>, g0: Graph, ext: map<nat, nat>, var2level: Order, level2var: seq<nat>, nvars: nat) {
    && Orders(var2level, level2var, nvars) && 0 < nvars <= |table| && Constants(table, nvars)
    && Wf(g0, var2level) && Unique(g0)
    && (forall n {:trigger table[n]} :: 0 <= n < |table| ==> table[n].level < |level2var| && !table[n].mark)
    && (forall n {:trigger n in g0} :: n in g0 ==>
          && 2 <= n < |table| && g0[n].v < nvars && table[n].level == var2level[g0[n].v]
          && table[n].low == g0[n].low && table[n].high == g0[n].high)
    && (forall n {:trigger n in ext} :: n in ext ==> n in g0 && 0 < ext[n] <= MAXREF)
    && (forall n {:trigger table[n]} :: 2 <= n < |table| ==> table[n].refcou == Ext(ext, n))
  }

  function Sat(x: nat): nat { if x < MAXREF then x else MAXREF }

  /** The nodes of done with their edges. */
  ghost function Part(g0: Graph, done: set<nat>): Graph { map n | n in g0 && n in done :: g0[n] }

  ghost function OfVar(g0: Graph, x: set<nat>, v: nat): set<nat> { set n | n in x && n in g0 && g0[n].v == v }

  ghost predicate Met(ext: map<nat, nat>, done: set<nat>, n: nat) { n < 2 || n in done || n in ext }

  ghost predicate Shape(nodes: seq<BddNode>, g0: Graph, nvars: nat, ext: map<nat, nat>) {
    && SessionState.Recorded(nodes, g0, nvars) && 0 !in g0 && 1 !in g0
    && (forall n {:trigger n in ext} :: n in ext ==> n in g0 && 0 < ext[n])
  }

  /** Every edge out of done, and every one of pend, is counted at the node it points to. */
  ghost predicate Counts(nodes: seq<BddNode>, g0: Graph, ext: map<nat, nat>, done: set<nat>, pend: multiset<nat>) {
    && (forall n {:trigger n in g0} :: n in g0 && n < |nodes| ==> nodes[n].refcou == Sat(Ext(ext, n) + pend[n] + Parents(Part(g0, done), n)))
    && (forall n {:trigger nodes[n]} :: 2 <= n < |nodes| && n !in g0 ==> nodes[n].refcou == 0)
  }

  /** What the recursion has met: the nodes of done with their children, and those of act, whose children it is at. */
  ghost predicate Entered(nodes: seq<BddNode>, g0: Graph, ext: map<nat, nat>, done: set<nat>, act: set<nat>, pend: multiset<nat>) {
    && done <= g0.Keys && act <= g0.Keys && done !! act
    && (forall n {:trigger n in done} :: n in done ==> n in g0 && Met(ext, done, g0[n].low) && Met(ext, done, g0[n].high))
    && (forall n {:trigger n in g0} :: n in g0 && n < |nodes| ==> (nodes[n].refcou > 0 <==> n in done || n in ext))
    && (forall n {:trigger pend[n]} :: n in pend ==> Met(ext, done, n))
  }

  ghost predicate RowCounts(levels: Levels, g0: Graph, x: set<nat>) {
    forall v {:trigger levels[v]} :: 0 <= v < |levels| ==> levels[v].nodenum == |OfVar(g0, x, v)|
  }

  ghost predicate Tally(nodes: seq<BddNode>, levels: Levels, g0: Graph, ext: map<nat, nat>, done: set<nat>, act: set<nat>, pend: multiset<nat>) {
    && Shape(nodes, g0, |levels|, ext)
    && Counts(nodes, g0, ext, done, pend)
    && Entered(nodes, g0, ext, done, act, pend)
    && RowCounts(levels, g0, done + act)
  }

  /** INCREF of one node. */
  function Counted(nodes: seq<BddNode>, r: nat): seq<BddNode>
    requires r < |nodes|
  {
    nodes[r := nodes[r].(refcou := Inc(nodes[r].refcou))]
  }

  ghost predicate OnlyCounts(nodes: seq<BddNode>, nodes': seq<BddNode>) {
    && |nodes'| == |nodes|
    && (forall n {:trigger nodes'[n]} :: 0 <= n < |nodes| ==>
          nodes'[n] == nodes[n].(refcou := nodes'[n].refcou) && (n < 2 ==> nodes'[n] == nodes[n]))
  }

  /** The level of a node; constants come last. */
  ghost function LevelIn(g0: Graph, lev: Order, r: nat): nat {
    if r in g0 && g0[r].v < |lev| then lev[g0[r].v] else |lev|
  }

  /** What the recursion from a node of level l adds: no root, and nothing above l. */
  ghost predicate AddedBelow(g0: Graph, lev: Order, ext: map<nat, nat>, done: set<nat>, done': set<nat>, l: nat) {
    && done <= done'
    && forall n {:trigger n in done'} :: n in done' && n !in done ==> l <= LevelIn(g0, lev, n) && n !in ext
  }

  ghost predicate ActAbove(g0: Graph, lev: Order, act: set<nat>, l: nat) {
    forall n {:trigger n in act} :: n in act ==> LevelIn(g0, lev, n) < l
  }

  lemma ActNone(g0: Graph, lev: Order, l: nat)
    ensures ActAbove(g0, lev, {}, l)
  {
  }

  /** How far the walk of the interaction matrix has come. */
  ghost function Walked(done: set<nat>, dep: seq<bool>): Interaction.Walk { Interaction.Walk(done, Interaction.VarsOf(dep)) }

  lemma WalkedOne(done: set<nat>, dep: seq<bool>, v: nat)
    requires v < |dep|
    ensures var w := Walked(done, dep); Walked(done, dep[v := true]) == w.(dep := w.dep + {v})
  {
    assert Interaction.VarsOf(dep[v := true]) == Interaction.VarsOf(dep) + {v};
  }

  lemma WalkedOver(done: set<nat>, dep: seq<bool>)
    ensures Walked(done, dep).done == done
  {
  }

  lemma WalkedDone(done: set<nat>, dep: seq<bool>, r: nat)
    ensures var w := Walked(done, dep); Walked(done + {r}, dep) == w.(done := w.done + {r})
  {
  }

  lemma WalkedFirst(done: set<nat>, dep: seq<bool>, v: nat)
    requires v < |dep| && forall i {:trigger dep[i]} :: 0 <= i < |dep| ==> dep[i] == (i == v)
    ensures Walked(done, dep) == Interaction.Walk(done, {v})
  {
    assert Interaction.VarsOf(dep) == {v};
  }

  lemma MetSeen(ext: map<nat, nat>, done: set<nat>, r: nat)
    requires Met(ext, done, r) && 2 <= r
    ensures r in done || r in ext.Keys
  {
  }

  lemma ConstantOut(g0: Graph, lev: Order, r: nat)
    requires Wf(g0, lev) && r < 2
    ensures r !in g0
  {
  }

  /** The matrix mark_roots fills in for a table of this size marks any two variables of one root. */
  ghost predicate Marks(g0: Graph, lev: Order, ext: map<nat, nat>, size: nat) {
    Wf(g0, lev) && forall r {:trigger r in ext} :: r in ext ==>
      r in g0 && CoveredNode(g0, lev, Interaction.Interactions(g0, lev, ext.Keys, size), r)
  }

  /** What the recursion knows when it comes to node r. */
  lemma {:induction false} AtNode(nodes: seq<BddNode>, levels: Levels, g0: Graph, lev: Order, ext: map<nat, nat>, done: set<nat>, act: set<nat>, pend: multiset<nat>, r: nat)
    requires Tally(nodes, levels, g0, ext, done, act, pend) && Wf(g0, lev) && |lev| == |levels| + 1 && r in g0
    ensures 2 <= r < |nodes| && nodes[r].level == g0[r].v < |levels| && nodes[r].low == g0[r].low && nodes[r].high == g0[r].high
    ensures nodes[r].refcou == 0 ==> r !in done && r !in ext
    ensures nodes[r].refcou > 0 ==> Met(ext, done, r)
    ensures Node(g0, g0[r].low) && Node(g0, g0[r].high)
    ensures LevelIn(g0, lev, r) < LevelIn(g0, lev, g0[r].low) <= |lev| && LevelIn(g0, lev, r) < LevelIn(g0, lev, g0[r].high) <= |lev|
  {
    assert GoodNode(g0, lev, r);
    hide Wf, Counts, RowCounts;
  }

  lemma {:induction false} ActDeeper(g0: Graph, lev: Order, act: set<nat>, r: nat, l: nat)
    requires ActAbove(g0, lev, act, LevelIn(g0, lev, r)) && LevelIn(g0, lev, r) < l
    ensures r !in act && ActAbove(g0, lev, act + {r}, l)
  {
    hide LevelIn;
  }

  lemma {:induction false} AddedBoth(g0: Graph, lev: Order, ext: map<nat, nat>, done: set<nat>, done1: set<nat>, done2: set<nat>, l: nat, l1: nat, l2: nat)
    requires AddedBelow(g0, lev, ext, done, done1, l1) && AddedBelow(g0, lev, ext, done1, done2, l2) && l <= l1 && l <= l2
    ensures AddedBelow(g0, lev, ext, done, done2, l)
  {
    hide LevelIn;
  }

  lemma {:induction false} AddedOne(g0: Graph, lev: Order, ext: map<nat, nat>, done: set<nat>, done2: set<nat>, r: nat)
    requires AddedBelow(g0, lev, ext, done, done2, LevelIn(g0, lev, r)) && r !in ext
    ensures AddedBelow(g0, lev, ext, done, done2 + {r}, LevelIn(g0, lev, r))
  {
    hide LevelIn;
  }

  lemma AddedNothing(g0: Graph, lev: Order, ext: map<nat, nat>, done: set<nat>, l: nat)
    ensures AddedBelow(g0, lev, ext, done, done, l)
  {
  }

  lemma OnlyCountsSame(nodes: seq<BddNode>)
    ensures OnlyCounts(nodes, nodes)
  {
  }

  lemma OnlyCountsInc(nodes: seq<BddNode>, nodes': seq<BddNode>, r: nat)
    requires OnlyCounts(nodes, nodes') && 2 <= r < |nodes|
    ensures OnlyCounts(nodes, Counted(nodes', r))
  {
  }

  lemma OnlyCountsTrans(nodes: seq<BddNode>, nodes1: seq<BddNode>, nodes2: seq<BddNode>)
    requires OnlyCounts(nodes, nodes1) && OnlyCounts(nodes1, nodes2)
    ensures OnlyCounts(nodes, nodes2)
  {
  }

  lemma CountedShape(nodes: seq<BddNode>, g0: Graph, nvars: nat, ext: map<nat, nat>, r: nat)
    requires Shape(nodes, g0, nvars, ext) && r < |nodes|
    ensures Shape(Counted(nodes, r), g0, nvars, ext)
  {
  }

  /** A node that was met before gets one more reference. */
  lemma {:induction false} CountMet(nodes: seq<BddNode>, levels: Levels, g0: Graph, ext: map<nat, nat>, done: set<nat>, act: set<nat>, pend: multiset<nat>, r: nat)
    requires Tally(nodes, levels, g0, ext, done, act, pend) && r in g0 && Met(ext, done, r)
    ensures r < |nodes| && Tally(Counted(nodes, r), levels, g0, ext, done, act, pend + multiset{r})
  {
    hide Counts, Entered, RowCounts;
    assert r < |nodes|;
    hide Shape;
    CountedShape(nodes, g0, |levels|, ext, r);
    MetCounts(nodes, g0, ext, done, pend, r);
    MetEntered(nodes, g0, ext, done, act, pend, r);
  }

  lemma {:induction false} MetCounts(nodes: seq<BddNode>, g0: Graph, ext: map<nat, nat>, done: set<nat>, pend: multiset<nat>, r: nat)
    requires Counts(nodes, g0, ext, done, pend) && r in g0 && r < |nodes|
    ensures Counts(Counted(nodes, r), g0, ext, done, pend + multiset{r})
  {
    hide Parents, Part, Ext;
  }

  lemma {:induction false} MetEntered(nodes: seq<BddNode>, g0: Graph, ext: map<nat, nat>, done: set<nat>, act: set<nat>, pend: multiset<nat>, r: nat)
    requires Entered(nodes, g0, ext, done, act, pend) && r in g0 && r < |nodes| && Met(ext, done, r) && 2 <= r
    ensures Entered(Counted(nodes, r), g0, ext, done, act, pend + multiset{r})
  {
    assert r in done || r in ext;
    hide Met;
  }

  /** A constant is not counted. */
  lemma CountConstant(nodes: seq<BddNode>, levels: Levels, g0: Graph, ext: map<nat, nat>, done: set<nat>, act: set<nat>, pend: multiset<nat>, r: nat)
    requires Tally(nodes, levels, g0, ext, done, act, pend) && r < 2
    ensures Tally(nodes, levels, g0, ext, done, act, pend + multiset{r})
  {
  }

  /** Entering a node: it is counted in its row. */
  lemma {:induction false} Enter(nodes: seq<BddNode>, levels: Levels, g0: Graph, ext: map<nat, nat>, done: set<nat>, act: set<nat>, pend: multiset<nat>, r: nat)
    requires Tally(nodes, levels, g0, ext, done, act, pend) && r in g0 && r !in done && r !in act
    ensures g0[r].v < |levels|
    ensures Tally(nodes, OneMore(levels, g0[r].v), g0, ext, done, act + {r}, pend)
  {
    assert g0[r].v < |levels|;
    hide Counts, Shape, RowCounts, Met;
    assert done + (act + {r}) == (done + act) + {r};
    EnterRow(levels, g0, done + act, r);
  }

  lemma {:induction false} EnterRow(levels: Levels, g0: Graph, x: set<nat>, r: nat)
    requires RowCounts(levels, g0, x) && r in g0 && r !in x && g0[r].v < |levels|
    ensures RowCounts(OneMore(levels, g0[r].v), g0, x + {r})
  {
    var levels' := OneMore(levels, g0[r].v);
    forall v | 0 <= v < |levels'| ensures levels'[v].nodenum == |OfVar(g0, x + {r}, v)| {
      if v == g0[r].v {
        assert OfVar(g0, x + {r}, v) == OfVar(g0, x, v) + {r};
      } else {
        assert OfVar(g0, x + {r}, v) == OfVar(g0, x, v);
      }
    }
  }

  function OneMore(levels: Levels, v: nat): (r: Levels)
    requires v < |levels|
    ensures |r| == |levels|
  {
    levels[v := levels[v].(nodenum := levels[v].nodenum + 1)]
  }

  /** Leaving a node: both its edges have been followed, and it gets its own reference unless it is a root. */
  lemma {:induction false} Leave(nodes: seq<BddNode>, levels: Levels, g0: Graph, ext: map<nat, nat>, done: set<nat>, act: set<nat>, pend: multiset<nat>, r: nat)
    requires r in g0 && r in act && Tally(nodes, levels, g0, ext, done, act, pend + multiset{g0[r].low} + multiset{g0[r].high})
    ensures r < |nodes|
    ensures r in ext ==> Tally(nodes, levels, g0, ext, done + {r}, act - {r}, pend)
    ensures r !in ext ==> Tally(Counted(nodes, r), levels, g0, ext, done + {r}, act - {r}, pend + multiset{r})
  {
    assert r < |nodes|;
    hide Shape, Counts, Entered, RowCounts;
    assert (done + {r}) + (act - {r}) == done + act;
    var nodes' := if r in ext then nodes else Counted(nodes, r);
    var pend' := if r in ext then pend else pend + multiset{r};
    LeaveCounts(nodes, g0, ext, done, pend, r, nodes', pend');
    LeaveEntered(nodes, g0, ext, done, act, pend, r, nodes', pend');
    CountedShape(nodes, g0, |levels|, ext, r);
  }

  lemma {:induction false} LeaveCounts(nodes: seq<BddNode>, g0: Graph, ext: map<nat, nat>, done: set<nat>, pend: multiset<nat>, r: nat,
                    nodes': seq<BddNode>, pend': multiset<nat>)
    requires r in g0 && r !in done && 2 <= r < |nodes| && Counts(nodes, g0, ext, done, pend + multiset{g0[r].low} + multiset{g0[r].high})
    requires nodes' == (if r in ext then nodes else Counted(nodes, r)) && pend' == (if r in ext then pend else pend + multiset{r})
    ensures Counts(nodes', g0, ext, done + {r}, pend')
  {
    hide Parents, Part, Sat, Ext;
    forall n | n in g0 && n < |nodes'| ensures nodes'[n].refcou == Sat(Ext(ext, n) + pend'[n] + Parents(Part(g0, done + {r}), n)) {
      LeaveParents(g0, done, r, n);
      LeaveCount(nodes, g0, ext, done, pend, r, n, Parents(Part(g0, done), n), Parents(Part(g0, done + {r}), n));
    }
    forall n | 2 <= n < |nodes'| && n !in g0 ensures nodes'[n].refcou == 0 {
      assert nodes'[n] == nodes[n];
    }
  }

  lemma {:induction false} LeaveParents(g0: Graph, done: set<nat>, r: nat, n: nat)
    requires r in g0 && r !in done
    ensures Parents(Part(g0, done + {r}), n) == Parents(Part(g0, done), n) + Edge(g0[r], n)
  {
    hide Parents;
    assert Part(g0, done + {r}) == Part(g0, done)[r := g0[r]];
    AddNode(Part(g0, done), r, g0[r], n);
  }

  /** The count of one node: the two edges of r are no longer pending but edges of the graph. */
  lemma {:induction false} LeaveCount(nodes: seq<BddNode>, g0: Graph, ext: map<nat, nat>, done: set<nat>, pend: multiset<nat>, r: nat, n: nat, before: nat, after: nat)
    requires r in g0 && r < |nodes| && n in g0 && n < |nodes| && Counts(nodes, g0, ext, done, pend + multiset{g0[r].low} + multiset{g0[r].high})
    requires before == Parents(Part(g0, done), n) && after == before + Edge(g0[r], n)
    ensures r in ext ==> nodes[n].refcou == Sat(Ext(ext, n) + pend[n] + after)
    ensures r !in ext ==> Counted(nodes, r)[n].refcou == Sat(Ext(ext, n) + (pend + multiset{r})[n] + after)
  {
    hide Parents, Part;
    var pend0 := pend + multiset{g0[r].low} + multiset{g0[r].high};
    assert nodes[n].refcou == Sat(Ext(ext, n) + pend0[n] + before);
    hide Counts;
    assert pend0[n] == pend[n] + Edge(g0[r], n);
  }

  lemma {:induction false} LeaveEntered(nodes: seq<BddNode>, g0: Graph, ext: map<nat, nat>, done: set<nat>, act: set<nat>, pend: multiset<nat>, r: nat,
                     nodes': seq<BddNode>, pend': multiset<nat>)
    requires r in g0 && r in act && r < |nodes| && Entered(nodes, g0, ext, done, act, pend + multiset{g0[r].low} + multiset{g0[r].high})
    requires nodes' == (if r in ext then nodes else Counted(nodes, r)) && pend' == (if r in ext then pend else pend + multiset{r})
    ensures Entered(nodes', g0, ext, done + {r}, act - {r}, pend')
  {
    var pend0 := pend + multiset{g0[r].low} + multiset{g0[r].high};
    assert g0[r].low in pend0 && g0[r].high in pend0;
    forall n | n in pend' ensures Met(ext, done + {r}, n) {
      assert n == r || (n in pend0 && Met(ext, done, n));
    }
  }

  /* ---- mark_roots ---- */

  /** The first loop of mark_roots: records carry variables, roots are marked. */
  ghost predicate Relevelled(table: seq<BddNode>, level2var: seq<nat>, nodes: seq<BddNode>, n: nat) {
    && |nodes| == |table| && 2 <= n <= |table|
    && (forall m {:trigger nodes[m]} :: 2 <= m < n ==>
          && table[m].level < |level2var|
          && nodes[m] == table[m].(level := level2var[table[m].level], mark := table[m].refcou > 0))
    && (forall m {:trigger nodes[m]} :: 0 <= m < |table| && (m < 2 || n <= m) ==> nodes[m] == table[m])
  }

  function NoCounts(nvars: nat): (r: Levels)
    ensures |r| == nvars
  {
    seq(nvars, _ => LevelData(0, 0, 0))
  }

  /** The roots below n have been followed. */
  ghost predicate RootLoop(nodes: seq<BddNode>, levels: Levels, g0: Graph, ext: map<nat, nat>, done: set<nat>, extroots: seq<nat>, n: nat) {
    && Tally(nodes, levels, g0, ext, done, {}, multiset{})
    && 2 <= n <= |nodes| && Constants(nodes, |levels|)
    && (forall m {:trigger m in ext} :: m in ext ==> (m in done <==> m < n))
    && (forall m {:trigger nodes[m]} :: 0 <= m < |nodes| ==> nodes[m].level <= |levels| && (nodes[m].mark <==> m in ext && n <= m))
    && (forall m {:trigger nodes[m]} :: 2 <= m < n ==> nodes[m].hash == 0)
    && (forall m {:trigger m in extroots} :: m in extroots <==> m in ext && m < n)
  }

  lemma {:induction false} RootStart(table: seq<BddNode>, g0: Graph, ext: map<nat, nat>, var2level: Order, level2var: seq<nat>, nvars: nat, nodes: seq<BddNode>)
    requires Before(table, g0, ext, var2level, level2var, nvars) && Relevelled(table, level2var, nodes, |table|)
    ensures RootLoop(nodes, NoCounts(nvars), g0, ext, {}, [], 2)
  {
    forall n | n in g0
      ensures nodes[n].level == g0[n].v && nodes[n].low == g0[n].low && nodes[n].high == g0[n].high
      ensures Parents(Part(g0, {}), n) == 0 && nodes[n].refcou == Ext(ext, n)
      ensures Node(g0, g0[n].low) && Node(g0, g0[n].high)
    {
      assert GoodNode(g0, var2level, n) && level2var[var2level[g0[n].v]] == g0[n].v;
      assert nodes[n] == table[n].(level := level2var[table[n].level], mark := table[n].refcou > 0);
      assert LowParents(Part(g0, {}), n) == {} && HighParents(Part(g0, {}), n) == {};
    }
    forall v | 0 <= v < nvars ensures |OfVar(g0, {} + {}, v)| == 0 {
      assert OfVar(g0, {} + {}, v) == {};
    }
  }

  /** Marks and hash heads do not matter to the counting. */
  lemma TallyTouch(nodes: seq<BddNode>, levels: Levels, g0: Graph, ext: map<nat, nat>, done: set<nat>, act: set<nat>, pend: multiset<nat>, nodes': seq<BddNode>)
    requires Tally(nodes, levels, g0, ext, done, act, pend) && |nodes'| == |nodes|
    requires forall n {:trigger nodes'[n]} :: 0 <= n < |nodes| ==> nodes'[n] == nodes[n].(mark := nodes'[n].mark, hash := nodes'[n].hash)
    ensures Tally(nodes', levels, g0, ext, done, act, pend)
  {
    hide Parents, Part, RowCounts;
  }

  lemma RootThere(nodes: seq<BddNode>, levels: Levels, g0: Graph, ext: map<nat, nat>, done: set<nat>, extroots: seq<nat>, n: nat)
    requires RootLoop(nodes, levels, g0, ext, done, extroots, n) && n < |nodes| && nodes[n].mark
    ensures n in ext && n in g0 && n !in done && nodes[n].level == g0[n].v && g0[n].v < |levels| && Tally(nodes, levels, g0, ext, done, {}, multiset{})
  {
    hide Counts, Entered, RowCounts;
  }

  /** Slot n is a root: unmarked, and about to be followed. */
  lemma {:induction false} RootEnter(nodes: seq<BddNode>, levels: Levels, g0: Graph, lev: Order, ext: map<nat, nat>, done: set<nat>, extroots: seq<nat>, n: nat)
    requires RootLoop(nodes, levels, g0, ext, done, extroots, n) && n < |nodes| && nodes[n].mark && Wf(g0, lev) && |lev| == |levels| + 1
    ensures n in g0 && n in ext && n !in done && nodes[n].level < |levels|
    ensures Tally(nodes[n := nodes[n].(mark := false)], OneMore(levels, nodes[n].level), g0, ext, done, {n}, multiset{})
  {
    hide RootLoop, Tally, Wf;
    var nodes' := nodes[n := nodes[n].(mark := false)];
    RootThere(nodes, levels, g0, ext, done, extroots, n);
    TallyTouch(nodes, levels, g0, ext, done, {}, multiset{}, nodes');
    Enter(nodes', levels, g0, ext, done, {}, multiset{}, n);
    assert {} + {n} == {n};
  }

  /** Slot n has been followed, or is no root. */
  ghost predicate RootStep(nodes: seq<BddNode>, nodes': seq<BddNode>, n: nat) {
    && |nodes'| == |nodes| && n < |nodes| && nodes'[n].hash == 0 && !nodes'[n].mark && nodes'[n].level == nodes[n].level
    && (forall m {:trigger nodes'[m]} :: 0 <= m < |nodes| ==>
          && (m != n ==> nodes'[m] == nodes[m].(refcou := nodes'[m].refcou))
          && (m < 2 ==> nodes'[m] == nodes[m]))
  }

  lemma {:induction false} RootNext(nodes: seq<BddNode>, levels: Levels, g0: Graph, lev: Order, ext: map<nat, nat>, done: set<nat>, extroots: seq<nat>, n: nat,
                                    nodes': seq<BddNode>, levels': Levels, done': set<nat>, extroots': seq<nat>)
    requires RootLoop(nodes, levels, g0, ext, done, extroots, n) && n < |nodes| && RootStep(nodes, nodes', n)
    requires Tally(nodes', levels', g0, ext, done', {}, multiset{}) && |levels'| == |levels| && done <= done'
    requires forall m {:trigger m in done'} :: m in done' && m !in done && m != n ==> m !in ext
    requires n in ext ==> n in done'
    requires extroots' == if n in ext then extroots + [n] else extroots
    requires n !in ext ==> done' == done
    ensures RootLoop(nodes', levels', g0, ext, done', extroots', n + 1)
  {
    hide Tally;
  }

  lemma {:induction false} RootDone(nodes: seq<BddNode>, levels: Levels, g0: Graph, lev: Order, ext: map<nat, nat>, done: set<nat>, extroots: seq<nat>, n: nat,
                                    followed: seq<BddNode>, levels2: Levels, done2: set<nat>)
    requires RootLoop(nodes, levels, g0, ext, done, extroots, n) && n < |nodes| && nodes[n].mark && n in ext
    requires OnlyCounts(nodes[n := nodes[n].(mark := false)], followed)
    requires Tally(followed, levels2, g0, ext, done2 + {n}, {}, multiset{}) && |levels2| == |levels|
    requires AddedBelow(g0, lev, ext, done, done2, LevelIn(g0, lev, n))
    ensures |followed| == |nodes| && RootLoop(followed[n := followed[n].(hash := 0)], levels2, g0, ext, done2 + {n}, extroots + [n], n + 1)
  {
    hide RootLoop, Tally, LevelIn;
    var nodes2 := followed[n := followed[n].(hash := 0)];
    TallyTouch(followed, levels2, g0, ext, done2 + {n}, {}, multiset{}, nodes2);
    RootBound(nodes, levels, g0, ext, done, extroots, n);
    RootNext(nodes, levels, g0, lev, ext, done, extroots, n, nodes2, levels2, done2 + {n}, extroots + [n]);
  }

  lemma RootBound(nodes: seq<BddNode>, levels: Levels, g0: Graph, ext: map<nat, nat>, done: set<nat>, extroots: seq<nat>, n: nat)
    requires RootLoop(nodes, levels, g0, ext, done, extroots, n)
    ensures 2 <= n <= |nodes|
  {
  }

  lemma NoRoot(nodes: seq<BddNode>, levels: Levels, g0: Graph, ext: map<nat, nat>, done: set<nat>, extroots: seq<nat>, n: nat)
    requires RootLoop(nodes, levels, g0, ext, done, extroots, n) && n < |nodes| && !nodes[n].mark
    ensures n !in ext.Keys
  {
    hide Tally, Constants;
  }

  lemma {:induction false} RootSkip(nodes: seq<BddNode>, levels: Levels, g0: Graph, ext: map<nat, nat>, done: set<nat>, extroots: seq<nat>, n: nat)
    requires RootLoop(nodes, levels, g0, ext, done, extroots, n) && n < |nodes| && !nodes[n].mark
    ensures RootLoop(nodes[n := nodes[n].(hash := 0)], levels, g0, ext, done, extroots, n + 1)
  {
    hide Tally;
    var nodes' := nodes[n := nodes[n].(hash := 0)];
    TallyTouch(nodes, levels, g0, ext, done, {}, multiset{}, nodes');
  }

  /** The heads of the first two slots are emptied last. */
  lemma {:induction false} RootHeads(nodes: seq<BddNode>, levels: Levels, g0: Graph, ext: map<nat, nat>, done: set<nat>, extroots: seq<nat>)
    requires RootLoop(nodes, levels, g0, ext, done, extroots, |nodes|)
    ensures 2 <= |nodes| && RootLoop(nodes[0 := nodes[0].(hash := 0)][1 := nodes[1].(hash := 0)], levels, g0, ext, done, extroots, |nodes|)
  {
    hide Tally;
    var nodes' := nodes[0 := nodes[0].(hash := 0)][1 := nodes[1].(hash := 0)];
    TallyTouch(nodes, levels, g0, ext, done, {}, multiset{}, nodes');
  }

  /** g is what the roots need, and all of it is counted exactly. */
  ghost predicate Gathered(nodes: seq<BddNode>, levels: Levels, g0: Graph, g: Graph, lev: Order, ext: map<nat, nat>) {
    && Refs(nodes, g, ext, multiset{}) && Alive(nodes, g) && Wf(g0, lev) && Wf(g, lev) && Unique(g0) && Unique(g)
    && (forall v {:trigger levels[v]} :: 0 <= v < |levels| ==> levels[v].nodenum == |RowAll(g, v)|)
    && (forall m {:trigger m in g} :: m in g && m !in ext ==> exists q {:trigger IsParent(g, q, m)} :: IsParent(g, q, m))
    && (forall m {:trigger m in g} :: m in g ==> m in g0 && g[m] == g0[m])
  }

  /** All roots followed. */
  lemma {:induction false} AllGathered(nodes: seq<BddNode>, levels: Levels, g0: Graph, lev: Order, ext: map<nat, nat>, done: set<nat>, extroots: seq<nat>)
    requires RootLoop(nodes, levels, g0, ext, done, extroots, |nodes|) && Wf(g0, lev) && Unique(g0)
    requires 2 <= |nodes| && nodes[0].hash == nodes[1].hash == 0
    ensures Gathered(nodes, levels, g0, Part(g0, done), lev, ext)
    ensures Constants(nodes, |levels|) && SessionState.Recorded(nodes, Part(g0, done), |levels|)
    ensures forall m {:trigger nodes[m]} :: 0 <= m < |nodes| ==> nodes[m].hash == 0 && nodes[m].level <= |levels| && !nodes[m].mark
    ensures forall m {:trigger nodes[m]} :: 2 <= m < |nodes| ==> (nodes[m].refcou > 0 <==> m in Part(g0, done))
    ensures forall m {:trigger m in extroots} :: m in extroots <==> m in ext
  {
    hide RootLoop, Tally, Wf, Unique, IsParent, Refs, Alive, SessionState.Recorded, RowAll;
    RootsMet(nodes, levels, g0, ext, done, extroots);
    Needed(nodes, levels, g0, lev, ext, done);
  }

  lemma {:induction false} RootsMet(nodes: seq<BddNode>, levels: Levels, g0: Graph, ext: map<nat, nat>, done: set<nat>, extroots: seq<nat>)
    requires RootLoop(nodes, levels, g0, ext, done, extroots, |nodes|)
    ensures Tally(nodes, levels, g0, ext, done, {}, multiset{})
    ensures forall m {:trigger m in ext} :: m in ext ==> m in done
    ensures Constants(nodes, |levels|)
    ensures forall m {:trigger nodes[m]} :: 0 <= m < |nodes| ==> (2 <= m ==> nodes[m].hash == 0) && nodes[m].level <= |levels| && !nodes[m].mark
    ensures forall m {:trigger m in extroots} :: m in extroots <==> m in ext
  {
    forall m | m in ext ensures m < |nodes| && m in done {
      assert m in g0;
    }
    hide Counts, Entered, RowCounts;
  }

  lemma {:induction false} BeforeFacts(table: seq<BddNode>, g0: Graph, ext: map<nat, nat>, var2level: Order, level2var: seq<nat>, nvars: nat)
    requires Before(table, g0, ext, var2level, level2var, nvars)
    ensures 2 <= |table| && 0 < nvars <= |table| && |var2level| == nvars + 1 && Wf(g0, var2level) && Unique(g0) && Orders(var2level, level2var, nvars)
    ensures forall n {:trigger table[n]} :: 0 <= n < |table| ==> table[n].level < |level2var| && !table[n].mark
  {
    hide Wf, Unique;
  }

  /** What is left when all roots have been followed: the nodes some root needs, each with its exact count. */
  lemma {:induction false} Needed(nodes: seq<BddNode>, levels: Levels, g0: Graph, lev: Order, ext: map<nat, nat>, done: set<nat>)
    requires Tally(nodes, levels, g0, ext, done, {}, multiset{}) && Wf(g0, lev) && Unique(g0)
    requires forall m {:trigger m in ext} :: m in ext ==> m in done
    ensures var g := Part(g0, done);
            && Refs(nodes, g, ext, multiset{}) && Alive(nodes, g) && SessionState.Recorded(nodes, g, |levels|)
            && Wf(g, lev) && Unique(g)
            && (forall v {:trigger levels[v]} :: 0 <= v < |levels| ==> levels[v].nodenum == |RowAll(g, v)|)
            && (forall m {:trigger m in g} :: m in g && m !in ext ==> exists q {:trigger IsParent(g, q, m)} :: IsParent(g, q, m))
            && (forall m {:trigger nodes[m]} :: 2 <= m < |nodes| ==> (nodes[m].refcou > 0 <==> m in g))
  {
    var g := Part(g0, done);
    hide Counts, Entered, RowCounts, Shape, Parents, IsParent;
    NeededGraph(nodes, levels, g0, lev, ext, done);
    NeededRefs(nodes, levels, g0, ext, done);
    assert forall v {:trigger levels[v]} :: 0 <= v < |levels| ==> levels[v].nodenum == |RowAll(g, v)| by {
      NeededRows(levels, g0, done);
    }
  }

  lemma {:induction false} NeededRows(levels: Levels, g0: Graph, done: set<nat>)
    requires RowCounts(levels, g0, done + {})
    ensures forall v {:trigger levels[v]} :: 0 <= v < |levels| ==> levels[v].nodenum == |RowAll(Part(g0, done), v)|
  {
    forall v | 0 <= v < |levels| ensures levels[v].nodenum == |RowAll(Part(g0, done), v)| {
      assert OfVar(g0, done + {}, v) == RowAll(Part(g0, done), v);
    }
  }

  lemma {:induction false} NeededGraph(nodes: seq<BddNode>, levels: Levels, g0: Graph, lev: Order, ext: map<nat, nat>, done: set<nat>)
    requires Shape(nodes, g0, |levels|, ext) && Entered(nodes, g0, ext, done, {}, multiset{}) && Wf(g0, lev) && Unique(g0)
    requires forall m {:trigger m in ext} :: m in ext ==> m in done
    ensures var g := Part(g0, done);
            Closed(g) && SessionState.Recorded(nodes, g, |levels|) && Wf(g, lev) && Unique(g)
  {
    var g := Part(g0, done);
    forall n | n in g ensures GoodNode(g, lev, n) && Node(g, g[n].low) && Node(g, g[n].high) {
      assert n in done && GoodNode(g0, lev, n);
      assert Met(ext, done, g0[n].low) && Met(ext, done, g0[n].high);
    }
  }

  lemma {:induction false} NeededRefs(nodes: seq<BddNode>, levels: Levels, g0: Graph, ext: map<nat, nat>, done: set<nat>)
    requires Shape(nodes, g0, |levels|, ext) && Counts(nodes, g0, ext, done, multiset{}) && Entered(nodes, g0, ext, done, {}, multiset{})
    requires forall m {:trigger m in ext} :: m in ext ==> m in done
    requires Closed(Part(g0, done))
    ensures var g := Part(g0, done);
            && Refs(nodes, g, ext, multiset{}) && Alive(nodes, g)
            && (forall m {:trigger m in g} :: m in g && m !in ext ==> exists q {:trigger IsParent(g, q, m)} :: IsParent(g, q, m))
            && (forall m {:trigger nodes[m]} :: 2 <= m < |nodes| ==> (nodes[m].refcou > 0 <==> m in g))
  {
    hide Shape, Counts, Entered, RefOk, Part, Closed, Parents, IsParent;
    var g := Part(g0, done);
    forall n | n in g
      ensures 2 <= n < |nodes| && nodes[n].refcou > 0 && RefOk(nodes[n].refcou, g, ext, multiset{}, n)
      ensures n !in ext ==> exists q {:trigger IsParent(g, q, n)} :: IsParent(g, q, n)
    {
      NeededCount(nodes, |levels|, g0, ext, done, n);
    }
    forall n | 2 <= n < |nodes| && nodes[n].refcou > 0 ensures n in g {
      NeededOnly(nodes, g0, ext, done, n);
    }
    forall n | n in ext ensures n in g && 0 < ext[n] {
      NeededRoot(nodes, |levels|, g0, ext, done, n);
    }
  }

  lemma NeededRoot(nodes: seq<BddNode>, nvars: nat, g0: Graph, ext: map<nat, nat>, done: set<nat>, n: nat)
    requires Shape(nodes, g0, nvars, ext) && n in ext && n in done
    ensures n in Part(g0, done) && 0 < ext[n]
  {
  }

  /** One node of done: its count is exact, and some edge accounts for it. */
  lemma {:induction false} NeededCount(nodes: seq<BddNode>, nvars: nat, g0: Graph, ext: map<nat, nat>, done: set<nat>, n: nat)
    requires Shape(nodes, g0, nvars, ext) && Counts(nodes, g0, ext, done, multiset{}) && Entered(nodes, g0, ext, done, {}, multiset{})
    requires n in Part(g0, done)
    ensures 2 <= n < |nodes| && nodes[n].refcou > 0 && RefOk(nodes[n].refcou, Part(g0, done), ext, multiset{}, n)
    ensures n !in ext ==> exists q {:trigger IsParent(Part(g0, done), q, n)} :: IsParent(Part(g0, done), q, n)
  {
    var g := Part(g0, done);
    assert n in g0 && n in done && 2 <= n < |nodes| && nodes[n].refcou > 0;
    assert nodes[n].refcou == Sat(Ext(ext, n) + multiset{}[n] + Parents(g, n));
    hide Shape, Counts, Entered, Part, Parents;
    HasParent(g, n);
  }

  /** What has a count was met. */
  lemma {:induction false} NeededOnly(nodes: seq<BddNode>, g0: Graph, ext: map<nat, nat>, done: set<nat>, n: nat)
    requires Counts(nodes, g0, ext, done, multiset{}) && Entered(nodes, g0, ext, done, {}, multiset{})
    requires forall m {:trigger m in ext} :: m in ext ==> m in done
    requires 2 <= n < |nodes| && nodes[n].refcou > 0
    ensures n in Part(g0, done)
  {
    hide Parents, Met;
    assert n in g0;
  }

  /** A closed part of a graph has the same diagrams. */
  lemma {:induction false} PartSame(g0: Graph, g: Graph, lev: Order, n: nat)
    requires Wf(g0, lev) && Wf(g, lev) && Node(g, n)
    requires forall m {:trigger m in g} :: m in g ==> m in g0 && g[m] == g0[m]
    ensures Node(g0, n) && Support(g, lev, n) == Support(g0, lev, n)
    ensures forall a: Assign {:trigger Eval(g, lev, n, a)} :: Eval(g, lev, n, a) == Eval(g0, lev, n, a)
    decreases Rank(g, lev, n)
  {
    if n in g {
      assert GoodNode(g, lev, n) && GoodNode(g0, lev, n);
      PartSame(g0, g, lev, g[n].low);
      PartSame(g0, g, lev, g[n].high);
    }
  }

  /* ---- reorder_gbc ---- */

  ghost predicate SameRefs(nodes: seq<BddNode>, nodes': seq<BddNode>) {
    && |nodes'| == |nodes|
    && forall m {:trigger nodes'[m]} :: 0 <= m < |nodes| ==> nodes'[m].refcou == nodes[m].refcou
  }

  /** Slots, as far as the loop has come. */
  ghost predicate Emptied(nodes: seq<BddNode>, g: Graph, nvars: nat, from: nat) {
    forall n {:trigger nodes[n]} :: 0 <= n < |nodes| ==>
      nodes[n].level <= nvars && !nodes[n].mark && (2 <= n && from <= n && n !in g ==> nodes[n].low == -1)
  }

  lemma EmptiedOne(nodes: seq<BddNode>, g: Graph, nvars: nat, n: nat, nodes': seq<BddNode>)
    requires Emptied(nodes, g, nvars, n + 1) && n < |nodes| == |nodes'| && (n in g || nodes'[n].low == -1)
    requires forall m {:trigger nodes'[m]} :: 0 <= m < |nodes| ==>
               nodes'[m].level == nodes[m].level && nodes'[m].mark == nodes[m].mark && (m != n ==> nodes'[m].low == nodes[m].low)
    ensures Emptied(nodes', g, nvars, n)
  {
  }

  /** The loop has placed the slots from n on; what is referenced is what the graph has. */
  ghost predicate Resorting(nodes0: seq<BddNode>, s: State, hash: Hash, n: nat) {
    && Tables(s.levels, |s.nodes|) && Spreads(hash)
    && Constants(s.nodes, |s.levels|)
    && SessionState.Recorded(s.nodes, s.g, |s.levels|)
    && Emptied(s.nodes, s.g, |s.levels|, n)
    && Rebuilding(s.nodes, s.lists, s.freepos, s.place, Keys(s.g, s.levels, hash, |s.nodes|), n)
    && Free in s.lists && s.freenum == |s.lists[Free]| && SameRefs(nodes0, s.nodes)
    && (forall m {:trigger nodes0[m]} :: 2 <= m < |nodes0| ==> (nodes0[m].refcou > 0 <==> m in s.g))
  }

  lemma ResortStart(nodes: seq<BddNode>, levels: Levels, g: Graph, hash: Hash)
    requires Tables(levels, |nodes|) && Spreads(hash) && Constants(nodes, |levels|) && SessionState.Recorded(nodes, g, |levels|)
    requires forall m {:trigger nodes[m]} :: 0 <= m < |nodes| ==> nodes[m].hash == 0 && nodes[m].level <= |levels| && !nodes[m].mark
    requires forall m {:trigger nodes[m]} :: 2 <= m < |nodes| ==> (nodes[m].refcou > 0 <==> m in g)
    ensures Resorting(nodes, State(nodes, 0, 0, levels, g, NoLists(|nodes|), map[]), hash, |nodes|)
  {
    hide Tables, Spreads, Rebuilding;
    RebuildStart(nodes, Keys(g, levels, hash, |nodes|));
  }

  /** What the count of a slot says. */
  lemma ResortNode(nodes0: seq<BddNode>, s: State, hash: Hash, n: nat)
    requires Resorting(nodes0, s, hash, n + 1) && 2 <= n < |s.nodes|
    ensures s.nodes[n].refcou == 0 <==> n !in s.g
  {
    hide Rebuilding, Tables, Spreads, Constants, SessionState.Recorded, Emptied;
    assert nodes0[n].refcou == s.nodes[n].refcou;
  }

  lemma ResortLink(nodes0: seq<BddNode>, s: State, hash: Hash, n: nat)
    requires Resorting(nodes0, s, hash, n + 1) && 2 <= n < |s.nodes| && s.nodes[n].refcou > 0
    ensures s.nodes[n].level < |s.levels| && 0 <= s.nodes[n].low && 0 <= s.nodes[n].high
    ensures var b := hash(s.levels[s.nodes[n].level], s.nodes[n].low, s.nodes[n].high);
            b < |s.nodes| && Bucket(b) in s.lists && Resorting(nodes0, Inserted(s, b, n), hash, n)
  {
    hide Rebuilding, Tables, Spreads, Constants, Keys, Emptied;
    ResortNode(nodes0, s, hash, n);
    var b := BucketOf(s.g[n], s.levels, hash);
    BucketRange(s.levels, |s.nodes|, hash, s.g[n]);
    RebuildLink(s.nodes, s.lists, s.freepos, s.place, Keys(s.g, s.levels, hash, |s.nodes|), n, b);
    var t := Inserted(s, b, n);
    assert t.nodes == LinkedNodes(s.nodes, b, n);
    RecordedKeep(s.nodes, s.g, |s.levels|, t.nodes);
    LinkConstants(s.nodes, |s.levels|, n, b, t.nodes);
    EmptiedOne(s.nodes, s.g, |s.levels|, n, t.nodes);
  }

  /** LOWp(node) = -1; node->next = bddfreepos; bddfreepos = n; bddfreenum++ */
  ghost function Reclaim(s: State, n: nat): State
    requires n < |s.nodes| && Free in s.lists
  {
    s.(nodes := s.nodes[n := s.nodes[n].(low := -1, next := s.freepos)], freepos := n, freenum := s.freenum + 1,
       lists := Pushed(s.lists, Free, n), place := s.place[n := (Free, |s.lists[Free]|)])
  }

  lemma ResortFree(nodes0: seq<BddNode>, s: State, hash: Hash, n: nat)
    requires Resorting(nodes0, s, hash, n + 1) && 2 <= n < |s.nodes| && s.nodes[n].refcou == 0
    ensures Free in s.lists && Resorting(nodes0, Reclaim(s, n), hash, n)
  {
    hide Rebuilding, Tables, Spreads, Keys, Emptied, SessionState.Recorded;
    ResortNode(nodes0, s, hash, n);
    RebuildRange(s.nodes, s.lists, s.freepos, s.place, Keys(s.g, s.levels, hash, |s.nodes|), n + 1);
    var t := Reclaim(s, n);
    RebuildFree(s.nodes, s.lists, s.freepos, s.place, Keys(s.g, s.levels, hash, |s.nodes|), n, t.nodes);
    EmptiedOne(s.nodes, s.g, |s.levels|, n, t.nodes);
    RecordedFree(s.nodes, s.g, |s.levels|, n, t.nodes);
  }

  lemma RecordedFree(nodes: seq<BddNode>, g: Graph, nvars: nat, n: nat, nodes': seq<BddNode>)
    requires SessionState.Recorded(nodes, g, nvars) && n !in g && |nodes'| == |nodes|
    requires forall m {:trigger nodes'[m]} :: 0 <= m < |nodes| && m != n ==> nodes'[m] == nodes[m]
    ensures SessionState.Recorded(nodes', g, nvars)
  {
  }

  lemma ResortEnd(nodes0: seq<BddNode>, s: State, hash: Hash)
    requires Resorting(nodes0, s, hash, 2)
    ensures Sound(s, hash) && AtRest(s) && SameRefs(nodes0, s.nodes)
  {
    hide Heads, Placed, Tables, Spreads, Threaded, Constants;
    HeadsFree(s.nodes, s.lists, s.freepos);
    RecordedFacts(s.nodes, s.g, |s.levels|);
    forall n | 2 <= n < |s.nodes| ensures n in s.g <==> !(n in s.place && s.place[n].0 == Free) {
      assert n in s.place && s.place[n].0 == KeyOf(s.g, s.levels, hash, n);
    }
    forall n | n in s.g ensures Chained(s.g, s.place, n) {
      assert n in s.place && s.place[n].0 == KeyOf(s.g, s.levels, hash, n);
    }
    forall n | n in s.place && s.place[n].0.Bucket?
      ensures n in s.g && s.g[n].v < |s.levels| && s.place[n].0.b == BucketOf(s.g[n], s.levels, hash)
    {
      assert s.place[n].0 == KeyOf(s.g, s.levels, hash, n);
    }
  }

  /* ---- the session that starts ---- */

  /** Linking and sizing change neither counts nor rows. */
  lemma {:induction false} Carried(nodes: seq<BddNode>, levels: Levels, nodes': seq<BddNode>, levels': Levels, g: Graph, ext: map<nat, nat>)
    requires Refs(nodes, g, ext, multiset{}) && Alive(nodes, g) && SameRefs(nodes, nodes') && SameCounts(levels, levels')
    requires forall v {:trigger levels[v]} :: 0 <= v < |levels| ==> levels[v].nodenum == |RowAll(g, v)|
    ensures Refs(nodes', g, ext, multiset{}) && Alive(nodes', g)
    ensures forall v {:trigger levels'[v]} :: 0 <= v < |levels'| ==> levels'[v].nodenum == |RowAll(g, v)|
  {
    hide RefOk, Closed, RowAll;
  }

  lemma {:induction false} RestFrom(s: State, hash: Hash, ext: map<nat, nat>, lev: Order, mtx: Matrix, g0: Graph)
    requires Sound(s, hash) && AtRest(s) && Refs(s.nodes, s.g, ext, multiset{}) && Alive(s.nodes, s.g)
    requires |lev| == |s.levels| + 1 && Wf(g0, lev) && Wf(s.g, lev) && Unique(s.g) && Unique(g0)
    requires forall v {:trigger s.levels[v]} :: 0 <= v < |s.levels| ==> s.levels[v].nodenum == |RowAll(s.g, v)|
    requires forall m {:trigger m in s.g} :: m in s.g ==> m in g0 && s.g[m] == g0[m]
    requires forall m {:trigger m in s.g} :: m in s.g && m !in ext ==> exists q {:trigger IsParent(s.g, q, m)} :: IsParent(s.g, q, m)
    requires forall r {:trigger r in ext} :: r in ext ==> r in g0 && CoveredNode(g0, lev, mtx, r)
    ensures Rest(s, hash, ext, lev, mtx) && Preserved(g0, lev, s.g, lev, ext)
  {
    hide Sound, Row, RowAll, Wf, Unique, IsParent;
    forall v | 0 <= v < |s.levels| ensures s.levels[v].nodenum == |Row(s.g, s.place, v)| {
      RowIsAll(s.g, s.place, v);
    }
    forall r | r in ext
      ensures r in s.g && CoveredNode(s.g, lev, mtx, r)
      ensures forall a: Assign {:trigger Eval(s.g, lev, r, a)} :: Eval(s.g, lev, r, a) == Eval(g0, lev, r, a)
    {
      PartSame(g0, s.g, lev, r);
    }
    forall n | n in s.g ensures CoveredNode(s.g, lev, mtx, n) {
      CoverFromRoots(s.g, lev, mtx, ext.Keys, n);
    }
  }

  /** The session reorder_init leaves, whatever the counting was done on before the sub-tables were filled. */
  lemma {:induction false} StartRest(nodes0: seq<BddNode>, levels0: Levels, s: State, hash: Hash, ext: map<nat, nat>, lev: Order, mtx: Matrix, g0: Graph)
    requires Gathered(nodes0, levels0, g0, s.g, lev, ext) && SameRefs(nodes0, s.nodes) && SameCounts(levels0, s.levels)
    requires Sound(s, hash) && AtRest(s) && |lev| == |s.levels| + 1
    requires forall r {:trigger r in ext} :: r in ext ==> r in g0 && CoveredNode(g0, lev, mtx, r)
    ensures Rest(s, hash, ext, lev, mtx) && Preserved(g0, lev, s.g, lev, ext)
    ensures forall m {:trigger m in s.g} :: m in s.g ==> m in g0 && s.g[m] == g0[m]
  {
    hide Sound, AtRest, SameRefs, SameCounts, Rest, Preserved, Refs, Alive, RowAll, Wf, Unique, IsParent, CoveredNode;
    Carried(nodes0, levels0, s.nodes, s.levels, s.g, ext);
    RestFrom(s, hash, ext, lev, mtx, g0);
  }

  /* ---- reorder_done ---- */

  /** The slots below n are back to levels, with a count only where there is an external reference; roots from n on are marked. */
  ghost predicate Returned(was: seq<BddNode>, lev: Order, ext: map<nat, nat>, nodes: seq<BddNode>, n: nat) {
    && |nodes| == |was|
    && (forall m {:trigger nodes[m]} :: 2 <= m < |was| && m < n ==>
          && was[m].level < |lev|
          && nodes[m] == was[m].(level := lev[was[m].level], refcou := if m in ext then was[m].refcou else 0))
    && (forall m {:trigger nodes[m]} :: 0 <= m < |was| && (m < 2 || n <= m) ==> nodes[m] == was[m].(mark := m in ext))
  }

  lemma {:induction false} RestSlots(s: State, hash: Hash, ext: map<nat, nat>, lev: Order, mtx: Matrix)
    requires Rest(s, hash, ext, lev, mtx)
    ensures 2 <= |s.nodes| && |lev| == |s.levels| + 1
    ensures forall n {:trigger s.nodes[n]} :: 0 <= n < |s.nodes| ==> s.nodes[n].level < |lev| && !s.nodes[n].mark
    ensures forall n {:trigger n in ext} :: n in ext ==> 2 <= n < |s.nodes|
  {
    hide Heads, Keyed, Tables, Threaded, Spreads, Rows, Wf, Unique, Covered, AtRest, Alive, RefOk, Closed;
  }
}
