/**
  The reordering session of reorder.c: exchanging two adjacent variables by
  rewriting nodes in place.

  During a session reference counts include the parents inside the table. The
  ghost fields are the abstract state: the graph `g`, the references `ext` held
  from outside, and `pend`, references already counted for edges that are about
  to be written.
*/
module Reorder {
  import opened Threads
  import opened SwapTheory
  import opened Counting
  import opened SessionState
  import opened RefCounts
  import opened ReorderSteps
  import opened LocalGbc
  import opened Rehash
  import opened SessionStart
  import Interaction
  import opened PairTable
  import opened Moves
  import opened Saturation
  import Prime

  /** bdd.h: unknown variable. */
  const BDD_VAR: int := -2

  class Session {
    var nodes: seq<BddNode>
    var freepos: nat
    var freenum: nat
    var levels: Levels
    var var2level: Order
    var level2var: seq<nat>
    var resizedInMakenode: bool
    /** The nodes with external references. */
    var extroots: seq<nat>
    /** The interaction matrix, filled in when the session starts. */
    var iactmtx: Matrix
    /** The renaming pairs, and the literals they start with. */
    const pairs: seq<Pair>
    ghost const literal: nat -> nat
    const hash: Hash
    /** The size policy of bdd_noderesize: any larger size. */
    const largerSize: nat -> nat

    ghost var g: Graph
    ghost var ext: map<nat, nat>
    ghost var pend: multiset<nat>
    ghost var lists: Lists
    ghost var place: Places

    ghost function Now(): State
      reads this
    {
      State(nodes, freepos, freenum, levels, g, lists, place)
    }

    /** bdd_getnodenum, what reorder_nodenum returns. */
    function NodeNum(): int
      reads this
    {
      |nodes| - freenum
    }

    /**
      reorder_init: from a table as the kernel leaves it to a session. Nodes no
      external reference needs are dropped; the others keep their diagrams.
      The interaction matrix it computes has to mark any two variables of one
      root (Interaction says when it does).
    */
    constructor (table: seq<BddNode>, var2level: Order, level2var: seq<nat>, pairs: seq<Pair>, hash: Hash, largerSize: nat -> nat,
                 ghost g0: Graph, ghost ext: map<nat, nat>, ghost literal: nat -> nat)
      requires 0 < |level2var| && Before(table, g0, ext, var2level, level2var, |level2var| - 1)
      requires Marks(g0, var2level, ext, |table|)
      requires Spreads(hash) && Grows(largerSize)
      requires Fit(pairs, |level2var| - 1) && PlainPairs(pairs, level2var, literal)
      ensures Valid() && this.ext == ext && this.var2level == var2level && this.level2var == level2var
      ensures iactmtx == Interaction.Interactions(g0, var2level, ext.Keys, |table|)
      ensures this.hash == hash && this.largerSize == largerSize && this.pairs == pairs && this.literal == literal
      ensures |nodes| == |table| && |levels| == |level2var| - 1
      ensures forall n {:trigger n in g} :: n in g ==> n in g0 && g[n] == g0[n]
      ensures Preserved(g0, var2level, g, var2level, ext)
      ensures forall n {:trigger n in extroots} :: n in extroots <==> n in ext
    {
      hide Before, Rest, Preserved, Orders, Spreads, Grows, Marks, Interaction.Interactions, PlainPairs, Fit, NoCounts, Entries;
      this.iactmtx, this.hash, this.largerSize := [], hash, largerSize;
      this.pairs, this.literal := pairs, literal;
      this.var2level, this.level2var := var2level, level2var;
      nodes, levels := table, NoCounts(|level2var| - 1);
      freepos, freenum := 0, 0;
      resizedInMakenode := false;
      extroots := [];
      this.ext, g, pend := ext, map[], multiset{};
      lists, place := map[], map[];
      new;
      BeforeFacts(table, g0, ext, var2level, level2var, |level2var| - 1);
      Begin(g0);
    }

    /** The steps of reorder_init. */
    method Begin(ghost g0: Graph)
      requires 0 < |level2var| && Before(nodes, g0, ext, var2level, level2var, |level2var| - 1) && levels == NoCounts(|level2var| - 1)
      requires |var2level| == |level2var| && Wf(g0, var2level)
      requires Marks(g0, var2level, ext, |nodes|)
      requires Spreads(hash)
      modifies this`nodes, this`levels, this`extroots, this`g, this`lists, this`place, this`freepos, this`freenum, this`iactmtx
      ensures iactmtx == Interaction.Interactions(g0, var2level, ext.Keys, |nodes|)
      ensures Rest(Now(), hash, ext, var2level, iactmtx) && Preserved(g0, var2level, g, var2level, ext)
      ensures |nodes| == |old(nodes)| && |levels| == |level2var| - 1
      ensures forall n {:trigger n in g} :: n in g ==> n in g0 && g[n] == g0[n]
      ensures forall n {:trigger n in extroots} :: n in extroots <==> n in ext
    {
      hide Before, RootLoop, Rest, Preserved, Tables, Sound, AtRest, Wf, Constants, Spreads, Gathered, Part, SessionState.Recorded, CoveredNode, Interaction.Interactions;
      BeforeFacts(nodes, g0, ext, var2level, level2var, |level2var| - 1);
      ghost var done := MarkRoots(g0);
      ghost var nodes0, levels0 := nodes, levels;
      AllGathered(nodes, levels, g0, var2level, ext, done, extroots);
      g := Part(g0, done);
      SetLevelLookup();
      ReorderGbc();
      StartRest(nodes0, levels0, Now(), hash, ext, var2level, iactmtx, g0);
    }

    /**
      reorder_done, up to its final bdd_gbc: back to levels; only what has
      external references keeps a count. (That count still includes parents.)
    */
    method Done()
      requires Valid() && forall n {:trigger n in extroots} :: n in extroots <==> n in ext
      modifies this`nodes
      ensures Returned(old(nodes), var2level, ext, nodes, |old(nodes)|)
    {
      hide Rest, Orders, Grows;
      RestSlots(Now(), hash, ext, var2level, iactmtx);
      hide Valid;
      ghost var was := nodes;
      var i := 0;
      while i < |extroots|
        invariant i <= |extroots| && |nodes| == |was| && 2 <= |was|
        invariant forall n {:trigger nodes[n]} :: 0 <= n < |was| ==> nodes[n] == was[n].(mark := n in extroots[..i])
      {
        assert extroots[i] in extroots;
        nodes := nodes[extroots[i] := nodes[extroots[i]].(mark := true)];
        i := i + 1;
      }
      assert extroots[..i] == extroots;
      var n := 2;
      while n < |nodes|
        invariant 2 <= n <= |nodes| == |was| && Returned(was, var2level, ext, nodes, n)
      {
        if nodes[n].mark {
          nodes := nodes[n := nodes[n].(mark := false)];
        } else {
          nodes := nodes[n := nodes[n].(refcou := 0)];
        }
        nodes := nodes[n := nodes[n].(level := var2level[nodes[n].level])];
        n := n + 1;
      }
    }

    /** The first loop of mark_roots: from levels to variables; what is referenced is marked. */
    method ToVariables()
      requires 2 <= |nodes|
      requires forall n {:trigger nodes[n]} :: 0 <= n < |nodes| ==> nodes[n].level < |level2var| && !nodes[n].mark
      modifies this`nodes
      ensures Relevelled(old(nodes), level2var, nodes, |nodes|)
    {
      var n := 2;
      while n < |nodes|
        invariant Relevelled(old(nodes), level2var, nodes, n)
      {
        nodes := nodes[n := nodes[n].(level := level2var[nodes[n].level])];
        if nodes[n].refcou > 0 {
          nodes := nodes[n := nodes[n].(mark := true)];
        }
        n := n + 1;
      }
    }

    /**
      addref_rec: r gets one reference; when it is the first one, r is counted
      in the row of its variable and its children get theirs. The variables met
      go to dep; of a node that was met before, all that its row has.
      (bddfreenum, which the source counts down here, is computed anew by
      reorder_gbc.)
    */
    method AddRefRec(r: nat, dep: array<bool>, ghost g0: Graph, ghost lev: Order, ghost done: set<nat>, ghost act: set<nat>, ghost counted: multiset<nat>)
      returns (ghost done2: set<nat>)
      requires Tally(nodes, levels, g0, ext, done, act, counted) && Wf(g0, lev) && |lev| == |levels| + 1 && Node(g0, r)
      requires ActAbove(g0, lev, act, LevelIn(g0, lev, r)) && LevelIn(g0, lev, r) <= |lev|
      requires dep.Length == |levels| && Interaction.Square(iactmtx, |levels|)
      modifies this`nodes, this`levels, dep
      ensures Tally(nodes, levels, g0, ext, done2, act, counted + multiset{r})
      ensures AddedBelow(g0, lev, ext, done, done2, LevelIn(g0, lev, r))
      ensures OnlyCounts(old(nodes), nodes) && |levels| == |old(levels)|
      ensures Walked(done2, dep[..]) == Interaction.Visit(g0, lev, ext.Keys, iactmtx, Walked(done, old(dep[..])), r)
      decreases |lev| - LevelIn(g0, lev, r), 1
    {
      hide Tally, Wf, ActAbove, AddedBelow, OnlyCounts, LevelIn, Met, Walked, Interaction.Row, Interaction.Square,
        Interaction.Visit, Interaction.VisitChildren;
      WalkedOver(done, dep[..]);
      done2 := done;
      AddedNothing(g0, lev, ext, done, LevelIn(g0, lev, r));
      OnlyCountsSame(nodes);
      if r < 2 {
        ConstantOut(g0, lev, r);
        Interaction.VisitConstant(g0, lev, ext.Keys, iactmtx, Walked(done, dep[..]), r);
        CountConstant(nodes, levels, g0, ext, done, act, counted, r);
        return;
      }
      AtNode(nodes, levels, g0, lev, ext, done, act, counted, r);
      if nodes[r].refcou == 0 {
        ActDeeper(g0, lev, act, r, LevelIn(g0, lev, g0[r].low));
        ActDeeper(g0, lev, act, r, LevelIn(g0, lev, g0[r].high));
        Enter(nodes, levels, g0, ext, done, act, counted, r);
        Interaction.VisitNew(g0, lev, ext.Keys, iactmtx, Walked(done, dep[..]), r);
        WalkedOne(done, dep[..], nodes[r].level);
        dep[nodes[r].level] := true;
        assert dep[..] == old(dep[..])[nodes[r].level := true];
        levels := OneMore(levels, nodes[r].level);
        done2 := Children(r, dep, g0, lev, done, act + {r}, counted);
        Leave(nodes, levels, g0, ext, done2, act + {r}, counted, r);
        assert act + {r} - {r} == act;
        AddedOne(g0, lev, ext, done, done2, r);
        WalkedDone(done2, dep[..], r);
        done2 := done2 + {r};
      } else {
        CountMet(nodes, levels, g0, ext, done, act, counted, r);
        MetSeen(ext, done, r);
        Interaction.VisitMet(g0, lev, ext.Keys, iactmtx, Walked(done, dep[..]), r);
        JoinRow(dep, nodes[r].level, done);
      }
      OnlyCountsInc(old(nodes), nodes, r);
      IncRef(r);
    }

    /** dep[n] |= imatrixDepends(iactmtx, v, n), for all n. */
    method JoinRow(dep: array<bool>, v: nat, ghost done: set<nat>)
      requires dep.Length == |levels| && Interaction.Square(iactmtx, |levels|) && v < |levels|
      modifies dep
      ensures var w := Walked(done, old(dep[..])); Walked(done, dep[..]) == w.(dep := w.dep + Interaction.Row(iactmtx, v))
    {
      var n := 0;
      while n < dep.Length
        invariant n <= dep.Length
        invariant forall i {:trigger dep[i]} :: 0 <= i < dep.Length ==> dep[i] == (old(dep[i]) || (i < n && iactmtx[v][i]))
      {
        dep[n] := dep[n] || iactmtx[v][n];
        n := n + 1;
      }
      assert Walked(done, dep[..]).dep == Walked(done, old(dep[..])).dep + Interaction.Row(iactmtx, v);
    }

    /** addDependencies: any two variables of dep interact. */
    method AddDependencies(dep: array<bool>)
      requires Interaction.Square(iactmtx, dep.Length)
      modifies this`iactmtx
      ensures iactmtx == Interaction.WithPairs(old(iactmtx), Interaction.VarsOf(dep[..]))
      ensures Interaction.Square(iactmtx, dep.Length)
    {
      ghost var mtx := iactmtx;
      var n := 0;
      while n < dep.Length
        invariant n <= dep.Length && Interaction.Square(iactmtx, dep.Length)
        invariant forall x, y {:trigger iactmtx[x][y]} :: 0 <= x < dep.Length && 0 <= y < dep.Length ==>
                    iactmtx[x][y] == (mtx[x][y] || ((x < n || y < n) && dep[x] && dep[y]))
      {
        DependenciesOf(dep, n, mtx);
        n := n + 1;
      }
      Interaction.PairsAre(mtx, dep[..], iactmtx);
    }

    /** The inner loop of addDependencies. */
    method DependenciesOf(dep: array<bool>, n: nat, ghost mtx: Matrix)
      requires Interaction.Square(iactmtx, dep.Length) && Interaction.Square(mtx, dep.Length) && n < dep.Length
      requires forall x, y {:trigger iactmtx[x][y]} :: 0 <= x < dep.Length && 0 <= y < dep.Length ==>
                 iactmtx[x][y] == (mtx[x][y] || ((x < n || y < n) && dep[x] && dep[y]))
      modifies this`iactmtx
      ensures Interaction.Square(iactmtx, dep.Length)
      ensures forall x, y {:trigger iactmtx[x][y]} :: 0 <= x < dep.Length && 0 <= y < dep.Length ==>
                iactmtx[x][y] == (mtx[x][y] || ((x < n + 1 || y < n + 1) && dep[x] && dep[y]))
    {
      var m := n;
      while m < dep.Length
        invariant n <= m <= dep.Length && Interaction.Square(iactmtx, dep.Length)
        invariant forall x, y {:trigger iactmtx[x][y]} :: 0 <= x < dep.Length && 0 <= y < dep.Length ==>
                    iactmtx[x][y] == (mtx[x][y] || ((x < n || y < n || (x == n && y < m) || (y == n && x < m)) && dep[x] && dep[y]))
      {
        if dep[n] && dep[m] {
          iactmtx := iactmtx[n := iactmtx[n][m := true]];
          iactmtx := iactmtx[m := iactmtx[m][n := true]];
        }
        m := m + 1;
      }
    }

    /** Both edges of r are followed. */
    method Children(r: nat, dep: array<bool>, ghost g0: Graph, ghost lev: Order, ghost done: set<nat>, ghost act: set<nat>, ghost counted: multiset<nat>)
      returns (ghost done2: set<nat>)
      requires Tally(nodes, levels, g0, ext, done, act, counted) && Wf(g0, lev) && |lev| == |levels| + 1 && r in g0
      requires ActAbove(g0, lev, act, LevelIn(g0, lev, g0[r].low)) && ActAbove(g0, lev, act, LevelIn(g0, lev, g0[r].high))
      requires dep.Length == |levels| && Interaction.Square(iactmtx, |levels|)
      modifies this`nodes, this`levels, dep
      ensures Tally(nodes, levels, g0, ext, done2, act, counted + multiset{g0[r].low} + multiset{g0[r].high})
      ensures AddedBelow(g0, lev, ext, done, done2, LevelIn(g0, lev, r))
      ensures OnlyCounts(old(nodes), nodes) && |levels| == |old(levels)|
      ensures Walked(done2, dep[..]) == Interaction.VisitChildren(g0, lev, ext.Keys, iactmtx, Walked(done, old(dep[..])), r)
      decreases |lev| - LevelIn(g0, lev, r), 0
    {
      hide Tally, Wf, ActAbove, AddedBelow, OnlyCounts, LevelIn, Met, Walked, Interaction.Visit, Interaction.Square;
      AtNode(nodes, levels, g0, lev, ext, done, act, counted, r);
      ghost var done1 := AddRefRec(nodes[r].low, dep, g0, lev, done, act, counted);
      ghost var middle := nodes;
      AtNode(nodes, levels, g0, lev, ext, done1, act, counted + multiset{g0[r].low}, r);
      done2 := AddRefRec(nodes[r].high, dep, g0, lev, done1, act, counted + multiset{g0[r].low});
      OnlyCountsTrans(old(nodes), middle, nodes);
      AddedBoth(g0, lev, ext, done, done1, done2, LevelIn(g0, lev, r), LevelIn(g0, lev, g0[r].low), LevelIn(g0, lev, g0[r].high));
    }

    /** One root of mark_roots. */
    method FollowRoot(n: nat, ghost g0: Graph, ghost lev: Order, ghost done: set<nat>) returns (ghost done2: set<nat>)
      requires RootLoop(nodes, levels, g0, ext, done, extroots, n) && n < |nodes| && nodes[n].mark && Wf(g0, lev) && |lev| == |levels| + 1
      requires Interaction.Square(iactmtx, |levels|)
      modifies this`nodes, this`levels, this`extroots, this`iactmtx
      ensures |levels| == |old(levels)| && |nodes| == |old(nodes)|
      ensures RootLoop(nodes, levels, g0, ext, done2, extroots, n + 1)
      ensures n in g0 && n in ext && Interaction.Square(iactmtx, |levels|)
      ensures Interaction.Progress(done2, iactmtx) == Interaction.FollowOne(g0, lev, ext.Keys, Interaction.Progress(done, old(iactmtx)), n)
    {
      hide RootLoop, Tally, Wf, ActAbove, AddedBelow, OnlyCounts, LevelIn, Met, RootStep, Interaction.VisitChildren, Interaction.Square;
      ghost var nodes0, levels0 := nodes, levels;
      RootEnter(nodes, levels, g0, lev, ext, done, extroots, n);
      nodes := nodes[n := nodes[n].(mark := false)];
      ghost var roots0 := extroots;
      extroots := extroots + [n];
      var dep := new bool[|levels|](_ => false);
      dep[nodes[n].level] := true;
      levels := OneMore(levels, nodes[n].level);
      AtNode(nodes, levels, g0, lev, ext, done, {n}, multiset{}, n);
      WalkedFirst(done, dep[..], g0[n].v);
      ActNone(g0, lev, LevelIn(g0, lev, n));
      ActDeeper(g0, lev, {}, n, LevelIn(g0, lev, g0[n].low));
      ActDeeper(g0, lev, {}, n, LevelIn(g0, lev, g0[n].high));
      assert {} + {n} == {n};
      done2 := Children(n, dep, g0, lev, done, {n}, multiset{});
      Leave(nodes, levels, g0, ext, done2, {n}, multiset{}, n);
      assert {n} - {n} == {};
      RootDone(nodes0, levels0, g0, lev, ext, done, roots0, n, nodes, levels, done2);
      AddDependencies(dep);
      nodes := nodes[n := nodes[n].(hash := 0)];
      done2 := done2 + {n};
    }

    /** mark_roots: every root is listed, all that a root needs is counted, and the matrix is filled in. */
    method MarkRoots(ghost g0: Graph) returns (ghost done: set<nat>)
      requires 0 < |level2var| && Before(nodes, g0, ext, var2level, level2var, |level2var| - 1) && levels == NoCounts(|level2var| - 1)
      modifies this`nodes, this`levels, this`extroots, this`iactmtx
      ensures RootLoop(nodes, levels, g0, ext, done, extroots, |nodes|)
      ensures |nodes| == |old(nodes)| && |levels| == |level2var| - 1 && 2 <= |nodes| && nodes[0].hash == nodes[1].hash == 0
      ensures Wf(g0, var2level) && iactmtx == Interaction.Interactions(g0, var2level, ext.Keys, |nodes|)
    {
      hide Before, RootLoop, Relevelled, Tally, Wf, Interaction.FollowOne, Interaction.Following, Interaction.Square;
      BeforeFacts(nodes, g0, ext, var2level, level2var, |level2var| - 1);
      ToVariables();
      RootStart(old(nodes), g0, ext, var2level, level2var, |level2var| - 1, nodes);
      extroots := [];
      iactmtx := Interaction.Blank(|level2var| - 1);
      Interaction.BlankSquare(|level2var| - 1);
      done := {};
      Interaction.FollowedStart(g0, var2level, ext.Keys);
      var n := 2;
      while n < |nodes|
        invariant n <= |nodes| == |old(nodes)| && |levels| == |level2var| - 1 && Interaction.Square(iactmtx, |levels|)
        invariant RootLoop(nodes, levels, g0, ext, done, extroots, n)
        invariant Interaction.Progress(done, iactmtx) == Interaction.Following(g0, var2level, ext.Keys, n)
      {
        if nodes[n].mark {
          done := FollowRoot(n, g0, var2level, done);
          Interaction.FollowedOne(g0, var2level, ext.Keys, n + 1);
        } else {
          NoRoot(nodes, levels, g0, ext, done, extroots, n);
          Interaction.FollowedNone(g0, var2level, ext.Keys, n + 1);
          RootSkip(nodes, levels, g0, ext, done, extroots, n);
          nodes := nodes[n := nodes[n].(hash := 0)];
        }
        n := n + 1;
      }
      RootHeads(nodes, levels, g0, ext, done, extroots);
      nodes := nodes[0 := nodes[0].(hash := 0)];
      nodes := nodes[1 := nodes[1].(hash := 0)];
    }

    /**
      reorder_gbc: what is referenced is linked into its sub-table, every other
      slot becomes free.
    */
    method ReorderGbc()
      requires Tables(levels, |nodes|) && Spreads(hash) && Constants(nodes, |levels|) && SessionState.Recorded(nodes, g, |levels|)
      requires forall m {:trigger nodes[m]} :: 0 <= m < |nodes| ==> nodes[m].hash == 0 && nodes[m].level <= |levels| && !nodes[m].mark
      requires forall m {:trigger nodes[m]} :: 2 <= m < |nodes| ==> (nodes[m].refcou > 0 <==> m in g)
      modifies this`nodes, this`lists, this`place, this`freepos, this`freenum
      ensures Sound(Now(), hash) && AtRest(Now()) && SameRefs(old(nodes), nodes)
    {
      hide Tables, Spreads, SessionState.Recorded, Resorting;
      ResortStart(nodes, levels, g, hash);
      assert 2 <= |nodes|;
      hide Constants;
      freepos, freenum := 0, 0;
      lists, place := NoLists(|nodes|), map[];
      var n := |nodes| - 1;
      while n >= 2
        invariant 1 <= n < |nodes| == |old(nodes)| && Resorting(old(nodes), Now(), hash, n + 1)
      {
        if nodes[n].refcou > 0 {
          ResortLink(old(nodes), Now(), hash, n);
          var b := hash(levels[nodes[n].level], nodes[n].low, nodes[n].high);
          ghost var t := Inserted(Now(), b, n);
          nodes := nodes[n := nodes[n].(next := nodes[b].hash)];
          nodes := nodes[b := nodes[b].(hash := n)];
          lists, place := t.lists, t.place;
        } else {
          ResortFree(old(nodes), Now(), hash, n);
          ghost var t := Reclaim(Now(), n);
          nodes := nodes[n := nodes[n].(low := -1, next := freepos)];
          freepos := n;
          freenum := freenum + 1;
          lists, place := t.lists, t.place;
        }
        n := n - 1;
      }
      ResortEnd(old(nodes), Now(), hash);
    }

    /** INCREF. */
    method IncRef(n: nat)
      requires n < |nodes|
      modifies this`nodes
      ensures nodes == old(nodes)[n := old(nodes)[n].(refcou := Inc(old(nodes)[n].refcou))]
    {
      if nodes[n].refcou < MAXREF {
        nodes := nodes[n := nodes[n].(refcou := nodes[n].refcou + 1)];
      }
    }

    /** INCREF of a node whose new parent is about to be written. */
    method Refer(r: nat)
      requires Steady(Now(), hash, ext, pend) && Node(g, r)
      modifies this`nodes, this`pend
      ensures Steady(Now(), hash, ext, pend) && pend == old(pend) + multiset{r} && Same(old(Now()), Now()) && Slow(old(nodes), nodes, 1)
    {
      hide Steady, Same, Slow;
      CountSteady(Now(), hash, ext, pend, r);
      SlowInc(nodes, r);
      IncRef(r);
      pend := pend + multiset{r};
    }

    /** DECREF. */
    method DecRef(n: nat)
      requires n < |nodes|
      modifies this`nodes
      ensures nodes == old(nodes)[n := old(nodes)[n].(refcou := Dec(old(nodes)[n].refcou))]
    {
      if nodes[n].refcou != MAXREF && nodes[n].refcou > 0 {
        nodes := nodes[n := nodes[n].(refcou := nodes[n].refcou - 1)];
      }
    }

    /** node->next = bddnodes[b].hash; bddnodes[b].hash = r */
    method Insert(b: nat, r: nat)
      requires Sound(Now(), hash) && r in g && r !in place && g[r].v < |levels| && b == BucketOf(g[r], levels, hash)
      modifies this`nodes, this`lists, this`place
      ensures b < |old(nodes)| && r < |old(nodes)| && Bucket(b) in old(lists)
      ensures Now() == Inserted(old(Now()), b, r) && Sound(Now(), hash)
      ensures Slow(old(nodes), nodes, 0)
    {
      hide Sound;
      InsertSound(Now(), hash, r);
      nodes := nodes[r := nodes[r].(next := nodes[b].hash)];
      nodes := nodes[b := nodes[b].(hash := r)];
      lists, place := Pushed(lists, Bucket(b), r), place[r := (Bucket(b), |lists[Bucket(b)]|)];
    }

    /** bdd_noderesize(0): new slots, no rehashing. */
    method NodeResize()
      requires Sound(Now(), hash) && |nodes| < largerSize(|nodes|)
      modifies this`nodes, this`lists, this`place, this`freepos, this`freenum
      ensures |old(nodes)| < |nodes| == largerSize(|old(nodes)|) && Free in old(lists)
      ensures Now() == Grown(old(Now()), |nodes|) && Sound(Now(), hash)
      ensures freepos != 0
      ensures Slow(old(nodes), nodes, 0)
    {
      hide Sound, Grown, GrownNodes;
      ghost var s := Now();
      var oldsize, size := |nodes|, largerSize(|nodes|);
      GrownFields(s, hash, size);
      GrowSound(s, hash, size);
      nodes := NewSlots(nodes, freepos, size);
      freepos := oldsize;
      freenum := freenum + size - oldsize;
      lists, place := Grown(s, size).lists, Grown(s, size).place;
    }

    /** r = bddfreepos; bddfreepos = bddnodes[r].next; and the fields of a new node. */
    method Allocate(v: nat, low: nat, high: nat) returns (r: nat)
      requires Sound(Now(), hash) && freepos != 0 && v < |levels|
      modifies this`nodes, this`lists, this`place, this`g, this`freepos, this`freenum
      ensures r == old(freepos) && 2 <= r < |old(nodes)| && Free in old(lists) && old(lists)[Free] != [] && 0 < old(freenum)
      ensures r !in old(g) && r in old(place) && old(place)[r].0 == Free
      ensures Now() == Allocated(old(Now()), Inner(v, low, high)) && Sound(Now(), hash)
    {
      hide Sound;
      AllocateSound(Now(), hash, Inner(v, low, high));
      r := freepos;
      freepos := nodes[r].next;
      freenum := freenum - 1;
      nodes := nodes[r := nodes[r].(level := v, low := low, high := high, refcou := 1)];
      g := g[r := Inner(v, low, high)];
      lists, place := Popped(lists, Free), place - {r};
    }

    /**
      The chain walk of reorder_makenode. Only the children are compared, and
      that is enough: a chain holds nodes of one variable.
    */
    method Lookup(v: nat, low: nat, high: nat) returns (res: nat)
      requires Sound(Now(), hash) && v < |levels|
      ensures res != 0 ==> Chained(g, place, res) && g[res] == Inner(v, low, high)
      ensures res == 0 ==> forall n {:trigger n in g} :: Chained(g, place, n) ==> g[n] != Inner(v, low, high)
    {
      hide Sound, Row, Head;
      ghost var s := Now();
      var i := Inner(v, low, high);
      var b := BucketOf(i, levels, hash);
      TableFacts(s, hash, v);
      BucketFacts(s, hash, b);
      ghost var c := lists[Bucket(b)];
      HeadPrev(lists, Bucket(b));
      res := nodes[b].hash;
      ghost var k: nat := |c|;
      while res != 0
        invariant k <= |c| && res == Prev(c, k)
        invariant forall j {:trigger c[j]} :: k <= j < |c| ==> c[j] in g && g[c[j]] != i
        decreases k
      {
        EntryFacts(s, hash, Bucket(b), k - 1);
        NodeFacts(s, hash, res);
        OneVariablePerBucket(s, hash, i, g[res]);
        if nodes[res].low == low && nodes[res].high == high {
          return;
        }
        res := nodes[res].next;
        k := k - 1;
      }
      assert k == 0 by { if k > 0 { EntryFacts(s, hash, Bucket(b), k - 1); } }
      forall n | Chained(g, place, n) ensures g[n] != i {
        PlaceFacts(s, hash, n);
        EntryFacts(s, hash, place[n].0, place[n].1);
        assert place[n].0 == Bucket(b) ==> c[place[n].1] == n;
      }
    }

    /** reorder_makenode: find or build (v, low, high) and count one reference to it. */
    method MakeNode(v: nat, low: nat, high: nat) returns (res: nat)
      requires Steady(Now(), hash, ext, pend) && Grows(largerSize)
      requires v < |levels| && Node(g, low) && Node(g, high)
      requires forall n {:trigger n in g} :: n in g && g[n] == Inner(v, low, high) ==> Chained(g, place, n)
      modifies this`nodes, this`lists, this`place, this`freepos, this`freenum, this`levels, this`g, this`pend, this`resizedInMakenode
      ensures Steady(Now(), hash, ext, pend) && pend == old(pend) + multiset{res}
      ensures Made(old(Now()), Now(), Inner(v, low, high), res)
      ensures Slow(old(nodes), nodes, 1)
    {
      hide Steady, Same, Slow, Sound, Refs, Rows, Row;
      ghost var s := Now();
      var i := Inner(v, low, high);
      MadeNothing(s, hash, ext, pend);
      if low == high {
        Refer(low);
        return low;
      }
      res := Lookup(v, low, high);
      if res != 0 {
        Refer(res);
        return;
      }
      SlowNothing(nodes);
      if freepos == 0 {
        GrowSteady(s, hash, ext, pend, largerSize(|nodes|));
        NodeResize();
        resizedInMakenode := true;
      }
      ghost var s1 := Now();
      res := Build(v, low, high);
      SlowTrans(s.nodes, s1.nodes, 0, nodes, 1);
      MadeCompose(s, s1, Now(), i, res);
    }

    /** A new node, counted in its row and linked. */
    method Place(v: nat, low: nat, high: nat) returns (res: nat)
      requires Steady(Now(), hash, ext, pend) && freepos != 0 && v < |levels|
      modifies this`nodes, this`lists, this`place, this`freepos, this`freenum, this`levels, this`g
      ensures Sound(Now(), hash) && res == old(freepos) && 2 <= res < |old(nodes)| == |nodes| && res !in old(g) && nodes[res].refcou == 1
      ensures forall m {:trigger nodes[m]} :: 0 <= m < |nodes| && m != res ==> nodes[m].refcou == old(nodes)[m].refcou
      ensures g == old(g)[res := Inner(v, low, high)] && SamePlaces(old(g), old(place), place) && Chained(g, place, res)
      ensures v < |old(levels)| && levels == old(levels)[v := old(levels)[v].(nodenum := old(levels)[v].nodenum + 1)]
      ensures Todo in old(lists) && Hand in old(lists) && Todo in lists && Hand in lists
      ensures lists[Todo] == old(lists)[Todo] && lists[Hand] == old(lists)[Hand]
    {
      hide Sound, Refs, Rows, Row, SamePlaces, Sticky, Allocated, Inserted, Slow;
      ghost var s1 := Now();
      var i := Inner(v, low, high);
      res := Allocate(v, low, high);
      AllocatedFields(s1, i);
      NodenumSound(Now(), hash, v, levels[v].nodenum + 1);
      levels := levels[v := levels[v].(nodenum := levels[v].nodenum + 1)];
      ghost var s3 := Now();
      assert s3 == Allocated(s1, i).(levels := levels);
      Insert(hash(levels[v], low, high), res);
      ghost var s4 := Now();
      assert s4 == Inserted(s3, BucketOf(i, levels, hash), res);
      InsertedFields(s3, BucketOf(i, levels, hash), res);
      BucketFacts(s1, hash, BucketOf(i, levels, hash));
      NewNodes(s1, hash, ext, pend, i, s4, hash(levels[v], low, high));
    }

    /** The end of reorder_makenode: a new node, linked, and one more reference to each child. */
    method Build(v: nat, low: nat, high: nat) returns (res: nat)
      requires Steady(Now(), hash, ext, pend) && freepos != 0
      requires v < |levels| && Node(g, low) && Node(g, high) && low != high
      modifies this`nodes, this`lists, this`place, this`freepos, this`freenum, this`levels, this`g, this`pend
      ensures Steady(Now(), hash, ext, pend) && pend == old(pend) + multiset{res}
      ensures 2 <= res && res !in old(g) && g == old(g)[res := Inner(v, low, high)] && Chained(g, place, res)
      ensures Same(old(Now()), Now()) && Slow(old(nodes), nodes, 1)
    {
      hide Sound, Refs, Rows, Row, SamePlaces, Sticky, Slow;
      ghost var s1 := Now();
      RefRange(s1, hash, ext, pend, low);
      RefRange(s1, hash, ext, pend, high);
      res := Place(v, low, high);
      ghost var s4 := Now();
      IncRef(low);
      IncRef(high);
      pend := pend + multiset{res};
      SlowBuilt(s1, hash, ext, old(pend), res, Inner(v, low, high), s4.nodes, nodes);
      NewSteady(s1, hash, ext, old(pend), Inner(v, low, high), s4, Now());
    }

    /** r = bddnodes[b].hash; bddnodes[b].hash = 0: the whole chain is now in hand. */
    method Detach(b: nat) returns (r: nat)
      requires Sound(Now(), hash) && b < |nodes| && Hand in lists && lists[Hand] == []
      modifies this`nodes, this`lists, this`place
      ensures Bucket(b) in old(lists) && Now() == Detached(old(Now()), b) && r == old(nodes)[b].hash
      ensures Slow(old(nodes), nodes, 0)
    {
      hide Sound;
      BucketFacts(Now(), hash, b);
      ghost var t := Detached(Now(), b);
      r := nodes[b].hash;
      nodes := nodes[b := nodes[b].(hash := 0)];
      lists, place := t.lists, t.place;
    }

    /** node->next = toBeProcessed; toBeProcessed = r */
    method Save(toBeProcessed: nat, r: nat)
      requires Sound(Now(), hash) && r in g && r !in place && Todo in lists && toBeProcessed == Head(lists, Todo)
      modifies this`nodes, this`lists, this`place
      ensures r < |old(nodes)| && Todo in old(lists) && Now() == Saved(old(Now()), r)
      ensures Slow(old(nodes), nodes, 0)
    {
      hide Sound;
      NodeFacts(Now(), hash, r);
      ghost var t := Saved(Now(), r);
      nodes := nodes[r := nodes[r].(next := toBeProcessed)];
      lists, place := t.lists, t.place;
    }

    /**
      reorder_downSimple: the nodes of var0 that have a child of the next
      variable are put on a list of their own, the others stay chained.
    */
    method DownSimple(var0: nat, var1: nat) returns (toBeProcessed: nat)
      requires Steady(Now(), hash, ext, multiset{}) && AtRest(Now()) && var0 < |levels| && var1 < |levels|
      modifies this`nodes, this`lists, this`place, this`levels
      ensures Steady(Now(), hash, ext, multiset{}) && Split(Now(), var0, var1)
      ensures Todo in lists && toBeProcessed == Head(lists, Todo) && Hand in lists && lists[Hand] == []
      ensures SameTables(old(levels), levels) && Sticky(old(nodes), g, nodes)
      ensures Slow(old(nodes), nodes, 0)
    {
      hide Sound, Refs, Rows, Row, Sorted, Split, Sticky, SameTables, Sorting, HandFrom, Slow;
      ghost var s := Now();
      var vl0, size0 := levels[var0].start, levels[var0].size;
      levels := levels[var0 := levels[var0].(nodenum := 0)];
      SortSetup(s, Now(), hash, ext, var0, var1);
      toBeProcessed := 0;
      SlowNothing(nodes);
      var n := 0;
      while n < size0
        invariant n <= size0 && SortLoop(s, Now(), hash, ext, var0, var1, vl0 + n, toBeProcessed)
        invariant lists[Hand] == [] && Slow(s.nodes, nodes, 0)
      {
        SortDetachLoop(s, Now(), hash, ext, var0, var1, vl0 + n, toBeProcessed);
        ghost var nodes1 := nodes;
        var r := Detach(vl0 + n);
        SlowTrans(s.nodes, nodes1, 0, nodes, 0);
        while r != 0
          invariant SortLoop(s, Now(), hash, ext, var0, var1, vl0 + n + 1, toBeProcessed)
          invariant r == Head(lists, Hand) && Slow(s.nodes, nodes, 0)
          decreases |lists[Hand]|
        {
          ghost var nodes2 := nodes;
          r, toBeProcessed := SortNode(s, var0, var1, vl0 + n, r, toBeProcessed);
          SlowTrans(s.nodes, nodes2, 0, nodes, 0);
        }
        HeadZero(Now(), hash, ext, var0, var1, vl0 + n + 1);
        n := n + 1;
      }
      SortOver(s, Now(), hash, ext, var0, var1, toBeProcessed);
    }

    /** One step of the inner loop of reorder_downSimple: node r is the head of the detached chain of bucket b. */
    method SortNode(ghost s: State, var0: nat, var1: nat, b: nat, r: nat, toBeProcessed: nat) returns (next: nat, todo: nat)
      requires SortLoop(s, Now(), hash, ext, var0, var1, b + 1, toBeProcessed)
      requires r == Head(lists, Hand) && r != 0 && var1 < |levels|
      modifies this`nodes, this`lists, this`place, this`levels
      ensures SortLoop(s, Now(), hash, ext, var0, var1, b + 1, todo)
      ensures next == Head(lists, Hand) && |lists[Hand]| < |old(lists)[Hand]|
      ensures Slow(old(nodes), nodes, 0)
    {
      hide Sound, Refs, Row, Sorted, SameTables, Sticky, Sorting, Inserted, Saved, HandFrom, Closed, SameButLinks, Slow;
      ghost var s1 := Now();
      HandHead(s1, hash, ext, var0, var1, b);
      SortDepends(s1, hash, r, var0, var1);
      next := nodes[r].next;
      todo := toBeProcessed;
      var low, high := nodes[r].low, nodes[r].high;
      if nodes[low].level != var1 && nodes[high].level != var1 {
        SortStay(s1, hash, ext, var0, var1, b + 1);
        TakeSound(s1, hash, Hand);
        lists, place := Popped(lists, Hand), place - {r};
        Insert(b, r);
        levels := levels[var0 := levels[var0].(nodenum := levels[var0].nodenum + 1)];
      } else {
        SortSave(s1, hash, ext, var0, var1, b + 1);
        TakeSound(s1, hash, Hand);
        lists, place := Popped(lists, Hand), place - {r};
        Save(toBeProcessed, r);
        todo := r;
      }
      SortNext(s, s1, Now(), hash, ext, var0, var1, b, toBeProcessed);
    }

    /** The cofactors of f by var1, read off the records. */
    method Cofactors(f: nat, var1: nat) returns (f0: nat, f1: nat)
      requires Sound(Now(), hash) && Node(g, f) && var1 < |levels|
      ensures f0 == Cof(g, f, var1, false) && f1 == Cof(g, f, var1, true)
    {
      hide Sound;
      ConstantFacts(Now(), hash);
      if f in g { NodeFacts(Now(), hash, f); }
      if nodes[f].level == var1 {
        f0, f1 := nodes[f].low, nodes[f].high;
      } else {
        f0, f1 := f, f;
      }
    }

    /** One step of reorder_swap: the waiting node p is rewritten in place and rehashed. */
    method SwapNode(ghost s0: State, ghost lev: Order, var0: nat, var1: nat, p: nat) returns (next: nat)
      requires SwapLoop(s0, Now(), hash, ext, lev, var0, var1) && pend == multiset{} && Grows(largerSize)
      requires p == Head(lists, Todo) && p != 0
      modifies this`nodes, this`lists, this`place, this`freepos, this`freenum, this`levels, this`g, this`pend, this`resizedInMakenode
      ensures SwapLoop(s0, Now(), hash, ext, lev, var0, var1) && pend == multiset{}
      ensures next == Head(lists, Todo) && |lists[Todo]| < |old(lists)[Todo]|
      ensures Slow(old(nodes), nodes, 2)
    {
      hide Sound, Refs, Rows, Row, Swapping, Same, SwapMid, SwapLoop, IsMk, Slow;
      SwapTake(s0, Now(), hash, ext, lev, var0, var1);
      next := nodes[p].next;
      lists, place := Popped(lists, Todo), place - {p};
      var f0, f1 := MakeBoth(s0, lev, var0, var1, p);
      ghost var nodes1 := nodes;
      Rewrite(s0, lev, var0, var1, p, f0, f1);
      SlowTrans(old(nodes), nodes1, 2, nodes, 0);
    }

    /** The two new children of node p. */
    method MakeBoth(ghost s0: State, ghost lev: Order, var0: nat, var1: nat, p: nat) returns (f0: nat, f1: nat)
      requires SwapMid(s0, Now(), lev, var0, var1, p, {}) && Steady(Now(), hash, ext, pend) && pend == multiset{} && Grows(largerSize)
      modifies this`nodes, this`lists, this`place, this`freepos, this`freenum, this`levels, this`g, this`pend, this`resizedInMakenode
      ensures SwapMid(s0, Now(), lev, var0, var1, p, {f0, f1}) && Steady(Now(), hash, ext, pend) && pend == multiset{f0, f1}
      ensures p in s0.g
      ensures IsMk(g, f0, var0, Cof(s0.g, s0.g[p].low, var1, false), Cof(s0.g, s0.g[p].high, var1, false))
      ensures IsMk(g, f1, var0, Cof(s0.g, s0.g[p].low, var1, true), Cof(s0.g, s0.g[p].high, var1, true))
      ensures Todo in old(lists) && Todo in lists && lists[Todo] == old(lists)[Todo] && Slow(old(nodes), nodes, 2)
    {
      hide Sound, Refs, Rows, Row, Swapping, Same, SwapMid, IsMk, Slow;
      ghost var s1 := Now();
      MidCofactors(s0, s1, lev, var0, var1, p, {}, false);
      MidCofactors(s0, s1, lev, var0, var1, p, {}, true);
      MidNode(s0, s1, hash, lev, var0, var1, p, {});
      var low, high := nodes[p].low, nodes[p].high;
      var f00, f01 := Cofactors(low, var1);
      var f10, f11 := Cofactors(high, var1);
      f0 := MakeNode(var0, f00, f10);
      ghost var s2 := Now();
      MidMake(s0, s1, s2, lev, var0, var1, p, {}, false, f0);
      MidCofactors(s0, s2, lev, var0, var1, p, {} + {f0}, true);
      f1 := MakeNode(var0, f01, f11);
      ghost var s3 := Now();
      MidMake(s0, s2, s3, lev, var0, var1, p, {} + {f0}, true, f1);
      MadeKeeps(s2, s3, Inner(var0, f01, f11), f1, f0, Inner(var0, f00, f10));
      assert {} + {f0} + {f1} == {f0, f1} && pend == multiset{f0, f1};
      SlowTrans(s1.nodes, s2.nodes, 1, s3.nodes, 1);
    }

    /** Update in-place: the references move from the old children of p to the new ones, and p is rehashed. */
    method Rewrite(ghost s0: State, ghost lev: Order, ghost var0: nat, var1: nat, p: nat, f0: nat, f1: nat)
      requires SwapMid(s0, Now(), lev, var0, var1, p, {f0, f1}) && Steady(Now(), hash, ext, pend) && pend == multiset{f0, f1}
      requires p in s0.g
      requires IsMk(g, f0, var0, Cof(s0.g, s0.g[p].low, var1, false), Cof(s0.g, s0.g[p].high, var1, false))
      requires IsMk(g, f1, var0, Cof(s0.g, s0.g[p].low, var1, true), Cof(s0.g, s0.g[p].high, var1, true))
      modifies this`nodes, this`lists, this`place, this`levels, this`g, this`pend
      ensures SwapLoop(s0, Now(), hash, ext, lev, var0, var1) && pend == multiset{}
      ensures Todo in old(lists) && Todo in lists && lists[Todo] == old(lists)[Todo] && Slow(old(nodes), nodes, 0)
    {
      hide Sound, Refs, Rows, SwapMid, SwapLoop, IsMk, Inserted, Slow;
      ghost var s3 := Now();
      MidNode(s0, s3, hash, lev, var0, var1, p, {f0, f1});
      var low, high := nodes[p].low, nodes[p].high;
      DecRef(low);
      DecRef(high);
      GivenUpSound(s3, hash, low, high);
      ghost var s4 := Now();
      SlowSame(s3.nodes, nodes);
      Rekey(var1, p, f0, f1);
      SlowTrans(s3.nodes, s4.nodes, 0, nodes, 0);
      pend := multiset{};
      SwapEnd(s0, s3, s4, Now(), hash, ext, lev, var0, var1, p, f0, f1);
    }

    /** The new contents of p, in the bucket of its new key. */
    method Rekey(var1: nat, p: nat, f0: nat, f1: nat)
      requires Sound(Now(), hash) && p in g && p !in place && var1 < |levels|
      modifies this`nodes, this`lists, this`place, this`levels, this`g
      ensures p < |old(nodes)| && var1 < |old(levels)| && Sound(Now(), hash) && Slow(old(nodes), nodes, 0)
      ensures var s5 := Rehashed(old(Now()), p, Inner(var1, f0, f1));
              var k := BucketOf(Inner(var1, f0, f1), s5.levels, hash);
              k < |s5.nodes| && Bucket(k) in s5.lists && Now() == Inserted(s5, k, p)
    {
      hide Sound, Inserted, Slow;
      ghost var s4 := Now();
      RehashedSound(s4, hash, p, Inner(var1, f0, f1));
      nodes := nodes[p := nodes[p].(level := var1, low := f0, high := f1)];
      g := g[p := Inner(var1, f0, f1)];
      levels := levels[var1 := levels[var1].(nodenum := levels[var1].nodenum + 1)];
      ghost var nodes1 := nodes;
      SlowSame(s4.nodes, nodes1);
      Insert(hash(levels[var1], f0, f1), p);
      SlowTrans(s4.nodes, nodes1, 0, nodes, 0);
    }

    /** reorder_swap: every waiting node is rewritten in place. */
    method Swap(ghost lev: Order, var0: nat, var1: nat, first: nat)
      requires Steady(Now(), hash, ext, multiset{}) && Split(Now(), var0, var1) && pend == multiset{} && Grows(largerSize)
      requires Wf(g, lev) && Unique(g) && |lev| == |levels| + 1
      requires var0 < |levels| && var1 < |levels| && lev[var1] == lev[var0] + 1
      requires Todo in lists && Hand in lists && lists[Hand] == [] && first == Head(lists, Todo)
      modifies this`nodes, this`lists, this`place, this`freepos, this`freenum, this`levels, this`g, this`pend, this`resizedInMakenode
      ensures SwapLoop(old(Now()), Now(), hash, ext, lev, var0, var1) && lists[Todo] == [] && pend == multiset{}
      ensures Slow(old(nodes), nodes, 2 * |old(lists)[Todo]|)
    {
      hide Sound, Refs, Rows, Split, Wf, Unique, Swapping, SameTables, Sticky, Settled, FreshHeld, Slow;
      ghost var s0 := Now();
      SwapStart(s0, hash, ext, lev, var0, var1);
      SlowNothing(nodes);
      ghost var done := 0;
      var toBeProcessed := first;
      while toBeProcessed != 0
        invariant SwapLoop(s0, Now(), hash, ext, lev, var0, var1) && pend == multiset{}
        invariant toBeProcessed == Head(lists, Todo) && Todo in lists
        invariant done + |lists[Todo]| <= |s0.lists[Todo]| && Slow(s0.nodes, nodes, 2 * done)
        decreases |lists[Todo]|
      {
        ghost var nodes1 := nodes;
        toBeProcessed := SwapNode(s0, lev, var0, var1, toBeProcessed);
        SlowTrans(s0.nodes, nodes1, 2 * done, nodes, 2);
        done := done + 1;
      }
      SlowMore(s0.nodes, nodes, 2 * done, 2 * |s0.lists[Todo]|);
      TodoZero(s0, Now(), hash, ext, lev, var0, var1);
    }

    /** One step of the inner loop of reorder_localGbc. */
    method GbcStep(ghost s0: State, ghost lev: Order, ghost var0: nat, var1: nat, b: nat, r: nat) returns (next: nat)
      requires GbcLoop(s0, Now(), hash, ext, lev, var0, var1, b + 1) && r == Head(lists, Hand) && r != 0
      modifies this`nodes, this`lists, this`place, this`freepos, this`freenum, this`levels, this`g
      ensures GbcLoop(s0, Now(), hash, ext, lev, var0, var1, b + 1)
      ensures next == Head(lists, Hand) && |lists[Hand]| < |old(lists)[Hand]|
      ensures Slow(old(nodes), nodes, 0)
    {
      hide Sound, Refs, RowAll, Swapping, Anchored, Dropped, FreshHeld, SameTables, Sticky, GbcNode, HandFrom, Slow;
      ghost var s := Now();
      GbcHead(s, hash, ext, var1, b);
      next := nodes[r].next;
      if nodes[r].refcou > 0 {
        GbcStay(s0, s, hash, ext, lev, var0, var1, b);
        TakeSound(s, hash, Hand);
        lists, place := Popped(lists, Hand), place - {r};
        Insert(b, r);
      } else {
        GbcDrop(s0, s, hash, ext, lev, var0, var1, b);
        DropDead(var1, r);
      }
    }

    /** A dead node gives up its children and its slot. */
    method DropDead(var1: nat, r: nat)
      requires Sound(Now(), hash) && Hand in lists && Free in lists && lists[Hand] != [] && r == Head(lists, Hand)
      requires r in g && r < |nodes| && nodes[r].low == g[r].low < |nodes| && nodes[r].high == g[r].high < |nodes|
      requires nodes[r].refcou == 0 && g[r].low != g[r].high
      requires var1 < |levels| && 0 < levels[var1].nodenum
      modifies this`nodes, this`lists, this`place, this`freepos, this`freenum, this`levels, this`g
      ensures levels == old(levels)[var1 := old(levels)[var1].(nodenum := old(levels)[var1].nodenum - 1)]
      ensures Now() == Reclaimed(old(Now()), r, old(g)[r].low, old(g)[r].high).(levels := levels)
      ensures Slow(old(nodes), nodes, 0)
    {
      hide Sound;
      ghost var s := Now();
      TakeSound(s, hash, Hand);
      lists, place := Popped(lists, Hand), place - {r};
      var low, high := nodes[r].low, nodes[r].high;
      DecRef(low);
      DecRef(high);
      GivenUpSound(Taken(s, Hand), hash, low, high);
      Release(r);
      levels := levels[var1 := levels[var1].(nodenum := levels[var1].nodenum - 1)];
    }

    /** LOWp(node) = -1; node->next = bddfreepos; bddfreepos = r */
    method Release(r: nat)
      requires Sound(Now(), hash) && r in g && r !in place
      modifies this`nodes, this`lists, this`place, this`freepos, this`freenum, this`g
      ensures r < |old(nodes)| && Free in old(lists) && Now() == Released(old(Now()), r)
      ensures Slow(old(nodes), nodes, 0)
    {
      hide Sound;
      ReleaseSound(Now(), hash, r);
      nodes := nodes[r := nodes[r].(low := -1, next := freepos)];
      freepos := r;
      freenum := freenum + 1;
      g := g - {r};
      place := place[r := (Free, |lists[Free]|)];
      lists := Pushed(lists, Free, r);
    }

    /** reorder_localGbc: the chains of the lower variable lose their dead nodes. */
    method SweepRow(ghost s0: State, ghost lev: Order, ghost var0: nat, var1: nat)
      requires SwapLoop(s0, Now(), hash, ext, lev, var0, var1) && lists[Todo] == []
      requires Rest(s0, hash, ext, lev, iactmtx)
      modifies this`nodes, this`lists, this`place, this`freepos, this`freenum, this`levels, this`g
      ensures var0 < |lev| && var1 < |lev| && Rest(Now(), hash, ext, SwapLevels(lev, var0, var1), iactmtx)
      ensures Exchanged(s0.g, lev, g, SwapLevels(lev, var0, var1), ext) && Full(s0) <= Full(Now())
      ensures |levels| == |s0.levels| && |s0.nodes| <= |nodes|
      ensures Slow(old(nodes), nodes, 0)
    {
      hide Sound, Refs, Rows, Wf, Unique, RowAll, Swapping, Dropped, FreshHeld, SameTables, Sticky, GbcNode, HandFrom, Alive,
        Covered, AtRest, Settled, Exchanged, Anchored, Slow;
      AnchoredAlive(s0, ext);
      ghost var nodes0 := nodes;
      SlowNothing(nodes);
      GbcStart(s0, Now(), hash, ext, lev, var0, var1);
      var vl1, size1 := levels[var1].start, levels[var1].size;
      var n := 0;
      while n < size1
        invariant n <= size1 && GbcLoop(s0, Now(), hash, ext, lev, var0, var1, vl1 + n)
        invariant lists[Hand] == [] && Slow(nodes0, nodes, 0)
      {
        GbcDetach(s0, Now(), hash, ext, lev, var0, var1, vl1 + n);
        ghost var nodes1 := nodes;
        var r := Detach(vl1 + n);
        SlowTrans(nodes0, nodes1, 0, nodes, 0);
        while r != 0
          invariant GbcLoop(s0, Now(), hash, ext, lev, var0, var1, vl1 + n + 1)
          invariant r == Head(lists, Hand) && Slow(nodes0, nodes, 0)
          decreases |lists[Hand]|
        {
          ghost var nodes2 := nodes;
          r := GbcStep(s0, lev, var0, var1, vl1 + n, r);
          SlowTrans(nodes0, nodes2, 0, nodes, 0);
        }
        GbcHandZero(Now(), hash, ext, var1, vl1 + n + 1);
        n := n + 1;
      }
      GbcBounds(s0, Now(), hash, ext, lev, var0, var1, vl1 + n);
      GbcEnd(s0, Now(), hash, ext, lev, iactmtx, var0, var1);
      GbcSize(s0, Now(), hash, ext, lev, var0, var1, vl1 + n);
      forall m | m in Full(s0) ensures m in Full(Now()) {
        GbcSticky(s0, Now(), hash, ext, lev, var0, var1, vl1 + n, m);
      }
    }

    /** reorder_setLevellookup: equal stretches of the table, each of a prime size. */
    method SetLevelLookup()
      requires 0 < |levels| <= |nodes|
      modifies this`levels
      ensures Tables(levels, |nodes|) && SameCounts(old(levels), levels)
    {
      hide Offset, Tables;
      ghost var before := levels;
      var maxsize := |nodes| / |levels|;
      RoomForAll(|nodes|, |levels|);
      var n := 0;
      while n < |levels|
        invariant n <= |levels| == |before|
        invariant forall v {:trigger levels[v]} :: 0 <= v < |levels| ==> levels[v].nodenum == before[v].nodenum
        invariant forall v {:trigger levels[v]} :: 0 <= v < n ==> levels[v].start == Offset(v, maxsize) && 0 < levels[v].size <= maxsize
      {
        var size := maxsize;
        if size >= 4 {
          var rand: nat -> nat := *;
          var prime, _ := Prime.PrimeLte(size, rand);
          size := prime;
        }
        levels := levels[n := LevelData(Offset(n, maxsize), size, levels[n].nodenum)];
        n := n + 1;
      }
      TablesFit(levels, maxsize, |nodes|);
    }

    /** reorder_rehashAll: after the table has grown, every chain and the free list are built again. */
    method RehashAll()
      requires Rest(Now(), hash, ext, var2level, iactmtx) && 0 < |levels| <= |nodes|
      modifies this`nodes, this`lists, this`place, this`freepos, this`levels
      ensures Rest(Now(), hash, ext, var2level, iactmtx)
      ensures |levels| == |old(levels)| && |nodes| == |old(nodes)| && SameButLinks(old(nodes), nodes)
    {
      hide Rest, Rehashing, Tables, RehashLoop, Cleared, NoHash;
      ghost var s0 := Now();
      SetLevelLookup();
      ghost var l1 := levels;
      ClearedRest(s0, hash, ext, var2level, iactmtx, l1);
      nodes := NoHash(nodes);
      freepos := 0;
      lists, place := Cleared(s0, l1).lists, Cleared(s0, l1).place;
      ClearedFields(s0, l1);
      var n := |nodes| - 1;
      while n >= 2
        invariant 1 <= n < |nodes| && RehashLoop(s0, Now(), hash, ext, var2level, iactmtx, n + 1)
        invariant |levels| == |s0.levels| && |nodes| == |s0.nodes|
      {
        RehashNode(s0, n);
        n := n - 1;
      }
      LoopOver(s0, Now(), hash, ext, var2level, iactmtx);
    }

    /** One slot of it: back into its chain, or to the free list. */
    method RehashNode(ghost s0: State, n: nat)
      requires RehashLoop(s0, Now(), hash, ext, var2level, iactmtx, n + 1) && 2 <= n < |nodes|
      modifies this`nodes, this`lists, this`place, this`freepos
      ensures RehashLoop(s0, Now(), hash, ext, var2level, iactmtx, n) && |nodes| == |old(nodes)|
    {
      hide RehashLoop;
      LoopStep(s0, Now(), hash, ext, var2level, iactmtx, n);
      if nodes[n].refcou > 0 {
        var b := hash(levels[nodes[n].level], nodes[n].low, nodes[n].high);
        ghost var t := Inserted(Now(), b, n);
        nodes := nodes[n := nodes[n].(next := nodes[b].hash)];
        nodes := nodes[b := nodes[b].(hash := n)];
        lists, place := t.lists, t.place;
      } else {
        ghost var t := FreedSlot(Now(), n);
        nodes := nodes[n := nodes[n].(next := freepos)];
        freepos := n;
        lists, place := t.lists, t.place;
      }
    }

    /**
      A session between two exchanges: the table is closed, reduced, ordered and
      free of duplicates, all chains and counts are exact, nothing allocated is
      dead, the interaction matrix covers every node, and the two order tables
      are mutually inverse.
    */
    ghost predicate Valid()
      reads this, pairs
    {
      && Rest(Now(), hash, ext, var2level, iactmtx)
      && Orders(var2level, level2var, |levels|)
      && |levels| <= |nodes| && pend == multiset{} && Grows(largerSize)
      && Fit(pairs, |levels|) && PlainPairs(pairs, level2var, literal)
    }

    /**
      What exchanges have done since the table was s and the pairs had these
      entries: nothing, by variable, and no counter has saturated if there was
      room enough.
    */
    ghost predicate Since(s: State, lev: Order, rows: seq<seq<nat>>)
      reads this, pairs
    {
      && Later(s, lev, Now(), var2level, ext) && Followed(rows, lev, Entries(pairs), var2level, |levels|)
      && Calmly(hash, ext, iactmtx, s, lev, Now()) && |lev| == |var2level|
    }

    lemma SinceNothing()
      requires Valid()
      ensures Since(Now(), var2level, Entries(pairs))
    {
      hide Rest, Later, Calmly;
      LaterNothing(Now(), hash, ext, var2level, iactmtx);
      CalmlyNothing(hash, ext, iactmtx, Now(), var2level);
      OrdersRange(var2level, level2var, |levels|);
      hide Orders;
      FollowedNothing(Entries(pairs), var2level, |levels|);
    }

    lemma SinceTrans(s: State, lev: Order, rows: seq<seq<nat>>, s1: State, lev1: Order, rows1: seq<seq<nat>>)
      requires Later(s, lev, s1, lev1, ext) && Followed(rows, lev, rows1, lev1, |levels|) && Calmly(hash, ext, iactmtx, s, lev, s1)
      requires Since(s1, lev1, rows1) && |lev| == |lev1|
      ensures Since(s, lev, rows)
    {
      hide Later, Followed, Calmly;
      CalmlyTrans(hash, ext, iactmtx, s, lev, s1, lev1, Now());
      LaterTrans(s, lev, s1, lev1, Now(), var2level, ext);
      FollowedTrans(rows, lev, rows1, lev1, Entries(pairs), var2level, |levels|);
    }

    /** reorder_vardown: v and the variable below it change places. */
    method VarDown(v: int) returns (err: int)
      requires Valid()
      modifies this`nodes, this`lists, this`place, this`freepos, this`freenum, this`levels, this`g, this`pend,
               this`resizedInMakenode, this`var2level, this`level2var, pairs`result, pairs`last
      ensures Valid() && |levels| == |old(levels)|
      ensures err == if 0 <= v < |levels| then 0 else BDD_VAR
      ensures var2level == OrderDown(old(var2level), old(level2var), v)
      ensures level2var == LevelDown(old(var2level), old(level2var), v)
      ensures Since(old(Now()), old(var2level), old(Entries(pairs)))
    {
      hide Rest, Later, Calmly, Fit, PlainPairs, Followed;
      SinceNothing();
      if v < 0 || v >= |levels| {
        return BDD_VAR;
      }
      LastLevel(var2level, level2var, |levels|);
      Inverse(var2level, level2var, |levels|, v);
      if var2level[v] >= |levels| - 1 {
        return 0;
      }
      Lower(v);
      return 0;
    }

    /** reorder_vardown for a variable that is not the last one. */
    method Lower(v: nat)
      requires Valid() && v < |levels| && var2level[v] + 1 < |levels|
      modifies this`nodes, this`lists, this`place, this`freepos, this`freenum, this`levels, this`g, this`pend,
               this`resizedInMakenode, this`var2level, this`level2var, pairs`result, pairs`last
      ensures Valid() && |levels| == |old(levels)|
      ensures var2level == OrderDown(old(var2level), old(level2var), v)
      ensures level2var == LevelDown(old(var2level), old(level2var), v)
      ensures Since(old(Now()), old(var2level), old(Entries(pairs)))
    {
      hide Rest, Later, Calmly, Orders, Fit, PlainPairs, Followed, OrderDown, LevelDown, SwapLevels, Grows, Entries;
      NextBelow(var2level, level2var, |levels|, v);
      resizedInMakenode := false;
      Turn(v, level2var[var2level[v] + 1]);
      Reseat(v);
      Relink(old(Now()), old(var2level), old(Entries(pairs)));
    }

    /** The two tables of the order change, and the pairs with them. */
    method Reseat(v: nat)
      requires Orders(var2level, level2var, |levels|) && v < |levels| && v < |var2level| && var2level[v] + 1 < |levels|
      requires Fit(pairs, |levels|) && PlainPairs(pairs, level2var, literal)
      modifies this`var2level, this`level2var, pairs`result, pairs`last
      ensures Orders(var2level, level2var, |levels|) && Fit(pairs, |levels|) && PlainPairs(pairs, level2var, literal)
      ensures var2level == OrderDown(old(var2level), old(level2var), v)
      ensures level2var == LevelDown(old(var2level), old(level2var), v)
      ensures Followed(old(Entries(pairs)), old(var2level), Entries(pairs), var2level, |levels|) && |var2level| == |old(var2level)|
    {
      hide Orders, Fit, PlainPairs, Followed, OrderDown, LevelDown;
      var level := var2level[v];
      ghost var lev, order := var2level, level2var;
      OrdersRange(lev, order, |levels|);
      DownStep(lev, order, |levels|, v);
      OrdersSwap(lev, order, |levels|, level);
      SwapTables(v, level);
      MovePairs(level, lev, order);
    }

    /** The last step of reorder_vardown; RehashAll changes links only. */
    method Relink(ghost s: State, ghost lev: Order, ghost rows: seq<seq<nat>>)
      requires Valid() && 0 < |levels| && Since(s, lev, rows)
      modifies this`nodes, this`lists, this`place, this`freepos, this`levels
      ensures Valid() && |levels| == |old(levels)| && Since(s, lev, rows)
    {
      hide Rest, Later, Calmly, SameButLinks, Orders, Fit, PlainPairs, Followed, Grows, Entries;
      if resizedInMakenode {
        ghost var s1 := Now();
        RehashAll();
        LaterLinks(s, lev, s1, Now(), var2level, ext);
        CalmlyLinks(hash, ext, iactmtx, s, lev, s1, Now());
      }
    }

    /** The nodes of v are rewritten where the matrix has the pair, and left alone otherwise. */
    method Turn(v: nat, next: nat)
      requires Valid() && v < |levels| && next < |levels| && v < |var2level| && next < |var2level| && var2level[next] == var2level[v] + 1
      modifies this`nodes, this`lists, this`place, this`freepos, this`freenum, this`levels, this`g, this`pend, this`resizedInMakenode
      ensures Rest(Now(), hash, ext, SwapLevels(var2level, v, next), iactmtx)
      ensures Later(old(Now()), var2level, Now(), SwapLevels(var2level, v, next), ext)
      ensures Calmly(hash, ext, iactmtx, old(Now()), var2level, Now())
      ensures |levels| == |old(levels)| && |levels| <= |nodes| && pend == multiset{}
    {
      hide Rest, Exchanged, Later, Calmly, IsOrder, Full;
      ghost var s0 := Now();
      if Marked(iactmtx, v, next) {
        Exchange(v, next);
        RestIds(Now(), hash, ext, SwapLevels(var2level, v, next), iactmtx);
        CalmlyStep(hash, ext, iactmtx, s0, var2level, level2var, Now());
      } else {
        IndependentRest(s0, hash, ext, var2level, iactmtx, v, next);
        CalmlyNothing(hash, ext, iactmtx, s0, var2level);
      }
      RestLater(s0, Now(), hash, ext, var2level, SwapLevels(var2level, v, next), iactmtx);
    }

    /** bdd_pairs_vardown, after the tables for the two levels have been swapped. */
    method MovePairs(level: nat, ghost lev: Order, ghost order: seq<nat>)
      requires Orders(lev, order, |levels|) && level + 1 < |levels|
      requires order[level] < |lev| && order[level + 1] < |lev| && var2level == SwapLevels(lev, order[level], order[level + 1])
      requires level2var == order[level := order[level + 1]][level + 1 := order[level]]
      requires Fit(pairs, |levels|) && PlainPairs(pairs, order, literal)
      modifies pairs`result, pairs`last
      ensures Fit(pairs, |levels|) && PlainPairs(pairs, level2var, literal)
      ensures Followed(old(Entries(pairs)), lev, Entries(pairs), var2level, |levels|)
    {
      hide Orders, PlainRow, FollowedRow, SwapEntries, LastAfter;
      OrdersRange(lev, order, |levels|);
      OrdersSwap(lev, order, |levels|, level);
      OrdersApart(lev, order, |levels|, level);
      PairsVarDown(pairs, level, |levels|);
      forall i | 0 <= i < |pairs|
        ensures PlainRow(pairs[i].result, pairs[i].last, level2var, literal)
        ensures FollowedRow(old(pairs[i].result), lev, pairs[i].result, var2level, |levels|)
      {
        LastFollows(old(pairs[i].result), old(pairs[i].last), order, literal, level);
        EntryFollows(old(pairs[i].result), level, lev, order[level], order[level + 1], |levels|);
      }
    }

    /** Swap the var<->level tables. */
    method SwapTables(v: nat, level: nat)
      requires v < |var2level| && var2level[v] == level && level + 1 < |level2var| && level2var[level] == v
      requires level2var[level + 1] < |var2level|
      modifies this`var2level, this`level2var
      ensures var2level == SwapLevels(old(var2level), v, old(level2var)[level + 1])
      ensures level2var == old(level2var)[level := old(level2var)[level + 1]][level + 1 := v]
    {
      var n := level2var[level];
      level2var := level2var[level := level2var[level + 1]];
      level2var := level2var[level + 1 := n];
      n := var2level[v];
      var2level := var2level[v := var2level[level2var[level]]];
      var2level := var2level[level2var[level] := n];
    }

    /** The part of reorder_vardown that rewrites nodes. */
    method Exchange(v: nat, next: nat)
      requires Valid() && v < |levels| && next < |levels| && var2level[next] == var2level[v] + 1
      modifies this`nodes, this`lists, this`place, this`freepos, this`freenum, this`levels, this`g, this`pend, this`resizedInMakenode
      ensures Rest(Now(), hash, ext, SwapLevels(var2level, v, next), iactmtx)
      ensures Exchanged(old(g), var2level, g, SwapLevels(var2level, v, next), ext) && Full(old(Now())) <= Full(Now())
      ensures |levels| == |old(levels)| && |levels| <= |nodes| && pend == multiset{}
      ensures Slow(old(nodes), nodes, 2 * |old(g).Keys|)
    {
      hide Sound, Refs, Rows, Wf, Unique, Alive, Covered, Split, SwapLoop, Exchanged, AtRest, Full, Slow;
      ghost var s0 := Now();
      var toBeProcessed := DownSimple(v, next);
      ghost var s1 := Now();
      TodoFew(s1, hash, ext, v, next);
      Swap(var2level, v, next, toBeProcessed);
      ghost var s2 := Now();
      LoopFrom(s0, s1, Now(), hash, ext, var2level, v, next);
      SweepRow(s0, var2level, v, next);
      SlowTrans(s0.nodes, s1.nodes, 0, s2.nodes, 2 * |s1.lists[Todo]|);
      SlowTrans(s0.nodes, s2.nodes, 2 * |s1.lists[Todo]|, nodes, 0);
      SlowMore(s0.nodes, nodes, 2 * |s1.lists[Todo]|, 2 * |s0.g.Keys|);
    }

    /** reorder_varup: v and the variable above it change places. */
    method VarUp(v: int) returns (err: int)
      requires Valid()
      modifies this`nodes, this`lists, this`place, this`freepos, this`freenum, this`levels, this`g, this`pend,
               this`resizedInMakenode, this`var2level, this`level2var, pairs`result, pairs`last
      ensures Valid() && |levels| == |old(levels)|
      ensures err == if 0 <= v < |levels| then 0 else BDD_VAR
      ensures var above := if 0 <= v < |levels| && 0 < old(var2level)[v] then old(level2var)[old(var2level)[v] - 1] as int else -1;
              && var2level == OrderDown(old(var2level), old(level2var), above)
              && level2var == LevelDown(old(var2level), old(level2var), above)
      ensures Since(old(Now()), old(var2level), old(Entries(pairs)))
    {
      hide Rest;
      if v < 0 || v >= |levels| {
        SinceNothing();
        return BDD_VAR;
      }
      if var2level[v] == 0 {
        SinceNothing();
        return 0;
      }
      err := VarDown(level2var[var2level[v] - 1]);
    }

    /** The loops that call reorder_varup until variable v is at level `target`. */
    method RaiseTo(v: nat, target: nat)
      requires Valid() && v < |levels| && target <= var2level[v]
      modifies this`nodes, this`lists, this`place, this`freepos, this`freenum, this`levels, this`g, this`pend,
               this`resizedInMakenode, this`var2level, this`level2var, pairs`result, pairs`last
      ensures Valid() && |levels| == |old(levels)| && var2level[v] == target
      ensures target <= old(var2level)[v] < |old(level2var)| && level2var == Moved(old(level2var), old(var2level)[v], target)
      ensures Since(old(Now()), old(var2level), old(Entries(pairs)))
    {
      hide Rest, Later, Calmly, LevelDown, OrderDown, SwapAt, Moved, Orders, Fit, PlainPairs, Followed, Grows;
      SinceNothing();
      Inverse(var2level, level2var, |levels|, v);
      ghost var s, from := level2var, var2level[v];
      MovedNowhere(s, from);
      while var2level[v] > target
        invariant Valid() && |levels| == |old(levels)| && from < |s| && v < |var2level|
        invariant target <= var2level[v] <= from && level2var == Moved(s, from, var2level[v])
        invariant Since(old(Now()), old(var2level), old(Entries(pairs)))
        decreases var2level[v]
      {
        ghost var s1, lev1, rows1 := Now(), var2level, Entries(pairs);
        UpStep(var2level, level2var, |levels|, v);
        MovedUp(s, from, var2level[v]);
        var _ := VarUp(v);
        LastLevel(var2level, level2var, |levels|);
        SinceTrans(old(Now()), old(var2level), old(Entries(pairs)), s1, lev1, rows1);
      }
    }

    /** The loop that calls reorder_vardown until variable v is at level `target`. */
    method SinkTo(v: nat, target: nat)
      requires Valid() && v < |levels| && var2level[v] <= target < |levels|
      modifies this`nodes, this`lists, this`place, this`freepos, this`freenum, this`levels, this`g, this`pend,
               this`resizedInMakenode, this`var2level, this`level2var, pairs`result, pairs`last
      ensures Valid() && |levels| == |old(levels)| && var2level[v] == target
      ensures old(var2level)[v] <= target < |old(level2var)| && level2var == Moved(old(level2var), old(var2level)[v], target)
      ensures Since(old(Now()), old(var2level), old(Entries(pairs)))
    {
      hide Rest, Later, Calmly, LevelDown, OrderDown, SwapAt, Moved, Orders, Fit, PlainPairs, Followed, Grows;
      SinceNothing();
      Inverse(var2level, level2var, |levels|, v);
      LastLevel(var2level, level2var, |levels|);
      ghost var s, from := level2var, var2level[v];
      MovedNowhere(s, from);
      while var2level[v] < target
        invariant Valid() && |levels| == |old(levels)| && target < |s| && v < |var2level|
        invariant from <= var2level[v] <= target && level2var == Moved(s, from, var2level[v])
        invariant Since(old(Now()), old(var2level), old(Entries(pairs)))
        decreases target - var2level[v]
      {
        ghost var s1, lev1, rows1 := Now(), var2level, Entries(pairs);
        DownStep(var2level, level2var, |levels|, v);
        MovedDown(s, from, var2level[v]);
        var _ := VarDown(v);
        LastLevel(var2level, level2var, |levels|);
        SinceTrans(old(Now()), old(var2level), old(Entries(pairs)), s1, lev1, rows1);
      }
    }

    /** The moving part of bdd_setvarorder: the order becomes exactly the requested one. */
    method SetVarOrder(neworder: seq<nat>)
      requires Valid() && |neworder| == |levels|
      requires forall i {:trigger neworder[i]} :: 0 <= i < |neworder| ==> neworder[i] < |levels|
      requires forall i, j {:trigger neworder[i], neworder[j]} :: 0 <= i < j < |neworder| ==> neworder[i] != neworder[j]
      modifies this`nodes, this`lists, this`place, this`freepos, this`freenum, this`levels, this`g, this`pend,
               this`resizedInMakenode, this`var2level, this`level2var, pairs`result, pairs`last
      ensures Valid() && |levels| == |old(levels)|
      ensures level2var == neworder + [|levels|]
      ensures Since(old(Now()), old(var2level), old(Entries(pairs)))
    {
      hide Rest, Later, Calmly, Moved, Orders, Fit, PlainPairs, Followed, Grows;
      SinceNothing();
      var level := 0;
      while level < |levels|
        invariant Valid() && |levels| == |old(levels)| && level <= |levels|
        invariant AsRequested(level2var, neworder, level)
        invariant Since(old(Now()), old(var2level), old(Entries(pairs)))
      {
        var lowvar := neworder[level];
        ghost var s1, lev1, rows1, order1 := Now(), var2level, Entries(pairs), level2var;
        NotBelow(var2level, level2var, |levels|, neworder, level);
        RaiseTo(lowvar, level);
        MovedAbove(order1, lev1[lowvar], level);
        SinceTrans(old(Now()), old(var2level), old(Entries(pairs)), s1, lev1, rows1);
        PlacedMore(order1, level2var, neworder, level);
        level := level + 1;
      }
      LastLevel(var2level, level2var, |levels|);
    }

    /** The moving part of bdd_swapvar, for v1 above v2. */
    method ExchangeLevels(v1: nat, v2: nat)
      requires Valid() && v1 < |levels| && v2 < |levels| && var2level[v1] < var2level[v2]
      modifies this`nodes, this`lists, this`place, this`freepos, this`freenum, this`levels, this`g, this`pend,
               this`resizedInMakenode, this`var2level, this`level2var, pairs`result, pairs`last
      ensures Valid() && |levels| == |old(levels)|
      ensures old(var2level)[v1] < |old(level2var)| && old(var2level)[v2] < |old(level2var)|
      ensures level2var == old(level2var)[old(var2level)[v1] := v2][old(var2level)[v2] := v1]
      ensures Since(old(Now()), old(var2level), old(Entries(pairs)))
    {
      hide Rest, Later, Calmly, Moved, Orders, Fit, PlainPairs, Followed, Grows;
      Inverse(var2level, level2var, |levels|, v1);
      Inverse(var2level, level2var, |levels|, v2);
      LastLevel(var2level, level2var, |levels|);
      var l1, l2 := var2level[v1], var2level[v2];
      ghost var s := level2var;
      SinkTo(v1, l2);
      ghost var s1, lev1, rows1 := Now(), var2level, Entries(pairs);
      MovedTwice(s, l1, l2);
      InverseLevel(var2level, level2var, |levels|, l2 - 1);
      RaiseTo(v2, l1);
      SinceTrans(old(Now()), old(var2level), old(Entries(pairs)), s1, lev1, rows1);
    }

    /**
      The moving part of blockdown: two adjacent blocks change places and each
      keeps its own order. The second loop of the source, which would move the
      right block up, finds it in place already: the final assertion is the
      negation of its guard.
    */
    method BlockDown(lseq: seq<nat>, rseq: seq<nat>)
      requires Valid() && 0 < |lseq| && 0 < |rseq| && lseq[0] < |levels|
      requires var2level[lseq[0]] + |lseq| + |rseq| <= |levels|
      requires var start := var2level[lseq[0]]; level2var[start..start + |lseq| + |rseq|] == lseq + rseq
      modifies this`nodes, this`lists, this`place, this`freepos, this`freenum, this`levels, this`g, this`pend,
               this`resizedInMakenode, this`var2level, this`level2var, pairs`result, pairs`last
      ensures Valid() && |levels| == |old(levels)|
      ensures var start := old(var2level)[lseq[0]];
              level2var == old(level2var)[..start] + rseq + lseq + old(level2var)[start + |lseq| + |rseq|..]
      ensures Since(old(Now()), old(var2level), old(Entries(pairs)))
    {
      hide Rest, Later, Calmly, LevelDown, OrderDown, Depth, Orders, Fit, PlainPairs, Followed, Grows;
      SinceNothing();
      LastLevel(var2level, level2var, |levels|);
      var leftstart := var2level[lseq[0]];
      var rightsize := |rseq| - 1;
      ghost var was := level2var;
      ShuffleStart(var2level, level2var, |levels|, lseq, rseq, leftstart);
      ghost var top := |lseq| * (leftstart + |lseq| + |rseq|);
      while var2level[lseq[0]] < var2level[rseq[rightsize]]
        invariant Valid() && |levels| == |old(levels)| && |was| == |levels| + 1
        invariant Shuffled(was, var2level, level2var, lseq, rseq, leftstart)
        invariant Since(old(Now()), old(var2level), old(Entries(pairs)))
        decreases top - Depth(var2level, lseq)
      {
        BlockPass(was, old(Now()), old(var2level), old(Entries(pairs)), lseq, rseq, leftstart);
        DepthBound(var2level, lseq, leftstart + |lseq| + |rseq|);
      }
      BlocksCrossed(was, var2level, level2var, |levels|, lseq, rseq, leftstart);
      assert !(var2level[rseq[0]] > leftstart);
    }

    /** One pass of the first loop of blockdown: some variable of the left block moves. */
    method BlockPass(ghost was: seq<nat>, ghost s0: State, ghost lev0: Order, ghost rows0: seq<seq<nat>>, lseq: seq<nat>, rseq: seq<nat>, ghost start: nat)
      requires Valid() && Shuffled(was, var2level, level2var, lseq, rseq, start) && |was| == |levels| + 1
      requires 0 < |lseq| && 0 < |rseq| && var2level[lseq[0]] < var2level[rseq[|rseq| - 1]]
      requires Since(s0, lev0, rows0)
      modifies this`nodes, this`lists, this`place, this`freepos, this`freenum, this`levels, this`g, this`pend,
               this`resizedInMakenode, this`var2level, this`level2var, pairs`result, pairs`last
      ensures Valid() && |levels| == |old(levels)| && Shuffled(was, var2level, level2var, lseq, rseq, start)
      ensures Since(s0, lev0, rows0)
      ensures Depth(old(var2level), lseq) < Depth(var2level, lseq)
    {
      hide Rest, Later, Calmly, Depth, Orders, Ascending, Fit, PlainPairs, Followed, Grows;
      Bounded(var2level, lseq);
      Bounded(var2level, rseq);
      var leftsize, rightsize := |lseq| - 1, |rseq| - 1;
      ghost var lev := var2level;
      ShuffledApart(was, var2level, level2var, |levels|, lseq, rseq, start);
      ghost var m := SomeCanMove(var2level, lseq, rseq);
      var n := 0;
      while n < leftsize
        invariant n <= leftsize
        invariant Valid() && |levels| == |old(levels)|
        invariant Shuffled(was, var2level, level2var, lseq, rseq, start)
        invariant Since(s0, lev0, rows0)
        invariant forall i {:trigger lseq[i]} :: 0 <= i < |lseq| ==> lseq[i] < |var2level|
        invariant rseq[rightsize] < |var2level|
        invariant var2level == lev || Depth(lev, lseq) < Depth(var2level, lseq)
        invariant m < n ==> Depth(lev, lseq) < Depth(var2level, lseq)
      {
        if var2level[lseq[n]] + 1 != var2level[lseq[n + 1]] && var2level[lseq[n]] < var2level[rseq[rightsize]] {
          BlockStep(was, s0, lev0, rows0, lseq, rseq, start, n);
          Bounded(var2level, lseq);
          Bounded(var2level, rseq);
        }
        n := n + 1;
      }
      if var2level[lseq[leftsize]] < var2level[rseq[rightsize]] {
        BlockStep(was, s0, lev0, rows0, lseq, rseq, start, leftsize);
      }
    }

    /** One call of reorder_vardown in blockdown. */
    method BlockStep(ghost was: seq<nat>, ghost s0: State, ghost lev0: Order, ghost rows0: seq<seq<nat>>, lseq: seq<nat>, ghost rseq: seq<nat>, ghost start: nat, n: nat)
      requires Valid() && Shuffled(was, var2level, level2var, lseq, rseq, start) && |was| == |levels| + 1
      requires n < |lseq| && 0 < |rseq| && var2level[lseq[n]] < var2level[rseq[|rseq| - 1]]
      requires n + 1 < |lseq| ==> var2level[lseq[n]] + 1 != var2level[lseq[n + 1]]
      requires Since(s0, lev0, rows0)
      modifies this`nodes, this`lists, this`place, this`freepos, this`freenum, this`levels, this`g, this`pend,
               this`resizedInMakenode, this`var2level, this`level2var, pairs`result, pairs`last
      ensures Valid() && |levels| == |old(levels)| && Shuffled(was, var2level, level2var, lseq, rseq, start)
      ensures Since(s0, lev0, rows0)
      ensures Depth(var2level, lseq) == Depth(old(var2level), lseq) + 1
    {
      hide Rest, Later, Calmly, Depth, LevelDown, OrderDown, Orders, Ascending, Fit, PlainPairs, Followed, Grows;
      NextIsRight(was, var2level, level2var, |levels|, lseq, rseq, start, n);
      ShuffleStep(was, var2level, level2var, |levels|, lseq, rseq, start, n);
      var _ := VarDown(lseq[n]);
      SinceTrans(s0, lev0, rows0, old(Now()), old(var2level), old(Entries(pairs)));
    }
  }

  /** The loop of bdd_noderesize that fills in the new slots and links them in front of the free list. */
  method NewSlots(nodes: seq<BddNode>, freepos: nat, size: nat) returns (r: seq<BddNode>)
    requires |nodes| < size
    ensures r == GrownNodes(nodes, freepos, size)
  {
    r := nodes;
    var n := |nodes|;
    while n < size
      invariant |nodes| <= n <= size && |r| == n
      invariant forall m {:trigger r[m]} :: 0 <= m < |nodes| ==> r[m] == nodes[m]
      invariant forall m {:trigger r[m]} :: |nodes| <= m < n ==> r[m] == EmptySlot(m + 1)
    {
      r := r + [EmptySlot(n + 1)];
      n := n + 1;
    }
    r := r[size - 1 := r[size - 1].(next := freepos)];
  }
}
