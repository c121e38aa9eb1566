/**
  The two levels of collection of evdd_kernel.c: evdd_gbc keeps exactly the
  live nodes, and the value sweep after it keeps every weight a kept node or a
  reference holds.
*/
module EvddCollect {
  import opened Wdd
  import opened ValueTable
  import opened EvddState

  /* ---- marking ---- */

  ghost predicate SameButMarks(nodes: seq<EvddNode>, nodes': seq<EvddNode>) {
    && |nodes'| == |nodes|
    && forall n {:trigger nodes'[n]} :: 0 <= n < |nodes| ==> nodes'[n] == nodes[n].(mark := nodes'[n].mark)
  }

  ghost predicate Marked(nodes: seq<EvddNode>, n: int) { n == 0 || (0 < n < |nodes| && nodes[n].mark) }

  ghost predicate ChildrenMarked(nodes: seq<EvddNode>, n: nat) {
    n < |nodes| && Marked(nodes, nodes[n].low) && Marked(nodes, nodes[n].high)
  }

  /** What evdd_mark(i) adds: i and parts of i, with all children of what is new. */
  ghost predicate Spread(nodes: seq<EvddNode>, dd: Trees, nodes': seq<EvddNode>, i: nat) {
    && SameButMarks(nodes, nodes') && i in dd && Marked(nodes', i)
    && (forall n {:trigger nodes'[n]} :: 0 <= n < |nodes| && nodes[n].mark ==> nodes'[n].mark)
    && (forall n {:trigger nodes'[n]} :: 0 <= n < |nodes| && nodes'[n].mark && !nodes[n].mark ==>
          n != 0 && n in dd && Part(dd[n], dd[i]) && ChildrenMarked(nodes', n))
  }

  lemma SpreadNothing(nodes: seq<EvddNode>, dd: Trees, i: nat)
    requires i in dd && Marked(nodes, i)
    ensures Spread(nodes, dd, nodes, i)
  {
  }

  lemma SpreadNode(nodes: seq<EvddNode>, rows: Rows, dd: Trees, i: nat, nodes1: seq<EvddNode>, nodes2: seq<EvddNode>, nodes3: seq<EvddNode>)
    requires Fits(nodes, rows, dd, i) && i != 0 && nodes1 == nodes[i := nodes[i].(mark := true)]
    requires nodes[i].low in dd && Spread(nodes1, dd, nodes2, nodes[i].low)
    requires nodes[i].high in dd && Spread(nodes2, dd, nodes3, nodes[i].high)
    ensures Spread(nodes, dd, nodes3, i)
  {
    hide Known, Weight;
    var low, high := nodes[i].low, nodes[i].high;
    forall n | 0 <= n < |nodes| && nodes3[n].mark && !nodes[n].mark
      ensures n != 0 && n in dd && Part(dd[n], dd[i]) && ChildrenMarked(nodes3, n)
    {
      assert nodes2[n] == nodes2[n] && nodes1[n] == nodes1[n];
      if n != i {
        if nodes2[n].mark {
          assert Part(dd[n], dd[low]) && ChildrenMarked(nodes2, n);
          assert Marked(nodes2, nodes2[n].low) && Marked(nodes2, nodes2[n].high);
        } else {
          assert Part(dd[n], dd[high]);
        }
      }
    }
  }

  /** Only live nodes are marked, and with each all it needs. */
  ghost predicate Reached(nodes: seq<EvddNode>, dd: Trees, ext: set<nat>, stack: seq<nat>) {
    forall n {:trigger nodes[n]} :: 0 <= n < |nodes| && nodes[n].mark ==>
      n != 0 && Live(dd, ext, stack, n) && ChildrenMarked(nodes, n)
  }

  lemma ReachRoot(nodes: seq<EvddNode>, dd: Trees, ext: set<nat>, stack: seq<nat>, i: nat, nodes': seq<EvddNode>)
    requires Reached(nodes, dd, ext, stack) && Spread(nodes, dd, nodes', i) && (i == 0 || Root(ext, stack, i))
    requires i == 0 ==> nodes' == nodes
    ensures Reached(nodes', dd, ext, stack)
  {
    forall n | 0 <= n < |nodes'| && nodes'[n].mark
      ensures n != 0 && Live(dd, ext, stack, n) && ChildrenMarked(nodes', n)
    {
      if nodes[n].mark {
        assert ChildrenMarked(nodes, n) && Marked(nodes, nodes[n].low) && Marked(nodes, nodes[n].high);
      } else {
        assert Root(ext, stack, i) && i in dd && Part(dd[n], dd[i]);
      }
    }
  }

  /** All parts of a marked node are marked. */
  lemma {:induction false} MarkedParts(nodes: seq<EvddNode>, rows: Rows, dd: Trees, ext: set<nat>, stack: seq<nat>, r: nat, n: nat)
    requires Canon(dd) && Recorded(nodes, rows, dd) && Reached(nodes, dd, ext, stack)
    requires r in dd && n in dd && n != 0 && Marked(nodes, r) && Part(dd[n], dd[r])
    ensures Marked(nodes, n)
    decreases dd[r]
  {
    hide Known, Weight;
    if n != r {
      assert dd[n] != dd[r];
      assert r != 0 && Fits(nodes, rows, dd, r) && ChildrenMarked(nodes, r);
      if Part(dd[n], dd[r].low) {
        MarkedParts(nodes, rows, dd, ext, stack, nodes[r].low, n);
      } else {
        MarkedParts(nodes, rows, dd, ext, stack, nodes[r].high, n);
      }
    }
  }

  ghost predicate RootsMarked(nodes: seq<EvddNode>, ext: set<nat>, stack: seq<nat>) {
    forall r: nat {:trigger Root(ext, stack, r)} :: Root(ext, stack, r) ==> Marked(nodes, r)
  }

  /** When all roots are marked, exactly the live nodes are. */
  lemma MarkedIsLive(nodes: seq<EvddNode>, rows: Rows, dd: Trees, ext: set<nat>, stack: seq<nat>, n: nat)
    requires Canon(dd) && Recorded(nodes, rows, dd) && Reached(nodes, dd, ext, stack) && RootsMarked(nodes, ext, stack)
    requires n in dd
    ensures Live(dd, ext, stack, n) <==> Marked(nodes, n)
  {
    hide Fits;
    if n != 0 && Live(dd, ext, stack, n) {
      var r :| Root(ext, stack, r) && r in dd && Part(dd[n], dd[r]);
      MarkedParts(nodes, rows, dd, ext, stack, r, n);
    }
  }

  /** The live nodes are the least set with the terminal and the roots that has with a node its two children: they are in every such set, ... */
  lemma {:induction false} LiveLeast(nodes: seq<EvddNode>, rows: Rows, dd: Trees, ext: set<nat>, stack: seq<nat>, s: set<nat>, n: nat)
    requires Canon(dd) && Recorded(nodes, rows, dd) && 0 in s
    requires forall r: nat {:trigger r in s} :: r in ext || r in stack ==> r in s
    requires forall m: nat {:trigger m in s} :: m in s && m in dd && m != 0 && m < |nodes| && 0 <= nodes[m].low && 0 <= nodes[m].high ==>
               (nodes[m].low as nat) in s && (nodes[m].high as nat) in s
    ensures Live(dd, ext, stack, n) ==> n in s
  {
    if n != 0 && Live(dd, ext, stack, n) {
      var r :| Root(ext, stack, r) && r in dd && Part(dd[n], dd[r]);
      BelowRoot(nodes, rows, dd, s, r, n);
    }
  }

  lemma {:induction false} BelowRoot(nodes: seq<EvddNode>, rows: Rows, dd: Trees, s: set<nat>, r: nat, n: nat)
    requires Canon(dd) && Recorded(nodes, rows, dd) && r in s && r in dd && n in dd && n != 0 && Part(dd[n], dd[r])
    requires forall m: nat {:trigger m in s} :: m in s && m in dd && m != 0 && m < |nodes| && 0 <= nodes[m].low && 0 <= nodes[m].high ==>
               (nodes[m].low as nat) in s && (nodes[m].high as nat) in s
    ensures n in s
    decreases dd[r]
  {
    hide Known, Weight;
    if dd[n] != dd[r] {
      assert r != 0 && Fits(nodes, rows, dd, r);
      BelowRoot(nodes, rows, dd, s, if Part(dd[n], dd[nodes[r].low]) then nodes[r].low else nodes[r].high, n);
    }
  }

  /** ... and they are one. */
  lemma {:induction false} LiveClosed(nodes: seq<EvddNode>, rows: Rows, dd: Trees, ext: set<nat>, stack: seq<nat>, n: nat)
    requires Canon(dd) && Recorded(nodes, rows, dd) && n in dd
    ensures n == 0 || n in ext || n in stack ==> Live(dd, ext, stack, n)
    ensures n != 0 && Live(dd, ext, stack, n) ==>
              n < |nodes| && 0 <= nodes[n].low && 0 <= nodes[n].high && Live(dd, ext, stack, nodes[n].low) && Live(dd, ext, stack, nodes[n].high)
  {
    hide Known, Weight;
    if n in ext || n in stack {
      assert Root(ext, stack, n);
    }
    if n != 0 && Live(dd, ext, stack, n) {
      assert Fits(nodes, rows, dd, n);
      var r :| Root(ext, stack, r) && r in dd && Part(dd[n], dd[r]);
      PartTransitive(dd[n].low, dd[n], dd[r]);
      PartTransitive(dd[n].high, dd[n], dd[r]);
    }
  }

  /** A weight is held exactly by being on a node other than the terminal. */
  lemma HeldSpelled(nodes: seq<EvddNode>, dd: Trees, id: nat)
    ensures Held(nodes, dd, id) <==> exists n {:trigger nodes[n]} :: 0 < n < |nodes| && n in dd && (nodes[n].wlow == id || nodes[n].whigh == id)
  {
    if n :| 0 < n < |nodes| && n in dd && (nodes[n].wlow == id || nodes[n].whigh == id) {
      assert n in dd;
    }
  }

  ghost function LiveTrees(dd: Trees, ext: set<nat>, stack: seq<nat>): Trees {
    map n | n in dd && Live(dd, ext, stack, n) :: dd[n]
  }

  lemma LiveCanon(dd: Trees, ext: set<nat>, stack: seq<nat>)
    requires Canon(dd)
    ensures Canon(LiveTrees(dd, ext, stack))
  {
    var keep := LiveTrees(dd, ext, stack);
    forall n | n in keep ensures keep[n] == dd[n] {}
    assert Live(dd, ext, stack, 0);
    hide Live;
  }

  /* ---- sweeping ---- */

  /** A sweep from the records m, with the slots from `from` on done. */
  ghost predicate Sweeping(m: seq<EvddNode>, keep: Trees, hash: Hash, nodes: seq<EvddNode>, buckets: seq<seq<nat>>, freelist: seq<nat>, from: nat) {
    && 1 <= from && |nodes| == |m|
    && (forall k {:trigger nodes[k]} :: 0 <= k < |m| ==>
          nodes[k] == if k < from then m[k] else if k in keep then m[k].(mark := false) else FREE_NODE)
    && Chained(nodes, hash, keep, buckets, from) && FreeListed(|m|, keep, freelist, from)
  }

  lemma SweepStart(m: seq<EvddNode>, keep: Trees, hash: Hash)
    requires 1 <= |m|
    ensures Sweeping(m, keep, hash, m, seq(|m|, _ => []), [], |m|)
  {
  }

  /** A kept slot loses its mark and goes to the chain of its key. */
  lemma SweepKeep(m: seq<EvddNode>, keep: Trees, hash: Hash, nodes: seq<EvddNode>, buckets: seq<seq<nat>>, freelist: seq<nat>, n: nat)
    requires Sweeping(m, keep, hash, nodes, buckets, freelist, n + 1) && InRange(hash) && 0 < n < |m| && n in keep
    ensures var nodes' := nodes[n := nodes[n].(mark := false)];
            && HashOf(nodes', hash, n) < |buckets|
            && Sweeping(m, keep, hash, nodes', buckets[HashOf(nodes', hash, n) := [n] + buckets[HashOf(nodes', hash, n)]], freelist, n)
  {
    var nodes' := nodes[n := nodes[n].(mark := false)];
    forall k | 0 <= k < |nodes| ensures HashOf(nodes', hash, k) == HashOf(nodes, hash, k) {
    }
    PushChained(nodes, hash, keep, buckets, n + 1, n, nodes', keep);
    assert nodes[n] == m[n];
    hide Chained;
    forall k ensures k in freelist <==> n <= k < |m| && k != 0 && k !in keep {
      assert k in freelist <==> n + 1 <= k < |m| && k != 0 && k !in keep;
    }
  }

  /** Any other slot goes to the free list. */
  lemma SweepDrop(m: seq<EvddNode>, keep: Trees, hash: Hash, nodes: seq<EvddNode>, buckets: seq<seq<nat>>, freelist: seq<nat>, n: nat)
    requires Sweeping(m, keep, hash, nodes, buckets, freelist, n + 1) && 0 < n < |m| && n !in keep
    ensures Sweeping(m, keep, hash, nodes[n := FREE_NODE], buckets, [n] + freelist, n)
  {
    SkipChained(nodes, hash, keep, buckets, n, nodes[n := FREE_NODE]);
    hide Chained;
    forall k ensures k in [n] + freelist <==> n <= k < |m| && k != 0 && k !in keep {
      assert k in freelist <==> n + 1 <= k < |m| && k != 0 && k !in keep;
    }
    assert n !in freelist;
  }

  lemma SkipChained(nodes: seq<EvddNode>, hash: Hash, keep: Trees, buckets: seq<seq<nat>>, n: nat, nodes': seq<EvddNode>)
    requires Chained(nodes, hash, keep, buckets, n + 1) && |nodes'| == |nodes| && n !in keep
    requires forall k {:trigger nodes'[k]} :: 0 <= k < |nodes| && k != n ==> nodes'[k] == nodes[k]
    ensures Chained(nodes', hash, keep, buckets, n)
  {
    forall k | k in keep && k != 0 && n <= k < |nodes'|
      ensures HashOf(nodes', hash, k) < |buckets| && k in buckets[HashOf(nodes', hash, k)]
    {
      assert nodes'[k] == nodes[k];
    }
    forall b, k | 0 <= b < |buckets| && k in buckets[b]
      ensures n <= k < |nodes'| && k != 0 && k in keep && HashOf(nodes', hash, k) == b
    {
      assert n + 1 <= k && nodes'[k] == nodes[k];
    }
  }

  /** What the sweep needs to know about the records it starts from. */
  ghost predicate Keepable(m: seq<EvddNode>, rows: Rows, keep: Trees, ext: set<nat>) {
    && 1 <= |m| && !m[0].mark && Canon(keep)
    && (forall n {:trigger n in keep} :: n in keep ==> n < |m| && (n != 0 ==> Fits(m, rows, keep, n)))
    && (forall n {:trigger n in ext} :: n in ext ==> n in keep && n != 0)
    && (forall n {:trigger m[n]} :: 0 < n < |m| && n in keep ==> (n in ext <==> 0 < m[n].refcou))
  }

  /** Exactly the marked nodes are kept. */
  ghost predicate KeepsMarked(m: seq<EvddNode>, keep: Trees) {
    forall n {:trigger m[n]} :: 0 < n < |m| ==> (n in keep <==> m[n].mark && m[n].low != -1)
  }

  /** What the sweep leaves is a sound table over the kept trees. */
  lemma {:induction false} Swept(m: seq<EvddNode>, rows: Rows, keep: Trees, hash: Hash, ext: set<nat>, nodes: seq<EvddNode>, buckets: seq<seq<nat>>, freelist: seq<nat>)
    requires InRange(hash) && ExactIds(rows) && Sweeping(m, keep, hash, nodes, buckets, freelist, 1) && Keepable(m, rows, keep, ext)
    ensures Sound(Table(nodes, buckets, freelist, keep, ext, rows), hash)
  {
    hide Chained, FreeListed, Canon, Fits, ExactIds;
    forall n | n in keep && n != 0 ensures Fits(nodes, rows, keep, n) {
      assert nodes[n] == m[n].(mark := false);
      SweptFits(m, rows, keep, nodes, n);
    }
  }

  lemma {:induction false} SweptFits(m: seq<EvddNode>, rows: Rows, keep: Trees, nodes: seq<EvddNode>, n: nat)
    requires Fits(m, rows, keep, n) && n < |nodes| && nodes[n] == m[n].(mark := false)
    ensures Fits(nodes, rows, keep, n)
  {
    hide Known, Weight;
  }

  /** With all roots marked the kept trees are the live ones. */
  lemma MarkedKept(t: Table, hash: Hash, stack: seq<nat>, m: seq<EvddNode>)
    requires Sound(t, hash) && SameButMarks(t.nodes, m) && Reached(m, t.dd, t.ext, stack) && RootsMarked(m, t.ext, stack)
    ensures Keepable(m, t.rows, LiveTrees(t.dd, t.ext, stack), t.ext) && KeepsMarked(m, LiveTrees(t.dd, t.ext, stack))
  {
    hide Sound, Reached, RootsMarked, Canon, Live, Fits, SameButMarks;
    var keep := LiveTrees(t.dd, t.ext, stack);
    MarkedFacts(t, hash, m);
    LiveCanon(t.dd, t.ext, stack);
    ZeroUnmarked(m, t.dd, t.ext, stack);
    forall n | n in keep ensures n < |m| && (n != 0 ==> Fits(m, t.rows, keep, n)) {
      KeptFits(t, hash, stack, m, n);
    }
    forall n | 0 < n < |m| ensures n in keep <==> m[n].mark && m[n].low != -1 {
      KeptMark(t, hash, stack, m, n);
    }
    forall n | n in t.ext ensures n in keep && n != 0 {
      KeptRef(t, hash, stack, m, n);
    }
  }

  lemma MarkedFacts(t: Table, hash: Hash, m: seq<EvddNode>)
    requires Sound(t, hash) && SameButMarks(t.nodes, m)
    ensures Canon(t.dd) && Recorded(m, t.rows, t.dd) && 1 <= |m| == |t.nodes|
    ensures forall n {:trigger m[n]} :: 0 < n < |m| ==> (n in t.ext <==> 0 < m[n].refcou)
  {
    hide Chained, FreeListed, Canon, Fits;
    MarkedRecorded(t.nodes, t.rows, t.dd, m);
    forall n | 0 < n < |m| ensures n in t.ext <==> 0 < m[n].refcou {
      assert m[n] == t.nodes[n].(mark := m[n].mark);
    }
  }

  lemma KeptMark(t: Table, hash: Hash, stack: seq<nat>, m: seq<EvddNode>, n: nat)
    requires Sound(t, hash) && SameButMarks(t.nodes, m) && Reached(m, t.dd, t.ext, stack) && RootsMarked(m, t.ext, stack) && 0 < n < |m|
    ensures n in LiveTrees(t.dd, t.ext, stack) <==> m[n].mark && m[n].low != -1
  {
    hide Reached, RootsMarked, Live, Canon;
    MarkedFacts(t, hash, m);
    hide Sound, Known, Weight;
    if n in t.dd {
      MarkedIsLive(m, t.rows, t.dd, t.ext, stack, n);
      assert Fits(m, t.rows, t.dd, n);
    }
  }

  lemma KeptRef(t: Table, hash: Hash, stack: seq<nat>, m: seq<EvddNode>, n: nat)
    requires Sound(t, hash) && SameButMarks(t.nodes, m) && Reached(m, t.dd, t.ext, stack) && RootsMarked(m, t.ext, stack) && n in t.ext
    ensures n in LiveTrees(t.dd, t.ext, stack) && n != 0
  {
    hide Reached, RootsMarked, Canon, Chained, FreeListed, Fits, Recorded;
    assert n in t.dd && Root(t.ext, stack, n) && Part(t.dd[n], t.dd[n]);
  }

  lemma ZeroUnmarked(m: seq<EvddNode>, dd: Trees, ext: set<nat>, stack: seq<nat>)
    requires Reached(m, dd, ext, stack) && 0 < |m|
    ensures !m[0].mark
  {
  }

  lemma KeptFits(t: Table, hash: Hash, stack: seq<nat>, m: seq<EvddNode>, n: nat)
    requires Sound(t, hash) && SameButMarks(t.nodes, m) && Live(t.dd, t.ext, stack, n)
    ensures n < |m| && (n != 0 ==> Fits(m, t.rows, LiveTrees(t.dd, t.ext, stack), n))
  {
    OpenAt(t, hash, stack, n);
    hide Sound, Live, Known, Weight;
    if n != 0 {
      assert m[n] == m[n];
    }
  }

  lemma MarkedRecorded(nodes: seq<EvddNode>, rows: Rows, dd: Trees, m: seq<EvddNode>)
    requires Recorded(nodes, rows, dd) && SameButMarks(nodes, m)
    ensures Recorded(m, rows, dd)
  {
    hide Known, Weight;
    forall n | n in dd && n != 0 ensures Fits(m, rows, dd, n) {
      assert Fits(nodes, rows, dd, n) && m[n] == m[n];
    }
  }

  lemma CollectKeeps(t: Table, stack: seq<nat>, t': Table)
    requires t'.dd == LiveTrees(t.dd, t.ext, stack) && t'.ext == t.ext && t'.rows == t.rows && SameCounts(t.nodes, t.ext, t'.nodes)
    ensures Keeps(t, stack, t')
  {
  }

  /* ---- the weights ---- */

  /** A node of the table holds this weight id. */
  ghost predicate Held(nodes: seq<EvddNode>, dd: Trees, id: nat) {
    exists n {:trigger n in dd} :: n in dd && 0 < n < |nodes| && (nodes[n].wlow == id || nodes[n].whigh == id)
  }

  /** What a value collection does: exactly the payloads that neither a node nor a reference holds are gone. */
  ghost predicate WeightsSwept(nodes: seq<EvddNode>, dd: Trees, rows: Rows, rows': Rows) {
    && |rows'| == |rows|
    && forall id {:trigger rows'[id]} :: 0 < id < |rows| && rows[id].payload.Some? ==>
         if 0 < rows[id].refcou || Held(nodes, dd, id) then rows'[id] == rows[id] else rows'[id].payload.None?
  }

  /** No node loses a weight. */
  lemma SweptWeightsSound(t: Table, hash: Hash, rows: Rows)
    requires Sound(t, hash) && WeightsSwept(t.nodes, t.dd, t.rows, rows)
    requires forall id {:trigger rows[id]} :: 0 <= id < |rows| && rows[id].payload.Some? ==> t.rows[id].payload.Some?
    ensures Sound(t.(rows := rows), hash)
  {
    hide Chained, FreeListed, Canon;
    forall n | n in t.dd && n != 0 ensures Fits(t.nodes, rows, t.dd, n) {
      assert Fits(t.nodes, t.rows, t.dd, n);
      var e := t.nodes[n];
      assert Held(t.nodes, t.dd, e.wlow) && Held(t.nodes, t.dd, e.whigh);
      assert e.wlow != 0 ==> rows[e.wlow] == t.rows[e.wlow];
      assert e.whigh != 0 ==> rows[e.whigh] == t.rows[e.whigh];
    }
    SweptExact(t, rows);
  }

  lemma SweptExact(t: Table, rows: Rows)
    requires ExactIds(t.rows) && WeightsSwept(t.nodes, t.dd, t.rows, rows)
    requires forall id {:trigger rows[id]} :: 0 <= id < |rows| && rows[id].payload.Some? ==> t.rows[id].payload.Some?
    ensures ExactIds(rows)
  {
    hide Held;
    forall a: nat, b: nat | Known(rows, a) && Known(rows, b) && Weight(rows, a) == Weight(rows, b) ensures a == b {
      assert a != 0 ==> rows[a] == t.rows[a];
      assert b != 0 ==> rows[b] == t.rows[b];
      assert Weight(t.rows, a) == Weight(t.rows, b);
    }
  }
}
