/**
  Marking and sweeping, argued on values: a garbage collection keeps exactly the
  live nodes, and the rehash after a resize keeps all nodes.
*/
module Collect {
  import opened Dd
  import opened Threads
  import opened TableState

  /* ---- marking ---- */

  ghost predicate SameButMarks(nodes: seq<BddNode>, nodes': seq<BddNode>) {
    && |nodes'| == |nodes|
    && forall n {:trigger nodes'[n]} :: 0 <= n < |nodes| ==> nodes'[n] == nodes[n].(mark := nodes'[n].mark)
  }

  ghost predicate Marked(nodes: seq<BddNode>, n: int) { n < 2 || (n < |nodes| && nodes[n].mark) }

  ghost predicate ChildrenMarked(nodes: seq<BddNode>, n: nat) {
    n < |nodes| && Marked(nodes, nodes[n].low) && Marked(nodes, nodes[n].high)
  }

  /** What marking from node i adds: i and parts of i, with all children of what is new. */
  ghost predicate Spread(nodes: seq<BddNode>, dd: Trees, nodes': seq<BddNode>, i: nat) {
    && SameButMarks(nodes, nodes') && i in dd && Marked(nodes', i)
    && (forall n {:trigger nodes'[n]} :: 0 <= n < |nodes| && nodes[n].mark ==> nodes'[n].mark)
    && (forall n {:trigger nodes'[n]} :: 0 <= n < |nodes| && nodes'[n].mark && !nodes[n].mark ==>
          2 <= n && n in dd && Subtree(dd[n], dd[i]) && ChildrenMarked(nodes', n))
  }

  lemma SpreadNothing(nodes: seq<BddNode>, dd: Trees, i: nat)
    requires i in dd && Marked(nodes, i)
    ensures Spread(nodes, dd, nodes, i)
  {
  }

  lemma SpreadNode(nodes: seq<BddNode>, dd: Trees, i: nat, nodes1: seq<BddNode>, nodes2: seq<BddNode>, nodes3: seq<BddNode>)
    requires Fits(nodes, dd, i) && 2 <= i && nodes1 == nodes[i := nodes[i].(mark := true)]
    requires nodes[i].low in dd && Spread(nodes1, dd, nodes2, nodes[i].low)
    requires nodes[i].high in dd && Spread(nodes2, dd, nodes3, nodes[i].high)
    ensures Spread(nodes, dd, nodes3, i)
  {
    var low, high := nodes[i].low, nodes[i].high;
    forall n | 0 <= n < |nodes| && nodes3[n].mark && !nodes[n].mark
      ensures 2 <= n && n in dd && Subtree(dd[n], dd[i]) && ChildrenMarked(nodes3, n)
    {
      assert nodes2[n] == nodes2[n] && nodes1[n] == nodes1[n];
      if n != i {
        if nodes2[n].mark {
          assert Subtree(dd[n], dd[low]) && ChildrenMarked(nodes2, n);
          assert Marked(nodes2, nodes2[n].low) && Marked(nodes2, nodes2[n].high);
        } else {
          assert Subtree(dd[n], dd[high]);
        }
      }
    }
  }

  /** Only live nodes are marked, and with each all it needs. */
  ghost predicate Reached(nodes: seq<BddNode>, dd: Trees, ext: set<nat>, stack: seq<nat>) {
    forall n {:trigger nodes[n]} :: 0 <= n < |nodes| && nodes[n].mark ==>
      2 <= n && Live(dd, ext, stack, n) && ChildrenMarked(nodes, n)
  }

  lemma ReachRoot(nodes: seq<BddNode>, dd: Trees, ext: set<nat>, stack: seq<nat>, i: nat, nodes': seq<BddNode>)
    requires Reached(nodes, dd, ext, stack) && Spread(nodes, dd, nodes', i) && Root(ext, stack, i)
    ensures Reached(nodes', dd, ext, stack)
  {
    forall n | 0 <= n < |nodes'| && nodes'[n].mark
      ensures 2 <= n && Live(dd, ext, stack, n) && ChildrenMarked(nodes', n)
    {
      if nodes[n].mark {
        assert ChildrenMarked(nodes, n) && Marked(nodes, nodes[n].low) && Marked(nodes, nodes[n].high);
      } else {
        assert Root(ext, stack, i) && i in dd && Subtree(dd[n], dd[i]);
      }
    }
  }

  /** All parts of a marked node are marked. */
  lemma {:induction false} MarkedParts(nodes: seq<BddNode>, dd: Trees, ext: set<nat>, stack: seq<nat>, r: nat, n: nat)
    requires Canon(dd) && Recorded(nodes, dd) && Reached(nodes, dd, ext, stack)
    requires r in dd && n in dd && 2 <= n && Marked(nodes, r) && Subtree(dd[n], dd[r])
    ensures Marked(nodes, n)
    decreases dd[r]
  {
    if n != r {
      assert dd[n] != dd[r];
      assert 2 <= r && Fits(nodes, dd, r) && ChildrenMarked(nodes, r);
      if Subtree(dd[n], dd[r].lo) {
        MarkedParts(nodes, dd, ext, stack, nodes[r].low, n);
      } else {
        MarkedParts(nodes, dd, ext, stack, nodes[r].high, n);
      }
    }
  }

  ghost predicate RootsMarked(nodes: seq<BddNode>, ext: set<nat>, stack: seq<nat>) {
    forall r: nat {:trigger Root(ext, stack, r)} :: Root(ext, stack, r) ==> Marked(nodes, r)
  }

  /** When all roots are marked, exactly the live nodes are. */
  lemma MarkedIsLive(nodes: seq<BddNode>, dd: Trees, ext: set<nat>, stack: seq<nat>, n: nat)
    requires Canon(dd) && Recorded(nodes, dd) && Reached(nodes, dd, ext, stack) && RootsMarked(nodes, ext, stack)
    requires n in dd
    ensures Live(dd, ext, stack, n) <==> Marked(nodes, n)
  {
    if 2 <= n && Live(dd, ext, stack, n) {
      var r :| Root(ext, stack, r) && r in dd && Subtree(dd[n], dd[r]);
      MarkedParts(nodes, dd, ext, stack, r, n);
    }
  }

  /**
    The live nodes are the least set with the constants and the roots that has
    with a node its two children: they are in every such set, ...
  */
  lemma {:induction false} LiveLeast(nodes: seq<BddNode>, dd: Trees, ext: set<nat>, stack: seq<nat>, s: set<nat>, n: nat)
    requires Canon(dd) && Recorded(nodes, dd) && 0 in s && 1 in s
    requires forall r: nat {:trigger r in s} :: r in ext || r in stack ==> r in s
    requires forall m: nat {:trigger m in s} :: m in s && m in dd && 2 <= m && m < |nodes| && 0 <= nodes[m].low && 0 <= nodes[m].high ==>
               (nodes[m].low as nat) in s && (nodes[m].high as nat) in s
    ensures Live(dd, ext, stack, n) ==> n in s
  {
    if 2 <= n && Live(dd, ext, stack, n) {
      var r :| Root(ext, stack, r) && r in dd && Subtree(dd[n], dd[r]);
      BelowRoot(nodes, dd, s, r, n);
    }
  }

  lemma {:induction false} BelowRoot(nodes: seq<BddNode>, dd: Trees, s: set<nat>, r: nat, n: nat)
    requires Canon(dd) && Recorded(nodes, dd) && r in s && r in dd && n in dd && 2 <= n && Subtree(dd[n], dd[r])
    requires forall m: nat {:trigger m in s} :: m in s && m in dd && 2 <= m && m < |nodes| && 0 <= nodes[m].low && 0 <= nodes[m].high ==>
               (nodes[m].low as nat) in s && (nodes[m].high as nat) in s
    ensures n in s
    decreases dd[r]
  {
    if dd[n] != dd[r] {
      assert 2 <= r && Fits(nodes, dd, r);
      BelowRoot(nodes, dd, s, if Subtree(dd[n], dd[nodes[r].low]) then nodes[r].low else nodes[r].high, n);
    }
  }

  /** ... and they are one. */
  lemma {:induction false} LiveClosed(nodes: seq<BddNode>, dd: Trees, ext: set<nat>, stack: seq<nat>, n: nat)
    requires Canon(dd) && Recorded(nodes, dd) && n in dd
    ensures n < 2 || n in ext || n in stack ==> Live(dd, ext, stack, n)
    ensures 2 <= n && Live(dd, ext, stack, n) ==>
              n < |nodes| && 0 <= nodes[n].low && 0 <= nodes[n].high && Live(dd, ext, stack, nodes[n].low) && Live(dd, ext, stack, nodes[n].high)
  {
    if n in ext || n in stack {
      assert Root(ext, stack, n);
    }
    if 2 <= n && Live(dd, ext, stack, n) {
      assert Fits(nodes, dd, n);
      var r :| Root(ext, stack, r) && r in dd && Subtree(dd[n], dd[r]);
      SubtreeTransitive(dd[n].lo, dd[n], dd[r]);
      SubtreeTransitive(dd[n].hi, dd[n], dd[r]);
    }
  }

  /** The trees of the live nodes. */
  ghost function LiveTrees(dd: Trees, ext: set<nat>, stack: seq<nat>): Trees {
    map n | n in dd && Live(dd, ext, stack, n) :: dd[n]
  }

  /* ---- sweeping ---- */

  /** The slot k after it was swept (m is the record before): a kept node is as it was, any other is free. */
  ghost predicate SweptSlot(m: BddNode, kept: bool, e: BddNode) {
    if kept then e.level == m.level && e.low == m.low && e.high == m.high && e.refcou == m.refcou && !e.mark
    else e.low == -1 && e.refcou == 0 && !e.mark && e.level == 0
  }

  ghost function Keys(m: seq<BddNode>, dd: Trees, hash: Hash): (r: seq<Key>)
    ensures |r| == |m| && forall k {:trigger r[k]} :: 0 <= k < |m| ==> r[k] == KeyOf(m, dd, hash, k)
  {
    seq(|m|, k requires 0 <= k => KeyOf(m, dd, hash, k))
  }

  /**
    A sweep from the records m, with the slots from n on done. keep is the set
    of trees to be kept.
  */
  ghost predicate Sweeping(m: seq<BddNode>, keep: Trees, hash: Hash, nodes: seq<BddNode>, lists: Lists, freepos: nat, place: Places, freenum: nat, n: nat) {
    && |nodes| == |m|
    && Rebuilding(nodes, lists, freepos, place, Keys(m, keep, hash), n)
    && (forall k {:trigger nodes[k]} :: 0 <= k < |m| && (k < 2 || k < n) ==> nodes[k] == m[k].(hash := nodes[k].hash, next := nodes[k].next))
    && (forall k {:trigger nodes[k]} :: 2 <= k < |m| && n <= k ==> SweptSlot(m[k], k in keep, nodes[k]))
    && freenum == |lists[Free]|
  }

  lemma SweepStart(m: seq<BddNode>, keep: Trees, hash: Hash)
    requires 2 <= |m| && forall k {:trigger m[k]} :: 0 <= k < |m| ==> m[k].hash == 0
    ensures Sweeping(m, keep, hash, m, NoLists(|m|), 0, map[], 0, |m|)
  {
    hide Rebuilding;
    RebuildStart(m, Keys(m, keep, hash));
  }

  /** A kept slot goes into the bucket of its key. */
  lemma SweepKeep(m: seq<BddNode>, keep: Trees, hash: Hash, nodes: seq<BddNode>, lists: Lists, freepos: nat, place: Places, freenum: nat, n: nat)
    requires Sweeping(m, keep, hash, nodes, lists, freepos, place, freenum, n + 1) && InRange(hash)
    requires 2 <= n < |m| && n in keep && 0 <= m[n].low && 0 <= m[n].high
    ensures nodes[n].level == m[n].level && nodes[n].low == m[n].low && nodes[n].high == m[n].high
    ensures var b := hash(|m|, m[n].level, m[n].low, m[n].high);
            var nodes1 := nodes[n := nodes[n].(mark := false)];
            && b < |m| && Bucket(b) in lists
            && Sweeping(m, keep, hash, LinkedNodes(nodes1, b, n), Pushed(lists, Bucket(b), n), freepos,
                        place[n := (Bucket(b), |lists[Bucket(b)]|)], freenum, n)
  {
    hide Rebuilding;
    var b := hash(|m|, m[n].level, m[n].low, m[n].high);
    var nodes1 := nodes[n := nodes[n].(mark := false)];
    RebuildTouch(nodes, lists, freepos, place, Keys(m, keep, hash), n + 1, nodes1);
    RebuildLink(nodes1, lists, freepos, place, Keys(m, keep, hash), n, b);
    FreeUntouched(nodes, lists, freepos, place, Keys(m, keep, hash), n + 1, b, n);
  }

  lemma FreeUntouched(nodes: seq<BddNode>, lists: Lists, freepos: nat, place: Places, keys: seq<Key>, n: nat, b: nat, r: nat)
    requires Rebuilding(nodes, lists, freepos, place, keys, n) && Bucket(b) in lists
    ensures Free in lists && Pushed(lists, Bucket(b), r)[Free] == lists[Free]
  {
  }

  /** Any other slot goes to the free list. */
  lemma SweepDrop(m: seq<BddNode>, keep: Trees, hash: Hash, nodes: seq<BddNode>, lists: Lists, freepos: nat, place: Places, freenum: nat, n: nat, e: BddNode)
    requires Sweeping(m, keep, hash, nodes, lists, freepos, place, freenum, n + 1)
    requires 2 <= n < |m| && n !in keep && SweptSlot(m[n], false, e) && e.next == freepos && e.hash == nodes[n].hash
    ensures Free in lists
    ensures Sweeping(m, keep, hash, nodes[n := e], Pushed(lists, Free, n), n, place[n := (Free, |lists[Free]|)], freenum + 1, n)
  {
    hide Rebuilding;
    RebuildRange(nodes, lists, freepos, place, Keys(m, keep, hash), n + 1);
    RebuildFree(nodes, lists, freepos, place, Keys(m, keep, hash), n, nodes[n := e]);
  }

  /** What the sweep needs to know about the records it starts from. */
  ghost predicate Sweepable(m: seq<BddNode>, keep: Trees, ext: set<nat>) {
    && 2 <= |m| && Canon(keep)
    && (forall n {:trigger n in keep} :: n in keep ==> n < |m| && (2 <= n ==> Fits(m, keep, n)))
    && (forall n {:trigger n in ext} :: n in ext ==> n in keep && 2 <= n < |m|)
    && (forall n {:trigger m[n]} :: 2 <= n < |m| && n in keep ==> (n in ext <==> 0 < m[n].refcou))
    && !m[0].mark && !m[1].mark
  }

  lemma Swept(m: seq<BddNode>, keep: Trees, hash: Hash, ext: set<nat>, nodes: seq<BddNode>, lists: Lists, freepos: nat, place: Places, freenum: nat)
    requires InRange(hash) && Sweepable(m, keep, ext) && Sweeping(m, keep, hash, nodes, lists, freepos, place, freenum, 2)
    ensures Sound(Table(nodes, freepos, freenum, keep, ext, lists, place), hash)
  {
    SweptSlots(m, keep, hash, nodes, lists, freepos, place, freenum);
    hide Heads, Threaded, Canon, SweptSlot;
    SweptRecords(m, keep, hash, ext, nodes, place);
  }

  lemma SweptSlots(m: seq<BddNode>, keep: Trees, hash: Hash, nodes: seq<BddNode>, lists: Lists, freepos: nat, place: Places, freenum: nat)
    requires Sweeping(m, keep, hash, nodes, lists, freepos, place, freenum, 2)
    ensures |nodes| == |m| && forall k {:trigger nodes[k]} :: 2 <= k < |m| ==> SweptSlot(m[k], k in keep, nodes[k])
    ensures 2 <= |m| ==> nodes[0].mark == m[0].mark && nodes[1].mark == m[1].mark
    ensures forall n {:trigger n in place} :: n in place <==> 2 <= n < |nodes|
    ensures forall n {:trigger place[n]} :: n in place ==> place[n].0 == KeyOf(m, keep, hash, n)
  {
    hide Heads, Threaded;
  }

  lemma SweptRecords(m: seq<BddNode>, keep: Trees, hash: Hash, ext: set<nat>, nodes: seq<BddNode>, place: Places)
    requires Sweepable(m, keep, ext) && |nodes| == |m|
    requires forall k {:trigger nodes[k]} :: 2 <= k < |m| ==> SweptSlot(m[k], k in keep, nodes[k])
    requires nodes[0].mark == m[0].mark && nodes[1].mark == m[1].mark
    requires forall n {:trigger n in place} :: n in place <==> 2 <= n < |nodes|
    requires forall n {:trigger place[n]} :: n in place ==> place[n].0 == KeyOf(m, keep, hash, n)
    ensures Recorded(nodes, keep) && Referenced(nodes, keep, ext) && Unmarked(nodes) && Keyed(nodes, keep, hash, place)
  {
    forall n | n in keep && 2 <= n ensures Fits(nodes, keep, n) {
      assert Fits(m, keep, n) && nodes[n] == nodes[n];
    }
    forall n | n in place ensures place[n].0 == KeyOf(nodes, keep, hash, n) {
      assert place[n].0 == KeyOf(m, keep, hash, n) && nodes[n] == nodes[n];
      assert n in keep ==> Fits(m, keep, n);
    }
  }

  /** The marked records, with all chain heads zeroed, can be swept down to the live trees. */
  lemma MarkedSweepable(t: Table, stack: seq<nat>, m: seq<BddNode>)
    requires OnRecord(t.nodes, t.dd, t.ext) && |m| == |t.nodes|
    requires forall n {:trigger m[n]} :: 0 <= n < |m| ==> m[n] == t.nodes[n].(mark := m[n].mark, hash := 0)
    requires Reached(m, t.dd, t.ext, stack) && RootsMarked(m, t.ext, stack)
    requires forall r {:trigger r in stack} :: r in stack ==> r in t.dd
    ensures Sweepable(m, LiveTrees(t.dd, t.ext, stack), t.ext)
    ensures forall n {:trigger m[n]} :: 2 <= n < |m| ==> (m[n].mark <==> n in LiveTrees(t.dd, t.ext, stack))
    ensures forall n {:trigger m[n]} :: 2 <= n < |m| && m[n].mark ==> 0 <= m[n].low && 0 <= m[n].high
  {
    var keep := LiveTrees(t.dd, t.ext, stack);
    MarkedRecorded(t, m);
    hide OnRecord;
    forall n | 2 <= n < |m|
      ensures m[n].mark <==> n in keep
      ensures m[n].mark ==> 0 <= m[n].low && 0 <= m[n].high && m[n].low in keep && m[n].high in keep && Fits(m, keep, n)
    {
      if n in t.dd {
        MarkedIsLive(m, t.dd, t.ext, stack, n);
        assert Fits(m, t.dd, n);
        MarkedIsLive(m, t.dd, t.ext, stack, m[n].low);
        MarkedIsLive(m, t.dd, t.ext, stack, m[n].high);
        assert m[n].mark ==> ChildrenMarked(m, n);
      }
    }
    forall n | n in t.ext ensures n in keep {
      assert Root(t.ext, stack, n);
      MarkedIsLive(m, t.dd, t.ext, stack, n);
    }
    LiveCanon(t.dd, t.ext, stack);
  }

  lemma MarkedRecorded(t: Table, m: seq<BddNode>)
    requires Canon(t.dd) && Recorded(t.nodes, t.dd) && Referenced(t.nodes, t.dd, t.ext) && |m| == |t.nodes|
    requires forall n {:trigger m[n]} :: 0 <= n < |m| ==> m[n] == t.nodes[n].(mark := m[n].mark, hash := 0)
    ensures Recorded(m, t.dd) && Referenced(m, t.dd, t.ext)
  {
    forall n | n in t.dd && 2 <= n ensures Fits(m, t.dd, n) {
      assert Fits(t.nodes, t.dd, n) && m[n] == m[n];
    }
  }

  lemma LiveCanon(dd: Trees, ext: set<nat>, stack: seq<nat>)
    requires Canon(dd)
    ensures Canon(LiveTrees(dd, ext, stack))
  {
    var keep := LiveTrees(dd, ext, stack);
    forall n | n in keep ensures keep[n] == dd[n] {}
    hide Live;
  }

  lemma CollectKeeps(t: Table, stack: seq<nat>, t': Table)
    requires t'.dd == LiveTrees(t.dd, t.ext, stack) && t'.ext == t.ext && SameCounts(t.nodes, t.ext, t'.nodes)
    ensures Keeps(t, stack, t')
  {
  }

  /** A larger table with all heads zeroed can be swept without losing anything. */
  lemma GrownSweepable(t: Table, hash: Hash, m: seq<BddNode>)
    requires Sound(t, hash) && |t.nodes| <= |m| && forall n {:trigger t.nodes[n]} :: 2 <= n < |t.nodes| && t.nodes[n].low == -1 ==> t.nodes[n].level == 0
    requires forall n {:trigger m[n]} :: 0 <= n < |t.nodes| ==> m[n] == t.nodes[n].(hash := 0)
    requires forall n {:trigger m[n]} :: |t.nodes| <= n < |m| ==> m[n].low == -1 && m[n].refcou == 0 && !m[n].mark && m[n].level == 0
    ensures Sweepable(m, t.dd, t.ext)
    ensures forall n {:trigger m[n]} :: 2 <= n < |m| ==> (m[n].low != -1 <==> n in t.dd)
    ensures forall n {:trigger m[n]} :: 2 <= n < |m| && n in t.dd ==> 0 <= m[n].low && 0 <= m[n].high
    ensures forall n {:trigger m[n]} :: 2 <= n < |m| ==> !m[n].mark && (n !in t.dd ==> m[n].refcou == 0 && m[n].level == 0)
  {
    hide Heads, Threaded, Keyed;
    forall n | n in t.dd ensures n < |m| && (2 <= n ==> Fits(m, t.dd, n)) {
      assert 2 <= n ==> Fits(t.nodes, t.dd, n);
      assert m[n] == m[n];
      if 2 <= n { assert m[n].low in t.dd && m[n].high in t.dd; }
    }
  }
}
