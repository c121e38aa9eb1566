/**
  reorder_localGbc, argued on values: after an exchange only the chains of the
  lower variable are searched for dead nodes. Nothing else can have died, and
  giving up a dead node's children never kills one of them.
*/
module LocalGbc {
  import opened Threads
  import opened SwapTheory
  import opened Counting
  import opened SessionState
  import opened RefCounts
  import opened ReorderSteps

  /** Before the exchange every node was saturated, held from outside or had a parent. */
  ghost predicate Anchored(s0: State, ext: map<nat, nat>) {
    forall n {:trigger n in s0.g} :: n in s0.g ==>
      n < |s0.nodes| && (s0.nodes[n].refcou == MAXREF || n in ext || exists q {:trigger IsParent(s0.g, q, n)} :: IsParent(s0.g, q, n))
  }

  lemma AnchoredAlive(s0: State, ext: map<nat, nat>)
    requires Refs(s0.nodes, s0.g, ext, multiset{}) && Alive(s0.nodes, s0.g)
    ensures Anchored(s0, ext)
  {
    forall n | n in s0.g
      ensures n < |s0.nodes| && (s0.nodes[n].refcou == MAXREF || n in ext || exists q {:trigger IsParent(s0.g, q, n)} :: IsParent(s0.g, q, n))
    {
      assert RefOk(s0.nodes[n].refcou, s0.g, ext, multiset{}, n);
      HasParent(s0.g, n);
    }
  }

  /** Only unsaturated v1 nodes without outside references have been dropped. */
  ghost predicate Dropped(s0: State, h: Graph, ext: map<nat, nat>, v1: nat) {
    forall n {:trigger n in h} {:trigger n in s0.g} :: n in s0.g && n !in h ==>
      n < |s0.nodes| && s0.g[n].v == v1 && n !in ext && s0.nodes[n].refcou != MAXREF
  }

  /** The nodes of variable v. */
  ghost function RowAll(g: Graph, v: nat): set<nat> { set n | n in g && g[n].v == v }

  ghost predicate GbcNode(s: State, v1: nat, upto: nat, n: nat) {
    && n in s.g && n in s.place && n < |s.nodes|
    && (s.place[n].0.Bucket? || (s.place[n].0 == Hand && s.g[n].v == v1))
    && (s.place[n].0.Bucket? && s.g[n].v == v1 && s.place[n].0.b < upto ==> 0 < s.nodes[n].refcou)
  }

  /** The bookkeeping part of the loop invariant. */
  ghost predicate GbcBooks(s: State, hash: Hash, ext: map<nat, nat>, v1: nat, upto: nat) {
    && Sound(s, hash) && Refs(s.nodes, s.g, ext, multiset{})
    && v1 < |s.levels|
    && (forall n {:trigger n in s.g} :: n in s.g ==> GbcNode(s, v1, upto, n))
    && (forall v {:trigger s.levels[v]} :: 0 <= v < |s.levels| ==> s.levels[v].nodenum == |RowAll(s.g, v)|)
    && Todo in s.lists && Hand in s.lists && s.lists[Todo] == []
    && HandFrom(s, hash, upto - 1)
  }

  /** What the loop keeps of the exchange; s0 is the state before it. */
  ghost predicate GbcLoop(s0: State, s: State, hash: Hash, ext: map<nat, nat>, lev: Order, v0: nat, v1: nat, upto: nat) {
    && GbcBooks(s, hash, ext, v1, upto)
    && Swapping(s0.g, s.g, lev, v0, v1, {})
    && Anchored(s0, ext) && Dropped(s0, s.g, ext, v1) && FreshHeld(s0.g, s.g, v0, v1, {})
    && |s.levels| == |s0.levels| && SameTables(s0.levels, s.levels) && Sticky(s0.nodes, s0.g, s.nodes)
  }

  lemma GbcStart(s0: State, s: State, hash: Hash, ext: map<nat, nat>, lev: Order, v0: nat, v1: nat)
    requires SwapLoop(s0, s, hash, ext, lev, v0, v1) && s.lists[Todo] == [] && Anchored(s0, ext)
    ensures GbcLoop(s0, s, hash, ext, lev, v0, v1, s.levels[v1].start)
    ensures v1 < |s0.levels| && s.levels[v1].start == s0.levels[v1].start && s.levels[v1].size == s0.levels[v1].size
  {
    hide Sound, Swapping, Refs, Row;
    forall n | n in s.g ensures GbcNode(s, v1, s.levels[v1].start, n) && Chained(s.g, s.place, n) {
      assert Settled(s0.g, s, v0, v1, n);
      NodeFacts(s, hash, n);
      PlaceFacts(s, hash, n);
      EntryFacts(s, hash, s.place[n].0, s.place[n].1);
      TableFacts(s, hash, v1);
    }
    assert Waiting(s) == {};
    forall v | 0 <= v < |s.levels| ensures s.levels[v].nodenum == |RowAll(s.g, v)| {
      RowIsAll(s.g, s.place, v);
    }
    assert Dropped(s0, s.g, ext, v1);
  }

  lemma RowIsAll(g: Graph, place: Places, v: nat)
    requires forall n {:trigger n in g} :: n in g ==> Chained(g, place, n)
    ensures Row(g, place, v) == RowAll(g, v)
  {
    forall n ensures n in Row(g, place, v) <==> n in RowAll(g, v) {}
  }

  lemma GbcDetach(s0: State, s: State, hash: Hash, ext: map<nat, nat>, lev: Order, v0: nat, v1: nat, b: nat)
    requires GbcLoop(s0, s, hash, ext, lev, v0, v1, b) && s.lists[Hand] == []
    requires v1 < |s0.levels| && s0.levels[v1].start <= b < s0.levels[v1].start + s0.levels[v1].size
    ensures b < |s.nodes| && Bucket(b) in s.lists && Sound(s, hash)
    ensures GbcLoop(s0, Detached(s, b), hash, ext, lev, v0, v1, b + 1)
    ensures s.nodes[b].hash == Head(Detached(s, b).lists, Hand)
  {
    hide Sound, Swapping, Refs, Row, RowAll, Anchored, FreshHeld, Dropped;
    TableFacts(s, hash, v1);
    BucketFacts(s, hash, b);
    SortDetachHand(s, hash, ext, v1, v1, b);
    DetachSound(s, hash, b);
    var t := Detached(s, b);
    DetachHand(s, b);
    forall n | n in t.g ensures GbcNode(t, v1, b + 1, n) {
      assert GbcNode(s, v1, b, n);
      PlaceFacts(s, hash, n);
      EntryFacts(s, hash, s.place[n].0, s.place[n].1);
      if s.place[n].0 == Bucket(b) { OwnBucket(s, hash, v1, s.g[n]); }
    }
    RefsLinks(s.nodes, s.g, ext, multiset{}, t.nodes);
    StickyNodes(s0.nodes, s.nodes, t.nodes, s0.g);
  }

  lemma DetachHand(s: State, b: nat)
    requires b < |s.nodes| && Bucket(b) in s.lists && s.nodes[b].hash == Head(s.lists, Bucket(b))
    ensures s.nodes[b].hash == Head(Detached(s, b).lists, Hand)
    ensures SameButLinks(s.nodes, Detached(s, b).nodes)
  {
  }

  lemma StickyNodes(a: seq<BddNode>, b: seq<BddNode>, c: seq<BddNode>, g: Graph)
    requires Sticky(a, g, b) && SameButLinks(b, c)
    ensures Sticky(a, g, c)
  {
  }

  /** A node that is still referenced goes back. */
  lemma {:induction false} GbcStay(s0: State, s: State, hash: Hash, ext: map<nat, nat>, lev: Order, v0: nat, v1: nat, b: nat)
    requires GbcLoop(s0, s, hash, ext, lev, v0, v1, b + 1) && s.lists[Hand] != []
    requires Head(s.lists, Hand) != 0 && Head(s.lists, Hand) < |s.nodes| && 0 < s.nodes[Head(s.lists, Hand)].refcou
    ensures var r := Head(s.lists, Hand);
            && r < |s.nodes| && b < |s.nodes| && Bucket(b) in Taken(s, Hand).lists
            && var t := Inserted(Taken(s, Hand), b, r);
            && GbcLoop(s0, t, hash, ext, lev, v0, v1, b + 1) && t.lists[Hand] == Popped(s.lists, Hand)[Hand]
  {
    hide Sound, Swapping, Refs, Row, RowAll, Anchored, FreshHeld, Dropped;
    var r := Head(s.lists, Hand);
    GbcHead(s, hash, ext, v1, b);
    TakeSound(s, hash, Hand);
    var s1 := Taken(s, Hand);
    InsertSound(s1, hash, r);
    var t := Inserted(s1, b, r);
    forall n | n in t.g ensures GbcNode(t, v1, b + 1, n) {
      assert GbcNode(s, v1, b + 1, n);
    }
    RefsLinks(s.nodes, s.g, ext, multiset{}, t.nodes);
    StickyNodes(s0.nodes, s.nodes, t.nodes, s0.g);
    HandPops(s, t, hash, b);
  }

  lemma HandPops(s: State, t: State, hash: Hash, b: nat)
    requires HandFrom(s, hash, b) && s.lists[Hand] != [] && Hand in t.lists && t.lists[Hand] == Popped(s.lists, Hand)[Hand]
    requires t.levels == s.levels && forall n {:trigger n in s.g} :: n in s.g && n in t.lists[Hand] ==> n in t.g && t.g[n] == s.g[n]
    ensures HandFrom(t, hash, b)
  {
    forall i | 0 <= i < |t.lists[Hand]|
      ensures var r := t.lists[Hand][i]; r in t.g && t.g[r].v < |t.levels| && BucketOf(t.g[r], t.levels, hash) == b
    {
      assert t.lists[Hand][i] == s.lists[Hand][i];
      assert t.lists[Hand][i] in t.lists[Hand];
    }
  }

  lemma GbcHead(s: State, hash: Hash, ext: map<nat, nat>, v1: nat, b: nat)
    requires GbcBooks(s, hash, ext, v1, b + 1) && Head(s.lists, Hand) != 0
    ensures s.lists[Hand] != [] && Sound(s, hash)
    ensures var r := Head(s.lists, Hand);
            && 2 <= r < |s.nodes| && r in s.g && r in s.place && s.place[r].0 == Hand
            && s.g[r].v == v1 && BucketOf(s.g[r], s.levels, hash) == b
            && s.nodes[r].next == Head(Taken(s, Hand).lists, Hand)
  {
    hide Sound, Refs, Row, RowAll;
    var c := s.lists[Hand];
    TakeHead(s, hash, Hand);
    assert c[|c| - 1] in s.g && GbcNode(s, v1, b + 1, c[|c| - 1]);
  }

  lemma RewrittenHeld(s0: State, s: State, ext: map<nat, nat>, lev: Order, v0: nat, v1: nat, r: nat)
    requires Swapping(s0.g, s.g, lev, v0, v1, {}) && Anchored(s0, ext) && Dropped(s0, s.g, ext, v1)
    requires Depends(s0.g, r, v0, v1) && r < |s0.nodes| && s0.nodes[r].refcou != MAXREF && r !in ext
    ensures exists q {:trigger IsParent(s.g, q, r)} :: IsParent(s.g, q, r)
  {
    var g := s0.g;
    var q :| IsParent(g, q, r);
    assert GoodNode(g, lev, q) && GoodNode(g, lev, r);
    assert q in s.g;
    assert Kept(g, s.g, q, v0, v1, {});
    assert IsParent(s.g, q, r);
  }

  /** A rewritten node is never dead: what pointed to it from above still does. */
  lemma DeadIsOld(s0: State, s: State, ext: map<nat, nat>, lev: Order, v0: nat, v1: nat, r: nat)
    requires Swapping(s0.g, s.g, lev, v0, v1, {}) && Anchored(s0, ext) && Dropped(s0, s.g, ext, v1)
    requires Sticky(s0.nodes, s0.g, s.nodes)
    requires r in s.g && r < |s.nodes| && s.g[r].v == v1 && s.nodes[r].refcou == 0 && r !in ext
    requires forall q {:trigger IsParent(s.g, q, r)} :: !IsParent(s.g, q, r)
    ensures r in s0.g && !Depends(s0.g, r, v0, v1) && s.g[r] == s0.g[r]
    ensures r < |s0.nodes| && s0.nodes[r].refcou != MAXREF
  {
    var g := s0.g;
    assert r !in g ==> Fresh(g, s.g, lev, r, v0, v1);
    assert Kept(g, s.g, r, v0, v1, {});
    if Depends(g, r, v0, v1) {
      RewrittenHeld(s0, s, ext, lev, v0, v1, r);
    }
  }

  /** The exchange relation does not mind losing a node that nothing points to. */
  lemma SwapDrop(g0: Graph, h: Graph, lev: Order, v0: nat, v1: nat, r: nat)
    requires Swapping(g0, h, lev, v0, v1, {}) && r in h
    requires forall q {:trigger IsParent(h, q, r)} :: !IsParent(h, q, r)
    ensures Swapping(g0, h - {r}, lev, v0, v1, {})
  {
    var h' := h - {r};
    hide Wf, Unique, IsMk, Depends;
    forall n | n in h'
      ensures Node(h', h'[n].low) && Node(h', h'[n].high)
      ensures n in g0 ==> Kept(g0, h', n, v0, v1, {})
      ensures n !in g0 ==> Fresh(g0, h', lev, n, v0, v1)
    {
      assert Node(h, h[n].low) && !IsParent(h, n, r);
      DropKept(g0, h, lev, v0, v1, r, n);
    }
  }

  lemma {:induction false} DropKept(g0: Graph, h: Graph, lev: Order, v0: nat, v1: nat, r: nat, n: nat)
    requires Swapping(g0, h, lev, v0, v1, {}) && r in h && n in h && n != r
    requires forall q {:trigger IsParent(h, q, r)} :: !IsParent(h, q, r)
    ensures n in g0 ==> Kept(g0, h - {r}, n, v0, v1, {})
    ensures n !in g0 ==> Fresh(g0, h - {r}, lev, n, v0, v1)
  {
    hide Wf, Unique, Cof;
    assert !IsParent(h, n, r);
    if n in g0 {
      assert Kept(g0, h, n, v0, v1, {});
    } else {
      assert Fresh(g0, h, lev, n, v0, v1);
    }
  }

  lemma DropHeld(g0: Graph, h: Graph, v0: nat, v1: nat, r: nat)
    requires FreshHeld(g0, h, v0, v1, {}) && r in h && !Depends(g0, r, v0, v1)
    ensures FreshHeld(g0, h - {r}, v0, v1, {})
  {
    forall n | n in h - {r} && n !in g0 ensures Held(g0, h - {r}, v0, v1, n) {
      assert Held(g0, h, v0, v1, n);
      var q :| q in g0 && Depends(g0, q, v0, v1) && IsParent(h, q, n);
      assert IsParent(h - {r}, q, n);
    }
  }

  /** The children of an old v1 node test neither variable. */
  lemma DeadChildren(g0: Graph, h: Graph, lev: Order, v0: nat, v1: nat, r: nat)
    requires Swapping(g0, h, lev, v0, v1, {}) && r in h && r in g0 && h[r] == g0[r] && g0[r].v == v1
    ensures h[r].low in h ==> h[h[r].low].v != v1
    ensures h[r].high in h ==> h[h[r].high].v != v1
    ensures h[r].low != h[r].high && Node(h, h[r].low) && Node(h, h[r].high) && h[r].low != r && h[r].high != r
  {
    assert GoodNode(g0, lev, r);
    BelowUntouched(g0, h, lev, v0, v1, {}, h[r].low);
    BelowUntouched(g0, h, lev, v0, v1, {}, h[r].high);
  }

  /** The state after the dead node r has given up its children and its slot. */
  ghost function Reclaimed(s: State, r: nat, low: nat, high: nat): State
    requires r < |s.nodes| && low < |s.nodes| && high < |s.nodes| && Hand in s.lists && s.lists[Hand] != [] && Free in s.lists
  {
    var s1 := Taken(s, Hand);
    Released(s1.(nodes := GivenUp(s1.nodes, low, high)), r)
  }

  lemma GbcDrop(s0: State, s: State, hash: Hash, ext: map<nat, nat>, lev: Order, v0: nat, v1: nat, b: nat)
    requires GbcLoop(s0, s, hash, ext, lev, v0, v1, b + 1) && s.lists[Hand] != []
    requires Head(s.lists, Hand) != 0 && Head(s.lists, Hand) < |s.nodes| && s.nodes[Head(s.lists, Hand)].refcou == 0
    ensures var r := Head(s.lists, Hand);
            && r in s.g && s.g[r].low < |s.nodes| && s.g[r].high < |s.nodes| && Free in s.lists
            && s.nodes[r].low == s.g[r].low && s.nodes[r].high == s.g[r].high && s.g[r].low != s.g[r].high
            && 0 < s.levels[v1].nodenum
            && var t := Reclaimed(s, r, s.g[r].low, s.g[r].high);
            && GbcLoop(s0, t.(levels := t.levels[v1 := t.levels[v1].(nodenum := t.levels[v1].nodenum - 1)]), hash, ext, lev, v0, v1, b + 1)
            && t.lists[Hand] == Popped(s.lists, Hand)[Hand]
  {
    hide Sound, Swapping, Refs, Row, RowAll, Anchored, FreshHeld, Dropped, Sticky, SameTables, GbcNode, HandFrom;
    var r := Head(s.lists, Hand);
    GbcHead(s, hash, ext, v1, b);
    GbcDead(s0, s, hash, ext, lev, v0, v1, b, r);
    GbcCount(s, r);
    assert |RowAll(s.g, v1)| == |RowAll(s.g - {r}, v1)| + 1;
    var t := Reclaimed(s, r, s.g[r].low, s.g[r].high);
    var t' := t.(levels := t.levels[v1 := t.levels[v1].(nodenum := t.levels[v1].nodenum - 1)]);
    ReclaimSound(s, hash, r, s.g[r].low, s.g[r].high, v1);
    ReclaimRefs(s, hash, ext, r);
    SwapDrop(s0.g, s.g, lev, v0, v1, r);
    DropHeld(s0.g, s.g, v0, v1, r);
    DropDropped(s0, s.g, ext, v1, r);
    ReclaimNodes(s, t', v1, b, r);
    HandLevels(s, t', hash, b, v1, r);
    SameTablesNodenum(s.levels, v1, s.levels[v1].nodenum - 1);
    SameTablesTrans(s0.levels, s.levels, t'.levels);
    DroppedUnsaturated(s0, s.g, ext, v1);
    StickyDrop(s0, s.nodes, s.g, r, t'.nodes);
  }

  lemma GbcDead(s0: State, s: State, hash: Hash, ext: map<nat, nat>, lev: Order, v0: nat, v1: nat, b: nat, r: nat)
    requires GbcLoop(s0, s, hash, ext, lev, v0, v1, b + 1)
    requires r in s.g && r < |s.nodes| && s.g[r].v == v1 && s.nodes[r].refcou == 0
    ensures r !in ext && forall q {:trigger IsParent(s.g, q, r)} :: !IsParent(s.g, q, r)
    ensures r in s0.g && !Depends(s0.g, r, v0, v1) && s.g[r] == s0.g[r] && r < |s0.nodes| && s0.nodes[r].refcou != MAXREF
    ensures s.nodes[r].low == s.g[r].low && s.nodes[r].high == s.g[r].high && s.g[r].low != s.g[r].high
    ensures s.g[r].low < |s.nodes| && s.g[r].high < |s.nodes| && s.g[r].low != r && s.g[r].high != r
    ensures s.g[r].low in s.g ==> s.g[s.g[r].low].v != v1
    ensures s.g[r].high in s.g ==> s.g[s.g[r].high].v != v1
    ensures Free in s.lists && Hand in s.lists
  {
    RefZero(s.nodes, s.g, ext, r);
    hide Sound, Swapping, Refs, RowAll, Anchored, FreshHeld, Dropped, Sticky, SameTables, GbcNode, HandFrom;
    DeadIsOld(s0, s, ext, lev, v0, v1, r);
    DeadChildren(s0.g, s.g, lev, v0, v1, r);
    ConstantFacts(s, hash);
    NodeFacts(s, hash, r);
    if s.g[r].low in s.g { NodeFacts(s, hash, s.g[r].low); }
    if s.g[r].high in s.g { NodeFacts(s, hash, s.g[r].high); }
  }

  lemma RefZero(nodes: seq<BddNode>, g: Graph, ext: map<nat, nat>, r: nat)
    requires Refs(nodes, g, ext, multiset{}) && r in g && r < |nodes| && nodes[r].refcou == 0
    ensures r !in ext && forall q {:trigger IsParent(g, q, r)} :: !IsParent(g, q, r)
  {
    HasParent(g, r);
    assert RefOk(nodes[r].refcou, g, ext, multiset{}, r);
  }

  lemma GbcCount(s: State, r: nat)
    requires r in s.g
    ensures forall v {:trigger RowAll(s.g - {r}, v)} ::
              |RowAll(s.g, v)| == |RowAll(s.g - {r}, v)| + if v == s.g[r].v then 1 else 0
  {
    forall v ensures |RowAll(s.g, v)| == |RowAll(s.g - {r}, v)| + if v == s.g[r].v then 1 else 0 {
      if v == s.g[r].v {
        forall n ensures n in RowAll(s.g, v) <==> n in RowAll(s.g - {r}, v) || n == r {}
        assert RowAll(s.g, v) == RowAll(s.g - {r}, v) + {r};
      } else {
        forall n ensures n in RowAll(s.g, v) <==> n in RowAll(s.g - {r}, v) {}
        assert RowAll(s.g, v) == RowAll(s.g - {r}, v);
      }
    }
  }

  lemma ReclaimSound(s: State, hash: Hash, r: nat, low: nat, high: nat, v1: nat)
    requires Sound(s, hash) && Hand in s.lists && s.lists[Hand] != [] && r == Head(s.lists, Hand) && r in s.g
    requires r < |s.nodes| && low < |s.nodes| && high < |s.nodes| && low != high && low != r && high != r
    requires Free in s.lists && v1 < |s.levels| && 0 < s.levels[v1].nodenum
    ensures var t := Reclaimed(s, r, low, high);
            && t.levels == s.levels && t.g == s.g - {r} && |t.nodes| == |s.nodes|
            && Sound(t.(levels := t.levels[v1 := t.levels[v1].(nodenum := t.levels[v1].nodenum - 1)]), hash)
            && Hand in t.lists && t.lists[Hand] == Popped(s.lists, Hand)[Hand]
            && (Todo in s.lists ==> Todo in t.lists && t.lists[Todo] == s.lists[Todo])
            && r in t.place && t.place[r].0 == Free && t.place == s.place[r := t.place[r]]
            && forall m {:trigger t.nodes[m]} :: 0 <= m < |s.nodes| && m != r ==>
                 t.nodes[m].refcou == if m == low || m == high then Dec(s.nodes[m].refcou) else s.nodes[m].refcou
  {
    hide Sound;
    TakeSound(s, hash, Hand);
    var s1 := Taken(s, Hand);
    GivenUpSound(s1, hash, low, high);
    var s2 := s1.(nodes := GivenUp(s1.nodes, low, high));
    ReleaseSound(s2, hash, r);
    var t := Released(s2, r);
    NodenumSound(t, hash, v1, t.levels[v1].nodenum - 1);
    hide GivenUp;
    forall m | 0 <= m < |s.nodes| && m != r
      ensures t.nodes[m].refcou == if m == low || m == high then Dec(s.nodes[m].refcou) else s.nodes[m].refcou
    {
      assert t.nodes[m] == s2.nodes[m];
    }
  }

  lemma ReclaimRefs(s: State, hash: Hash, ext: map<nat, nat>, r: nat)
    requires Sound(s, hash) && Refs(s.nodes, s.g, ext, multiset{}) && r in s.g && r < |s.nodes| && s.nodes[r].refcou == 0
    requires Hand in s.lists && s.lists[Hand] != [] && Free in s.lists && r == Head(s.lists, Hand)
    requires s.g[r].low < |s.nodes| && s.g[r].high < |s.nodes| && s.g[r].low != s.g[r].high && s.g[r].low != r && s.g[r].high != r
    ensures var t := Reclaimed(s, r, s.g[r].low, s.g[r].high);
            Refs(t.nodes, s.g - {r}, ext, multiset{}) && Sticky(s.nodes, s.g - {r}, t.nodes)
  {
    hide Sound, Refs, Sticky;
    var t := Reclaimed(s, r, s.g[r].low, s.g[r].high);
    GivenUpCounts(s.nodes, s.g[r].low, s.g[r].high);
    hide GivenUp;
    Drop(s.nodes, s.g, ext, r, t.nodes);
  }

  lemma DropDropped(s0: State, h: Graph, ext: map<nat, nat>, v1: nat, r: nat)
    requires Dropped(s0, h, ext, v1)
    requires r in h && (r in s0.g ==> r < |s0.nodes| && s0.g[r].v == v1 && r !in ext && s0.nodes[r].refcou != MAXREF)
    ensures Dropped(s0, h - {r}, ext, v1)
  {
  }

  lemma ReclaimNodes(s: State, t: State, v1: nat, b: nat, r: nat)
    requires forall n {:trigger n in s.g} :: n in s.g ==> GbcNode(s, v1, b + 1, n)
    requires r in s.g && t.g == s.g - {r} && |t.nodes| == |s.nodes| && r in t.place && t.place == s.place[r := t.place[r]]
    requires s.g[r].low in s.g ==> s.g[s.g[r].low].v != v1
    requires s.g[r].high in s.g ==> s.g[s.g[r].high].v != v1
    requires forall m {:trigger t.nodes[m]} :: 0 <= m < |s.nodes| && m != r ==>
               t.nodes[m].refcou == if m == s.g[r].low || m == s.g[r].high then Dec(s.nodes[m].refcou) else s.nodes[m].refcou
    ensures forall n {:trigger n in t.g} :: n in t.g ==> GbcNode(t, v1, b + 1, n)
  {
    forall n | n in t.g ensures GbcNode(t, v1, b + 1, n) {
      assert GbcNode(s, v1, b + 1, n);
    }
  }

  lemma HandLevels(s: State, t: State, hash: Hash, b: nat, v1: nat, r: nat)
    requires HandFrom(s, hash, b) && Sound(s, hash) && s.lists[Hand] != [] && r == Head(s.lists, Hand) && r in s.g
    requires Hand in t.lists && t.lists[Hand] == Popped(s.lists, Hand)[Hand]
    requires v1 < |s.levels| && 0 < s.levels[v1].nodenum && t.levels == s.levels[v1 := s.levels[v1].(nodenum := s.levels[v1].nodenum - 1)]
    requires t.g == s.g - {r}
    ensures HandFrom(t, hash, b)
  {
    hide Threaded, Placed, Keyed, Recorded, Heads, Tables, Constants;
    HandDistinct(s, hash, r);
    forall i | 0 <= i < |t.lists[Hand]|
      ensures var m := t.lists[Hand][i]; m in t.g && t.g[m].v < |t.levels| && BucketOf(t.g[m], t.levels, hash) == b
    {
      var m := t.lists[Hand][i];
      assert m == s.lists[Hand][i];
      assert BucketOf(t.g[m], t.levels, hash) == BucketOf(s.g[m], s.levels, hash);
    }
  }

  lemma HandDistinct(s: State, hash: Hash, r: nat)
    requires Sound(s, hash) && Hand in s.lists && s.lists[Hand] != [] && r == Head(s.lists, Hand)
    ensures forall i {:trigger s.lists[Hand][i]} :: 0 <= i < |s.lists[Hand]| - 1 ==> s.lists[Hand][i] != r
  {
    hide Sound;
    var c := s.lists[Hand];
    EntryFacts(s, hash, Hand, |c| - 1);
    forall i | 0 <= i < |c| - 1 ensures c[i] != r {
      EntryFacts(s, hash, Hand, i);
    }
  }

  lemma SameTablesTrans(a: Levels, b: Levels, c: Levels)
    requires SameTables(a, b) && SameTables(b, c)
    ensures SameTables(a, c)
  {
  }

  lemma DroppedUnsaturated(s0: State, h: Graph, ext: map<nat, nat>, v1: nat)
    requires Dropped(s0, h, ext, v1)
    ensures forall n {:trigger n in h} :: n in s0.g && n !in h ==> n < |s0.nodes| && s0.nodes[n].refcou != MAXREF
  {
  }

  lemma StickyDrop(s0: State, nodes: seq<BddNode>, h: Graph, r: nat, nodes': seq<BddNode>)
    requires Sticky(s0.nodes, s0.g, nodes) && Sticky(nodes, h - {r}, nodes')
    requires r in s0.g ==> r < |s0.nodes| && s0.nodes[r].refcou != MAXREF
    requires forall n {:trigger n in h} :: n in s0.g && n !in h ==> n < |s0.nodes| && s0.nodes[n].refcou != MAXREF
    ensures Sticky(s0.nodes, s0.g, nodes')
  {
    forall n | n in s0.g && n < |s0.nodes| && s0.nodes[n].refcou == MAXREF ensures nodes'[n].refcou == MAXREF {
      assert n in h && n in h - {r} && nodes[n].refcou == MAXREF;
    }
  }

  /**
    A session at rest: the table is closed, ordered, reduced and duplicate
    free, every bucket, counter and reference count is exact, nothing allocated
    is dead, and the interaction matrix covers every node.
  */
  ghost predicate Rest(s: State, hash: Hash, ext: map<nat, nat>, lev: Order, mtx: Matrix) {
    && Steady(s, hash, ext, multiset{}) && AtRest(s) && Alive(s.nodes, s.g)
    && |lev| == |s.levels| + 1 && Wf(s.g, lev) && Unique(s.g) && Covered(s.g, lev, mtx)
  }

  /** What one exchange promises about the nodes themselves. */
  ghost predicate Exchanged(g: Graph, lev: Order, h: Graph, lev': Order, ext: map<nat, nat>)
    requires Wf(g, lev) && Wf(h, lev')
  {
    && (forall n {:trigger n in ext} :: n in ext ==> n in g && n in h)
    && (forall n, a: Assign {:trigger Eval(h, lev', n, a)} :: n in g && n in h ==> Eval(h, lev', n, a) == Eval(g, lev, n, a))
  }

  lemma GbcChained(s0: State, s: State, hash: Hash, ext: map<nat, nat>, lev: Order, v0: nat, v1: nat)
    requires v1 < |s.levels|
    requires GbcLoop(s0, s, hash, ext, lev, v0, v1, s.levels[v1].start + s.levels[v1].size) && s.lists[Hand] == []
    ensures Steady(s, hash, ext, multiset{}) && AtRest(s)
    ensures forall n {:trigger n in s.g} :: n in s.g && s.g[n].v == v1 ==> n < |s.nodes| && 0 < s.nodes[n].refcou
  {
    hide Sound, Refs, Row, RowAll, Swapping, Anchored, Dropped, FreshHeld, Sticky, SameTables;
    var upto := s.levels[v1].start + s.levels[v1].size;
    forall n | n in s.g
      ensures Chained(s.g, s.place, n)
      ensures s.g[n].v == v1 ==> n < |s.nodes| && 0 < s.nodes[n].refcou
    {
      assert GbcNode(s, v1, upto, n);
      PlaceFacts(s, hash, n);
      EntryFacts(s, hash, s.place[n].0, s.place[n].1);
      TableFacts(s, hash, v1);
    }
    forall v | 0 <= v < |s.levels| ensures s.levels[v].nodenum == |Row(s.g, s.place, v)| {
      RowIsAll(s.g, s.place, v);
    }
  }

  lemma {:induction false} GbcAlive(s0: State, s: State, hash: Hash, ext: map<nat, nat>, lev: Order, v0: nat, v1: nat, upto: nat)
    requires GbcLoop(s0, s, hash, ext, lev, v0, v1, upto)
    requires forall n {:trigger n in s.g} :: n in s.g && s.g[n].v == v1 ==> n < |s.nodes| && 0 < s.nodes[n].refcou
    ensures Alive(s.nodes, s.g)
  {
    hide GbcLoop, ExchangeDone, Refs;
    GbcDone(s0, s, hash, ext, lev, v0, v1, upto);
    var full := set n | n in s0.g && n < |s0.nodes| && s0.nodes[n].refcou == MAXREF;
    forall n | n in s.g ensures n < |s.nodes| && 0 < s.nodes[n].refcou {
      if s.g[n].v != v1 {
        AliveNode(s0, s, ext, lev, v0, v1, full, n);
      }
    }
  }

  lemma {:induction false} GbcDone(s0: State, s: State, hash: Hash, ext: map<nat, nat>, lev: Order, v0: nat, v1: nat, upto: nat)
    requires GbcLoop(s0, s, hash, ext, lev, v0, v1, upto)
    ensures ExchangeDone(s0.g, s.g, lev, v0, v1, ext, set n | n in s0.g && n < |s0.nodes| && s0.nodes[n].refcou == MAXREF)
    ensures Refs(s.nodes, s.g, ext, multiset{}) && Sticky(s0.nodes, s0.g, s.nodes)
  {
    hide Sound, Swapping, RowAll, FreshHeld, Dropped, Anchored, ExchangeDone, SameTables, Sticky, RefOk, Closed;
    GbcExchange(s0, s, ext, lev, v0, v1, set n | n in s0.g && n < |s0.nodes| && s0.nodes[n].refcou == MAXREF);
  }

  /** A node of another variable is saturated, held from outside or has a parent. */
  lemma {:induction false} AliveNode(s0: State, s: State, ext: map<nat, nat>, lev: Order, v0: nat, v1: nat, full: set<nat>, n: nat)
    requires ExchangeDone(s0.g, s.g, lev, v0, v1, ext, full) && full == set n | n in s0.g && n < |s0.nodes| && s0.nodes[n].refcou == MAXREF
    requires Refs(s.nodes, s.g, ext, multiset{}) && Sticky(s0.nodes, s0.g, s.nodes) && n in s.g && s.g[n].v != v1
    ensures n < |s.nodes| && 0 < s.nodes[n].refcou
  {
    hide ExchangeDone, IsParent, Closed, Parents;
    assert RefOk(s.nodes[n].refcou, s.g, ext, multiset{}, n);
    HasParent(s.g, n);
    if n !in ext && n !in full {
      NoOrphan(s0.g, s.g, lev, v0, v1, ext, full, n);
    }
  }

  lemma GbcExchange(s0: State, s: State, ext: map<nat, nat>, lev: Order, v0: nat, v1: nat, full: set<nat>)
    requires Swapping(s0.g, s.g, lev, v0, v1, {}) && Anchored(s0, ext) && Dropped(s0, s.g, ext, v1) && FreshHeld(s0.g, s.g, v0, v1, {})
    requires forall n {:trigger n in ext} :: n in ext ==> n in s.g
    requires full == set n | n in s0.g && n < |s0.nodes| && s0.nodes[n].refcou == MAXREF
    ensures ExchangeDone(s0.g, s.g, lev, v0, v1, ext, full)
  {
    hide Swapping;
    forall n | n in s.g && n !in s0.g
      ensures exists q {:trigger IsParent(s.g, q, n)} :: q in s0.g && Depends(s0.g, q, v0, v1) && IsParent(s.g, q, n)
    {
      assert Held(s0.g, s.g, v0, v1, n);
    }
  }

  lemma SwapCovered(g: Graph, h: Graph, lev: Order, v0: nat, v1: nat, mtx: Matrix)
    requires Swapping(g, h, lev, v0, v1, {}) && Wf(h, SwapLevels(lev, v0, v1)) && Covered(g, lev, mtx)
    requires FreshHeld(g, h, v0, v1, {})
    requires forall n {:trigger Depends(g, n, v0, v1)} :: Depends(g, n, v0, v1) ==> n in h
    ensures Covered(h, SwapLevels(lev, v0, v1), mtx)
  {
    var lev' := SwapLevels(lev, v0, v1);
    hide Swapping;
    forall n | n in h ensures CoveredNode(h, lev', mtx, n) {
      if n in g {
        assert CoveredNode(g, lev, mtx, n);
        SwapSupport(g, h, lev, v0, v1, n);
      } else {
        assert Held(g, h, v0, v1, n);
        var q :| q in g && Depends(g, q, v0, v1) && IsParent(h, q, n);
        assert CoveredNode(g, lev, mtx, q) && GoodNode(h, lev', q);
        SwapSupport(g, h, lev, v0, v1, q);
        assert Support(h, lev', n) <= Support(h, lev', q);
      }
    }
  }

  lemma DependsStay(s0: State, h: Graph, ext: map<nat, nat>, v0: nat, v1: nat)
    requires Dropped(s0, h, ext, v1) && v0 != v1
    ensures forall n {:trigger Depends(s0.g, n, v0, v1)} :: Depends(s0.g, n, v0, v1) ==> n in h
  {
  }

  lemma SwapExchanged(g: Graph, h: Graph, lev: Order, v0: nat, v1: nat, ext: map<nat, nat>)
    requires Swapping(g, h, lev, v0, v1, {})
    requires forall n {:trigger n in ext} :: n in ext ==> n in g && n in h
    ensures Wf(g, lev) && v0 < |lev| && v1 < |lev| && Wf(h, SwapLevels(lev, v0, v1)) && Unique(h)
    ensures Exchanged(g, lev, h, SwapLevels(lev, v0, v1), ext)
  {
    SwapWf(g, h, lev, v0, v1);
    SwapUnique(g, h, lev, v0, v1);
    forall n, a: Assign | n in g && n in h ensures Eval(h, SwapLevels(lev, v0, v1), n, a) == Eval(g, lev, n, a) {
      SwapEval(g, h, lev, v0, v1, n, a);
    }
  }

  lemma ExtStay(s0: State, s: State, ext: map<nat, nat>, v1: nat)
    requires Dropped(s0, s.g, ext, v1) && Refs(s0.nodes, s0.g, ext, multiset{})
    ensures forall n {:trigger n in ext} :: n in ext ==> n in s0.g && n in s.g
  {
  }

  lemma GbcEnd(s0: State, s: State, hash: Hash, ext: map<nat, nat>, lev: Order, mtx: Matrix, v0: nat, v1: nat)
    requires Rest(s0, hash, ext, lev, mtx) && v1 < |s.levels|
    requires GbcLoop(s0, s, hash, ext, lev, v0, v1, s.levels[v1].start + s.levels[v1].size) && s.lists[Hand] == []
    ensures v0 < |lev| && v1 < |lev| && Rest(s, hash, ext, SwapLevels(lev, v0, v1), mtx)
    ensures Exchanged(s0.g, lev, s.g, SwapLevels(lev, v0, v1), ext)
  {
    hide Sound, Refs, RowAll, Rows, Anchored, FreshHeld, Dropped, Swapping, Wf, Unique, AtRest, Alive, GbcNode, Covered, Exchanged, Sticky, SameTables;
    SwappingBounds(s0.g, s.g, lev, v0, v1);
    GbcChained(s0, s, hash, ext, lev, v0, v1);
    GbcAlive(s0, s, hash, ext, lev, v0, v1, s.levels[v1].start + s.levels[v1].size);
    ExtStay(s0, s, ext, v1);
    SwapExchanged(s0.g, s.g, lev, v0, v1, ext);
    DependsStay(s0, s.g, ext, v0, v1);
    SwapCovered(s0.g, s.g, lev, v0, v1, mtx);
  }

  /** A saturated node survives the exchange, saturated. */
  lemma {:induction false} GbcSticky(s0: State, s: State, hash: Hash, ext: map<nat, nat>, lev: Order, v0: nat, v1: nat, upto: nat, n: nat)
    requires GbcLoop(s0, s, hash, ext, lev, v0, v1, upto) && n in s0.g && n < |s0.nodes| && s0.nodes[n].refcou == MAXREF
    ensures n in s.g && n < |s.nodes| && s.nodes[n].refcou == MAXREF
  {
    hide GbcBooks, Swapping, Anchored, FreshHeld, SameTables;
  }

  lemma SwappingBounds(g: Graph, h: Graph, lev: Order, v0: nat, v1: nat)
    requires Swapping(g, h, lev, v0, v1, {})
    ensures v0 < |lev| && v1 < |lev| && v0 != v1
  {
  }

  lemma NothingFresh(g: Graph, v0: nat, v1: nat)
    ensures FreshHeld(g, g, v0, v1, {})
  {
  }

  lemma ExtInside(nodes: seq<BddNode>, g: Graph, ext: map<nat, nat>)
    requires Refs(nodes, g, ext, multiset{})
    ensures forall n {:trigger n in ext} :: n in ext ==> n in g
  {
  }

  lemma NoDepends(g: Graph, lev: Order, mtx: Matrix, v0: nat, v1: nat)
    requires Wf(g, lev) && Covered(g, lev, mtx) && !Marked(mtx, v0, v1)
    ensures forall n {:trigger Depends(g, n, v0, v1)} :: !Depends(g, n, v0, v1)
  {
    forall n ensures !Depends(g, n, v0, v1) {
      DependsMarked(g, lev, mtx, v0, v1, n);
    }
  }

  /** Independent variables: nothing but the order changes. */
  lemma IndependentRest(s: State, hash: Hash, ext: map<nat, nat>, lev: Order, mtx: Matrix, v0: nat, v1: nat)
    requires Rest(s, hash, ext, lev, mtx) && !Marked(mtx, v0, v1)
    requires v0 < |s.levels| && v1 < |s.levels| && lev[v1] == lev[v0] + 1
    ensures Rest(s, hash, ext, SwapLevels(lev, v0, v1), mtx)
    ensures Exchanged(s.g, lev, s.g, SwapLevels(lev, v0, v1), ext)
  {
    hide Sound, Refs, Rows, FreshHeld, Swapping, Wf, Unique, AtRest, Alive, Covered, Exchanged, Depends;
    NoDepends(s.g, lev, mtx, v0, v1);
    SwapNothing(s.g, lev, v0, v1);
    ExtInside(s.nodes, s.g, ext);
    SwapExchanged(s.g, s.g, lev, v0, v1, ext);
    NothingFresh(s.g, v0, v1);
    SwapCovered(s.g, s.g, lev, v0, v1, mtx);
  }

  lemma GbcHandZero(s: State, hash: Hash, ext: map<nat, nat>, v1: nat, upto: nat)
    requires GbcBooks(s, hash, ext, v1, upto) && Head(s.lists, Hand) == 0
    ensures s.lists[Hand] == []
  {
    hide Sound;
    if s.lists[Hand] != [] {
      TakeHead(s, hash, Hand);
    }
  }

  lemma GbcSize(s0: State, s: State, hash: Hash, ext: map<nat, nat>, lev: Order, v0: nat, v1: nat, upto: nat)
    requires GbcLoop(s0, s, hash, ext, lev, v0, v1, upto)
    ensures |s0.nodes| <= |s.nodes|
  {
    hide Sound, Swapping;
  }

  lemma GbcBounds(s0: State, s: State, hash: Hash, ext: map<nat, nat>, lev: Order, v0: nat, v1: nat, upto: nat)
    requires GbcLoop(s0, s, hash, ext, lev, v0, v1, upto) && v1 < |s0.levels|
    requires upto == s0.levels[v1].start + s0.levels[v1].size
    ensures upto == s.levels[v1].start + s.levels[v1].size
  {
    hide Sound, Swapping;
  }
}
