/**
  reorder_setLevellookup and reorder_rehashAll, argued on values: all chains
  and the free list are thrown away and built again from the records.
*/
module Rehash {
  import opened Threads
  import opened SwapTheory
  import opened Counting
  import opened SessionState
  import opened RefCounts
  import opened ReorderSteps
  import opened LocalGbc

  /** Only the placing of the sub-tables differs. */
  ghost predicate SameCounts(levels: Levels, levels': Levels) {
    && |levels'| == |levels|
    && forall v {:trigger levels'[v]} :: 0 <= v < |levels| ==> levels'[v].nodenum == levels[v].nodenum
  }

  function NoHash(nodes: seq<BddNode>): (r: seq<BddNode>)
    ensures |r| == |nodes|
  {
    seq(|nodes|, i requires 0 <= i < |nodes| => nodes[i].(hash := 0))
  }

  ghost function Cleared(s: State, levels: Levels): State {
    s.(nodes := NoHash(s.nodes), freepos := 0, levels := levels, lists := NoLists(|s.nodes|), place := map[])
  }

  /** The list slot m belongs to. */
  ghost function KeyOf(g: Graph, levels: Levels, hash: Hash, m: nat): Key {
    if m in g && g[m].v < |levels| then Bucket(BucketOf(g[m], levels, hash)) else Free
  }

  ghost function Keys(g: Graph, levels: Levels, hash: Hash, size: nat): (r: seq<Key>)
    ensures |r| == size && forall m {:trigger r[m]} :: 0 <= m < size ==> r[m] == KeyOf(g, levels, hash, m)
  {
    seq(size, m requires 0 <= m => KeyOf(g, levels, hash, m))
  }

  /** The loop has placed the slots from n on; s0 is the state before. */
  ghost predicate Rehashing(s0: State, s: State, hash: Hash, n: nat) {
    && Tables(s.levels, |s.nodes|) && Spreads(hash)
    && Constants(s.nodes, |s.levels|)
    && Recorded(s.nodes, s.g, |s.levels|)
    && Slots(s.nodes, s.g, |s.levels|)
    && Rebuilding(s.nodes, s.lists, s.freepos, s.place, Keys(s.g, s.levels, hash, |s.nodes|), n)
    && s.g == s0.g && s.freenum == s0.freenum && SameCounts(s0.levels, s.levels) && SameButLinks(s0.nodes, s.nodes)
  }

  lemma ClearedSound(s: State, hash: Hash, levels: Levels)
    requires Sound(s, hash) && AtRest(s) && Tables(levels, |s.nodes|) && SameCounts(s.levels, levels)
    ensures Rehashing(s, Cleared(s, levels), hash, |s.nodes|)
  {
    ConstantFacts(s, hash);
    hide Heads, Threaded, Placed, Keyed, Tables, Spreads, Rebuilding, Slots;
    var t := Cleared(s, levels);
    RebuildStart(t.nodes, Keys(s.g, levels, hash, |s.nodes|));
    RecordedKeep(s.nodes, s.g, |s.levels|, t.nodes);
    SlotsKeep(s.nodes, s.g, |s.levels|, t.nodes);
  }

  lemma LinkStep(s0: State, s: State, hash: Hash, n: nat)
    requires Rehashing(s0, s, hash, n + 1) && 2 <= n && n in s.g
    ensures n < |s.nodes| && s.g[n].v < |s.levels|
    ensures s.nodes[n].level == s.g[n].v && s.nodes[n].low == s.g[n].low && s.nodes[n].high == s.g[n].high
    ensures var b := BucketOf(s.g[n], s.levels, hash);
            b < |s.nodes| && Bucket(b) in s.lists && Rehashing(s0, Inserted(s, b, n), hash, n)
  {
    hide Rebuilding, Tables, Spreads, Constants, Keys, Slots;
    var b := BucketOf(s.g[n], s.levels, hash);
    BucketRange(s.levels, |s.nodes|, hash, s.g[n]);
    hide Recorded;
    RebuildLink(s.nodes, s.lists, s.freepos, s.place, Keys(s.g, s.levels, hash, |s.nodes|), n, b);
    var t := Inserted(s, b, n);
    assert t.nodes == LinkedNodes(s.nodes, b, n);
    RecordedKeep(s.nodes, s.g, |s.levels|, t.nodes);
    LinkConstants(s.nodes, |s.levels|, n, b, t.nodes);
    SlotsKeep(s.nodes, s.g, |s.levels|, t.nodes);
  }

  lemma BucketRange(levels: Levels, size: nat, hash: Hash, i: Inner)
    requires Tables(levels, size) && Spreads(hash) && i.v < |levels|
    ensures BucketOf(i, levels, hash) < size
  {
    assert 0 < levels[i.v].size;
  }

  /** The record parts that linking a slot does not touch. */
  lemma LinkConstants(nodes: seq<BddNode>, nvars: nat, n: nat, b: nat, nodes': seq<BddNode>)
    requires Constants(nodes, nvars) && n < |nodes| && b < |nodes|
    requires |nodes'| == |nodes|
    requires forall m {:trigger nodes'[m]} :: 0 <= m < |nodes| ==> nodes'[m] == nodes[m].(hash := nodes'[m].hash, next := nodes'[m].next)
    ensures Constants(nodes', nvars) && SameButLinks(nodes, nodes')
  {
  }

  /** node->next = bddfreepos; bddfreepos = n */
  ghost function FreedSlot(s: State, n: nat): State
    requires n < |s.nodes| && Free in s.lists
  {
    s.(nodes := s.nodes[n := s.nodes[n].(next := s.freepos)], freepos := n,
       lists := Pushed(s.lists, Free, n), place := s.place[n := (Free, |s.lists[Free]|)])
  }

  lemma FreeStep(s0: State, s: State, hash: Hash, n: nat)
    requires Rehashing(s0, s, hash, n + 1) && 2 <= n && n !in s.g
    ensures n < |s.nodes| && Free in s.lists && Rehashing(s0, FreedSlot(s, n), hash, n)
  {
    hide Rebuilding, Tables, Spreads, Keys, Slots;
    RebuildRange(s.nodes, s.lists, s.freepos, s.place, Keys(s.g, s.levels, hash, |s.nodes|), n + 1);
    var nodes' := s.nodes[n := s.nodes[n].(next := s.freepos)];
    RebuildFree(s.nodes, s.lists, s.freepos, s.place, Keys(s.g, s.levels, hash, |s.nodes|), n, nodes');
    RecordedKeep(s.nodes, s.g, |s.levels|, nodes');
    SlotsKeep(s.nodes, s.g, |s.levels|, nodes');
  }

  /** The unallocated slots. */
  ghost function Vacant(size: nat, g: Graph): set<nat> { set n: nat | 2 <= n < size && n !in g }

  /** The free list holds each unallocated slot once. */
  lemma FreeCount(s: State)
    requires Threaded(s.nodes, s.lists, s.place) && Free in s.lists
    requires forall n {:trigger n in s.g} :: 2 <= n < |s.nodes| ==> (n in s.g <==> !(n in s.place && s.place[n].0 == Free))
    ensures |s.lists[Free]| == |Vacant(|s.nodes|, s.g)|
  {
    var c, x := s.lists[Free], Vacant(|s.nodes|, s.g);
    forall i | 0 <= i < |c| ensures c[i] in x && s.place[c[i]].1 == i {
      EntryPlace(s.nodes, s.lists, s.place, Free, i);
      assert c[i] in s.place;
    }
    forall n | n in x ensures n in c {
      assert n !in s.g && n in s.place && s.place[n].0 == Free;
      assert s.lists[Free][s.place[n].1] == n;
    }
    forall i, j | 0 <= i < j < |c| ensures c[i] != c[j] {
      assert s.place[c[i]].1 == i && s.place[c[j]].1 == j;
    }
    DistinctCount(c, x);
  }

  lemma VacantBefore(s: State, hash: Hash)
    requires Sound(s, hash)
    ensures s.freenum == |Vacant(|s.nodes|, s.g)|
  {
    ConstantFacts(s, hash);
    FreeCount(s);
  }

  lemma RecordedFacts(nodes: seq<BddNode>, g: Graph, nvars: nat)
    requires Recorded(nodes, g, nvars)
    ensures forall n {:trigger n in g} :: n in g ==> 2 <= n < |nodes| && g[n].v < nvars
  {
  }

  lemma Rebuilt(s0: State, s: State, hash: Hash)
    requires Rehashing(s0, s, hash, 2) && s0.freenum == |Vacant(|s0.nodes|, s0.g)|
    ensures Sound(s, hash) && AtRest(s)
  {
    hide Heads, Placed, Tables, Spreads, Threaded, Constants, SameCounts, Slots;
    HeadsFree(s.nodes, s.lists, s.freepos);
    RecordedFacts(s.nodes, s.g, |s.levels|);
    forall n | 2 <= n < |s.nodes| ensures n in s.g <==> !(n in s.place && s.place[n].0 == Free) {
      assert n in s.place && s.place[n].0 == KeyOf(s.g, s.levels, hash, n);
    }
    FreeCount(s);
    forall n | n in s.g ensures Chained(s.g, s.place, n) {
      assert n in s.place && s.place[n].0 == KeyOf(s.g, s.levels, hash, n);
    }
    forall n | n in s.place && s.place[n].0.Bucket?
      ensures n in s.g && s.g[n].v < |s.levels| && s.place[n].0.b == BucketOf(s.g[n], s.levels, hash)
    {
      assert s.place[n].0 == KeyOf(s.g, s.levels, hash, n);
    }
  }

  /** The session after a complete rehash. */
  lemma RehashRest(s0: State, s: State, hash: Hash, ext: map<nat, nat>, lev: Order, mtx: Matrix)
    requires Rest(s0, hash, ext, lev, mtx) && Rehashing(s0, s, hash, 2)
    ensures Rest(s, hash, ext, lev, mtx)
  {
    hide Sound, Wf, Unique, Covered, Row, Rows, Threaded, Heads, Recorded, Tables, Constants, Refs, AtRest, SameCounts;
    VacantBefore(s0, hash);
    Rebuilt(s0, s, hash);
    RefsLinks(s0.nodes, s0.g, ext, multiset{}, s.nodes);
    RehashRows(s0, s);
  }

  lemma RehashRows(s0: State, s: State)
    requires Rows(s0.levels, s0.g, s0.place) && AtRest(s0) && AtRest(s) && s.g == s0.g && SameCounts(s0.levels, s.levels)
    ensures Rows(s.levels, s.g, s.place) && |s.levels| == |s0.levels|
  {
    forall v | 0 <= v < |s.levels| ensures s.levels[v].nodenum == |Row(s.g, s.place, v)| {
      RowIsAll(s0.g, s0.place, v);
      RowIsAll(s.g, s.place, v);
    }
  }

  /** Referenced is allocated: what the test on refcou decides. */
  lemma ReferencedAllocated(s0: State, s: State, hash: Hash, ext: map<nat, nat>, lev: Order, mtx: Matrix, n: nat)
    requires Rest(s0, hash, ext, lev, mtx) && s.g == s0.g && SameButLinks(s0.nodes, s.nodes) && 2 <= n < |s.nodes|
    ensures n in s.g <==> s.nodes[n].refcou > 0
  {
    hide Sound, Wf, Unique, Covered, Rows, AtRest;
    assert s.nodes[n].refcou == s0.nodes[n].refcou;
  }

  lemma TableProduct(n: nat, m: nat, size: nat, nvars: nat)
    requires n < nvars && m == size / nvars
    ensures n * m + m <= size && (n + 1) * m == n * m + m
  {
    MulUp(n + 1, nvars, m);
    assert nvars * m <= size;
  }

  lemma MulUp(a: nat, b: nat, m: nat)
    requires a <= b
    ensures a * m <= b * m
  {
  }

  /** Where the sub-table of a variable starts. */
  function Offset(v: nat, m: nat): nat { v * m }

  /** The sub-tables fit one after the other. */
  lemma TablesFit(levels: Levels, m: nat, size: nat)
    requires |levels| > 0 && m == size / |levels|
    requires forall v {:trigger levels[v]} :: 0 <= v < |levels| ==> levels[v].start == Offset(v, m) && 0 < levels[v].size <= m
    ensures Tables(levels, size)
  {
    forall v | 0 <= v < |levels| ensures levels[v].start + levels[v].size <= size {
      TableProduct(v, m, size, |levels|);
    }
    forall v, w | 0 <= v < w < |levels| ensures levels[v].start + levels[v].size <= levels[w].start {
      MulUp(v + 1, w, m);
      assert (v + 1) * m == v * m + m;
    }
  }

  lemma RoomForAll(size: nat, nvars: nat)
    requires 0 < nvars <= size
    ensures 1 <= size / nvars
  {
    assert size == size / nvars * nvars + size % nvars;
  }

  /** The invariant of the loop of reorder_rehashAll, with the state before it. */
  ghost predicate RehashLoop(s0: State, s: State, hash: Hash, ext: map<nat, nat>, lev: Order, mtx: Matrix, n: nat) {
    Rest(s0, hash, ext, lev, mtx) && Rehashing(s0, s, hash, n)
  }

  lemma ClearedRest(s0: State, hash: Hash, ext: map<nat, nat>, lev: Order, mtx: Matrix, levels: Levels)
    requires Rest(s0, hash, ext, lev, mtx) && Tables(levels, |s0.nodes|) && SameCounts(s0.levels, levels)
    ensures RehashLoop(s0, Cleared(s0, levels), hash, ext, lev, mtx, |s0.nodes|) && 2 <= |s0.nodes|
  {
    hide Sound, AtRest, Wf, Unique, Alive, Covered, Refs, Rows, Rehashing;
    ConstantFacts(s0, hash);
    ClearedSound(s0, hash, levels);
  }

  lemma ClearedFields(s: State, levels: Levels)
    ensures var t := Cleared(s, levels);
            && t.nodes == NoHash(s.nodes) && t.freepos == 0 && t.freenum == s.freenum && t.levels == levels && t.g == s.g
  {
  }

  lemma LoopStep(s0: State, s: State, hash: Hash, ext: map<nat, nat>, lev: Order, mtx: Matrix, n: nat)
    requires RehashLoop(s0, s, hash, ext, lev, mtx, n + 1) && 2 <= n < |s.nodes|
    ensures s.nodes[n].refcou > 0 ==>
              && n in s.g && s.nodes[n].level < |s.levels| && 0 <= s.nodes[n].low && 0 <= s.nodes[n].high
              && var b := hash(s.levels[s.nodes[n].level], s.nodes[n].low, s.nodes[n].high);
                 b < |s.nodes| && Bucket(b) in s.lists && RehashLoop(s0, Inserted(s, b, n), hash, ext, lev, mtx, n)
    ensures s.nodes[n].refcou == 0 ==> Free in s.lists && RehashLoop(s0, FreedSlot(s, n), hash, ext, lev, mtx, n)
  {
    hide Rest, Rehashing, SameButLinks;
    RehashingFields(s0, s, hash, n + 1);
    ReferencedAllocated(s0, s, hash, ext, lev, mtx, n);
    if n in s.g {
      LinkStep(s0, s, hash, n);
    } else {
      FreeStep(s0, s, hash, n);
    }
  }

  lemma RehashingFields(s0: State, s: State, hash: Hash, n: nat)
    requires Rehashing(s0, s, hash, n)
    ensures s.g == s0.g && SameButLinks(s0.nodes, s.nodes) && |s.levels| == |s0.levels|
  {
  }

  lemma LoopOver(s0: State, s: State, hash: Hash, ext: map<nat, nat>, lev: Order, mtx: Matrix)
    requires RehashLoop(s0, s, hash, ext, lev, mtx, 2)
    ensures Rest(s, hash, ext, lev, mtx) && s.g == s0.g && SameButLinks(s0.nodes, s.nodes)
  {
    hide Rest, Rehashing;
    RehashingFields(s0, s, hash, 2);
    RehashRest(s0, s, hash, ext, lev, mtx);
  }

  /** What the exchange of v with the variable below it makes of the order. */
  function OrderDown(var2level: Order, level2var: seq<nat>, v: int): Order {
    if 0 <= v < |var2level| - 1 && var2level[v] < |var2level| - 2 && var2level[v] + 1 < |level2var| && level2var[var2level[v] + 1] < |var2level|
    then SwapLevels(var2level, v, level2var[var2level[v] + 1])
    else var2level
  }

  function LevelDown(var2level: Order, level2var: seq<nat>, v: int): seq<nat> {
    if 0 <= v < |var2level| - 1 && var2level[v] < |var2level| - 2 && var2level[v] + 1 < |level2var|
    then level2var[var2level[v] := level2var[var2level[v] + 1]][var2level[v] + 1 := v]
    else level2var
  }

  /** Every node held from outside is still there and stands for the same function of the variables. */
  ghost predicate Preserved(g: Graph, lev: Order, h: Graph, lev': Order, ext: map<nat, nat>) {
    && Wf(g, lev) && Wf(h, lev') && Unique(g) && Unique(h)
    && (forall n {:trigger n in ext} :: n in ext ==> n in g && n in h)
    && (forall n, a: Assign {:trigger Eval(h, lev', n, a)} :: n in ext ==> Eval(h, lev', n, a) == Eval(g, lev, n, a))
  }

  /** The nodes whose counter is saturated. */
  ghost function Full(s: State): set<nat> { set n | n in s.g && n < |s.nodes| && s.nodes[n].refcou == MAXREF }

  /**
    A later moment of a session: Preserved, and every node that was saturated is
    still there, still saturated, and stands for the same function.
  */
  ghost predicate Later(s: State, lev: Order, t: State, lev': Order, ext: map<nat, nat>) {
    && Preserved(s.g, lev, t.g, lev', ext)
    && Full(s) <= Full(t)
    && (forall n, a: Assign {:trigger Eval(t.g, lev', n, a)} :: n in Full(s) && n in s.g && n in t.g ==> Eval(t.g, lev', n, a) == Eval(s.g, lev, n, a))
  }

  lemma {:induction false} PreservedTrans(g: Graph, lev: Order, g1: Graph, lev1: Order, g2: Graph, lev2: Order, ext: map<nat, nat>)
    requires Preserved(g, lev, g1, lev1, ext) && Preserved(g1, lev1, g2, lev2, ext)
    ensures Preserved(g, lev, g2, lev2, ext)
  {
    hide Wf, Unique;
    forall n, a: Assign | n in ext ensures n in g && n in g2 && Eval(g2, lev2, n, a) == Eval(g, lev, n, a) {
      assert n in g1 && Eval(g1, lev1, n, a) == Eval(g, lev, n, a);
    }
  }

  lemma LaterNothing(s: State, hash: Hash, ext: map<nat, nat>, lev: Order, mtx: Matrix)
    requires Rest(s, hash, ext, lev, mtx)
    ensures Later(s, lev, s, lev, ext)
  {
    hide Sound, Rows, AtRest, Wf, Unique, Covered;
  }

  lemma {:induction false} RestLater(s: State, t: State, hash: Hash, ext: map<nat, nat>, lev: Order, lev': Order, mtx: Matrix)
    requires Rest(s, hash, ext, lev, mtx) && Rest(t, hash, ext, lev', mtx) && Exchanged(s.g, lev, t.g, lev', ext) && Full(s) <= Full(t)
    ensures Later(s, lev, t, lev', ext)
  {
    hide Wf, Unique, Steady, AtRest, Alive, Covered;
  }

  /** Linking does not matter to it. */
  lemma {:induction false} LaterLinks(s: State, lev: Order, t: State, t': State, lev': Order, ext: map<nat, nat>)
    requires Later(s, lev, t, lev', ext) && t'.g == t.g && SameButLinks(t.nodes, t'.nodes)
    ensures Later(s, lev, t', lev', ext)
  {
    hide Wf, Unique, Preserved;
    forall n | n in Full(s) ensures n in Full(t') {
      assert n in Full(t);
      assert t'.nodes[n].refcou == t.nodes[n].refcou;
    }
  }

  /** Promises add up over a run of exchanges. */
  lemma {:induction false} LaterTrans(s: State, lev: Order, t: State, lev': Order, u: State, lev'': Order, ext: map<nat, nat>)
    requires Later(s, lev, t, lev', ext) && Later(t, lev', u, lev'', ext)
    ensures Later(s, lev, u, lev'', ext)
  {
    hide Wf, Unique;
    forall n, a: Assign | n in Full(s) && n in s.g && n in u.g ensures Eval(u.g, lev'', n, a) == Eval(s.g, lev, n, a) {
      assert n in Full(t) && n in t.g;
      assert Eval(t.g, lev', n, a) == Eval(s.g, lev, n, a);
    }
    forall n, a: Assign | n in ext ensures n in s.g && n in u.g && Eval(u.g, lev'', n, a) == Eval(s.g, lev, n, a) {
      assert n in t.g && Eval(t.g, lev', n, a) == Eval(s.g, lev, n, a);
    }
  }

  /** The state the exchange is measured against may be the one before the nodes were sorted. */
  lemma LoopFrom(s0: State, s1: State, s: State, hash: Hash, ext: map<nat, nat>, lev: Order, v0: nat, v1: nat)
    requires SwapLoop(s1, s, hash, ext, lev, v0, v1) && s1.g == s0.g
    requires SameTables(s0.levels, s1.levels) && Sticky(s0.nodes, s0.g, s1.nodes)
    ensures SwapLoop(s0, s, hash, ext, lev, v0, v1)
  {
    hide Sound, Rows, Refs, Swapping, FreshHeld;
    SameTrans(s0, s1, s);
  }

  /** The levels of the variables are those before the constants'. */
  lemma OrdersRange(var2level: Order, level2var: seq<nat>, nvars: nat)
    requires Orders(var2level, level2var, nvars)
    ensures |var2level| == |level2var| == nvars + 1
    ensures forall v {:trigger var2level[v]} :: 0 <= v < nvars ==> var2level[v] < nvars
    ensures forall l {:trigger level2var[l]} :: 0 <= l < nvars ==> level2var[l] < nvars
  {
    forall l | 0 <= l < nvars ensures level2var[l] < nvars {
      assert var2level[level2var[l]] == l && var2level[nvars] == nvars;
    }
  }

  lemma OrdersApart(var2level: Order, level2var: seq<nat>, nvars: nat, l: nat)
    requires Orders(var2level, level2var, nvars) && l + 1 < nvars
    ensures forall v {:trigger var2level[v]} :: 0 <= v < nvars && v != level2var[l] && v != level2var[l + 1] ==>
              var2level[v] != l && var2level[v] != l + 1
  {
  }

  /** Swapping the entries of the two order tables keeps them mutually inverse. */
  lemma OrdersSwap(var2level: Order, level2var: seq<nat>, nvars: nat, l: nat)
    requires Orders(var2level, level2var, nvars) && l + 1 < nvars
    ensures var v0, v1 := level2var[l], level2var[l + 1];
            && v0 < nvars && v1 < nvars && v0 != v1 && var2level[v0] == l && var2level[v1] == l + 1
            && Orders(SwapLevels(var2level, v0, v1), level2var[l := v1][l + 1 := v0], nvars)
  {
    var v0, v1 := level2var[l], level2var[l + 1];
    assert var2level[level2var[l]] == l && var2level[level2var[l + 1]] == l + 1;
    var var2level', level2var' := SwapLevels(var2level, v0, v1), level2var[l := v1][l + 1 := v0];
    forall v | 0 <= v < |var2level'| ensures level2var'[var2level'[v]] == v {
      assert level2var[var2level[v]] == v;
    }
    forall k | 0 <= k < |level2var'| ensures var2level'[level2var'[k]] == k {
      assert var2level[level2var[k]] == k;
    }
  }
}
