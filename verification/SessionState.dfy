/**
  The state of a reordering session and the elementary list operations on it,
  as values: `Session` (Reorder.dfy) performs these steps in place, and its
  contracts refer to them.

  During a session `level` holds the node's VARIABLE and every variable has
  its own stretch of hash buckets (`levels`).
*/
module SessionState {
  import opened Threads
  import opened SwapTheory
  import opened Counting

  datatype LevelData = LevelData(start: nat, size: nat, nodenum: nat)

  type Levels = seq<LevelData>

  /** NODEHASH: where a variable's sub-table keeps a pair of children. */
  type Hash = (LevelData, nat, nat) -> nat

  /** All that is used of the hash: it stays inside the sub-table and does not look at the node count. */
  ghost predicate Spreads(hash: Hash) {
    && (forall d: LevelData, low: nat, high: nat {:trigger hash(d, low, high)} ::
          0 < d.size ==> d.start <= hash(d, low, high) < d.start + d.size)
    && (forall d: LevelData, n: nat, low: nat, high: nat {:trigger hash(d.(nodenum := n), low, high)} ::
          hash(d.(nodenum := n), low, high) == hash(d, low, high))
  }

  function Slot(x: nat, d: LevelData): (b: nat)
    ensures 0 < d.size ==> d.start <= b < d.start + d.size
  {
    if d.size == 0 then d.start else x % d.size + d.start
  }

  /** The hash of the package: PAIR(l, h) % size + start, for any mixing function PAIR. */
  function NodeHash(pair: (nat, nat) -> nat): (hash: Hash)
    ensures Spreads(hash)
  {
    var hash := (d: LevelData, low: nat, high: nat) => Slot(pair(low, high), d);
    assert forall d: LevelData, low: nat, high: nat {:trigger hash(d, low, high)} :: hash(d, low, high) == Slot(pair(low, high), d);
    hash
  }

  datatype State = State(
    nodes: seq<BddNode>, freepos: nat, freenum: nat, levels: Levels,
    g: Graph, lists: Lists, place: Places)

  /** Every variable has buckets of its own. */
  ghost predicate Tables(levels: Levels, size: nat) {
    && (forall v {:trigger levels[v]} :: 0 <= v < |levels| ==>
          0 < levels[v].size && levels[v].start + levels[v].size <= size)
    && (forall v, w {:trigger levels[v], levels[w]} :: 0 <= v < w < |levels| ==>
          levels[v].start + levels[v].size <= levels[w].start)
  }

  ghost predicate Constants(nodes: seq<BddNode>, nvars: nat) {
    && 2 <= |nodes|
    && nodes[0].level == nodes[1].level == nvars && nodes[0].refcou == nodes[1].refcou == MAXREF
  }

  /** The record of an allocated node says what g says. */
  ghost predicate Recorded(nodes: seq<BddNode>, g: Graph, nvars: nat) {
    forall n {:trigger n in g} :: n in g ==>
      && 2 <= n < |nodes| && g[n].v < nvars
      && nodes[n].level == g[n].v && nodes[n].low == g[n].low && nodes[n].high == g[n].high
  }

  function BucketOf(i: Inner, levels: Levels, hash: Hash): nat
    requires i.v < |levels|
  {
    hash(levels[i.v], i.low, i.high)
  }

  /** A slot is free exactly when it is on the free list; a chained node is in the bucket of its key. */
  ghost predicate Keyed(size: nat, g: Graph, levels: Levels, hash: Hash, place: Places) {
    && (forall n {:trigger n in g} :: 2 <= n < size ==> (n in g <==> !(n in place && place[n].0 == Free)))
    && (forall n {:trigger place[n]} :: n in place && place[n].0.Bucket? ==>
          n in g && g[n].v < |levels| && place[n].0.b == BucketOf(g[n], levels, hash))
  }

  /** No slot is marked; a free one has low == -1, and the level field of any is a variable or that of the constants. */
  ghost predicate Slots(nodes: seq<BddNode>, g: Graph, nvars: nat) {
    forall n {:trigger nodes[n]} :: 0 <= n < |nodes| ==>
      nodes[n].level <= nvars && !nodes[n].mark && (2 <= n && n !in g ==> nodes[n].low == -1)
  }

  ghost predicate Sound(s: State, hash: Hash) {
    && Tables(s.levels, |s.nodes|) && Spreads(hash)
    && Constants(s.nodes, |s.levels|)
    && Recorded(s.nodes, s.g, |s.levels|)
    && Slots(s.nodes, s.g, |s.levels|)
    && Keyed(|s.nodes|, s.g, s.levels, hash, s.place)
    && Heads(s.nodes, s.lists, s.freepos)
    && Threaded(s.nodes, s.lists, s.place)
    && s.freenum == |s.lists[Free]|
  }

  /* Each part of Sound is preserved for its own small reasons. */

  lemma KeyedPut(size: nat, g: Graph, levels: Levels, hash: Hash, place: Places, r: nat, p: (Key, nat))
    requires Keyed(size, g, levels, hash, place) && r in g && r !in place && g[r].v < |levels|
    requires p.0 == Todo || p.0 == Bucket(BucketOf(g[r], levels, hash))
    ensures Keyed(size, g, levels, hash, place[r := p])
  {
  }

  lemma KeyedLoose(size: nat, g: Graph, levels: Levels, hash: Hash, place: Places, r: nat)
    requires Keyed(size, g, levels, hash, place) && r in g
    ensures Keyed(size, g, levels, hash, place - {r})
  {
  }

  lemma AllocateRecorded(nodes: seq<BddNode>, g: Graph, nvars: nat, r: nat, i: Inner, nodes': seq<BddNode>)
    requires Recorded(nodes, g, nvars) && r !in g && 2 <= r < |nodes| && i.v < nvars
    requires |nodes'| == |nodes| && nodes'[r].level == i.v && nodes'[r].low == i.low && nodes'[r].high == i.high
    requires forall n {:trigger nodes'[n]} :: 0 <= n < |nodes| && n != r ==> nodes'[n] == nodes[n]
    ensures Recorded(nodes', g[r := i], nvars)
  {
  }

  lemma AllocateKeyed(size: nat, g: Graph, levels: Levels, hash: Hash, place: Places, r: nat, i: Inner)
    requires Keyed(size, g, levels, hash, place) && r !in g && r in place
    ensures Keyed(size, g[r := i], levels, hash, place - {r})
  {
  }

  lemma ReleaseKeyed(size: nat, g: Graph, levels: Levels, hash: Hash, place: Places, r: nat, p: (Key, nat))
    requires Keyed(size, g, levels, hash, place) && r in g && r !in place && p.0 == Free
    ensures Keyed(size, g - {r}, levels, hash, place[r := p])
  {
  }

  lemma RecordedKeep(nodes: seq<BddNode>, g: Graph, nvars: nat, nodes': seq<BddNode>)
    requires Recorded(nodes, g, nvars) && |nodes'| == |nodes|
    requires forall n {:trigger nodes'[n]} :: 0 <= n < |nodes| ==>
               nodes'[n].level == nodes[n].level && nodes'[n].low == nodes[n].low && nodes'[n].high == nodes[n].high
    ensures Recorded(nodes', g, nvars)
  {
  }

  lemma SlotsKeep(nodes: seq<BddNode>, g: Graph, nvars: nat, nodes': seq<BddNode>)
    requires Slots(nodes, g, nvars) && |nodes'| == |nodes|
    requires forall n {:trigger nodes'[n]} :: 0 <= n < |nodes| ==>
               nodes'[n].level == nodes[n].level && nodes'[n].low == nodes[n].low && nodes'[n].mark == nodes[n].mark
    ensures Slots(nodes', g, nvars)
  {
  }

  lemma SlotsPut(nodes: seq<BddNode>, g: Graph, nvars: nat, r: nat, i: Inner, nodes': seq<BddNode>)
    requires Slots(nodes, g, nvars) && r < |nodes| == |nodes'| && i.v < nvars && nodes'[r].level == i.v && nodes'[r].mark == nodes[r].mark
    requires forall n {:trigger nodes'[n]} :: 0 <= n < |nodes| && n != r ==> nodes'[n] == nodes[n]
    ensures Slots(nodes', g[r := i], nvars)
  {
  }

  lemma SlotsDrop(nodes: seq<BddNode>, g: Graph, nvars: nat, r: nat, nodes': seq<BddNode>)
    requires Slots(nodes, g, nvars) && r < |nodes| == |nodes'| && nodes' == nodes[r := nodes[r].(low := -1, next := nodes'[r].next)]
    ensures Slots(nodes', g - {r}, nvars)
  {
  }

  /* ---- linking into a bucket: node->next = bddnodes[b].hash; bddnodes[b].hash = r ---- */

  ghost function Inserted(s: State, b: nat, r: nat): State
    requires b < |s.nodes| && r < |s.nodes| && Bucket(b) in s.lists
  {
    var nodes1 := s.nodes[r := s.nodes[r].(next := s.nodes[b].hash)];
    s.(nodes := nodes1[b := nodes1[b].(hash := r)],
       lists := Pushed(s.lists, Bucket(b), r), place := s.place[r := (Bucket(b), |s.lists[Bucket(b)]|)])
  }

  /** The bucket of a node is there. */
  lemma InsertSpot(s: State, hash: Hash, r: nat)
    requires Sound(s, hash) && r in s.g
    ensures 2 <= r < |s.nodes| && s.g[r].v < |s.levels|
    ensures var b := BucketOf(s.g[r], s.levels, hash);
            b < |s.nodes| && Bucket(b) in s.lists && s.nodes[b].hash == Head(s.lists, Bucket(b))
    ensures Free in s.lists && Todo in s.lists && Hand in s.lists
  {
    hide Keyed, Threaded, Placed, Slots;
    assert 0 < s.levels[s.g[r].v].size;
  }

  lemma InsertSound(s: State, hash: Hash, r: nat)
    requires Sound(s, hash) && r in s.g && r !in s.place
    ensures r < |s.nodes| && s.g[r].v < |s.levels|
    ensures var b := BucketOf(s.g[r], s.levels, hash);
            && b < |s.nodes| && Bucket(b) in s.lists && Sound(Inserted(s, b, r), hash)
  {
    hide Heads, Keyed, Threaded, Recorded, Placed, Slots, Tables, Spreads;
    InsertSpot(s, hash, r);
    var b := BucketOf(s.g[r], s.levels, hash);
    var nodes1 := s.nodes[r := s.nodes[r].(next := s.nodes[b].hash)];
    var t := Inserted(s, b, r);
    Push(s.nodes, s.lists, s.place, Bucket(b), r, nodes1);
    Relabel(nodes1, t.lists, t.place, t.nodes);
    RecordedKeep(s.nodes, s.g, |s.levels|, t.nodes);
    KeyedPut(|s.nodes|, s.g, s.levels, hash, s.place, r, t.place[r]);
    HeadsBucket(s.nodes, s.lists, s.freepos, b, t.nodes, t.lists);
    SlotsKeep(s.nodes, s.g, |s.levels|, t.nodes);
  }

  /* ---- taking a node off the free list and filling it in ---- */

  ghost function Allocated(s: State, i: Inner): State
    requires s.freepos < |s.nodes| && Free in s.lists && s.lists[Free] != [] && 0 < s.freenum
  {
    var r := s.freepos;
    s.(nodes := s.nodes[r := s.nodes[r].(level := i.v, low := i.low, high := i.high, refcou := 1)],
       freepos := s.nodes[r].next, freenum := s.freenum - 1,
       g := s.g[r := i], lists := Popped(s.lists, Free), place := s.place - {r})
  }

  lemma AllocateSound(s: State, hash: Hash, i: Inner)
    requires Sound(s, hash) && s.freepos != 0 && i.v < |s.levels|
    ensures 2 <= s.freepos < |s.nodes| && Free in s.lists && s.lists[Free] != [] && 0 < s.freenum
    ensures s.freepos !in s.g && s.freepos in s.place && s.place[s.freepos].0 == Free
    ensures Sound(Allocated(s, i), hash)
  {
    var r := s.freepos;
    Pop(s.nodes, s.lists, s.place, Free);
    assert r !in s.g && Todo in s.lists && Hand in s.lists;
    var t := Allocated(s, i);
    AllocateRecorded(s.nodes, s.g, |s.levels|, r, i, t.nodes);
    hide Threaded, Placed, Keyed, Recorded, Heads, Slots;
    Relabel(s.nodes, t.lists, t.place, t.nodes);
    AllocateKeyed(|s.nodes|, s.g, s.levels, hash, s.place, r, i);
    HeadsKeep(s.nodes, s.lists, s.freepos, t.nodes, t.lists, t.freepos);
    SlotsPut(s.nodes, s.g, |s.levels|, r, i, t.nodes);
  }

  /* ---- giving a node back: LOWp(node) = -1; node->next = bddfreepos; bddfreepos = r ---- */

  ghost function Released(s: State, r: nat): State
    requires r < |s.nodes| && Free in s.lists
  {
    s.(nodes := s.nodes[r := s.nodes[r].(low := -1, next := s.freepos)],
       freepos := r, freenum := s.freenum + 1,
       g := s.g - {r}, lists := Pushed(s.lists, Free, r), place := s.place[r := (Free, |s.lists[Free]|)])
  }

  lemma ReleaseSound(s: State, hash: Hash, r: nat)
    requires Sound(s, hash) && r in s.g && r !in s.place
    ensures r < |s.nodes| && Free in s.lists && Sound(Released(s, r), hash)
  {
    hide Threaded, Placed, Keyed, Slots;
    var t := Released(s, r);
    Push(s.nodes, s.lists, s.place, Free, r, t.nodes);
    ReleaseKeyed(|s.nodes|, s.g, s.levels, hash, s.place, r, t.place[r]);
    HeadsKeep(s.nodes, s.lists, s.freepos, t.nodes, t.lists, t.freepos);
    SlotsDrop(s.nodes, s.g, |s.levels|, r, t.nodes);
  }

  /* ---- taking a whole chain in hand: r = bddnodes[b].hash; bddnodes[b].hash = 0 ---- */

  ghost function Detached(s: State, b: nat): State
    requires b < |s.nodes| && Bucket(b) in s.lists
  {
    s.(nodes := s.nodes[b := s.nodes[b].(hash := 0)],
       lists := s.lists[Hand := s.lists[Bucket(b)]][Bucket(b) := []],
       place := map n | n in s.place :: if s.place[n].0 == Bucket(b) then (Hand, s.place[n].1) else s.place[n])
  }

  lemma DetachPlaced(s: State, b: nat)
    requires Threaded(s.nodes, s.lists, s.place)
    requires b < |s.nodes| && Hand in s.lists && s.lists[Hand] == [] && Bucket(b) in s.lists
    ensures Threaded(Detached(s, b).nodes, Detached(s, b).lists, Detached(s, b).place)
  {
    var t := Detached(s, b);
    forall k, i | k in t.lists && 0 <= i < |t.lists[k]|
      ensures 2 <= t.lists[k][i] < |t.nodes| && t.lists[k][i] in t.place && t.place[t.lists[k][i]] == (k, i)
    {
      assert t.lists[k][i] == s.lists[if k == Hand then Bucket(b) else k][i];
    }
    forall m | m in t.place
      ensures t.place[m].0 in t.lists && t.place[m].1 < |t.lists[t.place[m].0]|
              && t.lists[t.place[m].0][t.place[m].1] == m
              && (m < |t.nodes| ==> t.nodes[m].next == Prev(t.lists[t.place[m].0], t.place[m].1))
    {
      var (k, i) := s.place[m];
      assert s.lists[k][i] == m && k != Hand;
      assert m < |s.nodes| ==> s.nodes[m].next == Prev(s.lists[k], i);
    }
  }

  lemma DetachKeyed(s: State, hash: Hash, b: nat)
    requires Keyed(|s.nodes|, s.g, s.levels, hash, s.place)
    requires b < |s.nodes| && Bucket(b) in s.lists
    ensures Keyed(|s.nodes|, s.g, s.levels, hash, Detached(s, b).place)
  {
  }

  lemma DetachHeads(s: State, b: nat)
    requires Heads(s.nodes, s.lists, s.freepos) && b < |s.nodes| && Hand in s.lists && s.lists[Hand] == []
    ensures Bucket(b) in s.lists && Heads(Detached(s, b).nodes, Detached(s, b).lists, s.freepos)
    ensures Head(Detached(s, b).lists, Hand) == s.nodes[b].hash
  {
    assert Bucket(b) in s.lists && s.nodes[b].hash == Head(s.lists, Bucket(b));
    assert Free in s.lists && s.freepos == Head(s.lists, Free);
    hide Heads, Slots;
    var t := Detached(s, b);
    HeadsBucket(s.nodes, s.lists, s.freepos, b, t.nodes, t.lists);
  }

  lemma DetachSound(s: State, hash: Hash, b: nat)
    requires Sound(s, hash) && b < |s.nodes| && Hand in s.lists && s.lists[Hand] == []
    ensures Bucket(b) in s.lists && Sound(Detached(s, b), hash)
  {
    hide Keyed, Threaded, Placed, Heads, Recorded, Tables, Slots;
    DetachHeads(s, b);
    var t := Detached(s, b);
    DetachPlaced(s, b);
    DetachKeyed(s, hash, b);
    RecordedKeep(s.nodes, s.g, |s.levels|, t.nodes);
    assert Free in s.lists by { HeadsFree(s.nodes, s.lists, s.freepos); }
    SlotsKeep(s.nodes, s.g, |s.levels|, t.nodes);
  }

  /* ---- the head of a loose list: next = bddnodes[r].next ---- */

  ghost function Taken(s: State, k: Key): State
    requires k in s.lists && s.lists[k] != []
  {
    s.(lists := Popped(s.lists, k), place := s.place - {Head(s.lists, k)})
  }

  lemma TakeHead(s: State, hash: Hash, k: Key)
    requires Sound(s, hash) && (k == Todo || k == Hand)
    requires k in s.lists && s.lists[k] != []
    ensures var r := Head(s.lists, k);
            && 2 <= r < |s.nodes| && r in s.g && s.nodes[r].next == Head(Taken(s, k).lists, k)
            && r in s.place && s.place[r].0 == k
  {
    Pop(s.nodes, s.lists, s.place, k);
    hide Heads, Threaded, Placed, Slots;
  }

  lemma TakeHeads(s: State, k: Key)
    requires Heads(s.nodes, s.lists, s.freepos) && (k == Todo || k == Hand)
    requires k in s.lists && s.lists[k] != []
    ensures Heads(s.nodes, Taken(s, k).lists, s.freepos)
    ensures Free in s.lists && Taken(s, k).lists[Free] == s.lists[Free]
  {
    HeadsFree(s.nodes, s.lists, s.freepos);
    HeadsKeep(s.nodes, s.lists, s.freepos, s.nodes, Taken(s, k).lists, s.freepos);
  }

  lemma TakeSound(s: State, hash: Hash, k: Key)
    requires Sound(s, hash) && (k == Todo || k == Hand)
    requires k in s.lists && s.lists[k] != []
    ensures Sound(Taken(s, k), hash)
  {
    TakeHead(s, hash, k);
    hide Keyed, Threaded, Placed, Recorded, Heads, Constants, Tables, Slots;
    TakeHeads(s, k);
    Pop(s.nodes, s.lists, s.place, k);
    KeyedLoose(|s.nodes|, s.g, s.levels, hash, s.place, Head(s.lists, k));
  }

  /* ---- saving a node for later: node->next = toBeProcessed; toBeProcessed = r ---- */

  ghost function Saved(s: State, r: nat): State
    requires r < |s.nodes| && Todo in s.lists
  {
    s.(nodes := s.nodes[r := s.nodes[r].(next := Head(s.lists, Todo))],
       lists := Pushed(s.lists, Todo, r), place := s.place[r := (Todo, |s.lists[Todo]|)])
  }

  lemma SaveSound(s: State, hash: Hash, r: nat)
    requires Sound(s, hash) && r in s.g && r !in s.place
    ensures r < |s.nodes| && Todo in s.lists && Sound(Saved(s, r), hash)
    ensures Head(Saved(s, r).lists, Todo) == r
  {
    hide Keyed, Threaded, Placed, Slots;
    var t := Saved(s, r);
    Push(s.nodes, s.lists, s.place, Todo, r, t.nodes);
    RecordedKeep(s.nodes, s.g, |s.levels|, t.nodes);
    KeyedPut(|s.nodes|, s.g, s.levels, hash, s.place, r, t.place[r]);
    HeadsKeep(s.nodes, s.lists, s.freepos, t.nodes, t.lists, t.freepos);
    SlotsKeep(s.nodes, s.g, |s.levels|, t.nodes);
  }

  /* ---- a larger table, not rehashed: bdd_noderesize(0) ---- */

  ghost function GrownNodes(nodes: seq<BddNode>, freepos: nat, size: nat): (r: seq<BddNode>)
    requires |nodes| <= size
    ensures |r| == size
    ensures forall n {:trigger r[n]} :: 0 <= n < |nodes| ==> r[n] == nodes[n]
    ensures forall n {:trigger r[n]} :: |nodes| <= n < size ==> r[n] == EmptySlot(if n == size - 1 then freepos else n + 1)
  {
    nodes + seq(size - |nodes|, i requires 0 <= i => EmptySlot(if |nodes| + i == size - 1 then freepos else |nodes| + i + 1))
  }

  /** The new slots, last first: the free list is threaded through them in ascending order. */
  ghost function Countdown(size: nat, from: nat): (r: seq<nat>)
    requires from <= size
    ensures |r| == size - from
    ensures forall i {:trigger r[i]} :: 0 <= i < |r| ==> r[i] == size - 1 - i
  {
    seq(size - from, i requires 0 <= i < size - from => size - 1 - i)
  }

  function NewPlace(free: nat, size: nat, n: nat): (Key, nat)
    requires n < size
  {
    (Free, free + size - 1 - n)
  }

  ghost function Grown(s: State, size: nat): State
    requires |s.nodes| < size && Free in s.lists
  {
    var n0 := |s.nodes|;
    var free := s.lists[Free];
    s.(nodes := GrownNodes(s.nodes, s.freepos, size), freepos := n0, freenum := s.freenum + size - n0,
       lists := (s.lists + (map b: nat | n0 <= b < size :: Bucket(b) := []))
                  [Free := free + Countdown(size, n0)],
       place := s.place + (map n: nat | n0 <= n < size :: NewPlace(|free|, size, n)))
  }

  lemma GrowEntry(s: State, size: nat, k: Key, i: nat)
    requires Placed(|s.nodes|, s.lists, s.place)
    requires 2 <= |s.nodes| < size && Free in s.lists
    requires forall b: nat {:trigger Bucket(b)} :: |s.nodes| <= b ==> Bucket(b) !in s.lists
    requires k in Grown(s, size).lists && i < |Grown(s, size).lists[k]|
    ensures var t := Grown(s, size);
            2 <= t.lists[k][i] < size && t.lists[k][i] in t.place && t.place[t.lists[k][i]] == (k, i)
  {
    hide GrownNodes, Countdown, Slots;
    var t := Grown(s, size);
    if k == Free && i >= |s.lists[Free]| {
      assert t.lists[Free][i] == Countdown(size, |s.nodes|)[i - |s.lists[Free]|];
    } else {
      assert t.lists[k][i] == s.lists[k][i] && s.lists[k][i] in s.place;
    }
  }

  lemma GrowPlace(s: State, size: nat, m: nat)
    requires Placed(|s.nodes|, s.lists, s.place)
    requires 2 <= |s.nodes| < size && Free in s.lists
    requires forall b: nat {:trigger Bucket(b)} :: |s.nodes| <= b ==> Bucket(b) !in s.lists
    requires m in Grown(s, size).place
    ensures var t := Grown(s, size);
            && t.place[m].0 in t.lists && t.place[m].1 < |t.lists[t.place[m].0]|
            && t.lists[t.place[m].0][t.place[m].1] == m
  {
    hide GrownNodes, Countdown, Slots;
    var t := Grown(s, size);
    var n0, free := |s.nodes|, s.lists[Free];
    if n0 <= m {
      assert t.lists[Free][|free| + (size - 1 - m)] == Countdown(size, n0)[size - 1 - m];
    } else {
      assert m in s.place && t.place[m] == s.place[m];
    }
  }

  lemma GrowPlaced(s: State, size: nat)
    requires Placed(|s.nodes|, s.lists, s.place)
    requires 2 <= |s.nodes| < size && Free in s.lists
    requires forall b: nat {:trigger Bucket(b)} :: |s.nodes| <= b ==> Bucket(b) !in s.lists
    ensures Placed(size, Grown(s, size).lists, Grown(s, size).place)
  {
    var t := Grown(s, size);
    hide Grown, Slots;
    forall k, i | k in t.lists && 0 <= i < |t.lists[k]|
      ensures 2 <= t.lists[k][i] < size && t.lists[k][i] in t.place && t.place[t.lists[k][i]] == (k, i)
    {
      GrowEntry(s, size, k, i);
    }
    forall m | m in t.place
      ensures t.place[m].0 in t.lists && t.place[m].1 < |t.lists[t.place[m].0]|
              && t.lists[t.place[m].0][t.place[m].1] == m
    {
      GrowPlace(s, size, m);
    }
  }

  lemma GrowNext(s: State, size: nat, m: nat)
    requires Threaded(s.nodes, s.lists, s.place)
    requires |s.nodes| < size && Free in s.lists && s.freepos == Head(s.lists, Free)
    requires m in Grown(s, size).place && m < size
    requires Grown(s, size).place[m].0 in Grown(s, size).lists
    requires Grown(s, size).place[m].1 < |Grown(s, size).lists[Grown(s, size).place[m].0]|
    requires forall b: nat {:trigger Bucket(b)} :: |s.nodes| <= b ==> Bucket(b) !in s.lists
    ensures Grown(s, size).nodes[m].next == Prev(Grown(s, size).lists[Grown(s, size).place[m].0], Grown(s, size).place[m].1)
  {
    hide GrownNodes, Countdown, Slots;
    var t := Grown(s, size);
    var n0, free := |s.nodes|, s.lists[Free];
    if n0 <= m {
      assert t.nodes[m] == EmptySlot(if m == size - 1 then s.freepos else m + 1);
      var i := |free| + (size - 1 - m);
      if m < size - 1 {
        assert t.lists[Free][i - 1] == Countdown(size, n0)[size - 2 - m];
      }
    } else {
      var (k, i) := s.place[m];
      assert s.lists[k][i] == m && t.nodes[m] == s.nodes[m] && s.nodes[m].next == Prev(s.lists[k], i);
      assert t.place[m] == s.place[m];
    }
  }

  lemma GrowThreaded(s: State, size: nat)
    requires Threaded(s.nodes, s.lists, s.place)
    requires 2 <= |s.nodes| < size && Free in s.lists && s.freepos == Head(s.lists, Free)
    requires forall b: nat {:trigger Bucket(b)} :: |s.nodes| <= b ==> Bucket(b) !in s.lists
    ensures Threaded(Grown(s, size).nodes, Grown(s, size).lists, Grown(s, size).place)
  {
    var t := Grown(s, size);
    GrowPlaced(s, size);
    hide GrownNodes, Countdown, Grown, Slots;
    forall m | 0 <= m < |t.nodes| && m in t.place
      ensures t.nodes[m].next == Prev(t.lists[t.place[m].0], t.place[m].1)
    {
      assert t.lists[t.place[m].0][t.place[m].1] == m;
      GrowNext(s, size, m);
    }
  }

  lemma GrowKeyed(s: State, hash: Hash, size: nat)
    requires Recorded(s.nodes, s.g, |s.levels|) && Free in s.lists
    requires Keyed(|s.nodes|, s.g, s.levels, hash, s.place) && |s.nodes| < size
    ensures Keyed(size, s.g, s.levels, hash, Grown(s, size).place)
    ensures Recorded(Grown(s, size).nodes, s.g, |s.levels|)
  {
    hide GrownNodes, Countdown, Slots;
  }

  lemma GrowSlots(s: State, size: nat)
    requires Slots(s.nodes, s.g, |s.levels|) && |s.nodes| < size && Free in s.lists
    ensures Slots(Grown(s, size).nodes, s.g, |s.levels|)
  {
    var t := Grown(s, size);
    hide GrownNodes, Countdown;
    forall n | 0 <= n < |t.nodes|
      ensures t.nodes[n].level <= |s.levels| && !t.nodes[n].mark && (2 <= n && n !in s.g ==> t.nodes[n].low == -1)
    {
      assert n < |s.nodes| ==> t.nodes[n] == s.nodes[n];
    }
  }

  lemma GrowHeads(s: State, size: nat)
    requires Heads(s.nodes, s.lists, s.freepos) && |s.nodes| < size
    ensures Heads(Grown(s, size).nodes, Grown(s, size).lists, |s.nodes|)
  {
    hide GrownNodes, Countdown, Slots;
    var t := Grown(s, size);
    var free := s.lists[Free];
    assert t.lists[Free][|free| + (size - |s.nodes| - 1)] == Countdown(size, |s.nodes|)[size - |s.nodes| - 1];
    forall c: nat | c < size
      ensures Bucket(c) in t.lists && t.nodes[c].hash == Head(t.lists, Bucket(c))
    {
      if c < |s.nodes| {
        assert t.nodes[c] == s.nodes[c] && Bucket(c) in s.lists;
      } else {
        assert t.nodes[c] == EmptySlot(if c == size - 1 then s.freepos else c + 1);
        assert t.lists[Bucket(c)] == [];
      }
    }
  }

  lemma HeadsRange(nodes: seq<BddNode>, lists: Lists, freepos: nat)
    requires Heads(nodes, lists, freepos)
    ensures Free in lists && freepos == Head(lists, Free)
    ensures forall b: nat {:trigger Bucket(b)} :: |nodes| <= b ==> Bucket(b) !in lists
  {
  }

  lemma GrowSound(s: State, hash: Hash, size: nat)
    requires Sound(s, hash) && |s.nodes| < size
    ensures Free in s.lists && Sound(Grown(s, size), hash)
  {
    hide Threaded, Placed, Keyed, Heads, Recorded, GrownNodes, Countdown, Slots;
    HeadsRange(s.nodes, s.lists, s.freepos);
    var t := Grown(s, size);
    GrowThreaded(s, size);
    GrowKeyed(s, hash, size);
    GrowHeads(s, size);
    GrowSlots(s, size);
    assert t.nodes[0] == s.nodes[0] && t.nodes[1] == s.nodes[1];
  }

  /* What a step reads from a sound state. */

  lemma NodeFacts(s: State, hash: Hash, n: nat)
    requires Sound(s, hash) && n in s.g
    ensures 2 <= n < |s.nodes| && s.g[n].v < |s.levels|
    ensures s.nodes[n].level == s.g[n].v && s.nodes[n].low == s.g[n].low && s.nodes[n].high == s.g[n].high
  {
    hide Threaded, Placed, Heads, Keyed, Tables, Slots;
  }

  lemma FreeFacts(s: State, hash: Hash, n: nat)
    requires Sound(s, hash) && 2 <= n < |s.nodes| && n !in s.g
    ensures s.nodes[n].low == -1
  {
    hide Threaded, Placed, Heads, Keyed, Tables, Recorded;
  }

  lemma ConstantFacts(s: State, hash: Hash)
    requires Sound(s, hash)
    ensures 2 <= |s.nodes| && s.nodes[0].level == s.nodes[1].level == |s.levels|
    ensures s.nodes[0].refcou == s.nodes[1].refcou == MAXREF
    ensures Free in s.lists && Todo in s.lists && Hand in s.lists && s.freepos == Head(s.lists, Free)
    ensures s.freenum == |s.lists[Free]|
    ensures 0 !in s.g && 1 !in s.g
  {
    hide Threaded, Placed, Keyed, Tables, Slots;
  }

  lemma BucketFacts(s: State, hash: Hash, b: nat)
    requires Sound(s, hash) && b < |s.nodes|
    ensures Bucket(b) in s.lists && s.nodes[b].hash == Head(s.lists, Bucket(b))
  {
    hide Threaded, Placed, Keyed, Tables, Recorded, Slots;
  }

  lemma TableFacts(s: State, hash: Hash, v: nat)
    requires Sound(s, hash) && v < |s.levels|
    ensures 0 < s.levels[v].size && s.levels[v].start + s.levels[v].size <= |s.nodes|
    ensures forall low: nat, high: nat {:trigger hash(s.levels[v], low, high)} ::
              s.levels[v].start <= hash(s.levels[v], low, high) < s.levels[v].start + s.levels[v].size
  {
    hide Threaded, Placed, Keyed, Recorded, Heads, Slots;
  }

  /** The i-th entry of list k. */
  lemma EntryFacts(s: State, hash: Hash, k: Key, i: nat)
    requires Sound(s, hash) && k in s.lists && i < |s.lists[k]|
    ensures var n := s.lists[k][i];
            && 2 <= n < |s.nodes| && n in s.place && s.place[n] == (k, i)
            && s.nodes[n].next == Prev(s.lists[k], i)
            && (k != Free ==> n in s.g)
            && (k.Bucket? ==> s.g[n].v < |s.levels| && k.b == BucketOf(s.g[n], s.levels, hash))
  {
    hide Tables, Recorded, Heads, Slots;
    EntryPlace(s.nodes, s.lists, s.place, k, i);
  }

  lemma PlaceFacts(s: State, hash: Hash, n: nat)
    requires Sound(s, hash) && n in s.place
    ensures s.place[n].0 in s.lists && s.place[n].1 < |s.lists[s.place[n].0]| && s.lists[s.place[n].0][s.place[n].1] == n
    ensures n < |s.nodes|
  {
    hide Tables, Recorded, Heads, Keyed, Slots;
    var k := s.place[n];
    assert s.lists[k.0][k.1] == n;
  }

  /** No two variables share a bucket. */
  lemma OneVariablePerBucket(s: State, hash: Hash, i: Inner, j: Inner)
    requires Sound(s, hash) && i.v < |s.levels| && j.v < |s.levels|
    requires BucketOf(i, s.levels, hash) == BucketOf(j, s.levels, hash)
    ensures i.v == j.v
  {
    hide Threaded, Placed, Keyed, Recorded, Heads, Slots;
  }

  lemma GrownFields(s: State, hash: Hash, size: nat)
    requires Sound(s, hash) && |s.nodes| < size
    ensures Free in s.lists && 2 <= |s.nodes|
    ensures Grown(s, size).nodes == GrownNodes(s.nodes, s.freepos, size)
    ensures Grown(s, size).g == s.g && Grown(s, size).levels == s.levels
    ensures Grown(s, size).freepos == |s.nodes| && Grown(s, size).freenum == s.freenum + size - |s.nodes|
  {
    HeadsFree(s.nodes, s.lists, s.freepos);
    hide Threaded, Placed, Heads, Keyed, GrownNodes, Slots;
  }

  /** Changing only reference counts. */
  lemma CountsSound(s: State, hash: Hash, nodes': seq<BddNode>)
    requires Sound(s, hash) && |nodes'| == |s.nodes|
    requires forall m {:trigger nodes'[m]} :: 0 <= m < |nodes'| ==> nodes'[m] == s.nodes[m].(refcou := nodes'[m].refcou)
    requires nodes'[0].refcou == s.nodes[0].refcou && nodes'[1].refcou == s.nodes[1].refcou
    ensures Sound(s.(nodes := nodes'), hash)
  {
    HeadsFree(s.nodes, s.lists, s.freepos);
    CountsHeads(s.nodes, s.lists, s.freepos, nodes');
    hide Threaded, Placed, Heads, Keyed, Slots;
    Relabel(s.nodes, s.lists, s.place, nodes');
    SlotsKeep(s.nodes, s.g, |s.levels|, nodes');
  }

  lemma CountsHeads(nodes: seq<BddNode>, lists: Lists, freepos: nat, nodes': seq<BddNode>)
    requires Heads(nodes, lists, freepos) && |nodes'| == |nodes|
    requires forall m {:trigger nodes'[m]} :: 0 <= m < |nodes'| ==> nodes'[m] == nodes[m].(refcou := nodes'[m].refcou)
    ensures Heads(nodes', lists, freepos)
  {
  }

  /** Changing only node counts of the sub-tables. */
  ghost predicate SameTables(levels: Levels, levels': Levels) {
    && |levels'| == |levels|
    && forall v {:trigger levels'[v]} :: 0 <= v < |levels| ==> levels'[v].start == levels[v].start && levels'[v].size == levels[v].size
  }

  lemma NodenumSound(s: State, hash: Hash, v: nat, n: nat)
    requires Sound(s, hash) && v < |s.levels|
    ensures Sound(s.(levels := s.levels[v := s.levels[v].(nodenum := n)]), hash)
  {
    var levels' := s.levels[v := s.levels[v].(nodenum := n)];
    assert Keyed(|s.nodes|, s.g, levels', hash, s.place) by {
      forall m | m in s.place && s.place[m].0.Bucket?
        ensures m in s.g && s.g[m].v < |levels'| && s.place[m].0.b == BucketOf(s.g[m], levels', hash)
      {
      }
    }
    hide Threaded, Placed, Heads, Keyed, Slots;
  }

  /** Writing new contents over an unchained node. */
  lemma RewriteSound(s: State, hash: Hash, p: nat, i: Inner)
    requires Sound(s, hash) && p in s.g && p !in s.place && i.v < |s.levels|
    ensures p < |s.nodes|
    ensures Sound(s.(nodes := s.nodes[p := s.nodes[p].(level := i.v, low := i.low, high := i.high)], g := s.g[p := i]), hash)
  {
    var nodes' := s.nodes[p := s.nodes[p].(level := i.v, low := i.low, high := i.high)];
    HeadsFree(s.nodes, s.lists, s.freepos);
    HeadsKeep(s.nodes, s.lists, s.freepos, nodes', s.lists, s.freepos);
    RewriteKeyed(s, hash, p, i);
    hide Threaded, Placed, Heads, Keyed, Slots;
    Relabel(s.nodes, s.lists, s.place, nodes');
    SlotsPut(s.nodes, s.g, |s.levels|, p, i, nodes');
  }

  lemma RewriteKeyed(s: State, hash: Hash, p: nat, i: Inner)
    requires Keyed(|s.nodes|, s.g, s.levels, hash, s.place) && p in s.g && p !in s.place
    ensures Keyed(|s.nodes|, s.g[p := i], s.levels, hash, s.place)
  {
  }
}
