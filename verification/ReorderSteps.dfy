/**
  The steps of a reordering session, argued on values: what each one keeps of
  the chains, the counters and the reference counts.
*/
module ReorderSteps {
  import opened Threads
  import opened SwapTheory
  import opened Counting
  import opened SessionState
  import opened RefCounts

  ghost predicate Orders(var2level: Order, level2var: seq<nat>, nvars: nat) {
    && IsOrder(var2level) && |level2var| == |var2level| == nvars + 1
    && (forall v {:trigger var2level[v]} :: 0 <= v < |var2level| ==> level2var[var2level[v]] == v)
    && (forall l {:trigger level2var[l]} :: 0 <= l < |level2var| ==> level2var[l] < |var2level| && var2level[level2var[l]] == l)
  }

  /** nodenum counts the chained nodes of every variable. */
  ghost predicate Rows(levels: Levels, g: Graph, place: Places) {
    forall v {:trigger levels[v]} :: 0 <= v < |levels| ==> levels[v].nodenum == |Row(g, place, v)|
  }

  ghost predicate Chained(g: Graph, place: Places, n: nat) {
    n in g && n in place && place[n].0.Bucket?
  }

  /** Where the old nodes are does not change. */
  ghost predicate SamePlaces(g: Graph, place: Places, place': Places) {
    forall n {:trigger n in g} :: n in g ==> (n in place <==> n in place') && (n in place ==> place[n] == place'[n])
  }

  /** The bookkeeping every step inside a session keeps. */
  ghost predicate Steady(s: State, hash: Hash, ext: map<nat, nat>, pend: multiset<nat>) {
    && Sound(s, hash)
    && Refs(s.nodes, s.g, ext, pend)
    && Rows(s.levels, s.g, s.place)
  }

  lemma RowsSame(levels: Levels, g: Graph, place: Places, place': Places)
    requires Rows(levels, g, place) && SamePlaces(g, place, place')
    ensures Rows(levels, g, place')
  {
    forall v | 0 <= v < |levels| ensures levels[v].nodenum == |Row(g, place', v)| {
      assert Row(g, place', v) == Row(g, place, v);
    }
  }

  lemma {:induction false} RowsAdd(levels: Levels, g: Graph, place: Places, r: nat, i: Inner, place': Places, levels': Levels)
    requires Rows(levels, g, place) && r !in g && i.v < |levels|
    requires SamePlaces(g, place, place') && r in place' && place'[r].0.Bucket?
    requires levels' == levels[i.v := levels[i.v].(nodenum := levels[i.v].nodenum + 1)]
    ensures Rows(levels', g[r := i], place')
  {
    forall v | 0 <= v < |levels| ensures levels'[v].nodenum == |Row(g[r := i], place', v)| {
      RowAdd(g, place, r, i, place', v);
      hide Row;
    }
  }

  lemma RowAdd(g: Graph, place: Places, r: nat, i: Inner, place': Places, v: nat)
    requires r !in g && SamePlaces(g, place, place') && r in place' && place'[r].0.Bucket?
    ensures |Row(g[r := i], place', v)| == |Row(g, place, v)| + if v == i.v then 1 else 0
  {
    var s, t := Row(g, place, v), Row(g[r := i], place', v);
    forall n ensures n in t <==> n in s || (v == i.v && n == r) {
      assert n != r && n in g ==> Chained(g, place, n) == Chained(g, place', n);
    }
    assert r !in s;
    assert t == if v == i.v then s + {r} else s;
  }

  /** What reorder_makenode leaves as it was, and what its result is. */
  ghost predicate Made(s: State, t: State, i: Inner, res: nat) {
    && IsMk(t.g, res, i.v, i.low, i.high)
    && (t.g == s.g || (2 <= res && res !in s.g && t.g == s.g[res := i] && i.low != i.high && Chained(t.g, t.place, res)
                       && forall n {:trigger n in s.g} :: n in s.g ==> s.g[n] != i))
    && Same(s, t)
  }

  ghost predicate Same(s: State, t: State) {
    && SamePlaces(s.g, s.place, t.place)
    && Todo in s.lists && Hand in s.lists && Todo in t.lists && Hand in t.lists
    && t.lists[Todo] == s.lists[Todo] && t.lists[Hand] == s.lists[Hand]
    && SameTables(s.levels, t.levels)
    && Sticky(s.nodes, s.g, t.nodes)
  }

  lemma MadeNothing(s: State, hash: Hash, ext: map<nat, nat>, pend: multiset<nat>)
    requires Steady(s, hash, ext, pend)
    ensures Same(s, s) && Sound(s, hash)
    ensures Free in s.lists && 2 <= |s.nodes|
    ensures forall n {:trigger n in s.g} :: n in s.g ==> 2 <= n < |s.nodes|
  {
    ConstantFacts(s, hash);
    forall n | n in s.g ensures 2 <= n < |s.nodes| {
      NodeFacts(s, hash, n);
    }
    hide Sound;
  }

  lemma RefRange(s: State, hash: Hash, ext: map<nat, nat>, pend: multiset<nat>, n: nat)
    requires Steady(s, hash, ext, pend) && Node(s.g, n)
    ensures n < |s.nodes|
  {
    hide Sound, Refs, Rows;
    ConstantFacts(s, hash);
    if n in s.g { NodeFacts(s, hash, n); }
  }

  /** One more promised reference to an existing node. */
  lemma CountSteady(s: State, hash: Hash, ext: map<nat, nat>, pend: multiset<nat>, r: nat)
    requires Steady(s, hash, ext, pend) && Node(s.g, r)
    ensures r < |s.nodes|
    ensures var t := s.(nodes := s.nodes[r := s.nodes[r].(refcou := Inc(s.nodes[r].refcou))]);
            Steady(t, hash, ext, pend + multiset{r}) && Same(s, t)
  {
    hide Sound, Rows, Refs, Sticky;
    RefRange(s, hash, ext, pend, r);
    MadeNothing(s, hash, ext, pend);
    ConstantFacts(s, hash);
    var nodes' := s.nodes[r := s.nodes[r].(refcou := Inc(s.nodes[r].refcou))];
    CountsSound(s, hash, nodes');
    Promise(s.nodes, s.g, ext, pend, r, nodes');
  }

  lemma GrowSteady(s: State, hash: Hash, ext: map<nat, nat>, pend: multiset<nat>, size: nat)
    requires Steady(s, hash, ext, pend) && |s.nodes| < size
    ensures Free in s.lists && Steady(Grown(s, size), hash, ext, pend) && Same(s, Grown(s, size))
  {
    hide Sound, Rows;
    GrowSound(s, hash, size);
    GrownFields(s, hash, size);
    GrowSame(s, hash, size);
    RowsSame(s.levels, s.g, s.place, Grown(s, size).place);
  }

  lemma GrowSame(s: State, hash: Hash, size: nat)
    requires Sound(s, hash) && |s.nodes| < size
    ensures Free in s.lists && Same(s, Grown(s, size))
  {
    ConstantFacts(s, hash);
    forall n | n in s.g ensures n < |s.nodes| { NodeFacts(s, hash, n); }
    hide Sound, Row;
  }

  /** The records after allocating and linking a new node. */
  lemma {:induction false} NewNodes(s1: State, hash: Hash, ext: map<nat, nat>, pend: multiset<nat>, i: Inner, s4: State, b: nat)
    requires Steady(s1, hash, ext, pend) && s1.freepos != 0 && i.v < |s1.levels|
    requires b < |s1.nodes| && s1.freepos < |s1.nodes| && Free in s1.lists && s1.lists[Free] != [] && 0 < s1.freenum
    requires Bucket(b) in s1.lists
    requires var s2 := Allocated(s1, i);
             s4 == Inserted(s2.(levels := s4.levels), b, s1.freepos)
    requires s1.freepos !in s1.g && s1.freepos in s1.place && s1.place[s1.freepos].0 == Free
    requires s4.levels == s1.levels[i.v := s1.levels[i.v].(nodenum := s1.levels[i.v].nodenum + 1)]
    ensures |s4.nodes| == |s1.nodes| && s4.nodes[s1.freepos].refcou == 1
    ensures forall m {:trigger s4.nodes[m]} :: 0 <= m < |s1.nodes| && m != s1.freepos ==> s4.nodes[m].refcou == s1.nodes[m].refcou
    ensures s4.g == s1.g[s1.freepos := i]
    ensures SamePlaces(s1.g, s1.place, s4.place) && Chained(s4.g, s4.place, s1.freepos)
    ensures Todo in s1.lists && Hand in s1.lists && Todo in s4.lists && Hand in s4.lists
    ensures s4.lists[Todo] == s1.lists[Todo] && s4.lists[Hand] == s1.lists[Hand]
  {
    hide Sound, Refs, Rows;
    ConstantFacts(s1, hash);
  }

  lemma NewSteady(s1: State, hash: Hash, ext: map<nat, nat>, pend: multiset<nat>, i: Inner, s4: State, t: State)
    requires Steady(s1, hash, ext, pend) && Sound(s4, hash)
    requires i.v < |s1.levels| && i.low != i.high && Node(s1.g, i.low) && Node(s1.g, i.high)
    requires s1.freepos !in s1.g && 2 <= s1.freepos < |s1.nodes| == |s4.nodes|
    requires s4.nodes[s1.freepos].refcou == 1
    requires forall m {:trigger s4.nodes[m]} :: 0 <= m < |s1.nodes| && m != s1.freepos ==> s4.nodes[m].refcou == s1.nodes[m].refcou
    requires s4.g == s1.g[s1.freepos := i]
    requires SamePlaces(s1.g, s1.place, s4.place) && Chained(s4.g, s4.place, s1.freepos)
    requires s4.levels == s1.levels[i.v := s1.levels[i.v].(nodenum := s1.levels[i.v].nodenum + 1)]
    requires i.low < |s1.nodes| && i.high < |s1.nodes|
    requires var nodes5 := s4.nodes[i.low := s4.nodes[i.low].(refcou := Inc(s4.nodes[i.low].refcou))];
             t == s4.(nodes := nodes5[i.high := nodes5[i.high].(refcou := Inc(nodes5[i.high].refcou))])
    ensures Steady(t, hash, ext, pend + multiset{s1.freepos})
    ensures SameTables(s1.levels, t.levels) && Sticky(s1.nodes, s1.g, t.nodes)
  {
    hide Sound, Refs, Rows, Row, Sticky, SamePlaces;
    ConstantFacts(s4, hash);
    ConstantFacts(s1, hash);
    CountsSound(s4, hash, t.nodes);
    NewNode(s1.nodes, s1.g, ext, pend, s1.freepos, i, t.nodes);
    RowsAdd(s1.levels, s1.g, s1.place, s1.freepos, i, s4.place, s4.levels);
  }

  lemma MadeCompose(s: State, s1: State, t: State, i: Inner, res: nat)
    requires Same(s, s1) && s1.g == s.g
    requires 2 <= res && res !in s.g && t.g == s.g[res := i] && i.low != i.high && Chained(t.g, t.place, res)
    requires Same(s1, t) && forall n {:trigger n in s.g} :: n in s.g ==> s.g[n] != i
    ensures Made(s, t, i, res)
  {
  }

  lemma HeadPrev(lists: Lists, k: Key)
    requires k in lists
    ensures Head(lists, k) == Prev(lists[k], |lists[k]|)
  {
  }

  /* ---- reorder_downSimple: sorting the v0 nodes into those that stay and those that wait ---- */

  /** The v0 nodes that are already back in a bucket below `upto`. */
  ghost function Sorted(g: Graph, place: Places, v0: nat, upto: nat): set<nat> {
    set n | n in g && g[n].v == v0 && n in place && place[n].0.Bucket? && place[n].0.b < upto
  }

  ghost predicate SortedNode(g: Graph, place: Places, v0: nat, v1: nat, upto: nat, n: nat) {
    && n in g && n in place && place[n].0 != Free
    && (place[n].0 == Hand ==> g[n].v == v0)
    && (place[n].0 == Todo ==> Depends(g, n, v0, v1))
    && (place[n].0.Bucket? && g[n].v == v0 && place[n].0.b < upto ==> !Depends(g, n, v0, v1))
  }

  ghost predicate Sorting(s: State, hash: Hash, ext: map<nat, nat>, v0: nat, v1: nat, upto: nat) {
    && Sound(s, hash) && Refs(s.nodes, s.g, ext, multiset{})
    && v0 < |s.levels|
    && (forall n {:trigger n in s.g} :: n in s.g ==> SortedNode(s.g, s.place, v0, v1, upto, n))
    && (forall v {:trigger s.levels[v]} :: 0 <= v < |s.levels| && v != v0 ==> s.levels[v].nodenum == |Row(s.g, s.place, v)|)
    && s.levels[v0].nodenum == |Sorted(s.g, s.place, v0, upto)|
  }

  /** nodes' differs from nodes in `hash` and `next` only. */
  ghost predicate SameButLinks(nodes: seq<BddNode>, nodes': seq<BddNode>) {
    && |nodes'| == |nodes|
    && forall m {:trigger nodes'[m]} :: 0 <= m < |nodes| ==> nodes'[m].refcou == nodes[m].refcou
  }

  lemma RefsLinks(nodes: seq<BddNode>, g: Graph, ext: map<nat, nat>, pend: multiset<nat>, nodes': seq<BddNode>)
    requires Refs(nodes, g, ext, pend) && SameButLinks(nodes, nodes')
    ensures Refs(nodes', g, ext, pend) && Sticky(nodes, g, nodes')
  {
  }

  lemma SortDetach(s: State, hash: Hash, ext: map<nat, nat>, v0: nat, v1: nat, b: nat)
    requires Sorting(s, hash, ext, v0, v1, b) && Hand in s.lists && s.lists[Hand] == []
    requires s.levels[v0].start <= b < s.levels[v0].start + s.levels[v0].size
    ensures b < |s.nodes| && Bucket(b) in s.lists
    ensures var t := Detached(s, b);
            && Sorting(t, hash, ext, v0, v1, b + 1) && SameButLinks(s.nodes, t.nodes)
            && t.lists[Todo] == s.lists[Todo] && Head(t.lists, Hand) == s.nodes[b].hash
  {
    hide Sound, Refs, Row, Sorted;
    TableFacts(s, hash, v0);
    BucketFacts(s, hash, b);
    ConstantFacts(s, hash);
    var t := Detached(s, b);
    DetachSound(s, hash, b);
    DetachKeeps(s, hash, ext, v0, v1, b);
    RefsLinks(s.nodes, s.g, ext, multiset{}, t.nodes);
  }

  /** Everything in the detached chain is a v0 node. */
  lemma DetachKeeps(s: State, hash: Hash, ext: map<nat, nat>, v0: nat, v1: nat, b: nat)
    requires Sorting(s, hash, ext, v0, v1, b) && Hand in s.lists && s.lists[Hand] == []
    requires s.levels[v0].start <= b < s.levels[v0].start + s.levels[v0].size
    requires b < |s.nodes| && Bucket(b) in s.lists
    ensures var t := Detached(s, b);
            && (forall n {:trigger n in s.g} :: n in s.g ==> SortedNode(s.g, t.place, v0, v1, b + 1, n))
            && (forall v {:trigger s.levels[v]} :: 0 <= v < |s.levels| && v != v0 ==> Row(s.g, t.place, v) == Row(s.g, s.place, v))
            && Sorted(s.g, t.place, v0, b + 1) == Sorted(s.g, s.place, v0, b)
  {
    hide Sound, Refs;
    var t := Detached(s, b);
    forall n | n in s.g
      ensures SortedNode(s.g, t.place, v0, v1, b + 1, n)
      ensures s.place[n].0 == Bucket(b) ==> s.g[n].v == v0
    {
      if s.place[n].0 == Bucket(b) {
        PlaceFacts(s, hash, n);
        EntryFacts(s, hash, Bucket(b), s.place[n].1);
        OwnBucket(s, hash, v0, s.g[n]);
      }
    }
    forall v | 0 <= v < |s.levels| && v != v0 ensures Row(s.g, t.place, v) == Row(s.g, s.place, v) {
      forall n ensures n in Row(s.g, t.place, v) <==> n in Row(s.g, s.place, v) {}
    }
    forall n ensures n in Sorted(s.g, t.place, v0, b + 1) <==> n in Sorted(s.g, s.place, v0, b) {}
  }

  lemma OwnBucket(s: State, hash: Hash, v: nat, i: Inner)
    requires Sound(s, hash) && i.v < |s.levels| && v < |s.levels|
    requires s.levels[v].start <= BucketOf(i, s.levels, hash) < s.levels[v].start + s.levels[v].size
    ensures i.v == v
  {
    hide Threaded, Placed, Keyed, Recorded, Heads;
  }

  /** A node that does not depend on v1 goes back where it was. */
  lemma SortStay(s: State, hash: Hash, ext: map<nat, nat>, v0: nat, v1: nat, upto: nat)
    requires Sorting(s, hash, ext, v0, v1, upto) && Hand in s.lists && s.lists[Hand] != []
    requires Head(s.lists, Hand) in s.g && !Depends(s.g, Head(s.lists, Hand), v0, v1)
    requires s.g[Head(s.lists, Hand)].v < |s.levels|
    requires BucketOf(s.g[Head(s.lists, Hand)], s.levels, hash) < upto
    ensures var r := Head(s.lists, Hand);
            && r < |s.nodes| && s.place.Keys >= {r}
            && var b := BucketOf(s.g[r], s.levels, hash);
            && b < |s.nodes| && Bucket(b) in Taken(s, Hand).lists
            && var t := Inserted(Taken(s, Hand), b, r);
            && Sorting(t.(levels := t.levels[v0 := t.levels[v0].(nodenum := t.levels[v0].nodenum + 1)]), hash, ext, v0, v1, upto)
            && Todo in t.lists && Hand in t.lists
            && SameButLinks(s.nodes, t.nodes) && Todo in s.lists && t.lists[Todo] == s.lists[Todo] && t.lists[Hand] == Popped(s.lists, Hand)[Hand]
  {
    hide Sound, Refs, Row, Sorted;
    var r := Head(s.lists, Hand);
    ConstantFacts(s, hash);
    TakeHead(s, hash, Hand);
    TakeSound(s, hash, Hand);
    var s1 := Taken(s, Hand);
    InsertSound(s1, hash, r);
    var b := BucketOf(s.g[r], s.levels, hash);
    var t := Inserted(s1, b, r);
    NodenumSound(t, hash, v0, t.levels[v0].nodenum + 1);
    RefsLinks(s.nodes, s.g, ext, multiset{}, t.nodes);
    SortPut(s, v0, v1, upto, r, t.place);
  }

  lemma {:induction false} SortPut(s: State, v0: nat, v1: nat, upto: nat, r: nat, place': Places)
    requires forall n {:trigger n in s.g} :: n in s.g ==> SortedNode(s.g, s.place, v0, v1, upto, n)
    requires r in s.g && r in s.place && s.place[r].0 == Hand && r in place'
    requires place' == s.place[r := place'[r]]
    requires (place'[r].0 == Todo && Depends(s.g, r, v0, v1)) || (place'[r].0.Bucket? && place'[r].0.b < upto && !Depends(s.g, r, v0, v1))
    ensures forall n {:trigger n in s.g} :: n in s.g ==> SortedNode(s.g, place', v0, v1, upto, n)
    ensures forall v {:trigger s.levels[v]} :: 0 <= v < |s.levels| && v != v0 ==> Row(s.g, place', v) == Row(s.g, s.place, v)
    ensures |Sorted(s.g, place', v0, upto)| == |Sorted(s.g, s.place, v0, upto)| + if place'[r].0 == Todo then 0 else 1
  {
    hide Row, Sorted;
    assert SortedNode(s.g, s.place, v0, v1, upto, r);
    PutRows(s.g, s.place, v0, r, place'[r]);
    PutSorted(s.g, s.place, v0, upto, r, place'[r]);
  }

  lemma PutRows(g: Graph, place: Places, v0: nat, r: nat, spot: (Key, nat))
    requires r in g && g[r].v == v0 && r in place
    ensures forall v: nat {:trigger Row(g, place, v)} :: v != v0 ==> Row(g, place[r := spot], v) == Row(g, place, v)
  {
  }

  lemma PutSorted(g: Graph, place: Places, v0: nat, upto: nat, r: nat, spot: (Key, nat))
    requires r in g && g[r].v == v0 && r in place && place[r].0 == Hand && (spot.0 == Todo || (spot.0.Bucket? && spot.0.b < upto))
    ensures |Sorted(g, place[r := spot], v0, upto)| == |Sorted(g, place, v0, upto)| + if spot.0 == Todo then 0 else 1
  {
    var s, t := Sorted(g, place, v0, upto), Sorted(g, place[r := spot], v0, upto);
    assert r !in s;
    assert t == if spot.0 == Todo then s else s + {r};
  }

  /** A node over v1 is saved for later. */
  lemma SortSave(s: State, hash: Hash, ext: map<nat, nat>, v0: nat, v1: nat, upto: nat)
    requires Sorting(s, hash, ext, v0, v1, upto) && Hand in s.lists && s.lists[Hand] != []
    requires Head(s.lists, Hand) in s.g && Depends(s.g, Head(s.lists, Hand), v0, v1)
    ensures var r := Head(s.lists, Hand);
            && r < |s.nodes| && Todo in s.lists
            && var t := Saved(Taken(s, Hand), r);
            && Sorting(t, hash, ext, v0, v1, upto) && SameButLinks(s.nodes, t.nodes)
            && Todo in t.lists && Hand in t.lists
            && Head(t.lists, Todo) == r && t.lists[Hand] == Popped(s.lists, Hand)[Hand]
  {
    hide Sound, Refs, Row, Sorted;
    var r := Head(s.lists, Hand);
    ConstantFacts(s, hash);
    TakeHead(s, hash, Hand);
    TakeSound(s, hash, Hand);
    var s1 := Taken(s, Hand);
    SaveSound(s1, hash, r);
    var t := Saved(s1, r);
    RefsLinks(s.nodes, s.g, ext, multiset{}, t.nodes);
    SortPut(s, v0, v1, upto, r, t.place);
  }

  /** All nodes are in their buckets and no list is loose. */
  ghost predicate AtRest(s: State) {
    && Todo in s.lists && Hand in s.lists && s.lists[Todo] == [] && s.lists[Hand] == []
    && forall n {:trigger n in s.g} :: n in s.g ==> Chained(s.g, s.place, n)
  }

  /** Nothing is sorted yet. */
  lemma SortStart(s: State, hash: Hash, ext: map<nat, nat>, v0: nat, v1: nat)
    requires Steady(s, hash, ext, multiset{}) && AtRest(s) && v0 < |s.levels|
    ensures Sorting(s.(levels := s.levels[v0 := s.levels[v0].(nodenum := 0)]), hash, ext, v0, v1, s.levels[v0].start)
  {
    hide Sound, Refs, Row;
    NodenumSound(s, hash, v0, 0);
    var start := s.levels[v0].start;
    forall n | n in s.g
      ensures SortedNode(s.g, s.place, v0, v1, start, n) && n !in Sorted(s.g, s.place, v0, start)
    {
      PlaceFacts(s, hash, n);
      EntryFacts(s, hash, s.place[n].0, s.place[n].1);
      TableFacts(s, hash, v0);
    }
    assert Sorted(s.g, s.place, v0, start) == {};
  }

  /** All v0 buckets done: what depends on v1 waits, the rest is chained and counted. */
  ghost predicate Split(s: State, v0: nat, v1: nat) {
    forall n {:trigger n in s.g} :: n in s.g ==>
      n in s.place && if Depends(s.g, n, v0, v1) then s.place[n].0 == Todo else s.place[n].0.Bucket?
  }

  lemma SortEnd(s: State, hash: Hash, ext: map<nat, nat>, v0: nat, v1: nat)
    requires v0 < |s.levels|
    requires Sorting(s, hash, ext, v0, v1, s.levels[v0].start + s.levels[v0].size)
    requires Hand in s.lists && s.lists[Hand] == []
    ensures Steady(s, hash, ext, multiset{}) && Split(s, v0, v1)
  {
    hide Sound, Refs;
    var upto := s.levels[v0].start + s.levels[v0].size;
    forall n | n in s.g
      ensures n in s.place && s.place[n].0 != Hand
      ensures s.g[n].v == v0 && s.place[n].0.Bucket? ==> s.place[n].0.b < upto
      ensures if Depends(s.g, n, v0, v1) then s.place[n].0 == Todo else s.place[n].0.Bucket?
    {
      assert SortedNode(s.g, s.place, v0, v1, upto, n);
      PlaceFacts(s, hash, n);
      EntryFacts(s, hash, s.place[n].0, s.place[n].1);
      TableFacts(s, hash, v0);
    }
    forall n ensures n in Row(s.g, s.place, v0) <==> n in Sorted(s.g, s.place, v0, upto) {}
    assert Row(s.g, s.place, v0) == Sorted(s.g, s.place, v0, upto);
  }

  lemma SameTablesNodenum(levels: Levels, v: nat, n: nat)
    requires v < |levels|
    ensures SameTables(levels, levels[v := levels[v].(nodenum := n)])
  {
  }

  /** Every node in hand came out of bucket b. */
  ghost predicate HandFrom(s: State, hash: Hash, b: int) {
    && Hand in s.lists
    && forall i {:trigger s.lists[Hand][i]} :: 0 <= i < |s.lists[Hand]| ==>
         var r := s.lists[Hand][i];
         r in s.g && s.g[r].v < |s.levels| && BucketOf(s.g[r], s.levels, hash) == b
  }

  /** The invariant of the two loops of reorder_downSimple; s0 is the state they started from. */
  ghost predicate SortLoop(s0: State, s: State, hash: Hash, ext: map<nat, nat>, v0: nat, v1: nat, upto: nat, todo: nat) {
    && Sorting(s, hash, ext, v0, v1, upto)
    && HandFrom(s, hash, upto - 1)
    && s.g == s0.g && Todo in s.lists && Hand in s.lists && todo == Head(s.lists, Todo)
    && |s.levels| == |s0.levels| && SameTables(s0.levels, s.levels) && Sticky(s0.nodes, s.g, s.nodes)
  }

  lemma SortSetup(s0: State, s: State, hash: Hash, ext: map<nat, nat>, v0: nat, v1: nat)
    requires Steady(s0, hash, ext, multiset{}) && AtRest(s0) && v0 < |s0.levels|
    requires s == s0.(levels := s0.levels[v0 := s0.levels[v0].(nodenum := 0)])
    ensures SortLoop(s0, s, hash, ext, v0, v1, s.levels[v0].start, 0)
    ensures s.levels[v0].start + s.levels[v0].size == s0.levels[v0].start + s0.levels[v0].size
  {
    hide Sound, Sorting, Rows;
    SortStart(s0, hash, ext, v0, v1);
    SameTablesNodenum(s0.levels, v0, 0);
    assert Sticky(s0.nodes, s.g, s.nodes) by { hide RefOk; }
  }

  lemma SortDetachLoop(s0: State, s: State, hash: Hash, ext: map<nat, nat>, v0: nat, v1: nat, b: nat, todo: nat)
    requires SortLoop(s0, s, hash, ext, v0, v1, b, todo) && s.lists[Hand] == []
    requires v0 < |s0.levels| && s0.levels[v0].start <= b < s0.levels[v0].start + s0.levels[v0].size
    ensures b < |s.nodes| && Bucket(b) in s.lists && Sound(s, hash)
    ensures SortLoop(s0, Detached(s, b), hash, ext, v0, v1, b + 1, todo)
    ensures s.nodes[b].hash == Head(Detached(s, b).lists, Hand)
  {
    SortDetachHand(s, hash, ext, v0, v1, b);
    hide Sound, Refs, Row, Sorted;
    SortDetach(s, hash, ext, v0, v1, b);
    var t := Detached(s, b);
    StickyTrans(s0.nodes, s.nodes, t.nodes, s.g);
  }

  lemma SortDetachHand(s: State, hash: Hash, ext: map<nat, nat>, v0: nat, v1: nat, b: nat)
    requires Sound(s, hash) && b < |s.nodes| && Hand in s.lists && s.lists[Hand] == []
    requires v0 < |s.levels|
    ensures Bucket(b) in s.lists && HandFrom(Detached(s, b), hash, b)
  {
    hide Sound;
    BucketFacts(s, hash, b);
    var t := Detached(s, b);
    forall i | 0 <= i < |t.lists[Hand]|
      ensures var r := t.lists[Hand][i]; r in s.g && s.g[r].v < |s.levels| && BucketOf(s.g[r], s.levels, hash) == b
    {
      EntryFacts(s, hash, Bucket(b), i);
    }
  }

  lemma StickyTrans(a: seq<BddNode>, b: seq<BddNode>, c: seq<BddNode>, g: Graph)
    requires Sticky(a, g, b) && SameButLinks(b, c)
    requires forall n {:trigger n in g} :: n in g ==> n < |b|
    ensures Sticky(a, g, c)
  {
  }

  lemma HandHead(s: State, hash: Hash, ext: map<nat, nat>, v0: nat, v1: nat, b: nat)
    requires Sorting(s, hash, ext, v0, v1, b + 1) && HandFrom(s, hash, b) && Head(s.lists, Hand) != 0
    ensures s.lists[Hand] != [] && Sound(s, hash) && Closed(s.g)
    ensures var r := Head(s.lists, Hand);
            && 2 <= r < |s.nodes| && r in s.g && r in s.place
            && s.g[r].v == v0 && v0 < |s.levels| && BucketOf(s.g[r], s.levels, hash) == b
            && s.nodes[r].next == Head(Taken(s, Hand).lists, Hand)
  {
    hide Sound, Row, Sorted;
    var c := s.lists[Hand];
    TakeHead(s, hash, Hand);
    assert c[|c| - 1] in s.g && SortedNode(s.g, s.place, v0, v1, b + 1, c[|c| - 1]);
  }

  /** The test of reorder_downSimple on the records is Depends on the graph. */
  lemma SortDepends(s: State, hash: Hash, r: nat, v0: nat, v1: nat)
    requires Sound(s, hash) && Closed(s.g) && r in s.g && r < |s.nodes| && s.g[r].v == v0 && v1 < |s.levels|
    ensures s.nodes[r].low == s.g[r].low && s.nodes[r].high == s.g[r].high
    ensures 0 <= s.nodes[r].low < |s.nodes| && 0 <= s.nodes[r].high < |s.nodes|
    ensures Depends(s.g, r, v0, v1) <==> s.nodes[s.nodes[r].low].level == v1 || s.nodes[s.nodes[r].high].level == v1
  {
    hide Sound;
    ConstantFacts(s, hash);
    NodeFacts(s, hash, r);
    if s.g[r].low in s.g { NodeFacts(s, hash, s.g[r].low); }
    if s.g[r].high in s.g { NodeFacts(s, hash, s.g[r].high); }
  }

  lemma SortNext(s0: State, s: State, t: State, hash: Hash, ext: map<nat, nat>, v0: nat, v1: nat, b: nat, todo: nat)
    requires SortLoop(s0, s, hash, ext, v0, v1, b + 1, todo) && s.lists[Hand] != []
    requires Sorting(t, hash, ext, v0, v1, b + 1) && t.g == s.g && SameButLinks(s.nodes, t.nodes)
    requires Todo in t.lists && Hand in t.lists && t.lists[Hand] == Popped(s.lists, Hand)[Hand]
    requires t.levels == s.levels || t.levels == s.levels[v0 := s.levels[v0].(nodenum := s.levels[v0].nodenum + 1)]
    ensures SortLoop(s0, t, hash, ext, v0, v1, b + 1, Head(t.lists, Todo))
  {
    hide Row, Sorted, Threaded, Placed, Keyed, Recorded, Heads, Tables, Constants;
    forall n | n in s.g ensures n < |s.nodes| {}
    StickyTrans(s0.nodes, s.nodes, t.nodes, s.g);
    forall i | 0 <= i < |t.lists[Hand]|
      ensures var r := t.lists[Hand][i]; r in t.g && t.g[r].v < |t.levels| && BucketOf(t.g[r], t.levels, hash) == b
    {
      assert t.lists[Hand][i] == s.lists[Hand][i];
      var r := t.lists[Hand][i];
      assert BucketOf(t.g[r], t.levels, hash) == BucketOf(s.g[r], s.levels, hash);
    }
  }

  lemma HeadZero(s: State, hash: Hash, ext: map<nat, nat>, v0: nat, v1: nat, upto: nat)
    requires Sorting(s, hash, ext, v0, v1, upto) && Hand in s.lists && Head(s.lists, Hand) == 0
    ensures s.lists[Hand] == []
  {
    hide Sound;
    if s.lists[Hand] != [] {
      TakeHead(s, hash, Hand);
    }
  }

  lemma SortOver(s0: State, s: State, hash: Hash, ext: map<nat, nat>, v0: nat, v1: nat, todo: nat)
    requires v0 < |s0.levels| && SortLoop(s0, s, hash, ext, v0, v1, s0.levels[v0].start + s0.levels[v0].size, todo)
    requires s.lists[Hand] == []
    ensures Steady(s, hash, ext, multiset{}) && Split(s, v0, v1)
  {
    hide Sound, Refs;
    SortEnd(s, hash, ext, v0, v1);
  }

  lemma InsertedFields(s: State, b: nat, r: nat)
    requires b < |s.nodes| && r < |s.nodes| && Bucket(b) in s.lists
    ensures var t := Inserted(s, b, r);
            t.g == s.g && t.levels == s.levels && |t.nodes| == |s.nodes|
  {
  }

  lemma AllocatedFields(s: State, i: Inner)
    requires s.freepos < |s.nodes| && Free in s.lists && s.lists[Free] != [] && 0 < s.freenum
    ensures var t := Allocated(s, i);
            t.g == s.g[s.freepos := i] && t.levels == s.levels && |t.nodes| == |s.nodes| && t.place == s.place - {s.freepos}
  {
  }

  /* ---- reorder_swap: rewriting the waiting nodes ---- */

  ghost function Waiting(s: State): set<nat> {
    set n | n in s.g && n in s.place && s.place[n].0 == Todo
  }

  /** n has a rewritten node as a parent. */
  ghost predicate Held(g0: Graph, h: Graph, v0: nat, v1: nat, n: nat) {
    exists q {:trigger IsParent(h, q, n)} :: q in g0 && Depends(g0, q, v0, v1) && IsParent(h, q, n)
  }

  /** Every new node, but those of `loose`, was made as the child of a rewritten one. */
  ghost predicate FreshHeld(g0: Graph, h: Graph, v0: nat, v1: nat, loose: set<nat>) {
    forall n {:trigger n in h} :: n in h && n !in g0 && n !in loose ==> Held(g0, h, v0, v1, n)
  }

  ghost predicate Settled(g0: Graph, s: State, v0: nat, v1: nat, n: nat) {
    && n in s.g && n in s.place
    && (s.place[n].0.Bucket? || (s.place[n].0 == Todo && n in g0 && s.g[n] == g0[n] && Depends(g0, n, v0, v1)))
  }

  /** The invariant of reorder_swap's loop; s0 is the state it started from. */
  ghost predicate SwapLoop(s0: State, s: State, hash: Hash, ext: map<nat, nat>, lev: Order, v0: nat, v1: nat) {
    && Steady(s, hash, ext, multiset{})
    && v0 < |s.levels| && v1 < |s.levels| && |s.levels| == |s0.levels|
    && Swapping(s0.g, s.g, lev, v0, v1, Waiting(s))
    && s0.g.Keys <= s.g.Keys
    && (forall n {:trigger n in s.g} :: n in s.g ==> Settled(s0.g, s, v0, v1, n))
    && FreshHeld(s0.g, s.g, v0, v1, {})
    && SameTables(s0.levels, s.levels) && Sticky(s0.nodes, s0.g, s.nodes)
    && Todo in s.lists && Hand in s.lists && s.lists[Hand] == []
  }

  lemma SwapStart(s: State, hash: Hash, ext: map<nat, nat>, lev: Order, v0: nat, v1: nat)
    requires Steady(s, hash, ext, multiset{}) && Split(s, v0, v1)
    requires Wf(s.g, lev) && Unique(s.g) && |lev| == |s.levels| + 1
    requires v0 < |s.levels| && v1 < |s.levels| && lev[v1] == lev[v0] + 1
    requires Todo in s.lists && Hand in s.lists && s.lists[Hand] == []
    ensures SwapLoop(s, s, hash, ext, lev, v0, v1)
  {
    hide Sound, Rows;
    var w := Waiting(s);
    forall n | n in s.g
      ensures Settled(s.g, s, v0, v1, n) && Kept(s.g, s.g, n, v0, v1, w)
      ensures Node(s.g, s.g[n].low) && Node(s.g, s.g[n].high)
    {
      assert GoodNode(s.g, lev, n);
    }
  }

  /** reorder_makenode on two nodes from below both variables. */
  lemma SwapMake(g0: Graph, h: Graph, lev: Order, v0: nat, v1: nat, w: set<nat>, r: nat, c: nat, d: nat)
    requires Swapping(g0, h, lev, v0, v1, w) && g0.Keys <= h.Keys
    requires Node(g0, c) && Node(g0, d) && Var(g0, lev, c) < |lev| && Var(g0, lev, d) < |lev|
    requires lev[v1] < lev[Var(g0, lev, c)] && lev[v1] < lev[Var(g0, lev, d)]
    requires c != d && 2 <= r && r !in h
    requires forall n {:trigger n in h} :: n in h ==> h[n] != Inner(v0, c, d)
    ensures Swapping(g0, h[r := Inner(v0, c, d)], lev, v0, v1, w)
  {
    hide Wf, Unique, Depends;
    var h' := h[r := Inner(v0, c, d)];
    forall n | n in h'
      ensures Node(h', h'[n].low) && Node(h', h'[n].high)
      ensures n in g0 ==> Kept(g0, h', n, v0, v1, w)
      ensures n !in g0 ==> Fresh(g0, h', lev, n, v0, v1)
    {
      assert n in h ==> Node(h, h[n].low) && Node(h, h[n].high);
      MakeKept(g0, h, lev, v0, v1, w, r, c, d, n);
    }
  }

  lemma MakeKept(g0: Graph, h: Graph, lev: Order, v0: nat, v1: nat, w: set<nat>, r: nat, c: nat, d: nat, n: nat)
    requires Swapping(g0, h, lev, v0, v1, w) && g0.Keys <= h.Keys && c != d && 2 <= r && r !in h
    requires Node(g0, c) && Node(g0, d) && Var(g0, lev, c) < |lev| && Var(g0, lev, d) < |lev|
    requires lev[v1] < lev[Var(g0, lev, c)] && lev[v1] < lev[Var(g0, lev, d)]
    requires n in h || n == r
    ensures n in g0 ==> Kept(g0, h[r := Inner(v0, c, d)], n, v0, v1, w)
    ensures n !in g0 ==> Fresh(g0, h[r := Inner(v0, c, d)], lev, n, v0, v1)
  {
    hide Wf, Unique, Depends;
    if n in g0 {
      assert Kept(g0, h, n, v0, v1, w);
    } else if n in h {
      assert Fresh(g0, h, lev, n, v0, v1);
    }
  }

  /** One node's part of SwapRewrite. */
  lemma RewriteNode(g0: Graph, h: Graph, lev: Order, v0: nat, v1: nat, w: set<nat>, p: nat, a: nat, b: nat, n: nat)
    requires Swapping(g0, h, lev, v0, v1, w) && g0.Keys <= h.Keys
    requires p in g0 && p in w && Depends(g0, p, v0, v1)
    requires IsMk(h, a, v0, Cof(g0, g0[p].low, v1, false), Cof(g0, g0[p].high, v1, false))
    requires IsMk(h, b, v0, Cof(g0, g0[p].low, v1, true), Cof(g0, g0[p].high, v1, true))
    requires n in h
    ensures n in g0 ==> Kept(g0, h[p := Inner(v1, a, b)], n, v0, v1, w - {p})
    ensures n !in g0 ==> n != p && Fresh(g0, h, lev, n, v0, v1)
    ensures n == p ==> h[n] == g0[n]
  {
    if n in g0 {
      assert Kept(g0, h, p, v0, v1, w);
      assert Kept(g0, h, n, v0, v1, w);
      if Depends(g0, n, v0, v1) && n !in w - {p} {
        RewrittenTestsBoth(g0, lev, n, v0, v1);
        hide Swapping;
        RewrittenOver(g0, h, v0, v1, n, p, lev, a, b);
      }
    } else {
      assert Fresh(g0, h, lev, n, v0, v1);
    }
  }

  /** Writing the two results over the waiting node. */
  lemma SwapRewrite(g0: Graph, h: Graph, lev: Order, v0: nat, v1: nat, w: set<nat>, p: nat, a: nat, b: nat)
    requires Swapping(g0, h, lev, v0, v1, w) && g0.Keys <= h.Keys
    requires p in g0 && p in w && Depends(g0, p, v0, v1)
    requires IsMk(h, a, v0, Cof(g0, g0[p].low, v1, false), Cof(g0, g0[p].high, v1, false))
    requires IsMk(h, b, v0, Cof(g0, g0[p].low, v1, true), Cof(g0, g0[p].high, v1, true))
    ensures Swapping(g0, h[p := Inner(v1, a, b)], lev, v0, v1, w - {p})
    ensures Node(h, a) && Node(h, b)
  {
    hide Kept, Rewritten, Wf, Depends, GoodNode, Unique;
    var h', w' := h[p := Inner(v1, a, b)], w - {p};
    MkNode(g0, h, lev, v0, v1, w, p, a, false);
    MkNode(g0, h, lev, v0, v1, w, p, b, true);
    forall n | n in h'
      ensures Node(h', h'[n].low) && Node(h', h'[n].high)
      ensures n in g0 ==> Kept(g0, h', n, v0, v1, w')
      ensures n !in g0 ==> Fresh(g0, h', lev, n, v0, v1)
    {
      assert n in h;
      RewriteNode(g0, h, lev, v0, v1, w, p, a, b, n);
    }
  }

  /** What reorder_makenode returns is a node of the table. */
  lemma MkNode(g0: Graph, h: Graph, lev: Order, v0: nat, v1: nat, w: set<nat>, p: nat, r: nat, x: bool)
    requires Swapping(g0, h, lev, v0, v1, w) && g0.Keys <= h.Keys
    requires Depends(g0, p, v0, v1)
    requires IsMk(h, r, v0, Cof(g0, g0[p].low, v1, x), Cof(g0, g0[p].high, v1, x))
    ensures Node(h, r)
  {
    RewrittenTestsBoth(g0, lev, p, v0, v1);
  }

  /** The rewritten node p is nobody's v0 child. */
  lemma RewrittenOver(g0: Graph, h: Graph, v0: nat, v1: nat, n: nat, p: nat, lev: Order, a: nat, b: nat)
    requires |lev| > 0 && p in g0 && p in h && h[p] == g0[p] && Depends(g0, p, v0, v1) && v0 != v1
    requires n in g0 && n in h && Depends(g0, n, v0, v1)
    requires v1 < |lev| && forall x {:trigger Cof(g0, g0[n].low, v1, x)} ::
               var c, d := Cof(g0, g0[n].low, v1, x), Cof(g0, g0[n].high, v1, x);
               Var(g0, lev, c) != v1 && Var(g0, lev, d) != v1
    requires n != p ==> Rewritten(g0, h, n, v0, v1)
    requires IsMk(h, a, v0, Cof(g0, g0[p].low, v1, false), Cof(g0, g0[p].high, v1, false))
    requires IsMk(h, b, v0, Cof(g0, g0[p].low, v1, true), Cof(g0, g0[p].high, v1, true))
    ensures Rewritten(g0, h[p := Inner(v1, a, b)], n, v0, v1)
  {
    var h' := h[p := Inner(v1, a, b)];
    forall x ensures var c, d := Cof(g0, g0[n].low, v1, x), Cof(g0, g0[n].high, v1, x); h[p] != Inner(v0, c, d) {
      assert Var(g0, lev, Cof(g0, g0[n].low, v1, x)) != v1;
    }
  }

  /** In the middle of one step: p is off the list, the nodes of `loose` have no parent yet. */
  ghost predicate SwapMid(s0: State, s: State, lev: Order, v0: nat, v1: nat, p: nat, loose: set<nat>) {
    && v0 < |s.levels| && v1 < |s.levels| && |s.levels| == |s0.levels|
    && Swapping(s0.g, s.g, lev, v0, v1, Waiting(s) + {p})
    && s0.g.Keys <= s.g.Keys
    && Depends(s0.g, p, v0, v1) && p in s.g && s.g[p] == s0.g[p] && p !in s.place
    && (forall n {:trigger n in s.g} :: n in s.g && n != p ==> Settled(s0.g, s, v0, v1, n))
    && FreshHeld(s0.g, s.g, v0, v1, loose)
    && SameTables(s0.levels, s.levels) && Sticky(s0.nodes, s0.g, s.nodes)
    && Todo in s.lists && Hand in s.lists && s.lists[Hand] == []
  }

  lemma SwapTake(s0: State, s: State, hash: Hash, ext: map<nat, nat>, lev: Order, v0: nat, v1: nat)
    requires SwapLoop(s0, s, hash, ext, lev, v0, v1) && Head(s.lists, Todo) != 0
    ensures Todo in s.lists && s.lists[Todo] != [] && Sound(s, hash)
    ensures var p := Head(s.lists, Todo);
            && Steady(Taken(s, Todo), hash, ext, multiset{})
            && SwapMid(s0, Taken(s, Todo), lev, v0, v1, p, {})
            && p < |s.nodes| && s.nodes[p].next == Head(Taken(s, Todo).lists, Todo)
  {
    hide Sound, Refs, Rows, Swapping, SameTables, Sticky, Row;
    TakeHead(s, hash, Todo);
    TakeSound(s, hash, Todo);
    var p := Head(s.lists, Todo);
    var t := Taken(s, Todo);
    assert Settled(s0.g, s, v0, v1, p);
    assert Waiting(t) + {p} == Waiting(s);
    forall n | n in t.g && n != p ensures Settled(s0.g, t, v0, v1, n) {
      assert Settled(s0.g, s, v0, v1, n);
    }
    RowsLoose(s.levels, s.g, s.place, p);
  }

  lemma RowsLoose(levels: Levels, g: Graph, place: Places, p: nat)
    requires Rows(levels, g, place) && (p in place ==> !place[p].0.Bucket?)
    ensures Rows(levels, g, place - {p})
  {
    forall v | 0 <= v < |levels| ensures levels[v].nodenum == |Row(g, place - {p}, v)| {
      assert Row(g, place - {p}, v) == Row(g, place, v);
    }
  }

  /** The four cofactors and where they lie. */
  lemma {:induction false} MidCofactors(s0: State, s: State, lev: Order, v0: nat, v1: nat, p: nat, loose: set<nat>, x: bool)
    requires SwapMid(s0, s, lev, v0, v1, p, loose)
    ensures var f0, f1 := s.g[p].low, s.g[p].high;
            && Cof(s.g, f0, v1, x) == Cof(s0.g, f0, v1, x) && Cof(s.g, f1, v1, x) == Cof(s0.g, f1, v1, x)
            && var c, d := Cof(s0.g, f0, v1, x), Cof(s0.g, f1, v1, x);
            && Node(s0.g, c) && Node(s0.g, d) && Node(s.g, c) && Node(s.g, d)
            && Var(s0.g, lev, c) < |lev| && Var(s0.g, lev, d) < |lev|
            && lev[v1] < lev[Var(s0.g, lev, c)] && lev[v1] < lev[Var(s0.g, lev, d)]
            && (forall n {:trigger n in s.g} :: n in s.g && s.g[n] == Inner(v0, c, d) ==> Chained(s.g, s.place, n))
    ensures Node(s.g, s.g[p].low) && Node(s.g, s.g[p].high) && s.g[p].low != s.g[p].high
    ensures v0 < |s.levels| && v1 < |s.levels| && s.g[p] == s0.g[p]
  {
    hide Unique, SameTables, Sticky, Rewritten, Fresh, FreshHeld;
    var g, h := s0.g, s.g;
    RewrittenTestsBoth(g, lev, p, v0, v1);
    GoodAt(g, lev, p);
    ChildSame(s0, s, lev, v0, v1, p, loose, g[p].low);
    ChildSame(s0, s, lev, v0, v1, p, loose, g[p].high);
    var c, d := Cof(g, g[p].low, v1, x), Cof(g, g[p].high, v1, x);
    forall n | n in h && h[n] == Inner(v0, c, d) ensures Chained(h, s.place, n) {
      if n != p {
        assert Settled(g, s, v0, v1, n);
      }
    }
  }

  lemma ChildSame(s0: State, s: State, lev: Order, v0: nat, v1: nat, p: nat, loose: set<nat>, k: nat)
    requires SwapMid(s0, s, lev, v0, v1, p, loose) && (k == s0.g[p].low || k == s0.g[p].high)
    ensures k in s0.g <==> k in s.g
    ensures k in s.g ==> s.g[k] == s0.g[k]
    ensures Node(s0.g, k)
  {
    var g := s0.g;
    assert GoodNode(g, lev, p);
    if k in g {
      assert GoodNode(g, lev, k);
      assert k in s.g && Kept(g, s.g, k, v0, v1, Waiting(s) + {p});
    }
  }

  lemma {:induction false} MidMake(s0: State, s: State, t: State, lev: Order, v0: nat, v1: nat, p: nat, loose: set<nat>, x: bool, res: nat)
    requires SwapMid(s0, s, lev, v0, v1, p, loose)
    requires Made(s, t, Inner(v0, Cof(s0.g, s0.g[p].low, v1, x), Cof(s0.g, s0.g[p].high, v1, x)), res)
    ensures SwapMid(s0, t, lev, v0, v1, p, loose + {res})
    ensures Todo in s.lists && Todo in t.lists && t.lists[Todo] == s.lists[Todo]
  {
    hide Swapping, Row, Cof;
    var i := Inner(v0, Cof(s0.g, s0.g[p].low, v1, x), Cof(s0.g, s0.g[p].high, v1, x));
    MidCofactors(s0, s, lev, v0, v1, p, loose, x);
    MadeWaiting(s, t, i, res);
    if t.g != s.g {
      SwapMake(s0.g, s.g, lev, v0, v1, Waiting(s) + {p}, res, i.low, i.high);
    }
    MidSettled(s0, s, t, lev, v0, v1, p, loose, i, res);
    SameTrans(s0, s, t);
  }

  lemma {:induction false} MadeWaiting(s: State, t: State, i: Inner, res: nat)
    requires Made(s, t, i, res)
    ensures Waiting(t) == Waiting(s)
  {
    hide IsMk, SameTables, Sticky;
    forall n ensures n in Waiting(t) <==> n in Waiting(s) {}
  }

  lemma MidSettled(s0: State, s: State, t: State, lev: Order, v0: nat, v1: nat, p: nat, loose: set<nat>, i: Inner, res: nat)
    requires SwapMid(s0, s, lev, v0, v1, p, loose) && Made(s, t, i, res)
    ensures forall n {:trigger n in t.g} :: n in t.g && n != p ==> Settled(s0.g, t, v0, v1, n)
    ensures FreshHeld(s0.g, t.g, v0, v1, loose + {res})
    ensures p !in t.place && t.g[p] == s.g[p]
  {
    hide Swapping, SameTables, Sticky;
    forall n | n in t.g && n != p ensures Settled(s0.g, t, v0, v1, n) {
      assert n in s.g ==> Settled(s0.g, s, v0, v1, n);
    }
    forall n | n in t.g && n !in s0.g && n !in loose + {res} ensures Held(s0.g, t.g, v0, v1, n) {
      assert Held(s0.g, s.g, v0, v1, n);
      var q :| q in s0.g && Depends(s0.g, q, v0, v1) && IsParent(s.g, q, n);
      assert IsParent(t.g, q, n);
    }
  }

  lemma SameTrans(s0: State, s: State, t: State)
    requires SameTables(s0.levels, s.levels) && SameTables(s.levels, t.levels)
    requires Sticky(s0.nodes, s0.g, s.nodes) && Sticky(s.nodes, s.g, t.nodes) && s0.g.Keys <= s.g.Keys
    ensures SameTables(s0.levels, t.levels) && Sticky(s0.nodes, s0.g, t.nodes)
  {
  }

  /** The state after p has been given its new contents and put into the bucket of its new key. */
  ghost function Rehashed(s: State, p: nat, i: Inner): State
    requires p < |s.nodes| && i.v < |s.levels|
  {
    s.(nodes := s.nodes[p := s.nodes[p].(level := i.v, low := i.low, high := i.high)],
       levels := s.levels[i.v := s.levels[i.v].(nodenum := s.levels[i.v].nodenum + 1)],
       g := s.g[p := i])
  }

  lemma RehashedSound(s: State, hash: Hash, p: nat, i: Inner)
    requires Sound(s, hash) && p in s.g && p !in s.place && i.v < |s.levels|
    ensures p < |s.nodes| && Sound(Rehashed(s, p, i), hash)
  {
    hide Sound;
    RewriteSound(s, hash, p, i);
    NodenumSound(s.(nodes := s.nodes[p := s.nodes[p].(level := i.v, low := i.low, high := i.high)], g := s.g[p := i]),
                 hash, i.v, s.levels[i.v].nodenum + 1);
  }

  /** Giving up the references of the old children. */
  ghost function GivenUp(nodes: seq<BddNode>, low: nat, high: nat): seq<BddNode>
    requires low < |nodes| && high < |nodes|
  {
    var nodes1 := nodes[low := nodes[low].(refcou := Dec(nodes[low].refcou))];
    nodes1[high := nodes1[high].(refcou := Dec(nodes1[high].refcou))]
  }

  lemma GivenUpSound(s: State, hash: Hash, low: nat, high: nat)
    requires Sound(s, hash) && low < |s.nodes| && high < |s.nodes| && low != high
    ensures Sound(s.(nodes := GivenUp(s.nodes, low, high)), hash)
    ensures forall m {:trigger GivenUp(s.nodes, low, high)[m]} :: 0 <= m < |s.nodes| ==>
              GivenUp(s.nodes, low, high)[m].refcou == if m == low || m == high then Dec(s.nodes[m].refcou) else s.nodes[m].refcou
  {
    hide Sound;
    ConstantFacts(s, hash);
    CountsSound(s, hash, GivenUp(s.nodes, low, high));
  }

  lemma RowsMove(levels: Levels, g: Graph, place: Places, p: nat, i: Inner, place': Places, levels': Levels)
    requires Rows(levels, g, place) && p in g && p !in place && i.v < |levels|
    requires p in place' && place' == place[p := place'[p]] && place'[p].0.Bucket?
    requires levels' == levels[i.v := levels[i.v].(nodenum := levels[i.v].nodenum + 1)]
    ensures Rows(levels', g[p := i], place')
  {
    var g1 := g - {p};
    forall v | 0 <= v < |levels| ensures levels[v].nodenum == |Row(g1, place, v)| {
      assert Row(g1, place, v) == Row(g, place, v);
    }
    RowsAdd(levels, g1, place, p, i, place', levels');
    assert g1[p := i] == g[p := i];
  }

  /** The nodes around p are where they were. */
  lemma MidEndNodes(s0: State, s: State, t: State, lev: Order, v0: nat, v1: nat, p: nat, a: nat, b: nat)
    requires SwapMid(s0, s, lev, v0, v1, p, {a, b}) && t.g == s.g[p := Inner(v1, a, b)]
    requires p in t.place && t.place == s.place[p := t.place[p]] && t.place[p].0.Bucket?
    ensures forall n {:trigger n in t.g} :: n in t.g ==> Settled(s0.g, t, v0, v1, n)
    ensures Waiting(t) == Waiting(s) + {p} - {p}
  {
    hide Swapping, SameTables, Sticky, IsParent;
    forall n | n in t.g ensures Settled(s0.g, t, v0, v1, n) {
      assert n != p ==> Settled(s0.g, s, v0, v1, n);
    }
  }

  /** The two results have a parent now. */
  lemma RewriteHolds(g0: Graph, h: Graph, v0: nat, v1: nat, p: nat, a: nat, b: nat)
    requires FreshHeld(g0, h, v0, v1, {a, b}) && Closed(g0) && 0 !in h && 1 !in h
    requires Depends(g0, p, v0, v1) && p in h && h[p] == g0[p]
    ensures FreshHeld(g0, h[p := Inner(v1, a, b)], v0, v1, {})
  {
    var h' := h[p := Inner(v1, a, b)];
    forall n | n in h' && n !in g0 ensures Held(g0, h', v0, v1, n) {
      if n == a || n == b {
        assert IsParent(h', p, n);
      } else {
        assert Held(g0, h, v0, v1, n);
        var q :| q in g0 && Depends(g0, q, v0, v1) && IsParent(h, q, n);
        assert IsParent(h', q, n);
      }
    }
  }

  lemma MidEnd(s0: State, s: State, t: State, hash: Hash, ext: map<nat, nat>, lev: Order, v0: nat, v1: nat, p: nat, a: nat, b: nat)
    requires SwapMid(s0, s, lev, v0, v1, p, {a, b}) && Steady(s, hash, ext, multiset{a, b})
    requires IsMk(s.g, a, v0, Cof(s0.g, s0.g[p].low, v1, false), Cof(s0.g, s0.g[p].high, v1, false))
    requires IsMk(s.g, b, v0, Cof(s0.g, s0.g[p].low, v1, true), Cof(s0.g, s0.g[p].high, v1, true))
    requires Sound(t, hash) && |t.nodes| == |s.nodes| && t.g == s.g[p := Inner(v1, a, b)]
    requires p in s.g && s.g[p].low != s.g[p].high
    requires forall m {:trigger t.nodes[m]} :: 0 <= m < |s.nodes| ==>
               t.nodes[m].refcou == if m == s.g[p].low || m == s.g[p].high then Dec(s.nodes[m].refcou) else s.nodes[m].refcou
    requires p in t.place && t.place == s.place[p := t.place[p]] && t.place[p].0.Bucket?
    requires v1 < |s.levels| && t.levels == s.levels[v1 := s.levels[v1].(nodenum := s.levels[v1].nodenum + 1)]
    requires Todo in s.lists && Hand in s.lists && Todo in t.lists && Hand in t.lists
    requires t.lists[Todo] == s.lists[Todo] && t.lists[Hand] == s.lists[Hand]
    ensures SwapLoop(s0, t, hash, ext, lev, v0, v1)
  {
    hide Sound, Refs, Rows, Row, Swapping, SameTables, Sticky, IsMk, Settled, FreshHeld;
    MidEndNodes(s0, s, t, lev, v0, v1, p, a, b);
    SwappingClosed(s0.g, s.g, lev, v0, v1, Waiting(s) + {p});
    RewriteHolds(s0.g, s.g, v0, v1, p, a, b);
    SwapRewrite(s0.g, s.g, lev, v0, v1, Waiting(s) + {p}, p, a, b);
    Redirect(s.nodes, s.g, ext, p, Inner(v1, a, b), t.nodes);
    RowsMove(s.levels, s.g, s.place, p, Inner(v1, a, b), t.place, t.levels);
    SameTablesNodenum(s.levels, v1, s.levels[v1].nodenum + 1);
    SameTrans(s0, s, t);
  }

  lemma SwappingClosed(g: Graph, h: Graph, lev: Order, v0: nat, v1: nat, w: set<nat>)
    requires Swapping(g, h, lev, v0, v1, w)
    ensures Closed(g) && 0 !in h && 1 !in h
  {
    forall n | n in g ensures Node(g, g[n].low) && Node(g, g[n].high) {
      assert GoodNode(g, lev, n);
    }
  }

  lemma MidNode(s0: State, s: State, hash: Hash, lev: Order, v0: nat, v1: nat, p: nat, loose: set<nat>)
    requires SwapMid(s0, s, lev, v0, v1, p, loose) && Sound(s, hash)
    ensures p < |s.nodes| && p in s0.g && p in s.g && s.g[p] == s0.g[p] && p !in s.place && v0 < |s.levels| && v1 < |s.levels|
    ensures s.nodes[p].low == s.g[p].low && s.nodes[p].high == s.g[p].high && s.g[p].low != s.g[p].high
    ensures Node(s.g, s.g[p].low) && Node(s.g, s.g[p].high)
    ensures s.g[p].low < |s.nodes| && s.g[p].high < |s.nodes|
    ensures Todo in s.lists && Hand in s.lists
  {
    MidCofactors(s0, s, lev, v0, v1, p, loose, false);
    hide Sound, Swapping;
    NodeFacts(s, hash, p);
    ConstantFacts(s, hash);
    if s.g[p].low in s.g { NodeFacts(s, hash, s.g[p].low); }
    if s.g[p].high in s.g { NodeFacts(s, hash, s.g[p].high); }
  }

  /** An earlier result stays what it is through a later reorder_makenode. */
  lemma MadeKeeps(s: State, t: State, i: Inner, res: nat, r: nat, j: Inner)
    requires Made(s, t, i, res) && IsMk(s.g, r, j.v, j.low, j.high)
    ensures IsMk(t.g, r, j.v, j.low, j.high) && IsMk(t.g, res, i.v, i.low, i.high)
    ensures |t.levels| == |s.levels| && t.lists[Todo] == s.lists[Todo]
  {
  }

  lemma SwapEnd(s0: State, s3: State, s4: State, t: State, hash: Hash, ext: map<nat, nat>, lev: Order, v0: nat, v1: nat, p: nat, a: nat, b: nat)
    requires SwapMid(s0, s3, lev, v0, v1, p, {a, b}) && Steady(s3, hash, ext, multiset{a, b})
    requires p in s0.g && p in s3.g && p < |s3.nodes| && s3.g[p] == s0.g[p]
    requires s3.g[p].low < |s3.nodes| && s3.g[p].high < |s3.nodes| && s3.g[p].low != s3.g[p].high
    requires Todo in s3.lists && Hand in s3.lists
    requires IsMk(s3.g, a, v0, Cof(s0.g, s0.g[p].low, v1, false), Cof(s0.g, s0.g[p].high, v1, false))
    requires IsMk(s3.g, b, v0, Cof(s0.g, s0.g[p].low, v1, true), Cof(s0.g, s0.g[p].high, v1, true))
    requires s4 == s3.(nodes := GivenUp(s3.nodes, s3.g[p].low, s3.g[p].high)) && v1 < |s4.levels| && Sound(t, hash)
    requires var s5 := Rehashed(s4, p, Inner(v1, a, b));
             var k := BucketOf(Inner(v1, a, b), s5.levels, hash);
             k < |s5.nodes| && Bucket(k) in s5.lists && t == Inserted(s5, k, p)
    ensures SwapLoop(s0, t, hash, ext, lev, v0, v1)
    ensures Todo in t.lists && t.lists[Todo] == s3.lists[Todo]
  {
    hide Sound, Swapping, Refs, Rows, SwapMid, IsMk, SwapLoop;
    GivenUpCounts(s3.nodes, s3.g[p].low, s3.g[p].high);
    MidEnd(s0, s3, t, hash, ext, lev, v0, v1, p, a, b);
  }

  lemma GivenUpCounts(nodes: seq<BddNode>, low: nat, high: nat)
    requires low < |nodes| && high < |nodes| && low != high
    ensures forall m {:trigger GivenUp(nodes, low, high)[m]} :: 0 <= m < |nodes| ==>
              GivenUp(nodes, low, high)[m].refcou == if m == low || m == high then Dec(nodes[m].refcou) else nodes[m].refcou
  {
  }

  lemma TodoZero(s0: State, s: State, hash: Hash, ext: map<nat, nat>, lev: Order, v0: nat, v1: nat)
    requires SwapLoop(s0, s, hash, ext, lev, v0, v1) && Head(s.lists, Todo) == 0
    ensures s.lists[Todo] == []
  {
    hide Sound;
    if s.lists[Todo] != [] {
      TakeHead(s, hash, Todo);
    }
  }
}
