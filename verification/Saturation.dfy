/**
  When no counter can saturate during a run of exchanges, as a condition on the
  moment the run starts from. One exchange raises a counter by at most two for
  every node it rewrites, and between exchanges a counter is exact.
*/
module Saturation {
  import opened Threads
  import opened SwapTheory
  import opened Counting
  import opened SessionState
  import opened RefCounts
  import opened ReorderSteps
  import opened LocalGbc
  import opened Rehash
  import opened OrderSize

  /** No counter of b is more than c above what it is in a; slots a does not have count as 0. */
  ghost predicate Slow(a: seq<BddNode>, b: seq<BddNode>, c: nat) {
    |a| <= |b| && forall n {:trigger b[n]} :: 0 <= n < |b| ==> b[n].refcou <= (if n < |a| then a[n].refcou else 0) + c
  }

  lemma SlowTrans(a: seq<BddNode>, b: seq<BddNode>, c: nat, d: seq<BddNode>, e: nat)
    requires Slow(a, b, c) && Slow(b, d, e)
    ensures Slow(a, d, c + e)
  {
  }

  lemma SlowSame(a: seq<BddNode>, b: seq<BddNode>)
    requires |a| == |b| && forall n {:trigger b[n]} :: 0 <= n < |b| ==> b[n].refcou <= a[n].refcou
    ensures Slow(a, b, 0)
  {
  }

  lemma SlowMore(a: seq<BddNode>, b: seq<BddNode>, c: nat, d: nat)
    requires Slow(a, b, c) && c <= d
    ensures Slow(a, b, d)
  {
  }

  lemma SlowNothing(a: seq<BddNode>)
    ensures Slow(a, a, 0)
  {
  }

  lemma SlowInc(a: seq<BddNode>, r: nat)
    requires r < |a|
    ensures Slow(a, a[r := a[r].(refcou := Inc(a[r].refcou))], 1)
  {
  }

  /** A new node starts at one; each of its children gets one reference. */
  lemma SlowBuilt(s1: State, hash: Hash, ext: map<nat, nat>, pend: multiset<nat>, r: nat, i: Inner, s4: seq<BddNode>, t: seq<BddNode>)
    requires Steady(s1, hash, ext, pend) && r !in s1.g && 2 <= r < |s1.nodes| == |s4| && i.low != i.high && i.low != r && i.high != r
    requires i.low < |s4| && i.high < |s4| && s4[r].refcou == 1
    requires forall m {:trigger s4[m]} :: 0 <= m < |s4| && m != r ==> s4[m].refcou == s1.nodes[m].refcou
    requires var nodes5 := s4[i.low := s4[i.low].(refcou := Inc(s4[i.low].refcou))];
             t == nodes5[i.high := nodes5[i.high].(refcou := Inc(nodes5[i.high].refcou))]
    ensures Slow(s1.nodes, t, 1)
  {
    hide Sound, Rows, RefOk, Closed;
    assert s1.nodes[r].refcou == 0;
    forall n | 0 <= n < |t| ensures t[n].refcou <= s1.nodes[n].refcou + 1 {
      if n != r { assert s4[n].refcou == s1.nodes[n].refcou; }
    }
  }

  /* ---- how many nodes wait ---- */

  lemma {:induction false} TodoFew(s: State, hash: Hash, ext: map<nat, nat>, v0: nat, v1: nat)
    requires Steady(s, hash, ext, multiset{}) && Todo in s.lists
    ensures |s.lists[Todo]| <= |s.g.Keys|
  {
    hide Refs, Rows;
    var c := s.lists[Todo];
    forall i | 0 <= i < |c| ensures c[i] in s.g && c[i] in s.place && s.place[c[i]] == (Todo, i) {
      EntryFacts(s, hash, Todo, i);
    }
    hide Sound;
    forall i, j | 0 <= i < j < |c| ensures c[i] != c[j] {
      assert s.place[c[i]].1 != s.place[c[j]].1;
    }
    ElementsSize(c);
    SubsetSize(Elements(c), s.g.Keys);
  }

  /* ---- the condition ---- */

  /**
    No order needs more than b nodes, and no external count is within four times
    b of MAXREF, unless it has reached it already.
  */
  ghost predicate Roomy(o: Origin, b: nat) {
    && 4 * b < MAXREF
    && (forall n {:trigger n in o.ext} :: n in o.ext ==> o.ext[n] >= MAXREF || o.ext[n] + 4 * b < MAXREF)
    && (forall order: seq<nat> {:trigger SizeAt(o, order)} :: |order| == |o.lev| ==> SizeAt(o, order) <= b + 2)
  }

  lemma ParentsFew(g: Graph, n: nat)
    ensures Parents(g, n) <= 2 * |g.Keys|
  {
    SubsetSize(LowParents(g, n), g.Keys);
    SubsetSize(HighParents(g, n), g.Keys);
  }

  /** At rest a counter that is not saturated is small. */
  lemma {:induction false} CountSmall(o: Origin, b: nat, order: seq<nat>, t: State, lev: Order, n: nat)
    requires Roomy(o, b) && Moment(o, order, t, lev) && |lev| == |o.lev| && n in t.g && n < |t.nodes| && t.nodes[n].refcou != MAXREF
    ensures t.nodes[n].refcou + 2 * |t.g.Keys| < MAXREF
  {
    SizeIs(o, order, t, lev);
    MomentSize(o, order, t, lev);
    assert SizeAt(o, order) <= b + 2;
    MomentRef(o, order, t, lev, n);
    ParentsFew(t.g, n);
    hide Parents;
  }

  lemma MomentRef(o: Origin, order: seq<nat>, t: State, lev: Order, n: nat)
    requires Moment(o, order, t, lev) && n in t.g && n < |t.nodes|
    ensures RefOk(t.nodes[n].refcou, t.g, o.ext, multiset{}, n)
  {
    hide Sound, Rows, AtRest, Wf, Unique, Covered, Closed, Later, Orders, Full, RefOk;
  }

  lemma {:induction false} MomentFree(o: Origin, order: seq<nat>, t: State, lev: Order, n: nat)
    requires Moment(o, order, t, lev) && 2 <= n < |t.nodes| && n !in t.g
    ensures t.nodes[n].refcou == 0
  {
    hide Sound, Rows, AtRest, Wf, Unique, Covered, Closed, Later, Orders, Full, RefOk;
  }

  /** A counter that is saturated after one exchange was saturated before. */
  lemma {:induction false} SaturatedBefore(o: Origin, b: nat, order: seq<nat>, t: State, lev: Order, nodes: seq<BddNode>, n: nat)
    requires Roomy(o, b) && Moment(o, order, t, lev) && |lev| == |o.lev| && Slow(t.nodes, nodes, 2 * |t.g.Keys|)
    requires 2 <= n < |nodes| && nodes[n].refcou == MAXREF
    ensures n in t.g && n < |t.nodes| && t.nodes[n].refcou == MAXREF
  {
    SizeIs(o, order, t, lev);
    MomentSize(o, order, t, lev);
    MomentLevels(o, order, t, lev);
    RoomyBound(o, b, order, t);
    hide Moment, SizeAt, Roomy;
    assert nodes[n].refcou <= (if n < |t.nodes| then t.nodes[n].refcou else 0) + 2 * |t.g.Keys|;
    hide Slow;
    if n < |t.nodes| && n !in t.g {
      MomentFree(o, order, t, lev, n);
    } else if n < |t.nodes| && t.nodes[n].refcou != MAXREF {
      CountSmall(o, b, order, t, lev, n);
    }
  }

  /** So one exchange saturates nothing. */
  lemma {:induction false} NothingSaturates(o: Origin, b: nat, order: seq<nat>, t: State, lev: Order, u: State)
    requires Roomy(o, b) && Moment(o, order, t, lev) && |lev| == |o.lev| && Slow(t.nodes, u.nodes, 2 * |t.g.Keys|) && Full(t) <= Full(u)
    requires forall n {:trigger n in u.g} :: n in u.g ==> 2 <= n
    ensures Full(u) == Full(t)
  {
    hide Moment, SizeAt, Roomy, Slow;
    forall n | n in Full(u) ensures n in Full(t) {
      SaturatedBefore(o, b, order, t, lev, u.nodes, n);
    }
  }

  lemma RoomyBound(o: Origin, b: nat, order: seq<nat>, t: State)
    requires Roomy(o, b) && |order| == |o.lev| && |t.g.Keys| + 2 == SizeAt(o, order)
    ensures 2 * |t.g.Keys| < MAXREF
  {
    hide SizeAt;
    assert SizeAt(o, order) <= b + 2;
  }

  /** What happened from s to t saturates no counter in a run that started from a roomy moment and has saturated none. */
  ghost predicate Calmly(hash: Hash, ext: map<nat, nat>, mtx: Matrix, s: State, lev: Order, t: State) {
    forall o: Origin, b: nat {:trigger Roomy(o, b)} ::
      Roomy(o, b) && o.hash == hash && o.ext == ext && o.mtx == mtx && |o.lev| == |lev| && Later(o.s, o.lev, s, lev, ext) && Full(s) == Full(o.s) ==> Full(t) == Full(s)
  }

  lemma CalmlyHere(o: Origin, b: nat, s: State, lev: Order, t: State)
    requires Calmly(o.hash, o.ext, o.mtx, s, lev, t)
    requires Roomy(o, b) && |o.lev| == |lev| && Later(o.s, o.lev, s, lev, o.ext) && Full(s) == Full(o.s)
    ensures Full(t) == Full(o.s)
  {
    hide Later, Full, Roomy;
  }

  lemma CalmlyNothing(hash: Hash, ext: map<nat, nat>, mtx: Matrix, s: State, lev: Order)
    ensures Calmly(hash, ext, mtx, s, lev, s)
  {
  }

  lemma {:induction false} CalmlyTrans(hash: Hash, ext: map<nat, nat>, mtx: Matrix, s: State, lev: Order, t: State, lev': Order, u: State)
    requires Calmly(hash, ext, mtx, s, lev, t) && Calmly(hash, ext, mtx, t, lev', u) && Later(s, lev, t, lev', ext) && |lev| == |lev'|
    ensures Calmly(hash, ext, mtx, s, lev, u)
  {
    hide Later, Full, Roomy;
    forall o: Origin, b: nat | Roomy(o, b) && o.hash == hash && o.ext == ext && o.mtx == mtx && |o.lev| == |lev| && Later(o.s, o.lev, s, lev, ext) && Full(s) == Full(o.s)
      ensures Full(u) == Full(s)
    {
      LaterTrans(o.s, o.lev, s, lev, t, lev', ext);
    }
  }

  /** One exchange. */
  lemma {:induction false} CalmlyStep(hash: Hash, ext: map<nat, nat>, mtx: Matrix, s: State, lev: Order, order: seq<nat>, t: State)
    requires Orders(lev, order, |s.levels|) && Rest(s, hash, ext, lev, mtx) && Slow(s.nodes, t.nodes, 2 * |s.g.Keys|) && Full(s) <= Full(t)
    requires forall n {:trigger n in t.g} :: n in t.g ==> 2 <= n
    ensures Calmly(hash, ext, mtx, s, lev, t)
  {
    hide Orders, Rest, Later, Full, Slow, Roomy;
    forall o: Origin, b: nat | Roomy(o, b) && o.hash == hash && o.ext == ext && o.mtx == mtx && |o.lev| == |lev| && Later(o.s, o.lev, s, lev, ext) && Full(s) == Full(o.s)
      ensures Full(t) == Full(s)
    {
      assert Moment(o, order, s, lev);
      NothingSaturates(o, b, order, s, lev, t);
    }
  }

  /** Linking does not matter to it. */
  lemma CalmlyLinks(hash: Hash, ext: map<nat, nat>, mtx: Matrix, s: State, lev: Order, t: State, t': State)
    requires Calmly(hash, ext, mtx, s, lev, t) && t.g == t'.g && SameButLinks(t.nodes, t'.nodes)
    ensures Calmly(hash, ext, mtx, s, lev, t')
  {
    FullLinks(t, t');
    hide Full, Later, Roomy, SameButLinks;
  }

  lemma FullLinks(s: State, t: State)
    requires s.g == t.g && SameButLinks(s.nodes, t.nodes)
    ensures Full(s) == Full(t)
  {
    forall n | n in s.g ensures n in Full(s) <==> n in Full(t) {
      assert n < |s.nodes| ==> t.nodes[n].refcou == s.nodes[n].refcou;
    }
  }

  lemma RestIds(s: State, hash: Hash, ext: map<nat, nat>, lev: Order, mtx: Matrix)
    requires Rest(s, hash, ext, lev, mtx)
    ensures forall n {:trigger n in s.g} :: n in s.g ==> 2 <= n
  {
    hide Rows, Refs, AtRest, Alive, Unique, Covered, Wf;
    forall n | n in s.g ensures 2 <= n { NodeFacts(s, hash, n); }
    hide Sound;
  }

  /** Later in the run the condition still holds, with the same bound. */
  lemma {:induction false} RoomyLater(o: Origin, h: Origin, b: nat)
    requires Roomy(o, b) && h.hash == o.hash && h.ext == o.ext && h.mtx == o.mtx && |h.lev| == |o.lev| && Later(o.s, o.lev, h.s, h.lev, o.ext) && Full(h.s) == Full(o.s)
    ensures Roomy(h, b)
  {
    hide Rest, Later, Full, Orders;
    forall order: seq<nat> | |order| == |h.lev| ensures SizeAt(h, order) <= b + 2 {
      assert SizeAt(o, order) <= b + 2;
      if t, lev :| Moment(h, order, t, lev) {
        SizeIs(h, order, t, lev);
        LaterTrans(o.s, o.lev, h.s, h.lev, t, lev, o.ext);
        SizeIs(o, order, t, lev);
      }
    }
  }

  /** A check that needs no search: each external or saturated node needs less than 2 to the number of variables. */
  lemma {:induction false} RoomyByRoots(o: Origin, b: nat)
    requires 0 < |o.lev| && ManyUnder(|o.ext.Keys + Full(o.s)|, |o.lev| - 1) <= b && 4 * b < MAXREF
    requires forall n {:trigger n in o.ext} :: n in o.ext ==> o.ext[n] >= MAXREF || o.ext[n] + 4 * b < MAXREF
    ensures Roomy(o, b)
  {
    hide Rest, Later, Full, Orders, ManyUnder;
    forall order: seq<nat> | |order| == |o.lev| ensures SizeAt(o, order) <= b + 2 {
      if t, lev :| Moment(o, order, t, lev) {
        SizeIs(o, order, t, lev);
        MomentSize(o, order, t, lev);
        MomentLevels(o, order, t, lev);
        NodesByRoots(t, o.hash, o.ext, lev, o.mtx);
      }
    }
  }

  lemma MomentLevels(o: Origin, order: seq<nat>, t: State, lev: Order)
    requires Moment(o, order, t, lev)
    ensures |order| == |lev| == |t.levels| + 1
  {
    hide Rest, Later, Full, IsOrder;
  }
}
