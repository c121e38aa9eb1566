/**
  The search for a good order in reorder.c: moving one block through all
  positions, and trying the six orders of three neighbours. Every move is a run
  of exchanges of a session, and every comparison is of its node count. As long
  as no further counter saturates the count is a function of the order
  (OrderSize), and the search finds the least one.
*/
module Sifting {
  import opened SwapTheory
  import opened SessionState
  import opened ReorderSteps
  import opened LocalGbc
  import opened Rehash
  import opened OrderSize
  import opened Saturation
  import opened Reorder

  /** The variables of a block, top one first. */
  type Block = seq<nat>

  function Swapped(s: seq<Block>, i: nat): (r: seq<Block>)
    requires i + 1 < |s|
    ensures |r| == |s|
  {
    s[i := s[i + 1]][i + 1 := s[i]]
  }

  /** The variables of all blocks. */
  function Flat(s: seq<Block>): seq<nat> {
    if s == [] then [] else s[0] + Flat(s[1..])
  }

  lemma {:induction false} FlatAppend(s: seq<Block>, t: seq<Block>)
    ensures Flat(s + t) == Flat(s) + Flat(t)
  {
    if s == [] {
      assert s + t == t;
    } else {
      FlatAppend(s[1..], t);
      assert (s + t)[1..] == s[1..] + t;
      Associate(s[0], Flat(s[1..]), Flat(t));
    }
  }

  lemma Associate(a: seq<nat>, b: seq<nat>, c: seq<nat>)
    ensures a + (b + c) == (a + b) + c
  {
  }

  /** The order with the blocks of s from level `top` on. */
  function Layout(level2var: seq<nat>, top: nat, s: seq<Block>): seq<nat> {
    if top + |Flat(s)| <= |level2var| then level2var[..top] + Flat(s) + level2var[top + |Flat(s)|..] else level2var
  }

  lemma {:induction false} FlatAround(s: seq<Block>, i: nat)
    requires i + 1 < |s|
    ensures Flat(s) == Flat(s[..i]) + s[i] + s[i + 1] + Flat(s[i + 2..])
    ensures Flat(Swapped(s, i)) == Flat(s[..i]) + s[i + 1] + s[i] + Flat(s[i + 2..])
  {
    var t := Swapped(s, i);
    assert s == s[..i] + ([s[i], s[i + 1]] + s[i + 2..]) && t == s[..i] + ([s[i + 1], s[i]] + s[i + 2..]);
    FlatAppend(s[..i], [s[i], s[i + 1]] + s[i + 2..]);
    FlatAppend(s[..i], [s[i + 1], s[i]] + s[i + 2..]);
    FlatAppend([s[i], s[i + 1]], s[i + 2..]);
    FlatAppend([s[i + 1], s[i]], s[i + 2..]);
    FlatTwo(s[i], s[i + 1]);
    FlatTwo(s[i + 1], s[i]);
  }

  lemma FlatTwo(x: Block, y: Block)
    ensures Flat([x, y]) == x + y
  {
    assert [x, y][1..] == [y] && [y][1..] == [];
    assert Flat([y]) == y + Flat([]);
  }

  lemma LayoutIs(level2var: seq<nat>, top: nat, s: seq<Block>)
    requires top + |Flat(s)| <= |level2var|
    ensures Layout(level2var, top, s) == level2var[..top] + Flat(s) + level2var[top + |Flat(s)|..]
    ensures |Layout(level2var, top, s)| == |level2var|
  {
  }

  /** Two neighbouring blocks in the order, and the order with them exchanged. */
  lemma {:induction false} LayoutSwap(level2var: seq<nat>, top: nat, s: seq<Block>, i: nat)
    requires i + 1 < |s| && top + |Flat(s)| <= |level2var|
    ensures var start, now := top + |Flat(s[..i])|, Layout(level2var, top, s);
            && start + |s[i]| + |s[i + 1]| <= top + |Flat(s)| <= |now| && |now| == |level2var|
            && now[start..start + |s[i]| + |s[i + 1]|] == s[i] + s[i + 1]
            && Layout(level2var, top, Swapped(s, i)) == now[..start] + s[i + 1] + s[i] + now[start + |s[i]| + |s[i + 1]|..]
            && |Flat(Swapped(s, i))| == |Flat(s)|
  {
    hide Flat, Swapped, Layout;
    FlatAround(s, i);
    LayoutIs(level2var, top, s);
    LayoutIs(level2var, top, Swapped(s, i));
    var pre, suf, t := level2var[..top] + Flat(s[..i]), Flat(s[i + 2..]) + level2var[top + |Flat(s)|..], Swapped(s, i);
    Around(level2var[..top], Flat(s[..i]), s[i], s[i + 1], Flat(s[i + 2..]), level2var[top + |Flat(s)|..]);
    Around(level2var[..top], Flat(s[..i]), s[i + 1], s[i], Flat(s[i + 2..]), level2var[top + |Flat(s)|..]);
    Middle(pre, s[i], s[i + 1], suf);
    Middle(pre, s[i + 1], s[i], suf);
  }

  lemma Around(a: seq<nat>, b: seq<nat>, x: seq<nat>, y: seq<nat>, c: seq<nat>, d: seq<nat>)
    ensures a + (b + x + y + c) + d == (a + b) + (x + y) + (c + d)
  {
  }

  lemma Middle(pre: seq<nat>, x: seq<nat>, y: seq<nat>, suf: seq<nat>)
    ensures var now, start := pre + (x + y) + suf, |pre|;
            now[..start] == pre && now[start..start + |x| + |y|] == x + y && now[start + |x| + |y|..] == suf
  {
  }

  /** s with the block at position p taken to position q. */
  function At(s: seq<Block>, p: nat, q: nat): (r: seq<Block>)
    requires p < |s| && q < |s|
    ensures |r| == |s|
  {
    if p <= q then s[..p] + s[p + 1..q + 1] + [s[p]] + s[q + 1..] else s[..q] + [s[p]] + s[q..p] + s[p + 1..]
  }

  lemma {:induction false} AtDown(s: seq<Block>, p: nat, q: nat)
    requires p < |s| && q + 1 < |s|
    ensures Swapped(At(s, p, q), q) == At(s, p, q + 1)
  {
    var t, u := Swapped(At(s, p, q), q), At(s, p, q + 1);
    forall k | 0 <= k < |s| ensures t[k] == u[k] {}
  }

  lemma {:induction false} AtUp(s: seq<Block>, p: nat, q: nat)
    requires p < |s| && 0 < q < |s|
    ensures Swapped(At(s, p, q), q - 1) == At(s, p, q - 1)
  {
    if p < q {
      AtDown(s, p, q - 1);
      hide At;
      assert Swapped(Swapped(At(s, p, q - 1), q - 1), q - 1) == At(s, p, q - 1);
    }
  }

  /** The three blocks from position i on, rearranged. */
  function Window(s: seq<Block>, i: nat, x: Block, y: Block, z: Block): seq<Block>
    requires i + 2 < |s|
  {
    s[i := x][i + 1 := y][i + 2 := z]
  }

  /** The k-th order of the window that reorder_swapwin3 tries. */
  function Nth(s: seq<Block>, i: nat, k: int): (r: seq<Block>)
    requires i + 2 < |s|
    ensures |r| == |s|
  {
    var a, b, c := s[i], s[i + 1], s[i + 2];
    match k
    case 0 => Window(s, i, a, b, c)
    case 1 => Window(s, i, b, a, c)
    case 2 => Window(s, i, b, c, a)
    case 3 => Window(s, i, c, b, a)
    case 4 => Window(s, i, c, a, b)
    case _ => Window(s, i, a, c, b)
  }

  /** There is no order of the three blocks that is not tried. */
  lemma AllSix(s: seq<Block>, i: nat, x: Block, y: Block, z: Block) returns (k: nat)
    requires i + 2 < |s| && multiset{x, y, z} == multiset{s[i], s[i + 1], s[i + 2]}
    ensures k <= 5 && Nth(s, i, k) == Window(s, i, x, y, z)
  {
    var a, b, c := s[i], s[i + 1], s[i + 2];
    assert x in multiset{x, y, z} && y in multiset{x, y, z} && z in multiset{x, y, z};
    assert multiset{x, y, z}[a] >= 1 && multiset{x, y, z}[b] >= 1 && multiset{x, y, z}[c] >= 1;
    if x == a && y == b && z == c { k := 0; }
    else if x == b && y == a && z == c { k := 1; }
    else if x == b && y == c && z == a { k := 2; }
    else if x == c && y == b && z == a { k := 3; }
    else if x == c && y == a && z == b { k := 4; }
    else { k := 5; }
  }

  lemma NthStep(s: seq<Block>, i: nat, k: nat)
    requires i + 2 < |s| && k < 5
    ensures Swapped(Nth(s, i, k), i + k % 2) == Nth(s, i, k + 1)
    ensures Swapped(Nth(s, i, k + 1), i + k % 2) == Nth(s, i, k)
  {
  }

  lemma SwappedTwice(s: seq<Block>, i: nat)
    requires i + 1 < |s|
    ensures Swapped(Swapped(s, i), i) == s
  {
  }

  lemma {:induction false} SwappedFlat(s: seq<Block>, i: nat)
    requires i + 1 < |s|
    ensures |Flat(Swapped(s, i))| == |Flat(s)|
  {
    hide Flat, Swapped;
    FlatAround(s, i);
  }

  /** Rearranging blocks changes no variable. */
  lemma {:induction false} NthFlat(s: seq<Block>, i: nat, k: nat)
    requires i + 2 < |s| && k <= 5
    ensures |Flat(Nth(s, i, k))| == |Flat(s)|
  {
    hide Flat, Swapped;
    if k == 0 {
      assert Nth(s, i, 0) == s;
    } else {
      hide Nth;
      NthFlat(s, i, k - 1);
      NthStep(s, i, k - 1);
      SwappedFlat(Nth(s, i, k - 1), i + (k - 1) % 2);
    }
  }

  lemma BackSteps(s: seq<Block>, i: nat)
    requires i + 2 < |s|
    ensures Swapped(Nth(s, i, 5), i) == Nth(s, i, 4) && Swapped(Nth(s, i, 4), i + 1) == Nth(s, i, 3)
    ensures Swapped(Nth(s, i, 3), i) == Nth(s, i, 2) && Swapped(Nth(s, i, 2), i + 1) == Nth(s, i, 1)
    ensures Swapped(Nth(s, i, 1), i) == Nth(s, i, 0)
    ensures forall k {:trigger Nth(s, i, k)} :: 0 < i ==> Nth(s, i, k)[0] == s[0]
    ensures i == 0 ==> Nth(s, i, 5)[0] == s[0]
  {
    NthStep(s, i, 0);
    NthStep(s, i, 1);
    NthStep(s, i, 2);
    NthStep(s, i, 3);
    NthStep(s, i, 4);
  }

  lemma ValidOrders(session: Session)
    requires session.Valid()
    ensures |session.level2var| == |session.levels| + 1
  {
    hide Rest;
    OrdersRange(session.var2level, session.level2var, |session.levels|);
  }

  lemma LayoutHere(level2var: seq<nat>, top: nat, s: seq<Block>)
    requires top + |Flat(s)| <= |level2var| && level2var[top..top + |Flat(s)|] == Flat(s)
    ensures Layout(level2var, top, s) == level2var
  {
    hide Flat;
    assert level2var == level2var[..top] + level2var[top..top + |Flat(s)|] + level2var[top + |Flat(s)|..];
  }

  class Blocks {
    const session: Session
    var order: seq<Block>
    /** The level of the first block, and the number of levels of all. */
    const top: nat
    const width: nat
    const maxnodesize: int
    const maxnodeincrease: int

    /** One level of the block tree: blocks that follow each other from level top on. */
    constructor (session: Session, order: seq<Block>, top: nat, maxnodesize: int, maxnodeincrease: int)
      requires session.Valid() && forall b {:trigger b in order} :: b in order ==> b != []
      requires top + |Flat(order)| <= |session.levels| && session.level2var[top..top + |Flat(order)|] == Flat(order)
      ensures Linked() && this.session == session && this.order == order && this.top == top
      ensures this.maxnodesize == maxnodesize && this.maxnodeincrease == maxnodeincrease
    {
      hide Rest, Flat, Session.Valid;
      this.session, this.order, this.top := session, order, top;
      this.width := |Flat(order)|;
      this.maxnodesize, this.maxnodeincrease := maxnodesize, maxnodeincrease;
      new;
      assert session.Valid() && |session.level2var| == |session.levels| + 1 by { ValidOrders(session); }
      LayoutHere(session.level2var, top, order);
    }

    /** This moment. */
    ghost function Here(): Origin
      reads session
    {
      Origin(session.Now(), session.var2level, session.level2var, session.hash, session.ext, session.iactmtx)
    }

    /** The blocks are those of the session, one below the other. */
    ghost predicate Linked()
      reads this, session, session.pairs
    {
      && session.Valid() && (forall b {:trigger b in order} :: b in order ==> b != [])
      && |Flat(order)| == width && top + width <= |session.levels| && session.level2var == Layout(session.level2var, top, order)
    }

    /** A run of the session from moment o on; only the blocks have moved, and with room enough no counter has saturated. */
    ghost predicate Run(o: Origin)
      reads this, session, session.pairs
    {
      && session.Valid() && session.hash == o.hash && session.ext == o.ext && session.iactmtx == o.mtx
      && Later(o.s, o.lev, session.Now(), session.var2level, o.ext)
      && (forall b {:trigger b in order} :: b in order ==> b != [])
      && |Flat(order)| == width && top + width <= |session.levels| && |session.levels| == |o.level2var| - 1
      && session.level2var == Layout(o.level2var, top, order) && |o.lev| == |session.var2level|
      && (forall b: nat {:trigger Roomy(o, b)} :: Roomy(o, b) ==> Full(session.Now()) == Full(o.s))
    }

    /** No counter has saturated since. */
    ghost predicate Calm(o: Origin)
      reads session
    {
      Full(session.Now()) == Full(o.s)
    }

    /** The number of nodes with the blocks in this order. */
    ghost function Size(o: Origin, s: seq<Block>): int {
      SizeAt(o, Layout(o.level2var, top, s))
    }

    lemma {:induction false} RunStart()
      requires Linked()
      ensures Run(Here()) && Calm(Here())
    {
      hide Rest, Later, Layout, Flat, Roomy, Full;
      LaterNothing(session.Now(), session.hash, session.ext, session.var2level, session.iactmtx);
    }

    lemma {:induction false} RunLinked(o: Origin)
      requires Run(o)
      ensures Linked()
    {
      hide Rest, Later, Flat;
    }

    /** A run from a roomy moment on is calm: the condition to check before the call. */
    lemma {:induction false} RoomyCalm(o: Origin)
      requires Run(o)
      ensures forall b: nat {:trigger Roomy(o, b)} :: Roomy(o, b) ==> Calm(o)
    {
      hide Rest, Later, Layout, Flat, Roomy, Full, Session.Valid;
    }

    /** The count of the session is the size of its order. */
    lemma {:induction false} SizeNow(o: Origin)
      requires Run(o) && Calm(o)
      ensures Size(o, order) == session.NodeNum()
    {
      hide Rest, Later, Layout, Full;
      SizeIs(o, session.level2var, session.Now(), session.var2level);
    }

    /** blockdown: the block at position i and the next one change places. */
    method BlockDown(ghost o: Origin, i: nat)
      requires Run(o) && i + 1 < |order|
      modifies this`order, session, session.pairs`result, session.pairs`last
      ensures Run(o) && order == Swapped(old(order), i)
      ensures Calm(o) ==> old(Calm(o))
    {
      hide Run, Calm, Layout, Flat, Later, Session.Valid, Full, Here;
      BlocksAt(o, i);
      RunMoment(o);
      session.BlockDown(order[i], order[i + 1]);
      order := order[i := order[i + 1]][i + 1 := order[i]];
      BlocksMoved(o, old(Here()), old(order), i);
    }

    lemma RunMoment(o: Origin)
      requires Run(o)
      ensures session.hash == o.hash && session.ext == o.ext && session.iactmtx == o.mtx
      ensures Here().hash == o.hash && Here().ext == o.ext && Here().mtx == o.mtx && Here().s == session.Now() && Here().lev == session.var2level
      ensures Later(o.s, o.lev, session.Now(), session.var2level, o.ext) && Here().s == session.Now()
      ensures Calm(o) <==> Full(Here().s) == Full(o.s)
      ensures top + width <= |session.levels| == |o.level2var| - 1 && |Flat(order)| == width
      ensures |o.lev| == |Here().lev| && forall b: nat {:trigger Roomy(o, b)} :: Roomy(o, b) ==> Full(Here().s) == Full(o.s)
    {
      hide Later, Session.Valid, Full, Layout, Flat, Roomy;
    }

    /** The two blocks, as the session sees them. */
    lemma {:induction false} BlocksAt(o: Origin, i: nat)
      requires Run(o) && i + 1 < |order|
      ensures session.Valid() && |session.var2level| == |session.level2var| == |session.levels| + 1
      ensures var l, r := order[i], order[i + 1];
              && l != [] && r != [] && l[0] < |session.levels|
              && var start := session.var2level[l[0]];
                 && start + |l| + |r| <= |session.levels| && session.level2var[start..start + |l| + |r|] == l + r
                 && Layout(o.level2var, top, Swapped(order, i)) == session.level2var[..start] + r + l + session.level2var[start + |l| + |r|..]
      ensures |Flat(Swapped(order, i))| == width && forall b {:trigger b in Swapped(order, i)} :: b in Swapped(order, i) ==> b != []
    {
      hide Rest, Later, Layout, Flat, Roomy;
      LayoutSwap(o.level2var, top, order, i);
      FirstLevel(o, i);
      assert order[i] in order && order[i + 1] in order;
      forall b | b in Swapped(order, i) ensures b in order {}
    }

    /** The top variable of block i is where the blocks above it end. */
    lemma {:induction false} FirstLevel(o: Origin, i: nat)
      requires Run(o) && i + 1 < |order|
      ensures order[i] != [] && order[i + 1] != [] && order[i][0] < |session.levels|
      ensures session.var2level[order[i][0]] == top + |Flat(order[..i])|
    {
      hide Rest, Later;
      LayoutSwap(o.level2var, top, order, i);
      hide Layout, Flat;
      assert order[i] in order && order[i + 1] in order;
      var start, now := top + |Flat(order[..i])|, session.level2var;
      assert now[start] == now[start..start + |order[i]| + |order[i + 1]|][0] == order[i][0];
      assert session.var2level[now[start]] == start;
      assert now[|session.levels|] == |session.levels| by {
        assert session.var2level[|session.levels|] == |session.levels|;
      }
    }

    /** h is the moment before the blocks of s at i changed places. */
    lemma {:induction false} BlocksMoved(o: Origin, h: Origin, s: seq<Block>, i: nat)
      requires i + 1 < |s| && order == Swapped(s, i) && |Flat(order)| == width && forall b {:trigger b in order} :: b in order ==> b != []
      requires session.Valid() && session.hash == h.hash == o.hash && session.ext == h.ext == o.ext && session.iactmtx == h.mtx == o.mtx
      requires Later(o.s, o.lev, h.s, h.lev, o.ext) && Later(h.s, h.lev, session.Now(), session.var2level, o.ext)
      requires |o.lev| == |h.lev| == |session.var2level| && Calmly(o.hash, o.ext, o.mtx, h.s, h.lev, session.Now())
      requires forall b: nat {:trigger Roomy(o, b)} :: Roomy(o, b) ==> Full(h.s) == Full(o.s)
      requires top + width <= |session.levels| == |o.level2var| - 1 && session.level2var == Layout(o.level2var, top, order)
      ensures Run(o) && (Calm(o) ==> Full(h.s) == Full(o.s))
    {
      hide Rest, Later, Layout, Flat, Full, Swapped, Session.Valid, Roomy, Calmly;
      forall b: nat | Roomy(o, b) ensures Full(session.Now()) == Full(o.s) {
        CalmlyHere(o, b, h.s, h.lev, session.Now());
      }
      LaterTrans(o.s, o.lev, h.s, h.lev, session.Now(), session.var2level, o.ext);
      FullGrows(o.s, o.lev, h.s, h.lev, session.Now(), session.var2level, o.ext);
    }

    function MaxAllowed(best: int): int {
      if maxnodesize > 0 && maxnodesize - maxnodeincrease - 2 < best / 5 + best
      then maxnodesize - maxnodeincrease - 2
      else best / 5 + best
    }

    /** No position in lo .. hi is better than best. */
    ghost predicate NoneBetter(o: Origin, s: seq<Block>, p: nat, lo: nat, hi: nat, best: int) {
      p < |s| && hi < |s| && forall q {:trigger At(s, p, q)} :: lo <= q <= hi ==> best <= Size(o, At(s, p, q))
    }

    /** Where the block is, and where the best place among lo .. hi is. */
    ghost predicate Searching(o: Origin, s: seq<Block>, p: nat, c: nat, bestpos: int, best: int, lo: nat, hi: nat)
      reads this, session, session.pairs
    {
      && Run(o) && p < |s| && lo <= p <= hi < |s| && lo <= c <= hi
      && order == At(s, p, c) && lo <= c - bestpos <= hi
      && (Calm(o) ==> best == Size(o, At(s, p, c - bestpos)) && NoneBetter(o, s, p, lo, hi, best))
    }

    /** None of these positions is over the limit. */
    ghost predicate NoLimit(o: Origin, s: seq<Block>, p: nat, lo: nat, hi: nat, best: int) {
      p < |s| && hi < |s| && forall q {:trigger At(s, p, q)} :: lo <= q <= hi ==> Size(o, At(s, p, q)) <= MaxAllowed(best)
    }

    lemma NoLimitBefore(o: Origin, s: seq<Block>, p: nat, lo: nat, hi: nat, best: int, lo': nat, hi': nat, best': int)
      requires best' <= best && lo' <= lo && hi <= hi'
      ensures NoLimit(o, s, p, lo', hi', best') ==> NoLimit(o, s, p, lo, hi, best)
    {
      assert MaxAllowed(best') <= MaxAllowed(best);
      hide MaxAllowed, At, Size;
    }

    /** The limit: a fifth more than the best size, and room in the table. */
    lemma LimitIs(best: int, size: int)
      ensures size <= MaxAllowed(best) <==> 5 * size <= 6 * best && (maxnodesize > 0 ==> size <= maxnodesize - maxnodeincrease - 2)
    {
    }

    /** One call of blockdown on the block above. */
    method StepUp(ghost o: Origin, ghost s: seq<Block>, ghost p: nat, c0: nat, best0: int, bestpos0: int, ghost lo0: nat, ghost hi: nat)
      returns (c: nat, best: int, bestpos: int, ghost lo: nat)
      requires Searching(o, s, p, c0, bestpos0, best0, lo0, hi) && 0 < c0
      modifies this`order, session, session.pairs`result, session.pairs`last
      ensures Searching(o, s, p, c, bestpos, best, lo, hi) && c == c0 - 1 && lo <= lo0 && best <= best0
      ensures Calm(o) ==> old(Calm(o))
    {
      hide At, Run, Calm, Size;
      lo := if c0 - 1 < lo0 then c0 - 1 else lo0;
      AtUp(s, p, c0);
      BlockDown(o, c0 - 1);
      if Calm(o) { SizeNow(o); }
      c, best, bestpos := c0 - 1, best0, bestpos0 - 1;
      if session.NodeNum() < best {
        best := session.NodeNum();
        bestpos := 0;
      }
    }

    /** One call of blockdown on the block itself. */
    method StepDown(ghost o: Origin, ghost s: seq<Block>, ghost p: nat, c0: nat, best0: int, bestpos0: int, ghost lo: nat, ghost hi0: nat)
      returns (c: nat, best: int, bestpos: int, ghost hi: nat)
      requires Searching(o, s, p, c0, bestpos0, best0, lo, hi0) && c0 + 1 < |s|
      modifies this`order, session, session.pairs`result, session.pairs`last
      ensures Searching(o, s, p, c, bestpos, best, lo, hi) && c == c0 + 1 && hi0 <= hi && best <= best0
      ensures Calm(o) ==> old(Calm(o))
    {
      hide At, Run, Calm, Size;
      hi := if c0 + 1 > hi0 then c0 + 1 else hi0;
      AtDown(s, p, c0);
      BlockDown(o, c0);
      if Calm(o) { SizeNow(o); }
      c, best, bestpos := c0 + 1, best0, bestpos0 + 1;
      if session.NodeNum() < best {
        best := session.NodeNum();
        bestpos := 0;
      }
    }

    /**
      reorder_sift_bestpos: the session runs on, and unless a counter has
      saturated meanwhile, block p ends where the number of nodes is the
      smallest of all positions lo .. hi it was taken to, its old one among
      them. It is taken on to the end of the list on both sides unless one of the
      positions it was taken to is over the limit, and at least one step in its
      first direction in any case.
    */
    method SiftBestPos(p: nat, middlePos: int) returns (c: nat, ghost lo: nat, ghost hi: nat)
      requires Linked() && p < |order|
      modifies this`order, session, session.pairs`result, session.pairs`last
      ensures Linked() && Run(old(Here()))
      ensures lo <= p <= hi < |old(order)| && lo <= c <= hi && order == At(old(order), p, c)
      ensures forall b: nat {:trigger Roomy(old(Here()), b)} :: Roomy(old(Here()), b) ==> Calm(old(Here()))
      ensures Calm(old(Here())) ==>
                && session.NodeNum() <= old(session.NodeNum())
                && (forall q {:trigger At(old(order), p, q)} :: lo <= q <= hi ==> session.NodeNum() <= Size(old(Here()), At(old(order), p, q)))
                && ((forall q {:trigger At(old(order), p, q)} :: lo <= q <= hi ==>
                       var size := Size(old(Here()), At(old(order), p, q));
                       5 * size <= 6 * session.NodeNum() && (maxnodesize > 0 ==> size <= maxnodesize - maxnodeincrease - 2)) ==>
                    lo == 0 && hi == |old(order)| - 1)
      ensures (p <= middlePos && 0 < p ==> lo < p) && (p > middlePos && p + 1 < |old(order)| ==> p < hi)
    {
      hide At, MaxAllowed, NoLimit, Run, Linked, Calm, Size, Session.NodeNum, Here, Roomy;
      ghost var o, s := Here(), order;
      RunStart();
      SizeNow(o);
      AtHome(s, p);
      var best := session.NodeNum();
      var bestpos := 0;
      c, lo, hi := p, p, p;
      var dirIsUp := p <= middlePos;
      ghost var upDone, downDone := false, false;
      var n := 0;
      while n < 2
        invariant n <= 2 && (n == 0 ==> !upDone && !downDone) && (n == 1 ==> upDone != downDone && dirIsUp == downDone) && (n == 2 ==> upDone && downDone)
        invariant Searching(o, s, p, c, bestpos, best, lo, hi)
        invariant Calm(o) && upDone && NoLimit(o, s, p, lo, hi, best) ==> lo == 0
        invariant Calm(o) && downDone && NoLimit(o, s, p, lo, hi, best) ==> hi == |s| - 1
        invariant n == 0 ==> c == p && dirIsUp == (p <= middlePos)
        invariant n > 0 ==> (p <= middlePos && 0 < p ==> lo < p) && (p > middlePos && p + 1 < |s| ==> p < hi)
      {
        var first := true;
        ghost var best1, lo1, hi1, calm1, c1 := best, lo, hi, Calm(o), c;
        if dirIsUp {
          while c > 0 && (session.NodeNum() <= MaxAllowed(best) || first)
            invariant Searching(o, s, p, c, bestpos, best, lo, hi) && lo <= lo1 && best <= best1 && (Calm(o) ==> calm1)
            invariant if first then c == c1 && lo == lo1 else c < c1 && lo <= c
            decreases c
          {
            first := false;
            c, best, bestpos, lo := StepUp(o, s, p, c, best, bestpos, lo, hi);
          }
          OverLimit(o, s, p, c, lo, hi, best);
          upDone := true;
        } else {
          while c + 1 < |order| && (session.NodeNum() <= MaxAllowed(best) || first)
            invariant Searching(o, s, p, c, bestpos, best, lo, hi) && hi1 <= hi && best <= best1 && (Calm(o) ==> calm1)
            invariant if first then c == c1 && hi == hi1 else c1 < c <= hi
            decreases |s| - c
          {
            first := false;
            c, best, bestpos, hi := StepDown(o, s, p, c, best, bestpos, lo, hi);
          }
          OverLimit(o, s, p, c, lo, hi, best);
          downDone := true;
        }
        NoLimitBefore(o, s, p, lo1, hi1, best1, lo, hi, best);
        dirIsUp := !dirIsUp;
        n := n + 1;
      }
      c := MoveToBest(o, s, p, c, bestpos, best, lo, hi);
      RunLinked(o);
      RoomyCalm(o);
      if Calm(o) {
        SizeNow(o);
        if forall q {:trigger At(s, p, q)} :: lo <= q <= hi ==>
             var size := Size(o, At(s, p, q));
             5 * size <= 6 * best && (maxnodesize > 0 ==> size <= maxnodesize - maxnodeincrease - 2)
        {
          Unlimited(o, s, p, lo, hi, best);
        }
      }
    }

    lemma {:induction false} Unlimited(o: Origin, s: seq<Block>, p: nat, lo: nat, hi: nat, best: int)
      requires p < |s| && hi < |s|
      requires forall q {:trigger At(s, p, q)} :: lo <= q <= hi ==>
                 var size := Size(o, At(s, p, q));
                 5 * size <= 6 * best && (maxnodesize > 0 ==> size <= maxnodesize - maxnodeincrease - 2)
      ensures NoLimit(o, s, p, lo, hi, best)
    {
      hide At, Size, MaxAllowed;
      forall q | lo <= q <= hi ensures Size(o, At(s, p, q)) <= MaxAllowed(best) {
        LimitIs(best, Size(o, At(s, p, q)));
      }
    }

    /** The end of reorder_sift_bestpos: back to the best place. */
    method MoveToBest(ghost o: Origin, ghost s: seq<Block>, ghost p: nat, c0: nat, bestpos0: int, ghost best: int, ghost lo: nat, ghost hi: nat)
      returns (c: nat)
      requires Searching(o, s, p, c0, bestpos0, best, lo, hi)
      modifies this`order, session, session.pairs`result, session.pairs`last
      ensures Searching(o, s, p, c, 0, best, lo, hi) && (Calm(o) ==> old(Calm(o)))
    {
      hide At, Run, Calm, Size;
      c := c0;
      var bestpos := bestpos0;
      while bestpos < 0
        invariant Searching(o, s, p, c, bestpos, best, lo, hi) && (Calm(o) ==> old(Calm(o)))
        decreases -bestpos
      {
        AtDown(s, p, c);
        BlockDown(o, c);
        c := c + 1;
        bestpos := bestpos + 1;
      }
      while bestpos > 0
        invariant Searching(o, s, p, c, bestpos, best, lo, hi) && bestpos >= 0 && (Calm(o) ==> old(Calm(o)))
        decreases bestpos
      {
        AtUp(s, p, c);
        BlockDown(o, c - 1);
        c := c - 1;
        bestpos := bestpos - 1;
      }
    }

    /** Where the block is stopped by the limit, the limit does matter. */
    lemma OverLimit(o: Origin, s: seq<Block>, p: nat, c: nat, lo: nat, hi: nat, best: int)
      requires Run(o) && p < |s| && lo <= c <= hi < |s| && order == At(s, p, c)
      ensures Calm(o) && session.NodeNum() > MaxAllowed(best) ==> !NoLimit(o, s, p, lo, hi, best)
    {
      hide At, MaxAllowed, Run, Calm, Size;
      if Calm(o) { SizeNow(o); }
    }

    /** blockdown, and the count of the moves since the best order so far. */
    method Try(ghost o: Origin, ghost s: seq<Block>, i: nat, ghost k: nat, at: nat, pos0: nat, best0: int) returns (pos: nat, best: int)
      requires Run(o) && i + 2 < |s| && k < 5 && at == i + k % 2 && order == Nth(s, i, k)
      requires pos0 <= k && (Calm(o) ==> BestOf(o, s, i, k, pos0, best0))
      modifies this`order, session, session.pairs`result, session.pairs`last
      ensures Run(o) && order == Nth(s, i, k + 1) && pos <= k + 1 && (Calm(o) ==> old(Calm(o)) && BestOf(o, s, i, k + 1, pos, best))
      ensures best <= best0 && (pos == 0 ==> session.NodeNum() < best0)
    {
      hide Nth, Swapped, Run, Calm, Size, BestOf, Session.NodeNum;
      NthStep(s, i, k);
      BlockDown(o, at);
      if Calm(o) { SizeNow(o); }
      pos, best := pos0 + 1, best0;
      if best > session.NodeNum() {
        pos := 0;
        best := session.NodeNum();
      }
      if Calm(o) { BestNext(o, s, i, k, pos0, best0, session.NodeNum()); }
    }

    lemma BestNext(o: Origin, s: seq<Block>, i: nat, k: nat, pos: nat, best: int, now: int)
      requires BestOf(o, s, i, k, pos, best) && k < 5 && now == Size(o, Nth(s, i, k + 1))
      ensures best > now ==> BestOf(o, s, i, k + 1, 0, now)
      ensures best <= now ==> BestOf(o, s, i, k + 1, pos + 1, best)
    {
      hide Nth, Size;
    }

    /** Of the first k + 1 orders the one pos moves ago is the best, and better than all before it. */
    ghost predicate BestOf(o: Origin, s: seq<Block>, i: nat, k: nat, pos: nat, best: int) {
      && i + 2 < |s| && pos <= k <= 5 && best == Size(o, Nth(s, i, k - pos))
      && (forall m {:trigger Nth(s, i, m)} :: 0 <= m <= k ==> best <= Size(o, Nth(s, i, m)))
      && (forall m {:trigger Nth(s, i, m)} :: 0 <= m < k - pos ==> best < Size(o, Nth(s, i, m)))
    }

    /**
      reorder_swapwin3 with at least three blocks left, the first at position i:
      of the six orders of the three a best one is kept, unless a counter has
      saturated meanwhile. `next` is the position of the block to continue with
      and `first` the block at the head of the list.
    */
    method SwapWin3(i: nat, first0: Block) returns (next: nat, first: Block)
      requires Linked() && i + 2 < |order| && first0 == order[0]
      modifies this`order, session, session.pairs`result, session.pairs`last
      ensures Linked() && Run(old(Here()))
      ensures exists k {:trigger Nth(old(order), i, k)} :: 0 <= k <= 5 && order == Nth(old(order), i, k)
      ensures forall b: nat {:trigger Roomy(old(Here()), b)} :: Roomy(old(Here()), b) ==> Calm(old(Here()))
      ensures Calm(old(Here())) ==>
                && session.NodeNum() <= old(session.NodeNum())
                && (forall k {:trigger Nth(old(order), i, k)} :: 0 <= k <= 5 ==> session.NodeNum() <= Size(old(Here()), Nth(old(order), i, k)))
      ensures first == order[0]
      ensures next == i + 1 || (next == i && session.NodeNum() < old(session.NodeNum()))
    {
      hide Nth, Swapped, Run, Linked, Calm, Size, BestOf, Session.NodeNum, Here, Roomy;
      ghost var o, s := Here(), order;
      RunStart();
      SizeNow(o);
      BestFirst(o, s, i);
      var best := session.NodeNum();
      var pos := 0;
      pos, best := Try(o, s, i, 0, i, pos, best);
      pos, best := Try(o, s, i, 1, i + 1, pos, best);
      pos, best := Try(o, s, i, 2, i, pos, best);
      pos, best := Try(o, s, i, 3, i + 1, pos, best);
      pos, best := Try(o, s, i, 4, i, pos, best);
      if Calm(o) { BestLast(o, s, i, pos, best); }
      next, first := Back(o, s, i, pos, first0);
      RunLinked(o);
      RoomyCalm(o);
      if Calm(o) { SizeNow(o); }
    }

    lemma BestFirst(o: Origin, s: seq<Block>, i: nat)
      requires i + 2 < |s|
      ensures Nth(s, i, 0) == s && BestOf(o, s, i, 0, 0, Size(o, s))
    {
      hide Size;
      assert Nth(s, i, 0) == s;
    }

    lemma BestLast(o: Origin, s: seq<Block>, i: nat, pos: nat, best: int)
      requires BestOf(o, s, i, 5, pos, best)
      ensures pos <= 5 && best == Size(o, Nth(s, i, 5 - pos))
      ensures forall m {:trigger Nth(s, i, m)} :: 0 <= m <= 5 ==> best <= Size(o, Nth(s, i, m))
    {
      hide Nth, Size;
    }

    /** The second half of reorder_swapwin3: from the last order back to the one pos moves ago. */
    method Back(ghost o: Origin, ghost s: seq<Block>, i: nat, pos: nat, first0: Block) returns (next: nat, first: Block)
      requires Run(o) && i + 2 < |s| && order == Nth(s, i, 5) && pos <= 5 && first0 == s[0]
      modifies this`order, session, session.pairs`result, session.pairs`last
      ensures Run(o) && order == Nth(s, i, 5 - pos) && first == order[0] && (Calm(o) ==> old(Calm(o)))
      ensures next == if pos == 0 then i else i + 1
      ensures pos == 0 ==> session.NodeNum() == old(session.NodeNum())
    {
      hide Nth, Swapped, Run, Calm, Session.NodeNum;
      BackSteps(s, i);
      var setfirst := i == 0;
      var at := i + 1;
      next, first := i, first0;
      if pos >= 1 {
        at := at - 1;
        BlockDown(o, at);
        at := at + 1;
        next := at;
        if setfirst { first := order[at - 1]; }
      }
      if pos >= 2 {
        BlockDown(o, at);
        at := at + 1;
        next := at - 1;
        if setfirst { first := order[at - 2]; }
      }
      if pos >= 3 {
        at := at - 2;
        BlockDown(o, at);
        at := at + 1;
        next := at;
        if setfirst { first := order[at - 1]; }
      }
      if pos >= 4 {
        BlockDown(o, at);
        at := at + 1;
        next := at - 1;
        if setfirst { first := order[at - 2]; }
      }
      if pos >= 5 {
        at := at - 2;
        BlockDown(o, at);
        at := at + 1;
        next := at;
        if setfirst { first := order[at - 1]; }
      }
    }

    /** reorder_swapwin3 with only two blocks left. */
    method SwapLastTwo(i: nat, first0: Block) returns (next: nat, first: Block)
      requires Linked() && i + 2 == |order| && first0 == order[0]
      modifies this`order, session, session.pairs`result, session.pairs`last
      ensures Linked() && Run(old(Here()))
      ensures order == old(order) || order == Swapped(old(order), i)
      ensures forall b: nat {:trigger Roomy(old(Here()), b)} :: Roomy(old(Here()), b) ==> Calm(old(Here()))
      ensures Calm(old(Here())) ==> session.NodeNum() <= old(session.NodeNum()) && session.NodeNum() <= Size(old(Here()), Swapped(old(order), i))
      ensures first == order[0] && next == i + 1
    {
      hide Run, Linked, Calm, Size, Session.NodeNum, Here, Roomy;
      ghost var o, s := Here(), order;
      RunStart();
      SizeNow(o);
      var setfirst := i == 0;
      var best := session.NodeNum();
      first := first0;
      BlockDown(o, i);
      if Calm(o) { SizeNow(o); }
      next := i + 1;
      ghost var swapped := session.NodeNum();
      if best < session.NodeNum() {
        BlockDown(o, i);
        assert order == s;
        if Calm(o) { SizeNow(o); }
      } else if setfirst {
        first := order[next - 1];
      }
      RunLinked(o);
      RoomyCalm(o);
    }

    /** One window: three blocks in one of their six orders, or the last two in one of their two. */
    ghost predicate WindowStep(s: seq<Block>, i: nat, t: seq<Block>) {
      if i + 2 < |s| then exists k {:trigger Nth(s, i, k)} :: 0 <= k <= 5 && t == Nth(s, i, k)
      else i + 2 == |s| && (t == s || t == Swapped(s, i))
    }

    /** ... and none of the orders needs fewer nodes. */
    ghost predicate BestStep(o: Origin, s: seq<Block>, i: nat, t: seq<Block>) {
      if i + 2 < |s| then forall k {:trigger Nth(s, i, k)} :: 0 <= k <= 5 ==> Size(o, t) <= Size(o, Nth(s, i, k))
      else i + 2 == |s| && Size(o, t) <= Size(o, s) && Size(o, t) <= Size(o, Swapped(s, i))
    }

    /**
      The orders passed through, and the position of each window: the first is 0,
      and the next one is one further, or the same again after fewer nodes.
    */
    ghost predicate Windows(trace: seq<seq<Block>>, places: seq<nat>, s: seq<Block>, t: seq<Block>, at: nat) {
      && |trace| == |places| + 1 && trace[0] == s && trace[|places|] == t
      && (forall j {:trigger places[j]} :: 0 <= j < |places| ==> WindowStep(trace[j], places[j], trace[j + 1]))
      && (forall j {:trigger places[j]} :: 0 <= j < |places| ==>
            var next := if j + 1 < |places| then places[j + 1] else at; next == places[j] || next == places[j] + 1)
      && (if places == [] then at == 0 else places[0] == 0)
    }

    ghost predicate BestWindows(o: Origin, trace: seq<seq<Block>>, places: seq<nat>, at: nat) {
      |trace| == |places| + 1 && forall j {:trigger places[j]} :: 0 <= j < |places| ==>
        && BestStep(o, trace[j], places[j], trace[j + 1])
        && ((if j + 1 < |places| then places[j + 1] else at) == places[j] ==> Size(o, trace[j + 1]) < Size(o, trace[j]))
    }

    /**
      reorder_win3: a window of three slides over the blocks, from the first to
      the last two. It stops, since only so many counters can saturate; and if
      none did, every window was left in a best one of its orders, so that the
      number of nodes is at most that of any order of the first three blocks, and
      exchanging the last two would be no improvement.
    */
    method Win3() returns (first: Block, ghost trace: seq<seq<Block>>, ghost places: seq<nat>)
      requires Linked() && order != []
      modifies this`order, session, session.pairs`result, session.pairs`last
      ensures Linked() && Run(old(Here())) && |order| == |old(order)| && first == order[0]
      ensures forall b: nat {:trigger Roomy(old(Here()), b)} :: Roomy(old(Here()), b) ==> Calm(old(Here()))
      ensures Windows(trace, places, old(order), order, |order| - 1)
      ensures Calm(old(Here())) ==> BestWindows(old(Here()), trace, places, |order| - 1)
      ensures Calm(old(Here())) ==> session.NodeNum() <= old(session.NodeNum())
      ensures Calm(old(Here())) && 3 <= |order| ==>
                forall k {:trigger Nth(old(order), 0, k)} :: 0 <= k <= 5 ==> session.NodeNum() <= Size(old(Here()), Nth(old(order), 0, k))
      ensures Calm(old(Here())) && 2 <= |order| ==> session.NodeNum() <= Size(old(Here()), Swapped(order, |order| - 2))
    {
      hide Run, Linked, Calm, Size, Here, Room, Since, Session.NodeNum, Nth, Swapped, Roomy, WindowStep, BestStep, Windows, BestWindows;
      ghost var o, s0 := Here(), order;
      RunStart();
      first := order[0];
      var at: nat := 0;
      trace, places := [order], [];
      NoWindows(o, order);
      while at + 1 < |order|
        invariant at < |order| == |old(order)| && first == order[0] && Linked() && Run(o)
        invariant Windows(trace, places, s0, order, at) && (Calm(o) ==> BestWindows(o, trace, places, at))
        invariant Calm(o) ==> session.NodeNum() <= old(session.NodeNum())
        decreases Room(Here()), session.NodeNum(), |order| - at
      {
        ghost var h, s, i := Here(), order, at;
        CalmHere(o);
        RunSince(o);
        RoomFacts();
        RunMoment(o);
        if Calm(o) { SizeNow(o); }
        if at + 2 < |order| {
          at, first := SwapWin3(at, first);
        } else {
          at, first := SwapLastTwo(at, first);
        }
        RunTrans(o, h);
        RoomShrinks(h);
        WindowOf(s, i, order);
        if Calm(o) {
          SizeNow(o);
          WindowBest(o, h, s, i);
          MoreBest(o, trace, places, s0, i, s, order, at);
        }
        MoreWindows(trace, places, s0, s, order, i, at);
        trace, places := trace + [order], places + [i];
      }
      RoomyCalm(o);
      if Calm(o) {
        SizeNow(o);
        LastWindows(o, trace, places, s0, order);
      }
    }

    lemma NoWindows(o: Origin, s: seq<Block>)
      ensures Windows([s], [], s, s, 0) && BestWindows(o, [s], [], 0)
    {
    }

    lemma {:induction false} MoreWindows(trace: seq<seq<Block>>, places: seq<nat>, s0: seq<Block>, s: seq<Block>, t: seq<Block>, i: nat, at: nat)
      requires Windows(trace, places, s0, s, i) && WindowStep(s, i, t) && (at == i || at == i + 1)
      ensures Windows(trace + [t], places + [i], s0, t, at)
    {
      hide WindowStep;
    }

    lemma {:induction false} MoreBest(o: Origin, trace: seq<seq<Block>>, places: seq<nat>, s0: seq<Block>, i: nat, s: seq<Block>, t: seq<Block>, at: nat)
      requires BestWindows(o, trace, places, i) && Windows(trace, places, s0, s, i) && BestStep(o, s, i, t) && (at == i ==> Size(o, t) < Size(o, s))
      ensures BestWindows(o, trace + [t], places + [i], at)
    {
      hide BestStep, Size, WindowStep;
    }

    lemma WindowOf(s: seq<Block>, i: nat, t: seq<Block>)
      requires i + 2 <= |s|
      requires i + 2 < |s| ==> exists k {:trigger Nth(s, i, k)} :: 0 <= k <= 5 && t == Nth(s, i, k)
      requires i + 2 == |s| ==> t == s || t == Swapped(s, i)
      ensures WindowStep(s, i, t)
    {
    }

    lemma WindowEnds(trace: seq<seq<Block>>, places: seq<nat>, s: seq<Block>, t: seq<Block>, at: nat)
      requires Windows(trace, places, s, t, at)
      ensures |trace| == |places| + 1 && trace[0] == s && trace[|places|] == t
    {
      hide WindowStep;
    }

    lemma WindowAt(trace: seq<seq<Block>>, places: seq<nat>, s: seq<Block>, t: seq<Block>, at: nat, j: nat)
      requires Windows(trace, places, s, t, at) && j < |places|
      ensures |trace| == |places| + 1 && WindowStep(trace[j], places[j], trace[j + 1])
    {
      hide WindowStep;
    }

    lemma StepLength(s: seq<Block>, i: nat, t: seq<Block>)
      requires WindowStep(s, i, t)
      ensures |t| == |s| && i + 2 <= |s|
    {
    }

    /** Staying is one of the orders of a window. */
    lemma StepNoWorse(o: Origin, s: seq<Block>, i: nat, t: seq<Block>)
      requires WindowStep(s, i, t)
      ensures BestStep(o, s, i, t) ==> Size(o, t) <= Size(o, s)
    {
      hide Size, Swapped;
      if i + 2 < |s| {
        assert Nth(s, i, 0) == s;
        hide Nth;
      }
    }

    /** A size counted from moment h is the same counted from moment o. */
    lemma {:induction false} SizeFrom(o: Origin, h: Origin, s: seq<Block>)
      requires Since(o, h) && Full(h.s) == Full(o.s) && |Flat(s)| == width && 0 < Size(h, s)
      ensures Size(o, s) == Size(h, s)
    {
      hide Rest, Later, Flat, Full, Roomy, Orders;
      var x := Layout(h.level2var, top, s);
      assert Layout(o.level2var, top, s) == x;
      hide Layout;
      if t, lev :| Moment(h, x, t, lev) {
        LaterTrans(o.s, o.lev, h.s, h.lev, t, lev, o.ext);
        SizeIs(h, x, t, lev);
        SizeIs(o, x, t, lev);
      }
    }

    /** What a window was left in, counted from the start of the run. */
    lemma {:induction false} WindowBest(o: Origin, h: Origin, s: seq<Block>, i: nat)
      requires Since(o, h) && Full(h.s) == Full(o.s) && Run(o) && Calm(o) && |Flat(s)| == width && i + 2 <= |s|
      requires i + 2 < |s| ==> forall k {:trigger Nth(s, i, k)} :: 0 <= k <= 5 ==> session.NodeNum() <= Size(h, Nth(s, i, k))
      requires i + 2 == |s| ==> session.NodeNum() <= Size(h, Swapped(s, i)) && session.NodeNum() <= Size(o, s)
      ensures BestStep(o, s, i, order)
    {
      hide Size, Nth, Swapped, Flat, Session.NodeNum, Since, Calm;
      SizeNow(o);
      RunLinked(o);
      RoomFacts();
      hide Run, Linked;
      if i + 2 < |s| {
        forall k | 0 <= k <= 5 ensures Size(o, order) <= Size(o, Nth(s, i, k)) {
          NthFlat(s, i, k);
          SizeFrom(o, h, Nth(s, i, k));
        }
      } else {
        SwappedFlat(s, i);
        SizeFrom(o, h, Swapped(s, i));
      }
    }

    /** The last window is that of the last two blocks, and no step made things worse. */
    lemma {:induction false} LastWindows(o: Origin, trace: seq<seq<Block>>, places: seq<nat>, s: seq<Block>, t: seq<Block>)
      requires |s| == |t| > 0 && Windows(trace, places, s, t, |t| - 1) && BestWindows(o, trace, places, |t| - 1)
      ensures 3 <= |t| ==> forall k {:trigger Nth(s, 0, k)} :: 0 <= k <= 5 ==> Size(o, t) <= Size(o, Nth(s, 0, k))
      ensures 2 <= |t| ==> Size(o, t) <= Size(o, Swapped(t, |t| - 2))
    {
      hide Size, Nth, Swapped;
      if 2 <= |t| {
        var n := |places| - 1;
        WindowLengths(trace, places, s, t, |t| - 1, n);
        assert WindowStep(trace[n], places[n], trace[n + 1]) && BestStep(o, trace[n], places[n], trace[n + 1]);
        SwappedTwice(trace[n], |t| - 2);
      }
      if 3 <= |t| {
        assert BestStep(o, trace[0], places[0], trace[1]);
        NoWorse(o, trace, places, s, t, |t| - 1, 1);
      }
    }

    lemma {:induction false} WindowLengths(trace: seq<seq<Block>>, places: seq<nat>, s: seq<Block>, t: seq<Block>, at: nat, j: nat)
      requires Windows(trace, places, s, t, at) && j <= |places|
      ensures |trace[j]| == |s|
    {
      hide WindowStep, Windows;
      WindowEnds(trace, places, s, t, at);
      if j > 0 {
        WindowLengths(trace, places, s, t, at, j - 1);
        WindowAt(trace, places, s, t, at, j - 1);
        StepLength(trace[j - 1], places[j - 1], trace[j]);
      }
    }

    lemma {:induction false} NoWorse(o: Origin, trace: seq<seq<Block>>, places: seq<nat>, s: seq<Block>, t: seq<Block>, at: nat, j: nat)
      requires Windows(trace, places, s, t, at) && BestWindows(o, trace, places, at) && j <= |places|
      ensures Size(o, t) <= Size(o, trace[j])
      decreases |places| - j
    {
      hide Size, WindowStep, BestStep, Windows;
      WindowEnds(trace, places, s, t, at);
      if j < |places| {
        NoWorse(o, trace, places, s, t, at, j + 1);
        WindowAt(trace, places, s, t, at, j);
        assert BestStep(o, trace[j], places[j], trace[j + 1]);
        StepNoWorse(o, trace[j], places[j], trace[j + 1]);
      }
    }

    lemma CalmHere(o: Origin)
      ensures Calm(o) <==> Full(Here().s) == Full(o.s)
    {
    }

    /** Moment h came after moment o, and only the blocks have moved between. */
    ghost predicate Since(o: Origin, h: Origin) {
      && h.hash == o.hash && h.ext == o.ext && h.mtx == o.mtx && Later(o.s, o.lev, h.s, h.lev, o.ext)
      && |h.lev| == |o.lev| && (forall b: nat {:trigger Roomy(o, b)} :: Roomy(o, b) ==> Full(h.s) == Full(o.s))
      && |h.level2var| == |o.level2var| && top + width <= |o.level2var|
      && h.level2var[..top] == o.level2var[..top] && h.level2var[top + width..] == o.level2var[top + width..]
    }

    lemma {:induction false} RunSince(o: Origin)
      requires Run(o)
      ensures Since(o, Here())
    {
      hide Rest, Later, Flat, Roomy, Full;
    }

    lemma {:induction false} RunTrans(o: Origin, h: Origin)
      requires Since(o, h) && Run(h)
      ensures Run(o) && (Calm(o) ==> Calm(h) && Full(h.s) == Full(o.s))
    {
      hide Rest, Later, Flat, Full, Roomy;
      forall b: nat | Roomy(o, b) ensures Full(session.Now()) == Full(o.s) {
        RoomyLater(o, h, b);
      }
      LaterTrans(o.s, o.lev, h.s, h.lev, session.Now(), session.var2level, o.ext);
      FullGrows(o.s, o.lev, h.s, h.lev, session.Now(), session.var2level, o.ext);
    }

    /** How many more counters could saturate. */
    ghost function Room(o: Origin): int {
      |AllTrees(0, if o.level2var == [] then 0 else |o.level2var| - 1)| - |Full(o.s)|
    }

    lemma {:induction false} RoomFacts()
      requires Linked()
      ensures 0 <= Room(Here()) && 2 <= session.NodeNum()
    {
      hide Rest, Layout, Flat, AllTrees;
      FullBound(session.Now(), session.hash, session.ext, session.var2level, session.iactmtx);
      RestSound(session.Now(), session.hash, session.ext, session.var2level, session.iactmtx);
      NodeNumIsSize(session.Now(), session.hash);
    }

    lemma {:induction false} RoomShrinks(h: Origin)
      requires Run(h)
      ensures Room(Here()) <= Room(h) && (Room(Here()) == Room(h) ==> Calm(h))
    {
      hide Rest, Layout, Flat, AllTrees, Full;
      FullSince(h.s, h.lev, session.Now(), session.var2level, h.ext);
      Proper(Full(h.s), Full(session.Now()));
    }
  }

  lemma FullSince(s: State, lev: Order, t: State, lev': Order, ext: map<nat, nat>)
    requires Later(s, lev, t, lev', ext)
    ensures Full(s) <= Full(t)
  {
    hide Preserved, Full;
  }

  lemma Proper<T>(a: set<T>, b: set<T>)
    requires a <= b
    ensures |a| <= |b| && (|a| == |b| ==> a == b)
  {
    assert b == a + (b - a);
  }

  lemma RestSound(s: State, hash: Hash, ext: map<nat, nat>, lev: Order, mtx: Matrix)
    requires Rest(s, hash, ext, lev, mtx)
    ensures Sound(s, hash)
  {
    hide Sound;
  }

  lemma AtHome(s: seq<Block>, p: nat)
    requires p < |s|
    ensures At(s, p, p) == s
  {
  }

  lemma {:induction false} FullGrows(s: State, lev: Order, t: State, lev': Order, u: State, lev'': Order, ext: map<nat, nat>)
    requires Later(s, lev, t, lev', ext) && Later(t, lev', u, lev'', ext)
    ensures Full(s) <= Full(t) <= Full(u)
  {
    hide Preserved, Full;
  }
}
