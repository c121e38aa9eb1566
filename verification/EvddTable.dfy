/**
  evdd_kernel.c: the unique table of edge-valued nodes over an interned value
  table, with references, the reference stack and both garbage collections.
*/
module EvddTable {
  import opened Field
  import opened WeightNorm
  import opened Wdd
  import opened WddOps
  import opened ValueTable
  import opened EvddState
  import opened EvddCollect
  import opened EvddArith
  import Threads

  /** bdd.h: an operation that is not allowed. */
  const BDD_OP: int := -12
  const EVDD_MAXREF: nat := 0x3FF
  const EVDD_MAXLEVEL: nat := 0x1FFFFF

  /** The leaf operation of evdd_apply: one of the value algebra, or a callback of the caller, by its code. */
  datatype ApplyOp = OpMul | OpAdd | OpSub | OpDiv | OpCallback(code: nat)

  /** What the callback of each code makes of two path values. */
  type Callbacks = nat -> Op

  function OpFun(calls: Callbacks, op: ApplyOp): Op {
    match op
    case OpMul => (x: real, y: real) => Mul(x, y)
    case OpAdd => (x: real, y: real) => x + y
    case OpSub => (x: real, y: real) => x - y
    case OpDiv => (x: real, y: real) => Div(x, y)
    case OpCallback(code) => calls(code)
  }

  /** EvddCacheData */
  datatype Entry = Entry(a: nat, aw: nat, b: nat, bw: nat, op: ApplyOp, res: nat, resw: nat, generation: nat)

  /** A valid entry holds live weight ids only, and the edge of the exact result. */
  ghost predicate EntryOk(e: Entry, dd: Trees, rows: Rows, s: Strategy, calls: Callbacks) {
    && e.a in dd && e.b in dd && e.res in dd && Ordered(dd[e.a]) && Ordered(dd[e.b])
    && Known(rows, e.aw) && Known(rows, e.bw) && Known(rows, e.resw)
    && Denote(dd, rows, e.res, e.resw) == Apply(s, OpFun(calls, e.op), Denote(dd, rows, e.a, e.aw), Denote(dd, rows, e.b, e.bw))
  }

  ghost predicate CacheOk(cache: seq<Entry>, gen: nat, dd: Trees, rows: Rows, s: Strategy, calls: Callbacks) {
    && 0 < |cache|
    && forall i {:trigger cache[i]} :: 0 <= i < |cache| ==> cache[i].generation <= gen && (cache[i].generation == gen ==> EntryOk(cache[i], dd, rows, s, calls))
  }

  /** The slot of a key in a cache of the given size. */
  type Slot = (nat, nat, nat, nat, nat, ApplyOp) -> nat

  ghost predicate SlotInRange(slot: Slot) {
    forall size: nat, a: nat, aw: nat, b: nat, bw: nat, op: ApplyOp {:trigger slot(size, a, aw, b, bw, op)} ::
      0 < size ==> slot(size, a, aw, b, bw, op) < size
  }

  lemma CacheGrows(cache: seq<Entry>, gen: nat, dd: Trees, rows: Rows, s: Strategy, calls: Callbacks, dd': Trees, rows': Rows)
    requires CacheOk(cache, gen, dd, rows, s, calls) && SameWeights(rows, rows')
    requires forall n {:trigger n in dd'} {:trigger dd'[n]} :: n in dd ==> n in dd' && dd'[n] == dd[n]
    ensures CacheOk(cache, gen, dd', rows', s, calls)
  {
    hide Apply, Known, Weight, Ordered;
    forall i | 0 <= i < |cache| && cache[i].generation == gen ensures EntryOk(cache[i], dd', rows', s, calls) {
      assert EntryOk(cache[i], dd, rows, s, calls);
    }
  }

  /** A new generation: no entry is valid. */
  lemma CacheReset(cache: seq<Entry>, gen: nat, dd: Trees, rows: Rows, s: Strategy, calls: Callbacks, dd': Trees, rows': Rows)
    requires CacheOk(cache, gen, dd, rows, s, calls)
    ensures CacheOk(cache, gen + 1, dd', rows', s, calls) && NoEntries(cache, gen + 1)
  {
    hide EntryOk;
  }

  /** No entry of the cache is valid. */
  ghost predicate NoEntries(cache: seq<Entry>, gen: nat) {
    0 < |cache| && forall i {:trigger cache[i]} :: 0 <= i < |cache| ==> cache[i].generation < gen
  }

  lemma NoEntriesOk(cache: seq<Entry>, gen: nat, dd: Trees, rows: Rows, s: Strategy, calls: Callbacks)
    requires NoEntries(cache, gen)
    ensures CacheOk(cache, gen, dd, rows, s, calls)
  {
  }

  class Evdd {
    const values: Values<real>
    const strat: Strategy
    const hash: Hash
    const slot: Slot
    /** The leaf operations that callers pass; the cache tells them apart by code. */
    const callback: Callbacks
    /** The size policy of evdd_noderesize: any larger size. */
    const largerSize: nat -> nat

    var nodes: seq<EvddNode>
    var buckets: seq<seq<nat>>
    var freelist: seq<nat>
    var refstack: seq<nat>
    var cache: seq<Entry>
    var generation: nat

    ghost var dd: Trees
    ghost var ext: set<nat>

    ghost function Now(): Table
      reads this, values`rows
    {
      Table(nodes, buckets, freelist, dd, ext, values.rows)
    }

    ghost predicate StackOk()
      reads this`refstack, this`dd
    {
      forall r {:trigger r in refstack} :: r in refstack ==> r in dd
    }

    ghost predicate Statics() {
      SlotInRange(slot) && Threads.Grows(largerSize) && SquareRoot(strat)
    }

    ghost predicate Ok()
      reads this, values
    {
      && Sound(Now(), hash) && StackOk() && Ready(values) && Statics()
      && CacheOk(cache, generation, dd, values.rows, strat, callback)
    }

    ghost predicate Alive(n: nat)
      reads this
    {
      Live(dd, ext, refstack, n)
    }

    /** evdd_init over a fresh value table. */
    constructor (size: nat, cachesize: nat, values: Values<real>, strat: Strategy, hash: Hash, slot: Slot, callback: Callbacks, largerSize: nat -> nat)
      requires 2 <= size && 0 < cachesize && Ready(values) && InRange(hash) && SlotInRange(slot) && Threads.Grows(largerSize) && SquareRoot(strat)
      ensures Ok() && dd == map[0 := One] && ext == {} && refstack == []
      ensures this.values == values && this.strat == strat && this.hash == hash && this.callback == callback
    {
      this.values, this.strat, this.hash, this.slot, this.callback, this.largerSize := values, strat, hash, slot, callback, largerSize;
      nodes := [EvddNode(EVDD_MAXLEVEL, 0, 0, 0, 0, EVDD_MAXREF, false)] + seq(size - 1, _ => FREE_NODE);
      buckets := seq(size, _ => []);
      freelist := seq(size - 1, i requires 0 <= i => i + 1);
      refstack := [];
      cache := seq(cachesize, _ => Entry(0, 0, 0, 0, OpMul, 0, 0, 0));
      generation := 1;
      dd, ext := map[0 := One], {};
      new;
      ReadyExact(values);
      InitialFree(size, freelist);
    }

    static lemma InitialFree(size: nat, freelist: seq<nat>)
      requires 2 <= size && |freelist| == size - 1 && forall i {:trigger freelist[i]} :: 0 <= i < |freelist| ==> freelist[i] == i + 1
      ensures FreeListed(size, map[0 := One], freelist, 1)
    {
      forall n ensures n in freelist <==> 1 <= n < size && n != 0 && n !in map[0 := One] {
        if 1 <= n < size { assert freelist[n - 1] == n; }
      }
    }

    /** EVDD_PUSHREF */
    method Push(n: nat)
      requires Ok() && n in dd
      modifies this`refstack
      ensures Ok() && refstack == old(refstack) + [n] && Alive(n)
      ensures forall m: nat {:trigger Alive(m)} :: old(Alive(m)) ==> Alive(m)
    {
      hide Sound, Ready, CacheOk, Statics;
      refstack := refstack + [n];
      assert Root(ext, refstack, n);
      forall m: nat | Live(dd, ext, old(refstack), m) ensures Live(dd, ext, refstack, m) {
        LiveMore(dd, ext, old(refstack), refstack, m);
      }
    }

    /** EVDD_POPREF */
    method Pop(k: nat)
      requires Ok() && k <= |refstack|
      modifies this`refstack
      ensures Ok() && refstack == old(refstack)[..|old(refstack)| - k]
    {
      hide Sound, Ready, CacheOk, Statics;
      assert forall r {:trigger r in refstack[..|refstack| - k]} :: r in refstack[..|refstack| - k] ==> r in refstack;
      refstack := refstack[..|refstack| - k];
    }

    /* ---- garbage collection ---- */

    /** evdd_mark */
    method Mark(i: nat)
      requires Canon(dd) && Recorded(nodes, values.rows, dd) && i in dd
      modifies this`nodes
      ensures Spread(old(nodes), dd, nodes, i)
      ensures i == 0 ==> nodes == old(nodes)
      decreases dd[i]
    {
      hide SameButMarks, Canon, Known, Weight;
      if i == 0 {
        SpreadNothing(nodes, dd, i);
        return;
      }
      assert Fits(nodes, values.rows, dd, i);
      if nodes[i].mark || nodes[i].low == -1 {
        SpreadNothing(nodes, dd, i);
        return;
      }
      ghost var nodes0 := nodes;
      nodes := nodes[i := nodes[i].(mark := true)];
      ghost var nodes1 := nodes;
      MarkStep(nodes0, i);
      Mark(nodes[i].low);
      ghost var nodes2 := nodes;
      MarkAgain(nodes1, nodes1[i].low, i);
      Mark(nodes[i].high);
      SpreadNode(nodes0, values.rows, dd, i, nodes1, nodes2, nodes);
    }

    lemma MarkStep(nodes0: seq<EvddNode>, i: nat)
      requires Recorded(nodes0, values.rows, dd) && i < |nodes0| && nodes == nodes0[i := nodes0[i].(mark := true)]
      ensures Recorded(nodes, values.rows, dd)
    {
      MarkedRecorded(nodes0, values.rows, dd, nodes);
    }

    lemma MarkAgain(nodes1: seq<EvddNode>, j: nat, i: nat)
      requires Recorded(nodes1, values.rows, dd) && Spread(nodes1, dd, nodes, j) && i < |nodes1|
      ensures Recorded(nodes, values.rows, dd) && i < |nodes| && nodes[i].low == nodes1[i].low && nodes[i].high == nodes1[i].high
    {
      MarkedRecorded(nodes1, values.rows, dd, nodes);
      assert nodes[i] == nodes1[i].(mark := nodes[i].mark);
    }

    /** What marking from the roots keeps true. */
    ghost predicate MarkLoop(nodes0: seq<EvddNode>)
      reads this, values`rows
    {
      SameButMarks(nodes0, nodes) && Recorded(nodes, values.rows, dd) && Reached(nodes, dd, ext, refstack)
    }

    lemma MarkLoopStart()
      requires Sound(Now(), hash)
      ensures MarkLoop(nodes)
    {
    }

    lemma MarkLoopStep(nodes0: seq<EvddNode>, nodes1: seq<EvddNode>, i: nat)
      requires SameButMarks(nodes0, nodes1) && Recorded(nodes1, values.rows, dd) && Reached(nodes1, dd, ext, refstack)
      requires Spread(nodes1, dd, nodes, i) && (i == 0 || Root(ext, refstack, i)) && (i == 0 ==> nodes == nodes1)
      ensures MarkLoop(nodes0) && Marked(nodes, i)
      ensures forall r {:trigger Marked(nodes, r)} :: Marked(nodes1, r) ==> Marked(nodes, r)
    {
      ReachRoot(nodes1, dd, ext, refstack, i, nodes);
      MarkedRecorded(nodes1, values.rows, dd, nodes);
      hide Reached, Recorded;
      forall r | Marked(nodes1, r) ensures Marked(nodes, r) {
        if r != 0 { assert nodes[r].mark; }
      }
      forall k | 0 <= k < |nodes0| ensures nodes[k] == nodes0[k].(mark := nodes[k].mark) {
        assert nodes1[k] == nodes0[k].(mark := nodes1[k].mark);
      }
    }

    /** The marking half of evdd_gbc. */
    method MarkRoots()
      requires Sound(Now(), hash) && StackOk()
      modifies this`nodes
      ensures MarkLoop(old(nodes)) && RootsMarked(nodes, ext, refstack)
    {
      hide Canon, Recorded, Reached, SameButMarks, Chained, FreeListed, Fits, Live, Spread;
      ghost var t := Now();
      MarkLoopStart();
      var n := 0;
      while n < |nodes|
        invariant n <= |nodes| == |t.nodes| && MarkLoop(t.nodes)
        invariant forall r {:trigger Marked(nodes, r)} :: r in ext && r < n ==> Marked(nodes, r)
      {
        ghost var nodes1 := nodes;
        MarkLoopRef(t, n);
        if nodes[n].refcou > 0 {
          Mark(n);
          MarkLoopStep(t.nodes, nodes1, n);
          SameLength(t.nodes);
        }
        n := n + 1;
      }
      RefsMarked(t, n);
      var k := 0;
      while k < |refstack|
        invariant k <= |refstack| && MarkLoop(t.nodes)
        invariant forall r {:trigger Marked(nodes, r)} :: r in ext ==> Marked(nodes, r)
        invariant forall r {:trigger Marked(nodes, r)} :: r in refstack[..k] ==> Marked(nodes, r)
      {
        ghost var nodes1 := nodes;
        assert refstack[k] in refstack;
        Mark(refstack[k]);
        StackRoot(k);
        MarkLoopStep(t.nodes, nodes1, refstack[k]);
        assert refstack[..k + 1] == refstack[..k] + [refstack[k]];
        k := k + 1;
      }
      assert refstack[..k] == refstack;
    }

    lemma StackRoot(k: nat)
      requires k < |refstack|
      ensures Root(ext, refstack, refstack[k])
    {
    }

    lemma SameLength(nodes0: seq<EvddNode>)
      requires MarkLoop(nodes0)
      ensures |nodes| == |nodes0|
    {
    }

    lemma MarkLoopRef(t: Table, n: nat)
      requires Sound(t, hash) && t.dd == dd && t.ext == ext && MarkLoop(t.nodes) && n < |nodes|
      ensures |nodes| == |t.nodes| && Canon(dd) && (n in ext ==> 0 < nodes[n].refcou)
      ensures 0 < nodes[n].refcou ==> n in dd && (n == 0 || Root(ext, refstack, n))
    {
      assert nodes[n] == t.nodes[n].(mark := nodes[n].mark);
    }

    lemma RefsMarked(t: Table, n: nat)
      requires Sound(t, hash) && t.ext == ext && t.dd == dd && n == |t.nodes|
      requires forall r {:trigger Marked(nodes, r)} :: r in ext && r < n ==> Marked(nodes, r)
      ensures forall r {:trigger Marked(nodes, r)} :: r in ext ==> Marked(nodes, r)
      ensures Canon(dd)
    {
    }

    /** evdd_gbc: exactly the live nodes stay, and no cache entry survives. */
    method Gbc()
      requires Ok()
      modifies this`nodes, this`buckets, this`freelist, this`cache, this`generation, this`dd
      ensures Ok() && dd == LiveTrees(old(dd), ext, refstack) && |nodes| == |old(nodes)|
      ensures NoEntries(cache, generation) && SameCounts(old(nodes), ext, nodes)
    {
      hide SameCounts, Sound, Ready, CacheOk, Statics, Live, LiveTrees, Reached, SameButMarks, RootsMarked, Sweeping, Recorded, Keepable, KeepsMarked, InRange, ExactIds, MarkLoop;
      ghost var t := Now();
      MarkRoots();
      ghost var m := nodes;
      MarkLoopSame(t.nodes);
      GbcMarked(t, m);
      dd := LiveTrees(dd, ext, refstack);
      buckets := seq(|nodes|, _ => []);
      freelist := [];
      SweepStart(m, dd, hash);
      SweepNodes(m);
      Swept(m, values.rows, dd, hash, ext, nodes, buckets, freelist);
      SweptLength(m);
      SweptCounts(t.nodes, m);
      CacheReset(cache, generation, t.dd, values.rows, strat, callback, dd, values.rows);
      generation := generation + 1;
      StackKept(t);
    }

    lemma MarkLoopSame(was: seq<EvddNode>)
      requires MarkLoop(was)
      ensures SameButMarks(was, nodes)
    {
      hide SameButMarks, Recorded, Reached;
    }

    lemma {:induction false} SweptCounts(was: seq<EvddNode>, m: seq<EvddNode>)
      requires Sweeping(m, dd, hash, nodes, buckets, freelist, 1) && Keepable(m, values.rows, dd, ext) && SameButMarks(was, m)
      ensures SameCounts(was, ext, nodes)
    {
      hide Chained, FreeListed, Canon, Fits, Recorded;
    }

    lemma SweptLength(m: seq<EvddNode>)
      requires Sweeping(m, dd, hash, nodes, buckets, freelist, 1)
      ensures |nodes| == |m|
    {
    }

    lemma GbcMarked(t: Table, m: seq<EvddNode>)
      requires Sound(t, hash) && nodes == m && t.dd == dd && t.ext == ext && t.rows == values.rows && MarkLoop(t.nodes) && RootsMarked(m, ext, refstack)
      ensures InRange(hash) && ExactIds(values.rows) && |m| == |t.nodes| && 1 <= |m|
      ensures Keepable(m, values.rows, LiveTrees(dd, ext, refstack), ext) && KeepsMarked(m, LiveTrees(dd, ext, refstack))
    {
      hide Live, Canon, Fits, Known, Weight, LiveTrees, Keepable, KeepsMarked;
      MarkedKept(t, hash, refstack, m);
    }

    lemma StackKept(t: Table)
      requires t.ext == ext && dd == LiveTrees(t.dd, ext, refstack)
      requires forall r {:trigger r in refstack} :: r in refstack ==> r in t.dd
      ensures StackOk()
    {
      forall r | r in refstack ensures r in dd {
        assert Root(ext, refstack, r) && Part(t.dd[r], t.dd[r]);
        assert Live(t.dd, ext, refstack, r);
      }
    }

    /** The sweep of evdd_gbc, from the last slot down. */
    method SweepNodes(ghost m: seq<EvddNode>)
      requires Sweeping(m, dd, hash, nodes, buckets, freelist, |m|) && InRange(hash)
      requires KeepsMarked(m, dd)
      modifies this`nodes, this`buckets, this`freelist
      ensures Sweeping(m, dd, hash, nodes, buckets, freelist, 1)
    {
      hide Chained, FreeListed;
      var n := |nodes| - 1;
      while n >= 1
        invariant 0 <= n < |m| == |nodes| && Sweeping(m, dd, hash, nodes, buckets, freelist, n + 1)
      {
        assert nodes[n] == m[n];
        if nodes[n].mark && nodes[n].low != -1 {
          SweepKeep(m, dd, hash, nodes, buckets, freelist, n);
          nodes := nodes[n := nodes[n].(mark := false)];
          var b := HashOf(nodes, hash, n);
          buckets := buckets[b := [n] + buckets[b]];
        } else {
          SweepDrop(m, dd, hash, nodes, buckets, freelist, n);
          nodes := nodes[n := FREE_NODE];
          freelist := [n] + freelist;
        }
        n := n - 1;
      }
    }

    /* ---- the value collection ---- */

    /** The marking loop of evdd_value_gbc: the weights of every allocated node. */
    method MarkWeights()
      requires Ok()
      modifies values`rows
      ensures values.Valid() && Exact(values) && WeightsMarked(old(values.rows), values.rows, |nodes|)
    {
      hide Sound, CacheOk, Statics, Values.Valid, Exact, Fits, WeightsMarked, HeldBelow;
      ghost var t, rows0 := Now(), values.rows;
      TableSize();
      var n := 1;
      while n < |nodes|
        invariant 1 <= n <= |nodes|
        invariant values.Valid() && Exact(values) && WeightsMarked(rows0, values.rows, n)
      {
        SlotUse(t, n);
        if nodes[n].low != -1 {
          ghost var rows1 := values.rows;
          values.Mark(nodes[n].wlow);
          ghost var rows2 := values.rows;
          values.Mark(nodes[n].whigh);
          MarkTwo(rows0, rows1, rows2, n);
        } else {
          MarkNone(rows0, n);
        }
        n := n + 1;
      }
    }

    /** A node below n holds the weight id. */
    ghost predicate HeldBelow(id: nat, n: nat)
      reads this`nodes, this`dd
    {
      exists k {:trigger k in dd} :: k in dd && 0 < k < |nodes| && k < n && (nodes[k].wlow == id || nodes[k].whigh == id)
    }

    /** The marks are on the weights of the nodes below n. */
    ghost predicate WeightsMarked(rows0: Rows, rows: Rows, n: nat)
      reads this`nodes, this`dd
    {
      && |rows| == |rows0|
      && forall id {:trigger rows[id]} :: 0 <= id < |rows0| ==>
           rows[id] == rows0[id].(mark := id != 0 && rows0[id].payload.Some? && HeldBelow(id, n))
    }

    lemma TableSize()
      requires Sound(Now(), hash) && Ready(values)
      ensures 1 <= |nodes| && 0 in dd && WeightsMarked(values.rows, values.rows, 1)
    {
      hide Chained, FreeListed, Values.Valid, Exact, Referenced;
    }

    lemma SlotUse(t: Table, n: nat)
      requires Sound(t, hash) && t.nodes == nodes && t.dd == dd && 0 < n < |nodes|
      ensures n in dd <==> nodes[n].low != -1
    {
      hide Chained, FreeListed, Canon;
      assert n in dd ==> Fits(nodes, t.rows, dd, n);
    }

    lemma MarkNone(rows0: Rows, n: nat)
      requires WeightsMarked(rows0, values.rows, n) && n < |nodes| && n !in dd
      ensures WeightsMarked(rows0, values.rows, n + 1)
    {
      forall id ensures HeldBelow(id, n + 1) == HeldBelow(id, n) {
      }
    }

    lemma MarkTwo(rows0: Rows, rows1: Rows, rows2: Rows, n: nat)
      requires WeightsMarked(rows0, rows1, n) && 0 < n < |nodes| && n in dd
      requires rows2 == MarkedRow(rows1, nodes[n].wlow) && values.rows == MarkedRow(rows2, nodes[n].whigh)
      ensures WeightsMarked(rows0, values.rows, n + 1)
    {
      forall id ensures HeldBelow(id, n + 1) <==> HeldBelow(id, n) || id == nodes[n].wlow || id == nodes[n].whigh {
      }
      hide HeldBelow;
      forall id | 0 <= id < |rows0|
        ensures values.rows[id] == rows0[id].(mark := id != 0 && rows0[id].payload.Some? && HeldBelow(id, n + 1))
      {
        assert rows1[id] == rows0[id].(mark := id != 0 && rows0[id].payload.Some? && HeldBelow(id, n));
      }
    }

    static function MarkedRow(rows: Rows, id: nat): Rows {
      if id != 0 && id < |rows| && rows[id].payload.Some? then rows[id := rows[id].(mark := true)] else rows
    }

    /**
      evdd_value_gbc: refused while an operation holds nodes. Otherwise first
      the dead nodes go, then exactly the weights that neither a remaining
      node nor a reference holds.
    */
    method ValueGbc() returns (refused: bool, freed: int)
      requires Ok()
      modifies this`nodes, this`buckets, this`freelist, this`cache, this`generation, this`dd, values
      ensures Ok() && refstack == old(refstack) && refused == (refstack != [])
      ensures refused ==> Now() == old(Now())
      ensures !refused ==> dd == LiveTrees(old(dd), ext, []) && WeightsSwept(nodes, dd, old(values.rows), values.rows)
      ensures freed == if refused then BDD_OP else old(values.used) - values.used
    {
      hide Sound, Ready, CacheOk, Statics, LiveTrees, WeightsSwept, WeightsMarked, Values.Valid, Exact;
      if |refstack| > 0 {
        return true, BDD_OP;
      }
      refused := false;
      Gbc();
      freed := SweepValues();
    }

    /** The second half of evdd_value_gbc. */
    method SweepValues() returns (freed: int)
      requires Ok() && NoEntries(cache, generation)
      modifies values
      ensures Ok() && WeightsSwept(nodes, dd, old(values.rows), values.rows) && freed == old(values.used) - values.used
    {
      hide Sound, CacheOk, Statics, WeightsSwept, WeightsMarked, Values.Valid, Exact, Unmarked, NoEntries;
      ghost var t := Now();
      MarkWeights();
      ghost var rows1 := values.rows;
      freed := values.Sweep();
      SweptRows(t.rows, rows1);
      NoEntriesOk(cache, generation, dd, values.rows, strat, callback);
      AfterSweep(t);
    }

    lemma SweptRows(rows0: Rows, rows1: Rows)
      requires Unmarked(rows0) && WeightsMarked(rows0, rows1, |nodes|) && |values.rows| == |rows1|
      requires forall i {:trigger values.rows[i]} :: 0 <= i < |rows1| ==> values.rows[i] == values.SweptRow(rows1[i])
      ensures WeightsSwept(nodes, dd, rows0, values.rows) && Unmarked(values.rows)
      ensures forall id {:trigger values.rows[id]} :: 0 <= id < |values.rows| && values.rows[id].payload.Some? ==> rows0[id].payload.Some?
    {
      var rows := values.rows;
      forall id: nat ensures HeldBelow(id, |nodes|) <==> Held(nodes, dd, id) {
      }
      hide HeldBelow, Held;
      forall id | 0 <= id < |rows|
        ensures !rows[id].mark && (rows[id].payload.Some? ==> rows0[id].payload.Some?)
        ensures 0 < id && rows0[id].payload.Some? ==>
                if 0 < rows0[id].refcou || Held(nodes, dd, id) then rows[id] == rows0[id] else rows[id].payload.None?
      {
        assert rows1[id] == rows0[id].(mark := id != 0 && rows0[id].payload.Some? && HeldBelow(id, |nodes|));
      }
    }

    lemma AfterSweep(t: Table)
      requires Sound(t, hash) && StackOk() && values.Valid() && Exact(values) && Statics() && CacheOk(cache, generation, dd, values.rows, strat, callback)
      requires t == Now().(rows := t.rows) && WeightsSwept(nodes, dd, t.rows, values.rows) && Unmarked(values.rows)
      requires forall id {:trigger values.rows[id]} :: 0 <= id < |values.rows| && values.rows[id].payload.Some? ==> t.rows[id].payload.Some?
      ensures Ok()
    {
      hide Sound, CacheOk, Values.Valid, Exact, Statics;
      SweptWeightsSound(t, hash, values.rows);
    }

    /* ---- references ---- */

    /** evdd_addref: the node and its weight, so that both survive both collections. */
    method AddRef(n: nat, w: nat) returns (ok: bool)
      requires Ok()
      modifies this`nodes, this`ext, values`rows
      ensures Ok() && SameWeights(old(values.rows), values.rows) && dd == old(dd)
      ensures ok == (n in dd && Known(old(values.rows), w))
      ensures n in dd && n != 0 ==> ext == old(ext) + {n}
      ensures n !in dd || n == 0 ==> ext == old(ext)
      ensures n in dd ==> n < |old(nodes)|
      ensures n in dd && n != 0 && old(nodes)[n].refcou < EVDD_MAXREF ==>
                nodes == old(nodes)[n := old(nodes)[n].(refcou := old(nodes)[n].refcou + 1)]
      ensures n !in dd || n == 0 || old(nodes)[n].refcou >= EVDD_MAXREF ==> nodes == old(nodes)
      ensures ok && w != 0 ==> Known(values.rows, w) && values.rows[w].refcou == old(values.rows)[w].refcou + 1
    {
      hide Sound, CacheOk, Statics, Values.Valid, Exact, SameWeights;
      ghost var t := Now();
      ok := true;
      TableSize();
      if n != 0 {
        if n >= |nodes| {
          NotAt(n);
          SameWeightsSame(values.rows);
          return false;
        }
        SlotUse(t, n);
        if nodes[n].low == -1 {
          SameWeightsSame(values.rows);
          return false;
        }
        RefSound(t, n, if nodes[n].refcou < EVDD_MAXREF then nodes[n].refcou + 1 else nodes[n].refcou);
        if nodes[n].refcou < EVDD_MAXREF {
          nodes := nodes[n := nodes[n].(refcou := nodes[n].refcou + 1)];
        }
        assert nodes[n := nodes[n].(refcou := nodes[n].refcou)] == nodes;
        ext := ext + {n};
      }
      ghost var rows := values.rows;
      ok := values.AddRef(w);
      CountsOnly(Now().(rows := rows));
    }

    /** evdd_delref: at a count of one the reference to the node is gone; a saturated count stays. */
    method DelRef(n: nat, w: nat) returns (ok: bool)
      requires Ok()
      modifies this`nodes, this`ext, values`rows
      ensures Ok() && SameWeights(old(values.rows), values.rows) && dd == old(dd)
      ensures ok == (n in dd && Known(old(values.rows), w))
      ensures ext == if n in dd && n != 0 && n < |old(nodes)| && old(nodes)[n].refcou == 1 then old(ext) - {n} else old(ext)
      ensures n in dd ==> n < |old(nodes)|
      ensures n in dd && n != 0 && 0 < old(nodes)[n].refcou && old(nodes)[n].refcou != EVDD_MAXREF ==>
                nodes == old(nodes)[n := old(nodes)[n].(refcou := old(nodes)[n].refcou - 1)]
      ensures n !in dd || n == 0 || old(nodes)[n].refcou == 0 || old(nodes)[n].refcou == EVDD_MAXREF ==> nodes == old(nodes)
      ensures ok && w != 0 && old(values.rows)[w].refcou > 0 ==> Known(values.rows, w) && values.rows[w].refcou == old(values.rows)[w].refcou - 1
    {
      hide Sound, CacheOk, Statics, Values.Valid, Exact, SameWeights;
      ghost var t := Now();
      ok := true;
      TableSize();
      if n != 0 {
        if n >= |nodes| {
          NotAt(n);
          SameWeightsSame(values.rows);
          return false;
        }
        SlotUse(t, n);
        if nodes[n].low == -1 {
          SameWeightsSame(values.rows);
          return false;
        }
        RefSound(t, n, if nodes[n].refcou != EVDD_MAXREF && nodes[n].refcou > 0 then nodes[n].refcou - 1 else nodes[n].refcou);
        SlotRef(t, n);
        if nodes[n].refcou == 1 {
          ext := ext - {n};
        }
        if nodes[n].refcou != EVDD_MAXREF && nodes[n].refcou > 0 {
          nodes := nodes[n := nodes[n].(refcou := nodes[n].refcou - 1)];
        }
        assert nodes == t.nodes[n := t.nodes[n].(refcou := nodes[n].refcou)];
        assert ext == if nodes[n].refcou > 0 then t.ext + {n} else t.ext - {n};
      }
      ghost var rows := values.rows;
      ok := values.DelRef(w);
      CountsOnly(Now().(rows := rows));
    }

    lemma SameWeightsSame(rows: Rows)
      ensures SameWeights(rows, rows)
    {
    }

    lemma NotAt(n: nat)
      requires Sound(Now(), hash) && n >= |nodes|
      ensures n !in dd
    {
      hide Chained, FreeListed, Canon;
    }

    lemma RefCounted(n: nat)
      requires Ok() && 0 < n < |nodes|
      ensures n in ext <==> 0 < nodes[n].refcou
    {
      hide CacheOk, Ready, Statics, Sound;
      SlotRef(Now(), n);
    }

    lemma SlotRef(t: Table, n: nat)
      requires Sound(t, hash) && 0 < n < |t.nodes|
      ensures n in t.ext <==> 0 < t.nodes[n].refcou
    {
      hide Chained, FreeListed, Canon, Recorded;
    }

    /** A new count for a node that is in use. */
    lemma RefSound(t: Table, n: nat, c: nat)
      requires Sound(t, hash) && 0 < n < |t.nodes| && n in t.dd
      ensures Sound(t.(nodes := t.nodes[n := t.nodes[n].(refcou := c)], ext := if c > 0 then t.ext + {n} else t.ext - {n}), hash)
    {
      var nodes' := t.nodes[n := t.nodes[n].(refcou := c)];
      SameKeys(t, nodes');
      RefRecorded(t.nodes, t.rows, t.dd, t.ext, n, c);
      hide Chained, FreeListed, Canon, Recorded, Referenced, ExactIds;
    }

    static lemma RefRecorded(nodes: seq<EvddNode>, rows: Rows, dd: Trees, ext: set<nat>, n: nat, c: nat)
      requires Recorded(nodes, rows, dd) && Referenced(nodes, dd, ext) && 0 < n < |nodes| && n in dd && NoMarks(nodes)
      ensures var nodes', ext' := nodes[n := nodes[n].(refcou := c)], if c > 0 then ext + {n} else ext - {n};
              Recorded(nodes', rows, dd) && Referenced(nodes', dd, ext') && NoMarks(nodes')
    {
      hide Fits;
      forall k | k in dd && k != 0 ensures Fits(nodes[n := nodes[n].(refcou := c)], rows, dd, k) {
        RefFits(nodes, rows, dd, n, c, k);
      }
    }

    static lemma RefFits(nodes: seq<EvddNode>, rows: Rows, dd: Trees, n: nat, c: nat, k: nat)
      requires Fits(nodes, rows, dd, k) && n < |nodes|
      ensures Fits(nodes[n := nodes[n].(refcou := c)], rows, dd, k)
    {
      hide Known, Weight;
    }

    lemma SameKeys(t: Table, nodes': seq<EvddNode>)
      requires Sound(t, hash) && |nodes'| == |t.nodes|
      requires forall k {:trigger nodes'[k]} :: 0 <= k < |nodes'| ==> nodes'[k] == t.nodes[k].(refcou := nodes'[k].refcou)
      ensures Chained(nodes', hash, t.dd, t.buckets, 1)
    {
      hide FreeListed, Canon, Recorded, Referenced, ExactIds;
      forall k | 0 <= k < |nodes'| ensures HashOf(nodes', hash, k) == HashOf(t.nodes, hash, k) {
        assert nodes'[k] == t.nodes[k].(refcou := nodes'[k].refcou);
      }
    }

    /** Counting a weight changes nothing a node or the cache depends on. */
    lemma CountsOnly(t: Table)
      requires Sound(t, hash) && t == Now().(rows := t.rows) && StackOk() && Statics() && values.Valid() && Exact(values)
      requires Unmarked(t.rows) && CacheOk(cache, generation, dd, t.rows, strat, callback)
      requires |values.rows| == |t.rows|
      requires forall i {:trigger values.rows[i]} :: 0 <= i < |t.rows| ==> values.rows[i] == t.rows[i].(refcou := values.rows[i].refcou)
      ensures Ok() && SameWeights(t.rows, values.rows)
    {
      hide Values.Valid, Exact, Sound, CacheOk, Statics;
      forall i | 0 <= i < |values.rows| ensures !values.rows[i].mark {
        assert values.rows[i] == t.rows[i].(refcou := values.rows[i].refcou);
      }
      forall id: nat | Known(t.rows, id) ensures Known(values.rows, id) && Weight(values.rows, id) == Weight(t.rows, id) {
        if id != 0 { assert values.rows[id] == t.rows[id].(refcou := values.rows[id].refcou); }
      }
      ReadyExact(values);
      MoreWeights(t, hash, values.rows);
      CacheGrows(cache, generation, dd, t.rows, strat, callback, dd, values.rows);
    }

    /* ---- resizing ---- */

    /** evdd_rehash: every allocated node goes to the chain of its key. */
    method Rehash()
      requires InRange(hash) && 1 <= |nodes| == |buckets| && forall b {:trigger buckets[b]} :: 0 <= b < |buckets| ==> buckets[b] == []
      requires forall n {:trigger nodes[n]} :: 0 < n < |nodes| ==> (n in dd <==> nodes[n].low != -1)
      modifies this`buckets
      ensures Chained(nodes, hash, dd, buckets, 1)
    {
      hide Chained, InRange;
      var n := |nodes| - 1;
      EmptyChains(n + 1);
      while n >= 1
        invariant 0 <= n < |nodes| && Chained(nodes, hash, dd, buckets, n + 1)
      {
        if nodes[n].low != -1 {
          PushChained(nodes, hash, dd, buckets, n + 1, n, nodes, dd);
          var b := HashOf(nodes, hash, n);
          buckets := buckets[b := [n] + buckets[b]];
        } else {
          SkipChained(nodes, hash, dd, buckets, n, nodes);
        }
        n := n - 1;
      }
    }

    lemma EmptyChains(n: nat)
      requires n == |nodes| == |buckets| && forall b {:trigger buckets[b]} :: 0 <= b < |buckets| ==> buckets[b] == []
      ensures Chained(nodes, hash, dd, buckets, n)
    {
    }

    /** evdd_noderesize: a larger table with every node where it was. */
    method NodeResize()
      requires Ok()
      modifies this`nodes, this`buckets, this`freelist
      ensures Ok() && |old(nodes)| < |nodes| && freelist != [] && SameCounts(old(nodes), ext, nodes)
    {
      hide Sound, CacheOk, Ready, Chained, InRange;
      ghost var t := Now();
      var oldsize := |nodes|;
      var extra := largerSize(oldsize) - oldsize;
      nodes := nodes + seq(extra, _ => FREE_NODE);
      freelist := seq(extra, i requires 0 <= i => oldsize + i) + freelist;
      buckets := seq(|nodes|, _ => []);
      GrownSlots(t, extra);
      Rehash();
      GrownSound(t, extra);
    }

    lemma GrownSlots(t: Table, extra: nat)
      requires Sound(t, hash) && t.dd == dd && nodes == t.nodes + seq(extra, _ => FREE_NODE)
      ensures InRange(hash) && 1 <= |nodes| && forall n {:trigger nodes[n]} :: 0 < n < |nodes| ==> (n in dd <==> nodes[n].low != -1)
    {
      hide Chained, FreeListed, Canon, Referenced;
      forall n | 0 < n < |nodes| ensures n in dd <==> nodes[n].low != -1 {
        assert n in dd ==> Fits(t.nodes, t.rows, t.dd, n);
        assert n < |t.nodes| ==> nodes[n] == t.nodes[n];
      }
    }

    lemma GrownSound(t: Table, extra: nat)
      requires Sound(t, hash) && t == Now().(nodes := t.nodes, buckets := t.buckets, freelist := t.freelist)
      requires nodes == t.nodes + seq(extra, _ => FREE_NODE) && freelist == seq(extra, i requires 0 <= i => |t.nodes| + i) + t.freelist
      requires Chained(nodes, hash, dd, buckets, 1)
      ensures Sound(Now(), hash)
    {
      GrownRecorded(t, extra);
      GrownFree(t, extra);
      hide Chained, FreeListed, Canon, Recorded, Referenced;
    }

    lemma GrownRecorded(t: Table, extra: nat)
      requires Recorded(t.nodes, t.rows, dd) && Referenced(t.nodes, dd, ext) && NoMarks(t.nodes) && t.rows == values.rows
      requires nodes == t.nodes + seq(extra, _ => FREE_NODE)
      ensures Recorded(nodes, values.rows, dd) && Referenced(nodes, dd, ext) && NoMarks(nodes)
    {
      hide Fits;
      forall n | n in dd && n != 0 ensures Fits(nodes, values.rows, dd, n) {
        GrownFits(t, extra, n);
      }
    }

    lemma GrownFits(t: Table, extra: nat, n: nat)
      requires Fits(t.nodes, t.rows, dd, n) && t.rows == values.rows && nodes == t.nodes + seq(extra, _ => FREE_NODE)
      ensures Fits(nodes, values.rows, dd, n)
    {
      hide Known, Weight;
    }

    lemma GrownFree(t: Table, extra: nat)
      requires FreeListed(|t.nodes|, dd, t.freelist, 1) && |nodes| == |t.nodes| + extra && 1 <= |t.nodes|
      requires freelist == seq(extra, i requires 0 <= i => |t.nodes| + i) + t.freelist
      requires forall n {:trigger n in dd} :: n in dd ==> n < |t.nodes|
      ensures FreeListed(|nodes|, dd, freelist, 1)
    {
      var fresh' := seq(extra, i requires 0 <= i => |t.nodes| + i);
      forall n ensures n in freelist <==> 1 <= n < |nodes| && n != 0 && n !in dd {
        assert n in freelist <==> n in fresh' || n in t.freelist;
        if |t.nodes| <= n < |nodes| { assert fresh'[n - |t.nodes|] == n; }
      }
      forall i, j | 0 <= i < j < |freelist| ensures freelist[i] != freelist[j] {
        assert j >= extra ==> freelist[j] in t.freelist;
        if i >= extra { assert t.freelist[i - extra] != t.freelist[j - extra]; }
      }
    }

    /* ---- makenode ---- */

    /** The chain walk of evdd_makenode_raw. */
    method Lookup(level: nat, low: nat, wl: nat, high: nat, wh: nat) returns (res: nat)
      requires Ok() && low in dd && high in dd && Known(values.rows, wl) && Known(values.rows, wh)
      ensures res != 0 ==> res in dd && dd[res] == Node(level, Weight(values.rows, wl), dd[low], Weight(values.rows, wh), dd[high])
      ensures res == 0 ==> Missing(dd, Node(level, Weight(values.rows, wl), dd[low], Weight(values.rows, wh), dd[high]))
    {
      hide Sound, CacheOk, Ready, Statics, Known, Weight, Missing;
      BuildSize(Now(), hash);
      var b := hash(|nodes|, level, low, high, wl, wh);
      var i := 0;
      while i < |buckets[b]|
        invariant i <= |buckets[b]|
        invariant forall j {:trigger buckets[b][j]} :: 0 <= j < i ==> !KeyIs(buckets[b][j], level, low, wl, high, wh)
      {
        res := buckets[b][i];
        ChainNode(b, i);
        if nodes[res].level == level && nodes[res].low == low && nodes[res].high == high && nodes[res].wlow == wl && nodes[res].whigh == wh {
          return;
        }
        i := i + 1;
      }
      NotInTable(level, low, wl, high, wh, b);
      return 0;
    }

    predicate KeyIs(n: nat, level: nat, low: nat, wl: nat, high: nat, wh: nat)
      reads this`nodes
    {
      n < |nodes| && nodes[n].level == level && nodes[n].low == low && nodes[n].high == high && nodes[n].wlow == wl && nodes[n].whigh == wh
    }

    lemma ChainNode(b: nat, i: nat)
      requires Sound(Now(), hash) && b < |buckets| && i < |buckets[b]|
      ensures var n := buckets[b][i]; 0 < n < |nodes| && n in dd && Fits(nodes, values.rows, dd, n)
    {
      hide FreeListed, Canon, Referenced, ExactIds;
      assert buckets[b][i] in buckets[b];
    }

    lemma NotInTable(level: nat, low: nat, wl: nat, high: nat, wh: nat, b: nat)
      requires Sound(Now(), hash) && low in dd && high in dd && Known(values.rows, wl) && Known(values.rows, wh)
      requires b == hash(|nodes|, level, low, high, wl, wh) && b < |buckets|
      requires forall j {:trigger buckets[b][j]} :: 0 <= j < |buckets[b]| ==> !KeyIs(buckets[b][j], level, low, wl, high, wh)
      ensures Missing(dd, Node(level, Weight(values.rows, wl), dd[low], Weight(values.rows, wh), dd[high]))
    {
      forall n | n in dd ensures dd[n] != Node(level, Weight(values.rows, wl), dd[low], Weight(values.rows, wh), dd[high]) {
        if dd[n] == Node(level, Weight(values.rows, wl), dd[low], Weight(values.rows, wh), dd[high]) {
          SameKey(n, level, low, wl, high, wh);
          InChain(n);
        }
      }
    }

    /** Equal trees have equal keys. */
    lemma SameKey(n: nat, level: nat, low: nat, wl: nat, high: nat, wh: nat)
      requires Sound(Now(), hash) && n in dd && low in dd && high in dd && Known(values.rows, wl) && Known(values.rows, wh)
      requires dd[n] == Node(level, Weight(values.rows, wl), dd[low], Weight(values.rows, wh), dd[high])
      ensures n != 0 && KeyIs(n, level, low, wl, high, wh)
    {
      hide Chained, FreeListed, Known, Weight, Referenced;
      assert n != 0;
      assert Fits(nodes, values.rows, dd, n);
    }

    lemma InChain(n: nat)
      requires Sound(Now(), hash) && n in dd && n != 0
      ensures n < |nodes| && HashOf(nodes, hash, n) < |buckets|
      ensures exists j :: 0 <= j < |buckets[HashOf(nodes, hash, n)]| && buckets[HashOf(nodes, hash, n)][j] == n
    {
      hide FreeListed, Canon, Referenced, ExactIds, Fits;
    }

    /** An operation on the values alone leaves the table as it is. */
    lemma StillOk(t: Table)
      requires Sound(t, hash) && t == Now().(rows := t.rows) && StackOk() && Statics() && Ready(values)
      requires CacheOk(cache, generation, dd, t.rows, strat, callback) && KeepsWeights(t.rows, values.rows)
      ensures Ok() && Keeps(t, refstack, Now())
    {
      hide Sound, CacheOk, Ready, Statics, Live, SameWeights;
      ReadyExact(values);
      MoreWeights(t, hash, values.rows);
      KeepsMoreWeights(t, refstack, values.rows);
      CacheGrows(cache, generation, dd, t.rows, strat, callback, dd, values.rows);
    }

    /** evdd_value_unit_from_pair, in the middle of an operation. */
    method UnitFor(wl: nat, wh: nat) returns (w: nat)
      requires Ok() && Known(values.rows, wl) && Known(values.rows, wh)
      modifies values
      ensures Ok() && Keeps(old(Now()), refstack, Now()) && Known(values.rows, w)
      ensures Weight(values.rows, w) == UnitFromPair(old(Weight(values.rows, wl)), old(Weight(values.rows, wh)))
    {
      hide Sound, CacheOk, Ready, Statics, Known, Weight, Keeps, KeepsWeights;
      ghost var t := Now();
      ZeroId(values, wl);
      ZeroId(values, wh);
      w := UnitFromPairId(values, wl, wh);
      StillOk(t);
    }

    /** A free slot, after a collection or in a larger table if need be. */
    method FreeSlot(ghost d: Tree)
      requires Ok() && Missing(dd, d)
      modifies this`nodes, this`buckets, this`freelist, this`cache, this`generation, this`dd
      ensures Ok() && Keeps(old(Now()), refstack, Now()) && freelist != [] && Missing(dd, d)
    {
      hide Sound, CacheOk, Ready, Statics, Keeps, Missing, LiveTrees;
      ghost var t := Now();
      KeepsSame(t, refstack);
      if freelist == [] {
        Gbc();
        CollectKeeps(t, refstack, Now());
        MissingLess(t, d);
        if freelist == [] {
          ghost var t1 := Now();
          NodeResize();
          SameTrees(t, t1);
        }
      }
    }

    lemma MissingLess(t: Table, d: Tree)
      requires Missing(t.dd, d) && dd == LiveTrees(t.dd, ext, refstack)
      ensures Missing(dd, d)
    {
      hide Live;
    }

    lemma SameTrees(t: Table, t1: Table)
      requires Keeps(t, refstack, t1) && dd == t1.dd && ext == t1.ext && values.rows == t1.rows && SameCounts(t1.nodes, ext, nodes)
      ensures Keeps(t, refstack, Now())
    {
      hide Live;
    }

    /** The building half of evdd_makenode_raw. */
    method NewNode(level: nat, low: nat, wl: nat, high: nat, wh: nat) returns (n: nat)
      requires Ok() && Alive(low) && Alive(high) && Known(values.rows, wl) && Known(values.rows, wh)
      requires low in dd && Under(level, dd[low]) && high in dd && Under(level, dd[high])
      requires Missing(dd, Node(level, Weight(values.rows, wl), dd[low], Weight(values.rows, wh), dd[high]))
      modifies this`nodes, this`buckets, this`freelist, this`cache, this`generation, this`dd
      ensures Ok() && Keeps(old(Now()), refstack, Now()) && n in dd
      ensures dd[n] == Node(level, Weight(values.rows, wl), old(dd)[low], Weight(values.rows, wh), old(dd)[high])
    {
      hide Sound, CacheOk, Ready, Statics, Known, Weight, Missing, Live, Keeps, Ordered, Under;
      ghost var t := Now();
      ghost var d := Node(level, Weight(values.rows, wl), dd[low], Weight(values.rows, wh), dd[high]);
      FreeSlot(d);
      ghost var t1 := Now();
      KeepsLive(t, refstack, t1, low);
      KeepsLive(t, refstack, t1, high);
      FreeHead(t1, hash);
      BuildSound(t1, hash, level, low, high, wl, wh);
      var b := hash(|nodes|, level, low, high, wl, wh);
      n := freelist[0];
      nodes := nodes[n := EvddNode(level, low, high, wl, wh, 0, false)];
      buckets := buckets[b := [n] + buckets[b]];
      freelist := freelist[1..];
      dd := dd[n := d];
      BuiltCounts(t1, n, nodes[n]);
      AfterBuild(t, t1, n, d);
    }

    lemma {:induction false} BuiltCounts(t: Table, n: nat, e: EvddNode)
      requires Sound(t, hash) && n !in t.dd && n < |t.nodes| && nodes == t.nodes[n := e] && ext == t.ext
      ensures SameCounts(t.nodes, ext, nodes)
    {
      hide Chained, FreeListed, Canon, Recorded;
    }

    lemma AfterBuild(t: Table, t1: Table, n: nat, d: Tree)
      requires Keeps(t, refstack, t1) && n !in t1.dd && dd == t1.dd[n := d] && ext == t1.ext && values.rows == t1.rows && SameCounts(t1.nodes, ext, nodes)
      requires CacheOk(cache, generation, t1.dd, t1.rows, strat, callback) && forall r {:trigger r in refstack} :: r in refstack ==> r in t1.dd
      ensures Keeps(t, refstack, Now()) && StackOk() && CacheOk(cache, generation, dd, values.rows, strat, callback)
    {
      hide Live, CacheOk, Known, Weight;
      CacheGrows(cache, generation, t1.dd, t1.rows, strat, callback, dd, values.rows);
    }

    /** evdd_makenode_raw: the reduced node over two edges, found or built; both children are alive. */
    method MakeNodeRaw(level: nat, low: nat, wl: nat, high: nat, wh: nat) returns (n: nat, w: nat)
      requires Ok() && Alive(low) && Alive(high) && Known(values.rows, wl) && Known(values.rows, wh)
      requires low in dd && Under(level, dd[low]) && high in dd && Under(level, dd[high])
      modifies this`nodes, this`buckets, this`freelist, this`cache, this`generation, this`dd, values
      ensures Ok() && Keeps(old(Now()), refstack, Now()) && n in dd && Known(values.rows, w)
      ensures Denote(dd, values.rows, n, w) == MkRaw(level, old(Denote(dd, values.rows, low, wl)), old(Denote(dd, values.rows, high, wh)))
    {
      hide Sound, CacheOk, Ready, Statics, Known, Weight, Missing, Live, Keeps, Ordered, Under;
      ghost var t := Now();
      KeepsSame(t, refstack);
      SameIds(t, hash, low, wl, high, wh);
      if low == high && wl == wh {
        return low, wl;
      }
      n := Lookup(level, low, wl, high, wh);
      if n == 0 {
        n := NewNode(level, low, wl, high, wh);
      }
      ghost var t1 := Now();
      w := UnitFor(wl, wh);
      KeepsTrans(t, refstack, t1, refstack, Now());
    }

    /** evdd_value_normalize, in the middle of an operation. */
    method NormalizedPair(wl: nat, wh: nat) returns (r: NormIds)
      requires Ok() && Known(values.rows, wl) && Known(values.rows, wh)
      modifies values
      ensures Ok() && Keeps(old(Now()), refstack, Now()) && NormKnown(values.rows, r)
      ensures NormOf(values.rows, r) == Normalize(strat, old(Weight(values.rows, wl)), old(Weight(values.rows, wh)))
    {
      hide Sound, CacheOk, Ready, Statics, Known, Weight, Keeps, KeepsWeights, Normalize, NormKnown, NormOf;
      ghost var t := Now();
      r := NormalizeIds(values, strat, wl, wh);
      StillOk(t);
    }

    /** evdd_value_mul, in the middle of an operation. */
    method Product(a: nat, b: nat) returns (w: nat)
      requires Ok() && Known(values.rows, a) && Known(values.rows, b)
      modifies values
      ensures Ok() && Keeps(old(Now()), refstack, Now()) && Known(values.rows, w)
      ensures Weight(values.rows, w) == Mul(old(Weight(values.rows, a)), old(Weight(values.rows, b)))
    {
      hide Sound, CacheOk, Ready, Statics, Known, Weight, Keeps, KeepsWeights, Mul;
      ghost var t := Now();
      w := MulIds(values, a, b);
      StillOk(t);
    }

    lemma ZeroWeight(id: nat)
      requires Ok() && Known(values.rows, id)
      ensures IsZero(values.rows, id) <==> Weight(values.rows, id) == 0.0
      ensures Known(values.rows, 0) && Weight(values.rows, 0) == 0.0 && 0 in dd && dd[0] == One
    {
      hide Ready, CacheOk, Chained, FreeListed, Recorded, Referenced;
      ZeroId(values, id);
    }

    lemma WeightStays(t: Table, stack: seq<nat>, id: nat)
      requires Keeps(t, stack, Now()) && Known(t.rows, id)
      ensures Known(values.rows, id) && Weight(values.rows, id) == Weight(t.rows, id)
    {
    }

    /** evdd_makenode between its pushes and its pops. */
    method MakePushed(level: nat, low: nat, wl: nat, high: nat, wh: nat) returns (n: nat, w: nat)
      requires Ok() && Alive(low) && Alive(high) && Known(values.rows, wl) && Known(values.rows, wh)
      requires low in dd && Under(level, dd[low]) && high in dd && Under(level, dd[high])
      modifies this`nodes, this`buckets, this`freelist, this`cache, this`generation, this`dd, values
      ensures Ok() && Keeps(old(Now()), refstack, Now()) && n in dd && Known(values.rows, w)
      ensures Denote(dd, values.rows, n, w) == Mk(strat, level, old(Denote(dd, values.rows, low, wl)), old(Denote(dd, values.rows, high, wh)))
    {
      hide Ok, Known, Weight, Live, Keeps, Ordered, Under, Normalize, MkRaw, Mul;
      ghost var t := Now();
      var r := NormalizedPair(wl, wh);
      ghost var t1 := Now();
      DenoteStays(t, refstack, t1, low, wl);
      DenoteStays(t, refstack, t1, high, wh);
      ZeroWeight(r.incoming);
      if IsZero(values.rows, r.incoming) {
        return 0, 0;
      }
      n, w := MakeNodeRaw(level, low, r.wlow, high, r.whigh);
      ghost var t2 := Now();
      WeightStays(t1, refstack, r.incoming);
      KeepsTrans(t, refstack, t1, refstack, t2);
      w := Product(r.incoming, w);
      KeepsTrans(t, refstack, t2, refstack, Now());
    }

    /** evdd_makenode: the outgoing weights normalized first; a node of two zero edges is the false edge. */
    method MakeNode(level: nat, low: nat, wl: nat, high: nat, wh: nat) returns (n: nat, w: nat)
      requires Ok() && low in dd && high in dd && Known(values.rows, wl) && Known(values.rows, wh)
      requires Under(level, dd[low]) && Under(level, dd[high])
      modifies this`nodes, this`buckets, this`freelist, this`cache, this`generation, this`dd, this`refstack, values
      ensures Ok() && refstack == old(refstack) && Keeps(old(Now()), refstack, Now()) && n in dd && Known(values.rows, w)
      ensures Denote(dd, values.rows, n, w) == Mk(strat, level, old(Denote(dd, values.rows, low, wl)), old(Denote(dd, values.rows, high, wh)))
    {
      hide Ok, Known, Weight, Live, Keeps, Ordered, Under, Mk;
      ghost var t, stack := Now(), refstack;
      Push(low);
      Push(high);
      assert refstack[..|refstack| - 2] == stack;
      n, w := MakePushed(level, low, wl, high, wh);
      KeepsOuter(t, stack, refstack, Now());
      Pop(2);
    }
  }

  /** What is kept for a longer stack is kept for a shorter one. */
  lemma KeepsOuter(t: Table, stack: seq<nat>, stack': seq<nat>, t': Table)
    requires Keeps(t, stack', t') && Within(stack, stack')
    ensures Keeps(t, stack, t')
  {
    KeepsSame(t, stack);
    KeepsTrans(t, stack, t, stack', t');
  }

  /**
    An edge with both references, or with a weight some live node holds, means
    the same after both collections.
  */
  lemma EdgeSurvives(t: Table, t': Table, n: nat, w: nat)
    requires t'.dd == LiveTrees(t.dd, t.ext, []) && WeightsSwept(t'.nodes, t'.dd, t.rows, t'.rows)
    requires n in t.dd && (n == 0 || n in t.ext) && Known(t.rows, w)
    requires w == 0 || 0 < t.rows[w].refcou || Held(t'.nodes, t'.dd, w)
    ensures n in t'.dd && Known(t'.rows, w) && Denote(t'.dd, t'.rows, n, w) == Denote(t.dd, t.rows, n, w)
  {
    hide Held;
    assert n != 0 ==> Root(t.ext, [], n) && Part(t.dd[n], t.dd[n]);
    assert Live(t.dd, t.ext, [], n);
    if w != 0 { assert t'.rows[w] == t.rows[w]; }
  }

  /**
    Any run of references added (true) and taken back (false) on one edge: as
    long as the counter of the node neither saturates nor is taken below zero, it
    is the one it was with the first added and the second subtracted, and the
    node has a reference exactly as long as that is not zero.
  */
  method References(k: Evdd, n: nat, w: nat, run: seq<bool>)
    requires k.Ok() && n != 0 && n in k.dd && n < |k.nodes| && Known(k.values.rows, w)
    requires forall i {:trigger run[..i]} :: 0 <= i <= |run| ==>
               0 <= k.nodes[n].refcou + multiset(run[..i])[true] - multiset(run[..i])[false] < EVDD_MAXREF
    modifies k`nodes, k`ext, k.values`rows
    ensures k.Ok() && n in k.dd && n < |k.nodes| && Known(k.values.rows, w)
    ensures k.nodes[n].refcou == old(k.nodes[n].refcou) + multiset(run)[true] - multiset(run)[false]
    ensures n in k.ext <==> multiset(run)[false] < old(k.nodes[n].refcou) + multiset(run)[true]
  {
    hide Evdd.Ok, Weight;
    var i := 0;
    assert run[..0] == [];
    while i < |run|
      invariant i <= |run| && k.Ok() && n in k.dd && n < |k.nodes| && Known(k.values.rows, w)
      invariant k.nodes[n].refcou == old(k.nodes[n].refcou) + multiset(run[..i])[true] - multiset(run[..i])[false]
    {
      assert run[..i + 1] == run[..i] + [run[i]];
      if run[i] {
        var ok := k.AddRef(n, w);
      } else {
        var ok := k.DelRef(n, w);
      }
      i := i + 1;
    }
    assert run[..|run|] == run;
    k.RefCounted(n);
  }
}
