/**
  evdd_normalize: the memoised pass that turns a raw diagram into its
  canonical form, with collections running in between.
*/
module EvddNormalize {
  import opened Field
  import opened WeightNorm
  import opened Wdd
  import opened WddOps
  import opened ValueTable
  import opened EvddState
  import opened EvddCollect
  import opened EvddArith
  import opened EvddTable
  import opened EvddOps

  /** EvddNormMemo: the edge a node normalized to. */
  datatype Slot = Unset | Set(n: nat, w: nat)

  ghost predicate SlotOk(t: Table, stack: seq<nat>, s: Strategy, d: Tree, e: Slot) {
    e.Set? ==>
      && d.Node? && Live(t.dd, t.ext, stack, e.n) && Known(t.rows, e.w)
      && Denote(t.dd, t.rows, e.n, e.w) == NormNode(s, d)
  }

  /** Every memoised edge is alive and is the normal form of its node; dd0 are the trees the walk started from. */
  ghost predicate MemoOk(t: Table, stack: seq<nat>, s: Strategy, dd0: Trees, memo: seq<Slot>) {
    forall m {:trigger memo[m]} :: 0 <= m < |memo| && memo[m].Set? ==> m in dd0 && SlotOk(t, stack, s, dd0[m], memo[m])
  }

  lemma MemoStays(t: Table, stack: seq<nat>, s: Strategy, dd0: Trees, memo: seq<Slot>, t': Table)
    requires MemoOk(t, stack, s, dd0, memo) && Keeps(t, stack, t')
    ensures MemoOk(t', stack, s, dd0, memo)
  {
    hide Live, Known, Weight, Keeps, NormNode;
    forall m | 0 <= m < |memo| && memo[m].Set? ensures m in dd0 && SlotOk(t', stack, s, dd0[m], memo[m]) {
      Stays(t, stack, t', memo[m].n, memo[m].w);
    }
  }

  /** Whatever is alive for one stack is alive for the other. */
  ghost predicate Covers(t: Table, stack: seq<nat>, stack': seq<nat>) {
    forall n: nat {:trigger Live(t.dd, t.ext, stack', n)} :: Live(t.dd, t.ext, stack, n) ==> Live(t.dd, t.ext, stack', n)
  }

  lemma MemoCovered(t: Table, stack: seq<nat>, s: Strategy, dd0: Trees, memo: seq<Slot>, stack': seq<nat>)
    requires MemoOk(t, stack, s, dd0, memo) && Covers(t, stack, stack')
    ensures MemoOk(t, stack', s, dd0, memo)
  {
    hide Live, Known, Weight, NormNode;
    forall m | 0 <= m < |memo| && memo[m].Set? ensures m in dd0 && SlotOk(t, stack', s, dd0[m], memo[m]) {
      assert SlotOk(t, stack, s, dd0[m], memo[m]);
    }
  }

  lemma WithinCovers(t: Table, stack: seq<nat>, stack': seq<nat>)
    requires Within(stack, stack')
    ensures Covers(t, stack, stack')
  {
    forall n: nat | Live(t.dd, t.ext, stack, n) ensures Live(t.dd, t.ext, stack', n) {
      LiveMore(t.dd, t.ext, stack, stack', n);
    }
  }

  ghost predicate PartOrOne(a: Tree, b: Tree) { a.One? || Part(a, b) }

  /** When each root of the old stack is still a root, alive without it, a constant, or part of the new one's top, nothing dies. */
  lemma Rerooted(t: Table, stack: seq<nat>, stack': seq<nat>, out: nat)
    requires Canon(t.dd) && out in t.dd && out in stack'
    requires forall r {:trigger r in stack} :: r in stack ==>
               r in stack' || Live(t.dd, t.ext, stack', r) || (r in t.dd && PartOrOne(t.dd[r], t.dd[out]))
    ensures Covers(t, stack, stack')
  {
    forall n: nat | Live(t.dd, t.ext, stack, n) ensures Live(t.dd, t.ext, stack', n) {
      if n != 0 {
        var r :| Root(t.ext, stack, r) && r in t.dd && Part(t.dd[n], t.dd[r]);
        if r in t.ext || r in stack' {
          assert Root(t.ext, stack', r);
        } else if Live(t.dd, t.ext, stack', r) {
          PartLive(t, stack', r, n);
        } else {
          assert t.dd[r].One? ==> r == 0;
          PartTransitive(t.dd[n], t.dd[r], t.dd[out]);
          assert Root(t.ext, stack', out);
        }
      }
    }
  }

  lemma PartLive(t: Table, stack: seq<nat>, r: nat, n: nat)
    requires Canon(t.dd) && Live(t.dd, t.ext, stack, r) && n in t.dd && Part(t.dd[n], t.dd[r])
    ensures Live(t.dd, t.ext, stack, n)
  {
    if r == 0 {
      assert t.dd[n] == One;
    } else {
      var q :| Root(t.ext, stack, q) && q in t.dd && Part(t.dd[r], t.dd[q]);
      PartTransitive(t.dd[n], t.dd[r], t.dd[q]);
    }
  }

  /** A child of a built edge is constant or part of it, exactly unless it is a node and both weights are zero. */
  lemma MkContains(s: Strategy, l: nat, low: Edge, high: Edge)
    requires SquareRoot(s)
    ensures PartOrOne(high.node, Mk(s, l, low, high).node) <==> high.node.One? || !(low.w == 0.0 && high.w == 0.0)
    ensures PartOrOne(low.node, Mk(s, l, low, high).node) <==> low.node.One? || !(low.w == 0.0 && high.w == 0.0)
  {
    hide Mul, Normalize;
    NormalizeKeeps(s, low.w, high.w);
    assert Part(low.node, low.node) && Part(high.node, high.node);
  }

  /** The result for the high child of t is not part of the result for t: both folded weights are zero. */
  predicate Exposed(s: Strategy, t: Tree)
    requires t.Node?
  {
    var low, high := NormEdge(s, Edge(t.wlow, t.low)), NormEdge(s, Edge(t.whigh, t.high));
    high.node.Node? && low.w == 0.0 && high.w == 0.0
  }

  /** ... at no node. */
  predicate Shielded(s: Strategy, t: Tree) {
    t.Node? ==> !Exposed(s, t) && Shielded(s, t.low) && Shielded(s, t.high)
  }

  /** Exactly at an exposed node the pass takes the memoised high child off the stack and puts nothing on that contains it. */
  lemma ExposedExact(s: Strategy, t: Tree)
    requires SquareRoot(s) && t.Node?
    ensures Exposed(s, t) <==> !PartOrOne(NormEdge(s, Edge(t.whigh, t.high)).node, NormNode(s, t).node)
  {
    hide Mk, NormEdge;
    MkContains(s, t.level, NormEdge(s, Edge(t.wlow, t.low)), NormEdge(s, Edge(t.whigh, t.high)));
  }

  /** Where zero-weight edges point at the terminal no node is exposed. */
  lemma {:induction false} TidyShielded(s: Strategy, t: Tree)
    requires SquareRoot(s) && Ordered(t) && Tidy(t)
    ensures Shielded(s, t)
  {
    hide NormEdge, SquareRoot, Canonical;
    if t.Node? {
      TidyShielded(s, t.low);
      TidyShielded(s, t.high);
      NormCanonical(s, Edge(t.whigh, t.high), t.level + 1);
    }
  }

  /* A diagram with an exposed node: a zero edge to a node the pass replaces by its normal form. */
  const NORMAL: Tree := Node(1, 1.0, One, 2.0, One)
  const RAW: Tree := Node(1, 2.0, One, 4.0, One)
  const ZERO_OVER: Tree := Node(0, 0.0, One, 0.0, RAW)

  /** Node 1 is the normal form of node 2, which the input, node 3, reaches. */
  const EXPOSING: Trees := map[0 := One, 1 := NORMAL, 2 := RAW, 3 := ZERO_OVER]
  const WEIGHTS: Rows := [Row(None, 0, 0, 0, false), Row(Some(1.0), 1, 0, 0, false), Row(Some(2.0), 1, 0, 0, false), Row(Some(4.0), 1, 0, 0, false)]
  const NODES: seq<EvddNode> := [
    EvddNode(0, 0, 0, 0, 0, 0, false), EvddNode(1, 0, 0, 1, 2, 0, false), EvddNode(1, 0, 0, 2, 3, 0, false), EvddNode(0, 0, 2, 0, 0, 0, false)]

  /** The memo when node 3 is built: node 2 has been normalized to weight 2 on node 1. */
  const MEMO: seq<Slot> := [Unset, Unset, Set(1, 2), Unset]

  /**
    There the memo slot of node 2 is lost. The walk pins node 3 and pushes the
    low child (0), the result for node 2 (1), and that again as the high child;
    it pops two entries and pushes the result for node 3, which is 0. The slot
    says node 1, and node 1 is not alive any more: a collection takes it.
  */
  lemma {:induction false} SlotLost(buckets: seq<seq<nat>>, freelist: seq<nat>)
    ensures var t := Table(NODES, buckets, freelist, EXPOSING, {}, WEIGHTS);
            && Canon(t.dd) && Recorded(t.nodes, t.rows, t.dd)
            && Exposed(FirstNonzero, t.dd[3]) && NormNode(FirstNonzero, t.dd[3]) == FALSE_EDGE
            && MemoOk(t, [3, 0, 1, 1], FirstNonzero, EXPOSING, MEMO)
            && !MemoOk(t, [3, 0, 1, 1][..2] + [0], FirstNonzero, EXPOSING, MEMO)
            && 1 !in LiveTrees(t.dd, t.ext, [3, 0, 1, 1][..2] + [0])
  {
    hide Exposed, NormNode, Mul;
    RawNormal();
    ExposingParts();
    ExposingRecords();
    hide Canon, Recorded, Ordered;
    assert [3, 0, 1, 1][..2] + [0] == [3, 0, 0];
    assert Root({}, [3, 0, 1, 1], 1) && Part(EXPOSING[1], EXPOSING[1]);
    forall r: nat | Root({}, [3, 0, 0], r) && r in EXPOSING ensures !Part(EXPOSING[1], EXPOSING[r]) {
      assert r == 3 || r == 0;
    }
    assert !Live(EXPOSING, {}, [3, 0, 0], 1);
    assert MEMO[2].Set? && !SlotOk(Table(NODES, buckets, freelist, EXPOSING, {}, WEIGHTS), [3, 0, 0], FirstNonzero, EXPOSING[2], MEMO[2]);
  }

  lemma ExposingRecords()
    ensures Recorded(NODES, WEIGHTS, EXPOSING)
  {
    assert EXPOSING.Keys == {0, 1, 2, 3};
    assert Fits(NODES, WEIGHTS, EXPOSING, 1);
    assert Fits(NODES, WEIGHTS, EXPOSING, 2);
    assert Fits(NODES, WEIGHTS, EXPOSING, 3);
    hide Fits;
    forall n | n in EXPOSING ensures n < |NODES| && (n != 0 ==> Fits(NODES, WEIGHTS, EXPOSING, n)) {
      assert n == 0 || n == 1 || n == 2 || n == 3;
    }
  }

  lemma RawNormal()
    ensures NormNode(FirstNonzero, RAW) == Edge(2.0, NORMAL) && NormNode(FirstNonzero, ZERO_OVER) == FALSE_EDGE && Exposed(FirstNonzero, ZERO_OVER)
  {
    assert Normalize(FirstNonzero, 2.0, 4.0) == Norm(1.0, 2.0, 2.0);
    assert Mul(2.0, 1.0) == 2.0;
    assert NormNode(FirstNonzero, RAW) == Edge(2.0, NORMAL);
    assert NormEdge(FirstNonzero, Edge(0.0, RAW)) == Edge(0.0, NORMAL) by { MulZero(2.0); }
  }

  lemma ExposingParts()
    ensures Canon(EXPOSING) && !Part(NORMAL, ZERO_OVER) && !Part(NORMAL, One)
  {
    assert NORMAL != RAW && !Part(NORMAL, RAW);
    assert EXPOSING.Keys == {0, 1, 2, 3};
  }

  /** What holds throughout the walk; the input diagram is pinned by the stack it started with. */
  ghost predicate Walk(k: Evdd, t0: Table, stack0: seq<nat>, memo: seq<Slot>)
    reads k, k.values
  {
    && k.Ok() && Keeps(t0, stack0, k.Now()) && Within(stack0, k.refstack)
    && |memo| == |t0.nodes| && MemoOk(k.Now(), k.refstack, k.strat, t0.dd, memo)
  }

  /** The node is part of the diagram being normalized, and no node of that diagram is exposed. */
  ghost predicate Input(s: Strategy, t0: Table, stack0: seq<nat>, n: nat) {
    && Live(t0.dd, t0.ext, stack0, n) && n < |t0.nodes| && (n != 0 <==> t0.dd[n].Node?)
    && Ordered(t0.dd[n]) && Shielded(s, t0.dd[n])
  }

  /** The stack after a call: what was there, and on top of anything new the result. */
  ghost predicate StackAfter(stack: seq<nat>, stack': seq<nat>, n: nat) {
    && |stack| <= |stack'| && stack'[..|stack|] == stack
    && (stack' != stack ==> |stack| < |stack'| && stack'[|stack'| - 1] == n)
  }

  /** A node of the input is still what it was, and its children are nodes of the input. */
  lemma InputNode(k: Evdd, t0: Table, stack0: seq<nat>, memo: seq<Slot>, n: nat)
    requires Walk(k, t0, stack0, memo) && Sound(t0, k.hash) && Input(k.strat, t0, stack0, n)
    ensures n in k.dd && n in t0.dd && k.dd[n] == t0.dd[n] && n < |memo| && n < |k.nodes|
    ensures n != 0 ==>
              && t0.dd[n].Node? && Fits(k.nodes, k.values.rows, k.dd, n) && k.nodes[n].low in t0.dd && k.nodes[n].high in t0.dd
              && t0.dd[k.nodes[n].low] == t0.dd[n].low && t0.dd[k.nodes[n].high] == t0.dd[n].high
              && Input(k.strat, t0, stack0, k.nodes[n].low) && Input(k.strat, t0, stack0, k.nodes[n].high)
  {
    InputChild(k.strat, t0, k.hash, stack0, n);
    hide Sound, CacheOk, Ready, Evdd.Statics, Live, MemoOk, Keeps;
    KeepsLive(t0, stack0, k.Now(), n);
    WithinLive(k.dd, k.ext, stack0, k.refstack, n);
    Open(k, n);
    if n != 0 {
      KeepsLive(t0, stack0, k.Now(), t0.nodes[n].low);
      KeepsLive(t0, stack0, k.Now(), t0.nodes[n].high);
      SameChildren(k, t0, n);
    }
  }

  lemma WithinLive(dd: Trees, ext: set<nat>, stack: seq<nat>, stack': seq<nat>, n: nat)
    requires Live(dd, ext, stack, n) && Within(stack, stack')
    ensures Live(dd, ext, stack', n)
  {
    LiveMore(dd, ext, stack, stack', n);
  }

  /** Trees with one id each: the children of the same tree are the same nodes. */
  lemma SameChildren(k: Evdd, t0: Table, n: nat)
    requires Sound(k.Now(), k.hash) && n in k.dd && n != 0 && n in t0.dd && k.dd[n] == t0.dd[n]
    requires Fits(t0.nodes, t0.rows, t0.dd, n) && Fits(k.nodes, k.values.rows, k.dd, n)
    requires t0.nodes[n].low in k.dd && k.dd[t0.nodes[n].low] == t0.dd[t0.nodes[n].low]
    requires t0.nodes[n].high in k.dd && k.dd[t0.nodes[n].high] == t0.dd[t0.nodes[n].high]
    ensures k.nodes[n].low == t0.nodes[n].low && k.nodes[n].high == t0.nodes[n].high
  {
    hide Chained, FreeListed, Recorded, Referenced, ExactIds, Known, Weight;
  }

  lemma InputChild(s: Strategy, t0: Table, hash: Hash, stack0: seq<nat>, n: nat)
    requires Sound(t0, hash) && Input(s, t0, stack0, n)
    ensures n in t0.dd
    ensures n != 0 ==>
              && Fits(t0.nodes, t0.rows, t0.dd, n)
              && Input(s, t0, stack0, t0.nodes[n].low) && Input(s, t0, stack0, t0.nodes[n].high)
              && Live(t0.dd, t0.ext, stack0, t0.nodes[n].low) && Live(t0.dd, t0.ext, stack0, t0.nodes[n].high)
  {
    OpenAt(t0, hash, stack0, n);
    if n != 0 {
      OpenAt(t0, hash, stack0, t0.nodes[n].low);
      OpenAt(t0, hash, stack0, t0.nodes[n].high);
    }
    hide Sound, Live;
  }

  /** evdd_normalize_node */
  method NormalizeNode(k: Evdd, node: nat, memo: seq<Slot>, ghost t0: Table, ghost stack0: seq<nat>) returns (memo': seq<Slot>, n: nat, w: nat)
    requires Walk(k, t0, stack0, memo) && Sound(t0, k.hash) && Input(k.strat, t0, stack0, node) && node != 0
    modifies k`nodes, k`buckets, k`freelist, k`cache, k`generation, k`dd, k`refstack, k.values
    ensures Walk(k, t0, stack0, memo') && StackAfter(old(k.refstack), k.refstack, n) && Keeps(old(k.Now()), old(k.refstack), k.Now())
    ensures Live(k.dd, k.ext, k.refstack, n) && n in k.dd && Known(k.values.rows, w)
    ensures node in t0.dd && t0.dd[node].Node? && Denote(k.dd, k.values.rows, n, w) == NormNode(k.strat, t0.dd[node])
    decreases assert node in t0.dd by { InputChild(k.strat, t0, k.hash, stack0, node); } t0.dd[node], 1
  {
    hide Evdd.Ok, Sound, Live, Keeps, Known, Weight, NormNode, Input, Ordered, Shielded;
    KeepsSame(k.Now(), k.refstack);
    InputNode(k, t0, stack0, memo, node);
    if memo[node].Set? {
      return memo, memo[node].n, memo[node].w;
    }
    memo', n, w := NormalizeMiss(k, node, memo, t0, stack0);
    memo' := memo'[node := Set(n, w)];
  }

  /** One child: a constant keeps its weight, a node is normalized and folded with it. */
  method NormalizeChild(k: Evdd, child: nat, cw: nat, memo: seq<Slot>, ghost t0: Table, ghost stack0: seq<nat>) returns (memo': seq<Slot>, n: nat, w: nat)
    requires Walk(k, t0, stack0, memo) && Sound(t0, k.hash) && Input(k.strat, t0, stack0, child) && Known(k.values.rows, cw)
    modifies k`nodes, k`buckets, k`freelist, k`cache, k`generation, k`dd, k`refstack, k.values
    ensures Walk(k, t0, stack0, memo') && StackAfter(old(k.refstack), k.refstack, n) && Keeps(old(k.Now()), old(k.refstack), k.Now())
    ensures Live(k.dd, k.ext, k.refstack, n) && n in k.dd && Known(k.values.rows, w)
    ensures child in t0.dd && Denote(k.dd, k.values.rows, n, w) == NormEdge(k.strat, Edge(old(Weight(k.values.rows, cw)), t0.dd[child]))
    decreases assert child in t0.dd by { InputChild(k.strat, t0, k.hash, stack0, child); } t0.dd[child], 2
  {
    hide Evdd.Ok, Sound, Live, Keeps, Known, Weight, Ordered, Shielded, NormNode, Mul, MemoOk, Within;
    ghost var t, stack := k.Now(), k.refstack;
    KeepsSame(t, stack);
    InputNode(k, t0, stack0, memo, child);
    if child == 0 {
      ZeroLive(k);
      return memo, 0, cw;
    }
    memo', n, w := NormalizeNode(k, child, memo, t0, stack0);
    ghost var t1 := k.Now();
    k.WeightStays(t, stack, cw);
    w := k.Product(cw, w);
    WalkOn(k, t0, stack0, memo', t1);
    KeepsLive(t1, k.refstack, k.Now(), n);
    KeepsMore(t, stack, t1, k.refstack, k.Now());
  }

  lemma ZeroLive(k: Evdd)
    requires k.Ok()
    ensures Live(k.dd, k.ext, k.refstack, 0) && 0 in k.dd && k.dd[0] == One
  {
    hide CacheOk, Ready, Chained, FreeListed, Recorded, Referenced;
  }

  /** A step that keeps what is alive keeps the walk going. */
  lemma WalkOn(k: Evdd, t0: Table, stack0: seq<nat>, memo: seq<Slot>, t1: Table)
    requires k.Ok() && Keeps(t1, k.refstack, k.Now()) && Keeps(t0, stack0, t1) && Within(stack0, k.refstack)
    requires |memo| == |t0.nodes| && MemoOk(t1, k.refstack, k.strat, t0.dd, memo)
    ensures Walk(k, t0, stack0, memo)
  {
    hide Evdd.Ok, Keeps, MemoOk;
    KeepsTrans(t0, stack0, t1, k.refstack, k.Now());
    MemoStays(t1, k.refstack, k.strat, t0.dd, memo, k.Now());
  }

  lemma KeepsMore(t: Table, stack: seq<nat>, t1: Table, stack1: seq<nat>, t2: Table)
    requires Keeps(t, stack, t1) && Keeps(t1, stack1, t2) && |stack| <= |stack1| && stack1[..|stack|] == stack
    ensures Keeps(t, stack, t2)
  {
    forall r | r in stack ensures r in stack1 {
      assert r in stack1[..|stack|];
    }
    KeepsTrans(t, stack, t1, stack1, t2);
  }

  /** The stack of a walk may grow. */
  method PushWalk(k: Evdd, ghost t0: Table, ghost stack0: seq<nat>, memo: seq<Slot>, n: nat)
    requires Walk(k, t0, stack0, memo) && n in k.dd
    modifies k`refstack
    ensures Walk(k, t0, stack0, memo) && k.refstack == old(k.refstack) + [n] && Live(k.dd, k.ext, k.refstack, n)
    ensures Covers(k.Now(), old(k.refstack), k.refstack)
  {
    hide Evdd.Ok, Live, Keeps, MemoOk, Covers;
    k.Push(n);
    WithinCovers(k.Now(), old(k.refstack), k.refstack);
    MemoCovered(k.Now(), old(k.refstack), k.strat, t0.dd, memo, k.refstack);
  }

  /** The part of evdd_normalize_node that is reached when the memo does not have the result. */
  method NormalizeMiss(k: Evdd, node: nat, memo: seq<Slot>, ghost t0: Table, ghost stack0: seq<nat>) returns (memo': seq<Slot>, n: nat, w: nat)
    requires Walk(k, t0, stack0, memo) && Sound(t0, k.hash) && Input(k.strat, t0, stack0, node) && node != 0
    modifies k`nodes, k`buckets, k`freelist, k`cache, k`generation, k`dd, k`refstack, k.values
    ensures Walk(k, t0, stack0, memo') && StackAfter(old(k.refstack), k.refstack, n) && Keeps(old(k.Now()), old(k.refstack), k.Now())
    ensures Live(k.dd, k.ext, k.refstack, n) && n in k.dd && Known(k.values.rows, w) && node < |memo'|
    ensures node in t0.dd && t0.dd[node].Node? && Denote(k.dd, k.values.rows, n, w) == NormNode(k.strat, t0.dd[node])
    decreases assert node in t0.dd by { InputChild(k.strat, t0, k.hash, stack0, node); } t0.dd[node], 0
  {
    hide Evdd.Ok, Sound, Live, Keeps, Known, Weight, Input, Ordered, Shielded, Mul, MemoOk, Within, Mk, NormEdge, Covers, From, Under, PartOrOne;
    ghost var t, stack := k.Now(), k.refstack;
    InputNode(k, t0, stack0, memo, node);
    var ln, lw, hn, hw;
    memo', ln, lw := NormalizeChild(k, k.nodes[node].low, k.nodes[node].wlow, memo, t0, stack0);
    ghost var t1, stack1 := k.Now(), k.refstack;
    PushWalk(k, t0, stack0, memo', ln);
    InputNode(k, t0, stack0, memo', node);
    memo', hn, hw := NormalizeChild(k, k.nodes[node].high, k.nodes[node].whigh, memo', t0, stack0);
    ghost var t2, stack2 := k.Now(), k.refstack;
    Stays(t1, stack1 + [ln], t2, ln, lw);
    InputNode(k, t0, stack0, memo', node);
    ChildrenNormal(k, t0, stack0, node, Denote(t2.dd, t2.rows, ln, lw), Denote(t2.dd, t2.rows, hn, hw));
    StacksGrow(stack0, stack, stack1, ln, stack2, hn);
    LiveStays(t1, stack1, ln, t2);
    LiveDeeper(k.Now(), stack1, stack2, ln);
    n, w := Finish(k, k.nodes[node].level, ln, lw, hn, hw, memo', t0, stack0, stack1);
    KeepsMore(t, stack, t1, stack1 + [ln], t2);
    KeepsMore(t, stack, t2, stack2, k.Now());
    FinalStack(stack, stack1, ln, stack2, n, k.refstack);
  }

  /** The normal forms of the children are tested below the node, and the high one is not lost there. */
  lemma ChildrenNormal(k: Evdd, t0: Table, stack0: seq<nat>, n: nat, low: Edge, high: Edge)
    requires k.Ok() && Input(k.strat, t0, stack0, n) && n != 0
    requires n in t0.dd && t0.dd[n].Node?
    requires low == NormEdge(k.strat, Edge(t0.dd[n].wlow, t0.dd[n].low)) && high == NormEdge(k.strat, Edge(t0.dd[n].whigh, t0.dd[n].high))
    ensures SquareRoot(k.strat) && Under(t0.dd[n].level, low.node) && Under(t0.dd[n].level, high.node)
    ensures PartOrOne(high.node, Mk(k.strat, t0.dd[n].level, low, high).node)
  {
    hide Live, NormEdge, Mk, PartOrOne;
    StrategyOk(k);
    NormOrdered(k.strat, Edge(t0.dd[n].wlow, t0.dd[n].low), t0.dd[n].level + 1);
    NormOrdered(k.strat, Edge(t0.dd[n].whigh, t0.dd[n].high), t0.dd[n].level + 1);
    MkContains(k.strat, t0.dd[n].level, low, high);
  }

  lemma StacksGrow(stack0: seq<nat>, stack: seq<nat>, stack1: seq<nat>, ln: nat, stack2: seq<nat>, hn: nat)
    requires Within(stack0, stack) && StackAfter(stack, stack1, ln) && StackAfter(stack1 + [ln], stack2, hn)
    ensures Within(stack0, stack1) && Within(stack1 + [ln], stack2) && |stack1| < |stack2| && stack2[..|stack1|] == stack1
    ensures stack2[..|stack|] == stack && stack1[..|stack|] == stack && (stack1 + [ln])[..|stack|] == stack
    ensures stack2 == stack1 + [ln] || stack2[|stack2| - 1] == hn
  {
    forall r | r in stack0 ensures r in stack1 {
      assert r in stack1[..|stack|];
    }
    forall r | r in stack1 + [ln] ensures r in stack2 {
      assert r in stack2[..|stack1| + 1];
    }
    assert stack2[..|stack1|] == stack2[..|stack1| + 1][..|stack1|];
    assert stack2[..|stack|] == stack2[..|stack1|][..|stack|];
  }

  lemma LiveStays(t1: Table, stack1: seq<nat>, ln: nat, t2: Table)
    requires Live(t1.dd, t1.ext, stack1, ln) && Keeps(t1, stack1 + [ln], t2)
    ensures Live(t2.dd, t2.ext, stack1, ln)
  {
    KeepsOuter(t1, stack1, stack1 + [ln], t2);
    KeepsLive(t1, stack1, t2, ln);
  }

  lemma LiveDeeper(t: Table, stack: seq<nat>, stack': seq<nat>, n: nat)
    requires Live(t.dd, t.ext, stack, n) && Within(stack, stack')
    ensures Live(t.dd, t.ext, stack', n)
  {
    LiveMore(t.dd, t.ext, stack, stack', n);
  }

  lemma FinalStack(stack: seq<nat>, stack1: seq<nat>, ln: nat, stack2: seq<nat>, n: nat, final: seq<nat>)
    requires |stack| <= |stack1| < |stack2| && stack2[..|stack|] == stack
    requires final == stack2[..|stack2| - 1] + [n]
    ensures StackAfter(stack, final, n)
  {
    assert final[..|stack|] == stack2[..|stack|];
  }

  /**
    The end of evdd_normalize_node: build the node over its two children, take
    two entries off the stack, put the result on. One of the two may be the
    entry that protected a memoised child; the result then contains it.
  */
  method Finish(k: Evdd, level: nat, ln: nat, lw: nat, hn: nat, hw: nat, memo: seq<Slot>, ghost t0: Table, ghost stack0: seq<nat>, ghost stack1: seq<nat>)
    returns (n: nat, w: nat)
    requires Walk(k, t0, stack0, memo) && ln in k.dd && hn in k.dd && Known(k.values.rows, lw) && Known(k.values.rows, hw)
    requires Live(k.dd, k.ext, k.refstack, ln) && Live(k.dd, k.ext, k.refstack, hn)
    requires var low, high := Denote(k.dd, k.values.rows, ln, lw), Denote(k.dd, k.values.rows, hn, hw);
             Under(level, low.node) && Under(level, high.node) && PartOrOne(high.node, Mk(k.strat, level, low, high).node)
    requires Live(k.dd, k.ext, stack1, ln)
    requires SquareRoot(k.strat) && |stack1| < |k.refstack| && k.refstack[..|stack1|] == stack1 && Within(stack0, stack1)
    requires k.refstack == stack1 + [ln] || k.refstack[|k.refstack| - 1] == hn
    modifies k`nodes, k`buckets, k`freelist, k`cache, k`generation, k`dd, k`refstack, k.values
    ensures Walk(k, t0, stack0, memo) && k.refstack == old(k.refstack)[..|old(k.refstack)| - 1] + [n]
    ensures Live(k.dd, k.ext, k.refstack, n) && n in k.dd && Known(k.values.rows, w) && Keeps(old(k.Now()), old(k.refstack), k.Now())
    ensures Denote(k.dd, k.values.rows, n, w) == Mk(k.strat, level, old(Denote(k.dd, k.values.rows, ln, lw)), old(Denote(k.dd, k.values.rows, hn, hw)))
  {
    hide Evdd.Ok, Live, Keeps, Known, Weight, Mul, MemoOk, Mk, Covers, Under, SquareRoot, PartOrOne, Canon;
    ghost var t2, stack2 := k.Now(), k.refstack;
    ghost var low, high := Denote(k.dd, k.values.rows, ln, lw), Denote(k.dd, k.values.rows, hn, hw);
    PushWalk(k, t0, stack0, memo, hn);
    ghost var stack3 := k.refstack;
    n, w := k.MakeNode(level, ln, lw, hn, hw);
    ghost var t3 := k.Now();
    Kept(t2, stack2, stack3, t3, ln, hn);
    LowKept(t2, stack1, stack3, t3, ln);
    WalkOn(k, t0, stack0, memo, t2);
    k.Pop(2);
    k.Push(n);
    OkCanon(k);
    Exchange(t3, stack1, stack2, stack3, k.refstack, ln, hn, n);
    MemoCovered(t3, stack3, k.strat, t0.dd, memo, k.refstack);
    WithinFinal(stack0, stack1, stack2, k.refstack);
  }

  lemma LowKept(t2: Table, stack1: seq<nat>, stack3: seq<nat>, t3: Table, ln: nat)
    requires Keeps(t2, stack3, t3) && Live(t2.dd, t2.ext, stack1, ln) && Within(stack1, stack3)
    ensures Live(t3.dd, t3.ext, stack1, ln)
  {
    KeepsOuter(t2, stack1, stack3, t3);
    KeepsLive(t2, stack1, t3, ln);
  }

  lemma Kept(t2: Table, stack2: seq<nat>, stack3: seq<nat>, t3: Table, ln: nat, hn: nat)
    requires Keeps(t2, stack3, t3) && stack3 == stack2 + [hn] && Live(t2.dd, t2.ext, stack2, ln) && Live(t2.dd, t2.ext, stack2, hn)
    ensures Keeps(t2, stack2, t3) && ln in t3.dd && hn in t3.dd && ln in t2.dd && hn in t2.dd && t3.dd[ln] == t2.dd[ln] && t3.dd[hn] == t2.dd[hn]
  {
    KeepsOuter(t2, stack2, stack3, t3);
    KeepsLive(t2, stack2, t3, ln);
    KeepsLive(t2, stack2, t3, hn);
  }

  /** Taking two entries off and the result on leaves everything alive. */
  lemma Exchange(t: Table, stack1: seq<nat>, stack2: seq<nat>, stack3: seq<nat>, final: seq<nat>, ln: nat, hn: nat, n: nat)
    requires Canon(t.dd) && stack3 == stack2 + [hn] && |stack1| < |stack2| && final == stack3[..|stack3| - 2] + [n]
    requires stack2[..|stack1|] == stack1 && (stack2 == stack1 + [ln] || stack2[|stack2| - 1] == hn)
    requires Live(t.dd, t.ext, stack1, ln) && hn in t.dd && n in t.dd && PartOrOne(t.dd[hn], t.dd[n])
    ensures Covers(t, stack3, final) && final == stack2[..|stack2| - 1] + [n]
  {
    hide PartOrOne, Covers, Live, Canon;
    assert stack3[..|stack3| - 2] == stack2[..|stack2| - 1];
    assert stack2 == stack2[..|stack2| - 1] + [stack2[|stack2| - 1]];
    assert final[|final| - 1] == n;
    forall r | r in stack1 ensures r in final {
      var i :| 0 <= i < |stack1| && stack1[i] == r;
      assert final[i] == stack2[..|stack1|][i];
    }
    LiveMore(t.dd, t.ext, stack1, final, ln);
    Rerooted(t, stack3, final, n);
  }

  lemma OkCanon(k: Evdd)
    requires k.Ok()
    ensures Canon(k.dd)
  {
    hide CacheOk, Ready, Chained, FreeListed, Recorded, Referenced;
  }

  lemma WithinFinal(stack0: seq<nat>, stack1: seq<nat>, stack2: seq<nat>, final: seq<nat>)
    requires Within(stack0, stack1) && |stack1| < |stack2| && stack2[..|stack1|] == stack1 && |final| == |stack2|
    requires final[..|stack2| - 1] == stack2[..|stack2| - 1]
    ensures Within(stack0, final)
  {
    forall r | r in stack0 ensures r in final {
      assert r in stack1;
      var i :| 0 <= i < |stack1| && stack1[i] == r;
      assert final[i] == final[..|stack2| - 1][i] == stack2[..|stack1|][i];
    }
  }

  /**
    evdd_normalize: for a diagram without an exposed node the result is the
    normal form of the edge, whatever is collected on the way.
  */
  method NormalizeOf(k: Evdd, n: int, w: nat) returns (ok: bool, rn: nat, rw: nat)
    requires k.Ok() && Known(k.values.rows, w)
    requires 0 <= n && n in k.dd ==> Shielded(k.strat, k.dd[n])
    modifies k`nodes, k`buckets, k`freelist, k`cache, k`generation, k`dd, k`refstack, k.values
    ensures k.Ok() && k.refstack == old(k.refstack) && Keeps(old(k.Now()), k.refstack, k.Now()) && rn in k.dd && Known(k.values.rows, rw)
    ensures ok == (0 <= n && n in old(k.dd))
    ensures !ok ==> rn == 0 && rw == 0
    ensures ok ==> Denote(k.dd, k.values.rows, rn, rw) == NormEdge(k.strat, old(Denote(k.dd, k.values.rows, n, w)))
  {
    hide Evdd.Ok, Live, Keeps, Known, Weight, Mul, MemoOk, Shielded, NormNode;
    ghost var t, stack := k.Now(), k.refstack;
    KeepsSame(t, stack);
    InUseMeans(k, n);
    k.ZeroWeight(w);
    if !InUse(k, n) {
      return false, 0, 0;
    }
    ok := true;
    if n == 0 {
      return true, 0, w;
    }
    var saved := |k.refstack|;
    k.Push(n);
    rn, rw := NormalizePinned(k, n, w);
    KeepsOuter(t, stack, stack + [n], k.Now());
    k.Pop(|k.refstack| - saved);
    assert k.refstack == stack;
  }

  /** The walk of evdd_normalize, with the root pinned; its results stay on the stack. */
  method NormalizePinned(k: Evdd, n: nat, w: nat) returns (rn: nat, rw: nat)
    requires k.Ok() && Known(k.values.rows, w) && n != 0 && n in k.dd && Shielded(k.strat, k.dd[n]) && Live(k.dd, k.ext, k.refstack, n)
    modifies k`nodes, k`buckets, k`freelist, k`cache, k`generation, k`dd, k`refstack, k.values
    ensures k.Ok() && |old(k.refstack)| <= |k.refstack| && k.refstack[..|old(k.refstack)|] == old(k.refstack)
    ensures Keeps(old(k.Now()), old(k.refstack), k.Now()) && rn in k.dd && Known(k.values.rows, rw)
    ensures Denote(k.dd, k.values.rows, rn, rw) == NormEdge(k.strat, old(Denote(k.dd, k.values.rows, n, w)))
  {
    hide Evdd.Ok, Live, Keeps, Known, Weight, Mul, MemoOk, Shielded, NormNode, Sound, Input, Within;
    ghost var t, stack0 := k.Now(), k.refstack;
    var memo := seq(|k.nodes|, _ => Unset);
    WalkStart(k, t, stack0, n, memo);
    memo, rn, rw := NormalizeNode(k, n, memo, t, stack0);
    ghost var t1 := k.Now();
    k.WeightStays(t, stack0, w);
    rw := k.Product(w, rw);
    KeepsLive(t1, k.refstack, k.Now(), rn);
    KeepsMore(t, stack0, t1, k.refstack, k.Now());
  }

  lemma {:induction false} WalkStart(k: Evdd, t: Table, stack0: seq<nat>, n: nat, memo: seq<Slot>)
    requires k.Ok() && t == k.Now() && stack0 == k.refstack && n != 0 && Live(k.dd, k.ext, stack0, n) && n in k.dd && Shielded(k.strat, k.dd[n])
    requires |memo| == |k.nodes| && forall m {:trigger memo[m]} :: 0 <= m < |memo| ==> memo[m] == Unset
    ensures Walk(k, t, stack0, memo) && Sound(t, k.hash) && Input(k.strat, t, stack0, n)
  {
    hide Evdd.Ok, Sound, Live, Fits, Keeps, SlotOk, Shielded;
    Open(k, n);
    OkSound(k);
    KeepsSame(t, stack0);
  }

  lemma OkSound(k: Evdd)
    requires k.Ok()
    ensures Sound(k.Now(), k.hash)
  {
    hide Sound, CacheOk, Ready;
  }
}
