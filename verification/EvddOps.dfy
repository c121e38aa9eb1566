/** evdd_op.c's apply and the normalization pass of evdd_kernel.c over the node table. */
module EvddOps {
  import opened Field
  import opened WeightNorm
  import opened Wdd
  import opened WddOps
  import opened ValueTable
  import opened EvddState
  import opened EvddCollect
  import opened EvddArith
  import opened EvddTable

  /** What the record of a live node says, and that its children are alive. */
  lemma Open(k: Evdd, n: nat)
    requires k.Ok() && Live(k.dd, k.ext, k.refstack, n)
    ensures n in k.dd && Ordered(k.dd[n]) && n < |k.nodes| && (n == 0 <==> k.dd[n].One?)
    ensures n != 0 ==>
              && Fits(k.nodes, k.values.rows, k.dd, n) && k.nodes[n].level == k.dd[n].level
              && Live(k.dd, k.ext, k.refstack, k.nodes[n].low) && Live(k.dd, k.ext, k.refstack, k.nodes[n].high)
  {
    hide Sound, CacheOk, Ready, Live, Evdd.Statics;
    OpenAt(k.Now(), k.hash, k.refstack, n);
  }

  /** A live edge through a step. */
  lemma Stays(t: Table, stack: seq<nat>, t': Table, n: nat, w: nat)
    requires Keeps(t, stack, t') && Live(t.dd, t.ext, stack, n) && Known(t.rows, w)
    ensures n in t.dd && n in t'.dd && Known(t'.rows, w) && Live(t'.dd, t'.ext, stack, n) && t'.dd[n] == t.dd[n]
    ensures Denote(t'.dd, t'.rows, n, w) == Denote(t.dd, t.rows, n, w)
  {
    hide Known, Weight;
    KeepsLive(t, stack, t', n);
  }

  /** evdd_edge_low and evdd_edge_high, or the edge itself when its node is below level l. */
  method Half(k: Evdd, n: nat, w: nat, l: nat, v: bool) returns (c: nat, cw: nat)
    requires k.Ok() && Live(k.dd, k.ext, k.refstack, n) && Known(k.values.rows, w)
    modifies k.values
    ensures k.Ok() && Keeps(old(k.Now()), k.refstack, k.Now())
    ensures n in k.dd && Live(k.dd, k.ext, k.refstack, c) && c in k.dd && Known(k.values.rows, cw)
    ensures Denote(k.dd, k.values.rows, c, cw) == Cofactor(old(Denote(k.dd, k.values.rows, n, w)), l, v)
  {
    hide Evdd.Ok, Known, Weight, Live, Keeps, Ordered, Mul;
    Open(k, n);
    KeepsSame(k.Now(), k.refstack);
    if n != 0 && k.nodes[n].level == l {
      c := if v then k.nodes[n].high else k.nodes[n].low;
      cw := k.Product(w, if v then k.nodes[n].whigh else k.nodes[n].wlow);
    } else {
      c, cw := n, w;
    }
  }

  /** The leaf operation on two path values. */
  method OpIds(k: Evdd, op: ApplyOp, a: nat, b: nat) returns (w: nat)
    requires k.Ok() && Known(k.values.rows, a) && Known(k.values.rows, b)
    modifies k.values
    ensures k.Ok() && Keeps(old(k.Now()), k.refstack, k.Now()) && Known(k.values.rows, w)
    ensures Weight(k.values.rows, w) == OpFun(k.callback, op)(old(Weight(k.values.rows, a)), old(Weight(k.values.rows, b)))
    ensures var u, v := old(Weight(k.values.rows, a)), old(Weight(k.values.rows, b));
            Weight(k.values.rows, w)
                == match op case OpMul => u * v case OpAdd => u + v case OpSub => u - v
                  case OpDiv => (if v == 0.0 then 0.0 else u / v) case OpCallback(code) => k.callback(code)(u, v)
  {
    hide Sound, CacheOk, Ready, Evdd.Statics, Known, Weight, Keeps, KeepsWeights, OpFun, Mul, Div;
    ghost var t := k.Now();
    OpSpelled(k.callback, op, Weight(k.values.rows, a), Weight(k.values.rows, b));
    match op {
      case OpMul => w := MulIds(k.values, a, b);
      case OpAdd => w := AddIds(k.values, a, b);
      case OpSub => w := SubIds(k.values, a, b);
      case OpDiv => w := DivIds(k.values, a, b);
      case OpCallback(code) => w := InternReal(k.values, k.callback(code)(Weight(k.values.rows, a), Weight(k.values.rows, b)));
    }
    k.StillOk(t);
  }

  lemma OpSpelled(callback: Callbacks, op: ApplyOp, u: real, v: real)
    ensures OpFun(callback, op)(u, v)
                == match op case OpMul => u * v case OpAdd => u + v case OpSub => u - v
                  case OpDiv => (if v == 0.0 then 0.0 else u / v) case OpCallback(code) => callback(code)(u, v)
  {
  }

  /** What apply makes of two edges, path by path. */
  lemma {:induction false} AppliedValues(s: Strategy, callback: Callbacks, op: ApplyOp, a: Edge, b: Edge, e: Edge)
    requires SquareRoot(s) && Ordered(a.node) && Ordered(b.node) && e == Apply(s, OpFun(callback, op), a, b)
    ensures forall x: Assign {:trigger EdgeValue(e, x)} ::
              var u, v := EdgeValue(a, x), EdgeValue(b, x);
              EdgeValue(e, x)
                == match op case OpMul => u * v case OpAdd => u + v case OpSub => u - v
                  case OpDiv => (if v == 0.0 then 0.0 else u / v) case OpCallback(code) => callback(code)(u, v)
  {
    hide EdgeValue, Apply, OpFun, SquareRoot, Ordered;
    forall x: Assign
      ensures var u, v := EdgeValue(a, x), EdgeValue(b, x);
              EdgeValue(e, x)
                == match op case OpMul => u * v case OpAdd => u + v case OpSub => u - v
                  case OpDiv => (if v == 0.0 then 0.0 else u / v) case OpCallback(code) => callback(code)(u, v)
    {
      ApplyMeans(s, OpFun(callback, op), a, b, x);
      OpSpelled(callback, op, EdgeValue(a, x), EdgeValue(b, x));
    }
  }

  function SlotOf(k: Evdd, a: nat, aw: nat, b: nat, bw: nat, op: ApplyOp): nat
    reads k`cache
  {
    k.slot(|k.cache|, a, aw, b, bw, op)
  }

  /** A valid entry for this key holds the result. */
  lemma HitRight(k: Evdd, a: nat, aw: nat, b: nat, bw: nat, op: ApplyOp)
    requires k.Ok() && Live(k.dd, k.ext, k.refstack, a) && Live(k.dd, k.ext, k.refstack, b)
    ensures a in k.dd && b in k.dd && Ordered(k.dd[a]) && Ordered(k.dd[b])
    ensures SlotOf(k, a, aw, b, bw, op) < |k.cache|
    ensures var e := k.cache[SlotOf(k, a, aw, b, bw, op)];
            e.generation == k.generation && e.a == a && e.aw == aw && e.b == b && e.bw == bw && e.op == op ==>
              && e.res in k.dd && Known(k.values.rows, e.resw)
              && Denote(k.dd, k.values.rows, e.res, e.resw) == Apply(k.strat, OpFun(k.callback, op), Denote(k.dd, k.values.rows, a, aw), Denote(k.dd, k.values.rows, b, bw))
  {
    Open(k, a);
    Open(k, b);
    hide Sound, Ready, Live, Known, Weight, Apply, Ordered;
  }

  /** EvddCache_store */
  method Store(k: Evdd, a: nat, aw: nat, b: nat, bw: nat, op: ApplyOp, n: nat, w: nat)
    requires k.Ok() && EntryOk(Entry(a, aw, b, bw, op, n, w, k.generation), k.dd, k.values.rows, k.strat, k.callback)
    modifies k`cache
    ensures k.Ok()
  {
    hide Sound, Ready, EntryOk;
    var i := SlotOf(k, a, aw, b, bw, op);
    k.cache := k.cache[i := Entry(a, aw, b, bw, op, n, w, k.generation)];
  }

  /** evdd_apply_rec: cached, or by recursion; collections and growth may happen on the way. */
  method ApplyRec(k: Evdd, a: nat, aw: nat, b: nat, bw: nat, op: ApplyOp) returns (n: nat, w: nat)
    requires k.Ok() && Live(k.dd, k.ext, k.refstack, a) && Live(k.dd, k.ext, k.refstack, b) && Known(k.values.rows, aw) && Known(k.values.rows, bw)
    modifies k`nodes, k`buckets, k`freelist, k`cache, k`generation, k`dd, k`refstack, k.values
    ensures k.Ok() && k.refstack == old(k.refstack) && Keeps(old(k.Now()), k.refstack, k.Now())
    ensures a in old(k.dd) && b in old(k.dd) && Ordered(old(k.dd)[a]) && Ordered(old(k.dd)[b]) && n in k.dd && Known(k.values.rows, w)
    ensures Denote(k.dd, k.values.rows, n, w) == Apply(k.strat, OpFun(k.callback, op), old(Denote(k.dd, k.values.rows, a, aw)), old(Denote(k.dd, k.values.rows, b, bw)))
    ensures forall x: Assign {:trigger EdgeValue(Denote(k.dd, k.values.rows, n, w), x)} ::
              var u, v := EdgeValue(old(Denote(k.dd, k.values.rows, a, aw)), x), EdgeValue(old(Denote(k.dd, k.values.rows, b, bw)), x);
              EdgeValue(Denote(k.dd, k.values.rows, n, w), x)
                == match op case OpMul => u * v case OpAdd => u + v case OpSub => u - v
                  case OpDiv => (if v == 0.0 then 0.0 else u / v) case OpCallback(code) => k.callback(code)(u, v)
    decreases assert a in k.dd && b in k.dd by { Open(k, a); Open(k, b); } Size(k.dd[a]) + Size(k.dd[b]), 2
  {
    hide Evdd.Ok, Known, Weight, Live, Keeps, Ordered, Apply, OpFun, EdgeValue, SquareRoot;
    ghost var t, stack := k.Now(), k.refstack;
    HitRight(k, a, aw, b, bw, op);
    ghost var x, y := Denote(k.dd, k.values.rows, a, aw), Denote(k.dd, k.values.rows, b, bw);
    StrategyOk(k);
    KeepsSame(t, stack);
    var e := k.cache[SlotOf(k, a, aw, b, bw, op)];
    if e.generation == k.generation && e.a == a && e.aw == aw && e.b == b && e.bw == bw && e.op == op {
      AppliedValues(k.strat, k.callback, op, x, y, Denote(k.dd, k.values.rows, e.res, e.resw));
      return e.res, e.resw;
    }
    if a == 0 && b == 0 {
      n, w := Leaves(k, op, aw, bw);
    } else {
      n, w := ApplyMiss(k, a, aw, b, bw, op);
    }
    ghost var t1 := k.Now();
    Stays(t, stack, t1, a, aw);
    Stays(t, stack, t1, b, bw);
    AppliedValues(k.strat, k.callback, op, x, y, Denote(k.dd, k.values.rows, n, w));
    Store(k, a, aw, b, bw, op, n, w);
  }

  /** Both edges constant: a zero result is the false edge, which has id 0. */
  method Leaves(k: Evdd, op: ApplyOp, aw: nat, bw: nat) returns (n: nat, w: nat)
    requires k.Ok() && Known(k.values.rows, aw) && Known(k.values.rows, bw)
    modifies k.values
    ensures k.Ok() && Keeps(old(k.Now()), k.refstack, k.Now()) && 0 in old(k.dd) && n in k.dd && Known(k.values.rows, w)
    ensures Ordered(old(k.dd)[0])
    ensures Denote(k.dd, k.values.rows, n, w) == Apply(k.strat, OpFun(k.callback, op), old(Denote(k.dd, k.values.rows, 0, aw)), old(Denote(k.dd, k.values.rows, 0, bw)))
  {
    hide Evdd.Ok, Known, Weight, Keeps, OpFun;
    k.ZeroWeight(aw);
    var vw := OpIds(k, op, aw, bw);
    k.ZeroWeight(vw);
    if IsZero(k.values.rows, vw) {
      return 0, 0;
    }
    return 0, vw;
  }

  /** One cofactor pair of the operands, applied. */
  method ApplyHalf(k: Evdd, a: nat, aw: nat, b: nat, bw: nat, op: ApplyOp, l: nat, v: bool) returns (n: nat, w: nat)
    requires k.Ok() && Live(k.dd, k.ext, k.refstack, a) && Live(k.dd, k.ext, k.refstack, b) && Known(k.values.rows, aw) && Known(k.values.rows, bw)
    requires a in k.dd && b in k.dd && !(k.dd[a].One? && k.dd[b].One?) && l == TopLevel(k.dd[a], k.dd[b])
    modifies k`nodes, k`buckets, k`freelist, k`cache, k`generation, k`dd, k`refstack, k.values
    ensures k.Ok() && k.refstack == old(k.refstack) && Keeps(old(k.Now()), k.refstack, k.Now()) && n in k.dd && Known(k.values.rows, w)
    ensures var x, y := old(Denote(k.dd, k.values.rows, a, aw)), old(Denote(k.dd, k.values.rows, b, bw));
            && Ordered(Cofactor(x, l, v).node) && Ordered(Cofactor(y, l, v).node)
            && Denote(k.dd, k.values.rows, n, w) == Apply(k.strat, OpFun(k.callback, op), Cofactor(x, l, v), Cofactor(y, l, v))
    decreases Size(k.dd[a]) + Size(k.dd[b]), 0
  {
    hide Evdd.Ok, Known, Weight, Live, Keeps, Ordered, Apply, OpFun, Cofactor;
    ghost var t, stack := k.Now(), k.refstack;
    ghost var x, y := Denote(k.dd, k.values.rows, a, aw), Denote(k.dd, k.values.rows, b, bw);
    HalvesSmaller(k, x, y, a, b, l, v);
    var a', aw' := Half(k, a, aw, l, v);
    ghost var t1 := k.Now();
    Stays(t, stack, t1, b, bw);
    var b', bw' := Half(k, b, bw, l, v);
    ghost var t2 := k.Now();
    Stays(t1, stack, t2, a', aw');
    KeepsTrans(t, stack, t1, stack, t2);
    n, w := ApplyRec(k, a', aw', b', bw', op);
    KeepsTrans(t, stack, t2, stack, k.Now());
  }

  lemma HalvesSmaller(k: Evdd, x: Edge, y: Edge, a: nat, b: nat, l: nat, v: bool)
    requires k.Ok() && Live(k.dd, k.ext, k.refstack, a) && Live(k.dd, k.ext, k.refstack, b)
    requires a in k.dd && b in k.dd && x.node == k.dd[a] && y.node == k.dd[b]
    requires !(k.dd[a].One? && k.dd[b].One?) && l == TopLevel(k.dd[a], k.dd[b])
    ensures Ordered(x.node) && Ordered(y.node) && From(l, x.node) && From(l, y.node)
    ensures Ordered(Cofactor(x, l, v).node) && Ordered(Cofactor(y, l, v).node)
    ensures Under(l, Cofactor(x, l, v).node) && Under(l, Cofactor(y, l, v).node)
    ensures Size(Cofactor(x, l, v).node) + Size(Cofactor(y, l, v).node) < Size(k.dd[a]) + Size(k.dd[b])
  {
    Open(k, a);
    Open(k, b);
    hide Evdd.Ok, Live, Fits;
    CofactorUnder(x, l, v);
    CofactorUnder(y, l, v);
  }

  /** Results of apply at a level are tested below it. */
  lemma ResultUnder(s: Strategy, op: Op, x: Edge, y: Edge, l: nat)
    requires SquareRoot(s) && Ordered(x.node) && Ordered(y.node) && Under(l, x.node) && Under(l, y.node)
    ensures Under(l, Apply(s, op, x, y).node)
  {
    hide Apply, Ordered, Canonical;
    ApplyCanonical(s, op, x, y, l + 1);
  }

  lemma StrategyOk(k: Evdd)
    requires k.Ok()
    ensures SquareRoot(k.strat)
  {
    hide Sound, CacheOk, Ready;
  }

  /** The part of evdd_apply_rec that is reached when the cache does not have the result. */
  method ApplyMiss(k: Evdd, a: nat, aw: nat, b: nat, bw: nat, op: ApplyOp) returns (n: nat, w: nat)
    requires k.Ok() && Live(k.dd, k.ext, k.refstack, a) && Live(k.dd, k.ext, k.refstack, b) && Known(k.values.rows, aw) && Known(k.values.rows, bw)
    requires !(a == 0 && b == 0)
    modifies k`nodes, k`buckets, k`freelist, k`cache, k`generation, k`dd, k`refstack, k.values
    ensures k.Ok() && k.refstack == old(k.refstack) && Keeps(old(k.Now()), k.refstack, k.Now())
    ensures a in old(k.dd) && b in old(k.dd) && Ordered(old(k.dd)[a]) && Ordered(old(k.dd)[b]) && n in k.dd && Known(k.values.rows, w)
    ensures Denote(k.dd, k.values.rows, n, w) == Apply(k.strat, OpFun(k.callback, op), old(Denote(k.dd, k.values.rows, a, aw)), old(Denote(k.dd, k.values.rows, b, bw)))
    decreases assert a in k.dd && b in k.dd by { Open(k, a); Open(k, b); } Size(k.dd[a]) + Size(k.dd[b]), 1
  {
    hide Evdd.Ok, Known, Weight, Live, Keeps, Ordered, OpFun, Cofactor, Under, From, Size, Mk;
    ghost var t, stack := k.Now(), k.refstack;
    Open(k, a);
    Open(k, b);
    StrategyOk(k);
    ghost var x, y, op' := Denote(k.dd, k.values.rows, a, aw), Denote(k.dd, k.values.rows, b, bw), OpFun(k.callback, op);
    var l := if a == 0 then k.nodes[b].level else if b == 0 then k.nodes[a].level
             else if k.nodes[a].level < k.nodes[b].level then k.nodes[a].level else k.nodes[b].level;
    assert l == TopLevel(x.node, y.node);
    HalvesSmaller(k, x, y, a, b, l, false);
    HalvesSmaller(k, x, y, a, b, l, true);
    var n0, w0 := ApplyHalf(k, a, aw, b, bw, op, l, false);
    ghost var t1 := k.Now();
    Stays(t, stack, t1, a, aw);
    Stays(t, stack, t1, b, bw);
    k.Push(n0);
    PushedLive(k, stack, a, b, n0);
    var n1, w1 := ApplyHalf(k, a, aw, b, bw, op, l, true);
    ghost var t2 := k.Now();
    Stays(t1, k.refstack, t2, n0, w0);
    k.Push(n1);
    ResultUnder(k.strat, op', Cofactor(x, l, false), Cofactor(y, l, false), l);
    ResultUnder(k.strat, op', Cofactor(x, l, true), Cofactor(y, l, true), l);
    n, w := k.MakeNode(l, n0, w0, n1, w1);
    ghost var t3 := k.Now();
    assert k.refstack == stack + [n0] + [n1];
    KeepsTrans(t, stack, t1, stack + [n0], t2);
    KeepsTrans(t, stack, t2, k.refstack, t3);
    assert k.refstack[..|k.refstack| - 2] == stack;
    k.Pop(2);
  }

  lemma PushedLive(k: Evdd, stack: seq<nat>, a: nat, b: nat, n: nat)
    requires k.refstack == stack + [n] && Live(k.dd, k.ext, stack, a) && Live(k.dd, k.ext, stack, b)
    ensures Live(k.dd, k.ext, k.refstack, a) && Live(k.dd, k.ext, k.refstack, b)
  {
    LiveMore(k.dd, k.ext, stack, k.refstack, a);
    LiveMore(k.dd, k.ext, stack, k.refstack, b);
  }

  /** EVDDISFREE and the range test on an operand. */
  predicate InUse(k: Evdd, n: int)
    reads k`nodes
  {
    0 <= n < |k.nodes| && (n == 0 || k.nodes[n].low != -1)
  }

  lemma InUseMeans(k: Evdd, n: int)
    requires k.Ok()
    ensures InUse(k, n) <==> 0 <= n && n in k.dd
  {
    hide CacheOk, Ready, Chained, FreeListed, Known, Weight;
    if 0 < n {
      if n in k.dd { assert Fits(k.nodes, k.values.rows, k.dd, n); }
      assert n < |k.nodes| && n !in k.dd ==> k.nodes[n].low == -1;
    }
  }

  /**
    evdd_apply: an operand that is no node of the table is an error and gives
    the false edge; otherwise the result is the exact one, whatever dies or
    moves on the way.
  */
  method ApplyOf(k: Evdd, a: int, aw: nat, b: int, bw: nat, op: ApplyOp) returns (ok: bool, n: nat, w: nat)
    requires k.Ok() && Known(k.values.rows, aw) && Known(k.values.rows, bw)
    modifies k`nodes, k`buckets, k`freelist, k`cache, k`generation, k`dd, k`refstack, k.values
    ensures k.Ok() && k.refstack == old(k.refstack) && Keeps(old(k.Now()), k.refstack, k.Now()) && n in k.dd && Known(k.values.rows, w)
    ensures ok == (0 <= a && a in old(k.dd) && 0 <= b && b in old(k.dd))
    ensures !ok ==> n == 0 && w == 0
    ensures ok ==> Ordered(old(k.dd)[a]) && Ordered(old(k.dd)[b])
    ensures ok ==> Denote(k.dd, k.values.rows, n, w) == Apply(k.strat, OpFun(k.callback, op), old(Denote(k.dd, k.values.rows, a, aw)), old(Denote(k.dd, k.values.rows, b, bw)))
    ensures ok ==> forall x: Assign {:trigger EdgeValue(Denote(k.dd, k.values.rows, n, w), x)} ::
              var u, v := EdgeValue(old(Denote(k.dd, k.values.rows, a, aw)), x), EdgeValue(old(Denote(k.dd, k.values.rows, b, bw)), x);
              EdgeValue(Denote(k.dd, k.values.rows, n, w), x)
                == match op case OpMul => u * v case OpAdd => u + v case OpSub => u - v
                  case OpDiv => (if v == 0.0 then 0.0 else u / v) case OpCallback(code) => k.callback(code)(u, v)
  {
    hide Evdd.Ok, Known, Weight, Live, Keeps, Ordered, OpFun, Apply, EdgeValue;
    ghost var t, stack := k.Now(), k.refstack;
    KeepsSame(t, stack);
    InUseMeans(k, a);
    InUseMeans(k, b);
    k.ZeroWeight(aw);
    if !InUse(k, a) || !InUse(k, b) {
      return false, 0, 0;
    }
    ok := true;
    k.Push(a);
    k.Push(b);
    PushedLive(k, stack + [a], a, a, b);
    n, w := ApplyRec(k, a, aw, b, bw, op);
    assert k.refstack == stack + [a] + [b];
    KeepsOuter(t, stack, k.refstack, k.Now());
    assert k.refstack[..|k.refstack| - 2] == stack;
    k.Pop(2);
  }

  /**
    Canonicity of the table: two canonical edges denote the same function
    exactly when node and weight id are the same. Every result of makenode
    over canonical edges, of apply and of the normalization pass is canonical.
  */
  lemma OneEdgePerFunction(k: Evdd, m: nat, v: nat, n: nat, w: nat)
    requires k.Ok() && Canonizing(k.strat) && m in k.dd && n in k.dd && Known(k.values.rows, v) && Known(k.values.rows, w)
    requires CanonicalEdge(k.strat, Denote(k.dd, k.values.rows, m, v)) && CanonicalEdge(k.strat, Denote(k.dd, k.values.rows, n, w))
    ensures m == n && v == w <==> forall x: Assign ::
              EdgeValue(Denote(k.dd, k.values.rows, m, v), x) == EdgeValue(Denote(k.dd, k.values.rows, n, w), x)
  {
    hide Sound, CacheOk, Ready, Evdd.Statics, CanonicalEdge, EdgeValue, Known, Weight;
    var e, f := Denote(k.dd, k.values.rows, m, v), Denote(k.dd, k.values.rows, n, w);
    SameIds(k.Now(), k.hash, m, v, n, w);
    AlwaysSteady(k.strat, e.node);
    AlwaysSteady(k.strat, f.node);
    Canonicity(k.strat, e, f);
  }
}
