/** bdd_constrain and bdd_simplify. */
module CofactorOps {
  import opened Dd
  import opened DdOps
  import opened DdCofactor
  import opened Threads
  import opened TableState
  import opened OpCaches
  import opened KernelTable
  import opened OperatorBase
  import opened ApplyOps
  import opened QuantOps

  /** constrain_rec. */
  method ConstrainRec(k: Kernel, f: nat, c: nat) returns (res: nat)
    requires k.Ok() && Live(k.dd, k.ext, k.refstack, f) && Live(k.dd, k.ext, k.refstack, c) && k.miscid == CACHEID_CONSTRAIN
    modifies k`nodes, k`freepos, k`freenum, k`caches, k`dd, k`lists, k`place, k`refstack
    ensures k.Ok() && k.refstack == old(k.refstack) && Keeps(old(k.Now()), k.refstack, k.Now())
    ensures f in old(k.dd) && c in old(k.dd) && res in k.dd && k.dd[res] == Constrain(old(k.dd)[f], old(k.dd)[c])
    decreases assert f in k.dd && c in k.dd by { Open(k, f); Open(k, c); } Size(k.dd[f]) + Size(k.dd[c]), 1
  {
    hide Kernel.Ok, Sound, CachesOk, Live, Keeps, Levelled, Hit, Robdd, Size, Constrain;
    ghost var t, stack := k.Now(), k.refstack;
    Open(k, f);
    Open(k, c);
    OkFacts(k);
    SameId(t, k.hash, f, c);
    KeepsSame(t, stack);
    ConstrainShort(k.dd[f], k.dd[c]);
    if c == 1 {
      return f;
    }
    if f < 2 {
      return f;
    }
    if c == f {
      return 1;
    }
    if c == 0 {
      return 0;
    }
    MiscHit(k, f, c, k.miscid);
    var e := Hit(k.caches.misc, k.slot, f, c, k.miscid);
    if e.generation == k.caches.misc.generation && e.a == f && e.b == c && e.c == k.miscid {
      return e.res;
    }
    res := ConstrainMiss(k, f, c);
    Stays(t, stack, k.Now(), f);
    Stays(t, stack, k.Now(), c);
    Open(k, f);
    StoreMisc(k, f, c, k.miscid, res);
  }

  lemma ConstrainShort(f: Dd, c: Dd)
    requires Robdd(f) && Robdd(c)
    ensures Constrain(f, Leaf(true)) == f
    ensures f.Leaf? ==> Constrain(f, c) == f
    ensures f.Node? ==> Constrain(f, f) == Leaf(true) && Constrain(f, Leaf(false)) == Leaf(false)
  {
    if f.Node? { ConstrainSelf(f); }
  }

  method ConstrainMiss(k: Kernel, f: nat, c: nat) returns (res: nat)
    requires k.Ok() && Live(k.dd, k.ext, k.refstack, f) && Live(k.dd, k.ext, k.refstack, c) && k.miscid == CACHEID_CONSTRAIN
    requires 2 <= f && 2 <= c
    modifies k`nodes, k`freepos, k`freenum, k`caches, k`dd, k`lists, k`place, k`refstack
    ensures k.Ok() && k.refstack == old(k.refstack) && Keeps(old(k.Now()), k.refstack, k.Now())
    ensures f in old(k.dd) && c in old(k.dd) && res in k.dd && k.dd[res] == Constrain(old(k.dd)[f], old(k.dd)[c])
    decreases assert f in k.dd && c in k.dd by { Open(k, f); Open(k, c); } Size(k.dd[f]) + Size(k.dd[c]), 0
  {
    hide Kernel.Ok, Sound, CachesOk, Live, Keeps, Levelled, Robdd, Size, Constrain, Cofactor, Mk;
    ghost var t, stack := k.Now(), k.refstack;
    Open(k, f);
    Open(k, c);
    OkFacts(k);
    var level, f0, f1, c0, c1 := Split2(k, f, c);
    SameId(t, k.hash, c0, 0);
    SameId(t, k.hash, c1, 0);
    ConstrainHalves(k.dd[f], k.dd[c], level);
    if k.nodes[c].level == level && c0 == 0 {
      res := ConstrainRec(k, f1, c1);
    } else if k.nodes[c].level == level && c1 == 0 {
      res := ConstrainRec(k, f0, c0);
    } else {
      var low := ConstrainRec(k, f0, c0);
      ghost var t1 := k.Now();
      Stays(t, stack, t1, f1);
      Stays(t, stack, t1, c1);
      PushRef(k, low);
      var high := ConstrainRec(k, f1, c1);
      ghost var t2 := k.Now();
      PushRef(k, high);
      TwoCalls(t, stack, t1, low, t2, high, t2);
      res := MakeTop(k, stack, low, high, level);
      TwoCalls(t, stack, t1, low, t2, high, k.Now());
    }
  }

  lemma ConstrainHalves(f: Dd, c: Dd, l: nat)
    requires Robdd(f) && Robdd(c) && f.Node? && c.Node? && l == Top2(f, c)
    ensures var f0, f1, c0, c1 := Cofactor(f, l, false), Cofactor(f, l, true), Cofactor(c, l, false), Cofactor(c, l, true);
            && Size(f0) + Size(c0) < Size(f) + Size(c) && Size(f1) + Size(c1) < Size(f) + Size(c)
            && Under(l, Constrain(f0, c0)) && Under(l, Constrain(f1, c1))
            && Constrain(f, c) == (if c.level == l && c0 == Leaf(false) then Constrain(f1, c1)
                                   else if c.level == l && c1 == Leaf(false) then Constrain(f0, c0)
                                   else Mk(l, Constrain(f0, c0), Constrain(f1, c1)))
  {
    CofactorFacts(f, l, false);
    CofactorFacts(f, l, true);
    CofactorFacts(c, l, false);
    CofactorFacts(c, l, true);
    ConstrainGood(Cofactor(f, l, false), Cofactor(c, l, false));
    ConstrainGood(Cofactor(f, l, true), Cofactor(c, l, true));
  }

  /** simplify_rec. */
  method SimplifyRec(k: Kernel, f: nat, d: nat) returns (res: nat)
    requires k.Ok() && Live(k.dd, k.ext, k.refstack, f) && Live(k.dd, k.ext, k.refstack, d) && k.applyop == OR
    modifies k`nodes, k`freepos, k`freenum, k`caches, k`dd, k`lists, k`place, k`refstack
    ensures k.Ok() && k.refstack == old(k.refstack) && Keeps(old(k.Now()), k.refstack, k.Now())
    ensures f in old(k.dd) && d in old(k.dd) && Robdd(old(k.dd)[f]) && Robdd(old(k.dd)[d])
    ensures res in k.dd && k.dd[res] == Simplify(old(k.dd)[f], old(k.dd)[d])
    decreases assert f in k.dd && d in k.dd by { Open(k, f); Open(k, d); } |Support(k.dd[f])| + |Support(k.dd[d])|, 1
  {
    hide Kernel.Ok, Sound, CachesOk, Live, Keeps, Levelled, Hit, Robdd, Support, Simplify;
    ghost var t, stack := k.Now(), k.refstack;
    Open(k, f);
    Open(k, d);
    OkFacts(k);
    SameId(t, k.hash, f, d);
    KeepsSame(t, stack);
    SimplifyShort(k.dd[f], k.dd[d]);
    if d == 1 || f < 2 {
      return f;
    }
    if d == f {
      return 1;
    }
    if d == 0 {
      return 0;
    }
    ApplyHit(k, f, d, BDDOP_SIMPLIFY);
    var e := Hit(k.caches.apply, k.slot, f, d, BDDOP_SIMPLIFY);
    if e.generation == k.caches.apply.generation && e.a == f && e.b == d && e.c == BDDOP_SIMPLIFY {
      return e.res;
    }
    res := SimplifyMiss(k, f, d);
    Stays(t, stack, k.Now(), f);
    Stays(t, stack, k.Now(), d);
    StoreApply(k, f, d, BDDOP_SIMPLIFY, res);
  }

  lemma SimplifyShort(f: Dd, d: Dd)
    requires Robdd(f) && Robdd(d)
    ensures d == Leaf(true) || f.Leaf? ==> Simplify(f, d) == f
    ensures f.Node? && d == f ==> Simplify(f, d) == Leaf(true)
    ensures f.Node? && d == Leaf(false) ==> Simplify(f, d) == Leaf(false)
  {
  }

  method SimplifyMiss(k: Kernel, f: nat, d: nat) returns (res: nat)
    requires k.Ok() && Live(k.dd, k.ext, k.refstack, f) && Live(k.dd, k.ext, k.refstack, d) && k.applyop == OR
    requires 2 <= f && 2 <= d && f != d
    modifies k`nodes, k`freepos, k`freenum, k`caches, k`dd, k`lists, k`place, k`refstack
    ensures k.Ok() && k.refstack == old(k.refstack) && Keeps(old(k.Now()), k.refstack, k.Now())
    ensures f in old(k.dd) && d in old(k.dd) && Robdd(old(k.dd)[f]) && Robdd(old(k.dd)[d])
    ensures res in k.dd && k.dd[res] == Simplify(old(k.dd)[f], old(k.dd)[d])
    decreases assert f in k.dd && d in k.dd by { Open(k, f); Open(k, d); } |Support(k.dd[f])| + |Support(k.dd[d])|, 0
  {
    hide Kernel.Ok, Sound, CachesOk, Live, Keeps, Levelled, Robdd, Support, Simplify, Mk, Apply, Cofactor;
    ghost var t, stack := k.Now(), k.refstack;
    Open(k, f);
    Open(k, d);
    OkFacts(k);
    SameId(t, k.hash, f, d);
    SimplifyParts(k.dd[f], k.dd[d]);
    if k.nodes[d].level < k.nodes[f].level {
      var q := ApplyRec(k, k.nodes[d].low, k.nodes[d].high);
      ghost var t1 := k.Now();
      Stays(t, stack, t1, f);
      PushRef(k, q);
      res := SimplifyRec(k, f, q);
      ghost var t2 := k.Now();
      PopRef(k, 1);
      KeepsTrans(t, stack, t1, stack + [q], t2);
    } else {
      ZeroLow(k, d);
      var f0, f1 := k.nodes[f].low, k.nodes[f].high;
      var d0, d1 := Halves(k, d, k.nodes[f].level);
      if k.nodes[d].level == k.nodes[f].level && k.nodes[d].low == 0 {
        res := SimplifyRec(k, f1, d1);
      } else if k.nodes[d].level == k.nodes[f].level && k.nodes[d].high == 0 {
        res := SimplifyRec(k, f0, d0);
      } else {
        res := SimplifyTwo(k, k.nodes[f].level, f0, f1, d0, d1);
      }
    }
  }

  /** Both halves, and the node over them. */
  method SimplifyTwo(k: Kernel, level: nat, f0: nat, f1: nat, d0: nat, d1: nat) returns (res: nat)
    requires k.Ok() && Live(k.dd, k.ext, k.refstack, f0) && Live(k.dd, k.ext, k.refstack, f1)
    requires Live(k.dd, k.ext, k.refstack, d0) && Live(k.dd, k.ext, k.refstack, d1) && k.applyop == OR && level < k.varnum
    requires f0 in k.dd && f1 in k.dd && d0 in k.dd && d1 in k.dd && Under(level, k.dd[f0]) && Under(level, k.dd[f1])
    modifies k`nodes, k`freepos, k`freenum, k`caches, k`dd, k`lists, k`place, k`refstack
    ensures k.Ok() && k.refstack == old(k.refstack) && Keeps(old(k.Now()), k.refstack, k.Now())
    ensures Robdd(old(k.dd)[f0]) && Robdd(old(k.dd)[d0]) && Robdd(old(k.dd)[f1]) && Robdd(old(k.dd)[d1])
    ensures res in k.dd && k.dd[res] == Mk(level, Simplify(old(k.dd)[f0], old(k.dd)[d0]), Simplify(old(k.dd)[f1], old(k.dd)[d1]))
    decreases var m, n := |Support(k.dd[f0])| + |Support(k.dd[d0])|, |Support(k.dd[f1])| + |Support(k.dd[d1])|; if m < n then n else m, 2
  {
    hide Kernel.Ok, Sound, CachesOk, Live, Keeps, Levelled, Robdd, Support, Simplify, Mk;
    ghost var t, stack := k.Now(), k.refstack;
    Open(k, f0);
    Open(k, f1);
    Open(k, d0);
    Open(k, d1);
    SimplifyUnder(level, k.dd[f0], k.dd[d0]);
    SimplifyUnder(level, k.dd[f1], k.dd[d1]);
    var low := SimplifyRec(k, f0, d0);
    ghost var t1 := k.Now();
    Stays(t, stack, t1, f1);
    Stays(t, stack, t1, d1);
    PushRef(k, low);
    var high := SimplifyRec(k, f1, d1);
    ghost var t2 := k.Now();
    PushRef(k, high);
    TwoCalls(t, stack, t1, low, t2, high, t2);
    res := MakeTop(k, stack, low, high, level);
    TwoCalls(t, stack, t1, low, t2, high, k.Now());
  }

  lemma SimplifyUnder(l: nat, f: Dd, d: Dd)
    requires Robdd(f) && Robdd(d) && Under(l, f)
    ensures Under(l, Simplify(f, d))
  {
    SimplifyGood(f, d);
  }

  lemma SimplifyParts(f: Dd, d: Dd)
    requires Robdd(f) && Robdd(d) && f.Node? && d.Node? && f != d
    ensures Robdd(f.lo) && Robdd(f.hi) && Under(f.level, f.lo) && Under(f.level, f.hi)
    ensures |Support(f.lo)| < |Support(f)| && |Support(f.hi)| < |Support(f)|
    ensures var q, d0, d1 := Apply(OR, d.lo, d.hi), Cofactor(d, f.level, false), Cofactor(d, f.level, true);
            && Robdd(q) && |Support(q)| < |Support(d)| && Robdd(d0) && Robdd(d1)
            && |Support(d0)| <= |Support(d)| && |Support(d1)| <= |Support(d)|
            && Simplify(f, d) == (if d.level < f.level then Simplify(f, q)
                                  else if d.level == f.level && d.lo == Leaf(false) then Simplify(f.hi, d1)
                                  else if d.level == f.level && d.hi == Leaf(false) then Simplify(f.lo, d0)
                                  else Mk(f.level, Simplify(f.lo, d0), Simplify(f.hi, d1)))
  {
    hide Apply, Support, Robdd, Simplify, Half, Part, Dropped, Cofactor;
    UnderHigh(f);
    SimplifyOnce(f, d);
    var q := Dropped(d);
    var d0, d1 := Part(d, f.level, false), Part(d, f.level, true);
    var f0, f1 := Half(f, false), Half(f, true);
  }

  lemma SimplifyOnce(f: Dd, d: Dd)
    requires Robdd(f) && Robdd(d) && f.Node? && d.Node? && f != d
    ensures Simplify(f, d) == (if d.level < f.level then Simplify(f, Dropped(d))
                               else if d.level == f.level && d.lo == Leaf(false) then Simplify(Half(f, true), Part(d, f.level, true))
                               else if d.level == f.level && d.hi == Leaf(false) then Simplify(Half(f, false), Part(d, f.level, false))
                               else Mk(f.level, Simplify(Half(f, false), Part(d, f.level, false)), Simplify(Half(f, true), Part(d, f.level, true))))
  {
    hide Apply, Support, Robdd, Half, Part, Dropped, Cofactor, Mk;
  }

  /** bdd_constrain. */
  method ConstrainOf(k: Kernel, f: nat, c: nat) returns (res: nat)
    requires k.Ok() && Live(k.dd, k.ext, [], f) && Live(k.dd, k.ext, [], c)
    modifies k`nodes, k`freepos, k`freenum, k`caches, k`dd, k`lists, k`place, k`refstack, k`miscid
    ensures k.Ok() && Keeps(old(k.Now()), [], k.Now())
    ensures f in old(k.dd) && c in old(k.dd) && res in k.dd && k.dd[res] == Constrain(old(k.dd)[f], old(k.dd)[c])
  {
    hide Kernel.Ok, Live, Keeps;
    InitRef(k);
    SetMiscId(k, CACHEID_CONSTRAIN);
    res := ConstrainRec(k, f, c);
  }

  /** bdd_simplify. */
  method SimplifyOf(k: Kernel, f: nat, d: nat) returns (res: nat)
    requires k.Ok() && Live(k.dd, k.ext, [], f) && Live(k.dd, k.ext, [], d)
    modifies k`nodes, k`freepos, k`freenum, k`caches, k`dd, k`lists, k`place, k`refstack, k`applyop
    ensures k.Ok() && Keeps(old(k.Now()), [], k.Now())
    ensures f in old(k.dd) && d in old(k.dd) && Robdd(old(k.dd)[f]) && Robdd(old(k.dd)[d])
    ensures res in k.dd && k.dd[res] == Simplify(old(k.dd)[f], old(k.dd)[d])
    ensures forall a: Assign {:trigger Eval(k.dd[res], a)} :: Eval(old(k.dd)[d], a) ==> Eval(k.dd[res], a) == Eval(old(k.dd)[f], a)
    ensures Support(k.dd[res]) <= Support(old(k.dd)[f])
    ensures old(k.dd)[d] != Leaf(false) && (forall a: Assign {:trigger Eval(old(k.dd)[d], a)} :: Eval(old(k.dd)[d], a) ==> Eval(old(k.dd)[f], a)) ==> k.dd[res] == Leaf(true)
    ensures old(k.dd)[d] != Leaf(false) && (forall a: Assign {:trigger Eval(old(k.dd)[d], a)} :: Eval(old(k.dd)[d], a) ==> !Eval(old(k.dd)[f], a)) ==> k.dd[res] == Leaf(false)
  {
    hide Kernel.Ok, Live, Keeps, Simplify;
    InitRef(k);
    SetApplyOp(k, OR);
    res := SimplifyRec(k, f, d);
    SimplifyMeans(old(k.dd)[f], old(k.dd)[d]);
  }

  lemma {:induction false} SimplifyMeans(f: Dd, d: Dd)
    requires Robdd(f) && Robdd(d)
    ensures forall a: Assign {:trigger Eval(Simplify(f, d), a)} :: Eval(d, a) ==> Eval(Simplify(f, d), a) == Eval(f, a)
    ensures Support(Simplify(f, d)) <= Support(f)
    ensures d != Leaf(false) && (forall a: Assign {:trigger Eval(d, a)} :: Eval(d, a) ==> Eval(f, a)) ==> Simplify(f, d) == Leaf(true)
    ensures d != Leaf(false) && (forall a: Assign {:trigger Eval(d, a)} :: Eval(d, a) ==> !Eval(f, a)) ==> Simplify(f, d) == Leaf(false)
  {
    hide Simplify;
    SimplifyGood(f, d);
    forall a: Assign | Eval(d, a) ensures Eval(Simplify(f, d), a) == Eval(f, a) { SimplifyAgrees(f, d, a); }
    if d != Leaf(false) && forall a: Assign {:trigger Eval(d, a)} :: Eval(d, a) ==> Eval(f, a) {
      SimplifyImplied(f, d, true);
    }
    if d != Leaf(false) && forall a: Assign {:trigger Eval(d, a)} :: Eval(d, a) ==> !Eval(f, a) {
      SimplifyImplied(f, d, false);
    }
  }
}
