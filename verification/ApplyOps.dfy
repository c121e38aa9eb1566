/** bdd_not, bdd_apply and bdd_ite. */
module ApplyOps {
  import opened Dd
  import opened DdOps
  import opened Threads
  import opened TableState
  import opened OpCaches
  import opened KernelTable
  import opened OperatorBase

  /** not_rec. */
  method NotRec(k: Kernel, r: nat) returns (res: nat)
    requires k.Ok() && Live(k.dd, k.ext, k.refstack, r)
    modifies k`nodes, k`freepos, k`freenum, k`caches, k`dd, k`lists, k`place, k`refstack
    ensures k.Ok() && k.refstack == old(k.refstack) && Keeps(old(k.Now()), k.refstack, k.Now())
    ensures r in old(k.dd) && res in k.dd && k.dd[res] == Not(old(k.dd)[r])
    decreases assert r in k.dd by { Open(k, r); } Size(k.dd[r])
  {
    hide Kernel.Ok, Sound, CachesOk, Live, Keeps, Levelled, Hit;
    ghost var t, stack := k.Now(), k.refstack;
    Open(k, r);
    OkFacts(k);
    KeepsSame(t, stack);
    if r == 0 {
      return 1;
    }
    if r == 1 {
      return 0;
    }
    ApplyHit(k, r, 0, BDDOP_NOT);
    var e := Hit(k.caches.apply, k.slot, r, 0, BDDOP_NOT);
    if e.generation == k.caches.apply.generation && e.a == r && e.c == BDDOP_NOT {
      return e.res;
    }
    var level := k.nodes[r].level;
    var low := NotRec(k, k.nodes[r].low);
    ghost var t1 := k.Now();
    Stays(t, stack, t1, r);
    PushRef(k, low);
    Open(k, r);
    var high := NotRec(k, k.nodes[r].high);
    ghost var t2 := k.Now();
    PushRef(k, high);
    TwoCalls(t, stack, t1, low, t2, high, t2);
    NotMeans(t.dd[r].lo);
    NotMeans(t.dd[r].hi);
    res := MakeTop(k, stack, low, high, level);
    TwoCalls(t, stack, t1, low, t2, high, k.Now());
    Stays(t, stack, k.Now(), r);
    StoreApply(k, r, 0, BDDOP_NOT, res);
  }

  /** The shortcuts at the head of apply_rec; -1 when there is none. */
  function Shortcut(op: nat, l: nat, r: nat): int {
    if op == AND then
      if l == r then l else if l == 0 || r == 0 then 0 else if l == 1 then r else if r == 1 then l else -1
    else if op == OR then
      if l == r then l else if l == 1 || r == 1 then 1 else if l == 0 then r else if r == 0 then l else -1
    else if op == XOR then
      if l == r then 0 else if l == 0 then r else if r == 0 then l else -1
    else if op == NAND then
      if l == 0 || r == 0 then 1 else -1
    else if op == NOR then
      if l == 1 || r == 1 then 0 else -1
    else if op == IMP then
      if l == 0 then 1 else if l == 1 then r else if r == 1 then 1 else -1
    else -1
  }

  lemma ShortcutRight(dd: Trees, op: nat, l: nat, r: nat)
    requires op <= INVIMP && l in dd && r in dd && Robdd(dd[l]) && Robdd(dd[r])
    requires 0 in dd && dd[0] == Leaf(false) && 1 in dd && dd[1] == Leaf(true)
    ensures Shortcut(op, l, r) >= 0 ==> Shortcut(op, l, r) in dd && dd[Shortcut(op, l, r)] == Apply(op, dd[l], dd[r])
  {
    hide Apply, OprRes;
    ApplySame(dd[l]);
    ApplyZero(dd[l]);
    ApplyZero(dd[r]);
    ApplyOne(dd[l]);
    ApplyOne(dd[r]);
  }

  /** apply_rec. */
  method ApplyRec(k: Kernel, l: nat, r: nat) returns (res: nat)
    requires k.Ok() && Live(k.dd, k.ext, k.refstack, l) && Live(k.dd, k.ext, k.refstack, r) && k.applyop <= INVIMP
    modifies k`nodes, k`freepos, k`freenum, k`caches, k`dd, k`lists, k`place, k`refstack
    ensures k.Ok() && k.refstack == old(k.refstack) && Keeps(old(k.Now()), k.refstack, k.Now())
    ensures l in old(k.dd) && r in old(k.dd) && res in k.dd && k.dd[res] == Apply(k.applyop, old(k.dd)[l], old(k.dd)[r])
    decreases assert l in k.dd && r in k.dd by { Open(k, l); Open(k, r); } Size(k.dd[l]) + Size(k.dd[r])
  {
    hide Kernel.Ok, Sound, CachesOk, Live, Keeps, Levelled, Hit, Shortcut, Cofactor, OprRes, Apply, Size, Robdd, Top2, Mk;
    ghost var t, stack := k.Now(), k.refstack;
    Open(k, l);
    Open(k, r);
    OkFacts(k);
    KeepsSame(t, stack);
    ShortcutRight(k.dd, k.applyop, l, r);
    if Shortcut(k.applyop, l, r) >= 0 {
      return Shortcut(k.applyop, l, r);
    }
    if l < 2 && r < 2 {
      ApplyLeaves(k.applyop, l == 1, r == 1);
      return Bit(OprRes(k.applyop, l == 1, r == 1));
    }
    ApplyHit(k, l, r, k.applyop);
    var e := Hit(k.caches.apply, k.slot, l, r, k.applyop);
    if e.generation == k.caches.apply.generation && e.a == l && e.b == r && e.c == k.applyop {
      return e.res;
    }
    res := ApplyMiss(k, l, r);
    Stays(t, stack, k.Now(), l);
    Stays(t, stack, k.Now(), r);
    StoreApply(k, l, r, k.applyop, res);
  }

  /** The part of apply_rec that is reached when the cache does not have the result. */
  method ApplyMiss(k: Kernel, l: nat, r: nat) returns (res: nat)
    requires k.Ok() && Live(k.dd, k.ext, k.refstack, l) && Live(k.dd, k.ext, k.refstack, r) && k.applyop <= INVIMP
    requires 2 <= l || 2 <= r
    modifies k`nodes, k`freepos, k`freenum, k`caches, k`dd, k`lists, k`place, k`refstack
    ensures k.Ok() && k.refstack == old(k.refstack) && Keeps(old(k.Now()), k.refstack, k.Now())
    ensures l in old(k.dd) && r in old(k.dd) && res in k.dd && k.dd[res] == Apply(k.applyop, old(k.dd)[l], old(k.dd)[r])
    decreases assert l in k.dd && r in k.dd by { Open(k, l); Open(k, r); } Size(k.dd[l]) + Size(k.dd[r]), 0
  {
    hide Kernel.Ok, Sound, CachesOk, Live, Keeps, Levelled, Cofactor, OprRes, Apply, Size, Robdd, Top2, Mk;
    ghost var t, stack := k.Now(), k.refstack;
    Open(k, l);
    Open(k, r);
    var level, l0, l1, r0, r1 := Split2(k, l, r);
    ApplyHalves(k.applyop, k.dd[l], k.dd[r], level);
    var low := ApplyRec(k, l0, r0);
    ghost var t1 := k.Now();
    Stays(t, stack, t1, l1);
    Stays(t, stack, t1, r1);
    PushRef(k, low);
    var high := ApplyRec(k, l1, r1);
    ghost var t2 := k.Now();
    PushRef(k, high);
    TwoCalls(t, stack, t1, low, t2, high, t2);
    res := MakeTop(k, stack, low, high, level);
    TwoCalls(t, stack, t1, low, t2, high, k.Now());
  }

  lemma ApplyLeaves(op: nat, x: bool, y: bool)
    requires op <= INVIMP
    ensures Apply(op, Leaf(x), Leaf(y)) == Leaf(OprRes(op, x, y))
  {
  }

  /** The two halves of a result. */
  lemma ApplyHalves(op: nat, s: Dd, t: Dd, l: nat)
    requires op <= INVIMP && Robdd(s) && Robdd(t) && (s.Node? || t.Node?) && l == Top2(s, t)
    ensures var s0, s1, t0, t1 := Cofactor(s, l, false), Cofactor(s, l, true), Cofactor(t, l, false), Cofactor(t, l, true);
            && Size(s0) + Size(t0) < Size(s) + Size(t) && Size(s1) + Size(t1) < Size(s) + Size(t)
            && Under(l, Apply(op, s0, t0)) && Under(l, Apply(op, s1, t1))
            && Apply(op, s, t) == Mk(l, Apply(op, s0, t0), Apply(op, s1, t1))
  {
    forall v: bool ensures Under(l, Apply(op, Cofactor(s, l, v), Cofactor(t, l, v))) {
      CofactorFacts(s, l, v);
      CofactorFacts(t, l, v);
      ApplyMeans(op, Cofactor(s, l, v), Cofactor(t, l, v));
    }
    CofactorFacts(s, l, false);
    CofactorFacts(s, l, true);
    CofactorFacts(t, l, false);
    CofactorFacts(t, l, true);
  }

  /* ---- if-then-else ---- */

  /** ite_rec. */
  method IteRec(k: Kernel, f: nat, g: nat, h: nat) returns (res: nat)
    requires k.Ok() && Live(k.dd, k.ext, k.refstack, f) && Live(k.dd, k.ext, k.refstack, g) && Live(k.dd, k.ext, k.refstack, h)
    modifies k`nodes, k`freepos, k`freenum, k`caches, k`dd, k`lists, k`place, k`refstack
    ensures k.Ok() && k.refstack == old(k.refstack) && Keeps(old(k.Now()), k.refstack, k.Now())
    ensures f in old(k.dd) && g in old(k.dd) && h in old(k.dd)
    ensures res in k.dd && k.dd[res] == Ite(old(k.dd)[f], old(k.dd)[g], old(k.dd)[h])
    decreases assert f in k.dd && g in k.dd && h in k.dd by { Open(k, f); Open(k, g); Open(k, h); }
              Size(k.dd[f]) + Size(k.dd[g]) + Size(k.dd[h])
  {
    hide Kernel.Ok, Sound, CachesOk, Live, Keeps, Levelled, Hit, Ite, Size, Robdd;
    ghost var t, stack := k.Now(), k.refstack;
    Open(k, f);
    Open(k, g);
    Open(k, h);
    OkFacts(k);
    SameId(t, k.hash, g, h);
    KeepsSame(t, stack);
    IteShortcuts(k.dd[f], k.dd[g], k.dd[h]);
    if f == 1 {
      return g;
    }
    if f == 0 {
      return h;
    }
    if g == h {
      return g;
    }
    if g == 1 && h == 0 {
      return f;
    }
    if g == 0 && h == 1 {
      res := NotRec(k, f);
      return;
    }
    IteHit(k, f, g, h);
    var e := Hit(k.caches.ite, k.slot, f, g, h);
    if e.generation == k.caches.ite.generation && e.a == f && e.b == g && e.c == h {
      return e.res;
    }
    res := IteMiss(k, f, g, h);
    Stays(t, stack, k.Now(), f);
    Stays(t, stack, k.Now(), g);
    Stays(t, stack, k.Now(), h);
    StoreIte(k, f, g, h, res);
  }

  method IteMiss(k: Kernel, f: nat, g: nat, h: nat) returns (res: nat)
    requires k.Ok() && Live(k.dd, k.ext, k.refstack, f) && Live(k.dd, k.ext, k.refstack, g) && Live(k.dd, k.ext, k.refstack, h)
    requires 2 <= f || 2 <= g || 2 <= h
    modifies k`nodes, k`freepos, k`freenum, k`caches, k`dd, k`lists, k`place, k`refstack
    ensures k.Ok() && k.refstack == old(k.refstack) && Keeps(old(k.Now()), k.refstack, k.Now())
    ensures f in old(k.dd) && g in old(k.dd) && h in old(k.dd)
    ensures res in k.dd && k.dd[res] == Ite(old(k.dd)[f], old(k.dd)[g], old(k.dd)[h])
    decreases assert f in k.dd && g in k.dd && h in k.dd by { Open(k, f); Open(k, g); Open(k, h); }
              Size(k.dd[f]) + Size(k.dd[g]) + Size(k.dd[h]), 0
  {
    hide Kernel.Ok, Sound, CachesOk, Live, Keeps, Levelled, Cofactor, Ite, Size, Robdd, Top3, Mk;
    ghost var t, stack := k.Now(), k.refstack;
    Open(k, f);
    Open(k, g);
    Open(k, h);
    var level, f0, f1, g0, g1, h0, h1 := Split3(k, f, g, h);
    IteHalves(k.dd[f], k.dd[g], k.dd[h], level);
    var low := IteRec(k, f0, g0, h0);
    ghost var t1 := k.Now();
    Stays(t, stack, t1, f1);
    Stays(t, stack, t1, g1);
    Stays(t, stack, t1, h1);
    PushRef(k, low);
    var high := IteRec(k, f1, g1, h1);
    ghost var t2 := k.Now();
    PushRef(k, high);
    TwoCalls(t, stack, t1, low, t2, high, t2);
    res := MakeTop(k, stack, low, high, level);
    TwoCalls(t, stack, t1, low, t2, high, k.Now());
  }

  lemma IteHalves(f: Dd, g: Dd, h: Dd, l: nat)
    requires Robdd(f) && Robdd(g) && Robdd(h) && (f.Node? || g.Node? || h.Node?) && l == Top3(f, g, h)
    ensures var r0 := Ite(Cofactor(f, l, false), Cofactor(g, l, false), Cofactor(h, l, false));
            var r1 := Ite(Cofactor(f, l, true), Cofactor(g, l, true), Cofactor(h, l, true));
            Under(l, r0) && Under(l, r1) && Ite(f, g, h) == Mk(l, r0, r1)
    ensures forall v: bool {:trigger Cofactor(f, l, v)} ::
              Size(Cofactor(f, l, v)) + Size(Cofactor(g, l, v)) + Size(Cofactor(h, l, v)) < Size(f) + Size(g) + Size(h)
  {
    var r0 := IteBranch(f, g, h, l, false);
    var r1 := IteBranch(f, g, h, l, true);
    forall v: bool
      ensures Size(Cofactor(f, l, v)) + Size(Cofactor(g, l, v)) + Size(Cofactor(h, l, v)) < Size(f) + Size(g) + Size(h)
    {
      CofactorFacts(f, l, v);
      CofactorFacts(g, l, v);
      CofactorFacts(h, l, v);
    }
  }

  /* ---- the operations themselves: they start with an empty reference stack ---- */

  /** bdd_not. */
  method NotOf(k: Kernel, r: nat) returns (res: nat)
    requires k.Ok() && Live(k.dd, k.ext, [], r)
    modifies k`nodes, k`freepos, k`freenum, k`caches, k`dd, k`lists, k`place, k`refstack
    ensures k.Ok() && Keeps(old(k.Now()), [], k.Now())
    ensures r in old(k.dd) && res in k.dd && k.dd[res] == Not(old(k.dd)[r])
  {
    hide Kernel.Ok, Live, Keeps;
    InitRef(k);
    res := NotRec(k, r);
  }

  /** bdd_apply: an unknown operator gives false. */
  method ApplyOf(k: Kernel, l: nat, r: nat, op: int) returns (res: nat)
    requires k.Ok() && Live(k.dd, k.ext, [], l) && Live(k.dd, k.ext, [], r)
    modifies k`nodes, k`freepos, k`freenum, k`caches, k`dd, k`lists, k`place, k`refstack, k`applyop
    ensures k.Ok() && Keeps(old(k.Now()), [], k.Now())
    ensures 0 <= op <= INVIMP ==>
              l in old(k.dd) && r in old(k.dd) && res in k.dd && k.dd[res] == Apply(op, old(k.dd)[l], old(k.dd)[r])
    ensures op < 0 || op > INVIMP ==> res == 0 && k.dd == old(k.dd)
  {
    hide Sound, CachesOk, Levelled, Live, Keeps;
    if op < 0 || op > INVIMP {
      KeepsSame(k.Now(), []);
      return 0;
    }
    InitRef(k);
    k.applyop := op;
    res := ApplyRec(k, l, r);
  }

  /** bdd_ite. */
  method IteOf(k: Kernel, f: nat, g: nat, h: nat) returns (res: nat)
    requires k.Ok() && Live(k.dd, k.ext, [], f) && Live(k.dd, k.ext, [], g) && Live(k.dd, k.ext, [], h)
    modifies k`nodes, k`freepos, k`freenum, k`caches, k`dd, k`lists, k`place, k`refstack
    ensures k.Ok() && Keeps(old(k.Now()), [], k.Now())
    ensures f in old(k.dd) && g in old(k.dd) && h in old(k.dd)
    ensures res in k.dd && k.dd[res] == Ite(old(k.dd)[f], old(k.dd)[g], old(k.dd)[h])
  {
    hide Kernel.Ok, Live, Keeps;
    InitRef(k);
    res := IteRec(k, f, g, h);
  }
}
