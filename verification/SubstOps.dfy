/** bdd_compose, bdd_veccompose and bdd_replace with bdd_correctify. */
module SubstOps {
  import opened Dd
  import opened DdOps
  import opened DdSubst
  import opened DdRename
  import opened Threads
  import opened TableState
  import opened OpCaches
  import opened KernelTable
  import opened OperatorBase
  import opened ApplyOps
  import opened QuantOps

  /* ---- composition with one function ---- */

  /** compose_rec. */
  method ComposeRec(k: Kernel, f: nat, g: nat) returns (res: nat)
    requires k.Ok() && Live(k.dd, k.ext, k.refstack, f) && Live(k.dd, k.ext, k.refstack, g)
    requires k.composelevel < k.varnum && k.replaceid == ReplaceId(k.composelevel, CACHEID_COMPOSE)
    modifies k`nodes, k`freepos, k`freenum, k`caches, k`dd, k`lists, k`place, k`refstack
    ensures k.Ok() && k.refstack == old(k.refstack) && Keeps(old(k.Now()), k.refstack, k.Now())
    ensures f in old(k.dd) && g in old(k.dd) && res in k.dd && k.dd[res] == Compose(old(k.dd)[f], old(k.dd)[g], k.composelevel)
    decreases assert f in k.dd && g in k.dd by { Open(k, f); Open(k, g); } Size(k.dd[f]) + Size(k.dd[g]), 1
  {
    hide Kernel.Ok, Sound, CachesOk, Live, Keeps, Levelled, Hit, Robdd, Size, Compose, ReplaceId;
    ghost var t, stack := k.Now(), k.refstack;
    Open(k, f);
    Open(k, g);
    LevelOf(k, f);
    KeepsSame(t, stack);
    ComposeShort(k.dd[f], k.dd[g], k.composelevel);
    if k.nodes[f].level > k.composelevel {
      return f;
    }
    ReplaceHit(k, f, g, k.replaceid);
    ReplaceIdDecodes(k.composelevel, CACHEID_COMPOSE);
    var e := Hit(k.caches.replace, k.slot, f, g, k.replaceid);
    if e.generation == k.caches.replace.generation && e.a == f && e.b == g && e.c == k.replaceid {
      return e.res;
    }
    res := ComposeMiss(k, f, g);
    Stays(t, stack, k.Now(), f);
    Stays(t, stack, k.Now(), g);
    StoreReplace(k, f, g, k.replaceid, res);
  }

  lemma ComposeShort(f: Dd, g: Dd, x: nat)
    requires Robdd(f) && Robdd(g)
    ensures (f.Node? ==> x < f.level) ==> Compose(f, g, x) == f
    ensures f.Node? && f.level == x ==> Compose(f, g, x) == Ite(g, f.hi, f.lo)
  {
  }

  method ComposeMiss(k: Kernel, f: nat, g: nat) returns (res: nat)
    requires k.Ok() && Live(k.dd, k.ext, k.refstack, f) && Live(k.dd, k.ext, k.refstack, g)
    requires k.composelevel < k.varnum && k.replaceid == ReplaceId(k.composelevel, CACHEID_COMPOSE)
    requires f < |k.nodes| && k.nodes[f].level <= k.composelevel
    modifies k`nodes, k`freepos, k`freenum, k`caches, k`dd, k`lists, k`place, k`refstack
    ensures k.Ok() && k.refstack == old(k.refstack) && Keeps(old(k.Now()), k.refstack, k.Now())
    ensures f in old(k.dd) && g in old(k.dd) && res in k.dd && k.dd[res] == Compose(old(k.dd)[f], old(k.dd)[g], k.composelevel)
    decreases assert f in k.dd && g in k.dd by { Open(k, f); Open(k, g); } Size(k.dd[f]) + Size(k.dd[g]), 0
  {
    hide Kernel.Ok, Sound, CachesOk, Live, Keeps, Levelled, Robdd, Size, Compose, ReplaceId, Cofactor, Mk, Ite, Top2;
    ghost var t, stack := k.Now(), k.refstack;
    Open(k, f);
    Open(k, g);
    LevelOf(k, f);
    ComposeShort(k.dd[f], k.dd[g], k.composelevel);
    if k.nodes[f].level < k.composelevel {
      var level, f0, f1, g0, g1 := Split2(k, f, g);
      ComposeHalves(k.dd[f], k.dd[g], k.composelevel, level);
      var low := ComposeRec(k, f0, g0);
      ghost var t1 := k.Now();
      Stays(t, stack, t1, f1);
      Stays(t, stack, t1, g1);
      PushRef(k, low);
      var high := ComposeRec(k, f1, g1);
      ghost var t2 := k.Now();
      PushRef(k, high);
      TwoCalls(t, stack, t1, low, t2, high, t2);
      res := MakeTop(k, stack, low, high, level);
      TwoCalls(t, stack, t1, low, t2, high, k.Now());
    } else {
      res := IteRec(k, g, k.nodes[f].high, k.nodes[f].low);
    }
  }

  lemma ComposeHalves(f: Dd, g: Dd, x: nat, l: nat)
    requires Robdd(f) && Robdd(g) && f.Node? && f.level < x && l == Top2(f, g)
    ensures var f0, f1, g0, g1 := Cofactor(f, l, false), Cofactor(f, l, true), Cofactor(g, l, false), Cofactor(g, l, true);
            && Size(f0) + Size(g0) < Size(f) + Size(g) && Size(f1) + Size(g1) < Size(f) + Size(g)
            && Under(l, Compose(f0, g0, x)) && Under(l, Compose(f1, g1, x))
            && Compose(f, g, x) == Mk(l, Compose(f0, g0, x), Compose(f1, g1, x))
  {
    CofactorFacts(f, l, false);
    CofactorFacts(f, l, true);
    CofactorFacts(g, l, false);
    CofactorFacts(g, l, true);
    var r0 := ComposeBranch(f, g, x, l, false);
    var r1 := ComposeBranch(f, g, x, l, true);
  }

  /* ---- composition with a function for every level ---- */

  /** The result array of a pair holds the nodes of the substitution, and all of them are alive. */
  ghost predicate PairAt(dd: Trees, ext: set<nat>, stack: seq<nat>, pair: seq<nat>, sub: Subst) {
    && |sub| == |pair| && GoodSubst(sub)
    && forall l {:trigger pair[l]} :: 0 <= l < |pair| ==> Live(dd, ext, stack, pair[l]) && pair[l] in dd && dd[pair[l]] == sub[l]
  }

  lemma PairStays(t: Table, stack: seq<nat>, t': Table, pair: seq<nat>, sub: Subst)
    requires Keeps(t, stack, t') && PairAt(t.dd, t.ext, stack, pair, sub)
    ensures PairAt(t'.dd, t'.ext, stack, pair, sub)
  {
    forall l | 0 <= l < |pair| ensures Live(t'.dd, t'.ext, stack, pair[l]) && pair[l] in t'.dd && t'.dd[pair[l]] == sub[l] {
      KeepsLive(t, stack, t', pair[l]);
    }
  }

  lemma PairPushed(dd: Trees, ext: set<nat>, stack: seq<nat>, n: nat, pair: seq<nat>, sub: Subst)
    requires PairAt(dd, ext, stack, pair, sub)
    ensures PairAt(dd, ext, stack + [n], pair, sub)
  {
    PushLive(dd, ext, stack, n);
    hide Live;
  }

  lemma PairEntry(dd: Trees, ext: set<nat>, stack: seq<nat>, pair: seq<nat>, sub: Subst, l: nat)
    requires PairAt(dd, ext, stack, pair, sub) && l < |pair|
    ensures Live(dd, ext, stack, pair[l]) && pair[l] in dd && dd[pair[l]] == sub[l] == Sub(sub, l) && GoodSubst(sub)
  {
  }

  /** The mode of veccompose and replace: which pair is used, under which id. */
  ghost predicate PairStatics(k: Kernel, sub: Subst, id: nat)
    reads k`replacepair, k`replacelast, k`replaceid, k`pairs, k`varnum
  {
    && id < 3 && k.replaceid % 4 == id && k.replaceid / 4 in k.pairs && k.pairs[k.replaceid / 4] == sub
    && |k.replacepair| == k.varnum && k.replacelast < k.varnum
    && forall l: nat {:trigger Sub(sub, l)} :: k.replacelast < l ==> Sub(sub, l) == Var(l)
  }

  ghost predicate PairMode(k: Kernel, sub: Subst, id: nat)
    reads k
  {
    PairStatics(k, sub, id) && PairAt(k.dd, k.ext, k.refstack, k.replacepair, sub)
  }

  /** veccompose_rec. */
  method VecComposeRec(k: Kernel, f: nat, ghost sub: Subst) returns (res: nat)
    requires k.Ok() && Live(k.dd, k.ext, k.refstack, f) && PairMode(k, sub, CACHEID_VECCOMPOSE)
    modifies k`nodes, k`freepos, k`freenum, k`caches, k`dd, k`lists, k`place, k`refstack
    ensures k.Ok() && k.refstack == old(k.refstack) && Keeps(old(k.Now()), k.refstack, k.Now())
    ensures PairMode(k, sub, CACHEID_VECCOMPOSE)
    ensures f in old(k.dd) && res in k.dd && k.dd[res] == VecCompose(old(k.dd)[f], sub)
    decreases assert f in k.dd by { Open(k, f); } Size(k.dd[f]), 1
  {
    hide Kernel.Ok, Sound, CachesOk, Live, Keeps, Levelled, Hit, Robdd, Size, VecCompose, PairAt;
    ghost var t, stack := k.Now(), k.refstack;
    Open(k, f);
    LevelOf(k, f);
    KeepsSame(t, stack);
    if k.nodes[f].level > k.replacelast {
      VecComposeShort(k, f, sub, CACHEID_VECCOMPOSE);
      return f;
    }
    hide PairStatics;
    PairId(k, sub, CACHEID_VECCOMPOSE);
    ReplaceHit(k, f, 0, k.replaceid);
    var e := Hit(k.caches.replace, k.slot, f, 0, k.replaceid);
    if e.generation == k.caches.replace.generation && e.a == f && e.c == k.replaceid {
      return e.res;
    }
    res := VecComposeMiss(k, f, sub);
    Stays(t, stack, k.Now(), f);
    PairId(k, sub, CACHEID_VECCOMPOSE);
    StoreReplace(k, f, 0, k.replaceid, res);
  }

  lemma PairId(k: Kernel, sub: Subst, id: nat)
    requires PairStatics(k, sub, id)
    ensures k.replaceid % 4 == id && k.replaceid / 4 in k.pairs && k.pairs[k.replaceid / 4] == sub && |k.replacepair| == k.varnum
    ensures k.replacelast < k.varnum
  {
  }

  lemma VecComposeShort(k: Kernel, f: nat, sub: Subst, id: nat)
    requires PairMode(k, sub, id) && f in k.dd && Robdd(k.dd[f]) && (k.dd[f].Node? ==> k.replacelast < k.dd[f].level)
    ensures VecCompose(k.dd[f], sub) == k.dd[f]
  {
    hide Live;
    VecComposeNothing(k.dd[f], sub, k.replacelast);
  }

  method VecComposeMiss(k: Kernel, f: nat, ghost sub: Subst) returns (res: nat)
    requires k.Ok() && Live(k.dd, k.ext, k.refstack, f) && PairMode(k, sub, CACHEID_VECCOMPOSE) && 2 <= f
    modifies k`nodes, k`freepos, k`freenum, k`caches, k`dd, k`lists, k`place, k`refstack
    ensures k.Ok() && k.refstack == old(k.refstack) && Keeps(old(k.Now()), k.refstack, k.Now())
    ensures PairMode(k, sub, CACHEID_VECCOMPOSE)
    ensures f in old(k.dd) && res in k.dd && k.dd[res] == VecCompose(old(k.dd)[f], sub)
    decreases assert f in k.dd by { Open(k, f); } Size(k.dd[f]), 0
  {
    hide Kernel.Ok, Sound, CachesOk, Live, Keeps, Levelled, Robdd, PairAt, PairStatics, Ite;
    ghost var t, stack := k.Now(), k.refstack;
    Open(k, f);
    var level := k.nodes[f].level;
    var low := VecComposeRec(k, k.nodes[f].low, sub);
    ghost var t1 := k.Now();
    Stays(t, stack, t1, f);
    PushRef(k, low);
    PairPushed(k.dd, k.ext, stack, low, k.replacepair, sub);
    Open(k, f);
    var high := VecComposeRec(k, k.nodes[f].high, sub);
    ghost var t2 := k.Now();
    PushRef(k, high);
    PairPushed(k.dd, k.ext, stack + [low], high, k.replacepair, sub);
    TwoCalls(t, stack, t1, low, t2, high, t2);
    PairId(k, sub, CACHEID_VECCOMPOSE);
    PairEntry(k.dd, k.ext, k.refstack, k.replacepair, sub, level);
    res := IteTop(k, stack, low, high, k.replacepair[level]);
    TwoCalls(t, stack, t1, low, t2, high, k.Now());
    PairStays(t, stack, k.Now(), k.replacepair, sub);
  }

  /** ite_rec with the two topmost entries of the stack as branches; they are popped. */
  method IteTop(k: Kernel, ghost stack: seq<nat>, low: nat, high: nat, f: nat) returns (res: nat)
    requires k.Ok() && k.refstack == stack + [low] + [high] && low in k.dd && high in k.dd && Live(k.dd, k.ext, k.refstack, f)
    modifies k`nodes, k`freepos, k`freenum, k`caches, k`dd, k`lists, k`place, k`refstack
    ensures k.Ok() && k.refstack == stack && Keeps(old(k.Now()), stack, k.Now())
    ensures f in old(k.dd) && res in k.dd && k.dd[res] == Ite(old(k.dd)[f], old(k.dd)[high], old(k.dd)[low])
  {
    hide Kernel.Ok, Sound, CachesOk, Live, Keeps, Levelled, Ite;
    ghost var t := k.Now();
    RootLive(k.dd, k.ext, k.refstack, low);
    RootLive(k.dd, k.ext, k.refstack, high);
    res := IteRec(k, f, high, low);
    PopRef(k, 2);
    KeepsLess(t, stack + [low] + [high], stack, k.Now());
  }

  /* ---- renaming ---- */

  /** bdd_correctify: fails exactly when the level is tested in one of the operands. */
  method Correctify(k: Kernel, level: nat, l: nat, r: nat) returns (res: nat, err: bool)
    requires k.Ok() && Live(k.dd, k.ext, k.refstack, l) && Live(k.dd, k.ext, k.refstack, r) && level < k.varnum
    modifies k`nodes, k`freepos, k`freenum, k`caches, k`dd, k`lists, k`place, k`refstack
    ensures k.Ok() && k.refstack == old(k.refstack) && Keeps(old(k.Now()), k.refstack, k.Now())
    ensures l in old(k.dd) && r in old(k.dd) && res in k.dd
    ensures NoNews(old(k.caches).replace, old(k.dd), k.caches.replace, k.dd)
    ensures err <==> level in Support(old(k.dd)[l]) + Support(old(k.dd)[r])
    ensures !err ==> k.dd[res] == Correct(level, old(k.dd)[l], old(k.dd)[r])
    ensures forall x: nat {:trigger Under(x, k.dd[res])} ::
              Under(x, old(k.dd)[l]) && Under(x, old(k.dd)[r]) && x < level ==> Under(x, k.dd[res])
    decreases assert l in k.dd && r in k.dd by { Open(k, l); Open(k, r); } Size(k.dd[l]) + Size(k.dd[r]), 1
  {
    hide Kernel.Ok, Sound, CachesOk, Live, Keeps, Levelled, Robdd, Size, Correct, Support, NoNews;
    ghost var t, stack := k.Now(), k.refstack;
    Open(k, l);
    Open(k, r);
    LevelOf(k, l);
    LevelOf(k, r);
    OkFacts(k);
    KeepsSame(t, stack);
    NoNewsGrow(k.caches.replace, k.dd, k.dd);
    CorrectShort(level, k.dd[l], k.dd[r]);
    if level < k.nodes[l].level && level < k.nodes[r].level {
      PushRef(k, l);
      PushRef(k, r);
      res := MakeTop(k, stack, l, r, level);
      return res, false;
    }
    if level == k.nodes[l].level || level == k.nodes[r].level {
      return 0, true;
    }
    res, err := CorrectifyDown(k, level, l, r);
  }

  lemma CorrectShort(l: nat, lo: Dd, hi: Dd)
    requires Robdd(lo) && Robdd(hi)
    ensures Under(l, lo) && Under(l, hi) ==> Correct(l, lo, hi) == Mk(l, lo, hi) && l !in Support(lo) + Support(hi)
    ensures (lo.Node? && lo.level == l) || (hi.Node? && hi.level == l) ==> l in Support(lo) + Support(hi)
  {
    if Under(l, lo) && Under(l, hi) {
      CorrectTop(l, lo, hi);
      SupportBelow(lo, l);
      SupportBelow(hi, l);
    }
  }

  method CorrectifyDown(k: Kernel, level: nat, l: nat, r: nat) returns (res: nat, err: bool)
    requires k.Ok() && Live(k.dd, k.ext, k.refstack, l) && Live(k.dd, k.ext, k.refstack, r) && level < k.varnum
    requires l in k.dd && r in k.dd && (k.dd[l].Node? || k.dd[r].Node?) && Top2(k.dd[l], k.dd[r]) < level && (2 <= l || 2 <= r)
    modifies k`nodes, k`freepos, k`freenum, k`caches, k`dd, k`lists, k`place, k`refstack
    ensures k.Ok() && k.refstack == old(k.refstack) && Keeps(old(k.Now()), k.refstack, k.Now())
    ensures res in k.dd
    ensures NoNews(old(k.caches).replace, old(k.dd), k.caches.replace, k.dd)
    ensures err <==> level in Support(old(k.dd)[l]) + Support(old(k.dd)[r])
    ensures !err ==> k.dd[res] == Correct(level, old(k.dd)[l], old(k.dd)[r])
    ensures forall x: nat {:trigger Under(x, k.dd[res])} ::
              Under(x, old(k.dd)[l]) && Under(x, old(k.dd)[r]) && x < level ==> Under(x, k.dd[res])
    decreases Size(k.dd[l]) + Size(k.dd[r]), 0
  {
    hide Kernel.Ok, Sound, CachesOk, Live, Keeps, Levelled, Robdd, Size, Correct, Support, Cofactor, Top2, NoNews;
    ghost var t, stack, c := k.Now(), k.refstack, k.caches.replace;
    Open(k, l);
    Open(k, r);
    var m, l0, l1, r0, r1 := Split2(k, l, r);
    CorrectHalves(level, k.dd[l], k.dd[r], m);
    var low, err0 := Correctify(k, level, l0, r0);
    ghost var t1, c1 := k.Now(), k.caches.replace;
    Stays(t, stack, t1, l1);
    Stays(t, stack, t1, r1);
    PushRef(k, low);
    var high, err1 := Correctify(k, level, l1, r1);
    ghost var t2, c2 := k.Now(), k.caches.replace;
    NoNewsTrans(c, t.dd, c1, t1.dd, c2, t2.dd);
    PushRef(k, high);
    TwoCalls(t, stack, t1, low, t2, high, t2);
    res := MakeTop(k, stack, low, high, m);
    TwoCalls(t, stack, t1, low, t2, high, k.Now());
    NoNewsTrans(c, t.dd, c2, t2.dd, k.caches.replace, k.dd);
    err := err0 || err1;
  }

  lemma CorrectHalves(l: nat, lo: Dd, hi: Dd, m: nat)
    requires Robdd(lo) && Robdd(hi) && (lo.Node? || hi.Node?) && m == Top2(lo, hi) && m < l
    ensures var lo0, lo1, hi0, hi1 := Cofactor(lo, m, false), Cofactor(lo, m, true), Cofactor(hi, m, false), Cofactor(hi, m, true);
            && Size(lo0) + Size(hi0) < Size(lo) + Size(hi) && Size(lo1) + Size(hi1) < Size(lo) + Size(hi)
            && Under(m, lo0) && Under(m, hi0) && Under(m, lo1) && Under(m, hi1)
            && Correct(l, lo, hi) == Mk(m, Correct(l, lo0, hi0), Correct(l, lo1, hi1))
            && (l in Support(lo) + Support(hi) <==> l in Support(lo0) + Support(hi0) || l in Support(lo1) + Support(hi1))
    ensures forall x: nat {:trigger Under(x, lo)} :: Under(x, lo) && Under(x, hi) ==> x < m
  {
    CofactorFacts(lo, m, false);
    CofactorFacts(lo, m, true);
    CofactorFacts(hi, m, false);
    CofactorFacts(hi, m, true);
    CorrectDown(l, lo, hi, m);
    hide Correct;
  }

  /** Every valid entry under the id is for a tree that can be renamed. */
  ghost predicate Clean(c: Cache, dd: Trees, id: nat, ren: Renaming) {
    forall i: nat {:trigger Valid(c, i)} :: Valid(c, i) && c.table[i].c == id ==> c.table[i].a in dd && Renamable(dd[c.table[i].a], ren)
  }

  lemma CleanStays(c: Cache, dd: Trees, c': Cache, dd': Trees, id: nat, ren: Renaming)
    requires NoNews(c, dd, c', dd') && Clean(c, dd, id, ren)
    ensures Clean(c', dd', id, ren)
  {
    hide Renamable;
    forall i: nat | Valid(c', i) && c'.table[i].c == id ensures c'.table[i].a in dd' && Renamable(dd'[c'.table[i].a], ren) {
      assert Valid(c, i);
    }
  }

  lemma CleanStored(c: Cache, i: nat, e: Entry, dd: Trees, id: nat, ren: Renaming)
    requires Clean(c, dd, id, ren) && i < |c.table| && e.a in dd && Renamable(dd[e.a], ren)
    ensures Clean(Stored(c, i, e), dd, id, ren)
  {
    hide Renamable;
    var c' := Stored(c, i, e);
    forall j: nat | Valid(c', j) && c'.table[j].c == id ensures c'.table[j].a in dd && Renamable(dd[c'.table[j].a], ren) {
      if j != i { assert Valid(c, j); }
    }
  }

  lemma CleanAt(k: Kernel, r: nat, ren: Renaming)
    requires 0 < |k.caches.replace.table| && k.slot(|k.caches.replace.table|, r, 0, k.replaceid) < |k.caches.replace.table|
    requires r in k.dd && Clean(k.caches.replace, k.dd, k.replaceid, ren) && Remembered(k, r, Hit(k.caches.replace, k.slot, r, 0, k.replaceid).res)
    ensures Renamable(k.dd[r], ren)
  {
    hide Renamable;
    assert Valid(k.caches.replace, k.slot(|k.caches.replace.table|, r, 0, k.replaceid));
  }

  /** The cache has the answer for r under the current id. */
  ghost predicate Remembered(k: Kernel, r: nat, res: nat)
    reads k
  {
    var c := k.caches.replace;
    && 0 < |c.table| && k.slot(|c.table|, r, 0, k.replaceid) < |c.table|
    && var e := Hit(c, k.slot, r, 0, k.replaceid); e.generation == c.generation && e.a == r && e.c == k.replaceid && e.res == res
  }

  /** Nothing to rename, and no look at the cache. */
  predicate AsItIs(d: Dd, last: int) { d.Leaf? || d.level > last }

  /**
    replace_rec: a renamable tree is renamed without an error. When the cache has
    no answer for a tree that is not, an error is reported exactly for those.
  */
  method ReplaceRec(k: Kernel, r: nat, ghost sub: Subst, ghost ren: Renaming) returns (res: nat, err: bool)
    requires k.Ok() && Live(k.dd, k.ext, k.refstack, r) && PairMode(k, sub, CACHEID_REPLACE) && IsRenaming(sub, ren)
    requires NewBelow(ren, k.varnum)
    modifies k`nodes, k`freepos, k`freenum, k`caches, k`dd, k`lists, k`place, k`refstack
    ensures k.Ok() && k.refstack == old(k.refstack) && Keeps(old(k.Now()), k.refstack, k.Now())
    ensures PairMode(k, sub, CACHEID_REPLACE)
    ensures r in old(k.dd) && res in k.dd
    ensures Renamable(old(k.dd)[r], ren) ==> !err && k.dd[res] == Rename(old(k.dd)[r], ren)
    ensures Clean(old(k.caches).replace, old(k.dd), k.replaceid, ren) ==>
              && (err <==> !Renamable(old(k.dd)[r], ren))
              && (!err ==> Clean(k.caches.replace, k.dd, k.replaceid, ren))
    ensures AsItIs(old(k.dd)[r], k.replacelast) ==> res == r && !err
    ensures !AsItIs(old(k.dd)[r], k.replacelast) ==> Remembered(k, r, res)
    ensures forall x: nat {:trigger old(Remembered(k, r, x))} :: old(Remembered(k, r, x)) && !AsItIs(old(k.dd)[r], k.replacelast) ==> !err && res == x
    decreases assert r in k.dd by { Open(k, r); } Size(k.dd[r]), 1
  {
    hide Kernel.Ok, Sound, CachesOk, Live, Keeps, Levelled, Robdd, Size, Rename, Renamable, PairAt, AsSubst, Clean;
    ghost var t, stack := k.Now(), k.refstack;
    Open(k, r);
    LevelOf(k, r);
    KeepsSame(t, stack);
    if r < 2 || k.nodes[r].level > k.replacelast {
      RenameShort(k, r, sub, ren);
      return r, false;
    }
    hide PairStatics;
    PairId(k, sub, CACHEID_REPLACE);
    ReplaceHit(k, r, 0, k.replaceid);
    var e := Hit(k.caches.replace, k.slot, r, 0, k.replaceid);
    if e.generation == k.caches.replace.generation && e.a == r && e.c == k.replaceid {
      if Clean(k.caches.replace, k.dd, k.replaceid, ren) { CleanAt(k, r, ren); }
      return e.res, false;
    }
    res, err := ReplaceMiss(k, r, sub, ren);
    Stays(t, stack, k.Now(), r);
    PairId(k, sub, CACHEID_REPLACE);
    RenamedMade(sub, ren, t.dd[r], k.dd[res]);
    Keep(k, r, res, ren);
  }

  /** The result goes to the cache, an erroneous one too. */
  method Keep(k: Kernel, r: nat, res: nat, ghost ren: Renaming)
    requires k.Ok() && ReplaceEntry(Entry(r, 0, k.replaceid, res, 0), k.dd, k.pairs) && r in k.dd
    modifies k`caches
    ensures k.Ok() && Remembered(k, r, res)
    ensures Clean(old(k.caches).replace, k.dd, k.replaceid, ren) && Renamable(k.dd[r], ren) ==> Clean(k.caches.replace, k.dd, k.replaceid, ren)
  {
    hide Kernel.Ok, Sound, CachesOk, Clean, Renamable, ReplaceEntry;
    ghost var c := k.caches.replace;
    StoreReplace(k, r, 0, k.replaceid, res);
    if Clean(c, k.dd, k.replaceid, ren) && Renamable(k.dd[r], ren) {
      CleanStored(c, k.slot(|c.table|, r, 0, k.replaceid), Entry(r, 0, k.replaceid, res, 0), k.dd, k.replaceid, ren);
    }
  }

  /** All new levels are levels of the order. */
  predicate NewBelow(ren: Renaming, varnum: nat) {
    forall l {:trigger ren[l]} :: 0 <= l < |ren| ==> ren[l] < varnum
  }

  lemma RenameShort(k: Kernel, r: nat, sub: Subst, ren: Renaming)
    requires PairMode(k, sub, CACHEID_REPLACE) && IsRenaming(sub, ren)
    requires r in k.dd && Robdd(k.dd[r]) && (k.dd[r].Node? ==> k.replacelast < k.dd[r].level)
    ensures Rename(k.dd[r], ren) == k.dd[r] && Renamable(k.dd[r], ren)
  {
    hide Live, Renamable;
    VecComposeNothing(k.dd[r], sub, k.replacelast);
    forall l: nat | k.replacelast < l ensures New(ren, l) == l {
      assert Sub(sub, l) == Var(l);
      AsSubstGood(ren, l);
    }
    PlainRenamable(k.dd[r], ren, k.replacelast);
  }

  lemma RenamedMade(sub: Subst, ren: Renaming, d: Dd, r: Dd)
    requires IsRenaming(sub, ren) && (Renamable(d, ren) ==> r == Rename(d, ren))
    ensures RenamedEntry(sub, d, r)
  {
    hide Renamable, Rename;
    forall ren': Renaming | IsRenaming(sub, ren') && Renamable(d, ren') ensures r == Rename(d, ren') {
      SameRenaming(ren, ren');
    }
  }

  lemma SameRenaming(ren: Renaming, ren': Renaming)
    requires AsSubst(ren) == AsSubst(ren')
    ensures ren == ren'
  {
    assert |ren| == |ren'|;
    forall l | 0 <= l < |ren| ensures ren[l] == ren'[l] {
      assert AsSubst(ren)[l] == AsSubst(ren')[l];
    }
  }

  method ReplaceMiss(k: Kernel, r: nat, ghost sub: Subst, ghost ren: Renaming) returns (res: nat, err: bool)
    requires k.Ok() && Live(k.dd, k.ext, k.refstack, r) && PairMode(k, sub, CACHEID_REPLACE) && IsRenaming(sub, ren)
    requires NewBelow(ren, k.varnum) && 2 <= r
    modifies k`nodes, k`freepos, k`freenum, k`caches, k`dd, k`lists, k`place, k`refstack
    ensures k.Ok() && k.refstack == old(k.refstack) && Keeps(old(k.Now()), k.refstack, k.Now())
    ensures PairMode(k, sub, CACHEID_REPLACE)
    ensures r in old(k.dd) && res in k.dd
    ensures Renamable(old(k.dd)[r], ren) ==> !err && k.dd[res] == Rename(old(k.dd)[r], ren)
    ensures Clean(old(k.caches).replace, old(k.dd), k.replaceid, ren) ==>
              && (err <==> !Renamable(old(k.dd)[r], ren))
              && (!err ==> Clean(k.caches.replace, k.dd, k.replaceid, ren))
    decreases assert r in k.dd by { Open(k, r); } Size(k.dd[r]), 0
  {
    hide Kernel.Ok, Sound, CachesOk, Live, Keeps, Levelled, Robdd, Rename, PairAt, PairStatics, AsSubst, Correct, Clean, NoNews, Remembered;
    ghost var t, stack := k.Now(), k.refstack;
    Open(k, r);
    RenameNode(k.dd[r], ren);
    var level := k.nodes[r].level;
    var low, err0 := ReplaceRec(k, k.nodes[r].low, sub, ren);
    ghost var t1 := k.Now();
    Stays(t, stack, t1, r);
    PushRef(k, low);
    PairPushed(k.dd, k.ext, stack, low, k.replacepair, sub);
    Open(k, r);
    var high, err1 := ReplaceRec(k, k.nodes[r].high, sub, ren);
    ghost var t2 := k.Now();
    PushRef(k, high);
    PairPushed(k.dd, k.ext, stack + [low], high, k.replacepair, sub);
    TwoCalls(t, stack, t1, low, t2, high, t2);
    PairId(k, sub, CACHEID_REPLACE);
    PairLevel(k, sub, ren, level);
    ghost var c2 := k.caches.replace;
    var err2;
    res, err2 := CorrectifyTop(k, stack, low, high, k.nodes[k.replacepair[level]].level);
    TwoCalls(t, stack, t1, low, t2, high, k.Now());
    PairStays(t, stack, k.Now(), k.replacepair, sub);
    if Clean(c2, t2.dd, k.replaceid, ren) { CleanStays(c2, t2.dd, k.caches.replace, k.dd, k.replaceid, ren); }
    err := err0 || err1 || err2;
  }

  /** LEVEL(replacepair[level]) */
  lemma PairLevel(k: Kernel, sub: Subst, ren: Renaming, level: nat)
    requires k.Ok() && PairAt(k.dd, k.ext, k.refstack, k.replacepair, sub) && IsRenaming(sub, ren) && NewBelow(ren, k.varnum)
    requires level < |k.replacepair|
    ensures k.replacepair[level] < |k.nodes| && k.nodes[k.replacepair[level]].level == New(ren, level) < k.varnum
  {
    hide Kernel.Ok, Live, PairAt;
    PairEntry(k.dd, k.ext, k.refstack, k.replacepair, sub, level);
    assert |sub| == |k.replacepair| by { PairSize(k, sub); }
    Open(k, k.replacepair[level]);
  }

  lemma PairSize(k: Kernel, sub: Subst)
    requires PairAt(k.dd, k.ext, k.refstack, k.replacepair, sub)
    ensures |sub| == |k.replacepair|
  {
  }

  /** bdd_correctify on the two topmost entries of the stack, which are popped. */
  method CorrectifyTop(k: Kernel, ghost stack: seq<nat>, low: nat, high: nat, level: nat) returns (res: nat, err: bool)
    requires k.Ok() && k.refstack == stack + [low] + [high] && low in k.dd && high in k.dd && level < k.varnum
    modifies k`nodes, k`freepos, k`freenum, k`caches, k`dd, k`lists, k`place, k`refstack
    ensures k.Ok() && k.refstack == stack && Keeps(old(k.Now()), stack, k.Now())
    ensures res in k.dd
    ensures NoNews(old(k.caches).replace, old(k.dd), k.caches.replace, k.dd)
    ensures err <==> level in Support(old(k.dd)[low]) + Support(old(k.dd)[high])
    ensures !err ==> k.dd[res] == Correct(level, old(k.dd)[low], old(k.dd)[high])
  {
    hide Kernel.Ok, Sound, CachesOk, Live, Keeps, Levelled, Correct, Support, NoNews;
    ghost var t := k.Now();
    RootLive(k.dd, k.ext, k.refstack, low);
    RootLive(k.dd, k.ext, k.refstack, high);
    res, err := Correctify(k, level, low, high);
    PopRef(k, 2);
    KeepsLess(t, stack + [low] + [high], stack, k.Now());
  }
}
