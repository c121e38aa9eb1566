/**
  What all recursive operators of bddop.c share: reading a node, pushing
  intermediate results, building the node over them, and the caches.
*/
module OperatorBase {
  import opened Dd
  import opened DdOps
  import opened Threads
  import opened TableState
  import opened OpCaches
  import opened KernelTable

  /** What the record of a live node says. */
  lemma OpenAt(t: Table, hash: Hash, stack: seq<nat>, r: nat)
    requires Sound(t, hash) && Live(t.dd, t.ext, stack, r)
    ensures r in t.dd && Robdd(t.dd[r]) && r < |t.nodes| && 2 <= |t.nodes|
    ensures r < 2 ==> t.dd[r] == Leaf(r == 1)
    ensures 2 <= r ==>
              && t.dd[r].Node? && t.nodes[r].level == t.dd[r].level
              && 0 <= t.nodes[r].low && 0 <= t.nodes[r].high
              && t.nodes[r].low in t.dd && t.dd[t.nodes[r].low] == t.dd[r].lo && Live(t.dd, t.ext, stack, t.nodes[r].low)
              && t.nodes[r].high in t.dd && t.dd[t.nodes[r].high] == t.dd[r].hi && Live(t.dd, t.ext, stack, t.nodes[r].high)
  {
    NodeAt(t, hash, r);
    ConstantsAt(t, hash);
    if 2 <= r { ChildLive(t, stack, r); }
    hide Sound, Live;
  }

  /** Equal trees, equal ids. */
  lemma SameId(t: Table, hash: Hash, m: nat, n: nat)
    requires Sound(t, hash) && m in t.dd && n in t.dd
    ensures m == n <==> t.dd[m] == t.dd[n]
  {
    ConstantsAt(t, hash);
    hide Sound;
  }

  /** The level of any live node, constants included, as LEVEL reads it. */
  lemma LevelAt(t: Table, hash: Hash, stack: seq<nat>, n: nat, varnum: nat)
    requires Sound(t, hash) && Live(t.dd, t.ext, stack, n) && Levelled(t.nodes, t.dd, varnum)
    ensures n in t.dd && n < |t.nodes|
    ensures t.dd[n].Node? ==> t.nodes[n].level == t.dd[n].level && t.dd[n].level < varnum
    ensures t.dd[n].Leaf? ==> t.nodes[n].level >= varnum && n < 2 && t.nodes[n].level == t.nodes[0].level
    ensures n < 2 <==> t.dd[n].Leaf?
  {
    OpenAt(t, hash, stack, n);
    hide Sound, Live;
    assert DdBelow(t.dd[n], varnum);
  }

  /** A live node stays what it is through a step. */
  lemma Stays(t: Table, stack: seq<nat>, t': Table, r: nat)
    requires Keeps(t, stack, t') && Live(t.dd, t.ext, stack, r)
    ensures r in t.dd && r in t'.dd && t'.dd[r] == t.dd[r] && Live(t'.dd, t'.ext, stack, r)
  {
    KeepsLive(t, stack, t', r);
  }

  /** INITREF. */
  method InitRef(k: Kernel)
    requires k.Ok()
    modifies k`refstack
    ensures k.Ok() && k.refstack == []
  {
    hide Sound, CachesOk, Levelled;
    k.refstack := [];
  }

  /** POPREF. */
  method PopRef(k: Kernel, n: nat)
    requires k.Ok() && n <= |k.refstack|
    modifies k`refstack
    ensures k.Ok() && k.refstack == old(k.refstack)[..|old(k.refstack)| - n]
  {
    hide Sound, CachesOk, Levelled;
    k.Pop(n);
  }

  method SetApplyOp(k: Kernel, op: nat)
    requires k.Ok()
    modifies k`applyop
    ensures k.Ok() && k.applyop == op
  {
    hide Sound, CachesOk, Levelled;
    k.applyop := op;
  }

  /** PUSHREF. */
  method PushRef(k: Kernel, n: nat)
    requires k.Ok() && n in k.dd
    modifies k`refstack
    ensures k.Ok() && k.refstack == old(k.refstack) + [n] && Live(k.dd, k.ext, k.refstack, n)
    ensures forall m: nat {:trigger Live(k.dd, k.ext, k.refstack, m)} :: Live(k.dd, k.ext, old(k.refstack), m) ==> Live(k.dd, k.ext, k.refstack, m)
  {
    hide Sound, CachesOk, Live, Levelled;
    k.Push(n);
    PushLive(k.dd, k.ext, old(k.refstack), n);
  }

  lemma LevelledAfter(t: Table, stack: seq<nat>, t': Table, res: nat, varnum: nat, level: nat, low: Dd, high: Dd)
    requires Step(t, stack, t', res) && Levelled(t.nodes, t.dd, varnum) && level < varnum
    requires res in t'.dd && t'.dd[res] == Mk(level, low, high) && DdBelow(low, varnum)
    ensures Levelled(t'.nodes, t'.dd, varnum)
  {
    LevelledStep(t.nodes, t.dd, varnum, t'.nodes, t'.dd, res);
  }

  /** What Ok says, part by part. */
  lemma OkFacts(k: Kernel)
    requires k.Ok()
    ensures Sound(k.Now(), k.hash) && 2 <= |k.nodes| && Levelled(k.nodes, k.dd, k.varnum)
    ensures CachesOk(k.caches, k.dd, k.pairs, k.nodes[0].level) && SlotInRange(k.slot)
    ensures 0 in k.dd && k.dd[0] == Leaf(false) && 1 in k.dd && k.dd[1] == Leaf(true)
  {
    hide Sound, CachesOk;
    ConstantsAt(k.Now(), k.hash);
  }

  /** The record of live node r. */
  lemma Open(k: Kernel, r: nat)
    requires k.Ok() && Live(k.dd, k.ext, k.refstack, r)
    ensures r in k.dd && Robdd(k.dd[r]) && r < |k.nodes| && 2 <= |k.nodes|
    ensures r < 2 ==> k.dd[r] == Leaf(r == 1)
    ensures k.dd[r].Node? <==> 2 <= r
    ensures 2 <= r ==>
              && k.nodes[r].level == k.dd[r].level < k.varnum
              && 0 <= k.nodes[r].low && 0 <= k.nodes[r].high
              && k.nodes[r].low in k.dd && k.dd[k.nodes[r].low] == k.dd[r].lo && Live(k.dd, k.ext, k.refstack, k.nodes[r].low)
              && k.nodes[r].high in k.dd && k.dd[k.nodes[r].high] == k.dd[r].hi && Live(k.dd, k.ext, k.refstack, k.nodes[r].high)
  {
    hide Sound, CachesOk, Live;
    OkFacts(k);
    OpenAt(k.Now(), k.hash, k.refstack, r);
    LevelAt(k.Now(), k.hash, k.refstack, r, k.varnum);
  }

  /** bdd_makenode on the two topmost entries of the stack, which are popped: READREF(2), READREF(1), POPREF(2). */
  method MakeTop(k: Kernel, ghost stack: seq<nat>, low: nat, high: nat, level: nat) returns (res: nat)
    requires k.Ok() && level < k.varnum && k.refstack == stack + [low] + [high] && low in k.dd && high in k.dd
    requires Under(level, k.dd[low]) && Under(level, k.dd[high])
    modifies k`nodes, k`freepos, k`freenum, k`caches, k`dd, k`lists, k`place, k`refstack
    ensures k.Ok() && k.refstack == stack && Keeps(old(k.Now()), stack, k.Now())
    ensures res in k.dd && k.dd[res] == Mk(level, old(k.dd)[low], old(k.dd)[high])
    ensures NoNews(old(k.caches).replace, old(k.dd), k.caches.replace, k.dd)
  {
    hide Sound, CachesOk, Live, Keeps, Levelled, OnlyNew, NoNews;
    ghost var t := k.Now();
    RootLive(k.dd, k.ext, k.refstack, low);
    RootLive(k.dd, k.ext, k.refstack, high);
    LevelledLow(k.nodes, k.dd, k.varnum, low);
    res := k.MakeNode(level, low, high);
    LevelledAfter(t, k.refstack, k.Now(), res, k.varnum, level, t.dd[low], t.dd[high]);
    k.Pop(2);
    KeepsLess(t, stack + [low] + [high], stack, k.Now());
  }

  lemma LevelledLow(nodes: seq<BddNode>, dd: Trees, n: nat, m: nat)
    requires Levelled(nodes, dd, n) && m in dd
    ensures DdBelow(dd[m], n)
  {
  }

  lemma KeepsLess(t: Table, stack: seq<nat>, stack': seq<nat>, t': Table)
    requires Keeps(t, stack, t') && stack' <= stack
    ensures Keeps(t, stack', t')
  {
    forall n | Live(t.dd, t.ext, stack', n) ensures n in t'.dd && t'.dd[n] == t.dd[n] {
      LiveMore(t.dd, t.ext, stack', stack, n);
    }
  }

  /**
    The common course of a recursive operator: two recursive calls, the first
    result pushed meanwhile, then the node over both.
  */
  lemma TwoCalls(t: Table, stack: seq<nat>, t1: Table, low: nat, t2: Table, high: nat, t3: Table)
    requires Keeps(t, stack, t1) && low in t1.dd && Keeps(t1, stack + [low], t2)
    ensures low in t2.dd && t2.dd[low] == t1.dd[low]
    ensures Keeps(t2, stack, t3) ==> Keeps(t, stack, t3)
  {
    assert low in (stack + [low]);
    RootLive(t1.dd, t1.ext, stack + [low], low);
    KeepsLive(t1, stack + [low], t2, low);
    KeepsTrans(t, stack, t1, stack + [low], t2);
    if Keeps(t2, stack, t3) { KeepsTrans(t, stack, t2, stack, t3); }
  }

  lemma RanOn(t: Table, stack: seq<nat>, t': Table, t'': Table)
    requires Keeps(t, stack, t') && Keeps(t', stack, t'')
    ensures Keeps(t, stack, t'')
  {
    KeepsTrans(t, stack, t', stack, t'');
  }

  /**
    The case distinction on the levels of two operands: the operands of the two
    recursive calls. An operand that does not sit at the upper level is passed
    on as it is.
  */
  method Split2(k: Kernel, l: nat, r: nat) returns (level: nat, l0: nat, l1: nat, r0: nat, r1: nat)
    requires k.Ok() && Live(k.dd, k.ext, k.refstack, l) && Live(k.dd, k.ext, k.refstack, r)
    requires 2 <= l || 2 <= r
    ensures l in k.dd && r in k.dd && (k.dd[l].Node? || k.dd[r].Node?) && level == Top2(k.dd[l], k.dd[r]) < k.varnum
    ensures l0 in k.dd && k.dd[l0] == Cofactor(k.dd[l], level, false) && Live(k.dd, k.ext, k.refstack, l0)
    ensures l1 in k.dd && k.dd[l1] == Cofactor(k.dd[l], level, true) && Live(k.dd, k.ext, k.refstack, l1)
    ensures r0 in k.dd && k.dd[r0] == Cofactor(k.dd[r], level, false) && Live(k.dd, k.ext, k.refstack, r0)
    ensures r1 in k.dd && k.dd[r1] == Cofactor(k.dd[r], level, true) && Live(k.dd, k.ext, k.refstack, r1)
  {
    hide Kernel.Ok, Sound, CachesOk, Live, Levelled;
    Open(k, l);
    Open(k, r);
    LevelOf(k, l);
    LevelOf(k, r);
    if k.nodes[l].level == k.nodes[r].level {
      level, l0, l1, r0, r1 := k.nodes[l].level, k.nodes[l].low, k.nodes[l].high, k.nodes[r].low, k.nodes[r].high;
    } else if k.nodes[l].level < k.nodes[r].level {
      level, l0, l1, r0, r1 := k.nodes[l].level, k.nodes[l].low, k.nodes[l].high, r, r;
    } else {
      level, l0, l1, r0, r1 := k.nodes[r].level, l, l, k.nodes[r].low, k.nodes[r].high;
    }
  }

  /** A constant sits below all tests. */
  lemma LevelOf(k: Kernel, n: nat)
    requires k.Ok() && Live(k.dd, k.ext, k.refstack, n)
    ensures n in k.dd && n < |k.nodes|
    ensures n < 2 ==> k.nodes[n].level >= k.varnum
  {
    hide Sound, CachesOk, Live, Levelled;
    OkFacts(k);
    LevelAt(k.Now(), k.hash, k.refstack, n, k.varnum);
  }

  /** The same for three operands. */
  method Split3(k: Kernel, f: nat, g: nat, h: nat) returns (level: nat, f0: nat, f1: nat, g0: nat, g1: nat, h0: nat, h1: nat)
    requires k.Ok() && Live(k.dd, k.ext, k.refstack, f) && Live(k.dd, k.ext, k.refstack, g) && Live(k.dd, k.ext, k.refstack, h)
    requires 2 <= f || 2 <= g || 2 <= h
    ensures f in k.dd && g in k.dd && h in k.dd && (k.dd[f].Node? || k.dd[g].Node? || k.dd[h].Node?)
    ensures level == Top3(k.dd[f], k.dd[g], k.dd[h]) < k.varnum
    ensures f0 in k.dd && k.dd[f0] == Cofactor(k.dd[f], level, false) && Live(k.dd, k.ext, k.refstack, f0)
    ensures f1 in k.dd && k.dd[f1] == Cofactor(k.dd[f], level, true) && Live(k.dd, k.ext, k.refstack, f1)
    ensures g0 in k.dd && k.dd[g0] == Cofactor(k.dd[g], level, false) && Live(k.dd, k.ext, k.refstack, g0)
    ensures g1 in k.dd && k.dd[g1] == Cofactor(k.dd[g], level, true) && Live(k.dd, k.ext, k.refstack, g1)
    ensures h0 in k.dd && k.dd[h0] == Cofactor(k.dd[h], level, false) && Live(k.dd, k.ext, k.refstack, h0)
    ensures h1 in k.dd && k.dd[h1] == Cofactor(k.dd[h], level, true) && Live(k.dd, k.ext, k.refstack, h1)
  {
    hide Kernel.Ok, Sound, CachesOk, Live, Levelled, Cofactor;
    Open(k, f);
    Open(k, g);
    Open(k, h);
    LevelOf(k, f);
    LevelOf(k, g);
    LevelOf(k, h);
    level := k.nodes[f].level;
    if k.nodes[g].level < level { level := k.nodes[g].level; }
    if k.nodes[h].level < level { level := k.nodes[h].level; }
    f0, f1 := Halves(k, f, level);
    g0, g1 := Halves(k, g, level);
    h0, h1 := Halves(k, h, level);
  }

  /** An operand that sits at the level is opened, any other is passed on. */
  method Halves(k: Kernel, n: nat, level: nat) returns (n0: nat, n1: nat)
    requires k.Ok() && Live(k.dd, k.ext, k.refstack, n) && level < k.varnum
    ensures n in k.dd
    ensures n0 in k.dd && k.dd[n0] == Cofactor(k.dd[n], level, false) && Live(k.dd, k.ext, k.refstack, n0)
    ensures n1 in k.dd && k.dd[n1] == Cofactor(k.dd[n], level, true) && Live(k.dd, k.ext, k.refstack, n1)
  {
    hide Kernel.Ok, Sound, CachesOk, Live, Levelled;
    Open(k, n);
    LevelOf(k, n);
    if k.nodes[n].level == level {
      n0, n1 := k.nodes[n].low, k.nodes[n].high;
    } else {
      n0, n1 := n, n;
    }
  }

  /* ---- the caches: what a valid entry means, and storing a result ---- */

  lemma ApplyHit(k: Kernel, a: nat, b: nat, d: nat)
    requires k.Ok()
    ensures 2 <= |k.nodes|
    ensures var c := k.caches.apply;
            && 0 < |c.table| && k.slot(|c.table|, a, b, d) < |c.table|
            && (Hit(c, k.slot, a, b, d).generation == c.generation ==> ApplyEntry(Hit(c, k.slot, a, b, d), k.dd))
  {
    hide Sound, ApplyEntry, IteEntry, QuantEntry, AppexEntry, ReplaceEntry, MiscEntry;
    OkFacts(k);
  }

  method StoreApply(k: Kernel, a: nat, b: nat, c: nat, res: nat)
    requires k.Ok() && ApplyEntry(Entry(a, b, c, res, 0), k.dd)
    modifies k`caches
    ensures k.Ok()
  {
    hide Sound, ApplyEntry, CacheOk, Levelled, Hit, EntryOk;
    ApplyHit(k, a, b, c);
    OkFacts(k);
    var i := k.slot(|k.caches.apply.table|, a, b, c);
    ApplyStored(k.caches.apply, i, Entry(a, b, c, res, 0), k.dd, k.pairs, k.nodes[0].level);
    k.caches := k.caches.(apply := Stored(k.caches.apply, i, Entry(a, b, c, res, 0)));
  }

  lemma ApplyStored(c: Cache, i: nat, e: Entry, dd: Trees, pairs: Pairs, n: nat)
    requires CacheOk(ApplyKind, c, dd, pairs, n) && i < |c.table| && ApplyEntry(e, dd)
    ensures CacheOk(ApplyKind, Stored(c, i, e), dd, pairs, n)
  {
    assert ApplyEntry(e.(generation := c.generation), dd);
    StoredOk(ApplyKind, c, i, e, dd, pairs, n);
  }

  lemma IteHit(k: Kernel, a: nat, b: nat, d: nat)
    requires k.Ok()
    ensures 2 <= |k.nodes|
    ensures var c := k.caches.ite;
            && 0 < |c.table| && k.slot(|c.table|, a, b, d) < |c.table|
            && (Hit(c, k.slot, a, b, d).generation == c.generation ==> IteEntry(Hit(c, k.slot, a, b, d), k.dd))
  {
    hide Sound, ApplyEntry, IteEntry, QuantEntry, AppexEntry, ReplaceEntry, MiscEntry;
    OkFacts(k);
  }

  method StoreIte(k: Kernel, a: nat, b: nat, c: nat, res: nat)
    requires k.Ok() && IteEntry(Entry(a, b, c, res, 0), k.dd)
    modifies k`caches
    ensures k.Ok()
  {
    hide Sound, IteEntry, CacheOk, Levelled, Hit, EntryOk;
    IteHit(k, a, b, c);
    OkFacts(k);
    var i := k.slot(|k.caches.ite.table|, a, b, c);
    IteStored(k.caches.ite, i, Entry(a, b, c, res, 0), k.dd, k.pairs, k.nodes[0].level);
    k.caches := k.caches.(ite := Stored(k.caches.ite, i, Entry(a, b, c, res, 0)));
  }

  lemma IteStored(c: Cache, i: nat, e: Entry, dd: Trees, pairs: Pairs, n: nat)
    requires CacheOk(IteKind, c, dd, pairs, n) && i < |c.table| && IteEntry(e, dd)
    ensures CacheOk(IteKind, Stored(c, i, e), dd, pairs, n)
  {
    assert IteEntry(e.(generation := c.generation), dd);
    StoredOk(IteKind, c, i, e, dd, pairs, n);
  }

  lemma QuantHit(k: Kernel, a: nat, b: nat, d: nat)
    requires k.Ok()
    ensures 2 <= |k.nodes|
    ensures var c := k.caches.quant;
            && 0 < |c.table| && k.slot(|c.table|, a, b, d) < |c.table|
            && (Hit(c, k.slot, a, b, d).generation == c.generation ==> QuantEntry(Hit(c, k.slot, a, b, d), k.dd))
  {
    hide Sound, ApplyEntry, IteEntry, QuantEntry, AppexEntry, ReplaceEntry, MiscEntry;
    OkFacts(k);
  }

  method StoreQuant(k: Kernel, a: nat, b: nat, c: nat, res: nat)
    requires k.Ok() && QuantEntry(Entry(a, b, c, res, 0), k.dd)
    modifies k`caches
    ensures k.Ok()
  {
    hide Sound, QuantEntry, CacheOk, Levelled, Hit, EntryOk;
    QuantHit(k, a, b, c);
    OkFacts(k);
    var i := k.slot(|k.caches.quant.table|, a, b, c);
    QuantStored(k.caches.quant, i, Entry(a, b, c, res, 0), k.dd, k.pairs, k.nodes[0].level);
    k.caches := k.caches.(quant := Stored(k.caches.quant, i, Entry(a, b, c, res, 0)));
  }

  lemma QuantStored(c: Cache, i: nat, e: Entry, dd: Trees, pairs: Pairs, n: nat)
    requires CacheOk(QuantKind, c, dd, pairs, n) && i < |c.table| && QuantEntry(e, dd)
    ensures CacheOk(QuantKind, Stored(c, i, e), dd, pairs, n)
  {
    assert QuantEntry(e.(generation := c.generation), dd);
    StoredOk(QuantKind, c, i, e, dd, pairs, n);
  }

  lemma AppexHit(k: Kernel, a: nat, b: nat, d: nat)
    requires k.Ok()
    ensures 2 <= |k.nodes|
    ensures var c := k.caches.appex;
            && 0 < |c.table| && k.slot(|c.table|, a, b, d) < |c.table|
            && (Hit(c, k.slot, a, b, d).generation == c.generation ==> AppexEntry(Hit(c, k.slot, a, b, d), k.dd))
  {
    hide Sound, ApplyEntry, IteEntry, QuantEntry, AppexEntry, ReplaceEntry, MiscEntry;
    OkFacts(k);
  }

  method StoreAppex(k: Kernel, a: nat, b: nat, c: nat, res: nat)
    requires k.Ok() && AppexEntry(Entry(a, b, c, res, 0), k.dd)
    modifies k`caches
    ensures k.Ok()
  {
    hide Sound, AppexEntry, CacheOk, Levelled, Hit, EntryOk;
    AppexHit(k, a, b, c);
    OkFacts(k);
    var i := k.slot(|k.caches.appex.table|, a, b, c);
    AppexStored(k.caches.appex, i, Entry(a, b, c, res, 0), k.dd, k.pairs, k.nodes[0].level);
    k.caches := k.caches.(appex := Stored(k.caches.appex, i, Entry(a, b, c, res, 0)));
  }

  lemma AppexStored(c: Cache, i: nat, e: Entry, dd: Trees, pairs: Pairs, n: nat)
    requires CacheOk(AppexKind, c, dd, pairs, n) && i < |c.table| && AppexEntry(e, dd)
    ensures CacheOk(AppexKind, Stored(c, i, e), dd, pairs, n)
  {
    assert AppexEntry(e.(generation := c.generation), dd);
    StoredOk(AppexKind, c, i, e, dd, pairs, n);
  }

  lemma ReplaceHit(k: Kernel, a: nat, b: nat, d: nat)
    requires k.Ok()
    ensures 2 <= |k.nodes|
    ensures var c := k.caches.replace;
            && 0 < |c.table| && k.slot(|c.table|, a, b, d) < |c.table|
            && (Hit(c, k.slot, a, b, d).generation == c.generation ==> ReplaceEntry(Hit(c, k.slot, a, b, d), k.dd, k.pairs))
  {
    hide Sound, ApplyEntry, IteEntry, QuantEntry, AppexEntry, ReplaceEntry, MiscEntry;
    OkFacts(k);
  }

  method StoreReplace(k: Kernel, a: nat, b: nat, c: nat, res: nat)
    requires k.Ok() && ReplaceEntry(Entry(a, b, c, res, 0), k.dd, k.pairs)
    modifies k`caches
    ensures k.Ok() && 0 < |old(k.caches).replace.table| && k.slot(|old(k.caches).replace.table|, a, b, c) < |old(k.caches).replace.table|
    ensures k.caches.replace == Stored(old(k.caches).replace, k.slot(|old(k.caches).replace.table|, a, b, c), Entry(a, b, c, res, 0))
  {
    hide Sound, ReplaceEntry, CacheOk, Levelled, Hit, EntryOk;
    ReplaceHit(k, a, b, c);
    OkFacts(k);
    var i := k.slot(|k.caches.replace.table|, a, b, c);
    ReplaceStored(k.caches.replace, i, Entry(a, b, c, res, 0), k.dd, k.pairs, k.nodes[0].level);
    k.caches := k.caches.(replace := Stored(k.caches.replace, i, Entry(a, b, c, res, 0)));
  }

  lemma ReplaceStored(c: Cache, i: nat, e: Entry, dd: Trees, pairs: Pairs, n: nat)
    requires CacheOk(ReplaceKind, c, dd, pairs, n) && i < |c.table| && ReplaceEntry(e, dd, pairs)
    ensures CacheOk(ReplaceKind, Stored(c, i, e), dd, pairs, n)
  {
    assert ReplaceEntry(e.(generation := c.generation), dd, pairs);
    StoredOk(ReplaceKind, c, i, e, dd, pairs, n);
  }

  lemma MiscHit(k: Kernel, a: nat, b: nat, d: nat)
    requires k.Ok()
    ensures 2 <= |k.nodes|
    ensures var c := k.caches.misc;
            && 0 < |c.table| && k.slot(|c.table|, a, b, d) < |c.table|
            && (Hit(c, k.slot, a, b, d).generation == c.generation ==> MiscEntry(Hit(c, k.slot, a, b, d), k.dd, k.nodes[0].level))
  {
    hide Sound, ApplyEntry, IteEntry, QuantEntry, AppexEntry, ReplaceEntry, MiscEntry;
    OkFacts(k);
  }

  method StoreMisc(k: Kernel, a: nat, b: nat, c: nat, res: nat)
    requires k.Ok() && 2 <= |k.nodes| && MiscEntry(Entry(a, b, c, res, 0), k.dd, k.nodes[0].level)
    modifies k`caches
    ensures k.Ok()
  {
    hide Sound, MiscEntry, CacheOk, Levelled, Hit, EntryOk;
    MiscHit(k, a, b, c);
    OkFacts(k);
    var i := k.slot(|k.caches.misc.table|, a, b, c);
    MiscStored(k.caches.misc, i, Entry(a, b, c, res, 0), k.dd, k.pairs, k.nodes[0].level);
    k.caches := k.caches.(misc := Stored(k.caches.misc, i, Entry(a, b, c, res, 0)));
  }

  lemma MiscStored(c: Cache, i: nat, e: Entry, dd: Trees, pairs: Pairs, n: nat)
    requires CacheOk(MiscKind, c, dd, pairs, n) && i < |c.table| && MiscEntry(e, dd, n)
    ensures CacheOk(MiscKind, Stored(c, i, e), dd, pairs, n)
  {
    assert MiscEntry(e.(generation := c.generation), dd, n);
    StoredOk(MiscKind, c, i, e, dd, pairs, n);
  }
}
