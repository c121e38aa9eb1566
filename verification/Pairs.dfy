/**
  pairs.c: tables of replacements, and bdd_replace, bdd_veccompose and
  bdd_compose on top of them. A pair that is changed gets a fresh id, so that no
  cached result of its former contents is ever used.
*/
module Pairs {
  import opened Dd
  import opened DdOps
  import opened DdSubst
  import opened DdRename
  import opened Threads
  import opened TableState
  import opened OpCaches
  import opened KernelTable
  import opened OperatorBase
  import opened QuantOps
  import opened SubstOps
  import opened PairTable

  const BDD_VAR: int := -2

  /** The pair's id stands for what its entries say. */
  ghost predicate PairOk(k: Kernel, p: Pair)
    reads k, p
  {
    && p.id in k.pairs && p.last < k.varnum == |p.result|
    && PairAt(k.dd, k.ext, [], p.result, k.pairs[p.id])
    && forall l: nat {:trigger Sub(k.pairs[p.id], l)} :: p.last < l ==> Sub(k.pairs[p.id], l) == Var(l)
  }

  /** update_pairsid, and what the new id stands for. */
  method UpdatePairsId(k: Kernel, ghost sub: Subst) returns (id: nat)
    requires k.Ok()
    modifies k`pairsid, k`pairs
    ensures k.Ok() && id !in old(k.pairs) && k.pairs == old(k.pairs)[id := sub]
    ensures Unnamed(k.caches.replace, ReplaceId(id, CACHEID_REPLACE))
  {
    hide Sound, CachesOk, Levelled, CacheOk, Unnamed, ReplaceId;
    OkFacts(k);
    NextUnnamed(k);
    FreshPair(k.caches, k.dd, k.pairs, k.nodes[0].level, k.pairsid + 1, sub);
    k.pairsid := k.pairsid + 1;
    k.pairs := k.pairs[k.pairsid := sub];
    id := k.pairsid;
  }

  lemma NextUnnamed(k: Kernel)
    requires k.Ok()
    ensures Unnamed(k.caches.replace, ReplaceId(k.pairsid + 1, CACHEID_REPLACE))
  {
    hide Sound, Levelled, CacheOk, Unnamed, ReplaceId;
    FreshUnnamed(k.caches.replace, k.dd, k.pairs, k.nodes[0].level, k.pairsid + 1);
  }

  function Identity(n: nat): (s: Subst)
    ensures |s| == n && forall l {:trigger s[l]} :: 0 <= l < n ==> s[l] == Var(l)
  {
    seq(n, l requires 0 <= l => Var(l))
  }

  /** bdd_newpair: every level stands for itself. */
  method NewPair(k: Kernel) returns (p: Pair)
    requires k.Ok() && k.VarsOk()
    modifies k`pairsid, k`pairs
    ensures k.Ok() && fresh(p) && PairOk(k, p) && k.pairs[p.id] == Identity(k.varnum)
    ensures p.id !in old(k.pairs) && k.pairs == old(k.pairs)[p.id := Identity(k.varnum)]
    ensures Unnamed(k.caches.replace, ReplaceId(p.id, CACHEID_REPLACE))
  {
    hide Kernel.Ok;
    p := new Pair();
    var n := 0;
    while n < k.varnum
      invariant n <= k.varnum && |p.result| == n
      invariant forall l {:trigger p.result[l]} :: 0 <= l < n ==> p.result[l] in k.ext && p.result[l] in k.dd && k.dd[p.result[l]] == Var(l)
      modifies p
    {
      p.result := p.result + [k.varset[2 * n]];
      n := n + 1;
    }
    p.id := UpdatePairsId(k, Identity(k.varnum));
    p.last := -1;
    forall l: nat ensures Sub(Identity(k.varnum), l) == Var(l) && Robdd(Var(l)) {}
    forall l | 0 <= l < |p.result| ensures Live(k.dd, k.ext, [], p.result[l]) {
      assert Root(k.ext, [], p.result[l]);
      RootLive(k.dd, k.ext, [], p.result[l]);
    }
    assert GoodSubst(Identity(k.varnum));
    assert |p.result| == k.varnum;
    assert PairAt(k.dd, k.ext, [], p.result, k.pairs[p.id]);
  }

  /**
    bdd_setpair, with the level of the old variable: one entry becomes a
    variable, under a fresh id.
  */
  method SetPair(k: Kernel, p: Pair, oldlevel: int, newvar: int) returns (err: int)
    requires k.Ok() && k.VarsOk() && PairOk(k, p)
    modifies k`pairsid, k`pairs, p
    ensures k.Ok() && PairOk(k, p)
    ensures err == if 0 <= oldlevel < k.varnum && 0 <= newvar < k.varnum then 0 else BDD_VAR
    ensures err == 0 ==> p.id !in old(k.pairs) && k.pairs[p.id] == old(k.pairs[p.id])[oldlevel := Var(newvar)]
    ensures err == 0 ==> Unnamed(k.caches.replace, ReplaceId(p.id, CACHEID_REPLACE))
    ensures err != 0 ==> p.id == old(p.id) && k.pairs == old(k.pairs)
  {
    hide Kernel.Ok;
    if oldlevel < 0 || oldlevel > k.varnum - 1 {
      return BDD_VAR;
    }
    if newvar < 0 || newvar > k.varnum - 1 {
      return BDD_VAR;
    }
    LiteralAt(k, newvar);
    SetEntry(k, p, oldlevel, k.varset[2 * newvar]);
    return 0;
  }

  lemma LiteralAt(k: Kernel, v: nat)
    requires k.VarsOk() && v < k.varnum
    ensures 2 * v < |k.varset| && Live(k.dd, k.ext, [], k.varset[2 * v]) && k.varset[2 * v] in k.dd && k.dd[k.varset[2 * v]] == Var(v)
  {
    assert k.varset[2 * v] in k.ext;
    RootLive(k.dd, k.ext, [], k.varset[2 * v]);
  }

  /** result[level] = n; id = update_pairsid(); last = max(last, level) */
  method SetEntry(k: Kernel, p: Pair, level: nat, n: nat)
    requires k.Ok() && PairOk(k, p) && level < k.varnum && Live(k.dd, k.ext, [], n)
    modifies k`pairsid, k`pairs, p
    ensures k.Ok() && PairOk(k, p) && n in k.dd
    ensures p.id !in old(k.pairs) && k.pairs[p.id] == old(k.pairs[p.id])[level := k.dd[n]]
    ensures Unnamed(k.caches.replace, ReplaceId(p.id, CACHEID_REPLACE))
  {
    hide Kernel.Ok, Live;
    ghost var sub := k.pairs[p.id];
    EntryAt(k, n);
    p.result := p.result[level := n];
    p.id := UpdatePairsId(k, sub[level := k.dd[n]]);
    if level > p.last {
      p.last := level;
    }
    forall l: nat | p.last < l ensures Sub(k.pairs[p.id], l) == Var(l) {
      assert Sub(sub, l) == Var(l);
    }
  }

  lemma EntryAt(k: Kernel, n: nat)
    requires k.Ok() && Live(k.dd, k.ext, [], n)
    ensures n in k.dd && Robdd(k.dd[n])
  {
    hide Sound, CachesOk, Levelled;
    OkFacts(k);
    NodeAt(k.Now(), k.hash, n);
  }

  method SetReplaceMode(k: Kernel, p: Pair, id: nat)
    requires k.Ok() && PairOk(k, p) && id < 3
    modifies k`replacepair, k`replacelast, k`replaceid
    ensures k.Ok() && PairOk(k, p) && PairStatics(k, k.pairs[p.id], id) && k.replacepair == p.result
    ensures k.replaceid == ReplaceId(p.id, id) && k.replacelast == p.last
  {
    hide Sound, CachesOk, Levelled, PairAt, ReplaceId;
    ReplaceIdDecodes(p.id, id);
    k.replacepair := p.result;
    k.replacelast := p.last;
    k.replaceid := ReplaceId(p.id, id);
  }

  /** bdd_veccompose. */
  method VecComposeOf(k: Kernel, f: nat, p: Pair) returns (res: nat)
    requires k.Ok() && Live(k.dd, k.ext, [], f) && PairOk(k, p)
    modifies k`nodes, k`freepos, k`freenum, k`caches, k`dd, k`lists, k`place, k`refstack, k`replacepair, k`replacelast, k`replaceid
    ensures k.Ok() && Keeps(old(k.Now()), [], k.Now()) && p.id in k.pairs
    ensures f in old(k.dd) && res in k.dd && k.dd[res] == VecCompose(old(k.dd)[f], k.pairs[p.id])
  {
    hide Kernel.Ok, Live, Keeps, PairStatics, PairAt;
    InitRef(k);
    SetReplaceMode(k, p, CACHEID_VECCOMPOSE);
    res := VecComposeRec(k, f, k.pairs[p.id]);
  }

  /** The cache has an answer of bdd_replace for r with the pair. */
  ghost predicate Answered(k: Kernel, r: nat, p: Pair, res: nat)
    reads k, p
  {
    var c, id := k.caches.replace, ReplaceId(p.id, CACHEID_REPLACE);
    && 0 < |c.table| && k.slot(|c.table|, r, 0, id) < |c.table|
    && var e := Hit(c, k.slot, r, 0, id); e.generation == c.generation && e.a == r && e.c == id && e.res == res
  }

  /**
    bdd_replace: err says that BDD_REPLACE was reported. With a pair no entry of
    the cache names, the error is reported exactly when two levels of the diagram
    clash; an answer from the cache comes without an error whatever it is.
  */
  method ReplaceOf(k: Kernel, r: nat, p: Pair, ghost ren: Renaming) returns (res: nat, err: bool)
    requires k.Ok() && Live(k.dd, k.ext, [], r) && PairOk(k, p)
    requires IsRenaming(k.pairs[p.id], ren) && NewBelow(ren, k.varnum)
    modifies k`nodes, k`freepos, k`freenum, k`caches, k`dd, k`lists, k`place, k`refstack, k`replacepair, k`replacelast, k`replaceid
    ensures k.Ok() && Keeps(old(k.Now()), [], k.Now())
    ensures r in old(k.dd) && res in k.dd
    ensures Renamable(old(k.dd)[r], ren) ==> !err && k.dd[res] == Rename(old(k.dd)[r], ren)
    ensures Injective(Support(old(k.dd)[r]), ren) ==> !err && k.dd[res] == Rename(old(k.dd)[r], ren)
    ensures Unnamed(old(k.caches).replace, ReplaceId(p.id, CACHEID_REPLACE)) ==> (err <==> !Renamable(old(k.dd)[r], ren))
    ensures AsItIs(old(k.dd)[r], p.last) ==> res == r && !err
    ensures !AsItIs(old(k.dd)[r], p.last) ==> Answered(k, r, p, res)
    ensures forall x: nat {:trigger old(Answered(k, r, p, x))} :: old(Answered(k, r, p, x)) && !AsItIs(old(k.dd)[r], p.last) ==> !err && res == x
  {
    hide Kernel.Ok, Live, Keeps, PairStatics, PairAt, AsSubst, Rename, Renamable, Injective, Unnamed, Clean, AsItIs;
    EntryAt(k, r);
    if Injective(Support(k.dd[r]), ren) { InjectiveRenamable(k.dd[r], ren); }
    if Unnamed(k.caches.replace, ReplaceId(p.id, CACHEID_REPLACE)) {
      UnnamedClean(k.caches.replace, k.dd, ReplaceId(p.id, CACHEID_REPLACE), ren);
    }
    InitRef(k);
    SetReplaceMode(k, p, CACHEID_REPLACE);
    label Set:
    res, err := ReplaceRec(k, r, k.pairs[p.id], ren);
    forall x: nat | old(Answered(k, r, p, x)) && !AsItIs(old(k.dd)[r], p.last) ensures !err && res == x {
      assert old@Set(Remembered(k, r, x));
    }
  }

  lemma UnnamedClean(c: Cache, dd: Trees, id: nat, ren: Renaming)
    requires Unnamed(c, id)
    ensures Clean(c, dd, id, ren)
  {
  }

  /**
    The same call twice. The first one reports an error exactly when levels
    clash; it leaves its result in the cache all the same, and the second one
    returns that result without an error.
  */
  method ReplaceTwice(k: Kernel, r: nat, p: Pair, ghost ren: Renaming) returns (res1: nat, err1: bool, res2: nat, err2: bool)
    requires k.Ok() && Live(k.dd, k.ext, [], r) && PairOk(k, p)
    requires IsRenaming(k.pairs[p.id], ren) && NewBelow(ren, k.varnum)
    requires Unnamed(k.caches.replace, ReplaceId(p.id, CACHEID_REPLACE))
    modifies k`nodes, k`freepos, k`freenum, k`caches, k`dd, k`lists, k`place, k`refstack, k`replacepair, k`replacelast, k`replaceid
    ensures k.Ok() && r in old(k.dd) && (err1 <==> !Renamable(old(k.dd)[r], ren)) && !err2 && res2 == res1
  {
    hide Kernel.Ok, Live, Keeps, PairAt, AsSubst, Rename, Renamable, Injective, Unnamed, AsItIs, Answered;
    ghost var t := k.Now();
    res1, err1 := ReplaceOf(k, r, p, ren);
    KeepsLive(t, [], k.Now(), r);
    PairKept(k, p, t);
    res2, err2 := ReplaceOf(k, r, p, ren);
  }

  lemma PairKept(k: Kernel, p: Pair, t: Table)
    requires Keeps(t, [], k.Now()) && p.id in k.pairs && p.last < k.varnum == |p.result|
    requires PairAt(t.dd, t.ext, [], p.result, k.pairs[p.id]) && forall l: nat {:trigger Sub(k.pairs[p.id], l)} :: p.last < l ==> Sub(k.pairs[p.id], l) == Var(l)
    ensures PairOk(k, p)
  {
    hide Live, Keeps, PairAt;
    PairStays(t, [], k.Now(), p.result, k.pairs[p.id]);
  }

  /** Levels 0 and 1 to level 2, all others to themselves. */
  function Colliding(n: nat): (ren: Renaming)
    ensures |ren| == n && forall l {:trigger ren[l]} :: 0 <= l < n ==> ren[l] == if l < 2 then 2 else l
  {
    seq(n, l requires 0 <= l => if l < 2 then 2 else l)
  }

  /**
    Such an input: a new pair that sends two variables to a third, on a diagram
    that tests both. An error the first time, none the second time.
  */
  method ReplaceCollision(k: Kernel, r: nat) returns (p: Pair, res1: nat, err1: bool, res2: nat, err2: bool)
    requires k.Ok() && k.VarsOk() && 2 < k.varnum && Live(k.dd, k.ext, [], r) && r in k.dd && k.dd[r] == TWO_TESTS
    modifies k`nodes, k`freepos, k`freenum, k`caches, k`dd, k`lists, k`place, k`refstack, k`replacepair, k`replacelast, k`replaceid, k`pairsid, k`pairs
    ensures k.Ok() && err1 && !err2 && res2 == res1
  {
    hide Kernel.Ok, Live, Renamable, Unnamed, ReplaceId;
    p := NewPair(k);
    var e0 := SetPair(k, p, 0, 2);
    var e1 := SetPair(k, p, 1, 2);
    ghost var ren := Colliding(k.varnum);
    assert k.pairs[p.id] == AsSubst(ren);
    CollisionNotRenamable(ren);
    res1, err1, res2, err2 := ReplaceTwice(k, r, p, ren);
  }

  method SetComposeMode(k: Kernel, level: nat)
    requires k.Ok()
    modifies k`composelevel, k`replaceid
    ensures k.Ok() && k.composelevel == level && k.replaceid == ReplaceId(level, CACHEID_COMPOSE)
  {
    hide Sound, CachesOk, Levelled;
    k.composelevel := level;
    k.replaceid := ReplaceId(level, CACHEID_COMPOSE);
  }

  /** bdd_compose, with the level of the variable: an unknown one gives false. */
  method ComposeOf(k: Kernel, f: nat, g: nat, level: int) returns (res: nat)
    requires k.Ok() && Live(k.dd, k.ext, [], f) && Live(k.dd, k.ext, [], g)
    modifies k`nodes, k`freepos, k`freenum, k`caches, k`dd, k`lists, k`place, k`refstack, k`composelevel, k`replaceid
    ensures k.Ok() && Keeps(old(k.Now()), [], k.Now())
    ensures level < 0 || level >= k.varnum ==> res == 0 && k.dd == old(k.dd)
    ensures 0 <= level < k.varnum ==>
              f in old(k.dd) && g in old(k.dd) && res in k.dd && k.dd[res] == Compose(old(k.dd)[f], old(k.dd)[g], level)
  {
    hide Kernel.Ok, Live, Keeps, ReplaceId;
    KeepsSame(k.Now(), []);
    if level < 0 || level >= k.varnum {
      return 0;
    }
    InitRef(k);
    SetComposeMode(k, level);
    res := ComposeRec(k, f, g);
  }
}
