/** bdd_restrict, bdd_exist, bdd_forall, and the fused bdd_appex and bdd_appall. */
module QuantOps {
  import opened Dd
  import opened DdOps
  import opened DdSubst
  import opened DdCube
  import opened Threads
  import opened TableState
  import opened OpCaches
  import opened KernelTable
  import opened OperatorBase
  import opened ApplyOps

  /** bdd.h: illegal variable set. */
  const BDD_VARSET: int := -13

  /* ---- the variable set table ---- */

  predicate InVarSet(quantvarset: seq<int>, id: nat, l: nat) { l < |quantvarset| && quantvarset[l] == id }

  predicate InSignedSet(quantvarset: seq<int>, id: nat, l: nat) { l < |quantvarset| && (quantvarset[l] == id || quantvarset[l] == 0 - id) }

  /** The table marks exactly vars, none of them below quantlast. */
  ghost predicate VarTable(quantvarset: seq<int>, id: nat, last: nat, vars: set<nat>) {
    && (forall l: nat {:trigger InVarSet(quantvarset, id, l)} {:trigger l in vars} :: InVarSet(quantvarset, id, l) <==> l in vars)
    && (forall l {:trigger l in vars} :: l in vars ==> l <= last)
  }

  ghost predicate FixTable(quantvarset: seq<int>, id: nat, last: nat, fix: Fix) {
    && (forall l: nat {:trigger InSignedSet(quantvarset, id, l)} {:trigger l in fix} :: InSignedSet(quantvarset, id, l) <==> l in fix)
    && (forall l: nat {:trigger fix[l]} :: l in fix && l < |quantvarset| ==> (fix[l] <==> quantvarset[l] > 0))
    && (forall l {:trigger l in fix} :: l in fix ==> l <= last)
  }

  /** A fresh stamp: nothing is marked with it yet. */
  method NewStamp(k: Kernel)
    requires k.Ok()
    modifies k`quantvarsetID
    ensures k.Ok() && k.quantvarsetID == old(k.quantvarsetID) + 1 && |k.quantvarset| == k.varnum
    ensures forall l: nat {:trigger InSignedSet(k.quantvarset, k.quantvarsetID, l)} :: !InSignedSet(k.quantvarset, k.quantvarsetID, l)
    ensures forall l: nat {:trigger InVarSet(k.quantvarset, k.quantvarsetID, l)} :: !InVarSet(k.quantvarset, k.quantvarsetID, l)
  {
    hide Sound, CachesOk, Levelled;
    k.quantvarsetID := k.quantvarsetID + 1;
  }

  /** quantvarset[level] = stamp; quantlast = level */
  method Stamp(k: Kernel, level: nat, stamp: int)
    requires k.Ok() && level < k.varnum && 0 - k.quantvarsetID <= stamp <= k.quantvarsetID
    modifies k`quantvarset, k`quantlast
    ensures k.Ok() && level < |old(k.quantvarset)| && k.quantvarset == old(k.quantvarset)[level := stamp] && k.quantlast == level
  {
    hide Sound, CachesOk, Levelled;
    k.quantvarset := k.quantvarset[level := stamp];
    k.quantlast := level;
  }

  /** varset2vartable: for a product of variables, exactly its variables are marked. */
  method VarSetTable(k: Kernel, r: nat) returns (err: int)
    requires k.Ok() && Live(k.dd, k.ext, k.refstack, r)
    modifies k`quantvarset, k`quantvarsetID, k`quantlast
    ensures k.Ok() && r in k.dd
    ensures err == if r < 2 then BDD_VARSET else 0
    ensures 2 <= r ==> VarTable(k.quantvarset, k.quantvarsetID, k.quantlast, VarSet(k.dd[r])) && k.quantlast < k.varnum
    ensures 2 <= r && IsProduct(k.dd[r]) ==>
              forall l: nat {:trigger l in Support(k.dd[r])} ::
                (l in Support(k.dd[r]) <==> l < |k.quantvarset| && k.quantvarset[l] == k.quantvarsetID) && (l in Support(k.dd[r]) ==> l <= k.quantlast)
  {
    hide Kernel.Ok, Live, Robdd, IsProduct, Support;
    Open(k, r);
    if r < 2 {
      return BDD_VARSET;
    }
    NewStamp(k);
    ghost var done: set<nat> := {};
    var n: nat := r;
    while n > 1
      invariant k.Ok() && Live(k.dd, k.ext, k.refstack, n) && n in k.dd && |k.quantvarset| == k.varnum
      invariant k.dd[n].Node? <==> 2 <= n
      invariant VarSet(k.dd[r]) == done + VarSet(k.dd[n])
      invariant forall l: nat {:trigger InVarSet(k.quantvarset, k.quantvarsetID, l)} {:trigger l in done} ::
                  InVarSet(k.quantvarset, k.quantvarsetID, l) <==> l in done
      invariant forall l {:trigger l in done} :: l in done ==> l <= k.quantlast
      invariant n == r ==> done == {}
      invariant n != r ==> k.quantlast < k.varnum && Under(k.quantlast, k.dd[n])
      decreases k.dd[n]
    {
      Open(k, n);
      UnderHigh(k.dd[n]);
      done := done + {k.nodes[n].level};
      Stamp(k, k.nodes[n].level, k.quantvarsetID);
      n := k.nodes[n].high;
      Open(k, n);
    }
    VarsMarked(k.quantvarset, k.quantvarsetID, k.quantlast, k.dd[r]);
    return 0;
  }

  lemma {:induction false} VarsMarked(quantvarset: seq<int>, id: nat, last: nat, c: Dd)
    requires VarTable(quantvarset, id, last, VarSet(c)) && Robdd(c)
    ensures IsProduct(c) ==>
              forall l: nat {:trigger l in Support(c)} ::
                (l in Support(c) <==> l < |quantvarset| && quantvarset[l] == id) && (l in Support(c) ==> l <= last)
  {
    hide VarSet, IsProduct;
    if IsProduct(c) {
      ProductVars(c);
      forall l: nat ensures l in Support(c) <==> l < |quantvarset| && quantvarset[l] == id {
        assert InVarSet(quantvarset, id, l) <==> l in VarSet(c);
      }
    }
  }

  lemma UnderHigh(d: Dd)
    requires Robdd(d) && d.Node?
    ensures Under(d.level, d.lo) && Under(d.level, d.hi)
  {
  }

  /** varset2svartable: for a product of literals, exactly its variables are marked, each with its sign. */
  method FixSetTable(k: Kernel, r: nat) returns (err: int)
    requires k.Ok() && Live(k.dd, k.ext, k.refstack, r)
    modifies k`quantvarset, k`quantvarsetID, k`quantlast
    ensures k.Ok() && r in k.dd
    ensures err == if r < 2 then BDD_VARSET else 0
    ensures 2 <= r ==> FixTable(k.quantvarset, k.quantvarsetID, k.quantlast, FixSet(k.dd[r])) && k.quantlast < k.varnum
    ensures 2 <= r && IsCube(k.dd[r]) ==>
              forall b: Assign, l: nat {:trigger Eval(k.dd[r], b), l in Support(k.dd[r])} :: Eval(k.dd[r], b) ==>
                (l in Support(k.dd[r]) <==> l < |k.quantvarset| && k.quantvarset[l] == if b(l) then k.quantvarsetID else 0 - k.quantvarsetID)
  {
    hide Kernel.Ok, Sound, Live, Robdd;
    Open(k, r);
    if r < 2 {
      return BDD_VARSET;
    }
    NewStamp(k);
    ghost var done: Fix := map[];
    var n: nat := r;
    while n >= 2
      invariant k.Ok() && Live(k.dd, k.ext, k.refstack, n) && n in k.dd && |k.quantvarset| == k.varnum && 0 < k.quantvarsetID
      invariant k.dd[n].Node? <==> 2 <= n
      invariant FixSet(k.dd[r]) == done + FixSet(k.dd[n])
      invariant SignedOk(k.quantvarset, k.quantvarsetID, done)
      invariant forall l {:trigger l in done} :: l in done ==> l <= k.quantlast
      invariant n == r ==> done == map[]
      invariant n != r ==> k.quantlast < k.varnum && Under(k.quantlast, k.dd[n])
      invariant forall l {:trigger l in done} :: l in done && k.dd[n].Node? ==> l < k.dd[n].level
      decreases k.dd[n]
    {
      n, done := FixLiteral(k, n, done);
    }
    if IsCube(k.dd[r]) { SignsMarked(k.quantvarset, k.quantvarsetID, k.quantlast, k.dd[r]); }
    return 0;
  }

  lemma {:induction false} SignsMarked(quantvarset: seq<int>, id: nat, last: nat, c: Dd)
    requires FixTable(quantvarset, id, last, FixSet(c)) && Robdd(c) && IsCube(c) && 0 < id
    ensures forall b: Assign, l: nat {:trigger Eval(c, b), l in Support(c)} :: Eval(c, b) ==>
              (l in Support(c) <==> l < |quantvarset| && quantvarset[l] == if b(l) then id else 0 - id)
  {
    hide FixSet, Support, Eval, IsCube;
    forall b: Assign, l: nat | Eval(c, b) ensures l in Support(c) <==> l < |quantvarset| && quantvarset[l] == if b(l) then id else 0 - id {
      CubeSigns(c, b);
      assert InSignedSet(quantvarset, id, l) <==> l in FixSet(c);
    }
  }

  /** One literal of the cube is entered in the table. */
  method FixLiteral(k: Kernel, n: nat, ghost done: Fix) returns (next: nat, ghost done': Fix)
    requires k.Ok() && Live(k.dd, k.ext, k.refstack, n) && 2 <= n && 0 < k.quantvarsetID && |k.quantvarset| == k.varnum
    requires SignedOk(k.quantvarset, k.quantvarsetID, done)
    modifies k`quantvarset, k`quantlast
    ensures k.Ok() && Live(k.dd, k.ext, k.refstack, next) && next in k.dd && n in k.dd && |k.quantvarset| == k.varnum
    ensures (k.dd[next].Node? <==> 2 <= next) && k.dd[n].Node? && next != n
    ensures done' == done[k.dd[n].level := k.dd[n].lo == Leaf(false)] && SignedOk(k.quantvarset, k.quantvarsetID, done')
    ensures done + FixSet(k.dd[n]) == done' + FixSet(k.dd[next])
    ensures k.quantlast == k.dd[n].level < k.varnum && Under(k.quantlast, k.dd[next]) && k.dd[next] < k.dd[n]
  {
    hide Kernel.Ok, Live, Robdd, FixSet, SignedOk;
    Open(k, n);
    UnderHigh(k.dd[n]);
    ZeroLow(k, n);
    var positive := k.nodes[n].low == 0;
    FixStep(done, k.dd[n], positive);
    SignedStep(k.quantvarset, k.quantvarsetID, done, k.nodes[n].level, positive);
    done' := done[k.nodes[n].level := positive];
    if positive {
      Stamp(k, k.nodes[n].level, k.quantvarsetID);
      next := k.nodes[n].high;
    } else {
      Stamp(k, k.nodes[n].level, 0 - k.quantvarsetID);
      next := k.nodes[n].low;
    }
    Open(k, next);
  }

  ghost predicate SignedOk(quantvarset: seq<int>, id: nat, done: Fix) {
    && (forall l: nat {:trigger InSignedSet(quantvarset, id, l)} {:trigger l in done} :: InSignedSet(quantvarset, id, l) <==> l in done)
    && (forall l: nat {:trigger done[l]} :: l in done && l < |quantvarset| ==> (done[l] <==> quantvarset[l] > 0))
  }

  lemma SignedStep(quantvarset: seq<int>, id: nat, done: Fix, level: nat, positive: bool)
    requires SignedOk(quantvarset, id, done) && level < |quantvarset| && 0 < id
    ensures SignedOk(quantvarset[level := if positive then id else 0 - id], id, done[level := positive])
  {
  }

  /** The low branch is false exactly when LOW is the constant 0. */
  lemma ZeroLow(k: Kernel, n: nat)
    requires k.Ok() && Live(k.dd, k.ext, k.refstack, n) && 2 <= n
    ensures n in k.dd && n < |k.nodes| && k.dd[n].Node?
    ensures k.nodes[n].low == 0 <==> k.dd[n].lo == Leaf(false)
    ensures k.nodes[n].high == 0 <==> k.dd[n].hi == Leaf(false)
  {
    hide Kernel.Ok, Sound, Live;
    Open(k, n);
    OkFacts(k);
    SameId(k.Now(), k.hash, k.nodes[n].low, 0);
    SameId(k.Now(), k.hash, k.nodes[n].high, 0);
  }

  /** One more literal read off the cube. */
  lemma FixStep(done: Fix, d: Dd, positive: bool)
    requires Robdd(d) && d.Node? && (positive <==> d.lo == Leaf(false))
    ensures done + FixSet(d) == done[d.level := positive] + FixSet(if positive then d.hi else d.lo)
  {
    FixBelow(d.lo);
    FixBelow(d.hi);
    SupportBelow(d.lo, d.level);
    SupportBelow(d.hi, d.level);
  }

  lemma {:induction false} FixBelow(d: Dd)
    requires Robdd(d)
    ensures d.Node? ==> forall l {:trigger l in FixSet(d)} :: l in FixSet(d) ==> d.level <= l
    ensures FixSet(d).Keys <= Support(d)
  {
    if d.Node? {
      FixBelow(d.lo);
      FixBelow(d.hi);
    }
  }

  /* ---- restriction ---- */

  /** The mode of a restriction by the cube of node `v`. */
  ghost predicate RestrictMode(k: Kernel, v: nat, fix: Fix)
    reads k
  {
    Live(k.dd, k.ext, k.refstack, v) && v in k.dd && FixSet(k.dd[v]) == fix && RestrictStatics(k, v, fix)
  }

  ghost predicate RestrictStatics(k: Kernel, v: nat, fix: Fix)
    reads k`miscid, k`quantvarset, k`quantvarsetID, k`quantlast, k`varnum
  {
    && 2 <= v && k.miscid == QuantId(v, CACHEID_RESTRICT)
    && FixTable(k.quantvarset, k.quantvarsetID, k.quantlast, fix) && k.quantlast < k.varnum
  }

  /** restrict_rec. */
  method RestrictRec(k: Kernel, r: nat, ghost v: nat, ghost fix: Fix) returns (res: nat)
    requires k.Ok() && Live(k.dd, k.ext, k.refstack, r) && RestrictMode(k, v, fix)
    modifies k`nodes, k`freepos, k`freenum, k`caches, k`dd, k`lists, k`place, k`refstack
    ensures k.Ok() && k.refstack == old(k.refstack) && Keeps(old(k.Now()), k.refstack, k.Now()) && RestrictMode(k, v, fix)
    ensures r in old(k.dd) && res in k.dd && k.dd[res] == Restrict(old(k.dd)[r], fix)
    decreases assert r in k.dd by { Open(k, r); } Size(k.dd[r])
  {
    hide Kernel.Ok, Sound, CachesOk, Live, Keeps, Levelled, Hit, Robdd, FixTable, FixSet;
    ghost var t, stack := k.Now(), k.refstack;
    Open(k, r);
    LevelOf(k, r);
    KeepsSame(t, stack);
    if r < 2 || k.nodes[r].level > k.quantlast {
      RestrictBelow(k.dd[r], fix, k.quantvarset, k.quantvarsetID, k.quantlast);
      return r;
    }
    MiscHit(k, r, 0, k.miscid);
    QuantIdDecodes(v, CACHEID_RESTRICT);
    var e := Hit(k.caches.misc, k.slot, r, 0, k.miscid);
    if e.generation == k.caches.misc.generation && e.a == r && e.c == k.miscid {
      return e.res;
    }
    res := RestrictMiss(k, r, v, fix);
    Stays(t, stack, k.Now(), r);
    Open(k, r);
    StoreMisc(k, r, 0, k.miscid, res);
  }

  method RestrictMiss(k: Kernel, r: nat, ghost v: nat, ghost fix: Fix) returns (res: nat)
    requires k.Ok() && Live(k.dd, k.ext, k.refstack, r) && RestrictMode(k, v, fix) && 2 <= r
    modifies k`nodes, k`freepos, k`freenum, k`caches, k`dd, k`lists, k`place, k`refstack
    ensures k.Ok() && k.refstack == old(k.refstack) && Keeps(old(k.Now()), k.refstack, k.Now()) && RestrictMode(k, v, fix)
    ensures r in old(k.dd) && res in k.dd && k.dd[res] == Restrict(old(k.dd)[r], fix)
    decreases assert r in k.dd by { Open(k, r); } Size(k.dd[r]), 1
  {
    hide Kernel.Ok, Sound, CachesOk, Live, Keeps, Levelled, Robdd, FixTable, FixSet;
    ghost var t, stack := k.Now(), k.refstack;
    Open(k, r);
    var level := k.nodes[r].level;
    FixAt(k, fix, level);
    if InSignedSet(k.quantvarset, k.quantvarsetID, level) {
      if k.quantvarset[level] > 0 {
        res := RestrictRec(k, k.nodes[r].high, v, fix);
      } else {
        res := RestrictRec(k, k.nodes[r].low, v, fix);
      }
    } else {
      res := RestrictBoth(k, r, v, fix);
    }
  }

  /** The level of r is not fixed. */
  method RestrictBoth(k: Kernel, r: nat, ghost v: nat, ghost fix: Fix) returns (res: nat)
    requires k.Ok() && Live(k.dd, k.ext, k.refstack, r) && RestrictMode(k, v, fix) && 2 <= r
    requires r in k.dd && k.dd[r].Node? && k.dd[r].level !in fix
    modifies k`nodes, k`freepos, k`freenum, k`caches, k`dd, k`lists, k`place, k`refstack
    ensures k.Ok() && k.refstack == old(k.refstack) && Keeps(old(k.Now()), k.refstack, k.Now()) && RestrictMode(k, v, fix)
    ensures r in old(k.dd) && res in k.dd && k.dd[res] == Restrict(old(k.dd)[r], fix)
    decreases Size(k.dd[r]), 0
  {
    hide Kernel.Ok, Sound, CachesOk, Live, Keeps, Levelled, Robdd, RestrictStatics, FixSet;
    ghost var t, stack := k.Now(), k.refstack;
    Open(k, r);
    var level := k.nodes[r].level;
    RestrictUnder(k.dd[r], fix);
    var low := RestrictRec(k, k.nodes[r].low, v, fix);
    ghost var t1 := k.Now();
    Stays(t, stack, t1, r);
    PushRef(k, low);
    Open(k, r);
    var high := RestrictRec(k, k.nodes[r].high, v, fix);
    ghost var t2 := k.Now();
    PushRef(k, high);
    TwoCalls(t, stack, t1, low, t2, high, t2);
    res := MakeTop(k, stack, low, high, level);
    TwoCalls(t, stack, t1, low, t2, high, k.Now());
    Stays(t, stack, k.Now(), v);
  }

  lemma RestrictBelow(d: Dd, fix: Fix, quantvarset: seq<int>, id: nat, last: nat)
    requires Robdd(d) && FixTable(quantvarset, id, last, fix) && (d.Node? ==> last < d.level)
    ensures Restrict(d, fix) == d
  {
    RestrictNothing(d, fix);
  }

  lemma FixAt(k: Kernel, fix: Fix, level: nat)
    requires FixTable(k.quantvarset, k.quantvarsetID, k.quantlast, fix)
    ensures InSignedSet(k.quantvarset, k.quantvarsetID, level) <==> level in fix
    ensures level in fix ==> level < |k.quantvarset| && (fix[level] <==> k.quantvarset[level] > 0)
  {
  }

  lemma RestrictUnder(d: Dd, fix: Fix)
    requires Robdd(d) && d.Node?
    ensures Under(d.level, Restrict(d.lo, fix)) && Under(d.level, Restrict(d.hi, fix))
  {
    RestrictMeans(d.lo, fix);
    RestrictMeans(d.hi, fix);
  }

  /* ---- quantification ---- */

  /** The mode of a quantification over the levels of node `v`. */
  ghost predicate QuantMode(k: Kernel, v: nat, vars: set<nat>)
    reads k
  {
    VarAt(k, v, vars) && QuantStatics(k, v, vars)
  }

  ghost predicate VarAt(k: Kernel, v: nat, vars: set<nat>)
    reads k`dd, k`ext, k`refstack
  {
    Live(k.dd, k.ext, k.refstack, v) && v in k.dd && VarSet(k.dd[v]) == vars
  }

  ghost predicate QuantStatics(k: Kernel, v: nat, vars: set<nat>)
    reads k`quantid, k`applyop, k`quantvarset, k`quantvarsetID, k`quantlast, k`varnum
  {
    && k.quantid % 8 <= CACHEID_APPUN && QuantVar(k.quantid) == v && k.applyop == QuantOp(k.quantid % 8) <= INVIMP
    && VarTable(k.quantvarset, k.quantvarsetID, k.quantlast, vars) && k.quantlast < k.varnum
  }

  /** quant_rec. */
  method QuantRec(k: Kernel, r: nat, ghost v: nat, ghost vars: set<nat>) returns (res: nat)
    requires k.Ok() && Live(k.dd, k.ext, k.refstack, r) && QuantMode(k, v, vars)
    modifies k`nodes, k`freepos, k`freenum, k`caches, k`dd, k`lists, k`place, k`refstack
    ensures k.Ok() && k.refstack == old(k.refstack) && Keeps(old(k.Now()), k.refstack, k.Now()) && QuantMode(k, v, vars)
    ensures r in old(k.dd) && res in k.dd && k.dd[res] == Quant(k.applyop, old(k.dd)[r], vars)
    decreases assert r in k.dd by { Open(k, r); } Size(k.dd[r])
  {
    hide Kernel.Ok, Sound, CachesOk, Live, Keeps, Levelled, Hit, Robdd, VarTable, VarSet, Quant, QuantOp, QuantVar;
    ghost var t, stack := k.Now(), k.refstack;
    Open(k, r);
    LevelOf(k, r);
    KeepsSame(t, stack);
    if r < 2 || k.nodes[r].level > k.quantlast {
      QuantBelow(k.applyop, k.dd[r], vars, k.quantvarset, k.quantvarsetID, k.quantlast);
      return r;
    }
    QuantHit(k, r, 0, k.quantid);
    var e := Hit(k.caches.quant, k.slot, r, 0, k.quantid);
    if e.generation == k.caches.quant.generation && e.a == r && e.c == k.quantid {
      return e.res;
    }
    res := QuantMiss(k, r, v, vars);
    Stays(t, stack, k.Now(), r);
    StoreQuant(k, r, 0, k.quantid, res);
  }

  method QuantMiss(k: Kernel, r: nat, ghost v: nat, ghost vars: set<nat>) returns (res: nat)
    requires k.Ok() && Live(k.dd, k.ext, k.refstack, r) && QuantMode(k, v, vars) && 2 <= r
    modifies k`nodes, k`freepos, k`freenum, k`caches, k`dd, k`lists, k`place, k`refstack
    ensures k.Ok() && k.refstack == old(k.refstack) && Keeps(old(k.Now()), k.refstack, k.Now()) && QuantMode(k, v, vars)
    ensures r in old(k.dd) && res in k.dd && k.dd[res] == Quant(k.applyop, old(k.dd)[r], vars)
    decreases assert r in k.dd by { Open(k, r); } Size(k.dd[r]), 0
  {
    hide Kernel.Ok, Sound, CachesOk, Live, Keeps, Levelled, Robdd, VarSet, Apply, QuantStatics;
    ghost var t, stack := k.Now(), k.refstack;
    Statics(k, v, vars);
    Open(k, r);
    var level := k.nodes[r].level;
    QuantUnder(k.applyop, k.dd[r], vars);
    var low := QuantRec(k, k.nodes[r].low, v, vars);
    ghost var t1 := k.Now();
    Stays(t, stack, t1, r);
    PushRef(k, low);
    Open(k, r);
    var high := QuantRec(k, k.nodes[r].high, v, vars);
    ghost var t2 := k.Now();
    PushRef(k, high);
    TwoCalls(t, stack, t1, low, t2, high, t2);
    res := Combine(k, stack, low, high, level, v, vars);
    TwoCalls(t, stack, t1, low, t2, high, k.Now());
    Stays(t, stack, k.Now(), v);
  }

  lemma Statics(k: Kernel, v: nat, vars: set<nat>)
    requires QuantStatics(k, v, vars)
    ensures k.applyop <= INVIMP
  {
  }

  lemma StaticsAt(k: Kernel, v: nat, vars: set<nat>, level: nat)
    requires QuantStatics(k, v, vars)
    ensures InVarSet(k.quantvarset, k.quantvarsetID, level) <==> level in vars
  {
  }

  lemma QuantBelow(op: nat, d: Dd, vars: set<nat>, quantvarset: seq<int>, id: nat, last: nat)
    requires op <= INVIMP && Robdd(d) && VarTable(quantvarset, id, last, vars) && (d.Node? ==> last < d.level)
    ensures Quant(op, d, vars) == d
  {
    QuantNothing(op, d, vars);
  }

  lemma QuantUnder(op: nat, d: Dd, vars: set<nat>)
    requires op <= INVIMP && Robdd(d) && d.Node?
    ensures Under(d.level, Quant(op, d.lo, vars)) && Under(d.level, Quant(op, d.hi, vars))
  {
    QuantGood(op, d.lo, vars);
    QuantGood(op, d.hi, vars);
  }

  /** The two results on the stack are combined by the quantifier's operator, or become the halves of a node. */
  method Combine(k: Kernel, ghost stack: seq<nat>, low: nat, high: nat, level: nat, ghost v: nat, ghost vars: set<nat>) returns (res: nat)
    requires k.Ok() && level < k.varnum && k.refstack == stack + [low] + [high] && low in k.dd && high in k.dd
    requires Under(level, k.dd[low]) && Under(level, k.dd[high]) && QuantStatics(k, v, vars)
    modifies k`nodes, k`freepos, k`freenum, k`caches, k`dd, k`lists, k`place, k`refstack
    ensures k.Ok() && k.refstack == stack && Keeps(old(k.Now()), stack, k.Now())
    ensures res in k.dd && k.applyop <= INVIMP
    ensures k.dd[res] == if level in vars then Apply(k.applyop, old(k.dd)[low], old(k.dd)[high]) else Mk(level, old(k.dd)[low], old(k.dd)[high])
  {
    hide Kernel.Ok, Sound, CachesOk, Live, Keeps, Levelled, Apply, Mk, QuantStatics;
    Statics(k, v, vars);
    StaticsAt(k, v, vars, level);
    if InVarSet(k.quantvarset, k.quantvarsetID, level) {
      res := ApplyTop(k, stack, low, high);
    } else {
      res := MakeTop(k, stack, low, high, level);
    }
  }

  /** apply_rec on the two topmost entries of the stack, which are popped. */
  method ApplyTop(k: Kernel, ghost stack: seq<nat>, low: nat, high: nat) returns (res: nat)
    requires k.Ok() && k.refstack == stack + [low] + [high] && low in k.dd && high in k.dd && k.applyop <= INVIMP
    modifies k`nodes, k`freepos, k`freenum, k`caches, k`dd, k`lists, k`place, k`refstack
    ensures k.Ok() && k.refstack == stack && Keeps(old(k.Now()), stack, k.Now())
    ensures res in k.dd && k.dd[res] == Apply(k.applyop, old(k.dd)[low], old(k.dd)[high])
  {
    hide Kernel.Ok, Sound, CachesOk, Live, Keeps, Levelled, Apply;
    ghost var t := k.Now();
    RootLive(k.dd, k.ext, k.refstack, low);
    RootLive(k.dd, k.ext, k.refstack, high);
    res := ApplyRec(k, low, high);
    PopRef(k, 2);
    KeepsLess(t, stack + [low] + [high], stack, k.Now());
  }

  /* ---- apply and quantify at once ---- */

  /** The shortcuts at the head of appquant_rec: the operand that is left to be quantified, or -1. */
  function AppShortcut(op: nat, l: nat, r: nat): int {
    if op == AND then
      if l == 0 || r == 0 then 0 else if l == r then l else if l == 1 then r else if r == 1 then l else -1
    else if op == OR then
      if l == 1 || r == 1 then 1 else if l == r then l else if l == 0 then r else if r == 0 then l else -1
    else if op == XOR then
      if l == r then 0 else if l == 0 then r else if r == 0 then l else -1
    else if op == NAND then
      if l == 0 || r == 0 then 1 else -1
    else if op == NOR then
      if l == 1 || r == 1 then 0 else -1
    else -1
  }

  lemma AppShortcutRight(dd: Trees, op: nat, l: nat, r: nat)
    requires op <= INVIMP && l in dd && r in dd && Robdd(dd[l]) && Robdd(dd[r])
    requires 0 in dd && dd[0] == Leaf(false) && 1 in dd && dd[1] == Leaf(true)
    ensures AppShortcut(op, l, r) >= 0 ==> AppShortcut(op, l, r) in dd && dd[AppShortcut(op, l, r)] == Apply(op, dd[l], dd[r])
    ensures var s := AppShortcut(op, l, r); s == -1 || s == 0 || s == 1 || s == l || s == r
  {
    hide Apply, OprRes;
    ApplySame(dd[l]);
    ApplyZero(dd[l]);
    ApplyZero(dd[r]);
    ApplyOne(dd[l]);
    ApplyOne(dd[r]);
  }

  /** The mode of appquant_rec: tag 0 is exist, tag 1 is forall. */
  ghost predicate AppMode(k: Kernel, v: nat, vars: set<nat>, tag: nat)
    reads k
  {
    QuantMode(k, v, vars) && AppStatics(k, v, tag)
  }

  ghost predicate AppStatics(k: Kernel, v: nat, tag: nat)
    reads k`appexop, k`appexid, k`quantid, k`applyop
  {
    && tag < 2 && k.appexop <= INVIMP
    && k.appexid == AppexId(v, k.appexop, tag) && k.quantid == QuantId(k.appexid, tag + 3)
    && k.applyop == QuantOp(tag)
  }

  /** appquant_rec: the same node as quantifying the applied one. */
  method AppQuantRec(k: Kernel, l: nat, r: nat, ghost v: nat, ghost vars: set<nat>, ghost tag: nat) returns (res: nat)
    requires k.Ok() && Live(k.dd, k.ext, k.refstack, l) && Live(k.dd, k.ext, k.refstack, r) && AppMode(k, v, vars, tag)
    modifies k`nodes, k`freepos, k`freenum, k`caches, k`dd, k`lists, k`place, k`refstack, k`applyop
    ensures k.Ok() && k.refstack == old(k.refstack) && Keeps(old(k.Now()), k.refstack, k.Now())
    ensures AppMode(k, v, vars, tag) && k.applyop == old(k.applyop)
    ensures l in old(k.dd) && r in old(k.dd) && res in k.dd
    ensures k.dd[res] == Quant(k.applyop, Apply(k.appexop, old(k.dd)[l], old(k.dd)[r]), vars)
    decreases assert l in k.dd && r in k.dd by { Open(k, l); Open(k, r); } Size(k.dd[l]) + Size(k.dd[r]), 1
  {
    hide Kernel.Ok, Sound, CachesOk, Live, Keeps, Levelled, Hit, Robdd, VarSet, QuantOp, Apply, AppShortcut, OprRes,
      QuantStatics, AppStatics, AppexEntry;
    ghost var t, stack := k.Now(), k.refstack;
    Open(k, l);
    Open(k, r);
    LevelOf(k, l);
    LevelOf(k, r);
    OkFacts(k);
    KeepsSame(t, stack);
    AppFacts(k, v, tag);
    Statics(k, v, vars);
    AppShortcutRight(k.dd, k.appexop, l, r);
    var s := AppShortcut(k.appexop, l, r);
    if 0 <= s < 2 {
      return s;
    }
    if s >= 2 {
      res := QuantRec(k, s, v, vars);
      return;
    }
    if l < 2 && r < 2 {
      ApplyLeaves(k.appexop, l == 1, r == 1);
      return Bit(OprRes(k.appexop, l == 1, r == 1));
    }
    if k.nodes[l].level > k.quantlast && k.nodes[r].level > k.quantlast {
      res := AppBelow(k, l, r, v, vars, tag);
      return;
    }
    AppexHit(k, l, r, k.appexid);
    var e := Hit(k.caches.appex, k.slot, l, r, k.appexid);
    if e.generation == k.caches.appex.generation && e.a == l && e.b == r && e.c == k.appexid {
      AppexMeans(k, e, v, vars, tag);
      return e.res;
    }
    res := AppQuantMiss(k, l, r, v, vars, tag);
    Stays(t, stack, k.Now(), l);
    Stays(t, stack, k.Now(), r);
    AppexMade(k, l, r, res, v, vars, tag);
    StoreAppex(k, l, r, k.appexid, res);
  }

  /** What a valid entry of the shared cache means in the current mode. */
  lemma AppexMeans(k: Kernel, e: Entry, v: nat, vars: set<nat>, tag: nat)
    requires AppMode(k, v, vars, tag) && AppexEntry(e, k.dd) && e.c == k.appexid
    ensures k.appexop <= INVIMP && k.applyop <= INVIMP && e.a in k.dd && e.b in k.dd && e.res in k.dd
    ensures k.dd[e.res] == Quant(k.applyop, Apply(k.appexop, k.dd[e.a], k.dd[e.b]), vars)
  {
    hide Live, VarTable, AppexId, QuantId;
    AppexIdDecodes(v, k.appexop, tag);
  }

  lemma AppexMade(k: Kernel, l: nat, r: nat, res: nat, v: nat, vars: set<nat>, tag: nat)
    requires AppMode(k, v, vars, tag) && l in k.dd && r in k.dd && res in k.dd
    requires k.dd[res] == Quant(k.applyop, Apply(k.appexop, k.dd[l], k.dd[r]), vars)
    ensures AppexEntry(Entry(l, r, k.appexid, res, 0), k.dd)
  {
    hide Live, VarTable, AppexId, QuantId;
    AppexIdDecodes(v, k.appexop, tag);
  }

  /** Below the last quantified level only the operator is left; the mode is set for it and put back. */
  method AppBelow(k: Kernel, l: nat, r: nat, ghost v: nat, ghost vars: set<nat>, ghost tag: nat) returns (res: nat)
    requires k.Ok() && Live(k.dd, k.ext, k.refstack, l) && Live(k.dd, k.ext, k.refstack, r) && AppMode(k, v, vars, tag)
    requires l < |k.nodes| && k.nodes[l].level > k.quantlast && r < |k.nodes| && k.nodes[r].level > k.quantlast
    modifies k`nodes, k`freepos, k`freenum, k`caches, k`dd, k`lists, k`place, k`refstack, k`applyop
    ensures k.Ok() && k.refstack == old(k.refstack) && Keeps(old(k.Now()), k.refstack, k.Now())
    ensures AppMode(k, v, vars, tag) && k.applyop == old(k.applyop)
    ensures l in old(k.dd) && r in old(k.dd) && res in k.dd
    ensures k.dd[res] == Quant(k.applyop, Apply(k.appexop, old(k.dd)[l], old(k.dd)[r]), vars)
  {
    hide Kernel.Ok, Sound, CachesOk, Live, Keeps, Levelled, Robdd, VarSet, Apply, QuantOp, VarTable, AppexId, QuantId, Quant, QuantVar;
    ghost var t, stack := k.Now(), k.refstack;
    Open(k, l);
    Open(k, r);
    BothBelow(k.applyop, k.appexop, k.dd[l], k.dd[r], vars, k.quantvarset, k.quantvarsetID, k.quantlast);
    var oldop := k.applyop;
    SetApplyOp(k, k.appexop);
    res := ApplyRec(k, l, r);
    SetApplyOp(k, oldop);
    Stays(t, stack, k.Now(), v);
  }

  method AppQuantMiss(k: Kernel, l: nat, r: nat, ghost v: nat, ghost vars: set<nat>, ghost tag: nat) returns (res: nat)
    requires k.Ok() && Live(k.dd, k.ext, k.refstack, l) && Live(k.dd, k.ext, k.refstack, r) && AppMode(k, v, vars, tag)
    requires 2 <= l || 2 <= r
    modifies k`nodes, k`freepos, k`freenum, k`caches, k`dd, k`lists, k`place, k`refstack, k`applyop
    ensures k.Ok() && k.refstack == old(k.refstack) && Keeps(old(k.Now()), k.refstack, k.Now())
    ensures AppMode(k, v, vars, tag) && k.applyop == old(k.applyop)
    ensures l in old(k.dd) && r in old(k.dd) && res in k.dd
    ensures k.dd[res] == Quant(k.applyop, Apply(k.appexop, old(k.dd)[l], old(k.dd)[r]), vars)
    decreases assert l in k.dd && r in k.dd by { Open(k, l); Open(k, r); } Size(k.dd[l]) + Size(k.dd[r]), 0
  {
    hide Kernel.Ok, Sound, CachesOk, Live, Keeps, Levelled, Robdd, VarSet, Apply, Quant, Cofactor, Size, Top2, Mk,
      QuantStatics, AppStatics;
    ghost var t, stack := k.Now(), k.refstack;
    Statics(k, v, vars);
    AppFacts(k, v, tag);
    Open(k, l);
    Open(k, r);
    var level, l0, l1, r0, r1 := Split2(k, l, r);
    FusedHalves(k.applyop, k.appexop, k.dd[l], k.dd[r], level, vars);
    var low, high := AppTwo(k, l0, r0, l1, r1, v, vars, tag);
    ghost var t2 := k.Now();
    res := Combine(k, stack, low, high, level, v, vars);
    RanOn(t, stack, t2, k.Now());
    Stays(t, stack, k.Now(), v);
  }

  /** The two recursive calls of appquant_rec; both results are left on the stack. */
  method AppTwo(k: Kernel, l0: nat, r0: nat, l1: nat, r1: nat, ghost v: nat, ghost vars: set<nat>, ghost tag: nat)
    returns (low: nat, high: nat)
    requires k.Ok() && Live(k.dd, k.ext, k.refstack, l0) && Live(k.dd, k.ext, k.refstack, r0)
    requires Live(k.dd, k.ext, k.refstack, l1) && Live(k.dd, k.ext, k.refstack, r1) && AppMode(k, v, vars, tag)
    modifies k`nodes, k`freepos, k`freenum, k`caches, k`dd, k`lists, k`place, k`refstack, k`applyop
    ensures k.Ok() && k.refstack == old(k.refstack) + [low] + [high] && Keeps(old(k.Now()), old(k.refstack), k.Now())
    ensures AppMode(k, v, vars, tag) && k.applyop == old(k.applyop)
    ensures l0 in old(k.dd) && r0 in old(k.dd) && l1 in old(k.dd) && r1 in old(k.dd) && low in k.dd && high in k.dd
    ensures k.dd[low] == Quant(k.applyop, Apply(k.appexop, old(k.dd)[l0], old(k.dd)[r0]), vars)
    ensures k.dd[high] == Quant(k.applyop, Apply(k.appexop, old(k.dd)[l1], old(k.dd)[r1]), vars)
    decreases assert l0 in k.dd && r0 in k.dd && l1 in k.dd && r1 in k.dd by { Open(k, l0); Open(k, r0); Open(k, l1); Open(k, r1); }
              var m, n := Size(k.dd[l0]) + Size(k.dd[r0]), Size(k.dd[l1]) + Size(k.dd[r1]); if m < n then n else m, 2
  {
    hide Kernel.Ok, Sound, CachesOk, Live, Keeps, Levelled, Robdd, VarSet, Apply, Quant, Size, QuantStatics, AppStatics;
    ghost var t, stack := k.Now(), k.refstack;
    Open(k, l0);
    Open(k, l1);
    Open(k, r1);
    low := AppQuantRec(k, l0, r0, v, vars, tag);
    ghost var t1 := k.Now();
    Stays(t, stack, t1, l1);
    Stays(t, stack, t1, r1);
    PushRef(k, low);
    high := AppQuantRec(k, l1, r1, v, vars, tag);
    ghost var t2 := k.Now();
    PushRef(k, high);
    TwoCalls(t, stack, t1, low, t2, high, t2);
    KeepsSame(t2, stack);
  }

  lemma AppFacts(k: Kernel, v: nat, tag: nat)
    requires AppStatics(k, v, tag)
    ensures k.appexop <= INVIMP && (k.applyop == OR || k.applyop == AND)
  {
  }

  lemma BothBelow(q: nat, op: nat, s: Dd, t: Dd, vars: set<nat>, quantvarset: seq<int>, id: nat, last: nat)
    requires q <= INVIMP && op <= INVIMP && Robdd(s) && Robdd(t) && VarTable(quantvarset, id, last, vars)
    requires Under(last, s) && Under(last, t)
    ensures Quant(q, Apply(op, s, t), vars) == Apply(op, s, t)
  {
    ApplyMeans(op, s, t);
    assert Under(last, Apply(op, s, t));
    QuantBelow(q, Apply(op, s, t), vars, quantvarset, id, last);
  }

  lemma FusedHalves(q: nat, op: nat, s: Dd, t: Dd, l: nat, vars: set<nat>)
    requires (q == OR || q == AND) && op <= INVIMP && Robdd(s) && Robdd(t) && (s.Node? || t.Node?) && l == Top2(s, t)
    ensures var s0, s1, t0, t1 := Cofactor(s, l, false), Cofactor(s, l, true), Cofactor(t, l, false), Cofactor(t, l, true);
            var r0, r1 := Quant(q, Apply(op, s0, t0), vars), Quant(q, Apply(op, s1, t1), vars);
            && Size(s0) + Size(t0) < Size(s) + Size(t) && Size(s1) + Size(t1) < Size(s) + Size(t)
            && Under(l, r0) && Under(l, r1)
            && Quant(q, Apply(op, s, t), vars) == if l in vars then Apply(q, r0, r1) else Mk(l, r0, r1)
  {
    ApplyHalves(op, s, t, l);
    CofactorFacts(s, l, false);
    CofactorFacts(s, l, true);
    CofactorFacts(t, l, false);
    CofactorFacts(t, l, true);
    var a0, a1 := Apply(op, Cofactor(s, l, false), Cofactor(t, l, false)), Apply(op, Cofactor(s, l, true), Cofactor(t, l, true));
    ApplyMeans(op, Cofactor(s, l, false), Cofactor(t, l, false));
    ApplyMeans(op, Cofactor(s, l, true), Cofactor(t, l, true));
    hide Apply, Quant, Cofactor, OprRes;
    QuantGood(q, a0, vars);
    QuantGood(q, a1, vars);
    FusedStep(q, op, l, a0, a1, vars);
  }

  /* ---- the operations themselves ---- */

  /**
    bdd_restrict: the levels of the cube are fixed to its literals. For a product
    of literals the result has, everywhere, the value the operand has where the
    product holds.
  */
  method RestrictOf(k: Kernel, r: nat, v: nat) returns (res: nat)
    requires k.Ok() && Live(k.dd, k.ext, [], r) && Live(k.dd, k.ext, [], v)
    modifies k`nodes, k`freepos, k`freenum, k`caches, k`dd, k`lists, k`place, k`refstack,
             k`quantvarset, k`quantvarsetID, k`quantlast, k`miscid
    ensures k.Ok() && Keeps(old(k.Now()), [], k.Now())
    ensures r in old(k.dd) && v in old(k.dd) && res in k.dd && k.dd[res] == Restrict(old(k.dd)[r], FixSet(old(k.dd)[v]))
    ensures IsCube(old(k.dd)[v]) ==>
              forall a: Assign, b: Assign {:trigger Agree(a, b, Support(old(k.dd)[v]))} ::
                Eval(old(k.dd)[v], b) && Agree(a, b, Support(old(k.dd)[v])) ==> Eval(k.dd[res], a) == Eval(old(k.dd)[r], b)
  {
    hide Kernel.Ok, Live, Keeps, FixSet, Restrict, RestrictStatics, IsCube, Agree;
    InitRef(k);
    Open(k, r);
    Open(k, v);
    CubeRestricted(k.dd[r], k.dd[v]);
    if v < 2 {
      EmptyCube(k.dd[v], k.dd[r]);
      KeepsSame(k.Now(), []);
      return r;
    }
    EnterRestrict(k, v);
    res := RestrictRec(k, r, v, FixSet(k.dd[v]));
  }

  /** The mode for the cube of v. */
  method EnterRestrict(k: Kernel, v: nat)
    requires k.Ok() && Live(k.dd, k.ext, k.refstack, v) && 2 <= v
    modifies k`quantvarset, k`quantvarsetID, k`quantlast, k`miscid
    ensures k.Ok() && v in k.dd && RestrictMode(k, v, FixSet(k.dd[v]))
  {
    hide Kernel.Ok, Live, FixSet, FixTable;
    var _ := FixSetTable(k, v);
    SetMiscId(k, QuantId(v, CACHEID_RESTRICT));
  }

  lemma EmptyCube(c: Dd, d: Dd)
    requires c.Leaf? && Robdd(d)
    ensures Restrict(d, FixSet(c)) == d
    ensures Quant(OR, d, VarSet(c)) == d && Quant(AND, d, VarSet(c)) == d
  {
    RestrictNothing(d, map[]);
    QuantNothing(OR, d, {});
    QuantNothing(AND, d, {});
  }

  method SetMiscId(k: Kernel, id: nat)
    requires k.Ok()
    modifies k`miscid
    ensures k.Ok() && k.miscid == id
  {
    hide Sound, CachesOk, Levelled;
    k.miscid := id;
  }

  method SetQuantMode(k: Kernel, id: nat, op: nat)
    requires k.Ok()
    modifies k`quantid, k`applyop
    ensures k.Ok() && k.quantid == id && k.applyop == op
  {
    hide Sound, CachesOk, Levelled;
    k.quantid := id;
    k.applyop := op;
  }

  /**
    bdd_exist (id 0) and bdd_forall (id 1). Over a product of variables the
    result holds exactly where some, or every, choice for them makes the operand
    hold.
  */
  method QuantOf(k: Kernel, r: nat, v: nat, id: nat) returns (res: nat)
    requires k.Ok() && Live(k.dd, k.ext, [], r) && Live(k.dd, k.ext, [], v) && (id == CACHEID_EXIST || id == CACHEID_FORALL)
    modifies k`nodes, k`freepos, k`freenum, k`caches, k`dd, k`lists, k`place, k`refstack,
             k`quantvarset, k`quantvarsetID, k`quantlast, k`quantid, k`applyop
    ensures k.Ok() && Keeps(old(k.Now()), [], k.Now())
    ensures r in old(k.dd) && v in old(k.dd) && res in k.dd
    ensures k.dd[res] == Quant(if id == CACHEID_EXIST then OR else AND, old(k.dd)[r], VarSet(old(k.dd)[v]))
    ensures IsProduct(old(k.dd)[v]) ==>
              forall a: Assign {:trigger Eval(k.dd[res], a)} ::
                Eval(k.dd[res], a) <==>
                  if id == CACHEID_EXIST then SomeChoice(Support(old(k.dd)[v]), old(k.dd)[r], a) else EveryChoice(Support(old(k.dd)[v]), old(k.dd)[r], a)
  {
    hide Kernel.Ok, Sound, CachesOk, Levelled, Live, Keeps, VarSet, QuantStatics, Quant, IsProduct, SomeChoice, EveryChoice;
    InitRef(k);
    Open(k, r);
    Open(k, v);
    ProductQuantified(k.dd[r], k.dd[v]);
    if v < 2 {
      EmptyCube(k.dd[v], k.dd[r]);
      KeepsSame(k.Now(), []);
      return r;
    }
    EnterQuant(k, v, id);
    res := QuantRec(k, r, v, VarSet(k.dd[v]));
  }

  /** The mode for the cube of v. */
  method EnterQuant(k: Kernel, v: nat, id: nat)
    requires k.Ok() && Live(k.dd, k.ext, k.refstack, v) && 2 <= v && (id == CACHEID_EXIST || id == CACHEID_FORALL)
    modifies k`quantvarset, k`quantvarsetID, k`quantlast, k`quantid, k`applyop
    ensures k.Ok() && v in k.dd && QuantMode(k, v, VarSet(k.dd[v])) && k.applyop == if id == CACHEID_EXIST then OR else AND
  {
    hide Kernel.Ok, Live, VarSet, VarTable, QuantId, QuantVar;
    var _ := VarSetTable(k, v);
    QuantIdDecodes(v, id);
    SetQuantMode(k, QuantId(v, id), if id == CACHEID_EXIST then OR else AND);
  }

  method SetAppMode(k: Kernel, op: nat, id: nat)
    requires k.Ok()
    modifies k`appexop, k`appexid
    ensures k.Ok() && k.appexop == op && k.appexid == id
  {
    hide Sound, CachesOk, Levelled;
    k.appexop := op;
    k.appexid := id;
  }

  /**
    bdd_appex (tag 0) and bdd_appall (tag 1): quantification of bdd_apply; an
    unknown operator gives false. Over a product of variables the result holds
    exactly where the operator does for some, or every, choice for them.
  */
  method AppQuantOf(k: Kernel, l: nat, r: nat, opr: int, v: nat, tag: nat) returns (res: nat)
    requires k.Ok() && Live(k.dd, k.ext, [], l) && Live(k.dd, k.ext, [], r) && Live(k.dd, k.ext, [], v) && tag < 2
    modifies k`nodes, k`freepos, k`freenum, k`caches, k`dd, k`lists, k`place, k`refstack,
             k`quantvarset, k`quantvarsetID, k`quantlast, k`quantid, k`applyop, k`appexop, k`appexid
    ensures k.Ok() && Keeps(old(k.Now()), [], k.Now())
    ensures opr < 0 || opr > INVIMP ==> res == 0 && k.dd == old(k.dd)
    ensures 0 <= opr <= INVIMP ==>
              && l in old(k.dd) && r in old(k.dd) && v in old(k.dd) && res in k.dd
              && k.dd[res] == Quant(if tag == 0 then OR else AND, Apply(opr, old(k.dd)[l], old(k.dd)[r]), VarSet(old(k.dd)[v]))
    ensures 0 <= opr <= INVIMP && IsProduct(old(k.dd)[v]) ==>
              forall a: Assign {:trigger Eval(k.dd[res], a)} ::
                Eval(k.dd[res], a) <==>
                  if tag == 0 then SomeApplied(Support(old(k.dd)[v]), opr, old(k.dd)[l], old(k.dd)[r], a)
                  else EveryApplied(Support(old(k.dd)[v]), opr, old(k.dd)[l], old(k.dd)[r], a)
  {
    hide Kernel.Ok, Sound, CachesOk, Levelled, Live, Keeps, VarSet, QuantId, QuantVar, Quant, Apply, AppexId, OprRes, IsProduct, SomeApplied, EveryApplied;
    KeepsSame(k.Now(), []);
    if opr < 0 || opr > INVIMP {
      return 0;
    }
    InitRef(k);
    Open(k, l);
    Open(k, r);
    Open(k, v);
    ProductApplied(opr, k.dd[l], k.dd[r], k.dd[v]);
    if v < 2 {
      AppliedGood(opr, k.dd[l], k.dd[r]);
      EmptyCube(k.dd[v], Apply(opr, k.dd[l], k.dd[r]));
      res := ApplyOf(k, l, r, opr);
      return;
    }
    res := AppQuantSet(k, l, r, opr, v, tag);
  }

  /** The mode is set up for the cube of v. */
  method AppQuantSet(k: Kernel, l: nat, r: nat, opr: nat, v: nat, tag: nat) returns (res: nat)
    requires k.Ok() && Live(k.dd, k.ext, k.refstack, l) && Live(k.dd, k.ext, k.refstack, r) && Live(k.dd, k.ext, k.refstack, v)
    requires tag < 2 && 2 <= v && opr <= INVIMP && k.refstack == []
    modifies k`nodes, k`freepos, k`freenum, k`caches, k`dd, k`lists, k`place, k`refstack,
             k`quantvarset, k`quantvarsetID, k`quantlast, k`quantid, k`applyop, k`appexop, k`appexid
    ensures k.Ok() && Keeps(old(k.Now()), [], k.Now())
    ensures l in old(k.dd) && r in old(k.dd) && v in old(k.dd) && res in k.dd
    ensures k.dd[res] == Quant(if tag == 0 then OR else AND, Apply(opr, old(k.dd)[l], old(k.dd)[r]), VarSet(old(k.dd)[v]))
  {
    hide Kernel.Ok, Live, Keeps, VarSet, Quant, Apply, QuantStatics, AppStatics;
    EnterFused(k, v, opr, tag);
    res := AppQuantRec(k, l, r, v, VarSet(k.dd[v]), tag);
  }

  method EnterFused(k: Kernel, v: nat, opr: nat, tag: nat)
    requires k.Ok() && Live(k.dd, k.ext, k.refstack, v) && tag < 2 && 2 <= v && opr <= INVIMP
    modifies k`quantvarset, k`quantvarsetID, k`quantlast, k`quantid, k`applyop, k`appexop, k`appexid
    ensures k.Ok() && v in k.dd && AppMode(k, v, VarSet(k.dd[v]), tag) && k.appexop == opr && k.applyop == if tag == 0 then OR else AND
  {
    hide Kernel.Ok, Live, VarSet, QuantId, QuantVar, AppexId, VarTable;
    var _ := VarSetTable(k, v);
    AppexIdDecodes(v, opr, tag);
    SetAppMode(k, opr, AppexId(v, opr, tag));
    SetQuantMode(k, QuantId(k.appexid, tag + 3), if tag == 0 then OR else AND);
  }

  lemma AppliedGood(op: nat, s: Dd, t: Dd)
    requires op <= INVIMP && Robdd(s) && Robdd(t)
    ensures Robdd(Apply(op, s, t))
  {
    ApplyMeans(op, s, t);
  }
}
