/** bdd_satcount, bdd_allsat and bdd_fullsatone. */
module CountOps {
  import opened Dd
  import opened DdOps
  import Count = DdCount
  import opened Number
  import opened Threads
  import opened TableState
  import opened OpCaches
  import opened KernelTable
  import opened OperatorBase
  import opened QuantOps

  /** Every test of a live node is above the constants. */
  lemma {:induction false} FitsAt(k: Kernel, r: nat)
    requires k.Ok() && r in k.dd
    ensures 2 <= |k.nodes| && Count.Fits(k.dd[r], k.nodes[0].level) && Robdd(k.dd[r]) && r < |k.nodes|
    ensures 2 <= r ==> Fits(k.nodes, k.dd, r)
    ensures k.nodes[r].level == Count.Lev(k.dd[r], k.nodes[0].level)
    decreases k.dd[r]
  {
    hide Sound, CachesOk;
    OkFacts(k);
    NodeAt(k.Now(), k.hash, r);
    assert DdBelow(k.dd[r], k.varnum);
    if 2 <= r {
      FitsAt(k, k.nodes[r].low);
      FitsAt(k, k.nodes[r].high);
    }
  }

  /** satcount_rec. */
  method SatCountRec(k: Kernel, root: nat) returns (size: nat)
    requires k.Ok() && root in k.dd
    modifies k`caches
    ensures k.Ok() && 2 <= |k.nodes| && Robdd(k.dd[root]) && Count.Fits(k.dd[root], k.nodes[0].level)
    ensures size == Count.CountRec(k.dd[root], k.nodes[0].level)
    decreases k.dd[root]
  {
    hide Kernel.Ok, Sound, CachesOk, Levelled, Hit, Count.Fits, Robdd, Count.Lev, Two;
    FitsAt(k, root);
    OkFacts(k);
    if root < 2 {
      NodeAt(k.Now(), k.hash, root);
      return root;
    }
    MiscHit(k, root, 0, CACHEID_SATCOU);
    var e := Hit(k.caches.misc, k.slot, root, 0, CACHEID_SATCOU);
    if e.generation == k.caches.misc.generation && e.a == root && e.c == CACHEID_SATCOU {
      return e.res;
    }
    var low, high := k.nodes[root].low, k.nodes[root].high;
    FitsAt(k, low);
    FitsAt(k, high);
    Count.LevBelow(k.dd[root], k.nodes[0].level);
    var s := SatCountRec(k, low);
    size := Two(k.nodes[low].level - k.nodes[root].level - 1) * s;
    s := SatCountRec(k, high);
    size := size + Two(k.nodes[high].level - k.nodes[root].level - 1) * s;
    StoreMisc(k, root, 0, CACHEID_SATCOU, size);
  }

  /** bdd_satcount: the number of assignments of all variables that satisfy r. */
  method SatCountOf(k: Kernel, r: nat) returns (size: nat)
    requires k.Ok() && r in k.dd
    modifies k`caches, k`miscid
    ensures k.Ok() && 2 <= |k.nodes|
    ensures size == |Count.Models(k.dd[r], 0, k.nodes[0].level)|
  {
    hide Kernel.Ok, Sound, CachesOk, Levelled, Count.Models;
    FitsAt(k, r);
    SetMiscId(k, CACHEID_SATCOU);
    var n := SatCountRec(k, r);
    size := Two(k.nodes[r].level) * n;
    Count.SatCountMeans(k.dd[r], k.nodes[0].level);
  }

  /* ---- all cubes, through one shared profile ---- */

  /** profile[..] holds the values of c at the levels below `upto`, by variable. */
  ghost predicate Holds(profile: seq<int>, level2var: seq<nat>, c: Count.Cube, upto: nat) {
    && upto <= |c| && upto <= |level2var|
    && forall l {:trigger level2var[l]} {:trigger c[l]} :: 0 <= l < upto ==> level2var[l] < |profile| && profile[level2var[l]] == c[l]
  }

  ghost predicate Distinct(level2var: seq<nat>, n: nat) {
    && |level2var| == n && (forall l {:trigger level2var[l]} :: 0 <= l < n ==> level2var[l] < n)
    && forall l, m {:trigger level2var[l], level2var[m]} :: 0 <= l < m < n ==> level2var[l] != level2var[m]
  }

  /** The handler saw exactly these cubes, in this order. */
  ghost predicate Seen(out: seq<seq<int>>, level2var: seq<nat>, cs: seq<Count.Cube>, n: nat) {
    && |out| == |cs|
    && forall i {:trigger out[i]} {:trigger cs[i]} :: 0 <= i < |cs| ==> |out[i]| == n == |cs[i]| && Holds(out[i], level2var, cs[i], n)
  }

  /** allsatProfile[level2var[level]] = value, and -1 from there to below `top`. */
  method Enter(profile: array<int>, level2var: seq<nat>, ghost path: Count.Cube, level: nat, top: nat, value: int)
    requires Distinct(level2var, profile.Length) && level < top <= profile.Length && |path| == level
    requires Holds(profile[..], level2var, path, level)
    modifies profile
    ensures Holds(profile[..], level2var, path + [value] + Count.Skip(top - level - 1), top)
  {
    profile[level2var[level]] := value;
    var v := top - 1;
    while v > level
      invariant level <= v < top
      invariant forall l {:trigger level2var[l]} :: 0 <= l < level ==> profile[level2var[l]] == path[l]
      invariant profile[level2var[level]] == value
      invariant forall l {:trigger level2var[l]} :: v < l < top ==> profile[level2var[l]] == -1
    {
      profile[level2var[v]] := -1;
      v := v - 1;
    }
    ghost var c := path + [value] + Count.Skip(top - level - 1);
    forall l | 0 <= l < top ensures profile[level2var[l]] == c[l] {
      if l > level { assert c[l] == Count.Skip(top - level - 1)[l - level - 1]; }
    }
  }

  /** allsat_rec. */
  method AllSatRec(k: Kernel, r: nat, profile: array<int>, level2var: seq<nat>, ghost path: Count.Cube) returns (out: seq<seq<int>>)
    requires k.Ok() && r in k.dd && 2 <= |k.nodes| && profile.Length == k.nodes[0].level && Distinct(level2var, profile.Length)
    requires r < |k.nodes| && k.nodes[r].level <= profile.Length && |path| == k.nodes[r].level
    requires Holds(profile[..], level2var, path, k.nodes[r].level)
    modifies profile
    ensures Robdd(k.dd[r]) && Count.Fits(k.dd[r], profile.Length)
    ensures Seen(out, level2var, Count.Cubes(k.dd[r], path, profile.Length), profile.Length)
    ensures Holds(profile[..], level2var, path, k.nodes[r].level)
    decreases k.dd[r], 1
  {
    hide Kernel.Ok, Sound, CachesOk, Levelled, Count.Fits, Robdd, Holds, Distinct, Seen;
    FitsAt(k, r);
    OkFacts(k);
    NodeAt(k.Now(), k.hash, r);
    if r == 1 {
      SeenOne(profile[..], level2var, path, profile.Length);
      return [profile[..]];
    }
    SeenNone(level2var, profile.Length);
    if r == 0 {
      return [];
    }
    Count.LevBelow(k.dd[r], profile.Length);
    FitsAt(k, k.nodes[r].low);
    FitsAt(k, k.nodes[r].high);
    out := AllSatHalf(k, r, k.nodes[r].low, profile, level2var, path, 0);
    var more := AllSatHalf(k, r, k.nodes[r].high, profile, level2var, path, 1);
    SeenBoth(out, more, level2var, Count.Cubes(k.dd[k.nodes[r].low], path + [0] + Count.Skip(k.nodes[k.nodes[r].low].level - k.nodes[r].level - 1), profile.Length),
      Count.Cubes(k.dd[k.nodes[r].high], path + [1] + Count.Skip(k.nodes[k.nodes[r].high].level - k.nodes[r].level - 1), profile.Length), profile.Length);
    out := out + more;
  }

  lemma SeenNone(level2var: seq<nat>, n: nat)
    ensures Seen([], level2var, [], n)
  {
  }

  lemma SeenOne(profile: seq<int>, level2var: seq<nat>, path: Count.Cube, n: nat)
    requires Holds(profile, level2var, path, |path|) && |profile| == n
    ensures |path| == n ==> Seen([profile], level2var, [path], n)
  {
    hide Holds;
  }

  lemma SeenBoth(out: seq<seq<int>>, more: seq<seq<int>>, level2var: seq<nat>, cs: seq<Count.Cube>, ds: seq<Count.Cube>, n: nat)
    requires Seen(out, level2var, cs, n) && Seen(more, level2var, ds, n)
    ensures Seen(out + more, level2var, cs + ds, n)
  {
    hide Holds;
  }

  /** One half of allsat_rec: the level of r has this value, and the levels down to the child none. */
  method AllSatHalf(k: Kernel, r: nat, child: nat, profile: array<int>, level2var: seq<nat>, ghost path: Count.Cube, value: int) returns (out: seq<seq<int>>)
    requires k.Ok() && r in k.dd && 2 <= |k.nodes| && profile.Length == k.nodes[0].level && Distinct(level2var, profile.Length)
    requires 2 <= r < |k.nodes| && k.nodes[r].level < profile.Length && |path| == k.nodes[r].level
    requires child < |k.nodes| && child in k.dd && k.dd[r].Node? && (k.dd[child] == k.dd[r].lo || k.dd[child] == k.dd[r].hi)
    requires k.nodes[r].level < k.nodes[child].level <= profile.Length
    requires Holds(profile[..], level2var, path, k.nodes[r].level)
    modifies profile
    ensures Robdd(k.dd[child]) && Count.Fits(k.dd[child], profile.Length)
    ensures Seen(out, level2var, Count.Cubes(k.dd[child], path + [value] + Count.Skip(k.nodes[child].level - k.nodes[r].level - 1), profile.Length), profile.Length)
    ensures Holds(profile[..], level2var, path, k.nodes[r].level)
    decreases k.dd[r], 0
  {
    hide Kernel.Ok, Sound, CachesOk, Levelled, Count.Fits, Robdd, Holds, Distinct, Count.Lev;
    FitsAt(k, child);
    ghost var p := path + [value] + Count.Skip(k.nodes[child].level - k.nodes[r].level - 1);
    if child == 0 {
      OkFacts(k);
      return [];
    }
    Enter(profile, level2var, path, k.nodes[r].level, k.nodes[child].level, value);
    out := AllSatRec(k, child, profile, level2var, p);
    HoldsPrefix(profile[..], level2var, p, path, k.nodes[child].level, k.nodes[r].level);
  }

  lemma HoldsPrefix(profile: seq<int>, level2var: seq<nat>, c: Count.Cube, path: Count.Cube, top: nat, level: nat)
    requires Holds(profile, level2var, c, top) && level <= top && level <= |path| <= |c| && path == c[..|path|]
    ensures Holds(profile, level2var, path, level)
  {
  }

  /** bdd_allsat: what the handler is called with, call by call. */
  method AllSatOf(k: Kernel, r: nat, level2var: seq<nat>) returns (out: seq<seq<int>>)
    requires k.Ok() && r in k.dd && 0 < k.varnum && Distinct(level2var, k.varnum)
    ensures Robdd(k.dd[r]) && Count.Fits(k.dd[r], k.varnum)
    ensures Seen(out, level2var, Count.Cubes(k.dd[r], Count.Skip(Count.Lev(k.dd[r], k.varnum)), k.varnum), k.varnum)
    ensures var cs := Count.Cubes(k.dd[r], Count.Skip(Count.Lev(k.dd[r], k.varnum)), k.varnum);
            && |out| == |cs|
            && forall i, l {:trigger cs[i][l]} :: 0 <= i < |cs| && 0 <= l < k.varnum ==>
                 |out[i]| == k.varnum == |cs[i]| && level2var[l] < k.varnum && out[i][level2var[l]] == cs[i][l]
  {
    hide Kernel.Ok, Sound, CachesOk, Count.Fits, Robdd;
    FitsAt(k, r);
    OkFacts(k);
    LevelLast(k, r);
    var profile := new int[k.varnum];
    var v := k.nodes[r].level - 1;
    while v >= 0
      invariant -1 <= v < k.nodes[r].level
      invariant forall l {:trigger level2var[l]} :: v < l < k.nodes[r].level ==> profile[level2var[l]] == -1
    {
      profile[level2var[v]] := -1;
      v := v - 1;
    }
    out := AllSatRec(k, r, profile, level2var, Count.Skip(k.nodes[r].level));
  }

  lemma LevelLast(k: Kernel, r: nat)
    requires k.Ok() && r in k.dd && 0 < k.varnum
    ensures 2 <= |k.nodes| && k.nodes[0].level == k.varnum && r < |k.nodes| && k.nodes[r].level <= k.varnum
  {
    hide Sound, CachesOk;
    OkFacts(k);
    FitsAt(k, r);
  }

  /* ---- one full assignment ---- */

  /** The loop that adds a negative test for every level from below `top` down to `from`, pushing each node. */
  method Negatives(k: Kernel, d: nat, from: nat, top: nat) returns (res: nat)
    requires k.Ok() && Live(k.dd, k.ext, k.refstack, d) && from <= top <= k.varnum
    requires d in k.dd && (k.dd[d].Node? ==> top <= k.dd[d].level)
    modifies k`nodes, k`freepos, k`freenum, k`caches, k`dd, k`lists, k`place, k`refstack
    ensures k.Ok() && old(k.refstack) <= k.refstack && Keeps(old(k.Now()), old(k.refstack), k.Now())
    ensures Live(k.dd, k.ext, k.refstack, res) && res in k.dd
    ensures k.dd[res] == Count.Negative(from, top, old(k.dd)[d])
  {
    hide Kernel.Ok, Sound, CachesOk, Live, Keeps, Levelled;
    ghost var t, stack := k.Now(), k.refstack;
    KeepsSame(t, stack);
    res := d;
    var v := top - 1;
    while v >= from
      invariant from - 1 <= v < top && k.Ok() && stack <= k.refstack && Keeps(t, stack, k.Now())
      invariant Live(k.dd, k.ext, k.refstack, res) && res in k.dd && (k.dd[res].Node? ==> v < k.dd[res].level)
      invariant Count.Negative(from, v + 1, k.dd[res]) == Count.Negative(from, top, t.dd[d])
    {
      NegativeStep(from, v, k.dd[res]);
      res := PushedNode(k, t, stack, v, res, 0);
      v := v - 1;
    }
  }

  lemma {:induction false} NegativeStep(from: nat, v: nat, d: Dd)
    requires from <= v
    ensures Count.Negative(from, v + 1, d) == Count.Negative(from, v, Mk(v, d, Leaf(false)))
    decreases v - from
  {
    if from < v { NegativeStep(from + 1, v, d); }
  }

  /** PUSHREF( bdd_makenode(level, low, high) ) */
  method PushedNode(k: Kernel, ghost t: Table, ghost stack: seq<nat>, level: nat, low: nat, high: nat) returns (res: nat)
    requires k.Ok() && level < k.varnum && stack <= k.refstack && Keeps(t, stack, k.Now())
    requires (Live(k.dd, k.ext, k.refstack, low) && low in k.dd && high == 0) || (Live(k.dd, k.ext, k.refstack, high) && high in k.dd && low == 0)
    requires low in k.dd && low != 0 ==> Under(level, k.dd[low])
    requires high in k.dd && high != 0 ==> Under(level, k.dd[high])
    modifies k`nodes, k`freepos, k`freenum, k`caches, k`dd, k`lists, k`place, k`refstack
    ensures k.Ok() && stack <= k.refstack && Keeps(t, stack, k.Now()) && Live(k.dd, k.ext, k.refstack, res) && res in k.dd
    ensures low in old(k.dd) && high in old(k.dd) && 0 in old(k.dd) && old(k.dd)[0] == Leaf(false)
    ensures k.dd[res] == Mk(level, old(k.dd)[low], old(k.dd)[high])
  {
    hide Sound, CachesOk, Live, Keeps, Levelled, OnlyNew;
    ghost var t1, stack1 := k.Now(), k.refstack;
    OkFacts(k);
    ConstantsAlive(t1, k.hash, stack1);
    LevelledLow(k.nodes, k.dd, k.varnum, low);
    res := k.MakeNode(level, low, high);
    LevelledAfter(t1, stack1, k.Now(), res, k.varnum, level, t1.dd[low], t1.dd[high]);
    PrefixWithin(stack, stack1);
    KeepsTrans(t, stack, t1, stack1, k.Now());
    PushRef(k, res);
  }

  lemma PrefixWithin(stack: seq<nat>, stack': seq<nat>)
    requires stack <= stack'
    ensures TableState.Within(stack, stack')
  {
    forall r | r in stack ensures r in stack' {
      var i :| 0 <= i < |stack| && stack[i] == r;
      assert stack'[i] == r;
    }
  }

  /** fullsatone_rec: the nodes it builds stay on the stack. */
  method FullSatOneRec(k: Kernel, r: nat) returns (res: nat)
    requires k.Ok() && Live(k.dd, k.ext, k.refstack, r) && 0 < k.varnum
    modifies k`nodes, k`freepos, k`freenum, k`caches, k`dd, k`lists, k`place, k`refstack
    ensures k.Ok() && old(k.refstack) <= k.refstack && Keeps(old(k.Now()), old(k.refstack), k.Now())
    ensures r in old(k.dd) && Robdd(old(k.dd)[r]) && Count.Fits(old(k.dd)[r], k.varnum)
    ensures Live(k.dd, k.ext, k.refstack, res) && res in k.dd && k.dd[res] == Count.FullOne(old(k.dd)[r], k.varnum)
    decreases assert r in k.dd by { Open(k, r); } Size(k.dd[r])
  {
    hide Kernel.Ok, Sound, CachesOk, Live, Keeps, Levelled, Count.Fits, Robdd;
    ghost var t, stack := k.Now(), k.refstack;
    Open(k, r);
    FitsAt(k, r);
    LevelLast(k, r);
    KeepsSame(t, stack);
    if r < 2 {
      return r;
    }
    var level := k.nodes[r].level;
    ZeroLow(k, r);
    FullParts(k.dd[r], k.varnum);
    FullBelow(k.dd[r], k.varnum);
    if k.nodes[r].low != 0 {
      var low := k.nodes[r].low;
      var top := LevelBelow(k, low);
      res := FullSatOneRec(k, low);
      ghost var t1, stack1 := k.Now(), k.refstack;
      res := Negatives(k, res, level + 1, top);
      PrefixWithin(stack, stack1);
      KeepsTrans(t, stack, t1, stack1, k.Now());
      res := PushedNode(k, t, stack, level, res, 0);
    } else {
      var high := k.nodes[r].high;
      var top := LevelBelow(k, high);
      res := FullSatOneRec(k, high);
      ghost var t1, stack1 := k.Now(), k.refstack;
      res := Negatives(k, res, level + 1, top);
      PrefixWithin(stack, stack1);
      KeepsTrans(t, stack, t1, stack1, k.Now());
      res := PushedNode(k, t, stack, level, 0, res);
    }
  }

  /** The chosen half is not false, and its result starts at or below its own level. */
  lemma FullBelow(d: Dd, n: nat)
    requires Robdd(d) && Count.Fits(d, n) && d.Node?
    ensures Robdd(d.lo) && Robdd(d.hi) && Count.Fits(d.lo, n) && Count.Fits(d.hi, n)
    ensures Count.FullOne(d.lo, n).Node? ==> Count.Lev(d.lo, n) <= Count.FullOne(d.lo, n).level
    ensures Count.FullOne(d.hi, n).Node? ==> Count.Lev(d.hi, n) <= Count.FullOne(d.hi, n).level
  {
    FullAboveAll(d.lo, n);
    FullAboveAll(d.hi, n);
  }

  /** LEVEL(n) */
  method LevelBelow(k: Kernel, n: nat) returns (level: nat)
    requires k.Ok() && Live(k.dd, k.ext, k.refstack, n) && 0 < k.varnum
    ensures n in k.dd && level == Count.Lev(k.dd[n], k.varnum) <= k.varnum
  {
    hide Kernel.Ok, Sound, CachesOk, Live, Levelled;
    Open(k, n);
    FitsAt(k, n);
    LevelLast(k, n);
    level := k.nodes[n].level;
  }

  /** The parts of FullOne, and where they lie. */
  lemma {:induction false} FullParts(d: Dd, n: nat)
    requires Robdd(d) && Count.Fits(d, n) && d.Node?
    ensures Robdd(d.lo) && Robdd(d.hi) && Count.Fits(d.lo, n) && Count.Fits(d.hi, n)
    ensures d.level < Count.Lev(d.lo, n) <= n && d.level < Count.Lev(d.hi, n) <= n
    ensures FullAbove(d.lo, n) && FullAbove(d.hi, n)
    ensures Count.FullOne(d, n) ==
            if d.lo != Leaf(false) then Mk(d.level, Count.Negative(d.level + 1, Count.Lev(d.lo, n), Count.FullOne(d.lo, n)), Leaf(false))
            else Mk(d.level, Leaf(false), Count.Negative(d.level + 1, Count.Lev(d.hi, n), Count.FullOne(d.hi, n)))
    ensures Under(d.level, Count.Negative(d.level + 1, Count.Lev(d.lo, n), Count.FullOne(d.lo, n)))
    ensures Under(d.level, Count.Negative(d.level + 1, Count.Lev(d.hi, n), Count.FullOne(d.hi, n)))
  {
    hide Count.Negative;
    Count.LevBelow(d, n);
    FullAboveAll(d.lo, n);
    FullAboveAll(d.hi, n);
    NegativeAbove(d.level + 1, Count.Lev(d.lo, n), Count.FullOne(d.lo, n));
    NegativeAbove(d.level + 1, Count.Lev(d.hi, n), Count.FullOne(d.hi, n));
  }

  ghost predicate FullAbove(d: Dd, n: nat)
    requires Robdd(d) && Count.Fits(d, n)
  {
    Count.FullOne(d, n).Node? ==> Count.Lev(d, n) <= Count.FullOne(d, n).level
  }

  lemma {:induction false} FullAboveAll(d: Dd, n: nat)
    requires Robdd(d) && Count.Fits(d, n)
    ensures FullAbove(d, n)
  {
    if d.Node? {
      Count.LevBelow(d, n);
      FullAboveAll(d.lo, n);
      FullAboveAll(d.hi, n);
      NegativeAbove(d.level + 1, Count.Lev(d.lo, n), Count.FullOne(d.lo, n));
      NegativeAbove(d.level + 1, Count.Lev(d.hi, n), Count.FullOne(d.hi, n));
    }
  }

  lemma {:induction false} NegativeAbove(l: nat, top: nat, d: Dd)
    requires l <= top && (d.Node? ==> top <= d.level)
    ensures Count.Negative(l, top, d).Node? ==> l <= Count.Negative(l, top, d).level
    decreases top - l
  {
    if l < top { NegativeAbove(l + 1, top, d); }
  }

  /** bdd_fullsatone: false stays false; otherwise exactly one assignment of all variables, one of r's. */
  method FullSatOneOf(k: Kernel, r: nat) returns (res: nat)
    requires k.Ok() && Live(k.dd, k.ext, [], r) && 0 < k.varnum
    modifies k`nodes, k`freepos, k`freenum, k`caches, k`dd, k`lists, k`place, k`refstack
    ensures k.Ok() && Keeps(old(k.Now()), [], k.Now()) && r in old(k.dd) && res in k.dd
    ensures old(k.dd)[r] == Leaf(false) ==> k.dd[res] == Leaf(false)
    ensures old(k.dd)[r] != Leaf(false) ==>
              && |Count.Models(k.dd[res], 0, k.varnum)| == 1
              && forall a: Assign {:trigger Eval(k.dd[res], a)} :: Eval(k.dd[res], a) ==> Eval(old(k.dd)[r], a)
  {
    hide Kernel.Ok, Sound, CachesOk, Live, Keeps, Levelled, Count.Fits, Robdd, Count.Models;
    InitRef(k);
    ghost var t := k.Now();
    Open(k, r);
    OkFacts(k);
    SameId(t, k.hash, r, 0);
    FitsAt(k, r);
    LevelLast(k, r);
    KeepsSame(t, []);
    if r == 0 {
      return 0;
    }
    Count.FullSatOneMeans(k.dd[r], k.varnum);
    FullAboveAll(k.dd[r], k.varnum);
    var top := LevelBelow(k, r);
    res := FullSatOneRec(k, r);
    ghost var t1, stack1 := k.Now(), k.refstack;
    res := Negatives(k, res, 0, top);
    PrefixWithin([], stack1);
    KeepsTrans(t, [], t1, stack1, k.Now());
  }
}
