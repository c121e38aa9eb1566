/** Counting and listing the satisfying assignments of a decision tree over n levels. */
module DdCount {
  import opened Dd
  import opened DdOps
  import opened Number

  /** The level of a tree, where the constants sit at level n. */
  function Lev(d: Dd, n: nat): nat { if d.Node? then d.level else n }

  /** All branching happens before level n. */
  predicate Fits(d: Dd, n: nat) {
    d.Node? ==> d.level < n && Fits(d.lo, n) && Fits(d.hi, n)
  }

  /** Every branch goes strictly down, and not below n. */
  lemma LevBelow(d: Dd, n: nat)
    requires Robdd(d) && Fits(d, n) && d.Node?
    ensures d.level < Lev(d.lo, n) <= n && d.level < Lev(d.hi, n) <= n
  {
  }

  /* ---- the count ---- */

  /** satcount_rec: the count over the levels from the root of d on. */
  function CountRec(d: Dd, n: nat): nat
    requires Robdd(d) && Fits(d, n)
  {
    match d
    case Leaf(v) => Bit(v)
    case Node(l, lo, hi) => Scaled(Lev(lo, n) - l - 1, CountRec(lo, n)) + Scaled(Lev(hi, n) - l - 1, CountRec(hi, n))
  }

  /** The skipped levels are free. */
  function Scaled(skipped: nat, count: nat): nat { Two(skipped) * count }

  function SatCount(d: Dd, n: nat): nat
    requires Robdd(d) && Fits(d, n)
  {
    Two(Lev(d, n)) * CountRec(d, n)
  }

  /** All bit sequences of length n. */
  ghost function Bits(n: nat): set<seq<bool>> {
    if n == 0 then {[]} else Prepend(false, Bits(n - 1)) + Prepend(true, Bits(n - 1))
  }

  ghost function Prepend(v: bool, x: set<seq<bool>>): set<seq<bool>> { set s | s in x :: [v] + s }

  lemma Prepended(v: bool, x: set<seq<bool>>, s: seq<bool>)
    ensures s in Prepend(v, x) <==> s != [] && s[0] == v && s[1..] in x
  {
    if s in Prepend(v, x) {
      var t :| t in x && s == [v] + t;
      assert s[1..] == t;
    }
    if s != [] && s[0] == v && s[1..] in x {
      assert s == [v] + s[1..];
    }
  }

  lemma {:induction false} BitsAll(n: nat, s: seq<bool>)
    ensures s in Bits(n) <==> |s| == n
  {
    if n > 0 {
      Prepended(false, Bits(n - 1), s);
      Prepended(true, Bits(n - 1), s);
      if s != [] { BitsAll(n - 1, s[1..]); }
    }
  }

  /** The assignment that gives level l + i the value s[i]. */
  function From(l: nat, s: seq<bool>): Assign {
    (x: nat) => l <= x < l + |s| && s[x - l]
  }

  /** The assignments of the levels l .. n - 1 that satisfy d. */
  ghost function Models(d: Dd, l: nat, n: nat): set<seq<bool>>
    requires l <= n
  {
    set s | s in Bits(n - l) && Eval(d, From(l, s))
  }

  /** The models are the rows of n values under which d holds, the value of level l at position l. */
  lemma {:induction false} ModelsSpelled(d: Dd, n: nat, s: seq<bool>)
    ensures s in Models(d, 0, n) <==> |s| == n && Eval(d, (l: nat) => l < |s| && s[l])
  {
    BitsAll(n, s);
    var a: Assign := (l: nat) => l < |s| && s[l];
    EvalAgree(d, From(0, s), a);
  }

  lemma PrependCount(v: bool, x: set<seq<bool>>)
    ensures |Prepend(v, x)| == |x|
    decreases |x|
  {
    if x == {} {
      assert Prepend(v, x) == {};
    } else {
      var s :| s in x;
      PrependCount(v, x - {s});
      Prepended(v, x - {s}, [v] + s);
      assert ([v] + s)[1..] == s;
      assert Prepend(v, x) == Prepend(v, x - {s}) + {[v] + s};
    }
  }

  lemma FromCons(l: nat, v: bool, s: seq<bool>)
    ensures From(l, [v] + s)(l) == v
    ensures forall x: nat :: l < x ==> From(l, [v] + s)(x) == From(l + 1, s)(x)
  {
  }

  /** Fixing the first level splits the models in two. */
  lemma ModelsSplit(d: Dd, l: nat, n: nat)
    requires Robdd(d) && l < n && (d.Node? ==> l <= d.level)
    ensures Models(d, l, n) == Prepend(false, Models(Cofactor(d, l, false), l + 1, n)) + Prepend(true, Models(Cofactor(d, l, true), l + 1, n))
  {
    hide Models, Prepend;
    forall s: seq<bool>
      ensures s in Models(d, l, n)
              <==> s in Prepend(false, Models(Cofactor(d, l, false), l + 1, n)) || s in Prepend(true, Models(Cofactor(d, l, true), l + 1, n))
    {
      SplitModel(d, l, n, s);
      Prepended(false, Models(Cofactor(d, l, false), l + 1, n), s);
      Prepended(true, Models(Cofactor(d, l, true), l + 1, n), s);
    }
  }

  lemma SplitModel(d: Dd, l: nat, n: nat, s: seq<bool>)
    requires Robdd(d) && l < n && (d.Node? ==> l <= d.level)
    ensures s in Models(d, l, n) <==> s != [] && s[1..] in Models(Cofactor(d, l, s[0]), l + 1, n)
  {
    hide Bits, Cofactor;
    BitsAll(n - l, s);
    if s != [] {
      BitsAll(n - l - 1, s[1..]);
      assert s == [s[0]] + s[1..];
      SplitOne(d, l, s[0], s[1..]);
    }
  }

  lemma SplitOne(d: Dd, l: nat, v: bool, t: seq<bool>)
    requires Robdd(d) && (d.Node? ==> l <= d.level)
    ensures Eval(d, From(l, [v] + t)) == Eval(Cofactor(d, l, v), From(l + 1, t))
  {
    var a := From(l, [v] + t);
    FromCons(l, v, t);
    CofactorEval(d, l, a);
    CofactorFacts(d, l, v);
    SupportBelow(Cofactor(d, l, v), l);
    EvalAgree(Cofactor(d, l, v), a, From(l + 1, t));
  }

  lemma ModelsHalves(d: Dd, l: nat, n: nat)
    requires Robdd(d) && l < n && (d.Node? ==> l <= d.level)
    ensures |Models(d, l, n)| == |Models(Cofactor(d, l, false), l + 1, n)| + |Models(Cofactor(d, l, true), l + 1, n)|
  {
    hide Models, Prepend;
    var d0, d1 := Cofactor(d, l, false), Cofactor(d, l, true);
    ModelsSplit(d, l, n);
    PrependCount(false, Models(d0, l + 1, n));
    PrependCount(true, Models(d1, l + 1, n));
    Disjoint(Models(d0, l + 1, n), Models(d1, l + 1, n));
  }

  lemma NoLevels(d: Dd, n: nat)
    requires d.Leaf?
    ensures |Models(d, n, n)| == Bit(d.value) && Two(0) == 1
  {
    forall s: seq<bool> ensures s in Models(d, n, n) <==> s == [] && d.value {
      BitsAll(0, s);
    }
    if d.value {
      assert Models(d, n, n) == {[]};
    } else {
      assert Models(d, n, n) == {};
    }
  }

  lemma {:induction false} ModelsCount(d: Dd, l: nat, n: nat)
    requires Robdd(d) && Fits(d, n) && l <= Lev(d, n) <= n
    ensures |Models(d, l, n)| == Two(Lev(d, n) - l) * CountRec(d, n)
    decreases n - l
  {
    hide Models, Pow, Two, CountRec;
    TwoNone();
    if d.Leaf? { CountLeaf(d, n); }
    if l == n {
      NoLevels(d, n);
    } else {
      ModelsHalves(d, l, n);
      if l < Lev(d, n) {
        ModelsCount(d, l + 1, n);
        DoubleCount(Lev(d, n) - l, CountRec(d, n));
      } else {
        LevBelow(d, n);
        CountNode(d, n);
        ModelsCount(d.lo, l + 1, n);
        ModelsCount(d.hi, l + 1, n);
      }
    }
  }

  lemma TwoNone()
    ensures Two(0) == 1
  {
  }

  lemma CountLeaf(d: Dd, n: nat)
    requires d.Leaf?
    ensures CountRec(d, n) == Bit(d.value)
  {
  }

  lemma CountNode(d: Dd, n: nat)
    requires Robdd(d) && Fits(d, n) && d.Node?
    ensures d.level < Lev(d.lo, n) <= n && d.level < Lev(d.hi, n) <= n && Fits(d.lo, n) && Fits(d.hi, n)
    ensures CountRec(d, n) == Two(Lev(d.lo, n) - d.level - 1) * CountRec(d.lo, n) + Two(Lev(d.hi, n) - d.level - 1) * CountRec(d.hi, n)
  {
    LevBelow(d, n);
  }

  lemma DoubleCount(e: nat, c: nat)
    requires 1 <= e
    ensures Two(e) * c == Two(e - 1) * c + Two(e - 1) * c
  {
    var t := Two(e - 1);
    assert Two(e) == t + t;
    Distribute(c, t, t);
  }

  lemma Disjoint(x: set<seq<bool>>, y: set<seq<bool>>)
    ensures |Prepend(false, x) + Prepend(true, y)| == |Prepend(false, x)| + |Prepend(true, y)|
  {
    forall s | s in Prepend(false, x) ensures s !in Prepend(true, y) {
      Prepended(false, x, s);
      Prepended(true, y, s);
    }
    assert Prepend(false, x) !! Prepend(true, y);
  }

  /** bdd_satcount is the number of satisfying assignments of the n variables. */
  lemma SatCountMeans(d: Dd, n: nat)
    requires Robdd(d) && Fits(d, n)
    ensures SatCount(d, n) == |Models(d, 0, n)|
  {
    if d.Node? { LevBelow(d, n); }
    ModelsCount(d, 0, n);
  }

  /* ---- listing all cubes ---- */

  /** -1 for a level that does not matter. */
  type Cube = seq<int>

  function Skip(k: nat): Cube { seq(k, _ => -1) }

  /** The profiles bdd_allsat passes on for the part d of a tree, reached with the values `path` so far. */
  function Cubes(d: Dd, path: Cube, n: nat): seq<Cube>
    requires Robdd(d) && Fits(d, n)
  {
    match d
    case Leaf(v) => if v then [path] else []
    case Node(l, lo, hi) =>
      Cubes(lo, path + [0] + Skip(Lev(lo, n) - l - 1), n) + Cubes(hi, path + [1] + Skip(Lev(hi, n) - l - 1), n)
  }

  /** The assignments of a cube. */
  predicate Covers(c: Cube, a: Assign) {
    forall i {:trigger c[i]} :: 0 <= i < |c| ==> c[i] == -1 || (c[i] == 1) == a(i)
  }

  lemma CoversExtend(path: Cube, v: int, k: nat, a: Assign)
    requires v == 0 || v == 1
    ensures Covers(path + [v] + Skip(k), a) <==> Covers(path, a) && a(|path|) == (v == 1)
  {
    var c := path + [v] + Skip(k);
    assert c[|path|] == v;
    if Covers(c, a) {
      forall i | 0 <= i < |path| ensures path[i] == -1 || (path[i] == 1) == a(i) {
        assert c[i] == path[i];
      }
    }
  }

  /** Each cube is complete, and satisfies d along its path. */
  lemma {:induction false} CubesGood(d: Dd, path: Cube, n: nat, i: nat)
    requires Robdd(d) && Fits(d, n) && |path| == Lev(d, n) && i < |Cubes(d, path, n)|
    ensures |Cubes(d, path, n)[i]| == n
    ensures forall a: Assign {:trigger Covers(Cubes(d, path, n)[i], a)} :: Covers(Cubes(d, path, n)[i], a) ==> Covers(path, a) && Eval(d, a)
  {
    if d.Node? {
      LevBelow(d, n);
      var p0, p1 := path + [0] + Skip(Lev(d.lo, n) - d.level - 1), path + [1] + Skip(Lev(d.hi, n) - d.level - 1);
      var c0, c1 := Cubes(d.lo, p0, n), Cubes(d.hi, p1, n);
      var (e, p, v, k) := if i < |c0| then (d.lo, p0, 0, Lev(d.lo, n) - d.level - 1) else (d.hi, p1, 1, Lev(d.hi, n) - d.level - 1);
      CubesGood(e, p, n, if i < |c0| then i else i - |c0|);
      forall a: Assign | Covers(Cubes(d, path, n)[i], a) ensures Covers(path, a) && Eval(d, a) {
        CoversExtend(path, v, k, a);
      }
    }
  }

  /** Every satisfying assignment is in exactly one cube. */
  /** Cube i is the only one that covers a. */
  ghost predicate OneCovers(cs: seq<Cube>, a: Assign, i: nat) {
    i < |cs| && Covers(cs[i], a) && forall j {:trigger cs[j]} :: 0 <= j < |cs| && j != i ==> !Covers(cs[j], a)
  }

  ghost predicate NoCover(cs: seq<Cube>, a: Assign) {
    forall j {:trigger cs[j]} :: 0 <= j < |cs| ==> !Covers(cs[j], a)
  }

  lemma JoinCovers(cs: seq<Cube>, ds: seq<Cube>, a: Assign, i: nat)
    ensures OneCovers(cs, a, i) && NoCover(ds, a) ==> OneCovers(cs + ds, a, i)
    ensures NoCover(cs, a) && OneCovers(ds, a, i) ==> OneCovers(cs + ds, a, |cs| + i)
  {
    hide Covers;
  }

  lemma {:induction false} CubesCover(d: Dd, path: Cube, n: nat, a: Assign) returns (i: nat)
    requires Robdd(d) && Fits(d, n) && |path| == Lev(d, n) && Covers(path, a) && Eval(d, a)
    ensures OneCovers(Cubes(d, path, n), a, i)
  {
    if d.Leaf? {
      i := 0;
    } else {
      hide OneCovers, NoCover, Covers, Skip;
      LevBelow(d, n);
      var p0, p1 := path + [0] + Skip(Lev(d.lo, n) - d.level - 1), path + [1] + Skip(Lev(d.hi, n) - d.level - 1);
      var c0, c1 := Cubes(d.lo, p0, n), Cubes(d.hi, p1, n);
      CoversExtend(path, 0, Lev(d.lo, n) - d.level - 1, a);
      CoversExtend(path, 1, Lev(d.hi, n) - d.level - 1, a);
      if a(d.level) {
        i := CubesCover(d.hi, p1, n, a);
        NoneCovers(d.lo, p0, n, a);
        JoinCovers(c0, c1, a, i);
        i := |c0| + i;
      } else {
        i := CubesCover(d.lo, p0, n, a);
        NoneCovers(d.hi, p1, n, a);
        JoinCovers(c0, c1, a, i);
      }
    }
  }

  lemma NoneCovers(d: Dd, path: Cube, n: nat, a: Assign)
    requires Robdd(d) && Fits(d, n) && |path| == Lev(d, n) && !Covers(path, a)
    ensures NoCover(Cubes(d, path, n), a)
  {
    forall j | 0 <= j < |Cubes(d, path, n)| ensures !Covers(Cubes(d, path, n)[j], a) { CubesGood(d, path, n, j); }
  }

  /** The values so far stay in front. */
  lemma {:induction false} CubesPrefix(d: Dd, path: Cube, n: nat, i: nat)
    requires Robdd(d) && Fits(d, n) && i < |Cubes(d, path, n)|
    ensures path <= Cubes(d, path, n)[i]
  {
    if d.Node? {
      var p0, p1 := path + [0] + Skip(Lev(d.lo, n) - d.level - 1), path + [1] + Skip(Lev(d.hi, n) - d.level - 1);
      var c0 := Cubes(d.lo, p0, n);
      hide Skip;
      if i < |c0| { CubesPrefix(d.lo, p0, n, i); } else { CubesPrefix(d.hi, p1, n, i - |c0|); }
      assert path <= p0 && path <= p1;
    }
  }

  /** The handler gets them in ascending order: where two first differ, the earlier one has 0 and the later one 1. */
  lemma {:induction false} CubesAscend(d: Dd, path: Cube, n: nat, i: nat, j: nat) returns (p: nat)
    requires Robdd(d) && Fits(d, n) && i < j < |Cubes(d, path, n)|
    ensures var c, e := Cubes(d, path, n)[i], Cubes(d, path, n)[j];
            p < |c| && p < |e| && c[..p] == e[..p] && c[p] == 0 && e[p] == 1
  {
    var p0, p1 := path + [0] + Skip(Lev(d.lo, n) - d.level - 1), path + [1] + Skip(Lev(d.hi, n) - d.level - 1);
    var c0 := Cubes(d.lo, p0, n);
    if j < |c0| {
      p := CubesAscend(d.lo, p0, n, i, j);
    } else if |c0| <= i {
      p := CubesAscend(d.hi, p1, n, i - |c0|, j - |c0|);
    } else {
      CubesPrefix(d.lo, p0, n, i);
      CubesPrefix(d.hi, p1, n, j - |c0|);
      p := |path|;
      var c, e := Cubes(d, path, n)[i], Cubes(d, path, n)[j];
      assert p0 <= c && p1 <= e && p0[p] == 0 && p1[p] == 1;
      assert c[..p] == p0[..p] == path && e[..p] == p1[..p] == path;
    }
  }

  /** The cubes of bdd_allsat are pairwise disjoint and together exactly the satisfying assignments. */
  lemma AllSatExact(d: Dd, n: nat, a: Assign)
    requires Robdd(d) && Fits(d, n)
    ensures var cs := Cubes(d, Skip(Lev(d, n)), n);
            && (Eval(d, a) <==> exists i {:trigger cs[i]} :: 0 <= i < |cs| && Covers(cs[i], a))
            && (forall i, j {:trigger cs[i], cs[j]} :: 0 <= i < j < |cs| ==> !(Covers(cs[i], a) && Covers(cs[j], a)))
  {
    var path := Skip(Lev(d, n));
    var cs := Cubes(d, path, n);
    forall i | 0 <= i < |cs| && Covers(cs[i], a) ensures Eval(d, a) {
      CubesGood(d, path, n, i);
    }
    if Eval(d, a) {
      var i := CubesCover(d, path, n, a);
    }
  }

  /* ---- one full assignment ---- */

  /** One negative test for each level from l to below top. */
  function Negative(l: nat, top: nat, d: Dd): Dd
    requires l <= top
    decreases top - l
  {
    if l == top then d else Mk(l, Negative(l + 1, top, d), Leaf(false))
  }

  /** fullsatone_rec. */
  function FullOne(d: Dd, n: nat): Dd
    requires Robdd(d) && Fits(d, n)
  {
    match d
    case Leaf(_) => d
    case Node(l, lo, hi) =>
      LevBelow(d, n);
      if lo != Leaf(false) then Mk(l, Negative(l + 1, Lev(lo, n), FullOne(lo, n)), Leaf(false))
      else Mk(l, Leaf(false), Negative(l + 1, Lev(hi, n), FullOne(hi, n)))
  }

  /** The tree r tests every level from l on, has exactly one model, and implies d. */
  ghost predicate OneModel(r: Dd, d: Dd, l: nat, n: nat) {
    && l <= n && Robdd(r) && Fits(r, n) && (r.Node? ==> l <= r.level)
    && |Models(r, l, n)| == 1
    && forall a: Assign {:trigger Eval(r, a)} :: Eval(r, a) ==> Eval(d, a)
  }

  lemma {:induction false} OneStep(l: nat, n: nat, r: Dd, v: bool, d: Dd, d': Dd)
    requires l < n && OneModel(r, d', l + 1, n)
    requires forall a: Assign {:trigger Eval(r, a)} :: Eval(r, a) && a(l) == v ==> Eval(d, a)
    ensures var r' := if v then Mk(l, Leaf(false), r) else Mk(l, r, Leaf(false));
            OneModel(r', d, l, n)
  {
    var r' := if v then Mk(l, Leaf(false), r) else Mk(l, r, Leaf(false));
    OneTest(l, n, r, v);
    assert |Models(r', l, n)| == 1 by {
      NoModels(l + 1, n);
      hide Models;
      ModelsHalves(r', l, n);
    }
    forall a: Assign | Eval(r', a) ensures Eval(d, a) {
      assert Eval(r', a) == (a(l) == v && Eval(r, a));
    }
  }

  /** One test that sends the wrong value of the level to false. */
  lemma {:induction false} OneTest(l: nat, n: nat, r: Dd, v: bool)
    requires l < n && Robdd(r) && Fits(r, n) && (r.Node? ==> l < r.level)
    ensures var r' := if v then Mk(l, Leaf(false), r) else Mk(l, r, Leaf(false));
            && Robdd(r') && Fits(r', n) && (r'.Node? ==> l <= r'.level)
            && Cofactor(r', l, v) == r && Cofactor(r', l, !v) == Leaf(false)
            && forall a: Assign {:trigger Eval(r', a)} :: Eval(r', a) == (a(l) == v && Eval(r, a))
  {
    MkFacts(l, if v then Leaf(false) else r, if v then r else Leaf(false));
  }

  lemma NoModels(l: nat, n: nat)
    requires l <= n
    ensures Models(Leaf(false), l, n) == {}
  {
  }

  lemma {:induction false} NegativeOne(l: nat, top: nat, n: nat, r: Dd, d: Dd)
    requires l <= top <= n && OneModel(r, d, top, n)
    ensures OneModel(Negative(l, top, r), d, l, n)
    decreases top - l
  {
    if l < top {
      NegativeOne(l + 1, top, n, r, d);
      OneStep(l, n, Negative(l + 1, top, r), false, d, d);
    }
  }

  lemma {:induction false} FullOneMeans(d: Dd, n: nat)
    requires Robdd(d) && Fits(d, n) && d != Leaf(false)
    ensures Lev(d, n) <= n && OneModel(FullOne(d, n), d, Lev(d, n), n)
  {
    if d.Leaf? {
      NoLevels(d, n);
    } else {
      LevBelow(d, n);
      var v := d.lo == Leaf(false);
      var e := if v then d.hi else d.lo;
      FullOneMeans(e, n);
      NegativeOne(d.level + 1, Lev(e, n), n, FullOne(e, n), e);
      OneStep(d.level, n, Negative(d.level + 1, Lev(e, n), FullOne(e, n)), v, d, e);
    }
  }

  /** bdd_fullsatone: exactly one assignment of all n levels, and it satisfies d. */
  lemma FullSatOneMeans(d: Dd, n: nat)
    requires Robdd(d) && Fits(d, n) && d != Leaf(false)
    ensures Lev(d, n) <= n
    ensures var r := Negative(0, Lev(d, n), FullOne(d, n));
            Robdd(r) && |Models(r, 0, n)| == 1 && forall a: Assign {:trigger Eval(r, a)} :: Eval(r, a) ==> Eval(d, a)
  {
    FullOneMeans(d, n);
    NegativeOne(0, Lev(d, n), n, FullOne(d, n), d);
  }
}
