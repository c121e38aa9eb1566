/** The generalized cofactors: bdd_constrain and bdd_simplify on decision trees. */
module DdCofactor {
  import opened Dd
  import opened DdOps

  /** constrain_rec without its cache. */
  function Constrain(f: Dd, c: Dd): Dd
    decreases Size(f) + Size(c)
  {
    if c == Leaf(true) || f.Leaf? then f
    else if c == Leaf(false) then Leaf(false)
    else
      var l := Top2(f, c);
      var f0, f1, c0, c1 := Cofactor(f, l, false), Cofactor(f, l, true), Cofactor(c, l, false), Cofactor(c, l, true);
      if c.level == l && c0 == Leaf(false) then Constrain(f1, c1)
      else if c.level == l && c1 == Leaf(false) then Constrain(f0, c0)
      else Mk(l, Constrain(f0, c0), Constrain(f1, c1))
  }

  /** Follow a at the top of c unless that way is closed. */
  function Turn(c: Dd, a: Assign): bool
    requires c.Node?
  {
    if (if a(c.level) then c.hi else c.lo) == Leaf(false) then !a(c.level) else a(c.level)
  }

  /** The assignment of c that is reached by following a as long as c allows it. */
  function Project(c: Dd, a: Assign): Assign {
    if c.Leaf? then a
    else Update(Project(if Turn(c, a) then c.hi else c.lo, a), c.level, Turn(c, a))
  }

  /** Project lands in c, moves nothing that is in c, and touches only levels of c. */
  lemma {:induction false} ProjectLands(c: Dd, a: Assign)
    requires Robdd(c) && c != Leaf(false)
    ensures Eval(c, Project(c, a))
    ensures Eval(c, a) ==> forall x: nat :: Project(c, a)(x) == a(x)
    ensures forall x: nat :: x !in Support(c) ==> Project(c, a)(x) == a(x)
  {
    if c.Node? {
      var v := Turn(c, a);
      var d := if v then c.hi else c.lo;
      ProjectLands(d, a);
      EvalUpdateAbove(d, Project(d, a), c.level, v);
      if Eval(c, a) {
        var e := if a(c.level) then c.hi else c.lo;
        assert Eval(e, a) && e != Leaf(false) && v == a(c.level);
      }
    }
  }

  /** Project is the nearest assignment of c: any other one already leaves a at an earlier level. */
  lemma {:induction false} ProjectNearest(c: Dd, a: Assign, b: Assign, l: nat)
    requires Robdd(c) && Eval(c, b)
    requires forall k: nat {:trigger b(k)} :: k in Support(c) && k < l ==> b(k) == Project(c, a)(k)
    requires b(l) != Project(c, a)(l)
    ensures Project(c, a)(l) == a(l)
  {
    if c.Node? {
      var v := Turn(c, a);
      var d := if v then c.hi else c.lo;
      if c.level < l {
        assert b(c.level) == v;
        SupportBelow(d, c.level);
        ProjectNearest(d, a, b, l);
      } else if l < c.level {
        ProjectAbove(d, a, l);
      } else {
        assert b(l) != v;
      }
    }
  }

  lemma ProjectAbove(d: Dd, a: Assign, l: nat)
    requires Robdd(d) && (d.Node? ==> l < d.level)
    ensures Project(d, a)(l) == a(l)
  {
    if d.Node? {
      SupportBelow(d, l);
      ProjectLands(d, a);
    }
  }

  /** constrain is composition with Project. */
  lemma {:induction false} ConstrainMeans(f: Dd, c: Dd, a: Assign)
    requires Robdd(f) && Robdd(c) && c != Leaf(false)
    ensures Eval(Constrain(f, c), a) == Eval(f, Project(c, a))
    decreases Size(f) + Size(c)
  {
    if c == Leaf(true) || f.Leaf? {
    } else {
      var l := Top2(f, c);
      var f0, f1, c0, c1 := Cofactor(f, l, false), Cofactor(f, l, true), Cofactor(c, l, false), Cofactor(c, l, true);
      CofactorFacts(f, l, false);
      CofactorFacts(f, l, true);
      if c.level == l {
        var v := Turn(c, a);
        var d := if v then c.hi else c.lo;
        ConstrainMeans(if v then f1 else f0, d, a);
        CofactorEval(f, l, Project(c, a));
        EvalUpdateAbove(if v then f1 else f0, Project(d, a), l, v);
        ConstrainTop(f, c, a, l, v);
      } else {
        ConstrainMeans(f0, c, a);
        ConstrainMeans(f1, c, a);
        ProjectAbove(c, a, l);
        CofactorEval(f, l, Project(c, a));
      }
    }
  }

  lemma ConstrainTop(f: Dd, c: Dd, a: Assign, l: nat, v: bool)
    requires Robdd(f) && Robdd(c) && c.Node? && f.Node? && l == Top2(f, c) == c.level && v == Turn(c, a)
    ensures Eval(Constrain(f, c), a) == Eval(Constrain(Cofactor(f, l, v), if v then c.hi else c.lo), a)
  {
  }

  lemma {:induction false} ConstrainGood(f: Dd, c: Dd)
    requires Robdd(f) && Robdd(c)
    ensures Robdd(Constrain(f, c))
    ensures forall m: nat {:trigger Under(m, Constrain(f, c))} :: Under(m, f) && Under(m, c) ==> Under(m, Constrain(f, c))
    decreases Size(f) + Size(c)
  {
    if c.Leaf? || f.Leaf? {
    } else {
      var l := Top2(f, c);
      forall v: bool
        ensures Robdd(Constrain(Cofactor(f, l, v), Cofactor(c, l, v))) && Under(l, Constrain(Cofactor(f, l, v), Cofactor(c, l, v)))
        ensures forall m: nat :: Under(m, f) && Under(m, c) ==> Under(m, Constrain(Cofactor(f, l, v), Cofactor(c, l, v)))
      {
        CofactorFacts(f, l, v);
        CofactorFacts(c, l, v);
        ConstrainGood(Cofactor(f, l, v), Cofactor(c, l, v));
      }
    }
  }

  /** The cofactor agrees with f wherever c holds. */
  lemma ConstrainAgrees(f: Dd, c: Dd, a: Assign)
    requires Robdd(f) && Robdd(c) && Eval(c, a)
    ensures Eval(Constrain(f, c), a) == Eval(f, a)
  {
    ConstrainMeans(f, c, a);
    ProjectLands(c, a);
    EvalAgree(f, Project(c, a), a);
  }

  /** constrain commutes with every Boolean operator. */
  lemma ConstrainCommutes(op: nat, f: Dd, g: Dd, c: Dd)
    requires op <= INVIMP && Robdd(f) && Robdd(g) && Robdd(c) && c != Leaf(false)
    ensures Constrain(Apply(op, f, g), c) == Apply(op, Constrain(f, c), Constrain(g, c))
  {
    ApplyMeans(op, f, g);
    ConstrainGood(f, c);
    ConstrainGood(g, c);
    ConstrainGood(Apply(op, f, g), c);
    ApplyMeans(op, Constrain(f, c), Constrain(g, c));
    hide OprRes;
    forall a: Assign
      ensures Eval(Constrain(Apply(op, f, g), c), a) == Eval(Apply(op, Constrain(f, c), Constrain(g, c)), a)
    {
      ConstrainMeans(Apply(op, f, g), c, a);
      ConstrainMeans(f, c, a);
      ConstrainMeans(g, c, a);
    }
    Same(Constrain(Apply(op, f, g), c), Apply(op, Constrain(f, c), Constrain(g, c)));
  }

  /** The shortcut for c == f. */
  lemma ConstrainSelf(f: Dd)
    requires Robdd(f) && f.Node?
    ensures Constrain(f, f) == Leaf(true)
  {
    ConstrainGood(f, f);
    forall a: Assign ensures Eval(Constrain(f, f), a) {
      ConstrainMeans(f, f, a);
      ProjectLands(f, a);
    }
    Same(Constrain(f, f), Leaf(true));
  }

  /** Without the guard the law fails: a constant f is returned as it is even for c false. */
  lemma ConstrainByFalse()
    ensures Constrain(Apply(NAND, Leaf(true), Node(0, Leaf(false), Leaf(true))), Leaf(false))
            != Apply(NAND, Constrain(Leaf(true), Leaf(false)), Constrain(Node(0, Leaf(false), Leaf(true)), Leaf(false)))
  {
  }

  /* ---- simplify ---- */

  lemma {:induction false} ApplySupport(op: nat, s: Dd, t: Dd)
    requires op <= INVIMP && Robdd(s) && Robdd(t)
    ensures Support(Apply(op, s, t)) <= Support(s) + Support(t)
    decreases Size(s) + Size(t)
  {
    if s.Node? || t.Node? {
      var l := Top2(s, t);
      forall v: bool ensures Support(Apply(op, Cofactor(s, l, v), Cofactor(t, l, v))) <= Support(s) + Support(t) {
        CofactorFacts(s, l, v);
        CofactorFacts(t, l, v);
        ApplySupport(op, Cofactor(s, l, v), Cofactor(t, l, v));
      }
    }
  }

  lemma SubsetCount(a: set<nat>, b: set<nat>)
    requires a <= b
    ensures |a| <= |b| && (a != b ==> |a| < |b|)
  {
    assert b == a + (b - a);
  }

  lemma BelowCount(d: Dd, r: Dd, l: nat)
    requires Robdd(d) && d.Node? && l == d.level && Support(r) <= Support(d.lo) + Support(d.hi)
    ensures |Support(r)| < |Support(d)|
  {
    SupportBelow(d.lo, l);
    SupportBelow(d.hi, l);
    SubsetCount(Support(r), Support(d));
  }

  /** d with its top level quantified away. */
  ghost function Dropped(d: Dd): (r: Dd)
    requires Robdd(d) && d.Node?
    ensures r == Apply(OR, d.lo, d.hi) && Robdd(r) && |Support(r)| < |Support(d)|
  {
    ApplyMeans(OR, d.lo, d.hi);
    ApplySupport(OR, d.lo, d.hi);
    BelowCount(d, Apply(OR, d.lo, d.hi), d.level);
    Apply(OR, d.lo, d.hi)
  }

  /** The part of d that goes with one half of f. */
  ghost function Part(d: Dd, l: nat, v: bool): (r: Dd)
    requires Robdd(d)
    ensures r == Cofactor(d, l, v) && Robdd(r) && |Support(r)| <= |Support(d)|
  {
    SubsetCount(Support(Cofactor(d, l, v)), Support(d));
    Cofactor(d, l, v)
  }

  ghost function Half(f: Dd, v: bool): (r: Dd)
    requires Robdd(f) && f.Node?
    ensures r == (if v then f.hi else f.lo) && Robdd(r) && |Support(r)| < |Support(f)|
  {
    BelowCount(f, f.lo, f.level);
    BelowCount(f, f.hi, f.level);
    if v then f.hi else f.lo
  }

  /** simplify_rec without its cache. */
  ghost function Simplify(f: Dd, d: Dd): Dd
    requires Robdd(f) && Robdd(d)
    decreases |Support(f)| + |Support(d)|
  {
    if d == Leaf(true) || f.Leaf? then f
    else if d == f then Leaf(true)
    else if d == Leaf(false) then Leaf(false)
    else if d.level < f.level then Simplify(f, Dropped(d))
    else if d.level == f.level && d.lo == Leaf(false) then Simplify(Half(f, true), Part(d, f.level, true))
    else if d.level == f.level && d.hi == Leaf(false) then Simplify(Half(f, false), Part(d, f.level, false))
    else Mk(f.level, Simplify(Half(f, false), Part(d, f.level, false)), Simplify(Half(f, true), Part(d, f.level, true)))
  }

  /** The result never tests a level f does not test. */
  lemma {:induction false} SimplifyGood(f: Dd, d: Dd)
    requires Robdd(f) && Robdd(d)
    ensures Robdd(Simplify(f, d)) && Support(Simplify(f, d)) <= Support(f)
    ensures forall m: nat {:trigger Under(m, Simplify(f, d))} :: Under(m, f) ==> Under(m, Simplify(f, d))
    decreases |Support(f)| + |Support(d)|
  {
    hide Apply, Cofactor, Half, Part, Dropped;
    if d.Node? && f.Node? && d != f {
      if d.level < f.level {
        SimplifyGood(f, Dropped(d));
      } else {
        var r0 := SimplifyHalf(f, d, false);
        var r1 := SimplifyHalf(f, d, true);
        MkFacts(f.level, r0, r1);
        assert Simplify(f, d) == Mk(f.level, r0, r1) || Simplify(f, d) == r0 || Simplify(f, d) == r1;
        hide Simplify;
      }
    }
  }

  lemma {:induction false} SimplifyHalf(f: Dd, d: Dd, v: bool) returns (r: Dd)
    requires Robdd(f) && Robdd(d) && d.Node? && f.Node? && d != f
    ensures r == Simplify(Half(f, v), Part(d, f.level, v)) && Robdd(r) && Under(f.level, r)
    ensures Support(r) <= Support(f)
    ensures forall m: nat {:trigger Under(m, r)} :: Under(m, f) ==> Under(m, r)
    decreases |Support(f)| + |Support(d)|, 0
  {
    hide Apply, Cofactor;
    SimplifyGood(Half(f, v), Part(d, f.level, v));
    r := Simplify(Half(f, v), Part(d, f.level, v));
  }

  /** The result agrees with f wherever d holds. */
  lemma {:induction false} SimplifyAgrees(f: Dd, d: Dd, a: Assign)
    requires Robdd(f) && Robdd(d) && Eval(d, a)
    ensures Eval(Simplify(f, d), a) == Eval(f, a)
    decreases |Support(f)| + |Support(d)|
  {
    hide OprRes, Apply, Support, Cofactor;
    if d.Node? && f.Node? && d != f {
      if d.level < f.level {
        ApplyMeans(OR, d.lo, d.hi);
        OprResMeans(Eval(d.lo, a), Eval(d.hi, a));
        SimplifyAgrees(f, Dropped(d), a);
      } else {
        var v := a(f.level);
        CofactorEval(d, f.level, a);
        SimplifyGood(Half(f, false), Part(d, f.level, false));
        SimplifyGood(Half(f, true), Part(d, f.level, true));
        MkFacts(f.level, Simplify(Half(f, false), Part(d, f.level, false)), Simplify(Half(f, true), Part(d, f.level, true)));
        SimplifyAgrees(Half(f, v), Part(d, f.level, v), a);
      }
    }
  }

  /** Where d only holds if f has the value v, and does hold somewhere, nothing of f is left but v. */
  lemma {:induction false} SimplifyImplied(f: Dd, d: Dd, v: bool)
    requires Robdd(f) && Robdd(d) && d != Leaf(false) && forall a: Assign {:trigger Eval(d, a)} :: Eval(d, a) ==> Eval(f, a) == v
    ensures Simplify(f, d) == Leaf(v)
    decreases |Support(f)| + |Support(d)|
  {
    hide OprRes, Apply, Support, Half, Part, Dropped;
    var b := Distinguish(d, Leaf(false));
    assert Eval(d, b) && Eval(f, b) == v;
    if f.Leaf? {
    } else if d == Leaf(true) {
      if f != Leaf(v) {
        var a := Distinguish(f, Leaf(v));
        assert Eval(d, a);
      }
    } else if d == f {
    } else if d.level < f.level {
      ImpliedDropped(f, d, v);
      SimplifyImplied(f, Dropped(d), v);
    } else {
      ImpliedHalf(f, d, v, false);
      ImpliedHalf(f, d, v, true);
    }
  }

  lemma {:induction false} ImpliedDropped(f: Dd, d: Dd, v: bool)
    requires Robdd(f) && Robdd(d) && d.Node? && f.Node? && d.level < f.level
    requires forall a: Assign {:trigger Eval(d, a)} :: Eval(d, a) ==> Eval(f, a) == v
    ensures Dropped(d) != Leaf(false) && forall a: Assign {:trigger Eval(Dropped(d), a)} :: Eval(Dropped(d), a) ==> Eval(f, a) == v
  {
    hide OprRes, Apply, Support;
    var q := Dropped(d);
    ApplyMeans(OR, d.lo, d.hi);
    forall a: Assign | Eval(q, a) ensures Eval(f, a) == v {
      OprResMeans(Eval(d.lo, a), Eval(d.hi, a));
      var x := Eval(d.hi, a);
      EvalUpdateAbove(f, a, d.level, x);
      EvalUpdateAbove(d.lo, a, d.level, x);
      EvalUpdateAbove(d.hi, a, d.level, x);
      assert Eval(d, Update(a, d.level, x));
    }
    var b := Distinguish(d.lo, d.hi);
    OprResMeans(Eval(d.lo, b), Eval(d.hi, b));
    assert Eval(q, b);
  }

  lemma {:induction false} ImpliedHalf(f: Dd, d: Dd, v: bool, x: bool)
    requires Robdd(f) && Robdd(d) && d.Node? && f.Node? && f.level <= d.level
    requires forall a: Assign {:trigger Eval(d, a)} :: Eval(d, a) ==> Eval(f, a) == v
    ensures Part(d, f.level, x) != Leaf(false) ==> Simplify(Half(f, x), Part(d, f.level, x)) == Leaf(v)
    decreases |Support(f)| + |Support(d)|, 0
  {
    hide OprRes, Apply, Support, Simplify;
    var p, h := Part(d, f.level, x), Half(f, x);
    if p != Leaf(false) {
      CofactorFacts(d, f.level, x);
      forall a: Assign | Eval(p, a) ensures Eval(h, a) == v {
        var b := Update(a, f.level, x);
        EvalUpdateAbove(h, a, f.level, x);
        EvalUpdateAbove(p, a, f.level, x);
        CofactorEval(d, f.level, b);
        assert Eval(d, b);
      }
      SimplifyImplied(h, p, v);
    }
  }
}
