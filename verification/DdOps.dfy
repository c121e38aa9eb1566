/**
  The operators of bddop.c on decision trees: what each result is, and what it
  means as a Boolean function. The methods of the operator modules are proved to
  compute the nodes of exactly these trees.
*/
module DdOps {
  import opened Dd

  /* ---- the branching level of several trees ---- */

  function Top2(s: Dd, t: Dd): (l: nat)
    requires s.Node? || t.Node?
    ensures s.Node? ==> l <= s.level
    ensures t.Node? ==> l <= t.level
    ensures (s.Node? && l == s.level) || (t.Node? && l == t.level)
  {
    if s.Node? && (t.Leaf? || s.level <= t.level) then s.level else t.level
  }

  function Top3(f: Dd, g: Dd, h: Dd): (l: nat)
    requires f.Node? || g.Node? || h.Node?
    ensures f.Node? ==> l <= f.level
    ensures g.Node? ==> l <= g.level
    ensures h.Node? ==> l <= h.level
    ensures (f.Node? && l == f.level) || (g.Node? && l == g.level) || (h.Node? && l == h.level)
  {
    if !f.Node? && !g.Node? then h.level
    else var l := Top2(f, g); if h.Node? && h.level < l then h.level else l
  }

  lemma CofactorFacts(d: Dd, l: nat, v: bool)
    requires Robdd(d) && (d.Node? ==> l <= d.level)
    ensures Robdd(Cofactor(d, l, v)) && Under(l, Cofactor(d, l, v))
    ensures Size(Cofactor(d, l, v)) <= Size(d)
    ensures d.Node? && d.level == l ==> Size(Cofactor(d, l, v)) < Size(d)
    ensures forall m {:trigger Under(m, d)} :: Under(m, d) ==> Under(m, Cofactor(d, l, v))
    ensures Support(Cofactor(d, l, v)) <= Support(d)
  {
  }

  lemma CofactorEval(d: Dd, l: nat, a: Assign)
    requires Robdd(d) && (d.Node? ==> l <= d.level)
    ensures Eval(d, a) == Eval(Cofactor(d, l, a(l)), a)
  {
  }

  lemma MkFacts(l: nat, lo: Dd, hi: Dd)
    requires Robdd(lo) && Robdd(hi) && Under(l, lo) && Under(l, hi)
    ensures Robdd(Mk(l, lo, hi))
    ensures forall m: nat {:trigger Under(m, Mk(l, lo, hi))} :: m < l ==> Under(m, Mk(l, lo, hi))
    ensures forall a: Assign {:trigger Eval(Mk(l, lo, hi), a)} :: Eval(Mk(l, lo, hi), a) == if a(l) then Eval(hi, a) else Eval(lo, a)
    ensures Support(Mk(l, lo, hi)) <= {l} + Support(lo) + Support(hi)
  {
  }

  /** Equal functions, equal trees. */
  lemma Same(s: Dd, t: Dd)
    requires Robdd(s) && Robdd(t)
    requires forall a: Assign {:trigger Eval(s, a)} :: Eval(s, a) == Eval(t, a)
    ensures s == t
  {
    Canonical(s, t);
  }

  /* ---- negation ---- */

  function Not(d: Dd): Dd {
    match d
    case Leaf(v) => Leaf(!v)
    case Node(l, lo, hi) => Mk(l, Not(lo), Not(hi))
  }

  lemma {:induction false} NotMeans(d: Dd)
    requires Robdd(d)
    ensures Robdd(Not(d)) && (forall m: nat :: Under(m, d) ==> Under(m, Not(d)))
    ensures forall a: Assign {:trigger Eval(Not(d), a)} :: Eval(Not(d), a) == !Eval(d, a)
  {
    if d.Node? {
      NotMeans(d.lo);
      NotMeans(d.hi);
      MkFacts(d.level, Not(d.lo), Not(d.hi));
    }
  }

  /* ---- the two-place operators ---- */

  const AND: nat := 0
  const XOR: nat := 1
  const OR: nat := 2
  const NAND: nat := 3
  const NOR: nat := 4
  const IMP: nat := 5
  const BIIMP: nat := 6
  const DIFF: nat := 7
  const LESS: nat := 8
  const INVIMP: nat := 9

  /** Operator results: the entry at left << 1 | right. */
  const OPRRES: seq<seq<bool>> := [
    [false, false, false, true],  // and
    [false, true, true, false],   // xor
    [false, true, true, true],    // or
    [true, true, true, false],    // nand
    [true, false, false, false],  // nor
    [true, true, false, true],    // implication
    [true, false, false, true],   // bi-implication
    [false, false, true, false],  // difference
    [false, true, false, false],  // less than
    [true, false, true, true],    // inverse implication
    [true, true, false, false]    // not
  ]

  function Bit(b: bool): nat { if b then 1 else 0 }

  function OprRes(op: nat, x: bool, y: bool): bool
    requires op <= INVIMP
  {
    OPRRES[op][2 * Bit(x) + Bit(y)]
  }

  /** The table says what the names say. */
  lemma OprResMeans(x: bool, y: bool)
    ensures OprRes(AND, x, y) == (x && y)
    ensures OprRes(XOR, x, y) == (x != y)
    ensures OprRes(OR, x, y) == (x || y)
    ensures OprRes(NAND, x, y) == !(x && y)
    ensures OprRes(NOR, x, y) == !(x || y)
    ensures OprRes(IMP, x, y) == (x ==> y)
    ensures OprRes(BIIMP, x, y) == (x == y)
    ensures OprRes(DIFF, x, y) == (x && !y)
    ensures OprRes(LESS, x, y) == (!x && y)
    ensures OprRes(INVIMP, x, y) == (y ==> x)
  {
  }

  function Apply(op: nat, s: Dd, t: Dd): Dd
    requires op <= INVIMP
    decreases Size(s) + Size(t)
  {
    if s.Leaf? && t.Leaf? then Leaf(OprRes(op, s.value, t.value))
    else
      var l := Top2(s, t);
      Mk(l, Apply(op, Cofactor(s, l, false), Cofactor(t, l, false)), Apply(op, Cofactor(s, l, true), Cofactor(t, l, true)))
  }

  lemma {:induction false} ApplyMeans(op: nat, s: Dd, t: Dd)
    requires op <= INVIMP && Robdd(s) && Robdd(t)
    ensures Robdd(Apply(op, s, t))
    ensures forall m: nat {:trigger Under(m, Apply(op, s, t))} :: Under(m, s) && Under(m, t) ==> Under(m, Apply(op, s, t))
    ensures forall a: Assign {:trigger Eval(Apply(op, s, t), a)} :: Eval(Apply(op, s, t), a) == OprRes(op, Eval(s, a), Eval(t, a))
    decreases Size(s) + Size(t)
  {
    if s.Node? || t.Node? {
      var l := Top2(s, t);
      forall v: bool
        ensures var r := Apply(op, Cofactor(s, l, v), Cofactor(t, l, v));
                Robdd(r) && Under(l, r)
        ensures forall a: Assign :: Eval(Apply(op, Cofactor(s, l, v), Cofactor(t, l, v)), a)
                                      == OprRes(op, Eval(Cofactor(s, l, v), a), Eval(Cofactor(t, l, v), a))
      {
        CofactorFacts(s, l, v);
        CofactorFacts(t, l, v);
        ApplyMeans(op, Cofactor(s, l, v), Cofactor(t, l, v));
      }
      MkFacts(l, Apply(op, Cofactor(s, l, false), Cofactor(t, l, false)), Apply(op, Cofactor(s, l, true), Cofactor(t, l, true)));
      hide OprRes;
      forall a: Assign ensures Eval(Apply(op, s, t), a) == OprRes(op, Eval(s, a), Eval(t, a)) {
        CofactorEval(s, l, a);
        CofactorEval(t, l, a);
      }
    }
  }

  /* The shortcuts of apply_rec. */

  lemma ApplyIs(op: nat, s: Dd, t: Dd, r: Dd)
    requires op <= INVIMP && Robdd(s) && Robdd(t) && Robdd(r)
    requires forall a: Assign {:trigger Eval(r, a)} :: Eval(r, a) == OprRes(op, Eval(s, a), Eval(t, a))
    ensures Apply(op, s, t) == r
  {
    ApplyMeans(op, s, t);
    hide OprRes;
    Same(Apply(op, s, t), r);
  }

  lemma ApplySame(s: Dd)
    requires Robdd(s)
    ensures Apply(AND, s, s) == s && Apply(OR, s, s) == s && Apply(XOR, s, s) == Leaf(false)
  {
    ApplyIs(AND, s, s, s);
    ApplyIs(OR, s, s, s);
    ApplyIs(XOR, s, s, Leaf(false));
  }

  lemma {:induction false} ApplyZero(s: Dd)
    requires Robdd(s)
    ensures Apply(AND, Leaf(false), s) == Leaf(false) == Apply(AND, s, Leaf(false))
    ensures Apply(OR, Leaf(false), s) == s == Apply(OR, s, Leaf(false))
    ensures Apply(XOR, Leaf(false), s) == s == Apply(XOR, s, Leaf(false))
    ensures Apply(NAND, Leaf(false), s) == Leaf(true) == Apply(NAND, s, Leaf(false))
    ensures Apply(IMP, Leaf(false), s) == Leaf(true)
  {
    hide Apply;
    ApplyIs(AND, Leaf(false), s, Leaf(false));
    ApplyIs(AND, s, Leaf(false), Leaf(false));
    ApplyIs(OR, Leaf(false), s, s);
    ApplyIs(OR, s, Leaf(false), s);
    ApplyIs(XOR, Leaf(false), s, s);
    ApplyIs(XOR, s, Leaf(false), s);
    ApplyIs(NAND, Leaf(false), s, Leaf(true));
    ApplyIs(NAND, s, Leaf(false), Leaf(true));
    ApplyIs(IMP, Leaf(false), s, Leaf(true));
  }

  lemma {:induction false} ApplyOne(s: Dd)
    requires Robdd(s)
    ensures Apply(AND, Leaf(true), s) == s == Apply(AND, s, Leaf(true))
    ensures Apply(OR, Leaf(true), s) == Leaf(true) == Apply(OR, s, Leaf(true))
    ensures Apply(NOR, Leaf(true), s) == Leaf(false) == Apply(NOR, s, Leaf(true))
    ensures Apply(IMP, Leaf(true), s) == s && Apply(IMP, s, Leaf(true)) == Leaf(true)
  {
    hide Apply;
    ApplyIs(AND, Leaf(true), s, s);
    ApplyIs(AND, s, Leaf(true), s);
    ApplyIs(OR, Leaf(true), s, Leaf(true));
    ApplyIs(OR, s, Leaf(true), Leaf(true));
    ApplyIs(NOR, Leaf(true), s, Leaf(false));
    ApplyIs(NOR, s, Leaf(true), Leaf(false));
    ApplyIs(IMP, Leaf(true), s, s);
    ApplyIs(IMP, s, Leaf(true), Leaf(true));
  }

  /* ---- if-then-else ---- */

  function Ite(f: Dd, g: Dd, h: Dd): Dd
    decreases Size(f) + Size(g) + Size(h)
  {
    if f.Leaf? && g.Leaf? && h.Leaf? then if f.value then g else h
    else
      var l := Top3(f, g, h);
      Mk(l, Ite(Cofactor(f, l, false), Cofactor(g, l, false), Cofactor(h, l, false)),
         Ite(Cofactor(f, l, true), Cofactor(g, l, true), Cofactor(h, l, true)))
  }

  lemma {:induction false} IteMeans(f: Dd, g: Dd, h: Dd)
    requires Robdd(f) && Robdd(g) && Robdd(h)
    ensures Robdd(Ite(f, g, h))
    ensures forall m: nat {:trigger Under(m, Ite(f, g, h))} :: Under(m, f) && Under(m, g) && Under(m, h) ==> Under(m, Ite(f, g, h))
    ensures forall a: Assign {:trigger Eval(Ite(f, g, h), a)} ::
              Eval(Ite(f, g, h), a) == if Eval(f, a) then Eval(g, a) else Eval(h, a)
    decreases Size(f) + Size(g) + Size(h)
  {
    if f.Node? || g.Node? || h.Node? {
      var l := Top3(f, g, h);
      var r0 := IteBranch(f, g, h, l, false);
      var r1 := IteBranch(f, g, h, l, true);
      MkFacts(l, r0, r1);
      assert Ite(f, g, h) == Mk(l, r0, r1);
      hide Ite, Mk, Cofactor, Top3;
      forall a: Assign ensures Eval(Mk(l, r0, r1), a) == if Eval(f, a) then Eval(g, a) else Eval(h, a) {
        CofactorEval(f, l, a);
        CofactorEval(g, l, a);
        CofactorEval(h, l, a);
      }
    }
  }

  lemma {:induction false} IteBranch(f: Dd, g: Dd, h: Dd, l: nat, v: bool) returns (r: Dd)
    requires Robdd(f) && Robdd(g) && Robdd(h) && (f.Node? || g.Node? || h.Node?) && l == Top3(f, g, h)
    ensures r == Ite(Cofactor(f, l, v), Cofactor(g, l, v), Cofactor(h, l, v)) && Robdd(r) && Under(l, r)
    ensures forall a: Assign {:trigger Eval(r, a)} ::
              Eval(r, a) == if Eval(Cofactor(f, l, v), a) then Eval(Cofactor(g, l, v), a) else Eval(Cofactor(h, l, v), a)
    decreases Size(f) + Size(g) + Size(h), 0
  {
    CofactorFacts(f, l, v);
    CofactorFacts(g, l, v);
    CofactorFacts(h, l, v);
    hide Cofactor;
    r := Ite(Cofactor(f, l, v), Cofactor(g, l, v), Cofactor(h, l, v));
    IteMeans(Cofactor(f, l, v), Cofactor(g, l, v), Cofactor(h, l, v));
  }

  lemma IteIs(f: Dd, g: Dd, h: Dd, r: Dd)
    requires Robdd(f) && Robdd(g) && Robdd(h) && Robdd(r)
    requires forall a: Assign {:trigger Eval(r, a)} :: Eval(r, a) == if Eval(f, a) then Eval(g, a) else Eval(h, a)
    ensures Ite(f, g, h) == r
  {
    IteMeans(f, g, h);
    Same(Ite(f, g, h), r);
  }

  lemma IteShortcuts(f: Dd, g: Dd, h: Dd)
    requires Robdd(f) && Robdd(g) && Robdd(h)
    ensures Ite(Leaf(true), g, h) == g && Ite(Leaf(false), g, h) == h && Ite(f, g, g) == g
    ensures Ite(f, Leaf(true), Leaf(false)) == f && Ite(f, Leaf(false), Leaf(true)) == Not(f)
  {
    IteIs(Leaf(true), g, h, g);
    IteIs(Leaf(false), g, h, h);
    IteIs(f, g, g, g);
    IteIs(f, Leaf(true), Leaf(false), f);
    NotMeans(f);
    IteIs(f, Leaf(false), Leaf(true), Not(f));
  }
}
