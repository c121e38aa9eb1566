/**
  Restriction, quantification, substitution and the generalized cofactors on
  decision trees.
*/
module DdSubst {
  import opened Dd
  import opened DdOps

  /* ---- restriction: levels fixed to constants ---- */

  type Fix = map<nat, bool>

  function Overlay(a: Assign, fix: Fix): Assign {
    (x: nat) => if x in fix then fix[x] else a(x)
  }

  function Restrict(d: Dd, fix: Fix): Dd {
    match d
    case Leaf(_) => d
    case Node(l, lo, hi) =>
      if l in fix then Restrict(if fix[l] then hi else lo, fix) else Mk(l, Restrict(lo, fix), Restrict(hi, fix))
  }

  lemma {:induction false} RestrictMeans(d: Dd, fix: Fix)
    requires Robdd(d)
    ensures Robdd(Restrict(d, fix))
    ensures forall m: nat {:trigger Under(m, Restrict(d, fix))} :: Under(m, d) ==> Under(m, Restrict(d, fix))
    ensures forall a: Assign {:trigger Eval(Restrict(d, fix), a)} :: Eval(Restrict(d, fix), a) == Eval(d, Overlay(a, fix))
    ensures Support(Restrict(d, fix)) <= Support(d) - fix.Keys
  {
    if d.Node? {
      RestrictMeans(d.lo, fix);
      RestrictMeans(d.hi, fix);
      if d.level !in fix {
        MkFacts(d.level, Restrict(d.lo, fix), Restrict(d.hi, fix));
      }
    }
  }

  /** Nothing happens below the last level of the set. */
  lemma {:induction false} RestrictNothing(d: Dd, fix: Fix)
    requires Robdd(d) && forall x {:trigger x in fix} :: x in fix && d.Node? ==> x < d.level
    ensures Restrict(d, fix) == d
  {
    if d.Node? {
      RestrictNothing(d.lo, fix);
      RestrictNothing(d.hi, fix);
    }
  }

  /* ---- quantification ---- */

  function Quant(op: nat, d: Dd, vars: set<nat>): Dd
    requires op <= INVIMP
  {
    match d
    case Leaf(_) => d
    case Node(l, lo, hi) =>
      if l in vars then Apply(op, Quant(op, lo, vars), Quant(op, hi, vars)) else Mk(l, Quant(op, lo, vars), Quant(op, hi, vars))
  }

  lemma {:induction false} QuantGood(op: nat, d: Dd, vars: set<nat>)
    requires op <= INVIMP && Robdd(d)
    ensures Robdd(Quant(op, d, vars))
    ensures forall m: nat {:trigger Under(m, Quant(op, d, vars))} :: Under(m, d) ==> Under(m, Quant(op, d, vars))
  {
    if d.Node? {
      QuantGood(op, d.lo, vars);
      QuantGood(op, d.hi, vars);
      MkFacts(d.level, Quant(op, d.lo, vars), Quant(op, d.hi, vars));
      ApplyMeans(op, Quant(op, d.lo, vars), Quant(op, d.hi, vars));
    }
  }

  lemma {:induction false} QuantNothing(op: nat, d: Dd, vars: set<nat>)
    requires op <= INVIMP && Robdd(d) && forall x {:trigger x in vars} :: x in vars && d.Node? ==> x < d.level
    ensures Quant(op, d, vars) == d
  {
    if d.Node? {
      QuantNothing(op, d.lo, vars);
      QuantNothing(op, d.hi, vars);
    }
  }

  /** b differs from a only inside vars. */
  ghost predicate Agree(a: Assign, b: Assign, vars: set<nat>) {
    forall x: nat {:trigger b(x)} :: x !in vars ==> b(x) == a(x)
  }

  /** If the quantified function holds, some choice for vars makes d hold. */
  lemma {:induction false} ExistWitness(d: Dd, vars: set<nat>, a: Assign) returns (b: Assign)
    requires Robdd(d) && Eval(Quant(OR, d, vars), a)
    ensures Agree(a, b, vars) && Eval(d, b)
  {
    if d.Leaf? {
      b := a;
    } else {
      QuantGood(OR, d.lo, vars);
      QuantGood(OR, d.hi, vars);
      ApplyMeans(OR, Quant(OR, d.lo, vars), Quant(OR, d.hi, vars));
      MkFacts(d.level, Quant(OR, d.lo, vars), Quant(OR, d.hi, vars));
      OprResMeans(Eval(Quant(OR, d.lo, vars), a), Eval(Quant(OR, d.hi, vars), a));
      hide OprRes;
      var v := if d.level in vars then Eval(Quant(OR, d.hi, vars), a) else a(d.level);
      var c := ExistWitness(if v then d.hi else d.lo, vars, a);
      b := Update(c, d.level, v);
      EvalUpdateAbove(if v then d.hi else d.lo, c, d.level, v);
    }
  }

  /** If some choice for vars makes d hold, so does the quantified function. */
  lemma {:induction false} ExistHolds(d: Dd, vars: set<nat>, a: Assign, b: Assign)
    requires Robdd(d) && Agree(a, b, vars) && Eval(d, b)
    ensures Eval(Quant(OR, d, vars), a)
  {
    if d.Node? {
      QuantGood(OR, d.lo, vars);
      QuantGood(OR, d.hi, vars);
      ApplyMeans(OR, Quant(OR, d.lo, vars), Quant(OR, d.hi, vars));
      MkFacts(d.level, Quant(OR, d.lo, vars), Quant(OR, d.hi, vars));
      OprResMeans(Eval(Quant(OR, d.lo, vars), a), Eval(Quant(OR, d.hi, vars), a));
      hide OprRes;
      assert b(d.level) == b(d.level);
      ExistHolds(if b(d.level) then d.hi else d.lo, vars, a, b);
    }
  }

  /** Existential quantification means that some choice for the quantified levels makes d hold. */
  lemma ExistMeans(d: Dd, vars: set<nat>, a: Assign)
    requires Robdd(d)
    ensures Eval(Quant(OR, d, vars), a) <==> exists b: Assign {:trigger Agree(a, b, vars)} :: Agree(a, b, vars) && Eval(d, b)
  {
    if Eval(Quant(OR, d, vars), a) {
      var b := ExistWitness(d, vars, a);
    }
    if b: Assign :| Agree(a, b, vars) && Eval(d, b) {
      ExistHolds(d, vars, a, b);
    }
  }

  /** Quantifiers are dual: forall is not-exists-not. */
  lemma {:induction false} ForallDual(d: Dd, vars: set<nat>)
    requires Robdd(d)
    ensures Quant(AND, d, vars) == Not(Quant(OR, Not(d), vars))
  {
    NotMeans(d);
    if d.Node? {
      var lo, hi := Not(d.lo), Not(d.hi);
      NotMeans(d.lo);
      NotMeans(d.hi);
      ForallDual(d.lo, vars);
      ForallDual(d.hi, vars);
      NotDifferent(d.lo, d.hi);
      assert Not(d) == Node(d.level, lo, hi);
      QuantGood(OR, lo, vars);
      QuantGood(OR, hi, vars);
      if d.level in vars {
        DeMorgan(Quant(OR, lo, vars), Quant(OR, hi, vars));
      } else {
        NotMk(d.level, Quant(OR, lo, vars), Quant(OR, hi, vars));
      }
    }
  }

  lemma NotDifferent(s: Dd, t: Dd)
    requires Robdd(s) && Robdd(t) && s != t
    ensures Not(s) != Not(t)
  {
    NotMeans(s);
    NotMeans(t);
    var a := Distinguish(s, t);
    assert Eval(Not(s), a) != Eval(Not(t), a);
  }

  lemma NotMk(l: nat, s: Dd, t: Dd)
    requires Robdd(s) && Robdd(t) && Under(l, s) && Under(l, t)
    ensures Not(Mk(l, s, t)) == Mk(l, Not(s), Not(t))
  {
    NotMeans(s);
    NotMeans(t);
    MkFacts(l, s, t);
    NotMeans(Mk(l, s, t));
    MkFacts(l, Not(s), Not(t));
    Same(Not(Mk(l, s, t)), Mk(l, Not(s), Not(t)));
  }

  lemma DeMorgan(s: Dd, t: Dd)
    requires Robdd(s) && Robdd(t)
    ensures Apply(AND, Not(s), Not(t)) == Not(Apply(OR, s, t))
  {
    NotMeans(s);
    NotMeans(t);
    ApplyMeans(OR, s, t);
    NotMeans(Apply(OR, s, t));
    ApplyMeans(AND, Not(s), Not(t));
    hide OprRes, Apply, Not;
    forall a: Assign ensures Eval(Apply(AND, Not(s), Not(t)), a) == Eval(Not(Apply(OR, s, t)), a) {
      OprResMeans(Eval(s, a), Eval(t, a));
      OprResMeans(!Eval(s, a), !Eval(t, a));
    }
    Same(Apply(AND, Not(s), Not(t)), Not(Apply(OR, s, t)));
  }

  /** Universal quantification means that every choice for the quantified levels makes d hold. */
  lemma ForallMeans(d: Dd, vars: set<nat>, a: Assign)
    requires Robdd(d)
    ensures Eval(Quant(AND, d, vars), a) <==> forall b: Assign {:trigger Agree(a, b, vars)} :: Agree(a, b, vars) ==> Eval(d, b)
  {
    ForallDual(d, vars);
    NotMeans(d);
    QuantGood(OR, Not(d), vars);
    NotMeans(Quant(OR, Not(d), vars));
    ExistMeans(Not(d), vars, a);
  }

  /** What one level of appquant_rec does equals what quantifying the applied tree does. */
  lemma FusedStep(q: nat, op: nat, l: nat, s0: Dd, s1: Dd, vars: set<nat>)
    requires (q == OR || q == AND) && Robdd(s0) && Robdd(s1) && Under(l, s0) && Under(l, s1)
    ensures Quant(q, Mk(l, s0, s1), vars)
            == if l in vars then Apply(q, Quant(q, s0, vars), Quant(q, s1, vars)) else Mk(l, Quant(q, s0, vars), Quant(q, s1, vars))
  {
    if s0 == s1 {
      QuantGood(q, s0, vars);
      ApplySame(Quant(q, s0, vars));
    }
  }

  /* ---- composition ---- */

  function Compose(f: Dd, g: Dd, x: nat): Dd
    decreases Size(f) + Size(g)
  {
    if f.Leaf? || f.level > x then f
    else if f.level == x then Ite(g, f.hi, f.lo)
    else
      var l := Top2(f, g);
      Mk(l, Compose(Cofactor(f, l, false), Cofactor(g, l, false), x), Compose(Cofactor(f, l, true), Cofactor(g, l, true), x))
  }

  lemma {:induction false} ComposeMeans(f: Dd, g: Dd, x: nat)
    requires Robdd(f) && Robdd(g)
    ensures Robdd(Compose(f, g, x))
    ensures forall m: nat {:trigger Under(m, Compose(f, g, x))} :: Under(m, f) && Under(m, g) ==> Under(m, Compose(f, g, x))
    ensures forall a: Assign {:trigger Eval(Compose(f, g, x), a)} :: Eval(Compose(f, g, x), a) == Eval(f, Update(a, x, Eval(g, a)))
    decreases Size(f) + Size(g)
  {
    if f.Leaf? || f.level > x {
      forall a: Assign ensures Eval(f, a) == Eval(f, Update(a, x, Eval(g, a))) {
        EvalUpdateAbove(f, a, x, Eval(g, a));
      }
    } else if f.level == x {
      IteMeans(g, f.hi, f.lo);
      forall a: Assign ensures Eval(Ite(g, f.hi, f.lo), a) == Eval(f, Update(a, x, Eval(g, a))) {
        EvalUpdateAbove(f.lo, a, x, Eval(g, a));
        EvalUpdateAbove(f.hi, a, x, Eval(g, a));
      }
    } else {
      var l := Top2(f, g);
      var r0 := ComposeBranch(f, g, x, l, false);
      var r1 := ComposeBranch(f, g, x, l, true);
      assert Compose(f, g, x) == Mk(l, r0, r1);
      MkFacts(l, r0, r1);
      hide Mk, Compose;
      forall a: Assign ensures Eval(Mk(l, r0, r1), a) == Eval(f, Update(a, x, Eval(g, a))) {
        CofactorEval(g, l, a);
        CofactorEval(f, l, Update(a, x, Eval(g, a)));
      }
    }
  }

  lemma {:induction false} ComposeBranch(f: Dd, g: Dd, x: nat, l: nat, v: bool) returns (r: Dd)
    requires Robdd(f) && Robdd(g) && f.Node? && f.level < x && l == Top2(f, g)
    ensures r == Compose(Cofactor(f, l, v), Cofactor(g, l, v), x) && Robdd(r) && Under(l, r)
    ensures forall a: Assign {:trigger Eval(r, a)} :: Eval(r, a) == Eval(Cofactor(f, l, v), Update(a, x, Eval(Cofactor(g, l, v), a)))
    decreases Size(f) + Size(g), 0
  {
    CofactorFacts(f, l, v);
    CofactorFacts(g, l, v);
    hide Cofactor;
    r := Compose(Cofactor(f, l, v), Cofactor(g, l, v), x);
    ComposeMeans(Cofactor(f, l, v), Cofactor(g, l, v), x);
  }

  /** A substitution gives every level a tree; beyond its end a level stands for itself. */
  type Subst = seq<Dd>

  function Var(l: nat): Dd { Node(l, Leaf(false), Leaf(true)) }

  function Sub(sub: Subst, l: nat): Dd {
    if l < |sub| then sub[l] else Var(l)
  }

  ghost predicate GoodSubst(sub: Subst) {
    forall l {:trigger sub[l]} :: 0 <= l < |sub| ==> Robdd(sub[l])
  }

  lemma SubGood(sub: Subst, l: nat)
    requires GoodSubst(sub)
    ensures Robdd(Sub(sub, l))
  {
  }

  function Through(sub: Subst, a: Assign): Assign {
    (x: nat) => Eval(Sub(sub, x), a)
  }

  /** All levels are replaced at once. */
  function VecCompose(d: Dd, sub: Subst): Dd {
    match d
    case Leaf(_) => d
    case Node(l, lo, hi) => Ite(Sub(sub, l), VecCompose(hi, sub), VecCompose(lo, sub))
  }

  lemma {:induction false} VecComposeMeans(d: Dd, sub: Subst)
    requires GoodSubst(sub)
    ensures Robdd(VecCompose(d, sub))
    ensures forall a: Assign {:trigger Eval(VecCompose(d, sub), a)} :: Eval(VecCompose(d, sub), a) == Eval(d, Through(sub, a))
  {
    if d.Node? {
      VecComposeMeans(d.lo, sub);
      VecComposeMeans(d.hi, sub);
      SubGood(sub, d.level);
      IteMeans(Sub(sub, d.level), VecCompose(d.hi, sub), VecCompose(d.lo, sub));
    }
  }

  /** Below the last changed level nothing happens. */
  lemma {:induction false} VecComposeNothing(d: Dd, sub: Subst, last: int)
    requires Robdd(d) && GoodSubst(sub) && (d.Node? ==> last < d.level)
    requires forall l: nat {:trigger Sub(sub, l)} :: last < l ==> Sub(sub, l) == Var(l)
    ensures VecCompose(d, sub) == d
  {
    if d.Node? {
      VecComposeNothing(d.lo, sub, last);
      VecComposeNothing(d.hi, sub, last);
      assert Sub(sub, d.level) == Var(d.level);
      IteIs(Var(d.level), d.hi, d.lo, d);
    }
  }
}
