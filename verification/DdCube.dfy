/**
  What the operand that lists variables stands for: for a product of variables
  the quantified levels are the tested ones, for a product of literals the
  fixed ones are, each to its sign.
*/
module DdCube {
  import opened Dd
  import opened DdOps
  import opened DdSubst
  import opened DdCofactor
  import opened OpCaches

  /** What no assignment satisfies is false. */
  lemma {:induction false} Unsatisfied(d: Dd)
    requires Robdd(d) && forall a: Assign {:trigger Eval(d, a)} :: !Eval(d, a)
    ensures d == Leaf(false)
  {
    if d != Leaf(false) {
      var a := Distinguish(d, Leaf(false));
    }
  }

  ghost predicate AllHold(vars: set<nat>, a: Assign) {
    forall l {:trigger l in vars} {:trigger a(l)} :: l in vars ==> a(l)
  }

  /** A product of variables: it holds where all variables it tests do. */
  ghost predicate IsProduct(c: Dd) {
    forall a: Assign {:trigger Eval(c, a)} :: Eval(c, a) <==> AllHold(Support(c), a)
  }

  /** A product of literals, if anything: what satisfies it agrees on the variables it tests. */
  ghost predicate IsCube(c: Dd) {
    forall a: Assign, b: Assign, l {:trigger Eval(c, a), Eval(c, b), l in Support(c)} :: Eval(c, a) && Eval(c, b) && l in Support(c) ==> a(l) == b(l)
  }

  /** The chain of high branches of a product has all its variables. */
  lemma {:induction false} ProductVars(c: Dd)
    requires Robdd(c) && IsProduct(c)
    ensures VarSet(c) == Support(c)
  {
    if c.Node? {
      SupportBelow(c.hi, c.level);
      forall a: Assign ensures !Eval(c.lo, a) {
        var b := Update(a, c.level, false);
        EvalUpdateAbove(c.lo, a, c.level, false);
        assert c.level in Support(c) && !b(c.level);
        assert !Eval(c, b);
      }
      Unsatisfied(c.lo);
      forall a: Assign ensures Eval(c.hi, a) <==> AllHold(Support(c.hi), a) {
        var b := Update(a, c.level, true);
        EvalUpdateAbove(c.hi, a, c.level, true);
        assert Eval(c, b) == Eval(c.hi, a);
        assert Support(c) == {c.level} + Support(c.hi);
        if AllHold(Support(c.hi), a) {
          assert AllHold(Support(c), b);
        } else {
          var l :| l in Support(c.hi) && !a(l);
          assert l in Support(c) && !b(l);
        }
      }
      ProductVars(c.hi);
    }
  }

  /** The chain that leaves out the false branches has all variables of a cube, with their signs. */
  lemma {:induction false} CubeSigns(c: Dd, b: Assign)
    requires Robdd(c) && IsCube(c) && Eval(c, b)
    ensures FixSet(c).Keys == Support(c)
    ensures forall l {:trigger FixSet(c)[l]} :: l in FixSet(c) ==> FixSet(c)[l] == b(l)
  {
    if c.Node? {
      var v := b(c.level);
      var kept, cut := if v then c.hi else c.lo, if v then c.lo else c.hi;
      forall a: Assign ensures !Eval(cut, a) {
        var a' := Update(a, c.level, !v);
        EvalUpdateAbove(cut, a, c.level, !v);
        assert Eval(c, a') == Eval(cut, a);
        assert c.level in Support(c) && a'(c.level) != b(c.level);
      }
      Unsatisfied(cut);
      SupportBelow(kept, c.level);
      forall a: Assign, a': Assign, l | Eval(kept, a) && Eval(kept, a') && l in Support(kept) ensures a(l) == a'(l) {
        var x, y := Update(a, c.level, v), Update(a', c.level, v);
        EvalUpdateAbove(kept, a, c.level, v);
        EvalUpdateAbove(kept, a', c.level, v);
        assert Eval(c, x) && Eval(c, y) && l in Support(c);
        assert x(l) == y(l);
      }
      CubeSigns(kept, b);
    }
  }

  /** Restriction by a cube: the operand, where the cube holds. */
  lemma {:induction false} CubeRestricted(d: Dd, c: Dd)
    requires Robdd(d) && Robdd(c)
    ensures IsCube(c) ==>
              forall a: Assign, b: Assign {:trigger Agree(a, b, Support(c))} ::
                Eval(c, b) && Agree(a, b, Support(c)) ==> Eval(Restrict(d, FixSet(c)), a) == Eval(d, b)
  {
    hide FixSet, Restrict;
    if IsCube(c) {
      forall a: Assign, b: Assign | Eval(c, b) && Agree(a, b, Support(c)) ensures Eval(Restrict(d, FixSet(c)), a) == Eval(d, b) {
        RestrictCube(d, c, a, b);
      }
    }
  }

  lemma {:induction false} RestrictCube(d: Dd, c: Dd, a: Assign, b: Assign)
    requires Robdd(d) && Robdd(c) && IsCube(c) && Eval(c, b) && Agree(a, b, Support(c))
    ensures Eval(Restrict(d, FixSet(c)), a) == Eval(d, b)
  {
    hide FixSet, Support, Eval, Restrict;
    CubeSigns(c, b);
    RestrictMeans(d, FixSet(c));
    var o := Overlay(a, FixSet(c));
    forall l | l in Support(d) ensures o(l) == b(l) {}
    EvalAgree(d, o, b);
  }

  /** Some choice for the variables makes d hold; every choice does. */
  ghost predicate SomeChoice(vars: set<nat>, d: Dd, a: Assign) {
    exists b: Assign {:trigger Agree(a, b, vars)} :: Agree(a, b, vars) && Eval(d, b)
  }

  ghost predicate EveryChoice(vars: set<nat>, d: Dd, a: Assign) {
    forall b: Assign {:trigger Agree(a, b, vars)} :: Agree(a, b, vars) ==> Eval(d, b)
  }

  /** ... makes the operator hold of s and t. */
  ghost predicate SomeApplied(vars: set<nat>, op: nat, s: Dd, t: Dd, a: Assign)
    requires op <= INVIMP
  {
    exists b: Assign {:trigger Agree(a, b, vars)} :: Agree(a, b, vars) && OprRes(op, Eval(s, b), Eval(t, b))
  }

  ghost predicate EveryApplied(vars: set<nat>, op: nat, s: Dd, t: Dd, a: Assign)
    requires op <= INVIMP
  {
    forall b: Assign {:trigger Agree(a, b, vars)} :: Agree(a, b, vars) ==> OprRes(op, Eval(s, b), Eval(t, b))
  }

  /** Quantification over a product is quantification over its variables. */
  lemma {:induction false} ProductQuantified(d: Dd, c: Dd)
    requires Robdd(d) && Robdd(c)
    ensures IsProduct(c) ==>
              forall a: Assign {:trigger Eval(Quant(OR, d, VarSet(c)), a)} :: Eval(Quant(OR, d, VarSet(c)), a) <==> SomeChoice(Support(c), d, a)
    ensures IsProduct(c) ==>
              forall a: Assign {:trigger Eval(Quant(AND, d, VarSet(c)), a)} :: Eval(Quant(AND, d, VarSet(c)), a) <==> EveryChoice(Support(c), d, a)
  {
    hide VarSet, Quant, Agree;
    if IsProduct(c) {
      ProductVars(c);
      var vars := Support(c);
      forall a: Assign
        ensures Eval(Quant(OR, d, vars), a) <==> SomeChoice(vars, d, a)
        ensures Eval(Quant(AND, d, vars), a) <==> EveryChoice(vars, d, a)
      {
        ExistMeans(d, vars, a);
        ForallMeans(d, vars, a);
      }
    }
  }

  lemma {:induction false} ProductApplied(op: nat, s: Dd, t: Dd, c: Dd)
    requires op <= INVIMP && Robdd(s) && Robdd(t) && Robdd(c)
    ensures IsProduct(c) ==>
              forall a: Assign {:trigger Eval(Quant(OR, Apply(op, s, t), VarSet(c)), a)} ::
                Eval(Quant(OR, Apply(op, s, t), VarSet(c)), a) <==> SomeApplied(Support(c), op, s, t, a)
    ensures IsProduct(c) ==>
              forall a: Assign {:trigger Eval(Quant(AND, Apply(op, s, t), VarSet(c)), a)} ::
                Eval(Quant(AND, Apply(op, s, t), VarSet(c)), a) <==> EveryApplied(Support(c), op, s, t, a)
  {
    hide VarSet, Quant, IsProduct, Agree, Apply, OprRes, SomeChoice, EveryChoice, SomeApplied, EveryApplied;
    ApplyMeans(op, s, t);
    ProductQuantified(Apply(op, s, t), c);
    forall a: Assign
      ensures SomeChoice(Support(c), Apply(op, s, t), a) <==> SomeApplied(Support(c), op, s, t, a)
      ensures EveryChoice(Support(c), Apply(op, s, t), a) <==> EveryApplied(Support(c), op, s, t, a)
    {
      AppliedChoices(Support(c), op, s, t, a);
    }
  }

  lemma AppliedChoices(vars: set<nat>, op: nat, s: Dd, t: Dd, a: Assign)
    requires op <= INVIMP && Robdd(s) && Robdd(t)
    ensures SomeChoice(vars, Apply(op, s, t), a) <==> SomeApplied(vars, op, s, t, a)
    ensures EveryChoice(vars, Apply(op, s, t), a) <==> EveryApplied(vars, op, s, t, a)
  {
    hide Agree, Apply, OprRes;
    ApplyMeans(op, s, t);
  }

  /* ---- what products are ---- */

  lemma VariableIsProduct(l: nat)
    ensures IsProduct(Var(l)) && Support(Var(l)) == {l}
  {
    var d := Var(l);
    forall a: Assign ensures Eval(d, a) <==> AllHold(Support(d), a) {
      assert Support(d) == {l};
    }
  }

  /** A variable that is not tested does not matter to a product. */
  lemma {:induction false} ProductTests(d: Dd, vars: set<nat>)
    requires Robdd(d) && Support(d) <= vars && forall a: Assign {:trigger Eval(d, a)} :: Eval(d, a) <==> AllHold(vars, a)
    ensures Support(d) == vars && IsProduct(d)
  {
    forall l | l in vars ensures l in Support(d) {
      var all: Assign := (x: nat) => true;
      var off := Update(all, l, false);
      assert AllHold(vars, all) && !AllHold(vars, off) by { assert !off(l); }
      if l !in Support(d) {
        EvalAgree(d, all, off);
      }
    }
  }

  /** The conjunction of two products is the product of all their variables. */
  lemma {:induction false} AndIsProduct(c: Dd, d: Dd)
    requires Robdd(c) && Robdd(d) && IsProduct(c) && IsProduct(d)
    ensures IsProduct(Apply(AND, c, d)) && Support(Apply(AND, c, d)) == Support(c) + Support(d)
  {
    hide Apply, OprRes;
    ApplyMeans(AND, c, d);
    ApplySupport(AND, c, d);
    var e, vars := Apply(AND, c, d), Support(c) + Support(d);
    forall a: Assign ensures Eval(e, a) <==> AllHold(vars, a) {
      OprResMeans(Eval(c, a), Eval(d, a));
      assert AllHold(vars, a) <==> AllHold(Support(c), a) && AllHold(Support(d), a);
    }
    ProductTests(e, vars);
  }
}
