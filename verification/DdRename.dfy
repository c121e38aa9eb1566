/** Renaming levels by one substitution of variables, as bdd_replace and bdd_correctify do it. */
module DdRename {
  import opened Dd
  import opened DdOps
  import opened DdSubst

  /** A renaming gives every level below its length a new level. */
  type Renaming = seq<nat>

  function New(ren: Renaming, l: nat): nat { if l < |ren| then ren[l] else l }

  function AsSubst(ren: Renaming): (s: Subst)
    ensures |s| == |ren| && forall l {:trigger s[l]} :: 0 <= l < |s| ==> s[l] == Var(ren[l])
  {
    seq(|ren|, i requires 0 <= i < |ren| => Var(ren[i]))
  }

  lemma AsSubstGood(ren: Renaming, l: nat)
    ensures GoodSubst(AsSubst(ren)) && Sub(AsSubst(ren), l) == Var(New(ren, l))
  {
  }

  /** The renamed tree: every level tests its new one. */
  function Rename(d: Dd, ren: Renaming): Dd { VecCompose(d, AsSubst(ren)) }

  lemma RenameMeans(d: Dd, ren: Renaming, a: Assign)
    ensures Eval(Rename(d, ren), a) == Eval(d, (x: nat) => a(New(ren, x)))
    ensures Robdd(Rename(d, ren))
  {
    AsSubstGood(ren, 0);
    VecComposeMeans(d, AsSubst(ren));
    var b := (x: nat) => a(New(ren, x));
    forall x | x in Support(d) ensures Through(AsSubst(ren), a)(x) == b(x) {
      AsSubstGood(ren, x);
      assert Eval(Var(New(ren, x)), a) == a(New(ren, x));
    }
    EvalAgree(d, Through(AsSubst(ren), a), b);
  }

  /** bdd_correctify: insert a test of level l above lo and hi, wherever in the order it belongs. */
  function Correct(l: nat, lo: Dd, hi: Dd): Dd { Ite(Var(l), hi, lo) }

  lemma RenameNode(d: Dd, ren: Renaming)
    requires d.Node?
    ensures Rename(d, ren) == Correct(New(ren, d.level), Rename(d.lo, ren), Rename(d.hi, ren))
  {
    AsSubstGood(ren, d.level);
  }

  lemma CorrectTop(l: nat, lo: Dd, hi: Dd)
    requires Robdd(lo) && Robdd(hi) && Under(l, lo) && Under(l, hi)
    ensures Correct(l, lo, hi) == Mk(l, lo, hi)
  {
    IteShortcuts(Leaf(true), hi, lo);
    assert Cofactor(lo, l, false) == lo && Cofactor(hi, l, true) == hi;
    assert Cofactor(hi, l, false) == hi && Cofactor(lo, l, true) == lo;
  }

  lemma CorrectDown(l: nat, lo: Dd, hi: Dd, m: nat)
    requires (lo.Node? || hi.Node?) && m == Top2(lo, hi) && m < l
    ensures Correct(l, lo, hi)
            == Mk(m, Correct(l, Cofactor(lo, m, false), Cofactor(hi, m, false)), Correct(l, Cofactor(lo, m, true), Cofactor(hi, m, true)))
  {
    assert Top3(Var(l), hi, lo) == m;
    assert Cofactor(Var(l), m, false) == Var(l) && Cofactor(Var(l), m, true) == Var(l);
  }

  lemma {:induction false} IteSupport(f: Dd, g: Dd, h: Dd)
    requires Robdd(f) && Robdd(g) && Robdd(h)
    ensures Support(Ite(f, g, h)) <= Support(f) + Support(g) + Support(h)
    decreases Size(f) + Size(g) + Size(h)
  {
    if f.Node? || g.Node? || h.Node? {
      var l := Top3(f, g, h);
      var r0 := IteHalf(f, g, h, l, false);
      var r1 := IteHalf(f, g, h, l, true);
      assert Ite(f, g, h) == Mk(l, r0, r1);
      hide Ite, Cofactor, Top3;
    }
  }

  lemma {:induction false} IteHalf(f: Dd, g: Dd, h: Dd, l: nat, v: bool) returns (r: Dd)
    requires Robdd(f) && Robdd(g) && Robdd(h) && (f.Node? || g.Node? || h.Node?) && l == Top3(f, g, h)
    ensures r == Ite(Cofactor(f, l, v), Cofactor(g, l, v), Cofactor(h, l, v))
    ensures Support(r) <= Support(f) + Support(g) + Support(h)
    decreases Size(f) + Size(g) + Size(h), 0
  {
    CofactorFacts(f, l, v);
    CofactorFacts(g, l, v);
    CofactorFacts(h, l, v);
    hide Cofactor;
    r := Ite(Cofactor(f, l, v), Cofactor(g, l, v), Cofactor(h, l, v));
    IteSupport(Cofactor(f, l, v), Cofactor(g, l, v), Cofactor(h, l, v));
  }

  /** Renaming produces no level but the new ones. */
  lemma {:induction false} RenameSupport(d: Dd, ren: Renaming, y: nat)
    requires y in Support(Rename(d, ren))
    ensures exists x {:trigger x in Support(d)} :: x in Support(d) && New(ren, x) == y
  {
    if d.Node? {
      RenameNode(d, ren);
      RenameMeans(d.lo, ren, (x: nat) => false);
      RenameMeans(d.hi, ren, (x: nat) => false);
      IteSupport(Var(New(ren, d.level)), Rename(d.hi, ren), Rename(d.lo, ren));
      hide Rename;
      if y == New(ren, d.level) {
        assert d.level in Support(d);
      } else if y in Support(Rename(d.lo, ren)) {
        RenameSupport(d.lo, ren, y);
        var x :| x in Support(d.lo) && New(ren, x) == y;
        assert x in Support(d);
      } else {
        RenameSupport(d.hi, ren, y);
        var x :| x in Support(d.hi) && New(ren, x) == y;
        assert x in Support(d);
      }
    }
  }

  /**
    No node's new level is tested below it after renaming: exactly then
    bdd_replace reports no error when it has to compute the result. (An answer
    from the cache comes without an error in any case.)
  */
  ghost predicate Renamable(d: Dd, ren: Renaming) {
    d.Node? ==>
      && Renamable(d.lo, ren) && Renamable(d.hi, ren)
      && New(ren, d.level) !in Support(Rename(d.lo, ren)) + Support(Rename(d.hi, ren))
  }

  /** No two levels of the tree get the same new level. */
  ghost predicate Injective(levels: set<nat>, ren: Renaming) {
    forall x, y {:trigger New(ren, x), New(ren, y)} :: x in levels && y in levels && New(ren, x) == New(ren, y) ==> x == y
  }

  lemma {:induction false} InjectiveRenamable(d: Dd, ren: Renaming)
    requires Robdd(d) && Injective(Support(d), ren)
    ensures Renamable(d, ren)
  {
    if d.Node? {
      InjectiveRenamable(d.lo, ren);
      InjectiveRenamable(d.hi, ren);
      SupportBelow(d.lo, d.level);
      SupportBelow(d.hi, d.level);
      hide Rename;
      forall e | e == d.lo || e == d.hi ensures New(ren, d.level) !in Support(Rename(e, ren)) {
        assert d.level in Support(d);
        if New(ren, d.level) in Support(Rename(e, ren)) {
          RenameSupport(e, ren, New(ren, d.level));
        }
      }
    }
  }

  const TWO_TESTS: Dd := Node(0, Leaf(false), Node(1, Leaf(false), Leaf(true)))

  /** Two levels renamed to one clash. */
  lemma CollisionNotRenamable(ren: Renaming)
    requires New(ren, 0) == New(ren, 1)
    ensures !Renamable(TWO_TESTS, ren)
  {
    var d, l := Node(1, Leaf(false), Leaf(true)), New(ren, 1);
    RenameNode(d, ren);
    CorrectTop(l, Leaf(false), Leaf(true));
    assert Rename(d, ren) == Node(l, Leaf(false), Leaf(true));
    assert l in Support(Rename(d, ren));
  }

  /** Levels that keep their place do not clash. */
  lemma {:induction false} PlainRenamable(d: Dd, ren: Renaming, last: int)
    requires Robdd(d) && (d.Node? ==> last < d.level) && forall l: nat {:trigger New(ren, l)} :: last < l ==> New(ren, l) == l
    ensures Renamable(d, ren)
  {
    forall x, y | x in Support(d) && y in Support(d) && New(ren, x) == New(ren, y) ensures x == y {
      SupportFrom(d, last, x);
      SupportFrom(d, last, y);
    }
    InjectiveRenamable(d, ren);
  }

  lemma {:induction false} SupportFrom(d: Dd, last: int, x: nat)
    requires Robdd(d) && (d.Node? ==> last < d.level) && x in Support(d)
    ensures last < x
  {
    if d.Node? && x != d.level {
      SupportFrom(if x in Support(d.lo) then d.lo else d.hi, last, x);
    }
  }
}
