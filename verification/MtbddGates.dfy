/**
  Controlled-not gates: as mtbdd_operation, as nested traversals, and as a
  traversal with a lockstep below it. All are the same permutation of the
  leaves, and on reduced diagrams the same node.
*/
module MtbddGates {
  import opened Mtbdd

  /** mtbdd_make_swap: the children of a node exchanged. */
  function SwapNode<T(==)>(d: Mt<T>): Mt<T> { if d.Node? then Mk(d.level, d.hi, d.lo) else d }

  /** The same, as an operation on a target level. */
  function SwapOp<T(==)>(l: nat, lo: Mt<T>, hi: Mt<T>): Mt<T> { Mk(l, hi, lo) }

  function SwapGate<T>(v: bool, x: T, y: T): T { if v then x else y }

  /** Level t negated. */
  function Flip(t: nat): Change { (a: Assign) => Set(a, t, !a(t)) }

  /** The assignment a controlled-not leads to. */
  function Cnot(c: nat, t: nat): Change { If(c, Flip(t)) }

  lemma {:induction false} FlipAt(t: nat, a: Assign, x: nat)
    ensures Flip(t)(a)(x) == if x == t then !a(t) else a(x)
  {
    var b := Flip(t)(a);
    assert b == Set(a, t, !a(t));
    assert Set(a, t, !a(t))(x) == if x == t then !a(t) else a(x);
  }

  lemma {:induction false} CnotAt(c: nat, t: nat, a: Assign, x: nat)
    ensures Cnot(c, t)(a)(x) == if x == t && a(c) then !a(t) else a(x)
  {
    FlipAt(t, a, x);
    assert Cnot(c, t)(a) == if a(c) then Flip(t)(a) else a;
  }

  /* ---- the three constructions ---- */

  function CxOperation<T(==)>(c: nat, t: nat, zero: T, d: Mt<T>): Mt<T> {
    Operation(d, [c, t], (l: nat, lo: Mt<T>, hi: Mt<T>) => SwapOp(l, lo, hi), zero)
  }

  /** The control above the target: down the high branch at c, swap at t. */
  function CxNested<T(==)>(c: nat, t: nat, d: Mt<T>): Mt<T> {
    Traverse(c, (e: Mt<T>) => Traverse(t, (n: Mt<T>) => SwapNode(n), Itself, e), BranchR, d)
  }

  /** virt_node with LR or RL descent. */
  function Virtual<T>(d: Mt<T>, target: nat): Mt<T> {
    if d.Node? && d.level <= target then d else Node(target, d, d)
  }

  /** mtbdd_with_lockstep_to with LR or RL descent and the action on the nodes themselves. */
  function Lockstep<T(==)>(target: nat, action: (Mt<T>, Mt<T>) -> (Mt<T>, Mt<T>), l: Mt<T>, r: Mt<T>): (Mt<T>, Mt<T>)
    decreases Size(l) + Size(r)
  {
    var wl, wr := Virtual(l, target), Virtual(r, target);
    if wl.level == target && wr.level == target then action(wl, wr)
    else if wl.level == wr.level then
      var lo, hi := Lockstep(target, action, l.lo, r.lo), Lockstep(target, action, l.hi, r.hi);
      (Mk(l.level, lo.0, hi.0), Mk(l.level, lo.1, hi.1))
    else if wl.level < wr.level then
      var lo, hi := Lockstep(target, action, l.lo, r), Lockstep(target, action, l.hi, r);
      (Mk(l.level, lo.0, hi.0), Mk(l.level, lo.1, hi.1))
    else
      var lo, hi := Lockstep(target, action, l, r.lo), Lockstep(target, action, l, r.hi);
      (Mk(r.level, lo.0, hi.0), Mk(r.level, lo.1, hi.1))
  }

  /** mtbdd_make_swap with both parameters on the high side: the high branches change places. */
  function SwapHigh<T(==)>(l: Mt<T>, r: Mt<T>): (Mt<T>, Mt<T>) {
    if l.Node? && r.Node? then (Mk(l.level, l.lo, r.hi), Mk(r.level, r.lo, l.hi)) else (l, r)
  }

  /** What the traversal does at the target: both children in lockstep down to the control. */
  function LockstepAction<T(==)>(c: nat, n: Mt<T>): Mt<T> {
    if n.Node? then
      var (l, r) := Lockstep(c, (x: Mt<T>, y: Mt<T>) => SwapHigh(x, y), n.lo, n.hi);
      Mk(n.level, l, r)
    else n
  }

  /** The target above the control. */
  function CxLockstep<T(==)>(c: nat, t: nat, d: Mt<T>): Mt<T> {
    Traverse(t, (n: Mt<T>) => LockstepAction(c, n), Itself, d)
  }

  /* ---- what they do ---- */

  lemma {:induction false} SwapActs<T(!new)>(t: nat)
    ensures ActsAt(t, (n: Mt<T>) => SwapNode(n), Flip(t)) && Below(t, Flip(t))
  {
    var action: Action<T> := (n: Mt<T>) => SwapNode(n);
    forall a: Assign, x: nat | x < t ensures Flip(t)(a)(x) == a(x) {
      FlipAt(t, a, x);
    }
    forall lo: Mt<T>, hi: Mt<T> | Reduced(lo) && Reduced(hi) && Under(t, lo) && Under(t, hi)
      ensures var r := action(Node(t, lo, hi));
              && Reduced(r) && (r.Node? ==> t <= r.level)
              && forall a: Assign {:trigger Eval(r, a)} :: Eval(r, a) == Eval(if Flip(t)(a)(t) then hi else lo, Flip(t)(a))
    {
      MkFacts(t, hi, lo);
      forall a: Assign ensures Eval(Mk(t, hi, lo), a) == Eval(if Flip(t)(a)(t) then hi else lo, Flip(t)(a)) {
        AboveSet(lo, a, t, !a(t));
        AboveSet(hi, a, t, !a(t));
      }
    }
  }

  /** Nested traversals: the controlled not for a control above the target. */
  lemma {:induction false} CxNestedMeans<T(!new)>(c: nat, t: nat, d: Mt<T>)
    requires Reduced(d) && c < t
    ensures Reduced(CxNested(c, t, d))
    ensures forall l: nat {:trigger Under(l, CxNested(c, t, d))} :: Under(l, d) && l < c ==> Under(l, CxNested(c, t, d))
    ensures forall a: Assign {:trigger Eval(CxNested(c, t, d), a)} :: Eval(CxNested(c, t, d), a) == Eval(d, Cnot(c, t)(a))
  {
    SwapActs<T>(t);
    TraverseActs<T>(c, t, (n: Mt<T>) => SwapNode(n), Flip(t));
    TraverseHigh(c, (e: Mt<T>) => Traverse(t, (n: Mt<T>) => SwapNode(n), Itself, e), Flip(t), d);
  }

  /** Two controls above the target, by one more traversal. */
  lemma {:induction false} CcxNestedMeans<T(!new)>(c1: nat, c2: nat, t: nat, d: Mt<T>)
    requires Reduced(d) && c1 < c2 < t
    ensures var r := Traverse(c1, (e: Mt<T>) => CxNested(c2, t, e), BranchR, d);
            Reduced(r) && forall a: Assign {:trigger Eval(r, a)} :: Eval(r, a) == Eval(d, If(c1, Cnot(c2, t))(a))
  {
    var step: Action<T> := (e: Mt<T>) => CxNested(c2, t, e);
    forall e: Mt<T> | Reduced(e) && Under(c1, e)
      ensures Reduced(step(e)) && Under(c1, step(e)) && forall a: Assign {:trigger Eval(step(e), a)} :: Eval(step(e), a) == Eval(e, Cnot(c2, t)(a))
    {
      CxNestedMeans(c2, t, e);
      assert Under(c1, CxNested(c2, t, e));
    }
    CnotBelow(c1, c2, t);
    TraverseHigh(c1, step, Cnot(c2, t), d);
  }

  lemma {:induction false} CnotBelow(c: nat, c': nat, t: nat)
    requires c < c' < t
    ensures Below(c + 1, Cnot(c', t))
  {
    forall a: Assign, x: nat | x < c + 1 ensures Cnot(c', t)(a)(x) == a(x) {
      CnotAt(c', t, a, x);
    }
  }

  lemma {:induction false} SwapPerforms<T(!new)>()
    ensures Performs((l: nat, lo: Mt<T>, hi: Mt<T>) => SwapOp(l, lo, hi), (v: bool, x: T, y: T) => SwapGate(v, x, y))
  {
    var op := (l: nat, lo: Mt<T>, hi: Mt<T>) => SwapOp(l, lo, hi);
    forall l: nat, lo: Mt<T>, hi: Mt<T> | Reduced(lo) && Reduced(hi) && Under(l, lo) && Under(l, hi)
      ensures Reduced(op(l, lo, hi)) && (op(l, lo, hi).Node? ==> l <= op(l, lo, hi).level)
      ensures forall a: Assign {:trigger Eval(op(l, lo, hi), a)} :: Eval(op(l, lo, hi), a) == SwapGate(a(l), Eval(lo, a), Eval(hi, a))
    {
      MkFacts(l, hi, lo);
    }
  }

  /** A swap under any number of ascending controls permutes the leaves: the target is negated where all controls are set. */
  lemma {:induction false} ControlledSwapMeans<T(!new)>(d: Mt<T>, controls: seq<nat>, zero: T, a: Assign)
    requires Reduced(d) && 1 <= |controls| && Ascending(controls)
    ensures var r := Operation(d, controls, (l: nat, lo: Mt<T>, hi: Mt<T>) => SwapOp(l, lo, hi), zero);
            Reduced(r) && Eval(r, a) == Eval(d, if Controlled(controls, a) then Flip(controls[|controls| - 1])(a) else a)
  {
    hide Reduced, Eval, Performs;
    SwapPerforms<T>();
    var g := (v: bool, x: T, y: T) => SwapGate(v, x, y);
    OperationMeans(d, controls, (l: nat, lo: Mt<T>, hi: Mt<T>) => SwapOp(l, lo, hi), zero, g);
  }

  lemma {:induction false} CxOperationMeans<T(!new)>(c: nat, t: nat, zero: T, d: Mt<T>)
    requires Reduced(d) && c < t
    ensures Reduced(CxOperation(c, t, zero, d))
    ensures forall a: Assign {:trigger Eval(CxOperation(c, t, zero, d), a)} :: Eval(CxOperation(c, t, zero, d), a) == Eval(d, Cnot(c, t)(a))
  {
    hide Reduced, Eval;
    var controls := [c, t];
    forall a: Assign ensures Reduced(CxOperation(c, t, zero, d)) && Eval(CxOperation(c, t, zero, d), a) == Eval(d, Cnot(c, t)(a)) {
      ControlledSwapMeans(d, controls, zero, a);
      assert Controlled(controls[1..], a);
    }
    var a: Assign := (x: nat) => false;
    ControlledSwapMeans(d, controls, zero, a);
  }

  /** Both constructions for a control above the target give the same node. */
  lemma {:induction false} CxSame<T(!new)>(c: nat, t: nat, zero: T, d: Mt<T>)
    requires Reduced(d) && c < t
    ensures CxNested(c, t, d) == CxOperation(c, t, zero, d)
  {
    hide Reduced, Eval, CxNested, CxOperation;
    CxNestedMeans(c, t, d);
    CxOperationMeans(c, t, zero, d);
    Canonical(CxNested(c, t, d), CxOperation(c, t, zero, d));
  }

  /** The pair after a lockstep to c: where c is set the two functions have changed places. */
  lemma {:induction false} LockstepMeans<T(!new)>(c: nat, l: Mt<T>, r: Mt<T>)
    requires Reduced(l) && Reduced(r)
    ensures var p := Lockstep(c, (x: Mt<T>, y: Mt<T>) => SwapHigh(x, y), l, r);
            && Reduced(p.0) && Reduced(p.1)
            && (forall m: nat {:trigger Under(m, p.0)} {:trigger Under(m, p.1)} :: Under(m, l) && Under(m, r) && m < c ==> Under(m, p.0) && Under(m, p.1))
            && (forall a: Assign {:trigger Eval(p.0, a)} :: Eval(p.0, a) == Eval(if a(c) then r else l, a))
            && (forall a: Assign {:trigger Eval(p.1, a)} :: Eval(p.1, a) == Eval(if a(c) then l else r, a))
    decreases Size(l) + Size(r)
  {
    var wl, wr := Virtual(l, c), Virtual(r, c);
    if wl.level == c && wr.level == c {
      LockstepAtTarget(c, l, r);
    } else {
      hide Lockstep, Reduced, Eval, SwapHigh, Under;
      var m := if wl.level < wr.level then wl.level else wr.level;
      LockstepStep(c, l, r, m);
      CofactorFacts(l, m, false);
      CofactorFacts(l, m, true);
      CofactorFacts(r, m, false);
      CofactorFacts(r, m, true);
      LockstepMeans(c, Cofactor(l, m, false), Cofactor(r, m, false));
      LockstepMeans(c, Cofactor(l, m, true), Cofactor(r, m, true));
      var action := (x: Mt<T>, y: Mt<T>) => SwapHigh(x, y);
      var lo, hi := Lockstep(c, action, Cofactor(l, m, false), Cofactor(r, m, false)), Lockstep(c, action, Cofactor(l, m, true), Cofactor(r, m, true));
      LockstepJoin(c, l, r, m, lo.0, hi.0);
      LockstepJoin(c, r, l, m, lo.1, hi.1);
    }
  }

  /** One of the two results, over the results for the cofactors. */
  lemma {:induction false} LockstepJoin<T(!new)>(c: nat, l: Mt<T>, r: Mt<T>, m: nat, lo: Mt<T>, hi: Mt<T>)
    requires Reduced(l) && Reduced(r) && m < c && Reduced(lo) && Reduced(hi) && Under(m, lo) && Under(m, hi)
    requires !(l.Node? && l.level < m) && !(r.Node? && r.level < m) && ((l.Node? && l.level == m) || (r.Node? && r.level == m))
    requires forall a: Assign {:trigger Eval(lo, a)} :: Eval(lo, a) == Eval(if a(c) then Cofactor(r, m, false) else Cofactor(l, m, false), a)
    requires forall a: Assign {:trigger Eval(hi, a)} :: Eval(hi, a) == Eval(if a(c) then Cofactor(r, m, true) else Cofactor(l, m, true), a)
    ensures var p := Mk(m, lo, hi);
            && Reduced(p) && (forall k: nat {:trigger Under(k, p)} :: Under(k, l) && Under(k, r) && k < c ==> Under(k, p))
            && (forall a: Assign {:trigger Eval(p, a)} :: Eval(p, a) == Eval(if a(c) then r else l, a))
  {
    hide Eval, Reduced, Cofactor;
    var p := Mk(m, lo, hi);
    MkFacts(m, lo, hi);
    forall a: Assign ensures Eval(p, a) == Eval(if a(c) then r else l, a) {
      CofactorAt(l, m, a);
      CofactorAt(r, m, a);
    }
  }

  lemma {:induction false} LockstepAtTarget<T(!new)>(c: nat, l: Mt<T>, r: Mt<T>)
    requires Reduced(l) && Reduced(r) && Virtual(l, c).level == c == Virtual(r, c).level
    ensures var p := SwapHigh(Virtual(l, c), Virtual(r, c));
            && Reduced(p.0) && Reduced(p.1)
            && (forall m: nat {:trigger Under(m, p.0)} {:trigger Under(m, p.1)} :: Under(m, l) && Under(m, r) && m < c ==> Under(m, p.0) && Under(m, p.1))
            && (forall a: Assign {:trigger Eval(p.0, a)} :: Eval(p.0, a) == Eval(if a(c) then r else l, a))
            && (forall a: Assign {:trigger Eval(p.1, a)} :: Eval(p.1, a) == Eval(if a(c) then l else r, a))
  {
    var wl, wr := Virtual(l, c), Virtual(r, c);
    MkFacts(c, wl.lo, wr.hi);
    MkFacts(c, wr.lo, wl.hi);
  }

  /** One level of the descent: the pair is built from the pairs of the cofactors. */
  lemma {:induction false} LockstepStep<T(!new)>(c: nat, l: Mt<T>, r: Mt<T>, m: nat)
    requires Reduced(l) && Reduced(r) && !(Virtual(l, c).level == c && Virtual(r, c).level == c)
    requires m == if Virtual(l, c).level < Virtual(r, c).level then Virtual(l, c).level else Virtual(r, c).level
    ensures m < c && !(l.Node? && l.level < m) && !(r.Node? && r.level < m) && ((l.Node? && l.level == m) || (r.Node? && r.level == m))
    ensures Size(Cofactor(l, m, false)) + Size(Cofactor(r, m, false)) < Size(l) + Size(r) && Size(Cofactor(l, m, true)) + Size(Cofactor(r, m, true)) < Size(l) + Size(r)
    ensures var action := (x: Mt<T>, y: Mt<T>) => SwapHigh(x, y);
            var lo, hi := Lockstep(c, action, Cofactor(l, m, false), Cofactor(r, m, false)), Lockstep(c, action, Cofactor(l, m, true), Cofactor(r, m, true));
            Lockstep(c, action, l, r) == (Mk(m, lo.0, hi.0), Mk(m, lo.1, hi.1))
  {
  }

  lemma {:induction false} LockstepActs<T(!new)>(c: nat, t: nat)
    requires t < c
    ensures ActsAt(t, (n: Mt<T>) => LockstepAction(c, n), Cnot(c, t)) && Below(t, Cnot(c, t))
  {
    forall a: Assign, x: nat | x < t ensures Cnot(c, t)(a)(x) == a(x) {
      CnotAt(c, t, a, x);
    }
    var action: Action<T> := (n: Mt<T>) => LockstepAction(c, n);
    forall lo: Mt<T>, hi: Mt<T> | Reduced(lo) && Reduced(hi) && Under(t, lo) && Under(t, hi)
      ensures var r := action(Node(t, lo, hi));
              && Reduced(r) && (r.Node? ==> t <= r.level)
              && forall a: Assign {:trigger Eval(r, a)} :: Eval(r, a) == Eval(if Cnot(c, t)(a)(t) then hi else lo, Cnot(c, t)(a))
    {
      hide Lockstep, Reduced;
      LockstepMeans(c, lo, hi);
      var p := Lockstep(c, (x: Mt<T>, y: Mt<T>) => SwapHigh(x, y), lo, hi);
      assert Under(t, p.0) && Under(t, p.1);
      MkFacts(t, p.0, p.1);
      forall a: Assign ensures Eval(Mk(t, p.0, p.1), a) == Eval(if Cnot(c, t)(a)(t) then hi else lo, Cnot(c, t)(a)) {
        AboveSet(lo, a, t, !a(t));
        AboveSet(hi, a, t, !a(t));
      }
    }
  }

  /** Traversal and lockstep: the controlled not for a target above the control. */
  lemma {:induction false} CxLockstepMeans<T(!new)>(c: nat, t: nat, d: Mt<T>)
    requires Reduced(d) && t < c
    ensures Reduced(CxLockstep(c, t, d))
    ensures forall a: Assign {:trigger Eval(CxLockstep(c, t, d), a)} :: Eval(CxLockstep(c, t, d), a) == Eval(d, Cnot(c, t)(a))
  {
    LockstepActs<T>(c, t);
    TraverseItself(t, (n: Mt<T>) => LockstepAction(c, n), Cnot(c, t), d);
  }

  /** A controlled not by whichever construction applies. */
  function Cx<T(==)>(c: nat, t: nat, d: Mt<T>): Mt<T> { if c < t then CxNested(c, t, d) else CxLockstep(c, t, d) }

  /** A controlled not done twice gives the diagram back. */
  lemma {:induction false} CxTwice<T(!new)>(c: nat, t: nat, d: Mt<T>)
    requires Reduced(d) && c != t
    ensures Reduced(Cx(c, t, d)) && Cx(c, t, Cx(c, t, d)) == d
  {
    hide Reduced, Eval, CxNested, CxLockstep;
    var e := Cx(c, t, d);
    CxMeans(c, t, d);
    CxMeans(c, t, e);
    var r := Cx(c, t, e);
    forall a: Assign ensures Eval(r, a) == Eval(d, a) {
      var b := Cnot(c, t)(a);
      TwiceAt(c, t, d, a);
    }
    Canonical(r, d);
  }

  lemma {:induction false} CxMeans<T(!new)>(c: nat, t: nat, d: Mt<T>)
    requires Reduced(d) && c != t
    ensures Reduced(Cx(c, t, d)) && forall a: Assign {:trigger Eval(Cx(c, t, d), a)} :: Eval(Cx(c, t, d), a) == Eval(d, Cnot(c, t)(a))
  {
    if c < t { CxNestedMeans(c, t, d); } else { CxLockstepMeans(c, t, d); }
  }

  lemma {:induction false} Agree<T>(d: Mt<T>, a: Assign, b: Assign)
    requires forall x: nat :: a(x) == b(x)
    ensures Eval(d, a) == Eval(d, b)
  {
    if d.Node? {
      Agree(d.lo, a, b);
      Agree(d.hi, a, b);
    }
  }

  lemma {:induction false} TwiceAt<T>(c: nat, t: nat, d: Mt<T>, a: Assign)
    requires c != t
    ensures Eval(d, Cnot(c, t)(Cnot(c, t)(a))) == Eval(d, a)
  {
    var b := Cnot(c, t)(a);
    forall x: nat ensures Cnot(c, t)(b)(x) == a(x) {
      CnotAt(c, t, a, x);
      CnotAt(c, t, a, c);
      CnotAt(c, t, a, t);
      CnotAt(c, t, b, x);
    }
    Agree(d, Cnot(c, t)(b), a);
  }
}
