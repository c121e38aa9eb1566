/**
  Decision diagrams with values at the leaves: the controlled operations of
  mtbdd.c and the traversal combinators of mtbddop.cxx, by what they do to the
  function a diagram stands for.
*/
module Mtbdd {
  import Dd

  datatype Mt<T> = Leaf(value: T) | Node(level: nat, lo: Mt<T>, hi: Mt<T>)

  type Assign = Dd.Assign

  function Set(a: Assign, l: nat, v: bool): Assign { Dd.Update(a, l, v) }

  function Eval<T>(d: Mt<T>, a: Assign): T {
    match d
    case Leaf(v) => v
    case Node(l, lo, hi) => if a(l) then Eval(hi, a) else Eval(lo, a)
  }

  predicate Under<T>(l: nat, d: Mt<T>) { d.Node? ==> l < d.level }

  predicate Reduced<T(==)>(d: Mt<T>) {
    d.Node? ==> Under(d.level, d.lo) && Under(d.level, d.hi) && d.lo != d.hi && Reduced(d.lo) && Reduced(d.hi)
  }

  function Size<T>(d: Mt<T>): nat { if d.Leaf? then 0 else 1 + Size(d.lo) + Size(d.hi) }

  /** bdd_makenode with checkSameChildren set. */
  function Mk<T(==)>(l: nat, lo: Mt<T>, hi: Mt<T>): Mt<T> { if lo == hi then lo else Node(l, lo, hi) }

  lemma {:induction false} Above<T>(d: Mt<T>, a: Assign, b: Assign, l: nat)
    requires Reduced(d) && Under(l, d) && forall x: nat :: l < x ==> a(x) == b(x)
    ensures Eval(d, a) == Eval(d, b)
  {
    if d.Node? {
      Above(d.lo, a, b, d.level);
      Above(d.hi, a, b, d.level);
    }
  }

  lemma {:induction false} AboveSet<T>(d: Mt<T>, a: Assign, l: nat, v: bool)
    requires Reduced(d) && Under(l, d)
    ensures Eval(d, Set(a, l, v)) == Eval(d, a)
  {
    Above(d, Set(a, l, v), a, l);
  }

  /** The child of d on the v side of level l; a node below l stands for a virtual node with equal children. */
  function Cofactor<T>(d: Mt<T>, l: nat, v: bool): Mt<T> {
    if d.Node? && d.level == l then (if v then d.hi else d.lo) else d
  }

  lemma {:induction false} Distinguish<T>(s: Mt<T>, t: Mt<T>) returns (a: Assign)
    requires Reduced(s) && Reduced(t) && s != t
    ensures Eval(s, a) != Eval(t, a)
    decreases Size(s) + Size(t)
  {
    if s.Leaf? && t.Leaf? {
      a := (x: nat) => false;
    } else {
      var l := if s.Leaf? then t.level else if t.Leaf? then s.level else if s.level < t.level then s.level else t.level;
      var v := Cofactor(s, l, true) != Cofactor(t, l, true);
      var b := Distinguish(Cofactor(s, l, v), Cofactor(t, l, v));
      AboveSet(Cofactor(s, l, v), b, l, v);
      AboveSet(Cofactor(t, l, v), b, l, v);
      a := Set(b, l, v);
    }
  }

  /** Reduced diagrams are equal exactly when their functions are. */
  lemma {:induction false} Canonical<T>(s: Mt<T>, t: Mt<T>)
    requires Reduced(s) && Reduced(t)
    ensures s == t <==> forall a: Assign :: Eval(s, a) == Eval(t, a)
  {
    if s != t {
      var a := Distinguish(s, t);
    }
  }

  lemma {:induction false} MkFacts<T>(l: nat, lo: Mt<T>, hi: Mt<T>)
    requires Reduced(lo) && Reduced(hi) && Under(l, lo) && Under(l, hi)
    ensures Reduced(Mk(l, lo, hi)) && (Mk(l, lo, hi).Node? ==> l <= Mk(l, lo, hi).level)
    ensures forall a: Assign {:trigger Eval(Mk(l, lo, hi), a)} :: Eval(Mk(l, lo, hi), a) == if a(l) then Eval(hi, a) else Eval(lo, a)
  {
  }

  /* ---- mtbdd_operation ---- */

  /** mtbdd_operation_rec: controls lead down the high branches; the last entry is the target. `zero` is the constant bddfalse. */
  function Operation<T(==)>(d: Mt<T>, controls: seq<nat>, op: (nat, Mt<T>, Mt<T>) -> Mt<T>, zero: T): Mt<T>
    requires 1 <= |controls|
    decreases |controls|, d
  {
    if d == Leaf(zero) then d
    else if d.Node? && d.level < controls[0] then
      var low, high := Operation(d.lo, controls, op, zero), Operation(d.hi, controls, op, zero);
      if low == d.lo && high == d.hi then d else Mk(d.level, low, high)
    else if |controls| == 1 then op(controls[0], Cofactor(d, controls[0], false), Cofactor(d, controls[0], true))
    else Mk(controls[0], Cofactor(d, controls[0], false), Operation(Cofactor(d, controls[0], true), controls[1..], op, zero))
  }

  /** What an operation does at its target: the new value of each branch from the two old ones. */
  type Gate<!T> = (bool, T, T) -> T

  /** op builds, at any level, the reduced diagram of the gate. */
  ghost predicate Performs<T(!new)>(op: (nat, Mt<T>, Mt<T>) -> Mt<T>, g: Gate<T>) {
    forall l: nat, lo: Mt<T>, hi: Mt<T> {:trigger op(l, lo, hi)} :: Reduced(lo) && Reduced(hi) && Under(l, lo) && Under(l, hi) ==>
      && Reduced(op(l, lo, hi)) && (op(l, lo, hi).Node? ==> l <= op(l, lo, hi).level)
      && forall a: Assign {:trigger Eval(op(l, lo, hi), a)} :: Eval(op(l, lo, hi), a) == g(a(l), Eval(lo, a), Eval(hi, a))
  }

  /** The gate leaves the constant bddfalse alone, which the operation does not even enter. */
  predicate Fixes<T(==)>(g: Gate<T>, zero: T) { g(false, zero, zero) == zero && g(true, zero, zero) == zero }

  predicate Ascending(controls: seq<nat>) {
    forall i {:trigger controls[i]} :: 0 <= i < |controls| - 1 ==> controls[i] < controls[i + 1]
  }

  /** All controls, the target excepted, are set. */
  predicate Controlled(controls: seq<nat>, a: Assign)
    requires 1 <= |controls|
  {
    |controls| == 1 || (a(controls[0]) && Controlled(controls[1..], a))
  }

  lemma {:induction false} ControlledSpelled(controls: seq<nat>, a: Assign)
    requires 1 <= |controls|
    ensures Controlled(controls, a) <==> forall i {:trigger controls[i]} :: 0 <= i < |controls| - 1 ==> a(controls[i])
  {
    if 2 <= |controls| {
      var tail := controls[1..];
      ControlledSpelled(tail, a);
      forall i | 0 <= i < |tail| - 1 ensures tail[i] == controls[i + 1] {}
      if Controlled(controls, a) {
        forall i | 0 <= i < |controls| - 1 ensures a(controls[i]) {
          if 0 < i { assert tail[i - 1] == controls[i]; }
        }
      }
    }
  }

  /** The gate on the target where the controls are set. */
  function Applied<T>(d: Mt<T>, controls: seq<nat>, g: Gate<T>, a: Assign): T
    requires 1 <= |controls|
  {
    var t := controls[|controls| - 1];
    if Controlled(controls, a) then g(a(t), Eval(d, Set(a, t, false)), Eval(d, Set(a, t, true))) else Eval(d, a)
  }

  lemma {:induction false} AscendingTail(controls: seq<nat>)
    requires Ascending(controls) && 2 <= |controls|
    ensures Ascending(controls[1..]) && controls[1..][|controls[1..]| - 1] == controls[|controls| - 1] && controls[0] < controls[|controls| - 1]
  {
    var tail := controls[1..];
    forall i | 0 <= i < |tail| - 1 ensures tail[i] < tail[i + 1] {
      assert controls[i + 1] < controls[i + 2];
    }
    assert controls[0] < controls[1];
    if 3 <= |controls| { AscendingTail(tail); }
  }

  /** Below a level l above all controls, the result stays below. */
  predicate Beyond<T>(l: nat, d: Mt<T>, controls: seq<nat>)
    requires 1 <= |controls|
  {
    Under(l, d) && l < controls[0]
  }

  /** mtbdd_operation is the controlled gate, on reduced diagrams with reduced result, when the controls ascend to the target. */
  lemma {:induction false} OperationMeans<T(!new)>(d: Mt<T>, controls: seq<nat>, op: (nat, Mt<T>, Mt<T>) -> Mt<T>, zero: T, g: Gate<T>)
    requires Reduced(d) && 1 <= |controls| && Ascending(controls) && Performs(op, g) && Fixes(g, zero)
    ensures Reduced(Operation(d, controls, op, zero))
    ensures forall l: nat {:trigger Beyond(l, d, controls)} :: Beyond(l, d, controls) ==> Under(l, Operation(d, controls, op, zero))
    ensures forall a: Assign {:trigger Eval(Operation(d, controls, op, zero), a)} :: Eval(Operation(d, controls, op, zero), a) == Applied(d, controls, g, a)
    decreases |controls|, d
  {
    var c, r := controls[0], Operation(d, controls, op, zero);
    if d == Leaf(zero) {
      forall a: Assign ensures Eval(r, a) == Applied(d, controls, g, a) {
        assert a(controls[|controls| - 1]) || !a(controls[|controls| - 1]);
      }
    } else if d.Node? && d.level < c {
      OperationMeans(d.lo, controls, op, zero, g);
      OperationMeans(d.hi, controls, op, zero, g);
      assert Beyond(d.level, d.lo, controls) && Beyond(d.level, d.hi, controls);
      OperationNode(d, controls, op, zero, g);
    } else if |controls| == 1 {
      OperationTarget(d, controls, op, zero, g);
    } else {
      AscendingTail(controls);
      CofactorFacts(d, c, true);
      OperationMeans(Cofactor(d, c, true), controls[1..], op, zero, g);
      assert controls[0] < controls[1];
      assert Beyond(c, Cofactor(d, c, true), controls[1..]);
      OperationControl(d, controls, op, zero, g);
    }
  }

  lemma {:induction false} OperationNode<T(!new)>(d: Mt<T>, controls: seq<nat>, op: (nat, Mt<T>, Mt<T>) -> Mt<T>, zero: T, g: Gate<T>)
    requires Reduced(d) && 1 <= |controls| && Ascending(controls) && d.Node? && d.level < controls[0]
    requires Reduced(Operation(d.lo, controls, op, zero)) && Reduced(Operation(d.hi, controls, op, zero))
    requires Under(d.level, Operation(d.lo, controls, op, zero)) && Under(d.level, Operation(d.hi, controls, op, zero))
    requires forall a: Assign {:trigger Eval(Operation(d.lo, controls, op, zero), a)} :: Eval(Operation(d.lo, controls, op, zero), a) == Applied(d.lo, controls, g, a)
    requires forall a: Assign {:trigger Eval(Operation(d.hi, controls, op, zero), a)} :: Eval(Operation(d.hi, controls, op, zero), a) == Applied(d.hi, controls, g, a)
    ensures Reduced(Operation(d, controls, op, zero))
    ensures forall l: nat {:trigger Beyond(l, d, controls)} :: Beyond(l, d, controls) ==> Under(l, Operation(d, controls, op, zero))
    ensures forall a: Assign {:trigger Eval(Operation(d, controls, op, zero), a)} :: Eval(Operation(d, controls, op, zero), a) == Applied(d, controls, g, a)
  {
    hide Controlled;
    var low, high, r := Operation(d.lo, controls, op, zero), Operation(d.hi, controls, op, zero), Operation(d, controls, op, zero);
    if |controls| >= 2 { AscendingTail(controls); }
    MkFacts(d.level, low, high);
    forall a: Assign ensures Eval(r, a) == Applied(d, controls, g, a) {
      assert Eval(r, a) == if a(d.level) then Eval(high, a) else Eval(low, a);
    }
  }

  lemma {:induction false} CofactorFacts<T>(d: Mt<T>, c: nat, v: bool)
    requires Reduced(d) && !(d.Node? && d.level < c)
    ensures Reduced(Cofactor(d, c, v)) && Under(c, Cofactor(d, c, v))
  {
  }

  lemma {:induction false} CofactorSet<T>(d: Mt<T>, c: nat, v: bool, a: Assign)
    requires Reduced(d) && !(d.Node? && d.level < c)
    ensures Eval(Cofactor(d, c, v), a) == Eval(d, Set(a, c, v))
  {
    AboveSet(Cofactor(d, c, v), a, c, v);
  }

  lemma {:induction false} CofactorAt<T>(d: Mt<T>, c: nat, a: Assign)
    ensures Eval(d, a) == Eval(Cofactor(d, c, a(c)), a)
  {
  }

  lemma {:induction false} OperationTarget<T(!new)>(d: Mt<T>, controls: seq<nat>, op: (nat, Mt<T>, Mt<T>) -> Mt<T>, zero: T, g: Gate<T>)
    requires Reduced(d) && |controls| == 1 && Performs(op, g) && d != Leaf(zero) && !(d.Node? && d.level < controls[0])
    ensures var r := Operation(d, controls, op, zero);
            && Reduced(r) && (forall l: nat {:trigger Beyond(l, d, controls)} :: Beyond(l, d, controls) ==> Under(l, r))
            && forall a: Assign {:trigger Eval(r, a)} :: Eval(r, a) == Applied(d, controls, g, a)
  {
    hide Reduced, Eval, Cofactor, Set;
    var c := controls[0];
    CofactorFacts(d, c, false);
    CofactorFacts(d, c, true);
    var r := Operation(d, controls, op, zero);
    assert r == op(c, Cofactor(d, c, false), Cofactor(d, c, true));
    forall a: Assign ensures Eval(r, a) == Applied(d, controls, g, a) {
      CofactorSet(d, c, false, a);
      CofactorSet(d, c, true, a);
    }
  }

  lemma {:induction false} OperationControl<T(!new)>(d: Mt<T>, controls: seq<nat>, op: (nat, Mt<T>, Mt<T>) -> Mt<T>, zero: T, g: Gate<T>)
    requires Reduced(d) && 2 <= |controls| && Ascending(controls) && d != Leaf(zero) && !(d.Node? && d.level < controls[0])
    requires var h := Operation(Cofactor(d, controls[0], true), controls[1..], op, zero);
             && Reduced(h) && Under(controls[0], h)
             && forall a: Assign {:trigger Eval(h, a)} :: Eval(h, a) == Applied(Cofactor(d, controls[0], true), controls[1..], g, a)
    ensures var r := Operation(d, controls, op, zero);
            && Reduced(r) && (forall l: nat {:trigger Beyond(l, d, controls)} :: Beyond(l, d, controls) ==> Under(l, r))
            && forall a: Assign {:trigger Eval(r, a)} :: Eval(r, a) == Applied(d, controls, g, a)
  {
    var c, h, r := controls[0], Operation(Cofactor(d, controls[0], true), controls[1..], op, zero), Operation(d, controls, op, zero);
    hide Reduced, Eval, Cofactor, Applied;
    CofactorFacts(d, c, false);
    MkFacts(c, Cofactor(d, c, false), h);
    AscendingTail(controls);
    assert r == Mk(c, Cofactor(d, c, false), h);
    forall a: Assign ensures Eval(r, a) == Applied(d, controls, g, a) {
      ControlAt(d, controls, op, zero, g, h, a);
    }
  }

  lemma {:induction false} ControlAt<T(!new)>(d: Mt<T>, controls: seq<nat>, op: (nat, Mt<T>, Mt<T>) -> Mt<T>, zero: T, g: Gate<T>, h: Mt<T>, a: Assign)
    requires Reduced(d) && 2 <= |controls| && Ascending(controls) && !(d.Node? && d.level < controls[0])
    requires Eval(h, a) == Applied(Cofactor(d, controls[0], true), controls[1..], g, a)
    ensures (if a(controls[0]) then Eval(h, a) else Eval(Cofactor(d, controls[0], false), a)) == Applied(d, controls, g, a)
  {
    hide Reduced, Eval, Cofactor;
    var c, t := controls[0], controls[|controls| - 1];
    AscendingTail(controls);
    CofactorAt(d, c, a);
    CofactorAt(d, c, Set(a, t, false));
    CofactorAt(d, c, Set(a, t, true));
  }

  /* ---- the combinators ---- */

  datatype Branch = BranchL | BranchR | Itself

  /** An action on the node at the target level. */
  type Action<!T> = Mt<T> -> Mt<T>

  /** The working node at the target: d itself, or a virtual node over it. */
  function Working<T>(d: Mt<T>, target: nat): Mt<T> {
    if d.Node? && d.level == target then d else Node(target, d, d)
  }

  /** mtbdd_with_traverse_to with LR or RL descent. */
  function Traverse<T(==)>(target: nat, action: Action<T>, on: Branch, d: Mt<T>): Mt<T> {
    if d.Node? && d.level < target then Mk(d.level, Traverse(target, action, on, d.lo), Traverse(target, action, on, d.hi))
    else
      var w := Working(d, target);
      match on
      case BranchL => Mk(target, action(w.lo), w.hi)
      case BranchR => Mk(target, w.lo, action(w.hi))
      case Itself => action(w)
  }

  /** A change of assignments that looks at nothing above level l. */
  type Change = Assign -> Assign

  /** What a step at or below `target` does to a diagram: the function with the assignment changed first. */
  ghost predicate Acts<T(!new)>(target: nat, action: Action<T>, f: Change) {
    forall d: Mt<T> {:trigger action(d)} :: Reduced(d) && Under(target, d) ==>
      && Reduced(action(d)) && Under(target, action(d))
      && forall a: Assign {:trigger Eval(action(d), a)} :: Eval(action(d), a) == Eval(d, f(a))
  }

  /** At the target itself the action gets the working node, which may be virtual. */
  ghost predicate ActsAt<T(!new)>(target: nat, action: Action<T>, f: Change) {
    forall lo: Mt<T>, hi: Mt<T> {:trigger action(Node(target, lo, hi))} ::
      Reduced(lo) && Reduced(hi) && Under(target, lo) && Under(target, hi) ==>
        var r := action(Node(target, lo, hi));
        && Reduced(r) && (r.Node? ==> target <= r.level)
        && forall a: Assign {:trigger Eval(r, a)} :: Eval(r, a) == Eval(if f(a)(target) then hi else lo, f(a))
  }

  /** f changes no value above or at level l, and none above it depend on how. */
  ghost predicate Below(l: nat, f: Change) {
    forall a: Assign, x: nat {:trigger f(a)(x)} :: x < l ==> f(a)(x) == a(x)
  }

  /** The change that takes place only where level c is set. */
  function If(c: nat, f: Change): Change { (a: Assign) => if a(c) then f(a) else a }

  /** Descent to a control: the action on the high branch there is the controlled action. */
  lemma {:induction false} TraverseHigh<T(!new)>(c: nat, action: Action<T>, f: Change, d: Mt<T>)
    requires Reduced(d) && Acts(c, action, f) && Below(c + 1, f)
    ensures Reduced(Traverse(c, action, BranchR, d))
    ensures forall l: nat {:trigger Under(l, Traverse(c, action, BranchR, d))} :: Under(l, d) && l < c ==> Under(l, Traverse(c, action, BranchR, d))
    ensures forall a: Assign {:trigger Eval(Traverse(c, action, BranchR, d), a)} :: Eval(Traverse(c, action, BranchR, d), a) == Eval(d, If(c, f)(a))
    decreases d
  {
    var r := Traverse(c, action, BranchR, d);
    if d.Node? && d.level < c {
      TraverseHigh(c, action, f, d.lo);
      TraverseHigh(c, action, f, d.hi);
      MkFacts(d.level, Traverse(c, action, BranchR, d.lo), Traverse(c, action, BranchR, d.hi));
      forall a: Assign ensures Eval(r, a) == Eval(d, If(c, f)(a)) {
        assert f(a)(d.level) == a(d.level);
      }
    } else {
      CofactorFacts(d, c, false);
      CofactorFacts(d, c, true);
      var w := Working(d, c);
      assert w.lo == Cofactor(d, c, false) && w.hi == Cofactor(d, c, true);
      MkFacts(c, w.lo, action(w.hi));
      forall a: Assign ensures Eval(r, a) == Eval(d, If(c, f)(a)) {
        CofactorAt(d, c, a);
        CofactorAt(d, c, f(a));
        assert f(a)(c) == a(c);
      }
    }
  }

  /** Descent to the target: the action on the node itself. */
  lemma {:induction false} TraverseItself<T(!new)>(t: nat, action: Action<T>, f: Change, d: Mt<T>)
    requires Reduced(d) && ActsAt(t, action, f) && Below(t, f)
    ensures Reduced(Traverse(t, action, Itself, d))
    ensures forall l: nat {:trigger Under(l, Traverse(t, action, Itself, d))} :: Under(l, d) && l < t ==> Under(l, Traverse(t, action, Itself, d))
    ensures forall a: Assign {:trigger Eval(Traverse(t, action, Itself, d), a)} :: Eval(Traverse(t, action, Itself, d), a) == Eval(d, f(a))
    decreases d
  {
    var r := Traverse(t, action, Itself, d);
    if d.Node? && d.level < t {
      TraverseItself(t, action, f, d.lo);
      TraverseItself(t, action, f, d.hi);
      MkFacts(d.level, Traverse(t, action, Itself, d.lo), Traverse(t, action, Itself, d.hi));
      forall a: Assign ensures Eval(r, a) == Eval(d, f(a)) {
        assert f(a)(d.level) == a(d.level);
      }
    } else {
      CofactorFacts(d, t, false);
      CofactorFacts(d, t, true);
      assert Working(d, t) == Node(t, Cofactor(d, t, false), Cofactor(d, t, true));
      forall a: Assign ensures Eval(r, a) == Eval(d, f(a)) {
        CofactorAt(d, t, f(a));
      }
    }
  }

  /** The traversal to a target, as an action below a control above it. */
  lemma {:induction false} TraverseActs<T(!new)>(c: nat, t: nat, action: Action<T>, f: Change)
    requires c < t && ActsAt(t, action, f) && Below(t, f)
    ensures Acts(c, (d: Mt<T>) => Traverse(t, action, Itself, d), f)
  {
    var step: Action<T> := (d: Mt<T>) => Traverse(t, action, Itself, d);
    forall d: Mt<T> | Reduced(d) && Under(c, d)
      ensures Reduced(step(d)) && Under(c, step(d)) && forall a: Assign {:trigger Eval(step(d), a)} :: Eval(step(d), a) == Eval(d, f(a))
    {
      TraverseItself(t, action, f, d);
      assert Under(c, Traverse(t, action, Itself, d));
    }
  }

  /** A controlled traversal, as an action below a control above it. */
  lemma {:induction false} TraverseHighActs<T(!new)>(c: nat, c': nat, action: Action<T>, f: Change)
    requires c < c' && Acts(c', action, f) && Below(c' + 1, f)
    ensures Acts(c, (d: Mt<T>) => Traverse(c', action, BranchR, d), If(c', f)) && Below(c + 1, If(c', f))
  {
    var step: Action<T> := (d: Mt<T>) => Traverse(c', action, BranchR, d);
    forall d: Mt<T> | Reduced(d) && Under(c, d)
      ensures Reduced(step(d)) && Under(c, step(d)) && forall a: Assign {:trigger Eval(step(d), a)} :: Eval(step(d), a) == Eval(d, If(c', f)(a))
    {
      TraverseHigh(c', action, f, d);
      assert Under(c, Traverse(c', action, BranchR, d));
    }
  }
}
