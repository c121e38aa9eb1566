/**
  Decision trees: the value a node of the table stands for.

  A table node is shared and mutable; the tree obtained by unfolding it is
  neither. Everything the package promises about a node is a statement about
  its tree, and two nodes of one table are the same node exactly when their
  trees are equal. `Canonical` adds that reduced, ordered trees are equal
  exactly when they are equal as Boolean functions.
*/
module Dd {

  /** A tree branches on a level of the current variable order. */
  datatype Dd = Leaf(value: bool) | Node(level: nat, lo: Dd, hi: Dd)

  /** An assignment gives every level a truth value. */
  type Assign = nat -> bool

  function Update(a: Assign, l: nat, v: bool): Assign {
    (x: nat) => if x == l then v else a(x)
  }

  function Eval(d: Dd, a: Assign): bool {
    match d
    case Leaf(v) => v
    case Node(l, lo, hi) => if a(l) then Eval(hi, a) else Eval(lo, a)
  }

  /** Every branch of d lies strictly below level l: no test at l or above. */
  predicate Under(l: nat, d: Dd) {
    d.Node? ==> l < d.level
  }

  /** Ordered and reduced. */
  predicate Robdd(d: Dd) {
    d.Node? ==>
      && Under(d.level, d.lo) && Under(d.level, d.hi)
      && d.lo != d.hi
      && Robdd(d.lo) && Robdd(d.hi)
  }

  /** The levels tested anywhere in d. */
  function Support(d: Dd): set<nat> {
    match d
    case Leaf(_) => {}
    case Node(l, lo, hi) => {l} + Support(lo) + Support(hi)
  }

  /** s is d or a part of it. */
  predicate Subtree(s: Dd, d: Dd) {
    s == d || (d.Node? && (Subtree(s, d.lo) || Subtree(s, d.hi)))
  }

  lemma {:induction false} SubtreeTransitive(s: Dd, t: Dd, d: Dd)
    requires Subtree(s, t) && Subtree(t, d)
    ensures Subtree(s, d)
  {
    if t != d {
      if Subtree(t, d.lo) {
        SubtreeTransitive(s, t, d.lo);
      } else {
        SubtreeTransitive(s, t, d.hi);
      }
    }
  }

  /** The reducing constructor: what the unique table turns a request into. */
  function Mk(l: nat, lo: Dd, hi: Dd): Dd {
    if lo == hi then lo else Node(l, lo, hi)
  }

  function Cofactor(d: Dd, l: nat, v: bool): Dd {
    if d.Node? && d.level == l then (if v then d.hi else d.lo) else d
  }

  lemma {:induction false} SupportBelow(d: Dd, l: nat)
    requires Robdd(d) && Under(l, d)
    ensures forall x :: x in Support(d) ==> l < x
  {
    if d.Node? {
      SupportBelow(d.lo, d.level);
      SupportBelow(d.hi, d.level);
    }
  }

  /** Only the levels of the support matter. */
  lemma {:induction false} EvalAgree(d: Dd, a: Assign, b: Assign)
    requires forall x :: x in Support(d) ==> a(x) == b(x)
    ensures Eval(d, a) == Eval(d, b)
  {
    if d.Node? {
      EvalAgree(d.lo, a, b);
      EvalAgree(d.hi, a, b);
    }
  }

  lemma EvalUpdateAbove(d: Dd, a: Assign, l: nat, v: bool)
    requires Robdd(d) && Under(l, d)
    ensures Eval(d, Update(a, l, v)) == Eval(d, a)
  {
    SupportBelow(d, l);
    EvalAgree(d, Update(a, l, v), a);
  }

  function Size(d: Dd): nat {
    if d.Leaf? then 0 else 1 + Size(d.lo) + Size(d.hi)
  }

  /** Two different reduced, ordered trees differ under some assignment. */
  lemma {:induction false} Distinguish(s: Dd, t: Dd) returns (a: Assign)
    requires Robdd(s) && Robdd(t) && s != t
    ensures Eval(s, a) != Eval(t, a)
    decreases Size(s) + Size(t)
  {
    if s.Leaf? && t.Leaf? {
      a := (x: nat) => false;
    } else {
      var l := if s.Leaf? then t.level else if t.Leaf? then s.level
               else if s.level < t.level then s.level else t.level;
      var v := Cofactor(s, l, true) != Cofactor(t, l, true);
      var s', t' := Cofactor(s, l, v), Cofactor(t, l, v);
      var b := Distinguish(s', t');
      EvalUpdateAbove(s', b, l, v);
      EvalUpdateAbove(t', b, l, v);
      a := Update(b, l, v);
    }
  }

  /** Canonicity: equal functions are equal trees. */
  lemma Canonical(s: Dd, t: Dd)
    requires Robdd(s) && Robdd(t)
    ensures s == t <==> forall a: Assign :: Eval(s, a) == Eval(t, a)
  {
    if s != t {
      var a := Distinguish(s, t);
    }
  }
}
