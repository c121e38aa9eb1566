/** bvec.c: multiplication and division, by vectors and by constants. */
module BvecDiv {
  import opened Dd
  import opened DdOps
  import opened Number
  import opened Bvec
  import opened BvecShift

  /* ---- multiplication ---- */

  /** bvec_mulfixed: exact modulo two to the width. */
  method MulFixed(e: seq<Dd>, c: nat) returns (res: seq<Dd>)
    requires Good(e)
    ensures |res| == |e| && Good(res)
    ensures forall a: Assign {:trigger Val(res, a)} :: Val(res, a) == Val(e, a) * c % Two(|e|)
    decreases c
  {
    hide Val, Eval;
    if |e| == 0 {
      EmptyVal();
      return [];
    }
    if c == 0 {
      res := Zeros(|e|);
      forall a: Assign ensures Val(res, a) == Val(e, a) * c % Two(|e|) {
        ValZeros(|e|, a);
        ModUnique(0, Two(|e|), 0, 0);
      }
      return;
    }
    var next := Doubled(e);
    var rest := MulFixed(next, c / 2);
    if c % 2 == 1 {
      res := Add(e, rest);
    } else {
      res := rest;
    }
    forall a: Assign ensures Val(res, a) == Val(e, a) * c % Two(|e|) {
      ValBound(e, a);
      assert Val(next, a) == 2 * Val(e, a) % Two(|e|);
      assert Val(rest, a) == Val(next, a) * (c / 2) % Two(|e|);
      HalfStep(Val(e, a), c, Two(|e|));
      assert c % 2 == 1 ==> Val(res, a) == (Val(e, a) + Val(rest, a)) % Two(|e|);
    }
  }

  lemma {:induction false} EmptyVal()
    ensures forall a: Assign {:trigger Val([], a)} :: Val([], a) == 0
  {
  }

  /** v * c by c / 2 of the doubled v, everything modulo m. */
  lemma {:induction false} HalfStep(v: nat, c: nat, m: nat)
    requires 0 < m
    ensures var rest := (2 * v % m) * (c / 2) % m;
            v * c % m == if c % 2 == 1 then (v + rest) % m else rest
  {
    var h := c / 2;
    MulMod(2 * v, h, m);
    Associate(v, 2, h);
    Associate(2, v, h);
    Distribute(v, 2 * h, 1);
    if c % 2 == 1 {
      assert v * c == v + 2 * v * h;
      SameMod(v + 2 * v * h, v + 2 * v * h % m, m, 2 * v * h / m);
    }
  }

  /** The vector with all elements one position up and false at the bottom. */
  method Doubled(e: seq<Dd>) returns (next: seq<Dd>)
    requires Good(e) && e != []
    ensures |next| == |e| && Good(next) && next == [Leaf(false)] + e[..|e| - 1]
    ensures forall a: Assign {:trigger Val(next, a)} :: Val(next, a) == 2 * Val(e, a) % Two(|e|)
  {
    next := Zeros(|e|);
    var n := 1;
    while n < |e|
      invariant 1 <= n <= |e| == |next| && Good(next)
      invariant next[0] == Leaf(false) && forall i {:trigger next[i]} :: 1 <= i < n ==> next[i] == e[i - 1]
    {
      next := next[n := e[n - 1]];
      n := n + 1;
    }
    assert next == Repeat(Leaf(false), 1) + e[..|e| - 1];
    forall a: Assign ensures Val(next, a) == 2 * Val(e, a) % Two(|e|) {
      ShlNear(e, 1, Leaf(false), a);
      assert Two(1) == 2;
    }
  }

  /** Product of left with the n low bits of right, and left at its next place. */
  ghost predicate Multiplied(left: seq<Dd>, right: seq<Dd>, res: seq<Dd>, shifted: seq<Dd>, n: nat)
    requires n <= |right|
  {
    && (forall a: Assign {:trigger Val(res, a)} :: Val(res, a) == Val(left, a) * Val(right[..n], a))
    && (forall a: Assign {:trigger Val(shifted, a)} :: Val(shifted, a) == Val(left, a) * Two(n))
  }

  /** bvec_mul: the full product, as wide as both factors together. */
  method Mul(left: seq<Dd>, right: seq<Dd>) returns (res: seq<Dd>)
    requires Good(left) && Good(right)
    ensures left == [] || right == [] ==> res == []
    ensures left != [] && right != [] ==>
              |res| == |left| + |right| && Good(res) && forall a: Assign {:trigger Val(res, a)} :: Val(res, a) == Val(left, a) * Val(right, a)
  {
    hide Val, Eval, Multiplied;
    var bitnum := |left| + |right|;
    if |left| == 0 || |right| == 0 {
      return [];
    }
    res := Zeros(bitnum);
    var leftshift := Coerce(bitnum, left);
    MultipliedStart(left, right, leftshift);
    var n := 0;
    while n < |right|
      invariant n <= |right| && |res| == bitnum == |leftshift| && Good(res) && Good(leftshift)
      invariant Multiplied(left, right, res, leftshift, n)
    {
      var added := Add(res, leftshift);
      var chosen := IteVec(right[n], added, res);
      var doubled := Doubled(leftshift);
      MultipliedStep(left, right, res, leftshift, n, added, chosen, doubled);
      res := chosen;
      leftshift := doubled;
      n := n + 1;
    }
    MultipliedAll(left, right, res, leftshift);
  }

  lemma {:induction false} MultipliedStart(left: seq<Dd>, right: seq<Dd>, shifted: seq<Dd>)
    requires forall a: Assign {:trigger Val(shifted, a)} :: Val(shifted, a) == Val(left, a) % Two(|left| + |right|)
    ensures Multiplied(left, right, Zeros(|left| + |right|), shifted, 0)
  {
    hide Val, Eval;
    EmptyVal();
    assert right[..0] == [];
    forall a: Assign ensures Val(Zeros(|left| + |right|), a) == Val(left, a) * Val(right[..0], a) {
      ValZeros(|left| + |right|, a);
    }
    forall a: Assign ensures Val(shifted, a) == Val(left, a) * Two(0) {
      ValBound(left, a);
      TwoGrows(|left|, |left| + |right|);
      ModUnique(Val(left, a), Two(|left| + |right|), 0, Val(left, a));
    }
  }

  lemma {:induction false} MultipliedAll(left: seq<Dd>, right: seq<Dd>, res: seq<Dd>, shifted: seq<Dd>)
    requires Multiplied(left, right, res, shifted, |right|)
    ensures forall a: Assign {:trigger Val(res, a)} :: Val(res, a) == Val(left, a) * Val(right, a)
  {
    hide Val, Eval;
    assert right[..|right|] == right;
  }

  lemma {:induction false} MultipliedStep(left: seq<Dd>, right: seq<Dd>, res: seq<Dd>, shifted: seq<Dd>, n: nat, added: seq<Dd>, chosen: seq<Dd>, doubled: seq<Dd>)
    requires n < |right| && Multiplied(left, right, res, shifted, n)
    requires forall a: Assign {:trigger Val(added, a)} :: Val(added, a) == (Val(res, a) + Val(shifted, a)) % Two(|left| + |right|)
    requires forall a: Assign {:trigger Val(chosen, a)} :: Val(chosen, a) == if Eval(right[n], a) then Val(added, a) else Val(res, a)
    requires forall a: Assign {:trigger Val(doubled, a)} :: Val(doubled, a) == 2 * Val(shifted, a) % Two(|left| + |right|)
    ensures Multiplied(left, right, chosen, doubled, n + 1)
  {
    hide Val, Eval, Two;
    forall a: Assign ensures Val(chosen, a) == Val(left, a) * Val(right[..n + 1], a) && Val(doubled, a) == Val(left, a) * Two(n + 1) {
      assert Val(res, a) == Val(left, a) * Val(right[..n], a) && Val(shifted, a) == Val(left, a) * Two(n);
      ProductAt(left, right, n, a, Val(res, a), Val(shifted, a));
    }
  }

  /** One step of it under one assignment. */
  lemma {:induction false} ProductAt(left: seq<Dd>, right: seq<Dd>, n: nat, a: Assign, res: nat, shifted: nat)
    requires n < |right| && res == Val(left, a) * Val(right[..n], a) && shifted == Val(left, a) * Two(n)
    ensures (if Eval(right[n], a) then (res + shifted) % Two(|left| + |right|) else res) == Val(left, a) * Val(right[..n + 1], a)
    ensures 2 * shifted % Two(|left| + |right|) == Val(left, a) * Two(n + 1)
  {
    hide Val, Eval, Two;
    ValTake(right, n, a);
    ValBound(left, a);
    ValBound(right[..n + 1], a);
    var l, r, p := Val(left, a), Val(right[..n], a), Two(n);
    NoOverflow(l, Val(right[..n + 1], a), |left|, n + 1, |right|);
    NoOverflow(l, Two(n + 1) - 1, |left|, n + 1, |right|);
    TwoNext(n);
    Product(l, r, p, Eval(right[n], a), Two(|left| + |right|), Val(right[..n + 1], a));
  }

  lemma {:induction false} TwoNext(n: nat)
    ensures Two(n + 1) == 2 * Two(n)
  {
  }

  lemma {:induction false} NoOverflow(x: nat, y: nat, i: nat, j: nat, k: nat)
    requires x < Two(i) && y < Two(j) && j <= k
    ensures x * y <= x * (y + 1) <= (Two(i) - 1) * Two(k) < Two(i + k)
  {
    hide Two;
    TwoSum(i, k);
    TwoGrows(j, k);
    Ordered(x, y + 1, Two(i) - 1, Two(k));
    Distribute(x, y, 1);
    Distribute(Two(k), Two(i), -1);
  }

  lemma {:induction false} Ordered(x: nat, y: nat, u: nat, v: nat)
    requires x <= u && y <= v
    ensures x * y <= u * v
  {
    assert u * v == x * y + x * (v - y) + (u - x) * v;
  }

  lemma {:induction false} Product(l: nat, r: nat, p: nat, b: bool, m: nat, r': nat)
    requires r' == r + (if b then p else 0) && l * r' < m && l * (2 * p) < m
    ensures (if b then (l * r + l * p) % m else l * r) == l * r' && 2 * (l * p) % m == l * (2 * p)
  {
    Distribute(l, r, p);
    Associate(l, 2, p);
    ModUnique(l * (2 * p), m, 0, l * (2 * p));
    if b { ModUnique(l * r', m, 0, l * r'); }
  }

  /* ---- division by a vector ---- */

  /** The quotient bits from position n - k + 1 up are found; div stands at position n - k. */
  ghost predicate Divided(left: seq<Dd>, right: seq<Dd>, rem: seq<Dd>, res: seq<Dd>, k: nat, a: Assign)
    requires k <= |right| + 1 && |res| == |right|
  {
    var x, y, n := Val(left, a), Val(right, a), |right|;
    && Val(rem, a) + y * Val(res, a) == x
    && (y > 0 ==> Val(rem, a) < y * Two(n - k + 1))
    && (forall i {:trigger res[i]} :: 0 <= i < n && i <= n - k ==> !Eval(res[i], a))
    && (y == 0 ==> forall i {:trigger res[i]} :: 0 <= i < n && n - k < i ==> Eval(res[i], a))
  }

  ghost predicate DividedAll(left: seq<Dd>, right: seq<Dd>, rem: seq<Dd>, res: seq<Dd>, div: seq<Dd>, k: nat)
    requires k <= |right| + 1 && |res| == |right|
  {
    && (forall a: Assign {:trigger Val(rem, a)} :: Divided(left, right, rem, res, k, a))
    && (k <= |right| ==> forall a: Assign {:trigger Val(div, a)} :: Val(div, a) == Val(right, a) * Two(|right| - k))
  }

  /** One bit shifted out at the bottom. */
  method Halved(div: seq<Dd>) returns (res: seq<Dd>)
    requires Good(div) && div != []
    ensures |res| == |div| && Good(res) && forall a: Assign {:trigger Val(res, a)} :: Val(res, a) == Val(div, a) / 2
  {
    res := div;
    var m := 0;
    while m < |div| - 1
      invariant m <= |div| - 1 && |res| == |div| && Good(res)
      invariant forall i {:trigger res[i]} :: 0 <= i < m ==> res[i] == div[i + 1]
      invariant forall i {:trigger res[i]} :: m <= i < |div| ==> res[i] == div[i]
    {
      res := res[m := res[m + 1]];
      m := m + 1;
    }
    res := res[|div| - 1 := Leaf(false)];
    assert res == div[1..] + Zeros(1);
    forall a: Assign ensures Val(res, a) == Val(div, a) / 2 {
      ValPad(div[1..], 1, a);
    }
  }

  lemma {:induction false} ValSetBit(v: seq<Dd>, i: nat, d: Dd, a: Assign)
    requires i < |v| && !Eval(v[i], a)
    ensures Val(v[i := d], a) == Val(v, a) + Place(Eval(d, a), i)
  {
    if i == 0 {
      assert v[0 := d][1..] == v[1..];
    } else {
      ValSetBit(v[1..], i - 1, d, a);
      assert v[i := d][1..] == v[1..][i - 1 := d];
    }
  }

  /** One position of the division, under one assignment. */
  lemma {:induction false} DividedStep(left: seq<Dd>, right: seq<Dd>, rem: seq<Dd>, res: seq<Dd>, k: nat, p: Dd, rem': seq<Dd>, a: Assign)
    requires k <= |right| && |res| == |right| && Divided(left, right, rem, res, k, a)
    requires var d := Val(right, a) * Two(|right| - k);
             Eval(p, a) == (d <= Val(rem, a)) && Val(rem', a) == if Eval(p, a) then Val(rem, a) - d else Val(rem, a)
    requires k == 0 ==> Val(left, a) < Two(|right|)
    ensures Divided(left, right, rem', if k > 0 then res[|right| - k := p] else res, k + 1, a)
  {
    hide Val, Eval, Two;
    var x, y, n := Val(left, a), Val(right, a), |right|;
    TwoNext(n - k);
    Associate(y, 2, Two(n - k));
    if k == 0 {
      TopBit(x, y, Two(n), Val(rem, a), Val(res, a));
    } else {
      ValSetBit(res, n - k, p, a);
      Distribute(y, Val(res, a), Two(n - k));
    }
  }

  /** The first comparison finds a bit only for the divisor zero, and then subtracts nothing. */
  lemma {:induction false} TopBit(x: nat, y: nat, p: nat, rem: nat, res: nat)
    requires x < p && rem + y * res == x
    ensures y > 0 ==> rem < y * p
    ensures y == 0 ==> y * p == 0
  {
    if y > 0 {
      Ordered(1, p, y, p);
      Ordered(0, 0, y, res);
    }
  }

  /**
    bvec_div: quotient and remainder under every assignment that makes the
    divisor nonzero; elsewhere the quotient is all ones and the remainder the
    dividend. Different widths are an error.
  */
  method Div(left: seq<Dd>, right: seq<Dd>) returns (ok: bool, res: seq<Dd>, remainder: seq<Dd>)
    requires Good(left) && Good(right)
    ensures ok == (left != [] && |left| == |right|)
    ensures ok ==> |res| == |left| == |remainder| && Good(res) && Good(remainder)
    ensures ok ==> forall a: Assign {:trigger Val(res, a)} {:trigger Val(remainder, a)} ::
                     if Val(right, a) > 0 then Val(res, a) == Val(left, a) / Val(right, a) && Val(remainder, a) == Val(left, a) % Val(right, a)
                     else Val(res, a) == Two(|left|) - 1 && Val(remainder, a) == Val(left, a)
  {
    hide Val, Eval, DividedAll;
    var bitnum := |left| + |right|;
    if |left| == 0 || |right| == 0 || |left| != |right| {
      return false, [], [];
    }
    ok := true;
    var rem := Coerce(bitnum, left);
    var divtmp := Coerce(bitnum, right);
    var div := ShlFixed(divtmp, |left|, Leaf(false));
    res := Zeros(|right|);
    DividedStart(left, right, rem, divtmp, div);
    var n := 0;
    while n < |right| + 1
      invariant n <= |right| + 1 && |rem| == |div| == bitnum && |res| == |right| && Good(rem) && Good(div) && Good(res)
      invariant DividedAll(left, right, rem, res, div, n)
    {
      var divLteRem := Lte(div, rem);
      var remSubDiv := Sub(rem, div);
      var rem' := IteVec(divLteRem, remSubDiv, rem);
      var div' := Halved(div);
      DividedRound(left, right, rem, res, div, n, divLteRem, remSubDiv, rem', div');
      rem := rem';
      if n > 0 {
        res := res[|right| - n := divLteRem];
      }
      div := div';
      n := n + 1;
    }
    remainder := Coerce(|right|, rem);
    DividedEnd(left, right, rem, res, div, remainder);
  }

  lemma {:induction false} DividedStart(left: seq<Dd>, right: seq<Dd>, rem: seq<Dd>, divtmp: seq<Dd>, div: seq<Dd>)
    requires |left| == |right|
    requires forall a: Assign {:trigger Val(rem, a)} :: Val(rem, a) == Val(left, a) % Two(2 * |left|)
    requires forall a: Assign {:trigger Val(divtmp, a)} :: Val(divtmp, a) == Val(right, a) % Two(2 * |left|)
    requires forall a: Assign {:trigger Val(div, a)} :: Val(div, a) == (Two(|left|) * Val(divtmp, a) + Fill(Eval(Leaf(false), a), |left|)) % Two(2 * |left|)
    ensures DividedAll(left, right, rem, Zeros(|right|), div, 0)
  {
    hide Val, Eval;
    var n := |left|;
    forall a: Assign ensures Divided(left, right, rem, Zeros(n), 0, a) && Val(div, a) == Val(right, a) * Two(n) {
      assert Val(rem, a) == Val(left, a) % Two(2 * n) && Val(divtmp, a) == Val(right, a) % Two(2 * n);
      StartAt(left, right, rem, divtmp, a);
      assert !Eval(Leaf(false), a) by { LeafEval(a); }
      ValBound(right, a);
      TwoSum(n, n);
      Ordered(Two(n), Val(right, a), Two(n), Two(n) - 1);
      Distribute(Two(n), Two(n), -1);
      ModUnique(Two(n) * Val(right, a), Two(2 * n), 0, Two(n) * Val(right, a));
    }
  }

  lemma {:induction false} LeafEval(a: Assign)
    ensures !Eval(Leaf(false), a)
  {
  }

  lemma {:induction false} StartAt(left: seq<Dd>, right: seq<Dd>, rem: seq<Dd>, divtmp: seq<Dd>, a: Assign)
    requires |left| == |right| && Val(rem, a) == Val(left, a) % Two(2 * |left|) && Val(divtmp, a) == Val(right, a) % Two(2 * |left|)
    ensures Divided(left, right, rem, Zeros(|right|), 0, a) && Val(divtmp, a) == Val(right, a)
  {
    hide Val, Two;
    var n := |left|;
    ValZeros(n, a);
    ValBound(left, a);
    ValBound(right, a);
    TwoGrows(n, 2 * n);
    TwoNext(n);
    ModUnique(Val(left, a), Two(2 * n), 0, Val(left, a));
    ModUnique(Val(right, a), Two(2 * n), 0, Val(right, a));
    if Val(right, a) > 0 { Ordered(1, Two(n + 1), Val(right, a), Two(n + 1)); }
    LeafEval(a);
  }

  lemma {:induction false} DividedRound(left: seq<Dd>, right: seq<Dd>, rem: seq<Dd>, res: seq<Dd>, div: seq<Dd>, k: nat, p: Dd, sub: seq<Dd>, rem': seq<Dd>, div': seq<Dd>)
    requires k <= |right| == |left| && |res| == |right| && |rem| == 2 * |left| && DividedAll(left, right, rem, res, div, k)
    requires forall a: Assign {:trigger Eval(p, a)} :: Eval(p, a) == (Val(div, a) <= Val(rem, a))
    requires forall a: Assign {:trigger Val(sub, a)} :: Val(sub, a) == (Val(rem, a) - Val(div, a)) % Two(|rem|)
    requires forall a: Assign {:trigger Val(rem', a)} :: Val(rem', a) == if Eval(p, a) then Val(sub, a) else Val(rem, a)
    requires forall a: Assign {:trigger Val(div', a)} :: Val(div', a) == Val(div, a) / 2
    ensures DividedAll(left, right, rem', if k > 0 then res[|right| - k := p] else res, div', k + 1)
  {
    hide Val, Eval, Divided;
    var n := |right|;
    var res' := if k > 0 then res[n - k := p] else res;
    var k' := k + 1;
    forall a: Assign ensures Divided(left, right, rem', res', k', a) {
      assert Val(rem', a) == if Eval(p, a) then Val(sub, a) else Val(rem, a);
      assert Val(div, a) == Val(right, a) * Two(n - k) && Divided(left, right, rem, res, k, a);
      ValBound(rem, a);
      ValBound(left, a);
      if Eval(p, a) { ModUnique(Val(rem, a) - Val(div, a), Two(|rem|), 0, Val(rem, a) - Val(div, a)); }
      DividedStep(left, right, rem, res, k, p, rem', a);
    }
    if k < n {
      forall a: Assign {:trigger Val(div', a)} ensures Val(div', a) == Val(right, a) * Two(n - (k + 1)) {
        assert Val(div, a) == Val(right, a) * Two(n - k);
        TwoNext(n - k - 1);
        Associate(Val(right, a), 2, Two(n - k - 1));
      }
    }
  }

  lemma {:induction false} DividedEnd(left: seq<Dd>, right: seq<Dd>, rem: seq<Dd>, res: seq<Dd>, div: seq<Dd>, remainder: seq<Dd>)
    requires |left| == |right| == |res| && DividedAll(left, right, rem, res, div, |right| + 1)
    requires forall a: Assign {:trigger Val(remainder, a)} :: Val(remainder, a) == Val(rem, a) % Two(|right|)
    ensures forall a: Assign {:trigger Val(res, a)} {:trigger Val(remainder, a)} ::
              if Val(right, a) > 0 then Val(res, a) == Val(left, a) / Val(right, a) && Val(remainder, a) == Val(left, a) % Val(right, a)
              else Val(res, a) == Two(|left|) - 1 && Val(remainder, a) == Val(left, a)
  {
    hide Val, Eval, Divided;
    forall a: Assign
      ensures if Val(right, a) > 0 then Val(res, a) == Val(left, a) / Val(right, a) && Val(remainder, a) == Val(left, a) % Val(right, a)
              else Val(res, a) == Two(|left|) - 1 && Val(remainder, a) == Val(left, a)
    {
      assert Val(remainder, a) == Val(rem, a) % Two(|right|);
      EndAt(left, right, rem, res, a);
    }
  }

  lemma {:induction false} EndAt(left: seq<Dd>, right: seq<Dd>, rem: seq<Dd>, res: seq<Dd>, a: Assign)
    requires |left| == |right| == |res| && Divided(left, right, rem, res, |right| + 1, a)
    ensures Val(rem, a) < Two(|right|) && Val(rem, a) % Two(|right|) == Val(rem, a)
    ensures if Val(right, a) > 0 then Val(res, a) == Val(left, a) / Val(right, a) && Val(rem, a) == Val(left, a) % Val(right, a)
            else Val(res, a) == Two(|left|) - 1 && Val(rem, a) == Val(left, a)
  {
    hide Val, Eval, Two;
    var x, y, q, r := Val(left, a), Val(right, a), Val(res, a), Val(rem, a);
    ValBound(right, a);
    ValBound(left, a);
    TwoZero();
    if y > 0 {
      QuotientOf(x, y, q, r);
    } else {
      ValOnes(res, a);
      ZeroTimes(y, q);
    }
    ModUnique(r, Two(|right|), 0, r);
  }

  lemma {:induction false} TwoZero()
    ensures Two(0) == 1
  {
  }

  lemma {:induction false} ZeroTimes(y: nat, q: nat)
    ensures y == 0 ==> y * q == 0
  {
  }

  lemma {:induction false} QuotientOf(x: nat, y: nat, q: nat, r: nat)
    requires 0 < y && r + y * q == x && r < y * 1
    ensures q == x / y && r == x % y && r < y
  {
    ModUnique(x, y, q, r);
  }

  lemma {:induction false} ValOnes(v: seq<Dd>, a: Assign)
    requires forall i {:trigger v[i]} :: 0 <= i < |v| ==> Eval(v[i], a)
    ensures Val(v, a) == Two(|v|) - 1
  {
    if v != [] { ValOnes(v[1..], a); }
  }

  /* ---- division by a constant ---- */

  /** Quotient and remainder of x, where a divisor of zero always "fits": j quotient bits, all ones. */
  function Quo(x: nat, d: nat, j: nat): nat { if d == 0 then Two(j) - 1 else x / d }

  function Rem(x: nat, d: nat): (r: nat)
    ensures r <= x
  {
    if d == 0 then x else x % d
  }

  /** Long division, one bit: x with the bit b appended. */
  lemma {:induction false} LongDivision(x: nat, b: nat, d: nat, j: nat)
    requires b <= 1
    ensures var t := 2 * Rem(x, d) + b; var s := d <= t;
            && Quo(2 * x + b, d, j + 1) == 2 * Quo(x, d, j) + (if s then 1 else 0)
            && Rem(2 * x + b, d) == if s then t - d else t
  {
    if d > 0 {
      var q, r := x / d, x % d;
      var t := 2 * r + b;
      Associate(2, q, d);
      if d <= t {
        Distribute(d, 2 * q, 1);
        ModUnique(2 * x + b, d, 2 * q + 1, t - d);
      } else {
        ModUnique(2 * x + b, d, 2 * q, t);
      }
    } else {
      TwoNext(j);
    }
  }

  /** What a register of n bits keeps of x. */
  function Wrap(x: int, n: nat): nat { x % Two(n) }

  /** After j steps: q holds j quotient bits, `result` still carries the rest of e above them. */
  ghost predicate DivisionAt(e: seq<Dd>, divisor: seq<Dd>, rem: seq<Dd>, q: seq<Dd>, j: nat, a: Assign)
    requires j <= |e|
  {
    var n, x, d := |e|, Val(e[|e| - j..], a), Val(divisor, a);
    && Val(q, a) == Quo(x, d, j)
    && Val(rem, a) == if j < n then 2 * Rem(x, d) + Bit(Eval(e[n - 1 - j], a)) else Wrap(2 * Rem(x, d), n)
  }

  ghost predicate Division(e: seq<Dd>, divisor: seq<Dd>, rem: seq<Dd>, result: seq<Dd>, q: seq<Dd>, j: nat) {
    && j <= |e| == |divisor| == |rem| == |result| && |q| == j && 0 < |e|
    && Good(e) && Good(divisor) && Good(rem) && Good(result)
    && result == (if j < |e| then q + [Leaf(false)] + e[..|e| - 1 - j] else q)
    && forall a: Assign {:trigger Val(rem, a)} :: DivisionAt(e, divisor, rem, q, j, a)
  }

  /** One step of bvec_div_rec; the recursion does the other step - 1. */
  method DivRec(divisor: seq<Dd>, rem0: seq<Dd>, result0: seq<Dd>, step: nat, ghost e: seq<Dd>, ghost q: seq<Dd>)
    returns (rem: seq<Dd>, result: seq<Dd>)
    requires 1 <= step <= |e| && Division(e, divisor, rem0, result0, q, |e| - step)
    ensures Division(e, divisor, rem, result, result, |e|)
    decreases step
  {
    hide Val, Eval, DivisionAt;
    var n := |divisor|;
    var isSmaller := Lte(divisor, rem0);
    var newResult := ShlFixed(result0, 1, isSmaller);
    var sub := IteVec(isSmaller, divisor, Zeros(n));
    var tmp := Sub(rem0, sub);
    var newRemainder := ShlFixed(tmp, 1, result0[n - 1]);
    DivisionRound(e, divisor, rem0, result0, q, |e| - step, isSmaller, newResult, sub, tmp, newRemainder);
    if step > 1 {
      rem, result := DivRec(divisor, newRemainder, newResult, step - 1, e, [isSmaller] + q);
    } else {
      rem, result := newRemainder, newResult;
      assert newResult == [isSmaller] + q;
    }
  }

  lemma {:induction false} DivisionRound(e: seq<Dd>, divisor: seq<Dd>, rem: seq<Dd>, result: seq<Dd>, q: seq<Dd>, j: nat,
                      s: Dd, result': seq<Dd>, sub: seq<Dd>, tmp: seq<Dd>, rem': seq<Dd>)
    requires j < |e| && Division(e, divisor, rem, result, q, j) && Robdd(s) && |rem'| == |e| == |result'| && Good(rem') && Good(result')
    requires forall a: Assign {:trigger Eval(s, a)} :: Eval(s, a) == (Val(divisor, a) <= Val(rem, a))
    requires result' == Repeat(s, 1) + result[..|e| - 1]
    requires forall a: Assign {:trigger Val(sub, a)} :: Val(sub, a) == if Eval(s, a) then Val(divisor, a) else Val(Zeros(|e|), a)
    requires forall a: Assign {:trigger Val(tmp, a)} :: Val(tmp, a) == (Val(rem, a) - Val(sub, a)) % Two(|e|)
    requires forall a: Assign {:trigger Val(rem', a)} :: Val(rem', a) == (Two(1) * Val(tmp, a) + Fill(Eval(result[|e| - 1], a), 1)) % Two(|e|)
    ensures Division(e, divisor, rem', result', [s] + q, j + 1)
  {
    hide Val, Eval, DivisionAt;
    var n := |e|;
    assert result' == if j + 1 < n then ([s] + q) + [Leaf(false)] + e[..n - 2 - j] else [s] + q by {
      if j + 1 < n { assert result[..n - 1] == q + [Leaf(false)] + e[..n - 2 - j]; } else { assert result[..n - 1] == q; }
    }
    TopElement(e, q, j);
    var q', j', top := [s] + q, j + 1, result[n - 1];
    forall a: Assign ensures DivisionAt(e, divisor, rem', q', j', a) {
      assert Val(rem', a) == (Two(1) * Val(tmp, a) + Fill(Eval(result[n - 1], a), 1)) % Two(n);
      assert Val(tmp, a) == (Val(rem, a) - Val(sub, a)) % Two(n);
      assert Val(sub, a) == if Eval(s, a) then Val(divisor, a) else Val(Zeros(n), a);
      ValZeros(n, a);
      OneShift(Val(tmp, a), Eval(top, a));
      RoundAt(e, divisor, rem, q, j, s, sub, tmp, top, rem', a);
    }
  }

  lemma {:induction false} RoundAt(e: seq<Dd>, divisor: seq<Dd>, rem: seq<Dd>, q: seq<Dd>, j: nat, s: Dd, sub: seq<Dd>, tmp: seq<Dd>, top: Dd, rem': seq<Dd>, a: Assign)
    requires j < |e| && |q| == j && DivisionAt(e, divisor, rem, q, j, a)
    requires top == if j + 1 < |e| then e[|e| - 2 - j] else Leaf(false)
    requires Eval(s, a) == (Val(divisor, a) <= Val(rem, a))
    requires Val(sub, a) == if Eval(s, a) then Val(divisor, a) else 0
    requires Val(tmp, a) == Wrap(Val(rem, a) - Val(sub, a), |e|)
    requires Val(rem', a) == Wrap(2 * Val(tmp, a) + Bit(Eval(top, a)), |e|)
    ensures DivisionAt(e, divisor, rem', [s] + q, j + 1, a)
  {
    hide Val, Eval, Two, Quo, Rem, Wrap;
    var n, d := |e|, Val(divisor, a);
    var x, b := Val(e[n - j..], a), Bit(Eval(e[n - 1 - j], a));
    TopBits(e, j, a);
    ValBound(e[n - j - 1..], a);
    ConsVal(s, q, a);
    LeafEval(a);
    RoundNumbers(n, j, x, b, Bit(Eval(top, a)), d, Val(q, a), Val(rem, a), Val(sub, a), Val(tmp, a), Val(rem', a), Eval(s, a));
  }

  /** The element shifted from the quotient register into the remainder register. */
  lemma {:induction false} TopElement(e: seq<Dd>, q: seq<Dd>, j: nat)
    requires j < |e| && |q| == j
    ensures (q + [Leaf(false)] + e[..|e| - 1 - j])[|e| - 1] == if j + 1 < |e| then e[|e| - 2 - j] else Leaf(false)
  {
  }

  lemma {:induction false} OneShift(t: nat, c: bool)
    ensures Two(1) * t + Fill(c, 1) == 2 * t + Bit(c)
  {
    assert Two(1) == 2 && Two(0) == 1;
  }

  lemma {:induction false} RoundNumbers(n: nat, j: nat, x: nat, b: nat, b': nat, d: nat, q: nat, rem: nat, sub: nat, tmp: nat, rem': nat, s: bool)
    requires j < n && b <= 1 && b' <= 1 && 2 * x + b < Two(j + 1) && (j + 1 == n ==> b' == 0)
    requires q == Quo(x, d, j) && rem == 2 * Rem(x, d) + b && s == (d <= rem) && sub == (if s then d else 0)
    requires tmp == Wrap(rem - sub, n) && rem' == Wrap(2 * tmp + b', n)
    ensures (if s then 1 else 0) + 2 * q == Quo(2 * x + b, d, j + 1)
    ensures rem' == if j + 1 < n then 2 * Rem(2 * x + b, d) + b' else Wrap(2 * Rem(2 * x + b, d), n)
  {
    hide Two, Quo, Rem;
    LongDivision(x, b, d, j);
    Registers(n, j, rem, sub, Rem(2 * x + b, d), tmp, b');
  }

  /** Neither register overflows before the last step. */
  lemma {:induction false} Registers(n: nat, j: nat, rem: nat, sub: nat, r: nat, tmp: nat, b: nat)
    requires j < n && r < Two(j + 1) && rem - sub == r && tmp == (rem - sub) % Two(n) && b <= 1
    ensures tmp == r && (j + 1 < n ==> (2 * tmp + b) % Two(n) == 2 * r + b)
  {
    TwoGrows(j + 1, n);
    hide Two;
    ModUnique(rem - sub, Two(n), 0, r);
    if j + 1 < n {
      TwoNext(j + 1);
      TwoGrows(j + 2, n);
      ModUnique(2 * r + b, Two(n), 0, 2 * r + b);
    }
  }

  lemma {:induction false} TwoOne()
    ensures Two(1) == 2 && Two(0) == 1
  {
  }

  lemma {:induction false} ConsVal(s: Dd, q: seq<Dd>, a: Assign)
    ensures Val([s] + q, a) == Bit(Eval(s, a)) + 2 * Val(q, a)
  {
    assert ([s] + q)[1..] == q;
  }

  /** The top j + 1 bits are the top j bits with one more below. */
  lemma {:induction false} TopBits(e: seq<Dd>, j: nat, a: Assign)
    requires j < |e|
    ensures Val(e[|e| - j - 1..], a) == Bit(Eval(e[|e| - 1 - j], a)) + 2 * Val(e[|e| - j..], a)
  {
    var n := |e|;
    assert e[n - j - 1..] == [e[n - 1 - j]] + e[n - j..];
    ConsVal(e[n - 1 - j], e[n - j..], a);
  }

  /**
    bvec_divfixed: the constant is cut to the width of the vector; the
    remainder comes out of a register that is one bit too short and loses its
    top bit.
  */
  method DivFixed(e: seq<Dd>, c: int) returns (ok: bool, res: seq<Dd>, rem: seq<Dd>)
    requires Good(e) && e != []
    ensures ok == (c > 0)
    ensures ok ==> |res| == |e| == |rem| && Good(res) && Good(rem)
    ensures ok ==> forall a: Assign {:trigger Val(res, a)} {:trigger Val(rem, a)} ::
                     && Val(res, a) == Quo(Val(e, a), c % Two(|e|), |e|)
                     && Val(rem, a) == Rem(Val(e, a), c % Two(|e|)) % Two(|e| - 1)
  {
    hide Val, Eval;
    if c > 0 {
      ok := true;
      var n := |e|;
      var divisor := Con(n, c);
      var tmp := Zeros(n);
      var tmpremainder := ShlFixed(tmp, 1, e[n - 1]);
      var result := ShlFixed(e, 1, Leaf(false));
      DivisionStart(e, divisor, c, tmpremainder, result);
      var r;
      r, res := DivRec(divisor, tmpremainder, result, n, e, []);
      rem := ShrFixed(r, 1, Leaf(false));
      DivisionEnd(e, divisor, c, r, res, rem);
      return;
    }
    return false, [], [];
  }

  lemma {:induction false} DivisionStart(e: seq<Dd>, divisor: seq<Dd>, c: nat, rem: seq<Dd>, result: seq<Dd>)
    requires 0 < |e| == |divisor| == |rem| == |result| && Good(e) && Good(divisor) && Good(rem) && Good(result)
    requires result == Repeat(Leaf(false), 1) + e[..|e| - 1]
    requires forall a: Assign {:trigger Val(rem, a)} :: Val(rem, a) == (Two(1) * Val(Zeros(|e|), a) + Fill(Eval(e[|e| - 1], a), 1)) % Two(|e|)
    ensures Division(e, divisor, rem, result, [], 0)
  {
    hide Val, Eval, DivisionAt;
    var n := |e|;
    assert result == [] + [Leaf(false)] + e[..n - 1];
    var q: seq<Dd>, j: nat := [], 0;
    forall a: Assign ensures DivisionAt(e, divisor, rem, q, j, a) {
      assert Val(rem, a) == (Two(1) * Val(Zeros(n), a) + Fill(Eval(e[n - 1], a), 1)) % Two(n);
      DivisionStartAt(e, divisor, rem, a);
    }
  }

  lemma {:induction false} DivisionStartAt(e: seq<Dd>, divisor: seq<Dd>, rem: seq<Dd>, a: Assign)
    requires 0 < |e| && Val(rem, a) == (Two(1) * Val(Zeros(|e|), a) + Fill(Eval(e[|e| - 1], a), 1)) % Two(|e|)
    ensures DivisionAt(e, divisor, rem, [], 0, a)
  {
    hide Val, Eval, Two, Quo, Rem;
    var n := |e|;
    assert e[n..] == [];
    EmptyVal();
    TwoOne();
    ValZeros(n, a);
    TwoGrows(1, n);
    ModUnique(Bit(Eval(e[n - 1], a)), Two(n), 0, Bit(Eval(e[n - 1], a)));
    ZeroParts(Val(divisor, a));
  }

  lemma {:induction false} ZeroParts(d: nat)
    ensures Rem(0, d) == 0 && Quo(0, d, 0) == 0
  {
  }

  lemma {:induction false} DivisionEnd(e: seq<Dd>, divisor: seq<Dd>, c: nat, r: seq<Dd>, res: seq<Dd>, rem: seq<Dd>)
    requires Division(e, divisor, r, res, res, |e|)
    requires forall a: Assign {:trigger Val(divisor, a)} :: Val(divisor, a) == c % Two(|e|)
    requires forall a: Assign {:trigger Val(rem, a)} :: Val(rem, a) == Val(r, a) / Two(1) + Two(|e| - 1) * Fill(Eval(Leaf(false), a), 1)
    ensures forall a: Assign {:trigger Val(res, a)} {:trigger Val(rem, a)} ::
              && Val(res, a) == Quo(Val(e, a), c % Two(|e|), |e|)
              && Val(rem, a) == Rem(Val(e, a), c % Two(|e|)) % Two(|e| - 1)
  {
    hide Val, Eval;
    assert e[0..] == e;
    forall a: Assign
      ensures Val(res, a) == Quo(Val(e, a), c % Two(|e|), |e|)
      ensures Val(rem, a) == Rem(Val(e, a), c % Two(|e|)) % Two(|e| - 1)
    {
      assert Val(rem, a) == Val(r, a) / Two(1) + Two(|e| - 1) * Fill(Eval(Leaf(false), a), 1);
      assert Val(divisor, a) == c % Two(|e|) && DivisionAt(e, divisor, r, res, |e|, a);
      LeafEval(a);
      TwoOne();
      HalfMod(Rem(Val(e, a), c % Two(|e|)), |e|);
    }
  }

  lemma {:induction false} HalfMod(r: nat, n: nat)
    requires 0 < n
    ensures (2 * r % Two(n)) / 2 == r % Two(n - 1)
  {
    var m := Two(n - 1);
    Associate(2, r / m, m);
    ModUnique(2 * r, Two(n), r / m, 2 * (r % m));
  }

  /** The constants for which bvec_divfixed is exact on every vector of n bits: those that fit below the top bit. */
  lemma {:induction false} DivFixedExact(c: nat, n: nat)
    requires 0 < c && 0 < n
    ensures c <= Two(n - 1) <==>
            forall x: nat {:trigger Quo(x, c % Two(n), n)} :: x < Two(n) ==> Quo(x, c % Two(n), n) == x / c && Rem(x, c % Two(n)) % Two(n - 1) == x % c
  {
    hide Quo, Rem;
    TwoNext(n - 1);
    if c <= Two(n - 1) {
      ModUnique(c, Two(n), 0, c);
      forall x: nat | x < Two(n) ensures Quo(x, c % Two(n), n) == x / c && Rem(x, c % Two(n)) % Two(n - 1) == x % c {
        SmallDivisor(x, c, n);
      }
    } else {
      var x := LargeDivisor(c, n);
      assert Quo(x, c % Two(n), n) == Quo(x, c % Two(n), n);
    }
  }

  lemma {:induction false} SmallDivisor(x: nat, c: nat, n: nat)
    requires 0 < n && 0 < c <= Two(n - 1)
    ensures Quo(x, c, n) == x / c && Rem(x, c) % Two(n - 1) == x % c
  {
    ModUnique(x % c, Two(n - 1), 0, x % c);
  }

  /** With a larger constant the number 2^(n-1), smaller than the constant, loses its top bit in the remainder. */
  lemma {:induction false} LargeDivisor(c: nat, n: nat) returns (x: nat)
    requires 0 < n && Two(n - 1) < c
    ensures x < Two(n) && !(Quo(x, c % Two(n), n) == x / c && Rem(x, c % Two(n)) % Two(n - 1) == x % c)
  {
    var h := Two(n - 1);
    TwoNext(n - 1);
    x := h;
    ModUnique(h, c, 0, h);
  }
}
