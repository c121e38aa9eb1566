/**
  bvec.c: arithmetic on vectors of Boolean functions, least significant bit
  first. Every operation is stated by the number a vector encodes under an
  arbitrary assignment.
*/
module Bvec {
  import opened Dd
  import opened DdOps
  import opened Number

  /** The number v encodes under a. */
  function Val(v: seq<Dd>, a: Assign): nat {
    if v == [] then 0 else Bit(Eval(v[0], a)) + 2 * Val(v[1..], a)
  }

  /** All elements are diagrams of the table. */
  predicate Good(v: seq<Dd>) {
    forall i {:trigger v[i]} :: 0 <= i < |v| ==> Robdd(v[i])
  }

  lemma {:induction false} ValBound(v: seq<Dd>, a: Assign)
    ensures Val(v, a) < Two(|v|)
  {
    if v != [] { ValBound(v[1..], a); }
  }

  /** What is so encoded: bit i of the number is element i. */
  lemma {:induction false} ValBit(v: seq<Dd>, i: nat, a: Assign)
    requires i < |v|
    ensures Eval(v[i], a) <==> Val(v, a) / Two(i) % 2 == 1
  {
    hide Val, Two;
    ValFirst(v, a);
    if i == 0 {
      LowBit(Bit(Eval(v[0], a)), Val(v[1..], a));
    } else {
      ValBit(v[1..], i - 1, a);
      HalfAgain(Bit(Eval(v[0], a)), Val(v[1..], a), i - 1);
    }
  }

  lemma ValFirst(v: seq<Dd>, a: Assign)
    requires v != []
    ensures Val(v, a) == Bit(Eval(v[0], a)) + 2 * Val(v[1..], a)
  {
  }

  lemma LowBit(b: nat, x: nat)
    requires b < 2
    ensures (b + 2 * x) / Two(0) % 2 == b
  {
    ModUnique(b + 2 * x, 2, x, b);
  }

  lemma {:induction false} HalfAgain(b: nat, x: nat, i: nat)
    requires b < 2
    ensures (b + 2 * x) / Two(i + 1) == x / Two(i)
  {
    var t := Two(i);
    assert Two(i + 1) == 2 * t;
    hide Two;
    assert x == x / t * t + x % t;
    ModUnique(b + 2 * x, 2 * t, x / t, b + 2 * (x % t));
  }

  /** A bit at position n. */
  function Place(x: bool, n: nat): nat { if x then Two(n) else 0 }

  lemma {:induction false} ValSnoc(v: seq<Dd>, d: Dd, a: Assign)
    ensures Val(v + [d], a) == Val(v, a) + Place(Eval(d, a), |v|)
  {
    if v != [] {
      ValSnoc(v[1..], d, a);
      assert (v + [d])[1..] == v[1..] + [d];
    }
  }

  lemma {:induction false} ValTake(v: seq<Dd>, n: nat, a: Assign)
    requires n < |v|
    ensures Val(v[..n + 1], a) == Val(v[..n], a) + Place(Eval(v[n], a), n)
  {
    assert v[..n + 1] == v[..n] + [v[n]];
    ValSnoc(v[..n], v[n], a);
  }

  lemma {:induction false} ValSame(v: seq<Dd>, w: seq<Dd>, a: Assign)
    requires |v| == |w| && forall i {:trigger v[i]} {:trigger w[i]} :: 0 <= i < |v| ==> Eval(v[i], a) == Eval(w[i], a)
    ensures Val(v, a) == Val(w, a)
  {
    if v != [] {
      forall i | 0 <= i < |v[1..]| ensures Eval(v[1..][i], a) == Eval(w[1..][i], a) {
        assert v[1..][i] == v[i + 1] && w[1..][i] == w[i + 1];
      }
      ValSame(v[1..], w[1..], a);
    }
  }

  /** bvec_build with false. */
  function Zeros(n: nat): (v: seq<Dd>)
    ensures |v| == n && Good(v)
  {
    seq(n, _ => Leaf(false))
  }

  lemma {:induction false} ValZeros(n: nat, a: Assign)
    ensures Val(Zeros(n), a) == 0
  {
    if n != 0 {
      ValZeros(n - 1, a);
      assert Zeros(n)[1..] == Zeros(n - 1);
    }
  }

  /* ---- addition and subtraction ---- */

  function And(x: Dd, y: Dd): (r: Dd)
    requires Robdd(x) && Robdd(y)
    ensures Robdd(r) && forall a: Assign {:trigger Eval(r, a)} :: Eval(r, a) == (Eval(x, a) && Eval(y, a))
  {
    ApplyMeans(AND, x, y);
    Apply(AND, x, y)
  }

  function Or(x: Dd, y: Dd): (r: Dd)
    requires Robdd(x) && Robdd(y)
    ensures Robdd(r) && forall a: Assign {:trigger Eval(r, a)} :: Eval(r, a) == (Eval(x, a) || Eval(y, a))
  {
    ApplyMeans(OR, x, y);
    Apply(OR, x, y)
  }

  function Xor(x: Dd, y: Dd): (r: Dd)
    requires Robdd(x) && Robdd(y)
    ensures Robdd(r) && forall a: Assign {:trigger Eval(r, a)} :: Eval(r, a) == (Eval(x, a) != Eval(y, a))
  {
    ApplyMeans(XOR, x, y);
    Apply(XOR, x, y)
  }

  function Less(x: Dd, y: Dd): (r: Dd)
    requires Robdd(x) && Robdd(y)
    ensures Robdd(r) && forall a: Assign {:trigger Eval(r, a)} :: Eval(r, a) == (!Eval(x, a) && Eval(y, a))
  {
    ApplyMeans(LESS, x, y);
    Apply(LESS, x, y)
  }

  function Biimp(x: Dd, y: Dd): (r: Dd)
    requires Robdd(x) && Robdd(y)
    ensures Robdd(r) && forall a: Assign {:trigger Eval(r, a)} :: Eval(r, a) == (Eval(x, a) == Eval(y, a))
  {
    ApplyMeans(BIIMP, x, y);
    Apply(BIIMP, x, y)
  }

  /** One position of bvec_add. */
  method AddBit(l: Dd, r: Dd, c: Dd) returns (s: Dd, c': Dd)
    requires Robdd(l) && Robdd(r) && Robdd(c)
    ensures Robdd(s) && Robdd(c')
    ensures forall a: Assign {:trigger Eval(s, a)} {:trigger Eval(c', a)} :: Bit(Eval(s, a)) + 2 * Bit(Eval(c', a)) == Bit(Eval(l, a)) + Bit(Eval(r, a)) + Bit(Eval(c, a))
  {
    hide And, Or, Xor, Eval, Robdd;
    s := Xor(Xor(l, r), c);
    c' := Or(And(l, r), And(c, Or(l, r)));
  }

  /** One position of bvec_sub: c is the borrow. */
  method SubBit(l: Dd, r: Dd, c: Dd) returns (s: Dd, c': Dd)
    requires Robdd(l) && Robdd(r) && Robdd(c)
    ensures Robdd(s) && Robdd(c')
    ensures forall a: Assign {:trigger Eval(s, a)} {:trigger Eval(c', a)} :: Bit(Eval(s, a)) - 2 * Bit(Eval(c', a)) == Bit(Eval(l, a)) - Bit(Eval(r, a)) - Bit(Eval(c, a))
  {
    hide And, Or, Xor, Less, Eval, Robdd;
    s := Xor(Xor(l, r), c);
    c' := Or(And(And(l, r), c), Less(l, Or(r, c)));
  }

  /** Sum so far, with the carry above it. */
  ghost predicate Added(l: seq<Dd>, r: seq<Dd>, res: seq<Dd>, c: Dd, n: nat)
    requires n <= |l| && n <= |r| && n <= |res|
  {
    forall a: Assign {:trigger Eval(c, a)} {:trigger Val(res[..n], a)} :: Val(res[..n], a) + Place(Eval(c, a), n) == Val(l[..n], a) + Val(r[..n], a)
  }

  lemma {:induction false} AddedStep(l: seq<Dd>, r: seq<Dd>, res: seq<Dd>, c: Dd, n: nat, s: Dd, c': Dd)
    requires n < |l| && n < |r| && n < |res| && Added(l, r, res, c, n)
    requires forall a: Assign {:trigger Eval(c', a)} :: Bit(Eval(s, a)) + 2 * Bit(Eval(c', a)) == Bit(Eval(l[n], a)) + Bit(Eval(r[n], a)) + Bit(Eval(c, a))
    ensures Added(l, r, res[n := s], c', n + 1)
  {
    hide Eval, Val;
    var res' := res[n := s];
    forall a: Assign ensures Val(res'[..n + 1], a) + Place(Eval(c', a), n + 1) == Val(l[..n + 1], a) + Val(r[..n + 1], a) {
      ValTake(l, n, a);
      ValTake(r, n, a);
      ValTake(res', n, a);
      assert res'[..n] == res[..n];
      assert Val(res[..n], a) + Place(Eval(c, a), n) == Val(l[..n], a) + Val(r[..n], a);
    }
  }

  /** bvec_add: the sum modulo two to the width; vectors of different widths are an error. */
  method Add(l: seq<Dd>, r: seq<Dd>) returns (res: seq<Dd>)
    requires Good(l) && Good(r)
    ensures |l| != |r| ==> res == []
    ensures |l| == |r| ==> |res| == |l| && Good(res) && forall a: Assign {:trigger Val(res, a)} :: Val(res, a) == (Val(l, a) + Val(r, a)) % Two(|l|)
  {
    if |l| == 0 || |r| == 0 {
      return [];
    }
    if |l| != |r| {
      return [];
    }
    res := Zeros(|l|);
    var c := Leaf(false);
    var n := 0;
    while n < |res|
      invariant n <= |res| == |l| && Good(res) && Robdd(c) && Added(l, r, res, c, n)
    {
      var s, c' := AddBit(l[n], r[n], c);
      AddedStep(l, r, res, c, n, s, c');
      res := res[n := s];
      c := c';
      n := n + 1;
    }
    AddedAll(l, r, res, c);
  }

  lemma {:induction false} CarryMod(x: int, m: nat, q: int, r: nat)
    requires r < m && -1 <= q <= 1 && x == if q == 1 then r + m else if q == 0 then r else r - m
    ensures x % m == r
  {
    assert q * m == if q == 1 then m else if q == 0 then 0 else 0 - m;
    ModUnique(x, m, q, r);
  }

  lemma {:induction false} AddedAll(l: seq<Dd>, r: seq<Dd>, res: seq<Dd>, c: Dd)
    requires |l| == |r| == |res| && Added(l, r, res, c, |l|)
    ensures forall a: Assign {:trigger Val(res, a)} :: Val(res, a) == (Val(l, a) + Val(r, a)) % Two(|l|)
  {
    hide Val, Eval, Added, Two;
    forall a: Assign ensures Val(res, a) == (Val(l, a) + Val(r, a)) % Two(|l|) {
      ValBound(res, a);
      AddedAt(l, r, res, c, a);
      CarryMod(Val(l, a) + Val(r, a), Two(|l|), if Eval(c, a) then 1 else 0, Val(res, a));
    }
  }

  lemma {:induction false} AddedAt(l: seq<Dd>, r: seq<Dd>, res: seq<Dd>, c: Dd, a: Assign)
    requires |l| == |r| == |res| && Added(l, r, res, c, |l|)
    ensures Val(res, a) + Place(Eval(c, a), |l|) == Val(l, a) + Val(r, a)
  {
    hide Val, Eval;
    assert res[..|l|] == res && l[..|l|] == l && r[..|l|] == r;
    assert Val(res[..|l|], a) + Place(Eval(c, a), |l|) == Val(l[..|l|], a) + Val(r[..|l|], a);
  }

  /** Difference so far, with the borrow above it. */
  ghost predicate Subtracted(l: seq<Dd>, r: seq<Dd>, res: seq<Dd>, c: Dd, n: nat)
    requires n <= |l| && n <= |r| && n <= |res|
  {
    forall a: Assign {:trigger Eval(c, a)} {:trigger Val(res[..n], a)} :: Val(res[..n], a) - Place(Eval(c, a), n) == Val(l[..n], a) - Val(r[..n], a)
  }

  lemma {:induction false} SubtractedStep(l: seq<Dd>, r: seq<Dd>, res: seq<Dd>, c: Dd, n: nat, s: Dd, c': Dd)
    requires n < |l| && n < |r| && n < |res| && Subtracted(l, r, res, c, n)
    requires forall a: Assign {:trigger Eval(c', a)} :: Bit(Eval(s, a)) - 2 * Bit(Eval(c', a)) == Bit(Eval(l[n], a)) - Bit(Eval(r[n], a)) - Bit(Eval(c, a))
    ensures Subtracted(l, r, res[n := s], c', n + 1)
  {
    hide Eval, Val;
    var res' := res[n := s];
    forall a: Assign ensures Val(res'[..n + 1], a) - Place(Eval(c', a), n + 1) == Val(l[..n + 1], a) - Val(r[..n + 1], a) {
      ValTake(l, n, a);
      ValTake(r, n, a);
      ValTake(res', n, a);
      assert res'[..n] == res[..n];
      assert Val(res[..n], a) - Place(Eval(c, a), n) == Val(l[..n], a) - Val(r[..n], a);
    }
  }

  /** bvec_sub: the difference modulo two to the width. */
  method Sub(l: seq<Dd>, r: seq<Dd>) returns (res: seq<Dd>)
    requires Good(l) && Good(r)
    ensures |l| != |r| ==> res == []
    ensures |l| == |r| ==> |res| == |l| && Good(res) && forall a: Assign {:trigger Val(res, a)} :: Val(res, a) == (Val(l, a) - Val(r, a)) % Two(|l|)
  {
    if |l| == 0 || |r| == 0 {
      return [];
    }
    if |l| != |r| {
      return [];
    }
    res := Zeros(|l|);
    var c := Leaf(false);
    var n := 0;
    while n < |res|
      invariant n <= |res| == |l| && Good(res) && Robdd(c) && Subtracted(l, r, res, c, n)
    {
      var s, c' := SubBit(l[n], r[n], c);
      SubtractedStep(l, r, res, c, n, s, c');
      res := res[n := s];
      c := c';
      n := n + 1;
    }
    SubtractedAll(l, r, res, c);
  }

  lemma {:induction false} SubtractedAll(l: seq<Dd>, r: seq<Dd>, res: seq<Dd>, c: Dd)
    requires |l| == |r| == |res| && Subtracted(l, r, res, c, |l|)
    ensures forall a: Assign {:trigger Val(res, a)} :: Val(res, a) == (Val(l, a) - Val(r, a)) % Two(|l|)
  {
    hide Val, Eval, Subtracted, Two;
    forall a: Assign ensures Val(res, a) == (Val(l, a) - Val(r, a)) % Two(|l|) {
      ValBound(res, a);
      SubtractedAt(l, r, res, c, a);
      CarryMod(Val(l, a) - Val(r, a), Two(|l|), if Eval(c, a) then -1 else 0, Val(res, a));
    }
  }

  lemma {:induction false} SubtractedAt(l: seq<Dd>, r: seq<Dd>, res: seq<Dd>, c: Dd, a: Assign)
    requires |l| == |r| == |res| && Subtracted(l, r, res, c, |l|)
    ensures Val(res, a) - Place(Eval(c, a), |l|) == Val(l, a) - Val(r, a)
  {
    hide Val, Eval;
    assert res[..|l|] == res && l[..|l|] == l && r[..|l|] == r;
    assert Val(res[..|l|], a) - Place(Eval(c, a), |l|) == Val(l[..|l|], a) - Val(r[..|l|], a);
  }

  /* ---- comparisons ---- */

  /** p compares the n low bits. */
  ghost predicate Below(l: seq<Dd>, r: seq<Dd>, p: Dd, n: nat, strict: bool)
    requires n <= |l| && n <= |r|
  {
    forall a: Assign {:trigger Eval(p, a)} :: Eval(p, a) == if strict then Val(l[..n], a) < Val(r[..n], a) else Val(l[..n], a) <= Val(r[..n], a)
  }

  /** The top bit decides, unless it is the same. */
  method CompareBit(l: Dd, r: Dd, p: Dd) returns (p': Dd)
    requires Robdd(l) && Robdd(r) && Robdd(p)
    ensures Robdd(p') && forall a: Assign {:trigger Eval(p', a)} :: Eval(p', a) == if Eval(l, a) == Eval(r, a) then Eval(p, a) else Eval(r, a)
  {
    hide And, Or, Less, Biimp, Eval, Robdd;
    var tmp1 := Less(l, r);
    var tmp2 := Biimp(l, r);
    var tmp3 := And(tmp2, p);
    p' := Or(tmp1, tmp3);
  }

  lemma {:induction false} BelowStep(l: seq<Dd>, r: seq<Dd>, p: Dd, n: nat, strict: bool, p': Dd)
    requires n < |l| && n < |r| && Below(l, r, p, n, strict)
    requires forall a: Assign {:trigger Eval(p', a)} :: Eval(p', a) == if Eval(l[n], a) == Eval(r[n], a) then Eval(p, a) else Eval(r[n], a)
    ensures Below(l, r, p', n + 1, strict)
  {
    hide Eval, Val;
    forall a: Assign
      ensures Eval(p', a) == if strict then Val(l[..n + 1], a) < Val(r[..n + 1], a) else Val(l[..n + 1], a) <= Val(r[..n + 1], a)
    {
      ValTake(l, n, a);
      ValTake(r, n, a);
      ValBound(l[..n], a);
      ValBound(r[..n], a);
      assert Eval(p, a) == if strict then Val(l[..n], a) < Val(r[..n], a) else Val(l[..n], a) <= Val(r[..n], a);
    }
  }

  /** The loop of bvec_lth (p false) and bvec_lte (p true). */
  method Compare(l: seq<Dd>, r: seq<Dd>, strict: bool) returns (p: Dd)
    requires Good(l) && Good(r) && |l| == |r|
    ensures Robdd(p) && Below(l, r, p, |l|, strict)
  {
    p := Leaf(!strict);
    var n := 0;
    while n < |l|
      invariant n <= |l| && Robdd(p) && Below(l, r, p, n, strict)
    {
      var p' := CompareBit(l[n], r[n], p);
      BelowStep(l, r, p, n, strict, p');
      p := p';
      n := n + 1;
    }
  }

  /** bvec_lth; a vector without bits or of another width gives false. */
  method Lth(l: seq<Dd>, r: seq<Dd>) returns (p: Dd)
    requires Good(l) && Good(r)
    ensures Robdd(p) && (|l| != |r| || l == [] ==> p == Leaf(false))
    ensures |l| == |r| && l != [] ==> forall a: Assign {:trigger Eval(p, a)} :: Eval(p, a) == (Val(l, a) < Val(r, a))
  {
    if |l| == 0 || |r| == 0 {
      return Leaf(false);
    }
    if |l| != |r| {
      return Leaf(false);
    }
    p := Compare(l, r, true);
    assert l[..|l|] == l && r[..|l|] == r;
  }

  /** bvec_lte; without bits it gives false, of another width its initial value true. */
  method Lte(l: seq<Dd>, r: seq<Dd>) returns (p: Dd)
    requires Good(l) && Good(r)
    ensures Robdd(p) && (l == [] || r == [] ==> p == Leaf(false)) && (l != [] && r != [] && |l| != |r| ==> p == Leaf(true))
    ensures |l| == |r| && l != [] ==> forall a: Assign {:trigger Eval(p, a)} :: Eval(p, a) == (Val(l, a) <= Val(r, a))
  {
    if |l| == 0 || |r| == 0 {
      return Leaf(false);
    }
    if |l| != |r| {
      return Leaf(true);
    }
    p := Compare(l, r, false);
    assert l[..|l|] == l && r[..|l|] == r;
  }

  /** bvec_gth: without bits it gives true, of another width false. */
  method Gth(l: seq<Dd>, r: seq<Dd>) returns (p: Dd)
    requires Good(l) && Good(r)
    ensures Robdd(p)
    ensures (l == [] || r == [] ==> p == Leaf(true)) && (l != [] && r != [] && |l| != |r| ==> p == Leaf(false))
    ensures |l| == |r| && l != [] ==> forall a: Assign {:trigger Eval(p, a)} :: Eval(p, a) == (Val(l, a) > Val(r, a))
  {
    var tmp := Lte(l, r);
    NotMeans(tmp);
    p := Not(tmp);
  }

  /** bvec_gte: without bits or of another width it gives true. */
  method Gte(l: seq<Dd>, r: seq<Dd>) returns (p: Dd)
    requires Good(l) && Good(r)
    ensures Robdd(p)
    ensures |l| != |r| || l == [] ==> p == Leaf(true)
    ensures |l| == |r| && l != [] ==> forall a: Assign {:trigger Eval(p, a)} :: Eval(p, a) == (Val(l, a) >= Val(r, a))
  {
    var tmp := Lth(l, r);
    NotMeans(tmp);
    p := Not(tmp);
  }

  ghost predicate SameLow(l: seq<Dd>, r: seq<Dd>, p: Dd, n: nat)
    requires n <= |l| && n <= |r|
  {
    forall a: Assign {:trigger Eval(p, a)} :: Eval(p, a) == (Val(l[..n], a) == Val(r[..n], a))
  }

  lemma {:induction false} SameLowStep(l: seq<Dd>, r: seq<Dd>, p: Dd, n: nat, p': Dd)
    requires n < |l| && n < |r| && SameLow(l, r, p, n)
    requires forall a: Assign {:trigger Eval(p', a)} :: Eval(p', a) == (Eval(l[n], a) == Eval(r[n], a) && Eval(p, a))
    ensures SameLow(l, r, p', n + 1)
  {
    hide Eval, Val;
    forall a: Assign ensures Eval(p', a) == (Val(l[..n + 1], a) == Val(r[..n + 1], a)) {
      ValTake(l, n, a);
      ValTake(r, n, a);
      ValBound(l[..n], a);
      ValBound(r[..n], a);
      assert Eval(p, a) == (Val(l[..n], a) == Val(r[..n], a));
    }
  }

  /** bvec_equ: without bits it gives false, of another width true. */
  method Equ(l: seq<Dd>, r: seq<Dd>) returns (p: Dd)
    requires Good(l) && Good(r)
    ensures Robdd(p)
    ensures (l == [] || r == [] ==> p == Leaf(false)) && (l != [] && r != [] && |l| != |r| ==> p == Leaf(true))
    ensures |l| == |r| && l != [] ==> forall a: Assign {:trigger Eval(p, a)} :: Eval(p, a) == (Val(l, a) == Val(r, a))
  {
    if |l| == 0 || |r| == 0 {
      return Leaf(false);
    }
    if |l| != |r| {
      return Leaf(true);
    }
    p := Leaf(true);
    var n := 0;
    while n < |l|
      invariant n <= |l| && Robdd(p) && SameLow(l, r, p, n)
    {
      var tmp1 := Biimp(l[n], r[n]);
      var tmp2 := And(tmp1, p);
      SameLowStep(l, r, p, n, tmp2);
      p := tmp2;
      n := n + 1;
    }
    assert l[..|l|] == l && r[..|l|] == r;
  }

  /** bvec_neq: without bits it gives true, of another width false. */
  method Neq(l: seq<Dd>, r: seq<Dd>) returns (p: Dd)
    requires Good(l) && Good(r)
    ensures Robdd(p)
    ensures (l == [] || r == [] ==> p == Leaf(true)) && (l != [] && r != [] && |l| != |r| ==> p == Leaf(false))
    ensures |l| == |r| && l != [] ==> forall a: Assign {:trigger Eval(p, a)} :: Eval(p, a) == (Val(l, a) != Val(r, a))
  {
    var tmp := Equ(l, r);
    NotMeans(tmp);
    p := Not(tmp);
  }

  /* ---- choice, constants, shifts by a fixed number ---- */

  /** bvec_ite and the bitwise loops like it: one vector or the other. */
  method IteVec(f: Dd, b: seq<Dd>, c: seq<Dd>) returns (res: seq<Dd>)
    requires Robdd(f) && Good(b) && Good(c)
    ensures |b| != |c| ==> res == []
    ensures |b| == |c| ==> |res| == |b| && Good(res) && forall a: Assign {:trigger Val(res, a)} :: Val(res, a) == if Eval(f, a) then Val(b, a) else Val(c, a)
  {
    hide Ite;
    if |b| != |c| {
      return [];
    }
    res := Zeros(|b|);
    var n := 0;
    while n < |b|
      invariant n <= |b| == |res| && Good(res)
      invariant forall i {:trigger res[i]} :: 0 <= i < n ==> res[i] == Ite(f, b[i], c[i])
    {
      IteMeans(f, b[n], c[n]);
      res := res[n := Ite(f, b[n], c[n])];
      n := n + 1;
    }
    forall a: Assign ensures Val(res, a) == if Eval(f, a) then Val(b, a) else Val(c, a) {
      ChosenBits(f, b, c, res, a);
      ValSame(res, if Eval(f, a) then b else c, a);
    }
  }

  lemma {:induction false} ChosenBits(f: Dd, b: seq<Dd>, c: seq<Dd>, res: seq<Dd>, a: Assign)
    requires Robdd(f) && Good(b) && Good(c) && |b| == |c| == |res| && forall i {:trigger res[i]} :: 0 <= i < |res| ==> res[i] == Ite(f, b[i], c[i])
    ensures forall i {:trigger res[i]} :: 0 <= i < |res| ==> Eval(res[i], a) == Eval(if Eval(f, a) then b[i] else c[i], a)
  {
    hide Ite;
    forall i | 0 <= i < |res| ensures Eval(res[i], a) == Eval(if Eval(f, a) then b[i] else c[i], a) {
      IteMeans(f, b[i], c[i]);
    }
  }

  /** One more binary digit of val. */
  lemma {:induction false} NextDigit(x: nat, n: nat, rest: nat, val: nat)
    requires x + Two(n) * rest == val
    ensures x + Place(rest % 2 == 1, n) + Two(n + 1) * (rest / 2) == val
  {
    Distribute(Two(n), rest % 2, 2 * (rest / 2));
    assert Two(n + 1) * (rest / 2) == Two(n) * (2 * (rest / 2)) by {
      Associate(2, Two(n), rest / 2);
      Associate(Two(n), 2, rest / 2);
    }
  }

  /** bvec_con: the low bits of the number. */
  method Con(bitnum: nat, val: nat) returns (v: seq<Dd>)
    ensures |v| == bitnum && Good(v) && forall a: Assign {:trigger Val(v, a)} :: Val(v, a) == val % Two(bitnum)
  {
    hide Val, Place;
    v := Zeros(bitnum);
    var n, rest := 0, val;
    forall a: Assign ensures Val(v[..0], a) + Two(0) * rest == val {
      ValZeros(0, a);
      assert v[..0] == Zeros(0);
    }
    while n < bitnum
      invariant n <= bitnum == |v| && Good(v)
      invariant forall a: Assign {:trigger Val(v[..n], a)} :: Val(v[..n], a) + Two(n) * rest == val
    {
      ghost var v0 := v;
      v := v[n := Leaf(rest % 2 == 1)];
      forall a: Assign {:trigger Val(v[..n + 1], a)} ensures Val(v[..n + 1], a) + Two(n + 1) * (rest / 2) == val {
        ValTake(v, n, a);
        assert v[..n] == v0[..n];
        NextDigit(Val(v0[..n], a), n, rest, val);
      }
      rest := rest / 2;
      n := n + 1;
    }
    assert v[..n] == v;
    forall a: Assign ensures Val(v, a) == val % Two(bitnum) {
      ValBound(v, a);
      assert Val(v[..n], a) + Two(n) * rest == val;
      ModUnique(val, Two(bitnum), rest, Val(v, a));
    }
  }

  lemma {:induction false} ValPad(v: seq<Dd>, n: nat, a: Assign)
    ensures Val(v + Zeros(n), a) == Val(v, a)
  {
    if v == [] {
      assert v + Zeros(n) == Zeros(n);
      ValZeros(n, a);
    } else {
      ValPad(v[1..], n, a);
      assert (v + Zeros(n))[1..] == v[1..] + Zeros(n);
    }
  }

  lemma {:induction false} ValJoin(v: seq<Dd>, n: nat, a: Assign)
    requires n <= |v|
    ensures Val(v, a) == Val(v[..n], a) + Two(n) * Val(v[n..], a)
  {
    if n == 0 {
      assert v[..0] == [] && v[0..] == v;
    } else {
      ValJoin(v[1..], n - 1, a);
      assert v[..n][1..] == v[1..][..n - 1] && v[n..] == v[1..][n - 1..];
      Associate(2, Two(n - 1), Val(v[n..], a));
    }
  }

  /** The low bits are the number modulo the power of two of their count. */
  lemma {:induction false} ValSplit(v: seq<Dd>, n: nat, a: Assign)
    requires n <= |v|
    ensures Val(v, a) == Val(v[..n], a) + Two(n) * Val(v[n..], a)
    ensures Val(v[..n], a) == Val(v, a) % Two(n) && Val(v[n..], a) == Val(v, a) / Two(n)
  {
    hide Val;
    ValJoin(v, n, a);
    ValBound(v[..n], a);
    ModUnique(Val(v, a), Two(n), Val(v[n..], a), Val(v[..n], a));
  }

  /** bvec_coerce: cut off at the top or padded with false. */
  method Coerce(bitnum: nat, v: seq<Dd>) returns (res: seq<Dd>)
    requires Good(v)
    ensures |res| == bitnum && Good(res) && forall a: Assign {:trigger Val(res, a)} :: Val(res, a) == Val(v, a) % Two(bitnum)
  {
    res := Zeros(bitnum);
    var minnum := if bitnum <= |v| then bitnum else |v|;
    var n := 0;
    while n < minnum
      invariant n <= minnum && |res| == bitnum && res == v[..n] + Zeros(bitnum - n)
    {
      res := res[n := v[n]];
      n := n + 1;
    }
    assert minnum == |v| ==> v[..n] == v;
    forall a: Assign ensures Val(res, a) == Val(v, a) % Two(bitnum) {
      ValPad(v[..n], bitnum - n, a);
      if bitnum <= |v| {
        ValSplit(v, bitnum, a);
      } else {
        ValBound(res, a);
        ModUnique(Val(v, a), Two(bitnum), 0, Val(v, a));
      }
    }
  }
}
