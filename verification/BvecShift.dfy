/** bvec.c: shifts, by a fixed number of bits and by the value of another vector. */
module BvecShift {
  import opened Dd
  import opened DdOps
  import opened Number
  import opened Bvec

  lemma {:induction false} TwoSum(m: nat, n: nat)
    ensures Two(m + n) == Two(m) * Two(n)
  {
    if m != 0 {
      TwoSum(m - 1, n);
      Associate(2, Two(m - 1), Two(n));
    }
  }

  lemma {:induction false} ValAppend(v: seq<Dd>, w: seq<Dd>, a: Assign)
    ensures Val(v + w, a) == Val(v, a) + Two(|v|) * Val(w, a)
  {
    if v == [] {
      assert v + w == w;
    } else {
      ValAppend(v[1..], w, a);
      assert (v + w)[1..] == v[1..] + w;
      Associate(2, Two(|v| - 1), Val(w, a));
    }
  }

  /** The number of n equal bits. */
  function Fill(c: bool, n: nat): nat { if c then Two(n) - 1 else 0 }

  function Repeat(c: Dd, n: nat): (v: seq<Dd>)
    ensures |v| == n
  {
    seq(n, _ => c)
  }

  lemma {:induction false} ValRepeat(c: Dd, n: nat, a: Assign)
    ensures Val(Repeat(c, n), a) == Fill(Eval(c, a), n)
  {
    if n != 0 {
      ValRepeat(c, n - 1, a);
      assert Repeat(c, n)[1..] == Repeat(c, n - 1);
    }
  }

  /** bvec_shlfixed: multiplied by a power of two, with c in the new positions, modulo the width; a negative distance is an error. */
  method ShlFixed(e: seq<Dd>, pos: int, c: Dd) returns (res: seq<Dd>)
    requires Good(e) && Robdd(c)
    ensures pos < 0 || e == [] ==> res == []
    ensures 0 <= pos && e != [] ==>
              && |res| == |e| && Good(res)
              && res == (if pos <= |e| then Repeat(c, pos) + e[..|e| - pos] else Repeat(c, |e|))
              && forall a: Assign {:trigger Val(res, a)} :: Val(res, a) == (Two(pos) * Val(e, a) + Fill(Eval(c, a), pos)) % Two(|e|)
  {
    if pos < 0 {
      return [];
    }
    if |e| == 0 {
      return [];
    }
    var minnum := if |e| <= pos then |e| else pos;
    res := Zeros(|e|);
    var n := 0;
    while n < minnum
      invariant n <= minnum && |res| == |e| && Good(res)
      invariant forall i {:trigger res[i]} :: 0 <= i < n ==> res[i] == c
    {
      res := res[n := c];
      n := n + 1;
    }
    n := minnum;
    while n < |e|
      invariant minnum <= n <= |e| && |res| == |e| && Good(res)
      invariant forall i {:trigger res[i]} :: 0 <= i < minnum ==> res[i] == c
      invariant forall i {:trigger res[i]} :: minnum <= i < n ==> res[i] == e[i - pos]
    {
      res := res[n := e[n - pos]];
      n := n + 1;
    }
    assert res == Repeat(c, minnum) + e[..|e| - minnum];
    assert pos > |e| ==> res == Repeat(c, |e|);
    forall a: Assign ensures Val(res, a) == (Two(pos) * Val(e, a) + Fill(Eval(c, a), pos)) % Two(|e|) {
      ShlValue(e, pos, c, a);
    }
  }

  lemma {:induction false} ShlValue(e: seq<Dd>, pos: nat, c: Dd, a: Assign)
    ensures Val(if pos <= |e| then Repeat(c, pos) + e[..|e| - pos] else Repeat(c, |e|), a) == (Two(pos) * Val(e, a) + Fill(Eval(c, a), pos)) % Two(|e|)
  {
    if pos <= |e| {
      ShlNear(e, pos, c, a);
    } else {
      ShlFar(e, pos, c, a);
    }
  }

  lemma {:induction false} ShlNear(e: seq<Dd>, pos: nat, c: Dd, a: Assign)
    requires pos <= |e|
    ensures Val(Repeat(c, pos) + e[..|e| - pos], a) == (Two(pos) * Val(e, a) + Fill(Eval(c, a), pos)) % Two(|e|)
  {
    hide Val, Eval, Two, Fill;
    var k, w := |e| - pos, e[..|e| - pos];
    ValAppend(Repeat(c, pos), w, a);
    ValRepeat(c, pos, a);
    ValSplit(e, k, a);
    ValBound(Repeat(c, pos) + w, a);
    TwoSum(pos, k);
    ShlArithmetic(Two(pos), Two(k), Val(w, a), Val(e[k..], a));
    ModUnique(Two(pos) * Val(e, a) + Fill(Eval(c, a), pos), Two(|e|), Val(e[k..], a), Val(Repeat(c, pos) + w, a));
  }

  lemma {:induction false} ShlFar(e: seq<Dd>, pos: nat, c: Dd, a: Assign)
    requires |e| < pos
    ensures Val(Repeat(c, |e|), a) == (Two(pos) * Val(e, a) + Fill(Eval(c, a), pos)) % Two(|e|)
  {
    hide Val, Eval, Two;
    var n, x, p := |e|, Val(e, a), Two(pos - |e|);
    ValRepeat(c, n, a);
    ValBound(Repeat(c, n), a);
    TwoSum(n, pos - n);
    FillArithmetic(Two(n), p, x, Eval(c, a));
    ModUnique(Two(pos) * x + Fill(Eval(c, a), pos), Two(n), p * x + (if Eval(c, a) then p - 1 else 0), Val(Repeat(c, n), a));
  }

  lemma {:induction false} ShlArithmetic(p: nat, q: nat, lo: nat, hi: nat)
    ensures p * (lo + q * hi) == hi * (p * q) + p * lo
  {
    Distribute(p, lo, q * hi);
    Associate(p, q, hi);
    Associate(hi, p, q);
  }

  lemma {:induction false} FillArithmetic(m: nat, p: nat, x: nat, c: bool)
    requires 0 < m && 0 < p
    ensures (m * p) * x + (if c then m * p - 1 else 0) == (p * x + (if c then p - 1 else 0)) * m + (if c then m - 1 else 0)
  {
    Associate(m, p, x);
    Distribute(m, p * x, if c then p - 1 else 0);
    Distribute(m, p, -1);
  }

  /** bvec_shrfixed: divided by a power of two, with c in the new positions. */
  method ShrFixed(e: seq<Dd>, pos: int, c: Dd) returns (res: seq<Dd>)
    requires Good(e) && Robdd(c)
    ensures pos < 0 || e == [] ==> res == []
    ensures 0 <= pos && e != [] ==>
              && |res| == |e| && Good(res)
              && var k := if pos <= |e| then pos else |e|;
                 forall a: Assign {:trigger Val(res, a)} :: Val(res, a) == Val(e, a) / Two(pos) + Two(|e| - k) * Fill(Eval(c, a), k)
  {
    if pos < 0 {
      return [];
    }
    if |e| == 0 {
      return [];
    }
    var maxnum := if pos <= |e| then |e| - pos else 0;
    res := Zeros(|e|);
    var n := maxnum;
    while n < |e|
      invariant maxnum <= n <= |e| == |res| && Good(res)
      invariant forall i {:trigger res[i]} :: maxnum <= i < n ==> res[i] == c
    {
      res := res[n := c];
      n := n + 1;
    }
    n := 0;
    while n < maxnum
      invariant n <= maxnum && |res| == |e| && Good(res)
      invariant forall i {:trigger res[i]} :: maxnum <= i < |e| ==> res[i] == c
      invariant forall i {:trigger res[i]} :: 0 <= i < n ==> res[i] == e[i + pos]
    {
      res := res[n := e[n + pos]];
      n := n + 1;
    }
    var k := |e| - maxnum;
    assert res == e[k..] + Repeat(c, k);
    forall a: Assign ensures Val(res, a) == Val(e, a) / Two(pos) + Two(|e| - k) * Fill(Eval(c, a), k) {
      ShrValue(e, pos, k, c, a);
    }
  }

  lemma {:induction false} ShrValue(e: seq<Dd>, pos: nat, k: nat, c: Dd, a: Assign)
    requires k == if pos <= |e| then pos else |e|
    ensures Val(e[k..] + Repeat(c, k), a) == Val(e, a) / Two(pos) + Two(|e| - k) * Fill(Eval(c, a), k)
  {
    hide Val, Eval;
    ValAppend(e[k..], Repeat(c, k), a);
    ValRepeat(c, k, a);
    ValSplit(e, k, a);
    if |e| < pos {
      assert e[k..] == [];
      ValBound(e, a);
      ValBound(e[k..], a);
      TwoGrows(|e|, pos);
      ModUnique(Val(e, a), Two(pos), 0, Val(e, a));
    }
  }

  /* ---- symbolic shifts ---- */

  /** Bit m of l shifted up by n. */
  predicate UpBit(l: seq<Dd>, n: nat, c: Dd, m: nat, a: Assign)
    requires m < |l|
  {
    if m >= n then Eval(l[m - n], a) else Eval(c, a)
  }

  /** Bit m of l shifted down by n. */
  predicate DownBit(l: seq<Dd>, n: nat, c: Dd, m: nat, a: Assign)
    requires m < |l|
  {
    if m + n < |l| then Eval(l[m + n], a) else Eval(c, a)
  }

  predicate MovedBit(up: bool, l: seq<Dd>, n: nat, c: Dd, m: nat, a: Assign)
    requires m < |l|
  {
    if up then UpBit(l, n, c, m, a) else DownBit(l, n, c, m, a)
  }

  /** One of the distances below n, cut to `width` bits, is k, and its shift sets bit m. */
  ghost predicate AnyOf(up: bool, l: seq<Dd>, width: nat, k: nat, c: Dd, m: nat, a: Assign, n: nat)
    requires m < |l|
  {
    n != 0 && (AnyOf(up, l, width, k, c, m, a, n - 1) || (k == (n - 1) % Two(width) && MovedBit(up, l, n - 1, c, m, a)))
  }

  /** What the loops of bvec_shl and bvec_shr compute at bit m, for any widths. */
  ghost predicate ShiftBit(up: bool, l: seq<Dd>, r: seq<Dd>, c: Dd, m: nat, a: Assign)
    requires m < |l|
  {
    AnyOf(up, l, |r|, Val(r, a), c, m, a, |l| + 1) || (Val(r, a) > |l| % Two(|r|) && Eval(c, a))
  }

  /** One distance: where the guard holds, the moved bits are added. */
  method OrMoved(up: bool, res0: seq<Dd>, l: seq<Dd>, guard: Dd, n: nat, c: Dd) returns (res: seq<Dd>)
    requires |res0| == |l| && Good(res0) && Good(l) && Robdd(guard) && Robdd(c)
    ensures |res| == |l| && Good(res)
    ensures forall m, a: Assign {:trigger Eval(res[m], a)} :: 0 <= m < |l| ==> Eval(res[m], a) == (Eval(res0[m], a) || (Eval(guard, a) && MovedBit(up, l, n, c, m, a)))
  {
    hide And, Or, Eval, Robdd;
    res := res0;
    var m := 0;
    while m < |l|
      invariant m <= |l| == |res| && Good(res)
      invariant forall i {:trigger res[i]} :: m <= i < |l| ==> res[i] == res0[i]
      invariant forall i, a: Assign {:trigger Eval(res[i], a)} :: 0 <= i < m ==> Eval(res[i], a) == (Eval(res0[i], a) || (Eval(guard, a) && MovedBit(up, l, n, c, i, a)))
    {
      var src := if up then (if m - n >= 0 then l[m - n] else c) else (if m + n < |l| then l[m + n] else c);
      assert forall a: Assign {:trigger Eval(src, a)} :: Eval(src, a) == MovedBit(up, l, n, c, m, a);
      var tmp1 := And(guard, src);
      var tmp2 := Or(res[m], tmp1);
      assert res[m] == res0[m];
      res := res[m := tmp2];
      m := m + 1;
    }
  }

  /** bvec_shl (up) and bvec_shr. */
  method Shift(up: bool, l: seq<Dd>, r: seq<Dd>, c: Dd) returns (res: seq<Dd>)
    requires Good(l) && Good(r) && Robdd(c)
    ensures l == [] || r == [] ==> res == []
    ensures l != [] && r != [] ==> |res| == |l| && Good(res)
    ensures l != [] && r != [] ==> forall m, a: Assign {:trigger Eval(res[m], a)} :: 0 <= m < |l| ==> Eval(res[m], a) == ShiftBit(up, l, r, c, m, a)
  {
    hide And, Or, Eval, Robdd, Val;
    if |l| == 0 || |r| == 0 {
      return [];
    }
    res := Zeros(|l|);
    ZerosFalse(|l|);
    var n := 0;
    while n <= |l|
      invariant n <= |l| + 1 && |res| == |l| && Good(res)
      invariant forall m, a: Assign {:trigger Eval(res[m], a)} :: 0 <= m < |l| ==> Eval(res[m], a) == AnyOf(up, l, |r|, Val(r, a), c, m, a, n)
    {
      var val := Con(|r|, n);
      var rEquN := Equ(r, val);
      res := OrMoved(up, res, l, rEquN, n, c);
      n := n + 1;
    }
    res := Beyond(up, res, l, r, c);
  }

  lemma {:induction false} ZerosFalse(n: nat)
    ensures forall m, a: Assign {:trigger Eval(Zeros(n)[m], a)} :: 0 <= m < n ==> !Eval(Zeros(n)[m], a)
  {
  }

  /** The last loop: c everywhere for distances beyond the width. */
  method Beyond(up: bool, res0: seq<Dd>, l: seq<Dd>, r: seq<Dd>, c: Dd) returns (res: seq<Dd>)
    requires l != [] && r != [] && |res0| == |l| && Good(res0) && Good(l) && Good(r) && Robdd(c)
    requires forall m, a: Assign {:trigger Eval(res0[m], a)} :: 0 <= m < |l| ==> Eval(res0[m], a) == AnyOf(up, l, |r|, Val(r, a), c, m, a, |l| + 1)
    ensures |res| == |l| && Good(res)
    ensures forall m, a: Assign {:trigger Eval(res[m], a)} :: 0 <= m < |l| ==> Eval(res[m], a) == ShiftBit(up, l, r, c, m, a)
  {
    hide And, Or, Eval, Robdd, Val, AnyOf;
    var val := Con(|r|, |l|);
    var rEquN := Gth(r, val);
    var tmp1 := And(rEquN, c);
    res := res0;
    var m := 0;
    while m < |l|
      invariant m <= |l| == |res| && Good(res)
      invariant forall i {:trigger res[i]} :: m <= i < |l| ==> res[i] == res0[i]
      invariant forall i, a: Assign {:trigger Eval(res[i], a)} :: 0 <= i < m ==> Eval(res[i], a) == ShiftBit(up, l, r, c, i, a)
    {
      var tmp2 := Or(res[m], tmp1);
      res := res[m := tmp2];
      m := m + 1;
    }
  }

  /** When the width of l can be written in r, exactly the distance that r encodes matters, however large. */
  lemma {:induction false} ShiftRight(up: bool, l: seq<Dd>, r: seq<Dd>, c: Dd, m: nat, a: Assign)
    requires m < |l| < Two(|r|)
    ensures ShiftBit(up, l, r, c, m, a) == MovedBit(up, l, Val(r, a), c, m, a)
  {
    hide Val, Eval;
    AnyExact(up, l, |r|, Val(r, a), c, m, a, |l| + 1);
    ModUnique(|l|, Two(|r|), 0, |l|);
  }

  lemma {:induction false} AnyExact(up: bool, l: seq<Dd>, width: nat, k: nat, c: Dd, m: nat, a: Assign, n: nat)
    requires m < |l| < Two(width) && n <= |l| + 1
    ensures AnyOf(up, l, width, k, c, m, a, n) == (k < n && MovedBit(up, l, k, c, m, a))
  {
    hide Eval;
    if n != 0 {
      AnyExact(up, l, width, k, c, m, a, n - 1);
      ModUnique(n - 1, Two(width), 0, n - 1);
    }
  }

  /**
    Otherwise the distances wrap: for these widths a zero vector shifted by
    zero comes out with its lowest (up) or highest bit set when c is true.
  */
  lemma {:induction false} ShiftTooWide(up: bool, bits: nat, width: nat, a: Assign)
    requires 0 < bits && Two(width) <= bits
    ensures var l, r, c, m := Zeros(bits), Zeros(width), Leaf(true), if up then 0 else bits - 1;
            Val(r, a) == 0 && ShiftBit(up, l, r, c, m, a) != MovedBit(up, l, Val(r, a), c, m, a)
  {
    var l, r, c, m := Zeros(bits), Zeros(width), Leaf(true), if up then 0 else bits - 1;
    ValZeros(width, a);
    ModUnique(Two(width), Two(width), 1, 0);
    assert AnyOf(up, l, width, 0, c, m, a, Two(width) + 1);
    AnyMore(up, l, width, 0, c, m, a, Two(width) + 1, bits + 1);
  }

  lemma {:induction false} AnyMore(up: bool, l: seq<Dd>, width: nat, k: nat, c: Dd, m: nat, a: Assign, n: nat, n': nat)
    requires m < |l| && n <= n' && AnyOf(up, l, width, k, c, m, a, n)
    ensures AnyOf(up, l, width, k, c, m, a, n')
  {
    if n < n' { AnyMore(up, l, width, k, c, m, a, n, n' - 1); }
  }

  /** For given widths, a symbolic shift is right on every operand exactly when the width fits. */
  lemma {:induction false} ShiftExact(up: bool, bits: nat, width: nat)
    requires 0 < bits && 0 < width
    ensures bits < Two(width) <==>
            forall l: seq<Dd>, r: seq<Dd>, c: Dd, m: nat, a: Assign {:trigger ShiftBit(up, l, r, c, m, a)} ::
              |l| == bits && |r| == width && m < bits ==> ShiftBit(up, l, r, c, m, a) == MovedBit(up, l, Val(r, a), c, m, a)
  {
    hide ShiftBit, MovedBit, Val, Eval;
    if bits < Two(width) {
      forall l: seq<Dd>, r: seq<Dd>, c: Dd, m: nat, a: Assign | |l| == bits && |r| == width && m < bits
        ensures ShiftBit(up, l, r, c, m, a) == MovedBit(up, l, Val(r, a), c, m, a)
      {
        ShiftRight(up, l, r, c, m, a);
      }
    } else {
      var a: Assign := (x: nat) => false;
      ShiftTooWide(up, bits, width, a);
    }
  }
}
