/**
  The normalization strategies of evdd_value.c as functions of the two
  outgoing weights: which of them depend on a common factor of the pair, and
  exactly when.
*/
module WeightNorm {
  import opened Field

  /** evddNormalizeStrategy; L2 carries its square root callback. */
  datatype Strategy = FirstNonzero | LowEdge | MaxMagnitude | L2(sqrt: real -> real)

  /** evddNormResult */
  datatype Norm = Norm(wlow: real, whigh: real, incoming: real)

  ghost predicate SquareRoot(s: Strategy) {
    s.L2? ==> forall x: real {:trigger s.sqrt(x)} :: 0.0 <= x ==> 0.0 <= s.sqrt(x) && Mul(s.sqrt(x), s.sqrt(x)) == x
  }

  /** The factor a strategy pulls out of a pair that is not all zero. */
  function Factor(s: Strategy, wl: real, wh: real): real {
    match s
    case FirstNonzero => if wl != 0.0 then wl else wh
    case LowEdge => if wl == 0.0 then 1.0 else wl
    case MaxMagnitude =>
      if wl == 0.0 then wh else if wh == 0.0 then wl
      else if Abs(wl) >= Abs(wh) then wl else wh
    case L2(sqrt) => sqrt(Mul(wl, wl) + Mul(wh, wh))
  }

  /** evdd_value_normalize with the registered strategy. */
  function Normalize(s: Strategy, wl: real, wh: real): Norm {
    if wl == 0.0 && wh == 0.0 then Norm(0.0, 0.0, 0.0)
    else var f := Factor(s, wl, wh); Norm(Div(wl, f), Div(wh, f), f)
  }

  lemma FactorNonzero(s: Strategy, wl: real, wh: real)
    requires SquareRoot(s) && !(wl == 0.0 && wh == 0.0)
    ensures Factor(s, wl, wh) != 0.0
  {
    hide Mul;
    if s.L2? {
      SquareSign(wl);
      SquareSign(wh);
      SquareSign(Factor(s, wl, wh));
    }
  }

  /** Pulling the factor out changes no product. */
  lemma NormalizeKeeps(s: Strategy, wl: real, wh: real)
    requires SquareRoot(s)
    ensures var n := Normalize(s, wl, wh);
            && Mul(n.incoming, n.wlow) == wl && Mul(n.incoming, n.whigh) == wh
            && (n.incoming == 0.0 <==> wl == 0.0 && wh == 0.0)
            && (n.wlow == 0.0 <==> wl == 0.0) && (n.whigh == 0.0 <==> wh == 0.0)
  {
    hide Mul, Div;
    if wl == 0.0 && wh == 0.0 {
      MulZero(0.0);
    } else {
      FactorNonzero(s, wl, wh);
      var f := Factor(s, wl, wh);
      DivMul(wl, f);
      DivMul(wh, f);
      DivZero(wl, f);
      DivZero(wh, f);
    }
  }

  /**
    What each strategy leaves of a pair that is not all zero: the first nonzero
    weight one; the low one, unless it is zero; the larger one, the low one in a
    tie; or a sum of squares of one.
  */
  lemma {:induction false} NormalShape(s: Strategy, wl: real, wh: real)
    requires SquareRoot(s) && !(wl == 0.0 && wh == 0.0)
    ensures var n := Normalize(s, wl, wh);
            && (s.FirstNonzero? ==> if wl != 0.0 then n.incoming == wl && n.wlow == 1.0 else n.incoming == wh && n.wlow == 0.0 && n.whigh == 1.0)
            && (s.LowEdge? ==> if wl != 0.0 then n.incoming == wl && n.wlow == 1.0 else n.incoming == 1.0 && n.wlow == 0.0 && n.whigh == wh)
            && (s.MaxMagnitude? ==>
                  && -1.0 <= n.wlow <= 1.0 && -1.0 <= n.whigh <= 1.0 && (n.wlow == 1.0 || n.whigh == 1.0)
                  && (wl == wh || wl == 0.0 - wh ==> n.wlow == 1.0))
            && (s.L2? ==> 0.0 < n.incoming && n.wlow * n.wlow + n.whigh * n.whigh == 1.0)
  {
    hide Mul, Div;
    var f := Factor(s, wl, wh);
    FactorNonzero(s, wl, wh);
    DivSelf(f);
    DivZero(wl, f);
    DivZero(wh, f);
    MulOne(wh);
    match s
    case MaxMagnitude =>
      SmallQuotient(wl, f);
      SmallQuotient(wh, f);
    case L2(sqrt) =>
      SquareSign(wl);
      SquareSign(wh);
      UnitSquares(wl, wh, f);
    case FirstNonzero =>
    case LowEdge =>
  }

  /** The strategies that canonize every diagram. */
  predicate Canonizing(s: Strategy) { s.FirstNonzero? || s.MaxMagnitude? }

  /** The pairs whose outgoing weights do not depend on a common factor. */
  predicate Steady(s: Strategy, wl: real, wh: real) {
    Canonizing(s) || (s.LowEdge? && (wl != 0.0 || wh == 0.0))
  }

  lemma ScaledFactor(s: Strategy, c: real, wl: real, wh: real)
    requires Steady(s, wl, wh) && !(wl == 0.0 && wh == 0.0) && c != 0.0
    ensures Factor(s, Mul(c, wl), Mul(c, wh)) == Mul(c, Factor(s, wl, wh))
  {
    hide Mul;
    NoDivisors(c, wl);
    NoDivisors(c, wh);
    ScaledAbs(c, wl);
    ScaledAbs(c, wh);
    ScaledOrder(Abs(c), Abs(wh), Abs(wl));
  }

  /** The heart of canonicity: scaling both weights moves the factor to the incoming edge. */
  lemma ScaleInvariant(s: Strategy, c: real, wl: real, wh: real)
    requires Steady(s, wl, wh) && c != 0.0
    ensures var n, n' := Normalize(s, wl, wh), Normalize(s, Mul(c, wl), Mul(c, wh));
            n'.wlow == n.wlow && n'.whigh == n.whigh && n'.incoming == Mul(c, n.incoming)
  {
    hide Mul, Div;
    NoDivisors(c, wl);
    NoDivisors(c, wh);
    if wl == 0.0 && wh == 0.0 {
      MulZero(c);
    } else {
      FactorNonzero(s, wl, wh);
      ScaledFactor(s, c, wl, wh);
      ScaledQuotient(c, wl, Factor(s, wl, wh));
      ScaledQuotient(c, wh, Factor(s, wl, wh));
    }
  }

  /** A normalized pair is left alone, by every strategy. */
  lemma Idempotent(s: Strategy, wl: real, wh: real)
    requires SquareRoot(s) && !(wl == 0.0 && wh == 0.0)
    ensures var n := Normalize(s, wl, wh); Normalize(s, n.wlow, n.whigh) == Norm(n.wlow, n.whigh, 1.0)
  {
    hide Mul, Div;
    var n := Normalize(s, wl, wh);
    var c := n.incoming;
    NormalizeKeeps(s, wl, wh);
    if s.L2? {
      L2Factor(s, c, n.wlow, n.whigh);
      SquareSign(wl);
      SquareSign(wh);
    } else if s.LowEdge? && wl == 0.0 {
      MulOne(wh);
      MulZero(1.0);
    } else {
      ScaledFactor(s, c, n.wlow, n.whigh);
    }
    MulOne(c);
    Cancel(c, Factor(s, n.wlow, n.whigh), 1.0);
    MulOne(n.wlow);
    MulOne(n.whigh);
  }

  /**
    LowEdge leaves the high weight alone when the low weight is zero, so it
    misses canonicity exactly there: two pairs that differ by the factor c
    keep different weights.
  */
  lemma LowScaling(c: real, wl: real, wh: real)
    requires c != 0.0
    ensures var n, n' := Normalize(LowEdge, wl, wh), Normalize(LowEdge, Mul(c, wl), Mul(c, wh));
            (n'.wlow == n.wlow && n'.whigh == n.whigh) <==> (wl != 0.0 || wh == 0.0 || c == 1.0)
  {
    hide Mul, Div;
    NoDivisors(c, wl);
    NoDivisors(c, wh);
    if wl != 0.0 {
      ScaledQuotient(c, wl, wl);
      ScaledQuotient(c, wh, wl);
    } else if wh != 0.0 {
      MulOne(wh);
      MulOne(Mul(c, wh));
      MulZero(1.0);
      MulCommutes(c, wh);
      Cancel(wh, c, 1.0);
    }
  }

  /** L2 pulls out a positive factor only: it is blind to a positive common factor and to no other. */
  lemma L2Scaling(s: Strategy, c: real, wl: real, wh: real)
    requires s.L2? && SquareRoot(s) && c != 0.0 && !(wl == 0.0 && wh == 0.0)
    ensures var n, n' := Normalize(s, wl, wh), Normalize(s, Mul(c, wl), Mul(c, wh));
            (n'.wlow == n.wlow && n'.whigh == n.whigh) <==> 0.0 < c
  {
    hide Mul, Div;
    NoDivisors(c, wl);
    NoDivisors(c, wh);
    FactorNonzero(s, wl, wh);
    L2Factor(s, c, wl, wh);
    var f := Factor(s, wl, wh);
    if 0.0 < c {
      ScaledQuotient(c, wl, f);
      ScaledQuotient(c, wh, f);
    } else {
      OppositeQuotient(c, wl, f);
      OppositeQuotient(c, wh, f);
      DivZero(wl, f);
      DivZero(wh, f);
    }
  }

  lemma L2Factor(s: Strategy, c: real, wl: real, wh: real)
    requires s.L2? && SquareRoot(s)
    ensures Factor(s, Mul(c, wl), Mul(c, wh)) == Mul(Abs(c), Factor(s, wl, wh))
  {
    hide Mul, Div;
    var f, g := Factor(s, wl, wh), Factor(s, Mul(c, wl), Mul(c, wh));
    SquareSign(wl);
    SquareSign(wh);
    SquareSign(Mul(c, wl));
    SquareSign(Mul(c, wh));
    ScaledSquare(c, wl);
    ScaledSquare(c, wh);
    Distributes(Mul(c, c), Mul(wl, wl), Mul(wh, wh));
    var k := Abs(c);
    MulSign(c, c);
    MulSign(c, 0.0 - c);
    assert Mul(k, k) == Mul(c, c);
    ScaledSquare(k, f);
    MulSign(k, f);
    RootUnique(g, Mul(k, f));
  }

  lemma OppositeQuotient(c: real, x: real, f: real)
    requires c < 0.0 && f != 0.0
    ensures Div(Mul(c, x), Mul(Abs(c), f)) == 0.0 - Div(x, f)
  {
    hide Mul, Div;
    var q := Div(x, f);
    DivMul(x, f);
    NoDivisors(Abs(c), f);
    MulSign(Abs(c), Mul(f, q));
    MulSign(c, x);
    MulSign(f, q);
    MulAssoc(Abs(c), f, 0.0 - q);
    Quotient(Mul(c, x), Mul(Abs(c), f), 0.0 - q);
  }
}
