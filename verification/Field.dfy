/**
  The exact field of the weights, with its laws as lemmas: proofs about
  diagrams use these and never unfold a product or a quotient.
*/
module Field {

  function Mul(x: real, y: real): real { x * y }

  /** The quotient; division by zero is evdd_value_div's error value. */
  function Div(x: real, y: real): real { if y == 0.0 then 0.0 else x / y }

  lemma MulIs(x: real, y: real)
    ensures Mul(x, y) == x * y && Div(x, y) == if y == 0.0 then 0.0 else x / y
  {
  }

  lemma MulOne(x: real)
    ensures Mul(x, 1.0) == x && Mul(1.0, x) == x && Div(x, 1.0) == x
  {
  }

  lemma MulZero(x: real)
    ensures Mul(x, 0.0) == 0.0 && Mul(0.0, x) == 0.0 && Div(0.0, x) == 0.0
  {
  }

  lemma MulCommutes(x: real, y: real)
    ensures Mul(x, y) == Mul(y, x)
  {
  }

  lemma MulAssoc(x: real, y: real, z: real)
    ensures Mul(Mul(x, y), z) == Mul(x, Mul(y, z))
  {
  }

  /** No zero divisors. */
  lemma NoDivisors(x: real, y: real)
    ensures Mul(x, y) == 0.0 <==> x == 0.0 || y == 0.0
  {
  }

  lemma DivMul(x: real, y: real)
    requires y != 0.0
    ensures Mul(y, Div(x, y)) == x
  {
  }

  lemma Cancel(c: real, x: real, y: real)
    requires c != 0.0
    ensures Mul(c, x) == Mul(c, y) <==> x == y
  {
    assert Mul(c, x) - Mul(c, y) == Mul(c, x - y);
    NoDivisors(c, x - y);
  }

  /** Quotients are unique. */
  lemma Quotient(x: real, y: real, q: real)
    requires y != 0.0 && Mul(y, q) == x
    ensures Div(x, y) == q
  {
    hide Mul, Div;
    DivMul(x, y);
    Cancel(y, Div(x, y), q);
  }

  lemma DivSelf(x: real)
    requires x != 0.0
    ensures Div(x, x) == 1.0
  {
    hide Mul, Div;
    MulOne(x);
    Quotient(x, x, 1.0);
  }

  lemma DivZero(x: real, y: real)
    requires y != 0.0
    ensures Div(x, y) == 0.0 <==> x == 0.0
  {
    hide Mul, Div;
    DivMul(x, y);
    NoDivisors(y, Div(x, y));
  }

  lemma ScaledQuotient(c: real, x: real, y: real)
    requires c != 0.0 && y != 0.0
    ensures Mul(c, y) != 0.0 && Div(Mul(c, x), Mul(c, y)) == Div(x, y)
  {
    hide Mul, Div;
    NoDivisors(c, y);
    DivMul(x, y);
    MulAssoc(c, y, Div(x, y));
    Quotient(Mul(c, x), Mul(c, y), Div(x, y));
  }

  /* ---- magnitude ---- */

  function Abs(x: real): real { if x < 0.0 then 0.0 - x else x }

  /** The smaller over the larger. */
  lemma {:induction false} SmallQuotient(x: real, y: real)
    requires y != 0.0 && Abs(x) <= Abs(y)
    ensures -1.0 <= Div(x, y) <= 1.0
  {
    var q := Div(x, y);
    DivMul(x, y);
    ScaledAbs(y, q);
    if 1.0 < Abs(q) {
      assert Abs(y) * Abs(q) == Abs(y) + Abs(y) * (Abs(q) - 1.0);
      NoDivisors(Abs(y), Abs(q) - 1.0);
      MulSign(Abs(y), Abs(q) - 1.0);
    }
  }

  /** Quotients of two numbers by the root of the sum of their squares. */
  lemma {:induction false} UnitSquares(x: real, y: real, f: real)
    requires f != 0.0 && Mul(f, f) == Mul(x, x) + Mul(y, y)
    ensures Div(x, f) * Div(x, f) + Div(y, f) * Div(y, f) == 1.0
  {
    var a, b := Div(x, f), Div(y, f);
    DivMul(x, f);
    DivMul(y, f);
    assert x == f * a && y == f * b;
    hide Div;
    SquaresOut(f, a, b);
    NoDivisors(f, f);
    Cancel(f * f, a * a + b * b, 1.0);
  }

  lemma SquaresOut(f: real, a: real, b: real)
    ensures (f * f) * (a * a + b * b) == (f * a) * (f * a) + (f * b) * (f * b)
  {
  }

  lemma MulSign(x: real, y: real)
    ensures Mul(0.0 - x, y) == 0.0 - Mul(x, y) && Mul(x, 0.0 - y) == 0.0 - Mul(x, y)
    ensures 0.0 <= x && 0.0 <= y ==> 0.0 <= Mul(x, y)
  {
  }

  lemma ScaledAbs(c: real, x: real)
    ensures Abs(Mul(c, x)) == Mul(Abs(c), Abs(x))
  {
    hide Mul;
    MulSign(c, x);
    MulSign(0.0 - c, x);
    MulSign(c, 0.0 - x);
    MulSign(0.0 - c, 0.0 - x);
    if 0.0 <= c && 0.0 <= x {
    } else if c < 0.0 && x < 0.0 {
      assert Mul(0.0 - c, 0.0 - x) == Mul(c, x);
    } else if c < 0.0 {
      assert Mul(0.0 - c, x) == 0.0 - Mul(c, x);
    } else {
      assert Mul(c, 0.0 - x) == 0.0 - Mul(c, x);
    }
  }

  lemma ScaledOrder(c: real, x: real, y: real)
    requires 0.0 < c
    ensures Mul(c, x) <= Mul(c, y) <==> x <= y
  {
    assert Mul(c, y) - Mul(c, x) == Mul(c, y - x);
  }

  lemma SquareSign(x: real)
    ensures 0.0 <= Mul(x, x) && (Mul(x, x) == 0.0 <==> x == 0.0)
  {
    NoDivisors(x, x);
  }

  lemma RootUnique(x: real, y: real)
    requires 0.0 <= x && 0.0 <= y && Mul(x, x) == Mul(y, y)
    ensures x == y
  {
    assert Mul(x - y, x + y) == Mul(x, x) - Mul(y, y);
    NoDivisors(x - y, x + y);
  }

  lemma ScaledSquare(c: real, x: real)
    ensures Mul(Mul(c, x), Mul(c, x)) == Mul(Mul(c, c), Mul(x, x))
  {
    hide Mul;
    MulAssoc(c, x, Mul(c, x));
    MulAssoc(x, c, x);
    MulCommutes(x, c);
    MulAssoc(c, x, x);
    MulAssoc(c, c, Mul(x, x));
  }

  lemma Distributes(c: real, x: real, y: real)
    ensures Mul(c, x + y) == Mul(c, x) + Mul(c, y)
  {
  }
}
