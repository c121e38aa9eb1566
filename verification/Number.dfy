/** The number theory behind the table sizes: Euclid's lemma, Fermat's little theorem, infinitely many primes. */
module Number {

  predicate IsPrime(p: nat) {
    2 <= p && forall d {:trigger p % d} :: 2 <= d < p ==> p % d != 0
  }

  function Pow(b: nat, e: nat): nat {
    if e == 0 then 1 else b * Pow(b, e - 1)
  }

  function Two(e: nat): (r: nat)
    ensures 1 <= r
  {
    if e == 0 then 1 else 2 * Two(e - 1)
  }

  lemma {:induction false} TwoGrows(m: nat, n: nat)
    requires m <= n
    ensures Two(m) <= Two(n) && n < Two(n)
  {
    if n != 0 {
      TwoGrows(if m < n then m else n - 1, n - 1);
    }
  }

  lemma ModUnique(x: int, m: nat, q: int, r: int)
    requires 0 < m && x == q * m + r && 0 <= r < m
    ensures x % m == r && x / m == q
  {
    var d := x / m - q;
    assert d * m == r - x % m;
    MulSign(d, m);
  }

  lemma MulSign(d: int, m: nat)
    ensures d >= 1 ==> d * m >= m
    ensures d <= -1 ==> d * m <= 0 - m
  {
  }

  lemma Distribute(a: int, b: int, c: int)
    ensures a * (b + c) == a * b + a * c
    ensures (b + c) * a == b * a + c * a
  {
  }

  lemma Associate(a: int, b: int, c: int)
    ensures a * (b * c) == (a * b) * c == b * (a * c)
  {
  }

  lemma MultipleMod(x: int, m: nat, q: int)
    requires 0 < m && x == q * m
    ensures x % m == 0
  {
    ModUnique(x, m, q, 0);
  }

  /** x and y leave the same remainder when m divides their difference. */
  lemma SameMod(x: int, y: int, m: nat, k: int)
    requires 0 < m && x == y + k * m
    ensures x % m == y % m
  {
    assert x == (y / m + k) * m + y % m;
    ModUnique(x, m, y / m + k, y % m);
  }

  lemma MulMod(x: int, y: int, m: nat)
    requires 0 < m
    ensures (x % m) * y % m == x * y % m
  {
    assert x * y == (x % m) * y + (x / m * y) * m;
    SameMod(x * y, (x % m) * y, m, x / m * y);
  }

  lemma MulModBoth(x: int, y: int, m: nat)
    requires 0 < m
    ensures (x % m) * (y % m) % m == x * y % m
  {
    MulMod(x, y % m, m);
    MulMod(y, x, m);
    assert x * (y % m) == (y % m) * x && x * y == y * x;
  }

  lemma RemainderProduct(p: nat, a: nat, b: nat)
    requires 0 < p && 0 < a && a * b % p == 0
    ensures p % a * b % p == 0
  {
    var c, k, q := p % a, p / a, a * b / p;
    assert p == k * a + c && a * b == q * p;
    calc {
      c * b;
      (p - k * a) * b;
      { Distribute(b, p, - (k * a)); }
      p * b - k * a * b;
      { Associate(k, a, b); }
      p * b - k * (q * p);
      { Associate(k, q, p); }
      b * p - (k * q) * p;
      { Distribute(p, b, - (k * q)); }
      (b - k * q) * p;
    }
    MultipleMod(c * b, p, b - k * q);
  }

  lemma {:induction false} PrimeRemainder(p: nat, a: nat)
    requires IsPrime(p) && 2 <= a < p
    ensures 0 < p % a < a
  {
  }

  /** Euclid: a prime that divides a product divides a factor. */
  lemma {:induction false} Euclid(p: nat, a: nat, b: nat)
    requires IsPrime(p) && 2 <= p && a * b % p == 0
    ensures a % p == 0 || b % p == 0
    decreases a
  {
    hide IsPrime;
    if p <= a {
      MulMod(a, b, p);
      Euclid(p, a % p, b);
      RemainderTwice(a, p);
    } else if 2 <= a {
      // a < p: replace a by the remainder of p, which is smaller and not zero
      PrimeRemainder(p, a);
      RemainderProduct(p, a, b);
      Euclid(p, p % a, b);
      ModUnique(p % a, p, 0, p % a);
    } else {
      SmallFactor(p, a, b);
    }
  }

  lemma RemainderTwice(a: nat, p: nat)
    requires 0 < p
    ensures a % p % p == a % p
  {
    ModUnique(a % p, p, 0, a % p);
  }

  lemma SmallFactor(p: nat, a: nat, b: nat)
    requires 2 <= p && a < 2 && a * b % p == 0
    ensures a % p == 0 || b % p == 0
  {
    if a == 1 { assert a * b == b; } else { ModUnique(0, p, 0, 0); }
  }

  /** Binomial coefficients by Pascal's rule. */
  function Choose(n: nat, k: nat): nat {
    if k == 0 then 1 else if n == 0 then 0 else Choose(n - 1, k - 1) + Choose(n - 1, k)
  }

  lemma {:induction false} ChooseBeyond(n: nat, k: nat)
    requires n < k
    ensures Choose(n, k) == 0
  {
    if n > 0 {
      ChooseBeyond(n - 1, k - 1);
      ChooseBeyond(n - 1, k);
    }
  }

  lemma {:induction false} ChooseAll(n: nat)
    ensures Choose(n, n) == 1
  {
    if n > 0 {
      ChooseAll(n - 1);
      ChooseBeyond(n - 1, n);
    }
  }

  /** k * C(n, k) == n * C(n - 1, k - 1) */
  lemma {:induction false} Absorb(n: nat, k: nat)
    requires 1 <= k && 1 <= n
    ensures k * Choose(n, k) == n * Choose(n - 1, k - 1)
  {
    var c := Choose(n - 1, k - 1);
    if n == 1 {
      ChooseBeyond(0, k);
      if k > 1 { ChooseBeyond(0, k - 1); }
    } else if k == 1 {
      Absorb(n - 1, 1);
    } else {
      Absorb(n - 1, k - 1);
      Absorb(n - 1, k);
      AbsorbStep(n, k, c, Choose(n - 1, k), Choose(n - 2, k - 2), Choose(n - 2, k - 1));
    }
  }

  lemma AbsorbStep(n: nat, k: nat, c: nat, d: nat, b: nat, e: nat)
    requires (k - 1) * c == (n - 1) * b && k * d == (n - 1) * e && c == b + e
    ensures k * (c + d) == n * c
  {
    Distribute(k, c, d);
    Distribute(n - 1, b, e);
    Distribute(c, k - 1, 1);
    Distribute(c, n - 1, 1);
  }

  lemma PrimeChoose(p: nat, k: nat)
    requires IsPrime(p) && 1 <= k < p
    ensures Choose(p, k) % p == 0
  {
    Absorb(p, k);
    ModUnique(k, p, 0, k);
    hide Choose;
    MultipleMod(k * Choose(p, k), p, Choose(p - 1, k - 1));
    Euclid(p, k, Choose(p, k));
  }

  /** The first terms of the binomial expansion of (1 + a) to the n. */
  function Terms(n: nat, k: nat, a: nat): nat {
    Choose(n, k) * Pow(a, k) + if k == 0 then 0 else Terms(n, k - 1, a)
  }

  lemma {:induction false} TermsPascal(n: nat, k: nat, a: nat)
    requires 1 <= k
    ensures Terms(n + 1, k, a) == Terms(n, k, a) + a * Terms(n, k - 1, a)
  {
    var c, d, q := Choose(n, k), Choose(n, k - 1), Pow(a, k - 1);
    Distribute(a * q, d, c);
    Associate(d, a, q);
    if k == 1 {
      assert Terms(n + 1, 0, a) == 1 && Terms(n, 0, a) == 1;
    } else {
      TermsPascal(n, k - 1, a);
      var t := Terms(n, k - 2, a);
      assert Terms(n, k - 1, a) == d * q + t;
      Distribute(a, d * q, t);
    }
  }

  lemma BinomialStep(n: nat, a: nat)
    requires 1 <= n && Choose(n - 1, n) == 0 && Pow(1 + a, n - 1) == Terms(n - 1, n - 1, a)
    requires Terms(n, n, a) == Terms(n - 1, n, a) + a * Terms(n - 1, n - 1, a)
    ensures Pow(1 + a, n) == Terms(n, n, a)
  {
    hide Choose;
    var t := Terms(n - 1, n - 1, a);
    assert Terms(n - 1, n, a) == 0 * Pow(a, n) + t;
    Distribute(t, 1, a);
    assert a * t == t * a;
  }

  lemma {:induction false} Binomial(n: nat, a: nat)
    ensures Pow(1 + a, n) == Terms(n, n, a)
  {
    if n > 0 {
      Binomial(n - 1, a);
      TermsPascal(n - 1, n, a);
      ChooseBeyond(n - 1, n);
      BinomialStep(n, a);
    }
  }

  lemma TermZero(p: nat, a: nat)
    ensures Terms(p, 0, a) == 1
  {
    assert Pow(a, 0) == 1;
  }

  /** Modulo a prime only the outer two terms are left. */
  lemma {:induction false} PrimeTerms(p: nat, k: nat, a: nat)
    requires IsPrime(p) && 2 <= p && k < p
    ensures Terms(p, k, a) % p == 1
  {
    hide IsPrime, Choose, Pow;
    if k == 0 {
      TermZero(p, a);
      ModUnique(1, p, 0, 1);
    } else {
      PrimeTerms(p, k - 1, a);
      PrimeChoose(p, k);
      var q, t := Choose(p, k) / p, Pow(a, k);
      Associate(t, q, p);
      SameMod(Terms(p, k, a), Terms(p, k - 1, a), p, t * q);
    }
  }

  lemma {:induction false} FermatSum(p: nat, a: nat)
    requires IsPrime(p)
    ensures Pow(a, p) % p == a % p
  {
    if a == 0 {
      assert Pow(0, p) == 0;
    } else {
      var b := a - 1;
      FermatSum(p, b);
      Binomial(p, b);
      PrimeTerms(p, p - 1, b);
      ChooseAll(p);
      assert Pow(a, p) == Pow(b, p) + Terms(p, p - 1, b);
      var k := Pow(b, p) / p - b / p + Terms(p, p - 1, b) / p;
      SumMod(Pow(b, p), Terms(p, p - 1, b), b, p);
    }
  }

  lemma SumMod(x: nat, y: nat, b: nat, p: nat)
    requires 2 <= p && x % p == b % p && y % p == 1
    ensures (x + y) % p == (b + 1) % p
  {
    var k := x / p - b / p + y / p;
    assert k * p == x / p * p - b / p * p + y / p * p;
    SameMod(x + y, b + 1, p, k);
  }

  /** Fermat's little theorem. */
  lemma Fermat(p: nat, w: nat)
    requires IsPrime(p) && 1 <= w < p
    ensures Pow(w, p - 1) % p == 1
  {
    FermatSum(p, w);
    var t := Pow(w, p - 1);
    PowPositive(w, p - 1);
    assert Pow(w, p) == w * t;
    assert w * (t - 1) == w * t - w;
    ModUnique(w, p, 0, w);
    assert w * t == w * t / p * p + w;
    MultipleMod(w * (t - 1), p, w * t / p);
    Euclid(p, w, t - 1);
    assert t == (t - 1) / p * p + 1;
    ModUnique(t, p, (t - 1) / p, 1);
  }

  lemma {:induction false} PowPositive(b: nat, e: nat)
    requires 1 <= b
    ensures 1 <= Pow(b, e)
  {
    if e > 0 {
      PowPositive(b, e - 1);
      assert b * Pow(b, e - 1) >= 1;
    }
  }

  /** Modulo a prime only 1 and -1 square to 1. */
  lemma SquareRootOfOne(p: nat, x: nat)
    requires IsPrime(p) && x < p && x * x % p == 1
    ensures x == 1 || x == p - 1
  {
    ModUnique(0, p, 0, 0);
    if x != 0 {
      assert (x - 1) * (x + 1) == x * x - 1;
      assert x * x == x * x / p * p + 1;
      MultipleMod((x - 1) * (x + 1), p, x * x / p);
      Euclid(p, x - 1, x + 1);
      if x != 1 && x + 1 < p {
        ModUnique(x - 1, p, 0, x - 1);
        ModUnique(x + 1, p, 0, x + 1);
      }
    }
  }

  function Factorial(n: nat): (f: nat)
    ensures 1 <= f
  {
    if n == 0 then 1 else n * Factorial(n - 1)
  }

  lemma {:induction false} FactorialDivides(n: nat, d: nat)
    requires 1 <= d <= n
    ensures Factorial(n) % d == 0
  {
    var f := Factorial(n - 1);
    if d == n {
      MultipleMod(n * f, d, f);
    } else {
      FactorialDivides(n - 1, d);
      assert n * f == (n * (f / d)) * d by { assert f == f / d * d; }
      MultipleMod(n * f, d, n * (f / d));
    }
  }

  /** The least divisor from d on is prime when nothing below d divides. */
  lemma {:induction false} LeastDivisor(n: nat, d: nat) returns (p: nat)
    requires 2 <= d <= n
    requires forall e {:trigger n % e} :: 2 <= e < d ==> n % e != 0
    ensures d <= p <= n && IsPrime(p) && n % p == 0
    decreases n - d
  {
    if n % d == 0 {
      p := d;
      forall e | 2 <= e < d ensures d % e != 0 {
        if d % e == 0 {
          assert n == n / d * d && d == d / e * e;
          assert n == (n / d * (d / e)) * e;
          MultipleMod(n, e, n / d * (d / e));
        }
      }
    } else {
      if d == n { ModUnique(n, n, 1, 0); }
      p := LeastDivisor(n, d + 1);
    }
  }

  /** There is a prime from n on. */
  lemma PrimeFrom(n: nat) returns (p: nat)
    ensures n <= p && IsPrime(p)
  {
    var f := Factorial(n) + 1;
    p := LeastDivisor(f, 2);
    if p < n {
      FactorialDivides(n, p);
      SameMod(f, 1, p, Factorial(n) / p);
      ModUnique(1, p, 0, 1);
    }
  }
}
