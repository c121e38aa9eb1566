/**
  prime.c: the search for the prime sizes of every table of the package, with
  a Miller-Rabin test on random witnesses.
*/
module Prime {
  import opened Number

  const CHECKTIMES: nat := 20

  function NumberOfBits(n: nat): nat {
    if n == 0 then 0 else 1 + NumberOfBits(n / 2)
  }

  function Quotient(n: nat, t: nat): nat
    requires 0 < t
  {
    n / t
  }

  /** What is left of n when its e low bits are cut off. */
  function High(n: nat, e: nat): nat { Quotient(n, Two(e)) }

  predicate BitIsSet(n: nat, b: nat) { High(n, b) % 2 == 1 }

  lemma HighStep(n: nat, e: nat)
    ensures High(n, e) == 2 * High(n, e + 1) + if BitIsSet(n, e) then 1 else 0
  {
    var t := Two(e);
    var h := n / t;
    assert n == h * t + n % t && h == 2 * (h / 2) + h % 2;
    assert n == (h / 2) * (2 * t) + (h % 2 * t + n % t) by {
      assert h * t == (h / 2) * (2 * t) + h % 2 * t;
    }
    assert h % 2 * t <= t;
    ModUnique(n, 2 * t, h / 2, h % 2 * t + n % t);
  }

  lemma {:induction false} HighNone(n: nat)
    ensures n < Two(NumberOfBits(n)) && High(n, NumberOfBits(n)) == 0
  {
    if n > 0 {
      HighNone(n / 2);
    }
    ModUnique(n, Two(NumberOfBits(n)), 0, n);
  }

  /** w to the power of the leading bits of n - 1, from bit e on, modulo n. */
  function Leading(w: nat, n: nat, e: nat): nat
    requires 1 <= n
  {
    Pow(w, High(n - 1, e)) % n
  }

  /** A proof that n is not prime: a square root of 1 that is not 1 or -1, or a power that Fermat's theorem forbids. */
  ghost predicate Witness(w: nat, n: nat)
    requires 2 <= n
  {
    || Pow(w, n - 1) % n != 1
    || exists e: nat {:trigger Leading(w, n, e)} ::
         1 <= e <= NumberOfBits(n - 1) && Leading(w, n, e) != 1 && Leading(w, n, e) != n - 1
         && Leading(w, n, e) * Leading(w, n, e) % n == 1
  }

  /** No number is a witness against a prime. */
  lemma PrimeHasNoWitness(p: nat, w: nat)
    requires IsPrime(p) && 1 <= w < p
    ensures !Witness(w, p)
  {
    Fermat(p, w);
    forall e: nat | 1 <= e <= NumberOfBits(p - 1) && Leading(w, p, e) * Leading(w, p, e) % p == 1
      ensures Leading(w, p, e) == 1 || Leading(w, p, e) == p - 1
    {
      SquareRootOfOne(p, Leading(w, p, e));
    }
  }

  lemma {:induction false} PowDouble(b: nat, e: nat)
    ensures Pow(b, 2 * e) == Pow(b, e) * Pow(b, e)
  {
    if e > 0 {
      PowDouble(b, e - 1);
      var q := Pow(b, e - 1);
      assert Pow(b, 2 * e) == b * (b * Pow(b, 2 * e - 2));
      assert b * (b * (q * q)) == (b * q) * (b * q);
    }
  }

  /** One round of square and multiply. */
  lemma SquareMultiply(w: nat, n: nat, e: nat)
    requires 2 <= n
    ensures var x := Leading(w, n, e + 1);
            Leading(w, n, e) == if BitIsSet(n - 1, e) then (x * x % n) * w % n else x * x % n
  {
    HighStep(n - 1, e);
    var h := High(n - 1, e + 1);
    var q := Pow(w, h);
    PowDouble(w, h);
    MulModBoth(q, q, n);
    if BitIsSet(n - 1, e) {
      assert Pow(w, 2 * h + 1) == w * (q * q);
      MulMod(q * q, w, n);
      assert w * (q * q) == (q * q) * w;
    }
  }

  /** The rounds from bit e on have found no square root of 1 but 1 and -1. */
  ghost predicate NoRoot(w: nat, n: nat, e: nat)
    requires 2 <= n
  {
    forall k: nat {:trigger Leading(w, n, k)} :: e <= k <= NumberOfBits(n - 1) ==>
      Leading(w, n, k) * Leading(w, n, k) % n == 1 ==> Leading(w, n, k) == 1 || Leading(w, n, k) == n - 1
  }

  lemma {:induction false} NoRootStep(w: nat, n: nat, e: nat)
    requires 2 <= n && NoRoot(w, n, e + 1)
    requires Leading(w, n, e) * Leading(w, n, e) % n == 1 ==> Leading(w, n, e) == 1 || Leading(w, n, e) == n - 1
    ensures NoRoot(w, n, e)
  {
  }

  lemma {:induction false} RootWitness(w: nat, n: nat, e: nat)
    requires 2 <= n && 1 <= e <= NumberOfBits(n - 1) && Leading(w, n, e) != 1 && Leading(w, n, e) != n - 1
    requires Leading(w, n, e) * Leading(w, n, e) % n == 1
    ensures Witness(w, n)
  {
  }

  lemma {:induction false} WitnessEnd(w: nat, n: nat)
    requires 2 <= n && NoRoot(w, n, 1)
    ensures Witness(w, n) <==> Leading(w, n, 0) != 1
  {
    assert High(n - 1, 0) == n - 1;
  }

  lemma {:induction false} WitnessStart(w: nat, n: nat)
    requires 2 <= n
    ensures Leading(w, n, NumberOfBits(n - 1)) == 1 && NoRoot(w, n, NumberOfBits(n - 1) + 1)
  {
    HighNone(n - 1);
    ModUnique(1, n, 0, 1);
  }

  /** What it says in powers alone. */
  lemma {:induction false} WitnessSpelled(w: nat, n: nat)
    requires 2 <= n
    ensures Witness(w, n) <==>
              || Pow(w, n - 1) % n != 1
              || exists e: nat {:trigger Two(e)} ::
                   1 <= e && var x := Pow(w, (n - 1) / Two(e)) % n; x != 1 && x != n - 1 && Pow(x, 2) % n == 1
  {
    hide Witness, Pow, Two;
    if Pow(w, n - 1) % n != 1 {
      NotFermat(w, n);
    } else if Witness(w, n) {
      var e := WitnessRoot(w, n);
    } else if e: nat :| 1 <= e && var x := Pow(w, (n - 1) / Two(e)) % n; x != 1 && x != n - 1 && Pow(x, 2) % n == 1 {
      RootSpelled(w, n, e);
    }
  }

  lemma NotFermat(w: nat, n: nat)
    requires 2 <= n && Pow(w, n - 1) % n != 1
    ensures Witness(w, n)
  {
    hide Pow, Leading;
  }

  lemma Squared(x: nat)
    ensures Pow(x, 2) == x * x
  {
    assert Pow(x, 1) == x * Pow(x, 0);
  }

  lemma {:induction false} WitnessRoot(w: nat, n: nat) returns (e: nat)
    requires 2 <= n && Witness(w, n) && Pow(w, n - 1) % n == 1
    ensures 1 <= e && var x := Pow(w, (n - 1) / Two(e)) % n; x != 1 && x != n - 1 && Pow(x, 2) % n == 1
  {
    hide Pow, Two, Leading, NumberOfBits;
    e :| 1 <= e <= NumberOfBits(n - 1) && Leading(w, n, e) != 1 && Leading(w, n, e) != n - 1 && Leading(w, n, e) * Leading(w, n, e) % n == 1;
    LeadingIs(w, n, e);
    Squared(Leading(w, n, e));
  }

  lemma {:induction false} RootSpelled(w: nat, n: nat, e: nat)
    requires 2 <= n && 1 <= e && var x := Pow(w, (n - 1) / Two(e)) % n; x != 1 && x != n - 1 && Pow(x, 2) % n == 1
    ensures Witness(w, n)
  {
    hide Pow, Two, Leading, NumberOfBits, Witness;
    LeadingIs(w, n, e);
    Squared(Leading(w, n, e));
    if NumberOfBits(n - 1) < e { LeadingNone(w, n, e); } else { RootWitness(w, n, e); }
  }

  lemma LeadingIs(w: nat, n: nat, e: nat)
    requires 2 <= n
    ensures Leading(w, n, e) == Pow(w, (n - 1) / Two(e)) % n
  {
  }

  /** When all bits are cut off, one is left. */
  lemma {:induction false} LeadingNone(w: nat, n: nat, e: nat)
    requires 2 <= n && NumberOfBits(n - 1) <= e
    ensures Leading(w, n, e) == 1
  {
    HighNone(n - 1);
    TwoGrows(NumberOfBits(n - 1), e);
    ModUnique(n - 1, Two(e), 0, n - 1);
    ModUnique(1, n, 0, 1);
  }

  method IsWitness(w: nat, src: nat) returns (r: bool)
    requires 2 <= src
    ensures r <==> Witness(w, src)
  {
    hide Leading, Witness, NoRoot, NumberOfBits;
    var d := 1;
    var i: int := NumberOfBits(src - 1) - 1;
    WitnessStart(w, src);
    while i >= 0
      invariant -1 <= i < NumberOfBits(src - 1)
      invariant d == Leading(w, src, i + 1) && NoRoot(w, src, i + 2)
    {
      var x := d;
      d := d * d % src;
      if d == 1 && x != 1 && x != src - 1 {
        RootWitness(w, src, i + 1);
        return true;
      }
      NoRootStep(w, src, i + 1);
      SquareMultiply(w, src, i);
      if BitIsSet(src - 1, i) {
        d := d * w % src;
      }
      i := i - 1;
    }
    WitnessEnd(w, src);
    return d != 1;
  }

  /** The draws from number `at` on: none of the CHECKTIMES that a test takes is a witness against src. */
  ghost predicate Passes(rand: nat -> nat, at: nat, src: nat)
    requires 2 <= src
  {
    forall n {:trigger rand(n)} :: at <= n < at + CHECKTIMES ==> !Witness(rand(n) % (src - 1) + 1, src)
  }

  /** Some draw from number `at` on and before number `next` is a witness against src. */
  ghost predicate Rejected(rand: nat -> nat, at: nat, next: nat, src: nat)
    requires 2 <= src
  {
    exists n {:trigger rand(n)} :: at <= n < next && Witness(rand(n) % (src - 1) + 1, src)
  }

  /**
    The test on the random numbers from number `at` on. It says yes exactly when
    none of its draws is a witness, and stops at the first one that is; so a
    prime passes whatever is drawn. `next` is the number of the next draw.
  */
  method IsMillerRabinPrime(src: nat, rand: nat -> nat, at: nat) returns (r: bool, next: nat)
    requires 2 <= src
    ensures r <==> forall n {:trigger rand(n)} :: at <= n < at + CHECKTIMES ==> !Witness(rand(n) % (src - 1) + 1, src)
    ensures r ==> next == at + CHECKTIMES
    ensures !r ==> at < next <= at + CHECKTIMES && Witness(rand(next - 1) % (src - 1) + 1, src)
    ensures forall n {:trigger rand(n)} :: at <= n < next - 1 ==> !Witness(rand(n) % (src - 1) + 1, src)
    ensures IsPrime(src) ==> r
  {
    hide Witness, IsPrime;
    var n := 0;
    while n < CHECKTIMES
      invariant n <= CHECKTIMES
      invariant forall i {:trigger rand(i)} :: at <= i < at + n ==> !Witness(rand(i) % (src - 1) + 1, src)
    {
      var w := rand(at + n) % (src - 1) + 1;
      var found := IsWitness(w, src);
      if found {
        if IsPrime(src) { PrimeHasNoWitness(src, w); }
        return false, at + n + 1;
      }
      n := n + 1;
    }
    return true, at + CHECKTIMES;
  }

  predicate HasFactor(src: nat, n: nat)
    requires 0 < n
  {
    src != n && src % n == 0
  }

  predicate HasEasyFactors(src: nat) {
    HasFactor(src, 3) || HasFactor(src, 5) || HasFactor(src, 7) || HasFactor(src, 11) || HasFactor(src, 13)
  }

  /** The easy factors are the primes from 3 to 13, of another number. */
  lemma {:induction false} EasySpelled(src: nat)
    ensures HasEasyFactors(src) <==> exists p: nat {:trigger src % p} :: IsPrime(p) && 3 <= p <= 13 && src != p && src % p == 0
  {
    forall p: nat | IsPrime(p) && 3 <= p <= 13 ensures p == 3 || p == 5 || p == 7 || p == 11 || p == 13 {
      assert p % 2 != 0 && (p == 3 || p % 3 != 0);
    }
    assert IsPrime(3) && IsPrime(5) && IsPrime(7) && IsPrime(11) && IsPrime(13);
    hide IsPrime;
  }

  lemma PrimeHasNoEasyFactor(p: nat)
    requires IsPrime(p)
    ensures !HasEasyFactors(p)
  {
    forall n | n in {3, 5, 7, 11, 13} ensures !HasFactor(p, n) {
      if p < n { ModUnique(p, n, 0, p); }
    }
  }

  /** Yes exactly when none of five small primes divides the number properly and the draws find no witness. */
  method IsProbablePrime(src: nat, rand: nat -> nat, at: nat) returns (r: bool, next: nat)
    requires 2 <= src
    ensures r <==> Passes(rand, at, src) && !HasEasyFactors(src)
    ensures r ==> next == at + CHECKTIMES
    ensures !r ==> at <= next && (HasEasyFactors(src) || Rejected(rand, at, next, src))
    ensures IsPrime(src) ==> r
  {
    hide Witness, IsPrime, HasEasyFactors;
    if IsPrime(src) { PrimeHasNoEasyFactor(src); }
    if HasEasyFactors(src) {
      return false, at;
    }
    r, next := IsMillerRabinPrime(src, rand, at);
  }

  lemma OddPrime(p: nat)
    requires IsPrime(p) && 3 <= p
    ensures p % 2 == 1
  {
    assert p % 2 != 0;
  }

  /** What was stepped over has an easy factor or a witness among the draws. */
  ghost predicate SteppedOver(rand: nat -> nat, next: nat, q: nat)
    requires 2 <= q
  {
    HasEasyFactors(q) || Rejected(rand, 0, next, q)
  }

  lemma StillRejected(rand: nat -> nat, next: nat, next': nat)
    requires next <= next'
    ensures forall q: nat {:trigger SteppedOver(rand, next, q)} {:trigger SteppedOver(rand, next', q)} :: 2 <= q && SteppedOver(rand, next, q) ==> SteppedOver(rand, next', q)
  {
    hide Witness, HasEasyFactors;
  }

  /**
    bdd_prime_gte, on random numbers drawn one after the other: it ends at the
    next odd prime at the latest and never steps over one. The result has passed
    the draws from number `last` on, and every odd number stepped over has an
    easy factor or a witness among the draws before. The result itself may be a
    composite that fooled every draw.
  */
  method PrimeGte(n: nat, rand: nat -> nat) returns (src: nat, ghost last: nat)
    requires 2 <= n
    ensures n <= src && src % 2 == 1 && !HasEasyFactors(src) && Passes(rand, last, src)
    ensures forall q: nat {:trigger SteppedOver(rand, last, q)} :: n <= q < src && q % 2 == 1 ==> SteppedOver(rand, last, q)
    ensures forall q: nat {:trigger IsPrime(q)} :: IsPrime(q) && 3 <= q && n <= q ==> src <= q
  {
    hide IsPrime, HasEasyFactors, Witness, Passes, SteppedOver;
    src := n;
    if src % 2 == 0 {
      src := src + 1;
    }
    ghost var prime := PrimeFrom(src);
    OddPrime(prime);
    forall q: nat | IsPrime(q) && 3 <= q && n <= q ensures src <= q { OddPrime(q); }
    last := 0;
    var found, next := IsProbablePrime(src, rand, 0);
    if !found { Stepped(rand, 0, next, src); }
    while !found
      invariant n <= src <= prime && src % 2 == 1 && 3 <= src && last <= next
      invariant found ==> !HasEasyFactors(src) && Passes(rand, last, src)
      invariant !found ==> !IsPrime(src) && SteppedOver(rand, next, src)
      invariant forall q: nat {:trigger SteppedOver(rand, last, q)} :: n <= q < src && q % 2 == 1 ==> SteppedOver(rand, last, q)
      invariant forall q: nat {:trigger IsPrime(q)} :: IsPrime(q) && 3 <= q && n <= q ==> src <= q
      decreases prime - src
    {
      forall q: nat | IsPrime(q) && 3 <= q && n <= q ensures src + 2 <= q { OddPrime(q); }
      StillRejected(rand, last, next);
      src := src + 2;
      last := next;
      found, next := IsProbablePrime(src, rand, next);
      if !found { Stepped(rand, last, next, src); }
    }
  }

  lemma Stepped(rand: nat -> nat, at: nat, next: nat, q: nat)
    requires 2 <= q && (HasEasyFactors(q) || Rejected(rand, at, next, q))
    ensures SteppedOver(rand, next, q)
  {
    hide Witness, HasEasyFactors;
  }

  lemma ThreeIsPrime()
    ensures IsPrime(3)
  {
  }

  /** bdd_prime_lte, downwards: it stops at 3 at the latest. */
  method PrimeLte(n: nat, rand: nat -> nat) returns (src: nat, ghost last: nat)
    requires 3 <= n
    ensures 3 <= src <= n && src % 2 == 1 && !HasEasyFactors(src) && Passes(rand, last, src)
    ensures forall q: nat {:trigger SteppedOver(rand, last, q)} :: src < q <= n && q % 2 == 1 ==> SteppedOver(rand, last, q)
    ensures forall q: nat {:trigger IsPrime(q)} :: IsPrime(q) && q <= n ==> q <= src
  {
    hide IsPrime, HasEasyFactors, Witness, Passes, SteppedOver;
    src := n;
    if src % 2 == 0 {
      src := src - 1;
    }
    ThreeIsPrime();
    forall q: nat | IsPrime(q) && q <= n ensures q <= src { if 3 <= q { OddPrime(q); } }
    last := 0;
    var found, next := IsProbablePrime(src, rand, 0);
    if !found { Stepped(rand, 0, next, src); }
    while !found
      invariant 3 <= src <= n && src % 2 == 1 && last <= next
      invariant found ==> !HasEasyFactors(src) && Passes(rand, last, src)
      invariant !found ==> !IsPrime(src) && SteppedOver(rand, next, src)
      invariant forall q: nat {:trigger SteppedOver(rand, last, q)} :: src < q <= n && q % 2 == 1 ==> SteppedOver(rand, last, q)
      invariant forall q: nat {:trigger IsPrime(q)} :: IsPrime(q) && q <= n ==> q <= src
      decreases src
    {
      forall q: nat | IsPrime(q) && q <= n ensures q <= src - 2 { if 3 <= q { OddPrime(q); } }
      StillRejected(rand, last, next);
      src := src - 2;
      last := next;
      found, next := IsProbablePrime(src, rand, next);
      if !found { Stepped(rand, last, next, src); }
    }
  }
}
