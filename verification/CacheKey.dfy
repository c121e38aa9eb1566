/**
  mtbdd_controls_cachekey: the controls of an operation folded into one 32-bit
  word. As long as nothing wraps around, the fold is Cantor's pairing and tells
  all control vectors apart; with the wrap-around it does not.
*/
module CacheKey {
  import Number

  const WORD: nat := 0x1_0000_0000

  /** PAIR: Cantor's pairing, in unsigned 32-bit arithmetic. */
  function Pair(a: nat, b: nat): (r: nat)
    ensures r < WORD
  {
    var s := (a + b) % WORD;
    (Times(s, (s + 1) % WORD) % WORD / 2 + a) % WORD
  }

  function Times(x: nat, y: nat): nat { x * y }

  function Fold(start: nat, controls: seq<nat>): nat {
    if controls == [] then start else Pair(Fold(start, controls[..|controls| - 1]), controls[|controls| - 1])
  }

  /** The key of a control vector, the target included; the fold starts from the number of the others. */
  function Key(controls: seq<nat>): nat
    requires 1 <= |controls|
  {
    Fold(|controls| - 1, controls)
  }

  /* ---- no wrap-around ---- */

  function Sum(a: nat, b: nat): nat { Times(a + b, a + b + 1) }

  /** Nothing wraps around at this step. */
  predicate Fits(a: nat, b: nat) { a + b + 1 < WORD && Sum(a, b) < WORD && Sum(a, b) / 2 + a < WORD }

  /** Nothing wraps around on the way. */
  predicate Plain(start: nat, controls: seq<nat>) {
    controls == [] || (Plain(start, controls[..|controls| - 1]) && Fits(Fold(start, controls[..|controls| - 1]), controls[|controls| - 1]))
  }

  lemma PairPlain(a: nat, b: nat)
    requires Fits(a, b)
    ensures Pair(a, b) == Sum(a, b) / 2 + a
  {
    hide Times;
    Unchanged(a + b);
    Unchanged(a + b + 1);
    Unchanged(Sum(a, b));
    Unchanged(Sum(a, b) / 2 + a);
  }

  lemma Unchanged(x: nat)
    requires x < WORD
    ensures x % WORD == x
  {
  }

  lemma {:induction false} SumGrows(a: nat, b: nat, c: nat, d: nat)
    requires a + b < c + d
    ensures Sum(a, b) / 2 + (a + b) < Sum(c, d) / 2
  {
    hide Times;
    var s, k := a + b, c + d - (a + b) - 1;
    Steeper(s, k);
    assert s + 1 + k == c + d;
  }

  lemma Steeper(s: nat, k: nat)
    ensures Times(s, s + 1) + 2 * s + 2 <= Times(s + 1 + k, s + 2 + k)
  {
    assert Times(s + 1 + k, s + 2 + k) == s * s + 3 * s + 2 + k * (2 * s + 3 + k);
  }

  /** Cantor's pairing is injective. */
  lemma {:induction false} PairInjective(a: nat, b: nat, c: nat, d: nat)
    requires Fits(a, b) && Fits(c, d) && Pair(a, b) == Pair(c, d)
    ensures a == c && b == d
  {
    PairPlain(a, b);
    PairPlain(c, d);
    if a + b < c + d {
      SumGrows(a, b, c, d);
    } else if c + d < a + b {
      SumGrows(c, d, a, b);
    }
  }

  lemma {:induction false} PairAbove(a: nat, b: nat)
    requires Fits(a, b)
    ensures a <= Pair(a, b)
  {
    PairPlain(a, b);
  }

  lemma {:induction false} FoldAbove(start: nat, controls: seq<nat>)
    requires Plain(start, controls)
    ensures start <= Fold(start, controls)
  {
    if controls != [] {
      var front := controls[..|controls| - 1];
      FoldAbove(start, front);
      PairAbove(Fold(start, front), controls[|controls| - 1]);
    }
  }

  lemma {:induction false} FoldInjective(start: nat, c: seq<nat>, start': nat, c': seq<nat>)
    requires Plain(start, c) && Plain(start', c') && Fold(start, c) == Fold(start', c')
    requires |c'| - |c| == start' - start
    ensures c == c'
  {
    if c == [] {
      FoldAbove(start', c');
    } else if c' == [] {
      FoldAbove(start, c);
    } else {
      var f, f', x, x' := c[..|c| - 1], c'[..|c'| - 1], c[|c| - 1], c'[|c'| - 1];
      hide Fits;
      PairInjective(Fold(start, f), x, Fold(start', f'), x');
      FoldInjective(start, f, start', f');
      assert c == f + [x] && c' == f' + [x'];
    }
  }

  /** Two control vectors whose keys do not wrap around have the same key only if they are the same. */
  lemma {:induction false} KeyInjective(c: seq<nat>, d: seq<nat>)
    requires 1 <= |c| && 1 <= |d| && Plain(|c| - 1, c) && Plain(|d| - 1, d)
    ensures Key(c) == Key(d) <==> c == d
  {
    if Key(c) == Key(d) {
      FoldInjective(|c| - 1, c, |d| - 1, d);
    }
  }

  /* ---- wrap-around ---- */

  lemma FourSteps(start: nat, a: nat, b: nat, c: nat, d: nat)
    ensures Fold(start, [a]) == Pair(start, a) && Fold(start, [a, b]) == Pair(Pair(start, a), b)
    ensures Fold(start, [a, b, c]) == Pair(Pair(Pair(start, a), b), c)
    ensures Fold(start, [a, b, c, d]) == Pair(Pair(Pair(Pair(start, a), b), c), d)
  {
    assert [a, b, c, d][..3] == [a, b, c] && [a, b, c][..2] == [a, b] && [a, b][..1] == [a] && [a][..0] == [];
    assert Fold(start, [a]) == Pair(Fold(start, []), a);
    assert Fold(start, [a, b]) == Pair(Fold(start, [a]), b);
    assert Fold(start, [a, b, c]) == Pair(Fold(start, [a, b]), c);
  }

  /** One step, with the wrap-around of the product given as a quotient. */
  lemma {:induction false} Step(a: nat, b: nat, q: nat, r: nat)
    requires a + b + 1 < WORD && Times(a + b, a + b + 1) == q * WORD + r && r < WORD && r / 2 + a < WORD
    ensures Pair(a, b) == r / 2 + a
  {
    hide Times;
    Unchanged(a + b);
    Unchanged(a + b + 1);
    Unchanged(r / 2 + a);
    Number.ModUnique(Times(a + b, a + b + 1), WORD, q, r);
  }

  /** Three controls and a target, all ascending and below 32: two different ones have the same key. */
  lemma KeyCollision()
    ensures Key([5, 6, 24, 31]) == Key([13, 28, 29, 30])
  {
    hide Pair;
    FourSteps(3, 5, 6, 24, 31);
    Step(3, 5, 0, 72);
    Step(39, 6, 0, 2070);
    Step(1074, 24, 0, 1206702);
    Step(604425, 31, 85, 295440232);
    FourSteps(3, 13, 28, 29, 30);
    Step(3, 13, 0, 272);
    Step(139, 28, 0, 28056);
    Step(14167, 29, 0, 201540612);
    Step(100784473, 30, 2364981, 95080136);
  }

  /** The first of the two and its tails have different keys. */
  lemma TailsApart()
    ensures Key([5, 6, 24, 31]) == 148324541 && Key([6, 24, 31]) == 2047244 && Key([24, 31]) == 64229 && Key([31]) == 496
  {
    hide Pair;
    FourSteps(3, 5, 6, 24, 31);
    Step(3, 5, 0, 72);
    Step(39, 6, 0, 2070);
    Step(1074, 24, 0, 1206702);
    Step(604425, 31, 85, 295440232);
    FourSteps(2, 6, 24, 31, 0);
    Step(2, 6, 0, 72);
    Step(38, 24, 0, 3906);
    Step(1991, 31, 0, 4090506);
    FourSteps(1, 24, 31, 0, 0);
    Step(1, 24, 0, 650);
    Step(326, 31, 0, 127806);
    FourSteps(0, 31, 0, 0, 0);
    Step(0, 31, 0, 992);
  }
}
