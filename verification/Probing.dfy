/**
  Open addressing with linear probing, the index of evdd_value.c: a slot holds
  an id or 0, and every id is found from its home slot without crossing an
  empty one.
*/
module Probing {
  import opened Number

  /** Occupied slots. */
  function Count(idx: seq<nat>): nat {
    if idx == [] then 0 else (if idx[0] != 0 then 1 else 0) + Count(idx[1..])
  }

  lemma {:induction false} CountBound(idx: seq<nat>)
    ensures Count(idx) <= |idx|
    ensures Count(idx) < |idx| ==> exists e :: 0 <= e < |idx| && idx[e] == 0
  {
    if idx != [] {
      CountBound(idx[1..]);
      if Count(idx) < |idx| {
        if idx[0] != 0 {
          var e :| 0 <= e < |idx[1..]| && idx[1..][e] == 0;
          assert idx[e + 1] == 0;
        }
      }
    }
  }

  lemma {:induction false} CountFill(idx: seq<nat>, k: nat, id: nat)
    requires k < |idx| && idx[k] == 0 && id != 0
    ensures Count(idx[k := id]) == Count(idx) + 1
  {
    if k == 0 {
      assert idx[0 := id][1..] == idx[1..];
    } else {
      CountFill(idx[1..], k - 1, id);
      assert idx[k := id][1..] == idx[1..][k - 1 := id];
    }
  }

  lemma {:induction false} CountPrefix(idx: seq<nat>, j: nat)
    requires j < |idx|
    ensures Count(idx[..j + 1]) == Count(idx[..j]) + (if idx[j] != 0 then 1 else 0)
    ensures Count(idx[..j + 1]) <= Count(idx)
  {
    if j == 0 {
      assert idx[..1][1..] == [] && idx[..0] == [];
    } else {
      CountPrefix(idx[1..], j - 1);
      assert idx[..j + 1][1..] == idx[1..][..j] && idx[..j][1..] == idx[1..][..j - 1];
    }
  }

  lemma {:induction false} CountZeros(n: nat)
    ensures Count(seq(n, _ => 0)) == 0
  {
    if n != 0 {
      CountZeros(n - 1);
      assert seq(n, _ => 0 as nat)[1..] == seq(n - 1, _ => 0 as nat);
    }
  }

  /** (k + 1) & (cap - 1) */
  function Next(k: nat, cap: nat): (r: nat)
    requires k < cap
  {
    if k + 1 == cap then 0 else k + 1
  }

  /** s lies on the cyclic way from h up to, not including, k. */
  predicate Between(h: nat, s: nat, k: nat) { if h <= k then h <= s < k else h <= s || s < k }

  /** Steps from k to e. */
  function Distance(k: nat, e: nat, cap: nat): nat
    requires k < cap && e < cap
  {
    if k <= e then e - k else e + cap - k
  }

  /** No empty slot between the home h and k. */
  ghost predicate Reaches(idx: seq<nat>, h: nat, k: nat) {
    forall s {:trigger idx[s]} :: 0 <= s < |idx| && Between(h, s, k) ==> idx[s] != 0
  }

  /** The slot a probe for home h tries first. */
  type Home = nat -> nat

  /** home(id) is the home slot of id in this index. */
  ghost predicate Probed(idx: seq<nat>, home: Home) {
    forall k {:trigger idx[k]} :: 0 <= k < |idx| && idx[k] != 0 ==> Reaches(idx, home(idx[k]), k)
  }

  ghost predicate Distinct(idx: seq<nat>) {
    forall k, k' {:trigger idx[k], idx[k']} :: 0 <= k < |idx| && 0 <= k' < |idx| && idx[k] == idx[k'] != 0 ==> k == k'
  }

  ghost predicate Holds(idx: seq<nat>, id: nat) { id != 0 && id in idx }

  /** A probe that has seen only occupied slots and stands on an occupied one goes on, nearer to any empty slot. */
  lemma StepOn(idx: seq<nat>, h: nat, k: nat, e: nat)
    requires h < |idx| && k < |idx| && e < |idx| && idx[e] == 0 && idx[k] != 0 && Reaches(idx, h, k)
    ensures Reaches(idx, h, Next(k, |idx|)) && Distance(Next(k, |idx|), e, |idx|) < Distance(k, e, |idx|)
  {
    var k' := Next(k, |idx|);
    assert !Between(h, e, k);
    assert k' != h;
  }

  /** Filling the empty slot a probe from its home ends at. */
  lemma Filled(idx: seq<nat>, home: Home, k: nat, id: nat)
    requires Probed(idx, home) && Distinct(idx) && k < |idx| && idx[k] == 0 && id != 0 && id !in idx
    requires Reaches(idx, home(id), k)
    ensures Probed(idx[k := id], home) && Distinct(idx[k := id])
    ensures Count(idx[k := id]) == Count(idx) + 1
    ensures forall j {:trigger Holds(idx[k := id], j)} :: Holds(idx[k := id], j) <==> Holds(idx, j) || j == id
  {
    CountFill(idx, k, id);
    var idx' := idx[k := id];
    forall k1 | 0 <= k1 < |idx'| && idx'[k1] != 0 ensures Reaches(idx', home(idx'[k1]), k1) {
      if k1 != k { assert Reaches(idx, home(idx[k1]), k1); }
    }
    forall j ensures Holds(idx', j) <==> Holds(idx, j) || j == id {
      if Holds(idx, j) {
        var s :| 0 <= s < |idx| && idx[s] == j;
        assert idx'[s] == j;
      }
      assert idx'[k] == id;
    }
  }

  /** An id of home h is met before the probe from h stops at the empty slot e. */
  lemma MetBefore(idx: seq<nat>, home: Home, h: nat, e: nat, k: nat)
    requires Probed(idx, home) && h < |idx| && e < |idx| && idx[e] == 0 && k < |idx| && idx[k] != 0 && home(idx[k]) == h
    ensures Between(h, k, e)
  {
    assert Reaches(idx, h, k);
    assert idx[e] == 0;
  }

  lemma EmptyIndex(n: nat, home: Home)
    ensures var idx: seq<nat> := seq(n, _ => 0); Probed(idx, home) && Distinct(idx) && Count(idx) == 0 && forall j :: !Holds(idx, j)
  {
    CountZeros(n);
  }

  /* ---- the odometer over the neighbours of a cell ---- */

  /** An offset of -1, 0 or 1 on every axis. */
  ghost predicate Offset(v: seq<int>) {
    forall a {:trigger v[a]} :: 0 <= a < |v| ==> -1 <= v[a] <= 1
  }

  /** Axis 0 is the fastest wheel. */
  function Reading(v: seq<int>): int {
    if v == [] then 0 else v[0] + 1 + 3 * Reading(v[1..])
  }

  lemma {:induction false} ReadingRange(v: seq<int>)
    requires Offset(v)
    ensures 0 <= Reading(v) < Pow(3, |v|)
  {
    if v != [] {
      assert Offset(v[1..]) by { forall a | 0 <= a < |v[1..]| ensures -1 <= v[1..][a] <= 1 { assert v[1..][a] == v[a + 1]; } }
      ReadingRange(v[1..]);
    }
  }

  /** Different offsets have different readings. */
  lemma {:induction false} ReadingInjective(v: seq<int>, w: seq<int>)
    requires |v| == |w| && Offset(v) && Offset(w) && Reading(v) == Reading(w)
    ensures v == w
  {
    if v != [] {
      assert Offset(v[1..]) by { forall a | 0 <= a < |v[1..]| ensures -1 <= v[1..][a] <= 1 { assert v[1..][a] == v[a + 1]; } }
      assert Offset(w[1..]) by { forall a | 0 <= a < |w[1..]| ensures -1 <= w[1..][a] <= 1 { assert w[1..][a] == w[a + 1]; } }
      assert -1 <= v[0] <= 1 && -1 <= w[0] <= 1;
      ReadingInjective(v[1..], w[1..]);
      assert v == [v[0]] + v[1..] && w == [w[0]] + w[1..];
    }
  }

  /** Axes below a have run out and are back at -1; axis a moves up. */
  ghost predicate Bumped(v: seq<int>, w: seq<int>, a: nat) {
    && |v| == |w| && a <= |v|
    && (forall b {:trigger v[b]} {:trigger w[b]} :: 0 <= b < a ==> v[b] == 1 && w[b] == -1)
    && (forall b {:trigger v[b]} {:trigger w[b]} :: a < b < |v| ==> w[b] == v[b])
    && (a < |v| ==> w[a] == v[a] + 1)
  }

  /** One turn adds one to the reading; when every axis has run out it was the last one. */
  lemma {:induction false} BumpedReading(v: seq<int>, w: seq<int>, a: nat)
    requires Bumped(v, w, a)
    ensures a < |v| ==> Reading(w) == Reading(v) + 1
    ensures a == |v| ==> Reading(v) == Pow(3, |v|) - 1
  {
    if v != [] {
      if a == 0 {
        assert v[1..] == w[1..];
      } else {
        assert v[0] == 1 && w[0] == -1;
        forall b | 0 <= b < a - 1 ensures v[1..][b] == 1 && w[1..][b] == -1 { assert v[b + 1] == 1; }
        BumpedReading(v[1..], w[1..], a - 1);
      }
    }
  }
}
