/**
  The renaming pairs of pairs.c as reordering sees them: one entry per level,
  moved along when two adjacent levels change places.
*/
module PairTable {

  class Pair {
    var result: seq<nat>
    var last: int
    var id: nat

    constructor ()
      ensures result == [] && last == -1 && id == 0
    {
      result, last, id := [], -1, 0;
    }
  }

  function SwapEntries(result: seq<nat>, level: nat): (r: seq<nat>)
    requires level + 1 < |result|
    ensures |r| == |result|
  {
    result[level := result[level + 1]][level + 1 := result[level]]
  }

  function LastAfter(last: int, level: nat): int { if last == level then level + 1 else last }

  /** One table per pair, each with an entry for every level below n. */
  ghost predicate Fit(pairs: seq<Pair>, n: nat)
    reads pairs
  {
    && (forall i {:trigger pairs[i]} :: 0 <= i < |pairs| ==> |pairs[i].result| == n)
    && (forall i, j {:trigger pairs[i], pairs[j]} :: 0 <= i < j < |pairs| ==> pairs[i] != pairs[j])
  }

  /** All entries, one row per pair. */
  ghost function Entries(pairs: seq<Pair>): (r: seq<seq<nat>>)
    reads pairs
    ensures |r| == |pairs| && forall i {:trigger r[i]} :: 0 <= i < |pairs| ==> r[i] == pairs[i].result
  {
    seq(|pairs|, i requires 0 <= i < |pairs| reads pairs => pairs[i].result)
  }

  /**
    bdd_pairs_vardown: when the variables of two adjacent levels change places
    during a reordering, their entries do so too.
  */
  method PairsVarDown(pairs: seq<Pair>, level: nat, ghost n: nat)
    requires Fit(pairs, n) && level + 1 < n
    modifies pairs`result, pairs`last
    ensures Fit(pairs, n)
    ensures forall i {:trigger pairs[i]} :: 0 <= i < |pairs| ==>
              && pairs[i].result == SwapEntries(old(pairs[i].result), level) && pairs[i].id == old(pairs[i].id)
              && pairs[i].last == LastAfter(old(pairs[i].last), level)
  {
    var k := 0;
    while k < |pairs|
      invariant k <= |pairs|
      invariant forall i {:trigger pairs[i]} :: 0 <= i < |pairs| ==> pairs[i].id == old(pairs[i].id) && level + 1 < |old(pairs[i].result)|
      invariant forall i {:trigger pairs[i]} :: 0 <= i < k ==>
                  && pairs[i].result == SwapEntries(old(pairs[i].result), level)
                  && pairs[i].last == LastAfter(old(pairs[i].last), level)
      invariant forall i {:trigger pairs[i]} :: k <= i < |pairs| ==>
                  pairs[i].result == old(pairs[i].result) && pairs[i].last == old(pairs[i].last)
    {
      var p := pairs[k];
      assert p in pairs;
      p.result := p.result[level := p.result[level + 1]][level + 1 := p.result[level]];
      if p.last == level {
        p.last := p.last + 1;
      }
      k := k + 1;
    }
  }

  /* ---- over a run of exchanges ---- */

  /** The entry of every variable below n has followed it from its level in lev to its level in lev'. */
  ghost predicate FollowedRow(row: seq<nat>, lev: seq<nat>, row': seq<nat>, lev': seq<nat>, n: nat) {
    |lev| == |lev'| && n <= |lev| && |row| == |row'| == n &&
    forall v {:trigger lev[v]} {:trigger lev'[v]} :: 0 <= v < n ==> lev[v] < n && lev'[v] < n && row'[lev'[v]] == row[lev[v]]
  }

  ghost predicate Followed(rows: seq<seq<nat>>, lev: seq<nat>, rows': seq<seq<nat>>, lev': seq<nat>, n: nat) {
    |rows'| == |rows| && forall i {:trigger rows[i]} {:trigger rows'[i]} :: 0 <= i < |rows| ==> FollowedRow(rows[i], lev, rows'[i], lev', n)
  }

  /** Entries above `last` are the ones a new pair has: the literal of the level's variable. */
  ghost predicate PlainRow(row: seq<nat>, last: int, level2var: seq<nat>, literal: nat -> nat) {
    |row| <= |level2var| && last < |row| && forall l {:trigger row[l]} :: 0 <= l < |row| && last < l ==> row[l] == literal(level2var[l])
  }

  ghost predicate PlainPairs(pairs: seq<Pair>, level2var: seq<nat>, literal: nat -> nat)
    reads pairs
  {
    forall i {:trigger pairs[i]} :: 0 <= i < |pairs| ==> PlainRow(pairs[i].result, pairs[i].last, level2var, literal)
  }

  lemma FollowedTrans(rows: seq<seq<nat>>, lev: seq<nat>, rows1: seq<seq<nat>>, lev1: seq<nat>, rows2: seq<seq<nat>>, lev2: seq<nat>, n: nat)
    requires Followed(rows, lev, rows1, lev1, n) && Followed(rows1, lev1, rows2, lev2, n)
    ensures Followed(rows, lev, rows2, lev2, n)
  {
    forall i | 0 <= i < |rows| ensures FollowedRow(rows[i], lev, rows2[i], lev2, n) {
      assert FollowedRow(rows[i], lev, rows1[i], lev1, n) && FollowedRow(rows1[i], lev1, rows2[i], lev2, n);
    }
  }

  lemma FollowedNothing(rows: seq<seq<nat>>, lev: seq<nat>, n: nat)
    requires n <= |lev| && forall v {:trigger lev[v]} :: 0 <= v < n ==> lev[v] < n
    requires forall i {:trigger rows[i]} :: 0 <= i < |rows| ==> |rows[i]| == n
    ensures Followed(rows, lev, rows, lev, n)
  {
  }

  /** By variable, one exchange changes nothing: the entry of a variable follows it to its new level. */
  lemma EntryFollows(row: seq<nat>, level: nat, lev: seq<nat>, v0: nat, v1: nat, n: nat)
    requires level + 1 < n == |row| && n <= |lev| && v0 < n && v1 < n && v0 != v1 && lev[v0] == level && lev[v1] == level + 1
    requires forall v {:trigger lev[v]} :: 0 <= v < n ==> lev[v] < n && (v != v0 && v != v1 ==> lev[v] != level && lev[v] != level + 1)
    ensures FollowedRow(row, lev, SwapEntries(row, level), lev[v0 := lev[v1]][v1 := lev[v0]], n)
  {
  }

  /** ... and above the new `last` there is still nothing but literals. */
  lemma LastFollows(row: seq<nat>, last: int, level2var: seq<nat>, literal: nat -> nat, level: nat)
    requires level + 1 < |row| && PlainRow(row, last, level2var, literal)
    ensures PlainRow(SwapEntries(row, level), LastAfter(last, level), level2var[level := level2var[level + 1]][level + 1 := level2var[level]], literal)
  {
    var row', last' := SwapEntries(row, level), LastAfter(last, level);
    forall l | 0 <= l < |row'| && last' < l
      ensures row'[l] == literal(level2var[level := level2var[level + 1]][level + 1 := level2var[level]][l])
    {
      assert row[l] == row[l];
      if l == level { assert row[level + 1] == literal(level2var[level + 1]); }
      if l == level + 1 { assert row[level] == literal(level2var[level]); }
    }
  }
}
