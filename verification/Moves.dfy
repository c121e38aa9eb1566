/** What sequences of adjacent exchanges do to an order, given as the sequence of variables by level. */
module Moves {
  import opened SwapTheory
  import opened ReorderSteps
  import opened Rehash

  function SwapAt(s: seq<nat>, l: nat): seq<nat>
    requires l + 1 < |s|
  {
    s[l := s[l + 1]][l + 1 := s[l]]
  }

  /** One exchange, seen from both tables. */
  lemma DownStep(var2level: Order, level2var: seq<nat>, nvars: nat, v: nat)
    requires Orders(var2level, level2var, nvars) && v < nvars && var2level[v] + 1 < nvars
    ensures var l := var2level[v];
            && l + 1 < |level2var| && level2var[l] == v
            && LevelDown(var2level, level2var, v) == SwapAt(level2var, l)
            && OrderDown(var2level, level2var, v) == SwapLevels(var2level, v, level2var[l + 1])
            && OrderDown(var2level, level2var, v)[v] == l + 1
  {
    OrdersSwap(var2level, level2var, nvars, var2level[v]);
  }

  /** The variable that v changes places with. */
  lemma NextBelow(var2level: Order, level2var: seq<nat>, nvars: nat, v: nat)
    requires Orders(var2level, level2var, nvars) && v < nvars && var2level[v] + 1 < nvars
    ensures |var2level| == |level2var| == nvars + 1
    ensures var next := level2var[var2level[v] + 1];
            next < nvars && var2level[next] == var2level[v] + 1 && OrderDown(var2level, level2var, v) == SwapLevels(var2level, v, next)
  {
    DownStep(var2level, level2var, nvars, v);
    OrdersSwap(var2level, level2var, nvars, var2level[v]);
    OrdersRange(var2level, level2var, nvars);
  }

  lemma UpStep(var2level: Order, level2var: seq<nat>, nvars: nat, v: nat)
    requires Orders(var2level, level2var, nvars) && v < nvars && 0 < var2level[v]
    ensures var l := var2level[v];
            && l < nvars && l < |level2var| && level2var[l] == v && level2var[l - 1] < nvars
            && LevelDown(var2level, level2var, level2var[l - 1]) == SwapAt(level2var, l - 1)
            && OrderDown(var2level, level2var, level2var[l - 1])[v] == l - 1
  {
    var l := var2level[v];
    assert level2var[l] == v && var2level[level2var[l - 1]] == l - 1;
    OrdersSwap(var2level, level2var, nvars, l - 1);
  }

  lemma Inverse(var2level: Order, level2var: seq<nat>, nvars: nat, v: nat)
    requires Orders(var2level, level2var, nvars) && v < nvars
    ensures v < |var2level| && var2level[v] < nvars && var2level[v] < |level2var| && level2var[var2level[v]] == v
  {
    assert var2level[v] != var2level[nvars];
  }

  lemma InverseLevel(var2level: Order, level2var: seq<nat>, nvars: nat, l: nat)
    requires Orders(var2level, level2var, nvars) && l < nvars
    ensures l < |level2var| && level2var[l] < nvars && level2var[l] < |var2level| && var2level[level2var[l]] == l
  {
    assert level2var[l] < |var2level| && var2level[level2var[l]] == l;
  }

  /** The first levels hold the variables requested for them. */
  ghost predicate AsRequested(level2var: seq<nat>, neworder: seq<nat>, level: nat) {
    && level <= |neworder| && level <= |level2var|
    && forall i {:trigger level2var[i]} {:trigger neworder[i]} :: 0 <= i < level ==> level2var[i] == neworder[i]
  }

  /** With the first levels as requested, the next requested variable is not above its level. */
  lemma {:induction false} NotBelow(var2level: Order, level2var: seq<nat>, nvars: nat, neworder: seq<nat>, level: nat)
    requires Orders(var2level, level2var, nvars) && level < |neworder| && neworder[level] < nvars
    requires AsRequested(level2var, neworder, level)
    requires forall i, j {:trigger neworder[i], neworder[j]} :: 0 <= i < j < |neworder| ==> neworder[i] != neworder[j]
    ensures neworder[level] < |var2level| && level <= var2level[neworder[level]] < |level2var|
    ensures level2var[var2level[neworder[level]]] == neworder[level]
  {
    Inverse(var2level, level2var, nvars, neworder[level]);
    forall j | 0 <= j < level ensures level2var[j] != neworder[level] {
      assert neworder[j] != neworder[level];
    }
  }

  lemma {:induction false} PlacedMore(order: seq<nat>, order': seq<nat>, neworder: seq<nat>, level: nat)
    requires level < |neworder| && level < |order'| == |order| && order'[level] == neworder[level] && AsRequested(order, neworder, level)
    requires forall i {:trigger order'[i]} :: 0 <= i < level ==> order'[i] == order[i]
    ensures AsRequested(order', neworder, level + 1)
  {
  }

  lemma LastLevel(var2level: Order, level2var: seq<nat>, nvars: nat)
    requires Orders(var2level, level2var, nvars)
    ensures |var2level| == |level2var| == nvars + 1 && level2var[nvars] == nvars
  {
    assert level2var[var2level[nvars]] == nvars;
  }

  /** Where the entry comes from that is at position i after a move. */
  function Source(i: nat, from: nat, to: nat): nat {
    if i == to then from else if from <= i < to then i + 1 else if to < i <= from then i - 1 else i
  }

  /** s with the entry of position `from` moved to position `to`. */
  function Moved(s: seq<nat>, from: nat, to: nat): (r: seq<nat>)
    requires from < |s| && to < |s|
    ensures |r| == |s|
  {
    seq(|s|, i requires 0 <= i < |s| => s[Source(i, from, to)])
  }

  lemma {:induction false} MovedNowhere(s: seq<nat>, l: nat)
    requires l < |s|
    ensures Moved(s, l, l) == s
  {
  }

  lemma {:induction false} MovedDown(s: seq<nat>, from: nat, to: nat)
    requires from <= to && to + 1 < |s|
    ensures SwapAt(Moved(s, from, to), to) == Moved(s, from, to + 1)
  {
  }

  lemma {:induction false} MovedUp(s: seq<nat>, from: nat, to: nat)
    requires 0 < to <= from < |s|
    ensures SwapAt(Moved(s, from, to), to - 1) == Moved(s, from, to - 1)
  {
  }

  lemma {:induction false} MovedAbove(s: seq<nat>, from: nat, to: nat)
    requires to <= from < |s|
    ensures Moved(s, from, to)[to] == s[from] && forall i {:trigger Moved(s, from, to)[i]} :: 0 <= i < to ==> Moved(s, from, to)[i] == s[i]
  {
  }

  /** Moving one entry down and the other one up exchanges them and restores everything between. */
  lemma {:induction false} MovedTwice(s: seq<nat>, l1: nat, l2: nat)
    requires l1 < l2 < |s|
    ensures Moved(Moved(s, l1, l2), l2 - 1, l1) == s[l1 := s[l2]][l2 := s[l1]]
    ensures Moved(s, l1, l2)[l2 - 1] == s[l2] && Moved(s, l1, l2)[l2] == s[l1]
  {
  }

  /* ---- two adjacent blocks ---- */

  /** Increasing levels. */
  ghost predicate Ascending(lev: Order, s: seq<nat>) {
    && (forall i {:trigger s[i]} :: 0 <= i < |s| ==> s[i] < |lev|)
    && forall i, j {:trigger s[i], s[j]} :: 0 <= i < j < |s| ==> lev[s[i]] < lev[s[j]]
  }

  /** The levels from start on hold a shuffle of l and r, each in its own order; the others hold what they did. */
  ghost predicate Shuffled(was: seq<nat>, lev: Order, level2var: seq<nat>, l: seq<nat>, r: seq<nat>, start: nat) {
    && |level2var| == |was| && start + |l| + |r| < |was|
    && Ascending(lev, l) && Ascending(lev, r)
    && (forall i, j {:trigger l[i], r[j]} :: 0 <= i < |l| && 0 <= j < |r| ==> l[i] != r[j])
    && (forall i {:trigger l[i]} :: 0 <= i < |l| ==> start <= lev[l[i]] < start + |l| + |r|)
    && (forall i {:trigger r[i]} :: 0 <= i < |r| ==> start <= lev[r[i]] < start + |l| + |r|)
    && (forall k {:trigger level2var[k]} :: 0 <= k < |was| ==>
          if start <= k < start + |l| + |r| then level2var[k] in l || level2var[k] in r else level2var[k] == was[k])
  }

  /** The distance l still can move. */
  function Depth(lev: Order, l: seq<nat>): nat {
    if l == [] then 0 else Depth(lev, l[..|l| - 1]) + if l[|l| - 1] < |lev| then lev[l[|l| - 1]] else 0
  }

  lemma {:induction false} DepthStep(lev: Order, lev': Order, l: seq<nat>, n: nat)
    requires |lev'| == |lev| && n < |l|
    requires forall i {:trigger l[i]} :: 0 <= i < |l| ==> l[i] < |lev| && lev'[l[i]] == lev[l[i]] + if i == n then 1 else 0
    ensures Depth(lev', l) == Depth(lev, l) + 1
  {
    var k := |l| - 1;
    if n == k {
      DepthSame(lev, lev', l[..k]);
    } else {
      DepthStep(lev, lev', l[..k], n);
    }
  }

  lemma {:induction false} DepthSame(lev: Order, lev': Order, l: seq<nat>)
    requires |lev'| == |lev|
    requires forall i {:trigger l[i]} :: 0 <= i < |l| ==> l[i] < |lev| && lev'[l[i]] == lev[l[i]]
    ensures Depth(lev', l) == Depth(lev, l)
  {
    if l != [] {
      DepthSame(lev, lev', l[..|l| - 1]);
    }
  }

  lemma {:induction false} DepthBound(lev: Order, l: seq<nat>, top: nat)
    requires forall i {:trigger l[i]} :: 0 <= i < |l| ==> l[i] < |lev| && lev[l[i]] < top
    ensures Depth(lev, l) <= |l| * top
  {
    if l != [] {
      DepthBound(lev, l[..|l| - 1], top);
      assert |l| * top == (|l| - 1) * top + top;
    }
  }

  /** A variable of the left block that may move has a variable of the right block below it. */
  lemma NextIsRight(was: seq<nat>, lev: Order, level2var: seq<nat>, nvars: nat, l: seq<nat>, r: seq<nat>, start: nat, n: nat)
    requires Orders(lev, level2var, nvars) && Shuffled(was, lev, level2var, l, r, start) && n < |l| && 0 < |r|
    requires lev[l[n]] < lev[r[|r| - 1]] && (n + 1 < |l| ==> lev[l[n]] + 1 != lev[l[n + 1]])
    ensures lev[l[n]] + 1 < start + |l| + |r| && lev[l[n]] + 1 < |level2var|
    ensures level2var[lev[l[n]] + 1] in r && level2var[lev[l[n]] + 1] !in l
  {
    var k := lev[l[n]];
    var x := level2var[k + 1];
    assert x < |lev| && lev[x] == k + 1;
    forall m | 0 <= m < |l| ensures l[m] != x {
      if m > n + 1 { assert lev[l[n + 1]] < lev[l[m]] && lev[l[n]] < lev[l[n + 1]]; }
    }
  }

  /** ... and moving past it keeps the shuffle. */
  lemma ShuffleStep(was: seq<nat>, lev: Order, level2var: seq<nat>, nvars: nat, l: seq<nat>, r: seq<nat>, start: nat, n: nat)
    requires Orders(lev, level2var, nvars) && Shuffled(was, lev, level2var, l, r, start) && n < |l| && |was| == nvars + 1
    requires lev[l[n]] + 1 < start + |l| + |r| && level2var[lev[l[n]] + 1] in r && level2var[lev[l[n]] + 1] !in l
    ensures l[n] < nvars && lev[l[n]] + 1 < nvars
    ensures var lev', level2var' := OrderDown(lev, level2var, l[n]), LevelDown(lev, level2var, l[n]);
            Shuffled(was, lev', level2var', l, r, start) && Depth(lev', l) == Depth(lev, l) + 1
  {
    var k := lev[l[n]];
    var x := level2var[k + 1];
    StepApart(was, lev, level2var, nvars, l, r, start, n);
    DownStep(lev, level2var, nvars, l[n]);
    var lev', level2var' := OrderDown(lev, level2var, l[n]), LevelDown(lev, level2var, l[n]);
    hide Orders, OrderDown, LevelDown;
    LeftAscends(lev, l, n, x, k);
    RightAscends(lev, r, l[n], x, k);
    hide Ascending, SwapLevels;
    DepthStep(lev, lev', l, n);
    SegmentStep(was, level2var, l, r, start, k);
  }

  /** The two variables that change places belong to different blocks. */
  lemma StepApart(was: seq<nat>, lev: Order, level2var: seq<nat>, nvars: nat, l: seq<nat>, r: seq<nat>, start: nat, n: nat)
    requires Orders(lev, level2var, nvars) && Shuffled(was, lev, level2var, l, r, start) && n < |l| && |was| == nvars + 1
    requires lev[l[n]] + 1 < start + |l| + |r| && level2var[lev[l[n]] + 1] in r && level2var[lev[l[n]] + 1] !in l
    ensures lev[l[n]] + 1 < nvars && l[n] < nvars && l[n] !in r && level2var[lev[l[n]]] == l[n]
    ensures var x := level2var[lev[l[n]] + 1]; x < |lev| && lev[x] == lev[l[n]] + 1
    ensures forall i {:trigger l[i]} :: 0 <= i < |l| ==> lev[l[i]] != lev[l[n]] + 1
    ensures forall i {:trigger r[i]} :: 0 <= i < |r| ==> lev[r[i]] != lev[l[n]]
  {
    var k := lev[l[n]];
    var x := level2var[k + 1];
    var j :| 0 <= j < |r| && r[j] == x;
    assert lev[x] == k + 1;
    forall i | 0 <= i < |l| ensures lev[l[i]] != k + 1 {
      assert level2var[lev[l[i]]] == l[i];
    }
    forall i | 0 <= i < |r| ensures lev[r[i]] != k {
      assert level2var[lev[r[i]]] == r[i] && level2var[k] == l[n];
    }
    assert lev[nvars] == nvars;
  }

  lemma SegmentStep(was: seq<nat>, level2var: seq<nat>, l: seq<nat>, r: seq<nat>, start: nat, k: nat)
    requires |level2var| == |was| && start <= k && k + 1 < start + |l| + |r| < |was|
    requires forall m {:trigger level2var[m]} :: 0 <= m < |was| ==>
               if start <= m < start + |l| + |r| then level2var[m] in l || level2var[m] in r else level2var[m] == was[m]
    ensures forall m {:trigger SwapAt(level2var, k)[m]} :: 0 <= m < |was| ==>
               var y := SwapAt(level2var, k)[m];
               if start <= m < start + |l| + |r| then y in l || y in r else y == was[m]
  {
    assert level2var[k] == level2var[k] && level2var[k + 1] == level2var[k + 1];
  }

  lemma LeftAscends(lev: Order, l: seq<nat>, n: nat, x: nat, k: nat)
    requires Ascending(lev, l) && n < |l| && x < |lev| && x !in l && lev[l[n]] == k && lev[x] == k + 1
    requires forall i {:trigger l[i]} :: 0 <= i < |l| ==> lev[l[i]] != k + 1
    ensures Ascending(SwapLevels(lev, l[n], x), l)
    ensures forall i {:trigger l[i]} :: 0 <= i < |l| ==> SwapLevels(lev, l[n], x)[l[i]] == lev[l[i]] + if i == n then 1 else 0
  {
    forall i | 0 <= i < |l| && i != n ensures l[i] != l[n] && l[i] != x && lev[l[i]] != k {
      if i < n { assert lev[l[i]] < lev[l[n]]; } else { assert lev[l[n]] < lev[l[i]]; }
    }
  }

  lemma RightAscends(lev: Order, r: seq<nat>, v: nat, x: nat, k: nat)
    requires Ascending(lev, r) && x in r && v < |lev| && v !in r && lev[v] == k && lev[x] == k + 1
    requires forall i {:trigger r[i]} :: 0 <= i < |r| ==> lev[r[i]] != k
    ensures Ascending(SwapLevels(lev, v, x), r)
    ensures forall i {:trigger r[i]} :: 0 <= i < |r| ==> SwapLevels(lev, v, x)[r[i]] == if r[i] == x then k else lev[r[i]]
  {
    var j :| 0 <= j < |r| && r[j] == x;
    forall i | 0 <= i < |r| && i != j ensures r[i] != x && lev[r[i]] != k + 1 {
      if i < j { assert lev[r[i]] < lev[r[j]]; } else { assert lev[r[j]] < lev[r[i]]; }
    }
  }

  lemma ShuffleStart(lev: Order, level2var: seq<nat>, nvars: nat, l: seq<nat>, r: seq<nat>, start: nat)
    requires Orders(lev, level2var, nvars) && start + |l| + |r| <= nvars
    requires level2var[start..start + |l| + |r|] == l + r
    ensures Shuffled(level2var, lev, level2var, l, r, start)
  {
    var s := level2var[start..start + |l| + |r|];
    forall i | 0 <= i < |l| ensures l[i] < |lev| && lev[l[i]] == start + i {
      assert l[i] == (l + r)[i] && s[i] == level2var[start + i];
    }
    forall i | 0 <= i < |r| ensures r[i] < |lev| && lev[r[i]] == start + |l| + i {
      assert r[i] == (l + r)[|l| + i] && s[|l| + i] == level2var[start + |l| + i];
    }
    forall k | start <= k < start + |l| + |r| ensures level2var[k] in l || level2var[k] in r {
      assert s[k - start] == level2var[k];
      if k - start < |l| {
        assert l[k - start] == (l + r)[k - start];
      } else {
        assert r[k - start - |l|] == (l + r)[k - start];
      }
    }
  }

  lemma {:induction false} AscendsFast(lev: Order, s: seq<nat>, i: nat)
    requires Ascending(lev, s) && i < |s|
    ensures lev[s[0]] + i <= lev[s[i]]
  {
    if i > 0 {
      AscendsFast(lev, s, i - 1);
      assert lev[s[i - 1]] < lev[s[i]];
    }
  }

  lemma {:induction false} AscendsUnder(lev: Order, s: seq<nat>, i: nat, top: nat)
    requires Ascending(lev, s) && i < |s| && lev[s[|s| - 1]] < top
    ensures lev[s[i]] + |s| - i <= top
    decreases |s| - i
  {
    if i + 1 < |s| {
      AscendsUnder(lev, s, i + 1, top);
      assert lev[s[i]] < lev[s[i + 1]];
    }
  }

  /** When the top of the left block is below the bottom of the right one, the two have changed places. */
  lemma {:induction false} BlocksCrossed(was: seq<nat>, lev: Order, level2var: seq<nat>, nvars: nat, l: seq<nat>, r: seq<nat>, start: nat)
    requires Orders(lev, level2var, nvars) && Shuffled(was, lev, level2var, l, r, start) && 0 < |l| && 0 < |r|
    requires lev[l[0]] >= lev[r[|r| - 1]]
    ensures level2var == was[..start] + r + l + was[start + |l| + |r|..]
    ensures lev[r[0]] == start
  {
    hide Ascending;
    Bounded(lev, l);
    Bounded(lev, r);
    var p, q := |l|, |r|;
    Meet(lev, level2var, nvars, l, r);
    forall i | 0 <= i < q ensures lev[r[i]] == start + i && level2var[start + i] == r[i] {
      RightPlace(lev, l, r, start, i);
      assert level2var[lev[r[i]]] == r[i];
    }
    forall i | 0 <= i < p ensures lev[l[i]] == start + q + i && level2var[start + q + i] == l[i] {
      LeftPlace(lev, l, r, start, i);
      assert level2var[lev[l[i]]] == l[i];
    }
    Assemble(was, level2var, l, r, start);
  }

  lemma {:induction false} Assemble(was: seq<nat>, s: seq<nat>, l: seq<nat>, r: seq<nat>, start: nat)
    requires |s| == |was| && start + |l| + |r| <= |was|
    requires forall i {:trigger r[i]} :: 0 <= i < |r| ==> s[start + i] == r[i]
    requires forall i {:trigger l[i]} :: 0 <= i < |l| ==> s[start + |r| + i] == l[i]
    requires forall k {:trigger s[k]} :: 0 <= k < |was| && !(start <= k < start + |l| + |r|) ==> s[k] == was[k]
    ensures s == was[..start] + r + l + was[start + |l| + |r|..]
  {
    var t := was[..start] + r + l + was[start + |l| + |r|..];
    forall k | 0 <= k < |s| ensures s[k] == t[k] {
      if start <= k < start + |r| {
        assert s[start + (k - start)] == r[k - start];
      } else if start + |r| <= k < start + |l| + |r| {
        assert s[start + |r| + (k - start - |r|)] == l[k - start - |r|];
      }
    }
  }

  lemma {:induction false} Bounded(lev: Order, s: seq<nat>)
    requires Ascending(lev, s)
    ensures forall i {:trigger s[i]} :: 0 <= i < |s| ==> s[i] < |lev|
  {
  }

  /** Different variables, different levels. */
  lemma {:induction false} Meet(lev: Order, level2var: seq<nat>, nvars: nat, l: seq<nat>, r: seq<nat>)
    requires Orders(lev, level2var, nvars) && 0 < |l| && 0 < |r| && l[0] < |lev| && r[|r| - 1] < |lev| && l[0] != r[|r| - 1]
    requires lev[l[0]] >= lev[r[|r| - 1]]
    ensures lev[l[0]] > lev[r[|r| - 1]]
  {
    assert level2var[lev[l[0]]] == l[0] && level2var[lev[r[|r| - 1]]] == r[|r| - 1];
  }

  lemma {:induction false} RightPlace(lev: Order, l: seq<nat>, r: seq<nat>, start: nat, i: nat)
    requires Ascending(lev, l) && Ascending(lev, r) && 0 < |l| && i < |r| && lev[l[0]] > lev[r[|r| - 1]]
    requires start <= lev[r[0]] && lev[l[|l| - 1]] < start + |l| + |r|
    ensures lev[r[i]] == start + i
  {
    var p, q := |l|, |r|;
    AscendsFast(lev, r, i);
    AscendsUnder(lev, l, 0, start + p + q);
    AscendsUnder(lev, r, i, start + q);
  }

  lemma {:induction false} LeftPlace(lev: Order, l: seq<nat>, r: seq<nat>, start: nat, i: nat)
    requires Ascending(lev, l) && Ascending(lev, r) && i < |l| && 0 < |r| && lev[l[0]] > lev[r[|r| - 1]]
    requires start <= lev[r[0]] && lev[l[|l| - 1]] < start + |l| + |r|
    ensures lev[l[i]] == start + |r| + i
  {
    AscendsFast(lev, r, |r| - 1);
    AscendsFast(lev, l, i);
    AscendsUnder(lev, l, i, start + |l| + |r|);
  }

  /** While the blocks have not crossed, some variable of the left one can move. */
  lemma SomeCanMove(lev: Order, l: seq<nat>, r: seq<nat>) returns (n: nat)
    requires Ascending(lev, l) && Ascending(lev, r) && 0 < |l| && 0 < |r|
    requires lev[l[0]] < lev[r[|r| - 1]]
    requires forall i, j {:trigger l[i], r[j]} :: 0 <= i < |l| && 0 <= j < |r| ==> lev[l[i]] != lev[r[j]]
    ensures n < |l| && lev[l[n]] < lev[r[|r| - 1]] && (n + 1 < |l| ==> lev[r[|r| - 1]] < lev[l[n + 1]])
  {
    n := 0;
    while n + 1 < |l| && lev[l[n + 1]] < lev[r[|r| - 1]]
      invariant n < |l| && lev[l[n]] < lev[r[|r| - 1]]
    {
      n := n + 1;
    }
  }

  lemma ShuffledApart(was: seq<nat>, lev: Order, level2var: seq<nat>, nvars: nat, l: seq<nat>, r: seq<nat>, start: nat)
    requires Orders(lev, level2var, nvars) && Shuffled(was, lev, level2var, l, r, start)
    ensures forall i, j {:trigger l[i], r[j]} :: 0 <= i < |l| && 0 <= j < |r| ==> lev[l[i]] != lev[r[j]]
  {
    forall i, j | 0 <= i < |l| && 0 <= j < |r| ensures lev[l[i]] != lev[r[j]] {
      assert level2var[lev[l[i]]] == l[i] && level2var[lev[r[j]]] == r[j];
    }
  }
}
