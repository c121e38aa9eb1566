/**
  The interaction matrix of a reordering session, as mark_roots fills it in
  while it follows the roots: which variables occur together below one root.
  The walk below a root stops at what has a reference already, and takes over
  the row of that node's variable.
*/
module Interaction {
  import opened SwapTheory

  /** What has been finished, and the variables met since the root. */
  datatype Walk = Walk(done: set<nat>, dep: set<nat>)

  /** The variables marked with v. */
  function Row(mtx: Matrix, v: nat): set<nat> {
    set y: nat | v < |mtx| && y < |mtx[v]| && mtx[v][y]
  }

  function VarsOf(dep: seq<bool>): set<nat> { set v: nat | v < |dep| && dep[v] }

  /** addref_rec, as far as the dependencies go. */
  ghost function Visit(g: Graph, lev: Order, ext: set<nat>, mtx: Matrix, w: Walk, r: nat): Walk
    requires Wf(g, lev) && Node(g, r)
    decreases Rank(g, lev, r), 1
  {
    if r !in g then w
    else if r in w.done || r in ext then w.(dep := w.dep + Row(mtx, g[r].v))
    else
      var w2 := VisitChildren(g, lev, ext, mtx, w.(dep := w.dep + {g[r].v}), r);
      w2.(done := w2.done + {r})
  }

  ghost function VisitChildren(g: Graph, lev: Order, ext: set<nat>, mtx: Matrix, w: Walk, r: nat): Walk
    requires Wf(g, lev) && r in g
    decreases Rank(g, lev, r), 0
  {
    assert GoodNode(g, lev, r);
    Visit(g, lev, ext, mtx, Visit(g, lev, ext, mtx, w, g[r].low), g[r].high)
  }

  lemma VisitConstant(g: Graph, lev: Order, ext: set<nat>, mtx: Matrix, w: Walk, r: nat)
    requires Wf(g, lev) && Node(g, r) && r !in g
    ensures Visit(g, lev, ext, mtx, w, r) == w
  {
  }

  lemma VisitMet(g: Graph, lev: Order, ext: set<nat>, mtx: Matrix, w: Walk, r: nat)
    requires Wf(g, lev) && r in g && (r in w.done || r in ext)
    ensures Visit(g, lev, ext, mtx, w, r) == w.(dep := w.dep + Row(mtx, g[r].v))
  {
  }

  lemma VisitNew(g: Graph, lev: Order, ext: set<nat>, mtx: Matrix, w: Walk, r: nat)
    requires Wf(g, lev) && r in g && r !in w.done && r !in ext
    ensures var w2 := VisitChildren(g, lev, ext, mtx, w.(dep := w.dep + {g[r].v}), r);
            Visit(g, lev, ext, mtx, w, r) == w2.(done := w2.done + {r})
  {
  }

  /** imatrixNew. */
  function Blank(size: nat): (m: Matrix)
    ensures |m| == size && forall x {:trigger m[x]} :: 0 <= x < size ==> |m[x]| == size
  {
    seq(size, _ => seq(size, _ => false))
  }

  /** addDependencies: every pair of dep is marked. */
  function WithPairs(mtx: Matrix, dep: set<nat>): (m: Matrix)
    ensures |m| == |mtx| && forall x {:trigger m[x]} :: 0 <= x < |mtx| ==> |m[x]| == |mtx[x]|
    ensures forall x, y {:trigger m[x][y]} :: 0 <= x < |mtx| && 0 <= y < |mtx[x]| ==> m[x][y] == (mtx[x][y] || (x in dep && y in dep))
  {
    seq(|mtx|, x requires 0 <= x < |mtx| => seq(|mtx[x]|, y requires 0 <= y < |mtx[x]| => mtx[x][y] || (x in dep && y in dep)))
  }

  /** The second loop of mark_roots has come to slot n. */
  datatype Progress = Progress(done: set<nat>, mtx: Matrix)

  ghost function Following(g: Graph, lev: Order, ext: set<nat>, n: nat): Progress
    requires Wf(g, lev)
  {
    if n <= 2 then Progress({}, Blank(|lev| - 1))
    else
      var p := Following(g, lev, ext, n - 1);
      if n - 1 in ext && n - 1 in g then FollowOne(g, lev, ext, p, n - 1) else p
  }

  ghost function FollowOne(g: Graph, lev: Order, ext: set<nat>, p: Progress, r: nat): Progress
    requires Wf(g, lev) && r in g
  {
    var w := VisitChildren(g, lev, ext, p.mtx, Walk(p.done, {g[r].v}), r);
    Progress(w.done + {r}, WithPairs(p.mtx, w.dep))
  }

  /** The matrix of a session whose table has the given size. */
  ghost function Interactions(g: Graph, lev: Order, ext: set<nat>, size: nat): Matrix
    requires Wf(g, lev)
  {
    Following(g, lev, ext, size).mtx
  }

  /* ---- what it covers ---- */

  /** q is r or below it. */
  ghost predicate Reaches(g: Graph, lev: Order, r: nat, q: nat)
    requires Wf(g, lev) && Node(g, r)
    decreases Rank(g, lev, r)
  {
    q == r || (r in g && (assert GoodNode(g, lev, r); Reaches(g, lev, g[r].low, q) || Reaches(g, lev, g[r].high, q)))
  }

  /** No root is below one with a smaller number. */
  ghost predicate RootsInOrder(g: Graph, lev: Order, ext: set<nat>)
    requires Wf(g, lev)
  {
    forall q, r {:trigger Reaches(g, lev, r, q)} :: q in ext && r in ext && r in g && Reaches(g, lev, r, q) ==> q <= r
  }

  /** The row of a node's variable has all that the node tests. */
  ghost predicate InRow(g: Graph, lev: Order, mtx: Matrix, n: nat)
    requires Wf(g, lev)
  {
    n in g && Support(g, lev, n) <= Row(mtx, g[n].v)
  }

  /** A node that was finished is covered by the row of its variable, or was met since the root. */
  ghost predicate Seen(g: Graph, lev: Order, mtx: Matrix, w: Walk)
    requires Wf(g, lev)
  {
    forall n {:trigger n in w.done} :: n in w.done ==> n in g && (InRow(g, lev, mtx, n) || Support(g, lev, n) <= w.dep)
  }

  /** The roots the walk may meet were followed before. */
  ghost predicate Earlier(g: Graph, lev: Order, ext: set<nat>, mtx: Matrix, r: nat)
    requires Wf(g, lev) && Node(g, r)
  {
    forall q {:trigger Reaches(g, lev, r, q)} :: q in ext && q in g && Reaches(g, lev, r, q) ==> InRow(g, lev, mtx, q)
  }

  ghost predicate Larger(w: Walk, w': Walk) { w.done <= w'.done && w.dep <= w'.dep }

  lemma {:induction false} VisitCovers(g: Graph, lev: Order, ext: set<nat>, mtx: Matrix, w: Walk, r: nat)
    requires Wf(g, lev) && Node(g, r) && Seen(g, lev, mtx, w) && Earlier(g, lev, ext, mtx, r)
    ensures var w' := Visit(g, lev, ext, mtx, w, r);
            Larger(w, w') && Seen(g, lev, mtx, w') && Support(g, lev, r) <= w'.dep
    decreases Rank(g, lev, r), 1
  {
    hide InRow, Row;
    if r in g && !(r in w.done || r in ext) {
      var w1 := w.(dep := w.dep + {g[r].v});
      ChildrenEarlier(g, lev, ext, mtx, r);
      ChildrenCover(g, lev, ext, mtx, w1, r);
    } else if r in g {
      assert Reaches(g, lev, r, r);
      assert Support(g, lev, r) <= w.dep + Row(mtx, g[r].v) by { RowHas(g, lev, mtx, r); }
    }
  }

  lemma RowHas(g: Graph, lev: Order, mtx: Matrix, n: nat)
    requires Wf(g, lev) && n in g
    ensures InRow(g, lev, mtx, n) ==> Support(g, lev, n) <= Row(mtx, g[n].v)
  {
  }

  lemma {:induction false} ChildrenEarlier(g: Graph, lev: Order, ext: set<nat>, mtx: Matrix, r: nat)
    requires Wf(g, lev) && r in g
    requires forall q {:trigger Reaches(g, lev, r, q)} :: q in ext && q in g && q != r && Reaches(g, lev, r, q) ==> InRow(g, lev, mtx, q)
    ensures Node(g, g[r].low) && Node(g, g[r].high)
    ensures Earlier(g, lev, ext, mtx, g[r].low) && Earlier(g, lev, ext, mtx, g[r].high)
  {
    hide InRow;
    assert GoodNode(g, lev, r);
    forall k, q | (k == g[r].low || k == g[r].high) && q in ext && q in g && Reaches(g, lev, k, q) ensures InRow(g, lev, mtx, q) {
      ReachesDown(g, lev, k, q);
      assert Reaches(g, lev, r, q);
    }
  }

  /** What is below a node is not above it. */
  lemma {:induction false} ReachesDown(g: Graph, lev: Order, r: nat, q: nat)
    requires Wf(g, lev) && Node(g, r) && Reaches(g, lev, r, q)
    ensures Node(g, q) && Rank(g, lev, q) <= Rank(g, lev, r)
    decreases Rank(g, lev, r)
  {
    if q != r {
      assert GoodNode(g, lev, r);
      ReachesDown(g, lev, if Reaches(g, lev, g[r].low, q) then g[r].low else g[r].high, q);
    }
  }

  lemma {:induction false} ChildrenCover(g: Graph, lev: Order, ext: set<nat>, mtx: Matrix, w: Walk, r: nat)
    requires Wf(g, lev) && r in g && g[r].v in w.dep && Seen(g, lev, mtx, w) && Node(g, g[r].low) && Node(g, g[r].high)
    requires Earlier(g, lev, ext, mtx, g[r].low) && Earlier(g, lev, ext, mtx, g[r].high)
    ensures var w' := VisitChildren(g, lev, ext, mtx, w, r);
            && Larger(w, w') && Support(g, lev, r) <= w'.dep
            && Seen(g, lev, mtx, w') && Seen(g, lev, mtx, w'.(done := w'.done + {r}))
    decreases Rank(g, lev, r), 0
  {
    hide InRow, Earlier;
    assert GoodNode(g, lev, r);
    var w1 := Visit(g, lev, ext, mtx, w, g[r].low);
    VisitCovers(g, lev, ext, mtx, w, g[r].low);
    VisitCovers(g, lev, ext, mtx, w1, g[r].high);
  }

  /** Following one root marks any two variables it tests, and leaves every finished node in its row. */
  lemma {:induction false} OneCovers(g: Graph, lev: Order, ext: set<nat>, p: Progress, r: nat)
    requires Wf(g, lev) && r in g && Square(p.mtx, |lev| - 1)
    requires forall n {:trigger n in p.done} :: n in p.done ==> InRow(g, lev, p.mtx, n)
    requires forall q {:trigger Reaches(g, lev, r, q)} :: q in ext && q in g && q != r && Reaches(g, lev, r, q) ==> InRow(g, lev, p.mtx, q)
    ensures var p' := FollowOne(g, lev, ext, p, r);
            && Square(p'.mtx, |lev| - 1) && CoveredNode(g, lev, p'.mtx, r)
            && (forall n {:trigger n in p'.done} :: n in p'.done ==> InRow(g, lev, p'.mtx, n))
            && forall x, y {:trigger Marked(p'.mtx, x, y)} :: Marked(p.mtx, x, y) ==> Marked(p'.mtx, x, y)
  {
    hide Earlier, Square;
    ChildrenEarlier(g, lev, ext, p.mtx, r);
    var w := Walk(p.done, {g[r].v});
    var w' := VisitChildren(g, lev, ext, p.mtx, w, r);
    assert Seen(g, lev, p.mtx, w) by {
      forall n | n in w.done ensures n in g && InRow(g, lev, p.mtx, n) {}
    }
    ChildrenCover(g, lev, ext, p.mtx, w, r);
    var mtx' := WithPairs(p.mtx, w'.dep);
    MarksGrow(p.mtx, w'.dep, |lev| - 1);
    hide VisitChildren, Larger, WithPairs;
    forall n | n in w'.done + {r} ensures InRow(g, lev, mtx', n) {
      DoneInRow(g, lev, p.mtx, w'.(done := w'.done + {r}), n);
    }
    forall x, y | x in Support(g, lev, r) && y in Support(g, lev, r) ensures Marked(mtx', x, y) {
      SupportRange(g, lev, r, x);
      SupportRange(g, lev, r, y);
      PairMarked(p.mtx, w'.dep, |lev| - 1, x, y);
    }
  }

  predicate Square(mtx: Matrix, size: nat) {
    |mtx| == size && forall x {:trigger mtx[x]} :: 0 <= x < size ==> |mtx[x]| == size
  }

  lemma BlankSquare(size: nat)
    ensures Square(Blank(size), size)
  {
  }

  /** Entry by entry. */
  lemma {:induction false} PairsAre(mtx: Matrix, dep: seq<bool>, m: Matrix)
    requires Square(mtx, |dep|) && Square(m, |dep|)
    requires forall x, y {:trigger m[x][y]} :: 0 <= x < |dep| && 0 <= y < |dep| ==> m[x][y] == (mtx[x][y] || (dep[x] && dep[y]))
    ensures m == WithPairs(mtx, VarsOf(dep))
  {
    var w := WithPairs(mtx, VarsOf(dep));
    forall x | 0 <= x < |dep| ensures m[x] == w[x] {
      forall y | 0 <= y < |dep| ensures m[x][y] == w[x][y] {
        assert x in VarsOf(dep) <==> dep[x];
        assert y in VarsOf(dep) <==> dep[y];
      }
    }
  }

  lemma MarksGrow(mtx: Matrix, dep: set<nat>, size: nat)
    requires Square(mtx, size)
    ensures Square(WithPairs(mtx, dep), size)
    ensures forall x, y {:trigger Marked(WithPairs(mtx, dep), x, y)} :: Marked(mtx, x, y) ==> Marked(WithPairs(mtx, dep), x, y)
  {
  }

  lemma PairMarked(mtx: Matrix, dep: set<nat>, size: nat, x: nat, y: nat)
    requires Square(mtx, size) && x < size && y < size
    ensures Marked(WithPairs(mtx, dep), x, y) <==> Marked(mtx, x, y) || (x in dep && y in dep)
  {
    var m := WithPairs(mtx, dep);
    assert m[x][y] == (mtx[x][y] || (x in dep && y in dep));
  }

  lemma {:induction false} SupportRange(g: Graph, lev: Order, n: nat, v: nat)
    requires Wf(g, lev) && Node(g, n) && v in Support(g, lev, n)
    ensures v < |lev| - 1
    decreases Rank(g, lev, n)
  {
    assert GoodNode(g, lev, n);
    if v != g[n].v {
      SupportRange(g, lev, if v in Support(g, lev, g[n].low) then g[n].low else g[n].high, v);
    }
  }

  lemma {:induction false} DoneInRow(g: Graph, lev: Order, mtx: Matrix, w: Walk, n: nat)
    requires Wf(g, lev) && Square(mtx, |lev| - 1) && Seen(g, lev, mtx, w) && n in w.done
    ensures InRow(g, lev, WithPairs(mtx, w.dep), n)
  {
    hide WithPairs, Square;
    assert GoodNode(g, lev, n);
    assert g[n].v in Support(g, lev, n);
    assert InRow(g, lev, mtx, n) || Support(g, lev, n) <= w.dep;
    forall y | y in Support(g, lev, n) ensures y in Row(WithPairs(mtx, w.dep), g[n].v) {
      SupportRange(g, lev, n, y);
      PairMarked(mtx, w.dep, |lev| - 1, g[n].v, y);
      MarkedRow(mtx, g[n].v, y);
      MarkedRow(WithPairs(mtx, w.dep), g[n].v, y);
    }
  }

  lemma MarkedRow(mtx: Matrix, v: nat, y: nat)
    ensures y in Row(mtx, v) <==> Marked(mtx, v, y)
  {
  }

  /** What the loop has established when it comes to slot n. */
  ghost predicate CoveredBelow(g: Graph, lev: Order, ext: set<nat>, p: Progress, n: nat)
    requires Wf(g, lev)
  {
    && Square(p.mtx, |lev| - 1)
    && (forall m {:trigger m in p.done} :: m in p.done ==> InRow(g, lev, p.mtx, m))
    && (forall r {:trigger r in ext} :: r in ext && r in g && r < n ==> CoveredNode(g, lev, p.mtx, r))
  }

  lemma CoveredInRow(g: Graph, lev: Order, mtx: Matrix, r: nat)
    requires Wf(g, lev) && r in g && CoveredNode(g, lev, mtx, r)
    ensures InRow(g, lev, mtx, r)
  {
    assert GoodNode(g, lev, r);
    assert g[r].v in Support(g, lev, r);
    forall y | y in Support(g, lev, r) ensures y in Row(mtx, g[r].v) {
      assert Marked(mtx, g[r].v, y);
    }
  }

  lemma {:induction false} FollowingCovers(g: Graph, lev: Order, ext: set<nat>, n: nat)
    requires Wf(g, lev) && RootsInOrder(g, lev, ext)
    ensures CoveredBelow(g, lev, ext, Following(g, lev, ext, n), n)
  {
    hide *;
    if n <= 2 {
      BlankCovers(g, lev, ext, n);
    } else {
      FollowingCovers(g, lev, ext, n - 1);
      if n - 1 in ext && n - 1 in g {
        OneMoreCovered(g, lev, ext, Following(g, lev, ext, n - 1), n - 1);
        FollowedOne(g, lev, ext, n);
      } else {
        FollowedNone(g, lev, ext, n);
        NoneCovered(g, lev, ext, Following(g, lev, ext, n - 1), n - 1);
      }
    }
  }

  lemma BlankCovers(g: Graph, lev: Order, ext: set<nat>, n: nat)
    requires Wf(g, lev) && n <= 2
    ensures CoveredBelow(g, lev, ext, Following(g, lev, ext, n), n)
  {
    hide CoveredNode, InRow;
    assert Following(g, lev, ext, n) == Progress({}, Blank(|lev| - 1));
    forall r | r in g ensures 2 <= r {
      assert GoodNode(g, lev, r);
    }
  }

  lemma NoneCovered(g: Graph, lev: Order, ext: set<nat>, p: Progress, n: nat)
    requires Wf(g, lev) && CoveredBelow(g, lev, ext, p, n) && !(n in ext && n in g)
    ensures CoveredBelow(g, lev, ext, p, n + 1)
  {
    hide Wf, CoveredNode, InRow, Square;
  }

  lemma {:induction false} OneMoreCovered(g: Graph, lev: Order, ext: set<nat>, p: Progress, r: nat)
    requires Wf(g, lev) && RootsInOrder(g, lev, ext) && CoveredBelow(g, lev, ext, p, r) && r in ext && r in g
    ensures CoveredBelow(g, lev, ext, FollowOne(g, lev, ext, p, r), r + 1)
  {
    hide Wf, Square, InRow, FollowOne, CoveredNode, Reaches;
    forall q | q in ext && q in g && q != r && Reaches(g, lev, r, q) ensures InRow(g, lev, p.mtx, q) {
      CoveredInRow(g, lev, p.mtx, q);
    }
    OneCovers(g, lev, ext, p, r);
    var p' := FollowOne(g, lev, ext, p, r);
    forall q | q in ext && q in g && q < r + 1 ensures CoveredNode(g, lev, p'.mtx, q) {
      if q != r { StillCovered(g, lev, p.mtx, p'.mtx, q); }
    }
  }

  lemma StillCovered(g: Graph, lev: Order, mtx: Matrix, mtx': Matrix, r: nat)
    requires Wf(g, lev) && Node(g, r) && CoveredNode(g, lev, mtx, r)
    requires forall x, y {:trigger Marked(mtx', x, y)} :: Marked(mtx, x, y) ==> Marked(mtx', x, y)
    ensures CoveredNode(g, lev, mtx', r)
  {
    hide Wf, Marked, Support;
  }

  lemma FollowedOne(g: Graph, lev: Order, ext: set<nat>, n: nat)
    requires Wf(g, lev) && 2 < n && n - 1 in ext && n - 1 in g
    ensures Following(g, lev, ext, n) == FollowOne(g, lev, ext, Following(g, lev, ext, n - 1), n - 1)
  {
  }

  lemma FollowedNone(g: Graph, lev: Order, ext: set<nat>, n: nat)
    requires Wf(g, lev) && 2 < n && !(n - 1 in ext && n - 1 in g)
    ensures Following(g, lev, ext, n) == Following(g, lev, ext, n - 1)
  {
  }

  /**
    When no root is below one that is followed earlier, the matrix marks any two
    variables of one root.
  */
  lemma {:induction false} InOrderCovers(g: Graph, lev: Order, ext: set<nat>, size: nat, r: nat)
    requires Wf(g, lev) && RootsInOrder(g, lev, ext) && r in ext && r in g && r < size
    ensures CoveredNode(g, lev, Interactions(g, lev, ext, size), r)
  {
    FollowingCovers(g, lev, ext, size);
  }

  /* ---- and what it misses ---- */

  /** Two roots, the later one below the earlier one. */
  const TWO_ROOTS: Graph := map[2 := Inner(0, 0, 3), 3 := Inner(1, 0, 1)]
  const TWO_LEVELS: Order := [0, 1, 2]

  /**
    Otherwise a pair can be missed: node 2 tests variable 0 over node 3, a root
    that has not been followed yet and whose row is still empty. Exchanging the
    two variables then leaves the nodes alone, and the table out of order.
  */
  lemma {:induction false} LaterRootMissed()
    ensures Wf(TWO_ROOTS, TWO_LEVELS) && Unique(TWO_ROOTS) && !RootsInOrder(TWO_ROOTS, TWO_LEVELS, {2, 3})
    ensures Depends(TWO_ROOTS, 2, 0, 1) && !Marked(Interactions(TWO_ROOTS, TWO_LEVELS, {2, 3}, 4), 0, 1)
    ensures !Wf(TWO_ROOTS, SwapLevels(TWO_LEVELS, 0, 1))
  {
    hide Wf, Unique, WithPairs, Following, FollowOne, Blank, Row, Reaches, Marked, Square, SwapLevels;
    var g, lev, ext := TWO_ROOTS, TWO_LEVELS, {2, 3};
    TwoRootsGood();
    TwoRootsReach();
    SkipExact(g, lev, 0, 1);
    assert Depends(g, 2, 0, 1);
    FollowedStart(g, lev, ext);
    FollowedOne(g, lev, ext, 3);
    FollowedOne(g, lev, ext, 4);
    var p2, p3 := Following(g, lev, ext, 2), Following(g, lev, ext, 3);
    FirstRoot(p2);
    SecondRoot(p3);
    PairMarked(p2.mtx, {0}, 2, 0, 1);
    PairMarked(p3.mtx, {1}, 2, 0, 1);
  }

  lemma TwoRootsGood()
    ensures Wf(TWO_ROOTS, TWO_LEVELS) && Unique(TWO_ROOTS)
  {
    var g, lev := TWO_ROOTS, TWO_LEVELS;
    assert g.Keys == {2, 3} && g[2] == Inner(0, 0, 3) && g[3] == Inner(1, 0, 1);
    assert IsOrder(lev);
    hide IsOrder;
    forall n | n in g ensures GoodNode(g, lev, n) {
      assert n == 2 || n == 3;
    }
    hide GoodNode;
  }

  lemma TwoRootsReach()
    ensures Wf(TWO_ROOTS, TWO_LEVELS) && Reaches(TWO_ROOTS, TWO_LEVELS, 2, 3)
  {
    TwoRootsGood();
    hide Wf;
    assert Reaches(TWO_ROOTS, TWO_LEVELS, 3, 3);
  }

  lemma FollowedStart(g: Graph, lev: Order, ext: set<nat>)
    requires Wf(g, lev)
    ensures Following(g, lev, ext, 2) == Progress({}, Blank(|lev| - 1))
  {
  }

  /** Node 3 has a reference and an empty row, so nothing is known of it. */
  lemma FirstRoot(p: Progress)
    requires p == Progress({}, Blank(2))
    ensures Wf(TWO_ROOTS, TWO_LEVELS) && FollowOne(TWO_ROOTS, TWO_LEVELS, {2, 3}, p, 2).mtx == WithPairs(p.mtx, {0})
    ensures Square(p.mtx, 2) && !Marked(p.mtx, 0, 1) && Square(WithPairs(p.mtx, {0}), 2)
  {
    TwoRootsGood();
    hide Wf, WithPairs;
    var g, lev, ext, w := TWO_ROOTS, TWO_LEVELS, {2, 3}, Walk({}, {0});
    assert Row(p.mtx, 1) == {};
    assert Visit(g, lev, ext, p.mtx, w, 0) == w;
    assert Visit(g, lev, ext, p.mtx, w, 3) == w.(dep := {0} + {});
    assert {0} + {} == {0};
    assert VisitChildren(g, lev, ext, p.mtx, w, 2) == w;
  }

  lemma SecondRoot(p: Progress)
    ensures Wf(TWO_ROOTS, TWO_LEVELS) && FollowOne(TWO_ROOTS, TWO_LEVELS, {2, 3}, p, 3).mtx == WithPairs(p.mtx, {1})
  {
    TwoRootsGood();
    hide Wf, WithPairs;
    var g, lev, ext, w := TWO_ROOTS, TWO_LEVELS, {2, 3}, Walk(p.done, {1});
    assert Visit(g, lev, ext, p.mtx, w, 0) == w && Visit(g, lev, ext, p.mtx, w, 1) == w;
    assert VisitChildren(g, lev, ext, p.mtx, w, 3) == w;
  }

  /** Leaving the nodes alone is right exactly when none of them tests the upper variable over the lower one. */
  lemma {:induction false} SkipExact(g: Graph, lev: Order, v0: nat, v1: nat)
    requires Wf(g, lev) && v0 < |lev| - 1 && v1 < |lev| - 1 && lev[v1] == lev[v0] + 1
    ensures Wf(g, SwapLevels(lev, v0, v1)) <==> forall n {:trigger Depends(g, n, v0, v1)} :: !Depends(g, n, v0, v1)
  {
    var lev' := SwapLevels(lev, v0, v1);
    if forall n {:trigger Depends(g, n, v0, v1)} :: !Depends(g, n, v0, v1) {
      forall n | n in g ensures GoodNode(g, lev', n) {
        assert !Depends(g, n, v0, v1) && GoodNode(g, lev, n);
        forall k | (k == g[n].low || k == g[n].high) && k in g ensures lev'[g[n].v] < lev'[g[k].v] {
          assert GoodNode(g, lev, k);
        }
      }
    } else {
      var n :| Depends(g, n, v0, v1);
      assert GoodNode(g, lev, n) && !GoodNode(g, lev', n);
    }
  }

  /**
    So the matrix has to mark any two variables of a root: in an order with one
    of them on top of the root and the other one next, leaving the nodes alone
    breaks the order.
  */
  lemma {:induction false} UnmarkedBreaks(g: Graph, lev: Order, r: nat, x: nat, y: nat)
    requires Wf(g, lev) && r in g && x in Support(g, lev, r) && y in Support(g, lev, r)
    requires x < |lev| - 1 && y < |lev| - 1 && lev[y] == lev[x] + 1
    requires forall v {:trigger v in Support(g, lev, r)} :: v in Support(g, lev, r) && v < |lev| ==> lev[x] <= lev[v]
    ensures Depends(g, r, x, y) && !Wf(g, SwapLevels(lev, x, y))
  {
    assert GoodNode(g, lev, r) && g[r].v in Support(g, lev, r);
    TopFirst(g, lev, r, x);
    var k := if y in Support(g, lev, g[r].low) then g[r].low else g[r].high;
    assert y in Support(g, lev, k) && k in g && GoodNode(g, lev, k);
    TopFirst(g, lev, k, y);
    assert lev[x] < lev[g[k].v] <= lev[y];
    SkipExact(g, lev, x, y);
  }

  /** No variable of a node comes before the one it tests. */
  lemma {:induction false} TopFirst(g: Graph, lev: Order, n: nat, v: nat)
    requires Wf(g, lev) && n in g && v in Support(g, lev, n)
    ensures v < |lev| - 1 && g[n].v < |lev| - 1 && lev[g[n].v] <= lev[v] && (lev[g[n].v] == lev[v] ==> g[n].v == v)
    decreases Rank(g, lev, n)
  {
    assert GoodNode(g, lev, n);
    if v != g[n].v {
      var k := if v in Support(g, lev, g[n].low) then g[n].low else g[n].high;
      assert k in g;
      TopFirst(g, lev, k, v);
    }
  }
}
