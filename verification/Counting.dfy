/** Counting parents and rows of a graph, and how one changed node changes the counts. */
module Counting {
  import opened SwapTheory
  import opened Threads

  ghost function LowParents(g: Graph, n: nat): set<nat> { set m | m in g && g[m].low == n }

  ghost function HighParents(g: Graph, n: nat): set<nat> { set m | m in g && g[m].high == n }

  /** The number of edges that point to n. */
  ghost function Parents(g: Graph, n: nat): nat {
    |LowParents(g, n)| + |HighParents(g, n)|
  }

  function Edge(i: Inner, n: nat): nat {
    (if i.low == n then 1 else 0) + (if i.high == n then 1 else 0)
  }

  lemma AddLow(g: Graph, p: nat, i: Inner, n: nat)
    requires p !in g
    ensures |LowParents(g[p := i], n)| == |LowParents(g, n)| + if i.low == n then 1 else 0
  {
    var h := g[p := i];
    assert forall m :: m in g ==> h[m] == g[m];
    if i.low == n {
      assert LowParents(h, n) == LowParents(g, n) + {p};
    } else {
      assert LowParents(h, n) == LowParents(g, n);
    }
  }

  lemma AddHigh(g: Graph, p: nat, i: Inner, n: nat)
    requires p !in g
    ensures |HighParents(g[p := i], n)| == |HighParents(g, n)| + if i.high == n then 1 else 0
  {
    var h := g[p := i];
    assert forall m :: m in g ==> h[m] == g[m];
    if i.high == n {
      assert HighParents(h, n) == HighParents(g, n) + {p};
    } else {
      assert HighParents(h, n) == HighParents(g, n);
    }
  }

  lemma AddNode(g: Graph, p: nat, i: Inner, n: nat)
    requires p !in g
    ensures Parents(g[p := i], n) == Parents(g, n) + Edge(i, n)
  {
    AddLow(g, p, i, n);
    AddHigh(g, p, i, n);
  }

  lemma DropNode(g: Graph, p: nat, n: nat)
    requires p in g
    ensures Parents(g - {p}, n) + Edge(g[p], n) == Parents(g, n)
  {
    AddNode(g - {p}, p, g[p], n);
    assert (g - {p})[p := g[p]] == g;
  }

  lemma ChangeNode(g: Graph, p: nat, i: Inner, n: nat)
    requires p in g
    ensures Parents(g[p := i], n) + Edge(g[p], n) == Parents(g, n) + Edge(i, n)
  {
    DropNode(g, p, n);
    AddNode(g - {p}, p, i, n);
    assert (g - {p})[p := i] == g[p := i];
  }

  lemma HasParent(g: Graph, n: nat)
    ensures Parents(g, n) > 0 <==> exists q {:trigger IsParent(g, q, n)} :: IsParent(g, q, n)
  {
    var l, k := LowParents(g, n), HighParents(g, n);
    if Parents(g, n) > 0 {
      assert l != {} || k != {};
      var q :| q in l || q in k;
      assert IsParent(g, q, n);
    } else {
      forall q ensures !IsParent(g, q, n) {
        assert q !in l && q !in k;
      }
    }
  }

  /** The nodes of variable v that are in a hash chain: what levels[v].nodenum counts. */
  ghost function Row(g: Graph, place: Places, v: nat): set<nat> {
    set n | n in g && g[n].v == v && n in place && place[n].0.Bucket?
  }

  /* ---- sizes of sets ---- */

  lemma SubsetSize<T>(a: set<T>, b: set<T>)
    requires a <= b
    ensures |a| <= |b|
  {
    assert b == a + (b - a);
  }

  function Elements(s: seq<nat>): (r: set<nat>)
    ensures forall x {:trigger x in r} :: x in r <==> x in s
  {
    if s == [] then {} else {s[0]} + Elements(s[1..])
  }

  lemma {:induction false} ElementsSize(s: seq<nat>)
    requires forall i, j {:trigger s[i], s[j]} :: 0 <= i < j < |s| ==> s[i] != s[j]
    ensures |Elements(s)| == |s|
  {
    if s != [] {
      ElementsSize(s[1..]);
      assert s[0] !in s[1..];
    }
  }
}
