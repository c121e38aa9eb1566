/**
  Reference counts during a reordering session. The counter saturates at
  MAXREF and is sticky there, so what holds of every node is: saturated, or
  exactly the external references plus the parents inside the table.
*/
module RefCounts {
  import opened Threads
  import opened SwapTheory
  import opened Counting
  import opened SessionState

  function Ext(ext: map<nat, nat>, n: nat): nat { if n in ext then ext[n] else 0 }

  /** pend holds references already counted for edges about to be written. */
  ghost predicate RefOk(c: nat, g: Graph, ext: map<nat, nat>, pend: multiset<nat>, n: nat) {
    c == MAXREF || (c < MAXREF && c == Ext(ext, n) + pend[n] + Parents(g, n))
  }

  ghost predicate Closed(g: Graph) {
    && 0 !in g && 1 !in g
    && forall n {:trigger n in g} :: n in g ==> Node(g, g[n].low) && Node(g, g[n].high)
  }

  ghost predicate Refs(nodes: seq<BddNode>, g: Graph, ext: map<nat, nat>, pend: multiset<nat>) {
    && Closed(g)
    && (forall n {:trigger n in g} :: n in g ==> n < |nodes| && RefOk(nodes[n].refcou, g, ext, pend, n))
    && (forall n {:trigger nodes[n]} :: 2 <= n < |nodes| && n !in g ==> nodes[n].refcou == 0)
    && (forall n {:trigger n in ext} :: n in ext ==> n in g && 0 < ext[n])
    && (forall n {:trigger pend[n]} :: n in pend ==> Node(g, n))
  }

  ghost predicate Alive(nodes: seq<BddNode>, g: Graph) {
    forall n {:trigger n in g} :: n in g ==> n < |nodes| && 0 < nodes[n].refcou
  }

  /** A saturated counter stays saturated. */
  ghost predicate Sticky(nodes: seq<BddNode>, g: Graph, nodes': seq<BddNode>) {
    |nodes| <= |nodes'| &&
    forall n {:trigger n in g} :: n in g && n < |nodes| && nodes[n].refcou == MAXREF ==> nodes'[n].refcou == MAXREF
  }

  lemma Unreferenced(nodes: seq<BddNode>, g: Graph, ext: map<nat, nat>, pend: multiset<nat>, r: nat)
    requires Refs(nodes, g, ext, pend) && r !in g && 2 <= r
    ensures Ext(ext, r) == 0 && pend[r] == 0 && Parents(g, r) == 0
  {
    HasParent(g, r);
    forall q ensures !IsParent(g, q, r) {}
  }

  /** The reference for one more edge to r that is about to be written. */
  lemma Promise(nodes: seq<BddNode>, g: Graph, ext: map<nat, nat>, pend: multiset<nat>, r: nat, nodes': seq<BddNode>)
    requires Refs(nodes, g, ext, pend) && Node(g, r)
    requires |nodes'| == |nodes|
    requires forall m {:trigger nodes'[m]} :: 0 <= m < |nodes| ==>
               nodes'[m].refcou == if m == r then Inc(nodes[m].refcou) else nodes[m].refcou
    ensures Refs(nodes', g, ext, pend + multiset{r})
    ensures Sticky(nodes, g, nodes')
  {
  }

  /** A new node with one promised reference; both its children get one more parent. */
  lemma {:induction false} NewNode(nodes: seq<BddNode>, g: Graph, ext: map<nat, nat>, pend: multiset<nat>, r: nat, i: Inner, nodes': seq<BddNode>)
    requires Refs(nodes, g, ext, pend) && r !in g && 2 <= r < |nodes| && Node(g, i.low) && Node(g, i.high) && i.low != i.high
    requires |nodes'| == |nodes| && nodes'[r].refcou == 1
    requires forall m {:trigger nodes'[m]} :: 0 <= m < |nodes| && m != r ==>
               nodes'[m].refcou == if m == i.low || m == i.high then Inc(nodes[m].refcou) else nodes[m].refcou
    ensures Refs(nodes', g[r := i], ext, pend + multiset{r})
    ensures Sticky(nodes, g, nodes')
  {
    var h := g[r := i];
    Unreferenced(nodes, g, ext, pend, r);
    forall n | n in h
      ensures n < |nodes'| && RefOk(nodes'[n].refcou, h, ext, pend + multiset{r}, n)
    {
      NewRef(g, ext, pend, r, i, if n < |nodes| then nodes[n].refcou else 0, if n < |nodes| then nodes'[n].refcou else 0, n);
    }
    hide RefOk;
  }

  /** The count of one node when r has been added. */
  lemma NewRef(g: Graph, ext: map<nat, nat>, pend: multiset<nat>, r: nat, i: Inner, c: nat, c': nat, n: nat)
    requires r !in g && i.low != i.high && n in g[r := i]
    requires if n == r then c' == 1 && Ext(ext, r) == 0 && pend[r] == 0 && Parents(g, r) == 0 && i.low != r && i.high != r
             else RefOk(c, g, ext, pend, n) && c' == if n == i.low || n == i.high then Inc(c) else c
    ensures RefOk(c', g[r := i], ext, pend + multiset{r}, n)
  {
    hide Parents;
    AddNode(g, r, i, n);
  }

  /** The promised edges are written over the old ones, which are given up. */
  lemma Redirect(nodes: seq<BddNode>, g: Graph, ext: map<nat, nat>, p: nat, i: Inner, nodes': seq<BddNode>)
    requires Refs(nodes, g, ext, multiset{i.low, i.high}) && p in g && g[p].low != g[p].high
    requires |nodes'| == |nodes| && Node(g, i.low) && Node(g, i.high)
    requires forall m {:trigger nodes'[m]} :: 0 <= m < |nodes| ==>
               nodes'[m].refcou == if m == g[p].low || m == g[p].high then Dec(nodes[m].refcou) else nodes[m].refcou
    ensures Refs(nodes', g[p := i], ext, multiset{})
    ensures Sticky(nodes, g, nodes')
  {
    var h := g[p := i];
    forall n | n in h
      ensures n < |nodes'| && RefOk(nodes'[n].refcou, h, ext, multiset{}, n)
    {
      RedirectRef(g, ext, p, i, if n < |nodes| then nodes[n].refcou else 0, if n < |nodes| then nodes'[n].refcou else 0, n);
    }
    hide RefOk;
  }

  /** The count of one node when p gets new children. */
  lemma RedirectRef(g: Graph, ext: map<nat, nat>, p: nat, i: Inner, c: nat, c': nat, n: nat)
    requires p in g && n in g && g[p].low != g[p].high && RefOk(c, g, ext, multiset{i.low, i.high}, n)
    requires c' == if n == g[p].low || n == g[p].high then Dec(c) else c
    ensures RefOk(c', g[p := i], ext, multiset{}, n)
  {
    hide Parents;
    ChangeNode(g, p, i, n);
    assert multiset{i.low, i.high}[n] == Edge(i, n);
    if n == g[p].low || n == g[p].high {
      assert IsParent(g, p, n);
      HasParent(g, n);
    }
  }

  /** A node nothing refers to is dropped and gives up its two children. */
  lemma Drop(nodes: seq<BddNode>, g: Graph, ext: map<nat, nat>, r: nat, nodes': seq<BddNode>)
    requires Refs(nodes, g, ext, multiset{}) && r in g && nodes[r].refcou == 0 && g[r].low != g[r].high
    requires |nodes'| == |nodes| && nodes'[r].refcou == 0
    requires forall m {:trigger nodes'[m]} :: 0 <= m < |nodes| && m != r ==>
               nodes'[m].refcou == if m == g[r].low || m == g[r].high then Dec(nodes[m].refcou) else nodes[m].refcou
    ensures r !in ext && forall q {:trigger IsParent(g, q, r)} :: !IsParent(g, q, r)
    ensures Refs(nodes', g - {r}, ext, multiset{})
    ensures Sticky(nodes, g - {r}, nodes')
  {
    HasParent(g, r);
    assert RefOk(nodes[r].refcou, g, ext, multiset{}, r);
    assert forall q {:trigger IsParent(g, q, r)} :: !IsParent(g, q, r);
    var h := g - {r};
    forall n | n in h
      ensures Node(h, h[n].low) && Node(h, h[n].high)
      ensures n < |nodes'| && RefOk(nodes'[n].refcou, h, ext, multiset{}, n)
    {
      assert !IsParent(g, n, r);
      DropNode(g, r, n);
      assert RefOk(nodes[n].refcou, g, ext, multiset{}, n);
      if n == g[r].low || n == g[r].high {
        assert IsParent(g, r, n);
        HasParent(g, n);
      }
    }
  }

  /**
    After an exchange no allocated node is dead, although only the nodes of
    the lower variable were looked at: what a dropped v1 node pointed to has
    been given a parent among the rewritten nodes or the new v0 nodes.
  */
  ghost predicate ExchangeDone(g: Graph, h: Graph, lev: Order, v0: nat, v1: nat, ext: map<nat, nat>, full: set<nat>) {
    && Swapping(g, h, lev, v0, v1, {})
    && (forall n {:trigger n in ext} :: n in ext ==> n in h)
    // every node was referenced before: full holds the saturated ones
    && (forall n {:trigger n in g} :: n in g && n !in ext && n !in full ==> exists q {:trigger IsParent(g, q, n)} :: IsParent(g, q, n))
    // only v1 nodes were dropped, and no saturated one
    && (forall n {:trigger n in h} :: n in g && n !in h ==> g[n].v == v1 && n !in ext && n !in full)
    // every new node was made for some rewritten node
    && (forall n {:trigger n in h} :: n in h && n !in g ==> exists q {:trigger IsParent(h, q, n)} :: q in g && Depends(g, q, v0, v1) && IsParent(h, q, n))
  }

  lemma RewrittenStays(g: Graph, h: Graph, lev: Order, v0: nat, v1: nat, ext: map<nat, nat>, full: set<nat>, p: nat)
    requires ExchangeDone(g, h, lev, v0, v1, ext, full) && Depends(g, p, v0, v1)
    ensures p in h
  {
  }

  lemma GrandchildAdopted(g: Graph, h: Graph, lev: Order, v0: nat, v1: nat, n: nat, p: nat, b: bool)
    requires Swapping(g, h, lev, v0, v1, {})
    requires p in h && Depends(g, p, v0, v1) && n in g
    requires n == Cof(g, g[p].low, v1, b) || n == Cof(g, g[p].high, v1, b)
    ensures exists q :: IsParent(h, q, n)
  {
    assert Kept(g, h, p, v0, v1, {});
    var r := if b then h[p].high else h[p].low;
    assert Node(h, r);
    assert IsParent(h, p, r);
    if r != n {
      assert IsParent(h, r, n);
    }
  }

  /** The child of a dropped node is a grandchild of a rewritten one. */
  lemma DroppedParent(g: Graph, h: Graph, lev: Order, v0: nat, v1: nat, ext: map<nat, nat>, full: set<nat>, n: nat, q: nat)
    requires ExchangeDone(g, h, lev, v0, v1, ext, full)
    requires n in h && n in g && h[n] == g[n] && g[n].v != v1 && q in g && q !in h && IsParent(g, q, n)
    ensures exists q {:trigger IsParent(h, q, n)} :: IsParent(h, q, n)
  {
    assert q !in ext && q !in full && g[q].v == v1;
    var p :| IsParent(g, p, q);
    DroppedGrandparent(g, h, lev, v0, v1, ext, full, p, q);
    hide ExchangeDone, Swapping, Wf;
    GrandchildAdopted(g, h, lev, v0, v1, n, p, g[q].high == n);
  }

  lemma DroppedGrandparent(g: Graph, h: Graph, lev: Order, v0: nat, v1: nat, ext: map<nat, nat>, full: set<nat>, p: nat, q: nat)
    requires ExchangeDone(g, h, lev, v0, v1, ext, full)
    requires q in g && q !in h && IsParent(g, p, q)
    ensures p in h && Depends(g, p, v0, v1) && g[q].v == v1 && Swapping(g, h, lev, v0, v1, {})
  {
    assert GoodNode(g, lev, p) && GoodNode(g, lev, q);
    assert g[p].v != v1;
    assert p in h;
    assert Kept(g, h, p, v0, v1, {});
    assert Node(h, h[p].low) && Node(h, h[p].high);
  }

  lemma NoOrphan(g: Graph, h: Graph, lev: Order, v0: nat, v1: nat, ext: map<nat, nat>, full: set<nat>, n: nat)
    requires ExchangeDone(g, h, lev, v0, v1, ext, full)
    requires n in h && h[n].v != v1 && n !in ext && n !in full
    ensures exists q {:trigger IsParent(h, q, n)} :: IsParent(h, q, n)
  {
    if n in g {
      assert Kept(g, h, n, v0, v1, {});
      var q :| IsParent(g, q, n);
      if Depends(g, q, v0, v1) {
        RewrittenStays(g, h, lev, v0, v1, ext, full, q);
        GrandchildAdopted(g, h, lev, v0, v1, n, q, false);
      } else if q in h {
        assert Kept(g, h, q, v0, v1, {});
        assert IsParent(h, q, n);
      } else {
        DroppedParent(g, h, lev, v0, v1, ext, full, n, q);
      }
    }
  }
}
