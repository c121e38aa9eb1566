/**
  The node table of evdd_kernel.c together with the weights its nodes hold, as
  a value: what makes it sound, which nodes are alive, and what building and
  collecting do to it.
*/
module EvddState {
  import opened Field
  import opened WeightNorm
  import opened Wdd
  import opened WddOps
  import opened ValueTable

  /** A record of evddnodes; the chains its hash and next fields thread are the lists of Table. */
  datatype EvddNode = EvddNode(level: nat, low: int, high: int, wlow: nat, whigh: nat, refcou: nat, mark: bool)

  const FREE_NODE: EvddNode := EvddNode(0, -1, 0, 0, 0, 0, false)

  type Trees = map<nat, Tree>
  type Rows = seq<Row<real>>

  /** EVDD_NODEHASH: table size, level, children, weights. */
  type Hash = (nat, nat, int, int, nat, nat) -> nat

  ghost predicate InRange(hash: Hash) {
    forall size: nat, l: nat, low: int, high: int, wl: nat, wh: nat {:trigger hash(size, l, low, high, wl, wh)} ::
      0 < size ==> hash(size, l, low, high, wl, wh) < size
  }

  /**
    dd gives the tree of every allocated node, dead or alive; ext holds the
    nodes with a reference count; rows is the value table.
  */
  datatype Table = Table(nodes: seq<EvddNode>, buckets: seq<seq<nat>>, freelist: seq<nat>, dd: Trees, ext: set<nat>, rows: Rows)

  /* ---- weights ---- */

  /** The id is the bare zero or has a payload. */
  predicate Known(rows: Rows, id: nat) { id == 0 || (id < |rows| && rows[id].payload.Some?) }

  function Weight(rows: Rows, id: nat): real {
    if 0 < id < |rows| && rows[id].payload.Some? then rows[id].payload.value else 0.0
  }

  /** Every id that had a payload still has it. */
  ghost predicate SameWeights(rows: Rows, rows': Rows) {
    forall id {:trigger Known(rows', id)} {:trigger Weight(rows', id)} :: Known(rows, id) ==> Known(rows', id) && Weight(rows', id) == Weight(rows, id)
  }

  /** No known id loses its weight, and none gets or loses a reference. */
  ghost predicate KeepsWeights(rows: Rows, rows': Rows) {
    && SameWeights(rows, rows')
    && |rows| <= |rows'| && forall id {:trigger rows'[id]} :: 0 < id < |rows| && rows[id].payload.Some? ==> rows'[id].refcou == rows[id].refcou
  }

  /** Every node with a reference has as many as before. */
  ghost predicate SameCounts(nodes: seq<EvddNode>, ext: set<nat>, nodes': seq<EvddNode>) {
    forall n {:trigger n in ext} :: n in ext && n < |nodes| ==> n < |nodes'| && nodes'[n].refcou == nodes[n].refcou
  }

  /** Equal weights have equal ids, and only id 0 is zero. */
  ghost predicate ExactIds(rows: Rows) {
    forall a, b {:trigger Weight(rows, a), Weight(rows, b)} :: Known(rows, a) && Known(rows, b) && Weight(rows, a) == Weight(rows, b) ==> a == b
  }

  ghost predicate Unmarked(rows: Rows) {
    forall i {:trigger rows[i]} :: 0 <= i < |rows| ==> !rows[i].mark
  }

  /* ---- nodes ---- */

  /** Ordered, and no two nodes for one tree. */
  ghost predicate Canon(dd: Trees) {
    && 0 in dd && dd[0] == One
    && (forall n {:trigger dd[n]} :: n in dd ==> Ordered(dd[n]) && (n != 0 ==> dd[n].Node?))
    && (forall m, n {:trigger dd[m], dd[n]} :: m in dd && n in dd && dd[m] == dd[n] ==> m == n)
  }

  /** The record of node n stands for its tree, and its weights have payloads. */
  ghost predicate Fits(nodes: seq<EvddNode>, rows: Rows, dd: Trees, n: nat) {
    && n in dd && n < |nodes| && 0 <= nodes[n].low && 0 <= nodes[n].high
    && nodes[n].low in dd && nodes[n].high in dd
    && Known(rows, nodes[n].wlow) && Known(rows, nodes[n].whigh)
    && dd[n] == Node(nodes[n].level, Weight(rows, nodes[n].wlow), dd[nodes[n].low], Weight(rows, nodes[n].whigh), dd[nodes[n].high])
  }

  ghost predicate Recorded(nodes: seq<EvddNode>, rows: Rows, dd: Trees) {
    && 1 <= |nodes|
    && (forall n {:trigger n in dd} :: n in dd ==> n < |nodes| && (n != 0 ==> Fits(nodes, rows, dd, n)))
    && (forall n {:trigger nodes[n]} :: 0 < n < |nodes| && n !in dd ==> nodes[n].low == -1 && nodes[n].refcou == 0)
  }

  ghost predicate Referenced(nodes: seq<EvddNode>, dd: Trees, ext: set<nat>) {
    && (forall n {:trigger n in ext} :: n in ext ==> n in dd && 0 < n < |nodes|)
    && (forall n {:trigger nodes[n]} :: 0 < n < |nodes| ==> (n in ext <==> 0 < nodes[n].refcou))
  }

  function HashOf(nodes: seq<EvddNode>, hash: Hash, n: nat): nat
    requires n < |nodes|
  {
    hash(|nodes|, nodes[n].level, nodes[n].low, nodes[n].high, nodes[n].wlow, nodes[n].whigh)
  }

  /** From node `from` on, every node of keep is in the chain of its key, and nothing else is in any chain. */
  ghost predicate Chained(nodes: seq<EvddNode>, hash: Hash, keep: Trees, buckets: seq<seq<nat>>, from: nat) {
    && |buckets| == |nodes|
    && (forall b, n {:trigger n in buckets[b]} :: 0 <= b < |buckets| && n in buckets[b] ==>
          from <= n < |nodes| && n != 0 && n in keep && HashOf(nodes, hash, n) == b)
    && (forall n {:trigger n in keep} :: n in keep && n != 0 && from <= n < |nodes| ==>
          HashOf(nodes, hash, n) < |buckets| && n in buckets[HashOf(nodes, hash, n)])
  }

  /** From slot `from` on, exactly the slots outside keep are free, each listed once. */
  ghost predicate FreeListed(size: nat, keep: Trees, freelist: seq<nat>, from: nat) {
    && (forall n {:trigger n in freelist} :: n in freelist <==> from <= n < size && n != 0 && n !in keep)
    && (forall i, j {:trigger freelist[i], freelist[j]} :: 0 <= i < j < |freelist| ==> freelist[i] != freelist[j])
  }

  ghost predicate NoMarks(nodes: seq<EvddNode>) {
    forall n {:trigger nodes[n]} :: 0 <= n < |nodes| ==> !nodes[n].mark
  }

  ghost predicate Sound(t: Table, hash: Hash) {
    && InRange(hash) && Canon(t.dd) && Recorded(t.nodes, t.rows, t.dd) && Referenced(t.nodes, t.dd, t.ext) && NoMarks(t.nodes)
    && Chained(t.nodes, hash, t.dd, t.buckets, 1) && FreeListed(|t.nodes|, t.dd, t.freelist, 1)
    && ExactIds(t.rows)
  }

  /* ---- who is alive ---- */

  ghost predicate Root(ext: set<nat>, stack: seq<nat>, r: nat) { r in ext || r in stack }

  ghost predicate Live(dd: Trees, ext: set<nat>, stack: seq<nat>, n: nat) {
    n in dd && (n == 0 || exists r {:trigger Root(ext, stack, r)} :: Root(ext, stack, r) && r in dd && Part(dd[n], dd[r]))
  }

  /** Every live node stands for the same tree, every weight id for the same weight; the references are the same. */
  ghost predicate Keeps(t: Table, stack: seq<nat>, t': Table) {
    && t'.ext == t.ext && KeepsWeights(t.rows, t'.rows) && SameCounts(t.nodes, t.ext, t'.nodes)
    && forall n {:trigger n in t'.dd} {:trigger t'.dd[n]} :: Live(t.dd, t.ext, stack, n) ==> n in t'.dd && t'.dd[n] == t.dd[n]
  }

  lemma KeepsLive(t: Table, stack: seq<nat>, t': Table, n: nat)
    requires Keeps(t, stack, t') && Live(t.dd, t.ext, stack, n)
    ensures n in t'.dd && t'.dd[n] == t.dd[n] && Live(t'.dd, t'.ext, stack, n)
  {
    if n != 0 {
      var r :| Root(t.ext, stack, r) && r in t.dd && Part(t.dd[n], t.dd[r]);
      assert Live(t.dd, t.ext, stack, r);
      assert r in t'.dd;
    }
  }

  ghost predicate Within(stack: seq<nat>, stack': seq<nat>) {
    forall r {:trigger r in stack'} :: r in stack ==> r in stack'
  }

  lemma LiveMore(dd: Trees, ext: set<nat>, stack: seq<nat>, stack': seq<nat>, n: nat)
    requires Live(dd, ext, stack, n) && Within(stack, stack')
    ensures Live(dd, ext, stack', n)
  {
    if n != 0 {
      var r :| Root(ext, stack, r) && r in dd && Part(dd[n], dd[r]);
      assert Root(ext, stack', r);
    }
  }

  lemma KeepsWeightsTrans(a: Rows, b: Rows, c: Rows)
    requires KeepsWeights(a, b) && KeepsWeights(b, c)
    ensures KeepsWeights(a, c)
  {
    forall id | Known(a, id) ensures Known(c, id) && Weight(c, id) == Weight(a, id) {
      assert Known(b, id) && Weight(b, id) == Weight(a, id);
    }
    forall id | 0 < id < |a| && a[id].payload.Some? ensures c[id].refcou == a[id].refcou {
      assert Known(b, id) && b[id].refcou == a[id].refcou;
    }
  }

  lemma KeepsTrans(t: Table, stack: seq<nat>, t': Table, stack': seq<nat>, t'': Table)
    requires Keeps(t, stack, t') && Keeps(t', stack', t'') && Within(stack, stack')
    ensures Keeps(t, stack, t'')
  {
    KeepsWeightsTrans(t.rows, t'.rows, t''.rows);
    forall n | Live(t.dd, t.ext, stack, n) ensures n in t''.dd && t''.dd[n] == t.dd[n] {
      KeepsLive(t, stack, t', n);
      LiveMore(t'.dd, t'.ext, stack, stack', n);
      assert n in t''.dd;
    }
  }

  lemma KeepsSame(t: Table, stack: seq<nat>)
    ensures Keeps(t, stack, t)
  {
  }

  lemma KeepsMoreWeights(t: Table, stack: seq<nat>, rows: Rows)
    requires KeepsWeights(t.rows, rows)
    ensures Keeps(t, stack, t.(rows := rows))
  {
  }

  lemma ChildLive(t: Table, stack: seq<nat>, n: nat)
    requires n != 0 && Fits(t.nodes, t.rows, t.dd, n) && Live(t.dd, t.ext, stack, n)
    ensures Live(t.dd, t.ext, stack, t.nodes[n].low) && Live(t.dd, t.ext, stack, t.nodes[n].high)
  {
    var r :| Root(t.ext, stack, r) && r in t.dd && Part(t.dd[n], t.dd[r]);
    PartTransitive(t.dd[t.nodes[n].low], t.dd[n], t.dd[r]);
    PartTransitive(t.dd[t.nodes[n].high], t.dd[n], t.dd[r]);
  }

  /** What the record of a live node says. */
  lemma OpenAt(t: Table, hash: Hash, stack: seq<nat>, n: nat)
    requires Sound(t, hash) && Live(t.dd, t.ext, stack, n)
    ensures n in t.dd && Ordered(t.dd[n]) && n < |t.nodes| && (n == 0 <==> t.dd[n].One?)
    ensures n != 0 ==>
              && Fits(t.nodes, t.rows, t.dd, n) && t.nodes[n].low != -1
              && Live(t.dd, t.ext, stack, t.nodes[n].low) && Live(t.dd, t.ext, stack, t.nodes[n].high)
  {
    hide Chained, FreeListed;
    if n != 0 { ChildLive(t, stack, n); }
  }

  /** More weights leave a sound table sound. */
  lemma MoreWeights(t: Table, hash: Hash, rows: Rows)
    requires Sound(t, hash) && SameWeights(t.rows, rows) && ExactIds(rows)
    ensures Sound(t.(rows := rows), hash)
  {
    hide Chained, FreeListed, Known, Weight;
    forall n | n in t.dd && n != 0 ensures Fits(t.nodes, rows, t.dd, n) {
      assert Fits(t.nodes, t.rows, t.dd, n);
    }
  }

  /* ---- edges ---- */

  /** What the pair (node, weight id) denotes. */
  function Denote(dd: Trees, rows: Rows, n: nat, w: nat): Edge
    requires n in dd
  {
    Edge(Weight(rows, w), dd[n])
  }

  lemma DenoteStays(t: Table, stack: seq<nat>, t': Table, n: nat, w: nat)
    requires Keeps(t, stack, t') && Live(t.dd, t.ext, stack, n) && Known(t.rows, w)
    ensures n in t.dd && n in t'.dd && Known(t'.rows, w) && Live(t'.dd, t'.ext, stack, n)
    ensures Denote(t'.dd, t'.rows, n, w) == Denote(t.dd, t.rows, n, w)
  {
    KeepsLive(t, stack, t', n);
  }

  /** Equal denotations are equal pairs. */
  lemma SameIds(t: Table, hash: Hash, m: nat, v: nat, n: nat, w: nat)
    requires Sound(t, hash) && m in t.dd && n in t.dd && Known(t.rows, v) && Known(t.rows, w)
    ensures Denote(t.dd, t.rows, m, v) == Denote(t.dd, t.rows, n, w) <==> m == n && v == w
  {
    hide Chained, FreeListed, Known, Weight, Recorded, Referenced;
  }

  /* ---- building a node ---- */

  ghost function NewRecord(l: nat, low: nat, high: nat, wl: nat, wh: nat): EvddNode {
    EvddNode(l, low, high, wl, wh, 0, false)
  }

  /** The head of the free list becomes the node with this key, at the head of its chain. */
  ghost function Built(t: Table, l: nat, low: nat, high: nat, wl: nat, wh: nat, b: nat): Table
    requires t.freelist != [] && t.freelist[0] < |t.nodes| && b < |t.buckets| && low in t.dd && high in t.dd
  {
    var r := t.freelist[0];
    Table(t.nodes[r := NewRecord(l, low, high, wl, wh)], t.buckets[b := [r] + t.buckets[b]], t.freelist[1..],
          t.dd[r := Node(l, Weight(t.rows, wl), t.dd[low], Weight(t.rows, wh), t.dd[high])], t.ext, t.rows)
  }

  ghost predicate Missing(dd: Trees, d: Tree) {
    forall n {:trigger dd[n]} :: n in dd ==> dd[n] != d
  }

  lemma FreeHead(t: Table, hash: Hash)
    requires Sound(t, hash) && t.freelist != []
    ensures var r := t.freelist[0]; 0 < r < |t.nodes| && r !in t.dd && r !in t.ext
  {
    hide Chained, Canon, ExactIds;
    assert t.freelist[0] in t.freelist;
  }

  lemma BuildSound(t: Table, hash: Hash, l: nat, low: nat, high: nat, wl: nat, wh: nat)
    requires Sound(t, hash) && t.freelist != [] && t.freelist[0] < |t.nodes|
    requires low in t.dd && high in t.dd && Known(t.rows, wl) && Known(t.rows, wh)
    requires Under(l, t.dd[low]) && Under(l, t.dd[high])
    requires Missing(t.dd, Node(l, Weight(t.rows, wl), t.dd[low], Weight(t.rows, wh), t.dd[high]))
    ensures var b := hash(|t.nodes|, l, low, high, wl, wh);
            b < |t.buckets| && Sound(Built(t, l, low, high, wl, wh, b), hash)
  {
    hide Canon, Recorded, Referenced, ExactIds, FreeListed, Missing, Known, Weight, Under, NoMarks;
    FreeHead(t, hash);
    BuildSize(t, hash);
    var r := t.freelist[0];
    var d := Node(l, Weight(t.rows, wl), t.dd[low], Weight(t.rows, wh), t.dd[high]);
    var e := NewRecord(l, low, high, wl, wh);
    BuildCanon(t.dd, r, d, low, high);
    BuildRecorded(t.nodes, t.rows, t.dd, t.ext, r, e, d);
    forall n | 0 <= n < |t.nodes| && n != r ensures HashOf(t.nodes[r := e], hash, n) == HashOf(t.nodes, hash, n) {
    }
    PushChained(t.nodes, hash, t.dd, t.buckets, 1, r, t.nodes[r := e], t.dd[r := d]);
    BuildFree(t, hash, t.dd[r := d]);
  }

  lemma BuildSize(t: Table, hash: Hash)
    requires Sound(t, hash)
    ensures |t.buckets| == |t.nodes| && 1 <= |t.nodes|
    ensures forall l: nat, low: int, high: int, wl: nat, wh: nat :: hash(|t.nodes|, l, low, high, wl, wh) < |t.buckets|
  {
    hide Canon, Referenced, ExactIds, FreeListed;
  }

  lemma BuildCanon(dd: Trees, r: nat, d: Tree, low: nat, high: nat)
    requires Canon(dd) && Missing(dd, d) && r !in dd && d.Node? && Under(d.level, d.low) && Under(d.level, d.high)
    requires low in dd && d.low == dd[low] && high in dd && d.high == dd[high]
    ensures Canon(dd[r := d])
  {
  }

  lemma FitsStays(nodes: seq<EvddNode>, rows: Rows, dd: Trees, n: nat, r: nat, e: EvddNode, d: Tree)
    requires Fits(nodes, rows, dd, n) && r < |nodes| && r !in dd
    ensures Fits(nodes[r := e], rows, dd[r := d], n)
  {
    hide Known, Weight;
  }

  lemma FitsNew(nodes: seq<EvddNode>, rows: Rows, dd: Trees, r: nat, e: EvddNode, d: Tree)
    requires r < |nodes| && r !in dd
    requires 0 <= e.low && e.low in dd && 0 <= e.high && e.high in dd && Known(rows, e.wlow) && Known(rows, e.whigh)
    requires d == Node(e.level, Weight(rows, e.wlow), dd[e.low], Weight(rows, e.whigh), dd[e.high])
    ensures Fits(nodes[r := e], rows, dd[r := d], r)
  {
    hide Known, Weight;
  }

  lemma BuildRecorded(nodes: seq<EvddNode>, rows: Rows, dd: Trees, ext: set<nat>, r: nat, e: EvddNode, d: Tree)
    requires Recorded(nodes, rows, dd) && Referenced(nodes, dd, ext) && NoMarks(nodes) && 0 < r < |nodes| && r !in dd && r !in ext
    requires 0 <= e.low && e.low in dd && 0 <= e.high && e.high in dd && Known(rows, e.wlow) && Known(rows, e.whigh)
    requires d == Node(e.level, Weight(rows, e.wlow), dd[e.low], Weight(rows, e.whigh), dd[e.high])
    requires e.refcou == 0 && !e.mark
    ensures Recorded(nodes[r := e], rows, dd[r := d]) && Referenced(nodes[r := e], dd[r := d], ext) && NoMarks(nodes[r := e])
  {
    hide Known, Weight, Fits;
    FitsNew(nodes, rows, dd, r, e, d);
    forall n | n in dd && n != 0 ensures Fits(nodes[r := e], rows, dd[r := d], n) {
      FitsStays(nodes, rows, dd, n, r, e, d);
    }
  }

  /** One more node at the head of its chain. */
  lemma PushChained(nodes: seq<EvddNode>, hash: Hash, keep: Trees, buckets: seq<seq<nat>>, from: nat, r: nat, nodes': seq<EvddNode>, keep': Trees)
    requires Chained(nodes, hash, keep, buckets, from) && InRange(hash) && |nodes'| == |nodes|
    requires forall n {:trigger nodes'[n]} :: 0 <= n < |nodes| && n != r ==> HashOf(nodes', hash, n) == HashOf(nodes, hash, n)
    requires 0 < r < |nodes| && r in keep' && forall n {:trigger n in keep} {:trigger n in keep'} :: n != r ==> (n in keep' <==> n in keep)
    requires from <= r || from == r + 1
    requires r in keep ==> from == r + 1
    ensures HashOf(nodes', hash, r) < |buckets|
    ensures Chained(nodes', hash, keep', buckets[HashOf(nodes', hash, r) := [r] + buckets[HashOf(nodes', hash, r)]], if from == r + 1 then r else from)
  {
    var h := HashOf(nodes', hash, r);
    var buckets' := buckets[h := [r] + buckets[h]];
    var from' := if from == r + 1 then r else from;
    forall b, n | 0 <= b < |buckets'| && n in buckets'[b]
      ensures from' <= n < |nodes'| && n != 0 && n in keep' && HashOf(nodes', hash, n) == b
    {
      if n != r { assert n in buckets[b] && nodes'[n] == nodes'[n]; }
    }
    forall n | n in keep' && n != 0 && from' <= n < |nodes'|
      ensures HashOf(nodes', hash, n) < |buckets'| && n in buckets'[HashOf(nodes', hash, n)]
    {
      if n != r { assert n in keep && nodes'[n] == nodes'[n] && n in buckets[HashOf(nodes, hash, n)]; }
    }
  }

  lemma BuildFree(t: Table, hash: Hash, dd': Trees)
    requires Sound(t, hash) && t.freelist != [] && dd'.Keys == t.dd.Keys + {t.freelist[0]}
    ensures FreeListed(|t.nodes|, dd', t.freelist[1..], 1)
  {
    hide Chained, Canon, Recorded, Referenced;
    var f := t.freelist;
    assert f == [f[0]] + f[1..];
    forall n ensures n in f[1..] <==> 1 <= n < |t.nodes| && n != 0 && n !in dd' {
      assert n in f <==> n == f[0] || n in f[1..];
      if n in f[1..] {
        var i :| 0 <= i < |f[1..]| && f[1..][i] == n;
        assert f[0] != f[i + 1];
      }
    }
    forall i, j | 0 <= i < j < |f[1..]| ensures f[1..][i] != f[1..][j] {
      assert f[i + 1] != f[j + 1];
    }
  }
}
