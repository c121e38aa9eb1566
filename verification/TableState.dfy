/**
  The unique table of kernel.c as a value: what makes it sound, which nodes are
  alive, and what building, marking and collecting nodes do to it.
*/
module TableState {
  import opened Dd
  import opened Threads

  type Trees = map<nat, Dd>

  /** NODEHASH: the bucket of a triple in a table of the given size. */
  type Hash = (nat, nat, nat, nat) -> nat

  ghost predicate InRange(hash: Hash) {
    forall size: nat, l: nat, low: nat, high: nat {:trigger hash(size, l, low, high)} :: 0 < size ==> hash(size, l, low, high) < size
  }

  /**
    dd gives the tree of every allocated node, dead or alive; ext holds the
    nodes with a reference count.
  */
  datatype Table = Table(
    nodes: seq<BddNode>, freepos: nat, freenum: nat,
    dd: Trees, ext: set<nat>, lists: Lists, place: Places)

  /** Reduced, ordered, and no two nodes for one tree. */
  ghost predicate Canon(dd: Trees) {
    && 0 in dd && dd[0] == Leaf(false) && 1 in dd && dd[1] == Leaf(true)
    && (forall n {:trigger dd[n]} :: n in dd ==> Robdd(dd[n]) && (2 <= n ==> dd[n].Node?))
    && (forall m, n {:trigger dd[m], dd[n]} :: m in dd && n in dd && dd[m] == dd[n] ==> m == n)
  }

  /** The record of node n stands for its tree. */
  ghost predicate Fits(nodes: seq<BddNode>, dd: Trees, n: nat) {
    && n in dd && n < |nodes| && 0 <= nodes[n].low && 0 <= nodes[n].high
    && nodes[n].low in dd && nodes[n].high in dd
    && dd[n] == Node(nodes[n].level, dd[nodes[n].low], dd[nodes[n].high])
  }

  ghost predicate Recorded(nodes: seq<BddNode>, dd: Trees) {
    && 2 <= |nodes|
    && (forall n {:trigger n in dd} :: n in dd ==> n < |nodes| && (2 <= n ==> Fits(nodes, dd, n)))
    && (forall n {:trigger nodes[n]} :: 2 <= n < |nodes| && n !in dd ==> nodes[n].low == -1 && nodes[n].refcou == 0)
  }

  ghost predicate Referenced(nodes: seq<BddNode>, dd: Trees, ext: set<nat>) {
    && (forall n {:trigger n in ext} :: n in ext ==> n in dd && 2 <= n < |nodes|)
    && (forall n {:trigger nodes[n]} :: 2 <= n < |nodes| ==> (n in ext <==> 0 < nodes[n].refcou))
  }

  /** The list slot n belongs on. */
  ghost function KeyOf(nodes: seq<BddNode>, dd: Trees, hash: Hash, n: nat): Key {
    if n in dd && n < |nodes| && 0 <= nodes[n].low && 0 <= nodes[n].high
    then Bucket(hash(|nodes|, nodes[n].level, nodes[n].low, nodes[n].high)) else Free
  }

  ghost predicate Keyed(nodes: seq<BddNode>, dd: Trees, hash: Hash, place: Places) {
    && (forall n {:trigger n in place} :: n in place <==> 2 <= n < |nodes|)
    && (forall n {:trigger place[n]} :: n in place ==> place[n].0 == KeyOf(nodes, dd, hash, n))
  }

  ghost predicate Unmarked(nodes: seq<BddNode>) {
    forall n {:trigger nodes[n]} :: 0 <= n < |nodes| ==> !nodes[n].mark
  }

  /** What the records say, without the lists: all a collection needs. */
  ghost predicate OnRecord(nodes: seq<BddNode>, dd: Trees, ext: set<nat>) {
    Canon(dd) && Recorded(nodes, dd) && Referenced(nodes, dd, ext) && Unmarked(nodes)
  }

  ghost predicate Sound(t: Table, hash: Hash) {
    && InRange(hash) && Canon(t.dd) && Recorded(t.nodes, t.dd) && Referenced(t.nodes, t.dd, t.ext)
    && Unmarked(t.nodes)
    && Keyed(t.nodes, t.dd, hash, t.place)
    && Heads(t.nodes, t.lists, t.freepos) && Threaded(t.nodes, t.lists, t.place)
    && t.lists[Todo] == [] && t.lists[Hand] == []
    && t.freenum == |t.lists[Free]|
  }

  /* ---- who is alive ---- */

  ghost predicate Root(ext: set<nat>, stack: seq<nat>, r: nat) { r in ext || r in stack }

  /** n is a constant, or part of a node with a reference or on the reference stack. */
  ghost predicate Live(dd: Trees, ext: set<nat>, stack: seq<nat>, n: nat) {
    n in dd && (n < 2 || exists r {:trigger Root(ext, stack, r)} :: Root(ext, stack, r) && r in dd && Subtree(dd[n], dd[r]))
  }

  /** Every node with a reference has as many as before. */
  ghost predicate SameCounts(nodes: seq<BddNode>, ext: set<nat>, nodes': seq<BddNode>) {
    forall n {:trigger n in ext} :: n in ext && n < |nodes| ==> n < |nodes'| && nodes'[n].refcou == nodes[n].refcou
  }

  /** Every live node is still there and stands for the same tree; the references are the same, and so are their numbers. */
  ghost predicate Keeps(t: Table, stack: seq<nat>, t': Table) {
    && t'.ext == t.ext && SameCounts(t.nodes, t.ext, t'.nodes)
    && forall n {:trigger n in t'.dd} {:trigger t'.dd[n]} :: Live(t.dd, t.ext, stack, n) ==> n in t'.dd && t'.dd[n] == t.dd[n]
  }

  lemma KeepsLive(t: Table, stack: seq<nat>, t': Table, n: nat)
    requires Keeps(t, stack, t') && Live(t.dd, t.ext, stack, n)
    ensures n in t'.dd && t'.dd[n] == t.dd[n] && Live(t'.dd, t'.ext, stack, n)
  {
    if 2 <= n {
      var r :| Root(t.ext, stack, r) && r in t.dd && Subtree(t.dd[n], t.dd[r]);
      assert Live(t.dd, t.ext, stack, r);
      assert r in t'.dd;
    }
  }

  ghost predicate Within(stack: seq<nat>, stack': seq<nat>) {
    forall r {:trigger r in stack'} :: r in stack ==> r in stack'
  }

  lemma LiveMore(dd: Trees, ext: set<nat>, stack: seq<nat>, stack': seq<nat>, n: nat)
    requires Live(dd, ext, stack, n) && Within(stack, stack')
    ensures Live(dd, ext, stack', n)
  {
    if 2 <= n {
      var r :| Root(ext, stack, r) && r in dd && Subtree(dd[n], dd[r]);
      assert Root(ext, stack', r);
    }
  }

  /** A step that keeps more is followed by one that keeps at least as much. */
  lemma KeepsTrans(t: Table, stack: seq<nat>, t': Table, stack': seq<nat>, t'': Table)
    requires Keeps(t, stack, t') && Keeps(t', stack', t'') && Within(stack, stack')
    ensures Keeps(t, stack, t'')
  {
    forall n | Live(t.dd, t.ext, stack, n) ensures n in t''.dd && t''.dd[n] == t.dd[n] {
      KeepsLive(t, stack, t', n);
      LiveMore(t'.dd, t'.ext, stack, stack', n);
      assert n in t''.dd;
    }
  }

  lemma KeepsSame(t: Table, stack: seq<nat>)
    ensures Keeps(t, stack, t)
  {
  }

  /** The children of a live node are alive. */
  lemma ChildLive(t: Table, stack: seq<nat>, n: nat)
    requires Canon(t.dd) && 2 <= n && Fits(t.nodes, t.dd, n) && Live(t.dd, t.ext, stack, n)
    ensures Live(t.dd, t.ext, stack, t.nodes[n].low) && Live(t.dd, t.ext, stack, t.nodes[n].high)
  {
    var r :| Root(t.ext, stack, r) && r in t.dd && Subtree(t.dd[n], t.dd[r]);
    SubtreeTransitive(t.dd[t.nodes[n].low], t.dd[n], t.dd[r]);
    SubtreeTransitive(t.dd[t.nodes[n].high], t.dd[n], t.dd[r]);
  }

  lemma RootLive(dd: Trees, ext: set<nat>, stack: seq<nat>, n: nat)
    requires n in dd && Root(ext, stack, n)
    ensures Live(dd, ext, stack, n)
  {
  }

  /* ---- facts read from a sound table ---- */

  lemma NodeAt(t: Table, hash: Hash, n: nat)
    requires Sound(t, hash) && n in t.dd
    ensures n < |t.nodes| && Robdd(t.dd[n])
    ensures n < 2 ==> t.dd[n] == Leaf(n == 1)
    ensures 2 <= n ==> Fits(t.nodes, t.dd, n) && Under(t.nodes[n].level, t.dd[t.nodes[n].low]) && Under(t.nodes[n].level, t.dd[t.nodes[n].high])
    ensures 2 <= n ==> t.nodes[n].low != -1
  {
    hide Threaded, Placed, Heads, Keyed;
  }

  lemma ConstantsAt(t: Table, hash: Hash)
    requires Sound(t, hash)
    ensures 2 <= |t.nodes| && InRange(hash) && Canon(t.dd) && 0 in t.dd && 1 in t.dd && t.dd[0] == Leaf(false) && t.dd[1] == Leaf(true)
    ensures Free in t.lists && t.freepos == Head(t.lists, Free) && t.freenum == |t.lists[Free]|
  {
    hide Threaded, Placed, Keyed;
  }

  lemma SlotAt(t: Table, hash: Hash, n: nat)
    requires Sound(t, hash) && 2 <= n < |t.nodes|
    ensures n in t.dd <==> t.nodes[n].low != -1
    ensures n in t.ext <==> 0 < t.nodes[n].refcou
    ensures n in t.ext ==> n in t.dd
  {
    hide Threaded, Placed, Heads, Keyed;
  }

  /** Canonicity of the table: two nodes stand for the same function exactly when they are one node. */
  lemma {:induction false} OneNodePerFunction(t: Table, hash: Hash, m: nat, n: nat)
    requires Sound(t, hash) && m in t.dd && n in t.dd
    ensures m == n <==> forall a: Assign :: Eval(t.dd[m], a) == Eval(t.dd[n], a)
  {
    assert Canon(t.dd);
    hide Sound, Robdd;
    Canonical(t.dd[m], t.dd[n]);
  }

  /** The i-th node of the chain of bucket b. */
  lemma ChainAt(t: Table, hash: Hash, b: nat, i: nat)
    requires Sound(t, hash) && b < |t.nodes| && Bucket(b) in t.lists && i < |t.lists[Bucket(b)]|
    ensures var n := t.lists[Bucket(b)][i];
            2 <= n < |t.nodes| && n in t.dd && Fits(t.nodes, t.dd, n) && t.nodes[n].next == Prev(t.lists[Bucket(b)], i)
  {
    hide Heads;
    EntryPlace(t.nodes, t.lists, t.place, Bucket(b), i);
  }

  lemma BucketAt(t: Table, hash: Hash, b: nat)
    requires Sound(t, hash) && b < |t.nodes|
    ensures Bucket(b) in t.lists && t.nodes[b].hash == Head(t.lists, Bucket(b))
  {
    hide Threaded, Placed, Keyed;
  }

  /** A node of the table is in the chain of its key. */
  lemma InChain(t: Table, hash: Hash, n: nat)
    requires Sound(t, hash) && n in t.dd && 2 <= n
    ensures n < |t.nodes| && 0 <= t.nodes[n].low && 0 <= t.nodes[n].high
    ensures var b := hash(|t.nodes|, t.nodes[n].level, t.nodes[n].low, t.nodes[n].high);
            && b < |t.nodes| && Bucket(b) in t.lists
            && n in t.place && t.place[n].0 == Bucket(b) && t.place[n].1 < |t.lists[Bucket(b)]|
            && t.lists[Bucket(b)][t.place[n].1] == n
  {
    NodeAt(t, hash, n);
    hide Heads;
    assert n in t.place;
    BucketAt(t, hash, hash(|t.nodes|, t.nodes[n].level, t.nodes[n].low, t.nodes[n].high));
  }

  /** Two nodes of the table are the same when they agree on level and children. */
  lemma SameKey(t: Table, hash: Hash, n: nat, l: nat, low: nat, high: nat)
    requires Sound(t, hash) && n in t.dd && low in t.dd && high in t.dd && t.dd[n] == Node(l, t.dd[low], t.dd[high])
    ensures 2 <= n < |t.nodes| && Fits(t.nodes, t.dd, n) && t.nodes[n].level == l && t.nodes[n].low == low && t.nodes[n].high == high
  {
    NodeAt(t, hash, n);
    hide Threaded, Placed, Heads, Keyed;
  }

  /* ---- building a node ---- */

  ghost function BuiltNodes(t: Table, l: nat, low: nat, high: nat): seq<BddNode>
    requires t.freepos < |t.nodes|
  {
    t.nodes[t.freepos := t.nodes[t.freepos].(level := l, low := low, high := high, refcou := 0, mark := false)]
  }

  /** The head of the free list becomes the node (l, low, high) and is linked into bucket b. */
  ghost function Built(t: Table, l: nat, low: nat, high: nat, b: nat): Table
    requires t.freepos < |t.nodes| && b < |t.nodes| && low in t.dd && high in t.dd && 0 < t.freenum
    requires Free in t.lists && t.lists[Free] != [] && Bucket(b) in t.lists
  {
    var r := t.freepos;
    t.(nodes := LinkedNodes(BuiltNodes(t, l, low, high), b, r), freepos := t.nodes[r].next, freenum := t.freenum - 1,
       dd := t.dd[r := Node(l, t.dd[low], t.dd[high])],
       lists := Pushed(Popped(t.lists, Free), Bucket(b), r), place := t.place[r := (Bucket(b), |t.lists[Bucket(b)]|)])
  }

  lemma FreeHead(t: Table, hash: Hash)
    requires Sound(t, hash) && t.freepos != 0
    ensures 2 <= t.freepos < |t.nodes| && Free in t.lists && t.lists[Free] != [] && 0 < t.freenum
    ensures t.freepos !in t.dd && t.freepos !in t.ext && t.freepos in t.place && t.place[t.freepos].0 == Free
  {
    hide Heads;
    ConstantsAt(t, hash);
    var c := t.lists[Free];
    EntryPlace(t.nodes, t.lists, t.place, Free, |c| - 1);
    hide Threaded, Placed;
    assert t.freepos in t.place;
    KeyedFree(t.nodes, t.dd, hash, t.place, t.freepos);
  }

  lemma KeyedFree(nodes: seq<BddNode>, dd: Trees, hash: Hash, place: Places, n: nat)
    requires Recorded(nodes, dd) && Keyed(nodes, dd, hash, place) && n in place
    ensures place[n].0 == Free <==> n !in dd
  {
    assert n in dd ==> Fits(nodes, dd, n);
  }

  lemma BuildCanon(dd: Trees, r: nat, l: nat, low: nat, high: nat)
    requires Canon(dd) && 2 <= r && r !in dd && low in dd && high in dd && low != high
    requires Under(l, dd[low]) && Under(l, dd[high])
    requires forall n {:trigger dd[n]} :: n in dd ==> dd[n] != Node(l, dd[low], dd[high])
    ensures Canon(dd[r := Node(l, dd[low], dd[high])])
  {
  }

  lemma BuildRecorded(t: Table, r: nat, l: nat, low: nat, high: nat, nodes': seq<BddNode>)
    requires Recorded(t.nodes, t.dd) && Referenced(t.nodes, t.dd, t.ext) && 2 <= r < |t.nodes| && r !in t.dd && low in t.dd && high in t.dd
    requires |nodes'| == |t.nodes| && nodes'[r].level == l && nodes'[r].low == low && nodes'[r].high == high && nodes'[r].refcou == 0
    requires forall n {:trigger nodes'[n]} :: 0 <= n < |nodes'| && n != r ==>
               nodes'[n].level == t.nodes[n].level && nodes'[n].low == t.nodes[n].low && nodes'[n].high == t.nodes[n].high && nodes'[n].refcou == t.nodes[n].refcou
    ensures var dd' := t.dd[r := Node(l, t.dd[low], t.dd[high])];
            Recorded(nodes', dd') && Referenced(nodes', dd', t.ext)
  {
    var dd' := t.dd[r := Node(l, t.dd[low], t.dd[high])];
    forall n | n in dd' && 2 <= n ensures n < |nodes'| && Fits(nodes', dd', n) {
      if n != r { assert Fits(t.nodes, t.dd, n); }
    }
  }

  lemma BuildKeyed(t: Table, hash: Hash, r: nat, l: nat, low: nat, high: nat, b: nat, nodes': seq<BddNode>, i: nat)
    requires Keyed(t.nodes, t.dd, hash, t.place) && 2 <= r < |t.nodes| && r !in t.dd && low in t.dd && high in t.dd
    requires b == hash(|t.nodes|, l, low, high)
    requires |nodes'| == |t.nodes| && nodes'[r].level == l && nodes'[r].low == low && nodes'[r].high == high
    requires forall n {:trigger nodes'[n]} :: 0 <= n < |nodes'| && n != r ==>
               nodes'[n].level == t.nodes[n].level && nodes'[n].low == t.nodes[n].low && nodes'[n].high == t.nodes[n].high
    ensures Keyed(nodes', t.dd[r := Node(l, t.dd[low], t.dd[high])], hash, t.place[r := (Bucket(b), i)])
  {
    var place', dd' := t.place[r := (Bucket(b), i)], t.dd[r := Node(l, t.dd[low], t.dd[high])];
    forall n | n in place' ensures place'[n].0 == KeyOf(nodes', dd', hash, n) {
      assert n in t.place;
      if n != r { assert t.place[n].0 == KeyOf(t.nodes, t.dd, hash, n); }
    }
  }

  lemma BuildLists(t: Table, hash: Hash, l: nat, low: nat, high: nat, b: nat)
    requires Sound(t, hash) && t.freepos != 0 && low in t.dd && high in t.dd && b < |t.nodes|
    ensures Bucket(b) in t.lists && Free in t.lists && t.lists[Free] != [] && t.freepos < |t.nodes| && 0 < t.freenum
    ensures var u := Built(t, l, low, high, b);
            && Heads(u.nodes, u.lists, u.freepos) && Threaded(u.nodes, u.lists, u.place)
            && u.lists[Todo] == [] && u.lists[Hand] == [] && u.freenum == |u.lists[Free]|
  {
    BucketAt(t, hash, b);
    FreeHead(t, hash);
    hide Keyed, Recorded, Referenced, Unmarked, Canon, Heads, Threaded;
    MoveToBucket(t.nodes, t.lists, t.freepos, t.place, b, BuiltNodes(t, l, low, high));
  }

  lemma BuiltFields(t: Table, l: nat, low: nat, high: nat, b: nat)
    requires t.freepos < |t.nodes| && b < |t.nodes|
    ensures var r, nodes' := t.freepos, LinkedNodes(BuiltNodes(t, l, low, high), b, t.freepos);
            && |nodes'| == |t.nodes|
            && nodes'[r].level == l && nodes'[r].low == low && nodes'[r].high == high && nodes'[r].refcou == 0
            && (Unmarked(t.nodes) ==> Unmarked(nodes'))
            && forall n {:trigger nodes'[n]} :: 0 <= n < |nodes'| && n != r ==>
                 nodes'[n].level == t.nodes[n].level && nodes'[n].low == t.nodes[n].low && nodes'[n].high == t.nodes[n].high && nodes'[n].refcou == t.nodes[n].refcou
  {
  }

  /** No node has this tree. */
  ghost predicate Missing(dd: Trees, d: Dd) {
    forall n {:trigger dd[n]} :: n in dd ==> dd[n] != d
  }

  lemma BuildSound(t: Table, hash: Hash, l: nat, low: nat, high: nat)
    requires Sound(t, hash) && t.freepos != 0 && low in t.dd && high in t.dd && low != high
    requires Under(l, t.dd[low]) && Under(l, t.dd[high]) && Missing(t.dd, Node(l, t.dd[low], t.dd[high]))
    ensures 2 <= t.freepos < |t.nodes| && t.freepos !in t.dd && Free in t.lists && t.lists[Free] != [] && 0 < t.freenum
    ensures var b := hash(|t.nodes|, l, low, high);
            b < |t.nodes| && Bucket(b) in t.lists && Sound(Built(t, l, low, high, b), hash)
  {
    FreeHead(t, hash);
    ConstantsAt(t, hash);
    var b := hash(|t.nodes|, l, low, high);
    BuildLists(t, hash, l, low, high, b);
    hide Heads, Threaded, Placed, Keyed, Recorded, Referenced, Canon, Unmarked, LinkedNodes, BuiltNodes, Pushed, Popped;
    var u := Built(t, l, low, high, b);
    BuiltFields(t, l, low, high, b);
    BuildCanon(t.dd, t.freepos, l, low, high);
    BuildRecorded(t, t.freepos, l, low, high, u.nodes);
    BuildKeyed(t, hash, t.freepos, l, low, high, b, u.nodes, |t.lists[Bucket(b)]|);
  }

  /** A new node disturbs no other one. */
  lemma BuildKeeps(t: Table, stack: seq<nat>, t': Table, r: nat, d: Dd)
    requires t'.dd == t.dd[r := d] && r !in t.dd && t'.ext == t.ext && SameCounts(t.nodes, t.ext, t'.nodes)
    ensures Keeps(t, stack, t')
  {
  }
}
