/**
  The node record of kernel.h and the lists threaded through its `next` field.

  One array carries every hash chain, the free list and, while two variables
  are being exchanged, a list of nodes waiting to be rewritten. `lists` names
  those lists as sequences, head LAST, so that linking a node in front of a
  list is an append and unlinking its head drops the last element. `place`
  says where each node is; being a function, it keeps the lists disjoint and
  free of repetitions.
*/
module Threads {

  /** kernel.h: s_BddNode. `low == -1` marks a free slot. */
  datatype BddNode = BddNode(level: nat, low: int, high: int, refcou: nat, mark: bool, hash: nat, next: nat)

  /** kernel.h: MAXREF, the largest value of the 10-bit reference counter. */
  const MAXREF: nat := 0x3FF

  /** INCREF and DECREF. */
  function Inc(c: nat): nat { if c < MAXREF then c + 1 else c }
  function Dec(c: nat): nat { if c != MAXREF && c > 0 then c - 1 else c }

  /** A slot as bdd_noderesize fills it in. */
  function EmptySlot(next: nat): BddNode {
    BddNode(0, -1, 0, 0, false, 0, next)
  }

  /** The size policy of a resize: any larger size. */
  ghost predicate Grows(largerSize: nat -> nat) {
    forall n: nat {:trigger largerSize(n)} :: n < largerSize(n)
  }

  datatype Key = Bucket(b: nat) | Free | Todo | Hand

  type Lists = map<Key, seq<nat>>
  type Places = map<nat, (Key, nat)>

  function Head(lists: Lists, k: Key): nat
    requires k in lists
  {
    var c := lists[k];
    if c == [] then 0 else c[|c| - 1]
  }

  function Prev(c: seq<nat>, i: nat): nat
    requires i <= |c|
  {
    if i == 0 then 0 else c[i - 1]
  }

  /** Every list entry is where `place` says, and `place` covers nothing else. */
  ghost predicate Placed(size: nat, lists: Lists, place: Places) {
    && (forall k, i {:trigger lists[k][i]} :: k in lists && 0 <= i < |lists[k]| ==>
          2 <= lists[k][i] < size && lists[k][i] in place && place[lists[k][i]] == (k, i))
    && (forall n {:trigger place[n]} {:trigger n in place} :: n in place ==>
          place[n].0 in lists && place[n].1 < |lists[place[n].0]| && lists[place[n].0][place[n].1] == n)
  }

  ghost predicate Threaded(nodes: seq<BddNode>, lists: Lists, place: Places) {
    && Placed(|nodes|, lists, place)
    && (forall n {:trigger nodes[n]} :: 0 <= n < |nodes| && n in place ==>
          nodes[n].next == Prev(lists[place[n].0], place[n].1))
  }

  function Pushed(lists: Lists, k: Key, n: nat): Lists
    requires k in lists
  {
    lists[k := lists[k] + [n]]
  }

  function Popped(lists: Lists, k: Key): Lists
    requires k in lists && lists[k] != []
  {
    lists[k := lists[k][..|lists[k]| - 1]]
  }

  lemma PushPlaced(size: nat, lists: Lists, place: Places, k: Key, n: nat)
    requires Placed(size, lists, place)
    requires k in lists && 2 <= n < size && n !in place
    ensures Placed(size, Pushed(lists, k, n), place[n := (k, |lists[k]|)])
  {
    var lists', place' := Pushed(lists, k, n), place[n := (k, |lists[k]|)];
    forall j, i | j in lists' && 0 <= i < |lists'[j]|
      ensures 2 <= lists'[j][i] < size && lists'[j][i] in place' && place'[lists'[j][i]] == (j, i)
    {
      if j == k && i == |lists[k]| {
      } else {
        assert lists'[j][i] == lists[j][i] && lists[j][i] in place;
      }
    }
    forall m | m in place'
      ensures place'[m].0 in lists' && place'[m].1 < |lists'[place'[m].0]| && lists'[place'[m].0][place'[m].1] == m
    {
      if m != n {
        assert place'[m] == place[m];
      }
    }
  }

  /** Linking an unplaced node in front of list k. */
  lemma Push(nodes: seq<BddNode>, lists: Lists, place: Places, k: Key, n: nat, nodes': seq<BddNode>)
    requires Threaded(nodes, lists, place)
    requires k in lists && 2 <= n < |nodes| && n !in place
    requires |nodes'| == |nodes| && nodes'[n].next == Head(lists, k)
    requires forall m {:trigger nodes'[m]} :: 0 <= m < |nodes| && m != n ==> nodes'[m].next == nodes[m].next
    ensures Threaded(nodes', Pushed(lists, k, n), place[n := (k, |lists[k]|)])
    ensures Head(Pushed(lists, k, n), k) == n
  {
    PushPlaced(|nodes|, lists, place, k, n);
    var lists', place' := Pushed(lists, k, n), place[n := (k, |lists[k]|)];
    forall m | 0 <= m < |nodes'| && m in place'
      ensures place'[m].0 in lists' && place'[m].1 <= |lists'[place'[m].0]|
              && nodes'[m].next == Prev(lists'[place'[m].0], place'[m].1)
    {
      if m != n {
        var (j, i) := place[m];
        assert lists[j][i] == m && nodes[m].next == Prev(lists[j], i);
      }
    }
  }

  /** Unlinking the head of list k. */
  lemma Pop(nodes: seq<BddNode>, lists: Lists, place: Places, k: Key)
    requires Threaded(nodes, lists, place)
    requires k in lists && lists[k] != []
    ensures var n := Head(lists, k);
            && 2 <= n < |nodes| && n in place && place[n] == (k, |lists[k]| - 1)
            && Threaded(nodes, Popped(lists, k), place - {n})
            && nodes[n].next == Head(Popped(lists, k), k)
  {
    PopPlaced(|nodes|, lists, place, k);
    var n, lists' := Head(lists, k), Popped(lists, k);
    assert n == lists[k][|lists[k]| - 1];
    forall m | 0 <= m < |nodes| && m in place && m != n ensures nodes[m].next == Prev(lists'[place[m].0], place[m].1) {
      assert lists[place[m].0][place[m].1] == m;
    }
  }

  lemma PopPlaced(size: nat, lists: Lists, place: Places, k: Key)
    requires Placed(size, lists, place) && k in lists && lists[k] != []
    ensures var n := Head(lists, k);
            2 <= n < size && n in place && place[n] == (k, |lists[k]| - 1) && Placed(size, Popped(lists, k), place - {n})
  {
    var n := Head(lists, k);
    assert n == lists[k][|lists[k]| - 1];
    var lists', place' := Popped(lists, k), place - {n};
    forall j, i | j in lists' && 0 <= i < |lists'[j]|
      ensures 2 <= lists'[j][i] < size && lists'[j][i] in place' && place'[lists'[j][i]] == (j, i)
    {
      assert lists'[j][i] == lists[j][i] && lists[j][i] in place;
    }
    forall m | m in place'
      ensures place'[m].0 in lists' && place'[m].1 < |lists'[place'[m].0]| && lists'[place'[m].0][place'[m].1] == m
    {
      assert place'[m] == place[m] && m != n;
    }
  }

  /** Changing anything but `next`, or adding slots, leaves the threads alone. */
  lemma Relabel(nodes: seq<BddNode>, lists: Lists, place: Places, nodes': seq<BddNode>)
    requires Threaded(nodes, lists, place)
    requires |nodes'| >= |nodes|
    requires forall m {:trigger nodes'[m]} :: 0 <= m < |nodes| ==> nodes'[m].next == nodes[m].next
    ensures Threaded(nodes', lists, place)
  {
    forall n | 0 <= n < |nodes'| && n in place
      ensures nodes'[n].next == Prev(lists[place[n].0], place[n].1)
    {
      assert lists[place[n].0][place[n].1] == n;
    }
  }

  /** `hash` of slot b heads the chain of bucket b; freepos heads the free list. */
  ghost predicate Heads(nodes: seq<BddNode>, lists: Lists, freepos: nat) {
    && Free in lists && Todo in lists && Hand in lists
    && (forall b: nat {:trigger Bucket(b)} :: b < |nodes| ==>
          Bucket(b) in lists && nodes[b].hash == Head(lists, Bucket(b)))
    && (forall b: nat {:trigger Bucket(b)} :: Bucket(b) in lists ==> b < |nodes|)
    && freepos == Head(lists, Free)
  }

  /* Heads is preserved for small reasons. */

  lemma HeadsKeep(nodes: seq<BddNode>, lists: Lists, freepos: nat, nodes': seq<BddNode>, lists': Lists, freepos': nat)
    requires Heads(nodes, lists, freepos)
    requires |nodes'| == |nodes| && lists'.Keys == lists.Keys && Free in lists' && freepos' == Head(lists', Free)
    requires forall c: nat {:trigger Bucket(c)} :: c < |nodes| ==> nodes'[c].hash == nodes[c].hash
    requires forall c: nat {:trigger Bucket(c)} :: Bucket(c) in lists ==> Bucket(c) in lists' && lists'[Bucket(c)] == lists[Bucket(c)]
    ensures Heads(nodes', lists', freepos')
  {
  }

  lemma HeadsBucket(nodes: seq<BddNode>, lists: Lists, freepos: nat, b: nat, nodes': seq<BddNode>, lists': Lists)
    requires Heads(nodes, lists, freepos)
    requires |nodes'| == |nodes| && b < |nodes| && lists'.Keys == lists.Keys
    requires Free in lists' && lists'[Free] == lists[Free]
    requires Bucket(b) in lists' && nodes'[b].hash == Head(lists', Bucket(b))
    requires forall c: nat {:trigger Bucket(c)} :: c < |nodes| && c != b ==> nodes'[c].hash == nodes[c].hash
    requires forall c: nat {:trigger Bucket(c)} :: c != b && Bucket(c) in lists ==>
               Bucket(c) in lists' && lists'[Bucket(c)] == lists[Bucket(c)]
    ensures Heads(nodes', lists', freepos)
  {
  }

  lemma HeadsFree(nodes: seq<BddNode>, lists: Lists, freepos: nat)
    requires Heads(nodes, lists, freepos)
    ensures Free in lists && Todo in lists && Hand in lists && freepos == Head(lists, Free)
  {
  }

  lemma EntryPlace(nodes: seq<BddNode>, lists: Lists, place: Places, k: Key, i: nat)
    requires Threaded(nodes, lists, place) && k in lists && i < |lists[k]|
    ensures var n := lists[k][i];
            2 <= n < |nodes| && n in place && place[n] == (k, i) && nodes[n].next == Prev(lists[k], i)
  {
    var n := lists[k][i];
    assert n in place && place[n] == (k, i);
  }

  lemma {:induction false} DistinctCount(c: seq<nat>, x: set<nat>)
    requires forall i {:trigger c[i]} :: 0 <= i < |c| ==> c[i] in x
    requires forall n {:trigger n in x} :: n in x ==> n in c
    requires forall i, j {:trigger c[i], c[j]} :: 0 <= i < j < |c| ==> c[i] != c[j]
    ensures |c| == |x|
  {
    if c == [] {
      assert x == {};
    } else {
      var k := |c| - 1;
      forall n | n in x - {c[k]} ensures n in c[..k] {
        var i :| 0 <= i < |c| && c[i] == n;
        assert c[..k][i] == n;
      }
      DistinctCount(c[..k], x - {c[k]});
    }
  }

  /** node->next = bddnodes[b].hash; bddnodes[b].hash = n */
  function LinkedNodes(nodes: seq<BddNode>, b: nat, n: nat): seq<BddNode>
    requires b < |nodes| && n < |nodes|
  {
    var nodes1 := nodes[n := nodes[n].(next := nodes[b].hash)];
    nodes1[b := nodes1[b].(hash := n)]
  }

  /** The head of the free list goes to the front of bucket b; nodes1 differs from nodes in other fields only. */
  lemma MoveToBucket(nodes: seq<BddNode>, lists: Lists, freepos: nat, place: Places, b: nat, nodes1: seq<BddNode>)
    requires Heads(nodes, lists, freepos) && Threaded(nodes, lists, place) && lists[Free] != [] && b < |nodes|
    requires |nodes1| == |nodes|
    requires forall m {:trigger nodes1[m]} :: 0 <= m < |nodes| ==> nodes1[m].next == nodes[m].next && nodes1[m].hash == nodes[m].hash
    ensures 2 <= freepos < |nodes| && Bucket(b) in lists
    ensures var lists' := Pushed(Popped(lists, Free), Bucket(b), freepos);
            && Heads(LinkedNodes(nodes1, b, freepos), lists', nodes[freepos].next)
            && Threaded(LinkedNodes(nodes1, b, freepos), lists', place[freepos := (Bucket(b), |lists[Bucket(b)]|)])
            && |lists'[Free]| == |lists[Free]| - 1 && lists'[Todo] == lists[Todo] && lists'[Hand] == lists[Hand]
  {
    assert Bucket(b) in lists && nodes[b].hash == Head(lists, Bucket(b)) && freepos == Head(lists, Free);
    var r := freepos;
    Pop(nodes, lists, place, Free);
    var lists1, place1 := Popped(lists, Free), place - {r};
    HeadsKeep(nodes, lists, freepos, nodes1, lists1, nodes[r].next);
    hide Threaded, Placed, Heads;
    var nodes2 := nodes1[r := nodes1[r].(next := nodes1[b].hash)];
    var lists', place' := Pushed(lists1, Bucket(b), r), place1[r := (Bucket(b), |lists[Bucket(b)]|)];
    Relabel(nodes, lists1, place1, nodes1);
    Push(nodes1, lists1, place1, Bucket(b), r, nodes2);
    Relabel(nodes2, lists', place', LinkedNodes(nodes1, b, r));
    HeadsBucket(nodes1, lists1, nodes[r].next, b, LinkedNodes(nodes1, b, r), lists');
    assert place' == place[r := (Bucket(b), |lists[Bucket(b)]|)];
  }

  /* ---- building all lists again, from the last slot down ---- */

  /**
    The slots from n on are placed, each on the list keys[slot]; the others are
    on no list yet.
  */
  ghost predicate Rebuilding(nodes: seq<BddNode>, lists: Lists, freepos: nat, place: Places, keys: seq<Key>, n: nat) {
    && Heads(nodes, lists, freepos) && Threaded(nodes, lists, place)
    && |keys| == |nodes| && 2 <= n <= |nodes|
    && (forall m {:trigger m in place} :: m in place <==> n <= m < |nodes|)
    && (forall m {:trigger place[m]} :: m in place ==> m < |keys| && place[m].0 == keys[m])
    && lists[Todo] == [] && lists[Hand] == []
  }

  ghost function NoLists(size: nat): Lists {
    (map b: nat | b < size :: Bucket(b) := [])[Free := []][Todo := []][Hand := []]
  }

  /** All heads zero: nothing is on any list. */
  lemma RebuildStart(nodes: seq<BddNode>, keys: seq<Key>)
    requires 2 <= |nodes| == |keys|
    requires forall n {:trigger nodes[n]} :: 0 <= n < |nodes| ==> nodes[n].hash == 0
    ensures Rebuilding(nodes, NoLists(|nodes|), 0, map[], keys, |nodes|)
  {
  }

  lemma RebuildLink(nodes: seq<BddNode>, lists: Lists, freepos: nat, place: Places, keys: seq<Key>, n: nat, b: nat)
    requires Rebuilding(nodes, lists, freepos, place, keys, n + 1) && 2 <= n && b < |nodes| && keys[n] == Bucket(b)
    ensures Bucket(b) in lists
    ensures Rebuilding(LinkedNodes(nodes, b, n), Pushed(lists, Bucket(b), n), freepos, place[n := (Bucket(b), |lists[Bucket(b)]|)], keys, n)
  {
    assert Bucket(b) in lists && nodes[b].hash == Head(lists, Bucket(b)) && Free in lists;
    hide Heads, Threaded, Placed;
    var nodes1 := nodes[n := nodes[n].(next := nodes[b].hash)];
    var nodes2, lists', place' := LinkedNodes(nodes, b, n), Pushed(lists, Bucket(b), n), place[n := (Bucket(b), |lists[Bucket(b)]|)];
    Push(nodes, lists, place, Bucket(b), n, nodes1);
    Relabel(nodes1, lists', place', nodes2);
    HeadsBucket(nodes, lists, freepos, b, nodes2, lists');
  }

  lemma RebuildRange(nodes: seq<BddNode>, lists: Lists, freepos: nat, place: Places, keys: seq<Key>, n: nat)
    requires Rebuilding(nodes, lists, freepos, place, keys, n)
    ensures 2 <= n <= |nodes| == |keys| && Free in lists && freepos == Head(lists, Free)
  {
  }

  lemma RebuildFree(nodes: seq<BddNode>, lists: Lists, freepos: nat, place: Places, keys: seq<Key>, n: nat, nodes': seq<BddNode>)
    requires Rebuilding(nodes, lists, freepos, place, keys, n + 1) && 2 <= n && keys[n] == Free
    requires n < |nodes'| == |nodes| && nodes' == nodes[n := nodes'[n]] && nodes'[n].hash == nodes[n].hash && nodes'[n].next == freepos
    ensures Free in lists
    ensures Rebuilding(nodes', Pushed(lists, Free, n), n, place[n := (Free, |lists[Free]|)], keys, n)
  {
    HeadsFree(nodes, lists, freepos);
    var lists', place' := Pushed(lists, Free, n), place[n := (Free, |lists[Free]|)];
    HeadsKeep(nodes, lists, freepos, nodes', lists', n);
    hide Heads, Threaded, Placed;
    Push(nodes, lists, place, Free, n, nodes');
  }

  /** Changing anything but the links of a slot. */
  lemma RebuildTouch(nodes: seq<BddNode>, lists: Lists, freepos: nat, place: Places, keys: seq<Key>, n: nat, nodes': seq<BddNode>)
    requires Rebuilding(nodes, lists, freepos, place, keys, n) && |nodes'| == |nodes|
    requires forall m {:trigger nodes'[m]} :: 0 <= m < |nodes| ==> nodes'[m].next == nodes[m].next && nodes'[m].hash == nodes[m].hash
    ensures Rebuilding(nodes', lists, freepos, place, keys, n)
  {
    HeadsFree(nodes, lists, freepos);
    HeadsKeep(nodes, lists, freepos, nodes', lists, freepos);
    hide Heads, Placed;
    Relabel(nodes, lists, place, nodes');
  }
}
