/**
  The chained hash table of bddio.c that maps the ids of a file to loaded
  diagrams. Slots are handed out in order, so a chain runs through ever older
  slots.
*/
module LoadTable {
  import opened Dd

  datatype Option<T> = None | Some(value: T)

  datatype Slot = Slot(first: int, next: int, key: nat, data: Dd)

  /** key % lh_nodenum */
  function Home(key: nat, n: nat): (b: nat)
    requires 0 < n
    ensures b < n
  {
    key % n
  }

  /** The youngest of the first p slots whose key falls into bucket b of n, or -1. */
  function Youngest(table: seq<Slot>, n: nat, b: nat, p: nat): int
    requires 0 < n && p <= |table|
  {
    if p == 0 then -1 else if Home(table[p - 1].key, n) == b then p - 1 else Youngest(table, n, b, p - 1)
  }

  lemma {:induction false} YoungestRange(table: seq<Slot>, n: nat, b: nat, p: nat)
    requires 0 < n && p <= |table|
    ensures var y := Youngest(table, n, b, p);
            && -1 <= y < p && (0 <= y ==> Home(table[y].key, n) == b)
            && forall q: nat {:trigger table[q]} :: y < q < p ==> Home(table[q].key, n) != b
  {
    if p != 0 { YoungestRange(table, n, b, p - 1); }
  }

  /** Only the keys of the first p slots matter. */
  lemma {:induction false} YoungestSame(table: seq<Slot>, table': seq<Slot>, n: nat, b: nat, p: nat)
    requires 0 < n && p <= |table| && p <= |table'| && forall q {:trigger table'[q]} :: 0 <= q < p ==> table'[q].key == table[q].key
    ensures Youngest(table', n, b, p) == Youngest(table, n, b, p)
  {
    if p != 0 { YoungestSame(table, table', n, b, p - 1); }
  }

  class LoadHash {
    var table: seq<Slot>
    var freepos: int
    var count: nat
    ghost var entries: map<nat, Dd>

    /** The used slots are the first `count`; the chain of a bucket visits its slots from the youngest down. */
    ghost predicate Valid()
      reads this
    {
      && Linked(table, freepos, count) && Holding(table, count, entries)
    }

    /** lh_table as malloc'ed and linked for n entries. */
    static function Fresh(n: nat): seq<Slot>
    {
      seq(n, i requires 0 <= i => Slot(-1, if i + 1 < n then i + 1 else -1, 0, Leaf(false)))
    }

    constructor (nodenum: nat)
      ensures Valid() && entries == map[]
    {
      table := Fresh(if nodenum < 1 then 1 else nodenum);
      freepos, count := 0, 0;
      entries := map[];
    }

    /** loadhash_get: the chain walk; None stands for -1. */
    method Get(key: nat) returns (data: Option<Dd>)
      requires Valid()
      ensures data == if key in entries then Some(entries[key]) else None
    {
      hide Linked, Holding, Home;
      Nonempty(table, freepos, count);
      var n := |table|;
      ChainStart(table, freepos, count, Home(key, n));
      var hash := table[Home(key, n)].first;
      while hash != -1 && table[hash].key != key
        invariant -1 <= hash < count
        invariant forall q: nat {:trigger table[q]} :: hash < q < count ==> table[q].key != key
        invariant hash != -1 ==> Home(table[hash].key, n) == Home(key, n)
        decreases hash
      {
        ChainNext(table, freepos, count, hash);
        hash := table[hash].next;
      }
      if hash == -1 {
        NotHeld(table, count, entries, key);
        return None;
      }
      IsHeld(table, count, entries, hash);
      return Some(table[hash].data);
    }

    /** loadhash_insert: the next free slot at the head of its bucket. */
    method Insert(key: nat, data: Dd)
      requires Valid() && freepos != -1 && key !in entries
      modifies this
      ensures Valid() && entries == old(entries)[key := data]
      ensures |table| == |old(table)| && count == old(count) + 1
    {
      hide Linked, Holding, Home;
      ghost var table0, count0 := table, count;
      FreeSlot(table, freepos, count);
      var h := Home(key, |table|);
      var pos := freepos;
      freepos := table[pos].next;
      table := table[pos := table[pos].(next := table[h].first)];
      table := table[h := table[h].(first := pos)];
      table := table[pos := table[pos].(key := key, data := data)];
      count := count + 1;
      entries := entries[key := data];
      InsertLinked(table0, count0, key, table, freepos);
      InsertHolding(table0, count0, old(entries), key, data, table);
    }

    /** loadhash_add: grows once every entry slot is used. */
    method Add(key: nat, data: Dd)
      requires Valid() && key !in entries
      modifies this
      ensures Valid() && entries == old(entries)[key := data]
    {
      if freepos == -1 {
        Realloc();
      }
      Insert(key, data);
    }

    /** loadhash_realloc: twice the slots; every entry is found by walking the old chains and is kept. */
    method Realloc()
      requires Valid() && freepos == -1
      modifies this
      ensures Valid() && entries == old(entries) && freepos != -1
    {
      hide Linked, Holding, Home, Copied;
      ghost var entries0 := entries;
      FullTable(table, count);
      var oldTable, n := table, |table|;
      table := Fresh(2 * n);
      freepos, count := 0, 0;
      entries := map[];
      FreshValid(2 * n);
      NoneCopied(oldTable, entries0);
      var b := 0;
      ghost var copied: set<nat> := {};
      while b < n
        invariant b <= n && Valid() && |table| == 2 * n
        invariant Copied(oldTable, entries0, entries, copied) && count == |copied|
        invariant forall p: nat {:trigger p in copied} :: p in copied <==> p < n && Home(oldTable[p].key, n) < b
      {
        copied := CopyBucket(oldTable, entries0, b, copied);
        b := b + 1;
      }
      AllCopied(oldTable, entries0, entries, copied);
      CountSlots(copied, n);
      NotFull(table, freepos, count);
    }

    /** The inner loop: one old chain, from its youngest slot down. */
    method CopyBucket(oldTable: seq<Slot>, ghost entries0: map<nat, Dd>, b: nat, ghost copied0: set<nat>) returns (ghost copied: set<nat>)
      requires Valid() && b < |oldTable| && |table| == 2 * |oldTable| && Linked(oldTable, -1, |oldTable|) && Holding(oldTable, |oldTable|, entries0)
      requires Copied(oldTable, entries0, entries, copied0) && count == |copied0|
      requires forall p: nat {:trigger p in copied0} :: p in copied0 <==> p < |oldTable| && Home(oldTable[p].key, |oldTable|) < b
      modifies this
      ensures Valid() && |table| == |old(table)| && Copied(oldTable, entries0, entries, copied) && count == |copied|
      ensures forall p: nat {:trigger p in copied} :: p in copied <==> p < |oldTable| && Home(oldTable[p].key, |oldTable|) <= b
    {
      hide Linked, Holding, Home, Copied;
      var n := |oldTable|;
      copied := copied0;
      ChainStart(oldTable, -1, n, b);
      var p := oldTable[b].first;
      while p != -1
        invariant -1 <= p < n && Valid() && |table| == 2 * n && Copied(oldTable, entries0, entries, copied) && count == |copied|
        invariant p != -1 ==> Home(oldTable[p].key, n) == b
        invariant forall q: nat {:trigger q in copied} :: q in copied <==> q in copied0 || (p < q < n && Home(oldTable[q].key, n) == b)
        decreases p
      {
        CountSlots(copied, n);
        assert p !in copied;
        NotFull(table, freepos, count);
        StillNew(oldTable, entries0, entries, copied, p);
        ghost var before := entries;
        Insert(oldTable[p].key, oldTable[p].data);
        CopiedMore(oldTable, entries0, before, copied, p);
        copied := copied + {p as nat};
        ChainNext(oldTable, -1, n, p);
        p := oldTable[p].next;
      }
    }
  }

  ghost predicate Linked(table: seq<Slot>, freepos: int, count: nat) {
    && 1 <= |table| && count <= |table| && freepos == (if count < |table| then count else -1)
    && (forall p {:trigger table[p]} :: 0 <= p < |table| ==> table[p].first == Youngest(table, |table|, p, count))
    && (forall p {:trigger table[p]} :: 0 <= p < count ==> table[p].next == Youngest(table, |table|, Home(table[p].key, |table|), p))
    && (forall p {:trigger table[p]} :: count <= p < |table| ==> table[p].next == if p + 1 < |table| then p + 1 else -1)
  }

  /** The used slots hold exactly these entries, each key once. */
  ghost predicate Holding(table: seq<Slot>, count: nat, entries: map<nat, Dd>) {
    && count <= |table|
    && (forall p {:trigger table[p]} :: 0 <= p < count ==> table[p].key in entries && entries[table[p].key] == table[p].data)
    && (forall key {:trigger key in entries} :: key in entries ==> exists p :: 0 <= p < count && table[p].key == key)
    && (forall p, q {:trigger table[p], table[q]} :: 0 <= p < q < count ==> table[p].key != table[q].key)
  }

  lemma {:induction false} FreshValid(n: nat)
    requires 1 <= n
    ensures var t := LoadHash.Fresh(n); Linked(t, 0, 0) && Holding(t, 0, map[])
  {
  }

  lemma {:induction false} ChainStart(table: seq<Slot>, freepos: int, count: nat, b: nat)
    requires Linked(table, freepos, count) && b < |table|
    ensures var y := table[b].first;
            && -1 <= y < count <= |table| && (0 <= y ==> Home(table[y].key, |table|) == b)
            && forall q: nat {:trigger table[q]} :: y < q < count ==> Home(table[q].key, |table|) != b
  {
    YoungestRange(table, |table|, b, count);
    hide Youngest, Home;
  }

  lemma {:induction false} ChainNext(table: seq<Slot>, freepos: int, count: nat, p: nat)
    requires Linked(table, freepos, count) && p < count
    ensures var y, b := table[p].next, Home(table[p].key, |table|);
            && -1 <= y < p && (0 <= y ==> Home(table[y].key, |table|) == b)
            && forall q: nat {:trigger table[q]} :: y < q < p ==> Home(table[q].key, |table|) != b
  {
    YoungestRange(table, |table|, Home(table[p].key, |table|), p);
    hide Youngest, Home;
  }

  lemma {:induction false} FreeSlot(table: seq<Slot>, freepos: int, count: nat)
    requires Linked(table, freepos, count) && freepos != -1
    ensures freepos == count < |table| && table[freepos].next == if count + 1 < |table| then count + 1 else -1
  {
    hide Youngest, Home;
  }

  lemma {:induction false} NotFull(table: seq<Slot>, freepos: int, count: nat)
    requires Linked(table, freepos, count) && count < |table|
    ensures freepos != -1
  {
  }

  lemma {:induction false} Nonempty(table: seq<Slot>, freepos: int, count: nat)
    requires Linked(table, freepos, count)
    ensures 1 <= |table|
  {
  }

  lemma {:induction false} FullTable(table: seq<Slot>, count: nat)
    requires Linked(table, -1, count)
    ensures count == |table| && 1 <= |table|
  {
  }

  lemma {:induction false} NotHeld(table: seq<Slot>, count: nat, entries: map<nat, Dd>, key: nat)
    requires Holding(table, count, entries) && forall q: nat {:trigger table[q]} :: q < count ==> table[q].key != key
    ensures key !in entries
  {
  }

  lemma {:induction false} IsHeld(table: seq<Slot>, count: nat, entries: map<nat, Dd>, p: nat)
    requires Holding(table, count, entries) && p < count
    ensures p < |table| && table[p].key in entries && entries[table[p].key] == table[p].data
  {
  }

  lemma {:induction false} NoneCopied(table: seq<Slot>, entries0: map<nat, Dd>)
    ensures Copied(table, entries0, map[], {})
  {
  }

  lemma {:induction false} InsertNext(table0: seq<Slot>, pos: nat, key: nat, table: seq<Slot>, p: nat)
    requires p <= pos < |table0| == |table| && Linked(table0, pos, pos)
    requires forall p {:trigger table[p]} :: 0 <= p < |table| && p != pos ==> table[p].key == table0[p].key && table[p].next == table0[p].next
    requires table[pos].key == key && table[pos].next == table0[Home(key, |table|)].first
    ensures table[p].next == Youngest(table, |table|, Home(table[p].key, |table|), p)
  {
    hide Home, Youngest;
    YoungestSame(table0, table, |table|, Home(table[p].key, |table|), p);
  }

  lemma {:induction false} InsertLinked(table0: seq<Slot>, pos: nat, key: nat, table: seq<Slot>, freepos: int)
    requires pos < |table0| == |table| && Linked(table0, pos, pos) && freepos == (if pos + 1 < |table| then pos + 1 else -1)
    requires forall p {:trigger table[p]} :: 0 <= p < |table| && p != pos ==> table[p].key == table0[p].key && table[p].next == table0[p].next
    requires table[pos].key == key && table[pos].next == table0[Home(key, |table|)].first
    requires forall p {:trigger table[p]} :: 0 <= p < |table| ==> table[p].first == if p == Home(key, |table|) then pos else table0[p].first
    ensures Linked(table, freepos, pos + 1)
  {
    hide Home;
    var n := |table|;
    forall p | 0 <= p < n ensures table[p].first == Youngest(table, n, p, pos + 1) {
      YoungestSame(table0, table, n, p, pos);
      assert table0[p].first == Youngest(table0, n, p, pos);
    }
    forall p | 0 <= p < pos + 1 ensures table[p].next == Youngest(table, n, Home(table[p].key, n), p) {
      InsertNext(table0, pos, key, table, p);
    }
    forall p | pos + 1 <= p < n ensures table[p].next == if p + 1 < n then p + 1 else -1 {
      assert table0[p].next == if p + 1 < n then p + 1 else -1;
    }
  }

  lemma {:induction false} InsertHolding(table0: seq<Slot>, pos: nat, entries0: map<nat, Dd>, key: nat, data: Dd, table: seq<Slot>)
    requires pos < |table0| == |table| && Holding(table0, pos, entries0) && key !in entries0
    requires forall p {:trigger table[p]} :: 0 <= p < |table| && p != pos ==> table[p].key == table0[p].key && table[p].data == table0[p].data
    requires table[pos].key == key && table[pos].data == data
    ensures Holding(table, pos + 1, entries0[key := data])
  {
    var entries := entries0[key := data];
    forall k | k in entries ensures exists p :: 0 <= p < pos + 1 && table[p].key == k {
      if k == key {
        assert table[pos].key == k;
      } else {
        var p :| 0 <= p < pos && table0[p].key == k;
        assert table[p].key == k;
      }
    }
    forall p | 0 <= p < pos + 1 ensures table[p].key in entries && entries[table[p].key] == table[p].data {
      assert p < pos ==> table0[p].key in entries0;
    }
  }

  /** The entries of these slots have been copied, and no others. */
  ghost predicate Copied(table: seq<Slot>, entries0: map<nat, Dd>, entries: map<nat, Dd>, copied: set<nat>) {
    && (forall p {:trigger p in copied} :: p in copied ==> p < |table| && table[p].key in entries)
    && (forall key {:trigger key in entries} :: key in entries ==>
          key in entries0 && entries[key] == entries0[key] && exists p :: p in copied && p < |table| && table[p].key == key)
  }

  lemma {:induction false} StillNew(table: seq<Slot>, entries0: map<nat, Dd>, entries: map<nat, Dd>, copied: set<nat>, p: nat)
    requires Holding(table, |table|, entries0) && Copied(table, entries0, entries, copied) && p < |table| && p !in copied
    ensures table[p].key !in entries
  {
    forall q | q in copied && q < |table| ensures table[q].key != table[p].key {
      assert q != p;
    }
  }

  lemma {:induction false} CopiedMore(table: seq<Slot>, entries0: map<nat, Dd>, entries: map<nat, Dd>, copied: set<nat>, p: nat)
    requires Holding(table, |table|, entries0) && Copied(table, entries0, entries, copied) && p < |table|
    ensures Copied(table, entries0, entries[table[p].key := table[p].data], copied + {p})
  {
    var entries' := entries[table[p].key := table[p].data];
    forall key | key in entries' ensures exists q :: q in copied + {p} && q < |table| && table[q].key == key {
      if key == table[p].key {
        assert p in copied + {p};
      } else {
        var q :| q in copied && q < |table| && table[q].key == key;
        assert q in copied + {p};
      }
    }
  }

  lemma {:induction false} AllCopied(table: seq<Slot>, entries0: map<nat, Dd>, entries: map<nat, Dd>, copied: set<nat>)
    requires Holding(table, |table|, entries0) && Copied(table, entries0, entries, copied) && forall p: nat {:trigger p in copied} :: p < |table| ==> p in copied
    ensures entries == entries0
  {
    forall key | key in entries0 ensures key in entries {
      var p :| 0 <= p < |table| && table[p].key == key;
      assert p in copied;
    }
  }

  lemma {:induction false} CountSlots(s: set<nat>, n: nat)
    requires forall p {:trigger p in s} :: p in s ==> p < n
    ensures |s| <= n
  {
    if n != 0 {
      var s' := s - {n - 1};
      CountSlots(s', n - 1);
      assert s <= s' + {n - 1};
      if n - 1 in s { assert s == s' + {n - 1}; } else { assert s == s'; }
    }
  }
}
