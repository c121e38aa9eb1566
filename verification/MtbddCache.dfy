/**
  mtbdd_operation with its cache. Nodes are named by their diagrams, as in a
  canonical table they may be. Any node that is built may trigger a
  collection, which invalidates the whole cache. An entry does not hold the
  controls it was made for, only their key.
*/
module MtbddCache {
  import opened Mtbdd
  import opened CacheKey

  /** BddCacheData: operand, key of the controls, operation, result. */
  datatype Entry<T> = Entry(a: Mt<T>, b: int, c: int, res: Mt<T>, generation: nat)

  /** These control vectors come with all their tails, which the recursion goes on with. */
  ghost predicate Closed(used: set<seq<nat>>) {
    forall c {:trigger c in used} :: c in used ==> 1 <= |c| && (2 <= |c| ==> c[1..] in used)
  }

  /** The key tells them apart. */
  ghost predicate Apart(used: set<seq<nat>>) {
    forall c, d {:trigger c in used, d in used} :: c in used && d in used && 1 <= |c| && 1 <= |d| && Key(c) == Key(d) ==> c == d
  }

  /** It does wherever nothing wraps around. */
  lemma {:induction false} PlainApart(used: set<seq<nat>>)
    requires Closed(used) && forall c {:trigger c in used} :: c in used ==> 1 <= |c| && Plain(|c| - 1, c)
    ensures Apart(used)
  {
    forall c, d | c in used && d in used && Key(c) == Key(d) ensures c == d {
      KeyInjective(c, d);
    }
  }

  class Operations<!T(==,!new)> {
    var cache: seq<Entry<T>>
    var generation: nat
    /** The controls each entry was made for. */
    ghost var owner: seq<seq<nat>>
    const zero: T
    /** The operations that are passed in, by their address. */
    const op: int -> (nat, Mt<T>, Mt<T>) -> Mt<T>
    /** The slot of a triple. */
    const slot: (Mt<T>, int, int) -> nat

    /** A valid entry holds the result of its operation on its operand, for the controls it was made for. */
    ghost predicate EntryOk(i: nat, used: set<seq<nat>>)
      requires i < |cache| && |owner| == |cache|
      reads this
    {
      cache[i].generation == generation ==>
        && owner[i] in used && 1 <= |owner[i]| && Key(owner[i]) == cache[i].b
        && cache[i].res == Operation(cache[i].a, owner[i], op(cache[i].c), zero)
    }

    ghost predicate Valid()
      reads this
    {
      0 < |cache| == |owner| && forall i {:trigger cache[i]} :: 0 <= i < |cache| ==> cache[i].generation <= generation
    }

    /** Valid entries were made for one of these control vectors, and rightly. */
    ghost predicate Right(used: set<seq<nat>>)
      reads this
    {
      Valid() && forall i {:trigger EntryOk(i, used)} :: 0 <= i < |cache| ==> EntryOk(i, used)
    }

    function SlotOf(d: Mt<T>, controls: seq<nat>, id: int): nat
      requires 1 <= |controls| && 0 < |cache|
      reads this
    {
      slot(d, Key(controls), id) % |cache|
    }

    /** The lookup finds an entry. */
    predicate Hits(d: Mt<T>, controls: seq<nat>, id: int)
      requires 1 <= |controls| && 0 < |cache|
      reads this
    {
      var e := cache[SlotOf(d, controls, id)];
      e.generation == generation && e.a == d && e.b == Key(controls) && e.c == id
    }

    /** An empty cache: no entry is of the current generation. */
    constructor (size: nat, zero: T, op: int -> (nat, Mt<T>, Mt<T>) -> Mt<T>, slot: (Mt<T>, int, int) -> nat)
      requires 0 < size
      ensures Right({}) && this.zero == zero && this.op == op && this.slot == slot
    {
      this.zero, this.op, this.slot := zero, op, slot;
      cache := seq(size, _ => Entry(Leaf(zero), 0, 0, Leaf(zero), 0));
      owner := seq(size, _ => []);
      generation := 1;
    }

    /** Nothing that was right is wrong when more control vectors are considered. */
    lemma RightMore(used: set<seq<nat>>, more: set<seq<nat>>)
      requires Right(used) && used <= more
      ensures Right(more)
    {
      forall i | 0 <= i < |cache| ensures EntryOk(i, more) {
        assert EntryOk(i, used);
      }
    }

    /** What building a node may do to the cache. */
    method Collected(ghost used: set<seq<nat>>)
      requires Valid()
      modifies this`generation
      ensures Valid() && (old(Right(used)) ==> Right(used))
    {
      if * {
        generation := generation + 1;
      }
      assert forall i {:trigger EntryOk(i, used)} :: 0 <= i < |cache| ==> cache[i].generation <= generation && (old(EntryOk(i, used)) ==> EntryOk(i, used));
    }

    /**
      mtbdd_operation_rec. With only such control vectors in play as the key
      tells apart, the result is that of the operation without a cache,
      whatever the cache holds and whatever is collected on the way. In any
      case a hit is believed, and what a call returns the next one finds.
    */
    method Run(d: Mt<T>, controls: seq<nat>, id: int, ghost used: set<seq<nat>>) returns (res: Mt<T>)
      requires Valid() && 1 <= |controls|
      modifies this`cache, this`owner, this`generation
      ensures Valid() && |cache| == |old(cache)|
      ensures old(Right(used)) && Closed(used) && Apart(used) && controls in used ==> Right(used) && res == Operation(d, controls, op(id), zero)
      ensures d != Leaf(zero) && old(Hits(d, controls, id)) ==> res == old(cache[SlotOf(d, controls, id)].res)
      ensures d != Leaf(zero) ==> Hits(d, controls, id) && cache[SlotOf(d, controls, id)].res == res
      decreases |controls|, d
    {
      hide EntryOk, Right, Apart, Operation, Key;
      if d == Leaf(zero) {
        OnZero(controls, op(id), zero);
        return d;
      }
      var i := SlotOf(d, controls, id);
      if Hits(d, controls, id) {
        if Right(used) && Apart(used) && controls in used { Hit(d, controls, id, used); }
        return cache[i].res;
      }
      res := Miss(d, controls, id, used);
      Store(i, d, controls, id, res, used);
    }

    /** The part of it that is reached when the cache has no answer. */
    method Miss(d: Mt<T>, controls: seq<nat>, id: int, ghost used: set<seq<nat>>) returns (res: Mt<T>)
      requires Valid() && 1 <= |controls| && d != Leaf(zero)
      modifies this`cache, this`owner, this`generation
      ensures Valid() && |cache| == |old(cache)|
      ensures old(Right(used)) && Closed(used) && Apart(used) && controls in used ==> Right(used) && res == Operation(d, controls, op(id), zero)
      decreases |controls|, d, 0
    {
      hide EntryOk, Right, Apart, Key, Valid;
      var c := controls[0];
      if d.Node? && d.level < c {
        var low := Run(d.lo, controls, id, used);
        var high := Run(d.hi, controls, id, used);
        if low == d.lo && high == d.hi {
          res := d;
        } else {
          res := Mk(d.level, low, high);
          Collected(used);
        }
      } else {
        // a virtual node stands for an operand below the control
        Collected(used);
        var low, high := Cofactor(d, c, false), Cofactor(d, c, true);
        if |controls| == 1 {
          res := op(id)(c, low, high);
          Collected(used);
        } else {
          var r := Run(high, controls[1..], id, used);
          res := Mk(c, low, r);
          Collected(used);
        }
      }
    }

    lemma Hit(d: Mt<T>, controls: seq<nat>, id: int, used: set<seq<nat>>)
      requires 1 <= |controls| && controls in used && Right(used) && Apart(used) && Hits(d, controls, id)
      ensures cache[SlotOf(d, controls, id)].res == Operation(d, controls, op(id), zero)
    {
      hide Key, Operation;
      assert EntryOk(SlotOf(d, controls, id), used);
    }

    /** BddCache_store, into the slot found before the recursion. */
    method Store(i: nat, d: Mt<T>, controls: seq<nat>, id: int, res: Mt<T>, ghost used: set<seq<nat>>)
      requires Valid() && 1 <= |controls| && i < |cache|
      modifies this`cache, this`owner
      ensures Valid() && |cache| == |old(cache)| && cache[i] == Entry(d, Key(controls), id, res, generation)
      ensures old(Right(used)) && controls in used && res == Operation(d, controls, op(id), zero) ==> Right(used)
    {
      hide Operation, Key;
      ghost var right := Right(used);
      cache := cache[i := Entry(d, Key(controls), id, res, generation)];
      owner := owner[i := controls];
      if right && controls in used && res == Operation(d, controls, op(id), zero) {
        forall j | 0 <= j < |cache| ensures EntryOk(j, used) {
          assert j != i ==> old(EntryOk(j, used));
        }
      }
    }

    /** mtbdd_operation of a gate under ascending controls. */
    method Controlled(d: Mt<T>, controls: seq<nat>, id: int, ghost g: Gate<T>, ghost used: set<seq<nat>>) returns (res: Mt<T>)
      requires Right(used) && Closed(used) && Apart(used) && controls in used
      requires Reduced(d) && 1 <= |controls| && Ascending(controls) && Performs(op(id), g) && Fixes(g, zero)
      modifies this`cache, this`owner, this`generation
      ensures Right(used) && Reduced(res)
      ensures forall a: Assign {:trigger Eval(res, a)} :: Eval(res, a) == Applied(d, controls, g, a)
    {
      hide EntryOk, Apart, Operation, Key;
      res := Run(d, controls, id, used);
      OperationMeans(d, controls, op(id), zero, g);
    }

    /**
      The same operand under one control vector and then under another: the
      second answer is right exactly when the keys differ or the answers are
      the same anyway.
    */
    method Twice(d: Mt<T>, c1: seq<nat>, c2: seq<nat>, id: int, ghost used: set<seq<nat>>, ghost more: set<seq<nat>>) returns (r1: Mt<T>, r2: Mt<T>)
      requires Right(used) && Closed(used) && Apart(used) && c1 in used && 1 <= |c1| && 1 <= |c2| && d != Leaf(zero)
      requires Key(c1) != Key(c2) ==> used <= more && c2 in more && Closed(more) && Apart(more)
      modifies this`cache, this`owner, this`generation
      ensures r1 == Operation(d, c1, op(id), zero)
      ensures Key(c1) == Key(c2) ==> r2 == r1
      ensures r2 == Operation(d, c2, op(id), zero) <==> Key(c1) != Key(c2) || r1 == Operation(d, c2, op(id), zero)
    {
      hide EntryOk, Apart, Operation, Key;
      r1 := Run(d, c1, id, used);
      if Key(c1) != Key(c2) { RightMore(used, more); }
      r2 := Run(d, c2, id, more);
    }
  }

  lemma OnZero<T(!new)>(controls: seq<nat>, op: (nat, Mt<T>, Mt<T>) -> Mt<T>, zero: T)
    requires 1 <= |controls|
    ensures Operation(Leaf(zero), controls, op, zero) == Leaf(zero)
  {
  }

  /** An operation that changes a constant under no controls changes it under any, from the first control on. */
  lemma {:induction false} ControlledMoves<T(!new)>(one: T, controls: seq<nat>, op: (nat, Mt<T>, Mt<T>) -> Mt<T>, zero: T)
    requires one != zero && 1 <= |controls| && forall l: nat {:trigger op(l, Leaf(one), Leaf(one))} :: op(l, Leaf(one), Leaf(one)) != Leaf(one)
    ensures var r := Operation(Leaf(one), controls, op, zero); r != Leaf(one) && (2 <= |controls| ==> r.Node? && r.level == controls[0])
  {
    if 2 <= |controls| {
      ControlledMoves(one, controls[1..], op, zero);
    }
  }

  /**
    An input: an operation that changes a constant, such as a phase, on a fresh
    cache, under controls 5, 6, 24 with target 31 and then under controls
    13, 28, 29 with target 30. The second call returns what the first did.
  */
  method Confused<T(==,!new)>(one: T, zero: T, op: int -> (nat, Mt<T>, Mt<T>) -> Mt<T>, slot: (Mt<T>, int, int) -> nat, id: int, size: nat) returns (r1: Mt<T>, r2: Mt<T>)
    requires one != zero && 0 < size && forall l: nat {:trigger op(id)(l, Leaf(one), Leaf(one))} :: op(id)(l, Leaf(one), Leaf(one)) != Leaf(one)
    ensures r1 == r2 == Operation(Leaf(one), [5, 6, 24, 31], op(id), zero)
    ensures r2 != Operation(Leaf(one), [13, 28, 29, 30], op(id), zero)
  {
    hide Key;
    var o := new Operations(size, zero, op, slot);
    ghost var used := TailsAre();
    o.RightMore({}, used);
    KeyCollision();
    r1, r2 := o.Twice(Leaf(one), [5, 6, 24, 31], [13, 28, 29, 30], id, used, {});
    ControlledMoves(one, [5, 6, 24, 31], op(id), zero);
    ControlledMoves(one, [13, 28, 29, 30], op(id), zero);
  }

  /** The first of the two control vectors, with its tails. */
  lemma TailsAre() returns (used: set<seq<nat>>)
    ensures Closed(used) && Apart(used) && [5, 6, 24, 31] in used
  {
    hide Key;
    TailsApart();
    used := {[5, 6, 24, 31], [6, 24, 31], [24, 31], [31]};
    assert [5, 6, 24, 31][1..] == [6, 24, 31] && [6, 24, 31][1..] == [24, 31] && [24, 31][1..] == [31];
  }
}
