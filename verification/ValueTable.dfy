/**
  evdd_value.c: the table that interns edge values. A payload gets one id per
  type; an id is a row index, 0 is the bare zero.
*/
module ValueTable {
  import opened Number
  import opened Probing

  datatype Option<T> = None | Some(value: T)

  /** How rows of a type are found again. */
  datatype Lookup<!V> = Cells(cell: V -> seq<int>, naxes: nat) | Hashed(hash: V -> nat) | Linear

  /** evdd_value_functions: the callbacks that decide which id a payload gets. */
  datatype Funs<!V> = Funs(lookup: Lookup<V>, cmp: (V, V) -> bool, iszero: V -> bool)

  datatype Row<V> = Row(payload: Option<V>, typ: nat, hash: nat, refcou: nat, mark: bool)

  const LLONG_MAX: int := 0x7FFF_FFFF_FFFF_FFFF
  const LLONG_MIN: int := -0x8000_0000_0000_0000
  const MAX_AXES: nat := 4

  /** A neighbouring cell id, clamped to the range of long long. */
  function CellShift(base: int, delta: int): int {
    if delta > 0 && base > LLONG_MAX - delta then LLONG_MAX
    else if delta < 0 && base < LLONG_MIN - delta then LLONG_MIN
    else base + delta
  }

  function Shifted(base: seq<int>, ofs: seq<int>): (s: seq<int>)
    requires |base| == |ofs|
  {
    seq(|base|, a requires 0 <= a < |base| => CellShift(base[a], ofs[a]))
  }

  ghost predicate Word(c: seq<int>) {
    forall a {:trigger c[a]} :: 0 <= a < |c| ==> LLONG_MIN <= c[a] <= LLONG_MAX
  }

  /** At most one cell apart on every axis. */
  ghost predicate Near(c: seq<int>, d: seq<int>) {
    |c| == |d| && forall a {:trigger c[a]} {:trigger d[a]} :: 0 <= a < |c| ==> -1 <= d[a] - c[a] <= 1
  }

  /**
    What the callbacks of a type owe the table: compare is symmetric, and the
    lookup respects it. Equality need not be transitive.
  */
  ghost predicate Respects<V(!new)>(f: Funs<V>) {
    && (forall x, y {:trigger f.cmp(x, y)} :: f.cmp(x, y) ==> f.cmp(y, x))
    && (f.lookup.Hashed? ==> forall x, y {:trigger f.cmp(x, y)} :: f.cmp(x, y) ==> f.lookup.hash(x) == f.lookup.hash(y))
    && (f.lookup.Cells? ==>
         && 1 <= f.lookup.naxes <= MAX_AXES
         && (forall x {:trigger f.lookup.cell(x)} :: |f.lookup.cell(x)| == f.lookup.naxes && Word(f.lookup.cell(x)))
         && (forall x, y {:trigger f.cmp(x, y)} :: f.cmp(x, y) ==> Near(f.lookup.cell(x), f.lookup.cell(y))))
  }

  /** The offset from a cell to a near one. */
  function Offsets(c: seq<int>, d: seq<int>): (o: seq<int>)
    requires |c| == |d|
  {
    seq(|c|, a requires 0 <= a < |c| => d[a] - c[a])
  }

  /** Every near cell is one of the neighbours, clamping or not. */
  lemma NearShifted(c: seq<int>, d: seq<int>)
    requires Near(c, d) && Word(c) && Word(d)
    ensures Offset(Offsets(c, d)) && Shifted(c, Offsets(c, d)) == d
  {
    forall a | 0 <= a < |c| ensures -1 <= Offsets(c, d)[a] <= 1 && Shifted(c, Offsets(c, d))[a] == d[a] {
      assert -1 <= d[a] - c[a] <= 1 && LLONG_MIN <= d[a] <= LLONG_MAX;
    }
  }

  class Values<V(!new)> {
    const funs: seq<Funs<V>>
    /** evdd_value_idx_key and evdd_value_cell_hash: any mixing of their arguments. */
    const key: (nat, nat) -> nat
    const cellHash: (seq<int>, nat) -> nat

    var rows: seq<Row<V>>
    var freelist: seq<nat>
    var used: int
    var idx: seq<nat>
    var cnt: nat

    ghost predicate Callbacks() {
      forall t {:trigger funs[t]} :: 0 <= t < |funs| ==> Respects(funs[t])
    }

    /** evdd_value_live */
    predicate Live(id: nat)
      reads this`rows
    {
      id != 0 && id < |rows| && rows[id].payload.Some?
    }

    function Payload(id: nat): V
      reads this`rows
      requires Live(id)
    {
      rows[id].payload.value
    }

    /** The key a payload of type t is stored under. */
    function StoredHash(t: nat, v: V): nat
      requires t < |funs|
    {
      match funs[t].lookup
      case Cells(cell, _) => cellHash(cell(v), t)
      case Hashed(hash) => hash(v)
      case Linear => 0
    }

    ghost predicate RowOk(rs: seq<Row<V>>, i: nat)
      requires i < |rs|
    {
      rs[i].payload.Some? ==>
        && rs[i].typ < |funs| && !funs[rs[i].typ].iszero(rs[i].payload.value)
        && rs[i].hash == StoredHash(rs[i].typ, rs[i].payload.value)
    }

    ghost predicate RowsOk(rs: seq<Row<V>>) {
      && 1 <= |rs| && rs[0].payload.None?
      && forall i {:trigger rs[i]} :: 0 <= i < |rs| ==> RowOk(rs, i)
    }

    ghost predicate Equal(rs: seq<Row<V>>, i: nat, j: nat)
      requires i < |rs| && j < |rs|
    {
      && rs[i].payload.Some? && rs[j].payload.Some? && rs[i].typ == rs[j].typ < |funs|
      && funs[rs[i].typ].cmp(rs[i].payload.value, rs[j].payload.value)
    }

    /** Two live ids of one type never compare equal. */
    ghost predicate NoTwins(rs: seq<Row<V>>) {
      forall i, j {:trigger rs[i], rs[j]} :: 0 <= i < |rs| && 0 <= j < |rs| && i != j ==> !Equal(rs, i, j)
    }

    /** Exactly the freed rows are on the free list, each once. */
    ghost predicate FreeOk(rs: seq<Row<V>>, fl: seq<nat>, u: int) {
      && (forall i {:trigger i in fl} :: i in fl <==> 0 < i < |rs| && rs[i].payload.None?)
      && (forall p, q {:trigger fl[p], fl[q]} :: 0 <= p < q < |fl| ==> fl[p] != fl[q])
      && u + |fl| + 1 == |rs|
    }

    ghost predicate Indexed(rs: seq<Row<V>>, i: nat) {
      0 < i < |rs| && rs[i].payload.Some? && rs[i].typ < |funs| && !funs[rs[i].typ].lookup.Linear?
    }

    function HomeOf(rs: seq<Row<V>>, cap: nat): Home {
      (i: nat) => if i < |rs| && 0 < cap then key(rs[i].hash, rs[i].typ) % cap else 0
    }

    /** evdd_value_idx_cap: none yet, or at least the first size. */
    predicate Sized(cap: nat) { cap == 0 || 1024 <= cap }

    /** The index: loaded at most half, every entry found from its home. */
    ghost predicate IndexShape(rs: seq<Row<V>>, ix: seq<nat>, c: nat) {
      Sized(|ix|) && 2 * c <= |ix| && Count(ix) == c && Distinct(ix) && Probed(ix, HomeOf(rs, |ix|))
    }

    /** ... and it holds exactly the rows of indexed types. */
    ghost predicate IndexOk(rs: seq<Row<V>>, ix: seq<nat>, c: nat) {
      && IndexShape(rs, ix, c)
      && forall i {:trigger Holds(ix, i)} {:trigger Indexed(rs, i)} :: Holds(ix, i) <==> Indexed(rs, i)
    }

    ghost predicate Valid()
      reads this
    {
      && Callbacks() && RowsOk(rows) && NoTwins(rows) && FreeOk(rows, freelist, used) && IndexOk(rows, idx, cnt)
    }

    constructor (funs: seq<Funs<V>>, key: (nat, nat) -> nat, cellHash: (seq<int>, nat) -> nat)
      requires forall t {:trigger funs[t]} :: 0 <= t < |funs| ==> Respects(funs[t])
      ensures Valid() && this.funs == funs && forall id :: !Live(id)
    {
      this.funs, this.key, this.cellHash := funs, key, cellHash;
      rows := [Row(None, 0, 0, 0, false)];
      freelist, used, idx, cnt := [], 0, [], 0;
    }

    /* ---- the index ---- */

    /** The walk of a put: the first empty slot from the home of id. */
    method FindEmpty(ix: seq<nat>, h: nat) returns (k: nat)
      requires h < |ix| && Count(ix) < |ix|
      ensures k < |ix| && ix[k] == 0 && Reaches(ix, h, k)
    {
      CountBound(ix);
      ghost var e :| 0 <= e < |ix| && ix[e] == 0;
      k := h;
      while ix[k] != 0
        invariant k < |ix| && Reaches(ix, h, k)
        decreases Distance(k, e, |ix|)
      {
        StepOn(ix, h, k, e);
        k := Next(k, |ix|);
      }
    }

    /** The first half of evdd_value_idx_put: twice the slots when the index would be more than half full. */
    method Grow()
      requires Sized(|idx|) && Count(idx) == cnt && Distinct(idx) && 2 * cnt <= |idx|
      modifies this`idx
      ensures Sized(|idx|) && Count(idx) == cnt && Distinct(idx) && 2 * (cnt + 1) <= |idx|
      ensures Probed(old(idx), HomeOf(rows, |old(idx)|)) ==> Probed(idx, HomeOf(rows, |idx|))
      ensures forall i {:trigger Holds(idx, i)} :: Holds(idx, i) <==> Holds(old(idx), i)
    {
      if 2 * (cnt + 1) > |idx| {
        var cap := if |idx| != 0 then |idx| * 2 else 1024;
        var grown: seq<nat> := seq(cap, _ => 0);
        ghost var home := HomeOf(rows, cap);
        EmptyIndex(cap, home);
        assert idx[..0] == [];
        var j := 0;
        while j < |idx|
          invariant idx == old(idx) && j <= |idx| && |grown| == cap && Count(grown) == Count(idx[..j]) && Distinct(grown)
          invariant Probed(grown, home)
          invariant forall i {:trigger Holds(grown, i)} :: Holds(grown, i) <==> i != 0 && i in idx[..j]
        {
          CountPrefix(idx, j);
          assert idx[..j + 1] == idx[..j] + [idx[j]];
          if idx[j] != 0 {
            grown := CopyOne(grown, home, j);
          }
          j := j + 1;
        }
        assert idx[..j] == idx;
        idx := grown;
      }
    }

    /** One round of the copy loop. */
    method CopyOne(grown: seq<nat>, ghost home: Home, j: nat) returns (r: seq<nat>)
      requires j < |idx| && idx[j] != 0 && Distinct(idx) && Count(idx) < |grown| && home == HomeOf(rows, |grown|)
      requires Count(grown) == Count(idx[..j]) && Count(idx[..j]) <= Count(idx) && Distinct(grown) && Probed(grown, home)
      requires forall i {:trigger Holds(grown, i)} :: Holds(grown, i) <==> i != 0 && i in idx[..j]
      ensures |r| == |grown| && Count(r) == Count(grown) + 1 && Distinct(r) && Probed(r, home)
      ensures forall i {:trigger Holds(r, i)} :: Holds(r, i) <==> Holds(grown, i) || i == idx[j]
    {
      var i := idx[j];
      var h := if i < |rows| then key(rows[i].hash, rows[i].typ) % |grown| else 0;
      var k := FindEmpty(grown, h);
      assert i !in idx[..j];
      assert !Holds(grown, i);
      Filled(grown, home, k, i);
      r := grown[k := i];
    }

    /** evdd_value_idx_put */
    method IdxPut(id: nat)
      requires 0 < id < |rows| && !Holds(idx, id) && IndexShape(rows, idx, cnt)
      modifies this`idx, this`cnt
      ensures cnt == old(cnt) + 1 && IndexShape(rows, idx, cnt)
      ensures forall i {:trigger Holds(idx, i)} :: Holds(idx, i) <==> old(Holds(idx, i)) || i == id
    {
      Grow();
      assert !Holds(idx, id);
      var h := key(rows[id].hash, rows[id].typ) % |idx|;
      var k := FindEmpty(idx, h);
      Filled(idx, HomeOf(rows, |idx|), k, id);
      idx := idx[k := id];
      cnt := cnt + 1;
    }

    /** Row j answers a search for v under key h. */
    predicate Hit(h: nat, t: nat, v: V, j: nat)
      reads this`rows
      requires t < |funs|
    {
      Live(j) && rows[j].typ == t && rows[j].hash == h && funs[t].cmp(v, Payload(j))
    }

    /** evdd_value_idx_lookup: a hit if there is one among the indexed rows. */
    method IdxLookup(h: nat, t: nat, v: V) returns (found: nat)
      requires Valid() && t < |funs|
      ensures found != 0 ==> Hit(h, t, v, found)
      ensures found == 0 ==> forall j {:trigger Indexed(rows, j)} :: Indexed(rows, j) ==> !Hit(h, t, v, j)
    {
      if |idx| == 0 {
        NotIndexed();
        return 0;
      }
      ghost var home := HomeOf(rows, |idx|);
      var h0: nat := key(h, t) % |idx|;
      var k: nat := h0;
      CountBound(idx);
      ghost var e :| 0 <= e < |idx| && idx[e] == 0;
      while idx[k] != 0
        invariant k < |idx| && Reaches(idx, h0, k)
        invariant forall s {:trigger idx[s]} :: 0 <= s < |idx| && Between(h0, s, k) ==> !Hit(h, t, v, idx[s])
        decreases Distance(k, e, |idx|)
      {
        var j := idx[k];
        assert Holds(idx, j) && Indexed(rows, j);
        if rows[j].payload.Some? && rows[j].typ == t && rows[j].hash == h {
          if funs[t].cmp(v, rows[j].payload.value) {
            return j;
          }
        }
        StepOn(idx, h0, k, e);
        PassOne(h0, k);
        k := Next(k, |idx|);
      }
      forall j | Indexed(rows, j) ensures !Hit(h, t, v, j) {
        assert Holds(idx, j);
        ghost var s :| 0 <= s < |idx| && idx[s] == j;
        if home(j) == h0 {
          MetBefore(idx, home, h0, k, s);
        }
      }
      return 0;
    }

    lemma PassOne(h: nat, k: nat)
      requires h < |idx| && k < |idx|
      ensures forall s: nat {:trigger Between(h, s, Next(k, |idx|))} :: s < |idx| && Next(k, |idx|) != h && Between(h, s, Next(k, |idx|)) ==> s == k || Between(h, s, k)
    {
    }

    lemma NotIndexed()
      requires IndexOk(rows, idx, cnt) && |idx| == 0
      ensures forall j {:trigger Indexed(rows, j)} :: !Indexed(rows, j)
    {
      forall j ensures !Indexed(rows, j) {
        assert !Holds(idx, j);
      }
    }

    /** No indexed row under the key of the neighbour cell at offset o answers for v. */
    ghost predicate Missed(base: seq<int>, o: seq<int>, t: nat, v: V)
      requires t < |funs| && |base| == |o|
      reads this`rows
    {
      forall j {:trigger Indexed(rows, j)} :: Indexed(rows, j) ==> !Hit(cellHash(Shifted(base, o), t), t, v, j)
    }

    /** evdd_value_cell_lookup: every one of the 3^naxes neighbours is probed exactly once before it gives up. */
    method CellLookup(v: V, t: nat, base: seq<int>, naxes: nat) returns (found: nat, ghost probes: nat)
      requires Valid() && t < |funs| && |base| == naxes
      ensures found != 0 ==> Live(found) && rows[found].typ == t && funs[t].cmp(v, Payload(found))
      ensures found == 0 ==> probes == Pow(3, naxes)
      ensures found == 0 ==> forall o {:trigger Missed(base, o, t, v)} :: |o| == naxes && Offset(o) ==> Missed(base, o, t, v)
    {
      hide IndexOk, NoTwins, RowsOk, FreeOk, Callbacks;
      var ofs := new int[naxes](_ => -1);
      probes := 0;
      AllLow(ofs[..]);
      while true
        invariant ofs.Length == naxes && Offset(ofs[..]) && Reading(ofs[..]) == probes && fresh(ofs)
        invariant forall o {:trigger Missed(base, o, t, v)} :: |o| == naxes && Offset(o) && 0 <= Reading(o) < probes ==> Missed(base, o, t, v)
        decreases Pow(3, naxes) - probes
      {
        ReadingRange(ofs[..]);
        found := IdxLookup(cellHash(Shifted(base, ofs[..]), t), t, v);
        if found != 0 {
          return;
        }
        ghost var was := ofs[..];
        assert Missed(base, was, t, v);
        OnlyReading(base, was, t, v);
        probes := probes + 1;
        var a := Turn(ofs);
        BumpedReading(was, ofs[..], a);
        if a == naxes {
          forall o | |o| == naxes && Offset(o) ensures Missed(base, o, t, v) {
            ReadingRange(o);
          }
          break;
        }
      }
    }

    lemma OnlyReading(base: seq<int>, o: seq<int>, t: nat, v: V)
      requires t < |funs| && |base| == |o| && Offset(o) && Missed(base, o, t, v)
      ensures forall w {:trigger Missed(base, w, t, v)} :: |w| == |o| && Offset(w) && Reading(w) == Reading(o) ==> Missed(base, w, t, v)
    {
      forall w | |w| == |o| && Offset(w) && Reading(w) == Reading(o) ensures Missed(base, w, t, v) {
        ReadingInjective(w, o);
      }
    }

    /** The odometer loop: the first axis moves up; one that has run out goes back and carries. */
    static method Turn(ofs: array<int>) returns (a: nat)
      requires Offset(ofs[..])
      modifies ofs
      ensures Bumped(old(ofs[..]), ofs[..], a) && Offset(ofs[..])
    {
      a := 0;
      while a < ofs.Length
        invariant a <= ofs.Length
        invariant forall b {:trigger ofs[b]} :: 0 <= b < a ==> ofs[b] == -1 && old(ofs[b]) == 1
        invariant forall b {:trigger ofs[b]} :: a <= b < ofs.Length ==> ofs[b] == old(ofs[b])
      {
        assert old(ofs[..])[a] == ofs[a];
        ofs[a] := ofs[a] + 1;
        if ofs[a] <= 1 {
          break;
        }
        ofs[a] := -1;
        a := a + 1;
      }
      ghost var v, w := old(ofs[..]), ofs[..];
      forall b | 0 <= b < |v| ensures v[b] == old(ofs[b]) && w[b] == ofs[b] && -1 <= v[b] <= 1 {
      }
    }

    static lemma {:induction false} AllLow(v: seq<int>)
      requires forall a {:trigger v[a]} :: 0 <= a < |v| ==> v[a] == -1
      ensures Offset(v) && Reading(v) == 0
    {
      if v != [] {
        AllLow(v[1..]);
      }
    }

    /* ---- interning ---- */

    /** A live row of type t that compares equal to v. */
    ghost predicate Twin(rs: seq<Row<V>>, t: nat, v: V, j: nat)
      requires t < |funs|
    {
      0 < j < |rs| && rs[j].payload.Some? && rs[j].typ == t && funs[t].cmp(v, rs[j].payload.value)
    }

    /** Rows known before still mean the same; at most id is new. */
    ghost predicate Extends(rs: seq<Row<V>>, rs': seq<Row<V>>, id: nat) {
      && |rs| <= |rs'|
      && (forall i {:trigger rs'[i]} :: 0 <= i < |rs| && i != id ==> rs'[i] == rs[i])
      && (forall i {:trigger rs'[i]} :: |rs| <= i < |rs'| ==> i == id)
    }

    /** The search half of evdd_value_intern: the row v already has, if any, and the key to store it under. */
    method Search(v: V, t: nat) returns (found: nat, h: nat)
      requires Valid() && t < |funs|
      ensures h == StoredHash(t, v)
      ensures found != 0 ==> Twin(rows, t, v, found)
      ensures found == 0 ==> forall j {:trigger Twin(rows, t, v, j)} :: 0 <= j < |rows| ==> !Twin(rows, t, v, j)
    {
      h := StoredHash(t, v);
      match funs[t].lookup {
        case Cells(cell, naxes) =>
          assert Respects(funs[t]);
          ghost var probes;
          found, probes := CellLookup(v, t, cell(v), naxes);
          if found == 0 {
            forall j | 0 <= j < |rows| ensures !Twin(rows, t, v, j) {
              if Twin(rows, t, v, j) {
                var o := CellFound(v, t, cell(v), j);
              }
            }
          }
        case Hashed(hash) =>
          found := IdxLookup(h, t, v);
          if found == 0 {
            forall j | 0 <= j < |rows| ensures !Twin(rows, t, v, j) {
              HashMiss(v, t, j);
            }
          }
        case Linear =>
          found := Scan(v, t);
      }
    }

    /** A type with no hash and no cells: every row is compared. */
    method Scan(v: V, t: nat) returns (found: nat)
      requires t < |funs| && RowsOk(rows)
      ensures found != 0 ==> Twin(rows, t, v, found)
      ensures found == 0 ==> forall j {:trigger Twin(rows, t, v, j)} :: 0 <= j < |rows| ==> !Twin(rows, t, v, j)
    {
      var i := 1;
      while i < |rows|
        invariant 1 <= i <= |rows|
        invariant forall j: nat {:trigger Twin(rows, t, v, j)} :: j < i ==> !Twin(rows, t, v, j)
      {
        if rows[i].payload.Some? && rows[i].typ == t && funs[t].cmp(v, rows[i].payload.value) {
          return i;
        }
        assert !Twin(rows, t, v, i);
        i := i + 1;
      }
      return 0;
    }

    lemma HashMiss(v: V, t: nat, j: nat)
      requires Callbacks() && RowsOk(rows) && t < |funs| && funs[t].lookup.Hashed?
      requires Indexed(rows, j) ==> !Hit(StoredHash(t, v), t, v, j)
      ensures !Twin(rows, t, v, j)
    {
      assert Respects(funs[t]);
      if Twin(rows, t, v, j) {
        assert RowOk(rows, j) && Indexed(rows, j);
      }
    }

    /** An equal row lies in a neighbour cell, where the probe of that neighbour hits it. */
    lemma CellFound(v: V, t: nat, c: seq<int>, j: nat) returns (o: seq<int>)
      requires Callbacks() && RowsOk(rows) && t < |funs| && funs[t].lookup.Cells? && c == funs[t].lookup.cell(v)
      requires Twin(rows, t, v, j)
      ensures |o| == |c| && Offset(o) && !Missed(c, o, t, v)
    {
      assert Respects(funs[t]);
      var u := rows[j].payload.value;
      var d := funs[t].lookup.cell(u);
      assert funs[t].cmp(v, u);
      NearShifted(c, d);
      assert RowOk(rows, j) && Indexed(rows, j);
      o := Offsets(c, d);
    }

    ghost predicate NoHit(rs: seq<Row<V>>, t: nat, v: V)
      requires t < |funs|
    {
      forall j {:trigger Twin(rs, t, v, j)} :: 0 <= j < |rs| ==> !Twin(rs, t, v, j)
    }

    /** Row i, new or freed, takes payload v. */
    function WithRow(rs: seq<Row<V>>, i: nat, r: Row<V>): seq<Row<V>>
      requires i <= |rs|
    {
      if i < |rs| then rs[i := r] else rs + [r]
    }

    lemma {:induction false} FilledOk(rs: seq<Row<V>>, fl: seq<nat>, u: int, i: nat, v: V, t: nat)
      requires Callbacks() && RowsOk(rs) && NoTwins(rs) && FreeOk(rs, fl, u) && t < |funs| && !funs[t].iszero(v) && NoHit(rs, t, v)
      requires if fl != [] then i == fl[|fl| - 1] else i == |rs|
      ensures i <= |rs| && 0 < i
      ensures var rs' := WithRow(rs, i, Row(Some(v), t, StoredHash(t, v), 0, false));
              && RowsOk(rs') && NoTwins(rs') && FreeOk(rs', if fl != [] then fl[..|fl| - 1] else fl, u + 1)
              && Extends(rs, rs', i)
    {
      if fl != [] { assert i in fl; }
      var rs' := WithRow(rs, i, Row(Some(v), t, StoredHash(t, v), 0, false));
      FilledTwins(rs, i, v, t);
      var fl' := if fl != [] then fl[..|fl| - 1] else fl;
      forall k | 0 <= k < |rs'| ensures RowOk(rs', k) {
        if k != i { assert RowOk(rs, k); }
      }
      forall k ensures k in fl' <==> 0 < k < |rs'| && rs'[k].payload.None? {
        if fl != [] {
          assert fl == fl' + [i];
          assert k in fl <==> k in fl' || k == i;
        }
      }
    }

    lemma FilledTwins(rs: seq<Row<V>>, i: nat, v: V, t: nat)
      requires Callbacks() && NoTwins(rs) && t < |funs| && NoHit(rs, t, v) && 0 < i <= |rs| && RowsOk(rs)
      requires i < |rs| ==> rs[i].payload.None?
      ensures NoTwins(WithRow(rs, i, Row(Some(v), t, StoredHash(t, v), 0, false)))
    {
      assert Respects(funs[t]);
      var rs' := WithRow(rs, i, Row(Some(v), t, StoredHash(t, v), 0, false));
      forall j, k | 0 <= j < |rs'| && 0 <= k < |rs'| && j != k ensures !Equal(rs', j, k) {
        if j == i {
          assert !Twin(rs, t, v, k);
        } else if k == i {
          assert !Twin(rs, t, v, j);
        } else {
          assert !Equal(rs, j, k);
        }
      }
    }

    /** Filling a row the index does not hold leaves every home where it was. */
    lemma FilledHomes(rs: seq<Row<V>>, rs': seq<Row<V>>, ix: seq<nat>, c: nat, i: nat)
      requires IndexOk(rs, ix, c) && Extends(rs, rs', i) && !Indexed(rs, i)
      ensures IndexShape(rs', ix, c) && !Holds(ix, i)
      ensures forall j {:trigger Holds(ix, j)} {:trigger Indexed(rs', j)} :: j != i ==> (Holds(ix, j) <==> Indexed(rs', j))
    {
      assert !Holds(ix, i);
      forall k | 0 <= k < |ix| && ix[k] != 0 ensures Reaches(ix, HomeOf(rs', |ix|)(ix[k]), k) {
        assert Holds(ix, ix[k]) && Indexed(rs, ix[k]);
        assert Reaches(ix, HomeOf(rs, |ix|)(ix[k]), k);
        assert rs'[ix[k]] == rs[ix[k]];
      }
      forall j: nat | j != i ensures Holds(ix, j) <==> Indexed(rs', j) {
        assert Holds(ix, j) <==> Indexed(rs, j);
        assert 0 <= j < |rs| ==> rs'[j] == rs[j];
      }
    }

    /**
      evdd_value_intern: zero is id 0; a payload equal to a stored one gets
      its id; anything else gets a fresh row, a freed one first.
    */
    method Intern(v: V, t: nat) returns (id: nat)
      requires Valid()
      modifies this
      ensures Valid()
      ensures (t >= |funs| || funs[t].iszero(v)) ==> id == 0 && rows == old(rows)
      ensures t < |funs| && !funs[t].iszero(v) ==> Live(id) && rows[id].typ == t && (Payload(id) == v || funs[t].cmp(v, Payload(id)))
      ensures t < |funs| && !funs[t].iszero(v) && !NoHit(old(rows), t, v) ==> rows == old(rows)
      ensures rows == old(rows) || (Extends(old(rows), rows, id) && !old(Live(id)) && rows[id].refcou == 0 && !rows[id].mark)
    {
      hide RowsOk, NoTwins, FreeOk, IndexOk, IndexShape, Callbacks;
      if t >= |funs| || funs[t].iszero(v) {
        return 0;
      }
      var found, h := Search(v, t);
      if found != 0 {
        return found;
      }
      FilledOk(rows, freelist, used, if freelist != [] then freelist[|freelist| - 1] else |rows|, v, t);
      ghost var rs := rows;
      if freelist != [] {
        id := freelist[|freelist| - 1];
        FreeRow(id);
        freelist := freelist[..|freelist| - 1];
        rows := rows[id := Row(Some(v), t, h, 0, false)];
      } else {
        id := |rows|;
        rows := rows + [Row(Some(v), t, h, 0, false)];
      }
      used := used + 1;
      FilledHomes(rs, rows, idx, cnt, id);
      IndexNew(id, t);
    }

    lemma FreeRow(id: nat)
      requires FreeOk(rows, freelist, used) && freelist != [] && id == freelist[|freelist| - 1]
      ensures 0 < id < |rows| && rows[id].payload.None?
    {
      assert id in freelist;
    }

    /** The last step of an intern: the new row goes into the index of its type. */
    method IndexNew(id: nat, t: nat)
      requires 0 < id < |rows| && rows[id].payload.Some? && rows[id].typ == t < |funs|
      requires IndexShape(rows, idx, cnt) && !Holds(idx, id)
      requires forall j {:trigger Holds(idx, j)} {:trigger Indexed(rows, j)} :: j != id ==> (Holds(idx, j) <==> Indexed(rows, j))
      modifies this`idx, this`cnt
      ensures IndexOk(rows, idx, cnt)
    {
      if !funs[t].lookup.Linear? {
        IdxPut(id);
      }
    }

    /* ---- references and collection ---- */

    /** Only counts and marks differ. */
    ghost predicate SameRows(rs: seq<Row<V>>, rs': seq<Row<V>>) {
      |rs'| == |rs| && forall i {:trigger rs'[i]} :: 0 <= i < |rs| ==> rs'[i] == rs[i].(refcou := rs'[i].refcou, mark := rs'[i].mark)
    }

    lemma SameRowsOk(rs: seq<Row<V>>, rs': seq<Row<V>>, fl: seq<nat>, u: int, ix: seq<nat>, c: nat)
      requires RowsOk(rs) && NoTwins(rs) && FreeOk(rs, fl, u) && IndexOk(rs, ix, c) && SameRows(rs, rs')
      ensures RowsOk(rs') && NoTwins(rs') && FreeOk(rs', fl, u) && IndexOk(rs', ix, c)
    {
      SubsetOk(rs, rs');
      forall i ensures i in fl <==> 0 < i < |rs'| && rs'[i].payload.None? {
        assert i in fl <==> 0 < i < |rs| && rs[i].payload.None?;
      }
      SameHomes(rs, rs', ix);
      forall i ensures Holds(ix, i) <==> Indexed(rs', i) {
        assert Holds(ix, i) <==> Indexed(rs, i);
      }
    }

    lemma SameHomes(rs: seq<Row<V>>, rs': seq<Row<V>>, ix: seq<nat>)
      requires Probed(ix, HomeOf(rs, |ix|)) && |rs'| == |rs|
      requires forall k {:trigger ix[k]} :: 0 <= k < |ix| && 0 < ix[k] < |rs| ==> rs'[ix[k]].hash == rs[ix[k]].hash && rs'[ix[k]].typ == rs[ix[k]].typ
      ensures Probed(ix, HomeOf(rs', |ix|))
    {
      forall k | 0 <= k < |ix| && ix[k] != 0 ensures Reaches(ix, HomeOf(rs', |ix|)(ix[k]), k) {
        assert Reaches(ix, HomeOf(rs, |ix|)(ix[k]), k);
      }
    }

    /** Every row of rs' is the row of rs, apart from counts and marks, or freed. */
    ghost predicate Subset(rs: seq<Row<V>>, rs': seq<Row<V>>) {
      |rs'| == |rs| && forall i {:trigger rs'[i]} :: 0 <= i < |rs| && rs'[i].payload.Some? ==> rs'[i] == rs[i].(refcou := rs'[i].refcou, mark := rs'[i].mark)
    }

    lemma SubsetOk(rs: seq<Row<V>>, rs': seq<Row<V>>)
      requires RowsOk(rs) && NoTwins(rs) && Subset(rs, rs')
      ensures RowsOk(rs') && NoTwins(rs')
    {
      assert rs'[0].payload.None?;
      forall i | 0 <= i < |rs'| ensures RowOk(rs', i) {
        assert RowOk(rs, i);
      }
      forall i, j | 0 <= i < |rs'| && 0 <= j < |rs'| && i != j ensures !Equal(rs', i, j) {
        assert !Equal(rs, i, j);
      }
    }

    /** evdd_value_addref; a freed or unknown id is an error and changes nothing. */
    method AddRef(id: nat) returns (ok: bool)
      requires Valid()
      modifies this`rows
      ensures Valid() && SameRows(old(rows), rows)
      ensures ok == (id == 0 || Live(id))
      ensures rows == if Live(id) then old(rows)[id := old(rows)[id].(refcou := old(rows)[id].refcou + 1)] else old(rows)
    {
      hide RowsOk, NoTwins, FreeOk, IndexOk;
      ghost var rs := rows;
      if Live(id) {
        rows := rows[id := rows[id].(refcou := rows[id].refcou + 1)];
      }
      SameRowsOk(rs, rows, freelist, used, idx, cnt);
      return id == 0 || Live(id);
    }

    /** evdd_value_delref; a count of zero stays. */
    method DelRef(id: nat) returns (ok: bool)
      requires Valid()
      modifies this`rows
      ensures Valid() && SameRows(old(rows), rows)
      ensures ok == (id == 0 || Live(id))
      ensures rows == if Live(id) && old(rows)[id].refcou > 0 then old(rows)[id := old(rows)[id].(refcou := old(rows)[id].refcou - 1)] else old(rows)
    {
      hide RowsOk, NoTwins, FreeOk, IndexOk;
      ghost var rs := rows;
      if Live(id) {
        if rows[id].refcou > 0 {
          rows := rows[id := rows[id].(refcou := rows[id].refcou - 1)];
        }
      }
      SameRowsOk(rs, rows, freelist, used, idx, cnt);
      return id == 0 || Live(id);
    }

    /** evdd_value_mark */
    method Mark(id: nat)
      requires Valid()
      modifies this`rows
      ensures Valid() && SameRows(old(rows), rows)
      ensures rows == if Live(id) then old(rows)[id := old(rows)[id].(mark := true)] else old(rows)
    {
      hide RowsOk, NoTwins, FreeOk, IndexOk;
      ghost var rs := rows;
      if Live(id) {
        rows := rows[id := rows[id].(mark := true)];
      }
      SameRowsOk(rs, rows, freelist, used, idx, cnt);
    }

    /** What a sweep makes of one row: used rows lose their mark, the others their payload. */
    function SweptRow(r: Row<V>): Row<V> {
      if r.payload.None? then r
      else if r.mark || r.refcou > 0 then r.(mark := false)
      else Row(None, 0, 0, r.refcou, r.mark)
    }

    /**
      evdd_value_sweep: exactly the rows with neither a mark nor a reference
      are freed, and the index is rebuilt when there were any.
    */
    method Sweep() returns (freed: nat)
      requires Valid()
      modifies this
      ensures Valid()
      ensures |rows| == |old(rows)| && forall i {:trigger rows[i]} :: 0 <= i < |rows| ==> rows[i] == SweptRow(old(rows)[i])
      ensures freed == old(used) - used
    {
      hide RowsOk, NoTwins, IndexOk, Callbacks;
      ghost var rs := rows;
      freed := 0;
      RowZero(rs);
      var i := 1;
      while i < |rows|
        invariant 1 <= i <= |rows| == |rs| && idx == old(idx) && cnt == old(cnt)
        invariant forall k {:trigger rows[k]} :: 0 <= k < |rows| ==> rows[k] == if k < i then SweptRow(rs[k]) else rs[k]
        invariant FreeOk(rows, freelist, used) && freed == old(used) - used
        invariant freed == 0 ==> SameRows(rs, rows)
      {
        var row := rows[i];
        if row.payload.Some? {
          if row.mark || row.refcou > 0 {
            UseRow(i);
            rows := rows[i := row.(mark := false)];
          } else {
            FreeOne(i, row.refcou, row.mark);
            rows := rows[i := Row(None, 0, 0, row.refcou, row.mark)];
            freelist := freelist + [i];
            used := used - 1;
            freed := freed + 1;
          }
        }
        i := i + 1;
      }
      SubsetOk(rs, rows);
      FewerIndexed(rs, rows, idx, cnt);
      if freed > 0 {
        Rebuild();
      } else {
        NoneFreed(rs);
      }
    }

    lemma RowZero(rs: seq<Row<V>>)
      requires RowsOk(rs)
      ensures 1 <= |rs| && rs[0].payload.None?
    {
    }

    lemma UseRow(i: nat)
      requires FreeOk(rows, freelist, used) && 0 < i < |rows| && rows[i].payload.Some?
      ensures FreeOk(rows[i := rows[i].(mark := false)], freelist, used)
    {
      var rs' := rows[i := rows[i].(mark := false)];
      forall k ensures k in freelist <==> 0 < k < |rs'| && rs'[k].payload.None? {
      }
    }

    lemma FreeOne(i: nat, refcou: nat, mark: bool)
      requires FreeOk(rows, freelist, used) && 0 < i < |rows| && rows[i].payload.Some?
      ensures FreeOk(rows[i := Row(None, 0, 0, refcou, mark)], freelist + [i], used - 1)
    {
      assert i !in freelist;
      var rs' := rows[i := Row(None, 0, 0, refcou, mark)];
      forall k ensures k in freelist + [i] <==> 0 < k < |rs'| && rs'[k].payload.None? {
        assert k in freelist + [i] <==> k in freelist || k == i;
      }
    }

    lemma FewerIndexed(rs: seq<Row<V>>, rs': seq<Row<V>>, ix: seq<nat>, c: nat)
      requires IndexOk(rs, ix, c) && Subset(rs, rs')
      ensures Sized(|ix|) && (|ix| == 0 ==> IndexOk(rs', ix, c))
    {
      if |ix| == 0 {
        forall i: nat ensures Holds(ix, i) <==> Indexed(rs', i) {
          assert !Holds(ix, i);
          assert !Indexed(rs, i);
        }
      }
    }

    lemma NoneFreed(rs: seq<Row<V>>)
      requires IndexOk(rs, idx, cnt) && SameRows(rs, rows)
      ensures IndexOk(rows, idx, cnt)
    {
      SameHomes(rs, rows, idx);
      forall i ensures Holds(idx, i) <==> Indexed(rows, i) {
        assert Holds(idx, i) <==> Indexed(rs, i);
      }
    }

    /** evdd_value_idx_rebuild */
    method Rebuild()
      requires RowsOk(rows) && Sized(|idx|)
      requires |idx| == 0 ==> IndexOk(rows, idx, cnt)
      modifies this`idx, this`cnt
      ensures IndexOk(rows, idx, cnt)
    {
      if |idx| == 0 {
        return;
      }
      EmptyIndex(|idx|, HomeOf(rows, |idx|));
      idx := seq(|idx|, _ => 0);
      cnt := 0;
      var i: nat := 1;
      while i < |rows|
        invariant 1 <= i <= |rows| && IndexShape(rows, idx, cnt)
        invariant forall j: nat {:trigger Holds(idx, j)} {:trigger Indexed(rows, j)} :: Holds(idx, j) <==> Indexed(rows, j) && j < i
      {
        assert RowOk(rows, i);
        if rows[i].payload.Some? && !funs[rows[i].typ].lookup.Linear? {
          assert !Holds(idx, i);
          IdxPut(i);
        }
        i := i + 1;
      }
    }
  }
}
