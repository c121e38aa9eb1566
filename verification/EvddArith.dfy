/**
  The algebra of evdd_value.c on interned ids: every operation returns the id
  of the exact result, and no id loses its payload.
*/
module EvddArith {
  import opened Field
  import opened WeightNorm
  import opened ValueTable
  import opened EvddState

  /** One exact value type: compare is equality and zero is zero. */
  ghost predicate Exact(v: Values<real>) {
    && |v.funs| == 1
    && (forall x, y {:trigger v.funs[0].cmp(x, y)} :: v.funs[0].cmp(x, y) <==> x == y)
    && (forall x {:trigger v.funs[0].iszero(x)} :: v.funs[0].iszero(x) <==> x == 0.0)
  }

  /** The value table between two steps of an operation. */
  ghost predicate Ready(v: Values<real>)
    reads v
  {
    v.Valid() && Exact(v) && Unmarked(v.rows)
  }

  lemma ReadyExact(v: Values<real>)
    requires Ready(v)
    ensures ExactIds(v.rows)
  {
    hide Known, Weight;
    forall a: nat, b: nat | Known(v.rows, a) && Known(v.rows, b) && Weight(v.rows, a) == Weight(v.rows, b) ensures a == b {
      OneId(v, a, b);
    }
  }

  /** No two ids for one weight, and none but 0 for zero. */
  lemma OneId(v: Values<real>, a: nat, b: nat)
    requires v.Valid() && Exact(v) && Known(v.rows, a) && Known(v.rows, b) && Weight(v.rows, a) == Weight(v.rows, b)
    ensures a == b
  {
    var rows := v.rows;
    assert a != 0 ==> v.RowOk(rows, a) && !v.funs[0].iszero(rows[a].payload.value);
    assert b != 0 ==> v.RowOk(rows, b) && !v.funs[0].iszero(rows[b].payload.value);
    if a != 0 && b != 0 {
      SameWeight(v, a, b);
    }
  }

  lemma SameWeight(v: Values<real>, a: nat, b: nat)
    requires v.Valid() && Exact(v) && a != 0 && b != 0 && Known(v.rows, a) && Known(v.rows, b) && Weight(v.rows, a) == Weight(v.rows, b)
    ensures v.Equal(v.rows, a, b)
  {
    assert v.RowOk(v.rows, a) && v.RowOk(v.rows, b);
    assert v.funs[0].cmp(v.rows[a].payload.value, v.rows[b].payload.value);
  }

  /** evdd_value_intern of a computed payload. */
  method InternReal(v: Values<real>, x: real) returns (id: nat)
    requires Ready(v)
    modifies v
    ensures Ready(v) && KeepsWeights(old(v.rows), v.rows) && Known(v.rows, id) && Weight(v.rows, id) == x
  {
    id := v.Intern(x, 0);
    if v.rows != old(v.rows) {
      forall i | 0 <= i < |v.rows| ensures !v.rows[i].mark {
        var row := v.rows[i];
        assert i == id || (i < |old(v.rows)| && row == old(v.rows)[i]);
      }
    }
  }

  /** evdd_value_is_zero and evdd_value_is_one. */
  predicate IsZero(rows: Rows, id: nat) { id == 0 || (Known(rows, id) && Weight(rows, id) == 0.0) }

  predicate IsOne(rows: Rows, id: nat) { id != 0 && Known(rows, id) && Weight(rows, id) == 1.0 }

  lemma ZeroId(v: Values<real>, id: nat)
    requires Ready(v) && Known(v.rows, id)
    ensures IsZero(v.rows, id) <==> id == 0
    ensures Weight(v.rows, id) == 0.0 <==> id == 0
    ensures Known(v.rows, 0) && Weight(v.rows, 0) == 0.0
  {
    if Weight(v.rows, id) == 0.0 { OneId(v, id, 0); }
  }

  /** evdd_value_mul */
  method MulIds(v: Values<real>, a: nat, b: nat) returns (c: nat)
    requires Ready(v) && Known(v.rows, a) && Known(v.rows, b)
    modifies v
    ensures Ready(v) && KeepsWeights(old(v.rows), v.rows) && Known(v.rows, c)
    ensures Weight(v.rows, c) == Mul(old(Weight(v.rows, a)), old(Weight(v.rows, b)))
    ensures Weight(v.rows, c) == old(Weight(v.rows, a)) * old(Weight(v.rows, b))
  {
    hide Ready, Known, Weight, Mul;
    ZeroId(v, a);
    ZeroId(v, b);
    var x, y := Weight(v.rows, a), Weight(v.rows, b);
    MulIs(x, y);
    MulZero(x);
    MulZero(y);
    MulOne(x);
    MulOne(y);
    if IsZero(v.rows, a) || IsZero(v.rows, b) {
      return 0;
    }
    if IsOne(v.rows, a) {
      return b;
    }
    if IsOne(v.rows, b) {
      return a;
    }
    c := InternReal(v, Mul(x, y));
  }

  /** evdd_value_div; a zero divisor is an error and gives zero. */
  method DivIds(v: Values<real>, a: nat, b: nat) returns (c: nat)
    requires Ready(v) && Known(v.rows, a) && Known(v.rows, b)
    modifies v
    ensures Ready(v) && KeepsWeights(old(v.rows), v.rows) && Known(v.rows, c)
    ensures Weight(v.rows, c) == Div(old(Weight(v.rows, a)), old(Weight(v.rows, b)))
    ensures old(Weight(v.rows, b)) != 0.0 ==> Weight(v.rows, c) == old(Weight(v.rows, a)) / old(Weight(v.rows, b))
    ensures old(Weight(v.rows, b)) == 0.0 ==> Weight(v.rows, c) == 0.0
  {
    hide Ready, Known, Weight;
    ZeroId(v, a);
    ZeroId(v, b);
    var x, y := Weight(v.rows, a), Weight(v.rows, b);
    MulZero(y);
    MulOne(x);
    if IsZero(v.rows, b) {
      return 0;
    }
    if IsZero(v.rows, a) {
      return 0;
    }
    if IsOne(v.rows, b) {
      return a;
    }
    c := InternReal(v, Div(x, y));
  }

  /** evdd_value_add */
  method AddIds(v: Values<real>, a: nat, b: nat) returns (c: nat)
    requires Ready(v) && Known(v.rows, a) && Known(v.rows, b)
    modifies v
    ensures Ready(v) && KeepsWeights(old(v.rows), v.rows) && Known(v.rows, c)
    ensures Weight(v.rows, c) == old(Weight(v.rows, a)) + old(Weight(v.rows, b))
  {
    hide Ready, Known, Weight;
    ZeroId(v, a);
    ZeroId(v, b);
    if IsZero(v.rows, a) {
      return b;
    }
    if IsZero(v.rows, b) {
      return a;
    }
    c := InternReal(v, Weight(v.rows, a) + Weight(v.rows, b));
  }

  /** evdd_value_sub */
  method SubIds(v: Values<real>, a: nat, b: nat) returns (c: nat)
    requires Ready(v) && Known(v.rows, a) && Known(v.rows, b)
    modifies v
    ensures Ready(v) && KeepsWeights(old(v.rows), v.rows) && Known(v.rows, c)
    ensures Weight(v.rows, c) == old(Weight(v.rows, a)) - old(Weight(v.rows, b))
  {
    hide Ready, Known, Weight;
    ZeroId(v, a);
    ZeroId(v, b);
    if IsZero(v.rows, b) {
      return a;
    }
    if IsOne(v.rows, a) && IsOne(v.rows, b) {
      return 0;
    }
    c := InternReal(v, Weight(v.rows, a) - Weight(v.rows, b));
  }

  /** evdd_value_unit */
  method UnitId(v: Values<real>, w: nat) returns (c: nat)
    requires Ready(v) && Known(v.rows, w)
    modifies v
    ensures Ready(v) && KeepsWeights(old(v.rows), v.rows) && Known(v.rows, c)
    ensures Weight(v.rows, c) == if w == 0 then 0.0 else 1.0
  {
    hide Ready, Known, Weight, Div;
    ZeroId(v, w);
    if IsZero(v.rows, w) {
      return 0;
    }
    DivSelf(Weight(v.rows, w));
    c := DivIds(v, w, w);
  }

  /** evdd_value_unit_from_pair */
  method UnitFromPairId(v: Values<real>, a: nat, b: nat) returns (c: nat)
    requires Ready(v) && Known(v.rows, a) && Known(v.rows, b)
    modifies v
    ensures Ready(v) && KeepsWeights(old(v.rows), v.rows) && Known(v.rows, c)
    ensures Weight(v.rows, c) == if a == 0 && b == 0 then 0.0 else 1.0
  {
    hide Ready, Known, Weight;
    ZeroId(v, a);
    ZeroId(v, b);
    if !IsZero(v.rows, a) {
      c := UnitId(v, a);
    } else if !IsZero(v.rows, b) {
      c := UnitId(v, b);
    } else {
      c := 0;
    }
  }

  /** evddNormResult */
  datatype NormIds = NormIds(wlow: nat, whigh: nat, incoming: nat)

  ghost predicate NormKnown(rows: Rows, n: NormIds) { Known(rows, n.wlow) && Known(rows, n.whigh) && Known(rows, n.incoming) }

  function NormOf(rows: Rows, n: NormIds): Norm {
    Norm(Weight(rows, n.wlow), Weight(rows, n.whigh), Weight(rows, n.incoming))
  }

  /** Both weights divided by one factor. */
  method DivideBoth(v: Values<real>, wl: nat, wh: nat, f: nat) returns (r: NormIds)
    requires Ready(v) && Known(v.rows, wl) && Known(v.rows, wh) && Known(v.rows, f)
    modifies v
    ensures Ready(v) && KeepsWeights(old(v.rows), v.rows) && NormKnown(v.rows, r)
    ensures var f := old(Weight(v.rows, f)); NormOf(v.rows, r) == Norm(Div(old(Weight(v.rows, wl)), f), Div(old(Weight(v.rows, wh)), f), f)
  {
    hide Ready, Known, Weight, Div;
    ghost var rows0 := v.rows;
    var l := DivIds(v, wl, f);
    ghost var rows1 := v.rows;
    assert Known(v.rows, wh) && Known(v.rows, f);
    var h := DivIds(v, wh, f);
    KeepsWeightsTrans(rows0, rows1, v.rows);
    assert Known(v.rows, l) && Known(v.rows, f);
    return NormIds(l, h, f);
  }

  /** evdd_norm_first_nonzero */
  method NormFirstNonzero(v: Values<real>, wl: nat, wh: nat) returns (r: NormIds)
    requires Ready(v) && Known(v.rows, wl) && Known(v.rows, wh)
    modifies v
    ensures Ready(v) && KeepsWeights(old(v.rows), v.rows) && NormKnown(v.rows, r)
    ensures NormOf(v.rows, r) == Normalize(FirstNonzero, old(Weight(v.rows, wl)), old(Weight(v.rows, wh)))
  {
    hide Ready, Known, Weight, Div;
    ZeroId(v, wl);
    ZeroId(v, wh);
    if IsZero(v.rows, wl) && IsZero(v.rows, wh) {
      return NormIds(0, 0, 0);
    }
    ghost var x, y := Weight(v.rows, wl), Weight(v.rows, wh);
    if !IsZero(v.rows, wl) {
      ghost var rows0 := v.rows;
      DivSelf(x);
      var l := UnitId(v, wl);
      ghost var rows1 := v.rows;
      assert Known(v.rows, wl) && Known(v.rows, wh);
      var h := DivIds(v, wh, wl);
      KeepsWeightsTrans(rows0, rows1, v.rows);
      assert Known(v.rows, l) && Known(v.rows, wl);
      return NormIds(l, h, wl);
    }
    DivSelf(y);
    MulZero(y);
    var u := UnitId(v, wh);
    assert Known(v.rows, wh);
    ZeroId(v, wh);
    return NormIds(0, u, wh);
  }

  /** evdd_norm_low */
  method NormLow(v: Values<real>, wl: nat, wh: nat) returns (r: NormIds)
    requires Ready(v) && Known(v.rows, wl) && Known(v.rows, wh)
    modifies v
    ensures Ready(v) && KeepsWeights(old(v.rows), v.rows) && NormKnown(v.rows, r)
    ensures NormOf(v.rows, r) == Normalize(LowEdge, old(Weight(v.rows, wl)), old(Weight(v.rows, wh)))
  {
    hide Ready, Known, Weight, Div;
    ZeroId(v, wl);
    ZeroId(v, wh);
    if IsZero(v.rows, wl) && IsZero(v.rows, wh) {
      return NormIds(0, 0, 0);
    }
    ghost var x, y := Weight(v.rows, wl), Weight(v.rows, wh);
    if IsZero(v.rows, wl) {
      MulZero(1.0);
      MulOne(y);
      var u := UnitId(v, wh);
      assert Known(v.rows, wh);
      ZeroId(v, wh);
      return NormIds(0, wh, u);
    }
    r := NormFirstNonzero(v, wl, wh);
  }

  /** evdd_norm_max_magnitude; a tie goes to the low weight. */
  method NormMaxMagnitude(v: Values<real>, wl: nat, wh: nat) returns (r: NormIds)
    requires Ready(v) && Known(v.rows, wl) && Known(v.rows, wh)
    modifies v
    ensures Ready(v) && KeepsWeights(old(v.rows), v.rows) && NormKnown(v.rows, r)
    ensures NormOf(v.rows, r) == Normalize(MaxMagnitude, old(Weight(v.rows, wl)), old(Weight(v.rows, wh)))
  {
    hide Ready, Known, Weight, Div;
    ZeroId(v, wl);
    ZeroId(v, wh);
    if IsZero(v.rows, wl) && IsZero(v.rows, wh) {
      return NormIds(0, 0, 0);
    }
    var factor := if IsZero(v.rows, wl) then wh
                  else if IsZero(v.rows, wh) then wl
                  else if Abs(Weight(v.rows, wl)) >= Abs(Weight(v.rows, wh)) then wl else wh;
    r := DivideBoth(v, wl, wh, factor);
  }

  /** evdd_norm_l2 */
  method NormL2(v: Values<real>, sqrt: real -> real, wl: nat, wh: nat) returns (r: NormIds)
    requires Ready(v) && Known(v.rows, wl) && Known(v.rows, wh)
    modifies v
    ensures Ready(v) && KeepsWeights(old(v.rows), v.rows) && NormKnown(v.rows, r)
    ensures NormOf(v.rows, r) == Normalize(L2(sqrt), old(Weight(v.rows, wl)), old(Weight(v.rows, wh)))
  {
    hide Ready, Known, Weight, Div, Mul;
    ZeroId(v, wl);
    ZeroId(v, wh);
    if IsZero(v.rows, wl) && IsZero(v.rows, wh) {
      return NormIds(0, 0, 0);
    }
    ghost var rows0 := v.rows;
    var sq0 := SquareId(v, wl);
    ghost var rows1 := v.rows;
    assert Known(v.rows, wh);
    var sq1 := SquareId(v, wh);
    ghost var rows2 := v.rows;
    assert Known(v.rows, sq0);
    var sum := AddIds(v, sq0, sq1);
    ghost var rows3 := v.rows;
    var n := InternReal(v, sqrt(Weight(v.rows, sum)));
    ghost var rows4 := v.rows;
    KeepsWeightsTrans(rows0, rows1, rows2);
    KeepsWeightsTrans(rows0, rows2, rows3);
    KeepsWeightsTrans(rows0, rows3, rows4);
    assert Known(v.rows, wl) && Known(v.rows, wh);
    r := DivideBoth(v, wl, wh, n);
    KeepsWeightsTrans(rows0, rows4, v.rows);
  }

  method SquareId(v: Values<real>, w: nat) returns (c: nat)
    requires Ready(v) && Known(v.rows, w)
    modifies v
    ensures Ready(v) && KeepsWeights(old(v.rows), v.rows) && Known(v.rows, c)
    ensures Weight(v.rows, c) == Mul(old(Weight(v.rows, w)), old(Weight(v.rows, w)))
  {
    hide Ready, Known, Weight, Mul;
    ZeroId(v, w);
    MulZero(0.0);
    if IsZero(v.rows, w) {
      return 0;
    }
    c := InternReal(v, Mul(Weight(v.rows, w), Weight(v.rows, w)));
  }

  /** evdd_value_normalize: the strategy of the type, by its callbacks. */
  method NormalizeIds(v: Values<real>, s: Strategy, wl: nat, wh: nat) returns (r: NormIds)
    requires Ready(v) && Known(v.rows, wl) && Known(v.rows, wh)
    modifies v
    ensures Ready(v) && KeepsWeights(old(v.rows), v.rows) && NormKnown(v.rows, r)
    ensures NormOf(v.rows, r) == Normalize(s, old(Weight(v.rows, wl)), old(Weight(v.rows, wh)))
  {
    hide Ready, Known, Weight, NormOf, NormKnown, Normalize;
    match s
    case FirstNonzero => r := NormFirstNonzero(v, wl, wh);
    case LowEdge => r := NormLow(v, wl, wh);
    case MaxMagnitude => r := NormMaxMagnitude(v, wl, wh);
    case L2(sqrt) => r := NormL2(v, sqrt, wl, wh);
  }
}
