/** Mixed-radix arithmetic of tensor shapes: element counts, row-major strides, and the
    passage between a row-major linear index and a coordinate vector. */
module Shapes {
  import opened Checked

  type Shape = seq<nat>

  function Elements(shape: Shape): nat {
    if shape == [] then 1 else shape[0] * Elements(shape[1..])
  }

  /** Row-major strides: the stride of an axis is the product of the dimensions after it. */
  function RowStrides(shape: Shape): (strides: seq<nat>)
    ensures |strides| == |shape|
  {
    if shape == [] then [] else [Elements(shape[1..])] + RowStrides(shape[1..])
  }

  /** Every product of trailing dimensions fits in 64 bits. */
  predicate SuffixesFit(shape: Shape) {
    shape == [] || (Elements(shape) <= U64_MAX && SuffixesFit(shape[1..]))
  }

  function ContiguousStrides(shape: Shape): Result<seq<nat>> {
    if |shape| <= U32_MAX && SuffixesFit(shape) then Ok(RowStrides(shape)) else Err(ResourceLimit)
  }

  /** The left-to-right product with an overflow check at each step. */
  function CheckedElementsFrom(shape: Shape, product: nat): Result<nat> {
    if shape == [] then Ok(product)
    else if product * shape[0] > U64_MAX then Err(ResourceLimit)
    else CheckedElementsFrom(shape[1..], product * shape[0])
  }

  function CheckedElements(shape: Shape): Result<nat> {
    CheckedElementsFrom(shape, 1)
  }

  /** Sum of `coordinate * stride` over the axes. */
  function Offset(coords: seq<nat>, strides: seq<nat>): nat
    requires |coords| == |strides|
  {
    if coords == [] then 0 else coords[0] * strides[0] + Offset(coords[1..], strides[1..])
  }

  predicate InBox(coords: seq<nat>, shape: Shape) {
    |coords| == |shape| && forall i :: 0 <= i < |shape| ==> coords[i] < shape[i]
  }

  function Linear(shape: Shape, coords: seq<nat>): nat
    requires |coords| == |shape|
  {
    if shape == [] then 0 else coords[0] * Elements(shape[1..]) + Linear(shape[1..], coords[1..])
  }

  lemma MulMono(a: nat, b: nat, c: nat)
    requires a <= b
    ensures a * c <= b * c && c * a <= c * b
  {
    assert b * c == a * c + (b - a) * c;
  }

  lemma CancelMul(a: nat, b: nat, c: nat)
    requires a * c < b * c
    ensures a < b
  {
    if b <= a {
      MulMono(b, a, c);
    }
  }

  lemma TailPositive(shape: Shape)
    requires shape != [] && Elements(shape) > 0
    ensures shape[0] > 0 && Elements(shape[1..]) > 0
  {
  }

  lemma Recompose(l: nat, e: nat)
    requires e > 0
    ensures (l / e) * e + l % e == l
  {
  }

  lemma DivisionBound(l: nat, d: nat, e: nat)
    requires e > 0 && l < d * e
    ensures l / e < d && l % e < e
  {
    assert l == (l / e) * e + l % e;
    CancelMul(l / e, d, e);
  }

  lemma BoxCons(q: nat, rest: seq<nat>, shape: Shape)
    requires shape != [] && q < shape[0] && InBox(rest, shape[1..])
    ensures InBox([q] + rest, shape)
  {
  }

  lemma SplitIndex(shape: Shape, l: nat)
    requires shape != [] && l < Elements(shape)
    ensures Elements(shape[1..]) > 0
    ensures l / Elements(shape[1..]) < shape[0] && l % Elements(shape[1..]) < Elements(shape[1..])
  {
    TailPositive(shape);
    DivisionBound(l, shape[0], Elements(shape[1..]));
  }

  /** The coordinate vector of a row-major linear index. */
  function Coords(shape: Shape, l: nat): (coords: seq<nat>)
    requires l < Elements(shape)
    ensures InBox(coords, shape)
  {
    if shape == [] then []
    else
      SplitIndex(shape, l);
      var q, r := l / Elements(shape[1..]), l % Elements(shape[1..]);
      BoxCons(q, Coords(shape[1..], r), shape);
      [q] + Coords(shape[1..], r)
  }

  /** Linear indices of in-box coordinates are in range, and `Coords` inverts `Linear`. */
  lemma {:induction false} CoordsOfLinear(shape: Shape, coords: seq<nat>)
    requires InBox(coords, shape)
    ensures Linear(shape, coords) < Elements(shape)
    ensures Coords(shape, Linear(shape, coords)) == coords
  {
    if shape != [] {
      var e, rest := Elements(shape[1..]), Linear(shape[1..], coords[1..]);
      CoordsOfLinear(shape[1..], coords[1..]);
      MulMono(coords[0] + 1, shape[0], e);
      assert (coords[0] + 1) * e == coords[0] * e + e;
      DivModOf(coords[0], e, rest);
      assert Coords(shape, coords[0] * e + rest) == [coords[0]] + Coords(shape[1..], rest);
      assert coords == [coords[0]] + coords[1..];
    }
  }

  lemma {:induction false} LinearOfCoords(shape: Shape, l: nat)
    requires l < Elements(shape)
    ensures Linear(shape, Coords(shape, l)) == l
  {
    if shape != [] {
      SplitIndex(shape, l);
      var e := Elements(shape[1..]);
      var q, r := l / e, l % e;
      LinearOfCoords(shape[1..], r);
      var c := Coords(shape, l);
      assert c[0] == q && c[1..] == Coords(shape[1..], r);
      assert Linear(shape, c) == q * e + r;
      Recompose(l, e);
    }
  }

  /** `q * e + r` splits back into `q` and `r`. */
  lemma DivModOf(q: nat, e: nat, r: nat)
    requires r < e
    ensures (q * e + r) / e == q && (q * e + r) % e == r
  {
    var x := q * e + r;
    assert x == (x / e) * e + x % e;
    assert (q + 1) * e == q * e + e && (x / e + 1) * e == (x / e) * e + e;
    CancelMul(x / e, q + 1, e);
    CancelMul(q, x / e + 1, e);
  }

  lemma {:induction false} OffsetIsLinear(shape: Shape, coords: seq<nat>)
    requires |coords| == |shape|
    ensures Offset(coords, RowStrides(shape)) == Linear(shape, coords)
  {
    if shape != [] {
      OffsetIsLinear(shape[1..], coords[1..]);
      assert RowStrides(shape)[1..] == RowStrides(shape[1..]);
    }
  }

  /** The element count factors at any axis. */
  lemma {:induction false} RowStrideDivides(shape: Shape, axis: nat)
    requires axis < |shape| && Elements(shape) > 0
    ensures RowStrides(shape)[axis] > 0 && shape[axis] > 0
    ensures Elements(shape) == Elements(shape[..axis]) * (RowStrides(shape)[axis] * shape[axis])
  {
    TailPositive(shape);
    if axis > 0 {
      RowStrideDivides(shape[1..], axis - 1);
      var head := shape[..axis];
      assert head[0] == shape[0] && head[1..] == shape[1..][..axis - 1];
      MulAssoc(shape[0], Elements(head[1..]), RowStrides(shape)[axis] * shape[axis]);
    }
  }

  lemma MulAssoc(a: nat, b: nat, c: nat)
    ensures a * (b * c) == (a * b) * c
  {
  }

  /** Reading one coordinate by division and remainder, as the kernels do, gives the
      coordinate of the mixed-radix expansion. */
  lemma {:induction false} CoordinateByDivMod(shape: Shape, l: nat, axis: nat)
    requires l < Elements(shape) && axis < |shape|
    ensures RowStrides(shape)[axis] > 0 && shape[axis] > 0
    ensures (l / RowStrides(shape)[axis]) % shape[axis] == Coords(shape, l)[axis]
  {
    TailPositive(shape);
    var e := Elements(shape[1..]);
    if axis == 0 {
      DivisionBound(l, shape[0], e);
      SmallMod(l / e, shape[0]);
    } else {
      CoordinateByDivMod(shape[1..], l % e, axis - 1);
      RowStrideDivides(shape[1..], axis - 1);
      var s, d := RowStrides(shape[1..])[axis - 1], shape[axis];
      HighDigitsDropOut(l, s, d, Elements(shape[1..][..axis - 1]), e);
    }
  }

  lemma SmallMod(a: nat, b: nat)
    requires a < b
    ensures a % b == a
  {
  }

  lemma Regroup(q: nat, k: nat, s: nat, d: nat)
    ensures q * (k * (s * d)) == ((q * k) * d) * s
  {
  }

  lemma HighDigitsDropOut(l: nat, s: nat, d: nat, k: nat, e: nat)
    requires s > 0 && d > 0 && e > 0 && e == k * (s * d)
    ensures ((l % e) / s) % d == (l / s) % d
  {
    var q, m := l / e, l % e;
    Regroup(q, k, s, d);
    assert l == q * e + m == ((q * k) * d) * s + m;
    ShiftedDivision((q * k) * d, s, m);
    ShiftedRemainder(q * k, d, m / s);
  }

  lemma ShiftedDivision(a: nat, s: nat, m: nat)
    requires s > 0
    ensures (a * s + m) / s == a + m / s
  {
    assert a * s + m == (a + m / s) * s + m % s;
    DivModOf(a + m / s, s, m % s);
  }

  lemma ShiftedRemainder(a: nat, d: nat, m: nat)
    requires d > 0
    ensures (a * d + m) % d == m % d
  {
    assert a * d + m == (a + m / d) * d + m % d;
    DivModOf(a + m / d, d, m % d);
  }

  /** The fold with overflow checks computes the element count, and on a shape without a
      zero dimension it fails exactly when that count does not fit. */
  lemma {:induction false} CheckedElementsFromIsProduct(shape: Shape, product: nat)
    requires product <= U64_MAX
    ensures CheckedElementsFrom(shape, product).Ok? ==>
              CheckedElementsFrom(shape, product).value == product * Elements(shape)
              && product * Elements(shape) <= U64_MAX
    ensures product > 0 && Elements(shape) > 0 ==>
              (CheckedElementsFrom(shape, product).Ok? <==> product * Elements(shape) <= U64_MAX)
  {
    if shape != [] {
      var next := product * shape[0];
      var e := Elements(shape[1..]);
      assert product * Elements(shape) == next * e by {
        assert product * (shape[0] * e) == (product * shape[0]) * e;
      }
      if next <= U64_MAX {
        CheckedElementsFromIsProduct(shape[1..], next);
      }
      if product > 0 && Elements(shape) > 0 {
        TailPositive(shape);
        assert next > 0;
        MulMono(1, e, next);
      }
    }
  }

  /** A failing count is a resource limit. */
  lemma {:induction false} CheckedElementsLimit(shape: Shape, product: nat)
    ensures CheckedElementsFrom(shape, product).Err? ==> CheckedElementsFrom(shape, product) == Err(ResourceLimit)
  {
    if shape != [] {
      CheckedElementsLimit(shape[1..], product * shape[0]);
    }
  }

  lemma CheckedElementsIsProduct(shape: Shape)
    ensures CheckedElements(shape).Ok? ==> CheckedElements(shape).value == Elements(shape) <= U64_MAX
    ensures Elements(shape) > 0 ==> (CheckedElements(shape).Ok? <==> Elements(shape) <= U64_MAX)
  {
    CheckedElementsFromIsProduct(shape, 1);
  }

  /** Every product of leading dimensions fits in 64 bits. */
  predicate PrefixesFit(shape: Shape) {
    forall k :: 0 <= k <= |shape| ==> Elements(shape[..k]) <= U64_MAX
  }

  lemma PrefixProduct(shape: Shape, product: nat, k: nat)
    requires k < |shape|
    ensures product * Elements(shape[..k + 1]) == (product * shape[0]) * Elements(shape[1..][..k])
  {
    assert shape[..k + 1][1..] == shape[1..][..k];
    MulAssoc(product, shape[0], Elements(shape[1..][..k]));
  }

  lemma {:induction false} CheckedElementsFromExactly(shape: Shape, product: nat)
    requires product <= U64_MAX
    ensures CheckedElementsFrom(shape, product)
            == if forall k :: 0 <= k <= |shape| ==> product * Elements(shape[..k]) <= U64_MAX
               then Ok(product * Elements(shape)) else Err(ResourceLimit)
  {
    assert shape[..0] == [] && shape[..|shape|] == shape;
    assert product * Elements([]) == product;
    if shape != [] {
      var next, rest := product * shape[0], shape[1..];
      assert rest[..0] == [] && rest[..|rest|] == rest && next * Elements([]) == next;
      forall k | 0 <= k < |shape|
        ensures product * Elements(shape[..k + 1]) == next * Elements(rest[..k])
      {
        PrefixProduct(shape, product, k);
      }
      if next <= U64_MAX {
        CheckedElementsFromExactly(rest, next);
      }
      hide Elements;
      if forall k :: 0 <= k <= |shape| ==> product * Elements(shape[..k]) <= U64_MAX {
        assert forall k :: 0 <= k <= |rest| ==> next * Elements(rest[..k]) == product * Elements(shape[..k + 1]);
      } else {
        var k :| 0 <= k <= |shape| && product * Elements(shape[..k]) > U64_MAX;
        assert k > 0 && next * Elements(rest[..k - 1]) == product * Elements(shape[..k - 1 + 1]);
      }
    }
  }

  /** The checked count succeeds exactly when every product of leading dimensions fits, also for a
      shape with a zero dimension. */
  lemma CheckedElementsExactly(shape: Shape)
    ensures CheckedElements(shape) == if PrefixesFit(shape) then Ok(Elements(shape)) else Err(ResourceLimit)
  {
    CheckedElementsFromExactly(shape, 1);
    assert forall k :: 0 <= k <= |shape| ==> 1 * Elements(shape[..k]) == Elements(shape[..k]);
  }

  /** A non-empty shape whose element count fits has strides that fit. */
  lemma {:induction false} NonEmptySuffixesFit(shape: Shape)
    requires 0 < Elements(shape) <= U64_MAX
    ensures SuffixesFit(shape)
  {
    if shape != [] {
      TailPositive(shape);
      MulMono(1, shape[0], Elements(shape[1..]));
      NonEmptySuffixesFit(shape[1..]);
    }
  }

  /** The reverse loop that fills the stride array. */
  method ContiguousStridesLoop(shape: Shape) returns (r: Result<seq<nat>>)
    ensures r == ContiguousStrides(shape)
  {
    if |shape| > U32_MAX {
      return Err(ResourceLimit);
    }
    var strides: seq<nat> := [];
    var stride: nat := 1;
    var axis := |shape|;
    while axis > 0
      invariant 0 <= axis <= |shape|
      invariant strides == RowStrides(shape[axis..])
      invariant stride == Elements(shape[axis..])
      invariant SuffixesFit(shape[axis..])
    {
      axis := axis - 1;
      var tail := shape[axis..];
      assert tail[1..] == shape[axis + 1..] && tail[0] == shape[axis];
      strides := [stride] + strides;
      var next := CheckedMul(shape[axis], stride);
      if next.Err? {
        SuffixFails(shape, axis);
        return Err(ResourceLimit);
      }
      stride := next.value;
    }
    assert shape[0..] == shape;
    return Ok(strides);
  }

  lemma {:induction false} SuffixFails(shape: Shape, axis: nat)
    requires axis < |shape| && Elements(shape[axis..]) > U64_MAX
    ensures !SuffixesFit(shape)
  {
    if axis == 0 {
      assert shape[0..] == shape;
    } else {
      assert shape[axis..] == shape[1..][axis - 1..];
      SuffixFails(shape[1..], axis - 1);
    }
  }
}
