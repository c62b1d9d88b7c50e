/** Validation of logical and storage strides, and what acceptance means: an injective map
    from coordinates into the storage, and for logical strides a bijection. */
module Strides {
  import opened Checked
  import opened Shapes

  // ---------- Index lists ----------

  predicate Distinct(a: seq<nat>) {
    forall i, j :: 0 <= i < j < |a| ==> a[i] != a[j]
  }

  predicate IndicesBelow(a: seq<nat>, n: nat) {
    forall k :: 0 <= k < |a| ==> a[k] < n
  }

  /** The elements of `s` at the listed positions. */
  function Pick(s: seq<nat>, a: seq<nat>): (r: seq<nat>)
    requires IndicesBelow(a, |s|)
    ensures |r| == |a|
  {
    seq(|a|, k requires 0 <= k < |a| => s[a[k]])
  }

  function IndexOf(a: seq<nat>, i: nat): (k: nat)
    requires i in a
    ensures k < |a| && a[k] == i
  {
    if a[0] == i then 0 else 1 + IndexOf(a[1..], i)
  }

  lemma IndexOfIs(a: seq<nat>, k: nat)
    requires Distinct(a) && k < |a|
    ensures IndexOf(a, a[k]) == k
  {
  }

  /** The vector of length `n` that holds `v[k]` at position `a[k]` and zero elsewhere. */
  function Spread(v: seq<nat>, a: seq<nat>, n: nat): (r: seq<nat>)
    requires |v| == |a|
    ensures |r| == n
  {
    seq(n, i requires 0 <= i < n => if i in a then v[IndexOf(a, i)] else 0)
  }

  lemma PickSpread(v: seq<nat>, a: seq<nat>, n: nat)
    requires |v| == |a| && Distinct(a) && IndicesBelow(a, n)
    ensures Pick(Spread(v, a, n), a) == v
  {
    forall k | 0 <= k < |a| ensures Pick(Spread(v, a, n), a)[k] == v[k] {
      IndexOfIs(a, k);
    }
  }

  lemma SpreadPick(c: seq<nat>, a: seq<nat>)
    requires Distinct(a) && IndicesBelow(a, |c|)
    requires forall i :: 0 <= i < |c| && i !in a ==> c[i] == 0
    ensures Spread(Pick(c, a), a, |c|) == c
  {
  }

  lemma {:induction false} OffsetUpdate(c: seq<nat>, strides: seq<nat>, i: nat)
    requires |c| == |strides| && i < |c|
    ensures Offset(c, strides) == Offset(c[i := 0], strides) + c[i] * strides[i]
  {
    if i > 0 {
      OffsetUpdate(c[1..], strides[1..], i - 1);
      assert c[i := 0][1..] == c[1..][i - 1 := 0];
    } else {
      assert c[0 := 0][1..] == c[1..];
    }
  }

  lemma {:induction false} OffsetOfZeros(c: seq<nat>, strides: seq<nat>)
    requires |c| == |strides| && forall i :: 0 <= i < |c| ==> c[i] == 0
    ensures Offset(c, strides) == 0
  {
    if c != [] {
      OffsetOfZeros(c[1..], strides[1..]);
    }
  }

  /** Summing over any arrangement of the axes that carry a nonzero coordinate gives the
      whole offset. */
  lemma {:induction false} OffsetCover(c: seq<nat>, strides: seq<nat>, a: seq<nat>)
    requires |c| == |strides| && Distinct(a) && IndicesBelow(a, |c|)
    requires forall i :: 0 <= i < |c| && i !in a ==> c[i] == 0
    ensures Offset(Pick(c, a), Pick(strides, a)) == Offset(c, strides)
    decreases |a|
  {
    if a == [] {
      OffsetOfZeros(c, strides);
    } else {
      var i, rest := a[0], a[1..];
      var c' := c[i := 0];
      OffsetUpdate(c, strides, i);
      OffsetCover(c', strides, rest);
      assert Pick(c, a)[1..] == Pick(c', rest);
      assert Pick(strides, a)[1..] == Pick(strides, rest);
    }
  }

  // ---------- The sorted chains ----------

  /** The dense check over axes already in ascending stride order. */
  function DenseChain(d: seq<nat>, s: seq<nat>, expected: nat): Result<nat>
    requires |d| == |s|
  {
    if d == [] then Ok(expected)
    else if s[0] != expected then Err(InvalidFormat)
    else if expected * d[0] > U64_MAX then Err(ResourceLimit)
    else DenseChain(d[1..], s[1..], expected * d[0])
  }

  /** The storage check over axes already in ascending stride order; every dimension is
      above one there. */
  function StorageChain(d: seq<nat>, s: seq<nat>, span: nat): Result<nat>
    requires |d| == |s| && AllVary(d)
  {
    if d == [] then Ok(span)
    else if s[0] < span then Err(InvalidFormat)
    else if Extent(d[0], s[0]) > U64_MAX || Extent(d[0], s[0]) + span > U64_MAX then Err(ResourceLimit)
    else StorageChain(d[1..], s[1..], Extent(d[0], s[0]) + span)
  }

  /** The distance between the first and the last coordinate of an axis. */
  function Extent(dimension: nat, stride: nat): nat
    requires dimension > 0
  {
    (dimension - 1) * stride
  }

  predicate AllVary(d: seq<nat>) {
    forall i :: 0 <= i < |d| ==> d[i] > 1
  }

  function At(x: nat, v: seq<nat>, s: seq<nat>): nat
    requires |v| == |s|
  {
    x + Offset(v, s)
  }

  /** Two positions, each a residue below `base` plus in-box coordinates, never collide. */
  ghost predicate Injects(base: nat, d: seq<nat>, s: seq<nat>)
    requires |d| == |s|
  {
    forall x: nat, v: seq<nat>, y: nat, w: seq<nat> {:trigger At(x, v, s), At(y, w, s)} ::
      x < base && InBox(v, d) && y < base && InBox(w, d) && At(x, v, s) == At(y, w, s) ==> x == y && v == w
  }

  ghost predicate Reached(o: nat, base: nat, d: seq<nat>, s: seq<nat>)
    requires |d| == |s|
  {
    exists x: nat, v: seq<nat> {:trigger At(x, v, s)} :: x < base && InBox(v, d) && At(x, v, s) == o
  }

  ghost predicate Covers(base: nat, d: seq<nat>, s: seq<nat>, n: nat)
    requires |d| == |s|
  {
    forall o: nat :: o < n ==> Reached(o, base, d, s)
  }

  lemma Carry(x: nat, v: seq<nat>, s: seq<nat>)
    requires |v| == |s| && v != []
    ensures At(x, v, s) == At(x + v[0] * s[0], v[1..], s[1..])
  {
  }

  lemma BoxTail(v: seq<nat>, d: seq<nat>)
    requires InBox(v, d) && d != []
    ensures v[0] < d[0] && InBox(v[1..], d[1..])
  {
  }

  lemma StepBound(c: nat, d: nat, s: nat, x: nat, span: nat)
    requires c < d && x < span
    ensures x + c * s < Extent(d, s) + span
  {
    MulMono(c, d - 1, s);
  }

  lemma SameDigit(x: nat, c: nat, y: nat, e: nat, s: nat)
    requires x < s && y < s && x + c * s == y + e * s
    ensures x == y && c == e
  {
    DivModOf(c, s, x);
    DivModOf(e, s, y);
  }

  lemma {:induction false} StorageChainBounds(d: seq<nat>, s: seq<nat>, span: nat, x: nat, v: seq<nat>)
    requires |d| == |s| && AllVary(d) && StorageChain(d, s, span).Ok?
    requires x < span && InBox(v, d)
    ensures At(x, v, s) < StorageChain(d, s, span).value
  {
    if d != [] {
      StepBound(v[0], d[0], s[0], x, span);
      BoxTail(v, d);
      StorageChainBounds(d[1..], s[1..], Extent(d[0], s[0]) + span, x + v[0] * s[0], v[1..]);
      Carry(x, v, s);
    }
  }

  lemma {:induction false} StorageChainInjects(d: seq<nat>, s: seq<nat>, span: nat,
                                               x: nat, v: seq<nat>, y: nat, w: seq<nat>)
    requires |d| == |s| && AllVary(d) && StorageChain(d, s, span).Ok?
    requires x < span && InBox(v, d) && y < span && InBox(w, d) && At(x, v, s) == At(y, w, s)
    ensures x == y && v == w
  {
    if d != [] {
      var next, x1, y1 := Extent(d[0], s[0]) + span, x + v[0] * s[0], y + w[0] * s[0];
      assert x1 < next && y1 < next by {
        StepBound(v[0], d[0], s[0], x, span);
        StepBound(w[0], d[0], s[0], y, span);
      }
      BoxTail(v, d);
      BoxTail(w, d);
      Carry(x, v, s);
      Carry(y, w, s);
      StorageChainInjects(d[1..], s[1..], next, x1, v[1..], y1, w[1..]);
      SameDigit(x, v[0], y, w[0], s[0]);
      assert v == [v[0]] + v[1..] && w == [w[0]] + w[1..];
    }
  }

  /** Dense acceptance is storage acceptance with nothing left over. */
  lemma {:induction false} DenseChainIsStorageChain(d: seq<nat>, s: seq<nat>, expected: nat)
    requires |d| == |s| && AllVary(d) && DenseChain(d, s, expected).Ok?
    ensures StorageChain(d, s, expected) == DenseChain(d, s, expected)
  {
    if d != [] {
      assert Extent(d[0], s[0]) + expected == expected * d[0];
      DenseChainIsStorageChain(d[1..], s[1..], expected * d[0]);
    }
  }

  lemma {:induction false} DenseChainCovers(d: seq<nat>, s: seq<nat>, expected: nat, o: nat)
    requires |d| == |s| && expected > 0 && DenseChain(d, s, expected).Ok?
    requires o < DenseChain(d, s, expected).value && AllVary(d)
    ensures Reached(o, expected, d, s)
  {
    if d == [] {
      assert At(o, [], s) == o;
    } else {
      MulMono(1, d[0], expected);
      DenseChainCovers(d[1..], s[1..], expected * d[0], o);
      var y: nat, w: seq<nat> :| y < expected * d[0] && InBox(w, d[1..]) && At(y, w, s[1..]) == o;
      var x, v := Uncarry(d, s, expected, y, w);
      assert At(x, v, s) == o;
    }
  }

  // ---------- A bijection forces the dense chain ----------

  predicate Ascending(s: seq<nat>) {
    forall i, j :: 0 <= i < j < |s| ==> s[i] <= s[j]
  }

  function ZeroVector(n: nat): (z: seq<nat>)
    ensures |z| == n
  {
    seq(n, _ => 0)
  }

  lemma {:induction false} NonzeroOffset(v: seq<nat>, s: seq<nat>, low: nat)
    requires |v| == |s| && (forall i :: 0 <= i < |s| ==> s[i] >= low) && Offset(v, s) > 0
    ensures Offset(v, s) >= low
  {
    if v[0] > 0 {
      MulMono(1, v[0], s[0]);
    } else {
      NonzeroOffset(v[1..], s[1..], low);
    }
  }

  lemma FirstStrideIsBase(d: seq<nat>, s: seq<nat>, base: nat)
    requires |d| == |s| && d != [] && AllVary(d) && Ascending(s) && base > 0
    requires Injects(base, d, s) && Covers(base, d, s, base * Elements(d))
    requires Elements(d[1..]) > 0
    ensures s[0] == base
  {
    var n := |d|;
    var unit := [1] + ZeroVector(n - 1);
    OffsetOfZeros(ZeroVector(n), s);
    OffsetOfZeros(ZeroVector(n - 1), s[1..]);
    assert unit[1..] == ZeroVector(n - 1);
    assert Offset(unit, s) == s[0];
    assert At(0, unit, s) == At(s[0], ZeroVector(n), s);
    assert unit[0] != ZeroVector(n)[0];
    MulMono(1, Elements(d[1..]), d[0]);
    MulMono(2, Elements(d), base);
    assert Reached(base, base, d, s);
    var x: nat, v: seq<nat> :| x < base && InBox(v, d) && At(x, v, s) == base;
    NonzeroOffset(v, s, s[0]);
  }

  lemma {:induction false} ElementsPositive(d: seq<nat>)
    requires forall i :: 0 <= i < |d| ==> d[i] > 0
    ensures Elements(d) > 0
  {
    if d != [] {
      ElementsPositive(d[1..]);
      MulMono(1, d[0], Elements(d[1..]));
    }
  }

  /** A position at the next level is a position at this level. */
  lemma Uncarry(d: seq<nat>, s: seq<nat>, base: nat, y: nat, v: seq<nat>) returns (x: nat, u: seq<nat>)
    requires |d| == |s| && d != [] && base > 0 && s[0] == base && y < base * d[0] && InBox(v, d[1..])
    ensures x < base && InBox(u, d) && u[1..] == v && y == x + u[0] * base
    ensures At(x, u, s) == At(y, v, s[1..])
  {
    DivisionBound(y, d[0], base);
    BoxCons(y / base, v, d);
    x, u := y % base, [y / base] + v;
    Carry(x, u, s);
    assert u[1..] == v;
    assert y % base + (y / base) * base == y;
  }

  lemma NextLevelInjectsAt(d: seq<nat>, s: seq<nat>, base: nat, y: nat, v: seq<nat>, z: nat, w: seq<nat>)
    requires |d| == |s| && d != [] && base > 0 && s[0] == base && Injects(base, d, s)
    requires y < base * d[0] && InBox(v, d[1..]) && z < base * d[0] && InBox(w, d[1..])
    requires At(y, v, s[1..]) == At(z, w, s[1..])
    ensures y == z && v == w
  {
    var x1, u1 := Uncarry(d, s, base, y, v);
    var x2, u2 := Uncarry(d, s, base, z, w);
    assert x1 == x2 && u1 == u2;
  }

  lemma NextLevelInjects(d: seq<nat>, s: seq<nat>, base: nat)
    requires |d| == |s| && d != [] && base > 0 && s[0] == base && Injects(base, d, s)
    ensures Injects(base * d[0], d[1..], s[1..])
  {
    forall y: nat, v: seq<nat>, z: nat, w: seq<nat>
      | y < base * d[0] && InBox(v, d[1..]) && z < base * d[0] && InBox(w, d[1..])
        && At(y, v, s[1..]) == At(z, w, s[1..])
      ensures y == z && v == w
    {
      NextLevelInjectsAt(d, s, base, y, v, z, w);
    }
  }

  lemma NextLevelCovers(d: seq<nat>, s: seq<nat>, base: nat, n: nat)
    requires |d| == |s| && d != [] && base > 0 && s[0] == base && Covers(base, d, s, n)
    ensures Covers(base * d[0], d[1..], s[1..], n)
  {
    forall o: nat | o < n ensures Reached(o, base * d[0], d[1..], s[1..]) {
      assert Reached(o, base, d, s);
      var x: nat, v: seq<nat> :| x < base && InBox(v, d) && At(x, v, s) == o;
      StepBound(v[0], d[0], base, x, base);
      assert Extent(d[0], base) + base == base * d[0];
      BoxTail(v, d);
      Carry(x, v, s);
      assert At(x + v[0] * base, v[1..], s[1..]) == o;
    }
  }

  lemma {:induction false} BijectionForcesChain(d: seq<nat>, s: seq<nat>, base: nat)
    requires |d| == |s| && AllVary(d) && Ascending(s) && base > 0
    requires Injects(base, d, s) && Covers(base, d, s, base * Elements(d))
    requires base * Elements(d) <= U64_MAX
    ensures DenseChain(d, s, base) == Ok(base * Elements(d))
  {
    if d != [] {
      ElementsPositive(d[1..]);
      FirstStrideIsBase(d, s, base);
      NextLevelInjects(d, s, base);
      NextLevelCovers(d, s, base, base * Elements(d));
      MulAssoc(base, d[0], Elements(d[1..]));
      MulMono(1, Elements(d[1..]), base * d[0]);
      BijectionForcesChain(d[1..], s[1..], base * d[0]);
    }
  }

  // ---------- From shapes to sorted chains ----------

  /** The axes of dimension above one, in axis order starting at `from`. */
  function VaryingFrom(shape: Shape, from: nat): (a: seq<nat>)
    requires from <= |shape|
    ensures forall i :: i in a <==> from <= i < |shape| && shape[i] > 1
    ensures Distinct(a)
    decreases |shape| - from
  {
    if from == |shape| then []
    else if shape[from] > 1 then [from] + VaryingFrom(shape, from + 1)
    else VaryingFrom(shape, from + 1)
  }

  predicate SortedBy(a: seq<nat>, strides: seq<nat>)
    requires IndicesBelow(a, |strides|)
  {
    forall i, j :: 0 <= i < j < |a| ==> strides[a[i]] <= strides[a[j]]
  }

  function Insert(i: nat, a: seq<nat>, strides: seq<nat>): (r: seq<nat>)
    requires i < |strides| && IndicesBelow(a, |strides|)
    ensures IndicesBelow(r, |strides|)
    ensures forall j :: j in r <==> j == i || j in a
  {
    if a == [] || strides[i] <= strides[a[0]] then [i] + a else [a[0]] + Insert(i, a[1..], strides)
  }

  lemma Prepend(x: nat, r: seq<nat>, strides: seq<nat>)
    requires x < |strides| && IndicesBelow(r, |strides|) && SortedBy(r, strides) && Distinct(r)
    requires forall j :: j in r ==> j < |strides| && strides[x] <= strides[j] && j != x
    ensures IndicesBelow([x] + r, |strides|) && SortedBy([x] + r, strides) && Distinct([x] + r)
  {
    forall k | 0 <= k < |r| ensures strides[x] <= strides[r[k]] && r[k] != x {
      assert r[k] in r;
    }
  }

  lemma {:induction false} InsertKeepsOrder(i: nat, a: seq<nat>, strides: seq<nat>)
    requires i < |strides| && IndicesBelow(a, |strides|) && SortedBy(a, strides) && Distinct(a) && i !in a
    ensures SortedBy(Insert(i, a, strides), strides) && Distinct(Insert(i, a, strides))
  {
    if a != [] && strides[i] > strides[a[0]] {
      InsertKeepsOrder(i, a[1..], strides);
      Prepend(a[0], Insert(i, a[1..], strides), strides);
    } else {
      Prepend(i, a, strides);
    }
  }

  /** The sort by stride. */
  function SortByStride(a: seq<nat>, strides: seq<nat>): (r: seq<nat>)
    requires IndicesBelow(a, |strides|)
    ensures IndicesBelow(r, |strides|)
    ensures forall j :: j in r <==> j in a
  {
    if a == [] then [] else Insert(a[0], SortByStride(a[1..], strides), strides)
  }

  lemma {:induction false} SortByStrideSorts(a: seq<nat>, strides: seq<nat>)
    requires IndicesBelow(a, |strides|) && Distinct(a)
    ensures SortedBy(SortByStride(a, strides), strides) && Distinct(SortByStride(a, strides))
  {
    if a != [] {
      SortByStrideSorts(a[1..], strides);
      InsertKeepsOrder(a[0], SortByStride(a[1..], strides), strides);
    }
  }

  /** The varying axes in ascending stride order. */
  function SortedAxes(shape: Shape, strides: seq<nat>): (a: seq<nat>)
    requires |shape| == |strides|
    ensures Distinct(a) && IndicesBelow(a, |shape|)
    ensures forall i :: i in a <==> 0 <= i < |shape| && shape[i] > 1
    ensures Ascending(Pick(strides, a)) && AllVary(Pick(shape, a))
  {
    var v := VaryingFrom(shape, 0);
    assert forall k :: 0 <= k < |v| ==> v[k] in v;
    SortByStrideSorts(v, strides);
    var a := SortByStride(v, strides);
    assert forall k :: 0 <= k < |a| ==> a[k] in a;
    a
  }

  function ValidateDenseStrides(shape: Shape, strides: seq<nat>, elements: nat): Result<()>
    requires |shape| == |strides|
  {
    if elements == 0 then Ok(())
    else
      var a := SortedAxes(shape, strides);
      match DenseChain(Pick(shape, a), Pick(strides, a), 1)
      case Err(e) => Err(e)
      case Ok(expected) => if expected != elements then Err(InvalidFormat) else Ok(())
  }

  function ValidateStorageStrides(shape: Shape, strides: seq<nat>, elements: nat, storageElements: nat): Result<()>
    requires |shape| == |strides|
  {
    if elements == 0 then Ok(())
    else if storageElements == 0 then Err(InvalidFormat)
    else
      var a := SortedAxes(shape, strides);
      match StorageChain(Pick(shape, a), Pick(strides, a), 1)
      case Err(e) => Err(e)
      case Ok(span) => if span > storageElements then Err(InvalidFormat) else Ok(())
  }

  /** The loop of the dense check over the sorted `(dimension, stride)` pairs. */
  method DenseChainLoop(d: seq<nat>, s: seq<nat>) returns (r: Result<nat>)
    requires |d| == |s|
    ensures r == DenseChain(d, s, 1)
  {
    var expected: nat := 1;
    var k := 0;
    while k < |d|
      invariant 0 <= k <= |d|
      invariant DenseChain(d, s, 1) == DenseChain(d[k..], s[k..], expected)
    {
      if s[k] != expected {
        return Err(InvalidFormat);
      }
      if CheckedMul(expected, d[k]).Err? {
        return Err(ResourceLimit);
      }
      expected := CheckedMul(expected, d[k]).value;
      assert d[k..][1..] == d[k + 1..] && s[k..][1..] == s[k + 1..];
      k := k + 1;
    }
    return Ok(expected);
  }

  /** The loop of the storage check over the sorted `(dimension, stride)` pairs. */
  method StorageChainLoop(d: seq<nat>, s: seq<nat>) returns (r: Result<nat>)
    requires |d| == |s| && AllVary(d)
    ensures r == StorageChain(d, s, 1)
  {
    var span: nat := 1;
    var k := 0;
    while k < |d|
      invariant 0 <= k <= |d|
      invariant AllVary(d[k..]) && StorageChain(d, s, 1) == StorageChain(d[k..], s[k..], span)
    {
      if s[k] < span {
        return Err(InvalidFormat);
      }
      var extent := CheckedMul(d[k] - 1, s[k]);
      assert extent.Ok? ==> extent.value == Extent(d[k], s[k]);
      if extent.Err? || CheckedAdd(extent.value, span).Err? {
        return Err(ResourceLimit);
      }
      span := extent.value + span;
      assert d[k..][1..] == d[k + 1..] && s[k..][1..] == s[k + 1..];
      k := k + 1;
    }
    return Ok(span);
  }

  /** The whole dense check, with its loop. */
  method ValidateDenseStridesLoop(shape: Shape, strides: seq<nat>, elements: nat) returns (r: Result<()>)
    requires |shape| == |strides|
    ensures r == ValidateDenseStrides(shape, strides, elements)
  {
    if elements == 0 {
      return Ok(());
    }
    var axes := SortedAxes(shape, strides);
    var expected :- DenseChainLoop(Pick(shape, axes), Pick(strides, axes));
    return if expected != elements then Err(InvalidFormat) else Ok(());
  }

  /** The whole storage check, with its loop. */
  method ValidateStorageStridesLoop(shape: Shape, strides: seq<nat>, elements: nat, storageElements: nat)
    returns (r: Result<()>)
    requires |shape| == |strides|
    ensures r == ValidateStorageStrides(shape, strides, elements, storageElements)
  {
    if elements == 0 {
      return Ok(());
    }
    if storageElements == 0 {
      return Err(InvalidFormat);
    }
    var axes := SortedAxes(shape, strides);
    var span :- StorageChainLoop(Pick(shape, axes), Pick(strides, axes));
    return if span > storageElements then Err(InvalidFormat) else Ok(());
  }

  // ---------- What acceptance means ----------

  /** Distinct coordinates have distinct storage offsets. */
  ghost predicate Injective(shape: Shape, strides: seq<nat>)
    requires |shape| == |strides|
  {
    forall c: seq<nat>, e: seq<nat> {:trigger Offset(c, strides), Offset(e, strides)} ::
      InBox(c, shape) && InBox(e, shape) && Offset(c, strides) == Offset(e, strides) ==> c == e
  }

  ghost predicate Below(shape: Shape, strides: seq<nat>, n: nat)
    requires |shape| == |strides|
  {
    forall c: seq<nat> {:trigger Offset(c, strides)} :: InBox(c, shape) ==> Offset(c, strides) < n
  }

  ghost predicate Hit(o: nat, shape: Shape, strides: seq<nat>)
    requires |shape| == |strides|
  {
    exists c: seq<nat> {:trigger Offset(c, strides)} :: InBox(c, shape) && Offset(c, strides) == o
  }

  ghost predicate Onto(shape: Shape, strides: seq<nat>, n: nat)
    requires |shape| == |strides|
  {
    forall o: nat :: o < n ==> Hit(o, shape, strides)
  }

  lemma SortedOffset(shape: Shape, strides: seq<nat>, c: seq<nat>)
    requires |shape| == |strides| && InBox(c, shape)
    ensures var a := SortedAxes(shape, strides);
            InBox(Pick(c, a), Pick(shape, a))
            && At(0, Pick(c, a), Pick(strides, a)) == Offset(c, strides)
            && Spread(Pick(c, a), a, |c|) == c
  {
    var a := SortedAxes(shape, strides);
    OffsetCover(c, strides, a);
    SpreadPick(c, a);
  }

  lemma SpreadInBox(shape: Shape, strides: seq<nat>, v: seq<nat>)
    requires |shape| == |strides| && Elements(shape) > 0
    requires InBox(v, Pick(shape, SortedAxes(shape, strides)))
    ensures var a := SortedAxes(shape, strides);
            InBox(Spread(v, a, |shape|), shape)
            && Pick(Spread(v, a, |shape|), a) == v
            && Offset(Spread(v, a, |shape|), strides) == At(0, v, Pick(strides, a))
  {
    var a := SortedAxes(shape, strides);
    var c := Spread(v, a, |shape|);
    PickSpread(v, a, |shape|);
    forall i | 0 <= i < |shape| ensures c[i] < shape[i] {
      RowStrideDivides(shape, i);
      if i in a {
        assert v[IndexOf(a, i)] < Pick(shape, a)[IndexOf(a, i)];
      }
    }
    OffsetCover(c, strides, a);
  }

  /** Acceptance of storage strides, for any rank and stride order: offsets are unique and
      stay inside the allocation. */
  lemma StorageAcceptanceIsSound(shape: Shape, strides: seq<nat>, storageElements: nat)
    requires |shape| == |strides| && Elements(shape) > 0
    requires ValidateStorageStrides(shape, strides, Elements(shape), storageElements).Ok?
    ensures Injective(shape, strides) && Below(shape, strides, storageElements)
  {
    var a := SortedAxes(shape, strides);
    var d, s := Pick(shape, a), Pick(strides, a);
    forall c: seq<nat> | InBox(c, shape) ensures Offset(c, strides) < storageElements {
      SortedOffset(shape, strides, c);
      StorageChainBounds(d, s, 1, 0, Pick(c, a));
    }
    forall c: seq<nat>, e: seq<nat> | InBox(c, shape) && InBox(e, shape) && Offset(c, strides) == Offset(e, strides)
      ensures c == e
    {
      SortedOffset(shape, strides, c);
      SortedOffset(shape, strides, e);
      StorageChainInjects(d, s, 1, 0, Pick(c, a), 0, Pick(e, a));
    }
  }

  // ---------- Exactly which storage strides are accepted ----------

  /** The last coordinate of every axis. */
  function Furthest(shape: Shape): (c: seq<nat>)
    ensures |c| == |shape|
  {
    seq(|shape|, j requires 0 <= j < |shape| => if shape[j] > 0 then shape[j] - 1 else 0)
  }

  /** The last coordinate of every other axis whose stride is no larger than that of axis `i`. */
  function FurthestBelow(shape: Shape, strides: seq<nat>, i: nat): (c: seq<nat>)
    requires |shape| == |strides| && i < |shape|
    ensures |c| == |shape|
  {
    seq(|shape|, j requires 0 <= j < |shape| => if j != i && strides[j] <= strides[i] then Furthest(shape)[j] else 0)
  }

  /** Every varying axis steps past everything the axes of no larger stride reach. */
  predicate Spaced(shape: Shape, strides: seq<nat>)
    requires |shape| == |strides|
  {
    forall i :: 0 <= i < |shape| && shape[i] > 1 ==> Offset(FurthestBelow(shape, strides, i), strides) < strides[i]
  }

  /** The last coordinates of the first `k` axes. */
  function Before(d: seq<nat>, k: nat): (c: seq<nat>)
    requires k <= |d|
    ensures |c| == |d|
  {
    seq(|d|, j requires 0 <= j < |d| => if j < k then Furthest(d)[j] else 0)
  }

  lemma {:induction false} OffsetMono(c: seq<nat>, e: seq<nat>, strides: seq<nat>)
    requires |c| == |e| == |strides| && forall j :: 0 <= j < |c| ==> c[j] <= e[j]
    ensures Offset(c, strides) <= Offset(e, strides)
  {
    if c != [] {
      MulMono(c[0], e[0], strides[0]);
      OffsetMono(c[1..], e[1..], strides[1..]);
    }
  }

  /** The chain accepts exactly when each stride covers the reach of the axes before it. */
  lemma {:induction false} StorageChainIs(d: seq<nat>, s: seq<nat>, span: nat)
    requires |d| == |s| && AllVary(d)
    ensures var reach := span + Offset(Furthest(d), s);
            && (StorageChain(d, s, span).Ok? ==> StorageChain(d, s, span).value == reach)
            && (reach <= U64_MAX ==>
                  (StorageChain(d, s, span).Ok?
                   <==> forall k :: 0 <= k < |d| ==> span + Offset(Before(d, k), s) <= s[k]))
            && (StorageChain(d, s, span).Ok? && d != [] ==> reach <= U64_MAX)
  {
    if d != [] {
      var next := Extent(d[0], s[0]) + span;
      assert Furthest(d)[1..] == Furthest(d[1..]);
      StorageChainIs(d[1..], s[1..], next);
      OffsetOfZeros(Before(d, 0), s);
      forall k | 0 < k < |d|
        ensures span + Offset(Before(d, k), s) == next + Offset(Before(d[1..], k - 1), s[1..])
      {
        assert Before(d, k)[1..] == Before(d[1..], k - 1);
      }
    }
  }

  /** Accepted strides ascend strictly. */
  lemma StrictlyAscending(d: seq<nat>, s: seq<nat>, j: nat, k: nat)
    requires |d| == |s| && AllVary(d) && j < k < |d|
    requires 1 + Offset(Before(d, k), s) <= s[k]
    ensures s[j] < s[k]
  {
    var one := ZeroVector(|d|)[j := 1];
    OffsetUpdate(one, s, j);
    OffsetOfZeros(one[j := 0], s);
    forall i | 0 <= i < |d| ensures one[i] <= Before(d, k)[i] {
      assert d[i] > 1 && Furthest(d)[i] == d[i] - 1;
      assert i < k ==> Before(d, k)[i] == Furthest(d)[i];
      assert ZeroVector(|d|)[i] == 0;
    }
    OffsetMono(one, Before(d, k), s);
  }

  lemma ReachBefore(shape: Shape, strides: seq<nat>, k: nat)
    requires |shape| == |strides| && Elements(shape) > 0 && k < |SortedAxes(shape, strides)|
    ensures var a := SortedAxes(shape, strides);
            var d, s := Pick(shape, a), Pick(strides, a);
            var below := FurthestBelow(shape, strides, a[k]);
            && Offset(Before(d, k), s) <= Offset(below, strides)
            && ((forall j :: k < j < |d| ==> s[k] < s[j]) ==> Offset(Before(d, k), s) == Offset(below, strides))
  {
    var a := SortedAxes(shape, strides);
    var d, s := Pick(shape, a), Pick(strides, a);
    var below := FurthestBelow(shape, strides, a[k]);
    UnitAxes(shape, strides);
    hide SortedAxes, Elements, Offset;
    OffsetCover(below, strides, a);
    PickedReach(shape, strides, a, k);
    OffsetMono(Before(d, k), Pick(below, a), s);
  }

  lemma PickedReach(shape: Shape, strides: seq<nat>, a: seq<nat>, k: nat)
    requires |shape| == |strides| && IndicesBelow(a, |shape|) && Distinct(a) && k < |a|
    requires Ascending(Pick(strides, a)) && AllVary(Pick(shape, a))
    ensures var d, s := Pick(shape, a), Pick(strides, a);
            var below := Pick(FurthestBelow(shape, strides, a[k]), a);
            && (forall j :: 0 <= j < |d| ==> Before(d, k)[j] <= below[j])
            && ((forall j :: k < j < |d| ==> s[k] < s[j]) ==> Before(d, k) == below)
  {
    var d, s := Pick(shape, a), Pick(strides, a);
    var below := Pick(FurthestBelow(shape, strides, a[k]), a);
    forall j | 0 <= j < |d|
      ensures below[j] == if j != k && s[j] <= s[k] then d[j] - 1 else 0
    {
      assert d[j] > 1 && Furthest(shape)[a[j]] == d[j] - 1;
      assert a[j] == a[k] <==> j == k;
    }
    forall j | 0 <= j < |d|
      ensures Before(d, k)[j] == if j < k then d[j] - 1 else 0
    {
      assert d[j] > 1 && Furthest(d)[j] == d[j] - 1;
    }
  }

  /** Axes outside the sorted list have dimension one. */
  lemma UnitAxes(shape: Shape, strides: seq<nat>)
    requires |shape| == |strides| && Elements(shape) > 0
    ensures forall i :: 0 <= i < |shape| ==> shape[i] > 0
    ensures forall i :: 0 <= i < |shape| && i !in SortedAxes(shape, strides) ==> shape[i] == 1
  {
    forall i | 0 <= i < |shape| ensures shape[i] > 0 {
      RowStrideDivides(shape, i);
    }
  }

  lemma ReachOfAll(shape: Shape, strides: seq<nat>)
    requires |shape| == |strides| && Elements(shape) > 0
    ensures var a := SortedAxes(shape, strides);
            Offset(Furthest(Pick(shape, a)), Pick(strides, a)) == Offset(Furthest(shape), strides)
  {
    var a := SortedAxes(shape, strides);
    UnitAxes(shape, strides);
    forall i | 0 <= i < |shape| && i !in a ensures Furthest(shape)[i] == 0 {
    }
    OffsetCover(Furthest(shape), strides, a);
    assert Pick(Furthest(shape), a) == Furthest(Pick(shape, a));
  }

  lemma SpacedSorted(shape: Shape, strides: seq<nat>)
    requires |shape| == |strides| && Elements(shape) > 0
    ensures var a := SortedAxes(shape, strides);
            var d, s := Pick(shape, a), Pick(strides, a);
            Spaced(shape, strides) <==> forall k :: 0 <= k < |d| ==> 1 + Offset(Before(d, k), s) <= s[k]
  {
    var a := SortedAxes(shape, strides);
    var d, s := Pick(shape, a), Pick(strides, a);
    if Spaced(shape, strides) {
      forall k | 0 <= k < |d| ensures 1 + Offset(Before(d, k), s) <= s[k] {
        ReachBefore(shape, strides, k);
        assert a[k] in a;
      }
    }
    if forall k :: 0 <= k < |d| ==> 1 + Offset(Before(d, k), s) <= s[k] {
      forall i | 0 <= i < |shape| && shape[i] > 1 ensures Offset(FurthestBelow(shape, strides, i), strides) < strides[i] {
        var k := IndexOf(a, i);
        forall j | k < j < |d| ensures s[k] < s[j] {
          StrictlyAscending(d, s, k, j);
        }
        ReachBefore(shape, strides, k);
      }
    }
  }

  /** Storage strides are accepted if and only if every varying axis steps past the reach of the
      axes of no larger stride, and the furthest coordinate lies inside the allocation. */
  lemma StorageAcceptedExactly(shape: Shape, strides: seq<nat>, storageElements: nat)
    requires |shape| == |strides| && Elements(shape) > 0 && storageElements <= U64_MAX
    ensures ValidateStorageStrides(shape, strides, Elements(shape), storageElements).Ok?
            <==> Spaced(shape, strides) && Offset(Furthest(shape), strides) < storageElements
  {
    hide Elements, Spaced, StorageChain, SortedAxes;
    var a := SortedAxes(shape, strides);
    StorageChainIs(Pick(shape, a), Pick(strides, a), 1);
    ReachOfAll(shape, strides);
    SpacedSorted(shape, strides);
  }

  lemma {:induction false} ElementsUpdate(shape: Shape, i: nat)
    requires i < |shape|
    ensures Elements(shape) == Elements(shape[i := 1]) * shape[i]
  {
    if i == 0 {
      assert shape[0 := 1][1..] == shape[1..];
    } else {
      ElementsUpdate(shape[1..], i - 1);
      assert shape[i := 1][1..] == shape[1..][i - 1 := 1];
      MulAssoc(shape[0], Elements(shape[1..][i - 1 := 1]), shape[i]);
    }
  }

  lemma {:induction false} ElementsOfOnes(shape: Shape)
    requires forall i :: 0 <= i < |shape| ==> shape[i] == 1
    ensures Elements(shape) == 1
  {
    if shape != [] {
      ElementsOfOnes(shape[1..]);
    }
  }

  /** The dimensions above one multiply to the element count. */
  lemma {:induction false} ElementsCover(shape: Shape, a: seq<nat>)
    requires Distinct(a) && IndicesBelow(a, |shape|)
    requires forall i :: 0 <= i < |shape| && i !in a ==> shape[i] == 1
    ensures Elements(Pick(shape, a)) == Elements(shape)
    decreases |a|
  {
    if a == [] {
      ElementsOfOnes(shape);
    } else {
      var i, rest := a[0], a[1..];
      ElementsCover(shape[i := 1], rest);
      assert Pick(shape, a)[1..] == Pick(shape[i := 1], rest);
      assert Elements(Pick(shape, a)) == shape[i] * Elements(shape[i := 1]);
      ElementsUpdate(shape, i);
    }
  }

  lemma SortedElements(shape: Shape, strides: seq<nat>)
    requires |shape| == |strides| && Elements(shape) > 0
    ensures Elements(Pick(shape, SortedAxes(shape, strides))) == Elements(shape)
  {
    var a := SortedAxes(shape, strides);
    forall i | 0 <= i < |shape| && i !in a ensures shape[i] == 1 {
      RowStrideDivides(shape, i);
    }
    ElementsCover(shape, a);
  }

  /** Logical strides are accepted exactly when the offset map is a bijection from the
      coordinates onto `[0, elements)`. */
  lemma DenseAcceptanceIsBijection(shape: Shape, strides: seq<nat>)
    requires |shape| == |strides| && 0 < Elements(shape) <= U64_MAX
    ensures ValidateDenseStrides(shape, strides, Elements(shape)).Ok? <==>
            Injective(shape, strides) && Below(shape, strides, Elements(shape))
            && Onto(shape, strides, Elements(shape))
  {
    SortedElements(shape, strides);
    if ValidateDenseStrides(shape, strides, Elements(shape)).Ok? {
      DenseAcceptanceGivesBijection(shape, strides);
    }
    if Injective(shape, strides) && Onto(shape, strides, Elements(shape)) {
      BijectionGivesDenseAcceptance(shape, strides);
    }
  }

  lemma DenseImpliesStorage(shape: Shape, strides: seq<nat>)
    requires |shape| == |strides| && Elements(shape) > 0
    requires ValidateDenseStrides(shape, strides, Elements(shape)).Ok?
    ensures ValidateStorageStrides(shape, strides, Elements(shape), Elements(shape)).Ok?
  {
    var a := SortedAxes(shape, strides);
    DenseChainIsStorageChain(Pick(shape, a), Pick(strides, a), 1);
  }

  lemma DenseAcceptanceGivesBijection(shape: Shape, strides: seq<nat>)
    requires |shape| == |strides| && Elements(shape) > 0
    requires ValidateDenseStrides(shape, strides, Elements(shape)).Ok?
    ensures Injective(shape, strides) && Below(shape, strides, Elements(shape))
    ensures Onto(shape, strides, Elements(shape))
  {
    var a := SortedAxes(shape, strides);
    var d, s := Pick(shape, a), Pick(strides, a);
    DenseImpliesStorage(shape, strides);
    StorageAcceptanceIsSound(shape, strides, Elements(shape));
    forall o: nat | o < Elements(shape) ensures Hit(o, shape, strides) {
      DenseChainCovers(d, s, 1, o);
      var x: nat, v: seq<nat> :| x < 1 && InBox(v, d) && At(x, v, s) == o;
      SpreadInBox(shape, strides, v);
      assert Offset(Spread(v, a, |shape|), strides) == o;
    }
  }

  lemma BijectionGivesDenseAcceptance(shape: Shape, strides: seq<nat>)
    requires |shape| == |strides| && 0 < Elements(shape) <= U64_MAX
    requires Injective(shape, strides) && Onto(shape, strides, Elements(shape))
    ensures ValidateDenseStrides(shape, strides, Elements(shape)).Ok?
  {
    var a := SortedAxes(shape, strides);
    var d, s := Pick(shape, a), Pick(strides, a);
    SortedElements(shape, strides);
    forall x: nat, v: seq<nat>, y: nat, w: seq<nat>
      | x < 1 && InBox(v, d) && y < 1 && InBox(w, d) && At(x, v, s) == At(y, w, s)
      ensures x == y && v == w
    {
      SpreadInBox(shape, strides, v);
      SpreadInBox(shape, strides, w);
    }
    forall o: nat | o < 1 * Elements(d) ensures Reached(o, 1, d, s) {
      assert Hit(o, shape, strides);
      var c :| InBox(c, shape) && Offset(c, strides) == o;
      SortedOffset(shape, strides, c);
      assert At(0, Pick(c, a), s) == o;
    }
    BijectionForcesChain(d, s, 1);
  }

  lemma {:induction false} RowMajorIsBijection(shape: Shape)
    requires Elements(shape) > 0
    ensures Injective(shape, RowStrides(shape)) && Below(shape, RowStrides(shape), Elements(shape))
    ensures Onto(shape, RowStrides(shape), Elements(shape))
  {
    var strides := RowStrides(shape);
    forall c: seq<nat> | InBox(c, shape)
      ensures Offset(c, strides) < Elements(shape) && c == Coords(shape, Offset(c, strides))
    {
      OffsetIsLinear(shape, c);
      CoordsOfLinear(shape, c);
    }
    forall o: nat | o < Elements(shape) ensures Hit(o, shape, strides) {
      LinearOfCoords(shape, o);
      OffsetIsLinear(shape, Coords(shape, o));
      assert Offset(Coords(shape, o), strides) == o;
    }
  }

  /** Row-major strides pass both checks, so contiguous facts are never rejected for their
      strides. */
  lemma RowMajorIsAccepted(shape: Shape)
    requires 0 < Elements(shape) <= U64_MAX
    ensures ValidateDenseStrides(shape, RowStrides(shape), Elements(shape)).Ok?
    ensures ValidateStorageStrides(shape, RowStrides(shape), Elements(shape), Elements(shape)).Ok?
  {
    RowMajorIsBijection(shape);
    BijectionGivesDenseAcceptance(shape, RowStrides(shape));
    DenseImpliesStorage(shape, RowStrides(shape));
  }
}
