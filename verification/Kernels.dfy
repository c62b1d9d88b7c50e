/** The generic host kernels: element-by-element strided copies with checked offsets.  Each
    is proved to store the logical tensor that its operation means, with zero padding. */
module Kernels {
  import opened Checked
  import opened Shapes
  import opened Strides
  import opened Buffers
  import opened Facts
  import opened Operations

  method AllocateTensor(f: TensorFacts) returns (bytes: array<byte>)
    ensures fresh(bytes) && bytes[..] == Zeros(f.byteLen)
  {
    bytes := new byte[f.byteLen](_ => 0);
  }

  // ---------- Offsets ----------

  function LogicalCoordinate(linear: nat, axis: nat, shape: Shape, rowStrides: seq<nat>): Result<nat> {
    if axis >= |shape| || axis >= |rowStrides| then Err(Integrity)
    else if shape[axis] == 0 || rowStrides[axis] == 0 then Err(Integrity)
    else Ok((linear / rowStrides[axis]) % shape[axis])
  }

  function CheckedOffsetTerm(offset: nat, coordinate: nat, stride: nat): Result<nat> {
    if coordinate * stride > U64_MAX then Err(ResourceLimit) else CheckedAdd(offset, coordinate * stride)
  }

  /** On an in-range index the checked coordinate never fails. */
  lemma LogicalCoordinateIs(shape: Shape, linear: nat, axis: nat)
    requires linear < Elements(shape) && axis < |shape|
    ensures LogicalCoordinate(linear, axis, shape, RowStrides(shape)) == Ok(Coords(shape, linear)[axis])
  {
    CoordinateByDivMod(shape, linear, axis);
  }

  lemma {:induction false} PrefixStep(c: seq<nat>, s: seq<nat>, k: nat)
    requires |c| == |s| && k < |c|
    ensures Offset(c[..k + 1], s[..k + 1]) == Offset(c[..k], s[..k]) + c[k] * s[k] <= Offset(c, s)
  {
    if k == 0 {
      assert c[..1][1..] == [] && s[..1][1..] == [];
    } else {
      PrefixStep(c[1..], s[1..], k - 1);
      assert c[..k + 1][1..] == c[1..][..k] && s[..k + 1][1..] == s[1..][..k];
      assert c[..k][1..] == c[1..][..k - 1] && s[..k][1..] == s[1..][..k - 1];
    }
  }

  /** One more term of a bounded offset never overflows. */
  lemma TermFits(c: seq<nat>, s: seq<nat>, k: nat)
    requires |c| == |s| && k < |c| && Offset(c, s) <= U64_MAX
    ensures CheckedOffsetTerm(Offset(c[..k], s[..k]), c[k], s[k]) == Ok(Offset(c[..k + 1], s[..k + 1]))
  {
    PrefixStep(c, s, k);
  }

  /** Source and target offsets of one logical element under two stride vectors. */
  method StorageCopyOffsets(linear: nat, shape: Shape, rowStrides: seq<nat>, source: seq<nat>, target: seq<nat>)
    returns (r: Result<(nat, nat)>)
    requires linear < Elements(shape) && rowStrides == RowStrides(shape) && |source| == |target| == |shape|
    requires Offset(Coords(shape, linear), source) <= U64_MAX && Offset(Coords(shape, linear), target) <= U64_MAX
    ensures r == Ok((Offset(Coords(shape, linear), source), Offset(Coords(shape, linear), target)))
  {
    ghost var c := Coords(shape, linear);
    var sourceElement: nat, targetElement: nat := 0, 0;
    var axis := 0;
    while axis < |shape|
      invariant 0 <= axis <= |shape|
      invariant sourceElement == Offset(c[..axis], source[..axis])
      invariant targetElement == Offset(c[..axis], target[..axis])
    {
      LogicalCoordinateIs(shape, linear, axis);
      TermFits(c, source, axis);
      TermFits(c, target, axis);
      var coordinate :- LogicalCoordinate(linear, axis, shape, rowStrides);
      sourceElement :- CheckedOffsetTerm(sourceElement, coordinate, source[axis]);
      targetElement :- CheckedOffsetTerm(targetElement, coordinate, target[axis]);
      axis := axis + 1;
    }
    assert c[..axis] == c && source[..axis] == source && target[..axis] == target;
    return Ok((sourceElement, targetElement));
  }

  /** Offsets where output axis `k` reads source axis `order[k]`. */
  method PermuteOffsets(linear: nat, shape: Shape, rowStrides: seq<nat>, order: seq<nat>, source: seq<nat>, target: seq<nat>)
    returns (r: Result<(nat, nat)>)
    requires linear < Elements(shape) && rowStrides == RowStrides(shape)
    requires |order| == |source| == |target| == |shape| && IndicesBelow(order, |source|)
    requires Offset(Coords(shape, linear), Pick(source, order)) <= U64_MAX
    requires Offset(Coords(shape, linear), target) <= U64_MAX
    ensures r == Ok((Offset(Coords(shape, linear), Pick(source, order)), Offset(Coords(shape, linear), target)))
  {
    ghost var c, picked := Coords(shape, linear), Pick(source, order);
    var sourceElement: nat, targetElement: nat := 0, 0;
    var axis := 0;
    while axis < |shape|
      invariant 0 <= axis <= |shape|
      invariant sourceElement == Offset(c[..axis], picked[..axis])
      invariant targetElement == Offset(c[..axis], target[..axis])
    {
      LogicalCoordinateIs(shape, linear, axis);
      TermFits(c, picked, axis);
      TermFits(c, target, axis);
      var coordinate :- LogicalCoordinate(linear, axis, shape, rowStrides);
      sourceElement :- CheckedOffsetTerm(sourceElement, coordinate, source[order[axis]]);
      targetElement :- CheckedOffsetTerm(targetElement, coordinate, target[axis]);
      axis := axis + 1;
    }
    assert c[..axis] == c && picked[..axis] == picked && target[..axis] == target;
    return Ok((sourceElement, targetElement));
  }

  /** Offsets where the source coordinate is the range start plus the output coordinate. */
  method SliceOffsets(linear: nat, shape: Shape, rowStrides: seq<nat>, ranges: seq<AxisRange>, source: seq<nat>, target: seq<nat>)
    returns (r: Result<(nat, nat)>)
    requires linear < Elements(shape) && rowStrides == RowStrides(shape)
    requires |ranges| == |source| == |target| == |shape|
    requires forall k :: 0 <= k < |shape| ==> ranges[k].start + shape[k] <= U64_MAX
    requires Offset(Shift(Coords(shape, linear), ranges), source) <= U64_MAX
    requires Offset(Coords(shape, linear), target) <= U64_MAX
    ensures r == Ok((Offset(Shift(Coords(shape, linear), ranges), source), Offset(Coords(shape, linear), target)))
  {
    ghost var c := Coords(shape, linear);
    ghost var d := Shift(c, ranges);
    var sourceElement: nat, targetElement: nat := 0, 0;
    var axis := 0;
    while axis < |shape|
      invariant 0 <= axis <= |shape|
      invariant sourceElement == Offset(d[..axis], source[..axis])
      invariant targetElement == Offset(c[..axis], target[..axis])
    {
      LogicalCoordinateIs(shape, linear, axis);
      TermFits(d, source, axis);
      TermFits(c, target, axis);
      var coordinate :- LogicalCoordinate(linear, axis, shape, rowStrides);
      var sourceCoordinate: nat :- CheckedAdd(ranges[axis].start, coordinate);
      sourceElement :- CheckedOffsetTerm(sourceElement, sourceCoordinate, source[axis]);
      targetElement :- CheckedOffsetTerm(targetElement, coordinate, target[axis]);
      axis := axis + 1;
    }
    assert c[..axis] == c && d[..axis] == d && source[..axis] == source && target[..axis] == target;
    return Ok((sourceElement, targetElement));
  }

  /** Offsets of a concatenation: on `axis` the source coordinate is local to its input. */
  method ConcatOffsets(linear: nat, shape: Shape, rowStrides: seq<nat>, axis: nat, start: nat, source: seq<nat>, target: seq<nat>)
    returns (r: Result<(nat, nat)>)
    requires linear < Elements(shape) && rowStrides == RowStrides(shape) && |source| == |target| == |shape|
    requires axis < |shape| && start <= Coords(shape, linear)[axis]
    requires var c := Coords(shape, linear);
             Offset(c[axis := c[axis] - start], source) <= U64_MAX && Offset(c, target) <= U64_MAX
    ensures var c := Coords(shape, linear);
            r == Ok((Offset(c[axis := c[axis] - start], source), Offset(c, target)))
  {
    ghost var c := Coords(shape, linear);
    ghost var d := c[axis := c[axis] - start];
    var sourceElement: nat, targetElement: nat := 0, 0;
    var k := 0;
    while k < |shape|
      invariant 0 <= k <= |shape|
      invariant sourceElement == Offset(d[..k], source[..k])
      invariant targetElement == Offset(c[..k], target[..k])
    {
      LogicalCoordinateIs(shape, linear, k);
      TermFits(d, source, k);
      TermFits(c, target, k);
      var coordinate :- LogicalCoordinate(linear, k, shape, rowStrides);
      var outputCoordinate := coordinate;
      if k == axis {
        if coordinate < start {
          return Err(Integrity);
        }
        coordinate := coordinate - start;
      }
      sourceElement :- CheckedOffsetTerm(sourceElement, coordinate, source[k]);
      targetElement :- CheckedOffsetTerm(targetElement, outputCoordinate, target[k]);
      k := k + 1;
    }
    assert c[..k] == c && d[..k] == d && source[..k] == source && target[..k] == target;
    return Ok((sourceElement, targetElement));
  }

  // ---------- Kernels ----------

  /** A zeroed buffer of the right length. */
  ghost predicate Zeroed(f: TensorFacts, output: array<byte>)
    reads output
  {
    ValidFacts(f) && output[..] == Zeros(f.byteLen)
  }

  /** The buffer stores a logical tensor, and its padding is zero. */
  ghost predicate Stores(f: TensorFacts, bytes: seq<byte>, t: Tensor) {
    ValidFacts(f) && Sized(f, bytes) && View(f, bytes) == t && PadsZero(f, bytes)
  }

  /** Any two forms that store the same tensor produce the same bytes. */
  lemma StoredBytesAreUnique(f: TensorFacts, t: Tensor, a: seq<byte>, b: seq<byte>)
    requires Stores(f, a, t) && Stores(f, b, t)
    ensures a == b
  {
    hide NewFacts;
    ViewDeterminesBytes(f, a, b);
  }

  /** The first `n` logical elements are in place and nothing else was written. */
  ghost predicate Placed(f: TensorFacts, bytes: seq<byte>, elems: seq<Elem>, n: nat) {
    ValidFacts(f) && Sized(f, bytes) && n <= |elems| == Elements(f.logicalShape)
    && |f.logicalShape| == |f.storageStrides|
    && (StorageIndexIsExact(f);
        Store(f, bytes) == Scattered(seq(Elements(f.storageShape), _ => Zeros(f.Width())), elems,
                                     StorageIndex(f.logicalShape, f.storageStrides), n))
  }

  lemma PlacedInitially(f: TensorFacts, bytes: seq<byte>, elems: seq<Elem>)
    requires ValidFacts(f) && bytes == Zeros(f.byteLen) && |elems| == Elements(f.logicalShape)
    ensures Placed(f, bytes, elems, 0)
  {
    hide NewFacts;
    ValidFactsGuarantee(f);
    ChunksOfZeros(f.Width(), Elements(f.storageShape));
  }

  lemma PlacedFinally(f: TensorFacts, bytes: seq<byte>, t: Tensor)
    requires t.Valid() && t.shape == f.logicalShape && Placed(f, bytes, t.elems, Elements(f.logicalShape))
    ensures Stores(f, bytes, t)
  {
    hide NewFacts;
    StorageIndexIsExact(f);
    ScatteredIsStored(f, bytes, t.elems);
  }

  /** Copies one element to the storage position of logical element `linear`. */
  method PlaceElement(f: TensorFacts, ghost elems: seq<Elem>, linear: nat, input: seq<byte>, sourceElement: nat,
                      output: array<byte>, targetElement: nat, width: nat, ghost n: nat)
    returns (r: Result<()>)
    requires Placed(f, output[..], elems, linear) && linear < |elems| && width == f.Width() > 0
    requires |input| == n * width <= U64_MAX && sourceElement < n
    requires targetElement == Offset(Coords(f.logicalShape, linear), f.storageStrides)
    requires Chunks(input, width, n)[sourceElement] == elems[linear]
    modifies output
    ensures r.Ok? && Placed(f, output[..], elems, linear + 1)
  {
    hide NewFacts;
    ValidFactsGuarantee(f);
    StorageIndexIsExact(f);
    assert StorageIndex(f.logicalShape, f.storageStrides)[linear] == targetElement;
    r := CopyElement(input, sourceElement, output, targetElement, width, n, Elements(f.storageShape));
  }

  /** The view of a buffer at a logical index is its storage at the strided offset. */
  lemma ViewElement(f: TensorFacts, bytes: seq<byte>, linear: nat)
    requires ValidFacts(f) && Sized(f, bytes) && linear < Elements(f.logicalShape)
    ensures |f.storageStrides| == |f.logicalShape|
    ensures Offset(Coords(f.logicalShape, linear), f.storageStrides) < Elements(f.storageShape) <= U64_MAX
    ensures View(f, bytes).elems[linear]
            == Store(f, bytes)[Offset(Coords(f.logicalShape, linear), f.storageStrides)]
  {
    hide NewFacts;
    ValidFactsGuarantee(f);
  }

  lemma TargetFits(f: TensorFacts, linear: nat)
    requires ValidFacts(f) && linear < Elements(f.logicalShape)
    ensures |f.storageStrides| == |f.logicalShape|
    ensures Offset(Coords(f.logicalShape, linear), f.storageStrides) < Elements(f.storageShape) <= U64_MAX
  {
    hide NewFacts;
    ValidFactsGuarantee(f);
  }

  /** Copies logical values into a differently strided storage.  It fails exactly on a wrong
      input length, on different logical shapes, or when the row-major strides of the logical
      shape do not fit, which needs an empty tensor. */
  method ExecuteStorageCopy(inputFacts: TensorFacts, outputFacts: TensorFacts, input: seq<byte>, output: array<byte>)
    returns (r: Result<()>)
    requires ValidFacts(inputFacts) && Zeroed(outputFacts, output) && inputFacts.rep.dtype == outputFacts.rep.dtype
    modifies output
    ensures r.Ok? <==> Sized(inputFacts, input) && inputFacts.logicalShape == outputFacts.logicalShape
                       && SuffixesFit(outputFacts.logicalShape)
    ensures r.Err? && Sized(inputFacts, input) && inputFacts.logicalShape == outputFacts.logicalShape ==>
              r.error == ResourceLimit
    ensures r.Ok? ==> Stores(outputFacts, output[..], View(inputFacts, input))
  {
    hide NewFacts, Placed, View, Elements, RowStrides, Injective, Below;
    ValidFactsGuarantee(inputFacts);
    ValidFactsGuarantee(outputFacts);
    if |input| != inputFacts.byteLen {
      return Err(ViewLength);
    }
    if inputFacts.logicalShape != outputFacts.logicalShape {
      return Err(Integrity);
    }
    var width := inputFacts.Width();
    var shape := outputFacts.logicalShape;
    var rowStrides :- ContiguousStridesLoop(shape);
    ghost var t := View(inputFacts, input);
    PlacedInitially(outputFacts, output[..], t.elems);
    var elements := Elements(shape);
    var linear := 0;
    while linear < elements
      invariant 0 <= linear <= elements
      invariant Placed(outputFacts, output[..], t.elems, linear)
    {
      ViewElement(inputFacts, input, linear);
      TargetFits(outputFacts, linear);
      var at :- StorageCopyOffsets(linear, shape, rowStrides, inputFacts.storageStrides, outputFacts.storageStrides);
      var _ :- PlaceElement(outputFacts, t.elems, linear, input, at.0, output, at.1, width, Elements(inputFacts.storageShape));
      linear := linear + 1;
    }
    PlacedFinally(outputFacts, output[..], t);
    return Ok(());
  }

  lemma PermutedOffset(shape: Shape, order: seq<nat>, c: seq<nat>, strides: seq<nat>)
    requires IsPermutation(order) && |order| == |shape| == |strides| && InBox(c, Pick(shape, order))
    ensures Offset(c, Pick(strides, order)) == Offset(Spread(c, order, |shape|), strides)
  {
    var d := Spread(c, order, |shape|);
    PickSpread(c, order, |shape|);
    OffsetCover(d, strides, order);
  }

  /** One element of a permuted view. */
  lemma PermutedViewElement(f: TensorFacts, bytes: seq<byte>, order: seq<nat>, linear: nat)
    requires ValidFacts(f) && Sized(f, bytes) && IsPermutation(order) && |order| == |f.logicalShape|
    requires linear < Elements(Pick(f.logicalShape, order))
    ensures |f.storageStrides| == |order|
    ensures var source := Offset(Coords(Pick(f.logicalShape, order), linear), Pick(f.storageStrides, order));
            source < Elements(f.storageShape) <= U64_MAX
            && PermuteTensor(View(f, bytes), order).elems[linear] == Store(f, bytes)[source]
  {
    hide NewFacts;
    ValidFactsGuarantee(f);
    var c := Coords(Pick(f.logicalShape, order), linear);
    PermutedCoordsInBox(f.logicalShape, order, c);
    PermutedOffset(f.logicalShape, order, c, f.storageStrides);
    ViewAt(f, bytes, Spread(c, order, |order|));
  }

  /** The permutation kernel: a storage copy for a physical permutation, and a gather through
      `order` for a logical one. */
  method ExecutePermuteBytes(order: seq<nat>, mode: PermuteMode, inputFacts: TensorFacts, outputFacts: TensorFacts,
                             input: seq<byte>, output: array<byte>)
    returns (r: Result<()>)
    requires ValidFacts(inputFacts) && Zeroed(outputFacts, output)
    requires InferPermute(order, mode, inputFacts) == Ok([outputFacts])
    modifies output
    ensures r.Ok? <==> Sized(inputFacts, input) && (mode.Storage? ==> SuffixesFit(outputFacts.logicalShape))
    ensures r.Err? && Sized(inputFacts, input) ==> r.error == ResourceLimit
    ensures r.Ok? ==> IsPermutation(order) && |order| == |inputFacts.logicalShape|
                      && Stores(outputFacts, output[..],
                                if mode.Logical? then PermuteTensor(View(inputFacts, input), order)
                                else View(inputFacts, input))
  {
    hide NewFacts, InferPermute, Placed, View, Elements, RowStrides, Injective, Below;
    PermuteOutput(order, mode, inputFacts);
    if |input| != inputFacts.byteLen {
      return Err(ViewLength);
    }
    if mode.Storage? {
      r := ExecuteStorageCopy(inputFacts, outputFacts, input, output);
      return;
    }
    ValidFactsGuarantee(inputFacts);
    ValidFactsGuarantee(outputFacts);
    var width := inputFacts.Width();
    var shape := outputFacts.logicalShape;
    var rowStrides :- ContiguousStridesLoop(shape);
    ghost var t := PermuteTensor(View(inputFacts, input), order);
    PlacedInitially(outputFacts, output[..], t.elems);
    var elements := Elements(shape);
    var linear := 0;
    while linear < elements
      invariant 0 <= linear <= elements
      invariant Placed(outputFacts, output[..], t.elems, linear)
    {
      PermutedViewElement(inputFacts, input, order, linear);
      TargetFits(outputFacts, linear);
      var at :- PermuteOffsets(linear, shape, rowStrides, order, inputFacts.storageStrides, outputFacts.storageStrides);
      var _ :- PlaceElement(outputFacts, t.elems, linear, input, at.0, output, at.1, width, Elements(inputFacts.storageShape));
      linear := linear + 1;
    }
    PlacedFinally(outputFacts, output[..], t);
    return Ok(());
  }

  /** One element of a sliced view. */
  lemma SlicedViewElement(f: TensorFacts, bytes: seq<byte>, ranges: seq<AxisRange>, linear: nat)
    requires ValidFacts(f) && Sized(f, bytes) && RangesFit(ranges, f.logicalShape)
    requires linear < Elements(RangeLengths(ranges))
    ensures |f.storageStrides| == |ranges|
    ensures var source := Offset(Shift(Coords(RangeLengths(ranges), linear), ranges), f.storageStrides);
            source < Elements(f.storageShape) <= U64_MAX
            && SliceTensor(View(f, bytes), ranges).elems[linear] == Store(f, bytes)[source]
  {
    hide NewFacts;
    ValidFactsGuarantee(f);
    ViewAt(f, bytes, Shift(Coords(RangeLengths(ranges), linear), ranges));
  }

  lemma DimensionFits(shape: Shape, k: nat)
    requires k < |shape| && 0 < Elements(shape) <= U64_MAX
    ensures 0 < shape[k] <= U64_MAX
  {
    RowStrideDivides(shape, k);
    var s, e := RowStrides(shape)[k], Elements(shape[..k]);
    MulMono(1, s, shape[k]);
    assert e * (s * shape[k]) > 0;
    MulMono(1, e, s * shape[k]);
  }

  /** The ranges of a non-empty slice lie below 2^64. */
  lemma NonEmptyRangesFit(ranges: seq<AxisRange>, shape: Shape)
    requires RangesFit(ranges, shape) && Elements(RangeLengths(ranges)) > 0 && Elements(shape) <= U64_MAX
    ensures forall k :: 0 <= k < |ranges| ==> ranges[k].start + RangeLengths(ranges)[k] <= U64_MAX
  {
    var lengths := RangeLengths(ranges);
    forall k | 0 <= k < |ranges| ensures lengths[k] > 0 {
      RowStrideDivides(lengths, k);
    }
    ElementsPositive(shape);
    forall k | 0 <= k < |ranges| ensures ranges[k].start + lengths[k] <= U64_MAX {
      DimensionFits(shape, k);
    }
  }

  /** The slice kernel. */
  method ExecuteSliceBytes(ranges: seq<AxisRange>, inputFacts: TensorFacts, input: seq<byte>,
                           outputFacts: TensorFacts, output: array<byte>)
    returns (r: Result<()>)
    requires ValidFacts(inputFacts) && Zeroed(outputFacts, output) && RangesFit(ranges, inputFacts.logicalShape)
    requires IsContiguousOutput(outputFacts, RangeLengths(ranges), Representation(inputFacts.rep.dtype, Contiguous))
    modifies output
    ensures r.Ok? <==> Sized(inputFacts, input)
    ensures r.Ok? ==> Stores(outputFacts, output[..], SliceTensor(View(inputFacts, input), ranges))
  {
    hide NewFacts, Placed, View, Elements, RowStrides, Injective, Below;
    ValidFactsGuarantee(inputFacts);
    ValidFactsGuarantee(outputFacts);
    if |input| != inputFacts.byteLen {
      return Err(ViewLength);
    }
    var width := inputFacts.Width();
    var shape := outputFacts.logicalShape;
    var rowStrides :- ContiguousStridesLoop(shape);
    ghost var t := SliceTensor(View(inputFacts, input), ranges);
    PlacedInitially(outputFacts, output[..], t.elems);
    var elements := Elements(shape);
    var linear := 0;
    while linear < elements
      invariant 0 <= linear <= elements
      invariant Placed(outputFacts, output[..], t.elems, linear)
    {
      SlicedViewElement(inputFacts, input, ranges, linear);
      NonEmptyRangesFit(ranges, inputFacts.logicalShape);
      TargetFits(outputFacts, linear);
      var at :- SliceOffsets(linear, shape, rowStrides, ranges, inputFacts.storageStrides, outputFacts.storageStrides);
      var _ :- PlaceElement(outputFacts, t.elems, linear, input, at.0, output, at.1, width, Elements(inputFacts.storageShape));
      linear := linear + 1;
    }
    PlacedFinally(outputFacts, output[..], t);
    return Ok(());
  }
}
