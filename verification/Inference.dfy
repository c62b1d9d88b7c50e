/** Which arguments each operation accepts, and the facts of its outputs. */
module Inference {
  import opened Checked
  import opened Shapes
  import opened Strides
  import opened Facts
  import opened Operations

  // ---------- Row-major outputs ----------

  /** Row-major facts of a shape whose size fits. */
  predicate Packed(f: TensorFacts, rep: Representation) {
    && |f.logicalShape| <= U32_MAX && SuffixesFit(f.logicalShape) && PrefixesFit(f.logicalShape)
    && f.storageShape == f.logicalShape
    && f.logicalStrides == f.storageStrides == RowStrides(f.logicalShape)
    && f.rep == rep && rep.layout.Contiguous?
    && f.byteLen == Elements(f.logicalShape) * rep.dtype.Width() <= U64_MAX
  }

  /** Contiguous facts exist exactly for the shapes whose products and byte length fit. */
  lemma PackedExactly(shape: Shape, rep: Representation, f: TensorFacts)
    ensures ContiguousFacts(shape, rep) == Ok(f) <==> f.logicalShape == shape && Packed(f, rep)
  {
    hide NewFacts, Elements, Injective, Below, Onto, Spaced, PrefixesFit, SuffixesFit, CheckedElements;
    CheckedElementsExactly(shape);
    PrefixesFitWhole(shape);
    if rep.layout.Contiguous? && |shape| <= U32_MAX && SuffixesFit(shape) && rep.dtype.ByteLen(shape).Ok? {
      var strides, byteLen := RowStrides(shape), rep.dtype.ByteLen(shape).value;
      if Elements(shape) > 0 {
        RowMajorIsBijection(shape);
        RowMajorIsAccepted(shape);
        StorageAcceptedExactly(shape, strides, Elements(shape));
      }
      FactsAcceptedExactly(shape, shape, strides, strides, rep, byteLen);
      NewFactsIsValid(shape, shape, strides, strides, rep, byteLen);
    }
  }

  // ---------- Outputs with reordered storage ----------

  /** Facts that keep the logical tensor of `input` and store its axes in the physical order
      `order`, row-major over the storage shape. */
  predicate Reordered(f: TensorFacts, input: TensorFacts, order: seq<nat>, target: Layout) {
    && f.logicalShape == input.logicalShape && f.logicalStrides == input.logicalStrides
    && f.rep == Representation(input.rep.dtype, target)
    && |f.storageShape| == |f.storageStrides| == |order|
    && (forall k :: 0 <= k < |order| ==>
          order[k] < |order| && f.storageStrides[order[k]] == RowStrides(f.storageShape)[k])
    && SuffixesFit(f.storageShape) && PrefixesFit(f.storageShape)
    && f.byteLen == Elements(f.storageShape) * input.rep.dtype.Width() <= U64_MAX
  }

  /** A position that is zero up to an axis lies below the stride of that axis. */
  lemma {:induction false} LinearBelowStride(shape: Shape, c: seq<nat>, k: nat)
    requires InBox(c, shape) && k < |shape| && forall j :: 0 <= j <= k ==> c[j] == 0
    ensures Linear(shape, c) < RowStrides(shape)[k]
  {
    CoordsOfLinear(shape[1..], c[1..]);
    if k > 0 {
      LinearBelowStride(shape[1..], c[1..], k - 1);
    }
  }

  /** Row-major strides descend strictly past a varying axis. */
  lemma {:induction false} RowStridesDescend(shape: Shape, j: nat, k: nat)
    requires j < k < |shape| && Elements(shape) > 0 && shape[k] > 1
    ensures RowStrides(shape)[k] < RowStrides(shape)[j]
  {
    TailPositive(shape);
    if j == 0 {
      RowStrideDivides(shape[1..], k - 1);
      var lead, stride := Elements(shape[1..][..k - 1]), RowStrides(shape)[k];
      assert Elements(shape[1..]) == lead * (stride * shape[k]);
      MulMono(1, lead, stride * shape[k]);
      MulMono(2, shape[k], stride);
    } else {
      RowStridesDescend(shape[1..], j - 1, k - 1);
    }
  }

  lemma ReorderedOffset(order: seq<nat>, physical: Shape, c: seq<nat>)
    requires IsPermutation(order) && |order| == |physical| == |c|
    ensures Offset(c, Spread(RowStrides(physical), order, |order|)) == Linear(physical, Pick(c, order))
  {
    var strides := Spread(RowStrides(physical), order, |order|);
    forall i | 0 <= i < |c| ensures i in order {
      PermutationCovers(order, i);
    }
    OffsetCover(c, strides, order);
    PickSpread(RowStrides(physical), order, |order|);
    OffsetIsLinear(physical, Pick(c, order));
  }

  lemma FurthestInBox(logical: Shape, order: seq<nat>, physical: Shape, c: seq<nat>)
    requires IsPermutation(order) && |order| == |physical| == |logical| == |c| && PadsEnough(order, logical, physical)
    requires Elements(logical) > 0 && forall j :: 0 <= j < |c| ==> c[j] == 0 || c[j] == Furthest(logical)[j]
    ensures InBox(Pick(c, order), physical)
  {
    forall k | 0 <= k < |order| ensures Pick(c, order)[k] < physical[k] {
      RowStrideDivides(logical, order[k]);
    }
  }

  /** No storage shape that covers the logical one, in any axis order, has colliding strides. */
  lemma ReorderedIsSpaced(logical: Shape, order: seq<nat>, physical: Shape)
    requires IsPermutation(order) && |order| == |physical| == |logical| && PadsEnough(order, logical, physical)
    requires Elements(logical) > 0
    ensures var strides := Spread(RowStrides(physical), order, |order|);
            Spaced(logical, strides) && Offset(Furthest(logical), strides) < Elements(physical)
  {
    hide Elements, RowStrides, Offset, Linear;
    var strides := Spread(RowStrides(physical), order, |order|);
    PhysicalPositive(logical, order, physical);
    FurthestInBox(logical, order, physical, Furthest(logical));
    ReorderedOffset(order, physical, Furthest(logical));
    CoordsOfLinear(physical, Pick(Furthest(logical), order));
    forall i | 0 <= i < |logical| && logical[i] > 1
      ensures Offset(FurthestBelow(logical, strides, i), strides) < strides[i]
    {
      var c := FurthestBelow(logical, strides, i);
      PermutationCovers(order, i);
      var k := IndexOf(order, i);
      FurthestInBox(logical, order, physical, c);
      ReorderedOffset(order, physical, c);
      forall j | 0 <= j <= k ensures Pick(c, order)[j] == 0 {
        if j < k {
          IndexOfIs(order, j);
          assert logical[order[k]] <= physical[k];
          RowStridesDescend(physical, j, k);
        }
      }
      LinearBelowStride(physical, Pick(c, order), k);
    }
  }

  lemma PhysicalPositive(logical: Shape, order: seq<nat>, physical: Shape)
    requires IsPermutation(order) && |order| == |physical| == |logical| && PadsEnough(order, logical, physical)
    requires Elements(logical) > 0
    ensures Elements(physical) > 0
  {
    forall k | 0 <= k < |physical| ensures physical[k] > 0 {
      RowStrideDivides(logical, order[k]);
    }
    ElementsPositive(physical);
  }

  /** What construction of reordered facts needs of a valid input. */
  lemma ReorderedExactly(input: TensorFacts, order: seq<nat>, physical: Shape, target: Layout, f: TensorFacts)
    requires ValidFacts(input) && IsPermutation(order) && |order| == |physical| == |input.logicalShape|
    requires PadsEnough(order, input.logicalShape, physical)
    requires target.Contiguous? ==> IsIdentityOrder(order) && physical == input.logicalShape
    ensures BuildReordered(input, order, physical, target) == Ok(f)
            <==> f.storageShape == physical && Reordered(f, input, order, target)
  {
    hide NewFacts, Elements, Injective, Below, Onto, Spaced, PrefixesFit, SuffixesFit, CheckedElements, RowStrides, IsIdentityOrder;
    var logical := input.logicalShape;
    var rep := Representation(input.rep.dtype, target);
    CheckedElementsExactly(physical);
    PrefixesFitWhole(physical);
    ValidFactsAre(input);
    StridesOf(order, physical, f.storageStrides);
    if SuffixesFit(physical) && input.rep.dtype.ByteLen(physical).Ok? {
      var strides, byteLen := Spread(RowStrides(physical), order, |order|), input.rep.dtype.ByteLen(physical).value;
      if Elements(logical) > 0 {
        ReorderedIsSpaced(logical, order, physical);
      }
      if target.Contiguous? {
        IdentitySpread(order, RowStrides(physical));
      }
      FactsAcceptedExactly(logical, physical, input.logicalStrides, strides, rep, byteLen);
      NewFactsIsValid(logical, physical, input.logicalStrides, strides, rep, byteLen);
    }
  }

  /** The construction that padding and storage permutation share. */
  function BuildReordered(input: TensorFacts, order: seq<nat>, physical: Shape, target: Layout): Result<TensorFacts>
    requires |order| == |physical|
  {
    var strides :- PhysicalStrides(order, physical);
    var byteLen :- input.rep.dtype.ByteLen(physical);
    NewFacts(input.logicalShape, physical, input.logicalStrides, strides, Representation(input.rep.dtype, target), byteLen)
  }

  lemma IdentitySpread(order: seq<nat>, strides: seq<nat>)
    requires IsPermutation(order) && IsIdentityOrder(order) && |order| == |strides|
    ensures Spread(strides, order, |order|) == strides
  {
    forall i | 0 <= i < |order| ensures Spread(strides, order, |order|)[i] == strides[i] {
      PermutationCovers(order, i);
    }
  }

  lemma ValidFactsAre(f: TensorFacts)
    requires ValidFacts(f)
    ensures |f.logicalShape| <= U32_MAX && |f.logicalShape| == |f.logicalStrides| && PrefixesFit(f.logicalShape)
    ensures Elements(f.logicalShape) > 0 ==>
              && Injective(f.logicalShape, f.logicalStrides)
              && Below(f.logicalShape, f.logicalStrides, Elements(f.logicalShape))
              && Onto(f.logicalShape, f.logicalStrides, Elements(f.logicalShape))
    ensures f.rep.layout.Contiguous? ==> f.storageShape == f.logicalShape && SuffixesFit(f.logicalShape)
  {
    FactsAcceptedExactly(f.logicalShape, f.storageShape, f.logicalStrides, f.storageStrides, f.rep, f.byteLen);
  }

  lemma StridesOf(order: seq<nat>, physical: Shape, strides: seq<nat>)
    requires IsPermutation(order) && |order| == |physical|
    ensures strides == Spread(RowStrides(physical), order, |order|)
            <==> |strides| == |order| && forall k :: 0 <= k < |order| ==> strides[order[k]] == RowStrides(physical)[k]
  {
    PickSpread(RowStrides(physical), order, |order|);
    var s := Spread(RowStrides(physical), order, |order|);
    forall k | 0 <= k < |order| ensures s[order[k]] == RowStrides(physical)[k] {
      assert Pick(s, order)[k] == s[order[k]];
    }
    if |strides| == |order| && forall k :: 0 <= k < |order| ==> strides[order[k]] == RowStrides(physical)[k] {
      forall i | 0 <= i < |order| ensures strides[i] == s[i] {
        PermutationCovers(order, i);
      }
    }
  }

  // ---------- Exactly which arguments are accepted ----------

  lemma SliceAccepted(ranges: seq<AxisRange>, input: TensorFacts, outs: seq<TensorFacts>)
    ensures InferOutputs(Slice(ranges), [input]) == Ok(outs)
            <==> && |ranges| == |input.logicalShape|
                 && (forall i :: 0 <= i < |ranges| ==> ranges[i].start <= ranges[i].end <= input.logicalShape[i])
                 && |outs| == 1 && Packed(outs[0], Representation(input.rep.dtype, Contiguous))
                 && |outs[0].logicalShape| == |ranges|
                 && forall i :: 0 <= i < |ranges| ==> outs[0].logicalShape[i] == ranges[i].end - ranges[i].start
  {
    hide ContiguousFacts, Packed;
    assert [input][0] == input && (|outs| == 1 ==> outs == [outs[0]]);
    if RangesFit(ranges, input.logicalShape) && |outs| == 1 {
      PackedExactly(RangeLengths(ranges), Representation(input.rep.dtype, Contiguous), outs[0]);
    }
  }

  /** The k-th output of a split. */
  predicate SplitPart(out: TensorFacts, input: TensorFacts, axis: nat, range: AxisRange) {
    && range.start < range.end && axis < |input.logicalShape| && range.end <= input.logicalShape[axis]
    && out.logicalShape == input.logicalShape[axis := range.end - range.start]
    && Packed(out, Representation(input.rep.dtype, Contiguous))
  }

  lemma SplitStep(axis: nat, ranges: seq<AxisRange>, input: TensorFacts, previousEnd: nat, outs: seq<TensorFacts>)
    requires axis < |input.logicalShape| && ranges != []
    ensures InferSplitFrom(axis, ranges, input, previousEnd) == Ok(outs)
            <==> && outs != [] && previousEnd <= ranges[0].start
                 && SplitPart(outs[0], input, axis, ranges[0])
                 && InferSplitFrom(axis, ranges[1..], input, ranges[0].end) == Ok(outs[1..])
  {
    hide ContiguousFacts, Packed;
    var range, rep := ranges[0], Representation(input.rep.dtype, Contiguous);
    if range.start < range.end {
      var shape := input.logicalShape[axis := range.end - range.start];
      if outs != [] {
        PackedExactly(shape, rep, outs[0]);
        assert [outs[0]] + outs[1..] == outs;
      }
      if ContiguousFacts(shape, rep).Ok? {
        PackedExactly(shape, rep, ContiguousFacts(shape, rep).value);
      }
    }
  }

  /** The ranges ascend from `previousEnd` without overlapping. */
  predicate Ascends(ranges: seq<AxisRange>, previousEnd: nat) {
    && (ranges != [] ==> previousEnd <= ranges[0].start)
    && forall k :: 0 < k < |ranges| ==> ranges[k - 1].end <= ranges[k].start
  }

  predicate SplitParts(outs: seq<TensorFacts>, input: TensorFacts, axis: nat, ranges: seq<AxisRange>) {
    |outs| == |ranges| && forall k :: 0 <= k < |ranges| ==> SplitPart(outs[k], input, axis, ranges[k])
  }

  lemma SplitCons(outs: seq<TensorFacts>, input: TensorFacts, axis: nat, ranges: seq<AxisRange>, previousEnd: nat)
    requires outs != [] && ranges != []
    ensures Ascends(ranges, previousEnd) <==> previousEnd <= ranges[0].start && (ranges[1..] == [] || Ascends(ranges[1..], ranges[0].end))
    ensures SplitParts(outs, input, axis, ranges)
            <==> SplitPart(outs[0], input, axis, ranges[0]) && SplitParts(outs[1..], input, axis, ranges[1..])
  {
    hide SplitPart;
    var rest, later := ranges[1..], outs[1..];
    assert [ranges[0]] + rest == ranges && [outs[0]] + later == outs;
    if rest != [] && Ascends(rest, ranges[0].end) {
      forall k | 0 < k < |ranges| ensures ranges[k - 1].end <= ranges[k].start {
        assert ranges[k] == rest[k - 1];
        assert k > 1 ==> ranges[k - 1] == rest[k - 2];
      }
    }
    if Ascends(ranges, previousEnd) {
      forall k | 0 < k < |rest| ensures rest[k - 1].end <= rest[k].start {
        assert rest[k] == ranges[k + 1] && rest[k - 1] == ranges[k + 1 - 1];
      }
    }
    if SplitParts(outs, input, axis, ranges) {
      forall k | 0 <= k < |rest| ensures SplitPart(later[k], input, axis, rest[k]) {
        assert SplitPart(outs[k + 1], input, axis, ranges[k + 1]);
      }
    }
    if SplitPart(outs[0], input, axis, ranges[0]) && SplitParts(later, input, axis, rest) {
      forall k | 0 <= k < |ranges| ensures SplitPart(outs[k], input, axis, ranges[k]) {
        if k > 0 {
          assert SplitPart(later[k - 1], input, axis, rest[k - 1]);
        }
      }
    }
  }

  lemma {:induction false} SplitPartsAccepted(axis: nat, ranges: seq<AxisRange>, input: TensorFacts, previousEnd: nat, outs: seq<TensorFacts>)
    requires axis < |input.logicalShape|
    ensures InferSplitFrom(axis, ranges, input, previousEnd) == Ok(outs)
            <==> Ascends(ranges, previousEnd) && SplitParts(outs, input, axis, ranges)
  {
    if ranges != [] {
      SplitStep(axis, ranges, input, previousEnd, outs);
      hide InferSplitFrom, SplitPart;
      if outs != [] {
        SplitPartsAccepted(axis, ranges[1..], input, ranges[0].end, outs[1..]);
        SplitCons(outs, input, axis, ranges, previousEnd);
      }
    }
  }

  /** A split accepts any ascending, non-empty ranges that do not overlap, gaps included. */
  lemma SplitAccepted(axis: nat, ranges: seq<AxisRange>, input: TensorFacts, outs: seq<TensorFacts>)
    ensures InferOutputs(Split(axis, ranges), [input]) == Ok(outs)
            <==> && axis < |input.logicalShape| && ranges != [] && |outs| == |ranges|
                 && (forall k :: 0 < k < |ranges| ==> ranges[k - 1].end <= ranges[k].start)
                 && (forall k :: 0 <= k < |ranges| ==> SplitPart(outs[k], input, axis, ranges[k]))
  {
    hide InferSplitFrom, SplitPart;
    assert [input][0] == input && (|outs| == 1 ==> outs == [outs[0]]);
    if axis < |input.logicalShape| {
      SplitPartsAccepted(axis, ranges, input, 0, outs);
    }
  }

  lemma ReshapeAccepted(shape: Shape, input: TensorFacts, outs: seq<TensorFacts>)
    ensures InferOutputs(Reshape(shape), [input]) == Ok(outs)
            <==> && input.Canonical() && Elements(shape) == Elements(input.logicalShape)
                 && |outs| == 1 && outs[0].logicalShape == shape && Packed(outs[0], input.rep)
  {
    hide ContiguousFacts, CheckedElements, PrefixesFit, SuffixesFit;
    assert [input][0] == input && (|outs| == 1 ==> outs == [outs[0]]);
    CheckedElementsExactly(shape);
    if |outs| == 1 {
      PackedExactly(shape, input.rep, outs[0]);
    }
    if ContiguousFacts(shape, input.rep).Ok? {
      PackedExactly(shape, input.rep, ContiguousFacts(shape, input.rep).value);
    }
  }

  lemma PrepareAccepted(t: PlannedTransform, input: TensorFacts, outs: seq<TensorFacts>)
    ensures InferOutputs(Prepare(t), [input]) == Ok(outs)
            <==> && input.Canonical() && t.source == input.rep && t.target.layout.Contiguous?
                 && t.outputSize == Elements(input.logicalShape) * t.target.dtype.Width()
                 && |outs| == 1 && outs[0].logicalShape == input.logicalShape && Packed(outs[0], t.target)
  {
    hide ContiguousFacts, CheckedElements, PrefixesFit, SuffixesFit;
    assert [input][0] == input && (|outs| == 1 ==> outs == [outs[0]]);
    CheckedElementsExactly(input.logicalShape);
    if |outs| == 1 {
      PackedExactly(input.logicalShape, t.target, outs[0]);
    }
  }

  lemma LogicalPermuteAccepted(order: seq<nat>, input: TensorFacts, outs: seq<TensorFacts>)
    ensures InferOutputs(Permute(order, Logical), [input]) == Ok(outs)
            <==> && |order| == |input.logicalShape| && Distinct(order) && (forall k :: 0 <= k < |order| ==> order[k] < |order|)
                 && |outs| == 1 && Packed(outs[0], Representation(input.rep.dtype, Contiguous))
                 && |outs[0].logicalShape| == |order|
                 && forall k :: 0 <= k < |order| ==> outs[0].logicalShape[k] == input.logicalShape[order[k]]
  {
    hide ContiguousFacts, PrefixesFit, SuffixesFit;
    assert [input][0] == input && (|outs| == 1 ==> outs == [outs[0]]);
    if IsPermutation(order) && |order| == |input.logicalShape| {
      var shape, rep := Pick(input.logicalShape, order), Representation(input.rep.dtype, Contiguous);
      if |outs| == 1 {
        PackedExactly(shape, rep, outs[0]);
      }
    }
  }

  lemma StoragePermuteAccepted(order: seq<nat>, target: Layout, input: TensorFacts, outs: seq<TensorFacts>)
    requires ValidFacts(input)
    ensures InferOutputs(Permute(order, Storage(target)), [input]) == Ok(outs)
            <==> && |order| == |input.logicalShape| && Distinct(order) && (forall k :: 0 <= k < |order| ==> order[k] < |order|)
                 && (target.Contiguous? ==> forall k :: 0 <= k < |order| ==> order[k] == k)
                 && |outs| == 1 && Reordered(outs[0], input, order, target)
                 && forall k :: 0 <= k < |order| ==> outs[0].storageShape[k] == input.logicalShape[order[k]]
  {
    hide NewFacts, PrefixesFit, SuffixesFit, CheckedElements, PhysicalStrides;
    assert [input][0] == input && (|outs| == 1 ==> outs == [outs[0]]);
    ValidFactsAre(input);
    if IsPermutation(order) && |order| == |input.logicalShape| && (target.Contiguous? ==> IsIdentityOrder(order)) && |outs| == 1 {
      var physical := Pick(input.logicalShape, order);
      ReorderedExactly(input, order, physical, target, outs[0]);
    }
  }

  lemma PadAccepted(order: seq<nat>, storageShape: Shape, target: Layout, input: TensorFacts, outs: seq<TensorFacts>)
    requires ValidFacts(input)
    ensures InferOutputs(Pad(order, storageShape, target), [input]) == Ok(outs)
            <==> && |order| == |input.logicalShape| && Distinct(order) && (forall k :: 0 <= k < |order| ==> order[k] < |order|)
                 && target.Custom? && |storageShape| == |order|
                 && (forall k :: 0 <= k < |order| ==> storageShape[k] >= input.logicalShape[order[k]])
                 && (exists k :: 0 <= k < |order| && storageShape[k] > input.logicalShape[order[k]])
                 && |outs| == 1 && outs[0].storageShape == storageShape && Reordered(outs[0], input, order, target)
  {
    hide NewFacts, PrefixesFit, SuffixesFit, CheckedElements, PhysicalStrides;
    assert [input][0] == input && (|outs| == 1 ==> outs == [outs[0]]);
    ValidFactsAre(input);
    if IsPermutation(order) && |order| == |input.logicalShape| == |storageShape| {
      assert storageShape == Pick(input.logicalShape, order)
             <==> forall k :: 0 <= k < |order| ==> storageShape[k] == input.logicalShape[order[k]];
      if target.Custom? && PadsEnough(order, input.logicalShape, storageShape) && |outs| == 1 {
        ReorderedExactly(input, order, storageShape, target, outs[0]);
      }
    }
  }

  lemma {:induction false} ConcatLengthIs(axis: nat, first: TensorFacts, inputs: seq<TensorFacts>, length: nat)
    requires axis < |first.logicalShape| && length <= U64_MAX
    ensures ConcatLength(axis, first, inputs, length).Ok?
            <==> && (forall i :: 0 <= i < |inputs| ==>
                       inputs[i].rep.dtype == first.rep.dtype && Joins(inputs[i].logicalShape, first.logicalShape, axis))
                 && length + Sum(AxisLengths(LogicalShapes(inputs), axis)) <= U64_MAX
    ensures ConcatLength(axis, first, inputs, length).Ok? ==>
              ConcatLength(axis, first, inputs, length).value == length + Sum(AxisLengths(LogicalShapes(inputs), axis))
  {
    if inputs != [] {
      var input := inputs[0];
      assert AxisLengths(LogicalShapes(inputs), axis)[1..] == AxisLengths(LogicalShapes(inputs[1..]), axis);
      if axis < |input.logicalShape| && length + input.logicalShape[axis] <= U64_MAX {
        ConcatLengthIs(axis, first, inputs[1..], length + input.logicalShape[axis]);
      }
      assert (forall i :: 0 <= i < |inputs| ==>
                inputs[i].rep.dtype == first.rep.dtype && Joins(inputs[i].logicalShape, first.logicalShape, axis))
             <==> input.rep.dtype == first.rep.dtype && Joins(input.logicalShape, first.logicalShape, axis)
                  && forall i :: 0 <= i < |inputs[1..]| ==>
                       inputs[1..][i].rep.dtype == first.rep.dtype && Joins(inputs[1..][i].logicalShape, first.logicalShape, axis);
    }
  }

  function LogicalShapes(inputs: seq<TensorFacts>): (r: seq<Shape>)
    ensures |r| == |inputs|
  {
    seq(|inputs|, i requires 0 <= i < |inputs| => inputs[i].logicalShape)
  }

  /** A concatenation accepts two or more inputs of one dtype that agree on every other axis. */
  lemma ConcatAccepted(axis: nat, inputs: seq<TensorFacts>, outs: seq<TensorFacts>)
    ensures InferOutputs(Concat(axis), inputs) == Ok(outs)
            <==> && |inputs| >= 2 && axis < |inputs[0].logicalShape|
                 && (forall i :: 0 <= i < |inputs| ==>
                       inputs[i].rep.dtype == inputs[0].rep.dtype && Joins(inputs[i].logicalShape, inputs[0].logicalShape, axis))
                 && Sum(AxisLengths(LogicalShapes(inputs), axis)) <= U64_MAX
                 && |outs| == 1 && Packed(outs[0], Representation(inputs[0].rep.dtype, Contiguous))
                 && outs[0].logicalShape == inputs[0].logicalShape[axis := Sum(AxisLengths(LogicalShapes(inputs), axis))]
  {
    hide ContiguousFacts, Sum, AxisLengths, Joins, ConcatLength;
    assert |outs| == 1 ==> outs == [outs[0]];
    if |inputs| >= 2 && axis < |inputs[0].logicalShape| {
      ConcatLengthIs(axis, inputs[0], inputs, 0);
      var total := Sum(AxisLengths(LogicalShapes(inputs), axis));
      if |outs| == 1 {
        PackedExactly(inputs[0].logicalShape[axis := total], Representation(inputs[0].rep.dtype, Contiguous), outs[0]);
      }
    }
  }

  /** Only a concatenation takes a number of inputs other than one. */
  lemma OtherAritiesRefused(op: Operation, inputs: seq<TensorFacts>)
    requires !op.Concat? && |inputs| != 1
    ensures InferOutputs(op, inputs) == Err(Binding)
  {
  }
}
