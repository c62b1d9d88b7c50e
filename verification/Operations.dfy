/** The structural operations: their inferred output facts, and their meaning on logical
    tensors indexed by coordinates. */
module Operations {
  import opened Checked
  import opened FiniteSets
  import opened Shapes
  import opened Strides
  import opened Buffers
  import opened Facts

  datatype AxisRange = AxisRange(start: nat, end: nat)

  datatype PermuteMode = Logical | Storage(target: Layout)

  datatype ImplementationId = ImplementationId(provider: string, operation: string, version: nat)

  /** A size-pinned provider preparation. */
  datatype PlannedTransform = PlannedTransform(
    implementation: ImplementationId,
    source: Representation,
    target: Representation,
    outputSize: nat,
    scratchBytes: nat)

  datatype Operation =
    | Concat(axis: nat)
    | Permute(order: seq<nat>, mode: PermuteMode)
    | Pad(order: seq<nat>, storageShape: Shape, target: Layout)
    | Slice(ranges: seq<AxisRange>)
    | Split(axis: nat, ranges: seq<AxisRange>)
    | Reshape(shape: Shape)
    | Prepare(transform: PlannedTransform)

  /** A provider as a function from a transform, a logical shape and the source bytes. */
  type Provider = (PlannedTransform, Shape, seq<byte>) -> Result<seq<byte>>

  function BuiltinImplementation(op: Operation): ImplementationId {
    match op
    case Prepare(t) => t.implementation
    case Concat(_) => ImplementationId("model-weights", "concat", 1)
    case Permute(_, _) => ImplementationId("model-weights", "permute", 1)
    case Pad(_, _, _) => ImplementationId("model-weights", "pad", 1)
    case Slice(_) => ImplementationId("model-weights", "slice", 1)
    case Split(_, _) => ImplementationId("model-weights", "split", 1)
    case Reshape(_) => ImplementationId("model-weights", "reshape", 1)
  }

  // ---------- Permutations ----------

  predicate IsPermutation(order: seq<nat>) {
    Distinct(order) && IndicesBelow(order, |order|)
  }

  function ValidatePermutation(order: seq<nat>): Result<()> {
    if |order| > U32_MAX then Err(ResourceLimit)
    else if IsPermutation(order) then Ok(())
    else Err(InvalidFormat)
  }

  /** The scan with one `seen` flag per axis. */
  method ValidatePermutationLoop(order: seq<nat>) returns (r: Result<()>)
    ensures r == ValidatePermutation(order)
  {
    if |order| > U32_MAX {
      return Err(ResourceLimit);
    }
    var seen := new bool[|order|](_ => false);
    var k := 0;
    while k < |order|
      invariant 0 <= k <= |order|
      invariant IndicesBelow(order[..k], |order|) && Distinct(order[..k])
      invariant forall i :: 0 <= i < |order| ==> (seen[i] <==> i in order[..k])
    {
      var axis := order[k];
      if axis >= |order| {
        return Err(InvalidFormat);
      }
      if seen[axis] {
        var j :| 0 <= j < k && order[..k][j] == axis;
        assert order[j] == order[k];
        return Err(InvalidFormat);
      }
      seen[axis] := true;
      assert order[..k + 1] == order[..k] + [axis];
      k := k + 1;
    }
    assert order[..k] == order;
    return Ok(());
  }

  ghost function SetBelow(n: nat): (s: set<nat>)
    ensures |s| == n && forall i :: i in s <==> 0 <= i < n
  {
    if n == 0 then {} else SetBelow(n - 1) + {n - 1}
  }

  ghost function SetOf(a: seq<nat>): (s: set<nat>)
    requires Distinct(a)
    ensures |s| == |a| && forall i :: i in s <==> i in a
  {
    if a == [] then {} else SetOf(a[..|a| - 1]) + {a[|a| - 1]}
  }

  /** A permutation lists every axis. */
  lemma PermutationCovers(order: seq<nat>, i: nat)
    requires IsPermutation(order) && i < |order|
    ensures i in order
  {
    var s, all := SetOf(order), SetBelow(|order|);
    forall j | j in s ensures j in all {
      var k :| 0 <= k < |order| && order[k] == j;
    }
    if i !in s {
      assert |s| <= |all - {i}| by {
        SubsetSize(s, all - {i});
      }
    }
  }

  predicate IsIdentityOrder(order: seq<nat>) {
    forall k :: 0 <= k < |order| ==> order[k] == k
  }

  lemma PermutedCoordsInBox(shape: Shape, order: seq<nat>, c: seq<nat>)
    requires IsPermutation(order) && |order| == |shape| && InBox(c, Pick(shape, order))
    ensures InBox(Spread(c, order, |shape|), shape)
  {
    forall i | 0 <= i < |shape| ensures Spread(c, order, |shape|)[i] < shape[i] {
      PermutationCovers(order, i);
      assert c[IndexOf(order, i)] < Pick(shape, order)[IndexOf(order, i)];
    }
  }

  // ---------- Inference of output facts ----------

  function InferOutputs(op: Operation, inputs: seq<TensorFacts>): Result<seq<TensorFacts>> {
    match op
    case Concat(axis) => InferConcat(axis, inputs)
    case _ =>
      if |inputs| != 1 then Err(Binding)
      else
        match op
        case Permute(order, mode) => InferPermute(order, mode, inputs[0])
        case Pad(order, storageShape, target) => InferPad(order, storageShape, target, inputs[0])
        case Slice(ranges) => InferSlice(ranges, inputs[0])
        case Split(axis, ranges) => InferSplit(axis, ranges, inputs[0])
        case Reshape(shape) => InferReshape(shape, inputs[0])
        case Prepare(t) => InferPrepare(t, inputs[0])
        case Concat(_) => Err(Binding)
  }

  /** Storage strides of a layout whose physical axes are the logical axes in `order`. */
  function PhysicalStrides(order: seq<nat>, storageShape: Shape): Result<seq<nat>>
    requires |order| == |storageShape|
  {
    var physical :- ContiguousStrides(storageShape);
    Ok(Spread(physical, order, |order|))
  }

  /** No physical dimension is below the logical one it stores. */
  predicate PadsEnough(order: seq<nat>, logical: Shape, physical: Shape)
    requires |order| == |physical| && IndicesBelow(order, |logical|)
  {
    forall k :: 0 <= k < |order| ==> physical[k] >= logical[order[k]]
  }

  function InferPad(order: seq<nat>, storageShape: Shape, target: Layout, input: TensorFacts): Result<seq<TensorFacts>> {
    var _ :- ValidatePermutation(order);
    if |order| != |input.logicalShape| || |storageShape| != |input.logicalShape| then Err(Binding)
    else if target.Contiguous? then Err(Binding)
    else if !PadsEnough(order, input.logicalShape, storageShape) then Err(Binding)
    else if storageShape == Pick(input.logicalShape, order) then Err(Binding)
    else
      var strides :- PhysicalStrides(order, storageShape);
      var dtype := input.rep.dtype;
      var byteLen :- dtype.ByteLen(storageShape);
      var out :- NewFacts(input.logicalShape, storageShape, input.logicalStrides, strides,
                          Representation(dtype, target), byteLen);
      Ok([out])
  }

  function InferPermute(order: seq<nat>, mode: PermuteMode, input: TensorFacts): Result<seq<TensorFacts>> {
    var _ :- ValidatePermutation(order);
    if |order| != |input.logicalShape| then Err(Binding)
    else
      var dtype := input.rep.dtype;
      var shape := Pick(input.logicalShape, order);
      match mode
      case Logical =>
        var out :- ContiguousFacts(shape, Representation(dtype, Contiguous));
        Ok([out])
      case Storage(target) =>
        if target.Contiguous? && !IsIdentityOrder(order) then Err(Binding)
        else
          var strides :- PhysicalStrides(order, shape);
          var byteLen :- dtype.ByteLen(shape);
          var out :- NewFacts(input.logicalShape, shape, input.logicalStrides, strides,
                              Representation(dtype, target), byteLen);
          Ok([out])
  }

  /** The concatenated axis length, with the compatibility checks made input by input. */
  function ConcatLength(axis: nat, first: TensorFacts, inputs: seq<TensorFacts>, length: nat): Result<nat>
    requires axis < |first.logicalShape|
  {
    if inputs == [] then Ok(length)
    else
      var input := inputs[0];
      if |input.logicalShape| != |first.logicalShape| then Err(Binding)
      else if input.rep.dtype != first.rep.dtype then Err(Binding)
      else if exists i :: 0 <= i < |first.logicalShape| && i != axis && input.logicalShape[i] != first.logicalShape[i]
      then Err(Binding)
      else
        var next :- CheckedAdd(length, input.logicalShape[axis]);
        ConcatLength(axis, first, inputs[1..], next)
  }

  function InferConcat(axis: nat, inputs: seq<TensorFacts>): Result<seq<TensorFacts>> {
    if |inputs| < 2 then Err(Binding)
    else if axis >= |inputs[0].logicalShape| then Err(Binding)
    else
      var length :- ConcatLength(axis, inputs[0], inputs, 0);
      var out :- ContiguousFacts(inputs[0].logicalShape[axis := length],
                                 Representation(inputs[0].rep.dtype, Contiguous));
      Ok([out])
  }

  predicate RangeFits(range: AxisRange, dimension: nat) {
    range.start <= range.end <= dimension
  }

  predicate RangesFit(ranges: seq<AxisRange>, shape: Shape) {
    |ranges| == |shape| && forall i :: 0 <= i < |shape| ==> RangeFits(ranges[i], shape[i])
  }

  function RangeLengths(ranges: seq<AxisRange>): (r: Shape)
    requires forall i :: 0 <= i < |ranges| ==> ranges[i].start <= ranges[i].end
    ensures |r| == |ranges|
  {
    seq(|ranges|, i requires 0 <= i < |ranges| => ranges[i].end - ranges[i].start)
  }

  function InferSlice(ranges: seq<AxisRange>, input: TensorFacts): Result<seq<TensorFacts>> {
    if !RangesFit(ranges, input.logicalShape) then Err(Binding)
    else
      var out :- ContiguousFacts(RangeLengths(ranges), Representation(input.rep.dtype, Contiguous));
      Ok([out])
  }

  function InferSplitFrom(axis: nat, ranges: seq<AxisRange>, input: TensorFacts, previousEnd: nat): Result<seq<TensorFacts>>
    requires axis < |input.logicalShape|
  {
    if ranges == [] then Ok([])
    else
      var range := ranges[0];
      if range.start == range.end then Err(Binding)
      else if !RangeFits(range, input.logicalShape[axis]) then Err(Binding)
      else if range.start < previousEnd then Err(Binding)
      else
        var out :- ContiguousFacts(input.logicalShape[axis := range.end - range.start],
                                   Representation(input.rep.dtype, Contiguous));
        var rest :- InferSplitFrom(axis, ranges[1..], input, range.end);
        Ok([out] + rest)
  }

  function InferSplit(axis: nat, ranges: seq<AxisRange>, input: TensorFacts): Result<seq<TensorFacts>> {
    if axis >= |input.logicalShape| then Err(Binding)
    else
      var outs :- InferSplitFrom(axis, ranges, input, 0);
      if outs == [] then Err(Binding) else Ok(outs)
  }

  function InferReshape(shape: Shape, input: TensorFacts): Result<seq<TensorFacts>> {
    if !input.Canonical() then Err(Binding)
    else if |shape| > U32_MAX then Err(ResourceLimit)
    else
      var elements :- CheckedElements(shape);
      if elements != Elements(input.logicalShape) then Err(Binding)
      else
        var out :- ContiguousFacts(shape, input.rep);
        Ok([out])
  }

  function InferPrepare(t: PlannedTransform, input: TensorFacts): Result<seq<TensorFacts>> {
    if !input.Canonical() then Err(Binding)
    else if t.source != input.rep then Err(Binding)
    else if !t.source.layout.Contiguous? || !t.target.layout.Contiguous? then Err(Binding)
    else
      var expected :- t.target.dtype.ByteLen(input.logicalShape);
      if t.outputSize != expected then Err(Binding)
      else
        var out :- ContiguousFacts(input.logicalShape, t.target);
        Ok([out])
  }

  predicate IsContiguousOutput(out: TensorFacts, shape: Shape, rep: Representation) {
    ValidFacts(out) && out.Canonical() && out.logicalShape == shape && out.rep == rep
  }

  /** Storage operations keep the logical shape, the logical strides and the dtype. */
  predicate IsRestoredOutput(out: TensorFacts, input: TensorFacts) {
    ValidFacts(out) && out.logicalShape == input.logicalShape && out.logicalStrides == input.logicalStrides
    && out.rep.dtype == input.rep.dtype
  }

  lemma SliceOutput(ranges: seq<AxisRange>, input: TensorFacts)
    requires InferSlice(ranges, input).Ok?
    ensures RangesFit(ranges, input.logicalShape) && |InferSlice(ranges, input).value| == 1
    ensures IsContiguousOutput(InferSlice(ranges, input).value[0], RangeLengths(ranges),
                               Representation(input.rep.dtype, Contiguous))
  {
    hide NewFacts, ContiguousFacts;
    ContiguousFactsShape(RangeLengths(ranges), Representation(input.rep.dtype, Contiguous));
  }

  lemma PermuteOutput(order: seq<nat>, mode: PermuteMode, input: TensorFacts)
    requires InferPermute(order, mode, input).Ok?
    ensures IsPermutation(order) && |order| == |input.logicalShape| && |InferPermute(order, mode, input).value| == 1
    ensures mode.Logical? ==>
              IsContiguousOutput(InferPermute(order, mode, input).value[0], Pick(input.logicalShape, order),
                                 Representation(input.rep.dtype, Contiguous))
    ensures mode.Storage? ==>
              var out := InferPermute(order, mode, input).value[0];
              IsRestoredOutput(out, input) && out.storageShape == Pick(input.logicalShape, order)
              && PhysicalStrides(order, out.storageShape) == Ok(out.storageStrides)
  {
    hide NewFacts, ContiguousFacts;
    var shape := Pick(input.logicalShape, order);
    ContiguousFactsShape(shape, Representation(input.rep.dtype, Contiguous));
    if mode.Storage? {
      NewFactsIsValid(input.logicalShape, shape, input.logicalStrides, PhysicalStrides(order, shape).value,
                      Representation(input.rep.dtype, mode.target), input.rep.dtype.ByteLen(shape).value);
    }
  }

  lemma PadOutput(order: seq<nat>, storageShape: Shape, target: Layout, input: TensorFacts)
    requires InferPad(order, storageShape, target, input).Ok?
    ensures IsPermutation(order) && |order| == |input.logicalShape|
    ensures |InferPad(order, storageShape, target, input).value| == 1
    ensures IsRestoredOutput(InferPad(order, storageShape, target, input).value[0], input)
  {
    hide NewFacts;
    NewFactsIsValid(input.logicalShape, storageShape, input.logicalStrides, PhysicalStrides(order, storageShape).value,
                    Representation(input.rep.dtype, target), input.rep.dtype.ByteLen(storageShape).value);
  }

  lemma ConcatOutput(axis: nat, inputs: seq<TensorFacts>)
    requires InferConcat(axis, inputs).Ok?
    ensures |inputs| >= 2 && axis < |inputs[0].logicalShape| && ConcatLength(axis, inputs[0], inputs, 0).Ok?
    ensures |InferConcat(axis, inputs).value| == 1
    ensures IsContiguousOutput(InferConcat(axis, inputs).value[0],
                               inputs[0].logicalShape[axis := ConcatLength(axis, inputs[0], inputs, 0).value],
                               Representation(inputs[0].rep.dtype, Contiguous))
  {
    hide NewFacts, ContiguousFacts;
    ContiguousFactsShape(inputs[0].logicalShape[axis := ConcatLength(axis, inputs[0], inputs, 0).value],
                         Representation(inputs[0].rep.dtype, Contiguous));
  }

  lemma ReshapeOutput(shape: Shape, input: TensorFacts)
    requires InferReshape(shape, input).Ok?
    ensures input.Canonical() && Elements(shape) == Elements(input.logicalShape)
    ensures |InferReshape(shape, input).value| == 1
    ensures IsContiguousOutput(InferReshape(shape, input).value[0], shape, input.rep)
  {
    hide NewFacts, ContiguousFacts;
    ContiguousFactsShape(shape, input.rep);
    CheckedElementsIsProduct(shape);
  }

  lemma PrepareOutput(t: PlannedTransform, input: TensorFacts)
    requires InferPrepare(t, input).Ok?
    ensures input.Canonical() && |InferPrepare(t, input).value| == 1
    ensures IsContiguousOutput(InferPrepare(t, input).value[0], input.logicalShape, t.target)
  {
    hide NewFacts, ContiguousFacts;
    ContiguousFactsShape(input.logicalShape, t.target);
  }

  /** Inferred facts are valid facts. */
  lemma InferredFactsAreValid(op: Operation, inputs: seq<TensorFacts>)
    requires InferOutputs(op, inputs).Ok?
    ensures forall i :: 0 <= i < |InferOutputs(op, inputs).value| ==> ValidFacts(InferOutputs(op, inputs).value[i])
  {
    hide NewFacts, ContiguousFacts, InferConcat, InferPermute, InferPad, InferSlice, InferReshape, InferPrepare;
    match op
    case Concat(axis) => ConcatOutput(axis, inputs);
    case Permute(order, mode) => PermuteOutput(order, mode, inputs[0]);
    case Pad(order, storageShape, target) => PadOutput(order, storageShape, target, inputs[0]);
    case Slice(ranges) => SliceOutput(ranges, inputs[0]);
    case Split(axis, ranges) => SplitFactsAreContiguous(axis, ranges, inputs[0], 0);
    case Reshape(shape) => ReshapeOutput(shape, inputs[0]);
    case Prepare(t) => PrepareOutput(t, inputs[0]);
  }

  /** The k-th split output is contiguous with the k-th range length on the split axis. */
  lemma {:induction false} SplitFactsAreContiguous(axis: nat, ranges: seq<AxisRange>, input: TensorFacts, previousEnd: nat)
    requires axis < |input.logicalShape| && InferSplitFrom(axis, ranges, input, previousEnd).Ok?
    ensures var outs := InferSplitFrom(axis, ranges, input, previousEnd).value;
            |outs| == |ranges|
            && forall k :: 0 <= k < |ranges| ==>
                 && RangeFits(ranges[k], input.logicalShape[axis])
                 && ranges[k].start < ranges[k].end
                 && IsContiguousOutput(outs[k], input.logicalShape[axis := ranges[k].end - ranges[k].start],
                                       Representation(input.rep.dtype, Contiguous))
  {
    hide NewFacts, ContiguousFacts;
    if ranges != [] {
      ContiguousFactsShape(input.logicalShape[axis := ranges[0].end - ranges[0].start], Representation(input.rep.dtype, Contiguous));
      SplitFactsAreContiguous(axis, ranges[1..], input, ranges[0].end);
    }
  }

  /** Accepted ranges of a split are in ascending order and do not overlap. */
  lemma {:induction false} SplitRangesAreOrdered(axis: nat, ranges: seq<AxisRange>, input: TensorFacts, previousEnd: nat)
    requires axis < |input.logicalShape| && InferSplitFrom(axis, ranges, input, previousEnd).Ok?
    ensures forall k :: 0 <= k < |ranges| ==> previousEnd <= ranges[k].start <= ranges[k].end
    ensures forall j, k :: 0 <= j < k < |ranges| ==> ranges[j].end <= ranges[k].start
  {
    hide ContiguousFacts;
    if ranges != [] {
      var rest := ranges[1..];
      SplitRangesAreOrdered(axis, rest, input, ranges[0].end);
      forall k | 0 < k < |ranges|
        ensures ranges[0].end <= ranges[k].start <= ranges[k].end
      {
        assert ranges[k] == rest[k - 1];
      }
      forall j, k | 0 < j < k < |ranges|
        ensures ranges[j].end <= ranges[k].start
      {
        assert ranges[j] == rest[j - 1] && ranges[k] == rest[k - 1];
      }
    }
  }

  lemma {:induction false} ConcatLengthSums(axis: nat, first: TensorFacts, inputs: seq<TensorFacts>, length: nat)
    requires axis < |first.logicalShape| && ConcatLength(axis, first, inputs, length).Ok?
    ensures forall i :: 0 <= i < |inputs| ==>
              inputs[i].rep.dtype == first.rep.dtype && Joins(inputs[i].logicalShape, first.logicalShape, axis)
    ensures ConcatLength(axis, first, inputs, length).value
            == length + Sum(AxisLengths(seq(|inputs|, i requires 0 <= i < |inputs| => inputs[i].logicalShape), axis))
  {
    if inputs != [] {
      var shapes := seq(|inputs|, i requires 0 <= i < |inputs| => inputs[i].logicalShape);
      ConcatLengthSums(axis, first, inputs[1..], length + inputs[0].logicalShape[axis]);
      assert shapes[1..] == seq(|inputs[1..]|, i requires 0 <= i < |inputs[1..]| => inputs[1..][i].logicalShape);
      assert AxisLengths(shapes, axis)[1..] == AxisLengths(shapes[1..], axis);
    }
  }

  // ---------- Meaning on logical tensors ----------

  /** `shape` agrees with `first` on every axis but `axis`. */
  predicate Joins(shape: Shape, first: Shape, axis: nat) {
    |shape| == |first| && axis < |first|
    && forall i :: 0 <= i < |first| && i != axis ==> shape[i] == first[i]
  }

  function Sum(s: seq<nat>): nat {
    if s == [] then 0 else s[0] + Sum(s[1..])
  }

  /** The lengths of the shapes along one axis (zero where the axis does not exist). */
  function AxisLengths(shapes: seq<Shape>, axis: nat): (r: seq<nat>)
    ensures |r| == |shapes|
  {
    seq(|shapes|, i requires 0 <= i < |shapes| => if axis < |shapes[i]| then shapes[i][axis] else 0)
  }

  /** Which segment a joined coordinate falls in, and the coordinate inside it. */
  function Locate(lengths: seq<nat>, a: nat): (r: (nat, nat))
    requires a < Sum(lengths)
    ensures r.0 < |lengths| && r.1 < lengths[r.0]
    ensures a == Sum(lengths[..r.0]) + r.1
  {
    if a < lengths[0] then (0, a)
    else
      var r := Locate(lengths[1..], a - lengths[0]);
      assert lengths[..r.0 + 1][0] == lengths[0] && lengths[..r.0 + 1][1..] == lengths[1..][..r.0];
      (r.0 + 1, r.1)
  }

  function Shift(c: seq<nat>, ranges: seq<AxisRange>): (r: seq<nat>)
    requires |c| == |ranges|
    ensures |r| == |c|
  {
    seq(|c|, i requires 0 <= i < |c| => ranges[i].start + c[i])
  }

  /** `out[c] == t[start + c]`. */
  ghost function SliceTensor(t: Tensor, ranges: seq<AxisRange>): (r: Tensor)
    requires t.Valid() && RangesFit(ranges, t.shape)
    ensures r.Valid() && r.shape == RangeLengths(ranges)
  {
    var shape := RangeLengths(ranges);
    Tensor(shape, seq(Elements(shape), l requires 0 <= l < Elements(shape) => t.At(Shift(Coords(shape, l), ranges))))
  }

  function FullRanges(shape: Shape): (r: seq<AxisRange>)
    ensures |r| == |shape|
  {
    seq(|shape|, i requires 0 <= i < |shape| => AxisRange(0, shape[i]))
  }

  /** The ranges of one split output: everything, but `range` on the split axis. */
  function SplitRanges(shape: Shape, axis: nat, range: AxisRange): (r: seq<AxisRange>)
    requires axis < |shape| && RangeFits(range, shape[axis])
    ensures RangesFit(r, shape) && RangeLengths(r) == shape[axis := range.end - range.start]
  {
    FullRanges(shape)[axis := range]
  }

  /** `out[c] == t[d]` where `d[order[k]] == c[k]`. */
  ghost function PermuteTensor(t: Tensor, order: seq<nat>): (r: Tensor)
    requires t.Valid() && IsPermutation(order) && |order| == |t.shape|
    ensures r.Valid() && r.shape == Pick(t.shape, order)
  {
    var shape := Pick(t.shape, order);
    Tensor(shape, seq(Elements(shape), l requires 0 <= l < Elements(shape) =>
      PermutedCoordsInBox(t.shape, order, Coords(shape, l));
      t.At(Spread(Coords(shape, l), order, |t.shape|))))
  }

  ghost function ShapesOf(ts: seq<Tensor>): (r: seq<Shape>)
    ensures |r| == |ts|
  {
    seq(|ts|, i requires 0 <= i < |ts| => ts[i].shape)
  }

  ghost predicate Joinable(ts: seq<Tensor>, axis: nat) {
    ts != [] && axis < |ts[0].shape|
    && forall i :: 0 <= i < |ts| ==> ts[i].Valid() && Joins(ts[i].shape, ts[0].shape, axis)
  }

  ghost function JoinedShape(ts: seq<Tensor>, axis: nat): Shape
    requires Joinable(ts, axis)
  {
    ts[0].shape[axis := Sum(AxisLengths(ShapesOf(ts), axis))]
  }

  /** The element of a concatenation at a joined coordinate. */
  ghost function JoinedAt(ts: seq<Tensor>, axis: nat, c: seq<nat>): Elem
    requires Joinable(ts, axis) && InBox(c, JoinedShape(ts, axis))
  {
    var at := Locate(AxisLengths(ShapesOf(ts), axis), c[axis]);
    ts[at.0].At(c[axis := at.1])
  }

  ghost function ConcatTensors(ts: seq<Tensor>, axis: nat): (r: Tensor)
    requires Joinable(ts, axis)
    ensures r.Valid() && r.shape == JoinedShape(ts, axis)
  {
    var shape := JoinedShape(ts, axis);
    Tensor(shape, seq(Elements(shape), l requires 0 <= l < Elements(shape) => JoinedAt(ts, axis, Coords(shape, l))))
  }

  /** Provider preparation of a logical tensor through its row-major bytes. */
  ghost function PrepareTensor(t: Tensor, transform: PlannedTransform, out: TensorFacts, provider: Provider): (r: Result<Tensor>)
    requires ValidFacts(out) && out.logicalShape == t.shape
    ensures r.Ok? ==> r.value.Valid() && r.value.shape == out.logicalShape
  {
    var bytes :- provider(transform, t.shape, Flatten(t.elems));
    if !Sized(out, bytes) then Err(ViewLength) else Ok(View(out, bytes))
  }

  /** The tensors match the facts they are described by. */
  ghost predicate Described(ts: seq<Tensor>, facts: seq<TensorFacts>) {
    |ts| == |facts|
    && forall i :: 0 <= i < |ts| ==>
         ValidFacts(facts[i]) && ts[i].Valid() && ts[i].shape == facts[i].logicalShape
  }

  lemma ConcatIsJoinable(axis: nat, inputs: seq<TensorFacts>, ts: seq<Tensor>)
    requires InferConcat(axis, inputs).Ok? && Described(ts, inputs)
    ensures |InferConcat(axis, inputs).value| == 1
    ensures Joinable(ts, axis) && JoinedShape(ts, axis) == InferConcat(axis, inputs).value[0].logicalShape
  {
    hide NewFacts, ContiguousFacts, InferConcat;
    ConcatOutput(axis, inputs);
    ConcatLengthSums(axis, inputs[0], inputs, 0);
    assert ShapesOf(ts) == seq(|inputs|, i requires 0 <= i < |inputs| => inputs[i].logicalShape);
  }

  /** The meaning of an operation of one input. */
  ghost function ApplyUnary(op: Operation, input: TensorFacts, outs: seq<TensorFacts>, t: Tensor, provider: Provider)
    : (r: Result<seq<Tensor>>)
    requires !op.Concat? && InferOutputs(op, [input]) == Ok(outs)
    requires t.Valid() && t.shape == input.logicalShape
  {
    match op
    case Permute(order, mode) =>
      PermuteOutput(order, mode, input);
      if mode.Logical? then Ok([PermuteTensor(t, order)]) else Ok([t])
    case Pad(_, _, _) => Ok([t])
    case Slice(ranges) => Ok([SliceTensor(t, ranges)])
    case Split(axis, ranges) =>
      SplitFactsAreContiguous(axis, ranges, input, 0);
      Ok(seq(|ranges|, k requires 0 <= k < |ranges| => SliceTensor(t, SplitRanges(t.shape, axis, ranges[k]))))
    case Reshape(shape) => Ok([Tensor(shape, t.elems)])
    case Prepare(transform) =>
      PrepareOutput(transform, input);
      var out :- PrepareTensor(t, transform, outs[0], provider);
      Ok([out])
  }

  lemma UnaryMeaningIsDescribed(op: Operation, input: TensorFacts, outs: seq<TensorFacts>, t: Tensor, provider: Provider)
    requires !op.Concat? && InferOutputs(op, [input]) == Ok(outs)
    requires t.Valid() && t.shape == input.logicalShape
    ensures var r := ApplyUnary(op, input, outs, t, provider); r.Ok? ==> Described(r.value, outs)
  {
    hide NewFacts, ContiguousFacts, InferPermute, InferPad, InferSlice, InferReshape, InferPrepare;
    hide PermuteTensor, SliceTensor, PrepareTensor, InferSplitFrom;
    match op
    case Permute(order, mode) => PermuteOutput(order, mode, input);
    case Pad(order, storageShape, target) => PadOutput(order, storageShape, target, input);
    case Slice(ranges) => SliceOutput(ranges, input);
    case Split(axis, ranges) => SplitFactsAreContiguous(axis, ranges, input, 0);
    case Reshape(shape) => ReshapeOutput(shape, input);
    case Prepare(transform) => PrepareOutput(transform, input);
  }

  /** The meaning of one operation. */
  ghost function Apply(op: Operation, inputs: seq<TensorFacts>, ts: seq<Tensor>, provider: Provider): (r: Result<seq<Tensor>>)
    requires InferOutputs(op, inputs).Ok? && Described(ts, inputs)
    ensures r.Ok? ==> Described(r.value, InferOutputs(op, inputs).value)
  {
    InferredFactsAreValid(op, inputs);
    if op.Concat? then
      ConcatIsJoinable(op.axis, inputs, ts);
      Ok([ConcatTensors(ts, op.axis)])
    else
      assert inputs == [inputs[0]];
      UnaryMeaningIsDescribed(op, inputs[0], InferOutputs(op, inputs).value, ts[0], provider);
      ApplyUnary(op, inputs[0], InferOutputs(op, inputs).value, ts[0], provider)
  }

  // ---------- Laws of the meaning ----------

  lemma {:induction false} SumSplit(a: seq<nat>, j: nat)
    requires j < |a|
    ensures Sum(a[..j]) + a[j] <= Sum(a)
  {
    if j > 0 {
      SumSplit(a[1..], j - 1);
      assert a[..j][0] == a[0] && a[..j][1..] == a[1..][..j - 1];
    }
  }

  lemma {:induction false} LocateInside(lengths: seq<nat>, j: nat, x: nat)
    requires j < |lengths| && x < lengths[j]
    ensures Sum(lengths[..j]) + x < Sum(lengths)
    ensures Locate(lengths, Sum(lengths[..j]) + x) == (j, x)
  {
    SumSplit(lengths, j);
    if j > 0 {
      LocateInside(lengths[1..], j - 1, x);
      assert lengths[..j][0] == lengths[0] && lengths[..j][1..] == lengths[1..][..j - 1];
    }
  }

  /** The ranges of the j-th input inside a concatenation. */
  ghost function PieceRanges(ts: seq<Tensor>, axis: nat, j: nat): (r: seq<AxisRange>)
    requires Joinable(ts, axis) && j < |ts|
    ensures RangesFit(r, JoinedShape(ts, axis)) && RangeLengths(r) == ts[j].shape
  {
    var lengths := AxisLengths(ShapesOf(ts), axis);
    SumSplit(lengths, j);
    var start := Sum(lengths[..j]);
    SplitRanges(JoinedShape(ts, axis), axis, AxisRange(start, start + lengths[j]))
  }

  lemma PieceElement(ts: seq<Tensor>, axis: nat, j: nat, c: seq<nat>)
    requires Joinable(ts, axis) && j < |ts| && InBox(c, ts[j].shape)
    ensures InBox(Shift(c, PieceRanges(ts, axis, j)), JoinedShape(ts, axis))
    ensures ConcatTensors(ts, axis).At(Shift(c, PieceRanges(ts, axis, j))) == ts[j].At(c)
  {
    var lengths := AxisLengths(ShapesOf(ts), axis);
    LocateInside(lengths, j, c[axis]);
    var d := Shift(c, PieceRanges(ts, axis, j));
    assert d == c[axis := Sum(lengths[..j]) + c[axis]];
    assert d[axis := c[axis]] == c;
    CoordsOfLinear(JoinedShape(ts, axis), d);
  }

  /** Splitting a concatenation at the boundaries of its inputs gives back each input. */
  lemma SplitOfConcat(ts: seq<Tensor>, axis: nat, j: nat)
    requires Joinable(ts, axis) && j < |ts|
    ensures SliceTensor(ConcatTensors(ts, axis), PieceRanges(ts, axis, j)) == ts[j]
  {
    var t := ts[j];
    var back := SliceTensor(ConcatTensors(ts, axis), PieceRanges(ts, axis, j));
    forall l | 0 <= l < Elements(t.shape) ensures back.elems[l] == t.elems[l] {
      PieceElement(ts, axis, j, Coords(t.shape, l));
      LinearOfCoords(t.shape, l);
    }
  }

  lemma SpreadUndone(order: seq<nat>, undo: seq<nat>, c: seq<nat>)
    requires IsPermutation(order) && IsPermutation(undo) && |order| == |undo| == |c|
    requires Pick(order, undo) == seq(|order|, k => k)
    ensures Spread(Spread(c, undo, |c|), order, |c|) == c
  {
    var d := Spread(c, undo, |c|);
    forall i | 0 <= i < |c| ensures Spread(d, order, |c|)[i] == c[i] {
      PermutationCovers(order, i);
      assert Pick(order, undo)[i] == order[undo[i]] == i;
      IndexOfIs(order, undo[i]);
      IndexOfIs(undo, i);
    }
  }

  lemma PermuteAt(t: Tensor, order: seq<nat>, c: seq<nat>)
    requires t.Valid() && IsPermutation(order) && |order| == |t.shape| && InBox(c, Pick(t.shape, order))
    ensures InBox(Spread(c, order, |t.shape|), t.shape)
    ensures PermuteTensor(t, order).At(c) == t.At(Spread(c, order, |t.shape|))
  {
    PermutedCoordsInBox(t.shape, order, c);
    CoordsOfLinear(Pick(t.shape, order), c);
  }

  lemma PickUndone(shape: Shape, order: seq<nat>, undo: seq<nat>)
    requires IsPermutation(order) && IsPermutation(undo) && |order| == |undo| == |shape|
    requires Pick(order, undo) == seq(|order|, k => k)
    ensures Pick(Pick(shape, order), undo) == shape
  {
    forall k | 0 <= k < |shape| ensures Pick(Pick(shape, order), undo)[k] == shape[k] {
      assert Pick(order, undo)[k] == order[undo[k]] == k;
    }
  }

  /** Permuting by an order and then by one that undoes it gives back the tensor. */
  lemma PermuteUndone(t: Tensor, order: seq<nat>, undo: seq<nat>)
    requires t.Valid() && IsPermutation(order) && IsPermutation(undo) && |order| == |undo| == |t.shape|
    requires Pick(order, undo) == seq(|order|, k => k)
    ensures PermuteTensor(PermuteTensor(t, order), undo) == t
  {
    hide PermuteTensor;
    var p := PermuteTensor(t, order);
    var q := PermuteTensor(p, undo);
    PickUndone(t.shape, order, undo);
    forall l | 0 <= l < Elements(t.shape) ensures q.elems[l] == t.elems[l] {
      var c := Coords(t.shape, l);
      PermuteAt(p, undo, c);
      PermuteAt(t, order, Spread(c, undo, |c|));
      SpreadUndone(order, undo, c);
      LinearOfCoords(t.shape, l);
    }
  }
}
