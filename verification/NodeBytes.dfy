/** What every operation does to bytes: each element of an output buffer, at its strided position,
    in terms of the input buffers and the operation's own arguments. */
module NodeBytes {
  import opened Checked
  import opened Shapes
  import opened Strides
  import opened Buffers
  import opened Facts
  import opened Operations
  import opened Concatenation
  import opened Graphs
  import opened Evaluation
  import opened NodeExecution
  import opened Execution

  // ---------- Elements of buffers ----------

  /** The bytes at storage position `o`, when the buffer has them. */
  function BytesAt(b: seq<byte>, width: nat, o: nat): Option<seq<byte>> {
    if (o + 1) * width <= |b| && o * width <= (o + 1) * width then Some(b[o * width..(o + 1) * width]) else None
  }

  /** The bytes of the element at coordinate `c`: its position is the sum of coordinates times
      storage strides. */
  function ElementAt(f: TensorFacts, b: seq<byte>, c: seq<nat>): Option<seq<byte>> {
    if |c| == |f.storageStrides| then BytesAt(b, f.Width(), Offset(c, f.storageStrides)) else None
  }

  predicate SameElement(f: TensorFacts, b: seq<byte>, c: seq<nat>, f': TensorFacts, b': seq<byte>, c': seq<nat>) {
    ElementAt(f, b, c).Some? && ElementAt(f, b, c) == ElementAt(f', b', c')
  }

  // ---------- One relation for each operation ----------

  function Moved(c: seq<nat>, ranges: seq<AxisRange>): (r: seq<nat>)
    requires |c| == |ranges|
  {
    seq(|c|, i requires 0 <= i < |c| => ranges[i].start + c[i])
  }

  /** Output element `c` is the input element at range start plus `c`. */
  ghost predicate SliceBytes(ranges: seq<AxisRange>, f: TensorFacts, b: seq<byte>, f': TensorFacts, b': seq<byte>) {
    |ranges| == |f.logicalShape| == |f'.logicalShape|
    && (forall i :: 0 <= i < |ranges| ==>
          ranges[i].start <= ranges[i].end <= f.logicalShape[i] && f'.logicalShape[i] == ranges[i].end - ranges[i].start)
    && forall c :: InBox(c, f'.logicalShape) ==> SameElement(f', b', c, f, b, Moved(c, ranges))
  }

  /** Output element `c` is the input element whose coordinate on the axis is further by the start. */
  ghost predicate SplitBytes(axis: nat, range: AxisRange, f: TensorFacts, b: seq<byte>, f': TensorFacts, b': seq<byte>) {
    axis < |f.logicalShape| && range.start < range.end <= f.logicalShape[axis]
    && f'.logicalShape == f.logicalShape[axis := range.end - range.start]
    && forall c :: InBox(c, f'.logicalShape) ==> SameElement(f', b', c, f, b, c[axis := range.start + c[axis]])
  }

  predicate IsOrder(order: seq<nat>, rank: nat) {
    |order| == rank && (forall k :: 0 <= k < rank ==> order[k] < rank)
    && forall j, k :: 0 <= j < k < rank ==> order[j] != order[k]
  }

  /** Component `k` is the component `order[k]` of the argument. */
  function Reordered(c: seq<nat>, order: seq<nat>): (r: seq<nat>)
    requires IsOrder(order, |c|)
  {
    seq(|order|, k requires 0 <= k < |order| => c[order[k]])
  }

  /** The input element `c` becomes the output element `Reordered(c)`. */
  ghost predicate PermuteBytes(order: seq<nat>, f: TensorFacts, b: seq<byte>, f': TensorFacts, b': seq<byte>) {
    IsOrder(order, |f.logicalShape|) && f'.logicalShape == Reordered(f.logicalShape, order)
    && forall c :: InBox(c, f.logicalShape) ==> SameElement(f', b', Reordered(c, order), f, b, c)
  }

  /** The input element `c` is stored at the row-major position of `Reordered(c)` in the storage
      shape, and keeps its logical coordinate. */
  ghost predicate StoredInOrder(order: seq<nat>, f: TensorFacts, b: seq<byte>, f': TensorFacts, b': seq<byte>) {
    IsOrder(order, |f.logicalShape|) && f'.logicalShape == f.logicalShape && |f'.storageShape| == |order|
    && forall c :: InBox(c, f.logicalShape) ==>
         && SameElement(f', b', c, f, b, c)
         && BytesAt(b', f'.Width(), Linear(f'.storageShape, Reordered(c, order))) == ElementAt(f, b, c)
  }

  /** Every storage position that holds no element is zero. */
  ghost predicate ZeroElsewhere(order: seq<nat>, f: TensorFacts, f': TensorFacts, b': seq<byte>) {
    IsOrder(order, |f.logicalShape|) && |f'.storageShape| == |order|
    && forall o: nat ::
         o < Elements(f'.storageShape) && (forall c :: InBox(c, f.logicalShape) ==> Linear(f'.storageShape, Reordered(c, order)) != o) ==>
           BytesAt(b', f'.Width(), o) == Some(Zeros(f'.Width()))
  }

  /** The lengths of the first `j` inputs along an axis. */
  function LengthBefore(facts: seq<TensorFacts>, axis: nat, j: nat): nat
    requires j <= |facts| && forall i :: 0 <= i < |facts| ==> axis < |facts[i].logicalShape|
  {
    if j == 0 then 0 else LengthBefore(facts, axis, j - 1) + facts[j - 1].logicalShape[axis]
  }

  /** Element `c` of input `j` becomes the output element further on the axis by the lengths before. */
  ghost predicate ConcatBytes(axis: nat, facts: seq<TensorFacts>, args: seq<seq<byte>>, f': TensorFacts, b': seq<byte>) {
    |facts| == |args| >= 2 && (forall i :: 0 <= i < |facts| ==> axis < |facts[i].logicalShape|)
    && (forall i :: 0 <= i < |facts| ==>
          facts[i].logicalShape[axis := LengthBefore(facts, axis, |facts|)] == f'.logicalShape)
    && forall j, c :: 0 <= j < |facts| && InBox(c, facts[j].logicalShape) ==>
         SameElement(f', b', c[axis := LengthBefore(facts, axis, j) + c[axis]], facts[j], args[j], c)
  }

  /** The relation of a node's inputs to its output `o`. */
  ghost predicate NodeComputes(node: Node, facts: seq<TensorFacts>, args: seq<seq<byte>>, provider: Provider, o: nat, b': seq<byte>) {
    o < |node.outputs| && |facts| == |args| > 0
    && (var f, b, f' := facts[0], args[0], node.outputs[o];
        |b'| == f'.byteLen && f'.rep.dtype == (if node.operation.Prepare? then node.operation.transform.target.dtype else f.rep.dtype)
        && match node.operation
           case Concat(axis) => o == 0 && ConcatBytes(axis, facts, args, f', b')
           case Permute(order, Logical) => o == 0 && PermuteBytes(order, f, b, f', b')
           case Permute(order, Storage(_)) =>
             o == 0 && StoredInOrder(order, f, b, f', b') && f'.storageShape == Reordered(f.logicalShape, order)
           case Pad(order, storageShape, _) =>
             o == 0 && StoredInOrder(order, f, b, f', b') && f'.storageShape == storageShape && ZeroElsewhere(order, f, f', b')
           case Slice(ranges) => o == 0 && SliceBytes(ranges, f, b, f', b')
           case Split(axis, ranges) => o < |ranges| && SplitBytes(axis, ranges[o], f, b, f', b')
           case Reshape(shape) => o == 0 && f'.logicalShape == shape && b' == b
           case Prepare(t) =>
             o == 0 && f'.logicalShape == f.logicalShape && provider(t, f.logicalShape, b) == Ok(b') && |b'| == t.outputSize)
  }

  // ---------- Elements are views ----------

  lemma ChunkIs(b: seq<byte>, width: nat, n: nat, o: nat)
    requires |b| == n * width && o < n
    ensures BytesAt(b, width, o) == Some(Chunks(b, width, n)[o])
  {
    ChunkBounds(o, width, n);
  }

  lemma ElementIsView(f: TensorFacts, b: seq<byte>, c: seq<nat>)
    requires ValidFacts(f) && Sized(f, b) && InBox(c, f.logicalShape)
    ensures ElementAt(f, b, c) == Some(View(f, b).At(c))
  {
    hide NewFacts, View;
    ValidFactsGuarantee(f);
    ViewAt(f, b, c);
    ChunkIs(b, f.Width(), Elements(f.storageShape), Offset(c, f.storageStrides));
  }

  lemma ViewsGiveElements(f: TensorFacts, b: seq<byte>, c: seq<nat>, f': TensorFacts, b': seq<byte>, c': seq<nat>)
    requires ValidFacts(f) && Sized(f, b) && InBox(c, f.logicalShape)
    requires ValidFacts(f') && Sized(f', b') && InBox(c', f'.logicalShape)
    requires View(f', b').At(c') == View(f, b).At(c)
    ensures SameElement(f', b', c', f, b, c)
  {
    hide NewFacts, View;
    ElementIsView(f, b, c);
    ElementIsView(f', b', c');
  }

  // ---------- Slices ----------

  lemma SliceAt(t: Tensor, ranges: seq<AxisRange>, c: seq<nat>)
    requires t.Valid() && RangesFit(ranges, t.shape) && InBox(c, RangeLengths(ranges))
    ensures InBox(Moved(c, ranges), t.shape) && SliceTensor(t, ranges).At(c) == t.At(Moved(c, ranges))
  {
    CoordsOfLinear(RangeLengths(ranges), c);
    assert Moved(c, ranges) == Shift(c, ranges);
  }

  lemma SlicedBytes(ranges: seq<AxisRange>, f: TensorFacts, b: seq<byte>, f': TensorFacts, b': seq<byte>)
    requires ValidFacts(f) && Sized(f, b) && ValidFacts(f') && Sized(f', b') && RangesFit(ranges, f.logicalShape)
    requires View(f', b') == SliceTensor(View(f, b), ranges)
    ensures SliceBytes(ranges, f, b, f', b')
  {
    hide NewFacts, View, SliceTensor, ElementAt;
    forall c | InBox(c, f'.logicalShape) ensures SameElement(f', b', c, f, b, Moved(c, ranges)) {
      SliceAt(View(f, b), ranges, c);
      ViewsGiveElements(f, b, Moved(c, ranges), f', b', c);
    }
  }

  lemma SplitOutputBytes(axis: nat, range: AxisRange, f: TensorFacts, b: seq<byte>, f': TensorFacts, b': seq<byte>)
    requires ValidFacts(f) && Sized(f, b) && ValidFacts(f') && Sized(f', b')
    requires axis < |f.logicalShape| && RangeFits(range, f.logicalShape[axis]) && range.start < range.end
    requires View(f', b') == SliceTensor(View(f, b), SplitRanges(f.logicalShape, axis, range))
    ensures SplitBytes(axis, range, f, b, f', b')
  {
    hide NewFacts, View, SliceTensor, ElementAt;
    var ranges := SplitRanges(f.logicalShape, axis, range);
    forall c | InBox(c, f'.logicalShape) ensures SameElement(f', b', c, f, b, c[axis := range.start + c[axis]]) {
      SliceAt(View(f, b), ranges, c);
      assert Moved(c, ranges) == c[axis := range.start + c[axis]];
      ViewsGiveElements(f, b, Moved(c, ranges), f', b', c);
    }
  }

  // ---------- Permutations and padding ----------

  lemma ReorderedIsPick(c: seq<nat>, order: seq<nat>)
    requires IsPermutation(order) && |order| == |c|
    ensures IsOrder(order, |c|) && Reordered(c, order) == Pick(c, order)
  {
  }

  lemma PickUndoes(c: seq<nat>, order: seq<nat>)
    requires IsPermutation(order) && |order| == |c|
    ensures Spread(Pick(c, order), order, |c|) == c
  {
    forall i | 0 <= i < |c| ensures i in order {
      PermutationCovers(order, i);
    }
    SpreadPick(c, order);
  }

  lemma PermutedBytes(order: seq<nat>, f: TensorFacts, b: seq<byte>, f': TensorFacts, b': seq<byte>)
    requires ValidFacts(f) && Sized(f, b) && ValidFacts(f') && Sized(f', b')
    requires IsPermutation(order) && |order| == |f.logicalShape| && View(f', b') == PermuteTensor(View(f, b), order)
    ensures PermuteBytes(order, f, b, f', b')
  {
    hide NewFacts, View, PermuteTensor, ElementAt;
    ReorderedIsPick(f.logicalShape, order);
    forall c | InBox(c, f.logicalShape) ensures SameElement(f', b', Reordered(c, order), f, b, c) {
      ReorderedIsPick(c, order);
      PickUndoes(c, order);
      PermuteAt(View(f, b), order, Pick(c, order));
      ViewsGiveElements(f, b, c, f', b', Pick(c, order));
    }
  }

  /** The storage position under physical strides is the row-major position of the reordered
      coordinate. */
  lemma PhysicalPosition(order: seq<nat>, storageShape: Shape, c: seq<nat>)
    requires IsPermutation(order) && |order| == |storageShape| == |c| && PhysicalStrides(order, storageShape).Ok?
    ensures |PhysicalStrides(order, storageShape).value| == |c|
    ensures Offset(c, PhysicalStrides(order, storageShape).value) == Linear(storageShape, Pick(c, order))
  {
    var rows := RowStrides(storageShape);
    var strides := Spread(rows, order, |order|);
    PickSpread(rows, order, |order|);
    PickUndoes(c, order);
    forall i | 0 <= i < |c| ensures i in order {
      PermutationCovers(order, i);
    }
    OffsetCover(c, strides, order);
    OffsetIsLinear(storageShape, Pick(c, order));
  }

  lemma StoredBytes(order: seq<nat>, f: TensorFacts, b: seq<byte>, f': TensorFacts, b': seq<byte>)
    requires ValidFacts(f) && Sized(f, b) && ValidFacts(f') && Sized(f', b')
    requires IsPermutation(order) && |order| == |f.logicalShape| == |f'.storageShape| && f'.logicalShape == f.logicalShape
    requires PhysicalStrides(order, f'.storageShape) == Ok(f'.storageStrides) && View(f', b') == View(f, b)
    ensures StoredInOrder(order, f, b, f', b')
  {
    hide NewFacts, View, PhysicalStrides;
    forall c | InBox(c, f.logicalShape)
      ensures SameElement(f', b', c, f, b, c)
      ensures BytesAt(b', f'.Width(), Linear(f'.storageShape, Reordered(c, order))) == ElementAt(f, b, c)
    {
      ReorderedIsPick(c, order);
      PhysicalPosition(order, f'.storageShape, c);
      ViewsGiveElements(f, b, c, f', b', c);
    }
  }

  lemma StoredPosition(order: seq<nat>, f': TensorFacts, i: nat)
    requires IsPermutation(order) && |order| == |f'.logicalShape| == |f'.storageShape| == |f'.storageStrides|
    requires PhysicalStrides(order, f'.storageShape) == Ok(f'.storageStrides) && i < Elements(f'.logicalShape)
    ensures var c := Coords(f'.logicalShape, i);
            InBox(c, f'.logicalShape) && IsOrder(order, |c|)
            && StorageIndex(f'.logicalShape, f'.storageStrides)[i] == Linear(f'.storageShape, Reordered(c, order))
  {
    hide PhysicalStrides;
    var c := Coords(f'.logicalShape, i);
    ReorderedIsPick(c, order);
    PhysicalPosition(order, f'.storageShape, c);
  }

  lemma UnusedIsZero(f': TensorFacts, b': seq<byte>, o: nat)
    requires ValidFacts(f') && Sized(f', b') && PadsZero(f', b') && o < Elements(f'.storageShape)
    requires |f'.logicalShape| == |f'.storageStrides| && o !in StorageIndex(f'.logicalShape, f'.storageStrides)
    ensures BytesAt(b', f'.Width(), o) == Some(Zeros(f'.Width()))
  {
    hide NewFacts, StorageIndex;
    ValidFactsGuarantee(f');
    ChunkIs(b', f'.Width(), Elements(f'.storageShape), o);
  }

  lemma PaddingIsZero(order: seq<nat>, f: TensorFacts, f': TensorFacts, b': seq<byte>)
    requires ValidFacts(f') && Sized(f', b') && PadsZero(f', b')
    requires IsPermutation(order) && |order| == |f.logicalShape| == |f'.storageShape| && f'.logicalShape == f.logicalShape
    requires PhysicalStrides(order, f'.storageShape) == Ok(f'.storageStrides)
    ensures ZeroElsewhere(order, f, f', b')
  {
    hide NewFacts, PhysicalStrides, PadsZero, BytesAt, StorageIndex, Linear, Elements;
    ReorderedIsPick(f.logicalShape, order);
    StorageIndexIsExact(f');
    forall o: nat | o < Elements(f'.storageShape)
                    && (forall c :: InBox(c, f.logicalShape) ==> Linear(f'.storageShape, Reordered(c, order)) != o)
      ensures BytesAt(b', f'.Width(), o) == Some(Zeros(f'.Width()))
    {
      var index := StorageIndex(f'.logicalShape, f'.storageStrides);
      forall i | 0 <= i < |index| ensures index[i] != o {
        StoredPosition(order, f', i);
      }
      UnusedIsZero(f', b', o);
    }
  }

  // ---------- Concatenation ----------

  lemma {:induction false} LengthBeforeIsSum(facts: seq<TensorFacts>, axis: nat, j: nat)
    requires j <= |facts| && forall i :: 0 <= i < |facts| ==> axis < |facts[i].logicalShape|
    ensures LengthBefore(facts, axis, j) == Sum(AxisLengthsOf(facts, axis)[..j])
  {
    if j > 0 {
      LengthBeforeIsSum(facts, axis, j - 1);
      Concatenation.SumStep(AxisLengthsOf(facts, axis), j - 1);
    }
  }

  lemma {:induction false} ConcatElement(axis: nat, facts: seq<TensorFacts>, args: seq<seq<byte>>, f': TensorFacts, b': seq<byte>, j: nat, c: seq<nat>)
    requires AllSized(facts, args) && ValidFacts(f') && Sized(f', b') && Joinable(Views(facts, args), axis)
    requires forall i :: 0 <= i < |facts| ==> axis < |facts[i].logicalShape|
    requires View(f', b') == ConcatTensors(Views(facts, args), axis)
    requires j < |facts| && InBox(c, facts[j].logicalShape)
    ensures SameElement(f', b', c[axis := LengthBefore(facts, axis, j) + c[axis]], facts[j], args[j], c)
  {
    hide NewFacts, View, ConcatTensors, SameElement;
    var ts := Views(facts, args);
    var lengths := AxisLengthsOf(facts, axis);
    assert AxisLengths(ShapesOf(ts), axis) == lengths;
    LengthBeforeIsSum(facts, axis, j);
    PieceElement(ts, axis, j, c);
    var d := c[axis := LengthBefore(facts, axis, j) + c[axis]];
    assert Shift(c, PieceRanges(ts, axis, j)) == d;
    ViewsGiveElements(facts[j], args[j], c, f', b', d);
  }

  lemma {:induction false} ConcatShape(axis: nat, facts: seq<TensorFacts>, args: seq<seq<byte>>, f': TensorFacts)
    requires AllSized(facts, args) && Joinable(Views(facts, args), axis)
    requires JoinedShape(Views(facts, args), axis) == f'.logicalShape
    ensures forall i :: 0 <= i < |facts| ==> axis < |facts[i].logicalShape|
    ensures forall i :: 0 <= i < |facts| ==> facts[i].logicalShape[axis := LengthBefore(facts, axis, |facts|)] == f'.logicalShape
  {
    hide NewFacts, View;
    var ts := Views(facts, args);
    forall i | 0 <= i < |facts| ensures axis < |facts[i].logicalShape| {
      assert Joins(ts[i].shape, ts[0].shape, axis);
    }
    var lengths := AxisLengthsOf(facts, axis);
    assert AxisLengths(ShapesOf(ts), axis) == lengths && lengths[..|facts|] == lengths;
    LengthBeforeIsSum(facts, axis, |facts|);
    forall i | 0 <= i < |facts|
      ensures facts[i].logicalShape[axis := LengthBefore(facts, axis, |facts|)] == f'.logicalShape
    {
      assert Joins(ts[i].shape, ts[0].shape, axis);
    }
  }

  lemma {:induction false} ConcatenatedBytes(axis: nat, facts: seq<TensorFacts>, args: seq<seq<byte>>, f': TensorFacts, b': seq<byte>)
    requires |facts| >= 2 && AllSized(facts, args) && ValidFacts(f') && Sized(f', b')
    requires Joinable(Views(facts, args), axis) && View(f', b') == ConcatTensors(Views(facts, args), axis)
    ensures ConcatBytes(axis, facts, args, f', b')
  {
    hide NewFacts, View, ConcatTensors, SameElement, Joinable;
    ConcatShape(axis, facts, args, f');
    forall j, c | 0 <= j < |facts| && InBox(c, facts[j].logicalShape)
      ensures SameElement(f', b', c[axis := LengthBefore(facts, axis, j) + c[axis]], facts[j], args[j], c)
    {
      ConcatElement(axis, facts, args, f', b', j, c);
    }
  }

  // ---------- From the meaning of a node ----------

  /** Two canonical buffers with the same elements are the same bytes. */
  lemma SameElementsSameBytes(f: TensorFacts, b: seq<byte>, f': TensorFacts, b': seq<byte>)
    requires ValidFacts(f) && f.Canonical() && Sized(f, b) && ValidFacts(f') && f'.Canonical() && Sized(f', b')
    requires f.Width() == f'.Width() && Elements(f.logicalShape) == Elements(f'.logicalShape)
    requires View(f', b').elems == View(f, b).elems
    ensures b' == b
  {
    hide NewFacts, View;
    ValidFactsGuarantee(f);
    ValidFactsGuarantee(f');
    CanonicalView(f, b);
    CanonicalView(f', b');
    ChunksDetermineBytes(b, b', f.Width(), Elements(f.storageShape));
  }

  /** The tensors of a node's outputs. */
  ghost predicate Means(node: Node, facts: seq<TensorFacts>, args: seq<seq<byte>>, provider: Provider, o: nat, b': seq<byte>) {
    Runnable(node, facts, args) && o < |node.outputs| && ValidFacts(node.outputs[o]) && Sized(node.outputs[o], b')
    && NodeMeaning(node, facts, args, provider).Ok?
    && o < |NodeMeaning(node, facts, args, provider).value|
    && NodeMeaning(node, facts, args, provider).value[o] == View(node.outputs[o], b')
  }

  lemma ConcatComputes(node: Node, facts: seq<TensorFacts>, args: seq<seq<byte>>, provider: Provider, o: nat, b': seq<byte>)
    requires Means(node, facts, args, provider, o, b') && node.operation.Concat?
    ensures NodeComputes(node, facts, args, provider, o, b')
  {
    hide NewFacts, View, InferConcat, ConcatTensors, ConcatBytes, Joinable;
    var axis := node.operation.axis;
    ConcatOutput(axis, facts);
    assert node.outputs == [node.outputs[0]];
    ConcatIsJoinable(axis, facts, Views(facts, args));
    ConcatenatedBytes(axis, facts, args, node.outputs[0], b');
  }

  lemma PermuteComputes(node: Node, facts: seq<TensorFacts>, args: seq<seq<byte>>, provider: Provider, o: nat, b': seq<byte>)
    requires Means(node, facts, args, provider, o, b') && node.operation.Permute?
    ensures NodeComputes(node, facts, args, provider, o, b')
  {
    hide NewFacts, View, InferPermute, PermuteTensor, PermuteBytes, StoredInOrder, PhysicalStrides;
    var order := node.operation.order;
    UnaryIs(node, facts, args, provider);
    PermuteOutput(order, node.operation.mode, facts[0]);
    ReorderedIsPick(facts[0].logicalShape, order);
    ValidFactsGuarantee(node.outputs[0]);
    if node.operation.mode.Logical? {
      PermutedBytes(order, facts[0], args[0], node.outputs[0], b');
    } else {
      StoredBytes(order, facts[0], args[0], node.outputs[0], b');
    }
  }

  lemma UnaryIs(node: Node, facts: seq<TensorFacts>, args: seq<seq<byte>>, provider: Provider)
    requires Runnable(node, facts, args) && !node.operation.Concat?
    ensures |facts| == |args| == 1 && ValidFacts(facts[0]) && Sized(facts[0], args[0])
    ensures InferOutputs(node.operation, [facts[0]]) == Ok(node.outputs)
    ensures NodeMeaning(node, facts, args, provider)
            == ApplyUnary(node.operation, facts[0], node.outputs, View(facts[0], args[0]), provider)
  {
    hide NewFacts, View, InferConcat, InferPermute, InferPad, InferSlice, InferSplit, InferReshape, InferPrepare, ApplyUnary;
    assert facts == [facts[0]];
    assert Views(facts, args)[0] == View(facts[0], args[0]);
  }

  lemma PadStorage(order: seq<nat>, storageShape: Shape, target: Layout, input: TensorFacts)
    requires InferPad(order, storageShape, target, input).Ok?
    ensures |InferPad(order, storageShape, target, input).value| == 1
    ensures var out := InferPad(order, storageShape, target, input).value[0];
            out.storageShape == storageShape && |order| == |storageShape|
            && PhysicalStrides(order, storageShape) == Ok(out.storageStrides)
  {
    hide NewFacts;
    NewFactsIsValid(input.logicalShape, storageShape, input.logicalStrides, PhysicalStrides(order, storageShape).value,
                    Representation(input.rep.dtype, target), input.rep.dtype.ByteLen(storageShape).value);
  }

  lemma PadComputes(node: Node, facts: seq<TensorFacts>, args: seq<seq<byte>>, provider: Provider, o: nat, b': seq<byte>)
    requires Means(node, facts, args, provider, o, b') && node.operation.Pad? && PadsZero(node.outputs[o], b')
    ensures NodeComputes(node, facts, args, provider, o, b')
  {
    hide NewFacts, View, InferPad, StoredInOrder, ZeroElsewhere, PadsZero, PhysicalStrides;
    var order := node.operation.order;
    UnaryIs(node, facts, args, provider);
    PadOutput(order, node.operation.storageShape, node.operation.target, facts[0]);
    PadStorage(order, node.operation.storageShape, node.operation.target, facts[0]);
    StoredBytes(order, facts[0], args[0], node.outputs[0], b');
    PaddingIsZero(order, facts[0], node.outputs[0], b');
  }

  lemma SliceComputes(node: Node, facts: seq<TensorFacts>, args: seq<seq<byte>>, provider: Provider, o: nat, b': seq<byte>)
    requires Means(node, facts, args, provider, o, b') && (node.operation.Slice? || node.operation.Split?)
    ensures NodeComputes(node, facts, args, provider, o, b')
  {
    hide NewFacts, View, InferSlice, InferSplitFrom, SliceTensor, SliceBytes, SplitBytes, SplitRanges;
    UnaryIs(node, facts, args, provider);
    if node.operation.Slice? {
      SliceOutput(node.operation.ranges, facts[0]);
      SlicedBytes(node.operation.ranges, facts[0], args[0], node.outputs[0], b');
    } else {
      SplitFactsAreContiguous(node.operation.axis, node.operation.ranges, facts[0], 0);
      SplitOutputBytes(node.operation.axis, node.operation.ranges[o], facts[0], args[0], node.outputs[o], b');
    }
  }

  lemma ReshapeComputes(node: Node, facts: seq<TensorFacts>, args: seq<seq<byte>>, provider: Provider, o: nat, b': seq<byte>)
    requires Means(node, facts, args, provider, o, b') && node.operation.Reshape?
    ensures NodeComputes(node, facts, args, provider, o, b')
  {
    hide NewFacts, View, InferReshape;
    UnaryIs(node, facts, args, provider);
    ReshapeOutput(node.operation.shape, facts[0]);
    SameElementsSameBytes(facts[0], args[0], node.outputs[0], b');
  }

  lemma PrepareComputes(node: Node, facts: seq<TensorFacts>, args: seq<seq<byte>>, provider: Provider, o: nat, b': seq<byte>)
    requires Means(node, facts, args, provider, o, b') && node.operation.Prepare?
    ensures NodeComputes(node, facts, args, provider, o, b')
  {
    hide NewFacts, View, InferPrepare;
    UnaryIs(node, facts, args, provider);
    PrepareOutput(node.operation.transform, facts[0]);
    PreparedLength(node.operation.transform, facts[0]);
    NodeExecution.SourceBytes(facts[0], args[0]);
    var prepared := provider(node.operation.transform, facts[0].logicalShape, args[0]).value;
    SameElementsSameBytes(node.outputs[0], prepared, node.outputs[0], b');
  }

  lemma PreparedLength(t: PlannedTransform, input: TensorFacts)
    requires InferPrepare(t, input).Ok? && |InferPrepare(t, input).value| == 1
    ensures InferPrepare(t, input).value[0].byteLen == t.outputSize
  {
    hide NewFacts;
    var strides := ContiguousStrides(input.logicalShape).value;
    NewFactsIsValid(input.logicalShape, input.logicalShape, strides, strides, t.target,
                    t.target.dtype.ByteLen(input.logicalShape).value);
  }

  lemma MeaningComputes(node: Node, facts: seq<TensorFacts>, args: seq<seq<byte>>, provider: Provider, o: nat, b': seq<byte>)
    requires Means(node, facts, args, provider, o, b') && (node.operation.Pad? ==> PadsZero(node.outputs[o], b'))
    ensures NodeComputes(node, facts, args, provider, o, b')
  {
    hide Means, NodeComputes, NewFacts;
    match node.operation
    case Concat(_) => ConcatComputes(node, facts, args, provider, o, b');
    case Permute(_, _) => PermuteComputes(node, facts, args, provider, o, b');
    case Pad(_, _, _) => PadComputes(node, facts, args, provider, o, b');
    case Slice(_) => SliceComputes(node, facts, args, provider, o, b');
    case Split(_, _) => SliceComputes(node, facts, args, provider, o, b');
    case Reshape(_) => ReshapeComputes(node, facts, args, provider, o, b');
    case Prepare(_) => PrepareComputes(node, facts, args, provider, o, b');
  }

  // ---------- Whole executions ----------

  /** Bytes for every value of a graph: an external input's are its own, and each node output's
      are computed from those of the node's inputs. */
  ghost predicate Computed(g: Graph, inputs: seq<seq<byte>>, provider: Provider, trace: map<ValueRef, seq<byte>>)
    requires ValidGraph(g)
  {
    |inputs| == |g.inputs|
    && (forall v :: v in trace <==> Available(g, v, |g.nodes|))
    && (forall i :: 0 <= i < |inputs| ==> trace[Input(i)] == inputs[i] && |inputs[i]| == g.inputs[i].facts.byteLen)
    && forall n, o :: 0 <= n < |g.nodes| && 0 <= o < |g.nodes[n].outputs| ==> ComputedAt(g, provider, trace, n, o)
  }

  ghost predicate ComputedAt(g: Graph, provider: Provider, trace: map<ValueRef, seq<byte>>, n: nat, o: nat)
    requires ValidGraph(g) && n < |g.nodes| && o < |g.nodes[n].outputs|
  {
    NodeIsTyped(g, n);
    var node := g.nodes[n];
    NodeOutput(n, o) in trace && (forall i :: 0 <= i < |node.inputs| ==> node.inputs[i] in trace)
    && NodeComputes(node, AllFacts(g, node.inputs), Bytes(trace, node.inputs), provider, o, trace[NodeOutput(n, o)])
  }

  function Bytes(trace: map<ValueRef, seq<byte>>, refs: seq<ValueRef>): (bytes: seq<seq<byte>>)
    requires forall i :: 0 <= i < |refs| ==> refs[i] in trace
    ensures |bytes| == |refs| && forall i :: 0 <= i < |refs| ==> bytes[i] == trace[refs[i]]
  {
    seq(|refs|, i requires 0 <= i < |refs| => trace[refs[i]])
  }

  /** All values before node `k` hold their evaluation. */
  ghost predicate TraceHolds(g: Graph, inputs: seq<seq<byte>>, provider: Provider, trace: map<ValueRef, seq<byte>>, k: nat)
    requires ValidGraph(g) && InputsSized(g, inputs) && k <= |g.nodes|
  {
    forall v :: (v in trace <==> Available(g, v, k)) && (v in trace ==> Holds(g, inputs, provider, v, trace[v]))
  }

  lemma HeldIsComputed(g: Graph, inputs: seq<seq<byte>>, provider: Provider, trace: map<ValueRef, seq<byte>>, n: nat, o: nat)
    requires ValidGraph(g) && InputsSized(g, inputs) && TraceHolds(g, inputs, provider, trace, |g.nodes|)
    requires n < |g.nodes| && o < |g.nodes[n].outputs|
    ensures ComputedAt(g, provider, trace, n, o)
  {
    hide ValidGraph, NewFacts, InputsSized, Holds, NodeComputes, Means, InferOutputs, PadsZero;
    NodeIsTyped(g, n);
    var node, v := g.nodes[n], NodeOutput(n, o);
    var facts, args := AllFacts(g, node.inputs), Bytes(trace, node.inputs);
    forall i | 0 <= i < |args| ensures Holds(g, inputs, provider, node.inputs[i], args[i]) {
    }
    assert v in trace && Holds(g, inputs, provider, v, trace[v]);
    NodeEvaluates(g, inputs, provider, n, args);
    HeldMeans(g, inputs, provider, n, o, args, trace[v]);
    MeaningComputes(node, facts, args, provider, o, trace[v]);
  }

  lemma HeldMeans(g: Graph, inputs: seq<seq<byte>>, provider: Provider, n: nat, o: nat, args: seq<seq<byte>>, b: seq<byte>)
    requires ValidGraph(g) && InputsSized(g, inputs) && n < |g.nodes| && o < |g.nodes[n].outputs|
    requires AllAvailable(g, g.nodes[n].inputs, |g.nodes|) && Runnable(g.nodes[n], AllFacts(g, g.nodes[n].inputs), args)
    requires EvalNode(g, InputTensors(g, inputs), provider, n)
             == NodeMeaning(g.nodes[n], AllFacts(g, g.nodes[n].inputs), args, provider)
    requires Holds(g, inputs, provider, NodeOutput(n, o), b)
    ensures Means(g.nodes[n], AllFacts(g, g.nodes[n].inputs), args, provider, o, b)
    ensures g.nodes[n].operation.Pad? ==> PadsZero(g.nodes[n].outputs[o], b)
  {
    hide ValidGraph, NewFacts, InputsSized, InputTensors, View, EvalNode, NodeMeaning, InferOutputs, PadsZero;
    ValuesAreValid(g, NodeOutput(n, o));
  }

  lemma HeldTraceIsComputed(g: Graph, inputs: seq<seq<byte>>, provider: Provider, trace: map<ValueRef, seq<byte>>)
    requires ValidGraph(g) && InputsSized(g, inputs) && TraceHolds(g, inputs, provider, trace, |g.nodes|)
    ensures Computed(g, inputs, provider, trace)
  {
    hide ValidGraph, NewFacts, ComputedAt;
    forall n, o | 0 <= n < |g.nodes| && 0 <= o < |g.nodes[n].outputs| ensures ComputedAt(g, provider, trace, n, o) {
      HeldIsComputed(g, inputs, provider, trace, n, o);
    }
    forall i | 0 <= i < |inputs| ensures trace[Input(i)] == inputs[i] && |inputs[i]| == g.inputs[i].facts.byteLen {
      assert Input(i) in trace && Holds(g, inputs, provider, Input(i), trace[Input(i)]);
      assert InputFacts(g)[i] == g.inputs[i].facts;
    }
  }
}
