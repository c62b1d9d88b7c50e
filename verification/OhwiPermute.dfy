/** When the OIHW-to-OHWI form applies, and that it stores exactly what the generic storage
    copy stores. */
module OhwiPermute {
  import opened Checked
  import opened Shapes
  import opened Strides
  import opened Buffers
  import opened Facts
  import opened Operations
  import opened Kernels
  import opened Ohwi
  import OhwiSimd

  const OHWI_ORDER: seq<nat> := [0, 2, 3, 1]

  /** The permutation is storage-only, in OHWI order, of canonical input. */
  predicate Applies(order: seq<nat>, mode: PermuteMode, input: TensorFacts) {
    mode.Storage? && order == OHWI_ORDER && input.Canonical()
  }

  /** Input and output facts of an applicable permutation. */
  ghost predicate OhwiFacts(mode: PermuteMode, inputFacts: TensorFacts, outputFacts: TensorFacts) {
    ValidFacts(inputFacts) && Applies(OHWI_ORDER, mode, inputFacts)
    && InferPermute(OHWI_ORDER, mode, inputFacts) == Ok([outputFacts])
  }

  /** Spatial size of an OIHW shape, and the spatial index of a coordinate vector. */
  function Spatial(shape: Shape): nat
    requires |shape| == 4
  {
    shape[2] * shape[3]
  }

  function SpatialIndex(shape: Shape, c: seq<nat>): nat
    requires |shape| == |c| == 4
  {
    Pack(c[2], shape[3], c[3])
  }

  function CountOf(shape: Shape): nat
    requires |shape| == 4
  {
    Count(shape[0], shape[1], Spatial(shape))
  }

  /** Row-major strides of four axes, written out. */
  function Strides4(shape: Shape): seq<nat>
    requires |shape| == 4
  {
    [shape[1] * Spatial(shape), Spatial(shape), shape[3], 1]
  }

  function OhwiShape(shape: Shape): Shape
    requires |shape| == 4
  {
    [shape[0], shape[2], shape[3], shape[1]]
  }

  lemma Unroll(shape: Shape, k: nat)
    requires k < |shape|
    ensures Elements(shape[k..]) == shape[k] * Elements(shape[k + 1..])
    ensures RowStrides(shape[k..]) == [Elements(shape[k + 1..])] + RowStrides(shape[k + 1..])
    ensures SuffixesFit(shape[k..]) ==> Elements(shape[k..]) <= U64_MAX && SuffixesFit(shape[k + 1..])
  {
    assert shape[k..][1..] == shape[k + 1..];
  }

  lemma RowStridesOfFour(shape: Shape)
    requires |shape| == 4
    ensures Elements(shape) == shape[0] * (shape[1] * Spatial(shape)) && RowStrides(shape) == Strides4(shape)
    ensures SuffixesFit(shape) ==> Spatial(shape) <= U64_MAX && shape[1] * Spatial(shape) <= U64_MAX
  {
    assert shape[0..] == shape && shape[4..] == [];
    assert Elements([]) == 1 && RowStrides([]) == [];
    hide Elements, RowStrides, SuffixesFit;
    Unroll(shape, 3);
    var e3, e2 := shape[3], Spatial(shape);
    assert Elements(shape[3..]) == e3;
    Unroll(shape, 2);
    assert Elements(shape[2..]) == e2;
    hide Spatial;
    Unroll(shape, 1);
    Unroll(shape, 0);
    assert RowStrides(shape) == [shape[1] * e2, e2, e3, 1];
  }

  lemma OffsetUnroll(x: seq<nat>, s: seq<nat>, k: nat)
    requires k < |x| == |s|
    ensures Offset(x[k..], s[k..]) == x[k] * s[k] + Offset(x[k + 1..], s[k + 1..])
  {
    assert x[k..][1..] == x[k + 1..] && s[k..][1..] == s[k + 1..];
  }

  lemma OffsetOfFour(x: seq<nat>, s: seq<nat>)
    requires |x| == |s| == 4
    ensures Offset(x, s) == x[0] * s[0] + (x[1] * s[1] + (x[2] * s[2] + x[3] * s[3]))
  {
    assert x[0..] == x && s[0..] == s && x[4..] == [] && s[4..] == [];
    assert Offset([], []) == 0;
    hide Offset;
    OffsetUnroll(x, s, 0);
    OffsetUnroll(x, s, 1);
    OffsetUnroll(x, s, 2);
    OffsetUnroll(x, s, 3);
  }

  lemma SpreadFour(v: seq<nat>)
    requires |v| == 4
    ensures IsPermutation(OHWI_ORDER) && Spread(v, OHWI_ORDER, 4) == [v[0], v[3], v[1], v[2]]
  {
    assert OHWI_ORDER[0] == 0 && OHWI_ORDER[1] == 2 && OHWI_ORDER[2] == 3 && OHWI_ORDER[3] == 1;
    IndexOfIs(OHWI_ORDER, 0);
    IndexOfIs(OHWI_ORDER, 1);
    IndexOfIs(OHWI_ORDER, 2);
    IndexOfIs(OHWI_ORDER, 3);
  }

  /** The storage strides of an OHWI output, by logical axis. */
  function OhwiStrides(shape: Shape): seq<nat>
    requires |shape| == 4
  {
    var v := Strides4(OhwiShape(shape));
    [v[0], v[3], v[1], v[2]]
  }

  lemma OutputOffset(shape: Shape, c: seq<nat>)
    requires |shape| == |c| == 4
    ensures Offset(c, OhwiStrides(shape)) == OutputPosition(c[0], c[1], SpatialIndex(shape, c), shape[1], Spatial(shape))
  {
    OffsetOfFour(c, OhwiStrides(shape));
    hide Offset;
    OutputSum(c[0], c[1], c[2], c[3], shape[1], shape[2], shape[3]);
  }

  lemma OutputSum(o: nat, i: nat, y: nat, x: nat, channels: nat, h: nat, w: nat)
    ensures o * (h * (w * channels)) + (i * 1 + (y * (w * channels) + x * channels))
            == (o * (h * w) + (y * w + x)) * channels + i
  {
    MulAssoc(h, w, channels);
    MulAssoc(o, h * w, channels);
    MulAssoc(y, w, channels);
    var a, b := o * (h * w), y * w;
    assert (a + (b + x)) * channels == a * channels + b * channels + x * channels;
  }

  lemma InputLinear(shape: Shape, c: seq<nat>)
    requires |shape| == |c| == 4
    ensures Linear(shape, c) == InputPosition(c[0], c[1], SpatialIndex(shape, c), shape[1], Spatial(shape))
  {
    OffsetIsLinear(shape, c);
    RowStridesOfFour(shape);
    OffsetOfFour(c, RowStrides(shape));
    hide Linear, Offset, RowStrides;
    InputSum(c[0], c[1], c[2], c[3], shape[1], shape[2], shape[3]);
  }

  lemma InputSum(o: nat, i: nat, y: nat, x: nat, channels: nat, h: nat, w: nat)
    ensures o * (channels * (h * w)) + (i * (h * w) + (y * w + x * 1)) == (o * channels + i) * (h * w) + (y * w + x)
  {
    MulAssoc(o, channels, h * w);
    var s := h * w;
    assert (o * channels + i) * s == (o * channels) * s + i * s;
  }

  /** Shapes and strides of an applicable permutation. */
  lemma OhwiShapes(mode: PermuteMode, inputFacts: TensorFacts, outputFacts: TensorFacts)
    requires OhwiFacts(mode, inputFacts, outputFacts)
    ensures |inputFacts.logicalShape| == 4 && ValidFacts(inputFacts) && inputFacts.Canonical() && ValidFacts(outputFacts)
    ensures outputFacts.logicalShape == inputFacts.logicalShape && outputFacts.Width() == inputFacts.Width()
    ensures outputFacts.storageShape == OhwiShape(inputFacts.logicalShape)
    ensures outputFacts.storageStrides == OhwiStrides(inputFacts.logicalShape)
  {
    hide NewFacts, InferPermute, RowStrides, Strides4;
    PermuteOutput(OHWI_ORDER, mode, inputFacts);
    var shape := inputFacts.logicalShape;
    assert outputFacts.storageShape == OhwiShape(shape);
    RowStridesOfFour(OhwiShape(shape));
    SpreadFour(RowStrides(OhwiShape(shape)));
  }

  /** The element count and the byte lengths of an applicable permutation. */
  lemma OhwiSizes(mode: PermuteMode, inputFacts: TensorFacts, outputFacts: TensorFacts)
    requires OhwiFacts(mode, inputFacts, outputFacts)
    ensures |inputFacts.logicalShape| == 4
    ensures var shape := inputFacts.logicalShape;
            Elements(shape) == CountOf(shape) == Elements(outputFacts.storageShape) <= U64_MAX
            && Spatial(shape) <= U64_MAX && shape[1] * Spatial(shape) <= U64_MAX
            && CountOf(shape) == shape[0] * (shape[1] * Spatial(shape))
            && inputFacts.byteLen == CountOf(shape) * inputFacts.Width() == outputFacts.byteLen <= U64_MAX
  {
    hide NewFacts, InferPermute, OhwiFacts, Elements, SuffixesFit, RowStrides, Count;
    OhwiShapes(mode, inputFacts, outputFacts);
    ValidFactsGuarantee(inputFacts);
    ValidFactsGuarantee(outputFacts);
    var shape := inputFacts.logicalShape;
    RowStridesOfFour(shape);
    RowStridesOfFour(OhwiShape(shape));
    CountCommutes(shape[0], shape[1], Spatial(shape));
    MulAssoc(shape[2], shape[3], shape[1]);
    assert shape[1] * Spatial(shape) == Spatial(shape) * shape[1];
  }

  lemma OhwiSized(mode: PermuteMode, inputFacts: TensorFacts, outputFacts: TensorFacts, input: seq<byte>)
    requires OhwiFacts(mode, inputFacts, outputFacts) && Sized(inputFacts, input)
    ensures |inputFacts.logicalShape| == 4
    ensures var shape := inputFacts.logicalShape;
            Sizes(input, shape[0], shape[1], Spatial(shape), inputFacts.Width())
  {
    hide NewFacts, InferPermute, OhwiFacts, Elements, Count;
    OhwiSizes(mode, inputFacts, outputFacts);
  }

  /** The bytes of the fast form. */
  ghost function OhwiBytes(mode: PermuteMode, inputFacts: TensorFacts, outputFacts: TensorFacts, input: seq<byte>): seq<byte>
    requires OhwiFacts(mode, inputFacts, outputFacts) && Sized(inputFacts, input)
  {
    OhwiSized(mode, inputFacts, outputFacts, input);
    var shape := inputFacts.logicalShape;
    Flatten(Target(input, shape[0], shape[1], Spatial(shape), inputFacts.Width()))
  }

  /** The storage of the fast form is the reordered elements. */
  lemma OhwiStore(mode: PermuteMode, inputFacts: TensorFacts, outputFacts: TensorFacts, input: seq<byte>)
    requires OhwiFacts(mode, inputFacts, outputFacts) && Sized(inputFacts, input)
    ensures ValidFacts(outputFacts) && Sized(outputFacts, OhwiBytes(mode, inputFacts, outputFacts, input))
    ensures |inputFacts.logicalShape| == 4
    ensures var shape := inputFacts.logicalShape;
            Sizes(input, shape[0], shape[1], Spatial(shape), inputFacts.Width())
            && Store(outputFacts, OhwiBytes(mode, inputFacts, outputFacts, input))
               == Target(input, shape[0], shape[1], Spatial(shape), inputFacts.Width())
  {
    hide NewFacts, InferPermute, OhwiFacts, Reordered, Count;
    OhwiShapes(mode, inputFacts, outputFacts);
    OhwiSizes(mode, inputFacts, outputFacts);
    var shape := inputFacts.logicalShape;
    var width, spatial := inputFacts.Width(), Spatial(shape);
    TargetIsWide(input, shape[0], shape[1], spatial, width);
    ChunksOfFlatten(Target(input, shape[0], shape[1], spatial, width), width);
  }

  lemma AllWidePicks(source: seq<Elem>, picked: seq<Elem>, width: nat)
    requires AllWide(source, width) && forall k :: 0 <= k < |picked| ==> picked[k] in source
    ensures AllWide(picked, width)
  {
  }

  lemma TargetIsWide(input: seq<byte>, outer: nat, channels: nat, spatial: nat, width: nat)
    requires Sizes(input, outer, channels, spatial, width)
    ensures AllWide(Target(input, outer, channels, spatial, width), width)
  {
    hide InputPosition, OutputPosition, Count, AllWide;
    var source := Chunks(input, width, Count(outer, channels, spatial));
    ChunksAreWide(input, width, Count(outer, channels, spatial));
    var picked := Target(input, outer, channels, spatial, width);
    forall l | 0 <= l < |picked| ensures picked[l] in source {
      var p := Position(l, outer, channels, spatial);
      PositionsInRange(p.0, p.1, p.2, outer, channels, spatial);
      assert picked[l] == source[InputPosition(p.0, p.1, p.2, channels, spatial)];
    }
    AllWidePicks(source, picked, width);
  }

  /** One logical element is the same through both facts. */
  lemma SameLogicalElement(mode: PermuteMode, inputFacts: TensorFacts, outputFacts: TensorFacts, input: seq<byte>, l: nat)
    requires OhwiFacts(mode, inputFacts, outputFacts) && Sized(inputFacts, input) && l < Elements(inputFacts.logicalShape)
    ensures ValidFacts(inputFacts) && ValidFacts(outputFacts) && outputFacts.logicalShape == inputFacts.logicalShape
    ensures Sized(outputFacts, OhwiBytes(mode, inputFacts, outputFacts, input))
    ensures View(outputFacts, OhwiBytes(mode, inputFacts, outputFacts, input)).elems[l] == View(inputFacts, input).elems[l]
  {
    hide NewFacts, InferPermute, OhwiFacts, Reordered, OhwiBytes, View, Target, Linear, Offset, InputPosition, OutputPosition;
    hide Count, Elements, Spatial, Strides4, SpatialIndex;
    OhwiShapes(mode, inputFacts, outputFacts);
    OhwiSizes(mode, inputFacts, outputFacts);
    OhwiStore(mode, inputFacts, outputFacts, input);
    var shape := inputFacts.logicalShape;
    var c := Coords(shape, l);
    SpatialBound(shape, c);
    OutputOffset(shape, c);
    InputLinear(shape, c);
    LinearOfCoords(shape, l);
    CanonicalView(inputFacts, input);
    ViewElement(outputFacts, OhwiBytes(mode, inputFacts, outputFacts, input), l);
    TargetAt(input, shape[0], shape[1], Spatial(shape), inputFacts.Width(), c[0], c[1], SpatialIndex(shape, c));
  }

  lemma SpatialBound(shape: Shape, c: seq<nat>)
    requires |shape| == 4 && InBox(c, shape)
    ensures SpatialIndex(shape, c) < Spatial(shape)
  {
    PackBound(c[2], shape[2], c[3], shape[3]);
  }

  lemma TargetAt(input: seq<byte>, outer: nat, channels: nat, spatial: nat, width: nat, o: nat, i: nat, s: nat)
    requires Sizes(input, outer, channels, spatial, width) && o < outer && i < channels && s < spatial
    ensures OutputPosition(o, i, s, channels, spatial) < |Target(input, outer, channels, spatial, width)|
    ensures InputPosition(o, i, s, channels, spatial) < Count(outer, channels, spatial)
    ensures Target(input, outer, channels, spatial, width)[OutputPosition(o, i, s, channels, spatial)]
            == Chunks(input, width, Count(outer, channels, spatial))[InputPosition(o, i, s, channels, spatial)]
  {
    ReorderedAt(Chunks(input, width, Count(outer, channels, spatial)), outer, channels, spatial, o, i, s);
  }

  /** Every storage position of the output is reached: there is no padding. */
  lemma OhwiHasNoPadding(mode: PermuteMode, inputFacts: TensorFacts, outputFacts: TensorFacts, p: nat)
    requires OhwiFacts(mode, inputFacts, outputFacts) && p < Elements(outputFacts.storageShape)
    ensures |outputFacts.logicalShape| == |outputFacts.storageStrides|
    ensures p in StorageIndex(outputFacts.logicalShape, outputFacts.storageStrides)
  {
    hide NewFacts, InferPermute, OhwiFacts, Linear, Offset, InputPosition, OutputPosition, Count, Elements, Strides4;
    OhwiShapes(mode, inputFacts, outputFacts);
    OhwiSizes(mode, inputFacts, outputFacts);
    var shape := inputFacts.logicalShape;
    var at := Position(p, shape[0], shape[1], Spatial(shape));
    assert shape[3] > 0;
    DivisionBound(at.2, shape[2], shape[3]);
    Recompose(at.2, shape[3]);
    var c := [at.0, at.1, at.2 / shape[3], at.2 % shape[3]];
    OutputOffset(shape, c);
    CoordsOfLinear(shape, c);
    assert StorageIndex(outputFacts.logicalShape, outputFacts.storageStrides)[Linear(shape, c)] == p;
  }

  /** The fast form stores what the storage permutation means. */
  lemma OhwiBytesStore(mode: PermuteMode, inputFacts: TensorFacts, outputFacts: TensorFacts, input: seq<byte>)
    requires OhwiFacts(mode, inputFacts, outputFacts) && Sized(inputFacts, input)
    ensures ValidFacts(inputFacts)
    ensures Stores(outputFacts, OhwiBytes(mode, inputFacts, outputFacts, input), View(inputFacts, input))
  {
    hide NewFacts, InferPermute, OhwiFacts, OhwiBytes, View, Target;
    OhwiShapes(mode, inputFacts, outputFacts);
    OhwiStore(mode, inputFacts, outputFacts, input);
    var bytes := OhwiBytes(mode, inputFacts, outputFacts, input);
    var t, u := View(inputFacts, input), View(outputFacts, bytes);
    forall l | 0 <= l < Elements(inputFacts.logicalShape) ensures u.elems[l] == t.elems[l] {
      SameLogicalElement(mode, inputFacts, outputFacts, input, l);
    }
    assert u.elems == t.elems;
    StorageIndexIsExact(outputFacts);
    forall p | 0 <= p < Elements(outputFacts.storageShape)
      ensures p in StorageIndex(outputFacts.logicalShape, outputFacts.storageStrides)
    {
      OhwiHasNoPadding(mode, inputFacts, outputFacts, p);
    }
  }

  /** The 3x3 vector kernel takes over. */
  predicate Vectorized(f: TensorFacts, avx2: bool) {
    avx2 && |f.logicalShape| == 4 && Spatial(f.logicalShape) == OhwiSimd.SPATIAL && (f.rep.dtype.F16? || f.rep.dtype.Bf16?)
  }

  /** The byte length of one output channel fits. */
  predicate ChannelFits(f: TensorFacts) {
    |f.logicalShape| == 4 && f.logicalShape[1] * (2 * OhwiSimd.SPATIAL) <= U64_MAX
  }

  /** It always fits unless the tensor is empty. */
  lemma NonEmptyChannelFits(f: TensorFacts)
    requires ValidFacts(f) && f.Canonical() && Vectorized(f, true) && Elements(f.logicalShape) > 0
    ensures ChannelFits(f)
  {
    hide NewFacts, RowStrides, Elements;
    ValidFactsGuarantee(f);
    var shape := f.logicalShape;
    RowStridesOfFour(shape);
    assert Elements(shape) == shape[0] * (shape[1] * OhwiSimd.SPATIAL);
    MulMono(1, shape[0], shape[1] * OhwiSimd.SPATIAL);
  }

  /** The guarded form: nothing when it does not apply, and otherwise the bytes of the generic
      storage copy, or an error exactly on a wrong input length or when one channel of an
      empty tensor does not fit the vector kernel. */
  method BuildOihwToOhwiIfSupported(order: seq<nat>, mode: PermuteMode, inputFacts: TensorFacts, outputFacts: TensorFacts,
                                    input: seq<byte>, avx2: bool)
    returns (r: Result<Option<seq<byte>>>)
    requires ValidFacts(inputFacts) && InferPermute(order, mode, inputFacts) == Ok([outputFacts])
    ensures r.Ok? <==> !Applies(order, mode, inputFacts)
                       || (Sized(inputFacts, input) && (Vectorized(inputFacts, avx2) ==> ChannelFits(inputFacts)))
    ensures r.Err? && Sized(inputFacts, input) ==> r.error == ResourceLimit
    ensures r.Ok? ==> (r.value.Some? <==> Applies(order, mode, inputFacts))
    ensures r.Ok? && r.value.Some? ==> Stores(outputFacts, r.value.value, View(inputFacts, input))
  {
    hide NewFacts, InferPermute, View, Stores, Count, Target, Elements;
    if !mode.Storage? || order != OHWI_ORDER || !inputFacts.Canonical() {
      return Ok(None);
    }
    OhwiShapes(mode, inputFacts, outputFacts);
    OhwiSizes(mode, inputFacts, outputFacts);
    var shape := inputFacts.logicalShape;
    var outer, channels := shape[0], shape[1];
    var spatial: nat :- CheckedMul(shape[2], shape[3]);
    var channelElements: nat :- CheckedMul(channels, spatial);
    var elements: nat :- CheckedMul(outer, channelElements);
    var width := inputFacts.Width();
    var expectedBytes: nat :- CheckedMul(elements, width);
    if |input| != expectedBytes || outputFacts.byteLen != expectedBytes {
      return Err(Integrity);
    }
    OhwiBytesStore(mode, inputFacts, outputFacts, input);
    var bytes;
    if width == 2 && spatial == OhwiSimd.SPATIAL && (inputFacts.rep.dtype.F16? || inputFacts.rep.dtype.Bf16?) && avx2 {
      bytes :- OhwiSimd.Permute3x3(input, outer, channels, avx2);
    } else {
      bytes :- BuildElements(input, outer, channels, spatial, elements, width);
    }
    return Ok(Some(bytes));
  }
}
