/** Concatenation: the generic element kernel, the contiguous byte-range form, and their
    equality. */
module Concatenation {
  import opened Checked
  import opened Shapes
  import opened Strides
  import opened Buffers
  import opened Facts
  import opened Operations
  import opened Kernels

  ghost predicate AllSized(facts: seq<TensorFacts>, inputs: seq<seq<byte>>) {
    |facts| == |inputs| && forall i :: 0 <= i < |facts| ==> ValidFacts(facts[i]) && Sized(facts[i], inputs[i])
  }

  /** The logical tensors of the inputs. */
  ghost function Views(facts: seq<TensorFacts>, inputs: seq<seq<byte>>): (ts: seq<Tensor>)
    requires AllSized(facts, inputs)
    ensures Described(ts, facts)
  {
    seq(|facts|, i requires 0 <= i < |facts| => View(facts[i], inputs[i]))
  }

  function AxisLengthsOf(facts: seq<TensorFacts>, axis: nat): (r: seq<nat>)
    requires forall i :: 0 <= i < |facts| ==> axis < |facts[i].logicalShape|
    ensures |r| == |facts|
  {
    seq(|facts|, i requires 0 <= i < |facts| => facts[i].logicalShape[axis])
  }

  method CheckLengths(facts: seq<TensorFacts>, inputs: seq<seq<byte>>) returns (r: Result<()>)
    requires forall i :: 0 <= i < |facts| ==> ValidFacts(facts[i])
    ensures r.Ok? <==> AllSized(facts, inputs)
  {
    if |facts| != |inputs| {
      return Err(Integrity);
    }
    var i := 0;
    while i < |facts|
      invariant 0 <= i <= |facts|
      invariant forall k :: 0 <= k < i ==> Sized(facts[k], inputs[k])
    {
      if |inputs[i]| != facts[i].byteLen {
        return Err(ViewLength);
      }
      i := i + 1;
    }
    return Ok(());
  }

  lemma {:induction false} ConcatLengthFits(axis: nat, first: TensorFacts, inputs: seq<TensorFacts>, length: nat)
    requires axis < |first.logicalShape| && ConcatLength(axis, first, inputs, length).Ok? && length <= U64_MAX
    ensures ConcatLength(axis, first, inputs, length).value <= U64_MAX
  {
    if inputs != [] {
      ConcatLengthFits(axis, first, inputs[1..], length + inputs[0].logicalShape[axis]);
    }
  }

  /** What inference guarantees about concatenation inputs. */
  lemma ConcatInputs(axis: nat, facts: seq<TensorFacts>, out: TensorFacts)
    requires InferConcat(axis, facts) == Ok([out])
    ensures |facts| >= 2 && ValidFacts(out) && out.Canonical() && axis < |out.logicalShape|
    ensures forall i :: 0 <= i < |facts| ==>
              facts[i].rep.dtype == out.rep.dtype && Joins(facts[i].logicalShape, facts[0].logicalShape, axis)
    ensures forall i :: 0 <= i < |facts| ==> axis < |facts[i].logicalShape|
    ensures out.logicalShape == facts[0].logicalShape[axis := Sum(AxisLengthsOf(facts, axis))]
    ensures Sum(AxisLengthsOf(facts, axis)) <= U64_MAX
  {
    hide NewFacts, InferConcat;
    ConcatOutput(axis, facts);
    ConcatLengthSums(axis, facts[0], facts, 0);
    ConcatLengthFits(axis, facts[0], facts, 0);
    var shapes := seq(|facts|, i requires 0 <= i < |facts| => facts[i].logicalShape);
    assert AxisLengths(shapes, axis) == AxisLengthsOf(facts, axis);
  }

  lemma {:induction false} SumStep(a: seq<nat>, i: nat)
    requires i < |a|
    ensures Sum(a[..i + 1]) == Sum(a[..i]) + a[i] <= Sum(a)
  {
    if i == 0 {
      assert a[..1][1..] == [];
    } else {
      SumStep(a[1..], i - 1);
      assert a[..i][1..] == a[1..][..i - 1] && a[..i + 1][1..] == a[1..][..i];
    }
  }

  /** Start of every input on the joined axis. */
  method AxisStarts(lengths: seq<nat>) returns (r: Result<seq<nat>>)
    requires Sum(lengths) <= U64_MAX
    ensures r.Ok? && |r.value| == |lengths|
    ensures forall i :: 0 <= i < |lengths| ==> r.value[i] == Sum(lengths[..i])
  {
    var starts: seq<nat> := [];
    var next: nat := 0;
    var i := 0;
    while i < |lengths|
      invariant 0 <= i <= |lengths| && |starts| == i && next == Sum(lengths[..i])
      invariant forall k :: 0 <= k < i ==> starts[k] == Sum(lengths[..k])
    {
      SumStep(lengths, i);
      starts := starts + [next];
      next :- CheckedAdd(next, lengths[i]);
      i := i + 1;
    }
    return Ok(starts);
  }

  /** The first input whose end lies beyond the coordinate. */
  method FindInput(starts: seq<nat>, lengths: seq<nat>, a: nat) returns (r: Result<nat>)
    requires |starts| == |lengths| && a < Sum(lengths)
    requires forall i :: 0 <= i < |lengths| ==> starts[i] == Sum(lengths[..i])
    ensures r == Ok(Locate(lengths, a).0)
    ensures a == starts[Locate(lengths, a).0] + Locate(lengths, a).1
  {
    assert lengths[..|lengths|] == lengths;
    var i := 0;
    while i < |lengths|
      invariant 0 <= i <= |lengths|
      invariant Sum(lengths[..i]) <= a
    {
      SumStep(lengths, i);
      if a < starts[i] + lengths[i] {
        LocateInside(lengths, i, a - starts[i]);
        return Ok(i);
      }
      i := i + 1;
    }
    return Err(Integrity);
  }

  /** One element of a concatenation of views. */
  lemma ConcatViewElement(axis: nat, facts: seq<TensorFacts>, inputs: seq<seq<byte>>, out: TensorFacts, linear: nat)
    requires InferConcat(axis, facts) == Ok([out]) && AllSized(facts, inputs)
    requires linear < Elements(out.logicalShape)
    ensures axis < |out.logicalShape| && forall i :: 0 <= i < |facts| ==> axis < |facts[i].logicalShape|
    ensures Joinable(Views(facts, inputs), axis) && JoinedShape(Views(facts, inputs), axis) == out.logicalShape
    ensures var c := Coords(out.logicalShape, linear);
            var lengths := AxisLengthsOf(facts, axis);
            c[axis] < Sum(lengths)
            && (var at := Locate(lengths, c[axis]);
                var f := facts[at.0];
                |f.storageStrides| == |c| && at.1 <= c[axis]
                && Offset(c[axis := at.1], f.storageStrides) < Elements(f.storageShape) <= U64_MAX
                && ConcatTensors(Views(facts, inputs), axis).elems[linear]
                   == Store(f, inputs[at.0])[Offset(c[axis := at.1], f.storageStrides)])
  {
    hide NewFacts, InferConcat;
    ConcatInputs(axis, facts, out);
    var ts := Views(facts, inputs);
    ConcatIsJoinable(axis, facts, ts);
    var c := Coords(out.logicalShape, linear);
    var lengths := AxisLengthsOf(facts, axis);
    assert AxisLengths(ShapesOf(ts), axis) == lengths;
    var at := Locate(lengths, c[axis]);
    var f := facts[at.0];
    ValidFactsGuarantee(f);
    ViewAt(f, inputs[at.0], c[axis := at.1]);
  }

  /** The generic kernel. */
  method ExecuteConcatBytes(axis: nat, facts: seq<TensorFacts>, out: TensorFacts, inputs: seq<seq<byte>>, output: array<byte>)
    returns (r: Result<()>)
    requires InferConcat(axis, facts) == Ok([out]) && Zeroed(out, output)
    requires forall i :: 0 <= i < |facts| ==> ValidFacts(facts[i])
    modifies output
    ensures r.Ok? <==> AllSized(facts, inputs)
    ensures r.Ok? ==> Joinable(Views(facts, inputs), axis)
                      && Stores(out, output[..], ConcatTensors(Views(facts, inputs), axis))
  {
    hide NewFacts, InferConcat, Placed, View, ConcatTensors, Elements, RowStrides, Joinable, JoinedShape, Injective, Below;
    ConcatInputs(axis, facts, out);
    ValidFactsGuarantee(out);
    var _ :- CheckLengths(facts, inputs);
    var shape := out.logicalShape;
    var rowStrides :- ContiguousStridesLoop(shape);
    var lengths := AxisLengthsOf(facts, axis);
    var starts :- AxisStarts(lengths);
    ghost var ts := Views(facts, inputs);
    ConcatIsJoinable(axis, facts, ts);
    ghost var t := ConcatTensors(ts, axis);
    PlacedInitially(out, output[..], t.elems);
    var elements := Elements(shape);
    var linear := 0;
    while linear < elements
      invariant 0 <= linear <= elements
      invariant Placed(out, output[..], t.elems, linear)
    {
      var _ :- ConcatStep(axis, facts, out, inputs, output, rowStrides, lengths, starts, linear);
      linear := linear + 1;
    }
    PlacedFinally(out, output[..], t);
    return Ok(());
  }

  /** One iteration of the generic kernel. */
  method ConcatStep(axis: nat, facts: seq<TensorFacts>, out: TensorFacts, inputs: seq<seq<byte>>, output: array<byte>,
                    rowStrides: seq<nat>, lengths: seq<nat>, starts: seq<nat>, linear: nat)
    returns (r: Result<()>)
    requires InferConcat(axis, facts) == Ok([out]) && AllSized(facts, inputs)
    requires Joinable(Views(facts, inputs), axis) && linear < Elements(out.logicalShape)
    requires Placed(out, output[..], ConcatTensors(Views(facts, inputs), axis).elems, linear)
    requires rowStrides == RowStrides(out.logicalShape)
    requires forall i :: 0 <= i < |facts| ==> axis < |facts[i].logicalShape|
    requires lengths == AxisLengthsOf(facts, axis) && |starts| == |lengths|
    requires forall i :: 0 <= i < |lengths| ==> starts[i] == Sum(lengths[..i])
    modifies output
    ensures r.Ok? && Placed(out, output[..], ConcatTensors(Views(facts, inputs), axis).elems, linear + 1)
  {
    hide NewFacts, InferConcat, Placed, View, ConcatTensors, Elements, RowStrides, Joinable, JoinedShape, Injective, Below;
    hide SuffixesFit, ContiguousStrides;
    ConcatInputs(axis, facts, out);
    ValidFactsGuarantee(out);
    ConcatViewElement(axis, facts, inputs, out, linear);
    TargetFits(out, linear);
    LogicalCoordinateIs(out.logicalShape, linear, axis);
    var coordinate :- LogicalCoordinate(linear, axis, out.logicalShape, rowStrides);
    var index :- FindInput(starts, lengths, coordinate);
    var f := facts[index];
    ValidFactsGuarantee(f);
    var at :- ConcatOffsets(linear, out.logicalShape, rowStrides, axis, starts[index], f.storageStrides, out.storageStrides);
    r := PlaceElement(out, ConcatTensors(Views(facts, inputs), axis).elems, linear, inputs[index], at.0, output, at.1,
                      out.Width(), Elements(f.storageShape));
  }

  // ---------- The contiguous form ----------

  /** Appends a byte range in tiles of one mebibyte. */
  method AppendByteRangeTiled(source: seq<byte>, offset: nat, length: nat, target: seq<byte>) returns (r: Result<seq<byte>>)
    requires |source| <= U64_MAX
    ensures r.Ok? <==> length == 0 || offset + length <= |source|
    ensures r.Ok? && length > 0 ==> r.value == target + source[offset..offset + length]
    ensures r.Ok? && length == 0 ==> r.value == target
  {
    var tileBytes: nat := 1024 * 1024;
    var copied: nat := 0;
    var grown := target;
    while copied < length
      invariant 0 <= copied <= length
      invariant copied == 0 ==> grown == target
      invariant copied > 0 ==> offset + copied <= |source| && grown == target + source[offset..offset + copied]
    {
      var tile := if tileBytes < length - copied then tileBytes else length - copied;
      if CheckedAdd(offset, copied).Err? || CheckedAdd(offset + copied, tile).Err? {
        return Err(ResourceLimit);
      }
      if offset + copied + tile > |source| {
        return Err(Integrity);
      }
      grown := grown + source[offset + copied..offset + copied + tile];
      copied := copied + tile;
    }
    return Ok(grown);
  }

  /** Every list holds a segment of `chunk[j]` entries at `base[j]`. */
  predicate SegmentsFit<T>(lists: seq<seq<T>>, base: seq<nat>, chunk: seq<nat>) {
    |lists| == |base| == |chunk| && forall j :: 0 <= j < |lists| ==> base[j] + chunk[j] <= |lists[j]|
  }

  /** One segment of every list, list after list. */
  function OneRow<T>(lists: seq<seq<T>>, base: seq<nat>, chunk: seq<nat>): (r: seq<T>)
    requires SegmentsFit(lists, base, chunk)
    ensures |r| == Sum(chunk)
  {
    if lists == [] then []
    else lists[0][base[0]..base[0] + chunk[0]] + OneRow(lists[1..], base[1..], chunk[1..])
  }

  function Scaled(s: seq<nat>, m: nat): (r: seq<nat>)
    ensures |r| == |s|
  {
    seq(|s|, i requires 0 <= i < |s| => m * s[i])
  }

  predicate RowsFit<T>(lists: seq<seq<T>>, chunk: seq<nat>, outer: nat) {
    |lists| == |chunk| && forall j :: 0 <= j < |lists| ==> outer * chunk[j] <= |lists[j]|
  }

  lemma RowFits<T>(lists: seq<seq<T>>, chunk: seq<nat>, outer: nat, o: nat)
    requires RowsFit(lists, chunk, outer) && o < outer
    ensures RowsFit(lists, chunk, o) && SegmentsFit(lists, Scaled(chunk, o), chunk)
  {
    forall j | 0 <= j < |lists| ensures o * chunk[j] + chunk[j] <= |lists[j]| {
      MulMono(o + 1, outer, chunk[j]);
      RowBounds(o, chunk[j]);
    }
  }

  lemma RowBounds(o: nat, c: nat)
    ensures (o + 1) * c == o * c + c
  {
  }

  /** The rows `0..outer` of an interleaving. */
  function Interleaved<T>(lists: seq<seq<T>>, chunk: seq<nat>, outer: nat): (r: seq<T>)
    requires RowsFit(lists, chunk, outer)
    ensures |r| == outer * Sum(chunk)
  {
    if outer == 0 then []
    else
      RowFits(lists, chunk, outer, outer - 1);
      RowBounds(outer - 1, Sum(chunk));
      Interleaved(lists, chunk, outer - 1) + OneRow(lists, Scaled(chunk, outer - 1), chunk)
  }

  lemma SegmentsTail<T>(lists: seq<seq<T>>, base: seq<nat>, chunk: seq<nat>)
    requires SegmentsFit(lists, base, chunk) && lists != []
    ensures |base| == |chunk| == |lists| && base[0] + chunk[0] <= |lists[0]|
    ensures SegmentsFit(lists[1..], base[1..], chunk[1..])
    ensures OneRow(lists, base, chunk)
            == lists[0][base[0]..base[0] + chunk[0]] + OneRow(lists[1..], base[1..], chunk[1..])
    ensures Sum(chunk) == chunk[0] + Sum(chunk[1..])
    ensures forall j :: 0 <= j < |lists| ==> base[j] + chunk[j] <= |lists[j]|
  {
  }

  lemma {:induction false} OneRowSlice<T>(lists: seq<seq<T>>, base: seq<nat>, chunk: seq<nat>, j: nat, x: nat, n: nat)
    requires SegmentsFit(lists, base, chunk) && j < |lists| && x + n <= chunk[j]
    ensures |base| == |lists| && base[j] + chunk[j] <= |lists[j]|
    ensures Sum(chunk[..j]) + x + n <= Sum(chunk)
    ensures OneRow(lists, base, chunk)[Sum(chunk[..j]) + x..Sum(chunk[..j]) + x + n]
            == lists[j][base[j] + x..base[j] + x + n]
  {
    hide SegmentsFit, OneRow, Sum;
    SegmentsTail(lists, base, chunk);
    var segment := lists[0][base[0]..base[0] + chunk[0]];
    var rest := OneRow(lists[1..], base[1..], chunk[1..]);
    if j == 0 {
      assert chunk[..0] == [];
      SumNil();
      SubSlice(lists[0], base[0], base[0] + chunk[0], x, n);
      SliceOfPrefix(segment, rest, x, n);
    } else {
      OneRowSlice(lists[1..], base[1..], chunk[1..], j - 1, x, n);
      SumCons(chunk, j);
      SliceOfConcat(segment, rest, Sum(chunk[1..][..j - 1]) + x, n);
    }
  }

  lemma SumNil()
    ensures Sum([]) == 0
  {
  }

  lemma SumCons(chunk: seq<nat>, j: nat)
    requires 0 < j < |chunk|
    ensures Sum(chunk[..j]) == chunk[0] + Sum(chunk[1..][..j - 1])
  {
    assert chunk[..j][0] == chunk[0] && chunk[..j][1..] == chunk[1..][..j - 1];
  }

  /** A slice inside segment `j` of row `o` comes from list `j`.  `start` and `from` are the
      positions of the row in the interleaving and of the segment in its list. */
  lemma {:induction false} InterleavedSlice<T>(lists: seq<seq<T>>, chunk: seq<nat>, outer: nat, o: nat, j: nat, x: nat, n: nat,
                                               start: nat, from: nat)
    requires RowsFit(lists, chunk, outer) && o < outer && j < |lists| && x + n <= chunk[j]
    requires start == o * Sum(chunk) + Sum(chunk[..j]) + x && from == o * chunk[j] + x
    ensures start + n <= |Interleaved(lists, chunk, outer)| && from + n <= |lists[j]|
    ensures Interleaved(lists, chunk, outer)[start..start + n] == lists[j][from..from + n]
    decreases outer
  {
    hide Interleaved;
    RowFits(lists, chunk, outer, outer - 1);
    RowFits(lists, chunk, outer, o);
    InterleavedStep(lists, chunk, outer);
    var earlier := Interleaved(lists, chunk, outer - 1);
    var row := OneRow(lists, Scaled(chunk, outer - 1), chunk);
    OneRowSlice(lists, Scaled(chunk, o), chunk, j, x, n);
    if o == outer - 1 {
      SliceOfConcat(earlier, row, Sum(chunk[..j]) + x, n);
    } else {
      InterleavedSlice(lists, chunk, outer - 1, o, j, x, n, start, from);
      SliceOfPrefix(earlier, row, start, n);
    }
  }

  lemma InterleavedStep<T>(lists: seq<seq<T>>, chunk: seq<nat>, outer: nat)
    requires RowsFit(lists, chunk, outer) && outer > 0
    ensures RowsFit(lists, chunk, outer - 1) && SegmentsFit(lists, Scaled(chunk, outer - 1), chunk)
    ensures Interleaved(lists, chunk, outer)
            == Interleaved(lists, chunk, outer - 1) + OneRow(lists, Scaled(chunk, outer - 1), chunk)
  {
    RowFits(lists, chunk, outer, outer - 1);
  }

  lemma SliceOfPrefix<T>(a: seq<T>, b: seq<T>, s: nat, n: nat)
    requires s + n <= |a|
    ensures (a + b)[s..s + n] == a[s..s + n]
  {
  }

  lemma SliceOfConcat<T>(a: seq<T>, b: seq<T>, s: nat, n: nat)
    requires s + n <= |b|
    ensures (a + b)[|a| + s..|a| + s + n] == b[s..s + n]
  {
  }

  lemma {:induction false} ElementsSplit(shape: Shape, axis: nat)
    requires axis < |shape|
    ensures Elements(shape) == Elements(shape[..axis]) * (shape[axis] * Elements(shape[axis + 1..]))
  {
    if axis > 0 {
      ElementsSplit(shape[1..], axis - 1);
      assert shape[..axis][0] == shape[0] && shape[..axis][1..] == shape[1..][..axis - 1];
      assert shape[axis + 1..] == shape[1..][axis..];
      MulAssoc(shape[0], Elements(shape[1..][..axis - 1]), shape[axis] * Elements(shape[axis + 1..]));
    }
  }

  lemma Distribute(a: nat, b: nat, c: nat, d: nat)
    ensures a * (b * c) + d * c == (a * b + d) * c
  {
    assert a * (b * c) == (a * b) * c;
  }

  lemma LinearSplitStep(h: nat, ep: nat, dims: nat, p: nat, d: nat, a: nat, i: nat)
    ensures h * (ep * (d * dims)) + ((p * d + a) * dims + i) == ((h * ep + p) * d + a) * dims + i
  {
    MulAssoc(h, ep, d * dims);
    Distribute(h * ep, d, dims, p * d + a);
    assert (h * ep) * d + (p * d + a) == (h * ep + p) * d + a;
  }

  lemma LinearCons(shape: Shape, c: seq<nat>)
    requires |c| == |shape| > 0
    ensures Linear(shape, c) == c[0] * Elements(shape[1..]) + Linear(shape[1..], c[1..])
    ensures Elements(shape) == shape[0] * Elements(shape[1..])
  {
  }

  lemma LinearNil()
    ensures Linear([], []) == 0 && Elements([]) == 1
  {
  }

  /** A linear index splits at any axis into outer, axis and inner parts. */
  lemma {:induction false} LinearSplit(shape: Shape, c: seq<nat>, axis: nat)
    requires |c| == |shape| && axis < |shape|
    ensures Linear(shape, c) ==
            (Linear(shape[..axis], c[..axis]) * shape[axis] + c[axis]) * Elements(shape[axis + 1..])
            + Linear(shape[axis + 1..], c[axis + 1..])
  {
    hide Linear, Elements;
    LinearCons(shape, c);
    if axis == 0 {
      LinearNil();
      assert shape[..0] == [] && c[..0] == [];
    } else {
      var pre, cpre := shape[1..][..axis - 1], c[1..][..axis - 1];
      assert shape[..axis][0] == shape[0] && shape[..axis][1..] == pre;
      assert c[..axis][0] == c[0] && c[..axis][1..] == cpre;
      assert shape[axis + 1..] == shape[1..][axis..] && c[axis + 1..] == c[1..][axis..];
      LinearSplit(shape[1..], c[1..], axis - 1);
      ElementsSplit(shape[1..], axis - 1);
      LinearCons(shape[..axis], c[..axis]);
      LinearSplitStep(c[0], Elements(pre), Elements(shape[axis + 1..]), Linear(pre, cpre), shape[axis],
                      c[axis], Linear(shape[axis + 1..], c[axis + 1..]));
    }
  }

  lemma {:induction false} SumScaled(s: seq<nat>, m: nat)
    ensures Sum(Scaled(s, m)) == m * Sum(s)
  {
    if s != [] {
      SumScaled(s[1..], m);
      assert Scaled(s, m)[1..] == Scaled(s[1..], m);
      assert m * (s[0] + Sum(s[1..])) == m * s[0] + m * Sum(s[1..]);
    }
  }

  lemma SumScaledPrefix(s: seq<nat>, m: nat, j: nat)
    requires j <= |s|
    ensures Sum(Scaled(s, m)[..j]) == m * Sum(s[..j])
  {
    assert Scaled(s, m)[..j] == Scaled(s[..j], m);
    SumScaled(s[..j], m);
  }

  /** The inner byte length that the contiguous form needs to fit.  It always fits unless the
      output is empty. */
  predicate InnerFits(axis: nat, facts: seq<TensorFacts>) {
    facts != [] && axis < |facts[0].logicalShape|
    && (var inner := CheckedElements(facts[0].logicalShape[axis + 1..]);
        inner.Ok? && inner.value * facts[0].Width() <= U64_MAX)
  }

  lemma {:induction false} PrefixCountFits(shape: Shape, k: nat, product: nat)
    requires k <= |shape| && CheckedElementsFrom(shape, product).Ok?
    ensures CheckedElementsFrom(shape[..k], product).Ok?
  {
    if k > 0 {
      PrefixCountFits(shape[1..], k - 1, product * shape[0]);
      assert shape[..k][0] == shape[0] && shape[..k][1..] == shape[1..][..k - 1];
    }
  }

  lemma FactorFits(p: nat, a: nat, e: nat, w: nat)
    requires 0 < p * (a * e) && w > 0 && (p * (a * e)) * w <= U64_MAX
    ensures 0 < e <= U64_MAX && e * w <= U64_MAX
  {
    MulAssoc(p, a, e);
    MulMono(1, p * a, e);
    MulMono(e, p * (a * e), w);
    MulMono(1, w, e);
  }

  /** A non-empty output always fits. */
  lemma NonEmptyInnerFits(axis: nat, facts: seq<TensorFacts>, out: TensorFacts)
    requires InferConcat(axis, facts) == Ok([out]) && Elements(out.logicalShape) > 0
    ensures InnerFits(axis, facts)
  {
    hide NewFacts, InferConcat, ContiguousStrides, ConcatLength, Elements, CheckedElements, AxisLengthsOf;
    ConcatInputs(axis, facts, out);
    ValidFactsGuarantee(out);
    var shape := out.logicalShape;
    ElementsSplit(shape, axis);
    var inner := shape[axis + 1..];
    assert inner == facts[0].logicalShape[axis + 1..];
    FactorFits(Elements(shape[..axis]), shape[axis], Elements(inner), out.Width());
    CheckedElementsIsProduct(inner);
  }

  /** Bytes of one outer row of every input, for canonical concatenation inputs. */
  function ChunkBytes(axis: nat, facts: seq<TensorFacts>, width: nat): (chunk: seq<nat>)
    requires facts != [] && forall i :: 0 <= i < |facts| ==> axis < |facts[i].logicalShape|
    ensures |chunk| == |facts|
  {
    Scaled(AxisLengthsOf(facts, axis), Elements(facts[0].logicalShape[axis + 1..]) * width)
  }

  ghost predicate CanonicalInputs(axis: nat, facts: seq<TensorFacts>, out: TensorFacts) {
    InferConcat(axis, facts) == Ok([out])
    && forall j :: 0 <= j < |facts| ==> ValidFacts(facts[j]) && facts[j].Canonical()
  }

  lemma SizeRegroup(p: nat, a: nat, e: nat, w: nat)
    ensures (p * (a * e)) * w == p * ((e * w) * a)
  {
    MulAssoc(a, e, w);
    MulAssoc(p, a * e, w);
  }

  /** The size of one canonical input, by rows. */
  lemma CanonicalSize(axis: nat, facts: seq<TensorFacts>, out: TensorFacts, j: nat)
    requires CanonicalInputs(axis, facts, out) && j < |facts|
    ensures facts != [] && forall i :: 0 <= i < |facts| ==> axis < |facts[i].logicalShape|
    ensures facts[j].byteLen
            == Elements(facts[0].logicalShape[..axis]) * ChunkBytes(axis, facts, out.Width())[j] <= U64_MAX
  {
    hide NewFacts, InferConcat;
    ConcatInputs(axis, facts, out);
    ValidFactsGuarantee(facts[j]);
    var shape, mine := facts[0].logicalShape, facts[j].logicalShape;
    ElementsSplit(mine, axis);
    assert mine[..axis] == shape[..axis] && mine[axis + 1..] == shape[axis + 1..];
    SizeRegroup(Elements(shape[..axis]), mine[axis], Elements(shape[axis + 1..]), out.Width());
  }

  /** The size of the output, by rows. */
  lemma OutputSize(axis: nat, facts: seq<TensorFacts>, out: TensorFacts)
    requires InferConcat(axis, facts) == Ok([out])
    ensures facts != [] && forall j :: 0 <= j < |facts| ==> axis < |facts[j].logicalShape|
    ensures out.byteLen
            == Elements(facts[0].logicalShape[..axis]) * Sum(ChunkBytes(axis, facts, out.Width())) <= U64_MAX
  {
    hide NewFacts, InferConcat;
    ConcatInputs(axis, facts, out);
    ValidFactsGuarantee(out);
    var shape := facts[0].logicalShape;
    ElementsSplit(out.logicalShape, axis);
    assert out.logicalShape[..axis] == shape[..axis] && out.logicalShape[axis + 1..] == shape[axis + 1..];
    var total, e, w := Sum(AxisLengthsOf(facts, axis)), Elements(shape[axis + 1..]), out.Width();
    SumScaled(AxisLengthsOf(facts, axis), e * w);
    SizeRegroup(Elements(shape[..axis]), total, e, w);
  }

  lemma CanonicalRowsFit(axis: nat, facts: seq<TensorFacts>, out: TensorFacts, inputs: seq<seq<byte>>)
    requires CanonicalInputs(axis, facts, out) && AllSized(facts, inputs)
    ensures facts != [] && forall i :: 0 <= i < |facts| ==> axis < |facts[i].logicalShape|
    ensures RowsFit(inputs, ChunkBytes(axis, facts, out.Width()), Elements(facts[0].logicalShape[..axis]))
  {
    hide NewFacts, InferConcat;
    ConcatInputs(axis, facts, out);
    forall j | 0 <= j < |inputs|
      ensures Elements(facts[0].logicalShape[..axis]) * ChunkBytes(axis, facts, out.Width())[j] <= |inputs[j]|
    {
      CanonicalSize(axis, facts, out, j);
    }
  }

  lemma OuterCountFits(f: TensorFacts, axis: nat)
    requires ValidFacts(f) && axis <= |f.logicalShape|
    ensures CheckedElements(f.logicalShape[..axis]) == Ok(Elements(f.logicalShape[..axis]))
  {
    PrefixCountFits(f.logicalShape, axis, 1);
    CheckedElementsIsProduct(f.logicalShape[..axis]);
  }

  lemma SegmentPosition(lengths: seq<nat>, innerBytes: nat, o: nat, j: nat)
    requires j < |lengths|
    ensures Scaled(lengths, innerBytes)[j] == lengths[j] * innerBytes
    ensures Scaled(Scaled(lengths, innerBytes), o)[j] == o * Scaled(lengths, innerBytes)[j]
  {
  }

  lemma RowPrefixFits(lists: seq<seq<byte>>, base: seq<nat>, chunk: seq<nat>, done: seq<byte>, whole: seq<byte>)
    requires SegmentsFit(lists, base, chunk) && lists != [] && whole == done + OneRow(lists, base, chunk)
    ensures base[0] + chunk[0] <= |lists[0]|
    ensures whole == done + lists[0][base[0]..base[0] + chunk[0]] + OneRow(lists[1..], base[1..], chunk[1..])
  {
  }

  /** Appends the segments of outer row `o`. */
  method AppendRow(inputs: seq<seq<byte>>, lengths: seq<nat>, innerBytes: nat, o: nat, target: seq<byte>)
    returns (r: Result<seq<byte>>)
    requires SegmentsFit(inputs, Scaled(Scaled(lengths, innerBytes), o), Scaled(lengths, innerBytes))
    requires forall j :: 0 <= j < |inputs| ==> |inputs[j]| <= U64_MAX
    requires |target| + Sum(Scaled(lengths, innerBytes)) <= U64_MAX
    ensures var chunk := Scaled(lengths, innerBytes);
            r == Ok(target + OneRow(inputs, Scaled(chunk, o), chunk))
  {
    hide Scaled;
    ghost var chunk := Scaled(lengths, innerBytes);
    ghost var base := Scaled(chunk, o);
    var output := target;
    var j := 0;
    while j < |inputs|
      invariant 0 <= j <= |inputs|
      invariant target + OneRow(inputs, base, chunk) == output + OneRow(inputs[j..], base[j..], chunk[j..])
    {
      assert inputs[j..][1..] == inputs[j + 1..] && base[j..][1..] == base[j + 1..] && chunk[j..][1..] == chunk[j + 1..];
      SegmentPosition(lengths, innerBytes, o, j);
      RowPrefixFits(inputs[j..], base[j..], chunk[j..], output, target + OneRow(inputs, base, chunk));
      var chunkBytes: nat :- CheckedMul(lengths[j], innerBytes);
      var sourceOffset: nat :- CheckedMul(o, chunkBytes);
      output :- AppendByteRangeTiled(inputs[j], sourceOffset, chunkBytes, output);
      j := j + 1;
    }
    assert OneRow(inputs[j..], base[j..], chunk[j..]) == [];
    assert output == target + OneRow(inputs, base, chunk);
    return Ok(output);
  }

  lemma NoRows<T>(lists: seq<seq<T>>, chunk: seq<nat>, outer: nat)
    requires RowsFit(lists, chunk, outer)
    ensures RowsFit(lists, chunk, 0) && Interleaved(lists, chunk, 0) == []
  {
  }

  /** Appends the rows `0..outer`. */
  method AppendRows(inputs: seq<seq<byte>>, lengths: seq<nat>, innerBytes: nat, outer: nat) returns (r: Result<seq<byte>>)
    requires RowsFit(inputs, Scaled(lengths, innerBytes), outer)
    requires forall j :: 0 <= j < |inputs| ==> |inputs[j]| <= U64_MAX
    requires outer * Sum(Scaled(lengths, innerBytes)) <= U64_MAX
    ensures r == Ok(Interleaved(inputs, Scaled(lengths, innerBytes), outer))
  {
    hide RowsFit, Interleaved, OneRow, Scaled, Sum, SegmentsFit;
    ghost var chunk := Scaled(lengths, innerBytes);
    NoRows(inputs, chunk, outer);
    var output: seq<byte> := [];
    var o := 0;
    while o < outer
      invariant 0 <= o <= outer && RowsFit(inputs, chunk, o)
      invariant output == Interleaved(inputs, chunk, o)
    {
      RowFits(inputs, chunk, outer, o);
      RowBounds(o, Sum(chunk));
      MulMono(o + 1, outer, Sum(chunk));
      NextRowsFit(inputs, chunk, outer, o);
      InterleavedStep(inputs, chunk, o + 1);
      output :- AppendRow(inputs, lengths, innerBytes, o, output);
      o := o + 1;
    }
    return Ok(output);
  }

  /** Row-by-row appending of byte ranges.  On canonical inputs it fails exactly on a wrong
      length, or when the inner byte length does not fit (only for an empty output). */
  method BuildContiguousConcat(axis: nat, facts: seq<TensorFacts>, out: TensorFacts, inputs: seq<seq<byte>>)
    returns (r: Result<seq<byte>>)
    requires CanonicalInputs(axis, facts, out)
    ensures r.Ok? <==> AllSized(facts, inputs) && InnerFits(axis, facts)
    ensures r.Err? && AllSized(facts, inputs) ==> r.error == ResourceLimit
    ensures r.Ok? ==> Joinable(Views(facts, inputs), axis)
                      && Stores(out, r.value, ConcatTensors(Views(facts, inputs), axis))
  {
    hide NewFacts, InferConcat, Stores, Views, Elements, CheckedElementsFrom, Joinable, Interleaved, RowsFit, Sum;
    hide ConcatTensors, AxisLengthsOf;
    ConcatInputs(axis, facts, out);
    var _ :- CheckLengths(facts, inputs);
    var shape := facts[0].logicalShape;
    OuterCountFits(facts[0], axis);
    CheckedElementsIsProduct(shape[axis + 1..]);
    CheckedElementsLimit(shape[axis + 1..], 1);
    var outer: nat :- CheckedElements(shape[..axis]);
    var innerElements: nat :- CheckedElements(shape[axis + 1..]);
    var innerBytes: nat :- CheckedMul(innerElements, facts[0].Width());
    CanonicalRowsFit(axis, facts, out, inputs);
    OutputSize(axis, facts, out);
    forall j | 0 <= j < |inputs| ensures |inputs[j]| <= U64_MAX {
      CanonicalSize(axis, facts, out, j);
    }
    assert ChunkBytes(axis, facts, out.Width()) == Scaled(AxisLengthsOf(facts, axis), innerBytes);
    var output: seq<byte> :- AppendRows(inputs, AxisLengthsOf(facts, axis), innerBytes, outer);
    if |output| != out.byteLen {
      return Err(Integrity);
    }
    InterleavedIsConcat(axis, facts, out, inputs);
    return Ok(output);
  }

  lemma NextRowsFit<T>(lists: seq<seq<T>>, chunk: seq<nat>, outer: nat, o: nat)
    requires RowsFit(lists, chunk, outer) && o < outer
    ensures RowsFit(lists, chunk, o + 1)
  {
    forall j | 0 <= j < |lists| ensures (o + 1) * chunk[j] <= |lists[j]| {
      MulMono(o + 1, outer, chunk[j]);
    }
  }

  /** Position of a joined element among the interleaved rows, in elements and in bytes. */
  lemma RowPosition(o: nat, total: nat, start: nat, x: nat, inner: nat, i: nat, w: nat)
    ensures ((o * total + (start + x)) * inner + i) * w
            == o * ((inner * w) * total) + (inner * w) * start + (x * inner + i) * w
  {
    var l := (o * total + (start + x)) * inner + i;
    assert l == (o * total) * inner + start * inner + (x * inner + i);
    assert l * w == ((o * total) * inner) * w + (start * inner) * w + (x * inner + i) * w;
    MulAssoc(start, inner, w);
    MulAssoc(total, inner, w);
    MulAssoc(o, total * inner, w);
    MulAssoc(o, total, inner);
  }

  lemma InnerPosition(x: nat, len: nat, inner: nat, i: nat, w: nat)
    requires x < len && i < inner
    ensures (x * inner + i) * w + w <= (inner * w) * len
  {
    assert (x * inner + i) * w + w == (x * inner + i + 1) * w;
    MulMono(x + 1, len, inner);
    assert (x + 1) * inner == x * inner + inner;
    MulMono(x * inner + i + 1, len * inner, w);
    MulAssoc(len, inner, w);
  }

  /** Row-major positions in a joined shape and in the piece that holds the coordinate. */
  lemma JoinedLinear(joined: Shape, piece: Shape, axis: nat, c: seq<nat>, x: nat)
    requires InBox(c, joined) && axis < |joined| && Joins(piece, joined, axis) && x < piece[axis]
    ensures InBox(c[axis := x], piece)
    ensures var o, i := Linear(joined[..axis], c[..axis]), Linear(joined[axis + 1..], c[axis + 1..]);
            var inner := Elements(joined[axis + 1..]);
            o < Elements(joined[..axis]) && i < inner
            && Linear(joined, c) == (o * joined[axis] + c[axis]) * inner + i
            && Linear(piece, c[axis := x]) == (o * piece[axis] + x) * inner + i
  {
    var d := c[axis := x];
    LinearSplit(joined, c, axis);
    LinearSplit(piece, d, axis);
    CoordsOfLinear(joined[..axis], c[..axis]);
    CoordsOfLinear(joined[axis + 1..], c[axis + 1..]);
    assert piece[..axis] == joined[..axis] && piece[axis + 1..] == joined[axis + 1..];
    assert d[..axis] == c[..axis] && d[axis + 1..] == c[axis + 1..];
  }

  lemma JoinedElement(ts: seq<Tensor>, axis: nat, l: nat)
    requires Joinable(ts, axis) && l < Elements(JoinedShape(ts, axis))
    ensures var joined, lengths := JoinedShape(ts, axis), AxisLengths(ShapesOf(ts), axis);
            var c := Coords(joined, l);
            var at := Locate(lengths, c[axis]);
            var d := c[axis := at.1];
            InBox(d, ts[at.0].shape) && Linear(joined, c) == l && Joins(ts[at.0].shape, joined, axis)
            && Linear(ts[at.0].shape, d) < |ts[at.0].elems|
            && ConcatTensors(ts, axis).elems[l] == ts[at.0].elems[Linear(ts[at.0].shape, d)]
  {
    var joined := JoinedShape(ts, axis);
    LinearOfCoords(joined, l);
    var at := Locate(AxisLengths(ShapesOf(ts), axis), Coords(joined, l)[axis]);
    CoordsOfLinear(ts[at.0].shape, Coords(joined, l)[axis := at.1]);
  }

  /** Element `l` of the output and element `q` of input `j` in outer row `o`, at axis
      position `x` and inner position `i`. */
  predicate Parts(l: nat, q: nat, o: nat, j: nat, x: nat, i: nat, lengths: seq<nat>, inner: nat) {
    j < |lengths| && x < lengths[j] && i < inner
    && l == (o * Sum(lengths) + (Sum(lengths[..j]) + x)) * inner + i
    && q == (o * lengths[j] + x) * inner + i
  }

  /** Byte positions `s` in the rows and `t` in list `j` of position `y` in segment `j` of row `o`. */
  predicate Starts(s: nat, t: nat, o: nat, j: nat, y: nat, w: nat, chunk: seq<nat>) {
    j < |chunk| && y + w <= chunk[j]
    && s == o * Sum(chunk) + Sum(chunk[..j]) + y && t == o * chunk[j] + y
  }

  /** The logical concatenation at one index, in terms of outer row, input and inner position. */
  lemma ConcatElementParts(ts: seq<Tensor>, axis: nat, l: nat) returns (q: nat, o: nat, j: nat, x: nat, i: nat)
    requires Joinable(ts, axis) && l < Elements(JoinedShape(ts, axis))
    ensures var joined, lengths := JoinedShape(ts, axis), AxisLengths(ShapesOf(ts), axis);
            o < Elements(joined[..axis]) && Parts(l, q, o, j, x, i, lengths, Elements(joined[axis + 1..]))
            && j < |ts| && q < |ts[j].elems| && ConcatTensors(ts, axis).elems[l] == ts[j].elems[q]
  {
    hide ConcatTensors, Elements, Linear;
    var joined, lengths := JoinedShape(ts, axis), AxisLengths(ShapesOf(ts), axis);
    JoinedElement(ts, axis, l);
    var c := Coords(joined, l);
    var at := Locate(lengths, c[axis]);
    JoinedLinear(joined, ts[at.0].shape, axis, c, at.1);
    o, j, x, i := Linear(joined[..axis], c[..axis]), at.0, at.1, Linear(joined[axis + 1..], c[axis + 1..]);
    q := Linear(ts[j].shape, c[axis := at.1]);
    assert ts[j].shape[axis] == lengths[j] && joined[axis] == Sum(lengths);
  }

  /** The interleaved rows are the concatenation. */
  lemma InterleavedIsConcat(axis: nat, facts: seq<TensorFacts>, out: TensorFacts, inputs: seq<seq<byte>>)
    requires CanonicalInputs(axis, facts, out) && AllSized(facts, inputs)
    ensures facts != [] && forall i :: 0 <= i < |facts| ==> axis < |facts[i].logicalShape|
    ensures var chunk := ChunkBytes(axis, facts, out.Width());
            var outer := Elements(facts[0].logicalShape[..axis]);
            RowsFit(inputs, chunk, outer)
            && Joinable(Views(facts, inputs), axis)
            && Stores(out, Interleaved(inputs, chunk, outer), ConcatTensors(Views(facts, inputs), axis))
  {
    hide NewFacts, InferConcat, View, Stores, Joinable, RowsOf, RowsFit, Elements;
    ConcatInputs(axis, facts, out);
    ValidFactsGuarantee(out);
    OutputSize(axis, facts, out);
    CanonicalRowsFit(axis, facts, out, inputs);
    RowsOfViews(axis, facts, out, inputs);
    ConcatIsJoinable(axis, facts, Views(facts, inputs));
    var bytes := RowBytes(axis, facts, inputs, Views(facts, inputs), out.Width());
    var t := ConcatTensors(Views(facts, inputs), axis);
    CanonicalView(out, bytes);
    forall l | 0 <= l < |t.elems| ensures Store(out, bytes)[l] == t.elems[l] {
      InterleavedElement(axis, facts, out, inputs, l);
    }
    assert Store(out, bytes) == t.elems;
    StoresIntro(out, bytes, t);
  }

  lemma StoresIntro(f: TensorFacts, bytes: seq<byte>, t: Tensor)
    requires ValidFacts(f) && Sized(f, bytes) && PadsZero(f, bytes)
    requires t.shape == f.logicalShape && View(f, bytes).elems == t.elems
    ensures Stores(f, bytes, t)
  {
  }

  predicate SameBytes(a: seq<byte>, s: nat, b: seq<byte>, t: nat, w: nat) {
    s + w <= |a| && t + w <= |b| && a[s..s + w] == b[t..t + w]
  }

  /** The bytes of element `l` of `a` are the bytes of element `q` of `b`. */
  predicate SameElement(a: seq<byte>, l: nat, b: seq<byte>, q: nat, w: nat) {
    SameBytes(a, l * w, b, q * w, w)
  }

  /** Equal byte ranges are equal elements. */
  lemma SameRangeSameElement(a: seq<byte>, b: seq<byte>, w: nat, n: nat, m: nat, l: nat, q: nat)
    requires |a| == n * w && |b| == m * w && l < n && q < m
    requires SameElement(a, l, b, q, w)
    ensures Chunks(a, w, n)[l] == Chunks(b, w, m)[q]
  {
    ChunkBounds(l, w, n);
    ChunkBounds(q, w, m);
  }

  /** Byte positions of one joined element in the rows and in its input. */
  lemma RangeStarts(lengths: seq<nat>, inner: nat, w: nat, l: nat, q: nat, o: nat, j: nat, x: nat, i: nat) returns (y: nat)
    requires Parts(l, q, o, j, x, i, lengths, inner)
    ensures Starts(l * w, q * w, o, j, y, w, Scaled(lengths, inner * w))
  {
    y := (x * inner + i) * w;
    InnerPosition(x, lengths[j], inner, i, w);
    SumScaled(lengths, inner * w);
    SumScaledPrefix(lengths, inner * w, j);
    RowPosition(o, Sum(lengths), Sum(lengths[..j]), x, inner, i, w);
    RowPosition(o, lengths[j], 0, x, inner, i, w);
  }

  /** The slice of the interleaved rows that holds one joined element. */
  lemma InterleavedRange(inputs: seq<seq<byte>>, chunk: seq<nat>, outer: nat, w: nat, o: nat, j: nat, y: nat, s: nat, t: nat)
    requires RowsFit(inputs, chunk, outer) && o < outer && Starts(s, t, o, j, y, w, chunk)
    ensures SameBytes(Interleaved(inputs, chunk, outer), s, inputs[j], t, w)
  {
    hide Interleaved;
    InterleavedSlice(inputs, chunk, outer, o, j, y, w, s, t);
  }

  /** An equal byte range moves an element from a canonical input to a canonical output. */
  lemma ElementFromRange(out: TensorFacts, bytes: seq<byte>, f: TensorFacts, input: seq<byte>, l: nat, q: nat)
    requires ValidFacts(out) && Sized(out, bytes) && ValidFacts(f) && f.Canonical() && Sized(f, input)
    requires out.Width() == f.Width() && l < Elements(out.storageShape) && q < |View(f, input).elems|
    requires SameElement(bytes, l, input, q, out.Width())
    ensures Store(out, bytes)[l] == View(f, input).elems[q]
  {
    hide NewFacts, View;
    CanonicalView(f, input);
    ValidFactsGuarantee(out);
    ValidFactsGuarantee(f);
    SameRangeSameElement(bytes, input, out.Width(), Elements(out.storageShape), Elements(f.storageShape), l, q);
  }

  /** The joined tensors are views of inputs whose rows are interleaved. */
  ghost predicate RowsOf(axis: nat, facts: seq<TensorFacts>, inputs: seq<seq<byte>>, ts: seq<Tensor>, w: nat) {
    facts != [] && (forall i :: 0 <= i < |facts| ==> axis < |facts[i].logicalShape|)
    && Joinable(ts, axis) && |ts| == |facts| && |JoinedShape(ts, axis)| == |facts[0].logicalShape|
    && JoinedShape(ts, axis)[..axis] == facts[0].logicalShape[..axis]
    && JoinedShape(ts, axis)[axis + 1..] == facts[0].logicalShape[axis + 1..]
    && AxisLengths(ShapesOf(ts), axis) == AxisLengthsOf(facts, axis)
    && RowsFit(inputs, ChunkBytes(axis, facts, w), Elements(facts[0].logicalShape[..axis]))
  }

  /** The interleaved rows of the inputs. */
  ghost function RowBytes(axis: nat, facts: seq<TensorFacts>, inputs: seq<seq<byte>>, ts: seq<Tensor>, w: nat): seq<byte>
    requires RowsOf(axis, facts, inputs, ts, w)
  {
    Interleaved(inputs, ChunkBytes(axis, facts, w), Elements(facts[0].logicalShape[..axis]))
  }

  /** Where one joined element lies in the rows and in its input. */
  lemma JoinedRanges(axis: nat, facts: seq<TensorFacts>, inputs: seq<seq<byte>>, ts: seq<Tensor>, w: nat, l: nat)
    returns (j: nat, q: nat)
    requires RowsOf(axis, facts, inputs, ts, w) && l < Elements(JoinedShape(ts, axis))
    ensures j < |ts| == |inputs| && q < |ts[j].elems| && ConcatTensors(ts, axis).elems[l] == ts[j].elems[q]
    ensures SameElement(RowBytes(axis, facts, inputs, ts, w), l, inputs[j], q, w)
  {
    hide Interleaved, SameBytes, ConcatTensors, JoinedShape, Joinable, Elements, Sum, AxisLengths, AxisLengthsOf, Starts, Parts, Scaled;
    hide Joins, ShapesOf;
    var lengths := AxisLengthsOf(facts, axis);
    var inner, outer := Elements(facts[0].logicalShape[axis + 1..]), Elements(facts[0].logicalShape[..axis]);
    var q', o, k, x, i := ConcatElementParts(ts, axis, l);
    j, q := k, q';
    var y := RangeStarts(lengths, inner, w, l, q, o, j, x, i);
    InterleavedRange(inputs, ChunkBytes(axis, facts, w), outer, w, o, j, y, l * w, q * w);
  }

  lemma InterleavedElement(axis: nat, facts: seq<TensorFacts>, out: TensorFacts, inputs: seq<seq<byte>>, l: nat)
    requires CanonicalInputs(axis, facts, out) && AllSized(facts, inputs) && l < Elements(out.logicalShape)
    requires RowsOf(axis, facts, inputs, Views(facts, inputs), out.Width())
    requires JoinedShape(Views(facts, inputs), axis) == out.logicalShape
    requires Sized(out, RowBytes(axis, facts, inputs, Views(facts, inputs), out.Width()))
    ensures ValidFacts(out) && l < Elements(out.storageShape)
    ensures Store(out, RowBytes(axis, facts, inputs, Views(facts, inputs), out.Width()))[l]
            == ConcatTensors(Views(facts, inputs), axis).elems[l]
  {
    hide NewFacts, InferConcat, View, Stores, RowBytes, ConcatTensors, RowsFit, Elements, RowsOf, JoinedShape;
    ConcatInputs(axis, facts, out);
    ValidFactsGuarantee(out);
    var ts := Views(facts, inputs);
    var j, q := JoinedRanges(axis, facts, inputs, ts, out.Width(), l);
    ElementFromRange(out, RowBytes(axis, facts, inputs, ts, out.Width()), facts[j], inputs[j], l, q);
  }

  lemma RowsOfViews(axis: nat, facts: seq<TensorFacts>, out: TensorFacts, inputs: seq<seq<byte>>)
    requires CanonicalInputs(axis, facts, out) && AllSized(facts, inputs)
    ensures RowsOf(axis, facts, inputs, Views(facts, inputs), out.Width())
    ensures JoinedShape(Views(facts, inputs), axis) == out.logicalShape
  {
    hide NewFacts, InferConcat, View, RowsFit, Elements;
    ConcatInputs(axis, facts, out);
    CanonicalRowsFit(axis, facts, out, inputs);
    ConcatIsJoinable(axis, facts, Views(facts, inputs));
    var ts, shape := Views(facts, inputs), facts[0].logicalShape;
    assert AxisLengths(ShapesOf(ts), axis) == AxisLengthsOf(facts, axis);
    assert out.logicalShape[..axis] == shape[..axis] && out.logicalShape[axis + 1..] == shape[axis + 1..];
  }
}
