/** Tensors without elements on which routes that agree everywhere else take different errors:
    one input for each of the conditions stated with the kernels. */
module EmptyTensors {
  import opened Checked
  import opened Shapes
  import opened Facts
  import opened Operations
  import opened Concatenation
  import opened OhwiPermute
  import GgufTensors

  const TWO_23: nat := 0x80_0000
  const TWO_40: nat := 0x100_0000_0000
  const TWO_60: nat := 0x1000_0000_0000_0000

  const HALF: Representation := Representation(F16, Contiguous)

  /** Contiguous facts of an empty shape need nothing but strides that fit. */
  lemma EmptyFacts(rest: Shape, rep: Representation)
    requires rep.layout.Contiguous? && |rest| < U32_MAX && SuffixesFit(rest)
    ensures ContiguousFacts([0] + rest, rep).Ok? && CheckedElements([0] + rest) == Ok(0)
  {
    var shape := [0] + rest;
    assert shape[1..] == rest;
    EmptyCount(rest);
  }

  lemma {:induction false} EmptyCount(rest: Shape)
    ensures CheckedElementsFrom(rest, 0) == Ok(0)
  {
    if rest != [] {
      EmptyCount(rest[1..]);
    }
  }

  lemma TwoDimensions(a: nat, b: nat)
    ensures Elements([a, b]) == a * b && Elements([b]) == b
    ensures SuffixesFit([a, b]) <==> a * b <= U64_MAX && b <= U64_MAX
    ensures a <= U64_MAX ==> CheckedElements([a, b]) == if a * b <= U64_MAX then Ok(a * b) else Err(ResourceLimit)
  {
    assert [a, b][1..] == [b] && [b][1..] == [];
    assert Elements([]) == 1 && Elements([b]) == b * Elements([]);
    assert SuffixesFit([]) && (SuffixesFit([b]) <==> b <= U64_MAX);
    assert SuffixesFit([a, b]) <==> Elements([a, b]) <= U64_MAX && SuffixesFit([b]);
    assert Elements([a, b]) == a * Elements([b]);
    assert CheckedElementsFrom([a, b], 1) == (if a > U64_MAX then Err(ResourceLimit) else CheckedElementsFrom([b], a));
    assert CheckedElementsFrom([b], a) == (if a * b > U64_MAX then Err(ResourceLimit) else CheckedElementsFrom([], a * b));
  }

  /** Valid facts whose row-major strides do not fit, although there is no element: a copy into
      another storage refuses them. */
  lemma StridesCanOverflow()
    ensures var shape := [0, TWO_40, TWO_40];
            NewFacts(shape, shape, [0, 0, 0], [0, 0, 0], Representation(U8, Custom("blocked")), 0).Ok?
            && ContiguousStrides(shape) == Err(ResourceLimit)
  {
    var shape := [0, TWO_40, TWO_40];
    assert shape == [0] + [TWO_40, TWO_40] && shape[1..] == [TWO_40, TWO_40];
    EmptyCount([TWO_40, TWO_40]);
    TwoDimensions(TWO_40, TWO_40);
  }

  /** An empty concatenation that the contiguous form refuses for its inner length; the generic
      kernel only needs inputs of the right length. */
  lemma ConcatInnerCanOverflow()
    ensures ContiguousFacts([0, TWO_40, TWO_23], HALF).Ok?
    ensures var f := ContiguousFacts([0, TWO_40, TWO_23], HALF).value;
            CanonicalInputs(0, [f, f], f) && !InnerFits(0, [f, f])
  {
    var shape := [0, TWO_40, TWO_23];
    assert shape == [0] + [TWO_40, TWO_23] && shape[1..] == [TWO_40, TWO_23];
    TwoDimensions(TWO_40, TWO_23);
    EmptyFacts([TWO_40, TWO_23], HALF);
    ContiguousFactsShape(shape, HALF);
    var f := ContiguousFacts(shape, HALF).value;
    assert shape[0 := 0] == shape;
    hide NewFacts, ContiguousFacts, CheckedElementsFrom;
    assert [f, f][1..] == [f] && [f][1..] == [];
    assert ConcatLength(0, f, [], 0) == Ok(0) && ConcatLength(0, f, [f], 0) == Ok(0) && ConcatLength(0, f, [f, f], 0) == Ok(0);
  }

  /** An empty 3x3 weight that the vector form refuses for the length of one channel; the
      generic storage copy takes it. */
  lemma ChannelCanOverflow()
    ensures ContiguousFacts([0, TWO_60, 3, 3], HALF).Ok?
    ensures var f := ContiguousFacts([0, TWO_60, 3, 3], HALF).value;
            ValidFacts(f) && Applies(OHWI_ORDER, Storage(Custom("ohwi")), f) && Vectorized(f, true)
            && !ChannelFits(f) && SuffixesFit(f.logicalShape)
  {
    var shape := [0, TWO_60, 3, 3];
    assert shape == [0] + [TWO_60, 3, 3] && [TWO_60, 3, 3][1..] == [3, 3];
    TwoDimensions(3, 3);
    assert Elements([TWO_60, 3, 3]) == TWO_60 * 9;
    EmptyFacts([TWO_60, 3, 3], HALF);
    ContiguousFactsShape(shape, HALF);
    assert shape[1..] == [TWO_60, 3, 3];
  }

  /** An empty packed tensor whose single row is refused line by line: its length as a whole is
      zero. */
  lemma PackedRowCanOverflow()
    ensures var shape := [0, U64_MAX - 31];
            GgufTensors.BlocksLength(shape, 32, 34) == Ok(0)
            && GgufTensors.FromCode(8) == Ok(GgufTensors.Blocks("q8_0", 32, 34))
            && GgufTensors.Storage(GgufTensors.Blocks("q8_0", 32, 34), 0, shape) == Err(ResourceLimit)
  {
    var shape := [0, U64_MAX - 31];
    TwoDimensions(0, U64_MAX - 31);
    GgufTensors.PackedStorageAccepts("q8_0", 32, 34, 0, shape, 0);
  }
}
