/** Block-packed storage lengths: the length a header validator computes for a packed tensor
    and the length the storage constructor demands. */
module Packing {
  import opened Checked
  import opened Shapes

  datatype PackingOrder = Flat | Axis(axis: nat)

  datatype BlockPacking = BlockPacking(values: nat, bytes: nat, order: PackingOrder)

  function BlockBytes(values: nat, valuesPerBlock: nat, bytesPerBlock: nat): Result<nat>
    requires valuesPerBlock > 0
  {
    if values == 0 then Ok(0)
    else
      match CheckedAdd(values, valuesPerBlock - 1)
      case Err(e) => Err(e)
      case Ok(rounded) => CheckedMul(rounded / valuesPerBlock, bytesPerBlock)
  }

  /** The length of an axis-blocked payload: every line along the axis is packed on its own. */
  function AxisBytes(elements: nat, axisValues: nat, values: nat, bytes: nat): Result<nat>
    requires values > 0
  {
    if axisValues == 0 then Ok(0)
    else
      match BlockBytes(axisValues, values, bytes)
      case Err(e) => Err(e)
      case Ok(line) => CheckedMul(elements / axisValues, line)
  }

  function PackedBytes(shape: Shape, packing: BlockPacking): Result<nat>
    requires packing.values > 0
  {
    match CheckedElements(shape)
    case Err(e) => Err(e)
    case Ok(elements) =>
      match packing.order
      case Flat => BlockBytes(elements, packing.values, packing.bytes)
      case Axis(axis) =>
        if axis >= |shape| then Err(InvalidFormat)
        else AxisBytes(elements, shape[axis], packing.values, packing.bytes)
  }

  /** The constructor's validation of shape, span length and packing. */
  function CheckPacking(shape: Shape, length: nat, packing: BlockPacking): Result<()> {
    if packing.values == 0 || packing.bytes == 0 then Err(InvalidFormat)
    else
      match PackedBytes(shape, packing)
      case Err(e) => Err(e)
      case Ok(expected) => if expected == length then Ok(()) else Err(InvalidFormat)
  }

  /** The block sizes divide 2^64, so rounding a whole number of blocks up never overflows. */
  predicate BlockSize(values: nat) {
    values in {2, 4, 32, 64, 128, 256}
  }

  lemma WholeBlocksRound(elements: nat, values: nat)
    requires BlockSize(values) && elements <= U64_MAX && elements % values == 0
    ensures elements + (values - 1) <= U64_MAX
    ensures (elements + (values - 1)) / values == elements / values
  {
  }

  lemma WholeBlocks(elements: nat, values: nat, bytes: nat)
    requires BlockSize(values) && elements <= U64_MAX && elements % values == 0
    ensures BlockBytes(elements, values, bytes) == CheckedMul(elements / values, bytes)
  {
    WholeBlocksRound(elements, values);
  }

  /** A flat-packed tensor whose element count is a whole number of blocks always passes. */
  lemma FlatPackingAgrees(shape: Shape, values: nat, bytes: nat, length: nat)
    requires BlockSize(values) && bytes > 0
    requires CheckedElements(shape).Ok? && CheckedElements(shape).value % values == 0
    requires CheckedMul(CheckedElements(shape).value / values, bytes) == Ok(length)
    ensures CheckPacking(shape, length, BlockPacking(values, bytes, Flat)) == Ok(())
  {
    CheckedElementsIsProduct(shape);
    WholeBlocks(CheckedElements(shape).value, values, bytes);
  }

  /** Whole blocks account for every value: the packed length is exact. */
  lemma BlocksAreExact(n: nat, v: nat, b: nat)
    requires v > 0 && n % v == 0
    ensures (n / v * b) * v == n * b
  {
    var q := n / v;
    Recompose(n, v);
    assert (q * b) * v == (q * v) * b;
  }

  lemma LinesOfBlocks(lines: nat, blocks: nat, values: nat)
    requires values > 0
    ensures (lines * (blocks * values)) / values == lines * blocks
  {
    assert lines * (blocks * values) == (lines * blocks) * values;
    DivModOf(lines * blocks, values, 0);
  }

  /** The packed length of one line along the block axis. */
  function LineBytes(axisValues: nat, values: nat, bytes: nat): nat
    requires values > 0
  {
    axisValues / values * bytes
  }

  lemma LineLengths(lines: nat, axisValues: nat, values: nat, bytes: nat)
    requires values > 0 && axisValues % values == 0
    ensures (lines * axisValues) / values * bytes == lines * LineBytes(axisValues, values, bytes)
    ensures lines > 0 ==> LineBytes(axisValues, values, bytes) <= lines * LineBytes(axisValues, values, bytes)
  {
    var blocks := axisValues / values;
    Recompose(axisValues, values);
    LinesOfBlocks(lines, blocks, values);
    assert (lines * blocks) * bytes == lines * (blocks * bytes);
    if lines > 0 {
      MulMono(1, lines, LineBytes(axisValues, values, bytes));
    }
  }

  /** Splitting a whole packed tensor into lines along an axis of whole blocks changes no byte
      count; the line-by-line check fails only when there is no line and one line's packed
      length does not fit in 64 bits. */
  lemma AxisBytesAgree(lines: nat, axisValues: nat, values: nat, bytes: nat)
    requires BlockSize(values) && axisValues <= U64_MAX && axisValues % values == 0
    requires (lines * axisValues) / values * bytes <= U64_MAX
    ensures AxisBytes(lines * axisValues, axisValues, values, bytes)
            == if axisValues == 0 || lines > 0 || LineBytes(axisValues, values, bytes) <= U64_MAX
               then Ok((lines * axisValues) / values * bytes)
               else Err(ResourceLimit)
  {
    assert values > 0;
    hide BlockBytes, BlockSize, LineBytes;
    LineLengths(lines, axisValues, values, bytes);
    if axisValues == 0 {
      assert lines * axisValues == 0;
    } else {
      WholeBlocks(axisValues, values, bytes);
      LineOf(axisValues, values, bytes);
      DivModOf(lines, axisValues, 0);
    }
  }

  lemma LineOf(axisValues: nat, values: nat, bytes: nat)
    requires values > 0
    ensures CheckedMul(axisValues / values, bytes)
            == if LineBytes(axisValues, values, bytes) <= U64_MAX then Ok(LineBytes(axisValues, values, bytes))
               else Err(ResourceLimit)
  {
  }
}
