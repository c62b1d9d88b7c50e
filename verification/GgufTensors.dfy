/** Tensor records of a GGUF file: storage lengths, the aligned data base, and disjointness
    of the payload spans. */
module GgufTensors {
  import opened Checked
  import opened Shapes
  import opened Facts
  import opened Packing
  import opened SpanLayout
  import opened Alignment
  import opened Buffers

  datatype GgmlType = Scalar(dtype: DType) | Blocks(name: string, values: nat, bytes: nat)

  function FromCode(code: nat): Result<GgmlType> {
    match code
    case 0 => Ok(Scalar(F32))
    case 1 => Ok(Scalar(F16))
    case 2 => Ok(Blocks("q4_0", 32, 18))
    case 3 => Ok(Blocks("q4_1", 32, 20))
    case 6 => Ok(Blocks("q5_0", 32, 22))
    case 7 => Ok(Blocks("q5_1", 32, 24))
    case 8 => Ok(Blocks("q8_0", 32, 34))
    case 9 => Ok(Blocks("q8_1", 32, 36))
    case 10 => Ok(Blocks("q2_k", 256, 84))
    case 11 => Ok(Blocks("q3_k", 256, 110))
    case 12 => Ok(Blocks("q4_k", 256, 144))
    case 13 => Ok(Blocks("q5_k", 256, 176))
    case 14 => Ok(Blocks("q6_k", 256, 210))
    case 15 => Ok(Blocks("q8_k", 256, 292))
    case 16 => Ok(Blocks("iq2_xxs", 256, 66))
    case 17 => Ok(Blocks("iq2_xs", 256, 74))
    case 18 => Ok(Blocks("iq3_xxs", 256, 98))
    case 19 => Ok(Blocks("iq1_s", 256, 50))
    case 20 => Ok(Blocks("iq4_nl", 32, 18))
    case 21 => Ok(Blocks("iq3_s", 256, 110))
    case 22 => Ok(Blocks("iq2_s", 256, 82))
    case 23 => Ok(Blocks("iq4_xs", 256, 136))
    case 24 => Ok(Scalar(I8))
    case 25 => Ok(Scalar(I16))
    case 26 => Ok(Scalar(I32))
    case 27 => Ok(Scalar(I64))
    case 28 => Ok(Scalar(F64))
    case 29 => Ok(Blocks("iq1_m", 256, 56))
    case 30 => Ok(Scalar(Bf16))
    case 34 => Ok(Blocks("tq1_0", 256, 54))
    case 35 => Ok(Blocks("tq2_0", 256, 66))
    case 39 => Ok(Blocks("mxfp4", 32, 17))
    case 40 => Ok(Blocks("nvfp4", 64, 36))
    case 41 => Ok(Blocks("q1_0", 128, 18))
    case 42 => Ok(Blocks("q2_0", 64, 18))
    case _ => Err(Unsupported)
  }

  predicate Known(t: GgmlType) {
    t.Blocks? ==> BlockSize(t.values) && t.bytes > 0
  }

  lemma FromCodeIsKnown(code: nat)
    ensures FromCode(code).Ok? ==> Known(FromCode(code).value)
  {
  }

  datatype RawTensor = RawTensor(name: seq<byte>, dimensions: Shape, ggmlType: nat, relativeOffset: nat)

  datatype TensorRecord = TensorRecord(name: seq<byte>, shape: Shape, ggml: GgmlType, offset: nat, length: nat)

  /** The byte length of a packed tensor before its storage is built. */
  function BlocksLength(shape: Shape, values: nat, bytes: nat): Result<nat>
    requires values > 0
  {
    if shape == [] || shape[|shape| - 1] % values != 0 then Err(InvalidFormat)
    else
      match CheckedElements(shape)
      case Err(e) => Err(e)
      case Ok(elements) => CheckedMul(elements / values, bytes)
  }

  function SpanLength(ggml: GgmlType, offset: nat, length: nat): Result<nat> {
    match CheckedAdd(offset, length)
    case Err(e) => Err(e)
    case Ok(_) => Ok(length)
  }

  /** The validated payload length of one tensor. */
  function Storage(ggml: GgmlType, offset: nat, shape: Shape): Result<nat>
    requires Known(ggml)
  {
    match ggml
    case Scalar(dtype) =>
      (match dtype.ByteLen(shape)
       case Err(e) => Err(e)
       case Ok(length) => SpanLength(ggml, offset, length))
    case Blocks(_, values, bytes) =>
      match BlocksLength(shape, values, bytes)
      case Err(e) => Err(e)
      case Ok(length) =>
        match SpanLength(ggml, offset, length)
        case Err(e) => Err(e)
        case Ok(_) =>
          if |shape| - 1 > U32_MAX then Err(ResourceLimit)
          else
            match CheckPacking(shape, length, BlockPacking(values, bytes, Axis(|shape| - 1)))
            case Err(e) => Err(e)
            case Ok(_) => Ok(length)
  }

  /** GGUF stores dimensions innermost first. */
  function Reversed(dims: Shape): (r: Shape)
    ensures |r| == |dims| && forall i :: 0 <= i < |dims| ==> r[i] == dims[|dims| - 1 - i]
  {
    if dims == [] then [] else Reversed(dims[1..]) + [dims[0]]
  }

  function BuildRecord(raw: RawTensor, fileSize: nat, dataBase: nat, alignment: nat): Result<TensorRecord>
    requires alignment > 0
  {
    if raw.relativeOffset % alignment != 0 then Err(InvalidFormat)
    else if dataBase + raw.relativeOffset > U64_MAX then Err(ResourceLimit)
    else
      var offset, shape := dataBase + raw.relativeOffset, Reversed(raw.dimensions);
      match FromCode(raw.ggmlType)
      case Err(e) => Err(e)
      case Ok(ggml) =>
        FromCodeIsKnown(raw.ggmlType);
        match Storage(ggml, offset, shape)
        case Err(e) => Err(e)
        case Ok(length) =>
          if offset + length > fileSize then Err(InvalidFormat)
          else Ok(TensorRecord(raw.name, shape, ggml, offset, length))
  }

  /** The records in file order, or the error of the first tensor refused on its own. */
  function BuildRecords(raws: seq<RawTensor>, fileSize: nat, dataBase: nat, alignment: nat): Result<seq<TensorRecord>>
    requires alignment > 0
  {
    if raws == [] then Ok([])
    else
      match BuildRecord(raws[0], fileSize, dataBase, alignment)
      case Err(e) => Err(e)
      case Ok(record) =>
        match BuildRecords(raws[1..], fileSize, dataBase, alignment)
        case Err(e) => Err(e)
        case Ok(rest) => Ok([record] + rest)
  }

  /** The occupied file span of a record; the sort compares nothing but offset and end. */
  function Occupied(record: TensorRecord): Placed<()> {
    Placed(record.offset, record.offset + record.length, [], ())
  }

  function Spans(records: seq<TensorRecord>): (s: seq<Placed<()>>)
    ensures |s| == |records| && forall i :: 0 <= i < |s| ==> s[i] == Occupied(records[i])
  {
    if records == [] then [] else [Occupied(records[0])] + Spans(records[1..])
  }

  lemma SpansAppend(records: seq<TensorRecord>, record: TensorRecord)
    ensures Spans(records + [record]) == Spans(records) + [Occupied(record)]
  {
  }

  lemma AfterStep(done: seq<TensorRecord>, raws: seq<RawTensor>, fileSize: nat, dataBase: nat, alignment: nat)
    requires raws != [] && alignment > 0
    ensures After(done, BuildRecords(raws, fileSize, dataBase, alignment))
            == match BuildRecord(raws[0], fileSize, dataBase, alignment)
               case Err(e) => Err(e)
               case Ok(record) => After(done + [record], BuildRecords(raws[1..], fileSize, dataBase, alignment))
  {
    hide BuildRecord;
    match BuildRecord(raws[0], fileSize, dataBase, alignment)
    case Err(_) =>
    case Ok(record) =>
      match BuildRecords(raws[1..], fileSize, dataBase, alignment)
      case Err(_) =>
      case Ok(rs) => assert done + ([record] + rs) == (done + [record]) + rs;
  }

  lemma NoRecords(raws: seq<RawTensor>, fileSize: nat, dataBase: nat, alignment: nat)
    requires raws == [] && alignment > 0
    ensures BuildRecords(raws, fileSize, dataBase, alignment) == Ok([])
  {
  }

  /** The neighbour scan over sorted spans. */
  method Overlapping(spans: seq<Placed<()>>) returns (found: bool)
    ensures found == !NeighboursApart(spans)
  {
    var k := 0;
    assert spans[0..] == spans;
    while k + 1 < |spans|
      invariant 0 <= k <= |spans|
      invariant NeighboursApart(spans) == NeighboursApart(spans[k..])
    {
      assert spans[k..][1..] == spans[k + 1..];
      assert spans[k..][0] == spans[k] && spans[k..][1] == spans[k + 1];
      if spans[k].end > spans[k + 1].start {
        return true;
      }
      k := k + 1;
    }
    return false;
  }

  /** Tensors acceptable on their own are accepted together, in file order, exactly when no
      two payload spans overlap. */
  method BuildTensorRecords(raws: seq<RawTensor>, fileSize: nat, dataBase: nat, alignment: nat)
    returns (r: Result<seq<TensorRecord>>)
    requires alignment > 0
    ensures match BuildRecords(raws, fileSize, dataBase, alignment)
            case Err(e) => r == Err(e)
            case Ok(records) => r == if PairwiseApart(Spans(records)) then Ok(records) else Err(InvalidFormat)
  {
    hide BuildRecord, BuildRecords, Sort, NeighboursApart, PairwiseApart;
    var records: seq<TensorRecord> := [];
    var occupied: seq<Placed<()>> := [];
    var k := 0;
    assert raws[0..] == raws;
    AfterNothing(BuildRecords(raws, fileSize, dataBase, alignment));
    while k < |raws|
      invariant 0 <= k <= |raws|
      invariant occupied == Spans(records)
      invariant BuildRecords(raws, fileSize, dataBase, alignment)
                == After(records, BuildRecords(raws[k..], fileSize, dataBase, alignment))
    {
      assert raws[k..][1..] == raws[k + 1..] && raws[k..][0] == raws[k];
      AfterStep(records, raws[k..], fileSize, dataBase, alignment);
      var record :- BuildRecord(raws[k], fileSize, dataBase, alignment);
      SpansAppend(records, record);
      occupied := occupied + [Occupied(record)];
      records := records + [record];
      k := k + 1;
    }
    NoRecords(raws[k..], fileSize, dataBase, alignment);
    assert records + [] == records;
    NeighbourCheckDecidesDisjointness(occupied);
    var overlap := Overlapping(Sort(occupied));
    if overlap {
      return Err(InvalidFormat);
    }
    return Ok(records);
  }

  // ----- what acceptance means -----

  /** An aligned payload inside the file whose length is exactly that of its elements. */
  ghost predicate Sound(record: TensorRecord, fileSize: nat, dataBase: nat, alignment: nat)
    requires alignment > 0
  {
    && record.offset >= dataBase && (record.offset - dataBase) % alignment == 0
    && record.offset + record.length <= fileSize
    && ExactLength(record.ggml, record.shape, record.length)
  }

  ghost predicate ExactLength(ggml: GgmlType, shape: Shape, length: nat) {
    match ggml
    case Scalar(dtype) => length == Elements(shape) * dtype.Width()
    case Blocks(_, values, bytes) =>
      shape != [] && values > 0 && shape[|shape| - 1] % values == 0 && length * values == Elements(shape) * bytes
  }

  lemma ProductDivides(outer: nat, last: nat, v: nat)
    requires v > 0 && last % v == 0
    ensures (outer * last) % v == 0
  {
    var q := last / v;
    Recompose(last, v);
    assert outer * (q * v) == (outer * q) * v;
    DivModOf(outer * q, v, 0);
  }

  lemma LastAxisDivides(shape: Shape, v: nat)
    requires shape != [] && v > 0 && shape[|shape| - 1] % v == 0
    ensures Elements(shape) % v == 0
    ensures Elements(shape) == Elements(shape[..|shape| - 1]) * shape[|shape| - 1]
  {
    hide Elements;
    LastFactor(shape);
    ProductDivides(Elements(shape[..|shape| - 1]), shape[|shape| - 1], v);
  }

  lemma {:induction false} LastFactor(shape: Shape)
    requires shape != []
    ensures Elements(shape) == Elements(shape[..|shape| - 1]) * shape[|shape| - 1]
  {
    var n := |shape| - 1;
    if n > 0 {
      LastFactor(shape[1..]);
      assert shape[1..][..n - 1] == shape[..n][1..];
      var inner := Elements(shape[..n][1..]);
      assert shape[0] * (inner * shape[n]) == (shape[0] * inner) * shape[n];
    }
  }

  lemma StorageIsExact(ggml: GgmlType, offset: nat, shape: Shape)
    requires Known(ggml) && Storage(ggml, offset, shape).Ok?
    ensures ExactLength(ggml, shape, Storage(ggml, offset, shape).value)
  {
    hide CheckPacking, Elements, CheckedElementsFrom;
    CheckedElementsIsProduct(shape);
    if ggml.Blocks? {
      LastAxisDivides(shape, ggml.values);
      BlocksAreExact(Elements(shape), ggml.values, ggml.bytes);
    }
  }

  lemma RecordIsSound(raw: RawTensor, fileSize: nat, dataBase: nat, alignment: nat)
    requires alignment > 0 && BuildRecord(raw, fileSize, dataBase, alignment).Ok?
    ensures Sound(BuildRecord(raw, fileSize, dataBase, alignment).value, fileSize, dataBase, alignment)
  {
    hide Storage, ExactLength;
    FromCodeIsKnown(raw.ggmlType);
    StorageIsExact(FromCode(raw.ggmlType).value, dataBase + raw.relativeOffset, Reversed(raw.dimensions));
  }

  lemma {:induction false} RecordsAreSound(raws: seq<RawTensor>, fileSize: nat, dataBase: nat, alignment: nat)
    requires alignment > 0 && BuildRecords(raws, fileSize, dataBase, alignment).Ok?
    ensures var records := BuildRecords(raws, fileSize, dataBase, alignment).value;
            |records| == |raws|
            && forall i :: 0 <= i < |records| ==>
                 records[i].name == raws[i].name && Sound(records[i], fileSize, dataBase, alignment)
  {
    if raws != [] {
      RecordIsSound(raws[0], fileSize, dataBase, alignment);
      RecordName(raws[0], fileSize, dataBase, alignment);
      hide BuildRecord, Sound;
      RecordsAreSound(raws[1..], fileSize, dataBase, alignment);
      var records := BuildRecords(raws, fileSize, dataBase, alignment).value;
      forall i | 0 < i < |records|
        ensures records[i].name == raws[i].name && Sound(records[i], fileSize, dataBase, alignment)
      {
        assert records[i] == BuildRecords(raws[1..], fileSize, dataBase, alignment).value[i - 1];
        assert raws[i] == raws[1..][i - 1];
      }
    }
  }

  lemma RecordName(raw: RawTensor, fileSize: nat, dataBase: nat, alignment: nat)
    requires alignment > 0 && BuildRecord(raw, fileSize, dataBase, alignment).Ok?
    ensures BuildRecord(raw, fileSize, dataBase, alignment).value.name == raw.name
  {
  }

  /** When the storage constructor's line-by-line check of a packed tensor can still refuse a
      length the parser computed: only for a tensor without elements whose single row, packed,
      would not fit in 64 bits. */
  lemma PackedStorageAccepts(name: string, values: nat, bytes: nat, offset: nat, shape: Shape, length: nat)
    requires BlockSize(values) && bytes > 0 && |shape| - 1 <= U32_MAX
    requires forall i :: 0 <= i < |shape| ==> shape[i] <= U64_MAX
    requires BlocksLength(shape, values, bytes) == Ok(length) && offset + length <= U64_MAX
    ensures var row := shape[|shape| - 1];
            Storage(Blocks(name, values, bytes), offset, shape)
            == if Elements(shape) > 0 || row == 0 || LineBytes(row, values, bytes) <= U64_MAX then Ok(length)
               else Err(ResourceLimit)
  {
    var n := |shape| - 1;
    var row, lines := shape[n], Elements(shape[..n]);
    assert values > 0;
    hide BlockSize, Elements, CheckedElementsFrom, LineBytes, AxisBytes;
    CheckedElementsIsProduct(shape);
    LastAxisDivides(shape, values);
    assert row % values == 0 && Elements(shape) == lines * row;
    assert CheckedMul(Elements(shape) / values, bytes) == Ok(length);
    AxisBytesAgree(lines, row, values, bytes);
    Positive(lines, row);
  }

  lemma Positive(a: nat, b: nat)
    ensures a * b > 0 <==> a > 0 && b > 0
  {
  }

  // ----- exactly which tensors are accepted -----

  /** Whole blocks along the innermost dimension, exactly as many bytes as the elements take. */
  predicate BlocksPayload(dimensions: Shape, values: nat, bytes: nat, length: nat)
    requires dimensions != [] && values > 0
  {
    dimensions[0] % values == 0 && CheckedElements(Reversed(dimensions)) == Ok(Elements(Reversed(dimensions)))
    && length * values == Elements(Reversed(dimensions)) * bytes && length <= U64_MAX
  }

  /** A tensor with elements, or one whose innermost row would fit when packed. */
  predicate RowFits(dimensions: Shape, values: nat, bytes: nat)
    requires dimensions != [] && values > 0
  {
    Elements(Reversed(dimensions)) > 0 || dimensions[0] == 0 || LineBytes(dimensions[0], values, bytes) <= U64_MAX
  }

  /** The payload length of a tensor with these dimensions, innermost first. */
  predicate PayloadLength(ggml: GgmlType, dimensions: Shape, length: nat) {
    match ggml
    case Scalar(dtype) =>
      CheckedElements(Reversed(dimensions)) == Ok(Elements(Reversed(dimensions)))
      && length == Elements(Reversed(dimensions)) * dtype.Width() && length <= U64_MAX
    case Blocks(_, values, bytes) =>
      dimensions != [] && values > 0 && BlocksPayload(dimensions, values, bytes, length) && RowFits(dimensions, values, bytes)
  }

  lemma BlockQuotient(n: nat, v: nat, b: nat, length: nat)
    requires v > 0 && n % v == 0
    ensures length * v == n * b <==> length == n / v * b
  {
    BlocksAreExact(n, v, b);
    DivModOf(length, v, 0);
    DivModOf(n / v * b, v, 0);
  }

  lemma ScalarLength(dtype: DType, offset: nat, dimensions: Shape, length: nat)
    ensures Storage(Scalar(dtype), offset, Reversed(dimensions)) == Ok(length)
            <==> PayloadLength(Scalar(dtype), dimensions, length) && offset + length <= U64_MAX
  {
    hide Elements, CheckedElementsFrom;
    CheckedElementsIsProduct(Reversed(dimensions));
  }

  lemma BlocksLengthIs(name: string, values: nat, bytes: nat, dimensions: Shape, length: nat)
    requires BlockSize(values) && dimensions != []
    ensures values > 0
    ensures BlocksLength(Reversed(dimensions), values, bytes) == Ok(length) <==> BlocksPayload(dimensions, values, bytes, length)
  {
    assert values > 0;
    hide Elements, CheckedElementsFrom, BlockSize;
    var shape := Reversed(dimensions);
    CheckedElementsIsProduct(shape);
    if dimensions[0] % values == 0 {
      LastAxisDivides(shape, values);
      BlockQuotient(Elements(shape), values, bytes, length);
    }
  }

  lemma BlockStorageIsBlocksLength(name: string, values: nat, bytes: nat, offset: nat, shape: Shape, length: nat)
    requires BlockSize(values) && bytes > 0 && Storage(Blocks(name, values, bytes), offset, shape) == Ok(length)
    ensures values > 0 && BlocksLength(shape, values, bytes) == Ok(length) && offset + length <= U64_MAX
  {
    hide BlocksLength, CheckPacking;
  }

  lemma RowDecides(name: string, values: nat, bytes: nat, offset: nat, dimensions: Shape, length: nat)
    requires BlockSize(values) && bytes > 0 && 0 < |dimensions| <= U32_MAX
    requires forall i :: 0 <= i < |dimensions| ==> dimensions[i] <= U64_MAX
    requires BlocksLength(Reversed(dimensions), values, bytes) == Ok(length) && offset + length <= U64_MAX
    ensures values > 0
    ensures Storage(Blocks(name, values, bytes), offset, Reversed(dimensions)) == Ok(length) <==> RowFits(dimensions, values, bytes)
  {
    assert values > 0;
    hide BlockSize, Elements, LineBytes, BlocksLength, Storage;
    PackedStorageAccepts(name, values, bytes, offset, Reversed(dimensions), length);
  }

  lemma BlockStorage(name: string, values: nat, bytes: nat, offset: nat, dimensions: Shape, length: nat)
    requires BlockSize(values) && bytes > 0 && |dimensions| <= U32_MAX
    requires forall i :: 0 <= i < |dimensions| ==> dimensions[i] <= U64_MAX
    ensures Storage(Blocks(name, values, bytes), offset, Reversed(dimensions)) == Ok(length)
            <==> PayloadLength(Blocks(name, values, bytes), dimensions, length) && offset + length <= U64_MAX
  {
    assert values > 0;
    hide BlockSize, Elements, BlocksLength, BlocksPayload, Storage, RowFits;
    var shape := Reversed(dimensions);
    if Storage(Blocks(name, values, bytes), offset, shape) == Ok(length) {
      BlockStorageIsBlocksLength(name, values, bytes, offset, shape, length);
    }
    if dimensions == [] {
      NoBlockAxis(values, bytes);
    } else {
      BlocksLengthIs(name, values, bytes, dimensions, length);
      if BlocksLength(shape, values, bytes) == Ok(length) && offset + length <= U64_MAX {
        RowDecides(name, values, bytes, offset, dimensions, length);
      }
    }
  }

  lemma NoBlockAxis(values: nat, bytes: nat)
    requires values > 0
    ensures BlocksLength(Reversed([]), values, bytes) == Err(InvalidFormat)
  {
  }

  /** The record of a descriptor: its name, its type, its dimensions outermost first, and an aligned
      span of exactly the elements that ends inside the file. */
  predicate Describes(raw: RawTensor, fileSize: nat, dataBase: nat, alignment: nat, record: TensorRecord)
    requires alignment > 0
  {
    && raw.relativeOffset % alignment == 0
    && FromCode(raw.ggmlType) == Ok(record.ggml)
    && PayloadLength(record.ggml, raw.dimensions, record.length)
    && dataBase + raw.relativeOffset + record.length <= fileSize
    && record.name == raw.name && record.offset == dataBase + raw.relativeOffset
    && |record.shape| == |raw.dimensions|
    && forall j :: 0 <= j < |record.shape| ==> record.shape[j] == raw.dimensions[|raw.dimensions| - 1 - j]
  }

  /** A tensor is accepted on its own if and only if its offset is aligned, its type code is known
      and its payload, exactly as long as its elements, ends inside the file. */
  lemma RecordIsExactly(raw: RawTensor, fileSize: nat, dataBase: nat, alignment: nat, record: TensorRecord)
    requires alignment > 0 && fileSize <= U64_MAX && |raw.dimensions| <= U32_MAX
    requires forall i :: 0 <= i < |raw.dimensions| ==> raw.dimensions[i] <= U64_MAX
    ensures BuildRecord(raw, fileSize, dataBase, alignment) == Ok(record)
            <==> Describes(raw, fileSize, dataBase, alignment, record)
  {
    hide PayloadLength, Storage, FromCode;
    FromCodeIsKnown(raw.ggmlType);
    var offset, code := dataBase + raw.relativeOffset, FromCode(raw.ggmlType);
    if code.Ok? {
      forall length: nat
        ensures Storage(code.value, offset, Reversed(raw.dimensions)) == Ok(length)
                <==> PayloadLength(code.value, raw.dimensions, length) && offset + length <= U64_MAX
      {
        match code.value
        case Scalar(dtype) => ScalarLength(dtype, offset, raw.dimensions, length);
        case Blocks(name, values, bytes) => BlockStorage(name, values, bytes, offset, raw.dimensions, length);
      }
    }
    if record.shape == Reversed(raw.dimensions) {
    } else if |record.shape| == |raw.dimensions| {
      assert exists j :: 0 <= j < |record.shape| && record.shape[j] != Reversed(raw.dimensions)[j];
    }
  }

  lemma {:induction false} RecordsAreExactly(raws: seq<RawTensor>, fileSize: nat, dataBase: nat, alignment: nat, records: seq<TensorRecord>)
    requires alignment > 0
    ensures BuildRecords(raws, fileSize, dataBase, alignment) == Ok(records)
            <==> |records| == |raws|
                 && forall i :: 0 <= i < |raws| ==> BuildRecord(raws[i], fileSize, dataBase, alignment) == Ok(records[i])
  {
    hide BuildRecord;
    if raws != [] {
      if |records| == |raws| {
        RecordsAreExactly(raws[1..], fileSize, dataBase, alignment, records[1..]);
        assert [records[0]] + records[1..] == records;
        assert forall i :: 0 < i < |raws| ==> raws[i] == raws[1..][i - 1] && records[i] == records[1..][i - 1];
        assert forall i :: 0 <= i < |raws[1..]| ==> raws[1..][i] == raws[i + 1] && records[1..][i] == records[i + 1];
      } else if BuildRecords(raws, fileSize, dataBase, alignment).Ok? {
        RecordsAreSound(raws, fileSize, dataBase, alignment);
      }
    }
  }

  // ----- the aligned data base -----

  /** Where the data section starts, after a header of `headerEnd` bytes. */
  function DataBase(headerEnd: nat, alignment: nat, fileSize: nat, maxHeader: nat): Result<nat>
    requires 0 < alignment <= U64_MAX
  {
    match AlignUp(headerEnd, alignment)
    case Err(e) => Err(e)
    case Ok(base) =>
      if base > fileSize then Err(InvalidFormat)
      else if base > maxHeader then Err(ResourceLimit)
      else Ok(base)
  }

  lemma MultiplesAdd(base: nat, offset: nat, alignment: nat)
    requires alignment > 0 && base <= offset && base % alignment == 0 && (offset - base) % alignment == 0
    ensures offset % alignment == 0
  {
    var p, q := base / alignment, (offset - base) / alignment;
    Recompose(base, alignment);
    Recompose(offset - base, alignment);
    assert (p + q) * alignment == p * alignment + q * alignment;
    DivModOf(p + q, alignment, 0);
  }

  ghost predicate AlignedBeyond(r: TensorRecord, headerEnd: nat, alignment: nat, fileSize: nat)
    requires alignment > 0
  {
    && r.offset >= headerEnd && r.offset % alignment == 0 && r.offset + r.length <= fileSize
    && ExactLength(r.ggml, r.shape, r.length)
  }

  predicate HoldsByte(r: TensorRecord, p: nat) {
    r.offset <= p < r.offset + r.length
  }

  lemma {:induction false} ApartShareNothing(records: seq<TensorRecord>, i: nat, j: nat, p: nat)
    requires i < j < |records| && PairwiseApart(Spans(records))
    ensures !(HoldsByte(records[i], p) && HoldsByte(records[j], p))
  {
    assert Apart(Spans(records)[i], Spans(records)[j]);
  }

  lemma SoundIsAligned(r: TensorRecord, headerEnd: nat, base: nat, alignment: nat, fileSize: nat)
    requires alignment > 0 && MultipleFrom(base, alignment, headerEnd) && Sound(r, fileSize, base, alignment)
    ensures AlignedBeyond(r, headerEnd, alignment, fileSize)
  {
    MultiplesAdd(base, r.offset, alignment);
  }

  /** The layout of every accepted file: each payload is aligned in the file, lies after the
      header and inside the file, has exactly the length of its elements, and shares no byte
      with any other. */
  lemma AcceptedLayout(raws: seq<RawTensor>, headerEnd: nat, alignment: nat, fileSize: nat, maxHeader: nat,
                       records: seq<TensorRecord>)
    requires IsPowerOfTwo(alignment) && 0 < alignment <= U64_MAX && headerEnd <= U64_MAX
    requires DataBase(headerEnd, alignment, fileSize, maxHeader).Ok?
    requires BuildRecords(raws, fileSize, DataBase(headerEnd, alignment, fileSize, maxHeader).value, alignment) == Ok(records)
    requires PairwiseApart(Spans(records))
    ensures forall i :: 0 <= i < |records| ==> AlignedBeyond(records[i], headerEnd, alignment, fileSize)
    ensures forall i: nat, j: nat, p: nat :: i < j < |records| ==>
              !(HoldsByte(records[i], p) && HoldsByte(records[j], p))
  {
    hide BuildRecords, Sound, IsPowerOfTwo, AlignUp, PairwiseApart, Spans, HoldsByte, AlignedBeyond;
    var base := DataBase(headerEnd, alignment, fileSize, maxHeader).value;
    AlignUpIsLeastMultiple(headerEnd, alignment);
    RecordsAreSound(raws, fileSize, base, alignment);
    forall i | 0 <= i < |records|
      ensures AlignedBeyond(records[i], headerEnd, alignment, fileSize)
    {
      SoundIsAligned(records[i], headerEnd, base, alignment, fileSize);
    }
    forall i: nat, j: nat, p: nat | i < j < |records|
      ensures !(HoldsByte(records[i], p) && HoldsByte(records[j], p))
    {
      ApartShareNothing(records, i, j, p);
    }
  }
}
