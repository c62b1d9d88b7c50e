/** Validation of the tensor entries of a Safetensors header. */
module Safetensors {
  import opened Checked
  import opened Shapes
  import opened Facts
  import opened Packing
  import opened SpanLayout

  datatype HeaderDtype = Plain(dtype: DType) | Quantized(operation: string, values: nat, bytes: nat)

  /** An entry as the JSON header states it; offsets are relative to the data section. */
  datatype RawTensor = RawTensor(name: seq<nat>, dtype: string, shape: Shape, start: nat, end: nat)

  datatype Typed = Typed(shape: Shape, dtype: HeaderDtype)

  type Entry = Placed<Typed>

  datatype TensorRecord = TensorRecord(name: seq<nat>, shape: Shape, dtype: HeaderDtype, offset: nat, length: nat)

  function ParseDtype(value: string): Result<HeaderDtype> {
    match value
    case "BOOL" => Ok(Plain(Bool))
    case "F4" => Ok(Quantized("f4", 2, 1))
    case "F6_E2M3" => Ok(Quantized("f6-e2m3", 4, 3))
    case "F6_E3M2" => Ok(Quantized("f6-e3m2", 4, 3))
    case "U8" => Ok(Plain(U8))
    case "I8" => Ok(Plain(I8))
    case "U16" => Ok(Plain(U16))
    case "I16" => Ok(Plain(I16))
    case "U32" => Ok(Plain(U32))
    case "I32" => Ok(Plain(I32))
    case "U64" => Ok(Plain(U64))
    case "I64" => Ok(Plain(I64))
    case "F16" => Ok(Plain(F16))
    case "BF16" => Ok(Plain(Bf16))
    case "F32" => Ok(Plain(F32))
    case "F64" => Ok(Plain(F64))
    case "C64" => Ok(Plain(C64))
    case "F8_E5M2" => Ok(Plain(F8E5M2))
    case "F8_E4M3" => Ok(Plain(F8E4M3))
    case "F8_E8M0" => Ok(Plain(F8E8M0))
    case "F8_E4M3FNUZ" => Ok(Plain(F8E4M3Fnuz))
    case "F8_E5M2FNUZ" => Ok(Plain(F8E5M2Fnuz))
    case _ => Err(Unsupported)
  }

  predicate Known(d: HeaderDtype) {
    d.Quantized? ==> BlockSize(d.values) && d.bytes > 0
  }

  lemma ParsedIsKnown(value: string)
    ensures ParseDtype(value).Ok? ==> Known(ParseDtype(value).value)
  {
  }

  function ByteLen(d: HeaderDtype, shape: Shape): Result<nat>
    requires Known(d)
  {
    match d
    case Plain(dtype) => dtype.ByteLen(shape)
    case Quantized(_, values, bytes) =>
      match CheckedElements(shape)
      case Err(e) => Err(e)
      case Ok(elements) =>
        if elements == 0 then Ok(0)
        else if elements % values != 0 then Err(InvalidFormat)
        else CheckedMul(elements / values, bytes)
  }

  /** The storage constructor's own check of a record. */
  function IntoStorage(d: HeaderDtype, shape: Shape, length: nat): Result<()> {
    match d
    case Plain(_) => Ok(())
    case Quantized(_, values, bytes) => CheckPacking(shape, length, BlockPacking(values, bytes, Flat))
  }

  function ValidateEntry(raw: RawTensor, maxRank: nat, dataLength: nat): Result<Entry> {
    if |raw.shape| > maxRank then Err(ResourceLimit)
    else
      match ParseDtype(raw.dtype)
      case Err(e) => Err(e)
      case Ok(dtype) =>
        ParsedIsKnown(raw.dtype);
        if raw.start > raw.end || raw.end > dataLength then Err(InvalidFormat)
        else
          match ByteLen(dtype, raw.shape)
          case Err(e) => Err(e)
          case Ok(expected) =>
            if raw.end - raw.start != expected then Err(InvalidFormat)
            else Ok(Placed(raw.start, raw.end, raw.name, Typed(raw.shape, dtype)))
  }

  /** The entries in header order, or the error of the first one that is not acceptable on its own. */
  function ValidateEntries(raw: seq<RawTensor>, maxRank: nat, dataLength: nat): Result<seq<Entry>> {
    if raw == [] then Ok([])
    else
      match ValidateEntry(raw[0], maxRank, dataLength)
      case Err(e) => Err(e)
      case Ok(entry) =>
        match ValidateEntries(raw[1..], maxRank, dataLength)
        case Err(e) => Err(e)
        case Ok(rest) => Ok([entry] + rest)
  }

  ghost predicate Sound(e: Entry, dataLength: nat) {
    && e.start <= e.end <= dataLength
    && Known(e.item.dtype)
    && ByteLen(e.item.dtype, e.item.shape) == Ok(e.end - e.start)
  }

  lemma EntryIsSound(raw: RawTensor, maxRank: nat, dataLength: nat)
    ensures ValidateEntry(raw, maxRank, dataLength).Ok? ==>
              Sound(ValidateEntry(raw, maxRank, dataLength).value, dataLength)
  {
    ParsedIsKnown(raw.dtype);
  }

  lemma {:induction false} EntriesAreSound(raw: seq<RawTensor>, maxRank: nat, dataLength: nat)
    requires ValidateEntries(raw, maxRank, dataLength).Ok?
    ensures var es := ValidateEntries(raw, maxRank, dataLength).value;
            |es| == |raw| && forall i :: 0 <= i < |es| ==>
              es[i].name == raw[i].name && es[i].start == raw[i].start && es[i].end == raw[i].end && Sound(es[i], dataLength)
  {
    hide ParseDtype, ByteLen;
    if raw != [] {
      EntryIsSound(raw[0], maxRank, dataLength);
      EntriesAreSound(raw[1..], maxRank, dataLength);
      var es, rest := ValidateEntries(raw, maxRank, dataLength).value, ValidateEntries(raw[1..], maxRank, dataLength).value;
      forall i | 0 < i < |es|
        ensures es[i].name == raw[i].name && es[i].start == raw[i].start && es[i].end == raw[i].end && Sound(es[i], dataLength)
      {
        assert es[i] == rest[i - 1] && raw[i] == raw[1..][i - 1];
      }
    }
  }

  /** The payload of a sound entry is exactly its elements in its dtype: width times elements,
      or whole blocks. */
  lemma SoundLength(e: Entry, dataLength: nat)
    requires Sound(e, dataLength)
    ensures match e.item.dtype
            case Plain(dtype) => e.end - e.start == Elements(e.item.shape) * dtype.Width()
            case Quantized(_, values, bytes) => (e.end - e.start) * values == Elements(e.item.shape) * bytes
  {
    CheckedElementsIsProduct(e.item.shape);
    if e.item.dtype.Quantized? && Elements(e.item.shape) % e.item.dtype.values == 0 {
      BlocksAreExact(Elements(e.item.shape), e.item.dtype.values, e.item.dtype.bytes);
    }
  }

  /** The payload length of a shape in a dtype: width times elements, or whole blocks. */
  predicate PayloadLength(d: HeaderDtype, shape: Shape, length: nat) {
    PrefixesFit(shape)
    && match d
       case Plain(dtype) => length == Elements(shape) * dtype.Width()
       case Quantized(_, values, bytes) => values > 0 && Elements(shape) % values == 0 && length * values == Elements(shape) * bytes
  }

  lemma BlocksLength(n: nat, v: nat, b: nat, length: nat)
    requires v > 0 && n % v == 0
    ensures length * v == n * b <==> length == n / v * b
    ensures n == 0 ==> n / v * b == 0
  {
    BlocksAreExact(n, v, b);
    DivModOf(length, v, 0);
    DivModOf(n / v * b, v, 0);
  }

  lemma ByteLenIs(d: HeaderDtype, shape: Shape, length: nat)
    requires Known(d) && length <= U64_MAX
    ensures ByteLen(d, shape) == Ok(length) <==> PayloadLength(d, shape, length)
  {
    assert d.Quantized? ==> d.values > 0;
    hide BlockSize, PrefixesFit, CheckedElements, Elements;
    CheckedElementsExactly(shape);
    if d.Quantized? {
      if Elements(shape) % d.values == 0 {
        BlocksLength(Elements(shape), d.values, d.bytes, length);
      }
    }
  }

  /** An entry is accepted on its own if and only if its rank is allowed, its dtype is known and its
      span lies inside the data section with exactly the length of its elements; the record then has
      that name, dtype, shape and span. */
  lemma EntryIsExactly(raw: RawTensor, maxRank: nat, dataLength: nat, e: Entry)
    requires dataLength <= U64_MAX
    ensures ValidateEntry(raw, maxRank, dataLength) == Ok(e)
            <==> && |raw.shape| <= maxRank && ParseDtype(raw.dtype) == Ok(e.item.dtype)
                 && raw.start <= raw.end <= dataLength
                 && PayloadLength(e.item.dtype, raw.shape, raw.end - raw.start)
                 && e.name == raw.name && e.start == raw.start && e.end == raw.end && e.item.shape == raw.shape
  {
    hide ParseDtype, ByteLen, PayloadLength;
    ParsedIsKnown(raw.dtype);
    if ParseDtype(raw.dtype).Ok? && raw.start <= raw.end <= dataLength {
      ByteLenIs(ParseDtype(raw.dtype).value, raw.shape, raw.end - raw.start);
    }
  }

  /** A sound entry always passes the storage constructor. */
  lemma SoundIntoStorage(e: Entry, dataLength: nat)
    requires Sound(e, dataLength)
    ensures IntoStorage(e.item.dtype, e.item.shape, e.end - e.start) == Ok(())
  {
    if e.item.dtype.Quantized? {
      FlatPackingAgrees(e.item.shape, e.item.dtype.values, e.item.dtype.bytes, e.end - e.start);
    }
  }

  function RecordOf(e: Entry, dataBase: nat): TensorRecord
    requires e.start <= e.end
  {
    TensorRecord(e.name, e.item.shape, e.item.dtype, dataBase + e.start, e.end - e.start)
  }

  ghost predicate RecordsOf(records: seq<TensorRecord>, es: seq<Entry>, dataBase: nat) {
    |records| == |es|
    && forall i :: 0 <= i < |es| ==> es[i].start <= es[i].end && records[i] == RecordOf(es[i], dataBase)
  }

  ghost predicate AllSound(es: seq<Entry>, dataLength: nat) {
    forall i :: 0 <= i < |es| ==> Sound(es[i], dataLength)
  }

  lemma SortedSound(es: seq<Entry>, dataLength: nat)
    requires AllSound(es, dataLength)
    ensures AllSound(Sort(es), dataLength) && Within(es, 0, dataLength)
  {
    hide Sort, Sound;
    forall i | 0 <= i < |Sort(es)|
      ensures Sound(Sort(es)[i], dataLength)
    {
      SortMember(es, Sort(es)[i]);
    }
    forall i | 0 <= i < |es|
      ensures 0 <= es[i].start <= es[i].end <= dataLength
    {
      InBounds(es[i], dataLength);
    }
  }

  lemma InBounds(e: Entry, dataLength: nat)
    requires Sound(e, dataLength)
    ensures e.start <= e.end <= dataLength
  {
  }

  lemma NoEntries(raw: seq<RawTensor>, maxRank: nat, dataLength: nat)
    requires raw == []
    ensures ValidateEntries(raw, maxRank, dataLength) == Ok([])
  {
  }

  lemma AfterStep(done: seq<Entry>, raw: seq<RawTensor>, maxRank: nat, dataLength: nat)
    requires raw != []
    ensures After(done, ValidateEntries(raw, maxRank, dataLength))
            == match ValidateEntry(raw[0], maxRank, dataLength)
               case Err(e) => Err(e)
               case Ok(entry) => After(done + [entry], ValidateEntries(raw[1..], maxRank, dataLength))
  {
    hide ValidateEntry;
    match ValidateEntry(raw[0], maxRank, dataLength)
    case Err(_) =>
    case Ok(entry) =>
      match ValidateEntries(raw[1..], maxRank, dataLength)
      case Err(_) =>
      case Ok(es) => assert done + ([entry] + es) == (done + [entry]) + es;
  }

  /** The first loop: every entry checked on its own, in header order. */
  method CollectEntries(raw: seq<RawTensor>, maxRank: nat, dataLength: nat) returns (r: Result<seq<Entry>>)
    ensures r == ValidateEntries(raw, maxRank, dataLength)
  {
    hide ValidateEntry, ValidateEntries;
    var entries: seq<Entry> := [];
    var k := 0;
    assert raw[0..] == raw;
    AfterNothing(ValidateEntries(raw, maxRank, dataLength));
    while k < |raw|
      invariant 0 <= k <= |raw|
      invariant ValidateEntries(raw, maxRank, dataLength) == After(entries, ValidateEntries(raw[k..], maxRank, dataLength))
    {
      assert raw[k..][1..] == raw[k + 1..] && raw[k..][0] == raw[k];
      AfterStep(entries, raw[k..], maxRank, dataLength);
      var entry :- ValidateEntry(raw[k], maxRank, dataLength);
      entries := entries + [entry];
      k := k + 1;
    }
    NoEntries(raw[k..], maxRank, dataLength);
    assert entries + [] == entries;
    return Ok(entries);
  }

  /** The cursor loop over the sorted entries. */
  method CheckCursor(es: seq<Entry>, dataLength: nat) returns (ok: bool)
    ensures ok == Chained(es, 0, dataLength)
  {
    var cursor, k := 0, 0;
    assert es[0..] == es;
    while k < |es|
      invariant 0 <= k <= |es|
      invariant Chained(es, 0, dataLength) == Chained(es[k..], cursor, dataLength)
    {
      assert es[k..][1..] == es[k + 1..];
      if es[k].start != cursor {
        return false;
      }
      cursor := es[k].end;
      k := k + 1;
    }
    return cursor == dataLength;
  }

  /** The last loop: records with absolute offsets.  It cannot fail on sound entries. */
  method BuildRecords(es: seq<Entry>, dataBase: nat, dataLength: nat) returns (r: Result<seq<TensorRecord>>)
    requires AllSound(es, dataLength) && dataBase + dataLength <= U64_MAX
    ensures r.Ok? && RecordsOf(r.value, es, dataBase)
  {
    hide ByteLen, IntoStorage;
    var records: seq<TensorRecord> := [];
    var k := 0;
    while k < |es|
      invariant 0 <= k <= |es|
      invariant RecordsOf(records, es[..k], dataBase)
    {
      var e := es[k];
      SoundIntoStorage(e, dataLength);
      var offset: nat :- CheckedAdd(dataBase, e.start);
      var _ :- CheckedAdd(offset, e.end - e.start);
      var _ :- IntoStorage(e.item.dtype, e.item.shape, e.end - e.start);
      records := records + [TensorRecord(e.name, e.item.shape, e.item.dtype, offset, e.end - e.start)];
      k := k + 1;
    }
    assert es[..k] == es;
    return Ok(records);
  }

  /** Header validation.  Entries that are acceptable on their own are accepted together
      exactly when they tile the data section, and the records then follow the sorted entries. */
  method ValidateTensorEntries(raw: seq<RawTensor>, maxRank: nat, dataBase: nat, dataLength: nat)
    returns (r: Result<seq<TensorRecord>>)
    requires dataBase + dataLength <= U64_MAX
    ensures match ValidateEntries(raw, maxRank, dataLength)
            case Err(e) => r == Err(e)
            case Ok(es) =>
              && (!Tiles(es, 0, dataLength) ==> r == Err(InvalidFormat))
              && (Tiles(es, 0, dataLength) ==> r.Ok? && RecordsOf(r.value, Sort(es), dataBase))
  {
    hide ValidateEntry, Sort, Sound, Tiles, Chained, RecordsOf;
    var entries :- CollectEntries(raw, maxRank, dataLength);
    EntriesAreSound(raw, maxRank, dataLength);
    assert AllSound(entries, dataLength);
    SortedSound(entries, dataLength);
    CursorDecidesTiling(entries, dataLength);
    var sorted := Sort(entries);
    var chained := CheckCursor(sorted, dataLength);
    if !chained {
      return Err(InvalidFormat);
    }
    r := BuildRecords(sorted, dataBase, dataLength);
  }
}
