/** A whole GGUF file: the header, its tensor descriptors, and the layout they give. */
module GgufFile {
  import opened Checked
  import opened Shapes
  import opened Buffers
  import opened LittleEndian
  import opened GgufReader
  import opened GgufMetadata
  import opened SpanLayout
  import opened Alignment
  import opened GgufTensors
  import Identity

  const MAGIC: seq<byte> := Identity.Ascii("GGUF")
  const ALIGNMENT_KEY: seq<byte> := Identity.Ascii("general.alignment")
  const DEFAULT_ALIGNMENT: nat := 32
  const MIN_VERSION: nat := 2
  const MAX_VERSION: nat := 3

  datatype FileLimits = FileLimits(header: Limits, maxTensors: nat, maxRank: nat)

  // ---------- Tensor descriptors ----------

  function ParseDimensions(s: Source, offset: nat, rank: nat, done: Shape): Result<Shape>
    decreases rank
  {
    if rank == 0 then Ok(done)
    else
      var dimension :- ParseNumber(s, offset, 8);
      ParseDimensions(s, offset + 8, rank - 1, done + [dimension])
  }

  /** The descriptor at an offset, and the offset after it. */
  function ParseDescriptor(s: Source, utf8: Utf8, offset: nat, limits: FileLimits): Result<(RawTensor, nat)> {
    var name :- ParseText(s, utf8, offset, limits.header.maxNameBytes);
    var rankOffset := offset + 8 + |name|;
    var declared :- ParseNumber(s, rankOffset, 4);
    var rank :- BoundedCount(declared, limits.maxRank);
    if rank == 0 then Err(InvalidFormat)
    else
      var dimensions :- ParseDimensions(s, rankOffset + 4, rank, []);
      var ggmlType :- ParseNumber(s, rankOffset + 4 + 8 * rank, 4);
      var relativeOffset :- ParseNumber(s, rankOffset + 8 + 8 * rank, 8);
      Ok((RawTensor(name, dimensions, ggmlType, relativeOffset), rankOffset + 16 + 8 * rank))
  }

  function ParseDescriptors(s: Source, utf8: Utf8, offset: nat, limits: FileLimits, count: nat, done: seq<RawTensor>)
    : Result<(seq<RawTensor>, nat)>
    decreases count
  {
    if count == 0 then Ok((done, offset))
    else
      var descriptor :- ParseDescriptor(s, utf8, offset, limits);
      ParseDescriptors(s, utf8, descriptor.1, limits, count - 1, done + [descriptor.0])
  }

  function EncodeDimensions(dimensions: Shape): seq<byte> {
    if dimensions == [] then [] else Encode(dimensions[0], 8) + EncodeDimensions(dimensions[1..])
  }

  function EncodeDescriptor(raw: RawTensor): seq<byte> {
    EncodeText(raw.name)
    + (Encode(|raw.dimensions|, 4)
       + (EncodeDimensions(raw.dimensions) + (Encode(raw.ggmlType, 4) + Encode(raw.relativeOffset, 8))))
  }

  function EncodeDescriptors(raws: seq<RawTensor>): seq<byte> {
    if raws == [] then [] else EncodeDescriptor(raws[0]) + EncodeDescriptors(raws[1..])
  }

  /** What a descriptor can express within the limits. */
  predicate DescriptorFits(raw: RawTensor, utf8: Utf8, limits: FileLimits) {
    && utf8(raw.name) && |raw.name| <= limits.header.maxNameBytes && |raw.name| <= U64_MAX
    && 0 < |raw.dimensions| <= limits.maxRank && |raw.dimensions| <= U32_MAX
    && (forall i :: 0 <= i < |raw.dimensions| ==> raw.dimensions[i] <= U64_MAX)
    && raw.ggmlType <= U32_MAX && raw.relativeOffset <= U64_MAX
  }

  lemma NumberReads(s: Source, offset: nat, n: nat, width: nat)
    requires s.Valid() && (width == 4 || width == 8)
    ensures ParseNumber(s, offset, width) == Ok(n)
            <==> n <= (if width == 4 then U32_MAX else U64_MAX) && Stands(s, offset, Encode(n, width))
  {
    hide Encode, Pow256, ParseNumber, Stands;
    FourBytes();
    EightBytes();
    NumberStands(s, offset, n, width);
  }

  /** The dimensions that are read are exactly those whose encoding stands there. */
  lemma {:induction false} DimensionsRead(s: Source, offset: nat, dimensions: Shape, done: Shape)
    requires s.Valid() && offset <= |s.bytes| && offset <= s.limit
    ensures |EncodeDimensions(dimensions)| == 8 * |dimensions|
    ensures ParseDimensions(s, offset, |dimensions|, done) == Ok(done + dimensions)
            <==> (forall i :: 0 <= i < |dimensions| ==> dimensions[i] <= U64_MAX) && Stands(s, offset, EncodeDimensions(dimensions))
    decreases |dimensions|
  {
    hide Encode, ParseNumber;
    if dimensions == [] {
      assert done + [] == done;
    } else {
      var first, rest := dimensions[0], dimensions[1..];
      NumberReads(s, offset, first, 8);
      StandsSplit(s, offset, Encode(first, 8), EncodeDimensions(rest));
      NumberBound(s, offset, 8);
      if ParseNumber(s, offset, 8).Ok? {
        var read := ParseNumber(s, offset, 8).value;
        DimensionsRead(s, offset + 8, rest, done + [read]);
        DimensionsKeep(s, offset + 8, |rest|, done + [read]);
        assert done + [first] + rest == done + dimensions;
        assert (done + dimensions)[|done|] == first;
      } else {
        DimensionsLength(rest);
      }
    }
  }

  lemma {:induction false} DimensionsLength(dimensions: Shape)
    ensures |EncodeDimensions(dimensions)| == 8 * |dimensions|
  {
    if dimensions != [] {
      DimensionsLength(dimensions[1..]);
    }
  }

  /** Reading dimensions appends to those already read. */
  lemma {:induction false} DimensionsKeep(s: Source, offset: nat, rank: nat, done: Shape)
    ensures var r := ParseDimensions(s, offset, rank, done);
            r.Ok? ==> |r.value| == |done| + rank && r.value[..|done|] == done
    decreases rank
  {
    hide ParseNumber;
    if rank > 0 && ParseNumber(s, offset, 8).Ok? {
      var next := done + [ParseNumber(s, offset, 8).value];
      DimensionsKeep(s, offset + 8, rank - 1, next);
      assert next[..|done|] == done;
    }
  }

  lemma DescriptorParts(s: Source, offset: nat, raw: RawTensor)
    ensures var middle := offset + 8 + |raw.name|;
            Stands(s, offset, EncodeDescriptor(raw))
            <==> Stands(s, offset, EncodeText(raw.name)) && Stands(s, middle, Encode(|raw.dimensions|, 4))
                 && Stands(s, middle + 4, EncodeDimensions(raw.dimensions))
                 && Stands(s, middle + 4 + 8 * |raw.dimensions|, Encode(raw.ggmlType, 4))
                 && Stands(s, middle + 8 + 8 * |raw.dimensions|, Encode(raw.relativeOffset, 8))
    ensures |EncodeDescriptor(raw)| == 24 + |raw.name| + 8 * |raw.dimensions|
  {
    hide Encode, EncodeDimensions, Stands;
    var middle := offset + 8 + |raw.name|;
    var last := Encode(raw.ggmlType, 4) + Encode(raw.relativeOffset, 8);
    DimensionsLength(raw.dimensions);
    StandsSplit(s, offset, EncodeText(raw.name), Encode(|raw.dimensions|, 4) + (EncodeDimensions(raw.dimensions) + last));
    StandsSplit(s, middle, Encode(|raw.dimensions|, 4), EncodeDimensions(raw.dimensions) + last);
    StandsSplit(s, middle + 4, EncodeDimensions(raw.dimensions), last);
    StandsSplit(s, middle + 4 + 8 * |raw.dimensions|, Encode(raw.ggmlType, 4), Encode(raw.relativeOffset, 8));
  }

  /** A descriptor is read exactly where the encoding of a fitting descriptor stands, and the
      reader ends right after it. */
  lemma DescriptorReads(s: Source, utf8: Utf8, offset: nat, raw: RawTensor, end: nat, limits: FileLimits)
    requires s.Valid()
    ensures ParseDescriptor(s, utf8, offset, limits) == Ok((raw, end))
            <==> DescriptorFits(raw, utf8, limits) && Stands(s, offset, EncodeDescriptor(raw))
                 && end == offset + |EncodeDescriptor(raw)|
  {
    hide Encode, EncodeText, EncodeDescriptor, ParseNumber, ParseText, ParseDimensions, Stands;
    var middle, rank := offset + 8 + |raw.name|, |raw.dimensions|;
    DescriptorParts(s, offset, raw);
    TextStands(s, utf8, offset, raw.name, limits.header.maxNameBytes);
    NumberReads(s, middle, rank, 4);
    NumberReads(s, middle + 4 + 8 * rank, raw.ggmlType, 4);
    NumberReads(s, middle + 8 + 8 * rank, raw.relativeOffset, 8);
    NumberBound(s, middle, 4);
    if ParseNumber(s, middle, 4).Ok? {
      DimensionsRead(s, middle + 4, raw.dimensions, []);
      DimensionsKeep(s, middle + 4, ParseNumber(s, middle, 4).value, []);
      assert [] + raw.dimensions == raw.dimensions;
    }
  }

  ghost predicate AllDescriptorsFit(raws: seq<RawTensor>, utf8: Utf8, limits: FileLimits) {
    forall i :: 0 <= i < |raws| ==> DescriptorFits(raws[i], utf8, limits)
  }

  lemma DescriptorsCons(raw: RawTensor, rest: seq<RawTensor>, utf8: Utf8, limits: FileLimits)
    ensures AllDescriptorsFit([raw] + rest, utf8, limits) <==> DescriptorFits(raw, utf8, limits) && AllDescriptorsFit(rest, utf8, limits)
    ensures EncodeDescriptors([raw] + rest) == EncodeDescriptor(raw) + EncodeDescriptors(rest)
  {
    hide DescriptorFits, EncodeDescriptor;
    var all := [raw] + rest;
    assert all[1..] == rest;
    if AllDescriptorsFit(all, utf8, limits) {
      assert DescriptorFits(all[0], utf8, limits);
      forall i | 0 <= i < |rest| ensures DescriptorFits(rest[i], utf8, limits) {
        assert DescriptorFits(all[i + 1], utf8, limits);
      }
    }
  }

  lemma DescriptorBound(s: Source, utf8: Utf8, offset: nat, limits: FileLimits)
    ensures var r := ParseDescriptor(s, utf8, offset, limits);
            r.Ok? ==> r.value.1 <= |s.bytes| && r.value.1 <= s.limit
  {
    hide ParseText, ParseDimensions;
  }

  /** Reading encoded descriptors gives them back. */
  lemma {:induction false} DescriptorsOfEncode(s: Source, utf8: Utf8, offset: nat, limits: FileLimits, raws: seq<RawTensor>,
                                               done: seq<RawTensor>)
    requires s.Valid() && AllDescriptorsFit(raws, utf8, limits) && Stands(s, offset, EncodeDescriptors(raws))
    ensures ParseDescriptors(s, utf8, offset, limits, |raws|, done) == Ok((done + raws, offset + |EncodeDescriptors(raws)|))
    decreases |raws|
  {
    hide ParseDescriptor, DescriptorFits, EncodeDescriptor, Stands;
    if raws == [] {
      assert done + [] == done;
    } else {
      var raw, rest := raws[0], raws[1..];
      assert [raw] + rest == raws;
      DescriptorsCons(raw, rest, utf8, limits);
      StandsSplit(s, offset, EncodeDescriptor(raw), EncodeDescriptors(rest));
      DescriptorReads(s, utf8, offset, raw, offset + |EncodeDescriptor(raw)|, limits);
      DescriptorsOfEncode(s, utf8, offset + |EncodeDescriptor(raw)|, limits, rest, done + [raw]);
      assert (done + [raw]) + rest == done + raws;
    }
  }

  /** Accepted descriptors are fitting and encoded one after the other. */
  lemma {:induction false} DescriptorsAreEncoded(s: Source, utf8: Utf8, offset: nat, limits: FileLimits, count: nat,
                                                 done: seq<RawTensor>) returns (raws: seq<RawTensor>)
    requires s.Valid() && offset <= |s.bytes| && offset <= s.limit
    requires ParseDescriptors(s, utf8, offset, limits, count, done).Ok?
    ensures |raws| == count && AllDescriptorsFit(raws, utf8, limits) && Stands(s, offset, EncodeDescriptors(raws))
    ensures ParseDescriptors(s, utf8, offset, limits, count, done) == Ok((done + raws, offset + |EncodeDescriptors(raws)|))
    decreases count
  {
    hide ParseDescriptor, DescriptorFits, EncodeDescriptor;
    if count == 0 {
      raws := [];
      assert done + [] == done;
    } else {
      hide Stands;
      var r := ParseDescriptor(s, utf8, offset, limits).value;
      DescriptorReads(s, utf8, offset, r.0, r.1, limits);
      DescriptorBound(s, utf8, offset, limits);
      var rest := DescriptorsAreEncoded(s, utf8, r.1, limits, count - 1, done + [r.0]);
      raws := [r.0] + rest;
      DescriptorsCons(r.0, rest, utf8, limits);
      StandsSplit(s, offset, EncodeDescriptor(r.0), EncodeDescriptors(rest));
      assert (done + [r.0]) + rest == done + raws;
    }
  }

  // ---------- The header ----------

  function AsU64(v: Value): Option<nat> {
    match v
    case Scalar(kind, bits) => if kind.U8? || kind.U16? || kind.U32? || kind.U64? then Some(bits) else None
    case _ => None
  }

  /** The stated alignment when it is an unsigned number, and the default otherwise. */
  function MetadataAlignment(entries: map<seq<byte>, Value>): Result<nat> {
    var stated := if ALIGNMENT_KEY in entries then AsU64(entries[ALIGNMENT_KEY]) else None;
    var alignment := match stated { case Some(a) => a case None => DEFAULT_ALIGNMENT };
    if IsPowerOfTwo(alignment) then Ok(alignment) else Err(InvalidFormat)
  }

  lemma AlignmentFits(entries: map<seq<byte>, Value>, utf8: Utf8)
    requires AllWellFormedIn(entries, utf8) && MetadataAlignment(entries).Ok?
    ensures 0 < MetadataAlignment(entries).value <= U64_MAX && IsPowerOfTwo(MetadataAlignment(entries).value)
  {
    EightBytes();
    FourBytes();
    assert Pow256(1) == 256 && Pow256(2) == 65536;
  }

  datatype Header = Header(version: nat, entries: map<seq<byte>, Value>, alignment: nat, raws: seq<RawTensor>, end: nat)

  function ParseHeader(s: Source, utf8: Utf8, limits: FileLimits): Result<Header> {
    var magic :- Take(s, 0, 4);
    if magic != MAGIC then Err(InvalidFormat)
    else
      var version :- ParseNumber(s, 4, 4);
      if !(MIN_VERSION <= version <= MAX_VERSION) then Err(Unsupported)
      else
        var declared :- ParseNumber(s, 8, 8);
        var count :- BoundedCount(declared, limits.maxTensors);
        var metadata :- ParseMetadata(s, utf8, 16, limits.header);
        var alignment :- MetadataAlignment(metadata.entries);
        var descriptors :- ParseDescriptors(s, utf8, metadata.end, limits, count, []);
        Ok(Header(version, metadata.entries, alignment, descriptors.0, descriptors.1))
  }

  function EncodeHeader(version: nat, entries: seq<(seq<byte>, Value)>, raws: seq<RawTensor>): seq<byte> {
    MAGIC + (Encode(version, 4) + (Encode(|raws|, 8) + (EncodeMetadata(entries) + EncodeDescriptors(raws))))
  }

  /** What a header can express within the limits. */
  ghost predicate HeaderFits(version: nat, entries: seq<(seq<byte>, Value)>, raws: seq<RawTensor>, utf8: Utf8, limits: FileLimits) {
    && MIN_VERSION <= version <= MAX_VERSION
    && AllEntriesFit(entries, utf8, limits.header, map[])
    && MetadataAlignment(MapOf(entries, map[])).Ok?
    && |raws| <= limits.maxTensors && |raws| <= U64_MAX && AllDescriptorsFit(raws, utf8, limits)
  }

  lemma HeaderParts(s: Source, version: nat, entries: seq<(seq<byte>, Value)>, raws: seq<RawTensor>)
    ensures Stands(s, 0, EncodeHeader(version, entries, raws))
            <==> Stands(s, 0, MAGIC) && Stands(s, 4, Encode(version, 4)) && Stands(s, 8, Encode(|raws|, 8))
                 && Stands(s, 16, EncodeMetadata(entries))
                 && Stands(s, 16 + |EncodeMetadata(entries)|, EncodeDescriptors(raws))
    ensures |EncodeHeader(version, entries, raws)| == 16 + |EncodeMetadata(entries)| + |EncodeDescriptors(raws)|
  {
    hide Encode, EncodeMetadata, EncodeDescriptors, Stands;
    var tail := EncodeMetadata(entries) + EncodeDescriptors(raws);
    StandsSplit(s, 0, MAGIC, Encode(version, 4) + (Encode(|raws|, 8) + tail));
    StandsSplit(s, 4, Encode(version, 4), Encode(|raws|, 8) + tail);
    StandsSplit(s, 8, Encode(|raws|, 8), tail);
    StandsSplit(s, 16, EncodeMetadata(entries), EncodeDescriptors(raws));
  }

  /** Reading the encoding of any header that fits the limits gives that header back. */
  lemma HeaderRoundTrip(s: Source, utf8: Utf8, limits: FileLimits, version: nat, entries: seq<(seq<byte>, Value)>,
                        raws: seq<RawTensor>)
    requires s.Valid() && s.limit <= limits.header.maxHeaderBytes
    requires HeaderFits(version, entries, raws, utf8, limits) && Stands(s, 0, EncodeHeader(version, entries, raws))
    ensures var m := MapOf(entries, map[]);
            ParseHeader(s, utf8, limits)
            == Ok(Header(version, m, MetadataAlignment(m).value, raws, |EncodeHeader(version, entries, raws)|))
  {
    hide Encode, EncodeMetadata, EncodeDescriptors, EncodeHeader, Stands, Take, ParseNumber, ParseMetadata, ParseDescriptors;
    hide MetadataAlignment, AllDescriptorsFit, EntryFits, MapOf;
    HeaderParts(s, version, entries, raws);
    TakeStands(s, 0, MAGIC);
    NumberReads(s, 4, version, 4);
    NumberReads(s, 8, |raws|, 8);
    MetadataRoundTrip(s, utf8, 16, limits.header, entries);
    DescriptorsOfEncode(s, utf8, 16 + |EncodeMetadata(entries)|, limits, raws, []);
    assert [] + raws == raws;
  }

  /** Every accepted header is the encoding of one that fits, consumed exactly. */
  lemma HeaderIsEncoding(s: Source, utf8: Utf8, limits: FileLimits)
    returns (entries: seq<(seq<byte>, Value)>, raws: seq<RawTensor>)
    requires s.Valid() && limits.header.maxHeaderBytes <= U64_MAX && ParseHeader(s, utf8, limits).Ok?
    ensures var h := ParseHeader(s, utf8, limits).value;
            && HeaderFits(h.version, entries, raws, utf8, limits) && Stands(s, 0, EncodeHeader(h.version, entries, raws))
            && h == Header(h.version, MapOf(entries, map[]), MetadataAlignment(h.entries).value, raws,
                           |EncodeHeader(h.version, entries, raws)|)
  {
    hide Encode, EncodeMetadata, EncodeDescriptors, EncodeHeader, Take, ParseNumber, ParseMetadata, ParseDescriptors;
    hide MetadataAlignment, AllDescriptorsFit, AllEntriesFit, MapOf, Stands;
    var h := ParseHeader(s, utf8, limits).value;
    var count := ParseNumber(s, 8, 8).value;
    entries := MetadataIsEncoding(s, utf8, 16, limits.header);
    var middle := ParseMetadata(s, utf8, 16, limits.header).value.end;
    StandsBound(s, 16, EncodeMetadata(entries));
    raws := DescriptorsAreEncoded(s, utf8, middle, limits, count, []);
    assert [] + raws == raws;
    HeaderParts(s, h.version, entries, raws);
    TakeStands(s, 0, MAGIC);
    NumberReads(s, 4, h.version, 4);
    NumberReads(s, 8, count, 8);
  }

  lemma StandsBound(s: Source, offset: nat, b: seq<byte>)
    requires Stands(s, offset, b)
    ensures offset + |b| <= |s.bytes| && offset + |b| <= s.limit
  {
  }

  // ---------- The file ----------

  datatype ParsedGguf = ParsedGguf(header: Header, tensors: seq<TensorRecord>)

  lemma HeaderIsUsable(s: Source, utf8: Utf8, limits: FileLimits)
    requires s.Valid() && limits.header.maxHeaderBytes <= U64_MAX && ParseHeader(s, utf8, limits).Ok?
    ensures var h := ParseHeader(s, utf8, limits).value;
            0 < h.alignment <= U64_MAX && IsPowerOfTwo(h.alignment) && h.end <= U64_MAX
            && MetadataAlignment(h.entries) == Ok(h.alignment)
  {
    hide ParseNumber, Take, ParseMetadata, ParseDescriptors, MetadataAlignment, EncodeHeader, HeaderFits, Stands, MapOf;
    MetadataIsWellFormed(s, utf8, 16, limits.header);
    AlignmentFits(ParseHeader(s, utf8, limits).value.entries, utf8);
    var entries, raws := HeaderIsEncoding(s, utf8, limits);
    StandsBound(s, 0, EncodeHeader(ParseHeader(s, utf8, limits).value.version, entries, raws));
  }

  ghost function ParseFile(s: Source, utf8: Utf8, limits: FileLimits): Result<ParsedGguf>
    requires s.Valid() && limits.header.maxHeaderBytes <= U64_MAX
  {
    var header :- ParseHeader(s, utf8, limits);
    HeaderIsUsable(s, utf8, limits);
    var base :- DataBase(header.end, header.alignment, |s.bytes|, limits.header.maxHeaderBytes);
    var records :- BuildRecords(header.raws, |s.bytes|, base, header.alignment);
    if PairwiseApart(Spans(records)) then Ok(ParsedGguf(header, records)) else Err(InvalidFormat)
  }

  /** The layout of every accepted file: one payload for each descriptor, aligned to the
      alignment the metadata states, after the header, inside the file, exactly as long as its
      elements, and sharing no byte with another. */
  lemma AcceptedFile(s: Source, utf8: Utf8, limits: FileLimits)
    requires s.Valid() && limits.header.maxHeaderBytes <= U64_MAX && ParseFile(s, utf8, limits).Ok?
    ensures var g := ParseFile(s, utf8, limits).value;
            && MetadataAlignment(g.header.entries) == Ok(g.header.alignment) && g.header.alignment > 0
            && |g.tensors| == |g.header.raws|
            && (forall i :: 0 <= i < |g.tensors| ==>
                  g.tensors[i].name == g.header.raws[i].name
                  && AlignedBeyond(g.tensors[i], g.header.end, g.header.alignment, |s.bytes|))
            && forall i: nat, j: nat, p: nat :: i < j < |g.tensors| ==>
                 !(HoldsByte(g.tensors[i], p) && HoldsByte(g.tensors[j], p))
  {
    hide ParseHeader, BuildRecords, Spans, PairwiseApart, AlignedBeyond, HoldsByte, MetadataAlignment, DataBase, GgufTensors.Sound;
    HeaderIsUsable(s, utf8, limits);
    var g := ParseFile(s, utf8, limits).value;
    var base := DataBase(g.header.end, g.header.alignment, |s.bytes|, limits.header.maxHeaderBytes).value;
    AcceptedLayout(g.header.raws, g.header.end, g.header.alignment, |s.bytes|, limits.header.maxHeaderBytes, g.tensors);
    RecordsAreSound(g.header.raws, |s.bytes|, base, g.header.alignment);
  }

  /** Which tensor tables are accepted after a header, and the records they give: the data section
      starts at the least multiple of the alignment after the header, each record is the one its
      descriptor describes there, and no two payload spans overlap. */
  lemma AcceptedExactly(s: Source, utf8: Utf8, limits: FileLimits, h: Header, base: nat, g: ParsedGguf)
    requires s.Valid() && limits.header.maxHeaderBytes <= U64_MAX && ParseHeader(s, utf8, limits) == Ok(h)
    requires h.alignment > 0 && h.end <= base < h.end + h.alignment && base % h.alignment == 0
    ensures ParseFile(s, utf8, limits) == Ok(g)
            <==> && g.header == h && base <= |s.bytes| && base <= limits.header.maxHeaderBytes
                 && |g.tensors| == |h.raws|
                 && (forall i :: 0 <= i < |h.raws| ==> Describes(h.raws[i], |s.bytes|, base, h.alignment, g.tensors[i]))
                 && forall i, j :: 0 <= i < j < |g.tensors| ==>
                      || g.tensors[i].offset + g.tensors[i].length <= g.tensors[j].offset
                      || g.tensors[j].offset + g.tensors[j].length <= g.tensors[i].offset
  {
    hide ParseHeader, BuildRecords, BuildRecord, Describes, IsPowerOfTwo, MetadataAlignment, DataBase;
    HeaderIsUsable(s, utf8, limits);
    DataBaseIs(h.end, h.alignment, base, |s.bytes|, limits.header.maxHeaderBytes);
    DescriptorsAreBounded(s, utf8, limits);
    if base <= |s.bytes| {
      RecordsAreExactly(h.raws, |s.bytes|, base, h.alignment, g.tensors);
      if |g.tensors| == |h.raws| {
        forall i | 0 <= i < |h.raws|
          ensures BuildRecord(h.raws[i], |s.bytes|, base, h.alignment) == Ok(g.tensors[i])
                  <==> Describes(h.raws[i], |s.bytes|, base, h.alignment, g.tensors[i])
        {
          RecordIsExactly(h.raws[i], |s.bytes|, base, h.alignment, g.tensors[i]);
        }
      }
      SpansApart(g.tensors);
    }
  }

  lemma DataBaseIs(headerEnd: nat, alignment: nat, base: nat, fileSize: nat, maxHeader: nat)
    requires IsPowerOfTwo(alignment) && 0 < alignment <= U64_MAX && headerEnd <= U64_MAX && fileSize <= U64_MAX
    requires headerEnd <= base < headerEnd + alignment && base % alignment == 0
    ensures DataBase(headerEnd, alignment, fileSize, maxHeader)
            == (if base > U64_MAX then Err(ResourceLimit) else if base > fileSize then Err(InvalidFormat)
                else if base > maxHeader then Err(ResourceLimit) else Ok(base))
  {
    LeastMultipleIs(headerEnd, alignment, base);
    hide AlignUp;
  }

  lemma LeastMultipleIs(headerEnd: nat, alignment: nat, base: nat)
    requires IsPowerOfTwo(alignment) && 0 < alignment <= U64_MAX && headerEnd <= U64_MAX
    requires headerEnd <= base < headerEnd + alignment && base % alignment == 0
    ensures AlignUp(headerEnd, alignment) == if base > U64_MAX then Err(ResourceLimit) else Ok(base)
  {
    AlignUpIsLeastMultiple(headerEnd, alignment);
    hide IsPowerOfTwo, And;
    assert MultipleFrom(base, alignment, headerEnd);
    if AlignUp(headerEnd, alignment).Ok? {
      MultipleGap(base, AlignUp(headerEnd, alignment).value, alignment);
    }
  }

  /** Descriptors of an accepted header have bounded dimensions. */
  lemma DescriptorsAreBounded(s: Source, utf8: Utf8, limits: FileLimits)
    requires s.Valid() && limits.header.maxHeaderBytes <= U64_MAX && ParseHeader(s, utf8, limits).Ok?
    ensures var raws := ParseHeader(s, utf8, limits).value.raws;
            forall i :: 0 <= i < |raws| ==>
              |raws[i].dimensions| <= U32_MAX
              && forall j :: 0 <= j < |raws[i].dimensions| ==> raws[i].dimensions[j] <= U64_MAX
  {
    hide ParseHeader, AllEntriesFit, MetadataAlignment, Stands, EncodeHeader, MapOf;
    var entries, raws := HeaderIsEncoding(s, utf8, limits);
    forall i | 0 <= i < |raws|
      ensures |raws[i].dimensions| <= U32_MAX
              && forall j :: 0 <= j < |raws[i].dimensions| ==> raws[i].dimensions[j] <= U64_MAX
    {
      assert DescriptorFits(raws[i], utf8, limits);
    }
  }

  lemma SpansApart(records: seq<TensorRecord>)
    ensures PairwiseApart(Spans(records))
            <==> forall i, j :: 0 <= i < j < |records| ==>
                   || records[i].offset + records[i].length <= records[j].offset
                   || records[j].offset + records[j].length <= records[i].offset
  {
    var spans := Spans(records);
    if PairwiseApart(spans) {
      forall i, j | 0 <= i < j < |records|
        ensures || records[i].offset + records[i].length <= records[j].offset
                || records[j].offset + records[j].length <= records[i].offset
      {
        assert Apart(spans[i], spans[j]);
      }
    }
  }

  // ---------- Reading through the buffered reader ----------

  lemma DimensionsStep(s: Source, offset: nat, rank: nat, done: Shape)
    requires rank > 0
    ensures ParseDimensions(s, offset, rank, done)
            == match ParseNumber(s, offset, 8)
               case Err(e) => Err(e)
               case Ok(n) => ParseDimensions(s, offset + 8, rank - 1, done + [n])
  {
  }

  method ReadDimensions(reader: Reader, rank: nat) returns (r: Result<Shape>)
    requires reader.Valid()
    modifies reader, reader.buffer
    ensures reader.Valid() && r == ParseDimensions(reader.source, old(reader.offset), rank, [])
    ensures r.Ok? ==> reader.offset == old(reader.offset) + 8 * rank
  {
    hide ParseNumber, ParseDimensions;
    var dimensions: Shape := [];
    var k := 0;
    while k < rank
      invariant 0 <= k <= rank && reader.Valid() && reader.offset == old(reader.offset) + 8 * k
      invariant ParseDimensions(reader.source, old(reader.offset), rank, [])
                == ParseDimensions(reader.source, reader.offset, rank - k, dimensions)
    {
      DimensionsStep(reader.source, reader.offset, rank - k, dimensions);
      var dimension :- ReadNumber(reader, 8);
      dimensions := dimensions + [dimension];
      k := k + 1;
    }
    DimensionsEnd(reader.source, reader.offset, dimensions);
    return Ok(dimensions);
  }

  lemma DimensionsEnd(s: Source, offset: nat, done: Shape)
    ensures ParseDimensions(s, offset, 0, done) == Ok(done)
  {
  }

  method ReadDescriptor(reader: Reader, utf8: Utf8, limits: FileLimits) returns (r: Result<RawTensor>)
    requires reader.Valid()
    modifies reader, reader.buffer
    ensures reader.Valid()
    ensures match ParseDescriptor(reader.source, utf8, old(reader.offset), limits)
            case Ok(d) => r == Ok(d.0) && reader.offset == d.1
            case Err(e) => r == Err(e)
  {
    hide ParseNumber, ParseText, ParseDimensions;
    var name :- ReadText(reader, utf8, limits.header.maxNameBytes);
    var declared :- ReadNumber(reader, 4);
    var rank :- BoundedCount(declared, limits.maxRank);
    if rank == 0 {
      return Err(InvalidFormat);
    }
    var dimensions :- ReadDimensions(reader, rank);
    var ggmlType :- ReadNumber(reader, 4);
    var relativeOffset :- ReadNumber(reader, 8);
    return Ok(RawTensor(name, dimensions, ggmlType, relativeOffset));
  }

  method ReadTensorInfos(reader: Reader, utf8: Utf8, limits: FileLimits, count: nat) returns (r: Result<seq<RawTensor>>)
    requires reader.Valid()
    modifies reader, reader.buffer
    ensures reader.Valid()
    ensures match ParseDescriptors(reader.source, utf8, old(reader.offset), limits, count, [])
            case Ok(d) => r == Ok(d.0) && reader.offset == d.1
            case Err(e) => r == Err(e)
  {
    hide ParseDescriptor;
    var raws: seq<RawTensor> := [];
    var k := 0;
    while k < count
      invariant 0 <= k <= count && reader.Valid()
      invariant ParseDescriptors(reader.source, utf8, old(reader.offset), limits, count, [])
                == ParseDescriptors(reader.source, utf8, reader.offset, limits, count - k, raws)
    {
      var raw :- ReadDescriptor(reader, utf8, limits);
      raws := raws + [raw];
      k := k + 1;
    }
    return Ok(raws);
  }

  method ReadHeader(reader: Reader, utf8: Utf8, limits: FileLimits) returns (r: Result<Header>)
    requires reader.Valid() && reader.offset == 0
    modifies reader, reader.buffer
    ensures reader.Valid() && r == ParseHeader(reader.source, utf8, limits)
  {
    hide Take, ParseNumber, ParseMetadata, ParseDescriptors, MetadataAlignment;
    var magic :- reader.Read(4);
    if magic != MAGIC {
      return Err(InvalidFormat);
    }
    var version :- ReadNumber(reader, 4);
    if !(MIN_VERSION <= version <= MAX_VERSION) {
      return Err(Unsupported);
    }
    var declared :- ReadNumber(reader, 8);
    var count :- BoundedCount(declared, limits.maxTensors);
    var entries :- ReadMetadata(reader, utf8, limits.header);
    var alignment :- MetadataAlignment(entries);
    var raws :- ReadTensorInfos(reader, utf8, limits, count);
    return Ok(Header(version, entries, alignment, raws, reader.offset));
  }

  /** Parsing a file through the buffered reader. */
  method Parse(s: Source, utf8: Utf8, limits: FileLimits) returns (r: Result<ParsedGguf>)
    requires s.Valid() && limits.header.maxHeaderBytes <= U64_MAX
    ensures r == ParseFile(s, utf8, limits)
  {
    hide ParseHeader, BuildRecords, Spans, PairwiseApart, DataBase;
    var reader := new Reader(s);
    var header :- ReadHeader(reader, utf8, limits);
    HeaderIsUsable(s, utf8, limits);
    var base :- DataBase(header.end, header.alignment, |s.bytes|, limits.header.maxHeaderBytes);
    var tensors :- BuildTensorRecords(header.raws, |s.bytes|, base, header.alignment);
    return Ok(ParsedGguf(header, tensors));
  }
}
