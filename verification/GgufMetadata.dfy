/** GGUF metadata: the recursive bounded parser, its encoder, and their round trip. */
module GgufMetadata {
  import opened Checked
  import opened Shapes
  import opened Buffers
  import opened LittleEndian
  import opened GgufReader

  const MAX_METADATA_NESTING_DEPTH: nat := 64

  datatype ValueType = U8 | I8 | U16 | I16 | U32 | I32 | F32 | Bool | StringType | ArrayType | U64 | I64 | F64

  function FromRaw(n: nat): Result<ValueType> {
    match n
    case 0 => Ok(U8)
    case 1 => Ok(I8)
    case 2 => Ok(U16)
    case 3 => Ok(I16)
    case 4 => Ok(U32)
    case 5 => Ok(I32)
    case 6 => Ok(F32)
    case 7 => Ok(Bool)
    case 8 => Ok(StringType)
    case 9 => Ok(ArrayType)
    case 10 => Ok(U64)
    case 11 => Ok(I64)
    case 12 => Ok(F64)
    case _ => Err(InvalidFormat)
  }

  function Code(t: ValueType): nat {
    match t
    case U8 => 0
    case I8 => 1
    case U16 => 2
    case I16 => 3
    case U32 => 4
    case I32 => 5
    case F32 => 6
    case Bool => 7
    case StringType => 8
    case ArrayType => 9
    case U64 => 10
    case I64 => 11
    case F64 => 12
  }

  lemma CodesAreExact(t: ValueType, n: nat)
    ensures FromRaw(Code(t)) == Ok(t) && (FromRaw(n) == Ok(t) ==> n == Code(t)) && Code(t) < Pow256(4)
  {
    FourBytes();
  }

  lemma FourBytes()
    ensures Pow256(4) == U32_MAX + 1
  {
    assert Pow256(1) == 256 && Pow256(2) == 65536 && Pow256(3) == 16777216;
  }

  predicate IsScalar(t: ValueType) {
    !t.StringType? && !t.ArrayType?
  }

  /** The least number of bytes of one array element, which for a scalar is its width. */
  function ElementBytes(t: ValueType): (n: nat)
    ensures n > 0
  {
    match t
    case U8 | I8 | Bool => 1
    case U16 | I16 => 2
    case U32 | I32 | F32 => 4
    case StringType | U64 | I64 | F64 => 8
    case ArrayType => 12
  }

  /** A metadata value; a number is its little-endian bit pattern. */
  datatype Value = Scalar(kind: ValueType, bits: nat) | Text(bytes: seq<byte>) | Array(element: ValueType, items: seq<Value>)

  function TypeOf(v: Value): ValueType {
    match v
    case Scalar(kind, _) => kind
    case Text(_) => StringType
    case Array(_, _) => ArrayType
  }

  type Utf8 = seq<byte> -> bool

  // ---------- The parser ----------

  function ParseNumber(s: Source, offset: nat, width: nat): Result<nat> {
    var b :- Take(s, offset, width);
    Ok(Decode(b))
  }

  function ParseScalar(s: Source, offset: nat, t: ValueType): Result<Value> {
    var bits :- ParseNumber(s, offset, ElementBytes(t));
    if t.Bool? && bits > 1 then Err(InvalidFormat) else Ok(Scalar(t, bits))
  }

  function BoundedCount(n: nat, maximum: nat): Result<nat> {
    if n > maximum then Err(ResourceLimit) else Ok(n)
  }

  function ParseText(s: Source, utf8: Utf8, offset: nat, maximum: nat): Result<seq<byte>> {
    var length :- ParseNumber(s, offset, 8);
    var n :- BoundedCount(length, maximum);
    var b :- Take(s, offset + 8, n);
    if utf8(b) then Ok(b) else Err(InvalidFormat)
  }

  function Fuel(depth: nat): nat {
    if depth < MAX_METADATA_NESTING_DEPTH then MAX_METADATA_NESTING_DEPTH - depth else 0
  }

  /** The value at an offset, and the offset after it. */
  function ParseValue(s: Source, utf8: Utf8, offset: nat, t: ValueType, limit: nat, depth: nat): Result<(Value, nat)>
    decreases Fuel(depth), 2, 0
  {
    match t
    case StringType =>
      var b :- ParseText(s, utf8, offset, limit);
      Ok((Text(b), offset + 8 + |b|))
    case ArrayType => ParseArray(s, utf8, offset, limit, depth)
    case _ =>
      var v :- ParseScalar(s, offset, t);
      Ok((v, offset + ElementBytes(t)))
  }

  function ParseArray(s: Source, utf8: Utf8, offset: nat, limit: nat, depth: nat): Result<(Value, nat)>
    decreases Fuel(depth), 1, 0
  {
    if depth >= MAX_METADATA_NESTING_DEPTH then Err(ResourceLimit)
    else
      var code :- ParseNumber(s, offset, 4);
      var t :- FromRaw(code);
      var length :- ParseNumber(s, offset + 4, 8);
      var count :- BoundedCount(length, limit / ElementBytes(t));
      var items :- ParseItems(s, utf8, offset + 12, t, limit, depth, count, []);
      Ok((Array(t, items.0), items.1))
  }

  /** Elements one after the other; nested arrays are one level deeper. */
  function ParseItems(s: Source, utf8: Utf8, offset: nat, t: ValueType, limit: nat, depth: nat, count: nat, done: seq<Value>)
    : Result<(seq<Value>, nat)>
    requires depth < MAX_METADATA_NESTING_DEPTH
    decreases Fuel(depth), 0, count
  {
    if count == 0 then Ok((done, offset))
    else
      var item :- if t.ArrayType? then ParseArray(s, utf8, offset, limit, depth + 1)
                  else ParseFlat(s, utf8, offset, t, limit);
      ParseItems(s, utf8, item.1, t, limit, depth, count - 1, done + [item.0])
  }

  function ParseFlat(s: Source, utf8: Utf8, offset: nat, t: ValueType, limit: nat): Result<(Value, nat)>
    requires !t.ArrayType?
  {
    if t.StringType? then
      var b :- ParseText(s, utf8, offset, limit);
      Ok((Text(b), offset + 8 + |b|))
    else
      var v :- ParseScalar(s, offset, t);
      Ok((v, offset + ElementBytes(t)))
  }

  // ---------- The encoder ----------

  function EncodeText(b: seq<byte>): seq<byte> {
    Encode(|b|, 8) + b
  }

  function EncodeValue(v: Value): seq<byte>
    decreases v
  {
    match v
    case Scalar(kind, bits) => Encode(bits, ElementBytes(kind))
    case Text(b) => EncodeText(b)
    case Array(element, items) => Encode(Code(element), 4) + Encode(|items|, 8) + EncodeItems(items)
  }

  function EncodeItems(items: seq<Value>): seq<byte>
    decreases items
  {
    if items == [] then [] else EncodeValue(items[0]) + EncodeItems(items[1..])
  }

  /** Bit patterns in range, valid text, and arrays of one element type. */
  predicate WellFormed(v: Value, utf8: Utf8)
    decreases v
  {
    match v
    case Scalar(kind, bits) => IsScalar(kind) && bits < Pow256(ElementBytes(kind)) && (kind.Bool? ==> bits <= 1)
    case Text(b) => |b| <= U64_MAX && utf8(b)
    case Array(element, items) => |items| <= U64_MAX && AllWellFormed(items, element, utf8)
  }

  predicate AllWellFormed(items: seq<Value>, element: ValueType, utf8: Utf8)
    decreases items
  {
    items == [] || (TypeOf(items[0]) == element && WellFormed(items[0], utf8) && AllWellFormed(items[1..], element, utf8))
  }

  /** How many arrays enclose the deepest element. */
  function Nesting(v: Value): nat
    decreases v
  {
    if v.Array? then 1 + NestingOf(v.items) else 0
  }

  function NestingOf(items: seq<Value>): nat
    decreases items
  {
    if items == [] then 0 else Max(Nesting(items[0]), NestingOf(items[1..]))
  }

  /** The bytes stand at the offset, inside the file and inside the readable header. */
  predicate Stands(s: Source, offset: nat, b: seq<byte>) {
    offset + |b| <= |s.bytes| && offset + |b| <= s.limit && s.bytes[offset..offset + |b|] == b
  }

  lemma StandsSplit(s: Source, offset: nat, a: seq<byte>, b: seq<byte>)
    ensures Stands(s, offset, a + b) <==> Stands(s, offset, a) && Stands(s, offset + |a|, b)
  {
    if Stands(s, offset, a + b) {
      assert (a + b)[..|a|] == a && (a + b)[|a|..] == b;
      SubSlice(s.bytes, offset, offset + |a| + |b|, 0, |a|);
      SubSlice(s.bytes, offset, offset + |a| + |b|, |a|, |b|);
    }
    if Stands(s, offset, a) && Stands(s, offset + |a|, b) {
      assert s.bytes[offset..offset + |a| + |b|] == s.bytes[offset..offset + |a|] + s.bytes[offset + |a|..offset + |a| + |b|];
    }
  }

  lemma TakeStands(s: Source, offset: nat, b: seq<byte>)
    requires s.Valid()
    ensures Stands(s, offset, b) <==> Take(s, offset, |b|) == Ok(b)
  {
  }

  /** A number is read exactly where its encoding stands. */
  lemma NumberStands(s: Source, offset: nat, n: nat, width: nat)
    requires s.Valid()
    ensures n < Pow256(width) && Stands(s, offset, Encode(n, width)) ==> ParseNumber(s, offset, width) == Ok(n)
    ensures ParseNumber(s, offset, width) == Ok(n) ==> n < Pow256(width) && Stands(s, offset, Encode(n, width))
  {
    hide Encode, Decode, Pow256;
    if n < Pow256(width) && Stands(s, offset, Encode(n, width)) {
      TakeStands(s, offset, Encode(n, width));
      DecodeOfEncode(n, width);
    }
    if ParseNumber(s, offset, width) == Ok(n) {
      var b := Take(s, offset, width).value;
      EncodeOfDecode(b);
      TakeStands(s, offset, b);
    }
  }

  lemma TextStands(s: Source, utf8: Utf8, offset: nat, b: seq<byte>, maximum: nat)
    requires s.Valid()
    ensures ParseText(s, utf8, offset, maximum) == Ok(b)
            <==> utf8(b) && |b| <= maximum && |b| <= U64_MAX && Stands(s, offset, EncodeText(b))
  {
    hide Encode, Decode, Pow256, Stands, Take, ParseNumber;
    EightBytes();
    StandsSplit(s, offset, Encode(|b|, 8), b);
    TakeStands(s, offset + 8, b);
    NumberStands(s, offset, |b|, 8);
    if ParseText(s, utf8, offset, maximum) == Ok(b) {
      TakenLength(s, offset + 8, ParseNumber(s, offset, 8).value);
    }
  }

  lemma TakenLength(s: Source, offset: nat, n: nat)
    ensures Take(s, offset, n).Ok? ==> |Take(s, offset, n).value| == n
  {
  }

  lemma ScalarStands(s: Source, offset: nat, t: ValueType, v: Value)
    requires s.Valid() && IsScalar(t)
    ensures ParseScalar(s, offset, t) == Ok(v)
            <==> v.Scalar? && v.kind == t && v.bits < Pow256(ElementBytes(t)) && (t.Bool? ==> v.bits <= 1)
                 && Stands(s, offset, Encode(v.bits, ElementBytes(t)))
  {
    hide Encode, Pow256, Stands, ParseNumber, ElementBytes;
    if v.Scalar? {
      NumberStands(s, offset, v.bits, ElementBytes(t));
    }
  }

  // ---------- Round trip ----------

  /** An encoding needs at least the element bytes of the count check. */
  lemma {:induction false} ItemsAreLong(items: seq<Value>, element: ValueType, utf8: Utf8)
    requires AllWellFormed(items, element, utf8)
    ensures ElementBytes(element) * |items| <= |EncodeItems(items)|
    decreases |items|
  {
    if items != [] {
      ItemsAreLong(items[1..], element, utf8);
      assert |EncodeValue(items[0])| >= ElementBytes(element);
      assert ElementBytes(element) * |items| == ElementBytes(element) + ElementBytes(element) * (|items| - 1);
    }
  }

  lemma CountFits(count: nat, bytes: nat, limit: nat)
    requires bytes > 0 && bytes * count <= limit
    ensures count <= limit / bytes
  {
    if limit / bytes < count {
      Recompose(limit, bytes);
      MulMono(limit / bytes + 1, count, bytes);
    }
  }

  /** The encoded items of an array, and the checks before them. */
  lemma ArrayHeaderStands(s: Source, offset: nat, element: ValueType, count: nat, body: seq<byte>)
    requires s.Valid() && count <= U64_MAX
    ensures Stands(s, offset, Encode(Code(element), 4) + Encode(count, 8) + body)
            <==> ParseNumber(s, offset, 4) == Ok(Code(element)) && ParseNumber(s, offset + 4, 8) == Ok(count)
                 && Stands(s, offset + 12, body)
  {
    hide Encode, Pow256, Stands, ParseNumber;
    EightBytes();
    CodesAreExact(element, 0);
    NumberStands(s, offset, Code(element), 4);
    NumberStands(s, offset + 4, count, 8);
    StandsSplit(s, offset, Encode(Code(element), 4) + Encode(count, 8), body);
    StandsSplit(s, offset, Encode(Code(element), 4), Encode(count, 8));
  }

  /** Parsing the encoding of a value gives the value back and ends right after it; no count
      check rejects an encoding that fits. */
  lemma {:induction false} ParseOfEncode(s: Source, utf8: Utf8, offset: nat, v: Value, limit: nat, depth: nat)
    requires s.Valid() && WellFormed(v, utf8) && Stands(s, offset, EncodeValue(v)) && |EncodeValue(v)| <= limit
    requires depth + Nesting(v) <= MAX_METADATA_NESTING_DEPTH
    ensures ParseValue(s, utf8, offset, TypeOf(v), limit, depth) == Ok((v, offset + |EncodeValue(v)|))
    decreases v, 1
  {
    hide Encode, Pow256, Stands, ParseNumber, Take;
    match v
    case Scalar(kind, bits) => ScalarStands(s, offset, kind, v);
    case Text(b) => TextStands(s, utf8, offset, b, limit);
    case Array(element, items) => ParseOfEncodedArray(s, utf8, offset, v, limit, depth);
  }

  lemma {:induction false} ParseOfEncodedArray(s: Source, utf8: Utf8, offset: nat, v: Value, limit: nat, depth: nat)
    requires s.Valid() && v.Array? && WellFormed(v, utf8) && Stands(s, offset, EncodeValue(v)) && |EncodeValue(v)| <= limit
    requires depth + Nesting(v) <= MAX_METADATA_NESTING_DEPTH
    ensures ParseArray(s, utf8, offset, limit, depth) == Ok((v, offset + |EncodeValue(v)|))
    decreases v, 0
  {
    hide Encode, Pow256, Stands, ParseNumber, Take, ParseItems, ElementBytes, FromRaw, Code;
    var items := v.items;
    ArrayHeaderStands(s, offset, v.element, |items|, EncodeItems(items));
    CodesAreExact(v.element, 0);
    ItemsAreLong(items, v.element, utf8);
    CountFits(|items|, ElementBytes(v.element), limit);
    ParseOfEncodedItems(s, utf8, offset + 12, v.element, items, limit, depth, []);
    assert [] + items == items;
  }

  lemma {:induction false} ParseOfEncodedItems(s: Source, utf8: Utf8, offset: nat, t: ValueType, items: seq<Value>, limit: nat,
                                               depth: nat, done: seq<Value>)
    requires s.Valid() && AllWellFormed(items, t, utf8) && Stands(s, offset, EncodeItems(items))
    requires |EncodeItems(items)| <= limit && depth + 1 + NestingOf(items) <= MAX_METADATA_NESTING_DEPTH
    ensures ParseItems(s, utf8, offset, t, limit, depth, |items|, done) == Ok((done + items, offset + |EncodeItems(items)|))
    decreases items, 2
  {
    hide Encode, Pow256, Stands, ParseNumber, Take, ParseArray, ParseFlat, EncodeValue, WellFormed, Nesting;
    if items == [] {
      assert done + [] == done;
    } else {
      var v, rest := items[0], items[1..];
      StandsSplit(s, offset, EncodeValue(v), EncodeItems(rest));
      ItemOfEncode(s, utf8, offset, t, v, limit, depth);
      ParseOfEncodedItems(s, utf8, offset + |EncodeValue(v)|, t, rest, limit, depth, done + [v]);
      assert done + [v] + rest == done + items;
    }
  }

  lemma {:induction false} ItemOfEncode(s: Source, utf8: Utf8, offset: nat, t: ValueType, v: Value, limit: nat, depth: nat)
    requires s.Valid() && TypeOf(v) == t && WellFormed(v, utf8) && Stands(s, offset, EncodeValue(v))
    requires |EncodeValue(v)| <= limit && depth + 1 + Nesting(v) <= MAX_METADATA_NESTING_DEPTH
    ensures (if t.ArrayType? then ParseArray(s, utf8, offset, limit, depth + 1) else ParseFlat(s, utf8, offset, t, limit))
            == Ok((v, offset + |EncodeValue(v)|))
    decreases v, 2
  {
    if t.ArrayType? {
      ParseOfEncodedArray(s, utf8, offset, v, limit, depth + 1);
    } else {
      ParseOfEncode(s, utf8, offset, v, limit, depth);
    }
  }

  /** Everything the parser accepts is the encoding of a well-formed value within the nesting
      bound, and the parser consumes exactly its bytes. */
  lemma {:induction false} EncodeOfParse(s: Source, utf8: Utf8, offset: nat, t: ValueType, limit: nat, depth: nat)
    requires s.Valid() && limit <= U64_MAX && ParseValue(s, utf8, offset, t, limit, depth).Ok?
    ensures var r := ParseValue(s, utf8, offset, t, limit, depth).value;
            Encoded(s, utf8, offset, r.0, r.1) && TypeOf(r.0) == t
            && (t.ArrayType? ==> depth + Nesting(r.0) <= MAX_METADATA_NESTING_DEPTH)
            && (!t.ArrayType? ==> Nesting(r.0) == 0)
    decreases Fuel(depth), 2, 0
  {
    hide Encode, Pow256, Stands, ParseNumber, Take;
    var v := ParseValue(s, utf8, offset, t, limit, depth).value.0;
    match t
    case ArrayType => EncodeOfParsedArray(s, utf8, offset, limit, depth);
    case StringType => TextStands(s, utf8, offset, v.bytes, limit);
    case _ => ScalarStands(s, offset, t, v);
  }

  /** A well-formed value stands between two offsets. */
  ghost predicate Encoded(s: Source, utf8: Utf8, offset: nat, v: Value, end: nat) {
    WellFormed(v, utf8) && Stands(s, offset, EncodeValue(v)) && end == offset + |EncodeValue(v)|
  }

  lemma NumberBound(s: Source, offset: nat, width: nat)
    ensures ParseNumber(s, offset, width).Ok? ==> offset + width <= |s.bytes| && offset + width <= s.limit
  {
  }

  lemma {:induction false} EncodeOfParsedArray(s: Source, utf8: Utf8, offset: nat, limit: nat, depth: nat)
    requires s.Valid() && limit <= U64_MAX && ParseArray(s, utf8, offset, limit, depth).Ok?
    ensures var r := ParseArray(s, utf8, offset, limit, depth).value;
            Encoded(s, utf8, offset, r.0, r.1) && r.0.Array?
            && depth + Nesting(r.0) <= MAX_METADATA_NESTING_DEPTH
    decreases Fuel(depth), 1, 0
  {
    hide Encode, Pow256, Stands, ParseNumber, Take, ParseItems, FromRaw, Code, ElementBytes;
    var r := ParseArray(s, utf8, offset, limit, depth).value;
    var t, items := r.0.element, r.0.items;
    var count := ParseNumber(s, offset + 4, 8).value;
    NumberBound(s, offset + 4, 8);
    EncodeOfParsedItems(s, utf8, offset + 12, t, limit, depth, count, []);
    ArrayHeaderStands(s, offset, t, count, EncodeItems(items));
    CodesAreExact(t, ParseNumber(s, offset, 4).value);
    NumberStands(s, offset + 4, count, 8);
    EightBytes();
    assert [] + items == items;
  }

  lemma {:induction false} EncodeOfParsedItems(s: Source, utf8: Utf8, offset: nat, t: ValueType, limit: nat, depth: nat,
                                               count: nat, done: seq<Value>)
    requires s.Valid() && limit <= U64_MAX && depth < MAX_METADATA_NESTING_DEPTH
    requires ParseItems(s, utf8, offset, t, limit, depth, count, done).Ok?
    requires offset <= |s.bytes| && offset <= s.limit
    ensures var r := ParseItems(s, utf8, offset, t, limit, depth, count, done).value;
            |r.0| == |done| + count && r.0[..|done|] == done
            && (var items := r.0[|done|..];
                AllWellFormed(items, t, utf8) && Stands(s, offset, EncodeItems(items)) && r.1 == offset + |EncodeItems(items)|
                && depth + 1 + NestingOf(items) <= MAX_METADATA_NESTING_DEPTH)
    decreases Fuel(depth), 0, count
  {
    hide Encode, Pow256, ParseNumber, Take, ParseArray, ParseFlat, EncodeValue, WellFormed, Nesting;
    if count > 0 {
      var item := (if t.ArrayType? then ParseArray(s, utf8, offset, limit, depth + 1)
                   else ParseFlat(s, utf8, offset, t, limit)).value;
      EncodeOfItem(s, utf8, offset, t, limit, depth);
      EncodeOfParsedItems(s, utf8, item.1, t, limit, depth, count - 1, done + [item.0]);
      var r := ParseItems(s, utf8, offset, t, limit, depth, count, done).value;
      var rest := r.0[|done| + 1..];
      assert r.0[|done|] == (done + [item.0])[|done|] == item.0;
      assert r.0[|done|..] == [item.0] + rest;
      assert r.0[..|done|] == r.0[..|done| + 1][..|done|];
      hide Stands;
      StandsSplit(s, offset, EncodeValue(item.0), EncodeItems(rest));
    }
  }

  lemma {:induction false} EncodeOfItem(s: Source, utf8: Utf8, offset: nat, t: ValueType, limit: nat, depth: nat)
    requires s.Valid() && limit <= U64_MAX && depth < MAX_METADATA_NESTING_DEPTH
    requires (if t.ArrayType? then ParseArray(s, utf8, offset, limit, depth + 1) else ParseFlat(s, utf8, offset, t, limit)).Ok?
    ensures var r := (if t.ArrayType? then ParseArray(s, utf8, offset, limit, depth + 1)
                      else ParseFlat(s, utf8, offset, t, limit)).value;
            Encoded(s, utf8, offset, r.0, r.1) && TypeOf(r.0) == t && r.1 <= |s.bytes| && r.1 <= s.limit
            && depth + 1 + Nesting(r.0) <= MAX_METADATA_NESTING_DEPTH
    decreases Fuel(depth), 0, 0
  {
    if t.ArrayType? {
      EncodeOfParsedArray(s, utf8, offset, limit, depth + 1);
    } else {
      assert ParseValue(s, utf8, offset, t, limit, depth) == ParseFlat(s, utf8, offset, t, limit);
      FlatStands(s, utf8, offset, t, limit);
    }
  }

  lemma FlatStands(s: Source, utf8: Utf8, offset: nat, t: ValueType, limit: nat)
    requires s.Valid() && limit <= U64_MAX && !t.ArrayType? && ParseFlat(s, utf8, offset, t, limit).Ok?
    ensures var r := ParseFlat(s, utf8, offset, t, limit).value;
            Encoded(s, utf8, offset, r.0, r.1) && TypeOf(r.0) == t && Nesting(r.0) == 0
  {
    hide Encode, Pow256, Stands, ParseNumber, Take;
    var v := ParseFlat(s, utf8, offset, t, limit).value.0;
    if t.StringType? {
      TextStands(s, utf8, offset, v.bytes, limit);
    } else {
      ScalarStands(s, offset, t, v);
    }
  }

  // ---------- Entries ----------

  datatype Metadata = Metadata(entries: map<seq<byte>, Value>, end: nat)

  datatype Limits = Limits(maxHeaderBytes: nat, maxNameBytes: nat)

  function ParseEntry(s: Source, utf8: Utf8, offset: nat, limits: Limits): Result<(seq<byte>, Value, nat)> {
    var key :- ParseText(s, utf8, offset, limits.maxNameBytes);
    var typeOffset := offset + 8 + |key|;
    var code :- ParseNumber(s, typeOffset, 4);
    var t :- FromRaw(code);
    var value :- ParseValue(s, utf8, typeOffset + 4, t, limits.maxHeaderBytes, 0);
    Ok((key, value.0, value.1))
  }

  function ParseEntries(s: Source, utf8: Utf8, offset: nat, start: nat, limits: Limits, count: nat, done: map<seq<byte>, Value>)
    : Result<Metadata>
    decreases count
  {
    if count == 0 then Ok(Metadata(done, offset))
    else
      var entry :- ParseEntry(s, utf8, offset, limits);
      if entry.2 > start + limits.maxHeaderBytes then Err(ResourceLimit)
      else if entry.0 in done then Err(InvalidFormat)
      else ParseEntries(s, utf8, entry.2, start, limits, count - 1, done[entry.0 := entry.1])
  }

  /** The entry count, and the entries after it. */
  function ParseMetadata(s: Source, utf8: Utf8, offset: nat, limits: Limits): Result<Metadata> {
    var declared :- ParseNumber(s, offset, 8);
    var count :- BoundedCount(declared, limits.maxHeaderBytes / 12);
    ParseEntries(s, utf8, offset + 8, offset + 8, limits, count, map[])
  }

  function EncodeEntry(e: (seq<byte>, Value)): seq<byte> {
    EncodeText(e.0) + (Encode(Code(TypeOf(e.1)), 4) + EncodeValue(e.1))
  }

  function EncodeEntries(entries: seq<(seq<byte>, Value)>): seq<byte> {
    if entries == [] then [] else EncodeEntry(entries[0]) + EncodeEntries(entries[1..])
  }

  function EncodeMetadata(entries: seq<(seq<byte>, Value)>): seq<byte> {
    Encode(|entries|, 8) + EncodeEntries(entries)
  }

  function MapOf(entries: seq<(seq<byte>, Value)>, done: map<seq<byte>, Value>): map<seq<byte>, Value> {
    if entries == [] then done else MapOf(entries[1..], done[entries[0].0 := entries[0].1])
  }

  ghost predicate Distinct(entries: seq<(seq<byte>, Value)>) {
    forall i, j :: 0 <= i < j < |entries| ==> entries[i].0 != entries[j].0
  }

  predicate EntryFits(e: (seq<byte>, Value), utf8: Utf8, limits: Limits) {
    utf8(e.0) && |e.0| <= limits.maxNameBytes && WellFormed(e.1, utf8) && Nesting(e.1) <= MAX_METADATA_NESTING_DEPTH
  }

  lemma EntryOfEncode(s: Source, utf8: Utf8, offset: nat, e: (seq<byte>, Value), limits: Limits)
    requires s.Valid() && EntryFits(e, utf8, limits) && Stands(s, offset, EncodeEntry(e)) && s.limit <= limits.maxHeaderBytes
    ensures ParseEntry(s, utf8, offset, limits) == Ok((e.0, e.1, offset + |EncodeEntry(e)|))
    ensures |EncodeEntry(e)| >= 12
  {
    hide Encode, Pow256, ParseNumber, Take, ParseValue, EncodeValue, FromRaw, Code;
    var rest := Encode(Code(TypeOf(e.1)), 4) + EncodeValue(e.1);
    StandsSplit(s, offset, EncodeText(e.0), rest);
    var middle := offset + |EncodeText(e.0)|;
    StandsSplit(s, middle, Encode(Code(TypeOf(e.1)), 4), EncodeValue(e.1));
    TextStands(s, utf8, offset, e.0, limits.maxNameBytes);
    CodesAreExact(TypeOf(e.1), 0);
    NumberStands(s, middle, Code(TypeOf(e.1)), 4);
    ParseOfEncode(s, utf8, middle + 4, e.1, limits.maxHeaderBytes, 0);
  }

  /** The entries come back as a map, and the parser ends right after them. */
  lemma {:induction false} EntriesOfEncode(s: Source, utf8: Utf8, offset: nat, start: nat, limits: Limits,
                                           entries: seq<(seq<byte>, Value)>, done: map<seq<byte>, Value>)
    requires s.Valid() && s.limit <= limits.maxHeaderBytes && Stands(s, offset, EncodeEntries(entries))
    requires Distinct(entries) && forall i :: 0 <= i < |entries| ==> EntryFits(entries[i], utf8, limits) && entries[i].0 !in done
    ensures ParseEntries(s, utf8, offset, start, limits, |entries|, done)
            == Ok(Metadata(MapOf(entries, done), offset + |EncodeEntries(entries)|))
    ensures 12 * |entries| <= |EncodeEntries(entries)|
    decreases |entries|
  {
    hide Encode, Pow256, ParseNumber, Take, ParseEntry, EncodeEntry, EntryFits;
    if entries != [] {
      var e, rest := entries[0], entries[1..];
      StandsSplit(s, offset, EncodeEntry(e), EncodeEntries(rest));
      EntryOfEncode(s, utf8, offset, e, limits);
      EntriesOfEncode(s, utf8, offset + |EncodeEntry(e)|, start, limits, rest, done[e.0 := e.1]);
    }
  }

  /** Metadata round trip: reading the encoding of any distinct-key metadata that fits the header
      and name limits, and nests at most 64 arrays, returns that metadata and ends after it. */
  lemma MetadataRoundTrip(s: Source, utf8: Utf8, offset: nat, limits: Limits, entries: seq<(seq<byte>, Value)>)
    requires s.Valid() && s.limit <= limits.maxHeaderBytes && Stands(s, offset, EncodeMetadata(entries))
    requires Distinct(entries) && forall i :: 0 <= i < |entries| ==> EntryFits(entries[i], utf8, limits)
    ensures ParseMetadata(s, utf8, offset, limits)
            == Ok(Metadata(MapOf(entries, map[]), offset + |EncodeMetadata(entries)|))
  {
    hide Encode, Pow256, ParseNumber, Take, ParseEntries, EntryFits;
    StandsSplit(s, offset, Encode(|entries|, 8), EncodeEntries(entries));
    EntriesOfEncode(s, utf8, offset + 8, offset + 8, limits, entries, map[]);
    EightBytes();
    NumberStands(s, offset, |entries|, 8);
    CountFits(|entries|, 12, limits.maxHeaderBytes);
  }

  // ---------- What the parser accepts ----------

  ghost predicate EntryEncoded(s: Source, utf8: Utf8, offset: nat, e: (seq<byte>, Value), end: nat, limits: Limits) {
    EntryFits(e, utf8, limits) && Stands(s, offset, EncodeEntry(e)) && end == offset + |EncodeEntry(e)|
  }

  lemma EncodeOfParsedEntry(s: Source, utf8: Utf8, offset: nat, limits: Limits)
    requires s.Valid() && limits.maxHeaderBytes <= U64_MAX && ParseEntry(s, utf8, offset, limits).Ok?
    ensures var r := ParseEntry(s, utf8, offset, limits).value;
            EntryEncoded(s, utf8, offset, (r.0, r.1), r.2, limits) && r.2 <= |s.bytes| && r.2 <= s.limit
  {
    hide Encode, Pow256, ParseNumber, ParseText, Take, ParseValue, EncodeValue, FromRaw, Code;
    var r := ParseEntry(s, utf8, offset, limits).value;
    var middle := offset + 8 + |r.0|;
    var code := ParseNumber(s, middle, 4).value;
    var t := FromRaw(code).value;
    EncodeOfParse(s, utf8, middle + 4, t, limits.maxHeaderBytes, 0);
    TextStands(s, utf8, offset, r.0, limits.maxNameBytes);
    CodesAreExact(t, code);
    NumberStands(s, middle, code, 4);
    StandsSplit(s, middle, Encode(Code(t), 4), EncodeValue(r.1));
    StandsSplit(s, offset, EncodeText(r.0), Encode(Code(t), 4) + EncodeValue(r.1));
  }

  ghost predicate AllEntriesFit(entries: seq<(seq<byte>, Value)>, utf8: Utf8, limits: Limits, done: map<seq<byte>, Value>) {
    Distinct(entries) && forall i :: 0 <= i < |entries| ==> EntryFits(entries[i], utf8, limits) && entries[i].0 !in done
  }

  lemma DistinctCons(e: (seq<byte>, Value), rest: seq<(seq<byte>, Value)>, utf8: Utf8, limits: Limits, done: map<seq<byte>, Value>)
    requires EntryFits(e, utf8, limits) && e.0 !in done && AllEntriesFit(rest, utf8, limits, done[e.0 := e.1])
    ensures AllEntriesFit([e] + rest, utf8, limits, done)
  {
    hide EntryFits;
    var all := [e] + rest;
    forall i, j | 0 <= i < j < |all| ensures all[i].0 != all[j].0 {
      assert rest[j - 1].0 !in done[e.0 := e.1];
    }
  }

  /** The entries of an accepted block are encoded one after the other, with different keys. */
  lemma {:induction false} EncodeOfParsedEntries(s: Source, utf8: Utf8, offset: nat, start: nat, limits: Limits, count: nat,
                                                 done: map<seq<byte>, Value>) returns (entries: seq<(seq<byte>, Value)>)
    requires s.Valid() && limits.maxHeaderBytes <= U64_MAX && offset <= |s.bytes| && offset <= s.limit
    requires ParseEntries(s, utf8, offset, start, limits, count, done).Ok?
    ensures |entries| == count && AllEntriesFit(entries, utf8, limits, done) && Stands(s, offset, EncodeEntries(entries))
    ensures ParseEntries(s, utf8, offset, start, limits, count, done)
            == Ok(Metadata(MapOf(entries, done), offset + |EncodeEntries(entries)|))
    decreases count
  {
    hide ParseEntry, EncodeEntry, EntryFits, AllEntriesFit, Stands, EncodeEntries, MapOf;
    if count == 0 {
      entries := [];
      NoEntries(s, utf8, offset, limits, done);
    } else {
      EncodeOfParsedEntry(s, utf8, offset, limits);
      var r := ParseEntry(s, utf8, offset, limits).value;
      var e := (r.0, r.1);
      var rest := EncodeOfParsedEntries(s, utf8, r.2, start, limits, count - 1, done[e.0 := e.1]);
      entries := [e] + rest;
      DistinctCons(e, rest, utf8, limits, done);
      EntriesCons(e, rest, done);
      StandsSplit(s, offset, EncodeEntry(e), EncodeEntries(rest));
    }
  }

  lemma NoEntries(s: Source, utf8: Utf8, offset: nat, limits: Limits, done: map<seq<byte>, Value>)
    requires offset <= |s.bytes| && offset <= s.limit
    ensures AllEntriesFit([], utf8, limits, done) && Stands(s, offset, EncodeEntries([]))
    ensures MapOf([], done) == done && EncodeEntries([]) == []
  {
  }

  lemma EntriesCons(e: (seq<byte>, Value), rest: seq<(seq<byte>, Value)>, done: map<seq<byte>, Value>)
    ensures EncodeEntries([e] + rest) == EncodeEntry(e) + EncodeEntries(rest)
    ensures MapOf([e] + rest, done) == MapOf(rest, done[e.0 := e.1])
  {
    hide EncodeEntry;
    assert ([e] + rest)[1..] == rest;
  }

  /** Every accepted metadata block is the encoding of a list of fitting entries with different
      keys, whose map is the result, and the parser consumes exactly its bytes. */
  lemma MetadataIsEncoding(s: Source, utf8: Utf8, offset: nat, limits: Limits) returns (entries: seq<(seq<byte>, Value)>)
    requires s.Valid() && limits.maxHeaderBytes <= U64_MAX && ParseMetadata(s, utf8, offset, limits).Ok?
    ensures AllEntriesFit(entries, utf8, limits, map[]) && |entries| <= limits.maxHeaderBytes / 12
    ensures Stands(s, offset, EncodeMetadata(entries))
    ensures ParseMetadata(s, utf8, offset, limits)
            == Ok(Metadata(MapOf(entries, map[]), offset + |EncodeMetadata(entries)|))
  {
    hide Encode, Pow256, ParseNumber, Take, ParseEntries;
    var count := ParseNumber(s, offset, 8).value;
    NumberBound(s, offset, 8);
    entries := EncodeOfParsedEntries(s, utf8, offset + 8, offset + 8, limits, count, map[]);
    NumberStands(s, offset, count, 8);
    StandsSplit(s, offset, Encode(count, 8), EncodeEntries(entries));
  }

  ghost predicate AllWellFormedIn(entries: map<seq<byte>, Value>, utf8: Utf8) {
    forall key :: key in entries ==> WellFormed(entries[key], utf8)
  }

  lemma {:induction false} MapIsWellFormed(entries: seq<(seq<byte>, Value)>, utf8: Utf8, limits: Limits, done: map<seq<byte>, Value>)
    requires forall i :: 0 <= i < |entries| ==> EntryFits(entries[i], utf8, limits)
    requires AllWellFormedIn(done, utf8)
    ensures AllWellFormedIn(MapOf(entries, done), utf8)
    decreases |entries|
  {
    if entries != [] {
      MapIsWellFormed(entries[1..], utf8, limits, done[entries[0].0 := entries[0].1]);
    }
  }

  /** Accepted values are well-formed. */
  lemma MetadataIsWellFormed(s: Source, utf8: Utf8, offset: nat, limits: Limits)
    requires s.Valid() && limits.maxHeaderBytes <= U64_MAX && ParseMetadata(s, utf8, offset, limits).Ok?
    ensures AllWellFormedIn(ParseMetadata(s, utf8, offset, limits).value.entries, utf8)
  {
    hide ParseMetadata, EntryFits, Stands;
    var entries := MetadataIsEncoding(s, utf8, offset, limits);
    MapIsWellFormed(entries, utf8, limits, map[]);
  }

  // ---------- Reading through the buffered reader ----------

  method ReadNumber(reader: Reader, width: nat) returns (r: Result<nat>)
    requires reader.Valid()
    modifies reader, reader.buffer
    ensures reader.Valid() && r == ParseNumber(reader.source, old(reader.offset), width)
    ensures r.Ok? ==> reader.offset == old(reader.offset) + width
  {
    var bytes :- reader.Read(width);
    return Ok(Decode(bytes));
  }

  method ReadText(reader: Reader, utf8: Utf8, maximum: nat) returns (r: Result<seq<byte>>)
    requires reader.Valid()
    modifies reader, reader.buffer
    ensures reader.Valid() && r == ParseText(reader.source, utf8, old(reader.offset), maximum)
    ensures r.Ok? ==> reader.offset == old(reader.offset) + 8 + |r.value|
  {
    hide ParseNumber;
    var length :- ReadNumber(reader, 8);
    var n :- BoundedCount(length, maximum);
    var bytes :- reader.Read(n);
    TakenLength(reader.source, old(reader.offset) + 8, n);
    if !utf8(bytes) {
      return Err(InvalidFormat);
    }
    return Ok(bytes);
  }

  method ReadScalar(reader: Reader, t: ValueType) returns (r: Result<Value>)
    requires reader.Valid()
    modifies reader, reader.buffer
    ensures reader.Valid() && r == ParseScalar(reader.source, old(reader.offset), t)
    ensures r.Ok? ==> reader.offset == old(reader.offset) + ElementBytes(t)
  {
    hide ParseNumber;
    var bits :- ReadNumber(reader, ElementBytes(t));
    if t.Bool? && bits > 1 {
      return Err(InvalidFormat);
    }
    return Ok(Scalar(t, bits));
  }

  /** A method result that advanced the reader to the end the parser computes. */
  predicate Advanced(offset: nat, r: Result<Value>, spec: Result<(Value, nat)>) {
    match spec
    case Ok(v) => r == Ok(v.0) && offset == v.1
    case Err(e) => r == Err(e)
  }

  method ReadValue(reader: Reader, utf8: Utf8, t: ValueType, limit: nat, depth: nat) returns (r: Result<Value>)
    requires reader.Valid()
    modifies reader, reader.buffer
    ensures reader.Valid() && Advanced(reader.offset, r, ParseValue(reader.source, utf8, old(reader.offset), t, limit, depth))
    decreases Fuel(depth), 2
  {
    hide ParseScalar, ParseText, ParseArray;
    if t.StringType? {
      var bytes :- ReadText(reader, utf8, limit);
      return Ok(Text(bytes));
    }
    if t.ArrayType? {
      r := ReadArray(reader, utf8, limit, depth);
      return;
    }
    r := ReadScalar(reader, t);
  }

  method ReadArray(reader: Reader, utf8: Utf8, limit: nat, depth: nat) returns (r: Result<Value>)
    requires reader.Valid()
    modifies reader, reader.buffer
    ensures reader.Valid() && Advanced(reader.offset, r, ParseArray(reader.source, utf8, old(reader.offset), limit, depth))
    decreases Fuel(depth), 1
  {
    hide ParseNumber, ParseItems, FromRaw, ElementBytes;
    if depth >= MAX_METADATA_NESTING_DEPTH {
      return Err(ResourceLimit);
    }
    var code :- ReadNumber(reader, 4);
    var t :- FromRaw(code);
    var length :- ReadNumber(reader, 8);
    var count :- BoundedCount(length, limit / ElementBytes(t));
    ghost var start := reader.offset;
    var items: seq<Value> := [];
    var k := 0;
    while k < count
      invariant 0 <= k <= count && reader.Valid()
      invariant ParseItems(reader.source, utf8, start, t, limit, depth, count, [])
                == ParseItems(reader.source, utf8, reader.offset, t, limit, depth, count - k, items)
    {
      ItemsStep(reader.source, utf8, reader.offset, t, limit, depth, count - k, items);
      var item;
      if t.ArrayType? {
        item :- ReadArray(reader, utf8, limit, depth + 1);
      } else {
        item :- ReadFlat(reader, utf8, t, limit);
      }
      items := items + [item];
      k := k + 1;
    }
    ItemsEnd(reader.source, utf8, reader.offset, t, limit, depth, items);
    return Ok(Array(t, items));
  }

  method ReadFlat(reader: Reader, utf8: Utf8, t: ValueType, limit: nat) returns (r: Result<Value>)
    requires reader.Valid() && !t.ArrayType?
    modifies reader, reader.buffer
    ensures reader.Valid() && Advanced(reader.offset, r, ParseFlat(reader.source, utf8, old(reader.offset), t, limit))
  {
    hide ParseScalar, ParseText;
    if t.StringType? {
      var bytes :- ReadText(reader, utf8, limit);
      return Ok(Text(bytes));
    }
    r := ReadScalar(reader, t);
  }

  lemma ItemsStep(s: Source, utf8: Utf8, offset: nat, t: ValueType, limit: nat, depth: nat, count: nat, done: seq<Value>)
    requires depth < MAX_METADATA_NESTING_DEPTH && count > 0
    ensures var item := if t.ArrayType? then ParseArray(s, utf8, offset, limit, depth + 1)
                        else ParseFlat(s, utf8, offset, t, limit);
            ParseItems(s, utf8, offset, t, limit, depth, count, done)
            == match item
               case Err(e) => Err(e)
               case Ok(v) => ParseItems(s, utf8, v.1, t, limit, depth, count - 1, done + [v.0])
  {
    hide ParseArray, ParseFlat;
  }

  lemma ItemsEnd(s: Source, utf8: Utf8, offset: nat, t: ValueType, limit: nat, depth: nat, done: seq<Value>)
    requires depth < MAX_METADATA_NESTING_DEPTH
    ensures ParseItems(s, utf8, offset, t, limit, depth, 0, done) == Ok((done, offset))
  {
  }

  method ReadEntry(reader: Reader, utf8: Utf8, limits: Limits) returns (r: Result<(seq<byte>, Value)>)
    requires reader.Valid()
    modifies reader, reader.buffer
    ensures reader.Valid()
    ensures match ParseEntry(reader.source, utf8, old(reader.offset), limits)
            case Ok(e) => r == Ok((e.0, e.1)) && reader.offset == e.2
            case Err(e) => r == Err(e)
  {
    hide ParseNumber, ParseText, ParseValue, FromRaw;
    var key :- ReadText(reader, utf8, limits.maxNameBytes);
    var code :- ReadNumber(reader, 4);
    var t :- FromRaw(code);
    var value :- ReadValue(reader, utf8, t, limits.maxHeaderBytes, 0);
    return Ok((key, value));
  }

  /** The metadata loop over the buffered reader. */
  method ReadMetadata(reader: Reader, utf8: Utf8, limits: Limits) returns (r: Result<map<seq<byte>, Value>>)
    requires reader.Valid()
    modifies reader, reader.buffer
    ensures reader.Valid()
    ensures match ParseMetadata(reader.source, utf8, old(reader.offset), limits)
            case Ok(m) => r == Ok(m.entries) && reader.offset == m.end
            case Err(e) => r == Err(e)
  {
    hide ParseNumber, ParseEntry;
    var declared :- ReadNumber(reader, 8);
    var count :- BoundedCount(declared, limits.maxHeaderBytes / 12);
    var metadataStart := reader.offset;
    var entries: map<seq<byte>, Value> := map[];
    var k := 0;
    while k < count
      invariant 0 <= k <= count && reader.Valid()
      invariant ParseEntries(reader.source, utf8, metadataStart, metadataStart, limits, count, map[])
                == ParseEntries(reader.source, utf8, reader.offset, metadataStart, limits, count - k, entries)
    {
      var entry :- ReadEntry(reader, utf8, limits);
      if reader.offset > metadataStart + limits.maxHeaderBytes {
        return Err(ResourceLimit);
      }
      if entry.0 in entries {
        return Err(InvalidFormat);
      }
      entries := entries[entry.0 := entry.1];
      k := k + 1;
    }
    return Ok(entries);
  }
}
