/** Content identities: length-prefixed hash input, cache keys, snapshot framing, and the
    hexadecimal form of a digest. */
module Identity {
  import opened Checked
  import opened Buffers
  import opened LittleEndian

  // ---------- Length-prefixed parts ----------

  const LENGTH_WIDTH: nat := 16

  predicate PartFits(part: seq<byte>) {
    |part| < Pow256(LENGTH_WIDTH)
  }

  predicate PartsFit(parts: seq<seq<byte>>) {
    forall i :: 0 <= i < |parts| ==> PartFits(parts[i])
  }

  function FramePart(part: seq<byte>): seq<byte> {
    Encode(|part|, LENGTH_WIDTH) + part
  }

  function Frame(parts: seq<seq<byte>>): seq<byte> {
    if parts == [] then [] else FramePart(parts[0]) + Frame(parts[1..])
  }

  /** Reads the parts back. */
  function Unframe(b: seq<byte>): Option<seq<seq<byte>>>
    decreases |b|
  {
    if b == [] then Some([])
    else if |b| < LENGTH_WIDTH then None
    else
      var n := Decode(b[..LENGTH_WIDTH]);
      if |b| < LENGTH_WIDTH + n then None
      else
        match Unframe(b[LENGTH_WIDTH + n..])
        case None => None
        case Some(rest) => Some([b[LENGTH_WIDTH..LENGTH_WIDTH + n]] + rest)
  }

  /** Different part boundaries never give the same bytes: the framing can be read back. */
  lemma {:induction false} UnframeOfFrame(parts: seq<seq<byte>>)
    requires PartsFit(parts)
    ensures Unframe(Frame(parts)) == Some(parts)
  {
    hide Encode, Decode, Pow256;
    if parts != [] {
      UnframeOfFrame(parts[1..]);
      assert PartFits(parts[0]);
      DecodeOfEncode(|parts[0]|, LENGTH_WIDTH);
      var b, n := Frame(parts), |parts[0]|;
      assert b[..LENGTH_WIDTH] == Encode(n, LENGTH_WIDTH);
      assert b[LENGTH_WIDTH..LENGTH_WIDTH + n] == parts[0];
      assert b[LENGTH_WIDTH + n..] == Frame(parts[1..]);
      assert [parts[0]] + parts[1..] == parts;
    }
  }

  function Ascii(s: string): (b: seq<byte>)
    ensures |b| == |s|
  {
    seq(|s|, i requires 0 <= i < |s| => (s[i] as int) % 256)
  }

  const HASH_PREFIX: seq<byte> := Ascii("model-weights-rs") + [0]

  /** The bytes a domain-separated content hash consumes. */
  function HashInput(domain: seq<byte>, parts: seq<seq<byte>>): seq<byte> {
    HASH_PREFIX + FramePart(domain) + Frame(parts)
  }

  /** The hash input determines the domain and every part. */
  lemma HashInputIsInjective(domain: seq<byte>, parts: seq<seq<byte>>, domain': seq<byte>, parts': seq<seq<byte>>)
    requires PartFits(domain) && PartsFit(parts) && PartFits(domain') && PartsFit(parts')
    requires HashInput(domain, parts) == HashInput(domain', parts')
    ensures domain == domain' && parts == parts'
  {
    hide FramePart, Ascii;
    var all, all' := [domain] + parts, [domain'] + parts';
    assert all[1..] == parts && all'[1..] == parts';
    assert HASH_PREFIX + Frame(all) == HashInput(domain, parts);
    assert HASH_PREFIX + Frame(all') == HashInput(domain', parts');
    assert Frame(all) == (HASH_PREFIX + Frame(all))[|HASH_PREFIX|..];
    assert Frame(all') == (HASH_PREFIX + Frame(all'))[|HASH_PREFIX|..];
    UnframeOfFrame(all);
    UnframeOfFrame(all');
  }

  /** The hasher consumes the prefix, the domain and the parts in order. */
  method FeedHash(domain: seq<byte>, parts: seq<seq<byte>>) returns (consumed: seq<byte>)
    ensures consumed == HashInput(domain, parts)
  {
    hide FramePart;
    consumed := HASH_PREFIX;
    consumed := consumed + FramePart(domain);
    var start := consumed;
    var k := 0;
    while k < |parts|
      invariant 0 <= k <= |parts|
      invariant start + Frame(parts) == consumed + Frame(parts[k..])
    {
      assert parts[k..][1..] == parts[k + 1..];
      consumed := consumed + FramePart(parts[k]);
      k := k + 1;
    }
    assert parts[k..] == [];
  }

  // ---------- Cache keys ----------

  datatype Namespace = Plan | Prepared

  function KeyTag(n: Namespace): seq<byte> {
    match n
    case Plan => Ascii("plan")
    case Prepared => Ascii("prepared")
  }

  datatype Compatibility = Compatibility(formatVersion: nat, transform: seq<byte>, backendAbi: Option<seq<byte>>) {
    predicate Valid() {
      formatVersion <= U32_MAX && |transform| == 32 && (backendAbi.Some? ==> |backendAbi.value| == 32)
    }
  }

  /** The parts a cache key hashes. */
  function KeyParts(namespace: Namespace, c: Compatibility, identities: seq<seq<byte>>): seq<seq<byte>> {
    [Ascii("model-weights-rs-cache-key-v1"), KeyTag(namespace), Encode(c.formatVersion, 4), c.transform]
    + (match c.backendAbi
       case Some(abi) => [[1], abi]
       case None => [[0]])
    + identities
  }

  lemma WidthsFit()
    ensures Pow256(4) == U32_MAX + 1 && Pow256(LENGTH_WIDTH) > 32
  {
    assert Pow256(1) == 256 && Pow256(2) == 65536 && Pow256(3) == 16777216 && Pow256(4) == 4294967296;
    WidthGrows(4, LENGTH_WIDTH);
  }

  /** Keys of equal hash input were derived from the same namespace, compatibility contract and
      identities. */
  lemma KeyPartsAreInjective(n: Namespace, c: Compatibility, ids: seq<seq<byte>>,
                             n': Namespace, c': Compatibility, ids': seq<seq<byte>>)
    requires c.Valid() && c'.Valid() && PartsFit(ids) && PartsFit(ids')
    requires Frame(KeyParts(n, c, ids)) == Frame(KeyParts(n', c', ids'))
    ensures n == n' && c == c' && ids == ids'
  {
    WidthsFit();
    var p, p' := KeyParts(n, c, ids), KeyParts(n', c', ids');
    KeyPartsFit(n, c, ids);
    KeyPartsFit(n', c', ids');
    UnframeOfFrame(p);
    UnframeOfFrame(p');
    assert p == p';
    hide Pow256, Encode, Decode, Frame, Unframe;
    assert |p[1]| == (if n.Plan? then 4 else 8) && |p'[1]| == if n'.Plan? then 4 else 8;
    DecodeOfEncode(c.formatVersion, 4);
    DecodeOfEncode(c'.formatVersion, 4);
    assert p[2] == p'[2] && p[3] == p'[3] && p[4] == p'[4];
    if c.backendAbi.Some? {
      assert p[4] == [1] && p[5] == p'[5] && p[6..] == ids && p'[6..] == ids';
    } else {
      assert p[4] == [0] && p[5..] == ids && p'[5..] == ids';
    }
  }

  lemma KeyPartsFit(n: Namespace, c: Compatibility, ids: seq<seq<byte>>)
    requires c.Valid() && PartsFit(ids)
    ensures PartsFit(KeyParts(n, c, ids))
  {
    WidthsFit();
    hide Pow256, Encode;
    var p, head := KeyParts(n, c, ids), if c.backendAbi.Some? then 6 else 5;
    assert p[head..] == ids;
    forall i | 0 <= i < |p| ensures PartFits(p[i]) {
      if i >= head {
        assert p[i] == ids[i - head];
      }
    }
  }

  // ---------- Snapshots ----------

  datatype SnapshotFile = SnapshotFile(path: seq<byte>, size: nat, digest: seq<byte>) {
    predicate Valid() {
      |path| <= U64_MAX && size <= U64_MAX && |digest| == 32
    }
  }

  const SNAPSHOT_PREFIX: seq<byte> := Ascii("model-weights-snapshot-v1") + [0]

  function SnapshotRecord(f: SnapshotFile): seq<byte> {
    Encode(|f.path|, 8) + f.path + Encode(f.size, 8) + f.digest
  }

  function SnapshotRecords(files: seq<SnapshotFile>): seq<byte> {
    if files == [] then [] else SnapshotRecord(files[0]) + SnapshotRecords(files[1..])
  }

  /** The identity buffer of a snapshot, built file after file. */
  method SnapshotIdentity(files: seq<SnapshotFile>) returns (identity: seq<byte>)
    ensures identity == SNAPSHOT_PREFIX + SnapshotRecords(files)
  {
    hide SnapshotRecord;
    identity := SNAPSHOT_PREFIX;
    var k := 0;
    while k < |files|
      invariant 0 <= k <= |files|
      invariant SNAPSHOT_PREFIX + SnapshotRecords(files) == identity + SnapshotRecords(files[k..])
    {
      assert files[k..][1..] == files[k + 1..];
      identity := identity + SnapshotRecord(files[k]);
      k := k + 1;
    }
    assert files[k..] == [];
  }

  lemma RecordParts(f: SnapshotFile, rest: seq<byte>)
    requires f.Valid()
    ensures var b, n := SnapshotRecord(f) + rest, |f.path|;
            |b| >= 48 + n && b[..8] == Encode(n, 8) && b[8..8 + n] == f.path && b[8 + n..16 + n] == Encode(f.size, 8)
            && b[16 + n..48 + n] == f.digest && b[48 + n..] == rest
  {
    hide Encode;
  }

  /** The records determine the files, so equal identity buffers describe equal snapshots. */
  lemma {:induction false} SnapshotRecordsAreInjective(files: seq<SnapshotFile>, others: seq<SnapshotFile>)
    requires (forall i :: 0 <= i < |files| ==> files[i].Valid()) && (forall i :: 0 <= i < |others| ==> others[i].Valid())
    requires SnapshotRecords(files) == SnapshotRecords(others)
    ensures files == others
  {
    hide Encode, Decode, SnapshotRecord;
    if files == [] || others == [] {
      if files != [] {
        RecordParts(files[0], SnapshotRecords(files[1..]));
      }
      if others != [] {
        RecordParts(others[0], SnapshotRecords(others[1..]));
      }
    } else {
      var f, g := files[0], others[0];
      RecordParts(f, SnapshotRecords(files[1..]));
      RecordParts(g, SnapshotRecords(others[1..]));
      EightBytes();
      DecodeOfEncode(|f.path|, 8);
      DecodeOfEncode(|g.path|, 8);
      assert |f.path| == |g.path|;
      DecodeOfEncode(f.size, 8);
      DecodeOfEncode(g.size, 8);
      assert f == g;
      SnapshotRecordsAreInjective(files[1..], others[1..]);
      assert files == [f] + files[1..] && others == [g] + others[1..];
    }
  }

  // ---------- Hexadecimal ----------

  function HexDigit(n: nat): char
    requires n < 16
  {
    "0123456789abcdef"[n]
  }

  function DecodeHex(c: char): Option<nat> {
    if '0' <= c <= '9' then Some((c as int) - ('0' as int))
    else if 'a' <= c <= 'f' then Some((c as int) - ('a' as int) + 10)
    else if 'A' <= c <= 'F' then Some((c as int) - ('A' as int) + 10)
    else None
  }

  function Lower(c: char): char {
    if 'A' <= c <= 'F' then ((c as int) + 32) as char else c
  }

  lemma HexDigitDecodes(n: nat)
    requires n < 16
    ensures DecodeHex(HexDigit(n)) == Some(n)
  {
  }

  lemma DecodeHexBound(c: char)
    ensures DecodeHex(c).Some? ==> DecodeHex(c).value < 16 && HexDigit(DecodeHex(c).value) == Lower(c)
  {
  }

  /** Two lower-case digits for every byte. */
  function ToHex(b: seq<byte>): (s: string)
    ensures |s| == 2 * |b|
  {
    if b == [] then "" else [HexDigit(b[0] / 16), HexDigit(b[0] % 16)] + ToHex(b[1..])
  }

  /** The pairs of a text are all hexadecimal. */
  predicate AllHex(s: string) {
    forall i :: 0 <= i < |s| ==> DecodeHex(s[i]).Some?
  }

  /** The byte of pair `i`. */
  function PairByte(s: string, i: nat): byte
    requires 2 * i + 1 < |s| && AllHex(s)
  {
    DecodeHexBound(s[2 * i]);
    DecodeHexBound(s[2 * i + 1]);
    DecodeHex(s[2 * i]).value * 16 + DecodeHex(s[2 * i + 1]).value
  }

  /** Parsing a digest text pair by pair. */
  method ParseDigest(s: string) returns (r: Result<seq<byte>>)
    ensures r.Ok? <==> |s| == 64 && AllHex(s)
    ensures r.Ok? ==> |r.value| == 32 && forall i :: 0 <= i < 32 ==> r.value[i] == PairByte(s, i)
    ensures r.Err? ==> r.error == InvalidFormat
  {
    if |s| != 64 {
      return Err(InvalidFormat);
    }
    var bytes: seq<byte> := [];
    var i := 0;
    while i < 32
      invariant 0 <= i <= 32 && |bytes| == i
      invariant forall k :: 0 <= k < 2 * i ==> DecodeHex(s[k]).Some?
      invariant forall k :: 0 <= k < i ==>
                  DecodeHex(s[2 * k]).Some? && DecodeHex(s[2 * k + 1]).Some?
                  && bytes[k] == DecodeHex(s[2 * k]).value * 16 + DecodeHex(s[2 * k + 1]).value
    {
      DecodeHexBound(s[2 * i]);
      DecodeHexBound(s[2 * i + 1]);
      var high, low := DecodeHex(s[2 * i]), DecodeHex(s[2 * i + 1]);
      if high.None? || low.None? {
        return Err(InvalidFormat);
      }
      bytes := bytes + [high.value * 16 + low.value];
      i := i + 1;
    }
    return Ok(bytes);
  }

  lemma {:induction false} HexAt(b: seq<byte>, i: nat)
    requires i < |b|
    ensures ToHex(b)[2 * i] == HexDigit(b[i] / 16) && ToHex(b)[2 * i + 1] == HexDigit(b[i] % 16)
  {
    if i > 0 {
      HexAt(b[1..], i - 1);
    }
  }

  lemma DigitsDecode(b: seq<byte>, i: nat)
    requires i < |b|
    ensures DecodeHex(ToHex(b)[2 * i]) == Some(b[i] / 16) && DecodeHex(ToHex(b)[2 * i + 1]) == Some(b[i] % 16)
  {
    hide ToHex, HexDigit, DecodeHex;
    HexAt(b, i);
    HexDigitDecodes(b[i] / 16);
    HexDigitDecodes(b[i] % 16);
  }

  lemma TextIsHex(b: seq<byte>)
    ensures AllHex(ToHex(b))
  {
    hide ToHex, DecodeHex;
    forall k | 0 <= k < |ToHex(b)|
      ensures DecodeHex(ToHex(b)[k]).Some?
    {
      DigitsDecode(b, k / 2);
      assert k == 2 * (k / 2) || k == 2 * (k / 2) + 1;
    }
  }

  /** Parsing the text of a digest gives the digest back. */
  lemma HexRoundTrip(b: seq<byte>)
    ensures AllHex(ToHex(b)) && forall i :: 0 <= i < |b| ==> PairByte(ToHex(b), i) == b[i]
  {
    hide ToHex, DecodeHex, AllHex;
    TextIsHex(b);
    forall i | 0 <= i < |b| ensures PairByte(ToHex(b), i) == b[i] {
      DigitsDecode(b, i);
    }
  }

  lemma PairNormalizes(s: string, b: seq<byte>, i: nat)
    requires AllHex(s) && |s| == 2 * |b| && i < |b| && b[i] == PairByte(s, i)
    ensures ToHex(b)[2 * i] == Lower(s[2 * i]) && ToHex(b)[2 * i + 1] == Lower(s[2 * i + 1])
  {
    hide ToHex, HexDigit, Lower;
    HexAt(b, i);
    DecodeHexBound(s[2 * i]);
    DecodeHexBound(s[2 * i + 1]);
    hide DecodeHex;
    var high, low := DecodeHex(s[2 * i]).value, DecodeHex(s[2 * i + 1]).value;
    assert b[i] == high * 16 + low && b[i] / 16 == high && b[i] % 16 == low;
  }

  /** Printing a parsed digest gives the text in lower case, so upper case is accepted and
      normalized. */
  lemma HexNormalizes(s: string, b: seq<byte>)
    requires AllHex(s) && |s| == 2 * |b| && forall i :: 0 <= i < |b| ==> b[i] == PairByte(s, i)
    ensures ToHex(b) == seq(|s|, k requires 0 <= k < |s| => Lower(s[k]))
  {
    hide ToHex, Lower, PairByte, AllHex;
    var text := ToHex(b);
    forall k | 0 <= k < |s| ensures text[k] == Lower(s[k]) {
      var i := k / 2;
      assert b[i] == PairByte(s, i);
      PairNormalizes(s, b, i);
      assert k == 2 * i || k == 2 * i + 1;
    }
  }
}
