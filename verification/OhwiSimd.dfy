/** The 3x3 kernels for 16-bit elements: the scalar rows and the 256-bit unpack network.  An
    element is an opaque two-byte value, and a register is its sixteen lanes. */
module OhwiSimd {
  import opened Checked
  import opened Shapes
  import opened Buffers
  import opened Ohwi

  const SPATIAL: nat := 9
  const SIMD_CHANNELS: nat := 16
  const CANCELLATION_CHANNELS: nat := SIMD_CHANNELS * ((16 * 1024) / (SPATIAL * SIMD_CHANNELS))

  // ---------- The unpack network ----------

  /** A 256-bit register as sixteen 16-bit lanes; the 128-bit halves are lanes 0..8 and 8..16. */
  type Lanes = s: seq<Elem> | |s| == 16 witness seq(16, _ => [])

  function UnpackLo16(a: Lanes, b: Lanes): Lanes {
    [a[0], b[0], a[1], b[1], a[2], b[2], a[3], b[3], a[8], b[8], a[9], b[9], a[10], b[10], a[11], b[11]]
  }

  function UnpackHi16(a: Lanes, b: Lanes): Lanes {
    [a[4], b[4], a[5], b[5], a[6], b[6], a[7], b[7], a[12], b[12], a[13], b[13], a[14], b[14], a[15], b[15]]
  }

  function UnpackLo32(a: Lanes, b: Lanes): Lanes {
    [a[0], a[1], b[0], b[1], a[2], a[3], b[2], b[3], a[8], a[9], b[8], b[9], a[10], a[11], b[10], b[11]]
  }

  function UnpackHi32(a: Lanes, b: Lanes): Lanes {
    [a[4], a[5], b[4], b[5], a[6], a[7], b[6], b[7], a[12], a[13], b[12], b[13], a[14], a[15], b[14], b[15]]
  }

  function UnpackLo64(a: Lanes, b: Lanes): Lanes {
    [a[0], a[1], a[2], a[3], b[0], b[1], b[2], b[3], a[8], a[9], a[10], a[11], b[8], b[9], b[10], b[11]]
  }

  function UnpackHi64(a: Lanes, b: Lanes): Lanes {
    [a[4], a[5], a[6], a[7], b[4], b[5], b[6], b[7], a[12], a[13], a[14], a[15], b[12], b[13], b[14], b[15]]
  }

  /** The loaded prefix of channel `c` in a block of sixteen channels of nine elements. */
  function SourceRow(block: seq<Elem>, c: nat): (r: seq<Elem>)
    requires |block| == SPATIAL * SIMD_CHANNELS && c < SIMD_CHANNELS
    ensures |r| == 8
  {
    block[c * SPATIAL..c * SPATIAL + 8]
  }

  /** Channel `row` in the low half and channel `row + 8` in the high half. */
  function Paired(block: seq<Elem>, row: nat): Lanes
    requires |block| == SPATIAL * SIMD_CHANNELS && row < 8
  {
    SourceRow(block, row) + SourceRow(block, row + 8)
  }

  function Columns(block: seq<Elem>): (columns: seq<Lanes>)
    requires |block| == SPATIAL * SIMD_CHANNELS
    ensures |columns| == 8
  {
    var t0 := UnpackLo16(Paired(block, 0), Paired(block, 1));
    var t1 := UnpackHi16(Paired(block, 0), Paired(block, 1));
    var t2 := UnpackLo16(Paired(block, 2), Paired(block, 3));
    var t3 := UnpackHi16(Paired(block, 2), Paired(block, 3));
    var t4 := UnpackLo16(Paired(block, 4), Paired(block, 5));
    var t5 := UnpackHi16(Paired(block, 4), Paired(block, 5));
    var t6 := UnpackLo16(Paired(block, 6), Paired(block, 7));
    var t7 := UnpackHi16(Paired(block, 6), Paired(block, 7));
    var u0 := UnpackLo32(t0, t2);
    var u1 := UnpackHi32(t0, t2);
    var u2 := UnpackLo32(t4, t6);
    var u3 := UnpackHi32(t4, t6);
    var u4 := UnpackLo32(t1, t3);
    var u5 := UnpackHi32(t1, t3);
    var u6 := UnpackLo32(t5, t7);
    var u7 := UnpackHi32(t5, t7);
    [UnpackLo64(u0, u2), UnpackHi64(u0, u2), UnpackLo64(u1, u3), UnpackHi64(u1, u3),
     UnpackLo64(u4, u6), UnpackHi64(u4, u6), UnpackLo64(u5, u7), UnpackHi64(u5, u7)]
  }

  /** Lane `p` of the row pair `row`. */
  lemma PairedLane(block: seq<Elem>, row: nat, p: nat)
    requires |block| == SPATIAL * SIMD_CHANNELS && row < 8 && p < 16
    ensures Paired(block, row)[p] == block[(if p < 8 then row else row + 8) * SPATIAL + p % 8]
  {
  }

  /** The network transposes: lane `c` of column `s` is element `s` of channel `c`. */
  lemma NetworkTransposes(block: seq<Elem>, s: nat, c: nat)
    requires |block| == SPATIAL * SIMD_CHANNELS && s < 8 && c < 16
    ensures Columns(block)[s][c] == block[c * SPATIAL + s]
  {
    hide Paired, Columns;
    if c < 8 {
      PairedLane(block, c, s);
      NetworkLaneLow(block, s, c);
    } else {
      PairedLane(block, c - 8, s + 8);
      NetworkLaneHigh(block, s, c);
    }
  }

  lemma NetworkLaneLow(block: seq<Elem>, s: nat, c: nat)
    requires |block| == SPATIAL * SIMD_CHANNELS && s < 8 && c < 8
    ensures Columns(block)[s][c] == Paired(block, c)[s]
  {
    hide Paired;
  }

  lemma NetworkLaneHigh(block: seq<Elem>, s: nat, c: nat)
    requires |block| == SPATIAL * SIMD_CHANNELS && s < 8 && 8 <= c < 16
    ensures Columns(block)[s][c] == Paired(block, c - 8)[s + 8]
  {
    hide Paired;
  }

  // ---------- Progress of the output ----------

  /** Every position keeps its value or takes its final one. */
  predicate Toward(before: seq<Elem>, after: seq<Elem>, final: seq<Elem>) {
    |before| == |after| == |final| && forall p :: 0 <= p < |after| ==> after[p] == before[p] || after[p] == final[p]
  }

  lemma TowardTwice(a: seq<Elem>, b: seq<Elem>, c: seq<Elem>, final: seq<Elem>)
    requires Toward(a, b, final) && Toward(b, c, final)
    ensures Toward(a, c, final)
  {
  }

  /** Input channels `from..to` of row `s` of output channel `o` are final. */
  ghost predicate RowDone(output: seq<Elem>, final: seq<Elem>, channels: nat, o: nat, s: nat, from: nat, to: nat) {
    |output| == |final| && forall i :: from <= i < to ==>
      OutputPosition(o, i, s, channels, SPATIAL) < |final|
      && output[OutputPosition(o, i, s, channels, SPATIAL)] == final[OutputPosition(o, i, s, channels, SPATIAL)]
  }

  /** The first `rows` rows of output channel `o`. */
  ghost predicate RowsDone(output: seq<Elem>, final: seq<Elem>, channels: nat, o: nat, rows: nat, from: nat, to: nat) {
    forall s :: 0 <= s < rows ==> RowDone(output, final, channels, o, s, from, to)
  }

  lemma RowsStayDone(before: seq<Elem>, after: seq<Elem>, final: seq<Elem>, channels: nat, o: nat, rows: nat, from: nat, to: nat)
    requires Toward(before, after, final) && RowsDone(before, final, channels, o, rows, from, to)
    ensures RowsDone(after, final, channels, o, rows, from, to)
  {
    hide OutputPosition;
    forall s | 0 <= s < rows ensures RowDone(after, final, channels, o, s, from, to) {
      assert RowDone(before, final, channels, o, s, from, to);
    }
  }

  lemma RowsJoin(output: seq<Elem>, final: seq<Elem>, channels: nat, o: nat, rows: nat, from: nat, mid: nat, to: nat)
    requires RowsDone(output, final, channels, o, rows, from, mid) && RowsDone(output, final, channels, o, rows, mid, to)
    ensures RowsDone(output, final, channels, o, rows, from, to)
  {
    hide OutputPosition;
    forall s | 0 <= s < rows ensures RowDone(output, final, channels, o, s, from, to) {
      assert RowDone(output, final, channels, o, s, from, mid) && RowDone(output, final, channels, o, s, mid, to);
    }
  }

  ghost predicate ChannelsDone(output: seq<Elem>, final: seq<Elem>, channels: nat, outer: nat) {
    forall o :: 0 <= o < outer ==> RowsDone(output, final, channels, o, SPATIAL, 0, channels)
  }

  lemma ChannelsStayDone(before: seq<Elem>, after: seq<Elem>, final: seq<Elem>, channels: nat, outer: nat)
    requires Toward(before, after, final) && ChannelsDone(before, final, channels, outer)
    ensures ChannelsDone(after, final, channels, outer)
  {
    hide RowsDone;
    forall o | 0 <= o < outer ensures RowsDone(after, final, channels, o, SPATIAL, 0, channels) {
      RowsStayDone(before, after, final, channels, o, SPATIAL, 0, channels);
    }
  }

  /** When every row of every output channel is final, so is the output. */
  lemma AllDone(output: seq<Elem>, source: seq<Elem>, outer: nat, channels: nat)
    requires |output| == |source| == Count(outer, channels, SPATIAL)
    requires ChannelsDone(output, Reordered(source, outer, channels, SPATIAL), channels, outer)
    ensures output == Reordered(source, outer, channels, SPATIAL)
  {
    hide OutputPosition, Reordered;
    var final := Reordered(source, outer, channels, SPATIAL);
    forall l | 0 <= l < |output| ensures output[l] == final[l] {
      var p := Position(l, outer, channels, SPATIAL);
      assert RowsDone(output, final, channels, p.0, SPATIAL, 0, channels);
      assert RowDone(output, final, channels, p.0, p.2, 0, channels);
      assert l == OutputPosition(p.0, p.1, p.2, channels, SPATIAL);
    }
  }

  // ---------- Kernels ----------

  /** Buffers of one run, and what the output must become. */
  ghost predicate SameCount(source: seq<Elem>, output: array<Elem>, outer: nat, channels: nat) {
    |source| == output.Length == Count(outer, channels, SPATIAL)
  }

  method CopyScalarRow(source: seq<Elem>, output: array<Elem>, ghost outer: nat, channels: nat, o: nat,
                       channelStart: nat, channelEnd: nat, s: nat)
    requires SameCount(source, output, outer, channels) && o < outer && channelStart <= channelEnd <= channels && s < SPATIAL
    modifies output
    ensures var final := Reordered(source, outer, channels, SPATIAL);
            Toward(old(output[..]), output[..], final)
            && RowDone(output[..], final, channels, o, s, channelStart, channelEnd)
  {
    hide OutputPosition, InputPosition, Reordered, Count;
    ghost var final := Reordered(source, outer, channels, SPATIAL);
    var i := channelStart;
    while i < channelEnd
      invariant channelStart <= i <= channelEnd
      invariant Toward(old(output[..]), output[..], final) && RowDone(output[..], final, channels, o, s, channelStart, i)
    {
      ReorderedAt(source, outer, channels, SPATIAL, o, i, s);
      output[OutputPosition(o, i, s, channels, SPATIAL)] := source[InputPosition(o, i, s, channels, SPATIAL)];
      i := i + 1;
    }
  }

  method CopyScalarChannels(source: seq<Elem>, output: array<Elem>, ghost outer: nat, channels: nat, o: nat,
                            channelStart: nat, channelEnd: nat)
    requires SameCount(source, output, outer, channels) && o < outer && channelStart <= channelEnd <= channels
    modifies output
    ensures var final := Reordered(source, outer, channels, SPATIAL);
            Toward(old(output[..]), output[..], final)
            && RowsDone(output[..], final, channels, o, SPATIAL, channelStart, channelEnd)
  {
    hide Reordered, RowDone;
    ghost var final := Reordered(source, outer, channels, SPATIAL);
    var s := 0;
    while s < SPATIAL
      invariant 0 <= s <= SPATIAL && Toward(old(output[..]), output[..], final)
      invariant RowsDone(output[..], final, channels, o, s, channelStart, channelEnd)
    {
      ghost var before := output[..];
      CopyScalarRow(source, output, outer, channels, o, channelStart, channelEnd, s);
      TowardTwice(old(output[..]), before, output[..], final);
      RowsStayDone(before, output[..], final, channels, o, s, channelStart, channelEnd);
      s := s + 1;
    }
  }

  function NextChunk(channelStart: nat, channels: nat): (channelEnd: nat)
    requires channelStart < channels
    ensures channelStart < channelEnd <= channels
  {
    if channelStart + CANCELLATION_CHANNELS < channels then channelStart + CANCELLATION_CHANNELS else channels
  }

  /** Chunks of channels, row by row. */
  method PermuteScalar(source: seq<Elem>, output: array<Elem>, outer: nat, channels: nat)
    requires SameCount(source, output, outer, channels)
    modifies output
    ensures output[..] == Reordered(source, outer, channels, SPATIAL)
  {
    hide Reordered, RowDone, RowsDone;
    ghost var final := Reordered(source, outer, channels, SPATIAL);
    var o := 0;
    while o < outer
      invariant 0 <= o <= outer && ChannelsDone(output[..], final, channels, o)
    {
      ghost var entry := output[..];
      NothingDone(output[..], final, channels, o, 0);
      var channelStart := 0;
      while channelStart < channels
        invariant 0 <= channelStart <= channels && Toward(entry, output[..], final)
        invariant RowsDone(output[..], final, channels, o, SPATIAL, 0, channelStart)
      {
        ghost var before := output[..];
        var channelEnd := NextChunk(channelStart, channels);
        CopyScalarChannels(source, output, outer, channels, o, channelStart, channelEnd);
        ChunkDone(entry, before, output[..], final, channels, o, channelStart, channelEnd);
        channelStart := channelEnd;
      }
      ChannelsStayDone(entry, output[..], final, channels, o);
      o := o + 1;
    }
    AllDone(output[..], source, outer, channels);
  }

  lemma NothingDone(output: seq<Elem>, final: seq<Elem>, channels: nat, o: nat, from: nat)
    requires |output| == |final|
    ensures RowsDone(output, final, channels, o, SPATIAL, from, from)
  {
  }

  lemma ChunkDone(entry: seq<Elem>, before: seq<Elem>, after: seq<Elem>, final: seq<Elem>, channels: nat, o: nat,
                  mid: nat, to: nat)
    requires Toward(entry, before, final) && Toward(before, after, final)
    requires RowsDone(before, final, channels, o, SPATIAL, 0, mid) && RowsDone(after, final, channels, o, SPATIAL, mid, to)
    ensures Toward(entry, after, final) && RowsDone(after, final, channels, o, SPATIAL, 0, to)
  {
    hide RowsDone;
    TowardTwice(entry, before, after, final);
    RowsStayDone(before, after, final, channels, o, SPATIAL, 0, mid);
    RowsJoin(after, final, channels, o, SPATIAL, 0, mid, to);
  }

  /** Where lane `c` of a block comes from and goes to. */
  lemma BlockLane(source: seq<Elem>, outer: nat, channels: nat, o: nat, i: nat, s: nat, c: nat)
    requires |source| == Count(outer, channels, SPATIAL) && o < outer && i + SIMD_CHANNELS <= channels
    requires s < 8 && c < SIMD_CHANNELS
    ensures InputPosition(o, i, 0, channels, SPATIAL) + SPATIAL * SIMD_CHANNELS <= |source|
    ensures OutputPosition(o, i + c, s, channels, SPATIAL) == OutputPosition(o, i, s, channels, SPATIAL) + c < |source|
    ensures var start := InputPosition(o, i, 0, channels, SPATIAL);
            Reordered(source, outer, channels, SPATIAL)[OutputPosition(o, i + c, s, channels, SPATIAL)]
            == Columns(source[start..start + SPATIAL * SIMD_CHANNELS])[s][c]
  {
    hide Reordered, Columns, Count;
    var start := InputPosition(o, i, 0, channels, SPATIAL);
    PositionsInRange(o, i + 15, 8, outer, channels, SPATIAL);
    assert InputPosition(o, i + 15, 8, channels, SPATIAL) == start + 15 * SPATIAL + 8;
    ReorderedAt(source, outer, channels, SPATIAL, o, i + c, s);
    NetworkTransposes(source[start..start + SPATIAL * SIMD_CHANNELS], s, c);
    assert InputPosition(o, i + c, s, channels, SPATIAL) == start + c * SPATIAL + s;
  }

  /** Stores the eight columns of a block, sixteen lanes each. */
  method StoreColumns(source: seq<Elem>, output: array<Elem>, ghost outer: nat, channels: nat, o: nat, i: nat)
    requires SameCount(source, output, outer, channels) && o < outer && i + SIMD_CHANNELS <= channels
    modifies output
    ensures var final := Reordered(source, outer, channels, SPATIAL);
            Toward(old(output[..]), output[..], final)
            && RowsDone(output[..], final, channels, o, SPATIAL - 1, i, i + SIMD_CHANNELS)
  {
    hide OutputPosition, InputPosition, Reordered, Count, Columns;
    ghost var final := Reordered(source, outer, channels, SPATIAL);
    BlockLane(source, outer, channels, o, i, 0, 0);
    var start := InputPosition(o, i, 0, channels, SPATIAL);
    var columns := Columns(source[start..start + SPATIAL * SIMD_CHANNELS]);
    var s := 0;
    while s < SPATIAL - 1
      invariant 0 <= s <= SPATIAL - 1 && Toward(old(output[..]), output[..], final)
      invariant RowsDone(output[..], final, channels, o, s, i, i + SIMD_CHANNELS)
    {
      ghost var before := output[..];
      StoreLanes(source, output, outer, channels, o, i, s, columns[s]);
      TowardTwice(old(output[..]), before, output[..], final);
      RowsStayDone(before, output[..], final, channels, o, s, i, i + SIMD_CHANNELS);
      s := s + 1;
    }
  }

  /** Stores one column into its row. */
  method StoreLanes(ghost source: seq<Elem>, output: array<Elem>, ghost outer: nat, channels: nat, o: nat, i: nat, s: nat,
                    column: Lanes)
    requires SameCount(source, output, outer, channels) && o < outer && i + SIMD_CHANNELS <= channels && s < SPATIAL - 1
    requires var start := InputPosition(o, i, 0, channels, SPATIAL);
             start + SPATIAL * SIMD_CHANNELS <= |source|
             && column == Columns(source[start..start + SPATIAL * SIMD_CHANNELS])[s]
    modifies output
    ensures var final := Reordered(source, outer, channels, SPATIAL);
            Toward(old(output[..]), output[..], final)
            && RowDone(output[..], final, channels, o, s, i, i + SIMD_CHANNELS)
  {
    hide OutputPosition, InputPosition, Reordered, Count, Columns;
    ghost var final := Reordered(source, outer, channels, SPATIAL);
    var base := OutputPosition(o, i, s, channels, SPATIAL);
    var c := 0;
    while c < SIMD_CHANNELS
      invariant 0 <= c <= SIMD_CHANNELS
      invariant Toward(old(output[..]), output[..], final) && RowDone(output[..], final, channels, o, s, i, i + c)
    {
      BlockLane(source, outer, channels, o, i, s, c);
      output[base + c] := column[c];
      c := c + 1;
    }
  }

  /** One block of sixteen channels: eight rows by the network, the ninth by scalar copies. */
  method CopyBlock(source: seq<Elem>, output: array<Elem>, ghost outer: nat, channels: nat, o: nat, i: nat)
    requires SameCount(source, output, outer, channels) && o < outer && i + SIMD_CHANNELS <= channels
    modifies output
    ensures var final := Reordered(source, outer, channels, SPATIAL);
            Toward(old(output[..]), output[..], final)
            && RowsDone(output[..], final, channels, o, SPATIAL, i, i + SIMD_CHANNELS)
  {
    hide Reordered, RowDone;
    ghost var final := Reordered(source, outer, channels, SPATIAL);
    StoreColumns(source, output, outer, channels, o, i);
    ghost var before := output[..];
    CopyScalarRow(source, output, outer, channels, o, i, i + SIMD_CHANNELS, SPATIAL - 1);
    TowardTwice(old(output[..]), before, output[..], final);
    RowsStayDone(before, output[..], final, channels, o, SPATIAL - 1, i, i + SIMD_CHANNELS);
  }

  /** One chunk of channels: whole blocks, then the scalar tail. */
  method CopyChunk(source: seq<Elem>, output: array<Elem>, ghost outer: nat, channels: nat, o: nat,
                   channelStart: nat, channelEnd: nat)
    requires SameCount(source, output, outer, channels) && o < outer && channelStart <= channelEnd <= channels
    modifies output
    ensures var final := Reordered(source, outer, channels, SPATIAL);
            Toward(old(output[..]), output[..], final)
            && RowsDone(output[..], final, channels, o, SPATIAL, channelStart, channelEnd)
  {
    hide Reordered, RowDone;
    ghost var final, entry := Reordered(source, outer, channels, SPATIAL), output[..];
    NothingDone(output[..], final, channels, o, channelStart);
    var i := channelStart;
    while i + SIMD_CHANNELS <= channelEnd
      invariant channelStart <= i <= channelEnd && Toward(entry, output[..], final)
      invariant RowsDone(output[..], final, channels, o, SPATIAL, channelStart, i)
    {
      ghost var before := output[..];
      CopyBlock(source, output, outer, channels, o, i);
      TowardTwice(entry, before, output[..], final);
      RowsStayDone(before, output[..], final, channels, o, SPATIAL, channelStart, i);
      RowsJoin(output[..], final, channels, o, SPATIAL, channelStart, i, i + SIMD_CHANNELS);
      i := i + SIMD_CHANNELS;
    }
    ghost var before := output[..];
    CopyScalarChannels(source, output, outer, channels, o, i, channelEnd);
    TowardTwice(entry, before, output[..], final);
    RowsStayDone(before, output[..], final, channels, o, SPATIAL, channelStart, i);
    RowsJoin(output[..], final, channels, o, SPATIAL, channelStart, i, channelEnd);
  }

  /** The vector kernel computes what the scalar one does. */
  method PermuteAvx2(source: seq<Elem>, output: array<Elem>, outer: nat, channels: nat)
    requires SameCount(source, output, outer, channels)
    modifies output
    ensures output[..] == Reordered(source, outer, channels, SPATIAL)
  {
    hide Reordered, RowDone, RowsDone;
    ghost var final := Reordered(source, outer, channels, SPATIAL);
    var o := 0;
    while o < outer
      invariant 0 <= o <= outer && ChannelsDone(output[..], final, channels, o)
    {
      ghost var entry := output[..];
      NothingDone(output[..], final, channels, o, 0);
      var channelStart := 0;
      while channelStart < channels
        invariant 0 <= channelStart <= channels && Toward(entry, output[..], final)
        invariant RowsDone(output[..], final, channels, o, SPATIAL, 0, channelStart)
      {
        ghost var before := output[..];
        var channelEnd := NextChunk(channelStart, channels);
        CopyChunk(source, output, outer, channels, o, channelStart, channelEnd);
        ChunkDone(entry, before, output[..], final, channels, o, channelStart, channelEnd);
        channelStart := channelEnd;
      }
      ChannelsStayDone(entry, output[..], final, channels, o);
      o := o + 1;
    }
    AllDone(output[..], source, outer, channels);
  }

  lemma ByteCount(outer: nat, channels: nat)
    ensures outer * (channels * (2 * SPATIAL)) == Count(outer, channels, SPATIAL) * 2
  {
    CountCommutes(outer, channels, SPATIAL);
    MulAssoc(outer, channels * SPATIAL, 2);
  }

  /** The dispatch on processor support, over buffers of 16-bit elements. */
  method Permute3x3(input: seq<byte>, outer: nat, channels: nat, avx2: bool) returns (r: Result<seq<byte>>)
    ensures r.Ok? <==> Sizes(input, outer, channels, SPATIAL, 2) && channels * (2 * SPATIAL) <= U64_MAX
    ensures r.Ok? ==> r.value == Flatten(Target(input, outer, channels, SPATIAL, 2))
    ensures r.Err? && Sizes(input, outer, channels, SPATIAL, 2) ==> r.error == ResourceLimit
  {
    hide Reordered;
    ByteCount(outer, channels);
    var channelBytes: nat :- CheckedMul(channels, 2 * SPATIAL);
    var expected: nat :- CheckedMul(outer, channelBytes);
    var count := Count(outer, channels, SPATIAL);
    if |input| != expected {
      return Err(Integrity);
    }
    var source := Chunks(input, 2, count);
    var output := new Elem[count](_ => []);
    if expected == 0 {
      return Ok([]);
    }
    if avx2 {
      PermuteAvx2(source, output, outer, channels);
    } else {
      PermuteScalar(source, output, outer, channels);
    }
    return Ok(Flatten(output[..]));
  }
}
