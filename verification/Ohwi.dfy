/** The OIHW-to-OHWI form of the storage permutation: blocks of strided reads appended to the
    output, proved equal to the generic storage copy. */
module Ohwi {
  import opened Checked
  import opened Shapes
  import opened Buffers

  const COPY_TILE_ELEMENTS: nat := 16 * 1024

  /** Digit `r` below `q` in radix `n`. */
  function Pack(q: nat, n: nat, r: nat): nat {
    q * n + r
  }

  /** The digits that `Pack` joins. */
  function High(l: nat, n: nat): nat
    requires n > 0
  {
    l / n
  }

  function Low(l: nat, n: nat): nat
    requires n > 0
  {
    l % n
  }

  lemma PackBound(q: nat, outer: nat, r: nat, n: nat)
    requires q < outer && r < n
    ensures Pack(q, n, r) < outer * n
  {
    MulMono(q + 1, outer, n);
    assert (q + 1) * n == q * n + n;
  }

  lemma PackSplits(q: nat, n: nat, r: nat)
    requires r < n
    ensures High(Pack(q, n, r), n) == q && Low(Pack(q, n, r), n) == r
  {
    DivModOf(q, n, r);
  }

  /** Positions of element (o, i, s) in OIHW and in OHWI order. */
  function InputPosition(o: nat, i: nat, s: nat, channels: nat, spatial: nat): nat {
    Pack(Pack(o, channels, i), spatial, s)
  }

  function OutputPosition(o: nat, i: nat, s: nat, channels: nat, spatial: nat): nat {
    Pack(Pack(o, spatial, s), channels, i)
  }

  function Count(outer: nat, channels: nat, spatial: nat): nat {
    (outer * channels) * spatial
  }

  lemma CountCommutes(outer: nat, channels: nat, spatial: nat)
    ensures (outer * spatial) * channels == Count(outer, channels, spatial) == outer * (channels * spatial)
  {
    MulAssoc(outer, spatial, channels);
    MulAssoc(outer, channels, spatial);
    assert spatial * channels == channels * spatial;
  }

  lemma PositionsInRange(o: nat, i: nat, s: nat, outer: nat, channels: nat, spatial: nat)
    requires o < outer && i < channels && s < spatial
    ensures InputPosition(o, i, s, channels, spatial) < Count(outer, channels, spatial)
    ensures OutputPosition(o, i, s, channels, spatial) < Count(outer, channels, spatial)
  {
    PackBound(o, outer, i, channels);
    PackBound(Pack(o, channels, i), outer * channels, s, spatial);
    PackBound(o, outer, s, spatial);
    PackBound(Pack(o, spatial, s), outer * spatial, i, channels);
    CountCommutes(outer, channels, spatial);
  }

  lemma PositionCovered(l: nat, outer: nat, channels: nat, spatial: nat)
    requires l < Count(outer, channels, spatial)
    ensures channels > 0 && spatial > 0
    ensures High(High(l, channels), spatial) < outer && Low(l, channels) < channels
    ensures Low(High(l, channels), spatial) < spatial
    ensures l == OutputPosition(High(High(l, channels), spatial), Low(l, channels), Low(High(l, channels), spatial),
                                channels, spatial)
  {
    CountCommutes(outer, channels, spatial);
    assert channels > 0;
    DivisionBound(l, outer * spatial, channels);
    var row := l / channels;
    assert spatial > 0;
    DivisionBound(row, outer, spatial);
    Recompose(row, spatial);
    Recompose(l, channels);
  }

  /** The output channel, input channel and spatial index of an OHWI position. */
  function Position(l: nat, outer: nat, channels: nat, spatial: nat): (p: (nat, nat, nat))
    requires l < Count(outer, channels, spatial)
    ensures p.0 < outer && p.1 < channels && p.2 < spatial
    ensures l == OutputPosition(p.0, p.1, p.2, channels, spatial)
  {
    PositionCovered(l, outer, channels, spatial);
    (High(High(l, channels), spatial), Low(l, channels), Low(High(l, channels), spatial))
  }

  lemma PositionOf(o: nat, i: nat, s: nat, outer: nat, channels: nat, spatial: nat)
    requires o < outer && i < channels && s < spatial
    ensures OutputPosition(o, i, s, channels, spatial) < Count(outer, channels, spatial)
    ensures Position(OutputPosition(o, i, s, channels, spatial), outer, channels, spatial) == (o, i, s)
  {
    PositionsInRange(o, i, s, outer, channels, spatial);
    PositionCovered(OutputPosition(o, i, s, channels, spatial), outer, channels, spatial);
    PackSplits(Pack(o, spatial, s), channels, i);
    PackSplits(o, spatial, s);
  }

  /** The elements in OHWI order. */
  function Reordered(source: seq<Elem>, outer: nat, channels: nat, spatial: nat): (r: seq<Elem>)
    requires |source| == Count(outer, channels, spatial)
    ensures |r| == |source|
  {
    seq(|source|, l requires 0 <= l < |source| =>
      var p := Position(l, outer, channels, spatial);
      PositionsInRange(p.0, p.1, p.2, outer, channels, spatial);
      source[InputPosition(p.0, p.1, p.2, channels, spatial)])
  }

  lemma ReorderedAt(source: seq<Elem>, outer: nat, channels: nat, spatial: nat, o: nat, i: nat, s: nat)
    requires |source| == Count(outer, channels, spatial) && o < outer && i < channels && s < spatial
    ensures OutputPosition(o, i, s, channels, spatial) < |source| && InputPosition(o, i, s, channels, spatial) < |source|
    ensures Reordered(source, outer, channels, spatial)[OutputPosition(o, i, s, channels, spatial)]
            == source[InputPosition(o, i, s, channels, spatial)]
  {
    PositionOf(o, i, s, outer, channels, spatial);
    PositionsInRange(o, i, s, outer, channels, spatial);
  }

  // ---------- The tiled builder ----------

  /** The buffer holds the elements of `outer` output channels. */
  ghost predicate Sizes(input: seq<byte>, outer: nat, channels: nat, spatial: nat, width: nat) {
    width > 0 && |input| == Count(outer, channels, spatial) * width <= U64_MAX
  }

  /** The elements the builder must produce. */
  ghost function Target(input: seq<byte>, outer: nat, channels: nat, spatial: nat, width: nat): (r: seq<Elem>)
    requires Sizes(input, outer, channels, spatial, width)
    ensures |r| == Count(outer, channels, spatial)
  {
    Reordered(Chunks(input, width, Count(outer, channels, spatial)), outer, channels, spatial)
  }

  /** The byte range of one source element, and the output position it belongs to. */
  lemma SourceBytes(input: seq<byte>, outer: nat, channels: nat, spatial: nat, width: nat, o: nat, i: nat, s: nat, start: nat)
    requires Sizes(input, outer, channels, spatial, width) && o < outer && i < channels && s < spatial
    requires start == InputPosition(o, i, s, channels, spatial) * width
    ensures start + width <= |input| <= U64_MAX
    ensures OutputPosition(o, i, s, channels, spatial) < |Target(input, outer, channels, spatial, width)|
    ensures Target(input, outer, channels, spatial, width)[OutputPosition(o, i, s, channels, spatial)]
            == input[start..start + width]
  {
    var elements := Count(outer, channels, spatial);
    ReorderedAt(Chunks(input, width, elements), outer, channels, spatial, o, i, s);
    ChunkBounds(InputPosition(o, i, s, channels, spatial), width, elements);
  }

  lemma NextSource(o: nat, i: nat, s: nat, channels: nat, spatial: nat, width: nat)
    ensures InputPosition(o, i + 1, s, channels, spatial) * width
            == InputPosition(o, i, s, channels, spatial) * width + spatial * width
  {
    var x := Pack(o, channels, i);
    assert Pack(o, channels, i + 1) == x + 1 && (x + 1) * spatial == x * spatial + spatial;
    var p := InputPosition(o, i, s, channels, spatial);
    assert InputPosition(o, i + 1, s, channels, spatial) == p + spatial;
    assert (p + spatial) * width == p * width + spatial * width;
  }

  /** The source element of a block start, as the builder sums it. */
  lemma BlockSum(o: nat, i: nat, s: nat, channels: nat, spatial: nat)
    ensures o * (channels * spatial) >= 0 && i * spatial >= 0
    ensures o * (channels * spatial) + i * spatial + s == InputPosition(o, i, s, channels, spatial)
  {
    MulAssoc(o, channels, spatial);
    assert (o * channels + i) * spatial == (o * channels) * spatial + i * spatial;
  }

  /** No partial sum of a block start overflows. */
  lemma BlockFits(input: seq<byte>, outer: nat, channels: nat, spatial: nat, width: nat, o: nat, i: nat, s: nat)
    requires Sizes(input, outer, channels, spatial, width) && o < outer && i < channels && s < spatial
    ensures InputPosition(o, i, s, channels, spatial) <= InputPosition(o, i, s, channels, spatial) * width <= U64_MAX
  {
    var p := InputPosition(o, i, s, channels, spatial);
    hide InputPosition, OutputPosition, Count, Target;
    SourceBytes(input, outer, channels, spatial, width, o, i, s, p * width);
    MulMono(1, width, p);
  }

  /** Appends the elements of one block of input channels. */
  method AppendBlock(input: seq<byte>, outer: nat, channels: nat, spatial: nat, width: nat,
                     o: nat, s: nat, blockStart: nat, blockEnd: nat, target: seq<Elem>)
    returns (r: Result<seq<Elem>>)
    requires Sizes(input, outer, channels, spatial, width) && o < outer && s < spatial
    requires blockStart < blockEnd <= channels && |target| == OutputPosition(o, blockStart, s, channels, spatial)
    requires target <= Target(input, outer, channels, spatial, width)
    ensures r.Ok? && |r.value| == OutputPosition(o, blockEnd, s, channels, spatial)
    ensures r.value <= Target(input, outer, channels, spatial, width)
  {
    hide Target, Sizes, InputPosition;
    BlockFits(input, outer, channels, spatial, width, o, blockStart, s);
    BlockSum(o, blockStart, s, channels, spatial);
    var channelBase: nat :- CheckedMul(o, channels * spatial);
    var blockOffset: nat :- CheckedMul(blockStart, spatial);
    var withBlock: nat :- CheckedAdd(channelBase, blockOffset);
    var sourceElement: nat :- CheckedAdd(withBlock, s);
    var sourceStart: nat :- CheckedMul(sourceElement, width);
    var stride := spatial * width;
    var output := target;
    var i := blockStart;
    while i < blockEnd
      invariant blockStart <= i <= blockEnd
      invariant i < blockEnd ==> sourceStart == InputPosition(o, i, s, channels, spatial) * width
      invariant |output| == OutputPosition(o, i, s, channels, spatial)
      invariant output <= Target(input, outer, channels, spatial, width)
    {
      SourceBytes(input, outer, channels, spatial, width, o, i, s, sourceStart);
      if sourceStart + width > |input| {
        return Err(Integrity);
      }
      output := output + [input[sourceStart..sourceStart + width]];
      if i + 1 < blockEnd {
        NextSource(o, i, s, channels, spatial, width);
        sourceStart := sourceStart + stride;
      }
      i := i + 1;
    }
    return Ok(output);
  }

  lemma RowFull(o: nat, s: nat, channels: nat, spatial: nat)
    ensures OutputPosition(o, channels, s, channels, spatial) == OutputPosition(o, 0, s + 1, channels, spatial)
    ensures OutputPosition(o, 0, spatial, channels, spatial) == OutputPosition(o + 1, 0, 0, channels, spatial)
  {
    var row := Pack(o, spatial, s);
    assert Pack(o, spatial, s + 1) == row + 1 && (row + 1) * channels == row * channels + channels;
    assert Pack(o, spatial, spatial) == Pack(o + 1, spatial, 0);
  }

  lemma Ends(outer: nat, channels: nat, spatial: nat)
    ensures OutputPosition(0, 0, 0, channels, spatial) == 0
    ensures OutputPosition(outer, 0, 0, channels, spatial) == Count(outer, channels, spatial)
  {
    CountCommutes(outer, channels, spatial);
  }

  /** Output channel, then spatial position, then blocks of input channels. */
  method BuildElements(input: seq<byte>, outer: nat, channels: nat, spatial: nat, elements: nat, width: nat)
    returns (r: Result<seq<byte>>)
    requires Sizes(input, outer, channels, spatial, width) && elements == Count(outer, channels, spatial)
    ensures r == Ok(Flatten(Target(input, outer, channels, spatial, width)))
  {
    hide Target, Sizes, OutputPosition, Count;
    if elements == 0 {
      assert Target(input, outer, channels, spatial, width) == [];
      return Ok([]);
    }
    StrideFits(input, outer, channels, spatial, width);
    Ends(outer, channels, spatial);
    var _ :- CheckedMul(spatial, width);
    var _ :- CheckedMul(channels, spatial);
    var output: seq<Elem> := [];
    var o := 0;
    while o < outer
      invariant 0 <= o <= outer && |output| == OutputPosition(o, 0, 0, channels, spatial)
      invariant output <= Target(input, outer, channels, spatial, width)
    {
      var s := 0;
      while s < spatial
        invariant 0 <= s <= spatial && |output| == OutputPosition(o, 0, s, channels, spatial)
        invariant output <= Target(input, outer, channels, spatial, width)
      {
        var blockStart := 0;
        while blockStart < channels
          invariant 0 <= blockStart <= channels && |output| == OutputPosition(o, blockStart, s, channels, spatial)
          invariant output <= Target(input, outer, channels, spatial, width)
        {
          var blockEnd := if blockStart + COPY_TILE_ELEMENTS < channels then blockStart + COPY_TILE_ELEMENTS else channels;
          output :- AppendBlock(input, outer, channels, spatial, width, o, s, blockStart, blockEnd, output);
          blockStart := blockEnd;
        }
        RowFull(o, s, channels, spatial);
        s := s + 1;
      }
      RowFull(o, 0, channels, spatial);
      o := o + 1;
    }
    assert output == Target(input, outer, channels, spatial, width);
    if |output| != elements {
      return Err(Integrity);
    }
    return Ok(Flatten(output));
  }

  lemma StrideFits(input: seq<byte>, outer: nat, channels: nat, spatial: nat, width: nat)
    requires Sizes(input, outer, channels, spatial, width) && Count(outer, channels, spatial) > 0
    ensures spatial * width <= U64_MAX && channels * spatial <= U64_MAX
  {
    MulMono(1, outer * channels, spatial);
    MulMono(spatial, (outer * channels) * spatial, width);
    MulMono(1, outer, channels);
    MulMono(channels, outer * channels, spatial);
    MulMono(1, width, (outer * channels) * spatial);
  }
}
