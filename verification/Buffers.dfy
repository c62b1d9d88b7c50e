/** Byte buffers seen as arrays of fixed-width elements. */
module Buffers {
  import opened Checked
  import opened Shapes

  type byte = x: nat | x < 256
  type Elem = seq<byte>

  /** The `n` consecutive elements of `w` bytes each. */
  function Chunks(b: seq<byte>, w: nat, n: nat): (c: seq<Elem>)
    requires |b| == n * w
    ensures |c| == n
  {
    seq(n, i requires 0 <= i < n => ChunkBounds(i, w, n); b[i * w..(i + 1) * w])
  }

  lemma ChunkBounds(i: nat, w: nat, n: nat)
    requires i < n
    ensures i * w <= (i + 1) * w <= n * w && (i + 1) * w == i * w + w
  {
    assert (i + 1) * w == i * w + w;
    MulMono(i + 1, n, w);
  }

  predicate AllWide(c: seq<Elem>, w: nat) {
    forall i :: 0 <= i < |c| ==> |c[i]| == w
  }

  lemma ChunksAreWide(b: seq<byte>, w: nat, n: nat)
    requires |b| == n * w
    ensures AllWide(Chunks(b, w, n), w)
  {
    forall i | 0 <= i < n ensures |Chunks(b, w, n)[i]| == w {
      ChunkBounds(i, w, n);
    }
  }

  function Zeros(n: nat): (z: seq<byte>)
    ensures |z| == n
  {
    seq(n, _ => 0)
  }

  lemma ChunksOfZeros(w: nat, n: nat)
    requires n * w >= 0
    ensures Chunks(Zeros(n * w), w, n) == seq(n, _ => Zeros(w))
  {
    forall i | 0 <= i < n ensures Chunks(Zeros(n * w), w, n)[i] == Zeros(w) {
      ChunkBounds(i, w, n);
    }
  }

  /** Chunks of different elements do not share a byte. */
  lemma DisjointChunks(i: nat, j: nat, w: nat)
    requires i != j
    ensures (i + 1) * w <= j * w || (j + 1) * w <= i * w
  {
    if i < j {
      MulMono(i + 1, j, w);
    } else {
      MulMono(j + 1, i, w);
    }
  }

  /** Overwriting the bytes of one element updates exactly that element. */
  lemma ChunkUpdate(b: seq<byte>, e: Elem, i: nat, w: nat, n: nat)
    requires |b| == n * w && i < n && |e| == w
    ensures i * w <= (i + 1) * w <= n * w
    ensures |b[..i * w] + e + b[(i + 1) * w..]| == n * w
    ensures Chunks(b[..i * w] + e + b[(i + 1) * w..], w, n) == Chunks(b, w, n)[i := e]
  {
    ChunkBounds(i, w, n);
    var b' := b[..i * w] + e + b[(i + 1) * w..];
    forall j | 0 <= j < n ensures Chunks(b', w, n)[j] == Chunks(b, w, n)[i := e][j] {
      ChunkBounds(j, w, n);
      if j != i {
        DisjointChunks(i, j, w);
        assert b'[j * w..(j + 1) * w] == b[j * w..(j + 1) * w];
      } else {
        assert b'[i * w..(i + 1) * w] == e;
      }
    }
  }

  lemma ByteOfChunk(b: seq<byte>, w: nat, n: nat, k: nat)
    requires |b| == n * w && w > 0 && k < |b|
    ensures k / w < n && k % w < |Chunks(b, w, n)[k / w]| && b[k] == Chunks(b, w, n)[k / w][k % w]
  {
    DivisionBound(k, n, w);
    ChunkBounds(k / w, w, n);
    assert k == (k / w) * w + k % w;
  }

  /** A buffer is determined by its elements. */
  lemma ChunksDetermineBytes(a: seq<byte>, b: seq<byte>, w: nat, n: nat)
    requires |a| == |b| == n * w && w > 0 && Chunks(a, w, n) == Chunks(b, w, n)
    ensures a == b
  {
    forall k | 0 <= k < |a| ensures a[k] == b[k] {
      ByteOfChunk(a, w, n, k);
      ByteOfChunk(b, w, n, k);
    }
  }

  /** Concatenation of elements into bytes. */
  function Flatten(c: seq<Elem>): (b: seq<byte>) {
    if c == [] then [] else c[0] + Flatten(c[1..])
  }

  lemma {:induction false} FlattenLength(c: seq<Elem>, w: nat)
    requires AllWide(c, w)
    ensures |Flatten(c)| == |c| * w
  {
    if c != [] {
      FlattenLength(c[1..], w);
      assert |c| * w == w + (|c| - 1) * w;
    }
  }

  lemma {:induction false} ChunksOfFlatten(c: seq<Elem>, w: nat)
    requires AllWide(c, w)
    ensures |Flatten(c)| == |c| * w && Chunks(Flatten(c), w, |c|) == c
  {
    FlattenLength(c, w);
    if c != [] {
      ChunksOfFlatten(c[1..], w);
      var n := |c|;
      forall i | 0 <= i < n ensures Chunks(Flatten(c), w, n)[i] == c[i] {
        ChunkBounds(i, w, n);
        if i > 0 {
          ChunkBounds(i - 1, w, n - 1);
          assert Flatten(c)[i * w..(i + 1) * w] == Flatten(c[1..])[(i - 1) * w..i * w];
          assert c[i] == c[1..][i - 1] == Chunks(Flatten(c[1..]), w, n - 1)[i - 1];
        }
      }
    }
  }

  lemma FlattenOfChunks(b: seq<byte>, w: nat, n: nat)
    requires |b| == n * w && w > 0
    ensures Flatten(Chunks(b, w, n)) == b
  {
    ChunksAreWide(b, w, n);
    ChunksOfFlatten(Chunks(b, w, n), w);
    ChunksDetermineBytes(Flatten(Chunks(b, w, n)), b, w, n);
  }

  /** A slice of a slice is a slice. */
  lemma SubSlice<T>(s: seq<T>, a: nat, b: nat, x: nat, n: nat)
    requires a <= b <= |s| && x + n <= b - a
    ensures s[a..b][x..x + n] == s[a + x..a + x + n]
  {
    var m := s[a..b];
    var left, right := m[x..x + n], s[a + x..a + x + n];
    forall k | 0 <= k < n ensures left[k] == right[k] {
      assert left[k] == m[x + k] == s[a + x + k];
    }
  }

  method CopyFromSlice(source: seq<byte>, target: array<byte>, start: nat)
    requires start + |source| <= target.Length
    modifies target
    ensures target[..] == old(target[..start]) + source + old(target[start + |source|..])
  {
    ghost var before := target[..];
    var k := 0;
    while k < |source|
      invariant 0 <= k <= |source|
      invariant target[..] == before[..start] + source[..k] + before[start + k..]
    {
      target[start + k] := source[k];
      k := k + 1;
    }
  }

  /** Copies one element with the bounds checks of the kernels.  It succeeds exactly when
      both positions lie inside their buffers, and then changes that element only. */
  method CopyElement(source: seq<byte>, sourceElement: nat, target: array<byte>, targetElement: nat,
                     width: nat, ghost n: nat, ghost m: nat)
    returns (r: Result<()>)
    requires width > 0 && |source| == n * width <= U64_MAX && target.Length == m * width <= U64_MAX
    modifies target
    ensures r.Ok? <==> sourceElement < n && targetElement < m
    ensures r.Ok? ==> Chunks(target[..], width, m)
                      == old(Chunks(target[..], width, m))[targetElement := Chunks(source, width, n)[sourceElement]]
    ensures r.Err? ==> target[..] == old(target[..])
  {
    RangeCheck(sourceElement, width, n);
    RangeCheck(targetElement, width, m);
    if CheckedMul(sourceElement, width).Err? || CheckedMul(targetElement, width).Err? {
      return Err(ResourceLimit);
    }
    var sourceStart, targetStart := sourceElement * width, targetElement * width;
    if CheckedAdd(sourceStart, width).Err? || CheckedAdd(targetStart, width).Err? {
      return Err(ResourceLimit);
    }
    if sourceStart + width > |source| || targetStart + width > target.Length {
      return Err(Integrity);
    }
    ghost var before := target[..];
    CopyFromSlice(source[sourceStart..sourceStart + width], target, targetStart);
    ChunkBounds(sourceElement, width, n);
    ChunkUpdate(before, source[sourceStart..sourceStart + width], targetElement, width, m);
    return Ok(());
  }

  lemma RangeCheck(i: nat, w: nat, n: nat)
    requires w > 0
    ensures i < n <==> i * w + w <= n * w
  {
    assert (i + 1) * w == i * w + w;
    if i < n {
      MulMono(i + 1, n, w);
    } else {
      MulMono(n, i, w);
    }
  }

  // ---------- Scattering a row-major list into storage ----------

  /** The buffer after the first `n` values were written to their positions in order. */
  function Scattered(init: seq<Elem>, values: seq<Elem>, to: seq<nat>, n: nat): (r: seq<Elem>)
    requires n <= |values| == |to|
    requires forall i :: 0 <= i < |to| ==> to[i] < |init|
    ensures |r| == |init|
  {
    if n == 0 then init else Scattered(init, values, to, n - 1)[to[n - 1] := values[n - 1]]
  }

  /** With distinct positions no written value is overwritten. */
  lemma {:induction false} ScatterHit(init: seq<Elem>, values: seq<Elem>, to: seq<nat>, n: nat, i: nat)
    requires i < n <= |values| == |to|
    requires forall k :: 0 <= k < |to| ==> to[k] < |init|
    requires forall k :: i < k < n ==> to[k] != to[i]
    ensures Scattered(init, values, to, n)[to[i]] == values[i]
  {
    if i < n - 1 {
      ScatterHit(init, values, to, n - 1, i);
    }
  }

  /** Positions that receive no value keep what they held. */
  lemma {:induction false} ScatterMiss(init: seq<Elem>, values: seq<Elem>, to: seq<nat>, n: nat, o: nat)
    requires n <= |values| == |to| && o < |init|
    requires forall k :: 0 <= k < |to| ==> to[k] < |init|
    requires forall k :: 0 <= k < n ==> to[k] != o
    ensures Scattered(init, values, to, n)[o] == init[o]
  {
    if n > 0 {
      ScatterMiss(init, values, to, n - 1, o);
    }
  }
}
