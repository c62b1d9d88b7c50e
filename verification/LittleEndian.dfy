/** Fixed-width little-endian numbers. */
module LittleEndian {
  import opened Checked
  import opened Buffers
  import Shapes

  function Pow256(width: nat): nat {
    if width == 0 then 1 else 256 * Pow256(width - 1)
  }

  function Encode(n: nat, width: nat): (b: seq<byte>)
    ensures |b| == width
  {
    if width == 0 then [] else [n % 256] + Encode(n / 256, width - 1)
  }

  function Decode(b: seq<byte>): nat {
    if b == [] then 0 else b[0] + 256 * Decode(b[1..])
  }

  lemma {:induction false} DecodeOfEncode(n: nat, width: nat)
    requires n < Pow256(width)
    ensures Decode(Encode(n, width)) == n
  {
    if width > 0 {
      DecodeOfEncode(n / 256, width - 1);
      assert Encode(n, width)[1..] == Encode(n / 256, width - 1);
    }
  }

  lemma {:induction false} EncodeOfDecode(b: seq<byte>)
    ensures Decode(b) < Pow256(|b|) && Encode(Decode(b), |b|) == b
  {
    if b != [] {
      EncodeOfDecode(b[1..]);
      var rest := Decode(b[1..]);
      assert (b[0] + 256 * rest) % 256 == b[0] && (b[0] + 256 * rest) / 256 == rest;
    }
  }

  /** Byte `i` is the digit of weight `256^i`. */
  lemma {:induction false} EncodeDigit(n: nat, width: nat, i: nat)
    requires i < width
    ensures Pow256(i) > 0 && Encode(n, width)[i] == (n / Pow256(i)) % 256
  {
    if i > 0 {
      EncodeDigit(n / 256, width - 1, i - 1);
      NestedDivision(n, Pow256(i - 1));
    }
  }

  lemma NestedDivision(n: nat, p: nat)
    requires p > 0
    ensures (n / 256) / p == n / (256 * p)
  {
    var q, r := (n / 256) / p, (n / 256) % p;
    assert n / 256 == p * q + r;
    assert n == q * (256 * p) + (256 * r + n % 256);
    Shapes.DivModOf(q, 256 * p, 256 * r + n % 256);
  }

  lemma {:induction false} WidthGrows(a: nat, b: nat)
    requires a <= b
    ensures Pow256(a) <= Pow256(b)
    decreases b - a
  {
    if a < b {
      WidthGrows(a, b - 1);
    }
  }

  lemma EightBytes()
    ensures Pow256(8) == U64_MAX + 1
  {
    assert Pow256(1) == 256 && Pow256(2) == 65536 && Pow256(3) == 16777216 && Pow256(4) == 4294967296;
    assert Pow256(5) == 1099511627776 && Pow256(6) == 281474976710656 && Pow256(7) == 72057594037927936;
  }
}
