/** Rounding an offset up to a power-of-two alignment with a bit mask, in 64 bits. */
module Alignment {
  import opened Checked
  import opened Shapes

  function Pow2(k: nat): (n: nat)
    ensures n > 0
  {
    if k == 0 then 1 else 2 * Pow2(k - 1)
  }

  predicate IsPowerOfTwo(n: nat) {
    n == 1 || (n > 0 && n % 2 == 0 && IsPowerOfTwo(n / 2))
  }

  /** Bitwise conjunction. */
  function And(a: nat, b: nat): nat {
    if a == 0 || b == 0 then 0 else 2 * And(a / 2, b / 2) + (a % 2) * (b % 2)
  }

  /** Bitwise complement in 64 bits. */
  function Complement64(n: nat): nat
    requires n <= U64_MAX
  {
    U64_MAX - n
  }

  function AlignUp(value: nat, alignment: nat): Result<nat>
    requires 0 < alignment <= U64_MAX
  {
    match CheckedAdd(value, alignment - 1)
    case Err(e) => Err(e)
    case Ok(rounded) => Ok(And(rounded, Complement64(alignment - 1)))
  }

  lemma {:induction false} AndFull(x: nat, w: nat)
    requires x < Pow2(w)
    ensures And(x, Pow2(w) - 1) == x
  {
    if w > 0 && x > 0 {
      AndFull(x / 2, w - 1);
      assert (Pow2(w) - 1) / 2 == Pow2(w - 1) - 1 && (Pow2(w) - 1) % 2 == 1;
    }
  }

  lemma HalvedRemainder(x: nat, h: nat)
    requires h > 0
    ensures x % (2 * h) == 2 * ((x / 2) % h) + x % 2
  {
    var y := x / 2;
    var q, r := y / h, y % h;
    assert y == h * q + r;
    assert x == q * (2 * h) + (2 * r + x % 2);
    DivModOf(q, 2 * h, 2 * r + x % 2);
  }

  /** Masking with the complement of `a - 1` clears the remainder modulo `a`. */
  lemma {:induction false} MaskClearsRemainder(x: nat, a: nat, w: nat)
    requires x < Pow2(w) && IsPowerOfTwo(a) && a <= Pow2(w)
    ensures And(x, Pow2(w) - a) == x - x % a
  {
    if a == 1 {
      AndFull(x, w);
    } else {
      var h := a / 2;
      HalvedRemainder(x, h);
      MaskClearsRemainder(x / 2, h, w - 1);
      assert (Pow2(w) - a) / 2 == Pow2(w - 1) - h && (Pow2(w) - a) % 2 == 0;
      if x == 0 || Pow2(w) == a {
        assert And(x / 2, Pow2(w - 1) - h) == 0;
      }
    }
  }

  lemma {:induction false} PowerDivides(a: nat, w: nat)
    requires IsPowerOfTwo(a) && a <= Pow2(w)
    ensures Pow2(w) % a == 0
  {
    if a > 1 {
      PowerDivides(a / 2, w - 1);
      HalvedRemainder(Pow2(w), a / 2);
    }
  }

  lemma {:induction false} Doubling(k: nat)
    ensures Pow2(k + k) == Pow2(k) * Pow2(k)
  {
    if k > 0 {
      Doubling(k - 1);
      assert Pow2(k + k) == 2 * Pow2(k + k - 1) == 4 * Pow2((k - 1) + (k - 1));
    }
  }

  lemma Width64()
    ensures Pow2(64) == U64_MAX + 1
  {
    assert Pow2(4) == 16;
    Doubling(4);
    Doubling(8);
    Doubling(16);
    Doubling(32);
    assert Pow2(16) == 65536 && Pow2(32) == 0x1_0000_0000;
  }

  predicate MultipleFrom(m: nat, a: nat, value: nat)
    requires a > 0
  {
    m % a == 0 && m >= value
  }

  lemma MultipleGap(m: nat, n: nat, a: nat)
    requires a > 0 && m % a == 0 && n % a == 0 && m < n + a
    ensures m <= n
  {
    var p, q := m / a, n / a;
    Recompose(m, a);
    Recompose(n, a);
    assert p * a < (q + 1) * a;
    CancelMul(p, q + 1, a);
    MulMono(p, q, a);
  }

  /** The result is the least multiple of the alignment at or above the value; there is an
      error exactly when that multiple does not fit in 64 bits. */
  lemma AlignUpIsLeastMultiple(value: nat, a: nat)
    requires value <= U64_MAX && IsPowerOfTwo(a) && 0 < a <= U64_MAX
    ensures AlignUp(value, a).Ok? ==>
              var r := AlignUp(value, a).value;
              MultipleFrom(r, a, value) && r <= U64_MAX && forall m: nat :: MultipleFrom(m, a, value) ==> r <= m
    ensures AlignUp(value, a).Err? ==> forall m: nat :: MultipleFrom(m, a, value) ==> m > U64_MAX
  {
    hide Pow2, IsPowerOfTwo, And;
    Width64();
    if AlignUp(value, a).Ok? {
      var x := value + a - 1;
      MaskClearsRemainder(x, a, 64);
      var r := AlignUp(value, a).value;
      assert r == x - x % a;
      DivModOf(x / a, a, 0);
      Recompose(x, a);
      assert r % a == 0;
      forall m: nat | MultipleFrom(m, a, value)
        ensures r <= m
      {
        MultipleGap(r, m, a);
      }
    } else {
      PowerDivides(a, 64);
      forall m: nat | MultipleFrom(m, a, value)
        ensures m > U64_MAX
      {
        MultipleGap(U64_MAX + 1, m, a);
      }
    }
  }
}
