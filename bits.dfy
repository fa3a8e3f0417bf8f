/**
 * C's shift and bitwise operators on the non-negative values the firmware
 * handles, together with the lemmas that give them their arithmetic meaning.
 *
 * Every operand in the modelled code is a `uint8_t`, a `uint16_t` or a
 * non-negative `int` below 2^28, so the operators never see a sign bit and
 * never overflow the board's 32-bit `int`: on such values `<<` is a
 * multiplication by a power of two, `>>` a division, and `&`, `|` act bit by
 * bit on the binary expansion, which is how they are defined here.
 */
module Bits {

  /** The width-limited types C uses: `uint8_t` and `uint16_t`. */
  type byte = x: int | 0 <= x < 0x100
  type u16 = x: int | 0 <= x < 0x1_0000

  function Pow2(k: nat): (p: nat)
    ensures p >= 1
  {
    if k == 0 then 1 else 2 * Pow2(k - 1)
  }

  /** `x << k` */
  function Shl(x: nat, k: nat): nat
  {
    x * Pow2(k)
  }

  /** `x >> k` */
  function Shr(x: nat, k: nat): nat
  {
    var p := Pow2(k);
    DivNonNegative(x, p);
    x / p
  }

  lemma DivNonNegative(x: nat, d: nat)
    requires d >= 1
    ensures 0 <= x / d <= x
  {
  }

  /** `x & y`, bit by bit from the least significant bit. */
  function And(x: nat, y: nat): (r: nat)
    ensures r <= x && r <= y
    decreases x
  {
    if x == 0 || y == 0 then 0
    else 2 * And(x / 2, y / 2) + (x % 2) * (y % 2)
  }

  /** `x | y`, bit by bit from the least significant bit. */
  function Or(x: nat, y: nat): (r: nat)
    ensures x <= r && y <= r && r <= x + y
    decreases x + y
  {
    if x == 0 && y == 0 then 0
    else 2 * Or(x / 2, y / 2) + (if x % 2 == 1 || y % 2 == 1 then 1 else 0)
  }

  /** Conversion to `uint8_t`: keep the low eight bits. */
  function ToByte(x: nat): (b: byte)
    ensures x < 0x100 ==> b == x
  {
    x % 0x100
  }

  /** Conversion to `uint16_t`: keep the low sixteen bits. */
  function ToU16(x: nat): (w: u16)
    ensures x < 0x1_0000 ==> w == x
  {
    x % 0x1_0000
  }

  /** Division facts by a doubled divisor, used by the bit-by-bit inductions. */
  lemma DivModDouble(x: nat, p: nat)
    requires p >= 1
    ensures x / (2 * p) == (x / 2) / p
    ensures x % (2 * p) == 2 * ((x / 2) % p) + x % 2
  {
    var q, r := x / 2, x % 2;
    var a, b := q / p, q % p;
    assert x == 2 * p * a + (2 * b + r) by {
      assert x == 2 * q + r;
      assert q == p * a + b;
    }
    assert 0 <= 2 * b + r < 2 * p;
    DivModUnique(x, 2 * p, a, 2 * b + r);
  }

  /** Euclidean division is determined by its quotient and remainder. */
  lemma DivModUnique(x: nat, d: nat, a: nat, c: nat)
    requires d >= 1 && x == d * a + c && c < d
    ensures x / d == a && x % d == c
  {
    var a', c' := x / d, x % d;
    assert x == d * a' + c';
    if a' > a {
      assert d * a' >= d * (a + 1) by { MulMono(d, a + 1, a'); }
    } else if a' < a {
      assert d * a >= d * (a' + 1) by { MulMono(d, a' + 1, a); }
    }
  }

  lemma MulMono(d: nat, u: nat, v: nat)
    requires u <= v
    ensures d * u <= d * v
  {
  }

  lemma MulZero(u: int)
    ensures 0 * u == 0 && u * 0 == 0
  {
  }

  lemma MulAssoc(u: int, v: int, w: int)
    ensures u * (v * w) == v * (u * w)
  {
  }

  lemma {:induction false} OrZero(x: nat)
    ensures Or(x, 0) == x
    decreases x
  {
    if x != 0 {
      OrZero(x / 2);
    }
  }

  /**
   * Or-ing a value shifted left by k with a value below 2^k adds the two:
   * the bits do not overlap.
   */
  lemma {:induction false} OrDisjoint(h: nat, l: nat, k: nat)
    requires l < Pow2(k)
    ensures Or(Shl(h, k), l) == h * Pow2(k) + l
    decreases k
  {
    if k == 0 {
      assert l == 0;
      OrZero(h);
    } else {
      var x := h * Pow2(k);
      var half := h * Pow2(k - 1);
      assert x == 2 * half;
      assert x / 2 == half && x % 2 == 0;
      if !(x == 0 && l == 0) {
        OrDisjoint(h, l / 2, k - 1);
        assert Or(x, l) == 2 * Or(half, l / 2) + l % 2;
      }
    }
  }

  /** And-ing with a mask of k low one-bits keeps the value modulo 2^k. */
  lemma {:induction false} AndLowMask(x: nat, k: nat)
    ensures And(x, Pow2(k) - 1) == x % Pow2(k)
    decreases k
  {
    if k == 0 {
      AndLowMaskBase(x);
    } else {
      AndLowMask(x / 2, k - 1);
      AndLowMaskStep(x, k);
    }
  }

  lemma AndLowMaskBase(x: nat)
    ensures And(x, Pow2(0) - 1) == x % Pow2(0)
  {
    assert Pow2(0) == 1;
    DivModUnique(x, 1, x, 0);
  }

  /** One step of AndLowMask: the mask's bit 0 is set and the rest is the mask one bit shorter. */
  lemma AndLowMaskStep(x: nat, k: nat)
    requires k > 0 && And(x / 2, Pow2(k - 1) - 1) == (x / 2) % Pow2(k - 1)
    ensures And(x, Pow2(k) - 1) == x % Pow2(k)
  {
    var p := Pow2(k - 1);
    assert Pow2(k) == 2 * p;
    var m := 2 * p - 1;
    assert m / 2 == p - 1 && m % 2 == 1;
    DivModDouble(x, p);
    if x == 0 {
      DivModUnique(0, 2 * p, 0, 0);
    } else {
      assert And(x, m) == 2 * And(x / 2, p - 1) + (x % 2) * 1;
    }
  }

  /** And-ing with a mask shifted left by k: shift the value right, mask, shift back. */
  lemma {:induction false} AndShiftedMask(x: nat, m: nat, k: nat)
    ensures And(x, Shl(m, k)) == Shl(And(Shr(x, k), m), k)
    decreases k
  {
    if k == 0 {
      AndShiftedBase(x, m);
    } else if x == 0 || m == 0 {
      AndShiftedTrivial(x, m, k);
    } else {
      AndShiftedMask(x / 2, m, k - 1);
      AndShiftedStep(x, m, k);
    }
  }

  lemma AndShiftedBase(x: nat, m: nat)
    ensures And(x, Shl(m, 0)) == Shl(And(Shr(x, 0), m), 0)
  {
    assert Pow2(0) == 1;
    DivModUnique(x, 1, x, 0);
    assert Shl(m, 0) == m && Shr(x, 0) == x;
  }

  lemma AndShiftedTrivial(x: nat, m: nat, k: nat)
    requires x == 0 || m == 0
    ensures And(x, Shl(m, k)) == Shl(And(Shr(x, k), m), k)
  {
    var q := Pow2(k);
    if x == 0 {
      DivModUnique(0, q, 0, 0);
    }
    assert And(Shr(x, k), m) == 0;
    MulZero(q);
  }

  /** One step of AndShiftedMask: the mask m << k is even, so bit 0 of the result is clear. */
  lemma AndShiftedStep(x: nat, m: nat, k: nat)
    requires x != 0 && m != 0 && k > 0
    requires And(x / 2, Shl(m, k - 1)) == Shl(And(Shr(x / 2, k - 1), m), k - 1)
    ensures And(x, Shl(m, k)) == Shl(And(Shr(x, k), m), k)
  {
    var p := Pow2(k - 1);
    assert Pow2(k) == 2 * p;
    var half := Shl(m, k - 1);
    var y := Shl(m, k);
    assert y == 2 * half by {
      MulAssoc(2, m, p);
    }
    assert y / 2 == half && y % 2 == 0;
    DivModDouble(x, p);
    assert Shr(x / 2, k - 1) == Shr(x, k);
    var a := And(Shr(x, k), m);
    calc {
      And(x, y);
      2 * And(x / 2, half) + (x % 2) * (y % 2);
      2 * And(x / 2, half);
      2 * (a * p);
      { MulAssoc(2, a, p); }
      a * (2 * p);
    }
  }
}
