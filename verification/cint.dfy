/** The slice of C/C++ unsigned integer semantics the firmware relies on:
    conversion to `uint8_t`, the 32-bit `unsigned long` range of `millis()`,
    logical right shift and bitwise AND on non-negative values. */
module CInt {

  const UINT8_MODULUS: int := 0x100
  /** One more than the largest `unsigned long` (32 bits on the AVR). */
  const UINT32_MODULUS: int := 0x1_0000_0000

  /** Values a `uint8_t` can hold. */
  predicate IsUint8(v: int) {
    0 <= v < UINT8_MODULUS
  }

  /** 2 to the power `k`. */
  function Pow2(k: nat): (r: nat)
    ensures r >= 1
  {
    if k == 0 then 1 else 2 * Pow2(k - 1)
  }

  /** Conversion of an `int` to `uint8_t`: reduction modulo 256, as the C
      standard prescribes for conversion to an unsigned type. */
  function ToUint8(v: int): (r: int)
    ensures IsUint8(r)
    ensures (v - r) % UINT8_MODULUS == 0
    ensures IsUint8(v) ==> r == v
  {
    v % UINT8_MODULUS
  }

  /** Logical right shift of a non-negative value by `k` bits, one bit at
      a time. */
  function ShiftRight(v: nat, k: nat): (r: nat)
    ensures r == v / Pow2(k)
  {
    if k == 0 then v
    else
      DivHalf(v, Pow2(k - 1));
      ShiftRight(v / 2, k - 1)
  }

  /** Halving and then dividing by `p` is dividing by `2p`; the remainder
      modulo `2p` is rebuilt from the remainder modulo `p` and the low bit. */
  lemma DivHalf(v: nat, p: nat)
    requires p >= 1
    ensures (v / 2) / p == v / (2 * p)
    ensures 2 * ((v / 2) % p) + v % 2 == v % (2 * p)
  {
    var q := (v / 2) / p;
    var r := (v / 2) % p;
    assert v == (2 * p) * q + (2 * r + v % 2) by {
      assert v / 2 == p * q + r;
      assert v == 2 * (v / 2) + v % 2;
      assert 2 * (p * q + r) == (2 * p) * q + 2 * r;
    }
    ModUnique(v, 2 * p, q, 2 * r + v % 2);
  }

  /** Bitwise AND of two non-negative values, bit by bit from the least
      significant end. */
  function BitAnd(a: nat, b: nat): nat
    decreases a
  {
    if a == 0 || b == 0 then 0
    else 2 * BitAnd(a / 2, b / 2) + (a % 2) * (b % 2)
  }

  /** Masking with `2^k - 1` keeps exactly the low `k` bits. */
  lemma {:induction false} BitAndLowMask(v: nat, k: nat)
    ensures BitAnd(v, Pow2(k) - 1) == v % Pow2(k)
  {
    if k == 0 {
    } else if v == 0 {
    } else {
      var p := Pow2(k - 1);
      var m := Pow2(k) - 1;
      assert m == 2 * (p - 1) + 1;
      assert m / 2 == p - 1 && m % 2 == 1;
      assert BitAnd(v, m) == 2 * BitAnd(v / 2, p - 1) + v % 2 by {
        assert (v % 2) * (m % 2) == v % 2;
      }
      BitAndLowMask(v / 2, k - 1);
      assert BitAnd(v, m) == 2 * ((v / 2) % p) + v % 2;
      assert Pow2(k) == 2 * p;
      DivHalf(v, p);
    }
  }

  /** Quotient and remainder are unique. */
  lemma ModUnique(v: int, d: int, q: int, r: int)
    requires d > 0 && 0 <= r < d && v == d * q + r
    ensures v / d == q && v % d == r
  {
    var q', r' := v / d, v % d;
    assert d * (q - q') == r' - r by {
      assert d * q' + r' == d * q + r;
      assert d * (q - q') == d * q - d * q';
    }
    if q > q' {
      assert d * (q - q') >= d * 1 by { MulMono(d, 1, q - q'); }
    } else if q < q' {
      assert d * (q' - q) >= d * 1 by { MulMono(d, 1, q' - q); }
    }
  }

  lemma MulMono(d: int, a: int, b: int)
    requires d > 0 && a <= b
    ensures d * a <= d * b
  {
  }

  /** Reducing modulo a multiple of `d` first does not change the residue
      modulo `d`. */
  lemma ModOfMultiple(v: int, d: int, m: int)
    requires d > 0 && m > 0
    ensures (v % (d * m)) % d == v % d
  {
    var big := v / (d * m);
    var rest := v % (d * m);
    var q2 := rest / d;
    var r2 := rest % d;
    assert v == (d * m) * big + rest;
    assert rest == d * q2 + r2;
    assert v == d * (m * big + q2) + r2 by {
      assert (d * m) * big == d * (m * big);
      assert d * (m * big) + d * q2 == d * (m * big + q2);
    }
    ModUnique(v, d, m * big + q2, r2);
  }

  /** The `& 0xFF` idiom: keep the low byte. */
  lemma LowByte(v: nat)
    ensures BitAnd(v, 0xFF) == v % UINT8_MODULUS
    ensures IsUint8(BitAnd(v, 0xFF))
  {
    assert Pow2(8) == 256;
    BitAndLowMask(v, 8);
  }
}
