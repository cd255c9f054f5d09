/** The arithmetic of one pass of the firmware's `loop()`: the phase index
    taken from `millis()`, the table sample, the two offsets `i` and `j` and
    the two compare values written to `OCR1A` and `OCR1B`. */
module Waveform {
  import CInt
  import WaveTable

  /** A reading of `millis()`, an `unsigned long` (32 bits on the AVR). */
  type Millis = t: int | 0 <= t < CInt.UINT32_MODULUS

  /** Length in milliseconds of one breathing cycle. */
  const Period: int := 512

  /** The PWM top value written to `OCR1C` by `setup()`. */
  const PwmTop: int := 127

  /** The pair of compare values one pass of `loop()` writes. */
  datatype DutyPair = DutyPair(a: int, b: int)

  /** `(millis() >> 1) & 0xFF`: the position in the table. Two consecutive
      milliseconds share a position and the positions repeat every
      `Period` milliseconds. */
  function PhaseIndex(t: Millis): (k: int)
    ensures 0 <= k < 256
    ensures k == (t % Period) / 2
  {
    var half := CInt.ShiftRight(t, 1);
    CInt.LowByte(half);
    PhaseIndexArith(t);
    CInt.BitAnd(half, 0xFF)
  }

  lemma PhaseIndexArith(t: nat)
    ensures CInt.ShiftRight(t, 1) % 256 == (t % Period) / 2
  {
    var q, r := t / Period, t % Period;
    assert t / 2 == 256 * q + r / 2 by {
      assert t == 2 * (256 * q + r / 2) + r % 2;
      CInt.ModUnique(t, 2, 256 * q + r / 2, r % 2);
    }
    CInt.ModUnique(t / 2, 256, q, r / 2);
  }

  /** `x = lut[...]`: the table sample in force at time `t`. */
  function Sample(t: Millis): (x: int)
    ensures 0 <= x <= WaveTable.Peak
    ensures x == WaveTable.Lut[(t % Period) / 2]
  {
    WaveTable.TableShape();
    WaveTable.Lut[PhaseIndex(t)]
  }

  /** `uint8_t i = 100 + x`. The addition is done in `int` and the result
      converted to `uint8_t`; it wraps exactly when `x` exceeds 155, which
      no table sample does. */
  function OffsetA(x: int): (i: int)
    requires CInt.IsUint8(x)
    ensures CInt.IsUint8(i)
    ensures i == 100 + x <==> x <= 155
    ensures x <= WaveTable.Peak ==> 100 <= i <= 220
  {
    CInt.ToUint8(100 + x)
  }

  /** `uint8_t j = 255 - (100 + (100 - x))`. The inner `100 - x` is an `int`
      and is negative for `x > 100`; the whole expression equals `55 + x`
      and wraps in the conversion to `uint8_t` exactly when `x` exceeds 200. */
  function OffsetB(x: int): (j: int)
    requires CInt.IsUint8(x)
    ensures CInt.IsUint8(j)
    ensures j == 55 + x <==> x <= 200
    ensures x <= WaveTable.Peak ==> 55 <= j <= 175
  {
    CInt.ToUint8(255 - (100 + (100 - x)))
  }

  /** `OCR1A = i >> 1`. */
  function DutyA(x: int): (a: int)
    requires CInt.IsUint8(x)
    ensures 0 <= a <= PwmTop
    ensures x <= WaveTable.Peak ==> 50 <= a <= 110 && a == (100 + x) / 2
  {
    CInt.ShiftRight(OffsetA(x), 1)
  }

  /** `OCR1B = j >> 1`. */
  function DutyB(x: int): (b: int)
    requires CInt.IsUint8(x)
    ensures 0 <= b <= PwmTop
    ensures x <= WaveTable.Peak ==> 27 <= b <= 87 && b == (55 + x) / 2
  {
    CInt.ShiftRight(OffsetB(x), 1)
  }

  /** The compare values one pass of `loop()` writes when `millis()` reads
      `t`. Both stay within the PWM top value, and channel A leads channel B
      by 23 on even samples and by 22 on odd ones. */
  function Duties(t: Millis): (d: DutyPair)
    ensures 50 <= d.a <= 110 && 27 <= d.b <= 87
    ensures d.a <= PwmTop && d.b <= PwmTop
    ensures d.a - d.b == (if Sample(t) % 2 == 0 then 23 else 22)
  {
    var x := Sample(t);
    DutyPair(DutyA(x), DutyB(x))
  }

  /** Both compare values are non-decreasing in the table sample. */
  lemma DutiesMonotone(x: int, y: int)
    requires 0 <= x <= y <= WaveTable.Peak
    ensures DutyA(x) <= DutyA(y) && DutyB(x) <= DutyB(y)
  {
  }

  /** Channel A is at its maximum 110 exactly when the sample is at the peak;
      it is at its minimum 50 for the samples 0 and 1 alike. */
  lemma DutyAExtremes(x: int)
    requires 0 <= x <= WaveTable.Peak
    ensures DutyA(x) == 110 <==> x == WaveTable.Peak
    ensures DutyA(x) == 50 <==> x <= 1
  {
  }

  /** The value of `millis()` `d` milliseconds after it read `t`, wrapping
      at 2^32 as the 32-bit counter does. */
  function After(t: Millis, d: nat): (u: Millis)
    ensures u % Period == (t + d) % Period
  {
    CInt.ModOfMultiple(t + d, Period, CInt.UINT32_MODULUS / Period);
    (t + d) % CInt.UINT32_MODULUS
  }

  /** Readings that agree modulo `Period` give the same compare values. */
  lemma DutiesDependOnPhase(t1: Millis, t2: Millis)
    requires t1 % Period == t2 % Period
    ensures PhaseIndex(t1) == PhaseIndex(t2)
    ensures Duties(t1) == Duties(t2)
  {
  }

  /** The compare values repeat every `Period` milliseconds, also across the
      wrap of the 32-bit `millis()` counter. */
  lemma Periodic(t: Millis, n: nat)
    ensures Duties(After(t, n * Period)) == Duties(t)
  {
    assert (t + n * Period) % Period == t % Period by {
      CInt.ModUnique(t + n * Period, Period, t / Period + n, t % Period);
    }
    DutiesDependOnPhase(After(t, n * Period), t);
  }

  /** The compare values at `t % Period` and at `t` agree; with `Periodic`
      this pins the behaviour down to one cycle of 512 readings. */
  lemma OneCycleSuffices(t: Millis)
    ensures Duties(t % Period) == Duties(t)
  {
    DutiesDependOnPhase(t % Period, t);
  }

  /** Readings from 118 to 137 modulo `Period` are exactly those at which
      channel A sits at its maximum. */
  lemma PeakWindow(t: Millis)
    ensures Duties(t).a == 110 <==> 118 <= t % Period <= 137
  {
    var k := (t % Period) / 2;
    WaveTable.TableShape();
    assert Duties(t).a == DutyA(WaveTable.Lut[k]);
    DutyAExtremes(WaveTable.Lut[k]);
    assert WaveTable.Lut[k] == WaveTable.Peak <==> 59 <= k <= 68;
  }

  /** No shift shorter than `Period` leaves the compare values unchanged:
      `Period` is the least period. */
  lemma LeastPeriod(p: int)
    requires 0 < p < Period
    ensures exists t: Millis :: Duties(After(t, p)) != Duties(t)
  {
    var t: Millis := if p < 20 then 137 else 118;
    var u := After(t, p);
    assert u % Period == if t + p < Period then t + p else t + p - Period;
    assert !(118 <= u % Period <= 137);
    LeavesPeakWindow(t, u);
  }

  lemma LeavesPeakWindow(t: Millis, u: Millis)
    requires 118 <= t % Period <= 137
    requires !(118 <= u % Period <= 137)
    ensures Duties(u) != Duties(t)
  {
    PeakWindow(t);
    PeakWindow(u);
  }

  /** Points of the cycle: the midpoint at start-up, the peak, the trough,
      and the two positions either side of the middle of the table, which is
      not where the peak lies. */
  lemma ConcretePoints()
    ensures PhaseIndex(0) == 0 && Sample(0) == 60 && Duties(0) == DutyPair(80, 57)
    ensures PhaseIndex(128) == 64 && Sample(128) == 120 && Duties(128) == DutyPair(110, 87)
    ensures PhaseIndex(374) == 187 && Sample(374) == 0 && Duties(374) == DutyPair(50, 27)
    ensures PhaseIndex(256) == 128 && Sample(256) == 59 && Duties(256) == DutyPair(79, 57)
    ensures PhaseIndex(766) == 127 && Sample(766) == 61 && Duties(766) == DutyPair(80, 58)
  {
    WaveTable.TableShape();
  }
}
