/** The firmware as the sequence of writes it makes to Timer/Counter1:
    `setup()` once, then `loop()` once per reading of `millis()`. Only the
    three 8-bit registers the program gives values to are modelled. */
module Firmware {
  import CInt
  import Waveform

  /** The Timer/Counter1 registers the program writes values into: the two
      compare registers and the PWM top register. */
  datatype Timer1 = Timer1(ocr1a: int, ocr1b: int, ocr1c: int)

  /** Neither compare value exceeds the PWM top, every register holds an
      8-bit value, and the top is the value `setup()` chose. */
  predicate Safe(r: Timer1) {
    && CInt.IsUint8(r.ocr1a) && CInt.IsUint8(r.ocr1b) && CInt.IsUint8(r.ocr1c)
    && r.ocr1c == Waveform.PwmTop
    && r.ocr1a <= r.ocr1c && r.ocr1b <= r.ocr1c
  }

  /** The register writes of `setup()`: top 127, both compare registers at
      127 as the neutral starting point. */
  function Setup(): (r: Timer1)
    ensures Safe(r)
    ensures r.ocr1a == r.ocr1c && r.ocr1b == r.ocr1c
  {
    Timer1(127, 127, 127)
  }

  /** One pass of `loop()` with `millis()` reading `t`: both compare
      registers are overwritten from `t` alone and the top is left as is. */
  function Loop(r: Timer1, t: Waveform.Millis): (r': Timer1)
    ensures r'.ocr1c == r.ocr1c
    ensures Safe(r) ==> Safe(r')
    ensures r'.ocr1a - r'.ocr1b == 22 || r'.ocr1a - r'.ocr1b == 23
  {
    var d := Waveform.Duties(t);
    r.(ocr1a := d.a, ocr1b := d.b)
  }

  /** The registers after one `loop()` pass for each reading in `ts`, in order. */
  function Run(r: Timer1, ts: seq<Waveform.Millis>): Timer1
    decreases |ts|
  {
    if |ts| == 0 then r else Run(Loop(r, ts[0]), ts[1..])
  }

  /** Two passes with the same reading leave the same registers, whatever
      the compare registers held before: `loop()` keeps no state of its own. */
  lemma LoopForgetsState(r1: Timer1, r2: Timer1, t: Waveform.Millis)
    requires r1.ocr1c == r2.ocr1c
    ensures Loop(r1, t) == Loop(r2, t)
    ensures Loop(r1, t).ocr1a == Waveform.Duties(t).a
    ensures Loop(r1, t).ocr1b == Waveform.Duties(t).b
  {
  }

  /** From `setup()` on, every prefix of the run keeps both compare values
      within the top 127, and after at least one pass the compare registers
      hold exactly the values for the last reading. */
  lemma {:induction false} RunKeepsSafe(r: Timer1, ts: seq<Waveform.Millis>)
    requires Safe(r)
    ensures Safe(Run(r, ts))
    ensures |ts| == 0 ==> Run(r, ts) == r
    ensures |ts| > 0 ==> Run(r, ts).ocr1a == Waveform.Duties(ts[|ts| - 1]).a
    ensures |ts| > 0 ==> Run(r, ts).ocr1b == Waveform.Duties(ts[|ts| - 1]).b
    decreases |ts|
  {
    if |ts| > 0 {
      var r1 := Loop(r, ts[0]);
      assert Run(r, ts) == Run(r1, ts[1..]);
      RunKeepsSafe(r1, ts[1..]);
      if |ts| == 1 {
        LoopForgetsState(r, r, ts[0]);
      } else {
        assert ts[1..][|ts[1..]| - 1] == ts[|ts| - 1];
      }
    }
  }

  /** The firmware from power-on: `setup()` followed by one `loop()` pass per
      reading. */
  lemma {:induction false} PowerOn(ts: seq<Waveform.Millis>)
    ensures Run(Setup(), ts).ocr1c == 127
    ensures Run(Setup(), ts).ocr1a <= 127 && Run(Setup(), ts).ocr1b <= 127
    ensures |ts| == 0 ==> Run(Setup(), ts) == Timer1(127, 127, 127)
    ensures |ts| > 0 ==> Run(Setup(), ts) == Timer1(Waveform.Duties(ts[|ts| - 1]).a, Waveform.Duties(ts[|ts| - 1]).b, 127)
  {
    var fin := Run(Setup(), ts);
    RunKeepsSafe(Setup(), ts);
    assert Safe(fin);
    if |ts| > 0 {
      var d := Waveform.Duties(ts[|ts| - 1]);
      assert fin.ocr1a == d.a && fin.ocr1b == d.b;
      assert fin == Timer1(d.a, d.b, 127);
    }
  }
}
