# NiceLights Mini — waveform model

NiceLights Mini is ATtiny85 firmware that drives an LED string across the two
Timer/Counter1 PWM outputs (OC1A inverted, OC1B normal). The two outputs act as
an H-bridge, and the LED brightness "breathes" slowly. `setup()` sets the PWM
top register `OCR1C` to 127 and both compare registers to 127. Each pass of
`loop()` then reads `millis()`, takes the table position `(millis() >> 1) & 0xFF`,
and looks up a sample `x` in the constant 256-entry table `lut`. It forms
`i = 100 + x` and `j = 255 - (100 + (100 - x))` as `uint8_t` and writes
`i >> 1` to `OCR1A` and `j >> 1` to `OCR1B`.

The model is pure integer arithmetic, in four modules:

- `CInt` (`cint.dfy`): the C semantics the loop relies on. These are conversion
  to `uint8_t` (reduction modulo 256), logical right shift, and bitwise AND on
  naturals, defined bit by bit. It also proves that `v & (2^k - 1)` is `v % 2^k`.
- `WaveTable` (`lut.dfy`): the table, copied value for value. It is stored as
  eight rows of 32 so that each row's facts can be checked separately. The
  module proves the table's length, its range, the exact positions of its peak
  and trough, and its end points.
- `Waveform` (`waveform.dfy`): a reading of `millis()` is a value in
  `[0, 2^32)`. The module covers the phase index, the sample, the two offsets,
  the two compare values and the pair one pass writes. It also covers the
  32-bit wrap of the counter. Its lemmas cover bounds, monotonicity, the exact
  gap between the channels, periodicity (including across the wrap), the fact
  that 512 ms is the least period, and concrete points.
- `Firmware` (`firmware.dfy`): the three registers the program writes, `setup()`
  and `loop()` as functions on them, and a run of `loop()` passes over any
  sequence of `millis()` readings. It proves that from power-on both compare
  values never exceed the top value 127. It also proves that after any pass
  they depend only on the last reading.

The table peaks at positions 59–68 (value 120) and bottoms out at positions
187–196 (value 0). Position 128, the middle of the table, holds 59, and
position 127 holds 61. So at `millis() = 256` the compare values are (79, 57),
not the peak (110, 87); the peak is reached at 118–137 ms into each 512 ms
cycle. `Waveform.ConcretePoints` and `Waveform.PeakWindow` pin this down.

## Model

| member | source | states |
|---|---|---|
| CInt.ToUint8 | src/main.cpp:74-75 | the conversion to `uint8_t` yields an 8-bit value congruent to its input modulo 256, and leaves values already in range unchanged |
| CInt.ShiftRight | src/main.cpp:71 | a logical right shift by `k` bits, done one bit at a time, is floor division by `2^k` |
| CInt.BitAndLowMask | src/main.cpp:71 | AND with the mask `2^k - 1` keeps exactly the low `k` bits: it equals reduction modulo `2^k` |
| CInt.LowByte | src/main.cpp:71 | `v & 0xFF` is `v` modulo 256 and so fits in 8 bits |
| WaveTable.TableEntry | src/main.cpp:33-41 | every table entry is in [0,120]; it equals 120 exactly at positions 59–68 and 0 exactly at positions 187–196 |
| WaveTable.TableShape | src/main.cpp:33-41 | the table has 256 entries, all in [0,120]; 120 occupies exactly positions 59–68 and 0 exactly 187–196; `lut[0] = lut[255] = 60`, `lut[127] = 61`, `lut[128] = 59` |
| Waveform.PhaseIndex | src/main.cpp:71 | `(millis() >> 1) & 0xFF` lies in [0,255] and equals `(t mod 512) / 2` for every 32-bit reading |
| Waveform.Sample | src/main.cpp:71 | the sample read at time `t` lies in [0,120] and is the table entry at position `(t mod 512) / 2` |
| Waveform.OffsetA | src/main.cpp:74 | `i = 100 + x` as `uint8_t` is exactly `100 + x` if and only if `x <= 155`; for every table value it lies in [100,220] |
| Waveform.OffsetB | src/main.cpp:75 | `j = 255 - (100 + (100 - x))` as `uint8_t` is exactly `55 + x` if and only if `x <= 200`, although `100 - x` is negative for `x > 100`; for every table value it lies in [55,175] |
| Waveform.DutyA | src/main.cpp:74-78 | `OCR1A = i >> 1` never exceeds the PWM top 127; for table values it is `(100 + x) / 2`, in [50,110] |
| Waveform.DutyB | src/main.cpp:75-79 | `OCR1B = j >> 1` never exceeds the PWM top 127; for table values it is `(55 + x) / 2`, in [27,87] |
| Waveform.Duties | src/main.cpp:71-79 | the pair one pass writes has A in [50,110] and B in [27,87], both at most 127; A exceeds B by 23 when the sample is even and by 22 when it is odd |
| Waveform.DutiesMonotone | src/main.cpp:74-79 | both compare values are non-decreasing in the table sample |
| Waveform.DutyAExtremes | src/main.cpp:74-78 | channel A reaches its maximum 110 exactly at sample 120 and its minimum 50 exactly at samples 0 and 1 |
| Waveform.After | src/main.cpp:71 | the 32-bit counter `d` ms later, wrapped at 2^32, agrees with `t + d` modulo 512 |
| Waveform.DutiesDependOnPhase | src/main.cpp:71-79 | readings equal modulo 512 give the same table position and the same compare values |
| Waveform.Periodic | src/main.cpp:71-79 | the compare values repeat after any multiple of 512 ms, including across the wrap of `millis()` at 2^32 |
| Waveform.OneCycleSuffices | src/main.cpp:71-79 | the compare values at `t` equal those at `t mod 512` |
| Waveform.PeakWindow | src/main.cpp:33-79 | channel A is at its maximum exactly when `t mod 512` lies in [118,137] |
| Waveform.LeastPeriod | src/main.cpp:33-79 | for every shift between 1 and 511 ms there is a reading at which the compare values change, so 512 ms is the least period |
| Waveform.ConcretePoints | src/main.cpp:33-79 | t=0 gives index 0, sample 60 and duties (80,57); t=128 gives 64, 120, (110,87); t=374 gives 187, 0, (50,27); t=256 gives 128, 59, (79,57); t=766 gives 127, 61, (80,58) |
| Firmware.Setup | src/main.cpp:62-65 | `setup()` leaves top and both compare registers at 127, a state in which neither compare value exceeds the top |
| Firmware.Loop | src/main.cpp:68-79 | one pass leaves `OCR1C` unchanged, keeps both compare values within the top, and leaves A exceeding B by 22 or 23 |
| Firmware.LoopForgetsState | src/main.cpp:71-79 | the registers after a pass depend only on the reading of `millis()`, not on what the compare registers held before |
| Firmware.RunKeepsSafe | src/main.cpp:62-79 | any number of passes from a safe state stays safe; after at least one pass the compare registers hold the values for the last reading |
| Firmware.PowerOn | src/main.cpp:62-79 | from `setup()` on, `OCR1C` stays 127 and both compare values stay at most 127; with no pass they are 127, otherwise they are the duties of the last reading |

## Left out

- Pin modes and the bit settings of `TCCR1` and `GTCCR` (output polarity, prescaler) at src/main.cpp:46-60: these are hardware configuration with no value the program later reads.
- The carrier frequency of about 8 kHz: it depends on the clock hardware, not on the program.
- `delay(1)` and the Arduino scheduling of `loop()`: timing only. `millis()` is a parameter of each pass, and a run is a sequence of such readings, with no assumption that they increase.
- The spreadsheet sine formula in the comment above the table: it uses floating-point `sin` and `round`. The table is taken as literal data, and it is not proved to follow the formula.
- The electrical effect of the inverted A channel on the H-bridge: it is not visible in the program's arithmetic.
- Register width on writes: the values written to `OCR1A` and `OCR1B` are at most 127, so the 8-bit register store is the identity. It is not modelled separately.
