/** The constant waveform table `lut` of the firmware: 256 brightness samples
    of one breathing cycle, stored as `uint8_t`. */
module WaveTable {

  /** The table, entry for entry, in eight rows of 32 samples each. */
  const Lut: seq<int> := Row0 + Row1 + Row2 + Row3 + Row4 + Row5 + Row6 + Row7

  /** The same rows, one by one. */
  const Rows: seq<seq<int>> := [Row0, Row1, Row2, Row3, Row4, Row5, Row6, Row7]

  const Row0: seq<int> := [60,61,63,64,66,67,69,70,72,73,75,76,77,79,80,82,83,84,86,87,88,90,91,92,93,95,96,97,98,99,100,102]
  const Row1: seq<int> := [103,104,105,106,107,107,108,109,110,111,112,112,113,114,114,115,116,116,117,117,118,118,118,119,119,119,119,120,120,120,120,120]
  const Row2: seq<int> := [120,120,120,120,120,119,119,119,119,118,118,118,117,117,116,116,115,115,114,113,113,112,111,110,110,109,108,107,106,105,104,103]
  const Row3: seq<int> := [102,101,100,99,98,96,95,94,93,92,90,89,88,86,85,84,82,81,80,78,77,75,74,72,71,70,68,67,65,64,62,61]
  const Row4: seq<int> := [59,58,56,55,53,52,50,49,48,46,45,43,42,40,39,38,36,35,34,32,31,30,28,27,26,25,24,22,21,20,19,18]
  const Row5: seq<int> := [17,16,15,14,13,12,11,10,10,9,8,7,7,6,5,5,4,4,3,3,2,2,2,1,1,1,1,0,0,0,0,0]
  const Row6: seq<int> := [0,0,0,0,0,1,1,1,1,2,2,2,3,3,4,4,5,6,6,7,8,8,9,10,11,12,13,13,14,15,16,17]
  const Row7: seq<int> := [18,20,21,22,23,24,25,27,28,29,30,32,33,34,36,37,38,40,41,43,44,45,47,48,50,51,53,54,56,57,59,60]

  /** Largest value the table holds. */
  const Peak: int := 120

  /** What the firmware relies on about the sample `x` stored at position `k`:
      it is in `[0, Peak]`, it reaches `Peak` exactly on the plateau 59..68
      and 0 exactly on the trough 187..196. */
  predicate SampleFacts(k: int, x: int) {
    && 0 <= x <= Peak
    && (x == Peak <==> 59 <= k <= 68)
    && (x == 0 <==> 187 <= k <= 196)
  }

  /** `SampleFacts` for every column of row `r`. */
  predicate RowFacts(r: int)
    requires 0 <= r < |Rows|
  {
    forall c :: 0 <= c < |Rows[r]| ==> SampleFacts(32 * r + c, Rows[r][c])
  }

  // One lemma per row keeps each literal check small.
  lemma Row0Facts() ensures RowFacts(0) {}
  lemma Row1Facts() ensures RowFacts(1) {}
  lemma Row2Facts() ensures RowFacts(2) {}
  lemma Row3Facts() ensures RowFacts(3) {}
  lemma Row4Facts() ensures RowFacts(4) {}
  lemma Row5Facts() ensures RowFacts(5) {}
  lemma Row6Facts() ensures RowFacts(6) {}
  lemma Row7Facts() ensures RowFacts(7) {}

  lemma AllRowFacts(r: int)
    requires 0 <= r < |Rows|
    ensures RowFacts(r)
  {
    if r == 0 { Row0Facts(); }
    else if r == 1 { Row1Facts(); }
    else if r == 2 { Row2Facts(); }
    else if r == 3 { Row3Facts(); }
    else if r == 4 { Row4Facts(); }
    else if r == 5 { Row5Facts(); }
    else if r == 6 { Row6Facts(); }
    else { Row7Facts(); }
  }

  /** Eight rows of 32 laid end to end: position `k` is column `k % 32` of
      row `k / 32`. */
  lemma EightRows(a0: seq<int>, a1: seq<int>, a2: seq<int>, a3: seq<int>,
                  a4: seq<int>, a5: seq<int>, a6: seq<int>, a7: seq<int>, k: int)
    requires |a0| == |a1| == |a2| == |a3| == |a4| == |a5| == |a6| == |a7| == 32
    requires 0 <= k < 256
    ensures |a0 + a1 + a2 + a3 + a4 + a5 + a6 + a7| == 256
    ensures (a0 + a1 + a2 + a3 + a4 + a5 + a6 + a7)[k] == [a0, a1, a2, a3, a4, a5, a6, a7][k / 32][k % 32]
  {
  }

  /** Position `k` of the table is column `k % 32` of row `k / 32`. */
  lemma LutLayout(k: int)
    requires 0 <= k < 256
    ensures |Lut| == 256
    ensures Lut[k] == Rows[k / 32][k % 32]
  {
    EightRows(Row0, Row1, Row2, Row3, Row4, Row5, Row6, Row7, k);
  }

  /** Every entry of the table satisfies `SampleFacts` at its own position. */
  lemma TableEntry(k: int)
    requires 0 <= k < 256
    ensures SampleFacts(k, Lut[k])
  {
    LutLayout(k);
    AllRowFacts(k / 32);
    assert 32 * (k / 32) + k % 32 == k;
  }

  /** The table has 256 entries, all within `[0, Peak]`; the peak value
      occupies exactly positions 59..68 and zero exactly positions 187..196;
      the cycle starts and ends at the midpoint 60. */
  lemma TableShape()
    ensures |Lut| == 256
    ensures forall k :: 0 <= k < |Lut| ==> 0 <= Lut[k] <= Peak
    ensures forall k :: 0 <= k < |Lut| ==> (Lut[k] == Peak <==> 59 <= k <= 68)
    ensures forall k :: 0 <= k < |Lut| ==> (Lut[k] == 0 <==> 187 <= k <= 196)
    ensures Lut[0] == 60 && Lut[255] == 60
    ensures Lut[127] == 61 && Lut[128] == 59
  {
    forall k | 0 <= k < |Lut| ensures SampleFacts(k, Lut[k]) {
      TableEntry(k);
    }
    LutLayout(0);
    LutLayout(127);
    LutLayout(128);
    LutLayout(255);
  }
}
