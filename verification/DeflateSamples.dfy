/** Two streams of one final dynamic block that ends at once: the standard decodes them to
    nothing and the program calls them corrupt. One has no distance code, the other
    announces 31 distance code lengths. */
module DeflateSamples {
  import opened Bits
  import opened Huffman
  import opened Deflate
  import opened DeflateRfc

  const EMPTY_SAMPLE: seq<byte> := [5, 202, 129, 0, 0, 0, 0, 0, 144, 255, 107, 1, 0]
  const WIDE_SAMPLE: seq<byte> := [5, 222, 129, 0, 0, 0, 0, 0, 144, 255, 107, 78, 0]

  function Sample(wide: bool): seq<byte> {
    if wide then WIDE_SAMPLE else EMPTY_SAMPLE
  }

  /** Where the bits are set: in both streams alike, in the count of distance codes and
      from the code length after the literals on. */
  predicate IsSet(k: int, wide: bool) {
    || k == 0 || k == 2 || 14 <= k <= 16 || k == 23 || k == 68 || 71 <= k <= 81 || k == 83 || k == 85 || k == 86
    || (if wide then 9 <= k <= 12 || 89 <= k <= 91 || k == 94 else k == 9 || k == 11 || k == 88)
  }

  function Bit(k: int, wide: bool): bit {
    if IsSet(k, wide) then 1 else 0
  }

  lemma ByteBits(b: byte, i: nat)
    requires i < 8
    ensures Pow2(i) > 0 && BitOfByte(b, i) == b / Pow2(i) % 2
    ensures b == 0 ==> BitOfByte(b, i) == 0
    ensures b == 255 ==> BitOfByte(b, i) == 1
    ensures b == 1 ==> BitOfByte(b, i) == if i == 0 then 1 else 0
    ensures b == 5 ==> BitOfByte(b, i) == if i == 0 || i == 2 then 1 else 0
    ensures b == 202 ==> BitOfByte(b, i) == if i == 1 || i == 3 || i >= 6 then 1 else 0
    ensures b == 222 ==> BitOfByte(b, i) == if i == 0 || i == 5 then 0 else 1
    ensures b == 129 ==> BitOfByte(b, i) == if i == 0 || i == 7 then 1 else 0
    ensures b == 144 ==> BitOfByte(b, i) == if i == 4 || i == 7 then 1 else 0
    ensures b == 107 ==> BitOfByte(b, i) == if i == 2 || i == 4 || i == 7 then 0 else 1
    ensures b == 78 ==> BitOfByte(b, i) == if 1 <= i <= 3 || i == 6 then 1 else 0
  {
    Pow2Values();
  }

  lemma EmptySampleBit(i: nat, j: nat)
    requires i < 13 && j < 8
    ensures BitOfByte(EMPTY_SAMPLE[i], j) == Bit(8 * i + j, false)
  {
    hide BitOfByte;
    ByteBits(EMPTY_SAMPLE[i], j);
  }

  lemma WideSampleBit(i: nat, j: nat)
    requires i < 13 && j < 8
    ensures BitOfByte(WIDE_SAMPLE[i], j) == Bit(8 * i + j, true)
  {
    hide BitOfByte;
    ByteBits(WIDE_SAMPLE[i], j);
  }

  lemma SampleBit(k: nat, wide: bool)
    requires k < 104
    ensures |ToBits(Sample(wide))| == 104 && ToBits(Sample(wide))[k] == Bit(k, wide)
  {
    hide ToBits, Bit, BitOfByte;
    BitInByte(Sample(wide), k / 8, k % 8);
    if wide {
      WideSampleBit(k / 8, k % 8);
    } else {
      EmptySampleBit(k / 8, k % 8);
    }
  }

  ghost predicate IsSample(bits: seq<bit>, wide: bool) {
    |bits| == 104 && forall k :: 0 <= k < 104 ==> bits[k] == Bit(k, wide)
  }

  lemma SampleBits(wide: bool)
    ensures IsSample(ToBits(Sample(wide)), wide)
  {
    var bits := ToBits(Sample(wide));
    hide ToBits, Bit;
    forall k | 0 <= k < 104 ensures |bits| == 104 && bits[k] == Bit(k, wide) {
      SampleBit(k, wide);
    }
    SampleBit(0, wide);
  }

  function BitAt(bits: seq<bit>, k: nat): nat
    requires k < |bits|
  {
    bits[k]
  }

  lemma Val3(bits: seq<bit>, k: nat)
    requires k + 3 <= |bits|
    ensures Val(bits, k, 2) == BitAt(bits, k) + 2 * BitAt(bits, k + 1)
    ensures Val(bits, k, 3) == BitAt(bits, k) + 2 * BitAt(bits, k + 1) + 4 * BitAt(bits, k + 2)
  {
    assert Val(bits, k, 2) == BitAt(bits, k) + 2 * Val(bits, k + 1, 1);
    assert Val(bits, k, 3) == BitAt(bits, k) + 2 * (BitAt(bits, k + 1) + 2 * Val(bits, k + 2, 1));
  }

  lemma Val5(bits: seq<bit>, k: nat)
    requires k + 5 <= |bits|
    ensures Val(bits, k, 4) == BitAt(bits, k) + 2 * Val(bits, k + 1, 3)
    ensures Val(bits, k, 5) == BitAt(bits, k) + 2 * BitAt(bits, k + 1) + 4 * Val(bits, k + 2, 3)
  {
    assert Val(bits, k, 5) == BitAt(bits, k) + 2 * Val(bits, k + 1, 4);
    assert Val(bits, k + 1, 4) == BitAt(bits, k + 1) + 2 * Val(bits, k + 2, 3);
  }

  lemma Val7(bits: seq<bit>, k: nat)
    requires k + 7 <= |bits|
    ensures Val(bits, k, 7) == BitAt(bits, k) + 2 * BitAt(bits, k + 1) + 4 * BitAt(bits, k + 2) + 8 * BitAt(bits, k + 3)
                             + 16 * Val(bits, k + 4, 3)
  {
    Val5(bits, k + 2);
    assert Val(bits, k, 7) == BitAt(bits, k) + 2 * Val(bits, k + 1, 6);
    assert Val(bits, k + 1, 6) == BitAt(bits, k + 1) + 2 * Val(bits, k + 2, 5);
  }

  /** How many distance code lengths the stream announces. */
  function Distances(wide: bool): nat {
    if wide then 31 else 11
  }

  lemma FirstBits(bits: seq<bit>, wide: bool)
    requires IsSample(bits, wide)
    ensures |bits| == 104 && bits[0] == bits[2] == 1 && bits[1] == 0
    ensures bits[3] == bits[4] == bits[5] == bits[6] == bits[7] == bits[8] == bits[13] == 0
    ensures bits[9] == bits[11] == bits[14] == bits[15] == bits[16] == 1
    ensures bits[10] == bits[12] == if wide then 1 else 0
  {
  }

  /** The fixed fields. */
  lemma SampleFields(bits: seq<bit>, wide: bool)
    requires IsSample(bits, wide)
    ensures |bits| == 104 && Val(bits, 8, 5) + 1 == Distances(wide)
    ensures Val(bits, 0, 1) == 1 && Val(bits, 1, 2) == 2 && Val(bits, 3, 5) == 0 && Val(bits, 13, 4) == 14
  {
    hide IsSample;
    FirstBits(bits, wide);
    assert Val(bits, 0, 1) == BitAt(bits, 0) + 2 * Val(bits, 1, 0);
    hide Val;
    Val3(bits, 1);
    Val5(bits, 3);
    Val3(bits, 5);
    Val5(bits, 8);
    Val3(bits, 10);
    Val5(bits, 13);
    Val3(bits, 14);
  }

  /** The repeat counts, less 11. */
  lemma SampleRepeats(bits: seq<bit>, wide: bool)
    requires IsSample(bits, wide)
    ensures Val(bits, 72, 7) == 127 && Val(bits, 80, 7) == 107
    ensures if wide then Val(bits, 90, 7) == 19 else Val(bits, 89, 7) == 0
  {
    Val7(bits, 72);
    Val3(bits, 76);
    Val7(bits, 80);
    Val3(bits, 84);
    Val7(bits, 89);
    Val3(bits, 93);
    Val7(bits, 90);
    Val3(bits, 94);
    hide Val;
  }

  // ---- the tables: two code length symbols of one bit each, one literal, at most one distance ----

  function SampleClen(): seq<nat> {
    seq(CLEN_SYMS, i => if i == 1 || i == 18 then 1 else 0)
  }

  function SampleLit(): seq<nat> {
    Fill(256, 0) + [1]
  }

  function SampleDist(wide: bool): (ls: seq<nat>)
    ensures |ls| == Distances(wide)
  {
    if wide then [1] + Fill(30, 0) else Fill(11, 0)
  }

  lemma SampleClenIs(bits: seq<bit>, wide: bool)
    requires IsSample(bits, wide)
    ensures ClenTable(bits, 17, 18) == SampleClen()
  {
    var ls := ClenTable(bits, 17, 18);
    forall i | 0 <= i < CLEN_SYMS ensures ls[i] == SampleClen()[i] {
      var r := ClenRank(i);
      RankInvertsOrder(i);
      assert r == 2 <==> i == 18;
      assert r == 17 <==> i == 1;
      if r < 18 {
        Val3(bits, 17 + 3 * r);
      }
    }
  }

  /** No length in the stretch is `l`. */
  lemma {:induction false} CountStretch(ls: seq<nat>, a: nat, b: nat, l: nat)
    requires a <= b <= |ls| && forall i :: a <= i < b ==> ls[i] != l
    ensures Count(ls, b, l) == Count(ls, a, l)
    decreases b
  {
    if a < b {
      CountStretch(ls, a, b - 1, l);
    }
  }

  lemma {:induction false} UsedOnes(ls: seq<nat>, n: nat)
    requires n <= |ls| && forall i :: 0 <= i < |ls| ==> ls[i] <= 1
    ensures Used(ls, n, MAX_BITS) == Count(ls, n, 1) * Pow2(MAX_BITS - 1)
    decreases n
  {
    hide Pow2;
    if n > 0 {
      UsedOnes(ls, n - 1);
    }
  }

  lemma OneBitTable(ls: seq<nat>, s: nat, cap: nat)
    requires s < |ls| <= cap && ls[s] == 1 && Count(ls, |ls|, 1) <= 2 && forall i :: 0 <= i < |ls| ==> ls[i] <= 1
    ensures Acceptable(ls, cap)
  {
    hide Used, Offset, Count, Pow2;
    UsedOnes(ls, |ls|);
    RoomForAll(ls);
    LastDoubling();
    var p := Pow2(MAX_BITS - 1);
    MulMonotone(Count(ls, |ls|, 1), 2, p);
  }

  lemma LastDoubling()
    ensures Pow2(MAX_BITS) == 2 * Pow2(MAX_BITS - 1)
  {
  }

  /** A one-bit code: the bit says how many one-bit codes come before its symbol. */
  lemma OneBitSymbol(ls: seq<nat>, cap: nat, s: nat, bits: seq<bit>, pos: nat)
    requires Acceptable(ls, cap) && s < |ls| && ls[s] == 1 && pos < |bits| && bits[pos] == Count(ls, s, 1)
    ensures SymbolAt(ls, bits, pos) == Some(s)
  {
    assert Msb(bits, pos, 1) == 2 * Msb(bits, pos, 0) + bits[pos];
    assert Matches(ls, bits, pos, s);
    MatchUnique(ls, bits, pos, s, SymbolAt(ls, bits, pos).value);
    hide Find;
  }

  lemma ClenIsGood()
    ensures Acceptable(SampleClen(), CLEN_SYMS)
    ensures Count(SampleClen(), 1, 1) == 0 && Count(SampleClen(), 18, 1) == 1
  {
    var clen := SampleClen();
    CountStretch(clen, 0, 1, 1);
    CountStretch(clen, 2, 18, 1);
    assert Count(clen, 2, 1) == Count(clen, 1, 1) + 1 && Count(clen, 19, 1) == Count(clen, 18, 1) + 1;
    OneBitTable(clen, 1, CLEN_SYMS);
  }

  lemma LitIsGood()
    ensures Acceptable(SampleLit(), LIT_SYMS) && Count(SampleLit(), 256, 1) == 0
  {
    var lit := SampleLit();
    CountStretch(lit, 0, 256, 1);
    assert Count(lit, 257, 1) == Count(lit, 256, 1) + 1;
    OneBitTable(lit, 256, LIT_SYMS);
  }

  lemma DistIsGood(wide: bool)
    ensures if wide then Acceptable(SampleDist(wide), RFC_DIST_SYMS) && !NoCodes(SampleDist(wide))
            else NoCodes(SampleDist(wide))
  {
    if wide {
      var dist := SampleDist(wide);
      CountStretch(dist, 1, 31, 1);
      assert dist[0] == 1 && Count(dist, 1, 1) == Count(dist, 0, 1) + 1;
      OneBitTable(dist, 0, RFC_DIST_SYMS);
    }
  }

  // ---- reading the lengths ----

  /** Symbol 18 repeats zero. */
  lemma RepeatZero(bits: seq<bit>, pos: nat, total: nat, ls: seq<nat>, n: nat)
    requires pos + 8 <= |bits| && bits[pos] == 1 && Val(bits, pos + 1, 7) + 11 == n && |ls| + n <= total
    ensures CodeLengths(SampleClen(), bits, pos, total, ls) == CodeLengths(SampleClen(), bits, pos + 8, total, ls + Fill(n, 0))
  {
    hide SymbolAt, Val, Acceptable, Count, Fill;
    ClenIsGood();
    OneBitSymbol(SampleClen(), CLEN_SYMS, 18, bits, pos);
  }

  lemma ReadOne(bits: seq<bit>, pos: nat, total: nat, ls: seq<nat>)
    requires pos < |bits| && bits[pos] == 0 && |ls| < total
    ensures CodeLengths(SampleClen(), bits, pos, total, ls) == CodeLengths(SampleClen(), bits, pos + 1, total, ls + [1])
  {
    hide SymbolAt, Val, Acceptable, Count;
    ClenIsGood();
    OneBitSymbol(SampleClen(), CLEN_SYMS, 1, bits, pos);
  }

  lemma SampleMarks(bits: seq<bit>, wide: bool)
    requires IsSample(bits, wide)
    ensures |bits| == 104 && bits[71] == bits[79] == 1 && bits[87] == bits[96] == bits[97] == 0
    ensures if wide then bits[88] == 0 && bits[89] == 1 else bits[88] == 1
  {
  }

  lemma LitJoined()
    ensures var none: seq<nat> := []; none + Fill(138, 0) + Fill(118, 0) + [1] == SampleLit()
  {
    assert Fill(138, 0) + Fill(118, 0) == Fill(256, 0);
  }

  /** The lengths of the literals, which both streams begin with. */
  lemma LiteralLengths(bits: seq<bit>, wide: bool, total: nat)
    requires IsSample(bits, wide) && total > 257
    ensures |SampleLit()| == 257 && |bits| == 104
    ensures CodeLengths(SampleClen(), bits, 71, total, []) == CodeLengths(SampleClen(), bits, 88, total, SampleLit())
  {
    hide IsSample, CodeLengths, Val, SampleClen, Fill;
    SampleMarks(bits, wide);
    SampleRepeats(bits, wide);
    LitJoined();
    var none: seq<nat> := [];
    RepeatZero(bits, 71, total, none, 138);
    var a := none + Fill(138, 0);
    RepeatZero(bits, 79, total, a, 118);
    var b := a + Fill(118, 0);
    ReadOne(bits, 87, total, b);
  }

  lemma LengthsEnd(bits: seq<bit>, ls: seq<nat>, pos: nat)
    requires pos <= |bits|
    ensures CodeLengths(SampleClen(), bits, pos, |ls|, ls) == Some((ls, pos))
  {
  }

  /** Where the block's data starts. */
  function DataAt(wide: bool): nat {
    if wide then 97 else 96
  }

  lemma SampleLengths(bits: seq<bit>, wide: bool)
    requires IsSample(bits, wide)
    ensures |bits| == 104 && |SampleLit()| == 257
    ensures CodeLengths(SampleClen(), bits, 71, 257 + Distances(wide), [])
         == Some((SampleLit() + SampleDist(wide), DataAt(wide)))
  {
    hide IsSample, CodeLengths, Val, SampleClen, SampleLit, Fill;
    var total := 257 + Distances(wide);
    SampleMarks(bits, wide);
    SampleRepeats(bits, wide);
    LiteralLengths(bits, wide, total);
    var ls := SampleLit();
    if wide {
      ReadOne(bits, 88, total, ls);
      RepeatZero(bits, 89, total, ls + [1], 30);
      assert ls + [1] + Fill(30, 0) == ls + SampleDist(wide);
    } else {
      RepeatZero(bits, 88, total, ls, 11);
    }
    LengthsEnd(bits, ls + SampleDist(wide), DataAt(wide));
  }

  // ---- the header and the block ----

  lemma SampleSplit(wide: bool)
    ensures var ls := SampleLit() + SampleDist(wide);
      ls[..257] == SampleLit() && ls[257..] == SampleDist(wide) && ls[256] == 1
  {
    hide SampleDist;
  }

  lemma SampleHeader(bits: seq<bit>, wide: bool)
    requires IsSample(bits, wide)
    ensures RfcHeader(bits, 3) == Some(Tables(SampleLit(), SampleDist(wide), DataAt(wide)))
    ensures Refused(SampleDist(wide)) && (NoCodes(SampleDist(wide)) <==> !wide)
  {
    hide IsSample, CodeLengths, Acceptable, ClenTable, Val, SampleClen, SampleLit, SampleDist, Count, NoCodes;
    SampleMarks(bits, wide);
    SampleFields(bits, wide);
    SampleClenIs(bits, wide);
    ClenIsGood();
    LitIsGood();
    DistIsGood(wide);
    SampleLengths(bits, wide);
    SampleSplit(wide);
  }

  lemma SampleEnds(bits: seq<bit>, wide: bool)
    requires IsSample(bits, wide)
    ensures |bits| == 104
    ensures Block(SampleLit(), SampleDist(wide), bits, DataAt(wide), []) == Done([], DataAt(wide) + 1)
  {
    hide IsSample, SymbolAt, Acceptable, Count, Reference, SampleDist;
    SampleMarks(bits, wide);
    LitIsGood();
    OneBitSymbol(SampleLit(), LIT_SYMS, 256, bits, DataAt(wide));
  }

  lemma SampleDiffers(wide: bool)
    ensures var data := Sample(wide);
      RfcInflate(data) == Done([], DataAt(wide) + 1) && Inflate(data) == Fail([]) && MeetsRefused(ToBits(data), 0, [])
  {
    hide ToBits, Val, RfcHeader, Header, Block, IsSample, Refused, NoCodes, SampleLit, SampleDist, Sample;
    var bits := ToBits(Sample(wide));
    SampleBits(wide);
    SampleMarks(bits, wide);
    SampleFields(bits, wide);
    SampleHeader(bits, wide);
    SampleEnds(bits, wide);
    HeadersAgree(bits, 3);
  }

  /** A stream without a distance code. */
  lemma EmptyDistancesDiffer()
    ensures RfcInflate(EMPTY_SAMPLE) == Done([], 97) && Inflate(EMPTY_SAMPLE) == Fail([])
    ensures var t := RfcHeader(ToBits(EMPTY_SAMPLE), 3); t.Some? && NoCodes(t.value.dist)
  {
    hide RfcInflate, Inflate, RfcHeader, NoCodes, MeetsRefused;
    SampleDiffers(false);
    SampleBits(false);
    SampleHeader(ToBits(Sample(false)), false);
  }

  /** A stream with a distance code and 31 lengths for it. */
  lemma WideDistancesDiffer()
    ensures RfcInflate(WIDE_SAMPLE) == Done([], 98) && Inflate(WIDE_SAMPLE) == Fail([])
    ensures var t := RfcHeader(ToBits(WIDE_SAMPLE), 3); t.Some? && |t.value.dist| == 31 && !NoCodes(t.value.dist)
  {
    hide RfcInflate, Inflate, RfcHeader, NoCodes, MeetsRefused;
    SampleDiffers(true);
    SampleBits(true);
    SampleHeader(ToBits(Sample(true)), true);
  }
}
