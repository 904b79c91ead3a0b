/** The block cipher of libc/LibCrypto/src/aes.c:205-303 against sections 5.1 and 5.3 of FIPS 197. */
module Aes {
  import opened Galois
  import opened SBox

  type Block = s: seq<bv8> | |s| == 16 witness seq(16, _ => 0)

  /** An expanded key: `rounds + 1` round keys of 16 bytes. */
  datatype Schedule = Schedule(rounds: nat, key: seq<bv8>) {
    predicate Valid() {
      |key| >= 16 * (rounds + 1)
    }

    function RoundKey(r: nat): Block
      requires Valid() && r <= rounds
    {
      key[16 * r..16 * r + 16]
    }
  }

  // ---- the transformations of a state, byte `4 * c + r` being row r of column c ----

  function XorBlock(a: Block, b: Block): Block {
    seq(16, i requires 0 <= i < 16 => Xor(a[i], b[i]))
  }

  function SubBytes(s: Block): Block {
    seq(16, i requires 0 <= i < 16 => Sub(s[i]))
  }

  function InvSubBytes(s: Block): Block {
    seq(16, i requires 0 <= i < 16 => InvSub(s[i]))
  }

  function ShiftRows(s: Block): Block {
    [s[0], s[5], s[10], s[15], s[4], s[9], s[14], s[3], s[8], s[13], s[2], s[7], s[12], s[1], s[6], s[11]]
  }

  function InvShiftRows(s: Block): Block {
    [s[0], s[13], s[10], s[7], s[4], s[1], s[14], s[11], s[8], s[5], s[2], s[15], s[12], s[9], s[6], s[3]]
  }

  function MixColumn(a: bv8, b: bv8, c: bv8, d: bv8): (column: seq<bv8>)
    ensures |column| == 4
  {
    [Mix0(a, b, c, d), Mix1(a, b, c, d), Mix2(a, b, c, d), Mix3(a, b, c, d)]
  }

  function InvMixColumn(a: bv8, b: bv8, c: bv8, d: bv8): (column: seq<bv8>)
    ensures |column| == 4
  {
    [InvMix0(a, b, c, d), InvMix1(a, b, c, d), InvMix2(a, b, c, d), InvMix3(a, b, c, d)]
  }

  function MixColumns(s: Block): Block {
    hide Mix0, Mix1, Mix2, Mix3;
    MixColumn(s[0], s[1], s[2], s[3]) + MixColumn(s[4], s[5], s[6], s[7]) +
    MixColumn(s[8], s[9], s[10], s[11]) + MixColumn(s[12], s[13], s[14], s[15])
  }

  function InvMixColumns(s: Block): Block {
    hide InvMix0, InvMix1, InvMix2, InvMix3;
    InvMixColumn(s[0], s[1], s[2], s[3]) + InvMixColumn(s[4], s[5], s[6], s[7]) +
    InvMixColumn(s[8], s[9], s[10], s[11]) + InvMixColumn(s[12], s[13], s[14], s[15])
  }

  lemma XorBlockTwice(a: Block, b: Block)
    ensures XorBlock(XorBlock(a, b), b) == a
  {
    hide Xor;
    forall i | 0 <= i < 16
      ensures XorBlock(XorBlock(a, b), b)[i] == a[i]
    {
      XorTwice(a[i], b[i]);
    }
  }

  lemma SubBytesInverts(s: Block)
    ensures InvSubBytes(SubBytes(s)) == s
  {
    hide Sub, InvSub;
    forall i | 0 <= i < 16
      ensures InvSubBytes(SubBytes(s))[i] == s[i]
    {
      SubInverts(s[i]);
    }
  }

  lemma ShiftRowsInverts(s: Block)
    ensures InvShiftRows(ShiftRows(s)) == s
  {
  }

  lemma MixColumnsInverts(s: Block)
    ensures InvMixColumns(MixColumns(s)) == s
  {
    hide Mix0, Mix1, Mix2, Mix3, InvMix0, InvMix1, InvMix2, InvMix3;
    ColumnInverse(s[0], s[1], s[2], s[3]);
    ColumnInverse(s[4], s[5], s[6], s[7]);
    ColumnInverse(s[8], s[9], s[10], s[11]);
    ColumnInverse(s[12], s[13], s[14], s[15]);
  }

  // ---- the cipher and the inverse cipher ----

  /** Round `r`; the last one does not mix columns. */
  function Round(k: Schedule, s: Block, r: nat): Block
    requires k.Valid() && 1 <= r <= k.rounds
  {
    var t := ShiftRows(SubBytes(s));
    XorBlock(if r != k.rounds then MixColumns(t) else t, k.RoundKey(r))
  }

  /** The state after `r` rounds. */
  function Encrypting(k: Schedule, s: Block, r: nat): Block
    requires k.Valid() && r <= k.rounds
  {
    if r == 0 then XorBlock(s, k.RoundKey(0)) else Round(k, Encrypting(k, s, r - 1), r)
  }

  function Encrypt(k: Schedule, s: Block): Block
    requires k.Valid()
  {
    Encrypting(k, s, k.rounds)
  }

  /** One round of the inverse cipher: it leads from the state keyed by `r` to the one keyed by `r - 1`. */
  function InvRound(k: Schedule, s: Block, r: nat): Block
    requires k.Valid() && 1 <= r <= k.rounds
  {
    var t := XorBlock(InvSubBytes(InvShiftRows(s)), k.RoundKey(r - 1));
    if r != 1 then InvMixColumns(t) else t
  }

  /** The rest of the inverse cipher from round `r` down. */
  function Decrypting(k: Schedule, s: Block, r: nat): Block
    requires k.Valid() && r <= k.rounds
    decreases r, k, s
  {
    if r == 0 then s else Decrypting(k, InvRound(k, s, r), r - 1)
  }

  function Decrypt(k: Schedule, s: Block): Block
    requires k.Valid()
  {
    Decrypting(k, XorBlock(s, k.RoundKey(k.rounds)), k.rounds)
  }

  /** What round `r` computes before it mixes columns and adds its key. */
  ghost function Inner(k: Schedule, s: Block, r: nat): Block
    requires k.Valid() && 1 <= r <= k.rounds
  {
    ShiftRows(SubBytes(Encrypting(k, s, r - 1)))
  }

  lemma InvRoundInverts(k: Schedule, s: Block, r: nat)
    requires k.Valid() && 1 <= r <= k.rounds
    ensures InvRound(k, Inner(k, s, r), r) == if r == 1 then s else Inner(k, s, r - 1)
  {
    hide ShiftRows, InvShiftRows, SubBytes, InvSubBytes, MixColumns, InvMixColumns, XorBlock;
    var before := Encrypting(k, s, r - 1);
    ShiftRowsInverts(SubBytes(before));
    SubBytesInverts(before);
    if r == 1 {
      XorBlockTwice(s, k.RoundKey(0));
    } else {
      var t := MixColumns(Inner(k, s, r - 1));
      XorBlockTwice(t, k.RoundKey(r - 1));
      MixColumnsInverts(Inner(k, s, r - 1));
    }
  }

  lemma {:induction false} DecryptingInverts(k: Schedule, s: Block, r: nat)
    requires k.Valid() && 1 <= r <= k.rounds
    ensures Decrypting(k, Inner(k, s, r), r) == s
    decreases r
  {
    hide InvRound, Inner;
    InvRoundInverts(k, s, r);
    if r > 1 {
      DecryptingInverts(k, s, r - 1);
    }
  }

  /** The inverse cipher undoes the cipher, whatever the schedule and its number of rounds. */
  lemma DecryptInverts(k: Schedule, s: Block)
    requires k.Valid()
    ensures Decrypt(k, Encrypt(k, s)) == s
  {
    hide ShiftRows, SubBytes, MixColumns, XorBlock, InvRound;
    if k.rounds == 0 {
      XorBlockTwice(s, k.RoundKey(0));
    } else {
      XorBlockTwice(Inner(k, s, k.rounds), k.RoundKey(k.rounds));
      DecryptingInverts(k, s, k.rounds);
    }
  }

  // ---- the code, on arrays ----

  /** Adds round key `r` to the state. */
  method AddRoundKey(k: Schedule, s: array<bv8>, r: nat)
    requires k.Valid() && r <= k.rounds && s.Length == 16
    modifies s
    ensures s[..] == XorBlock(old(s[..]), k.RoundKey(r))
  {
    hide Xor;
    for i := 0 to 16
      invariant forall j :: 0 <= j < i ==> s[j] == Xor(old(s[j]), k.key[16 * r + j])
      invariant forall j :: i <= j < 16 ==> s[j] == old(s[j])
    {
      s[i] := Xor(s[i], k.key[r * 16 + i]);
    }
  }

  method Substitute(s: array<bv8>)
    requires s.Length == 16
    modifies s
    ensures s[..] == SubBytes(old(s[..]))
  {
    hide Sub;
    for i := 0 to 16
      invariant forall j :: 0 <= j < i ==> s[j] == Sub(old(s[j]))
      invariant forall j :: i <= j < 16 ==> s[j] == old(s[j])
    {
      s[i] := Sub(s[i]);
    }
  }

  method InvSubstitute(s: array<bv8>)
    requires s.Length == 16
    modifies s
    ensures s[..] == InvSubBytes(old(s[..]))
  {
    hide InvSub;
    for i := 0 to 16
      invariant forall j :: 0 <= j < i ==> s[j] == InvSub(old(s[j]))
      invariant forall j :: i <= j < 16 ==> s[j] == old(s[j])
    {
      s[i] := InvSub(s[i]);
    }
  }

  lemma KeptColumn(s: Block, t: Block, i: nat, c: nat)
    requires i < c < 4
    requires forall j :: 0 <= j < 4 * c ==> t[j] == s[j]
    ensures t[i * 4] == s[i * 4] && t[i * 4 + 1] == s[i * 4 + 1]
    ensures t[i * 4 + 2] == s[i * 4 + 2] && t[i * 4 + 3] == s[i * 4 + 3]
  {
  }

  /** Column `c` of `t` is put together from four columns of `s`. */
  method Gather(s: array<bv8>, t: array<bv8>, c: nat, c1: nat, c2: nat, c3: nat)
    requires s.Length == t.Length == 16 && s != t && c < 4 && c1 < 4 && c2 < 4 && c3 < 4
    modifies t
    ensures t[c * 4] == s[c * 4] && t[c * 4 + 1] == s[c1 * 4 + 1]
    ensures t[c * 4 + 2] == s[c2 * 4 + 2] && t[c * 4 + 3] == s[c3 * 4 + 3]
    ensures forall j :: 0 <= j < 4 * c ==> t[j] == old(t[j])
  {
    t[c * 4] := s[c * 4];
    t[c * 4 + 1] := s[c1 * 4 + 1];
    t[c * 4 + 2] := s[c2 * 4 + 2];
    t[c * 4 + 3] := s[c3 * 4 + 3];
  }

  /** Row r moves left by r columns. */
  method Shift(s: array<bv8>, t: array<bv8>)
    requires s.Length == t.Length == 16 && s != t
    modifies t
    ensures t[..] == ShiftRows(s[..])
  {
    hide ShiftRows;
    for c := 0 to 4
      invariant forall i :: 0 <= i < c ==> Shifted(s[..], t[..], i)
    {
      ghost var done := t[..];
      Gather(s, t, c, (c + 1) % 4, (c + 2) % 4, (c + 3) % 4);
      forall i | 0 <= i < c
        ensures Shifted(s[..], t[..], i)
      {
        KeptColumn(done, t[..], i, c);
        assert Shifted(s[..], done, i);
      }
    }
    ShiftedIsShiftRows(s[..], t[..]);
  }

  /** Column `c` of `t` holds byte r of the column r places to the right (section 5.1.2). */
  ghost predicate Shifted(s: Block, t: Block, c: nat)
    requires c < 4
  {
    && t[c * 4] == s[c * 4]
    && t[c * 4 + 1] == s[(c + 1) % 4 * 4 + 1]
    && t[c * 4 + 2] == s[(c + 2) % 4 * 4 + 2]
    && t[c * 4 + 3] == s[(c + 3) % 4 * 4 + 3]
  }

  lemma ShiftedIsShiftRows(s: Block, t: Block)
    requires forall c :: 0 <= c < 4 ==> Shifted(s, t, c)
    ensures t == ShiftRows(s)
  {
    assert Shifted(s, t, 0) && Shifted(s, t, 1) && Shifted(s, t, 2) && Shifted(s, t, 3);
  }

  method InvShift(s: array<bv8>, t: array<bv8>)
    requires s.Length == t.Length == 16 && s != t
    modifies t
    ensures t[..] == InvShiftRows(s[..])
  {
    hide InvShiftRows;
    for c := 0 to 4
      invariant forall i :: 0 <= i < c ==> InvShifted(s[..], t[..], i)
    {
      ghost var done := t[..];
      Gather(s, t, c, (c + 3) % 4, (c + 2) % 4, (c + 1) % 4);
      forall i | 0 <= i < c
        ensures InvShifted(s[..], t[..], i)
      {
        KeptColumn(done, t[..], i, c);
        assert InvShifted(s[..], done, i);
      }
    }
    InvShiftedIsInvShiftRows(s[..], t[..]);
  }

  ghost predicate InvShifted(s: Block, t: Block, c: nat)
    requires c < 4
  {
    && t[c * 4] == s[c * 4]
    && t[c * 4 + 1] == s[(c + 3) % 4 * 4 + 1]
    && t[c * 4 + 2] == s[(c + 2) % 4 * 4 + 2]
    && t[c * 4 + 3] == s[(c + 1) % 4 * 4 + 3]
  }

  lemma InvShiftedIsInvShiftRows(s: Block, t: Block)
    requires forall c :: 0 <= c < 4 ==> InvShifted(s, t, c)
    ensures t == InvShiftRows(s)
  {
    assert InvShifted(s, t, 0) && InvShifted(s, t, 1) && InvShifted(s, t, 2) && InvShifted(s, t, 3);
  }

  /** A row of the matrix with coefficients 2 and 3 next to each other. */
  method TwoThree(a: bv8, b: bv8) returns (a2: bv8, b3: bv8)
    ensures a2 == Times(a, 2) && b3 == Times(b, 3)
  {
    hide Times;
    a2 := Gmul(a, 2);
    b3 := Gmul(b, 3);
  }

  method MixOne(a: bv8, b: bv8, c: bv8, d: bv8) returns (w: bv8, x: bv8, y: bv8, z: bv8)
    ensures [w, x, y, z] == MixColumn(a, b, c, d)
  {
    hide Times, Xor;
    var p, q := TwoThree(a, b);
    w := Xor(Xor(Xor(p, q), c), d);
    p, q := TwoThree(b, c);
    x := Xor(Xor(Xor(a, p), q), d);
    p, q := TwoThree(c, d);
    y := Xor(Xor(Xor(a, b), p), q);
    p, q := TwoThree(d, a);
    z := Xor(Xor(Xor(q, b), c), p);
  }

  method Weighted(a: bv8, b: bv8, c: bv8, d: bv8, p: bv8, q: bv8, r: bv8, t: bv8) returns (sum: bv8)
    ensures sum == Sum4(Times(a, p), Times(b, q), Times(c, r), Times(d, t))
  {
    hide Times, Xor;
    var w := Gmul(a, p);
    var x := Gmul(b, q);
    var y := Gmul(c, r);
    var z := Gmul(d, t);
    sum := Xor(Xor(Xor(w, x), y), z);
  }

  method InvMixOne(a: bv8, b: bv8, c: bv8, d: bv8) returns (w: bv8, x: bv8, y: bv8, z: bv8)
    ensures [w, x, y, z] == InvMixColumn(a, b, c, d)
  {
    hide Times, Sum4;
    w := Weighted(a, b, c, d, 0x0e, 0x0b, 0x0d, 0x09);
    x := Weighted(a, b, c, d, 0x09, 0x0e, 0x0b, 0x0d);
    y := Weighted(a, b, c, d, 0x0d, 0x09, 0x0e, 0x0b);
    z := Weighted(a, b, c, d, 0x0b, 0x0d, 0x09, 0x0e);
  }

  function Column(s: Block, c: nat): seq<bv8>
    requires c < 4
  {
    s[c * 4..c * 4 + 4]
  }

  lemma ColumnsKept(s: Block, t: Block, c: nat)
    requires c < 4
    requires forall j :: 0 <= j < 16 && !(c * 4 <= j < c * 4 + 4) ==> t[j] == s[j]
    ensures forall i :: 0 <= i < 4 && i != c ==> Column(t, i) == Column(s, i)
  {
  }

  lemma ColumnsMakeBlock(s: Block)
    ensures s == Column(s, 0) + Column(s, 1) + Column(s, 2) + Column(s, 3)
  {
  }

  method Mix(t: array<bv8>, s: array<bv8>)
    requires s.Length == t.Length == 16 && s != t
    modifies s
    ensures s[..] == MixColumns(t[..])
  {
    hide MixColumn;
    for c := 0 to 4
      invariant forall i :: 0 <= i < c ==>
          Column(s[..], i) == MixColumn(t[i * 4], t[i * 4 + 1], t[i * 4 + 2], t[i * 4 + 3])
    {
      ghost var done := s[..];
      var w, x, y, z := MixOne(t[c * 4], t[c * 4 + 1], t[c * 4 + 2], t[c * 4 + 3]);
      s[c * 4], s[c * 4 + 1], s[c * 4 + 2], s[c * 4 + 3] := w, x, y, z;
      assert Column(s[..], c) == [w, x, y, z];
      ColumnsKept(done, s[..], c);
    }
    ColumnsMakeBlock(s[..]);
  }

  method InvMix(t: array<bv8>, s: array<bv8>)
    requires s.Length == t.Length == 16 && s != t
    modifies s
    ensures s[..] == InvMixColumns(t[..])
  {
    hide InvMixColumn;
    for c := 0 to 4
      invariant forall i :: 0 <= i < c ==>
          Column(s[..], i) == InvMixColumn(t[i * 4], t[i * 4 + 1], t[i * 4 + 2], t[i * 4 + 3])
    {
      ghost var done := s[..];
      var w, x, y, z := InvMixOne(t[c * 4], t[c * 4 + 1], t[c * 4 + 2], t[c * 4 + 3]);
      s[c * 4], s[c * 4 + 1], s[c * 4 + 2], s[c * 4 + 3] := w, x, y, z;
      assert Column(s[..], c) == [w, x, y, z];
      ColumnsKept(done, s[..], c);
    }
    ColumnsMakeBlock(s[..]);
  }

  /** Copies a block between arrays. */
  method Copy(from: array<bv8>, to: array<bv8>)
    requires from.Length == to.Length == 16
    modifies to
    ensures to[..] == old(from[..])
  {
    for i := 0 to 16
      invariant from[..] == old(from[..]) || from == to
      invariant forall j :: 0 <= j < i ==> to[j] == old(from[j])
      invariant from == to ==> to[..] == old(from[..])
    {
      to[i] := from[i];
    }
  }

  /** `input` and `output` may be the same array. */
  method EncryptBlock(k: Schedule, input: array<bv8>, output: array<bv8>)
    requires k.Valid() && input.Length == output.Length == 16
    modifies output
    ensures output[..] == Encrypt(k, old(input[..]))
  {
    hide XorBlock, SubBytes, ShiftRows, MixColumns;
    var s := new bv8[16];
    var t := new bv8[16];
    Copy(input, s);
    AddRoundKey(k, s, 0);
    for round := 1 to k.rounds + 1
      invariant s[..] == Encrypting(k, old(input[..]), round - 1)
    {
      Substitute(s);
      Shift(s, t);
      if round != k.rounds {
        Mix(t, s);
      } else {
        Copy(t, s);
      }
      AddRoundKey(k, s, round);
    }
    Copy(s, output);
  }

  method DecryptBlock(k: Schedule, input: array<bv8>, output: array<bv8>)
    requires k.Valid() && input.Length == output.Length == 16
    modifies output
    ensures output[..] == Decrypt(k, old(input[..]))
  {
    hide XorBlock, InvSubBytes, InvShiftRows, InvMixColumns;
    var s := new bv8[16];
    var t := new bv8[16];
    Copy(input, s);
    AddRoundKey(k, s, k.rounds);
    var round := k.rounds;
    while round >= 1
      invariant 0 <= round <= k.rounds
      invariant Decrypting(k, s[..], round) == Decrypt(k, old(input[..]))
    {
      InvShift(s, t);
      InvSubstitute(t);
      AddRoundKey(k, t, round - 1);
      if round != 1 {
        InvMix(t, s);
      } else {
        Copy(t, s);
      }
      round := round - 1;
    }
    Copy(s, output);
  }
}
