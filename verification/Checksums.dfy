/** The checksums of LibArchive: the table-driven CRC-32 of section 8 of RFC 1952 and
    the Adler-32 of section 9 of RFC 1950, proved against their one-bit and one-byte
    definitions. */
module Checksums {

  // ---- CRC-32 ----

  const POLY: bv32 := 0xEDB88320

  function Xor(a: bv32, b: bv32): bv32 {
    a ^ b
  }

  function Half(a: bv32): bv32 {
    a >> 1
  }

  function Low(b: bv32): bool {
    b & 1 == 1
  }

  /** The register after one message bit: division by the polynomial, a bit at a time. */
  function FeedBit(c: bv32, bit: bool): bv32 {
    if Low(c) != bit then Xor(POLY, Half(c)) else Half(c)
  }

  function Feed(c: bv32, bits: seq<bool>): bv32
    decreases bits
  {
    if bits == [] then c else Feed(FeedBit(c, bits[0]), bits[1..])
  }

  /** The low `n` bits of a register, lowest first. */
  function LowBits(b: bv32, n: nat): (r: seq<bool>)
    ensures |r| == n
    decreases n
  {
    if n == 0 then [] else [Low(b)] + LowBits(Half(b), n - 1)
  }

  function MessageBits(data: seq<bv8>): seq<bool> {
    if data == [] then [] else LowBits(data[0] as bv32, 8) + MessageBits(data[1..])
  }

  const ONES: bv32 := 0xFFFFFFFF

  /** The checksum of a message: from all ones, with the end complemented. */
  function Crc32Of(data: seq<bv8>): bv32 {
    Xor(Feed(ONES, MessageBits(data)), ONES)
  }

  /** One step of the loop that builds a table entry. */
  function Step(c: bv32): bv32 {
    if Low(c) then Xor(POLY, Half(c)) else Half(c)
  }

  function Steps(c: bv32, n: nat): bv32
    decreases n
  {
    if n == 0 then c else Steps(Step(c), n - 1)
  }

  lemma XorParts(a: bv32, b: bv32)
    ensures Half(Xor(a, b)) == Xor(Half(a), Half(b))
    ensures Low(Xor(a, b)) == (Low(a) != Low(b))
  {
  }

  lemma XorGroup(p: bv32, a: bv32, b: bv32)
    ensures Xor(Xor(p, a), Xor(p, b)) == Xor(a, b)
    ensures Xor(Xor(p, a), b) == Xor(p, Xor(a, b)) == Xor(a, Xor(p, b))
  {
    hide Xor;
    XorAssoc(p, a, Xor(p, b));
    XorCommute(p, b);
    XorAssoc(a, b, p);
    XorCommute(Xor(a, b), p);
    XorSelf(p, Xor(a, b));
    XorCommute(p, a);
    XorAssoc(a, p, b);
    XorAssoc(p, a, b);
  }

  lemma XorAssoc(a: bv32, b: bv32, c: bv32)
    ensures Xor(Xor(a, b), c) == Xor(a, Xor(b, c))
  {
  }

  lemma XorCommute(a: bv32, b: bv32)
    ensures Xor(a, b) == Xor(b, a)
  {
  }

  lemma XorSelf(a: bv32, b: bv32)
    ensures Xor(a, Xor(a, b)) == b
  {
  }

  /** A step is linear over exclusive or. */
  lemma StepXor(a: bv32, b: bv32)
    ensures Step(Xor(a, b)) == Xor(Step(a), Step(b))
  {
    hide Xor, Half, Low;
    XorParts(a, b);
    XorGroup(POLY, Half(a), Half(b));
  }

  lemma {:induction false} StepsXor(a: bv32, b: bv32, n: nat)
    ensures Steps(Xor(a, b), n) == Xor(Steps(a, n), Steps(b, n))
    decreases n
  {
    hide Step, Xor;
    if n != 0 {
      StepXor(a, b);
      StepsXor(Step(a), Step(b), n - 1);
    }
  }

  /** Eight steps on the high 24 bits only shift them down. */
  lemma StepsHigh(c: bv32)
    ensures Steps(c & 0xFFFFFF00, 8) == c >> 8
  {
  }

  /** A byte folded into the register is worked off one message bit per step. */
  lemma FoldedStep(c: bv32, b: bv32)
    ensures Step(Xor(c, b)) == Xor(FeedBit(c, Low(b)), Half(b))
  {
    hide Xor, Half, Low;
    XorParts(c, b);
    XorGroup(POLY, Half(c), Half(b));
  }

  lemma {:induction false} FoldedByte(c: bv32, b: bv32, n: nat)
    ensures Steps(Xor(c, b), n) == Xor(Feed(c, LowBits(b, n)), Shifted(b, n))
    decreases n
  {
    hide Step, FeedBit, Xor, Half, Low;
    if n != 0 {
      FoldedStep(c, b);
      FoldedByte(FeedBit(c, Low(b)), Half(b), n - 1);
      assert LowBits(b, n)[1..] == LowBits(Half(b), n - 1);
    }
  }

  function Shifted(b: bv32, n: nat): bv32
    decreases n
  {
    if n == 0 then b else Shifted(Half(b), n - 1)
  }

  lemma ByteGone(b: bv32, c: bv32)
    requires b < 256
    ensures Xor(c, Shifted(b, 8)) == c
  {
  }

  /** The table step: the entry of the low byte, combined with the rest shifted down,
      is eight steps of the whole register. */
  lemma TableStep(x: bv32)
    ensures Xor(Steps(x & 0xFF, 8), x >> 8) == Steps(x, 8)
  {
    LowHigh(x);
    StepsHigh(x);
    hide Steps, Xor;
    StepsXor(x & 0xFF, x & 0xFFFFFF00, 8);
  }

  lemma LowHigh(x: bv32)
    ensures x == Xor(x & 0xFF, x & 0xFFFFFF00)
  {
  }

  lemma FoldHigh(c: bv32, b: bv8)
    ensures Xor(c, b as bv32) >> 8 == c >> 8
    ensures b as bv32 < 256
  {
  }

  /** Which table entry a byte selects, and what remains of the register. */
  function Index(c: bv32, b: bv8): (i: nat)
    ensures i < 256
  {
    (Xor(c, b as bv32) & 0xFF) as int
  }

  function Rest(c: bv32): bv32 {
    c >> 8
  }

  lemma ByteStep(c: bv32, b: bv8)
    ensures Xor(Steps(Index(c, b) as bv32, 8), Rest(c)) == Feed(c, LowBits(b as bv32, 8))
  {
    FoldHigh(c, b);
    IndexBack(Xor(c, b as bv32) & 0xFF);
    hide Steps, Feed, LowBits, Xor;
    TableStep(Xor(c, b as bv32));
    FoldedFeed(c, b);
  }

  /** A byte folded in and eight steps are its eight message bits. */
  lemma FoldedFeed(c: bv32, b: bv8)
    ensures Steps(Xor(c, b as bv32), 8) == Feed(c, LowBits(b as bv32, 8))
  {
    FoldHigh(c, b);
    hide Steps, Feed, LowBits, Shifted, Xor;
    FoldedByte(c, b as bv32, 8);
    ByteGone(b as bv32, Feed(c, LowBits(b as bv32, 8)));
  }

  lemma {:induction false} FeedConcat(c: bv32, a: seq<bool>, b: seq<bool>)
    ensures Feed(c, a + b) == Feed(Feed(c, a), b)
    decreases |a|
  {
    if a == [] {
      assert a + b == b;
    } else {
      assert (a + b)[1..] == a[1..] + b;
      FeedConcat(FeedBit(c, a[0]), a[1..], b);
    }
  }

  lemma {:induction false} MessageBitsConcat(a: seq<bv8>, b: seq<bv8>)
    ensures MessageBits(a + b) == MessageBits(a) + MessageBits(b)
    decreases |a|
  {
    if a == [] {
      assert a + b == b;
    } else {
      hide LowBits;
      assert (a + b)[1..] == a[1..] + b && (a + b)[0] == a[0];
      MessageBitsConcat(a[1..], b);
      var head := LowBits(a[0] as bv32, 8);
      assert head + (MessageBits(a[1..]) + MessageBits(b)) == head + MessageBits(a[1..]) + MessageBits(b);
    }
  }

  /** Checksumming a message in two pieces is checksumming it whole. */
  lemma CrcComposes(c: bv32, a: seq<bv8>, b: seq<bv8>)
    ensures Feed(c, MessageBits(a + b)) == Feed(Feed(c, MessageBits(a)), MessageBits(b))
  {
    MessageBitsConcat(a, b);
    FeedConcat(c, MessageBits(a), MessageBits(b));
  }

  /** What the table holds for a byte. */
  function Entry(i: int): bv32
    requires 0 <= i < 256
  {
    Steps(i as bv32, 8)
  }

  class Crc32 {
    const table: array<bv32>
    var ready: bool

    ghost predicate Valid()
      reads this, table
    {
      && table.Length == 256
      && (ready ==> forall i :: 0 <= i < 256 ==> table[i] == Entry(i))
    }

    constructor ()
      ensures Valid() && fresh(table) && !ready
    {
      table := new bv32[256](_ => 0);
      ready := false;
    }

    /** Fills the table on first use. */
    method Prepare()
      requires Valid()
      modifies this, table
      ensures Valid() && ready
    {
      hide Entry;
      if !ready {
        FillTable();
        ready := true;
      }
    }

    method FillTable()
      requires table.Length == 256
      modifies table
      ensures forall k :: 0 <= k < 256 ==> table[k] == Entry(k)
    {
      hide Entry;
      for i := 0 to 256
        invariant forall k :: 0 <= k < i ==> table[k] == Entry(k)
      {
        var c := MakeEntry(i);
        table[i] := c;
      }
    }

    /** The inner loop: eight steps from the index. */
    method MakeEntry(i: nat) returns (c: bv32)
      requires i < 256
      ensures c == Entry(i)
    {
      hide Xor, Half, Low;
      c := i as bv32;
      for j := 0 to 8
        invariant Steps(c, 8 - j) == Entry(i)
      {
        c := if Low(c) then Xor(POLY, Half(c)) else Half(c);
      }
    }

    method Update(crc: bv32, data: seq<bv8>) returns (r: bv32)
      requires Valid()
      modifies this, table
      ensures Valid()
      ensures r == Feed(crc, MessageBits(data))
    {
      Prepare();
      r := crc;
      hide Feed, MessageBits, Steps, LowBits, Xor, Index, Rest;
      assert data[..0] == [] && Feed(crc, MessageBits([])) == crc by {
        FeedNothing(crc);
      }
      for i := 0 to |data|
        invariant Valid() && ready
        invariant r == Feed(crc, MessageBits(data[..i]))
      {
        ByteStep(r, data[i]);
        FeedOneMore(crc, data, i);
        r := Xor(table[Index(r, data[i])], Rest(r));
      }
      assert data[..|data|] == data;
    }

    /** The checksum of a whole message. */
    method Whole(data: seq<bv8>) returns (r: bv32)
      requires Valid()
      modifies this, table
      ensures Valid()
      ensures r == Crc32Of(data)
    {
      hide Feed, MessageBits, Xor, Entry;
      r := Update(ONES, data);
      r := Xor(r, ONES);
    }
  }

  lemma IndexBack(k: bv32)
    requires k < 256
    ensures 0 <= k as int < 256 && (k as int) as bv32 == k
  {
  }

  lemma FeedNothing(c: bv32)
    ensures Feed(c, MessageBits([])) == c
  {
  }

  lemma FeedOneMore(c: bv32, data: seq<bv8>, i: nat)
    requires i < |data|
    ensures Feed(c, MessageBits(data[..i + 1])) == Feed(Feed(c, MessageBits(data[..i])), LowBits(data[i] as bv32, 8))
  {
    hide Feed, LowBits, MessageBits;
    assert data[..i + 1] == data[..i] + [data[i]];
    CrcComposes(c, data[..i], [data[i]]);
    OneByteBits(data[i]);
  }

  lemma OneByteBits(b: bv8)
    ensures MessageBits([b]) == LowBits(b as bv32, 8)
  {
    hide LowBits;
    assert [b][1..] == [];
    assert MessageBits([b]) == LowBits(b as bv32, 8) + MessageBits([]);
  }

  lemma Complement(c: bv32)
    ensures !c == Xor(c, ONES)
  {
  }

  lemma StepsLeft(c: bv32, n: nat)
    requires n > 0
    ensures Steps(c, n) == Steps(if Low(c) then Xor(POLY, Half(c)) else Half(c), n - 1)
  {
    hide Low, Xor, Half;
  }

  /** The same checksum without a table, eight shifts a byte. */
  method BitwiseCrc(data: seq<bv8>) returns (crc: bv32)
    ensures crc == Crc32Of(data)
  {
    hide Feed, MessageBits, Steps, LowBits, Xor, Half, Low;
    crc := ONES;
    FeedNothing(ONES);
    assert data[..0] == [];
    for i := 0 to |data|
      invariant crc == Feed(ONES, MessageBits(data[..i]))
    {
      ghost var before := crc;
      crc := Xor(crc, data[i] as bv32);
      crc := EightSteps(crc);
      FoldedFeed(before, data[i]);
      FeedOneMore(ONES, data, i);
    }
    assert data[..|data|] == data;
    Complement(crc);
    crc := !crc;
  }

  method EightSteps(c: bv32) returns (r: bv32)
    ensures r == Steps(c, 8)
  {
    hide Xor, Half, Low, Steps;
    r := c;
    for j := 0 to 8
      invariant Steps(r, 8 - j) == Steps(c, 8)
    {
      StepsLeft(r, 8 - j);
      r := if Low(r) then Xor(POLY, Half(r)) else Half(r);
    }
    NoSteps(r);
  }

  lemma NoSteps(c: bv32)
    ensures Steps(c, 0) == c
  {
  }

  // ---- Adler-32 ----

  const MOD := 65521
  const RUN := 5552

  newtype u32 = x: int | 0 <= x < 0x1_0000_0000

  datatype Sums = Sums(a: nat, b: nat)

  /** Both sums, reduced after every byte. */
  function Adler(data: seq<bv8>): (s: Sums)
    ensures s.a < MOD && s.b < MOD
  {
    if data == [] then Sums(1, 0)
    else
      var s := Adler(data[..|data| - 1]);
      var a := (s.a + data[|data| - 1] as int) % MOD;
      Sums(a, (s.b + a) % MOD)
  }

  ghost predicate Tracks(a: u32, b: u32, s: Sums) {
    a as int % MOD == s.a && b as int % MOD == s.b
  }

  lemma ModAdd(x: int, y: int, x': int, y': int)
    requires x % MOD == x' % MOD && y % MOD == y' % MOD
    ensures (x + y) % MOD == (x' + y') % MOD
  {
  }

  /** What one unreduced byte adds to both sums. */
  lemma TrackByte(a: int, b: int, s: Sums, d: int)
    requires a % MOD == s.a && b % MOD == s.b
    ensures (a + d) % MOD == (s.a + d) % MOD
    ensures (b + (a + d)) % MOD == (s.b + (s.a + d) % MOD) % MOD
  {
    ModAdd(a, d, s.a, d);
    ModAdd(b, a + d, s.b, (s.a + d) % MOD);
  }

  /** The largest second sum after `i` bytes of a run. */
  function Ceiling(i: nat): nat {
    65520 * (i + 1) + 255 * i * (i + 1) / 2
  }

  lemma CeilingStep(i: nat)
    ensures Ceiling(i + 1) == Ceiling(i) + 65520 + 255 * (i + 1)
  {
    assert 255 * (i + 1) * (i + 2) == 255 * i * (i + 1) + 2 * (255 * (i + 1));
  }

  lemma {:induction false} CeilingMonotone(i: nat, j: nat)
    requires i <= j
    ensures Ceiling(i) <= Ceiling(j)
  {
    if i < j {
      CeilingMonotone(i, j - 1);
      CeilingStep(j - 1);
    }
  }

  lemma CeilingFits()
    ensures Ceiling(RUN) < 0x1_0000_0000
  {
  }

  /** One run of unreduced additions: the sums stay below 2^32. */
  method AdlerRun(a0: u32, b0: u32, data: seq<bv8>, from: nat, n: nat) returns (a: u32, b: u32)
    requires n <= RUN && from + n <= |data|
    requires a0 < 65521 && b0 < 65521 && Tracks(a0, b0, Adler(data[..from]))
    ensures Tracks(a, b, Adler(data[..from + n]))
  {
    hide Adler, Ceiling, Tracks;
    a, b := a0, b0;
    CeilingFits();
    CeilingStart();
    for i := 0 to n
      invariant Tracks(a, b, Adler(data[..from + i]))
      invariant a as int <= 65520 + 255 * i && b as int <= Ceiling(i)
    {
      CeilingStep(i);
      CeilingMonotone(i + 1, RUN);
      ghost var a1, b1 := a, b;
      a := a + data[from + i] as u32;
      b := b + a;
      TracksNext(a1, b1, a, b, data, from + i);
    }
  }

  lemma TracksNext(a: u32, b: u32, a': u32, b': u32, data: seq<bv8>, k: nat)
    requires k < |data| && Tracks(a, b, Adler(data[..k]))
    requires a' as int == a as int + data[k] as int && b' as int == b as int + a' as int
    ensures Tracks(a', b', Adler(data[..k + 1]))
  {
    hide Adler;
    AdlerNext(a as int, b as int, data, k);
  }

  lemma CeilingStart()
    ensures Ceiling(0) == 65520
  {
  }

  /** Unreduced sums follow the reduced ones by one byte. */
  lemma AdlerNext(a: int, b: int, data: seq<bv8>, k: nat)
    requires k < |data| && a % MOD == Adler(data[..k]).a && b % MOD == Adler(data[..k]).b
    ensures var d := data[k] as int;
      && 0 <= d <= 255
      && (a + d) % MOD == Adler(data[..k + 1]).a && (b + (a + d)) % MOD == Adler(data[..k + 1]).b
  {
    TrackByte(a, b, Adler(data[..k]), data[k] as int);
    assert data[..k + 1][..k] == data[..k];
  }

  lemma AdlerOfNothing(data: seq<bv8>)
    ensures Adler(data[..0]) == Sums(1, 0)
  {
    assert data[..0] == [];
  }

  /** Reducing only every 5552 bytes gives the checksum that reduces after each. */
  method Adler32(data: seq<bv8>) returns (r: u32)
    ensures r as int == Adler(data).b * 65536 + Adler(data).a
  {
    hide Adler;
    var a: u32, b: u32 := 1, 0;
    var at := 0;
    AdlerOfNothing(data);
    while at < |data|
      invariant at <= |data| && a < 65521 && b < 65521
      invariant Tracks(a, b, Adler(data[..at]))
    {
      var n := if |data| - at > RUN then RUN else |data| - at;
      a, b := AdlerRun(a, b, data, at, n);
      a, b := a % 65521, b % 65521;
      at := at + n;
    }
    assert data[..at] == data;
    return b * 65536 + a;
  }
}
