/** The DEFLATE format as a pure decoder over the bits of the compressed stream,
    with an unbounded output history (sections 3.2.3 to 3.2.7 of RFC 1951).

    Three points follow the program rather than the RFC: a length table without any
    code is an error even for the distance code, a header announces at most 30 distance
    codes, and an incomplete code is accepted. Module DeflateRfc bounds the first two. */
module Deflate {
  import opened Bits
  import opened Huffman

  const WINDOW := 32768
  const LIT_SYMS := 288
  const LIT_MAX := 286
  const DIST_SYMS := 30
  const CLEN_SYMS := 19

  const LEN_BASE: seq<nat> := [3, 4, 5, 6, 7, 8, 9, 10, 11, 13, 15, 17, 19, 23, 27, 31, 35, 43, 51,
                               59, 67, 83, 99, 115, 131, 163, 195, 227, 258]
  const LEN_EXTRA: seq<nat> := [0, 0, 0, 0, 0, 0, 0, 0, 1, 1, 1, 1, 2, 2, 2, 2, 3, 3, 3, 3, 4, 4, 4,
                                4, 5, 5, 5, 5, 0]
  const DIST_BASE: seq<nat> := [1, 2, 3, 4, 5, 7, 9, 13, 17, 25, 33, 49, 65, 97, 129, 193, 257, 385,
                                513, 769, 1025, 1537, 2049, 3073, 4097, 6145, 8193, 12289, 16385, 24577]
  const DIST_EXTRA: seq<nat> := [0, 0, 0, 0, 1, 1, 2, 2, 3, 3, 4, 4, 5, 5, 6, 6, 7, 7, 8, 8, 9, 9, 10,
                                 10, 11, 11, 12, 12, 13, 13]

  /** The order in which code length code lengths are sent, and its inverse. */
  const CLEN_ORDER: seq<nat> := [16, 17, 18, 0, 8, 7, 9, 6, 10, 5, 11, 4, 12, 3, 13, 2, 14, 1, 15]
  const CLEN_RANK: seq<nat> := [3, 17, 15, 13, 11, 9, 7, 5, 4, 6, 8, 10, 12, 14, 16, 18, 0, 1, 2]

  /** What a stretch of the stream decodes to: the output so far and the next bit
      position, or the output before the first error. */
  datatype Result = Done(out: seq<byte>, pos: nat) | Fail(out: seq<byte>)

  datatype Tables = Tables(lit: seq<nat>, dist: seq<nat>, pos: nat)

  /** A number and the position after it. */
  datatype Num = Num(value: nat, pos: nat)

  ghost predicate Ends(r: Result, bits: seq<bit>, pos: nat) {
    r.Done? ==> pos < r.pos <= |bits|
  }

  // ---- stored blocks (section 3.2.4) ----

  function NextByte(pos: nat): nat {
    (pos + 7) / 8 * 8
  }

  lemma NextByteIs(pos: nat, k: nat, f: nat)
    requires pos + k == 8 * f && k < 8
    ensures NextByte(pos) == 8 * f
  {
  }

  function ByteAt(bits: seq<bit>, pos: nat): byte
    requires pos + 8 <= |bits|
  {
    ValBound(bits, pos, 8);
    Pow2Values();
    Val(bits, pos, 8)
  }

  function CopyBytes(bits: seq<bit>, pos: nat, n: nat, out: seq<byte>): (r: Result)
    requires pos <= |bits|
    ensures r.Done? ==> r.pos == pos + 8 * n <= |bits|
    decreases n
  {
    if n == 0 then Done(out, pos)
    else if pos + 8 > |bits| then Fail(out)
    else CopyBytes(bits, pos + 8, n - 1, out + [ByteAt(bits, pos)])
  }

  function Stored(bits: seq<bit>, pos: nat, out: seq<byte>): (r: Result)
    ensures Ends(r, bits, pos)
  {
    var p := NextByte(pos);
    if p + 32 > |bits| || Val(bits, p, 16) + Val(bits, p + 16, 16) != 65535 then Fail(out)
    else CopyBytes(bits, p + 32, Val(bits, p, 16), out)
  }

  // ---- compressed blocks (sections 3.2.3 and 3.2.5) ----

  function WithExtra(bits: seq<bit>, base: nat, extra: nat, pos: nat): (r: Option<Num>)
    ensures r.Some? ==> r.value.pos == pos + extra <= |bits|
    ensures r.Some? ==> r.value.value >= base
  {
    if pos + extra > |bits| then None else Some(Num(base + Val(bits, pos, extra), pos + extra))
  }

  function Length(bits: seq<bit>, sym: nat, pos: nat): (r: Option<Num>)
    ensures r.Some? ==> pos <= r.value.pos <= |bits| && 3 <= r.value.value <= 258
  {
    if sym >= 29 then None else
      LengthRange(bits, sym, pos);
      WithExtra(bits, LenBase(sym), LenExtra(sym), pos)
  }

  function LenBase(sym: nat): nat
    requires sym < 29
  {
    LEN_BASE[sym]
  }

  function LenExtra(sym: nat): (n: nat)
    requires sym < 29
    ensures n <= 5
  {
    LEN_EXTRA[sym]
  }

  function DistBase(sym: nat): nat
    requires sym < DIST_SYMS
  {
    DIST_BASE[sym]
  }

  function DistExtra(sym: nat): (n: nat)
    requires sym < DIST_SYMS
    ensures n <= 13
  {
    DIST_EXTRA[sym]
  }

  /** No length exceeds 258. */
  lemma LengthRange(bits: seq<bit>, sym: nat, pos: nat)
    requires sym < 29
    ensures 3 <= LenBase(sym)
    ensures pos + LenExtra(sym) <= |bits| ==> LenBase(sym) + Val(bits, pos, LenExtra(sym)) <= 258
  {
    if pos + LenExtra(sym) <= |bits| {
      ValBound(bits, pos, LenExtra(sym));
      Pow2Values();
    }
  }

  /** No distance reaches further back than the window. */
  lemma DistanceRange(bits: seq<bit>, sym: nat, pos: nat)
    requires sym < DIST_SYMS
    ensures 1 <= DistBase(sym)
    ensures pos + DistExtra(sym) <= |bits| ==> DistBase(sym) + Val(bits, pos, DistExtra(sym)) <= WINDOW
  {
    if pos + DistExtra(sym) <= |bits| {
      ValBound(bits, pos, DistExtra(sym));
      Pow2Values();
      assert Pow2(13) == 32 * Pow2(8) && Pow2(12) == 16 * Pow2(8) && Pow2(11) == 8 * Pow2(8);
      assert Pow2(10) == 4 * Pow2(8) && Pow2(9) == 2 * Pow2(8);
    }
  }

  ghost function Distance(dist: seq<nat>, bits: seq<bit>, pos: nat): (r: Option<Num>)
    ensures r.Some? ==> pos < r.value.pos <= |bits| && 1 <= r.value.value <= WINDOW
  {
    match SymbolAt(dist, bits, pos)
    case None => None
    case Some(s) =>
      if s >= DIST_SYMS then None
      else
        DistanceRange(bits, s, pos + dist[s]);
        WithExtra(bits, DistBase(s), DistExtra(s), pos + dist[s])
  }

  /** The last `dist` bytes of the output, repeated over `len` bytes. */
  function Repeat(out: seq<byte>, dist: nat, len: nat): (r: seq<byte>)
    requires 1 <= dist <= |out|
    ensures |r| == |out| + len && out <= r
  {
    out + seq(len, k requires 0 <= k < len => out[|out| - dist + k % dist])
  }

  ghost function Block(lit: seq<nat>, dist: seq<nat>, bits: seq<bit>, pos: nat, out: seq<byte>): (r: Result)
    requires pos <= |bits|
    ensures Ends(r, bits, pos)
    decreases |bits| - pos
  {
    match SymbolAt(lit, bits, pos)
    case None => Fail(out)
    case Some(s) =>
      var p := pos + lit[s];
      if s < 256 then Block(lit, dist, bits, p, out + [s])
      else if s == 256 then Done(out, p)
      else
        match Reference(dist, bits, s - 257, p)
        case None => Fail(out)
        case Some((len, d)) =>
          if d.value > |out| then Fail(out)
          else Block(lit, dist, bits, d.pos, Repeat(out, d.value, len))
  }

  lemma BlockStep(lit: seq<nat>, dist: seq<nat>, bits: seq<bit>, pos: nat, out: seq<byte>)
    requires pos <= |bits|
    ensures Block(lit, dist, bits, pos, out) ==
      match SymbolAt(lit, bits, pos)
      case None => Fail(out)
      case Some(s) =>
        if s < 256 then Block(lit, dist, bits, pos + lit[s], out + [s])
        else if s == 256 then Done(out, pos + lit[s])
        else
          match Reference(dist, bits, s - 257, pos + lit[s])
          case None => Fail(out)
          case Some((len, d)) =>
            if d.value > |out| then Fail(out) else Block(lit, dist, bits, d.pos, Repeat(out, d.value, len))
  {
    hide SymbolAt, Reference, Repeat;
  }

  /** The length and distance of a match whose length symbol is `257 + sym`. */
  ghost function Reference(dist: seq<nat>, bits: seq<bit>, sym: nat, pos: nat): (r: Option<(nat, Num)>)
    ensures r.Some? ==> pos < r.value.1.pos <= |bits| && 1 <= r.value.1.value <= WINDOW
    ensures r.Some? ==> 3 <= r.value.0 <= 258
  {
    match Length(bits, sym, pos)
    case None => None
    case Some(len) =>
      match Distance(dist, bits, len.pos)
      case None => None
      case Some(d) => Some((len.value, d))
  }

  // ---- dynamic tables (section 3.2.7) ----

  function ClenOrder(j: nat): (i: nat)
    requires j < CLEN_SYMS
    ensures i < CLEN_SYMS
  {
    CLEN_ORDER[j]
  }

  function ClenRank(i: nat): (j: nat)
    requires i < CLEN_SYMS
    ensures j < CLEN_SYMS
  {
    CLEN_RANK[i]
  }

  lemma RankInvertsOrder(i: nat)
    requires i < CLEN_SYMS
    ensures ClenRank(ClenOrder(i)) == i && ClenOrder(ClenRank(i)) == i
  {
  }

  function ClenTable(bits: seq<bit>, pos: nat, n: nat): (ls: seq<nat>)
    requires n <= CLEN_SYMS && pos + 3 * n <= |bits|
  {
    seq(CLEN_SYMS, i requires 0 <= i < CLEN_SYMS =>
      if ClenRank(i) < n then Val(bits, pos + 3 * ClenRank(i), 3) else 0)
  }

  /** Extra bits and base of the repeat count of a code length symbol above 15. */
  function RepeatShape(sym: nat): (nat, nat) {
    if sym == 16 then (2, 3) else if sym == 17 then (3, 3) else (7, 11)
  }

  /** The code lengths from `pos` on, `ls` being those already read. */
  ghost function CodeLengths(clen: seq<nat>, bits: seq<bit>, pos: nat, total: nat, ls: seq<nat>)
    : (r: Option<(seq<nat>, nat)>)
    requires pos <= |bits| && |ls| <= total
    ensures r.Some? ==> |r.value.0| == total && pos <= r.value.1 <= |bits|
    decreases total - |ls|
  {
    if |ls| == total then Some((ls, pos))
    else
      match SymbolAt(clen, bits, pos)
      case None => None
      case Some(s) =>
        var p := pos + clen[s];
        if s < 16 then CodeLengths(clen, bits, p, total, ls + [s])
        else if s == 16 && ls == [] then None
        else
          var (extra, base) := RepeatShape(s);
          match WithExtra(bits, base, extra, p)
          case None => None
          case Some(rep) =>
            if |ls| + rep.value > total then None
            else CodeLengths(clen, bits, rep.pos, total,
                             ls + Fill(rep.value, if s == 16 then ls[|ls| - 1] else 0))
  }

  function Fill(n: nat, v: nat): (r: seq<nat>)
    ensures |r| == n
  {
    seq(n, _ => v)
  }

  ghost function Header(bits: seq<bit>, pos: nat): (r: Option<Tables>)
    ensures r.Some? ==> pos < r.value.pos <= |bits|
    ensures r.Some? ==> Acceptable(r.value.lit, LIT_SYMS) && Acceptable(r.value.dist, DIST_SYMS)
    ensures r.Some? ==> |r.value.dist| <= DIST_SYMS
  {
    if pos + 14 > |bits| then None
    else
      var nlit := Val(bits, pos, 5) + 257;
      var ndist := Val(bits, pos + 5, 5) + 1;
      var nclen := Val(bits, pos + 10, 4) + 4;
      if nlit > LIT_MAX || ndist > DIST_SYMS then None else HeaderTables(bits, pos + 14, nlit, ndist, nclen)
  }

  ghost function HeaderTables(bits: seq<bit>, pos: nat, nlit: nat, ndist: nat, nclen: nat): (r: Option<Tables>)
    requires 257 <= nlit
    ensures r.Some? ==> pos <= r.value.pos <= |bits|
    ensures r.Some? ==> Acceptable(r.value.lit, LIT_SYMS) && Acceptable(r.value.dist, DIST_SYMS)
    ensures r.Some? ==> |r.value.dist| == ndist
  {
    if nclen > CLEN_SYMS || pos + 3 * nclen > |bits| then None
    else
      var clen := ClenTable(bits, pos, nclen);
      if !Acceptable(clen, CLEN_SYMS) then None
      else
        match CodeLengths(clen, bits, pos + 3 * nclen, nlit + ndist, [])
        case None => None
        case Some((ls, p)) =>
          if ls[256] == 0 || !Acceptable(ls[..nlit], LIT_SYMS) || !Acceptable(ls[nlit..], DIST_SYMS) then None
          else Some(Tables(ls[..nlit], ls[nlit..], p))
  }

  // ---- fixed tables (section 3.2.6) ----

  function FixedLit(): (ls: seq<nat>) {
    seq(LIT_SYMS, i => if i < 144 then 8 else if i < 256 then 9 else if i < 280 then 7 else 8)
  }

  function FixedDist(): (ls: seq<nat>) {
    seq(DIST_SYMS, _ => 5)
  }

  lemma FixedAcceptable()
    ensures Acceptable(FixedLit(), LIT_SYMS) && Acceptable(FixedDist(), DIST_SYMS)
  {
    var ls, ds := FixedLit(), FixedDist();
    RoomForAll(ls);
    RoomForAll(ds);
    hide Offset, Used;
    Pow2Values();
    assert Pow2(10) == 4 * Pow2(8) && Pow2(15) == 128 * Pow2(8);
    UsedNone(ls);
    UsedStretch(ls, 0, 144, 8, MAX_BITS);
    UsedStretch(ls, 144, 256, 9, MAX_BITS);
    UsedStretch(ls, 256, 280, 7, MAX_BITS);
    UsedStretch(ls, 280, LIT_SYMS, 8, MAX_BITS);
    UsedNone(ds);
    UsedStretch(ds, 0, DIST_SYMS, 5, MAX_BITS);
    assert ls[0] > 0 && ds[0] > 0;
  }

  lemma UsedNone(ls: seq<nat>)
    ensures Used(ls, 0, MAX_BITS) == 0
  {
  }

  // ---- the stream (section 3.2.3) ----

  ghost function OneBlock(kind: nat, bits: seq<bit>, pos: nat, out: seq<byte>): (r: Result)
    requires pos <= |bits|
    ensures Ends(r, bits, pos)
  {
    if kind == 0 then Stored(bits, pos, out)
    else if kind == 1 then Block(FixedLit(), FixedDist(), bits, pos, out)
    else if kind == 2 then
      match Header(bits, pos)
      case None => Fail(out)
      case Some(t) => Block(t.lit, t.dist, bits, t.pos, out)
    else Fail(out)
  }

  ghost function Blocks(bits: seq<bit>, pos: nat, out: seq<byte>): (r: Result)
    requires pos <= |bits|
    ensures Ends(r, bits, pos)
    decreases |bits| - pos
  {
    if pos + 3 > |bits| then Fail(out)
    else
      var r := OneBlock(Val(bits, pos + 1, 2), bits, pos + 3, out);
      if r.Fail? || Val(bits, pos, 1) == 1 then r else Blocks(bits, r.pos, r.out)
  }

  ghost function Inflate(data: seq<byte>): (r: Result) {
    Blocks(ToBits(data), 0, [])
  }

  // ---- what every stretch keeps ----

  /** Decoding only appends, and appends at most 129 bytes for each bit it reads. */
  ghost predicate Grows(r: Result, bits: seq<bit>, pos: nat, out: seq<byte>) {
    var end := if r.Done? then r.pos else |bits|;
    && out <= r.out
    && pos <= end
    && |r.out| - |out| <= 129 * (end - pos)
  }

  lemma {:induction false} CopyGrows(bits: seq<bit>, pos: nat, n: nat, out: seq<byte>)
    requires pos <= |bits|
    ensures Grows(CopyBytes(bits, pos, n, out), bits, pos, out)
    decreases n
  {
    if n != 0 && pos + 8 <= |bits| {
      CopyGrows(bits, pos + 8, n - 1, out + [ByteAt(bits, pos)]);
    }
  }

  lemma {:induction false} BlockGrows(lit: seq<nat>, dist: seq<nat>, bits: seq<bit>, pos: nat, out: seq<byte>)
    requires pos <= |bits|
    ensures Grows(Block(lit, dist, bits, pos, out), bits, pos, out)
    decreases |bits| - pos
  {
    hide Repeat, Reference, SymbolAt;
    match SymbolAt(lit, bits, pos)
    case None =>
    case Some(s) =>
      var p := pos + lit[s];
      if s < 256 {
        BlockGrows(lit, dist, bits, p, out + [s]);
      } else if s != 256 {
        match Reference(dist, bits, s - 257, p)
        case None =>
        case Some((len, d)) =>
          if d.value <= |out| {
            BlockGrows(lit, dist, bits, d.pos, Repeat(out, d.value, len));
          }
      }
  }

  lemma OneBlockGrows(kind: nat, bits: seq<bit>, pos: nat, out: seq<byte>)
    requires pos <= |bits|
    ensures Grows(OneBlock(kind, bits, pos, out), bits, pos, out)
  {
    if kind == 0 {
      var p := NextByte(pos);
      if p + 32 <= |bits| {
        CopyGrows(bits, p + 32, Val(bits, p, 16), out);
      }
    } else if kind == 1 {
      BlockGrows(FixedLit(), FixedDist(), bits, pos, out);
    } else if kind == 2 {
      match Header(bits, pos)
      case None =>
      case Some(t) => BlockGrows(t.lit, t.dist, bits, t.pos, out);
    }
  }

  lemma {:induction false} BlocksGrow(bits: seq<bit>, pos: nat, out: seq<byte>)
    requires pos <= |bits|
    ensures Grows(Blocks(bits, pos, out), bits, pos, out)
    decreases |bits| - pos
  {
    if pos + 3 <= |bits| {
      var r := OneBlock(Val(bits, pos + 1, 2), bits, pos + 3, out);
      OneBlockGrows(Val(bits, pos + 1, 2), bits, pos + 3, out);
      if r.Done? && Val(bits, pos, 1) != 1 {
        BlocksGrow(bits, r.pos, r.out);
      }
    }
  }

  /** No stream, valid or not, expands by more than a factor of 1032. */
  lemma ExpansionBound(data: seq<byte>)
    ensures |Inflate(data).out| <= 1032 * |data|
  {
    BlocksGrow(ToBits(data), 0, []);
  }

  /** A stored block's bytes appear in the output as they stand in the input. */
  lemma {:induction false} StoredVerbatim(data: seq<byte>, k: nat, n: nat, out: seq<byte>)
    requires k + n <= |data|
    ensures CopyBytes(ToBits(data), 8 * k, n, out) == Done(out + data[k..k + n], 8 * (k + n))
    decreases n
  {
    if n != 0 {
      ByteVal(data, k);
      assert ByteAt(ToBits(data), 8 * k) == data[k];
      StoredVerbatim(data, k + 1, n - 1, out + [data[k]]);
      assert out + [data[k]] + data[k + 1..k + n] == out + data[k..k + n];
    }
  }
}
