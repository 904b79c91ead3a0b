/** DEFLATE as section 3.2.7 of RFC 1951 has it, where a block may come without any
    distance code and with up to 32 distance code lengths, and exactly where the
    program's decoder departs from it. */
module DeflateRfc {
  import opened Bits
  import opened Huffman
  import opened Deflate

  // ---- the decoder of the standard ----

  /** The most distance code lengths a header can announce; the last two belong to codes
      that never occur in the data. */
  const RFC_DIST_SYMS := 32

  /** No symbol has a code. */
  ghost predicate NoCodes(ls: seq<nat>) {
    forall s :: 0 <= s < |ls| ==> ls[s] == 0
  }

  ghost function RfcHeader(bits: seq<bit>, pos: nat): (r: Option<Tables>)
    ensures r.Some? ==> pos < r.value.pos <= |bits|
  {
    if pos + 14 > |bits| then None
    else
      var nlit := Val(bits, pos, 5) + 257;
      var ndist := Val(bits, pos + 5, 5) + 1;
      var nclen := Val(bits, pos + 10, 4) + 4;
      if nlit > LIT_MAX then None else RfcTables(bits, pos + 14, nlit, ndist, nclen)
  }

  /** As `HeaderTables`, but an empty distance code is a distance code, and there is room
      for all the distance codes a header can announce. */
  ghost function RfcTables(bits: seq<bit>, pos: nat, nlit: nat, ndist: nat, nclen: nat): (r: Option<Tables>)
    requires 257 <= nlit
    ensures r.Some? ==> pos <= r.value.pos <= |bits|
  {
    if nclen > CLEN_SYMS || pos + 3 * nclen > |bits| then None
    else
      var clen := ClenTable(bits, pos, nclen);
      if !Acceptable(clen, CLEN_SYMS) then None
      else
        match CodeLengths(clen, bits, pos + 3 * nclen, nlit + ndist, [])
        case None => None
        case Some((ls, p)) =>
          if ls[256] == 0 || !Acceptable(ls[..nlit], LIT_SYMS) then None
          else if !Acceptable(ls[nlit..], RFC_DIST_SYMS) && !NoCodes(ls[nlit..]) then None
          else Some(Tables(ls[..nlit], ls[nlit..], p))
  }

  ghost function RfcOneBlock(kind: nat, bits: seq<bit>, pos: nat, out: seq<byte>): (r: Result)
    requires pos <= |bits|
    ensures Ends(r, bits, pos)
  {
    if kind == 2 then
      match RfcHeader(bits, pos)
      case None => Fail(out)
      case Some(t) => Block(t.lit, t.dist, bits, t.pos, out)
    else OneBlock(kind, bits, pos, out)
  }

  ghost function RfcBlocks(bits: seq<bit>, pos: nat, out: seq<byte>): (r: Result)
    requires pos <= |bits|
    ensures Ends(r, bits, pos)
    decreases |bits| - pos
  {
    if pos + 3 > |bits| then Fail(out)
    else
      var r := RfcOneBlock(Val(bits, pos + 1, 2), bits, pos + 3, out);
      if r.Fail? || Val(bits, pos, 1) == 1 then r else RfcBlocks(bits, r.pos, r.out)
  }

  ghost function RfcInflate(data: seq<byte>): (r: Result) {
    RfcBlocks(ToBits(data), 0, [])
  }

  // ---- where the program departs ----

  /** Distance code lengths the program turns down and the standard does not. */
  ghost predicate Refused(dist: seq<nat>) {
    NoCodes(dist) || |dist| > DIST_SYMS
  }

  /** The block at `pos` is dynamic and its header is in order, but it has no distance code
      or announces more than 30 of them. */
  ghost predicate RefusedHere(bits: seq<bit>, pos: nat)
    requires pos + 3 <= |bits|
  {
    Val(bits, pos + 1, 2) == 2 && RfcHeader(bits, pos + 3).Some? && Refused(RfcHeader(bits, pos + 3).value.dist)
  }

  /** Decoding from `pos` comes to such a block. */
  ghost predicate MeetsRefused(bits: seq<bit>, pos: nat, out: seq<byte>)
    requires pos <= |bits|
    decreases |bits| - pos
  {
    && pos + 3 <= |bits|
    && (RefusedHere(bits, pos) ||
        var r := OneBlock(Val(bits, pos + 1, 2), bits, pos + 3, out);
        r.Done? && Val(bits, pos, 1) != 1 && MeetsRefused(bits, r.pos, r.out))
  }

  /** An empty distance code is one the program does not take. */
  lemma EmptyIsRefused(ls: seq<nat>, cap: nat)
    requires NoCodes(ls)
    ensures !Acceptable(ls, cap)
  {
  }

  /** Room for more symbols than there are makes no difference. */
  lemma RoomIsEnough(ls: seq<nat>, cap: nat, more: nat)
    requires |ls| <= cap <= more
    ensures Acceptable(ls, cap) <==> Acceptable(ls, more)
  {
    RoomForAll(ls);
    hide Kraft, Offset;
  }

  lemma TablesAgree(bits: seq<bit>, pos: nat, nlit: nat, ndist: nat, nclen: nat)
    requires 257 <= nlit && ndist <= DIST_SYMS
    ensures var r := RfcTables(bits, pos, nlit, ndist, nclen);
      if r.Some? && NoCodes(r.value.dist) then HeaderTables(bits, pos, nlit, ndist, nclen).None?
      else HeaderTables(bits, pos, nlit, ndist, nclen) == r
  {
    hide CodeLengths, ClenTable, Acceptable, NoCodes;
    if nclen <= CLEN_SYMS && pos + 3 * nclen <= |bits| && Acceptable(ClenTable(bits, pos, nclen), CLEN_SYMS) {
      match CodeLengths(ClenTable(bits, pos, nclen), bits, pos + 3 * nclen, nlit + ndist, [])
      case None =>
      case Some((ls, p)) =>
        RoomIsEnough(ls[nlit..], DIST_SYMS, RFC_DIST_SYMS);
        if NoCodes(ls[nlit..]) {
          EmptyIsRefused(ls[nlit..], DIST_SYMS);
        }
    }
  }

  lemma TablesLength(bits: seq<bit>, pos: nat, nlit: nat, ndist: nat, nclen: nat)
    requires 257 <= nlit
    ensures var r := RfcTables(bits, pos, nlit, ndist, nclen); r.Some? ==> |r.value.dist| == ndist
  {
    hide CodeLengths, ClenTable, Acceptable, NoCodes;
  }

  lemma HeadersAgree(bits: seq<bit>, pos: nat)
    ensures var r := RfcHeader(bits, pos);
      if r.Some? && Refused(r.value.dist) then Header(bits, pos).None? else Header(bits, pos) == r
  {
    hide RfcTables, HeaderTables, NoCodes;
    if pos + 14 <= |bits| {
      var nlit, ndist, nclen := Val(bits, pos, 5) + 257, Val(bits, pos + 5, 5) + 1, Val(bits, pos + 10, 4) + 4;
      TablesLength(bits, pos + 14, nlit, ndist, nclen);
      if ndist <= DIST_SYMS {
        TablesAgree(bits, pos + 14, nlit, ndist, nclen);
      }
    }
  }

  lemma BlockAgrees(bits: seq<bit>, pos: nat, out: seq<byte>)
    requires pos + 3 <= |bits|
    ensures var kind := Val(bits, pos + 1, 2);
      if RefusedHere(bits, pos) then OneBlock(kind, bits, pos + 3, out) == Fail(out)
      else OneBlock(kind, bits, pos + 3, out) == RfcOneBlock(kind, bits, pos + 3, out)
  {
    hide Header, RfcHeader, Block, Refused;
    HeadersAgree(bits, pos + 3);
  }

  lemma {:induction false} BlocksAgree(bits: seq<bit>, pos: nat, out: seq<byte>)
    requires pos <= |bits|
    ensures MeetsRefused(bits, pos, out) ==> Blocks(bits, pos, out).Fail?
    ensures !MeetsRefused(bits, pos, out) ==> Blocks(bits, pos, out) == RfcBlocks(bits, pos, out)
    decreases |bits| - pos
  {
    hide OneBlock, RfcOneBlock, RefusedHere;
    if pos + 3 <= |bits| {
      BlockAgrees(bits, pos, out);
      var r := OneBlock(Val(bits, pos + 1, 2), bits, pos + 3, out);
      if r.Done? && Val(bits, pos, 1) != 1 {
        BlocksAgree(bits, r.pos, r.out);
      }
    }
  }

  /** On every stream: the program accepts exactly what the standard accepts and no block
      without a distance code or with more than 30 distance code lengths is met in, with
      the same output; where none is met the two agree on errors too. */
  lemma AgreesIff(data: seq<byte>)
    ensures var code, rfc, meets := Inflate(data), RfcInflate(data), MeetsRefused(ToBits(data), 0, []);
      && (code.Done? <==> rfc.Done? && !meets)
      && (!meets ==> code == rfc)
      && (rfc.Done? ==> (code == rfc <==> !meets))
  {
    hide Blocks, RfcBlocks, MeetsRefused;
    BlocksAgree(ToBits(data), 0, []);
  }
}
