/** The block decoder and the two entry points. */
module InflateRun {
  import opened Bits
  import opened Huffman
  import opened Deflate
  import opened Inflater

  class Decoder {
    const reader: BitReader
    const sink: Sink
    const litCount: array<nat>
    const litSymbol: array<nat>
    const distCount: array<nat>
    const distSymbol: array<nat>

    ghost predicate Shape() {
      && litCount.Length == distCount.Length == MAX_BITS + 1
      && litSymbol.Length == LIT_SYMS && distSymbol.Length == DIST_SYMS
      && litCount != distCount && litCount != litSymbol && litCount != distSymbol
      && distCount != litSymbol && distCount != distSymbol && litSymbol != distSymbol
    }

    ghost predicate Valid()
      reads reader, sink, sink.win
    {
      && Shape()
      && reader.linear == sink.linear
      && reader.Valid() && sink.Valid()
    }

    constructor (reader: BitReader, sink: Sink)
      requires reader.Valid() && sink.Valid() && reader.linear == sink.linear
      ensures Valid() && this.reader == reader && this.sink == sink
      ensures fresh(litCount) && fresh(litSymbol) && fresh(distCount) && fresh(distSymbol)
    {
      this.reader, this.sink := reader, sink;
      litCount := new nat[MAX_BITS + 1](_ => 0);
      litSymbol := new nat[LIT_SYMS](_ => 0);
      distCount := new nat[MAX_BITS + 1](_ => 0);
      distSymbol := new nat[DIST_SYMS](_ => 0);
    }

    /** How a return code and the state it leaves relate to the pure decoder's `r`. */
    ghost predicate Agrees(ret: Ret, r: Result)
      reads reader, sink
    {
      match ret
      case Ok => r.Done? && sink.out == r.out && !reader.eof && reader.pos == r.pos
      case Corrupt => r.Fail? && sink.out == r.out
      case TooLarge => sink.linear && |sink.out| == sink.win.Length && sink.out < r.out
      case Io => sink.LapRefused() && sink.out < r.out
      case Inval => false
    }

    /** The same of a whole run: the last write may be refused too, and otherwise all of
        the output was written. */
    ghost predicate Ended(ret: Ret, r: Result)
      reads reader, sink
    {
      || (ret == Io && sink.Refused() && r.Done? && sink.out == r.out)
      || (&& Agrees(ret, r)
          && (ret == Ok && !sink.linear ==> sink.winFlushed == sink.winPos && sink.written == sink.out)
          && (ret != Ok ==> sink.winFlushed == 0))
    }

    ghost predicate Ready()
      reads reader, sink, sink.win
    {
      Valid() && !reader.eof && sink.winFlushed == 0
    }

    /** Both codes are loaded. */
    ghost predicate Loaded(lit: seq<nat>, dist: seq<nat>)
      reads litCount, litSymbol, distCount, distSymbol
    {
      && InRange(lit) && InRange(dist)
      && IsTable(litCount[..], litSymbol[..], lit)
      && IsTable(distCount[..], distSymbol[..], dist)
    }

    method Block(ghost lit: seq<nat>, ghost dist: seq<nat>) returns (ret: Ret)
      requires Ready() && Loaded(lit, dist)
      modifies reader, sink, sink.win
      ensures Valid() && sink.winFlushed == 0
      ensures Agrees(ret, old(Deflate.Block(lit, dist, reader.bits, reader.pos, sink.out)))
    {
      hide BitReader.Synced, BitReader.WellFormed, BitReader.Valid, Sink.Valid, Sink.Ring;
      hide SymbolAt, Reference, Repeat, InRange, IsTable, Deflate.Block;
      ghost var bits := reader.bits;
      ghost var r := Deflate.Block(lit, dist, bits, reader.pos, sink.out);
      while true
        invariant Ready() && Loaded(lit, dist)
        invariant r == Deflate.Block(lit, dist, bits, reader.pos, sink.out)
        decreases |bits| - reader.pos
      {
        ghost var out := sink.out;
        BlockStep(lit, dist, bits, reader.pos, sink.out);
        BlockGrows(lit, dist, bits, reader.pos, sink.out);
        var sym := HuffDecode(reader, litCount[..], litSymbol[..], lit);
        if sym < 0 {
          return Corrupt;
        }
        if sym < 256 {
          BlockGrows(lit, dist, bits, reader.pos, out + [sym]);
          ret := sink.PutByte(sym);
          if ret != Ok {
            return;
          }
        } else if sym == 256 {
          return Ok;
        } else {
          var ok, len, d := GetReference(reader, distCount[..], distSymbol[..], dist, sym - 257);
          if !ok {
            return Corrupt;
          }
          if d <= |out| {
            BlockGrows(lit, dist, bits, reader.pos, Repeat(out, d, len));
          }
          ret := sink.PutMatch(d, len);
          if ret != Ok {
            return;
          }
        }
      }
    }

    method Stored() returns (ret: Ret)
      requires Ready()
      modifies reader, sink, sink.win
      ensures Valid() && sink.winFlushed == 0
      ensures Agrees(ret, old(Deflate.Stored(reader.bits, reader.pos, sink.out)))
    {
      hide BitReader.Synced, BitReader.WellFormed, BitReader.Valid, Sink.Valid, Sink.Ring, NextByte, Val;
      ghost var bits := reader.bits;
      reader.Align();
      ghost var p := reader.pos;
      var len := reader.Get(16);
      var nlen := reader.Get(16);
      if reader.eof || len + nlen != 65535 {
        return Corrupt;
      }
      ret := CopyOut(len);
    }

    method CopyOut(n: nat) returns (ret: Ret)
      requires Ready()
      modifies reader, sink, sink.win
      ensures Valid() && sink.winFlushed == 0
      ensures Agrees(ret, old(CopyBytes(reader.bits, reader.pos, n, sink.out)))
    {
      hide BitReader.Synced, BitReader.WellFormed, BitReader.Valid, Sink.Valid, Sink.Ring, ByteAt;
      ghost var bits := reader.bits;
      ghost var r := CopyBytes(bits, reader.pos, n, sink.out);
      var len := n;
      while len > 0
        invariant Ready()
        invariant r == CopyBytes(bits, reader.pos, len, sink.out)
      {
        CopyGrows(bits, reader.pos, len, sink.out);
        ghost var out := sink.out;
        var ok, b := reader.GetByte();
        if !ok {
          return Corrupt;
        }
        CopyGrows(bits, reader.pos, len - 1, out + [b]);
        ret := sink.PutByte(b);
        if ret != Ok {
          return;
        }
        len := len - 1;
      }
      return Ok;
    }

    /** Loads the fixed codes. */
    method LoadFixed() returns (ret: Ret)
      requires Shape()
      modifies litCount, litSymbol, distCount, distSymbol
      ensures ret == Ok && Loaded(FixedLit(), FixedDist())
    {
      hide IsTable, Acceptable, InRange;
      FixedAcceptable();
      var lengths := new nat[LIT_SYMS](_ => 0);
      FillRun(lengths, 0, 144, 8);
      FillRun(lengths, 144, 112, 9);
      FillRun(lengths, 256, 24, 7);
      FillRun(lengths, 280, 8, 8);
      assert lengths[..] == FixedLit();
      var ok := Build(litCount, litSymbol, lengths[..], LIT_SYMS);
      FillRun(lengths, 0, DIST_SYMS, 5);
      assert lengths[..DIST_SYMS] == FixedDist();
      ok := Build(distCount, distSymbol, lengths[..DIST_SYMS], DIST_SYMS);
      return Ok;
    }

    /** Reads the code lengths of a dynamic block and loads its codes. */
    method LoadDynamic() returns (ret: Ret, ghost lit: seq<nat>, ghost dist: seq<nat>)
      requires Shape() && reader.Valid() && !reader.eof
      modifies reader, litCount, litSymbol, distCount, distSymbol
      ensures reader.Valid() && (ret == Ok || ret == Corrupt)
      ensures var h := Header(reader.bits, old(reader.pos));
        if ret == Ok then !reader.eof && h == Some(Tables(lit, dist, reader.pos)) && Loaded(lit, dist)
        else h.None?
    {
      hide BitReader.Synced, BitReader.WellFormed, BitReader.Valid, Sink.Valid, Sink.Ring;
      hide IsTable, Acceptable, InRange, Val, HeaderTables;
      lit, dist := [], [];
      ghost var bits, start := reader.bits, reader.pos;
      var hlit := reader.Get(5);
      var hdist := reader.Get(5);
      var hclen := reader.Get(4);
      if reader.eof {
        return Corrupt, lit, dist;
      }
      ValBound(bits, start + 10, 4);
      Pow2Values();
      var nlit, ndist, nclen := hlit + 257, hdist + 1, hclen + 4;
      if nlit > LIT_MAX || ndist > DIST_SYMS {
        return Corrupt, lit, dist;
      }
      ret, lit, dist := LoadTables(nlit, ndist, nclen);
    }

    /** The same behind the three counts. */
    method LoadTables(nlit: nat, ndist: nat, nclen: nat) returns (ret: Ret, ghost lit: seq<nat>, ghost dist: seq<nat>)
      requires Shape() && reader.Valid() && !reader.eof
      requires 257 <= nlit <= LIT_MAX && ndist <= DIST_SYMS && nclen <= CLEN_SYMS
      modifies reader, litCount, litSymbol, distCount, distSymbol
      ensures reader.Valid() && (ret == Ok || ret == Corrupt)
      ensures var h := HeaderTables(reader.bits, old(reader.pos), nlit, ndist, nclen);
        if ret == Ok then !reader.eof && h == Some(Tables(lit, dist, reader.pos)) && Loaded(lit, dist)
        else h.None?
    {
      hide BitReader.Synced, BitReader.WellFormed, BitReader.Valid, Sink.Valid, Sink.Ring;
      hide IsTable, Acceptable, InRange, CodeLengths, ClenTable;
      lit, dist := [], [];
      var lengths := new nat[LIT_SYMS + DIST_SYMS](_ => 0);
      var ok := ReadLengths(reader, lengths, nlit, ndist, nclen);
      if !ok || lengths[256] == 0 {
        return Corrupt, lit, dist;
      }
      ghost var ls := lengths[..nlit + ndist];
      lit, dist := lengths[..nlit], lengths[nlit..nlit + ndist];
      assert lit == ls[..nlit] && dist == ls[nlit..];
      ok := Build(litCount, litSymbol, lengths[..nlit], LIT_SYMS);
      if !ok {
        return Corrupt, lit, dist;
      }
      ok := Build(distCount, distSymbol, lengths[nlit..nlit + ndist], DIST_SYMS);
      return if ok then Ok else Corrupt, lit, dist;
    }

    method OneBlock(kind: nat) returns (ret: Ret)
      requires Ready()
      modifies reader, sink, sink.win, litCount, litSymbol, distCount, distSymbol
      ensures Valid() && sink.winFlushed == 0
      ensures Agrees(ret, old(Deflate.OneBlock(kind, reader.bits, reader.pos, sink.out)))
    {
      hide BitReader.Synced, BitReader.WellFormed, BitReader.Valid, Sink.Valid, Sink.Ring;
      hide Deflate.Block, Deflate.Stored, Header, FixedLit, FixedDist, IsTable, Acceptable, InRange;
      if kind == 0 {
        ret := Stored();
      } else if kind == 1 {
        ret := LoadFixed();
        ret := Block(FixedLit(), FixedDist());
      } else if kind == 2 {
        ghost var lit, dist;
        ret, lit, dist := LoadDynamic();
        if ret == Ok {
          ret := Block(lit, dist);
        }
      } else {
        ret := Corrupt;
      }
    }

    method Run() returns (ret: Ret)
      requires Ready()
      modifies reader, sink, sink.win, litCount, litSymbol, distCount, distSymbol
      ensures Valid()
      ensures Ended(ret, old(Blocks(reader.bits, reader.pos, sink.out)))
    {
      hide BitReader.Synced, BitReader.WellFormed, BitReader.Valid, Sink.Valid, Sink.Ring;
      hide Deflate.OneBlock, Val;
      ghost var bits := reader.bits;
      ghost var r := Blocks(bits, reader.pos, sink.out);
      var last := 0;
      while last == 0
        invariant Ready()
        invariant last == 0 ==> r == Blocks(bits, reader.pos, sink.out)
        invariant last != 0 ==> r == Done(sink.out, reader.pos)
        decreases |bits| - reader.pos + if last == 0 then 1 else 0
      {
        ghost var pos, out := reader.pos, sink.out;
        last := reader.Get(1);
        var kind := reader.Get(2);
        if reader.eof {
          return Corrupt;
        }
        ValBound(bits, pos, 1);
        ghost var one := Deflate.OneBlock(kind, bits, pos + 3, out);
        if one.Done? {
          BlocksGrow(bits, one.pos, one.out);
        }
        ret := OneBlock(kind);
        if ret != Ok {
          return;
        }
      }
      ret := sink.Flush();
    }
  }

  /** Reads the rest of a match: extra length bits, distance symbol, extra distance
      bits. Running out of input on the way shows up as a missing symbol or as the
      end flag. */
  method GetReference(reader: BitReader, count: seq<nat>, symbol: seq<nat>, ghost dist: seq<nat>, sym: nat)
    returns (ok: bool, len: nat, d: nat)
    requires reader.Valid() && !reader.eof && InRange(dist) && IsTable(count, symbol, dist)
    modifies reader
    ensures reader.Valid()
    ensures var at := Reference(dist, reader.bits, sym, old(reader.pos));
      if ok then !reader.eof && at == Some((len, Num(d, reader.pos))) else at.None?
  {
    hide BitReader.Synced, BitReader.WellFormed, BitReader.Valid, SymbolAt, InRange, IsTable;
    hide LenBase, LenExtra, DistBase, DistExtra, Val;
    if sym >= 29 {
      return false, 0, 0;
    }
    var extra := reader.Get(LenExtra(sym));
    len := LenBase(sym) + extra;
    var dsym := HuffDecode(reader, count, symbol, dist);
    if dsym < 0 || dsym >= DIST_SYMS {
      return false, 0, 0;
    }
    extra := reader.Get(DistExtra(dsym));
    if reader.eof {
      return false, 0, 0;
    }
    d := DistBase(dsym) + extra;
    return true, len, d;
  }

  /** Decodes one symbol by walking the counts, one bit at a time; negative when no
      code is found. Finds exactly the symbol whose code stands in the stream. */
  method HuffDecode(reader: BitReader, count: seq<nat>, symbol: seq<nat>, ghost ls: seq<nat>)
    returns (sym: int)
    requires reader.Valid() && InRange(ls) && IsTable(count, symbol, ls)
    modifies reader
    ensures reader.Valid() && (old(reader.eof) ==> sym < 0)
    ensures !old(reader.eof) ==>
      var at := SymbolAt(ls, reader.bits, old(reader.pos));
      if sym < 0 then at.None?
      else at.Some? && at.value == sym && !reader.eof && reader.pos == old(reader.pos) + ls[sym]
  {
    hide BitReader.Synced, BitReader.WellFormed, BitReader.Valid;
    if reader.eof {
      // The input has ended before: the first bit already fails.
      var _ := reader.Get(1);
      return -1;
    }
    var code, first, index := 0, 0, 0;
    ghost var start, bits := reader.pos, reader.bits;
    WalkStart(ls, bits, start);
    for len := 1 to MAX_BITS + 1
      invariant reader.Valid() && !reader.eof && reader.pos == start + len - 1
      invariant Walk(ls, bits, start, len, code, first, index)
    {
      ghost var at := reader.pos;
      var bit := reader.Get(1);
      if reader.eof {
        WalkMiss(ls, bits, start, len, code, first, index);
        return -1;
      }
      var c := count[len];
      ghost var before := code;
      code := code + bit;
      WalkStep(count, symbol, ls, bits, start, len, before, first, index, at, code, c);
      if code - first < c {
        sym := symbol[index + (code - first)];
        return;
      }
      index := index + c;
      first := (first + c) * 2;
      code := code * 2;
    }
    WalkMiss(ls, bits, start, MAX_BITS + 1, code, first, index);
    return -1;
  }

  /** Writes `n` copies of `v` from index `at` on. */
  method FillRun(a: array<nat>, at: nat, n: nat, v: nat)
    requires at + n <= a.Length
    modifies a
    ensures a[..at + n] == old(a[..at]) + Fill(n, v)
    ensures a[at + n..] == old(a[at + n..])
    ensures forall i :: at <= i < at + n ==> a[i] == v
  {
    for k := 0 to n
      invariant forall i :: 0 <= i < a.Length && !(at <= i < at + k) ==> a[i] == old(a[i])
      invariant forall i :: at <= i < at + k ==> a[i] == v
    {
      a[at + k] := v;
    }
  }

  /** Reads the `n` code length code lengths, sent in their own order. */
  method ReadClen(reader: BitReader, n: nat) returns (lengths: seq<nat>)
    requires reader.Valid() && !reader.eof && n <= CLEN_SYMS
    modifies reader
    ensures reader.Valid()
    ensures !reader.eof ==> reader.pos == old(reader.pos) + 3 * n <= |reader.bits|
    ensures !reader.eof ==> lengths == ClenTable(reader.bits, old(reader.pos), n)
    ensures reader.eof ==> old(reader.pos) + 3 * n > |reader.bits|
  {
    hide BitReader.Synced, BitReader.WellFormed, BitReader.Valid, Val, ClenOrder, ClenRank;
    ghost var bits, start := reader.bits, reader.pos;
    lengths := Fill(CLEN_SYMS, 0);
    for i := 0 to n
      invariant reader.Valid() && |lengths| == CLEN_SYMS
      invariant reader.eof ==> start + 3 * i > |bits|
      invariant !reader.eof ==> reader.pos == start + 3 * i <= |bits|
      invariant !reader.eof ==> lengths == ClenTable(bits, start, i)
    {
      ghost var at := reader.pos;
      var v := reader.Get(3);
      RankInvertsOrder(i);
      forall k | 0 <= k < CLEN_SYMS ensures ClenOrder(ClenRank(k)) == k {
        RankInvertsOrder(k);
      }
      lengths := lengths[ClenOrder(i) := v];
    }
  }

  /** Reads the literal and distance code lengths into `lengths`. */
  method ReadLengths(reader: BitReader, lengths: array<nat>, nlit: nat, ndist: nat, nclen: nat) returns (ok: bool)
    requires reader.Valid() && !reader.eof && nlit + ndist <= lengths.Length && nclen <= CLEN_SYMS
    modifies reader, lengths
    ensures reader.Valid()
    ensures var bits, p := reader.bits, old(reader.pos);
      if p + 3 * nclen > |bits| || !Acceptable(ClenTable(bits, p, nclen), CLEN_SYMS) then !ok
      else
        var at := CodeLengths(ClenTable(bits, p, nclen), bits, p + 3 * nclen, nlit + ndist, []);
        if ok then !reader.eof && at == Some((lengths[..nlit + ndist], reader.pos)) else at.None?
  {
    hide BitReader.Synced, BitReader.WellFormed, BitReader.Valid, IsTable, Acceptable, InRange, CodeLengths, ClenTable;
    ghost var bits, start := reader.bits, reader.pos;
    var clen := ReadClen(reader, nclen);
    if reader.eof {
      return false;
    }
    var count := new nat[MAX_BITS + 1](_ => 0);
    var symbol := new nat[CLEN_SYMS](_ => 0);
    var built := Build(count, symbol, clen, CLEN_SYMS);
    if !built {
      return false;
    }
    ok := ReadRuns(reader, lengths, nlit + ndist, count[..], symbol[..], clen);
  }

  /** Expands the run-length coded code lengths. */
  method ReadRuns(reader: BitReader, lengths: array<nat>, total: nat, count: seq<nat>, symbol: seq<nat>,
                  ghost clen: seq<nat>)
    returns (ok: bool)
    requires reader.Valid() && !reader.eof && total <= lengths.Length
    requires InRange(clen) && IsTable(count, symbol, clen)
    modifies reader, lengths
    ensures reader.Valid()
    ensures var at := CodeLengths(clen, reader.bits, old(reader.pos), total, []);
      if ok then !reader.eof && at == Some((lengths[..total], reader.pos)) else at.None?
  {
    hide BitReader.Synced, BitReader.WellFormed, BitReader.Valid, SymbolAt, InRange, IsTable, Val, Fill;
    ghost var bits := reader.bits;
    ghost var r := CodeLengths(clen, bits, reader.pos, total, []);
    var n, prev := 0, 0;
    assert lengths[..n] == [];
    while n < total
      invariant reader.Valid() && !reader.eof && n <= total
      invariant n > 0 ==> prev == lengths[n - 1]
      invariant r == CodeLengths(clen, bits, reader.pos, total, lengths[..n])
    {
      ghost var ls := lengths[..n];
      var sym := HuffDecode(reader, count, symbol, clen);
      if sym < 0 {
        return false;
      }
      if sym < 16 {
        prev := sym;
        lengths[n] := sym;
        n := n + 1;
        assert lengths[..n] == ls + [sym];
      } else {
        if sym == 16 && n == 0 {
          return false;
        }
        if sym != 16 {
          prev := 0;
        }
        var (extra, base) := RepeatShape(sym);
        var v := reader.Get(extra);
        if reader.eof || n + base + v > total {
          return false;
        }
        FillRun(lengths, n, base + v, prev);
        n := n + base + v;
      }
    }
    return true;
  }

  // ---- the entry points ----

  /** What decoding `data` into a flat buffer of `cap` bytes yields: the decoder's
      verdict, unless the output outgrows the buffer first. */
  ghost predicate FlatOutcome(data: seq<byte>, cap: nat, ret: Ret, text: seq<byte>) {
    var r := Inflate(data);
    if |r.out| > cap then ret == TooLarge && text == []
    else if r.Done? then ret == Ok && text == r.out
    else ret == Corrupt && text == []
  }

  /** How many times a ring of `cap` bytes is handed to the write callback while the
      decoder produces `r`: once for every full ring, before the byte that no longer
      fits, and once for the rest if decoding succeeds. */
  function WriteCalls(r: Result, cap: nat): nat
    requires cap > 0
  {
    if r.out == [] then 0 else (|r.out| - 1) / cap + if r.Done? then 1 else 0
  }

  /** `written` is the first `k` rings of the output. */
  predicate FirstRings(written: seq<byte>, out: seq<byte>, cap: nat, k: nat) {
    |written| == Rings(cap, k) && written <= out
  }

  /** What decoding a chunked stream through a ring of `cap` bytes yields, when the
      callback refuses the call numbered `failAt`. */
  ghost predicate StreamOutcome(script: seq<Read>, cap: nat, failAt: Option<nat>, ret: Ret, len: nat,
                                written: seq<byte>) {
    hide Inflate, Payload;
    var r := Inflate(Payload(script));
    if cap < WINDOW then ret == Inval && written == [] && len == 0
    else if failAt.Some? && failAt.value < WriteCalls(r, cap) then
      ret == Io && len == 0 && FirstRings(written, r.out, cap, failAt.value)
    else if r.Done? then ret == Ok && written == r.out && len == |r.out|
    else
      && (ret == Corrupt || (ret == Io && Error in script)) && len == 0
      && FirstRings(written, r.out, cap, WriteCalls(r, cap))
  }

  /** The last byte of the output is in ring `k`, at position `at - 1`. */
  lemma LastRing(r: Result, cap: nat, k: nat, at: nat)
    requires 0 < at <= cap && |r.out| == Rings(cap, k) + at
    ensures WriteCalls(r, cap) == k + if r.Done? then 1 else 0
  {
    DivUnique(|r.out| - 1, cap, k, at - 1);
  }

  /** An output that goes on past ring `k` fills another. */
  lemma LaterRing(r: Result, cap: nat, k: nat)
    requires cap > 0 && |r.out| > Rings(cap, k) + cap
    ensures WriteCalls(r, cap) > k
  {
    var q := (|r.out| - 1) / cap;
    DivBounds(|r.out| - 1, cap);
    assert q * cap == cap * q;
    if q < k {
      MulGap(cap, q, k);
    }
  }

  lemma NoRings(r: Result, cap: nat)
    requires r.out == [] && cap > 0
    ensures WriteCalls(r, cap) == 0 && Rings(cap, 0) == 0
  {
  }

  /** Decodes a whole buffer into a whole buffer. */
  method InflateBuffer(data: seq<byte>, out: array<byte>) returns (ret: Ret, outLen: nat)
    modifies out
    ensures outLen <= out.Length
    ensures FlatOutcome(data, out.Length, ret, out[..outLen])
  {
    hide Blocks, ToBits, Payload, BitReader.Synced, Sink.Ring;
    if |data| == 0 {
      NothingToDecode();
      return Corrupt, 0;
    }
    var reader := new BitReader.Linear(data);
    var sink := new Sink(true, out, None);
    var decoder := new Decoder(reader, sink);
    ret := decoder.Run();
    outLen := if ret == Ok then sink.winPos else 0;
    assert ret == Ok ==> out[..outLen] == sink.out;
  }

  lemma NothingToDecode()
    ensures Inflate([]) == Fail([])
  {
  }

  /** Decodes a chunked stream through a ring, handing the output to a callback. */
  method InflateStream(window: array<byte>, script: seq<Read>, failAt: Option<nat>)
    returns (ret: Ret, outLen: nat, written: seq<byte>)
    modifies window
    ensures StreamOutcome(script, window.Length, failAt, ret, outLen, written)
  {
    if window.Length < WINDOW {
      return Inval, 0, [];
    }
    var reader := new BitReader.Stream(script);
    var sink := new Sink(false, window, failAt);
    var decoder := new Decoder(reader, sink);
    ret := decoder.Run();
    RunOutcome(decoder, Inflate(Payload(script)), ret);
    if ret != Ok && reader.ioErr {
      ret := Io;
    }
    outLen := if ret == Ok then sink.produced else 0;
    written := sink.written;
  }

  /** Reading `Ended` of a ring as an outcome. */
  lemma RunOutcome(d: Decoder, r: Result, ret: Ret)
    requires d.Valid() && !d.sink.linear && d.Ended(ret, r)
    ensures ret == Ok || ret == Corrupt || ret == Io
    ensures var cap, failAt := d.sink.win.Length, d.sink.failAt;
      && cap > 0 && d.sink.produced == |d.sink.out|
      && (ret == Io <==> failAt.Some? && failAt.value < WriteCalls(r, cap))
      && (ret == Io ==> FirstRings(d.sink.written, r.out, cap, failAt.value))
      && (ret == Ok ==> r.Done? && d.sink.written == r.out == d.sink.out)
      && (ret == Corrupt ==> r.Fail? && FirstRings(d.sink.written, r.out, cap, WriteCalls(r, cap)))
  {
    hide BitReader.Synced, BitReader.WellFormed, BitReader.Valid, Rings, WriteCalls;
    var s, cap := d.sink, d.sink.win.Length;
    if ret == Io && s.LapRefused() && s.out < r.out {
      LaterRing(r, cap, s.writes);
    } else if r.out == [] {
      NoRings(r, cap);
    } else if ret == Ok {
      LastRing(r, cap, s.writes - 1, s.winPos);
    } else {
      LastRing(r, cap, s.writes, s.winPos);
    }
  }

  /** However a stream is cut into chunks, decoding it through any ring of at least
      the window size writes exactly what decoding it in one buffer yields. */
  lemma StreamMatchesBuffer(script: seq<Read>, cap: nat, ringCap: nat, flat: Ret, text: seq<byte>,
                            ring: Ret, len: nat, written: seq<byte>)
    requires ringCap >= WINDOW && |Inflate(Payload(script)).out| <= cap
    requires FlatOutcome(Payload(script), cap, flat, text)
    requires StreamOutcome(script, ringCap, None, ring, len, written)
    ensures flat == Ok <==> ring == Ok
    ensures flat == Ok ==> written == text && len == |text|
    ensures flat != TooLarge
    ensures Error !in script ==> ring == flat
  {
    hide Inflate, WriteCalls;
  }
}
