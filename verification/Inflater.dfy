/** The inflater of LibArchive: a bit reader refilled in chunks, an output window
    that is either the caller's flat buffer or a ring flushed through a callback,
    and the block decoder that drives them. Every method is proved against the
    pure decoder of module Deflate.

    The C program keeps one la_inflate_t; here its input fields, its output fields
    and its tables are three objects. The bit accumulator is a number below
    2^nbits, so that or-ing a byte in at bit nbits is an addition. */
module Inflater {
  import opened Bits
  import opened Huffman
  import opened Deflate

  const IN_BUF := 512

  type Chunk = c: seq<byte> | 1 <= |c| <= IN_BUF witness [0]

  /** What one call of the read callback delivers. */
  datatype Read = Data(chunk: Chunk) | Eof | Error

  datatype Ret = Ok | Inval | Corrupt | TooLarge | Io

  /** The bytes a read callback delivers before it first reports the end. */
  function Payload(script: seq<Read>): seq<byte> {
    if script == [] || !script[0].Data? then [] else script[0].chunk + Payload(script[1..])
  }

  class BitReader {
    const linear: bool
    var inData: seq<byte>
    var inPos: nat
    var script: seq<Read>
    var acc: nat
    var nbits: nat
    var eof: bool
    var ioErr: bool

    ghost const input: seq<byte>
    ghost const bits: seq<bit>
    ghost const calls: seq<Read>
    ghost var pos: nat
    ghost var fetched: nat

    /** The accumulator holds the bits between `pos` and the next byte to fetch. */
    ghost predicate Synced()
      reads this
    {
      && pos + nbits == 8 * fetched
      && fetched <= |input| && |bits| == 8 * |input|
      && inPos <= |inData|
      && acc == Val(bits, pos, nbits)
      && input[fetched..] == inData[inPos..] + if linear then [] else Payload(script)
    }

    ghost predicate WellFormed()
      reads this
    {
      && bits == ToBits(input)
      && inPos <= |inData|
      && acc < Pow2(nbits)
      && pos <= |bits|
      && (!eof ==> Synced())
      && (forall r :: r in script ==> r in calls)
      && (ioErr ==> eof && Error in calls)
    }

    ghost predicate Valid()
      reads this
      ensures Valid() ==> pos <= |bits|
    {
      WellFormed() && nbits < 8
    }

    constructor Linear(data: seq<byte>)
      ensures Valid() && !eof && pos == 0
      ensures linear && input == data && calls == []
    {
      linear, inData, inPos, script := true, data, 0, [];
      acc, nbits, eof, ioErr := 0, 0, false, false;
      input, bits, calls, pos, fetched := data, ToBits(data), [], 0, 0;
      new;
      assert inData[inPos..] == data;
    }

    constructor Stream(script: seq<Read>)
      ensures Valid() && !eof && pos == 0
      ensures !linear && input == Payload(script) && calls == script
    {
      linear, inData, inPos, this.script := false, [], 0, script;
      acc, nbits, eof, ioErr := 0, 0, false, false;
      input, bits, calls, pos, fetched := Payload(script), ToBits(Payload(script)), script, 0, 0;
      new;
      assert inData[inPos..] + Payload(script) == Payload(script);
    }

    /** Makes at least `n` bits available, or notes the end of the input. */
    method Refill(n: nat)
      requires Valid() && n <= 16
      modifies this
      ensures WellFormed() && n <= nbits < n + 8
      ensures pos == old(pos) && (old(eof) ==> eof)
      ensures !old(eof) ==> (eof <==> pos + n > |bits|)
    {
      while nbits < n
        invariant WellFormed() && nbits < n + 8
        invariant pos == old(pos) && eof == old(eof)
        decreases n - nbits
      {
        if inPos >= |inData| {
          var more := Fetch();
          if !more {
            Pow2Monotone(nbits, n);
            eof, nbits := true, n;
            return;
          }
        }
        AddByte();
      }
    }

    /** Asks for the next chunk of input when the current one is used up. */
    method Fetch() returns (more: bool)
      requires WellFormed() && inPos == |inData|
      modifies this`inData, this`inPos, this`script, this`ioErr
      ensures more ==> WellFormed() && inPos < |inData|
      ensures !more && !eof ==> fetched == |input|
      ensures !more ==> bits == ToBits(input) && inPos <= |inData| && acc < Pow2(nbits) && pos <= |bits|
      ensures !more ==> (forall r :: r in script ==> r in calls) && (ioErr ==> Error in calls)
      ensures !more && !eof ==> pos + nbits == |bits|
    {
      if linear {
        return false;
      }
      var got := if script == [] then Eof else script[0];
      script := if script == [] then [] else script[1..];
      if !got.Data? {
        ioErr := ioErr || got.Error?;
        return false;
      }
      inData, inPos := got.chunk, 0;
      return true;
    }

    /** Appends the next byte of the current chunk to the accumulator. */
    method AddByte()
      requires WellFormed() && inPos < |inData|
      modifies this`acc, this`inPos, this`nbits, this`fetched
      ensures WellFormed() && nbits == old(nbits) + 8
    {
      var b := inData[inPos];
      AppendByte(acc, b, nbits);
      hide Pow2, Val, ToBits, Payload, Shifted;
      if !eof {
        NextInput();
      }
      acc := acc + Shifted(b, nbits);
      inPos := inPos + 1;
      nbits := nbits + 8;
      fetched := fetched + 1;
    }

    /** The next byte of the chunk is the next byte of the input. */
    lemma NextInput()
      requires WellFormed() && !eof && inPos < |inData|
      ensures fetched < |input|
      ensures acc + Shifted(inData[inPos], nbits) == Val(bits, pos, nbits + 8)
      ensures input[fetched + 1..] == inData[inPos + 1..] + if linear then [] else Payload(script)
    {
      var rest := if linear then [] else Payload(script);
      assert input[fetched..][0] == inData[inPos];
      assert input[fetched..][1..] == inData[inPos + 1..] + rest;
      AppendVal(input, pos, nbits, fetched);
    }

    /** Takes the next `n` bits as a number, low bit first. */
    method Get(n: nat) returns (v: nat)
      requires Valid() && n <= 16
      modifies this
      ensures Valid() && (old(eof) ==> eof)
      ensures !eof ==> pos == old(pos) + n <= |bits| && v == Val(bits, old(pos), n)
      ensures eof && !old(eof) ==> old(pos) + n > |bits|
    {
      if n == 0 {
        return 0;
      }
      Refill(n);
      v := Take(n);
    }

    /** Cuts `n` available bits off the accumulator. */
    method Take(n: nat) returns (v: nat)
      requires WellFormed() && n <= nbits
      modifies this`acc, this`nbits, this`pos
      ensures WellFormed() && nbits == old(nbits) - n
      ensures !eof ==> old(pos) + n <= |bits| && pos == old(pos) + n && v == Val(bits, old(pos), n)
    {
      var hi;
      v, hi := SplitLow(acc, n);
      Cut(n, v, hi);
      acc := hi;
      nbits := nbits - n;
      pos := if eof then pos else pos + n;
    }

    /** What splitting `n` bits off the accumulator yields. */
    lemma Cut(n: nat, lo: nat, hi: nat)
      requires WellFormed() && n <= nbits
      requires acc == Pow2(n) * hi + lo && lo < Pow2(n)
      ensures hi < Pow2(nbits - n)
      ensures !eof ==> pos + n <= |bits| && lo == Val(bits, pos, n) && hi == Val(bits, pos + n, nbits - n)
    {
      hide Pow2, Val;
      HighPart(n, nbits - n, lo, hi);
      if !eof {
        ValSplit(bits, pos, n, nbits - n);
        ValBound(bits, pos, n);
        QuotientUnique(Pow2(n), hi, lo, Val(bits, pos + n, nbits - n), Val(bits, pos, n));
      }
    }

    /** Skips to the next byte boundary. */
    method Align()
      requires Valid() && !eof
      modifies this
      ensures Valid() && !eof && pos == NextByte(old(pos))
    {
      hide Synced, WellFormed, NextByte;
      Ahead();
      var drop := nbits % 8;
      NextByteIs(pos, drop, fetched);
      var _ := Take(drop);
    }

    lemma Ahead()
      requires WellFormed() && !eof
      ensures pos + nbits == 8 * fetched
    {
      hide Val, Pow2, ToBits, Payload;
    }

    method GetByte() returns (ok: bool, b: byte)
      requires Valid() && !eof
      modifies this
      ensures Valid()
      ensures ok <==> old(pos) + 8 <= |bits|
      ensures ok ==> !eof && pos == old(pos) + 8 && b == ByteAt(bits, old(pos))
    {
      hide Synced, WellFormed, Val, Pow2, ToBits;
      var v := Get(8);
      if eof {
        return false, 0;
      }
      ghost var _ := ByteAt(bits, old(pos));
      return true, v % 256;
    }
  }

  /** The low `n` bits of a number and what is left above them. */
  method SplitLow(x: nat, n: nat) returns (lo: nat, hi: nat)
    ensures lo < Pow2(n) && x == Pow2(n) * hi + lo
  {
    hide Pow2;
    var d := Pow2(n);
    lo, hi := x % d, x / d;
  }

  /** A byte above `n` bits. */
  function Shifted(b: byte, n: nat): nat {
    b * Pow2(n)
  }

  lemma AppendByte(acc: nat, b: byte, n: nat)
    requires acc < Pow2(n)
    ensures acc + Shifted(b, n) < Pow2(n + 8)
  {
    Pow2Add(n, 8);
    Pow2Values();
    MulMonotone(b, 255, Pow2(n));
  }

  lemma HighPart(n: nat, m: nat, lo: nat, hi: nat)
    requires Pow2(n) * hi + lo < Pow2(n + m)
    ensures hi < Pow2(m)
  {
    hide Pow2;
    Pow2Add(n, m);
    if hi >= Pow2(m) {
      MulMonotone(Pow2(m), hi, Pow2(n));
    }
  }

  class Sink {
    const linear: bool
    const win: array<byte>
    const failAt: Option<nat>
    var winPos: nat
    var winFlushed: nat
    var produced: nat
    var written: seq<byte>
    var writes: nat

    ghost var out: seq<byte>
    ghost var base: nat

    /** The window holds the tail of the output: the current lap below `winPos`, and
        above it the part of the lap before that is not yet overwritten. */
    ghost predicate Valid()
      reads this, win
    {
      && winFlushed <= winPos <= win.Length
      && produced == |out| == base + winPos
      && (forall k :: 0 <= k < winPos ==> win[k] == out[base + k])
      && (linear ==> base == 0 && winFlushed == 0)
      && (!linear ==> Ring())
    }

    ghost predicate Ring()
      requires produced == |out| == base + winPos && winFlushed <= winPos <= win.Length
      reads this, win
    {
      && win.Length >= WINDOW
      && (base == 0 || win.Length <= base)
      && (base > 0 ==> winPos > 0 && forall k :: winPos <= k < win.Length ==> win[k] == out[base - win.Length + k])
      && written == out[..base + winFlushed]
      && (failAt.Some? ==> writes <= failAt.value)
      && (winFlushed == 0 ==> base == Rings(win.Length, writes))
      && (winFlushed > 0 ==> winFlushed == winPos && writes > 0 && base == Rings(win.Length, writes - 1))
    }

    /** The write callback refuses what the ring holds now. */
    ghost predicate Refused()
      reads this
    {
      !linear && failAt == Some(writes) && winFlushed == 0 && winPos > 0
    }

    constructor (linear: bool, win: array<byte>, failAt: Option<nat>)
      requires !linear ==> win.Length >= WINDOW
      ensures Valid() && out == [] && written == [] && winFlushed == 0
      ensures this.linear == linear && this.win == win && this.failAt == failAt
    {
      this.linear, this.win, this.failAt := linear, win, failAt;
      winPos, winFlushed, produced, written, writes := 0, 0, 0, [], 0;
      out, base := [], 0;
    }

    /** What the ring holds is what is not written yet. */
    lemma RingTail()
      requires Valid() && !linear && winFlushed == 0
      ensures written + win[0..winPos] == out && out[..base + winPos] == out
    {
      hide Rings;
      assert out == out[..base] + out[base..];
      assert win[0..winPos] == out[base..];
    }

    /** Hands what the ring gained since the last flush to the write callback, which
        accepts all calls but the one numbered `failAt`. */
    method Flush() returns (ret: Ret)
      requires Valid() && winFlushed == 0
      modifies this
      ensures Valid() && out == old(out) && winPos == old(winPos) && base == old(base)
      ensures ret == Ok || (ret == Io && Refused())
      ensures ret == Io ==> writes == old(writes)
      ensures ret == Ok && !linear ==> winFlushed == winPos && written == out
    {
      hide Rings;
      if linear || winPos <= winFlushed {
        return Ok;
      }
      if failAt == Some(writes) {
        return Io;
      }
      HandOver();
      return Ok;
    }

    /** A call the callback accepts. */
    method HandOver()
      requires Valid() && !linear && winFlushed == 0 < winPos && failAt != Some(writes)
      modifies this`written, this`writes, this`winFlushed
      ensures Valid() && winFlushed == winPos && written == out
    {
      hide Rings;
      RingTail();
      written := written + win[winFlushed..winPos];
      writes := writes + 1;
      winFlushed := winPos;
    }

    /** The callback refuses a full ring. */
    ghost predicate LapRefused()
      reads this
    {
      Refused() && winPos == win.Length
    }

    method PutByte(b: byte) returns (ret: Ret)
      requires Valid() && winFlushed == 0
      modifies this, win
      ensures Valid() && winFlushed == 0
      ensures ret == Ok ==> out == old(out) + [b]
      ensures ret != Ok ==> out == old(out)
      ensures ret == Ok || (ret == TooLarge && linear && |out| == win.Length) || (ret == Io && LapRefused())
    {
      hide Rings;
      if winPos >= win.Length {
        if linear {
          return TooLarge;
        }
        ret := Flush();
        if ret != Ok {
          return;
        }
        StartLap(b);
      } else {
        Store(b);
      }
      return Ok;
    }

    /** Stores a byte in front of the write position. */
    method Store(b: byte)
      requires Valid() && winFlushed == 0 && winPos < win.Length
      modifies this, win
      ensures Valid() && winFlushed == 0 && out == old(out) + [b]
    {
      hide Rings;
      win[winPos] := b;
      winPos := winPos + 1;
      produced := produced + 1;
      out := out + [b];
    }

    /** Goes back to the start of a ring that has been written out, and stores a byte there. */
    method StartLap(b: byte)
      requires Valid() && !linear && winFlushed == winPos == win.Length && written == out
      modifies this, win
      ensures Valid() && winFlushed == 0 && out == old(out) + [b]
    {
      hide Rings;
      NextRing(win.Length, writes - 1);
      base := base + win.Length;
      winPos, winFlushed := 0, 0;
      win[winPos] := b;
      winPos := winPos + 1;
      produced := produced + 1;
      out := out + [b];
    }

    /** The window cell `dist` bytes back holds the byte `dist` back in the output. */
    lemma LookBack(dist: nat)
      requires Valid() && 1 <= dist <= |out| && dist <= WINDOW
      ensures win.Length > 0
      ensures var from := (winPos + win.Length - dist) % win.Length;
        win[from] == out[|out| - dist]
    {
      hide Rings;
      var cap := win.Length;
      assert cap > 0;
      if dist <= winPos {
        WrapOnce(winPos - dist, cap);
        assert winPos + cap - dist == winPos - dist + cap;
      } else {
        NoWrap(winPos + cap - dist, cap);
        assert win[winPos + cap - dist] == out[base - dist + winPos];
      }
    }

    /** Repeats `len` bytes from `dist` back, reading bytes it has just written when
        the two stretches overlap. */
    method PutMatch(dist: nat, len: nat) returns (ret: Ret)
      requires Valid() && winFlushed == 0
      modifies this, win
      ensures Valid() && winFlushed == 0
      ensures dist == 0 || dist > |old(out)| || dist > WINDOW <==> ret == Corrupt
      ensures ret == Corrupt ==> out == old(out)
      ensures ret == Ok ==> out == Repeat(old(out), dist, len)
      ensures ret == TooLarge ==> linear && |out| == win.Length && out < Repeat(old(out), dist, len)
      ensures ret == Io ==> LapRefused() && out < Repeat(old(out), dist, len)
      ensures ret != Inval
    {
      hide Repeat, Ring, Refused, LapRefused;
      if dist == 0 || dist > produced || dist > WINDOW {
        return Corrupt;
      }
      ghost var whole := Repeat(out, dist, len);
      for k := 0 to len
        invariant Valid() && winFlushed == 0 && |out| == |old(out)| + k && out <= whole
      {
        LookBack(dist);
        RepeatStep(old(out), dist, len, k);
        var from := (winPos + win.Length - dist) % win.Length;
        ret := PutByte(win[from]);
        if ret != Ok {
          return;
        }
      }
      return Ok;
    }
  }

  /** The size of `n` full rings of `cap` bytes. */
  function Rings(cap: nat, n: nat): nat {
    cap * n
  }

  lemma NextRing(cap: nat, n: nat)
    ensures Rings(cap, n + 1) == Rings(cap, n) + cap
  {
  }

  lemma NoWrap(x: nat, n: nat)
    requires x < n
    ensures x % n == x
  {
    DivUnique(x, n, 0, x);
  }

  lemma WrapOnce(x: nat, n: nat)
    requires x < n
    ensures (x + n) % n == x
  {
    DivUnique(x + n, n, 1, x);
  }

  /** Each byte of a repeated stretch equals the one `dist` before it. */
  lemma RepeatStep(out: seq<byte>, dist: nat, len: nat, k: nat)
    requires 1 <= dist <= |out| && k < len
    ensures Repeat(out, dist, len)[|out| + k] == Repeat(out, dist, len)[|out| + k - dist]
  {
    if k >= dist {
      assert k == dist * (k / dist) + k % dist;
      DivUnique(k - dist, dist, k / dist - 1, k % dist);
    } else {
      DivUnique(k, dist, 0, k);
    }
  }
}
