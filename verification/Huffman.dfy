/** Canonical Huffman codes: the code RFC 1951 assigns to a table of code lengths
    (section 3.2.2), and the count/symbol tables the decoder walks instead. */
module Huffman {
  import opened Bits

  const MAX_BITS := 15

  /** How many of the first `n` symbols have code length `l`. */
  function Count(ls: seq<nat>, n: nat, l: nat): (c: nat)
    requires n <= |ls|
    ensures c <= n
  {
    if n == 0 then 0 else Count(ls, n - 1, l) + if ls[n - 1] == l then 1 else 0
  }

  function OfLength(ls: seq<nat>, l: nat): nat {
    Count(ls, |ls|, l)
  }

  /** The first code of length `l`: step 2 of the algorithm in section 3.2.2. */
  function First(ls: seq<nat>, l: nat): nat
    requires l >= 1
  {
    if l == 1 then 0 else 2 * (First(ls, l - 1) + OfLength(ls, l - 1))
  }

  /** The code of symbol `s`: step 3 of the algorithm in section 3.2.2. */
  function Code(ls: seq<nat>, s: nat): nat
    requires s < |ls| && ls[s] > 0
  {
    First(ls, ls[s]) + Count(ls, s, ls[s])
  }

  /** Codes of length at most `l` of the first `n` symbols, each weighted by the
      number of `l`-bit strings it is a prefix of. */
  function Used(ls: seq<nat>, n: nat, l: nat): nat
    requires n <= |ls|
  {
    if n == 0 then 0
    else Used(ls, n - 1, l) + if 0 < ls[n - 1] <= l then Pow2(l - ls[n - 1]) else 0
  }

  ghost predicate InRange(ls: seq<nat>) {
    forall s :: 0 <= s < |ls| ==> ls[s] <= MAX_BITS
  }

  /** A length table a prefix code exists for: some symbol has a code and the
      Kraft sum does not exceed one (scaled here by 2^15). */
  ghost predicate Kraft(ls: seq<nat>) {
    && InRange(ls)
    && (exists s :: 0 <= s < |ls| && ls[s] > 0)
    && Used(ls, |ls|, MAX_BITS) <= Pow2(MAX_BITS)
  }

  /** Symbol `s` is what the bits at `pos` say. */
  ghost predicate Matches(ls: seq<nat>, bits: seq<bit>, pos: nat, s: nat) {
    && s < |ls| && ls[s] > 0
    && pos + ls[s] <= |bits|
    && Msb(bits, pos, ls[s]) == Code(ls, s)
  }

  /** The symbol among the first `n` whose code stands at `pos`. */
  ghost function Find(ls: seq<nat>, bits: seq<bit>, pos: nat, n: nat): (r: Option<nat>)
    requires n <= |ls|
    ensures r.Some? ==> r.value < n && Matches(ls, bits, pos, r.value)
    ensures r.None? ==> forall s :: 0 <= s < n ==> !Matches(ls, bits, pos, s)
  {
    if n == 0 then None
    else if Matches(ls, bits, pos, n - 1) then Some(n - 1)
    else Find(ls, bits, pos, n - 1)
  }

  /** The symbol at `pos`, if some code is found there. */
  ghost function SymbolAt(ls: seq<nat>, bits: seq<bit>, pos: nat): (r: Option<nat>)
    ensures r.Some? ==> Matches(ls, bits, pos, r.value)
  {
    Find(ls, bits, pos, |ls|)
  }

  // ---- counting ----

  lemma {:induction false} CountMonotone(ls: seq<nat>, m: nat, n: nat, l: nat)
    requires m <= n <= |ls|
    ensures Count(ls, m, l) <= Count(ls, n, l)
    ensures m < n && ls[m] == l ==> Count(ls, m, l) < Count(ls, n, l)
    decreases n
  {
    if m < n {
      CountMonotone(ls, m, n - 1, l);
    }
  }

  /** The `k`-th symbol (from zero) among those of length `l`. */
  lemma {:induction false} Nth(ls: seq<nat>, n: nat, l: nat, k: nat) returns (s: nat)
    requires n <= |ls| && k < Count(ls, n, l)
    ensures s < n && ls[s] == l && Count(ls, s, l) == k
  {
    if k == Count(ls, n - 1, l) {
      s := n - 1;
    } else {
      s := Nth(ls, n - 1, l, k);
    }
  }

  lemma {:induction false} UsedStep(ls: seq<nat>, n: nat, l: nat)
    requires n <= |ls|
    ensures Used(ls, n, l + 1) == 2 * Used(ls, n, l) + Count(ls, n, l + 1)
  {
    if n != 0 {
      UsedStep(ls, n - 1, l);
    }
  }

  lemma {:induction false} UsedZero(ls: seq<nat>, n: nat)
    requires n <= |ls|
    ensures Used(ls, n, 0) == 0
  {
    if n != 0 {
      UsedZero(ls, n - 1);
    }
  }

  /** The codes of length `l` end where the weight of all codes up to `l` says. */
  lemma {:induction false} FirstIsUsed(ls: seq<nat>, l: nat)
    requires l >= 1
    ensures First(ls, l) + OfLength(ls, l) == Used(ls, |ls|, l)
    ensures First(ls, l) == 2 * Used(ls, |ls|, l - 1)
  {
    UsedStep(ls, |ls|, l - 1);
    if l == 1 {
      UsedZero(ls, |ls|);
    } else {
      FirstIsUsed(ls, l - 1);
    }
  }

  /** Over-subscription at a short length persists at every longer one. */
  lemma {:induction false} OverflowPersists(ls: seq<nat>, l: nat, m: nat)
    requires l <= m
    requires Used(ls, |ls|, l) > Pow2(l)
    ensures Used(ls, |ls|, m) > Pow2(m)
    decreases m
  {
    if l < m {
      OverflowPersists(ls, l, m - 1);
      UsedStep(ls, |ls|, m - 1);
    }
  }

  // ---- the code is a prefix code ----

  /** Once the bits read so far fall below the end of the codes of length `l`,
      every longer reading stays below the first code of its own length. */
  lemma {:induction false} StaysBelow(ls: seq<nat>, bits: seq<bit>, pos: nat, l: nat, m: nat)
    requires 1 <= l < m && pos + m <= |bits|
    requires Msb(bits, pos, l) < First(ls, l) + OfLength(ls, l)
    ensures Msb(bits, pos, m) < First(ls, m)
    decreases m
  {
    if l + 1 < m {
      StaysBelow(ls, bits, pos, l, m - 1);
    }
  }

  lemma CodeBelowEnd(ls: seq<nat>, s: nat)
    requires s < |ls| && ls[s] > 0
    ensures First(ls, ls[s]) <= Code(ls, s) < First(ls, ls[s]) + OfLength(ls, ls[s])
  {
    CountMonotone(ls, s, |ls|, ls[s]);
  }

  /** At most one symbol's code is found at any position. */
  lemma MatchUnique(ls: seq<nat>, bits: seq<bit>, pos: nat, s: nat, t: nat)
    requires Matches(ls, bits, pos, s) && Matches(ls, bits, pos, t)
    ensures s == t
  {
    CodeBelowEnd(ls, s);
    CodeBelowEnd(ls, t);
    if ls[s] < ls[t] {
      StaysBelow(ls, bits, pos, ls[s], ls[t]);
    } else if ls[t] < ls[s] {
      StaysBelow(ls, bits, pos, ls[t], ls[s]);
    } else if s < t {
      CountMonotone(ls, s, t, ls[s]);
    } else if t < s {
      CountMonotone(ls, t, s, ls[s]);
    }
  }

  lemma {:induction false} FirstGrows(ls: seq<nat>, l: nat, m: nat)
    requires 1 <= l < m
    ensures (First(ls, l) + OfLength(ls, l)) * Pow2(m - l) <= First(ls, m)
    decreases m
  {
    if l + 1 < m {
      FirstGrows(ls, l, m - 1);
      MulAssoc(First(ls, l) + OfLength(ls, l), Pow2(m - 1 - l), 2);
    }
  }

  /** Prefix freedom on the codes themselves: the leading bits of a longer code are
      never a shorter code, equally long codes differ, and every code fits its
      length. */
  lemma PrefixFree(ls: seq<nat>, s: nat, t: nat)
    requires Kraft(ls)
    requires s < |ls| && t < |ls| && s != t && 0 < ls[s] <= ls[t]
    ensures Code(ls, s) < Pow2(ls[s])
    ensures Code(ls, t) / Pow2(ls[t] - ls[s]) != Code(ls, s)
  {
    hide Kraft, First, Count;
    CodeBelowEnd(ls, s);
    CodeBelowEnd(ls, t);
    CodeFits(ls, s);
    var d := Pow2(ls[t] - ls[s]);
    if ls[s] < ls[t] {
      FirstGrows(ls, ls[s], ls[t]);
      QuotientAtLeast(Code(ls, t), d, First(ls, ls[s]) + OfLength(ls, ls[s]));
    } else {
      assert d == 1;
      if s < t {
        CountMonotone(ls, s, t, ls[s]);
      } else {
        CountMonotone(ls, t, s, ls[s]);
      }
    }
  }

  lemma CodeFits(ls: seq<nat>, s: nat)
    requires Kraft(ls) && s < |ls| && ls[s] > 0
    ensures Code(ls, s) < Pow2(ls[s])
  {
    CodeBelowEnd(ls, s);
    FirstIsUsed(ls, ls[s]);
    if Used(ls, |ls|, ls[s]) > Pow2(ls[s]) {
      OverflowPersists(ls, ls[s], MAX_BITS);
    }
  }

  lemma QuotientAtLeast(x: nat, d: nat, q: nat)
    requires d > 0 && q * d <= x
    ensures x / d >= q
  {
    if x / d < q {
      MulGap(d, x / d, q);
    }
  }

  // ---- encoding and decoding back ----

  /** The `n` low bits of `c`, most significant first. */
  function CodeBits(c: nat, n: nat): (r: seq<bit>)
    ensures |r| == n
  {
    if n == 0 then [] else CodeBits(c / 2, n - 1) + [c % 2]
  }

  function Encode(ls: seq<nat>, msg: seq<nat>): seq<bit>
    requires forall i :: 0 <= i < |msg| ==> msg[i] < |ls| && ls[msg[i]] > 0
  {
    if msg == [] then [] else CodeBits(Code(ls, msg[0]), ls[msg[0]]) + Encode(ls, msg[1..])
  }

  /** The next `n` symbols from `pos` on. */
  ghost function Decode(ls: seq<nat>, bits: seq<bit>, pos: nat, n: nat): Option<seq<nat>>
    decreases n
  {
    if n == 0 then Some([])
    else
      match SymbolAt(ls, bits, pos)
      case None => None
      case Some(s) =>
        match Decode(ls, bits, pos + ls[s], n - 1)
        case None => None
        case Some(rest) => Some([s] + rest)
  }

  /** Reading from a longer string is reading from the slice itself. */
  lemma {:induction false} MsbSlice(bits: seq<bit>, pos: nat, n: nat)
    requires pos + n <= |bits|
    ensures Msb(bits, pos, n) == Msb(bits[pos..pos + n], 0, n)
    decreases n
  {
    if n != 0 {
      var w := bits[pos..pos + n];
      MsbSlice(bits, pos, n - 1);
      MsbSlice(w, 0, n - 1);
      assert w[0..0 + (n - 1)] == bits[pos..pos + (n - 1)];
    }
  }

  lemma {:induction false} MsbOfCode(c: nat, n: nat)
    requires c < Pow2(n)
    ensures Msb(CodeBits(c, n), 0, n) == c
  {
    if n != 0 {
      MsbOfCode(c / 2, n - 1);
      MsbSlice(CodeBits(c, n), 0, n - 1);
      assert CodeBits(c, n)[0..0 + (n - 1)] == CodeBits(c / 2, n - 1);
    }
  }

  /** Whatever stands around it, a symbol's own code decodes to that symbol. */
  lemma OwnCode(ls: seq<nat>, s: nat, bits: seq<bit>, pos: nat)
    requires Kraft(ls) && s < |ls| && ls[s] > 0
    requires pos + ls[s] <= |bits| && bits[pos..pos + ls[s]] == CodeBits(Code(ls, s), ls[s])
    ensures SymbolAt(ls, bits, pos) == Some(s)
  {
    CodeFits(ls, s);
    MsbOfCode(Code(ls, s), ls[s]);
    MsbSlice(bits, pos, ls[s]);
    assert Matches(ls, bits, pos, s);
    MatchUnique(ls, bits, pos, s, SymbolAt(ls, bits, pos).value);
  }

  lemma FrontOf(a: seq<bit>, b: seq<bit>, bits: seq<bit>, pos: nat)
    requires pos <= |bits| && a + b <= bits[pos..]
    ensures pos + |a| <= |bits| && bits[pos..pos + |a|] == a && b <= bits[pos + |a|..]
  {
    var rest := bits[pos..];
    assert bits[pos..pos + |a|] == rest[..|a|] == (a + b)[..|a|];
    assert bits[pos + |a|..] == rest[|a|..] && (a + b)[|a|..] == b;
  }

  /** Every message encoded with an accepted code decodes back to itself. */
  lemma {:induction false} DecodeInvertsEncode(ls: seq<nat>, msg: seq<nat>, bits: seq<bit>, pos: nat)
    requires Kraft(ls)
    requires forall i :: 0 <= i < |msg| ==> msg[i] < |ls| && ls[msg[i]] > 0
    requires pos <= |bits| && Encode(ls, msg) <= bits[pos..]
    ensures Decode(ls, bits, pos, |msg|) == Some(msg)
    decreases |msg|
  {
    hide SymbolAt, Code, CodeBits, Kraft;
    if msg != [] {
      var s, n := msg[0], ls[msg[0]];
      FrontOf(CodeBits(Code(ls, s), n), Encode(ls, msg[1..]), bits, pos);
      OwnCode(ls, s, bits, pos);
      DecodeInvertsEncode(ls, msg[1..], bits, pos + n);
      assert msg == [s] + msg[1..];
    }
  }

  // ---- the decoder's tables ----

  /** Where the symbols of length `l` start in the symbol table. */
  function Offset(ls: seq<nat>, l: nat): nat
    requires l >= 1
  {
    if l == 1 then 0 else Offset(ls, l - 1) + OfLength(ls, l - 1)
  }

  function Slot(ls: seq<nat>, s: nat): nat
    requires s < |ls| && ls[s] > 0
  {
    Offset(ls, ls[s]) + Count(ls, s, ls[s])
  }

  ghost predicate IsTable(count: seq<nat>, symbol: seq<nat>, ls: seq<nat>) {
    && |count| == MAX_BITS + 1
    && (forall l :: 1 <= l <= MAX_BITS ==> count[l] == OfLength(ls, l))
    && Placed(symbol, ls, |ls|)
  }

  /** The coded symbols among the first `n` stand in their slots. */
  ghost predicate Placed(symbol: seq<nat>, ls: seq<nat>, n: nat)
    requires n <= |ls|
  {
    forall s {:trigger Slot(ls, s)} :: 0 <= s < n && ls[s] > 0 ==> Slot(ls, s) < |symbol| && symbol[Slot(ls, s)] == s
  }

  /** Where the next symbol of each length goes after the first `n`. */
  ghost predicate NextSlots(offs: seq<nat>, ls: seq<nat>, n: nat)
    requires n <= |ls|
  {
    && |offs| == MAX_BITS + 2
    && forall l :: 1 <= l <= MAX_BITS ==> offs[l] == Offset(ls, l) + Count(ls, n, l)
  }

  /** What `Build` accepts. */
  ghost predicate Acceptable(ls: seq<nat>, cap: nat)
    ensures Acceptable(ls, cap) ==> InRange(ls)
  {
    Kraft(ls) && Offset(ls, MAX_BITS + 1) <= cap
  }

  lemma {:induction false} OffsetGrows(ls: seq<nat>, l: nat, m: nat)
    requires 1 <= l < m
    ensures Offset(ls, l) + OfLength(ls, l) <= Offset(ls, m)
    decreases m
  {
    if l + 1 < m {
      OffsetGrows(ls, l, m - 1);
    }
  }

  lemma SlotInjective(ls: seq<nat>, s: nat, t: nat)
    requires s < t < |ls| && ls[s] > 0 && ls[t] > 0
    ensures Slot(ls, s) != Slot(ls, t)
  {
    CountMonotone(ls, s, |ls|, ls[s]);
    CountMonotone(ls, t, |ls|, ls[t]);
    if ls[s] < ls[t] {
      OffsetGrows(ls, ls[s], ls[t]);
    } else if ls[t] < ls[s] {
      OffsetGrows(ls, ls[t], ls[s]);
    } else {
      CountMonotone(ls, s, t, ls[s]);
    }
  }

  lemma SlotBelowEnd(ls: seq<nat>, s: nat)
    requires s < |ls| && 0 < ls[s] <= MAX_BITS
    ensures Slot(ls, s) < Offset(ls, MAX_BITS + 1)
  {
    CountMonotone(ls, s, |ls|, ls[s]);
    OffsetGrows(ls, ls[s], MAX_BITS + 1);
  }

  lemma {:induction false} AllZero(ls: seq<nat>, n: nat)
    requires n <= |ls|
    ensures Count(ls, n, 0) == n <==> forall s :: 0 <= s < n ==> ls[s] == 0
  {
    if n != 0 {
      AllZero(ls, n - 1);
    }
  }

  /** Counts the lengths; fails on one that is too long. */
  method CountLengths(count: array<nat>, lengths: seq<nat>) returns (ok: bool)
    requires count.Length == MAX_BITS + 1
    modifies count
    ensures ok <==> InRange(lengths)
    ensures ok ==> forall l :: 0 <= l <= MAX_BITS ==> count[l] == OfLength(lengths, l)
  {
    for l := 0 to MAX_BITS + 1
      invariant forall k :: 0 <= k < l ==> count[k] == 0
    {
      count[l] := 0;
    }
    for i := 0 to |lengths|
      invariant forall s :: 0 <= s < i ==> lengths[s] <= MAX_BITS
      invariant forall l :: 0 <= l <= MAX_BITS ==> count[l] == Count(lengths, i, l)
    {
      if lengths[i] > MAX_BITS {
        return false;
      }
      count[lengths[i]] := count[lengths[i]] + 1;
    }
    return true;
  }

  /** The running count of unused codes never goes negative exactly when the Kraft
      sum does not exceed one. */
  method CheckKraft(count: array<nat>, ghost ls: seq<nat>) returns (ok: bool)
    requires count.Length == MAX_BITS + 1
    requires forall l :: 1 <= l <= MAX_BITS ==> count[l] == OfLength(ls, l)
    ensures ok <==> Used(ls, |ls|, MAX_BITS) <= Pow2(MAX_BITS)
  {
    var left: int := 1;
    UsedZero(ls, |ls|);
    for i := 1 to MAX_BITS + 1
      invariant left == Pow2(i - 1) - Used(ls, |ls|, i - 1)
      invariant left >= 0
    {
      left := left * 2 - count[i];
      UsedStep(ls, |ls|, i - 1);
      if left < 0 {
        OverflowPersists(ls, i, MAX_BITS);
        return false;
      }
    }
    return true;
  }

  /** Turns the counts into the place where each length's symbols start. */
  method SumOffsets(count: array<nat>, ghost ls: seq<nat>) returns (offs: array<nat>)
    requires count.Length == MAX_BITS + 1
    requires forall l :: 1 <= l <= MAX_BITS ==> count[l] == OfLength(ls, l)
    ensures fresh(offs)
    ensures NextSlots(offs[..], ls, 0) && offs[MAX_BITS + 1] == Offset(ls, MAX_BITS + 1)
  {
    hide Count, OfLength, Offset;
    offs := new nat[MAX_BITS + 2](_ => 0);
    OffsetStart(ls);
    for i := 1 to MAX_BITS + 1
      invariant forall l :: 1 <= l <= i ==> offs[l] == Offset(ls, l)
    {
      OffsetNext(ls, i);
      offs[i + 1] := offs[i] + count[i];
    }
    SlotsStart(offs[..], ls);
  }

  lemma OffsetStart(ls: seq<nat>)
    ensures Offset(ls, 1) == 0
  {
  }

  lemma OffsetNext(ls: seq<nat>, l: nat)
    requires l >= 1
    ensures Offset(ls, l + 1) == Offset(ls, l) + OfLength(ls, l)
  {
    hide OfLength;
  }

  lemma SlotsStart(offs: seq<nat>, ls: seq<nat>)
    requires |offs| == MAX_BITS + 2 && forall l :: 1 <= l <= MAX_BITS + 1 ==> offs[l] == Offset(ls, l)
    ensures NextSlots(offs, ls, 0)
  {
    hide Offset;
  }

  lemma PlaceNone(symbol: seq<nat>, ls: seq<nat>)
    ensures Placed(symbol, ls, 0)
  {
  }

  /** A symbol without a code takes no slot. */
  lemma PassOver(symbol: seq<nat>, offs: seq<nat>, ls: seq<nat>, i: nat)
    requires i < |ls| && ls[i] == 0 && Placed(symbol, ls, i) && NextSlots(offs, ls, i)
    ensures Placed(symbol, ls, i + 1) && NextSlots(offs, ls, i + 1)
  {
    hide Offset, Slot;
  }

  lemma PlaceOne(symbol: seq<nat>, offs: seq<nat>, ls: seq<nat>, i: nat)
    requires i < |ls| && 0 < ls[i] <= MAX_BITS && Offset(ls, MAX_BITS + 1) <= |symbol|
    requires Placed(symbol, ls, i) && NextSlots(offs, ls, i)
    ensures |offs| == MAX_BITS + 2 && offs[ls[i]] == Slot(ls, i) < |symbol|
    ensures Placed(symbol[Slot(ls, i) := i], ls, i + 1)
    ensures NextSlots(offs[ls[i] := offs[ls[i]] + 1], ls, i + 1)
  {
    SlotBelowEnd(ls, i);
    var symbol' := symbol[Slot(ls, i) := i];
    forall s | 0 <= s < i + 1 && ls[s] > 0
      ensures Slot(ls, s) < |symbol'| && symbol'[Slot(ls, s)] == s
    {
      if s < i {
        SlotInjective(ls, s, i);
      }
    }
  }

  /** Fills `symbol` with the coded symbols, by length and then by number. */
  method PlaceSymbols(symbol: array<nat>, offs: array<nat>, lengths: seq<nat>)
    requires symbol != offs
    requires InRange(lengths) && Offset(lengths, MAX_BITS + 1) <= symbol.Length
    requires NextSlots(offs[..], lengths, 0)
    modifies symbol, offs
    ensures Placed(symbol[..], lengths, |lengths|)
  {
    hide NextSlots, Placed, Slot, Offset;
    PlaceNone(symbol[..], lengths);
    for i := 0 to |lengths|
      invariant NextSlots(offs[..], lengths, i)
      invariant Placed(symbol[..], lengths, i)
    {
      var l := lengths[i];
      if l == 0 {
        PassOver(symbol[..], offs[..], lengths, i);
      } else {
        PlaceOne(symbol[..], offs[..], lengths, i);
        ghost var symbol', offs' := symbol[..], offs[..];
        symbol[offs[l]] := i;
        offs[l] := offs[l] + 1;
        assert symbol[..] == symbol'[Slot(lengths, i) := i];
        assert offs[..] == offs'[l := offs'[l] + 1];
      }
    }
  }

  /** Builds the tables for `lengths`; succeeds on exactly the tables a prefix code
      exists for and the symbol array has room for. */
  method Build(count: array<nat>, symbol: array<nat>, lengths: seq<nat>, cap: nat) returns (ok: bool)
    requires count.Length == MAX_BITS + 1 && cap <= symbol.Length && count != symbol
    modifies count, symbol
    ensures ok <==> Acceptable(lengths, cap)
    ensures ok ==> IsTable(count[..], symbol[..], lengths)
  {
    var inRange := CountLengths(count, lengths);
    if !inRange {
      return false;
    }
    AllZero(lengths, |lengths|);
    if count[0] == |lengths| {
      return false;
    }
    var kraft := CheckKraft(count, lengths);
    if !kraft {
      return false;
    }
    var offs := SumOffsets(count, lengths);
    if offs[MAX_BITS + 1] > cap {
      return false;
    }
    PlaceSymbols(symbol, offs, lengths);
    return true;
  }

  // ---- walking the tables ----

  /** The decoder's registers after `len - 1` bits without a hit. */
  ghost predicate Walk(ls: seq<nat>, bits: seq<bit>, pos: nat, len: nat, code: nat, first: nat, index: nat) {
    && 1 <= len && pos + len <= |bits| + 1
    && first == First(ls, len) && index == Offset(ls, len)
    && code == 2 * Msb(bits, pos, len - 1) && first <= code
  }

  lemma WalkStart(ls: seq<nat>, bits: seq<bit>, pos: nat)
    requires pos <= |bits|
    ensures Walk(ls, bits, pos, 1, 0, 0, 0)
  {
  }

  lemma NoShorterMatch(ls: seq<nat>, bits: seq<bit>, pos: nat, len: nat, s: nat)
    requires 1 <= len && pos + len <= |bits| + 1
    requires First(ls, len) <= 2 * Msb(bits, pos, len - 1)
    requires Matches(ls, bits, pos, s)
    ensures ls[s] >= len
  {
    CodeBelowEnd(ls, s);
    if ls[s] < len - 1 {
      StaysBelow(ls, bits, pos, ls[s], len - 1);
    }
  }

  /** A walk that runs out of bits, or past the longest code, finds no symbol. */
  lemma WalkMiss(ls: seq<nat>, bits: seq<bit>, pos: nat, len: nat, code: nat, first: nat, index: nat)
    requires InRange(ls) && Walk(ls, bits, pos, len, code, first, index)
    requires len > MAX_BITS || pos + len > |bits|
    ensures SymbolAt(ls, bits, pos).None?
  {
    var at := SymbolAt(ls, bits, pos);
    if at.Some? {
      NoShorterMatch(ls, bits, pos, len, at.value);
    }
  }

  /** The symbol the walk finds when the code falls inside the codes of length `len`. */
  lemma WalkHit(ls: seq<nat>, bits: seq<bit>, pos: nat, len: nat) returns (s: nat)
    requires 1 <= len && pos + len <= |bits|
    requires First(ls, len) <= Msb(bits, pos, len) < First(ls, len) + OfLength(ls, len)
    ensures SymbolAt(ls, bits, pos) == Some(s) && s < |ls| && ls[s] == len
    ensures Slot(ls, s) == Offset(ls, len) + Msb(bits, pos, len) - First(ls, len)
  {
    s := Nth(ls, |ls|, len, Msb(bits, pos, len) - First(ls, len));
    assert Matches(ls, bits, pos, s);
    MatchUnique(ls, bits, pos, s, SymbolAt(ls, bits, pos).value);
  }

  /** One more bit brings the code to the numbers the codes of length `len` end at. */
  lemma WalkBit(ls: seq<nat>, bits: seq<bit>, pos: nat, len: nat, code: nat, first: nat, index: nat)
    requires pos + len <= |bits|
    requires Walk(ls, bits, pos, len, code, first, index)
    ensures code + Val(bits, pos + len - 1, 1) == Msb(bits, pos, len) >= first
    ensures Msb(bits, pos, len) >= first + OfLength(ls, len) ==>
      Walk(ls, bits, pos, len + 1, 2 * Msb(bits, pos, len), (first + OfLength(ls, len)) * 2, index + OfLength(ls, len))
  {
    assert Val(bits, pos + len, 0) == 0;
  }

  lemma TableHit(count: seq<nat>, symbol: seq<nat>, ls: seq<nat>, s: nat)
    requires IsTable(count, symbol, ls) && s < |ls| && ls[s] > 0
    ensures Slot(ls, s) < |symbol| && symbol[Slot(ls, s)] == s
  {
  }

  lemma TableCount(count: seq<nat>, symbol: seq<nat>, ls: seq<nat>, l: nat)
    requires IsTable(count, symbol, ls) && 1 <= l <= MAX_BITS
    ensures |count| == MAX_BITS + 1 && count[l] == OfLength(ls, l)
  {
  }

  /** One step of the walk: with the bit at `at` added to the code, the table names
      the symbol, or the registers move on. */
  lemma WalkStep(count: seq<nat>, symbol: seq<nat>, ls: seq<nat>, bits: seq<bit>, pos: nat, len: nat,
                 code: nat, first: nat, index: nat, at: nat, code': nat, c: nat)
    requires IsTable(count, symbol, ls) && len <= MAX_BITS && c == count[len]
    requires Walk(ls, bits, pos, len, code, first, index)
    requires at == pos + len - 1 < |bits| && code' == code + Val(bits, at, 1)
    ensures first <= code'
    ensures code' - first < c ==> Hit(symbol, ls, bits, pos, len, index + (code' - first))
    ensures code' - first >= c ==> Walk(ls, bits, pos, len + 1, code' * 2, (first + c) * 2, index + c)
  {
    TableCount(count, symbol, ls, len);
    WalkBit(ls, bits, pos, len, code, first, index);
    if code' - first < c {
      var s := WalkHit(ls, bits, pos, len);
      TableHit(count, symbol, ls, s);
    }
  }

  /** Slot `i` of the symbol table holds the symbol at `pos`, `len` bits long. */
  ghost predicate Hit(symbol: seq<nat>, ls: seq<nat>, bits: seq<bit>, pos: nat, len: nat, i: nat) {
    && i < |symbol|
    && var s := SymbolAt(ls, bits, pos);
    s.Some? && s.value == symbol[i] && ls[s.value] == len
  }

  // ---- room and weight of particular tables ----

  function OffsetTo(ls: seq<nat>, n: nat, l: nat): nat
    requires l >= 1 && n <= |ls|
  {
    if l == 1 then 0 else OffsetTo(ls, n, l - 1) + Count(ls, n, l - 1)
  }

  lemma {:induction false} OffsetToStep(ls: seq<nat>, n: nat, l: nat)
    requires l >= 1 && 0 < n <= |ls|
    ensures OffsetTo(ls, n, l) == OffsetTo(ls, n - 1, l) + if 1 <= ls[n - 1] < l then 1 else 0
  {
    if l > 1 {
      OffsetToStep(ls, n, l - 1);
    }
  }

  lemma {:induction false} OffsetToZero(ls: seq<nat>, l: nat)
    requires l >= 1
    ensures OffsetTo(ls, 0, l) == 0 && OffsetTo(ls, |ls|, l) == Offset(ls, l)
  {
    if l > 1 {
      OffsetToZero(ls, l - 1);
    }
  }

  lemma {:induction false} OffsetToAtMost(ls: seq<nat>, n: nat, l: nat)
    requires l >= 1 && n <= |ls|
    ensures OffsetTo(ls, n, l) <= n
  {
    OffsetToZero(ls, l);
    if n > 0 {
      OffsetToStep(ls, n, l);
      OffsetToAtMost(ls, n - 1, l);
    }
  }

  /** A table never needs more room than it has symbols. */
  lemma RoomForAll(ls: seq<nat>)
    ensures Offset(ls, MAX_BITS + 1) <= |ls|
  {
    OffsetToZero(ls, MAX_BITS + 1);
    OffsetToAtMost(ls, |ls|, MAX_BITS + 1);
  }

  /** A stretch of equal lengths weighs its number of codes times the weight of one. */
  lemma {:induction false} UsedStretch(ls: seq<nat>, a: nat, b: nat, v: nat, l: nat)
    requires a <= b <= |ls| && 0 < v <= l
    requires forall i :: a <= i < b ==> ls[i] == v
    ensures Used(ls, b, l) == Used(ls, a, l) + (b - a) * Pow2(l - v)
    decreases b
  {
    if a < b {
      UsedStretch(ls, a, b - 1, v, l);
      assert (b - 1 - a) * Pow2(l - v) + Pow2(l - v) == (b - a) * Pow2(l - v);
    }
  }
}
