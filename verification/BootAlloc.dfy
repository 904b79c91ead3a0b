/** First-fit allocation from the boot free list, and whole runs of reservations and allocations
    (src/kernel/bootmem.c:32-95, 208-250). */
module BootAlloc {
  import opened Bits
  import opened BootRanges

  function Addr(r: Range, align: nat): nat
    requires align > 0
  {
    AlignUp(r.start, align)
  }

  /** Where a block would end, in 64-bit arithmetic. */
  function BlockEnd(r: Range, size: nat, align: nat): nat
    requires align > 0
  {
    Wrap(Addr(r, align) + size)
  }

  /** The first range from `i` on that passes the test of `bootmem_alloc`; |rs| when none does. */
  function FirstFit(rs: seq<Range>, size: nat, align: nat, i: nat): (k: nat)
    requires align > 0 && i <= |rs|
    ensures i <= k <= |rs|
    ensures k < |rs| ==> BlockEnd(rs[k], size, align) <= rs[k].end
    ensures forall j :: i <= j < k ==> BlockEnd(rs[j], size, align) > rs[j].end
    decreases |rs| - i, size, align
  {
    if i == |rs| || BlockEnd(rs[i], size, align) <= rs[i].end then i else FirstFit(rs, size, align, i + 1)
  }

  /** Range `k` now starts at `end`, or is gone. */
  function Take(rs: seq<Range>, k: nat, end: nat): seq<Range>
    requires k < |rs|
  {
    if end >= rs[k].end then SwapRemove(rs, k) else rs[k := Range(end, rs[k].end)]
  }

  /** The two sums formed for this range stay below 2^64. */
  predicate NoWrap(r: Range, size: nat, align: nat)
    requires align > 0
  {
    r.start + align - 1 < TOP && Addr(r, align) + size < TOP
  }

  /** The block lies in range `k` and leaves the table, with the gap before it, and nothing else does. */
  ghost predicate RightBlock(rs: seq<Range>, size: nat, align: nat, k: nat)
    requires align > 0 && k < |rs|
  {
    var addr, end := Addr(rs[k], align), BlockEnd(rs[k], size, align);
    && addr % align == 0 && rs[k].start <= addr && end == addr + size && end <= rs[k].end
    && Good(Take(rs, k, end)) && Difference(rs, Take(rs, k, end), Range(rs[k].start, end))
  }

  lemma MultipleOfMultiple(x: nat, a: nat, p: nat)
    requires p > 0 && a > 0 && x % a == 0 && a % p == 0
    ensures x % p == 0
  {
    var m, n := a / p, x / a;
    assert x == p * (m * n) by {
      assert a == p * m && x == a * n;
      Associates(p, m, n);
    }
    MultipleIsZero(p, m * n);
  }

  lemma Associates(a: nat, b: nat, c: nat)
    ensures (a * b) * c == a * (b * c)
  {
  }

  lemma AlignDownFacts(v: nat, align: nat)
    requires align > 0
    ensures AlignDown(v, align) % align == 0
    ensures AlignDown(v, align) <= v < AlignDown(v, align) + align
  {
    MultipleIsZero(align, v / align);
    assert AlignDown(v, align) == align * (v / align);
  }

  /** Rounding up without wrapping gives the next multiple; past the top it wraps to a small one. */
  lemma AlignUpFacts(v: nat, align: nat)
    requires align > 0 && v + align <= TOP
    ensures AlignUp(v, align) % align == 0
    ensures v <= AlignUp(v, align) < v + align
  {
    AlignDownFacts(v + align - 1, align);
    assert Wrap(v + align - 1) == v + align - 1;
  }

  lemma Summed(a: nat, b: nat, p: nat)
    requires p > 0 && a % p == 0 && b % p == 0
    ensures (a + b) % p == 0
  {
    var m, n := a / p, b / p;
    assert a + b == p * (m + n);
    MultipleIsZero(p, m + n);
  }

  /** The block of a successful scan: aligned, inside the range, and taken out of it with the gap before it. */
  lemma TakeResult(rs: seq<Range>, size: nat, align: nat, k: nat)
    requires Good(rs) && align > 0 && align % PAGE == 0 && size % PAGE == 0
    requires k < |rs| && BlockEnd(rs[k], size, align) <= rs[k].end && NoWrap(rs[k], size, align)
    ensures RightBlock(rs, size, align, k) && Addr(rs[k], align) % PAGE == 0
  {
    hide Good, Difference, Addr, BlockEnd;
    var addr := Addr(rs[k], align);
    AddrFacts(rs[k], size, align);
    MultipleOfMultiple(addr, align, PAGE);
    Summed(addr, size, PAGE);
    TakeKeeps(rs, k, addr + size);
  }

  lemma AddrFacts(r: Range, size: nat, align: nat)
    requires align > 0 && r.start + align <= TOP
    ensures Addr(r, align) % align == 0 && r.start <= Addr(r, align) < r.start + align
    ensures Addr(r, align) + size < TOP ==> BlockEnd(r, size, align) == Addr(r, align) + size
  {
    hide AlignUp;
    AlignUpFacts(r.start, align);
  }

  /** Past the top, rounding up gives zero. */
  lemma AlignUpWraps(v: nat, align: nat)
    requires 0 < align <= TOP && v < TOP && v + align > TOP
    ensures AlignUp(v, align) == 0
  {
    assert Wrap(v + align - 1) == v + align - 1 - TOP;
    AlignDownFacts(v + align - 1 - TOP, align);
    DivUnique(v + align - 1 - TOP, align, 0, v + align - 1 - TOP);
  }

  /** A successful scan yields a right block if and only if neither sum wrapped. */
  lemma RightBlockIffNoWrap(rs: seq<Range>, size: nat, align: nat, k: nat)
    requires Good(rs) && 0 < align <= TOP && align % PAGE == 0 && size % PAGE == 0 && size < TOP
    requires k < |rs| && BlockEnd(rs[k], size, align) <= rs[k].end
    ensures RightBlock(rs, size, align, k) <==> NoWrap(rs[k], size, align)
  {
    hide Good, Difference, AlignUp, Take;
    OthersApart(rs, k, k);
    if NoWrap(rs[k], size, align) {
      TakeResult(rs, size, align, k);
    } else if rs[k].start + align > TOP {
      AlignUpWraps(rs[k].start, align);
    } else {
      AddrFacts(rs[k], size, align);
      EndIsWord(rs[k], size, align);
    }
  }

  lemma EndIsWord(r: Range, size: nat, align: nat)
    requires align > 0
    ensures BlockEnd(r, size, align) < TOP
  {
    hide AlignUp;
  }

  /** The rounded size covers the requested one if and only if rounding does not wrap. */
  lemma SizeCoveredIff(size: nat)
    requires size < TOP
    ensures size <= AlignUp(size, PAGE) <==> size + PAGE <= TOP
  {
    if size + PAGE <= TOP {
      AlignUpFacts(size, PAGE);
    } else {
      AlignUpWraps(size, PAGE);
    }
  }

  lemma TakeKeeps(rs: seq<Range>, k: nat, end: nat)
    requires Good(rs) && k < |rs| && rs[k].start <= end <= rs[k].end && end % PAGE == 0
    ensures Good(Take(rs, k, end)) && Difference(rs, Take(rs, k, end), Range(rs[k].start, end))
  {
    var u, q := Take(rs, k, end), Range(rs[k].start, end);
    if end >= rs[k].end {
      GoodSwapRemove(rs, k);
    } else {
      GoodUpdate(rs, k, Range(end, rs[k].end));
    }
    forall a
      ensures In(u, a) <==> In(rs, a) && !Contains(q, a)
    {
      InSplits(rs, k, a);
      ApartFrom(rs, k, a);
      if end >= rs[k].end {
        InSwapRemove(rs, k, a);
      } else {
        InUpdate(rs, k, Range(end, rs[k].end), a);
      }
    }
  }

  // ---- whole runs ----

  datatype Op = Keep(start: nat, end: nat) | Give(size: nat, align: nat)

  /** A reserved stretch, or a block handed out with the size and alignment asked for. */
  datatype Grant = Reserved(range: Range) | Handed(range: Range, size: nat, align: nat)

  datatype Boot = Boot(free: seq<Range>, grants: seq<Grant>)

  function PageAligned(start: nat, end: nat): Range {
    Range(AlignDown(start, PAGE), AlignUp(end, PAGE))
  }

  function AtLeastPage(align: nat): (r: nat)
    ensures r >= PAGE
  {
    if align < PAGE then PAGE else align
  }

  function Step(st: Boot, op: Op): Boot
    requires |st.free| <= MAX_RANGES
  {
    match op
    case Keep(start, end) =>
      var q := PageAligned(start, end);
      if q.end <= q.start then st else Boot(Reserve(st.free, q, 0), st.grants + [Reserved(q)])
    case Give(size, align) =>
      var al, sz := AtLeastPage(align), AlignUp(size, PAGE);
      var k := FirstFit(st.free, sz, al, 0);
      if k == |st.free| then st
      else
        var addr, end := Addr(st.free[k], al), BlockEnd(st.free[k], sz, al);
        Boot(Take(st.free, k, end), st.grants + [Handed(Range(addr, end), size, al)])
  }

  ghost predicate PowerOfTwo(n: nat) {
    exists k: nat :: n == Pow2(k)
  }

  /** 64-bit arguments, a power of two as alignment, and no wrap in the range the scan chooses. */
  ghost predicate Sane(st: Boot, op: Op) {
    match op
    case Keep(_, _) => true
    case Give(size, align) =>
      && (align < PAGE || PowerOfTwo(align)) && size < TOP
      && var al, sz := AtLeastPage(align), AlignUp(size, PAGE);
        var k := FirstFit(st.free, sz, al, 0);
        k < |st.free| ==> NoWrap(st.free[k], sz, al)
  }

  ghost predicate NoCommon(r: Range, q: Range) {
    forall a :: !(Contains(r, a) && Contains(q, a))
  }

  ghost predicate Apart(rs: seq<Range>, q: Range) {
    forall a :: !(In(rs, a) && Contains(q, a))
  }

  /** The block is aligned, and as large as asked for unless the size itself wraps when rounded. */
  predicate Served(g: Grant)
    requires g.Handed?
  {
    && g.align > 0 && g.range.start % g.align == 0
    && (g.size + PAGE <= TOP ==> g.range.start + g.size <= g.range.end)
  }

  /** Blocks handed out are aligned, share nothing with any earlier grant, and nothing granted is free. */
  ghost predicate Safe(st: Boot) {
    && Good(st.free)
    && (forall i :: 0 <= i < |st.grants| ==> Apart(st.free, st.grants[i].range))
    && (forall i :: 0 <= i < |st.grants| && st.grants[i].Handed? ==> Served(st.grants[i]))
    && (forall i, j :: 0 <= i < j < |st.grants| && st.grants[j].Handed?
          ==> NoCommon(st.grants[i].range, st.grants[j].range))
  }

  lemma PowerOfTwoPages(n: nat)
    requires PowerOfTwo(n) && n >= PAGE
    ensures n % PAGE == 0
  {
    var k: nat :| n == Pow2(k);
    Pow2Twelve();
    if k < 12 {
      Pow2Monotone(k, 11);
    }
    Pow2Add(12, k - 12);
    MultipleIsZero(PAGE, Pow2(k - 12));
  }

  lemma WholePages(align: nat)
    requires align < PAGE || PowerOfTwo(align)
    ensures AtLeastPage(align) % PAGE == 0
  {
    hide PowerOfTwo;
    if align >= PAGE {
      PowerOfTwoPages(align);
    }
  }

  lemma RoundedSize(size: nat)
    requires size < TOP
    ensures AlignUp(size, PAGE) % PAGE == 0 && (size + PAGE <= TOP ==> size <= AlignUp(size, PAGE))
  {
    AlignDownFacts(Wrap(size + PAGE - 1), PAGE);
    SizeCoveredIff(size);
  }

  lemma Pow2Twelve()
    ensures Pow2(12) == PAGE && Pow2(11) < PAGE
  {
    Pow2Values();
    Pow2Add(4, 8);
    Pow2Add(3, 8);
  }

  /** Taking addresses away keeps what was apart apart. */
  lemma StillApart(rs: seq<Range>, u: seq<Range>, gone: Range, q: Range)
    requires Difference(rs, u, gone) && Apart(rs, q)
    ensures Apart(u, q)
  {
  }

  lemma NowApart(rs: seq<Range>, u: seq<Range>, gone: Range, q: Range)
    requires Difference(rs, u, gone) && gone.start <= q.start && q.end <= gone.end
    ensures Apart(u, q)
  {
  }

  lemma InsideFree(rs: seq<Range>, k: nat, q: Range, other: Range)
    requires k < |rs| && rs[k].start <= q.start && q.end <= rs[k].end && Apart(rs, other)
    ensures NoCommon(other, q)
  {
    forall a
      ensures !(Contains(other, a) && Contains(q, a))
    {
      InSplits(rs, k, a);
    }
  }

  lemma KeepSafe(st: Boot, start: nat, end: nat)
    requires Safe(st)
    ensures Safe(Step(st, Keep(start, end)))
  {
    var q := PageAligned(start, end);
    if q.start < q.end {
      assert Proper(q) by {
        AlignDownFacts(start, PAGE);
        AlignDownFacts(Wrap(end + PAGE - 1), PAGE);
      }
      hide Good, Difference, Apart, NoCommon, Reserve;
      ReserveResult(st.free, q);
      var u := Reserve(st.free, q, 0);
      var gone := q;
      if !Roomy(st.free, q, 0) {
        var k :| 0 <= k < |st.free| && Splits(st.free[k], q) && Difference(st.free, u, Range(q.start, st.free[k].end));
        gone := Range(q.start, st.free[k].end);
      }
      forall i | 0 <= i < |st.grants|
        ensures Apart(u, st.grants[i].range)
      {
        StillApart(st.free, u, gone, st.grants[i].range);
      }
      NowApart(st.free, u, gone, q);
    }
  }

  lemma GiveSafe(st: Boot, size: nat, align: nat)
    requires Safe(st) && Sane(st, Give(size, align))
    ensures Safe(Step(st, Give(size, align)))
  {
    hide Good, Difference, Apart, NoCommon, FirstFit, BlockEnd, Take, Addr, NoWrap, AlignUp, PowerOfTwo;
    var al, sz := AtLeastPage(align), AlignUp(size, PAGE);
    var k := FirstFit(st.free, sz, al, 0);
    if k < |st.free| {
      WholePages(align);
      RoundedSize(size);
      TakeResult(st.free, sz, al, k);
      var addr := Addr(st.free[k], al);
      var u, q := Take(st.free, k, addr + sz), Range(addr, addr + sz);
      var gone := Range(st.free[k].start, addr + sz);
      forall i | 0 <= i < |st.grants|
        ensures Apart(u, st.grants[i].range) && NoCommon(st.grants[i].range, q)
      {
        StillApart(st.free, u, gone, st.grants[i].range);
        InsideFree(st.free, k, q, st.grants[i].range);
      }
      NowApart(st.free, u, gone, q);
    }
  }

  ghost predicate SaneRun(st: Boot, ops: seq<Op>)
    requires |st.free| <= MAX_RANGES
    decreases |ops|, st
  {
    ops != [] ==> Sane(st, ops[0]) && |Step(st, ops[0]).free| <= MAX_RANGES && SaneRun(Step(st, ops[0]), ops[1..])
  }

  ghost function After(st: Boot, ops: seq<Op>): Boot
    requires |st.free| <= MAX_RANGES && SaneRun(st, ops)
    decreases |ops|, st
  {
    if ops == [] then st else After(Step(st, ops[0]), ops[1..])
  }

  /** Any mix of reservations and allocations, from any good memory map. */
  lemma {:induction false} RunSafe(st: Boot, ops: seq<Op>)
    requires Safe(st) && SaneRun(st, ops)
    ensures Safe(After(st, ops))
    decreases |ops|
  {
    hide Safe, Step;
    SafeSize(st);
    if ops != [] {
      if ops[0].Keep? {
        KeepSafe(st, ops[0].start, ops[0].end);
      } else {
        GiveSafe(st, ops[0].size, ops[0].align);
      }
      RunSafe(Step(st, ops[0]), ops[1..]);
    }
  }

  lemma SafeSize(st: Boot)
    requires Safe(st)
    ensures |st.free| <= MAX_RANGES
  {
  }

  /** A memory map to start from. */
  lemma StartSafe(rs: seq<Range>)
    requires Good(rs)
    ensures Safe(Boot(rs, []))
  {
  }

  // ---- where 64 bits are not enough ----

  /** Rounding up to pages ends at least a page below the top, or wraps to the bottom. */
  lemma PagesBelowTop(v: nat)
    ensures AlignUp(v, PAGE) <= TOP - PAGE
  {
    AlignDownFacts(Wrap(v + PAGE - 1), PAGE);
    var q := AlignUp(v, PAGE);
    if q > TOP - PAGE {
      DivUnique(q, PAGE, TOP / PAGE - 1, q - (TOP - PAGE));
    }
  }

  predicate Covers(r: Range, start: nat, size: nat) {
    forall a :: start <= a < start + size ==> Contains(r, a)
  }

  /** A reservation of `size` bytes covers what was asked for if and only if neither the sum
      nor rounding it up to pages wraps. */
  lemma CoversIffNoWrap(start: nat, size: nat)
    requires start < TOP && 0 < size < TOP
    ensures Covers(PageAligned(start, Wrap(start + size)), start, size) <==> start + size + PAGE <= TOP
  {
    hide AlignUp, AlignDown;
    var end := start + size;
    var q := PageAligned(start, Wrap(end));
    AlignDownFacts(start, PAGE);
    if end + PAGE <= TOP {
      assert Wrap(end) == end;
      AlignUpFacts(end, PAGE);
    } else {
      PagesBelowTop(Wrap(end));
      assert !Contains(q, end - 1);
    }
  }

  /** A reservation of the two last pages wraps and reserves nothing. */
  lemma LastPagesNotReserved()
    ensures var rs := [Range(TOP - 2 * PAGE, TOP - PAGE)];
      Good(rs) && Step(Boot(rs, []), Keep(TOP - 2 * PAGE, Wrap(TOP - 2 * PAGE + 2 * PAGE))) == Boot(rs, [])
  {
    hide AlignUp, AlignDown;
    assert Wrap(TOP) == 0;
    NothingAligned();
    AlignDownFacts(TOP - 2 * PAGE, PAGE);
  }

  lemma NothingAligned()
    ensures AlignUp(0, PAGE) == 0
  {
  }

  lemma PageIsAligned()
    ensures AlignUp(PAGE, PAGE) == PAGE
  {
    assert Wrap(2 * PAGE - 1) == 2 * PAGE - 1;
  }

  /** Without the bound on the sums a block may "end" below its start and the range grow. */
  lemma OverflowGrowsRange()
    ensures var rs := [Range(PAGE, 2 * PAGE)];
      Good(rs) && FirstFit(rs, TOP - PAGE, PAGE, 0) == 0 && Take(rs, 0, BlockEnd(rs[0], TOP - PAGE, PAGE)) == [Range(0, 2 * PAGE)]
  {
    hide AlignUp;
    var rs := [Range(PAGE, 2 * PAGE)];
    PageIsAligned();
    assert BlockEnd(rs[0], TOP - PAGE, PAGE) == 0;
  }

  /** The largest size rounds to zero, and a block of no bytes is handed out. */
  lemma HugeSizeGetsNothing()
    ensures var st := Boot([Range(PAGE, 2 * PAGE)], []);
      Step(st, Give(TOP - 1, PAGE)).grants == [Handed(Range(PAGE, PAGE), TOP - 1, PAGE)]
  {
    hide AlignUp;
    var st := Boot([Range(PAGE, 2 * PAGE)], []);
    AlignUpWraps(TOP - 1, PAGE);
    PageIsAligned();
    assert BlockEnd(st.free[0], 0, PAGE) == PAGE;
  }
}
