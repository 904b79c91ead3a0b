/** The boot allocator's table, updated in place: src/kernel/bootmem.c:32-95, 208-258. */
module BootMem {
  import opened BootRanges
  import opened BootAlloc

  /** The bytes in the ranges. */
  function RangeBytes(rs: seq<Range>): int
  {
    if rs == [] then 0 else RangeBytes(rs[..|rs| - 1]) + rs[|rs| - 1].end - rs[|rs| - 1].start
  }

  class Table {
    const ranges: array<Range>
    var count: nat
    var highest: nat
    var initialized: bool
    var retired: bool

    ghost predicate Valid()
      reads this, ranges
    {
      ranges.Length == MAX_RANGES && count <= MAX_RANGES
    }

    ghost function Free(): seq<Range>
      requires Valid()
      reads this, ranges
    {
      ranges[..count]
    }

    constructor ()
      ensures Valid() && fresh(ranges) && Free() == [] && highest == 0 && !initialized && !retired
    {
      ranges := new Range[64](_ => Range(0, 0));
      count, highest, initialized, retired := 0, 0, false, false;
    }

    /** Adds the whole pages of a stretch, if there is a slot for them. */
    method AddFreeRange(start: nat, end: nat)
      requires Valid()
      modifies this`count, this`highest, ranges
      ensures Valid()
      ensures var r := Range(AlignUp(start, PAGE), AlignDown(end, PAGE));
        if r.end <= r.start || |old(Free())| == MAX_RANGES then Free() == old(Free()) && highest == old(highest)
        else Free() == old(Free()) + [r] && highest == if r.end > old(highest) then r.end else old(highest)
    {
      var s, e := AlignUp(start, PAGE), AlignDown(end, PAGE);
      if e <= s || count >= MAX_RANGES {
        return;
      }
      ranges[count] := Range(s, e);
      count := count + 1;
      if e > highest {
        highest := e;
      }
    }

    method ReserveRange(start: nat, end: nat)
      requires Valid()
      modifies this`count, ranges
      ensures Valid()
      ensures Free() == Step(Boot(old(Free()), []), Keep(start, end)).free
    {
      hide Reserve;
      var s, e := AlignDown(start, PAGE), AlignUp(end, PAGE);
      if e <= s {
        return;
      }
      ghost var q := Range(s, e);
      var i := 0;
      while i < count
        invariant i <= count <= MAX_RANGES
        invariant Reserve(ranges[..count], q, i) == Reserve(old(Free()), q, 0)
        decreases MAX_RANGES + count - 2 * i
      {
        var r := ranges[i];
        ReserveStep(ranges[..count], q, i);
        if e <= r.start || s >= r.end {
          i := i + 1;
        } else if s <= r.start && e >= r.end {
          ghost var before := ranges[..count];
          ranges[i] := ranges[count - 1];
          count := count - 1;
          assert ranges[..count] == SwapRemove(before, i);
        } else if s <= r.start {
          ghost var before := ranges[..count];
          ranges[i] := Range(e, r.end);
          assert ranges[..count] == before[i := Range(e, r.end)];
          i := i + 1;
        } else if e >= r.end {
          ghost var before := ranges[..count];
          ranges[i] := Range(r.start, s);
          assert ranges[..count] == before[i := Range(r.start, s)];
          i := i + 1;
        } else if count < MAX_RANGES {
          ghost var before := ranges[..count];
          ranges[i] := Range(r.start, s);
          ranges[count] := Range(e, r.end);
          count := count + 1;
          assert ranges[..count] == before[i := Range(r.start, s)] + [Range(e, r.end)];
          i := i + 1;
        } else {
          ghost var before := ranges[..count];
          ranges[i] := Range(r.start, s);
          assert ranges[..count] == before[i := Range(r.start, s)];
          i := i + 1;
        }
      }
      ReserveEnd(ranges[..count], q);
    }

    /** Reserves `size` bytes from `start` on; the end wraps like the sum of two 64-bit numbers. */
    method ReservePhys(start: nat, size: nat)
      requires Valid()
      modifies this`count, ranges
      ensures Valid()
      ensures Free() == if size == 0 then old(Free())
                        else Step(Boot(old(Free()), []), Keep(start, Wrap(start + size))).free
    {
      if size == 0 {
        return;
      }
      ReserveRange(start, Wrap(start + size));
    }

    /** The address of a block, or 0 when there is none. A block found at address 0 is taken and lost. */
    method Alloc(size: nat, align: nat) returns (got: nat)
      requires Valid() && size < TOP && (align < PAGE || PowerOfTwo(align))
      modifies this`count, ranges
      ensures Valid()
      ensures !initialized || retired ==> got == 0 && Free() == old(Free())
      ensures initialized && !retired ==>
        var after := Step(Boot(old(Free()), []), Give(size, align));
        Free() == after.free && got == if after.grants == [] then 0 else after.grants[0].range.start
    {
      hide AlignUp, BlockEnd, Addr, FirstFit;
      if !initialized || retired {
        return 0;
      }
      got := 0;
      var al := if align < PAGE then PAGE else align;
      var sz := AlignUp(size, PAGE);
      ghost var free := ranges[..count];
      ghost var k := FirstFit(free, sz, al, 0);
      for i := 0 to count
        invariant i <= k && count == |free| <= MAX_RANGES
        invariant ranges[..count] == free
      {
        FitStep(free, sz, al, i);
        var addr, end := AlignUp(ranges[i].start, al), Wrap(AlignUp(ranges[i].start, al) + sz);
        if end <= ranges[i].end {
          ranges[i] := Range(end, ranges[i].end);
          if ranges[i].start >= ranges[i].end {
            ranges[i] := ranges[count - 1];
            count := count - 1;
          }
          assert ranges[..count] == Take(free, k, end);
          return addr;
        }
      }
    }

    method FreeBytes() returns (total: nat)
      requires Valid()
      ensures total == RangeBytes(Free()) % TOP
    {
      total := 0;
      for i := 0 to count
        invariant total == RangeBytes(ranges[..i]) % TOP
      {
        assert ranges[..i + 1][..i] == ranges[..i];
        total := (total + ranges[i].end - ranges[i].start) % TOP;
      }
    }

    method Retire()
      requires Valid()
      modifies this`count, this`retired
      ensures Valid() && Free() == [] && retired
    {
      count := 0;
      retired := true;
    }
  }

  lemma ReserveStep(rs: seq<Range>, q: Range, i: nat)
    requires i < |rs| <= MAX_RANGES
    ensures var r := rs[i];
      Reserve(rs, q, i) ==
        if q.end <= r.start || q.start >= r.end then Reserve(rs, q, i + 1)
        else if q.start <= r.start && q.end >= r.end then Reserve(SwapRemove(rs, i), q, i)
        else if q.start <= r.start then Reserve(rs[i := Range(q.end, r.end)], q, i + 1)
        else if q.end >= r.end then Reserve(rs[i := Range(r.start, q.start)], q, i + 1)
        else if |rs| < MAX_RANGES then
          Reserve(rs[i := Range(r.start, q.start)] + [Range(q.end, r.end)], q, i + 1)
        else Reserve(rs[i := Range(r.start, q.start)], q, i + 1)
  {
  }

  lemma ReserveEnd(rs: seq<Range>, q: Range)
    requires |rs| <= MAX_RANGES
    ensures Reserve(rs, q, |rs|) == rs
  {
  }

  /** The scan stops at `i` exactly when the first fit is there. */
  lemma FitStep(rs: seq<Range>, size: nat, align: nat, i: nat)
    requires align > 0 && i < |rs| && i <= FirstFit(rs, size, align, 0)
    ensures BlockEnd(rs[i], size, align) == Wrap(AlignUp(rs[i].start, align) + size)
    ensures Addr(rs[i], align) == AlignUp(rs[i].start, align)
    ensures BlockEnd(rs[i], size, align) <= rs[i].end <==> FirstFit(rs, size, align, 0) == i
  {
    hide AlignUp, FirstFit;
  }
}
