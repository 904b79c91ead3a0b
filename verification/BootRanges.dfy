/** The free list of the boot allocator (src/kernel/bootmem.c) on values: what reserving and
    allocating do to a table of at most 64 ranges, in 64-bit arithmetic. */
module BootRanges {
  const MAX_RANGES: nat := 64
  const PAGE: nat := 4096
  const TOP: nat := 0x1_0000_0000_0000_0000

  datatype Range = Range(start: nat, end: nat)

  function Wrap(x: nat): nat {
    x % TOP
  }

  /** Rounding to a multiple of a power of two, by clearing its low bits. */
  function AlignDown(v: nat, align: nat): nat
    requires align > 0
  {
    v - v % align
  }

  function AlignUp(v: nat, align: nat): nat
    requires align > 0
  {
    AlignDown(Wrap(v + align - 1), align)
  }

  predicate Contains(r: Range, a: int) {
    r.start <= a < r.end
  }

  predicate Overlap(r: Range, q: Range) {
    r.start < q.end && q.start < r.end
  }

  /** `a` is free. */
  ghost predicate In(rs: seq<Range>, a: int) {
    exists i :: 0 <= i < |rs| && Contains(rs[i], a)
  }

  predicate Proper(r: Range) {
    r.start < r.end < TOP && r.start % PAGE == 0 && r.end % PAGE == 0
  }

  /** Whole pages, no two ranges sharing an address. */
  predicate Good(rs: seq<Range>) {
    && |rs| <= MAX_RANGES
    && (forall i :: 0 <= i < |rs| ==> Proper(rs[i]))
    && (forall i, j :: 0 <= i < j < |rs| ==> !Overlap(rs[i], rs[j]))
  }

  /** The last range takes the place of range `i`. */
  function SwapRemove(rs: seq<Range>, i: nat): seq<Range>
    requires i < |rs|
  {
    rs[i := rs[|rs| - 1]][..|rs| - 1]
  }

  /** The loop of `reserve_range` from index `i` on. */
  function Reserve(rs: seq<Range>, q: Range, i: nat): seq<Range>
    requires i <= |rs| <= MAX_RANGES
    decreases MAX_RANGES + |rs| - 2 * i, rs, q
  {
    if i == |rs| then rs
    else
      var r := rs[i];
      if q.end <= r.start || q.start >= r.end then Reserve(rs, q, i + 1)
      else if q.start <= r.start && q.end >= r.end then Reserve(SwapRemove(rs, i), q, i)
      else if q.start <= r.start then Reserve(rs[i := Range(q.end, r.end)], q, i + 1)
      else if q.end >= r.end then Reserve(rs[i := Range(r.start, q.start)], q, i + 1)
      else if |rs| < MAX_RANGES then
        Reserve(rs[i := Range(r.start, q.start)] + [Range(q.end, r.end)], q, i + 1)
      else Reserve(rs[i := Range(r.start, q.start)], q, i + 1)
  }

  // ---- membership under the updates ----

  ghost predicate Elsewhere(rs: seq<Range>, i: nat, a: int) {
    exists j :: 0 <= j < |rs| && j != i && Contains(rs[j], a)
  }

  lemma InSplits(rs: seq<Range>, i: nat, a: int)
    requires i < |rs|
    ensures In(rs, a) <==> Contains(rs[i], a) || Elsewhere(rs, i, a)
  {
  }

  lemma InUpdate(rs: seq<Range>, i: nat, r: Range, a: int)
    requires i < |rs|
    ensures In(rs[i := r], a) <==> Contains(r, a) || Elsewhere(rs, i, a)
  {
    var u := rs[i := r];
    assert u[i] == r;
    if Elsewhere(rs, i, a) {
      var j :| 0 <= j < |rs| && j != i && Contains(rs[j], a);
      assert Contains(u[j], a);
    }
  }

  lemma InSwapRemove(rs: seq<Range>, i: nat, a: int)
    requires i < |rs|
    ensures In(SwapRemove(rs, i), a) <==> Elsewhere(rs, i, a)
  {
    var u := SwapRemove(rs, i);
    if Elsewhere(rs, i, a) {
      var j :| 0 <= j < |rs| && j != i && Contains(rs[j], a);
      assert Contains(u[if j == |rs| - 1 then i else j], a);
    }
  }

  lemma InAppend(rs: seq<Range>, r: Range, a: int)
    ensures In(rs + [r], a) <==> In(rs, a) || Contains(r, a)
  {
    var u := rs + [r];
    assert u[|rs|] == r;
    if In(rs, a) {
      var j :| 0 <= j < |rs| && Contains(rs[j], a);
      assert Contains(u[j], a);
    }
  }

  // ---- what reserving keeps ----

  predicate Splits(r: Range, q: Range) {
    r.start < q.start && q.end < r.end
  }

  /** The ranges before `i` are done. */
  predicate Clear(rs: seq<Range>, q: Range, i: nat) {
    i <= |rs| && forall j :: 0 <= j < i ==> !Overlap(rs[j], q)
  }

  /** No split ahead can meet a full table. */
  predicate Roomy(rs: seq<Range>, q: Range, i: nat) {
    |rs| < MAX_RANGES || forall j :: i <= j < |rs| ==> !Splits(rs[j], q)
  }

  /** Outside `q` the same addresses are free. */
  ghost predicate SameOutside(rs: seq<Range>, u: seq<Range>, q: Range) {
    forall a :: !Contains(q, a) ==> (In(u, a) <==> In(rs, a))
  }

  lemma GoodUpdate(rs: seq<Range>, i: nat, r: Range)
    requires Good(rs) && i < |rs| && Proper(r) && rs[i].start <= r.start && r.end <= rs[i].end
    ensures Good(rs[i := r])
  {
    var u := rs[i := r];
    forall j, k | 0 <= j < k < |u|
      ensures !Overlap(u[j], u[k])
    {
      assert !Overlap(rs[j], rs[k]);
    }
  }

  lemma GoodSwapRemove(rs: seq<Range>, i: nat)
    requires Good(rs) && i < |rs|
    ensures Good(SwapRemove(rs, i))
  {
    var u := SwapRemove(rs, i);
    var n := |rs| - 1;
    forall j, k | 0 <= j < k < |u|
      ensures !Overlap(u[j], u[k])
    {
      var j', k' := if j == i then n else j, if k == i then n else k;
      assert u[j] == rs[j'] && u[k] == rs[k'];
      assert !Overlap(rs[j'], rs[k']);
    }
  }

  lemma GoodAppend(rs: seq<Range>, r: Range)
    requires Good(rs) && |rs| < MAX_RANGES && Proper(r)
    requires forall j :: 0 <= j < |rs| ==> !Overlap(rs[j], r)
    ensures Good(rs + [r])
  {
  }

  /** Cutting range `i` down to a part outside `q`. */
  lemma Cut(rs: seq<Range>, q: Range, i: nat, r: Range)
    requires Good(rs) && i < |rs| && Proper(r) && rs[i].start <= r.start && r.end <= rs[i].end
    requires Clear(rs, q, i) && !Overlap(r, q)
    ensures Good(rs[i := r]) && Clear(rs[i := r], q, i + 1)
  {
    GoodUpdate(rs, i, r);
  }

  lemma CutOutside(rs: seq<Range>, q: Range, i: nat, r: Range)
    requires i < |rs|
    requires forall a :: !Contains(q, a) ==> (Contains(r, a) <==> Contains(rs[i], a))
    ensures SameOutside(rs, rs[i := r], q)
  {
    forall a | !Contains(q, a)
      ensures In(rs[i := r], a) <==> In(rs, a)
    {
      InSplits(rs, i, a);
      InUpdate(rs, i, r, a);
    }
  }

  lemma RemoveOutside(rs: seq<Range>, q: Range, i: nat)
    requires i < |rs| && q.start <= rs[i].start && rs[i].end <= q.end
    ensures SameOutside(rs, SwapRemove(rs, i), q)
  {
    forall a | !Contains(q, a)
      ensures In(SwapRemove(rs, i), a) <==> In(rs, a)
    {
      InSplits(rs, i, a);
      InSwapRemove(rs, i, a);
    }
  }

  lemma SplitOutside(rs: seq<Range>, q: Range, i: nat)
    requires i < |rs| && Splits(rs[i], q) && q.start <= q.end
    ensures SameOutside(rs, rs[i := Range(rs[i].start, q.start)] + [Range(q.end, rs[i].end)], q)
  {
    var l, h := Range(rs[i].start, q.start), Range(q.end, rs[i].end);
    forall a | !Contains(q, a)
      ensures In(rs[i := l] + [h], a) <==> In(rs, a)
    {
      InSplits(rs, i, a);
      InUpdate(rs, i, l, a);
      InAppend(rs[i := l], h, a);
    }
  }

  lemma SplitGood(rs: seq<Range>, q: Range, i: nat)
    requires Good(rs) && i < |rs| < MAX_RANGES && Proper(q) && Clear(rs, q, i) && Splits(rs[i], q)
    ensures var u := rs[i := Range(rs[i].start, q.start)] + [Range(q.end, rs[i].end)];
      Good(u) && Clear(u, q, i + 1) && forall j :: i + 1 <= j < |u| ==> !Splits(u[j], q)
  {
    var l, h := Range(rs[i].start, q.start), Range(q.end, rs[i].end);
    GoodUpdate(rs, i, l);
    var t := rs[i := l];
    forall j | 0 <= j < |t|
      ensures !Overlap(t[j], h)
    {
      OthersApart(rs, i, j);
    }
    GoodAppend(t, h);
    var u := t + [h];
    forall j | i + 1 <= j < |u|
      ensures !Splits(u[j], q)
    {
      if j < |rs| {
        OthersApart(rs, i, j);
      }
    }
  }

  lemma OthersApart(rs: seq<Range>, i: nat, j: nat)
    requires Good(rs) && i < |rs| && j < |rs|
    ensures i != j ==> !Overlap(rs[i], rs[j]) && !Overlap(rs[j], rs[i])
    ensures Proper(rs[i]) && Proper(rs[j]) && |rs| <= MAX_RANGES
  {
  }

  /** `u` is `rs` without the addresses of `q`. */
  ghost predicate Difference(rs: seq<Range>, u: seq<Range>, q: Range) {
    forall a :: In(u, a) <==> In(rs, a) && !Contains(q, a)
  }

  lemma ClearIsDifference(rs: seq<Range>, q: Range)
    requires Clear(rs, q, |rs|)
    ensures Difference(rs, rs, q)
  {
    forall a
      ensures In(rs, a) ==> !Contains(q, a)
    {
      if In(rs, a) {
        var i :| 0 <= i < |rs| && Contains(rs[i], a);
        assert !Overlap(rs[i], q);
      }
    }
  }

  lemma DifferenceOutside(rs: seq<Range>, u: seq<Range>, v: seq<Range>, q: Range)
    requires SameOutside(rs, u, q) && Difference(u, v, q)
    ensures Difference(rs, v, q)
  {
  }

  /** Reserving removes exactly the reserved addresses as long as no split meets a full table. */
  lemma {:induction false} ReserveIsDifference(rs: seq<Range>, q: Range, i: nat)
    requires Good(rs) && Proper(q) && Clear(rs, q, i) && Roomy(rs, q, i)
    ensures Good(Reserve(rs, q, i)) && Difference(rs, Reserve(rs, q, i), q)
    decreases MAX_RANGES + |rs| - 2 * i
  {
    hide Good, Difference, SameOutside, In;
    if i == |rs| {
      ClearIsDifference(rs, q);
    } else {
      OthersApart(rs, i, i);
      var r := rs[i];
      var u := rs;
      if q.end <= r.start || q.start >= r.end {
        ReserveIsDifference(rs, q, i + 1);
      } else if q.start <= r.start && q.end >= r.end {
        u := SwapRemove(rs, i);
        GoodSwapRemove(rs, i);
        RemoveOutside(rs, q, i);
        ReserveIsDifference(u, q, i);
        DifferenceOutside(rs, u, Reserve(u, q, i), q);
      } else if q.start <= r.start || q.end >= r.end {
        var cut := if q.start <= r.start then Range(q.end, r.end) else Range(r.start, q.start);
        u := rs[i := cut];
        Cut(rs, q, i, cut);
        CutOutside(rs, q, i, cut);
        ReserveIsDifference(u, q, i + 1);
        DifferenceOutside(rs, u, Reserve(u, q, i + 1), q);
      } else {
        u := rs[i := Range(r.start, q.start)] + [Range(q.end, r.end)];
        SplitGood(rs, q, i);
        SplitOutside(rs, q, i);
        ReserveIsDifference(u, q, i + 1);
        DifferenceOutside(rs, u, Reserve(u, q, i + 1), q);
      }
    }
  }

  lemma OnlyOneSplits(rs: seq<Range>, q: Range, i: nat, k: nat)
    requires Good(rs) && Proper(q) && i < |rs| && k < |rs| && i != k && Splits(rs[k], q)
    ensures !Overlap(rs[i], q)
  {
    OthersApart(rs, i, k);
  }

  /** With a full table a split keeps the low part and loses the high one, and nothing else happens. */
  lemma {:induction false} ReserveLosesTail(rs: seq<Range>, q: Range, i: nat, k: nat)
    requires Good(rs) && Proper(q) && |rs| == MAX_RANGES && i <= k < |rs| && Splits(rs[k], q)
    ensures Reserve(rs, q, i) == rs[k := Range(rs[k].start, q.start)]
    decreases |rs| - i
  {
    if i < k {
      OnlyOneSplits(rs, q, i, k);
      ReserveLosesTail(rs, q, i + 1, k);
    } else {
      var u := rs[k := Range(rs[k].start, q.start)];
      forall j | k + 1 <= j < |u|
        ensures !Overlap(u[j], q)
      {
        OnlyOneSplits(rs, q, j, k);
      }
      NothingLeft(u, q, k + 1);
    }
  }

  lemma {:induction false} NothingLeft(rs: seq<Range>, q: Range, i: nat)
    requires i <= |rs| <= MAX_RANGES && forall j :: i <= j < |rs| ==> !Overlap(rs[j], q)
    ensures Reserve(rs, q, i) == rs
    decreases |rs| - i
  {
    if i < |rs| {
      NothingLeft(rs, q, i + 1);
    }
  }

  /** Reserving is exact, or the table was full and a range around the reservation lost its tail. */
  lemma ReserveResult(rs: seq<Range>, q: Range)
    requires Good(rs) && Proper(q)
    ensures Good(Reserve(rs, q, 0))
    ensures Roomy(rs, q, 0) ==> Difference(rs, Reserve(rs, q, 0), q)
    ensures !Roomy(rs, q, 0) ==>
        exists k :: 0 <= k < |rs| && Splits(rs[k], q)
          && Difference(rs, Reserve(rs, q, 0), Range(q.start, rs[k].end))
  {
    hide Difference, In;
    if Roomy(rs, q, 0) {
      ReserveIsDifference(rs, q, 0);
    } else {
      var k :| 0 <= k < |rs| && Splits(rs[k], q);
      var low := Range(rs[k].start, q.start);
      ReserveLosesTail(rs, q, 0, k);
      GoodUpdate(rs, k, low);
      CutTail(rs, k, q.start);
    }
  }

  lemma CutTail(rs: seq<Range>, k: nat, at: nat)
    requires Good(rs) && k < |rs| && rs[k].start < at < rs[k].end
    ensures Difference(rs, rs[k := Range(rs[k].start, at)], Range(at, rs[k].end))
  {
    var u := rs[k := Range(rs[k].start, at)];
    forall a
      ensures In(u, a) <==> In(rs, a) && !Contains(Range(at, rs[k].end), a)
    {
      InSplits(rs, k, a);
      InUpdate(rs, k, Range(rs[k].start, at), a);
      ApartFrom(rs, k, a);
    }
  }

  /** An address of range `k` is in no other range. */
  lemma ApartFrom(rs: seq<Range>, k: nat, a: int)
    requires Good(rs) && k < |rs|
    ensures Contains(rs[k], a) ==> !Elsewhere(rs, k, a)
  {
    if Elsewhere(rs, k, a) {
      var j :| 0 <= j < |rs| && j != k && Contains(rs[j], a);
      OthersApart(rs, k, j);
    }
  }
}
