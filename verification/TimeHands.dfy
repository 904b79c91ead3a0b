/** The running clock of src/kernel/time.c:74-91, 281-336: the offset advances by ticks, a reading
    adds what the counter has done since. */
module TimeHands {
  import opened Bits
  import opened Bintime

  // ---- the scale ----

  lemma ScaleFits(f: nat)
    requires 2 <= f < WORD
    ensures Scale(f) == (WORD - 1) / f + 1
  {
    hide Low;
    var q := (WORD - 1) / f;
    DivBounds(WORD - 1, f);
    if q >= WORD - 1 {
      MulMonotone(2, f, q);
    }
    LowOf(q + 1);
  }

  /** One second of counts is 2^64 units, rounded up to a multiple of the frequency. */
  lemma ScaleBounds(f: nat)
    requires 2 <= f < WORD
    ensures WORD <= Scale(f) * f <= WORD + f - 1
  {
    hide Scale;
    ScaleFits(f);
    var q := (WORD - 1) / f;
    DivBounds(WORD - 1, f);
    assert (q + 1) * f == q * f + f;
  }

  /** The bounds hold for every frequency but one: at 1 Hz the scale needs 65 bits and becomes zero. */
  lemma ScaleGoodIff(f: nat)
    requires 1 <= f < WORD
    ensures WORD <= Scale(f) * f <= WORD + f - 1 <==> f >= 2
  {
    if f >= 2 {
      ScaleBounds(f);
    }
  }

  /** `n` counts at the scale of `f` are never behind `n / f` seconds, and ahead by less than `n` units. */
  lemma ScaleError(f: nat, n: nat)
    requires 2 <= f < WORD
    ensures n * WORD <= n * Scale(f) * f
    ensures n > 0 ==> n * Scale(f) * f < n * WORD + n * f
  {
    ScaleBounds(f);
    var s := Scale(f) * f;
    assert n * Scale(f) * f == s * n by {
      Regroup(n, Scale(f), f);
    }
    MulMonotone(WORD, s, n);
    MulMonotone(s, WORD + f - 1, n);
    assert (WORD + f - 1) * n == WORD * n + f * n - n;
  }

  lemma Regroup(a: nat, b: nat, c: nat)
    ensures a * b * c == (b * c) * a
  {
  }

  // ---- the clock on values ----

  /** A counter of `mask + 1` states. */
  datatype Counter = Counter(id: nat, mask: nat, frequency: nat)

  /** The offset in units, and the reading it was taken at. */
  datatype Hands = Hands(units: nat, count: nat, counter: Option<Counter>, scale: nat)

  ghost predicate CounterOk(c: Counter) {
    0 < c.frequency < WORD && exists k: nat :: k <= 64 && c.mask + 1 == Pow2(k)
  }

  /** Clearing the bits outside a mask of low ones. */
  function Masked(x: nat, mask: nat): nat {
    x % (mask + 1)
  }

  function Delta(h: Hands, now: nat): nat
    requires h.counter.Some?
  {
    Masked(Low(now - h.count), h.counter.value.mask)
  }

  function Uptime(h: Hands, now: nat): nat {
    if h.counter.None? then 0 else Low2(h.units + Delta(h, now) * h.scale)
  }

  function Tick(h: Hands, now: nat): Hands {
    if h.counter.None? then h else h.(units := Uptime(h, now), count := now)
  }

  function Ticks(h: Hands, readings: seq<nat>): Hands
    decreases |readings|, h
  {
    if readings == [] then h else Ticks(Tick(h, readings[0]), readings[1..])
  }

  /** The counter shows `reading` after `n` counts from `base`. */
  predicate Shows(mask: nat, reading: nat, base: nat, n: nat) {
    reading < WORD && reading % (mask + 1) == (base + n) % (mask + 1)
  }

  function Before(m: nat, ns: seq<nat>, i: nat): nat
    requires i <= |ns|
  {
    if i == 0 then m else ns[i - 1]
  }

  /** Readings at the counts `ns`, no two in a row more than the mask apart. */
  predicate Schedule(mask: nat, base: nat, m: nat, readings: seq<nat>, ns: seq<nat>) {
    && |readings| == |ns|
    && (forall i :: 0 <= i < |ns| ==> Shows(mask, readings[i], base, ns[i]))
    && (forall i :: 0 <= i < |ns| ==> Before(m, ns, i) <= ns[i] <= Before(m, ns, i) + mask)
  }

  lemma Pow2Divides(k: nat)
    requires k <= 64
    ensures WORD == Pow2(64 - k) * Pow2(k)
  {
    Pow2Add(64 - k, k);
    Pow2Values();
    Pow2Add(8, 8);
    Pow2Add(16, 16);
    Pow2Add(32, 32);
  }

  /** Two readings at most the mask apart differ by the counts between them, however the counter wrapped. */
  lemma DeltaIsExact(h: Hands, base: nat, m: nat, now: nat, n: nat)
    requires h.counter.Some? && CounterOk(h.counter.value)
    requires Shows(h.counter.value.mask, h.count, base, m) && Shows(h.counter.value.mask, now, base, n)
    requires m <= n <= m + h.counter.value.mask
    ensures Delta(h, now) == n - m
  {
    hide Pow2, Low;
    var size := h.counter.value.mask + 1;
    var k: nat :| k <= 64 && size == Pow2(k);
    Pow2Divides(k);
    ResidueIsExact(now, h.count, base + n, base + m, size, Pow2(64 - k));
  }

  lemma ResidueIsExact(x: nat, y: nat, u: nat, v: nat, size: nat, e: nat)
    requires size > 0 && WORD == e * size
    requires x % size == u % size && y % size == v % size && v <= u < v + size
    ensures Low(x - y) % size == u - v
  {
    hide Low;
    var a := SameResidue(x, u, size);
    var b := SameResidue(y, v, size);
    var t := LowIsCongruent(x - y, size, e);
    var q := a - b + t;
    assert Low(x - y) == size * q + (u - v) by {
      Distribute(size, a, b, t);
    }
    DivUnique(Low(x - y), size, q, u - v);
  }

  lemma Distribute(d: int, a: int, b: int, t: int)
    ensures d * (a - b + t) == d * a - d * b + d * t
  {
  }

  lemma SameResidue(x: int, y: int, d: nat) returns (q: int)
    requires d > 0 && x % d == y % d
    ensures x - y == d * q
  {
    q := x / d - y / d;
    Distribute(d, x / d, y / d, 0);
  }

  lemma LowIsCongruent(x: int, d: nat, e: nat) returns (q: int)
    requires d > 0 && WORD == e * d
    ensures Low(x) - x == d * q
  {
    q := -(e * (x / WORD));
    Regrouped(e, d, x / WORD);
  }

  lemma Regrouped(e: int, d: int, c: int)
    ensures e * d * c == -(d * -(e * c))
  {
  }

  // ---- the schedule does not matter ----

  /** One tick keeps the offset on the line of slope `scale` through the start. */
  lemma TickOnLine(h: Hands, base: nat, m: nat, now: nat, n: nat)
    requires h.counter.Some? && CounterOk(h.counter.value)
    requires Shows(h.counter.value.mask, h.count, base, m) && Shows(h.counter.value.mask, now, base, n)
    requires m <= n <= m + h.counter.value.mask
    ensures Tick(h, now).units == Uptime(h, now) == Low2(h.units + (n - m) * h.scale)
  {
    DeltaIsExact(h, base, m, now, n);
  }

  lemma Low2Adds(x: nat, y: nat)
    ensures Low2(Low2(x) + y) == Low2(x + y)
  {
  }

  lemma LinesJoin(u: nat, m: nat, n: nat, l: nat, scale: nat)
    requires m <= n <= l
    ensures Low2(Low2(u + (n - m) * scale) + (l - n) * scale) == Low2(u + (l - m) * scale)
  {
    Low2Adds(u + (n - m) * scale, (l - n) * scale);
    assert (l - m) * scale == (n - m) * scale + (l - n) * scale;
  }

  /** Whatever the ticks, a reading after `n` counts shows the start plus `n` times the scale. */
  lemma {:induction false} ScheduleIndependent(
    h: Hands, base: nat, m: nat, readings: seq<nat>, ns: seq<nat>, now: nat, n: nat)
    requires h.counter.Some? && CounterOk(h.counter.value)
    requires Shows(h.counter.value.mask, h.count, base, m)
    requires Schedule(h.counter.value.mask, base, m, readings + [now], ns + [n])
    ensures n >= m && Uptime(Ticks(h, readings), now) == Low2(h.units + (n - m) * h.scale)
    decreases |readings|
  {
    hide Uptime, Low2, Shows, CounterOk;
    var mask := h.counter.value.mask;
    var rs, cs := readings + [now], ns + [n];
    FirstOf(mask, base, m, rs, cs);
    if readings == [] {
      TickOnLine(h, base, m, now, n);
    } else {
      TickOnLine(h, base, m, readings[0], ns[0]);
      assert rs[1..] == readings[1..] + [now] && cs[1..] == ns[1..] + [n];
      ScheduleIndependent(Tick(h, readings[0]), base, ns[0], readings[1..], ns[1..], now, n);
      LinesJoin(h.units, m, ns[0], n, h.scale);
    }
  }

  lemma FirstOf(mask: nat, base: nat, m: nat, readings: seq<nat>, ns: seq<nat>)
    requires Schedule(mask, base, m, readings, ns) && ns != []
    ensures Shows(mask, readings[0], base, ns[0]) && m <= ns[0] <= m + mask
    ensures Schedule(mask, base, ns[0], readings[1..], ns[1..])
  {
    hide Shows;
    assert Before(m, ns, 0) == m;
    forall i | 0 <= i < |ns[1..]|
      ensures Shows(mask, readings[1..][i], base, ns[1..][i])
      ensures Before(ns[0], ns[1..], i) <= ns[1..][i] <= Before(ns[0], ns[1..], i) + mask
    {
      assert Shows(mask, readings[i + 1], base, ns[i + 1]);
      assert Before(m, ns, i + 1) == Before(ns[0], ns[1..], i);
    }
  }

  /** Two readings of one clock: under any two schedules the later one is not the smaller, until 128 bits are used up. */
  lemma UptimeMonotone(
    h: Hands, base: nat, m: nat,
    readings: seq<nat>, ns: seq<nat>, now: nat, n: nat, readings': seq<nat>, ns': seq<nat>, now': nat, n': nat)
    requires h.counter.Some? && CounterOk(h.counter.value) && Shows(h.counter.value.mask, h.count, base, m)
    requires Schedule(h.counter.value.mask, base, m, readings + [now], ns + [n])
    requires Schedule(h.counter.value.mask, base, m, readings' + [now'], ns' + [n'])
    requires n <= n' && h.units + (n' - m) * h.scale < SPAN
    ensures Uptime(Ticks(h, readings), now) <= Uptime(Ticks(h, readings'), now')
  {
    hide Low2, Uptime, Ticks, Schedule, Shows, CounterOk;
    ScheduleIndependent(h, base, m, readings, ns, now, n);
    ScheduleIndependent(h, base, m, readings', ns', now', n');
    MulMonotone(n - m, n' - m, h.scale);
    MulMonotone(0, n - m, h.scale);
    Low2Of(h.units + (n - m) * h.scale);
    Low2Of(h.units + (n' - m) * h.scale);
  }

  /** Switching to counter `c`, which shows `nowNew`, while the old one shows `nowOld`. */
  function Wound(h: Hands, c: Counter, nowOld: nat, nowNew: nat): Hands
    requires c.frequency > 0
  {
    if h.counter == Some(c) then h
    else Hands(if h.counter.Some? then Uptime(h, nowOld) else h.units, nowNew, Some(c), Scale(c.frequency))
  }

  /**
   * After a switch to a counter of at least 2 Hz and any schedule of ticks, the uptime gained is never behind
   * the true time of the `n - m` counts since, and ahead of it by less than one unit per count.
   */
  lemma UptimeError(
    old': Hands, c: Counter, nowOld: nat, nowNew: nat, base: nat, m: nat,
    readings: seq<nat>, ns: seq<nat>, now: nat, n: nat)
    requires CounterOk(c) && c.frequency >= 2 && old'.counter != Some(c) && Shows(c.mask, nowNew, base, m)
    requires Schedule(c.mask, base, m, readings + [now], ns + [n])
    requires var h := Wound(old', c, nowOld, nowNew); n >= m ==> h.units + (n - m) * h.scale < SPAN
    ensures var h := Wound(old', c, nowOld, nowNew);
      && n >= m && Uptime(Ticks(h, readings), now) >= h.units
      && var gained := Uptime(Ticks(h, readings), now) - h.units;
        && (n - m) * WORD <= gained * c.frequency
        && (n > m ==> gained * c.frequency < (n - m) * WORD + (n - m) * c.frequency)
  {
    hide Low2, Uptime, Ticks, Schedule, Shows, CounterOk, Scale;
    var h := Wound(old', c, nowOld, nowNew);
    ScheduleIndependent(h, base, m, readings, ns, now, n);
    MulMonotone(0, n - m, h.scale);
    Low2Of(h.units + (n - m) * h.scale);
    FrequencyIsWord(c);
    ScaleError(c.frequency, n - m);
  }

  lemma FrequencyIsWord(c: Counter)
    requires CounterOk(c)
    ensures c.frequency < WORD
  {
  }

  // ---- the code ----

  class Clock {
    const offset: Time
    var offsetCount: nat
    var counter: Option<Counter>
    var scale: nat
    var initialized: bool
    var bootSeconds: nat
    var uptimeSeconds: nat
    var second: nat

    /** The clock before a counter is chosen. */
    constructor (boot: nat)
      requires boot < WORD
      ensures Valid() && fresh(offset) && initialized && bootSeconds == boot
      ensures State() == Hands(0, 0, None, 0) && uptimeSeconds == 0 && second == 0
    {
      offset := new Time();
      offsetCount, counter, scale, initialized := 0, None, 0, true;
      bootSeconds, uptimeSeconds, second := boot, 0, 0;
    }

    ghost predicate Valid()
      reads this, offset
    {
      offset.Valid() && scale < WORD && offsetCount < WORD && bootSeconds < WORD
      && (counter.Some? ==> counter.value.mask < WORD)
    }

    ghost function State(): Hands
      reads this, offset
    {
      Hands(offset.Value(), offsetCount, counter, scale)
    }

    /** A reading of the clock when the counter shows `now`. */
    method FromCounter(now: nat, bt: Time)
      requires Valid() && now < WORD && bt != offset
      modifies bt
      ensures bt.Valid() && bt.Value() == Uptime(State(), now)
    {
      if counter.None? {
        bt.sec, bt.frac := 0, 0;
        return;
      }
      var delta := Masked(Low(now - offsetCount), counter.value.mask);
      bt.sec, bt.frac := offset.sec, offset.frac;
      bt.AddDelta(delta, scale);
    }

    /** The interrupt handler's share of keeping time. */
    method OnTick(now: nat)
      requires Valid() && now < WORD
      modifies this`offsetCount, this`uptimeSeconds, this`second, offset
      ensures Valid()
      ensures State() == if initialized then Tick(old(State()), now) else old(State())
      ensures initialized && counter.Some? ==>
        uptimeSeconds == offset.sec && second == Low(bootSeconds + uptimeSeconds)
      ensures !(initialized && counter.Some?) ==> uptimeSeconds == old(uptimeSeconds) && second == old(second)
    {
      if !initialized || counter.None? {
        return;
      }
      var delta := Masked(Low(now - offsetCount), counter.value.mask);
      offset.AddDelta(delta, scale);
      offsetCount := now;
      uptimeSeconds := offset.sec;
      second := Low(bootSeconds + uptimeSeconds);
    }

    /** Switches to counter `tc`, which shows `nowNew` while the old one shows `nowOld`. */
    method Windup(tc: Option<Counter>, nowOld: nat, nowNew: nat)
      requires Valid() && nowOld < WORD && nowNew < WORD
      requires tc.Some? ==> tc.value.frequency > 0 && tc.value.mask < WORD
      modifies this`offsetCount, this`counter, this`scale, offset
      ensures Valid()
      ensures tc.None? ==> State() == old(State())
      ensures tc.Some? ==> State() == Wound(old(State()), tc.value, nowOld, nowNew)
    {
      hide Scale, Uptime;
      if tc.None? || counter == tc {
        return;
      }
      if counter.Some? {
        var bt := new Time();
        FromCounter(nowOld, bt);
        offset.sec, offset.frac := bt.sec, bt.frac;
      }
      counter := tc;
      offsetCount := nowNew;
      ScaleIsWord(tc.value.frequency);
      scale := Scale(tc.value.frequency);
    }
  }

  lemma NoDelta(h: Hands, now: nat)
    requires h.counter.Some? && h.count == now
    ensures Delta(h, now) == 0
  {
  }

  lemma LowTwice(x: int)
    ensures Low2(Low2(x)) == Low2(x)
  {
  }

  /** A switch of counters neither loses nor gains time. */
  lemma WindupIsContinuous(h: Hands, c: Counter, nowOld: nat, nowNew: nat)
    requires h.counter.Some? && h.counter != Some(c) && c.frequency > 0 && nowNew < WORD
    ensures Uptime(Wound(h, c, nowOld, nowNew), nowNew) == Uptime(h, nowOld)
  {
    hide Scale, Delta, Low2;
    var after := Wound(h, c, nowOld, nowNew);
    NoDelta(after, nowNew);
    assert Delta(after, nowNew) * after.scale == 0;
    LowTwice(h.units + Delta(h, nowOld) * h.scale);
  }
}
