/** What every step of the scheduler keeps, over every interleaving of its locked
    regions on all CPUs. */
module SchedulerSafety {
  import opened Scheduler

  predicate ClaimsDead(th: Thread) {
    th.used && th.state == Terminated && th.cpu >= 0
  }

  /** How many of the first `n` threads are dead and still claim a CPU. */
  function DeadClaims(threads: seq<Thread>, n: nat): nat
    requires n <= |threads|
  {
    if n == 0 then 0 else DeadClaims(threads, n - 1) + if ClaimsDead(threads[n - 1]) then 1 else 0
  }

  /** A CPU's current thread names that CPU. */
  ghost predicate CurrentClaims(s: State)
    requires WellFormed(s)
  {
    forall c :: 0 <= c < MAX_CPUS && s.current[c] >= 0 ==>
      s.threads[s.current[c]].used && s.threads[s.current[c]].cpu == c
  }

  /** A thread that names a CPU is current there or dead. */
  ghost predicate ClaimsCurrent(s: State)
    requires WellFormed(s)
  {
    forall t :: 0 <= t < MAX_THREADS && s.threads[t].used && s.threads[t].cpu >= 0 ==>
      s.current[s.threads[t].cpu] == t || s.threads[t].state == Terminated
  }

  ghost predicate Safe(s: State) {
    && WellFormed(s)
    && CurrentClaims(s)
    && ClaimsCurrent(s)
    && DeadClaims(s.threads, MAX_THREADS) <= s.dead
  }

  lemma {:induction false} DeadClaimsUpdate(threads: seq<Thread>, t: nat, th: Thread, n: nat)
    requires t < |threads| && n <= |threads|
    ensures DeadClaims(threads[t := th], n)
         == DeadClaims(threads, n)
          + (if t < n && ClaimsDead(th) then 1 else 0) - (if t < n && ClaimsDead(threads[t]) then 1 else 0)
  {
    if n != 0 {
      DeadClaimsUpdate(threads, t, th, n - 1);
    }
  }

  lemma {:induction false} DeadClaimsPositive(threads: seq<Thread>, t: nat, n: nat)
    requires t < n <= |threads| && ClaimsDead(threads[t])
    ensures DeadClaims(threads, n) >= 1
  {
    if t < n - 1 {
      DeadClaimsPositive(threads, t, n - 1);
    }
  }

  // ---- what a pick returns ----

  /** The scan returns the first acceptable thread in cyclic order, else `cur`. */
  lemma {:induction false} ScanFirst(s: State, cpu: int, cur: int, any: bool, i: nat) returns (j: nat)
    requires WellFormed(s) && -1 <= cur < MAX_THREADS && i <= MAX_THREADS
    ensures i <= j <= MAX_THREADS
    ensures forall k :: i <= k < j ==> !Accepts(s, Slot(Start(cur), k), cpu, any)
    ensures j == MAX_THREADS ==> Scan(s, cpu, cur, any, i) == cur
    ensures j < MAX_THREADS ==>
      Scan(s, cpu, cur, any, i) == Slot(Start(cur), j) && Accepts(s, Slot(Start(cur), j), cpu, any)
    decreases MAX_THREADS - i
  {
    hide Accepts, Slot;
    if i == MAX_THREADS || Accepts(s, Slot(Start(cur), i), cpu, any) {
      j := i;
    } else {
      j := ScanFirst(s, cpu, cur, any, i + 1);
    }
  }

  /** A picked thread is used, runnable, and claimed by no other CPU. */
  lemma PickedIsFree(s: State, cpu: int, cur: int, any: bool)
    requires WellFormed(s) && -1 <= cur < MAX_THREADS
    ensures var t := Scan(s, cpu, cur, any, 0);
      t != cur ==> IsThread(t) && Takeable(s, t, cpu)
  {
    var j := ScanFirst(s, cpu, cur, any, 0);
  }

  // ---- each single update keeps the state safe ----

  /** `t` is alive and off every CPU, and nothing but dead threads claims `cpu`. */
  ghost predicate MayRun(s: State, cpu: int, t: int)
    requires WellFormed(s) && 0 <= cpu < MAX_CPUS && IsThread(t)
  {
    && s.threads[t].used && s.threads[t].cpu < 0 && s.threads[t].state != Terminated
    && (forall c :: 0 <= c < MAX_CPUS && c != cpu && s.current[c] >= 0 ==>
          s.threads[s.current[c]].used && s.threads[s.current[c]].cpu == c)
    && (forall u :: 0 <= u < MAX_THREADS && s.threads[u].used && s.threads[u].cpu >= 0 ==>
          s.threads[u].state == Terminated || (s.threads[u].cpu != cpu && s.current[s.threads[u].cpu] == u))
    && DeadClaims(s.threads, MAX_THREADS) <= s.dead
  }

  lemma SetCurrentSafe(s: State, cpu: int, t: int)
    requires WellFormed(s) && 0 <= cpu < MAX_CPUS && IsThread(t) && MayRun(s, cpu, t)
    ensures Safe(SetCurrent(s, cpu, t))
  {
    DeadClaimsUpdate(s.threads, t, s.threads[t].(state := Running, cpu := cpu), MAX_THREADS);
  }

  lemma BootSafe(s: State, cpu: int)
    requires Safe(s) && 0 <= cpu < MAX_CPUS && s.current[cpu] < 0
    ensures Safe(Boot(s, cpu))
  {
    PickedIsFree(s, cpu, -1, false);
    var next := PickNext(s, cpu, -1);
    hide PickNext;
    if next >= 0 {
      SetCurrentSafe(s, cpu, next);
    }
  }

  lemma SleepSwitchSafe(s: State, cpu: int)
    requires Safe(s) && 0 <= cpu < MAX_CPUS && s.current[cpu] >= 0
    ensures Safe(SleepSwitch(s, cpu))
  {
    var cur := s.current[cpu];
    var off := SetCpu(s, cur, -1);
    PickedIsFree(off, cpu, cur, false);
    var next := PickNext(off, cpu, cur);
    hide PickNext;
    DeadClaimsUpdate(s.threads, cur, s.threads[cur].(cpu := -1), MAX_THREADS);
    if next < 0 || next == cur {
      assert off.threads[cur := off.threads[cur].(cpu := cpu)] == s.threads;
    } else {
      SetCurrentSafe(off, cpu, next);
    }
  }

  /** Taking the current thread off its CPU changes no dead claim. */
  lemma DescheduledClaims(s: State, cpu: int)
    requires Safe(s) && 0 <= cpu < MAX_CPUS && s.current[cpu] >= 0
    ensures DeadClaims(Descheduled(s, cpu).threads, MAX_THREADS) <= s.dead
  {
    var cur := s.current[cpu];
    var th := s.threads[cur];
    DeadClaimsUpdate(s.threads, cur, th.(state := Runnable), MAX_THREADS);
    DeadClaimsUpdate(s.threads, cur, th.(cpu := -1), MAX_THREADS);
    DeadClaimsUpdate(SetState(s, cur, Runnable).threads, cur, th.(state := Runnable, cpu := -1), MAX_THREADS);
  }

  lemma NextIsFree(s: State, cpu: int, cur: int)
    requires WellFormed(s) && IsThread(cur)
    ensures var t := NextFor(s, cpu, cur); t != cur ==> IsThread(t) && Takeable(s, t, cpu)
  {
    hide Scan;
    PickedIsFree(s, cpu, cur, false);
    PickedIsFree(s, cpu, cur, true);
  }

  lemma SwitchSafe(s: State, cpu: int)
    requires Safe(s) && 0 <= cpu < MAX_CPUS && s.current[cpu] >= 0
    ensures Safe(Switch(s, cpu))
  {
    hide NextFor, Scan;
    var cur := s.current[cpu];
    var off := Descheduled(s, cpu);
    DescheduledClaims(s, cpu);
    NextIsFree(off, cpu, cur);
    var next := NextFor(off, cpu, cur);
    if next < 0 || next == cur {
      StaySafe(s, cpu);
    } else {
      SetCurrentSafe(off, cpu, next);
    }
  }

  /** With nothing else to run, the current thread keeps its CPU. */
  lemma StaySafe(s: State, cpu: int)
    requires Safe(s) && 0 <= cpu < MAX_CPUS && s.current[cpu] >= 0
    ensures var cur := s.current[cpu];
      var off := Descheduled(s, cpu);
      Safe(if off.threads[cur].state == Terminated then SetCpu(off, cur, cpu)
           else SetCpu(SetState(off, cur, Running), cur, cpu))
  {
    var cur := s.current[cpu];
    var off := Descheduled(s, cpu);
    var th := off.threads[cur];
    DescheduledClaims(s, cpu);
    if th.state == Terminated {
      assert off.threads[cur := th.(cpu := cpu)] == s.threads;
    } else {
      DeadClaimsUpdate(off.threads, cur, th.(state := Running), MAX_THREADS);
      DeadClaimsUpdate(SetState(off, cur, Running).threads, cur, th.(state := Running, cpu := cpu), MAX_THREADS);
    }
  }

  lemma RetireOneSafe(s: State, cpu: int, t: int)
    requires Safe(s) && 0 <= cpu < MAX_CPUS && IsThread(t)
    ensures Safe(RetireOne(s, cpu, t))
  {
    if Retirable(s, cpu, t) {
      DeadClaimsUpdate(s.threads, t, s.threads[t].(cpu := -1), MAX_THREADS);
      DeadClaimsPositive(s.threads, t, MAX_THREADS);
    }
  }

  lemma {:induction false} RetireFromSafe(s: State, cpu: int, t: nat)
    requires Safe(s) && 0 <= cpu < MAX_CPUS && t <= MAX_THREADS
    ensures Safe(RetireFrom(s, cpu, t))
    decreases MAX_THREADS - t
  {
    if t < MAX_THREADS {
      RetireOneSafe(s, cpu, t);
      RetireFromSafe(RetireOne(s, cpu, t), cpu, t + 1);
    }
  }

  lemma MarkDeadSafe(s: State, t: int)
    requires Safe(s) && IsThread(t)
    ensures Safe(MarkDead(s, t))
  {
    DeadClaimsUpdate(s.threads, t, s.threads[t].(state := Terminated), MAX_THREADS);
  }

  lemma {:induction false} MarkListSafe(s: State, list: seq<int>, spare: int)
    requires Safe(s) && forall t :: t in list ==> IsThread(t)
    ensures Safe(MarkList(s, list, spare))
    decreases |list|
  {
    if list != [] {
      if list[0] != spare {
        MarkDeadSafe(s, list[0]);
      }
      MarkListSafe(if list[0] == spare then s else MarkDead(s, list[0]), list[1..], spare);
    }
  }

  lemma DestroySafe(s: State, cpu: int, t: int)
    requires Safe(s) && 0 <= cpu < MAX_CPUS && IsThread(t)
    ensures Safe(Destroy(s, cpu, t))
  {
    DeadClaimsUpdate(s.threads, t, NO_THREAD, MAX_THREADS);
  }

  lemma {:induction false} DestroyListSafe(s: State, cpu: int, list: seq<int>)
    requires Safe(s) && 0 <= cpu < MAX_CPUS && forall t :: t in list ==> IsThread(t)
    ensures Safe(DestroyList(s, cpu, list))
    decreases |list|
  {
    if list != [] {
      DestroySafe(s, cpu, list[0]);
      DestroyListSafe(Destroy(s, cpu, list[0]), cpu, list[1..]);
    }
  }

  lemma {:induction false} ReapFromSafe(s: State, cpu: int, p: nat)
    requires Safe(s) && 0 <= cpu < MAX_CPUS && p <= MAX_PROCS
    ensures Safe(ReapFrom(s, cpu, p))
    decreases MAX_PROCS - p
  {
    hide Destroy, DestroyList;
    if p < MAX_PROCS {
      DestroyListSafe(s, cpu, s.procs[p].list);
      ReapFromSafe(ReapOne(s, cpu, p), cpu, p + 1);
    }
  }
}
