/** What each region of the scheduler does to the threads and CPUs it may touch, stated
    of the states before and after it. */
module SchedulerEffects {
  import opened Scheduler
  import opened SchedulerSafety
  import opened SchedulerRuns

  // ---- picking ----

  /** `t` is the acceptable thread that comes first after `cur` in cyclic order, or `cur`
      when there is none. */
  ghost predicate First(s: State, cpu: int, cur: int, any: bool, t: int)
    requires WellFormed(s) && -1 <= cur < MAX_THREADS
  {
    if forall u :: IsThread(u) ==> !Accepts(s, u, cpu, any) then t == cur
    else IsThread(t) && Accepts(s, t, cpu, any) && NoneBefore(s, cpu, cur, any, t)
  }

  ghost predicate NoneBefore(s: State, cpu: int, cur: int, any: bool, t: int)
    requires WellFormed(s) && -1 <= cur < MAX_THREADS && IsThread(t)
  {
    forall u :: IsThread(u) && Accepts(s, u, cpu, any) ==> Distance(cur, t) <= Distance(cur, u)
  }

  lemma PickIsFirst(s: State, cpu: int, cur: int, any: bool)
    requires WellFormed(s) && -1 <= cur < MAX_THREADS
    ensures First(s, cpu, cur, any, Scan(s, cpu, cur, any, 0))
  {
    var j := ScanFirst(s, cpu, cur, any, 0);
    hide Accepts, Scan;
    forall u | IsThread(u) && Accepts(s, u, cpu, any) ensures j <= Distance(cur, u) {
      SlotDistance(cur, u, 0);
    }
    if j < MAX_THREADS {
      SlotDistance(cur, 0, j);
    }
    hide Slot, Distance;
  }

  /** A pick that comes back to `cur` found no other acceptable thread. */
  lemma NothingElse(s: State, cpu: int, cur: int, any: bool, u: int)
    requires WellFormed(s) && IsThread(cur) && IsThread(u) && u != cur
    requires Scan(s, cpu, cur, any, 0) == cur
    ensures !Accepts(s, u, cpu, any)
  {
    PickIsFirst(s, cpu, cur, any);
    hide Accepts, Scan;
  }

  // ---- one CPU moves on ----

  /** Apart from the thread `cpu` ran and the one it runs now, nothing moved. */
  ghost predicate OnlyCpu(s: State, r: State, cpu: int)
    requires WellFormed(s) && WellFormed(r) && 0 <= cpu < MAX_CPUS
  {
    && r.current == s.current[cpu := r.current[cpu]]
    && forall u :: 0 <= u < MAX_THREADS && u != s.current[cpu] && u != r.current[cpu] ==> r.threads[u] == s.threads[u]
  }

  /** A thread that loses its CPU: a running one can run again, a dead one keeps its
      claim until it is retired. */
  function Released(th: Thread): Thread {
    if th.state == Running then th.(state := Runnable, cpu := -1)
    else if th.state == Terminated then th
    else th.(cpu := -1)
  }

  /** A switch on `cpu` runs another runnable thread if there is one it may take. */
  ghost predicate Switched(s: State, r: State, cpu: int)
    requires WellFormed(s) && WellFormed(r) && 0 <= cpu < MAX_CPUS && s.current[cpu] >= 0
  {
    var cur := s.current[cpu];
    && OnlyCpu(s, r, cpu)
    && (r.current[cpu] != cur ==> Took(s, r, cpu) && r.threads[cur] == Released(s.threads[cur]))
    && (r.current[cpu] == cur ==>
          && Stranded(s, cpu)
          && r.threads[cur] == if s.threads[cur].state == Terminated then s.threads[cur]
                               else s.threads[cur].(state := Running, cpu := cpu))
  }

  /** No thread but the current one may be taken. */
  ghost predicate Stranded(s: State, cpu: int)
    requires WellFormed(s) && 0 <= cpu < MAX_CPUS && s.current[cpu] >= 0
  {
    var cur := s.current[cpu];
    forall u :: IsThread(u) && u != cur ==>
      && !Eligible(Descheduled(s, cpu), u, cpu)
      && (s.threads[cur].state == Terminated ==> !Takeable(s, u, cpu))
  }

  lemma SwitchEffect(s: State, cpu: int)
    requires Safe(s) && OnCpu(s, cpu)
    ensures Safe(Switch(s, cpu)) && Switched(s, Switch(s, cpu), cpu)
  {
    SwitchSafe(s, cpu);
    PickTakesLiveThread(s, DoSwitch(cpu), cpu);
    if Switch(s, cpu).current[cpu] == s.current[cpu] {
      StrandedWhenStaying(s, cpu);
    }
    hide Stranded, NextFor, DeadClaims;
  }

  lemma StrandedWhenStaying(s: State, cpu: int)
    requires Safe(s) && OnCpu(s, cpu) && Switch(s, cpu).current[cpu] == s.current[cpu]
    ensures Stranded(s, cpu)
  {
    var cur := s.current[cpu];
    var off := Descheduled(s, cpu);
    PickedIsFree(off, cpu, cur, false);
    PickedIsFree(off, cpu, cur, true);
    hide Scan, CanRunOn, DeadClaims;
    forall u | IsThread(u) && u != cur
      ensures !Eligible(off, u, cpu) && (s.threads[cur].state == Terminated ==> !Takeable(s, u, cpu))
    {
      NothingElse(off, cpu, cur, false, u);
      if s.threads[cur].state == Terminated {
        NothingElse(off, cpu, cur, true, u);
      }
    }
  }

  /** A CPU without a thread takes one if some thread is eligible. */
  lemma BootEffect(s: State, cpu: int)
    requires Safe(s) && 0 <= cpu < MAX_CPUS && s.current[cpu] < 0
    ensures var r := Boot(s, cpu);
      && Safe(r) && OnlyCpu(s, r, cpu)
      && (r.current[cpu] != s.current[cpu] ==> Took(s, r, cpu))
      && (r.current[cpu] == s.current[cpu] ==> forall u :: IsThread(u) ==> !Eligible(s, u, cpu))
  {
    BootSafe(s, cpu);
    PickTakesLiveThread(s, DoBoot(cpu), cpu);
    PickIsFirst(s, cpu, -1, false);
    hide Scan, CanRunOn, DeadClaims;
  }

  /** A sleeping thread gives up its CPU if another one is eligible, and stays asleep. */
  lemma SleepSwitchEffect(s: State, cpu: int)
    requires Safe(s) && OnCpu(s, cpu)
    ensures var r := SleepSwitch(s, cpu);
      var cur := s.current[cpu];
      && Safe(r) && OnlyCpu(s, r, cpu)
      && (r.current[cpu] != cur ==> Took(s, r, cpu) && r.threads[cur] == s.threads[cur].(cpu := -1))
      && (r.current[cpu] == cur ==> r.threads[cur] == s.threads[cur])
  {
    SleepSwitchSafe(s, cpu);
    PickTakesLiveThread(s, DoSleepSwitch(cpu), cpu);
    hide Scan, CanRunOn, DeadClaims;
  }

  // ---- affinity ----

  /** A thread taken by the ordinary pick is eligible. */
  lemma PickedIsEligible(s: State, cpu: int, cur: int)
    requires WellFormed(s) && -1 <= cur < MAX_THREADS && PickNext(s, cpu, cur) != cur
    ensures IsThread(PickNext(s, cpu, cur)) && Eligible(s, PickNext(s, cpu, cur), cpu)
  {
    PickIsFirst(s, cpu, cur, false);
    hide Scan, CanRunOn;
  }

  lemma EligibleStays(s: State, t: int, cpu: int)
    requires WellFormed(s) && IsThread(t) && s.config.strict && Eligible(s, t, cpu)
    ensures s.threads[t].proc >= 0 && !Strays(s, t, cpu)
  {
    hide LoadOf;
  }

  /** Under strict affinity a pick puts a pinned process on another CPU than its own in
      one case only: the CPU's thread is dead and nothing eligible is left. */
  lemma StrictAffinity(s: State, a: Action, cpu: int)
    requires Safe(s) && Enabled(s, a) && IsPick(a, cpu) && s.config.strict
    requires Apply(s, a).current[cpu] != s.current[cpu]
    ensures var t := Apply(s, a).current[cpu];
      && IsThread(t)
      && (s.threads[t].proc < 0 || Strays(s, t, cpu) ==>
            a == DoSwitch(cpu) && s.threads[s.current[cpu]].state == Terminated && NoneEligible(s, cpu))
  {
    PickTakesLiveThread(s, a, cpu);
    var off, cur := PickState(s, a, cpu), s.current[cpu];
    var t := Apply(s, a).current[cpu];
    ChosenBy(s, a, cpu);
    hide Apply, PickNext, Safe, Eligible;
    if t == PickNext(off, cpu, cur) {
      PickedIsEligible(off, cpu, cur);
      EligibleStays(off, t, cpu);
    } else {
      forall u | IsThread(u) ensures !Eligible(s, u, cpu) {
        NotPicked(s, cpu, cur, u);
      }
    }
  }

  /** The taken thread is the ordinary pick, or the fallback of a dead thread's CPU. */
  lemma ChosenBy(s: State, a: Action, cpu: int)
    requires Safe(s) && Enabled(s, a) && IsPick(a, cpu)
    requires Apply(s, a).current[cpu] != s.current[cpu]
    ensures var off, cur, t := PickState(s, a, cpu), s.current[cpu], Apply(s, a).current[cpu];
      && off.procs == s.procs && off.config == s.config
      && (t != cur && IsThread(t) ==> off.threads[t] == s.threads[t])
      && (t == PickNext(off, cpu, cur) ||
          (a == DoSwitch(cpu) && cur >= 0 && s.threads[cur].state == Terminated && PickNext(s, cpu, cur) == cur))
  {
    hide PickNext, PickAny, DeadClaims, Retire, Reap, Kill, Exit, ThreadExit, Destroy;
    match a
    case DoBoot(_) =>
    case DoSleepSwitch(_) =>
    case DoSwitch(_) => NextCases(Descheduled(s, cpu), cpu, s.current[cpu]);
  }

  lemma NextCases(s: State, cpu: int, cur: int)
    requires WellFormed(s) && IsThread(cur)
    ensures NextFor(s, cpu, cur) == PickNext(s, cpu, cur)
         || (s.threads[cur].state == Terminated && PickNext(s, cpu, cur) == cur)
  {
    PickIsFirst(s, cpu, cur, false);
    hide Scan, Accepts;
  }

  /** When the pick comes back to a dead thread, nothing is eligible. */
  lemma NotPicked(s: State, cpu: int, cur: int, u: int)
    requires WellFormed(s) && IsThread(cur) && IsThread(u)
    requires s.threads[cur].state == Terminated && PickNext(s, cpu, cur) == cur
    ensures !Eligible(s, u, cpu)
  {
    if u != cur {
      NothingElse(s, cpu, cur, false, u);
    }
    hide Scan, CanRunOn;
  }

  ghost predicate NoneEligible(s: State, cpu: int)
    requires WellFormed(s)
  {
    forall u :: IsThread(u) ==> !Eligible(s, u, cpu)
  }

  /** The thread's process prefers another CPU than `cpu`. */
  ghost predicate Strays(s: State, t: int, cpu: int)
    requires WellFormed(s) && IsThread(t)
  {
    s.threads[t].proc >= 0 && s.procs[s.threads[t].proc].preferred >= 0 && s.procs[s.threads[t].proc].preferred != cpu
  }

  // ---- retiring, reaping and destroying ----

  /** Exactly the dead threads that claim `cpu` without being current there lose it. */
  ghost predicate Retired(s: State, r: State, cpu: int)
    requires WellFormed(s) && WellFormed(r) && 0 <= cpu < MAX_CPUS
  {
    && r.current == s.current
    && forall t :: 0 <= t < MAX_THREADS ==>
        && r.threads[t] == (if Retirable(s, cpu, t) then s.threads[t].(cpu := -1) else s.threads[t])
        && !Retirable(r, cpu, t)
  }

  lemma RetireEffect(s: State, cpu: int)
    requires Safe(s) && 0 <= cpu < MAX_CPUS
    ensures Safe(Retire(s, cpu)) && Retired(s, Retire(s, cpu), cpu)
  {
    RetireFromSafe(s, cpu, 0);
    hide RetireFrom;
    forall t | 0 <= t < MAX_THREADS
      ensures Retire(s, cpu).threads[t] == if Retirable(s, cpu, t) then s.threads[t].(cpu := -1) else s.threads[t]
      ensures !Retirable(Retire(s, cpu), cpu, t)
    {
      RetireIsComplete(s, cpu, t);
    }
  }

  /** Slots were freed, of threads that claimed no CPU; every other thread and the
      thread of every CPU is as it was. */
  ghost predicate OnlyFreed(s: State, r: State)
    requires WellFormed(s) && WellFormed(r)
  {
    && r.current == s.current
    && (forall c :: 0 <= c < MAX_CPUS && s.current[c] >= 0 ==> r.threads[s.current[c]] == s.threads[s.current[c]])
    && forall t :: 0 <= t < MAX_THREADS && r.threads[t] != s.threads[t] ==>
        s.threads[t].used && s.threads[t].cpu < 0 && r.threads[t] == NO_THREAD
  }

  lemma DestroyEffect(s: State, cpu: int, t: int)
    requires Safe(s) && 0 <= cpu < MAX_CPUS && IsThread(t)
    ensures Safe(Destroy(s, cpu, t)) && OnlyFreed(s, Destroy(s, cpu, t))
    ensures !Destroy(s, cpu, t).threads[t].used <==> !s.threads[t].used || s.threads[t].cpu < 0
  {
    DestroySafe(s, cpu, t);
    hide DeadClaims;
  }

  lemma {:induction false} DestroyListFreesOnly(s: State, cpu: int, list: seq<int>, u: int)
    requires WellFormed(s) && 0 <= cpu < MAX_CPUS && IsThread(u) && forall t :: t in list ==> IsThread(t)
    ensures var th := DestroyList(s, cpu, list).threads[u];
      th == s.threads[u] || (th == NO_THREAD && u in list && s.threads[u].used && s.threads[u].cpu < 0)
    decreases |list|
  {
    if list != [] {
      DestroyListFreesOnly(Destroy(s, cpu, list[0]), cpu, list[1..], u);
    }
  }

  lemma {:induction false} ReapFromFreesOnly(s: State, cpu: int, p: nat, u: int)
    requires WellFormed(s) && 0 <= cpu < MAX_CPUS && p <= MAX_PROCS && IsThread(u)
    ensures var th := ReapFrom(s, cpu, p).threads[u];
      th == s.threads[u] || (th == NO_THREAD && s.threads[u].used && s.threads[u].cpu < 0)
    decreases MAX_PROCS - p
  {
    hide DestroyList;
    if p < MAX_PROCS {
      DestroyListFreesOnly(s, cpu, s.procs[p].list, u);
      ReapFromFreesOnly(ReapOne(s, cpu, p), cpu, p + 1, u);
    }
  }

  lemma ReapEffect(s: State, cpu: int)
    requires Safe(s) && 0 <= cpu < MAX_CPUS
    ensures Safe(Reap(s, cpu)) && OnlyFreed(s, Reap(s, cpu))
  {
    ReapFromSafe(s, cpu, 0);
    forall t | 0 <= t < MAX_THREADS
      ensures var th := ReapFrom(s, cpu, 0).threads[t];
        th == s.threads[t] || (th == NO_THREAD && s.threads[t].used && s.threads[t].cpu < 0)
    {
      ReapFromFreesOnly(s, cpu, 0, t);
    }
    hide ReapFrom, DeadClaims;
  }

  // ---- a whole tick ----

  /** What one CPU's tick or yield may do: it stays safe, leaves what every other CPU
      runs as it is, and changes its own thread only for one that was runnable and
      unclaimed. */
  ghost predicate Ticked(s: State, r: State, cpu: int)
    requires WellFormed(s) && 0 <= cpu < MAX_CPUS
  {
    && Safe(r) && r.current == s.current[cpu := r.current[cpu]]
    && (forall c :: 0 <= c < MAX_CPUS && c != cpu && s.current[c] >= 0 ==>
          r.threads[s.current[c]] == s.threads[s.current[c]])
    && (r.current[cpu] != s.current[cpu] ==> Took(s, r, cpu))
  }

  /** A tick that retires, reaps and switches. */
  lemma FullSwitchEffect(s: State, cpu: int)
    requires Safe(s) && OnCpu(s, cpu)
    ensures Ticked(s, Switch(Reap(Retire(s, cpu), cpu), cpu), cpu)
  {
    hide Switch, Retire, Reap, DeadClaims, Stranded;
    RetireEffect(s, cpu);
    var s1 := Retire(s, cpu);
    ReapEffect(s1, cpu);
    var s2 := Reap(s1, cpu);
    SwitchEffect(s2, cpu);
    assert forall c :: 0 <= c < MAX_CPUS && s.current[c] >= 0 && s.current[c] != s.current[cpu] ==>
        s2.threads[s.current[c]] == s1.threads[s.current[c]];
  }

  // ---- killing and exiting ----

  /** Exactly the threads `p` lists are dead. */
  ghost predicate Killed(s: State, r: State, p: int)
    requires WellFormed(s) && WellFormed(r) && IsProc(p)
  {
    && r.current == s.current && r.procs == s.procs[p := s.procs[p].(reapable := true)]
    && forall t :: 0 <= t < MAX_THREADS ==>
        r.threads[t] == if t in s.procs[p].list then s.threads[t].(state := Terminated) else s.threads[t]
  }

  lemma KillEffect(s: State, p: int)
    requires WellFormed(s) && IsProc(p)
    ensures Killed(s, Kill(s, p), p)
    ensures Safe(s) ==> Safe(Kill(s, p))
  {
    if Safe(s) {
      KillSafe(s, p);
    }
    forall t | 0 <= t < MAX_THREADS
      ensures Kill(s, p).threads[t] == if t in s.procs[p].list then s.threads[t].(state := Terminated) else s.threads[t]
    {
      KillIsComplete(s, p, t);
    }
    hide MarkList;
  }

  /** The caller and the threads its process lists are dead, all but the one most
      recently scheduled. */
  ghost predicate Exited(s: State, r: State, cpu: int)
    requires WellFormed(s) && WellFormed(r) && OnCpu(s, cpu) && s.threads[s.current[cpu]].proc >= 0
  {
    var td := s.current[cpu];
    var p := s.threads[td].proc;
    && r.current == s.current && r.procs == s.procs[p := s.procs[p].(reapable := true)]
    && forall t :: 0 <= t < MAX_THREADS ==>
        r.threads[t] == if t == td || (t in s.procs[p].list && t != s.procs[p].cur)
                        then s.threads[t].(state := Terminated) else s.threads[t]
  }

  lemma ExitEffect(s: State, cpu: int)
    requires Safe(s) && OnCpu(s, cpu) && s.threads[s.current[cpu]].proc >= 0
    ensures Safe(Exit(s, cpu)) && Exited(s, Exit(s, cpu), cpu)
  {
    ExitSafe(s, cpu);
    var td := s.current[cpu];
    var p := s.procs[s.threads[td].proc];
    forall t | 0 <= t < MAX_THREADS
      ensures MarkList(s, p.list, p.cur).threads[t]
           == if t in p.list && t != p.cur then s.threads[t].(state := Terminated) else s.threads[t]
    {
      MarkListMarks(s, p.list, p.cur, t);
    }
    hide MarkList, DeadClaims;
  }
}
