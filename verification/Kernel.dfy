/** The scheduler's code: the loops over the thread and process tables, each proved to
    compute the region of the same name in module Scheduler. */
module Kernel {
  import opened Scheduler
  import opened SchedulerSafety
  import opened SchedulerRuns
  import opened SchedulerEffects

  class KernelState {
    var threads: seq<Thread>
    var procs: seq<Proc>
    var current: seq<int>
    var dead: nat
    var pending: nat
    var config: Config

    ghost function View(): State
      reads this
    {
      State(threads, procs, current, dead, pending, config)
    }

    ghost predicate Valid()
      reads this
    {
      WellFormed(View())
    }

    /** Counts, for every CPU, the live threads placed or running there. */
    method LoadSnapshot() returns (load: seq<nat>)
      requires Valid()
      ensures |load| == MAX_CPUS && forall c :: 0 <= c < MAX_CPUS ==> load[c] == LoadOf(View(), c)
    {
      load := seq(MAX_CPUS, _ => 0);
      for i := 0 to MAX_THREADS
        invariant |load| == MAX_CPUS
        invariant forall c :: 0 <= c < MAX_CPUS ==> load[c] == Load(threads, procs, c, i)
      {
        var td := threads[i];
        if td.used && td.proc >= 0 && td.state != Terminated && td.state != Unused {
          var preferred := procs[td.proc].preferred;
          if 0 <= preferred < MAX_CPUS {
            load := load[preferred := load[preferred] + 1];
          }
          if 0 <= td.cpu < MAX_CPUS && td.cpu != preferred {
            load := load[td.cpu := load[td.cpu] + 1];
          }
        }
      }
    }

    /** The placement test, on a load snapshot. */
    method ThreadCanRunOn(t: int, cpu: int, load: seq<nat>) returns (ok: bool)
      requires Valid() && IsThread(t) && |load| == MAX_CPUS
      requires forall c :: 0 <= c < MAX_CPUS ==> load[c] == LoadOf(View(), c)
      ensures ok == CanRunOn(View(), t, cpu)
      ensures ok ==> threads[t].cpu < 0 || threads[t].cpu == cpu
      ensures ok && config.strict ==> !Strays(View(), t, cpu)
    {
      hide LoadOf;
      var td := threads[t];
      if td.proc < 0 || (td.cpu >= 0 && td.cpu != cpu) {
        return false;
      }
      var proc := procs[td.proc];
      if proc.preferred < 0 {
        return true;
      }
      if config.strict {
        return proc.preferred == cpu;
      }
      if !config.smart || proc.last == cpu || proc.preferred == cpu {
        return true;
      }
      if cpu < 0 || cpu >= MAX_CPUS || proc.preferred >= MAX_CPUS {
        return false;
      }
      return load[cpu] + config.threshold < load[proc.preferred];
    }

    method PickNextThread(cpu: int, cur: int) returns (t: int)
      requires Valid() && -1 <= cur < MAX_THREADS
      ensures t == PickNext(View(), cpu, cur)
      ensures First(View(), cpu, cur, false, t)
    {
      PickIsFirst(View(), cpu, cur, false);
      var load := LoadSnapshot();
      hide LoadOf, CanRunOn, Slot, WellFormed;
      for i := 0 to MAX_THREADS
        invariant Scan(View(), cpu, cur, false, i) == PickNext(View(), cpu, cur)
      {
        var idx := Slot(Start(cur), i);
        var td := threads[idx];
        if td.used && td.state == Runnable {
          var ok := ThreadCanRunOn(idx, cpu, load);
          if ok {
            return idx;
          }
        }
      }
      return cur;
    }

    method PickAnyRunnableThread(cpu: int, cur: int) returns (t: int)
      requires Valid() && -1 <= cur < MAX_THREADS
      ensures t == PickAny(View(), cpu, cur)
      ensures First(View(), cpu, cur, true, t)
    {
      PickIsFirst(View(), cpu, cur, true);
      hide Slot;
      for i := 0 to MAX_THREADS
        invariant Scan(View(), cpu, cur, true, i) == PickAny(View(), cpu, cur)
      {
        var idx := Slot(Start(cur), i);
        var td := threads[idx];
        if td.used && td.state == Runnable && !(td.cpu >= 0 && td.cpu != cpu) {
          return idx;
        }
      }
      return cur;
    }

    method SetCurrentThread(cpu: int, t: int)
      requires Valid() && 0 <= cpu < MAX_CPUS && IsThread(t)
      modifies this
      ensures View() == old(SetCurrent(View(), cpu, t)) && Valid()
      ensures old(MayRun(View(), cpu, t)) ==> Safe(View())
      ensures RunsHere(threads[t], cpu) && current == old(current)[cpu := t]
      ensures forall u :: 0 <= u < MAX_THREADS && u != t ==> threads[u] == old(threads)[u]
    {
      if MayRun(View(), cpu, t) {
        SetCurrentSafe(View(), cpu, t);
      }
      hide MayRun, Safe;
      current := current[cpu := t];
      threads := threads[t := threads[t].(state := Running, cpu := cpu)];
      var p := threads[t].proc;
      if p >= 0 {
        procs := procs[p := procs[p].(cur := t, last := cpu)];
      }
    }

    method RetireDead(cpu: int)
      requires Valid() && 0 <= cpu < MAX_CPUS
      modifies this
      ensures View() == old(Retire(View(), cpu)) && Valid()
      ensures old(Safe(View())) ==> Safe(View()) && Retired(old(View()), View(), cpu)
    {
      if Safe(View()) {
        RetireEffect(View(), cpu);
      }
      hide Retired, Safe;
      if dead == 0 {
        return;
      }
      hide RetireOne, WellFormed;
      ghost var goal := RetireFrom(View(), cpu, 0);
      for i := 0 to MAX_THREADS
        invariant Valid() && RetireFrom(View(), cpu, i) == goal
      {
        RetireThread(cpu, i);
      }
    }

    method RetireThread(cpu: int, i: int)
      requires Valid() && 0 <= cpu < MAX_CPUS && IsThread(i)
      modifies this
      ensures View() == old(RetireOne(View(), cpu, i)) && Valid()
    {
      var td := threads[i];
      if td.used && i != current[cpu] && td.state == Terminated && td.cpu == cpu {
        threads := threads[i := td.(cpu := -1)];
        dead := if dead <= 0 then 0 else dead - 1;
      }
    }

    method MarkThreadDead(t: int)
      requires Valid() && IsThread(t)
      modifies this
      ensures View() == old(MarkDead(View(), t)) && Valid()
      ensures old(Safe(View())) ==> Safe(View())
    {
      if Safe(View()) {
        MarkDeadSafe(View(), t);
      }
      threads := threads[t := threads[t].(state := Terminated)];
      if threads[t].cpu >= 0 {
        dead := dead + 1;
      }
    }

    /** Walks a process's thread list, marking all but `spare`. */
    method MarkThreads(list: seq<int>, spare: int)
      requires Valid() && forall t :: t in list ==> IsThread(t)
      modifies this
      ensures View() == old(MarkList(View(), list, spare)) && Valid()
    {
      ghost var goal := MarkList(View(), list, spare);
      var rest := list;
      hide MarkDead, WellFormed;
      while rest != []
        invariant Valid() && (forall t :: t in rest ==> IsThread(t))
        invariant MarkList(View(), rest, spare) == goal
        decreases |rest|
      {
        if rest[0] != spare {
          MarkThreadDead(rest[0]);
        }
        rest := rest[1..];
      }
    }

    method ProcessKill(p: int)
      requires Valid() && 0 <= p < MAX_PROCS
      modifies this
      ensures View() == old(Kill(View(), p)) && Valid()
      ensures Killed(old(View()), View(), p)
      ensures old(Safe(View())) ==> Safe(View())
    {
      KillEffect(View(), p);
      hide Killed, Safe;
      hide MarkList;
      MarkThreads(procs[p].list, procs[p].cur);
      MarkThreads(procs[p].list, -1);
      procs := procs[p := procs[p].(reapable := true)];
      pending := pending + 1;
    }

    method ProcessExit(cpu: int)
      requires Valid() && 0 <= cpu < MAX_CPUS && current[cpu] >= 0 && threads[current[cpu]].proc >= 0
      modifies this
      ensures View() == old(Exit(View(), cpu)) && Valid()
      ensures old(Safe(View())) ==> Safe(View()) && Exited(old(View()), View(), cpu)
    {
      hide Exited, Safe, MarkList;
      if Safe(View()) {
        ExitEffect(View(), cpu);
      }
      var td := current[cpu];
      var p := threads[td].proc;
      MarkThreads(procs[p].list, procs[p].cur);
      threads := threads[td := threads[td].(cpu := cpu)];
      MarkThreadDead(td);
      procs := procs[p := procs[p].(reapable := true)];
      pending := pending + 1;
    }

    method ThreadDestroy(cpu: int, t: int)
      requires Valid() && 0 <= cpu < MAX_CPUS && IsThread(t)
      modifies this
      ensures View() == old(Destroy(View(), cpu, t)) && Valid()
      ensures old(Safe(View())) ==> Safe(View()) && OnlyFreed(old(View()), View())
      ensures old(Safe(View())) ==> (!threads[t].used <==> !old(threads)[t].used || old(threads)[t].cpu < 0)
    {
      if Safe(View()) {
        DestroyEffect(View(), cpu, t);
      }
      hide OnlyFreed, Safe;
      var td := threads[t];
      if !td.used || t == current[cpu] || td.cpu >= 0 {
        return;
      }
      if td.proc >= 0 {
        procs := procs[td.proc := procs[td.proc].(list := Without(procs[td.proc].list, t))];
      }
      threads := threads[t := NO_THREAD];
    }

    /** Whether some listed thread still claims a CPU. */
    method Busy(p: int) returns (busy: bool)
      requires Valid() && 0 <= p < MAX_PROCS
      ensures busy == !Idle(View(), p)
    {
      var list := procs[p].list;
      assert forall k :: 0 <= k < |list| ==> list[k] in procs[p].list;
      for i := 0 to |list|
        invariant forall k :: 0 <= k < i ==> threads[list[k]].cpu < 0
      {
        if threads[list[i]].cpu >= 0 {
          return true;
        }
      }
      return false;
    }

    method DestroyThreads(cpu: int, list: seq<int>)
      requires Valid() && 0 <= cpu < MAX_CPUS && forall t :: t in list ==> IsThread(t)
      modifies this
      ensures View() == old(DestroyList(View(), cpu, list)) && Valid()
    {
      ghost var goal := DestroyList(View(), cpu, list);
      var rest := list;
      hide Destroy, WellFormed;
      while rest != []
        invariant Valid() && (forall t :: t in rest ==> IsThread(t))
        invariant DestroyList(View(), cpu, rest) == goal
        decreases |rest|
      {
        ThreadDestroy(cpu, rest[0]);
        rest := rest[1..];
      }
    }

    method ReapProcess(cpu: int, p: int)
      requires Valid() && 0 <= cpu < MAX_CPUS && 0 <= p < MAX_PROCS
      modifies this
      ensures View() == old(ReapOne(View(), cpu, p)) && Valid()
      ensures old(Safe(View()) && procs[p].live && procs[p].reapable && Idle(View(), p)) ==>
        procs[p].list == [] && forall t :: t in old(procs)[p].list ==> !threads[t].used
    {
      if Safe(View()) && procs[p].live && procs[p].reapable && Idle(View(), p) {
        forall t | t in procs[p].list ensures !ReapOne(View(), cpu, p).threads[t].used && ReapOne(View(), cpu, p).procs[p].list == [] {
          ReapFreesThreads(View(), cpu, p, t);
        }
      }
      hide Safe;
      hide DestroyList, Idle;
      if !procs[p].live || !procs[p].reapable {
        return;
      }
      var busy := Busy(p);
      if busy {
        return;
      }
      DestroyThreads(cpu, procs[p].list);
      pending := if pending > 0 then pending - 1 else 0;
      procs := procs[p := procs[p].(reapable := false, list := [], cur := -1)];
    }

    method ProcessReap(cpu: int)
      requires Valid() && 0 <= cpu < MAX_CPUS
      modifies this
      ensures View() == old(Reap(View(), cpu)) && Valid()
      ensures old(Safe(View())) ==> Safe(View()) && OnlyFreed(old(View()), View())
    {
      hide OnlyFreed, Safe, ReapOne, WellFormed;
      if Safe(View()) {
        ReapEffect(View(), cpu);
      }
      if pending == 0 {
        return;
      }
      ghost var goal := ReapFrom(View(), cpu, 0);
      for p := 0 to MAX_PROCS
        invariant Valid() && ReapFrom(View(), cpu, p) == goal
      {
        ReapProcess(cpu, p);
      }
    }

    method BootCpu(cpu: int)
      requires Valid() && 0 <= cpu < MAX_CPUS
      modifies this
      ensures View() == old(Boot(View(), cpu)) && Valid()
      ensures old(Safe(View()) && current[cpu] < 0) ==> Ticked(old(View()), View(), cpu)
    {
      if Safe(View()) && current[cpu] < 0 {
        BootEffect(View(), cpu);
        assert Ticked(View(), Boot(View(), cpu), cpu);
      }
      hide Ticked, Safe;
      hide PickNext;
      var next := PickNextThread(cpu, -1);
      if next < 0 || threads[next].state != Runnable {
        return;
      }
      SetCurrentThread(cpu, next);
    }

    method SwitchFromSleeper(cpu: int)
      requires Valid() && 0 <= cpu < MAX_CPUS && current[cpu] >= 0
      modifies this
      ensures View() == old(SleepSwitch(View(), cpu)) && Valid()
      ensures old(Safe(View())) ==> Ticked(old(View()), View(), cpu)
    {
      if Safe(View()) {
        SleepSwitchEffect(View(), cpu);
        assert Ticked(View(), SleepSwitch(View(), cpu), cpu);
      }
      hide Ticked, Safe;
      hide PickNext, SetCurrent;
      var cur := current[cpu];
      threads := threads[cur := threads[cur].(cpu := -1)];
      var next := PickNextThread(cpu, cur);
      if next < 0 || next == cur {
        threads := threads[cur := threads[cur].(cpu := cpu)];
        return;
      }
      SetCurrentThread(cpu, next);
    }

    /** Takes the current thread off its CPU; a dead one keeps its claim. */
    method PutBack(cpu: int)
      requires Valid() && 0 <= cpu < MAX_CPUS && current[cpu] >= 0
      modifies this`threads
      ensures View() == old(Descheduled(View(), cpu)) && Valid()
      ensures threads == old(threads)[current[cpu] := Released(old(threads)[current[cpu]])]
    {
      var cur := current[cpu];
      if threads[cur].state == Running {
        threads := threads[cur := threads[cur].(state := Runnable)];
        threads := threads[cur := threads[cur].(cpu := -1)];
      } else if threads[cur].state != Terminated {
        threads := threads[cur := threads[cur].(cpu := -1)];
      }
    }

    method SwitchThread(cpu: int)
      requires Valid() && 0 <= cpu < MAX_CPUS && current[cpu] >= 0
      modifies this
      ensures View() == old(Switch(View(), cpu)) && Valid()
      ensures old(Safe(View())) ==> Safe(View()) && Switched(old(View()), View(), cpu)
    {
      hide Switched, Safe, PickNext, PickAny, SetCurrent, ListOk;
      if Safe(View()) {
        SwitchEffect(View(), cpu);
      }
      var cur := current[cpu];
      PutBack(cpu);
      var next := PickNextThread(cpu, cur);
      if next < 0 || next == cur {
        if threads[cur].state == Terminated {
          next := PickAnyRunnableThread(cpu, cur);
        }
      }
      if next < 0 || next == cur {
        if threads[cur].state != Terminated {
          threads := threads[cur := threads[cur].(state := Running)];
        }
        threads := threads[cur := threads[cur].(cpu := cpu)];
        return;
      }
      SetCurrentThread(cpu, next);
    }

    /** A timer tick or a yield on `cpu`. `kernelFrame` says that the interrupted code ran
        in the kernel. */
    method SchedulerSwitch(cpu: int, voluntary: bool, kernelFrame: bool)
      requires Valid() && 0 <= cpu < MAX_CPUS
      modifies this
      ensures View() == old(WholeSwitch(View(), cpu, voluntary, kernelFrame)) && Valid()
      ensures old(Safe(View())) ==> Ticked(old(View()), View(), cpu)
      ensures !voluntary && kernelFrame && old(current[cpu] >= 0 && threads[current[cpu]].state == Running) ==>
        View() == old(View())
    {
      if Safe(View()) {
        WholeSwitchEffect(View(), cpu, voluntary, kernelFrame);
      }
      hide Ticked, Safe;
      hide Boot, SleepSwitch, Retire, Reap, Switch;
      if current[cpu] < 0 {
        BootCpu(cpu);
        return;
      }
      var cur := current[cpu];
      if !voluntary && kernelFrame && threads[cur].state == Running {
        return;
      }
      if threads[cur].state == Sleeping {
        SwitchFromSleeper(cpu);
        return;
      }
      RetireDead(cpu);
      ProcessReap(cpu);
      SwitchThread(cpu);
    }
  }

  predicate RunsHere(th: Thread, cpu: int) {
    th.state == Running && th.cpu == cpu
  }

  function WholeSwitch(s: State, cpu: int, voluntary: bool, kernelFrame: bool): (r: State)
    requires WellFormed(s) && 0 <= cpu < MAX_CPUS
    ensures WellFormed(r)
  {
    if s.current[cpu] < 0 then Boot(s, cpu)
    else if !voluntary && kernelFrame && s.threads[s.current[cpu]].state == Running then s
    else if s.threads[s.current[cpu]].state == Sleeping then SleepSwitch(s, cpu)
    else Switch(Reap(Retire(s, cpu), cpu), cpu)
  }

  /** An uninterrupted tick or yield. */
  lemma WholeSwitchEffect(s: State, cpu: int, voluntary: bool, kernelFrame: bool)
    requires Safe(s) && 0 <= cpu < MAX_CPUS
    ensures Ticked(s, WholeSwitch(s, cpu, voluntary, kernelFrame), cpu)
  {
    hide DeadClaims, Retire, Reap, Switch, SleepSwitch, Boot, CanRunOn, Stranded;
    if s.current[cpu] < 0 {
      BootEffect(s, cpu);
    } else if s.threads[s.current[cpu]].state == Sleeping {
      SleepSwitchEffect(s, cpu);
    } else {
      FullSwitchEffect(s, cpu);
    }
  }
}
