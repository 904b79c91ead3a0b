/** Runs of the scheduler: any interleaving of its steps, safe at every point, with a
    bound on how long a runnable thread waits. */
module SchedulerRuns {
  import opened Scheduler
  import opened SchedulerSafety

  /** The steps, each one region under the locks or one unlocked update of a thread's
      own state. */
  datatype Action =
    | DoBoot(cpu: int)
    | DoSleepSwitch(cpu: int)
    | DoSwitch(cpu: int)
    | DoRetire(cpu: int)
    | DoReap(cpu: int)
    | DoKill(p: int)
    | DoExit(cpu: int)
    | DoThreadExit(cpu: int)
    | DoSleep(cpu: int)
    | DoResume(cpu: int)
    | DoWake(t: int)
    | DoAlloc(t: int)
    | DoStart(t: int, p: int)
    | DoDestroy(cpu: int, t: int)
    | DoSpawn(p: int, preferred: int)
    | DoRelease(p: int)
    | DoConfigure(config: Config)

  predicate OnCpu(s: State, cpu: int)
    requires WellFormed(s)
  {
    0 <= cpu < MAX_CPUS && s.current[cpu] >= 0
  }

  predicate IsProc(p: int) {
    0 <= p < MAX_PROCS
  }

  predicate Enabled(s: State, a: Action)
    requires WellFormed(s)
  {
    match a
    case DoBoot(cpu) => 0 <= cpu < MAX_CPUS && s.current[cpu] < 0
    case DoSleepSwitch(cpu) => OnCpu(s, cpu)
    case DoSwitch(cpu) => OnCpu(s, cpu)
    case DoRetire(cpu) => 0 <= cpu < MAX_CPUS
    case DoReap(cpu) => 0 <= cpu < MAX_CPUS
    case DoKill(p) => IsProc(p)
    case DoExit(cpu) => OnCpu(s, cpu) && s.threads[s.current[cpu]].proc >= 0
    case DoThreadExit(cpu) => OnCpu(s, cpu)
    case DoSleep(cpu) => OnCpu(s, cpu)
    case DoResume(cpu) => OnCpu(s, cpu)
    case DoWake(t) => IsThread(t) && s.threads[t].used && s.threads[t].state == Sleeping
    case DoAlloc(t) => IsThread(t) && !s.threads[t].used
    case DoStart(t, p) => IsThread(t) && IsProc(p) && s.threads[t] == Thread(true, -1, Unused, -1)
    case DoDestroy(cpu, t) => 0 <= cpu < MAX_CPUS && IsThread(t)
    case DoSpawn(p, _) => IsProc(p) && !s.procs[p].live
    case DoRelease(p) => IsProc(p)
    case DoConfigure(_) => true
  }

  /** A started thread joins its process. */
  function Started(s: State, t: int, p: int): (r: State)
    requires WellFormed(s) && IsThread(t) && IsProc(p)
    ensures WellFormed(r)
  {
    SetProc(SetThread(s, t, Thread(true, p, Runnable, -1)), p, s.procs[p].(list := [t] + s.procs[p].list))
  }

  function WithProc(s: State, p: int, proc: Proc): (r: State)
    requires WellFormed(s) && IsProc(p) && ListOk(proc)
    ensures WellFormed(r)
  {
    SetProc(s, p, proc)
  }

  function WithThread(s: State, t: int, th: Thread): (r: State)
    requires WellFormed(s) && IsThread(t) && -1 <= th.proc < MAX_PROCS && -1 <= th.cpu < MAX_CPUS
    ensures WellFormed(r)
  {
    SetThread(s, t, th)
  }

  function WithState(s: State, t: int, state: RunState): (r: State)
    requires WellFormed(s) && IsThread(t)
    ensures WellFormed(r)
  {
    SetState(s, t, state)
  }

  function Apply(s: State, a: Action): (r: State)
    requires WellFormed(s) && Enabled(s, a)
    ensures WellFormed(r)
  {
    match a
    case DoBoot(cpu) => Boot(s, cpu)
    case DoSleepSwitch(cpu) => SleepSwitch(s, cpu)
    case DoSwitch(cpu) => Switch(s, cpu)
    case DoRetire(cpu) => Retire(s, cpu)
    case DoReap(cpu) => Reap(s, cpu)
    case DoKill(p) => Kill(s, p)
    case DoExit(cpu) => Exit(s, cpu)
    case DoThreadExit(cpu) => ThreadExit(s, cpu)
    case DoSleep(cpu) => WithState(s, s.current[cpu], Sleeping)
    case DoResume(cpu) => WithState(s, s.current[cpu], Running)
    case DoWake(t) => WithState(s, t, Runnable)
    case DoAlloc(t) => WithThread(s, t, Thread(true, -1, Unused, -1))
    case DoStart(t, p) => Started(s, t, p)
    case DoDestroy(cpu, t) => Destroy(s, cpu, t)
    case DoSpawn(p, preferred) => WithProc(s, p, Proc(true, preferred, -1, -1, [], false))
    case DoRelease(p) =>
      WithProc(s, p, Proc(false, 0, 0, -1, [], false))
        .(pending := if s.procs[p].reapable && s.pending > 0 then s.pending - 1 else s.pending)
    case DoConfigure(config) => s.(config := config)
  }

  // ---- safety of every run ----

  /** A live thread's own change of state, made while it is current or off every CPU. */
  lemma SetStateSafe(s: State, t: int, state: RunState)
    requires Safe(s) && IsThread(t) && state != Terminated
    requires s.threads[t].cpu < 0 || s.current[s.threads[t].cpu] == t || !s.threads[t].used || s.threads[t].state != Terminated
    ensures Safe(SetState(s, t, state))
  {
    DeadClaimsUpdate(s.threads, t, s.threads[t].(state := state), MAX_THREADS);
  }

  lemma FreshThreadSafe(s: State, t: int, th: Thread)
    requires Safe(s) && IsThread(t) && th.cpu == -1 && -1 <= th.proc < MAX_PROCS
    requires !s.threads[t].used || s.threads[t].cpu < 0
    ensures Safe(SetThread(s, t, th))
  {
    DeadClaimsUpdate(s.threads, t, th, MAX_THREADS);
  }

  lemma ExitSafe(s: State, cpu: int)
    requires Safe(s) && OnCpu(s, cpu) && s.threads[s.current[cpu]].proc >= 0
    ensures Safe(Exit(s, cpu))
  {
    var td := s.current[cpu];
    var killed := KillAll(s, s.threads[td].proc);
    MarkListSafe(s, s.procs[s.threads[td].proc].list, s.procs[s.threads[td].proc].cur);
    hide MarkList;
    assert killed.threads[td].cpu == cpu;
    assert killed.threads[td := killed.threads[td].(cpu := cpu)] == killed.threads;
    MarkDeadSafe(killed, td);
  }

  lemma ThreadExitSafe(s: State, cpu: int)
    requires Safe(s) && OnCpu(s, cpu)
    ensures Safe(ThreadExit(s, cpu))
  {
    var td := s.current[cpu];
    assert s.threads[td := s.threads[td].(cpu := cpu)] == s.threads;
    MarkDeadSafe(s, td);
  }

  lemma KillSafe(s: State, p: int)
    requires Safe(s) && IsProc(p)
    ensures Safe(Kill(s, p))
  {
    MarkListSafe(s, s.procs[p].list, s.procs[p].cur);
    MarkListSafe(KillAll(s, p), s.procs[p].list, -1);
    hide MarkList;
  }

  lemma CurrentNamesCpu(s: State, cpu: int)
    requires Safe(s) && OnCpu(s, cpu)
    ensures s.threads[s.current[cpu]].cpu == cpu
  {
  }

  /** Processes and configuration do not matter to safety. */
  lemma SameThreadsSafe(s: State, r: State)
    requires Safe(s) && WellFormed(r) && r.threads == s.threads && r.current == s.current && r.dead == s.dead
    ensures Safe(r)
  {
  }

  /** Every step keeps the state safe. */
  lemma StepSafe(s: State, a: Action)
    requires Safe(s) && Enabled(s, a)
    ensures Safe(Apply(s, a))
  {
    hide Boot, SleepSwitch, Switch, RetireFrom, ReapFrom, Kill, Exit, ThreadExit, Destroy, DeadClaims, CurrentClaims,
      ClaimsCurrent;
    match a
    case DoBoot(cpu) => BootSafe(s, cpu);
    case DoSleepSwitch(cpu) => SleepSwitchSafe(s, cpu);
    case DoSwitch(cpu) => SwitchSafe(s, cpu);
    case DoRetire(cpu) => RetireFromSafe(s, cpu, 0);
    case DoReap(cpu) => ReapFromSafe(s, cpu, 0);
    case DoKill(p) => KillSafe(s, p);
    case DoExit(cpu) => ExitSafe(s, cpu);
    case DoThreadExit(cpu) => ThreadExitSafe(s, cpu);
    case DoSleep(cpu) =>
      CurrentNamesCpu(s, cpu);
      SetStateSafe(s, s.current[cpu], Sleeping);
    case DoResume(cpu) =>
      CurrentNamesCpu(s, cpu);
      SetStateSafe(s, s.current[cpu], Running);
    case DoWake(t) => SetStateSafe(s, t, Runnable);
    case DoAlloc(t) => FreshThreadSafe(s, t, Thread(true, -1, Unused, -1));
    case DoStart(t, p) =>
      FreshThreadSafe(s, t, Thread(true, p, Runnable, -1));
      SameThreadsSafe(SetThread(s, t, Thread(true, p, Runnable, -1)), Apply(s, a));
    case DoDestroy(cpu, t) => DestroySafe(s, cpu, t);
    case DoSpawn(p, preferred) => SameThreadsSafe(s, Apply(s, a));
    case DoRelease(p) => SameThreadsSafe(s, Apply(s, a));
    case DoConfigure(config) => SameThreadsSafe(s, Apply(s, a));
  }

  /** `run` is possible from `s`, step after step. */
  ghost predicate Runs(s: State, run: seq<Action>)
    requires WellFormed(s)
    decreases |run|
  {
    run == [] || (Enabled(s, run[0]) && Runs(Apply(s, run[0]), run[1..]))
  }

  ghost function After(s: State, run: seq<Action>): (r: State)
    requires WellFormed(s) && Runs(s, run)
    ensures WellFormed(r)
    decreases |run|
  {
    if run == [] then s else After(Apply(s, run[0]), run[1..])
  }

  function PowerOn(config: Config): State {
    State(seq(MAX_THREADS, _ => Thread(false, -1, Unused, 0)), seq(MAX_PROCS, _ => Proc(false, 0, 0, -1, [], false)),
          seq(MAX_CPUS, _ => -1), 0, 0, config)
  }

  lemma {:induction false} NoDeadAtPowerOn(config: Config, n: nat)
    requires n <= MAX_THREADS
    ensures DeadClaims(PowerOn(config).threads, n) == 0
  {
    if n != 0 {
      NoDeadAtPowerOn(config, n - 1);
    }
  }

  lemma {:induction false} RunSafe(s: State, run: seq<Action>)
    requires Safe(s) && Runs(s, run)
    ensures Safe(After(s, run))
    decreases |run|
  {
    hide Enabled, Apply;
    if run != [] {
      StepSafe(s, run[0]);
      RunSafe(Apply(s, run[0]), run[1..]);
    }
  }

  /** On every run from power-on, no thread is current on two CPUs, every current
      thread names its CPU, and a thread that names a CPU is current there or dead. */
  lemma NoThreadOnTwoCpus(config: Config, run: seq<Action>, c: int, d: int)
    requires Runs(PowerOn(config), run)
    requires 0 <= c < MAX_CPUS && 0 <= d < MAX_CPUS && c != d
    ensures var s := After(PowerOn(config), run);
      && (s.current[c] >= 0 ==> s.current[c] != s.current[d] && s.threads[s.current[c]].cpu == c)
      && forall t :: 0 <= t < MAX_THREADS && s.threads[t].used && s.threads[t].cpu == c ==>
        s.current[c] == t || s.threads[t].state == Terminated
  {
    NoDeadAtPowerOn(config, MAX_THREADS);
    RunSafe(PowerOn(config), run);
    hide Enabled, Apply, Runs, After;
  }

  // ---- picks, retirement and reaping ----

  predicate IsPick(a: Action, cpu: int) {
    a == DoBoot(cpu) || a == DoSleepSwitch(cpu) || a == DoSwitch(cpu)
  }

  /** The state in which the step picks. */
  function PickState(s: State, a: Action, cpu: int): (r: State)
    requires WellFormed(s) && Enabled(s, a) && IsPick(a, cpu)
    ensures WellFormed(r)
  {
    match a
    case DoSleepSwitch(_) => SetCpu(s, s.current[cpu], -1)
    case DoSwitch(_) => Descheduled(s, cpu)
    case _ => s
  }

  /** `cpu` now runs a thread that was runnable and claimed by no CPU. */
  ghost predicate Took(s: State, r: State, cpu: int)
    requires WellFormed(s) && WellFormed(r) && 0 <= cpu < MAX_CPUS
  {
    var t := r.current[cpu];
    && IsThread(t) && s.threads[t].used && s.threads[t].state == Runnable && s.threads[t].cpu == -1
    && r.threads[t] == s.threads[t].(state := Running, cpu := cpu)
  }

  lemma BootTakes(s: State, cpu: int)
    requires Safe(s) && 0 <= cpu < MAX_CPUS && s.current[cpu] < 0
    ensures Boot(s, cpu).current[cpu] != s.current[cpu] ==> Took(s, Boot(s, cpu), cpu)
  {
    PickedIsFree(s, cpu, -1, false);
    hide Scan, DeadClaims;
  }

  lemma SleepSwitchTakes(s: State, cpu: int)
    requires Safe(s) && OnCpu(s, cpu)
    ensures SleepSwitch(s, cpu).current[cpu] != s.current[cpu] ==> Took(s, SleepSwitch(s, cpu), cpu)
  {
    PickedIsFree(SetCpu(s, s.current[cpu], -1), cpu, s.current[cpu], false);
    hide Scan, DeadClaims;
  }

  lemma SwitchTakes(s: State, cpu: int)
    requires Safe(s) && OnCpu(s, cpu)
    ensures Switch(s, cpu).current[cpu] != s.current[cpu] ==> Took(s, Switch(s, cpu), cpu)
  {
    PickedIsFree(Descheduled(s, cpu), cpu, s.current[cpu], false);
    PickedIsFree(Descheduled(s, cpu), cpu, s.current[cpu], true);
    hide Scan, DeadClaims;
  }

  /** A step that changes the thread a CPU runs takes one that was runnable and that no
      CPU claimed: never a terminated one, never one that runs elsewhere. */
  lemma PickTakesLiveThread(s: State, a: Action, cpu: int)
    requires Safe(s) && Enabled(s, a) && IsPick(a, cpu)
    ensures Apply(s, a).current[cpu] != s.current[cpu] ==> Took(s, Apply(s, a), cpu)
  {
    hide Boot, SleepSwitch, Switch, Retire, Reap, Kill, Exit, ThreadExit, Destroy, Took;
    match a
    case DoBoot(_) => BootTakes(s, cpu);
    case DoSleepSwitch(_) => SleepSwitchTakes(s, cpu);
    case DoSwitch(_) => SwitchTakes(s, cpu);
  }

  lemma {:induction false} RetireFromKeeps(s: State, cpu: int, from: nat, t: int)
    requires WellFormed(s) && 0 <= cpu < MAX_CPUS && from <= MAX_THREADS && IsThread(t)
    ensures !Retirable(s, cpu, t) ==> RetireFrom(s, cpu, from).threads[t] == s.threads[t]
    ensures t >= from && Retirable(s, cpu, t) ==>
      RetireFrom(s, cpu, from).threads[t] == s.threads[t].(cpu := -1)
    decreases MAX_THREADS - from
  {
    if from < MAX_THREADS {
      RetireFromKeeps(RetireOne(s, cpu, from), cpu, from + 1, t);
    }
  }

  lemma NoDeadNoClaims(s: State, t: int)
    requires Safe(s) && s.dead == 0 && IsThread(t)
    ensures !ClaimsDead(s.threads[t])
  {
    if ClaimsDead(s.threads[t]) {
      DeadClaimsPositive(s.threads, t, MAX_THREADS);
    }
  }

  /** Retirement is never skipped: afterwards no dead thread other than the current one
      claims the CPU, and every thread that could not be retired is as before. */
  lemma RetireIsComplete(s: State, cpu: int, t: int)
    requires Safe(s) && 0 <= cpu < MAX_CPUS && IsThread(t)
    ensures Retire(s, cpu).threads[t] == if Retirable(s, cpu, t) then s.threads[t].(cpu := -1) else s.threads[t]
    ensures !Retirable(Retire(s, cpu), cpu, t)
  {
    RetireFromKeeps(s, cpu, 0, t);
    if s.dead == 0 {
      NoDeadNoClaims(s, t);
    }
    hide RetireFrom;
  }

  lemma {:induction false} DestroyListKeepsClaimed(s: State, cpu: int, list: seq<int>, u: int)
    requires WellFormed(s) && 0 <= cpu < MAX_CPUS && IsThread(u)
    requires forall t :: t in list ==> IsThread(t)
    ensures s.threads[u].cpu >= 0 || u !in list ==> DestroyList(s, cpu, list).threads[u] == s.threads[u]
    decreases |list|
  {
    if list != [] {
      DestroyListKeepsClaimed(Destroy(s, cpu, list[0]), cpu, list[1..], u);
    }
  }

  lemma {:induction false} ReapFromKeepsClaimed(s: State, cpu: int, p: nat, u: int)
    requires WellFormed(s) && 0 <= cpu < MAX_CPUS && p <= MAX_PROCS && IsThread(u)
    ensures s.threads[u].cpu >= 0 ==> ReapFrom(s, cpu, p).threads[u] == s.threads[u]
    decreases MAX_PROCS - p
  {
    hide DestroyList;
    if p < MAX_PROCS {
      DestroyListKeepsClaimed(s, cpu, s.procs[p].list, u);
      ReapFromKeepsClaimed(ReapOne(s, cpu, p), cpu, p + 1, u);
    }
  }

  /** Neither reaping nor destroying touches a thread that is current on any CPU. */
  lemma ReapSparesCurrent(s: State, cpu: int, c: int, victim: int)
    requires Safe(s) && 0 <= cpu < MAX_CPUS && OnCpu(s, c) && IsThread(victim)
    ensures Reap(s, cpu).threads[s.current[c]] == s.threads[s.current[c]]
    ensures Destroy(s, cpu, victim).threads[s.current[c]] == s.threads[s.current[c]]
  {
    var t := s.current[c];
    assert s.threads[t].cpu == c;
    hide Safe;
    ReapFromKeepsClaimed(s, cpu, 0, t);
    hide ReapFrom;
  }

  lemma {:induction false} DestroyListFrees(s: State, cpu: int, list: seq<int>, t: int)
    requires WellFormed(s) && 0 <= cpu < MAX_CPUS
    requires forall u :: u in list ==> IsThread(u) && (s.threads[u].used ==> s.threads[u].cpu < 0 && u != s.current[cpu])
    requires t in list || (IsThread(t) && !s.threads[t].used)
    ensures !DestroyList(s, cpu, list).threads[t].used
    decreases |list|
  {
    if list != [] {
      DestroyListFrees(Destroy(s, cpu, list[0]), cpu, list[1..], t);
    }
  }

  /** Reaping an idle exited process frees the slot of every one of its threads. */
  lemma ReapFreesThreads(s: State, cpu: int, p: int, t: int)
    requires Safe(s) && 0 <= cpu < MAX_CPUS && IsProc(p)
    requires s.procs[p].live && s.procs[p].reapable && Idle(s, p) && t in s.procs[p].list
    ensures !ReapOne(s, cpu, p).threads[t].used && ReapOne(s, cpu, p).procs[p].list == []
  {
    var list := s.procs[p].list;
    forall u | u in list ensures IsThread(u) && s.threads[u].cpu < 0 {
      var i :| 0 <= i < |list| && list[i] == u;
    }
    DestroyListFrees(s, cpu, list, t);
    hide DestroyList;
  }

  // ---- killing a process ----

  lemma {:induction false} MarkListMarks(s: State, list: seq<int>, spare: int, t: int)
    requires WellFormed(s) && IsThread(t) && forall u :: u in list ==> IsThread(u)
    ensures MarkList(s, list, spare).threads[t]
         == if t in list && t != spare then s.threads[t].(state := Terminated) else s.threads[t]
    decreases |list|
  {
    if list != [] {
      MarkListMarks(if list[0] == spare then s else MarkDead(s, list[0]), list[1..], spare, t);
    }
  }

  /** A kill from outside terminates every thread of the process and no other. */
  lemma KillIsComplete(s: State, p: int, t: int)
    requires WellFormed(s) && IsProc(p) && IsThread(t)
    ensures Kill(s, p).threads[t] == if t in s.procs[p].list then s.threads[t].(state := Terminated) else s.threads[t]
  {
    MarkListMarks(s, s.procs[p].list, s.procs[p].cur, t);
    MarkListMarks(KillAll(s, p), s.procs[p].list, -1, t);
    hide MarkList;
  }

  /** After an exit a thread of the process is still alive exactly when it is the one
      most recently scheduled, it is not the one exiting, and it was alive before: the
      kill loop skips the process's latest thread, not the caller. */
  lemma ExitLeavesLatestAlive(s: State, cpu: int, t: int)
    requires Safe(s) && OnCpu(s, cpu) && s.threads[s.current[cpu]].proc >= 0
    requires t in s.procs[s.threads[s.current[cpu]].proc].list
    ensures var td := s.current[cpu];
      var latest := s.procs[s.threads[td].proc].cur;
      (Exit(s, cpu).threads[t].state != Terminated) <==> (t == latest && t != td && s.threads[t].state != Terminated)
  {
    var td := s.current[cpu];
    var p := s.procs[s.threads[td].proc];
    MarkListMarks(s, p.list, p.cur, t);
    MarkListMarks(s, p.list, p.cur, td);
    hide MarkList;
  }

  /** Exiting terminates the whole process if and only if its most recently scheduled
      thread is the caller, is unlisted, or is dead already. */
  lemma ExitIsCompleteIff(s: State, cpu: int)
    requires Safe(s) && OnCpu(s, cpu) && s.threads[s.current[cpu]].proc >= 0
    ensures var td := s.current[cpu];
      var p := s.procs[s.threads[td].proc];
      (forall t :: t in p.list ==> Exit(s, cpu).threads[t].state == Terminated)
        <==> (p.cur == td || p.cur !in p.list || s.threads[p.cur].state == Terminated)
  {
    var td := s.current[cpu];
    var p := s.procs[s.threads[td].proc];
    forall t | t in p.list
      ensures (Exit(s, cpu).threads[t].state != Terminated)
          <==> (t == p.cur && t != td && s.threads[t].state != Terminated)
    {
      ExitLeavesLatestAlive(s, cpu, t);
    }
    hide Exit;
  }

  lemma {:induction false} RunOn(s: State, a: seq<Action>, b: seq<Action>)
    requires WellFormed(s) && Runs(s, a) && Runs(After(s, a), b)
    ensures Runs(s, a + b) && After(s, a + b) == After(After(s, a), b)
    decreases |a|
  {
    hide Enabled, Apply;
    if a == [] {
      assert a + b == b;
    } else {
      assert (a + b)[1..] == a[1..] + b;
      RunOn(Apply(s, a[0]), a[1..], b);
    }
  }

  function Create(t: int): seq<Action> {
    [DoAlloc(t), DoStart(t, 0)]
  }

  lemma CreateRuns(s: State, t: int)
    requires WellFormed(s) && IsThread(t) && !s.threads[t].used
    ensures Runs(s, Create(t))
    ensures var s' := After(s, Create(t));
      && s'.threads == s.threads[t := Thread(true, 0, Runnable, -1)]
      && s'.procs == s.procs[0 := s.procs[0].(list := [t] + s.procs[0].list)]
      && s'.current == s.current
  {
    var run := Create(t);
    var s1 := Apply(s, run[0]);
    var s2 := Apply(s1, run[1]);
    assert Runs(s2, run[2..]) && After(s2, run[2..]) == s2;
    assert run[1..][1..] == run[2..] && Runs(s1, run[1..]) && After(s1, run[1..]) == s2;
    assert s2.threads == s.threads[t := Thread(true, 0, Runnable, -1)];
  }

  /** Two threads of one process are created. */
  function CreateTwo(): seq<Action> {
    [DoSpawn(0, -1)] + Create(0) + Create(1)
  }

  lemma OneAction(s: State, a: Action)
    requires WellFormed(s) && Enabled(s, a)
    ensures Runs(s, [a]) && After(s, [a]) == Apply(s, a)
  {
    hide Apply, Enabled;
    assert [a][1..] == [];
  }

  lemma CreateTwoRuns(config: Config)
    ensures var s := PowerOn(config);
      && Runs(s, CreateTwo())
      && var s' := After(s, CreateTwo());
      && s'.threads[0] == s'.threads[1] == Thread(true, 0, Runnable, -1)
      && s'.procs[0] == Proc(true, -1, -1, -1, [1, 0], false)
      && s'.current[0] == s'.current[1] == -1
      && !s'.threads[2].used && !s'.threads[3].used && !s'.procs[1].live
  {
    hide Runs, After, Create;
    var s, spawn := PowerOn(config), [DoSpawn(0, -1)];
    var s1 := Apply(s, spawn[0]);
    OneAction(s, spawn[0]);
    CreateRuns(s1, 0);
    RunOn(s, spawn, Create(0));
    var s2 := After(s1, Create(0));
    CreateRuns(s2, 1);
    RunOn(s, spawn + Create(0), Create(1));
  }

  /** Each of two CPUs takes one of them. */
  lemma BothBoot(s: State)
    requires WellFormed(s) && s.current[0] == s.current[1] == -1
    requires s.threads[0] == s.threads[1] == Thread(true, 0, Runnable, -1)
    requires s.procs[0] == Proc(true, -1, -1, -1, [1, 0], false)
    ensures var run := [DoBoot(0), DoBoot(1)];
      && Runs(s, run)
      && var s' := After(s, run);
      && s'.current[0] == 0 && s'.current[1] == 1
      && s'.threads[0] == Thread(true, 0, Running, 0) && s'.threads[1] == Thread(true, 0, Running, 1)
      && s'.procs[0] == Proc(true, -1, 1, 1, [1, 0], false)
      && s'.threads[2..] == s.threads[2..] && s'.procs[1..] == s.procs[1..]
  {
    var run := [DoBoot(0), DoBoot(1)];
    TakesFirst(s, 0, 0);
    var s1 := Apply(s, run[0]);
    TakesFirst(s1, 1, 1);
    var s2 := Apply(s1, run[1]);
    hide Boot;
    assert Runs(s2, run[2..]) && After(s2, run[2..]) == s2;
    assert run[1..][1..] == run[2..] && Runs(s1, run[1..]) && After(s1, run[1..]) == s2;
  }

  /** A reachable state in which the exit of a process leaves one of its threads
      running: thread 0 exits on CPU 0 while thread 1, scheduled later, runs on CPU 1. */
  lemma ExitCanLeaveThreadRunning(config: Config)
    ensures var s := PowerOn(config);
      var run := CreateTwo() + [DoBoot(0), DoBoot(1)];
      && Runs(s, run)
      && var s' := After(s, run);
      && s'.current[0] == 0 && s'.current[1] == 1 && s'.threads[0].proc == 0 && 1 in s'.procs[0].list
      && Exit(s', 0).threads[1].state == Running
  {
    hide Runs, After, CreateTwo, Exit;
    var s := PowerOn(config);
    CreateTwoRuns(config);
    BothBoot(After(s, CreateTwo()));
    RunOn(s, CreateTwo(), [DoBoot(0), DoBoot(1)]);
    ExitSpares(After(s, CreateTwo() + [DoBoot(0), DoBoot(1)]));
  }

  lemma ExitSpares(s: State)
    requires WellFormed(s) && s.current[0] == 0 && s.threads[0].proc == 0 && s.threads[1] == Thread(true, 0, Running, 1)
    requires s.procs[0] == Proc(true, -1, 1, 1, [1, 0], false)
    ensures Exit(s, 0).threads[1].state == Running
  {
    MarkListMarks(s, s.procs[0].list, 1, 1);
    hide MarkList;
  }

  /** With the slots below `t` taken and `t` free to run anywhere, a booting CPU takes `t`. */
  lemma TakesFirst(s: State, cpu: int, t: int)
    requires WellFormed(s) && 0 <= cpu < MAX_CPUS && 0 <= t <= 1
    requires s.threads[t] == Thread(true, 0, Runnable, -1) && s.procs[0].preferred < 0
    requires t == 1 ==> s.threads[0].state == Running
    ensures Boot(s, cpu) == SetCurrent(s, cpu, t)
  {
    assert Slot(Start(-1), 0) == 0 && Slot(Start(-1), 1) == 1;
    assert Scan(s, cpu, -1, false, 1) == if Accepts(s, 1, cpu, false) then 1 else Scan(s, cpu, -1, false, 2);
  }

  // ---- bounded waiting ----

  /** How many slots the scan passes before it reaches `t`. */
  function Distance(cur: int, t: int): (d: nat)
    requires -1 <= cur < MAX_THREADS && IsThread(t)
    ensures d < MAX_THREADS
  {
    if t > cur then t - cur - 1 else t - cur - 1 + MAX_THREADS
  }

  lemma SlotDistance(cur: int, t: int, i: nat)
    requires -1 <= cur < MAX_THREADS && IsThread(t) && i < MAX_THREADS
    ensures Slot(Start(cur), Distance(cur, t)) == t
    ensures Distance(cur, Slot(Start(cur), i)) == i
  {
  }

  /** While `t` is eligible, a pick returns `t` or a thread from which `t` is nearer. */
  lemma PickGetsNearer(s: State, cpu: int, cur: int, t: int)
    requires WellFormed(s) && -1 <= cur < MAX_THREADS && IsThread(t) && t != cur
    requires Eligible(s, t, cpu)
    ensures var r := PickNext(s, cpu, cur);
      && IsThread(r) && r != cur && Eligible(s, r, cpu)
      && (r == t || Distance(r, t) < Distance(cur, t))
  {
    var j := ScanFirst(s, cpu, cur, false, 0);
    SlotDistance(cur, t, 0);
    assert Accepts(s, Slot(Start(cur), Distance(cur, t)), cpu, false);
    hide Eligible, Scan;
    SlotDistance(cur, t, j);
  }

  /** `t` is off `cpu`, and whenever `cpu` picks `t` is eligible for it. */
  ghost predicate Waits(s: State, a: Action, cpu: int, t: int)
    requires WellFormed(s) && Enabled(s, a) && 0 <= cpu < MAX_CPUS && IsThread(t)
  {
    && s.current[cpu] != t
    && (IsPick(a, cpu) ==> Eligible(PickState(s, a, cpu), t, cpu))
  }

  lemma PickStepGetsNearer(s: State, a: Action, cpu: int, t: int)
    requires Safe(s) && 0 <= cpu < MAX_CPUS && IsThread(t)
    requires Enabled(s, a) && IsPick(a, cpu) && Waits(s, a, cpu, t)
    ensures var r := Apply(s, a).current[cpu];
      r == t || Distance(r, t) < Distance(s.current[cpu], t)
  {
    hide PickNext, PickAny, CanRunOn, DeadClaims, Retire, Reap, Kill, Exit, ThreadExit, Destroy, Distance;
    PickGetsNearer(PickState(s, a, cpu), cpu, s.current[cpu], t);
  }

  lemma OtherStepKeepsCurrent(s: State, a: Action, cpu: int)
    requires Safe(s) && 0 <= cpu < MAX_CPUS && Enabled(s, a) && !IsPick(a, cpu)
    ensures Apply(s, a).current[cpu] == s.current[cpu]
  {
    hide Boot, SleepSwitch, Switch, Retire, Reap, Kill, Exit, ThreadExit, Destroy, DeadClaims;
  }

  ghost predicate WaitsThrough(s: State, run: seq<Action>, cpu: int, t: int)
    requires WellFormed(s) && Runs(s, run) && 0 <= cpu < MAX_CPUS && IsThread(t)
    decreases |run|
  {
    && s.current[cpu] != t
    && (run == [] || (Waits(s, run[0], cpu, t) && WaitsThrough(Apply(s, run[0]), run[1..], cpu, t)))
  }

  function Picks(run: seq<Action>, cpu: int): nat {
    if run == [] then 0 else (if IsPick(run[0], cpu) then 1 else 0) + Picks(run[1..], cpu)
  }

  lemma {:induction false} WaitShrinks(s: State, run: seq<Action>, cpu: int, t: int)
    requires Safe(s) && Runs(s, run) && 0 <= cpu < MAX_CPUS && IsThread(t)
    requires WaitsThrough(s, run, cpu, t)
    ensures Picks(run, cpu) <= Distance(s.current[cpu], t)
    decreases |run|
  {
    hide Enabled, Apply, Distance, PickState;
    if run != [] {
      StepSafe(s, run[0]);
      if IsPick(run[0], cpu) {
        PickStepGetsNearer(s, run[0], cpu, t);
      } else {
        OtherStepKeepsCurrent(s, run[0], cpu);
      }
      WaitShrinks(Apply(s, run[0]), run[1..], cpu, t);
    }
  }

  /** Bounded waiting: whatever else happens in between, a thread that stays eligible for
      a CPU is running there before that CPU has picked MAX_THREADS times. */
  lemma BoundedWaiting(s: State, run: seq<Action>, cpu: int, t: int)
    requires Safe(s) && Runs(s, run) && 0 <= cpu < MAX_CPUS && IsThread(t)
    requires WaitsThrough(s, run, cpu, t)
    ensures Picks(run, cpu) < MAX_THREADS
  {
    WaitShrinks(s, run, cpu, t);
  }
}
