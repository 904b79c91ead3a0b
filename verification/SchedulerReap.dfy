/** Which threads reaping frees, and that they need not be dead. */
module SchedulerReap {
  import opened Scheduler
  import opened SchedulerSafety
  import opened SchedulerRuns
  import opened SchedulerEffects

  /** The process is waiting to be reaped and none of its threads claims a CPU. */
  ghost predicate Ready(s: State, p: int)
    requires WellFormed(s) && IsProc(p)
  {
    s.procs[p].live && s.procs[p].reapable && Idle(s, p)
  }

  ghost predicate Doomed(s: State, p: int, t: int)
    requires WellFormed(s) && IsProc(p)
  {
    Ready(s, p) && t in s.procs[p].list
  }

  lemma IdleThread(s: State, p: int, t: int)
    requires WellFormed(s) && IsProc(p) && Idle(s, p) && t in s.procs[p].list
    ensures IsThread(t) && s.threads[t].cpu < 0
  {
    var i :| 0 <= i < |s.procs[p].list| && s.procs[p].list[i] == t;
  }

  /** What destroying threads leaves of process `q`'s list: all but freed threads. */
  lemma {:induction false} DestroyListLists(s: State, cpu: int, list: seq<int>, q: int, t: int)
    requires WellFormed(s) && 0 <= cpu < MAX_CPUS && IsProc(q) && forall u :: u in list ==> IsThread(u)
    ensures var s' := DestroyList(s, cpu, list);
      && s'.procs[q].live == s.procs[q].live && s'.procs[q].reapable == s.procs[q].reapable
      && (t in s'.procs[q].list ==> t in s.procs[q].list)
      && (t in s.procs[q].list && t !in s'.procs[q].list ==> s.threads[t].cpu < 0 && !s'.threads[t].used)
    decreases |list|
  {
    if list != [] {
      var s1 := Destroy(s, cpu, list[0]);
      DestroyListLists(s1, cpu, list[1..], q, t);
      if IsThread(t) {
        DestroyListFreesOnly(s1, cpu, list[1..], t);
      }
      hide DestroyList;
    }
  }

  lemma ReapOneLists(s: State, cpu: int, p: int, q: int, t: int)
    requires WellFormed(s) && 0 <= cpu < MAX_CPUS && IsProc(p) && IsProc(q) && p != q
    ensures var s' := ReapOne(s, cpu, p);
      && s'.procs[q].live == s.procs[q].live && s'.procs[q].reapable == s.procs[q].reapable
      && (t in s'.procs[q].list ==> t in s.procs[q].list)
      && (t in s.procs[q].list && t !in s'.procs[q].list ==> s.threads[t].cpu < 0 && !s'.threads[t].used)
  {
    DestroyListLists(s, cpu, s.procs[p].list, q, t);
    hide DestroyList;
  }

  lemma ReapOneThreads(s: State, cpu: int, p: int, t: int)
    requires Safe(s) && 0 <= cpu < MAX_CPUS && IsProc(p) && IsThread(t)
    ensures Safe(ReapOne(s, cpu, p))
    ensures ReapOne(s, cpu, p).threads[t] == if Doomed(s, p, t) && s.threads[t].used then NO_THREAD else s.threads[t]
  {
    DestroyListSafe(s, cpu, s.procs[p].list);
    DestroyListFreesOnly(s, cpu, s.procs[p].list, t);
    if Doomed(s, p, t) {
      ReapFreesThreads(s, cpu, p, t);
    } else if Ready(s, p) {
      DestroyListKeepsClaimed(s, cpu, s.procs[p].list, t);
    }
    hide DestroyList, DeadClaims;
  }

  /** Reaping one process leaves the others as ready as they were. */
  lemma ReadyKept(s: State, cpu: int, p: int, q: int)
    requires Safe(s) && 0 <= cpu < MAX_CPUS && IsProc(p) && IsProc(q) && p != q
    ensures Ready(ReapOne(s, cpu, p), q) <==> Ready(s, q)
  {
    var s' := ReapOne(s, cpu, p);
    ReapOneLists(s, cpu, p, q, -1);
    hide ReapOne, Safe;
    if Idle(s', q) {
      forall t | t in s.procs[q].list ensures s.threads[t].cpu < 0 {
        ReapOneLists(s, cpu, p, q, t);
        ReapOneThreads(s, cpu, p, t);
        if t in s'.procs[q].list {
          IdleThread(s', q, t);
          DoomedIsOff(s, p, t);
        }
      }
    }
    if Idle(s, q) {
      forall t | t in s'.procs[q].list ensures s'.threads[t].cpu < 0 {
        ReapOneLists(s, cpu, p, q, t);
        IdleThread(s, q, t);
        ReapOneThreads(s, cpu, p, t);
      }
    }
  }

  lemma DoomedIsOff(s: State, p: int, t: int)
    requires WellFormed(s) && IsProc(p) && IsThread(t)
    ensures Doomed(s, p, t) ==> s.threads[t].cpu < 0
  {
    if Doomed(s, p, t) {
      IdleThread(s, p, t);
    }
  }

  lemma {:induction false} ReapFromFrees(s: State, cpu: int, from: nat, t: int)
    requires Safe(s) && 0 <= cpu < MAX_CPUS && from <= MAX_PROCS && IsThread(t) && s.threads[t].used
    ensures !ReapFrom(s, cpu, from).threads[t].used <==> exists p :: from <= p < MAX_PROCS && Doomed(s, p, t)
    decreases MAX_PROCS - from
  {
    if from < MAX_PROCS {
      var s' := ReapOne(s, cpu, from);
      ReapOneThreads(s, cpu, from, t);
      if Doomed(s, from, t) {
        ReapFromFreesOnly(s', cpu, from + 1, t);
      } else {
        ReapFromFrees(s', cpu, from + 1, t);
        forall p | from < p < MAX_PROCS ensures Doomed(s', p, t) <==> Doomed(s, p, t) {
          ReadyKept(s, cpu, from, p);
          ReapOneLists(s, cpu, from, p, t);
        }
      }
      hide ReapOne, Ready, Safe;
    }
  }

  /** Reaping frees a thread exactly when a process that waits to be reaped, with no
      thread on a CPU, lists it. */
  lemma ReapFreesIff(s: State, cpu: int, t: int)
    requires Safe(s) && 0 <= cpu < MAX_CPUS && IsThread(t) && s.threads[t].used
    ensures !Reap(s, cpu).threads[t].used <==> s.pending > 0 && exists p :: 0 <= p < MAX_PROCS && Doomed(s, p, t)
  {
    ReapFromFrees(s, cpu, 0, t);
    hide ReapFrom, Doomed;
  }

  /** Reaping frees dead threads only if and only if every thread it is about to free is
      dead already: the code tests that no CPU claims them, not that they are dead. */
  lemma ReapFreesOnlyDeadIff(s: State, cpu: int)
    requires Safe(s) && 0 <= cpu < MAX_CPUS
    ensures (forall t :: 0 <= t < MAX_THREADS && s.threads[t].used && !Reap(s, cpu).threads[t].used ==>
               s.threads[t].state == Terminated)
        <==> (s.pending == 0 || forall p, t :: 0 <= p < MAX_PROCS && 0 <= t < MAX_THREADS && Doomed(s, p, t) ==>
               !s.threads[t].used || s.threads[t].state == Terminated)
  {
    hide Reap, Doomed;
    forall t | 0 <= t < MAX_THREADS && s.threads[t].used
      ensures !Reap(s, cpu).threads[t].used <==> s.pending > 0 && exists p :: 0 <= p < MAX_PROCS && Doomed(s, p, t)
    {
      ReapFreesIff(s, cpu, t);
    }
  }

  // ---- a run that frees a runnable thread ----

  lemma Extend(s: State, run: seq<Action>, k: nat)
    requires WellFormed(s) && k < |run| && Runs(s, run[..k]) && Enabled(After(s, run[..k]), run[k])
    ensures Runs(s, run[..k + 1]) && After(s, run[..k + 1]) == Apply(After(s, run[..k]), run[k])
  {
    hide Enabled, Apply;
    var a := run[k];
    var end := Apply(After(s, run[..k]), a);
    assert Runs(end, [a][1..]) && After(end, [a][1..]) == end;
    RunOn(s, run[..k], [a]);
    assert run[..k + 1] == run[..k] + [a];
  }

  lemma Nothing(s: State, run: seq<Action>)
    requires WellFormed(s)
    ensures Runs(s, run[..0]) && After(s, run[..0]) == s && run[..|run|] == run
  {
  }

  /** With the next slot taken and the one after it eligible, the pick takes the latter. */
  lemma PicksSecond(s: State, cpu: int, cur: int)
    requires WellFormed(s) && 0 <= cur < MAX_THREADS - 2
    requires s.threads[cur + 1].state != Runnable && Eligible(s, cur + 2, cpu)
    ensures PickNext(s, cpu, cur) == cur + 2
  {
    assert Slot(Start(cur), 0) == cur + 1 && Slot(Start(cur), 1) == cur + 2;
    assert Scan(s, cpu, cur, false, 1) == cur + 2;
    hide CanRunOn;
  }

  /** Two threads of process 0 run on CPUs 0 and 1, thread 1 having been scheduled last. */
  ghost predicate BothRunning(s: State) {
    && WellFormed(s) && s.current[0] == 0 && s.current[1] == 1
    && s.threads[0] == Thread(true, 0, Running, 0) && s.threads[1] == Thread(true, 0, Running, 1)
    && s.procs[0] == Proc(true, -1, 1, 1, [1, 0], false)
    && !s.threads[2].used && !s.threads[3].used && !s.procs[1].live
  }

  lemma BothRunningIsReached(config: Config)
    ensures var run := CreateTwo() + [DoBoot(0), DoBoot(1)];
      Runs(PowerOn(config), run) && BothRunning(After(PowerOn(config), run))
  {
    var s := PowerOn(config);
    CreateTwoRuns(config);
    var two := After(s, CreateTwo());
    hide Runs, After, CreateTwo, PowerOn;
    BothBoot(two);
    RunOn(s, CreateTwo(), [DoBoot(0), DoBoot(1)]);
    var end := After(two, [DoBoot(0), DoBoot(1)]);
    assert end.threads[2] == end.threads[2..][0] && end.threads[3] == end.threads[2..][1];
    assert two.threads[2] == two.threads[2..][0] && two.threads[3] == two.threads[2..][1];
    assert end.procs[1] == end.procs[1..][0] && two.procs[1] == two.procs[1..][0];
  }

  /** Process 0 exits through thread 0, leaving thread 1 running. */
  ghost predicate Leaving(s: State) {
    && WellFormed(s) && s.current[0] == 0 && s.current[1] == 1
    && s.threads[0] == Thread(true, 0, Terminated, 0) && s.threads[1] == Thread(true, 0, Running, 1)
    && s.procs[0] == Proc(true, -1, 1, 1, [1, 0], true) && s.dead > 0 && s.pending > 0
  }

  lemma ExitStep(s: State)
    requires BothRunning(s)
    ensures Enabled(s, DoExit(0)) && Leaving(Exit(s, 0))
    ensures Exit(s, 0).threads[2..] == s.threads[2..] && Exit(s, 0).procs[1..] == s.procs[1..]
  {
    assert [1, 0][1..] == [0] && [0][1..] == [];
    assert MarkList(s, [1, 0], 1) == MarkList(s, [0], 1) == MarkDead(s, 0);
  }

  /** Process 1 has a runnable thread in each of the slots 2 and 3. */
  ghost predicate Others(s: State) {
    && WellFormed(s) && s.threads[2] == s.threads[3] == Thread(true, 1, Runnable, -1) && s.procs[1].preferred == -1
  }

  function CreateOthers(): seq<Action> {
    [DoSpawn(1, -1), DoAlloc(2), DoStart(2, 1), DoAlloc(3), DoStart(3, 1)]
  }

  lemma CreateOthersRuns(s: State)
    requires Leaving(s) && !s.threads[2].used && !s.threads[3].used && !s.procs[1].live
    ensures Runs(s, CreateOthers()) && Leaving(After(s, CreateOthers())) && Others(After(s, CreateOthers()))
  {
    var run := CreateOthers();
    hide Runs, After;
    Nothing(s, run);
    Extend(s, run, 0);
    Extend(s, run, 1);
    Extend(s, run, 2);
    Extend(s, run, 3);
    Extend(s, run, 4);
  }

  /** CPU 0 leaves the dead thread and CPU 1 preempts the live one. */
  lemma BothSwitch(s: State)
    requires Leaving(s) && Others(s)
    ensures var run := [DoSwitch(0), DoSwitch(1)];
      && Runs(s, run)
      && var r := After(s, run);
      && r.threads[0] == s.threads[0] && r.threads[1] == Thread(true, 0, Runnable, -1)
      && r.procs[0] == s.procs[0] && r.dead == s.dead && r.pending == s.pending
      && r.current[0] == 2
  {
    hide Runs, After, CanRunOn, PickNext, PickAny;
    OpenToAll(s, 2, 0);
    PicksSecond(s, 0, 0);
    var s1 := Switch(s, 0);
    OpenToAll(Descheduled(s1, 1), 3, 1);
    PicksSecond(Descheduled(s1, 1), 1, 1);
    var run := [DoSwitch(0), DoSwitch(1)];
    Nothing(s, run);
    Extend(s, run, 0);
    Extend(s, run, 1);
  }

  lemma OpenToAll(s: State, t: int, cpu: int)
    requires WellFormed(s) && IsThread(t) && s.threads[t] == Thread(true, 1, Runnable, -1) && s.procs[1].preferred == -1
    ensures Eligible(s, t, cpu)
  {
  }

  lemma RetireStep(s: State)
    requires Safe(s) && s.threads[0] == Thread(true, 0, Terminated, 0) && s.current[0] == 2
    requires s.threads[1] == Thread(true, 0, Runnable, -1)
    ensures Retire(s, 0).threads[0] == Thread(true, 0, Terminated, -1) && Retire(s, 0).threads[1] == s.threads[1]
  {
    RetireIsComplete(s, 0, 0);
    RetireIsComplete(s, 0, 1);
    hide Retire;
  }

  lemma {:induction false} RetireKeepsProcs(s: State, cpu: int, from: nat)
    requires WellFormed(s) && 0 <= cpu < MAX_CPUS && from <= MAX_THREADS
    ensures RetireFrom(s, cpu, from).procs == s.procs && RetireFrom(s, cpu, from).pending == s.pending
    decreases MAX_THREADS - from
  {
    if from < MAX_THREADS {
      RetireKeepsProcs(RetireOne(s, cpu, from), cpu, from + 1);
    }
  }

  /** The whole run: two threads of a process run, one of them exits, two threads of
      another process arrive, and both CPUs switch. */
  function StrayRun(): seq<Action> {
    CreateTwo() + [DoBoot(0), DoBoot(1)] + [DoExit(0)] + CreateOthers() + [DoSwitch(0), DoSwitch(1)] + [DoRetire(0)]
  }

  lemma One(s: State, a: Action)
    requires WellFormed(s) && Enabled(s, a)
    ensures Runs(s, [a]) && After(s, [a]) == Apply(s, a)
  {
    Nothing(s, [a]);
    Extend(s, [a], 0);
  }

  lemma ExitRuns(s: State)
    requires BothRunning(s)
    ensures Runs(s, [DoExit(0)]) && Leaving(After(s, [DoExit(0)]))
    ensures var r := After(s, [DoExit(0)]); !r.threads[2].used && !r.threads[3].used && !r.procs[1].live
  {
    ExitStep(s);
    One(s, DoExit(0));
    hide Runs, After, Exit;
    var r := After(s, [DoExit(0)]);
    assert r.threads[2] == r.threads[2..][0] && r.threads[3] == r.threads[2..][1];
    assert s.threads[2] == s.threads[2..][0] && s.threads[3] == s.threads[2..][1];
    assert r.procs[1] == r.procs[1..][0] && s.procs[1] == s.procs[1..][0];
  }

  lemma StrayRunRuns(config: Config)
    ensures Runs(PowerOn(config), StrayRun())
    ensures var s := After(PowerOn(config), StrayRun());
      && Safe(s) && s.pending > 0 && s.procs[0] == Proc(true, -1, 1, 1, [1, 0], true)
      && s.threads[0].cpu == -1 && s.threads[1] == Thread(true, 0, Runnable, -1)
  {
    var s0 := PowerOn(config);
    BothRunningIsReached(config);
    hide Runs, After, CreateTwo, CreateOthers, Apply, Enabled, Safe;
    var run := CreateTwo() + [DoBoot(0), DoBoot(1)];
    ExitRuns(After(s0, run));
    RunOn(s0, run, [DoExit(0)]);
    run := run + [DoExit(0)];
    CreateOthersRuns(After(s0, run));
    RunOn(s0, run, CreateOthers());
    run := run + CreateOthers();
    BothSwitch(After(s0, run));
    RunOn(s0, run, [DoSwitch(0), DoSwitch(1)]);
    run := run + [DoSwitch(0), DoSwitch(1)];
    LastStep(config, run);
  }

  lemma LastStep(config: Config, run: seq<Action>)
    requires Runs(PowerOn(config), run)
    requires var s := After(PowerOn(config), run);
      && s.threads[0] == Thread(true, 0, Terminated, 0) && s.threads[1] == Thread(true, 0, Runnable, -1)
      && s.current[0] == 2
    ensures Runs(PowerOn(config), run + [DoRetire(0)])
    ensures var s, r := After(PowerOn(config), run), After(PowerOn(config), run + [DoRetire(0)]);
      && Safe(r) && r.pending == s.pending && r.procs == s.procs
      && r.threads[0] == Thread(true, 0, Terminated, -1) && r.threads[1] == s.threads[1]
  {
    NoDeadAtPowerOn(config, MAX_THREADS);
    RunSafe(PowerOn(config), run);
    hide Runs, After, PowerOn;
    var s := After(PowerOn(config), run);
    One(s, DoRetire(0));
    RunOn(PowerOn(config), run, [DoRetire(0)]);
    RetireFromSafe(s, 0, 0);
    RetireStep(s);
    RetireKeepsProcs(s, 0, 0);
    hide RetireFrom;
  }

  /** A reachable state in which reaping frees a thread that is still runnable: the one
      its process's exit left alive, once it is off its CPU. */
  lemma ReapCanFreeRunnable(config: Config)
    ensures Runs(PowerOn(config), StrayRun())
    ensures var s := After(PowerOn(config), StrayRun());
      && Safe(s) && s.threads[1].used && s.threads[1].state == Runnable
      && !Reap(s, 0).threads[1].used
  {
    StrayRunRuns(config);
    hide Runs, After, StrayRun;
    var s := After(PowerOn(config), StrayRun());
    assert Doomed(s, 0, 1);
    ReapFreesIff(s, 0, 1);
  }
}
