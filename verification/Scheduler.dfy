/** The SMP scheduler and the life of threads, as a state and the effect of each
    region the kernel runs under its locks. Indices into the thread and process
    tables stand for pointers, -1 for NULL. */
module Scheduler {

  const MAX_THREADS := 256
  const MAX_PROCS := 256
  const MAX_CPUS := 32

  datatype RunState = Unused | Embryo | Runnable | Running | Sleeping | Terminated

  datatype Thread = Thread(used: bool, proc: int, state: RunState, cpu: int)

  datatype Proc = Proc(live: bool, preferred: int, last: int, cur: int, list: seq<int>, reapable: bool)

  datatype Config = Config(strict: bool, smart: bool, threshold: nat)

  /** `dead` counts kills of threads that still claim a CPU and `pending` processes
      waiting to be reaped. */
  datatype State = State(threads: seq<Thread>, procs: seq<Proc>, current: seq<int>, dead: nat, pending: nat,
                         config: Config)

  const NO_THREAD := Thread(false, -1, Unused, -1)

  predicate IsThread(t: int) {
    0 <= t < MAX_THREADS
  }

  ghost predicate WellFormed(s: State) {
    && |s.threads| == MAX_THREADS && |s.procs| == MAX_PROCS && |s.current| == MAX_CPUS
    && (forall t :: 0 <= t < MAX_THREADS ==> -1 <= s.threads[t].proc < MAX_PROCS && -1 <= s.threads[t].cpu < MAX_CPUS)
    && (forall c :: 0 <= c < MAX_CPUS ==> -1 <= s.current[c] < MAX_THREADS)
    && (forall p :: 0 <= p < MAX_PROCS ==> ListOk(s.procs[p]))
  }

  ghost predicate ListOk(p: Proc) {
    && -1 <= p.cur < MAX_THREADS
    && forall t :: t in p.list ==> IsThread(t)
  }

  // ---- placement ----

  function Shares(th: Thread, procs: seq<Proc>, cpu: int): nat
    requires -1 <= th.proc < |procs|
  {
    if !th.used || th.proc < 0 || th.state == Terminated || th.state == Unused then 0
    else
      var preferred := procs[th.proc].preferred;
      (if preferred == cpu then 1 else 0) + (if th.cpu == cpu && th.cpu != preferred then 1 else 0)
  }

  /** The load the first `n` threads put on `cpu`. */
  function Load(threads: seq<Thread>, procs: seq<Proc>, cpu: int, n: nat): nat
    requires n <= |threads|
    requires forall t :: 0 <= t < |threads| ==> -1 <= threads[t].proc < |procs|
  {
    if n == 0 then 0 else Load(threads, procs, cpu, n - 1) + Shares(threads[n - 1], procs, cpu)
  }

  function LoadOf(s: State, cpu: int): nat
    requires WellFormed(s)
  {
    Load(s.threads, s.procs, cpu, MAX_THREADS)
  }

  /** Whether thread `t` may be taken by `cpu`. */
  predicate CanRunOn(s: State, t: int, cpu: int)
    requires WellFormed(s) && IsThread(t)
  {
    var th := s.threads[t];
    if th.proc < 0 || (th.cpu >= 0 && th.cpu != cpu) then false
    else
      var p := s.procs[th.proc];
      if p.preferred < 0 then true
      else if s.config.strict then p.preferred == cpu
      else if !s.config.smart || p.last == cpu || p.preferred == cpu then true
      else if !(0 <= cpu < MAX_CPUS) || p.preferred >= MAX_CPUS then false
      else LoadOf(s, cpu) + s.config.threshold < LoadOf(s, p.preferred)
  }

  predicate Eligible(s: State, t: int, cpu: int)
    requires WellFormed(s) && IsThread(t)
  {
    s.threads[t].used && s.threads[t].state == Runnable && CanRunOn(s, t, cpu)
  }

  /** What the fallback pick of a dying thread's CPU accepts. */
  predicate Takeable(s: State, t: int, cpu: int)
    requires WellFormed(s) && IsThread(t)
  {
    var th := s.threads[t];
    th.used && th.state == Runnable && (th.cpu < 0 || th.cpu == cpu)
  }

  function Slot(start: nat, i: nat): (t: int)
    ensures IsThread(t)
  {
    (start + i) % MAX_THREADS
  }

  function Start(cur: int): nat
    requires -1 <= cur
  {
    cur + 1
  }

  /** The first acceptable thread from position `i` of the cyclic scan, else `cur`. */
  function Scan(s: State, cpu: int, cur: int, any: bool, i: nat): (t: int)
    requires WellFormed(s) && -1 <= cur < MAX_THREADS && i <= MAX_THREADS
    ensures -1 <= t < MAX_THREADS
    decreases MAX_THREADS - i, cur
  {
    if i == MAX_THREADS then cur
    else
      var t := Slot(Start(cur), i);
      if Accepts(s, t, cpu, any) then t else Scan(s, cpu, cur, any, i + 1)
  }

  predicate Accepts(s: State, t: int, cpu: int, any: bool)
    requires WellFormed(s) && IsThread(t)
  {
    if any then Takeable(s, t, cpu) else Eligible(s, t, cpu)
  }

  function PickNext(s: State, cpu: int, cur: int): (t: int)
    requires WellFormed(s) && -1 <= cur < MAX_THREADS
    ensures -1 <= t < MAX_THREADS
  {
    Scan(s, cpu, cur, false, 0)
  }

  function PickAny(s: State, cpu: int, cur: int): (t: int)
    requires WellFormed(s) && -1 <= cur < MAX_THREADS
    ensures -1 <= t < MAX_THREADS
  {
    Scan(s, cpu, cur, true, 0)
  }

  // ---- single updates ----

  function SetThread(s: State, t: int, th: Thread): State
    requires 0 <= t < |s.threads|
  {
    s.(threads := s.threads[t := th])
  }

  function SetState(s: State, t: int, state: RunState): State
    requires 0 <= t < |s.threads|
  {
    SetThread(s, t, s.threads[t].(state := state))
  }

  function SetCpu(s: State, t: int, cpu: int): State
    requires 0 <= t < |s.threads|
  {
    SetThread(s, t, s.threads[t].(cpu := cpu))
  }

  function SetProc(s: State, p: int, proc: Proc): State
    requires 0 <= p < |s.procs|
  {
    s.(procs := s.procs[p := proc])
  }

  /** Makes `t` the thread `cpu` runs. */
  function SetCurrent(s: State, cpu: int, t: int): (r: State)
    requires WellFormed(s) && 0 <= cpu < MAX_CPUS && IsThread(t)
    ensures WellFormed(r) && r.current == s.current[cpu := r.current[cpu]]
  {
    var th := s.threads[t];
    var s' := SetThread(s.(current := s.current[cpu := t]), t, th.(state := Running, cpu := cpu));
    if th.proc < 0 then s' else SetProc(s', th.proc, s.procs[th.proc].(cur := t, last := cpu))
  }

  function MarkDead(s: State, t: int): (r: State)
    requires WellFormed(s) && IsThread(t)
    ensures WellFormed(r) && r.current == s.current
  {
    var s' := SetState(s, t, Terminated);
    if s.threads[t].cpu >= 0 then s'.(dead := s.dead + 1) else s'
  }

  // ---- locked regions ----

  /** A CPU without a thread takes its first one. */
  function Boot(s: State, cpu: int): (r: State)
    requires WellFormed(s) && 0 <= cpu < MAX_CPUS
    ensures WellFormed(r) && r.current == s.current[cpu := r.current[cpu]]
  {
    var next := PickNext(s, cpu, -1);
    if next < 0 || s.threads[next].state != Runnable then s else SetCurrent(s, cpu, next)
  }

  /** The current thread of `cpu` was found asleep. */
  function SleepSwitch(s: State, cpu: int): (r: State)
    requires WellFormed(s) && 0 <= cpu < MAX_CPUS && s.current[cpu] >= 0
    ensures WellFormed(r) && r.current == s.current[cpu := r.current[cpu]]
  {
    var cur := s.current[cpu];
    var off := SetCpu(s, cur, -1);
    var next := PickNext(off, cpu, cur);
    if next < 0 || next == cur then SetCpu(off, cur, cpu) else SetCurrent(off, cpu, next)
  }

  /** The state in which a preempting or yielding CPU picks. */
  function Descheduled(s: State, cpu: int): (r: State)
    requires WellFormed(s) && 0 <= cpu < MAX_CPUS && s.current[cpu] >= 0
    ensures WellFormed(r) && r.current == s.current
  {
    var cur := s.current[cpu];
    if s.threads[cur].state == Running then SetCpu(SetState(s, cur, Runnable), cur, -1)
    else if s.threads[cur].state != Terminated then SetCpu(s, cur, -1)
    else s
  }

  function NextFor(s: State, cpu: int, cur: int): (t: int)
    requires WellFormed(s) && IsThread(cur)
    ensures -1 <= t < MAX_THREADS
  {
    var next := PickNext(s, cpu, cur);
    if (next < 0 || next == cur) && s.threads[cur].state == Terminated then PickAny(s, cpu, cur) else next
  }

  /** Preemption or yield: put the current thread back and run the next one. */
  function Switch(s: State, cpu: int): (r: State)
    requires WellFormed(s) && 0 <= cpu < MAX_CPUS && s.current[cpu] >= 0
    ensures WellFormed(r) && r.current == s.current[cpu := r.current[cpu]]
  {
    var cur := s.current[cpu];
    var off := Descheduled(s, cpu);
    var next := NextFor(off, cpu, cur);
    if next < 0 || next == cur then
      if off.threads[cur].state == Terminated then SetCpu(off, cur, cpu)
      else SetCpu(SetState(off, cur, Running), cur, cpu)
    else SetCurrent(off, cpu, next)
  }

  predicate Retirable(s: State, cpu: int, t: int)
    requires WellFormed(s) && 0 <= cpu < MAX_CPUS && IsThread(t)
  {
    var th := s.threads[t];
    th.used && t != s.current[cpu] && th.state == Terminated && th.cpu == cpu
  }

  function RetireOne(s: State, cpu: int, t: int): (r: State)
    requires WellFormed(s) && 0 <= cpu < MAX_CPUS && IsThread(t)
    ensures WellFormed(r) && r.current == s.current
  {
    if Retirable(s, cpu, t) then SetCpu(s, t, -1).(dead := if s.dead > 0 then s.dead - 1 else 0) else s
  }

  /** Releases the dead threads that still claim `cpu`, from index `t` on. */
  function RetireFrom(s: State, cpu: int, t: nat): (r: State)
    requires WellFormed(s) && 0 <= cpu < MAX_CPUS && t <= MAX_THREADS
    ensures WellFormed(r) && r.current == s.current
    decreases MAX_THREADS - t, cpu
  {
    if t == MAX_THREADS then s else RetireFrom(RetireOne(s, cpu, t), cpu, t + 1)
  }

  function Retire(s: State, cpu: int): (r: State)
    requires WellFormed(s) && 0 <= cpu < MAX_CPUS
    ensures WellFormed(r) && r.current == s.current
  {
    if s.dead == 0 then s else RetireFrom(s, cpu, 0)
  }

  /** Marks the listed threads dead, all but `spare`. */
  function MarkList(s: State, list: seq<int>, spare: int): (r: State)
    requires WellFormed(s) && forall t :: t in list ==> IsThread(t)
    ensures WellFormed(r) && r.procs == s.procs && r.current == s.current
    decreases |list|
  {
    if list == [] then s
    else MarkList(if list[0] == spare then s else MarkDead(s, list[0]), list[1..], spare)
  }

  function KillAll(s: State, p: int): (r: State)
    requires WellFormed(s) && 0 <= p < MAX_PROCS
    ensures WellFormed(r) && r.procs == s.procs && r.current == s.current
  {
    MarkList(s, s.procs[p].list, s.procs[p].cur)
  }

  function MakeReapable(s: State, p: int): (r: State)
    requires WellFormed(s) && 0 <= p < MAX_PROCS
    ensures WellFormed(r) && r.current == s.current
  {
    SetProc(s, p, s.procs[p].(reapable := true)).(pending := s.pending + 1)
  }

  /** Process `p` is killed from outside. */
  function Kill(s: State, p: int): (r: State)
    requires WellFormed(s) && 0 <= p < MAX_PROCS
    ensures WellFormed(r) && r.current == s.current
  {
    MakeReapable(MarkList(KillAll(s, p), s.procs[p].list, -1), p)
  }

  /** The current thread of `cpu` ends its process. */
  function Exit(s: State, cpu: int): (r: State)
    requires WellFormed(s) && 0 <= cpu < MAX_CPUS && s.current[cpu] >= 0
    requires s.threads[s.current[cpu]].proc >= 0
    ensures WellFormed(r) && r.current == s.current
  {
    var td := s.current[cpu];
    var p := s.threads[td].proc;
    MakeReapable(MarkDead(SetCpu(KillAll(s, p), td, cpu), td), p)
  }

  /** The current thread of `cpu` ends. */
  function ThreadExit(s: State, cpu: int): (r: State)
    requires WellFormed(s) && 0 <= cpu < MAX_CPUS && s.current[cpu] >= 0
    ensures WellFormed(r) && r.current == s.current
  {
    MarkDead(SetCpu(s, s.current[cpu], cpu), s.current[cpu])
  }

  function Without(list: seq<int>, t: int): (r: seq<int>)
    ensures forall x :: x in r <==> x in list && x != t
  {
    if list == [] then []
    else if list[0] == t then Without(list[1..], t)
    else [list[0]] + Without(list[1..], t)
  }

  /** Frees a thread slot; refused while a CPU claims it. `cpu` does the work. */
  function Destroy(s: State, cpu: int, t: int): (r: State)
    requires WellFormed(s) && 0 <= cpu < MAX_CPUS && IsThread(t)
    ensures WellFormed(r) && r.current == s.current
  {
    var th := s.threads[t];
    if !th.used || t == s.current[cpu] || th.cpu >= 0 then s
    else
      var s' := if th.proc < 0 then s
                else SetProc(s, th.proc, s.procs[th.proc].(list := Without(s.procs[th.proc].list, t)));
      SetThread(s', t, NO_THREAD)
  }

  function DestroyList(s: State, cpu: int, list: seq<int>): (r: State)
    requires WellFormed(s) && 0 <= cpu < MAX_CPUS && forall t :: t in list ==> IsThread(t)
    ensures WellFormed(r) && r.current == s.current
    decreases |list|
  {
    if list == [] then s else DestroyList(Destroy(s, cpu, list[0]), cpu, list[1..])
  }

  /** No thread of the process claims a CPU. */
  predicate Idle(s: State, p: int)
    requires WellFormed(s) && 0 <= p < MAX_PROCS
  {
    forall i :: 0 <= i < |s.procs[p].list| ==> IsThread(s.procs[p].list[i]) && s.threads[s.procs[p].list[i]].cpu < 0
  }

  function ReapOne(s: State, cpu: int, p: int): (r: State)
    requires WellFormed(s) && 0 <= cpu < MAX_CPUS && 0 <= p < MAX_PROCS
    ensures WellFormed(r) && r.current == s.current
  {
    if !s.procs[p].live || !s.procs[p].reapable || !Idle(s, p) then s
    else
      var s' := DestroyList(s, cpu, s.procs[p].list);
      SetProc(s', p, s'.procs[p].(reapable := false, list := [], cur := -1))
        .(pending := if s'.pending > 0 then s'.pending - 1 else 0)
  }

  function ReapFrom(s: State, cpu: int, p: nat): (r: State)
    requires WellFormed(s) && 0 <= cpu < MAX_CPUS && p <= MAX_PROCS
    ensures WellFormed(r) && r.current == s.current
    decreases MAX_PROCS - p, cpu
  {
    if p == MAX_PROCS then s else ReapFrom(ReapOne(s, cpu, p), cpu, p + 1)
  }

  function Reap(s: State, cpu: int): (r: State)
    requires WellFormed(s) && 0 <= cpu < MAX_CPUS
    ensures WellFormed(r) && r.current == s.current
  {
    if s.pending == 0 then s else ReapFrom(s, cpu, 0)
  }
}
