/** Asynchronous procedure calls, abstractly: a queue of pending calls per thread, the
    rules for delivering them, and the user frame saved while a user call runs. */
module ApcModel {
  import S = Scheduler

  const POOL := 512
  const MAX_PER_THREAD := 16
  const MAX_THREADS := S.MAX_THREADS
  const RED_ZONE := 128
  const U64 := 0x1_0000_0000_0000_0000
  const USER_MAX := 0x0000_7FFF_FFFF_FFFF

  const KERNEL := 0
  const USER_NORMAL := 1
  const USER_SPECIAL := 2

  type u64 = x: int | 0 <= x < U64

  datatype Item = Item(kind: int, handler: u64, arg1: u64, arg2: u64, arg3: u64)

  /** Where the kernel stands when it looks for calls to deliver. */
  datatype Context = Context(syscall: bool, alertable: bool, userReturn: bool)

  datatype Regs = Regs(r15: u64, r14: u64, r13: u64, r12: u64, r11: u64, r10: u64, r9: u64, r8: u64,
                       rbp: u64, rdi: u64, rsi: u64, rdx: u64, rcx: u64, rbx: u64, rax: u64,
                       rip: u64, cs: u64, rflags: u64, rsp: u64, ss: u64)

  const NO_REGS := Regs(0, 0, 0, 0, 0, 0, 0, 0, 0, 0, 0, 0, 0, 0, 0, 0, 0, 0, 0, 0)

  datatype Td = Td(queue: seq<Item>, alertable: nat, inUser: bool, saved: Regs)

  /** `flushed` counts the calls thrown away with their thread. */
  datatype Apcs = Apcs(tds: seq<Td>, queued: nat, delivered: nat, dropped: nat, flushed: nat)

  datatype Status = Done | BadValue | BadAddr | NoProc | Retry

  predicate Deliverable(kind: int, ctx: Context, inUser: bool) {
    if kind == KERNEL then true
    else if kind == USER_NORMAL then !inUser && ctx.alertable
    else if kind == USER_SPECIAL then !inUser && (ctx.syscall || ctx.alertable || ctx.userReturn)
    else false
  }

  predicate IsUserAddress(addr: u64, size: nat) {
    addr != 0 && (size == 0 || (addr + size - 1 < U64 && addr + size - 1 <= USER_MAX))
  }

  // ---- totals ----

  function Pending(tds: seq<Td>, n: nat): nat
    requires n <= |tds|
  {
    if n == 0 then 0 else Pending(tds, n - 1) + |tds[n - 1].queue|
  }

  ghost predicate Valid(a: Apcs) {
    && |a.tds| == MAX_THREADS
    && (forall t :: 0 <= t < MAX_THREADS ==> |a.tds[t].queue| <= MAX_PER_THREAD)
    && Pending(a.tds, MAX_THREADS) <= POOL
    && a.queued == a.delivered + Pending(a.tds, MAX_THREADS) + a.flushed
  }

  lemma {:induction false} PendingUpdate(tds: seq<Td>, t: nat, td: Td, n: nat)
    requires t < |tds| && n <= |tds|
    ensures Pending(tds[t := td], n)
         == Pending(tds, n) + if t < n then |td.queue| - |tds[t].queue| else 0
  {
    if n != 0 {
      PendingUpdate(tds, t, td, n - 1);
    }
  }

  lemma {:induction false} PendingAtLeast(tds: seq<Td>, t: nat, n: nat)
    requires t < n <= |tds|
    ensures |tds[t].queue| <= Pending(tds, n)
  {
    if t < n - 1 {
      PendingAtLeast(tds, t, n - 1);
    }
  }

  lemma {:induction false} NothingPending(tds: seq<Td>, n: nat)
    requires n <= |tds| && forall t :: 0 <= t < |tds| ==> tds[t].queue == []
    ensures Pending(tds, n) == 0
  {
    if n != 0 {
      NothingPending(tds, n - 1);
    }
  }

  // ---- queueing ----

  function SetTd(a: Apcs, t: nat, td: Td): Apcs
    requires t < |a.tds|
  {
    a.(tds := a.tds[t := td])
  }

  /** Appends a call, unless the pool or the thread's share of it is exhausted. */
  function Enqueue(a: Apcs, t: nat, item: Item): (r: (Apcs, Status))
    requires Valid(a) && t < MAX_THREADS
    ensures Valid(r.0)
    ensures r.1 == Done <==> Pending(a.tds, MAX_THREADS) < POOL && |a.tds[t].queue| < MAX_PER_THREAD
  {
    if Pending(a.tds, MAX_THREADS) == POOL || |a.tds[t].queue| >= MAX_PER_THREAD then
      (a.(dropped := a.dropped + 1), Retry)
    else
      var td := a.tds[t].(queue := a.tds[t].queue + [item]);
      PendingUpdate(a.tds, t, td, MAX_THREADS);
      (SetTd(a, t, td).(queued := a.queued + 1), Done)
  }

  function QueueKernel(a: Apcs, t: nat, used: bool, terminated: bool, item: Item): (r: (Apcs, Status))
    requires Valid(a) && t < MAX_THREADS && item.kind == KERNEL
    ensures Valid(r.0)
  {
    if !used || item.handler == 0 then (a, BadValue)
    else if terminated then (a, NoProc)
    else Enqueue(a, t, item)
  }

  function QueueUser(a: Apcs, t: nat, used: bool, terminated: bool, item: Item): (r: (Apcs, Status))
    requires Valid(a) && t < MAX_THREADS && (item.kind == USER_NORMAL || item.kind == USER_SPECIAL)
    ensures Valid(r.0)
  {
    if !used || item.handler == 0 then (a, BadValue)
    else if !IsUserAddress(item.handler, 1) then (a, BadAddr)
    else if terminated then (a, NoProc)
    else Enqueue(a, t, item)
  }

  // ---- taking calls off a queue ----

  /** The position of the first deliverable call, or the length of the queue. */
  function FirstDeliverable(q: seq<Item>, ctx: Context, inUser: bool): (i: nat)
    ensures i <= |q|
    ensures i < |q| ==> Deliverable(q[i].kind, ctx, inUser)
    ensures forall k :: 0 <= k < i ==> !Deliverable(q[k].kind, ctx, inUser)
  {
    if q == [] || Deliverable(q[0].kind, ctx, inUser) then 0
    else 1 + FirstDeliverable(q[1..], ctx, inUser)
  }

  lemma FirstIs(q: seq<Item>, ctx: Context, inUser: bool, i: nat)
    requires i <= |q| && forall k :: 0 <= k < i ==> !Deliverable(q[k].kind, ctx, inUser)
    requires i < |q| ==> Deliverable(q[i].kind, ctx, inUser)
    ensures FirstDeliverable(q, ctx, inUser) == i
  {
    hide Deliverable;
    var j := FirstDeliverable(q, ctx, inUser);
    assert !(j < i) && !(i < j);
  }

  function RemoveAt<T>(q: seq<T>, i: nat): (r: seq<T>)
    requires i < |q|
    ensures |r| == |q| - 1
  {
    q[..i] + q[i + 1..]
  }

  /** What one round of delivery does to a queue: the kernel calls it runs, in order, the
      user call it ends with, and what stays queued. */
  datatype Round = Round(ran: seq<Item>, user: seq<Item>, rest: seq<Item>)

  function Deliveries(q: seq<Item>, ctx: Context, inUser: bool): (r: Round)
    ensures |r.user| <= 1 && |r.ran| + |r.user| + |r.rest| == |q|
    ensures r.user != [] ==> !inUser && Deliverable(r.user[0].kind, ctx, inUser) && r.user[0].kind != KERNEL
    ensures forall i :: 0 <= i < |r.ran| ==> r.ran[i].kind == KERNEL
  {
    if q == [] then Round([], [], [])
    else if q[0].kind == KERNEL then
      var r := Deliveries(q[1..], ctx, inUser);
      r.(ran := [q[0]] + r.ran)
    else if Deliverable(q[0].kind, ctx, inUser) then Round([], [q[0]], q[1..])
    else
      var r := Deliveries(q[1..], ctx, inUser);
      r.(rest := [q[0]] + r.rest)
  }

  /** A call that cannot be delivered yet is passed over. */
  lemma PassOver(q: seq<Item>, ctx: Context, inUser: bool)
    requires q != [] && FirstDeliverable(q, ctx, inUser) > 0
    ensures FirstDeliverable(q, ctx, inUser) == 1 + FirstDeliverable(q[1..], ctx, inUser)
    ensures var r := Deliveries(q[1..], ctx, inUser); Deliveries(q, ctx, inUser) == r.(rest := [q[0]] + r.rest)
    ensures forall i :: 0 < i < |q| ==> RemoveAt(q, i) == [q[0]] + RemoveAt(q[1..], i - 1)
  {
  }

  lemma PassOverIn(head: Item, q: seq<Item>, ctx: Context, inUser: bool)
    requires !Deliverable(head.kind, ctx, inUser)
    ensures var r := Deliveries(q, ctx, inUser); Deliveries([head] + q, ctx, inUser) == r.(rest := [head] + r.rest)
  {
    assert ([head] + q)[1..] == q;
  }

  lemma TakeHead(q: seq<Item>, ctx: Context, inUser: bool)
    requires q != [] && Deliverable(q[0].kind, ctx, inUser)
    ensures RemoveAt(q, 0) == q[1..]
    ensures var r := Deliveries(q[1..], ctx, inUser);
      Deliveries(q, ctx, inUser) == if q[0].kind == KERNEL then r.(ran := [q[0]] + r.ran) else Round([], [q[0]], q[1..])
  {
  }

  /** Taking the first deliverable call, when it is a kernel call, is one step of the round. */
  lemma {:induction false} PopKernel(q: seq<Item>, ctx: Context, inUser: bool)
    requires var i := FirstDeliverable(q, ctx, inUser); i < |q| && q[i].kind == KERNEL
    ensures var i := FirstDeliverable(q, ctx, inUser);
      var r := Deliveries(RemoveAt(q, i), ctx, inUser);
      Deliveries(q, ctx, inUser) == r.(ran := [q[i]] + r.ran)
    decreases |q|
  {
    hide Deliverable, FirstDeliverable, Deliveries, RemoveAt;
    var i := FirstDeliverable(q, ctx, inUser);
    if i == 0 {
      TakeHead(q, ctx, inUser);
    } else {
      PassOver(q, ctx, inUser);
      PopKernel(q[1..], ctx, inUser);
      PassOverIn(q[0], RemoveAt(q[1..], i - 1), ctx, inUser);
    }
  }

  lemma {:induction false} PopUser(q: seq<Item>, ctx: Context, inUser: bool)
    requires var i := FirstDeliverable(q, ctx, inUser); i < |q| && q[i].kind != KERNEL
    ensures var i := FirstDeliverable(q, ctx, inUser);
      Deliveries(q, ctx, inUser) == Round([], [q[i]], RemoveAt(q, i))
    decreases |q|
  {
    hide Deliverable, FirstDeliverable, Deliveries, RemoveAt;
    var i := FirstDeliverable(q, ctx, inUser);
    if i == 0 {
      TakeHead(q, ctx, inUser);
    } else {
      PassOver(q, ctx, inUser);
      PopUser(q[1..], ctx, inUser);
    }
  }

  lemma {:induction false} PopNone(q: seq<Item>, ctx: Context, inUser: bool)
    requires FirstDeliverable(q, ctx, inUser) == |q|
    ensures Deliveries(q, ctx, inUser) == Round([], [], q)
    decreases |q|
  {
    if q != [] {
      PopNone(q[1..], ctx, inUser);
      assert q == [q[0]] + q[1..];
    }
  }

  // ---- delivery to a thread ----

  /** Where a user handler's stack starts. */
  function HandlerStack(rsp: u64): u64 {
    var below := rsp - RED_ZONE;
    (below - below % 16 - 8) % U64
  }

  predicate CanEnterUser(regs: Regs) {
    regs.cs % 4 == 3 && regs.rsp > RED_ZONE && IsUserAddress(HandlerStack(regs.rsp), 8)
  }

  function HandlerFrame(regs: Regs, item: Item): Regs {
    regs.(rip := item.handler, rsp := HandlerStack(regs.rsp), rdi := item.arg1, rsi := item.arg2, rdx := item.arg3)
  }

  /** The thread after its first deliverable call, if any, has been taken off its queue;
      a user call marks it as running one. */
  function Popped(td: Td, ctx: Context): (r: (Td, seq<Item>))
    ensures |r.1| <= 1 && |r.0.queue| == |td.queue| - |r.1|
    ensures r.1 != [] && r.1[0].kind != KERNEL ==> !td.inUser
    ensures r.1 == [] ==> r.0 == td
  {
    var i := FirstDeliverable(td.queue, ctx, td.inUser);
    if i == |td.queue| then (td, [])
    else
      var item := td.queue[i];
      (td.(queue := RemoveAt(td.queue, i), inUser := td.inUser || item.kind != KERNEL), [item])
  }

  /** One turn of the delivery loop under its lock. */
  function Pop(a: Apcs, t: nat, ctx: Context): (r: (Apcs, seq<Item>))
    requires Valid(a) && t < MAX_THREADS
    ensures Valid(r.0) && |r.1| <= 1
    ensures |r.0.tds[t].queue| == |a.tds[t].queue| - |r.1|
  {
    hide Popped;
    var (td, got) := Popped(a.tds[t], ctx);
    PendingUpdate(a.tds, t, td, MAX_THREADS);
    (SetTd(a, t, td).(delivered := a.delivered + |got|), got)
  }

  /** The end of a delivery that took a user call: its handler is entered over `regs`,
      or refused. */
  function Finish(a: Apcs, t: nat, regs: Regs, item: Item): (r: (Apcs, Regs))
    requires Valid(a) && t < MAX_THREADS
    ensures Valid(r.0)
  {
    hide CanEnterUser, HandlerFrame;
    var td := a.tds[t];
    if CanEnterUser(regs) then
      PendingUpdate(a.tds, t, td.(saved := regs), MAX_THREADS);
      (SetTd(a, t, td.(saved := regs)), HandlerFrame(regs, item))
    else
      PendingUpdate(a.tds, t, td.(inUser := false), MAX_THREADS);
      (SetTd(a, t, td.(inUser := false)).(dropped := a.dropped + 1), regs)
  }

  datatype Delivery = Delivery(apcs: Apcs, regs: Regs, ran: seq<Item>, count: nat)

  function Deliver(a: Apcs, t: nat, used: bool, regs: Regs, ctx: Context): (d: Delivery)
    requires Valid(a) && t < MAX_THREADS
    ensures Valid(d.apcs)
  {
    var td := a.tds[t];
    if !used || td.queue == [] then Delivery(a, regs, [], 0)
    else
      var r := Deliveries(td.queue, ctx, td.inUser);
      var td1 := td.(queue := r.rest);
      PendingUpdate(a.tds, t, td1, MAX_THREADS);
      var a1 := SetTd(a, t, td1).(delivered := a.delivered + |r.ran| + |r.user|);
      if r.user == [] then Delivery(a1, regs, r.ran, |r.ran|)
      else if !CanEnterUser(regs) then Delivery(a1.(dropped := a1.dropped + 1), regs, r.ran, |r.ran|)
      else
        var td2 := td1.(inUser := true, saved := regs);
        PendingUpdate(a1.tds, t, td2, MAX_THREADS);
        Delivery(SetTd(a1, t, td2), HandlerFrame(regs, r.user[0]), r.ran, |r.ran| + 1)
  }

  /** The end of a user handler: back to the interrupted frame. */
  function Return(a: Apcs, t: nat, regs: Regs): (r: (Apcs, Regs, Status))
    requires Valid(a) && t < MAX_THREADS
    ensures Valid(r.0)
  {
    var td := a.tds[t];
    PendingUpdate(a.tds, t, td.(inUser := false), MAX_THREADS);
    if !td.inUser then (a, regs, BadValue)
    else if !IsUserAddress(td.saved.rip, 1) || !IsUserAddress(td.saved.rsp, 1) then
      (SetTd(a, t, td.(inUser := false)), regs, BadAddr)
    else (SetTd(a, t, td.(inUser := false)), td.saved, Done)
  }

  /** The thread goes away, and its calls with it. */
  function Flush(a: Apcs, t: nat): (r: Apcs)
    requires Valid(a) && t < MAX_THREADS
    ensures Valid(r)
  {
    var td := a.tds[t].(queue := [], alertable := 0, inUser := false);
    PendingUpdate(a.tds, t, td, MAX_THREADS);
    SetTd(a, t, td).(flushed := a.flushed + |a.tds[t].queue|)
  }

  function EnterAlertable(a: Apcs, t: nat): (r: Apcs)
    requires Valid(a) && t < MAX_THREADS
    ensures Valid(r)
  {
    var td := a.tds[t].(alertable := a.tds[t].alertable + 1);
    PendingUpdate(a.tds, t, td, MAX_THREADS);
    SetTd(a, t, td)
  }

  function LeaveAlertable(a: Apcs, t: nat): (r: Apcs)
    requires Valid(a) && t < MAX_THREADS
    ensures Valid(r)
  {
    var n := a.tds[t].alertable;
    var td := a.tds[t].(alertable := if n > 0 then n - 1 else n);
    PendingUpdate(a.tds, t, td, MAX_THREADS);
    SetTd(a, t, td)
  }
}
