/** What holds over every sequence of APC operations, on all CPUs. Each operation is one
    region under the lock, or one update a thread makes to its own frame. A delivery is
    several: it drops the lock after every call it takes, and anything may happen before
    it takes the next. */
module ApcRuns {
  import opened ApcModel

  datatype Op =
    | OpQueueKernel(t: nat, used: bool, terminated: bool, item: Item)
    | OpQueueUser(t: nat, used: bool, terminated: bool, item: Item)
    | OpTake(t: nat, ctx: Context)
    | OpFinish(t: nat, regs: Regs, item: Item)
    | OpReturn(t: nat, regs: Regs)
    | OpFlush(t: nat)
    | OpEnter(t: nat)
    | OpLeave(t: nat)

  predicate Legal(op: Op) {
    && op.t < MAX_THREADS
    && (op.OpQueueKernel? ==> op.item.kind == KERNEL)
    && (op.OpQueueUser? ==> op.item.kind == USER_NORMAL || op.item.kind == USER_SPECIAL)
  }

  function Apply(a: Apcs, op: Op): (r: Apcs)
    requires Valid(a) && Legal(op)
    ensures Valid(r)
  {
    match op
    case OpQueueKernel(t, used, terminated, item) => QueueKernel(a, t, used, terminated, item).0
    case OpQueueUser(t, used, terminated, item) => QueueUser(a, t, used, terminated, item).0
    case OpTake(t, ctx) => Pop(a, t, ctx).0
    case OpFinish(t, regs, item) => Finish(a, t, regs, item).0
    case OpReturn(t, regs) => Return(a, t, regs).0
    case OpFlush(t) => Flush(a, t)
    case OpEnter(t) => EnterAlertable(a, t)
    case OpLeave(t) => LeaveAlertable(a, t)
  }

  ghost predicate AllLegal(ops: seq<Op>) {
    forall i :: 0 <= i < |ops| ==> Legal(ops[i])
  }

  ghost function After(a: Apcs, ops: seq<Op>): (r: Apcs)
    requires Valid(a) && AllLegal(ops)
    ensures Valid(r)
    decreases |ops|
  {
    if ops == [] then a else After(Apply(a, ops[0]), ops[1..])
  }

  lemma {:induction false} AfterConcat(a: Apcs, p: seq<Op>, q: seq<Op>)
    requires Valid(a) && AllLegal(p) && AllLegal(q)
    ensures AllLegal(p + q) && After(a, p + q) == After(After(a, p), q)
    decreases |p|
  {
    hide Legal, Apply, Valid;
    if p == [] {
      assert p + q == q;
    } else {
      AfterConcat(Apply(a, p[0]), p[1..], q);
      assert (p + q)[1..] == p[1..] + q;
    }
  }

  lemma AfterOne(a: Apcs, op: Op)
    requires Valid(a) && Legal(op)
    ensures AllLegal([op]) && After(a, [op]) == Apply(a, op)
  {
    hide Legal, Apply;
    assert [op][1..] == [];
  }

  function Initial(): Apcs {
    Apcs(seq(MAX_THREADS, _ => Td([], 0, false, NO_REGS)), 0, 0, 0, 0)
  }

  /** After any operations every call ever queued is accounted for exactly once, no
      thread holds more than its share and all together hold no more than the pool. */
  lemma Conservation(ops: seq<Op>)
    requires AllLegal(ops)
    ensures Valid(Initial())
    ensures var a := After(Initial(), ops);
      && a.queued == a.delivered + Pending(a.tds, MAX_THREADS) + a.flushed
      && Pending(a.tds, MAX_THREADS) <= POOL
      && forall t :: 0 <= t < MAX_THREADS ==> |a.tds[t].queue| <= MAX_PER_THREAD
  {
    NothingPending(Initial().tds, MAX_THREADS);
    hide After;
  }

  // ---- a delivery as a run ----

  /** The operations of one delivery's loop, the kernel calls it ran and the user call it
      ended with. */
  datatype Visit = Visit(ops: seq<Op>, ran: seq<Item>, user: seq<Item>)

  ghost predicate GapsLegal(gaps: seq<seq<Op>>) {
    forall i :: 0 <= i < |gaps| ==> AllLegal(gaps[i])
  }

  function Head(gaps: seq<seq<Op>>): seq<Op> {
    if gaps == [] then [] else gaps[0]
  }

  function Tail(gaps: seq<seq<Op>>): seq<seq<Op>> {
    if gaps == [] then [] else gaps[1..]
  }

  /** The loop on thread `t`, with `gaps[i]` taking place while the `i`-th kernel call
      runs: what that call itself does, and all other CPUs. */
  ghost function Visits(a: Apcs, t: nat, ctx: Context, gaps: seq<seq<Op>>): (v: Visit)
    requires Valid(a) && t < MAX_THREADS && GapsLegal(gaps)
    ensures AllLegal(v.ops) && |v.user| <= 1
    decreases |gaps|, |a.tds[t].queue|
  {
    hide Pop, Legal, Valid, After;
    var take := [OpTake(t, ctx)];
    var (a1, got) := Pop(a, t, ctx);
    assert AllLegal(take) by { AfterOne(a, OpTake(t, ctx)); }
    if got == [] || got[0].kind != KERNEL then Visit(take, [], got)
    else
      assert AllLegal(Head(gaps)) && GapsLegal(Tail(gaps));
      assert gaps == [] ==> After(a1, Head(gaps)) == a1 by { AfterNone(a1); }
      var v := Visits(After(a1, Head(gaps)), t, ctx, Tail(gaps));
      Visit(take + Head(gaps) + v.ops, got + v.ran, v.user)
  }

  /** One turn of the loop. */
  lemma VisitStep(a: Apcs, t: nat, ctx: Context, gaps: seq<seq<Op>>)
    requires Valid(a) && t < MAX_THREADS && GapsLegal(gaps)
    ensures var (a1, got) := Pop(a, t, ctx);
      && AllLegal(Head(gaps)) && GapsLegal(Tail(gaps))
      && Visits(a, t, ctx, gaps) ==
        if got == [] || got[0].kind != KERNEL then Visit([OpTake(t, ctx)], [], got)
        else
          var v := Visits(After(a1, Head(gaps)), t, ctx, Tail(gaps));
          Visit([OpTake(t, ctx)] + Head(gaps) + v.ops, got + v.ran, v.user)
  {
    hide Pop, Legal, Valid, After;
  }

  lemma AfterNone(a: Apcs)
    requires Valid(a)
    ensures AllLegal([]) && After(a, []) == a
  {
  }

  /** A whole delivery. */
  ghost function DeliverWith(a: Apcs, t: nat, used: bool, regs: Regs, ctx: Context, gaps: seq<seq<Op>>): (d: Delivery)
    requires Valid(a) && t < MAX_THREADS && GapsLegal(gaps)
    ensures Valid(d.apcs)
  {
    hide Visits, Finish, CanEnterUser, Pending, Legal;
    if !used || a.tds[t].queue == [] then Delivery(a, regs, [], 0)
    else
      var v := Visits(a, t, ctx, gaps);
      var end := After(a, v.ops);
      if v.user == [] then Delivery(end, regs, v.ran, |v.ran|)
      else
        var (end', regs') := Finish(end, t, regs, v.user[0]);
        Delivery(end', regs', v.ran, |v.ran| + if CanEnterUser(regs) then 1 else 0)
  }

  /** A delivery is a run of operations like any other. */
  lemma DeliveryIsRun(a: Apcs, t: nat, used: bool, regs: Regs, ctx: Context, gaps: seq<seq<Op>>) returns (ops: seq<Op>)
    requires Valid(a) && t < MAX_THREADS && GapsLegal(gaps)
    ensures AllLegal(ops) && DeliverWith(a, t, used, regs, ctx, gaps).apcs == After(a, ops)
  {
    hide Visits, Finish, CanEnterUser, Pending, After;
    if !used || a.tds[t].queue == [] {
      ops := [];
      AfterNone(a);
    } else {
      var v := Visits(a, t, ctx, gaps);
      ops := v.ops;
      if v.user != [] {
        var finish := OpFinish(t, regs, v.user[0]);
        AfterOne(After(a, v.ops), finish);
        AfterConcat(a, v.ops, [finish]);
        ops := v.ops + [finish];
      }
    }
  }

  // ---- a delivery that nothing interrupts ----

  /** The state once a quiet loop has worked through the thread's queue. */
  function Drained(a: Apcs, t: nat, r: Round): Apcs
    requires t < |a.tds|
  {
    var td := a.tds[t];
    SetTd(a, t, td.(queue := r.rest, inUser := td.inUser || r.user != []))
      .(delivered := a.delivered + |r.ran| + |r.user|)
  }

  lemma PopEffect(a: Apcs, t: nat, ctx: Context)
    requires Valid(a) && t < MAX_THREADS
    ensures var q, inUser := a.tds[t].queue, a.tds[t].inUser;
      var r := Deliveries(q, ctx, inUser);
      var (a1, got) := Pop(a, t, ctx);
      if got == [] then a1 == a && r == Round([], [], q)
      else if got[0].kind != KERNEL then a1 == Drained(a, t, r) && r.ran == [] && r.user == got
      else
        && a1.tds[t].inUser == inUser && a1 == SetTd(a, t, a1.tds[t]).(delivered := a.delivered + 1)
        && a1.tds[t] == a.tds[t].(queue := a1.tds[t].queue)
        && var r1 := Deliveries(a1.tds[t].queue, ctx, inUser); r == r1.(ran := got + r1.ran)
  {
    hide Pending, FirstDeliverable, Deliverable, Deliveries, RemoveAt;
    var q, inUser := a.tds[t].queue, a.tds[t].inUser;
    var i := FirstDeliverable(q, ctx, inUser);
    assert a.tds[t := a.tds[t]] == a.tds;
    if i == |q| {
      PopNone(q, ctx, inUser);
    } else if q[i].kind == KERNEL {
      PopKernel(q, ctx, inUser);
    } else {
      PopUser(q, ctx, inUser);
    }
  }

  lemma {:induction false} QuietVisits(a: Apcs, t: nat, ctx: Context)
    requires Valid(a) && t < MAX_THREADS
    ensures var r := Deliveries(a.tds[t].queue, ctx, a.tds[t].inUser);
      var v := Visits(a, t, ctx, []);
      v.ran == r.ran && v.user == r.user && After(a, v.ops) == Drained(a, t, r)
    decreases |a.tds[t].queue|
  {
    hide Pending, Pop, Deliveries, After;
    var r := Deliveries(a.tds[t].queue, ctx, a.tds[t].inUser);
    PopEffect(a, t, ctx);
    var (a1, got) := Pop(a, t, ctx);
    AfterOne(a, OpTake(t, ctx));
    AfterNone(a1);
    if got != [] && got[0].kind == KERNEL {
      QuietVisits(a1, t, ctx);
      var v1 := Visits(a1, t, ctx, []);
      AfterConcat(a, [OpTake(t, ctx)], v1.ops);
      assert [OpTake(t, ctx)] + [] + v1.ops == [OpTake(t, ctx)] + v1.ops;
      DrainMore(a, a1, t, got, Deliveries(a1.tds[t].queue, ctx, a1.tds[t].inUser));
    } else if got == [] {
      assert a.tds[t := a.tds[t]] == a.tds;
    }
  }

  lemma DrainMore(a: Apcs, a1: Apcs, t: nat, got: seq<Item>, r1: Round)
    requires t < |a.tds| == |a1.tds| && |got| == 1
    requires a1.tds[t] == a.tds[t].(queue := a1.tds[t].queue)
    requires a1 == SetTd(a, t, a1.tds[t]).(delivered := a.delivered + 1)
    ensures Drained(a1, t, r1) == Drained(a, t, r1.(ran := got + r1.ran))
  {
    var td := a1.tds[t].(queue := r1.rest, inUser := a1.tds[t].inUser || r1.user != []);
    assert a.tds[t := a1.tds[t]][t := td] == a.tds[t := td];
  }

  /** With nothing in its gaps a delivery runs the deliverable kernel calls in queue order
      and then enters at most one user call. */
  lemma QuietDelivery(a: Apcs, t: nat, used: bool, regs: Regs, ctx: Context)
    requires Valid(a) && t < MAX_THREADS
    ensures GapsLegal([]) && DeliverWith(a, t, used, regs, ctx, []) == Deliver(a, t, used, regs, ctx)
  {
    hide Visits, Pending, Deliveries, CanEnterUser, HandlerFrame, After;
    QuietVisits(a, t, ctx);
    var td := a.tds[t];
    var r := Deliveries(td.queue, ctx, td.inUser);
    var end := Drained(a, t, r);
    if r.user != [] {
      assert end.tds[t := end.tds[t].(saved := regs)] == a.tds[t := td.(queue := r.rest, inUser := true, saved := regs)];
      assert end.tds[t := end.tds[t].(inUser := false)] == a.tds[t := td.(queue := r.rest)];
      assert a.tds[t := td.(queue := r.rest)][t := td.(queue := r.rest, inUser := true, saved := regs)]
          == a.tds[t := td.(queue := r.rest, inUser := true, saved := regs)];
    }
  }

  // ---- the saved frame ----

  /** Thread `t` has taken a user call and not yet entered or refused it. */
  ghost predicate HandNext(a: Apcs, op: Op, t: nat, hand: bool)
    requires Valid(a) && Legal(op)
  {
    if op.t != t then hand
    else if op.OpTake? then var got := Pop(a, t, op.ctx).1; got != [] && got[0].kind != KERNEL
    else if op.OpFinish? then false
    else hand
  }

  /** Thread `t` does its own steps in the order of the code: a delivery that took a user
      call finishes before `t` takes another call or returns from one. */
  ghost predicate InOrder(a: Apcs, ops: seq<Op>, t: nat, hand: bool)
    requires Valid(a) && AllLegal(ops)
    decreases |ops|
  {
    ops == [] ||
    (&& (ops[0].t == t && (ops[0].OpTake? || ops[0].OpReturn?) ==> !hand)
     && (ops[0].t == t && ops[0].OpFinish? ==> hand)
     && InOrder(Apply(a, ops[0]), ops[1..], t, HandNext(a, ops[0], t, hand)))
  }

  predicate Disturbs(op: Op, t: nat) {
    op.t == t && (op.OpReturn? || op.OpFlush?)
  }

  lemma StepKeepsFrame(a: Apcs, op: Op, t: nat)
    requires Valid(a) && Legal(op) && t < MAX_THREADS && a.tds[t].inUser
    requires !Disturbs(op, t) && !(op.t == t && op.OpFinish?)
    ensures Apply(a, op).tds[t].inUser && Apply(a, op).tds[t].saved == a.tds[t].saved
    ensures !HandNext(a, op, t, false)
  {
    hide FirstDeliverable;
  }

  /** While a user call runs no operation on any CPU overwrites the saved frame. */
  lemma {:induction false} FrameKept(a: Apcs, ops: seq<Op>, t: nat)
    requires Valid(a) && AllLegal(ops) && t < MAX_THREADS && a.tds[t].inUser && InOrder(a, ops, t, false)
    requires forall i :: 0 <= i < |ops| ==> !Disturbs(ops[i], t)
    ensures After(a, ops).tds[t].inUser && After(a, ops).tds[t].saved == a.tds[t].saved
    decreases |ops|
  {
    hide Apply, Valid, HandNext;
    if ops != [] {
      StepKeepsFrame(a, ops[0], t);
      FrameKept(Apply(a, ops[0]), ops[1..], t);
    }
  }

  /** `t` itself does nothing and is not flushed. */
  ghost predicate Away(ops: seq<Op>, t: nat) {
    forall i :: 0 <= i < |ops| ==> !Disturbs(ops[i], t) && !(ops[i].t == t && (ops[i].OpTake? || ops[i].OpFinish?))
  }

  lemma {:induction false} InUserKept(a: Apcs, ops: seq<Op>, t: nat)
    requires Valid(a) && AllLegal(ops) && t < MAX_THREADS && a.tds[t].inUser && Away(ops, t)
    ensures After(a, ops).tds[t].inUser
    decreases |ops|
  {
    hide Apply, Valid, HandNext, Disturbs;
    if ops != [] {
      StepKeepsFrame(a, ops[0], t);
      InUserKept(Apply(a, ops[0]), ops[1..], t);
    }
  }

  /** `t` took a user call and, after `mid`, entered its handler over `regs`. */
  ghost function InHandler(a: Apcs, t: nat, ctx: Context, mid: seq<Op>, regs: Regs): (r: Apcs)
    requires Valid(a) && t < MAX_THREADS && AllLegal(mid)
    requires var got := Pop(a, t, ctx).1; got != [] && got[0].kind != KERNEL
    ensures Valid(r)
  {
    hide Pop, Finish, Valid;
    Finish(After(Pop(a, t, ctx).0, mid), t, regs, Pop(a, t, ctx).1[0]).0
  }

  /** Whatever is queued, delivered or flushed elsewhere while a user handler runs, its
      return restores every register of the interrupted frame, exactly when that frame's
      instruction and stack pointers are user addresses; otherwise it is refused. */
  lemma {:induction false} InterruptedFrameRestored(a: Apcs, t: nat, ctx: Context, mid: seq<Op>, regs: Regs, ops: seq<Op>, now: Regs)
    requires Valid(a) && t < MAX_THREADS && AllLegal(mid) && Away(mid, t) && CanEnterUser(regs)
    requires var got := Pop(a, t, ctx).1; got != [] && got[0].kind != KERNEL
    requires AllLegal(ops) && InOrder(InHandler(a, t, ctx, mid, regs), ops, t, false)
    requires forall i :: 0 <= i < |ops| ==> !Disturbs(ops[i], t)
    ensures var r := Return(After(InHandler(a, t, ctx, mid, regs), ops), t, now);
      if IsUserAddress(regs.rip, 1) && IsUserAddress(regs.rsp, 1) then r.1 == regs && r.2 == Done
      else r.1 == now && r.2 == BadAddr
  {
    hide After, IsUserAddress, CanEnterUser, HandlerFrame, Pending, FirstDeliverable, InOrder;
    var a1 := Pop(a, t, ctx).0;
    InUserKept(a1, mid, t);
    FrameKept(InHandler(a, t, ctx, mid, regs), ops, t);
  }

  /** At most one user call is outstanding: none is taken while one runs. */
  lemma NoSecondUserCall(a: Apcs, t: nat, ctx: Context)
    requires Valid(a) && t < MAX_THREADS && a.tds[t].inUser
    ensures var (a1, got) := Pop(a, t, ctx);
      && (got == [] || got[0].kind == KERNEL)
      && a1.tds[t].inUser && a1.tds[t].saved == a.tds[t].saved
  {
    hide FirstDeliverable;
  }

  // ---- order ----

  /** The calls of one kind, in queue order. */
  function Of(kind: int, q: seq<Item>): seq<Item> {
    if q == [] then [] else (if q[0].kind == kind then [q[0]] else []) + Of(kind, q[1..])
  }

  lemma {:induction false} OfConcat(kind: int, p: seq<Item>, q: seq<Item>)
    ensures Of(kind, p + q) == Of(kind, p) + Of(kind, q)
    decreases |p|
  {
    if p == [] {
      assert p + q == q;
    } else {
      assert (p + q)[1..] == p[1..] + q;
      OfConcat(kind, p[1..], q);
    }
  }

  lemma {:induction false} OfNone(kind: int, q: seq<Item>)
    requires forall i :: 0 <= i < |q| ==> q[i].kind != kind
    ensures Of(kind, q) == []
    decreases |q|
  {
    if q != [] {
      OfNone(kind, q[1..]);
    }
  }

  function One(kind: int, item: Item): seq<Item> {
    if item.kind == kind then [item] else []
  }

  lemma OfHead(kind: int, head: Item, rest: seq<Item>)
    ensures Of(kind, [head] + rest) == One(kind, head) + Of(kind, rest)
  {
    assert ([head] + rest)[1..] == rest;
  }

  lemma OfEmpty(kind: int)
    ensures Of(kind, []) == []
  {
  }

  /** The calls of `kind` that an operation queues for thread `t`. */
  function Sent(a: Apcs, op: Op, t: nat, kind: int): seq<Item>
    requires Valid(a) && Legal(op)
  {
    match op
    case OpQueueKernel(u, used, terminated, item) =>
      if u == t && item.kind == kind && QueueKernel(a, u, used, terminated, item).1 == Done then [item] else []
    case OpQueueUser(u, used, terminated, item) =>
      if u == t && item.kind == kind && QueueUser(a, u, used, terminated, item).1 == Done then [item] else []
    case _ => []
  }

  /** The calls of `kind` that an operation takes off the queue of thread `t` to deliver. */
  function Taken(a: Apcs, op: Op, t: nat, kind: int): seq<Item>
    requires Valid(a) && Legal(op) && t < MAX_THREADS
  {
    match op
    case OpTake(u, ctx) => if u == t then Of(kind, Pop(a, t, ctx).1) else []
    case _ => []
  }

  ghost function AllSent(a: Apcs, ops: seq<Op>, t: nat, kind: int): seq<Item>
    requires Valid(a) && AllLegal(ops)
    decreases |ops|
  {
    if ops == [] then [] else Sent(a, ops[0], t, kind) + AllSent(Apply(a, ops[0]), ops[1..], t, kind)
  }

  ghost function AllTaken(a: Apcs, ops: seq<Op>, t: nat, kind: int): seq<Item>
    requires Valid(a) && AllLegal(ops) && t < MAX_THREADS
    decreases |ops|
  {
    if ops == [] then [] else Taken(a, ops[0], t, kind) + AllTaken(Apply(a, ops[0]), ops[1..], t, kind)
  }

  lemma StepKeepsOrder(a: Apcs, op: Op, t: nat, kind: int)
    requires Valid(a) && Legal(op) && t < MAX_THREADS && op != OpFlush(t)
    ensures Of(kind, a.tds[t].queue) + Sent(a, op, t, kind)
         == Taken(a, op, t, kind) + Of(kind, Apply(a, op).tds[t].queue)
  {
    if op.t == t && op.OpTake? {
      TakeKeepsOrder(a, t, op.ctx, kind);
    } else if op.t == t && (op.OpQueueKernel? || op.OpQueueUser?) {
      QueueKeepsOrder(a, op, t, kind);
    }
    hide Of, Popped;
  }

  /** A pop takes the first call of its kind: deliverability depends on the kind alone. */
  lemma TakeKeepsOrder(a: Apcs, t: nat, ctx: Context, kind: int)
    requires Valid(a) && t < MAX_THREADS
    ensures var (a1, got) := Pop(a, t, ctx);
      Of(kind, a.tds[t].queue) == Of(kind, got) + Of(kind, a1.tds[t].queue)
  {
    hide Deliverable, FirstDeliverable, Pending, Of;
    OfEmpty(kind);
    var q := a.tds[t].queue;
    var i := FirstDeliverable(q, ctx, a.tds[t].inUser);
    if i < |q| {
      var before, item, after := q[..i], q[i], q[i + 1..];
      assert q == before + ([item] + after);
      OfConcat(kind, before, [item] + after);
      OfHead(kind, item, after);
      OfHead(kind, item, []);
      assert [item] + [] == [item];
      OfConcat(kind, before, after);
      if item.kind == kind {
        OfNone(kind, before);
      }
      hide One;
    }
  }

  lemma QueueKeepsOrder(a: Apcs, op: Op, t: nat, kind: int)
    requires Valid(a) && Legal(op) && (op.OpQueueKernel? || op.OpQueueUser?) && op.t == t < MAX_THREADS
    ensures Of(kind, a.tds[t].queue) + Sent(a, op, t, kind) == Of(kind, Apply(a, op).tds[t].queue)
  {
    OfConcat(kind, a.tds[t].queue, [op.item]);
    OfHead(kind, op.item, []);
    assert [op.item] + [] == [op.item] && Of(kind, []) == [];
    hide Of;
  }

  /** First in, first out within each kind, over every run that does not flush the
      thread: what was queued is what was taken followed by what is still queued. */
  lemma {:induction false} FifoPerKind(a: Apcs, ops: seq<Op>, t: nat, kind: int)
    requires Valid(a) && AllLegal(ops) && t < MAX_THREADS
    requires forall i :: 0 <= i < |ops| ==> ops[i] != OpFlush(t)
    ensures Of(kind, a.tds[t].queue) + AllSent(a, ops, t, kind)
         == AllTaken(a, ops, t, kind) + Of(kind, After(a, ops).tds[t].queue)
    decreases |ops|
  {
    hide Apply, Sent, Taken, Of;
    if ops != [] {
      var a' := Apply(a, ops[0]);
      StepKeepsOrder(a, ops[0], t, kind);
      FifoPerKind(a', ops[1..], t, kind);
      var q0, s0, t0 := Of(kind, a.tds[t].queue), Sent(a, ops[0], t, kind), Taken(a, ops[0], t, kind);
      var s1, t1 := AllSent(a', ops[1..], t, kind), AllTaken(a', ops[1..], t, kind);
      var q1, q2 := Of(kind, a'.tds[t].queue), Of(kind, After(a, ops).tds[t].queue);
      calc {
        q0 + (s0 + s1);
        (q0 + s0) + s1;
        t0 + (q1 + s1);
        (t0 + t1) + q2;
      }
    }
  }
}
