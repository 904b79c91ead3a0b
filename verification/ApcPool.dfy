/** The APC subsystem's code over its static slot pool, proved to carry out the
    operations of module ApcModel. What happens to the pool while a delivery has dropped
    its lock to call a kernel routine is a parameter. */
module ApcPool {
  import opened ApcModel
  import opened ApcLists
  import opened ApcRuns

  const NO_ITEM := Item(0, 0, 0, 0, 0)

  function Lookup(items: seq<Item>, s: int): Item {
    if 0 <= s < |items| then items[s] else NO_ITEM
  }

  /** The calls in the slots of a list. */
  function ItemsOf(q: seq<int>, items: seq<Item>): (r: seq<Item>)
    ensures |r| == |q|
  {
    seq(|q|, i requires 0 <= i < |q| => Lookup(items, q[i]))
  }

  /** What the queues and the per-thread fields amount to. */
  ghost function TdsOf(queues: seq<seq<int>>, items: seq<Item>, alertable: seq<nat>, inUser: seq<bool>, saved: seq<Regs>)
    : (r: seq<Td>)
    requires |queues| == |alertable| == |inUser| == |saved| == MAX_THREADS
    ensures |r| == MAX_THREADS
  {
    seq(MAX_THREADS, t requires 0 <= t < MAX_THREADS =>
      Td(ItemsOf(queues[t], items), alertable[t], inUser[t], saved[t]))
  }

  lemma ItemsOfFrame(q: seq<int>, items: seq<Item>, s: int, item: Item)
    requires 0 <= s < |items| && s !in q
    ensures ItemsOf(q, items[s := item]) == ItemsOf(q, items)
  {
  }

  lemma ItemsOfSnoc(q: seq<int>, items: seq<Item>, s: int)
    requires 0 <= s < |items|
    ensures ItemsOf(q + [s], items) == ItemsOf(q, items) + [items[s]]
  {
  }

  lemma ItemsOfRemove(q: seq<int>, items: seq<Item>, i: nat)
    requires i < |q|
    ensures ItemsOf(RemoveAt(q, i), items) == RemoveAt(ItemsOf(q, items), i)
  {
  }

  lemma TdsQueue(queues: seq<seq<int>>, items: seq<Item>, alertable: seq<nat>, inUser: seq<bool>, saved: seq<Regs>,
                 t: nat, q: seq<int>)
    requires |queues| == |alertable| == |inUser| == |saved| == MAX_THREADS && t < MAX_THREADS
    ensures var tds := TdsOf(queues, items, alertable, inUser, saved);
      TdsOf(queues[t := q], items, alertable, inUser, saved) == tds[t := tds[t].(queue := ItemsOf(q, items))]
  {
  }

  lemma TdsQueueAt(queues: seq<seq<int>>, items: seq<Item>, alertable: seq<nat>, inUser: seq<bool>, saved: seq<Regs>,
                   t: nat)
    requires |queues| == |alertable| == |inUser| == |saved| == MAX_THREADS && t < MAX_THREADS
    ensures TdsOf(queues, items, alertable, inUser, saved)[t] == Td(ItemsOf(queues[t], items), alertable[t], inUser[t], saved[t])
  {
  }

  function Longer(td: Td, item: Item): Td {
    td.(queue := td.queue + [item])
  }

  function Shorter(td: Td, i: nat): Td
    requires i < |td.queue|
  {
    td.(queue := RemoveAt(td.queue, i))
  }

  /** One call less on a queue. */
  lemma TdsShorter(queues: seq<seq<int>>, items: seq<Item>, alertable: seq<nat>, inUser: seq<bool>, saved: seq<Regs>,
                   t: nat, i: nat)
    requires |queues| == |alertable| == |inUser| == |saved| == MAX_THREADS && t < MAX_THREADS && i < |queues[t]|
    ensures var tds := TdsOf(queues, items, alertable, inUser, saved);
      var tds' := TdsOf(queues[t := RemoveAt(queues[t], i)], items, alertable, inUser, saved);
      && i < |tds[t].queue| && tds[t].queue[i] == Lookup(items, queues[t][i]) && tds' == tds[t := Shorter(tds[t], i)]
      && Pending(tds', MAX_THREADS) == Pending(tds, MAX_THREADS) - 1
  {
    hide TdsOf, Pending;
    TdsQueueAt(queues, items, alertable, inUser, saved, t);
    TdsQueue(queues, items, alertable, inUser, saved, t, RemoveAt(queues[t], i));
    ItemsOfRemove(queues[t], items, i);
    var tds := TdsOf(queues, items, alertable, inUser, saved);
    PendingUpdate(tds, t, Shorter(tds[t], i), MAX_THREADS);
  }

  /** One call more on a queue. */
  lemma TdsLonger(queues: seq<seq<int>>, items: seq<Item>, alertable: seq<nat>, inUser: seq<bool>, saved: seq<Regs>,
                  t: nat, s: int)
    requires |queues| == |alertable| == |inUser| == |saved| == MAX_THREADS && t < MAX_THREADS && 0 <= s < |items|
    ensures var tds := TdsOf(queues, items, alertable, inUser, saved);
      var tds' := TdsOf(queues[t := queues[t] + [s]], items, alertable, inUser, saved);
      && tds' == tds[t := Longer(tds[t], items[s])]
      && Pending(tds', MAX_THREADS) == Pending(tds, MAX_THREADS) + 1
  {
    hide TdsOf, Pending;
    TdsQueueAt(queues, items, alertable, inUser, saved, t);
    TdsQueue(queues, items, alertable, inUser, saved, t, queues[t] + [s]);
    ItemsOfSnoc(queues[t], items, s);
    var tds := TdsOf(queues, items, alertable, inUser, saved);
    PendingUpdate(tds, t, Longer(tds[t], items[s]), MAX_THREADS);
  }

  /** Rewriting a slot that is on no queue changes no thread. */
  lemma TdsItem(queues: seq<seq<int>>, items: seq<Item>, alertable: seq<nat>, inUser: seq<bool>, saved: seq<Regs>,
                s: int, item: Item)
    requires |queues| == |alertable| == |inUser| == |saved| == MAX_THREADS && 0 <= s < |items|
    requires forall t :: 0 <= t < MAX_THREADS ==> s !in queues[t]
    ensures TdsOf(queues, items[s := item], alertable, inUser, saved) == TdsOf(queues, items, alertable, inUser, saved)
  {
    forall t | 0 <= t < MAX_THREADS ensures ItemsOf(queues[t], items[s := item]) == ItemsOf(queues[t], items) {
      ItemsOfFrame(queues[t], items, s, item);
    }
    hide ItemsOf;
  }

  class Pool {
    var used: seq<bool>
    var items: seq<Item>
    var next: seq<int>
    var freeHead: int
    var queued: nat
    var delivered: nat
    var dropped: nat

    var heads: seq<int>
    var counts: seq<int>
    var alertable: seq<nat>
    var inUser: seq<bool>
    var saved: seq<Regs>

    ghost var free: seq<int>
    ghost var queues: seq<seq<int>>
    ghost var place: seq<int>
    ghost var flushed: nat

    ghost function Lists(): Layout
      reads this
    {
      Layout(next, freeHead, heads, free, queues, place)
    }

    ghost predicate Shape()
      reads this
    {
      && |used| == |items| == POOL
      && |queues| == |counts| == |alertable| == |inUser| == |saved| == MAX_THREADS
    }

    ghost function View(): (a: Apcs)
      requires Shape()
      reads this
      ensures |a.tds| == MAX_THREADS
    {
      Apcs(TdsOf(queues, items, alertable, inUser, saved), queued, delivered, dropped, flushed)
    }

    /** The lists are in order, with `hand` in transit, and the bookkeeping agrees. */
    ghost predicate Base(hand: int)
      reads this
      ensures Base(hand) ==> Shape()
    {
      && Shape()
      && Good(Lists(), hand) && (hand == -1 || IsSlot(hand))
      && (forall t :: 0 <= t < MAX_THREADS ==> counts[t] == |queues[t]| <= MAX_PER_THREAD)
      && (forall s :: IsSlot(s) ==> (used[s] <==> place[s] != FREE))
      && |free| + Pending(View().tds, MAX_THREADS) + (if hand == -1 then 0 else 1) == POOL
    }

    ghost predicate Valid()
      reads this
      ensures Valid() ==> Shape()
    {
      Base(-1) && ApcModel.Valid(View())
    }

    /** Takes the first free slot. */
    method Alloc() returns (slot: int)
      requires Base(-1)
      modifies this
      ensures Shape() && View() == old(View())
      ensures slot == NONE <==> old(free) == []
      ensures slot == NONE ==> Base(-1)
      ensures slot != NONE ==> IsSlot(slot) && Base(slot)
    {
      hide Good, Pending, TdsOf, Linked, ItemsOf;
      FreeFacts(Lists(), -1);
      if freeHead == NONE {
        return NONE;
      }
      slot := freeHead;
      TakeFreeGood(Lists());
      freeHead := next[slot];
      next := next[slot := NONE];
      used := used[slot := true];
      free, place := free[1..], place[slot := HAND];
    }

    /** Writes the slot in transit. */
    method Fill(slot: int, item: Item)
      requires Base(slot) && IsSlot(slot)
      modifies this`items
      ensures Base(slot) && View() == old(View()) && items == old(items)[slot := item]
    {
      hide Good, Pending, TdsOf, Linked, ItemsOf;
      HandFacts(Lists(), slot);
      TdsItem(queues, items, alertable, inUser, saved, slot, item);
      items := items[slot := item];
    }

    /** Puts the slot in transit back on the free list, wiped. */
    method Release(slot: int)
      requires Base(slot) && IsSlot(slot)
      modifies this
      ensures Base(-1) && View() == old(View())
    {
      hide Good, Pending, TdsOf, Linked, ItemsOf;
      HandFacts(Lists(), slot);
      if slot >= POOL || !used[slot] {
        return;
      }
      Fill(slot, NO_ITEM);
      GiveFreeGood(Lists(), slot);
      used := used[slot := false];
      next := next[slot := freeHead];
      freeHead := slot;
      free, place := [slot] + free, place[slot := FREE];
    }

    /** Hangs the slot in transit on the end of a thread's queue, if it has room. */
    method AppendSlot(t: nat, slot: int) returns (ok: bool)
      requires Base(slot) && IsSlot(slot) && t < MAX_THREADS
      modifies this
      ensures ok <==> old(|queues[t]|) < MAX_PER_THREAD
      ensures !ok ==> Base(slot) && View() == old(View())
      ensures ok ==> Base(-1)
      ensures ok ==> View() == old(SetTd(View(), t, Longer(View().tds[t], items[slot])))
    {
      hide Good, Pending, TdsOf, ItemsOf, Linked;
      if counts[t] >= MAX_PER_THREAD {
        return false;
      }
      HandFacts(Lists(), slot);
      AppendGood(Lists(), t, slot);
      TdsLonger(queues, items, alertable, inUser, saved, t, slot);
      LinkAtEnd(t, slot);
      counts := counts[t := counts[t] + 1];
      return true;
    }

    method LinkAtEnd(t: nat, slot: int)
      requires Good(Lists(), slot) && IsSlot(slot) && t < MAX_THREADS
      modifies this`next, this`heads, this`queues, this`place
      ensures Lists() == old(Append(Lists(), t, slot))
    {
      hide Good, Linked;
      HandFacts(Lists(), slot);
      QueueFacts(Lists(), slot, t);
      ghost var q := queues[t];
      LinkedFrame(next, slot, NONE, HeadSlot(heads[t]), q);
      next := next[slot := NONE];
      if heads[t] < 0 {
        heads := heads[t := slot];
      } else {
        var last := FindLast(t, q);
        next := next[last := slot];
      }
      queues, place := queues[t := q + [slot]], place[slot := t];
    }

    /** Walks the links of a queue to its last slot. */
    method FindLast(t: nat, ghost q: seq<int>) returns (cur: int)
      requires |heads| == MAX_THREADS && t < MAX_THREADS && 0 <= heads[t] < POOL
      requires Linked(next, heads[t], q)
      ensures q != [] && cur == q[|q| - 1]
    {
      cur := heads[t];
      ghost var k := 0;
      while next[cur] != NONE
        invariant 0 <= k < |q| && cur == q[k]
        decreases |q| - k
      {
        cur := next[cur];
        k := k + 1;
      }
    }

    /** Walks a queue to its first deliverable call; `prev` trails one slot behind. */
    method Search(t: nat, ctx: Context, ghost q: seq<int>) returns (prev: int, cur: int, ghost i: nat)
      requires Shape() && |heads| == MAX_THREADS && t < MAX_THREADS
      requires Linked(next, HeadSlot(heads[t]), q)
      ensures i == FirstDeliverable(ItemsOf(q, items), ctx, inUser[t]) <= |q|
      ensures cur == At(q, i) && prev == if i == 0 then NONE else q[i - 1]
    {
      hide Deliverable, FirstDeliverable;
      ghost var calls := ItemsOf(q, items);
      i := 0;
      prev := NONE;
      cur := HeadSlot(heads[t]);
      while cur != NONE
        invariant i <= |q| && cur == At(q, i) && prev == if i == 0 then NONE else q[i - 1]
        invariant forall k :: 0 <= k < i ==> !Deliverable(calls[k].kind, ctx, inUser[t])
        decreases |q| - i
      {
        assert calls[i] == items[cur];
        if Deliverable(items[cur].kind, ctx, inUser[t]) {
          FirstIs(calls, ctx, inUser[t], i);
          return;
        }
        prev := cur;
        cur := next[cur];
        i := i + 1;
      }
      FirstIs(calls, ctx, inUser[t], i);
    }

    /** Cuts element `i` out of a queue. */
    method Unlink(t: nat, prev: int, cur: int, ghost i: nat)
      requires Good(Lists(), -1) && t < MAX_THREADS && i < |queues[t]|
      requires cur == queues[t][i] && prev == if i == 0 then NONE else queues[t][i - 1]
      modifies this`next, this`heads, this`queues, this`place
      ensures Lists() == old(Remove(Lists(), t, i))
    {
      hide Good, Linked, RemoveAt;
      QueueFacts(Lists(), -1, t);
      LinkedAt(next, HeadSlot(heads[t]), queues[t], i);
      ghost var q := queues[t];
      var after := next[cur];
      if prev == NONE {
        heads := heads[t := if after == NONE then -1 else after];
      } else {
        next := next[prev := after];
      }
      queues, place := queues[t := RemoveAt(q, i)], place[cur := HAND];
    }

    /** Unlinks the first deliverable call of a thread. */
    method PopSlot(t: nat, ctx: Context) returns (slot: int)
      requires Base(-1) && t < MAX_THREADS
      modifies this
      ensures Shape() && items == old(items) && inUser == old(inUser)
      ensures var i := FirstDeliverable(old(View()).tds[t].queue, ctx, old(inUser[t]));
        if i == |old(View()).tds[t].queue| then slot == NONE && Base(-1) && View() == old(View())
        else
          && IsSlot(slot) && Base(slot) && items[slot] == old(View()).tds[t].queue[i]
          && View() == SetTd(old(View()), t, Shorter(old(View()).tds[t], i))
    {
      hide Good, Pending, TdsOf, Linked, FirstDeliverable, RemoveAt;
      QueueFacts(Lists(), -1, t);
      TdsQueueAt(queues, items, alertable, inUser, saved, t);
      var prev, cur;
      ghost var i;
      prev, cur, i := Search(t, ctx, queues[t]);
      slot := cur;
      if cur == NONE {
        return;
      }
      Detach(t, prev, cur, i);
    }

    /** Takes call `i` off a queue; its slot is then in transit. */
    method Detach(t: nat, prev: int, cur: int, ghost i: nat)
      requires Base(-1) && t < MAX_THREADS && i < |queues[t]|
      requires cur == queues[t][i] && prev == if i == 0 then NONE else queues[t][i - 1]
      modifies this
      ensures Shape() && IsSlot(cur) && Base(cur) && items == old(items) && inUser == old(inUser)
      ensures var td := old(View()).tds[t];
        && i < |td.queue| && items[cur] == td.queue[i]
        && View() == SetTd(old(View()), t, Shorter(td, i))
    {
      hide Good, Pending, TdsOf, Linked, RemoveAt, ItemsOf;
      QueueFacts(Lists(), -1, t);
      RemoveGood(Lists(), t, i);
      TdsShorter(queues, items, alertable, inUser, saved, t, i);
      Unlink(t, prev, cur, i);
      counts := counts[t := if counts[t] - 1 < 0 then 0 else counts[t] - 1];
    }

    /** Takes a free slot and fills it. */
    method Claim(item: Item) returns (slot: int)
      requires Base(-1)
      modifies this
      ensures Shape() && View() == old(View())
      ensures slot == NONE <==> old(free) == []
      ensures slot == NONE ==> Base(-1)
      ensures slot != NONE ==> IsSlot(slot) && Base(slot) && items[slot] == item
    {
      hide Good, TdsOf, Linked, Pending;
      slot := Alloc();
      if slot != NONE {
        Fill(slot, item);
      }
    }

    /** Claims a slot, fills it and queues it; a full pool or a full queue drops the call. */
    method EnqueueCall(t: nat, item: Item) returns (status: Status)
      requires Valid() && t < MAX_THREADS
      modifies this
      ensures Valid() && (View(), status) == old(Enqueue(View(), t, item))
    {
      hide Good, TdsOf, Linked, Pending, ItemsOf, ApcModel.Valid;
      ghost var r := Enqueue(View(), t, item);
      var slot := Claim(item);
      if slot == NONE {
        dropped := dropped + 1;
        return Retry;
      }
      TdsQueueAt(queues, items, alertable, inUser, saved, t);
      var ok := AppendSlot(t, slot);
      if !ok {
        Release(slot);
        dropped := dropped + 1;
        return Retry;
      }
      queued := queued + 1;
      return Status.Done;
    }

    method QueueKernelCall(t: nat, live: bool, terminated: bool, item: Item) returns (status: Status)
      requires Valid() && t < MAX_THREADS && item.kind == KERNEL
      modifies this
      ensures Valid() && (View(), status) == old(QueueKernel(View(), t, live, terminated, item))
    {
      hide Good, TdsOf, Enqueue;
      if !live || item.handler == 0 {
        return BadValue;
      }
      if terminated {
        return NoProc;
      }
      status := EnqueueCall(t, item);
    }

    method QueueUserCall(t: nat, live: bool, terminated: bool, special: bool, handler: u64, arg1: u64, arg2: u64, arg3: u64)
      returns (status: Status)
      requires Valid() && t < MAX_THREADS
      modifies this
      ensures Valid()
      ensures var item := Item(if special then USER_SPECIAL else USER_NORMAL, handler, arg1, arg2, arg3);
        (View(), status) == old(QueueUser(View(), t, live, terminated, item))
    {
      hide Good, TdsOf, Enqueue, IsUserAddress;
      if !live || handler == 0 {
        return BadValue;
      }
      if !IsUserAddress(handler, 1) {
        return BadAddr;
      }
      if terminated {
        return NoProc;
      }
      status := EnqueueCall(t, Item(if special then USER_SPECIAL else USER_NORMAL, handler, arg1, arg2, arg3));
    }

    /** Whether a delivery at this point would find a call to deliver. */
    method HasPending(t: nat, live: bool, ctx: Context) returns (found: bool)
      requires Valid() && t < MAX_THREADS
      ensures found <==> live && FirstDeliverable(View().tds[t].queue, ctx, View().tds[t].inUser) < |View().tds[t].queue|
    {
      hide Good, TdsOf, Pending, Linked, FirstDeliverable;
      if !live {
        return false;
      }
      QueueFacts(Lists(), -1, t);
      TdsQueueAt(queues, items, alertable, inUser, saved, t);
      var prev, cur;
      ghost var i;
      prev, cur, i := Search(t, ctx, queues[t]);
      return cur != NONE;
    }

    /** Takes one deliverable call off a queue and frees its slot; a user call marks the
        thread as running one. */
    method TakeCall(t: nat, ctx: Context) returns (found: bool, item: Item)
      requires Valid() && t < MAX_THREADS
      modifies this
      ensures Valid()
      ensures var r := Pop(old(View()), t, ctx);
        View() == r.0 && found == (r.1 != []) && (found ==> item == r.1[0])
    {
      hide Good, TdsOf, Pending, FirstDeliverable, RemoveAt;
      ghost var a := View();
      ghost var td := a.tds[t];
      ghost var i := FirstDeliverable(td.queue, ctx, td.inUser);
      TdsQueueAt(queues, items, alertable, inUser, saved, t);
      var slot := PopSlot(t, ctx);
      assert a.tds[t := td] == a.tds;
      if slot == NONE {
        return false, NO_ITEM;
      }
      item := items[slot];
      ghost var td' := Shorter(td, i).(inUser := td.inUser || item.kind != KERNEL);
      PendingUpdate(a.tds, t, td', MAX_THREADS);
      Release(slot);
      if item.kind != KERNEL {
        SetInUser(t, true);
      }
      delivered := delivered + 1;
      assert View().tds == a.tds[t := td'];
      return true, item;
    }

    method SetInUser(t: nat, value: bool)
      requires Base(-1) && t < MAX_THREADS
      modifies this`inUser
      ensures Base(-1) && View() == old(SetTd(View(), t, View().tds[t].(inUser := value)))
    {
      hide Good, Pending;
      PendingUpdate(View().tds, t, View().tds[t].(inUser := value), MAX_THREADS);
      inUser := inUser[t := value];
      assert View().tds == old(View().tds[t := View().tds[t].(inUser := value)]);
    }

    method SaveFrame(t: nat, regs: Regs)
      requires Valid() && t < MAX_THREADS
      modifies this`saved
      ensures Valid() && View() == old(SetTd(View(), t, View().tds[t].(saved := regs)))
    {
      hide Good, Pending;
      PendingUpdate(View().tds, t, View().tds[t].(saved := regs), MAX_THREADS);
      saved := saved[t := regs];
      assert View().tds == old(View().tds[t := View().tds[t].(saved := regs)]);
    }

    /** Enters the handler of a user call that was taken, or refuses it. */
    method FinishCall(t: nat, regs: Regs, item: Item) returns (regs': Regs)
      requires Valid() && t < MAX_THREADS
      modifies this
      ensures Valid() && (View(), regs') == old(Finish(View(), t, regs, item))
    {
      hide Good, TdsOf, Pending, CanEnterUser, HandlerFrame;
      PendingUpdate(View().tds, t, View().tds[t].(inUser := false), MAX_THREADS);
      if !CanEnterUser(regs) {
        SetInUser(t, false);
        dropped := dropped + 1;
        return regs;
      }
      SaveFrame(t, regs);
      return HandlerFrame(regs, item);
    }

    /** Ends a user call: the interrupted frame comes back, unless it is not a user frame. */
    method ReturnFromCall(t: nat, regs: Regs) returns (regs': Regs, status: Status)
      requires Valid() && t < MAX_THREADS
      modifies this
      ensures Valid() && (View(), regs', status) == old(Return(View(), t, regs))
    {
      hide Good, TdsOf, Pending, IsUserAddress;
      TdsQueueAt(queues, items, alertable, inUser, saved, t);
      PendingUpdate(View().tds, t, View().tds[t].(inUser := false), MAX_THREADS);
      regs' := regs;
      if !inUser[t] {
        return regs, BadValue;
      }
      if !IsUserAddress(saved[t].rip, 1) || !IsUserAddress(saved[t].rsp, 1) {
        SetInUser(t, false);
        return regs, BadAddr;
      }
      regs' := saved[t];
      SetInUser(t, false);
      return regs', Status.Done;
    }

    /** Throws a thread's calls away, slot by slot from the head of its queue. */
    method FlushThread(t: nat)
      requires Valid() && t < MAX_THREADS
      modifies this
      ensures Valid() && View() == old(Flush(View(), t))
    {
      hide Good, TdsOf, Pending;
      ghost var a := View();
      ghost var td := a.tds[t];
      QueueFacts(Lists(), -1, t);
      TdsQueueAt(queues, items, alertable, inUser, saved, t);
      assert a.tds == a.tds[t := td];
      while heads[t] >= 0
        invariant Valid() && |heads| == MAX_THREADS
        invariant heads[t] < 0 <==> View().tds[t].queue == []
        invariant |View().tds[t].queue| <= |td.queue|
        invariant View() == SetTd(a, t, td.(queue := View().tds[t].queue))
                              .(flushed := a.flushed + |td.queue| - |View().tds[t].queue|)
        decreases |View().tds[t].queue|
      {
        DropHead(t);
        assert View().tds == a.tds[t := td.(queue := View().tds[t].queue)];
      }
      ClearFlags(t);
      assert View().tds == a.tds[t := td.(queue := [], alertable := 0, inUser := false)];
    }

    method DropHead(t: nat)
      requires Valid() && t < MAX_THREADS && |heads| == MAX_THREADS && heads[t] >= 0 && View().tds[t].queue != []
      modifies this
      ensures Valid() && |heads| == MAX_THREADS && (heads[t] < 0 <==> View().tds[t].queue == [])
      ensures View() == old(SetTd(View(), t, Shorter(View().tds[t], 0)).(flushed := View().flushed + 1))
    {
      hide Good, TdsOf, Pending, RemoveAt, Linked, ItemsOf;
      QueueFacts(Lists(), -1, t);
      TdsQueueAt(queues, items, alertable, inUser, saved, t);
      LinkedAt0(next, HeadSlot(heads[t]), queues[t]);
      PendingUpdate(View().tds, t, Shorter(View().tds[t], 0), MAX_THREADS);
      var cur := heads[t];
      Detach(t, NONE, cur, 0);
      Release(cur);
      flushed := flushed + 1;
      QueueFacts(Lists(), -1, t);
      TdsQueueAt(queues, items, alertable, inUser, saved, t);
    }

    method ClearFlags(t: nat)
      requires Valid() && t < MAX_THREADS
      modifies this`alertable, this`inUser
      ensures Valid() && View() == old(SetTd(View(), t, View().tds[t].(alertable := 0, inUser := false)))
    {
      hide Good, Pending;
      PendingUpdate(View().tds, t, View().tds[t].(alertable := 0, inUser := false), MAX_THREADS);
      alertable := alertable[t := 0];
      inUser := inUser[t := false];
      assert View().tds == old(View().tds[t := View().tds[t].(alertable := 0, inUser := false)]);
    }

    method SetAlertable(t: nat, n: nat)
      requires Valid() && t < MAX_THREADS
      modifies this`alertable
      ensures Valid() && View() == old(SetTd(View(), t, View().tds[t].(alertable := n)))
    {
      hide Good, Pending;
      PendingUpdate(View().tds, t, View().tds[t].(alertable := n), MAX_THREADS);
      alertable := alertable[t := n];
      assert View().tds == old(View().tds[t := View().tds[t].(alertable := n)]);
    }

    /** Brackets an alertable wait. */
    method ChangeAlertable(t: nat, enter: bool)
      requires Valid() && t < MAX_THREADS
      modifies this
      ensures Valid() && View() == old(if enter then EnterAlertable(View(), t) else LeaveAlertable(View(), t))
    {
      hide Good, TdsOf, Pending;
      TdsQueueAt(queues, items, alertable, inUser, saved, t);
      if enter {
        SetAlertable(t, alertable[t] + 1);
      } else {
        SetAlertable(t, if alertable[t] > 0 then alertable[t] - 1 else alertable[t]);
      }
    }

    // ---- delivery ----

    /** One operation of another CPU, or of a kernel routine. */
    method Perform(op: Op)
      requires Valid() && Legal(op)
      modifies this
      ensures Valid() && View() == old(Apply(View(), op))
    {
      hide Good, TdsOf, Pending, QueueKernel, QueueUser, Pop, Finish, Return, Flush, EnterAlertable, LeaveAlertable;
      match op
      case OpQueueKernel(t, live, terminated, item) =>
        var status := QueueKernelCall(t, live, terminated, item);
      case OpQueueUser(t, live, terminated, item) =>
        var status := QueueUserCall(t, live, terminated, item.kind == USER_SPECIAL, item.handler, item.arg1, item.arg2,
                                    item.arg3);
      case OpTake(t, ctx) =>
        var found, item := TakeCall(t, ctx);
      case OpFinish(t, regs, item) =>
        var regs' := FinishCall(t, regs, item);
      case OpReturn(t, regs) =>
        var regs', status := ReturnFromCall(t, regs);
      case OpFlush(t) => FlushThread(t);
      case OpEnter(t) => ChangeAlertable(t, true);
      case OpLeave(t) => ChangeAlertable(t, false);
    }

    method PerformAll(ops: seq<Op>)
      requires Valid() && AllLegal(ops)
      modifies this
      ensures Valid() && View() == old(After(View(), ops))
    {
      hide Good, TdsOf, Pending, Apply, Legal, After;
      ghost var a := View();
      AfterNone(a);
      for i := 0 to |ops|
        invariant Valid() && AllLegal(ops[..i]) && View() == After(a, ops[..i])
      {
        AfterOne(View(), ops[i]);
        AfterConcat(a, ops[..i], [ops[i]]);
        assert ops[..i + 1] == ops[..i] + [ops[i]];
        Perform(ops[i]);
      }
      assert ops[..|ops|] == ops;
    }

    /** Takes calls until none is deliverable or a user call comes up; `gaps[i]` happens
        while the `i`-th kernel call runs. */
    method DrainKernel(t: nat, ctx: Context, gaps: seq<seq<Op>>) returns (ran: seq<Item>, haveUser: bool, item: Item)
      requires Valid() && t < MAX_THREADS && GapsLegal(gaps)
      modifies this
      ensures Valid()
      ensures var v := Visits(old(View()), t, ctx, gaps);
        && ran == v.ran && haveUser == (v.user != []) && (haveUser ==> item == v.user[0])
        && View() == After(old(View()), v.ops)
    {
      hide Good, TdsOf, Pending, Visits, Pop, After, Legal, Apply, Base, AllLegal, GapsLegal;
      ghost var a := View();
      ghost var goal, done: seq<Op> := Visits(a, t, ctx, gaps), [];
      var left := gaps;
      ran, haveUser, item := [], false, NO_ITEM;
      AfterNone(a);
      while true
        invariant Valid() && GapsLegal(left) && AllLegal(done) && View() == After(a, done)
        invariant goal == Extended(done, ran, Visits(View(), t, ctx, left))
        decreases |left|, |View().tds[t].queue|
      {
        ghost var before := View();
        VisitStep(before, t, ctx, left);
        TakeIsOp(a, done, t, ctx);
        var found;
        found, item := TakeCall(t, ctx);
        done := done + [OpTake(t, ctx)];
        if !found {
          return;
        }
        if item.kind != KERNEL {
          haveUser := true;
          return;
        }
        GapIsRun(a, done, left);
        ExtendedMore(done, ran, item, left, Visits(After(View(), Head(left)), t, ctx, Tail(left)), t, ctx);
        AfterNone(View());
        PerformAll(Head(left));
        ran := ran + [item];
        done := done + Head(left);
        left := Tail(left);
      }
    }

    /** Runs the deliverable kernel calls, then turns the thread to at most one user call. */
    method DeliverCalls(t: nat, live: bool, regs: Regs, ctx: Context, gaps: seq<seq<Op>>)
      returns (regs': Regs, ran: seq<Item>, count: nat)
      requires Valid() && t < MAX_THREADS && GapsLegal(gaps)
      modifies this
      ensures Valid() && Delivery(View(), regs', ran, count) == DeliverWith(old(View()), t, live, regs, ctx, gaps)
      ensures gaps == [] ==> Delivery(View(), regs', ran, count) == Deliver(old(View()), t, live, regs, ctx)
    {
      hide Good, TdsOf, Pending, CanEnterUser, Visits, After, Finish, Deliver;
      QuietDelivery(View(), t, live, regs, ctx);
      regs', ran, count := regs, [], 0;
      QueueFacts(Lists(), -1, t);
      TdsQueueAt(queues, items, alertable, inUser, saved, t);
      if !live || heads[t] < 0 {
        return;
      }
      var haveUser, item;
      ran, haveUser, item := DrainKernel(t, ctx, gaps);
      count := |ran|;
      if !haveUser {
        return;
      }
      regs' := FinishCall(t, regs, item);
      count := if CanEnterUser(regs) then count + 1 else count;
    }

    /** All slots start on the free list, in order. */
    constructor ()
      ensures Valid() && View().queued == View().delivered == View().dropped == View().flushed == 0
      ensures forall t :: 0 <= t < MAX_THREADS ==> View().tds[t] == Td([], 0, false, NO_REGS)
    {
      hide Good, Pending;
      used := seq(POOL, _ => false);
      items := seq(POOL, _ => NO_ITEM);
      next := ChainAll();
      freeHead := 0;
      queued, delivered, dropped := 0, 0, 0;
      heads := seq(MAX_THREADS, _ => -1);
      counts := seq(MAX_THREADS, _ => 0);
      alertable := seq(MAX_THREADS, _ => 0);
      inUser := seq(MAX_THREADS, _ => false);
      saved := seq(MAX_THREADS, _ => NO_REGS);
      free := AllSlots();
      queues := seq(MAX_THREADS, _ => []);
      place := seq(POOL, _ => FREE);
      flushed := 0;
      new;
      InitialGood();
      assert Lists() == InitialLists();
      assert forall t :: 0 <= t < MAX_THREADS ==> queues[t] == [] && ItemsOf(queues[t], items) == [];
      NothingPending(View().tds, MAX_THREADS);
    }
  }

  /** A visit seen from the start of the loop. */
  ghost function Extended(done: seq<Op>, ran: seq<Item>, v: Visit): Visit {
    Visit(done + v.ops, ran + v.ran, v.user)
  }

  lemma TakeIsOp(a: Apcs, done: seq<Op>, t: nat, ctx: Context)
    requires ApcModel.Valid(a) && AllLegal(done) && t < MAX_THREADS
    ensures AllLegal(done + [OpTake(t, ctx)])
    ensures After(a, done + [OpTake(t, ctx)]) == Pop(After(a, done), t, ctx).0
  {
    hide After, Pop;
    AfterOne(After(a, done), OpTake(t, ctx));
    AfterConcat(a, done, [OpTake(t, ctx)]);
  }

  lemma GapIsRun(a: Apcs, done: seq<Op>, gaps: seq<seq<Op>>)
    requires ApcModel.Valid(a) && AllLegal(done) && GapsLegal(gaps)
    ensures AllLegal(Head(gaps)) && GapsLegal(Tail(gaps)) && AllLegal(done + Head(gaps))
    ensures After(a, done + Head(gaps)) == After(After(a, done), Head(gaps))
  {
    hide After, Legal;
    AfterConcat(a, done, Head(gaps));
  }

  lemma ExtendedMore(done: seq<Op>, ran: seq<Item>, item: Item, gaps: seq<seq<Op>>, v: Visit, t: nat, ctx: Context)
    requires |done| > 0 && done[|done| - 1] == OpTake(t, ctx)
    ensures Extended(done[..|done| - 1], ran, Visit([OpTake(t, ctx)] + Head(gaps) + v.ops, [item] + v.ran, v.user))
         == Extended(done + Head(gaps), ran + [item], v)
  {
    assert done == done[..|done| - 1] + [OpTake(t, ctx)];
  }
}
