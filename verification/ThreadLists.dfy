/** The doubly linked thread list of every process (src/kernel/thread.c:394-433), threaded through
    one table of threads. It refines the sequences the scheduler model works with. */
module ThreadLists {
  import opened Lists
  import opened Scheduler
  import opened SchedulerRuns

  const NIL: int := -1

  /** The element at `i`, or nothing outside the list. */
  function Neighbour(l: seq<int>, i: int): int {
    if 0 <= i < |l| then l[i] else NIL
  }

  /** The links of element `i` lead to its neighbours. */
  predicate Linked(next: seq<int>, prev: seq<int>, l: seq<int>, i: nat) {
    && i < |l| && 0 <= l[i] < |next| == |prev|
    && next[l[i]] == Neighbour(l, i + 1) && prev[l[i]] == Neighbour(l, i - 1)
  }

  /** `l` is linked forwards and backwards through `next` and `prev`, and starts at `head`. */
  predicate Chain(next: seq<int>, prev: seq<int>, head: int, l: seq<int>) {
    head == Neighbour(l, 0) && Distinct(l) && forall i: nat :: i < |l| ==> Linked(next, prev, l, i)
  }

  /** A chain does not depend on other elements. */
  lemma ChainFrame(next: seq<int>, prev: seq<int>, next': seq<int>, prev': seq<int>, head: int, l: seq<int>)
    requires Chain(next, prev, head, l) && |next'| == |prev'| == |next|
    requires forall i :: 0 <= i < |l| ==> 0 <= l[i] < |next| == |prev|
    requires forall i :: 0 <= i < |l| ==> next'[l[i]] == next[l[i]] && prev'[l[i]] == prev[l[i]]
    ensures Chain(next', prev', head, l)
  {
    forall i: nat | i < |l|
      ensures Linked(next', prev', l, i)
    {
      assert Linked(next, prev, l, i);
    }
  }

  lemma PushFront(next: seq<int>, prev: seq<int>, head: int, l: seq<int>, t: int)
    requires Chain(next, prev, head, l) && 0 <= t < |next| == |prev| && t !in l && (head == NIL || 0 <= head < |prev|)
    ensures var prev' := prev[t := NIL];
      Chain(next[t := head], if head == NIL then prev' else prev'[head := t], t, [t] + l)
  {
    hide Linked;
    var m := [t] + l;
    var n, p := next[t := head], if head == NIL then prev[t := NIL] else prev[t := NIL][head := t];
    forall i: nat | i < |m|
      ensures Linked(n, p, m, i)
    {
      if i > 0 {
        assert Linked(next, prev, l, i - 1);
        PushedLink(next, prev, head, l, t, i - 1);
      } else {
        PushedHead(next, prev, head, l, t);
      }
    }
  }

  lemma PushedLink(next: seq<int>, prev: seq<int>, head: int, l: seq<int>, t: int, i: nat)
    requires Linked(next, prev, l, i) && head == Neighbour(l, 0) && Distinct(l)
    requires 0 <= t < |next| && t !in l && (head == NIL || 0 <= head < |prev|)
    ensures Linked(next[t := head], if head == NIL then prev[t := NIL] else prev[t := NIL][head := t], [t] + l, i + 1)
  {
    var m := [t] + l;
    assert m[i + 1] == l[i] && Neighbour(m, i + 2) == Neighbour(l, i + 1) && Neighbour(m, i) == if i == 0 then t else l[i - 1];
  }

  lemma PushedHead(next: seq<int>, prev: seq<int>, head: int, l: seq<int>, t: int)
    requires head == Neighbour(l, 0) && 0 <= t < |next| == |prev| && t !in l && (head == NIL || 0 <= head < |prev|)
    ensures Linked(next[t := head], if head == NIL then prev[t := NIL] else prev[t := NIL][head := t], [t] + l, 0)
  {
    var m := [t] + l;
    assert m[0] == t && Neighbour(m, 1) == Neighbour(l, 0);
  }

  /** The list without its element at `i`. */
  function Cut(l: seq<int>, i: nat): (m: seq<int>)
    requires i < |l|
    ensures |m| == |l| - 1
  {
    l[..i] + l[i + 1..]
  }

  /** The links after a neighbour `p` has been pointed past the element taken out. */
  function Relink(links: seq<int>, p: int, n: int): (r: seq<int>)
    requires 0 <= p < |links| || p == NIL
    ensures |r| == |links|
  {
    if p == NIL then links else links[p := n]
  }

  lemma Remove(next: seq<int>, prev: seq<int>, head: int, l: seq<int>, i: nat)
    requires Chain(next, prev, head, l) && i < |l|
    ensures Linked(next, prev, l, i)
    ensures var p, n := Neighbour(l, i - 1), Neighbour(l, i + 1);
      && (p == NIL || 0 <= p < |next|) && (n == NIL || 0 <= n < |prev|)
      && Chain(Relink(next, p, n), Relink(prev, n, p), if i == 0 then n else head, Cut(l, i))
  {
    hide Linked;
    assert Linked(next, prev, l, i);
    var p, n := Neighbour(l, i - 1), Neighbour(l, i + 1);
    if i > 0 {
      assert Linked(next, prev, l, i - 1);
      LinkedBounds(next, prev, l, i - 1);
    }
    if i + 1 < |l| {
      assert Linked(next, prev, l, i + 1);
      LinkedBounds(next, prev, l, i + 1);
    }
    var m := Cut(l, i);
    CutDistinct(l, i);
    forall j: nat | j < |m|
      ensures Linked(Relink(next, p, n), Relink(prev, n, p), m, j)
    {
      var k := if j < i then j else j + 1;
      assert Linked(next, prev, l, k);
      CutLink(next, prev, l, i, j);
    }
  }

  lemma LinkedBounds(next: seq<int>, prev: seq<int>, l: seq<int>, i: nat)
    requires Linked(next, prev, l, i)
    ensures 0 <= l[i] < |next| == |prev|
  {
  }

  lemma CutDistinct(l: seq<int>, i: nat)
    requires Distinct(l) && i < |l|
    ensures Distinct(Cut(l, i))
  {
    var m := Cut(l, i);
    assert forall j :: 0 <= j < |m| ==> m[j] == l[if j < i then j else j + 1];
  }

  /** An element that stays has its new neighbours. */
  lemma CutLink(next: seq<int>, prev: seq<int>, l: seq<int>, i: nat, j: nat)
    requires Distinct(l) && i < |l| && j < |l| - 1 && Linked(next, prev, l, if j < i then j else j + 1)
    requires Neighbour(l, i - 1) == NIL || 0 <= Neighbour(l, i - 1) < |next|
    requires Neighbour(l, i + 1) == NIL || 0 <= Neighbour(l, i + 1) < |prev|
    ensures Linked(Relink(next, Neighbour(l, i - 1), Neighbour(l, i + 1)), Relink(prev, Neighbour(l, i + 1), Neighbour(l, i - 1)), Cut(l, i), j)
  {
    var m := Cut(l, i);
    var k := if j < i then j else j + 1;
    assert m[j] == l[k];
    assert Neighbour(m, j + 1) == (if j + 1 == i then Neighbour(l, i + 1) else Neighbour(l, k + 1));
    assert Neighbour(m, j - 1) == (if j == i then Neighbour(l, i - 1) else Neighbour(l, k - 1));
  }

  lemma {:induction false} CutIsWithout(l: seq<int>, i: nat)
    requires i < |l| && Distinct(l)
    ensures Cut(l, i) == Without(l, l[i])
    decreases |l|
  {
    if i == 0 {
      NothingTaken(l[1..], l[0]);
    } else {
      CutIsWithout(l[1..], i - 1);
      assert Cut(l, i) == [l[0]] + Cut(l[1..], i - 1);
    }
  }

  lemma {:induction false} NothingTaken(l: seq<int>, t: int)
    requires t !in l
    ensures Without(l, t) == l
    decreases |l|
  {
    if l != [] {
      NothingTaken(l[1..], t);
    }
  }

  class Threads {
    var next: seq<int>
    var prev: seq<int>
    var proc: seq<int>
    var head: seq<int>
    var count: seq<int>
    ghost var lists: seq<seq<int>>

    ghost predicate Valid()
      reads this
    {
      && |next| == |prev| == |proc| && |head| == |count| == |lists|
      && (forall p :: 0 <= p < |lists| ==> Chain(next, prev, head[p], lists[p]))
      && (forall p :: 0 <= p < |lists| ==> Own(proc, p, lists[p]) && count[p] == |lists[p]|)
    }

    /** Puts a thread of process `p` in front of its list. */
    method Link(p: int, t: int)
      requires Valid() && 0 <= p < |lists| && 0 <= t < |next| && proc[t] == p && t !in lists[p]
      modifies this
      ensures Valid() && proc == old(proc) && lists == old(lists)[p := [t] + old(lists)[p]]
    {
      hide Chain, Own;
      ghost var next0, prev0 := next, prev;
      HeadOf(next, prev, proc, p, head[p], lists[p]);
      PushFront(next, prev, head[p], lists[p], t);
      OwnFront(proc, p, lists[p], t);
      prev := prev[t := NIL];
      next := next[t := head[p]];
      if head[p] != NIL {
        prev := prev[head[p] := t];
      }
      OtherChains(next0, prev0, next, prev, proc, p, head, lists);
      head := head[p := t];
      count := count[p := count[p] + 1];
      lists := lists[p := [t] + lists[p]];
    }

    /** Joins the neighbours of a thread of process `p`. */
    method Splice(p: int, before: int, after: int)
      requires 0 <= p < |head| && (before == NIL || 0 <= before < |next|) && (after == NIL || 0 <= after < |prev|)
      modifies this`next, this`prev, this`head
      ensures next == Relink(old(next), before, after) && prev == Relink(old(prev), after, before)
      ensures head == if before == NIL then old(head)[p := after] else old(head)
    {
      if before != NIL {
        next := next[before := after];
      } else {
        head := head[p := after];
      }
      if after != NIL {
        prev := prev[after := before];
      }
    }

    /** Takes a linked thread out of the list of its process. */
    method Unlink(t: int)
      requires Valid() && 0 <= t < |proc|
      requires proc[t] >= 0 ==> proc[t] < |lists| && t in lists[proc[t]]
      modifies this
      ensures Valid() && proc == old(proc)
      ensures lists == if proc[t] < 0 then old(lists) else old(lists)[proc[t] := Without(old(lists)[proc[t]], t)]
    {
      hide Chain, Own, Linked, Cut, Without, Distinct, Neighbour, Relink;
      if proc[t] < 0 {
        return;
      }
      var p := proc[t];
      ghost var l := lists[p];
      ghost var i: nat :| i < |l| && l[i] == t;
      ghost var next0, prev0 := next, prev;
      Remove(next, prev, head[p], l, i);
      NeighboursOf(next, prev, proc, p, head[p], l, i);
      OwnCut(proc, p, l, i);
      Splice(p, prev[t], next[t]);
      RelinkElsewhere(next0, proc, p, prev0[t], next0[t]);
      RelinkElsewhere(prev0, proc, p, next0[t], prev0[t]);
      OtherChains(next0, prev0, next, prev, proc, p, head, lists);
      var left := count[p] - 1;
      count := count[p := if left < 0 then 0 else left];
      lists := lists[p := Cut(l, i)];
    }
  }

  /** The listed threads belong to process `p`. */
  predicate Own(proc: seq<int>, p: int, l: seq<int>) {
    forall i :: 0 <= i < |l| ==> 0 <= l[i] < |proc| && proc[l[i]] == p
  }

  lemma OwnFront(proc: seq<int>, p: int, l: seq<int>, t: int)
    requires Own(proc, p, l) && 0 <= t < |proc| && proc[t] == p
    ensures Own(proc, p, [t] + l)
  {
  }

  lemma OwnCut(proc: seq<int>, p: int, l: seq<int>, i: nat)
    requires Own(proc, p, l) && i < |l| && Distinct(l)
    ensures Own(proc, p, Cut(l, i)) && Cut(l, i) == Without(l, l[i])
  {
    CutIsWithout(l, i);
  }

  lemma HeadOf(next: seq<int>, prev: seq<int>, proc: seq<int>, p: int, head: int, l: seq<int>)
    requires Chain(next, prev, head, l) && Own(proc, p, l)
    ensures head != NIL ==> 0 <= head < |proc| && proc[head] == p
  {
  }

  /** The neighbours of a linked thread belong to the same process and are other threads. */
  lemma NeighboursOf(next: seq<int>, prev: seq<int>, proc: seq<int>, p: int, head: int, l: seq<int>, i: nat)
    requires Chain(next, prev, head, l) && Own(proc, p, l) && i < |l| && |next| == |prev| == |proc|
    ensures Distinct(l) && 0 <= l[i] < |next|
    ensures var t := l[i];
      && next[t] == Neighbour(l, i + 1) && prev[t] == Neighbour(l, i - 1) && (prev[t] == NIL <==> i == 0)
      && (next[t] != NIL ==> 0 <= next[t] < |proc| && proc[next[t]] == p && next[t] != t)
      && (prev[t] != NIL ==> 0 <= prev[t] < |proc| && proc[prev[t]] == p && prev[t] != t)
  {
    assert Linked(next, prev, l, i);
  }

  /** The list of another process does not notice. */
  lemma OtherChain(
    next0: seq<int>, prev0: seq<int>, next: seq<int>, prev: seq<int>, proc: seq<int>, p: int, q: int, head: int, l: seq<int>)
    requires Chain(next0, prev0, head, l) && Own(proc, q, l) && p != q
    requires |next| == |prev| == |next0| == |prev0| == |proc|
    requires forall t :: 0 <= t < |proc| && proc[t] != p ==> next[t] == next0[t] && prev[t] == prev0[t]
    ensures Chain(next, prev, head, l)
  {
    hide Chain;
    ChainFrame(next0, prev0, next, prev, head, l);
  }

  lemma OtherChains(
    next0: seq<int>, prev0: seq<int>, next: seq<int>, prev: seq<int>, proc: seq<int>, p: int, heads: seq<int>,
    lists: seq<seq<int>>)
    requires |heads| == |lists| && |next| == |prev| == |next0| == |prev0| == |proc|
    requires forall q :: 0 <= q < |lists| && q != p ==> Chain(next0, prev0, heads[q], lists[q])
    requires forall q :: 0 <= q < |lists| && q != p ==> Own(proc, q, lists[q])
    requires forall t :: 0 <= t < |proc| && proc[t] != p ==> next[t] == next0[t] && prev[t] == prev0[t]
    ensures forall q :: 0 <= q < |lists| && q != p ==> Chain(next, prev, heads[q], lists[q])
  {
    hide Chain, Own;
    forall q | 0 <= q < |lists| && q != p
      ensures Chain(next, prev, heads[q], lists[q])
    {
      OtherChain(next0, prev0, next, prev, proc, p, q, heads[q], lists[q]);
    }
  }

  lemma RelinkElsewhere(links: seq<int>, proc: seq<int>, p: int, at: int, value: int)
    requires |links| == |proc| && (at == NIL || (0 <= at < |links| && proc[at] == p))
    ensures forall t :: 0 <= t < |proc| && proc[t] != p ==> Relink(links, at, value)[t] == links[t]
  {
  }

  // ---- the scheduler's lists ----

  /** The thread lists of a scheduler state, by process. */
  ghost function ListsOf(s: State): seq<seq<int>>
    requires |s.procs| == MAX_PROCS
  {
    seq(MAX_PROCS, p requires 0 <= p < MAX_PROCS => s.procs[p].list)
  }

  /** Starting a thread changes the scheduler's lists as `Link` does, and destroying one as
      `Unlink` does. */
  lemma SchedulerLists(s: State, cpu: int, t: int, p: int)
    requires WellFormed(s) && 0 <= cpu < MAX_CPUS && IsThread(t) && IsProc(p)
    ensures ListsOf(Started(s, t, p)) == ListsOf(s)[p := [t] + ListsOf(s)[p]]
    ensures var q, gone := s.threads[t].proc, s.threads[t].used && t != s.current[cpu] && s.threads[t].cpu < 0;
      ListsOf(Destroy(s, cpu, t))
        == if gone && q >= 0 then ListsOf(s)[q := Without(ListsOf(s)[q], t)] else ListsOf(s)
  {
    hide Without;
  }
}
