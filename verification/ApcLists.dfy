/** The slot pool behind the queues: one `next` array threads the free list and every
    thread's queue at once. Four pure moves of a slot, each keeping the lists apart. */
module ApcLists {
  import opened ApcModel
  import opened Lists

  const NONE := 0xFFFF_FFFF

  const FREE := -1
  const HAND := -2

  /** `free`, `queues` and `place` are the lists the links are meant to spell: the free
      slots, each thread's slots, and for each slot the list it is on. */
  datatype Layout = Layout(next: seq<int>, freeHead: int, heads: seq<int>,
                           free: seq<int>, queues: seq<seq<int>>, place: seq<int>)

  predicate IsSlot(s: int) {
    0 <= s < POOL
  }

  function At(list: seq<int>, i: nat): int {
    if i < |list| then list[i] else NONE
  }

  /** The links from `head` on spell `list` and then end. */
  ghost predicate Linked(next: seq<int>, head: int, list: seq<int>) {
    && |next| == POOL
    && head == At(list, 0)
    && forall i :: 0 <= i < |list| ==> IsSlot(list[i]) && next[list[i]] == At(list, i + 1)
  }

  function HeadSlot(head: int): int {
    if head < 0 then NONE else head
  }

  /** Every slot is on exactly one list, or is `hand`, the one slot in transit. */
  ghost predicate Good(l: Layout, hand: int) {
    && |l.next| == |l.place| == POOL && |l.heads| == |l.queues| == MAX_THREADS
    && Linked(l.next, l.freeHead, l.free) && Distinct(l.free)
    && (forall t :: 0 <= t < MAX_THREADS ==> Linked(l.next, HeadSlot(l.heads[t]), l.queues[t]) && Distinct(l.queues[t]))
    && (forall t :: 0 <= t < MAX_THREADS ==> -1 <= l.heads[t] < POOL)
    && (forall s :: IsSlot(s) ==> (s in l.free <==> l.place[s] == FREE))
    && (forall s, t :: IsSlot(s) && 0 <= t < MAX_THREADS ==> (s in l.queues[t] <==> l.place[s] == t))
    && (forall s :: IsSlot(s) ==> (s == hand <==> l.place[s] == HAND) && -2 <= l.place[s] < MAX_THREADS)
  }

  lemma LinkedFrame(next: seq<int>, x: int, v: int, head: int, list: seq<int>)
    requires Linked(next, head, list) && IsSlot(x) && x !in list
    ensures Linked(next[x := v], head, list)
  {
  }

  lemma FreeFacts(l: Layout, hand: int)
    requires Good(l, hand)
    ensures |l.next| == |l.place| == POOL && |l.heads| == |l.queues| == MAX_THREADS
    ensures l.freeHead == NONE <==> l.free == []
    ensures l.free != [] ==> l.freeHead == l.free[0] && IsSlot(l.freeHead)
  {
  }

  lemma QueueFacts(l: Layout, hand: int, t: nat)
    requires Good(l, hand) && t < MAX_THREADS
    ensures |l.next| == |l.place| == POOL && |l.heads| == |l.queues| == MAX_THREADS
    ensures -1 <= l.heads[t] < POOL && (l.heads[t] < 0 <==> l.queues[t] == [])
    ensures Linked(l.next, HeadSlot(l.heads[t]), l.queues[t]) && Distinct(l.queues[t])
    ensures forall i :: 0 <= i < |l.queues[t]| ==> IsSlot(l.queues[t][i]) && l.place[l.queues[t][i]] == t
  {
    assert forall i :: 0 <= i < |l.queues[t]| ==> l.queues[t][i] in l.queues[t];
  }

  lemma LinkedAt(next: seq<int>, head: int, list: seq<int>, i: nat)
    requires Linked(next, head, list) && i < |list|
    ensures |next| == POOL && IsSlot(list[i]) && next[list[i]] == At(list, i + 1)
    ensures i > 0 ==> IsSlot(list[i - 1])
  {
  }

  lemma LinkedAt0(next: seq<int>, head: int, list: seq<int>)
    requires Linked(next, head, list) && list != []
    ensures head == list[0]
  {
  }

  lemma HandFacts(l: Layout, hand: int)
    requires Good(l, hand) && IsSlot(hand)
    ensures |l.next| == |l.place| == POOL && |l.heads| == |l.queues| == MAX_THREADS
    ensures l.place[hand] == HAND && forall t :: 0 <= t < MAX_THREADS ==> hand !in l.queues[t]
  {
  }

  // ---- the pool at start ----

  /** Every slot links to the next one; the last ends the list. */
  function ChainAll(): (r: seq<int>)
    ensures |r| == POOL
  {
    seq(POOL, i => if i == POOL - 1 then NONE else i + 1)
  }

  function AllSlots(): (r: seq<int>)
    ensures |r| == POOL
  {
    seq(POOL, i => i)
  }

  function InitialLists(): Layout {
    Layout(ChainAll(), 0, seq(MAX_THREADS, _ => -1), AllSlots(), seq(MAX_THREADS, _ => []), seq(POOL, _ => FREE))
  }

  lemma InitialGood()
    ensures Good(InitialLists(), -1)
  {
    var l := InitialLists();
    assert forall s :: IsSlot(s) ==> l.free[s] == s;
    assert forall t :: 0 <= t < MAX_THREADS ==> l.queues[t] == [] && l.heads[t] == -1;
  }

  // ---- a free slot is taken in hand ----

  function TakeFree(l: Layout): Layout
    requires l.free != [] && |l.next| == |l.place| == POOL && IsSlot(l.free[0])
  {
    var s := l.free[0];
    Layout(l.next[s := NONE], l.next[s], l.heads, l.free[1..], l.queues, l.place[s := HAND])
  }

  lemma LinkedTail(next: seq<int>, head: int, list: seq<int>)
    requires Linked(next, head, list) && Distinct(list) && list != []
    ensures Linked(next[list[0] := NONE], next[list[0]], list[1..]) && Distinct(list[1..])
    ensures forall x :: x in list[1..] <==> x in list && x != list[0]
  {
    assert forall i :: 0 <= i < |list[1..]| ==> list[1..][i] == list[i + 1];
    assert list == [list[0]] + list[1..];
  }

  lemma TakeFreeGood(l: Layout)
    requires Good(l, -1) && l.free != []
    ensures Good(TakeFree(l), l.free[0])
  {
    hide Linked, Distinct;
    FreeFacts(l, -1);
    var s := l.free[0];
    var l' := TakeFree(l);
    assert s in l.free;
    LinkedTail(l.next, l.freeHead, l.free);
    forall t | 0 <= t < MAX_THREADS
      ensures Linked(l'.next, HeadSlot(l'.heads[t]), l'.queues[t])
    {
      LinkedFrame(l.next, s, NONE, HeadSlot(l.heads[t]), l.queues[t]);
    }
  }

  // ---- the slot in hand is given back ----

  function GiveFree(l: Layout, s: int): Layout
    requires |l.next| == |l.place| == POOL && IsSlot(s)
  {
    Layout(l.next[s := l.freeHead], s, l.heads, [s] + l.free, l.queues, l.place[s := FREE])
  }

  lemma GiveFreeGood(l: Layout, s: int)
    requires Good(l, s) && IsSlot(s)
    ensures Good(GiveFree(l, s), -1)
  {
    hide Linked, Distinct;
    HandFacts(l, s);
    var l' := GiveFree(l, s);
    assert s !in l.free;
    LinkedCons(l.next, l.freeHead, l.free, s);
    forall t | 0 <= t < MAX_THREADS
      ensures Linked(l'.next, HeadSlot(l'.heads[t]), l'.queues[t])
    {
      LinkedFrame(l.next, s, l.freeHead, HeadSlot(l.heads[t]), l.queues[t]);
    }
  }

  lemma LinkedCons(next: seq<int>, head: int, list: seq<int>, s: int)
    requires Linked(next, head, list) && Distinct(list) && IsSlot(s) && s !in list
    ensures Linked(next[s := head], s, [s] + list) && Distinct([s] + list)
  {
    assert forall i :: 0 < i < |[s] + list| ==> ([s] + list)[i] == list[i - 1];
  }

  // ---- the slot in hand is appended to a queue ----

  function Append(l: Layout, t: nat, s: int): Layout
    requires |l.next| == |l.place| == POOL && |l.heads| == |l.queues| == MAX_THREADS && t < MAX_THREADS && IsSlot(s)
    requires forall i :: 0 <= i < |l.queues[t]| ==> IsSlot(l.queues[t][i])
  {
    var q := l.queues[t];
    assert q != [] ==> IsSlot(q[|q| - 1]);
    Layout(if q == [] then l.next[s := NONE] else l.next[s := NONE][q[|q| - 1] := s], l.freeHead,
           if q == [] then l.heads[t := s] else l.heads,
           l.free, l.queues[t := q + [s]], l.place[s := t])
  }

  /** Following the links through a list with `s` hung on its end. */
  lemma LinkedSnoc(next: seq<int>, head: int, list: seq<int>, s: int)
    requires Linked(next, head, list) && Distinct(list) && list != [] && IsSlot(s) && s !in list && next[s] == NONE
    ensures Linked(next[list[|list| - 1] := s], head, list + [s])
  {
  }

  lemma AppendGood(l: Layout, t: nat, s: int)
    requires Good(l, s) && IsSlot(s) && t < MAX_THREADS
    ensures Good(Append(l, t, s), -1)
  {
    hide Linked, Distinct;
    QueueFacts(l, s, t);
    var q := l.queues[t];
    var l' := Append(l, t, s);
    var next := l.next[s := NONE];
    assert s !in l.free && s !in q;
    DistinctSnoc(q, s);
    LinkedFrame(l.next, s, NONE, l.freeHead, l.free);
    LinkedFrame(l.next, s, NONE, HeadSlot(l.heads[t]), q);
    if q != [] {
      var last := q[|q| - 1];
      assert last in q && last !in l.free;
      LinkedFrame(next, last, s, l.freeHead, l.free);
      LinkedSnoc(next, HeadSlot(l.heads[t]), q, s);
    }
    forall u | 0 <= u < MAX_THREADS && u != t
      ensures Linked(l'.next, HeadSlot(l'.heads[u]), l'.queues[u])
    {
      LinkedFrame(l.next, s, NONE, HeadSlot(l.heads[u]), l.queues[u]);
      if q != [] {
        assert q[|q| - 1] in q;
        LinkedFrame(next, q[|q| - 1], s, HeadSlot(l.heads[u]), l.queues[u]);
      }
    }
    assert q == [] ==> q + [s] == [s];
    LinkedOne(next, s);
    assert Linked(l'.next, HeadSlot(l'.heads[t]), l'.queues[t]);
  }

  lemma LinkedOne(next: seq<int>, s: int)
    requires |next| == POOL && IsSlot(s) && next[s] == NONE
    ensures Linked(next, s, [s])
  {
  }

  lemma DistinctSnoc(list: seq<int>, s: int)
    requires Distinct(list) && s !in list
    ensures Distinct(list + [s])
  {
  }

  // ---- a queued slot is taken in hand ----

  function Remove(l: Layout, t: nat, i: nat): Layout
    requires |l.next| == |l.place| == POOL && |l.heads| == |l.queues| == MAX_THREADS && t < MAX_THREADS
    requires i < |l.queues[t]| && forall k :: 0 <= k < |l.queues[t]| ==> IsSlot(l.queues[t][k])
  {
    var q := l.queues[t];
    assert IsSlot(q[i]) && (i > 0 ==> IsSlot(q[i - 1]));
    var after := l.next[q[i]];
    Layout(if i == 0 then l.next else l.next[q[i - 1] := after], l.freeHead,
           if i == 0 then l.heads[t := if after == NONE then -1 else after] else l.heads,
           l.free, l.queues[t := RemoveAt(q, i)], l.place[q[i] := HAND])
  }

  /** Skipping element `i` of a list. */
  lemma LinkedSkip(next: seq<int>, head: int, list: seq<int>, i: nat)
    requires Linked(next, head, list) && Distinct(list) && i < |list|
    ensures Linked(if i == 0 then next else next[list[i - 1] := next[list[i]]],
                   if i == 0 then next[list[0]] else head, RemoveAt(list, i))
  {
    var r := RemoveAt(list, i);
    forall k | 0 <= k < |r|
      ensures IsSlot(r[k]) && (if i == 0 then next else next[list[i - 1] := next[list[i]]])[r[k]] == At(r, k + 1)
    {
      SkipLink(next, head, list, i, k);
    }
  }

  lemma SkipLink(next: seq<int>, head: int, list: seq<int>, i: nat, k: nat)
    requires Linked(next, head, list) && Distinct(list) && i < |list| && k < |list| - 1
    ensures var r := RemoveAt(list, i);
      IsSlot(r[k]) && (if i == 0 then next else next[list[i - 1] := next[list[i]]])[r[k]] == At(r, k + 1)
  {
    hide Linked;
    var j := if k < i then k else k + 1;
    assert RemoveAt(list, i)[k] == list[j];
    LinkedAt(next, head, list, j);
    LinkedAt(next, head, list, i);
  }

  lemma DistinctRemove(list: seq<int>, i: nat)
    requires Distinct(list) && i < |list|
    ensures Distinct(RemoveAt(list, i))
    ensures forall x :: x in RemoveAt(list, i) <==> x in list && x != list[i]
  {
    var r := RemoveAt(list, i);
    assert forall k :: 0 <= k < |r| ==> r[k] == if k < i then list[k] else list[k + 1];
    forall x | x in list && x != list[i] ensures x in r {
      var k :| 0 <= k < |list| && list[k] == x;
      assert r[if k < i then k else k - 1] == x;
    }
  }

  lemma RemoveLinks(l: Layout, t: nat, i: nat, u: nat)
    requires Good(l, -1) && t < MAX_THREADS && i < |l.queues[t]| && u < MAX_THREADS
    ensures var l' := Remove(l, t, i);
      && Linked(l'.next, l'.freeHead, l'.free)
      && Linked(l'.next, HeadSlot(l'.heads[u]), l'.queues[u]) && Distinct(l'.queues[u])
      && -1 <= l'.heads[u] < POOL
  {
    hide RemoveAt, Linked, Distinct;
    QueueFacts(l, -1, t);
    var q := l.queues[t];
    LinkedAt(l.next, HeadSlot(l.heads[t]), q, i);
    var after := l.next[q[i]];
    LinkedSkip(l.next, HeadSlot(l.heads[t]), q, i);
    DistinctRemove(q, i);
    if i > 0 {
      var before := q[i - 1];
      assert before in q && before !in l.free;
      LinkedFrame(l.next, before, after, l.freeHead, l.free);
      if u != t {
        LinkedFrame(l.next, before, after, HeadSlot(l.heads[u]), l.queues[u]);
      }
    }
  }

  lemma RemovePlaces(l: Layout, t: nat, i: nat, s: int, u: nat)
    requires Good(l, -1) && t < MAX_THREADS && i < |l.queues[t]| && IsSlot(s) && u < MAX_THREADS
    ensures var l' := Remove(l, t, i);
      && (s in l'.free <==> l'.place[s] == FREE)
      && (s in l'.queues[u] <==> l'.place[s] == u)
      && (s == l.queues[t][i] <==> l'.place[s] == HAND) && -2 <= l'.place[s] < MAX_THREADS
  {
    hide RemoveAt, Linked, Distinct, HeadSlot;
    QueueFacts(l, -1, t);
    var q := l.queues[t];
    assert q[i] in q;
    DistinctRemove(q, i);
  }

  lemma RemoveGood(l: Layout, t: nat, i: nat)
    requires Good(l, -1) && t < MAX_THREADS && i < |l.queues[t]|
    ensures Good(Remove(l, t, i), l.queues[t][i])
  {
    hide RemoveAt, Linked, Distinct, HeadSlot;
    QueueFacts(l, -1, t);
    var l' := Remove(l, t, i);
    RemoveLinks(l, t, i, t);
    forall u | 0 <= u < MAX_THREADS
      ensures Linked(l'.next, HeadSlot(l'.heads[u]), l'.queues[u]) && Distinct(l'.queues[u]) && -1 <= l'.heads[u] < POOL
    {
      RemoveLinks(l, t, i, u);
    }
    forall s, u | IsSlot(s) && 0 <= u < MAX_THREADS ensures s in l'.queues[u] <==> l'.place[s] == u {
      RemovePlaces(l, t, i, s, u);
    }
    forall s | IsSlot(s)
      ensures (s in l'.free <==> l'.place[s] == FREE)
      ensures (s == l.queues[t][i] <==> l'.place[s] == HAND) && -2 <= l'.place[s] < MAX_THREADS
    {
      RemovePlaces(l, t, i, s, t);
    }
  }
}
