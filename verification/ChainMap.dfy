/** The block map of ChainFS (chainfs.py): chains of data blocks threaded through one table of
    links, in which 0 means "free" although block 0 is a block like any other. */
module ChainMap {
  import opened Bits

  const EOF: nat := 0xFFFF_FFFF
  const FREE: nat := 0
  const CLUSTER: nat := 4096

  type Cluster = s: seq<byte> | |s| == CLUSTER witness seq(4096, _ => 0)

  const FILE: nat := 0
  const DIR: nat := 1

  datatype Entry = Entry(status: nat, kind: nat, name: string, size: nat, start: nat, parent: nat)

  /** The image: block map, data clusters and file table. */
  datatype Disk = Disk(links: seq<nat>, data: seq<Cluster>, entries: seq<Entry>)

  predicate Live(e: Entry) {
    e.status == 1 && e.kind == FILE
  }

  function BlocksFor(size: nat): nat {
    if size == 0 then 1 else (size + CLUSTER - 1) / CLUSTER
  }

  predicate Ascending(c: seq<nat>) {
    forall i, j :: 0 <= i < j < |c| ==> c[i] < c[j]
  }

  function Next(c: seq<nat>, k: nat): nat {
    if k + 1 < |c| then c[k + 1] else EOF
  }

  /** Following the links from the first block of `c` visits `c` and stops. */
  predicate IsChain(links: seq<nat>, c: seq<nat>) {
    && c != [] && Ascending(c)
    && (forall k :: 0 <= k < |c| ==> c[k] < |links|)
    && (forall k :: 0 <= k < |c| ==> links[c[k]] == Next(c, k))
  }

  predicate Disjoint(c: seq<nat>, e: seq<nat>) {
    forall k, l :: 0 <= k < |c| && 0 <= l < |e| ==> c[k] != e[l]
  }

  /** Entry `e` owns the chain `c`. */
  predicate Owns(d: Disk, e: Entry, c: seq<nat>) {
    && IsChain(d.links, c) && e.start == c[0] && |c| == BlocksFor(e.size)
    && forall k :: 0 <= k < |c| ==> c[k] < |d.data|
  }

  /** `i` is a live entry whose chain holds block `b`. */
  predicate Claims(d: Disk, chains: seq<seq<nat>>, i: int, b: nat) {
    0 <= i < |d.entries| && i < |chains| && Live(d.entries[i]) && b in chains[i]
  }

  /**
   * The live files' chains: each as long as its size needs, no two sharing a block, and together
   * exactly the links that are not free.
   */
  ghost predicate Consistent(d: Disk, chains: seq<seq<nat>>) {
    && |d.data| <= EOF && |chains| == |d.entries|
    && (forall i :: 0 <= i < |chains| && Live(d.entries[i]) ==> Owns(d, d.entries[i], chains[i]))
    && (forall i, j :: 0 <= i < j < |chains| && Live(d.entries[i]) && Live(d.entries[j])
          ==> Disjoint(chains[i], chains[j]))
    && (forall b :: 0 <= b < |d.links| && d.links[b] != FREE ==> exists i :: Claims(d, chains, i, b))
  }

  /** A link of a chain is never the free marker. */
  lemma LinkIsNotFree(links: seq<nat>, c: seq<nat>, b: nat)
    requires IsChain(links, c) && b in c
    ensures b < |links| && links[b] != FREE
  {
    var k :| 0 <= k < |c| && c[k] == b;
    assert links[c[k]] == Next(c, k);
  }

  /** Exactly the claimed blocks have a link that is not free. */
  lemma NonFreeIffClaimed(d: Disk, chains: seq<seq<nat>>, b: nat)
    requires Consistent(d, chains) && b < |d.links|
    ensures d.links[b] != FREE <==> exists i :: Claims(d, chains, i, b)
  {
    if i :| Claims(d, chains, i, b) {
      LinkIsNotFree(d.links, chains[i], b);
    }
  }

  /** A start block determines its chain, when no block has the number of the end marker. */
  lemma {:induction false} ChainIsUnique(links: seq<nat>, c: seq<nat>, e: seq<nat>, k: nat)
    requires IsChain(links, c) && IsChain(links, e) && c[0] == e[0]
    requires forall l :: 0 <= l < |c| ==> c[l] != EOF
    requires forall l :: 0 <= l < |e| ==> e[l] != EOF
    requires k < |c|
    ensures k < |e| && c[k] == e[k]
    ensures k + 1 < |c| <==> k + 1 < |e|
  {
    if k > 0 {
      ChainIsUnique(links, c, e, k - 1);
      assert links[c[k - 1]] == c[k] && links[e[k - 1]] == e[k];
    }
    assert links[c[k]] == Next(c, k);
    assert links[e[k]] == Next(e, k);
  }

  // ---- the free blocks ----

  predicate IsFree(links: seq<nat>, b: nat) {
    b < |links| && links[b] == FREE
  }

  /** The free blocks among the first `n`, lowest first. */
  function FreeBlocks(links: seq<nat>, n: nat): seq<nat>
    decreases n, links
  {
    if n == 0 then []
    else if IsFree(links, n - 1) then FreeBlocks(links, n - 1) + [n - 1]
    else FreeBlocks(links, n - 1)
  }

  lemma {:induction false} FreeBlocksFacts(links: seq<nat>, n: nat)
    ensures var r := FreeBlocks(links, n);
      && Ascending(r)
      && (forall k :: 0 <= k < |r| ==> r[k] < n && IsFree(links, r[k]))
      && (forall b :: 0 <= b < n && IsFree(links, b) ==> b in r)
    decreases n
  {
    if n > 0 {
      FreeBlocksFacts(links, n - 1);
    }
  }

  lemma FreeBlocksNext(links: seq<nat>, m: nat, n: nat)
    requires m < n
    ensures FreeBlocks(links, m + 1) == if IsFree(links, m) then FreeBlocks(links, m) + [m] else FreeBlocks(links, m)
    ensures FreeBlocks(links, m + 1) <= FreeBlocks(links, n)
  {
    FreeBlocksPrefix(links, m + 1, n);
  }

  lemma {:induction false} FreeBlocksPrefix(links: seq<nat>, m: nat, n: nat)
    requires m <= n
    ensures FreeBlocks(links, m) <= FreeBlocks(links, n)
    decreases n
  {
    if m < n {
      FreeBlocksPrefix(links, m, n - 1);
    }
  }

  /** How many of the first `n` blocks belong to `c`. */
  ghost function CountBelow(c: seq<nat>, n: nat): nat
    decreases n, c
  {
    if n == 0 then 0 else CountBelow(c, n - 1) + if n - 1 in c then 1 else 0
  }

  lemma {:induction false} CountBelowAgrees(c: seq<nat>, e: seq<nat>, n: nat)
    requires forall b :: 0 <= b < n ==> (b in c <==> b in e)
    ensures CountBelow(c, n) == CountBelow(e, n)
    decreases n
  {
    if n > 0 {
      CountBelowAgrees(c, e, n - 1);
    }
  }

  lemma AscendingLast(c: seq<nat>, k: nat)
    requires Ascending(c) && k < |c|
    ensures c[k] <= c[|c| - 1]
  {
  }

  lemma {:induction false} CountBelowAll(c: seq<nat>, n: nat)
    requires Ascending(c) && forall k :: 0 <= k < |c| ==> c[k] < n
    ensures CountBelow(c, n) == |c|
    decreases n
  {
    if n == 0 {
    } else if n - 1 in c {
      var last := |c| - 1;
      var k :| 0 <= k < |c| && c[k] == n - 1;
      AscendingLast(c, k);
      CountBelowAll(c[..last], n - 1);
      forall b: nat | b < n - 1
        ensures b in c <==> b in c[..last]
      {
        if b in c {
          var l :| 0 <= l < |c| && c[l] == b;
          assert c[..last][l] == b;
        }
      }
      CountBelowAgrees(c, c[..last], n - 1);
    } else {
      CountBelowAll(c, n - 1);
    }
  }

  // ---- what the loops do to the map ----

  /** `after` is `before` with the blocks of `c` freed. */
  predicate Cleared(before: seq<nat>, after: seq<nat>, c: seq<nat>) {
    && |after| == |before|
    && forall b :: 0 <= b < |before| ==> after[b] == if b in c then FREE else before[b]
  }

  /** `after` is `before` with `c` linked as a chain. */
  predicate Linked(before: seq<nat>, after: seq<nat>, c: seq<nat>) {
    && |after| == |before| && IsChain(after, c)
    && forall b :: 0 <= b < |before| && b !in c ==> after[b] == before[b]
  }

  lemma ClearedFree(before: seq<nat>, after: seq<nat>, c: seq<nat>, b: nat)
    requires Cleared(before, after, c) && IsChain(before, c)
    ensures IsFree(after, b) <==> b in c || IsFree(before, b)
    ensures b in c ==> !IsFree(before, b)
  {
    if b in c {
      LinkIsNotFree(before, c, b);
    }
  }

  /** Freeing a chain makes as many blocks available as it had. */
  lemma {:induction false} ClearedCount(before: seq<nat>, after: seq<nat>, c: seq<nat>, n: nat)
    requires Cleared(before, after, c) && IsChain(before, c)
    ensures |FreeBlocks(after, n)| == |FreeBlocks(before, n)| + CountBelow(c, n)
    decreases n
  {
    hide Cleared, IsChain, IsFree;
    if n > 0 {
      ClearedCount(before, after, c, n - 1);
      ClearedFree(before, after, c, n - 1);
    }
  }
}
