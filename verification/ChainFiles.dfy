/** What the operations of ChainFS keep: the files a consistent image holds, and how freeing and
    linking a chain change them. */
module ChainFiles {
  import opened Bits
  import opened ChainMap

  predicate InData(data: seq<Cluster>, c: seq<nat>) {
    forall k :: 0 <= k < |c| ==> c[k] < |data|
  }

  /** The clusters of `c`, one after the other. */
  ghost function Join(data: seq<Cluster>, c: seq<nat>): (r: seq<byte>)
    requires InData(data, c)
    ensures |r| == |c| * CLUSTER
    decreases |c|, data
  {
    if c == [] then [] else Join(data, c[..|c| - 1]) + data[c[|c| - 1]]
  }

  lemma {:induction false} JoinFrame(data: seq<Cluster>, after: seq<Cluster>, c: seq<nat>)
    requires InData(data, c) && |after| == |data|
    requires forall k :: 0 <= k < |c| ==> after[c[k]] == data[c[k]]
    ensures Join(after, c) == Join(data, c)
    decreases |c|
  {
    if c != [] {
      JoinFrame(data, after, c[..|c| - 1]);
    }
  }

  /** Cluster `k` of a payload: the last one is filled up with zeros. */
  function Chunk(payload: seq<byte>, k: nat): Cluster {
    if (k + 1) * CLUSTER <= |payload| then payload[k * CLUSTER..(k + 1) * CLUSTER]
    else if k * CLUSTER <= |payload| then payload[k * CLUSTER..] + Zeros((k + 1) * CLUSTER - |payload|)
    else Zeros(CLUSTER)
  }

  /** The clusters of `c` hold `payload`. */
  predicate Holds(data: seq<Cluster>, c: seq<nat>, payload: seq<byte>) {
    InData(data, c) && forall k :: 0 <= k < |c| ==> data[c[k]] == Chunk(payload, k)
  }

  lemma {:induction false} JoinWhole(data: seq<Cluster>, c: seq<nat>, payload: seq<byte>)
    requires Holds(data, c, payload) && |c| * CLUSTER <= |payload|
    ensures Join(data, c) == payload[..|c| * CLUSTER]
    decreases |c|
  {
    if c != [] {
      var n := |c| - 1;
      JoinWhole(data, c[..n], payload);
      assert data[c[n]] == Chunk(payload, n);
    }
  }

  lemma BlocksCover(size: nat)
    ensures (BlocksFor(size) - 1) * CLUSTER <= size <= BlocksFor(size) * CLUSTER
    ensures BlocksFor(size) >= 1
  {
  }

  /** Reading back what was written. */
  lemma JoinHolds(data: seq<Cluster>, c: seq<nat>, payload: seq<byte>)
    requires Holds(data, c, payload) && |c| == BlocksFor(|payload|)
    ensures |payload| <= |c| * CLUSTER && Join(data, c)[..|payload|] == payload
  {
    BlocksCover(|payload|);
    var n := |c| - 1;
    JoinWhole(data, c[..n], payload);
    assert data[c[n]] == Chunk(payload, n);
    var whole := payload[..n * CLUSTER];
    assert Join(data, c) == whole + data[c[n]];
    assert payload == whole + payload[n * CLUSTER..];
  }

  /** The bytes of an entry. */
  ghost function Content(d: Disk, e: Entry, c: seq<nat>): seq<byte>
    requires Owns(d, e, c)
  {
    BlocksCover(e.size);
    Join(d.data, c)[..e.size]
  }

  /** What a consistent image stores, by entry index. */
  ghost function Files(d: Disk, chains: seq<seq<nat>>): map<nat, seq<byte>>
    requires Consistent(d, chains)
  {
    map i: nat | i < |d.entries| && Live(d.entries[i]) :: Content(d, d.entries[i], chains[i])
  }

  // ---- freeing a chain and its entry ----

  ghost function Removed(d: Disk, i: nat, links: seq<nat>, e: Entry): Disk
    requires i < |d.entries|
  {
    Disk(links, d.data, d.entries[i := e])
  }

  lemma OwnsAfterClearing(d: Disk, links: seq<nat>, c: seq<nat>, e: Entry, own: seq<nat>, entries: seq<Entry>)
    requires Cleared(d.links, links, c) && Owns(d, e, own) && Disjoint(c, own)
    ensures Owns(Disk(links, d.data, entries), e, own)
  {
    forall k | 0 <= k < |own|
      ensures links[own[k]] == Next(own, k)
    {
      assert d.links[own[k]] == Next(own, k);
    }
  }

  lemma DisjointSwaps(c: seq<nat>, e: seq<nat>)
    requires Disjoint(c, e)
    ensures Disjoint(e, c)
  {
  }

  lemma OthersDisjoint(d: Disk, chains: seq<seq<nat>>, i: nat, j: nat)
    requires Consistent(d, chains) && i < |chains| && j < |chains| && i != j
    requires Live(d.entries[i]) && Live(d.entries[j])
    ensures Disjoint(chains[i], chains[j])
  {
    if j < i {
      DisjointSwaps(chains[j], chains[i]);
    }
  }

  lemma RemoveConsistent(d: Disk, chains: seq<seq<nat>>, i: nat, links: seq<nat>, e: Entry)
    requires Consistent(d, chains) && i < |chains| && Live(d.entries[i])
    requires Cleared(d.links, links, chains[i]) && !Live(e)
    ensures Consistent(Removed(d, i, links, e), chains)
  {
    hide Owns, Disjoint, Live;
    var r := Removed(d, i, links, e);
    forall j | 0 <= j < |chains| && Live(r.entries[j])
      ensures Owns(r, r.entries[j], chains[j])
    {
      OthersDisjoint(d, chains, i, j);
      OwnsAfterClearing(d, links, chains[i], d.entries[j], chains[j], r.entries);
    }
    forall b | 0 <= b < |links| && links[b] != FREE
      ensures exists j :: Claims(r, chains, j, b)
    {
      var j :| Claims(d, chains, j, b);
      assert Claims(r, chains, j, b);
    }
  }

  /** Freeing entry `i`'s chain and marking it unused keeps every other file. */
  lemma RemoveKeeps(d: Disk, chains: seq<seq<nat>>, i: nat, links: seq<nat>, e: Entry)
    requires Consistent(d, chains) && i < |chains| == |d.entries| && Live(d.entries[i])
    requires Cleared(d.links, links, chains[i]) && !Live(e)
    ensures Consistent(Removed(d, i, links, e), chains)
    ensures Files(Removed(d, i, links, e), chains) == Files(d, chains) - {i}
  {
    hide Owns, Disjoint, Live, Cleared, Join, Consistent;
    RemoveConsistent(d, chains, i, links, e);
    var r := Removed(d, i, links, e);
    var before, after := Files(d, chains), Files(r, chains);
    assert |r.entries| == |d.entries|;
    forall j: nat
      ensures j in after <==> j in before && j != i
      ensures j in after ==> after[j] == before[j]
    {
    }
  }

  // ---- linking a new chain ----

  /** `c` can be given to a file: a rising run of free data blocks. */
  predicate Available(d: Disk, c: seq<nat>) {
    c != [] && Ascending(c) && forall k :: 0 <= k < |c| ==> c[k] < |d.data| && IsFree(d.links, c[k])
  }

  /** `data` is `before` except on the blocks of `c`. */
  predicate Kept(before: seq<Cluster>, data: seq<Cluster>, c: seq<nat>) {
    |data| == |before| && forall b :: 0 <= b < |data| && b !in c ==> data[b] == before[b]
  }

  lemma FreshDisjoint(d: Disk, c: seq<nat>, e: Entry, own: seq<nat>)
    requires Available(d, c) && Owns(d, e, own)
    ensures Disjoint(c, own) && Disjoint(own, c)
  {
    forall k, l | 0 <= k < |c| && 0 <= l < |own|
      ensures c[k] != own[l]
    {
      LinkIsNotFree(d.links, own, own[l]);
    }
  }

  lemma OwnsAfterLinking(d: Disk, after: Disk, c: seq<nat>, e: Entry, own: seq<nat>)
    requires Linked(d.links, after.links, c) && |after.data| == |d.data| && Owns(d, e, own) && Disjoint(c, own)
    ensures Owns(after, e, own)
  {
    forall k | 0 <= k < |own|
      ensures after.links[own[k]] == Next(own, k)
    {
      assert d.links[own[k]] == Next(own, k);
    }
  }

  lemma ContentAfterLinking(d: Disk, after: Disk, c: seq<nat>, e: Entry, own: seq<nat>)
    requires Owns(d, e, own) && Owns(after, e, own) && Disjoint(c, own) && Kept(d.data, after.data, c)
    ensures Content(after, e, own) == Content(d, e, own)
  {
    JoinFrame(d.data, after.data, own);
  }

  lemma StoreConsistent(d: Disk, chains: seq<seq<nat>>, i: nat, c: seq<nat>, after: Disk, e: Entry)
    requires Consistent(d, chains) && i < |chains| == |d.entries| && !Live(d.entries[i])
    requires Available(d, c) && Linked(d.links, after.links, c) && |after.data| == |d.data|
    requires after.entries == d.entries[i := e] && Live(e) && Owns(after, e, c)
    ensures Consistent(after, chains[i := c])
  {
    hide Owns, Disjoint, Live, Available, IsChain;
    var now := chains[i := c];
    forall j | 0 <= j < |now| && j != i && Live(after.entries[j])
      ensures Owns(after, after.entries[j], now[j]) && Disjoint(c, now[j]) && Disjoint(now[j], c)
    {
      FreshDisjoint(d, c, d.entries[j], chains[j]);
      OwnsAfterLinking(d, after, c, d.entries[j], chains[j]);
    }
    forall b | 0 <= b < |after.links| && after.links[b] != FREE
      ensures exists j :: Claims(after, now, j, b)
    {
      if b in c {
        assert Claims(after, now, i, b);
      } else {
        var j :| Claims(d, chains, j, b);
        assert Claims(after, now, j, b);
      }
    }
  }

  lemma NewOwner(d: Disk, after: Disk, c: seq<nat>, e: Entry, payload: seq<byte>)
    requires Available(d, c) && |c| == BlocksFor(|payload|)
    requires Linked(d.links, after.links, c) && Holds(after.data, c, payload)
    requires e.size == |payload| && e.start == c[0]
    ensures Owns(after, e, c) && Content(after, e, c) == payload
  {
    JoinHolds(after.data, c, payload);
  }

  /** The file of another entry is where and what it was. */
  lemma OthersKept(d: Disk, chains: seq<seq<nat>>, c: seq<nat>, after: Disk, j: nat)
    requires Consistent(d, chains) && j < |d.entries| && Live(d.entries[j])
    requires Available(d, c) && Linked(d.links, after.links, c) && Kept(d.data, after.data, c)
    ensures Owns(d, d.entries[j], chains[j]) && Owns(after, d.entries[j], chains[j])
    ensures Content(after, d.entries[j], chains[j]) == Content(d, d.entries[j], chains[j])
  {
    hide Join, Live, Disjoint;
    FreshDisjoint(d, c, d.entries[j], chains[j]);
    OwnsAfterLinking(d, after, c, d.entries[j], chains[j]);
    ContentAfterLinking(d, after, c, d.entries[j], chains[j]);
  }

  /** Linking a new chain for entry `i` and filling it stores the payload and keeps every other file. */
  lemma StoreKeeps(
    d: Disk, chains: seq<seq<nat>>, i: nat, c: seq<nat>, after: Disk, e: Entry, payload: seq<byte>)
    requires Consistent(d, chains) && i < |chains| == |d.entries| && !Live(d.entries[i])
    requires Available(d, c) && |c| == BlocksFor(|payload|)
    requires Linked(d.links, after.links, c) && Kept(d.data, after.data, c) && Holds(after.data, c, payload)
    requires after.entries == d.entries[i := e] && Live(e) && e.size == |payload| && e.start == c[0]
    ensures Consistent(after, chains[i := c])
    ensures Files(after, chains[i := c]) == Files(d, chains)[i := payload]
  {
    hide Disjoint, Live, Join, IsChain, Linked, Kept, Owns, Holds, Available;
    NewOwner(d, after, c, e, payload);
    assert |after.data| == |d.data| by {
      KeptLength(d.data, after.data, c);
    }
    StoreConsistent(d, chains, i, c, after, e);
    var now := chains[i := c];
    var old', new' := Files(d, chains), Files(after, now);
    forall j: nat | j < |d.entries| && j != i && Live(d.entries[j])
      ensures j in old' && j in new' && new'[j] == old'[j]
    {
      OthersKept(d, chains, c, after, j);
    }
    assert new'[i] == payload;
  }

  lemma KeptLength(before: seq<Cluster>, data: seq<Cluster>, c: seq<nat>)
    requires Kept(before, data, c)
    ensures |data| == |before|
  {
  }

  /** A live entry whose start block is free belongs to no consistent image, whatever the chains. */
  lemma FreedStartIsInconsistent(d: Disk, chains: seq<seq<nat>>, i: nat)
    requires i < |d.entries| && Live(d.entries[i]) && IsFree(d.links, d.entries[i].start)
    ensures !Consistent(d, chains)
  {
    if Consistent(d, chains) {
      LinkIsNotFree(d.links, chains[i], d.entries[i].start);
    }
  }

  /** Every run starts from a formatted image: no link set and no file. */
  lemma FormattedImage(d: Disk, chains: seq<seq<nat>>)
    requires |d.data| <= EOF && |chains| == |d.entries|
    requires forall b :: 0 <= b < |d.links| ==> d.links[b] == FREE
    requires forall i :: 0 <= i < |d.entries| ==> !Live(d.entries[i])
    ensures Consistent(d, chains) && Files(d, chains) == map[]
  {
  }
}
