/** The ChainFS operations on an image: chainfs.py:171-189 and 258-342. */
module ChainImage {
  import opened Bits
  import opened ChainMap
  import opened ChainFiles

  datatype Outcome = Written(index: nat) | NotAFile | NoEntry | NoSpace

  function Min(a: nat, b: nat): nat {
    if a < b then a else b
  }

  /** Cluster `k` of the joined clusters. */
  lemma {:induction false} JoinAt(data: seq<Cluster>, c: seq<nat>, k: nat)
    requires InData(data, c) && k < |c|
    ensures k * CLUSTER + CLUSTER <= |Join(data, c)|
    ensures Join(data, c)[k * CLUSTER..k * CLUSTER + CLUSTER] == data[c[k]]
    decreases |c|
  {
    var n := |c| - 1;
    if k < n {
      JoinAt(data, c[..n], k);
      assert Join(data, c)[..n * CLUSTER] == Join(data, c[..n]);
    }
  }

  predicate FirstUnused(entries: seq<Entry>, i: nat) {
    i < |entries| && entries[i].status == 0 && forall j :: 0 <= j < i ==> entries[j].status != 0
  }

  /** Entry `i`, and only it, now describes a file. */
  predicate Updated(before: seq<Entry>, after: seq<Entry>, i: nat, name: string, parent: nat, size: nat) {
    && i < |before| == |after|
    && after == before[i := Entry(1, FILE, name, size, after[i].start, parent)]
  }

  class Image {
    var links: seq<nat>
    var data: seq<Cluster>
    var entries: seq<Entry>
    ghost var chains: seq<seq<nat>>

    ghost function State(): Disk
      reads this
    {
      Disk(links, data, entries)
    }

    ghost predicate Valid()
      reads this
    {
      Consistent(State(), chains)
    }

    ghost function Stored(): map<nat, seq<byte>>
      requires Valid()
      reads this
    {
      Files(State(), chains)
    }

    function ReadLink(b: nat): Option<nat>
      reads this
    {
      if b < |links| then Some(links[b]) else None
    }

    /** The lowest `count` free data blocks, if there are so many. */
    method FindFreeBlocks(count: nat) returns (r: Option<seq<nat>>)
      requires count > 0
      ensures r.Some? <==> count <= |FreeBlocks(links, |data|)|
      ensures r.Some? ==> r.value == FreeBlocks(links, |data|)[..count]
    {
      hide FreeBlocks;
      var found: seq<nat> := [];
      assert FreeBlocks(links, 0) == [] by {
        NoBlocks(links);
      }
      for i := 0 to |data|
        invariant found == FreeBlocks(links, i) && |found| < count
      {
        var next := ReadLink(i);
        FreeBlocksNext(links, i, |data|);
        if next == Some(FREE) {
          found := found + [i];
          if |found| == count {
            return Some(found);
          }
        }
      }
      return None;
    }

    /** The first unused entry. */
    method FindFreeEntry() returns (r: Option<nat>)
      ensures r.None? ==> forall i :: 0 <= i < |entries| ==> entries[i].status != 0
      ensures r.Some? ==> FirstUnused(entries, r.value)
    {
      for i := 0 to |entries|
        invariant forall j :: 0 <= j < i ==> entries[j].status != 0
      {
        if entries[i].status == 0 {
          return Some(i);
        }
      }
      return None;
    }

    /** Frees the chain that starts at `start`. */
    method FreeBlockChain(start: nat, ghost c: seq<nat>)
      requires IsChain(links, c) && c[0] == start
      requires forall k :: 0 <= k < |c| ==> c[k] != EOF
      modifies this`links
      ensures Cleared(old(links), links, c)
    {
      hide Cleared, IsChain;
      var current := start;
      ghost var k := 0;
      NothingCleared(links, c);
      while current != EOF
        invariant k <= |c| && current == (if k < |c| then c[k] else EOF)
        invariant Cleared(old(links), links, c[..k])
        decreases |c| - k
      {
        ClearNext(old(links), links, c, k);
        var next := ReadLink(current);
        if next.None? {
          break;
        }
        links := links[current := FREE];
        current := next.value;
        k := k + 1;
      }
      assert c[..k] == c;
    }

    /** Writes the payload cluster by cluster and links the blocks. */
    method FillChain(blocks: seq<nat>, payload: seq<byte>)
      requires blocks != [] && Ascending(blocks) && InData(data, blocks)
      requires forall k :: 0 <= k < |blocks| ==> blocks[k] < |links|
      modifies this`links, this`data
      ensures Linked(old(links), links, blocks)
      ensures Kept(old(data), data, blocks) && Holds(data, blocks, payload)
    {
      hide LinkedUpTo, FilledUpTo, Chunk;
      var offset := 0;
      NothingFilled(links, data, blocks, payload);
      for i := 0 to |blocks|
        invariant offset == i * CLUSTER && |links| == |old(links)| && |data| == |old(data)|
        invariant LinkedUpTo(old(links), links, blocks, i)
        invariant FilledUpTo(old(data), data, blocks, payload, i)
      {
        var blk := blocks[i];
        var chunk := payload[Min(offset, |payload|)..Min(offset + CLUSTER, |payload|)];
        PaddedChunk(payload, i);
        FillNext(old(links), links, old(data), data, blocks, payload, i);
        offset := offset + CLUSTER;
        data := data[blk := chunk + Zeros(CLUSTER - |chunk|)];
        var next := if i + 1 < |blocks| then blocks[i + 1] else EOF;
        links := links[blk := next];
      }
      AllFilled(old(links), links, old(data), data, blocks, payload);
    }

    /** Gives `blocks` to entry `i`, which owns nothing in `d`. */
    method Place(i: nat, name: string, parent: nat, payload: seq<byte>, blocks: seq<nat>, ghost d: Disk)
      requires Consistent(d, chains) && i < |d.entries| == |chains| && !Live(d.entries[i])
      requires |entries| == |chains| && d == Disk(links, data, entries[i := d.entries[i]])
      requires Available(d, blocks) && |blocks| == BlocksFor(|payload|)
      modifies this
      ensures Valid() && Stored() == Files(d, old(chains))[i := payload]
      ensures chains == old(chains)[i := blocks]
      ensures entries == old(entries)[i := Entry(1, FILE, name, |payload|, blocks[0], parent)]
    {
      hide Consistent, Files, Linked, Kept, Holds;
      FillChain(blocks, payload);
      var e := Entry(1, FILE, name, |payload|, blocks[0], parent);
      entries := entries[i := e];
      StoreKeeps(d, chains, i, blocks, State(), e, payload);
      chains := chains[i := blocks];
    }

    /** What a write may use: the free blocks, and those of the file it replaces. */
    ghost function Room(existing: Option<nat>): nat
      requires Valid() && (existing.Some? ==> existing.value < |entries|)
      reads this
    {
      |FreeBlocks(links, |data|)| +
      if existing.Some? then BlocksFor(entries[existing.value].size) else 0
    }

    /**
     * Stores a payload in the entry that the path resolved to, or in the first unused one. When an
     * existing file is replaced its old chain is freed before room is looked for.
     */
    method WriteFile(existing: Option<nat>, name: string, parent: nat, payload: seq<byte>) returns (r: Outcome)
      requires Valid()
      requires existing.Some? ==> existing.value < |entries| && entries[existing.value].status == 1
      requires |payload| <= 0xFFFF_FFFF
      modifies this
      ensures r.NotAFile? <==> existing.Some? && old(entries)[existing.value].kind != FILE
      ensures r.NoEntry? <==> existing.None? && forall i :: 0 <= i < |old(entries)| ==> old(entries)[i].status != 0
      ensures r.NoSpace? <==> !r.NotAFile? && !r.NoEntry? && old(Room(existing)) < BlocksFor(|payload|)
      ensures r.NotAFile? || r.NoEntry? || (r.NoSpace? && existing.None?) ==> unchanged(this)
      ensures r.Written? ==> Valid() && Stored() == old(Stored())[r.index := payload]
      ensures r.Written? && existing.Some? ==> r.index == existing.value
      ensures r.Written? && existing.None? ==> FirstUnused(old(entries), r.index)
      ensures r.Written? ==> Updated(old(entries), entries, r.index, name, parent, |payload|)
      ensures r.NoSpace? && existing.Some? ==>
        && data == old(data) && entries == old(entries)
        && Cleared(old(links), links, old(chains)[existing.value])
        && forall cs :: !Consistent(State(), cs)
    {
      hide Consistent, Files, FreeBlocks, Cleared, Available;
      ghost var d := State();
      ConsistentLength(d, chains);
      var i;
      if existing.Some? {
        i := existing.value;
        if entries[i].kind != FILE {
          return NotAFile;
        }
        OwnerFacts(d, chains, i);
        FreeBlockChain(entries[i].start, chains[i]);
        RemoveKeeps(d, chains, i, links, entries[i].(status := 0));
        RoomAfterClearing(d, chains, i, links);
        d := Removed(d, i, links, entries[i].(status := 0));
      } else {
        var free := FindFreeEntry();
        if free.None? {
          return NoEntry;
        }
        i := free.value;
        assert entries[i := d.entries[i]] == entries;
      }
      var blocks := FindFreeBlocks(BlocksFor(|payload|));
      if blocks.None? {
        if existing.Some? {
          ClearedStart(old(links), links, old(chains)[i], entries[i].start);
          forall cs
            ensures !Consistent(State(), cs)
          {
            FreedStartIsInconsistent(State(), cs, i);
          }
        }
        return NoSpace;
      }
      FreeRunAvailable(d, BlocksFor(|payload|));
      Place(i, name, parent, payload, blocks.value, d);
      return Written(i);
    }

    /** Reads the entry that the path resolved to; anything but a file is refused. */
    method ReadFile(target: Option<nat>) returns (r: Option<seq<byte>>)
      requires Valid()
      requires target.Some? ==> target.value < |entries| && entries[target.value].status == 1
      ensures r.Some? <==> target.Some? && entries[target.value].kind == FILE
      ensures r.Some? ==> target.value in Stored() && r.value == Stored()[target.value]
    {
      hide Consistent, Owns, Join;
      if target.None? || entries[target.value].kind != FILE {
        return None;
      }
      var i := target.value;
      ReadStart(State(), chains, i);
      ghost var c := chains[i];
      var remaining := entries[i].size;
      var out: seq<byte> := [];
      var current := entries[i].start;
      ghost var k := 0;
      while remaining > 0 && current != EOF
        invariant Reading(State(), entries[i], c, k, out, remaining, current)
        decreases remaining
      {
        ReadNext(State(), entries[i], c, k, out, remaining, current);
        var block := data[current];
        var take := Min(remaining, CLUSTER);
        out := out + block[..take];
        remaining := remaining - take;
        if remaining > 0 {
          var next := ReadLink(current);
          if next.None? {
            break;
          }
          current := next.value;
          k := k + 1;
        }
      }
      ReadDone(State(), entries[i], c, k, out, remaining, current);
      return Some(out);
    }

    /** Frees the chain of a file and its entry. */
    method DeleteFile(target: Option<nat>) returns (ok: bool)
      requires Valid()
      requires target.Some? ==> target.value < |entries| && entries[target.value].status == 1
      modifies this`links, this`entries
      ensures ok <==> target.Some? && old(entries)[target.value].kind == FILE
      ensures Valid()
      ensures Stored() == if ok then old(Stored()) - {target.value} else old(Stored())
      ensures ok ==> entries == old(entries)[target.value := old(entries)[target.value].(status := 0)]
      ensures !ok ==> unchanged(this)
    {
      hide Consistent, Files, Cleared;
      if target.None? || entries[target.value].kind != FILE {
        return false;
      }
      var i := target.value;
      ghost var d := State();
      OwnerFacts(d, chains, i);
      ConsistentLength(d, chains);
      FreeBlockChain(entries[i].start, chains[i]);
      RemoveKeeps(d, chains, i, links, entries[i].(status := 0));
      entries := entries[i := entries[i].(status := 0)];
      return true;
    }
  }

  lemma NoBlocks(links: seq<nat>)
    ensures FreeBlocks(links, 0) == []
  {
  }

  lemma NothingCleared(links: seq<nat>, c: seq<nat>)
    requires IsChain(links, c)
    ensures c != [] && Cleared(links, links, c[..0])
  {
  }

  /** The next link of a rising chain is still there when its block is freed. */
  lemma ClearNext(before: seq<nat>, after: seq<nat>, c: seq<nat>, k: nat)
    requires IsChain(before, c) && k < |c| && Cleared(before, after, c[..k])
    ensures c[k] < |after| && after[c[k]] == Next(c, k)
    ensures Cleared(before, after[c[k] := FREE], c[..k + 1])
  {
    assert c[k] !in c[..k];
    assert before[c[k]] == Next(c, k);
    assert c[..k + 1] == c[..k] + [c[k]];
  }

  // ---- the loop that fills a chain ----

  ghost predicate LinkedUpTo(before: seq<nat>, links: seq<nat>, c: seq<nat>, n: nat)
    requires n <= |c|
  {
    && |links| == |before|
    && (forall k :: 0 <= k < n ==> c[k] < |links| && links[c[k]] == Next(c, k))
    && forall b :: 0 <= b < |links| && b !in c[..n] ==> links[b] == before[b]
  }

  ghost predicate FilledUpTo(
    before: seq<Cluster>, data: seq<Cluster>, c: seq<nat>, payload: seq<byte>, n: nat)
    requires n <= |c|
  {
    && |data| == |before|
    && (forall k :: 0 <= k < n ==> c[k] < |data| && data[c[k]] == Chunk(payload, k))
    && forall b :: 0 <= b < |data| && b !in c[..n] ==> data[b] == before[b]
  }

  lemma NothingFilled(links: seq<nat>, data: seq<Cluster>, c: seq<nat>, payload: seq<byte>)
    ensures LinkedUpTo(links, links, c, 0) && FilledUpTo(data, data, c, payload, 0)
  {
  }

  lemma PaddedChunk(payload: seq<byte>, k: nat)
    ensures var offset := k * CLUSTER;
      var chunk := payload[Min(offset, |payload|)..Min(offset + CLUSTER, |payload|)];
      |chunk| <= CLUSTER && chunk + Zeros(CLUSTER - |chunk|) == Chunk(payload, k)
  {
  }

  lemma FillNext(
    links0: seq<nat>, links: seq<nat>, data0: seq<Cluster>, data: seq<Cluster>, c: seq<nat>, payload: seq<byte>, i: nat)
    requires Ascending(c) && i < |c| && c[i] < |links| && c[i] < |data|
    requires LinkedUpTo(links0, links, c, i) && FilledUpTo(data0, data, c, payload, i)
    ensures LinkedUpTo(links0, links[c[i] := Next(c, i)], c, i + 1)
    ensures FilledUpTo(data0, data[c[i] := Chunk(payload, i)], c, payload, i + 1)
  {
    hide Chunk;
    assert c[..i + 1] == c[..i] + [c[i]];
  }

  lemma AllFilled(
    links0: seq<nat>, links: seq<nat>, data0: seq<Cluster>, data: seq<Cluster>, c: seq<nat>, payload: seq<byte>)
    requires c != [] && Ascending(c)
    requires LinkedUpTo(links0, links, c, |c|) && FilledUpTo(data0, data, c, payload, |c|)
    ensures Linked(links0, links, c) && Kept(data0, data, c) && Holds(data, c, payload)
  {
    hide Chunk;
    assert c[..|c|] == c;
  }

  // ---- facts the write needs ----

  lemma ConsistentLength(d: Disk, chains: seq<seq<nat>>)
    requires Consistent(d, chains)
    ensures |chains| == |d.entries|
  {
  }

  lemma OwnerFacts(d: Disk, chains: seq<seq<nat>>, i: nat)
    requires Consistent(d, chains) && i < |d.entries| && Live(d.entries[i])
    ensures i < |chains| && Owns(d, d.entries[i], chains[i])
    ensures forall k :: 0 <= k < |chains[i]| ==> chains[i][k] != EOF
  {
  }

  /** The freed chain adds its length to the room. */
  lemma RoomAfterClearing(d: Disk, chains: seq<seq<nat>>, i: nat, links: seq<nat>)
    requires Consistent(d, chains) && i < |d.entries| == |chains| && Live(d.entries[i])
    requires Cleared(d.links, links, chains[i])
    ensures |FreeBlocks(links, |d.data|)| == |FreeBlocks(d.links, |d.data|)| + BlocksFor(d.entries[i].size)
  {
    hide FreeBlocks, Cleared, CountBelow;
    OwnerFacts(d, chains, i);
    ClearedCount(d.links, links, chains[i], |d.data|);
    CountBelowAll(chains[i], |d.data|);
  }

  lemma ClearedStart(before: seq<nat>, after: seq<nat>, c: seq<nat>, start: nat)
    requires IsChain(before, c) && Cleared(before, after, c) && start == c[0]
    ensures IsFree(after, start)
  {
  }

  lemma FreeRunAvailable(d: Disk, n: nat)
    requires 0 < n <= |FreeBlocks(d.links, |d.data|)|
    ensures Available(d, FreeBlocks(d.links, |d.data|)[..n])
  {
    hide FreeBlocks;
    FreeBlocksFacts(d.links, |d.data|);
  }

  // ---- the loop that reads a chain ----

  /** `out` is what has been read, and the next cluster is the one of `current`. */
  ghost predicate Reading(
    d: Disk, e: Entry, c: seq<nat>, k: nat, out: seq<byte>, remaining: nat, current: nat)
  {
    && Owns(d, e, c) && |d.data| <= EOF && |out| + remaining == e.size
    && out == Content(d, e, c)[..|out|]
    && (remaining > 0 ==> k < |c| && current == c[k] && |out| == k * CLUSTER)
  }

  lemma ReadStart(d: Disk, chains: seq<seq<nat>>, i: nat)
    requires Consistent(d, chains) && i < |d.entries| && Live(d.entries[i])
    ensures i < |chains| && Reading(d, d.entries[i], chains[i], 0, [], d.entries[i].size, d.entries[i].start)
    ensures i in Files(d, chains) && Files(d, chains)[i] == Content(d, d.entries[i], chains[i])
  {
    hide Join;
  }

  lemma ReadNext(d: Disk, e: Entry, c: seq<nat>, k: nat, out: seq<byte>, remaining: nat, current: nat)
    requires Reading(d, e, c, k, out, remaining, current) && remaining > 0
    ensures current < |d.data| && current < |d.links|
    ensures var take := Min(remaining, CLUSTER);
      var more := out + d.data[current][..take];
      if remaining > take then Reading(d, e, c, k + 1, more, remaining - take, d.links[current])
      else Reading(d, e, c, k, more, remaining - take, current)
  {
    hide Join, IsChain;
    var take := Min(remaining, CLUSTER);
    assert d.links[c[k]] == Next(c, k) && c[k] < |d.data| by {
      NextLink(d, e, c, k);
    }
    JoinAt(d.data, c, k);
    BlocksCover(e.size);
    PrefixGrows(Join(d.data, c), e.size, out, d.data[current], take);
    if remaining > take {
      MoreBlocks(k, |c|, e.size);
    }
  }

  lemma NextLink(d: Disk, e: Entry, c: seq<nat>, k: nat)
    requires Owns(d, e, c) && k < |c|
    ensures c[k] < |d.links| && d.links[c[k]] == Next(c, k) && c[k] < |d.data|
  {
  }

  lemma MoreBlocks(k: nat, n: nat, size: nat)
    requires n == BlocksFor(size) && size > k * CLUSTER + CLUSTER
    ensures k + 1 < n
  {
  }

  lemma PrefixGrows(all: seq<byte>, size: nat, out: seq<byte>, block: Cluster, take: nat)
    requires |out| + take <= size <= |all| && take <= CLUSTER && out == all[..size][..|out|]
    requires |out| + CLUSTER <= |all| && all[|out|..|out| + CLUSTER] == block
    ensures out + block[..take] == all[..size][..|out| + take]
  {
    var at := |out|;
    assert all[at..at + take] == block[..take];
  }

  lemma ReadDone(d: Disk, e: Entry, c: seq<nat>, k: nat, out: seq<byte>, remaining: nat, current: nat)
    requires Reading(d, e, c, k, out, remaining, current) && (remaining == 0 || current == EOF)
    ensures Owns(d, e, c) && out == Content(d, e, c)
  {
    hide Join;
  }

  // ---- an overwrite can lose the old file ----

  /** One block, one empty file in it. */
  ghost function TinyDisk(): Disk {
    Disk([EOF], [Zeros(CLUSTER)], [Entry(1, FILE, "a", 0, 0, 0)])
  }

  /** A consistent image on which replacing the only file by a longer one finds no room. */
  lemma OverwriteCanFindNoRoom()
    ensures Consistent(TinyDisk(), [[0]])
    ensures |FreeBlocks(TinyDisk().links, 1)| + BlocksFor(0) < BlocksFor(CLUSTER + 1)
  {
    var d := TinyDisk();
    assert Claims(d, [[0]], 0, 0);
    assert !IsFree(d.links, 0);
    assert FreeBlocks(d.links, 1) == FreeBlocks(d.links, 0);
  }
}
