/** Sequences of ChainFS writes and deletes on one image: chainfs.py:258-342. */
module ChainRuns {
  import opened Bits
  import opened ChainMap
  import opened ChainFiles
  import opened ChainImage

  /** `slot` is where the path was found, if it was. */
  datatype Op = Write(slot: Option<nat>, name: string, parent: nat, payload: seq<byte>) | Delete(slot: Option<nat>)

  /** What an operation did to the files. */
  datatype Effect = Stored(index: nat, payload: seq<byte>) | Dropped(index: nat) | Nothing

  function Apply(files: map<nat, seq<byte>>, e: Effect): map<nat, seq<byte>> {
    match e
    case Stored(index, payload) => files[index := payload]
    case Dropped(index) => files - {index}
    case Nothing => files
  }

  function Replay(files: map<nat, seq<byte>>, log: seq<Effect>): map<nat, seq<byte>> {
    if log == [] then files else Apply(Replay(files, log[..|log| - 1]), log[|log| - 1])
  }

  predicate Touches(e: Effect, i: nat) {
    (e.Stored? || e.Dropped?) && e.index == i
  }

  /** After a run a file holds what was last stored in it, until it is dropped. */
  lemma {:induction false} LastWriteWins(files: map<nat, seq<byte>>, log: seq<Effect>, k: nat)
    requires k < |log| && log[k].Stored?
    requires forall j :: k < j < |log| ==> !Touches(log[j], log[k].index)
    ensures log[k].index in Replay(files, log) && Replay(files, log)[log[k].index] == log[k].payload
    decreases |log|
  {
    var n := |log| - 1;
    if k < n {
      LastWriteWins(files, log[..n], k);
      assert !Touches(log[n], log[k].index);
    }
  }

  /** A file no operation of the run touches stays as it was. */
  lemma {:induction false} OthersStay(files: map<nat, seq<byte>>, log: seq<Effect>, i: nat)
    requires forall j :: 0 <= j < |log| ==> !Touches(log[j], i)
    ensures i in Replay(files, log) <==> i in files
    ensures i in files ==> Replay(files, log)[i] == files[i]
    decreases |log|
  {
    if log != [] {
      OthersStay(files, log[..|log| - 1], i);
      assert !Touches(log[|log| - 1], i);
    }
  }

  /** The entry a path led to, if it is in use. */
  function InUse(entries: seq<Entry>, slot: Option<nat>): (r: Option<nat>)
    ensures r.Some? ==> r.value < |entries| && entries[r.value].status == 1
  {
    if slot.Some? && slot.value < |entries| && entries[slot.value].status == 1 then slot else None
  }

  /** The effect is of the kind the operation asks for. */
  predicate Follows(op: Op, e: Effect) {
    match e
    case Stored(_, payload) => op.Write? && payload == op.payload
    case Dropped(index) => op.Delete? && op.slot == Some(index)
    case Nothing => true
  }

  /** There are fewer blocks for the payload than it needs, those of the file it replaces
      included. */
  ghost predicate Cramped(d: Disk, op: Op)
    requires op.Write?
  {
    var at := InUse(d.entries, op.slot);
    |FreeBlocks(d.links, |d.data|)| + (if at.Some? then BlocksFor(d.entries[at.value].size) else 0) < BlocksFor(|op.payload|)
  }

  /** The operation is turned down and changes nothing: its path does not lead to a file,
      or a new file finds no entry or no room. */
  ghost predicate Refused(d: Disk, op: Op) {
    var at := InUse(d.entries, op.slot);
    if op.Delete? then at.None? || d.entries[at.value].kind != FILE
    else if at.Some? then d.entries[at.value].kind != FILE
    else (forall i :: 0 <= i < |d.entries| ==> d.entries[i].status != 0) || Cramped(d, op)
  }

  /** An overwrite of a file that frees its blocks and then finds no room. */
  ghost predicate Breaks(d: Disk, op: Op) {
    op.Write? && InUse(d.entries, op.slot).Some? && !Refused(d, op) && Cramped(d, op)
  }

  /** One operation; fails only when an overwrite frees the old file and then finds no room. */
  method Perform(image: Image, op: Op) returns (ok: bool, e: Effect)
    requires image.Valid() && (op.Write? ==> |op.payload| <= 0xFFFF_FFFF)
    modifies image
    ensures Follows(op, e)
    ensures ok ==> image.Valid() && image.Stored() == Apply(old(image.Stored()), e)
    ensures !ok <==> Breaks(old(image.State()), op)
    ensures ok ==> (e.Nothing? <==> Refused(old(image.State()), op))
    ensures e.Nothing? && ok ==> unchanged(image)
  {
    match op
    case Write(slot, name, parent, payload) =>
      var existing := InUse(image.entries, slot);
      var r := image.WriteFile(existing, name, parent, payload);
      if r.Written? {
        return true, Stored(r.index, payload);
      }
      return !(r.NoSpace? && existing.Some?), Nothing;
    case Delete(slot) =>
      var target := InUse(image.entries, slot);
      var done := image.DeleteFile(target);
      return true, if done then Dropped(target.value) else Nothing;
  }

  /** Any sequence of writes and deletes: as long as no overwrite runs out of room, the
      image stays consistent and stores exactly what its operations, in order, left. A run
      stops only at an overwrite without room, on a consistent image `before` that stores
      what the operations so far left. */
  method RunAll(image: Image, ops: seq<Op>) returns (ok: bool, log: seq<Effect>, ghost before: (Disk, seq<seq<nat>>))
    requires image.Valid() && forall i :: 0 <= i < |ops| && ops[i].Write? ==> |ops[i].payload| <= 0xFFFF_FFFF
    modifies image
    ensures |log| <= |ops| && (ok <==> |log| == |ops|)
    ensures forall i :: 0 <= i < |log| ==> Follows(ops[i], log[i])
    ensures ok ==> image.Valid() && image.Stored() == Replay(old(image.Stored()), log)
    ensures !ok ==> Breaks(before.0, ops[|log|])
    ensures !ok ==> Consistent(before.0, before.1) && Files(before.0, before.1) == Replay(old(image.Stored()), log)
  {
    log := [];
    before := (image.State(), image.chains);
    ghost var files := image.Stored();
    for k := 0 to |ops|
      invariant |log| == k && forall i :: 0 <= i < k ==> Follows(ops[i], log[i])
      invariant image.Valid() && image.Stored() == Replay(files, log)
    {
      before := (image.State(), image.chains);
      var good, e := Perform(image, ops[k]);
      if !good {
        return false, log, before;
      }
      assert (log + [e])[..k] == log;
      log := log + [e];
    }
    return true, log, before;
  }
}
