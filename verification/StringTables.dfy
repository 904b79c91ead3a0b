/** Tables of zero-terminated names, as tools/kofo_pack.py:147-160 and tools/hivec.py:406-418 build
    them and src/kernel/kofo.c:216-230 reads them. */
module StringTables {
  import opened Bits

  type Name = seq<byte>

  /** The offset that stands for no name. */
  const NONE: nat := 0xFFFF_FFFF

  /** The name that starts at `off`: it needs a terminating zero inside the table. */
  function CStr(strings: seq<byte>, off: nat): Option<seq<byte>> {
    if off == NONE || off >= |strings| then None
    else
      var end := FindZero(strings, off);
      if end == |strings| then None else Some(strings[off..end])
  }

  /** The first zero from `i` on; the length when there is none. */
  function FindZero(s: seq<byte>, i: nat): (k: nat)
    requires i <= |s|
    ensures i <= k <= |s| && (k < |s| ==> s[k] == 0)
    ensures forall j :: i <= j < k ==> s[j] != 0
    decreases |s| - i
  {
    if i == |s| || s[i] == 0 then i else FindZero(s, i + 1)
  }

  /** `v` and a terminating zero stand at `off`. */
  predicate Stands(data: seq<byte>, off: nat, v: Name) {
    off + |v| < |data| && data[off..off + |v|] == v && data[off + |v|] == 0
  }

  ghost predicate Indexed(data: seq<byte>, offsets: map<Name, nat>) {
    forall v :: v in offsets ==> Stands(data, offsets[v], v)
  }

  lemma GrownTable(data: seq<byte>, offsets: map<Name, nat>, v: Name)
    requires Indexed(data, offsets)
    ensures Indexed(data + v + [0], offsets[v := |data|])
  {
    var grown, more := data + v + [0], offsets[v := |data|];
    forall n | n in more
      ensures Stands(grown, more[n], n)
    {
      if n != v {
        var off := offsets[n];
        assert grown[off..off + |n|] == data[off..off + |n|];
      }
    }
  }

  predicate NulFree(v: Name) {
    forall i :: 0 <= i < |v| ==> v[i] != 0
  }

  lemma StandsHasName(data: seq<byte>, off: nat, v: Name)
    requires Stands(data, off, v) && off != NONE
    ensures CStr(data, off).Some?
    ensures NulFree(v) ==> CStr(data, off) == Some(v)
  {
    var end := FindZero(data, off);
    assert data[off + |v|] == 0;
    if NulFree(v) {
      assert forall i :: off <= i < off + |v| ==> data[i] == v[i - off];
    }
  }

  /** The offset of a name. */
  function OffsetOf(offsets: map<Name, nat>, v: Name): nat {
    if v in offsets then offsets[v] else 0
  }

  lemma NameReadsBack(strings: seq<byte>, offsets: map<Name, nat>, v: Name)
    requires Indexed(strings, offsets) && v in offsets && |strings| <= NONE
    ensures |strings| > 0 && CStr(strings, OffsetOf(offsets, v)).Some?
    ensures NulFree(v) ==> CStr(strings, OffsetOf(offsets, v)) == Some(v)
  {
    assert Stands(strings, offsets[v], v);
    StandsHasName(strings, offsets[v], v);
  }

  class StringTable {
    var data: seq<byte>
    var offsets: map<Name, nat>

    ghost predicate Valid()
      reads this
    {
      Indexed(data, offsets)
    }

    constructor Empty()
      ensures Valid() && data == [] && offsets == map[]
    {
      data, offsets := [], map[];
    }

    /** A table that starts with the empty name. */
    constructor Rooted()
      ensures Valid() && data == [0] && offsets == map[[] := 0]
    {
      data, offsets := [0], map[[] := 0];
    }

    /** Adds a name once; names already there keep their place. */
    method Add(v: Name) returns (off: nat)
      requires Valid()
      modifies this
      ensures Valid() && v in offsets && off == offsets[v]
      ensures v in old(offsets) ==> data == old(data) && offsets == old(offsets)
      ensures old(data) <= data && (forall n :: n in old(offsets) ==> n in offsets && offsets[n] == old(offsets)[n])
    {
      if v in offsets {
        return offsets[v];
      }
      off := |data|;
      GrownTable(data, offsets, v);
      data := data + v + [0];
      offsets := offsets[v := off];
    }
  }
}
