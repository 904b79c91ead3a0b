/** The code that builds a hive file: tools/hivec.py:406-418, 468-550. */
module HiveWriter {
  import opened Bits
  import opened Records
  import opened StringTables
  import opened HivePaths
  import opened HiveNodes
  import opened HiveTree
  import opened HiveBuild
  import opened HiveFile
  import opened HiveDecode
  import opened HiveCheck
  import Checksums

  // ---- children ----

  /** The position of every path. */
  method IndexPaths(b: Built) returns (index: map<Path, nat>)
    requires Tree(b)
    ensures forall p :: p in index <==> p in b.paths
    ensures forall i :: 0 <= i < |b.paths| ==> index[b.paths[i]] == i
  {
    hide Shaped, Before;
    index := map[];
    for i := 0 to |b.paths|
      invariant forall p :: p in index <==> p in b.paths[..i]
      invariant forall j :: 0 <= j < i ==> b.paths[j] in index && index[b.paths[j]] == j
    {
      forall j | 0 <= j < i
        ensures b.paths[j] != b.paths[i]
      {
        Distinct(b.paths, i, j);
      }
      index := index[b.paths[i] := i];
      assert b.paths[..i + 1] == b.paths[..i] + [b.paths[i]];
    }
    assert b.paths[..|b.paths|] == b.paths;
  }

  lemma IndexIsParent(b: Built, index: map<Path, nat>, i: nat)
    requires Tree(b) && 0 < i < |b.paths|
    requires forall p :: p in index <==> p in b.paths
    requires forall j :: 0 <= j < |b.paths| ==> index[b.paths[j]] == j
    ensures ParentPath(b.paths[i]) in index && index[ParentPath(b.paths[i])] == ParentIndex(b, i)
  {
    hide ParentPath;
    IsNode(b, i);
  }

  method CollectChildren(b: Built, index: map<Path, nat>) returns (children: seq<seq<nat>>)
    requires Tree(b)
    requires forall p :: p in index <==> p in b.paths
    requires forall j :: 0 <= j < |b.paths| ==> index[b.paths[j]] == j
    ensures |children| == |b.paths|
    ensures forall i :: 0 <= i < |b.paths| ==> children[i] == ChildrenOf(b.paths, b.paths[i], |b.paths|)
  {
    hide ParentPath, Tree, ChildrenOf;
    children := seq(|b.paths|, _ => []);
    NoChildrenYet(b);
    for idx := 1 to |b.paths|
      invariant |children| == |b.paths|
      invariant forall i :: 0 <= i < |b.paths| ==> children[i] == ChildrenOf(b.paths, b.paths[i], idx)
    {
      IndexIsParent(b, index, idx);
      var p := index[ParentPath(b.paths[idx])];
      ChildStep(b, idx, p);
      children := children[p := children[p] + [idx]];
    }
  }

  lemma NoChildrenYet(b: Built)
    requires Tree(b)
    ensures |b.paths| >= 1 && forall i :: 0 <= i < |b.paths| ==> ChildrenOf(b.paths, b.paths[i], 1) == []
  {
  }

  lemma ChildStep(b: Built, idx: nat, p: nat)
    requires Tree(b) && 0 < idx < |b.paths| && p == ParentIndex(b, idx)
    ensures forall i :: 0 <= i < |b.paths| ==>
        (ChildrenOf(b.paths, b.paths[i], idx + 1)
         == if i == p then ChildrenOf(b.paths, b.paths[i], idx) + [idx] else ChildrenOf(b.paths, b.paths[i], idx))
  {
    hide ParentPath, Shaped, Before;
    forall i | 0 <= i < |b.paths|
      ensures b.paths[i] == ParentPath(b.paths[idx]) <==> i == p
    {
      Distinct(b.paths, i, p);
    }
    forall i | 0 <= i < |b.paths|
      ensures ChildrenOf(b.paths, b.paths[i], idx + 1)
           == if i == p then ChildrenOf(b.paths, b.paths[i], idx) + [idx] else ChildrenOf(b.paths, b.paths[i], idx)
    {
      assert ChildrenOf(b.paths, b.paths[i], idx) + [] == ChildrenOf(b.paths, b.paths[i], idx);
    }
  }

  // ---- values ----

  /** The data and its offsets belong to the items, and their names are known. */
  ghost predicate Collected(items: seq<Item>, offs: seq<nat>, data: seq<byte>, index: map<Name, nat>) {
    && data == Data(items, |items|)
    && |offs| == |items| && (forall k :: 0 <= k < |items| ==> offs[k] == |Data(items, k)|)
    && (forall k :: 0 <= k < |items| ==> items[k].value.name in index)
  }

  ghost predicate Grown(before: map<Name, nat>, after: map<Name, nat>) {
    forall n :: n in before ==> n in after
  }

  lemma CollectOne(
    items: seq<Item>, offs: seq<nat>, data: seq<byte>, before: map<Name, nat>, after: map<Name, nat>, item: Item)
    requires Collected(items, offs, data, before) && Grown(before, after) && item.value.name in after
    ensures Collected(items + [item], offs + [|data|], data + item.value.data, after)
  {
    hide Data;
    DataGrows(items, item);
  }

  /** Adds the values of every node, sorted, to the value list and the data. */
  method CollectValues(b: Built, strings: StringTable)
    returns (items: seq<Item>, offs: seq<nat>, data: seq<byte>, firsts: seq<nat>)
    requires Ready(b) && strings.Valid()
    modifies strings
    ensures strings.Valid() && Grown(old(strings.offsets), strings.offsets)
    ensures items == Items(b, |b.paths|) && Collected(items, offs, data, strings.offsets)
    ensures |firsts| == |b.paths| && forall i :: 0 <= i < |b.paths| ==> firsts[i] == |Items(b, i)|
  {
    hide Tree, Items, Data, SortValues;
    items, offs, data, firsts := [], [], [], [];
    NoItems(b);
    for n := 0 to |b.paths|
      invariant strings.Valid() && Grown(old(strings.offsets), strings.offsets)
      invariant items == Items(b, n) && Collected(items, offs, data, strings.offsets)
      invariant |firsts| == n && forall i :: 0 <= i < n ==> firsts[i] == |Items(b, i)|
    {
      firsts := firsts + [|items|];
      items, offs, data := CollectNode(b, n, strings, items, offs, data);
    }
  }

  lemma NoItems(b: Built)
    requires AllNodes(b)
    ensures Items(b, 0) == [] && Data([], 0) == []
  {
  }

  /** Adds the values of node `n`. */
  method CollectNode(b: Built, n: nat, strings: StringTable, items0: seq<Item>, offs0: seq<nat>, data0: seq<byte>)
    returns (items: seq<Item>, offs: seq<nat>, data: seq<byte>)
    requires Ready(b) && n < |b.paths| && strings.Valid()
    requires items0 == Items(b, n) && Collected(items0, offs0, data0, strings.offsets)
    modifies strings
    ensures strings.Valid() && Grown(old(strings.offsets), strings.offsets)
    ensures items == Items(b, n + 1) && Collected(items, offs, data, strings.offsets)
  {
    hide Tree, Items, SortValues, Collected, Indexed;
    items, offs, data := items0, offs0, data0;
    var values := SortValues(b.nodes[b.paths[n]].values);
    ItemsStep(b, n);
    for i := 0 to |values|
      invariant strings.Valid() && Grown(old(strings.offsets), strings.offsets)
      invariant items == items0 + ItemsOf(n, values[..i]) && Collected(items, offs, data, strings.offsets)
    {
      ghost var before := strings.offsets;
      var off := strings.Add(values[i].name);
      CollectOne(items, offs, data, before, strings.offsets, Item(n, values[i]));
      offs := offs + [|data|];
      data := data + values[i].data;
      items := items + [Item(n, values[i])];
      OneMoreItem(items0, n, values, i);
    }
    assert values[..|values|] == values;
  }

  lemma OneMoreItem(items: seq<Item>, n: nat, values: seq<Value>, i: nat)
    requires i < |values|
    ensures items + ItemsOf(n, values[..i]) + [Item(n, values[i])] == items + ItemsOf(n, values[..i + 1])
  {
    assert ItemsOf(n, values[..i + 1]) == ItemsOf(n, values[..i]) + [Item(n, values[i])];
  }

  lemma {:induction false} DataFrame(items: seq<Item>, more: seq<Item>, n: nat)
    requires n <= |items| <= |more| && more[..|items|] == items
    ensures Data(more, n) == Data(items, n)
    decreases n
  {
    if n > 0 {
      DataFrame(items, more, n - 1);
      assert more[n - 1] == items[n - 1];
    }
  }

  lemma DataGrows(items: seq<Item>, item: Item)
    ensures forall k :: 0 <= k <= |items| ==> Data(items + [item], k) == Data(items, k)
    ensures Data(items + [item], |items| + 1) == Data(items, |items|) + item.value.data
  {
    var more := items + [item];
    forall k | 0 <= k <= |items|
      ensures Data(more, k) == Data(items, k)
    {
      DataFrame(items, more, k);
    }
  }

  // ---- the file ----

  /** The names of all nodes. */
  method CollectNames(b: Built, strings: StringTable)
    requires Ready(b) && strings.Valid()
    modifies strings
    ensures strings.Valid() && forall i :: 0 <= i < |b.paths| ==> b.nodes[b.paths[i]].name in strings.offsets
  {
    hide Tree, Indexed;
    var off := strings.Add([]);
    for i := 0 to |b.paths|
      invariant strings.Valid()
      invariant forall j :: 0 <= j < i ==> b.nodes[b.paths[j]].name in strings.offsets
    {
      off := strings.Add(b.nodes[b.paths[i]].name);
    }
  }

  /** The fields of node `i`. */
  method NodeRecord(b: Built, names: map<Name, nat>, index: map<Path, nat>, c: seq<nat>, first: nat, i: nat)
    returns (fields: seq<nat>)
    requires Ready(b) && i < |b.paths|
    requires forall p :: p in index <==> p in b.paths
    requires forall j :: 0 <= j < |b.paths| ==> index[b.paths[j]] == j
    requires c == ChildrenOf(b.paths, b.paths[i], |b.paths|) && first == |Items(b, i)|
    ensures fields == NodeFields(b, names, i)
  {
    hide Tree, Items, SortValues, ChildrenOf, Number, ParentPath, OffsetOf;
    var n := b.nodes[b.paths[i]];
    var v := SortValues(n.values);
    var parent := NONE;
    if i > 0 {
      IndexIsParent(b, index, i);
      parent := index[ParentPath(b.paths[i])];
    }
    fields := [parent, OffsetOf(names, n.name), Number(n.flags), FirstOf(c), |c|, if v == [] then NONE else first, |v|];
  }

  /** The node entries; nothing when a field is too small for its value. */
  method NodeEntries(
    b: Built, names: map<Name, nat>, index: map<Path, nat>, children: seq<seq<nat>>, firsts: seq<nat>)
    returns (r: Option<seq<byte>>)
    requires Ready(b)
    requires forall p :: p in index <==> p in b.paths
    requires forall j :: 0 <= j < |b.paths| ==> index[b.paths[j]] == j
    requires |children| == |b.paths| == |firsts|
    requires forall i :: 0 <= i < |b.paths| ==> children[i] == ChildrenOf(b.paths, b.paths[i], |b.paths|)
    requires forall i :: 0 <= i < |b.paths| ==> firsts[i] == |Items(b, i)|
    ensures r.Some? <==> forall i :: 0 <= i < |b.paths| ==> Fit(NodeFields(b, names, i), NODE_WIDTHS)
    ensures r.Some? ==> r.value == Table(NodeRows(b, names))
  {
    hide Tree, Items, ChildrenOf, NodeFields, Pack, Fit;
    var out: seq<byte> := [];
    ghost var rows := NodeRows(b, names);
    for i := 0 to |b.paths|
      invariant out == Table(rows[..i])
      invariant forall j :: 0 <= j < i ==> Fit(NodeFields(b, names, j), NODE_WIDTHS)
    {
      var fields := NodeRecord(b, names, index, children[i], firsts[i], i);
      if !Fit(fields, NODE_WIDTHS) {
        return None;
      }
      out := out + Pack(fields, NODE_WIDTHS);
      assert rows[..i + 1][..i] == rows[..i];
    }
    assert rows[..|rows|] == rows;
    return Some(out);
  }

  method ValueEntries(items: seq<Item>, offs: seq<nat>, names: map<Name, nat>) returns (r: Option<seq<byte>>)
    requires |offs| == |items| && forall k :: 0 <= k < |items| ==> offs[k] == |Data(items, k)|
    ensures r.Some? <==> forall k :: 0 <= k < |items| ==> Fit(ValueFields(items, names, k), VALUE_WIDTHS)
    ensures r.Some? ==> r.value == Table(ValueRows(items, names))
  {
    hide Number, Pack, Fit, Data, OffsetOf;
    var out: seq<byte> := [];
    ghost var rows := ValueRows(items, names);
    for k := 0 to |items|
      invariant out == Table(rows[..k])
      invariant forall j :: 0 <= j < k ==> Fit(ValueFields(items, names, j), VALUE_WIDTHS)
    {
      var v := items[k].value;
      var fields := [items[k].node, OffsetOf(names, v.name), v.kind, Number(v.flags), offs[k], |v.data|];
      assert fields == ValueFields(items, names, k);
      if !Fit(fields, VALUE_WIDTHS) {
        return None;
      }
      out := out + Pack(fields, VALUE_WIDTHS);
      assert rows[..k + 1][..k] == rows[..k];
    }
    assert rows[..|rows|] == rows;
    return Some(out);
  }

  lemma ReadyToWrite(b: Built, keys: seq<Key>)
    requires Represents(b.nodes, keys) && Ordered(b.paths, b.nodes)
    ensures Ready(b)
  {
    hide Shaped, Rising;
  }

  /** A written header carries the checksum of what follows it. */
  lemma HeaderSeals(b: Built, strings: seq<byte>, offsets: map<Name, nat>, flags: bv32, file: seq<byte>)
    requires Ready(b) && IsHive(b, strings, offsets, flags, Checksum(Payload(b, strings, offsets)), file)
    ensures |file| >= HEADER_SIZE && Header(file)[13] == Checksum(file[HEADER_SIZE..])
  {
    hide IsHive, Ready, Header, Checksum, Payload, Items, Data, Number;
    var crc := Checksum(Payload(b, strings, offsets));
    HeaderReadsBack(b, strings, offsets, flags, crc, file);
    PayloadReadsBack(b, strings, offsets, flags, crc, file);
  }

  method Seal(payload: seq<byte>) returns (crc: nat)
    ensures crc == Checksum(payload)
  {
    var c := new Checksums.Crc32();
    var r := c.Whole(Octets(payload));
    crc := Number(r);
  }

  /** The file of a hive: a header that carries the checksum of the tables, names and data
      that follow it. The kernel takes it exactly when the types of its values are known. */
  method BuildHive(keys: seq<Key>, flags: bv32)
    returns (r: Option<seq<byte>>, b: Built, strings: seq<byte>, offsets: map<Name, nat>)
    ensures (exists k :: 0 <= k < |keys| && !GoodPath(keys[k].path)) ==> r.None?
    ensures (forall k :: 0 <= k < |keys| ==> GoodPath(keys[k].path)) ==>
      && Represents(b.nodes, keys) && Ready(b)
      && (r.Some? <==> Encodable(b, strings, offsets, flags, Checksum(Payload(b, strings, offsets))))
    ensures r.Some? ==> Ready(b) && IsHive(b, strings, offsets, flags, Checksum(Payload(b, strings, offsets)), r.value)
    ensures r.Some? ==> |r.value| >= HEADER_SIZE && Header(r.value)[13] == Checksum(r.value[HEADER_SIZE..])
    ensures r.Some? ==> (Accepted(r.value) <==> KnownKeys(keys))
    ensures r.Some? && Plain(keys) ==> Decodes(r.value, keys)
  {
    hide Decodes, Plain, Represents, Tree, Ordered, Items, Data, NodeFields, ValueFields, Table, Pack, Fit, Number, Indexed, GoodPath,
      NodeRows, ValueRows, Checksum, Header, Accepted, KnownKeys, KnownItems;
    strings, offsets, b := [], map[], Built(map[], []);
    var built := BuildNodes(keys);
    if built.None? {
      return None, b, strings, offsets;
    }
    var tree := built.value;
    b := tree;
    ReadyToWrite(tree, keys);
    var table := new StringTable.Empty();
    CollectNames(tree, table);
    var index := IndexPaths(tree);
    var children := CollectChildren(tree, index);
    var items, offs, data, firsts := CollectValues(tree, table);
    var names := table.offsets;
    strings, offsets := table.data, names;
    var nodeEntries := NodeEntries(tree, names, index, children, firsts);
    if nodeEntries.None? {
      return None, b, strings, offsets;
    }
    var valueEntries := ValueEntries(items, offs, names);
    if valueEntries.None? {
      return None, b, strings, offsets;
    }
    var payload := nodeEntries.value + valueEntries.value + strings + data;
    var crc := Seal(payload);
    var header := HeaderFields(flags, |tree.paths|, |items|, |strings|, |data|, crc);
    if !Fit(header, HEADER_WIDTHS) {
      return None, b, strings, offsets;
    }
    var file := Pack(header, HEADER_WIDTHS) + payload;
    assert file == FileOf(b, strings, offsets, flags, crc);
    HeaderSeals(b, strings, offsets, flags, file);
    WrittenAccepted(file, Written(b, strings, offsets, flags, crc));
    KnownAgree(b, keys);
    if Plain(keys) {
      HiveDecodes(file, Written(b, strings, offsets, flags, crc), keys);
    }
    return Some(file), b, strings, offsets;
  }
}
