/** Reading a hive file from its bytes alone, and that a file the compiler wrote
    (tools/hivec.py:444-550) reads back as the keys that went in. */
module HiveDecode {
  import opened Bits
  import opened Records
  import opened StringTables
  import opened HivePaths
  import opened HiveNodes
  import opened HiveTree
  import opened HiveBuild
  import opened HiveFile

  // ---- the reader ----

  /** The entry of node `i`: parent, name, flags, first child, children, first value, values. */
  function NodeRow(file: seq<byte>, i: nat): (r: Option<seq<nat>>)
    ensures r.Some? ==> |r.value| == 7
  {
    RecordSizes();
    if |file| < HEADER_SIZE then None
    else
      var h := Header(file);
      if i >= h[4] || h[6] + i * NODE_SIZE + NODE_SIZE > |file| then None
      else Some(Row(file, h[6], i, NODE_SIZE, NODE_WIDTHS))
  }

  /** The entry of value `k`: node, name, type, flags, offset and size of its data. */
  function ValueRow(file: seq<byte>, k: nat): (r: Option<seq<nat>>)
    ensures r.Some? ==> |r.value| == 6
  {
    RecordSizes();
    if |file| < HEADER_SIZE then None
    else
      var h := Header(file);
      if k >= h[5] || h[7] + k * VALUE_SIZE + VALUE_SIZE > |file| then None
      else Some(Row(file, h[7], k, VALUE_SIZE, VALUE_WIDTHS))
  }

  /** The name at `off` of the file's string table. */
  function Text(file: seq<byte>, off: nat): Option<Name> {
    if |file| < HEADER_SIZE then None
    else
      var h := Header(file);
      if h[8] + h[9] > |file| then None else CStr(Slice(file, h[8], h[9]), off)
  }

  /** `n` bytes of the file's data, from `off` on. */
  function Bytes(file: seq<byte>, off: nat, n: nat): Option<seq<byte>> {
    if |file| < HEADER_SIZE || Header(file)[10] + off + n > |file| then None
    else Some(Slice(file, Header(file)[10] + off, n))
  }

  function Word(n: nat): bv32
    requires n < 0x1_0000_0000
  {
    n as bv32
  }

  /** The path of node `i`: the names along its parent links, which lead to lower nodes. */
  function ReadPath(file: seq<byte>, i: nat): Option<Path>
    decreases i
  {
    match NodeRow(file, i)
    case None => None
    case Some(row) =>
      if i == 0 then Some([])
      else if row[0] >= i then None
      else
        match Text(file, row[1])
        case None => None
        case Some(name) =>
          if row[0] == 0 then Some(name)
          else
            match ReadPath(file, row[0])
            case None => None
            case Some(p) => Some(p + [DOT] + name)
  }

  function ReadValue(file: seq<byte>, k: nat): Option<Value> {
    match ValueRow(file, k)
    case None => None
    case Some(row) =>
      var name, data := Text(file, row[1]), Bytes(file, row[4], row[5]);
      if name.None? || data.None? || row[3] > NONE then None
      else Some(Value(name.value, row[2], Word(row[3]), data.value))
  }

  function ReadValues(file: seq<byte>, first: nat, count: nat): Option<seq<Value>> {
    if count == 0 then Some([])
    else
      var rest, last := ReadValues(file, first, count - 1), ReadValue(file, first + count - 1);
      if rest.None? || last.None? then None else Some(rest.value + [last.value])
  }

  /** Node `i` as a key: its path, flags and values. */
  function ReadKey(file: seq<byte>, i: nat): Option<Key> {
    match NodeRow(file, i)
    case None => None
    case Some(row) =>
      var path, values := ReadPath(file, i), ReadValues(file, row[5], row[6]);
      if path.None? || values.None? || row[2] > NONE then None
      else Some(Key(path.value, Word(row[2]), values.value))
  }

  // ---- what a file should say ----

  /** The keys of a source: distinct, with names a zero-terminated table can hold. */
  ghost predicate Plain(keys: seq<Key>) {
    && (forall i, j :: 0 <= i < j < |keys| ==> keys[i].path != keys[j].path)
    && (forall k :: 0 <= k < |keys| ==> NulFree(keys[k].path))
    && (forall k :: 0 <= k < |keys| ==> PlainValues(keys[k].values))
  }

  ghost predicate PlainValues(values: seq<Value>) {
    forall v :: v in values ==> NulFree(v.name)
  }

  /** The node read is `key`: its path, its flags, and a permutation of its values by name. */
  ghost predicate IsKey(r: Option<Key>, key: Key) {
    && r.Some? && r.value.path == key.path && r.value.flags == key.flags
    && multiset(r.value.values) == multiset(key.values) && ByName(r.value.values)
  }

  /** The node read is there for the keys below it only. */
  ghost predicate IsFiller(r: Option<Key>, keys: seq<Key>) {
    r.Some? && r.value.flags == 0 && r.value.values == [] && Needed(keys, r.value.path)
  }

  /** Node `j` names `i` as its parent exactly when it is in the child range of `i`. */
  ghost predicate ChildRange(file: seq<byte>, i: nat, j: nat) {
    && NodeRow(file, i).Some? && NodeRow(file, j).Some?
    && var a, b := NodeRow(file, i).value, NodeRow(file, j).value;
      b[0] == i <==> a[4] > 0 && a[3] <= j < a[3] + a[4]
  }

  /** Value `k` names `i` as its node exactly when it is in the value range of `i`. */
  ghost predicate ValueRange(file: seq<byte>, i: nat, k: nat) {
    && NodeRow(file, i).Some? && ValueRow(file, k).Some?
    && var a, v := NodeRow(file, i).value, ValueRow(file, k).value;
      v[0] == i <==> a[6] > 0 && a[5] <= k < a[5] + a[6]
  }

  /** One of the first `n` nodes is `key`. */
  ghost predicate Found(file: seq<byte>, key: Key, n: nat) {
    exists i :: 0 <= i < n && IsKey(ReadKey(file, i), key)
  }

  ghost predicate AllKeys(file: seq<byte>, keys: seq<Key>, n: nat) {
    forall k :: 0 <= k < |keys| ==> Found(file, keys[k], n)
  }

  /** Every one of the first `n` nodes is a key or lies above one, and no path comes twice. */
  ghost predicate OnlyKeys(file: seq<byte>, keys: seq<Key>, n: nat) {
    && (forall i :: 0 <= i < n ==>
          IsFiller(ReadKey(file, i), keys) || exists k :: 0 <= k < |keys| && IsKey(ReadKey(file, i), keys[k]))
    && (forall i, j :: 0 <= i < j < n ==> ReadPath(file, i) != ReadPath(file, j))
  }

  /** Child and value ranges agree with the links of `n` nodes and `m` values. */
  ghost predicate RangesAgree(file: seq<byte>, n: nat, m: nat) {
    && (forall i, j :: 0 <= i < n && 0 < j < n ==> ChildRange(file, i, j))
    && (forall i, k :: 0 <= i < n && 0 <= k < m ==> ValueRange(file, i, k))
  }

  /** The file, read from its bytes, is the tree of the keys and of the keys above them,
      each once, and holds nothing else. */
  ghost predicate Decodes(file: seq<byte>, keys: seq<Key>) {
    && |file| >= HEADER_SIZE
    && var n, m := Header(file)[4], Header(file)[5];
      AllKeys(file, keys, n) && OnlyKeys(file, keys, n) && RangesAgree(file, n, m)
  }

  // ---- the writer's file ----

  /** The arguments of `IsHive`, together. */
  datatype Written = Written(b: Built, strings: seq<byte>, offsets: map<Name, nat>, flags: bv32, crc: nat)

  ghost predicate From(file: seq<byte>, w: Written) {
    IsHive(w.b, w.strings, w.offsets, w.flags, w.crc, file)
  }

  lemma CountsAre(file: seq<byte>, w: Written)
    requires From(file, w)
    ensures Ready(w.b) && |file| >= HEADER_SIZE
    ensures Header(file)[4] == |w.b.paths| && Header(file)[5] == |Items(w.b, |w.b.paths|)|
    ensures forall off :: Text(file, off) == CStr(w.strings, off)
  {
    hide Tree, Items, Data, Table, NodeRows, ValueRows, Header, Slice, Encodable, FileOf, NamesKnown, Indexed, CStr;
    TablesReadBack(w.b, w.strings, w.offsets, w.flags, w.crc, file);
  }

  lemma NodeRowIs(file: seq<byte>, w: Written, i: nat)
    requires From(file, w) && i < |w.b.paths|
    ensures Ready(w.b) && NodeRow(file, i) == Some(NodeFields(w.b, w.offsets, i))
    ensures var name := w.b.nodes[w.b.paths[i]].name;
      NulFree(name) ==> Text(file, NodeFields(w.b, w.offsets, i)[1]) == Some(name)
  {
    hide IsHive, NodeFields, Header, Row, CStr, NulFree, Tree, Text;
    CountsAre(file, w);
    NodeReadsBack(w.b, w.strings, w.offsets, w.flags, w.crc, file, i);
  }

  lemma WordInverts(f: bv32)
    ensures Number(f) <= NONE && Word(Number(f)) == f
  {
  }

  lemma ValueIs(file: seq<byte>, w: Written, k: nat)
    requires From(file, w) && Ready(w.b) && k < |Items(w.b, |w.b.paths|)| && NulFree(Items(w.b, |w.b.paths|)[k].value.name)
    ensures ValueRow(file, k).Some? && ValueRow(file, k).value[0] == Items(w.b, |w.b.paths|)[k].node
    ensures ReadValue(file, k) == Some(Items(w.b, |w.b.paths|)[k].value)
  {
    hide IsHive, Header, Row, CStr, NulFree, Tree, Text, Items, Word, Number, Slice;
    CountsAre(file, w);
    ValueReadsBack(w.b, w.strings, w.offsets, w.flags, w.crc, file, k);
    WordInverts(Items(w.b, |w.b.paths|)[k].value.flags);
  }

  // ---- names without zeros ----

  ghost predicate PlainBuilt(b: Built)
    requires AllNodes(b)
  {
    && (forall i :: 0 <= i < |b.paths| ==> NulFree(b.nodes[b.paths[i]].name))
    && (forall k :: 0 <= k < |Items(b, |b.paths|)| ==> NulFree(Items(b, |b.paths|)[k].value.name))
  }

  lemma {:induction false} ValuesOfPlain(keys: seq<Key>, p: Path)
    requires forall k :: 0 <= k < |keys| ==> PlainValues(keys[k].values)
    ensures PlainValues(ValuesOf(keys, p))
    decreases |keys|
  {
    hide NulFree;
    if keys != [] {
      ValuesOfPlain(keys[..|keys| - 1], p);
      assert PlainValues(keys[|keys| - 1].values);
    }
  }

  lemma AbovePlain(p: Path, q: Path)
    requires Above(p, q) && NulFree(q)
    ensures NulFree(p) && NulFree(NameOf(p))
  {
    hide Dots;
    assert forall j :: 0 <= j < |p| ==> p[j] == q[j];
  }

  lemma NamePlain(b: Built, keys: seq<Key>, i: nat)
    requires Ready(b) && Represents(b.nodes, keys) && Plain(keys) && i < |b.paths|
    ensures NulFree(b.nodes[b.paths[i]].name)
  {
    hide Rising, FlagsOf, ValuesOf, Told, NameOf, GoodPath, Above, NulFree, ParentPath, Shaped;
    IsNode(b, i);
    var p := b.paths[i];
    assert Needed(keys, p);
    if i > 0 {
      var k :| 0 <= k < |keys| && Above(p, keys[k].path);
      AbovePlain(p, keys[k].path);
    } else {
      EmptyPlain();
    }
  }

  lemma EmptyPlain()
    ensures NulFree([])
  {
  }

  lemma ItemPlain(b: Built, keys: seq<Key>, k: nat)
    requires Ready(b) && Represents(b.nodes, keys) && Plain(keys) && k < |Items(b, |b.paths|)|
    ensures NulFree(Items(b, |b.paths|)[k].value.name)
  {
    hide Tree, SortValues, Items, NulFree, ByName, Shaped, AllThere, Needed;
    var item := Items(b, |b.paths|)[k];
    var i := item.node;
    NodesBelow(b, |b.paths|, k);
    ItemsRange(b, i, |b.paths|, k);
    var p := b.paths[i];
    SortValuesFacts(b.nodes[p].values);
    assert item.value in multiset(ValuesAt(b, i));
    assert Says(b.nodes[p], keys, p);
    ValuesOfPlain(keys, p);
  }

  lemma BuiltPlain(b: Built, keys: seq<Key>)
    requires Ready(b) && Represents(b.nodes, keys) && Plain(keys)
    ensures PlainBuilt(b)
  {
    hide Tree, Represents, Plain, NulFree, Items;
    forall i | 0 <= i < |b.paths| ensures NulFree(b.nodes[b.paths[i]].name) {
      NamePlain(b, keys, i);
    }
    forall k | 0 <= k < |Items(b, |b.paths|)| ensures NulFree(Items(b, |b.paths|)[k].value.name) {
      ItemPlain(b, keys, k);
    }
  }

  // ---- nodes and values ----

  lemma ParentField(b: Built, offsets: map<Name, nat>, i: nat)
    requires Ready(b) && 0 < i < |b.paths|
    ensures NodeFields(b, offsets, i)[0] == ParentIndex(b, i) < i
  {
    hide Tree, Items, SortValues, ChildrenOf, ParentPath, Number, OffsetOf;
    ParentPrecedes(b, i);
  }

  /** Every path is spelled by the parent links and names of the file. */
  lemma {:induction false} PathIs(file: seq<byte>, w: Written, i: nat)
    requires From(file, w) && Ready(w.b) && PlainBuilt(w.b) && i < |w.b.paths|
    ensures ReadPath(file, i) == Some(w.b.paths[i])
    decreases i
  {
    hide IsHive, NodeFields, Tree, NodeRow, Text, NulFree, ParentPath, NameOf, Dots, GoodPath, Items;
    NodeRowIs(file, w, i);
    RootPath(w.b);
    if i > 0 {
      ParentField(w.b, w.offsets, i);
      var parent := ParentIndex(w.b, i);
      IsNode(w.b, i);
      PathIsJoined(w.b.paths[i]);
      ParentIsBefore(w.b.paths[i]);
      if parent > 0 {
        IsNode(w.b, parent);
        PathIs(file, w, parent);
      }
    }
  }

  lemma RootPath(b: Built)
    requires Tree(b)
    ensures |b.paths| > 0 && b.paths[0] == []
  {
  }

  lemma {:induction false} ValuesFrom(file: seq<byte>, w: Written, first: nat, count: nat)
    requires From(file, w) && Ready(w.b) && PlainBuilt(w.b) && first + count <= |Items(w.b, |w.b.paths|)|
    ensures var r := ReadValues(file, first, count);
      && r.Some? && |r.value| == count
      && forall j :: 0 <= j < count ==> r.value[j] == Items(w.b, |w.b.paths|)[first + j].value
    decreases count
  {
    hide IsHive, Tree, ReadValue, NulFree, Items;
    if count > 0 {
      ValuesFrom(file, w, first, count - 1);
      ValueIs(file, w, first + count - 1);
    }
  }

  /** The value range of a node holds its values in order of their names. */
  lemma ValuesAre(file: seq<byte>, w: Written, i: nat)
    requires From(file, w) && Ready(w.b) && PlainBuilt(w.b) && i < |w.b.paths|
    ensures var row := NodeFields(w.b, w.offsets, i);
      ReadValues(file, row[5], row[6]) == Some(ValuesAt(w.b, i))
  {
    hide IsHive, Tree, ReadValues, NulFree, Items, SortValues, ChildrenOf, ParentPath, Number, OffsetOf, PlainBuilt;
    var items, values := Items(w.b, |w.b.paths|), ValuesAt(w.b, i);
    var first := |Items(w.b, i)|;
    if values == [] {
      NoValues(file, NONE);
    } else {
      RangeFits(w.b, i);
      ValuesFrom(file, w, first, |values|);
      forall j | 0 <= j < |values| ensures items[first + j].value == values[j] {
        ItemsRange(w.b, i, |w.b.paths|, first + j);
      }
      assert ReadValues(file, first, |values|).value == values;
    }
  }

  lemma NoValues(file: seq<byte>, first: nat)
    ensures ReadValues(file, first, 0) == Some([])
  {
  }

  lemma RangeFits(b: Built, i: nat)
    requires AllNodes(b) && i < |b.paths|
    ensures |Items(b, i)| + |ValuesAt(b, i)| <= |Items(b, |b.paths|)|
  {
    hide SortValues, Items;
    ItemsStep(b, i);
    ItemsPrefix(b, i + 1, |b.paths|);
  }

  lemma KeyIs(file: seq<byte>, w: Written, i: nat)
    requires From(file, w) && Ready(w.b) && PlainBuilt(w.b) && i < |w.b.paths|
    ensures ReadKey(file, i) == Some(Key(w.b.paths[i], w.b.nodes[w.b.paths[i]].flags, ValuesAt(w.b, i)))
  {
    hide IsHive, Tree, ReadValues, ReadPath, NulFree, Items, SortValues, ChildrenOf, ParentPath, Number, OffsetOf, Word,
      PlainBuilt;
    NodeRowIs(file, w, i);
    PathIs(file, w, i);
    ValuesAre(file, w, i);
    WordInverts(w.b.nodes[w.b.paths[i]].flags);
  }

  lemma ChildRangeIs(file: seq<byte>, w: Written, i: nat, j: nat)
    requires From(file, w) && Ready(w.b) && i < |w.b.paths| && 0 < j < |w.b.paths|
    ensures ChildRange(file, i, j)
  {
    hide IsHive, Tree, Items, SortValues, ChildrenOf, ParentPath, Number, OffsetOf, NodeRow;
    NodeRowIs(file, w, i);
    NodeRowIs(file, w, j);
    ParentField(w.b, w.offsets, j);
    ChildrenExact(w.b, i, j);
  }

  lemma ValueRangeIs(file: seq<byte>, w: Written, i: nat, k: nat)
    requires From(file, w) && Ready(w.b) && PlainBuilt(w.b) && i < |w.b.paths| && k < |Items(w.b, |w.b.paths|)|
    ensures ValueRange(file, i, k)
  {
    hide IsHive, Tree, Items, SortValues, ChildrenOf, ParentPath, Number, OffsetOf, NodeRow, ValueRow, NulFree;
    NodeRowIs(file, w, i);
    ValueIs(file, w, k);
    ItemsRange(w.b, i, |w.b.paths|, k);
  }

  // ---- the source keys ----

  /** A key whose path no other key has keeps its own flags and values. */
  lemma {:induction false} OwnKey(keys: seq<Key>, k: nat)
    requires k < |keys| && forall j :: 0 <= j < |keys| && j != k ==> keys[j].path != keys[k].path
    ensures FlagsOf(keys, keys[k].path) == keys[k].flags && ValuesOf(keys, keys[k].path) == keys[k].values
    decreases |keys|
  {
    var n := |keys| - 1;
    if k == n {
      NothingSaid(keys[..n], keys[k].path);
      OrZero(keys[k].flags);
    } else {
      OwnKey(keys[..n], k);
    }
  }

  lemma OrZero(a: bv32)
    ensures Or(0, a) == a
  {
  }

  lemma KeyIsThere(file: seq<byte>, w: Written, keys: seq<Key>, i: nat, k: nat)
    requires From(file, w) && Ready(w.b) && PlainBuilt(w.b) && Represents(w.b.nodes, keys) && Plain(keys)
    requires k < |keys| && i < |w.b.paths| && w.b.paths[i] == keys[k].path
    ensures IsKey(ReadKey(file, i), keys[k])
  {
    hide IsHive, Tree, Items, PlainBuilt, SortValues, FlagsOf, ValuesOf, ByName, Shaped, Needed, ReadKey, NulFree;
    KeyIs(file, w, i);
    OwnKey(keys, k);
    assert Says(w.b.nodes[w.b.paths[i]], keys, w.b.paths[i]);
    SortValuesFacts(w.b.nodes[w.b.paths[i]].values);
  }

  lemma FillerIsEmpty(file: seq<byte>, w: Written, keys: seq<Key>, i: nat)
    requires From(file, w) && Ready(w.b) && PlainBuilt(w.b) && Represents(w.b.nodes, keys) && i < |w.b.paths|
    requires forall k :: 0 <= k < |keys| ==> keys[k].path != w.b.paths[i]
    ensures IsFiller(ReadKey(file, i), keys)
  {
    hide IsHive, Tree, Items, PlainBuilt, FlagsOf, ValuesOf, Shaped, Needed, ReadKey;
    KeyIs(file, w, i);
    NothingSaid(keys, w.b.paths[i]);
    assert Says(w.b.nodes[w.b.paths[i]], keys, w.b.paths[i]);
  }

  lemma AllKeysThere(file: seq<byte>, w: Written, keys: seq<Key>)
    requires From(file, w) && Ready(w.b) && PlainBuilt(w.b) && Represents(w.b.nodes, keys) && Plain(keys)
    ensures AllKeys(file, keys, |w.b.paths|)
  {
    hide IsHive, Tree, Items, Represents, Plain, PlainBuilt, ReadKey, IsKey;
    forall k | 0 <= k < |keys| ensures Found(file, keys[k], |w.b.paths|) {
      var i := NodeOf(w.b, keys, k);
      KeyIsThere(file, w, keys, i, k);
    }
  }

  lemma OnlyKeysThere(file: seq<byte>, w: Written, keys: seq<Key>)
    requires From(file, w) && Ready(w.b) && PlainBuilt(w.b) && Represents(w.b.nodes, keys) && Plain(keys)
    ensures OnlyKeys(file, keys, |w.b.paths|)
  {
    hide IsHive, Tree, Items, Represents, Plain, PlainBuilt, ReadKey, ReadPath, IsKey, IsFiller;
    forall i | 0 <= i < |w.b.paths|
      ensures IsFiller(ReadKey(file, i), keys) || exists k :: 0 <= k < |keys| && IsKey(ReadKey(file, i), keys[k])
    {
      if k :| 0 <= k < |keys| && keys[k].path == w.b.paths[i] {
        KeyIsThere(file, w, keys, i, k);
      } else {
        FillerIsEmpty(file, w, keys, i);
      }
    }
    forall i, j | 0 <= i < j < |w.b.paths| ensures ReadPath(file, i) != ReadPath(file, j) {
      PathIs(file, w, i);
      PathIs(file, w, j);
      TreeDistinct(w.b, i, j);
    }
  }

  /** A hive file, read from its bytes alone, gives back the source's keys and nothing else. */
  lemma HiveDecodes(file: seq<byte>, w: Written, keys: seq<Key>)
    requires From(file, w) && Represents(w.b.nodes, keys) && Plain(keys)
    ensures Decodes(file, keys)
  {
    hide IsHive, Tree, Items, Represents, Plain, PlainBuilt, AllKeys, OnlyKeys, ChildRange, ValueRange, Header, Text;
    CountsAre(file, w);
    BuiltPlain(w.b, keys);
    AllKeysThere(file, w, keys);
    OnlyKeysThere(file, w, keys);
    var n, m := |w.b.paths|, |Items(w.b, |w.b.paths|)|;
    forall i, j | 0 <= i < n && 0 < j < n ensures ChildRange(file, i, j) {
      ChildRangeIs(file, w, i, j);
    }
    forall i, k | 0 <= i < n && 0 <= k < m ensures ValueRange(file, i, k) {
      ValueRangeIs(file, w, i, k);
    }
  }

  lemma NodeOf(b: Built, keys: seq<Key>, k: nat) returns (i: nat)
    requires Ready(b) && Represents(b.nodes, keys) && k < |keys|
    ensures i < |b.paths| && b.paths[i] == keys[k].path
  {
    hide Told, Shaped, Needed, Rising;
    i := IndexOf(b.paths, keys[k].path);
  }

  lemma TreeDistinct(b: Built, i: nat, j: nat)
    requires Tree(b) && i < j < |b.paths|
    ensures b.paths[i] != b.paths[j]
  {
    hide Before;
    Distinct(b.paths, i, j);
  }
}
