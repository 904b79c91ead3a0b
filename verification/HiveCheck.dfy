/** The check the kernel makes of a hive before it uses one (src/kernel/drivers/fs/hivefs/hivefs.c:360-404,
    1387-1481), and that it accepts what the compiler writes. */
module HiveCheck {
  import opened Bits
  import opened Records
  import opened StringTables
  import opened HivePaths
  import opened HiveNodes
  import opened HiveTree
  import opened HiveBuild
  import opened HiveFile
  import opened HiveDecode
  import Checksums

  const TYPE_STRING := 1
  const TYPE_MULTI_STRING := 8

  /** 32-bit unsigned arithmetic. */
  function Wrap(n: nat): nat {
    n % (NONE + 1)
  }

  predicate RangeOk(off: nat, len: nat, total: nat) {
    off <= total && len <= total - off
  }

  predicate KnownType(kind: nat) {
    TYPE_STRING <= kind <= TYPE_MULTI_STRING
  }

  // ---- the header ----

  /** The tests of the header, with sums taken in 32 bits. */
  predicate HeaderOk(h: seq<nat>, size: nat)
    requires |h| == 14
  {
    && h[0] == MAGIC && h[1] == 1 && h[2] == HEADER_SIZE && h[12] == size && h[4] != 0
    && h[4] <= NONE / NODE_SIZE && h[5] <= NONE / VALUE_SIZE
    && var nodes, values := h[4] * NODE_SIZE, h[5] * VALUE_SIZE;
      && h[6] == h[2] && h[7] == Wrap(h[6] + nodes) && h[8] == Wrap(h[7] + values) && h[10] == Wrap(h[8] + h[9])
      && RangeOk(h[6], nodes, size) && RangeOk(h[7], values, size) && RangeOk(h[8], h[9], size) && RangeOk(h[10], h[11], size)
      && Wrap(h[10] + h[11]) == h[12]
  }

  /** The parts follow the header one after the other and fill the file. */
  predicate Tiles(h: seq<nat>, size: nat)
    requires |h| == 14
  {
    && h[0] == MAGIC && h[1] == 1 && h[2] == HEADER_SIZE && h[4] != 0
    && h[6] == HEADER_SIZE && h[7] == h[6] + h[4] * NODE_SIZE && h[8] == h[7] + h[5] * VALUE_SIZE
    && h[10] == h[8] + h[9] && h[12] == h[10] + h[11] == size
  }

  /** No sum wraps in a header that passes. */
  lemma HeaderExact(h: seq<nat>, size: nat)
    requires |h| == 14 && size <= NONE
    ensures HeaderOk(h, size) <==> Tiles(h, size)
  {
    if HeaderOk(h, size) {
      Unwrapped(h[6] + h[4] * NODE_SIZE);
      Unwrapped(h[7] + h[5] * VALUE_SIZE);
      Unwrapped(h[8] + h[9]);
      Unwrapped(h[10] + h[11]);
    }
    if Tiles(h, size) {
      Unwrapped(h[7]);
      Unwrapped(h[8]);
      Unwrapped(h[10]);
      Unwrapped(h[12]);
      CountFits(h[4], NODE_SIZE);
      CountFits(h[5], VALUE_SIZE);
    }
  }

  lemma Unwrapped(n: nat)
    ensures n <= NONE ==> Wrap(n) == n
  {
  }

  lemma CountFits(count: nat, size: nat)
    requires size > 0 && count * size <= NONE
    ensures count <= NONE / size
  {
    var q := NONE / size;
    DivBounds(NONE, size);
    if count > q {
      MulMonotone(q + 1, count, size);
    }
  }

  // ---- the entries ----

  predicate NodeOk(file: seq<byte>, i: nat)
    requires |file| >= HEADER_SIZE
  {
    var h, r := Header(file), NodeRow(file, i);
    && r.Some?
    && var row := r.value;
      && (if i == 0 then row[0] == NONE else row[0] < h[4])
      && Text(file, row[1]).Some?
      && (row[4] != 0 ==> row[3] < h[4]) && (row[6] != 0 ==> row[5] < h[5])
  }

  predicate ValueOk(file: seq<byte>, k: nat)
    requires |file| >= HEADER_SIZE
  {
    var h, r := Header(file), ValueRow(file, k);
    && r.Some?
    && var row := r.value;
      && row[0] < h[4] && Text(file, row[1]).Some? && KnownType(row[2]) && RangeOk(row[4], row[5], h[11])
  }

  /** A file the kernel takes. */
  ghost predicate Accepted(file: seq<byte>) {
    && |file| >= HEADER_SIZE
    && var h := Header(file);
      && Tiles(h, |file|) && h[13] == Checksum(file[HEADER_SIZE..])
      && (forall i :: 0 <= i < h[4] ==> NodeOk(file, i))
      && (forall k :: 0 <= k < h[5] ==> ValueOk(file, k))
  }

  /** Looks for the zero that ends the name at `off`. */
  method StringOk(strings: seq<byte>, off: nat) returns (ok: bool)
    requires |strings| <= NONE
    ensures ok <==> CStr(strings, off).Some?
  {
    if off >= |strings| {
      return false;
    }
    for i := off to |strings|
      invariant FindZero(strings, off) == FindZero(strings, i)
    {
      if strings[i] == 0 {
        return true;
      }
    }
    return false;
  }

  method CheckNode(file: seq<byte>, i: nat) returns (ok: bool)
    requires |file| >= HEADER_SIZE && Tiles(Header(file), |file|) && |file| <= NONE && i < Header(file)[4]
    ensures ok <==> NodeOk(file, i)
  {
    hide CStr, Row, Header;
    RecordSizes();
    var h := Header(file);
    EntryInside(h[6], h[4], NODE_SIZE, h[7], i);
    var row := Row(file, h[6], i, NODE_SIZE, NODE_WIDTHS);
    if (i == 0 && row[0] != NONE) || (i != 0 && row[0] >= h[4]) {
      return false;
    }
    ok := StringOk(Slice(file, h[8], h[9]), row[1]);
    if !ok {
      return false;
    }
    if (row[4] != 0 && row[3] >= h[4]) || (row[6] != 0 && row[5] >= h[5]) {
      return false;
    }
  }

  method CheckValue(file: seq<byte>, k: nat) returns (ok: bool)
    requires |file| >= HEADER_SIZE && Tiles(Header(file), |file|) && |file| <= NONE && k < Header(file)[5]
    ensures ok <==> ValueOk(file, k)
  {
    hide CStr, Row, Header;
    RecordSizes();
    var h := Header(file);
    EntryInside(h[7], h[5], VALUE_SIZE, h[8], k);
    var row := Row(file, h[7], k, VALUE_SIZE, VALUE_WIDTHS);
    if row[0] >= h[4] {
      return false;
    }
    ok := StringOk(Slice(file, h[8], h[9]), row[1]);
    if !ok || !KnownType(row[2]) || !RangeOk(row[4], row[5], h[11]) {
      return false;
    }
  }

  lemma EntryInside(off: nat, count: nat, size: nat, end: nat, k: nat)
    requires k < count && off + count * size <= end
    ensures off + k * size + size <= end
  {
    assert (k + 1) * size <= count * size;
  }

  /** Takes a file exactly when its parts tile it, its checksum is right, and every entry
      refers to nodes, values, names and data that are there. */
  method ValidateHive(file: seq<byte>) returns (ok: bool)
    requires |file| <= NONE
    ensures ok <==> Accepted(file)
  {
    hide HeaderOk, Tiles, Header, NodeOk, ValueOk, Octets;
    if |file| < HEADER_SIZE {
      return false;
    }
    var h := Header(file);
    HeaderExact(h, |file|);
    if !HeaderOk(h, |file|) {
      return false;
    }
    var crc := Checksums.BitwiseCrc(Octets(file[HEADER_SIZE..]));
    if Number(crc) != h[13] {
      return false;
    }
    for i := 0 to h[4]
      invariant forall j :: 0 <= j < i ==> NodeOk(file, j)
    {
      var good := CheckNode(file, i);
      if !good {
        return false;
      }
    }
    for k := 0 to h[5]
      invariant forall j :: 0 <= j < k ==> ValueOk(file, j)
    {
      var good := CheckValue(file, k);
      if !good {
        return false;
      }
    }
    return true;
  }

  /** Every value of an accepted file can be read. */
  lemma AcceptedReads(file: seq<byte>, k: nat)
    requires Accepted(file) && k < Header(file)[5]
    ensures ReadValue(file, k).Some?
  {
    hide Text, Header, Checksum, NodeOk, NodeRow;
    assert ValueOk(file, k);
    RecordSizes();
    var h := Header(file);
    UnpackFits(Slice(file, h[7] + k * VALUE_SIZE, VALUE_SIZE), VALUE_WIDTHS);
    FlagsFit(ValueRow(file, k).value);
  }

  lemma FlagsFit(row: seq<nat>)
    requires Fit(row, VALUE_WIDTHS)
    ensures row[3] <= NONE
  {
    assert Pow256(VALUE_WIDTHS[3]) == 256 * Pow256(3);
  }

  // ---- what the compiler writes ----

  lemma WrittenTiles(file: seq<byte>, w: Written)
    requires From(file, w)
    ensures |file| >= HEADER_SIZE && Tiles(Header(file), |file|)
  {
    hide Items, Data, Number, Header, Encodable, FileOf, Indexed, NamesKnown, Shaped, Rising;
    HeaderReadsBack(w.b, w.strings, w.offsets, w.flags, w.crc, file);
  }

  lemma NameThere(file: seq<byte>, w: Written, v: Name)
    requires From(file, w) && v in w.offsets
    ensures Text(file, OffsetOf(w.offsets, v)).Some?
  {
    hide Tree, Items, Text, CStr, OffsetOf, Indexed, Encodable, FileOf, NamesKnown;
    CountsAre(file, w);
    StringsBound(w.b, w.strings, w.offsets, w.flags, w.crc);
    NameReadsBack(w.strings, w.offsets, v);
  }

  lemma NodeNamed(file: seq<byte>, w: Written, i: nat)
    requires From(file, w) && i < |w.b.paths|
    ensures Ready(w.b) && w.b.nodes[w.b.paths[i]].name in w.offsets
  {
    hide Tree, Items, Indexed, Encodable, FileOf;
  }

  lemma ChildBelow(b: Built, i: nat)
    requires Tree(b) && i < |b.paths|
    ensures var c := ChildrenOf(b.paths, b.paths[i], |b.paths|); |c| > 0 ==> FirstOf(c) < |b.paths|
  {
    hide ParentPath, Tree, ChildrenOf;
    ChildrenRange(b, b.paths[i], |b.paths|);
  }

  lemma ItemsReach(b: Built, i: nat)
    requires AllNodes(b) && i < |b.paths|
    ensures |Items(b, i)| + |ValuesAt(b, i)| <= |Items(b, |b.paths|)|
  {
    hide SortValues, Items;
    ItemsStep(b, i);
    ItemsPrefix(b, i + 1, |b.paths|);
  }

  lemma WrittenNode(file: seq<byte>, w: Written, i: nat)
    requires From(file, w) && i < |w.b.paths|
    ensures |file| >= HEADER_SIZE && NodeOk(file, i)
  {
    hide IsHive, NodeRow, Header, Row, CStr, Tree, Text, Items, ChildrenOf, SortValues, Number, OffsetOf;
    CountsAre(file, w);
    NodeRowIs(file, w, i);
    NodeNamed(file, w, i);
    NameThere(file, w, w.b.nodes[w.b.paths[i]].name);
    ChildBelow(w.b, i);
    ItemsReach(w.b, i);
  }

  lemma ValueNamed(file: seq<byte>, w: Written, k: nat)
    requires From(file, w) && Ready(w.b) && k < |Items(w.b, |w.b.paths|)|
    ensures Items(w.b, |w.b.paths|)[k].value.name in w.offsets
  {
    hide Tree, Items, Indexed, Encodable, FileOf;
  }

  lemma ValueRowIs(file: seq<byte>, w: Written, k: nat)
    requires From(file, w) && Ready(w.b) && k < |Items(w.b, |w.b.paths|)|
    ensures ValueRow(file, k) == Some(ValueFields(Items(w.b, |w.b.paths|), w.offsets, k))
  {
    hide IsHive, Header, Row, CStr, NulFree, Tree, Text, Items, Number, Slice, ValueFields;
    CountsAre(file, w);
    ValueReadsBack(w.b, w.strings, w.offsets, w.flags, w.crc, file, k);
  }

  lemma DataSizeIs(file: seq<byte>, w: Written)
    requires From(file, w)
    ensures Ready(w.b) && |file| >= HEADER_SIZE
    ensures var items := Items(w.b, |w.b.paths|); Header(file)[11] == |Data(items, |items|)|
  {
    hide Tree, Items, Data, Table, NodeRows, ValueRows, Header, Slice, Encodable, FileOf, NamesKnown, Indexed, CStr;
    TablesReadBack(w.b, w.strings, w.offsets, w.flags, w.crc, file);
  }

  lemma WrittenValue(file: seq<byte>, w: Written, k: nat)
    requires From(file, w) && Ready(w.b) && k < |Items(w.b, |w.b.paths|)|
    ensures |file| >= HEADER_SIZE && (ValueOk(file, k) <==> KnownType(Items(w.b, |w.b.paths|)[k].value.kind))
  {
    hide IsHive, ValueRow, Header, Row, CStr, Tree, Text, Items, Data, Number, OffsetOf, KnownType;
    var items := Items(w.b, |w.b.paths|);
    CountsAre(file, w);
    DataSizeIs(file, w);
    ValueRowIs(file, w, k);
    ValueNamed(file, w, k);
    NameThere(file, w, items[k].value.name);
    NodesBelow(w.b, |w.b.paths|, k);
    DataReadsBack(items, k, |items|);
  }

  ghost predicate KnownItems(b: Built)
    requires AllNodes(b)
  {
    forall k :: 0 <= k < |Items(b, |b.paths|)| ==> KnownType(Items(b, |b.paths|)[k].value.kind)
  }

  /** A written file with the right checksum is accepted exactly when its types are known. */
  lemma WrittenAccepted(file: seq<byte>, w: Written)
    requires From(file, w) && |file| >= HEADER_SIZE && Header(file)[13] == Checksum(file[HEADER_SIZE..])
    ensures Ready(w.b) && (Accepted(file) <==> KnownItems(w.b))
  {
    hide IsHive, Tiles, Header, NodeOk, ValueOk, Items, KnownType, Tree, Checksum;
    WrittenTiles(file, w);
    CountsAre(file, w);
    forall i | 0 <= i < |w.b.paths| ensures NodeOk(file, i) {
      WrittenNode(file, w, i);
    }
    forall k | 0 <= k < |Items(w.b, |w.b.paths|)|
      ensures ValueOk(file, k) <==> KnownType(Items(w.b, |w.b.paths|)[k].value.kind)
    {
      WrittenValue(file, w, k);
    }
  }

  // ---- the types of the keys ----

  ghost predicate KnownValues(values: seq<Value>) {
    forall v :: v in values ==> KnownType(v.kind)
  }

  ghost predicate KnownKeys(keys: seq<Key>) {
    forall k :: 0 <= k < |keys| ==> KnownValues(keys[k].values)
  }

  /** The values of a path are those of its keys. */
  lemma {:induction false} ValuesOfMembers(keys: seq<Key>, p: Path, v: Value)
    ensures v in ValuesOf(keys, p) <==> exists k :: 0 <= k < |keys| && keys[k].path == p && v in keys[k].values
    decreases |keys|
  {
    if keys != [] {
      var n := |keys| - 1;
      ValuesOfMembers(keys[..n], p, v);
      if v in ValuesOf(keys[..n], p) {
        var k :| 0 <= k < n && keys[..n][k].path == p && v in keys[..n][k].values;
        assert keys[k].path == p && v in keys[k].values;
      }
      if k :| 0 <= k < |keys| && keys[k].path == p && v in keys[k].values {
        if k < n {
          assert keys[..n][k] == keys[k];
        }
      }
    }
  }

  lemma ItemFromKeys(b: Built, keys: seq<Key>, k: nat)
    requires Ready(b) && Represents(b.nodes, keys) && KnownKeys(keys) && k < |Items(b, |b.paths|)|
    ensures KnownType(Items(b, |b.paths|)[k].value.kind)
  {
    hide Tree, SortValues, Items, KnownType, ByName, Shaped, AllThere, Needed, ValuesOf;
    var item := Items(b, |b.paths|)[k];
    var i := item.node;
    NodesBelow(b, |b.paths|, k);
    ItemsRange(b, i, |b.paths|, k);
    var p := b.paths[i];
    SortValuesFacts(b.nodes[p].values);
    assert item.value in multiset(ValuesAt(b, i));
    assert Says(b.nodes[p], keys, p);
    ValuesOfMembers(keys, p, item.value);
    var j :| 0 <= j < |keys| && keys[j].path == p && item.value in keys[j].values;
    assert KnownValues(keys[j].values);
  }

  lemma KeyInItems(b: Built, keys: seq<Key>, k: nat, v: Value)
    requires Ready(b) && Represents(b.nodes, keys) && KnownItems(b) && k < |keys| && v in keys[k].values
    ensures KnownType(v.kind)
  {
    hide SortValues, Items, KnownType, ByName, Shaped, Needed, ValuesOf, Rising;
    var p := keys[k].path;
    ValuesOfMembers(keys, p, v);
    assert Says(b.nodes[p], keys, p);
    SortValuesFacts(b.nodes[p].values);
    assert p in b.paths;
    var i :| 0 <= i < |b.paths| && b.paths[i] == p;
    assert v in multiset(ValuesAt(b, i));
    var j :| 0 <= j < |ValuesAt(b, i)| && ValuesAt(b, i)[j] == v;
    ItemsReach(b, i);
    ItemsRange(b, i, |b.paths|, |Items(b, i)| + j);
  }

  lemma KnownAgree(b: Built, keys: seq<Key>)
    requires Ready(b) && Represents(b.nodes, keys)
    ensures KnownItems(b) <==> KnownKeys(keys)
  {
    hide Tree, Items, KnownType, Represents;
    if KnownKeys(keys) {
      forall k | 0 <= k < |Items(b, |b.paths|)| ensures KnownType(Items(b, |b.paths|)[k].value.kind) {
        ItemFromKeys(b, keys, k);
      }
    }
    if KnownItems(b) {
      forall k, v | 0 <= k < |keys| && v in keys[k].values ensures KnownType(v.kind) {
        KeyInItems(b, keys, k, v);
      }
    }
  }
}
