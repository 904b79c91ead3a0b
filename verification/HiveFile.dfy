/** Writing a hive file (tools/hivec.py:468-550) and reading its tables back. */
module HiveFile {
  import opened Bits
  import opened Records
  import opened StringTables
  import opened HivePaths
  import opened HiveNodes
  import opened HiveTree
  import opened HiveBuild
  import Checksums

  const MAGIC: nat := 0x0031_5649_4853_544F
  const HEADER_SIZE: nat := 60
  const NODE_SIZE: nat := 28
  const VALUE_SIZE: nat := 24

  const HEADER_WIDTHS: seq<nat> := [8] + Words(13)
  const NODE_WIDTHS: seq<nat> := Words(7)
  const VALUE_WIDTHS: seq<nat> := Words(6)

  function Number(flags: bv32): nat {
    flags as nat
  }

  lemma RecordSizes()
    ensures Total(HEADER_WIDTHS) == HEADER_SIZE && Total(NODE_WIDTHS) == NODE_SIZE && Total(VALUE_WIDTHS) == VALUE_SIZE
  {
    TotalOne(8);
    TotalWords(13);
    TotalWords(7);
    TotalWords(6);
    TotalAppend([8], Words(13));
  }

  // ---- the records ----

  /** A hive ready to be written: its nodes form a tree. */
  ghost predicate Ready(b: Built) {
    Tree(b) && AllNodes(b)
  }

  ghost function NodeFields(b: Built, offsets: map<Name, nat>, i: nat): (r: seq<nat>)
    requires Ready(b) && i < |b.paths|
    ensures |r| == 7
  {
    hide Tree, Items, SortValues, ChildrenOf, ParentPath, Number;
    var n := b.nodes[b.paths[i]];
    var c := ChildrenOf(b.paths, b.paths[i], |b.paths|);
    var v := ValuesAt(b, i);
    [if i == 0 then NONE else ParentIndex(b, i), OffsetOf(offsets, n.name), Number(n.flags), FirstOf(c), |c|,
     if v == [] then NONE else |Items(b, i)|, |v|]
  }

  function ValueFields(items: seq<Item>, offsets: map<Name, nat>, k: nat): seq<nat>
    requires k < |items|
  {
    hide Data, Number;
    var v := items[k].value;
    [items[k].node, OffsetOf(offsets, v.name), v.kind, Number(v.flags), |Data(items, k)|, |v.data|]
  }

  ghost function NodeRows(b: Built, offsets: map<Name, nat>): seq<seq<byte>>
    requires Ready(b)
  {
    seq(|b.paths|, i requires 0 <= i < |b.paths| => Pack(NodeFields(b, offsets, i), NODE_WIDTHS))
  }

  function ValueRows(items: seq<Item>, offsets: map<Name, nat>): seq<seq<byte>> {
    seq(|items|, k requires 0 <= k < |items| => Pack(ValueFields(items, offsets, k), VALUE_WIDTHS))
  }

  /** The header of a file with `n` nodes, `m` values, and the given sizes. */
  function HeaderFields(flags: bv32, n: nat, m: nat, strings: nat, data: nat, crc: nat): seq<nat> {
    var valueOff := HEADER_SIZE + n * NODE_SIZE;
    var stringOff := valueOff + m * VALUE_SIZE;
    var dataOff := stringOff + strings;
    [MAGIC, 1, HEADER_SIZE, Number(flags), n, m, HEADER_SIZE, valueOff, stringOff, strings, dataOff, data,
     dataOff + data, crc]
  }

  /** The whole file. */
  ghost function FileOf(b: Built, strings: seq<byte>, offsets: map<Name, nat>, flags: bv32, crc: nat): seq<byte>
    requires Ready(b)
  {
    var items := Items(b, |b.paths|);
    var data := Data(items, |items|);
    Pack(HeaderFields(flags, |b.paths|, |items|, |strings|, |data|, crc), HEADER_WIDTHS) +
    Table(NodeRows(b, offsets)) + Table(ValueRows(items, offsets)) + strings + data
  }

  /** Every field holds its value. */
  ghost predicate Encodable(b: Built, strings: seq<byte>, offsets: map<Name, nat>, flags: bv32, crc: nat)
    requires Ready(b)
  {
    var items := Items(b, |b.paths|);
    var data := Data(items, |items|);
    && Fit(HeaderFields(flags, |b.paths|, |items|, |strings|, |data|, crc), HEADER_WIDTHS)
    && (forall i :: 0 <= i < |b.paths| ==> Fit(NodeFields(b, offsets, i), NODE_WIDTHS))
    && (forall k :: 0 <= k < |items| ==> Fit(ValueFields(items, offsets, k), VALUE_WIDTHS))
  }

  /** What follows the header. */
  ghost function Payload(b: Built, strings: seq<byte>, offsets: map<Name, nat>): seq<byte>
    requires Ready(b)
  {
    var items := Items(b, |b.paths|);
    Table(NodeRows(b, offsets)) + Table(ValueRows(items, offsets)) + strings + Data(items, |items|)
  }

  function Octets(data: seq<byte>): seq<bv8> {
    seq(|data|, i requires 0 <= i < |data| => data[i] as bv8)
  }

  function Checksum(data: seq<byte>): nat {
    Number(Checksums.Crc32Of(Octets(data)))
  }

  // ---- reading ----

  /** The parts of a file stand where the header says. */
  lemma PartsReadBack(h: seq<byte>, n: seq<byte>, v: seq<byte>, s: seq<byte>, d: seq<byte>)
    ensures var f := h + n + v + s + d;
      && Slice(f, 0, |h|) == h && Slice(f, |h|, |n|) == n && Slice(f, |h| + |n|, |v|) == v
      && Slice(f, |h| + |n| + |v|, |s|) == s && Slice(f, |h| + |n| + |v| + |s|, |d|) == d
  {
  }

  /** The sizes of the parts. */
  lemma PartSizes(b: Built, offsets: map<Name, nat>)
    requires Ready(b)
    ensures Uniform(NodeRows(b, offsets), NODE_SIZE)
    ensures Uniform(ValueRows(Items(b, |b.paths|), offsets), VALUE_SIZE)
    ensures |Table(NodeRows(b, offsets))| == |b.paths| * NODE_SIZE
    ensures |Table(ValueRows(Items(b, |b.paths|), offsets))| == |Items(b, |b.paths|)| * VALUE_SIZE
  {
    hide Tree, Items, NodeFields, ValueFields, Table, Pack, Total;
    RecordSizes();
    TableLength(NodeRows(b, offsets), NODE_SIZE);
    TableLength(ValueRows(Items(b, |b.paths|), offsets), VALUE_SIZE);
  }

  /** A record of a table reads back. */
  lemma RecordReadsBack(rows: seq<seq<byte>>, size: nat, widths: seq<nat>, fields: seq<nat>, k: nat)
    requires Uniform(rows, size) && k < |rows| && Total(widths) == size
    requires Fit(fields, widths) && rows[k] == Pack(fields, widths)
    ensures k * size + size <= |Table(rows)|
    ensures Unpack(Slice(Table(rows), k * size, size), widths) == fields
  {
    hide Table, Pack, Unpack, Fit, Total;
    TableRow(rows, size, k);
    UnpackInverts(fields, widths, []);
    assert Pack(fields, widths) + [] == Pack(fields, widths);
  }

  /** Every name that the file refers to has an offset. */
  ghost predicate NamesKnown(b: Built, offsets: map<Name, nat>)
    requires Ready(b)
  {
    && (forall i :: 0 <= i < |b.paths| ==> b.nodes[b.paths[i]].name in offsets)
    && (forall k :: 0 <= k < |Items(b, |b.paths|)| ==> Items(b, |b.paths|)[k].value.name in offsets)
  }

  /** `file` is the hive of `b`. */
  ghost predicate IsHive(
    b: Built, strings: seq<byte>, offsets: map<Name, nat>, flags: bv32, crc: nat, file: seq<byte>)
  {
    && Ready(b) && Encodable(b, strings, offsets, flags, crc) && file == FileOf(b, strings, offsets, flags, crc)
    && Indexed(strings, offsets) && NamesKnown(b, offsets)
  }

  /** The header a file starts with. */
  function Header(file: seq<byte>): (h: seq<nat>)
    requires |file| >= HEADER_SIZE
    ensures |h| == 14
  {
    RecordSizes();
    Unpack(file, HEADER_WIDTHS)
  }

  lemma HeaderReadsBack(b: Built, strings: seq<byte>, offsets: map<Name, nat>, flags: bv32, crc: nat, file: seq<byte>)
    requires IsHive(b, strings, offsets, flags, crc, file)
    ensures var items := Items(b, |b.paths|);
      && |file| >= HEADER_SIZE
      && Header(file) == HeaderFields(flags, |b.paths|, |items|, |strings|, |Data(items, |items|)|, crc)
      && |file| == Header(file)[12]
  {
    hide Tree, Items, Data, NodeRows, ValueRows, Table, Pack, Unpack, Total, Number, NodeFields, ValueFields, Fit;
    var items := Items(b, |b.paths|);
    var data := Data(items, |items|);
    var fields := HeaderFields(flags, |b.paths|, |items|, |strings|, |data|, crc);
    RecordSizes();
    PartSizes(b, offsets);
    var nodes, values := Table(NodeRows(b, offsets)), Table(ValueRows(items, offsets));
    var rest := nodes + (values + (strings + data));
    assert file == Pack(fields, HEADER_WIDTHS) + rest;
    UnpackInverts(fields, HEADER_WIDTHS, rest);
  }

  lemma PayloadReadsBack(b: Built, strings: seq<byte>, offsets: map<Name, nat>, flags: bv32, crc: nat, file: seq<byte>)
    requires IsHive(b, strings, offsets, flags, crc, file)
    ensures |file| >= HEADER_SIZE && file[HEADER_SIZE..] == Payload(b, strings, offsets)
  {
    hide Tree, Items, Data, NodeRows, ValueRows, Table, Pack, Unpack, Total, Number, NodeFields, ValueFields, Fit, Encodable;
    var items := Items(b, |b.paths|);
    var data := Data(items, |items|);
    RecordSizes();
    var head := Pack(HeaderFields(flags, |b.paths|, |items|, |strings|, |data|, crc), HEADER_WIDTHS);
    assert file == head + Payload(b, strings, offsets);
  }

  /** The tables, names and data stand where the header says. */
  lemma TablesReadBack(b: Built, strings: seq<byte>, offsets: map<Name, nat>, flags: bv32, crc: nat, file: seq<byte>)
    requires IsHive(b, strings, offsets, flags, crc, file)
    ensures var items := Items(b, |b.paths|);
      && |file| >= HEADER_SIZE
      && var h := Header(file);
        && h[6] + h[4] * NODE_SIZE <= |file| && h[7] + h[5] * VALUE_SIZE <= |file|
        && h[8] + h[9] <= |file| && h[10] + h[11] <= |file|
        && h[4] == |b.paths| && h[5] == |items| && h[9] == |strings| && h[11] == |Data(items, |items|)|
        && Slice(file, h[6], h[4] * NODE_SIZE) == Table(NodeRows(b, offsets))
        && Slice(file, h[7], h[5] * VALUE_SIZE) == Table(ValueRows(items, offsets))
        && Slice(file, h[8], h[9]) == strings
        && Slice(file, h[10], h[11]) == Data(items, |items|)
  {
    hide Tree, Items, Data, NodeRows, ValueRows, Table, Pack, Unpack, Total, Number, NodeFields, ValueFields, Fit, Slice,
      Encodable, Header;
    var items := Items(b, |b.paths|);
    var data := Data(items, |items|);
    HeaderReadsBack(b, strings, offsets, flags, crc, file);
    RecordSizes();
    PartSizes(b, offsets);
    var h := Pack(HeaderFields(flags, |b.paths|, |items|, |strings|, |data|, crc), HEADER_WIDTHS);
    PartsReadBack(h, Table(NodeRows(b, offsets)), Table(ValueRows(items, offsets)), strings, data);
  }

  lemma StringsBound(b: Built, strings: seq<byte>, offsets: map<Name, nat>, flags: bv32, crc: nat)
    requires Ready(b) && Encodable(b, strings, offsets, flags, crc)
    ensures |strings| <= NONE
  {
    hide Tree, Items, Data, NodeFields, ValueFields, Number;
    var items := Items(b, |b.paths|);
    var fields := HeaderFields(flags, |b.paths|, |items|, |strings|, |Data(items, |items|)|, crc);
    assert fields[9] == |strings| && HEADER_WIDTHS[9] == 4;
    assert Pow256(4) == NONE + 1;
  }

  lemma SubSlice(file: seq<byte>, off: nat, part: seq<byte>, lo: nat, n: nat)
    requires off + |part| <= |file| && Slice(file, off, |part|) == part && lo + n <= |part|
    ensures off + lo + n <= |file| && Slice(file, off + lo, n) == Slice(part, lo, n)
  {
    Nested(file, off, |part|, lo, n);
  }

  lemma RowInTable(file: seq<byte>, off: nat, table: seq<byte>, k: nat, size: nat)
    requires off + |table| <= |file| && Slice(file, off, |table|) == table && k * size + size <= |table|
    ensures off + k * size + size <= |file| && Slice(file, off + k * size, size) == Slice(table, k * size, size)
  {
    hide Slice;
    SubSlice(file, off, table, k * size, size);
  }

  lemma NodeFits(b: Built, strings: seq<byte>, offsets: map<Name, nat>, flags: bv32, crc: nat, i: nat)
    requires Ready(b) && Encodable(b, strings, offsets, flags, crc) && i < |b.paths|
    ensures Fit(NodeFields(b, offsets, i), NODE_WIDTHS)
  {
    hide Tree, Items, Data, NodeFields, ValueFields, Fit, Number;
  }

  lemma NodeRowReads(
    b: Built, strings: seq<byte>, offsets: map<Name, nat>, flags: bv32, crc: nat, file: seq<byte>, i: nat)
    requires IsHive(b, strings, offsets, flags, crc, file) && i < |b.paths|
    ensures |file| >= HEADER_SIZE && Total(NODE_WIDTHS) == NODE_SIZE
    ensures Header(file)[6] + i * NODE_SIZE + NODE_SIZE <= |file|
    ensures Row(file, Header(file)[6], i, NODE_SIZE, NODE_WIDTHS) == NodeFields(b, offsets, i)
  {
    hide Tree, Items, Data, ValueRows, Table, Pack, Unpack, Total, Number, ValueFields, NodeFields, Fit, Slice, Header, FileOf,
      Indexed, Encodable, NamesKnown;
    TablesReadBack(b, strings, offsets, flags, crc, file);
    RecordSizes();
    PartSizes(b, offsets);
    NodeFits(b, strings, offsets, flags, crc, i);
    var rows := NodeRows(b, offsets);
    RecordReadsBack(rows, NODE_SIZE, NODE_WIDTHS, NodeFields(b, offsets, i), i);
    RowInTable(file, Header(file)[6], Table(rows), i, NODE_SIZE);
  }

  /** Node `i` reads back: parent, name, flags, and the ranges of its children and values. */
  lemma NodeReadsBack(
    b: Built, strings: seq<byte>, offsets: map<Name, nat>, flags: bv32, crc: nat, file: seq<byte>, i: nat)
    requires IsHive(b, strings, offsets, flags, crc, file) && i < |b.paths|
    ensures |file| >= HEADER_SIZE && Total(NODE_WIDTHS) == NODE_SIZE
    ensures Header(file)[6] + i * NODE_SIZE + NODE_SIZE <= |file|
    ensures var row, name := Row(file, Header(file)[6], i, NODE_SIZE, NODE_WIDTHS), b.nodes[b.paths[i]].name;
      && row == NodeFields(b, offsets, i)
      && (NulFree(name) ==> CStr(strings, row[1]) == Some(name))
  {
    hide Tree, Items, Number, Header, FileOf, CStr, OffsetOf, Indexed, NulFree, ChildrenOf, SortValues, Encodable, Row, Total;
    NodeRowReads(b, strings, offsets, flags, crc, file, i);
    StringsBound(b, strings, offsets, flags, crc);
    NameReadsBack(strings, offsets, b.nodes[b.paths[i]].name);
  }

  /** Value `k` reads back: its node, name, type, flags and bytes. */
  lemma ValueReadsBack(
    b: Built, strings: seq<byte>, offsets: map<Name, nat>, flags: bv32, crc: nat, file: seq<byte>, k: nat)
    requires IsHive(b, strings, offsets, flags, crc, file) && k < |Items(b, |b.paths|)|
    ensures |file| >= HEADER_SIZE && Total(VALUE_WIDTHS) == VALUE_SIZE
    ensures Header(file)[7] + k * VALUE_SIZE + VALUE_SIZE <= |file|
    ensures var row, item := Row(file, Header(file)[7], k, VALUE_SIZE, VALUE_WIDTHS), Items(b, |b.paths|)[k];
      && row == ValueFields(Items(b, |b.paths|), offsets, k)
      && |row| == 6 && row[0] == item.node && row[2] == item.value.kind && row[3] == Number(item.value.flags)
      && (NulFree(item.value.name) ==> CStr(strings, row[1]) == Some(item.value.name))
      && row[5] == |item.value.data| && Header(file)[10] + row[4] + row[5] <= |file|
      && Slice(file, Header(file)[10] + row[4], row[5]) == item.value.data
  {
    hide Tree, Items, Data, NodeRows, Table, Pack, Unpack, Total, Number, NodeFields, Fit, Slice, Header, FileOf,
      CStr, OffsetOf, Indexed, NulFree;
    TablesReadBack(b, strings, offsets, flags, crc, file);
    RecordSizes();
    PartSizes(b, offsets);
    var items := Items(b, |b.paths|);
    var rows := ValueRows(items, offsets);
    RecordReadsBack(rows, VALUE_SIZE, VALUE_WIDTHS, ValueFields(items, offsets, k), k);
    RowInTable(file, Header(file)[7], Table(rows), k, VALUE_SIZE);
    StringsBound(b, strings, offsets, flags, crc);
    NameReadsBack(strings, offsets, items[k].value.name);
    DataReadsBack(items, k, |items|);
    PieceInPart(file, Header(file)[10], Data(items, |items|), |Data(items, k)|, items[k].value.data);
  }

  lemma PieceInPart(file: seq<byte>, off: nat, part: seq<byte>, at: nat, piece: seq<byte>)
    requires off + |part| <= |file| && Slice(file, off, |part|) == part
    requires at + |piece| <= |part| && part[at..at + |piece|] == piece
    ensures off + at + |piece| <= |file| && Slice(file, off + at, |piece|) == piece
  {
    SubSlice(file, off, part, at, |piece|);
  }
}
