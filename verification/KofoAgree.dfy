/** Writer and reader agree: what the loader's header check and table views
    (src/kernel/kofo.c:187-312) find in a packed file (tools/kofo_pack.py:493-642). */
module KofoAgree {
  import opened Bits
  import opened KofoFormat
  import opened StringTables
  import opened Records
  import opened KofoPack
  import opened KofoWriter
  import R = KofoReloc

  // ---- the reader ----

  /** The fields of the header a file starts with. */
  function Header(file: seq<byte>): (h: seq<nat>)
    requires |file| >= HEADER_SIZE
    ensures |h| == 32
  {
    RecordSizes();
    Unpack(file, HEADER_WIDTHS)
  }

  predicate AfterHeader(headerSize: nat, off: nat, count: nat) {
    count == 0 || off >= headerSize
  }

  function Strings(file: seq<byte>, h: seq<nat>): seq<byte>
    requires |h| == 32 && RangeOk(|file|, h[12], h[13], 1)
  {
    if h[13] == 0 then [] else file[h[12]..h[12] + h[13]]
  }

  predicate TablesOk(size: nat, h: seq<nat>)
    requires |h| == 32
  {
    && RangeOk(size, h[12], h[13], 1) && RangeOk(size, h[14], h[15], SECTION_SIZE)
    && RangeOk(size, h[16], h[17], SYMBOL_SIZE) && RangeOk(size, h[18], h[19], IMPORT_SIZE)
    && RangeOk(size, h[20], h[21], RELOC_SIZE) && RangeOk(size, h[22], h[23], DRIVER_SIZE)
  }

  predicate TablesAfterHeader(h: seq<nat>)
    requires |h| == 32
  {
    && AfterHeader(h[2], h[12], h[13]) && AfterHeader(h[2], h[14], h[15]) && AfterHeader(h[2], h[16], h[17])
    && AfterHeader(h[2], h[18], h[19]) && AfterHeader(h[2], h[20], h[21]) && AfterHeader(h[2], h[22], h[23])
  }

  /** The verdict of `kofo_validate_header`. */
  function Validate(file: seq<byte>): int {
    if |file| < HEADER_SIZE then R.BAD_IMAGE
    else
      var h := Header(file);
      if h[0] != MAGIC || h[1] != 1 || h[2] < HEADER_SIZE || h[2] > |file| then R.BAD_IMAGE
      else if h[3] != 1 || h[4] != 1 then R.NOT_SUPPORTED
      else if h[6] != |file| then R.BAD_IMAGE
      else if !TablesOk(|file|, h) then R.BAD_IMAGE
      else if !TablesAfterHeader(h) then R.BAD_IMAGE
      else if h[15] == 0 || h[17] == 0 || h[13] == 0 then R.BAD_IMAGE
      else if CStr(Strings(file, h), h[7]).None? then R.BAD_IMAGE
      else 0
  }

  // ---- the header of a packed file ----

  lemma SegmentOfFile(x: Input, strings: seq<byte>, offsets: map<Name, nat>, out: seq<byte>, k: nat)
    requires IsFile(x, strings, offsets, out) && k < |Segments(x, strings, offsets)|
    ensures var s := Segments(x, strings, offsets)[k];
      s.at + |s.bytes| <= |out| && out[s.at..s.at + |s.bytes|] == s.bytes
    ensures |out| == PlanFor(x, |strings|).size
  {
    hide Segments, PlanFor, WriteAll;
    SegmentReads(Zeros(PlanFor(x, |strings|).size), Segments(x, strings, offsets), k);
  }

  lemma HeaderReadsBack(x: Input, strings: seq<byte>, offsets: map<Name, nat>, out: seq<byte>)
    requires IsFile(x, strings, offsets, out) && Encodable(x, strings, offsets)
    ensures |out| == PlanFor(x, |strings|).size >= HEADER_SIZE
    ensures Header(out) == HeaderFields(x, offsets, PlanFor(x, |strings|), |strings|)
  {
    hide Segments, PlanFor, IsFile, Pack, Unpack, HeaderFields, Fit, Total, Table, DataSegments, Apart;
    var p := PlanFor(x, |strings|);
    var fields := HeaderFields(x, offsets, p, |strings|);
    RecordSizes();
    FixedSegments(x, strings, offsets);
    SegmentOfFile(x, strings, offsets, out, 0);
    var rest := out[HEADER_SIZE..];
    assert out == Pack(fields, HEADER_WIDTHS) + rest;
    UnpackInverts(fields, HEADER_WIDTHS, rest);
  }

  lemma PlanBounds(x: Input, n: nat)
    ensures var p := PlanFor(x, n);
      && p.strings == HEADER_SIZE && p.strings + n <= p.sections
      && p.sections + |x.sections| * SECTION_SIZE <= p.symbols
      && p.symbols + |x.symbols| * SYMBOL_SIZE <= p.imports
      && p.imports + |x.imports| * IMPORT_SIZE <= p.relocs
      && p.relocs + |x.relocs| * RELOC_SIZE <= p.drivers
      && p.drivers + |x.drivers| * DRIVER_SIZE <= p.size
  {
    hide PlanFor, DataPlan, DataStart, DataSegments, Within;
    PlanOrder(x, n);
    DataWithin(x.sections, DataStart(x, PlanFor(x, n)));
  }

  lemma SizeFits(x: Input, strings: seq<byte>, offsets: map<Name, nat>)
    requires Encodable(x, strings, offsets)
    ensures PlanFor(x, |strings|).size <= NONE
  {
    hide PlanFor;
    var p := PlanFor(x, |strings|);
    assert HeaderFields(x, offsets, p, |strings|)[6] == p.size && HEADER_WIDTHS[6] == 4;
    assert Pow256(4) == NONE + 1;
  }

  lemma ModuleNameKnown(x: Input, offsets: map<Name, nat>)
    requires Known(offsets, Names(x))
    ensures x.args.name in offsets
  {
    assert Names(x)[0] == Some(x.args.name);
  }

  lemma HeaderTables(x: Input, offsets: map<Name, nat>, p: Plan, n: nat)
    requires p == PlanFor(x, n) && p.size <= NONE && n > 0
    ensures TablesOk(p.size, HeaderFields(x, offsets, p, n)) && TablesAfterHeader(HeaderFields(x, offsets, p, n))
  {
    hide PlanFor;
    PlanBounds(x, n);
  }

  predicate HasStrings(out: seq<byte>, strings: seq<byte>) {
    && |out| >= HEADER_SIZE
    && var h := Header(out);
      RangeOk(|out|, h[12], h[13], 1) && Strings(out, h) == strings
  }

  /** A packed file passes the loader's header check, and its string table is the one packed. */
  lemma PackedFileValidates(x: Input, strings: seq<byte>, offsets: map<Name, nat>, out: seq<byte>)
    requires IsFile(x, strings, offsets, out) && Encodable(x, strings, offsets)
    requires Indexed(strings, offsets) && Known(offsets, Names(x))
    requires x.sections != [] && x.symbols != []
    ensures Validate(out) == 0 && HasStrings(out, strings)
  {
    hide PlanFor, IsFile, Encodable, Indexed, Known, Names, Header, CStr, TablesOk, TablesAfterHeader, OffsetOf, HasStrings;
    var p := PlanFor(x, |strings|);
    HeaderReadsBack(x, strings, offsets, out);
    SizeFits(x, strings, offsets);
    PlanBounds(x, |strings|);
    ModuleNameKnown(x, offsets);
    NameReadsBack(strings, offsets, x.args.name);
    HeaderTables(x, offsets, p, |strings|);
    TableOfStrings(x, strings, offsets, out);
    Passes(out, strings);
  }

  lemma TableOfStrings(x: Input, strings: seq<byte>, offsets: map<Name, nat>, out: seq<byte>)
    requires IsFile(x, strings, offsets, out) && Encodable(x, strings, offsets) && |strings| > 0
    ensures HasStrings(out, strings)
  {
    hide Segments, PlanFor, IsFile, Encodable, Header, Table, Pack, DataSegments, Apart;
    HeaderReadsBack(x, strings, offsets, out);
    SizeFits(x, strings, offsets);
    PlanBounds(x, |strings|);
    FixedSegments(x, strings, offsets);
    SegmentOfFile(x, strings, offsets, out, 1);
    StringsAre(x, strings, offsets, out);
  }

  /** What is left of the check once the tables are known to be in place. */
  lemma Passes(out: seq<byte>, strings: seq<byte>)
    requires HasStrings(out, strings)
    requires var h := Header(out);
      && h[0] == MAGIC && h[1] == h[3] == h[4] == 1 && HEADER_SIZE <= h[2] <= |out| == h[6]
      && TablesOk(|out|, h) && TablesAfterHeader(h) && h[15] > 0 && h[17] > 0 && h[13] > 0
      && CStr(strings, h[7]).Some?
    ensures Validate(out) == 0
  {
    hide Header, CStr, TablesOk, TablesAfterHeader;
  }

  lemma StringsAre(x: Input, strings: seq<byte>, offsets: map<Name, nat>, out: seq<byte>)
    requires var p := PlanFor(x, |strings|);
      && |out| == p.size && p.strings + |strings| <= |out| && out[p.strings..p.strings + |strings|] == strings
      && TablesOk(p.size, HeaderFields(x, offsets, p, |strings|))
    ensures Strings(out, HeaderFields(x, offsets, PlanFor(x, |strings|), |strings|)) == strings
  {
    hide PlanFor;
  }

  // ---- the tables of a packed file ----

  lemma RowReadsBack(
    out: seq<byte>, at: nat, rows: seq<seq<byte>>, size: nat, widths: seq<nat>, fields: seq<nat>, k: nat)
    requires Uniform(rows, size) && k < |rows| && Total(widths) == size
    requires Fit(fields, widths) && rows[k] == Pack(fields, widths)
    requires at + |Table(rows)| <= |out| && out[at..at + |Table(rows)|] == Table(rows)
    ensures at + k * size + size <= |out| && Row(out, at, k, size, widths) == fields
  {
    hide Table, Pack, Unpack, Fit, Total;
    TableRow(rows, size, k);
    var lo := k * size;
    Nested(out, at, |Table(rows)|, lo, size);
    UnpackInverts(fields, widths, []);
    assert Pack(fields, widths) + [] == Pack(fields, widths);
  }

  lemma NamesKnown(x: Input, offsets: map<Name, nat>, k: nat)
    requires Known(offsets, Names(x))
    ensures k < |x.sections| ==> x.sections[k].name in offsets
    ensures k < |x.symbols| ==> x.symbols[k].name in offsets
    ensures k < |x.imports| ==> x.imports[k] in offsets
  {
    hide AllDriverNames;
    var a, b, c := 5, 5 + |x.sections|, 5 + |x.sections| + |x.symbols|;
    assert k < |x.sections| ==> Names(x)[a + k] == Some(x.sections[k].name);
    assert k < |x.symbols| ==> Names(x)[b + k] == Some(x.symbols[k].name);
    assert k < |x.imports| ==> Names(x)[c + k] == Some(x.imports[k]);
  }

  lemma {:induction false} DriverNamesListed(ds: seq<InDriver>, k: nat, i: nat)
    requires k < |ds| && i < 6
    ensures DriverNames(ds[k])[i] in AllDriverNames(ds)
    decreases |ds|
  {
    var n := |ds| - 1;
    if k < n {
      DriverNamesListed(ds[..n], k, i);
    }
  }

  lemma DriverNamesKnown(x: Input, offsets: map<Name, nat>, k: nat, i: nat)
    requires Known(offsets, Names(x)) && k < |x.drivers| && i < 6
    ensures DriverNames(x.drivers[k])[i].Some? ==> DriverNames(x.drivers[k])[i].value in offsets
  {
    hide AllDriverNames;
    DriverNamesListed(x.drivers, k, i);
    var name := DriverNames(x.drivers[k])[i];
    assert name in Names(x);
  }

  /** The bytes of a section with data are a segment of the file. */
  lemma {:induction false} DataSegmentOf(ss: seq<InSection>, pos: nat, k: nat) returns (j: nat)
    requires k < |ss| && pos > 0
    ensures var at := DataPlan(ss, pos).0;
      && (at[k] == 0 <==> NoData(ss[k]))
      && (at[k] != 0 ==> j < |DataSegments(ss, at)| && DataSegments(ss, at)[j] == Segment(at[k], ss[k].data))
    decreases |ss|
  {
    hide NoData, AlignUp;
    var at := DataPlan(ss, pos).0;
    j := 0;
    if k > 0 {
      var next := if NoData(ss[0]) then pos else AlignUp(pos + |ss[0].data|, 8);
      AlignUpFacts(pos + |ss[0].data|, 8);
      var rest := DataPlan(ss[1..], next).0;
      assert at[1..] == rest;
      j := DataSegmentOf(ss[1..], next, k - 1);
      if at[0] != 0 {
        j := j + 1;
      }
    }
  }

  /** A file that agrees with the input it was packed from. */
  ghost predicate Packed(x: Input, strings: seq<byte>, offsets: map<Name, nat>, out: seq<byte>) {
    && IsFile(x, strings, offsets, out) && Encodable(x, strings, offsets)
    && Indexed(strings, offsets) && Known(offsets, Names(x))
  }

  /** The reader's record sizes. */
  lemma StringsBound(x: Input, strings: seq<byte>, offsets: map<Name, nat>)
    requires Encodable(x, strings, offsets)
    ensures |strings| <= NONE
  {
    hide PlanFor, Encodable;
    SizeFits(x, strings, offsets);
    PlanBounds(x, |strings|);
  }

  /** Section `k` reads back: its fields, its name and its bytes. */
  lemma SectionReadsBack(x: Input, strings: seq<byte>, offsets: map<Name, nat>, out: seq<byte>, k: nat)
    requires Packed(x, strings, offsets, out) && k < |x.sections|
    ensures |out| >= HEADER_SIZE && Total(SECTION_WIDTHS) == SECTION_SIZE
    ensures Header(out)[14] + k * SECTION_SIZE + SECTION_SIZE <= |out|
    ensures var s, row := x.sections[k], Row(out, Header(out)[14], k, SECTION_SIZE, SECTION_WIDTHS);
      && row == SectionFields(offsets, s, row[5])
      && (NulFree(s.name) ==> CStr(strings, row[0]) == Some(s.name))
      && (row[5] == 0 <==> NoData(s))
      && (row[5] != 0 ==> row[5] + |s.data| <= |out| && out[row[5]..row[5] + |s.data|] == s.data)
  {
    hide Segments, PlanFor, IsFile, Header, CStr, Table, Pack, DataSegments, Apart, OffsetOf, Unpack, Fit, Total,
      DataPlan, DataStart, Names, Known, Indexed, NoData, DriverFields, SymbolFields, RelocFields, ImportFields, Row;
    var p := PlanFor(x, |strings|);
    HeaderReadsBack(x, strings, offsets, out);
    FixedSegments(x, strings, offsets);
    SegmentOfFile(x, strings, offsets, out, 2);
    RecordSizes();
    var s := x.sections[k];
    RowReadsBack(out, p.sections, SectionRows(x, offsets, p), SECTION_SIZE, SECTION_WIDTHS,
                 SectionFields(offsets, s, p.data[k]), k);
    NamesKnown(x, offsets, k);
    StringsBound(x, strings, offsets);
    NameReadsBack(strings, offsets, s.name);
    PlanOrder(x, |strings|);
    var j := DataSegmentOf(x.sections, DataStart(x, p), k);
    if p.data[k] != 0 {
      SegmentOfFile(x, strings, offsets, out, 7 + j);
    }
  }

  /** Symbol `k` reads back with its name. */
  lemma SymbolReadsBack(x: Input, strings: seq<byte>, offsets: map<Name, nat>, out: seq<byte>, k: nat)
    requires Packed(x, strings, offsets, out) && k < |x.symbols|
    ensures |out| >= HEADER_SIZE && Total(SYMBOL_WIDTHS) == SYMBOL_SIZE
    ensures Header(out)[16] + k * SYMBOL_SIZE + SYMBOL_SIZE <= |out|
    ensures var row := Row(out, Header(out)[16], k, SYMBOL_SIZE, SYMBOL_WIDTHS);
      && row == SymbolFields(offsets, x.symbols[k])
      && (NulFree(x.symbols[k].name) ==> CStr(strings, row[0]) == Some(x.symbols[k].name))
  {
    hide Segments, PlanFor, IsFile, Header, CStr, Table, Pack, DataSegments, Apart, OffsetOf, Unpack, Fit, Total,
      DataPlan, Names, Known, Indexed, Row;
    var p := PlanFor(x, |strings|);
    HeaderReadsBack(x, strings, offsets, out);
    FixedSegments(x, strings, offsets);
    SegmentOfFile(x, strings, offsets, out, 3);
    RecordSizes();
    RowReadsBack(out, p.symbols, SymbolRows(x, offsets), SYMBOL_SIZE, SYMBOL_WIDTHS, SymbolFields(offsets, x.symbols[k]), k);
    NamesKnown(x, offsets, k);
    StringsBound(x, strings, offsets);
    NameReadsBack(strings, offsets, x.symbols[k].name);
  }

  /** Import `k` reads back with its name. */
  lemma ImportReadsBack(x: Input, strings: seq<byte>, offsets: map<Name, nat>, out: seq<byte>, k: nat)
    requires Packed(x, strings, offsets, out) && k < |x.imports|
    ensures |out| >= HEADER_SIZE && Total(IMPORT_WIDTHS) == IMPORT_SIZE
    ensures Header(out)[18] + k * IMPORT_SIZE + IMPORT_SIZE <= |out|
    ensures var row := Row(out, Header(out)[18], k, IMPORT_SIZE, IMPORT_WIDTHS);
      && row == ImportFields(offsets, x.imports[k])
      && (NulFree(x.imports[k]) ==> CStr(strings, row[0]) == Some(x.imports[k]))
  {
    hide Segments, PlanFor, IsFile, Header, CStr, Table, Pack, DataSegments, Apart, OffsetOf, Unpack, Fit, Total,
      DataPlan, Names, Known, Indexed, Row;
    var p := PlanFor(x, |strings|);
    HeaderReadsBack(x, strings, offsets, out);
    FixedSegments(x, strings, offsets);
    SegmentOfFile(x, strings, offsets, out, 4);
    RecordSizes();
    RowReadsBack(out, p.imports, ImportRows(x, offsets), IMPORT_SIZE, IMPORT_WIDTHS, ImportFields(offsets, x.imports[k]), k);
    NamesKnown(x, offsets, k);
    StringsBound(x, strings, offsets);
    NameReadsBack(strings, offsets, x.imports[k]);
  }

  /** The relocation a record describes; the addend is signed. */
  function RelocOf(row: seq<nat>): Reloc
    requires |row| == 5
  {
    Reloc(row[0], row[1], row[2], row[3], R.Signed(row[4]))
  }

  lemma SignedInverts(a: int)
    requires -0x8000_0000_0000_0000 <= a < 0x8000_0000_0000_0000
    ensures R.Signed(a % U64) == a
  {
  }

  /** Relocation `k` reads back whole. */
  lemma RelocReadsBack(x: Input, strings: seq<byte>, offsets: map<Name, nat>, out: seq<byte>, k: nat)
    requires Packed(x, strings, offsets, out) && k < |x.relocs|
    ensures |out| >= HEADER_SIZE && Total(RELOC_WIDTHS) == RELOC_SIZE
    ensures Header(out)[20] + k * RELOC_SIZE + RELOC_SIZE <= |out|
    ensures var row := Row(out, Header(out)[20], k, RELOC_SIZE, RELOC_WIDTHS);
      |row| == 5 && RelocOf(row) == x.relocs[k]
  {
    hide Segments, PlanFor, IsFile, Header, CStr, Table, Pack, DataSegments, Apart, OffsetOf, Unpack, Fit, Total,
      DataPlan, Names, Known, Indexed, Row;
    var p := PlanFor(x, |strings|);
    HeaderReadsBack(x, strings, offsets, out);
    FixedSegments(x, strings, offsets);
    SegmentOfFile(x, strings, offsets, out, 5);
    RecordSizes();
    RowReadsBack(out, p.relocs, RelocRows(x), RELOC_SIZE, RELOC_WIDTHS, RelocFields(x.relocs[k]), k);
    SignedInverts(x.relocs[k].addend);
  }

  /** A name that may be missing reads back as itself or as missing. */
  predicate NameFound(strings: seq<byte>, off: nat, v: Option<Name>) {
    if v.None? then off == NONE && CStr(strings, off).None?
    else NulFree(v.value) ==> CStr(strings, off) == v
  }

  lemma MaybeNameReadsBack(strings: seq<byte>, offsets: map<Name, nat>, v: Option<Name>)
    requires Indexed(strings, offsets) && (v.Some? ==> v.value in offsets) && |strings| <= NONE
    ensures NameFound(strings, OffsetOrNone(offsets, v), v)
  {
    if v.Some? {
      NameReadsBack(strings, offsets, v.value);
    }
  }

  lemma DriverFits(x: Input, strings: seq<byte>, offsets: map<Name, nat>, k: nat)
    requires Encodable(x, strings, offsets) && k < |x.drivers|
    ensures Fit(DriverFields(offsets, x.drivers[k]), DRIVER_WIDTHS)
  {
    hide Fit, DriverFields, PlanFor;
  }

  lemma DriverRowIs(x: Input, strings: seq<byte>, offsets: map<Name, nat>, out: seq<byte>, k: nat)
    requires Packed(x, strings, offsets, out) && k < |x.drivers|
    ensures |out| >= HEADER_SIZE && Total(DRIVER_WIDTHS) == DRIVER_SIZE
    ensures Header(out)[22] + k * DRIVER_SIZE + DRIVER_SIZE <= |out|
    ensures Row(out, Header(out)[22], k, DRIVER_SIZE, DRIVER_WIDTHS) == DriverFields(offsets, x.drivers[k])
  {
    hide Segments, PlanFor, IsFile, Header, Table, Pack, DataSegments, Apart, Unpack, Fit, Total, DataPlan, Names, Known,
      Indexed, Row, DriverFields, Encodable;
    var p := PlanFor(x, |strings|);
    HeaderReadsBack(x, strings, offsets, out);
    FixedSegments(x, strings, offsets);
    SegmentOfFile(x, strings, offsets, out, 6);
    RecordSizes();
    DriverFits(x, strings, offsets, k);
    RowReadsBack(out, p.drivers, DriverRows(x, offsets), DRIVER_SIZE, DRIVER_WIDTHS, DriverFields(offsets, x.drivers[k]), k);
  }

  /** Driver `k` reads back with its six names. */
  lemma DriverReadsBack(x: Input, strings: seq<byte>, offsets: map<Name, nat>, out: seq<byte>, k: nat)
    requires Packed(x, strings, offsets, out) && k < |x.drivers|
    ensures |out| >= HEADER_SIZE && Total(DRIVER_WIDTHS) == DRIVER_SIZE
    ensures Header(out)[22] + k * DRIVER_SIZE + DRIVER_SIZE <= |out|
    ensures var row := Row(out, Header(out)[22], k, DRIVER_SIZE, DRIVER_WIDTHS);
      var d := x.drivers[k];
      && row == DriverFields(offsets, d)
      && NameFound(strings, row[0], Some(d.name)) && NameFound(strings, row[1], Some(d.bus))
      && NameFound(strings, row[2], Some(d.className)) && NameFound(strings, row[6], d.probe)
      && NameFound(strings, row[7], d.attach) && NameFound(strings, row[8], d.detach)
  {
    hide IsFile, Header, Total, Names, Known, Indexed, Row, NameFound, OffsetOrNone, Encodable;
    DriverRowIs(x, strings, offsets, out, k);
    StringsBound(x, strings, offsets);
    DriverNamesFound(x, strings, offsets, k);
  }

  lemma DriverNamesFound(x: Input, strings: seq<byte>, offsets: map<Name, nat>, k: nat)
    requires Indexed(strings, offsets) && Known(offsets, Names(x)) && |strings| <= NONE && k < |x.drivers|
    ensures var d := x.drivers[k];
      && NameFound(strings, OffsetOrNone(offsets, Some(d.name)), Some(d.name))
      && NameFound(strings, OffsetOrNone(offsets, Some(d.bus)), Some(d.bus))
      && NameFound(strings, OffsetOrNone(offsets, Some(d.className)), Some(d.className))
      && NameFound(strings, OffsetOrNone(offsets, d.probe), d.probe)
      && NameFound(strings, OffsetOrNone(offsets, d.attach), d.attach)
      && NameFound(strings, OffsetOrNone(offsets, d.detach), d.detach)
  {
    hide Names, Known, Indexed, NameFound, OffsetOf;
    var names := DriverNames(x.drivers[k]);
    forall i | 0 <= i < 6
      ensures NameFound(strings, OffsetOrNone(offsets, names[i]), names[i])
    {
      DriverNamesKnown(x, offsets, k, i);
      MaybeNameReadsBack(strings, offsets, names[i]);
    }
    assert names[0] == Some(x.drivers[k].name) && names[1] == Some(x.drivers[k].bus);
    assert names[2] == Some(x.drivers[k].className) && names[3] == x.drivers[k].probe;
    assert names[4] == x.drivers[k].attach && names[5] == x.drivers[k].detach;
  }
}
