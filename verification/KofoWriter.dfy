/** The file a writer produces: its segments do not touch, and filling a buffer with them in order. */
module KofoWriter {
  import opened Bits
  import opened KofoFormat
  import opened StringTables
  import opened Records
  import opened KofoPack

  // ---- record sizes ----

  lemma RecordSizes()
    ensures Total(HEADER_WIDTHS) == HEADER_SIZE
    ensures Total(SECTION_WIDTHS) == SECTION_SIZE && Total(SYMBOL_WIDTHS) == SYMBOL_SIZE
    ensures Total(IMPORT_WIDTHS) == IMPORT_SIZE && Total(RELOC_WIDTHS) == RELOC_SIZE
    ensures Total(DRIVER_WIDTHS) == DRIVER_SIZE
  {
    hide Total, Words;
    WordWidths();
    TotalWords(1);
    TotalWords(2);
    TotalWords(4);
    TotalWords(14);
    TotalWords(27);
    TotalTwo(2, 2);
    TotalTwo(8, 8);
    TotalTwo(4, 8);
    TotalAppend(Words(1), [2, 2] + [2, 2]);
    TotalAppend([2, 2], [2, 2]);
    TotalAppend([4, 2, 2, 2, 2], Words(27));
    TotalAppend(Words(4), [8] + Words(2));
    TotalOne(8);
    TotalAppend([8], Words(2));
    TotalAppend(Words(1), [2, 2] + [8, 8]);
    TotalAppend([2, 2], [8, 8]);
    TotalAppend([2, 2], [4, 8] + [8]);
    TotalAppend([4, 8], [8]);
  }

  lemma WordWidths()
    ensures [4, 2, 2, 2, 2] == Words(1) + ([2, 2] + [2, 2])
    ensures SECTION_WIDTHS == Words(4) + ([8] + Words(2))
    ensures SYMBOL_WIDTHS == Words(1) + ([2, 2] + [8, 8])
    ensures IMPORT_WIDTHS == Words(4)
    ensures RELOC_WIDTHS == [2, 2] + ([4, 8] + [8])
  {
  }

  lemma TableSizes(x: Input, offsets: map<Name, nat>, p: Plan)
    requires |p.data| == |x.sections|
    ensures |Table(SectionRows(x, offsets, p))| == |x.sections| * SECTION_SIZE
    ensures |Table(SymbolRows(x, offsets))| == |x.symbols| * SYMBOL_SIZE
    ensures |Table(ImportRows(x, offsets))| == |x.imports| * IMPORT_SIZE
    ensures |Table(RelocRows(x))| == |x.relocs| * RELOC_SIZE
    ensures |Table(DriverRows(x, offsets))| == |x.drivers| * DRIVER_SIZE
  {
    hide Pack, Total, Table, Words;
    RecordSizes();
    TableLength(SectionRows(x, offsets, p), SECTION_SIZE);
    TableLength(SymbolRows(x, offsets), SYMBOL_SIZE);
    TableLength(ImportRows(x, offsets), IMPORT_SIZE);
    TableLength(RelocRows(x), RELOC_SIZE);
    TableLength(DriverRows(x, offsets), DRIVER_SIZE);
  }

  // ---- the segments do not touch ----

  predicate Within(segs: seq<Segment>, lo: nat, hi: nat) {
    Apart(segs, hi) && forall i :: 0 <= i < |segs| ==> lo <= segs[i].at
  }

  lemma WithinJoin(a: seq<Segment>, b: seq<Segment>, lo: nat, mid: nat, hi: nat)
    requires lo <= mid <= hi && Within(a, lo, mid) && Within(b, mid, hi)
    ensures Within(a + b, lo, hi)
  {
  }

  lemma WithinOne(s: Segment, lo: nat, hi: nat)
    requires lo <= s.at && s.at + |s.bytes| <= hi
    ensures Within([s], lo, hi)
  {
  }

  lemma {:induction false} DataWithin(ss: seq<InSection>, pos: nat)
    requires pos > 0
    ensures var d := DataPlan(ss, pos);
      pos <= d.1 && Within(DataSegments(ss, d.0), pos, d.1)
    decreases |ss|
  {
    hide NoData, AlignUp;
    if ss != [] {
      var next := if NoData(ss[0]) then pos else AlignUp(pos + |ss[0].data|, 8);
      AlignUpFacts(pos + |ss[0].data|, 8);
      DataWithin(ss[1..], next);
      var rest := DataPlan(ss[1..], next);
      var d := DataPlan(ss, pos);
      assert d.0[1..] == rest.0;
      if NoData(ss[0]) {
        assert DataSegments(ss, d.0) == DataSegments(ss[1..], rest.0);
      } else {
        WithinOne(Segment(pos, ss[0].data), pos, next);
        WithinJoin([Segment(pos, ss[0].data)], DataSegments(ss[1..], rest.0), pos, next, rest.1);
      }
    }
  }

  lemma Fits8(pos: nat, n: nat)
    ensures pos + n <= AlignUp(pos + n, 8)
  {
    AlignUpFacts(pos + n, 8);
  }

  /** Where the bytes of sections start. */
  function DataStart(x: Input, p: Plan): nat {
    AlignUp(p.drivers + |x.drivers| * DRIVER_SIZE, 8)
  }

  lemma PlanOrder(x: Input, n: nat)
    ensures var p := PlanFor(x, n);
      && p.strings == HEADER_SIZE && p.strings + n <= p.sections
      && p.sections + |x.sections| * SECTION_SIZE <= p.symbols
      && p.symbols + |x.symbols| * SYMBOL_SIZE <= p.imports
      && p.imports + |x.imports| * IMPORT_SIZE <= p.relocs
      && p.relocs + |x.relocs| * RELOC_SIZE <= p.drivers
      && p.drivers + |x.drivers| * DRIVER_SIZE <= DataStart(x, p)
      && (p.data, p.size) == DataPlan(x.sections, DataStart(x, p))
  {
    HeaderIsAligned();
    hide AlignUp, DataPlan;
    var p := PlanFor(x, n);
    Fits8(p.strings, n);
    Fits8(p.sections, |x.sections| * SECTION_SIZE);
    Fits8(p.symbols, |x.symbols| * SYMBOL_SIZE);
    Fits8(p.imports, |x.imports| * IMPORT_SIZE);
    Fits8(p.relocs, |x.relocs| * RELOC_SIZE);
    Fits8(p.drivers, |x.drivers| * DRIVER_SIZE);
  }

  lemma SegmentPlaces(x: Input, strings: seq<byte>, offsets: map<Name, nat>)
    ensures var p, s := PlanFor(x, |strings|), Segments(x, strings, offsets);
      && |s| >= 7 && |p.data| == |x.sections| && s[7..] == DataSegments(x.sections, p.data)
      && s[0].at == 0 && |s[0].bytes| == HEADER_SIZE
      && s[1] == Segment(p.strings, strings)
      && s[2].at == p.sections && |s[2].bytes| == |x.sections| * SECTION_SIZE
      && s[3].at == p.symbols && |s[3].bytes| == |x.symbols| * SYMBOL_SIZE
      && s[4].at == p.imports && |s[4].bytes| == |x.imports| * IMPORT_SIZE
      && s[5].at == p.relocs && |s[5].bytes| == |x.relocs| * RELOC_SIZE
      && s[6].at == p.drivers && |s[6].bytes| == |x.drivers| * DRIVER_SIZE
  {
    hide Pack, Table, SectionRows, SymbolRows, ImportRows, RelocRows, DriverRows, HeaderFields, PlanFor, DataSegments, Total;
    RecordSizes();
    TableSizes(x, offsets, PlanFor(x, |strings|));
  }

  /** The segments lie one behind the other in a file of the planned size. */
  lemma SegmentsApart(x: Input, strings: seq<byte>, offsets: map<Name, nat>)
    ensures Apart(Segments(x, strings, offsets), PlanFor(x, |strings|).size)
  {
    hide Segments, PlanFor, DataPlan, DataSegments, DataStart, Within, Apart;
    var p := PlanFor(x, |strings|);
    PlanOrder(x, |strings|);
    SegmentPlaces(x, strings, offsets);
    DataWithin(x.sections, DataStart(x, p));
    Stack(Segments(x, strings, offsets), x.sections, p, DataStart(x, p));
  }

  lemma HeaderIsAligned()
    ensures AlignUp(HEADER_SIZE, 8) == HEADER_SIZE
  {
  }

  lemma Stack(s: seq<Segment>, ss: seq<InSection>, p: Plan, data: nat)
    requires |s| >= 7 && |p.data| == |ss| && s[7..] == DataSegments(ss, p.data)
    requires s[0].at == 0 && |s[0].bytes| <= s[1].at
    requires s[1].at + |s[1].bytes| <= s[2].at && s[2].at + |s[2].bytes| <= s[3].at
    requires s[3].at + |s[3].bytes| <= s[4].at && s[4].at + |s[4].bytes| <= s[5].at
    requires s[5].at + |s[5].bytes| <= s[6].at && s[6].at + |s[6].bytes| <= data <= p.size
    requires Within(DataSegments(ss, p.data), data, p.size)
    ensures Apart(s, p.size)
  {
    hide DataSegments;
    var first := s[..7];
    assert Within(first, 0, data);
    WithinJoin(first, s[7..], 0, data, p.size);
    assert s == first + s[7..];
  }

  // ---- the code ----

  /** Writes one record after the other from `off` on. */
  method WriteTable(out: seq<byte>, off: nat, rows: seq<seq<byte>>, ghost w: nat) returns (r: seq<byte>)
    requires Uniform(rows, w) && off + |rows| * w <= |out|
    ensures |Table(rows)| == |rows| * w && r == Write(out, Segment(off, Table(rows)))
  {
    hide Write;
    r := out;
    var at := off;
    TableLength(rows, w);
    WriteNothing(out, off);
    for i := 0 to |rows|
      invariant at == off + |Table(rows[..i])| == off + i * w && |r| == |out|
      invariant r == Write(out, Segment(off, Table(rows[..i])))
    {
      TableLength(rows[..i + 1], w);
      RowsLeft(i, |rows|, w);
      assert rows[..i + 1][..i] == rows[..i];
      WriteMore(out, off, Table(rows[..i]), rows[i]);
      r := Write(r, Segment(at, rows[i]));
      at := at + |rows[i]|;
    }
    assert rows[..|rows|] == rows;
  }

  lemma RowsLeft(i: nat, n: nat, w: nat)
    requires i < n
    ensures i * w + w <= n * w && (i + 1) * w == i * w + w
  {
    if w > 0 {
      MulGap(w, i, n);
    }
  }

  lemma WriteNothing(out: seq<byte>, off: nat)
    requires off <= |out|
    ensures Write(out, Segment(off, Table([]))) == out
  {
  }

  lemma WriteMore(out: seq<byte>, off: nat, done: seq<byte>, row: seq<byte>)
    requires off + |done| + |row| <= |out|
    ensures Write(Write(out, Segment(off, done)), Segment(off + |done|, row)) == Write(out, Segment(off, done + row))
  {
  }

  /** Writes the bytes of the sections that have any. */
  method WriteData(out: seq<byte>, ss: seq<InSection>, at: seq<nat>, ghost before: seq<Segment>, ghost zeros: seq<byte>)
    returns (r: seq<byte>)
    requires |at| == |ss| && Apart(before + DataSegments(ss, at), |zeros|)
    requires Apart(before, |zeros|) && out == WriteAll(zeros, before)
    ensures r == WriteAll(zeros, before + DataSegments(ss, at))
  {
    hide WriteAll, Write, DataSegments, Apart;
    r := out;
    ghost var total := before + DataSegments(ss, at);
    ghost var done := before;
    assert ss[0..] == ss && at[0..] == at;
    for i := 0 to |ss|
      invariant done + DataSegments(ss[i..], at[i..]) == total
      invariant Apart(done, |zeros|) && r == WriteAll(zeros, done)
    {
      DataStep(total, done, ss, at, i, zeros);
      if at[i] != 0 {
        r := Write(r, Segment(at[i], ss[i].data));
        done := done + [Segment(at[i], ss[i].data)];
      }
    }
    NoMoreData(ss, at);
    assert done + [] == done;
  }

  lemma NoMoreData(ss: seq<InSection>, at: seq<nat>)
    requires |at| == |ss|
    ensures DataSegments(ss[|ss|..], at[|ss|..]) == []
  {
  }

  lemma DataStep(total: seq<Segment>, done: seq<Segment>, ss: seq<InSection>, at: seq<nat>, i: nat, zeros: seq<byte>)
    requires i < |ss| == |at| && Apart(total, |zeros|) && done + DataSegments(ss[i..], at[i..]) == total
    requires Apart(done, |zeros|)
    ensures var s := Segment(at[i], ss[i].data);
      if at[i] == 0 then done + DataSegments(ss[i + 1..], at[i + 1..]) == total
      else
        && s.at + |s.bytes| <= |zeros| && Apart(done + [s], |zeros|)
        && WriteAll(zeros, done + [s]) == Write(WriteAll(zeros, done), s)
        && (done + [s]) + DataSegments(ss[i + 1..], at[i + 1..]) == total
  {
    hide Write;
    var s := Segment(at[i], ss[i].data);
    assert ss[i..][1..] == ss[i + 1..] && at[i..][1..] == at[i + 1..];
    var rest := DataSegments(ss[i + 1..], at[i + 1..]);
    if at[i] == 0 {
      assert DataSegments(ss[i..], at[i..]) == rest;
    } else {
      assert DataSegments(ss[i..], at[i..]) == [s] + rest;
      OneMoreSegment(total, done, s, rest, zeros);
    }
  }

  lemma OneMoreSegment(total: seq<Segment>, done: seq<Segment>, s: Segment, rest: seq<Segment>, zeros: seq<byte>)
    requires Apart(total, |zeros|) && done + ([s] + rest) == total && Apart(done, |zeros|)
    ensures s.at + |s.bytes| <= |zeros| && Apart(done + [s], |zeros|)
    ensures WriteAll(zeros, done + [s]) == Write(WriteAll(zeros, done), s)
    ensures (done + [s]) + rest == total
  {
    hide Write, WriteAll, Apart;
    var n := |done|;
    PrefixApart(total, |zeros|, n + 1);
    assert total[..n + 1] == done + [s];
    LastSegment(done, s, |zeros|);
    WriteLast(zeros, done, s);
    assert (done + [s]) + rest == done + ([s] + rest);
  }

  lemma PrefixApart(segs: seq<Segment>, size: nat, n: nat)
    requires Apart(segs, size) && n <= |segs|
    ensures Apart(segs[..n], size)
  {
  }

  /** The values fit the fields they are packed into; `struct.pack` refuses others. */
  predicate Encodable(x: Input, strings: seq<byte>, offsets: map<Name, nat>) {
    var p := PlanFor(x, |strings|);
    && Fit(HeaderFields(x, offsets, p, |strings|), HEADER_WIDTHS)
    && (forall i :: 0 <= i < |x.sections| ==> Fit(SectionFields(offsets, x.sections[i], p.data[i]), SECTION_WIDTHS))
    && (forall i :: 0 <= i < |x.symbols| ==> Fit(SymbolFields(offsets, x.symbols[i]), SYMBOL_WIDTHS))
    && (forall i :: 0 <= i < |x.imports| ==> Fit(ImportFields(offsets, x.imports[i]), IMPORT_WIDTHS))
    && (forall i :: 0 <= i < |x.relocs| ==> Fit(RelocFields(x.relocs[i]), RELOC_WIDTHS))
    && (forall i :: 0 <= i < |x.relocs| ==> -0x8000_0000_0000_0000 <= x.relocs[i].addend < 0x8000_0000_0000_0000)
    && (forall i :: 0 <= i < |x.drivers| ==> Fit(DriverFields(offsets, x.drivers[i]), DRIVER_WIDTHS))
  }

  /** `out` is the file of `x` with the given string table. */
  ghost predicate IsFile(x: Input, strings: seq<byte>, offsets: map<Name, nat>, out: seq<byte>) {
    var size := PlanFor(x, |strings|).size;
    var segs := Segments(x, strings, offsets);
    Apart(segs, size) && out == WriteAll(Zeros(size), segs)
  }

  /** Packs a kernel object with the string table it built; no file when a value does not fit its field. */
  method PackKofo(x: Input) returns (r: Option<seq<byte>>, strings: seq<byte>, offsets: map<Name, nat>)
    ensures Indexed(strings, offsets) && Known(offsets, Names(x))
    ensures r.Some? <==> Encodable(x, strings, offsets)
    ensures r.Some? ==> IsFile(x, strings, offsets, r.value)
  {
    hide Encodable, Segments, PlanFor, Write, WriteAll, Apart, Names, Pack, HeaderFields, Table, DataSegments, Indexed, Known;
    var table := new StringTable.Rooted();
    CollectStrings(table, x);
    strings, offsets := table.data, table.offsets;
    if !Encodable(x, table.data, table.offsets) {
      return None, strings, offsets;
    }
    var p := PlanFor(x, |table.data|);
    var names := table.offsets;
    ghost var segs := Segments(x, strings, offsets);
    ghost var zeros := Zeros(p.size);
    FixedSegments(x, strings, offsets);
    NoSegments(segs, zeros);
    PrefixWrites(zeros, segs, 0);
    var out := Write(Zeros(p.size), Segment(0, Pack(HeaderFields(x, names, p, |table.data|), HEADER_WIDTHS)));
    PrefixWrites(zeros, segs, 1);
    out := Write(out, Segment(p.strings, table.data));
    PrefixWrites(zeros, segs, 2);
    out := WriteTable(out, p.sections, SectionRows(x, names, p), SECTION_SIZE);
    PrefixWrites(zeros, segs, 3);
    out := WriteTable(out, p.symbols, SymbolRows(x, names), SYMBOL_SIZE);
    PrefixWrites(zeros, segs, 4);
    out := WriteTable(out, p.imports, ImportRows(x, names), IMPORT_SIZE);
    PrefixWrites(zeros, segs, 5);
    out := WriteTable(out, p.relocs, RelocRows(x), RELOC_SIZE);
    PrefixWrites(zeros, segs, 6);
    out := WriteTable(out, p.drivers, DriverRows(x, names), DRIVER_SIZE);
    out := WriteData(out, x.sections, p.data, segs[..7], zeros);
    return Some(out), strings, offsets;
  }

  lemma NoSegments(segs: seq<Segment>, zeros: seq<byte>)
    requires Apart(segs, |zeros|)
    ensures Apart(segs[..0], |zeros|) && WriteAll(zeros, segs[..0]) == zeros
  {
  }

  lemma PrefixWrites(zeros: seq<byte>, segs: seq<Segment>, k: nat)
    requires Apart(segs, |zeros|) && k < |segs|
    ensures Apart(segs[..k], |zeros|) && Apart(segs[..k + 1], |zeros|) && segs[k].at + |segs[k].bytes| <= |zeros|
    ensures WriteAll(zeros, segs[..k + 1]) == Write(WriteAll(zeros, segs[..k]), segs[k])
  {
    hide Write, WriteAll, Apart;
    PrefixApart(segs, |zeros|, k);
    PrefixApart(segs, |zeros|, k + 1);
    assert segs[..k + 1] == segs[..k] + [segs[k]];
    LastSegment(segs[..k], segs[k], |zeros|);
    WriteLast(zeros, segs[..k], segs[k]);
  }

  /** The seven fixed segments, and their tables' record sizes. */
  lemma FixedSegments(x: Input, strings: seq<byte>, offsets: map<Name, nat>)
    ensures var p, s := PlanFor(x, |strings|), Segments(x, strings, offsets);
      && Apart(s, p.size) && |s| >= 7 && s == s[..7] + DataSegments(x.sections, p.data)
      && s[0] == Segment(0, Pack(HeaderFields(x, offsets, p, |strings|), HEADER_WIDTHS))
      && s[1] == Segment(p.strings, strings)
      && s[2] == Segment(p.sections, Table(SectionRows(x, offsets, p)))
      && s[3] == Segment(p.symbols, Table(SymbolRows(x, offsets)))
      && s[4] == Segment(p.imports, Table(ImportRows(x, offsets)))
      && s[5] == Segment(p.relocs, Table(RelocRows(x)))
      && s[6] == Segment(p.drivers, Table(DriverRows(x, offsets)))
    ensures Uniform(SectionRows(x, offsets, PlanFor(x, |strings|)), SECTION_SIZE)
    ensures Uniform(SymbolRows(x, offsets), SYMBOL_SIZE) && Uniform(ImportRows(x, offsets), IMPORT_SIZE)
    ensures Uniform(RelocRows(x), RELOC_SIZE) && Uniform(DriverRows(x, offsets), DRIVER_SIZE)
    ensures |Table(SectionRows(x, offsets, PlanFor(x, |strings|)))| == |x.sections| * SECTION_SIZE
    ensures |Table(SymbolRows(x, offsets))| == |x.symbols| * SYMBOL_SIZE
    ensures |Table(ImportRows(x, offsets))| == |x.imports| * IMPORT_SIZE
    ensures |Table(RelocRows(x))| == |x.relocs| * RELOC_SIZE
    ensures |Table(DriverRows(x, offsets))| == |x.drivers| * DRIVER_SIZE
  {
    hide Pack, Table, PlanFor, DataSegments, Total, Apart, HeaderFields;
    SegmentsApart(x, strings, offsets);
    RecordSizes();
    TableSizes(x, offsets, PlanFor(x, |strings|));
  }
}
