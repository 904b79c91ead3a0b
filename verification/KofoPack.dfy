/** The writer of kernel objects: tools/kofo_pack.py:147-166, 462-642. */
module KofoPack {
  import opened Bits
  import opened KofoFormat
  import opened StringTables
  import opened Records

  datatype InSection = InSection(name: Name, kind: nat, flags: nat, align: nat, size: nat, data: seq<byte>)
  datatype InSymbol = InSymbol(name: Name, section: nat, flags: nat, value: nat, size: nat)
  datatype InDriver = InDriver(
    name: Name, bus: Name, className: Name, pass: nat, order: nat, flags: nat,
    probe: Option<Name>, attach: Option<Name>, detach: Option<Name>)
  datatype Args = Args(name: Name, version: Option<Name>, abi: Option<Name>, init: Option<Name>, exit: Option<Name>)

  /** Everything that goes into a file. */
  datatype Input = Input(
    args: Args, sections: seq<InSection>, symbols: seq<InSymbol>, imports: seq<Name>,
    relocs: seq<Reloc>, drivers: seq<InDriver>)

  // ---- names ----

  /** The offset written for a name, or the mark for a missing one. */
  function OffsetOrNone(offsets: map<Name, nat>, v: Option<Name>): nat {
    if v.None? then NONE else OffsetOf(offsets, v.value)
  }

  /** Adds a name that may be missing. */
  method AddName(strings: StringTable, v: Option<Name>) returns (off: nat)
    requires strings.Valid()
    modifies strings
    ensures strings.Valid() && off == OffsetOrNone(strings.offsets, v)
    ensures v.Some? ==> v.value in strings.offsets
    ensures old(strings.data) <= strings.data
    ensures forall n :: n in old(strings.offsets) ==> n in strings.offsets && strings.offsets[n] == old(strings.offsets)[n]
  {
    if v.None? {
      return NONE;
    }
    off := strings.Add(v.value);
  }

  /** All the names of a driver. */
  function DriverNames(d: InDriver): seq<Option<Name>> {
    [Some(d.name), Some(d.bus), Some(d.className), d.probe, d.attach, d.detach]
  }

  /** The names in the order they are collected. */
  function Names(x: Input): seq<Option<Name>> {
    [Some(x.args.name), x.args.version, x.args.abi, x.args.init, x.args.exit] +
    seq(|x.sections|, i requires 0 <= i < |x.sections| => Some(x.sections[i].name)) +
    seq(|x.symbols|, i requires 0 <= i < |x.symbols| => Some(x.symbols[i].name)) +
    seq(|x.imports|, i requires 0 <= i < |x.imports| => Some(x.imports[i])) +
    AllDriverNames(x.drivers)
  }

  function AllDriverNames(ds: seq<InDriver>): seq<Option<Name>> {
    if ds == [] then [] else AllDriverNames(ds[..|ds| - 1]) + DriverNames(ds[|ds| - 1])
  }

  /** Every name of `names` has an offset. */
  predicate Known(offsets: map<Name, nat>, names: seq<Option<Name>>) {
    forall i :: 0 <= i < |names| && names[i].Some? ==> names[i].value in offsets
  }

  method CollectStrings(strings: StringTable, x: Input)
    requires strings.Valid()
    modifies strings
    ensures strings.Valid() && Known(strings.offsets, Names(x))
  {
    hide Names, Indexed;
    var names := Names(x);
    for i := 0 to |names|
      invariant strings.Valid() && Known(strings.offsets, names[..i])
    {
      var off := AddName(strings, names[i]);
      assert names[..i + 1] == names[..i] + [names[i]];
    }
    assert names[..|names|] == names;
  }

  // ---- where things go ----

  const HEADER_SIZE: nat := 120
  const SECTION_SIZE: nat := 32
  const SYMBOL_SIZE: nat := 24
  const IMPORT_SIZE: nat := 16
  const RELOC_SIZE: nat := 24
  const DRIVER_SIZE: nat := 56

  datatype Plan = Plan(
    strings: nat, sections: nat, symbols: nat, imports: nat, relocs: nat, drivers: nat, data: seq<nat>, size: nat)

  /** The section brings no bytes to the file. */
  predicate NoData(s: InSection) {
    Has(s.flags, F_BSS) || s.size == 0
  }

  /** Where the bytes of each section go, 0 for none, and where they end. */
  function DataPlan(ss: seq<InSection>, pos: nat): (r: (seq<nat>, nat))
    ensures |r.0| == |ss|
    decreases |ss|, pos
  {
    if ss == [] then ([], pos)
    else if NoData(ss[0]) then
      var rest := DataPlan(ss[1..], pos);
      ([0] + rest.0, rest.1)
    else
      var rest := DataPlan(ss[1..], AlignUp(pos + |ss[0].data|, 8));
      ([pos] + rest.0, rest.1)
  }

  function PlanFor(x: Input, stringSize: nat): (p: Plan)
    ensures |p.data| == |x.sections|
  {
    var strings := AlignUp(HEADER_SIZE, 8);
    var sections := AlignUp(strings + stringSize, 8);
    var symbols := AlignUp(sections + |x.sections| * SECTION_SIZE, 8);
    var imports := AlignUp(symbols + |x.symbols| * SYMBOL_SIZE, 8);
    var relocs := AlignUp(imports + |x.imports| * IMPORT_SIZE, 8);
    var drivers := AlignUp(relocs + |x.relocs| * RELOC_SIZE, 8);
    var data := AlignUp(drivers + |x.drivers| * DRIVER_SIZE, 8);
    var d := DataPlan(x.sections, data);
    Plan(strings, sections, symbols, imports, relocs, drivers, d.0, d.1)
  }

  // ---- the records ----

  const HEADER_WIDTHS: seq<nat> := [4, 2, 2, 2, 2] + Words(27)
  const SECTION_WIDTHS: seq<nat> := [4, 4, 4, 4, 8, 4, 4]
  const SYMBOL_WIDTHS: seq<nat> := [4, 2, 2, 8, 8]
  const IMPORT_WIDTHS: seq<nat> := [4, 4, 4, 4]
  const RELOC_WIDTHS: seq<nat> := [2, 2, 4, 8, 8]
  const DRIVER_WIDTHS: seq<nat> := Words(14)

  function HeaderFields(x: Input, offsets: map<Name, nat>, p: Plan, stringSize: nat): (r: seq<nat>)
    ensures |r| == 32
  {
    [MAGIC, 1, HEADER_SIZE, 1, 1] +
    [0, p.size, OffsetOrNone(offsets, Some(x.args.name)), OffsetOrNone(offsets, x.args.version),
     OffsetOrNone(offsets, x.args.abi), OffsetOrNone(offsets, x.args.init), OffsetOrNone(offsets, x.args.exit),
     p.strings, stringSize, p.sections, |x.sections|, p.symbols, |x.symbols|, p.imports, |x.imports|,
     p.relocs, |x.relocs|, p.drivers, |x.drivers|, 0, 0, 0, 0, 0, 0, 0, 0]
  }

  function SectionFields(offsets: map<Name, nat>, s: InSection, dataOff: nat): seq<nat> {
    [OffsetOrNone(offsets, Some(s.name)), s.kind, s.flags, s.align, s.size, dataOff, 0]
  }

  function SymbolFields(offsets: map<Name, nat>, s: InSymbol): seq<nat> {
    [OffsetOrNone(offsets, Some(s.name)), s.section, s.flags, s.value, s.size]
  }

  function ImportFields(offsets: map<Name, nat>, name: Name): seq<nat> {
    [OffsetOrNone(offsets, Some(name)), 0, NONE, 0]
  }

  function RelocFields(r: Reloc): seq<nat> {
    [r.section, r.kind, r.symbol, r.offset, r.addend % U64]
  }

  function DriverFields(offsets: map<Name, nat>, d: InDriver): seq<nat> {
    [OffsetOrNone(offsets, Some(d.name)), OffsetOrNone(offsets, Some(d.bus)), OffsetOrNone(offsets, Some(d.className)),
     d.pass, d.order, d.flags, OffsetOrNone(offsets, d.probe), OffsetOrNone(offsets, d.attach), OffsetOrNone(offsets, d.detach),
     0, 0, 0, 0, 0]
  }

  function SectionRows(x: Input, offsets: map<Name, nat>, p: Plan): seq<seq<byte>>
    requires |p.data| == |x.sections|
  {
    seq(|x.sections|, i requires 0 <= i < |x.sections| =>
        Pack(SectionFields(offsets, x.sections[i], p.data[i]), SECTION_WIDTHS))
  }

  function SymbolRows(x: Input, offsets: map<Name, nat>): seq<seq<byte>> {
    seq(|x.symbols|, i requires 0 <= i < |x.symbols| => Pack(SymbolFields(offsets, x.symbols[i]), SYMBOL_WIDTHS))
  }

  function ImportRows(x: Input, offsets: map<Name, nat>): seq<seq<byte>> {
    seq(|x.imports|, i requires 0 <= i < |x.imports| => Pack(ImportFields(offsets, x.imports[i]), IMPORT_WIDTHS))
  }

  function RelocRows(x: Input): seq<seq<byte>> {
    seq(|x.relocs|, i requires 0 <= i < |x.relocs| => Pack(RelocFields(x.relocs[i]), RELOC_WIDTHS))
  }

  function DriverRows(x: Input, offsets: map<Name, nat>): seq<seq<byte>> {
    seq(|x.drivers|, i requires 0 <= i < |x.drivers| => Pack(DriverFields(offsets, x.drivers[i]), DRIVER_WIDTHS))
  }

  // ---- the segments of a file ----

  function DataSegments(ss: seq<InSection>, at: seq<nat>): seq<Segment>
    requires |at| == |ss|
    decreases |ss|
  {
    if ss == [] then []
    else (if at[0] == 0 then [] else [Segment(at[0], ss[0].data)]) + DataSegments(ss[1..], at[1..])
  }

  function Segments(x: Input, strings: seq<byte>, offsets: map<Name, nat>): seq<Segment> {
    var p := PlanFor(x, |strings|);
    [Segment(0, Pack(HeaderFields(x, offsets, p, |strings|), HEADER_WIDTHS)),
     Segment(p.strings, strings),
     Segment(p.sections, Table(SectionRows(x, offsets, p))),
     Segment(p.symbols, Table(SymbolRows(x, offsets))),
     Segment(p.imports, Table(ImportRows(x, offsets))),
     Segment(p.relocs, Table(RelocRows(x))),
     Segment(p.drivers, Table(DriverRows(x, offsets)))] +
    DataSegments(x.sections, p.data)
  }
}
