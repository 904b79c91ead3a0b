/** From packed input to loaded image: the loader's view of a file (src/kernel/kofo.c:249-312), and
    what it loads from a file the packer wrote. */
module KofoRound {
  import opened Bits
  import opened KofoFormat
  import opened StringTables
  import opened Records
  import opened KofoPack
  import opened KofoWriter
  import opened KofoAgree
  import opened KofoLoad
  import R = KofoReloc

  lemma RowFits(size: nat, off: nat, count: nat, elem: nat, k: nat)
    requires RangeOk(size, off, count, elem) && k < count
    ensures off + k * elem + elem <= size
  {
    RowsLeft(k, count, elem);
  }

  function SectionAt(file: seq<byte>, h: seq<nat>, k: nat): Section
    requires |h| == 32 && TablesOk(|file|, h) && k < h[15]
  {
    RecordSizes();
    RowFits(|file|, h[14], h[15], SECTION_SIZE, k);
    var row := Row(file, h[14], k, SECTION_SIZE, SECTION_WIDTHS);
    Section(row[0], row[1], row[2], row[3], row[4], row[5])
  }

  function SymbolAt(file: seq<byte>, h: seq<nat>, k: nat): Symbol
    requires |h| == 32 && TablesOk(|file|, h) && k < h[17]
  {
    RecordSizes();
    RowFits(|file|, h[16], h[17], SYMBOL_SIZE, k);
    var row := Row(file, h[16], k, SYMBOL_SIZE, SYMBOL_WIDTHS);
    Symbol(row[0], row[1], row[2], row[3], row[4])
  }

  function RelocAt(file: seq<byte>, h: seq<nat>, k: nat): Reloc
    requires |h| == 32 && TablesOk(|file|, h) && k < h[21]
  {
    RecordSizes();
    RowFits(|file|, h[20], h[21], RELOC_SIZE, k);
    RelocOf(Row(file, h[20], k, RELOC_SIZE, RELOC_WIDTHS))
  }

  lemma ValidTables(file: seq<byte>)
    requires Validate(file) == 0
    ensures |file| >= HEADER_SIZE && TablesOk(|file|, Header(file))
  {
  }

  /** What the loader works on once it has accepted a file's header. */
  function ModuleOf(file: seq<byte>): Module
    requires Validate(file) == 0
  {
    ValidTables(file);
    var h := Header(file);
    Module(file, h[2], Strings(file, h),
           seq(h[15], k requires 0 <= k < h[15] => SectionAt(file, h, k)),
           seq(h[17], k requires 0 <= k < h[17] => SymbolAt(file, h, k)),
           seq(h[21], k requires 0 <= k < h[21] => RelocAt(file, h, k)))
  }

  // ---- what a packed file holds ----

  predicate CarriesSection(m: Module, s: Section, x: InSection) {
    && s.kind == x.kind && s.flags == x.flags && s.align == x.align && s.size == x.size
    && (NulFree(x.name) ==> CStr(m.strings, s.name) == Some(x.name))
    && (!NoData(x) ==> s.dataOff + |x.data| <= |m.file| && m.file[s.dataOff..s.dataOff + |x.data|] == x.data)
  }

  predicate CarriesSymbol(m: Module, s: Symbol, x: InSymbol) {
    && s.section == x.section && s.flags == x.flags && s.value == x.value && s.size == x.size
    && (NulFree(x.name) ==> CStr(m.strings, s.name) == Some(x.name))
  }

  /** The loader's view holds the sections, symbols and relocations of the input. */
  ghost predicate Carries(m: Module, x: Input) {
    && |m.sections| == |x.sections| && |m.symbols| == |x.symbols| && m.relocs == x.relocs
    && (forall k :: 0 <= k < |x.sections| ==> CarriesSection(m, m.sections[k], x.sections[k]))
    && (forall k :: 0 <= k < |x.symbols| ==> CarriesSymbol(m, m.symbols[k], x.symbols[k]))
  }

  lemma CountsReadBack(x: Input, strings: seq<byte>, offsets: map<Name, nat>, out: seq<byte>)
    requires Packed(x, strings, offsets, out)
    ensures |out| >= HEADER_SIZE
    ensures var h := Header(out); h[15] == |x.sections| && h[17] == |x.symbols| && h[21] == |x.relocs|
  {
    hide Segments, PlanFor, IsFile, Encodable, Indexed, Known, Names, Header;
    HeaderReadsBack(x, strings, offsets, out);
  }

  /** A packed file is accepted, and the loader sees in it what was packed. */
  lemma PackedModule(x: Input, strings: seq<byte>, offsets: map<Name, nat>, out: seq<byte>)
    requires Packed(x, strings, offsets, out) && x.sections != [] && x.symbols != []
    ensures Validate(out) == 0 && Carries(ModuleOf(out), x)
  {
    hide IsFile, Encodable, Indexed, Known, Names, Header, Row, CStr, NoData, Total, TablesOk, OffsetOrNone;
    PackedFileValidates(x, strings, offsets, out);
    CountsReadBack(x, strings, offsets, out);
    ValidTables(out);
    var m := ModuleOf(out);
    forall k | 0 <= k < |x.sections| ensures CarriesSection(m, m.sections[k], x.sections[k]) {
      SectionReadsBack(x, strings, offsets, out, k);
    }
    forall k | 0 <= k < |x.symbols| ensures CarriesSymbol(m, m.symbols[k], x.symbols[k]) {
      SymbolReadsBack(x, strings, offsets, out, k);
    }
    forall k | 0 <= k < |x.relocs| ensures m.relocs[k] == x.relocs[k] {
      RelocReadsBack(x, strings, offsets, out, k);
    }
  }

  // ---- what is loaded from it ----

  /** The bytes of a loaded section stand at its base. */
  predicate SectionHeld(s: Section, x: InSection, base: nat, image: seq<byte>) {
    Loaded(s) && |x.data| == x.size ==> base + |x.data| <= |image| && image[base..base + |x.data|] == x.data
  }

  lemma LoadedSection(m: Module, x: Input, bases: seq<nat>, image: seq<byte>, k: nat)
    requires Carries(m, x) && IsImage(m, bases, image) && InOrder(m.sections, bases, 0, |image|) && k < |x.sections|
    ensures SectionHeld(m.sections[k], x.sections[k], bases[k], image)
  {
    var s, data := m.sections[k], x.sections[k].data;
    assert CarriesSection(m, s, x.sections[k]);
    if Loaded(s) && |data| == x.sections[k].size && data != [] {
      forall i | 0 <= i < |data| ensures image[bases[k] + i] == data[i] {
        assert m.file[s.dataOff..s.dataOff + |data|][i] == m.file[s.dataOff + i];
        assert Covers(m, bases, k, bases[k] + i);
      }
    }
    hide Has;
  }

  /** Every loaded section's bytes stand at its base, an aligned place no other section
      shares; all else is zero. */
  ghost predicate Holds(m: Module, x: Input, bases: seq<nat>, image: seq<byte>) {
    && |m.sections| == |x.sections| && InOrder(m.sections, bases, 0, |image|)
    && (forall k :: 0 <= k < |x.sections| ==> SectionHeld(m.sections[k], x.sections[k], bases[k], image))
    && (forall a :: 0 <= a < |image| && image[a] != 0 ==> exists k: nat :: Covers(m, bases, k, a))
  }

  lemma CarriedIsHeld(m: Module, x: Input, bases: seq<nat>, image: seq<byte>)
    requires Carries(m, x) && IsImage(m, bases, image) && InOrder(m.sections, bases, 0, |image|)
    ensures Holds(m, x, bases, image)
  {
    hide CarriesSection, CarriesSymbol, SectionHeld;
    forall k | 0 <= k < |x.sections| ensures SectionHeld(m.sections[k], x.sections[k], bases[k], image) {
      LoadedSection(m, x, bases, image, k);
    }
  }

  lemma LayoutInOrder(m: Module)
    requires LayoutOk(m)
    ensures InOrder(m.sections, Place(m, 0, 0).bases, 0, ImageSize(Place(m, 0, 0)))
  {
    hide Place;
    LayoutFacts(m);
  }

  /** Packing, accepting and laying out a kernel object loads what was packed. */
  lemma PackLoads(x: Input, strings: seq<byte>, offsets: map<Name, nat>, out: seq<byte>, image: seq<byte>)
    requires Packed(x, strings, offsets, out) && x.sections != [] && x.symbols != [] && Validate(out) == 0
    requires LayoutOk(ModuleOf(out)) && |image| == ImageSize(Place(ModuleOf(out), 0, 0))
    requires IsImage(ModuleOf(out), Place(ModuleOf(out), 0, 0).bases, image)
    ensures Holds(ModuleOf(out), x, Place(ModuleOf(out), 0, 0).bases, image)
  {
    hide ModuleOf, Place, Packed, Carries, InOrder, IsImage, Holds;
    PackedModule(x, strings, offsets, out);
    LayoutInOrder(ModuleOf(out));
    CarriedIsHeld(ModuleOf(out), x, Place(ModuleOf(out), 0, 0).bases, image);
  }

  // ---- after relocation ----

  /** No relocation of the module stores at `a`. */
  ghost predicate Untouched(env: R.Env, a: int)
    requires |env.bases| == |env.m.sections|
  {
    forall j :: 0 <= j < |env.m.relocs| ==> !R.InField(env, env.m.relocs[j], a)
  }

  /** Byte `i` of a packed section that is loaded is still there when loading ends, failed or
      not, unless a relocation stores over it. */
  lemma PackedByteSurvives(x: Input, env: R.Env, image: seq<byte>, k: nat, i: nat)
    requires Holds(env.m, x, env.bases, image)
    requires k < |x.sections| && Loaded(env.m.sections[k]) && i < |x.sections[k].data| == x.sections[k].size
    requires Untouched(env, env.bases[k] + i)
    ensures R.Valid(env, |image|) && env.bases[k] + i < |image|
    ensures R.Apply(env, image, 0).1[env.bases[k] + i] == x.sections[k].data[i]
  {
    hide R.Apply, R.InField, Has;
    var at, data := env.bases[k], x.sections[k].data;
    assert SectionHeld(env.m.sections[k], x.sections[k], at, image);
    assert image[at..at + |data|][i] == image[at + i];
    R.OutsideFieldsKept(env, image, 0, at + i);
  }

  /** From packing to the end of loading: the image the loader leaves holds every byte of
      every loaded section that no relocation stores over, and after success every field no
      later relocation touches holds the value of its packed relocation. */
  lemma PackLoadsToTheEnd(
    x: Input, strings: seq<byte>, offsets: map<Name, nat>, out: seq<byte>, image: seq<byte>, env: R.Env)
    requires Packed(x, strings, offsets, out) && x.sections != [] && x.symbols != [] && Validate(out) == 0
    requires LayoutOk(ModuleOf(out)) && |image| == ImageSize(Place(ModuleOf(out), 0, 0))
    requires IsImage(ModuleOf(out), Place(ModuleOf(out), 0, 0).bases, image)
    requires env.m == ModuleOf(out) && env.bases == Place(ModuleOf(out), 0, 0).bases
    ensures env.m.relocs == x.relocs && R.Valid(env, |image|) && |env.bases| == |env.m.sections| == |x.sections|
    ensures forall k, i :: 0 <= k < |x.sections| ==> ByteSurvives(x, env, R.Apply(env, image, 0).1, k, i)
    ensures forall j, a :: 0 <= j < |x.relocs| && R.Apply(env, image, 0).0 == 0 ==>
      FieldSettled(env, R.Apply(env, image, 0).1, j, a)
  {
    hide ModuleOf, Place, Packed, Carries, IsImage, Holds, LayoutOk, Validate, R.Apply, ByteSurvives, FieldSettled, InOrder;
    PackLoads(x, strings, offsets, out, image);
    PackedModule(x, strings, offsets, out);
    CarriesRelocs(env.m, x);
    HoldsOrder(env.m, x, env.bases, image);
    forall k, i | 0 <= k < |x.sections| ensures ByteSurvives(x, env, R.Apply(env, image, 0).1, k, i) {
      OneByte(x, env, image, k, i);
    }
    forall j, a | 0 <= j < |x.relocs| && R.Apply(env, image, 0).0 == 0
      ensures FieldSettled(env, R.Apply(env, image, 0).1, j, a)
    {
      OneField(env, image, j, a);
    }
  }

  ghost predicate ByteSurvives(x: Input, env: R.Env, end: seq<byte>, k: nat, i: int)
    requires k < |x.sections| == |env.m.sections| == |env.bases|
  {
    var data := x.sections[k].data;
    Loaded(env.m.sections[k]) && 0 <= i < |data| == x.sections[k].size && Untouched(env, env.bases[k] + i) ==>
      env.bases[k] + i < |end| && end[env.bases[k] + i] == data[i]
  }

  ghost predicate FieldSettled(env: R.Env, end: seq<byte>, j: nat, a: int)
    requires |env.bases| == |env.m.sections| && j < |env.m.relocs|
  {
    var rel := env.m.relocs[j];
    && (R.InField(env, rel, a) && (forall l :: j < l < |env.m.relocs| ==> !R.InField(env, env.m.relocs[l], a)) ==>
          && 0 <= a < |end| && R.One(env, rel).Done?
          && end[a] == R.One(env, rel).value[a - R.FieldAt(env, rel)])
  }

  lemma OneByte(x: Input, env: R.Env, image: seq<byte>, k: nat, i: int)
    requires Holds(env.m, x, env.bases, image) && k < |x.sections|
    ensures R.Valid(env, |image|) && ByteSurvives(x, env, R.Apply(env, image, 0).1, k, i)
  {
    hide R.Apply, Untouched, Holds, InOrder, Loaded;
    HoldsOrder(env.m, x, env.bases, image);
    var data := x.sections[k].data;
    if Loaded(env.m.sections[k]) && 0 <= i < |data| == x.sections[k].size && Untouched(env, env.bases[k] + i) {
      PackedByteSurvives(x, env, image, k, i);
    }
  }

  lemma OneField(env: R.Env, image: seq<byte>, j: nat, a: int)
    requires R.Valid(env, |image|) && |env.bases| == |env.m.sections| && j < |env.m.relocs| && R.Apply(env, image, 0).0 == 0
    ensures FieldSettled(env, R.Apply(env, image, 0).1, j, a)
  {
    hide R.Apply, R.Resolve, R.PatchBytes, R.Valid;
    var rel := env.m.relocs[j];
    if R.InField(env, rel, a) && forall l :: j < l < |env.m.relocs| ==> !R.InField(env, env.m.relocs[l], a) {
      R.FieldInside(env, rel, |image|);
      R.FieldHolds(env, image, 0, j, a);
    }
  }

  lemma CarriesRelocs(m: Module, x: Input)
    requires Carries(m, x)
    ensures m.relocs == x.relocs
  {
  }

  lemma HoldsOrder(m: Module, x: Input, bases: seq<nat>, image: seq<byte>)
    requires Holds(m, x, bases, image)
    ensures |bases| == |m.sections| == |x.sections| && InOrder(m.sections, bases, 0, |image|)
  {
  }
}
