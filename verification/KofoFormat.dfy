/** Kernel object files (src/kernel/kofo.h): the records, little-endian fields and names. */
module KofoFormat {
  import opened Bits
  import opened StringTables

  const MAGIC: nat := 0x4F46_4F4B
  const MAX_SIZE: nat := 2 * 1024 * 1024
  const U16: nat := 0x1_0000
  const U32: nat := 0x1_0000_0000
  const U64: nat := 0x1_0000_0000_0000_0000

  const F_ALLOC: nat := 1
  const F_BSS: nat := 0x10
  const F_IMPORT: nat := 4
  const UNDEF: nat := 0xFFFF

  const ABS64: nat := 1
  const ABS32: nat := 2
  const REL32: nat := 3

  datatype Section = Section(name: nat, kind: nat, flags: nat, align: nat, size: nat, dataOff: nat)
  datatype Symbol = Symbol(name: nat, section: nat, flags: nat, value: nat, size: nat)
  datatype Reloc = Reloc(section: nat, kind: nat, symbol: nat, offset: nat, addend: int)

  /** A flag word has the bit `f` set. */
  predicate Has(flags: nat, f: nat)
    requires f > 0
  {
    flags / f % 2 == 1
  }

  predicate Alloc(s: Section) {
    Has(s.flags, F_ALLOC)
  }

  /** The section's bytes come from the file. */
  predicate Loaded(s: Section) {
    Alloc(s) && !Has(s.flags, F_BSS)
  }

  /** A table of `count` elements lies inside the file. */
  predicate RangeOk(fileSize: nat, off: nat, count: nat, elem: nat) {
    if count == 0 then off <= fileSize
    else off != NONE && elem != 0 && off + count * elem <= fileSize
  }

  predicate AlignOk(align: nat) {
    align <= 1 || align in {2, 4, 8, 16, 32, 64, 128, 256, 512, 1024, 2048, 4096}
  }

  function AlignUp(v: nat, align: nat): nat {
    if align <= 1 then v else (v + align - 1) / align * align
  }

  lemma AlignUpFacts(v: nat, align: nat)
    ensures v <= AlignUp(v, align) < v + if align <= 1 then 1 else align
    ensures align > 0 ==> AlignUp(v, align) % align == 0
  {
    if align > 1 {
      DivBounds(v + align - 1, align);
      RoundedIsMultiple(v, align);
    }
  }

  lemma RoundedIsMultiple(v: nat, align: nat)
    requires align > 1
    ensures AlignUp(v, align) % align == 0
  {
    var q := (v + align - 1) / align;
    MultipleIsZero(align, q);
  }
}
