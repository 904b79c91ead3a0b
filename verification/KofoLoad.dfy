/** Laying out and relocating a kernel object: src/kernel/kofo.c:314-519, on values. */
module KofoLoad {
  import opened Bits
  import opened KofoFormat
  import opened StringTables

  /** A validated file: its bytes, where its header ends, its names and its tables. */
  datatype Module = Module(
    file: seq<byte>, headerSize: nat, strings: seq<byte>,
    sections: seq<Section>, symbols: seq<Symbol>, relocs: seq<Reloc>)

  // ---- layout ----

  datatype Placement = Bad | Placed(bases: seq<nat>, end: nat)

  /** The source bytes of a section lie in the file, after the header. */
  predicate DataOk(m: Module, s: Section) {
    Has(s.flags, F_BSS) || s.size == 0 || (s.dataOff >= m.headerSize && RangeOk(|m.file|, s.dataOff, s.size, 1))
  }

  /** The tests a section to be loaded at or after `pos` has to pass. */
  predicate SectionOk(m: Module, s: Section, pos: nat) {
    && CStr(m.strings, s.name).Some?
    && (Alloc(s) ==>
          && AlignOk(s.align) && s.size <= MAX_SIZE && AlignUp(pos, s.align) + s.size <= MAX_SIZE
          && DataOk(m, s))
  }

  /** The first loop of `kofo_layout_sections`, from section `i` on. */
  function Place(m: Module, i: nat, pos: nat): Placement
    requires i <= |m.sections|
    decreases |m.sections| - i, m, pos
  {
    if i == |m.sections| then Placed([], pos)
    else
      var s := m.sections[i];
      if !SectionOk(m, s, pos) then Bad
      else
        var base := if Alloc(s) then AlignUp(pos, s.align) else 0;
        var rest := Place(m, i + 1, if Alloc(s) then base + s.size else pos);
        if rest.Bad? then Bad else Placed([base] + rest.bases, rest.end)
  }

  /** Loaded sections sit one behind the other between `pos` and `end`, each aligned. */
  predicate InOrder(sections: seq<Section>, bases: seq<nat>, pos: nat, end: nat) {
    && |bases| == |sections|
    && (forall k :: 0 <= k < |sections| && Alloc(sections[k]) ==>
          && pos <= bases[k] && bases[k] + sections[k].size <= end
          && (sections[k].align > 0 ==> bases[k] % sections[k].align == 0))
    && (forall k, l :: 0 <= k < l < |sections| && Alloc(sections[k]) && Alloc(sections[l]) ==>
          bases[k] + sections[k].size <= bases[l])
  }

  lemma {:induction false} PlaceInOrder(m: Module, i: nat, pos: nat)
    requires i <= |m.sections| && Place(m, i, pos).Placed?
    ensures var p := Place(m, i, pos);
      pos <= p.end && InOrder(m.sections[i..], p.bases, pos, p.end)
    decreases |m.sections| - i
  {
    hide SectionOk, Alloc, AlignUp;
    if i < |m.sections| {
      var s := m.sections[i];
      var base := if Alloc(s) then AlignUp(pos, s.align) else 0;
      var next := if Alloc(s) then base + s.size else pos;
      AlignUpFacts(pos, s.align);
      PlaceInOrder(m, i + 1, next);
      OneMore(s, m.sections[i + 1..], base, Place(m, i + 1, next).bases, pos, next, Place(m, i + 1, next).end);
      assert m.sections[i..] == [s] + m.sections[i + 1..];
    }
  }

  lemma OneMore(s: Section, rest: seq<Section>, base: nat, bases: seq<nat>, pos: nat, next: nat, end: nat)
    requires InOrder(rest, bases, next, end) && pos <= next <= end
    requires Alloc(s) ==> pos <= base && base + s.size == next && (s.align > 0 ==> base % s.align == 0)
    ensures InOrder([s] + rest, [base] + bases, pos, end)
  {
    hide Alloc;
  }

  lemma {:induction false} PlaceData(m: Module, i: nat, pos: nat, k: nat)
    requires i <= k < |m.sections| && Place(m, i, pos).Placed? && Alloc(m.sections[k])
    ensures DataOk(m, m.sections[k])
    decreases |m.sections| - i
  {
    hide DataOk, Alloc, AlignUp;
    if i < k {
      var s := m.sections[i];
      var base := if Alloc(s) then AlignUp(pos, s.align) else 0;
      PlaceData(m, i + 1, if Alloc(s) then base + s.size else pos, k);
    }
  }

  function ImageSize(p: Placement): nat
    requires p.Placed?
  {
    AlignUp(p.end, 16)
  }

  predicate LayoutOk(m: Module) {
    var p := Place(m, 0, 0);
    p.Placed? && 0 < ImageSize(p) <= MAX_SIZE
  }

  /** Byte `a` belongs to section `k`. */
  predicate Covers(m: Module, bases: seq<nat>, k: nat, a: int) {
    k < |m.sections| && k < |bases| && Loaded(m.sections[k]) && bases[k] <= a < bases[k] + m.sections[k].size
  }

  /** Every byte of the image is its section's byte in the file, or zero. */
  ghost predicate IsImage(m: Module, bases: seq<nat>, image: seq<byte>) {
    && (forall k: nat, a :: Covers(m, bases, k, a) && 0 <= a < |image| ==>
          var off := m.sections[k].dataOff + a - bases[k]; 0 <= off < |m.file| && image[a] == m.file[off])
    && (forall a :: 0 <= a < |image| && image[a] != 0 ==> exists k: nat :: Covers(m, bases, k, a))
  }

  /** What a successful layout guarantees. */
  lemma LayoutFacts(m: Module)
    requires LayoutOk(m)
    ensures var p := Place(m, 0, 0);
      InOrder(m.sections, p.bases, 0, p.end) && p.end <= ImageSize(p) && ImageSize(p) % 16 == 0
  {
    PlaceInOrder(m, 0, 0);
    AlignUpFacts(Place(m, 0, 0).end, 16);
    assert m.sections[0..] == m.sections;
  }
}
