/** The loader that builds and patches a module's image in place: src/kernel/kofo.c:216-230,
    338-519. */
module KofoImage {
  import opened Bits
  import opened KofoFormat
  import opened StringTables
  import opened Records
  import opened KofoLoad
  import opened KofoReloc

  /** The image after the first `n` sections have been copied. */
  ghost predicate FilledUpTo(m: Module, bases: seq<nat>, image: seq<byte>, n: nat) {
    && (forall k: nat, a :: k < n && Covers(m, bases, k, a) && 0 <= a < |image| ==>
          var off := m.sections[k].dataOff + a - bases[k]; 0 <= off < |m.file| && image[a] == m.file[off])
    && (forall a :: 0 <= a < |image| && image[a] != 0 ==> exists k: nat :: k < n && Covers(m, bases, k, a))
  }

  /** `after` is `before` with the bytes of section `k` copied in. */
  ghost predicate Copied(m: Module, bases: seq<nat>, k: nat, before: seq<byte>, after: seq<byte>)
    requires k < |m.sections| == |bases|
    requires m.sections[k].dataOff + m.sections[k].size <= |m.file|
  {
    && |after| == |before|
    && forall a :: 0 <= a < |after| ==>
        after[a] == if bases[k] <= a < bases[k] + m.sections[k].size
                    then m.file[m.sections[k].dataOff + a - bases[k]] else before[a]
  }

  lemma CopyNext(m: Module, bases: seq<nat>, n: nat, before: seq<byte>, after: seq<byte>)
    requires n < |m.sections| == |bases| && Loaded(m.sections[n])
    requires m.sections[n].dataOff + m.sections[n].size <= |m.file|
    requires InOrder(m.sections, bases, 0, |before|)
    requires FilledUpTo(m, bases, before, n) && Copied(m, bases, n, before, after)
    ensures FilledUpTo(m, bases, after, n + 1)
  {
    forall k: nat, a | k < n && Covers(m, bases, k, a) && 0 <= a < |after|
      ensures !(bases[n] <= a < bases[n] + m.sections[n].size)
    {
      assert bases[k] + m.sections[k].size <= bases[n];
    }
    forall a | 0 <= a < |after| && after[a] != 0
      ensures exists k: nat :: k < n + 1 && Covers(m, bases, k, a)
    {
      if bases[n] <= a < bases[n] + m.sections[n].size {
        assert Covers(m, bases, n, a);
      } else {
        var k: nat :| k < n && Covers(m, bases, k, a);
        assert k < n + 1 && Covers(m, bases, k, a);
      }
    }
  }

  lemma SkipNext(m: Module, bases: seq<nat>, n: nat, image: seq<byte>)
    requires n < |m.sections| && (!Loaded(m.sections[n]) || m.sections[n].size == 0)
    requires FilledUpTo(m, bases, image, n)
    ensures FilledUpTo(m, bases, image, n + 1)
  {
    forall a | 0 <= a < |image| && image[a] != 0
      ensures exists k: nat :: k < n + 1 && Covers(m, bases, k, a)
    {
      var k: nat :| k < n && Covers(m, bases, k, a);
      assert k < n + 1 && Covers(m, bases, k, a);
    }
  }

  lemma AllFilled(m: Module, bases: seq<nat>, image: seq<byte>)
    requires FilledUpTo(m, bases, image, |m.sections|)
    ensures IsImage(m, bases, image)
  {
  }

  /** `at` is the first multiple of the alignment from `pos` on. */
  predicate FirstFit(at: nat, pos: nat, align: nat) {
    if align == 0 then at == pos else pos <= at < pos + align && at % align == 0
  }

  class Loader {
    const m: Module
    const addr: nat
    const kernel: seq<KernelSymbol>
    var base: array<nat>
    var image: array<byte>

    constructor (m: Module, addr: nat, kernel: seq<KernelSymbol>)
      ensures this.m == m && this.addr == addr && this.kernel == kernel && fresh(base) && fresh(image)
    {
      this.m, this.addr, this.kernel := m, addr, kernel;
      base := new nat[0];
      image := new byte[0];
    }

    /** The name at `off`, if it ends inside the table. */
    method Name(off: nat) returns (r: Option<seq<byte>>)
      ensures r == CStr(m.strings, off)
    {
      if off == NONE || off >= |m.strings| {
        return None;
      }
      for i := off to |m.strings|
        invariant FindZero(m.strings, off) == FindZero(m.strings, i)
      {
        if m.strings[i] == 0 {
          return Some(m.strings[off..i]);
        }
      }
      return None;
    }

    /** The tests on one section, its base, and where the next one may start. */
    method PlaceSection(s: Section, pos: nat) returns (ok: bool, at: nat, next: nat)
      ensures ok == SectionOk(m, s, pos)
      ensures ok ==> at == (if Alloc(s) then AlignUp(pos, s.align) else 0)
      ensures ok ==> next == if Alloc(s) then at + s.size else pos
      ensures ok && Alloc(s) ==> FirstFit(at, pos, s.align) && pos <= next <= MAX_SIZE
      ensures ok && Loaded(s) && s.size > 0 ==> m.headerSize <= s.dataOff && s.dataOff + s.size <= |m.file|
    {
      AlignUpFacts(pos, s.align);
      hide CStr, Has, AlignOk;
      at, next := 0, pos;
      var name := Name(s.name);
      if name.None? {
        return false, at, next;
      }
      if !Alloc(s) {
        return true, at, next;
      }
      if !AlignOk(s.align) {
        return false, at, next;
      }
      at := AlignUp(pos, if s.align == 0 then 1 else s.align);
      if s.size > MAX_SIZE || at + s.size > MAX_SIZE {
        return false, at, next;
      }
      if !Has(s.flags, F_BSS) && s.size != 0
         && (s.dataOff < m.headerSize || !RangeOk(|m.file|, s.dataOff, s.size, 1)) {
        return false, at, next;
      }
      return true, at, at + s.size;
    }

    /** Assigns bases; `end` is where the last section ends. */
    method AssignBases() returns (ok: bool, end: nat)
      requires base.Length == |m.sections|
      modifies base
      ensures ok <==> Place(m, 0, 0).Placed?
      ensures ok ==> base[..] == Place(m, 0, 0).bases && end == Place(m, 0, 0).end
    {
      hide SectionOk, Place, Alloc, AlignUp;
      var pos: nat := 0;
      for i := 0 to |m.sections|
        invariant Extended(base[..i], Place(m, i, pos)) == Place(m, 0, 0)
      {
        PlaceStep(m, i, pos);
        var good, at, next := PlaceSection(m.sections[i], pos);
        if !good {
          return false, 0;
        }
        ghost var done := base[..i];
        base[i] := at;
        assert base[..i + 1] == done + [at];
        ExtendTwice(done, [at], Place(m, i + 1, next));
        pos := next;
      }
      PlaceEnd(m, pos);
      assert base[..|m.sections|] == base[..];
      return true, pos;
    }

    /** Copies the file bytes of section `k` to its base. */
    method CopySection(k: nat)
      requires k < |m.sections| == base.Length
      requires m.sections[k].dataOff + m.sections[k].size <= |m.file|
      requires base[k] + m.sections[k].size <= image.Length
      modifies image
      ensures Copied(m, base[..], k, old(image[..]), image[..])
    {
      var s, at := m.sections[k], base[k];
      for i := 0 to s.size
        invariant forall a :: 0 <= a < image.Length ==>
            image[a] == if at <= a < at + i then m.file[s.dataOff + a - at] else old(image[a])
      {
        image[at + i] := m.file[s.dataOff + i];
      }
    }

    /** Lays out the module: bases, and an image of the loaded sections over zeros. */
    method LayoutSections() returns (code: int)
      modifies this
      ensures code == if LayoutOk(m) then 0 else BAD_IMAGE
      ensures code == 0 ==>
        && fresh(base) && fresh(image)
        && base[..] == Place(m, 0, 0).bases && image.Length == ImageSize(Place(m, 0, 0))
        && IsImage(m, base[..], image[..])
    {
      hide Place, IsImage, FilledUpTo, Copied, InOrder;
      base := new nat[|m.sections|](_ => 0);
      var ok, end := AssignBases();
      if !ok {
        return BAD_IMAGE;
      }
      var size := AlignUp(end, 16);
      if size == 0 || size > MAX_SIZE {
        return BAD_IMAGE;
      }
      image := new byte[size](_ => 0);
      LayoutFacts(m);
      NothingFilled(m, base[..], image[..]);
      ghost var bases := base[..];
      for i := 0 to |m.sections|
        invariant FilledUpTo(m, bases, image[..], i)
        invariant image.Length == size && fresh(image) && fresh(base) && base[..] == bases
        invariant base != image as object
      {
        var s := m.sections[i];
        if !Alloc(s) || Has(s.flags, F_BSS) || s.size == 0 {
          SkipNext(m, bases, i, image[..]);
          continue;
        }
        SectionSource(m, i, bases, end, size);
        ghost var before := image[..];
        CopySection(i);
        CopyNext(m, bases, i, before, image[..]);
      }
      AllFilled(m, bases, image[..]);
      return 0;
    }

    ghost function View(): Env
      reads this, base
    {
      Env(m, base[..], addr, kernel)
    }

    method KernelSymbolLookup(name: seq<byte>) returns (r: Result<nat>)
      ensures r == Lookup(kernel, name, 0)
    {
      for i := 0 to |kernel|
        invariant Lookup(kernel, name, i) == Lookup(kernel, name, 0)
      {
        if kernel[i].name == Some(name) {
          return Done(kernel[i].value);
        }
      }
      return Fail(NOT_FOUND);
    }

    method ResolveSymbol(index: nat) returns (r: Result<nat>)
      requires base.Length == |m.sections|
      ensures r == Resolve(View(), index)
      ensures r.Done? ==> index < |m.symbols|
      ensures r.Done? && Imported(m.symbols[index]) ==>
        && CStr(m.strings, m.symbols[index].name).Some?
        && FromKernel(kernel, CStr(m.strings, m.symbols[index].name).value, r.value)
      ensures r.Done? && !Imported(m.symbols[index]) && KofoReloc.Valid(View(), image.Length) ==>
        InImage(View(), m.symbols[index], r.value, image.Length)
    {
      hide CStr, Lookup, Has;
      if index >= |m.symbols| {
        return Fail(BAD_IMAGE);
      }
      var sym := m.symbols[index];
      var name := Name(sym.name);
      if name.None? {
        return Fail(BAD_IMAGE);
      }
      if sym.section == UNDEF || Has(sym.flags, F_IMPORT) {
        r := KernelSymbolLookup(name.value);
        LookupFinds(kernel, name.value, 0);
        return;
      }
      if sym.section >= |m.sections| {
        return Fail(BAD_IMAGE);
      }
      var sec := m.sections[sym.section];
      if !Alloc(sec) || sym.value + sym.size > sec.size {
        return Fail(BAD_IMAGE);
      }
      return Done((addr + base[sym.section] + sym.value) % U64);
    }

    /** Stores the value of a relocation at `at`. */
    method PatchReloc(at: nat, kind: nat, symbol: nat, addend: int) returns (code: int)
      requires at + (if kind == ABS64 then 8 else 4) <= image.Length
      modifies image
      ensures var r := PatchBytes(kind, symbol, addend, (addr + at) % U64);
        if r.Fail? then code == r.code && image[..] == old(image[..])
        else code == 0 && image[..] == Overwrite(old(image[..]), at, r.value)
    {
      hide Le;
      var target := (symbol + addend) % U64;
      if kind == ABS64 {
        StoreLe(at, target, 8);
        return 0;
      } else if kind == ABS32 {
        var value := Signed(target);
        if value < 0 || value > 0xFFFF_FFFF {
          return BAD_IMAGE;
        }
        StoreLe(at, value, 4);
        return 0;
      } else if kind == REL32 {
        var place := (addr + at) % U64;
        var value := Signed(target) - Signed((place + 4) % U64);
        if value < -2147483648 || value > 2147483647 {
          return BAD_IMAGE;
        }
        StoreLe(at, value % U32, 4);
        return 0;
      }
      return NOT_SUPPORTED;
    }

    /** A little-endian store of `w` bytes. */
    method StoreLe(at: nat, n: nat, w: nat)
      requires at + w <= image.Length
      modifies image
      ensures image[..] == Overwrite(old(image[..]), at, Le(n, w))
    {
      var bytes := Le(n, w);
      forall i | 0 <= i < w {
        image[at + i] := bytes[i];
      }
    }

    /** Applies the relocations in order and stops at the first that fails. */
    method ApplyRelocs() returns (code: int)
      requires Valid(View(), image.Length) && base != image as object
      modifies image
      ensures (code, image[..]) == Apply(View(), old(image[..]), 0)
    {
      hide Valid, Resolve, PatchBytes, Overwrite, Apply, Alloc;
      ghost var env := View();
      ghost var start := image[..];
      for i := 0 to |m.relocs|
        invariant Apply(env, image[..], i) == Apply(env, start, 0)
        invariant base[..] == old(base[..])
      {
        var rel := m.relocs[i];
        ValidLength(env, image.Length);
        ApplyStep(env, image[..], i);
        if rel.section >= |m.sections| {
          return BAD_IMAGE;
        }
        var sec := m.sections[rel.section];
        var width := if rel.kind == ABS64 then 8 else 4;
        if !Alloc(sec) || rel.offset > sec.size || rel.offset + width > sec.size {
          return BAD_IMAGE;
        }
        var symbol := ResolveSymbol(rel.symbol);
        if symbol.Fail? {
          return symbol.code;
        }
        FieldInside(env, rel, image.Length);
        var ret := PatchReloc(base[rel.section] + rel.offset, rel.kind, symbol.value, rel.addend);
        if ret != 0 {
          return ret;
        }
      }
      ApplyEnd(env, image[..]);
      return 0;
    }
  }

  lemma ApplyStep(env: Env, image: seq<byte>, i: nat)
    requires i < |env.m.relocs| && Valid(env, |image|) && |env.bases| == |env.m.sections|
    ensures var rel := env.m.relocs[i];
      var r := One(env, rel);
      && (r.Fail? ==> r.code != 0 && Apply(env, image, i) == (r.code, image))
      && (r.Done? ==> FieldAt(env, rel) + |r.value| <= |image|)
      && (r.Done? ==> Apply(env, image, i) == Apply(env, Overwrite(image, FieldAt(env, rel), r.value), i + 1))
  {
    hide Valid, Resolve, PatchBytes;
    NeverZero(env, env.m.relocs[i]);
    if FieldOk(env, env.m.relocs[i]) {
      FieldInside(env, env.m.relocs[i], |image|);
    }
  }

  lemma ApplyEnd(env: Env, image: seq<byte>)
    requires Valid(env, |image|)
    ensures Apply(env, image, |env.m.relocs|) == (0, image)
  {
  }

  lemma NothingFilled(m: Module, bases: seq<nat>, image: seq<byte>)
    requires forall a :: 0 <= a < |image| ==> image[a] == 0
    ensures FilledUpTo(m, bases, image, 0)
  {
  }

  /** A loaded section's bytes lie in the file, and its place in the image. */
  lemma SectionSource(m: Module, i: nat, bases: seq<nat>, end: nat, size: nat)
    requires LayoutOk(m) && i < |m.sections| && Loaded(m.sections[i]) && m.sections[i].size > 0
    requires Place(m, 0, 0) == Placed(bases, end) && size == AlignUp(end, 16)
    ensures |bases| == |m.sections| && InOrder(m.sections, bases, 0, size)
    ensures m.sections[i].dataOff + m.sections[i].size <= |m.file| && bases[i] + m.sections[i].size <= size
  {
    hide Place;
    LayoutFacts(m);
    PlaceData(m, 0, 0, i);
  }

  lemma ExtendTwice(done: seq<nat>, one: seq<nat>, p: Placement)
    ensures Extended(done, Extended(one, p)) == Extended(done + one, p)
  {
    if p.Placed? {
      assert done + (one + p.bases) == (done + one) + p.bases;
    }
  }

  ghost function Extended(done: seq<nat>, p: Placement): Placement {
    if p.Bad? then Bad else Placed(done + p.bases, p.end)
  }

  lemma PlaceStep(m: Module, i: nat, pos: nat)
    requires i < |m.sections|
    ensures var s := m.sections[i];
      var base := if Alloc(s) then AlignUp(pos, s.align) else 0;
      Place(m, i, pos) ==
        if !SectionOk(m, s, pos) then Bad
        else Extended([base], Place(m, i + 1, if Alloc(s) then base + s.size else pos))
  {
    hide SectionOk;
  }

  lemma PlaceEnd(m: Module, pos: nat)
    ensures Place(m, |m.sections|, pos) == Placed([], pos)
  {
  }

  /** A layout is what relocation needs. */
  lemma LayoutIsValid(m: Module, addr: nat, kernel: seq<KernelSymbol>)
    requires LayoutOk(m)
    ensures Valid(Env(m, Place(m, 0, 0).bases, addr, kernel), ImageSize(Place(m, 0, 0)))
  {
    hide Place;
    LayoutFacts(m);
  }

  /** After loading, a byte outside all relocation fields is its section's byte in the file, or zero. */
  lemma ByteOutsideFields(env: Env, image: seq<byte>, a: nat, k: nat)
    requires Valid(env, |image|) && |env.bases| == |env.m.sections| && a < |image|
    requires IsImage(env.m, env.bases, image)
    requires forall j :: 0 <= j < |env.m.relocs| ==> !InField(env, env.m.relocs[j], a)
    ensures Covers(env.m, env.bases, k, a) ==>
      var off := env.m.sections[k].dataOff + a - env.bases[k];
      0 <= off < |env.m.file| && Apply(env, image, 0).1[a] == env.m.file[off]
    ensures (forall l: nat :: !Covers(env.m, env.bases, l, a)) ==> Apply(env, image, 0).1[a] == 0
  {
    hide Apply, InField, Valid;
    OutsideFieldsKept(env, image, 0, a);
  }
}
