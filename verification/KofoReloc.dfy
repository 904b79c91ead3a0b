/** Resolving symbols and patching fields of a laid-out kernel object: src/kernel/kofo.c:400-519. */
module KofoReloc {
  import opened Bits
  import opened KofoFormat
  import opened StringTables
  import opened Records
  import opened KofoLoad

  const BAD_IMAGE: int := -8
  const NOT_SUPPORTED: int := -95
  const NOT_FOUND: int := -2

  datatype KernelSymbol = KernelSymbol(name: Option<seq<byte>>, value: nat)

  /** A laid-out module: section bases, the address of its image, and the kernel's own symbols. */
  datatype Env = Env(m: Module, bases: seq<nat>, addr: nat, kernel: seq<KernelSymbol>)

  datatype Result<T> = Fail(code: int) | Done(value: T)

  predicate Valid(env: Env, imageSize: nat) {
    InOrder(env.m.sections, env.bases, 0, imageSize)
  }

  function Lookup(kernel: seq<KernelSymbol>, name: seq<byte>, i: nat): Result<nat>
    requires i <= |kernel|
    decreases |kernel| - i, name
  {
    if i == |kernel| then Fail(NOT_FOUND)
    else if kernel[i].name == Some(name) then Done(kernel[i].value)
    else Lookup(kernel, name, i + 1)
  }

  /** The address of a symbol. */
  function Resolve(env: Env, index: nat): Result<nat>
    requires |env.bases| == |env.m.sections|
  {
    if index >= |env.m.symbols| then Fail(BAD_IMAGE)
    else
      var sym := env.m.symbols[index];
      var name := CStr(env.m.strings, sym.name);
      if name.None? then Fail(BAD_IMAGE)
      else if sym.section == UNDEF || Has(sym.flags, F_IMPORT) then Lookup(env.kernel, name.value, 0)
      else if sym.section >= |env.m.sections| then Fail(BAD_IMAGE)
      else
        var sec := env.m.sections[sym.section];
        if !Alloc(sec) || sym.value + sym.size > sec.size then Fail(BAD_IMAGE)
        else Done((env.addr + env.bases[sym.section] + sym.value) % U64)
  }

  /** The first kernel symbol of that name has that value. */
  ghost predicate FromKernel(kernel: seq<KernelSymbol>, name: seq<byte>, value: nat) {
    exists i :: 0 <= i < |kernel| && kernel[i] == KernelSymbol(Some(name), value) && NotBefore(kernel, name, i)
  }

  ghost predicate NotBefore(kernel: seq<KernelSymbol>, name: seq<byte>, i: nat)
    requires i <= |kernel|
  {
    forall j :: 0 <= j < i ==> kernel[j].name != Some(name)
  }

  /** `value` is the address of a stretch of an allocated section of the image. */
  ghost predicate InImage(env: Env, sym: Symbol, value: nat, imageSize: nat) {
    && |env.bases| == |env.m.sections| && sym.section < |env.m.sections| && Alloc(env.m.sections[sym.section])
    && var off := env.bases[sym.section] + sym.value;
    && value == (env.addr + off) % U64
    && off + sym.size <= env.bases[sym.section] + env.m.sections[sym.section].size <= imageSize
  }

  lemma {:induction false} LookupFinds(kernel: seq<KernelSymbol>, name: seq<byte>, i: nat)
    requires i <= |kernel| && NotBefore(kernel, name, i)
    ensures var r := Lookup(kernel, name, i);
      if r.Done? then FromKernel(kernel, name, r.value) else r.code == NOT_FOUND && NotBefore(kernel, name, |kernel|)
    decreases |kernel| - i
  {
    if i < |kernel| && kernel[i].name != Some(name) {
      LookupFinds(kernel, name, i + 1);
    }
  }

  /** A resolved symbol is an address inside an allocated section of the image, or the
      value of the first kernel symbol of its name; it is reported missing exactly when
      it is imported and the kernel has none. */
  lemma ResolveFinds(env: Env, index: nat, imageSize: nat)
    requires Valid(env, imageSize) && index < |env.m.symbols|
    ensures |env.bases| == |env.m.sections|
    ensures var sym, r := env.m.symbols[index], Resolve(env, index);
      var name := CStr(env.m.strings, sym.name);
      && (r.Done? ==> name.Some?)
      && (r.Done? && Imported(sym) ==> FromKernel(env.kernel, name.value, r.value))
      && (r.Done? && !Imported(sym) ==> InImage(env, sym, r.value, imageSize))
      && (r == Fail(NOT_FOUND) <==> Imported(sym) && name.Some? && NotBefore(env.kernel, name.value, |env.kernel|))
  {
    hide Lookup, CStr, Has;
    var sym := env.m.symbols[index];
    var name := CStr(env.m.strings, sym.name);
    if Imported(sym) && name.Some? {
      LookupFinds(env.kernel, name.value, 0);
    }
  }

  predicate Imported(sym: Symbol) {
    sym.section == UNDEF || Has(sym.flags, F_IMPORT)
  }

  /** A 64-bit word read as a signed number. */
  function Signed(x: nat): int {
    if x < U64 / 2 then x else x - U64
  }

  /** The bytes a relocation stores at `place`. */
  function PatchBytes(kind: nat, symbol: nat, addend: int, place: nat): Result<seq<byte>> {
    var target := (symbol + addend) % U64;
    if kind == ABS64 then Done(Le(target, 8))
    else if kind == ABS32 then
      if Signed(target) < 0 || Signed(target) >= U32 then Fail(BAD_IMAGE) else Done(Le(target, 4))
    else if kind == REL32 then
      var value := Signed(target) - Signed((place + 4) % U64);
      if value < -0x8000_0000 || value > 0x7FFF_FFFF then Fail(BAD_IMAGE) else Done(Le(value % U32, 4))
    else Fail(NOT_SUPPORTED)
  }

  function Width(rel: Reloc): nat {
    if rel.kind == ABS64 then 8 else 4
  }

  /** Where a relocation stores, as an offset in the image. */
  function FieldAt(env: Env, rel: Reloc): nat
    requires |env.bases| == |env.m.sections| && rel.section < |env.m.sections|
  {
    env.bases[rel.section] + rel.offset
  }

  /** The field of the relocation lies in its section. */
  predicate FieldOk(env: Env, rel: Reloc) {
    && rel.section < |env.m.sections| && Alloc(env.m.sections[rel.section])
    && rel.offset + Width(rel) <= env.m.sections[rel.section].size
  }

  /** One pass of the loop: what is stored, at the relocation's field. */
  function One(env: Env, rel: Reloc): (r: Result<seq<byte>>)
    requires |env.bases| == |env.m.sections|
    ensures r.Done? ==> FieldOk(env, rel) && |r.value| == Width(rel)
  {
    if !FieldOk(env, rel) then Fail(BAD_IMAGE)
    else
      var symbol := Resolve(env, rel.symbol);
      if symbol.Fail? then Fail(symbol.code)
      else PatchBytes(rel.kind, symbol.value, rel.addend, (env.addr + FieldAt(env, rel)) % U64)
  }

  function Overwrite(image: seq<byte>, at: nat, bytes: seq<byte>): (r: seq<byte>)
    requires at + |bytes| <= |image|
    ensures |r| == |image|
  {
    image[..at] + bytes + image[at + |bytes|..]
  }

  /** Byte `a` of the image is in the field of `rel`. */
  predicate InField(env: Env, rel: Reloc, a: int)
    requires |env.bases| == |env.m.sections|
  {
    FieldOk(env, rel) && FieldAt(env, rel) <= a < FieldAt(env, rel) + Width(rel)
  }

  lemma FieldInside(env: Env, rel: Reloc, imageSize: nat)
    requires Valid(env, imageSize) && FieldOk(env, rel)
    ensures |env.bases| == |env.m.sections|
    ensures env.bases[rel.section] <= FieldAt(env, rel)
    ensures FieldAt(env, rel) + Width(rel) <= env.bases[rel.section] + env.m.sections[rel.section].size <= imageSize
  {
  }

  /** The relocations from `i` on, until one fails. */
  function Apply(env: Env, image: seq<byte>, i: nat): (r: (int, seq<byte>))
    requires i <= |env.m.relocs| && Valid(env, |image|)
    ensures |r.1| == |image|
    decreases |env.m.relocs| - i, env, image
  {
    if i == |env.m.relocs| then (0, image)
    else
      var rel := env.m.relocs[i];
      var r := One(env, rel);
      if r.Fail? then (r.code, image)
      else
        FieldInside(env, rel, |image|);
        Apply(env, Overwrite(image, FieldAt(env, rel), r.value), i + 1)
  }

  lemma ValidLength(env: Env, imageSize: nat)
    requires Valid(env, imageSize)
    ensures |env.bases| == |env.m.sections|
  {
  }

  /** A byte outside every field keeps its value. */
  lemma {:induction false} OutsideFieldsKept(env: Env, image: seq<byte>, i: nat, a: nat)
    requires i <= |env.m.relocs| && Valid(env, |image|) && a < |image| && |env.bases| == |env.m.sections|
    requires forall j :: i <= j < |env.m.relocs| ==> !InField(env, env.m.relocs[j], a)
    ensures Apply(env, image, i).1[a] == image[a]
    decreases |env.m.relocs| - i
  {
    hide Valid, PatchBytes, Resolve;
    if i < |env.m.relocs| {
      var rel := env.m.relocs[i];
      var r := One(env, rel);
      if r.Done? {
        FieldInside(env, rel, |image|);
        OutsideFieldsKept(env, Overwrite(image, FieldAt(env, rel), r.value), i + 1, a);
      }
    }
  }

  /** On success each field not overwritten by a later relocation holds the value of its formula. */
  lemma {:induction false} FieldHolds(env: Env, image: seq<byte>, i: nat, j: nat, a: nat)
    requires i <= j < |env.m.relocs| && Valid(env, |image|) && |env.bases| == |env.m.sections|
    requires Apply(env, image, i).0 == 0
    requires InField(env, env.m.relocs[j], a) && a < |image|
    requires forall l :: j < l < |env.m.relocs| ==> !InField(env, env.m.relocs[l], a)
    ensures var r := One(env, env.m.relocs[j]);
      r.Done? && Apply(env, image, i).1[a] == r.value[a - FieldAt(env, env.m.relocs[j])]
    decreases |env.m.relocs| - i
  {
    hide Valid, PatchBytes, Resolve;
    var rel := env.m.relocs[i];
    var r := One(env, rel);
    NeverZero(env, rel);
    FieldInside(env, rel, |image|);
    var next := Overwrite(image, FieldAt(env, rel), r.value);
    if i < j {
      FieldHolds(env, next, i + 1, j, a);
    } else {
      OutsideFieldsKept(env, next, i + 1, a);
    }
  }

  /** No failure reads as success. */
  lemma NeverZero(env: Env, rel: Reloc)
    requires |env.bases| == |env.m.sections|
    ensures One(env, rel).Fail? ==> One(env, rel).code != 0
  {
    if rel.symbol < |env.m.symbols| && CStr(env.m.strings, env.m.symbols[rel.symbol].name).Some? {
      LookupFinds(env.kernel, CStr(env.m.strings, env.m.symbols[rel.symbol].name).value, 0);
    }
  }
}
