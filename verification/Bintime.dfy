/** 64.64 fixed-point times of src/kernel/time.c:48-155, with the carries of 64-bit words. */
module Bintime {
  import opened Bits

  const WORD: int := 0x1_0000_0000_0000_0000
  const SPAN: int := 0x1_0000_0000_0000_0000_0000_0000_0000_0000

  /** What a 64-bit word keeps of a sum or difference. */
  function Low(x: int): (r: nat)
    ensures r < WORD
  {
    x % WORD
  }

  /** What two words keep. */
  function Low2(x: int): (r: nat)
    ensures r < SPAN
  {
    x % SPAN
  }

  /** The time in units of 2^-64 seconds. */
  function Units(sec: nat, frac: nat): nat {
    sec * WORD + frac
  }

  lemma LowOf(x: int)
    requires -WORD <= x < 2 * WORD
    ensures Low(x) == if x < 0 then x + WORD else if x < WORD then x else x - WORD
  {
  }

  lemma Low2Of(x: int)
    requires -SPAN <= x < 2 * SPAN
    ensures Low2(x) == if x < 0 then x + SPAN else if x < SPAN then x else x - SPAN
  {
  }

  lemma CarryAdds(sec: nat, frac: nat, si: nat, fi: nat)
    requires sec < WORD && frac < WORD && si < WORD && fi < WORD
    ensures var f, s := Low(frac + fi), Low(sec + si);
      Units(if f < fi then Low(s + 1) else s, f) == Low2(Units(sec, frac) + Units(si, fi))
  {
    hide Low, Low2;
    LowOf(frac + fi);
    LowOf(sec + si);
    LowOf(Low(sec + si) + 1);
    Low2Of(Units(sec, frac) + Units(si, fi));
  }

  lemma BorrowSubtracts(sec: nat, frac: nat, si: nat, fi: nat)
    requires sec < WORD && frac < WORD && si < WORD && fi < WORD
    ensures var f, s := Low(frac - fi), Low(sec - si);
      Units(if f > frac then Low(s - 1) else s, f) == Low2(Units(sec, frac) - Units(si, fi))
  {
    hide Low, Low2;
    LowOf(frac - fi);
    LowOf(sec - si);
    LowOf(Low(sec - si) - 1);
    Low2Of(Units(sec, frac) - Units(si, fi));
  }

  /** The halves of a 128-bit product. */
  function High(prod: int): nat {
    Low(prod / WORD)
  }

  lemma ProductHalves(a: nat, b: nat)
    requires a < WORD && b < WORD
    ensures a * b < SPAN && Units(High(a * b), Low(a * b)) == a * b
  {
    ProductBound(a, b);
    HalvesOf(a * b);
  }

  lemma HalvesOf(p: int)
    requires 0 <= p < SPAN
    ensures Units(High(p), Low(p)) == p
  {
  }

  lemma ProductBound(a: nat, b: nat)
    requires a < WORD && b < WORD
    ensures 0 <= a * b < SPAN
  {
    MulMonotone(0, a, b);
    MulMonotone(a, WORD, b);
    assert WORD * b <= WORD * WORD == SPAN;
  }

  /** The scale of a counter of `f` ticks a second, as a 64-bit word. */
  function Scale(f: nat): nat
    requires f > 0
  {
    Low((WORD - 1) / f + 1)
  }

  const NSEC_PER_SEC: nat := 1_000_000_000

  class Time {
    var sec: nat
    var frac: nat

    constructor ()
      ensures Valid() && Value() == 0
    {
      sec, frac := 0, 0;
    }

    ghost predicate Valid()
      reads this
    {
      sec < WORD && frac < WORD
    }

    ghost function Value(): nat
      reads this
    {
      Units(sec, frac)
    }

    /** Adds `delta` times `scale` units. */
    method AddDelta(delta: nat, scale: nat)
      requires Valid() && delta < WORD && scale < WORD
      modifies this
      ensures Valid() && Value() == Low2(old(Value()) + delta * scale)
    {
      hide Low, Low2, Units, High;
      var prod := delta * scale;
      ProductHalves(delta, scale);
      var secInc, fracInc := Low(prod / WORD), Low(prod);
      assert secInc == High(prod) by {
        HighIs(prod);
      }
      CarryAdds(sec, frac, secInc, fracInc);
      sec := Low(sec + secInc);
      frac := Low(frac + fracInc);
      if frac < fracInc {
        sec := Low(sec + 1);
      }
    }

    /** The other time may be this one. */
    method Add(other: Time)
      requires Valid() && other.Valid()
      modifies this
      ensures Valid() && Value() == Low2(old(Value()) + old(other.Value()))
    {
      hide Low, Low2, Units;
      CarryAdds(other.sec, other.frac, sec, frac);
      var before := frac;
      frac := Low(frac + other.frac);
      sec := Low(sec + other.sec);
      if frac < before {
        sec := Low(sec + 1);
      }
    }

    method Sub(other: Time)
      requires Valid() && other.Valid()
      modifies this
      ensures Valid() && Value() == Low2(old(Value()) - old(other.Value()))
    {
      hide Low, Low2, Units;
      BorrowSubtracts(sec, frac, other.sec, other.frac);
      var before := frac;
      frac := Low(frac - other.frac);
      sec := Low(sec - other.sec);
      if frac > before {
        sec := Low(sec - 1);
      }
    }

    method AddNs(ns: nat)
      requires Valid() && ns < WORD
      modifies this
      ensures Valid() && Value() == Low2(old(Value()) + ns * Scale(NSEC_PER_SEC))
    {
      AddDelta(ns, Scale(NSEC_PER_SEC));
    }

    method SubNs(ns: nat)
      requires Valid() && ns < WORD
      modifies this
      ensures Valid() && Value() == Low2(old(Value()) - ns * Scale(NSEC_PER_SEC))
    {
      hide Low, Low2, Units, High, Scale;
      var prod := ns * Scale(NSEC_PER_SEC);
      ScaleIsWord(NSEC_PER_SEC);
      ProductHalves(ns, Scale(NSEC_PER_SEC));
      var secDec, fracDec := Low(prod / WORD), Low(prod);
      HighIs(prod);
      BorrowSubtracts(sec, frac, secDec, fracDec);
      sec := Low(sec - secDec);
      var before := frac;
      frac := Low(frac - fracDec);
      if frac > before {
        sec := Low(sec - 1);
      }
    }
  }

  lemma ScaleIsWord(f: nat)
    requires f > 0
    ensures Scale(f) < WORD
  {
  }

  /** Subtracting what was added restores a time, whatever wrapped in between. */
  lemma AddThenSub(v: nat, p: int)
    requires v < SPAN
    ensures Low2(Low2(v + p) - p) == v
  {
  }

  lemma HighIs(p: int)
    ensures High(p) == Low(p / WORD)
  {
  }
}
