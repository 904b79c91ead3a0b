/** Arithmetic in the field GF(2^8) of section 4.2 of FIPS 197, as libc/LibCrypto/src/aes.c does it. */
module Galois {

  function Xor(a: bv8, b: bv8): bv8 {
    a ^ b
  }

  /** Multiplication by the polynomial x. */
  function Xtime(a: bv8): bv8 {
    Xor(a << 1, if Top(a) then 0x1b else 0)
  }

  predicate Odd(b: bv8) {
    b & 1 != 0
  }

  function Half(b: bv8): bv8 {
    b >> 1
  }

  function Pick(b: bv8, a: bv8): bv8 {
    if Odd(b) then a else 0
  }

  /** The sum of `x^i` times `a` over the `n` low bits `i` set in `b`. */
  function TimesLow(a: bv8, b: bv8, n: nat): bv8
    decreases n, a, b
  {
    if n == 0 then 0 else Xor(Pick(b, a), TimesLow(Xtime(a), Half(b), n - 1))
  }

  function Times(a: bv8, b: bv8): bv8 {
    TimesLow(a, b, 8)
  }

  lemma XorCommutes(a: bv8, b: bv8)
    ensures Xor(a, b) == Xor(b, a)
  {
  }

  lemma XorAssociates(a: bv8, b: bv8, c: bv8)
    ensures Xor(a, Xor(b, c)) == Xor(Xor(a, b), c)
  {
  }

  lemma XorUnit(a: bv8)
    ensures Xor(a, 0) == a && Xor(0, a) == a && Xor(a, a) == 0
  {
  }

  lemma XorTwice(a: bv8, b: bv8)
    ensures Xor(Xor(a, b), b) == a
  {
    hide Xor;
    XorAssociates(a, b, b);
    XorUnit(b);
    XorUnit(a);
  }

  /** Four terms may be regrouped in pairs. */
  lemma XorSwap(a: bv8, b: bv8, c: bv8, d: bv8)
    ensures Xor(Xor(a, b), Xor(c, d)) == Xor(Xor(a, c), Xor(b, d))
  {
    hide Xor;
    XorAssociates(a, b, Xor(c, d));
    XorAssociates(b, c, d);
    XorCommutes(b, c);
    XorAssociates(c, b, d);
    XorAssociates(a, c, Xor(b, d));
  }

  /** The loop of `gmul`. */
  method Gmul(a: bv8, b: bv8) returns (result: bv8)
    ensures result == Times(a, b)
  {
    hide TimesLow, Xtime, Xor, Odd, Half;
    var x, y := a, b;
    result := 0;
    XorUnit(TimesLow(a, b, 8));
    for i := 0 to 8
      invariant Xor(result, TimesLow(x, y, 8 - i)) == TimesLow(a, b, 8)
    {
      TimesLowStep(x, y, 8 - i, result);
      if Odd(y) {
        result := Xor(result, x);
      }
      x := Xtime(x);
      y := Half(y);
    }
    TimesNone(x, y, result);
  }

  lemma TimesLowStep(a: bv8, b: bv8, n: nat, acc: bv8)
    requires n > 0
    ensures Xor(acc, TimesLow(a, b, n))
         == Xor(if Odd(b) then Xor(acc, a) else acc, TimesLow(Xtime(a), Half(b), n - 1))
  {
    hide Xtime, Xor, Odd, Half;
    XorAssociates(acc, Pick(b, a), TimesLow(Xtime(a), Half(b), n - 1));
    XorUnit(acc);
  }

  lemma TimesNone(a: bv8, b: bv8, acc: bv8)
    ensures Xor(acc, TimesLow(a, b, 0)) == acc
  {
  }

  predicate Top(a: bv8) {
    a & 0x80 != 0
  }

  function Reduced(a: bv8): bv8 {
    if Top(a) then 0x1b else 0
  }

  lemma TopXor(a: bv8, b: bv8)
    ensures Top(Xor(a, b)) == (Top(a) != Top(b))
  {
  }

  lemma ShiftXor(a: bv8, b: bv8)
    ensures Xor(a, b) << 1 == Xor(a << 1, b << 1)
  {
  }

  lemma XtimeXor(a: bv8, b: bv8)
    ensures Xtime(Xor(a, b)) == Xor(Xtime(a), Xtime(b))
  {
    hide Xor, Top;
    TopXor(a, b);
    ShiftXor(a, b);
    XorSwap(a << 1, Reduced(a), b << 1, Reduced(b));
    XorUnit(0x1b);
    XorUnit(0);
  }

  lemma OddXor(a: bv8, b: bv8)
    ensures Odd(Xor(a, b)) == (Odd(a) != Odd(b))
  {
  }

  lemma HalfXor(a: bv8, b: bv8)
    ensures Half(Xor(a, b)) == Xor(Half(a), Half(b))
  {
  }

  lemma PickXor(b: bv8, c: bv8, a: bv8)
    ensures Pick(Xor(b, c), a) == Xor(Pick(b, a), Pick(c, a))
  {
    hide Xor, Odd;
    OddXor(b, c);
    XorUnit(a);
    XorUnit(0);
  }

  lemma XorPick(c: bv8, a: bv8, b: bv8)
    ensures Pick(c, Xor(a, b)) == Xor(Pick(c, a), Pick(c, b))
  {
    hide Xor, Odd;
    XorUnit(0);
  }

  lemma {:induction false} TimesLowXor(a: bv8, b: bv8, c: bv8, n: nat)
    ensures TimesLow(Xor(a, b), c, n) == Xor(TimesLow(a, c, n), TimesLow(b, c, n))
    decreases n
  {
    hide Xtime, Xor, Odd, Half, Pick;
    XorUnit(0);
    if n > 0 {
      XtimeXor(a, b);
      XorPick(c, a, b);
      TimesLowXor(Xtime(a), Xtime(b), Half(c), n - 1);
      XorSwap(Pick(c, a), TimesLow(Xtime(a), Half(c), n - 1), Pick(c, b), TimesLow(Xtime(b), Half(c), n - 1));
    }
  }

  lemma {:induction false} TimesLowXorRight(a: bv8, b: bv8, c: bv8, n: nat)
    ensures TimesLow(a, Xor(b, c), n) == Xor(TimesLow(a, b, n), TimesLow(a, c, n))
    decreases n
  {
    hide Xtime, Xor, Odd, Half, Pick;
    XorUnit(0);
    if n > 0 {
      HalfXor(b, c);
      PickXor(b, c, a);
      TimesLowXorRight(Xtime(a), Half(b), Half(c), n - 1);
      XorSwap(Pick(b, a), TimesLow(Xtime(a), Half(b), n - 1), Pick(c, a), TimesLow(Xtime(a), Half(c), n - 1));
    }
  }

  /** Multiplication distributes over addition, on both sides. */
  lemma TimesDistributes(a: bv8, b: bv8, c: bv8)
    ensures Times(Xor(a, b), c) == Xor(Times(a, c), Times(b, c))
    ensures Times(a, Xor(b, c)) == Xor(Times(a, b), Times(a, c))
  {
    hide Xor, TimesLow;
    TimesLowXor(a, b, c, 8);
    TimesLowXorRight(a, b, c, 8);
  }

  lemma {:induction false} TimesZero(a: bv8, n: nat)
    ensures TimesLow(a, 0, n) == 0
    decreases n
  {
    if n > 0 {
      TimesZero(Xtime(a), n - 1);
    }
  }

  lemma TimesOne(a: bv8)
    ensures Times(a, 1) == a
  {
    hide Xor, Xtime;
    TimesZero(Xtime(a), 7);
    XorUnit(a);
  }

  lemma TimesTwo(a: bv8)
    ensures Times(a, 2) == Xtime(a)
  {
    hide Xor, Xtime;
    TimesZero(Xtime(Xtime(a)), 6);
    assert TimesLow(Xtime(a), 1, 7) == Xor(Xtime(a), TimesLow(Xtime(Xtime(a)), 0, 6));
    XorUnit(Xtime(a));
  }

  lemma TimesThree(a: bv8)
    ensures Times(a, 3) == Xor(a, Xtime(a))
  {
    hide Times, Xtime;
    TimesDistributes(a, 1, 2);
    TimesOne(a);
    TimesTwo(a);
  }

  /** `k` is below two to the power `n`. */
  predicate Fits(k: bv8, n: nat)
    decreases n, k
  {
    if n == 0 then k == 0 else Fits(Half(k), n - 1)
  }

  lemma {:induction false} TimesLowEnough(a: bv8, k: bv8, n: nat)
    requires Fits(k, n)
    ensures TimesLow(a, k, n + 1) == TimesLow(a, k, n)
    decreases n
  {
    hide Xor, Xtime, Half;
    if n == 0 {
      TimesZero(a, 1);
    } else {
      TimesLowEnough(Xtime(a), Half(k), n - 1);
    }
  }

  lemma DoubleHalves(k: bv8)
    requires k < 0x80
    ensures !Odd(k << 1) && Half(k << 1) == k
  {
  }

  /** Doubling the left factor doubles the right one as long as it does not overflow. */
  lemma TimesDouble(a: bv8, k: bv8)
    requires k < 0x80 && Fits(k, 7)
    ensures Times(Xtime(a), k) == Times(a, k << 1)
  {
    hide Xor, Xtime, Odd, Half, Fits;
    DoubleHalves(k);
    TimesLowEnough(Xtime(a), k, 7);
    XorUnit(TimesLow(Xtime(a), k, 7));
  }

  function Sum4(a: bv8, b: bv8, c: bv8, d: bv8): bv8 {
    Xor(Xor(Xor(a, b), c), d)
  }

  lemma TimesSumRight(a: bv8, b: bv8, c: bv8, d: bv8, e: bv8)
    ensures Sum4(Times(a, b), Times(a, c), Times(a, d), Times(a, e)) == Times(a, Sum4(b, c, d, e))
  {
    hide Xor, Times;
    TimesDistributes(a, b, c);
    TimesDistributes(a, Xor(b, c), d);
    TimesDistributes(a, Xor(Xor(b, c), d), e);
  }

  /** Multiplying twice by constants is multiplying by their product. */
  lemma TimesProducts(a: bv8, k: bv8)
    requires k < 0x10
    ensures Times(Times(a, 2), k) == Times(a, k << 1)
    ensures Times(Times(a, 3), k) == Times(a, Xor(k, k << 1))
  {
    assert Fits(k, 7) by {
      SmallFits(k);
    }
    hide Xor, Times, Xtime, Fits;
    TimesTwo(a);
    TimesThree(a);
    TimesDouble(a, k);
    TimesDistributes(a, Xtime(a), k);
    TimesDistributes(a, k, k << 1);
  }

  lemma {:induction false} ZeroFits(n: nat)
    ensures Fits(0, n)
    decreases n
  {
    if n > 0 {
      ZeroFits(n - 1);
    }
  }

  lemma FourHalvings(k: bv8)
    requires k < 0x10
    ensures Half(Half(Half(Half(k)))) == 0
  {
  }

  lemma SmallFits(k: bv8)
    requires k < 0x10
    ensures Fits(k, 7)
  {
    hide Half;
    FourHalvings(k);
    ZeroFits(3);
    var k1 := Half(k);
    var k2 := Half(k1);
    assert Fits(Half(k2), 4);
    assert Fits(k1, 6);
  }

  /** The four products along a row of the inverse matrix and a column of the matrix cancel or leave `a`. */
  lemma RowTimesColumn(a: bv8)
    ensures Sum4(Times(Times(a, 2), 0x0e), Times(a, 0x0b), Times(a, 0x0d), Times(Times(a, 3), 0x09)) == a
    ensures Sum4(Times(Times(a, 3), 0x0e), Times(Times(a, 2), 0x0b), Times(a, 0x0d), Times(a, 0x09)) == 0
    ensures Sum4(Times(a, 0x0e), Times(Times(a, 3), 0x0b), Times(Times(a, 2), 0x0d), Times(a, 0x09)) == 0
    ensures Sum4(Times(a, 0x0e), Times(a, 0x0b), Times(Times(a, 3), 0x0d), Times(Times(a, 2), 0x09)) == 0
  {
    Constants();
    hide Times, Sum4, Xor;
    TimesProducts(a, 0x0e);
    TimesProducts(a, 0x0b);
    TimesProducts(a, 0x0d);
    TimesProducts(a, 0x09);
    TimesSumRight(a, 0x1c, 0x0b, 0x0d, 0x1b);
    TimesSumRight(a, 0x12, 0x16, 0x0d, 0x09);
    TimesSumRight(a, 0x0e, 0x1d, 0x1a, 0x09);
    TimesSumRight(a, 0x0e, 0x0b, 0x17, 0x12);
    TimesOne(a);
    assert Times(a, 0) == 0 by {
      TimesNothing(a);
    }
  }

  lemma TimesNothing(a: bv8)
    ensures Times(a, 0) == 0
  {
    TimesZero(a, 8);
  }

  lemma Constants()
    ensures Xor(0x0e, 0x1c) == 0x12 && Xor(0x0b, 0x16) == 0x1d && Xor(0x0d, 0x1a) == 0x17 && Xor(0x09, 0x12) == 0x1b
    ensures Sum4(0x1c, 0x0b, 0x0d, 0x1b) == 1
    ensures Sum4(0x12, 0x16, 0x0d, 0x09) == 0
    ensures Sum4(0x0e, 0x1d, 0x1a, 0x09) == 0
    ensures Sum4(0x0e, 0x0b, 0x17, 0x12) == 0
  {
  }

  // ---- the columns of section 5.1.3 and their inverse of section 5.3.3 ----

  function Mix0(a: bv8, b: bv8, c: bv8, d: bv8): bv8 {
    Sum4(Times(a, 2), Times(b, 3), c, d)
  }

  function Mix1(a: bv8, b: bv8, c: bv8, d: bv8): bv8 {
    Sum4(a, Times(b, 2), Times(c, 3), d)
  }

  function Mix2(a: bv8, b: bv8, c: bv8, d: bv8): bv8 {
    Sum4(a, b, Times(c, 2), Times(d, 3))
  }

  function Mix3(a: bv8, b: bv8, c: bv8, d: bv8): bv8 {
    Sum4(Times(a, 3), b, c, Times(d, 2))
  }

  function InvMix0(a: bv8, b: bv8, c: bv8, d: bv8): bv8 {
    Sum4(Times(a, 0x0e), Times(b, 0x0b), Times(c, 0x0d), Times(d, 0x09))
  }

  function InvMix1(a: bv8, b: bv8, c: bv8, d: bv8): bv8 {
    Sum4(Times(a, 0x09), Times(b, 0x0e), Times(c, 0x0b), Times(d, 0x0d))
  }

  function InvMix2(a: bv8, b: bv8, c: bv8, d: bv8): bv8 {
    Sum4(Times(a, 0x0d), Times(b, 0x09), Times(c, 0x0e), Times(d, 0x0b))
  }

  function InvMix3(a: bv8, b: bv8, c: bv8, d: bv8): bv8 {
    Sum4(Times(a, 0x0b), Times(b, 0x0d), Times(c, 0x09), Times(d, 0x0e))
  }

  lemma Rotate(a: bv8, b: bv8, c: bv8, d: bv8)
    ensures Sum4(a, b, c, d) == Sum4(b, c, d, a)
  {
    hide Xor;
    XorAssociates(Xor(a, b), c, d);
    XorAssociates(a, b, Xor(c, d));
    XorAssociates(b, c, d);
    XorCommutes(a, Xor(Xor(b, c), d));
  }

  /** Summing two rows entry by entry. */
  lemma AddRows(a: bv8, b: bv8, c: bv8, d: bv8, e: bv8, f: bv8, g: bv8, h: bv8)
    ensures Xor(Sum4(a, b, c, d), Sum4(e, f, g, h)) == Sum4(Xor(a, e), Xor(b, f), Xor(c, g), Xor(d, h))
  {
    hide Xor;
    XorSwap(Xor(Xor(a, b), c), d, Xor(Xor(e, f), g), h);
    XorSwap(Xor(a, b), c, Xor(e, f), g);
    XorSwap(a, b, e, f);
  }

  lemma TimesSum(a: bv8, b: bv8, c: bv8, d: bv8, k: bv8)
    ensures Times(Sum4(a, b, c, d), k) == Sum4(Times(a, k), Times(b, k), Times(c, k), Times(d, k))
  {
    hide Xor, Times;
    TimesDistributes(a, b, k);
    TimesDistributes(Xor(a, b), c, k);
    TimesDistributes(Xor(Xor(a, b), c), d, k);
  }

  /** The first row of the inverse matrix recovers the first byte. */
  lemma FirstRowInverts(a: bv8, b: bv8, c: bv8, d: bv8)
    ensures InvMix0(Mix0(a, b, c, d), Mix1(a, b, c, d), Mix2(a, b, c, d), Mix3(a, b, c, d)) == a
  {
    hide Xor, Times, Sum4;
    TimesSum(Times(a, 2), Times(b, 3), c, d, 0x0e);
    TimesSum(a, Times(b, 2), Times(c, 3), d, 0x0b);
    TimesSum(a, b, Times(c, 2), Times(d, 3), 0x0d);
    TimesSum(Times(a, 3), b, c, Times(d, 2), 0x09);
    RowTimesColumn(a);
    RowTimesColumn(b);
    RowTimesColumn(c);
    RowTimesColumn(d);
    Transpose(
      Times(Times(a, 2), 0x0e), Times(Times(b, 3), 0x0e), Times(c, 0x0e), Times(d, 0x0e),
      Times(a, 0x0b), Times(Times(b, 2), 0x0b), Times(Times(c, 3), 0x0b), Times(d, 0x0b),
      Times(a, 0x0d), Times(b, 0x0d), Times(Times(c, 2), 0x0d), Times(Times(d, 3), 0x0d),
      Times(Times(a, 3), 0x09), Times(b, 0x09), Times(c, 0x09), Times(Times(d, 2), 0x09));
    Alone(a);
  }

  lemma Alone(a: bv8)
    ensures Sum4(a, 0, 0, 0) == a
  {
  }

  lemma Transpose(
    a0: bv8, a1: bv8, a2: bv8, a3: bv8, b0: bv8, b1: bv8, b2: bv8, b3: bv8,
    c0: bv8, c1: bv8, c2: bv8, c3: bv8, d0: bv8, d1: bv8, d2: bv8, d3: bv8)
    ensures Sum4(Sum4(a0, a1, a2, a3), Sum4(b0, b1, b2, b3), Sum4(c0, c1, c2, c3), Sum4(d0, d1, d2, d3))
         == Sum4(Sum4(a0, b0, c0, d0), Sum4(a1, b1, c1, d1), Sum4(a2, b2, c2, d2), Sum4(a3, b3, c3, d3))
  {
    hide Xor;
    AddRows(a0, a1, a2, a3, b0, b1, b2, b3);
    AddRows(Xor(a0, b0), Xor(a1, b1), Xor(a2, b2), Xor(a3, b3), c0, c1, c2, c3);
    AddRows(Xor(Xor(a0, b0), c0), Xor(Xor(a1, b1), c1), Xor(Xor(a2, b2), c2), Xor(Xor(a3, b3), c3), d0, d1, d2, d3);
  }

  lemma MixRotates(a: bv8, b: bv8, c: bv8, d: bv8)
    ensures Mix1(a, b, c, d) == Mix0(b, c, d, a)
    ensures Mix2(a, b, c, d) == Mix1(b, c, d, a)
    ensures Mix3(a, b, c, d) == Mix2(b, c, d, a)
    ensures Mix0(a, b, c, d) == Mix3(b, c, d, a)
  {
    hide Xor, Times, Sum4;
    Rotate(a, Times(b, 2), Times(c, 3), d);
    Rotate(a, b, Times(c, 2), Times(d, 3));
    Rotate(Times(a, 3), b, c, Times(d, 2));
    Rotate(Times(a, 2), Times(b, 3), c, d);
  }

  lemma InvMixRotates(a: bv8, b: bv8, c: bv8, d: bv8)
    ensures InvMix1(a, b, c, d) == InvMix0(b, c, d, a)
    ensures InvMix2(a, b, c, d) == InvMix1(b, c, d, a)
    ensures InvMix3(a, b, c, d) == InvMix2(b, c, d, a)
  {
    hide Xor, Times, Sum4;
    Rotate(Times(a, 0x09), Times(b, 0x0e), Times(c, 0x0b), Times(d, 0x0d));
    Rotate(Times(a, 0x0d), Times(b, 0x09), Times(c, 0x0e), Times(d, 0x0b));
    Rotate(Times(a, 0x0b), Times(b, 0x0d), Times(c, 0x09), Times(d, 0x0e));
  }

  /** InvMixColumns undoes MixColumns on one column. */
  lemma ColumnInverse(a: bv8, b: bv8, c: bv8, d: bv8)
    ensures var m0, m1, m2, m3 := Mix0(a, b, c, d), Mix1(a, b, c, d), Mix2(a, b, c, d), Mix3(a, b, c, d);
      && InvMix0(m0, m1, m2, m3) == a && InvMix1(m0, m1, m2, m3) == b
      && InvMix2(m0, m1, m2, m3) == c && InvMix3(m0, m1, m2, m3) == d
  {
    hide Mix0, Mix1, Mix2, Mix3, InvMix0, InvMix1, InvMix2, InvMix3;
    var m0, m1, m2, m3 := Mix0(a, b, c, d), Mix1(a, b, c, d), Mix2(a, b, c, d), Mix3(a, b, c, d);
    MixRotates(a, b, c, d);
    MixRotates(b, c, d, a);
    MixRotates(c, d, a, b);
    InvMixRotates(m0, m1, m2, m3);
    InvMixRotates(m1, m2, m3, m0);
    InvMixRotates(m2, m3, m0, m1);
    FirstRowInverts(a, b, c, d);
    FirstRowInverts(b, c, d, a);
    FirstRowInverts(c, d, a, b);
    FirstRowInverts(d, a, b, c);
  }
}
