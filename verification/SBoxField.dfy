/** The substitution table is what section 5.1.1 of FIPS 197 defines: the inverse in GF(2^8), then
    an affine map. */
module SBoxField {
  import opened Galois
  import opened SBox

  /** Rotation to the left. */
  function Turn(b: bv8, n: bv8): bv8
    requires 0 < n < 8
  {
    (b << n) | (b >> (8 - n))
  }

  /** The affine transformation of section 5.1.1. */
  function Affine(b: bv8): bv8 {
    b ^ Turn(b, 1) ^ Turn(b, 2) ^ Turn(b, 3) ^ Turn(b, 4) ^ 0x63
  }

  function Unaffine(s: bv8): bv8 {
    Turn(s, 1) ^ Turn(s, 3) ^ Turn(s, 6) ^ 0x05
  }

  lemma AffineInverts(s: bv8)
    ensures Affine(Unaffine(s)) == s
  {
  }

  /** Four bits of `b` times `a`, and what the higher bits add. */
  function Four(a: bv8, b: bv8, rest: bv8): bv8 {
    Xor(Pick(b, a), Xor(Pick(Half(b), Xtime(a)), Xor(Pick(Half(Half(b)), Xtime(Xtime(a))),
        Xor(Pick(Half(Half(Half(b))), Xtime(Xtime(Xtime(a)))), rest))))
  }

  /** The product without recursion. */
  function Product(a: bv8, b: bv8): bv8 {
    Four(a, b, Four(Xtime(Xtime(Xtime(Xtime(a)))), Half(Half(Half(Half(b)))), 0))
  }

  lemma FourSteps(a: bv8, b: bv8, n: nat)
    requires n >= 4
    ensures TimesLow(a, b, n)
         == Four(a, b, TimesLow(Xtime(Xtime(Xtime(Xtime(a)))), Half(Half(Half(Half(b)))), n - 4))
  {
    hide Xtime, Half, Xor, Pick;
    var a2, b2 := Xtime(Xtime(a)), Half(Half(b));
    assert TimesLow(a2, b2, n - 2)
        == Xor(Pick(b2, a2), Xor(Pick(Half(b2), Xtime(a2)), TimesLow(Xtime(Xtime(a2)), Half(Half(b2)), n - 4)));
  }

  lemma NoBits(a: bv8, b: bv8)
    ensures TimesLow(a, b, 0) == 0
  {
  }

  lemma ProductIsTimes(a: bv8, b: bv8)
    ensures Product(a, b) == Times(a, b)
  {
    hide Xtime, Half, Four, TimesLow;
    var a4, b4 := Xtime(Xtime(Xtime(Xtime(a)))), Half(Half(Half(Half(b))));
    FourSteps(a, b, 8);
    FourSteps(a4, b4, 4);
    NoBits(Xtime(Xtime(Xtime(Xtime(a4)))), Half(Half(Half(Half(b4)))));
  }

  lemma Inverse00(b: bv8)
    requires 0 < b <= 0x1f
    ensures Product(b, Unaffine(Sub(b))) == 1
  {
    Cases(b, 0x00);
  }

  lemma Inverse20(b: bv8)
    requires 0x20 <= b <= 0x3f
    ensures Product(b, Unaffine(Sub(b))) == 1
  {
    Cases(b, 0x20);
  }

  lemma Inverse40(b: bv8)
    requires 0x40 <= b <= 0x5f
    ensures Product(b, Unaffine(Sub(b))) == 1
  {
    Cases(b, 0x40);
  }

  lemma Inverse60(b: bv8)
    requires 0x60 <= b <= 0x7f
    ensures Product(b, Unaffine(Sub(b))) == 1
  {
    Cases(b, 0x60);
  }

  lemma Inverse80(b: bv8)
    requires 0x80 <= b <= 0x9f
    ensures Product(b, Unaffine(Sub(b))) == 1
  {
    Cases(b, 0x80);
  }

  lemma InverseA0(b: bv8)
    requires 0xa0 <= b <= 0xbf
    ensures Product(b, Unaffine(Sub(b))) == 1
  {
    Cases(b, 0xa0);
  }

  lemma InverseC0(b: bv8)
    requires 0xc0 <= b <= 0xdf
    ensures Product(b, Unaffine(Sub(b))) == 1
  {
    Cases(b, 0xc0);
  }

  lemma InverseE0(b: bv8)
    requires 0xe0 <= b
    ensures Product(b, Unaffine(Sub(b))) == 1
  {
    Cases(b, 0xe0);
  }

  /** What is substituted for a byte is the affine image of its inverse in the field, or
      of zero for zero. */
  lemma SubIsAffineInverse(b: bv8)
    ensures var inverse := Unaffine(Sub(b));
      && Sub(b) == Affine(inverse)
      && (if b == 0 then inverse == 0 else Times(b, inverse) == 1)
  {
    AffineInverts(Sub(b));
    ProductIsTimes(b, Unaffine(Sub(b)));
    hide Product, Times, Affine;
    if b == 0 {
      SubZero();
    } else if b < 0x20 {
      Inverse00(b);
    } else if b < 0x40 {
      Inverse20(b);
    } else if b < 0x60 {
      Inverse40(b);
    } else if b < 0x80 {
      Inverse60(b);
    } else if b < 0xa0 {
      Inverse80(b);
    } else if b < 0xc0 {
      InverseA0(b);
    } else if b < 0xe0 {
      InverseC0(b);
    } else {
      InverseE0(b);
    }
  }

  lemma SubZero()
    ensures Unaffine(Sub(0)) == 0
  {
  }
}
