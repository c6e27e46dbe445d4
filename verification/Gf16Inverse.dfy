/** Inverses in GF(2^16). Squaring is additive and x^(2^16) == x, so every element is fixed by
    squaring sixteen times. Hence a^(2^16-1) is its own square, and zero and one are the only
    elements with that property. The finitely many bit computations are done on Bits16, an
    element spelled out as its sixteen coefficients. */
module Gf16Inverse {
  import opened Bits
  import opened Gf16

  datatype Bits16 = Bits16(
    b0: bool, b1: bool, b2: bool, b3: bool, b4: bool, b5: bool, b6: bool, b7: bool,
    b8: bool, b9: bool, b10: bool, b11: bool, b12: bool, b13: bool, b14: bool, b15: bool)

  function ToWord(a: nat): Bits16 {
    Bits16(Bit(a, 0), Bit(a, 1), Bit(a, 2), Bit(a, 3), Bit(a, 4), Bit(a, 5), Bit(a, 6), Bit(a, 7),
         Bit(a, 8), Bit(a, 9), Bit(a, 10), Bit(a, 11), Bit(a, 12), Bit(a, 13), Bit(a, 14), Bit(a, 15))
  }

  /** One coefficient. */
  predicate WordBit(w: Bits16, k: nat) {
    if k == 0 then w.b0
    else if k == 1 then w.b1
    else if k == 2 then w.b2
    else if k == 3 then w.b3
    else if k == 4 then w.b4
    else if k == 5 then w.b5
    else if k == 6 then w.b6
    else if k == 7 then w.b7
    else if k == 8 then w.b8
    else if k == 9 then w.b9
    else if k == 10 then w.b10
    else if k == 11 then w.b11
    else if k == 12 then w.b12
    else if k == 13 then w.b13
    else if k == 14 then w.b14
    else w.b15
  }

  lemma BitOfWord(a: nat, k: nat)
    requires k < 16
    ensures WordBit(ToWord(a), k) == Bit(a, k)
  {
    hide Bit;
  }

  lemma WordOfBits(a: nat, w: Bits16)
    requires forall k | 0 <= k < 16 :: Bit(a, k) == WordBit(w, k)
    ensures ToWord(a) == w
  {
    hide Bit;
  }

  lemma ToWordInjective(a: Gf, b: Gf)
    requires ToWord(a) == ToWord(b)
    ensures a == b
  {
    hide Bit, ToWord, WordBit;
    forall k: nat | k < 16
      ensures Bit(a, k) == Bit(b, k)
    {
      BitOfWord(a, k);
      BitOfWord(b, k);
    }
    Width16();
    BitsDetermine(a, b, 16);
  }

  function UnitWord(j: nat): Bits16 {
    Bits16(j == 0, j == 1, j == 2, j == 3, j == 4, j == 5, j == 6, j == 7, j == 8, j == 9, j == 10, j == 11, j == 12, j == 13, j == 14, j == 15)
  }

  lemma ToWordUnit(j: nat)
    requires j < 16
    ensures ToWord(Unit(j)) == UnitWord(j)
  {
    hide Bit, Shl;
    forall k: nat | k < 16
      ensures Bit(Unit(j), k) == WordBit(UnitWord(j), k)
    {
      BitUnit(j, k);
    }
    WordOfBits(Unit(j), UnitWord(j));
  }

  lemma ToWordZero()
    ensures ToWord(0) == UnitWord(16)
  {
    hide Bit;
    forall k: nat | k < 16
      ensures !Bit(0, k)
    {
      BitZero(k);
    }
  }

  function TimesXWord(w: Bits16): Bits16 {
    var t := w.b15;
    Bits16(t, w.b0 != t, w.b1, w.b2 != t, w.b3, w.b4, w.b5, w.b6, w.b7, w.b8, w.b9, w.b10, w.b11 != t, w.b12, w.b13, w.b14)
  }

  lemma {:induction false} ShrStep(v: nat, i: nat)
    ensures Shr(v, i + 1) == Shr(v, i) / 2
  {
    if i > 0 {
      ShrStep(v / 2, i - 1);
    }
  }

  lemma PolyBits(i: nat)
    requires i < 16
    ensures Bit(POLY, i) <==> i == 0 || i == 1 || i == 3 || i == 12
  {
    ShrStep(POLY, 0); assert Shr(POLY, 1) == 0x8805;
    ShrStep(POLY, 1); assert Shr(POLY, 2) == 0x4402;
    ShrStep(POLY, 2); assert Shr(POLY, 3) == 0x2201;
    ShrStep(POLY, 3); assert Shr(POLY, 4) == 0x1100;
    ShrStep(POLY, 4); assert Shr(POLY, 5) == 0x880;
    ShrStep(POLY, 5); assert Shr(POLY, 6) == 0x440;
    ShrStep(POLY, 6); assert Shr(POLY, 7) == 0x220;
    ShrStep(POLY, 7); assert Shr(POLY, 8) == 0x110;
    ShrStep(POLY, 8); assert Shr(POLY, 9) == 0x88;
    ShrStep(POLY, 9); assert Shr(POLY, 10) == 0x44;
    ShrStep(POLY, 10); assert Shr(POLY, 11) == 0x22;
    ShrStep(POLY, 11); assert Shr(POLY, 12) == 0x11;
    ShrStep(POLY, 12); assert Shr(POLY, 13) == 0x8;
    ShrStep(POLY, 13); assert Shr(POLY, 14) == 0x4;
    ShrStep(POLY, 14); assert Shr(POLY, 15) == 0x2;
  }

  lemma TimesXBit(a: Gf, i: nat)
    requires i < 16
    ensures Bit(TimesX(a), i) == ((i > 0 && Bit(a, i - 1)) != (Bit(a, 15) && Bit(POLY, i)))
  {
    hide Xor;
    BitXor(2 * a, POLY, i);
    assert i > 0 ==> Shr(2 * a, i) == Shr(a, i - 1);
  }

  lemma ToWordTimesX(a: Gf)
    ensures ToWord(TimesX(a)) == TimesXWord(ToWord(a))
  {
    hide Bit, TimesX;
    forall k: nat | k < 16
      ensures Bit(TimesX(a), k) == WordBit(TimesXWord(ToWord(a)), k)
    {
      TimesXBit(a, k);
      PolyBits(k);
    }
    WordOfBits(TimesX(a), TimesXWord(ToWord(a)));
  }

  // ---------------------------------------------------------------- squaring, coefficient by coefficient

  function SquareWord(w: Bits16): Bits16 {
    Bits16(((((w.b0 != w.b8) != w.b10) != w.b12) != w.b14),
         ((((w.b8 != w.b10) != w.b12) != w.b14) != w.b15),
         (((w.b1 != w.b9) != w.b11) != w.b13),
         (((((((w.b8 != w.b9) != w.b10) != w.b11) != w.b12) != w.b13) != w.b14) != w.b15),
         ((((w.b2 != w.b10) != w.b12) != w.b14) != w.b15),
         ((((((w.b9 != w.b10) != w.b11) != w.b12) != w.b13) != w.b14) != w.b15),
         (((w.b3 != w.b11) != w.b13) != w.b15),
         (((((w.b10 != w.b11) != w.b12) != w.b13) != w.b14) != w.b15),
         ((w.b4 != w.b12) != w.b14),
         ((((w.b11 != w.b12) != w.b13) != w.b14) != w.b15),
         ((w.b5 != w.b13) != w.b15),
         (((w.b12 != w.b13) != w.b14) != w.b15),
         (((w.b6 != w.b8) != w.b10) != w.b12),
         (w.b13 != w.b14),
         (((w.b7 != w.b9) != w.b11) != w.b13),
         (w.b14 != w.b15))
  }

  /** Coefficient k of the square of a: the sum of the coefficients i of a for which x^(2i)
      has x^k in it. */
  predicate SquareBit(a: nat, k: nat) {
    if k == 0 then ((((Bit(a, 0) != Bit(a, 8)) != Bit(a, 10)) != Bit(a, 12)) != Bit(a, 14))
    else if k == 1 then ((((Bit(a, 8) != Bit(a, 10)) != Bit(a, 12)) != Bit(a, 14)) != Bit(a, 15))
    else if k == 2 then (((Bit(a, 1) != Bit(a, 9)) != Bit(a, 11)) != Bit(a, 13))
    else if k == 3 then (((((((Bit(a, 8) != Bit(a, 9)) != Bit(a, 10)) != Bit(a, 11)) != Bit(a, 12)) != Bit(a, 13)) != Bit(a, 14)) != Bit(a, 15))
    else if k == 4 then ((((Bit(a, 2) != Bit(a, 10)) != Bit(a, 12)) != Bit(a, 14)) != Bit(a, 15))
    else if k == 5 then ((((((Bit(a, 9) != Bit(a, 10)) != Bit(a, 11)) != Bit(a, 12)) != Bit(a, 13)) != Bit(a, 14)) != Bit(a, 15))
    else if k == 6 then (((Bit(a, 3) != Bit(a, 11)) != Bit(a, 13)) != Bit(a, 15))
    else if k == 7 then (((((Bit(a, 10) != Bit(a, 11)) != Bit(a, 12)) != Bit(a, 13)) != Bit(a, 14)) != Bit(a, 15))
    else if k == 8 then ((Bit(a, 4) != Bit(a, 12)) != Bit(a, 14))
    else if k == 9 then ((((Bit(a, 11) != Bit(a, 12)) != Bit(a, 13)) != Bit(a, 14)) != Bit(a, 15))
    else if k == 10 then ((Bit(a, 5) != Bit(a, 13)) != Bit(a, 15))
    else if k == 11 then (((Bit(a, 12) != Bit(a, 13)) != Bit(a, 14)) != Bit(a, 15))
    else if k == 12 then (((Bit(a, 6) != Bit(a, 8)) != Bit(a, 10)) != Bit(a, 12))
    else if k == 13 then (Bit(a, 13) != Bit(a, 14))
    else if k == 14 then (((Bit(a, 7) != Bit(a, 9)) != Bit(a, 11)) != Bit(a, 13))
    else if k == 15 then (Bit(a, 14) != Bit(a, 15))
    else false
  }

  lemma SquareBitOfWordLow(a: nat, k: nat)
    requires k < 8
    ensures WordBit(SquareWord(ToWord(a)), k) == SquareBit(a, k)
  {
    hide Bit;
    if k == 0 { } else if k == 1 { } else if k == 2 { } else if k == 3 { } else if k == 4 { } else if k == 5 { } else if k == 6 { } else { }
  }

  lemma SquareBitOfWordHigh(a: nat, k: nat)
    requires 8 <= k < 16
    ensures WordBit(SquareWord(ToWord(a)), k) == SquareBit(a, k)
  {
    hide Bit;
    if k == 8 { } else if k == 9 { } else if k == 10 { } else if k == 11 { } else if k == 12 { } else if k == 13 { } else if k == 14 { } else { }
  }

  lemma SquareBitOfWord(a: nat, k: nat)
    requires k < 16
    ensures WordBit(SquareWord(ToWord(a)), k) == SquareBit(a, k)
  {
    hide WordBit, SquareWord, ToWord, SquareBit;
    if k < 8 {
      SquareBitOfWordLow(a, k);
    } else {
      SquareBitOfWordHigh(a, k);
    }
  }

  /** Squaring a sum: coefficient by coefficient a sum of the same coefficients. */
  lemma SquareBitAdd(a: Gf, b: Gf, k: nat)
    requires k < 16
    ensures SquareBit(Add(a, b), k) == (SquareBit(a, k) != SquareBit(b, k))
  {
    hide Bit, Add;
    forall i: nat | i < 16
      ensures Bit(Add(a, b), i) == (Bit(a, i) != Bit(b, i))
    {
      AddBit(a, b, i);
    }
    if k == 0 { } else if k == 1 { } else if k == 2 { } else if k == 3 { } else if k == 4 { } else if k == 5 { }
    else if k == 6 { } else if k == 7 { } else if k == 8 { } else if k == 9 { } else if k == 10 { }
    else if k == 11 { } else if k == 12 { } else if k == 13 { } else if k == 14 { } else { }
  }

  lemma SquareWordStep(j: nat)
    requires j < 15
    ensures SquareWord(UnitWord(j + 1)) == TimesXWord(TimesXWord(SquareWord(UnitWord(j))))
  {
    if j == 0 {} else if j == 1 {} else if j == 2 {} else if j == 3 {} else if j == 4 {} else if j == 5 {}
    else if j == 6 {} else if j == 7 {} else if j == 8 {} else if j == 9 {} else if j == 10 {} else if j == 11 {}
    else if j == 12 {} else if j == 13 {} else {}
  }

  lemma {:induction false} SquareOfUnit(j: nat)
    requires j < 16
    ensures ToWord(Mul(Unit(j), Unit(j))) == SquareWord(UnitWord(j))
  {
    hide ToWord, Mul, Unit, TimesX, TimesXWord, SquareWord, UnitWord;
    MulUnit(Unit(j), j);
    UnitIsPower(j);
    TimesXPowPlus(1, j, j);
    EvenPower(j);
  }

  lemma EvenPowerZero()
    ensures ToWord(TimesXPow(1, 0)) == SquareWord(UnitWord(0))
  {
    hide ToWord, TimesX;
    ToWordUnit(0);
  }

  lemma {:induction false} EvenPower(j: nat)
    requires j < 16
    ensures ToWord(TimesXPow(1, 2 * j)) == SquareWord(UnitWord(j))
  {
    hide ToWord, TimesX, TimesXWord, SquareWord, UnitWord;
    if j == 0 {
      EvenPowerZero();
    } else {
      EvenPower(j - 1);
      SquareWordStep(j - 1);
      var p := TimesXPow(1, 2 * j - 2);
      assert TimesXPow(1, 2 * j - 1) == TimesX(p);
      ToWordTimesX(p);
      ToWordTimesX(TimesX(p));
    }
  }

  lemma SquareOfUnitBit(j: nat, k: nat)
    requires j < 16 && k < 16
    ensures Bit(Mul(Unit(j), Unit(j)), k) == SquareBit(Unit(j), k)
  {
    hide Mul, Unit, Bit, SquareWord, ToWord, WordBit, UnitWord, SquareBit;
    SquareOfUnit(j);
    ToWordUnit(j);
    BitOfWord(Mul(Unit(j), Unit(j)), k);
    SquareBitOfWord(Unit(j), k);
  }

  lemma SquareBitZero(k: nat)
    requires k < 16
    ensures !SquareBit(0, k)
  {
    hide Bit;
    forall i: nat | i < 16
      ensures !Bit(0, i)
    {
      BitZero(i);
    }
  }

  lemma {:induction false} SquareOfPart(a: Gf, n: nat, k: nat)
    requires n <= 16 && k < 16
    ensures Bit(Mul(Part(a, n), Part(a, n)), k) == SquareBit(Part(a, n), k)
  {
    hide Mul, Add, Unit, Bit, SquareBit;
    MulZero(0);
    BitZero(k);
    SquareBitZero(k);
    if n > 0 {
      var q, t := Part(a, n - 1), Choose(Bit(a, n - 1), Unit(n - 1));
      SquareOfPart(a, n - 1, k);
      SquareAdd(q, t);
      SquareOfUnitBit(n - 1, k);
      AddBit(Mul(q, q), Mul(t, t), k);
      SquareBitAdd(q, t, k);
    }
  }

  lemma SquareIsWord(a: Gf)
    ensures ToWord(Mul(a, a)) == SquareWord(ToWord(a))
  {
    hide Bit, Mul, Part, SquareWord, ToWord, WordBit, SquareBit;
    PartWhole(a);
    forall k: nat | k < 16
      ensures Bit(Mul(a, a), k) == WordBit(SquareWord(ToWord(a)), k)
    {
      SquareOfPart(a, 16, k);
      SquareBitOfWord(a, k);
    }
    WordOfBits(Mul(a, a), SquareWord(ToWord(a)));
  }

  function FrobWord(w: Bits16, k: nat): Bits16
    decreases k
  {
    if k == 0 then w else FrobWord(SquareWord(w), k - 1)
  }

  lemma {:induction false} FrobIsWord(a: Gf, k: nat)
    ensures ToWord(Frob(a, k)) == FrobWord(ToWord(a), k)
    decreases k
  {
    hide ToWord, Mul, SquareWord;
    if k > 0 {
      SquareIsWord(a);
      FrobIsWord(Mul(a, a), k - 1);
    }
  }

  lemma XFixedWord()
    ensures FrobWord(UnitWord(1), 16) == UnitWord(1)
  {
    var w0 := Bits16(false, true, false, false, false, false, false, false, false, false, false, false, false, false, false, false);
    var w1 := Bits16(false, false, true, false, false, false, false, false, false, false, false, false, false, false, false, false);
    assert SquareWord(w0) == w1;
    var w2 := Bits16(false, false, false, false, true, false, false, false, false, false, false, false, false, false, false, false);
    assert SquareWord(w1) == w2;
    var w3 := Bits16(false, false, false, false, false, false, false, false, true, false, false, false, false, false, false, false);
    assert SquareWord(w2) == w3;
    var w4 := Bits16(true, true, false, true, false, false, false, false, false, false, false, false, true, false, false, false);
    assert SquareWord(w3) == w4;
    var w5 := Bits16(false, true, true, true, true, true, true, true, true, true, false, true, true, false, false, false);
    assert SquareWord(w4) == w5;
    var w6 := Bits16(false, false, true, false, false, true, false, false, false, false, true, true, true, false, true, false);
    assert SquareWord(w5) == w6;
    var w7 := Bits16(true, true, true, false, false, false, true, false, false, true, true, false, false, true, true, true);
    assert SquareWord(w6) == w7;
    var w8 := Bits16(true, true, true, true, false, true, false, false, true, true, false, true, false, false, false, false);
    assert SquareWord(w7) == w8;
    var w9 := Bits16(false, true, true, true, true, false, false, true, false, true, true, false, true, false, false, false);
    assert SquareWord(w8) == w9;
    var w10 := Bits16(false, false, false, true, true, true, true, false, false, true, false, true, false, false, false, false);
    assert SquareWord(w9) == w10;
    var w11 := Bits16(false, false, false, false, false, false, false, true, true, true, true, false, true, false, false, false);
    assert SquareWord(w10) == w11;
    var w12 := Bits16(true, true, true, false, false, true, false, false, true, true, false, true, true, false, false, false);
    assert SquareWord(w11) == w12;
    var w13 := Bits16(true, false, true, false, false, true, true, false, true, false, true, true, false, false, false, false);
    assert SquareWord(w12) == w13;
    var w14 := Bits16(true, false, true, true, false, false, true, false, false, true, true, false, true, false, true, false);
    assert SquareWord(w13) == w14;
    var w15 := Bits16(false, true, true, false, false, false, true, true, false, false, false, false, true, true, true, true);
    assert SquareWord(w14) == w15;
    var w16 := Bits16(false, true, false, false, false, false, false, false, false, false, false, false, false, false, false, false);
    assert SquareWord(w15) == w16;
    hide SquareWord;
    assert w0 == UnitWord(1);

    assert FrobWord(w0, 16) == FrobWord(w1, 15);
    assert FrobWord(w1, 15) == FrobWord(w2, 14);
    assert FrobWord(w2, 14) == FrobWord(w3, 13);
    assert FrobWord(w3, 13) == FrobWord(w4, 12);
    assert FrobWord(w4, 12) == FrobWord(w5, 11);
    assert FrobWord(w5, 11) == FrobWord(w6, 10);
    assert FrobWord(w6, 10) == FrobWord(w7, 9);
    assert FrobWord(w7, 9) == FrobWord(w8, 8);
    assert FrobWord(w8, 8) == FrobWord(w9, 7);
    assert FrobWord(w9, 7) == FrobWord(w10, 6);
    assert FrobWord(w10, 6) == FrobWord(w11, 5);
    assert FrobWord(w11, 5) == FrobWord(w12, 4);
    assert FrobWord(w12, 4) == FrobWord(w13, 3);
    assert FrobWord(w13, 3) == FrobWord(w14, 2);
    assert FrobWord(w14, 2) == FrobWord(w15, 1);
    assert FrobWord(w15, 1) == FrobWord(w16, 0);
  }

  lemma SelfSquareWord(w: Bits16)
    requires SquareWord(w) == w
    ensures w == UnitWord(0) || w == UnitWord(16)
  {
  }

  // ---------------------------------------------------------------- the multiplicative group

  lemma XFixed()
    ensures Frob(Unit(1), 16) == Unit(1)
  {
    hide ToWord, Frob, FrobWord, UnitWord, Unit;
    ToWordUnit(1);
    FrobIsWord(Unit(1), 16);
    XFixedWord();
    ToWordInjective(Frob(Unit(1), 16), Unit(1));
  }

  lemma {:induction false} UnitFixed(j: nat)
    requires j < 16
    ensures Frob(Unit(j), 16) == Unit(j)
  {
    hide Frob, Mul;
    if j == 0 {
      OneMul(1);
      FrobFixed(1, 16);
    } else {
      UnitFixed(j - 1);
      XFixed();
      MulUnit(Unit(j - 1), 1);
      UnitIsPower(j);
      UnitIsPower(j - 1);
      TimesXPowPlus(1, j - 1, 1);
      FrobMul(Unit(j - 1), Unit(1), 16);
    }
  }

  lemma {:induction false} PartFixed(a: Gf, n: nat)
    requires n <= 16
    ensures Frob(Part(a, n), 16) == Part(a, n)
  {
    hide Frob, Mul, Add, Bit, Unit;
    MulZero(0);
    FrobFixed(0, 16);
    if n > 0 {
      PartFixed(a, n - 1);
      UnitFixed(n - 1);
      FrobAdd(Part(a, n - 1), Choose(Bit(a, n - 1), Unit(n - 1)), 16);
    }
  }

  lemma {:induction false} FrobIsPow(a: Gf, k: nat)
    ensures Frob(a, k) == Pow(a, Shl(1, k))
    decreases k
  {
    hide Mul;
    if k == 0 {
      assert Pow(a, 1) == Mul(a, Pow(a, 0));
      OneMul(a);
      MulComm(a, 1);
    } else {
      FrobIsPow(Mul(a, a), k - 1);
      PowSquare(a, Shl(1, k - 1));
    }
  }

  lemma FermatLittle(a: Gf)
    ensures Pow(a, 65536) == a
  {
    hide Frob, Part, Pow, Shl;
    PartFixed(a, 16);
    PartWhole(a);
    FrobIsPow(a, 16);
    Width16();
  }

  lemma SelfSquare(e: Gf)
    requires Mul(e, e) == e
    ensures e == 0 || e == 1
  {
    hide ToWord, Mul, SquareWord, UnitWord;
    SquareIsWord(e);
    SelfSquareWord(ToWord(e));
    ToWordZero();
    ToWordUnit(0);
    if ToWord(e) == UnitWord(16) {
      ToWordInjective(e, 0);
    } else {
      ToWordInjective(e, Unit(0));
    }
  }

  /** Every nonzero element has the power 2^16 - 2 as its inverse. */
  lemma PowInverts(a: Gf)
    requires a != 0
    ensures Mul(a, Pow(a, 65534)) == 1
  {
    hide Mul, Pow;
    var e := Pow(a, 65535);
    assert e == Mul(a, Pow(a, 65534)) by { PowSucc(a, 65534); }
    assert Mul(a, e) == a by { PowSucc(a, 65535); FermatLittle(a); }
    PowPlus(a, 65535, 65535);
    PowPlus(a, 65534, 65536);
    PowPlus(a, 65534, 1);
    FermatLittle(a);
    assert Pow(a, 1) == a by { PowSucc(a, 0); PowNil(a); OneMul(a); MulComm(a, 1); }
    SelfSquare(e);
    MulZero(a);
  }

  lemma PowSucc(a: Gf, n: nat)
    ensures Pow(a, n + 1) == Mul(a, Pow(a, n))
  {
  }

  lemma PowNil(a: Gf)
    ensures Pow(a, 0) == 1
  {
  }

  /** Division as the code defines it: by zero it yields zero. */
  function Div(a: Gf, b: Gf): Gf {
    if b == 0 then 0 else Mul(a, Pow(b, 65534))
  }

  lemma DivMul(a: Gf, b: Gf)
    requires b != 0
    ensures Mul(Div(a, b), b) == a
  {
    hide Mul, Pow;
    var i := Pow(b, 65534);
    PowInverts(b);
    MulAssoc(a, i, b);
    MulComm(i, b);
    MulComm(a, 1);
    OneMul(a);
  }

  lemma NoZeroDivisors(a: Gf, b: Gf)
    requires Mul(a, b) == 0
    ensures a == 0 || b == 0
  {
    hide Mul, Pow;
    if b != 0 {
      var i := Pow(b, 65534);
      PowInverts(b);
      MulAssoc(a, b, i);
      MulZero(i);
      MulComm(a, 1);
      OneMul(a);
    }
  }
}
