/** The field GF(2^16) of spqr/encoding_gf.go. An element is a 16-bit word whose bit i is the
    coefficient of x^i, and the modulus is x^16 + x^12 + x^3 + x + 1. The product is specified
    as a sum of multiples of a by powers of x; it is shown to be a commutative ring, and then a
    field in which the power 2^16 - 2 inverts every element but zero. */
module Gf16 {
  import opened Bits

  const POLY := 0x1100b

  type Gf = v: nat | v < 0x10000 witness 0

  lemma Width16()
    ensures Shl(1, 16) == 0x10000 && Shl(1, 15) == 0x8000 && Shl(1, 17) == 0x20000
  {
    assert Shl(1, 4) == 16;
    assert Shl(1, 8) == 256 by { assert Shl(1, 6) == 64; }
    assert Shl(1, 12) == 4096 by { assert Shl(1, 10) == 1024; }
    assert Shl(1, 14) == 16384;
  }

  function Add(a: Gf, b: Gf): Gf {
    Width16();
    XorBound(a, b, 16);
    Xor(a, b)
  }

  /** Multiplication by x. */
  function TimesX(a: Gf): Gf {
    TimesXFits(a);
    if Bit(a, 15) then Xor(2 * a, POLY) else 2 * a
  }

  lemma TimesXFits(a: Gf)
    ensures Bit(a, 15) ==> Xor(2 * a, POLY) < 0x10000
    ensures !Bit(a, 15) ==> 2 * a < 0x10000
  {
    hide Xor, Bit;
    Width16();
    TopBitClear(a, 15);
    if Bit(a, 15) {
      XorBound(2 * a, POLY, 17);
      TopBitClear(2 * a, 16);
      TopBitClear(POLY, 16);
      BitXor(2 * a, POLY, 16);
      TopBitClear(Xor(2 * a, POLY), 16);
    }
  }

  function TimesXPow(a: Gf, i: nat): Gf {
    if i == 0 then a else TimesX(TimesXPow(a, i - 1))
  }

  function Choose(c: bool, a: Gf): Gf {
    if c then a else 0
  }

  /** The part of the product contributed by the low n bits of b. */
  function Prod(a: Gf, b: Gf, n: nat): Gf {
    if n == 0 then 0 else Add(Prod(a, b, n - 1), Choose(Bit(b, n - 1), TimesXPow(a, n - 1)))
  }

  function Mul(a: Gf, b: Gf): Gf {
    Prod(a, b, 16)
  }

  // ---------------------------------------------------------------- addition

  lemma AddAssoc(a: Gf, b: Gf, c: Gf)
    ensures Add(Add(a, b), c) == Add(a, Add(b, c))
  {
    hide Xor;
    XorAssoc(a, b, c);
  }

  lemma AddComm(a: Gf, b: Gf)
    ensures Add(a, b) == Add(b, a)
  {
    hide Xor;
    XorComm(a, b);
  }

  lemma AddZero(a: Gf)
    ensures Add(a, 0) == a && Add(0, a) == a
  {
    hide Xor;
    XorZero(a);
  }

  lemma AddSelf(a: Gf)
    ensures Add(a, a) == 0
  {
    hide Xor;
    XorSelf(a);
  }

  /** In characteristic two a sum is zero only of equals, and adding twice undoes itself. */
  lemma AddCancel(a: Gf, b: Gf)
    ensures Add(a, b) == 0 <==> a == b
    ensures Add(Add(a, b), b) == a
  {
    hide Xor;
    XorCancel(a, b);
  }

  lemma AddRegroup(a: Gf, b: Gf, c: Gf, d: Gf)
    ensures Add(Add(a, b), Add(c, d)) == Add(Add(a, c), Add(b, d))
  {
    hide Xor;
    XorRegroup(a, b, c, d);
  }

  lemma ChooseXor(c: bool, d: bool, a: Gf)
    ensures Choose(c != d, a) == Add(Choose(c, a), Choose(d, a))
  {
    hide Add;
    AddSelf(a);
    AddZero(a);
    AddZero(0);
  }

  lemma ChooseAdd(c: bool, a: Gf, b: Gf)
    ensures Choose(c, Add(a, b)) == Add(Choose(c, a), Choose(c, b))
  {
    hide Add;
    AddZero(0);
  }

  // ---------------------------------------------------------------- multiplication by powers of x

  lemma TimesXAdd(a: Gf, b: Gf)
    ensures TimesX(Add(a, b)) == Add(TimesX(a), TimesX(b))
  {
    hide Xor, Bit;
    var p := POLY;
    BitXor(a, b, 15);
    XorDouble(a, b);
    var x, y := 2 * a, 2 * b;
    XorRegroup(x, p, y, p);
    XorSelf(p);
    XorZero(Xor(x, y));
    XorRegroup(x, 0, y, p);
    XorRegroup(x, p, y, 0);
    XorZero(x);
    XorZero(y);
    XorZero(p);
  }

  lemma XorDouble(a: nat, b: nat)
    ensures Xor(2 * a, 2 * b) == 2 * Xor(a, b)
  {
    hide Xor;
    XorStep(2 * a, 2 * b);
  }

  lemma TimesXZero()
    ensures TimesX(0) == 0
  {
    BitZero(15);
  }

  lemma TimesXChoose(c: bool, a: Gf)
    ensures TimesX(Choose(c, a)) == Choose(c, TimesX(a))
  {
    hide TimesX;
    TimesXZero();
  }

  lemma {:induction false} TimesXPowAdd(a: Gf, b: Gf, i: nat)
    ensures TimesXPow(Add(a, b), i) == Add(TimesXPow(a, i), TimesXPow(b, i))
  {
    hide Add, TimesX;
    if i > 0 {
      TimesXPowAdd(a, b, i - 1);
      TimesXAdd(TimesXPow(a, i - 1), TimesXPow(b, i - 1));
    }
  }

  lemma {:induction false} TimesXPowPlus(a: Gf, i: nat, j: nat)
    ensures TimesXPow(TimesXPow(a, i), j) == TimesXPow(a, i + j)
  {
    hide TimesX;
    if j > 0 {
      TimesXPowPlus(a, i, j - 1);
    }
  }

  // ---------------------------------------------------------------- the product is bilinear

  lemma {:induction false} ProdAddLeft(a: Gf, b: Gf, c: Gf, n: nat)
    ensures Prod(Add(a, b), c, n) == Add(Prod(a, c, n), Prod(b, c, n))
  {
    hide Add, Choose, Bit, TimesXPow;
    if n == 0 {
      AddZero(0);
    } else {
      var h, p, q := Bit(c, n - 1), TimesXPow(a, n - 1), TimesXPow(b, n - 1);
      ProdAddLeft(a, b, c, n - 1);
      TimesXPowAdd(a, b, n - 1);
      ChooseAdd(h, p, q);
      AddRegroup(Prod(a, c, n - 1), Prod(b, c, n - 1), Choose(h, p), Choose(h, q));
    }
  }

  lemma {:induction false} ProdAddRight(a: Gf, b: Gf, c: Gf, n: nat)
    ensures Prod(a, Add(b, c), n) == Add(Prod(a, b, n), Prod(a, c, n))
  {
    hide Add, Choose, Bit, TimesXPow;
    if n == 0 {
      AddZero(0);
    } else {
      var p := TimesXPow(a, n - 1);
      ProdAddRight(a, b, c, n - 1);
      AddBit(b, c, n - 1);
      ChooseXor(Bit(b, n - 1), Bit(c, n - 1), p);
      AddRegroup(Prod(a, b, n - 1), Prod(a, c, n - 1), Choose(Bit(b, n - 1), p), Choose(Bit(c, n - 1), p));
    }
  }

  lemma AddBit(a: Gf, b: Gf, i: nat)
    ensures Bit(Add(a, b), i) == (Bit(a, i) != Bit(b, i))
  {
    hide Xor, Bit;
    BitXor(a, b, i);
  }

  lemma MulAddLeft(a: Gf, b: Gf, c: Gf)
    ensures Mul(Add(a, b), c) == Add(Mul(a, c), Mul(b, c))
  {
    hide Add, Prod;
    ProdAddLeft(a, b, c, 16);
  }

  lemma MulAddRight(a: Gf, b: Gf, c: Gf)
    ensures Mul(a, Add(b, c)) == Add(Mul(a, b), Mul(a, c))
  {
    hide Add, Prod;
    ProdAddRight(a, b, c, 16);
  }

  lemma {:induction false} ProdTimesX(a: Gf, b: Gf, n: nat)
    ensures Prod(TimesX(a), b, n) == TimesX(Prod(a, b, n))
  {
    hide Add, Choose, Bit, TimesX;
    if n == 0 {
      TimesXZero();
    } else {
      var h, p := Bit(b, n - 1), TimesXPow(a, n - 1);
      ProdTimesX(a, b, n - 1);
      TimesXPowPlus(a, 1, n - 1);
      assert TimesXPow(a, 1) == TimesX(a) by { assert TimesXPow(a, 0) == a; }
      TimesXAdd(Prod(a, b, n - 1), Choose(h, p));
      TimesXChoose(h, p);
    }
  }

  lemma {:induction false} MulTimesXPow(a: Gf, b: Gf, i: nat)
    ensures Mul(TimesXPow(a, i), b) == TimesXPow(Mul(a, b), i)
  {
    hide TimesX, Prod;
    if i > 0 {
      MulTimesXPow(a, b, i - 1);
      ProdTimesX(TimesXPow(a, i - 1), b, 16);
    }
  }

  lemma MulZero(a: Gf)
    ensures Mul(a, 0) == 0 && Mul(0, a) == 0
  {
    hide Mul, Add;
    AddSelf(0);
    MulAddRight(a, 0, 0);
    MulAddLeft(0, 0, a);
    AddSelf(Mul(a, 0));
    AddSelf(Mul(0, a));
  }

  // ---------------------------------------------------------------- every element is a sum of powers of x

  function Unit(i: nat): Gf
    requires i < 16
  {
    Width16();
    ShlMono(i, 15);
    Shl(1, i)
  }

  lemma {:induction false} UnitIsPower(i: nat)
    requires i < 16
    ensures Unit(i) == TimesXPow(1, i)
  {
    if i > 0 {
      UnitIsPower(i - 1);
      BitUnit(i - 1, 15);
    }
  }

  function Part(b: Gf, n: nat): Gf
    requires n <= 16
  {
    if n == 0 then 0 else Add(Part(b, n - 1), Choose(Bit(b, n - 1), Unit(n - 1)))
  }

  lemma {:induction false} PartBits(b: Gf, n: nat, i: nat)
    requires n <= 16
    ensures Bit(Part(b, n), i) == (i < n && Bit(b, i))
  {
    if n == 0 {
      BitZero(i);
    } else {
      hide Bit, Add, Shl;
      var t := Choose(Bit(b, n - 1), Unit(n - 1));
      PartBits(b, n - 1, i);
      AddBit(Part(b, n - 1), t, i);
      BitUnit(n - 1, i);
      BitZero(i);
    }
  }

  lemma PartWhole(b: Gf)
    ensures Part(b, 16) == b
  {
    hide Bit, Part;
    forall i: nat | i < 16
      ensures Bit(Part(b, 16), i) == Bit(b, i)
    {
      PartBits(b, 16, i);
    }
    Width16();
    BitsDetermine(Part(b, 16), b, 16);
  }

  lemma {:induction false} ProdOne(b: Gf, n: nat)
    requires n <= 16
    ensures Prod(1, b, n) == Part(b, n)
  {
    hide Add, Choose, Bit, Unit, TimesXPow;
    if n > 0 {
      ProdOne(b, n - 1);
      UnitIsPower(n - 1);
    }
  }

  lemma OneMul(b: Gf)
    ensures Mul(1, b) == b
  {
    hide Prod, Part;
    ProdOne(b, 16);
    PartWhole(b);
  }

  lemma {:induction false} ProdUnit(a: Gf, j: nat, n: nat)
    requires j < 16
    ensures Prod(a, Unit(j), n) == Choose(j < n, TimesXPow(a, j))
  {
    hide Add, Bit, TimesXPow;
    if n > 0 {
      ProdUnit(a, j, n - 1);
      BitUnit(j, n - 1);
      AddZero(TimesXPow(a, j));
      AddZero(0);
    }
  }

  lemma MulUnit(a: Gf, j: nat)
    requires j < 16
    ensures Mul(a, Unit(j)) == TimesXPow(a, j)
  {
    hide Prod, Unit, TimesXPow;
    ProdUnit(a, j, 16);
  }

  lemma UnitMul(a: Gf, j: nat)
    requires j < 16
    ensures Mul(Unit(j), a) == TimesXPow(a, j)
  {
    hide Mul, Unit;
    UnitIsPower(j);
    MulTimesXPow(1, a, j);
    OneMul(a);
  }

  // ---------------------------------------------------------------- commutativity and associativity

  lemma {:induction false} MulCommPart(a: Gf, b: Gf, n: nat)
    requires n <= 16
    ensures Mul(a, Part(b, n)) == Mul(Part(b, n), a)
  {
    hide Mul, Add, Unit, Bit, TimesXPow;
    if n == 0 {
      MulZero(a);
    } else {
      var t := Choose(Bit(b, n - 1), Unit(n - 1));
      MulCommPart(a, b, n - 1);
      MulAddRight(a, Part(b, n - 1), t);
      MulAddLeft(Part(b, n - 1), t, a);
      MulUnit(a, n - 1);
      UnitMul(a, n - 1);
      MulZero(a);
    }
  }

  lemma MulComm(a: Gf, b: Gf)
    ensures Mul(a, b) == Mul(b, a)
  {
    hide Mul, Part;
    MulCommPart(a, b, 16);
    PartWhole(b);
  }

  lemma MulAssocUnit(a: Gf, b: Gf, j: nat)
    requires j < 16
    ensures Mul(Mul(a, b), Unit(j)) == Mul(a, Mul(b, Unit(j)))
  {
    hide Mul, Unit, TimesXPow;
    MulUnit(Mul(a, b), j);
    MulUnit(b, j);
    MulComm(a, TimesXPow(b, j));
    MulTimesXPow(b, a, j);
    MulComm(a, b);
  }

  lemma {:induction false} MulAssocPart(a: Gf, b: Gf, c: Gf, n: nat)
    requires n <= 16
    ensures Mul(Mul(a, b), Part(c, n)) == Mul(a, Mul(b, Part(c, n)))
  {
    hide Mul, Add, Unit, Bit;
    MulZero(Mul(a, b));
    MulZero(b);
    MulZero(a);
    if n > 0 {
      var t := Choose(Bit(c, n - 1), Unit(n - 1));
      MulAssocPart(a, b, c, n - 1);
      MulAddRight(Mul(a, b), Part(c, n - 1), t);
      MulAddRight(b, Part(c, n - 1), t);
      MulAddRight(a, Mul(b, Part(c, n - 1)), Mul(b, t));
      MulAssocUnit(a, b, n - 1);
    }
  }

  lemma MulAssoc(a: Gf, b: Gf, c: Gf)
    ensures Mul(Mul(a, b), c) == Mul(a, Mul(b, c))
  {
    hide Mul, Part;
    MulAssocPart(a, b, c, 16);
    PartWhole(c);
  }

  lemma MulRegroup(a: Gf, b: Gf, c: Gf, d: Gf)
    ensures Mul(Mul(a, b), Mul(c, d)) == Mul(Mul(a, c), Mul(b, d))
  {
    hide Mul;
    MulAssoc(a, b, Mul(c, d));
    MulAssoc(b, c, d);
    MulComm(b, c);
    MulAssoc(c, b, d);
    MulAssoc(a, c, Mul(b, d));
  }

  // ---------------------------------------------------------------- powers and squaring

  function Pow(a: Gf, n: nat): Gf {
    if n == 0 then 1 else Mul(a, Pow(a, n - 1))
  }

  lemma {:induction false} PowPlus(a: Gf, m: nat, n: nat)
    ensures Mul(Pow(a, m), Pow(a, n)) == Pow(a, m + n)
  {
    hide Mul;
    if m == 0 {
      OneMul(Pow(a, n));
    } else {
      PowPlus(a, m - 1, n);
      MulAssoc(a, Pow(a, m - 1), Pow(a, n));
    }
  }

  lemma {:induction false} PowSquare(a: Gf, n: nat)
    ensures Pow(Mul(a, a), n) == Pow(a, 2 * n)
  {
    hide Mul;
    if n > 0 {
      PowSquare(a, n - 1);
      MulAssoc(a, a, Pow(a, 2 * n - 2));
      assert Pow(a, 2 * n - 1) == Mul(a, Pow(a, 2 * n - 2));
      assert Pow(a, 2 * n) == Mul(a, Pow(a, 2 * n - 1));
    }
  }

  lemma SquareAdd(a: Gf, b: Gf)
    ensures Mul(Add(a, b), Add(a, b)) == Add(Mul(a, a), Mul(b, b))
  {
    hide Mul, Add;
    MulAddLeft(a, b, Add(a, b));
    MulAddRight(a, a, b);
    MulAddRight(b, a, b);
    MulComm(a, b);
    var s := Mul(a, b);
    AddAssoc(Mul(a, a), s, Add(s, Mul(b, b)));
    AddAssoc(s, s, Mul(b, b));
    AddSelf(s);
    AddZero(Mul(b, b));
  }

  /** Squaring k times. */
  function Frob(a: Gf, k: nat): Gf
    decreases k
  {
    if k == 0 then a else Frob(Mul(a, a), k - 1)
  }

  lemma {:induction false} FrobAdd(a: Gf, b: Gf, k: nat)
    ensures Frob(Add(a, b), k) == Add(Frob(a, k), Frob(b, k))
    decreases k
  {
    hide Mul, Add;
    if k > 0 {
      SquareAdd(a, b);
      FrobAdd(Mul(a, a), Mul(b, b), k - 1);
    }
  }

  lemma {:induction false} FrobMul(a: Gf, b: Gf, k: nat)
    ensures Frob(Mul(a, b), k) == Mul(Frob(a, k), Frob(b, k))
    decreases k
  {
    hide Mul;
    if k > 0 {
      MulRegroup(a, b, a, b);
      FrobMul(Mul(a, a), Mul(b, b), k - 1);
    }
  }

  lemma {:induction false} FrobFixed(a: Gf, k: nat)
    requires Mul(a, a) == a
    ensures Frob(a, k) == a
  {
    hide Mul;
    if k > 0 {
      FrobFixed(a, k - 1);
    }
  }
}
