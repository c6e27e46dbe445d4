/** The loops of spqr/encoding_gf.go, proved against the field of module Gf16: a carry-less
    product into 32 bits, the reduction from bit 31 down to bit 16, and square-and-multiply. */
module Gf16Code {
  import opened Bits
  import opened Gf16
  import opened Gf16Inverse

  // ---------------------------------------------------------------- what the two loops compute

  function Clmul(a: nat, b: nat, n: nat): nat {
    if n == 0 then 0 else Xor(Clmul(a, b, n - 1), Pick(Bit(b, n - 1), Shl(a, n - 1)))
  }

  function ReduceStep(v: nat, i: nat): nat
    requires 16 <= i
  {
    if Bit(v, i) then Xor(v, Shl(POLY, i - 16)) else v
  }

  function Reduce(v: nat, i: nat): nat
    requires 16 <= i
    decreases i
  {
    if i == 16 then v else Reduce(ReduceStep(v, i - 1), i - 1)
  }

  lemma ReduceStepXor(v: nat, w: nat, i: nat)
    requires 16 <= i
    ensures ReduceStep(Xor(v, w), i) == Xor(ReduceStep(v, i), ReduceStep(w, i))
  {
    hide Xor, Bit;
    var p := Shl(POLY, i - 16);
    BitXor(v, w, i);
    XorRegroup(v, p, w, p);
    XorSelf(p);
    XorZero(Xor(v, w));
    XorRegroup(v, 0, w, p);
    XorRegroup(v, p, w, 0);
    XorZero(v);
    XorZero(w);
    XorZero(p);
  }

  lemma {:induction false} ReduceXor(v: nat, w: nat, i: nat)
    requires 16 <= i
    ensures Reduce(Xor(v, w), i) == Xor(Reduce(v, i), Reduce(w, i))
    decreases i
  {
    hide Xor, ReduceStep;
    if i > 16 {
      ReduceStepXor(v, w, i - 1);
      ReduceXor(ReduceStep(v, i - 1), ReduceStep(w, i - 1), i - 1);
    }
  }

  lemma ReduceStepFits(v: nat, i: nat)
    requires 16 <= i && v < Shl(1, i + 1)
    ensures ReduceStep(v, i) < Shl(1, i)
  {
    hide Xor, Bit;
    var p := Shl(POLY, i - 16);
    TopBitClear(v, i);
    if Bit(v, i) {
      Width16();
      ShlBound(POLY, i - 16, 17);
      BitShl(POLY, i - 16, i);
      TopBitClear(POLY, 16);
      XorBound(v, p, i + 1);
      BitXor(v, p, i);
      TopBitClear(Xor(v, p), i);
    }
  }

  lemma {:induction false} ReduceFits(v: nat, i: nat)
    requires 16 <= i && v < Shl(1, i)
    ensures Reduce(v, i) < 0x10000
    decreases i
  {
    hide ReduceStep;
    if i == 16 {
      Width16();
    } else {
      ReduceStepFits(v, i - 1);
      ReduceFits(ReduceStep(v, i - 1), i - 1);
    }
  }

  /** Bits that are clear need no reduction. */
  lemma {:induction false} ReduceSkip(v: nat, i: nat, j: nat)
    requires 16 <= i <= j && v < Shl(1, i)
    ensures Reduce(v, j) == Reduce(v, i)
    decreases j
  {
    hide Bit;
    if i < j {
      BitAbove(v, i, j - 1);
      ReduceSkip(v, i, j - 1);
    }
  }

  lemma ReduceStepDouble(v: nat, i: nat)
    requires 16 <= i
    ensures ReduceStep(2 * v, i + 1) == 2 * ReduceStep(v, i)
  {
    hide Xor;
    XorDouble(v, Shl(POLY, i - 16));
  }

  lemma {:induction false} ReduceDouble(v: nat, i: nat)
    requires 16 <= i && v < Shl(1, i)
    ensures Reduce(v, i) < 0x10000
    ensures Reduce(2 * v, i + 1) == TimesX(Reduce(v, i))
    decreases i
  {
    hide Xor;
    ReduceFits(v, i);
    if i > 16 {
      hide ReduceStep, TimesX;
      ReduceStepDouble(v, i - 1);
      ReduceStepFits(v, i - 1);
      ReduceDouble(ReduceStep(v, i - 1), i - 1);
    } else {
      assert Shr(2 * v, 16) == Shr(v, 15);
      assert Reduce(2 * v, 17) == ReduceStep(2 * v, 16);
    }
  }

  lemma {:induction false} ReduceShifted(a: Gf, i: nat)
    ensures Shl(a, i) < Shl(1, 16 + i)
    ensures Reduce(Shl(a, i), 16 + i) == TimesXPow(a, i)
  {
    hide Reduce, TimesX;
    Width16();
    ShlBound(a, i, 16);
    if i > 0 {
      ReduceShifted(a, i - 1);
      ReduceDouble(Shl(a, i - 1), 16 + i - 1);
    } else {
      ReduceNone(a);
    }
  }

  lemma ReduceNone(v: nat)
    ensures Reduce(v, 16) == v
  {
  }

  lemma ReduceZero(i: nat)
    requires 16 <= i
    ensures Reduce(0, i) == 0
  {
    hide Reduce;
    Width16();
    ReduceSkip(0, 16, i);
    ReduceNone(0);
  }

  /** The code's product, reduced, is the field's product. */
  lemma {:induction false} ReducedClmul(a: Gf, b: Gf, n: nat)
    requires n <= 16
    ensures Reduce(Clmul(a, b, n), 32) == Prod(a, b, n)
  {
    hide Xor, Reduce, Bit, Shl, TimesXPow;
    ReduceZero(32);
    if n > 0 {
      var t := Pick(Bit(b, n - 1), Shl(a, n - 1));
      ReducedClmul(a, b, n - 1);
      ReduceXor(Clmul(a, b, n - 1), t, 32);
      ReduceShifted(a, n - 1);
      ReduceSkip(Shl(a, n - 1), 16 + n - 1, 32);
    }
  }

  // ---------------------------------------------------------------- the code

  method CarrylessProduct(a: Gf, b: Gf) returns (acc: nat)
    ensures acc == Clmul(a, b, 16)
  {
    acc := 0;
    for i := 0 to 16
      invariant acc == Clmul(a, b, i)
    {
      XorZero(acc);
      if Shr(b, i) % 2 == 1 {
        acc := Xor(acc, Shl(a, i));
      }
    }
  }

  method ReduceWord(word: nat) returns (r: nat)
    ensures r == Reduce(word, 32)
  {
    var v := word;
    for i := 32 downto 16
      invariant Reduce(v, i) == Reduce(word, 32)
    {
      if Shr(v, i) % 2 == 1 {
        v := Xor(v, Shl(POLY, i - 16));
      }
    }
    r := v;
  }

  method Multiply(a: Gf, b: Gf) returns (r: Gf)
    ensures r == Mul(a, b)
  {
    var product := CarrylessProduct(a, b);
    var reduced := ReduceWord(product);
    ReducedClmul(a, b, 16);
    r := reduced;
  }

  method Power(a: Gf, exp: nat) returns (result: Gf)
    ensures result == Pow(a, exp)
  {
    result := 1;
    var base, e := a, exp;
    OneMul(Pow(a, exp));
    while e > 0
      invariant Mul(result, Pow(base, e)) == Pow(a, exp)
      decreases e
    {
      hide Mul;
      PowSquare(base, e / 2);
      if e % 2 == 1 {
        MulAssoc(result, base, Pow(base, e - 1));
        result := Multiply(result, base);
      }
      base := Multiply(base, base);
      e := e / 2;
    }
    OneMul(result);
    MulComm(result, 1);
  }

  method Divide(a: Gf, b: Gf) returns (r: Gf)
    ensures r == Div(a, b)
    ensures b != 0 ==> Mul(r, b) == a
    ensures b == 0 ==> r == 0
  {
    if b == 0 {
      return 0;
    }
    var p := Power(b, 65534);
    r := Multiply(a, p);
    DivMul(a, b);
  }
}
