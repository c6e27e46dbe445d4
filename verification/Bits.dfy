/** Fixed-width unsigned words as natural numbers: exclusive or, shifts and single bits. */
module Bits {

  function Xor(a: nat, b: nat): nat {
    if a == 0 then b
    else if b == 0 then a
    else 2 * Xor(a / 2, b / 2) + (a + b) % 2
  }

  function Shl(v: nat, i: nat): nat {
    if i == 0 then v else 2 * Shl(v, i - 1)
  }

  function Shr(v: nat, i: nat): nat {
    if i == 0 then v else Shr(v / 2, i - 1)
  }

  predicate Bit(v: nat, i: nat) {
    Shr(v, i) % 2 == 1
  }

  function Pick(c: bool, v: nat): nat {
    if c then v else 0
  }

  // ---------------------------------------------------------------- exclusive or

  lemma XorStep(a: nat, b: nat)
    ensures Xor(a, b) == 2 * Xor(a / 2, b / 2) + (a + b) % 2
    ensures Xor(a, b) / 2 == Xor(a / 2, b / 2) && Xor(a, b) % 2 == (a + b) % 2
  {
  }

  lemma {:induction false} XorComm(a: nat, b: nat)
    ensures Xor(a, b) == Xor(b, a)
  {
    if a != 0 && b != 0 {
      XorComm(a / 2, b / 2);
    }
  }

  lemma ParityAssoc(p: nat, q: nat, r: nat)
    ensures ((p + q) % 2 + r) % 2 == (p + (q + r) % 2) % 2
  {
  }

  lemma ParityLeft(l: nat, c: nat)
    ensures (l + c) % 2 == (l % 2 + c) % 2 && (c + l) % 2 == (c + l % 2) % 2
  {
  }

  lemma XorParity(a: nat, b: nat, c: nat)
    ensures (Xor(a, b) + c) % 2 == (a + Xor(b, c)) % 2
  {
    hide Xor;
    XorStep(a, b);
    XorStep(b, c);
    ParityLeft(Xor(a, b), c);
    ParityLeft(Xor(b, c), a);
    ParityAssoc(a, b, c);
  }

  lemma XorUnfold(a: nat, b: nat, p: nat, h: nat)
    requires (a + b) % 2 == p && Xor(a / 2, b / 2) == h
    ensures Xor(a, b) == 2 * h + p
  {
    hide Xor;
    XorStep(a, b);
  }

  lemma {:induction false} XorAssoc(a: nat, b: nat, c: nat)
    ensures Xor(Xor(a, b), c) == Xor(a, Xor(b, c))
    decreases a
  {
    hide Xor;
    var l, r := Xor(a, b), Xor(b, c);
    if a == 0 {
      XorZero(b);
      XorZero(r);
    } else {
      assert l / 2 == Xor(a / 2, b / 2) && r / 2 == Xor(b / 2, c / 2) by {
        XorStep(a, b);
        XorStep(b, c);
      }
      XorAssoc(a / 2, b / 2, c / 2);
      XorParity(a, b, c);
      var p, h := (l + c) % 2, Xor(l / 2, c / 2);
      XorUnfold(l, c, p, h);
      XorUnfold(a, r, p, h);
    }
  }

  lemma {:induction false} XorSelf(a: nat)
    ensures Xor(a, a) == 0
  {
    if a != 0 {
      XorSelf(a / 2);
    }
  }

  lemma XorRegroup(a: nat, b: nat, c: nat, d: nat)
    ensures Xor(Xor(a, b), Xor(c, d)) == Xor(Xor(a, c), Xor(b, d))
  {
    hide Xor;
    XorAssoc(a, b, Xor(c, d));
    XorAssoc(b, c, d);
    XorComm(b, c);
    XorAssoc(c, b, d);
    XorAssoc(a, c, Xor(b, d));
  }

  lemma XorZero(a: nat)
    ensures Xor(a, 0) == a && Xor(0, a) == a
  {
  }

  lemma XorCancel(a: nat, b: nat)
    ensures Xor(Xor(a, b), b) == a
    ensures Xor(a, b) == 0 <==> a == b
  {
    hide Xor;
    XorAssoc(a, b, b);
    XorSelf(b);
    XorZero(a);
    XorZero(b);
  }

  // ---------------------------------------------------------------- shifts and bits

  lemma {:induction false} BitXor(a: nat, b: nat, i: nat)
    ensures Bit(Xor(a, b), i) == (Bit(a, i) != Bit(b, i))
  {
    hide Xor;
    XorStep(a, b);
    if i > 0 {
      BitXor(a / 2, b / 2, i - 1);
    }
  }

  lemma {:induction false} BitShl(v: nat, i: nat, j: nat)
    ensures i <= j ==> Bit(Shl(v, i), j) == Bit(v, j - i)
    ensures i > j ==> !Bit(Shl(v, i), j)
  {
    if i > 0 && j > 0 {
      BitShl(v, i - 1, j - 1);
    }
  }

  lemma {:induction false} BitZero(i: nat)
    ensures !Bit(0, i)
  {
    if i > 0 {
      BitZero(i - 1);
    }
  }

  lemma BitUnit(i: nat, j: nat)
    ensures Bit(Shl(1, i), j) == (i == j)
  {
    BitShl(1, i, j);
    if i < j {
      assert Shr(1, j - i) == Shr(0, j - i - 1);
      BitZero(j - i - 1);
    }
  }

  lemma {:induction false} ShlBound(v: nat, i: nat, n: nat)
    requires v < Shl(1, n)
    ensures Shl(v, i) < Shl(1, n + i)
  {
    if i > 0 {
      ShlBound(v, i - 1, n);
    }
  }

  lemma {:induction false} ShlMono(m: nat, n: nat)
    requires m <= n
    ensures Shl(1, m) <= Shl(1, n)
    decreases n
  {
    if m < n {
      ShlMono(m, n - 1);
    }
  }

  lemma {:induction false} XorBound(a: nat, b: nat, n: nat)
    requires a < Shl(1, n) && b < Shl(1, n)
    ensures Xor(a, b) < Shl(1, n)
  {
    if n > 0 {
      XorStep(a, b);
      XorBound(a / 2, b / 2, n - 1);
    }
  }

  /** A word whose top bit is clear fits in one bit less. */
  lemma {:induction false} TopBitClear(v: nat, n: nat)
    requires v < Shl(1, n + 1)
    ensures Bit(v, n) <==> v >= Shl(1, n)
  {
    if n > 0 {
      TopBitClear(v / 2, n - 1);
    }
  }

  lemma {:induction false} BitAbove(v: nat, n: nat, i: nat)
    requires v < Shl(1, n) && n <= i
    ensures !Bit(v, i)
  {
    if n == 0 {
      BitZero(i);
    } else {
      BitAbove(v / 2, n - 1, i - 1);
    }
  }

  lemma {:induction false} BitsDetermine(a: nat, b: nat, n: nat)
    requires a < Shl(1, n) && b < Shl(1, n)
    requires forall i: nat | i < n :: Bit(a, i) == Bit(b, i)
    ensures a == b
  {
    if n > 0 {
      assert Bit(a, 0) == Bit(b, 0);
      forall i: nat | i < n - 1
        ensures Bit(a / 2, i) == Bit(b / 2, i)
      {
        assert Bit(a, i + 1) == Bit(b, i + 1);
      }
      BitsDetermine(a / 2, b / 2, n - 1);
    }
  }
}
