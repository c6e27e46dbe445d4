/** Polynomials over GF(2^16) as coefficient sequences, lowest first (spqr/encoding_polynomial.go):
    evaluation, sum, product, scaling and Lagrange interpolation. */
module Poly {
  import opened Gf16
  import opened Gf16Inverse

  datatype Point = Point(x: Gf, y: Gf)

  function Eval(p: seq<Gf>, x: Gf): Gf {
    if p == [] then 0 else Add(p[0], Mul(x, Eval(p[1..], x)))
  }

  function Zeros(n: nat): seq<Gf> {
    seq(n, _ => 0)
  }

  function Coeff(p: seq<Gf>, k: nat): Gf {
    if k < |p| then p[k] else 0
  }

  function PolyAdd(a: seq<Gf>, b: seq<Gf>): (r: seq<Gf>)
    ensures |r| == if |a| < |b| then |b| else |a|
  {
    seq(if |a| < |b| then |b| else |a|, k requires 0 <= k => Add(Coeff(a, k), Coeff(b, k)))
  }

  function PolyScale(a: seq<Gf>, s: Gf): (r: seq<Gf>)
    ensures |r| == |a|
  {
    seq(|a|, k requires 0 <= k < |a| => Mul(a[k], s))
  }

  // ---------------------------------------------------------------- evaluation is a homomorphism

  lemma {:induction false} EvalAdd(a: seq<Gf>, b: seq<Gf>, x: Gf)
    ensures Eval(PolyAdd(a, b), x) == Add(Eval(a, x), Eval(b, x))
    decreases |a| + |b|
  {
    hide Add, Mul;
    var r := PolyAdd(a, b);
    if r == [] {
      AddZero(0);
    } else {
      var a', b' := if a == [] then [] else a[1..], if b == [] then [] else b[1..];
      assert r[1..] == PolyAdd(a', b');
      EvalAdd(a', b', x);
      EvalHead(a, x);
      EvalHead(b, x);
      MulAddRight(x, Eval(a', x), Eval(b', x));
      AddRegroup(Coeff(a, 0), Coeff(b, 0), Mul(x, Eval(a', x)), Mul(x, Eval(b', x)));
    }
  }

  lemma EvalHead(a: seq<Gf>, x: Gf)
    ensures Eval(a, x) == Add(Coeff(a, 0), Mul(x, Eval(if a == [] then [] else a[1..], x)))
  {
    hide Add, Mul;
    MulZero(x);
    AddZero(0);
  }

  lemma {:induction false} EvalScale(a: seq<Gf>, s: Gf, x: Gf)
    ensures Eval(PolyScale(a, s), x) == Mul(Eval(a, x), s)
  {
    hide Add, Mul;
    if a == [] {
      MulZero(s);
    } else {
      var t := Eval(a[1..], x);
      assert PolyScale(a, s)[1..] == PolyScale(a[1..], s);
      EvalScale(a[1..], s, x);
      MulAssoc(x, t, s);
      MulAddLeft(a[0], Mul(x, t), s);
    }
  }

  lemma {:induction false} EvalZeros(n: nat, x: Gf)
    ensures Eval(Zeros(n), x) == 0
  {
    hide Add, Mul;
    if n > 0 {
      assert Zeros(n)[1..] == Zeros(n - 1);
      EvalZeros(n - 1, x);
      MulZero(x);
      AddZero(0);
    }
  }

  // ---------------------------------------------------------------- product

  /** Coefficient k of the product of the first i coefficients of a with b. */
  function Conv(a: seq<Gf>, b: seq<Gf>, i: nat, k: int): Gf
    requires i <= |a|
  {
    if i == 0 then 0
    else Add(Conv(a, b, i - 1, k), if 0 <= k - (i - 1) < |b| then Mul(a[i - 1], b[k - (i - 1)]) else 0)
  }

  function PolyMul(a: seq<Gf>, b: seq<Gf>): seq<Gf> {
    if a == [] || b == [] then []
    else seq(|a| + |b| - 1, k requires 0 <= k => Conv(a, b, |a|, k))
  }

  /** Multiplication by the monic linear factor x + c, as the interpolation uses it. */
  lemma {:induction false} ConvLinear(a: seq<Gf>, c: Gf, i: nat, k: nat)
    requires i <= |a|
    ensures Conv(a, [c, 1], i, k) ==
            Add(if k < i then Mul(a[k], c) else 0, if 0 < k <= i then a[k - 1] else 0)
  {
    hide Add, Mul;
    if i == 0 {
      AddZero(0);
    } else {
      ConvLinear(a, c, i - 1, k);
      var u := Mul(a[i - 1], c);
      MulComm(a[i - 1], 1);
      OneMul(a[i - 1]);
      if k == i - 1 {
        var w: Gf := if 0 < k then a[k - 1] else 0;
        AddComm(u, w);
        AddZero(w);
        assert Conv(a, [c, 1], i - 1, k) == w;
      } else if k == i {
        AddZero(0);
        AddZero(a[i - 1]);
      } else {
        AddZero(Conv(a, [c, 1], i - 1, k));
      }
    }
  }

  lemma EvalMulLinear(a: seq<Gf>, c: Gf, x: Gf)
    requires a != []
    ensures |PolyMul(a, [c, 1])| == |a| + 1
    ensures Eval(PolyMul(a, [c, 1]), x) == Mul(Eval(a, x), Add(c, x))
  {
    hide Add, Mul;
    var p, s := PolyMul(a, [c, 1]), [0] + a;
    forall k | 0 <= k < |p|
      ensures p[k] == Add(Coeff(PolyScale(a, c), k), Coeff(s, k))
    {
      ConvLinear(a, c, |a|, k);
    }
    assert p == PolyAdd(PolyScale(a, c), s);
    EvalAdd(PolyScale(a, c), s, x);
    EvalScale(a, c, x);
    assert s[1..] == a;
    AddZero(Mul(x, Eval(a, x)));
    MulComm(x, Eval(a, x));
    MulAddRight(Eval(a, x), c, x);
  }

  // ---------------------------------------------------------------- Lagrange interpolation

  /** The product of the factors x + x_j for j below n other than i. */
  function Basis(points: seq<Point>, i: nat, n: nat): (r: seq<Gf>)
    requires n <= |points|
    decreases n
  {
    if n == 0 then [1]
    else if n - 1 == i then Basis(points, i, n - 1)
    else PolyMul(Basis(points, i, n - 1), [points[n - 1].x, 1])
  }

  function Denom(points: seq<Point>, i: nat, n: nat): Gf
    requires i < |points| && n <= |points|
    decreases n
  {
    if n == 0 then 1
    else if n - 1 == i then Denom(points, i, n - 1)
    else Mul(Denom(points, i, n - 1), Add(points[i].x, points[n - 1].x))
  }

  function Term(points: seq<Point>, i: nat): seq<Gf>
    requires i < |points|
  {
    var d := Denom(points, i, |points|);
    PolyScale(Basis(points, i, |points|), Div(points[i].y, d))
  }

  function InterpSum(points: seq<Point>, n: nat): seq<Gf>
    requires n <= |points|
    decreases n
  {
    if n == 0 then Zeros(|points|)
    else if Denom(points, n - 1, |points|) == 0 then InterpSum(points, n - 1)
    else PolyAdd(InterpSum(points, n - 1), Term(points, n - 1))
  }

  function Interpolate(points: seq<Point>): seq<Gf> {
    InterpSum(points, |points|)
  }

  ghost predicate DistinctX(points: seq<Point>) {
    forall i, j | 0 <= i < j < |points| :: points[i].x != points[j].x
  }

  /** The value of the basis polynomial at x. */
  function BasisAt(points: seq<Point>, i: nat, n: nat, x: Gf): Gf
    requires n <= |points|
    decreases n
  {
    if n == 0 then 1
    else if n - 1 == i then BasisAt(points, i, n - 1, x)
    else Mul(BasisAt(points, i, n - 1, x), Add(points[n - 1].x, x))
  }

  lemma {:induction false} BasisEval(points: seq<Point>, i: nat, n: nat, x: Gf)
    requires n <= |points|
    ensures |Basis(points, i, n)| == if i < n then n else n + 1
    ensures Eval(Basis(points, i, n), x) == BasisAt(points, i, n, x)
    decreases n
  {
    hide Add, Mul, PolyMul;
    if n == 0 {
      EvalConst(1, x);
    } else {
      BasisEval(points, i, n - 1, x);
      if n - 1 != i {
        EvalMulLinear(Basis(points, i, n - 1), points[n - 1].x, x);
      }
    }
  }

  lemma EvalConst(c: Gf, x: Gf)
    ensures Eval([c], x) == c
  {
    hide Add, Mul;
    assert Eval([], x) == 0;
    MulZero(x);
    AddZero(c);
  }

  lemma {:induction false} BasisAtOwn(points: seq<Point>, i: nat, n: nat)
    requires i < |points| && n <= |points|
    ensures BasisAt(points, i, n, points[i].x) == Denom(points, i, n)
    decreases n
  {
    hide Add, Mul;
    if n > 0 {
      BasisAtOwn(points, i, n - 1);
      if n - 1 != i {
        AddComm(points[i].x, points[n - 1].x);
      }
    }
  }

  lemma {:induction false} BasisAtOther(points: seq<Point>, i: nat, n: nat, k: nat)
    requires k < n <= |points| && k != i
    ensures BasisAt(points, i, n, points[k].x) == 0
    decreases n
  {
    hide Add, Mul;
    var x := points[k].x;
    if n - 1 == k {
      AddSelf(x);
      MulZero(BasisAt(points, i, n - 1, x));
    } else {
      BasisAtOther(points, i, n - 1, k);
      MulZero(Add(points[n - 1].x, x));
    }
  }

  lemma {:induction false} DenomNonzero(points: seq<Point>, i: nat, n: nat)
    requires i < |points| && n <= |points| && DistinctX(points)
    ensures Denom(points, i, n) != 0
    decreases n
  {
    hide Add, Mul;
    if n > 0 {
      DenomNonzero(points, i, n - 1);
      if n - 1 != i {
        AddCancel(points[i].x, points[n - 1].x);
        if Mul(Denom(points, i, n - 1), Add(points[i].x, points[n - 1].x)) == 0 {
          NoZeroDivisors(Denom(points, i, n - 1), Add(points[i].x, points[n - 1].x));
        }
      }
    }
  }

  lemma TermAt(points: seq<Point>, i: nat, k: nat)
    requires i < |points| && k < |points| && DistinctX(points)
    ensures |Term(points, i)| == |points|
    ensures Eval(Term(points, i), points[k].x) == if i == k then points[k].y else 0
  {
    hide Add, Mul, Div;
    var n, x := |points|, points[k].x;
    var d := Denom(points, i, n);
    BasisEval(points, i, n, x);
    EvalScale(Basis(points, i, n), Div(points[i].y, d), x);
    if i == k {
      BasisAtOwn(points, i, n);
      DenomNonzero(points, i, n);
      DivMul(points[i].y, d);
      MulComm(d, Div(points[i].y, d));
    } else {
      BasisAtOther(points, i, n, k);
      MulZero(Div(points[i].y, d));
    }
  }

  lemma {:induction false} InterpSumAt(points: seq<Point>, n: nat, k: nat)
    requires n <= |points| && k < |points| && DistinctX(points)
    ensures |InterpSum(points, n)| == |points|
    ensures Eval(InterpSum(points, n), points[k].x) == if k < n then points[k].y else 0
    decreases n
  {
    hide Add, Mul, Term, PolyAdd;
    if n == 0 {
      EvalZeros(|points|, points[k].x);
    } else {
      InterpSumAt(points, n - 1, k);
      DenomNonzero(points, n - 1, |points|);
      TermAt(points, n - 1, k);
      EvalAdd(InterpSum(points, n - 1), Term(points, n - 1), points[k].x);
      AddZero(points[k].y);
      AddZero(0);
    }
  }

  /** The interpolation passes through its points, and has as many coefficients as points. */
  lemma InterpolateAt(points: seq<Point>, k: nat)
    requires k < |points| && DistinctX(points)
    ensures |Interpolate(points)| == |points|
    ensures Eval(Interpolate(points), points[k].x) == points[k].y
  {
    InterpSumAt(points, |points|, k);
  }

  // ---------------------------------------------------------------- uniqueness

  /** The quotient of p(x) - p(r) by x - r. */
  function Quotient(p: seq<Gf>, r: Gf): seq<Gf> {
    if |p| <= 1 then [] else PolyAdd(p[1..], PolyScale(Quotient(p[1..], r), r))
  }

  lemma {:induction false} QuotientEval(p: seq<Gf>, r: Gf, x: Gf)
    ensures |Quotient(p, r)| == if p == [] then 0 else |p| - 1
    ensures Add(Eval(p, x), Eval(p, r)) == Mul(Add(x, r), Eval(Quotient(p, r), x))
    decreases |p|, 1
  {
    hide Add, Mul;
    MulZero(Add(x, r));
    if p == [] {
      AddZero(0);
    } else if |p| == 1 {
      EvalConst(p[0], x);
      EvalConst(p[0], r);
      AddSelf(p[0]);
    } else {
      QuotientStep(p, r, x);
    }
  }

  lemma {:induction false} QuotientStep(p: seq<Gf>, r: Gf, x: Gf)
    requires |p| > 1
    ensures |Quotient(p, r)| == |p| - 1
    ensures Add(Eval(p, x), Eval(p, r)) == Mul(Add(x, r), Eval(Quotient(p, r), x))
    decreases |p|, 0
  {
    hide Add, Mul;
    var c, t := p[0], p[1..];
    var tx, tr, q := Eval(t, x), Eval(t, r), Eval(Quotient(t, r), x);
    QuotientEval(t, r, x);
    EvalAdd(t, PolyScale(Quotient(t, r), r), x);
    EvalScale(Quotient(t, r), r, x);
    calc {
      Add(Add(c, Mul(x, tx)), Add(c, Mul(r, tr)));
      { AddRegroup(c, Mul(x, tx), c, Mul(r, tr)); AddSelf(c); AddZero(Add(Mul(x, tx), Mul(r, tr))); }
      Add(Mul(x, tx), Mul(r, tr));
      { AddCancel(Mul(x, tx), Mul(r, tx)); }
      Add(Add(Add(Mul(x, tx), Mul(r, tx)), Mul(r, tx)), Mul(r, tr));
      { AddAssoc(Add(Mul(x, tx), Mul(r, tx)), Mul(r, tx), Mul(r, tr)); }
      Add(Add(Mul(x, tx), Mul(r, tx)), Add(Mul(r, tx), Mul(r, tr)));
      { MulAddLeft(x, r, tx); MulAddRight(r, tx, tr); }
      Add(Mul(Add(x, r), tx), Mul(r, Mul(Add(x, r), q)));
      { MulComm(r, Mul(Add(x, r), q)); MulAssoc(Add(x, r), q, r); }
      Add(Mul(Add(x, r), tx), Mul(Add(x, r), Mul(q, r)));
      { MulAddRight(Add(x, r), tx, Mul(q, r)); }
      Mul(Add(x, r), Add(tx, Mul(q, r)));
    }
  }

  ghost predicate Distinct(xs: seq<Gf>) {
    forall i, j | 0 <= i < j < |xs| :: xs[i] != xs[j]
  }

  /** A polynomial with as many roots as coefficients is zero everywhere. */
  lemma {:induction false} TooManyRoots(p: seq<Gf>, xs: seq<Gf>, x: Gf)
    requires |p| <= |xs| && Distinct(xs)
    requires forall i | 0 <= i < |xs| :: Eval(p, xs[i]) == 0
    ensures Eval(p, x) == 0
    decreases |p|
  {
    hide Add, Mul, Eval, Quotient;
    if p == [] {
      EvalEmpty(x);
    } else {
      var r := xs[0];
      var q := Quotient(p, r);
      forall i | 0 <= i < |xs| - 1
        ensures Eval(q, xs[1..][i]) == 0
      {
        var s := xs[i + 1];
        QuotientEval(p, r, s);
        AddZero(0);
        AddCancel(s, r);
        NoZeroDivisors(Add(s, r), Eval(q, s));
      }
      QuotientEval(p, r, x);
      TooManyRoots(q, xs[1..], x);
      MulZero(Add(x, r));
      AddZero(Eval(p, x));
    }
  }

  lemma EvalEmpty(x: Gf)
    ensures Eval([], x) == 0
  {
  }

  /** Two polynomials with at most n coefficients that agree at n places agree everywhere. */
  lemma AgreeEverywhere(p: seq<Gf>, q: seq<Gf>, xs: seq<Gf>, x: Gf)
    requires |p| <= |xs| && |q| <= |xs| && Distinct(xs)
    requires forall i | 0 <= i < |xs| :: Eval(p, xs[i]) == Eval(q, xs[i])
    ensures Eval(p, x) == Eval(q, x)
  {
    hide Add, Eval;
    var d := PolyAdd(p, q);
    forall i | 0 <= i < |xs|
      ensures Eval(d, xs[i]) == 0
    {
      EvalAdd(p, q, xs[i]);
      AddSelf(Eval(p, xs[i]));
    }
    TooManyRoots(d, xs, x);
    EvalAdd(p, q, x);
    AddCancel(Eval(p, x), Eval(q, x));
  }
}
