/** The loops of spqr/encoding_polynomial.go over coefficient slices, proved against module Poly. */
module PolyCode {
  import opened Gf16
  import opened Gf16Inverse
  import opened Poly
  import Gf16Code

  method EvalPoly(p: seq<Gf>, x: Gf) returns (out: Gf)
    ensures out == Eval(p, x)
  {
    if |p| == 0 {
      return 0;
    }
    out := p[|p| - 1];
    EvalConst(p[|p| - 1], x);
    assert p[|p| - 1..] == [p[|p| - 1]];
    for i := |p| - 1 downto 0
      invariant out == Eval(p[i..], x)
    {
      hide Add, Mul;
      var scaled := Gf16Code.Multiply(out, x);
      MulComm(out, x);
      AddComm(p[i], scaled);
      assert p[i..][1..] == p[i + 1..];
      out := Add(scaled, p[i]);
    }
    assert p[0..] == p;
  }

  method AddPolys(a0: seq<Gf>, b0: seq<Gf>) returns (out: seq<Gf>)
    ensures out == PolyAdd(a0, b0)
  {
    hide Add;
    var a, b := a0, b0;
    if |a| < |b| {
      a, b := b, a;
    }
    out := a;
    for i := 0 to |b|
      invariant |out| == |a|
      invariant forall k | 0 <= k < |a| :: out[k] == if k < i then Add(a[k], b[k]) else a[k]
    {
      out := out[i := Add(out[i], b[i])];
    }
    forall k | 0 <= k < |a|
      ensures out[k] == PolyAdd(a0, b0)[k]
    {
      AddComm(Coeff(a0, k), Coeff(b0, k));
      AddZero(a[k]);
    }
  }

  method MulPolys(a: seq<Gf>, b: seq<Gf>) returns (out: seq<Gf>)
    ensures out == PolyMul(a, b)
  {
    hide Add, Mul;
    if |a| == 0 || |b| == 0 {
      return [];
    }
    var n := |a| + |b| - 1;
    out := Zeros(n);
    for i := 0 to |a|
      invariant |out| == n
      invariant forall k | 0 <= k < n :: out[k] == Conv(a, b, i, k)
    {
      for j := 0 to |b|
        invariant |out| == n
        invariant forall k | 0 <= k < n :: out[k] == Conv(a, b, if i <= k < i + j then i + 1 else i, k)
      {
        var t := Gf16Code.Multiply(a[i], b[j]);
        out := out[i + j := Add(out[i + j], t)];
      }
      forall k | 0 <= k < n && !(i <= k < i + |b|)
        ensures Conv(a, b, i + 1, k) == Conv(a, b, i, k)
      {
        AddZero(Conv(a, b, i, k));
      }
    }
  }

  method ScalePoly(a: seq<Gf>, s: Gf) returns (out: seq<Gf>)
    ensures out == PolyScale(a, s)
  {
    hide Mul;
    out := Zeros(|a|);
    for i := 0 to |a|
      invariant |out| == |a|
      invariant forall k | 0 <= k < i :: out[k] == Mul(a[k], s)
    {
      var t := Gf16Code.Multiply(a[i], s);
      out := out[i := t];
    }
  }

  method LagrangeInterpolate(points: seq<Point>) returns (coeffs: seq<Gf>)
    ensures coeffs == Interpolate(points)
  {
    hide Add, Mul, Div, PolyMul, PolyAdd, PolyScale;
    if |points| == 0 {
      return [];
    }
    coeffs := Zeros(|points|);
    for i := 0 to |points|
      invariant coeffs == InterpSum(points, i)
    {
      var basis: seq<Gf> := [1];
      var denom: Gf := 1;
      for j := 0 to |points|
        invariant basis == Basis(points, i, j) && denom == Denom(points, i, j)
      {
        if i != j {
          basis := MulPolys(basis, [points[j].x, 1]);
          denom := Gf16Code.Multiply(denom, Add(points[i].x, points[j].x));
        }
      }
      if denom != 0 {
        var scale := Gf16Code.Divide(points[i].y, denom);
        basis := ScalePoly(basis, scale);
        coeffs := AddPolys(coeffs, basis);
      }
    }
  }
}
