/** The encoder and decoder objects of spqr/encoding_polynomial.go, proved against module Erasure. */
module ErasureCode {
  import opened Words
  import opened Results
  import opened Gf16
  import opened Poly
  import opened Sorting
  import opened Erasure
  import PolyCode

  datatype EncoderError = OddLength | TooLong

  class PolyEncoder {
    var idx: nat
    var msg: seq<Byte>
    var points: seq<seq<Gf>>
    /** The interpolated polynomials: empty until a chunk beyond the message is first asked for. */
    var polys: seq<seq<Gf>>

    ghost predicate Valid()
      reads this
    {
      && Encodable(msg)
      && |points| == 16
      && (forall i | 0 <= i < 16 :: points[i] == PolyPoints(msg, |msg| / 2, i))
      && (polys == [] || |polys| == 16)
      && (forall i | 0 <= i < |polys| :: polys[i] == Curve(msg, i))
    }

    constructor (payload: seq<Byte>)
      requires Encodable(payload)
      ensures Valid() && msg == payload && idx == 0
    {
      idx, msg, polys := 0, payload, [];
      var pts: seq<seq<Gf>> := seq(16, _ => []);
      var i := 0;
      while i < |payload|
        invariant 0 <= i <= |payload| && i % 2 == 0 && |pts| == 16
        invariant forall k | 0 <= k < 16 :: pts[k] == PolyPoints(payload, i / 2, k)
      {
        var k := (i / 2) % 16;
        var value := Join(payload[i], payload[i + 1]);
        NextPoint(payload, i / 2);
        pts := pts[k := pts[k] + [value]];
        i := i + 2;
      }
      points := pts;
    }

    static method Create(payload: seq<Byte>) returns (r: Result<PolyEncoder, EncoderError>)
      ensures r.Ok? <==> Encodable(payload)
      ensures r.Ok? ==> fresh(r.value) && r.value.Valid() && r.value.msg == payload && r.value.idx == 0
      ensures r.Err? ==> r.error == if |payload| % 2 != 0 then OddLength else TooLong
    {
      if |payload| % 2 != 0 {
        return Err(OddLength);
      }
      if |payload| > MAX_MESSAGE {
        return Err(TooLong);
      }
      var e := new PolyEncoder(payload);
      return Ok(e);
    }

    method FillCache()
      requires Valid() && polys == []
      modifies this`polys
      ensures Valid() && |polys| == 16
    {
      hide Interpolate, PolyPoints, Samples;
      var ps: seq<seq<Gf>> := [];
      for i := 0 to 16
        invariant |ps| == i && forall k | 0 <= k < i :: ps[k] == Curve(msg, k)
      {
        PointsFit(msg, i);
        var p := PolyCode.LagrangeInterpolate(Samples(points[i]));
        ps := ps + [p];
      }
      polys := ps;
    }

    method PointAt(polyIdx: nat, at: Index) returns (v: Gf)
      requires Valid() && polyIdx < 16
      modifies this`polys
      ensures Valid()
      ensures v == Eval(Curve(msg, polyIdx), at)
    {
      hide Curve, Eval;
      if at < |points[polyIdx]| {
        CurveAt(msg, polyIdx, at);
        return points[polyIdx][at];
      }
      if polys == [] {
        FillCache();
      }
      v := PolyCode.EvalPoly(polys[polyIdx], at);
    }

    method ChunkAt(at: Index) returns (c: Chunk)
      requires Valid()
      modifies this`polys
      ensures Valid()
      ensures c == ChunkOf(msg, at)
    {
      hide Curve, Eval, Pack;
      assert Pack([]) == [] by { PackNone(); }
      var values: seq<Gf> := [];
      var data: seq<Byte> := [];
      for i := 0 to 16
        invariant Valid()
        invariant values == ChunkValues(msg, at, i) && data == Pack(values)
      {
        var value := PointAt(i, at);
        PackNext(values, value);
        values := values + [value];
        data := data + [HighByte(value), LowByte(value)];
      }
      c := Chunk(at, data);
    }

    /** The chunk sent depends on the message and the counter alone: not on the cache. */
    method NextChunk() returns (c: Chunk)
      requires Valid()
      modifies this`polys, this`idx
      ensures Valid()
      ensures c == ChunkOf(msg, old(idx) % 0x10000)
      ensures idx == (old(idx) + 1) % 0x1_0000_0000
    {
      c := ChunkAt(idx % 0x10000);
      idx := (idx + 1) % 0x1_0000_0000;
    }
  }

  lemma PointsFit(msg: seq<Byte>, i: nat)
    requires Encodable(msg) && i < 16
    ensures |PolyPoints(msg, |msg| / 2, i)| <= 0x10000
  {
  }

  lemma PackNone()
    ensures Pack([]) == []
  {
  }

  lemma PackNext(values: seq<Gf>, v: Gf)
    ensures Pack(values + [v]) == Pack(values) + [HighByte(v), LowByte(v)]
  {
    assert (values + [v])[..|values|] == values;
  }

  lemma NextPoint(msg: seq<Byte>, m: nat)
    requires 2 * m + 1 < |msg|
    ensures forall k | 0 <= k < 16 ::
      PolyPoints(msg, m + 1, k) == PolyPoints(msg, m, k) + (if k == m % 16 then [Value(msg, m)] else [])
  {
    forall k | 0 <= k < 16
      ensures PolyPoints(msg, m + 1, k) == PolyPoints(msg, m, k) + (if k == m % 16 then [Value(msg, m)] else [])
    {
      assert Count(m + 1, k) == Count(m, k) + (if k == m % 16 then 1 else 0);
      assert k == m % 16 ==> 16 * Count(m, k) + k == m;
    }
  }

  lemma ScanNext(d: Decoder, i: nat)
    requires d.Valid() && i <= 16
    ensures i == 16 ==> Scan(d, i) == Message([])
    ensures i < 16 && |d.points[i]| < Count(d.ptsNeeded, i) ==> Scan(d, i) == Pending
    ensures i < 16 && Count(d.ptsNeeded, i) == 0 ==> Scan(d, i) == MissingPoints
    ensures i < 16 && 0 < Count(d.ptsNeeded, i) <= |d.points[i]| ==> Scan(d, i) == Scan(d, i + 1)
  {
    hide Count;
  }

  class PolyDecoder {
    var ptsNeeded: nat
    var points: seq<map<Index, Gf>>
    var isComplete: bool

    ghost function Contents(): (d: Decoder)
      reads this
    {
      Decoder(ptsNeeded, points, isComplete)
    }

    ghost predicate Valid()
      reads this
    {
      |points| == 16
    }

    constructor (lenBytes: nat)
      ensures Valid() && Contents() == NewDecoder(lenBytes)
    {
      ptsNeeded, points, isComplete := lenBytes / 2, seq(16, _ => map[]), false;
    }

    method NecessaryPoints(poly: nat) returns (n: nat)
      requires poly < 16
      ensures n == Count(ptsNeeded, poly)
    {
      var pointsPerPoly := ptsNeeded / NUM_POLYS;
      var pointsRemaining := ptsNeeded % NUM_POLYS;
      if poly < pointsRemaining {
        return pointsPerPoly + 1;
      }
      return pointsPerPoly;
    }

    method Add(c: Chunk)
      requires Valid() && |c.data| == 32
      modifies this`points
      ensures Valid() && Contents() == AddChunk(old(Contents()), c)
    {
      ghost var before := points;
      for i := 0 to 16
        invariant Valid()
        invariant forall k | 0 <= k < 16 ::
          points[k] == if k < i then AddPoint(before[k], Count(ptsNeeded, k), c.index, ChunkValue(c, k)) else before[k]
      {
        var totalIdx := c.index * NUM_POLYS + i;
        var poly, polyIdx := totalIdx % NUM_POLYS, totalIdx / NUM_POLYS;
        assert poly == i && polyIdx == c.index;
        var x: Index := polyIdx % 0x10000;
        var value := Join(c.data[2 * i], c.data[2 * i + 1]);
        var needed := NecessaryPoints(i);
        if polyIdx < needed || |points[poly]| < needed {
          if x !in points[poly] {
            var updated: map<Index, Gf> := points[poly][x := value];
            points := points[poly := updated];
          }
        }
      }
    }

    method DecodedMessage() returns (r: Outcome)
      requires Valid()
      ensures r == Decode(Contents())
    {
      hide Interpolate, Eval, SortedPoints, Pack, Scan;
      if isComplete {
        return Pending;
      }
      var pointsVecs;
      r, pointsVecs := CollectPoints();
      if r.Message? {
        var out := Reconstruct(pointsVecs);
        r := Message(out);
      }
    }

    method CollectPoints() returns (r: Outcome, pointsVecs: seq<seq<Point>>)
      requires Valid()
      ensures r == Scan(Contents(), 0)
      ensures r.Message? ==> Ready(Contents()) && |pointsVecs| == 16
      ensures r.Message? ==> forall k | 0 <= k < 16 :: pointsVecs[k] == SortedPoints(points[k], Count(ptsNeeded, k))
    {
      hide SortedPoints, Count, Scan;
      pointsVecs := [];
      ghost var d := Contents();
      for i := 0 to 16
        invariant Scan(d, 0) == Scan(d, i)
        invariant |pointsVecs| == i
        invariant forall k | 0 <= k < i :: Count(ptsNeeded, k) <= |points[k]|
        invariant forall k | 0 <= k < i :: pointsVecs[k] == SortedPoints(points[k], Count(ptsNeeded, k))
      {
        ScanNext(d, i);
        var needed := NecessaryPoints(i);
        if |points[i]| < needed {
          return Pending, [];
        }
        var vec := PointsInOrder(i, needed);
        if |vec| == 0 {
          return MissingPoints, [];
        }
        pointsVecs := pointsVecs + [vec];
      }
      ScanNext(d, 16);
      return Message([]), pointsVecs;
    }

    method Reconstruct(pointsVecs: seq<seq<Point>>) returns (out: seq<Byte>)
      requires Ready(Contents()) && |pointsVecs| == 16
      requires forall k | 0 <= k < 16 :: pointsVecs[k] == SortedPoints(points[k], Count(ptsNeeded, k))
      ensures out == Pack(DecodedValues(Contents(), ptsNeeded))
    {
      hide Interpolate, Eval, SortedPoints, Pack;
      var polys: map<nat, seq<Gf>> := map[];
      ghost var values: seq<Gf> := [];
      out := [];
      PackNone();
      for i := 0 to ptsNeeded
        invariant forall k | k in polys :: k < 16 && polys[k] == Interpolate(pointsVecs[k])
        invariant values == DecodedValues(Contents(), i) && out == Pack(values)
      {
        var poly, x := i % 16, (i / 16) % 0x10000;
        var value: Gf;
        if x in points[poly] {
          value := points[poly][x];
        } else {
          if poly !in polys {
            var p := PolyCode.LagrangeInterpolate(pointsVecs[poly]);
            polys := polys[poly := p];
          }
          value := PolyCode.EvalPoly(polys[poly], x);
        }
        PackNext(values, value);
        values := values + [value];
        out := out + [HighByte(value), LowByte(value)];
      }
    }

    /** The stored points with the smallest places: sort the keys and take the first ones. */
    method PointsInOrder(polyIdx: nat, needed: nat) returns (out: seq<Point>)
      requires Valid() && polyIdx < 16 && needed <= |points[polyIdx]|
      ensures out == SortedPoints(points[polyIdx], needed)
    {
      var pts := points[polyIdx];
      var keys := SortSet(pts.Keys);
      out := [];
      for i := 0 to needed
        invariant |out| == i && forall k | 0 <= k < i :: out[k] == Point(keys[k], pts[keys[k]])
      {
        out := out + [Point(keys[i], pts[keys[i]])];
      }
    }
  }
}
