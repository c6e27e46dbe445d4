/** The erasure code of spqr/encoding_polynomial.go. A message of m 16-bit points is dealt round
    robin to sixteen polynomials; chunk number k carries the value at k of each of them. */
module Erasure {
  import opened Words
  import opened Sorting
  import opened Gf16
  import opened Poly

  type Index = k: nat | k < 0x10000 witness 0

  const NUM_POLYS := 16
  const MAX_MESSAGE := 0x10_0000

  datatype Chunk = Chunk(index: Index, data: seq<Byte>)

  // ---------------------------------------------------------------- encoding

  predicate Encodable(msg: seq<Byte>) {
    |msg| % 2 == 0 && |msg| <= MAX_MESSAGE
  }

  /** How many of the first m points go to polynomial i. */
  function Count(m: nat, i: nat): nat {
    m / 16 + if i < m % 16 then 1 else 0
  }

  lemma CountBound(m: nat, i: nat, j: nat)
    requires i < 16
    ensures j < Count(m, i) <==> 16 * j + i < m
  {
  }

  /** A 16-bit word from its two bytes. */
  function Join(high: Byte, low: Byte): Gf {
    var h: nat, l: nat := high, low;
    256 * h + l
  }

  function HighByte(v: Gf): Byte {
    v / 256
  }

  function LowByte(v: Gf): Byte {
    v % 256
  }

  lemma JoinSplit(high: Byte, low: Byte)
    ensures HighByte(Join(high, low)) == high && LowByte(Join(high, low)) == low
  {
  }

  lemma SplitJoin(v: Gf)
    ensures Join(HighByte(v), LowByte(v)) == v
  {
  }

  /** Point k of the message: two bytes, the high one first. */
  function Value(msg: seq<Byte>, k: nat): Gf
    requires 2 * k + 1 < |msg|
  {
    Join(msg[2 * k], msg[2 * k + 1])
  }

  function PolyPoints(msg: seq<Byte>, m: nat, i: nat): (r: seq<Gf>)
    requires 2 * m <= |msg| && i < 16
    ensures |r| == Count(m, i)
  {
    seq(Count(m, i), j requires 0 <= j < Count(m, i) => CountBound(m, i, j); Value(msg, 16 * j + i))
  }

  /** The points (0, y0), (1, y1), ... that determine the polynomial. */
  function Samples(ys: seq<Gf>): (r: seq<Point>)
    requires |ys| <= 0x10000
    ensures |r| == |ys| && DistinctX(r)
  {
    seq(|ys|, j requires 0 <= j < |ys| => Point(j, ys[j]))
  }

  function Curve(msg: seq<Byte>, i: nat): seq<Gf>
    requires Encodable(msg) && i < 16
  {
    Interpolate(Samples(PolyPoints(msg, |msg| / 2, i)))
  }

  /** The bytes of sixteen points, high byte first. */
  function Pack(values: seq<Gf>): (r: seq<Byte>)
    ensures |r| == 2 * |values|
    ensures forall i | 0 <= i < |values| :: r[2 * i] == HighByte(values[i]) && r[2 * i + 1] == LowByte(values[i])
  {
    if values == [] then []
    else Pack(values[..|values| - 1]) + [HighByte(values[|values| - 1]), LowByte(values[|values| - 1])]
  }

  function ChunkValues(msg: seq<Byte>, index: Index, n: nat): (r: seq<Gf>)
    requires Encodable(msg) && n <= 16
    ensures |r| == n
    ensures forall i | 0 <= i < n :: r[i] == Eval(Curve(msg, i), index)
  {
    if n == 0 then [] else ChunkValues(msg, index, n - 1) + [Eval(Curve(msg, n - 1), index)]
  }

  function ChunkOf(msg: seq<Byte>, index: Index): (c: Chunk)
    requires Encodable(msg)
    ensures c.index == index && |c.data| == 32
  {
    Chunk(index, Pack(ChunkValues(msg, index, 16)))
  }

  /** The first chunks carry the message itself. */
  lemma CurveAt(msg: seq<Byte>, i: nat, j: nat)
    requires Encodable(msg) && i < 16 && j < Count(|msg| / 2, i)
    ensures |Curve(msg, i)| == Count(|msg| / 2, i)
    ensures 16 * j + i < |msg| / 2 && Eval(Curve(msg, i), j) == Value(msg, 16 * j + i)
  {
    hide Eval, Interpolate;
    CountBound(|msg| / 2, i, j);
    InterpolateAt(Samples(PolyPoints(msg, |msg| / 2, i)), j);
  }

  // ---------------------------------------------------------------- decoding

  datatype Decoder = Decoder(ptsNeeded: nat, points: seq<map<Index, Gf>>, isComplete: bool)
  {
    predicate Valid() {
      |points| == 16
    }
  }

  datatype Outcome = Pending | Message(bytes: seq<Byte>) | MissingPoints

  function NewDecoder(lenBytes: nat): (d: Decoder)
    ensures d.Valid()
  {
    Decoder(lenBytes / 2, seq(16, _ => map[]), false)
  }

  function AddPoint(pts: map<Index, Gf>, needed: nat, x: Index, value: Gf): map<Index, Gf> {
    if (x < needed || |pts| < needed) && x !in pts then pts[x := value] else pts
  }

  function ChunkValue(c: Chunk, i: nat): Gf
    requires |c.data| == 32 && i < 16
  {
    Join(c.data[2 * i], c.data[2 * i + 1])
  }

  function AddChunk(d: Decoder, c: Chunk): (r: Decoder)
    requires d.Valid() && |c.data| == 32
    ensures r.Valid()
  {
    d.(points := seq(16, i requires 0 <= i < 16 =>
      AddPoint(d.points[i], Count(d.ptsNeeded, i), c.index, ChunkValue(c, i))))
  }

  // -- the stored points in order of their places

  function SortedPoints(pts: map<Index, Gf>, needed: nat): (r: seq<Point>)
    requires needed <= |pts|
    ensures |r| == needed && DistinctX(r)
    ensures forall i | 0 <= i < |r| :: r[i].x in pts && r[i].y == pts[r[i].x]
  {
    var keys := SortedKeys(pts.Keys);
    seq(needed, i requires 0 <= i < needed => Point(keys[i], pts[keys[i]]))
  }

  function PointValue(pts: map<Index, Gf>, needed: nat, x: Index): Gf
    requires needed <= |pts|
  {
    if x in pts then pts[x] else Eval(Interpolate(SortedPoints(pts, needed)), x)
  }

  /** The scan of decodedMessage over the polynomials from i on. */
  function Scan(d: Decoder, i: nat): Outcome
    requires d.Valid() && i <= 16
    decreases 16 - i
  {
    if i == 16 then Message([])
    else if |d.points[i]| < Count(d.ptsNeeded, i) then Pending
    else if Count(d.ptsNeeded, i) == 0 then MissingPoints
    else Scan(d, i + 1)
  }

  lemma {:induction false} ScanMeaning(d: Decoder, i: nat)
    requires d.Valid() && i <= 16
    ensures var r := Scan(d, i);
      && (r.Pending? ==> exists k :: i <= k < 16 && |d.points[k]| < Count(d.ptsNeeded, k))
      && (r.Message? ==> forall k | i <= k < 16 :: 0 < Count(d.ptsNeeded, k) <= |d.points[k]|)
    decreases 16 - i
  {
    hide Count;
    if i < 16 {
      ScanMeaning(d, i + 1);
    }
  }

  ghost predicate Ready(d: Decoder) {
    && d.Valid()
    && forall k | 0 <= k < 16 :: Count(d.ptsNeeded, k) <= |d.points[k]|
  }

  function DecodedValues(d: Decoder, n: nat): (r: seq<Gf>)
    requires Ready(d)
    ensures |r| == n
    ensures forall k | 0 <= k < n ::
      r[k] == PointValue(d.points[k % 16], Count(d.ptsNeeded, k % 16), (k / 16) % 0x10000)
  {
    if n == 0 then []
    else
      var i := (n - 1) % 16;
      DecodedValues(d, n - 1) + [PointValue(d.points[i], Count(d.ptsNeeded, i), ((n - 1) / 16) % 0x10000)]
  }

  function Decode(d: Decoder): Outcome
    requires d.Valid()
  {
    if d.isComplete then Pending
    else
      var s := Scan(d, 0);
      ScanMeaning(d, 0);
      if s.Message? then Message(Pack(DecodedValues(d, d.ptsNeeded))) else s
  }

  // ---------------------------------------------------------------- the round trip

  /** How many distinct chunks a message of this length needs. */
  function ChunksNeeded(lenBytes: nat): nat {
    (lenBytes / 2 + 15) / 16
  }

  /** d is what a decoder can hold after receiving exactly the chunks of msg numbered in s. */
  ghost predicate Holds(d: Decoder, msg: seq<Byte>, s: set<Index>)
    requires Encodable(msg)
  {
    && d.Valid()
    && d.ptsNeeded == |msg| / 2
    && !d.isComplete
    && forall i | 0 <= i < 16 :: HoldsPoints(d.points[i], Curve(msg, i), Count(d.ptsNeeded, i), s)
  }

  ghost predicate HoldsPoints(pts: map<Index, Gf>, curve: seq<Gf>, needed: nat, s: set<Index>) {
    && pts.Keys <= s
    && (forall x | x in pts :: pts[x] == Eval(curve, x))
    && (forall x | x in s && x < needed :: x in pts)
    && (|pts| < needed ==> pts.Keys == s)
  }

  lemma HoldsNone(msg: seq<Byte>)
    requires Encodable(msg)
    ensures Holds(NewDecoder(|msg|), msg, {})
  {
    hide Curve, Eval;
  }

  lemma HoldsPointsInsert(pts: map<Index, Gf>, curve: seq<Gf>, needed: nat, s: set<Index>, x: Index)
    requires HoldsPoints(pts, curve, needed, s) && x !in pts
    requires x < needed || |pts| < needed
    ensures HoldsPoints(pts[x := Eval(curve, x)], curve, needed, s + {x})
  {
    hide Eval;
    var r := pts[x := Eval(curve, x)];
    assert r.Keys == pts.Keys + {x};
    assert |r| == |pts| + 1;
  }

  lemma HoldsPointsAdd(pts: map<Index, Gf>, curve: seq<Gf>, needed: nat, s: set<Index>, x: Index)
    requires HoldsPoints(pts, curve, needed, s)
    ensures HoldsPoints(AddPoint(pts, needed, x, Eval(curve, x)), curve, needed, s + {x})
  {
    hide Eval;
    if (x < needed || |pts| < needed) && x !in pts {
      hide HoldsPoints;
      HoldsPointsInsert(pts, curve, needed, s, x);
    } else if x in pts {
      assert s + {x} == s;
    }
  }

  lemma ChunkCarries(msg: seq<Byte>, index: Index, i: nat)
    requires Encodable(msg) && i < 16
    ensures ChunkValue(ChunkOf(msg, index), i) == Eval(Curve(msg, i), index)
  {
    hide Eval, Curve, Join, HighByte, LowByte;
    SplitJoin(Eval(Curve(msg, i), index));
  }

  /** Receiving any chunk of msg, new or repeated. */
  lemma HoldsAdd(d: Decoder, msg: seq<Byte>, s: set<Index>, index: Index)
    requires Encodable(msg) && Holds(d, msg, s)
    ensures Holds(AddChunk(d, ChunkOf(msg, index)), msg, s + {index})
  {
    hide Curve, Eval, ChunkOf, HoldsPoints, AddPoint, ChunkValue, Count;
    forall i: nat | i < 16
      ensures var needed := Count(d.ptsNeeded, i);
        HoldsPoints(AddPoint(d.points[i], needed, index, ChunkValue(ChunkOf(msg, index), i)), Curve(msg, i), needed, s + {index})
    {
      ChunkCarries(msg, index, i);
      HoldsPointsAdd(d.points[i], Curve(msg, i), Count(d.ptsNeeded, i), s, index);
    }
  }

  lemma SubsetSize(a: set<Index>, b: set<Index>)
    requires a <= b
    ensures |a| <= |b|
  {
    assert b == a + (b - a);
  }

  lemma CurveFromPoints(msg: seq<Byte>, pts: map<Index, Gf>, s: set<Index>, i: nat, x: Index)
    requires Encodable(msg) && i < 16
    requires 0 < Count(|msg| / 2, i) <= |pts|
    requires HoldsPoints(pts, Curve(msg, i), Count(|msg| / 2, i), s)
    ensures PointValue(pts, Count(|msg| / 2, i), x) == Eval(Curve(msg, i), x)
  {
    hide Eval, Curve, Interpolate, SortedPoints, Count;
    var n, curve := Count(|msg| / 2, i), Curve(msg, i);
    CurveAt(msg, i, 0);
    var points := SortedPoints(pts, n);
    var xs := seq(n, k requires 0 <= k < n => points[k].x);
    forall k | 0 <= k < n
      ensures Eval(Interpolate(points), xs[k]) == Eval(curve, xs[k])
    {
      InterpolateAt(points, k);
    }
    InterpolateAt(points, 0);
    AgreeEverywhere(Interpolate(points), curve, xs, x);
  }

  lemma ReadyIff(d: Decoder, msg: seq<Byte>, s: set<Index>)
    requires Encodable(msg) && 32 <= |msg| && Holds(d, msg, s)
    ensures Scan(d, 0).Message? <==> |s| >= ChunksNeeded(|msg|)
    ensures !Scan(d, 0).MissingPoints?
  {
    hide Curve, Eval, Scan;
    var r := Scan(d, 0);
    ScanNotMissing(d, 0);
    ScanMeaning(d, 0);
    if r.Message? {
      assert |d.points[0]| >= Count(d.ptsNeeded, 0);
      SubsetSize(d.points[0].Keys, s);
      assert Count(d.ptsNeeded, 0) == ChunksNeeded(|msg|);
    } else {
      var k :| 0 <= k < 16 && |d.points[k]| < Count(d.ptsNeeded, k);
      assert HoldsPoints(d.points[k], Curve(msg, k), Count(d.ptsNeeded, k), s);
      assert |d.points[k]| == |s|;
    }
  }

  lemma {:induction false} ScanNotMissing(d: Decoder, i: nat)
    requires d.Valid() && i <= 16 && 16 <= d.ptsNeeded
    ensures !Scan(d, i).MissingPoints?
    decreases 16 - i
  {
    if i < 16 {
      ScanNotMissing(d, i + 1);
    }
  }

  lemma PackValues(msg: seq<Byte>, values: seq<Gf>)
    requires |msg| == 2 * |values|
    requires forall k | 0 <= k < |values| :: values[k] == Value(msg, k)
    ensures Pack(values) == msg
  {
    hide Pack, Join, HighByte, LowByte;
    var r := Pack(values);
    forall b | 0 <= b < |msg|
      ensures r[b] == msg[b]
    {
      var k := b / 2;
      assert values[k] == Value(msg, k);
      JoinSplit(msg[2 * k], msg[2 * k + 1]);
      assert b == 2 * k || b == 2 * k + 1;
    }
  }

  /** Nothing until enough distinct chunks have arrived, and exactly the message from then on. */
  lemma DecodeExact(d: Decoder, msg: seq<Byte>, s: set<Index>)
    requires Encodable(msg) && 32 <= |msg| && Holds(d, msg, s)
    ensures Decode(d) == if |s| < ChunksNeeded(|msg|) then Pending else Message(msg)
  {
    hide Curve, Eval, PointValue, Pack, Scan, HoldsPoints;
    ReadyIff(d, msg, s);
    ScanMeaning(d, 0);
    if |s| >= ChunksNeeded(|msg|) {
      var n := d.ptsNeeded;
      assert Ready(d);
      var values := DecodedValues(d, n);
      forall k: nat | k < n
        ensures values[k] == Value(msg, k)
      {
        var i, j := k % 16, k / 16;
        CountBound(n, i, j);
        CurveAt(msg, i, j);
        CurveFromPoints(msg, d.points[i], s, i, j);
      }
      PackValues(msg, values);
    }
  }

  /** Any chunks of msg, in any order and with any repetitions. */
  function AddAll(d: Decoder, msg: seq<Byte>, order: seq<Index>): (r: Decoder)
    requires Encodable(msg) && d.Valid()
    ensures r.Valid()
    decreases |order|
  {
    if order == [] then d
    else AddChunk(AddAll(d, msg, order[..|order| - 1]), ChunkOf(msg, order[|order| - 1]))
  }

  function Elements(order: seq<Index>): set<Index> {
    set k | k in order
  }

  lemma {:induction false} HoldsAll(msg: seq<Byte>, order: seq<Index>)
    requires Encodable(msg)
    ensures Holds(AddAll(NewDecoder(|msg|), msg, order), msg, Elements(order))
    decreases |order|
  {
    hide Holds, ChunkOf, AddChunk;
    if order == [] {
      HoldsNone(msg);
      assert Elements(order) == {};
    } else {
      var rest, last := order[..|order| - 1], order[|order| - 1];
      HoldsAll(msg, rest);
      HoldsAdd(AddAll(NewDecoder(|msg|), msg, rest), msg, Elements(rest), last);
      assert order == rest + [last];
      assert Elements(order) == Elements(rest) + {last};
    }
  }

  lemma RoundTrip(msg: seq<Byte>, order: seq<Index>)
    requires Encodable(msg) && 32 <= |msg|
    ensures Decode(AddAll(NewDecoder(|msg|), msg, order)) ==
            if |Elements(order)| < ChunksNeeded(|msg|) then Pending else Message(msg)
  {
    hide Holds, Decode;
    HoldsAll(msg, order);
    DecodeExact(AddAll(NewDecoder(|msg|), msg, order), msg, Elements(order));
  }

  /** The lower bound of 32 bytes is exact: a shorter message never decodes, and any chunk at
      all turns the outcome from nothing yet into an error. */
  lemma ShortMessage(msg: seq<Byte>, order: seq<Index>)
    requires Encodable(msg) && |msg| < 32
    ensures Decode(AddAll(NewDecoder(|msg|), msg, order)) ==
            if order == [] && msg != [] then Pending else MissingPoints
  {
    HoldsAll(msg, order);
    var d := AddAll(NewDecoder(|msg|), msg, order);
    hide AddAll, Curve, Eval;
    if order != [] {
      assert order[0] in Elements(order);
      SubsetSize({order[0]}, Elements(order));
    } else {
      assert Elements(order) == {};
    }
    ShortScan(d, msg, Elements(order), 0);
  }

  lemma {:induction false} ShortScan(d: Decoder, msg: seq<Byte>, s: set<Index>, i: nat)
    requires Encodable(msg) && |msg| < 32 && Holds(d, msg, s)
    requires i <= |msg| / 2
    ensures Scan(d, i) == if s == {} && i < |msg| / 2 then Pending else MissingPoints
    decreases 16 - i
  {
    hide Curve, Eval;
    if i < |msg| / 2 {
      assert HoldsPoints(d.points[i], Curve(msg, i), 1, s);
      SubsetSize(d.points[i].Keys, s);
      ShortScan(d, msg, s, i + 1);
    }
  }
}
