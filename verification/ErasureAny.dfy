/** The erasure code against chunks from anyone: what a decoder keeps of them, and what it makes of what it
    kept (spqr/encoding_polynomial.go). */
module ErasureAny {
  import opened Words
  import opened Results
  import opened Sorting
  import opened Gf16
  import opened Poly
  import opened Erasure

  // ---------------------------------------------------------------- the first chunks are the message

  /** Chunk number x of a message that has a point there for every polynomial is the x-th 32 bytes of it. */
  lemma Systematic(msg: Bytes, x: Index)
    requires Encodable(msg) && 32 * x + 32 <= |msg|
    ensures ChunkOf(msg, x).data == msg[32 * x..32 * x + 32]
  {
    hide Curve, Eval, Join, HighByte, LowByte, Pack;
    var values := ChunkValues(msg, x, 16);
    var part := msg[32 * x..32 * x + 32];
    forall i: nat | i < 16
      ensures values[i] == Value(part, i)
    {
      CountBound(|msg| / 2, i, x);
      CurveAt(msg, i, x);
    }
    PackValues(part, values);
  }

  // ---------------------------------------------------------------- what a decoder keeps

  ghost predicate Chunks(chunks: seq<Chunk>) {
    forall k | 0 <= k < |chunks| :: |chunks[k].data| == 32
  }

  /** A decoder given chunks one after the other, whoever made them. */
  function Gather(d: Decoder, chunks: seq<Chunk>): (r: Decoder)
    requires d.Valid() && Chunks(chunks)
    ensures r.Valid()
    decreases |chunks|
  {
    if chunks == [] then d else AddChunk(Gather(d, chunks[..|chunks| - 1]), chunks[|chunks| - 1])
  }

  /** The first chunk of a number. */
  function FirstOf(chunks: seq<Chunk>, x: Index): Option<Chunk> {
    if chunks == [] then None
    else if chunks[0].index == x then Some(chunks[0])
    else FirstOf(chunks[1..], x)
  }

  lemma {:induction false} FirstSnoc(chunks: seq<Chunk>, last: Chunk, x: Index)
    ensures FirstOf(chunks + [last], x) ==
      if FirstOf(chunks, x).Some? then FirstOf(chunks, x) else if last.index == x then Some(last) else None
  {
    if chunks != [] {
      assert (chunks + [last])[1..] == chunks[1..] + [last];
      FirstSnoc(chunks[1..], last, x);
    }
  }

  /** The places past the ones a polynomial needs. */
  function Beyond(pts: map<Index, Gf>, needed: nat): set<Index> {
    set x | x in pts && x >= needed
  }

  /** For each number the first chunk counts. Of the places a polynomial needs every one that came is kept,
      and of the others no more than it needs. */
  ghost predicate KeptOf(pts: map<Index, Gf>, needed: nat, chunks: seq<Chunk>, i: nat)
    requires Chunks(chunks) && i < 16
  {
    && (forall x | x in pts :: FirstOf(chunks, x).Some? && |FirstOf(chunks, x).value.data| == 32 && pts[x] == ChunkValue(FirstOf(chunks, x).value, i))
    && (forall x: Index | FirstOf(chunks, x).Some? && x < needed :: x in pts)
    && |Beyond(pts, needed)| <= needed
    && (|pts| < needed ==> forall x: Index | FirstOf(chunks, x).Some? :: x in pts)
  }

  lemma KeptAdd(pts: map<Index, Gf>, needed: nat, chunks: seq<Chunk>, last: Chunk, i: nat)
    requires Chunks(chunks + [last]) && |last.data| == 32 && i < 16 && Chunks(chunks) && KeptOf(pts, needed, chunks, i)
    ensures KeptOf(AddPoint(pts, needed, last.index, ChunkValue(last, i)), needed, chunks + [last], i)
  {
    hide ChunkValue, FirstOf, Chunks;
    var r := AddPoint(pts, needed, last.index, ChunkValue(last, i));
    forall x: Index
      ensures FirstOf(chunks + [last], x) == if FirstOf(chunks, x).Some? then FirstOf(chunks, x) else if last.index == x then Some(last) else None
    {
      FirstSnoc(chunks, last, x);
    }
    BeyondAdd(pts, needed, last.index, ChunkValue(last, i));
    assert r != pts ==> r.Keys == pts.Keys + {last.index} && |r| == |pts| + 1;
  }

  lemma BeyondAdd(pts: map<Index, Gf>, needed: nat, x: Index, value: Gf)
    requires |Beyond(pts, needed)| <= needed
    ensures |Beyond(AddPoint(pts, needed, x, value), needed)| <= needed
  {
    var r := AddPoint(pts, needed, x, value);
    if r != pts {
      if x < needed {
        assert Beyond(r, needed) == Beyond(pts, needed);
      } else {
        assert Beyond(r, needed) == Beyond(pts, needed) + {x};
        SubsetSize(Beyond(pts, needed), pts.Keys);
      }
    }
  }

  /** What a new decoder holds after any chunks from anyone. */
  lemma {:induction false} KeepsFirst(lenBytes: nat, chunks: seq<Chunk>, i: nat)
    requires Chunks(chunks) && i < 16
    ensures var d := Gather(NewDecoder(lenBytes), chunks);
      d.ptsNeeded == lenBytes / 2 && !d.isComplete && KeptOf(d.points[i], Count(lenBytes / 2, i), chunks, i)
    decreases |chunks|
  {
    hide ChunkValue, Count, KeptOf, AddPoint;
    if chunks == [] {
      assert KeptOf(map[], Count(lenBytes / 2, i), [], i) by { KeptNone(Count(lenBytes / 2, i), i); }
    } else {
      var rest, last := chunks[..|chunks| - 1], chunks[|chunks| - 1];
      assert chunks == rest + [last];
      KeepsFirst(lenBytes, rest, i);
      KeptAdd(Gather(NewDecoder(lenBytes), rest).points[i], Count(lenBytes / 2, i), rest, last, i);
    }
  }

  lemma KeptNone(needed: nat, i: nat)
    requires i < 16
    ensures KeptOf(map[], needed, [], i)
  {
    assert Beyond(map[], needed) == {};
  }

  /** So a decoder never stores more than twice the points it needs. */
  lemma StoresFew(lenBytes: nat, chunks: seq<Chunk>, i: nat)
    requires Chunks(chunks) && i < 16
    ensures |Gather(NewDecoder(lenBytes), chunks).points[i]| <= 2 * Count(lenBytes / 2, i)
  {
    hide Gather, Count;
    KeepsFirst(lenBytes, chunks, i);
    var pts, needed := Gather(NewDecoder(lenBytes), chunks).points[i], Count(lenBytes / 2, i);
    var near := set x | x in pts && x < needed;
    assert pts.Keys == near + Beyond(pts, needed);
    NearSize(near, needed);
  }

  lemma {:induction false} NearSize(s: set<Index>, n: nat)
    requires forall x | x in s :: x < n
    ensures |s| <= n
  {
    if n == 0 {
      assert s == {};
    } else if n - 1 < 0x10000 {
      var last: Index := n - 1;
      NearSize(s - {last}, n - 1);
      assert last in s ==> |s| == |s - {last}| + 1;
    } else {
      NearSize(s, n - 1);
    }
  }

  // ---------------------------------------------------------------- what it makes of it

  /** A decoded message has the kept points at their places. */
  lemma DecodesKept(d: Decoder, k: nat)
    requires d.Valid() && Decode(d).Message? && k < d.ptsNeeded && d.ptsNeeded <= MAX_MESSAGE / 2 && k / 16 in d.points[k % 16]
    ensures |Decode(d).bytes| == 2 * d.ptsNeeded && Value(Decode(d).bytes, k) == d.points[k % 16][k / 16]
  {
    hide Pack, Join, HighByte, LowByte, Scan, Interpolate, Eval;
    ScanMeaning(d, 0);
    var values := DecodedValues(d, d.ptsNeeded);
    SplitJoin(values[k]);
  }

  /** A place that was not kept gets the value there of the one polynomial, no longer than needed, through
      the kept points with the smallest numbers. */
  lemma DecodesMissing(d: Decoder, k: nat) returns (p: seq<Gf>, xs: seq<Index>)
    requires d.Valid() && Decode(d).Message? && k < d.ptsNeeded && d.ptsNeeded <= MAX_MESSAGE / 2 && k / 16 !in d.points[k % 16]
    ensures |Decode(d).bytes| == 2 * d.ptsNeeded && Value(Decode(d).bytes, k) == Eval(p, k / 16)
    ensures |p| == |xs| == Count(d.ptsNeeded, k % 16) && (forall i, j | 0 <= i < j < |xs| :: xs[i] < xs[j])
    ensures forall x | x in xs :: x in d.points[k % 16] && Eval(p, x) == d.points[k % 16][x]
    ensures forall x, y | x in xs && y in d.points[k % 16] && y !in xs :: x < y
  {
    hide Pack, Join, HighByte, LowByte, Scan, Interpolate, Eval;
    ScanMeaning(d, 0);
    var values := DecodedValues(d, d.ptsNeeded);
    SplitJoin(values[k]);
    var pts, needed := d.points[k % 16], Count(d.ptsNeeded, k % 16);
    p := Interpolate(SortedPoints(pts, needed));
    xs := ThroughSmallest(pts, needed);
  }

  lemma ThroughSmallest(pts: map<Index, Gf>, needed: nat) returns (xs: seq<Index>)
    requires 0 < needed <= |pts|
    ensures |xs| == needed == |Interpolate(SortedPoints(pts, needed))| && (forall i, j | 0 <= i < j < |xs| :: xs[i] < xs[j])
    ensures forall x | x in xs :: x in pts && Eval(Interpolate(SortedPoints(pts, needed)), x) == pts[x]
    ensures forall x, y | x in xs && y in pts && y !in xs :: x < y
  {
    hide Interpolate, Eval, SortedKeys;
    var keys := SortedKeys(pts.Keys);
    SortedKeysAll(pts.Keys);
    xs := keys[..needed];
    var points := SortedPoints(pts, needed);
    forall i: nat | i < needed
      ensures Eval(Interpolate(points), xs[i]) == pts[xs[i]]
    {
      InterpolateAt(points, i);
    }
    InterpolateAt(points, 0);
    forall x, y | x in xs && y in pts && y !in xs
      ensures x < y
    {
      var i :| 0 <= i < needed && keys[i] == x;
      var j :| 0 <= j < |keys| && keys[j] == y;
      assert j >= needed;
    }
  }

  function Numbers(chunks: seq<Chunk>): set<Index> {
    set c | c in chunks :: c.index
  }

  lemma {:induction false} NumbersFirst(chunks: seq<Chunk>, x: Index)
    ensures x in Numbers(chunks) <==> FirstOf(chunks, x).Some?
  {
    if chunks != [] {
      NumbersFirst(chunks[1..], x);
      assert chunks == [chunks[0]] + chunks[1..];
    }
  }

  /** Whoever made the chunks, a message comes out exactly when enough different numbers have come. */
  lemma DecodesOnceEnough(lenBytes: nat, chunks: seq<Chunk>)
    requires Chunks(chunks) && 32 <= lenBytes
    ensures Decode(Gather(NewDecoder(lenBytes), chunks)).Message? <==> |Numbers(chunks)| >= ChunksNeeded(lenBytes)
    ensures Decode(Gather(NewDecoder(lenBytes), chunks)).Message? || Decode(Gather(NewDecoder(lenBytes), chunks)).Pending?
  {
    hide Gather, Scan, KeptOf, Pack, FirstOf, Numbers;
    var d := Gather(NewDecoder(lenBytes), chunks);
    KeepsFirst(lenBytes, chunks, 0);
    ScanNotMissing(d, 0);
    ScanMeaning(d, 0);
    assert Count(d.ptsNeeded, 0) == ChunksNeeded(lenBytes);
    if Scan(d, 0).Message? {
      KeptNumbers(d.points[0], Count(d.ptsNeeded, 0), chunks, 0);
      SubsetSize(d.points[0].Keys, Numbers(chunks));
    } else {
      var i :| 0 <= i < 16 && |d.points[i]| < Count(d.ptsNeeded, i);
      KeepsFirst(lenBytes, chunks, i);
      KeptNumbers(d.points[i], Count(d.ptsNeeded, i), chunks, i);
    }
  }

  lemma KeptNumbers(pts: map<Index, Gf>, needed: nat, chunks: seq<Chunk>, i: nat)
    requires Chunks(chunks) && i < 16 && KeptOf(pts, needed, chunks, i)
    ensures pts.Keys <= Numbers(chunks) && (|pts| < needed ==> pts.Keys == Numbers(chunks))
  {
    hide FirstOf, Numbers, ChunkValue;
    forall x: Index
      ensures x in Numbers(chunks) <==> FirstOf(chunks, x).Some?
    {
      NumbersFirst(chunks, x);
    }
  }

  /** And then each place whose chunk has come reads as the first chunk of that number says. */
  lemma DecodesFirst(lenBytes: nat, chunks: seq<Chunk>, k: nat)
    requires Chunks(chunks) && 32 <= lenBytes <= MAX_MESSAGE && k < lenBytes / 2 && Decode(Gather(NewDecoder(lenBytes), chunks)).Message?
    requires FirstOf(chunks, k / 16).Some?
    ensures var msg := Decode(Gather(NewDecoder(lenBytes), chunks)).bytes;
      && |msg| == 2 * (lenBytes / 2) && |FirstOf(chunks, k / 16).value.data| == 32
      && Value(msg, k) == ChunkValue(FirstOf(chunks, k / 16).value, k % 16)
  {
    hide Gather, Decode, FirstOf, ChunkValue;
    var d := Gather(NewDecoder(lenBytes), chunks);
    KeepsFirst(lenBytes, chunks, k % 16);
    CountBound(lenBytes / 2, k % 16, k / 16);
    DecodesKept(d, k);
  }
}
