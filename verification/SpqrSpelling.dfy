/** Which bytes restore a handshake state (spqr/v1_state_serialize.go): exactly those that spell it. */
module SpqrSpelling {
  import opened Words
  import opened Results
  import opened Gf16
  import opened Erasure
  import opened Codec
  import opened Spelling
  import opened SpqrCrypto
  import opened SpqrStates
  import opened SpqrCodec

  type Points = seq<(Index, Gf)>

  // ---------------------------------------------------------------- decoders

  function PutLists(lists: seq<Points>): Bytes {
    if lists == [] then [] else BigEndian(|lists[0]|, 4) + (PutList(lists[0], PutPoint) + PutLists(lists[1..]))
  }

  ghost predicate ListsFit(points: seq<map<Index, Gf>>, lists: seq<Points>) {
    |lists| == |points| && forall i | 0 <= i < |lists| :: |lists[i]| < WORD && points[i] == MapOf(lists[i], map[])
  }

  lemma PointWritten()
    ensures WrittenBack(PutPoint, GetPoint)
  {
    hide BigEndian, GetNumber, ReadsBack;
    forall data: Bytes | GetPoint(data).Ok?
      ensures var r := GetPoint(data).value;
        data == PutPoint(r.value.0, r.value.1) + r.rest && ReadsBack(PutPoint, GetPoint, r.value.0, r.value.1)
    {
      NumberRead(data, 2);
      NumberRead(GetNumber(data, 2).value.rest, 2);
      GetsPoint(GetPoint(data).value.value.0, GetPoint(data).value.value.1);
    }
  }

  lemma {:induction false} ListsRead(data: Bytes, n: nat) returns (lists: seq<Points>)
    requires GetMaps(data, n).Ok?
    ensures var r := GetMaps(data, n).value; data == PutLists(lists) + r.rest && ListsFit(r.value, lists)
    decreases n
  {
    hide BigEndian, GetNumber, GetEntries, PutPoint, GetPoint, AllReadBack, PutList, MapOf;
    if n == 0 {
      lists := [];
      assert PutLists(lists) + data == data;
    } else {
      var k := GetNumber(data, 4).value;
      WordRead(data);
      PointWritten();
      var list := EntriesRead(k.rest, k.value, map[], PutPoint, GetPoint);
      var pts := GetPoints(data).value;
      var more := ListsRead(pts.rest, n - 1);
      lists := [list] + more;
      assert lists[1..] == more;
    }
  }

  lemma {:induction false} ListsRestore(points: seq<map<Index, Gf>>, lists: seq<Points>, rest: Bytes)
    requires ListsFit(points, lists)
    ensures GetMaps(PutLists(lists) + rest, |points|) == Ok(Read(points, rest))
    decreases |points|
  {
    hide BigEndian, GetNumber, GetEntries, PutPoint, GetPoint, PutList, MapOf, ReadsBack;
    if points == [] {
      assert PutLists(lists) + rest == rest;
    } else {
      var tail := PutLists(lists[1..]) + rest;
      var mid := PutList(lists[0], PutPoint) + tail;
      assert PutLists(lists) + rest == BigEndian(|lists[0]|, 4) + mid;
      GetsWord(|lists[0]|, mid);
      forall e | e in lists[0]
        ensures ReadsBack(PutPoint, GetPoint, e.0, e.1)
      {
        GetsPoint(e.0, e.1);
      }
      ListRead(lists[0], map[], PutPoint, GetPoint, tail);
      ListsRestore(points[1..], lists[1..], rest);
      assert [points[0]] + points[1..] == points;
    }
  }

  function SpelledDecoder(d: Decoder, flag: Byte, lists: seq<Points>): Bytes {
    BigEndian(d.ptsNeeded, 4) + ([flag] + PutLists(lists))
  }

  ghost predicate DecoderFits(d: Decoder, size: nat, flag: Byte, lists: seq<Points>) {
    && d.Valid() && d.ptsNeeded * 2 == size && d.ptsNeeded < WORD
    && (d.isComplete <==> flag == 1) && ListsFit(d.points, lists)
  }

  lemma DecoderRead(data: Bytes, size: nat) returns (flag: Byte, lists: seq<Points>)
    requires GetDecoder(data, size).Ok?
    ensures data == SpelledDecoder(GetDecoder(data, size).value, flag, lists)
    ensures DecoderFits(GetDecoder(data, size).value, size, flag, lists)
  {
    hide BigEndian, GetNumber, GetMaps, PutLists, ListsFit;
    var n := GetNumber(data, 4).value;
    WordRead(data);
    flag := n.rest[0];
    lists := ListsRead(n.rest[1..], 16);
    assert PutLists(lists) + [] == PutLists(lists);
    assert n.rest == [flag] + n.rest[1..];
  }

  lemma DecoderRestores(d: Decoder, size: nat, flag: Byte, lists: seq<Points>)
    requires DecoderFits(d, size, flag, lists)
    ensures GetDecoder(SpelledDecoder(d, flag, lists), size) == Ok(d)
  {
    hide BigEndian, GetNumber, GetMaps, PutLists, ListsFit;
    GetsWord(d.ptsNeeded, [flag] + PutLists(lists));
    ListsRestore(d.points, lists, []);
    assert PutLists(lists) + [] == PutLists(lists);
    assert ([flag] + PutLists(lists))[1..] == PutLists(lists);
  }

  // ---------------------------------------------------------------- the handshake

  /** What bytes may say beside the state: bytes after an encoder's message, the byte that is 1 for a
      finished decoder, and its points in the order and as often as they come. */
  datatype Extras = Extras(after: Bytes, flag: Byte, lists: seq<Points>)

  function SpelledEncoderPart(enc: Option<Encoder>, x: Extras): Bytes {
    if enc.Some? then PutBytes(PutEncoder(enc.value) + x.after) else []
  }

  function SpelledDecoderPart(dec: Option<Decoder>, x: Extras): Bytes {
    if dec.Some? then PutBytes(SpelledDecoder(dec.value, x.flag, x.lists)) else []
  }

  function Spelled(s: V1, x: Extras): Bytes {
    [Tag(s)] + (PutBytes(PutUnchunked(s)) + (SpelledEncoderPart(EncoderOf(s), x) + SpelledDecoderPart(DecoderOf(s), x)))
  }

  ghost predicate EncoderPartFits(enc: Option<Encoder>, size: Option<nat>, x: Extras) {
    match enc
    case None => size.None?
    case Some(e) => Encodable(e.msg) && Some(|e.msg|) == size && e.idx < WORD && |PutEncoder(e) + x.after| < WORD
  }

  ghost predicate DecoderPartFits(dec: Option<Decoder>, size: Option<nat>, x: Extras) {
    match dec
    case None => size.None?
    case Some(d) => size.Some? && DecoderFits(d, size.value, x.flag, x.lists) && |SpelledDecoder(d, x.flag, x.lists)| < WORD
  }

  ghost predicate Fits(s: V1, x: Extras) {
    && s.epoch < 0x1_0000_0000_0000_0000 && |s.auth.rootKey| == 32 && |s.auth.macKey| == 32 && FieldsSized(s)
    && EncoderPartFits(EncoderOf(s), EncoderSize(Tag(s)), x)
    && DecoderPartFits(DecoderOf(s), DecoderSize(Tag(s)), x)
  }

  lemma EncoderPartRead(data: Bytes, size: Option<nat>) returns (after: Bytes)
    requires GetOptionalEncoder(data, size).Ok?
    ensures var r := GetOptionalEncoder(data, size).value;
      forall x: Extras | x.after == after :: data == SpelledEncoderPart(r.value, x) + r.rest && EncoderPartFits(r.value, size, x)
  {
    hide BigEndian, GetNumber, GetBytes, PutBytes, Encodable;
    after := [];
    if size.Some? {
      BytesRead(data);
      var bytes := GetBytes(data).value;
      var idx := GetNumber(bytes.value, 4).value;
      WordRead(bytes.value);
      BytesRead(idx.rest);
      after := GetBytes(idx.rest).value.rest;
      var e := GetEncoder(bytes.value, size.value).value;
      assert bytes.value == PutEncoder(e) + after;
    } else {
      assert [] + data == data;
    }
  }

  lemma DecoderPartRead(data: Bytes, size: Option<nat>) returns (flag: Byte, lists: seq<Points>)
    requires GetOptionalDecoder(data, size).Ok?
    ensures var r := GetOptionalDecoder(data, size).value;
      forall x: Extras | x.flag == flag && x.lists == lists ::
        data == SpelledDecoderPart(r.value, x) + r.rest && DecoderPartFits(r.value, size, x)
  {
    hide GetBytes, PutBytes, GetDecoder, SpelledDecoder, DecoderFits;
    flag, lists := 0, [];
    if size.Some? {
      BytesRead(data);
      flag, lists := DecoderRead(GetBytes(data).value.value, size.value);
    } else {
      assert [] + data == data;
    }
  }

  lemma UnchunkedRead(data: Bytes, sizes: seq<nat>)
    requires GetUnchunked(data, sizes).Ok?
    ensures var u := GetUnchunked(data, sizes).value;
      && u.epoch < 0x1_0000_0000_0000_0000 && |u.auth.rootKey| == 32 && |u.auth.macKey| == 32
      && |u.fields| == |sizes| && (forall i | 0 <= i < |sizes| :: |u.fields[i]| == sizes[i])
      && data == BigEndian(u.epoch, 8) + PutAll([u.auth.rootKey, u.auth.macKey] + u.fields)
  {
    hide BigEndian, GetNumber, PutAll, GetAll, Pow256;
    NumberRead(data, 8);
    Widths();
    var epoch := GetNumber(data, 8).value;
    AllRead(epoch.rest, [32, 32] + sizes);
    var all := GetAll(epoch.rest, [32, 32] + sizes).value;
    assert all.value == [all.value[0], all.value[1]] + all.value[2..];
    assert PutAll(all.value) + [] == PutAll(all.value);
    forall i | 0 <= i < |sizes|
      ensures |all.value[2..][i]| == sizes[i]
    {
      assert ([32, 32] + sizes)[i + 2] == sizes[i];
    }
  }

  /** The parts that a state is built from are its parts. */
  lemma BuildParts(tag: Byte, epoch: nat, auth: Auth, f: seq<Bytes>, enc: Option<Encoder>, dec: Option<Decoder>)
    requires |f| == |FieldSizes(tag)| && (forall i | 0 <= i < |f| :: |f[i]| == FieldSizes(tag)[i])
    requires (enc.Some? <==> EncoderSize(tag).Some?) && (dec.Some? <==> DecoderSize(tag).Some?)
    requires Build(tag, epoch, auth, f, enc, dec).Ok?
    ensures var s := Build(tag, epoch, auth, f, enc, dec).value;
      && Tag(s) == tag && s.epoch == epoch && s.auth == auth && Fields(s) == f && FieldsSized(s)
      && EncoderOf(s) == enc && DecoderOf(s) == dec
  {
  }

  lemma SpellingRead(data: Bytes) returns (x: Extras)
    requires Restore(data).Ok?
    ensures data == Spelled(Restore(data).value, x) && Fits(Restore(data).value, x)
  {
    hide GetBytes, PutBytes, GetOptionalEncoder, GetOptionalDecoder, GetUnchunked, BigEndian, PutAll, Build;
    hide SpelledEncoderPart, SpelledDecoderPart, EncoderPartFits, DecoderPartFits, FieldSizes, EncoderSize, DecoderSize;
    hide Tag, Fields, EncoderOf, DecoderOf, FieldsSized;
    var tag := data[0];
    BytesRead(data[1..]);
    var uc := GetBytes(data[1..]).value;
    var after := EncoderPartRead(uc.rest, EncoderSize(tag));
    var enc := GetOptionalEncoder(uc.rest, EncoderSize(tag)).value;
    var flag, lists := DecoderPartRead(enc.rest, DecoderSize(tag));
    var dec := GetOptionalDecoder(enc.rest, DecoderSize(tag)).value;
    UnchunkedRead(uc.value, FieldSizes(tag));
    var u := GetUnchunked(uc.value, FieldSizes(tag)).value;
    BuildParts(tag, u.epoch, u.auth, u.fields, enc.value, dec.value);
    x := Extras(after, flag, lists);
    assert SpelledDecoderPart(dec.value, x) + [] == SpelledDecoderPart(dec.value, x);
    assert data == [tag] + data[1..];
  }

  lemma EncoderPartRestores(enc: Option<Encoder>, size: Option<nat>, x: Extras, rest: Bytes)
    requires EncoderPartFits(enc, size, x)
    ensures GetOptionalEncoder(SpelledEncoderPart(enc, x) + rest, size) == Ok(Read(enc, rest))
  {
    hide BigEndian, GetNumber, GetBytes, PutBytes, Encodable;
    if enc.Some? {
      var e := enc.value;
      var bytes := PutEncoder(e) + x.after;
      GetsBytes(bytes, rest);
      assert bytes == BigEndian(e.idx, 4) + (PutBytes(e.msg) + x.after);
      GetsWord(e.idx, PutBytes(e.msg) + x.after);
      GetsBytes(e.msg, x.after);
    } else {
      assert [] + rest == rest;
    }
  }

  lemma DecoderPartRestores(dec: Option<Decoder>, size: Option<nat>, x: Extras)
    requires DecoderPartFits(dec, size, x)
    ensures GetOptionalDecoder(SpelledDecoderPart(dec, x), size) == Ok(Read(dec, []))
  {
    hide GetBytes, PutBytes, GetDecoder, SpelledDecoder, DecoderFits;
    if dec.Some? {
      var bytes := SpelledDecoder(dec.value, x.flag, x.lists);
      GetsBytes(bytes, []);
      assert PutBytes(bytes) + [] == PutBytes(bytes);
      DecoderRestores(dec.value, size.value, x.flag, x.lists);
    }
  }

  lemma FitsStorable(s: V1, x: Extras)
    requires Fits(s, x)
    ensures Storable(s)
  {
    hide Encodable, ListsFit;
  }

  lemma SpellingRestores(s: V1, x: Extras)
    requires Fits(s, x)
    ensures Restore(Spelled(s, x)) == Ok(s)
  {
    hide GetBytes, PutBytes, GetOptionalEncoder, GetOptionalDecoder, GetUnchunked, PutUnchunked, Build, Storable;
    hide SpelledEncoderPart, SpelledDecoderPart, EncoderPartFits, DecoderPartFits, FieldSizes, EncoderSize, DecoderSize;
    hide Tag, Fields, EncoderOf, DecoderOf, FieldsSized;
    FitsStorable(s, x);
    var e, d := SpelledEncoderPart(EncoderOf(s), x), SpelledDecoderPart(DecoderOf(s), x);
    GetsUnchunked(s);
    GetsBytes(PutUnchunked(s), e + d);
    EncoderPartRestores(EncoderOf(s), EncoderSize(Tag(s)), x, d);
    DecoderPartRestores(DecoderOf(s), DecoderSize(Tag(s)), x);
    assert Spelled(s, x)[1..] == PutBytes(PutUnchunked(s)) + (e + d);
    BuildsBack(s);
  }

  /** Bytes restore a handshake state exactly when they spell it: its own tag, every part at its size and
      in its place, and nothing after them. */
  lemma RestoresExactly(data: Bytes, s: V1)
    ensures Restore(data) == Ok(s) <==> exists x :: Fits(s, x) && data == Spelled(s, x)
  {
    hide Restore, Fits, Spelled;
    if Restore(data) == Ok(s) {
      var x := SpellingRead(data);
    } else if x :| Fits(s, x) && data == Spelled(s, x) {
      SpellingRestores(s, x);
    }
  }
}
