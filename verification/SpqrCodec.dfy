/** Saving and restoring the handshake state (spqr/v1_state_serialize.go and the encoder and decoder
    codecs of spqr/encoding_polynomial.go). Cloning a state is saving and restoring it. */
module SpqrCodec {
  import opened Words
  import opened Results
  import opened Gf16
  import opened Sorting
  import opened Erasure
  import opened Codec
  import opened SpqrCrypto
  import opened SpqrStates

  // ---------------------------------------------------------------- encoders

  function PutEncoder(e: Encoder): Bytes {
    BigEndian(e.idx, 4) + PutBytes(e.msg)
  }

  /** Bytes after the message are ignored. */
  function GetEncoder(data: Bytes, size: nat): Restored<Encoder> {
    var idx :- GetNumber(data, 4);
    var msg :- GetBytes(idx.rest);
    if Encodable(msg.value) && |msg.value| == size then Ok(Encoder(msg.value, idx.value)) else Err(Malformed)
  }

  lemma GetsEncoder(e: Encoder)
    requires Encodable(e.msg) && |e.msg| < 0x1_0000_0000 && e.idx < 0x1_0000_0000
    ensures GetEncoder(PutEncoder(e), |e.msg|) == Ok(e)
  {
    hide BigEndian, GetNumber, PutBytes, GetBytes;
    GetsWord(e.idx, PutBytes(e.msg));
    GetsBytes(e.msg, []);
    assert PutBytes(e.msg) + [] == PutBytes(e.msg);
  }

  // ---------------------------------------------------------------- decoders

  function PutPoint(x: Index, y: Gf): (b: Bytes)
    ensures |b| == 4
  {
    BigEndian(x, 2) + BigEndian(y, 2)
  }

  function GetPoint(data: Bytes): Reading<(Index, Gf)> {
    Widths();
    var x :- GetNumber(data, 2);
    var y :- GetNumber(x.rest, 2);
    Ok(Read((x.value, y.value), y.rest))
  }

  lemma GetsPoint(x: Index, y: Gf)
    ensures ReadsBack(PutPoint, GetPoint, x, y)
  {
    hide BigEndian, GetNumber;
    forall rest: Bytes
      ensures GetPoint(PutPoint(x, y) + rest) == Ok(Read((x, y), rest))
    {
      assert PutPoint(x, y) + rest == BigEndian(x, 2) + (BigEndian(y, 2) + rest);
      GetsWord(x, BigEndian(y, 2) + rest);
      GetsWord(y, rest);
    }
  }

  lemma {:induction false} Climbs(r: seq<nat>, i: nat)
    requires forall i, j | 0 <= i < j < |r| :: r[i] < r[j]
    requires i < |r|
    ensures r[i] >= i
  {
    if i > 0 {
      Climbs(r, i - 1);
    }
  }

  lemma FewKeys(s: set<Index>)
    ensures |SortedKeys(s)| <= 0x10000
  {
    var r := SortedKeys(s);
    if |r| > 0 {
      Climbs(r, |r| - 1);
    }
  }

  function PutPoints(pts: map<Index, Gf>): Bytes {
    var keys: seq<Index> := SortedKeys(pts.Keys);
    BigEndian(|pts|, 4) + PutEntries(pts, keys, PutPoint)
  }

  function GetPoints(data: Bytes): Reading<map<Index, Gf>> {
    var n :- GetNumber(data, 4);
    GetEntries(n.rest, n.value, map[], GetPoint)
  }

  lemma GetsPoints(pts: map<Index, Gf>, rest: Bytes)
    ensures GetPoints(PutPoints(pts) + rest) == Ok(Read(pts, rest))
    ensures |PutPoints(pts)| <= 0x4_0004
  {
    hide BigEndian, GetNumber, PutPoint, GetPoint, PutEntries, GetEntries, SortedKeys, ReadsBack;
    var keys: seq<Index> := SortedKeys(pts.Keys);
    FewKeys(pts.Keys);
    SortedKeysAll(pts.Keys);
    var tail := PutEntries(pts, keys, PutPoint) + rest;
    assert PutPoints(pts) + rest == BigEndian(|pts|, 4) + tail;
    GetsWord(|pts|, tail);
    forall k | k in keys
      ensures ReadsBack(PutPoint, GetPoint, k, pts[k])
    {
      GetsPoint(k, pts[k]);
    }
    GetsEntries(pts, keys, PutPoint, GetPoint, rest);
    EntriesSize(pts, keys, PutPoint, 4);
  }

  function PutMaps(points: seq<map<Index, Gf>>): Bytes {
    if points == [] then [] else PutPoints(points[0]) + PutMaps(points[1..])
  }

  function GetMaps(data: Bytes, n: nat): (r: Reading<seq<map<Index, Gf>>>)
    ensures r.Ok? ==> |r.value.value| == n
    decreases n
  {
    if n == 0 then Ok(Read([], data))
    else
      var pts :- GetPoints(data);
      var more :- GetMaps(pts.rest, n - 1);
      Ok(Read([pts.value] + more.value, more.rest))
  }

  lemma {:induction false} GetsMaps(points: seq<map<Index, Gf>>, rest: Bytes)
    ensures GetMaps(PutMaps(points) + rest, |points|) == Ok(Read(points, rest))
    ensures |PutMaps(points)| <= |points| * 0x4_0004
    decreases |points|
  {
    hide PutPoints, GetPoints;
    if points == [] {
      assert PutMaps(points) + rest == rest;
    } else {
      var tail := PutMaps(points[1..]) + rest;
      assert PutMaps(points) + rest == PutPoints(points[0]) + tail;
      GetsMaps(points[1..], rest);
      GetsPoints(points[0], tail);
      assert [points[0]] + points[1..] == points;
    }
  }

  function PutDecoder(d: Decoder): Bytes {
    BigEndian(d.ptsNeeded, 4) + ([if d.isComplete then 1 else 0] + PutMaps(d.points))
  }

  function GetDecoder(data: Bytes, size: nat): (r: Restored<Decoder>)
    ensures r.Ok? ==> r.value.Valid()
  {
    var n :- GetNumber(data, 4);
    if n.rest == [] then Err(Malformed)
    else
      var maps :- GetMaps(n.rest[1..], 16);
      if maps.rest != [] || n.value * 2 != size then Err(Malformed)
      else Ok(Decoder(n.value, maps.value, n.rest[0] == 1))
  }

  lemma GetsDecoder(d: Decoder)
    requires d.Valid() && d.ptsNeeded < 0x1_0000_0000
    ensures GetDecoder(PutDecoder(d), d.ptsNeeded * 2) == Ok(d)
    ensures |PutDecoder(d)| < 0x1_0000_0000
  {
    hide BigEndian, GetNumber, PutMaps, GetMaps;
    var flag: Byte := if d.isComplete then 1 else 0;
    GetsWord(d.ptsNeeded, [flag] + PutMaps(d.points));
    GetsMaps(d.points, []);
    assert PutMaps(d.points) + [] == PutMaps(d.points);
    assert ([flag] + PutMaps(d.points))[1..] == PutMaps(d.points);
  }

  // ---------------------------------------------------------------- the eleven states

  function Tag(s: V1): Byte {
    match s
    case KeysUnsampled(_, _) => 1
    case KeysSampled(_, _, _, _, _) => 2
    case HeaderSent(_, _, _, _, _) => 3
    case Ct1Received(_, _, _, _, _) => 4
    case EkSentCt1Received(_, _, _, _, _) => 5
    case NoHeaderReceived(_, _, _) => 6
    case HeaderReceived(_, _, _, _) => 7
    case Ct1Sampled(_, _, _, _, _, _, _) => 8
    case EkReceivedCt1Sampled(_, _, _, _, _, _) => 9
    case Ct1Acknowledged(_, _, _, _, _, _) => 10
    case Ct2Sampled(_, _, _) => 11
  }

  /** The byte strings of the state below the chunking, in the order they are written. */
  function Fields(s: V1): seq<Bytes> {
    match s
    case KeysSampled(_, _, ek, dk, _) => [ek, dk]
    case HeaderSent(_, _, dk, _, _) => [dk]
    case Ct1Received(_, _, dk, ct1, _) => [dk, ct1]
    case EkSentCt1Received(_, _, dk, ct1, _) => [dk, ct1]
    case HeaderReceived(_, _, hdr, _) => [hdr]
    case Ct1Sampled(_, _, hdr, encaps, ct1, _, _) => [hdr, encaps.seed, encaps.rho, encaps.pkHash, ct1]
    case EkReceivedCt1Sampled(_, _, encaps, ek, ct1, _) => [encaps.seed, encaps.rho, encaps.pkHash, ek, ct1]
    case Ct1Acknowledged(_, _, hdr, encaps, ct1, _) => [hdr, encaps.seed, encaps.rho, encaps.pkHash, ct1]
    case _ => []
  }

  /** The sizes restoring insists on. */
  function FieldSizes(tag: Byte): seq<nat> {
    if tag == 2 then [EK_SIZE, DK_SIZE]
    else if tag == 3 then [DK_SIZE]
    else if tag == 4 || tag == 5 then [DK_SIZE, CT1_SIZE]
    else if tag == 7 then [HEADER_SIZE]
    else if tag == 8 || tag == 10 then [HEADER_SIZE, 32, 32, 32, CT1_SIZE]
    else if tag == 9 then [32, 32, 32, EK_SIZE, CT1_SIZE]
    else []
  }

  function EncoderOf(s: V1): Option<Encoder> {
    match s
    case KeysSampled(_, _, _, _, enc) => Some(enc)
    case HeaderSent(_, _, _, enc, _) => Some(enc)
    case Ct1Received(_, _, _, _, enc) => Some(enc)
    case Ct1Sampled(_, _, _, _, _, enc, _) => Some(enc)
    case EkReceivedCt1Sampled(_, _, _, _, _, enc) => Some(enc)
    case Ct2Sampled(_, _, enc) => Some(enc)
    case _ => None
  }

  function EncoderSize(tag: Byte): Option<nat> {
    if tag == 2 then Some(HEADER_SIZE + MAC_SIZE)
    else if tag == 3 || tag == 4 then Some(EK_SIZE)
    else if tag == 8 || tag == 9 then Some(CT1_SIZE)
    else if tag == 11 then Some(CT2_SIZE + MAC_SIZE)
    else None
  }

  function DecoderOf(s: V1): Option<Decoder> {
    match s
    case HeaderSent(_, _, _, _, dec) => Some(dec)
    case EkSentCt1Received(_, _, _, _, dec) => Some(dec)
    case NoHeaderReceived(_, _, dec) => Some(dec)
    case HeaderReceived(_, _, _, dec) => Some(dec)
    case Ct1Sampled(_, _, _, _, _, _, dec) => Some(dec)
    case Ct1Acknowledged(_, _, _, _, _, dec) => Some(dec)
    case _ => None
  }

  function DecoderSize(tag: Byte): Option<nat> {
    if tag == 3 then Some(CT1_SIZE)
    else if tag == 5 then Some(CT2_SIZE + MAC_SIZE)
    else if tag == 6 then Some(HEADER_SIZE + MAC_SIZE)
    else if tag == 7 || tag == 8 || tag == 10 then Some(EK_SIZE)
    else None
  }

  /** The state that a tag and its parts make. */
  function Build(tag: Byte, epoch: nat, auth: Auth, f: seq<Bytes>, enc: Option<Encoder>, dec: Option<Decoder>): Restored<V1>
    requires |f| == |FieldSizes(tag)|
    requires (enc.Some? <==> EncoderSize(tag).Some?) && (dec.Some? <==> DecoderSize(tag).Some?)
  {
    if tag == 1 then Ok(KeysUnsampled(epoch, auth))
    else if tag == 2 then Ok(KeysSampled(epoch, auth, f[0], f[1], enc.value))
    else if tag == 3 then Ok(HeaderSent(epoch, auth, f[0], enc.value, dec.value))
    else if tag == 4 then Ok(Ct1Received(epoch, auth, f[0], f[1], enc.value))
    else if tag == 5 then Ok(EkSentCt1Received(epoch, auth, f[0], f[1], dec.value))
    else if tag == 6 then Ok(NoHeaderReceived(epoch, auth, dec.value))
    else if tag == 7 then Ok(HeaderReceived(epoch, auth, f[0], dec.value))
    else if tag == 8 then Ok(Ct1Sampled(epoch, auth, f[0], EncapsState(f[1], f[2], f[3]), f[4], enc.value, dec.value))
    else if tag == 9 then Ok(EkReceivedCt1Sampled(epoch, auth, EncapsState(f[0], f[1], f[2]), f[3], f[4], enc.value))
    else if tag == 10 then Ok(Ct1Acknowledged(epoch, auth, f[0], EncapsState(f[1], f[2], f[3]), f[4], dec.value))
    else if tag == 11 then Ok(Ct2Sampled(epoch, auth, enc.value))
    else Err(Malformed)
  }

  function PutUnchunked(s: V1): Bytes {
    BigEndian(s.epoch, 8) + PutAll([s.auth.rootKey, s.auth.macKey] + Fields(s))
  }

  datatype Unchunked = Unchunked(epoch: nat, auth: Auth, fields: seq<Bytes>)

  function GetUnchunked(data: Bytes, sizes: seq<nat>): (r: Restored<Unchunked>)
    ensures r.Ok? ==> |r.value.fields| == |sizes| && r.value.epoch < Pow256(8)
  {
    var epoch :- GetNumber(data, 8);
    var all :- GetAll(epoch.rest, [32, 32] + sizes);
    if all.rest != [] then Err(Malformed)
    else Ok(Unchunked(epoch.value, Auth(all.value[0], all.value[1]), all.value[2..]))
  }

  function Save(s: V1): Bytes {
    var enc, dec := EncoderOf(s), DecoderOf(s);
    [Tag(s)] + (PutBytes(PutUnchunked(s)) +
      ((if enc.Some? then PutBytes(PutEncoder(enc.value)) else []) +
       (if dec.Some? then PutBytes(PutDecoder(dec.value)) else [])))
  }

  function GetOptionalEncoder(data: Bytes, size: Option<nat>): (r: Reading<Option<Encoder>>)
    ensures r.Ok? ==> (r.value.value.Some? <==> size.Some?)
  {
    match size
    case None => Ok(Read(None, data))
    case Some(n) =>
      var bytes :- GetBytes(data);
      var enc :- GetEncoder(bytes.value, n);
      Ok(Read(Some(enc), bytes.rest))
  }

  function GetOptionalDecoder(data: Bytes, size: Option<nat>): (r: Reading<Option<Decoder>>)
    ensures r.Ok? ==> (r.value.value.Some? <==> size.Some?)
  {
    match size
    case None => Ok(Read(None, data))
    case Some(n) =>
      var bytes :- GetBytes(data);
      var dec :- GetDecoder(bytes.value, n);
      Ok(Read(Some(dec), bytes.rest))
  }

  function Restore(data: Bytes): Restored<V1> {
    if data == [] then Err(Malformed)
    else
      var tag := data[0];
      var uc :- GetBytes(data[1..]);
      var enc :- GetOptionalEncoder(uc.rest, EncoderSize(tag));
      var dec :- GetOptionalDecoder(enc.rest, DecoderSize(tag));
      var u :- GetUnchunked(uc.value, FieldSizes(tag));
      if dec.rest != [] then Err(Malformed) else Build(tag, u.epoch, u.auth, u.fields, enc.value, dec.value)
  }

  /** Whatever is restored is well-formed. */
  lemma RestoreValid(data: Bytes)
    requires Restore(data).Ok?
    ensures Restore(data).value.Valid() && Restore(data).value.epoch < 0x1_0000_0000_0000_0000
  {
    hide GetBytes, GetEncoder, GetDecoder, GetUnchunked, FieldSizes, Encodable;
    var tag := data[0];
    var uc := GetBytes(data[1..]).value;
    var enc := GetOptionalEncoder(uc.rest, EncoderSize(tag)).value;
    var dec := GetOptionalDecoder(enc.rest, DecoderSize(tag)).value;
    var u := GetUnchunked(uc.value, FieldSizes(tag)).value;
    EncoderValid(uc.rest, EncoderSize(tag));
    BuildValid(tag, u.epoch, u.auth, u.fields, enc.value, dec.value);
    Widths();
  }

  lemma EncoderValid(data: Bytes, size: Option<nat>)
    requires GetOptionalEncoder(data, size).Ok?
    ensures var enc := GetOptionalEncoder(data, size).value.value; enc.Some? ==> Encodable(enc.value.msg)
  {
  }

  lemma BuildValid(tag: Byte, epoch: nat, auth: Auth, f: seq<Bytes>, enc: Option<Encoder>, dec: Option<Decoder>)
    requires |f| == |FieldSizes(tag)|
    requires (enc.Some? <==> EncoderSize(tag).Some?) && (dec.Some? <==> DecoderSize(tag).Some?)
    requires (enc.Some? ==> Encodable(enc.value.msg)) && (dec.Some? ==> dec.value.Valid())
    ensures var r := Build(tag, epoch, auth, f, enc, dec); r.Ok? ==> r.value.Valid() && r.value.epoch == epoch
  {
    hide Encodable;
  }

  // ---------------------------------------------------------------- what can be saved

  predicate FieldsSized(s: V1) {
    match s
    case KeysSampled(_, _, ek, dk, _) => |ek| == EK_SIZE && |dk| == DK_SIZE
    case HeaderSent(_, _, dk, _, _) => |dk| == DK_SIZE
    case Ct1Received(_, _, dk, ct1, _) => |dk| == DK_SIZE && |ct1| == CT1_SIZE
    case EkSentCt1Received(_, _, dk, ct1, _) => |dk| == DK_SIZE && |ct1| == CT1_SIZE
    case HeaderReceived(_, _, hdr, _) => |hdr| == HEADER_SIZE
    case Ct1Sampled(_, _, hdr, encaps, ct1, _, _) => |hdr| == HEADER_SIZE && encaps.Sized() && |ct1| == CT1_SIZE
    case EkReceivedCt1Sampled(_, _, encaps, ek, ct1, _) => encaps.Sized() && |ek| == EK_SIZE && |ct1| == CT1_SIZE
    case Ct1Acknowledged(_, _, hdr, encaps, ct1, _) => |hdr| == HEADER_SIZE && encaps.Sized() && |ct1| == CT1_SIZE
    case _ => true
  }

  lemma FieldsAreSized(s: V1)
    requires FieldsSized(s)
    ensures Sized(Fields(s), FieldSizes(Tag(s))) && |Fields(s)| <= 5
  {
  }

  /** Every part has the size that restoring insists on. */
  ghost predicate Storable(s: V1) {
    var enc, dec := EncoderOf(s), DecoderOf(s);
    && s.Valid()
    && |s.auth.rootKey| == 32 && |s.auth.macKey| == 32
    && FieldsSized(s)
    && (enc.Some? ==> Some(|enc.value.msg|) == EncoderSize(Tag(s)) && enc.value.idx < 0x1_0000_0000)
    && (dec.Some? ==> Some(dec.value.ptsNeeded * 2) == DecoderSize(Tag(s)))
  }

  lemma GetsUnchunked(s: V1)
    requires Storable(s) && s.epoch < 0x1_0000_0000_0000_0000
    ensures GetUnchunked(PutUnchunked(s), FieldSizes(Tag(s))) == Ok(Unchunked(s.epoch, s.auth, Fields(s)))
    ensures |PutUnchunked(s)| < 0x1_0000_0000
  {
    hide BigEndian, GetNumber, PutAll, GetAll, Fields, FieldSizes, Tag, FieldsSized;
    var fields, sizes := [s.auth.rootKey, s.auth.macKey] + Fields(s), [32, 32] + FieldSizes(Tag(s));
    FieldsAreSized(s);
    GetsWord(s.epoch, PutAll(fields));
    GetsAll(fields, sizes, []);
    assert PutAll(fields) + [] == PutAll(fields);
    assert fields[2..] == Fields(s);
  }

  lemma GetsOptional(s: V1, rest: Bytes)
    requires Storable(s)
    ensures var enc := EncoderOf(s);
      GetOptionalEncoder((if enc.Some? then PutBytes(PutEncoder(enc.value)) else []) + rest, EncoderSize(Tag(s))) == Ok(Read(enc, rest))
    ensures var dec := DecoderOf(s);
      GetOptionalDecoder((if dec.Some? then PutBytes(PutDecoder(dec.value)) else []) + rest, DecoderSize(Tag(s))) == Ok(Read(dec, rest))
  {
    hide PutBytes, GetBytes, GetEncoder, GetDecoder, PutDecoder;
    assert [] + rest == rest;
    if EncoderOf(s).Some? {
      var e := EncoderOf(s).value;
      GetsEncoder(e);
      GetsBytes(PutEncoder(e), rest);
    }
    if DecoderOf(s).Some? {
      var d := DecoderOf(s).value;
      GetsDecoder(d);
      GetsBytes(PutDecoder(d), rest);
    }
  }

  /** Restoring what was saved gives the state back, in every one of its eleven forms. */
  lemma BuildsBack(s: V1)
    requires Storable(s)
    ensures |Fields(s)| == |FieldSizes(Tag(s))|
    ensures (EncoderOf(s).Some? <==> EncoderSize(Tag(s)).Some?) && (DecoderOf(s).Some? <==> DecoderSize(Tag(s)).Some?)
    ensures Build(Tag(s), s.epoch, s.auth, Fields(s), EncoderOf(s), DecoderOf(s)) == Ok(s)
  {
  }

  lemma SaveRestore(s: V1)
    requires Storable(s) && s.epoch < 0x1_0000_0000_0000_0000
    ensures Restore(Save(s)) == Ok(s)
  {
    hide PutBytes, GetBytes, GetOptionalEncoder, GetOptionalDecoder, GetUnchunked, PutUnchunked, PutEncoder, PutDecoder;
    hide Build, Fields, FieldSizes, EncoderOf, DecoderOf, EncoderSize, DecoderSize, Tag, Storable;
    var enc, dec := EncoderOf(s), DecoderOf(s);
    var e := if enc.Some? then PutBytes(PutEncoder(enc.value)) else [];
    var d := if dec.Some? then PutBytes(PutDecoder(dec.value)) else [];
    GetsUnchunked(s);
    GetsBytes(PutUnchunked(s), e + d);
    GetsOptional(s, d);
    GetsOptional(s, []);
    assert d + [] == d;
    assert Save(s)[1..] == PutBytes(PutUnchunked(s)) + (e + d);
    BuildsBack(s);
  }

  // ---------------------------------------------------------------- every state that is reached can be saved

  lemma StorableStart(c: Crypto, authKey: Bytes)
    requires c.Sizes()
    ensures Storable(InitA(c, authKey)) && Storable(InitB(c, authKey))
  {
  }

  lemma StorableSend(c: Crypto, s: V1, coin: nat)
    requires c.Sizes() && Storable(s) && Send(c, s, coin).Ok?
    ensures Storable(Send(c, s, coin).value.state)
  {
    hide ChunkOf;
  }

  /** What a decoder gives out is as long as it was made for, whoever sent the chunks. */
  lemma DecodedSize(d: Decoder)
    requires d.Valid()
    ensures TryDecode(d).Ok? && TryDecode(d).value.Some? ==> |TryDecode(d).value.value| == d.ptsNeeded * 2
  {
    hide DecodedValues, Scan;
    ScanMeaning(d, 0);
  }

  lemma ChunkKeepsSize(d: Decoder, c: Chunk)
    requires d.Valid() && |c.data| == 32
    ensures AddChunk(d, c).Valid() && AddChunk(d, c).ptsNeeded == d.ptsNeeded
  {
  }

  lemma StorableEkSide(c: Crypto, s: V1, chunk: Chunk)
    requires c.Sizes() && Storable(s) && |chunk.data| == 32
    ensures s.KeysSampled? && RecvFirstCt1Chunk(s, chunk).Ok? ==> Storable(RecvFirstCt1Chunk(s, chunk).value.state)
    ensures s.HeaderSent? && RecvCt1Chunk(s, chunk).Ok? ==> Storable(RecvCt1Chunk(s, chunk).value.state)
    ensures s.Ct1Received? && RecvFirstCt2Chunk(s, chunk).Ok? ==> Storable(RecvFirstCt2Chunk(s, chunk).value.state)
    ensures s.EkSentCt1Received? && RecvCt2Chunk(c, s, chunk).Ok? ==> Storable(RecvCt2Chunk(c, s, chunk).value.state)
  {
    hide AddChunk, TryDecode, NewDecoder;
    NewDecoderSizes(chunk);
    if DecoderOf(s).Some? {
      var d := DecoderOf(s).value;
      ChunkKeepsSize(d, chunk);
      DecodedSize(AddChunk(d, chunk));
    }
  }

  lemma StorableCtSide(c: Crypto, s: V1, chunk: Chunk, ack: bool)
    requires c.Sizes() && Storable(s) && |chunk.data| == 32
    ensures s.NoHeaderReceived? && RecvHdrChunk(c, s, chunk).Ok? ==> Storable(RecvHdrChunk(c, s, chunk).value.state)
    ensures s.Ct1Sampled? && RecvEkChunk(c, s, chunk, ack).Ok? ==> Storable(RecvEkChunk(c, s, chunk, ack).value.state)
    ensures s.Ct1Acknowledged? && RecvLateEkChunk(c, s, chunk).Ok? ==> Storable(RecvLateEkChunk(c, s, chunk).value.state)
  {
    hide AddChunk, TryDecode, NewDecoder;
    NewDecoderSizes(chunk);
    if DecoderOf(s).Some? {
      var d := DecoderOf(s).value;
      ChunkKeepsSize(d, chunk);
      DecodedSize(AddChunk(d, chunk));
    }
  }

  /** Whatever the peer sends. */
  lemma StorableRecv(c: Crypto, s: V1, m: V1Message)
    requires c.Sizes() && Storable(s) && m.Typed() && Recv(c, s, m).Ok?
    ensures Storable(Recv(c, s, m).value.state)
  {
    hide AddChunk, TryDecode, NewDecoder, RecvFirstCt1Chunk, RecvCt1Chunk, RecvFirstCt2Chunk, RecvCt2Chunk, RecvHdrChunk, RecvEkChunk, RecvLateEkChunk;
    if m.epoch == s.epoch && m.chunk.Some? {
      StorableEkSide(c, s, m.chunk.value);
      StorableCtSide(c, s, m.chunk.value, m.kind == KIND_EK_CT1_ACK);
    }
  }

  lemma NewDecoderSizes(c: Chunk)
    requires |c.data| == 32
    ensures AddChunk(NewDecoder(CT1_SIZE), c).ptsNeeded * 2 == CT1_SIZE
    ensures AddChunk(NewDecoder(CT2_SIZE + MAC_SIZE), c).ptsNeeded * 2 == CT2_SIZE + MAC_SIZE
    ensures NewDecoder(HEADER_SIZE + MAC_SIZE).ptsNeeded * 2 == HEADER_SIZE + MAC_SIZE
    ensures NewDecoder(EK_SIZE).ptsNeeded * 2 == EK_SIZE
  {
  }
}
