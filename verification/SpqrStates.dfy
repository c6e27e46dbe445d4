/** The eleven handshake states of spqr/v1_chunked.go over the unchunked steps of
    spqr/v1_unchunked.go: what each state sends, and what each does with any message. */
module SpqrStates {
  import opened Words
  import opened Results
  import opened Erasure
  import opened SpqrCrypto

  // ---------------------------------------------------------------- messages and errors

  const KIND_NONE := 0
  const KIND_HDR := 1
  const KIND_EK := 2
  const KIND_EK_CT1_ACK := 3
  const KIND_CT1_ACK := 4
  const KIND_CT1 := 5
  const KIND_CT2 := 6

  datatype V1Message = V1Message(epoch: nat, kind: Byte, chunk: Option<Chunk>)
  {
    /** A chunk is an array of exactly 32 bytes. */
    predicate Typed() {
      chunk.Some? ==> |chunk.value.data| == 32
    }
  }

  datatype Error =
    | EpochOutOfRange | InvalidMessage | InvalidMac | ErroneousData | NotDecodable | NotEncodable
    | KeyTrimmed | KeyAlreadyRequested | KeyJump | SendKeyEpochDecreased | ChainNotAvailable

  datatype EpochSecret = EpochSecret(epoch: nat, secret: Bytes)

  type Checked<+T> = Result<T, Error>

  // ---------------------------------------------------------------- states

  /** The part of an encoder that its chunks depend on. */
  datatype Encoder = Encoder(msg: Bytes, idx: nat)

  datatype V1 =
    | KeysUnsampled(epoch: nat, auth: Auth)
    | KeysSampled(epoch: nat, auth: Auth, ek: Bytes, dk: Bytes, sendingHdr: Encoder)
    | HeaderSent(epoch: nat, auth: Auth, dk: Bytes, sendingEk: Encoder, receivingCt1: Decoder)
    | Ct1Received(epoch: nat, auth: Auth, dk: Bytes, ct1: Bytes, sendingEk: Encoder)
    | EkSentCt1Received(epoch: nat, auth: Auth, dk: Bytes, ct1: Bytes, receivingCt2: Decoder)
    | NoHeaderReceived(epoch: nat, auth: Auth, receivingHdr: Decoder)
    | HeaderReceived(epoch: nat, auth: Auth, hdr: Bytes, receivingEk: Decoder)
    | Ct1Sampled(epoch: nat, auth: Auth, hdr: Bytes, encaps: EncapsState, ct1: Bytes, sendingCt1: Encoder, receivingEk: Decoder)
    | EkReceivedCt1Sampled(epoch: nat, auth: Auth, encaps: EncapsState, ek: Bytes, ct1: Bytes, sendingCt1: Encoder)
    | Ct1Acknowledged(epoch: nat, auth: Auth, hdr: Bytes, encaps: EncapsState, ct1: Bytes, receivingEk: Decoder)
    | Ct2Sampled(epoch: nat, auth: Auth, sendingCt2: Encoder)
  {
    /** The encoders and decoders held are well-formed objects. */
    predicate Valid() {
      match this
      case KeysUnsampled(_, _) => true
      case KeysSampled(_, _, _, _, enc) => Encodable(enc.msg)
      case HeaderSent(_, _, _, enc, dec) => Encodable(enc.msg) && dec.Valid()
      case Ct1Received(_, _, _, _, enc) => Encodable(enc.msg)
      case EkSentCt1Received(_, _, _, _, dec) => dec.Valid()
      case NoHeaderReceived(_, _, dec) => dec.Valid()
      case HeaderReceived(_, _, _, dec) => dec.Valid()
      case Ct1Sampled(_, _, _, _, _, enc, dec) => Encodable(enc.msg) && dec.Valid()
      case EkReceivedCt1Sampled(_, _, _, _, _, enc) => Encodable(enc.msg)
      case Ct1Acknowledged(_, _, _, _, _, dec) => dec.Valid()
      case Ct2Sampled(_, _, enc) => Encodable(enc.msg)
    }
  }

  function InitA(c: Crypto, authKey: Bytes): V1 {
    KeysUnsampled(1, NewAuth(c, authKey))
  }

  function InitB(c: Crypto, authKey: Bytes): V1 {
    NoHeaderReceived(1, NewAuth(c, authKey), NewDecoder(HEADER_SIZE + MAC_SIZE))
  }

  function NewEncoder(payload: Bytes): (r: Checked<Encoder>)
    ensures r.Ok? ==> Encodable(r.value.msg)
  {
    if Encodable(payload) then Ok(Encoder(payload, 0)) else Err(NotEncodable)
  }

  function Advance(e: Encoder): Encoder {
    e.(idx := (e.idx + 1) % 0x1_0000_0000)
  }

  function CurrentChunk(e: Encoder): (c: Chunk)
    requires Encodable(e.msg)
    ensures |c.data| == 32
  {
    ChunkOf(e.msg, e.idx % 0x10000)
  }

  // ---------------------------------------------------------------- sending

  datatype Sent = Sent(msg: V1Message, key: Option<EpochSecret>, state: V1)

  function WithChunk(epoch: nat, kind: Byte, e: Encoder): (m: V1Message)
    requires Encodable(e.msg)
    ensures m.Typed()
  {
    V1Message(epoch, kind, Some(CurrentChunk(e)))
  }

  /** Generate keys, authenticate their header and send its first chunk. */
  function SendHeader(c: Crypto, s: V1, coin: nat): (r: Checked<Sent>)
    requires s.KeysUnsampled?
    ensures r.Ok? ==> r.value.msg.Typed() && r.value.state.Valid()
  {
    var keys := c.gen(coin);
    var enc :- NewEncoder(keys.hdr + MacHdr(c, s.auth, s.epoch, keys.hdr));
    Ok(Sent(WithChunk(s.epoch, KIND_HDR, enc), None, KeysSampled(s.epoch, s.auth, keys.ek, keys.dk, Advance(enc))))
  }

  /** Encapsulate to the header, mix the secret into the authenticator and send the first chunk
      of the first ciphertext. The epoch's secret is ready from here on. */
  function SendCt1(c: Crypto, s: V1, coin: nat): (r: Checked<Sent>)
    requires s.HeaderReceived? && s.Valid()
    ensures r.Ok? ==> r.value.msg.Typed() && r.value.state.Valid()
  {
    if |s.hdr| != HEADER_SIZE then Err(InvalidMessage)
    else
      var e := c.encaps1(s.hdr, coin);
      var key := DeriveSckaKey(c, s.epoch, e.ss);
      var enc :- NewEncoder(e.ct1);
      Ok(Sent(WithChunk(s.epoch, KIND_CT1, enc), Some(EpochSecret(s.epoch, key)),
              Ct1Sampled(s.epoch, UpdateAuth(c, s.auth, s.epoch, key), s.hdr, e.state, e.ct1, Advance(enc), s.receivingEk)))
  }

  function Send(c: Crypto, s: V1, coin: nat): (r: Checked<Sent>)
    requires s.Valid()
    ensures r.Ok? ==> r.value.msg.Typed() && r.value.state.Valid()
  {
    match s
    case KeysUnsampled(_, _) => SendHeader(c, s, coin)
    case KeysSampled(epoch, _, _, _, enc) =>
      Ok(Sent(WithChunk(epoch, KIND_HDR, enc), None, s.(sendingHdr := Advance(enc))))
    case HeaderSent(epoch, auth, dk, enc, dec) =>
      Ok(Sent(WithChunk(epoch, KIND_EK, enc), None, HeaderSent(epoch, auth, dk, Advance(enc), dec)))
    case Ct1Received(epoch, auth, dk, ct1, enc) =>
      Ok(Sent(WithChunk(epoch, KIND_EK_CT1_ACK, enc), None, Ct1Received(epoch, auth, dk, ct1, Advance(enc))))
    case EkSentCt1Received(epoch, _, _, _, _) => Ok(Sent(V1Message(epoch, KIND_CT1_ACK, None), None, s))
    case NoHeaderReceived(epoch, _, _) => Ok(Sent(V1Message(epoch, KIND_NONE, None), None, s))
    case HeaderReceived(_, _, _, _) => SendCt1(c, s, coin)
    case Ct1Sampled(epoch, auth, hdr, encaps, ct1, enc, dec) =>
      Ok(Sent(WithChunk(epoch, KIND_CT1, enc), None, Ct1Sampled(epoch, auth, hdr, encaps, ct1, Advance(enc), dec)))
    case EkReceivedCt1Sampled(epoch, auth, encaps, ek, ct1, enc) =>
      Ok(Sent(WithChunk(epoch, KIND_CT1, enc), None, EkReceivedCt1Sampled(epoch, auth, encaps, ek, ct1, Advance(enc))))
    case Ct1Acknowledged(epoch, _, _, _, _, _) => Ok(Sent(V1Message(epoch, KIND_NONE, None), None, s))
    case Ct2Sampled(epoch, _, enc) =>
      Ok(Sent(WithChunk(epoch, KIND_CT2, enc), None, s.(sendingCt2 := Advance(enc))))
  }

  // ---------------------------------------------------------------- receiving

  datatype Received = Received(key: Option<EpochSecret>, state: V1)

  function Stay(s: V1): Checked<Received> {
    Ok(Received(None, s))
  }

  /** Decoding: nothing yet, the whole payload, or the decoder's error. */
  function TryDecode(d: Decoder): Checked<Option<Bytes>>
    requires d.Valid()
  {
    match Decode(d)
    case Pending => Ok(None)
    case Message(bytes) => Ok(Some(bytes))
    case MissingPoints => Err(NotDecodable)
  }

  function RecvFirstCt1Chunk(s: V1, chunk: Chunk): (r: Checked<Received>)
    requires s.KeysSampled? && |chunk.data| == 32
    ensures r.Ok? ==> r.value.state.Valid()
  {
    var dec := AddChunk(NewDecoder(CT1_SIZE), chunk);
    var enc :- NewEncoder(s.ek);
    Stay(HeaderSent(s.epoch, s.auth, s.dk, enc, dec))
  }

  function RecvCt1Chunk(s: V1, chunk: Chunk): (r: Checked<Received>)
    requires s.HeaderSent? && s.Valid() && |chunk.data| == 32
    ensures r.Ok? ==> r.value.state.Valid()
  {
    var dec := AddChunk(s.receivingCt1, chunk);
    var decoded :- TryDecode(dec);
    match decoded
    case None => Stay(s.(receivingCt1 := dec))
    case Some(ct1) => Stay(Ct1Received(s.epoch, s.auth, s.dk, ct1, s.sendingEk))
  }

  function RecvFirstCt2Chunk(s: V1, chunk: Chunk): (r: Checked<Received>)
    requires s.Ct1Received? && |chunk.data| == 32
    ensures r.Ok? ==> r.value.state.Valid()
  {
    Stay(EkSentCt1Received(s.epoch, s.auth, s.dk, s.ct1, AddChunk(NewDecoder(CT2_SIZE + MAC_SIZE), chunk)))
  }

  /** Decapsulate, mix the secret into the authenticator and only then check the tag. */
  function FinishCt2(c: Crypto, s: V1, ct2: Bytes, mac: Bytes): (r: Checked<Received>)
    requires s.EkSentCt1Received?
    ensures r.Ok? ==> r.value.state.Valid()
  {
    if |ct2| != CT2_SIZE || |mac| != MAC_SIZE || |s.dk| != DK_SIZE || |s.ct1| != CT1_SIZE then Err(InvalidMessage)
    else
      var key := DeriveSckaKey(c, s.epoch, c.decaps(s.dk, s.ct1, ct2));
      var auth := UpdateAuth(c, s.auth, s.epoch, key);
      if mac != MacCt(c, auth, s.epoch, s.ct1 + ct2) then Err(InvalidMac)
      else Ok(Received(Some(EpochSecret(s.epoch, key)),
                       NoHeaderReceived(s.epoch + 1, auth, NewDecoder(HEADER_SIZE + MAC_SIZE))))
  }

  function RecvCt2Chunk(c: Crypto, s: V1, chunk: Chunk): (r: Checked<Received>)
    requires s.EkSentCt1Received? && s.Valid() && |chunk.data| == 32
    ensures r.Ok? ==> r.value.state.Valid()
  {
    var dec := AddChunk(s.receivingCt2, chunk);
    var decoded :- TryDecode(dec);
    match decoded
    case None => Stay(s.(receivingCt2 := dec))
    case Some(payload) =>
      if |payload| < CT2_SIZE + MAC_SIZE then Err(InvalidMessage)
      else FinishCt2(c, s, payload[..CT2_SIZE], payload[CT2_SIZE..])
  }

  function RecvHdrChunk(c: Crypto, s: V1, chunk: Chunk): (r: Checked<Received>)
    requires s.NoHeaderReceived? && s.Valid() && |chunk.data| == 32
    ensures r.Ok? ==> r.value.state.Valid()
  {
    var dec := AddChunk(s.receivingHdr, chunk);
    var decoded :- TryDecode(dec);
    match decoded
    case None => Stay(s.(receivingHdr := dec))
    case Some(payload) =>
      if |payload| < HEADER_SIZE + MAC_SIZE then Err(InvalidMessage)
      else
        var hdr, mac := payload[..HEADER_SIZE], payload[HEADER_SIZE..];
        if |mac| != MAC_SIZE then Err(InvalidMessage)
        else if mac != MacHdr(c, s.auth, s.epoch, hdr) then Err(InvalidMac)
        else Stay(HeaderReceived(s.epoch, s.auth, hdr, NewDecoder(EK_SIZE)))
  }

  /** The second ciphertext and its tag. */
  function Ct2State(c: Crypto, epoch: nat, auth: Auth, encaps: EncapsState, ek: Bytes, ct1: Bytes): (r: Checked<V1>)
    ensures r.Ok? ==> r.value.Valid()
  {
    if |ek| != EK_SIZE then Err(InvalidMessage)
    else
      var ct2 := c.encaps2(ek, encaps);
      var enc :- NewEncoder(ct2 + MacCt(c, auth, epoch, ct1 + ct2));
      Ok(Ct2Sampled(epoch, auth, enc))
  }

  function RecvEkChunk(c: Crypto, s: V1, chunk: Chunk, ct1Ack: bool): (r: Checked<Received>)
    requires s.Ct1Sampled? && s.Valid() && |chunk.data| == 32
    ensures r.Ok? ==> r.value.state.Valid()
  {
    var dec := AddChunk(s.receivingEk, chunk);
    var decoded :- TryDecode(dec);
    match decoded
    case None =>
      if ct1Ack then Stay(Ct1Acknowledged(s.epoch, s.auth, s.hdr, s.encaps, s.ct1, dec))
      else Stay(Ct1Sampled(s.epoch, s.auth, s.hdr, s.encaps, s.ct1, s.sendingCt1, dec))
    case Some(ek) =>
      if !c.ekMatches(ek, s.hdr) then Err(ErroneousData)
      else if ct1Ack then
        var next :- Ct2State(c, s.epoch, s.auth, s.encaps, ek, s.ct1);
        Stay(next)
      else Stay(EkReceivedCt1Sampled(s.epoch, s.auth, s.encaps, ek, s.ct1, s.sendingCt1))
  }

  function RecvLateEkChunk(c: Crypto, s: V1, chunk: Chunk): (r: Checked<Received>)
    requires s.Ct1Acknowledged? && s.Valid() && |chunk.data| == 32
    ensures r.Ok? ==> r.value.state.Valid()
  {
    var dec := AddChunk(s.receivingEk, chunk);
    var decoded :- TryDecode(dec);
    match decoded
    case None => Stay(Ct1Acknowledged(s.epoch, s.auth, s.hdr, s.encaps, s.ct1, dec))
    case Some(ek) =>
      if !c.ekMatches(ek, s.hdr) then Err(ErroneousData)
      else
        var next :- Ct2State(c, s.epoch, s.auth, s.encaps, ek, s.ct1);
        Stay(next)
  }

  /** A message of the state's own epoch. */
  function RecvCurrent(c: Crypto, s: V1, m: V1Message): (r: Checked<Received>)
    requires s.Valid() && m.Typed()
    ensures r.Ok? ==> r.value.state.Valid()
  {
    match s
    case KeysUnsampled(_, _) => Stay(s)
    case KeysSampled(_, _, _, _, _) =>
      if m.kind == KIND_CT1 && m.chunk.Some? then RecvFirstCt1Chunk(s, m.chunk.value) else Stay(s)
    case HeaderSent(_, _, _, _, _) =>
      if m.kind == KIND_CT1 && m.chunk.Some? then RecvCt1Chunk(s, m.chunk.value) else Stay(s)
    case Ct1Received(_, _, _, _, _) =>
      if m.kind == KIND_CT2 && m.chunk.Some? then RecvFirstCt2Chunk(s, m.chunk.value) else Stay(s)
    case EkSentCt1Received(_, _, _, _, _) =>
      if m.kind == KIND_CT2 && m.chunk.Some? then RecvCt2Chunk(c, s, m.chunk.value) else Stay(s)
    case NoHeaderReceived(_, _, _) =>
      if m.kind == KIND_HDR && m.chunk.Some? then RecvHdrChunk(c, s, m.chunk.value) else Stay(s)
    case HeaderReceived(_, _, _, _) => Stay(s)
    case Ct1Sampled(_, _, _, _, _, _, _) =>
      if (m.kind == KIND_EK || m.kind == KIND_EK_CT1_ACK) && m.chunk.Some?
      then RecvEkChunk(c, s, m.chunk.value, m.kind == KIND_EK_CT1_ACK) else Stay(s)
    case EkReceivedCt1Sampled(_, _, _, _, _, _) =>
      if m.kind == KIND_CT1_ACK || m.kind == KIND_EK_CT1_ACK then
        var next :- Ct2State(c, s.epoch, s.auth, s.encaps, s.ek, s.ct1);
        Stay(next)
      else Stay(s)
    case Ct1Acknowledged(_, _, _, _, _, _) =>
      if (m.kind == KIND_EK || m.kind == KIND_EK_CT1_ACK) && m.chunk.Some?
      then RecvLateEkChunk(c, s, m.chunk.value) else Stay(s)
    case Ct2Sampled(_, _, _) => Stay(s)
  }

  function Recv(c: Crypto, s: V1, m: V1Message): (r: Checked<Received>)
    requires s.Valid() && m.Typed()
    ensures r.Ok? ==> r.value.state.Valid()
  {
    if m.epoch > s.epoch then
      if s.Ct2Sampled? && m.epoch == s.epoch + 1 then Stay(KeysUnsampled(s.epoch + 1, s.auth))
      else Err(EpochOutOfRange)
    else if m.epoch < s.epoch then Stay(s)
    else RecvCurrent(c, s, m)
  }

  // ---------------------------------------------------------------- what is taken in and what is not

  /** The messages of its own epoch that a state does something with. */
  predicate Wanted(s: V1, kind: Byte, hasChunk: bool) {
    match s
    case KeysSampled(_, _, _, _, _) => kind == KIND_CT1 && hasChunk
    case HeaderSent(_, _, _, _, _) => kind == KIND_CT1 && hasChunk
    case Ct1Received(_, _, _, _, _) => kind == KIND_CT2 && hasChunk
    case EkSentCt1Received(_, _, _, _, _) => kind == KIND_CT2 && hasChunk
    case NoHeaderReceived(_, _, _) => kind == KIND_HDR && hasChunk
    case Ct1Sampled(_, _, _, _, _, _, _) => kind in {KIND_EK, KIND_EK_CT1_ACK} && hasChunk
    case EkReceivedCt1Sampled(_, _, _, _, _, _) => kind in {KIND_CT1_ACK, KIND_EK_CT1_ACK}
    case Ct1Acknowledged(_, _, _, _, _, _) => kind in {KIND_EK, KIND_EK_CT1_ACK} && hasChunk
    case _ => false
  }

  /** A message of an older epoch, and one of this epoch that the state does not want, changes nothing. One of
      a later epoch is refused, unless the last ciphertext of this one is being sent and it is of the next. */
  lemma IgnoresOthers(c: Crypto, s: V1, m: V1Message)
    requires s.Valid() && m.Typed()
    ensures m.epoch < s.epoch || (m.epoch == s.epoch && !Wanted(s, m.kind, m.chunk.Some?)) ==> Recv(c, s, m) == Ok(Received(None, s))
    ensures m.epoch > s.epoch ==>
      Recv(c, s, m) == if s.Ct2Sampled? && m.epoch == s.epoch + 1 then Ok(Received(None, KeysUnsampled(s.epoch + 1, s.auth))) else Err(EpochOutOfRange)
  {
    hide TryDecode, AddChunk, Encodable, NewDecoder;
  }

  // ---------------------------------------------------------------- the epochs of the secrets handed out

  /** The last epoch whose secret has been handed out, as the state alone determines it. */
  function KeyEpoch(s: V1): nat
  {
    if s.Ct1Sampled? || s.EkReceivedCt1Sampled? || s.Ct1Acknowledged? || s.Ct2Sampled? then s.epoch
    else if s.epoch == 0 then 0 else s.epoch - 1
  }

  ghost predicate KeyFollows(s: V1, key: Option<EpochSecret>, next: V1) {
    && next.epoch >= s.epoch >= 1
    && match key
       case None => KeyEpoch(next) == KeyEpoch(s)
       case Some(k) => k.epoch == KeyEpoch(s) + 1 == KeyEpoch(next)
  }

  /** Whatever the peer sends, secrets come out one epoch at a time and in order. */
  lemma SendKeyFollows(c: Crypto, s: V1, coin: nat)
    requires s.Valid() && s.epoch >= 1 && Send(c, s, coin).Ok?
    ensures KeyFollows(s, Send(c, s, coin).value.key, Send(c, s, coin).value.state)
    ensures Send(c, s, coin).value.msg.epoch == s.epoch == Send(c, s, coin).value.state.epoch
  {
    hide ChunkOf, Encodable;
  }

  lemma RecvKeyFollows(c: Crypto, s: V1, m: V1Message)
    requires s.Valid() && m.Typed() && s.epoch >= 1 && Recv(c, s, m).Ok?
    ensures KeyFollows(s, Recv(c, s, m).value.key, Recv(c, s, m).value.state)
    ensures m.epoch <= Recv(c, s, m).value.state.epoch <= s.epoch + 1
  {
    hide TryDecode, AddChunk, Encodable, NewDecoder, DeriveSckaKey, UpdateAuth, MacCt, MacHdr;
  }

  // ---------------------------------------------------------------- the first ciphertext is sent until it is acknowledged

  /** What happens to one party: it sends, or is given a message. A call that fails leaves it as it was. */
  datatype Event = Speaks(coin: nat) | Hears(m: V1Message)
  {
    predicate Typed() {
      Hears? ==> m.Typed()
    }
  }

  function StepV1(c: Crypto, s: V1, e: Event): (r: V1)
    requires s.Valid() && e.Typed()
    ensures r.Valid()
  {
    match e
    case Speaks(coin) => var r := Send(c, s, coin); if r.Ok? then r.value.state else s
    case Hears(m) => var r := Recv(c, s, m); if r.Ok? then r.value.state else s
  }

  function RunV1(c: Crypto, s: V1, events: seq<Event>): (r: V1)
    requires s.Valid() && forall k | 0 <= k < |events| :: events[k].Typed()
    ensures r.Valid()
    decreases |events|
  {
    if events == [] then s else RunV1(c, StepV1(c, s, events[0]), events[1..])
  }

  /** The first ciphertext of the epoch has been acknowledged, or the epoch is over. */
  predicate PastCt1(s: V1, epoch: nat) {
    s.epoch > epoch || (s.epoch == epoch && (s.Ct1Acknowledged? || s.Ct2Sampled?))
  }

  lemma StaysPastCt1(c: Crypto, s: V1, epoch: nat, e: Event)
    requires s.Valid() && e.Typed() && PastCt1(s, epoch)
    ensures PastCt1(StepV1(c, s, e), epoch)
  {
    hide TryDecode, AddChunk, Encodable, ChunkOf, NewDecoder;
  }

  lemma {:induction false} RunsPastCt1(c: Crypto, s: V1, epoch: nat, events: seq<Event>)
    requires s.Valid() && PastCt1(s, epoch) && forall k | 0 <= k < |events| :: events[k].Typed()
    ensures PastCt1(RunV1(c, s, events), epoch)
    decreases |events|
  {
    hide PastCt1, StepV1;
    if events != [] {
      StaysPastCt1(c, s, epoch, events[0]);
      RunsPastCt1(c, StepV1(c, s, events[0]), epoch, events[1..]);
    }
  }

  /** Once the first ciphertext is acknowledged it is not sent again in its epoch, whatever is sent and
      received after that. */
  lemma AckStops(c: Crypto, s: V1, m: V1Message, events: seq<Event>, coin: nat)
    requires s.Valid() && m.Typed() && m.epoch == s.epoch && forall k | 0 <= k < |events| :: events[k].Typed()
    requires
      || (s.Ct1Sampled? && m.kind == KIND_EK_CT1_ACK && m.chunk.Some?)
      || (s.EkReceivedCt1Sampled? && (m.kind == KIND_EK_CT1_ACK || m.kind == KIND_CT1_ACK))
    requires Recv(c, s, m).Ok?
    ensures var t := RunV1(c, Recv(c, s, m).value.state, events);
      t.epoch == s.epoch ==> Send(c, t, coin).Ok? && Send(c, t, coin).value.msg.kind != KIND_CT1
  {
    hide RunV1;
    AckPast(c, s, m);
    var t := RunV1(c, Recv(c, s, m).value.state, events);
    RunsPastCt1(c, Recv(c, s, m).value.state, s.epoch, events);
    if t.epoch == s.epoch {
      PastIsSilent(c, t, coin);
    }
  }

  lemma AckPast(c: Crypto, s: V1, m: V1Message)
    requires s.Valid() && m.Typed() && m.epoch == s.epoch
    requires
      || (s.Ct1Sampled? && m.kind == KIND_EK_CT1_ACK && m.chunk.Some?)
      || (s.EkReceivedCt1Sampled? && (m.kind == KIND_EK_CT1_ACK || m.kind == KIND_CT1_ACK))
    requires Recv(c, s, m).Ok?
    ensures PastCt1(Recv(c, s, m).value.state, s.epoch)
  {
    hide TryDecode, AddChunk, Encodable, ChunkOf;
  }

  lemma PastIsSilent(c: Crypto, s: V1, coin: nat)
    requires s.Valid() && (s.Ct1Acknowledged? || s.Ct2Sampled?)
    ensures Send(c, s, coin).Ok? && Send(c, s, coin).value.msg.kind != KIND_CT1
  {
    hide Encodable, ChunkOf;
  }
}
