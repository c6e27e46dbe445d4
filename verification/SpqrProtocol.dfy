/** Two honest parties running the SPQR handshake over a network that may lose, reorder and
    duplicate: everything ever sent stays available, and any of it may be delivered at any time. */
module SpqrProtocol {
  import opened Words
  import opened Results
  import opened Erasure
  import opened SpqrCrypto
  import opened SpqrStates

  // ---------------------------------------------------------------- runs

  datatype System = System(
    a: V1, b: V1,
    fromA: set<V1Message>, fromB: set<V1Message>,
    /** The epoch secrets each party has handed out. */
    keysA: map<nat, Bytes>, keysB: map<nat, Bytes>)

  datatype Action = SendA(coin: nat) | SendB(coin: nat) | DeliverToA(msg: V1Message) | DeliverToB(msg: V1Message)

  function Swap(sys: System): System {
    System(sys.b, sys.a, sys.fromB, sys.fromA, sys.keysB, sys.keysA)
  }

  function SwapAction(act: Action): Action {
    match act
    case SendA(coin) => SendB(coin)
    case SendB(coin) => SendA(coin)
    case DeliverToA(m) => DeliverToB(m)
    case DeliverToB(m) => DeliverToA(m)
  }

  function AddKey(keys: map<nat, Bytes>, key: Option<EpochSecret>): map<nat, Bytes> {
    match key
    case None => keys
    case Some(k) => keys[k.epoch := k.secret]
  }

  ghost predicate Typed(sys: System) {
    && sys.a.Valid() && sys.b.Valid()
    && (forall m | m in sys.fromA :: m.Typed())
    && (forall m | m in sys.fromB :: m.Typed())
  }

  /** Party A sends; an error leaves it as it was. */
  function DoSendA(c: Crypto, sys: System, coin: nat): System
    requires sys.a.Valid()
  {
    match Send(c, sys.a, coin)
    case Err(_) => sys
    case Ok(s) => sys.(a := s.state, fromA := sys.fromA + {s.msg}, keysA := AddKey(sys.keysA, s.key))
  }

  /** Party A receives one of the messages B ever sent, and commits only on success. */
  ghost function DoDeliverToA(c: Crypto, sys: System, m: V1Message): System
    requires sys.a.Valid() && (m in sys.fromB ==> m.Typed())
  {
    if m !in sys.fromB then sys
    else
      match Recv(c, sys.a, m)
      case Err(_) => sys
      case Ok(r) => sys.(a := r.state, keysA := AddKey(sys.keysA, r.key))
  }

  ghost function Do(c: Crypto, sys: System, act: Action): (r: System)
    requires Typed(sys)
    ensures Typed(r)
  {
    match act
    case SendA(coin) => DoSendA(c, sys, coin)
    case SendB(coin) => Swap(DoSendA(c, Swap(sys), coin))
    case DeliverToA(m) => DoDeliverToA(c, sys, m)
    case DeliverToB(m) => Swap(DoDeliverToA(c, Swap(sys), m))
  }

  ghost function Run(c: Crypto, sys: System, acts: seq<Action>): (r: System)
    requires Typed(sys)
    ensures Typed(r)
    decreases |acts|
  {
    if acts == [] then sys else Run(c, Do(c, sys, acts[0]), acts[1..])
  }

  function Init(c: Crypto, authKey: Bytes): (sys: System)
    ensures Typed(sys)
  {
    System(InitA(c, authKey), InitB(c, authKey), {}, {}, map[], map[])
  }

  // ---------------------------------------------------------------- the material of one epoch

  /** Everything an epoch exchanges is a function of the authenticator it starts from and of the
      randomness of the two parties. */
  datatype Material = Material(epoch: nat, auth: Auth, seed: nat, coin: nat)

  function Made(c: Crypto, m: Material): Keys {
    c.gen(m.seed)
  }

  function Encapsulated(c: Crypto, m: Material): Encaps {
    c.encaps1(Made(c, m).hdr, m.coin)
  }

  function Secret(c: Crypto, m: Material): Bytes {
    DeriveSckaKey(c, m.epoch, Encapsulated(c, m).ss)
  }

  /** The authenticator after the epoch's secret has been mixed in. */
  function NextAuth(c: Crypto, m: Material): Auth {
    UpdateAuth(c, m.auth, m.epoch, Secret(c, m))
  }

  function HdrPayload(c: Crypto, m: Material): Bytes {
    Made(c, m).hdr + MacHdr(c, m.auth, m.epoch, Made(c, m).hdr)
  }

  function Ct2(c: Crypto, m: Material): Bytes {
    c.encaps2(Made(c, m).ek, Encapsulated(c, m).state)
  }

  function Ct2Payload(c: Crypto, m: Material): Bytes {
    Ct2(c, m) + MacCt(c, NextAuth(c, m), m.epoch, Encapsulated(c, m).ct1 + Ct2(c, m))
  }

  lemma PayloadSizes(c: Crypto, m: Material)
    requires c.Lawful()
    ensures |HdrPayload(c, m)| == 96 && |Made(c, m).ek| == 1152 && |Made(c, m).hdr| == 64 && |Made(c, m).dk| == 2400
    ensures |Encapsulated(c, m).ct1| == 960 && |Ct2(c, m)| == 128 && |Ct2Payload(c, m)| == 160
    ensures |MacHdr(c, m.auth, m.epoch, Made(c, m).hdr)| == 32
  {
  }

  // ---------------------------------------------------------------- decoders part-way through a payload

  ghost predicate Partial(d: Decoder, payload: Bytes) {
    Encodable(payload) && 32 <= |payload| && exists s :: Holds(d, payload, s)
  }

  predicate IsChunkOf(m: V1Message, payload: Bytes) {
    Encodable(payload) && m.chunk.Some? && m.chunk.value == ChunkOf(payload, m.chunk.value.index)
  }

  lemma PartialNew(payload: Bytes)
    requires Encodable(payload) && 32 <= |payload|
    ensures Partial(NewDecoder(|payload|), payload)
  {
    hide Holds;
    HoldsNone(payload);
  }

  lemma PartialAdd(d: Decoder, payload: Bytes, m: V1Message)
    requires Partial(d, payload) && IsChunkOf(m, payload)
    ensures d.Valid()
    ensures var r := AddChunk(d, m.chunk.value);
      Partial(r, payload) && (TryDecode(r) == Ok(None) || TryDecode(r) == Ok(Some(payload)))
  {
    hide Holds, Decode, AddChunk, ChunkOf;
    var s :| Holds(d, payload, s);
    var index := m.chunk.value.index;
    PartialAddWith(d, payload, index, s);
  }

  lemma PartialAddWith(d: Decoder, payload: Bytes, index: Index, s: set<Index>)
    requires Encodable(payload) && 32 <= |payload| && Holds(d, payload, s)
    ensures d.Valid()
    ensures var r := AddChunk(d, ChunkOf(payload, index));
      && Holds(r, payload, s + {index})
      && TryDecode(r) == Ok(if |s + {index}| < ChunksNeeded(|payload|) then None else Some(payload))
  {
    hide Holds, Decode, AddChunk, ChunkOf;
    assert d.Valid() by { HoldsValid(d, payload, s); }
    HoldsAdd(d, payload, s, index);
    DecodeExact(AddChunk(d, ChunkOf(payload, index)), payload, s + {index});
  }

  lemma HoldsValid(d: Decoder, payload: Bytes, s: set<Index>)
    requires Encodable(payload) && Holds(d, payload, s)
    ensures d.Valid()
  {
  }

  // ---------------------------------------------------------------- the invariant

  /** How far the party that sends the encapsulation key has come in the epoch. */
  function EkRank(x: V1): nat {
    match x
    case KeysUnsampled(_, _) => 0
    case KeysSampled(_, _, _, _, _) => 1
    case HeaderSent(_, _, _, _, _) => 2
    case Ct1Received(_, _, _, _, _) => 3
    case EkSentCt1Received(_, _, _, _, _) => 4
    case _ => 5
  }

  /** How far the party that sends the ciphertexts has come. */
  function CtRank(y: V1): nat {
    match y
    case NoHeaderReceived(_, _, _) => 0
    case HeaderReceived(_, _, _, _) => 1
    case Ct1Sampled(_, _, _, _, _, _, _) => 2
    case EkReceivedCt1Sampled(_, _, _, _, _, _) => 3
    case Ct1Acknowledged(_, _, _, _, _, _) => 4
    case _ => 5
  }

  ghost predicate EkSide(c: Crypto, m: Material, x: V1) {
    var keys := Made(c, m);
    var ct1 := Encapsulated(c, m).ct1;
    match x
    case KeysUnsampled(epoch, auth) => epoch == m.epoch && auth == m.auth
    case KeysSampled(epoch, auth, ek, dk, enc) =>
      epoch == m.epoch && auth == m.auth && ek == keys.ek && dk == keys.dk && enc.msg == HdrPayload(c, m)
    case HeaderSent(epoch, auth, dk, enc, dec) =>
      epoch == m.epoch && auth == m.auth && dk == keys.dk && enc.msg == keys.ek && Partial(dec, ct1)
    case Ct1Received(epoch, auth, dk, c1, enc) =>
      epoch == m.epoch && auth == m.auth && dk == keys.dk && c1 == ct1 && enc.msg == keys.ek
    case EkSentCt1Received(epoch, auth, dk, c1, dec) =>
      epoch == m.epoch && auth == m.auth && dk == keys.dk && c1 == ct1 && Partial(dec, Ct2Payload(c, m))
    case NoHeaderReceived(epoch, auth, dec) =>
      epoch == m.epoch + 1 && auth == NextAuth(c, m) && dec == NewDecoder(HEADER_SIZE + MAC_SIZE)
    case _ => false
  }

  ghost predicate CtSide(c: Crypto, m: Material, y: V1) {
    var keys := Made(c, m);
    var e := Encapsulated(c, m);
    y.epoch == m.epoch &&
    match y
    case NoHeaderReceived(_, auth, dec) => auth == m.auth && Partial(dec, HdrPayload(c, m))
    case HeaderReceived(_, auth, hdr, dec) => auth == m.auth && hdr == keys.hdr && dec == NewDecoder(EK_SIZE)
    case Ct1Sampled(_, auth, hdr, encaps, ct1, enc, dec) =>
      auth == NextAuth(c, m) && hdr == keys.hdr && encaps == e.state && ct1 == e.ct1 && enc.msg == ct1 && Partial(dec, keys.ek)
    case EkReceivedCt1Sampled(_, auth, encaps, ek, ct1, enc) =>
      auth == NextAuth(c, m) && encaps == e.state && ek == keys.ek && ct1 == e.ct1 && enc.msg == ct1
    case Ct1Acknowledged(_, auth, hdr, encaps, ct1, dec) =>
      auth == NextAuth(c, m) && hdr == keys.hdr && encaps == e.state && ct1 == e.ct1 && Partial(dec, keys.ek)
    case Ct2Sampled(_, auth, enc) => auth == NextAuth(c, m) && enc.msg == Ct2Payload(c, m)
    case _ => false
  }

  /** What each side's progress says about the other's. */
  ghost predicate Stages(x: V1, y: V1) {
    && (CtRank(y) >= 1 ==> EkRank(x) >= 1)
    && (EkRank(x) >= 2 ==> CtRank(y) >= 2)
    && (CtRank(y) == 3 ==> EkRank(x) >= 2)
    && (CtRank(y) >= 4 ==> EkRank(x) >= 3)
    && (EkRank(x) >= 4 ==> CtRank(y) == 5)
    && (EkRank(x) == 0 ==> y.NoHeaderReceived? && y.receivingHdr == NewDecoder(HEADER_SIZE + MAC_SIZE))
  }

  ghost predicate EkMessage(c: Crypto, m: Material, x: V1, msg: V1Message) {
    && msg.Typed() && msg.epoch <= x.epoch
    && (msg.epoch == m.epoch ==>
         || (msg.kind == KIND_HDR && EkRank(x) >= 1 && IsChunkOf(msg, HdrPayload(c, m)))
         || (msg.kind == KIND_EK && EkRank(x) >= 2 && IsChunkOf(msg, Made(c, m).ek))
         || (msg.kind == KIND_EK_CT1_ACK && EkRank(x) >= 3 && IsChunkOf(msg, Made(c, m).ek))
         || (msg.kind == KIND_CT1_ACK && EkRank(x) >= 4))
    && (msg.epoch == m.epoch + 1 ==> msg.kind == KIND_NONE)
  }

  ghost predicate CtMessage(c: Crypto, m: Material, y: V1, msg: V1Message) {
    && msg.Typed() && msg.epoch <= m.epoch
    && (msg.epoch == m.epoch ==>
         || msg.kind == KIND_NONE
         || (msg.kind == KIND_CT1 && CtRank(y) >= 2 && IsChunkOf(msg, Encapsulated(c, m).ct1))
         || (msg.kind == KIND_CT2 && CtRank(y) == 5 && IsChunkOf(msg, Ct2Payload(c, m))))
  }

  ghost predicate Secrets(c: Crypto, m: Material, x: V1, y: V1, keysX: map<nat, Bytes>, keysY: map<nat, Bytes>) {
    && (forall e :: e in keysX <==> 1 <= e <= KeyEpoch(x))
    && (forall e :: e in keysY <==> 1 <= e <= KeyEpoch(y))
    && (forall e | e in keysX && e in keysY :: keysX[e] == keysY[e])
    && (m.epoch in keysX ==> keysX[m.epoch] == Secret(c, m))
    && (m.epoch in keysY ==> keysY[m.epoch] == Secret(c, m))
  }

  ghost predicate Paired(c: Crypto, m: Material, sys: System) {
    && m.epoch >= 1
    && EkSide(c, m, sys.a)
    && CtSide(c, m, sys.b)
    && Stages(sys.a, sys.b)
    && (forall msg | msg in sys.fromA :: EkMessage(c, m, sys.a, msg))
    && (forall msg | msg in sys.fromB :: CtMessage(c, m, sys.b, msg))
    && Secrets(c, m, sys.a, sys.b, sys.keysA, sys.keysB)
  }

  ghost predicate Inv(c: Crypto, sys: System) {
    && Typed(sys)
    && exists m :: Paired(c, m, sys) || Paired(c, m, Swap(sys))
  }

  lemma InvInit(c: Crypto, authKey: Bytes)
    requires c.Lawful()
    ensures Inv(c, Init(c, authKey))
  {
    hide Holds;
    var m := Material(1, NewAuth(c, authKey), 0, 0);
    PayloadSizes(c, m);
    PartialNew(HdrPayload(c, m));
    assert Paired(c, m, Init(c, authKey));
  }

  // ---------------------------------------------------------------- sends

  lemma EkSends(c: Crypto, m: Material, sys: System, coin: nat) returns (m': Material)
    requires c.Lawful() && Typed(sys) && Paired(c, m, sys)
    ensures Send(c, sys.a, coin).Ok?
    ensures Paired(c, m', DoSendA(c, sys, coin))
    ensures m' == if sys.a.KeysUnsampled? then m.(seed := coin) else m
  {
    hide Holds, ChunkOf, NewDecoder, Partial, Secrets;
    var x := sys.a;
    if x.KeysUnsampled? {
      m' := m.(seed := coin);
      PayloadSizes(c, m');
      assert HdrPayload(c, m') == c.gen(coin).hdr + MacHdr(c, x.auth, x.epoch, c.gen(coin).hdr);
      PartialNew(HdrPayload(c, m'));
      SecretsResampled(c, m, m', sys);
    } else {
      m' := m;
      SecretsSend(c, m, sys, coin);
    }
  }

  lemma SecretsResampled(c: Crypto, m: Material, m': Material, sys: System)
    requires sys.a.KeysUnsampled? && sys.a.epoch == m.epoch >= 1 && sys.b.epoch == m.epoch && sys.b.NoHeaderReceived?
    requires m'.epoch == m.epoch && Secrets(c, m, sys.a, sys.b, sys.keysA, sys.keysB)
    ensures forall x | EkRank(x) == 1 && x.epoch == m.epoch :: Secrets(c, m', x, sys.b, sys.keysA, sys.keysB)
  {
  }

  lemma SecretsSend(c: Crypto, m: Material, sys: System, coin: nat)
    requires sys.a.Valid() && EkSide(c, m, sys.a) && !sys.a.KeysUnsampled?
    requires Secrets(c, m, sys.a, sys.b, sys.keysA, sys.keysB)
    ensures var r := DoSendA(c, sys, coin); Secrets(c, m, r.a, r.b, r.keysA, r.keysB)
  {
    hide Partial, ChunkOf;
  }

  lemma CtSends(c: Crypto, m: Material, sys: System, coin: nat) returns (m': Material)
    requires c.Lawful() && Typed(sys) && Paired(c, m, sys)
    ensures Send(c, sys.b, coin).Ok?
    ensures Paired(c, m', Swap(DoSendA(c, Swap(sys), coin)))
    ensures m' == if sys.b.HeaderReceived? then m.(coin := coin) else m
  {
    hide Holds, ChunkOf, NewDecoder, Partial, Secrets;
    var y := sys.b;
    PayloadSizes(c, m);
    if y.HeaderReceived? {
      m' := m.(coin := coin);
      PayloadSizes(c, m');
      PartialNew(Made(c, m').ek);
      SecretsSampled(c, m, m', sys);
      assert Encapsulated(c, m') == c.encaps1(y.hdr, coin);
      assert forall msg | msg in sys.fromA :: EkMessage(c, m', sys.a, msg);
    } else {
      m' := m;
      SecretsCtSend(c, m, sys, coin);
    }
  }

  lemma SecretsSampled(c: Crypto, m: Material, m': Material, sys: System)
    requires sys.b.HeaderReceived? && sys.b.epoch == m.epoch >= 1 && sys.a.KeysSampled? && sys.a.epoch == m.epoch
    requires m'.epoch == m.epoch && Secrets(c, m, sys.a, sys.b, sys.keysA, sys.keysB)
    ensures forall y: V1 | y.Ct1Sampled? && y.epoch == m.epoch ::
      Secrets(c, m', sys.a, y, sys.keysA, sys.keysB[m.epoch := Secret(c, m')])
  {
    hide Secret;
  }

  lemma SecretsCtSend(c: Crypto, m: Material, sys: System, coin: nat)
    requires sys.b.Valid() && CtSide(c, m, sys.b) && !sys.b.HeaderReceived?
    requires Secrets(c, m, sys.a, sys.b, sys.keysA, sys.keysB)
    ensures var r := DoSendA(c, Swap(sys), coin); Secrets(c, m, r.b, r.a, r.keysB, r.keysA)
  {
    hide Partial, ChunkOf;
  }

  // ---------------------------------------------------------------- receives

  lemma EkAdvance(c: Crypto, m: Material, sys: System, x: V1)
    requires Paired(c, m, sys) && EkSide(c, m, x) && Stages(x, sys.b)
    requires EkRank(x) >= EkRank(sys.a) && x.epoch == sys.a.epoch && KeyEpoch(x) == KeyEpoch(sys.a)
    ensures Paired(c, m, sys.(a := x))
  {
    hide EkSide, CtSide, Stages, IsChunkOf, CtMessage;
  }

  lemma CtAdvance(c: Crypto, m: Material, sys: System, y: V1)
    requires Paired(c, m, sys) && CtSide(c, m, y) && Stages(sys.a, y)
    requires CtRank(y) >= CtRank(sys.b) && KeyEpoch(y) == KeyEpoch(sys.b)
    ensures Paired(c, m, sys.(b := y))
  {
    hide EkSide, CtSide, Stages, IsChunkOf, EkMessage;
  }

  /** The key sender takes in any message of the ciphertext sender. */
  lemma EkReceives(c: Crypto, m: Material, sys: System, msg: V1Message)
    requires c.Lawful() && Typed(sys) && Paired(c, m, sys) && msg in sys.fromB
    ensures Recv(c, sys.a, msg).Ok?
    ensures Paired(c, m, DoDeliverToA(c, sys, msg))
  {
    hide Holds, ChunkOf, Decode, AddChunk, NewDecoder, Partial, Secrets, EkMessage, IsChunkOf;
    var x := sys.a;
    assert CtMessage(c, m, sys.b, msg);
    PayloadSizes(c, m);
    if msg.epoch < x.epoch {
      assert DoDeliverToA(c, sys, msg) == sys;
    } else {
      match x
      case KeysUnsampled(_, _) =>
        assert DoDeliverToA(c, sys, msg) == sys;
      case KeysSampled(_, _, _, _, _) => EkGetsFirstCt1(c, m, sys, msg);
      case HeaderSent(_, _, _, _, _) => EkGetsCt1(c, m, sys, msg);
      case Ct1Received(_, _, _, _, _) => EkGetsFirstCt2(c, m, sys, msg);
      case EkSentCt1Received(_, _, _, _, _) => EkGetsCt2(c, m, sys, msg);
    }
  }

  lemma EkGetsFirstCt1(c: Crypto, m: Material, sys: System, msg: V1Message)
    requires c.Lawful() && Typed(sys) && Paired(c, m, sys) && msg in sys.fromB
    requires sys.a.KeysSampled? && msg.epoch == sys.a.epoch
    ensures Recv(c, sys.a, msg).Ok?
    ensures Paired(c, m, DoDeliverToA(c, sys, msg))
  {
    hide Holds, ChunkOf, Decode, AddChunk, NewDecoder, Partial, Secrets, EkMessage, IsChunkOf;
    assert CtMessage(c, m, sys.b, msg);
    PayloadSizes(c, m);
    if msg.kind == KIND_CT1 && msg.chunk.Some? {
      var ct1 := Encapsulated(c, m).ct1;
      PartialNew(ct1);
      PartialAdd(NewDecoder(CT1_SIZE), ct1, msg);
      EkAdvance(c, m, sys, Recv(c, sys.a, msg).value.state);
    }
  }

  lemma EkGetsCt1(c: Crypto, m: Material, sys: System, msg: V1Message)
    requires c.Lawful() && Typed(sys) && Paired(c, m, sys) && msg in sys.fromB
    requires sys.a.HeaderSent? && msg.epoch == sys.a.epoch
    ensures Recv(c, sys.a, msg).Ok?
    ensures Paired(c, m, DoDeliverToA(c, sys, msg))
  {
    hide Holds, ChunkOf, Decode, AddChunk, NewDecoder, Partial, Secrets, EkMessage, IsChunkOf;
    assert CtMessage(c, m, sys.b, msg);
    if msg.kind == KIND_CT1 && msg.chunk.Some? {
      PartialAdd(sys.a.receivingCt1, Encapsulated(c, m).ct1, msg);
      EkAdvance(c, m, sys, Recv(c, sys.a, msg).value.state);
    }
  }

  lemma EkGetsFirstCt2(c: Crypto, m: Material, sys: System, msg: V1Message)
    requires c.Lawful() && Typed(sys) && Paired(c, m, sys) && msg in sys.fromB
    requires sys.a.Ct1Received? && msg.epoch == sys.a.epoch
    ensures Recv(c, sys.a, msg).Ok?
    ensures Paired(c, m, DoDeliverToA(c, sys, msg))
  {
    hide Holds, ChunkOf, Decode, AddChunk, NewDecoder, Partial, Secrets, EkMessage, IsChunkOf;
    assert CtMessage(c, m, sys.b, msg);
    PayloadSizes(c, m);
    if msg.kind == KIND_CT2 && msg.chunk.Some? {
      PartialNew(Ct2Payload(c, m));
      PartialAdd(NewDecoder(CT2_SIZE + MAC_SIZE), Ct2Payload(c, m), msg);
      EkAdvance(c, m, sys, Recv(c, sys.a, msg).value.state);
    }
  }

  /** Decapsulation gives the encapsulated secret, so the tag verifies. */
  lemma FinishesCt2(c: Crypto, m: Material, x: V1)
    requires c.Lawful() && x.EkSentCt1Received? && EkSide(c, m, x)
    ensures var p := Ct2Payload(c, m);
      && |p| == CT2_SIZE + MAC_SIZE
      && FinishCt2(c, x, p[..CT2_SIZE], p[CT2_SIZE..]) ==
         Ok(Received(Some(EpochSecret(m.epoch, Secret(c, m))),
                     NoHeaderReceived(m.epoch + 1, NextAuth(c, m), NewDecoder(HEADER_SIZE + MAC_SIZE))))
  {
    hide Partial, NewDecoder;
    PayloadSizes(c, m);
    assert c.Recovers(m.seed, m.coin);
    var p := Ct2Payload(c, m);
    assert p[..CT2_SIZE] == Ct2(c, m);
    assert p[CT2_SIZE..] == MacCt(c, NextAuth(c, m), m.epoch, Encapsulated(c, m).ct1 + Ct2(c, m));
  }

  lemma EkGetsCt2(c: Crypto, m: Material, sys: System, msg: V1Message)
    requires c.Lawful() && Typed(sys) && Paired(c, m, sys) && msg in sys.fromB
    requires sys.a.EkSentCt1Received? && msg.epoch == sys.a.epoch
    ensures Recv(c, sys.a, msg).Ok?
    ensures Paired(c, m, DoDeliverToA(c, sys, msg))
  {
    hide Holds, ChunkOf, Decode, AddChunk, NewDecoder, Partial, Secrets, FinishCt2, IsChunkOf, Ct2Payload;
    assert CtMessage(c, m, sys.b, msg);
    if msg.kind == KIND_CT2 && msg.chunk.Some? {
      PartialAdd(sys.a.receivingCt2, Ct2Payload(c, m), msg);
      FinishesCt2(c, m, sys.a);
      var x := Recv(c, sys.a, msg).value.state;
      if x.NoHeaderReceived? {
        SecretsFinished(c, m, sys);
      } else {
        EkAdvance(c, m, sys, x);
      }
    }
  }

  lemma SecretsFinished(c: Crypto, m: Material, sys: System)
    requires sys.b.Ct2Sampled? && sys.b.epoch == m.epoch >= 1 && sys.a.EkSentCt1Received? && sys.a.epoch == m.epoch
    requires Secrets(c, m, sys.a, sys.b, sys.keysA, sys.keysB)
    ensures forall x: V1 | x.NoHeaderReceived? && x.epoch == m.epoch + 1 ::
      Secrets(c, m, x, sys.b, sys.keysA[m.epoch := Secret(c, m)], sys.keysB)
  {
    hide Secret;
  }

  /** The ciphertext sender takes in any message of the key sender. When the key sender is
      already in the next epoch, the two change roles. */
  lemma CtReceives(c: Crypto, m: Material, sys: System, msg: V1Message) returns (m': Material)
    requires c.Lawful() && Typed(sys) && Paired(c, m, sys) && msg in sys.fromA
    ensures Recv(c, sys.b, msg).Ok?
    ensures var r := Swap(DoDeliverToA(c, Swap(sys), msg));
      || (m' == m && Paired(c, m, r))
      || (m'.epoch == m.epoch + 1 && Paired(c, m', Swap(r)) && r.b.KeysUnsampled? && r.a == sys.a && r.keysA == sys.keysA && r.keysB == sys.keysB)
  {
    hide Holds, ChunkOf, Decode, AddChunk, NewDecoder, Partial, Secrets, CtMessage, IsChunkOf;
    var y := sys.b;
    m' := m;
    assert EkMessage(c, m, sys.a, msg);
    assert Swap(Swap(sys)) == sys;
    if msg.epoch > y.epoch {
      m' := ChangeRoles(c, m, sys, msg);
    } else if msg.epoch == y.epoch {
      match y
      case NoHeaderReceived(_, _, _) => CtGetsHdr(c, m, sys, msg);
      case HeaderReceived(_, _, _, _) =>
      case Ct1Sampled(_, _, _, _, _, _, _) => CtGetsEk(c, m, sys, msg);
      case EkReceivedCt1Sampled(_, _, _, _, _, _) => CtGetsAck(c, m, sys, msg);
      case Ct1Acknowledged(_, _, _, _, _, _) => CtGetsLateEk(c, m, sys, msg);
      case Ct2Sampled(_, _, _) =>
    }
  }

  lemma ChangeRoles(c: Crypto, m: Material, sys: System, msg: V1Message) returns (m': Material)
    requires c.Lawful() && Typed(sys) && Paired(c, m, sys) && msg in sys.fromA && msg.epoch > sys.b.epoch
    ensures Recv(c, sys.b, msg).Ok?
    ensures var r := DoDeliverToA(c, Swap(sys), msg);
      m'.epoch == m.epoch + 1 && Paired(c, m', r) && r.a.KeysUnsampled? && r.keysA == sys.keysB
  {
    hide Holds, ChunkOf, Decode, AddChunk, Partial, IsChunkOf;
    assert EkMessage(c, m, sys.a, msg);
    m' := Material(m.epoch + 1, NextAuth(c, m), 0, 0);
    PayloadSizes(c, m');
    PartialNew(HdrPayload(c, m'));
  }

  lemma ReadsHeader(c: Crypto, m: Material)
    requires c.Lawful()
    ensures var p := HdrPayload(c, m);
      && |p| == HEADER_SIZE + MAC_SIZE
      && p[..HEADER_SIZE] == Made(c, m).hdr
      && p[HEADER_SIZE..] == MacHdr(c, m.auth, m.epoch, Made(c, m).hdr) && |p[HEADER_SIZE..]| == MAC_SIZE
  {
    PayloadSizes(c, m);
  }

  lemma CtGetsHdr(c: Crypto, m: Material, sys: System, msg: V1Message)
    requires c.Lawful() && Typed(sys) && Paired(c, m, sys) && msg in sys.fromA
    requires sys.b.NoHeaderReceived? && msg.epoch == sys.b.epoch
    ensures Recv(c, sys.b, msg).Ok?
    ensures Paired(c, m, Swap(DoDeliverToA(c, Swap(sys), msg)))
  {
    hide Holds, ChunkOf, Decode, AddChunk, NewDecoder, Partial, Secrets, CtMessage, IsChunkOf, HdrPayload;
    assert EkMessage(c, m, sys.a, msg);
    if msg.kind == KIND_HDR && msg.chunk.Some? {
      PartialAdd(sys.b.receivingHdr, HdrPayload(c, m), msg);
      ReadsHeader(c, m);
      CtAdvance(c, m, sys, Recv(c, sys.b, msg).value.state);
    }
  }

  lemma MakesCt2(c: Crypto, m: Material)
    requires c.Lawful()
    ensures Ct2State(c, m.epoch, NextAuth(c, m), Encapsulated(c, m).state, Made(c, m).ek, Encapsulated(c, m).ct1)
         == Ok(Ct2Sampled(m.epoch, NextAuth(c, m), Encoder(Ct2Payload(c, m), 0)))
    ensures c.ekMatches(Made(c, m).ek, Made(c, m).hdr)
  {
    PayloadSizes(c, m);
  }

  lemma CtGetsEk(c: Crypto, m: Material, sys: System, msg: V1Message)
    requires c.Lawful() && Typed(sys) && Paired(c, m, sys) && msg in sys.fromA
    requires sys.b.Ct1Sampled? && msg.epoch == sys.b.epoch
    ensures Recv(c, sys.b, msg).Ok?
    ensures Paired(c, m, Swap(DoDeliverToA(c, Swap(sys), msg)))
  {
    hide Holds, ChunkOf, Decode, AddChunk, NewDecoder, Partial, Secrets, CtMessage, IsChunkOf, Ct2State, Ct2Payload, NextAuth;
    assert EkMessage(c, m, sys.a, msg);
    if (msg.kind == KIND_EK || msg.kind == KIND_EK_CT1_ACK) && msg.chunk.Some? {
      PartialAdd(sys.b.receivingEk, Made(c, m).ek, msg);
      MakesCt2(c, m);
      CtAdvance(c, m, sys, Recv(c, sys.b, msg).value.state);
    }
  }

  lemma CtGetsAck(c: Crypto, m: Material, sys: System, msg: V1Message)
    requires c.Lawful() && Typed(sys) && Paired(c, m, sys) && msg in sys.fromA
    requires sys.b.EkReceivedCt1Sampled? && msg.epoch == sys.b.epoch
    ensures Recv(c, sys.b, msg).Ok?
    ensures Paired(c, m, Swap(DoDeliverToA(c, Swap(sys), msg)))
  {
    hide Holds, ChunkOf, Decode, AddChunk, NewDecoder, Partial, Secrets, CtMessage, IsChunkOf, Ct2State, Ct2Payload, NextAuth;
    assert EkMessage(c, m, sys.a, msg);
    MakesCt2(c, m);
    CtAdvance(c, m, sys, Recv(c, sys.b, msg).value.state);
  }

  lemma CtGetsLateEk(c: Crypto, m: Material, sys: System, msg: V1Message)
    requires c.Lawful() && Typed(sys) && Paired(c, m, sys) && msg in sys.fromA
    requires sys.b.Ct1Acknowledged? && msg.epoch == sys.b.epoch
    ensures Recv(c, sys.b, msg).Ok?
    ensures Paired(c, m, Swap(DoDeliverToA(c, Swap(sys), msg)))
  {
    hide Holds, ChunkOf, Decode, AddChunk, NewDecoder, Partial, Secrets, CtMessage, IsChunkOf, Ct2State, Ct2Payload, NextAuth;
    assert EkMessage(c, m, sys.a, msg);
    if (msg.kind == KIND_EK || msg.kind == KIND_EK_CT1_ACK) && msg.chunk.Some? {
      PartialAdd(sys.b.receivingEk, Made(c, m).ek, msg);
      MakesCt2(c, m);
      CtAdvance(c, m, sys, Recv(c, sys.b, msg).value.state);
    }
  }

  // ---------------------------------------------------------------- every run

  lemma SwapDo(c: Crypto, sys: System, act: Action)
    requires Typed(sys)
    ensures Do(c, Swap(sys), SwapAction(act)) == Swap(Do(c, sys, act))
  {
  }

  /** The randomness that a step brings in: the key sender's on its first send of the epoch, the ciphertext
      sender's on encapsulating. */
  function Drawn(m: Material, sys: System, act: Action): Material {
    if act.SendA? && sys.a.KeysUnsampled? then m.(seed := act.coin)
    else if act.SendB? && sys.b.HeaderReceived? then m.(coin := act.coin)
    else m
  }

  lemma PairedStep(c: Crypto, m: Material, sys: System, act: Action) returns (m': Material)
    requires c.Lawful() && Typed(sys) && Paired(c, m, sys)
    ensures var r := Do(c, sys, act);
      || (Paired(c, m', r) && m' == Drawn(m, sys, act))
      || (Paired(c, m', Swap(r)) && m'.epoch == m.epoch + 1 && r.b.KeysUnsampled? && r.a == sys.a && r.keysA == sys.keysA && r.keysB == sys.keysB)
  {
    hide Paired, Send, Recv;
    m' := m;
    match act
    case SendA(coin) => m' := EkSends(c, m, sys, coin);
    case SendB(coin) => m' := CtSends(c, m, sys, coin);
    case DeliverToA(msg) => if msg in sys.fromB { EkReceives(c, m, sys, msg); }
    case DeliverToB(msg) => if msg in sys.fromA { m' := CtReceives(c, m, sys, msg); }
  }

  lemma InvStep(c: Crypto, sys: System, act: Action)
    requires c.Lawful() && Inv(c, sys)
    ensures Inv(c, Do(c, sys, act))
  {
    hide Paired, Do;
    var m :| Paired(c, m, sys) || Paired(c, m, Swap(sys));
    if Paired(c, m, sys) {
      var m' := PairedStep(c, m, sys, act);
    } else {
      SwapDo(c, sys, act);
      var m' := PairedStep(c, m, Swap(sys), SwapAction(act));
    }
  }

  lemma {:induction false} InvRun(c: Crypto, sys: System, acts: seq<Action>)
    requires c.Lawful() && Inv(c, sys)
    ensures Inv(c, Run(c, sys, acts))
    decreases |acts|
  {
    hide Inv;
    assert Typed(sys) by { InvTyped(c, sys); }
    if acts != [] {
      InvStep(c, sys, acts[0]);
      InvRun(c, Do(c, sys, acts[0]), acts[1..]);
    }
  }

  lemma InvTyped(c: Crypto, sys: System)
    requires Inv(c, sys)
    ensures Typed(sys)
  {
  }

  predicate SendsEk(s: V1) {
    s.KeysUnsampled? || s.KeysSampled? || s.HeaderSent? || s.Ct1Received? || s.EkSentCt1Received?
  }

  /** In every run the epochs differ by at most one. When they are equal, exactly one party is
      on the key-sending side; when they differ, the leader waits for a header and the follower
      is still sending the second ciphertext. */
  lemma EpochsAndRoles(c: Crypto, authKey: Bytes, acts: seq<Action>)
    requires c.Lawful()
    ensures var sys := Run(c, Init(c, authKey), acts);
      var a, b := sys.a, sys.b;
      && (a.epoch == b.epoch || a.epoch == b.epoch + 1 || b.epoch == a.epoch + 1)
      && (a.epoch == b.epoch ==> SendsEk(a) != SendsEk(b))
      && (a.epoch > b.epoch ==> a.NoHeaderReceived? && b.Ct2Sampled?)
      && (b.epoch > a.epoch ==> b.NoHeaderReceived? && a.Ct2Sampled?)
  {
    hide Run, Partial, NewDecoder, Secrets;
    InvInit(c, authKey);
    InvRun(c, Init(c, authKey), acts);
  }

  /** Each side stops sending the first ciphertext, or the encapsulation key, only once the peer holds
      all of it. */
  lemma StopsOnlyWhenHeld(c: Crypto, authKey: Bytes, acts: seq<Action>)
    requires c.Lawful()
    ensures var sys := Run(c, Init(c, authKey), acts); StopsAfter(sys.a, sys.b) && StopsAfter(sys.b, sys.a)
  {
    hide Run, Partial, NewDecoder, Secrets;
    InvInit(c, authKey);
    InvRun(c, Init(c, authKey), acts);
  }

  ghost predicate StopsAfter(x: V1, y: V1) {
    && (x.epoch == y.epoch && (x.Ct1Acknowledged? || x.Ct2Sampled?) ==> y.Ct1Received? || y.EkSentCt1Received?)
    && (x.Ct1Acknowledged? && y.Ct1Received? ==> x.ct1 == y.ct1)
    && (x.EkSentCt1Received? ==> y.Ct2Sampled? && y.epoch == x.epoch)
  }

  /** No message that was ever sent makes the peer's state machine fail, however late or how
      often it arrives, and sending never fails. */
  lemma NeverErrs(c: Crypto, authKey: Bytes, acts: seq<Action>)
    requires c.Lawful()
    ensures var sys := Run(c, Init(c, authKey), acts);
      && (forall m | m in sys.fromB :: Recv(c, sys.a, m).Ok?)
      && (forall m | m in sys.fromA :: Recv(c, sys.b, m).Ok?)
      && (forall coin :: Send(c, sys.a, coin).Ok? && Send(c, sys.b, coin).Ok?)
  {
    hide Run, Paired, Recv, Send;
    var sys := Run(c, Init(c, authKey), acts);
    InvInit(c, authKey);
    InvRun(c, Init(c, authKey), acts);
    var m :| Paired(c, m, sys) || Paired(c, m, Swap(sys));
    if Paired(c, m, sys) {
      PairedNeverErrs(c, m, sys);
    } else {
      PairedNeverErrs(c, m, Swap(sys));
    }
  }

  lemma PairedNeverErrs(c: Crypto, m: Material, sys: System)
    requires c.Lawful() && Typed(sys) && Paired(c, m, sys)
    ensures forall msg | msg in sys.fromB :: Recv(c, sys.a, msg).Ok?
    ensures forall msg | msg in sys.fromA :: Recv(c, sys.b, msg).Ok?
    ensures forall coin :: Send(c, sys.a, coin).Ok? && Send(c, sys.b, coin).Ok?
  {
    hide Paired, Recv, Send;
    forall msg | msg in sys.fromB
      ensures Recv(c, sys.a, msg).Ok?
    {
      EkReceives(c, m, sys, msg);
    }
    forall msg | msg in sys.fromA
      ensures Recv(c, sys.b, msg).Ok?
    {
      var m' := CtReceives(c, m, sys, msg);
    }
    forall coin
      ensures Send(c, sys.a, coin).Ok? && Send(c, sys.b, coin).Ok?
    {
      var p := EkSends(c, m, sys, coin);
      var q := CtSends(c, m, sys, coin);
    }
  }

  lemma InvSecrets(c: Crypto, sys: System)
    requires Inv(c, sys)
    ensures forall e | e in sys.keysA && e in sys.keysB :: sys.keysA[e] == sys.keysB[e]
    ensures forall e :: e in sys.keysA <==> 1 <= e <= KeyEpoch(sys.a)
    ensures forall e :: e in sys.keysB <==> 1 <= e <= KeyEpoch(sys.b)
  {
    hide Partial, NewDecoder, EkSide, CtSide, EkMessage, CtMessage, Typed;
  }

  /** Whenever both parties have handed out the secret of an epoch it is the same secret, each has
      handed out exactly the epochs its state says, and with equally many their authenticators agree. */
  lemma SecretsAgree(c: Crypto, authKey: Bytes, acts: seq<Action>)
    requires c.Lawful()
    ensures var sys := Run(c, Init(c, authKey), acts);
      && (forall e | e in sys.keysA && e in sys.keysB :: sys.keysA[e] == sys.keysB[e])
      && (forall e :: e in sys.keysA <==> 1 <= e <= KeyEpoch(sys.a))
      && (forall e :: e in sys.keysB <==> 1 <= e <= KeyEpoch(sys.b))
      && (KeyEpoch(sys.a) == KeyEpoch(sys.b) ==> sys.a.auth == sys.b.auth)
  {
    hide Run, Inv;
    InvInit(c, authKey);
    InvRun(c, Init(c, authKey), acts);
    var sys := Run(c, Init(c, authKey), acts);
    InvSecrets(c, sys);
    if KeyEpoch(sys.a) == KeyEpoch(sys.b) {
      InvAuth(c, sys);
    }
  }

  lemma InvAuth(c: Crypto, sys: System)
    requires Inv(c, sys) && KeyEpoch(sys.a) == KeyEpoch(sys.b)
    ensures sys.a.auth == sys.b.auth
  {
    hide Partial, NewDecoder, Secrets, EkMessage, CtMessage, Typed;
  }

  /** The laws asked of the primitives can be met. */
  lemma LawsAreConsistent()
    ensures exists c: Crypto :: c.Lawful()
  {
    var c := Crypto(
      _ => Keys(ZeroBytes(HEADER_SIZE), ZeroBytes(EK_SIZE), ZeroBytes(DK_SIZE)),
      (_, _) => true,
      (_, _) => Encaps(ZeroBytes(CT1_SIZE), EncapsState(ZeroBytes(32), ZeroBytes(32), ZeroBytes(32)), ZeroBytes(32)),
      (_, _) => ZeroBytes(CT2_SIZE),
      (_, _, _) => ZeroBytes(32),
      (_, _, _, _) => ZeroBytes(32),
      (_, _, _) => ZeroBytes(MAC_SIZE));
    assert c.Lawful();
  }
}
