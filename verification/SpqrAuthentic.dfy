/** What the handshake accepts from anyone at all, in terms of the primitives: a header, an encapsulation
    key or a second ciphertext that does not carry its tag, or does not fit what was authenticated
    before, is refused (spqr/authenticator.go, spqr/v1_unchunked.go). */
module SpqrAuthentic {
  import opened Words
  import opened Results
  import opened Erasure
  import opened SpqrCrypto
  import opened SpqrStates
  import P = SpqrProtocol

  // ---------------------------------------------------------------- what a payload has to be

  /** The header under the tag of the authenticator and the epoch. */
  ghost predicate GenuineHdr(c: Crypto, s: V1, p: Bytes)
    requires s.NoHeaderReceived?
  {
    && |p| == HEADER_SIZE + MAC_SIZE
    && p[HEADER_SIZE..] == c.hmac(s.auth.macKey, HdrMac(s.epoch), p[..HEADER_SIZE])
  }

  /** The secret of the epoch, from what decapsulation gives. */
  function SecretFrom(c: Crypto, epoch: nat, shared: Bytes): Bytes {
    c.hkdf(shared, ZeroBytes(32), SckaKey(epoch), 0)
  }

  /** The block of the authenticator after a secret: 0 for its root key, 1 for its tag key. */
  function AuthBlock(c: Crypto, epoch: nat, rootKey: Bytes, secret: Bytes, block: nat): Bytes {
    c.hkdf(rootKey + secret, ZeroBytes(32), AuthUpdate(epoch), block)
  }

  function Ct2Secret(c: Crypto, s: V1, ct2: Bytes): Bytes
    requires s.EkSentCt1Received?
  {
    SecretFrom(c, s.epoch, c.decaps(s.dk, s.ct1, ct2))
  }

  function Ct2MacKey(c: Crypto, s: V1, ct2: Bytes): Bytes
    requires s.EkSentCt1Received?
  {
    AuthBlock(c, s.epoch, s.auth.rootKey, Ct2Secret(c, s, ct2), 1)
  }

  /** The second ciphertext under a tag of both ciphertexts, by the authenticator that has taken in the
      secret they carry. */
  ghost predicate GenuineCt2(c: Crypto, s: V1, p: Bytes)
    requires s.EkSentCt1Received?
  {
    && |p| == CT2_SIZE + MAC_SIZE
    && p[CT2_SIZE..] == c.hmac(Ct2MacKey(c, s, p[..CT2_SIZE]), CtMac(s.epoch), s.ct1 + p[..CT2_SIZE])
  }

  // ---------------------------------------------------------------- exactly when a completed payload is taken

  lemma HdrExactly(c: Crypto, s: V1, m: V1Message, p: Bytes)
    requires s.Valid() && m.Typed() && s.NoHeaderReceived? && m.epoch == s.epoch && m.kind == KIND_HDR && m.chunk.Some?
    requires TryDecode(AddChunk(s.receivingHdr, m.chunk.value)) == Ok(Some(p))
    ensures var r := Recv(c, s, m);
      && (r.Ok? <==> GenuineHdr(c, s, p))
      && (r.Ok? ==> r.value.key == None && r.value.state == HeaderReceived(s.epoch, s.auth, p[..HEADER_SIZE], NewDecoder(EK_SIZE)))
  {
    hide TryDecode, AddChunk, NewDecoder;
  }

  lemma Ct2Exactly(c: Crypto, s: V1, m: V1Message, p: Bytes)
    requires s.Valid() && m.Typed() && s.EkSentCt1Received? && m.epoch == s.epoch && m.kind == KIND_CT2 && m.chunk.Some?
    requires |s.dk| == DK_SIZE && |s.ct1| == CT1_SIZE
    requires TryDecode(AddChunk(s.receivingCt2, m.chunk.value)) == Ok(Some(p))
    ensures var r := Recv(c, s, m);
      && (r.Ok? <==> GenuineCt2(c, s, p))
      && (r.Ok? ==>
           var secret := Ct2Secret(c, s, p[..CT2_SIZE]);
           && r.value.key == Some(EpochSecret(s.epoch, secret))
           && r.value.state.NoHeaderReceived? && r.value.state.epoch == s.epoch + 1
           && r.value.state.receivingHdr == NewDecoder(HEADER_SIZE + MAC_SIZE)
           && r.value.state.auth == Auth(AuthBlock(c, s.epoch, s.auth.rootKey, secret, 0), AuthBlock(c, s.epoch, s.auth.rootKey, secret, 1)))
  {
    hide TryDecode, AddChunk, NewDecoder;
  }

  /** The second ciphertext's payload, as it is made for an encapsulation key. */
  function MadeCt2(c: Crypto, s: V1, ek: Bytes): Bytes
    requires s.Ct1Sampled? || s.Ct1Acknowledged? || s.EkReceivedCt1Sampled?
  {
    var ct2 := c.encaps2(ek, s.encaps);
    ct2 + c.hmac(s.auth.macKey, CtMac(s.epoch), s.ct1 + ct2)
  }

  lemma EkExactly(c: Crypto, s: V1, m: V1Message, ek: Bytes)
    requires c.Sizes() && s.Valid() && m.Typed() && (s.Ct1Sampled? || s.Ct1Acknowledged?) && m.epoch == s.epoch
    requires (m.kind == KIND_EK || m.kind == KIND_EK_CT1_ACK) && m.chunk.Some?
    requires TryDecode(AddChunk(s.receivingEk, m.chunk.value)) == Ok(Some(ek)) && |ek| == EK_SIZE
    ensures var r := Recv(c, s, m);
      && (r.Ok? <==> c.ekMatches(ek, s.hdr))
      && (r.Ok? ==>
           && r.value.key == None && r.value.state.epoch == s.epoch && r.value.state.auth == s.auth
           && (if s.Ct1Sampled? && m.kind == KIND_EK
               then r.value.state == EkReceivedCt1Sampled(s.epoch, s.auth, s.encaps, ek, s.ct1, s.sendingCt1)
               else r.value.state == Ct2Sampled(s.epoch, s.auth, Encoder(MadeCt2(c, s, ek), 0))))
  {
    hide TryDecode, AddChunk;
  }

  /** The first send of an epoch makes a key pair and tags its header. */
  lemma SendsTaggedHeader(c: Crypto, s: V1, coin: nat)
    requires c.Sizes() && s.KeysUnsampled?
    ensures var r := Send(c, s, coin);
      var keys := c.gen(coin);
      var payload := keys.hdr + c.hmac(s.auth.macKey, HdrMac(s.epoch), keys.hdr);
      && r.Ok? && r.value.key == None
      && r.value.state == KeysSampled(s.epoch, s.auth, keys.ek, keys.dk, Encoder(payload, 1))
      && r.value.msg == V1Message(s.epoch, KIND_HDR, Some(ChunkOf(payload, 0)))
  {
    hide ChunkOf;
  }

  /** Having a header, whoever made it, a party encapsulates to it, hands out the secret and takes it into
      its authenticator. */
  lemma SendsSecret(c: Crypto, s: V1, coin: nat)
    requires c.Sizes() && s.Valid() && s.HeaderReceived? && |s.hdr| == HEADER_SIZE
    ensures var r := Send(c, s, coin);
      var e := c.encaps1(s.hdr, coin);
      var secret := SecretFrom(c, s.epoch, e.ss);
      && r.Ok? && r.value.key == Some(EpochSecret(s.epoch, secret))
      && r.value.msg == V1Message(s.epoch, KIND_CT1, Some(ChunkOf(e.ct1, 0)))
      && r.value.state == Ct1Sampled(s.epoch, Auth(AuthBlock(c, s.epoch, s.auth.rootKey, secret, 0), AuthBlock(c, s.epoch, s.auth.rootKey, secret, 1)),
                                     s.hdr, e.state, e.ct1, Encoder(e.ct1, 1), s.receivingEk)
  {
    hide ChunkOf;
  }

  // ---------------------------------------------------------------- nothing else moves a state on

  /** The payload that a message completes, if it does. */
  function Completes(d: Decoder, m: V1Message): Option<Bytes>
    requires d.Valid() && m.Typed()
  {
    if m.chunk.None? then None
    else
      var r := TryDecode(AddChunk(d, m.chunk.value));
      if r.Ok? then r.value else None
  }

  /** Whatever arrives, from whomever: a header, a key or a second ciphertext is taken only from a payload
      that is complete and carries its tag, or fits the header that did. */
  lemma OnlyGenuine(c: Crypto, s: V1, m: V1Message)
    requires s.Valid() && m.Typed() && Recv(c, s, m).Ok?
    ensures var n := Recv(c, s, m).value.state;
      && (s.NoHeaderReceived? && !n.NoHeaderReceived? ==>
           var p := Completes(s.receivingHdr, m);
           p.Some? && GenuineHdr(c, s, p.value) && n.HeaderReceived? && n.hdr == p.value[..HEADER_SIZE])
      && (s.EkSentCt1Received? && !n.EkSentCt1Received? ==>
           var p := Completes(s.receivingCt2, m);
           p.Some? && GenuineCt2(c, s, p.value) && Recv(c, s, m).value.key == Some(EpochSecret(s.epoch, Ct2Secret(c, s, p.value[..CT2_SIZE]))))
      && ((s.Ct1Sampled? || s.Ct1Acknowledged?) && (n.EkReceivedCt1Sampled? || n.Ct2Sampled?) ==>
           var p := Completes(s.receivingEk, m);
           p.Some? && c.ekMatches(p.value, s.hdr) && (n.EkReceivedCt1Sampled? ==> n.ek == p.value))
      && (Recv(c, s, m).value.key.Some? ==> s.EkSentCt1Received? && !n.EkSentCt1Received?)
  {
    hide TryDecode, AddChunk, NewDecoder, Encodable;
  }

  // ---------------------------------------------------------------- forgery

  /** Two different inputs of the tag function with the same tag. */
  ghost predicate MacCollides(c: Crypto, k: Bytes, l: MacLabel, d: Bytes, k': Bytes, l': MacLabel, d': Bytes) {
    (k, l, d) != (k', l', d') && c.hmac(k, l, d) == c.hmac(k', l', d')
  }

  /** A party that waits for the header of its honest peer is given anything by anyone. If it takes a
      header under the tag the peer made, it is the peer's header, or two headers have the same tag. */
  lemma NoForgedHeader(c: Crypto, e: P.Material, s: V1, m: V1Message)
    requires c.Lawful() && s.Valid() && m.Typed() && s.NoHeaderReceived? && s.epoch == e.epoch && s.auth == e.auth
    requires Recv(c, s, m).Ok? && Recv(c, s, m).value.state.HeaderReceived?
    requires Completes(s.receivingHdr, m).Some?
    requires var p := Completes(s.receivingHdr, m).value; |p| == HEADER_SIZE + MAC_SIZE && p[HEADER_SIZE..] == P.HdrPayload(c, e)[|P.Made(c, e).hdr|..]
    ensures var p := Completes(s.receivingHdr, m).value;
      || (p == P.HdrPayload(c, e) && Recv(c, s, m).value.state.hdr == c.gen(e.seed).hdr)
      || MacCollides(c, e.auth.macKey, HdrMac(e.epoch), c.gen(e.seed).hdr, e.auth.macKey, HdrMac(e.epoch), p[..HEADER_SIZE])
  {
    hide TryDecode, AddChunk, NewDecoder, Completes, Recv;
    OnlyGenuine(c, s, m);
    P.ReadsHeader(c, e);
    var p := Completes(s.receivingHdr, m).value;
    assert p == p[..HEADER_SIZE] + p[HEADER_SIZE..];
  }

  /** The key sender, having sent its key and received the first ciphertext, is given anything by anyone. If
      it finishes the epoch under the tag the peer made, it has the peer's second ciphertext and the
      peer's secret, or two inputs have the same tag. */
  lemma NoForgedCiphertext(c: Crypto, e: P.Material, s: V1, m: V1Message)
    requires c.Lawful() && s.Valid() && m.Typed() && s.EkSentCt1Received? && s.epoch == e.epoch && s.auth == e.auth
    requires s.dk == c.gen(e.seed).dk && s.ct1 == P.Encapsulated(c, e).ct1
    requires Recv(c, s, m).Ok? && !Recv(c, s, m).value.state.EkSentCt1Received?
    requires Completes(s.receivingCt2, m).Some?
    requires var p := Completes(s.receivingCt2, m).value; |p| == CT2_SIZE + MAC_SIZE && p[CT2_SIZE..] == P.Ct2Payload(c, e)[|P.Ct2(c, e)|..]
    ensures var p := Completes(s.receivingCt2, m).value;
      || (p == P.Ct2Payload(c, e) && Recv(c, s, m).value.key == Some(EpochSecret(e.epoch, P.Secret(c, e))))
      || MacCollides(c, P.NextAuth(c, e).macKey, CtMac(e.epoch), s.ct1 + P.Ct2(c, e),
                     Ct2MacKey(c, s, p[..CT2_SIZE]), CtMac(e.epoch), s.ct1 + p[..CT2_SIZE])
  {
    hide TryDecode, AddChunk, NewDecoder, Completes, Recv;
    OnlyGenuine(c, s, m);
    P.PayloadSizes(c, e);
    var p := Completes(s.receivingCt2, m).value;
    var ct2 := p[..CT2_SIZE];
    assert p == ct2 + p[CT2_SIZE..];
    assert P.Ct2Payload(c, e)[CT2_SIZE..] == c.hmac(P.NextAuth(c, e).macKey, CtMac(e.epoch), s.ct1 + P.Ct2(c, e));
    if s.ct1 + ct2 == s.ct1 + P.Ct2(c, e) {
      assert ct2 == (s.ct1 + ct2)[|s.ct1|..] == P.Ct2(c, e);
      assert c.Recovers(e.seed, e.coin);
    }
  }
}
