/** The state of spqr/state.go: the handshake and the chain together, from which every message
    gets its salt. Version 1 on both sides; a failing call leaves the state as it was, because
    callers work on a copy and keep it only on success. */
module SpqrState {
  import opened Words
  import opened Results
  import opened Erasure
  import opened SpqrCrypto
  import opened SpqrStates
  import opened SpqrHistory
  import opened SpqrChain

  datatype Negotiation = Negotiation(authKey: Bytes, dir: Direction, mayDisable: bool, params: Params)

  datatype State = State(v1: V1, chain: Option<Chain>, negotiation: Option<Negotiation>)

  function NewState(c: Crypto, vn: Negotiation): State {
    State(if vn.dir == A2B then InitA(c, vn.authKey) else InitB(c, vn.authKey), None, Some(vn))
  }

  function FromNegotiation(c: Crypto, vn: Negotiation): Chain {
    NewChain(c, vn.authKey, vn.dir, vn.params)
  }

  /** Before the peer's first message there is a chain to send with only if version 1 is required. */
  function ChainForSend(c: Crypto, s: State): Checked<Option<Chain>> {
    if s.chain.Some? then Ok(s.chain)
    else if s.negotiation.None? then Err(ChainNotAvailable)
    else if s.negotiation.value.mayDisable then Ok(None)
    else Ok(Some(FromNegotiation(c, s.negotiation.value)))
  }

  function ChainForRecv(c: Crypto, s: State): Checked<Chain> {
    if s.chain.Some? then Ok(s.chain.value)
    else if s.negotiation.None? then Err(ChainNotAvailable)
    else Ok(FromNegotiation(c, s.negotiation.value))
  }

  function WithSecret(c: Crypto, ch: Chain, key: Option<EpochSecret>): Checked<Chain> {
    match key
    case None => Ok(ch)
    case Some(k) => AddEpoch(c, ch, k.epoch, k.secret)
  }

  /** A message as it goes over the wire, and the salt that went with it. */
  datatype Wire = Wire(msg: V1Message, index: nat, salt: Option<Bytes>)

  datatype StateSent = StateSent(wire: Wire, key: Option<EpochSecret>, state: State)

  function SendState(c: Crypto, s: State, coin: nat): (r: Checked<StateSent>)
    requires s.v1.Valid()
    ensures r.Ok? ==> r.value.state.v1.Valid()
  {
    var sent :- Send(c, s.v1, coin);
    var chain :- ChainForSend(c, s);
    match chain
    case None =>
      if sent.key.Some? then Err(ChainNotAvailable)
      else Ok(StateSent(Wire(sent.msg, 0, None), None, s.(v1 := sent.state)))
    case Some(before) =>
      var ch :- WithSecret(c, before, sent.key);
      if sent.msg.epoch == 0 then Err(EpochOutOfRange)
      else
        var step := SendKey(c, ch, sent.msg.epoch - 1);
        var key :- step.result;
        Ok(StateSent(Wire(sent.msg, key.0, Some(key.1)), sent.key, s.(v1 := sent.state, chain := Some(step.chain))))
  }

  datatype StateReceived = StateReceived(salt: Option<Bytes>, key: Option<EpochSecret>, state: State)

  function ReceiveState(c: Crypto, s: State, msg: V1Message, index: nat): (r: Checked<StateReceived>)
    requires s.v1.Valid() && msg.Typed() && index < WORD
    ensures r.Ok? ==> r.value.state.v1.Valid()
  {
    var recv :- Recv(c, s.v1, msg);
    if msg.epoch == 0 then Err(EpochOutOfRange)
    else
      var before :- ChainForRecv(c, s);
      var ch :- WithSecret(c, before, recv.key);
      if msg.epoch == 1 && index == 0 then Ok(StateReceived(None, recv.key, State(recv.state, Some(ch), None)))
      else
        var step := RecvKey(c, ch, msg.epoch - 1, index);
        var key :- step.result;
        Ok(StateReceived(Some(key), recv.key, State(recv.state, Some(step.chain), None)))
  }

  // ---------------------------------------------------------------- what holds whatever the peer sends

  /** The handshake states reached only by sending in their epoch. */
  predicate Spoken(s: V1) {
    !(s.KeysUnsampled? || s.NoHeaderReceived? || s.HeaderReceived?)
  }

  /** The chain's epoch is the one the handshake state fixes, and sending is at most one epoch behind. */
  predicate InStep(v1: V1, ch: Chain) {
    && Shaped(ch)
    && ch.currentEpoch == KeyEpoch(v1)
    && ch.sendEpoch < v1.epoch <= ch.sendEpoch + 2
    && (Spoken(v1) ==> v1.epoch == ch.sendEpoch + 1)
  }

  predicate Regular(s: State) {
    && s.v1.Valid() && s.v1.epoch >= 1
    && match s.chain
       case None => s.negotiation.Some? && s.v1.epoch == 1 && (s.v1.KeysUnsampled? || s.v1.KeysSampled? || s.v1.NoHeaderReceived?)
       case Some(ch) => InStep(s.v1, ch)
  }

  lemma RegularNew(c: Crypto, vn: Negotiation)
    ensures Regular(NewState(c, vn))
  {
  }

  lemma SendSpeaks(c: Crypto, s: V1, coin: nat)
    requires s.Valid() && Send(c, s, coin).Ok?
    ensures if s.NoHeaderReceived? then Send(c, s, coin).value.state == s else Spoken(Send(c, s, coin).value.state)
    ensures Send(c, s, coin).value.key.Some? ==> s.HeaderReceived?
    ensures s.KeysUnsampled? || s.KeysSampled? ==> Send(c, s, coin).value.state.KeysSampled?
  {
    hide ChunkOf, Encodable;
  }

  lemma RecvSpeaks(c: Crypto, s: V1, m: V1Message)
    requires s.Valid() && m.Typed() && Recv(c, s, m).Ok?
    ensures var n := Recv(c, s, m).value.state;
      (n.epoch == s.epoch && Spoken(n) == Spoken(s)) || (n.epoch == s.epoch + 1 <= m.epoch + 1 && Spoken(s) && !Spoken(n))
  {
    hide Decode, AddChunk, Encodable;
  }

  /** A chain that is in step takes in the secret that comes out of the handshake. */
  lemma TakesSecret(c: Crypto, ch: Chain, s: V1, key: Option<EpochSecret>, n: V1)
    requires c.Sizes() && Shaped(ch) && ch.currentEpoch == KeyEpoch(s) && KeyFollows(s, key, n)
    ensures var r := WithSecret(c, ch, key);
      && r.Ok? && Shaped(r.value) && r.value.currentEpoch == KeyEpoch(n) && r.value.sendEpoch == ch.sendEpoch
      && r.value.dir == ch.dir && r.value.params == ch.params
  {
    if key.Some? {
      AddShaped(c, ch, key.value.secret);
    }
  }

  /** Sending fails only where the handshake does: the epochs of the chain are never in the way. */
  lemma SendStaysRegular(c: Crypto, s: State, coin: nat)
    requires c.Sizes() && Regular(s)
    ensures SendState(c, s, coin).Ok? <==> Send(c, s.v1, coin).Ok?
    ensures SendState(c, s, coin).Ok? ==> Regular(SendState(c, s, coin).value.state)
  {
    hide Send, SendKey, AddEpoch, Shaped;
    if Send(c, s.v1, coin).Ok? {
      var sent := Send(c, s.v1, coin).value;
      SendKeyFollows(c, s.v1, coin);
      SendSpeaks(c, s.v1, coin);
      var chain := ChainForSend(c, s).value;
      if chain.Some? {
        ShapedFromNegotiation(c, s);
        TakesSecret(c, chain.value, s.v1, sent.key, sent.state);
        var ch := WithSecret(c, chain.value, sent.key).value;
        SendShaped(c, ch, sent.msg.epoch - 1);
        var step := SendKey(c, ch, sent.msg.epoch - 1);
        assert InStep(sent.state, step.chain);
        assert SendState(c, s, coin).value.state == s.(v1 := sent.state, chain := Some(step.chain));
      } else {
        assert SendState(c, s, coin).value.state == s.(v1 := sent.state);
        assert sent.state == s.v1 || sent.state.KeysSampled?;
      }
    }
  }

  lemma ShapedFromNegotiation(c: Crypto, s: State)
    requires c.Sizes() && Regular(s)
    ensures s.negotiation.Some? ==> InStep(s.v1, FromNegotiation(c, s.negotiation.value)) || s.chain.Some?
  {
  }

  predicate KeyError(e: Error) {
    e == KeyTrimmed || e == KeyAlreadyRequested || e == KeyJump
  }

  /** The chain that a received message is looked up in: there is one, and it is in step. */
  lemma ReceiveChain(c: Crypto, s: State, msg: V1Message) returns (ch: Chain)
    requires c.Sizes() && Regular(s) && msg.Typed() && Recv(c, s.v1, msg).Ok?
    ensures ChainForRecv(c, s).Ok? && WithSecret(c, ChainForRecv(c, s).value, Recv(c, s.v1, msg).value.key) == Ok(ch)
    ensures InStep(Recv(c, s.v1, msg).value.state, ch)
    ensures msg.epoch <= Recv(c, s.v1, msg).value.state.epoch <= s.v1.epoch + 1
    ensures s.v1.epoch <= msg.epoch + 1 ==> Recv(c, s.v1, msg).value.state.epoch <= msg.epoch + 1
  {
    hide Recv, AddEpoch, Shaped;
    var recv := Recv(c, s.v1, msg).value;
    RecvKeyFollows(c, s.v1, msg);
    RecvSpeaks(c, s.v1, msg);
    ShapedFromNegotiation(c, s);
    TakesSecret(c, ChainForRecv(c, s).value, s.v1, recv.key, recv.state);
    ch := WithSecret(c, ChainForRecv(c, s).value, recv.key).value;
  }

  /** Whatever arrives, a state that was kept is regular again. */
  lemma ReceiveStaysRegular(c: Crypto, s: State, msg: V1Message, index: nat)
    requires c.Sizes() && Regular(s) && msg.Typed() && index < WORD
    ensures ReceiveState(c, s, msg, index).Ok? ==> Regular(ReceiveState(c, s, msg, index).value.state)
  {
    hide Recv, KeyAt, AddEpoch, Shaped, RecvKey, WithSecret, ChainForRecv;
    if ReceiveState(c, s, msg, index).Ok? {
      var ch := ReceiveChain(c, s, msg);
      RecvShaped(c, ch, msg.epoch - 1, index);
    }
  }

  /** A message of the current or the previous epoch that the handshake takes is refused only if its
      own key cannot be had. */
  lemma ReceiveRefuses(c: Crypto, s: State, msg: V1Message, index: nat)
    requires c.Sizes() && Regular(s) && msg.Typed() && index < WORD
    requires Recv(c, s.v1, msg).Ok? && 1 <= msg.epoch && s.v1.epoch <= msg.epoch + 1
    ensures ReceiveState(c, s, msg, index).Err? ==> KeyError(ReceiveState(c, s, msg, index).error)
  {
    hide Recv, KeyAt, AddEpoch, Shaped, RecvKey, WithSecret, ChainForRecv;
    var ch := ReceiveChain(c, s, msg);
    RecvShaped(c, ch, msg.epoch - 1, index);
    KeyAtErrors(c, LinkOf(ch, msg.epoch - 1).recv, index, ch.params);
  }

  lemma KeyAtErrors(c: Crypto, d: Dir, at: nat, p: Params)
    requires at < WORD
    ensures KeyAt(c, d, at, p).result.Err? ==> KeyError(KeyAt(c, d, at, p).result.error)
  {
  }

  // ---------------------------------------------------------------- any sequence of calls

  datatype Call = CallSend(coin: nat) | CallReceive(msg: V1Message, index: nat)

  predicate Sane(call: Call) {
    call.CallReceive? ==> call.msg.Typed() && call.index < WORD
  }

  function Apply(c: Crypto, s: State, call: Call): State
    requires s.v1.Valid() && Sane(call)
  {
    match call
    case CallSend(coin) => var r := SendState(c, s, coin); if r.Ok? then r.value.state else s
    case CallReceive(msg, index) => var r := ReceiveState(c, s, msg, index); if r.Ok? then r.value.state else s
  }

  function ApplyAll(c: Crypto, s: State, calls: seq<Call>): (r: State)
    requires c.Sizes() && Regular(s) && forall k | 0 <= k < |calls| :: Sane(calls[k])
    ensures Regular(r)
    decreases |calls|
  {
    if calls == [] then s
    else
      ApplyRegular(c, s, calls[0]);
      ApplyAll(c, Apply(c, s, calls[0]), calls[1..])
  }

  lemma ApplyRegular(c: Crypto, s: State, call: Call)
    requires c.Sizes() && Regular(s) && Sane(call)
    ensures Regular(Apply(c, s, call))
  {
    hide Regular, SendState, ReceiveState;
    assert s.v1.Valid() by { RegularValid(s); }
    match call
    case CallSend(coin) => SendStaysRegular(c, s, coin);
    case CallReceive(msg, index) => ReceiveStaysRegular(c, s, msg, index);
  }

  lemma RegularValid(s: State)
    requires Regular(s)
    ensures s.v1.Valid()
  {
  }

  /** After any calls, whatever arrived: the chain is at the epoch the handshake fixes, which is the
      state's own or the one before; at most three links are held; and both the current and the
      previous epoch's messages still have their link. */
  lemma AlwaysInStep(c: Crypto, vn: Negotiation, calls: seq<Call>)
    requires c.Sizes() && forall k | 0 <= k < |calls| :: Sane(calls[k])
    ensures Regular(NewState(c, vn))
    ensures var s := ApplyAll(c, NewState(c, vn), calls);
      s.chain.Some? ==>
        var ch := s.chain.value;
        && ch.currentEpoch == KeyEpoch(s.v1) && (ch.currentEpoch == s.v1.epoch || ch.currentEpoch + 1 == s.v1.epoch)
        && |ch.links| <= 3
        && EpochIndex(ch, s.v1.epoch - 1).Ok? && (s.v1.epoch >= 2 ==> EpochIndex(ch, s.v1.epoch - 2).Ok?)
  {
    hide ApplyAll, Shaped;
    RegularNew(c, vn);
    var s := ApplyAll(c, NewState(c, vn), calls);
    if s.chain.Some? {
      InStepLinks(s.v1, s.chain.value);
    }
  }

  lemma InStepLinks(v1: V1, ch: Chain)
    requires InStep(v1, ch) && v1.epoch >= 1
    ensures ch.currentEpoch == v1.epoch || ch.currentEpoch + 1 == v1.epoch
    ensures |ch.links| <= 3
    ensures EpochIndex(ch, v1.epoch - 1).Ok? && (v1.epoch >= 2 ==> EpochIndex(ch, v1.epoch - 2).Ok?)
  {
  }
}
