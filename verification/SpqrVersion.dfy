/** How a post-quantum state settles on a version with the peer (spqr/state.go): it speaks version 1, and
    may be given up for none at all until the peer has been heard. */
module SpqrVersion {
  import opened Words
  import opened Results
  import opened SpqrCrypto
  import opened SpqrStates
  import opened SpqrState

  /** A session may have no post-quantum state, or one that was given up. */
  datatype Pq = Without | Disabled | With(state: State)
  {
    ghost predicate Valid() {
      With? ==> state.v1.Valid()
    }
  }

  /** The post-quantum field of a message, by its first byte: none, version 0, version 1 with a message
      that parses or one that does not, another version. */
  datatype Field = Absent | VersionZero | Part(msg: V1Message, index: nat) | Garbled | OtherVersion
  {
    predicate Typed() {
      Part? ==> msg.Typed() && index < WORD
    }
  }

  datatype PqError = StateRefused(why: Error) | NoState | VersionMismatch | MinimumVersion | Unparsed

  datatype PqSent = PqSent(field: Field, salt: Option<Bytes>, pq: Pq)

  function SendPq(c: Crypto, pq: Pq, coin: nat): (r: Result<PqSent, PqError>)
    requires pq.Valid()
    ensures r.Ok? ==> r.value.pq.Valid()
  {
    if !pq.With? then Ok(PqSent(Absent, None, pq))
    else
      match SendState(c, pq.state, coin)
      case Err(e) => Err(StateRefused(e))
      case Ok(s) => Ok(PqSent(Part(s.wire.msg, s.wire.index), s.wire.salt, With(s.state)))
  }

  datatype PqReceived = PqReceived(salt: Option<Bytes>, pq: Pq)

  /** Until the peer has been heard a state that may be given up is, on hearing version 0; one that was
      given up takes nothing more. */
  function ReceivePq(c: Crypto, pq: Pq, field: Field): (r: Result<PqReceived, PqError>)
    requires pq.Valid() && field.Typed()
    ensures r.Ok? ==> r.value.pq.Valid()
  {
    match pq
    case Without => if field == Absent then Ok(PqReceived(None, pq)) else Err(NoState)
    case Disabled => Err(StateRefused(ChainNotAvailable))
    case With(s) =>
      match field
      case OtherVersion => Ok(PqReceived(None, pq))
      case Garbled => Err(Unparsed)
      case Part(msg, index) =>
        (match ReceiveState(c, s, msg, index)
         case Err(e) => Err(StateRefused(e))
         case Ok(r) => Ok(PqReceived(r.salt, With(r.state))))
      case _ =>
        if s.negotiation.None? then Err(VersionMismatch)
        else if !s.negotiation.value.mayDisable then Err(MinimumVersion)
        else Ok(PqReceived(None, Disabled))
  }

  // ---------------------------------------------------------------- when a state is given up

  /** The state insists on version 1: it was told to, or the peer has been heard. */
  predicate Settled(pq: Pq) {
    pq.With? && (pq.state.negotiation.None? || !pq.state.negotiation.value.mayDisable)
  }

  /** A state is given up exactly when it does not insist and hears of no version or of version 0. */
  lemma GivenUpExactly(c: Crypto, pq: Pq, field: Field)
    requires pq.Valid() && field.Typed() && pq.With?
    ensures ReceivePq(c, pq, field) == Ok(PqReceived(None, Disabled)) <==> !Settled(pq) && (field.Absent? || field.VersionZero?)
  {
    hide ReceiveState;
  }

  datatype PqCall = PqSend(coin: nat) | PqReceive(field: Field)

  function PqApply(c: Crypto, pq: Pq, call: PqCall): (r: Pq)
    requires pq.Valid() && (call.PqReceive? ==> call.field.Typed())
    ensures r.Valid()
  {
    match call
    case PqSend(coin) => var r := SendPq(c, pq, coin); if r.Ok? then r.value.pq else pq
    case PqReceive(field) => var r := ReceivePq(c, pq, field); if r.Ok? then r.value.pq else pq
  }

  function PqApplyAll(c: Crypto, pq: Pq, calls: seq<PqCall>): (r: Pq)
    requires pq.Valid() && forall k | 0 <= k < |calls| && calls[k].PqReceive? :: calls[k].field.Typed()
    ensures r.Valid()
    decreases |calls|
  {
    if calls == [] then pq else PqApplyAll(c, PqApply(c, pq, calls[0]), calls[1..])
  }

  lemma StaysSettled(c: Crypto, pq: Pq, call: PqCall)
    requires pq.Valid() && (call.PqReceive? ==> call.field.Typed()) && Settled(pq)
    ensures Settled(PqApply(c, pq, call))
  {
    hide Send, Recv, WithSecret;
  }

  lemma {:induction false} AllStaySettled(c: Crypto, pq: Pq, calls: seq<PqCall>)
    requires pq.Valid() && Settled(pq) && forall k | 0 <= k < |calls| && calls[k].PqReceive? :: calls[k].field.Typed()
    ensures Settled(PqApplyAll(c, pq, calls))
    decreases |calls|
  {
    hide Settled, PqApply;
    if calls != [] {
      StaysSettled(c, pq, calls[0]);
      AllStaySettled(c, PqApply(c, pq, calls[0]), calls[1..]);
    }
  }

  /** Once one message of the peer was accepted, no message can make the state give up its version,
      whatever is sent and received after that. */
  lemma NoDowngradeOnceHeard(c: Crypto, pq: Pq, field: Field, calls: seq<PqCall>)
    requires pq.Valid() && pq.With? && field.Typed() && field.Part? && ReceivePq(c, pq, field).Ok?
    requires forall k | 0 <= k < |calls| && calls[k].PqReceive? :: calls[k].field.Typed()
    ensures PqApplyAll(c, ReceivePq(c, pq, field).value.pq, calls).With?
  {
    hide PqApplyAll;
    HeardSettles(c, pq, field);
    AllStaySettled(c, ReceivePq(c, pq, field).value.pq, calls);
  }

  lemma HeardSettles(c: Crypto, pq: Pq, field: Field)
    requires pq.Valid() && pq.With? && field.Typed() && field.Part? && ReceivePq(c, pq, field).Ok?
    ensures Settled(ReceivePq(c, pq, field).value.pq)
  {
    hide Recv, WithSecret;
  }

  /** What a state makes of fields that are not version 1 messages: an unknown version counts as no salt and
      changes nothing, one that does not parse is refused, a state that was given up refuses everything,
      and where there is no state only a message without the field is taken. */
  lemma OtherFields(c: Crypto, pq: Pq, field: Field)
    requires pq.Valid() && field.Typed()
    ensures pq.With? && field.OtherVersion? ==> ReceivePq(c, pq, field) == Ok(PqReceived(None, pq))
    ensures pq.With? && field.Garbled? ==> ReceivePq(c, pq, field).Err?
    ensures pq.Disabled? ==> ReceivePq(c, pq, field).Err?
    ensures pq.Without? ==> (ReceivePq(c, pq, field).Ok? <==> field.Absent?)
    ensures ReceivePq(c, pq, field).Ok? && !field.Part? ==> ReceivePq(c, pq, field).value.salt == None
    ensures !pq.With? && ReceivePq(c, pq, field).Ok? ==> ReceivePq(c, pq, field).value.pq == pq
  {
    hide ReceiveState;
  }

  /** Only a state that speaks version 1 has anything to send. */
  lemma SendsOnlyWith(c: Crypto, pq: Pq, coin: nat)
    requires pq.Valid()
    ensures !pq.With? ==> SendPq(c, pq, coin) == Ok(PqSent(Absent, None, pq))
    ensures pq.With? ==> (SendPq(c, pq, coin).Ok? <==> SendState(c, pq.state, coin).Ok?)
    ensures pq.With? && SendPq(c, pq, coin).Ok? ==>
      var w := SendState(c, pq.state, coin).value.wire;
      SendPq(c, pq, coin).value == PqSent(Part(w.msg, w.index), w.salt, With(SendState(c, pq.state, coin).value.state))
  {
    hide SendState;
  }
}
