/** The post-quantum state of spqr/state.go as an object. It works on its chain in place, so a call that
    fails may leave the chain moved on; callers work on a clone. */
module SpqrStateCode {
  import opened Words
  import opened Results
  import opened Codec
  import opened SpqrCrypto
  import opened SpqrStates
  import opened SpqrHistory
  import opened SpqrChain
  import opened SpqrState
  import opened SpqrVersion
  import opened SpqrCodec
  import SpqrChainCodec
  import opened SpqrChainCode

  // ---------------------------------------------------------------- what a call leaves behind, failing or not

  /** How far a send gets with its chain. */
  function ChainLeft(c: Crypto, before: Chain, sent: Sent): Chain {
    var ch := WithSecret(c, before, sent.key);
    if ch.Err? then before
    else if sent.msg.epoch == 0 then ch.value
    else SendKey(c, ch.value, sent.msg.epoch - 1).chain
  }

  function SendLeaves(c: Crypto, s: State, coin: nat): (r: State)
    requires s.v1.Valid()
    ensures SendState(c, s, coin).Ok? ==> r == SendState(c, s, coin).value.state
  {
    var done := SendState(c, s, coin);
    if done.Ok? then done.value.state
    else
      var sent, chain := Send(c, s.v1, coin), ChainForSend(c, s);
      if sent.Err? || chain.Err? || chain.value.None? then s
      else s.(chain := Some(ChainLeft(c, chain.value.value, sent.value)))
  }

  function ReceiveLeaves(c: Crypto, s: State, msg: V1Message, index: nat): (r: State)
    requires s.v1.Valid() && msg.Typed() && index < WORD
    ensures ReceiveState(c, s, msg, index).Ok? ==> r == ReceiveState(c, s, msg, index).value.state
  {
    var done := ReceiveState(c, s, msg, index);
    if done.Ok? then done.value.state
    else
      var recv := Recv(c, s.v1, msg);
      if recv.Err? || msg.epoch == 0 || s.chain.None? then s
      else
        var ch := WithSecret(c, s.chain.value, recv.value.key);
        if ch.Err? then s else s.(chain := Some(RecvKey(c, ch.value, msg.epoch - 1, index).chain))
  }

  function PqSendLeaves(c: Crypto, pq: Pq, coin: nat): Pq
    requires pq.Valid()
  {
    if pq.With? then With(SendLeaves(c, pq.state, coin)) else pq
  }

  function PqReceiveLeaves(c: Crypto, pq: Pq, field: Field): Pq
    requires pq.Valid() && field.Typed()
  {
    var r := ReceivePq(c, pq, field);
    if r.Ok? then r.value.pq
    else if pq.With? && field.Part? then With(ReceiveLeaves(c, pq.state, field.msg, field.index))
    else pq
  }

  /** A copy of what a session holds, made by saving and restoring. */
  function ClonePq(pq: Pq): (r: Restored<Pq>)
    ensures r.Ok? ==> r.value.Valid()
  {
    if !pq.With? then Ok(pq)
    else
      var s :- SpqrChainCodec.Clone(pq.state);
      RestoreValid(Save(pq.state.v1));
      Ok(With(s))
  }

  // ---------------------------------------------------------------- the object

  class PqrState {
    var v1: Option<V1>
    var chain: EpochChain?
    var negotiation: Option<Negotiation>

    /** Once given up, nothing is held. */
    ghost predicate Valid()
      reads this
    {
      if v1.Some? then v1.value.Valid() else chain == null && negotiation.None?
    }

    function Value(): Pq
      reads this, chain
    {
      if v1.None? then Disabled
      else With(State(v1.value, if chain == null then None else Some(chain.Value()), negotiation))
    }

    constructor (v: Option<V1>, ch: EpochChain?, n: Option<Negotiation>)
      ensures v1 == v && chain == ch && negotiation == n
    {
      v1, chain, negotiation := v, ch, n;
    }

    method Send(c: Crypto, coin: nat) returns (r: Result<(Field, Option<Bytes>), PqError>)
      requires Valid()
      modifies this, chain
      ensures Valid() && Value() == PqSendLeaves(c, old(Value()), coin)
      ensures match SendPq(c, old(Value()), coin)
        case Ok(s) => r == Ok((s.field, s.salt)) && Value() == s.pq
        case Err(e) => r == Err(e)
      ensures chain == old(chain) || fresh(chain)
    {
      hide SpqrStates.Send, SpqrChain.SendKey, SpqrChain.AddEpoch;
      if v1.None? {
        return Ok((Absent, None));
      }
      var sent := SpqrStates.Send(c, v1.value, coin);
      if sent.Err? {
        return Err(StateRefused(sent.error));
      }
      if chain == null {
        if negotiation.None? {
          return Err(StateRefused(ChainNotAvailable));
        }
        if !negotiation.value.mayDisable {
          chain := new EpochChain(c, negotiation.value.authKey, negotiation.value.dir, negotiation.value.params);
        }
      }
      var index, salt := 0, None;
      if chain != null {
        if sent.value.key.Some? {
          var error := chain.AddEpoch(c, sent.value.key.value.epoch, sent.value.key.value.secret);
          if error.Some? {
            return Err(StateRefused(error.value));
          }
        }
        if sent.value.msg.epoch == 0 {
          return Err(StateRefused(EpochOutOfRange));
        }
        var key := chain.SendKey(c, sent.value.msg.epoch - 1);
        if key.Err? {
          return Err(StateRefused(key.error));
        }
        index, salt := key.value.0, Some(key.value.1);
      } else if sent.value.key.Some? {
        return Err(StateRefused(ChainNotAvailable));
      }
      v1 := Some(sent.value.state);
      r := Ok((Part(sent.value.msg, index), salt));
    }

    method Disable()
      modifies this
      ensures Valid() && Value() == Disabled
    {
      v1, chain, negotiation := None, null, None;
    }

    method Receive(c: Crypto, field: Field) returns (r: Result<Option<Bytes>, PqError>)
      requires Valid() && c.Sizes() && field.Typed()
      modifies this, chain
      ensures Valid() && Value() == PqReceiveLeaves(c, old(Value()), field)
      ensures match ReceivePq(c, old(Value()), field)
        case Ok(p) => r == Ok(p.salt) && Value() == p.pq
        case Err(e) => r == Err(e)
      ensures chain == null || chain == old(chain) || fresh(chain)
    {
      hide ReceiveState, ReceiveLeaves;
      if v1.None? {
        return Err(StateRefused(ChainNotAvailable));
      }
      if field.OtherVersion? {
        return Ok(None);
      }
      if field.Garbled? {
        return Err(Unparsed);
      }
      if !field.Part? {
        if negotiation.None? {
          return Err(VersionMismatch);
        }
        if !negotiation.value.mayDisable {
          return Err(MinimumVersion);
        }
        Disable();
        return Ok(None);
      }
      var salt := ReceivePart(c, field.msg, field.index);
      r := if salt.Err? then Err(StateRefused(salt.error)) else Ok(salt.value);
    }

    method ReceivePart(c: Crypto, msg: V1Message, index: nat) returns (r: Checked<Option<Bytes>>)
      requires Valid() && v1.Some? && c.Sizes() && msg.Typed() && index < WORD
      modifies this, chain
      ensures Valid() && Value() == With(ReceiveLeaves(c, old(Value().state), msg, index))
      ensures match ReceiveState(c, old(Value().state), msg, index)
        case Ok(p) => r == Ok(p.salt) && Value() == With(p.state)
        case Err(e) => r == Err(e)
      ensures chain == null || chain == old(chain) || fresh(chain)
    {
      hide Recv, SpqrChain.RecvKey, SpqrChain.AddEpoch;
      var recv := Recv(c, v1.value, msg);
      if recv.Err? {
        return Err(recv.error);
      }
      if msg.epoch == 0 {
        return Err(EpochOutOfRange);
      }
      var ch := chain;
      if ch == null {
        if negotiation.None? {
          return Err(ChainNotAvailable);
        }
        ch := new EpochChain(c, negotiation.value.authKey, negotiation.value.dir, negotiation.value.params);
      }
      if recv.value.key.Some? {
        var error := ch.AddEpoch(c, recv.value.key.value.epoch, recv.value.key.value.secret);
        if error.Some? {
          return Err(error.value);
        }
      }
      var salt := None;
      if msg.epoch != 1 || index != 0 {
        var key := ch.RecvKey(c, msg.epoch - 1, index);
        if key.Err? {
          return Err(key.error);
        }
        salt := Some(key.value);
      }
      v1, chain, negotiation := Some(recv.value.state), ch, None;
      r := Ok(salt);
    }

    /** Nothing comes back if a part that was saved cannot be restored. */
    method Clone() returns (other: PqrState?)
      requires Valid()
      ensures match ClonePq(Value())
        case Ok(pq) => other != null && fresh(other) && (other.chain != null ==> fresh(other.chain)) && other.Valid() && other.Value() == pq
        case Err(_) => other == null
    {
      hide Restore, Save, SpqrChainCodec.GetChain, SpqrChainCodec.PutChain;
      var v := None;
      if v1.Some? {
        var restored := Restore(Save(v1.value));
        if restored.Err? {
          return null;
        }
        v := Some(restored.value);
        RestoreValid(Save(v1.value));
      }
      var ch: EpochChain? := null;
      if chain != null {
        var restored := SpqrChainCodec.GetChain(SpqrChainCodec.PutChain(chain.Value()));
        if restored.Err? {
          return null;
        }
        ch := new EpochChain.From(restored.value);
      }
      other := new PqrState(v, ch, negotiation);
    }
  }

  /** A failing call leaves the handshake and the negotiation as they were, and does not take away a chain. */
  lemma FailureLeaves(c: Crypto, s: State, coin: nat, msg: V1Message, index: nat)
    requires s.v1.Valid() && msg.Typed() && index < WORD
    ensures SendState(c, s, coin).Err? ==>
      var r := SendLeaves(c, s, coin);
      r.v1 == s.v1 && r.negotiation == s.negotiation && (s.chain.Some? ==> r.chain.Some?)
    ensures ReceiveState(c, s, msg, index).Err? ==>
      var r := ReceiveLeaves(c, s, msg, index);
      r.v1 == s.v1 && r.negotiation == s.negotiation && (s.chain.Some? <==> r.chain.Some?)
  {
    hide Send, Recv, AddEpoch, KeyAt, Retire;
  }
}
