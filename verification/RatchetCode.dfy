/** The Double Ratchet as the object of ratchet/, updated in place. A generated key pair is a
    parameter; the cipher is a parameter too. */
module RatchetCode {
  import opened Words
  import opened Results
  import opened Ratchet

  datatype Message = Message(header: Header, ciphertext: Bytes)

  /** Opening takes a message key, header, ciphertext and associated data; sealing a message key,
      header, plaintext and associated data. */
  datatype Cipher = Cipher(
    open: (Key, Header, Bytes, Bytes) -> Option<Bytes>,
    seal: (Key, Header, Bytes, Bytes) -> Option<Bytes>)

  // ---------------------------------------------------------------- what a call leaves behind, failing or not

  function SkipLeaves(c: Crypto, s: State, until: nat): (r: State)
    ensures SkipMessageKeys(c, s, until).Ok? ==> r == SkipMessageKeys(c, s, until).value
    decreases until - s.nr
  {
    if s.nr >= until || s.nr == MAX_COUNTER || |s.skipped| >= MAX_SKIP || s.dhr.None? then s
    else SkipLeaves(c, SkipOne(c, s), until)
  }

  /** A refused key leaves the counters started again, and after the second step our own key replaced. */
  function DhLeaves(c: Crypto, s: State, their: Key, gen: Key): (r: State)
    ensures DhRatchet(c, s, their, gen).Ok? ==> r == DhRatchet(c, s, their, gen).value
  {
    if s.dhs.None? then s
    else
      var begun := s.(seen := SeenWith(s, their), pn := s.ns, ns := 0, nr := 0);
      var recvDh := c.dh(s.dhs.value, their);
      if recvDh.None? then begun
      else
        var recv := c.kdfRoot(s.rk, recvDh.value);
        if c.dh(gen, their).None? then begun.(dhs := Some(gen), rk := recv.next, ckr := recv.out)
        else DhRatchet(c, s, their, gen).value
  }

  function TurnLeaves(c: Crypto, s: State, h: Header, gen: Key): (r: State)
    ensures TurnTo(c, s, h, gen).Ok? ==> r == TurnTo(c, s, h, gen).value
  {
    if s.dhr == Some(h.dh) then s
    else
      var t := SkipLeaves(c, s, h.pn);
      if SkipMessageKeys(c, s, h.pn).Err? then t else DhLeaves(c, t, h.dh, gen)
  }

  function AdvanceLeaves(c: Crypto, s: State, h: Header, gen: Key): (r: State)
    ensures AdvanceForHeader(c, s, h, gen).Ok? ==> r == AdvanceForHeader(c, s, h, gen).value.state
  {
    var a := AdvanceForHeader(c, s, h, gen);
    if a.Ok? then a.value.state
    else if IsDuplicate(s, h) then s
    else if TurnTo(c, s, h, gen).Err? then TurnLeaves(c, s, h, gen)
    else SkipLeaves(c, TurnTo(c, s, h, gen).value, h.n)
  }

  /** A skip that fails part-way leaves what a skip to where it stopped gives. */
  lemma {:induction false} SkipStops(c: Crypto, s: State, until: nat)
    ensures var r := SkipLeaves(c, s, until);
      && s.nr <= r.nr && (s.nr <= until ==> r.nr <= until)
      && SkipMessageKeys(c, s, r.nr) == Ok(r)
      && (SkipMessageKeys(c, s, until).Err? ==> r.nr < until)
    decreases until - s.nr
  {
    if s.nr < until && s.nr != MAX_COUNTER && |s.skipped| < MAX_SKIP && s.dhr.Some? {
      SkipStops(c, SkipOne(c, s), until);
    }
  }

  /** A failing advance forgets no remote key and moves no counter of sending but to start it again. */
  lemma FailedAdvance(c: Crypto, s: State, h: Header, gen: Key)
    requires AdvanceForHeader(c, s, h, gen).Err?
    ensures var r := AdvanceLeaves(c, s, h, gen);
      && s.seen <= r.seen && r.seen <= s.seen + {h.dh} + (if s.dhr.Some? then {s.dhr.value} else {})
      && ((r.ns == s.ns && r.pn == s.pn) || (r.ns == 0 && r.pn == s.ns))
      && (AdvanceForHeader(c, s, h, gen).error == Duplicate ==> r == s)
  {
    hide SkipMessageKeys, SkipLeaves;
    SkipLeavesRest(c, s, h.pn);
    var t := TurnTo(c, s, h, gen);
    if t.Ok? {
      SkipLeavesRest(c, t.value, h.n);
      SkipErrors(c, t.value, h.n);
    }
    SkipErrors(c, s, h.pn);
  }

  lemma {:induction false} SkipLeavesRest(c: Crypto, s: State, until: nat)
    ensures SkipLeaves(c, s, until).(ckr := s.ckr, nr := s.nr, skipped := s.skipped) == s
    decreases until - s.nr
  {
    if s.nr < until && s.nr != MAX_COUNTER && |s.skipped| < MAX_SKIP && s.dhr.Some? {
      SkipLeavesRest(c, SkipOne(c, s), until);
    }
  }

  // ---------------------------------------------------------------- the object

  class RatchetState {
    var dhs: Option<Key>
    var dhr: Option<Key>
    var rk: Key
    var cks: Key
    var ckr: Key
    var ns: nat
    var nr: nat
    var pn: nat
    var skipped: map<SkippedKey, Key>
    var seen: set<Key>

    function Value(): State
      reads this
    {
      State(dhs, dhr, rk, cks, ckr, ns, nr, pn, skipped, seen)
    }

    constructor (s: State)
      ensures Value() == s
    {
      dhs, dhr, rk, cks, ckr := s.dhs, s.dhr, s.rk, s.cks, s.ckr;
      ns, nr, pn, skipped, seen := s.ns, s.nr, s.pn, s.skipped, s.seen;
    }

    static method Initialize(c: Crypto, x: Agreed, initiator: bool, gen: Key, genSend: Key) returns (r: Checked<RatchetState>)
      ensures var spec := if initiator then StartInitiator(c, x, gen) else StartResponder(c, x, gen, genSend);
        match spec
        case Ok(s) => r.Ok? && fresh(r.value) && r.value.Value() == s
        case Err(e) => r == Err(e)
    {
      if x.secret == ZERO {
        return Err(SharedSecretMissing);
      }
      var st := new RatchetState(State(None, None, x.secret, ZERO, ZERO, 0, 0, 0, map[], {}));
      if initiator {
        if x.remoteRatchet.None? {
          return Err(RemoteKeyMissing);
        }
        st.dhr := x.remoteRatchet;
        st.seen := {x.remoteRatchet.value};
        if x.initialChain.Some? {
          st.ckr := x.initialChain.value;
          st.dhs := Some(gen);
        } else if x.localEphemeral.Some? {
          st.dhs := x.localEphemeral;
        } else {
          st.dhs := Some(gen);
        }
        var dh := c.dh(st.dhs.value, st.dhr.value);
        if dh.None? {
          return Err(DhFailed);
        }
        var d := c.kdfRoot(st.rk, dh.value);
        st.rk, st.cks := d.next, d.out;
      } else {
        st.dhr := Some(x.ephemeralPub);
        st.seen := {x.ephemeralPub};
        st.dhs := if x.localRatchet.Some? then x.localRatchet else Some(gen);
        if x.initialChain.Some? {
          st.cks := x.initialChain.value;
        } else {
          var recvDh := c.dh(st.dhs.value, x.ephemeralPub);
          if recvDh.None? {
            return Err(DhFailed);
          }
          var recv := c.kdfRoot(st.rk, recvDh.value);
          st.rk, st.ckr := recv.next, recv.out;
          var sendDh := c.dh(genSend, x.ephemeralPub);
          if sendDh.None? {
            return Err(DhFailed);
          }
          var send := c.kdfRoot(st.rk, sendDh.value);
          st.rk, st.cks, st.dhs := send.next, send.out, Some(genSend);
        }
      }
      r := Ok(st);
    }

    method Clone() returns (other: RatchetState)
      ensures fresh(other) && other.Value() == Value()
    {
      other := new RatchetState(Value());
    }

    method Become(other: RatchetState)
      modifies this
      ensures Value() == old(other.Value())
    {
      dhs, dhr, rk, cks, ckr := other.dhs, other.dhr, other.rk, other.cks, other.ckr;
      ns, nr, pn, skipped, seen := other.ns, other.nr, other.pn, other.skipped, other.seen;
    }

    method NextSendingMessageKey(c: Crypto) returns (r: Checked<(Header, Key)>)
      modifies this
      ensures match Ratchet.NextSendingMessageKey(c, old(Value()))
        case Ok(s) => r == Ok((s.header, s.key)) && Value() == s.state
        case Err(e) => r == Err(e) && Value() == old(Value())
    {
      if dhs.None? {
        return Err(LocalKeyMissing);
      }
      if cks == ZERO {
        return Err(ChainKeyMissing);
      }
      if ns == MAX_COUNTER {
        return Err(CounterOverflow);
      }
      var header := Header(c.pub(dhs.value), pn, ns);
      var d := c.kdfChain(cks);
      cks := d.next;
      ns := ns + 1;
      r := Ok((header, d.out));
    }

    /** A failure part-way leaves the keys stepped over so far in place. */
    method SkipMessageKeys(c: Crypto, until: nat) returns (error: Option<Error>)
      modifies this
      ensures Value() == SkipLeaves(c, old(Value()), until)
      ensures match Ratchet.SkipMessageKeys(c, old(Value()), until)
        case Ok(s) => error == None && Value() == s
        case Err(e) => error == Some(e)
    {
      while nr < until
        invariant SkipLeaves(c, Value(), until) == SkipLeaves(c, old(Value()), until)
        invariant Ratchet.SkipMessageKeys(c, Value(), until) == Ratchet.SkipMessageKeys(c, old(Value()), until)
        decreases until - nr
      {
        if nr == MAX_COUNTER {
          return Some(CounterOverflow);
        }
        if |skipped| >= MAX_SKIP {
          return Some(MaxSkipExceeded);
        }
        if dhr.None? {
          return Some(RemoteKeyMissing);
        }
        var d := c.kdfChain(ckr);
        ckr := d.next;
        skipped := skipped[SkippedKey(dhr.value, nr) := d.out];
        nr := nr + 1;
      }
      return None;
    }

    method CleanupSkippedKeys(current: Key)
      modifies `skipped
      ensures skipped == OnlyFor(old(skipped), current)
    {
      var todo := skipped.Keys;
      while todo != {}
        invariant todo <= old(skipped).Keys
        invariant forall k :: k in skipped <==> k in old(skipped) && (k in todo || k.dh == current)
        invariant forall k | k in skipped :: skipped[k] == old(skipped)[k]
        decreases |todo|
      {
        var k :| k in todo;
        if k.dh != current {
          skipped := skipped - {k};
        }
        todo := todo - {k};
      }
    }

    /** Note the two remote keys as seen and start counting again. */
    method BeginRatchet(their: Key)
      modifies `seen, `pn, `ns, `nr
      ensures seen == SeenWith(old(Value()), their) && pn == old(ns) && ns == 0 && nr == 0
    {
      if dhr.Some? {
        seen := seen + {dhr.value};
      }
      seen := seen + {their};
      pn, ns, nr := ns, 0, 0;
    }

    method DhRatchet(c: Crypto, their: Key, gen: Key) returns (error: Option<Error>)
      modifies this
      ensures Value() == DhLeaves(c, old(Value()), their, gen)
      ensures match Ratchet.DhRatchet(c, old(Value()), their, gen)
        case Ok(s) => error == None && Value() == s
        case Err(e) => error == Some(e)
    {
      hide OnlyFor, SeenWith;
      if dhs.None? {
        return Some(LocalKeyMissing);
      }
      BeginRatchet(their);
      var recvDh := c.dh(dhs.value, their);
      if recvDh.None? {
        return Some(DhFailed);
      }
      var recv := c.kdfRoot(rk, recvDh.value);
      rk, ckr := recv.next, recv.out;
      dhs := Some(gen);
      var sendDh := c.dh(gen, their);
      if sendDh.None? {
        return Some(DhFailed);
      }
      var send := c.kdfRoot(rk, sendDh.value);
      rk, cks := send.next, send.out;
      dhr := Some(their);
      CleanupSkippedKeys(their);
      return None;
    }

    /** Everything after the lookup among the skipped keys. */
    method Advance(c: Crypto, header: Header, gen: Key) returns (r: Checked<Key>)
      requires SkippedKey(header.dh, header.n) !in skipped
      modifies this
      ensures Value() == AdvanceLeaves(c, old(Value()), header, gen)
      ensures match Ratchet.AdvanceForHeader(c, old(Value()), header, gen)
        case Ok(a) => r == Ok(a.key) && Value() == a.state
        case Err(e) => r == Err(e)
    {
      hide Ratchet.SkipMessageKeys, Ratchet.DhRatchet, SkipLeaves, DhLeaves;
      if dhr.Some? && header.dh == dhr.value && header.n < nr {
        return Err(Duplicate);
      }
      if dhr.Some? && header.dh != dhr.value && header.dh in seen {
        return Err(Duplicate);
      }
      if dhr.None? || dhr.value != header.dh {
        var error := SkipMessageKeys(c, header.pn);
        if error.Some? {
          return Err(error.value);
        }
        error := DhRatchet(c, header.dh, gen);
        if error.Some? {
          return Err(error.value);
        }
      }
      var error := SkipMessageKeys(c, header.n);
      if error.Some? {
        return Err(error.value);
      }
      if ckr == ZERO {
        return Err(ChainKeyMissing);
      }
      if nr == MAX_COUNTER {
        return Err(CounterOverflow);
      }
      var d := c.kdfChain(ckr);
      ckr := d.next;
      nr := nr + 1;
      r := Ok(d.out);
    }

    method AdvanceForHeader(c: Crypto, header: Header, gen: Key) returns (r: Checked<Key>)
      modifies this
      ensures Value() == AdvanceLeaves(c, old(Value()), header, gen)
      ensures match Ratchet.AdvanceForHeader(c, old(Value()), header, gen)
        case Ok(a) => r == Ok(a.key) && Value() == a.state
        case Err(e) => r == Err(e)
    {
      var k := SkippedKey(header.dh, header.n);
      if k in skipped {
        r := Ok(skipped[k]);
        skipped := skipped - {k};
      } else {
        r := Advance(c, header, gen);
      }
    }

    method Encrypt(c: Crypto, cipher: Cipher, plaintext: Bytes, ad: Bytes) returns (r: Checked<Message>)
      modifies this
      ensures match Ratchet.NextSendingMessageKey(c, old(Value()))
        case Ok(s) =>
          && Value() == s.state
          && (match cipher.seal(s.key, s.header, plaintext, ad)
              case Some(body) => r == Ok(Message(s.header, body))
              case None => r.Err?)
        case Err(e) => r == Err(e) && Value() == old(Value())
    {
      var step := NextSendingMessageKey(c);
      if step.Err? {
        return Err(step.error);
      }
      var sealed := cipher.seal(step.value.1, step.value.0, plaintext, ad);
      if sealed.None? {
        return Err(NotAuthentic);
      }
      r := Ok(Message(step.value.0, sealed.value));
    }

    /** Decrypting is advancing a copy for the header and keeping it only if the message opens. Any
        failure leaves this state as it was, stored keys included. */
    method Decrypt(c: Crypto, cipher: Cipher, msg: Message, ad: Bytes, gen: Key) returns (r: Checked<Bytes>)
      modifies this
      ensures match Ratchet.AdvanceForHeader(c, old(Value()), msg.header, gen)
        case Err(e) => r == Err(e) && Value() == old(Value())
        case Ok(a) =>
          match cipher.open(a.key, msg.header, msg.ciphertext, ad)
          case None => r == Err(NotAuthentic) && Value() == old(Value())
          case Some(plain) => r == Ok(plain) && Value() == a.state
    {
      hide TurnTo, TakeNext, IsDuplicate, Ratchet.SkipMessageKeys;
      var k := SkippedKey(msg.header.dh, msg.header.n);
      if k in skipped {
        var plain := cipher.open(skipped[k], msg.header, msg.ciphertext, ad);
        if plain.None? {
          return Err(NotAuthentic);
        }
        skipped := skipped - {k};
        return Ok(plain.value);
      }
      var next := Clone();
      var key := next.Advance(c, msg.header, gen);
      if key.Err? {
        return Err(key.error);
      }
      var plain := cipher.open(key.value, msg.header, msg.ciphertext, ad);
      if plain.None? {
        return Err(NotAuthentic);
      }
      Become(next);
      r := Ok(plain.value);
    }
  }
}
