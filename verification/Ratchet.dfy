/** The Double Ratchet of ratchet/, as functions of its state. Skipped message keys are kept for the
    current remote key only, and a set of remote keys already seen keeps the ratchet from turning
    back. */
module Ratchet {
  import opened Results

  /** A 32-byte array, as the number it spells. */
  datatype Key = Key(word: nat)

  const ZERO := Key(0)
  const MAX_COUNTER := 0xFFFF_FFFF
  const MAX_SKIP := 1000

  datatype Error =
    | SharedSecretMissing | RemoteKeyMissing | LocalKeyMissing | DhFailed
    | ChainKeyMissing | CounterOverflow | MaxSkipExceeded | Duplicate | NotAuthentic

  type Checked<+T> = Result<T, Error>

  datatype Derived = Derived(next: Key, out: Key)

  /** The primitives. A key pair is its private key; Diffie-Hellman may refuse a public key. */
  datatype Crypto = Crypto(
    pub: Key -> Key,
    dh: (Key, Key) -> Option<Key>,
    kdfRoot: (Key, Key) -> Derived,
    kdfChain: Key -> Derived)
  {
    ghost predicate Lawful() {
      forall x, y :: dh(x, pub(y)) == dh(y, pub(x))
    }
  }

  datatype Header = Header(dh: Key, pn: nat, n: nat)

  datatype SkippedKey = SkippedKey(dh: Key, n: nat)

  datatype State = State(
    dhs: Option<Key>, dhr: Option<Key>,
    rk: Key, cks: Key, ckr: Key,
    ns: nat, nr: nat, pn: nat,
    skipped: map<SkippedKey, Key>, seen: set<Key>)

  /** A chain key n steps on. */
  function ChainAfter(c: Crypto, start: Key, n: nat): Key {
    if n == 0 then start else c.kdfChain(ChainAfter(c, start, n - 1)).next
  }

  // ---------------------------------------------------------------- sending

  datatype Sending = Sending(state: State, header: Header, key: Key)

  function NextSendingMessageKey(c: Crypto, s: State): Checked<Sending> {
    if s.dhs.None? then Err(LocalKeyMissing)
    else if s.cks == ZERO then Err(ChainKeyMissing)
    else if s.ns == MAX_COUNTER then Err(CounterOverflow)
    else
      var d := c.kdfChain(s.cks);
      Ok(Sending(s.(cks := d.next, ns := s.ns + 1), Header(c.pub(s.dhs.value), s.pn, s.ns), d.out))
  }

  // ---------------------------------------------------------------- receiving

  function SkipOne(c: Crypto, s: State): State
    requires s.dhr.Some?
  {
    var d := c.kdfChain(s.ckr);
    s.(ckr := d.next, skipped := s.skipped[SkippedKey(s.dhr.value, s.nr) := d.out], nr := s.nr + 1)
  }

  function SkipMessageKeys(c: Crypto, s: State, until: nat): (r: Checked<State>)
    decreases until - s.nr
  {
    if s.nr >= until then Ok(s)
    else if s.nr == MAX_COUNTER then Err(CounterOverflow)
    else if |s.skipped| >= MAX_SKIP then Err(MaxSkipExceeded)
    else if s.dhr.None? then Err(RemoteKeyMissing)
    else SkipMessageKeys(c, SkipOne(c, s), until)
  }

  lemma {:induction false} SkipErrors(c: Crypto, s: State, until: nat)
    ensures SkipMessageKeys(c, s, until) != Err(Duplicate)
    decreases until - s.nr
  {
    if s.nr < until && s.dhr.Some? {
      SkipErrors(c, SkipOne(c, s), until);
    }
  }

  function OnlyFor(skipped: map<SkippedKey, Key>, dh: Key): map<SkippedKey, Key> {
    map k | k in skipped && k.dh == dh :: skipped[k]
  }

  function SeenWith(s: State, their: Key): set<Key> {
    s.seen + (if s.dhr.Some? then {s.dhr.value} else {}) + {their}
  }

  /** Derive the receiving chain from their new key, then take a new key of our own and derive the
      sending chain from it. */
  function DhRatchet(c: Crypto, s: State, their: Key, gen: Key): Checked<State> {
    if s.dhs.None? then Err(LocalKeyMissing)
    else
      var recvDh := c.dh(s.dhs.value, their);
      var sendDh := c.dh(gen, their);
      if recvDh.None? || sendDh.None? then Err(DhFailed)
      else
        var recv := c.kdfRoot(s.rk, recvDh.value);
        var send := c.kdfRoot(recv.next, sendDh.value);
        Ok(State(Some(gen), Some(their), send.next, send.out, recv.out, 0, 0, s.ns,
                 OnlyFor(s.skipped, their), SeenWith(s, their)))
  }

  datatype Advanced = Advanced(state: State, key: Key)

  /** The next key of the receiving chain. */
  function TakeNext(c: Crypto, s: State): Checked<Advanced> {
    if s.ckr == ZERO then Err(ChainKeyMissing)
    else if s.nr == MAX_COUNTER then Err(CounterOverflow)
    else
      var d := c.kdfChain(s.ckr);
      Ok(Advanced(s.(ckr := d.next, nr := s.nr + 1), d.out))
  }

  function TurnTo(c: Crypto, s: State, h: Header, gen: Key): Checked<State> {
    if s.dhr == Some(h.dh) then Ok(s)
    else
      var t :- SkipMessageKeys(c, s, h.pn);
      DhRatchet(c, t, h.dh, gen)
  }

  predicate IsDuplicate(s: State, h: Header) {
    s.dhr.Some? && if h.dh == s.dhr.value then h.n < s.nr else h.dh in s.seen
  }

  function AdvanceForHeader(c: Crypto, s: State, h: Header, gen: Key): Checked<Advanced> {
    var k := SkippedKey(h.dh, h.n);
    if k in s.skipped then Ok(Advanced(s.(skipped := s.skipped - {k}), s.skipped[k]))
    else if IsDuplicate(s, h) then Err(Duplicate)
    else
      var t :- TurnTo(c, s, h, gen);
      var u :- SkipMessageKeys(c, t, h.n);
      TakeNext(c, u)
  }

  // ---------------------------------------------------------------- starting

  /** What the key agreement leaves each side with. */
  datatype Agreed = Agreed(
    secret: Key, initialChain: Option<Key>,
    /** initiator */
    remoteRatchet: Option<Key>, localEphemeral: Option<Key>,
    /** responder */
    ephemeralPub: Key, localRatchet: Option<Key>)

  function StartInitiator(c: Crypto, x: Agreed, gen: Key): Checked<State> {
    if x.secret == ZERO then Err(SharedSecretMissing)
    else if x.remoteRatchet.None? then Err(RemoteKeyMissing)
    else
      var their := x.remoteRatchet.value;
      var own := if x.initialChain.None? && x.localEphemeral.Some? then x.localEphemeral.value else gen;
      var dh := c.dh(own, their);
      if dh.None? then Err(DhFailed)
      else
        var d := c.kdfRoot(x.secret, dh.value);
        Ok(State(Some(own), Some(their), d.next, d.out, if x.initialChain.Some? then x.initialChain.value else ZERO,
                 0, 0, 0, map[], {their}))
  }

  function StartResponder(c: Crypto, x: Agreed, gen: Key, genSend: Key): Checked<State> {
    if x.secret == ZERO then Err(SharedSecretMissing)
    else
      var their := x.ephemeralPub;
      var own := if x.localRatchet.Some? then x.localRatchet.value else gen;
      if x.initialChain.Some? then
        Ok(State(Some(own), Some(their), x.secret, x.initialChain.value, ZERO, 0, 0, 0, map[], {their}))
      else
        var recvDh := c.dh(own, their);
        var sendDh := c.dh(genSend, their);
        if recvDh.None? || sendDh.None? then Err(DhFailed)
        else
          var recv := c.kdfRoot(x.secret, recvDh.value);
          var send := c.kdfRoot(recv.next, sendDh.value);
          Ok(State(Some(genSend), Some(their), send.next, send.out, recv.out, 0, 0, 0, map[], {their}))
  }
}
