/** Replay safety of the Double Ratchet, whoever chose the headers: no position of a chain yields its
    message key twice. */
module RatchetReplay {
  import opened Results
  import opened Ratchet

  /** The remote key is among those seen, skipped keys belong to it and lie below the counter, and
      there are at most MaxSkip. */
  ghost predicate Sound(s: State) {
    && s.dhr.Some? && s.dhr.value in s.seen
    && (forall k | k in s.skipped :: k.dh == s.dhr.value && k.n < s.nr)
    && |s.skipped| <= MAX_SKIP
  }

  /** No key that was handed out can be handed out again. */
  ghost predicate Spent(s: State, used: set<SkippedKey>) {
    forall k | k in used :: k !in s.skipped && k.dh in s.seen && (s.dhr == Some(k.dh) ==> k.n < s.nr)
  }

  lemma {:induction false} SkipSound(c: Crypto, s: State, until: nat, used: set<SkippedKey>)
    requires Sound(s) && Spent(s, used) && SkipMessageKeys(c, s, until).Ok?
    ensures var r := SkipMessageKeys(c, s, until).value;
      && Sound(r) && Spent(r, used)
      && r.dhr == s.dhr && r.seen == s.seen && r.dhs == s.dhs && r.nr == (if s.nr < until then until else s.nr)
      && (forall k | k in r.skipped && k !in s.skipped :: k.n < until)
    decreases until - s.nr
  {
    if s.nr < until {
      var t := SkipOne(c, s);
      assert |t.skipped| == |s.skipped| + 1 by {
        assert t.skipped.Keys == s.skipped.Keys + {SkippedKey(s.dhr.value, s.nr)};
      }
      SkipSound(c, t, until, used);
    }
  }

  /** Skipping succeeds exactly when the keys it would leave stored are within the limit. */
  lemma {:induction false} SkipLimit(c: Crypto, s: State, until: nat)
    requires Sound(s) && until <= MAX_COUNTER
    ensures SkipMessageKeys(c, s, until).Ok? <==> until <= s.nr || |s.skipped| + (until - s.nr) <= MAX_SKIP
    ensures SkipMessageKeys(c, s, until).Err? ==> SkipMessageKeys(c, s, until).error == MaxSkipExceeded
    decreases until - s.nr
  {
    if s.nr < until && |s.skipped| < MAX_SKIP {
      var t := SkipOne(c, s);
      assert |t.skipped| == |s.skipped| + 1 by {
        assert t.skipped.Keys == s.skipped.Keys + {SkippedKey(s.dhr.value, s.nr)};
      }
      SkipLimit(c, t, until);
    }
  }

  lemma RatchetSound(c: Crypto, s: State, their: Key, gen: Key, used: set<SkippedKey>)
    requires Sound(s) && Spent(s, used) && their !in s.seen && DhRatchet(c, s, their, gen).Ok?
    ensures var r := DhRatchet(c, s, their, gen).value;
      Sound(r) && Spent(r, used) && r.dhr == Some(their) && r.nr == 0 && r.skipped == map[]
  {
    assert OnlyFor(s.skipped, their) == map[];
  }

  /** An accepted header had not been accepted before, and cannot be accepted again. */
  lemma AdvanceSound(c: Crypto, s: State, h: Header, gen: Key, used: set<SkippedKey>)
    requires Sound(s) && Spent(s, used) && AdvanceForHeader(c, s, h, gen).Ok?
    ensures SkippedKey(h.dh, h.n) !in used
    ensures var r := AdvanceForHeader(c, s, h, gen).value.state;
      Sound(r) && Spent(r, used + {SkippedKey(h.dh, h.n)}) && s.seen <= r.seen
  {
    hide SkipMessageKeys, DhRatchet;
    var k := SkippedKey(h.dh, h.n);
    if k in s.skipped {
      assert (s.skipped - {k}).Keys == s.skipped.Keys - {k};
    } else {
      TurnSound(c, s, h, gen, used);
      var t := TurnTo(c, s, h, gen).value;
      SkipSound(c, t, h.n, used);
    }
  }

  lemma TurnSound(c: Crypto, s: State, h: Header, gen: Key, used: set<SkippedKey>)
    requires Sound(s) && Spent(s, used) && !IsDuplicate(s, h) && TurnTo(c, s, h, gen).Ok?
    requires SkippedKey(h.dh, h.n) !in s.skipped
    ensures var t := TurnTo(c, s, h, gen).value;
      && Sound(t) && Spent(t, used) && t.dhr == Some(h.dh) && t.nr <= h.n && s.seen <= t.seen
      && SkippedKey(h.dh, h.n) !in used && SkippedKey(h.dh, h.n) !in t.skipped
  {
    hide SkipMessageKeys;
    if s.dhr != Some(h.dh) {
      SkipSound(c, s, h.pn, used);
      RatchetSound(c, SkipMessageKeys(c, s, h.pn).value, h.dh, gen, used);
    }
  }

  // ---------------------------------------------------------------- what is accepted

  predicate Fits(s: State, until: nat) {
    until <= s.nr || |s.skipped| + (until - s.nr) <= MAX_SKIP
  }

  lemma {:induction false} FirstStep(c: Crypto, ck: Key, n: nat)
    requires n >= 1
    ensures ChainAfter(c, ck, n) == ChainAfter(c, c.kdfChain(ck).next, n - 1)
  {
    if n > 1 {
      FirstStep(c, ck, n - 1);
    }
  }

  lemma {:induction false} SkipSteps(c: Crypto, s: State, until: nat)
    requires s.nr <= until && SkipMessageKeys(c, s, until).Ok?
    ensures var r := SkipMessageKeys(c, s, until).value;
      r.ckr == ChainAfter(c, s.ckr, until - s.nr) && r.nr == until
    decreases until - s.nr
  {
    if s.nr < until {
      FirstStep(c, s.ckr, until - s.nr);
      SkipSteps(c, SkipOne(c, s), until);
    }
  }

  lemma {:induction false} SkipKeepsRest(c: Crypto, s: State, until: nat)
    requires SkipMessageKeys(c, s, until).Ok?
    ensures var r := SkipMessageKeys(c, s, until).value; r.(ckr := s.ckr, nr := s.nr, skipped := s.skipped) == s
    decreases until - s.nr
  {
    if s.nr < until {
      SkipKeepsRest(c, SkipOne(c, s), until);
    }
  }

  /** A header of the current remote key that is not stored: accepted exactly when it lies ahead, what
      is skipped fits, and the chain has a key there. */
  lemma AcceptsInChain(c: Crypto, s: State, h: Header, gen: Key)
    requires Sound(s) && h.dh == s.dhr.value && SkippedKey(h.dh, h.n) !in s.skipped && h.n < MAX_COUNTER
    ensures AdvanceForHeader(c, s, h, gen).Ok? <==>
      h.n >= s.nr && Fits(s, h.n) && ChainAfter(c, s.ckr, h.n - s.nr) != ZERO
  {
    hide SkipMessageKeys, ChainAfter;
    if h.n >= s.nr {
      SkipLimit(c, s, h.n);
      if SkipMessageKeys(c, s, h.n).Ok? {
        SkipSteps(c, s, h.n);
      }
    }
  }

  /** A header of another remote key: accepted exactly when that key is new, both skips fit, the key
      agreement takes it, and the new chain has a key there. */
  lemma AcceptsTurning(c: Crypto, s: State, h: Header, gen: Key)
    requires Sound(s) && h.dh != s.dhr.value && h.n < MAX_COUNTER && h.pn <= MAX_COUNTER
    ensures AdvanceForHeader(c, s, h, gen).Ok? <==>
      && h.dh !in s.seen && Fits(s, h.pn) && s.dhs.Some?
      && c.dh(s.dhs.value, h.dh).Some? && c.dh(gen, h.dh).Some? && h.n <= MAX_SKIP
      && ChainAfter(c, c.kdfRoot(s.rk, c.dh(s.dhs.value, h.dh).value).out, h.n) != ZERO
  {
    hide SkipMessageKeys, ChainAfter, Spent, OnlyFor, SeenWith;
    assert Spent(s, {}) by { NothingSpent(s); }
    SkipLimit(c, s, h.pn);
    if h.dh !in s.seen && SkipMessageKeys(c, s, h.pn).Ok? {
      var t := SkipMessageKeys(c, s, h.pn).value;
      SkipSound(c, s, h.pn, {});
      SkipKeepsRest(c, s, h.pn);
      if DhRatchet(c, t, h.dh, gen).Ok? {
        RatchetSound(c, t, h.dh, gen, {});
        FirstInChain(c, DhRatchet(c, t, h.dh, gen).value, h.n);
      }
    }
  }

  lemma FirstInChain(c: Crypto, u: State, n: nat)
    requires Sound(u) && u.nr == 0 && u.skipped == map[] && n < MAX_COUNTER
    ensures SkipMessageKeys(c, u, n).Ok? <==> n <= MAX_SKIP
    ensures n <= MAX_SKIP ==> (TakeNext(c, SkipMessageKeys(c, u, n).value).Ok? <==> ChainAfter(c, u.ckr, n) != ZERO)
  {
    hide SkipMessageKeys, ChainAfter;
    SkipLimit(c, u, n);
    if n <= MAX_SKIP {
      SkipSteps(c, u, n);
    }
  }

  // ---------------------------------------------------------------- any sequence of calls

  datatype Event = Sends | Receives(header: Header, gen: Key)

  function After(c: Crypto, s: State, e: Event): State {
    match e
    case Sends => var r := NextSendingMessageKey(c, s); if r.Ok? then r.value.state else s
    case Receives(h, gen) => var r := AdvanceForHeader(c, s, h, gen); if r.Ok? then r.value.state else s
  }

  predicate Accepted(c: Crypto, s: State, e: Event) {
    e.Receives? && AdvanceForHeader(c, s, e.header, e.gen).Ok?
  }

  function AfterAll(c: Crypto, s: State, events: seq<Event>): State
    decreases |events|
  {
    if events == [] then s else AfterAll(c, After(c, s, events[0]), events[1..])
  }

  /** Whether the k-th call accepts its header. */
  predicate AcceptedAt(c: Crypto, s: State, events: seq<Event>, k: nat)
    requires k < |events|
  {
    Accepted(c, AfterAll(c, s, events[..k]), events[k])
  }

  function Position(e: Event): SkippedKey
    requires e.Receives?
  {
    SkippedKey(e.header.dh, e.header.n)
  }

  function UsedBy(c: Crypto, s: State, e: Event): set<SkippedKey> {
    if Accepted(c, s, e) then {Position(e)} else {}
  }

  lemma AfterSound(c: Crypto, s: State, e: Event, used: set<SkippedKey>)
    requires Sound(s) && Spent(s, used)
    ensures Sound(After(c, s, e)) && Spent(After(c, s, e), used + UsedBy(c, s, e))
    ensures s.seen <= After(c, s, e).seen
  {
    hide AdvanceForHeader;
    if Accepted(c, s, e) {
      AdvanceSound(c, s, e.header, e.gen, used);
    } else {
      assert used + UsedBy(c, s, e) == used;
    }
  }

  lemma {:induction false} SpentRejected(c: Crypto, s: State, events: seq<Event>, used: set<SkippedKey>, k: nat)
    requires Sound(s) && Spent(s, used) && k < |events| && events[k].Receives? && Position(events[k]) in used
    ensures !AcceptedAt(c, s, events, k)
    decreases k
  {
    hide AdvanceForHeader, Sound, Spent, After;
    if k == 0 {
      if Accepted(c, s, events[0]) {
        AdvanceSound(c, s, events[0].header, events[0].gen, used);
      }
    } else {
      AfterSound(c, s, events[0], used);
      SpentRejected(c, After(c, s, events[0]), events[1..], used + UsedBy(c, s, events[0]), k - 1);
      assert events[..k][1..] == events[1..][..k - 1];
    }
  }

  /** Over any calls, sends among them, with any headers at all: two accepted headers never have the
      same remote key and number. */
  lemma {:induction false} NoReplay(c: Crypto, s: State, events: seq<Event>, j: nat, k: nat)
    requires Sound(s) && j < k < |events| && events[j].Receives? && events[k].Receives?
    requires AcceptedAt(c, s, events, j) && AcceptedAt(c, s, events, k)
    ensures Position(events[j]) != Position(events[k])
    decreases j
  {
    hide AdvanceForHeader, Sound, Spent, After;
    var next := After(c, s, events[0]);
    assert Spent(s, {}) by { NothingSpent(s); }
    AfterSound(c, s, events[0], {});
    assert events[..k][1..] == events[1..][..k - 1];
    if j == 0 {
      assert UsedBy(c, s, events[0]) == {Position(events[0])};
      if Position(events[0]) == Position(events[k]) {
        SpentRejected(c, next, events[1..], {} + UsedBy(c, s, events[0]), k - 1);
      }
    } else {
      assert events[..j][1..] == events[1..][..j - 1];
      NoReplay(c, next, events[1..], j - 1, k - 1);
    }
  }

  lemma NothingSpent(s: State)
    ensures Spent(s, {})
  {
  }

  lemma {:induction false} StaysSound(c: Crypto, s: State, events: seq<Event>)
    requires Sound(s)
    ensures Sound(AfterAll(c, s, events)) && s.seen <= AfterAll(c, s, events).seen
    decreases |events|
  {
    hide Sound, After;
    if events != [] {
      NothingSpent(s);
      AfterSound(c, s, events[0], {});
      StaysSound(c, After(c, s, events[0]), events[1..]);
    }
  }

  /** Both ways of starting give a sound state, so the above holds of every session. */
  lemma StartsSound(c: Crypto, x: Agreed, gen: Key, genSend: Key)
    ensures StartInitiator(c, x, gen).Ok? ==> Sound(StartInitiator(c, x, gen).value)
    ensures StartResponder(c, x, gen, genSend).Ok? ==> Sound(StartResponder(c, x, gen, genSend).value)
  {
  }
}
