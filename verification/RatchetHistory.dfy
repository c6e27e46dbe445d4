/** What the Double Ratchet remembers, as a function of the calls made on it: which message keys are
    stored, which remote keys count as seen and how sending is numbered, whoever chose the headers. */
module RatchetHistory {
  import opened Results
  import opened Ratchet
  import opened RatchetReplay

  // ---------------------------------------------------------------- stored keys

  /** Every key below the counter of the current chain that was not handed out is stored. */
  ghost predicate Complete(s: State, used: set<SkippedKey>)
    requires s.dhr.Some?
  {
    forall k: SkippedKey | k.dh == s.dhr.value && k.n < s.nr && k !in used :: k in s.skipped
  }

  ghost predicate Tracked(s: State, used: set<SkippedKey>) {
    Sound(s) && Spent(s, used) && Complete(s, used)
  }

  lemma {:induction false} SkipComplete(c: Crypto, s: State, until: nat, used: set<SkippedKey>)
    requires Tracked(s, used) && SkipMessageKeys(c, s, until).Ok?
    ensures Tracked(SkipMessageKeys(c, s, until).value, used)
    decreases until - s.nr
  {
    if s.nr < until {
      var t := SkipOne(c, s);
      assert |t.skipped| == |s.skipped| + 1 by {
        assert t.skipped.Keys == s.skipped.Keys + {SkippedKey(s.dhr.value, s.nr)};
      }
      assert forall k: SkippedKey | k.dh == s.dhr.value && k.n == s.nr :: k == SkippedKey(s.dhr.value, s.nr);
      SkipComplete(c, t, until, used);
    }
  }

  lemma AdvanceTracked(c: Crypto, s: State, h: Header, gen: Key, used: set<SkippedKey>)
    requires Tracked(s, used) && AdvanceForHeader(c, s, h, gen).Ok?
    ensures Tracked(AdvanceForHeader(c, s, h, gen).value.state, used + {SkippedKey(h.dh, h.n)})
  {
    hide SkipMessageKeys, Spent, TurnTo, Complete, TakeNext;
    AdvanceSound(c, s, h, gen, used);
    var k := SkippedKey(h.dh, h.n);
    if k in s.skipped {
      StoredComplete(s, k, used);
    } else {
      TurnSound(c, s, h, gen, used);
      var t := TurnTo(c, s, h, gen).value;
      TurnComplete(c, s, h, gen, used);
      SkipSound(c, t, h.n, used);
      SkipComplete(c, t, h.n, used);
      NextComplete(c, SkipMessageKeys(c, t, h.n).value, used);
    }
  }

  lemma StoredComplete(s: State, k: SkippedKey, used: set<SkippedKey>)
    requires s.dhr.Some? && Complete(s, used)
    ensures Complete(s.(skipped := s.skipped - {k}), used + {k})
  {
  }

  lemma NextComplete(c: Crypto, s: State, used: set<SkippedKey>)
    requires s.dhr.Some? && Complete(s, used) && TakeNext(c, s).Ok?
    ensures TakeNext(c, s).value.state.dhr == s.dhr && Complete(TakeNext(c, s).value.state, used + {SkippedKey(s.dhr.value, s.nr)})
  {
    assert forall k: SkippedKey | k.dh == s.dhr.value && k.n == s.nr :: k == SkippedKey(s.dhr.value, s.nr);
  }

  lemma TurnComplete(c: Crypto, s: State, h: Header, gen: Key, used: set<SkippedKey>)
    requires Tracked(s, used) && TurnTo(c, s, h, gen).Ok?
    ensures TurnTo(c, s, h, gen).value.dhr.Some? && Complete(TurnTo(c, s, h, gen).value, used)
  {
    hide SkipMessageKeys;
  }

  /** The positions of the headers accepted so far. */
  function UsedAll(c: Crypto, s: State, used: set<SkippedKey>, events: seq<Event>): set<SkippedKey>
    decreases |events|
  {
    if events == [] then used else UsedAll(c, After(c, s, events[0]), used + UsedBy(c, s, events[0]), events[1..])
  }

  lemma AfterTracked(c: Crypto, s: State, e: Event, used: set<SkippedKey>)
    requires Tracked(s, used)
    ensures Tracked(After(c, s, e), used + UsedBy(c, s, e))
  {
    hide AdvanceForHeader, Sound, Spent;
    AfterSound(c, s, e, used);
    if Accepted(c, s, e) {
      AdvanceTracked(c, s, e.header, e.gen, used);
    } else {
      assert used + UsedBy(c, s, e) == used;
    }
  }

  lemma {:induction false} AllTracked(c: Crypto, s: State, used: set<SkippedKey>, events: seq<Event>)
    requires Tracked(s, used)
    ensures Tracked(AfterAll(c, s, events), UsedAll(c, s, used, events))
    decreases |events|
  {
    hide Tracked, After, UsedBy;
    if events != [] {
      AfterTracked(c, s, events[0], used);
      AllTracked(c, After(c, s, events[0]), used + UsedBy(c, s, events[0]), events[1..]);
    }
  }

  /** Some call accepted a header of this remote key and number. */
  ghost predicate WasAccepted(c: Crypto, s: State, events: seq<Event>, k: SkippedKey) {
    exists i :: 0 <= i < |events| && AcceptedAt(c, s, events, i) && Position(events[i]) == k
  }

  lemma AcceptedFirst(c: Crypto, s: State, events: seq<Event>, k: SkippedKey)
    requires events != []
    ensures WasAccepted(c, s, events, k) <==> k in UsedBy(c, s, events[0]) || WasAccepted(c, After(c, s, events[0]), events[1..], k)
  {
    hide AdvanceForHeader, After;
    var next, rest := After(c, s, events[0]), events[1..];
    if WasAccepted(c, next, rest, k) {
      var i :| 0 <= i < |rest| && AcceptedAt(c, next, rest, i) && Position(rest[i]) == k;
      assert events[..i + 1][1..] == rest[..i];
      assert AcceptedAt(c, s, events, i + 1) && Position(events[i + 1]) == k;
    }
    if k in UsedBy(c, s, events[0]) {
      assert AcceptedAt(c, s, events, 0) && Position(events[0]) == k;
    }
    if WasAccepted(c, s, events, k) {
      var i :| 0 <= i < |events| && AcceptedAt(c, s, events, i) && Position(events[i]) == k;
      if i > 0 {
        assert events[..i][1..] == rest[..i - 1];
        assert AcceptedAt(c, next, rest, i - 1) && Position(rest[i - 1]) == k;
      }
    }
  }

  lemma {:induction false} UsedIsAccepted(c: Crypto, s: State, used: set<SkippedKey>, events: seq<Event>, k: SkippedKey)
    ensures k in UsedAll(c, s, used, events) <==> k in used || WasAccepted(c, s, events, k)
    decreases |events|
  {
    hide UsedBy, After, WasAccepted;
    if events == [] {
      assert !WasAccepted(c, s, events, k) by { NoneAccepted(c, s, k); }
    } else {
      AcceptedFirst(c, s, events, k);
      UsedIsAccepted(c, After(c, s, events[0]), used + UsedBy(c, s, events[0]), events[1..], k);
    }
  }

  lemma NoneAccepted(c: Crypto, s: State, k: SkippedKey)
    ensures !WasAccepted(c, s, [], k)
  {
  }

  /** A state as a session starts with it. */
  ghost predicate Starting(s: State) {
    s.dhr.Some? && s.seen == {s.dhr.value} && s.skipped == map[] && s.ns == 0 && s.nr == 0 && s.pn == 0
  }

  lemma StartsStarting(c: Crypto, x: Agreed, gen: Key, genSend: Key)
    ensures StartInitiator(c, x, gen).Ok? ==> Starting(StartInitiator(c, x, gen).value)
    ensures StartResponder(c, x, gen, genSend).Ok? ==> Starting(StartResponder(c, x, gen, genSend).value)
  {
  }

  /** Over any calls with any headers: the keys that are stored are exactly those of the current remote key
      below its counter whose header was not accepted. */
  lemma StoredExactly(c: Crypto, s: State, events: seq<Event>, k: SkippedKey)
    requires Starting(s)
    ensures var t := AfterAll(c, s, events);
      t.dhr.Some? && (k in t.skipped <==> k.dh == t.dhr.value && k.n < t.nr && !WasAccepted(c, s, events, k))
  {
    hide AfterAll, UsedAll, WasAccepted;
    assert Tracked(s, {});
    AllTracked(c, s, {}, events);
    UsedIsAccepted(c, s, {}, events, k);
  }

  // ---------------------------------------------------------------- seen remote keys

  ghost predicate KeyAccepted(c: Crypto, s: State, events: seq<Event>, dh: Key) {
    exists i :: 0 <= i < |events| && AcceptedAt(c, s, events, i) && events[i].header.dh == dh
  }

  /** Accepting a header makes its remote key a seen one, and nothing else does. */
  lemma AdvanceSeen(c: Crypto, s: State, h: Header, gen: Key)
    requires Sound(s) && AdvanceForHeader(c, s, h, gen).Ok?
    ensures AdvanceForHeader(c, s, h, gen).value.state.seen == s.seen + {h.dh}
  {
    hide SkipMessageKeys;
    if SkippedKey(h.dh, h.n) !in s.skipped {
      var t := if s.dhr == Some(h.dh) then s else SkipMessageKeys(c, s, h.pn).value;
      if s.dhr != Some(h.dh) {
        SkipKeepsRest(c, s, h.pn);
      }
      var u := TurnTo(c, s, h, gen).value;
      SkipKeepsRest(c, u, h.n);
    }
  }

  lemma {:induction false} SeenAll(c: Crypto, s: State, events: seq<Event>, dh: Key)
    requires Sound(s)
    ensures dh in AfterAll(c, s, events).seen <==> dh in s.seen || KeyAccepted(c, s, events, dh)
    decreases |events|
  {
    hide AdvanceForHeader, Sound, Spent;
    if events != [] {
      var next, rest := After(c, s, events[0]), events[1..];
      assert Spent(s, {}) by { NothingSpent(s); }
      AfterSound(c, s, events[0], {});
      if Accepted(c, s, events[0]) {
        AdvanceSeen(c, s, events[0].header, events[0].gen);
      }
      KeyAcceptedFirst(c, s, events, dh);
      SeenAll(c, next, rest, dh);
    }
  }

  lemma KeyAcceptedFirst(c: Crypto, s: State, events: seq<Event>, dh: Key)
    requires events != []
    ensures KeyAccepted(c, s, events, dh) <==>
      (Accepted(c, s, events[0]) && events[0].header.dh == dh) || KeyAccepted(c, After(c, s, events[0]), events[1..], dh)
  {
    hide AdvanceForHeader, After;
    var next, rest := After(c, s, events[0]), events[1..];
    if KeyAccepted(c, next, rest, dh) {
      var i :| 0 <= i < |rest| && AcceptedAt(c, next, rest, i) && rest[i].header.dh == dh;
      assert events[..i + 1][1..] == rest[..i];
      assert AcceptedAt(c, s, events, i + 1) && events[i + 1].header.dh == dh;
    }
    if Accepted(c, s, events[0]) && events[0].header.dh == dh {
      assert AcceptedAt(c, s, events, 0);
    }
    if KeyAccepted(c, s, events, dh) {
      var i :| 0 <= i < |events| && AcceptedAt(c, s, events, i) && events[i].header.dh == dh;
      if i > 0 {
        assert events[..i][1..] == rest[..i - 1];
        assert AcceptedAt(c, next, rest, i - 1) && rest[i - 1].header.dh == dh;
      }
    }
  }

  // ---------------------------------------------------------------- exactly which headers are accepted

  /** After any calls a header of the current remote key behind the counter is accepted exactly when it was
      not accepted before; one ahead exactly when what is skipped fits and the chain has a key there. */
  lemma AcceptsCurrent(c: Crypto, s: State, events: seq<Event>, h: Header, gen: Key)
    requires Starting(s) && AfterAll(c, s, events).dhr == Some(h.dh) && h.n < MAX_COUNTER
    ensures var t := AfterAll(c, s, events);
      AdvanceForHeader(c, t, h, gen).Ok? <==>
        if h.n < t.nr then !WasAccepted(c, s, events, SkippedKey(h.dh, h.n))
        else Fits(t, h.n) && ChainAfter(c, t.ckr, h.n - t.nr) != ZERO
  {
    hide AfterAll, WasAccepted, ChainAfter;
    var t := AfterAll(c, s, events);
    var k := SkippedKey(h.dh, h.n);
    StaysSound(c, s, events);
    StoredExactly(c, s, events, k);
    if k !in t.skipped {
      AcceptsInChain(c, t, h, gen);
    }
  }

  /** After any calls a header is called a duplicate exactly when it was accepted before, or its remote key
      is one that was left behind. */
  lemma DuplicateExactly(c: Crypto, s: State, events: seq<Event>, h: Header, gen: Key)
    requires Starting(s)
    ensures var t := AfterAll(c, s, events);
      AdvanceForHeader(c, t, h, gen) == Err(Duplicate) <==>
        if t.dhr == Some(h.dh) then h.n < t.nr && WasAccepted(c, s, events, SkippedKey(h.dh, h.n))
        else h.dh == s.dhr.value || KeyAccepted(c, s, events, h.dh)
  {
    hide AfterAll, WasAccepted, KeyAccepted;
    var t := AfterAll(c, s, events);
    StaysSound(c, s, events);
    StoredExactly(c, s, events, SkippedKey(h.dh, h.n));
    SeenAll(c, s, events, h.dh);
    OtherErrors(c, t, h, gen);
  }

  lemma OtherErrors(c: Crypto, s: State, h: Header, gen: Key)
    ensures AdvanceForHeader(c, s, h, gen) == Err(Duplicate) <==> SkippedKey(h.dh, h.n) !in s.skipped && IsDuplicate(s, h)
  {
    hide SkipMessageKeys;
    SkipErrors(c, s, h.pn);
    if TurnTo(c, s, h, gen).Ok? {
      SkipErrors(c, TurnTo(c, s, h, gen).value, h.n);
    }
  }

  // ---------------------------------------------------------------- sending

  /** What has been sent under the current key and under the one before, and the chain key it started from. */
  datatype SentSoFar = SentSoFar(count: nat, previous: nat, first: Key)

  predicate Turns(c: Crypto, s: State, e: Event) {
    Accepted(c, s, e) && s.dhr != Some(e.header.dh)
  }

  function Counted(c: Crypto, s: State, w: SentSoFar, e: Event): SentSoFar {
    if e.Sends? && NextSendingMessageKey(c, s).Ok? then w.(count := w.count + 1)
    else if Turns(c, s, e) then SentSoFar(0, w.count, After(c, s, e).cks)
    else w
  }

  function CountedAll(c: Crypto, s: State, w: SentSoFar, events: seq<Event>): SentSoFar
    decreases |events|
  {
    if events == [] then w else CountedAll(c, After(c, s, events[0]), Counted(c, s, w, events[0]), events[1..])
  }

  ghost predicate Numbered(c: Crypto, s: State, w: SentSoFar) {
    s.ns == w.count && s.pn == w.previous && s.cks == ChainAfter(c, w.first, w.count)
  }

  lemma AdvanceNumbered(c: Crypto, s: State, h: Header, gen: Key)
    requires Sound(s) && AdvanceForHeader(c, s, h, gen).Ok?
    ensures var r := AdvanceForHeader(c, s, h, gen).value.state;
      if s.dhr == Some(h.dh) then r.ns == s.ns && r.pn == s.pn && r.cks == s.cks
      else r.ns == 0 && r.pn == s.ns
  {
    hide SkipMessageKeys;
    if SkippedKey(h.dh, h.n) !in s.skipped {
      if s.dhr != Some(h.dh) {
        SkipKeepsRest(c, s, h.pn);
      }
      SkipKeepsRest(c, TurnTo(c, s, h, gen).value, h.n);
    }
  }

  lemma StepNumbered(c: Crypto, s: State, w: SentSoFar, e: Event)
    requires Sound(s) && Numbered(c, s, w)
    ensures Numbered(c, After(c, s, e), Counted(c, s, w, e))
  {
    hide AdvanceForHeader;
    if Accepted(c, s, e) {
      AdvanceNumbered(c, s, e.header, e.gen);
    }
  }

  lemma {:induction false} AllNumbered(c: Crypto, s: State, w: SentSoFar, events: seq<Event>)
    requires Sound(s) && Numbered(c, s, w)
    ensures Numbered(c, AfterAll(c, s, events), CountedAll(c, s, w, events))
    decreases |events|
  {
    hide Sound, Spent, After, Counted, Numbered;
    if events != [] {
      assert Spent(s, {}) by { NothingSpent(s); }
      AfterSound(c, s, events[0], {});
      StepNumbered(c, s, w, events[0]);
      AllNumbered(c, After(c, s, events[0]), Counted(c, s, w, events[0]), events[1..]);
    }
  }

  /** Over any calls with any headers: the next message goes out with the number of those sent since the
      ratchet last turned, announces how many were sent before that, and has the next key of the chain
      of that turn. It can be sent exactly while there is a key and a number for it. */
  lemma SendsInOrder(c: Crypto, s: State, events: seq<Event>)
    requires Starting(s)
    ensures var t, w := AfterAll(c, s, events), CountedAll(c, s, SentSoFar(0, 0, s.cks), events);
      var r := NextSendingMessageKey(c, t);
      && (r.Ok? <==> t.dhs.Some? && ChainAfter(c, w.first, w.count) != ZERO && w.count != MAX_COUNTER)
      && (r.Ok? ==>
           && r.value.header == Header(c.pub(t.dhs.value), w.previous, w.count)
           && r.value.key == c.kdfChain(ChainAfter(c, w.first, w.count)).out)
  {
    hide AfterAll, CountedAll;
    AllNumbered(c, s, SentSoFar(0, 0, s.cks), events);
  }
}
