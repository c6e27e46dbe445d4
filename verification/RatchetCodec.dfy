/** Saving and restoring the Double Ratchet state (ratchet/serialize.go). Map entries are written in
    increasing order, so the bytes depend on the state alone. */
module RatchetCodec {
  import opened Words
  import opened Results
  import opened Sorting
  import opened Erasure
  import opened Codec
  import opened Ratchet
  import RatchetReplay

  const VERSION: Byte := 1

  // ---------------------------------------------------------------- keys

  ghost predicate KeySized(k: Key) {
    k.word < Pow256(32)
  }

  function PutKey(k: Key): (b: Bytes)
    ensures |b| == 32
  {
    BigEndian(k.word, 32)
  }

  function GetKey(data: Bytes): (r: Reading<Key>)
    ensures r.Ok? ==> KeySized(r.value.value)
  {
    var w :- GetNumber(data, 32);
    Ok(Read(Key(w.value), w.rest))
  }

  lemma GetsKey(k: Key, rest: Bytes)
    requires KeySized(k)
    ensures GetKey(PutKey(k) + rest) == Ok(Read(k, rest))
  {
    hide BigEndian, GetNumber, Pow256;
    GetsNumber(k.word, 32, rest);
  }

  function PutOptional(k: Option<Key>): Bytes {
    if k.Some? then PutKey(k.value) else []
  }

  function GetOptional(data: Bytes, present: bool): Reading<Option<Key>> {
    if present then
      var k :- GetKey(data);
      Ok(Read(Some(k.value), k.rest))
    else Ok(Read(None, data))
  }

  lemma GetsOptional(k: Option<Key>, rest: Bytes)
    requires k.Some? ==> KeySized(k.value)
    ensures GetOptional(PutOptional(k) + rest, k.Some?) == Ok(Read(k, rest))
  {
    hide PutKey, GetKey;
    if k.Some? {
      GetsKey(k.value, rest);
    } else {
      assert [] + rest == rest;
    }
  }

  // ---------------------------------------------------------------- skipped keys, by remote key and number

  /** The place of an entry in the order of writing. */
  function Place(k: SkippedKey): nat {
    k.dh.word * WORD + k.n
  }

  function AtPlace(p: nat): SkippedKey {
    SkippedKey(Key(p / WORD), p % WORD)
  }

  lemma PlaceInverse(k: SkippedKey)
    requires k.n < WORD
    ensures AtPlace(Place(k)) == k
  {
  }

  function Places(skipped: map<SkippedKey, Key>): set<nat> {
    set k | k in skipped :: Place(k)
  }

  function PutSkipped(k: SkippedKey, mk: Key): Bytes {
    PutKey(k.dh) + (BigEndian(k.n, 4) + PutKey(mk))
  }

  function GetSkipped(data: Bytes): Reading<(SkippedKey, Key)> {
    var dh :- GetKey(data);
    var num :- GetNumber(dh.rest, 4);
    var mk :- GetKey(num.rest);
    Ok(Read((SkippedKey(dh.value, num.value), mk.value), mk.rest))
  }

  ghost predicate EntriesSized(skipped: map<SkippedKey, Key>) {
    forall k | k in skipped :: KeySized(k.dh) && k.n < WORD && KeySized(skipped[k])
  }

  lemma GetsSkipped(k: SkippedKey, mk: Key)
    requires KeySized(k.dh) && k.n < WORD && KeySized(mk)
    ensures ReadsBack(PutSkipped, GetSkipped, k, mk)
  {
    hide PutKey, GetKey, BigEndian, GetNumber, KeySized;
    forall rest: Bytes
      ensures GetSkipped(PutSkipped(k, mk) + rest) == Ok(Read((k, mk), rest))
    {
      var t2 := PutKey(mk) + rest;
      var t1 := BigEndian(k.n, 4) + t2;
      assert PutSkipped(k, mk) + rest == PutKey(k.dh) + t1;
      GetsKey(k.dh, t1);
      GetsWord(k.n, t2);
      GetsKey(mk, rest);
    }
  }

  /** As many places as entries. */
  lemma {:induction false} PlacesCount(skipped: map<SkippedKey, Key>)
    requires forall k | k in skipped :: k.n < WORD
    ensures |Places(skipped)| == |skipped|
  {
    if skipped != map[] {
      var k :| k in skipped;
      var fewer := skipped - {k};
      PlacesCount(fewer);
      assert fewer.Keys == skipped.Keys - {k};
      assert Places(skipped) == Places(fewer) + {Place(k)};
      if Place(k) in Places(fewer) {
        var j :| j in fewer && Place(j) == Place(k);
        PlaceInverse(j);
        PlaceInverse(k);
      }
    }
  }

  lemma PlacesBack(skipped: map<SkippedKey, Key>, p: nat)
    requires (forall k | k in skipped :: k.n < WORD) && p in Places(skipped)
    ensures AtPlace(p) in skipped
  {
    hide AtPlace;
    var k :| k in skipped && Place(k) == p;
    PlaceInverse(k);
  }

  // ---------------------------------------------------------------- seen keys

  function WordsOf(seen: set<Key>): set<nat> {
    set k | k in seen :: k.word
  }

  function PutSeen(words: seq<nat>): Bytes {
    if words == [] then [] else PutKey(Key(words[0])) + PutSeen(words[1..])
  }

  function GetSeen(data: Bytes, n: nat, got: set<Key>): Reading<set<Key>>
    decreases n
  {
    if n == 0 then Ok(Read(got, data))
    else
      var k :- GetKey(data);
      GetSeen(k.rest, n - 1, got + {k.value})
  }

  lemma {:induction false} GetsSeen(words: seq<nat>, got: set<Key>, rest: Bytes)
    requires forall w | w in words :: KeySized(Key(w))
    ensures GetSeen(PutSeen(words) + rest, |words|, got) == Ok(Read(got + (set w | w in words :: Key(w)), rest))
    decreases |words|
  {
    hide PutKey, GetKey, KeySized;
    if words == [] {
      assert PutSeen(words) + rest == rest;
      assert got + (set w | w in words :: Key(w)) == got;
    } else {
      var tail := PutSeen(words[1..]) + rest;
      assert PutSeen(words) + rest == PutKey(Key(words[0])) + tail;
      GetsKey(Key(words[0]), tail);
      GetsSeen(words[1..], got + {Key(words[0])}, rest);
      assert got + {Key(words[0])} + (set w | w in words[1..] :: Key(w)) == got + (set w | w in words :: Key(w));
    }
  }

  lemma {:induction false} WordsCount(seen: set<Key>)
    ensures |WordsOf(seen)| == |seen|
  {
    if seen != {} {
      var k :| k in seen;
      WordsCount(seen - {k});
      assert WordsOf(seen) == WordsOf(seen - {k}) + {k.word};
    }
  }

  // ---------------------------------------------------------------- the state

  /** The public key of a pair is written beside the private one and can be had from it. */
  function Save(c: Crypto, s: State): Bytes
    requires Storable(c, s)
  {
    [VERSION, (if s.dhs.Some? then 1 else 0) + (if s.dhr.Some? then 2 else 0)] +
    ((if s.dhs.Some? then PutKey(c.pub(s.dhs.value)) else []) + (PutOptional(s.dhs) + (PutOptional(s.dhr) + PutBody(c, s))))
  }

  function PutBody(c: Crypto, s: State): Bytes
    requires Storable(c, s)
  {
    PutKey(s.rk) + (PutKey(s.cks) + (PutKey(s.ckr) + (BigEndian(s.ns, 4) + (BigEndian(s.nr, 4) + (BigEndian(s.pn, 4) + PutTail(s.skipped, s.seen))))))
  }

  ghost predicate Numbered(skipped: map<SkippedKey, Key>) {
    forall k | k in skipped :: k.n < WORD
  }

  /** The entries in the order they are written. */
  function Listed(skipped: map<SkippedKey, Key>): (keys: seq<SkippedKey>)
    requires Numbered(skipped)
    ensures |keys| == |skipped| && (forall k | k in keys :: k in skipped) && (forall k | k in skipped :: k in keys)
  {
    AllListed(skipped);
    AtPlaces(SortedKeys(Places(skipped)))
  }

  function AtPlaces(places: seq<nat>): seq<SkippedKey> {
    seq(|places|, i requires 0 <= i < |places| => AtPlace(places[i]))
  }

  function PutTail(skipped: map<SkippedKey, Key>, seen: set<Key>): Bytes
    requires Numbered(skipped)
  {
    BigEndian(|skipped|, 4) + (PutEntries(skipped, Listed(skipped), PutSkipped) + (BigEndian(|seen|, 4) + PutSeen(SortedKeys(WordsOf(seen)))))
  }

  datatype Tail = Tail(skipped: map<SkippedKey, Key>, seen: set<Key>)

  function GetTail(data: Bytes): Restored<Tail> {
    var n :- GetNumber(data, 4);
    if n.value > MAX_SKIP then Err(Malformed)
    else
      var skipped :- GetEntries(n.rest, n.value, map[], GetSkipped);
      var m :- GetNumber(skipped.rest, 4);
      var seen :- GetSeen(m.rest, m.value, {});
      if seen.rest != [] then Err(Malformed) else Ok(Tail(skipped.value, seen.value))
  }

  function GetBody(data: Bytes, dhs: Option<Key>, dhr: Option<Key>): Restored<State> {
    var rk :- GetKey(data);
    var cks :- GetKey(rk.rest);
    var ckr :- GetKey(cks.rest);
    var ns :- GetNumber(ckr.rest, 4);
    var nr :- GetNumber(ns.rest, 4);
    var pn :- GetNumber(nr.rest, 4);
    var tail :- GetTail(pn.rest);
    Ok(State(dhs, dhr, rk.value, cks.value, ckr.value, ns.value, nr.value, pn.value, tail.skipped, tail.seen))
  }

  function Restore(data: Bytes): Restored<State> {
    if |data| < 2 || data[0] != VERSION then Err(Malformed)
    else
      var hasDhs, hasDhr := data[1] % 2 == 1, data[1] / 2 % 2 == 1;
      var pub :- GetOptional(data[2..], hasDhs);
      var dhs :- GetOptional(pub.rest, hasDhs);
      var dhr :- GetOptional(dhs.rest, hasDhr);
      GetBody(dhr.rest, dhs.value, dhr.value)
  }

  ghost predicate Storable(c: Crypto, s: State) {
    && (s.dhs.Some? ==> KeySized(s.dhs.value) && KeySized(c.pub(s.dhs.value)))
    && (s.dhr.Some? ==> KeySized(s.dhr.value))
    && KeySized(s.rk) && KeySized(s.cks) && KeySized(s.ckr)
    && s.ns < WORD && s.nr < WORD && s.pn < WORD
    && EntriesSized(s.skipped) && Numbered(s.skipped) && |s.skipped| <= MAX_SKIP
    && (forall k | k in s.seen :: KeySized(k)) && |s.seen| < WORD
  }

  lemma PlacesListed(skipped: map<SkippedKey, Key>)
    requires Numbered(skipped)
    ensures forall p | p in SortedKeys(Places(skipped)) :: AtPlace(p) in skipped
    ensures forall k {:trigger Place(k)} | k in skipped :: Place(k) in SortedKeys(Places(skipped))
    ensures |SortedKeys(Places(skipped))| == |skipped|
  {
    hide SortedKeys, AtPlace, Place;
    PlacesCount(skipped);
    SortedKeysAll(Places(skipped));
    forall p | p in Places(skipped)
      ensures AtPlace(p) in skipped
    {
      PlacesBack(skipped, p);
    }
  }

  lemma AllListed(skipped: map<SkippedKey, Key>)
    requires Numbered(skipped)
    ensures var keys := AtPlaces(SortedKeys(Places(skipped)));
      |keys| == |skipped| && (forall k | k in keys :: k in skipped) && (forall k | k in skipped :: k in keys)
  {
    hide SortedKeys, AtPlace, Place;
    PlacesListed(skipped);
    var places := SortedKeys(Places(skipped));
    var keys := AtPlaces(places);
    assert forall i | 0 <= i < |keys| :: keys[i] == AtPlace(places[i]) && keys[i] in skipped;
    forall k | k in skipped
      ensures k in keys
    {
      assert Place(k) in places;
      var i :| 0 <= i < |places| && places[i] == Place(k);
      PlaceInverse(k);
      assert keys[i] == k;
    }
  }

  lemma GetsAllSkipped(skipped: map<SkippedKey, Key>, rest: Bytes)
    requires Numbered(skipped) && EntriesSized(skipped)
    ensures GetEntries(PutEntries(skipped, Listed(skipped), PutSkipped) + rest, |skipped|, map[], GetSkipped) == Ok(Read(skipped, rest))
  {
    hide PutSkipped, GetSkipped, PutEntries, GetEntries, Listed, ReadsBack, KeySized;
    var keys := Listed(skipped);
    forall k | k in keys
      ensures ReadsBack(PutSkipped, GetSkipped, k, skipped[k])
    {
      GetsSkipped(k, skipped[k]);
    }
    GetsEntries(skipped, keys, PutSkipped, GetSkipped, rest);
  }

  lemma GetsAllSeen(seen: set<Key>)
    requires forall k | k in seen :: KeySized(k)
    ensures GetSeen(PutSeen(SortedKeys(WordsOf(seen))), |seen|, {}) == Ok(Read(seen, []))
  {
    hide PutSeen, GetSeen, SortedKeys, KeySized, WordsOf;
    var words := SortedKeys(WordsOf(seen));
    WordsListed(seen);
    GetsSeen(words, {}, []);
    assert PutSeen(words) + [] == PutSeen(words);
  }

  lemma GetsTail(skipped: map<SkippedKey, Key>, seen: set<Key>)
    requires Numbered(skipped) && EntriesSized(skipped) && |skipped| <= MAX_SKIP
    requires (forall k | k in seen :: KeySized(k)) && |seen| < WORD
    ensures GetTail(PutTail(skipped, seen)) == Ok(Tail(skipped, seen))
  {
    hide BigEndian, GetNumber, PutEntries, GetEntries, PutSkipped, GetSkipped, PutSeen, GetSeen, Listed, KeySized, EntriesSized, SortedKeys, WordsOf;
    var last := PutSeen(SortedKeys(WordsOf(seen)));
    var rest := BigEndian(|seen|, 4) + last;
    GetsWord(|skipped|, PutEntries(skipped, Listed(skipped), PutSkipped) + rest);
    GetsAllSkipped(skipped, rest);
    GetsWord(|seen|, last);
    GetsAllSeen(seen);
  }

  lemma WordsListed(seen: set<Key>)
    requires forall k | k in seen :: KeySized(k)
    ensures var words := SortedKeys(WordsOf(seen));
      && |words| == |seen| && (forall w | w in words :: KeySized(Key(w)))
      && {} + (set w | w in words :: Key(w)) == seen
  {
    hide SortedKeys, KeySized;
    WordsCount(seen);
    SortedKeysAll(WordsOf(seen));
    var words := SortedKeys(WordsOf(seen));
    forall w | w in words
      ensures Key(w) in seen
    {
      assert w in WordsOf(seen);
    }
    forall k | k in seen
      ensures k in (set w | w in words :: Key(w))
    {
      assert k.word in WordsOf(seen);
    }
  }

  lemma GetsBody(c: Crypto, s: State)
    requires Storable(c, s)
    ensures GetBody(PutBody(c, s), s.dhs, s.dhr) == Ok(s)
  {
    hide BigEndian, GetNumber, PutKey, GetKey, PutTail, GetTail, KeySized;
    var t6 := PutTail(s.skipped, s.seen);
    var t5 := BigEndian(s.pn, 4) + t6;
    var t4 := BigEndian(s.nr, 4) + t5;
    var t3 := BigEndian(s.ns, 4) + t4;
    var t2 := PutKey(s.ckr) + t3;
    var t1 := PutKey(s.cks) + t2;
    GetsKey(s.rk, t1);
    GetsKey(s.cks, t2);
    GetsKey(s.ckr, t3);
    GetsWord(s.ns, t4);
    GetsWord(s.nr, t5);
    GetsWord(s.pn, t6);
    GetsTail(s.skipped, s.seen);
  }

  /** Restoring what was saved gives the state back. */
  lemma SaveRestore(c: Crypto, s: State)
    requires Storable(c, s)
    ensures Restore(Save(c, s)) == Ok(s)
  {
    hide PutKey, GetKey, PutBody, GetBody, KeySized, PutOptional, GetOptional;
    var pub := if s.dhs.Some? then Some(c.pub(s.dhs.value)) else None;
    var t2 := PutOptional(s.dhr) + PutBody(c, s);
    var t1 := PutOptional(s.dhs) + t2;
    assert Save(c, s)[2..] == PutOptional(pub) + t1 by { PubOptional(c, s); }
    GetsOptional(pub, t1);
    GetsOptional(s.dhs, t2);
    GetsOptional(s.dhr, PutBody(c, s));
    GetsBody(c, s);
  }

  lemma PubOptional(c: Crypto, s: State)
    ensures (if s.dhs.Some? then PutKey(c.pub(s.dhs.value)) else []) == PutOptional(if s.dhs.Some? then Some(c.pub(s.dhs.value)) else None)
  {
  }

  // ---------------------------------------------------------------- every state that is reached can be saved

  /** The primitives give 32 bytes. */
  ghost predicate GivesKeys(c: Crypto) {
    && (forall k :: KeySized(c.pub(k)))
    && (forall r, d :: KeySized(c.kdfRoot(r, d).next) && KeySized(c.kdfRoot(r, d).out))
    && (forall k :: KeySized(c.kdfChain(k).next) && KeySized(c.kdfChain(k).out))
  }

  /** Everything but the number of entries is as saving needs it. */
  ghost predicate AllSized(c: Crypto, s: State) {
    && (s.dhs.Some? ==> KeySized(s.dhs.value) && KeySized(c.pub(s.dhs.value)))
    && (s.dhr.Some? ==> KeySized(s.dhr.value))
    && KeySized(s.rk) && KeySized(s.cks) && KeySized(s.ckr)
    && s.ns < WORD && s.nr < WORD && s.pn < WORD
    && EntriesSized(s.skipped) && Numbered(s.skipped)
    && (forall k | k in s.seen :: KeySized(k))
  }

  ghost predicate Sane(e: RatchetReplay.Event) {
    e.Receives? ==> KeySized(e.header.dh) && e.header.n < WORD && e.header.pn < WORD && KeySized(e.gen)
  }

  lemma {:induction false} SkipSized(c: Crypto, s: State, until: nat)
    requires GivesKeys(c) && AllSized(c, s) && until < WORD && SkipMessageKeys(c, s, until).Ok?
    ensures AllSized(c, SkipMessageKeys(c, s, until).value)
    decreases until - s.nr
  {
    hide KeySized;
    if s.nr < until {
      SkipSized(c, SkipOne(c, s), until);
    }
  }

  lemma TurnSized(c: Crypto, s: State, h: Header, gen: Key)
    requires GivesKeys(c) && AllSized(c, s) && KeySized(h.dh) && h.pn < WORD && KeySized(gen) && TurnTo(c, s, h, gen).Ok?
    ensures AllSized(c, TurnTo(c, s, h, gen).value)
  {
    hide KeySized, SkipMessageKeys;
    if s.dhr != Some(h.dh) {
      SkipSized(c, s, h.pn);
    }
  }

  lemma AfterSized(c: Crypto, s: State, e: RatchetReplay.Event)
    requires GivesKeys(c) && AllSized(c, s) && Sane(e)
    ensures AllSized(c, RatchetReplay.After(c, s, e))
  {
    hide KeySized, SkipMessageKeys, TurnTo;
    if e.Receives? && AdvanceForHeader(c, s, e.header, e.gen).Ok? && SkippedKey(e.header.dh, e.header.n) !in s.skipped {
      TurnSized(c, s, e.header, e.gen);
      SkipSized(c, TurnTo(c, s, e.header, e.gen).value, e.header.n);
    }
  }

  lemma {:induction false} AllAfterSized(c: Crypto, s: State, events: seq<RatchetReplay.Event>)
    requires GivesKeys(c) && AllSized(c, s) && forall k | 0 <= k < |events| :: Sane(events[k])
    ensures AllSized(c, RatchetReplay.AfterAll(c, s, events))
    decreases |events|
  {
    hide AllSized, RatchetReplay.After, GivesKeys;
    if events != [] {
      AfterSized(c, s, events[0]);
      AllAfterSized(c, RatchetReplay.After(c, s, events[0]), events[1..]);
    }
  }

  /** After any calls on a sound state, whatever the headers, the state saves and restores: the skip
      limit keeps it under the limit of the reader. */
  lemma ReachedRoundTrips(c: Crypto, s: State, events: seq<RatchetReplay.Event>)
    requires GivesKeys(c) && AllSized(c, s) && RatchetReplay.Sound(s) && forall k | 0 <= k < |events| :: Sane(events[k])
    ensures var t := RatchetReplay.AfterAll(c, s, events);
      |t.seen| < WORD ==> Storable(c, t) && Restore(Save(c, t)) == Ok(t)
  {
    hide RatchetReplay.AfterAll, Save, Restore, GivesKeys;
    RatchetReplay.StaysSound(c, s, events);
    AllAfterSized(c, s, events);
    var t := RatchetReplay.AfterAll(c, s, events);
    if |t.seen| < WORD {
      SaveRestore(c, t);
    }
  }

  /** The key agreement and the key generator give 32 bytes. */
  ghost predicate AgreedSized(x: Agreed) {
    && KeySized(x.secret) && KeySized(x.ephemeralPub)
    && (x.initialChain.Some? ==> KeySized(x.initialChain.value))
    && (x.remoteRatchet.Some? ==> KeySized(x.remoteRatchet.value))
    && (x.localEphemeral.Some? ==> KeySized(x.localEphemeral.value))
    && (x.localRatchet.Some? ==> KeySized(x.localRatchet.value))
  }

  lemma StartsSized(c: Crypto, x: Agreed, gen: Key, genSend: Key)
    requires GivesKeys(c) && AgreedSized(x) && KeySized(gen) && KeySized(genSend)
    ensures StartInitiator(c, x, gen).Ok? ==> AllSized(c, StartInitiator(c, x, gen).value)
    ensures StartResponder(c, x, gen, genSend).Ok? ==> AllSized(c, StartResponder(c, x, gen, genSend).value)
  {
    hide KeySized;
    assert KeySized(ZERO) by { ZeroSized(); }
  }

  lemma ZeroSized()
    ensures KeySized(ZERO)
  {
  }

  /** From the key agreement on, on either side and whatever the headers, the state saves and restores. */
  lemma StartedRoundTrips(c: Crypto, x: Agreed, gen: Key, genSend: Key, initiator: bool, events: seq<RatchetReplay.Event>)
    requires GivesKeys(c) && AgreedSized(x) && KeySized(gen) && KeySized(genSend) && forall k | 0 <= k < |events| :: Sane(events[k])
    requires if initiator then StartInitiator(c, x, gen).Ok? else StartResponder(c, x, gen, genSend).Ok?
    ensures var s := if initiator then StartInitiator(c, x, gen).value else StartResponder(c, x, gen, genSend).value;
      var t := RatchetReplay.AfterAll(c, s, events);
      |t.seen| < WORD ==> Storable(c, t) && Restore(Save(c, t)) == Ok(t)
  {
    hide RatchetReplay.AfterAll, RatchetReplay.Sound, Save, Restore, Storable, AllSized, GivesKeys, AgreedSized, KeySized;
    StartsSized(c, x, gen, genSend);
    RatchetReplay.StartsSound(c, x, gen, genSend);
    var s := if initiator then StartInitiator(c, x, gen).value else StartResponder(c, x, gen, genSend).value;
    ReachedRoundTrips(c, s, events);
  }
}
