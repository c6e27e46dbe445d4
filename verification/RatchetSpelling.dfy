/** Which bytes restore a Double Ratchet state (ratchet/serialize.go): exactly those that spell it. */
module RatchetSpelling {
  import opened Words
  import opened Results
  import opened Erasure
  import opened Codec
  import opened Spelling
  import opened Ratchet
  import opened RatchetCodec

  /** What bytes may say beside the state: the public key and the six upper flags, which are not looked
      at, and the entries in the order and as often as they come. */
  datatype Extras = Extras(flags: Byte, pub: Option<Key>, skipped: seq<(SkippedKey, Key)>, seen: seq<nat>)

  function Spelled(s: State, x: Extras): Bytes {
    [VERSION, x.flags] + (PutOptional(x.pub) + (PutOptional(s.dhs) + (PutOptional(s.dhr) + SpelledBody(s, x))))
  }

  function SpelledBody(s: State, x: Extras): Bytes {
    PutKey(s.rk) + (PutKey(s.cks) + (PutKey(s.ckr) + (BigEndian(s.ns, 4) + (BigEndian(s.nr, 4) + (BigEndian(s.pn, 4) +
      SpelledTail(x))))))
  }

  function SpelledTail(x: Extras): Bytes {
    BigEndian(|x.skipped|, 4) + (PutList(x.skipped, PutSkipped) + (BigEndian(|x.seen|, 4) + PutSeen(x.seen)))
  }

  ghost predicate OptionalSized(k: Option<Key>) {
    k.Some? ==> KeySized(k.value)
  }

  ghost predicate Fits(s: State, x: Extras) {
    && (x.flags % 2 == 1 <==> s.dhs.Some?) && (x.flags / 2 % 2 == 1 <==> s.dhr.Some?) && (x.pub.Some? <==> s.dhs.Some?)
    && OptionalSized(x.pub) && OptionalSized(s.dhs) && OptionalSized(s.dhr)
    && KeySized(s.rk) && KeySized(s.cks) && KeySized(s.ckr) && s.ns < WORD && s.nr < WORD && s.pn < WORD
    && FitsTail(s.skipped, s.seen, x)
  }

  ghost predicate FitsTail(skipped: map<SkippedKey, Key>, seen: set<Key>, x: Extras) {
    && |x.skipped| <= MAX_SKIP && MapOf(x.skipped, map[]) == skipped
    && (forall e | e in x.skipped :: KeySized(e.0.dh) && e.0.n < WORD && KeySized(e.1))
    && |x.seen| < WORD && (forall w | w in x.seen :: KeySized(Key(w))) && seen == (set w | w in x.seen :: Key(w))
  }

  // ---------------------------------------------------------------- from the bytes

  lemma KeyRead(data: Bytes)
    requires GetKey(data).Ok?
    ensures var r := GetKey(data).value; data == PutKey(r.value) + r.rest
  {
    hide BigEndian, GetNumber;
    NumberRead(data, 32);
  }

  lemma OptionalRead(data: Bytes, present: bool)
    requires GetOptional(data, present).Ok?
    ensures var r := GetOptional(data, present).value;
      data == PutOptional(r.value) + r.rest && (r.value.Some? <==> present) && OptionalSized(r.value)
  {
    hide PutKey, GetKey, KeySized;
    if present {
      KeyRead(data);
    } else {
      assert [] + data == data;
    }
  }

  lemma SkippedWritten()
    ensures WrittenBack(PutSkipped, GetSkipped)
  {
    hide BigEndian, GetNumber, PutKey, GetKey, ReadsBack;
    forall data: Bytes | GetSkipped(data).Ok?
      ensures var r := GetSkipped(data).value;
        data == PutSkipped(r.value.0, r.value.1) + r.rest && ReadsBack(PutSkipped, GetSkipped, r.value.0, r.value.1)
    {
      KeyRead(data);
      var dh := GetKey(data).value;
      WordRead(dh.rest);
      var num := GetNumber(dh.rest, 4).value;
      KeyRead(num.rest);
      var mk := GetKey(num.rest).value;
      assert data == PutSkipped(SkippedKey(dh.value, num.value), mk.value) + mk.rest;
      GetsSkipped(SkippedKey(dh.value, num.value), mk.value);
    }
  }

  lemma {:induction false} SeenRead(data: Bytes, n: nat, got: set<Key>) returns (words: seq<nat>)
    requires GetSeen(data, n, got).Ok?
    ensures var r := GetSeen(data, n, got).value;
      && |words| == n && data == PutSeen(words) + r.rest && (forall w | w in words :: KeySized(Key(w)))
      && r.value == got + (set w | w in words :: Key(w))
    decreases n
  {
    hide PutKey, GetKey, KeySized;
    if n == 0 {
      words := [];
      assert PutSeen(words) + data == data;
      assert (set w | w in words :: Key(w)) == {};
    } else {
      KeyRead(data);
      var k := GetKey(data).value;
      var more := SeenRead(k.rest, n - 1, got + {k.value});
      words := [k.value.word] + more;
      assert words[1..] == more;
      assert got + {k.value} + (set w | w in more :: Key(w)) == got + (set w | w in words :: Key(w));
    }
  }

  lemma TailRead(data: Bytes) returns (x: Extras)
    requires GetTail(data).Ok?
    ensures data == SpelledTail(x) && FitsTail(GetTail(data).value.skipped, GetTail(data).value.seen, x)
  {
    hide BigEndian, GetNumber, PutSkipped, GetSkipped, GetEntries, GetSeen, KeySized, AllReadBack, PutSeen, PutList, MapOf;
    var n := GetNumber(data, 4).value;
    WordRead(data);
    SkippedWritten();
    var list := EntriesRead(n.rest, n.value, map[], PutSkipped, GetSkipped);
    SkippedSized(list);
    var skipped := GetEntries(n.rest, n.value, map[], GetSkipped).value;
    WordRead(skipped.rest);
    var m := GetNumber(skipped.rest, 4).value;
    var words := SeenRead(m.rest, m.value, {});
    assert PutSeen(words) + [] == PutSeen(words);
    x := Extras(0, None, list, words);
  }

  lemma SkippedSized(list: seq<(SkippedKey, Key)>)
    requires AllReadBack(PutSkipped, GetSkipped, list)
    ensures forall e | e in list :: KeySized(e.0.dh) && e.0.n < WORD && KeySized(e.1)
  {
    hide BigEndian, GetNumber, PutKey, GetKey;
    forall e | e in list
      ensures KeySized(e.0.dh) && e.0.n < WORD && KeySized(e.1)
    {
      assert ReadsBack(PutSkipped, GetSkipped, e.0, e.1);
      var data := PutSkipped(e.0, e.1) + [];
      assert GetSkipped(data) == Ok(Read((e.0, e.1), []));
      WordRead(GetKey(data).value.rest);
    }
  }

  lemma BodyRead(data: Bytes, dhs: Option<Key>, dhr: Option<Key>) returns (x: Extras)
    requires GetBody(data, dhs, dhr).Ok?
    ensures var s := GetBody(data, dhs, dhr).value;
      && data == SpelledBody(s, x) && s.dhs == dhs && s.dhr == dhr && FitsTail(s.skipped, s.seen, x)
      && KeySized(s.rk) && KeySized(s.cks) && KeySized(s.ckr) && s.ns < WORD && s.nr < WORD && s.pn < WORD
  {
    hide BigEndian, GetNumber, PutKey, GetKey, GetTail, SpelledTail, FitsTail, KeySized;
    var rk := GetKey(data).value;
    var cks := GetKey(rk.rest).value;
    var ckr := GetKey(cks.rest).value;
    var ns := GetNumber(ckr.rest, 4).value;
    var nr := GetNumber(ns.rest, 4).value;
    KeyRead(data);
    KeyRead(rk.rest);
    KeyRead(cks.rest);
    WordRead(ckr.rest);
    WordRead(ns.rest);
    WordRead(nr.rest);
    x := TailRead(GetNumber(nr.rest, 4).value.rest);
  }

  lemma SpellingRead(data: Bytes) returns (x: Extras)
    requires Restore(data).Ok?
    ensures data == Spelled(Restore(data).value, x) && Fits(Restore(data).value, x)
  {
    hide PutOptional, GetOptional, GetBody, SpelledBody, FitsTail, KeySized, OptionalSized;
    var pub := GetOptional(data[2..], data[1] % 2 == 1).value;
    var dhs := GetOptional(pub.rest, data[1] % 2 == 1).value;
    var dhr := GetOptional(dhs.rest, data[1] / 2 % 2 == 1).value;
    OptionalRead(data[2..], data[1] % 2 == 1);
    OptionalRead(pub.rest, data[1] % 2 == 1);
    OptionalRead(dhs.rest, data[1] / 2 % 2 == 1);
    var body := BodyRead(dhr.rest, dhs.value, dhr.value);
    x := body.(flags := data[1], pub := pub.value);
    SameTail(Restore(data).value, body, x);
    assert data == [data[0], data[1]] + data[2..];
  }

  lemma SameTail(s: State, x: Extras, y: Extras)
    requires x.skipped == y.skipped && x.seen == y.seen
    ensures SpelledBody(s, x) == SpelledBody(s, y) && FitsTail(s.skipped, s.seen, x) == FitsTail(s.skipped, s.seen, y)
  {
  }

  // ---------------------------------------------------------------- and back

  lemma TailRestores(skipped: map<SkippedKey, Key>, seen: set<Key>, x: Extras)
    requires FitsTail(skipped, seen, x)
    ensures GetTail(SpelledTail(x)) == Ok(Tail(skipped, seen))
  {
    hide BigEndian, GetNumber, PutSkipped, GetSkipped, GetEntries, GetSeen, KeySized, PutSeen, PutList, MapOf, ReadsBack;
    var t3 := BigEndian(|x.seen|, 4) + PutSeen(x.seen);
    var t2 := PutList(x.skipped, PutSkipped) + t3;
    GetsWord(|x.skipped|, t2);
    forall e | e in x.skipped
      ensures ReadsBack(PutSkipped, GetSkipped, e.0, e.1)
    {
      GetsSkipped(e.0, e.1);
    }
    ListRead(x.skipped, map[], PutSkipped, GetSkipped, t3);
    GetsWord(|x.seen|, PutSeen(x.seen));
    GetsSeen(x.seen, {}, []);
    assert PutSeen(x.seen) + [] == PutSeen(x.seen);
    assert {} + seen == seen;
  }

  lemma BodyRestores(s: State, x: Extras)
    requires Fits(s, x)
    ensures GetBody(SpelledBody(s, x), s.dhs, s.dhr) == Ok(s)
  {
    hide BigEndian, GetNumber, PutKey, GetKey, GetTail, SpelledTail, FitsTail, KeySized, OptionalSized;
    var t6 := SpelledTail(x);
    var t5 := BigEndian(s.pn, 4) + t6;
    var t4 := BigEndian(s.nr, 4) + t5;
    var t3 := BigEndian(s.ns, 4) + t4;
    var t2 := PutKey(s.ckr) + t3;
    var t1 := PutKey(s.cks) + t2;
    GetsKey(s.rk, t1);
    GetsKey(s.cks, t2);
    GetsKey(s.ckr, t3);
    GetsWord(s.ns, t4);
    GetsWord(s.nr, t5);
    GetsWord(s.pn, t6);
    TailRestores(s.skipped, s.seen, x);
  }

  lemma SpellingRestores(s: State, x: Extras)
    requires Fits(s, x)
    ensures Restore(Spelled(s, x)) == Ok(s)
  {
    hide PutOptional, GetOptional, GetBody, SpelledBody, FitsTail, KeySized;
    var t3 := SpelledBody(s, x);
    var t2 := PutOptional(s.dhr) + t3;
    var t1 := PutOptional(s.dhs) + t2;
    GetsOptional(x.pub, t1);
    GetsOptional(s.dhs, t2);
    GetsOptional(s.dhr, t3);
    BodyRestores(s, x);
    assert Spelled(s, x)[2..] == PutOptional(x.pub) + t1;
  }

  /** Bytes restore a state exactly when they spell it: the version, the flags, the keys and counters at
      their sizes, at most MaxSkip entries that add up to the skipped keys, the keys seen, and nothing
      after them. */
  lemma RestoresExactly(data: Bytes, s: State)
    ensures Restore(data) == Ok(s) <==> exists x :: Fits(s, x) && data == Spelled(s, x)
  {
    hide Restore, Fits, Spelled;
    if Restore(data) == Ok(s) {
      var x := SpellingRead(data);
    } else if x :| Fits(s, x) && data == Spelled(s, x) {
      SpellingRestores(s, x);
    }
  }
}
