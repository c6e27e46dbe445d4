/** One direction of one epoch of the chain in spqr/chain.go, as functions of its value: a hash
    chain of message keys with a bounded history of the keys that were skipped over. */
module SpqrHistory {
  import opened Words
  import opened Results
  import opened Erasure
  import opened SpqrCrypto
  import opened SpqrStates

  datatype Params = Params(maxJump: Word, maxOOO: Word)
  {
    function MaxJump(): Word {
      if maxJump == 0 then 25000 else maxJump
    }

    function MaxOOO(): Word {
      if maxOOO == 0 then 2000 else maxOOO
    }
  }

  // ---------------------------------------------------------------- one direction of one epoch

  /** The counter is a 32-bit word; an empty next key means the direction is closed. */
  datatype Dir = Dir(ctr: nat, next: Bytes, prev: map<nat, Bytes>)

  function NewDir(seed: Bytes): Dir {
    Dir(0, seed, map[])
  }

  function DirNext(c: Crypto, d: Dir): Dir {
    var ctr := (d.ctr + 1) % WORD;
    Dir(ctr, c.hkdf(d.next, ZeroBytes(32), ChainNext(ctr), 0), d.prev)
  }

  function DirKey(c: Crypto, d: Dir): Bytes {
    c.hkdf(d.next, ZeroBytes(32), ChainNext((d.ctr + 1) % WORD), 1)
  }

  /** Step up to just before `at`, storing the keys that stay within reach of it. */
  function SkipTo(c: Crypto, d: Dir, at: nat, maxOOO: nat): (r: Dir)
    requires d.ctr < at < WORD
    ensures r.ctr == at - 1
    decreases at - d.ctr
  {
    if d.ctr + 1 < at then
      var n := DirNext(c, d);
      SkipTo(c, if (n.ctr + maxOOO) % WORD >= at then n.(prev := d.prev[n.ctr := DirKey(c, d)]) else n, at, maxOOO)
    else d
  }

  function Collected(prev: map<nat, Bytes>, current: nat, maxOOO: nat): map<nat, Bytes> {
    map i | i in prev && !((i + maxOOO) % WORD < current) :: prev[i]
  }

  datatype KeyStep = KeyStep(result: Checked<Bytes>, dir: Dir)

  function GetKey(d: Dir, at: nat, maxOOO: nat): KeyStep {
    if (at + maxOOO) % WORD < d.ctr then KeyStep(Err(KeyTrimmed), d)
    else if at !in d.prev then KeyStep(Err(KeyAlreadyRequested), d)
    else KeyStep(Ok(d.prev[at]), d.(prev := d.prev - {at}))
  }

  function KeyAt(c: Crypto, d: Dir, at: nat, p: Params): KeyStep
    requires at < WORD
  {
    if at < d.ctr then GetKey(d, at, p.MaxOOO())
    else if at == d.ctr then KeyStep(Err(KeyAlreadyRequested), d)
    else if at - d.ctr > p.MaxJump() then KeyStep(Err(KeyJump), d)
    else
      var cleared := if at > (d.ctr + p.MaxOOO()) % WORD then d.(prev := map[]) else d;
      if cleared.next == [] && d.ctr + 1 < at then KeyStep(Err(KeyAlreadyRequested), cleared)
      else
        var skipped := SkipTo(c, cleared, at, p.MaxOOO());
        var kept := skipped.(prev := Collected(skipped.prev, skipped.ctr, p.MaxOOO()));
        if kept.next == [] then KeyStep(Err(KeyAlreadyRequested), kept)
        else KeyStep(Ok(DirKey(c, kept)), DirNext(c, kept))
  }

  // ---------------------------------------------------------------- the chain it stands for

  /** The chain key after n steps from a seed, without a bound on n. */
  function NextAt(c: Crypto, seed: Bytes, n: nat): Bytes {
    if n == 0 then seed else c.hkdf(NextAt(c, seed, n - 1), ZeroBytes(32), ChainNext(n), 0)
  }

  /** The n-th message key, counting from one. */
  function KeyOf(c: Crypto, seed: Bytes, n: nat): Bytes
    requires n >= 1
  {
    c.hkdf(NextAt(c, seed, n - 1), ZeroBytes(32), ChainNext(n), 1)
  }

  /** The same service with unbounded memory and counters: how far the chain has moved and what was
      returned. */
  datatype Ideal = Ideal(ctr: nat, taken: set<nat>)

  datatype IdealStep = IdealStep(result: Checked<Bytes>, ideal: Ideal)

  function IdealKeyAt(c: Crypto, seed: Bytes, s: Ideal, at: nat, p: Params): IdealStep {
    if at > s.ctr && at - s.ctr > p.MaxJump() then IdealStep(Err(KeyJump), s)
    else if at > s.ctr then IdealStep(Ok(KeyOf(c, seed, at)), Ideal(at, s.taken + {at}))
    else if at + p.MaxOOO() < s.ctr then IdealStep(Err(KeyTrimmed), s)
    else if at == 0 || at in s.taken then IdealStep(Err(KeyAlreadyRequested), s)
    else IdealStep(Ok(KeyOf(c, seed, at)), Ideal(s.ctr, s.taken + {at}))
  }

  /** The same service on 32-bit counters. It is cut once it has moved on from a counter to which
      adding MaxOOO wraps around: every key skipped before then is lost. */
  datatype Service = Service(ideal: Ideal, cut: bool)

  datatype ServiceStep = ServiceStep(result: Checked<Bytes>, service: Service)

  /** Where the wrap-around shows: an index behind the counter to which adding MaxOOO wraps around is
      taken for one that is too old, and one whose key was lost for one already returned. */
  function ServiceKeyAt(c: Crypto, seed: Bytes, s: Service, at: nat, p: Params): ServiceStep {
    var q := IdealKeyAt(c, seed, s.ideal, at, p);
    if at < s.ideal.ctr && at + p.MaxOOO() >= WORD then ServiceStep(Err(KeyTrimmed), s)
    else if at < s.ideal.ctr && s.cut && q.result.Ok? then ServiceStep(Err(KeyAlreadyRequested), s)
    else ServiceStep(q.result, Service(q.ideal, s.cut || (q.ideal.ctr > s.ideal.ctr && s.ideal.ctr + p.MaxOOO() >= WORD)))
  }

  ghost predicate StoresRight(c: Crypto, seed: Bytes, prev: map<nat, Bytes>, s: Ideal) {
    forall i | i in prev :: 1 <= i < s.ctr && i !in s.taken && prev[i] == KeyOf(c, seed, i)
  }

  ghost predicate StoresAll(prev: map<nat, Bytes>, s: Service, maxOOO: nat) {
    if s.cut then s.ideal.ctr + maxOOO >= WORD && prev == map[]
    else forall i | 1 <= i < s.ideal.ctr <= i + maxOOO < WORD && i !in s.ideal.taken :: i in prev
  }

  /** The stored keys are right, none was returned, every key still within reach is there, and
      there are never more than MaxOOO of them. */
  ghost predicate Tracks(c: Crypto, seed: Bytes, p: Params, d: Dir, s: Service) {
    && d.ctr == s.ideal.ctr < WORD
    && d.next == NextAt(c, seed, d.ctr) != []
    && StoresRight(c, seed, d.prev, s.ideal)
    && StoresAll(d.prev, s, p.MaxOOO())
    && (d.ctr >= 1 ==> d.ctr in s.ideal.taken)
    && (forall i | i in s.ideal.taken :: i <= d.ctr)
    && |d.prev| <= p.MaxOOO()
  }

  const NEW_SERVICE := Service(Ideal(0, {}), false)

  lemma NextNonempty(c: Crypto, seed: Bytes, n: nat)
    requires c.Sizes() && seed != []
    ensures NextAt(c, seed, n) != []
  {
    if n > 0 {
      assert |c.hkdf(NextAt(c, seed, n - 1), ZeroBytes(32), ChainNext(n), 0)| == 32;
    }
  }

  lemma TracksNew(c: Crypto, seed: Bytes, p: Params)
    requires seed != []
    ensures Tracks(c, seed, p, NewDir(seed), NEW_SERVICE)
  {
  }

  /** The keys of the steps after lo that are within reach of `at`. */
  function Skipped(c: Crypto, seed: Bytes, lo: nat, at: nat, maxOOO: nat): map<nat, Bytes> {
    map i | lo < i < at && at <= i + maxOOO < WORD :: KeyOf(c, seed, i)
  }

  lemma {:induction false} SkipMeaning(c: Crypto, seed: Bytes, d: Dir, at: nat, maxOOO: nat)
    requires d.ctr < at < WORD && maxOOO < WORD && d.next == NextAt(c, seed, d.ctr)
    ensures SkipTo(c, d, at, maxOOO) == Dir(at - 1, NextAt(c, seed, at - 1), d.prev + Skipped(c, seed, d.ctr, at, maxOOO))
    decreases at - d.ctr
  {
    hide KeyOf, NextAt, DirKey, DirNext, Skipped;
    if d.ctr + 1 < at {
      KeyIsNext(c, seed, d);
      var prev := if at <= d.ctr + 1 + maxOOO < WORD then d.prev[d.ctr + 1 := KeyOf(c, seed, d.ctr + 1)] else d.prev;
      SkipMeaning(c, seed, Dir(d.ctr + 1, NextAt(c, seed, d.ctr + 1), prev), at, maxOOO);
      SkippedStep(c, seed, d.prev, d.ctr, at, maxOOO);
    } else {
      SkippedNone(c, seed, d.prev, d.ctr, maxOOO);
    }
  }

  lemma SkippedNone(c: Crypto, seed: Bytes, prev: map<nat, Bytes>, ctr: nat, maxOOO: nat)
    ensures prev + Skipped(c, seed, ctr, ctr + 1, maxOOO) == prev
  {
  }

  lemma SkippedStep(c: Crypto, seed: Bytes, prev: map<nat, Bytes>, ctr: nat, at: nat, maxOOO: nat)
    requires ctr + 1 < at
    ensures (if at <= ctr + 1 + maxOOO < WORD then prev[ctr + 1 := KeyOf(c, seed, ctr + 1)] else prev) + Skipped(c, seed, ctr + 1, at, maxOOO)
         == prev + Skipped(c, seed, ctr, at, maxOOO)
  {
    hide KeyOf;
  }

  lemma KeyIsNext(c: Crypto, seed: Bytes, d: Dir)
    requires d.ctr + 1 < WORD && d.next == NextAt(c, seed, d.ctr)
    ensures DirKey(c, d) == KeyOf(c, seed, d.ctr + 1)
    ensures DirNext(c, d) == Dir(d.ctr + 1, NextAt(c, seed, d.ctr + 1), d.prev)
  {
  }

  lemma {:induction false} RangeSize(s: set<nat>, lo: nat, n: nat)
    requires forall i | i in s :: lo <= i < lo + n
    ensures |s| <= n
  {
    if n == 0 {
      assert s == {};
    } else {
      var last := lo + n - 1;
      RangeSize(s - {last}, lo, n - 1);
      if last in s {
        assert |s| == |s - {last}| + 1;
      }
    }
  }

  /** What is left in the history when the chain moves on to `at`. */
  ghost function Kept(c: Crypto, seed: Bytes, p: Params, d: Dir, at: nat): map<nat, Bytes>
    requires at >= 1
  {
    var before := if at <= d.ctr + p.MaxOOO() < WORD then d.prev else map[];
    Collected(before + Skipped(c, seed, d.ctr, at, p.MaxOOO()), at - 1, p.MaxOOO())
  }

  lemma MovesOn(c: Crypto, seed: Bytes, p: Params, d: Dir, at: nat)
    requires d.next == NextAt(c, seed, d.ctr) != []
    requires 0 < at && NextAt(c, seed, at - 1) != []
    requires d.ctr < at < WORD && at - d.ctr <= p.MaxJump()
    ensures KeyAt(c, d, at, p) == KeyStep(Ok(KeyOf(c, seed, at)), Dir(at, NextAt(c, seed, at), Kept(c, seed, p, d, at)))
  {
    hide Skipped, Collected, KeyOf, NextAt, DirKey, DirNext;
    var cleared := if at <= d.ctr + p.MaxOOO() < WORD then d else d.(prev := map[]);
    assert cleared == if at > (d.ctr + p.MaxOOO()) % WORD then d.(prev := map[]) else d;
    SkipMeaning(c, seed, cleared, at, p.MaxOOO());
    var kept := Dir(at - 1, NextAt(c, seed, at - 1), Kept(c, seed, p, d, at));
    KeyIsNext(c, seed, kept);
  }

  lemma KeptMeaning(c: Crypto, seed: Bytes, p: Params, d: Dir, at: nat)
    requires d.ctr < at < WORD && forall i | i in d.prev :: i < d.ctr
    ensures var kept := Kept(c, seed, p, d, at);
      && (forall i :: i in kept <==>
           || (i in d.prev && at - 1 <= i + p.MaxOOO() && at <= d.ctr + p.MaxOOO() < WORD)
           || (d.ctr < i < at && at <= i + p.MaxOOO() < WORD))
      && (forall i | i in kept && i < d.ctr :: kept[i] == d.prev[i])
      && (forall i | i in kept && i > d.ctr :: kept[i] == KeyOf(c, seed, i))
  {
    hide KeyOf;
    var before := if at <= d.ctr + p.MaxOOO() < WORD then d.prev else map[];
    CollectedMeaning(before + Skipped(c, seed, d.ctr, at, p.MaxOOO()), at - 1, p.MaxOOO());
  }

  lemma CollectedMeaning(prev: map<nat, Bytes>, current: nat, maxOOO: nat)
    requires maxOOO < WORD && current < WORD && forall i | i in prev :: i <= current
    ensures forall i :: i in Collected(prev, current, maxOOO) <==> i in prev && current <= i + maxOOO < WORD
    ensures forall i | i in Collected(prev, current, maxOOO) :: Collected(prev, current, maxOOO)[i] == prev[i]
  {
  }

  /** The window that is kept has one place more than MaxOOO, but the counter the move started from
      is never stored. */
  lemma KeptIsBounded(c: Crypto, seed: Bytes, p: Params, d: Dir, at: nat)
    requires d.ctr < at < WORD && forall i | i in d.prev :: i < d.ctr
    ensures |Kept(c, seed, p, d, at)| <= p.MaxOOO()
  {
    hide KeyOf, Kept;
    KeptMeaning(c, seed, p, d, at);
    var maxOOO := p.MaxOOO();
    var keys := Kept(c, seed, p, d, at).Keys;
    if at <= d.ctr + maxOOO < WORD {
      var lo := if at > maxOOO then at - 1 - maxOOO else 0;
      RangeSize(keys + {d.ctr}, lo, at - lo);
      assert |keys + {d.ctr}| == |keys| + 1;
    } else {
      var lo := if at > maxOOO then at - maxOOO else 0;
      RangeSize(keys, lo, at - lo);
    }
  }

  /** The service after it has moved on to `at`. */
  function Moved(s: Service, at: nat, p: Params): Service {
    Service(Ideal(at, s.ideal.taken + {at}), s.cut || s.ideal.ctr + p.MaxOOO() >= WORD)
  }

  lemma TracksMove(c: Crypto, seed: Bytes, p: Params, d: Dir, s: Service, at: nat)
    requires c.Sizes() && seed != [] && Tracks(c, seed, p, d, s)
    requires d.ctr < at < WORD
    ensures Tracks(c, seed, p, Dir(at, NextAt(c, seed, at), Kept(c, seed, p, d, at)), Moved(s, at, p))
  {
    hide KeyOf, NextAt, Kept, StoresRight, StoresAll;
    NextNonempty(c, seed, at);
    assert forall i | i in d.prev :: i < d.ctr by { StoredBelow(c, seed, d.prev, s.ideal); }
    KeptIsBounded(c, seed, p, d, at);
    KeptIsRight(c, seed, p, d, s.ideal, at);
    KeptIsAll(c, seed, p, d, s, at);
  }

  lemma StoredBelow(c: Crypto, seed: Bytes, prev: map<nat, Bytes>, s: Ideal)
    requires StoresRight(c, seed, prev, s)
    ensures forall i | i in prev :: i < s.ctr
  {
  }

  lemma KeptIsRight(c: Crypto, seed: Bytes, p: Params, d: Dir, s: Ideal, at: nat)
    requires d.ctr == s.ctr < at < WORD && StoresRight(c, seed, d.prev, s)
    requires forall i | i in s.taken :: i <= d.ctr
    ensures StoresRight(c, seed, Kept(c, seed, p, d, at), Ideal(at, s.taken + {at}))
  {
    hide KeyOf, Kept;
    KeptMeaning(c, seed, p, d, at);
  }

  lemma KeptIsAll(c: Crypto, seed: Bytes, p: Params, d: Dir, s: Service, at: nat)
    requires d.ctr == s.ideal.ctr < at < WORD && StoresAll(d.prev, s, p.MaxOOO())
    requires (d.ctr >= 1 ==> d.ctr in s.ideal.taken) && forall i | i in d.prev :: i < d.ctr
    ensures StoresAll(Kept(c, seed, p, d, at), Moved(s, at, p), p.MaxOOO())
  {
    hide KeyOf, Kept;
    KeptMeaning(c, seed, p, d, at);
  }

  lemma MoveRefines(c: Crypto, seed: Bytes, p: Params, d: Dir, s: Service, at: nat)
    requires c.Sizes() && seed != [] && Tracks(c, seed, p, d, s)
    requires d.ctr < at < WORD && at - d.ctr <= p.MaxJump()
    ensures var r, q := KeyAt(c, d, at, p), ServiceKeyAt(c, seed, s, at, p);
      r.result == q.result && Tracks(c, seed, p, r.dir, q.service)
  {
    hide KeyAt, KeyOf, NextAt, Kept, StoresRight, StoresAll;
    NextNonempty(c, seed, at - 1);
    MovesOn(c, seed, p, d, at);
    TracksMove(c, seed, p, d, s, at);
  }

  lemma LookupRefines(c: Crypto, seed: Bytes, p: Params, d: Dir, s: Service, at: nat)
    requires Tracks(c, seed, p, d, s)
    requires at < WORD && (at <= d.ctr || at - d.ctr > p.MaxJump())
    ensures var r, q := KeyAt(c, d, at, p), ServiceKeyAt(c, seed, s, at, p);
      r.result == q.result && Tracks(c, seed, p, r.dir, q.service)
  {
    hide KeyOf, NextAt, SkipTo, Collected, StoresRight, StoresAll;
    if at < d.ctr {
      LookupStored(c, seed, p, d, s, at);
    }
  }

  lemma LookupStored(c: Crypto, seed: Bytes, p: Params, d: Dir, s: Service, at: nat)
    requires Tracks(c, seed, p, d, s) && at < d.ctr
    ensures var r, q := GetKey(d, at, p.MaxOOO()), ServiceKeyAt(c, seed, s, at, p);
      r.result == q.result && Tracks(c, seed, p, r.dir, q.service)
  {
    hide KeyOf, NextAt, Tracks;
    StoredMeans(c, seed, p, d, s, at);
    if at in d.prev && d.ctr <= at + p.MaxOOO() < WORD {
      TracksTake(c, seed, p, d, s, at);
    }
  }

  lemma StoredMeans(c: Crypto, seed: Bytes, p: Params, d: Dir, s: Service, at: nat)
    requires Tracks(c, seed, p, d, s) && at < d.ctr
    ensures d.ctr == s.ideal.ctr < WORD
    ensures d.ctr <= at + p.MaxOOO() < WORD ==> (at in d.prev <==> at >= 1 && at !in s.ideal.taken && !s.cut)
    ensures at in d.prev ==> at >= 1 && d.prev[at] == KeyOf(c, seed, at)
  {
    hide KeyOf, NextAt;
  }

  lemma TracksTake(c: Crypto, seed: Bytes, p: Params, d: Dir, s: Service, at: nat)
    requires Tracks(c, seed, p, d, s) && at in d.prev
    ensures Tracks(c, seed, p, d.(prev := d.prev - {at}), Service(Ideal(s.ideal.ctr, s.ideal.taken + {at}), s.cut))
  {
    hide KeyOf, NextAt;
    var prev := d.prev - {at};
    assert prev.Keys == d.prev.Keys - {at};
    assert forall i | i in prev :: i in d.prev && prev[i] == d.prev[i];
  }

  /** One request: the bounded history answers as the 32-bit service does, and stays in step with it. */
  lemma KeyAtRefines(c: Crypto, seed: Bytes, p: Params, d: Dir, s: Service, at: nat)
    requires c.Sizes() && seed != [] && Tracks(c, seed, p, d, s)
    requires at < WORD
    ensures var r, q := KeyAt(c, d, at, p), ServiceKeyAt(c, seed, s, at, p);
      r.result == q.result && Tracks(c, seed, p, r.dir, q.service)
  {
    hide KeyAt, ServiceKeyAt, Tracks;
    if at > d.ctr && at - d.ctr <= p.MaxJump() {
      MoveRefines(c, seed, p, d, s, at);
    } else {
      LookupRefines(c, seed, p, d, s, at);
    }
  }

  // ---------------------------------------------------------------- any series of requests

  function Serve(c: Crypto, d: Dir, p: Params, ats: seq<Word>): (r: seq<Checked<Bytes>>)
    ensures |r| == |ats|
    decreases |ats|
  {
    if ats == [] then [] else
      var step := KeyAt(c, d, ats[0], p);
      [step.result] + Serve(c, step.dir, p, ats[1..])
  }

  function DirAfter(c: Crypto, d: Dir, p: Params, ats: seq<Word>): Dir
    decreases |ats|
  {
    if ats == [] then d else DirAfter(c, KeyAt(c, d, ats[0], p).dir, p, ats[1..])
  }

  function ServiceServe(c: Crypto, seed: Bytes, s: Service, p: Params, ats: seq<Word>): (r: seq<Checked<Bytes>>)
    ensures |r| == |ats|
    decreases |ats|
  {
    if ats == [] then [] else
      var step := ServiceKeyAt(c, seed, s, ats[0], p);
      [step.result] + ServiceServe(c, seed, step.service, p, ats[1..])
  }

  function IdealServe(c: Crypto, seed: Bytes, s: Ideal, p: Params, ats: seq<Word>): (r: seq<Checked<Bytes>>)
    ensures |r| == |ats|
    decreases |ats|
  {
    if ats == [] then [] else
      var step := IdealKeyAt(c, seed, s, ats[0], p);
      [step.result] + IdealServe(c, seed, step.ideal, p, ats[1..])
  }

  /** Over any series of requests the bounded history answers as the 32-bit service does, and never
      holds more than MaxOOO keys. */
  lemma {:induction false} HistoryRefines(c: Crypto, seed: Bytes, p: Params, d: Dir, s: Service, ats: seq<Word>)
    requires c.Sizes() && seed != [] && Tracks(c, seed, p, d, s)
    ensures Serve(c, d, p, ats) == ServiceServe(c, seed, s, p, ats)
    ensures |DirAfter(c, d, p, ats).prev| <= p.MaxOOO()
    decreases |ats|
  {
    hide KeyAt, ServiceKeyAt, StoresRight, StoresAll, NextAt;
    if ats != [] {
      KeyAtRefines(c, seed, p, d, s, ats[0]);
      var step, service := KeyAt(c, d, ats[0], p), ServiceKeyAt(c, seed, s, ats[0], p);
      HistoryRefines(c, seed, p, step.dir, service.service, ats[1..]);
    }
  }

  /** A request on which the 32-bit service and the unbounded one answer differently. */
  predicate Differs(c: Crypto, seed: Bytes, s: Service, p: Params, at: nat) {
    at < s.ideal.ctr && (at + p.MaxOOO() >= WORD || (s.cut && IdealKeyAt(c, seed, s.ideal, at, p).result.Ok?))
  }

  predicate NoneDiffers(c: Crypto, seed: Bytes, s: Service, p: Params, ats: seq<Word>)
    decreases |ats|
  {
    ats == [] || (!Differs(c, seed, s, p, ats[0]) && NoneDiffers(c, seed, ServiceKeyAt(c, seed, s, ats[0], p).service, p, ats[1..]))
  }

  lemma {:induction false} ServiceExactly(c: Crypto, seed: Bytes, s: Service, p: Params, ats: seq<Word>)
    requires s.ideal.ctr < WORD
    ensures ServiceServe(c, seed, s, p, ats) == IdealServe(c, seed, s.ideal, p, ats) <==> NoneDiffers(c, seed, s, p, ats)
    decreases |ats|
  {
    hide KeyOf;
    if ats != [] {
      var step, ideal := ServiceKeyAt(c, seed, s, ats[0], p), IdealKeyAt(c, seed, s.ideal, ats[0], p);
      assert Differs(c, seed, s, p, ats[0]) <==> step.result != ideal.result;
      var rest, idealRest := ServiceServe(c, seed, step.service, p, ats[1..]), IdealServe(c, seed, ideal.ideal, p, ats[1..]);
      HeadAndTail(step.result, rest, ideal.result, idealRest);
      if !Differs(c, seed, s, p, ats[0]) {
        ServiceExactly(c, seed, step.service, p, ats[1..]);
      }
    }
  }

  lemma HeadAndTail<T>(x: T, xs: seq<T>, y: T, ys: seq<T>)
    ensures [x] + xs == [y] + ys <==> x == y && xs == ys
  {
    if [x] + xs == [y] + ys {
      assert xs == ([x] + xs)[1..] == ([y] + ys)[1..] == ys;
      assert x == ([x] + xs)[0] == ([y] + ys)[0] == y;
    }
  }

  /** A new direction answers a series as one with unbounded memory and counters does exactly when no
      request is for an index behind the counter that is within MaxOOO of 2^32, or for a key skipped
      before the counter moved on from there. */
  lemma UnboundedExactly(c: Crypto, seed: Bytes, p: Params, ats: seq<Word>)
    requires c.Sizes() && seed != []
    ensures Serve(c, NewDir(seed), p, ats) == IdealServe(c, seed, Ideal(0, {}), p, ats) <==> NoneDiffers(c, seed, NEW_SERVICE, p, ats)
  {
    hide Serve, IdealServe, ServiceServe, NoneDiffers;
    TracksNew(c, seed, p);
    HistoryRefines(c, seed, p, NewDir(seed), NEW_SERVICE, ats);
    ServiceExactly(c, seed, NEW_SERVICE, p, ats);
  }

  /** So they answer alike while every index requested leaves room for MaxOOO below 2^32. */
  lemma {:induction false} AlikeWhileItFits(c: Crypto, seed: Bytes, s: Service, p: Params, ats: seq<Word>)
    requires !s.cut && s.ideal.ctr + p.MaxOOO() < WORD
    requires forall k | 0 <= k < |ats| :: ats[k] + p.MaxOOO() < WORD
    ensures NoneDiffers(c, seed, s, p, ats)
    decreases |ats|
  {
    hide KeyOf;
    if ats != [] {
      AlikeWhileItFits(c, seed, ServiceKeyAt(c, seed, s, ats[0], p).service, p, ats[1..]);
    }
  }

  /** And not always: after a jump to the last index, a key skipped just before it is refused as too
      old, although it is within MaxOOO and was never returned. */
  lemma NearTheEnd(c: Crypto, seed: Bytes)
    requires c.Sizes() && seed != []
    ensures var p, ats := Params(WORD - 1, 2), [WORD - 1, WORD - 2];
      && Serve(c, NewDir(seed), p, ats) == [Ok(KeyOf(c, seed, WORD - 1)), Err(KeyTrimmed)]
      && IdealServe(c, seed, Ideal(0, {}), p, ats) == [Ok(KeyOf(c, seed, WORD - 1)), Ok(KeyOf(c, seed, WORD - 2))]
  {
    hide KeyOf, Serve;
    var p, ats := Params(WORD - 1, 2), [WORD - 1, WORD - 2];
    TracksNew(c, seed, p);
    HistoryRefines(c, seed, p, NewDir(seed), NEW_SERVICE, ats);
    var s := ServiceKeyAt(c, seed, NEW_SERVICE, WORD - 1, p).service;
    assert ats[1..] == [WORD - 2] && ats[1..][1..] == [];
    assert ServiceServe(c, seed, s, p, ats[1..]) == [Err(KeyTrimmed)];
    var ideal := IdealKeyAt(c, seed, Ideal(0, {}), WORD - 1, p).ideal;
    assert IdealServe(c, seed, ideal, p, ats[1..]) == [Ok(KeyOf(c, seed, WORD - 2))];
  }

  lemma {:induction false} TakenStaysTaken(c: Crypto, seed: Bytes, s: Service, p: Params, ats: seq<Word>, k: nat)
    requires k < |ats| && ats[k] in s.ideal.taken && ats[k] <= s.ideal.ctr
    ensures ServiceServe(c, seed, s, p, ats)[k].Err?
    decreases |ats|
  {
    if k > 0 {
      TakenStaysTaken(c, seed, ServiceKeyAt(c, seed, s, ats[0], p).service, p, ats[1..], k - 1);
    }
  }

  lemma {:induction false} ServedOnce(c: Crypto, seed: Bytes, s: Service, p: Params, ats: seq<Word>, j: nat, k: nat)
    requires j < k < |ats| && ats[j] == ats[k] && ServiceServe(c, seed, s, p, ats)[j].Ok?
    ensures ServiceServe(c, seed, s, p, ats)[k].Err?
    decreases |ats|
  {
    var next := ServiceKeyAt(c, seed, s, ats[0], p).service;
    if j == 0 {
      TakenStaysTaken(c, seed, next, p, ats[1..], k - 1);
    } else {
      ServedOnce(c, seed, next, p, ats[1..], j - 1, k - 1);
    }
  }

  lemma {:induction false} ServedRight(c: Crypto, seed: Bytes, s: Service, p: Params, ats: seq<Word>, k: nat)
    requires k < |ats| && ServiceServe(c, seed, s, p, ats)[k].Ok?
    ensures ats[k] >= 1 && ServiceServe(c, seed, s, p, ats)[k].value == KeyOf(c, seed, ats[k])
    decreases |ats|
  {
    if k > 0 {
      ServedRight(c, seed, ServiceKeyAt(c, seed, s, ats[0], p).service, p, ats[1..], k - 1);
    }
  }

  /** A fresh direction hands out, for any series of 32-bit requests, only the right keys and each of
      them at most once, and holds at most MaxOOO keys. */
  lemma EachKeyOnce(c: Crypto, seed: Bytes, p: Params, ats: seq<Word>)
    requires c.Sizes() && seed != []
    ensures var r := Serve(c, NewDir(seed), p, ats);
      && (forall k | 0 <= k < |ats| && r[k].Ok? :: ats[k] >= 1 && r[k].value == KeyOf(c, seed, ats[k]))
      && (forall j, k | 0 <= j < k < |ats| && ats[j] == ats[k] :: r[j].Err? || r[k].Err?)
    ensures |DirAfter(c, NewDir(seed), p, ats).prev| <= p.MaxOOO()
  {
    hide KeyOf, Serve, ServiceServe;
    var s := NEW_SERVICE;
    TracksNew(c, seed, p);
    HistoryRefines(c, seed, p, NewDir(seed), s, ats);
    forall k | 0 <= k < |ats| && ServiceServe(c, seed, s, p, ats)[k].Ok?
      ensures ats[k] >= 1 && ServiceServe(c, seed, s, p, ats)[k].value == KeyOf(c, seed, ats[k])
    {
      ServedRight(c, seed, s, p, ats, k);
    }
    forall j, k | 0 <= j < k < |ats| && ats[j] == ats[k] && ServiceServe(c, seed, s, p, ats)[j].Ok?
      ensures ServiceServe(c, seed, s, p, ats)[k].Err?
    {
      ServedOnce(c, seed, s, p, ats, j, k);
    }
  }
}
