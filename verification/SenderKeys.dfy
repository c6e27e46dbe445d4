/** The receiving side of group sender keys (senderkeys/cipher.go, record.go, ratchet.go): one hash
    chain per state, with a bounded list of the message keys that were stepped over. */
module SenderKeys {
  import opened Results

  const MAX_KEYS := 2000
  const MAX_ITERATION := 0xFFFF_FFFF

  /** A 32-byte seed, as the number it spells. */
  datatype Seed = Seed(word: nat)

  /** HMAC of a chain seed with the two constants. */
  datatype Derivation = Derivation(message: Seed -> Seed, next: Seed -> Seed)

  datatype MessageKey = MessageKey(iteration: nat, seed: Seed)

  datatype State = State(chainIteration: nat, chainSeed: Seed, messageKeys: seq<MessageKey>)

  datatype Error = Duplicate | MaxSkipExceeded | CounterOverflow

  type Checked<+T> = Result<T, Error>

  // ---------------------------------------------------------------- the stored keys

  /** The newest keys, as many as may be kept. */
  function Last(keys: seq<MessageKey>): seq<MessageKey> {
    if |keys| > MAX_KEYS then keys[|keys| - MAX_KEYS..] else keys
  }

  function Added(keys: seq<MessageKey>, k: MessageKey): seq<MessageKey> {
    Last(keys + [k])
  }

  /** Where the first key of an iteration is, or the length. */
  function Find(keys: seq<MessageKey>, iteration: nat): (i: nat)
    ensures i <= |keys|
    ensures i < |keys| ==> keys[i].iteration == iteration
    ensures forall j | 0 <= j < i :: keys[j].iteration != iteration
  {
    if keys == [] then 0
    else if keys[0].iteration == iteration then 0
    else Find(keys[1..], iteration) + 1
  }

  function Without(keys: seq<MessageKey>, i: nat): seq<MessageKey>
    requires i < |keys|
  {
    keys[..i] + keys[i + 1..]
  }

  // ---------------------------------------------------------------- taking a key

  datatype Taken = Taken(state: State, key: MessageKey)

  /** The chain moved up to an iteration, each key on the way put in the list. */
  function StepUp(d: Derivation, s: State, iteration: nat): State
    decreases iteration - s.chainIteration
  {
    if s.chainIteration < iteration then
      StepUp(d, State(s.chainIteration + 1, d.next(s.chainSeed),
                      Added(s.messageKeys, MessageKey(s.chainIteration, d.message(s.chainSeed)))), iteration)
    else s
  }

  function TakeKey(d: Derivation, s: State, iteration: nat): Checked<Taken> {
    if s.chainIteration > iteration then
      var i := Find(s.messageKeys, iteration);
      if i == |s.messageKeys| then Err(Duplicate)
      else Ok(Taken(s.(messageKeys := Without(s.messageKeys, i)), s.messageKeys[i]))
    else if iteration - s.chainIteration > MAX_KEYS then Err(MaxSkipExceeded)
    else
      var t := StepUp(d, s, iteration);
      if t.chainIteration >= MAX_ITERATION then Err(CounterOverflow)
      else Ok(Taken(State(t.chainIteration + 1, d.next(t.chainSeed), t.messageKeys),
                    MessageKey(t.chainIteration, d.message(t.chainSeed))))
  }

  // ---------------------------------------------------------------- what the keys should be

  function SeedAt(d: Derivation, start: Seed, n: nat): Seed {
    if n == 0 then start else d.next(SeedAt(d, start, n - 1))
  }

  /** The message key of an iteration, from the seed the state was installed with at iteration `from`. */
  function KeyAt(d: Derivation, start: Seed, from: nat, iteration: nat): MessageKey
    requires from <= iteration
  {
    MessageKey(iteration, d.message(SeedAt(d, start, iteration - from)))
  }

  ghost predicate Increasing(keys: seq<MessageKey>) {
    forall i, j | 0 <= i < j < |keys| :: keys[i].iteration < keys[j].iteration
  }

  ghost predicate Right(d: Derivation, start: Seed, from: nat, s: State) {
    && from <= s.chainIteration && s.chainSeed == SeedAt(d, start, s.chainIteration - from)
    && Increasing(s.messageKeys) && |s.messageKeys| <= MAX_KEYS
    && (forall i | 0 <= i < |s.messageKeys| ::
         from <= s.messageKeys[i].iteration < s.chainIteration
         && s.messageKeys[i] == KeyAt(d, start, from, s.messageKeys[i].iteration))
  }

  /** No iteration that was handed out is in the list or still ahead. */
  ghost predicate Spent(s: State, used: set<nat>) {
    && (forall n | n in used :: n < s.chainIteration)
    && (forall i | 0 <= i < |s.messageKeys| :: s.messageKeys[i].iteration !in used)
  }

  lemma AddedRight(d: Derivation, start: Seed, from: nat, s: State, k: MessageKey, used: set<nat>)
    requires Right(d, start, from, s) && Spent(s, used) && k == MessageKey(s.chainIteration, d.message(s.chainSeed))
    ensures var t := State(s.chainIteration + 1, d.next(s.chainSeed), Added(s.messageKeys, k));
      Right(d, start, from, t) && Spent(t, used)
  {
    hide KeyAt, SeedAt;
    assert k == KeyAt(d, start, from, s.chainIteration) && d.next(s.chainSeed) == SeedAt(d, start, s.chainIteration + 1 - from) by {
      NextKey(d, start, from, s.chainIteration);
    }
    var kept := if |s.messageKeys| < MAX_KEYS then s.messageKeys else s.messageKeys[1..];
    assert Added(s.messageKeys, k) == kept + [k];
    assert forall i | 0 <= i < |kept| :: kept[i] in s.messageKeys;
  }

  lemma NextKey(d: Derivation, start: Seed, from: nat, n: nat)
    requires from <= n
    ensures KeyAt(d, start, from, n) == MessageKey(n, d.message(SeedAt(d, start, n - from)))
    ensures SeedAt(d, start, n + 1 - from) == d.next(SeedAt(d, start, n - from))
  {
  }

  lemma {:induction false} StepUpRight(d: Derivation, start: Seed, from: nat, s: State, iteration: nat, used: set<nat>)
    requires Right(d, start, from, s) && Spent(s, used) && s.chainIteration <= iteration
    ensures var t := StepUp(d, s, iteration);
      Right(d, start, from, t) && Spent(t, used) && t.chainIteration == iteration
    decreases iteration - s.chainIteration
  {
    hide Right, Spent, Added;
    if s.chainIteration < iteration {
      var k := MessageKey(s.chainIteration, d.message(s.chainSeed));
      AddedRight(d, start, from, s, k, used);
      StepUpRight(d, start, from, State(s.chainIteration + 1, d.next(s.chainSeed), Added(s.messageKeys, k)), iteration, used);
    }
  }

  /** A key that is handed out is the chain's key of that iteration, was not handed out before and
      cannot be again; the list stays increasing, below the chain and within its bound. */
  lemma TakeRight(d: Derivation, start: Seed, from: nat, s: State, iteration: nat, used: set<nat>)
    requires Right(d, start, from, s) && Spent(s, used) && TakeKey(d, s, iteration).Ok?
    ensures var r := TakeKey(d, s, iteration).value;
      && from <= iteration && r.key == KeyAt(d, start, from, iteration) && iteration !in used
      && Right(d, start, from, r.state) && Spent(r.state, used + {iteration})
  {
    hide StepUp, KeyAt, SeedAt, Without, Find;
    if s.chainIteration > iteration {
      TakeStored(d, start, from, s, iteration, used);
    } else {
      StepUpRight(d, start, from, s, iteration, used);
      NextKey(d, start, from, iteration);
    }
  }

  lemma TakeStored(d: Derivation, start: Seed, from: nat, s: State, iteration: nat, used: set<nat>)
    requires Right(d, start, from, s) && Spent(s, used) && iteration < s.chainIteration
    requires Find(s.messageKeys, iteration) < |s.messageKeys|
    ensures var i := Find(s.messageKeys, iteration);
      var t := s.(messageKeys := Without(s.messageKeys, i));
      && from <= iteration && s.messageKeys[i] == KeyAt(d, start, from, iteration) && iteration !in used
      && Right(d, start, from, t) && Spent(t, used + {iteration})
  {
    hide KeyAt, SeedAt, Without, Find;
    var i := Find(s.messageKeys, iteration);
    WithoutRight(d, start, from, s, i);
    var keys := Without(s.messageKeys, i);
    assert forall j | 0 <= j < |keys| :: keys[j] in keys;
  }

  /** A request is answered exactly when its key is stored, or lies ahead within the limit; the errors
      tell the other cases apart. */
  lemma AnsweredExactly(d: Derivation, start: Seed, from: nat, s: State, iteration: nat)
    requires Right(d, start, from, s)
    ensures TakeKey(d, s, iteration).Ok? <==>
      || (iteration < s.chainIteration && exists k :: k in s.messageKeys && k.iteration == iteration)
      || (s.chainIteration <= iteration <= s.chainIteration + MAX_KEYS && iteration < MAX_ITERATION)
    ensures TakeKey(d, s, iteration) == Err(Duplicate) <==>
      iteration < s.chainIteration && forall k | k in s.messageKeys :: k.iteration != iteration
    ensures TakeKey(d, s, iteration) == Err(MaxSkipExceeded) <==> iteration > s.chainIteration + MAX_KEYS
  {
    hide StepUp, Find, Right;
    var i := Find(s.messageKeys, iteration);
    if s.chainIteration <= iteration {
      StepUpTo(d, s, iteration);
    } else if i < |s.messageKeys| {
      assert s.messageKeys[i] in s.messageKeys;
    }
  }

  lemma WithoutRight(d: Derivation, start: Seed, from: nat, s: State, i: nat)
    requires Right(d, start, from, s) && i < |s.messageKeys|
    ensures Right(d, start, from, s.(messageKeys := Without(s.messageKeys, i)))
    ensures forall k | k in Without(s.messageKeys, i) :: k in s.messageKeys && k.iteration != s.messageKeys[i].iteration
  {
    hide KeyAt, SeedAt;
    var keys := Without(s.messageKeys, i);
    assert forall j | 0 <= j < |keys| :: keys[j] == s.messageKeys[if j < i then j else j + 1];
  }

  // ---------------------------------------------------------------- any series of messages

  function After(d: Derivation, s: State, iteration: nat): State {
    var r := TakeKey(d, s, iteration);
    if r.Ok? then r.value.state else s
  }

  function AfterAll(d: Derivation, s: State, its: seq<nat>): State
    decreases |its|
  {
    if its == [] then s else AfterAll(d, After(d, s, its[0]), its[1..])
  }

  /** What the k-th request is answered with. */
  function AnswerAt(d: Derivation, s: State, its: seq<nat>, k: nat): Checked<Taken>
    requires k < |its|
  {
    TakeKey(d, AfterAll(d, s, its[..k]), its[k])
  }

  function UsedBy(d: Derivation, s: State, iteration: nat): set<nat> {
    if TakeKey(d, s, iteration).Ok? then {iteration} else {}
  }

  lemma AfterRight(d: Derivation, start: Seed, from: nat, s: State, iteration: nat, used: set<nat>)
    requires Right(d, start, from, s) && Spent(s, used)
    ensures Right(d, start, from, After(d, s, iteration)) && Spent(After(d, s, iteration), used + UsedBy(d, s, iteration))
  {
    hide TakeKey;
    if TakeKey(d, s, iteration).Ok? {
      TakeRight(d, start, from, s, iteration, used);
    } else {
      assert used + UsedBy(d, s, iteration) == used;
    }
  }

  lemma {:induction false} AllRight(d: Derivation, start: Seed, from: nat, s: State, its: seq<nat>, used: set<nat>)
    requires Right(d, start, from, s) && Spent(s, used)
    ensures Right(d, start, from, AfterAll(d, s, its)) && Spent(AfterAll(d, s, its), used)
    decreases |its|
  {
    hide Right, Spent, After;
    if its != [] {
      AfterRight(d, start, from, s, its[0], used);
      var u := used + UsedBy(d, s, its[0]);
      AllRight(d, start, from, After(d, s, its[0]), its[1..], u);
      SpentLess(AfterAll(d, s, its), u, used);
    }
  }

  lemma SpentLess(s: State, used: set<nat>, fewer: set<nat>)
    requires Spent(s, used) && fewer <= used
    ensures Spent(s, fewer)
  {
  }

  lemma {:induction false} AfterAllConcat(d: Derivation, s: State, p: seq<nat>, q: seq<nat>)
    ensures AfterAll(d, s, p + q) == AfterAll(d, AfterAll(d, s, p), q)
    decreases |p|
  {
    hide After;
    if p == [] {
      assert p + q == q;
    } else {
      assert (p + q)[1..] == p[1..] + q;
      AfterAllConcat(d, After(d, s, p[0]), p[1..], q);
    }
  }

  /** Since the state was installed, each request that was answered got the chain's key of its
      iteration, and no iteration was answered twice. */
  lemma EachKeyOnce(d: Derivation, start: Seed, from: nat, its: seq<nat>, k: nat)
    requires k < |its| && AnswerAt(d, State(from, start, []), its, k).Ok?
    ensures var s := State(from, start, []);
      && from <= its[k] && AnswerAt(d, s, its, k).value.key == KeyAt(d, start, from, its[k])
      && (forall j | 0 <= j < k && AnswerAt(d, s, its, j).Ok? :: its[j] != its[k])
  {
    hide TakeKey, AfterAll, KeyAt;
    var s := State(from, start, []);
    assert Right(d, start, from, s) && Spent(s, {});
    AllRight(d, start, from, s, its[..k], {});
    TakeRight(d, start, from, AfterAll(d, s, its[..k]), its[k], {});
    forall j | 0 <= j < k && AnswerAt(d, s, its, j).Ok?
      ensures its[j] != its[k]
    {
      NotAgain(d, start, from, its, j, k);
    }
  }

  lemma NotAgain(d: Derivation, start: Seed, from: nat, its: seq<nat>, j: nat, k: nat)
    requires j < k < |its|
    requires AnswerAt(d, State(from, start, []), its, j).Ok? && AnswerAt(d, State(from, start, []), its, k).Ok?
    ensures its[j] != its[k]
  {
    hide TakeKey, AfterAll, KeyAt;
    var s := State(from, start, []);
    assert Right(d, start, from, s) && Spent(s, {});
    AllRight(d, start, from, s, its[..j], {});
    var t := AfterAll(d, s, its[..j]);
    AfterRight(d, start, from, t, its[j], {});
    var used := {} + UsedBy(d, t, its[j]);
    AllRight(d, start, from, After(d, t, its[j]), its[j + 1..k], used);
    AfterTwo(d, s, its, j, k);
    TakeRight(d, start, from, AfterAll(d, s, its[..k]), its[k], used);
  }

  lemma AfterTwo(d: Derivation, s: State, its: seq<nat>, j: nat, k: nat)
    requires j < k <= |its|
    ensures AfterAll(d, s, its[..k]) == AfterAll(d, After(d, AfterAll(d, s, its[..j]), its[j]), its[j + 1..k])
  {
    hide After;
    assert its[..k] == its[..j] + its[j..k];
    assert its[j..k][1..] == its[j + 1..k];
    AfterAllConcat(d, s, its[..j], its[j..k]);
  }

  // ---------------------------------------------------------------- what the bound costs

  /** The keys stepped over on the way to an iteration. */
  function Stepped(d: Derivation, s: State, iteration: nat): seq<MessageKey>
    decreases iteration - s.chainIteration
  {
    if s.chainIteration < iteration then
      [MessageKey(s.chainIteration, d.message(s.chainSeed))] +
      Stepped(d, State(s.chainIteration + 1, d.next(s.chainSeed), []), iteration)
    else []
  }

  /** All the keys stepped over and not yet handed out, as a list without a bound would hold them. */
  function Pending(d: Derivation, s: State, pending: seq<MessageKey>, iteration: nat): seq<MessageKey> {
    if TakeKey(d, s, iteration).Err? then pending
    else if s.chainIteration > iteration then
      var i := Find(pending, iteration);
      if i < |pending| then Without(pending, i) else pending
    else pending + Stepped(d, s, iteration)
  }

  ghost predicate Suffix(keys: seq<MessageKey>, pending: seq<MessageKey>) {
    |keys| <= |pending| && pending[|pending| - |keys|..] == keys
  }

  lemma LastLast(a: seq<MessageKey>, b: seq<MessageKey>)
    ensures Last(Last(a) + b) == Last(a + b)
  {
    if |a| > MAX_KEYS && |a + b| > MAX_KEYS {
      assert Last(a + b) == (a + b)[|a + b| - MAX_KEYS..];
      assert Last(a) + b == (a + b)[|a| - MAX_KEYS..];
    }
  }

  lemma {:induction false} StepUpKeeps(d: Derivation, s: State, iteration: nat)
    requires |s.messageKeys| <= MAX_KEYS
    ensures StepUp(d, s, iteration).messageKeys == Last(s.messageKeys + Stepped(d, s, iteration))
    decreases iteration - s.chainIteration
  {
    hide Last;
    if s.chainIteration < iteration {
      var k := MessageKey(s.chainIteration, d.message(s.chainSeed));
      var t := State(s.chainIteration + 1, d.next(s.chainSeed), Added(s.messageKeys, k));
      assert |t.messageKeys| <= MAX_KEYS by { LastSize(s.messageKeys + [k]); }
      StepUpKeeps(d, t, iteration);
      SteppedSame(d, t, iteration);
      var rest := Stepped(d, t, iteration);
      LastLast(s.messageKeys + [k], rest);
      assert s.messageKeys + ([k] + rest) == s.messageKeys + [k] + rest;
    } else {
      assert s.messageKeys + [] == s.messageKeys;
      LastSize(s.messageKeys);
    }
  }

  lemma LastSize(keys: seq<MessageKey>)
    ensures |Last(keys)| <= MAX_KEYS && (|keys| <= MAX_KEYS ==> Last(keys) == keys)
  {
  }

  lemma SteppedSame(d: Derivation, t: State, iteration: nat)
    ensures Stepped(d, t, iteration) == Stepped(d, t.(messageKeys := []), iteration)
  {
  }

  /** The list is full, and every key in it is newer than this one. */
  ghost predicate Crowded(keys: seq<MessageKey>, k: MessageKey) {
    |keys| == MAX_KEYS && forall n | n in keys :: n.iteration > k.iteration
  }

  /** A pending key that is not in the list was not there before either, or has just been crowded out. */
  ghost predicate LostOnlyWhenFull(s: State, pending: seq<MessageKey>, t: State, after: seq<MessageKey>) {
    forall k | k in after && k !in t.messageKeys :: (k in pending && k !in s.messageKeys) || Crowded(t.messageKeys, k)
  }

  /** The list is always the newest part of what is pending: a key is trimmed only when there are
      MaxKeys newer ones, and while there is room nothing is. */
  lemma TrimsOldest(d: Derivation, start: Seed, from: nat, s: State, pending: seq<MessageKey>, iteration: nat)
    requires Right(d, start, from, s) && Increasing(pending) && Suffix(s.messageKeys, pending)
    requires forall k | k in pending :: k.iteration < s.chainIteration
    ensures var p := Pending(d, s, pending, iteration);
      var t := After(d, s, iteration);
      && Suffix(t.messageKeys, p) && Increasing(p) && (forall k | k in p :: k.iteration < t.chainIteration)
      && LostOnlyWhenFull(s, pending, t, p)
      && (s.messageKeys == pending && |p| <= MAX_KEYS ==> t.messageKeys == p)
  {
    hide Right, StepUp, Stepped, Suffix, Increasing, Last, Without, Find;
    if TakeKey(d, s, iteration).Ok? {
      if s.chainIteration > iteration {
        RemovedSuffix(s.messageKeys, pending, iteration);
      } else {
        assert |s.messageKeys| <= MAX_KEYS by { RightSize(d, start, from, s); }
        StepUpKeeps(d, s, iteration);
        StepUpTo(d, s, iteration);
        AppendedSuffix(s.messageKeys, pending, Stepped(d, s, iteration));
        AppendedIncreasing(d, s, pending, iteration);
        AppendedCrowds(s.messageKeys, pending, Stepped(d, s, iteration));
      }
    }
  }

  /** What falls off the front of the list is older than all that stays, and the list is full. */
  lemma AppendedCrowds(keys: seq<MessageKey>, pending: seq<MessageKey>, more: seq<MessageKey>)
    requires Suffix(keys, pending) && Increasing(pending + more)
    ensures forall k | k in pending + more && k !in Last(keys + more) :: (k in pending && k !in keys) || Crowded(Last(keys + more), k)
  {
    var all := keys + more;
    var p := pending + more;
    assert p[|pending| - |keys|..] == all;
    forall k | k in p && k !in Last(all) && !(k in pending && k !in keys)
      ensures Crowded(Last(all), k)
    {
      assert k in all;
      var i :| 0 <= i < |all| && all[i] == k;
      var cut := |all| - MAX_KEYS;
      assert cut > i && Last(all) == all[cut..];
      forall n | n in Last(all)
        ensures n.iteration > k.iteration
      {
        var j :| cut <= j < |all| && all[j] == n;
        assert p[|pending| - |keys| + i] == k && p[|pending| - |keys| + j] == n;
      }
    }
  }

  lemma RightSize(d: Derivation, start: Seed, from: nat, s: State)
    requires Right(d, start, from, s)
    ensures |s.messageKeys| <= MAX_KEYS
  {
  }

  lemma AppendedIncreasing(d: Derivation, s: State, pending: seq<MessageKey>, iteration: nat)
    requires Increasing(pending) && s.chainIteration <= iteration && forall k | k in pending :: k.iteration < s.chainIteration
    ensures Increasing(pending + Stepped(d, s, iteration))
    ensures forall k | k in pending + Stepped(d, s, iteration) :: k.iteration < iteration + 1
  {
    hide Stepped;
    SteppedRange(d, s, iteration);
  }

  lemma {:induction false} StepUpTo(d: Derivation, s: State, iteration: nat)
    requires s.chainIteration <= iteration
    ensures StepUp(d, s, iteration).chainIteration == iteration
    decreases iteration - s.chainIteration
  {
    if s.chainIteration < iteration {
      StepUpTo(d, State(s.chainIteration + 1, d.next(s.chainSeed), Added(s.messageKeys, MessageKey(s.chainIteration, d.message(s.chainSeed)))), iteration);
    }
  }

  lemma {:induction false} SteppedRange(d: Derivation, s: State, iteration: nat)
    requires s.chainIteration <= iteration
    ensures var keys := Stepped(d, s, iteration);
      |keys| == iteration - s.chainIteration && forall i | 0 <= i < |keys| :: keys[i].iteration == s.chainIteration + i
    decreases iteration - s.chainIteration
  {
    if s.chainIteration < iteration {
      SteppedRange(d, State(s.chainIteration + 1, d.next(s.chainSeed), []), iteration);
    }
  }

  lemma AppendedSuffix(keys: seq<MessageKey>, pending: seq<MessageKey>, more: seq<MessageKey>)
    requires Suffix(keys, pending)
    ensures Suffix(Last(keys + more), pending + more)
    ensures keys == pending && |pending + more| <= MAX_KEYS ==> Last(keys + more) == pending + more
  {
    var p := pending + more;
    assert p[|pending| - |keys|..] == keys + more;
  }

  lemma RemovedSuffix(keys: seq<MessageKey>, pending: seq<MessageKey>, iteration: nat)
    requires Suffix(keys, pending) && Increasing(pending) && Find(keys, iteration) < |keys|
    ensures var i, j := Find(keys, iteration), Find(pending, iteration);
      && j < |pending| && Suffix(Without(keys, i), Without(pending, j))
      && Increasing(Without(pending, j)) && (forall k | k in Without(pending, j) :: k in pending)
      && (keys == pending ==> Without(keys, i) == Without(pending, j))
      && (forall k | k in Without(pending, j) && k in keys :: k in Without(keys, i))
  {
    hide Find;
    var off := |pending| - |keys|;
    var i, j := Find(keys, iteration), Find(pending, iteration);
    SameKey(keys, pending, iteration);
    assert Without(pending, j)[off..] == Without(keys, i);
    WithoutIncreasing(pending, j);
    StaysWithout(keys, pending, i, j);
  }

  lemma StaysWithout(keys: seq<MessageKey>, pending: seq<MessageKey>, i: nat, j: nat)
    requires i < |keys| && j < |pending| && keys[i] == pending[j] && Increasing(pending)
    ensures forall k | k in Without(pending, j) && k in keys :: k in Without(keys, i)
  {
    var p := Without(pending, j);
    forall k | k in p && k in keys
      ensures k in Without(keys, i)
    {
      var n :| 0 <= n < |p| && p[n] == k;
      assert k == pending[if n < j then n else n + 1];
      var m :| 0 <= m < |keys| && keys[m] == k;
      assert m != i;
      assert Without(keys, i)[if m < i then m else m - 1] == k;
    }
  }

  lemma SameKey(keys: seq<MessageKey>, pending: seq<MessageKey>, iteration: nat)
    requires Suffix(keys, pending) && Increasing(pending) && Find(keys, iteration) < |keys|
    ensures Find(pending, iteration) == |pending| - |keys| + Find(keys, iteration)
  {
    hide Find;
    var at := |pending| - |keys| + Find(keys, iteration);
    assert pending[at] == keys[Find(keys, iteration)];
  }

  lemma WithoutIncreasing(keys: seq<MessageKey>, j: nat)
    requires j < |keys| && Increasing(keys)
    ensures Increasing(Without(keys, j)) && forall k | k in Without(keys, j) :: k in keys
  {
    var p := Without(keys, j);
    assert forall n | 0 <= n < |p| :: p[n] == keys[if n < j then n else n + 1];
  }

  function PendingAll(d: Derivation, s: State, pending: seq<MessageKey>, its: seq<nat>): seq<MessageKey>
    decreases |its|
  {
    if its == [] then pending else PendingAll(d, After(d, s, its[0]), Pending(d, s, pending, its[0]), its[1..])
  }

  /** After any series of messages the list holds the newest of the pending keys: one that is missing,
      and was not missing at the start, was older than a full list at some point. */
  lemma {:induction false} HoldsNewest(d: Derivation, start: Seed, from: nat, s: State, pending: seq<MessageKey>, its: seq<nat>)
    requires Right(d, start, from, s) && Increasing(pending) && Suffix(s.messageKeys, pending)
    requires forall k | k in pending :: k.iteration < s.chainIteration
    ensures Suffix(AfterAll(d, s, its).messageKeys, PendingAll(d, s, pending, its))
    ensures forall k | k in PendingAll(d, s, pending, its) && k !in AfterAll(d, s, its).messageKeys ::
      (k in pending && k !in s.messageKeys) || exists m :: 0 <= m <= |its| && Crowded(AfterAll(d, s, its[..m]).messageKeys, k)
    decreases |its|
  {
    hide Right, Increasing, Suffix, After, Pending, Crowded;
    if its != [] {
      TrimsOldest(d, start, from, s, pending, its[0]);
      assert Spent(s, {}) by { NothingSpent(s); }
      AfterRight(d, start, from, s, its[0], {});
      var t, p := After(d, s, its[0]), Pending(d, s, pending, its[0]);
      HoldsNewest(d, start, from, t, p, its[1..]);
      forall k | k in PendingAll(d, s, pending, its) && k !in AfterAll(d, s, its).messageKeys && !(k in pending && k !in s.messageKeys)
        ensures exists m :: 0 <= m <= |its| && Crowded(AfterAll(d, s, its[..m]).messageKeys, k)
      {
        if k in p && k !in t.messageKeys {
          PrefixAfter(d, s, its, 0);
          assert Crowded(AfterAll(d, s, its[..1]).messageKeys, k);
        } else {
          var m :| 0 <= m <= |its[1..]| && Crowded(AfterAll(d, t, its[1..][..m]).messageKeys, k);
          PrefixAfter(d, s, its, m);
          assert Crowded(AfterAll(d, s, its[..m + 1]).messageKeys, k);
        }
      }
    }
  }

  lemma PrefixAfter(d: Derivation, s: State, its: seq<nat>, m: nat)
    requires its != [] && m <= |its| - 1
    ensures AfterAll(d, s, its[..m + 1]) == AfterAll(d, After(d, s, its[0]), its[1..][..m])
    ensures AfterAll(d, After(d, s, its[0]), []) == After(d, s, its[0]) && its[1..][..0] == []
  {
    hide After;
    assert its[..m + 1][1..] == its[1..][..m];
  }

  /** While no more than MaxKeys keys are pending at any point, the list holds every one of them. */
  lemma {:induction false} HoldsAll(d: Derivation, start: Seed, from: nat, s: State, its: seq<nat>)
    requires Right(d, start, from, s)
    requires forall m | 0 <= m <= |its| :: |PendingAll(d, s, s.messageKeys, its[..m])| <= MAX_KEYS
    ensures AfterAll(d, s, its).messageKeys == PendingAll(d, s, s.messageKeys, its)
    decreases |its|
  {
    hide Increasing, Suffix, After, Pending;
    if its != [] {
      var t, p := After(d, s, its[0]), Pending(d, s, s.messageKeys, its[0]);
      PrefixPending(d, s, s.messageKeys, its, 0);
      assert Suffix(s.messageKeys, s.messageKeys) by { WholeSuffix(s.messageKeys); }
      TrimsOldest(d, start, from, s, s.messageKeys, its[0]);
      assert t.messageKeys == p;
      assert Spent(s, {}) by { NothingSpent(s); }
      AfterRight(d, start, from, s, its[0], {});
      forall m | 0 <= m <= |its[1..]|
        ensures |PendingAll(d, t, p, its[1..][..m])| <= MAX_KEYS
      {
        PrefixPending(d, s, s.messageKeys, its, m);
      }
      HoldsAll(d, start, from, t, its[1..]);
    }
  }

  lemma PrefixPending(d: Derivation, s: State, pending: seq<MessageKey>, its: seq<nat>, m: nat)
    requires its != [] && m <= |its| - 1
    ensures PendingAll(d, s, pending, its[..m + 1]) == PendingAll(d, After(d, s, its[0]), Pending(d, s, pending, its[0]), its[1..][..m])
    ensures PendingAll(d, After(d, s, its[0]), Pending(d, s, pending, its[0]), []) == Pending(d, s, pending, its[0]) && its[1..][..0] == []
  {
    hide After, Pending;
    assert its[..m + 1][1..] == its[1..][..m];
  }

  lemma WholeSuffix(keys: seq<MessageKey>)
    ensures Suffix(keys, keys)
  {
  }

  lemma NothingSpent(s: State)
    ensures Spent(s, {})
  {
  }
}
