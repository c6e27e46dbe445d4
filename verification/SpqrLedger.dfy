/** What a post-quantum state has given out, over any calls and whoever the messages come from: no salt is
    received twice, whether a message gets its salt depends on the indices received so far, and sending
    counts up in each epoch. */
module SpqrLedger {
  import opened Words
  import opened Results
  import opened Erasure
  import opened SpqrCrypto
  import opened SpqrStates
  import opened SpqrHistory
  import opened SpqrChain
  import opened SpqrState

  // ---------------------------------------------------------------- the ledger

  /** A salt that was received: the epoch of the chain and the index. */
  datatype Entry = Entry(epoch: nat, index: nat)

  function EntryOf(c: Crypto, s: State, call: Call): Option<Entry>
    requires s.v1.Valid() && Sane(call)
  {
    if call.CallSend? then None
    else
      var r := ReceiveState(c, s, call.msg, call.index);
      if r.Ok? && r.value.salt.Some? && call.msg.epoch >= 1 then Some(Entry(call.msg.epoch - 1, call.index)) else None
  }

  function Noted(log: seq<Entry>, entry: Option<Entry>): seq<Entry> {
    if entry.Some? then log + [entry.value] else log
  }

  function Ledger(c: Crypto, s: State, log: seq<Entry>, calls: seq<Call>): seq<Entry>
    requires c.Sizes() && Regular(s) && forall k | 0 <= k < |calls| :: Sane(calls[k])
    decreases |calls|
  {
    if calls == [] then log
    else
      ApplyRegular(c, s, calls[0]);
      Ledger(c, Apply(c, s, calls[0]), Noted(log, EntryOf(c, s, calls[0])), calls[1..])
  }

  /** The service of an epoch after the indices received in it. What it answers does not depend on the seed. */
  function ServiceOf(c: Crypto, p: Params, log: seq<Entry>, e: nat): Service {
    if log == [] then NEW_SERVICE
    else
      var s, last := ServiceOf(c, p, log[..|log| - 1], e), log[|log| - 1];
      if last.epoch == e then ServiceKeyAt(c, [], s, last.index, p).service else s
  }

  lemma SeedFree(c: Crypto, seed: Bytes, s: Service, at: nat, p: Params)
    ensures var r, q := ServiceKeyAt(c, seed, s, at, p), ServiceKeyAt(c, [], s, at, p);
      r.service == q.service && (r.result.Ok? <==> q.result.Ok?) && (r.result.Err? ==> r.result == q.result)
  {
  }

  lemma ServiceAppend(c: Crypto, p: Params, log: seq<Entry>, x: Entry, e: nat)
    ensures ServiceOf(c, p, log + [x], e) ==
      if x.epoch == e then ServiceKeyAt(c, [], ServiceOf(c, p, log, e), x.index, p).service else ServiceOf(c, p, log, e)
  {
    assert (log + [x])[..|log|] == log;
  }

  lemma {:induction false} ServiceUntouched(c: Crypto, p: Params, log: seq<Entry>, e: nat)
    requires forall x | x in log :: x.epoch != e
    ensures ServiceOf(c, p, log, e) == NEW_SERVICE
  {
    if log != [] {
      ServiceUntouched(c, p, log[..|log| - 1], e);
    }
  }

  // ---------------------------------------------------------------- the chain keeps it

  ghost predicate Serves(c: Crypto, p: Params, d: Dir, s: Service) {
    exists seed: Bytes :: seed != [] && Tracks(c, seed, p, d, s)
  }

  ghost predicate ChainKeeps(c: Crypto, p: Params, ch: Chain, log: seq<Entry>) {
    && Shaped(ch) && ch.params == p
    && (forall x | x in log :: x.epoch <= ch.currentEpoch)
    && (forall e | Oldest(ch) <= e <= ch.currentEpoch :: Serves(c, p, LinkOf(ch, e).recv, ServiceOf(c, p, log, e)))
  }

  lemma NewServes(c: Crypto, p: Params, ikm: Bytes, salt: Bytes, info: Info, dir: Direction)
    requires c.Sizes()
    ensures Serves(c, p, NewLink(c, ikm, salt, info, dir).recv, NEW_SERVICE)
  {
    hide Tracks;
    var seed := c.hkdf(ikm, salt, info, SeedBlock(Other(dir)));
    assert |seed| == 32;
    TracksNew(c, seed, p);
  }

  lemma FirstKeeps(c: Crypto, vn: Negotiation)
    requires c.Sizes()
    ensures ChainKeeps(c, vn.params, FromNegotiation(c, vn), [])
  {
    hide Serves;
    NewServes(c, vn.params, vn.authKey, ZeroBytes(32), ChainStart, vn.dir);
    assert |c.hkdf(vn.authKey, ZeroBytes(32), ChainStart, SeedBlock(vn.dir))| == 32;
  }

  lemma SecretKeeps(c: Crypto, p: Params, ch: Chain, log: seq<Entry>, key: Option<EpochSecret>)
    requires c.Sizes() && ChainKeeps(c, p, ch, log) && WithSecret(c, ch, key).Ok?
    ensures ChainKeeps(c, p, WithSecret(c, ch, key).value, log)
  {
    hide Serves, ServiceOf, Shaped;
    if key.Some? {
      AddShaped(c, ch, key.value.secret);
      NewServes(c, p, key.value.secret, ch.nextRoot, ChainAddEpoch, ch.dir);
      ServiceUntouched(c, p, log, ch.currentEpoch + 1);
    }
  }

  lemma SendKeeps(c: Crypto, p: Params, ch: Chain, log: seq<Entry>, epoch: nat)
    requires c.Sizes() && ChainKeeps(c, p, ch, log) && SendKey(c, ch, epoch).result.Ok?
    ensures ChainKeeps(c, p, SendKey(c, ch, epoch).chain, log)
  {
    hide Serves, ServiceOf, Shaped, SendKey;
    SendShaped(c, ch, epoch);
  }

  /** A key for receiving is to be had exactly when the service of its epoch gives it. */
  lemma RecvKeeps(c: Crypto, p: Params, ch: Chain, log: seq<Entry>, epoch: nat, index: nat)
    requires c.Sizes() && ChainKeeps(c, p, ch, log) && index < WORD && Oldest(ch) <= epoch <= ch.currentEpoch
    ensures var r := RecvKey(c, ch, epoch, index);
      var q := ServiceKeyAt(c, [], ServiceOf(c, p, log, epoch), index, p);
      && (r.result.Ok? <==> q.result.Ok?) && (r.result.Err? ==> r.result == q.result)
      && (r.result.Ok? ==> ChainKeeps(c, p, r.chain, log + [Entry(epoch, index)]))
  {
    hide ServiceOf, Shaped, RecvKey, KeyAt, ServiceKeyAt, Tracks;
    RecvShaped(c, ch, epoch, index);
    var d, s := LinkOf(ch, epoch).recv, ServiceOf(c, p, log, epoch);
    assert Serves(c, p, d, s);
    var seed: Bytes :| seed != [] && Tracks(c, seed, p, d, s);
    KeyAtRefines(c, seed, p, d, s, index);
    SeedFree(c, seed, s, index, p);
    var r := RecvKey(c, ch, epoch, index);
    forall e | Oldest(r.chain) <= e <= r.chain.currentEpoch
      ensures r.result.Ok? ==> Serves(c, p, LinkOf(r.chain, e).recv, ServiceOf(c, p, log + [Entry(epoch, index)], e))
    {
      ServiceAppend(c, p, log, Entry(epoch, index), e);
      assert Serves(c, p, LinkOf(ch, e).recv, ServiceOf(c, p, log, e));
    }
  }

  // ---------------------------------------------------------------- the state keeps it

  ghost predicate Keeps(c: Crypto, vn: Negotiation, s: State, log: seq<Entry>) {
    && Regular(s)
    && (s.negotiation.Some? ==> s.negotiation.value == vn)
    && (if s.chain.Some? then ChainKeeps(c, vn.params, s.chain.value, log) else log == [])
  }

  lemma SendStateKeeps(c: Crypto, vn: Negotiation, s: State, log: seq<Entry>, coin: nat)
    requires c.Sizes() && Keeps(c, vn, s, log) && SendState(c, s, coin).Ok?
    ensures Keeps(c, vn, SendState(c, s, coin).value.state, log)
  {
    hide Send, SendKey, WithSecret, ChainKeeps, FromNegotiation, InStep;
    SendStaysRegular(c, s, coin);
    FirstKeeps(c, vn);
    var chain := ChainForSend(c, s).value;
    if chain.Some? {
      var sent := Send(c, s.v1, coin).value;
      SecretKeeps(c, vn.params, chain.value, log, sent.key);
      SendKeeps(c, vn.params, WithSecret(c, chain.value, sent.key).value, log, sent.msg.epoch - 1);
    }
  }

  /** The epoch has not been dropped. */
  predicate Held(s: State, e: nat) {
    s.chain.None? || Oldest(s.chain.value) <= e
  }

  lemma RecvDropped(c: Crypto, ch: Chain, epoch: nat, index: nat)
    requires Shaped(ch) && index < WORD && epoch < Oldest(ch)
    ensures RecvKey(c, ch, epoch, index).result == Err(EpochOutOfRange)
  {
  }

  /** The chain that a message is looked up in keeps the ledger. */
  lemma LookupChain(c: Crypto, vn: Negotiation, s: State, log: seq<Entry>, msg: V1Message) returns (ch: Chain)
    requires c.Sizes() && Keeps(c, vn, s, log) && msg.Typed() && Recv(c, s.v1, msg).Ok? && msg.epoch >= 1
    ensures ChainForRecv(c, s).Ok? && WithSecret(c, ChainForRecv(c, s).value, Recv(c, s.v1, msg).value.key) == Ok(ch)
    ensures ChainKeeps(c, vn.params, ch, log) && msg.epoch - 1 <= ch.currentEpoch
    ensures Held(s, msg.epoch - 1) <==> Oldest(ch) <= msg.epoch - 1
  {
    hide Recv, ChainKeeps, FromNegotiation, Shaped, AddEpoch;
    FirstKeeps(c, vn);
    ch := ReceiveChain(c, s, msg);
    SecretKeeps(c, vn.params, ChainForRecv(c, s).value, log, Recv(c, s.v1, msg).value.key);
    SameOldest(c, s, vn, Recv(c, s.v1, msg).value.key);
  }

  lemma SameOldest(c: Crypto, s: State, vn: Negotiation, key: Option<EpochSecret>)
    requires s.chain.None? ==> s.negotiation == Some(vn)
    requires ChainForRecv(c, s).Ok? && WithSecret(c, ChainForRecv(c, s).value, key).Ok?
    ensures Oldest(WithSecret(c, ChainForRecv(c, s).value, key).value) == if s.chain.None? then 0 else Oldest(s.chain.value)
  {
  }

  /** Whether a message that the handshake takes is accepted, and with what error it is refused. */
  lemma ReceivesExactly(c: Crypto, vn: Negotiation, s: State, log: seq<Entry>, msg: V1Message, index: nat)
    requires c.Sizes() && Keeps(c, vn, s, log) && msg.Typed() && index < WORD && Recv(c, s.v1, msg).Ok? && msg.epoch >= 1
    ensures var r := ReceiveState(c, s, msg, index);
      var q := ServiceKeyAt(c, [], ServiceOf(c, vn.params, log, msg.epoch - 1), index, vn.params).result;
      if msg.epoch == 1 && index == 0 then r.Ok? && r.value.salt.None?
      else if !Held(s, msg.epoch - 1) then r == Err(EpochOutOfRange)
      else if q.Err? then r == Err(q.error)
      else r.Ok? && r.value.salt.Some?
  {
    hide Recv, RecvKey, WithSecret, ChainKeeps, ServiceOf, ServiceKeyAt, Held, ChainForRecv;
    var ch := LookupChain(c, vn, s, log, msg);
    if Held(s, msg.epoch - 1) {
      RecvKeeps(c, vn.params, ch, log, msg.epoch - 1, index);
    } else {
      assert Shaped(ch) by { KeepsShaped(c, vn.params, ch, log); }
      RecvDropped(c, ch, msg.epoch - 1, index);
    }
  }

  lemma KeepsShaped(c: Crypto, p: Params, ch: Chain, log: seq<Entry>)
    requires ChainKeeps(c, p, ch, log)
    ensures Shaped(ch)
  {
  }

  lemma ReceiveStateKeeps(c: Crypto, vn: Negotiation, s: State, log: seq<Entry>, msg: V1Message, index: nat)
    requires c.Sizes() && Keeps(c, vn, s, log) && msg.Typed() && index < WORD && ReceiveState(c, s, msg, index).Ok?
    ensures var r := ReceiveState(c, s, msg, index).value;
      && msg.epoch >= 1 && Keeps(c, vn, r.state, if r.salt.Some? then log + [Entry(msg.epoch - 1, index)] else log)
      && (r.salt.Some? ==> ServiceKeyAt(c, [], ServiceOf(c, vn.params, log, msg.epoch - 1), index, vn.params).result.Ok?)
  {
    hide Recv, RecvKey, WithSecret, ChainKeeps, ServiceOf, ServiceKeyAt, ChainForRecv, InStep, Held;
    ReceiveStaysRegular(c, s, msg, index);
    var ch := LookupChain(c, vn, s, log, msg);
    ReceivesExactly(c, vn, s, log, msg, index);
    if ReceiveState(c, s, msg, index).value.salt.Some? {
      RecvKeeps(c, vn.params, ch, log, msg.epoch - 1, index);
    }
  }

  // ---------------------------------------------------------------- no salt twice

  ghost predicate NoRepeats(log: seq<Entry>) {
    forall i, j | 0 <= i < j < |log| :: log[i] != log[j]
  }

  /** An index that was received in an epoch counts as taken there. */
  lemma {:induction false} Taken(c: Crypto, p: Params, log: seq<Entry>, x: Entry)
    requires x in log && AllServed(c, p, log)
    ensures x.index in ServiceOf(c, p, log, x.epoch).ideal.taken && x.index <= ServiceOf(c, p, log, x.epoch).ideal.ctr
    decreases |log|
  {
    hide ServiceKeyAt;
    var rest, last := log[..|log| - 1], log[|log| - 1];
    assert log == rest + [last];
    var s := ServiceOf(c, p, rest, x.epoch);
    TakesIndex(c, s, last.index, p);
    if x in rest {
      Taken(c, p, rest, x);
    }
  }

  /** Each entry was a key that the service of its epoch gave. */
  ghost predicate AllServed(c: Crypto, p: Params, log: seq<Entry>) {
    if log == [] then true
    else
      var rest, last := log[..|log| - 1], log[|log| - 1];
      AllServed(c, p, rest) && ServiceKeyAt(c, [], ServiceOf(c, p, rest, last.epoch), last.index, p).result.Ok?
  }

  lemma TakesIndex(c: Crypto, s: Service, at: nat, p: Params)
    ensures var r := ServiceKeyAt(c, [], s, at, p);
      && s.ideal.taken <= r.service.ideal.taken && s.ideal.ctr <= r.service.ideal.ctr
      && (r.result.Ok? ==> at in r.service.ideal.taken && at <= r.service.ideal.ctr && !(at in s.ideal.taken && at <= s.ideal.ctr))
  {
  }

  lemma AppendFresh(c: Crypto, p: Params, log: seq<Entry>, x: Entry)
    requires AllServed(c, p, log) && NoRepeats(log) && ServiceKeyAt(c, [], ServiceOf(c, p, log, x.epoch), x.index, p).result.Ok?
    ensures AllServed(c, p, log + [x]) && NoRepeats(log + [x])
  {
    hide ServiceKeyAt, ServiceOf;
    TakesIndex(c, ServiceOf(c, p, log, x.epoch), x.index, p);
    if x in log {
      Taken(c, p, log, x);
    }
    assert (log + [x])[..|log|] == log;
  }

  ghost predicate LedgerInv(c: Crypto, vn: Negotiation, s: State, log: seq<Entry>) {
    Keeps(c, vn, s, log) && AllServed(c, vn.params, log) && NoRepeats(log)
  }

  lemma LedgerStep(c: Crypto, vn: Negotiation, s: State, log: seq<Entry>, call: Call)
    requires c.Sizes() && LedgerInv(c, vn, s, log) && Sane(call)
    ensures s.v1.Valid() && LedgerInv(c, vn, Apply(c, s, call), Noted(log, EntryOf(c, s, call)))
  {
    hide ChainKeeps, InStep, AllServed, NoRepeats, SendState, ReceiveState, ServiceKeyAt, ServiceOf;
    match call
    case CallSend(coin) =>
      if SendState(c, s, coin).Ok? {
        SendStateKeeps(c, vn, s, log, coin);
      }
    case CallReceive(msg, index) =>
      if ReceiveState(c, s, msg, index).Ok? {
        ReceiveStateKeeps(c, vn, s, log, msg, index);
        if ReceiveState(c, s, msg, index).value.salt.Some? {
          AppendFresh(c, vn.params, log, Entry(msg.epoch - 1, index));
        }
      }
  }

  lemma {:induction false} LedgerRun(c: Crypto, vn: Negotiation, s: State, log: seq<Entry>, calls: seq<Call>)
    requires c.Sizes() && Regular(s) && LedgerInv(c, vn, s, log) && forall k | 0 <= k < |calls| :: Sane(calls[k])
    ensures LedgerInv(c, vn, ApplyAll(c, s, calls), Ledger(c, s, log, calls))
    decreases |calls|
  {
    hide LedgerInv, Regular, Apply, EntryOf, Noted;
    if calls != [] {
      assert s.v1.Valid() by { RegularValid(s); }
      ApplyRegular(c, s, calls[0]);
      LedgerStep(c, vn, s, log, calls[0]);
      LedgerRun(c, vn, Apply(c, s, calls[0]), Noted(log, EntryOf(c, s, calls[0])), calls[1..]);
    }
  }

  lemma LedgerNew(c: Crypto, vn: Negotiation)
    ensures LedgerInv(c, vn, NewState(c, vn), [])
  {
  }

  /** Over any calls with any messages from a new state: no two successful receives that return a salt are of
      the same epoch and index. */
  lemma EachSaltOnce(c: Crypto, vn: Negotiation, calls: seq<Call>)
    requires c.Sizes() && forall k | 0 <= k < |calls| :: Sane(calls[k])
    ensures Regular(NewState(c, vn)) && NoRepeats(Ledger(c, NewState(c, vn), [], calls))
  {
    hide Ledger, NewState;
    assert Regular(NewState(c, vn)) by { RegularNew(c, vn); }
    LedgerNew(c, vn);
    LedgerRun(c, vn, NewState(c, vn), [], calls);
  }

  /** And what is received next: a message that the handshake takes is accepted exactly when its epoch is held
      and the key service of the epoch, after the indices received in it so far, gives the key of its
      index; the first epoch's index 0 stands for no salt. It is refused with the service's error. */
  lemma NextReceipt(c: Crypto, vn: Negotiation, calls: seq<Call>, msg: V1Message, index: nat)
    requires c.Sizes() && (forall k | 0 <= k < |calls| :: Sane(calls[k])) && Regular(NewState(c, vn))
    requires msg.Typed() && index < WORD && msg.epoch >= 1 && Recv(c, ApplyAll(c, NewState(c, vn), calls).v1, msg).Ok?
    ensures var s, log := ApplyAll(c, NewState(c, vn), calls), Ledger(c, NewState(c, vn), [], calls);
      var r := ReceiveState(c, s, msg, index);
      var q := ServiceKeyAt(c, [], ServiceOf(c, vn.params, log, msg.epoch - 1), index, vn.params).result;
      if msg.epoch == 1 && index == 0 then r.Ok? && r.value.salt.None?
      else if !Held(s, msg.epoch - 1) then r == Err(EpochOutOfRange)
      else if q.Err? then r == Err(q.error)
      else r.Ok? && r.value.salt.Some?
  {
    hide Ledger, NewState, ApplyAll, Keeps, Recv, ReceiveState, ServiceOf, ServiceKeyAt, Held;
    LedgerNew(c, vn);
    LedgerRun(c, vn, NewState(c, vn), [], calls);
    ReceivesExactly(c, vn, ApplyAll(c, NewState(c, vn), calls), Ledger(c, NewState(c, vn), [], calls), msg, index);
  }

  // ---------------------------------------------------------------- sending

  /** The epochs of the chain that salts were sent in. */
  function Outbox(c: Crypto, s: State, sent: seq<nat>, calls: seq<Call>): seq<nat>
    requires c.Sizes() && Regular(s) && forall k | 0 <= k < |calls| :: Sane(calls[k])
    decreases |calls|
  {
    if calls == [] then sent
    else
      ApplyRegular(c, s, calls[0]);
      Outbox(c, Apply(c, s, calls[0]), Posted(c, s, sent, calls[0]), calls[1..])
  }

  function Posted(c: Crypto, s: State, sent: seq<nat>, call: Call): seq<nat>
    requires s.v1.Valid()
  {
    if call.CallReceive? then sent
    else
      var r := SendState(c, s, call.coin);
      if r.Ok? && r.value.wire.salt.Some? && r.value.wire.msg.epoch >= 1 then sent + [r.value.wire.msg.epoch - 1] else sent
  }

  function CountOf(sent: seq<nat>, e: nat): nat {
    if sent == [] then 0 else CountOf(sent[..|sent| - 1], e) + if sent[|sent| - 1] == e then 1 else 0
  }

  /** The 32-bit index after n messages. */
  function NextIndex(n: nat): nat {
    (n + 1) % WORD
  }

  lemma CountAppend(sent: seq<nat>, x: nat, e: nat)
    ensures CountOf(sent + [x], e) == CountOf(sent, e) + if x == e then 1 else 0
  {
    assert (sent + [x])[..|sent|] == sent;
  }

  lemma {:induction false} CountNone(sent: seq<nat>, e: nat)
    requires e !in sent
    ensures CountOf(sent, e) == 0
  {
    if sent != [] {
      CountNone(sent[..|sent| - 1], e);
    }
  }

  ghost predicate ChainCounts(ch: Chain, sent: seq<nat>) {
    && Shaped(ch)
    && (forall x | x in sent :: x <= ch.sendEpoch)
    && (forall e | ch.sendEpoch <= e <= ch.currentEpoch :: LinkOf(ch, e).send.ctr == CountOf(sent, e) % WORD)
    && (ch.sendEpoch > 0 ==> LinkOf(ch, ch.sendEpoch - 1).send.next == [])
  }

  ghost predicate Counts(vn: Negotiation, s: State, sent: seq<nat>) {
    && Regular(s)
    && (s.negotiation.Some? ==> s.negotiation.value == vn)
    && (if s.chain.Some? then ChainCounts(s.chain.value, sent) else sent == [])
  }

  lemma SecretCounts(c: Crypto, ch: Chain, sent: seq<nat>, key: Option<EpochSecret>)
    requires c.Sizes() && ChainCounts(ch, sent) && WithSecret(c, ch, key).Ok?
    ensures ChainCounts(WithSecret(c, ch, key).value, sent)
  {
    hide CountOf;
    if key.Some? {
      AddShaped(c, ch, key.value.secret);
      CountNone(sent, ch.currentEpoch + 1);
    }
  }

  lemma SendCounts(c: Crypto, ch: Chain, sent: seq<nat>, epoch: nat)
    requires c.Sizes() && ChainCounts(ch, sent) && SendKey(c, ch, epoch).result.Ok?
    ensures ChainCounts(SendKey(c, ch, epoch).chain, sent + [epoch])
  {
    hide Shaped, CountOf, SendKey, LinkOf, DirNext, DirKey;
    SendShaped(c, ch, epoch);
    var r := SendKey(c, ch, epoch).chain;
    forall e | r.sendEpoch <= e <= r.currentEpoch
      ensures LinkOf(r, e).send.ctr == CountOf(sent + [epoch], e) % WORD
    {
      CountAppend(sent, epoch, e);
      if e == epoch {
        NextCount(c, LinkOf(ch, e).send, CountOf(sent, e));
      }
    }
  }

  lemma NextCount(c: Crypto, d: Dir, n: nat)
    requires d.ctr == n % WORD
    ensures DirNext(c, d).ctr == (n + 1) % WORD
  {
  }

  lemma SendIndex(c: Crypto, ch: Chain, sent: seq<nat>, epoch: nat)
    requires c.Sizes() && ChainCounts(ch, sent) && SendKey(c, ch, epoch).result.Ok?
    ensures SendKey(c, ch, epoch).result.value.0 == NextIndex(CountOf(sent, epoch))
  {
    hide Shaped, CountOf, SendKey, LinkOf, DirNext, DirKey;
    SendShaped(c, ch, epoch);
    NextCount(c, LinkOf(ch, epoch).send, CountOf(sent, epoch));
  }

  lemma RecvCounts(c: Crypto, ch: Chain, sent: seq<nat>, epoch: nat, index: nat)
    requires c.Sizes() && ChainCounts(ch, sent) && index < WORD
    ensures ChainCounts(RecvKey(c, ch, epoch, index).chain, sent)
  {
    hide Shaped, CountOf, RecvKey;
    RecvShaped(c, ch, epoch, index);
  }

  lemma FirstCounts(c: Crypto, vn: Negotiation)
    requires c.Sizes()
    ensures ChainCounts(FromNegotiation(c, vn), [])
  {
    assert |c.hkdf(vn.authKey, ZeroBytes(32), ChainStart, SeedBlock(vn.dir))| == 32;
  }

  /** What a send does with its counter, and when it has a salt at all. */
  lemma SendStateCounts(c: Crypto, vn: Negotiation, s: State, sent: seq<nat>, coin: nat)
    requires c.Sizes() && Counts(vn, s, sent) && SendState(c, s, coin).Ok?
    ensures var r := SendState(c, s, coin).value;
      && Counts(vn, r.state, Posted(c, s, sent, CallSend(coin)))
      && r.wire.msg.epoch >= 1
      && r.wire.index == (if r.wire.salt.Some? then NextIndex(CountOf(sent, r.wire.msg.epoch - 1)) else 0)
      && (r.wire.salt.None? <==> s.chain.None? && vn.mayDisable)
      && (r.state.chain.None? <==> s.chain.None? && vn.mayDisable)
  {
    hide Send, SendKey, WithSecret, ChainCounts, FromNegotiation, InStep, CountOf, NextIndex;
    SendStaysRegular(c, s, coin);
    SendKeyFollows(c, s.v1, coin);
    FirstCounts(c, vn);
    var chain := ChainForSend(c, s).value;
    if chain.Some? {
      var m := Send(c, s.v1, coin).value;
      SecretCounts(c, chain.value, sent, m.key);
      SendCounts(c, WithSecret(c, chain.value, m.key).value, sent, m.msg.epoch - 1);
      SendIndex(c, WithSecret(c, chain.value, m.key).value, sent, m.msg.epoch - 1);
    }
  }

  lemma ReceiveStateCounts(c: Crypto, vn: Negotiation, s: State, sent: seq<nat>, msg: V1Message, index: nat)
    requires c.Sizes() && Counts(vn, s, sent) && msg.Typed() && index < WORD && ReceiveState(c, s, msg, index).Ok?
    ensures Counts(vn, ReceiveState(c, s, msg, index).value.state, sent) && ReceiveState(c, s, msg, index).value.state.chain.Some?
  {
    hide Recv, RecvKey, WithSecret, ChainCounts, FromNegotiation, InStep;
    ReceiveStaysRegular(c, s, msg, index);
    FirstCounts(c, vn);
    var before := ChainForRecv(c, s).value;
    SecretCounts(c, before, sent, Recv(c, s.v1, msg).value.key);
    RecvCounts(c, WithSecret(c, before, Recv(c, s.v1, msg).value.key).value, sent, msg.epoch - 1, index);
  }

  /** How many messages of the peer were accepted. */
  function Heard(c: Crypto, s: State, heard: nat, calls: seq<Call>): nat
    requires c.Sizes() && Regular(s) && forall k | 0 <= k < |calls| :: Sane(calls[k])
    decreases |calls|
  {
    if calls == [] then heard
    else
      ApplyRegular(c, s, calls[0]);
      Heard(c, Apply(c, s, calls[0]), heard + Accepts(c, s, calls[0]), calls[1..])
  }

  function Accepts(c: Crypto, s: State, call: Call): nat
    requires s.v1.Valid() && Sane(call)
  {
    if call.CallReceive? && ReceiveState(c, s, call.msg, call.index).Ok? then 1 else 0
  }

  /** With a version that may be given up there is no chain until the peer is heard. */
  ghost predicate CountInv(vn: Negotiation, s: State, sent: seq<nat>, heard: nat) {
    Counts(vn, s, sent) && (vn.mayDisable ==> (s.chain.Some? <==> heard > 0))
  }

  lemma CountStep(c: Crypto, vn: Negotiation, s: State, sent: seq<nat>, heard: nat, call: Call)
    requires c.Sizes() && CountInv(vn, s, sent, heard) && Sane(call)
    ensures s.v1.Valid() && CountInv(vn, Apply(c, s, call), Posted(c, s, sent, call), heard + Accepts(c, s, call))
  {
    hide ChainCounts, InStep, SendState, ReceiveState;
    match call
    case CallSend(coin) => if SendState(c, s, coin).Ok? { SendStateCounts(c, vn, s, sent, coin); }
    case CallReceive(msg, index) => if ReceiveState(c, s, msg, index).Ok? { ReceiveStateCounts(c, vn, s, sent, msg, index); }
  }

  lemma {:induction false} CountRun(c: Crypto, vn: Negotiation, s: State, sent: seq<nat>, heard: nat, calls: seq<Call>)
    requires c.Sizes() && Regular(s) && CountInv(vn, s, sent, heard) && forall k | 0 <= k < |calls| :: Sane(calls[k])
    ensures CountInv(vn, ApplyAll(c, s, calls), Outbox(c, s, sent, calls), Heard(c, s, heard, calls))
    decreases |calls|
  {
    hide CountInv, Regular, Apply, Posted, Accepts;
    if calls != [] {
      assert s.v1.Valid() by { RegularValid(s); }
      ApplyRegular(c, s, calls[0]);
      CountStep(c, vn, s, sent, heard, calls[0]);
      CountRun(c, vn, Apply(c, s, calls[0]), Posted(c, s, sent, calls[0]), heard + Accepts(c, s, calls[0]), calls[1..]);
    }
  }

  /** Over any calls with any messages from a new state: a message goes out without a salt, and with index 0,
      exactly while the version may be given up and the peer was not heard; otherwise its index is one
      more than the number of salts sent in its epoch before, in 32 bits. */
  lemma SendsCountUp(c: Crypto, vn: Negotiation, calls: seq<Call>, coin: nat)
    requires c.Sizes() && (forall k | 0 <= k < |calls| :: Sane(calls[k])) && Regular(NewState(c, vn))
    requires SendState(c, ApplyAll(c, NewState(c, vn), calls), coin).Ok?
    ensures var w := SendState(c, ApplyAll(c, NewState(c, vn), calls), coin).value.wire;
      && w.msg.epoch >= 1
      && (w.salt.None? <==> vn.mayDisable && Heard(c, NewState(c, vn), 0, calls) == 0)
      && w.index == (if w.salt.None? then 0 else NextIndex(CountOf(Outbox(c, NewState(c, vn), [], calls), w.msg.epoch - 1)))
  {
    hide Outbox, Heard, ApplyAll, NewState, CountInv, SendState, CountOf, Regular, NextIndex;
    CountNew(c, vn);
    CountRun(c, vn, NewState(c, vn), [], 0, calls);
    var s := ApplyAll(c, NewState(c, vn), calls);
    RegularValid(s);
    CountedSend(c, vn, s, Outbox(c, NewState(c, vn), [], calls), Heard(c, NewState(c, vn), 0, calls), coin);
  }

  lemma CountedSend(c: Crypto, vn: Negotiation, s: State, sent: seq<nat>, heard: nat, coin: nat)
    requires c.Sizes() && s.v1.Valid() && CountInv(vn, s, sent, heard) && SendState(c, s, coin).Ok?
    ensures var w := SendState(c, s, coin).value.wire;
      && w.msg.epoch >= 1
      && (w.salt.None? <==> vn.mayDisable && heard == 0)
      && w.index == (if w.salt.None? then 0 else NextIndex(CountOf(sent, w.msg.epoch - 1)))
  {
    hide SendState, CountOf, Regular, ChainCounts, NextIndex;
    SendStateCounts(c, vn, s, sent, coin);
  }

  lemma CountNew(c: Crypto, vn: Negotiation)
    ensures CountInv(vn, NewState(c, vn), [], 0)
  {
  }

  /** Over any calls with any messages from a new state: no key can be drawn any more for sending in an epoch
      before the one being sent in. */
  lemma SendingIsClosed(c: Crypto, vn: Negotiation, calls: seq<Call>)
    requires c.Sizes() && (forall k | 0 <= k < |calls| :: Sane(calls[k])) && Regular(NewState(c, vn))
    ensures var s := ApplyAll(c, NewState(c, vn), calls);
      s.chain.Some? ==>
        var ch := s.chain.value;
        Shaped(ch) && forall e | Oldest(ch) <= e < ch.sendEpoch :: LinkOf(ch, e).send.next == []
  {
    hide ApplyAll, Outbox, Heard, CountOf, Regular;
    CountNew(c, vn);
    CountRun(c, vn, NewState(c, vn), [], 0, calls);
  }
}
