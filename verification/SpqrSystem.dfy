/** Two honest parties with their chains, over a network that may lose, reorder and duplicate. Every
    message that is accepted gets the salt it was sent with. */
module SpqrSystem {
  import opened Words
  import opened Results
  import opened Erasure
  import opened SpqrCrypto
  import opened SpqrStates
  import opened SpqrHistory
  import opened SpqrChain
  import opened SpqrState
  import P = SpqrProtocol

  // ---------------------------------------------------------------- runs

  datatype Full = Full(
    a: State, b: State, fromA: set<Wire>, fromB: set<Wire>, keysA: map<nat, Bytes>, keysB: map<nat, Bytes>)

  datatype Step = StepSendA(coin: nat) | StepSendB(coin: nat) | StepToA(wire: Wire) | StepToB(wire: Wire)

  function Mirror(f: Full): Full {
    Full(f.b, f.a, f.fromB, f.fromA, f.keysB, f.keysA)
  }

  predicate Deliverable(w: Wire) {
    w.msg.Typed() && w.index < WORD
  }

  ghost predicate FullTyped(f: Full) {
    && f.a.v1.Valid() && f.b.v1.Valid()
    && (forall w | w in f.fromA :: Deliverable(w))
    && (forall w | w in f.fromB :: Deliverable(w))
  }

  function FullSendA(c: Crypto, f: Full, coin: nat): Full
    requires f.a.v1.Valid()
  {
    match SendState(c, f.a, coin)
    case Err(_) => f
    case Ok(s) => f.(a := s.state, fromA := f.fromA + {s.wire}, keysA := P.AddKey(f.keysA, s.key))
  }

  ghost function FullToA(c: Crypto, f: Full, w: Wire): Full
    requires f.a.v1.Valid() && (w in f.fromB ==> Deliverable(w))
  {
    if w !in f.fromB then f
    else
      match ReceiveState(c, f.a, w.msg, w.index)
      case Err(_) => f
      case Ok(r) => f.(a := r.state, keysA := P.AddKey(f.keysA, r.key))
  }

  ghost function FullDo(c: Crypto, f: Full, step: Step): (r: Full)
    requires FullTyped(f)
    ensures FullTyped(r)
  {
    FullDoTyped(c, f, step);
    match step
    case StepSendA(coin) => FullSendA(c, f, coin)
    case StepSendB(coin) => Mirror(FullSendA(c, Mirror(f), coin))
    case StepToA(w) => FullToA(c, f, w)
    case StepToB(w) => Mirror(FullToA(c, Mirror(f), w))
  }

  lemma SendsDeliverable(c: Crypto, f: Full, coin: nat)
    requires FullTyped(f)
    ensures FullTyped(FullSendA(c, f, coin))
  {
    hide Send, AddEpoch, EpochIndex, Retire;
    if SendState(c, f.a, coin).Ok? {
      assert Deliverable(SendState(c, f.a, coin).value.wire);
    }
  }

  lemma ReceivesTyped(c: Crypto, f: Full, w: Wire)
    requires FullTyped(f)
    ensures FullTyped(FullToA(c, f, w))
  {
    hide Recv, AddEpoch, RecvKey;
  }

  lemma FullDoTyped(c: Crypto, f: Full, step: Step)
    requires FullTyped(f)
    ensures match step
      case StepSendA(coin) => FullTyped(FullSendA(c, f, coin))
      case StepSendB(coin) => FullTyped(Mirror(FullSendA(c, Mirror(f), coin)))
      case StepToA(w) => FullTyped(FullToA(c, f, w))
      case StepToB(w) => FullTyped(Mirror(FullToA(c, Mirror(f), w)))
  {
    hide FullSendA, FullToA;
    match step
    case StepSendA(coin) => SendsDeliverable(c, f, coin);
    case StepSendB(coin) => SendsDeliverable(c, Mirror(f), coin);
    case StepToA(w) => ReceivesTyped(c, f, w);
    case StepToB(w) => ReceivesTyped(c, Mirror(f), w);
  }

  ghost function FullRun(c: Crypto, f: Full, steps: seq<Step>): (r: Full)
    requires FullTyped(f)
    ensures FullTyped(r)
    decreases |steps|
  {
    if steps == [] then f else FullRun(c, FullDo(c, f, steps[0]), steps[1..])
  }

  /** What both parties start from: the same authentication key, opposite directions. */
  ghost predicate Opposite(ka: Negotiation, kb: Negotiation) {
    ka.authKey == kb.authKey && ka.dir == A2B && kb.dir == B2A
  }

  function FullInit(c: Crypto, ka: Negotiation, kb: Negotiation): (f: Full)
    ensures FullTyped(f)
  {
    Full(NewState(c, ka), NewState(c, kb), {}, {}, map[], map[])
  }

  // ---------------------------------------------------------------- the handshake underneath

  function Messages(wires: set<Wire>): set<V1Message> {
    set w | w in wires :: w.msg
  }

  function Handshake(f: Full): P.System {
    P.System(f.a.v1, f.b.v1, Messages(f.fromA), Messages(f.fromB), f.keysA, f.keysB)
  }

  /** A step of the full system is a step of the handshake, or leaves it alone. */
  lemma SendProjects(c: Crypto, f: Full, coin: nat)
    requires FullTyped(f)
    ensures Handshake(FullSendA(c, f, coin)) == P.Do(c, Handshake(f), P.SendA(coin)) || FullSendA(c, f, coin) == f
  {
    hide Send, SendKey, AddEpoch;
    var r := SendState(c, f.a, coin);
    if r.Ok? {
      assert Messages(f.fromA + {r.value.wire}) == Messages(f.fromA) + {r.value.wire.msg};
    }
  }

  lemma ReceiveProjects(c: Crypto, f: Full, w: Wire)
    requires FullTyped(f)
    ensures Handshake(FullToA(c, f, w)) == P.Do(c, Handshake(f), P.DeliverToA(w.msg)) || FullToA(c, f, w) == f
  {
    hide Recv, RecvKey, AddEpoch;
    if w in f.fromB {
      assert w.msg in Messages(f.fromB);
    }
  }

  // ---------------------------------------------------------------- roots and seeds

  function SecretOf(keys: map<nat, Bytes>, e: nat): Bytes {
    if e in keys then keys[e] else []
  }

  function RootAt(c: Crypto, authKey: Bytes, keys: map<nat, Bytes>, e: nat): Bytes {
    if e == 0 then c.hkdf(authKey, ZeroBytes(32), ChainStart, 0)
    else c.hkdf(SecretOf(keys, e), RootAt(c, authKey, keys, e - 1), ChainAddEpoch, 0)
  }

  function SeedAt(c: Crypto, authKey: Bytes, keys: map<nat, Bytes>, e: nat, dir: Direction): Bytes {
    if e == 0 then c.hkdf(authKey, ZeroBytes(32), ChainStart, SeedBlock(dir))
    else c.hkdf(SecretOf(keys, e), RootAt(c, authKey, keys, e - 1), ChainAddEpoch, SeedBlock(dir))
  }

  ghost predicate SameUpTo(keys: map<nat, Bytes>, other: map<nat, Bytes>, e: nat) {
    forall i | 1 <= i <= e :: i in keys && i in other && keys[i] == other[i]
  }

  lemma {:induction false} SameRoot(c: Crypto, authKey: Bytes, keys: map<nat, Bytes>, other: map<nat, Bytes>, e: nat)
    requires SameUpTo(keys, other, e)
    ensures RootAt(c, authKey, keys, e) == RootAt(c, authKey, other, e)
  {
    if e > 0 {
      SameRoot(c, authKey, keys, other, e - 1);
      assert SecretOf(keys, e) == SecretOf(other, e);
    }
  }

  lemma SameSeed(c: Crypto, authKey: Bytes, keys: map<nat, Bytes>, other: map<nat, Bytes>, e: nat, dir: Direction)
    requires SameUpTo(keys, other, e)
    ensures SeedAt(c, authKey, keys, e, dir) == SeedAt(c, authKey, other, e, dir)
  {
    if e > 0 {
      SameRoot(c, authKey, keys, other, e - 1);
      assert SecretOf(keys, e) == SecretOf(other, e);
    }
  }

  // ---------------------------------------------------------------- the roots

  ghost predicate RootRight(c: Crypto, k: Negotiation, keys: map<nat, Bytes>, ch: Chain) {
    && Shaped(ch) && ch.dir == k.dir && ch.params == k.params
    && ch.nextRoot == RootAt(c, k.authKey, keys, ch.currentEpoch)
  }

  /** The party has had the secrets up to the epoch its handshake state fixes, and its chain's root
      is the one they make. */
  ghost predicate Rooted(c: Crypto, k: Negotiation, s: State, keys: map<nat, Bytes>) {
    && Regular(s)
    && (forall e :: e in keys <==> 1 <= e <= KeyEpoch(s.v1))
    && (s.negotiation.Some? ==> s.negotiation.value == k)
    && (s.chain.Some? ==> RootRight(c, k, keys, s.chain.value))
  }

  lemma RootNew(c: Crypto, k: Negotiation, keys: map<nat, Bytes>)
    requires c.Sizes()
    ensures RootRight(c, k, keys, FromNegotiation(c, k))
  {
  }

  lemma RootAdd(c: Crypto, k: Negotiation, keys: map<nat, Bytes>, ch: Chain, secret: Bytes)
    requires c.Sizes() && RootRight(c, k, keys, ch)
    requires forall e | 1 <= e <= ch.currentEpoch :: e in keys
    ensures var more := keys[ch.currentEpoch + 1 := secret];
      var r := AddEpoch(c, ch, ch.currentEpoch + 1, secret);
      r.Ok? && RootRight(c, k, more, r.value) && RootRight(c, k, more, ch)
  {
    var more := keys[ch.currentEpoch + 1 := secret];
    AddShaped(c, ch, secret);
    SameRoot(c, k.authKey, keys, more, ch.currentEpoch);
  }

  lemma RootSecret(c: Crypto, k: Negotiation, keys: map<nat, Bytes>, ch: Chain, key: Option<EpochSecret>)
    requires c.Sizes() && RootRight(c, k, keys, ch) && forall e | 1 <= e <= ch.currentEpoch :: e in keys
    requires key.Some? ==> key.value.epoch == ch.currentEpoch + 1
    ensures var r := WithSecret(c, ch, key);
      && r.Ok? && RootRight(c, k, P.AddKey(keys, key), r.value) && r.value.sendEpoch == ch.sendEpoch
      && r.value.currentEpoch == if key.Some? then key.value.epoch else ch.currentEpoch
  {
    hide RootRight;
    if key.Some? {
      assert ch.currentEpoch + 1 == key.value.epoch;
      RootAdd(c, k, keys, ch, key.value.secret);
    }
  }

  /** Taking keys from a chain leaves its root alone. */
  lemma RootSend(c: Crypto, k: Negotiation, keys: map<nat, Bytes>, ch: Chain, epoch: nat)
    requires c.Sizes() && RootRight(c, k, keys, ch) && SendKey(c, ch, epoch).result.Ok?
    ensures RootRight(c, k, keys, SendKey(c, ch, epoch).chain)
  {
    hide Shaped, SendKey, RootAt;
    SendShaped(c, ch, epoch);
  }

  lemma RootRecv(c: Crypto, k: Negotiation, keys: map<nat, Bytes>, ch: Chain, epoch: nat, index: nat)
    requires c.Sizes() && RootRight(c, k, keys, ch) && index < WORD
    ensures RootRight(c, k, keys, RecvKey(c, ch, epoch, index).chain)
  {
    hide Shaped, RecvKey, RootAt;
    RecvShaped(c, ch, epoch, index);
  }

  lemma ChainEpochs(c: Crypto, s: State)
    requires Regular(s)
    ensures s.chain.Some? ==> s.chain.value.currentEpoch == KeyEpoch(s.v1) && s.chain.value.sendEpoch < s.v1.epoch
    ensures s.chain.None? ==> KeyEpoch(s.v1) == 0 && FromNegotiation(c, s.negotiation.value).currentEpoch == 0
    ensures s.chain.None? ==> FromNegotiation(c, s.negotiation.value).sendEpoch == 0
  {
  }

  lemma RootedSends(c: Crypto, k: Negotiation, s: State, keys: map<nat, Bytes>, coin: nat)
    requires c.Sizes() && Rooted(c, k, s, keys) && Send(c, s.v1, coin).Ok?
    ensures SendState(c, s, coin).Ok?
    ensures var r := SendState(c, s, coin).value;
      Rooted(c, k, r.state, P.AddKey(keys, r.key))
  {
    hide Send, SendKey, AddEpoch, RootRight, InStep;
    var m := Send(c, s.v1, coin).value;
    SendStaysRegular(c, s, coin);
    SendKeyFollows(c, s.v1, coin);
    var chain := ChainForSend(c, s).value;
    if chain.Some? {
      if s.chain.None? {
        RootNew(c, k, keys);
      }
      ChainEpochs(c, s);
      RootSecret(c, k, keys, chain.value, m.key);
      RootSend(c, k, P.AddKey(keys, m.key), WithSecret(c, chain.value, m.key).value, m.msg.epoch - 1);
    }
  }

  lemma RootedReceives(c: Crypto, k: Negotiation, s: State, keys: map<nat, Bytes>, msg: V1Message, index: nat)
    requires c.Sizes() && Rooted(c, k, s, keys) && msg.Typed() && index < WORD && ReceiveState(c, s, msg, index).Ok?
    ensures var r := ReceiveState(c, s, msg, index).value;
      Rooted(c, k, r.state, P.AddKey(keys, r.key))
  {
    hide Recv, RecvKey, AddEpoch, RootRight, InStep;
    var m := Recv(c, s.v1, msg).value;
    ReceiveStaysRegular(c, s, msg, index);
    RecvKeyFollows(c, s.v1, msg);
    if s.chain.None? {
      RootNew(c, k, keys);
    }
    ChainEpochs(c, s);
    RootSecret(c, k, keys, ChainForRecv(c, s).value, m.key);
    RootRecv(c, k, P.AddKey(keys, m.key), WithSecret(c, ChainForRecv(c, s).value, m.key).value, msg.epoch - 1, index);
  }

  ghost predicate RootInv(c: Crypto, ka: Negotiation, kb: Negotiation, f: Full) {
    && P.Inv(c, Handshake(f))
    && Rooted(c, ka, f.a, f.keysA)
    && Rooted(c, kb, f.b, f.keysB)
  }

  lemma RootInvInit(c: Crypto, ka: Negotiation, kb: Negotiation)
    requires c.Lawful() && Opposite(ka, kb)
    ensures RootInv(c, ka, kb, FullInit(c, ka, kb))
  {
    hide P.Inv;
    P.InvInit(c, ka.authKey);
    assert Handshake(FullInit(c, ka, kb)) == P.Init(c, ka.authKey);
  }

  /** The invariant is the same from either side. */
  lemma RootInvMirror(c: Crypto, ka: Negotiation, kb: Negotiation, f: Full)
    requires RootInv(c, ka, kb, f)
    ensures RootInv(c, kb, ka, Mirror(f))
  {
    hide Rooted;
    assert Handshake(Mirror(f)) == P.Swap(Handshake(f));
    InvSwap(c, Handshake(f));
  }

  lemma InvSwap(c: Crypto, sys: P.System)
    requires P.Inv(c, sys)
    ensures P.Inv(c, P.Swap(sys))
  {
    hide P.Paired;
    assert P.Swap(P.Swap(sys)) == sys;
  }

  lemma RootSendStep(c: Crypto, ka: Negotiation, kb: Negotiation, f: Full, coin: nat)
    requires c.Lawful() && RootInv(c, ka, kb, f) && FullTyped(f)
    ensures RootInv(c, ka, kb, FullSendA(c, f, coin))
  {
    hide P.Inv, Rooted, P.Do, Send;
    SendProjects(c, f, coin);
    P.InvStep(c, Handshake(f), P.SendA(coin));
    if Send(c, f.a.v1, coin).Ok? {
      RootedSends(c, ka, f.a, f.keysA, coin);
    }
  }

  lemma RootReceiveStep(c: Crypto, ka: Negotiation, kb: Negotiation, f: Full, w: Wire)
    requires c.Lawful() && RootInv(c, ka, kb, f) && FullTyped(f)
    ensures RootInv(c, ka, kb, FullToA(c, f, w))
  {
    hide P.Inv, Rooted, P.Do, ReceiveState;
    ReceiveProjects(c, f, w);
    P.InvStep(c, Handshake(f), P.DeliverToA(w.msg));
    if w in f.fromB && ReceiveState(c, f.a, w.msg, w.index).Ok? {
      RootedReceives(c, ka, f.a, f.keysA, w.msg, w.index);
    }
  }

  lemma RootStep(c: Crypto, ka: Negotiation, kb: Negotiation, f: Full, step: Step)
    requires c.Lawful() && RootInv(c, ka, kb, f) && FullTyped(f)
    ensures RootInv(c, ka, kb, FullDo(c, f, step))
  {
    hide RootInv, FullSendA, FullToA;
    RootInvMirror(c, ka, kb, f);
    match step
    case StepSendA(coin) => RootSendStep(c, ka, kb, f, coin);
    case StepSendB(coin) =>
      RootSendStep(c, kb, ka, Mirror(f), coin);
      RootInvMirror(c, kb, ka, FullSendA(c, Mirror(f), coin));
    case StepToA(w) => RootReceiveStep(c, ka, kb, f, w);
    case StepToB(w) =>
      RootReceiveStep(c, kb, ka, Mirror(f), w);
      RootInvMirror(c, kb, ka, FullToA(c, Mirror(f), w));
  }

  lemma {:induction false} RootInvRun(c: Crypto, ka: Negotiation, kb: Negotiation, f: Full, steps: seq<Step>)
    requires c.Lawful() && FullTyped(f) && RootInv(c, ka, kb, f)
    ensures RootInv(c, ka, kb, FullRun(c, f, steps))
    decreases |steps|
  {
    hide RootInv, FullDo, FullTyped;
    if steps != [] {
      RootStep(c, ka, kb, f, steps[0]);
      RootInvRun(c, ka, kb, FullDo(c, f, steps[0]), steps[1..]);
    }
  }

  /** In every run, chains at the same epoch have the same root. */
  lemma RootsAgree(c: Crypto, ka: Negotiation, kb: Negotiation, steps: seq<Step>)
    requires c.Lawful() && Opposite(ka, kb)
    ensures var f := FullRun(c, FullInit(c, ka, kb), steps);
      (f.a.chain.Some? && f.b.chain.Some? && f.a.chain.value.currentEpoch == f.b.chain.value.currentEpoch) ==>
        f.a.chain.value.nextRoot == f.b.chain.value.nextRoot
  {
    hide P.Inv, FullRun, SeedAt, RootAt, FullInit;
    RootInvInit(c, ka, kb);
    RootInvRun(c, ka, kb, FullInit(c, ka, kb), steps);
    var f := FullRun(c, FullInit(c, ka, kb), steps);
    P.InvSecrets(c, Handshake(f));
    if f.a.chain.Some? && f.b.chain.Some? && f.a.chain.value.currentEpoch == f.b.chain.value.currentEpoch {
      var e := f.a.chain.value.currentEpoch;
      assert SameUpTo(f.keysA, f.keysB, e);
      SameRoot(c, ka.authKey, f.keysA, f.keysB, e);
    }
  }

  // ---------------------------------------------------------------- one party's links

  ghost predicate SendRight(c: Crypto, seed: Bytes, d: Dir) {
    d.ctr < WORD && d.next == NextAt(c, seed, d.ctr)
  }

  ghost predicate RecvRight(c: Crypto, seed: Bytes, p: Params, d: Dir) {
    exists s: Service :: Tracks(c, seed, p, d, s)
  }

  ghost predicate LinkRight(c: Crypto, k: Negotiation, keys: map<nat, Bytes>, sending: bool, e: nat, link: Link) {
    && (sending ==> SendRight(c, SeedAt(c, k.authKey, keys, e, k.dir), link.send))
    && RecvRight(c, SeedAt(c, k.authKey, keys, e, Other(k.dir)), k.params, link.recv)
  }

  ghost predicate ChainRight(c: Crypto, k: Negotiation, keys: map<nat, Bytes>, ch: Chain) {
    && RootRight(c, k, keys, ch)
    && (forall e | Oldest(ch) <= e <= ch.currentEpoch :: LinkRight(c, k, keys, e >= ch.sendEpoch, e, LinkOf(ch, e)))
  }

  /** The salt that went with a message is the key its epoch and index stand for; before there was
      a chain, none. */
  ghost predicate SaltRight(c: Crypto, k: Negotiation, keys: map<nat, Bytes>, current: nat, w: Wire) {
    && w.msg.Typed()
    && if w.index == 0 then w.salt == None && w.msg.epoch == 1
       else
         && w.index < WORD && 1 <= w.msg.epoch <= current + 1
         && w.salt == Some(KeyOf(c, SeedAt(c, k.authKey, keys, w.msg.epoch - 1, k.dir), w.index))
  }

  ghost predicate Party(c: Crypto, k: Negotiation, s: State, keys: map<nat, Bytes>, sent: set<Wire>) {
    && Rooted(c, k, s, keys)
    && (s.chain.Some? ==> ChainRight(c, k, keys, s.chain.value))
    && (forall w | w in sent :: SaltRight(c, k, keys, KeyEpoch(s.v1), w))
  }

  lemma ChainRightNew(c: Crypto, k: Negotiation, keys: map<nat, Bytes>)
    requires c.Sizes()
    ensures ChainRight(c, k, keys, FromNegotiation(c, k))
  {
    var ch := FromNegotiation(c, k);
    var seed := SeedAt(c, k.authKey, keys, 0, Other(k.dir));
    assert |seed| == 32;
    TracksNew(c, seed, k.params);
    assert RecvRight(c, seed, k.params, LinkOf(ch, 0).recv);
  }

  lemma SeedsNonempty(c: Crypto, authKey: Bytes, keys: map<nat, Bytes>, e: nat, dir: Direction)
    requires c.Sizes()
    ensures SeedAt(c, authKey, keys, e, dir) != []
  {
    var i := if e == 0 then authKey else SecretOf(keys, e);
    var s := if e == 0 then ZeroBytes(32) else RootAt(c, authKey, keys, e - 1);
    assert |c.hkdf(i, s, if e == 0 then ChainStart else ChainAddEpoch, SeedBlock(dir))| == 32;
  }

  /** A later secret does not touch the epochs that are there. */
  lemma LinksLater(c: Crypto, k: Negotiation, keys: map<nat, Bytes>, more: map<nat, Bytes>, ch: Chain)
    requires ChainRight(c, k, keys, ch) && SameUpTo(keys, more, ch.currentEpoch)
    ensures forall e | Oldest(ch) <= e <= ch.currentEpoch :: LinkRight(c, k, more, e >= ch.sendEpoch, e, LinkOf(ch, e))
  {
    hide SeedAt, RootAt, SendRight, RecvRight, Shaped;
    forall e | Oldest(ch) <= e <= ch.currentEpoch
      ensures LinkRight(c, k, more, e >= ch.sendEpoch, e, LinkOf(ch, e))
    {
      assert LinkRight(c, k, keys, e >= ch.sendEpoch, e, LinkOf(ch, e));
      SameSeed(c, k.authKey, keys, more, e, k.dir);
      SameSeed(c, k.authKey, keys, more, e, Other(k.dir));
    }
  }

  lemma AddRight(c: Crypto, k: Negotiation, keys: map<nat, Bytes>, ch: Chain, secret: Bytes)
    requires c.Sizes() && ChainRight(c, k, keys, ch)
    requires forall e | 1 <= e <= ch.currentEpoch :: e in keys
    ensures var more := keys[ch.currentEpoch + 1 := secret];
      var r := AddEpoch(c, ch, ch.currentEpoch + 1, secret);
      r.Ok? && ChainRight(c, k, more, r.value)
  {
    hide Shaped, AddEpoch;
    var e := ch.currentEpoch + 1;
    var more := keys[e := secret];
    LinksLater(c, k, keys, more, ch);
    RootAdd(c, k, keys, ch, secret);
    AddShaped(c, ch, secret);
    var r := AddEpoch(c, ch, e, secret).value;
    NewLinkRight(c, k, more, ch, secret);
    forall i | Oldest(r) <= i <= r.currentEpoch
      ensures LinkRight(c, k, more, i >= r.sendEpoch, i, LinkOf(r, i))
    {
      if i < e {
        assert LinkOf(r, i) == LinkOf(ch, i);
      }
    }
  }

  lemma NewLinkRight(c: Crypto, k: Negotiation, more: map<nat, Bytes>, ch: Chain, secret: Bytes)
    requires c.Sizes() && RootRight(c, k, more, ch)
    requires ch.currentEpoch + 1 in more && more[ch.currentEpoch + 1] == secret
    ensures LinkRight(c, k, more, true, ch.currentEpoch + 1, NewLink(c, secret, ch.nextRoot, ChainAddEpoch, ch.dir))
  {
    var seed := SeedAt(c, k.authKey, more, ch.currentEpoch + 1, Other(k.dir));
    SeedsNonempty(c, k.authKey, more, ch.currentEpoch + 1, Other(k.dir));
    TracksNew(c, seed, k.params);
  }

  /** A key for sending is the next of its epoch's chain, unless the 32-bit counter wrapped around. */
  lemma SendKeyRight(c: Crypto, k: Negotiation, keys: map<nat, Bytes>, ch: Chain, epoch: nat)
    requires c.Sizes() && ChainRight(c, k, keys, ch) && ch.sendEpoch <= epoch <= ch.currentEpoch
    ensures var r := SendKey(c, ch, epoch);
      && r.result.Ok? && r.chain.sendEpoch == epoch && r.chain.currentEpoch == ch.currentEpoch
      && (r.result.value.0 != 0 ==>
           && ChainRight(c, k, keys, r.chain)
           && r.result.value.0 < WORD
           && r.result.value.1 == KeyOf(c, SeedAt(c, k.authKey, keys, epoch, k.dir), r.result.value.0))
  {
    hide SeedAt, RootAt, Shaped, SendKey, RecvRight, NextAt, KeyOf;
    SendShaped(c, ch, epoch);
    var r := SendKey(c, ch, epoch);
    var link := LinkOf(ch, epoch);
    assert LinkRight(c, k, keys, true, epoch, link);
    if r.result.value.0 != 0 {
      KeyIsNext(c, SeedAt(c, k.authKey, keys, epoch, k.dir), link.send);
      forall e | Oldest(r.chain) <= e <= r.chain.currentEpoch
        ensures LinkRight(c, k, keys, e >= r.chain.sendEpoch, e, LinkOf(r.chain, e))
      {
        assert LinkRight(c, k, keys, e >= ch.sendEpoch, e, LinkOf(ch, e));
      }
    }
  }

  /** A key for receiving is the one its index stands for. */
  lemma RecvKeyRight(c: Crypto, k: Negotiation, keys: map<nat, Bytes>, ch: Chain, epoch: nat, index: nat)
    requires c.Sizes() && ChainRight(c, k, keys, ch) && index < WORD
    requires RecvKey(c, ch, epoch, index).result.Ok?
    ensures var r := RecvKey(c, ch, epoch, index);
      && ChainRight(c, k, keys, r.chain) && r.chain.sendEpoch == ch.sendEpoch && r.chain.currentEpoch == ch.currentEpoch
      && 1 <= index && epoch <= ch.currentEpoch
      && r.result.value == KeyOf(c, SeedAt(c, k.authKey, keys, epoch, Other(k.dir)), index)
  {
    hide SeedAt, RootAt, Shaped, RecvKey, KeyAt, KeyOf, Tracks, SendRight;
    RecvShaped(c, ch, epoch, index);
    var r := RecvKey(c, ch, epoch, index).chain;
    var link := LinkOf(ch, epoch);
    var seed := SeedAt(c, k.authKey, keys, epoch, Other(k.dir));
    assert LinkRight(c, k, keys, epoch >= ch.sendEpoch, epoch, link);
    var service: Service :| Tracks(c, seed, k.params, link.recv, service);
    SeedsNonempty(c, k.authKey, keys, epoch, Other(k.dir));
    KeyAtRefines(c, seed, k.params, link.recv, service, index);
    forall e | Oldest(r) <= e <= r.currentEpoch
      ensures LinkRight(c, k, keys, e >= r.sendEpoch, e, LinkOf(r, e))
    {
      assert LinkRight(c, k, keys, e >= ch.sendEpoch, e, LinkOf(ch, e));
    }
  }

  // ---------------------------------------------------------------- one party's steps

  lemma SecretRight(c: Crypto, k: Negotiation, keys: map<nat, Bytes>, ch: Chain, key: Option<EpochSecret>)
    requires c.Sizes() && ChainRight(c, k, keys, ch) && forall e | 1 <= e <= ch.currentEpoch :: e in keys
    requires key.Some? ==> key.value.epoch == ch.currentEpoch + 1
    ensures var r := WithSecret(c, ch, key);
      && r.Ok? && ChainRight(c, k, P.AddKey(keys, key), r.value) && r.value.sendEpoch == ch.sendEpoch
      && r.value.currentEpoch == if key.Some? then key.value.epoch else ch.currentEpoch
  {
    hide ChainRight;
    if key.Some? {
      AddRight(c, k, keys, ch, key.value.secret);
    }
  }

  lemma SaltsStayRight(c: Crypto, k: Negotiation, s: V1, t: V1, keys: map<nat, Bytes>, key: Option<EpochSecret>, sent: set<Wire>)
    requires KeyFollows(s, key, t) && forall e :: e in keys <==> 1 <= e <= KeyEpoch(s)
    requires forall w | w in sent :: SaltRight(c, k, keys, KeyEpoch(s), w)
    ensures forall w | w in sent :: SaltRight(c, k, P.AddKey(keys, key), KeyEpoch(t), w)
  {
    hide SeedAt, KeyOf;
    forall w | w in sent && w.index != 0
      ensures SeedAt(c, k.authKey, keys, w.msg.epoch - 1, k.dir) == SeedAt(c, k.authKey, P.AddKey(keys, key), w.msg.epoch - 1, k.dir)
    {
      assert SaltRight(c, k, keys, KeyEpoch(s), w);
      SameSeed(c, k.authKey, keys, P.AddKey(keys, key), w.msg.epoch - 1, k.dir);
    }
  }

  /** The counter of the message's epoch did not wrap around: a message with a salt has an index
      from one up. */
  predicate Unwrapped(w: Wire) {
    w.salt.Some? ==> w.index != 0
  }

  lemma PartySends(c: Crypto, k: Negotiation, s: State, keys: map<nat, Bytes>, sent: set<Wire>, coin: nat)
    requires c.Sizes() && Party(c, k, s, keys, sent) && Send(c, s.v1, coin).Ok?
    ensures SendState(c, s, coin).Ok?
    ensures var r := SendState(c, s, coin).value;
      Unwrapped(r.wire) ==> Party(c, k, r.state, P.AddKey(keys, r.key), sent + {r.wire})
  {
    hide Send, SendKey, AddEpoch, ChainRight, KeyOf, SeedAt, InStep, RootRight;
    var m := Send(c, s.v1, coin).value;
    RootedSends(c, k, s, keys, coin);
    SendKeyFollows(c, s.v1, coin);
    SaltsStayRight(c, k, s.v1, m.state, keys, m.key, sent);
    var chain := ChainForSend(c, s).value;
    if chain.Some? {
      if s.chain.None? {
        ChainRightNew(c, k, keys);
      }
      assert chain.value.currentEpoch == KeyEpoch(s.v1) && chain.value.sendEpoch < s.v1.epoch by { ChainEpochs(c, s); }
      SecretRight(c, k, keys, chain.value, m.key);
      var ch := WithSecret(c, chain.value, m.key).value;
      SendKeyRight(c, k, P.AddKey(keys, m.key), ch, m.msg.epoch - 1);
    }
  }

  lemma PartyReceives(c: Crypto, k: Negotiation, s: State, keys: map<nat, Bytes>, sent: set<Wire>, msg: V1Message, index: nat)
    requires c.Sizes() && Party(c, k, s, keys, sent)
    requires msg.Typed() && index < WORD && ReceiveState(c, s, msg, index).Ok?
    ensures var r := ReceiveState(c, s, msg, index).value;
      var more := P.AddKey(keys, r.key);
      && Party(c, k, r.state, more, sent)
      && 1 <= msg.epoch <= KeyEpoch(r.state.v1) + 1
      && (if index == 0 then msg.epoch == 1 && r.salt == None
          else r.salt == Some(KeyOf(c, SeedAt(c, k.authKey, more, msg.epoch - 1, Other(k.dir)), index)))
  {
    hide Recv, RecvKey, AddEpoch, ChainRight, KeyOf, SeedAt, InStep, RootRight;
    var m := Recv(c, s.v1, msg).value;
    RootedReceives(c, k, s, keys, msg, index);
    RecvKeyFollows(c, s.v1, msg);
    SaltsStayRight(c, k, s.v1, m.state, keys, m.key, sent);
    if s.chain.None? {
      ChainRightNew(c, k, keys);
    }
    ChainEpochs(c, s);
    SecretRight(c, k, keys, ChainForRecv(c, s).value, m.key);
    var ch := WithSecret(c, ChainForRecv(c, s).value, m.key).value;
    if index != 0 || msg.epoch != 1 {
      RecvKeyRight(c, k, P.AddKey(keys, m.key), ch, msg.epoch - 1, index);
    }
  }

  /** A message whose counter wrapped around never gets its salt, wherever it arrives. */
  lemma WrappedIsLost(c: Crypto, k: Negotiation, s: State, keys: map<nat, Bytes>, sent: set<Wire>, w: Wire)
    requires c.Sizes() && Party(c, k, s, keys, sent) && w.msg.Typed() && w.index < WORD && !Unwrapped(w)
    ensures ReceiveState(c, s, w.msg, w.index).Ok? ==> ReceiveState(c, s, w.msg, w.index).value.salt != w.salt
  {
    hide ChainRight, SaltRight, RootRight, InStep, ReceiveState;
    if ReceiveState(c, s, w.msg, w.index).Ok? {
      PartyReceives(c, k, s, keys, sent, w.msg, w.index);
    }
  }

  // ---------------------------------------------------------------- the whole system

  ghost predicate FullInv(c: Crypto, ka: Negotiation, kb: Negotiation, f: Full) {
    && P.Inv(c, Handshake(f))
    && Party(c, ka, f.a, f.keysA, f.fromA)
    && Party(c, kb, f.b, f.keysB, f.fromB)
  }

  /** No counter of either party has wrapped around: fewer than 2^32 messages went out in any one
      epoch and direction. */
  ghost predicate NoneWrapped(f: Full) {
    (forall w | w in f.fromA :: Unwrapped(w)) && (forall w | w in f.fromB :: Unwrapped(w))
  }

  lemma FullInvInit(c: Crypto, ka: Negotiation, kb: Negotiation)
    requires c.Lawful() && Opposite(ka, kb)
    ensures FullInv(c, ka, kb, FullInit(c, ka, kb))
  {
    hide P.Inv;
    RootInvInit(c, ka, kb);
  }

  lemma FullInvMirror(c: Crypto, ka: Negotiation, kb: Negotiation, f: Full)
    requires FullInv(c, ka, kb, f)
    ensures FullInv(c, kb, ka, Mirror(f))
  {
    hide Party;
    assert Handshake(Mirror(f)) == P.Swap(Handshake(f));
    InvSwap(c, Handshake(f));
  }

  lemma FullSendStep(c: Crypto, ka: Negotiation, kb: Negotiation, f: Full, coin: nat)
    requires c.Lawful() && FullInv(c, ka, kb, f) && FullTyped(f) && NoneWrapped(FullSendA(c, f, coin))
    ensures FullInv(c, ka, kb, FullSendA(c, f, coin))
  {
    hide P.Inv, Party, P.Do, Send, SendState;
    SendProjects(c, f, coin);
    P.InvStep(c, Handshake(f), P.SendA(coin));
    if SendState(c, f.a, coin).Ok? {
      assert Send(c, f.a.v1, coin).Ok? by { SendsByHandshake(c, f.a, coin); }
      PartySends(c, ka, f.a, f.keysA, f.fromA, coin);
      assert SendState(c, f.a, coin).value.wire in FullSendA(c, f, coin).fromA;
    }
  }

  lemma SendsByHandshake(c: Crypto, s: State, coin: nat)
    requires s.v1.Valid() && SendState(c, s, coin).Ok?
    ensures Send(c, s.v1, coin).Ok?
  {
    hide Send, SendKey, AddEpoch;
  }

  lemma FullReceiveStep(c: Crypto, ka: Negotiation, kb: Negotiation, f: Full, w: Wire)
    requires c.Lawful() && FullInv(c, ka, kb, f) && FullTyped(f)
    ensures FullInv(c, ka, kb, FullToA(c, f, w))
  {
    hide P.Inv, Party, P.Do, ReceiveState;
    ReceiveProjects(c, f, w);
    P.InvStep(c, Handshake(f), P.DeliverToA(w.msg));
    if w in f.fromB && ReceiveState(c, f.a, w.msg, w.index).Ok? {
      PartyReceives(c, ka, f.a, f.keysA, f.fromA, w.msg, w.index);
    }
  }

  lemma FullStep(c: Crypto, ka: Negotiation, kb: Negotiation, f: Full, step: Step)
    requires c.Lawful() && FullInv(c, ka, kb, f) && FullTyped(f) && NoneWrapped(FullDo(c, f, step))
    ensures FullInv(c, ka, kb, FullDo(c, f, step))
  {
    hide FullInv, FullSendA, FullToA;
    FullInvMirror(c, ka, kb, f);
    match step
    case StepSendA(coin) => FullSendStep(c, ka, kb, f, coin);
    case StepSendB(coin) =>
      FullSendStep(c, kb, ka, Mirror(f), coin);
      FullInvMirror(c, kb, ka, FullSendA(c, Mirror(f), coin));
    case StepToA(w) => FullReceiveStep(c, ka, kb, f, w);
    case StepToB(w) =>
      FullReceiveStep(c, kb, ka, Mirror(f), w);
      FullInvMirror(c, kb, ka, FullToA(c, Mirror(f), w));
  }

  lemma {:induction false} LogsGrow(c: Crypto, f: Full, steps: seq<Step>)
    requires FullTyped(f)
    ensures var r := FullRun(c, f, steps); f.fromA <= r.fromA && f.fromB <= r.fromB
    decreases |steps|
  {
    hide SendState, ReceiveState, FullTyped;
    if steps != [] {
      LogsGrow(c, FullDo(c, f, steps[0]), steps[1..]);
    }
  }

  lemma {:induction false} FullInvRun(c: Crypto, ka: Negotiation, kb: Negotiation, f: Full, steps: seq<Step>)
    requires c.Lawful() && FullTyped(f) && FullInv(c, ka, kb, f) && NoneWrapped(FullRun(c, f, steps))
    ensures FullInv(c, ka, kb, FullRun(c, f, steps))
    decreases |steps|
  {
    hide FullInv, FullDo, FullTyped, Unwrapped;
    if steps != [] {
      LogsGrow(c, FullDo(c, f, steps[0]), steps[1..]);
      FullStep(c, ka, kb, f, steps[0]);
      FullInvRun(c, ka, kb, FullDo(c, f, steps[0]), steps[1..]);
    }
  }

  /** Any message B ever sent, if A accepts it, gets the salt B had for it. */
  lemma SaltAgrees(c: Crypto, ka: Negotiation, kb: Negotiation, f: Full, w: Wire)
    requires c.Lawful() && FullInv(c, ka, kb, f) && FullTyped(f)
    requires ka.authKey == kb.authKey && ka.dir == Other(kb.dir)
    requires w in f.fromB && ReceiveState(c, f.a, w.msg, w.index).Ok?
    ensures ReceiveState(c, f.a, w.msg, w.index).value.salt == w.salt
  {
    hide P.Inv, Rooted, ChainRight, P.Do, ReceiveState, KeyOf, SeedAt;
    var r := ReceiveState(c, f.a, w.msg, w.index).value;
    assert SaltRight(c, kb, f.keysB, KeyEpoch(f.b.v1), w);
    PartyReceives(c, ka, f.a, f.keysA, f.fromA, w.msg, w.index);
    FullReceiveStep(c, ka, kb, f, w);
    var g := FullToA(c, f, w);
    P.InvSecrets(c, Handshake(g));
    if w.index != 0 {
      assert SameUpTo(g.keysA, g.keysB, w.msg.epoch - 1) by { HasSecrets(c, ka, kb, g); }
      SameSeed(c, ka.authKey, g.keysA, g.keysB, w.msg.epoch - 1, kb.dir);
    }
  }

  lemma HasSecrets(c: Crypto, ka: Negotiation, kb: Negotiation, f: Full)
    requires FullInv(c, ka, kb, f)
    ensures forall e :: e in f.keysA <==> 1 <= e <= KeyEpoch(f.a.v1)
    ensures forall e :: e in f.keysB <==> 1 <= e <= KeyEpoch(f.b.v1)
  {
    hide P.Inv, ChainRight, Regular, SaltRight, RootRight;
  }

  /** In every run, every message that is accepted gets the salt it was sent with, whichever of the
      two received it and in whatever order, and however often they arrive. */
  lemma SaltsAgree(c: Crypto, ka: Negotiation, kb: Negotiation, steps: seq<Step>)
    requires c.Lawful() && Opposite(ka, kb) && NoneWrapped(FullRun(c, FullInit(c, ka, kb), steps))
    ensures var f := FullRun(c, FullInit(c, ka, kb), steps);
      && (forall w | w in f.fromB && ReceiveState(c, f.a, w.msg, w.index).Ok? :: ReceiveState(c, f.a, w.msg, w.index).value.salt == w.salt)
      && (forall w | w in f.fromA && ReceiveState(c, f.b, w.msg, w.index).Ok? :: ReceiveState(c, f.b, w.msg, w.index).value.salt == w.salt)
  {
    hide FullInv, ReceiveState, FullRun, FullInit, NoneWrapped;
    FullInvInit(c, ka, kb);
    FullInvRun(c, ka, kb, FullInit(c, ka, kb), steps);
    var f := FullRun(c, FullInit(c, ka, kb), steps);
    forall w | w in f.fromB && ReceiveState(c, f.a, w.msg, w.index).Ok?
      ensures ReceiveState(c, f.a, w.msg, w.index).value.salt == w.salt
    {
      SaltAgrees(c, ka, kb, f, w);
    }
    FullInvMirror(c, ka, kb, f);
    forall w | w in f.fromA && ReceiveState(c, f.b, w.msg, w.index).Ok?
      ensures ReceiveState(c, f.b, w.msg, w.index).value.salt == w.salt
    {
      SaltAgrees(c, kb, ka, Mirror(f), w);
    }
  }
}
