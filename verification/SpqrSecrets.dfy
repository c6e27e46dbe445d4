/** What the secrets of the epochs, and the keys of the authenticator, are made of. In every run each secret
    comes from one encapsulation between the two parties, and whoever they talk to, the authenticator
    depends on the authentication key and on every secret so far. */
module SpqrSecrets {
  import opened Words
  import opened Results
  import opened Erasure
  import opened SpqrCrypto
  import opened SpqrStates
  import opened SpqrProtocol

  // ---------------------------------------------------------------- where a secret comes from

  /** The secret of an epoch, from the randomness of the key pair and that of the encapsulation. */
  function SharedBy(c: Crypto, e: nat, seed: nat, coin: nat): Bytes {
    c.hkdf(c.encaps1(c.gen(seed).hdr, coin).ss, ZeroBytes(32), SckaKey(e), 0)
  }

  /** The key pair of an odd epoch is A's and the encapsulation B's; of an even one the other way round. */
  predicate Drew(e: nat, seed: nat, coin: nat, coinsA: set<nat>, coinsB: set<nat>) {
    if e % 2 == 1 then seed in coinsA && coin in coinsB else seed in coinsB && coin in coinsA
  }

  ghost predicate FromEncaps(c: Crypto, e: nat, key: Bytes, coinsA: set<nat>, coinsB: set<nat>) {
    exists seed, coin :: Drew(e, seed, coin, coinsA, coinsB) && key == SharedBy(c, e, seed, coin)
  }

  ghost predicate Origins(c: Crypto, keys: map<nat, Bytes>, coinsA: set<nat>, coinsB: set<nat>) {
    forall e | e in keys :: FromEncaps(c, e, keys[e], coinsA, coinsB)
  }

  function CoinsOfA(acts: seq<Action>): set<nat> {
    if acts == [] then {} else (if acts[0].SendA? then {acts[0].coin} else {}) + CoinsOfA(acts[1..])
  }

  function CoinsOfB(acts: seq<Action>): set<nat> {
    if acts == [] then {} else (if acts[0].SendB? then {acts[0].coin} else {}) + CoinsOfB(acts[1..])
  }

  /** The material of the epoch was drawn by the two parties. */
  ghost predicate Linked(c: Crypto, m: Material, sys: System, ek: set<nat>, ct: set<nat>) {
    && Paired(c, m, sys)
    && (EkRank(sys.a) >= 1 ==> m.seed in ek)
    && (CtRank(sys.b) >= 2 ==> m.coin in ct)
  }

  ghost predicate OriginInv(c: Crypto, m: Material, sys: System, coinsA: set<nat>, coinsB: set<nat>) {
    && Typed(sys)
    && (if m.epoch % 2 == 1 then Linked(c, m, sys, coinsA, coinsB) else Linked(c, m, Swap(sys), coinsB, coinsA))
    && Origins(c, sys.keysA, coinsA, coinsB) && Origins(c, sys.keysB, coinsA, coinsB)
  }

  lemma MoreCoins(c: Crypto, keys: map<nat, Bytes>, coinsA: set<nat>, coinsB: set<nat>, moreA: set<nat>, moreB: set<nat>)
    requires Origins(c, keys, coinsA, coinsB) && coinsA <= moreA && coinsB <= moreB
    ensures Origins(c, keys, moreA, moreB)
  {
    hide SharedBy;
    forall e | e in keys
      ensures FromEncaps(c, e, keys[e], moreA, moreB)
    {
      assert FromEncaps(c, e, keys[e], coinsA, coinsB);
      var seed, coin :| Drew(e, seed, coin, coinsA, coinsB) && keys[e] == SharedBy(c, e, seed, coin);
      assert Drew(e, seed, coin, moreA, moreB);
    }
  }

  ghost predicate Extends(keys: map<nat, Bytes>, more: map<nat, Bytes>) {
    forall e | e in keys :: e in more && more[e] == keys[e]
  }

  lemma SendExtends(c: Crypto, sys: System, coin: nat)
    requires Typed(sys) && sys.a.epoch >= 1 && forall e :: e in sys.keysA <==> 1 <= e <= KeyEpoch(sys.a)
    ensures Extends(sys.keysA, DoSendA(c, sys, coin).keysA) && DoSendA(c, sys, coin).keysB == sys.keysB
  {
    hide Send;
    if Send(c, sys.a, coin).Ok? {
      SendKeyFollows(c, sys.a, coin);
    }
  }

  lemma ReceiveExtends(c: Crypto, sys: System, msg: V1Message)
    requires Typed(sys) && sys.a.epoch >= 1 && forall e :: e in sys.keysA <==> 1 <= e <= KeyEpoch(sys.a)
    ensures Extends(sys.keysA, DoDeliverToA(c, sys, msg).keysA) && DoDeliverToA(c, sys, msg).keysB == sys.keysB
  {
    hide Recv;
    if msg in sys.fromB && Recv(c, sys.a, msg).Ok? {
      RecvKeyFollows(c, sys.a, msg);
    }
  }

  lemma PairedKeys(c: Crypto, m: Material, sys: System)
    requires Paired(c, m, sys)
    ensures sys.a.epoch >= 1 && sys.b.epoch >= 1
    ensures forall e :: e in sys.keysA <==> 1 <= e <= KeyEpoch(sys.a)
    ensures forall e :: e in sys.keysB <==> 1 <= e <= KeyEpoch(sys.b)
    ensures m.epoch - 1 <= KeyEpoch(sys.a) <= m.epoch && m.epoch - 1 <= KeyEpoch(sys.b) <= m.epoch
  {
    hide Partial, NewDecoder, EkMessage, CtMessage;
  }

  /** A step leaves the secrets that were handed out. */
  lemma KeysStay(c: Crypto, m: Material, sys: System, act: Action)
    requires Typed(sys) && Paired(c, m, sys)
    ensures Extends(sys.keysA, Do(c, sys, act).keysA) && Extends(sys.keysB, Do(c, sys, act).keysB)
  {
    hide Paired, DoSendA, DoDeliverToA;
    PairedKeys(c, m, sys);
    match act
    case SendA(coin) => SendExtends(c, sys, coin);
    case SendB(coin) => SendExtends(c, Swap(sys), coin);
    case DeliverToA(msg) => ReceiveExtends(c, sys, msg);
    case DeliverToB(msg) => ReceiveExtends(c, Swap(sys), msg);
  }

  /** The secret of the epoch under way comes from its material. */
  lemma CurrentOrigin(c: Crypto, m: Material, sys: System, ek: set<nat>, ct: set<nat>)
    requires Linked(c, m, sys, ek, ct)
    ensures m.epoch in sys.keysA ==> sys.keysA[m.epoch] == SharedBy(c, m.epoch, m.seed, m.coin) && m.seed in ek && m.coin in ct
    ensures m.epoch in sys.keysB ==> sys.keysB[m.epoch] == SharedBy(c, m.epoch, m.seed, m.coin) && m.seed in ek && m.coin in ct
  {
    hide Partial, NewDecoder, EkMessage, CtMessage;
  }

  /** One party's secrets after a step: those from before, and the current one. */
  lemma OriginsAfter(c: Crypto, e: nat, keys: map<nat, Bytes>, more: map<nat, Bytes>, seed: nat, coin: nat, coinsA: set<nat>, coinsB: set<nat>)
    requires Origins(c, keys, coinsA, coinsB) && Extends(keys, more) && forall i | i in more && i !in keys :: i == e
    requires e in more && e !in keys ==> more[e] == SharedBy(c, e, seed, coin) && Drew(e, seed, coin, coinsA, coinsB)
    ensures Origins(c, more, coinsA, coinsB)
  {
    hide SharedBy;
    forall i | i in more
      ensures FromEncaps(c, i, more[i], coinsA, coinsB)
    {
      assert i in keys ==> FromEncaps(c, i, keys[i], coinsA, coinsB);
    }
  }


  /** Keys are drawn only on sending, and so are encapsulations. */
  lemma DrawnOnSending(c: Crypto, sys: System, act: Action)
    requires Typed(sys)
    ensures sys.a.KeysUnsampled? && !act.SendA? ==> EkRank(Do(c, sys, act).a) == 0
    ensures (sys.b.NoHeaderReceived? || sys.b.HeaderReceived?) && !(act.SendB? && sys.b.HeaderReceived?) ==> CtRank(Do(c, sys, act).b) < 2
  {
    hide TryDecode, AddChunk, NewDecoder, ChunkOf, Encodable;
  }

  lemma FreshRoles(c: Crypto, m: Material, sys: System)
    requires Paired(c, m, sys) && sys.a.KeysUnsampled?
    ensures EkRank(sys.a) == 0 && CtRank(sys.b) == 0
  {
  }

  lemma CtRanks(c: Crypto, m: Material, sys: System)
    requires Paired(c, m, sys)
    ensures CtRank(sys.b) < 2 <==> sys.b.NoHeaderReceived? || sys.b.HeaderReceived?
    ensures EkRank(sys.a) < 1 <==> sys.a.KeysUnsampled?
  {
    hide Partial, NewDecoder, EkMessage, CtMessage, Secrets;
  }

  ghost function WithCoin(coins: set<nat>, drawn: bool, coin: nat): set<nat> {
    if drawn then coins + {coin} else coins
  }

  function CoinOf(act: Action): nat {
    match act
    case SendA(coin) => coin
    case SendB(coin) => coin
    case _ => 0
  }

  /** One step, seen with the key sender as A. */
  lemma LinkedStep(c: Crypto, m: Material, sys: System, act: Action, ek: set<nat>, ct: set<nat>) returns (m': Material)
    requires c.Lawful() && Typed(sys) && Linked(c, m, sys, ek, ct)
    ensures var r := Do(c, sys, act);
      var ek', ct' := WithCoin(ek, act.SendA?, CoinOf(act)), WithCoin(ct, act.SendB?, CoinOf(act));
      || (m'.epoch == m.epoch && Linked(c, m', r, ek', ct'))
      || (m'.epoch == m.epoch + 1 && Linked(c, m', Swap(r), ct', ek') && r.keysA == sys.keysA && r.keysB == sys.keysB)
  {
    hide Paired, Do, EkRank, CtRank;
    m' := PairedStep(c, m, sys, act);
    var r := Do(c, sys, act);
    DrawnOnSending(c, sys, act);
    CtRanks(c, m, sys);
    if m'.epoch != m.epoch {
      FreshRoles(c, m', Swap(r));
    }
  }

  /** The same with the secrets. */
  lemma OriginStep(c: Crypto, m: Material, sys: System, act: Action, ek: set<nat>, ct: set<nat>, coinsA: set<nat>, coinsB: set<nat>)
    returns (m': Material)
    requires c.Lawful() && Typed(sys) && Linked(c, m, sys, ek, ct)
    requires if m.epoch % 2 == 1 then ek == coinsA && ct == coinsB else ek == coinsB && ct == coinsA
    requires Origins(c, sys.keysA, coinsA, coinsB) && Origins(c, sys.keysB, coinsA, coinsB)
    ensures var r := Do(c, sys, act);
      var ek', ct' := WithCoin(ek, act.SendA?, CoinOf(act)), WithCoin(ct, act.SendB?, CoinOf(act));
      var moreA, moreB := if m.epoch % 2 == 1 then ek' else ct', if m.epoch % 2 == 1 then ct' else ek';
      && (|| (m'.epoch == m.epoch && Linked(c, m', r, ek', ct'))
          || (m'.epoch == m.epoch + 1 && Linked(c, m', Swap(r), ct', ek')))
      && Origins(c, r.keysA, moreA, moreB) && Origins(c, r.keysB, moreA, moreB)
  {
    hide Linked, Do, SharedBy, FromEncaps;
    m' := LinkedStep(c, m, sys, act, ek, ct);
    var r := Do(c, sys, act);
    var ek', ct' := WithCoin(ek, act.SendA?, CoinOf(act)), WithCoin(ct, act.SendB?, CoinOf(act));
    var moreA, moreB := if m.epoch % 2 == 1 then ek' else ct', if m.epoch % 2 == 1 then ct' else ek';
    MoreCoins(c, sys.keysA, coinsA, coinsB, moreA, moreB);
    MoreCoins(c, sys.keysB, coinsA, coinsB, moreA, moreB);
    if m'.epoch == m.epoch {
      NewSecrets(c, m, m', sys, act, ek, ct, ek', ct');
      OriginsAfter(c, m.epoch, sys.keysA, r.keysA, m'.seed, m'.coin, moreA, moreB);
      OriginsAfter(c, m.epoch, sys.keysB, r.keysB, m'.seed, m'.coin, moreA, moreB);
    }
  }

  lemma NewSecrets(c: Crypto, m: Material, m': Material, sys: System, act: Action, ek: set<nat>, ct: set<nat>, ek': set<nat>, ct': set<nat>)
    requires Typed(sys) && Linked(c, m, sys, ek, ct) && Linked(c, m', Do(c, sys, act), ek', ct') && m'.epoch == m.epoch
    ensures var r := Do(c, sys, act);
      && Extends(sys.keysA, r.keysA) && Extends(sys.keysB, r.keysB)
      && (forall e | e in r.keysA && e !in sys.keysA :: e == m.epoch) && (forall e | e in r.keysB && e !in sys.keysB :: e == m.epoch)
      && (m.epoch in r.keysA ==> r.keysA[m.epoch] == SharedBy(c, m.epoch, m'.seed, m'.coin) && m'.seed in ek' && m'.coin in ct')
      && (m.epoch in r.keysB ==> r.keysB[m.epoch] == SharedBy(c, m.epoch, m'.seed, m'.coin) && m'.seed in ek' && m'.coin in ct')
  {
    hide Paired, Do, SharedBy;
    KeysStay(c, m, sys, act);
    PairedKeys(c, m, sys);
    PairedKeys(c, m', Do(c, sys, act));
    CurrentOrigin(c, m', Do(c, sys, act), ek', ct');
  }

  lemma OriginInvStep(c: Crypto, m: Material, sys: System, act: Action, coinsA: set<nat>, coinsB: set<nat>) returns (m': Material)
    requires c.Lawful() && OriginInv(c, m, sys, coinsA, coinsB)
    ensures OriginInv(c, m', Do(c, sys, act), WithCoin(coinsA, act.SendA?, CoinOf(act)), WithCoin(coinsB, act.SendB?, CoinOf(act)))
  {
    hide Linked, Do, Origins, Typed;
    if m.epoch % 2 == 1 {
      m' := OriginStep(c, m, sys, act, coinsA, coinsB, coinsA, coinsB);
    } else {
      SwapDo(c, sys, act);
      assert Typed(Swap(sys)) by { SwapTyped(sys); }
      m' := OriginStep(c, m, Swap(sys), SwapAction(act), coinsB, coinsA, coinsA, coinsB);
      assert Swap(Swap(Do(c, sys, act))) == Do(c, sys, act);
    }
  }

  lemma SwapTyped(sys: System)
    requires Typed(sys)
    ensures Typed(Swap(sys))
  {
  }

  lemma {:induction false} OriginInvRun(c: Crypto, m: Material, sys: System, acts: seq<Action>, coinsA: set<nat>, coinsB: set<nat>) returns (m': Material)
    requires c.Lawful() && OriginInv(c, m, sys, coinsA, coinsB)
    ensures OriginInv(c, m', Run(c, sys, acts), coinsA + CoinsOfA(acts), coinsB + CoinsOfB(acts))
    decreases |acts|
  {
    hide OriginInv, Do;
    assert Typed(sys) by { OriginTyped(c, m, sys, coinsA, coinsB); }
    if acts == [] {
      m' := m;
      assert coinsA + CoinsOfA(acts) == coinsA && coinsB + CoinsOfB(acts) == coinsB;
    } else {
      var next := OriginInvStep(c, m, sys, acts[0], coinsA, coinsB);
      var moreA, moreB := WithCoin(coinsA, acts[0].SendA?, CoinOf(acts[0])), WithCoin(coinsB, acts[0].SendB?, CoinOf(acts[0]));
      m' := OriginInvRun(c, next, Do(c, sys, acts[0]), acts[1..], moreA, moreB);
      assert moreA + CoinsOfA(acts[1..]) == coinsA + CoinsOfA(acts) && moreB + CoinsOfB(acts[1..]) == coinsB + CoinsOfB(acts);
    }
  }

  lemma OriginTyped(c: Crypto, m: Material, sys: System, coinsA: set<nat>, coinsB: set<nat>)
    requires OriginInv(c, m, sys, coinsA, coinsB)
    ensures Typed(sys)
  {
  }

  /** In every run, every secret either party has handed out is derived from the secret that one of them
      encapsulated, with randomness of its own, to a key pair the other made with randomness of its
      own: A makes the key pair in odd epochs, B in even ones. */
  lemma SecretsAreEncapsulated(c: Crypto, authKey: Bytes, acts: seq<Action>)
    requires c.Lawful()
    ensures var sys := Run(c, Init(c, authKey), acts);
      Origins(c, sys.keysA, CoinsOfA(acts), CoinsOfB(acts)) && Origins(c, sys.keysB, CoinsOfA(acts), CoinsOfB(acts))
  {
    hide Run, Paired, Origins, CoinsOfA, CoinsOfB;
    var m := Material(1, NewAuth(c, authKey), 0, 0);
    assert Linked(c, m, Init(c, authKey), {}, {}) by { LinkedInit(c, authKey); }
    assert Origins(c, map[], {}, {}) by { NoOrigins(c); }
    var m' := OriginInvRun(c, m, Init(c, authKey), acts, {}, {});
    assert {} + CoinsOfA(acts) == CoinsOfA(acts) && {} + CoinsOfB(acts) == CoinsOfB(acts);
  }

  lemma NoOrigins(c: Crypto)
    ensures Origins(c, map[], {}, {})
  {
  }

  lemma LinkedInit(c: Crypto, authKey: Bytes)
    requires c.Lawful()
    ensures Linked(c, Material(1, NewAuth(c, authKey), 0, 0), Init(c, authKey), {}, {})
  {
    hide Holds;
    var m := Material(1, NewAuth(c, authKey), 0, 0);
    PayloadSizes(c, m);
    PartialNew(HdrPayload(c, m));
  }

  // ---------------------------------------------------------------- what a secret gives away

  /** Two different inputs of the key derivation with the same output. */
  ghost predicate KdfCollides(c: Crypto, ikm: Bytes, ikm': Bytes, info: Info, block: nat) {
    ikm != ikm' && c.hkdf(ikm, ZeroBytes(32), info, block) == c.hkdf(ikm', ZeroBytes(32), info, block)
  }

  /** Equal secrets of one epoch, in any two runs, come from equal encapsulated secrets. */
  lemma SecretsDetermine(c: Crypto, authKey: Bytes, acts: seq<Action>, authKey': Bytes, acts': seq<Action>, e: nat)
    requires c.Lawful()
    requires e in Run(c, Init(c, authKey), acts).keysA && e in Run(c, Init(c, authKey'), acts').keysA
    requires Run(c, Init(c, authKey), acts).keysA[e] == Run(c, Init(c, authKey'), acts').keysA[e]
    ensures exists seed, coin, seed', coin' ::
      && Drew(e, seed, coin, CoinsOfA(acts), CoinsOfB(acts)) && Drew(e, seed', coin', CoinsOfA(acts'), CoinsOfB(acts'))
      && var ss, ss' := c.encaps1(c.gen(seed).hdr, coin).ss, c.encaps1(c.gen(seed').hdr, coin').ss;
         ss == ss' || KdfCollides(c, ss, ss', SckaKey(e), 0)
  {
    hide Run;
    SecretsAreEncapsulated(c, authKey, acts);
    SecretsAreEncapsulated(c, authKey', acts');
    var key := Run(c, Init(c, authKey), acts).keysA[e];
    assert FromEncaps(c, e, key, CoinsOfA(acts), CoinsOfB(acts)) && FromEncaps(c, e, key, CoinsOfA(acts'), CoinsOfB(acts'));
    var seed, coin :| Drew(e, seed, coin, CoinsOfA(acts), CoinsOfB(acts)) && key == SharedBy(c, e, seed, coin);
    var seed', coin' :| Drew(e, seed', coin', CoinsOfA(acts'), CoinsOfB(acts')) && key == SharedBy(c, e, seed', coin');
    var ss, ss' := c.encaps1(c.gen(seed).hdr, coin).ss, c.encaps1(c.gen(seed').hdr, coin').ss;
    assert ss == ss' || KdfCollides(c, ss, ss', SckaKey(e), 0);
  }

  // ---------------------------------------------------------------- the authenticator

  /** What is mixed into the authenticator with the e-th secret; the authentication key comes first. */
  function AuthInput(c: Crypto, authKey: Bytes, keys: map<nat, Bytes>, e: nat): Bytes
    decreases e, 0
  {
    if e == 0 then ZeroBytes(32) + authKey
    else AuthRoot(c, authKey, keys, e - 1) + (if e in keys then keys[e] else [])
  }

  function AuthLabel(e: nat): Info {
    AuthUpdate(if e == 0 then 1 else e)
  }

  function AuthRoot(c: Crypto, authKey: Bytes, keys: map<nat, Bytes>, e: nat): Bytes
    decreases e, 1
  {
    c.hkdf(AuthInput(c, authKey, keys, e), ZeroBytes(32), AuthLabel(e), 0)
  }

  function AuthMacKey(c: Crypto, authKey: Bytes, keys: map<nat, Bytes>, e: nat): Bytes {
    c.hkdf(AuthInput(c, authKey, keys, e), ZeroBytes(32), AuthLabel(e), 1)
  }

  ghost predicate Authed(c: Crypto, authKey: Bytes, s: V1, keys: map<nat, Bytes>) {
    && s.Valid() && s.epoch >= 1
    && (forall e :: e in keys <==> 1 <= e <= KeyEpoch(s))
    && s.auth == Auth(AuthRoot(c, authKey, keys, KeyEpoch(s)), AuthMacKey(c, authKey, keys, KeyEpoch(s)))
  }

  /** The secrets a party hands out as it sends and is given messages. */
  function SecretsOf(c: Crypto, s: V1, keys: map<nat, Bytes>, events: seq<Event>): map<nat, Bytes>
    requires s.Valid() && forall k | 0 <= k < |events| :: events[k].Typed()
    decreases |events|
  {
    if events == [] then keys
    else SecretsOf(c, StepV1(c, s, events[0]), AddKey(keys, SecretOfStep(c, s, events[0])), events[1..])
  }

  function SecretOfStep(c: Crypto, s: V1, e: Event): Option<EpochSecret>
    requires s.Valid() && e.Typed()
  {
    match e
    case Speaks(coin) => var r := Send(c, s, coin); if r.Ok? then r.value.key else None
    case Hears(m) => var r := Recv(c, s, m); if r.Ok? then r.value.key else None
  }

  lemma {:induction false} SameInput(c: Crypto, authKey: Bytes, keys: map<nat, Bytes>, more: map<nat, Bytes>, e: nat)
    requires forall i | 1 <= i <= e :: i in keys && i in more && keys[i] == more[i]
    ensures AuthInput(c, authKey, keys, e) == AuthInput(c, authKey, more, e)
  {
    if e > 0 {
      SameInput(c, authKey, keys, more, e - 1);
    }
  }

  lemma AuthMoves(c: Crypto, s: V1, e: Event)
    requires s.Valid() && e.Typed()
    ensures var key := SecretOfStep(c, s, e);
      StepV1(c, s, e).auth == match key
        case None => s.auth
        case Some(k) => Auth(c.hkdf(s.auth.rootKey + k.secret, ZeroBytes(32), AuthUpdate(k.epoch), 0),
                             c.hkdf(s.auth.rootKey + k.secret, ZeroBytes(32), AuthUpdate(k.epoch), 1))
  {
    hide TryDecode, AddChunk, NewDecoder, Encodable, ChunkOf;
  }

  lemma StepFollows(c: Crypto, s: V1, e: Event)
    requires s.Valid() && s.epoch >= 1 && e.Typed()
    ensures KeyFollows(s, SecretOfStep(c, s, e), StepV1(c, s, e))
  {
    hide Send, Recv;
    match e
    case Speaks(coin) => if Send(c, s, coin).Ok? { SendKeyFollows(c, s, coin); }
    case Hears(m) => if Recv(c, s, m).Ok? { RecvKeyFollows(c, s, m); }
  }

  lemma AuthedStep(c: Crypto, authKey: Bytes, s: V1, keys: map<nat, Bytes>, e: Event)
    requires Authed(c, authKey, s, keys) && e.Typed()
    ensures Authed(c, authKey, StepV1(c, s, e), AddKey(keys, SecretOfStep(c, s, e)))
  {
    hide StepV1, SecretOfStep;
    AuthMoves(c, s, e);
    StepFollows(c, s, e);
    var key := SecretOfStep(c, s, e);
    var more := AddKey(keys, key);
    SameInput(c, authKey, keys, more, KeyEpoch(s));
    if key.Some? {
      assert AuthInput(c, authKey, more, key.value.epoch) == AuthRoot(c, authKey, more, KeyEpoch(s)) + key.value.secret;
    }
  }

  lemma {:induction false} AuthedRun(c: Crypto, authKey: Bytes, s: V1, keys: map<nat, Bytes>, events: seq<Event>)
    requires Authed(c, authKey, s, keys) && forall k | 0 <= k < |events| :: events[k].Typed()
    ensures Authed(c, authKey, RunV1(c, s, events), SecretsOf(c, s, keys, events))
    decreases |events|
  {
    hide StepV1, SecretOfStep, AuthRoot, AuthMacKey;
    if events != [] {
      AuthedStep(c, authKey, s, keys, events[0]);
      AuthedRun(c, authKey, StepV1(c, s, events[0]), AddKey(keys, SecretOfStep(c, s, events[0])), events[1..]);
    }
  }

  /** Whoever a party talks to, its authenticator is made from the authentication key and the secrets it
      has handed out, all of them and in order. */
  lemma AuthFollowsSecrets(c: Crypto, authKey: Bytes, initiator: bool, events: seq<Event>)
    requires forall k | 0 <= k < |events| :: events[k].Typed()
    ensures var start := if initiator then InitA(c, authKey) else InitB(c, authKey);
      Authed(c, authKey, RunV1(c, start, events), SecretsOf(c, start, map[], events))
  {
    hide RunV1, SecretsOf;
    var start := if initiator then InitA(c, authKey) else InitB(c, authKey);
    assert Authed(c, authKey, start, map[]) by { StartsAuthed(c, authKey); }
    AuthedRun(c, authKey, start, map[], events);
  }

  lemma StartsAuthed(c: Crypto, authKey: Bytes)
    ensures Authed(c, authKey, InitA(c, authKey), map[]) && Authed(c, authKey, InitB(c, authKey), map[])
  {
  }

  /** The key derivation collides on what the two mixed in with some secret up to the e-th. */
  ghost predicate AuthCollides(c: Crypto, authKey: Bytes, keys: map<nat, Bytes>, authKey': Bytes, keys': map<nat, Bytes>, e: nat) {
    exists i, block ::
      0 <= i <= e && KdfCollides(c, AuthInput(c, authKey, keys, i), AuthInput(c, authKey', keys', i), AuthLabel(i), block)
  }

  lemma {:induction false} InputsDetermine(c: Crypto, authKey: Bytes, keys: map<nat, Bytes>, authKey': Bytes, keys': map<nat, Bytes>, e: nat)
    requires c.Sizes() && (forall i | 1 <= i <= e :: i in keys && i in keys')
    requires AuthInput(c, authKey, keys, e) == AuthInput(c, authKey', keys', e)
    ensures (authKey == authKey' && forall i | 1 <= i <= e :: keys[i] == keys'[i]) || AuthCollides(c, authKey, keys, authKey', keys', e)
  {
    if e == 0 {
      assert authKey == AuthInput(c, authKey, keys, 0)[32..] && authKey' == AuthInput(c, authKey', keys', 0)[32..];
    } else {
      var root, root' := AuthRoot(c, authKey, keys, e - 1), AuthRoot(c, authKey', keys', e - 1);
      assert |root| == 32 && |root'| == 32;
      assert root == AuthInput(c, authKey, keys, e)[..32] && root' == AuthInput(c, authKey', keys', e)[..32];
      assert keys[e] == AuthInput(c, authKey, keys, e)[32..] && keys'[e] == AuthInput(c, authKey', keys', e)[32..];
      var x, x' := AuthInput(c, authKey, keys, e - 1), AuthInput(c, authKey', keys', e - 1);
      if x == x' {
        InputsDetermine(c, authKey, keys, authKey', keys', e - 1);
      } else {
        assert KdfCollides(c, x, x', AuthLabel(e - 1), 0);
      }
    }
  }

  /** Two parties of any two runs have the same tag key only if they have the same authentication key and
      handed out the same secrets. */
  lemma MacKeysDetermine(c: Crypto, authKey: Bytes, keys: map<nat, Bytes>, authKey': Bytes, keys': map<nat, Bytes>, s: V1, s': V1)
    requires c.Sizes() && Authed(c, authKey, s, keys) && Authed(c, authKey', s', keys')
    requires KeyEpoch(s) == KeyEpoch(s') && s.auth.macKey == s'.auth.macKey
    ensures (authKey == authKey' && keys == keys') || AuthCollides(c, authKey, keys, authKey', keys', KeyEpoch(s))
  {
    hide AuthInput, AuthRoot;
    var e := KeyEpoch(s);
    var x, x' := AuthInput(c, authKey, keys, e), AuthInput(c, authKey', keys', e);
    if x == x' {
      InputsDetermine(c, authKey, keys, authKey', keys', e);
    } else {
      assert KdfCollides(c, x, x', AuthLabel(e), 1);
    }
  }
}
