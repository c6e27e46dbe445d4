/** Saving and restoring the chain (spqr/chain.go), and with it cloning the whole state
    (spqr/state.go): every state that calls can reach is its own clone. */
module SpqrChainCodec {
  import opened Words
  import opened Results
  import opened Sorting
  import opened Erasure
  import opened Codec
  import opened SpqrCrypto
  import opened SpqrStates
  import opened SpqrHistory
  import opened SpqrChain
  import opened SpqrState
  import opened SpqrCodec

  // ---------------------------------------------------------------- one direction

  predicate DirStorable(d: Dir) {
    && d.ctr < WORD && |d.next| < WORD && |d.prev| < WORD
    && (forall k | k in d.prev :: k < WORD && |d.prev[k]| == 32)
  }

  function PutStored(i: nat, key: Bytes): Bytes {
    BigEndian(i, 4) + key
  }

  function GetStored(data: Bytes): Reading<(nat, Bytes)> {
    var i :- GetNumber(data, 4);
    if |i.rest| < 32 then Err(Malformed) else Ok(Read((i.value, i.rest[..32]), i.rest[32..]))
  }

  lemma GetsStored(i: nat, key: Bytes)
    requires i < WORD && |key| == 32
    ensures ReadsBack(PutStored, GetStored, i, key)
  {
    hide BigEndian, GetNumber;
    forall rest: Bytes
      ensures GetStored(PutStored(i, key) + rest) == Ok(Read((i, key), rest))
    {
      assert PutStored(i, key) + rest == BigEndian(i, 4) + (key + rest);
      GetsWord(i, key + rest);
      assert (key + rest)[..32] == key && (key + rest)[32..] == rest;
    }
  }

  function PutDir(d: Dir): Bytes {
    BigEndian(d.ctr, 4) + (PutBytes(d.next) + (BigEndian(|d.prev|, 4) + PutEntries(d.prev, SortedKeys(d.prev.Keys), PutStored)))
  }

  function GetDir(data: Bytes): Reading<Dir> {
    var ctr :- GetNumber(data, 4);
    var next :- GetBytes(ctr.rest);
    var n :- GetNumber(next.rest, 4);
    var prev :- GetEntries(n.rest, n.value, map[], GetStored);
    Ok(Read(Dir(ctr.value, next.value, prev.value), prev.rest))
  }

  lemma GetsDir(d: Dir, rest: Bytes)
    requires DirStorable(d)
    ensures GetDir(PutDir(d) + rest) == Ok(Read(d, rest))
  {
    hide BigEndian, GetNumber, PutBytes, GetBytes, PutStored, GetStored, PutEntries, GetEntries, SortedKeys, ReadsBack;
    var keys := SortedKeys(d.prev.Keys);
    SortedKeysAll(d.prev.Keys);
    var t3 := PutEntries(d.prev, keys, PutStored) + rest;
    var t2 := BigEndian(|d.prev|, 4) + t3;
    var t1 := PutBytes(d.next) + t2;
    assert PutDir(d) + rest == BigEndian(d.ctr, 4) + t1;
    GetsWord(d.ctr, t1);
    GetsBytes(d.next, t2);
    GetsWord(|d.prev|, t3);
    forall k | k in keys
      ensures ReadsBack(PutStored, GetStored, k, d.prev[k])
    {
      GetsStored(k, d.prev[k]);
    }
    GetsEntries(d.prev, keys, PutStored, GetStored, rest);
  }

  // ---------------------------------------------------------------- the links

  function PutLinks(links: seq<Link>): Bytes {
    if links == [] then [] else PutDir(links[0].send) + (PutDir(links[0].recv) + PutLinks(links[1..]))
  }

  function GetLinks(data: Bytes, n: nat): Reading<seq<Link>>
    decreases n
  {
    if n == 0 then Ok(Read([], data))
    else
      var send :- GetDir(data);
      var recv :- GetDir(send.rest);
      var more :- GetLinks(recv.rest, n - 1);
      Ok(Read([Link(send.value, recv.value)] + more.value, more.rest))
  }

  predicate LinkStorable(link: Link) {
    DirStorable(link.send) && DirStorable(link.recv)
  }

  lemma {:induction false} GetsLinks(links: seq<Link>, rest: Bytes)
    requires forall l | l in links :: LinkStorable(l)
    ensures GetLinks(PutLinks(links) + rest, |links|) == Ok(Read(links, rest))
    decreases |links|
  {
    hide PutDir, GetDir, DirStorable;
    if links == [] {
      assert PutLinks(links) + rest == rest;
    } else {
      assert LinkStorable(links[0]);
      var tail := PutLinks(links[1..]) + rest;
      var mid := PutDir(links[0].recv) + tail;
      assert PutLinks(links) + rest == PutDir(links[0].send) + mid;
      GetsLinks(links[1..], rest);
      GetsDir(links[0].recv, tail);
      GetsDir(links[0].send, mid);
      assert [links[0]] + links[1..] == links;
    }
  }

  // ---------------------------------------------------------------- the chain

  const CHAIN_VERSION: Byte := 1

  function PutChain(ch: Chain): Bytes {
    [CHAIN_VERSION, if ch.dir == A2B then 0 else 1] + (BigEndian(ch.currentEpoch, 8) + (BigEndian(ch.sendEpoch, 8) +
      (ch.nextRoot + PutTail(ch))))
  }

  function PutTail(ch: Chain): Bytes {
    BigEndian(ch.params.maxJump, 4) + (BigEndian(ch.params.maxOOO, 4) + (BigEndian(|ch.links|, 4) + PutLinks(ch.links)))
  }

  datatype Tail = Tail(params: Params, links: seq<Link>)

  function GetTail(data: Bytes): Restored<Tail> {
    Widths();
    var jump :- GetNumber(data, 4);
    var ooo :- GetNumber(jump.rest, 4);
    var n :- GetNumber(ooo.rest, 4);
    var links :- GetLinks(n.rest, n.value);
    if links.rest != [] then Err(Malformed) else Ok(Tail(Params(jump.value, ooo.value), links.value))
  }

  function GetChain(data: Bytes): Restored<Chain> {
    if |data| < 2 || data[0] != CHAIN_VERSION then Err(Malformed)
    else
      var current :- GetNumber(data[2..], 8);
      var send :- GetNumber(current.rest, 8);
      if |send.rest| < 32 then Err(Malformed)
      else
        var tail :- GetTail(send.rest[32..]);
        Ok(Chain(if data[1] == 1 then B2A else A2B, current.value, send.value, tail.links, send.rest[..32], tail.params))
  }

  predicate ChainStorable(ch: Chain) {
    && ch.currentEpoch < 0x1_0000_0000_0000_0000 && ch.sendEpoch < 0x1_0000_0000_0000_0000
    && |ch.nextRoot| == 32
    && |ch.links| < WORD && (forall l | l in ch.links :: LinkStorable(l))
  }

  lemma GetsTail(ch: Chain)
    requires ChainStorable(ch)
    ensures GetTail(PutTail(ch)) == Ok(Tail(ch.params, ch.links))
  {
    hide BigEndian, GetNumber, PutLinks, GetLinks, LinkStorable;
    var t2 := BigEndian(|ch.links|, 4) + PutLinks(ch.links);
    var t1 := BigEndian(ch.params.maxOOO, 4) + t2;
    GetsWord(ch.params.maxJump, t1);
    GetsWord(ch.params.maxOOO, t2);
    GetsWord(|ch.links|, PutLinks(ch.links));
    GetsLinks(ch.links, []);
    assert PutLinks(ch.links) + [] == PutLinks(ch.links);
  }

  lemma ChainRoundTrip(ch: Chain)
    requires ChainStorable(ch)
    ensures GetChain(PutChain(ch)) == Ok(ch)
  {
    hide BigEndian, GetNumber, PutTail, GetTail, LinkStorable;
    var t2 := ch.nextRoot + PutTail(ch);
    var t1 := BigEndian(ch.sendEpoch, 8) + t2;
    assert PutChain(ch)[2..] == BigEndian(ch.currentEpoch, 8) + t1;
    GetsWord(ch.currentEpoch, t1);
    GetsWord(ch.sendEpoch, t2);
    assert t2[..32] == ch.nextRoot && t2[32..] == PutTail(ch);
    GetsTail(ch);
  }

  // ---------------------------------------------------------------- every chain that is reached can be saved

  /** Counters are words, the next key is one block or closed, and stored keys are blocks at places
      from one up. */
  ghost predicate DirSound(d: Dir) {
    && d.ctr < WORD && (|d.next| == 0 || |d.next| == 32)
    && (forall k | k in d.prev :: 1 <= k < WORD && |d.prev[k]| == 32)
  }

  lemma SoundStorable(d: Dir)
    requires DirSound(d)
    ensures DirStorable(d)
  {
    RangeSize(d.prev.Keys, 1, WORD - 1);
  }

  lemma {:induction false} SkipToSound(c: Crypto, d: Dir, at: nat, maxOOO: nat)
    requires c.Sizes() && DirSound(d) && d.ctr < at < WORD
    ensures DirSound(SkipTo(c, d, at, maxOOO))
    decreases at - d.ctr
  {
    if d.ctr + 1 < at {
      var n := DirNext(c, d);
      var stored := if (n.ctr + maxOOO) % WORD >= at then n.(prev := d.prev[n.ctr := DirKey(c, d)]) else n;
      assert |DirKey(c, d)| == 32 && |n.next| == 32;
      SkipToSound(c, stored, at, maxOOO);
    }
  }

  lemma KeyAtSound(c: Crypto, d: Dir, at: nat, p: Params)
    requires c.Sizes() && DirSound(d) && at < WORD
    ensures DirSound(KeyAt(c, d, at, p).dir)
  {
    hide SkipTo;
    if at > d.ctr && at - d.ctr <= p.MaxJump() {
      SkipToSound(c, d.(prev := map[]), at, p.MaxOOO());
      SkipToSound(c, d, at, p.MaxOOO());
    }
  }

  /** The direction has served requests from some seed, so it holds no more keys than it may. */
  ghost predicate Served(c: Crypto, p: Params, d: Dir) {
    exists seed: Bytes, s: Service :: seed != [] && Tracks(c, seed, p, d, s)
  }

  /** Only what is received is stored. */
  ghost predicate LinkSound(c: Crypto, p: Params, link: Link) {
    DirSound(link.send) && link.send.prev == map[] && DirSound(link.recv) && Served(c, p, link.recv)
  }

  ghost predicate ChainSound(c: Crypto, ch: Chain) {
    |ch.nextRoot| == 32 && forall i | 0 <= i < |ch.links| :: LinkSound(c, ch.params, ch.links[i])
  }

  lemma NewSound(c: Crypto, ikm: Bytes, salt: Bytes, info: Info, dir: Direction, p: Params)
    requires c.Sizes()
    ensures LinkSound(c, p, NewLink(c, ikm, salt, info, dir))
  {
    hide Tracks;
    var seed := c.hkdf(ikm, salt, info, SeedBlock(Other(dir)));
    assert |seed| == 32 && |c.hkdf(ikm, salt, info, SeedBlock(dir))| == 32;
    TracksNew(c, seed, p);
  }

  lemma StillServed(c: Crypto, p: Params, d: Dir, at: nat)
    requires c.Sizes() && Served(c, p, d) && at < WORD
    ensures Served(c, p, KeyAt(c, d, at, p).dir)
  {
    hide Tracks, KeyAt;
    var seed: Bytes, s: Service :| seed != [] && Tracks(c, seed, p, d, s);
    KeyAtRefines(c, seed, p, d, s, at);
  }

  lemma SecretSound(c: Crypto, ch: Chain, key: Option<EpochSecret>)
    requires c.Sizes() && ChainSound(c, ch) && WithSecret(c, ch, key).Ok?
    ensures ChainSound(c, WithSecret(c, ch, key).value) && WithSecret(c, ch, key).value.params == ch.params
  {
    hide LinkSound;
    if key.Some? {
      NewSound(c, key.value.secret, ch.nextRoot, ChainAddEpoch, ch.dir, ch.params);
      assert |c.hkdf(key.value.secret, ch.nextRoot, ChainAddEpoch, 0)| == 32;
    }
  }

  lemma RetireSound(c: Crypto, ch: Chain, epoch: nat, idx: nat)
    requires ChainSound(c, ch) && idx < |ch.links|
    ensures ChainSound(c, Retire(ch, epoch, idx)) && (if idx > 1 then 1 else idx) < |Retire(ch, epoch, idx).links|
  {
    hide Served;
    var drop := if idx > 1 then idx - 1 else 0;
    var r := Retire(ch, epoch, idx);
    forall i | 0 <= i < |r.links|
      ensures LinkSound(c, r.params, r.links[i])
    {
      var l := ch.links[i + drop];
      assert LinkSound(c, ch.params, l);
      assert r.links[i] == if i < idx - drop then Close(l) else l;
    }
  }

  lemma SendNowSound(c: Crypto, ch: Chain, idx: nat)
    requires c.Sizes() && ChainSound(c, ch) && idx < |ch.links|
    ensures ChainSound(c, SendNow(c, ch, idx).chain)
  {
    hide Served;
    var d := ch.links[idx].send;
    assert |DirNext(c, d).next| == 32;
  }

  lemma SendSound(c: Crypto, ch: Chain, epoch: nat)
    requires c.Sizes() && ChainSound(c, ch)
    ensures ChainSound(c, SendKey(c, ch, epoch).chain) && SendKey(c, ch, epoch).chain.params == ch.params
  {
    hide ChainSound, SendNow, Retire;
    if ch.sendEpoch <= epoch && EpochIndex(ch, epoch).Ok? {
      var idx := EpochIndex(ch, epoch).value;
      RetireSound(c, ch, epoch, idx);
      SendNowSound(c, Retire(ch, epoch, idx), if idx > 1 then 1 else idx);
      SendNowSound(c, ch, idx);
      SendParams(c, ch, epoch);
    }
  }

  lemma SendParams(c: Crypto, ch: Chain, epoch: nat)
    ensures SendKey(c, ch, epoch).chain.params == ch.params
  {
  }

  lemma RecvSound(c: Crypto, ch: Chain, epoch: nat, index: nat)
    requires c.Sizes() && ChainSound(c, ch) && index < WORD
    ensures ChainSound(c, RecvKey(c, ch, epoch, index).chain) && RecvKey(c, ch, epoch, index).chain.params == ch.params
  {
    hide DirSound, KeyAt, Served;
    if EpochIndex(ch, epoch).Ok? {
      var link := ch.links[EpochIndex(ch, epoch).value];
      assert LinkSound(c, ch.params, link);
      KeyAtSound(c, link.recv, index, ch.params);
      StillServed(c, ch.params, link.recv, index);
    }
  }

  // ---------------------------------------------------------------- cloning

  function Clone(s: State): Restored<State> {
    var v1 :- Restore(Save(s.v1));
    match s.chain
    case None => Ok(State(v1, None, s.negotiation))
    case Some(ch) =>
      var copy :- GetChain(PutChain(ch));
      Ok(State(v1, Some(copy), s.negotiation))
  }

  ghost predicate StateSound(c: Crypto, s: State, vn: Negotiation) {
    && Storable(s.v1)
    && (s.chain.Some? ==> ChainSound(c, s.chain.value) && s.chain.value.params == vn.params)
    && (s.negotiation.Some? ==> s.negotiation.value == vn)
  }

  lemma FirstSound(c: Crypto, vn: Negotiation)
    requires c.Sizes()
    ensures ChainSound(c, FromNegotiation(c, vn)) && FromNegotiation(c, vn).params == vn.params
  {
    hide LinkSound;
    NewSound(c, vn.authKey, ZeroBytes(32), ChainStart, vn.dir, vn.params);
    assert |c.hkdf(vn.authKey, ZeroBytes(32), ChainStart, 0)| == 32;
  }

  lemma SendStateSound(c: Crypto, s: State, vn: Negotiation, coin: nat)
    requires c.Sizes() && StateSound(c, s, vn) && SendState(c, s, coin).Ok?
    ensures StateSound(c, SendState(c, s, coin).value.state, vn)
  {
    hide Send, SendKey, WithSecret, ChainSound, FromNegotiation;
    var sent := Send(c, s.v1, coin).value;
    StorableSend(c, s.v1, coin);
    FirstSound(c, vn);
    var chain := ChainForSend(c, s).value;
    if chain.Some? {
      SecretSound(c, chain.value, sent.key);
      SendSound(c, WithSecret(c, chain.value, sent.key).value, sent.msg.epoch - 1);
    }
  }

  lemma ReceiveStateSound(c: Crypto, s: State, vn: Negotiation, msg: V1Message, index: nat)
    requires c.Sizes() && StateSound(c, s, vn) && msg.Typed() && index < WORD && ReceiveState(c, s, msg, index).Ok?
    ensures StateSound(c, ReceiveState(c, s, msg, index).value.state, vn)
  {
    hide Recv, RecvKey, WithSecret, ChainSound, FromNegotiation;
    var recv := Recv(c, s.v1, msg).value;
    StorableRecv(c, s.v1, msg);
    FirstSound(c, vn);
    SecretSound(c, ChainForRecv(c, s).value, recv.key);
    RecvSound(c, WithSecret(c, ChainForRecv(c, s).value, recv.key).value, msg.epoch - 1, index);
  }

  lemma {:induction false} AllSound(c: Crypto, s: State, vn: Negotiation, calls: seq<Call>)
    requires c.Sizes() && Regular(s) && StateSound(c, s, vn) && forall k | 0 <= k < |calls| :: Sane(calls[k])
    ensures StateSound(c, ApplyAll(c, s, calls), vn)
    decreases |calls|
  {
    hide Regular, StateSound, SendState, ReceiveState;
    if calls != [] {
      assert s.v1.Valid() by { RegularValid(s); }
      ApplyRegular(c, s, calls[0]);
      match calls[0] {
        case CallSend(coin) =>
          if SendState(c, s, coin).Ok? { SendStateSound(c, s, vn, coin); }
        case CallReceive(msg, index) =>
          if ReceiveState(c, s, msg, index).Ok? { ReceiveStateSound(c, s, vn, msg, index); }
      }
      AllSound(c, Apply(c, s, calls[0]), vn, calls[1..]);
    }
  }

  /** After any calls, whatever arrived, the state is sound. */
  lemma ReachedSound(c: Crypto, vn: Negotiation, calls: seq<Call>)
    requires c.Sizes() && forall k | 0 <= k < |calls| :: Sane(calls[k])
    ensures Regular(NewState(c, vn))
    ensures StateSound(c, ApplyAll(c, NewState(c, vn), calls), vn)
  {
    hide ApplyAll, Storable;
    RegularNew(c, vn);
    StorableStart(c, vn.authKey);
    AllSound(c, NewState(c, vn), vn, calls);
  }

  /** After any calls, whatever arrived, cloning succeeds and gives the very same state, as long as the
      epoch is a 64-bit number. */
  lemma CloneIsSame(c: Crypto, vn: Negotiation, calls: seq<Call>)
    requires c.Sizes() && forall k | 0 <= k < |calls| :: Sane(calls[k])
    ensures Regular(NewState(c, vn))
    ensures var s := ApplyAll(c, NewState(c, vn), calls);
      Clone(s) == Ok(s) <==> s.v1.epoch < 0x1_0000_0000_0000_0000
  {
    hide ApplyAll, Save, Restore, Storable, ChainSound, PutChain, GetChain, Regular;
    ReachedSound(c, vn, calls);
    var s := ApplyAll(c, NewState(c, vn), calls);
    if s.v1.epoch < 0x1_0000_0000_0000_0000 {
      SaveRestore(s.v1);
      if s.chain.Some? {
        ReachedStorable(c, s);
        ChainRoundTrip(s.chain.value);
      }
    } else if Restore(Save(s.v1)).Ok? {
      RestoreValid(Save(s.v1));
    }
  }

  lemma ReachedStorable(c: Crypto, s: State)
    requires Regular(s) && s.chain.Some? && ChainSound(c, s.chain.value) && s.v1.epoch < 0x1_0000_0000_0000_0000
    ensures ChainStorable(s.chain.value)
  {
    hide DirSound, DirStorable, Served;
    var ch := s.chain.value;
    forall l | l in ch.links
      ensures LinkStorable(l)
    {
      SoundStorable(l.send);
      SoundStorable(l.recv);
    }
  }
}
