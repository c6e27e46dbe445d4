/** Saving and restoring the whole post-quantum state (spqr/state.go): the handshake, the chain and what
    is held for negotiating the version. */
module SpqrStateCodec {
  import opened Words
  import opened Results
  import opened Sorting
  import opened Codec
  import opened SpqrCrypto
  import opened SpqrStates
  import opened SpqrHistory
  import opened SpqrChain
  import opened SpqrState
  import opened SpqrCodec
  import opened SpqrChainCodec

  // ---------------------------------------------------------------- the container

  const LEGACY: Byte := 1
  const CURRENT: Byte := 2
  const VERSION_1: Byte := 1

  function PutNegotiation(vn: Negotiation): Bytes {
    [if vn.mayDisable then 0 else 1, if vn.dir == A2B then 0 else 1] +
    (BigEndian(vn.params.maxJump, 4) + (BigEndian(vn.params.maxOOO, 4) + PutBytes(vn.authKey)))
  }

  function GetNegotiation(data: Bytes): Reading<Negotiation> {
    Widths();
    if |data| < 2 || data[0] > 1 || data[1] > 1 then Err(Malformed)
    else
      var jump :- GetNumber(data[2..], 4);
      var ooo :- GetNumber(jump.rest, 4);
      var authKey :- GetBytes(ooo.rest);
      if authKey.value == [] then Err(Malformed)
      else Ok(Read(Negotiation(authKey.value, if data[1] == 0 then A2B else B2A, data[0] == 0, Params(jump.value, ooo.value)), authKey.rest))
  }

  /** The lengths of the parts are written in 32 bits. */
  function Serialize(s: State): Bytes {
    [CURRENT, VERSION_1, (if s.negotiation.Some? then 1 else 0) + (if s.chain.Some? then 2 else 0)] +
    ((if s.negotiation.Some? then PutNegotiation(s.negotiation.value) else []) +
     (PutBytes(Save(s.v1)) +
      (if s.chain.Some? then PutBytes(PutChain(s.chain.value)) else [])))
  }

  /** What bytes may hold: nothing, a chain alone as it used to be saved, or a state. */
  datatype Stored = Nothing | ChainOnly(chain: Option<Chain>) | Whole(state: State)

  function GetOptionalNegotiation(data: Bytes, present: bool): Reading<Option<Negotiation>> {
    if !present then Ok(Read(None, data))
    else
      var vn :- GetNegotiation(data);
      Ok(Read(Some(vn.value), vn.rest))
  }

  function GetOptionalChain(data: Bytes, present: bool): Reading<Option<Chain>> {
    if !present then Ok(Read(None, data))
    else
      var bytes :- GetBytes(data);
      if bytes.value == [] then Ok(Read(None, bytes.rest))
      else
        var ch :- GetChain(bytes.value);
        Ok(Read(Some(ch), bytes.rest))
  }

  function Deserialize(data: Bytes): Restored<Stored> {
    if data == [] then Ok(Nothing)
    else if data[0] == LEGACY then GetLegacy(data[1..])
    else if data[0] == CURRENT then GetCurrent(data[1..])
    else Err(Malformed)
  }

  function GetLegacy(data: Bytes): Restored<Stored> {
    if data == [] then Err(Malformed)
    else
      var ch :- GetOptionalChain(data[1..], true);
      if ch.rest != [] then Err(Malformed) else Ok(ChainOnly(ch.value))
  }

  function GetCurrent(data: Bytes): Restored<Stored> {
    if |data| < 2 || data[0] != VERSION_1 then Err(Malformed)
    else
      var vn :- GetOptionalNegotiation(data[2..], data[1] % 2 == 1);
      var bytes :- GetBytes(vn.rest);
      var v1 :- Restore(bytes.value);
      var ch :- GetOptionalChain(bytes.rest, data[1] / 2 % 2 == 1);
      if ch.rest != [] then Err(Malformed) else Ok(Whole(State(v1, ch.value, vn.value)))
  }

  // ---------------------------------------------------------------- what fits

  /** The epoch is a 64-bit number, an authentication key is there while the version is negotiated,
      and the lengths fit in 32 bits. */
  predicate Persistable(s: State) {
    && s.v1.epoch < 0x1_0000_0000_0000_0000
    && (s.negotiation.Some? ==> 0 < |s.negotiation.value.authKey| < WORD)
    && (s.chain.Some? ==> |PutChain(s.chain.value)| < WORD)
  }

  lemma GetsNegotiation(vn: Negotiation, rest: Bytes)
    requires 0 < |vn.authKey| < WORD
    ensures GetNegotiation(PutNegotiation(vn) + rest) == Ok(Read(vn, rest))
  {
    hide BigEndian, GetNumber, PutBytes, GetBytes;
    var data := PutNegotiation(vn) + rest;
    var t2 := PutBytes(vn.authKey) + rest;
    var t1 := BigEndian(vn.params.maxOOO, 4) + t2;
    assert data[2..] == BigEndian(vn.params.maxJump, 4) + t1;
    GetsWord(vn.params.maxJump, t1);
    GetsWord(vn.params.maxOOO, t2);
    GetsBytes(vn.authKey, rest);
  }

  lemma SavedSize(s: V1)
    requires Storable(s)
    ensures |Save(s)| < WORD
  {
    hide BigEndian, PutAll, GetAll, PutMaps, GetMaps, Fields, FieldSizes, FieldsSized, Tag;
    FieldsAreSized(s);
    GetsAll([s.auth.rootKey, s.auth.macKey] + Fields(s), [32, 32] + FieldSizes(Tag(s)), []);
    if DecoderOf(s).Some? {
      GetsMaps(DecoderOf(s).value.points, []);
    }
  }

  lemma NotEmpty(ch: Chain)
    ensures PutChain(ch) != []
  {
    hide PutTail;
  }

  lemma SerializeRestores(s: State)
    requires Storable(s.v1) && (s.chain.Some? ==> ChainStorable(s.chain.value)) && Persistable(s)
    ensures Deserialize(Serialize(s)) == Ok(Whole(s))
  {
    hide PutBytes, GetBytes, Save, Restore, Storable, PutChain, GetChain, ChainStorable, PutNegotiation, GetNegotiation;
    var vn := if s.negotiation.Some? then PutNegotiation(s.negotiation.value) else [];
    var ch := if s.chain.Some? then PutBytes(PutChain(s.chain.value)) else [];
    var flags: Byte := (if s.negotiation.Some? then 1 else 0) + (if s.chain.Some? then 2 else 0);
    var tail := PutBytes(Save(s.v1)) + ch;
    var data := Serialize(s)[1..];
    assert data == [VERSION_1, flags] + (vn + tail);
    assert data[2..] == vn + tail;
    assert [] + tail == tail && ch + [] == ch;
    if s.negotiation.Some? {
      GetsNegotiation(s.negotiation.value, tail);
    }
    SavedSize(s.v1);
    GetsBytes(Save(s.v1), ch);
    SaveRestore(s.v1);
    if s.chain.Some? {
      GetsBytes(PutChain(s.chain.value), []);
      ChainRoundTrip(s.chain.value);
      assert PutChain(s.chain.value) != [] by { NotEmpty(s.chain.value); }
    }
  }

  // ---------------------------------------------------------------- and nothing else does

  lemma DirSize(d: Dir)
    requires forall k | k in d.prev :: |d.prev[k]| == 32
    ensures |PutDir(d)| == 12 + |d.next| + 36 * |d.prev|
  {
    hide BigEndian, PutEntries;
    var keys := SortedKeys(d.prev.Keys);
    EntriesSize(d.prev, keys, PutStored, 36);
  }

  lemma {:induction false} EntriesFit(data: Bytes, n: nat, got: map<nat, Bytes>)
    requires GetEntries(data, n, got, GetStored).Ok? && forall k | k in got :: |got[k]| == 32
    ensures var r := GetEntries(data, n, got, GetStored).value;
      |data| == 36 * n + |r.rest| && |r.value| <= |got| + n && forall k | k in r.value :: |r.value[k]| == 32
    decreases n
  {
    if n > 0 {
      var e := GetStored(data).value;
      EntriesFit(e.rest, n - 1, got[e.value.0 := e.value.1]);
      InsertSize(got, e.value.0, e.value.1);
    }
  }

  lemma InsertSize(m: map<nat, Bytes>, k: nat, v: Bytes)
    ensures |m[k := v]| <= |m| + 1
  {
    assert m[k := v].Keys == m.Keys + {k};
  }

  lemma BytesFit(data: Bytes)
    requires GetBytes(data).Ok?
    ensures var r := GetBytes(data).value; |r.value| < WORD && |data| == 4 + |r.value| + |r.rest|
  {
    Widths();
  }

  /** A direction that was read takes no more bytes than it was read from. */
  lemma DirFits(data: Bytes)
    requires GetDir(data).Ok?
    ensures |PutDir(GetDir(data).value.value)| + |GetDir(data).value.rest| <= |data|
  {
    hide GetEntries, PutDir, GetBytes;
    var ctr := GetNumber(data, 4).value;
    var next := GetBytes(ctr.rest).value;
    BytesFit(ctr.rest);
    var n := GetNumber(next.rest, 4).value;
    EntriesFit(n.rest, n.value, map[]);
    DirSize(GetDir(data).value.value);
  }

  lemma {:induction false} LinksFit(data: Bytes, n: nat)
    requires GetLinks(data, n).Ok?
    ensures |PutLinks(GetLinks(data, n).value.value)| + |GetLinks(data, n).value.rest| <= |data|
    decreases n
  {
    hide GetDir, PutDir;
    if n > 0 {
      var send := GetDir(data).value;
      var recv := GetDir(send.rest).value;
      DirFits(data);
      DirFits(send.rest);
      LinksFit(recv.rest, n - 1);
      var links := GetLinks(data, n).value.value;
      assert links[1..] == GetLinks(recv.rest, n - 1).value.value;
    }
  }

  lemma ChainFits(data: Bytes)
    requires GetChain(data).Ok?
    ensures |PutChain(GetChain(data).value)| <= |data|
  {
    hide GetLinks, PutLinks, BigEndian;
    var current := GetNumber(data[2..], 8).value;
    var send := GetNumber(current.rest, 8).value;
    var jump := GetNumber(send.rest[32..], 4).value;
    var ooo := GetNumber(jump.rest, 4).value;
    var n := GetNumber(ooo.rest, 4).value;
    LinksFit(n.rest, n.value);
  }

  /** Whatever bytes a state was restored from, it is one that can be saved. */
  lemma RestoredPersistable(data: Bytes)
    requires Deserialize(data).Ok? && Deserialize(data).value.Whole?
    ensures Persistable(Deserialize(data).value.state)
  {
    hide GetBytes, Restore, GetChain, PutChain;
    var body := data[1..];
    var vn := GetOptionalNegotiation(body[2..], body[1] % 2 == 1).value;
    if vn.value.Some? {
      var jump := GetNumber(body[2..][2..], 4).value;
      var ooo := GetNumber(jump.rest, 4).value;
      BytesFit(ooo.rest);
    }
    var bytes := GetBytes(vn.rest).value;
    RestoreValid(bytes.value);
    var ch := GetOptionalChain(bytes.rest, body[1] / 2 % 2 == 1).value;
    if ch.value.Some? {
      BytesFit(bytes.rest);
      ChainFits(GetBytes(bytes.rest).value.value);
    }
  }

  // ---------------------------------------------------------------- every state that is reached

  lemma LinksStep(links: seq<Link>, size: nat)
    requires forall l | l in links :: |PutDir(l.send)| + |PutDir(l.recv)| <= size
    ensures |PutLinks(links)| <= if links == [] then 0 else size + |PutLinks(links[1..])|
  {
    hide PutDir;
  }

  lemma LinksSize(links: seq<Link>, size: nat)
    requires |links| <= 3 && forall l | l in links :: |PutDir(l.send)| + |PutDir(l.recv)| <= size
    ensures |PutLinks(links)| <= 3 * size
  {
    hide PutDir, PutLinks;
    LinksStep(links, size);
    if links != [] {
      LinksStep(links[1..], size);
      if |links| > 1 {
        LinksStep(links[1..][1..], size);
        LinksStep([], size);
      }
    }
  }

  lemma LinkSize(c: Crypto, p: Params, link: Link)
    requires LinkSound(c, p, link)
    ensures |PutDir(link.send)| + |PutDir(link.recv)| <= 88 + 36 * p.MaxOOO()
  {
    hide PutDir, NextAt, KeyOf;
    DirSize(link.send);
    DirSize(link.recv);
  }

  /** Three links at most, and in each no more stored keys than allowed. */
  lemma ReachedSize(c: Crypto, s: State)
    requires Regular(s) && s.chain.Some? && ChainSound(c, s.chain.value)
    ensures |PutChain(s.chain.value)| <= 326 + 108 * s.chain.value.params.MaxOOO()
  {
    hide PutDir, PutLinks, LinkSound, BigEndian, InStep;
    var ch := s.chain.value;
    var size := 88 + 36 * ch.params.MaxOOO();
    forall l | l in ch.links
      ensures |PutDir(l.send)| + |PutDir(l.recv)| <= size
    {
      LinkSize(c, ch.params, l);
    }
    InStepLinks(s.v1, ch);
    LinksSize(ch.links, size);
  }

  /** After any calls, whatever arrived, saving and restoring gives the very same state exactly when
      it is persistable. */
  lemma SavesExactly(c: Crypto, vn: Negotiation, calls: seq<Call>)
    requires c.Sizes() && forall k | 0 <= k < |calls| :: Sane(calls[k])
    ensures Regular(NewState(c, vn))
    ensures var s := ApplyAll(c, NewState(c, vn), calls);
      Deserialize(Serialize(s)) == Ok(Whole(s)) <==> Persistable(s)
  {
    hide ApplyAll, Serialize, Deserialize, Persistable, Storable, ChainSound, Regular;
    ReachedSound(c, vn, calls);
    var s := ApplyAll(c, NewState(c, vn), calls);
    if Persistable(s) {
      if s.chain.Some? {
        assert s.v1.epoch < 0x1_0000_0000_0000_0000 by { PersistableEpoch(s); }
        ReachedStorable(c, s);
      }
      SerializeRestores(s);
    }
    if Deserialize(Serialize(s)) == Ok(Whole(s)) {
      RestoredPersistable(Serialize(s));
    }
  }

  lemma PersistableEpoch(s: State)
    requires Persistable(s)
    ensures s.v1.epoch < 0x1_0000_0000_0000_0000
  {
  }

  /** With an authentication key, and a bound on stored keys of which three links' worth fits in 32
      bits, that is always so while the epoch is a 64-bit number. */
  lemma AlwaysSaves(c: Crypto, vn: Negotiation, calls: seq<Call>)
    requires c.Sizes() && forall k | 0 <= k < |calls| :: Sane(calls[k])
    requires 0 < |vn.authKey| < WORD && 326 + 108 * vn.params.MaxOOO() < WORD
    ensures Regular(NewState(c, vn))
    ensures var s := ApplyAll(c, NewState(c, vn), calls);
      Deserialize(Serialize(s)) == Ok(Whole(s)) <==> s.v1.epoch < 0x1_0000_0000_0000_0000
  {
    hide ApplyAll, Serialize, Deserialize, Storable, ChainSound, PutChain, Regular;
    SavesExactly(c, vn, calls);
    ReachedSound(c, vn, calls);
    var s := ApplyAll(c, NewState(c, vn), calls);
    if s.chain.Some? {
      ReachedSize(c, s);
    }
  }
}
