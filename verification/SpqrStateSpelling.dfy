/** Which bytes restore an epoch chain (spqr/chain.go) and the whole state around it (spqr/state.go):
    exactly those that spell it. */
module SpqrStateSpelling {
  import opened Words
  import opened Results
  import opened Erasure
  import opened Codec
  import opened Spelling
  import opened SpqrCrypto
  import opened SpqrStates
  import opened SpqrHistory
  import opened SpqrChain
  import opened SpqrState
  import opened SpqrCodec
  import opened SpqrChainCodec
  import opened SpqrStateCodec
  import V = SpqrSpelling

  type Keys = seq<(nat, Bytes)>

  // ---------------------------------------------------------------- one direction

  function SpelledDir(d: Dir, keys: Keys): Bytes {
    BigEndian(d.ctr, 4) + (PutBytes(d.next) + (BigEndian(|keys|, 4) + PutList(keys, PutStored)))
  }

  ghost predicate DirFits(d: Dir, keys: Keys) {
    && d.ctr < WORD && |d.next| < WORD && |keys| < WORD && d.prev == MapOf(keys, map[])
    && (forall e | e in keys :: e.0 < WORD && |e.1| == 32)
  }

  lemma StoredWritten()
    ensures WrittenBack(PutStored, GetStored)
  {
    hide BigEndian, GetNumber, ReadsBack;
    forall data: Bytes | GetStored(data).Ok?
      ensures var r := GetStored(data).value;
        data == PutStored(r.value.0, r.value.1) + r.rest && ReadsBack(PutStored, GetStored, r.value.0, r.value.1)
    {
      WordRead(data);
      GetsStored(GetStored(data).value.value.0, GetStored(data).value.value.1);
    }
  }

  lemma KeysSized(keys: Keys)
    requires AllReadBack(PutStored, GetStored, keys)
    ensures forall e | e in keys :: e.0 < WORD && |e.1| == 32
  {
    hide BigEndian, GetNumber;
    forall e | e in keys
      ensures e.0 < WORD && |e.1| == 32
    {
      assert ReadsBack(PutStored, GetStored, e.0, e.1);
      var data := PutStored(e.0, e.1) + [];
      assert GetStored(data) == Ok(Read((e.0, e.1), []));
      WordRead(data);
    }
  }

  lemma DirRead(data: Bytes) returns (keys: Keys)
    requires GetDir(data).Ok?
    ensures var r := GetDir(data).value; data == SpelledDir(r.value, keys) + r.rest && DirFits(r.value, keys)
  {
    hide BigEndian, GetNumber, GetBytes, PutBytes, GetEntries, PutStored, GetStored, AllReadBack, PutList, MapOf;
    var ctr := GetNumber(data, 4).value;
    WordRead(data);
    var next := GetBytes(ctr.rest).value;
    BytesRead(ctr.rest);
    var n := GetNumber(next.rest, 4).value;
    WordRead(next.rest);
    StoredWritten();
    keys := EntriesRead(n.rest, n.value, map[], PutStored, GetStored);
    KeysSized(keys);
  }

  lemma DirRestores(d: Dir, keys: Keys, rest: Bytes)
    requires DirFits(d, keys)
    ensures GetDir(SpelledDir(d, keys) + rest) == Ok(Read(d, rest))
  {
    hide BigEndian, GetNumber, GetBytes, PutBytes, GetEntries, PutStored, GetStored, PutList, MapOf, ReadsBack;
    var t3 := PutList(keys, PutStored) + rest;
    var t2 := BigEndian(|keys|, 4) + t3;
    var t1 := PutBytes(d.next) + t2;
    assert SpelledDir(d, keys) + rest == BigEndian(d.ctr, 4) + t1;
    GetsWord(d.ctr, t1);
    GetsBytes(d.next, t2);
    GetsWord(|keys|, t3);
    forall e | e in keys
      ensures ReadsBack(PutStored, GetStored, e.0, e.1)
    {
      GetsStored(e.0, e.1);
    }
    ListRead(keys, map[], PutStored, GetStored, rest);
  }

  // ---------------------------------------------------------------- the links

  /** The stored keys of a link as they come, for each direction. */
  datatype LinkKeys = LinkKeys(send: Keys, recv: Keys)

  function SpelledLinks(links: seq<Link>, keys: seq<LinkKeys>): Bytes {
    if links == [] || keys == [] then []
    else SpelledDir(links[0].send, keys[0].send) + (SpelledDir(links[0].recv, keys[0].recv) + SpelledLinks(links[1..], keys[1..]))
  }

  ghost predicate LinksFit(links: seq<Link>, keys: seq<LinkKeys>) {
    |links| == |keys| && forall i | 0 <= i < |links| :: DirFits(links[i].send, keys[i].send) && DirFits(links[i].recv, keys[i].recv)
  }

  lemma {:induction false} LinksRead(data: Bytes, n: nat) returns (keys: seq<LinkKeys>)
    requires GetLinks(data, n).Ok?
    ensures var r := GetLinks(data, n).value;
      |r.value| == n && LinksFit(r.value, keys) && data == SpelledLinks(r.value, keys) + r.rest
    decreases n
  {
    hide GetDir, SpelledDir, DirFits;
    if n == 0 {
      keys := [];
      assert SpelledLinks([], keys) + data == data;
    } else {
      var send := DirRead(data);
      var recv := DirRead(GetDir(data).value.rest);
      var r := GetDir(GetDir(data).value.rest).value;
      var more := LinksRead(r.rest, n - 1);
      keys := [LinkKeys(send, recv)] + more;
      var links := GetLinks(data, n).value.value;
      assert keys[1..] == more && links[1..] == GetLinks(r.rest, n - 1).value.value;
    }
  }

  lemma {:induction false} LinksRestore(links: seq<Link>, keys: seq<LinkKeys>, rest: Bytes)
    requires LinksFit(links, keys)
    ensures GetLinks(SpelledLinks(links, keys) + rest, |links|) == Ok(Read(links, rest))
    decreases |links|
  {
    hide GetDir, SpelledDir, DirFits;
    if links == [] {
      assert SpelledLinks(links, keys) + rest == rest;
    } else {
      var tail := SpelledLinks(links[1..], keys[1..]) + rest;
      var mid := SpelledDir(links[0].recv, keys[0].recv) + tail;
      assert SpelledLinks(links, keys) + rest == SpelledDir(links[0].send, keys[0].send) + mid;
      DirRestores(links[0].send, keys[0].send, mid);
      DirRestores(links[0].recv, keys[0].recv, tail);
      LinksRestore(links[1..], keys[1..], rest);
      assert [links[0]] + links[1..] == links;
    }
  }

  // ---------------------------------------------------------------- the chain

  /** A direction byte other than 1 stands for A2B. */
  datatype ChainExtras = ChainExtras(dir: Byte, keys: seq<LinkKeys>)

  function SpelledChain(ch: Chain, x: ChainExtras): Bytes {
    [CHAIN_VERSION, x.dir] + (BigEndian(ch.currentEpoch, 8) + (BigEndian(ch.sendEpoch, 8) + (ch.nextRoot +
      SpelledTail(Tail(ch.params, ch.links), x.keys))))
  }

  function SpelledTail(t: Tail, keys: seq<LinkKeys>): Bytes {
    BigEndian(t.params.maxJump, 4) + (BigEndian(t.params.maxOOO, 4) + (BigEndian(|t.links|, 4) + SpelledLinks(t.links, keys)))
  }

  ghost predicate ChainFits(ch: Chain, x: ChainExtras) {
    && (ch.dir == B2A <==> x.dir == 1)
    && ch.currentEpoch < 0x1_0000_0000_0000_0000 && ch.sendEpoch < 0x1_0000_0000_0000_0000 && |ch.nextRoot| == 32
    && |ch.links| < WORD && LinksFit(ch.links, x.keys)
  }

  lemma TailRead(data: Bytes) returns (keys: seq<LinkKeys>)
    requires GetTail(data).Ok?
    ensures var t := GetTail(data).value; |t.links| < WORD && LinksFit(t.links, keys) && data == SpelledTail(t, keys)
  {
    hide BigEndian, GetNumber, GetLinks, SpelledLinks, DirFits;
    var jump := GetNumber(data, 4).value;
    var ooo := GetNumber(jump.rest, 4).value;
    var n := GetNumber(ooo.rest, 4).value;
    WordRead(data);
    WordRead(jump.rest);
    WordRead(ooo.rest);
    keys := LinksRead(n.rest, n.value);
    var links := GetLinks(n.rest, n.value).value.value;
    assert SpelledLinks(links, keys) + [] == SpelledLinks(links, keys);
  }

  lemma TailRestores(t: Tail, keys: seq<LinkKeys>)
    requires |t.links| < WORD && LinksFit(t.links, keys)
    ensures GetTail(SpelledTail(t, keys)) == Ok(t)
  {
    hide BigEndian, GetNumber, GetLinks, SpelledLinks, DirFits;
    var t3 := SpelledLinks(t.links, keys);
    var t2 := BigEndian(|t.links|, 4) + t3;
    var t1 := BigEndian(t.params.maxOOO, 4) + t2;
    GetsWord(t.params.maxJump, t1);
    GetsWord(t.params.maxOOO, t2);
    GetsWord(|t.links|, t3);
    LinksRestore(t.links, keys, []);
    assert t3 + [] == t3;
  }

  lemma ChainRead(data: Bytes) returns (x: ChainExtras)
    requires GetChain(data).Ok?
    ensures ChainFits(GetChain(data).value, x) && data == SpelledChain(GetChain(data).value, x)
  {
    hide BigEndian, GetNumber, GetTail, SpelledTail, LinksFit, Pow256;
    var current := GetNumber(data[2..], 8).value;
    var send := GetNumber(current.rest, 8).value;
    NumberRead(data[2..], 8);
    NumberRead(current.rest, 8);
    Widths();
    var keys := TailRead(send.rest[32..]);
    x := ChainExtras(data[1], keys);
    assert data == [data[0], data[1]] + data[2..];
    assert send.rest == send.rest[..32] + send.rest[32..];
  }

  lemma ChainRestores(ch: Chain, x: ChainExtras)
    requires ChainFits(ch, x)
    ensures GetChain(SpelledChain(ch, x)) == Ok(ch)
  {
    hide BigEndian, GetNumber, GetTail, SpelledTail, DirFits;
    var t3 := SpelledTail(Tail(ch.params, ch.links), x.keys);
    var t2 := ch.nextRoot + t3;
    var t1 := BigEndian(ch.sendEpoch, 8) + t2;
    var data := SpelledChain(ch, x);
    assert data[2..] == BigEndian(ch.currentEpoch, 8) + t1;
    GetsWord(ch.currentEpoch, t1);
    GetsWord(ch.sendEpoch, t2);
    assert t2[..32] == ch.nextRoot && t2[32..] == t3;
    TailRestores(Tail(ch.params, ch.links), x.keys);
  }

  // ---------------------------------------------------------------- the container

  /** What bytes may say beside a stored value: bits of the flags that are not looked at, a version byte
      in the old form, an empty chain, and the extras of the parts. */
  datatype Extras = Extras(flags: Byte, v1: V.Extras, chain: ChainExtras)

  function SpelledOptionalChain(chain: Option<Chain>, present: bool, x: ChainExtras): Bytes {
    if !present then [] else PutBytes(if chain.Some? then SpelledChain(chain.value, x) else [])
  }

  ghost predicate OptionalChainFits(chain: Option<Chain>, present: bool, x: ChainExtras) {
    chain.Some? ==> present && ChainFits(chain.value, x) && |SpelledChain(chain.value, x)| < WORD
  }

  lemma OptionalChainRead(data: Bytes, present: bool) returns (x: ChainExtras)
    requires GetOptionalChain(data, present).Ok?
    ensures var r := GetOptionalChain(data, present).value;
      && OptionalChainFits(r.value, present, x)
      && data == SpelledOptionalChain(r.value, present, x) + r.rest
  {
    hide GetBytes, PutBytes, GetChain, SpelledChain, ChainFits;
    x := ChainExtras(0, []);
    if present {
      BytesRead(data);
      var bytes := GetBytes(data).value.value;
      if bytes != [] {
        x := ChainRead(bytes);
      }
    } else {
      assert [] + data == data;
    }
  }

  lemma OptionalChainRestores(chain: Option<Chain>, present: bool, x: ChainExtras)
    requires OptionalChainFits(chain, present, x)
    ensures GetOptionalChain(SpelledOptionalChain(chain, present, x), present) == Ok(Read(chain, []))
  {
    hide GetBytes, PutBytes, GetChain, ChainFits;
    if present {
      var bytes := if chain.Some? then SpelledChain(chain.value, x) else [];
      GetsBytes(bytes, []);
      assert PutBytes(bytes) + [] == PutBytes(bytes);
      if chain.Some? {
        ChainRestores(chain.value, x);
      }
    }
  }

  lemma NegotiationRead(data: Bytes)
    requires GetNegotiation(data).Ok?
    ensures var r := GetNegotiation(data).value; 0 < |r.value.authKey| < WORD && data == PutNegotiation(r.value) + r.rest
  {
    hide BigEndian, GetNumber, GetBytes, PutBytes;
    var jump := GetNumber(data[2..], 4).value;
    var ooo := GetNumber(jump.rest, 4).value;
    WordRead(data[2..]);
    WordRead(jump.rest);
    BytesRead(ooo.rest);
    assert data == [data[0], data[1]] + data[2..];
  }

  function SpelledNegotiation(vn: Option<Negotiation>): Bytes {
    if vn.Some? then PutNegotiation(vn.value) else []
  }

  /** A state, with the low flag saying whether a negotiation is there and the next whether a chain may be. */
  function SpelledState(s: State, x: Extras): Bytes {
    [CURRENT, VERSION_1, x.flags] + (SpelledNegotiation(s.negotiation) + (PutBytes(V.Spelled(s.v1, x.v1)) +
      SpelledOptionalChain(s.chain, x.flags / 2 % 2 == 1, x.chain)))
  }

  ghost predicate StateFits(s: State, x: Extras) {
    && (x.flags % 2 == 1 <==> s.negotiation.Some?)
    && (s.negotiation.Some? ==> 0 < |s.negotiation.value.authKey| < WORD)
    && V.Fits(s.v1, x.v1) && |V.Spelled(s.v1, x.v1)| < WORD
    && OptionalChainFits(s.chain, x.flags / 2 % 2 == 1, x.chain)
  }

  ghost predicate Spells(data: Bytes, stored: Stored) {
    match stored
    case Nothing => data == []
    case ChainOnly(chain) => exists x: Extras :: OptionalChainFits(chain, true, x.chain) && data == [LEGACY, x.flags] + SpelledOptionalChain(chain, true, x.chain)
    case Whole(s) => exists x: Extras :: StateFits(s, x) && data == SpelledState(s, x)
  }

  lemma OptionalNegotiationRead(data: Bytes, present: bool)
    requires GetOptionalNegotiation(data, present).Ok?
    ensures var r := GetOptionalNegotiation(data, present).value;
      && data == SpelledNegotiation(r.value) + r.rest && (r.value.Some? <==> present)
      && (r.value.Some? ==> 0 < |r.value.value.authKey| < WORD)
  {
    hide GetNegotiation, PutNegotiation;
    if present {
      NegotiationRead(data);
    } else {
      assert [] + data == data;
    }
  }

  lemma OptionalNegotiationRestores(vn: Option<Negotiation>, rest: Bytes)
    requires vn.Some? ==> 0 < |vn.value.authKey| < WORD
    ensures GetOptionalNegotiation(SpelledNegotiation(vn) + rest, vn.Some?) == Ok(Read(vn, rest))
  {
    hide GetNegotiation, PutNegotiation;
    if vn.Some? {
      GetsNegotiation(vn.value, rest);
    } else {
      assert [] + rest == rest;
    }
  }

  lemma StateRead(data: Bytes) returns (x: Extras)
    requires GetCurrent(data).Ok?
    ensures GetCurrent(data).value.Whole?
    ensures var s := GetCurrent(data).value.state; StateFits(s, x) && [CURRENT] + data == SpelledState(s, x)
  {
    hide GetOptionalNegotiation, SpelledNegotiation, GetBytes, PutBytes, Restore, V.Fits, V.Spelled, GetOptionalChain;
    hide SpelledOptionalChain, ChainFits, SpelledChain;
    var flags := data[1];
    OptionalNegotiationRead(data[2..], flags % 2 == 1);
    var vn := GetOptionalNegotiation(data[2..], flags % 2 == 1).value;
    BytesRead(vn.rest);
    var bytes := GetBytes(vn.rest).value;
    var v1 := V.SpellingRead(bytes.value);
    var chain := OptionalChainRead(bytes.rest, flags / 2 % 2 == 1);
    x := Extras(flags, v1, chain);
    var ch := GetOptionalChain(bytes.rest, flags / 2 % 2 == 1).value.value;
    assert SpelledOptionalChain(ch, flags / 2 % 2 == 1, chain) + [] == SpelledOptionalChain(ch, flags / 2 % 2 == 1, chain);
    assert [CURRENT] + data == [CURRENT, data[0], data[1]] + data[2..];
  }

  lemma StateRestores(s: State, x: Extras)
    requires StateFits(s, x)
    ensures Deserialize(SpelledState(s, x)) == Ok(Whole(s))
  {
    hide GetOptionalNegotiation, SpelledNegotiation, GetBytes, PutBytes, Restore, V.Fits, V.Spelled, GetOptionalChain;
    hide SpelledOptionalChain, ChainFits, SpelledChain;
    var t2 := SpelledOptionalChain(s.chain, x.flags / 2 % 2 == 1, x.chain);
    var t1 := PutBytes(V.Spelled(s.v1, x.v1)) + t2;
    var data := SpelledState(s, x)[1..];
    assert data == [VERSION_1, x.flags] + (SpelledNegotiation(s.negotiation) + t1);
    assert data[2..] == SpelledNegotiation(s.negotiation) + t1;
    OptionalNegotiationRestores(s.negotiation, t1);
    GetsBytes(V.Spelled(s.v1, x.v1), t2);
    V.SpellingRestores(s.v1, x.v1);
    OptionalChainRestores(s.chain, x.flags / 2 % 2 == 1, x.chain);
  }

  lemma LegacyRead(data: Bytes) returns (x: Extras)
    requires GetLegacy(data).Ok?
    ensures GetLegacy(data).value.ChainOnly?
    ensures var chain := GetLegacy(data).value.chain;
      OptionalChainFits(chain, true, x.chain) && [LEGACY] + data == [LEGACY, x.flags] + SpelledOptionalChain(chain, true, x.chain)
  {
    hide GetOptionalChain, SpelledOptionalChain, ChainFits, SpelledChain;
    var chain := OptionalChainRead(data[1..], true);
    x := Extras(data[0], V.Extras([], 0, []), chain);
    var ch := GetLegacy(data).value.chain;
    assert SpelledOptionalChain(ch, true, chain) + [] == SpelledOptionalChain(ch, true, chain);
    assert [LEGACY] + data == [LEGACY, data[0]] + data[1..];
  }

  lemma LegacyRestores(chain: Option<Chain>, x: Extras)
    requires OptionalChainFits(chain, true, x.chain)
    ensures Deserialize([LEGACY, x.flags] + SpelledOptionalChain(chain, true, x.chain)) == Ok(ChainOnly(chain))
  {
    hide GetOptionalChain, SpelledOptionalChain, ChainFits, SpelledChain;
    OptionalChainRestores(chain, true, x.chain);
    var data := [LEGACY, x.flags] + SpelledOptionalChain(chain, true, x.chain);
    assert data[1..][1..] == SpelledOptionalChain(chain, true, x.chain);
  }

  /** Bytes restore a state, a chain alone or nothing exactly when they spell it. */
  lemma RestoresExactly(data: Bytes, stored: Stored)
    ensures Deserialize(data) == Ok(stored) <==> Spells(data, stored)
  {
    if Deserialize(data) == Ok(stored) {
      StoredRead(data);
    } else if Spells(data, stored) {
      SpelledReads(data, stored);
      assert false;
    }
  }

  lemma StoredRead(data: Bytes)
    requires Deserialize(data).Ok?
    ensures Spells(data, Deserialize(data).value)
  {
    hide GetLegacy, GetCurrent, SpelledState, StateFits, OptionalChainFits, SpelledOptionalChain;
    if data != [] && data[0] == LEGACY {
      var x := LegacyRead(data[1..]);
      assert data == [LEGACY] + data[1..];
    } else if data != [] {
      var x := StateRead(data[1..]);
      assert data == [CURRENT] + data[1..];
    }
  }

  lemma SpelledReads(data: Bytes, stored: Stored)
    requires Spells(data, stored)
    ensures Deserialize(data) == Ok(stored)
  {
    hide Deserialize, SpelledState, StateFits, OptionalChainFits, SpelledOptionalChain;
    match stored
    case Nothing => NothingReads();
    case ChainOnly(chain) =>
      var x: Extras :| OptionalChainFits(chain, true, x.chain) && data == [LEGACY, x.flags] + SpelledOptionalChain(chain, true, x.chain);
      LegacyRestores(chain, x);
    case Whole(s) =>
      var x: Extras :| StateFits(s, x) && data == SpelledState(s, x);
      StateRestores(s, x);
  }

  lemma NothingReads()
    ensures Deserialize([]) == Ok(Nothing)
  {
  }
}
