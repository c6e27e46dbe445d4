/** From every state of every run some finite schedule of sends and deliveries takes both parties
    into the next epoch. The schedule follows a measure: how far each side has come, and how many
    more distinct chunks its decoder needs. */
module SpqrProgress {
  import opened Words
  import opened Results
  import opened Erasure
  import opened SpqrCrypto
  import opened SpqrStates
  import opened SpqrProtocol

  // ---------------------------------------------------------------- a chunk that helps

  function Deficit(d: Decoder): nat
    requires d.Valid()
  {
    var needed := Count(d.ptsNeeded, 0);
    if |d.points[0]| < needed then needed - |d.points[0]| else 0
  }

  lemma {:induction false} FreshIndex(s: set<Index>, n: nat) returns (t: Index)
    requires |s| < n <= 0x10000
    ensures t !in s && t < n
  {
    t := n - 1;
    if t in s {
      t := FreshIndex(s - {t}, n - 1);
    }
  }

  /** Some chunk either completes the payload or brings the decoder nearer to it. */
  lemma FreshChunk(d: Decoder, payload: Bytes) returns (t: Index)
    requires Partial(d, payload)
    ensures d.Valid()
    ensures var r := AddChunk(d, ChunkOf(payload, t));
      || TryDecode(r) == Ok(Some(payload))
      || (TryDecode(r) == Ok(None) && Deficit(r) < Deficit(d))
  {
    hide Decode, AddChunk, ChunkOf, Holds;
    var s :| Holds(d, payload, s);
    if |s| < ChunksNeeded(|payload|) {
      t := FreshIndex(s, 0x10000);
      PartialAddWith(d, payload, t, s);
      var r := AddChunk(d, ChunkOf(payload, t));
      if TryDecode(r) == Ok(None) {
        ShortHolds(d, payload, s);
        ShortHolds(r, payload, s + {t});
      }
    } else {
      t := 0;
      PartialAddWith(d, payload, t, s);
      SubsetSize(s, s + {t});
    }
  }

  lemma ShortHolds(d: Decoder, payload: Bytes, s: set<Index>)
    requires Encodable(payload) && Holds(d, payload, s) && |s| < ChunksNeeded(|payload|)
    ensures d.Valid() && Deficit(d) == ChunksNeeded(|payload|) - |s|
  {
    hide Curve;
    assert HoldsPoints(d.points[0], Curve(payload, 0), Count(d.ptsNeeded, 0), s);
    SubsetSize(d.points[0].Keys, s);
  }

  lemma DeficitBound(d: Decoder, payload: Bytes)
    requires Partial(d, payload) && |payload| <= 1152
    ensures d.Valid() && Deficit(d) <= 36
  {
    hide Curve;
    var s :| Holds(d, payload, s);
  }

  // ---------------------------------------------------------------- the measure

  predicate HasDecoder(s: V1) {
    s.HeaderSent? || s.EkSentCt1Received? || s.NoHeaderReceived? || s.HeaderReceived? || s.Ct1Sampled? || s.Ct1Acknowledged?
  }

  function Held(s: V1): Decoder
    requires HasDecoder(s)
  {
    match s
    case HeaderSent(_, _, _, _, dec) => dec
    case EkSentCt1Received(_, _, _, _, dec) => dec
    case NoHeaderReceived(_, _, dec) => dec
    case HeaderReceived(_, _, _, dec) => dec
    case Ct1Sampled(_, _, _, _, _, _, dec) => dec
    case Ct1Acknowledged(_, _, _, _, _, dec) => dec
  }

  function Missing(s: V1): nat
    requires s.Valid()
  {
    if HasDecoder(s) then Deficit(Held(s)) else 0
  }

  function Measure(sys: System): nat
    requires sys.a.Valid() && sys.b.Valid()
  {
    200 * (10 - EkRank(sys.a) - CtRank(sys.b)) + Missing(sys.a) + Missing(sys.b)
  }

  lemma MissingBound(c: Crypto, m: Material, sys: System)
    requires c.Lawful() && Typed(sys) && Paired(c, m, sys)
    ensures Missing(sys.a) <= 36 && Missing(sys.b) <= 36
  {
    hide Partial, Deficit, Secrets, EkMessage, CtMessage;
    PayloadSizes(c, m);
    assert Deficit(NewDecoder(96)) <= 36 && Deficit(NewDecoder(1152)) <= 36 by { NewDeficits(); }
    var x, y := sys.a, sys.b;
    if x.HeaderSent? {
      DeficitBound(x.receivingCt1, Encapsulated(c, m).ct1);
    } else if x.EkSentCt1Received? {
      DeficitBound(x.receivingCt2, Ct2Payload(c, m));
    }
    if y.NoHeaderReceived? {
      DeficitBound(y.receivingHdr, HdrPayload(c, m));
    } else if y.Ct1Sampled? || y.Ct1Acknowledged? {
      DeficitBound(y.receivingEk, Made(c, m).ek);
    }
  }

  lemma NewDeficits()
    ensures Deficit(NewDecoder(96)) <= 36 && Deficit(NewDecoder(1152)) <= 36
  {
  }

  // ---------------------------------------------------------------- schedules

  lemma {:induction false} RunConcat(c: Crypto, sys: System, p: seq<Action>, q: seq<Action>)
    requires Typed(sys)
    ensures Run(c, sys, p + q) == Run(c, Run(c, sys, p), q)
    decreases |p|
  {
    hide Do;
    if p == [] {
      assert p + q == q;
    } else {
      assert (p + q)[1..] == p[1..] + q;
      RunConcat(c, Do(c, sys, p[0]), p[1..], q);
    }
  }

  lemma RunOne(c: Crypto, sys: System, act: Action)
    requires Typed(sys)
    ensures Run(c, sys, [act]) == Do(c, sys, act)
  {
    hide Do;
    assert Run(c, Do(c, sys, act), []) == Do(c, sys, act);
  }

  lemma RunTwo(c: Crypto, sys: System, p: Action, q: Action)
    requires Typed(sys)
    ensures Run(c, sys, [p, q]) == Do(c, Do(c, sys, p), q)
  {
    hide Do;
    assert [p, q] == [p] + [q];
    RunConcat(c, sys, [p], [q]);
    RunOne(c, sys, p);
    RunOne(c, Do(c, sys, p), q);
  }

  function SwapAll(acts: seq<Action>): seq<Action> {
    if acts == [] then [] else [SwapAction(acts[0])] + SwapAll(acts[1..])
  }

  lemma {:induction false} SwapRun(c: Crypto, sys: System, acts: seq<Action>)
    requires Typed(sys)
    ensures Run(c, Swap(sys), SwapAll(acts)) == Swap(Run(c, sys, acts))
    decreases |acts|
  {
    hide Do;
    if acts != [] {
      SwapDo(c, sys, acts[0]);
      SwapRun(c, Do(c, sys, acts[0]), acts[1..]);
      assert SwapAll(acts)[1..] == SwapAll(acts[1..]);
    }
  }

  // ---------------------------------------------------------------- reaching a given chunk number

  predicate Sending(s: V1) {
    s.KeysSampled? || s.HeaderSent? || s.Ct1Received? || s.Ct1Sampled? || s.EkReceivedCt1Sampled? || s.Ct2Sampled?
  }

  function Outgoing(s: V1): Encoder
    requires Sending(s)
  {
    match s
    case KeysSampled(_, _, _, _, enc) => enc
    case HeaderSent(_, _, _, enc, _) => enc
    case Ct1Received(_, _, _, _, enc) => enc
    case Ct1Sampled(_, _, _, _, _, enc, _) => enc
    case EkReceivedCt1Sampled(_, _, _, _, _, enc) => enc
    case Ct2Sampled(_, _, enc) => enc
  }

  function WithIdx(s: V1, idx: nat): V1
    requires Sending(s)
  {
    var enc := Encoder(Outgoing(s).msg, idx);
    match s
    case KeysSampled(epoch, auth, ek, dk, _) => KeysSampled(epoch, auth, ek, dk, enc)
    case HeaderSent(epoch, auth, dk, _, dec) => HeaderSent(epoch, auth, dk, enc, dec)
    case Ct1Received(epoch, auth, dk, ct1, _) => Ct1Received(epoch, auth, dk, ct1, enc)
    case Ct1Sampled(epoch, auth, hdr, encaps, ct1, _, dec) => Ct1Sampled(epoch, auth, hdr, encaps, ct1, enc, dec)
    case EkReceivedCt1Sampled(epoch, auth, encaps, ek, ct1, _) => EkReceivedCt1Sampled(epoch, auth, encaps, ek, ct1, enc)
    case Ct2Sampled(epoch, auth, _) => Ct2Sampled(epoch, auth, enc)
  }

  lemma SendingSends(c: Crypto, s: V1)
    requires s.Valid() && Sending(s)
    ensures Encodable(Outgoing(s).msg) && Send(c, s, 0).Ok?
    ensures var r := Send(c, s, 0).value;
      && r.state == WithIdx(s, (Outgoing(s).idx + 1) % 0x1_0000_0000) && r.key == None
      && r.msg.epoch == s.epoch && r.msg.chunk == Some(ChunkOf(Outgoing(s).msg, Outgoing(s).idx % 0x10000))
      && r.msg.kind == (match s case KeysSampled(_, _, _, _, _) => KIND_HDR case HeaderSent(_, _, _, _, _) => KIND_EK
                          case Ct1Received(_, _, _, _, _) => KIND_EK_CT1_ACK case Ct2Sampled(_, _, _) => KIND_CT2 case _ => KIND_CT1)
  {
    hide ChunkOf;
  }

  function Distance(idx: nat, t: Index): nat {
    (t + 0x10000 - idx % 0x10000) % 0x10000
  }

  lemma DistanceStep(idx: nat, t: Index)
    ensures Distance(idx, t) == 0 <==> idx % 0x10000 == t
    ensures Distance(idx, t) > 0 ==> Distance((idx + 1) % 0x1_0000_0000, t) == Distance(idx, t) - 1
  {
    var j := (idx + 1) % 0x1_0000_0000;
    assert j % 0x10000 == (idx % 0x10000 + 1) % 0x10000;
  }

  /** Sending chunks that are all lost until the next one has the number wanted. */
  lemma {:induction false} SpinA(c: Crypto, m: Material, sys: System, t: Index) returns (acts: seq<Action>)
    requires c.Lawful() && Typed(sys) && Paired(c, m, sys) && Sending(sys.a)
    ensures var r := Run(c, sys, acts);
      && Paired(c, m, r) && r.b == sys.b && Sending(r.a)
      && r.a == WithIdx(sys.a, Outgoing(r.a).idx) && Outgoing(r.a).idx % 0x10000 == t
    decreases Distance(Outgoing(sys.a).idx, t)
  {
    hide Paired, Send, ChunkOf, Distance;
    DistanceStep(Outgoing(sys.a).idx, t);
    if Distance(Outgoing(sys.a).idx, t) == 0 {
      acts := [];
    } else {
      SendingSends(c, sys.a);
      var m' := EkSends(c, m, sys, 0);
      var next := DoSendA(c, sys, 0);
      assert Do(c, sys, SendA(0)) == next;
      var rest := SpinA(c, m, next, t);
      acts := [SendA(0)] + rest;
      RunOne(c, sys, SendA(0));
      RunConcat(c, sys, [SendA(0)], rest);
    }
  }

  lemma {:induction false} SpinB(c: Crypto, m: Material, sys: System, t: Index) returns (acts: seq<Action>)
    requires c.Lawful() && Typed(sys) && Paired(c, m, sys) && Sending(sys.b)
    ensures var r := Run(c, sys, acts);
      && Paired(c, m, r) && r.a == sys.a && Sending(r.b)
      && r.b == WithIdx(sys.b, Outgoing(r.b).idx) && Outgoing(r.b).idx % 0x10000 == t
    decreases Distance(Outgoing(sys.b).idx, t)
  {
    hide Paired, Send, ChunkOf, Distance;
    DistanceStep(Outgoing(sys.b).idx, t);
    if Distance(Outgoing(sys.b).idx, t) == 0 {
      acts := [];
    } else {
      SendingSends(c, sys.b);
      var m' := CtSends(c, m, sys, 0);
      var next := Swap(DoSendA(c, Swap(sys), 0));
      assert Do(c, sys, SendB(0)) == next;
      var rest := SpinB(c, m, next, t);
      acts := [SendB(0)] + rest;
      RunOne(c, sys, SendB(0));
      RunConcat(c, sys, [SendB(0)], rest);
    }
  }

  // ---------------------------------------------------------------- one chunk across

  /** The next chunk goes out and arrives. */
  lemma HandOver(c: Crypto, m: Material, sys: System) returns (acts: seq<Action>)
    requires c.Lawful() && Typed(sys) && Paired(c, m, sys) && Sending(sys.a) && !sys.b.Ct2Sampled?
    ensures Encodable(Outgoing(sys.a).msg)
    ensures var r := Run(c, sys, acts);
      var msg := V1Message(m.epoch, EkKind(sys.a), Some(ChunkOf(Outgoing(sys.a).msg, Outgoing(sys.a).idx % 0x10000)));
      && Paired(c, m, r) && Sending(r.a) && r.a == WithIdx(sys.a, Outgoing(r.a).idx)
      && Recv(c, sys.b, msg).Ok? && r.b == Recv(c, sys.b, msg).value.state
  {
    hide ChunkOf, Send, Recv, Paired, Run;
    assert EkSide(c, m, sys.a) && CtSide(c, m, sys.b) by { PairedSides(c, m, sys); }
    SendingSends(c, sys.a);
    var m1 := EkSends(c, m, sys, 0);
    var next := DoSendA(c, sys, 0);
    var msg := Send(c, sys.a, 0).value.msg;
    CtReceivesSameEpoch(c, m, next, msg);
    assert Do(c, sys, SendA(0)) == next;
    RunTwo(c, sys, SendA(0), DeliverToB(msg));
    acts := [SendA(0), DeliverToB(msg)];
  }

  function EkKind(s: V1): Byte {
    if s.KeysSampled? then KIND_HDR else if s.HeaderSent? then KIND_EK else KIND_EK_CT1_ACK
  }

  /** The key sender's chunk number t reaches its peer, which is still in the same epoch. */
  lemma CrossFromA(c: Crypto, m: Material, sys: System, t: Index) returns (acts: seq<Action>)
    requires c.Lawful() && Typed(sys) && Paired(c, m, sys) && Sending(sys.a) && !sys.b.Ct2Sampled?
    ensures Encodable(Outgoing(sys.a).msg)
    ensures var r := Run(c, sys, acts);
      var msg := V1Message(m.epoch, EkKind(sys.a), Some(ChunkOf(Outgoing(sys.a).msg, t)));
      && Paired(c, m, r) && Sending(r.a) && r.a == WithIdx(sys.a, Outgoing(r.a).idx)
      && Recv(c, sys.b, msg).Ok? && r.b == Recv(c, sys.b, msg).value.state
  {
    hide ChunkOf, Recv, Paired, Run;
    var spin := SpinA(c, m, sys, t);
    var there := Run(c, sys, spin);
    var last := HandOver(c, m, there);
    acts := spin + last;
    RunConcat(c, sys, spin, last);
  }

  lemma PairedSides(c: Crypto, m: Material, sys: System)
    requires Paired(c, m, sys)
    ensures EkSide(c, m, sys.a) && CtSide(c, m, sys.b) && Stages(sys.a, sys.b)
  {
  }

  lemma CtReceivesSameEpoch(c: Crypto, m: Material, sys: System, msg: V1Message)
    requires c.Lawful() && Typed(sys) && Paired(c, m, sys) && msg in sys.fromA && msg.epoch == sys.b.epoch
    requires !sys.b.Ct2Sampled?
    ensures Recv(c, sys.b, msg).Ok?
    ensures Paired(c, m, Swap(DoDeliverToA(c, Swap(sys), msg)))
    ensures Swap(DoDeliverToA(c, Swap(sys), msg)).b == Recv(c, sys.b, msg).value.state
  {
    hide Holds, ChunkOf, Decode, AddChunk, NewDecoder, Partial, Secrets, CtMessage, EkMessage, IsChunkOf;
    match sys.b
    case NoHeaderReceived(_, _, _) => CtGetsHdr(c, m, sys, msg);
    case HeaderReceived(_, _, _, _) => assert Swap(DoDeliverToA(c, Swap(sys), msg)) == sys;
    case Ct1Sampled(_, _, _, _, _, _, _) => CtGetsEk(c, m, sys, msg);
    case EkReceivedCt1Sampled(_, _, _, _, _, _) => CtGetsAck(c, m, sys, msg);
    case Ct1Acknowledged(_, _, _, _, _, _) => CtGetsLateEk(c, m, sys, msg);
  }

  /** The ciphertext sender's chunk number t reaches its peer. */
  lemma CrossFromB(c: Crypto, m: Material, sys: System, t: Index) returns (acts: seq<Action>)
    requires c.Lawful() && Typed(sys) && Paired(c, m, sys) && Sending(sys.b)
    ensures Encodable(Outgoing(sys.b).msg)
    ensures var r := Run(c, sys, acts);
      var msg := V1Message(m.epoch, if sys.b.Ct2Sampled? then KIND_CT2 else KIND_CT1, Some(ChunkOf(Outgoing(sys.b).msg, t)));
      && Paired(c, m, r) && Sending(r.b) && r.b == WithIdx(sys.b, Outgoing(r.b).idx)
      && Recv(c, sys.a, msg).Ok? && r.a == Recv(c, sys.a, msg).value.state
  {
    hide ChunkOf, Send, Recv, Paired;
    assert EkSide(c, m, sys.a) && CtSide(c, m, sys.b) by { PairedSides(c, m, sys); }
    var spin := SpinB(c, m, sys, t);
    var s1 := Run(c, sys, spin);
    SendingSends(c, s1.b);
    var m1 := CtSends(c, m, s1, 0);
    var s2 := Swap(DoSendA(c, Swap(s1), 0));
    var msg := Send(c, s1.b, 0).value.msg;
    assert msg in s2.fromB;
    EkReceives(c, m, s2, msg);
    assert Do(c, s1, SendB(0)) == s2;
    RunTwo(c, s1, SendB(0), DeliverToA(msg));
    acts := spin + [SendB(0), DeliverToA(msg)];
    RunConcat(c, sys, spin, [SendB(0), DeliverToA(msg)]);
  }

  // ---------------------------------------------------------------- one step nearer

  ghost predicate Nearer(c: Crypto, m: Material, sys: System, r: System) {
    Typed(sys) && Typed(r) && Paired(c, m, r) && Measure(r) < Measure(sys)
  }

  lemma HigherRankIsNearer(c: Crypto, m: Material, sys: System, r: System)
    requires c.Lawful() && Typed(sys) && Typed(r) && Paired(c, m, r)
    requires EkRank(r.a) + CtRank(r.b) > EkRank(sys.a) + CtRank(sys.b)
    ensures Nearer(c, m, sys, r)
  {
    hide Paired, Missing, EkRank, CtRank;
    MissingBound(c, m, r);
    assert EkRank(r.a) <= 5 && CtRank(r.b) <= 5 by { RankBound(r); }
    assert 200 * (10 - EkRank(r.a) - CtRank(r.b)) <= 200 * (10 - EkRank(sys.a) - CtRank(sys.b)) - 200;
  }

  lemma RankBound(r: System)
    ensures EkRank(r.a) <= 5 && CtRank(r.b) <= 5
  {
  }

  lemma SameProgress(s: V1, idx: nat)
    requires s.Valid() && Sending(s)
    ensures var r := WithIdx(s, idx); r.Valid() && Missing(r) == Missing(s) && EkRank(r) == EkRank(s) && CtRank(r) == CtRank(s)
  {
    hide Deficit;
  }

  /** Keys are generated. */
  lemma NearerKeys(c: Crypto, m: Material, sys: System) returns (acts: seq<Action>, m': Material)
    requires c.Lawful() && Typed(sys) && Paired(c, m, sys) && sys.a.KeysUnsampled?
    ensures m'.epoch == m.epoch && Nearer(c, m', sys, Run(c, sys, acts))
  {
    hide Paired, Missing, Nearer, Run;
    m' := EkSends(c, m, sys, 0);
    acts := [SendA(0)];
    RunOne(c, sys, SendA(0));
    assert Do(c, sys, SendA(0)) == DoSendA(c, sys, 0);
    HigherRankIsNearer(c, m', sys, Run(c, sys, acts));
  }

  /** A chunk of the header arrives. */
  lemma NearerHeader(c: Crypto, m: Material, sys: System) returns (acts: seq<Action>)
    requires c.Lawful() && Typed(sys) && Paired(c, m, sys) && sys.a.KeysSampled? && sys.b.NoHeaderReceived?
    ensures Nearer(c, m, sys, Run(c, sys, acts))
  {
    hide Paired, Run, AddChunk, Decode, ChunkOf, NewDecoder, Partial, HdrPayload, Deficit;
    PairedSides(c, m, sys);
    var t := FreshChunk(sys.b.receivingHdr, HdrPayload(c, m));
    acts := CrossFromA(c, m, sys, t);
    var r := Run(c, sys, acts);
    SameProgress(sys.a, Outgoing(r.a).idx);
    if r.b.HeaderReceived? {
      HigherRankIsNearer(c, m, sys, r);
    }
  }

  /** The first ciphertext is made. */
  lemma NearerCt1(c: Crypto, m: Material, sys: System) returns (acts: seq<Action>, m': Material)
    requires c.Lawful() && Typed(sys) && Paired(c, m, sys) && sys.b.HeaderReceived?
    ensures m'.epoch == m.epoch && Nearer(c, m', sys, Run(c, sys, acts))
  {
    hide Paired, Missing, Nearer, Run;
    m' := CtSends(c, m, sys, 0);
    acts := [SendB(0)];
    RunOne(c, sys, SendB(0));
    assert Do(c, sys, SendB(0)) == Swap(DoSendA(c, Swap(sys), 0));
    HigherRankIsNearer(c, m', sys, Run(c, sys, acts));
  }

  /** A chunk of the first ciphertext arrives. */
  lemma NearerCt1Chunk(c: Crypto, m: Material, sys: System) returns (acts: seq<Action>)
    requires c.Lawful() && Typed(sys) && Paired(c, m, sys)
    requires sys.a.KeysSampled? || sys.a.HeaderSent?
    requires sys.b.Ct1Sampled? || sys.b.EkReceivedCt1Sampled?
    ensures Nearer(c, m, sys, Run(c, sys, acts))
  {
    hide Paired, Run, AddChunk, Decode, ChunkOf, NewDecoder, Partial, Deficit;
    PairedSides(c, m, sys);
    var t := 0;
    if sys.a.HeaderSent? {
      t := FreshChunk(sys.a.receivingCt1, Encapsulated(c, m).ct1);
    }
    acts := CrossFromB(c, m, sys, t);
    var r := Run(c, sys, acts);
    SameProgress(sys.b, Outgoing(r.b).idx);
    if EkRank(r.a) > EkRank(sys.a) {
      HigherRankIsNearer(c, m, sys, r);
    }
  }

  /** A chunk of the encapsulation key arrives, with the acknowledgement of the first ciphertext. */
  lemma NearerEk(c: Crypto, m: Material, sys: System) returns (acts: seq<Action>)
    requires c.Lawful() && Typed(sys) && Paired(c, m, sys) && sys.a.Ct1Received? && !sys.b.Ct2Sampled?
    ensures Nearer(c, m, sys, Run(c, sys, acts))
  {
    hide Paired, Run, AddChunk, Decode, ChunkOf, NewDecoder, Partial, Deficit;
    PairedSides(c, m, sys);
    var t := 0;
    if sys.b.Ct1Sampled? || sys.b.Ct1Acknowledged? {
      t := FreshChunk(sys.b.receivingEk, Made(c, m).ek);
    }
    acts := CrossFromA(c, m, sys, t);
    var r := Run(c, sys, acts);
    SameProgress(sys.a, Outgoing(r.a).idx);
    if CtRank(r.b) > CtRank(sys.b) {
      HigherRankIsNearer(c, m, sys, r);
    }
  }

  /** A chunk of the second ciphertext arrives. */
  lemma NearerCt2(c: Crypto, m: Material, sys: System) returns (acts: seq<Action>)
    requires c.Lawful() && Typed(sys) && Paired(c, m, sys) && (sys.a.Ct1Received? || sys.a.EkSentCt1Received?) && sys.b.Ct2Sampled?
    ensures Nearer(c, m, sys, Run(c, sys, acts))
  {
    hide Paired, Run, AddChunk, Decode, ChunkOf, NewDecoder, Partial, Deficit, FinishCt2, Ct2Payload;
    PairedSides(c, m, sys);
    var t := 0;
    if sys.a.EkSentCt1Received? {
      t := FreshChunk(sys.a.receivingCt2, Ct2Payload(c, m));
    }
    acts := CrossFromB(c, m, sys, t);
    var r := Run(c, sys, acts);
    SameProgress(sys.b, Outgoing(r.b).idx);
    if sys.a.EkSentCt1Received? {
      FinishesCt2(c, m, sys.a);
    }
    if EkRank(r.a) > EkRank(sys.a) {
      HigherRankIsNearer(c, m, sys, r);
    }
  }

  /** The follower hears of the next epoch. */
  lemma LastStep(c: Crypto, m: Material, sys: System) returns (acts: seq<Action>)
    requires c.Lawful() && Typed(sys) && Paired(c, m, sys) && sys.a.NoHeaderReceived?
    ensures var r := Run(c, sys, acts); r.a.epoch == m.epoch + 1 && r.b.epoch == m.epoch + 1
  {
    hide Paired, Run, NewDecoder, Partial;
    PairedSides(c, m, sys);
    var msg := V1Message(sys.a.epoch, KIND_NONE, None);
    acts := [SendA(0), DeliverToB(msg)];
    RunTwo(c, sys, SendA(0), DeliverToB(msg));
  }

  lemma OneStepNearer(c: Crypto, m: Material, sys: System) returns (acts: seq<Action>, m': Material)
    requires c.Lawful() && Typed(sys) && Paired(c, m, sys) && !sys.a.NoHeaderReceived?
    ensures m'.epoch == m.epoch && Nearer(c, m', sys, Run(c, sys, acts))
  {
    hide Paired, Run, NewDecoder, Partial, Nearer;
    PairedSides(c, m, sys);
    m' := m;
    if sys.a.KeysUnsampled? {
      acts, m' := NearerKeys(c, m, sys);
    } else if sys.b.NoHeaderReceived? {
      acts := NearerHeader(c, m, sys);
    } else if sys.b.HeaderReceived? {
      acts, m' := NearerCt1(c, m, sys);
    } else if sys.a.KeysSampled? || sys.a.HeaderSent? {
      acts := NearerCt1Chunk(c, m, sys);
    } else if sys.b.Ct2Sampled? {
      acts := NearerCt2(c, m, sys);
    } else {
      acts := NearerEk(c, m, sys);
    }
  }

  // ---------------------------------------------------------------- the next epoch is always in reach

  lemma {:induction false} PairedReachesNext(c: Crypto, m: Material, sys: System) returns (acts: seq<Action>)
    requires c.Lawful() && Typed(sys) && Paired(c, m, sys)
    ensures var r := Run(c, sys, acts); r.a.epoch == m.epoch + 1 && r.b.epoch == m.epoch + 1
    decreases Measure(sys)
  {
    hide Paired, Run, Measure;
    if sys.a.NoHeaderReceived? {
      acts := LastStep(c, m, sys);
    } else {
      var first, m' := OneStepNearer(c, m, sys);
      var rest := PairedReachesNext(c, m', Run(c, sys, first));
      acts := first + rest;
      RunConcat(c, sys, first, rest);
    }
  }

  /** After every run some continuation takes both parties into the epoch after the earlier of
      their two. */
  lemma NextEpochReachable(c: Crypto, authKey: Bytes, acts: seq<Action>) returns (more: seq<Action>)
    requires c.Lawful()
    ensures var sys := Run(c, Init(c, authKey), acts);
      var r := Run(c, Init(c, authKey), acts + more);
      r.a.epoch == r.b.epoch == (if sys.a.epoch < sys.b.epoch then sys.a.epoch else sys.b.epoch) + 1
  {
    hide Run, Paired;
    var sys := Run(c, Init(c, authKey), acts);
    InvInit(c, authKey);
    InvRun(c, Init(c, authKey), acts);
    var m :| Paired(c, m, sys) || Paired(c, m, Swap(sys));
    if Paired(c, m, sys) {
      more := PairedReachesNext(c, m, sys);
      EarlierEpoch(c, m, sys);
    } else {
      var mirrored := PairedReachesNext(c, m, Swap(sys));
      more := SwapAll(mirrored);
      SwapRun(c, Swap(sys), mirrored);
      EarlierEpoch(c, m, Swap(sys));
    }
    RunConcat(c, Init(c, authKey), acts, more);
  }

  lemma EarlierEpoch(c: Crypto, m: Material, sys: System)
    requires Paired(c, m, sys)
    ensures m.epoch == if sys.a.epoch < sys.b.epoch then sys.a.epoch else sys.b.epoch
  {
    hide Partial, NewDecoder, Secrets;
  }

  /** So every epoch is reachable. */
  lemma {:induction false} EveryEpochReachable(c: Crypto, authKey: Bytes, e: nat) returns (acts: seq<Action>)
    requires c.Lawful() && e >= 1
    ensures var r := Run(c, Init(c, authKey), acts); r.a.epoch == r.b.epoch == e
  {
    acts := [];
    if e > 1 {
      hide Run;
      acts := EveryEpochReachable(c, authKey, e - 1);
      var more := NextEpochReachable(c, authKey, acts);
      acts := acts + more;
    }
  }
}
