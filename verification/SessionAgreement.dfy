/** Whole sessions: the Double Ratchet and the post-quantum ratchet together, as
    session/wire_cipher.go drives them. A message key and a salt open a message; both ends have
    them, so what arrives is what was sent. */
module SessionAgreement {
  import opened Words
  import opened Results
  import R = Ratchet
  import RA = RatchetAgreement
  import opened SpqrCrypto
  import opened SpqrStates
  import opened SpqrHistory
  import opened SpqrChain
  import opened SpqrState
  import opened SpqrVersion
  import opened SpqrSystem

  // ---------------------------------------------------------------- one session

  datatype Session = Session(ratchet: R.State, pqr: Pq)

  /** What goes over the wire. */
  datatype SignalMessage = SignalMessage(header: R.Header, pq: Field, body: Bytes, tag: Bytes)

  /** The cipher and the tag, under keys derived from a message key and a salt. */
  datatype Suite = Suite(
    seal: (R.Key, Option<Bytes>, Bytes) -> Bytes,
    open: (R.Key, Option<Bytes>, Bytes) -> Option<Bytes>,
    tag: (R.Key, Option<Bytes>, R.Header, Field, Bytes) -> Bytes)
  {
    ghost predicate Lawful() {
      forall k, s, p :: open(k, s, seal(k, s, p)) == Some(p)
    }
  }

  datatype Tools = Tools(ratchet: R.Crypto, pq: Crypto, suite: Suite)
  {
    ghost predicate Lawful() {
      ratchet.Lawful() && pq.Lawful() && suite.Lawful()
    }
  }

  datatype Failure = RatchetFailed(why: R.Error) | PqFailed(reason: PqError) | CloneFailed | InvalidTag | Unreadable

  datatype Encrypted = Encrypted(session: Session, msg: SignalMessage, key: R.Key, salt: Option<Bytes>)

  function Encrypt(t: Tools, s: Session, plain: Bytes, coin: nat): Result<Encrypted, Failure>
    requires s.pqr.Valid()
  {
    match R.NextSendingMessageKey(t.ratchet, s.ratchet)
    case Err(e) => Err(RatchetFailed(e))
    case Ok(sent) =>
      match SendPq(t.pq, s.pqr, coin)
      case Err(e) => Err(PqFailed(e))
      case Ok(pq) =>
        var body := t.suite.seal(sent.key, pq.salt, plain);
        var tag := t.suite.tag(sent.key, pq.salt, sent.header, pq.field, body);
        Ok(Encrypted(Session(sent.state, pq.pq), SignalMessage(sent.header, pq.field, body, tag), sent.key, pq.salt))
  }

  datatype Opened = Opened(session: Session, plain: Bytes)

  /** Both ratchets step on copies; they are kept only if the tag is right and the body opens. */
  function Decrypt(t: Tools, s: Session, m: SignalMessage, gen: R.Key): (r: Result<Opened, Failure>)
    requires s.pqr.Valid() && m.pq.Typed()
    ensures r.Ok? ==> r.value.session.pqr.Valid()
  {
    match R.AdvanceForHeader(t.ratchet, s.ratchet, m.header, gen)
    case Err(e) => Err(RatchetFailed(e))
    case Ok(a) =>
      match ReceivePq(t.pq, s.pqr, m.pq)
      case Err(e) => Err(PqFailed(e))
      case Ok(r) =>
        if m.tag != t.suite.tag(a.key, r.salt, m.header, m.pq, m.body) then Err(InvalidTag)
        else
          match t.suite.open(a.key, r.salt, m.body)
          case None => Err(Unreadable)
          case Some(plain) => Ok(Opened(Session(a.state, r.pq), plain))
  }

  /** Whoever made the message: if it is read, both ratchets took it, it carries the tag of its own header,
      post-quantum field and body under the key and salt they gave, and its body opens under those. */
  lemma ReadIsTagged(t: Tools, s: Session, m: SignalMessage, gen: R.Key)
    requires s.pqr.Valid() && m.pq.Typed()
    ensures Decrypt(t, s, m, gen).Ok? <==>
      var a, r := R.AdvanceForHeader(t.ratchet, s.ratchet, m.header, gen), ReceivePq(t.pq, s.pqr, m.pq);
      && a.Ok? && r.Ok?
      && m.tag == t.suite.tag(a.value.key, r.value.salt, m.header, m.pq, m.body)
      && t.suite.open(a.value.key, r.value.salt, m.body).Some?
  {
    hide R.AdvanceForHeader, ReceivePq;
  }

  /** Two different inputs of the tag with the same tag. */
  ghost predicate TagCollides(u: Suite, k: R.Key, salt: Option<Bytes>, m: SignalMessage, k': R.Key, salt': Option<Bytes>, m': SignalMessage) {
    && (k, salt, m.header, m.pq, m.body) != (k', salt', m'.header, m'.pq, m'.body)
    && u.tag(k, salt, m.header, m.pq, m.body) == u.tag(k', salt', m'.header, m'.pq, m'.body)
  }

  /** A message that is read under the tag of one that was sent is that message, or two inputs of the tag
      have the same tag. */
  lemma NoForgedMessage(t: Tools, s: Session, plain: Bytes, coin: nat, r: Session, m: SignalMessage, gen: R.Key)
    requires s.pqr.Valid() && r.pqr.Valid() && m.pq.Typed()
    requires Encrypt(t, s, plain, coin).Ok? && Decrypt(t, r, m, gen).Ok? && m.tag == Encrypt(t, s, plain, coin).value.msg.tag
    ensures var e := Encrypt(t, s, plain, coin).value;
      || m == e.msg
      || TagCollides(t.suite, e.key, e.salt, e.msg, R.AdvanceForHeader(t.ratchet, r.ratchet, m.header, gen).value.key,
                     ReceivePq(t.pq, r.pqr, m.pq).value.salt, m)
  {
    hide R.AdvanceForHeader, ReceivePq, SendPq;
    ReadIsTagged(t, r, m, gen);
  }

  // ---------------------------------------------------------------- two sessions

  /** A message that was sent, with what the sender knew. */
  datatype Posted = Posted(msg: SignalMessage, plain: Bytes, logged: RA.Logged, wire: Wire)

  datatype Joint = Joint(r: RA.System, f: Full, outA: set<Posted>, outB: set<Posted>)

  datatype Move = PostA(plain: Bytes, coin: nat) | PostB(plain: Bytes, coin: nat) | ReadA(p: Posted, gen: R.Key) | ReadB(p: Posted, gen: R.Key)

  function SessionA(j: Joint): Session {
    Session(j.r.a, With(j.f.a))
  }

  function SessionB(j: Joint): Session {
    Session(j.r.b, With(j.f.b))
  }

  function Post(e: Encrypted, plain: Bytes, h: RA.History, dhs: Option<R.Key>): Posted
    requires e.msg.pq.Part?
  {
    Posted(e.msg, plain, RA.Logged(e.msg.header, e.key, RA.Index(h, dhs)), Wire(e.msg.pq.msg, e.msg.pq.index, e.salt))
  }

  ghost predicate JointTyped(j: Joint) {
    && FullTyped(j.f)
    && (forall p | p in j.outA + j.outB :: p.msg.pq.Typed())
  }

  ghost function Make(t: Tools, j: Joint, move: Move): (r: Joint)
    requires JointTyped(j)
    ensures JointTyped(r)
  {
    match move
    case PostA(plain, coin) =>
      var e := Encrypt(t, SessionA(j), plain, coin);
      if e.Err? then j
      else j.(r := RA.Do(t.ratchet, j.r, RA.SendA), f := FullDo(t.pq, j.f, StepSendA(coin)),
              outA := j.outA + {Post(e.value, plain, j.r.h, j.r.a.dhs)})
    case PostB(plain, coin) =>
      var e := Encrypt(t, SessionB(j), plain, coin);
      if e.Err? then j
      else j.(r := RA.Do(t.ratchet, j.r, RA.SendB), f := FullDo(t.pq, j.f, StepSendB(coin)),
              outB := j.outB + {Post(e.value, plain, j.r.h, j.r.b.dhs)})
    case ReadA(p, gen) =>
      if p !in j.outB || !RA.Fresh(t.ratchet, j.r.h, gen) || Decrypt(t, SessionA(j), p.msg, gen).Err? then j
      else j.(r := RA.Do(t.ratchet, j.r, RA.ToA(p.logged, gen)), f := FullDo(t.pq, j.f, StepToA(p.wire)))
    case ReadB(p, gen) =>
      if p !in j.outA || !RA.Fresh(t.ratchet, j.r.h, gen) || Decrypt(t, SessionB(j), p.msg, gen).Err? then j
      else j.(r := RA.Do(t.ratchet, j.r, RA.ToB(p.logged, gen)), f := FullDo(t.pq, j.f, StepToB(p.wire)))
  }

  // ---------------------------------------------------------------- the invariant

  ghost predicate PostedRight(t: Tools, p: Posted) {
    && p.msg.header == p.logged.header && p.msg.pq == Part(p.wire.msg, p.wire.index)
    && p.msg.body == t.suite.seal(p.logged.key, p.wire.salt, p.plain)
    && p.msg.tag == t.suite.tag(p.logged.key, p.wire.salt, p.msg.header, p.msg.pq, p.msg.body)
  }

  ghost predicate OutRight(t: Tools, out: set<Posted>, logs: set<RA.Logged>, wires: set<Wire>) {
    forall p | p in out :: PostedRight(t, p) && p.logged in logs && p.wire in wires
  }

  ghost predicate JointInv(t: Tools, ka: Negotiation, kb: Negotiation, j: Joint) {
    && RA.Inv(t.ratchet, j.r)
    && FullInv(t.pq, ka, kb, j.f)
    && OutRight(t, j.outA, j.r.fromA, j.f.fromA)
    && OutRight(t, j.outB, j.r.fromB, j.f.fromB)
  }

  function Flip(j: Joint): Joint {
    Joint(RA.System(j.r.b, j.r.a, j.r.h, j.r.fromB, j.r.fromA), Mirror(j.f), j.outB, j.outA)
  }

  lemma FlipTyped(j: Joint)
    requires JointTyped(j)
    ensures JointTyped(Flip(j))
  {
  }

  /** Sending adds the message to what was sent; the logs underneath only grow. */
  lemma PostRight(t: Tools, j: Joint, plain: Bytes, coin: nat)
    requires JointTyped(j) && Encrypt(t, SessionA(j), plain, coin).Ok?
    ensures var p := Post(Encrypt(t, SessionA(j), plain, coin).value, plain, j.r.h, j.r.a.dhs);
      && PostedRight(t, p)
      && RA.Do(t.ratchet, j.r, RA.SendA).fromA == j.r.fromA + {p.logged} && RA.Do(t.ratchet, j.r, RA.SendA).fromB == j.r.fromB
      && FullSendA(t.pq, j.f, coin).fromA == j.f.fromA + {p.wire} && FullSendA(t.pq, j.f, coin).fromB == j.f.fromB
  {
    hide SendState;
  }

  lemma PostAStep(t: Tools, ka: Negotiation, kb: Negotiation, j: Joint, plain: Bytes, coin: nat)
    requires t.Lawful() && JointInv(t, ka, kb, j) && JointTyped(j) && NoneWrapped(Make(t, j, PostA(plain, coin)).f)
    ensures JointInv(t, ka, kb, Make(t, j, PostA(plain, coin)))
  {
    hide RA.Inv, FullInv, RA.Do, FullSendA, Encrypt, NoneWrapped;
    RA.InvStep(t.ratchet, j.r, RA.SendA);
    if Encrypt(t, SessionA(j), plain, coin).Ok? {
      FullStep(t.pq, ka, kb, j.f, StepSendA(coin));
      PostRight(t, j, plain, coin);
    }
  }

  lemma PostBStep(t: Tools, ka: Negotiation, kb: Negotiation, j: Joint, plain: Bytes, coin: nat)
    requires t.Lawful() && JointInv(t, ka, kb, j) && JointTyped(j) && NoneWrapped(Make(t, j, PostB(plain, coin)).f)
    ensures JointInv(t, ka, kb, Make(t, j, PostB(plain, coin)))
  {
    hide RA.Inv, FullInv, RA.Do, FullSendA, Encrypt, NoneWrapped;
    RA.InvStep(t.ratchet, j.r, RA.SendB);
    if Encrypt(t, SessionB(j), plain, coin).Ok? {
      FullStep(t.pq, ka, kb, j.f, StepSendB(coin));
      assert JointTyped(Flip(j)) by { FlipTyped(j); }
      PostRight(t, Flip(j), plain, coin);
      FlipSends(t, j);
    }
  }

  lemma FlipSends(t: Tools, j: Joint)
    ensures var r, q := RA.Do(t.ratchet, j.r, RA.SendB), RA.Do(t.ratchet, Flip(j).r, RA.SendA);
      r.a == q.b && r.b == q.a && r.fromA == q.fromB && r.fromB == q.fromA
  {
  }

  /** Reading changes no log. */
  lemma ReadKeepsLogs(t: Tools, j: Joint, p: Posted, gen: R.Key)
    requires JointTyped(j)
    ensures var r := RA.Do(t.ratchet, j.r, RA.ToA(p.logged, gen)); r.fromA == j.r.fromA && r.fromB == j.r.fromB
    ensures var r := RA.Do(t.ratchet, j.r, RA.ToB(p.logged, gen)); r.fromA == j.r.fromA && r.fromB == j.r.fromB
    ensures var f := FullDo(t.pq, j.f, StepToA(p.wire)); f.fromA == j.f.fromA && f.fromB == j.f.fromB
    ensures var f := FullDo(t.pq, j.f, StepToB(p.wire)); f.fromA == j.f.fromA && f.fromB == j.f.fromB
  {
    hide ReceiveState, RA.ReceiveOne;
  }

  lemma JointStep(t: Tools, ka: Negotiation, kb: Negotiation, j: Joint, move: Move)
    requires t.Lawful() && JointInv(t, ka, kb, j) && JointTyped(j) && NoneWrapped(Make(t, j, move).f)
    ensures JointInv(t, ka, kb, Make(t, j, move))
  {
    hide RA.Inv, FullInv, RA.Do, FullDo, Decrypt, Encrypt, FullTyped, Unwrapped;
    match move
    case PostA(plain, coin) => PostAStep(t, ka, kb, j, plain, coin);
    case PostB(plain, coin) => PostBStep(t, ka, kb, j, plain, coin);
    case ReadA(p, gen) =>
      RA.InvStep(t.ratchet, j.r, RA.ToA(p.logged, gen));
      ReadKeepsLogs(t, j, p, gen);
      if NoneWrapped(FullDo(t.pq, j.f, StepToA(p.wire))) {
        FullStep(t.pq, ka, kb, j.f, StepToA(p.wire));
      }
    case ReadB(p, gen) =>
      RA.InvStep(t.ratchet, j.r, RA.ToB(p.logged, gen));
      ReadKeepsLogs(t, j, p, gen);
      if NoneWrapped(FullDo(t.pq, j.f, StepToB(p.wire))) {
        FullStep(t.pq, ka, kb, j.f, StepToB(p.wire));
      }
  }

  // ---------------------------------------------------------------- the moves are those of the sessions

  lemma PostIsEncrypt(t: Tools, j: Joint, plain: Bytes, coin: nat)
    requires JointTyped(j) && Encrypt(t, SessionA(j), plain, coin).Ok?
    ensures RA.Do(t.ratchet, j.r, RA.SendA).a == Encrypt(t, SessionA(j), plain, coin).value.session.ratchet
    ensures RA.Do(t.ratchet, j.r, RA.SendA).b == j.r.b
    ensures With(FullSendA(t.pq, j.f, coin).a) == Encrypt(t, SessionA(j), plain, coin).value.session.pqr
    ensures FullSendA(t.pq, j.f, coin).b == j.f.b
  {
    hide SendState;
  }

  lemma ReadIsDecrypt(t: Tools, j: Joint, p: Posted, gen: R.Key)
    requires JointTyped(j) && PostedRight(t, p) && p.logged in j.r.fromB && p.wire in j.f.fromB
    requires RA.Fresh(t.ratchet, j.r.h, gen) && p.msg.pq.Typed() && Decrypt(t, SessionA(j), p.msg, gen).Ok?
    ensures RA.Do(t.ratchet, j.r, RA.ToA(p.logged, gen)).a == Decrypt(t, SessionA(j), p.msg, gen).value.session.ratchet
    ensures RA.Do(t.ratchet, j.r, RA.ToA(p.logged, gen)).b == j.r.b
    ensures With(FullToA(t.pq, j.f, p.wire).a) == Decrypt(t, SessionA(j), p.msg, gen).value.session.pqr
    ensures FullToA(t.pq, j.f, p.wire).b == j.f.b
  {
    hide ReceiveState, R.AdvanceForHeader;
  }

  /** A move of the joint system is a call on one of the two sessions, and leaves that party with the
      session the call returned; a call that fails, and the other party, keep what they had. */
  lemma MovesAreCalls(t: Tools, ka: Negotiation, kb: Negotiation, j: Joint, move: Move)
    requires JointInv(t, ka, kb, j) && JointTyped(j)
    ensures var n := Make(t, j, move);
      match move
      case PostA(plain, coin) =>
        var e := Encrypt(t, SessionA(j), plain, coin);
        SessionA(n) == (if e.Ok? then e.value.session else SessionA(j)) && SessionB(n) == SessionB(j)
      case PostB(plain, coin) =>
        var e := Encrypt(t, SessionB(j), plain, coin);
        SessionB(n) == (if e.Ok? then e.value.session else SessionB(j)) && SessionA(n) == SessionA(j)
      case ReadA(p, gen) =>
        (p in j.outB && RA.Fresh(t.ratchet, j.r.h, gen) ==>
          var d := Decrypt(t, SessionA(j), p.msg, gen);
          SessionA(n) == (if d.Ok? then d.value.session else SessionA(j)) && SessionB(n) == SessionB(j))
      case ReadB(p, gen) =>
        (p in j.outA && RA.Fresh(t.ratchet, j.r.h, gen) ==>
          var d := Decrypt(t, SessionB(j), p.msg, gen);
          SessionB(n) == (if d.Ok? then d.value.session else SessionB(j)) && SessionA(n) == SessionA(j))
  {
    hide RA.Inv, FullInv, RA.Do, FullSendA, FullToA, Decrypt, Encrypt, RA.Fresh;
    match move
    case PostA(plain, coin) =>
      if Encrypt(t, SessionA(j), plain, coin).Ok? {
        PostIsEncrypt(t, j, plain, coin);
      }
    case PostB(plain, coin) =>
      FlipTyped(j);
      if Encrypt(t, SessionB(j), plain, coin).Ok? {
        PostIsEncrypt(t, Flip(j), plain, coin);
        FlipSends(t, j);
      }
    case ReadA(p, gen) =>
      if p in j.outB && RA.Fresh(t.ratchet, j.r.h, gen) && Decrypt(t, SessionA(j), p.msg, gen).Ok? {
        ReadIsDecrypt(t, j, p, gen);
      }
    case ReadB(p, gen) =>
      FlipTyped(j);
      if p in j.outA && RA.Fresh(t.ratchet, j.r.h, gen) && Decrypt(t, SessionB(j), p.msg, gen).Ok? {
        ReadIsDecrypt(t, Flip(j), p, gen);
        FlipReads(t, j, p, gen);
      }
  }

  lemma FlipReads(t: Tools, j: Joint, p: Posted, gen: R.Key)
    ensures var r, q := RA.Do(t.ratchet, j.r, RA.ToB(p.logged, gen)), RA.Do(t.ratchet, Flip(j).r, RA.ToA(p.logged, gen));
      r.a == q.b && r.b == q.a
  {
    hide R.AdvanceForHeader, RA.Fresh;
  }

  // ---------------------------------------------------------------- every run

  /** What the two sides start from: matching key agreements and the same authentication key. */
  datatype Setup = Setup(xa: R.Agreed, xb: R.Agreed, genA: R.Key, genB: R.Key, ka: Negotiation, kb: Negotiation)

  ghost predicate Proper(t: Tools, u: Setup) {
    && RA.Matching(t.ratchet, u.xa, u.xb) && RA.FreshStart(t.ratchet, u.xb, u.genA, u.genB)
    && R.StartInitiator(t.ratchet, u.xa, u.genA).Ok? && R.StartResponder(t.ratchet, u.xb, u.genB, u.genB).Ok?
    && Opposite(u.ka, u.kb)
  }

  function Begin(t: Tools, u: Setup): (j: Joint)
    requires u.xb.localRatchet.Some? && u.xa.localEphemeral.Some?
    requires R.StartInitiator(t.ratchet, u.xa, u.genA).Ok? && R.StartResponder(t.ratchet, u.xb, u.genB, u.genB).Ok?
    ensures JointTyped(j)
  {
    Joint(RA.System(R.StartInitiator(t.ratchet, u.xa, u.genA).value, R.StartResponder(t.ratchet, u.xb, u.genB, u.genB).value,
                    RA.StartHistory(u.xa, u.xb, u.genA, u.genB), {}, {}),
          FullInit(t.pq, u.ka, u.kb), {}, {})
  }

  ghost function Play(t: Tools, j: Joint, moves: seq<Move>): (r: Joint)
    requires JointTyped(j)
    ensures JointTyped(r)
    decreases |moves|
  {
    if moves == [] then j else Play(t, Make(t, j, moves[0]), moves[1..])
  }

  lemma {:induction false} JointInvRun(t: Tools, ka: Negotiation, kb: Negotiation, j: Joint, moves: seq<Move>)
    requires t.Lawful() && JointTyped(j) && JointInv(t, ka, kb, j) && NoneWrapped(Play(t, j, moves).f)
    ensures JointInv(t, ka, kb, Play(t, j, moves))
    decreases |moves|
  {
    hide JointInv, Make, JointTyped, Unwrapped;
    if moves != [] {
      WiresGrow(t, Make(t, j, moves[0]), moves[1..]);
      JointStep(t, ka, kb, j, moves[0]);
      JointInvRun(t, ka, kb, Make(t, j, moves[0]), moves[1..]);
    }
  }

  lemma {:induction false} WiresGrow(t: Tools, j: Joint, moves: seq<Move>)
    requires JointTyped(j)
    ensures var r := Play(t, j, moves); j.f.fromA <= r.f.fromA && j.f.fromB <= r.f.fromB
    decreases |moves|
  {
    hide Make, JointTyped;
    if moves != [] {
      MoveKeepsWires(t, j, moves[0]);
      WiresGrow(t, Make(t, j, moves[0]), moves[1..]);
    }
  }

  lemma MoveKeepsWires(t: Tools, j: Joint, move: Move)
    requires JointTyped(j)
    ensures var r := Make(t, j, move); j.f.fromA <= r.f.fromA && j.f.fromB <= r.f.fromB
  {
    hide Encrypt, Decrypt, RA.Do, SendState, ReceiveState, RA.Fresh;
  }

  lemma BeginInv(t: Tools, u: Setup)
    requires t.Lawful() && Proper(t, u)
    ensures JointInv(t, u.ka, u.kb, Begin(t, u))
  {
    hide RA.Inv, FullInv;
    RA.StartInv(t.ratchet, u.xa, u.xb, u.genA, u.genB);
    FullInvInit(t.pq, u.ka, u.kb);
  }

  /** With the sender's message key and salt a message opens to what was sent. */
  lemma OpensToPlain(t: Tools, s: Session, p: Posted, gen: R.Key)
    requires t.Lawful() && PostedRight(t, p) && s.pqr.Valid() && p.msg.pq.Typed()
    requires R.AdvanceForHeader(t.ratchet, s.ratchet, p.msg.header, gen).Ok? ==>
      R.AdvanceForHeader(t.ratchet, s.ratchet, p.msg.header, gen).value.key == p.logged.key
    requires ReceivePq(t.pq, s.pqr, p.msg.pq).Ok? ==> ReceivePq(t.pq, s.pqr, p.msg.pq).value.salt == p.wire.salt
    ensures Reads(t, s, p, gen)
  {
    hide R.AdvanceForHeader, ReceivePq;
    assert t.suite.open(p.logged.key, p.wire.salt, t.suite.seal(p.logged.key, p.wire.salt, p.plain)) == Some(p.plain);
  }

  /** The message is read exactly when neither ratchet refuses it, and then as the plaintext it was
      sent with. */
  ghost predicate Reads(t: Tools, s: Session, p: Posted, gen: R.Key)
    requires s.pqr.Valid() && p.msg.pq.Typed()
  {
    var d := Decrypt(t, s, p.msg, gen);
    && (d.Ok? <==> R.AdvanceForHeader(t.ratchet, s.ratchet, p.msg.header, gen).Ok? && ReceivePq(t.pq, s.pqr, p.msg.pq).Ok?)
    && (d.Ok? ==> d.value.plain == p.plain)
  }

  /** The salt of a posted message, on the receiving side. */
  lemma SaltFits(t: Tools, ka: Negotiation, kb: Negotiation, j: Joint, p: Posted)
    requires t.Lawful() && FullInv(t.pq, ka, kb, j.f) && JointTyped(j) && PostedRight(t, p) && p.wire in j.f.fromB
    requires ka.authKey == kb.authKey && ka.dir == Other(kb.dir)
    ensures p.msg.pq.Typed()
    ensures ReceivePq(t.pq, With(j.f.a), p.msg.pq).Ok? ==> ReceivePq(t.pq, With(j.f.a), p.msg.pq).value.salt == p.wire.salt
  {
    hide FullInv, ReceiveState;
    if ReceiveState(t.pq, j.f.a, p.wire.msg, p.wire.index).Ok? {
      SaltAgrees(t.pq, ka, kb, j.f, p.wire);
    }
  }

  /** In every run of two sessions, under any loss, reordering and duplication: a message that was sent
      is read exactly when neither ratchet refuses it, and then reads as the plaintext it was sent with. */
  lemma ReadsWhatWasSent(t: Tools, u: Setup, moves: seq<Move>, p: Posted, gen: R.Key)
    requires t.Lawful() && Proper(t, u)
    requires var j := Play(t, Begin(t, u), moves); NoneWrapped(j.f) && RA.Fresh(t.ratchet, j.r.h, gen)
    ensures var j := Play(t, Begin(t, u), moves);
      (p in j.outB ==> Reads(t, SessionA(j), p, gen)) && (p in j.outA ==> Reads(t, SessionB(j), p, gen))
  {
    hide Play, Begin, RA.Inv, FullInv, Reads, RA.Fresh, NoneWrapped, ReceivePq, R.AdvanceForHeader;
    var j := Play(t, Begin(t, u), moves);
    BeginInv(t, u);
    JointInvRun(t, u.ka, u.kb, Begin(t, u), moves);
    if p in j.outB {
      RA.KeyAgrees(t.ratchet, j.r, p.logged, gen);
      SaltFits(t, u.ka, u.kb, j, p);
      OpensToPlain(t, SessionA(j), p, gen);
    }
    if p in j.outA {
      RA.KeyAgrees(t.ratchet, j.r, p.logged, gen);
      FullInvMirror(t.pq, u.ka, u.kb, j.f);
      FlipTyped(j);
      SaltFits(t, u.kb, u.ka, Flip(j), p);
      OpensToPlain(t, SessionB(j), p, gen);
    }
  }
}
