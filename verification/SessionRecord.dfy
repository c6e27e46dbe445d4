/** A session record on values (session/record.go, session/wire_cipher.go): the current session and the
    archived ones, each tried in turn on a message. */
module SessionRecord {
  import opened Words
  import opened Results
  import R = Ratchet
  import opened SpqrState
  import opened SpqrVersion
  import SpqrChainCodec
  import opened SpqrStateCode
  import opened SessionAgreement

  // ---------------------------------------------------------------- one session

  /** Decrypting as the code does it, on copies: a state that cannot be copied is refused. */
  function DecryptOnCopy(t: Tools, s: Session, m: SignalMessage, gen: R.Key): (r: Result<Opened, Failure>)
    requires s.pqr.Valid() && m.pq.Typed()
    ensures r.Ok? ==> r.value.session.pqr.Valid()
  {
    match R.AdvanceForHeader(t.ratchet, s.ratchet, m.header, gen)
    case Err(e) => Err(RatchetFailed(e))
    case Ok(_) =>
      match ClonePq(s.pqr)
      case Err(_) => Err(CloneFailed)
      case Ok(copy) => Decrypt(t, Session(s.ratchet, copy), m, gen)
  }

  /** Encrypting moves the ratchet itself and a copy of the post-quantum state. */
  function EncryptOnCopy(t: Tools, s: Session, plain: Bytes, coin: nat): Result<Encrypted, Failure>
    requires s.pqr.Valid()
  {
    match R.NextSendingMessageKey(t.ratchet, s.ratchet)
    case Err(e) => Err(RatchetFailed(e))
    case Ok(_) =>
      match ClonePq(s.pqr)
      case Err(_) => Err(CloneFailed)
      case Ok(copy) => Encrypt(t, Session(s.ratchet, copy), plain, coin)
  }

  /** What encrypting leaves behind: a failure of the post-quantum part comes after the ratchet has moved. */
  function EncryptLeaves(t: Tools, s: Session, plain: Bytes, coin: nat): Session
    requires s.pqr.Valid()
  {
    var e := EncryptOnCopy(t, s, plain, coin);
    var sent := R.NextSendingMessageKey(t.ratchet, s.ratchet);
    if e.Ok? then e.value.session
    else if sent.Ok? then Session(sent.value.state, s.pqr)
    else s
  }

  /** A copy of a session; a post-quantum state that cannot be copied is dropped. */
  function Copied(s: Session): (r: Session)
    ensures r.pqr.Valid() || !s.pqr.Valid()
  {
    var pq := ClonePq(s.pqr);
    Session(s.ratchet, if pq.Ok? then pq.value else Without)
  }

  /** Copies are exact. */
  predicate Copies(s: Session) {
    ClonePq(s.pqr) == Ok(s.pqr)
  }

  lemma OnCopyIsDecrypt(t: Tools, s: Session, m: SignalMessage, gen: R.Key)
    requires s.pqr.Valid() && m.pq.Typed() && Copies(s)
    ensures DecryptOnCopy(t, s, m, gen) == Decrypt(t, s, m, gen)
    ensures Copied(s) == s
  {
    hide R.AdvanceForHeader, ReceivePq, ClonePq;
  }

  lemma OnCopyIsEncrypt(t: Tools, s: Session, plain: Bytes, coin: nat)
    requires s.pqr.Valid() && Copies(s)
    ensures EncryptOnCopy(t, s, plain, coin) == Encrypt(t, s, plain, coin)
  {
    hide SendPq, ClonePq;
  }

  /** Whatever arrived, a session whose post-quantum state was reached by calls copies exactly as long as
      the epoch is a 64-bit number. */
  lemma ReachedCopies(t: Tools, vn: Negotiation, calls: seq<Call>, ratchet: R.State)
    requires t.pq.Sizes() && forall k | 0 <= k < |calls| :: Sane(calls[k])
    ensures Regular(NewState(t.pq, vn))
    ensures var s := ApplyAll(t.pq, NewState(t.pq, vn), calls);
      Copies(Session(ratchet, With(s))) <==> s.v1.epoch < 0x1_0000_0000_0000_0000
  {
    hide ApplyAll, SpqrChainCodec.Clone;
    SpqrChainCodec.CloneIsSame(t.pq, vn, calls);
  }

  // ---------------------------------------------------------------- the sessions of a record

  /** A message to be decrypted. Each session that is tried generates a key pair of its own. */
  datatype Request = Request(t: Tools, msg: SignalMessage, gens: nat -> R.Key)
  {
    ghost predicate Typed() {
      msg.pq.Typed()
    }
  }

  ghost predicate AllValid(sessions: seq<Session>) {
    forall s | s in sessions :: s.pqr.Valid()
  }

  function Try(q: Request, i: nat, s: Session): (r: Result<Opened, Failure>)
    requires q.Typed() && s.pqr.Valid()
    ensures r.Ok? ==> r.value.session.pqr.Valid()
  {
    DecryptOnCopy(q.t, s, q.msg, q.gens(i))
  }

  predicate Decides(r: Result<Opened, Failure>) {
    r.Ok? || r.error == RatchetFailed(R.Duplicate)
  }

  /** The first session from the i-th on that opens the message or calls it a duplicate, or the length. */
  function FirstDeciding(q: Request, sessions: seq<Session>, i: nat): (k: nat)
    requires q.Typed() && AllValid(sessions) && i <= |sessions|
    ensures i <= k <= |sessions|
    decreases |sessions| - i
  {
    if i == |sessions| || Decides(Try(q, i, sessions[i])) then i else FirstDeciding(q, sessions, i + 1)
  }

  lemma {:induction false} FirstDecides(q: Request, sessions: seq<Session>, i: nat)
    requires q.Typed() && AllValid(sessions) && i <= |sessions|
    ensures var k := FirstDeciding(q, sessions, i);
      && (k < |sessions| ==> Decides(Try(q, k, sessions[k])))
      && (forall j | i <= j < k :: !Decides(Try(q, j, sessions[j])))
    decreases |sessions| - i
  {
    hide Try;
    if i < |sessions| && !Decides(Try(q, i, sessions[i])) {
      FirstDecides(q, sessions, i + 1);
    }
  }

  /** The i-th session, in its new value, becomes the current one; the one that was goes in front of the
      archived ones. Both are copied. */
  function Brought(sessions: seq<Session>, i: nat, next: Session): seq<Session>
    requires 0 < i < |sessions|
  {
    [Copied(next), Copied(sessions[0])] + sessions[1..i] + sessions[i + 1..]
  }

  datatype Outcome = Outcome(result: Result<Bytes, Failure>, sessions: seq<Session>)

  function Decrypted(q: Request, sessions: seq<Session>): Outcome
    requires sessions != [] && q.Typed() && AllValid(sessions)
  {
    FirstDecides(q, sessions, 0);
    var i := FirstDeciding(q, sessions, 0);
    if i == |sessions| then Outcome(Err(Try(q, 0, sessions[0]).error), sessions)
    else
      match Try(q, i, sessions[i])
      case Err(e) => Outcome(Err(e), sessions)
      case Ok(o) => Outcome(Ok(o.plain), if i == 0 then sessions[0 := o.session] else Brought(sessions, i, o.session))
  }

  /** A new session in front; the one that was current is archived and at most the oldest goes. */
  function Promoted(sessions: seq<Session>, next: Session, maxArchived: nat): seq<Session>
    requires sessions != []
  {
    var archive := [Copied(sessions[0])] + sessions[1..];
    [Copied(next)] + if |archive| > maxArchived then archive[..maxArchived] else archive
  }

  // ---------------------------------------------------------------- which session is used

  /** What the i-th session makes of the message. */
  function Answer(q: Request, sessions: seq<Session>, i: nat): Result<Opened, Failure>
    requires q.Typed() && AllValid(sessions) && i < |sessions|
  {
    Decrypt(q.t, sessions[i], q.msg, q.gens(i))
  }

  predicate Settles(r: Result<Opened, Failure>) {
    r.Ok? || r == Err(RatchetFailed(R.Duplicate))
  }

  /** The i-th session is the first that opens the message or calls it a duplicate. */
  ghost predicate Chosen(q: Request, sessions: seq<Session>, i: nat)
    requires q.Typed() && AllValid(sessions)
  {
    i < |sessions| && Settles(Answer(q, sessions, i)) && forall j | 0 <= j < i :: !Settles(Answer(q, sessions, j))
  }

  lemma TryIsAnswer(q: Request, sessions: seq<Session>, i: nat)
    requires q.Typed() && AllValid(sessions) && i < |sessions| && Copies(sessions[i])
    ensures Try(q, i, sessions[i]) == Answer(q, sessions, i)
  {
    hide Decrypt, Copies, DecryptOnCopy;
    OnCopyIsDecrypt(q.t, sessions[i], q.msg, q.gens(i));
  }

  lemma {:induction false} FirstIsChosen(q: Request, sessions: seq<Session>, i: nat)
    requires q.Typed() && AllValid(sessions) && (forall s | s in sessions :: Copies(s)) && i <= |sessions|
    requires forall j | 0 <= j < i :: !Settles(Answer(q, sessions, j))
    ensures var k := FirstDeciding(q, sessions, i);
      && (k < |sessions| ==> Chosen(q, sessions, k))
      && (forall j | 0 <= j < k :: !Settles(Answer(q, sessions, j)))
    decreases |sessions| - i
  {
    hide Answer, Copies, Try;
    if i < |sessions| {
      TryIsAnswer(q, sessions, i);
      if !Settles(Answer(q, sessions, i)) {
        FirstIsChosen(q, sessions, i + 1);
      }
    }
  }

  /** Where copies are exact, the first session in the order of the record that opens the message or calls it
      a duplicate decides. Opened, the message gives that session's plaintext, and the session in its new
      value goes in front of the others, which keep their order. A duplicate is reported. */
  lemma ChosenDecides(q: Request, sessions: seq<Session>, i: nat)
    requires sessions != [] && q.Typed() && AllValid(sessions) && (forall s | s in sessions :: Copies(s)) && Chosen(q, sessions, i)
    ensures var r := Decrypted(q, sessions);
      match Answer(q, sessions, i)
      case Ok(o) => r.result == Ok(o.plain) && (Copies(o.session) ==> r.sessions == [o.session] + sessions[..i] + sessions[i + 1..])
      case Err(e) => r == Outcome(Err(e), sessions)
  {
    hide Answer, Copies, Try, FirstDeciding, Brought;
    FirstIsChosen(q, sessions, 0);
    assert FirstDeciding(q, sessions, 0) == i;
    TryIsAnswer(q, sessions, i);
    var d := Answer(q, sessions, i);
    if d.Ok? && Copies(d.value.session) {
      CopiedExactly(d.value.session);
      CopiedExactly(sessions[0]);
      BroughtInOrder(sessions, i, d.value.session);
    }
  }

  lemma CopiedExactly(s: Session)
    ensures Copies(s) ==> Copied(s) == s
    ensures ClonePq(s.pqr).Err? ==> Copied(s) == Session(s.ratchet, Without)
  {
    hide ClonePq;
  }

  /** If no session does, the current session's failure is reported, and nothing changes. */
  lemma NoneDecides(q: Request, sessions: seq<Session>)
    requires sessions != [] && q.Typed() && AllValid(sessions) && forall s | s in sessions :: Copies(s)
    requires forall i | 0 <= i < |sessions| :: !Settles(Answer(q, sessions, i))
    ensures match Answer(q, sessions, 0)
      case Ok(_) => false
      case Err(e) => Decrypted(q, sessions) == Outcome(Err(e), sessions)
  {
    hide Answer, Copies, Try, FirstDeciding, Brought;
    FirstIsChosen(q, sessions, 0);
    TryIsAnswer(q, sessions, 0);
  }

  /** So, where copies are exact, a message is opened exactly when some session opens it and none before that
      calls it a duplicate, and called a duplicate exactly when some session does and none before opens it. */
  lemma DecryptsExactly(q: Request, sessions: seq<Session>)
    requires sessions != [] && q.Typed() && AllValid(sessions) && forall s | s in sessions :: Copies(s)
    ensures var r := Decrypted(q, sessions).result;
      && (r.Ok? <==> exists i :: Chosen(q, sessions, i) && Answer(q, sessions, i).Ok?)
      && (r == Err(RatchetFailed(R.Duplicate)) <==> exists i :: Chosen(q, sessions, i) && Answer(q, sessions, i).Err?)
  {
    hide Answer, Copies, Try, FirstDeciding, Decrypted;
    FirstIsChosen(q, sessions, 0);
    var k := FirstDeciding(q, sessions, 0);
    if k < |sessions| {
      ChosenDecides(q, sessions, k);
      assert forall i | Chosen(q, sessions, i) :: i == k;
    } else {
      NoneDecides(q, sessions);
    }
  }

  lemma BroughtInOrder(sessions: seq<Session>, i: nat, next: Session)
    requires i < |sessions| && Copied(next) == next && Copied(sessions[0]) == sessions[0]
    ensures (if i == 0 then sessions[0 := next] else Brought(sessions, i, next)) == [next] + sessions[..i] + sessions[i + 1..]
  {
    hide Copied;
  }

  /** Where copies are exact, after promoting a new session the record holds it, then the former sessions in
      their order as far as there is room: only the oldest can go. */
  lemma PromotedInOrder(sessions: seq<Session>, next: Session, maxArchived: nat)
    requires sessions != [] && Copied(next) == next && Copied(sessions[0]) == sessions[0]
    ensures var r := Promoted(sessions, next, maxArchived);
      && r[0] == next && |r| == 1 + (if |sessions| > maxArchived then maxArchived else |sessions|)
      && (forall i | 1 <= i < |r| :: r[i] == sessions[i - 1])
  {
    hide Copied;
  }

  /** The i-th session has opened the message, is in front in its new value, and the others are what they were. */
  ghost predicate Opens(answer: Result<Opened, Failure>, plain: Bytes, before: seq<Session>, i: nat, after: seq<Session>)
    requires i < |before|
  {
    && answer.Ok? && answer.value.plain == plain
    && (Copies(answer.value.session) ==>
         && after != [] && after[0] == answer.value.session
         && multiset(after) == multiset(before) - multiset{before[i]} + multiset{answer.value.session})
  }

  /** So, where copies are exact, decrypting fails and leaves every session as it was, or the first session
      that settles it decrypts the message, takes the value this leaves it with and comes to the front, and no
      other session is changed or lost. */
  lemma NothingLost(q: Request, sessions: seq<Session>)
    requires sessions != [] && q.Typed() && AllValid(sessions) && forall s | s in sessions :: Copies(s)
    ensures var r := Decrypted(q, sessions);
      && (r.result.Err? ==> r.sessions == sessions)
      && (r.result.Ok? ==>
           exists i :: Chosen(q, sessions, i) && Opens(Answer(q, sessions, i), r.result.value, sessions, i, r.sessions))
  {
    hide Answer, Copies, Decrypted, FirstDeciding, Settles;
    FirstIsChosen(q, sessions, 0);
    var k := FirstDeciding(q, sessions, 0);
    if k < |sessions| {
      ChosenDecides(q, sessions, k);
      match Answer(q, sessions, k)
      case Err(_) =>
      case Ok(o) => Rearranged(sessions, k, o.session);
    } else {
      NoneDecides(q, sessions);
    }
  }

  lemma Rearranged<T>(sessions: seq<T>, i: nat, next: T)
    requires i < |sessions|
    ensures multiset([next] + sessions[..i] + sessions[i + 1..]) == multiset(sessions) - multiset{sessions[i]} + multiset{next}
  {
    assert sessions == sessions[..i] + [sessions[i]] + sessions[i + 1..];
  }

  /** Encrypting that fails leaves the post-quantum state alone, and the ratchet as it was or moved by one. */
  lemma FailedEncrypt(t: Tools, s: Session, plain: Bytes, coin: nat)
    requires s.pqr.Valid() && EncryptOnCopy(t, s, plain, coin).Err?
    ensures var r := EncryptLeaves(t, s, plain, coin);
      && r.pqr == s.pqr
      && (match R.NextSendingMessageKey(t.ratchet, s.ratchet)
          case Ok(sent) => r.ratchet == sent.state
          case Err(_) => r.ratchet == s.ratchet)
  {
    hide ClonePq, SendPq;
  }
}
