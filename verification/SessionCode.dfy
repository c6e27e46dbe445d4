/** Sessions and session records as the objects of session/, updated in place. A message is decrypted on
    clones, which take the place of what a session holds only once it has opened. */
module SessionCode {
  import opened Words
  import opened Results
  import R = Ratchet
  import opened RatchetCode
  import opened SpqrVersion
  import opened SpqrChainCode
  import opened SpqrStateCode
  import V = SessionAgreement
  import opened SessionRecord

  // ---------------------------------------------------------------- a session

  class Session {
    const ratchet: RatchetState
    var pqr: PqrState?

    ghost predicate Valid()
      reads this, pqr
    {
      pqr != null ==> pqr.Valid()
    }

    function ChainOf(): EpochChain?
      reads this, pqr
    {
      if pqr == null then null else pqr.chain
    }

    function Value(): V.Session
      reads this, ratchet, pqr, ChainOf()
    {
      V.Session(ratchet.Value(), if pqr == null then Without else pqr.Value())
    }

    constructor (state: RatchetState, pq: PqrState?)
      ensures ratchet == state && pqr == pq
    {
      ratchet, pqr := state, pq;
    }

    method Clone() returns (other: Session)
      requires Valid()
      ensures fresh(other) && fresh(other.ratchet) && other.Valid() && other.Value() == Copied(Value())
    {
      hide ClonePq;
      var state := ratchet.Clone();
      var pq: PqrState? := null;
      if pqr != null {
        pq := pqr.Clone();
      }
      other := new Session(state, pq);
      assert pqr == null ==> ClonePq(Without) == Ok(Without) by { NoClone(); }
    }

    /** The ratchet moves before the post-quantum part is asked, and stays moved if that fails. */
    method EncryptSignal(t: V.Tools, plain: Bytes, coin: nat) returns (r: Result<V.SignalMessage, V.Failure>)
      requires Valid()
      modifies `pqr, ratchet
      ensures Valid() && Value() == EncryptLeaves(t, old(Value()), plain, coin)
      ensures match EncryptOnCopy(t, old(Value()), plain, coin)
        case Ok(e) => r == Ok(e.msg)
        case Err(e) => r == Err(e)
      ensures Copies(old(Value())) ==> EncryptOnCopy(t, old(Value()), plain, coin) == V.Encrypt(t, old(Value()), plain, coin)
    {
      hide ClonePq, SendPq, PqSendLeaves;
      if Copies(Value()) {
        OnCopyIsEncrypt(t, Value(), plain, coin);
      }
      var sent := ratchet.NextSendingMessageKey(t.ratchet);
      if sent.Err? {
        return Err(V.RatchetFailed(sent.error));
      }
      var header, key := sent.value.0, sent.value.1;
      var field, salt := Absent, None;
      if pqr == null {
        assert ClonePq(Without) == Ok(Without) && SendPq(t.pq, Without, coin) == Ok(PqSent(Absent, None, Without)) by { NoClone(); NoSend(t, coin); }
      } else {
        var next := pqr.Clone();
        if next == null {
          return Err(V.CloneFailed);
        }
        var pq := next.Send(t.pq, coin);
        if pq.Err? {
          return Err(V.PqFailed(pq.error));
        }
        field, salt := pq.value.0, pq.value.1;
        pqr := next;
      }
      var body := t.suite.seal(key, salt, plain);
      r := Ok(V.SignalMessage(header, field, body, t.suite.tag(key, salt, header, field, body)));
    }

    /** The clones may be left half-way by a failure; what the session holds is not touched before the
        message has opened. */
    method DecryptWithSession(t: V.Tools, m: V.SignalMessage, gen: R.Key) returns (r: Result<Bytes, V.Failure>)
      requires Valid() && t.pq.Sizes() && m.pq.Typed()
      modifies `pqr, ratchet
      ensures Valid()
      ensures match DecryptOnCopy(t, old(Value()), m, gen)
        case Ok(o) => r == Ok(o.plain) && Value() == o.session
        case Err(e) => r == Err(e) && unchanged(this) && unchanged(ratchet) && Value() == old(Value())
      ensures Copies(old(Value())) ==> DecryptOnCopy(t, old(Value()), m, gen) == V.Decrypt(t, old(Value()), m, gen)
    {
      hide ClonePq, ReceivePq, PqReceiveLeaves, R.AdvanceForHeader, AdvanceLeaves;
      if Copies(Value()) {
        OnCopyIsDecrypt(t, Value(), m, gen);
      }
      var next := ratchet.Clone();
      var key := next.AdvanceForHeader(t.ratchet, m.header, gen);
      if key.Err? {
        return Err(V.RatchetFailed(key.error));
      }
      var salt := None;
      var pqrNext: PqrState? := null;
      if pqr != null {
        pqrNext := pqr.Clone();
        if pqrNext == null {
          return Err(V.CloneFailed);
        }
        var received := pqrNext.Receive(t.pq, m.pq);
        if received.Err? {
          return Err(V.PqFailed(received.error));
        }
        salt := received.value;
      } else {
        NoClone();
        NoReceive(t, m.pq);
        if m.pq != Absent {
          return Err(V.PqFailed(NoState));
        }
      }
      if m.tag != t.suite.tag(key.value, salt, m.header, m.pq, m.body) {
        return Err(V.InvalidTag);
      }
      var plain := t.suite.open(key.value, salt, m.body);
      if plain.None? {
        return Err(V.Unreadable);
      }
      ratchet.Become(next);
      if pqrNext != null {
        pqr := pqrNext;
      }
      r := Ok(plain.value);
    }
  }

  lemma NoClone()
    ensures ClonePq(Without) == Ok(Without)
  {
  }

  lemma NoSend(t: V.Tools, coin: nat)
    ensures SendPq(t.pq, Without, coin) == Ok(PqSent(Absent, None, Without))
  {
  }

  lemma NoReceive(t: V.Tools, field: Field)
    requires field.Typed()
    ensures ReceivePq(t.pq, Without, field) == if field == Absent then Ok(PqReceived(None, Without)) else Err(NoState)
  {
  }

  // ---------------------------------------------------------------- a record

  ghost function Ratchets(sessions: seq<Session>): set<RatchetState> {
    set s | s in sessions :: s.ratchet
  }

  ghost function Pqrs(sessions: seq<Session>): set<PqrState?>
    reads sessions
  {
    set s | s in sessions :: s.pqr
  }

  ghost function Chains(sessions: seq<Session>): set<EpochChain?>
    reads sessions, Pqrs(sessions)
  {
    set s | s in sessions :: s.ChainOf()
  }

  ghost function Values(sessions: seq<Session>): (vs: seq<V.Session>)
    reads sessions, Ratchets(sessions), Pqrs(sessions), Chains(sessions)
    ensures |vs| == |sessions| && forall i | 0 <= i < |vs| :: vs[i] == sessions[i].Value()
  {
    seq(|sessions|, i requires 0 <= i < |sessions| reads sessions, Ratchets(sessions), Pqrs(sessions), Chains(sessions) => sessions[i].Value())
  }

  /** No two sessions are the same object or share a ratchet. */
  ghost predicate Apart(sessions: seq<Session>) {
    forall i, j | 0 <= i < j < |sessions| :: sessions[i] != sessions[j] && sessions[i].ratchet != sessions[j].ratchet
  }

  ghost predicate EachValid(sessions: seq<Session>)
    reads sessions, Pqrs(sessions)
  {
    forall s | s in sessions :: s.Valid()
  }

  /** The sessions that are not this very one, in order. */
  function Others(sessions: seq<Session>, s: Session): seq<Session> {
    if sessions == [] then []
    else (if sessions[0] == s then [] else [sessions[0]]) + Others(sessions[1..], s)
  }

  lemma {:induction false} OthersSnoc(sessions: seq<Session>, x: Session, s: Session)
    ensures Others(sessions + [x], s) == Others(sessions, s) + if x == s then [] else [x]
  {
    if sessions != [] {
      assert (sessions + [x])[1..] == sessions[1..] + [x];
      OthersSnoc(sessions[1..], x, s);
    }
  }

  lemma {:induction false} OthersAbsent(sessions: seq<Session>, s: Session)
    requires s !in sessions
    ensures Others(sessions, s) == sessions
  {
    if sessions != [] {
      OthersAbsent(sessions[1..], s);
    }
  }

  lemma {:induction false} OthersAt(sessions: seq<Session>, i: nat)
    requires Apart(sessions) && i < |sessions|
    ensures Others(sessions, sessions[i]) == sessions[..i] + sessions[i + 1..]
  {
    var s := sessions[i];
    if i == 0 {
      OthersAbsent(sessions[1..], s);
      assert sessions[..0] + sessions[1..] == sessions[1..];
    } else {
      OthersAt(sessions[1..], i - 1);
      assert sessions[1..][..i - 1] == sessions[1..i];
      assert [sessions[0]] + (sessions[1..i] + sessions[i + 1..]) == sessions[..i] + sessions[i + 1..];
    }
  }

  class Record {
    var current: Session
    var archived: seq<Session>
    const maxArchived: nat

    ghost function Everyone(): seq<Session>
      reads this
    {
      [current] + archived
    }

    ghost predicate Valid()
      reads this, Everyone(), Pqrs(Everyone())
    {
      Apart(Everyone()) && EachValid(Everyone()) && |archived| <= maxArchived
    }

    /** All the sessions, the current one first. */
    ghost function All(): seq<V.Session>
      reads this, Everyone(), Ratchets(Everyone()), Pqrs(Everyone()), Chains(Everyone())
    {
      Values(Everyone())
    }

    constructor (first: Session, max: int)
      requires first.Valid()
      ensures Valid() && fresh(current) && All() == [Copied(first.Value())] && maxArchived == if max <= 0 then 5 else max
    {
      hide Copied;
      var copy := first.Clone();
      current := copy;
      archived := [];
      maxArchived := if max <= 0 then 5 else max;
    }

    method WithoutSession(s: Session) returns (filtered: seq<Session>)
      ensures filtered == Others(archived, s)
    {
      filtered := [];
      var i := 0;
      while i < |archived|
        invariant i <= |archived| && filtered == Others(archived[..i], s)
      {
        assert archived[..i + 1] == archived[..i] + [archived[i]];
        OthersSnoc(archived[..i], archived[i], s);
        if archived[i] != s {
          filtered := filtered + [archived[i]];
        }
        i := i + 1;
      }
      assert archived[..i] == archived;
    }

    /** One session in front of the archived ones that stay, and another in place of the current one. */
    method Install(copy: Session, was: Session, kept: seq<Session>)
      requires Apart(kept) && Beside(copy, was, kept) && copy.Valid() && was.Valid() && forall s | s in kept :: s.Valid()
      modifies this
      ensures Valid() && All() == Truncated(old(copy.Value()), old([was.Value()] + Values(kept)), maxArchived)
    {
      hide Apart, EachValid, Values;
      archived := [was] + kept;
      if |archived| > maxArchived {
        archived := archived[..maxArchived];
      }
      current := copy;
      ghost var n := |archived|;
      assert Everyone() == [copy] + ([was] + kept)[..n];
      assert forall s | s in kept :: s.Valid() && s.Value() == old(s.Value());
      assert copy.Valid() && was.Valid() && copy.Value() == old(copy.Value()) && was.Value() == old(was.Value());
      assert Values(kept) == old(Values(kept));
      FrontApart(copy, was, kept, n);
      FrontValid(copy, was, kept, n);
      FrontValues(copy, was, kept, n);
    }

    /** A copy of the current session goes in front of the archived ones that stay, and a copy of the
        next takes its place. */
    method Replace(next: Session, kept: seq<Session>)
      requires Valid() && next.Valid() && Apart(kept) && (forall s | s in kept :: s in archived)
      modifies this
      ensures Valid() && All() == Fronted(old(next.Value()), old(current.Value()), old(Values(kept)), maxArchived)
    {
      hide Copied, Values, Apart, EachValid;
      assert current.Valid() && forall s | s in kept :: s.Valid() by { AreValid(current, archived); }
      var was := current.Clone();
      var copy := next.Clone();
      assert forall i | 0 <= i < |kept| :: kept[i].Value() == old(kept[i].Value());
      assert Values(kept) == old(Values(kept));
      Install(copy, was, kept);
    }

    /** Promoting brings an archived session to the front, or puts a new one there and lets at most the
        oldest go. */
    method Promote(next: Session)
      requires Valid() && next.Valid()
      modifies this
      ensures Valid()
      ensures next !in old(archived) ==> All() == Promoted(old(All()), old(next.Value()), maxArchived)
      ensures forall i | 0 <= i < |old(archived)| && old(archived)[i] == next :: All() == Brought(old(All()), i + 1, old(next.Value()))
    {
      hide Others, Copied, Apart, Values, Fronted, Promoted, Brought;
      var kept := WithoutSession(next);
      assert Valid() && next.Valid();
      assert next.Value() == old(next.Value());
      assert forall i | 0 <= i < |Everyone()| :: Everyone()[i].Value() == old(Everyone()[i].Value());
      assert All() == old(All());
      ApartTail(current, archived);
      Filtered(archived, next);
      FrontedMeaning(current, archived, next, kept, maxArchived);
      Replace(next, kept);
    }

    /** Try the k-th session: only that one can change, and only if it opens the message. */
    method TrySession(k: nat, q: Request) returns (r: Result<Bytes, V.Failure>)
      requires Valid() && k < |Everyone()| && q.Typed() && q.t.pq.Sizes()
      modifies Everyone()[k], Everyone()[k].ratchet
      ensures Valid() && old(All())[k].pqr.Valid()
      ensures match Try(q, k, old(All())[k])
        case Ok(o) => r == Ok(o.plain) && All() == old(All())[k := o.session]
        case Err(e) => r == Err(e) && All() == old(All())
    {
      hide DecryptOnCopy, Values, Copies, V.Decrypt;
      var s := if k == 0 then current else archived[k - 1];
      assert s == Everyone()[k] && s.Valid();
      r := s.DecryptWithSession(q.t, q.msg, q.gens(k));
      assert forall i | 0 <= i < |Everyone()| && i != k :: Everyone()[i].Valid() && Everyone()[i].Value() == old(Everyone()[i].Value());
    }

    /** Try the i-th archived session, and promote it if it opens the message. */
    method TryAndPromote(i: nat, q: Request) returns (r: Result<Bytes, V.Failure>)
      requires Valid() && i < |archived| && q.Typed() && q.t.pq.Sizes()
      modifies this, Everyone(), Ratchets(Everyone())
      ensures Valid() && old(All())[i + 1].pqr.Valid()
      ensures match Try(q, i + 1, old(All())[i + 1])
        case Ok(o) => r == Ok(o.plain) && All() == Brought(old(All()), i + 1, o.session)
        case Err(e) => r == Err(e) && All() == old(All()) && Everyone() == old(Everyone())
    {
      hide Apart, EachValid, Values, Try, Brought;
      ghost var before := All();
      r := TrySession(i + 1, q);
      if r.Ok? {
        BroughtSame(before, i + 1, Try(q, i + 1, before[i + 1]).value.session);
        assert archived[i].Valid() by { AreValid(current, archived); }
        Promote(archived[i]);
      }
    }

    /** The archived sessions in turn, until one opens the message or calls it a duplicate. */
    method TryArchived(q: Request) returns (r: Option<Result<Bytes, V.Failure>>)
      requires Valid() && q.Typed() && q.t.pq.Sizes() && AllValid(All())
      modifies this, Everyone(), Ratchets(Everyone())
      ensures Valid()
      ensures var i := FirstDeciding(q, old(All()), 1);
        if i == |old(All())| then r == None && All() == old(All())
        else
          match Try(q, i, old(All())[i])
          case Ok(o) => r == Some(Ok(o.plain)) && All() == Brought(old(All()), i, o.session)
          case Err(e) => r == Some(Err(e)) && All() == old(All())
    {
      hide Apart, EachValid, Values, Try, Brought, FirstDeciding;
      ghost var before := All();
      var i := 0;
      while i < |archived|
        invariant i <= |archived| && Valid() && Everyone() == old(Everyone()) && All() == before
        invariant FirstDeciding(q, before, i + 1) == FirstDeciding(q, before, 1)
      {
        FirstOrLater(q, before, i + 1);
        var a := TryAndPromote(i, q);
        if a.Ok? || a.error == V.RatchetFailed(R.Duplicate) {
          return Some(a);
        }
        i := i + 1;
      }
      r := None;
    }

    /** The current session is tried first, then the archived ones. If none decides, the current
        session's failure is the record's. */
    method Decrypt(q: Request) returns (r: Result<Bytes, V.Failure>)
      requires Valid() && q.Typed() && q.t.pq.Sizes()
      modifies this, Everyone(), Ratchets(Everyone())
      ensures Valid() && AllValid(old(All())) && Outcome(r, All()) == Decrypted(q, old(All()))
    {
      hide Apart, EachValid, Values, Try, Brought, FirstDeciding;
      ghost var before := All();
      assert AllValid(before) by { ValuesValid(Everyone()); }
      FirstOrLater(q, before, 0);
      var first := TrySession(0, q);
      if first.Ok? || first.error == V.RatchetFailed(R.Duplicate) {
        return first;
      }
      assert Everyone() == old(Everyone());
      var later := TryArchived(q);
      r := if later.Some? then later.value else first;
    }
  }

  lemma FirstOrLater(q: Request, sessions: seq<V.Session>, i: nat)
    requires q.Typed() && AllValid(sessions) && i < |sessions|
    ensures FirstDeciding(q, sessions, i) == if Decides(Try(q, i, sessions[i])) then i else FirstDeciding(q, sessions, i + 1)
  {
    hide Try;
  }

  lemma ValuesValid(sessions: seq<Session>)
    requires EachValid(sessions)
    ensures AllValid(Values(sessions))
  {
    var vs := Values(sessions);
    forall i | 0 <= i < |vs|
      ensures vs[i].pqr.Valid()
    {
      assert vs[i] == sessions[i].Value() && sessions[i].Valid();
    }
  }

  lemma BroughtSame(sessions: seq<V.Session>, i: nat, next: V.Session)
    requires 0 < i < |sessions|
    ensures Brought(sessions[i := next], i, next) == Brought(sessions, i, next)
  {
    hide Copied;
  }

  lemma ApartTail(first: Session, rest: seq<Session>)
    requires Apart([first] + rest)
    ensures Apart(rest)
  {
    var all := [first] + rest;
    assert forall i | 0 <= i < |rest| :: rest[i] == all[i + 1];
  }

  lemma AreValid(first: Session, rest: seq<Session>)
    requires EachValid([first] + rest)
    ensures first.Valid() && forall s | s in rest :: s.Valid()
  {
    assert first in [first] + rest;
  }

  ghost predicate Beside(copy: Session, was: Session, kept: seq<Session>) {
    && copy != was && copy.ratchet != was.ratchet
    && (forall s | s in kept :: copy != s && was != s && copy.ratchet != s.ratchet && was.ratchet != s.ratchet)
  }

  /** Two new sessions in front of the first few of some others. */
  lemma FrontApart(copy: Session, was: Session, kept: seq<Session>, n: nat)
    requires n <= |kept| + 1 && Apart(kept) && Beside(copy, was, kept)
    ensures Apart([copy] + ([was] + kept)[..n])
  {
    var all := [copy] + ([was] + kept)[..n];
    assert forall i | 0 <= i < |all| :: all[i] == if i == 0 then copy else if i == 1 then was else kept[i - 2];
  }

  lemma FrontValid(copy: Session, was: Session, kept: seq<Session>, n: nat)
    requires n <= |kept| + 1 && copy.Valid() && was.Valid() && forall s | s in kept :: s.Valid()
    ensures EachValid([copy] + ([was] + kept)[..n])
  {
  }

  lemma FrontValues(copy: Session, was: Session, kept: seq<Session>, n: nat)
    requires n <= |kept| + 1
    ensures Values([copy] + ([was] + kept)[..n]) == [copy.Value()] + ([was.Value()] + Values(kept))[..n]
  {
    hide Values;
  }

  lemma FrontedMeaning(current: Session, archived: seq<Session>, next: Session, kept: seq<Session>, maxArchived: nat)
    requires |archived| <= maxArchived
    requires next !in archived ==> kept == archived
    requires forall k | 0 <= k < |archived| && archived[k] == next :: kept == archived[..k] + archived[k + 1..]
    ensures var r := Fronted(next.Value(), current.Value(), Values(kept), maxArchived);
      var all := Values([current] + archived);
      && (next !in archived ==> r == Promoted(all, next.Value(), maxArchived))
      && (forall k | 0 <= k < |archived| && archived[k] == next :: r == Brought(all, k + 1, next.Value()))
  {
    hide Values, Copied;
    var all := Values([current] + archived);
    assert all[1..] == Values(archived);
    forall k | 0 <= k < |archived| && archived[k] == next
      ensures Fronted(next.Value(), current.Value(), Values(kept), maxArchived) == Brought(all, k + 1, next.Value())
    {
      assert Values(kept) == all[1..k + 1] + all[k + 2..];
    }
  }

  function Truncated(first: V.Session, archive: seq<V.Session>, maxArchived: nat): seq<V.Session> {
    [first] + if |archive| > maxArchived then archive[..maxArchived] else archive
  }

  function Fronted(next: V.Session, was: V.Session, kept: seq<V.Session>, maxArchived: nat): seq<V.Session> {
    Truncated(Copied(next), [Copied(was)] + kept, maxArchived)
  }

  lemma ApartDrop(sessions: seq<Session>, k: nat)
    requires Apart(sessions) && k < |sessions|
    ensures Apart(sessions[..k] + sessions[k + 1..])
  {
    var f := sessions[..k] + sessions[k + 1..];
    assert forall n | 0 <= n < |f| :: f[n] == sessions[if n < k then n else n + 1];
  }

  lemma Filtered(sessions: seq<Session>, next: Session)
    requires Apart(sessions)
    ensures var f := Others(sessions, next);
      && (next !in sessions ==> f == sessions)
      && (forall k | 0 <= k < |sessions| && sessions[k] == next :: f == sessions[..k] + sessions[k + 1..])
      && Apart(f) && (forall s | s in f :: s in sessions)
  {
    hide Others, Apart;
    if next in sessions {
      forall k | 0 <= k < |sessions| && sessions[k] == next
        ensures Others(sessions, next) == sessions[..k] + sessions[k + 1..] && Apart(Others(sessions, next))
      {
        OthersAt(sessions, k);
        ApartDrop(sessions, k);
      }
    } else {
      OthersAbsent(sessions, next);
    }
  }
}
