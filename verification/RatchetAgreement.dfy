/** Two honest parties running the Double Ratchet from matching key agreements: a header that is
    accepted gives the receiver the message key the sender had for it. */
module RatchetAgreement {
  import opened Results
  import opened Ratchet

  // ---------------------------------------------------------------- what the keys should be

  /** Everything the keys depend on: the shared secret, the chain before the first Diffie-Hellman
      step, and the private ratchet keys in the order they were brought in. The responder owns
      those at even places, the initiator the others. */
  datatype History = History(secret: Key, first: Key, base: Key, ks: seq<Key>)

  function Shared(c: Crypto, x: Key, y: Key): Key {
    var d := c.dh(x, c.pub(y));
    if d.Some? then d.value else ZERO
  }

  function RootOf(c: Crypto, h: History, i: nat): Key
    requires i < |h.ks|
  {
    if i == 0 then h.secret else c.kdfRoot(RootOf(c, h, i - 1), Shared(c, h.ks[i], h.ks[i - 1])).next
  }

  /** The chain key that the owner of the i-th key starts sending with. */
  function ChainOf(c: Crypto, h: History, i: nat): Key
    requires i < |h.ks|
  {
    if i == 0 then h.first else c.kdfRoot(RootOf(c, h, i - 1), Shared(c, h.ks[i], h.ks[i - 1])).out
  }

  function MessageKey(c: Crypto, start: Key, n: nat): Key {
    c.kdfChain(ChainAfter(c, start, n)).out
  }

  function Extend(h: History, k: Key): History {
    h.(ks := h.ks + [k])
  }

  lemma {:induction false} ExtendKeeps(c: Crypto, h: History, k: Key, i: nat)
    requires i < |h.ks|
    ensures RootOf(c, Extend(h, k), i) == RootOf(c, h, i) && ChainOf(c, Extend(h, k), i) == ChainOf(c, h, i)
  {
    if i > 0 {
      ExtendKeeps(c, h, k, i - 1);
    }
  }

  // ---------------------------------------------------------------- one party

  ghost predicate Own(c: Crypto, h: History, s: State, i: nat) {
    && i < |h.ks|
    && s.dhs == Some(h.ks[i])
    && s.rk == RootOf(c, h, i)
    && s.cks == ChainAfter(c, ChainOf(c, h, i), s.ns)
  }

  ghost predicate Their(c: Crypto, h: History, s: State, j: nat) {
    && j < |h.ks|
    && s.dhr == Some(c.pub(h.ks[j]))
    && s.ckr == ChainAfter(c, ChainOf(c, h, j), s.nr)
    && (forall k | k in s.skipped ::
         k.dh == c.pub(h.ks[j]) && k.n < s.nr && s.skipped[k] == MessageKey(c, ChainOf(c, h, j), k.n))
  }

  /** The responder before it has heard of any ratchet key. */
  ghost predicate Theirless(h: History, s: State) {
    s.dhr == Some(h.base) && s.skipped == map[]
  }

  /** Receiving in a chain leaves the rest of the state alone. */
  ghost predicate SameSending(s: State, r: State) {
    r.(ckr := s.ckr, nr := s.nr, skipped := s.skipped) == s
  }

  lemma {:induction false} SkipFrame(c: Crypto, s: State, until: nat)
    requires SkipMessageKeys(c, s, until).Ok? && s.dhr.Some?
    ensures var r := SkipMessageKeys(c, s, until).value;
      SameSending(s, r) && r.nr == (if s.nr < until then until else s.nr)
      && forall k | k in r.skipped :: k in s.skipped || k.dh == s.dhr.value
    decreases until - s.nr
  {
    if s.nr < until {
      SkipFrame(c, SkipOne(c, s), until);
    }
  }

  lemma {:induction false} SkipTheir(c: Crypto, h: History, s: State, j: nat, until: nat)
    requires Their(c, h, s, j) && SkipMessageKeys(c, s, until).Ok?
    ensures Their(c, h, SkipMessageKeys(c, s, until).value, j)
    decreases until - s.nr
  {
    hide RootOf, ChainOf;
    if s.nr < until {
      SkipTheir(c, h, SkipOne(c, s), j, until);
    }
  }

  /** A header of the chain being received gives its key. */
  lemma InChain(c: Crypto, h: History, s: State, j: nat, head: Header, gen: Key)
    requires Their(c, h, s, j) && head.dh == c.pub(h.ks[j]) && AdvanceForHeader(c, s, head, gen).Ok?
    ensures var r := AdvanceForHeader(c, s, head, gen).value;
      && r.key == MessageKey(c, ChainOf(c, h, j), head.n)
      && Their(c, h, r.state, j) && SameSending(s, r.state)
  {
    hide RootOf, ChainOf, SkipMessageKeys;
    if SkippedKey(head.dh, head.n) !in s.skipped {
      SkipFrame(c, s, head.n);
      SkipTheir(c, h, s, j, head.n);
    }
  }

  /** A header of a key that was seen, other than the current one, is refused. */
  lemma OldRefused(c: Crypto, s: State, head: Header, gen: Key)
    requires s.dhr.Some? && head.dh != s.dhr.value && head.dh in s.seen
    requires forall k | k in s.skipped :: k.dh == s.dhr.value
    ensures AdvanceForHeader(c, s, head, gen).Err?
  {
  }

  /** A header of the peer's next key turns the ratchet: both chains come out as they should. */
  lemma Turns(c: Crypto, h: History, s: State, i: nat, head: Header, gen: Key)
    requires c.Lawful() && Own(c, h, s, i) && i + 2 == |h.ks| && head.dh == c.pub(h.ks[i + 1])
    requires s.dhr.Some? && s.dhr.value != head.dh && forall k | k in s.skipped :: k.dh == s.dhr.value
    requires AdvanceForHeader(c, s, head, gen).Ok?
    ensures var r := AdvanceForHeader(c, s, head, gen).value;
      var g := Extend(h, gen);
      && r.key == MessageKey(c, ChainOf(c, h, i + 1), head.n)
      && Own(c, g, r.state, i + 2) && r.state.ns == 0 && r.state.pn == s.ns && Their(c, g, r.state, i + 1)
      && r.state.seen == s.seen + {s.dhr.value, head.dh}
  {
    hide SkipMessageKeys, RootOf, ChainOf, DhRatchet;
    var t := SkipMessageKeys(c, s, head.pn).value;
    SkipFrame(c, s, head.pn);
    var u := DhRatchet(c, t, head.dh, gen).value;
    TurnedRight(c, h, t, i, head.dh, gen);
    var g := Extend(h, gen);
    SkipFrame(c, u, head.n);
    SkipTheir(c, g, u, i + 1, head.n);
    ExtendKeeps(c, h, gen, i + 1);
  }

  lemma TurnedRight(c: Crypto, h: History, t: State, i: nat, their: Key, gen: Key)
    requires c.Lawful() && Own(c, h, t, i) && i + 2 == |h.ks| && their == c.pub(h.ks[i + 1])
    requires t.dhr.Some? && t.dhr.value != their && forall k | k in t.skipped :: k.dh == t.dhr.value
    requires DhRatchet(c, t, their, gen).Ok?
    ensures var u := DhRatchet(c, t, their, gen).value;
      var g := Extend(h, gen);
      && Own(c, g, u, i + 2) && u.ns == 0 && u.pn == t.ns && Their(c, g, u, i + 1) && u.nr == 0
      && u.seen == t.seen + {t.dhr.value, their} && u.dhr == Some(their) && u.skipped == map[]
  {
    var g := Extend(h, gen);
    assert OnlyFor(t.skipped, their) == map[];
    ExtendKeeps(c, h, gen, i);
    assert c.dh(h.ks[i], c.pub(h.ks[i + 1])) == c.dh(h.ks[i + 1], c.pub(h.ks[i]));
    assert RootOf(c, g, i + 1) == c.kdfRoot(RootOf(c, h, i), Shared(c, h.ks[i + 1], h.ks[i])).next;
    assert g.ks[i + 2] == gen && g.ks[i + 1] == h.ks[i + 1];
    assert RootOf(c, g, i + 2) == c.kdfRoot(RootOf(c, g, i + 1), Shared(c, gen, h.ks[i + 1])).next;
  }

  // ---------------------------------------------------------------- runs

  /** A header, the message key the sender had for it, and which of the ratchet keys it was sent with. */
  datatype Logged = Logged(header: Header, key: Key, at: nat)

  datatype System = System(a: State, b: State, h: History, fromA: set<Logged>, fromB: set<Logged>)

  datatype Action = SendA | SendB | ToA(m: Logged, gen: Key) | ToB(m: Logged, gen: Key)

  /** Generated keys are new: this is what the run assumes of the generator. */
  ghost predicate Fresh(c: Crypto, h: History, gen: Key) {
    c.pub(gen) != h.base && forall i | 0 <= i < |h.ks| :: c.pub(h.ks[i]) != c.pub(gen)
  }

  function Index(h: History, dhs: Option<Key>): nat {
    if |h.ks| >= 1 && dhs == Some(h.ks[|h.ks| - 1]) then |h.ks| - 1 else if |h.ks| >= 2 then |h.ks| - 2 else 0
  }

  datatype Sent = Sent(state: State, log: set<Logged>)

  function SendOne(c: Crypto, h: History, s: State, log: set<Logged>): Sent {
    match NextSendingMessageKey(c, s)
    case Err(_) => Sent(s, log)
    case Ok(r) => Sent(r.state, log + {Logged(r.header, r.key, Index(h, s.dhs))})
  }

  datatype Got = Got(state: State, h: History)

  function ReceiveOne(c: Crypto, h: History, s: State, head: Header, gen: Key): Got {
    match AdvanceForHeader(c, s, head, gen)
    case Err(_) => Got(s, h)
    case Ok(r) => Got(r.state, if r.state.dhs != s.dhs then Extend(h, gen) else h)
  }

  ghost function Do(c: Crypto, sys: System, act: Action): System {
    match act
    case SendA => var r := SendOne(c, sys.h, sys.a, sys.fromA); sys.(a := r.state, fromA := r.log)
    case SendB => var r := SendOne(c, sys.h, sys.b, sys.fromB); sys.(b := r.state, fromB := r.log)
    case ToA(m, gen) =>
      if m !in sys.fromB || !Fresh(c, sys.h, gen) then sys
      else var r := ReceiveOne(c, sys.h, sys.a, m.header, gen); sys.(a := r.state, h := r.h)
    case ToB(m, gen) =>
      if m !in sys.fromA || !Fresh(c, sys.h, gen) then sys
      else var r := ReceiveOne(c, sys.h, sys.b, m.header, gen); sys.(b := r.state, h := r.h)
  }

  ghost function Run(c: Crypto, sys: System, acts: seq<Action>): System
    decreases |acts|
  {
    if acts == [] then sys else Run(c, Do(c, sys, acts[0]), acts[1..])
  }

  // ---------------------------------------------------------------- the invariant

  ghost predicate Distinct(c: Crypto, h: History) {
    forall i, j | 0 <= i < j < |h.ks| :: c.pub(h.ks[i]) != c.pub(h.ks[j])
  }

  /** No ratchet key after the first is the base key. */
  ghost predicate BaseApart(c: Crypto, h: History) {
    forall i | 0 <= i < |h.ks| :: c.pub(h.ks[i]) != h.base
  }

  /** All the peer's keys below j that share its parity have been seen. */
  ghost predicate SeenBelow(c: Crypto, h: History, s: State, j: nat) {
    forall i | 0 <= i < j && i < |h.ks| && i % 2 == j % 2 :: c.pub(h.ks[i]) in s.seen
  }

  ghost predicate LogRight(c: Crypto, h: History, log: set<Logged>, last: nat) {
    forall m | m in log :: m.at <= last < |h.ks| && m.at % 2 == last % 2
      && m.header.dh == c.pub(h.ks[m.at]) && m.key == MessageKey(c, ChainOf(c, h, m.at), m.header.n)
  }

  /** x brought in the newest key, y the one before it. */
  ghost predicate Leads(c: Crypto, h: History, x: State, y: State, fromX: set<Logged>, fromY: set<Logged>) {
    var n := |h.ks|;
    && n >= 2
    && Own(c, h, x, n - 1) && Their(c, h, x, n - 2) && SeenBelow(c, h, x, n - 2)
    && Own(c, h, y, n - 2)
    && (if n == 2 then Theirless(h, y) && BaseApart(c, h) else Their(c, h, y, n - 3) && SeenBelow(c, h, y, n - 3))
    && LogRight(c, h, fromX, n - 1) && LogRight(c, h, fromY, n - 2)
  }

  ghost predicate Inv(c: Crypto, sys: System) {
    && Distinct(c, sys.h)
    && if |sys.h.ks| % 2 == 0 then Leads(c, sys.h, sys.a, sys.b, sys.fromA, sys.fromB)
       else Leads(c, sys.h, sys.b, sys.a, sys.fromB, sys.fromA)
  }

  // ---------------------------------------------------------------- steps

  lemma SendsRight(c: Crypto, h: History, s: State, i: nat, log: set<Logged>)
    requires Own(c, h, s, i) && LogRight(c, h, log, i) && Index(h, s.dhs) == i
    ensures var r := SendOne(c, h, s, log);
      && Own(c, h, r.state, i) && LogRight(c, h, r.log, i)
      && r.state.(cks := s.cks, ns := s.ns) == s
  {
    hide RootOf, ChainOf;
  }

  lemma LeaderSends(c: Crypto, h: History, x: State, y: State, fromX: set<Logged>, fromY: set<Logged>)
    requires Leads(c, h, x, y, fromX, fromY)
    ensures var r := SendOne(c, h, x, fromX); Leads(c, h, r.state, y, r.log, fromY)
  {
    hide RootOf, ChainOf, SendOne, LogRight, MessageKey, ChainAfter;
    SendsRight(c, h, x, |h.ks| - 1, fromX);
  }

  lemma FollowerSends(c: Crypto, h: History, x: State, y: State, fromX: set<Logged>, fromY: set<Logged>)
    requires Distinct(c, h) && Leads(c, h, x, y, fromX, fromY)
    ensures var r := SendOne(c, h, y, fromY); Leads(c, h, x, r.state, fromX, r.log)
  {
    hide RootOf, ChainOf, SendOne, LogRight, MessageKey, ChainAfter;
    var n := |h.ks|;
    assert c.pub(h.ks[n - 2]) != c.pub(h.ks[n - 1]);
    SendsRight(c, h, y, n - 2, fromY);
  }

  /** The party with the newest key takes in any header of the other. */
  lemma LeaderReceives(c: Crypto, h: History, x: State, y: State, fromX: set<Logged>, fromY: set<Logged>, m: Logged, gen: Key)
    requires Distinct(c, h) && Leads(c, h, x, y, fromX, fromY) && m in fromY
    ensures AdvanceForHeader(c, x, m.header, gen).Ok? ==> AdvanceForHeader(c, x, m.header, gen).value.key == m.key
    ensures var r := ReceiveOne(c, h, x, m.header, gen); r.h == h && Leads(c, h, r.state, y, fromX, fromY) && SameSending(x, r.state)
  {
    hide RootOf, ChainOf, AdvanceForHeader, MessageKey, ChainAfter;
    var n := |h.ks|;
    if m.at == n - 2 {
      if AdvanceForHeader(c, x, m.header, gen).Ok? {
        InChain(c, h, x, n - 2, m.header, gen);
      }
    } else {
      assert c.pub(h.ks[m.at]) != c.pub(h.ks[n - 2]);
      OldRefused(c, x, m.header, gen);
    }
  }

  lemma {:induction false} LogExtends(c: Crypto, h: History, log: set<Logged>, last: nat, gen: Key)
    requires LogRight(c, h, log, last)
    ensures LogRight(c, Extend(h, gen), log, last)
  {
    hide RootOf, ChainOf, MessageKey;
    forall m | m in log
      ensures ChainOf(c, Extend(h, gen), m.at) == ChainOf(c, h, m.at)
    {
      ExtendKeeps(c, h, gen, m.at);
    }
  }

  lemma PartyExtends(c: Crypto, h: History, s: State, i: nat, j: nat, gen: Key)
    requires Own(c, h, s, i) && Their(c, h, s, j)
    ensures Own(c, Extend(h, gen), s, i) && Their(c, Extend(h, gen), s, j)
  {
    hide RootOf, ChainOf, MessageKey, ChainAfter;
    ExtendKeeps(c, h, gen, i);
    ExtendKeeps(c, h, gen, j);
  }

  /** The other party meets the newest key, and brings in one of its own. */
  lemma FollowerTurns(c: Crypto, h: History, x: State, y: State, fromX: set<Logged>, fromY: set<Logged>, m: Logged, gen: Key)
    requires c.Lawful() && Distinct(c, h) && Leads(c, h, x, y, fromX, fromY) && m in fromX && Fresh(c, h, gen)
    requires m.at == |h.ks| - 1 && AdvanceForHeader(c, y, m.header, gen).Ok?
    ensures var r := AdvanceForHeader(c, y, m.header, gen).value;
      && r.key == m.key && r.state.dhs == Some(gen) != y.dhs && r.state.ns == 0 && r.state.pn == y.ns
      && Leads(c, Extend(h, gen), r.state, x, fromY, fromX)
  {
    hide RootOf, ChainOf, AdvanceForHeader, MessageKey, ChainAfter;
    var n := |h.ks|;
    if n > 2 {
      assert c.pub(h.ks[n - 3]) != c.pub(h.ks[n - 1]);
    }
    Turns(c, h, y, n - 2, m.header, gen);
    PartyExtends(c, h, x, n - 1, n - 2, gen);
    LogExtends(c, h, fromX, n - 1, gen);
    TurnedLog(c, h, fromY, gen);
    var g := Extend(h, gen);
    var r := AdvanceForHeader(c, y, m.header, gen).value.state;
    assert forall i | 0 <= i < n :: g.ks[i] == h.ks[i];
    assert SeenBelow(c, g, r, n - 1);
    assert SeenBelow(c, g, x, n - 2);
  }

  /** A log of the keys below the newest but one is also one of the keys up to the next of the same owner. */
  lemma TurnedLog(c: Crypto, h: History, log: set<Logged>, gen: Key)
    requires |h.ks| >= 2 && LogRight(c, h, log, |h.ks| - 2)
    ensures LogRight(c, Extend(h, gen), log, |h.ks|)
  {
    hide RootOf, ChainOf, MessageKey;
    LogExtends(c, h, log, |h.ks| - 2, gen);
  }

  lemma FollowerReceives(c: Crypto, h: History, x: State, y: State, fromX: set<Logged>, fromY: set<Logged>, m: Logged, gen: Key)
    requires c.Lawful() && Distinct(c, h) && Leads(c, h, x, y, fromX, fromY) && m in fromX && Fresh(c, h, gen)
    ensures AdvanceForHeader(c, y, m.header, gen).Ok? ==> AdvanceForHeader(c, y, m.header, gen).value.key == m.key
    ensures var r := ReceiveOne(c, h, y, m.header, gen);
      || (r.h == h && Leads(c, h, x, r.state, fromX, fromY) && SameSending(y, r.state))
      || (r.h == Extend(h, gen) && Leads(c, r.h, r.state, x, fromY, fromX) && r.state.ns == 0 && r.state.pn == y.ns)
  {
    hide RootOf, ChainOf, AdvanceForHeader, MessageKey, ChainAfter;
    var n := |h.ks|;
    if AdvanceForHeader(c, y, m.header, gen).Ok? {
      if m.at == n - 1 {
        FollowerTurns(c, h, x, y, fromX, fromY, m, gen);
      } else if m.at == n - 3 {
        InChain(c, h, y, n - 3, m.header, gen);
      } else {
        assert c.pub(h.ks[m.at]) != c.pub(h.ks[n - 3]);
        OldRefused(c, y, m.header, gen);
      }
    }
  }

  lemma ExtendDistinct(c: Crypto, h: History, gen: Key)
    requires Distinct(c, h) && Fresh(c, h, gen)
    ensures Distinct(c, Extend(h, gen))
  {
  }

  lemma SendStep(c: Crypto, sys: System)
    requires Inv(c, sys)
    ensures Inv(c, Do(c, sys, SendA)) && Inv(c, Do(c, sys, SendB))
  {
    hide Leads, SendOne, Distinct;
    var h := sys.h;
    if |h.ks| % 2 == 0 {
      LeaderSends(c, h, sys.a, sys.b, sys.fromA, sys.fromB);
      FollowerSends(c, h, sys.a, sys.b, sys.fromA, sys.fromB);
    } else {
      LeaderSends(c, h, sys.b, sys.a, sys.fromB, sys.fromA);
      FollowerSends(c, h, sys.b, sys.a, sys.fromB, sys.fromA);
    }
  }

  /** Who leads is told by the number of keys. */
  lemma InvIf(c: Crypto, sys: System)
    requires Distinct(c, sys.h)
    requires |sys.h.ks| % 2 == 0 ==> Leads(c, sys.h, sys.a, sys.b, sys.fromA, sys.fromB)
    requires |sys.h.ks| % 2 != 0 ==> Leads(c, sys.h, sys.b, sys.a, sys.fromB, sys.fromA)
    ensures Inv(c, sys)
  {
  }

  lemma ReceiveStepA(c: Crypto, sys: System, m: Logged, gen: Key)
    requires c.Lawful() && Inv(c, sys) && Fresh(c, sys.h, gen) && m in sys.fromB
    ensures Inv(c, Do(c, sys, ToA(m, gen)))
  {
    hide Leads, ReceiveOne, Distinct, Fresh, AdvanceForHeader;
    var h := sys.h;
    var r := ReceiveOne(c, h, sys.a, m.header, gen);
    ExtendDistinct(c, h, gen);
    if |h.ks| % 2 == 0 {
      LeaderReceives(c, h, sys.a, sys.b, sys.fromA, sys.fromB, m, gen);
    } else {
      FollowerReceives(c, h, sys.b, sys.a, sys.fromB, sys.fromA, m, gen);
    }
    InvIf(c, sys.(a := r.state, h := r.h));
  }

  lemma ReceiveStepB(c: Crypto, sys: System, m: Logged, gen: Key)
    requires c.Lawful() && Inv(c, sys) && Fresh(c, sys.h, gen) && m in sys.fromA
    ensures Inv(c, Do(c, sys, ToB(m, gen)))
  {
    hide Leads, ReceiveOne, Distinct, Fresh, AdvanceForHeader;
    var h := sys.h;
    var r := ReceiveOne(c, h, sys.b, m.header, gen);
    ExtendDistinct(c, h, gen);
    if |h.ks| % 2 == 0 {
      FollowerReceives(c, h, sys.a, sys.b, sys.fromA, sys.fromB, m, gen);
    } else {
      LeaderReceives(c, h, sys.b, sys.a, sys.fromB, sys.fromA, m, gen);
    }
    InvIf(c, sys.(b := r.state, h := r.h));
  }

  lemma InvStep(c: Crypto, sys: System, act: Action)
    requires c.Lawful() && Inv(c, sys)
    ensures Inv(c, Do(c, sys, act))
  {
    hide Inv, SendOne, ReceiveOne, Fresh;
    match act
    case SendA => SendStep(c, sys);
    case SendB => SendStep(c, sys);
    case ToA(m, gen) => if m in sys.fromB && Fresh(c, sys.h, gen) { ReceiveStepA(c, sys, m, gen); }
    case ToB(m, gen) => if m in sys.fromA && Fresh(c, sys.h, gen) { ReceiveStepB(c, sys, m, gen); }
  }

  lemma {:induction false} InvRun(c: Crypto, sys: System, acts: seq<Action>)
    requires c.Lawful() && Inv(c, sys)
    ensures Inv(c, Run(c, sys, acts))
    decreases |acts|
  {
    hide Inv, Do;
    if acts != [] {
      InvStep(c, sys, acts[0]);
      InvRun(c, Do(c, sys, acts[0]), acts[1..]);
    }
  }

  // ---------------------------------------------------------------- from matching key agreements

  /** The two results of one key agreement: the same secrets, and each side's public keys at the other. */
  ghost predicate Matching(c: Crypto, xa: Agreed, xb: Agreed) {
    && xa.secret == xb.secret && xa.initialChain == xb.initialChain
    && xb.localRatchet.Some? && xa.remoteRatchet == Some(c.pub(xb.localRatchet.value))
    && xa.localEphemeral.Some? && xb.ephemeralPub == c.pub(xa.localEphemeral.value)
    && c.pub(xb.localRatchet.value) != xb.ephemeralPub
  }

  function StartHistory(xa: Agreed, xb: Agreed, genA: Key, genB: Key): History
    requires xb.localRatchet.Some? && xa.localEphemeral.Some?
  {
    if xa.initialChain.Some? then
      History(xa.secret, xa.initialChain.value, xb.ephemeralPub, [xb.localRatchet.value, genA])
    else History(xa.secret, ZERO, xb.ephemeralPub, [xb.localRatchet.value, xa.localEphemeral.value, genB])
  }

  /** The keys the two generate while starting are new. */
  ghost predicate FreshStart(c: Crypto, xb: Agreed, genA: Key, genB: Key)
    requires xb.localRatchet.Some?
  {
    && c.pub(genA) != c.pub(xb.localRatchet.value) && c.pub(genA) != xb.ephemeralPub
    && c.pub(genB) != c.pub(xb.localRatchet.value) && c.pub(genB) != xb.ephemeralPub
  }

  lemma StartInv(c: Crypto, xa: Agreed, xb: Agreed, genA: Key, genB: Key)
    requires c.Lawful() && Matching(c, xa, xb) && FreshStart(c, xb, genA, genB)
    requires StartInitiator(c, xa, genA).Ok? && StartResponder(c, xb, genB, genB).Ok?
    ensures Inv(c, System(StartInitiator(c, xa, genA).value, StartResponder(c, xb, genB, genB).value,
                          StartHistory(xa, xb, genA, genB), {}, {}))
  {
    var h := StartHistory(xa, xb, genA, genB);
    var a, b := StartInitiator(c, xa, genA).value, StartResponder(c, xb, genB, genB).value;
    assert RootOf(c, h, 0) == xa.secret;
    assert RootOf(c, h, 1) == c.kdfRoot(xa.secret, Shared(c, h.ks[1], h.ks[0])).next;
    assert Own(c, h, a, 1) && Their(c, h, a, 0);
    if xa.initialChain.None? {
      assert c.dh(h.ks[0], c.pub(h.ks[1])) == c.dh(h.ks[1], c.pub(h.ks[0]));
      assert RootOf(c, h, 2) == c.kdfRoot(RootOf(c, h, 1), Shared(c, h.ks[2], h.ks[1])).next;
      assert Own(c, h, b, 2) && Their(c, h, b, 1);
      assert Leads(c, h, b, a, {}, {});
    } else {
      assert Leads(c, h, a, b, {}, {});
    }
  }

  lemma KeyAgrees(c: Crypto, sys: System, m: Logged, gen: Key)
    requires c.Lawful() && Inv(c, sys) && Fresh(c, sys.h, gen)
    ensures m in sys.fromB && AdvanceForHeader(c, sys.a, m.header, gen).Ok? ==> AdvanceForHeader(c, sys.a, m.header, gen).value.key == m.key
    ensures m in sys.fromA && AdvanceForHeader(c, sys.b, m.header, gen).Ok? ==> AdvanceForHeader(c, sys.b, m.header, gen).value.key == m.key
  {
    hide Leads, AdvanceForHeader, Fresh, Distinct;
    if |sys.h.ks| % 2 == 0 {
      if m in sys.fromB { LeaderReceives(c, sys.h, sys.a, sys.b, sys.fromA, sys.fromB, m, gen); }
      if m in sys.fromA { FollowerReceives(c, sys.h, sys.a, sys.b, sys.fromA, sys.fromB, m, gen); }
    } else {
      if m in sys.fromB { FollowerReceives(c, sys.h, sys.b, sys.a, sys.fromB, sys.fromA, m, gen); }
      if m in sys.fromA { LeaderReceives(c, sys.h, sys.b, sys.a, sys.fromB, sys.fromA, m, gen); }
    }
  }

  /** From matching key agreements, with an initial chain key or without one, and under any loss,
      reordering and duplication: a header that is accepted yields the sender's message key. */
  lemma KeysAgree(c: Crypto, xa: Agreed, xb: Agreed, genA: Key, genB: Key, acts: seq<Action>, m: Logged, gen: Key)
    requires c.Lawful() && Matching(c, xa, xb) && FreshStart(c, xb, genA, genB)
    requires StartInitiator(c, xa, genA).Ok? && StartResponder(c, xb, genB, genB).Ok?
    ensures var sys := Run(c, System(StartInitiator(c, xa, genA).value, StartResponder(c, xb, genB, genB).value,
                                     StartHistory(xa, xb, genA, genB), {}, {}), acts);
      Fresh(c, sys.h, gen) ==>
        && (m in sys.fromB && AdvanceForHeader(c, sys.a, m.header, gen).Ok? ==> AdvanceForHeader(c, sys.a, m.header, gen).value.key == m.key)
        && (m in sys.fromA && AdvanceForHeader(c, sys.b, m.header, gen).Ok? ==> AdvanceForHeader(c, sys.b, m.header, gen).value.key == m.key)
  {
    hide Inv, Run, AdvanceForHeader, Fresh, StartInitiator, StartResponder;
    var start := System(StartInitiator(c, xa, genA).value, StartResponder(c, xb, genB, genB).value, StartHistory(xa, xb, genA, genB), {}, {});
    StartInv(c, xa, xb, genA, genB);
    InvRun(c, start, acts);
    var sys := Run(c, start, acts);
    if Fresh(c, sys.h, gen) {
      KeyAgrees(c, sys, m, gen);
    }
  }

  // ---------------------------------------------------------------- the lengths that headers announce

  /** The numbers sent under a key. */
  function Numbers(log: set<Logged>, at: nat): set<nat> {
    set m | m in log && m.at == at :: m.header.n
  }

  ghost predicate SentExactly(log: set<Logged>, at: nat, bound: nat) {
    forall n: nat :: n in Numbers(log, at) <==> n < bound
  }

  /** A header says exactly how many messages its sender sent under the key before. */
  ghost predicate Announces(log: set<Logged>, m: Logged) {
    m.at >= 2 ==> SentExactly(log, m.at - 2, m.header.pn)
  }

  ghost predicate Counted(log: set<Logged>, i: nat, s: State) {
    && (forall m | m in log :: m.at <= i && (m.at == i ==> m.header.pn == s.pn))
    && SentExactly(log, i, s.ns) && (i >= 2 ==> SentExactly(log, i - 2, s.pn))
    && (forall m | m in log :: Announces(log, m))
  }

  lemma SentMore(log: set<Logged>, m: Logged, at: nat, bound: nat)
    requires SentExactly(log, at, bound) && (m.at == at ==> m.header.n == bound)
    ensures SentExactly(log + {m}, at, if m.at == at then bound + 1 else bound)
  {
    assert Numbers(log + {m}, at) == Numbers(log, at) + if m.at == at then {m.header.n} else {};
  }

  lemma CountSend(c: Crypto, h: History, s: State, i: nat, log: set<Logged>)
    requires Counted(log, i, s) && Index(h, s.dhs) == i
    ensures var r := SendOne(c, h, s, log); Counted(r.log, i, r.state)
  {
    hide SentExactly;
    var r := NextSendingMessageKey(c, s);
    if r.Ok? {
      var m := Logged(r.value.header, r.value.key, i);
      SentMore(log, m, i, s.ns);
      if i >= 2 {
        SentMore(log, m, i - 2, s.pn);
      }
      forall k | k in log
        ensures Announces(log + {m}, k)
      {
        assert Announces(log, k) && k.at <= i;
        if k.at >= 2 {
          SentMore(log, m, k.at - 2, k.header.pn);
        }
      }
    }
  }

  lemma CountTurn(log: set<Logged>, i: nat, s: State, t: State)
    requires Counted(log, i, s) && t.ns == 0 && t.pn == s.ns
    ensures Counted(log, i + 2, t)
  {
    assert Numbers(log, i + 2) == {};
  }

  ghost predicate CountedBoth(sys: System) {
    var n := |sys.h.ks|;
    && n >= 2
    && Counted(sys.fromA, if n % 2 == 0 then n - 1 else n - 2, sys.a)
    && Counted(sys.fromB, if n % 2 == 0 then n - 2 else n - 1, sys.b)
  }

  lemma CountSame(log: set<Logged>, i: nat, s: State, t: State)
    requires Counted(log, i, s) && SameSending(s, t)
    ensures Counted(log, i, t)
  {
  }

  lemma CountSendStep(c: Crypto, sys: System)
    requires Inv(c, sys) && CountedBoth(sys)
    ensures CountedBoth(Do(c, sys, SendA)) && CountedBoth(Do(c, sys, SendB))
  {
    hide Counted, SendOne, RootOf, ChainOf, ChainAfter, LogRight, Their, SeenBelow;
    var h := sys.h;
    var n := |h.ks|;
    assert c.pub(h.ks[n - 2]) != c.pub(h.ks[n - 1]);
    CountSend(c, h, sys.a, if n % 2 == 0 then n - 1 else n - 2, sys.fromA);
    CountSend(c, h, sys.b, if n % 2 == 0 then n - 2 else n - 1, sys.fromB);
  }

  lemma CountReceiveA(c: Crypto, sys: System, m: Logged, gen: Key)
    requires c.Lawful() && Inv(c, sys) && CountedBoth(sys) && Fresh(c, sys.h, gen) && m in sys.fromB
    ensures CountedBoth(Do(c, sys, ToA(m, gen)))
  {
    hide Counted, Leads, ReceiveOne, Distinct, Fresh, AdvanceForHeader, SameSending;
    var h := sys.h;
    var n := |h.ks|;
    var r := ReceiveOne(c, h, sys.a, m.header, gen);
    if n % 2 == 0 {
      LeaderReceives(c, h, sys.a, sys.b, sys.fromA, sys.fromB, m, gen);
      CountSame(sys.fromA, n - 1, sys.a, r.state);
    } else {
      FollowerReceives(c, h, sys.b, sys.a, sys.fromB, sys.fromA, m, gen);
      if r.h == h && SameSending(sys.a, r.state) {
        CountSame(sys.fromA, n - 2, sys.a, r.state);
      } else {
        CountTurn(sys.fromA, n - 2, sys.a, r.state);
      }
    }
  }

  lemma CountReceiveB(c: Crypto, sys: System, m: Logged, gen: Key)
    requires c.Lawful() && Inv(c, sys) && CountedBoth(sys) && Fresh(c, sys.h, gen) && m in sys.fromA
    ensures CountedBoth(Do(c, sys, ToB(m, gen)))
  {
    hide Counted, Leads, ReceiveOne, Distinct, Fresh, AdvanceForHeader, SameSending;
    var h := sys.h;
    var n := |h.ks|;
    var r := ReceiveOne(c, h, sys.b, m.header, gen);
    if n % 2 == 0 {
      FollowerReceives(c, h, sys.a, sys.b, sys.fromA, sys.fromB, m, gen);
      if r.h == h && SameSending(sys.b, r.state) {
        CountSame(sys.fromB, n - 2, sys.b, r.state);
      } else {
        CountTurn(sys.fromB, n - 2, sys.b, r.state);
      }
    } else {
      LeaderReceives(c, h, sys.b, sys.a, sys.fromB, sys.fromA, m, gen);
      CountSame(sys.fromB, n - 1, sys.b, r.state);
    }
  }

  lemma {:induction false} CountRun(c: Crypto, sys: System, acts: seq<Action>)
    requires c.Lawful() && Inv(c, sys) && CountedBoth(sys)
    ensures CountedBoth(Run(c, sys, acts))
    decreases |acts|
  {
    hide Inv, CountedBoth, SendOne, ReceiveOne, Fresh;
    if acts != [] {
      InvStep(c, sys, acts[0]);
      match acts[0] {
        case SendA => CountSendStep(c, sys);
        case SendB => CountSendStep(c, sys);
        case ToA(m, gen) => if m in sys.fromB && Fresh(c, sys.h, gen) { CountReceiveA(c, sys, m, gen); }
        case ToB(m, gen) => if m in sys.fromA && Fresh(c, sys.h, gen) { CountReceiveB(c, sys, m, gen); }
      }
      CountRun(c, Do(c, sys, acts[0]), acts[1..]);
    }
  }

  /** In every run each header announces exactly how many messages went out under the sender's
      previous key, so what a receiver steps over there is what it has not received. */
  lemma LengthsAnnounced(c: Crypto, xa: Agreed, xb: Agreed, genA: Key, genB: Key, acts: seq<Action>)
    requires c.Lawful() && Matching(c, xa, xb) && FreshStart(c, xb, genA, genB)
    requires StartInitiator(c, xa, genA).Ok? && StartResponder(c, xb, genB, genB).Ok?
    ensures var sys := Run(c, System(StartInitiator(c, xa, genA).value, StartResponder(c, xb, genB, genB).value,
                                     StartHistory(xa, xb, genA, genB), {}, {}), acts);
      && (forall m | m in sys.fromA :: Announces(sys.fromA, m))
      && (forall m | m in sys.fromB :: Announces(sys.fromB, m))
  {
    hide Inv, Run, SentExactly;
    var start := System(StartInitiator(c, xa, genA).value, StartResponder(c, xb, genB, genB).value, StartHistory(xa, xb, genA, genB), {}, {});
    StartInv(c, xa, xb, genA, genB);
    NothingSent(start.a);
    NothingSent(start.b);
    CountRun(c, start, acts);
  }

  lemma NothingSent(s: State)
    requires s.ns == 0 && s.pn == 0
    ensures forall i: nat :: Counted({}, i, s)
  {
    forall i: nat
      ensures Numbers({}, i) == {}
    {
    }
  }
}
