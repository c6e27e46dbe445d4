/** The chain of epochs in spqr/chain.go: a root that each epoch's secret is mixed into, and for
    each recent epoch a direction for sending and one for receiving. */
module SpqrChain {
  import opened Words
  import opened Results
  import opened Erasure
  import opened SpqrCrypto
  import opened SpqrStates
  import opened SpqrHistory

  datatype Direction = A2B | B2A

  function Other(dir: Direction): Direction {
    if dir == A2B then B2A else A2B
  }

  /** The HKDF output block that seeds a direction; block 0 is the next root. */
  function SeedBlock(dir: Direction): nat {
    if dir == A2B then 1 else 2
  }

  datatype Link = Link(send: Dir, recv: Dir)

  datatype Chain = Chain(dir: Direction, currentEpoch: nat, sendEpoch: nat, links: seq<Link>, nextRoot: Bytes, params: Params)

  function NewLink(c: Crypto, ikm: Bytes, salt: Bytes, info: Info, dir: Direction): Link {
    Link(NewDir(c.hkdf(ikm, salt, info, SeedBlock(dir))), NewDir(c.hkdf(ikm, salt, info, SeedBlock(Other(dir)))))
  }

  function NewChain(c: Crypto, authKey: Bytes, dir: Direction, params: Params): Chain {
    Chain(dir, 0, 0, [NewLink(c, authKey, ZeroBytes(32), ChainStart, dir)], c.hkdf(authKey, ZeroBytes(32), ChainStart, 0), params)
  }

  function AddEpoch(c: Crypto, ch: Chain, epoch: nat, secret: Bytes): Checked<Chain> {
    if epoch != ch.currentEpoch + 1 then Err(EpochOutOfRange)
    else Ok(Chain(ch.dir, epoch, ch.sendEpoch, ch.links + [NewLink(c, secret, ch.nextRoot, ChainAddEpoch, ch.dir)],
                  c.hkdf(secret, ch.nextRoot, ChainAddEpoch, 0), ch.params))
  }

  function EpochIndex(ch: Chain, epoch: nat): (r: Checked<nat>)
    ensures r.Ok? ==> r.value < |ch.links| && r.value + ch.currentEpoch == |ch.links| - 1 + epoch
  {
    if epoch > ch.currentEpoch || ch.currentEpoch - epoch >= |ch.links| then Err(EpochOutOfRange)
    else Ok(|ch.links| - 1 - (ch.currentEpoch - epoch))
  }

  function Close(link: Link): Link {
    link.(send := link.send.(next := []))
  }

  /** Sending moves to a later epoch: one link before it stays, closed for sending. */
  function Retire(ch: Chain, epoch: nat, idx: nat): Chain
    requires idx < |ch.links|
  {
    var drop := if idx > 1 then idx - 1 else 0;
    var links := seq(|ch.links| - drop, k requires 0 <= k < |ch.links| - drop =>
      if k < idx - drop then Close(ch.links[k + drop]) else ch.links[k + drop]);
    ch.(sendEpoch := epoch, links := links)
  }

  datatype SendStep = SendStep(result: Checked<(nat, Bytes)>, chain: Chain)

  function SendKey(c: Crypto, ch: Chain, epoch: nat): SendStep {
    if epoch < ch.sendEpoch then SendStep(Err(SendKeyEpochDecreased), ch)
    else
      match EpochIndex(ch, epoch)
      case Err(e) => SendStep(Err(e), ch)
      case Ok(idx) =>
        var ready := if epoch != ch.sendEpoch then Retire(ch, epoch, idx) else ch;
        SendNow(c, ready, if epoch != ch.sendEpoch && idx > 1 then 1 else idx)
  }

  function SendNow(c: Crypto, ch: Chain, idx: nat): SendStep
    requires idx < |ch.links|
  {
    var link := ch.links[idx];
    if link.send.next == [] then SendStep(Err(KeyAlreadyRequested), ch)
    else
      var next := DirNext(c, link.send);
      SendStep(Ok((next.ctr, DirKey(c, link.send))), ch.(links := ch.links[idx := link.(send := next)]))
  }

  datatype RecvStep = RecvStep(result: Checked<Bytes>, chain: Chain)

  function RecvKey(c: Crypto, ch: Chain, epoch: nat, index: nat): RecvStep
    requires index < WORD
  {
    match EpochIndex(ch, epoch)
    case Err(e) => RecvStep(Err(e), ch)
    case Ok(idx) =>
      var link := ch.links[idx];
      var step := KeyAt(c, link.recv, index, ch.params);
      RecvStep(step.result, ch.(links := ch.links[idx := link.(recv := step.dir)]))
  }

  // ---------------------------------------------------------------- which epochs are held

  /** The oldest epoch kept: the one before the epoch being sent in. */
  function Oldest(ch: Chain): nat {
    if ch.sendEpoch == 0 then 0 else ch.sendEpoch - 1
  }

  predicate Shaped(ch: Chain) {
    && ch.sendEpoch <= ch.currentEpoch
    && |ch.links| == ch.currentEpoch + 1 - Oldest(ch)
    && (forall k | ch.sendEpoch - Oldest(ch) <= k < |ch.links| :: ch.links[k].send.next != [])
  }

  /** The link of an epoch that is held. */
  function LinkOf(ch: Chain, e: nat): Link
    requires Shaped(ch) && Oldest(ch) <= e <= ch.currentEpoch
  {
    ch.links[e - Oldest(ch)]
  }

  lemma AddShaped(c: Crypto, ch: Chain, secret: Bytes)
    requires c.Sizes() && Shaped(ch)
    ensures var r := AddEpoch(c, ch, ch.currentEpoch + 1, secret);
      && r.Ok? && Shaped(r.value)
      && r.value.currentEpoch == ch.currentEpoch + 1 && r.value.sendEpoch == ch.sendEpoch
      && (forall e | Oldest(ch) <= e <= ch.currentEpoch :: LinkOf(r.value, e) == LinkOf(ch, e))
      && LinkOf(r.value, ch.currentEpoch + 1) == NewLink(c, secret, ch.nextRoot, ChainAddEpoch, ch.dir)
  {
  }

  lemma RetireShaped(ch: Chain, epoch: nat)
    requires Shaped(ch) && ch.sendEpoch < epoch <= ch.currentEpoch
    ensures var r := Retire(ch, epoch, epoch - Oldest(ch));
      && Shaped(r) && r.sendEpoch == epoch && r.(links := ch.links, sendEpoch := ch.sendEpoch) == ch
      && (forall e | epoch <= e <= ch.currentEpoch :: LinkOf(r, e) == LinkOf(ch, e))
      && LinkOf(r, epoch - 1) == Close(LinkOf(ch, epoch - 1))
  {
  }

  lemma SendNowShaped(c: Crypto, ch: Chain)
    requires c.Sizes() && Shaped(ch)
    ensures var idx := ch.sendEpoch - Oldest(ch);
      var send := LinkOf(ch, ch.sendEpoch).send;
      var r := SendNow(c, ch, idx);
      && r.result == Ok((DirNext(c, send).ctr, DirKey(c, send))) && Shaped(r.chain) && r.chain.(links := ch.links) == ch
      && r.chain.links == ch.links[idx := LinkOf(ch, ch.sendEpoch).(send := DirNext(c, send))]
  {
  }

  /** A key for sending is to be had in exactly the epochs from the one being sent in to the latest.
      The epoch before it stays, to receive in, and nothing older does. */
  lemma SendShaped(c: Crypto, ch: Chain, epoch: nat)
    requires c.Sizes() && Shaped(ch)
    ensures SendKey(c, ch, epoch).result.Ok? <==> ch.sendEpoch <= epoch <= ch.currentEpoch
    ensures var r := SendKey(c, ch, epoch);
      r.result.Ok? ==>
        && Shaped(r.chain) && r.chain.sendEpoch == epoch && r.chain.(links := ch.links, sendEpoch := ch.sendEpoch) == ch
        && Oldest(ch) <= Oldest(r.chain)
        && r.result.value == (DirNext(c, LinkOf(ch, epoch).send).ctr, DirKey(c, LinkOf(ch, epoch).send))
        && (forall e | Oldest(r.chain) <= e <= ch.currentEpoch :: LinkOf(r.chain, e).recv == LinkOf(ch, e).recv)
        && (forall e | epoch < e <= ch.currentEpoch :: LinkOf(r.chain, e).send == LinkOf(ch, e).send)
        && LinkOf(r.chain, epoch).send == DirNext(c, LinkOf(ch, epoch).send)
        && (epoch > 0 ==> LinkOf(r.chain, epoch - 1).send.next == if ch.sendEpoch < epoch then [] else LinkOf(ch, epoch - 1).send.next)
  {
    hide Retire, SendNow, DirNext, DirKey;
    if ch.sendEpoch < epoch <= ch.currentEpoch {
      SendLater(c, ch, epoch);
    } else if ch.sendEpoch == epoch {
      SendNowShaped(c, ch);
    }
  }

  lemma SendLater(c: Crypto, ch: Chain, epoch: nat)
    requires c.Sizes() && Shaped(ch) && ch.sendEpoch < epoch <= ch.currentEpoch
    ensures var r := SendKey(c, ch, epoch);
      && r.result == Ok((DirNext(c, LinkOf(ch, epoch).send).ctr, DirKey(c, LinkOf(ch, epoch).send)))
      && Shaped(r.chain) && r.chain.sendEpoch == epoch && r.chain.(links := ch.links, sendEpoch := ch.sendEpoch) == ch
      && (forall e | epoch < e <= ch.currentEpoch :: LinkOf(r.chain, e) == LinkOf(ch, e))
      && LinkOf(r.chain, epoch) == LinkOf(ch, epoch).(send := DirNext(c, LinkOf(ch, epoch).send))
      && LinkOf(r.chain, epoch - 1) == Close(LinkOf(ch, epoch - 1))
  {
    hide Retire, SendNow, DirNext, DirKey;
    RetireShaped(ch, epoch);
    SendNowShaped(c, Retire(ch, epoch, epoch - Oldest(ch)));
  }

  lemma RecvShaped(c: Crypto, ch: Chain, epoch: nat, index: nat)
    requires c.Sizes() && Shaped(ch) && index < WORD
    ensures var r := RecvKey(c, ch, epoch, index);
      && Shaped(r.chain) && r.chain.(links := ch.links) == ch
      && (r.result.Ok? ==> Oldest(ch) <= epoch <= ch.currentEpoch)
      && (forall e | Oldest(ch) <= e <= ch.currentEpoch :: LinkOf(r.chain, e).send == LinkOf(ch, e).send)
      && (forall e | Oldest(ch) <= e <= ch.currentEpoch && e != epoch :: LinkOf(r.chain, e).recv == LinkOf(ch, e).recv)
    ensures var r := RecvKey(c, ch, epoch, index);
      Oldest(ch) <= epoch <= ch.currentEpoch ==>
        && r.result == KeyAt(c, LinkOf(ch, epoch).recv, index, ch.params).result
        && LinkOf(r.chain, epoch).recv == KeyAt(c, LinkOf(ch, epoch).recv, index, ch.params).dir
  {
  }

  /** Each direction has its own block of the key derivation, and what one party sends with the other receives
      with. */
  lemma SeedsMirror(c: Crypto, ikm: Bytes, salt: Bytes, info: Info)
    ensures var a, b := NewLink(c, ikm, salt, info, A2B), NewLink(c, ikm, salt, info, B2A);
      && a.send == b.recv == NewDir(c.hkdf(ikm, salt, info, 1)) && a.recv == b.send == NewDir(c.hkdf(ikm, salt, info, 2))
  {
  }

  /** An epoch is added exactly after the latest, and mixes its secret into the root. */
  lemma AddsOnlyNext(c: Crypto, ch: Chain, epoch: nat, secret: Bytes)
    ensures AddEpoch(c, ch, epoch, secret).Ok? <==> epoch == ch.currentEpoch + 1
    ensures AddEpoch(c, ch, epoch, secret).Err? ==> AddEpoch(c, ch, epoch, secret).error == EpochOutOfRange
    ensures AddEpoch(c, ch, epoch, secret).Ok? ==> AddEpoch(c, ch, epoch, secret).value.nextRoot == c.hkdf(secret, ch.nextRoot, ChainAddEpoch, 0)
  {
  }

  /** Outside the epochs held, each refusal has its own error, and nothing changes. */
  lemma RefusesOtherEpochs(c: Crypto, ch: Chain, epoch: nat, index: nat)
    requires Shaped(ch) && index < WORD
    ensures epoch < ch.sendEpoch ==> SendKey(c, ch, epoch) == SendStep(Err(SendKeyEpochDecreased), ch)
    ensures epoch > ch.currentEpoch ==> SendKey(c, ch, epoch) == SendStep(Err(EpochOutOfRange), ch)
    ensures !(Oldest(ch) <= epoch <= ch.currentEpoch) ==> RecvKey(c, ch, epoch, index) == RecvStep(Err(EpochOutOfRange), ch)
  {
  }
}
