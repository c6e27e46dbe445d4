/** The chain of spqr/chain.go as objects updated in place, each method proved against the
    function of values that describes it. */
module SpqrChainCode {
  import opened Words
  import opened Results
  import opened Erasure
  import opened SpqrCrypto
  import opened SpqrStates
  import opened SpqrHistory
  import opened SpqrChain

  class ChainEpochDirection {
    var ctr: nat
    var next: Bytes
    var prev: map<nat, Bytes>

    function Value(): Dir
      reads this
    {
      Dir(ctr, next, prev)
    }

    constructor (d: Dir)
      ensures Value() == d
    {
      ctr, next, prev := d.ctr, d.next, d.prev;
    }

    method NextKey(c: Crypto) returns (r: Checked<(nat, Bytes)>)
      modifies this
      ensures if old(next) == [] then r == Err(KeyAlreadyRequested) && Value() == old(Value())
              else Value() == DirNext(c, old(Value())) && r == Ok((ctr, DirKey(c, old(Value()))))
    {
      if |next| == 0 {
        return Err(KeyAlreadyRequested);
      }
      ctr := (ctr + 1) % WORD;
      var key := c.hkdf(next, ZeroBytes(32), ChainNext(ctr), 1);
      next := c.hkdf(next, ZeroBytes(32), ChainNext(ctr), 0);
      r := Ok((ctr, key));
    }

    method Collect(current: nat, maxOOO: nat)
      modifies `prev
      ensures prev == Collected(old(prev), current, maxOOO)
    {
      var todo := prev.Keys;
      while todo != {}
        invariant todo <= old(prev).Keys
        invariant forall i :: i in prev <==> i in old(prev) && (i in todo || !((i + maxOOO) % WORD < current))
        invariant forall i | i in prev :: prev[i] == old(prev)[i]
        decreases |todo|
      {
        var i :| i in todo;
        if (i + maxOOO) % WORD < current {
          prev := prev - {i};
        }
        todo := todo - {i};
      }
    }

    method Get(at: nat, maxOOO: nat) returns (r: Checked<Bytes>)
      modifies `prev
      ensures KeyStep(r, Value()) == GetKey(old(Value()), at, maxOOO)
    {
      if (at + maxOOO) % WORD < ctr {
        return Err(KeyTrimmed);
      }
      if at !in prev {
        return Err(KeyAlreadyRequested);
      }
      r := Ok(prev[at]);
      prev := prev - {at};
    }

    /** Step up to just before `at`. */
    method Skip(c: Crypto, at: nat, maxOOO: nat) returns (error: Option<Error>)
      requires c.Sizes() && ctr < at < WORD
      modifies this
      ensures if old(next) == [] && old(ctr) + 1 < at then error == Some(KeyAlreadyRequested) && Value() == old(Value())
              else error == None && Value() == SkipTo(c, old(Value()), at, maxOOO) && (next == [] <==> old(next) == [])
    {
      while ctr + 1 < at
        invariant ctr < at && (next == [] <==> old(next) == []) && (next == [] ==> Value() == old(Value()))
        invariant SkipTo(c, Value(), at, maxOOO) == SkipTo(c, old(Value()), at, maxOOO)
        decreases at - ctr
      {
        var step := NextKey(c);
        if step.Err? {
          return Some(step.error);
        }
        assert |next| == 32;
        if (step.value.0 + maxOOO) % WORD >= at {
          prev := prev[step.value.0 := step.value.1];
        }
      }
      return None;
    }

    method Key(c: Crypto, at: nat, p: Params) returns (r: Checked<Bytes>)
      requires c.Sizes() && at < WORD
      modifies this
      ensures KeyStep(r, Value()) == KeyAt(c, old(Value()), at, p)
    {
      hide SkipTo, Collected, DirKey, DirNext;
      if at < ctr {
        r := Get(at, p.MaxOOO());
        return;
      }
      if at == ctr {
        return Err(KeyAlreadyRequested);
      }
      if at - ctr > p.MaxJump() {
        return Err(KeyJump);
      }
      if at > (ctr + p.MaxOOO()) % WORD {
        prev := map[];
      }
      var error := Skip(c, at, p.MaxOOO());
      if error.Some? {
        return Err(error.value);
      }
      Collect(ctr, p.MaxOOO());
      var step := NextKey(c);
      if step.Err? {
        return Err(step.error);
      }
      r := Ok(step.value.1);
    }
  }

  /** The slice holds the directions by value: a call on one works on it and stores it back. */
  class EpochChain {
    var dir: Direction
    var currentEpoch: nat
    var sendEpoch: nat
    var links: seq<Link>
    var nextRoot: Bytes
    var params: Params

    function Value(): Chain
      reads this
    {
      Chain(dir, currentEpoch, sendEpoch, links, nextRoot, params)
    }

    constructor (c: Crypto, authKey: Bytes, d: Direction, p: Params)
      ensures Value() == NewChain(c, authKey, d, p)
    {
      dir, currentEpoch, sendEpoch, params := d, 0, 0, p;
      nextRoot := c.hkdf(authKey, ZeroBytes(32), ChainStart, 0);
      links := [NewLink(c, authKey, ZeroBytes(32), ChainStart, d)];
    }

    constructor From(ch: Chain)
      ensures Value() == ch
    {
      dir, currentEpoch, sendEpoch, links, nextRoot, params := ch.dir, ch.currentEpoch, ch.sendEpoch, ch.links, ch.nextRoot, ch.params;
    }

    method AddEpoch(c: Crypto, epoch: nat, secret: Bytes) returns (error: Option<Error>)
      modifies this
      ensures match SpqrChain.AddEpoch(c, old(Value()), epoch, secret)
        case Ok(ch) => error == None && Value() == ch
        case Err(e) => error == Some(e) && Value() == old(Value())
    {
      if epoch != currentEpoch + 1 {
        return Some(EpochOutOfRange);
      }
      var salt := nextRoot;
      nextRoot := c.hkdf(secret, salt, ChainAddEpoch, 0);
      currentEpoch := epoch;
      links := links + [NewLink(c, secret, salt, ChainAddEpoch, dir)];
      return None;
    }

    method RetireBefore(epoch: nat, at: nat) returns (idx: nat)
      requires at < |links|
      modifies `sendEpoch, `links
      ensures Value() == Retire(old(Value()), epoch, at) && idx == (if at > 1 then 1 else at)
    {
      sendEpoch := epoch;
      idx := at;
      while idx > 1
        invariant idx <= at < |old(links)| && (idx == at || idx >= 1) && links == old(links)[at - idx..] && sendEpoch == epoch
      {
        links := links[1..];
        idx := idx - 1;
      }
      ghost var kept := links;
      var i := 0;
      while i < idx
        invariant i <= idx < |links| == |kept| && sendEpoch == epoch
        invariant forall k | 0 <= k < |kept| :: links[k] == if k < i then Close(kept[k]) else kept[k]
      {
        links := links[i := Close(links[i])];
        i := i + 1;
      }
      assert links == Retire(old(Value()), epoch, at).links;
    }

    method SendKey(c: Crypto, epoch: nat) returns (r: Checked<(nat, Bytes)>)
      modifies this
      ensures SendStep(r, Value()) == SpqrChain.SendKey(c, old(Value()), epoch)
    {
      hide Retire, DirNext, DirKey;
      if epoch < sendEpoch {
        return Err(SendKeyEpochDecreased);
      }
      var index := EpochIndex(Value(), epoch);
      if index.Err? {
        return Err(index.error);
      }
      var idx := index.value;
      if epoch != sendEpoch {
        idx := RetireBefore(epoch, idx);
        assert idx < |links| by { RetireLength(old(Value()), epoch, index.value); }
      }
      var d := new ChainEpochDirection(links[idx].send);
      r := d.NextKey(c);
      links := links[idx := links[idx].(send := d.Value())];
    }

    method RecvKey(c: Crypto, epoch: nat, index: nat) returns (r: Checked<Bytes>)
      requires c.Sizes() && index < WORD
      modifies this
      ensures RecvStep(r, Value()) == SpqrChain.RecvKey(c, old(Value()), epoch, index)
    {
      hide KeyAt;
      var at := EpochIndex(Value(), epoch);
      if at.Err? {
        return Err(at.error);
      }
      var d := new ChainEpochDirection(links[at.value].recv);
      r := d.Key(c, index, params);
      links := links[at.value := links[at.value].(recv := d.Value())];
    }
  }

  lemma RetireLength(ch: Chain, epoch: nat, idx: nat)
    requires idx < |ch.links|
    ensures (if idx > 1 then 1 else idx) < |Retire(ch, epoch, idx).links|
  {
  }
}
