/** Sender key states and records as the objects of senderkeys/, updated in place. */
module SenderKeysCode {
  import opened Results
  import opened SenderKeys

  /** Distribution and key number. */
  datatype Id = Id(distribution: nat, key: nat)

  function SteppedOver(d: Derivation, s: State, iteration: nat): State {
    s.(messageKeys := StepUp(d, s, iteration).messageKeys)
  }

  class SenderKeyState {
    const id: Id
    var chainIteration: nat
    var chainSeed: Seed
    var messageKeys: seq<MessageKey>

    function Value(): State
      reads this
    {
      State(chainIteration, chainSeed, messageKeys)
    }

    constructor (id: Id, iteration: nat, seed: Seed)
      ensures this.id == id && Value() == State(iteration, seed, [])
    {
      this.id := id;
      chainIteration, chainSeed, messageKeys := iteration, seed, [];
    }

    method AddMessageKey(k: MessageKey)
      modifies `messageKeys
      ensures messageKeys == Added(old(messageKeys), k)
    {
      messageKeys := messageKeys + [k];
      if |messageKeys| > MAX_KEYS {
        var trim := |messageKeys| - MAX_KEYS;
        messageKeys := messageKeys[trim..];
      }
    }

    method RemoveMessageKey(iteration: nat) returns (k: Option<MessageKey>)
      modifies `messageKeys
      ensures var i := Find(old(messageKeys), iteration);
        if i == |old(messageKeys)| then k == None && messageKeys == old(messageKeys)
        else k == Some(old(messageKeys)[i]) && messageKeys == Without(old(messageKeys), i)
    {
      hide Find;
      var i := 0;
      while i < |messageKeys|
        invariant i <= |messageKeys| && messageKeys == old(messageKeys)
        invariant forall j | 0 <= j < i :: messageKeys[j].iteration != iteration
      {
        if messageKeys[i].iteration == iteration {
          k := Some(messageKeys[i]);
          messageKeys := messageKeys[..i] + messageKeys[i + 1..];
          return;
        }
        i := i + 1;
      }
      k := None;
    }

    /** Running into the last iteration leaves the keys stepped over in the list and the chain where it
        was; the caller then drops this state. Any other failure changes nothing. */
    method GetSenderMessageKey(d: Derivation, iteration: nat) returns (r: Checked<MessageKey>)
      modifies this
      ensures match TakeKey(d, old(Value()), iteration)
        case Ok(t) => r == Ok(t.key) && Value() == t.state
        case Err(e) => r == Err(e) && Value() == (if e == CounterOverflow then SteppedOver(d, old(Value()), iteration) else old(Value()))
    {
      hide Find, Last;
      if chainIteration > iteration {
        var k := RemoveMessageKey(iteration);
        if k.None? {
          return Err(Duplicate);
        }
        return Ok(k.value);
      }
      if iteration - chainIteration > MAX_KEYS {
        return Err(MaxSkipExceeded);
      }
      var it, seed := chainIteration, chainSeed;
      while it < iteration
        invariant it <= iteration && chainIteration == old(chainIteration) && chainSeed == old(chainSeed)
        invariant StepUp(d, State(it, seed, messageKeys), iteration) == StepUp(d, old(Value()), iteration)
        decreases iteration - it
      {
        AddMessageKey(MessageKey(it, d.message(seed)));
        it, seed := it + 1, d.next(seed);
      }
      if it >= MAX_ITERATION {
        return Err(CounterOverflow);
      }
      chainIteration := it + 1;
      chainSeed := d.next(seed);
      r := Ok(MessageKey(it, d.message(seed)));
    }
  }

  /** The states of a record whose id is not the given one, in order. */
  function Others(states: seq<SenderKeyState>, id: Id): seq<SenderKeyState> {
    if states == [] then []
    else (if states[0].id == id then [] else [states[0]]) + Others(states[1..], id)
  }

  lemma {:induction false} OthersSnoc(states: seq<SenderKeyState>, s: SenderKeyState, id: Id)
    ensures Others(states + [s], id) == Others(states, id) + if s.id == id then [] else [s]
  {
    if states != [] {
      assert (states + [s])[1..] == states[1..] + [s];
      OthersSnoc(states[1..], s, id);
    }
  }

  lemma {:induction false} OthersApart(states: seq<SenderKeyState>, id: Id)
    ensures forall s | s in Others(states, id) :: s in states && s.id != id
    ensures |Others(states, id)| <= |states|
    ensures forall s | s in states && s.id != id :: s in Others(states, id)
  {
    if states != [] {
      OthersApart(states[1..], id);
    }
  }

  class Record {
    var states: seq<SenderKeyState>
    const maxStates: nat

    constructor (max: int)
      ensures states == [] && maxStates == if max <= 0 then 5 else max
    {
      states := [];
      maxStates := if max <= 0 then 5 else max;
    }

    /** The first state of an id. */
    method Lookup(id: Id) returns (s: SenderKeyState?)
      ensures s == null <==> forall t | t in states :: t.id != id
      ensures s != null ==> s.id == id && exists i :: 0 <= i < |states| && states[i] == s && forall t | t in states[..i] :: t.id != id
    {
      s := null;
      var i := 0;
      while i < |states|
        invariant i <= |states| && s == null && forall t | t in states[..i] :: t.id != id
      {
        if states[i].id == id {
          s := states[i];
          return;
        }
        i := i + 1;
      }
      assert states[..i] == states;
    }

    /** Install a state in front: it replaces the one with its id, the others keep their order, and
        only the last may go. */
    method SetState(next: SenderKeyState)
      modifies `states
      ensures var all := [next] + Others(old(states), next.id);
        states == if |all| > maxStates then all[..maxStates] else all
    {
      var filtered := [];
      var i := 0;
      while i < |states|
        invariant i <= |states| && states == old(states) && filtered == Others(states[..i], next.id)
      {
        assert states[..i + 1] == states[..i] + [states[i]];
        OthersSnoc(states[..i], states[i], next.id);
        if states[i].id != next.id {
          filtered := filtered + [states[i]];
        }
        i := i + 1;
      }
      assert states[..i] == states;
      states := [next] + filtered;
      if |states| > maxStates {
        states := states[..maxStates];
      }
    }
  }
}
