/** Which bytes are read as a message (spqr/message.go): exactly those that spell it. A number may be
    spelled with more bytes than it needs, up to ten, and loses what goes past its 64, 32 or 16 bits. */
module SpqrWireSpelling {
  import opened Words
  import opened Results
  import opened Erasure
  import opened Codec
  import opened SpqrStates
  import opened SpqrWire

  // ---------------------------------------------------------------- varints

  /** Every byte but the last has its top bit set. */
  ghost predicate Spelling(b: seq<Byte>) {
    1 <= |b| <= 10 && b[|b| - 1] < 128 && forall i | 0 <= i < |b| - 1 :: b[i] >= 128
  }

  /** Seven bits to a byte, the least significant first. */
  function Spelled(b: seq<Byte>): nat {
    if b == [] then 0 else b[0] % 128 + 128 * Spelled(b[1..])
  }

  /** The 64-bit number it stands for. */
  function Word64(b: seq<Byte>): nat {
    Spelled(b) % WORD64
  }

  lemma AccumulateMore(x: nat, bits: nat, weight: nat, more: nat)
    ensures Accumulate(Accumulate(x, bits, weight), more, 128 * weight) == Accumulate(x, bits + 128 * more, weight)
  {
    assert (x + (bits + 128 * more) * weight) == (x + bits * weight) + more * (128 * weight);
    ModAdd(x + bits * weight, more * (128 * weight));
  }

  lemma ModAdd(a: nat, b: nat)
    ensures (a % WORD64 + b) % WORD64 == (a + b) % WORD64
  {
  }

  lemma SpellingStep(b: seq<Byte>)
    requires Spelling(b)
    ensures if b[0] < 128 then |b| == 1 && Spelled(b) == b[0]
      else |b| > 1 && Spelling(b[1..]) && Spelled(b) == b[0] - 128 + 128 * Spelled(b[1..])
  {
  }

  lemma SpellingMore(first: Byte, more: seq<Byte>)
    requires first >= 128 && Spelling(more) && |more| < 10
    ensures Spelling([first] + more) && Spelled([first] + more) == first - 128 + 128 * Spelled(more)
  {
    assert ([first] + more)[1..] == more;
  }

  lemma {:induction false} VarintRead(data: seq<Byte>, x: nat, k: nat) returns (b: seq<Byte>)
    requires ReadVarint(data, x, k).Ok?
    ensures var r := ReadVarint(data, x, k).value;
      && 1 <= |b| <= 10 - k && Spelling(b) && data == b + r.rest && r.value == Accumulate(x, Spelled(b), Pow128(k))
    decreases |data|
  {
    hide Accumulate, Pow128, Spelled, Spelling, ReadVarint;
    assert data != [] by { ReadNothing(x, k); }
    assert data[0..] == data;
    ReadStep(data, 0, x, k);
    if data[0] < 128 {
      b := [data[0]];
      SpellingLast(data[0]);
      assert data == b + data[1..];
    } else {
      var y := Accumulate(x, data[0] - 128, Pow128(k));
      var more := VarintRead(data[1..], y, k + 1);
      b := [data[0]] + more;
      assert data == [data[0]] + data[1..];
      SpellingMore(data[0], more);
      Pow128Next(k);
      AccumulateMore(x, data[0] - 128, Pow128(k), Spelled(more));
    }
  }

  lemma SpellingLast(last: Byte)
    requires last < 128
    ensures Spelling([last]) && Spelled([last]) == last
  {
  }

  lemma {:induction false} SpellingReads(b: seq<Byte>, rest: seq<Byte>, x: nat, k: nat)
    requires Spelling(b) && b != [] && |b| + k <= 10
    ensures ReadVarint(b + rest, x, k) == Ok(Read(Accumulate(x, Spelled(b), Pow128(k)), rest))
    decreases |b|
  {
    hide Accumulate, Pow128, Spelled, Spelling, ReadVarint;
    assert (b + rest)[0..] == b + rest && (b + rest)[1..] == b[1..] + rest;
    ReadStep(b + rest, 0, x, k);
    SpellingStep(b);
    if |b| == 1 {
      assert b[1..] + rest == rest;
    } else {
      SpellingReads(b[1..], rest, Accumulate(x, b[0] - 128, Pow128(k)), k + 1);
      Pow128Next(k);
      AccumulateMore(x, b[0] - 128, Pow128(k), Spelled(b[1..]));
    }
  }

  /** A number is read exactly from its spellings. */
  lemma VarintExactly(data: seq<Byte>, v: nat, rest: seq<Byte>)
    ensures ReadVarint(data, 0, 0) == Ok(Read(v, rest)) <==> exists b :: Spelling(b) && data == b + rest && v == Word64(b)
  {
    hide ReadVarint, Spelling, Spelled, Pow128;
    Pow128Start();
    if ReadVarint(data, 0, 0) == Ok(Read(v, rest)) {
      var b := VarintRead(data, 0, 0);
    } else if b :| Spelling(b) && data == b + rest && v == Word64(b) {
      SpellingSize(b);
      SpellingReads(b, rest, 0, 0);
    }
  }

  lemma SpellingSize(b: seq<Byte>)
    requires Spelling(b)
    ensures 1 <= |b| <= 10
  {
  }

  // ---------------------------------------------------------------- messages

  /** How the numbers of a message are spelled. */
  datatype Numbers = Numbers(epoch: seq<Byte>, index: seq<Byte>, chunk: seq<Byte>)

  function Body(m: V1Message, x: Numbers): seq<Byte> {
    [m.kind] + if m.chunk.Some? then x.chunk + m.chunk.value.data else []
  }

  function SpelledMessage(m: V1Message, x: Numbers): seq<Byte> {
    [VERSION_1] + (x.epoch + (x.index + Body(m, x)))
  }

  ghost predicate Fits(m: V1Message, index: nat, x: Numbers) {
    && Spelling(x.epoch) && m.epoch == Word64(x.epoch)
    && Spelling(x.index) && index == Word64(x.index) % 0x1_0000_0000
    && FitsBody(m, x)
  }

  ghost predicate FitsBody(m: V1Message, x: Numbers) {
    && (m.chunk.Some? <==> HasChunk(m.kind))
    && (m.chunk.Some? ==> |m.chunk.value.data| == 32 && Spelling(x.chunk) && m.chunk.value.index == Word64(x.chunk) % 0x10000)
  }

  lemma ChunkRead(data: seq<Byte>) returns (c: seq<Byte>)
    requires ReadChunk(data).Ok?
    ensures var r := ReadChunk(data).value;
      && |r.value.data| == 32 && Spelling(c) && r.value.index == Word64(c) % 0x10000 && data == c + r.value.data + r.rest
  {
    hide ReadVarint, Spelling, Word64;
    var i := ReadVarint(data, 0, 0).value;
    VarintExactly(data, i.value, i.rest);
    c :| Spelling(c) && data == c + i.rest && i.value == Word64(c);
    assert i.rest == i.rest[..32] + i.rest[32..];
  }

  lemma BodyRead(data: seq<Byte>, epoch: nat) returns (c: seq<Byte>)
    requires ReadPayload(data, epoch).Ok?
    ensures var r := ReadPayload(data, epoch).value;
      forall x: Numbers | x.chunk == c :: data == Body(r.value, x) + r.rest && FitsBody(r.value, x)
  {
    hide ReadChunk, Spelling, Word64, HasChunk;
    c := [];
    if HasChunk(data[0]) {
      c := ChunkRead(data[1..]);
    }
    assert data == [data[0]] + data[1..];
  }

  lemma BodyReads(m: V1Message, x: Numbers, rest: seq<Byte>)
    requires FitsBody(m, x)
    ensures ReadPayload(Body(m, x) + rest, m.epoch) == Ok(Read(m, rest))
  {
    hide ReadVarint, Spelling, Word64;
    var data := Body(m, x) + rest;
    if m.chunk.Some? {
      var tail := m.chunk.value.data + rest;
      assert data[1..] == x.chunk + tail;
      VarintExactly(data[1..], Word64(x.chunk), tail);
      assert tail[..32] == m.chunk.value.data && tail[32..] == rest;
    } else {
      assert data[1..] == rest;
    }
  }

  /** Bytes are read as a message and its index exactly when they begin with a spelling of them. */
  lemma ReadsExactly(data: seq<Byte>, m: V1Message, index: nat, rest: seq<Byte>)
    ensures Deserialize(data) == Ok(Read(Parsed(m, index), rest)) <==> exists x :: Fits(m, index, x) && data == SpelledMessage(m, x) + rest
  {
    hide Deserialize, Fits, SpelledMessage;
    if Deserialize(data) == Ok(Read(Parsed(m, index), rest)) {
      var x := MessageRead(data);
    } else if x :| Fits(m, index, x) && data == SpelledMessage(m, x) + rest {
      MessageReads(m, index, x, rest);
    }
  }

  lemma MessageRead(data: seq<Byte>) returns (x: Numbers)
    requires Deserialize(data).Ok?
    ensures var r := Deserialize(data).value;
      Fits(r.value.msg, r.value.index, x) && data == SpelledMessage(r.value.msg, x) + r.rest
  {
    hide ReadVarint, ReadPayload, Spelling, Word64, FitsBody, Body;
    var e := ReadVarint(data[1..], 0, 0).value;
    VarintExactly(data[1..], e.value, e.rest);
    var epoch :| Spelling(epoch) && data[1..] == epoch + e.rest && e.value == Word64(epoch);
    var i := ReadVarint(e.rest, 0, 0).value;
    VarintExactly(e.rest, i.value, i.rest);
    var index :| Spelling(index) && e.rest == index + i.rest && i.value == Word64(index);
    var chunk := BodyRead(i.rest, e.value);
    x := Numbers(epoch, index, chunk);
    var m := ReadPayload(i.rest, e.value).value;
    assert m.value.epoch == e.value by { PayloadEpoch(i.rest, e.value); }
    Joined(data, epoch, index, Body(m.value, x), m.rest);
  }

  lemma Joined(data: seq<Byte>, epoch: seq<Byte>, index: seq<Byte>, body: seq<Byte>, rest: seq<Byte>)
    requires data != [] && data[0] == VERSION_1 && data[1..] == epoch + (index + (body + rest))
    ensures data == [VERSION_1] + (epoch + (index + body)) + rest
  {
    assert data == [VERSION_1] + data[1..];
  }

  lemma PayloadEpoch(data: seq<Byte>, epoch: nat)
    requires ReadPayload(data, epoch).Ok?
    ensures ReadPayload(data, epoch).value.value.epoch == epoch
  {
    hide ReadVarint;
  }

  lemma MessageReads(m: V1Message, index: nat, x: Numbers, rest: seq<Byte>)
    requires Fits(m, index, x)
    ensures Deserialize(SpelledMessage(m, x) + rest) == Ok(Read(Parsed(m, index), rest))
  {
    hide ReadVarint, ReadPayload, Spelling, Word64, FitsBody, Body;
    var data := SpelledMessage(m, x) + rest;
    var t2 := Body(m, x) + rest;
    var t1 := x.index + t2;
    assert data[1..] == x.epoch + t1;
    VarintExactly(data[1..], m.epoch, t1);
    VarintExactly(t1, Word64(x.index), t2);
    BodyReads(m, x, rest);
  }
}
