/** The wire form of SPQR messages (spqr/message.go): variable-length integers, seven bits to a
    byte, least significant first. */
module SpqrWire {
  import opened Words
  import opened Results
  import opened Erasure
  import opened Codec
  import opened SpqrCrypto
  import opened SpqrStates

  const WORD64 := 0x1_0000_0000_0000_0000

  // ---------------------------------------------------------------- varints

  function Varint(v: nat): (out: seq<Byte>)
    ensures |out| >= 1
  {
    if v < 128 then [v] else [128 + v % 128] + Varint(v / 128)
  }

  function Pow128(k: nat): (p: nat)
    ensures p >= 1
  {
    if k == 0 then 1 else 128 * Pow128(k - 1)
  }

  /** The next seven bits above what is there; a 64-bit word loses what goes past its end. */
  function Accumulate(x: nat, bits: nat, weight: nat): nat {
    (x + bits * weight) % WORD64
  }

  /** x is what k bytes have given so far. */
  function ReadVarint(data: seq<Byte>, x: nat, k: nat): (r: Checked<Read<nat>>)
    ensures r.Ok? ==> |r.value.rest| < |data| && r.value.rest == data[|data| - |r.value.rest|..]
  {
    if data == [] then Err(InvalidMessage)
    else if data[0] < 128 then
      if 7 * k >= 64 then Err(InvalidMessage) else Ok(Read(Accumulate(x, data[0], Pow128(k)), data[1..]))
    else ReadVarint(data[1..], Accumulate(x, data[0] - 128, Pow128(k)), k + 1)
  }

  lemma Pow128Small(k: nat)
    requires Pow128(k) < WORD64
    ensures 7 * k < 64
  {
    if k >= 10 {
      Pow128Mono(10, k);
      Pow128Ten();
    }
  }

  lemma {:induction false} Pow128Mono(i: nat, k: nat)
    requires i <= k
    ensures Pow128(i) <= Pow128(k)
  {
    if i < k {
      Pow128Mono(i, k - 1);
    }
  }

  lemma Pow128Ten()
    ensures Pow128(10) > WORD64
  {
    assert Pow128(2) == 16384;
    assert Pow128(4) == 128 * (128 * Pow128(2));
    assert Pow128(6) == 128 * (128 * Pow128(4));
    assert Pow128(8) == 128 * (128 * Pow128(6));
    assert Pow128(10) == 128 * (128 * Pow128(8));
  }

  /** Reading back what was written, whatever follows. */
  lemma {:induction false} ReadsVarint(v: nat, rest: seq<Byte>, x: nat, k: nat)
    requires x + v * Pow128(k) < WORD64 && (v == 0 ==> k == 0)
    ensures ReadVarint(Varint(v) + rest, x, k) == Ok(Read(x + v * Pow128(k), rest))
    decreases v
  {
    hide Pow128, ReadVarint;
    var data := Varint(v) + rest;
    if v < 128 {
      Pow128Fits(v, x, k);
      assert data[0] == v && data[1..] == rest;
      ReadLast(data, x, k);
    } else {
      var q, b := v / 128, v % 128;
      assert data[0] == 128 + b && data[1..] == Varint(q) + rest;
      Split(q, b, k);
      ReadMore(data, x, k);
      ReadsVarint(q, rest, x + b * Pow128(k), k + 1);
    }
  }

  lemma ReadLast(data: seq<Byte>, x: nat, k: nat)
    requires data != [] && data[0] < 128 && 7 * k < 64 && x + data[0] * Pow128(k) < WORD64
    ensures ReadVarint(data, x, k) == Ok(Read(x + data[0] * Pow128(k), data[1..]))
  {
    hide Pow128, Accumulate;
    SmallWord(x, data[0], Pow128(k));
  }

  lemma ReadMore(data: seq<Byte>, x: nat, k: nat)
    requires data != [] && data[0] >= 128 && x + (data[0] - 128) * Pow128(k) < WORD64
    ensures ReadVarint(data, x, k) == ReadVarint(data[1..], x + (data[0] - 128) * Pow128(k), k + 1)
  {
    hide Pow128, Accumulate, ReadVarint;
    SmallWord(x, data[0] - 128, Pow128(k));
    ReadTail(data, x, k);
  }

  lemma SmallWord(x: nat, bits: nat, weight: nat)
    requires x + bits * weight < WORD64
    ensures Accumulate(x, bits, weight) == x + bits * weight
  {
  }

  lemma ReadTail(data: seq<Byte>, x: nat, k: nat)
    requires data != [] && data[0] >= 128
    ensures ReadVarint(data, x, k) == ReadVarint(data[1..], Accumulate(x, data[0] - 128, Pow128(k)), k + 1)
  {
    hide Pow128, Accumulate;
  }

  lemma Pow128Fits(v: nat, x: nat, k: nat)
    requires x + v * Pow128(k) < WORD64 && (v == 0 ==> k == 0)
    ensures 7 * k < 64
  {
    if v > 0 {
      assert Pow128(k) <= v * Pow128(k) by { Times(v, Pow128(k)); }
      Pow128Small(k);
    }
  }

  lemma Times(v: nat, p: nat)
    requires v >= 1
    ensures p <= v * p
  {
  }

  lemma Split(q: nat, b: nat, k: nat)
    ensures (128 * q + b) * Pow128(k) == b * Pow128(k) + q * Pow128(k + 1)
  {
    var p := Pow128(k);
    assert (128 * q + b) * p == b * p + q * (128 * p);
  }

  lemma VarintRoundTrip(v: nat, rest: seq<Byte>)
    requires v < WORD64
    ensures ReadVarint(Varint(v) + rest, 0, 0) == Ok(Read(v, rest))
  {
    hide Varint, ReadVarint, Pow128;
    Pow128Start();
    ReadsVarint(v, rest, 0, 0);
  }

  /** Ten bytes are enough for a 64-bit word. */
  method EncodeVarint(v: nat, out: seq<Byte>) returns (r: seq<Byte>)
    requires v < WORD64
    ensures r == out + Varint(v)
  {
    r := out;
    var w: nat := v;
    for i := 0 to 10
      invariant r + Varint(w) == out + Varint(v)
      invariant w < [WORD64, WORD64 / 128, 0x4_0000_0000_0000, 0x800_0000_0000, 0x10_0000_0000, 0x2000_0000, 0x40_0000, 0x8000, 0x100, 2, 0][i]
    {
      if w < 128 {
        return r + [w];
      }
      var low := 128 + w % 128;
      assert r + [low] + Varint(w / 128) == r + Varint(w);
      r := r + [low];
      w := w / 128;
    }
  }

  /** The bits of x lie below the shift, so or-ing the next ones in is adding them; the weight of a bit
      is kept where the code keeps the shift. */
  method ConsumeVarint(data: seq<Byte>, start: nat) returns (r: Checked<nat>, pos: nat)
    requires start <= |data|
    ensures match ReadVarint(data[start..], 0, 0)
      case Ok(read) => r == Ok(read.value) && pos <= |data| && data[pos..] == read.rest
      case Err(e) => r == Err(e)
  {
    hide Pow128, ReadVarint, Accumulate;
    pos := start;
    var x: nat, k: nat, weight: nat := 0, 0, 1;
    assert weight == Pow128(0) by { Pow128Start(); }
    while true
      invariant start <= pos <= |data| && weight == Pow128(k)
      invariant ReadVarint(data[pos..], x, k) == ReadVarint(data[start..], 0, 0)
      decreases |data| - pos
    {
      if pos >= |data| {
        assert ReadVarint(data[pos..], x, k) == Err(InvalidMessage) by { ReadNothing(x, k); }
        return Err(InvalidMessage), pos;
      }
      var b := data[pos];
      ReadStep(data, pos, x, k);
      pos := pos + 1;
      if b < 128 {
        if 7 * k >= 64 {
          return Err(InvalidMessage), pos;
        }
        return Ok(Accumulate(x, b, weight)), pos;
      }
      x := Accumulate(x, b - 128, weight);
      assert Pow128(k + 1) == 128 * weight by { Pow128Next(k); }
      k, weight := k + 1, 128 * weight;
    }
  }

  lemma ReadNothing(x: nat, k: nat)
    ensures ReadVarint([], x, k) == Err(InvalidMessage)
  {
  }

  lemma ReadStep(data: seq<Byte>, pos: nat, x: nat, k: nat)
    requires pos < |data|
    ensures ReadVarint(data[pos..], x, k) ==
      if data[pos] >= 128 then ReadVarint(data[pos + 1..], Accumulate(x, data[pos] - 128, Pow128(k)), k + 1)
      else if 7 * k >= 64 then Err(InvalidMessage)
      else Ok(Read(Accumulate(x, data[pos], Pow128(k)), data[pos + 1..]))
  {
    hide Pow128, Accumulate;
    assert data[pos..][0] == data[pos] && data[pos..][1..] == data[pos + 1..];
  }

  lemma Pow128Start()
    ensures Pow128(0) == 1
  {
  }

  lemma Pow128Next(k: nat)
    ensures Pow128(k + 1) == 128 * Pow128(k)
  {
  }

  // ---------------------------------------------------------------- messages

  const VERSION_1: Byte := 1

  predicate HasChunk(kind: Byte) {
    kind == KIND_HDR || kind == KIND_EK || kind == KIND_EK_CT1_ACK || kind == KIND_CT1 || kind == KIND_CT2
  }

  function Payload(m: V1Message): seq<Byte> {
    [m.kind] + if HasChunk(m.kind) && m.chunk.Some? then Varint(m.chunk.value.index) + m.chunk.value.data else []
  }

  function Serialize(m: V1Message, index: nat): seq<Byte> {
    [VERSION_1] + Varint(m.epoch) + Varint(index) + Payload(m)
  }

  datatype Parsed = Parsed(msg: V1Message, index: nat)

  function ReadChunk(data: seq<Byte>): Checked<Read<Chunk>> {
    var index :- ReadVarint(data, 0, 0);
    if |index.rest| < 32 then Err(InvalidMessage)
    else Ok(Read(Chunk(index.value % 0x10000, index.rest[..32]), index.rest[32..]))
  }

  function ReadPayload(data: seq<Byte>, epoch: nat): Checked<Read<V1Message>> {
    if data == [] then Err(InvalidMessage)
    else if HasChunk(data[0]) then
      var chunk :- ReadChunk(data[1..]);
      Ok(Read(V1Message(epoch, data[0], Some(chunk.value)), chunk.rest))
    else Ok(Read(V1Message(epoch, data[0], None), data[1..]))
  }

  function Deserialize(data: seq<Byte>): Checked<Read<Parsed>> {
    if data == [] || data[0] != VERSION_1 then Err(InvalidMessage)
    else
      var epoch :- ReadVarint(data[1..], 0, 0);
      var index :- ReadVarint(epoch.rest, 0, 0);
      var msg :- ReadPayload(index.rest, epoch.value);
      Ok(Read(Parsed(msg.value, index.value % 0x1_0000_0000), msg.rest))
  }

  lemma ChunkRoundTrip(c: Chunk, rest: seq<Byte>)
    requires |c.data| == 32
    ensures ReadChunk(Varint(c.index) + c.data + rest) == Ok(Read(c, rest))
  {
    hide Varint, ReadVarint;
    VarintRoundTrip(c.index, c.data + rest);
    assert Varint(c.index) + c.data + rest == Varint(c.index) + (c.data + rest);
    assert (c.data + rest)[..32] == c.data && (c.data + rest)[32..] == rest;
  }

  lemma PayloadRoundTrip(m: V1Message, rest: seq<Byte>)
    requires m.Typed() && (HasChunk(m.kind) <==> m.chunk.Some?)
    ensures ReadPayload(Payload(m) + rest, m.epoch) == Ok(Read(m, rest))
  {
    hide Varint, ReadChunk;
    var data := Payload(m) + rest;
    if m.chunk.Some? {
      var c := m.chunk.value;
      assert data[1..] == Varint(c.index) + c.data + rest;
      ChunkRoundTrip(c, rest);
    } else {
      assert data[1..] == rest;
    }
  }

  /** A message reads back as it was written, with its index, and exactly its own bytes are consumed:
      for every 64-bit epoch, every 32-bit index, and a chunk exactly where the kind has one. */
  lemma MessageRoundTrip(m: V1Message, index: nat, rest: seq<Byte>)
    requires m.epoch < WORD64 && index < 0x1_0000_0000 && m.Typed() && (HasChunk(m.kind) <==> m.chunk.Some?)
    ensures Deserialize(Serialize(m, index) + rest) == Ok(Read(Parsed(m, index), rest))
  {
    hide Varint, ReadVarint, ReadPayload, Payload;
    var body := Payload(m) + rest;
    var data := Serialize(m, index) + rest;
    assert data[1..] == Varint(m.epoch) + (Varint(index) + body);
    VarintRoundTrip(m.epoch, Varint(index) + body);
    VarintRoundTrip(index, body);
    PayloadRoundTrip(m, rest);
  }

  /** Everything the handshake sends is of the form that reads back. */
  lemma SentReadsBack(c: Crypto, s: V1, coin: nat, index: nat, rest: seq<Byte>)
    requires s.Valid() && Send(c, s, coin).Ok? && s.epoch < WORD64 && index < 0x1_0000_0000
    ensures var m := Send(c, s, coin).value.msg;
      Deserialize(Serialize(m, index) + rest) == Ok(Read(Parsed(m, index), rest))
  {
    hide Serialize, Deserialize, ChunkOf;
    MessageRoundTrip(Send(c, s, coin).value.msg, index, rest);
  }
}
