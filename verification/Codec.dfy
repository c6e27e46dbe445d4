/** Fixed-width big-endian numbers and length-prefixed byte strings (spqr/util.go). A reader takes
    bytes off the front and gives back the rest. */
module Codec {
  import opened Words
  import opened Results
  import opened Erasure

  /** A value read off the front of some bytes, and the bytes after it. */
  datatype Read<+T> = Read(value: T, rest: Bytes)

  datatype Malformed = Malformed

  type Reading<+T> = Result<Read<T>, Malformed>

  /** A value read from all of some bytes. */
  type Restored<+T> = Result<T, Malformed>

  // ---------------------------------------------------------------- numbers

  function BigEndian(v: nat, n: nat): (b: Bytes)
    ensures |b| == n
  {
    if n == 0 then [] else BigEndian(v / 256, n - 1) + [v % 256]
  }

  function Number(b: Bytes): (v: nat)
    ensures v < Pow256(|b|)
  {
    if b == [] then 0 else Number(b[..|b| - 1]) * 256 + b[|b| - 1]
  }

  function Pow256(n: nat): (p: nat)
    ensures p >= 1
  {
    if n == 0 then 1 else 256 * Pow256(n - 1)
  }

  lemma {:induction false} NumberRoundTrip(v: nat, n: nat)
    requires v < Pow256(n)
    ensures Number(BigEndian(v, n)) == v
  {
    if n > 0 {
      var b := BigEndian(v, n);
      assert b[..n - 1] == BigEndian(v / 256, n - 1);
      NumberRoundTrip(v / 256, n - 1);
    }
  }

  lemma Widths()
    ensures Pow256(2) == 0x1_0000 && Pow256(4) == 0x1_0000_0000 && Pow256(8) == 0x1_0000_0000_0000_0000
  {
    assert Pow256(4) == 256 * (256 * Pow256(2));
    assert Pow256(6) == 256 * (256 * Pow256(4));
    assert Pow256(8) == 256 * (256 * Pow256(6));
  }

  function GetNumber(data: Bytes, n: nat): (r: Reading<nat>)
    ensures r.Ok? ==> |data| == n + |r.value.rest| && r.value.value < Pow256(n)
  {
    if |data| < n then Err(Malformed) else Ok(Read(Number(data[..n]), data[n..]))
  }

  lemma GetsNumber(v: nat, n: nat, rest: Bytes)
    requires v < Pow256(n)
    ensures GetNumber(BigEndian(v, n) + rest, n) == Ok(Read(v, rest))
  {
    hide BigEndian, Number;
    NumberRoundTrip(v, n);
    assert (BigEndian(v, n) + rest)[..n] == BigEndian(v, n) && (BigEndian(v, n) + rest)[n..] == rest;
  }

  lemma GetsWord(v: nat, rest: Bytes)
    ensures v < 0x1_0000 ==> GetNumber(BigEndian(v, 2) + rest, 2) == Ok(Read(v, rest))
    ensures v < 0x1_0000_0000 ==> GetNumber(BigEndian(v, 4) + rest, 4) == Ok(Read(v, rest))
    ensures v < 0x1_0000_0000_0000_0000 ==> GetNumber(BigEndian(v, 8) + rest, 8) == Ok(Read(v, rest))
  {
    hide BigEndian, GetNumber, Pow256;
    Widths();
    if v < 0x1_0000 { GetsNumber(v, 2, rest); }
    if v < 0x1_0000_0000 { GetsNumber(v, 4, rest); }
    if v < 0x1_0000_0000_0000_0000 { GetsNumber(v, 8, rest); }
  }

  // ---------------------------------------------------------------- byte strings

  function PutBytes(b: Bytes): (r: Bytes)
    ensures |r| == 4 + |b|
  {
    BigEndian(|b|, 4) + b
  }

  function GetBytes(data: Bytes): Reading<Bytes> {
    var n :- GetNumber(data, 4);
    if |n.rest| < n.value then Err(Malformed) else Ok(Read(n.rest[..n.value], n.rest[n.value..]))
  }

  lemma GetsBytes(b: Bytes, rest: Bytes)
    requires |b| < 0x1_0000_0000
    ensures GetBytes(PutBytes(b) + rest) == Ok(Read(b, rest))
  {
    hide BigEndian, GetNumber;
    GetsWord(|b|, b + rest);
    assert PutBytes(b) + rest == BigEndian(|b|, 4) + (b + rest);
    assert (b + rest)[..|b|] == b && (b + rest)[|b|..] == rest;
  }

  /** Several byte strings, each of a size that is known. */
  function PutAll(fields: seq<Bytes>): Bytes {
    if fields == [] then [] else PutBytes(fields[0]) + PutAll(fields[1..])
  }

  function GetAll(data: Bytes, sizes: seq<nat>): (r: Reading<seq<Bytes>>)
    ensures r.Ok? ==> |r.value.value| == |sizes| && forall i | 0 <= i < |sizes| :: |r.value.value[i]| == sizes[i]
    decreases |sizes|
  {
    if sizes == [] then Ok(Read([], data))
    else
      var f :- GetBytes(data);
      if |f.value| != sizes[0] then Err(Malformed)
      else
        var more :- GetAll(f.rest, sizes[1..]);
        Ok(Read([f.value] + more.value, more.rest))
  }

  ghost predicate Sized(fields: seq<Bytes>, sizes: seq<nat>) {
    |fields| == |sizes| && forall i | 0 <= i < |fields| :: |fields[i]| == sizes[i] < 0x1_0000
  }

  lemma {:induction false} GetsAll(fields: seq<Bytes>, sizes: seq<nat>, rest: Bytes)
    requires Sized(fields, sizes)
    ensures GetAll(PutAll(fields) + rest, sizes) == Ok(Read(fields, rest))
    ensures |PutAll(fields)| <= |fields| * 0x2_0000
    decreases |fields|
  {
    hide PutBytes, GetBytes;
    if fields == [] {
      assert PutAll(fields) + rest == rest;
    } else {
      GetsAll(fields[1..], sizes[1..], rest);
      var tail := PutAll(fields[1..]) + rest;
      assert PutAll(fields) + rest == PutBytes(fields[0]) + tail;
      GetsBytes(fields[0], tail);
      assert [fields[0]] + fields[1..] == fields;
    }
  }

  // ---------------------------------------------------------------- maps, entry by entry

  function PutEntries<K(==), V>(m: map<K, V>, keys: seq<K>, put: (K, V) -> Bytes): Bytes
    requires forall k | k in keys :: k in m
  {
    if keys == [] then [] else put(keys[0], m[keys[0]]) + PutEntries(m, keys[1..], put)
  }

  /** A key that is read again replaces what was read for it. */
  function GetEntries<K(==), V>(data: Bytes, n: nat, got: map<K, V>, get: Bytes -> Reading<(K, V)>): Reading<map<K, V>>
    decreases n
  {
    if n == 0 then Ok(Read(got, data))
    else
      var e :- get(data);
      GetEntries(e.rest, n - 1, got[e.value.0 := e.value.1], get)
  }

  /** What is written for one entry reads back as that entry. */
  ghost predicate ReadsBack<K, V>(put: (K, V) -> Bytes, get: Bytes -> Reading<(K, V)>, k: K, v: V) {
    forall rest: Bytes :: get(put(k, v) + rest) == Ok(Read((k, v), rest))
  }

  function Filled<K, V>(m: map<K, V>, keys: seq<K>, got: map<K, V>): map<K, V>
    requires forall k | k in keys :: k in m
  {
    if keys == [] then got else Filled(m, keys[1..], got[keys[0] := m[keys[0]]])
  }

  lemma {:induction false} GetsFilled<K, V>(
      m: map<K, V>, keys: seq<K>, got: map<K, V>, put: (K, V) -> Bytes, get: Bytes -> Reading<(K, V)>, rest: Bytes)
    requires forall k | k in keys :: k in m && ReadsBack(put, get, k, m[k])
    ensures GetEntries(PutEntries(m, keys, put) + rest, |keys|, got, get) == Ok(Read(Filled(m, keys, got), rest))
    decreases |keys|
  {
    if keys == [] {
      assert PutEntries(m, keys, put) + rest == rest;
    } else {
      var k, v := keys[0], m[keys[0]];
      var tail := PutEntries(m, keys[1..], put) + rest;
      assert PutEntries(m, keys, put) + rest == put(k, v) + tail;
      assert ReadsBack(put, get, k, v);
      GetsFilled(m, keys[1..], got[k := v], put, get, rest);
    }
  }

  lemma {:induction false} FilledAll<K, V>(m: map<K, V>, keys: seq<K>, got: map<K, V>)
    requires forall k | k in keys :: k in m
    requires forall k | k in got :: k in m && got[k] == m[k]
    requires forall k | k in m :: k in got || k in keys
    ensures Filled(m, keys, got) == m
    decreases |keys|
  {
    if keys != [] {
      FilledAll(m, keys[1..], got[keys[0] := m[keys[0]]]);
    }
  }

  /** A map written in any order of all its keys reads back. */
  lemma GetsEntries<K, V>(m: map<K, V>, keys: seq<K>, put: (K, V) -> Bytes, get: Bytes -> Reading<(K, V)>, rest: Bytes)
    requires forall k | k in keys :: k in m && ReadsBack(put, get, k, m[k])
    requires forall k | k in m :: k in keys
    ensures GetEntries(PutEntries(m, keys, put) + rest, |keys|, map[], get) == Ok(Read(m, rest))
  {
    hide PutEntries, GetEntries, ReadsBack;
    GetsFilled(m, keys, map[], put, get, rest);
    FilledAll(m, keys, map[]);
  }

  lemma {:induction false} EntriesSize<K, V>(m: map<K, V>, keys: seq<K>, put: (K, V) -> Bytes, size: nat)
    requires forall k | k in keys :: k in m && |put(k, m[k])| == size
    ensures |PutEntries(m, keys, put)| == size * |keys|
    decreases |keys|
  {
    if keys != [] {
      EntriesSize(m, keys[1..], put, size);
    }
  }
}
