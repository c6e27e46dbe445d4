/** The readers of Codec from the other side: what they accept is exactly what some writer could have
    written. Entries of a map may come in any order and more than once, and the last one counts. */
module Spelling {
  import opened Words
  import opened Results
  import opened Erasure
  import opened Codec

  // ---------------------------------------------------------------- numbers and byte strings

  lemma {:induction false} NumberSpells(b: Bytes)
    ensures BigEndian(Number(b), |b|) == b
  {
    if b != [] {
      NumberSpells(b[..|b| - 1]);
    }
  }

  lemma NumberRead(data: Bytes, n: nat)
    requires GetNumber(data, n).Ok?
    ensures var r := GetNumber(data, n).value; data == BigEndian(r.value, n) + r.rest && r.value < Pow256(n)
  {
    hide BigEndian, Number;
    NumberSpells(data[..n]);
  }

  lemma WordRead(data: Bytes)
    requires GetNumber(data, 4).Ok?
    ensures var r := GetNumber(data, 4).value; data == BigEndian(r.value, 4) + r.rest && r.value < WORD
  {
    hide BigEndian, GetNumber, Pow256;
    NumberRead(data, 4);
    Widths();
  }

  lemma BytesRead(data: Bytes)
    requires GetBytes(data).Ok?
    ensures var r := GetBytes(data).value; data == PutBytes(r.value) + r.rest && |r.value| < WORD
  {
    hide BigEndian, GetNumber;
    WordRead(data);
  }

  lemma {:induction false} AllRead(data: Bytes, sizes: seq<nat>)
    requires GetAll(data, sizes).Ok?
    ensures var r := GetAll(data, sizes).value; data == PutAll(r.value) + r.rest
    decreases |sizes|
  {
    hide GetBytes, PutBytes;
    if sizes == [] {
      assert PutAll([]) + data == data;
    } else {
      BytesRead(data);
      var f := GetBytes(data).value;
      AllRead(f.rest, sizes[1..]);
      var more := GetAll(f.rest, sizes[1..]).value;
      assert ([f.value] + more.value)[1..] == more.value;
    }
  }

  // ---------------------------------------------------------------- maps, entry by entry

  function PutList<K, V>(list: seq<(K, V)>, put: (K, V) -> Bytes): Bytes {
    if list == [] then [] else put(list[0].0, list[0].1) + PutList(list[1..], put)
  }

  /** The map that entries make, read one after the other. */
  function MapOf<K, V>(list: seq<(K, V)>, got: map<K, V>): map<K, V> {
    if list == [] then got else MapOf(list[1..], got[list[0].0 := list[0].1])
  }

  /** What is read as an entry was written for that entry. */
  ghost predicate WrittenBack<K, V>(put: (K, V) -> Bytes, get: Bytes -> Reading<(K, V)>) {
    forall data: Bytes | get(data).Ok? ::
      var r := get(data).value; data == put(r.value.0, r.value.1) + r.rest && ReadsBack(put, get, r.value.0, r.value.1)
  }

  ghost predicate AllReadBack<K, V>(put: (K, V) -> Bytes, get: Bytes -> Reading<(K, V)>, list: seq<(K, V)>) {
    forall e | e in list :: ReadsBack(put, get, e.0, e.1)
  }

  lemma {:induction false} EntriesRead<K, V>(data: Bytes, n: nat, got: map<K, V>, put: (K, V) -> Bytes, get: Bytes -> Reading<(K, V)>)
      returns (list: seq<(K, V)>)
    requires WrittenBack(put, get) && GetEntries(data, n, got, get).Ok?
    ensures var r := GetEntries(data, n, got, get).value;
      |list| == n && data == PutList(list, put) + r.rest && r.value == MapOf(list, got) && AllReadBack(put, get, list)
    decreases n
  {
    hide ReadsBack;
    if n == 0 {
      list := [];
      assert PutList(list, put) + data == data;
    } else {
      var e := get(data).value;
      var more := EntriesRead(e.rest, n - 1, got[e.value.0 := e.value.1], put, get);
      list := [e.value] + more;
      assert list[1..] == more;
    }
  }

  lemma {:induction false} ListRead<K, V>(list: seq<(K, V)>, got: map<K, V>, put: (K, V) -> Bytes, get: Bytes -> Reading<(K, V)>, rest: Bytes)
    requires AllReadBack(put, get, list)
    ensures GetEntries(PutList(list, put) + rest, |list|, got, get) == Ok(Read(MapOf(list, got), rest))
    decreases |list|
  {
    if list == [] {
      assert PutList(list, put) + rest == rest;
    } else {
      var tail := PutList(list[1..], put) + rest;
      assert PutList(list, put) + rest == put(list[0].0, list[0].1) + tail;
      assert ReadsBack(put, get, list[0].0, list[0].1);
      ListRead(list[1..], got[list[0].0 := list[0].1], put, get, rest);
    }
  }
}
