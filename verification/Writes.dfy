/** The kernel's keyed maps as one store, and the algebra of writing to it in order. */
module Writes {
  import opened Base
  import opened Table
  import opened Policy

  /** A key of one of the kernel's maps. Addresses are as the kernel reads them, octets swapped. */
  datatype MapKey =
    | FlagsOf(owner: nat)
    | PathRow(row: Key)
    | ExecRow(row: Key)
    | NetKey(owner: nat, port: U16, protocol: bv8, connect: bool)
    | IpKey(owner: nat, address: bv32, prefix: bv8, connect: bool)
    | DomainKey(owner: nat, domainHash: bv64)
    | DnsKey(owner: nat, address: bv32)
    | ProxyKey(owner: nat)

  datatype MapValue =
    | FlagsValue(packed: bv8)
    | RowValue(value: Value)
    | Decision(allow: bool)
    | DomainHash(hash: bv64)
    | ProxyValue(address: bv32, port: U16, required: bool)

  type Store = map<MapKey, MapValue>

  datatype Write = Write(key: MapKey, value: MapValue)

  function OwnerOf(k: MapKey): nat
  {
    match k
    case PathRow(row) => row.role
    case ExecRow(row) => row.role
    case _ => k.owner
  }

  function WriteSeq(store: Store, ws: seq<Write>): Store
  {
    if ws == [] then store
    else
      var w := ws[|ws| - 1];
      WriteSeq(store, ws[..|ws| - 1])[w.key := w.value]
  }

  /** The value the last write to `k` carries. */
  function LastWrite(ws: seq<Write>, k: MapKey): Option<MapValue>
  {
    if ws == [] then None
    else if ws[|ws| - 1].key == k then Some(ws[|ws| - 1].value)
    else LastWrite(ws[..|ws| - 1], k)
  }

  function LookUp(store: Store, k: MapKey): Option<MapValue>
  {
    if k in store then Some(store[k]) else None
  }

  function First(a: Option<MapValue>, b: Option<MapValue>): Option<MapValue>
  {
    if a.Some? then a else b
  }

  lemma {:induction false} LookUpWritten(store: Store, ws: seq<Write>, k: MapKey)
    ensures LookUp(WriteSeq(store, ws), k) == First(LastWrite(ws, k), LookUp(store, k))
  {
    if ws != [] { LookUpWritten(store, ws[..|ws| - 1], k); }
  }

  lemma {:induction false} LastWriteConcat(a: seq<Write>, b: seq<Write>, k: MapKey)
    ensures LastWrite(a + b, k) == First(LastWrite(b, k), LastWrite(a, k))
  {
    if b == [] {
      assert a + b == a;
    } else {
      assert (a + b)[..|a + b| - 1] == a + b[..|b| - 1];
      LastWriteConcat(a, b[..|b| - 1], k);
    }
  }

  lemma {:induction false} WriteSeqConcat(store: Store, a: seq<Write>, b: seq<Write>)
    ensures WriteSeq(store, a + b) == WriteSeq(WriteSeq(store, a), b)
  {
    if b == [] {
      assert a + b == a;
    } else {
      assert (a + b)[..|a + b| - 1] == a + b[..|b| - 1];
      WriteSeqConcat(store, a, b[..|b| - 1]);
    }
  }

  lemma SameStore(a: Store, b: Store)
    requires forall k :: LookUp(a, k) == LookUp(b, k)
    ensures a == b
  {
    forall k ensures (k in a <==> k in b) && (k in a ==> a[k] == b[k]) {
      assert LookUp(a, k) == LookUp(b, k);
    }
    assert a.Keys == b.Keys;
  }

  ghost predicate Owned(ws: seq<Write>, owner: nat)
  {
    forall w :: w in ws ==> OwnerOf(w.key) == owner
  }

  lemma {:induction false} OwnedLastWrite(ws: seq<Write>, owner: nat, k: MapKey)
    requires Owned(ws, owner) && OwnerOf(k) != owner
    ensures LastWrite(ws, k) == None
  {
    if ws != [] {
      assert ws[|ws| - 1] in ws;
      OwnedLastWrite(ws[..|ws| - 1], owner, k);
    }
  }

  /** Writing again what the store already got last changes nothing. */
  lemma RewriteIsIdle(store: Store, first: seq<Write>, again: seq<Write>)
    requires forall k :: LastWrite(again, k).Some? ==> LastWrite(again, k) == LastWrite(first, k)
    ensures WriteSeq(WriteSeq(store, first), again) == WriteSeq(store, first)
  {
    var s := WriteSeq(store, first);
    forall k ensures LookUp(WriteSeq(s, again), k) == LookUp(s, k) {
      LookUpWritten(s, again, k);
      LookUpWritten(store, first, k);
    }
    SameStore(WriteSeq(s, again), s);
  }

  // ---- several owners ----

  /** One owner's writes. */
  datatype Batch = Batch(owner: nat, writes: seq<Write>)

  function WriteBatches(store: Store, batches: seq<Batch>): Store
  {
    if batches == [] then store
    else WriteSeq(WriteBatches(store, batches[..|batches| - 1]), batches[|batches| - 1].writes)
  }

  ghost predicate Separate(batches: seq<Batch>)
  {
    && (forall b :: b in batches ==> Owned(b.writes, b.owner))
    && (forall i, j :: 0 <= i < j < |batches| ==> batches[i].owner != batches[j].owner)
  }

  lemma {:induction false} LookUpBatches(store: Store, batches: seq<Batch>, k: MapKey)
    requires Separate(batches)
    ensures forall b :: b in batches && b.owner == OwnerOf(k) ==>
              LookUp(WriteBatches(store, batches), k) == First(LastWrite(b.writes, k), LookUp(store, k))
    ensures (forall b :: b in batches ==> b.owner != OwnerOf(k)) ==>
              LookUp(WriteBatches(store, batches), k) == LookUp(store, k)
  {
    if batches != [] {
      var init, last := batches[..|batches| - 1], batches[|batches| - 1];
      assert last in batches;
      LookUpBatches(store, init, k);
      LookUpWritten(WriteBatches(store, init), last.writes, k);
      if last.owner != OwnerOf(k) {
        OwnedLastWrite(last.writes, last.owner, k);
      }
    }
  }
}
