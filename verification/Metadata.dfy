/** The transaction index: what StoreTransaction writes under a transaction's ID and GetTransaction reads back. */
module Metadata {
  import opened Encoding
  import opened Keys

  const DIMENSIONS: nat := 5
  const DIMENSIONS_LEN: nat := 40
  const RECORD_LEN: nat := 57

  type Dimensions = d: seq<U64> | |d| == DIMENSIONS witness [0, 0, 0, 0, 0]

  datatype TxRecord = TxRecord(t: I64, success: bool, units: Dimensions, fee: U64)

  function TxKeyBytes(id: ID): Bytes {
    [0x0] + id
  }

  lemma TxKeyInjective(id: ID, id': ID)
    ensures TxKeyBytes(id) == TxKeyBytes(id') <==> id == id'
  {
    if TxKeyBytes(id) == TxKeyBytes(id') { SplitPrefix([0x0], id, [0x0], id'); }
  }

  method TxKey(id: ID) returns (k: array<Byte>)
    ensures fresh(k) && k[..] == TxKeyBytes(id) == [0x0] + id
  {
    k := NewBuffer(1 + ID_LEN, 0x0);
    CopyInto(k, 1, id, [0x0]);
    assert k[..] == k[..1 + ID_LEN];
  }

  // ---------- Fee dimensions ----------

  function NumbersBytes(d: seq<U64>): (b: Bytes)
    ensures |b| == 8 * |d|
  {
    if d == [] then [] else U64Bytes(d[0]) + NumbersBytes(d[1..])
  }

  function ReadNumbers(b: Bytes): seq<U64>
    requires |b| % 8 == 0
  {
    if b == [] then [] else [ReadU64(b[..8])] + ReadNumbers(b[8..])
  }

  lemma {:induction false} NumbersRoundTrip(d: seq<U64>)
    ensures ReadNumbers(NumbersBytes(d)) == d
  {
    if d != [] {
      NumbersRoundTrip(d[1..]);
      U64RoundTrip(d[0]);
      var b := NumbersBytes(d);
      assert b[..8] == U64Bytes(d[0]) && b[8..] == NumbersBytes(d[1..]);
    }
  }

  // ---------- Records ----------

  function RecordBytes(r: TxRecord): (b: Bytes)
    ensures |b| == RECORD_LEN
  {
    I64Bytes(r.t) + [if r.success then 1 else 0] + NumbersBytes(r.units) + U64Bytes(r.fee)
  }

  lemma {:induction false} NumbersAt(d: seq<U64>, j: nat, i: nat)
    requires j < |d| && i < 8
    ensures NumbersBytes(d)[8 * j + i] == d[j] / Pow256(7 - i) % 256
  {
    if j == 0 {
      BigEndianAt(d[0], 8, i);
    } else {
      NumbersAt(d[1..], j - 1, i);
      assert NumbersBytes(d)[8 * j + i] == NumbersBytes(d[1..])[8 * (j - 1) + i];
    }
  }

  /** Timestamp, success, five dimensions and fee, in this order, numbers with the most significant byte first. */
  lemma RecordLayout(r: TxRecord, j: nat, i: nat)
    requires j < DIMENSIONS && i < 8
    ensures |RecordBytes(r)| == 57
    ensures RecordBytes(r)[i] == r.t % TWO64 / Pow256(7 - i) % 256
    ensures RecordBytes(r)[8] == if r.success then 1 else 0
    ensures RecordBytes(r)[9 + (8 * j + i)] == r.units[j] / Pow256(7 - i) % 256
    ensures RecordBytes(r)[49 + i] == r.fee / Pow256(7 - i) % 256
  {
    assert I64ToU64(r.t) == r.t % TWO64;
    BigEndianAt(I64ToU64(r.t), 8, i);
    NumbersAt(r.units, j, i);
    BigEndianAt(r.fee, 8, i);
    RecordPieces(I64Bytes(r.t), [if r.success then 1 else 0], NumbersBytes(r.units), U64Bytes(r.fee), 8 * j + i, i);
  }

  lemma RecordPieces(a: Bytes, b: Bytes, c: Bytes, d: Bytes, m: nat, i: nat)
    requires |a| == 8 && |b| == 1 && |c| == 40 && |d| == 8 && m < 40 && i < 8
    ensures var v := a + b + c + d; v[i] == a[i] && v[8] == b[0] && v[9 + m] == c[m] && v[49 + i] == d[i]
  {
  }

  /** What the reader makes of the bytes of a record: any success byte but zero counts as true. */
  function ReadRecord(v: Bytes): (Option<TxRecord>)
    requires |v| == RECORD_LEN
  {
    var d := ReadNumbers(v[9..49]);
    if |d| == DIMENSIONS then Some(TxRecord(U64ToI64(ReadU64(v[..8])), v[8] != 0, d, ReadU64(v[49..])))
    else None
  }

  /** Timestamps (negative ones included), success, units and fee all survive storage. */
  lemma RecordRoundTrip(r: TxRecord)
    ensures ReadRecord(RecordBytes(r)) == Some(r)
  {
    var v := RecordBytes(r);
    assert v[..8] == I64Bytes(r.t) && v[9..49] == NumbersBytes(r.units) && v[49..] == U64Bytes(r.fee);
    I64RoundTrip(r.t);
    NumbersRoundTrip(r.units);
    U64RoundTrip(r.fee);
  }

  /** The value buffer of StoreTransaction. */
  method RecordBuffer(r: TxRecord) returns (v: array<Byte>)
    ensures fresh(v) && v[..] == RecordBytes(r)
  {
    v := new Byte[8 + 1 + DIMENSIONS_LEN + 8](_ => 0);
    var t := I64Bytes(r.t);
    CopyInto(v, 0, t, []);
    if r.success {
      CopyInto(v, 8, [1], t);
    } else {
      CopyInto(v, 8, [0], t);
    }
    ghost var s := t + [if r.success then 1 else 0];
    CopyInto(v, 8 + 1, NumbersBytes(r.units), s);
    CopyInto(v, 8 + 1 + DIMENSIONS_LEN, U64Bytes(r.fee), s + NumbersBytes(r.units));
    assert v[..] == v[..8 + 1 + DIMENSIONS_LEN + 8];
  }

  /** A write batch; `accepts(i)` says whether its i-th Put succeeds. */
  class Batch {
    const accepts: nat -> bool
    var puts: map<Bytes, Bytes>
    var count: nat

    constructor (accepts: nat -> bool)
      ensures puts == map[] && count == 0 && this.accepts == accepts
    {
      this.accepts := accepts;
      puts := map[];
      count := 0;
    }

    method Put(k: Bytes, v: Bytes) returns (ok: bool)
      modifies this
      ensures ok == accepts(old(count)) && count == old(count) + 1
      ensures puts == if ok then old(puts)[k := v] else old(puts)
    {
      ok := accepts(count);
      count := count + 1;
      if ok {
        puts := puts[k := v];
      }
    }
  }

  method StoreTransaction(db: Batch, id: ID, r: TxRecord) returns (ok: bool)
    modifies db
    ensures ok == db.accepts(old(db.count)) && db.count == old(db.count) + 1
    ensures db.puts == if ok then old(db.puts)[TxKeyBytes(id) := RecordBytes(r)] else old(db.puts)
  {
    var k := TxKey(id);
    var v := RecordBuffer(r);
    ok := db.Put(k[..], v[..]);
  }
}
