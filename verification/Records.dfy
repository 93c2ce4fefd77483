/** The typed records that the byte store holds, and what it means for a byte store to hold them. */
module Records {
  import opened Encoding
  import opened Keys

  /** Six separate maps: nothing in the byte store but the meaning of its records. */
  datatype State = State(
    balances: map<Address, U64>,
    timeOuts: map<ID, I64>,
    weights: map<ID, U64>,
    statuses: set<ID>,
    votes: set<(ID, Address)>,
    hashes: map<(ID, U16), Bytes>)

  const EMPTY := State(map[], map[], map[], {}, {}, map[])

  const FLAG: U16 := 1

  predicate IsRecord(k: Key) {
    k.Balance? || k.TimeOut? || k.Weight? || k.Status? || k.Vote? || k.Hash?
  }

  /** The bytes a record holds, if it exists. */
  function At(s: State, k: Key): Option<Bytes>
    requires IsRecord(k)
  {
    match k
    case Balance(a) => if a in s.balances then Some(U64Bytes(s.balances[a])) else None
    case TimeOut(t) => if t in s.timeOuts then Some(I64Bytes(s.timeOuts[t])) else None
    case Weight(t) => if t in s.weights then Some(U64Bytes(s.weights[t])) else None
    case Status(t) => if t in s.statuses then Some(U16Bytes(FLAG)) else None
    case Vote(t, a) => if (t, a) in s.votes then Some(U16Bytes(FLAG)) else None
    case Hash(i, t) => if (i, t) in s.hashes then Some(s.hashes[(i, t)]) else None
  }

  /** A flag is the bytes 0 and 1; numbers take eight bytes, the most significant first. */
  lemma RecordLayout(s: State, k: Key, i: nat)
    requires IsRecord(k) && At(s, k).Some? && i < 8
    ensures k.Status? || k.Vote? ==> At(s, k).value == [0, 1]
    ensures k.Balance? ==> |At(s, k).value| == 8 && At(s, k).value[i] == s.balances[k.addr] / Pow256(7 - i) % 256
    ensures k.Weight? ==> |At(s, k).value| == 8 && At(s, k).value[i] == s.weights[k.tx] / Pow256(7 - i) % 256
    ensures k.TimeOut? ==>
              |At(s, k).value| == 8 && At(s, k).value[i] == s.timeOuts[k.tx] % TWO64 / Pow256(7 - i) % 256
  {
    U16Layout(1);
    match k
    case Balance(a) => BigEndianAt(s.balances[a], 8, i);
    case Weight(t) => BigEndianAt(s.weights[t], 8, i);
    case TimeOut(t) =>
      assert I64ToU64(s.timeOuts[t]) == s.timeOuts[t] % TWO64;
      BigEndianAt(I64ToU64(s.timeOuts[t]), 8, i);
    case _ =>
  }

  function Lookup(data: map<Bytes, Bytes>, b: Bytes): Option<Bytes> {
    if b in data then Some(data[b]) else None
  }

  ghost predicate Represents(data: map<Bytes, Bytes>, s: State) {
    forall k: Key | IsRecord(k) :: Lookup(data, KeyBytes(k)) == At(s, k)
  }

  ghost predicate IsRecordKey(b: Bytes) {
    exists k: Key :: IsRecord(k) && KeyBytes(k) == b
  }

  /** The keys that no builder of a record produces hold the same bytes in both stores. */
  ghost predicate SameOutside(data: map<Bytes, Bytes>, data': map<Bytes, Bytes>) {
    forall b: Bytes | !IsRecordKey(b) :: Lookup(data, b) == Lookup(data', b)
  }

  ghost predicate DiffersOnlyAt(s: State, s': State, k: Key) {
    forall k': Key | IsRecord(k') && k' != k :: At(s', k') == At(s, k')
  }

  /** Writing one byte key is one update of the typed state: every other record is left alone. */
  lemma InsertRepresents(data: map<Bytes, Bytes>, s: State, k: Key, v: Bytes, s': State)
    requires Represents(data, s) && IsRecord(k)
    requires At(s', k) == Some(v) && DiffersOnlyAt(s, s', k)
    ensures Represents(data[KeyBytes(k) := v], s')
    ensures SameOutside(data, data[KeyBytes(k) := v])
  {
    var data' := data[KeyBytes(k) := v];
    forall k': Key | IsRecord(k') ensures Lookup(data', KeyBytes(k')) == At(s', k') {
      KeyBytesInjective(k, k');
      assert Lookup(data, KeyBytes(k')) == At(s, k');
    }
  }

  lemma RemoveRepresents(data: map<Bytes, Bytes>, s: State, k: Key, s': State)
    requires Represents(data, s) && IsRecord(k)
    requires At(s', k) == None && DiffersOnlyAt(s, s', k)
    ensures Represents(data - {KeyBytes(k)}, s')
    ensures SameOutside(data, data - {KeyBytes(k)})
  {
    var data' := data - {KeyBytes(k)};
    forall k': Key | IsRecord(k') ensures Lookup(data', KeyBytes(k')) == At(s', k') {
      KeyBytesInjective(k, k');
      assert Lookup(data, KeyBytes(k')) == At(s, k');
    }
  }

  /** A byte store has one meaning. */
  lemma StateDetermined(data: map<Bytes, Bytes>, s: State, s': State)
    requires Represents(data, s) && Represents(data, s')
    ensures s == s'
  {
    forall k: Key | IsRecord(k) ensures At(s, k) == At(s', k) {
      assert Lookup(data, KeyBytes(k)) == At(s, k);
    }
    SameRecords(s, s');
  }

  /** States that hold the same bytes for every record are equal. */
  lemma SameRecords(s: State, s': State)
    requires forall k: Key | IsRecord(k) :: At(s, k) == At(s', k)
    ensures s == s'
  {
    assert s.balances == s'.balances by {
      forall a: Address ensures a in s.balances <==> a in s'.balances
        ensures a in s.balances ==> s.balances[a] == s'.balances[a]
      {
        assert At(s, Key.Balance(a)) == At(s', Key.Balance(a));
        if a in s.balances { U64BytesInjective(s.balances[a], s'.balances[a]); }
      }
    }
    assert s.timeOuts == s'.timeOuts by {
      forall t: ID ensures t in s.timeOuts <==> t in s'.timeOuts
        ensures t in s.timeOuts ==> s.timeOuts[t] == s'.timeOuts[t]
      {
        assert At(s, Key.TimeOut(t)) == At(s', Key.TimeOut(t));
        if t in s.timeOuts { I64RoundTrip(s.timeOuts[t]); I64RoundTrip(s'.timeOuts[t]); }
      }
    }
    assert s.weights == s'.weights by {
      forall t: ID ensures t in s.weights <==> t in s'.weights
        ensures t in s.weights ==> s.weights[t] == s'.weights[t]
      {
        assert At(s, Key.Weight(t)) == At(s', Key.Weight(t));
        if t in s.weights { U64BytesInjective(s.weights[t], s'.weights[t]); }
      }
    }
    assert s.statuses == s'.statuses by {
      forall t: ID ensures t in s.statuses <==> t in s'.statuses {
        assert At(s, Key.Status(t)) == At(s', Key.Status(t));
      }
    }
    assert s.votes == s'.votes by {
      forall p: (ID, Address) ensures p in s.votes <==> p in s'.votes {
        assert At(s, Key.Vote(p.0, p.1)) == At(s', Key.Vote(p.0, p.1));
      }
    }
    assert s.hashes == s'.hashes by {
      forall p: (ID, U16) ensures p in s.hashes <==> p in s'.hashes
        ensures p in s.hashes ==> s.hashes[p] == s'.hashes[p]
      {
        assert At(s, Key.Hash(p.0, p.1)) == At(s', Key.Hash(p.0, p.1));
      }
    }
  }

  /** A meaning has one byte store, once the keys outside the records are fixed. */
  lemma StoreDetermined(data: map<Bytes, Bytes>, data': map<Bytes, Bytes>, s: State)
    requires Represents(data, s) && Represents(data', s) && SameOutside(data, data')
    ensures data == data'
  {
    forall b: Bytes ensures Lookup(data, b) == Lookup(data', b) {
      if IsRecordKey(b) {
        var k: Key :| IsRecord(k) && KeyBytes(k) == b;
        assert Lookup(data, KeyBytes(k)) == At(s, k);
      }
    }
    forall b: Bytes ensures b in data <==> b in data'
      ensures b in data ==> data[b] == data'[b]
    {
      assert Lookup(data, b) == Lookup(data', b);
    }
  }
}
