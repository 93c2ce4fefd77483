/** storage.go and state_manager.go: operations on one store of byte strings. */
module Storage {
  import opened Encoding
  import opened Keys
  import opened Records
  import Ledger
  import Windows

  /**
   * state.Mutable: a key-value store. The ghost fields are the typed state that the bytes stand for, and
   * the records whose keys were ever inserted or removed, whether the write was undone or not.
   */
  class Store {
    var data: map<Bytes, Bytes>
    ghost var st: State
    ghost var written: set<Key>

    ghost predicate Valid()
      reads this
    {
      Represents(data, st)
    }

    constructor ()
      ensures Valid() && data == map[] && st == EMPTY && written == {}
    {
      data := map[];
      st := EMPTY;
      written := {};
    }

    method GetValue(k: array<Byte>) returns (v: Option<Bytes>)
      ensures v == Lookup(data, k[..])
    {
      v := if k[..] in data then Some(data[k[..]]) else None;
    }

    /** Insert under the key of one record; `next` is the typed state that results. */
    method Insert(k: array<Byte>, v: Bytes, ghost key: Key, ghost next: State)
      requires Valid() && IsRecord(key) && k[..] == KeyBytes(key)
      requires At(next, key) == Some(v) && DiffersOnlyAt(st, next, key)
      modifies this
      ensures Valid() && st == next && SameOutside(old(data), data)
      ensures written == old(written) + {key}
    {
      InsertRepresents(data, st, key, v, next);
      data := data[k[..] := v];
      st := next;
      written := written + {key};
    }

    method Remove(k: array<Byte>, ghost key: Key, ghost next: State)
      requires Valid() && IsRecord(key) && k[..] == KeyBytes(key)
      requires At(next, key) == None && DiffersOnlyAt(st, next, key)
      modifies this
      ensures Valid() && st == next && SameOutside(old(data), data)
      ensures written == old(written) + {key}
    {
      RemoveRepresents(data, st, key, next);
      data := data - {k[..]};
      st := next;
      written := written + {key};
    }

    /** The driver's undo: bytes and meaning go back together. */
    method Restore(snapshot: map<Bytes, Bytes>, ghost meaning: State)
      requires Represents(snapshot, meaning)
      modifies this
      ensures Valid() && data == snapshot && st == meaning && written == old(written)
    {
      data := snapshot;
      st := meaning;
    }

    // ---------- Balances ----------

    method ReadBalance(addr: Address) returns (k: array<Byte>, bal: U64, exists_: bool)
      requires Valid()
      ensures fresh(k) && k[..] == KeyBytes(Key.Balance(addr))
      ensures bal == Ledger.BalanceOf(st, addr) && exists_ == (addr in st.balances)
    {
      k := BalanceKey(addr);
      var v := GetValue(k);
      assert v == At(st, Key.Balance(addr));
      match v
      case None =>
        bal, exists_ := 0, false;
      case Some(bytes) =>
        U64RoundTrip(st.balances[addr]);
        bal, exists_ := ReadU64(bytes), true;
    }

    method GetBalance(addr: Address) returns (bal: U64)
      requires Valid()
      ensures bal == Ledger.BalanceOf(st, addr)
    {
      var k, b, e := ReadBalance(addr);
      bal := b;
    }

    method SetBalance(addr: Address, balance: U64)
      requires Valid()
      modifies this
      ensures Valid() && SameOutside(old(data), data)
      ensures st == Ledger.Set(old(st), addr, balance)
      ensures written == old(written) + {Key.Balance(addr)}
    {
      var k := BalanceKey(addr);
      Insert(k, U64Bytes(balance), Key.Balance(addr), Ledger.Set(st, addr, balance));
    }

    method AddBalance(addr: Address, amount: U64, create: bool) returns (ok: bool)
      requires Valid()
      modifies this
      ensures Valid() && SameOutside(old(data), data)
      ensures ok == Ledger.Credit(old(st), addr, amount, create).Some?
      ensures st == if ok then Ledger.Credit(old(st), addr, amount, create).value else old(st)
      ensures written == old(written)
                       + if ok && (create || addr in old(st).balances) then {Key.Balance(addr)} else {}
    {
      var k, bal, found := ReadBalance(addr);
      if !found && !create {
        return true;
      }
      if bal + amount > MAX_U64 {
        return false;
      }
      Insert(k, U64Bytes(bal + amount), Key.Balance(addr), Ledger.Set(st, addr, bal + amount));
      return true;
    }

    method SubBalance(addr: Address, amount: U64) returns (ok: bool)
      requires Valid()
      modifies this
      ensures Valid() && SameOutside(old(data), data)
      ensures ok == Ledger.Debit(old(st), addr, amount).Some?
      ensures st == if ok then Ledger.Debit(old(st), addr, amount).value else old(st)
      ensures written == old(written) + if ok then {Key.Balance(addr)} else {}
    {
      var k, bal, found := ReadBalance(addr);
      if bal < amount {
        return false;
      }
      var nbal := bal - amount;
      if nbal == 0 {
        Remove(k, Key.Balance(addr), st.(balances := st.balances - {addr}));
        return true;
      }
      Insert(k, U64Bytes(nbal), Key.Balance(addr), Ledger.Set(st, addr, nbal));
      return true;
    }

    // ---------- StateManager ----------

    method CanDeduct(addr: Address, amount: U64) returns (ok: bool)
      requires Valid()
      ensures ok <==> Ledger.Debit(st, addr, amount).Some?
    {
      var bal := GetBalance(addr);
      ok := bal >= amount;
    }

    method Deduct(addr: Address, amount: U64) returns (ok: bool)
      requires Valid()
      modifies this
      ensures Valid() && SameOutside(old(data), data)
      ensures ok == Ledger.Debit(old(st), addr, amount).Some?
      ensures st == if ok then Ledger.Debit(old(st), addr, amount).value else old(st)
      ensures written == old(written) + if ok then {Key.Balance(addr)} else {}
    {
      ok := SubBalance(addr, amount);
    }

    /** A refund to an account that no longer exists is dropped. */
    method Refund(addr: Address, amount: U64) returns (ok: bool)
      requires Valid()
      modifies this
      ensures Valid() && SameOutside(old(data), data)
      ensures ok == Ledger.Credit(old(st), addr, amount, false).Some?
      ensures st == if ok then Ledger.Credit(old(st), addr, amount, false).value else old(st)
      ensures written == old(written)
                       + if ok && addr in old(st).balances then {Key.Balance(addr)} else {}
    {
      ok := AddBalance(addr, amount, false);
    }

    // ---------- Voting windows ----------

    method StoreTimeOut(tx: ID, timeOut: U64, timeStamp: I64)
      requires Valid()
      modifies this
      ensures Valid() && SameOutside(old(data), data)
      ensures st == Windows.OpenWindow(old(st), tx, timeOut, timeStamp)
      ensures tx in st.timeOuts && st == old(st).(timeOuts := old(st).timeOuts[tx := st.timeOuts[tx]])
      ensures Windows.ClosesAfter(st.timeOuts[tx], timeStamp,
                                  if timeOut < 20 then 20 else if timeOut > 300 then 300 else timeOut)
      ensures written == old(written) + {Key.TimeOut(tx)}
    {
      var k := TimeOutKey(tx);
      var clamped := timeOut;
      if clamped < 20 {
        clamped := 20;
      }
      if clamped > 300 {
        clamped := 300;
      }
      var deadline := WrapI64(timeStamp + clamped * 1000);
      Insert(k, I64Bytes(deadline), Key.TimeOut(tx), Windows.OpenWindow(st, tx, timeOut, timeStamp));
      Windows.DeadlineExactly(timeStamp, timeOut);
    }

    method GetTimeOut(tx: ID) returns (deadline: Option<I64>)
      requires Valid()
      ensures deadline == if tx in st.timeOuts then Some(st.timeOuts[tx]) else None
    {
      var k := TimeOutKey(tx);
      var v := GetValue(k);
      assert v == At(st, Key.TimeOut(tx));
      match v
      case None =>
        deadline := None;
      case Some(bytes) =>
        I64RoundTrip(st.timeOuts[tx]);
        deadline := Some(U64ToI64(ReadU64(bytes)));
    }

    method UpdateWeight(tx: ID, weight: U64, totalWeight: U64)
      requires Valid()
      modifies this
      ensures Valid() && SameOutside(old(data), data)
      ensures st == Windows.AddWeight(old(st), tx, weight, totalWeight)
      ensures written == old(written) + Windows.WeightKeys(old(st), tx, weight, totalWeight)
    {
      var k, val := ReadWeight(tx);
      match val
      case None =>
        SetWeight(k, tx, weight);
      case Some(vW) =>
        var nW := (vW + weight) % TWO64;
        if nW > totalWeight {
          SetStatus(tx);
        }
        SetWeight(k, tx, nW);
    }

    /** Part of UpdateWeight: the weight record holds eight bytes. */
    method SetWeight(k: array<Byte>, tx: ID, weight: U64)
      requires Valid() && k[..] == KeyBytes(Key.Weight(tx))
      modifies this
      ensures Valid() && SameOutside(old(data), data)
      ensures st == old(st).(weights := old(st).weights[tx := weight])
      ensures written == old(written) + {Key.Weight(tx)}
    {
      Insert(k, U64Bytes(weight), Key.Weight(tx), st.(weights := st.weights[tx := weight]));
    }

    method ReadWeight(tx: ID) returns (k: array<Byte>, weight: Option<U64>)
      requires Valid()
      ensures fresh(k) && k[..] == KeyBytes(Key.Weight(tx))
      ensures weight == if tx in st.weights then Some(st.weights[tx]) else None
    {
      k := WeightKey(tx);
      var v := GetValue(k);
      assert v == At(st, Key.Weight(tx));
      match v
      case None =>
        weight := None;
      case Some(bytes) =>
        U64RoundTrip(st.weights[tx]);
        weight := Some(ReadU64(bytes));
    }

    /** Part of UpdateWeight: the status record, once set, holds the number one. */
    method SetStatus(tx: ID)
      requires Valid()
      modifies this
      ensures Valid() && SameOutside(old(data), data)
      ensures st == old(st).(statuses := old(st).statuses + {tx})
      ensures written == old(written) + {Key.Status(tx)}
    {
      var k := StatusKey(tx);
      Insert(k, U16Bytes(1), Key.Status(tx), st.(statuses := st.statuses + {tx}));
    }

    /** None when there is no status record: the source then returns the lookup's error. */
    method GetVerifyStatus(tx: ID) returns (verified: Option<bool>)
      requires Valid()
      ensures verified == if tx in st.statuses then Some(true) else None
    {
      var k := StatusKey(tx);
      var v := GetValue(k);
      assert v == At(st, Key.Status(tx));
      match v
      case None =>
        verified := None;
      case Some(bytes) =>
        U16RoundTrip(FLAG);
        verified := Some(ReadU16(bytes) == 1);
    }

    method GetVote(tx: ID, actor: Address) returns (alreadyVoted: bool)
      requires Valid()
      ensures alreadyVoted <==> (tx, actor) in st.votes
    {
      var k := VoteKey(tx, actor);
      var v := GetValue(k);
      assert v == At(st, Key.Vote(tx, actor));
      match v
      case None =>
        alreadyVoted := false;
      case Some(bytes) =>
        U16RoundTrip(FLAG);
        alreadyVoted := ReadU16(bytes) == 1;
    }

    method StoreVote(tx: ID, actor: Address)
      requires Valid()
      modifies this
      ensures Valid() && SameOutside(old(data), data)
      ensures st == Windows.RecordVote(old(st), tx, actor)
      ensures written == old(written) + {Key.Vote(tx, actor)}
    {
      var k := VoteKey(tx, actor);
      Insert(k, U16Bytes(1), Key.Vote(tx, actor), Windows.RecordVote(st, tx, actor));
    }

    // ---------- Image hashes ----------

    method StoreHashKeyType(image: ID, valType: U16, hash: Bytes)
      requires Valid()
      modifies this
      ensures Valid() && SameOutside(old(data), data)
      ensures st == old(st).(hashes := old(st).hashes[(image, valType) := hash])
      ensures written == old(written) + {Key.Hash(image, valType)}
    {
      var k := HashKey(image, valType);
      Insert(k, hash, Key.Hash(image, valType), Windows.StoreHash(st, image, valType, hash));
    }

    method GetHashKeyType(image: ID, valType: U16) returns (hash: Option<Bytes>)
      requires Valid()
      ensures hash == if (image, valType) in st.hashes then Some(st.hashes[(image, valType)]) else None
    {
      var k := HashKey(image, valType);
      hash := GetValue(k);
      assert hash == At(st, Key.Hash(image, valType));
    }
  }
}
