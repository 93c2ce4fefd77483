/** controller.go: what an accepted block leaves in the queue, the index and the transfer counter. */
module Controller {
  import opened Encoding
  import opened Actions
  import opened Metadata
  import Trustless

  datatype TxResult = TxResult(success: bool, consumed: Dimensions, fee: U64)

  datatype BlockTx = BlockTx(id: ID, action: Action)

  datatype Block = Block(ts: I64, txs: seq<BlockTx>, results: seq<TxResult>)

  /** Every transaction of a block has a result. */
  predicate Complete(blk: Block) {
    |blk.results| == |blk.txs|
  }

  function RecordOf(blk: Block, i: nat): TxRecord
    requires Complete(blk) && i < |blk.txs|
  {
    TxRecord(blk.ts, blk.results[i].success, blk.results[i].consumed, blk.results[i].fee)
  }

  /** A record says of the i-th transaction what its block and its result say. */
  predicate Tells(r: TxRecord, blk: Block, i: int) {
    && 0 <= i < |blk.results|
    && r.t == blk.ts
    && r.success == blk.results[i].success
    && r.units == blk.results[i].consumed
    && r.fee == blk.results[i].fee
  }

  // ---------- Folds over the first n transactions of a block ----------

  function Queued(queue: map<ID, U64>, txs: seq<BlockTx>, n: nat): map<ID, U64>
    requires n <= |txs|
  {
    if n == 0 then queue
    else
      var before, tx := Queued(queue, txs, n - 1), txs[n - 1];
      if IsProof(tx.action) then before[tx.id := tx.action.timeOutBlocks] else before
  }

  function Transfers(blk: Block, n: nat): nat
    requires Complete(blk) && n <= |blk.txs|
  {
    if n == 0 then 0
    else Transfers(blk, n - 1) + if blk.results[n - 1].success && blk.txs[n - 1].action.Transfer? then 1 else 0
  }

  function Puts(blk: Block, n: nat): map<Bytes, Bytes>
    requires Complete(blk) && n <= |blk.txs|
  {
    if n == 0 then map[]
    else Puts(blk, n - 1)[TxKeyBytes(blk.txs[n - 1].id) := RecordBytes(RecordOf(blk, n - 1))]
  }

  /** The index after a sequence of blocks. */
  function Index(blocks: seq<Block>): map<Bytes, Bytes>
    requires forall b | b in blocks :: Complete(b)
  {
    if blocks == [] then map[]
    else Index(blocks[..|blocks| - 1]) + Puts(blocks[|blocks| - 1], |blocks[|blocks| - 1].txs|)
  }

  /** A block and how many of its transactions were stored; processing stops inside the first one that is not. */
  datatype Handled = Handled(blk: Block, done: nat)

  predicate Sound(h: Handled) {
    Complete(h.blk) && h.done <= |h.blk.txs|
  }

  /** How many transactions reached the queue: the one whose Put failed is among them. */
  function Visited(h: Handled): (n: nat)
    requires Sound(h)
    ensures n <= |h.blk.txs|
  {
    if h.done < |h.blk.txs| then h.done + 1 else h.done
  }

  /** Successful transfers among the transactions that were stored. */
  function Counted(h: Handled): nat
    requires Sound(h)
  {
    Transfers(h.blk, h.done)
  }

  function AllTransfers(hs: seq<Handled>): nat
    requires forall h | h in hs :: Sound(h)
  {
    if hs == [] then 0
    else AllTransfers(hs[..|hs| - 1]) + Counted(hs[|hs| - 1])
  }

  function AllQueued(hs: seq<Handled>): map<ID, U64>
    requires forall h | h in hs :: Sound(h)
  {
    if hs == [] then map[]
    else Queued(AllQueued(hs[..|hs| - 1]), hs[|hs| - 1].blk.txs, Visited(hs[|hs| - 1]))
  }

  // ---------- Accepted ----------

  /** The first n Puts succeed. */
  ghost predicate AcceptsFirst(accepts: nat -> bool, n: nat) {
    forall i | 0 <= i < n :: accepts(i)
  }

  /** The ghost fields record the blocks written to the index and every block handled, failed ones included. */
  class Controller {
    const storing: bool
    const trustless: Trustless.Trustless
    var metaDB: map<Bytes, Bytes>
    var transfers: nat
    ghost var blocks: seq<Block>
    ghost var handled: seq<Handled>

    ghost predicate Valid()
      reads this, trustless
    {
      && (forall b | b in blocks :: Complete(b))
      && (forall h | h in handled :: Sound(h))
      && metaDB == (if storing then Index(blocks) else map[])
      && transfers == AllTransfers(handled)
      && trustless.queuedActions == AllQueued(handled)
    }

    constructor (storing: bool)
      ensures Valid() && blocks == [] && handled == [] && this.storing == storing
    {
      this.storing := storing;
      trustless := new Trustless.Trustless();
      metaDB := map[];
      transfers := 0;
      blocks, handled := [], [];
    }

    /**
     * `accepts(i)` says whether the i-th Put succeeds, `writes` whether the final Write does. A block is
     * written whole or not at all, but its queue entries and transfers are kept even if it is not.
     */
    method Accepted(blk: Block, accepts: nat -> bool, writes: bool) returns (ok: bool, done: nat)
      requires Valid() && Complete(blk)
      modifies this, trustless
      ensures Valid()
      ensures ok ==> blocks == old(blocks) + [blk]
      ensures !ok ==> blocks == old(blocks) && metaDB == old(metaDB)
      ensures done <= |blk.txs| && (storing ==> AcceptsFirst(accepts, done))
      ensures done < |blk.txs| ==> storing && !accepts(done)
      ensures ok <==> done == |blk.txs| && writes
      ensures handled == old(handled) + [Handled(blk, done)]
    {
      var batch := new Batch(accepts);
      done := HandleTxs(blk, batch);
      Record(blk, done);
      if done < |blk.txs| || !writes {
        return false, done;
      }
      WriteBatch(blk, batch.puts);
      return true, done;
    }

    /** The loop: it stops inside the first transaction that is not stored, after queueing it. */
    method HandleTxs(blk: Block, batch: Batch) returns (done: nat)
      requires Complete(blk) && batch.count == 0 && batch.puts == map[]
      modifies `transfers, trustless, batch
      ensures done <= |blk.txs| && (storing ==> AcceptsFirst(batch.accepts, done))
      ensures done < |blk.txs| ==> storing && !batch.accepts(done)
      ensures batch.puts == if storing then Puts(blk, done) else map[]
      ensures transfers == old(transfers) + Transfers(blk, done)
      ensures trustless.queuedActions == Queued(old(trustless.queuedActions), blk.txs, Visited(Handled(blk, done)))
    {
      for i := 0 to |blk.txs|
        invariant storing ==> batch.count == i && AcceptsFirst(batch.accepts, i)
        invariant batch.puts == if storing then Puts(blk, i) else map[]
        invariant transfers == old(transfers) + Transfers(blk, i)
        invariant trustless.queuedActions == Queued(old(trustless.queuedActions), blk.txs, i)
      {
        var stored := HandleTx(blk, i, batch);
        if !stored {
          return i;
        }
      }
      return |blk.txs|;
    }

    /** The loop body: queue a proof, store the transaction, count a transfer. */
    method HandleTx(blk: Block, i: nat, batch: Batch) returns (stored: bool)
      requires Complete(blk) && i < |blk.txs|
      modifies `transfers, trustless, batch
      ensures trustless.queuedActions == var tx := blk.txs[i]; var queue := old(trustless.queuedActions);
                if IsProof(tx.action) then queue[tx.id := tx.action.timeOutBlocks] else queue
      ensures if storing
              then stored == batch.accepts(old(batch.count)) && batch.count == old(batch.count) + 1
              else stored
      ensures batch.puts ==
              if storing && stored
              then var r := blk.results[i];
                   var record := TxRecord(blk.ts, r.success, r.consumed, r.fee);
                   old(batch.puts)[TxKeyBytes(blk.txs[i].id) := RecordBytes(record)]
              else old(batch.puts)
      ensures transfers == old(transfers)
              + if stored && blk.results[i].success && blk.txs[i].action.Transfer? then 1 else 0
    {
      var tx, result := blk.txs[i], blk.results[i];
      if IsProof(tx.action) {
        trustless.ListenActions(tx.id, tx.action.timeOutBlocks);
      }
      if storing {
        stored := StoreTransaction(batch, tx.id, TxRecord(blk.ts, result.success, result.consumed, result.fee));
        if !stored {
          return false;
        }
      }
      if result.success && tx.action.Transfer? {
        transfers := transfers + 1;
      }
      return true;
    }

    /** Notes in the history how far a block got. */
    ghost method Record(blk: Block, done: nat)
      requires Sound(Handled(blk, done)) && forall h | h in handled :: Sound(h)
      modifies `handled
      ensures handled == old(handled) + [Handled(blk, done)]
      ensures forall h | h in handled :: Sound(h)
      ensures AllTransfers(handled) == AllTransfers(old(handled)) + Transfers(blk, done)
      ensures AllQueued(handled) == Queued(AllQueued(old(handled)), blk.txs, Visited(Handled(blk, done)))
    {
      handled := handled + [Handled(blk, done)];
      assert handled[..|handled| - 1] == old(handled);
    }

    /** batch.Write: all of a block's records at once. */
    method WriteBatch(blk: Block, puts: map<Bytes, Bytes>)
      requires Complete(blk) && (forall b | b in blocks :: Complete(b))
      requires metaDB == if storing then Index(blocks) else map[]
      requires puts == if storing then Puts(blk, |blk.txs|) else map[]
      modifies `metaDB, `blocks
      ensures blocks == old(blocks) + [blk] && (forall b | b in blocks :: Complete(b))
      ensures metaDB == if storing then Index(blocks) else map[]
    {
      metaDB := metaDB + puts;
      blocks := blocks + [blk];
      assert blocks[..|blocks| - 1] == old(blocks);
    }

    /**
     * Finds a transaction exactly when a written block contains it, and then returns what its last
     * occurrence recorded.
     */
    method GetTransaction(id: ID) returns (r: Option<TxRecord>)
      requires Valid()
      ensures storing ==> r == LastRecord(blocks, id)
      ensures storing && r.Some? ==>
                exists b, i :: Occurs(blocks, id, b, i) && Tells(r.value, blocks[b], i)
                  && forall b', i' | Occurs(blocks, id, b', i') :: b' < b || (b' == b && i' <= i)
      ensures !storing ==> r == None
    {
      var k := TxKey(id);
      if storing { IndexLookup(blocks, id); }
      if k[..] !in metaDB {
        return None;
      }
      var v := metaDB[k[..]];
      RecordRoundTrip(LastRecord(blocks, id).value);
      ghost var b, i := LastRecordOccurs(blocks, id);
      return ReadRecord(v);
    }
  }

  // ---------- The index is the chain's history ----------

  /** The record of the last of the first n transactions of a block with an ID. */
  function RecordIn(blk: Block, id: ID, n: nat): Option<TxRecord>
    requires Complete(blk) && n <= |blk.txs|
  {
    if n == 0 then None
    else if blk.txs[n - 1].id == id then Some(RecordOf(blk, n - 1))
    else RecordIn(blk, id, n - 1)
  }

  function LastRecord(blocks: seq<Block>, id: ID): Option<TxRecord>
    requires forall b | b in blocks :: Complete(b)
  {
    if blocks == [] then None
    else
      var last := blocks[|blocks| - 1];
      var r := RecordIn(last, id, |last.txs|);
      if r.Some? then r else LastRecord(blocks[..|blocks| - 1], id)
  }

  function Held(m: map<Bytes, Bytes>, id: ID): Option<Bytes> {
    if TxKeyBytes(id) in m then Some(m[TxKeyBytes(id)]) else None
  }

  function Stored(r: Option<TxRecord>): Option<Bytes> {
    match r
    case None => None
    case Some(v) => Some(RecordBytes(v))
  }

  lemma {:induction false} PutsLookup(blk: Block, id: ID, n: nat)
    requires Complete(blk) && n <= |blk.txs|
    ensures Held(Puts(blk, n), id) == Stored(RecordIn(blk, id, n))
  {
    if n > 0 {
      PutsLookup(blk, id, n - 1);
      TxKeyInjective(blk.txs[n - 1].id, id);
    }
  }

  lemma {:induction false} IndexLookup(blocks: seq<Block>, id: ID)
    requires forall b | b in blocks :: Complete(b)
    ensures Held(Index(blocks), id) == Stored(LastRecord(blocks, id))
  {
    if blocks != [] {
      var last := blocks[|blocks| - 1];
      IndexLookup(blocks[..|blocks| - 1], id);
      PutsLookup(last, id, |last.txs|);
    }
  }

  /** Where an ID occurs. */
  ghost predicate Occurs(blocks: seq<Block>, id: ID, b: int, i: int) {
    0 <= b < |blocks| && 0 <= i < |blocks[b].txs| && blocks[b].txs[i].id == id
  }

  lemma {:induction false} RecordInSome(blk: Block, id: ID, n: nat) returns (i: int)
    requires Complete(blk) && n <= |blk.txs|
    ensures RecordIn(blk, id, n).Some? ==>
              0 <= i < n && blk.txs[i].id == id && RecordIn(blk, id, n) == Some(RecordOf(blk, i))
    ensures RecordIn(blk, id, n).Some? ==> forall j | i < j < n :: blk.txs[j].id != id
    ensures RecordIn(blk, id, n) == None ==> forall j | 0 <= j < n :: blk.txs[j].id != id
  {
    if n > 0 && blk.txs[n - 1].id == id {
      i := n - 1;
    } else if n > 0 {
      i := RecordInSome(blk, id, n - 1);
    } else {
      i := 0;
    }
  }

  /** An ID is found exactly when it occurs, and what is found is the record of the last occurrence. */
  lemma {:induction false} LastRecordOccurs(blocks: seq<Block>, id: ID) returns (b: int, i: int)
    requires forall blk | blk in blocks :: Complete(blk)
    ensures LastRecord(blocks, id).Some? ==>
              && Occurs(blocks, id, b, i) && LastRecord(blocks, id) == Some(RecordOf(blocks[b], i))
              && Tells(LastRecord(blocks, id).value, blocks[b], i)
              && forall b', i' | Occurs(blocks, id, b', i') :: b' < b || (b' == b && i' <= i)
    ensures LastRecord(blocks, id) == None ==> forall b', i' :: !Occurs(blocks, id, b', i')
  {
    b, i := 0, 0;
    if blocks != [] {
      var n := |blocks| - 1;
      i := RecordInSome(blocks[n], id, |blocks[n].txs|);
      b := n;
      if RecordIn(blocks[n], id, |blocks[n].txs|).None? {
        b, i := LastRecordOccurs(blocks[..n], id);
        forall b', i' ensures Occurs(blocks, id, b', i') <==> Occurs(blocks[..n], id, b', i') {
        }
      }
    }
  }

  /**
   * When no ID repeats, each transaction of each block is found with exactly its own timestamp, success,
   * units and fee.
   */
  lemma DistinctFound(blocks: seq<Block>, id: ID, b: int, i: int)
    requires forall blk | blk in blocks :: Complete(blk)
    requires Occurs(blocks, id, b, i)
    requires forall b', i' | Occurs(blocks, id, b', i') :: b' == b && i' == i
    ensures LastRecord(blocks, id).Some? && Tells(LastRecord(blocks, id).value, blocks[b], i)
  {
    var b', i' := LastRecordOccurs(blocks, id);
  }

  // ---------- The counter ----------

  /** The successful transfers among the transactions that were stored. */
  ghost predicate CountedAt(hs: seq<Handled>, b: int, i: int)
    requires forall h | h in hs :: Sound(h)
  {
    && 0 <= b < |hs| && Sound(hs[b]) && 0 <= i < hs[b].done
    && hs[b].blk.results[i].success && hs[b].blk.txs[i].action.Transfer?
  }

  ghost function CountedPlaces(hs: seq<Handled>): (places: set<(int, int)>)
    requires forall h | h in hs :: Sound(h)
    ensures forall b, i :: (b, i) in places <==> CountedAt(hs, b, i)
  {
    set b, i | 0 <= b < |hs| && 0 <= i < hs[b].done && CountedAt(hs, b, i) :: (b, i)
  }

  predicate AllSound(hs: seq<Handled>) {
    forall h | h in hs :: Sound(h)
  }

  lemma AllSoundNext(init: seq<Handled>, h: Handled)
    ensures AllSound(init + [h]) <==> AllSound(init) && Sound(h)
  {
    assert forall g | g in init :: g in init + [h];
    assert h in init + [h];
  }

  lemma AllTransfersNext(init: seq<Handled>, h: Handled)
    requires AllSound(init + [h]) && AllSound(init) && Sound(h)
    ensures AllTransfers(init + [h]) == AllTransfers(init) + Counted(h)
  {
    assert (init + [h])[..|init|] == init;
  }

  /** A block of which nothing was stored counts for nothing. */
  lemma NothingCounted(init: seq<Handled>, blk: Block)
    requires AllSound(init) && AllSound(init + [Handled(blk, 0)])
    ensures CountedPlaces(init + [Handled(blk, 0)]) == CountedPlaces(init)
  {
    var hs := init + [Handled(blk, 0)];
    forall b, i ensures CountedAt(hs, b, i) <==> CountedAt(init, b, i) {
    }
  }

  /** One transaction more is counted if it is a successful transfer. */
  lemma OneMore(init: seq<Handled>, blk: Block, done: nat)
    requires Sound(Handled(blk, done + 1))
    requires AllSound(init + [Handled(blk, done)]) && AllSound(init + [Handled(blk, done + 1)])
    ensures |CountedPlaces(init + [Handled(blk, done + 1)])|
         == |CountedPlaces(init + [Handled(blk, done)])|
            + if blk.results[done].success && blk.txs[done].action.Transfer? then 1 else 0
  {
    var fewer, hs, place := init + [Handled(blk, done)], init + [Handled(blk, done + 1)], (|init|, done);
    forall b, i ensures CountedAt(fewer, b, i) <==> CountedAt(hs, b, i) && (b, i) != place {
    }
    assert CountedPlaces(fewer) == CountedPlaces(hs) - {place};
    assert CountedAt(hs, |init|, done) <==> blk.results[done].success && blk.txs[done].action.Transfer?;
  }

  lemma {:induction false} TransfersCountedIn(init: seq<Handled>, blk: Block, done: nat)
    requires Sound(Handled(blk, done)) && AllSound(init) && AllSound(init + [Handled(blk, done)])
    ensures AllTransfers(init + [Handled(blk, done)]) == |CountedPlaces(init + [Handled(blk, done)])|
    decreases |init|, done + 1
  {
    AllTransfersNext(init, Handled(blk, done));
    if done == 0 {
      TransfersCounted(init);
      NothingCounted(init, blk);
    } else {
      AllSoundNext(init, Handled(blk, done - 1));
      TransfersCountedIn(init, blk, done - 1);
      AllTransfersNext(init, Handled(blk, done - 1));
      OneMore(init, blk, done - 1);
    }
  }

  /** The counter is the number of places where a successful transfer was stored. */
  lemma {:induction false} TransfersCounted(hs: seq<Handled>)
    requires AllSound(hs)
    ensures AllTransfers(hs) == |CountedPlaces(hs)|
    decreases |hs|, 0
  {
    if hs == [] {
      assert CountedPlaces(hs) == {};
    } else {
      var init, last := hs[..|hs| - 1], hs[|hs| - 1];
      assert hs == init + [Handled(last.blk, last.done)];
      AllSoundNext(init, last);
      TransfersCountedIn(init, last.blk, last.done);
    }
  }

  // ---------- The queue ----------

  /** The queue holds what it held, overwritten by each proof action's own unclamped time-out. */
  lemma {:induction false} QueuedExactly(queue: map<ID, U64>, txs: seq<BlockTx>, n: nat, id: ID) returns (i: int)
    requires n <= |txs|
    ensures id in Queued(queue, txs, n)
       <==> id in queue || exists j :: 0 <= j < n && IsProof(txs[j].action) && txs[j].id == id
    ensures -1 <= i < n && forall j | i < j < n :: !(IsProof(txs[j].action) && txs[j].id == id)
    ensures i >= 0 ==>
              && IsProof(txs[i].action) && txs[i].id == id
              && Queued(queue, txs, n)[id] == txs[i].action.timeOutBlocks
    ensures i < 0 && id in queue ==> Queued(queue, txs, n)[id] == queue[id]
  {
    i := -1;
    if n > 0 {
      i := QueuedExactly(queue, txs, n - 1, id);
      if IsProof(txs[n - 1].action) && txs[n - 1].id == id {
        i := n - 1;
      }
    }
  }

  /** A proof action with the ID that a handled block got as far as. */
  predicate QueuedAt(hs: seq<Handled>, id: ID, b: int, i: int)
    requires forall h | h in hs :: Sound(h)
  {
    && 0 <= b < |hs| && 0 <= i < Visited(hs[b])
    && IsProof(hs[b].blk.txs[i].action) && hs[b].blk.txs[i].id == id
  }

  /** An ID is queued exactly when some handled block got as far as a proof action with that ID. */
  lemma {:induction false} AllQueuedExactly(hs: seq<Handled>, id: ID)
    requires forall h | h in hs :: Sound(h)
    ensures id in AllQueued(hs) <==> exists b, i :: QueuedAt(hs, id, b, i)
  {
    if hs != [] {
      var n := |hs| - 1;
      AllQueuedExactly(hs[..n], id);
      var i := QueuedExactly(AllQueued(hs[..n]), hs[n].blk.txs, Visited(hs[n]), id);
      if i >= 0 { assert QueuedAt(hs, id, n, i); }
      forall b, i' | QueuedAt(hs[..n], id, b, i') ensures QueuedAt(hs, id, b, i') {
      }
      forall b, i' | QueuedAt(hs, id, b, i') && b < n ensures QueuedAt(hs[..n], id, b, i') {
      }
    }
  }

  /** Over all blocks an ID is queued under the unclamped time-out of the last proof action that carried it. */
  lemma {:induction false} AllQueuedLast(hs: seq<Handled>, id: ID) returns (b: int, i: int)
    requires forall h | h in hs :: Sound(h)
    requires id in AllQueued(hs)
    ensures QueuedAt(hs, id, b, i) && AllQueued(hs)[id] == hs[b].blk.txs[i].action.timeOutBlocks
    ensures forall b', i' | QueuedAt(hs, id, b', i') :: b' < b || (b' == b && i' <= i)
  {
    var n := |hs| - 1;
    b := n;
    i := QueuedExactly(AllQueued(hs[..n]), hs[n].blk.txs, Visited(hs[n]), id);
    if i < 0 {
      b, i := AllQueuedLast(hs[..n], id);
      forall b', i' | QueuedAt(hs, id, b', i') ensures QueuedAt(hs[..n], id, b', i') {
      }
    }
  }
}
