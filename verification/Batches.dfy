/** ed25519.go: signatures are split into batches that are checked as they fill up. */
module Batches {
  import opened Encoding

  datatype Item = Item(msg: Bytes, signer: Bytes, signature: Bytes)

  /** Whether one signature is valid: any predicate. */
  type Check = Item -> bool

  ghost predicate AllValid(items: seq<Item>, valid: Check) {
    forall i | 0 <= i < |items| :: valid(items[i])
  }

  /** ed25519.Batch. Its verifier is a closure over it, which looks at the items when it is run. */
  class Batch {
    var items: seq<Item>

    constructor ()
      ensures items == []
    {
      items := [];
    }

    method Add(item: Item)
      modifies this
      ensures items == old(items) + [item]
    {
      items := items + [item];
    }

    ghost predicate Passes(valid: Check)
      reads this
    {
      AllValid(items, valid)
    }
  }

  // ---------- How many items go into a batch ----------

  function BatchSize(cores: nat, count: nat, minSize: nat): (size: nat)
    requires cores > 0
    ensures minSize > 0 ==> size > 0
  {
    if count / cores > minSize then count / cores else minSize
  }

  lemma QuotientAtLeast(x: nat, d: nat, k: nat)
    requires d > 0 && d * k <= x
    ensures k <= x / d
  {
    var q := x / d;
    assert x < d * q + d;
    if q < k {
      Scale(q + 1, k, d);
    }
  }

  lemma QuotientAtMost(x: nat, d: nat, k: nat)
    requires d > 0 && x < d * k + d
    ensures x / d <= k
  {
    var q := x / d;
    assert d * q <= x;
    if k < q {
      Scale(k + 1, q, d);
    }
  }

  lemma DivideMonotone(x: nat, y: nat, d: nat)
    requires d > 0 && x <= y
    ensures x / d <= y / d
  {
    QuotientAtLeast(y, d, x / d);
  }

  lemma DivideAntitone(x: nat, d: nat, e: nat)
    requires 0 < d <= e
    ensures x / e <= x / d
  {
    var q := x / e;
    Scale(d, e, q);
    QuotientAtLeast(x, d, q);
  }

  lemma DivideSum(q: nat, c: nat, r: nat)
    requires q > 0
    ensures (q * c + r) / q == c + r / q
  {
    var k := r / q;
    assert r == q * k + r % q;
    assert q * (c + k) == q * c + q * k;
    QuotientAtLeast(q * c + r, q, c + k);
    QuotientAtMost(q * c + r, q, c + k);
  }

  /**
   * The size is the larger of two: the minimum, and the greatest with which the signatures fill a batch
   * for every core.
   */
  lemma BatchSizeExactly(cores: nat, count: nat, minSize: nat, size: nat)
    requires cores > 0
    ensures size == BatchSize(cores, count, minSize)
       <==> size >= minSize && count < cores * (size + 1) && (size == minSize || cores * size <= count)
  {
    var q := count / cores;
    assert cores * q <= count < cores * q + cores;
    assert cores * (size + 1) == cores * size + cores;
    if size > q {
      Scale(q + 1, size, cores);
    } else if size < q {
      Scale(size + 1, q, cores);
    }
  }

  /** With enough signatures for a minimal batch on every core, every core gets one. */
  lemma BatchCountAtLeast(cores: nat, count: nat, minSize: nat)
    requires cores > 0 && minSize > 0 && count >= cores * minSize
    ensures count / BatchSize(cores, count, minSize) >= cores
  {
    var size := BatchSize(cores, count, minSize);
    BatchSizeExactly(cores, count, minSize, size);
    assert cores * size == size * cores;
    QuotientAtLeast(count, size, cores);
  }

  /** However many signatures there are, Add returns at most this many verifiers. */
  lemma BatchCountBound(cores: nat, count: nat, minSize: nat)
    requires cores > 0 && minSize > 0
    ensures count / BatchSize(cores, count, minSize) <= cores + (cores - 1) / minSize
  {
    var q, r := count / cores, count % cores;
    assert count == q * cores + r;
    if q > minSize {
      DivideSum(q, cores, r);
      DivideMonotone(r, cores - 1, q);
      DivideAntitone(cores - 1, minSize, q);
    } else {
      assert q * cores <= minSize * cores;
      DivideMonotone(count, minSize * cores + (cores - 1), minSize);
      DivideSum(minSize, cores, cores - 1);
    }
  }

  /** The bound is reached. */
  lemma BatchCountReached(cores: nat, minSize: nat)
    requires cores > 0 && minSize > 0
    ensures var count := minSize * cores + (cores - 1);
      count / BatchSize(cores, count, minSize) == cores + (cores - 1) / minSize
  {
    var count := minSize * cores + (cores - 1);
    DivideSum(cores, minSize, cores - 1);
    assert (cores - 1) / cores == 0;
    assert count / cores == minSize;
    DivideSum(minSize, cores, cores - 1);
  }

  // ---------- Splitting ----------

  /** The items of several batches, one after the other. */
  ghost function Joined(batches: seq<Batch>): seq<Item>
    reads batches
  {
    if batches == [] then []
    else Joined(batches[..|batches| - 1]) + batches[|batches| - 1].items
  }

  lemma JoinedStep(batches: seq<Batch>, b: Batch)
    ensures Joined(batches + [b]) == Joined(batches) + b.items
  {
    assert (batches + [b])[..|batches|] == batches;
  }

  lemma AppendValid(p: seq<Item>, q: seq<Item>, valid: Check)
    ensures AllValid(p + q, valid) <==> AllValid(p, valid) && AllValid(q, valid)
  {
    if AllValid(p + q, valid) {
      assert forall i | 0 <= i < |p| :: (p + q)[i] == p[i];
      assert forall i | 0 <= i < |q| :: (p + q)[|p| + i] == q[i];
    }
  }

  /** All items are valid exactly when every batch passes. */
  lemma {:induction false} JoinedValid(batches: seq<Batch>, valid: Check)
    ensures AllValid(Joined(batches), valid) <==> forall i | 0 <= i < |batches| :: batches[i].Passes(valid)
  {
    if batches != [] {
      var init, last := batches[..|batches| - 1], batches[|batches| - 1];
      JoinedValid(init, valid);
      AppendValid(Joined(init), last.items, valid);
      assert forall i | 0 <= i < |init| :: init[i] == batches[i];
    }
  }

  ghost predicate AllSized(batches: seq<Batch>, size: nat)
    reads batches
  {
    forall i | 0 <= i < |batches| :: |batches[i].items| == size
  }

  lemma AllSizedStep(batches: seq<Batch>, b: Batch, size: nat)
    requires AllSized(batches, size) && |b.items| == size
    ensures AllSized(batches + [b], size)
  {
  }

  lemma {:induction false} JoinedLength(batches: seq<Batch>, size: nat)
    requires AllSized(batches, size)
    ensures |Joined(batches)| == size * |batches|
  {
    if batches != [] {
      JoinedLength(batches[..|batches| - 1], size);
      assert size * |batches| == size * (|batches| - 1) + size;
    }
  }

  /** The number of items in n full batches. */
  function Filled(size: nat, n: nat): (items: nat)
    ensures n > 0 && size > 0 ==> items > 0
  {
    size * n
  }

  lemma FilledNext(size: nat, n: nat)
    ensures Filled(size, n + 1) == Filled(size, n) + size
  {
  }

  lemma FilledAndRest(size: nat, n: nat, rest: nat)
    requires rest < size
    ensures (Filled(size, n) + rest) % size == rest && (Filled(size, n) + rest) / size == n
  {
    var items := size * n + rest;
    QuotientAtLeast(items, size, n);
    QuotientAtMost(items, size, n);
    assert items % size == items - size * (items / size);
  }

  /** The batches that were replaced were returned first; only the current one was returned after them. */
  ghost predicate Tail(returned: seq<Batch>, replaced: seq<Batch>, batch: Batch?) {
    && |replaced| <= |returned| && returned[..|replaced|] == replaced
    && (forall i | |replaced| <= i < |returned| :: returned[i] == batch)
  }

  lemma TailElements(returned: seq<Batch>, replaced: seq<Batch>, batch: Batch?)
    requires Tail(returned, replaced, batch)
    ensures forall b | b in replaced :: b in returned
    ensures forall b | b in returned :: b in replaced || b == batch
    ensures |replaced| == |returned| ==> returned == replaced
    ensures |replaced| < |returned| ==> returned[|returned| - 1] == batch && batch in returned
  {
    assert forall i | 0 <= i < |replaced| :: replaced[i] == returned[i];
    if |replaced| < |returned| { assert returned[|replaced|] == batch; }
  }

  /**
   * ED25519Batch. The ghost fields record what was added, which verifiers were returned, and which
   * batches were replaced.
   */
  class ED25519Batch {
    const batchSize: nat
    const total: nat
    var counter: nat
    var totalCounter: nat
    var batch: Batch?
    ghost var input: seq<Item>
    ghost var returned: seq<Batch>
    ghost var replaced: seq<Batch>

    /** What was added lies in the replaced batches and then the current one. */
    ghost predicate Holds()
      reads this, batch, replaced
    {
      && AllSized(replaced, batchSize)
      && (batch == null ==> replaced == [] && input == [])
      && (batch != null ==> batch !in replaced && Joined(replaced) + batch.items == input)
    }

    ghost predicate Laid()
      reads this, batch, replaced
    {
      && Holds()
      && counter <= batchSize
      && (batch == null ==> totalCounter == 0)
      && totalCounter == |input| == Filled(batchSize, |returned|) + counter
      && Tail(returned, replaced, batch)
      && (Sealed() <==> |replaced| < |returned|)
    }

    /** Holds after any number of signatures, announced or not. */
    ghost predicate Valid()
      reads this, batch, replaced
    {
      Laid() && counter < batchSize
    }

    /** The last batch was filled when nothing more was expected, so it was returned but not replaced. */
    predicate Sealed()
      reads this
    {
      var full := totalCounter - counter;
      full > 0 && full >= total
    }

    /** GetBatchVerifier; the minimum batch size is the signature library's. */
    constructor (cores: nat, count: nat, minSize: nat)
      requires cores > 0 && minSize > 0
      ensures Valid() && input == [] && returned == [] && batch == null
      ensures batchSize == BatchSize(cores, count, minSize) && total == count
    {
      batchSize := BatchSize(cores, count, minSize);
      total := count;
      counter, totalCounter := 0, 0;
      batch := null;
      input, returned, replaced := [], [], [];
    }

    /**
     * Every batchSize-th item returns a verifier. A batch that was returned is changed by a later item
     * exactly when it was filled at or after the announced number; up to then each verifier covers the
     * next batchSize items.
     */
    method Add(item: Item) returns (verifier: Batch?)
      requires Valid()
      modifies this, batch
      ensures Valid() && input == old(input) + [item]
      ensures returned == if verifier == null then old(returned) else old(returned) + [verifier]
      ensures verifier != null <==> totalCounter % batchSize == 0
      ensures (exists b | b in old(returned) :: b.items != old(b.items))
         <==> var full := old(totalCounter) - old(totalCounter) % batchSize; full > 0 && full >= total
      ensures forall b | b in old(returned) && b.items != old(b.items) ::
                b == old(batch) && b.items == old(b.items) + [item]
      ensures verifier != null && !old(Sealed()) ==>
                |verifier.items| == batchSize && input == old(Joined(returned)) + verifier.items
    {
      Position();
      Fill(item);
      if counter == batchSize {
        verifier := Flush();
      } else {
        verifier := null;
      }
      Position();
    }

    lemma Position()
      requires Valid()
      ensures totalCounter % batchSize == counter
    {
      FilledAndRest(batchSize, |returned|, counter);
    }

    /** First half of Add: a batch is made if there is none, and the item goes into it. */
    method Fill(item: Item)
      requires Valid()
      modifies this, batch
      ensures Laid() && batch != null && counter == old(counter) + 1 && totalCounter == old(totalCounter) + 1
      ensures input == old(input) + [item] && returned == old(returned)
      ensures (exists b | b in returned :: b.items != old(b.items)) <==> old(Sealed())
      ensures forall b | b in returned && b.items != old(b.items) ::
                b == old(batch) && b.items == old(b.items) + [item]
      ensures !old(Sealed()) ==> |batch.items| == counter && input == old(Joined(returned)) + batch.items
    {
      TailElements(returned, replaced, batch);
      Start();
      Put(item);
      if !Sealed() { CurrentSize(); }
    }

    /** Part of Fill: there is a batch to go into. */
    method Start()
      requires Valid()
      modifies `batch
      ensures Valid() && batch != null && (if old(batch) == null then fresh(batch) else batch == old(batch))
    {
      if batch == null {
        batch := new Batch();
      }
    }

    /** Part of Fill: the batch and the counters change, and no batch that was replaced does. */
    method Put(item: Item)
      requires Valid() && batch != null
      modifies `counter, `totalCounter, `input, batch
      ensures Laid() && counter == old(counter) + 1 && totalCounter == old(totalCounter) + 1
      ensures input == old(input) + [item] && batch.items == old(batch.items) + [item]
      ensures Joined(replaced) == old(Joined(replaced))
      ensures forall b | b in replaced :: b.items == old(b.items)
    {
      batch.Add(item);
      counter := counter + 1;
      totalCounter := totalCounter + 1;
      input := input + [item];
      assert Joined(replaced) == old(Joined(replaced));
    }

    /** Second half of Add, for a full batch: it is returned, and replaced if more signatures are expected. */
    method Flush() returns (last: Batch)
      requires Laid() && 0 < batchSize == counter
      modifies this
      ensures Valid() && last == old(batch) && returned == old(returned) + [last]
      ensures counter == 0 && totalCounter == old(totalCounter) && input == old(input)
    {
      last := batch;
      FilledNext(batchSize, |returned|);
      if totalCounter < total {
        Replace();
      } else {
        counter := 0;
        returned := returned + [last];
      }
    }

    /** Part of Flush: more signatures are expected. */
    method Replace()
      requires Laid() && 0 < batchSize == counter && totalCounter < total
      modifies this
      ensures Valid() && returned == old(returned) + [old(batch)]
      ensures counter == 0 && totalCounter == old(totalCounter) && input == old(input)
    {
      CurrentSize();
      FilledNext(batchSize, |returned|);
      JoinedStep(replaced, batch);
      AllSizedStep(replaced, batch, batchSize);
      returned := returned + [batch];
      replaced := replaced + [batch];
      counter := 0;
      batch := new Batch();
    }

    /** Until a batch is returned without being replaced, the current one holds what came since the last was filled. */
    lemma CurrentSize()
      requires Laid() && batch != null && !Sealed()
      ensures returned == replaced && |batch.items| == counter
    {
      TailElements(returned, replaced, batch);
      JoinedLength(replaced, batchSize);
    }

    /** The number of verifiers returned so far; within the announced number it stays within the bound. */
    lemma Returned(cores: nat, minSize: nat)
      requires Valid() && cores > 0 && minSize > 0 && batchSize == BatchSize(cores, total, minSize)
      ensures |returned| == totalCounter / batchSize
      ensures totalCounter <= total ==> |returned| <= cores + (cores - 1) / minSize
    {
      FilledAndRest(batchSize, |returned|, counter);
      if totalCounter <= total {
        DivideMonotone(totalCounter, total, batchSize);
        BatchCountBound(cores, total, minSize);
      }
    }

    /** The returned batches and the current one pass exactly when everything that was added is valid. */
    lemma Decides(valid: Check)
      requires Valid() && batch != null
      ensures (forall b | b in returned :: b.Passes(valid)) && batch.Passes(valid) <==> AllValid(input, valid)
    {
      JoinedValid(replaced, valid);
      AppendValid(Joined(replaced), batch.items, valid);
      TailElements(returned, replaced, batch);
    }

    /**
     * The remainder, or the last full batch once more. With it all verifiers decide validity, however many
     * items were added.
     */
    method Done() returns (verifiers: seq<Batch>)
      requires Valid()
      ensures verifiers == if batch == null then [] else [batch]
      ensures Sealed() ==> verifiers == [returned[|returned| - 1]]
      ensures !Sealed() && batch != null ==> Joined(returned) + verifiers[0].items == input
      ensures forall valid: Check ::
        (forall b | b in returned + verifiers :: b.Passes(valid)) <==> AllValid(input, valid)
    {
      if batch == null {
        return [];
      }
      forall valid: Check
        ensures (forall b | b in returned + [batch] :: b.Passes(valid)) <==> AllValid(input, valid)
      {
        Decides(valid);
      }
      TailElements(returned, replaced, batch);
      return [batch];
    }
  }
}
