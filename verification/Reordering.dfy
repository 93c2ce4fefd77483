/** Transactions with disjoint declared keys can be reordered: same results, same state, same bytes. */
module Reordering {
  import opened Encoding
  import opened Records
  import opened Transactions
  import Keys

  ghost predicate Independent(tx: Tx, tx': Tx) {
    Declared(tx) !! Declared(tx')
  }

  ghost predicate AllProper(txs: seq<Tx>) {
    forall i {:trigger Proper(txs[i])} | 0 <= i < |txs| :: Proper(txs[i])
  }

  /** Two independent transactions, one after the other in either order. */
  lemma Commute(s: State, tx: Tx, tx': Tx)
    requires Proper(tx) && Proper(tx') && Independent(tx, tx')
    ensures ExecTx(ExecTx(s, tx).s, tx').s == ExecTx(ExecTx(s, tx').s, tx).s
    ensures ExecTx(ExecTx(s, tx).s, tx').result == ExecTx(s, tx').result
    ensures ExecTx(ExecTx(s, tx').s, tx).result == ExecTx(s, tx).result
  {
    DisjointDeclaredTouched(tx, tx');
    var ks, ks' := TouchedByTx(tx), TouchedByTx(tx');
    var first, first' := ExecTx(s, tx).s, ExecTx(s, tx').s;
    TxLocal(s, s, tx, ks);
    TxLocal(s, s, tx', ks');
    assert AgreeOn(s, first, ks') && AgreeOn(s, first', ks);
    TxLocal(s, first', tx, ks);
    TxLocal(s, first, tx', ks');
    TxLocal(first, first, tx', ks');
    TxLocal(first', first', tx, ks);
    MeetAtEveryRecord(s, first, first', ExecTx(first, tx').s, ExecTx(first', tx).s, ks, ks');
    SameRecords(ExecTx(first, tx').s, ExecTx(first', tx).s);
  }

  lemma MeetAtEveryRecord(s: State, a: State, b: State, ab: State, ba: State, ks: set<Keys.Key>, ks': set<Keys.Key>)
    requires ks !! ks'
    requires SameExcept(s, a, ks) && SameExcept(s, b, ks')
    requires SameExcept(a, ab, ks') && SameExcept(b, ba, ks)
    requires AgreeOn(a, ba, ks) && AgreeOn(b, ab, ks')
    ensures forall k: Keys.Key | IsRecord(k) :: At(ab, k) == At(ba, k)
  {
  }

  // ---------- Sequences ----------

  ghost function RunTxs(s: State, txs: seq<Tx>): State
    requires AllProper(txs)
    decreases |txs|
  {
    if txs == [] then s else RunTxs(ExecTx(s, txs[0]).s, txs[1..])
  }

  ghost function Results(s: State, txs: seq<Tx>): (r: seq<Result>)
    requires AllProper(txs)
    ensures |r| == |txs|
    decreases |txs|
  {
    if txs == [] then []
    else [ExecTx(s, txs[0]).result] + Results(ExecTx(s, txs[0]).s, txs[1..])
  }

  /** The sequence without its p-th element. */
  function Without<T>(xs: seq<T>, p: nat): (r: seq<T>)
    requires p < |xs|
    ensures |r| == |xs| - 1
    ensures forall i | 0 <= i < p :: r[i] == xs[i]
    ensures forall i | p <= i < |r| :: r[i] == xs[i + 1]
  {
    xs[..p] + xs[p + 1..]
  }

  lemma RunCons(s: State, tx: Tx, rest: seq<Tx>)
    requires Proper(tx) && AllProper(rest)
    ensures AllProper([tx] + rest)
    ensures RunTxs(s, [tx] + rest) == RunTxs(ExecTx(s, tx).s, rest)
    ensures Results(s, [tx] + rest) == [ExecTx(s, tx).result] + Results(ExecTx(s, tx).s, rest)
  {
    assert ([tx] + rest)[1..] == rest;
  }

  lemma WithoutCons<T>(x: T, xs: seq<T>, p: nat)
    requires p < |xs|
    ensures Without([x] + xs, p + 1) == [x] + Without(xs, p)
  {
  }

  /** Running txs is running its p-th transaction first, and then the others, with the same results. */
  ghost predicate FrontAgrees(s: State, txs: seq<Tx>, p: nat)
    requires p < |txs| && AllProper(txs) && AllProper(Without(txs, p))
  {
    && RunTxs(s, txs) == RunTxs(ExecTx(s, txs[p]).s, Without(txs, p))
    && Results(s, txs)[p] == ExecTx(s, txs[p]).result
    && Without(Results(s, txs), p) == Results(ExecTx(s, txs[p]).s, Without(txs, p))
  }

  lemma FrontStep(s: State, tx: Tx, rest: seq<Tx>, p: nat)
    requires Proper(tx) && AllProper(rest) && p < |rest| && AllProper(Without(rest, p)) && Independent(tx, rest[p])
    requires FrontAgrees(ExecTx(s, tx).s, rest, p)
    ensures AllProper([tx] + rest) && AllProper(Without([tx] + rest, p + 1))
    ensures FrontAgrees(s, [tx] + rest, p + 1)
  {
    var x, left := rest[p], Without(rest, p);
    Commute(s, tx, x);
    WithoutCons(tx, rest, p);
    RunCons(s, tx, rest);
    RunCons(ExecTx(s, x).s, tx, left);
    WithoutCons(ExecTx(s, tx).result, Results(ExecTx(s, tx).s, rest), p);
  }

  lemma AlreadyFront(s: State, tx: Tx, rest: seq<Tx>)
    requires Proper(tx) && AllProper(rest)
    ensures AllProper([tx] + rest) && AllProper(Without([tx] + rest, 0)) && FrontAgrees(s, [tx] + rest, 0)
  {
    assert Without([tx] + rest, 0) == rest;
    RunCons(s, tx, rest);
    assert Without([ExecTx(s, tx).result] + Results(ExecTx(s, tx).s, rest), 0) == Results(ExecTx(s, tx).s, rest);
  }

  /** The p-th transaction is independent of all that come before it. */
  ghost predicate Free(txs: seq<Tx>, p: nat)
    requires p < |txs|
  {
    forall q | 0 <= q < p :: Independent(txs[q], txs[p])
  }

  lemma FreeInRest(txs: seq<Tx>, p: nat)
    requires 0 < p < |txs| && Free(txs, p)
    ensures Independent(txs[0], txs[p]) && Free(txs[1..], p - 1)
  {
    var rest := txs[1..];
    forall q | 0 <= q < p - 1 ensures Independent(rest[q], rest[p - 1]) {
      assert Independent(txs[q + 1], txs[p]);
    }
  }

  lemma FrontOfWhole(s: State, txs: seq<Tx>, p: nat)
    requires 0 < p < |txs| && AllProper(txs) && AllProper(txs[1..]) && Independent(txs[0], txs[p])
    requires AllProper(Without(txs[1..], p - 1)) && FrontAgrees(ExecTx(s, txs[0]).s, txs[1..], p - 1)
    ensures AllProper(Without(txs, p)) && FrontAgrees(s, txs, p)
  {
    var tx, rest := txs[0], txs[1..];
    FrontStep(s, tx, rest, p - 1);
    assert [tx] + rest == txs;
  }

  /** A transaction independent of all that come before it may as well go first. */
  lemma {:induction false} MoveToFront(s: State, txs: seq<Tx>, p: nat)
    requires p < |txs| && AllProper(txs) && Free(txs, p)
    ensures AllProper(Without(txs, p)) && FrontAgrees(s, txs, p)
    decreases p
  {
    if p == 0 {
      AlreadyFront(s, txs[0], txs[1..]);
      assert [txs[0]] + txs[1..] == txs;
    } else {
      FreeInRest(txs, p);
      MoveToFront(ExecTx(s, txs[0]).s, txs[1..], p - 1);
      FrontOfWhole(s, txs, p);
    }
  }

  // ---------- Reordering ----------

  /** `perm` lists every position below n once. */
  ghost predicate IsPermutation(perm: seq<nat>, n: nat) {
    && |perm| == n
    && (forall i | 0 <= i < n :: perm[i] < n)
    && (forall i, j | 0 <= i < j < n :: perm[i] != perm[j])
    && (forall p | 0 <= p < n :: p in perm)
  }

  /** Two transactions whose order is turned around are independent. */
  ghost predicate PairKept(txs: seq<Tx>, perm: seq<nat>, i: nat, j: nat)
    requires i < j < |perm| && perm[i] < |txs| && perm[j] < |txs|
  {
    perm[i] > perm[j] ==> Independent(txs[perm[j]], txs[perm[i]])
  }

  /** Transactions that are not independent keep their order. */
  ghost predicate KeepsConflicts(txs: seq<Tx>, perm: seq<nat>)
    requires IsPermutation(perm, |txs|)
  {
    forall i, j | 0 <= i < j < |perm| :: PairKept(txs, perm, i, j)
  }

  function Permuted<T>(xs: seq<T>, perm: seq<nat>): (r: seq<T>)
    requires forall i | 0 <= i < |perm| :: perm[i] < |xs|
    ensures |r| == |perm|
    ensures forall i | 0 <= i < |perm| :: r[i] == xs[perm[i]]
  {
    seq(|perm|, i requires 0 <= i < |perm| => xs[perm[i]])
  }

  /** The permutation of what is left when its first position is taken out. */
  function Shift(perm: seq<nat>): (r: seq<nat>)
    requires perm != []
    ensures |r| == |perm| - 1
  {
    seq(|perm| - 1, i requires 0 <= i < |perm| - 1 => if perm[i + 1] > perm[0] then perm[i + 1] - 1 else perm[i + 1])
  }

  lemma ShiftPermutes(perm: seq<nat>, n: nat)
    requires n > 0 && IsPermutation(perm, n)
    ensures IsPermutation(Shift(perm), n - 1)
  {
    var r := Shift(perm);
    forall i | 0 <= i < n - 1 ensures r[i] < n - 1 {
      assert perm[0] != perm[i + 1];
    }
    forall i, j | 0 <= i < j < n - 1 ensures r[i] != r[j] {
      assert perm[0] != perm[i + 1] && perm[0] != perm[j + 1] && perm[i + 1] != perm[j + 1];
    }
    forall p | 0 <= p < n - 1 ensures p in r {
      var q := if p < perm[0] then p else p + 1;
      assert q in perm;
      var i :| 0 <= i < n && perm[i] == q;
      assert r[i - 1] == p;
    }
  }

  /** What position i of the shifted permutation picks from the rest is what position i + 1 picked from the whole. */
  lemma ShiftAt<T>(xs: seq<T>, perm: seq<nat>, i: nat)
    requires perm != [] && IsPermutation(perm, |xs|) && i < |perm| - 1
    ensures Shift(perm)[i] < |xs| - 1
    ensures Without(xs, perm[0])[Shift(perm)[i]] == xs[perm[i + 1]]
  {
    assert perm[0] != perm[i + 1];
  }

  lemma ShiftOrder(perm: seq<nat>, n: nat, i: nat, j: nat)
    requires perm != [] && IsPermutation(perm, n) && i < |perm| - 1 && j < |perm| - 1
    ensures Shift(perm)[i] > Shift(perm)[j] <==> perm[i + 1] > perm[j + 1]
  {
    assert perm[0] != perm[i + 1] && perm[0] != perm[j + 1];
  }

  /** A permuted sequence is its first pick, and then the rest in the shifted permutation. */
  lemma PermutedCons<T>(xs: seq<T>, perm: seq<nat>)
    requires perm != [] && IsPermutation(perm, |xs|)
    ensures IsPermutation(Shift(perm), |xs| - 1)
    ensures Permuted(xs, perm) == [xs[perm[0]]] + Permuted(Without(xs, perm[0]), Shift(perm))
  {
    ShiftPermutes(perm, |xs|);
    forall i | 0 <= i < |perm| - 1
      ensures Permuted(Without(xs, perm[0]), Shift(perm))[i] == Permuted(xs, perm)[i + 1]
    {
      ShiftAt(xs, perm, i);
    }
  }

  lemma ShiftKeepsPair(txs: seq<Tx>, perm: seq<nat>, i: nat, j: nat)
    requires perm != [] && IsPermutation(perm, |txs|) && i < j < |perm| - 1
    requires PairKept(txs, perm, i + 1, j + 1)
    ensures Shift(perm)[i] < |txs| - 1 && Shift(perm)[j] < |txs| - 1
    ensures PairKept(Without(txs, perm[0]), Shift(perm), i, j)
  {
    ShiftAt(txs, perm, i);
    ShiftAt(txs, perm, j);
    ShiftOrder(perm, |txs|, i, j);
  }

  lemma ShiftKeepsConflicts(txs: seq<Tx>, perm: seq<nat>)
    requires perm != [] && IsPermutation(perm, |txs|) && KeepsConflicts(txs, perm)
    ensures IsPermutation(Shift(perm), |txs| - 1)
    ensures KeepsConflicts(Without(txs, perm[0]), Shift(perm))
  {
    ShiftPermutes(perm, |txs|);
    forall i, j | 0 <= i < j < |perm| - 1
      ensures PairKept(Without(txs, perm[0]), Shift(perm), i, j)
    {
      assert PairKept(txs, perm, i + 1, j + 1);
      ShiftKeepsPair(txs, perm, i, j);
    }
  }

  /** What the permutation puts first is independent of everything it overtakes. */
  lemma FirstIsFree(txs: seq<Tx>, perm: seq<nat>, q: nat)
    requires perm != [] && IsPermutation(perm, |txs|) && KeepsConflicts(txs, perm) && q < perm[0]
    ensures Independent(txs[q], txs[perm[0]])
  {
    assert q in perm;
    var j :| 0 <= j < |perm| && perm[j] == q;
    assert 0 < j && PairKept(txs, perm, 0, j);
  }

  /** Running txs is running the first pick of the permutation, and then the others. */
  lemma FirstGoesFirst(s: State, txs: seq<Tx>, perm: seq<nat>)
    requires perm != [] && AllProper(txs) && IsPermutation(perm, |txs|) && KeepsConflicts(txs, perm)
    ensures AllProper(Without(txs, perm[0])) && FrontAgrees(s, txs, perm[0])
  {
    forall q | 0 <= q < perm[0] ensures Independent(txs[q], txs[perm[0]]) {
      FirstIsFree(txs, perm, q);
    }
    MoveToFront(s, txs, perm[0]);
  }

  /** The reordering agrees with the original order. */
  ghost predicate Harmless(s: State, txs: seq<Tx>, perm: seq<nat>)
    requires AllProper(txs) && IsPermutation(perm, |txs|)
  {
    && AllProper(Permuted(txs, perm))
    && RunTxs(s, Permuted(txs, perm)) == RunTxs(s, txs)
    && Results(s, Permuted(txs, perm)) == Permuted(Results(s, txs), perm)
  }

  lemma HarmlessStep(s: State, txs: seq<Tx>, perm: seq<nat>)
    requires perm != [] && AllProper(txs) && IsPermutation(perm, |txs|)
    requires AllProper(Without(txs, perm[0])) && FrontAgrees(s, txs, perm[0])
    requires IsPermutation(Shift(perm), |txs| - 1)
    requires Harmless(ExecTx(s, txs[perm[0]]).s, Without(txs, perm[0]), Shift(perm))
    ensures Harmless(s, txs, perm)
  {
    var tx, rest := txs[perm[0]], Permuted(Without(txs, perm[0]), Shift(perm));
    PermutedCons(txs, perm);
    PermutedCons(Results(s, txs), perm);
    RunCons(s, tx, rest);
  }

  /**
   * Any reordering that keeps conflicting transactions in order gives every transaction the same result,
   * and the same final state.
   */
  lemma {:induction false} ReorderingIsHarmless(s: State, txs: seq<Tx>, perm: seq<nat>)
    requires AllProper(txs) && IsPermutation(perm, |txs|) && KeepsConflicts(txs, perm)
    ensures AllProper(Permuted(txs, perm))
    ensures RunTxs(s, Permuted(txs, perm)) == RunTxs(s, txs)
    ensures Results(s, Permuted(txs, perm)) == Permuted(Results(s, txs), perm)
    decreases |txs|
  {
    if txs != [] {
      FirstGoesFirst(s, txs, perm);
      ShiftKeepsConflicts(txs, perm);
      ReorderingIsHarmless(ExecTx(s, txs[perm[0]]).s, Without(txs, perm[0]), Shift(perm));
      HarmlessStep(s, txs, perm);
    }
  }

  /** The same at the level of bytes: stores reached in two orders from one store are equal key by key. */
  lemma SameBytes(
      data: map<Bytes, Bytes>, s: State, txs: seq<Tx>, perm: seq<nat>,
      after: map<Bytes, Bytes>, after': map<Bytes, Bytes>)
    requires Represents(data, s) && AllProper(txs) && IsPermutation(perm, |txs|) && KeepsConflicts(txs, perm)
    requires AllProper(Permuted(txs, perm))
    requires Represents(after, RunTxs(s, txs)) && SameOutside(data, after)
    requires Represents(after', RunTxs(s, Permuted(txs, perm))) && SameOutside(data, after')
    ensures after == after'
  {
    ReorderingIsHarmless(s, txs, perm);
    StoreDetermined(after, after', RunTxs(s, txs));
  }
}
