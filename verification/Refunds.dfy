/**
 * Deductions and refunds as a sequence of signed changes: if every refund gives back part of a
 * deduction of its own, the sum never goes negative.
 */
module Refunds {

  function Balance(changes: seq<int>): int {
    if changes == [] then 0 else Balance(changes[..|changes| - 1]) + changes[|changes| - 1]
  }

  lemma {:induction false} BalanceUpdate(changes: seq<int>, i: nat, v: int)
    requires i < |changes|
    ensures Balance(changes[i := v]) == Balance(changes) - changes[i] + v
  {
    var n := |changes| - 1;
    if i < n {
      BalanceUpdate(changes[..n], i, v);
      assert changes[i := v][..n] == changes[..n][i := v];
    } else {
      assert changes[i := v][..n] == changes[..n];
    }
  }

  lemma {:induction false} BalanceNonNegative(changes: seq<int>)
    requires forall i | 0 <= i < |changes| :: changes[i] >= 0
    ensures Balance(changes) >= 0
    ensures forall i | 0 <= i < |changes| :: changes[i] <= Balance(changes)
  {
    if changes != [] { BalanceNonNegative(changes[..|changes| - 1]); }
  }

  /** The refund at n gives back part of the earlier change `of[n]`. */
  predicate PairedAt(changes: seq<int>, of: map<nat, nat>, n: nat)
    requires n < |changes|
  {
    n in of && of[n] < n && changes[of[n]] + changes[n] >= 0
  }

  /** Every refund is paired, and no change is given back twice. */
  ghost predicate Paired(changes: seq<int>, of: map<nat, nat>) {
    && (forall n {:trigger PairedAt(changes, of, n)} | 0 <= n < |changes| && changes[n] < 0 :: PairedAt(changes, of, n))
    && (forall m, n {:trigger of[m], of[n]} | m in of && n in of && m != n :: of[m] != of[n])
    && (forall n | n in of :: n < |changes| ==> changes[n] < 0)
  }

  /** None of the first n changes gives back part of change i. */
  ghost predicate Whole(of: map<nat, nat>, n: nat, i: nat) {
    forall m | m in of && of[m] == i :: m >= n
  }

  /** What is left of each of the first n changes. */
  ghost predicate IsLeft(changes: seq<int>, of: map<nat, nat>, n: nat, left: seq<int>)
    requires n <= |changes|
  {
    && |left| == n && Balance(left) == Balance(changes[..n])
    && (forall i | 0 <= i < n :: left[i] >= 0)
    && (forall i | 0 <= i < n && changes[i] >= 0 && Whole(of, n, i) :: left[i] == changes[i])
  }

  lemma WholeEarlier(of: map<nat, nat>, n: nat, i: nat)
    requires Whole(of, n + 1, i)
    ensures Whole(of, n, i)
  {
  }

  lemma LeftAfterRefund(changes: seq<int>, of: map<nat, nat>, n: nat, before: seq<int>) returns (left: seq<int>)
    requires n < |changes| && Paired(changes, of) && IsLeft(changes, of, n, before) && changes[n] < 0
    ensures IsLeft(changes, of, n + 1, left)
  {
    assert PairedAt(changes, of, n);
    var i := of[n];
    assert Whole(of, n, i) && before[i] == changes[i];
    var base := before[i := before[i] + changes[n]];
    BalanceUpdate(before, i, before[i] + changes[n]);
    left := base + [0];
    assert left[..n] == base && changes[..n + 1][..n] == changes[..n];
    forall j | 0 <= j < n + 1 && changes[j] >= 0 && Whole(of, n + 1, j)
      ensures left[j] == changes[j]
    {
      assert j != i && j < n;
      WholeEarlier(of, n, j);
    }
  }

  lemma LeftAfterOther(changes: seq<int>, of: map<nat, nat>, n: nat, before: seq<int>) returns (left: seq<int>)
    requires n < |changes| && IsLeft(changes, of, n, before) && changes[n] >= 0
    ensures IsLeft(changes, of, n + 1, left)
  {
    left := before + [changes[n]];
    assert left[..n] == before && changes[..n + 1][..n] == changes[..n];
    forall j | 0 <= j < n + 1 && changes[j] >= 0 && Whole(of, n + 1, j)
      ensures left[j] == changes[j]
    {
      if j < n { WholeEarlier(of, n, j); }
    }
  }

  lemma {:induction false} SomethingLeft(changes: seq<int>, of: map<nat, nat>, n: nat) returns (left: seq<int>)
    requires n <= |changes| && Paired(changes, of)
    ensures IsLeft(changes, of, n, left)
  {
    left := [];
    if n > 0 {
      var before := SomethingLeft(changes, of, n - 1);
      if changes[n - 1] < 0 {
        left := LeftAfterRefund(changes, of, n - 1, before);
      } else {
        left := LeftAfterOther(changes, of, n - 1, before);
      }
    }
  }

  /** Every refund is covered by what is outstanding when it is made. */
  lemma PairedCovered(changes: seq<int>, of: map<nat, nat>, n: nat)
    requires n < |changes| && Paired(changes, of)
    ensures Balance(changes[..n]) >= 0 && Balance(changes[..n]) + changes[n] >= 0
  {
    var left := SomethingLeft(changes, of, n);
    BalanceNonNegative(left);
    if changes[n] < 0 {
      assert PairedAt(changes, of, n);
      var i := of[n];
      assert Whole(of, n, i) && left[i] == changes[i];
    }
  }
}
