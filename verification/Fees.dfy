/** What whole transactions do to the total of all balances. */
module Fees {
  import opened Encoding
  import opened Records
  import opened Transactions
  import Execution
  import Ledger
  import Reordering
  import Runs
  import Supply

  lemma SettleSum(s: State, tx: Tx, success: bool, units: U64)
    requires Proper(tx) && units <= Execution.MaxUnits(tx.action)
    requires Ledger.Sum(s.balances) + tx.maxFee - tx.fee(units) <= MAX_U64
    ensures Settle(s, tx, success, units).result == Ran(success, units, true)
    ensures Ledger.Sum(Settle(s, tx, success, units).s.balances)
         == Ledger.Sum(s.balances) + if tx.sponsor in s.balances then tx.maxFee - tx.fee(units) else 0
  {
    Ledger.CreditSum(s, tx.sponsor, tx.maxFee - tx.fee(units), false);
  }

  /** The fee for the reported units, or the maximum fee if the sponsor's record is gone at the refund. */
  ghost function Paid(s: State, tx: Tx): U64
    requires Proper(tx)
  {
    match Ledger.Debit(s, tx.sponsor, tx.maxFee)
    case None => 0
    case Some(charged) =>
      if tx.sponsor in Kept(charged, tx).balances then tx.fee(UnitsOf(charged, tx)) else tx.maxFee
  }

  /** A transaction takes exactly what it pays out of circulation, and its refund is never refused. */
  lemma TxCharge(s: State, tx: Tx)
    requires Proper(tx) && Ledger.Sum(s.balances) <= MAX_U64
    ensures ExecTx(s, tx).result == Unpaid <==> Ledger.BalanceOf(s, tx.sponsor) < tx.maxFee
    ensures ExecTx(s, tx).result == Unpaid ==> ExecTx(s, tx).s == s
    ensures ExecTx(s, tx).result.Ran? ==> ExecTx(s, tx).result.refunded
    ensures Ledger.Sum(ExecTx(s, tx).s.balances) + Paid(s, tx) == Ledger.Sum(s.balances)
  {
    if Ledger.Debit(s, tx.sponsor, tx.maxFee).Some? {
      var charged := Ledger.Debit(s, tx.sponsor, tx.maxFee).value;
      Ledger.DebitSum(s, tx.sponsor, tx.maxFee);
      KeptSum(charged, tx);
      SettleSum(Kept(charged, tx), tx, Acts(charged, tx).Some?, UnitsOf(charged, tx));
    }
  }

  lemma KeptSum(s: State, tx: Tx)
    requires Ledger.Sum(s.balances) <= MAX_U64
    ensures Ledger.Sum(Kept(s, tx).balances) == Ledger.Sum(s.balances)
  {
    if Acts(s, tx).Some? { Supply.ActSum(s, tx.action, tx.actor, tx.txID, tx.ts, tx.rules); }
  }

  /** What a sequence of transactions pays. */
  ghost function Charges(s: State, txs: seq<Tx>): nat
    requires Reordering.AllProper(txs)
    decreases |txs|
  {
    if txs == [] then 0 else Paid(s, txs[0]) + Charges(ExecTx(s, txs[0]).s, txs[1..])
  }

  /** Over any sequence of transactions the total shrinks by exactly what they pay, and no refund is refused. */
  lemma {:induction false} TxsConserve(s: State, txs: seq<Tx>)
    requires Reordering.AllProper(txs) && Ledger.Sum(s.balances) <= MAX_U64
    ensures Ledger.Sum(Reordering.RunTxs(s, txs).balances) + Charges(s, txs) == Ledger.Sum(s.balances)
    ensures forall i | 0 <= i < |txs| && Reordering.Results(s, txs)[i].Ran? :: Reordering.Results(s, txs)[i].refunded
    decreases |txs|
  {
    if txs != [] {
      TxCharge(s, txs[0]);
      TxsConserve(ExecTx(s, txs[0]).s, txs[1..]);
    }
  }

  // ---------- Transactions are runs of steps ----------

  lemma RunThree(s: State, a: Runs.Step, b: Runs.Step, c: Runs.Step)
    ensures Runs.Run(s, [a]) == Runs.Next(s, a)
    ensures Runs.Run(s, [a, b, c]) == Runs.Next(Runs.Next(Runs.Next(s, a), b), c)
  {
    assert [a][..0] == [] && [a, b][..1] == [a] && [a, b, c][..2] == [a, b];
    assert Runs.Run(s, []) == s;
    assert Runs.Run(s, [a, b]) == Runs.Next(Runs.Run(s, [a]), b);
  }

  function ActStep(tx: Tx): Runs.Step {
    Runs.Act(tx.txID, tx.actor, tx.action, tx.ts, tx.rules)
  }

  ghost function RefundStep(tx: Tx, units: U64): Runs.Step
    requires Proper(tx) && units <= Execution.MaxUnits(tx.action)
  {
    Runs.Refund(tx.sponsor, tx.maxFee - tx.fee(units))
  }

  /** The steps of a transaction: a deduction that fails, or all three. */
  ghost function StepsOf(s: State, tx: Tx): seq<Runs.Step>
    requires Proper(tx)
  {
    var deduct := Runs.Deduct(tx.sponsor, tx.maxFee);
    match Ledger.Debit(s, tx.sponsor, tx.maxFee)
    case None => [deduct]
    case Some(charged) => [deduct, ActStep(tx), RefundStep(tx, UnitsOf(charged, tx))]
  }

  ghost function AllSteps(s: State, txs: seq<Tx>): seq<Runs.Step>
    requires Reordering.AllProper(txs)
    decreases |txs|
  {
    if txs == [] then [] else StepsOf(s, txs[0]) + AllSteps(ExecTx(s, txs[0]).s, txs[1..])
  }

  lemma TxIsRun(s: State, tx: Tx)
    requires Proper(tx)
    ensures ExecTx(s, tx).s == Runs.Run(s, StepsOf(s, tx))
    ensures ExecTx(s, tx).result.Ran? ==>
              |StepsOf(s, tx)| == 3
              && (ExecTx(s, tx).result.success <==> Runs.Outcome(Runs.Run(s, StepsOf(s, tx)[..1]), ActStep(tx)).Some?)
  {
    var deduct := Runs.Deduct(tx.sponsor, tx.maxFee);
    if Ledger.Debit(s, tx.sponsor, tx.maxFee).Some? {
      var charged := Runs.Next(s, deduct);
      var units := UnitsOf(charged, tx);
      RunThree(s, deduct, ActStep(tx), RefundStep(tx, units));
      assert [deduct, ActStep(tx), RefundStep(tx, units)][..1] == [deduct];
      ActIsKept(charged, tx);
      RefundSettles(Kept(charged, tx), tx, Acts(charged, tx).Some?, units);
    } else {
      RunThree(s, deduct, deduct, deduct);
    }
  }

  /** What is proved of runs of steps holds of sequences of transactions: they are such runs. */
  lemma {:induction false} TxsAreRun(s: State, txs: seq<Tx>)
    requires Reordering.AllProper(txs)
    ensures Reordering.RunTxs(s, txs) == Runs.Run(s, AllSteps(s, txs))
    decreases |txs|
  {
    if txs != [] {
      var next := ExecTx(s, txs[0]).s;
      TxIsRun(s, txs[0]);
      TxsAreRun(next, txs[1..]);
      Runs.RunAppend(s, StepsOf(s, txs[0]), AllSteps(next, txs[1..]));
    }
  }

  // ---------- Their refunds are covered ----------

  /** Appending steps adds up what they leave outstanding. */
  lemma {:induction false} AccountAppend(s: State, first: seq<Runs.Step>, second: seq<Runs.Step>)
    ensures Supply.Account(s, first + second).outstanding
         == Supply.Account(s, first).outstanding + Supply.Account(Runs.Run(s, first), second).outstanding
  {
    if second == [] {
      assert first + second == first;
    } else {
      var init, last := second[..|second| - 1], second[|second| - 1];
      AccountAppend(s, first, init);
      Runs.RunAppend(s, first, init);
      assert (first + second)[..|first + second| - 1] == first + init;
    }
  }

  lemma CoveredFirst(s: State, first: seq<Runs.Step>, second: seq<Runs.Step>, i: nat)
    requires i < |first| && Supply.RefundsCovered(s, first)
    ensures Supply.CoveredAt(s, first + second, i)
  {
    assert Supply.CoveredAt(s, first, i);
    assert (first + second)[..i] == first[..i];
  }

  lemma CoveredSecond(s: State, first: seq<Runs.Step>, second: seq<Runs.Step>, i: nat)
    requires |first| <= i < |first + second| && Supply.RefundsCovered(Runs.Run(s, first), second)
    requires Supply.Account(s, first).outstanding >= 0
    ensures Supply.CoveredAt(s, first + second, i)
  {
    var j := i - |first|;
    assert Supply.CoveredAt(Runs.Run(s, first), second, j);
    assert (first + second)[..i] == first + second[..j];
    AccountAppend(s, first, second[..j]);
  }

  lemma CoveredEither(s: State, first: seq<Runs.Step>, second: seq<Runs.Step>, i: nat)
    requires Supply.RefundsCovered(s, first) && Supply.RefundsCovered(Runs.Run(s, first), second)
    requires Supply.Account(s, first).outstanding >= 0 && i < |first + second|
    ensures Supply.CoveredAt(s, first + second, i)
  {
    if i < |first| { CoveredFirst(s, first, second, i); } else { CoveredSecond(s, first, second, i); }
  }

  lemma CoveredAppend(s: State, first: seq<Runs.Step>, second: seq<Runs.Step>)
    requires Supply.RefundsCovered(s, first) && Supply.RefundsCovered(Runs.Run(s, first), second)
    requires Supply.Account(s, first).outstanding >= 0
    ensures Supply.RefundsCovered(s, first + second)
  {
    forall i | 0 <= i < |first + second| ensures Supply.CoveredAt(s, first + second, i) {
      CoveredEither(s, first, second, i);
    }
  }

  /** A transaction gives back no more than it took. */
  lemma TxCovered(s: State, tx: Tx)
    requires Proper(tx)
    ensures Supply.RefundsCovered(s, StepsOf(s, tx)) && Supply.Account(s, StepsOf(s, tx)).outstanding >= 0
  {
    var steps := StepsOf(s, tx);
    assert steps[..1] == [steps[0]] && [steps[0]][..0] == [];
    assert Supply.Account(s, []).outstanding == 0 && Runs.Run(s, []) == s;
    if |steps| == 3 {
      assert steps[..2] == [steps[0], steps[1]] && [steps[0], steps[1]][..1] == [steps[0]];
      assert Supply.Account(s, steps[..1]).outstanding == tx.maxFee;
      assert Supply.Account(s, steps[..2]).outstanding == tx.maxFee;
      assert steps[..|steps| - 1] == steps[..2];
    }
  }

  /** So what is proved of runs with covered refunds holds of every sequence of transactions. */
  lemma {:induction false} TxsCovered(s: State, txs: seq<Tx>)
    requires Reordering.AllProper(txs)
    ensures Supply.RefundsCovered(s, AllSteps(s, txs))
    decreases |txs|
  {
    if txs != [] {
      TxCovered(s, txs[0]);
      TxIsRun(s, txs[0]);
      TxsCovered(ExecTx(s, txs[0]).s, txs[1..]);
      CoveredAppend(s, StepsOf(s, txs[0]), AllSteps(ExecTx(s, txs[0]).s, txs[1..]));
    }
  }

  lemma RefundSettles(s: State, tx: Tx, success: bool, units: U64)
    requires Proper(tx) && units <= Execution.MaxUnits(tx.action)
    ensures Runs.Next(s, RefundStep(tx, units)) == Settle(s, tx, success, units).s
  {
  }

  lemma ActIsKept(s: State, tx: Tx)
    ensures Runs.Next(s, ActStep(tx)) == Kept(s, tx)
  {
  }
}
