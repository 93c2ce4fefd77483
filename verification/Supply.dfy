/** The total of all balances over whole runs: nothing is created after genesis. */
module Supply {
  import opened Encoding
  import opened Records
  import opened Actions
  import opened Ledger
  import opened Runs
  import Execution
  import Genesis
  import Refunds

  /** Money that is in no balance: deducted and not yet refunded, or refunded to an account that was gone. */
  datatype Float = Float(outstanding: int, burned: nat)

  /** What a step adds to the money outstanding. */
  ghost function Change(before: State, step: Step): int {
    match step
    case Deduct(payer, amount) => if Debit(before, payer, amount).Some? then amount else 0
    case Refund(_, amount) => 0 - amount
    case Act(_, _, _, _, _) => 0
  }

  /** What a step burns: a refund to an account that is gone. */
  ghost function Burned(before: State, step: Step): nat {
    if step.Refund? && step.payer !in before.balances then step.amount else 0
  }

  ghost function Account(s: State, steps: seq<Step>): Float {
    if steps == [] then Float(0, 0)
    else
      var init, last := steps[..|steps| - 1], steps[|steps| - 1];
      var float, before := Account(s, init), Run(s, init);
      Float(float.outstanding + Change(before, last), float.burned + Burned(before, last))
  }

  ghost predicate CoveredAt(s: State, steps: seq<Step>, i: nat)
    requires i < |steps|
  {
    steps[i].Refund? ==> steps[i].amount <= Account(s, steps[..i]).outstanding
  }

  /** Nobody is refunded more than is outstanding; in particular each refund may be part of one deduction. */
  ghost predicate RefundsCovered(s: State, steps: seq<Step>) {
    forall i | 0 <= i < |steps| :: CoveredAt(s, steps, i)
  }

  lemma RefundsCoveredPrefix(s: State, steps: seq<Step>, n: nat)
    requires n <= |steps| && RefundsCovered(s, steps)
    ensures RefundsCovered(s, steps[..n])
  {
    forall i | 0 <= i < n ensures CoveredAt(s, steps[..n], i) {
      assert CoveredAt(s, steps, i);
      assert steps[..n][..i] == steps[..i];
    }
  }

  /** Only transfers touch balances. */
  lemma EffectBalances(s: State, a: Action, actor: Address, txID: ID, ts: I64, rules: Rules)
    requires Execution.Effect(s, a, actor, txID, ts, rules).Some? && !a.Transfer?
    ensures Execution.Effect(s, a, actor, txID, ts, rules).value.balances == s.balances
  {
  }

  lemma ActSum(s: State, a: Action, actor: Address, txID: ID, ts: I64, rules: Rules)
    requires Sum(s.balances) <= MAX_U64 && Execution.Effect(s, a, actor, txID, ts, rules).Some?
    ensures Sum(Execution.Effect(s, a, actor, txID, ts, rules).value.balances) == Sum(s.balances)
  {
    if a.Transfer? {
      MoveConserves(s, actor, a.to, a.value);
    } else {
      EffectBalances(s, a, actor, txID, ts, rules);
    }
  }

  /** What a step takes out of balances is what it makes outstanding or burns. */
  lemma StepSum(s: State, step: Step)
    requires Sum(s.balances) <= MAX_U64
    requires step.Refund? ==> Sum(s.balances) + step.amount <= MAX_U64
    ensures Sum(Next(s, step).balances) + Change(s, step) + Burned(s, step) == Sum(s.balances)
  {
    match step
    case Deduct(payer, amount) =>
      if Debit(s, payer, amount).Some? { DebitSum(s, payer, amount); }
    case Refund(payer, amount) =>
      CreditSum(s, payer, amount, false);
    case Act(txID, actor, a, ts, rules) =>
      if Execution.Effect(s, a, actor, txID, ts, rules).Some? { ActSum(s, a, actor, txID, ts, rules); }
  }

  lemma CoveredStep(s: State, step: Step, outstanding: nat, burned: nat, issued: nat)
    requires Sum(s.balances) + outstanding + burned == issued <= MAX_U64
    requires step.Refund? ==> step.amount <= outstanding
    ensures outstanding + Change(s, step) >= 0
    ensures Sum(Next(s, step).balances) + (outstanding + Change(s, step)) + (burned + Burned(s, step)) == issued
  {
    StepSum(s, step);
  }

  /** Conservation: balances, money outstanding and money burned always add up to what genesis issued. */
  lemma {:induction false} Conserved(s: State, steps: seq<Step>)
    requires Sum(s.balances) <= MAX_U64 && RefundsCovered(s, steps)
    ensures Account(s, steps).outstanding >= 0
    ensures Sum(Run(s, steps).balances) + Account(s, steps).outstanding + Account(s, steps).burned == Sum(s.balances)
  {
    if steps != [] {
      var init, last := steps[..|steps| - 1], steps[|steps| - 1];
      RefundsCoveredPrefix(s, steps, |steps| - 1);
      Conserved(s, init);
      assert CoveredAt(s, steps, |steps| - 1);
      CoveredStep(Run(s, init), last, Account(s, init).outstanding, Account(s, init).burned, Sum(s.balances));
    }
  }

  /** In every reachable state a covered refund and every non-zero transfer that the sender can pay go through. */
  lemma NoOverflow(s: State, steps: seq<Step>)
    requires Sum(s.balances) <= MAX_U64 && RefundsCovered(s, steps)
    ensures forall payer: Address, amount: U64, create: bool | amount <= Account(s, steps).outstanding ::
              Credit(Run(s, steps), payer, amount, create).Some?
    ensures forall from: Address, to: Address, amount: U64 ::
              Move(Run(s, steps), from, to, amount).Some? <==> amount > 0 && Debit(Run(s, steps), from, amount).Some?
  {
    Conserved(s, steps);
    var now := Run(s, steps);
    forall payer: Address, amount: U64, create: bool | amount <= Account(s, steps).outstanding
      ensures Credit(now, payer, amount, create).Some?
    {
      CreditSum(now, payer, amount, create);
    }
    forall from: Address, to: Address, amount: U64
      ensures Move(now, from, to, amount).Some? <==> amount > 0 && Debit(now, from, amount).Some?
    {
      MoveConserves(now, from, to, amount);
    }
  }

  // ---------- Each refund gives back part of one deduction ----------

  ghost function Changes(s: State, steps: seq<Step>): (c: seq<int>)
    ensures |c| == |steps|
  {
    if steps == [] then []
    else Changes(s, steps[..|steps| - 1]) + [Change(Run(s, steps[..|steps| - 1]), steps[|steps| - 1])]
  }

  lemma {:induction false} ChangesAt(s: State, steps: seq<Step>, n: nat)
    requires n <= |steps|
    ensures Changes(s, steps)[..n] == Changes(s, steps[..n])
    ensures n < |steps| ==> Changes(s, steps)[n] == Change(Run(s, steps[..n]), steps[n])
    decreases |steps|
  {
    if n < |steps| {
      var init := steps[..|steps| - 1];
      ChangesAt(s, init, n);
      assert init[..n] == steps[..n];
    } else {
      assert steps[..n] == steps;
    }
  }

  lemma {:induction false} ChangesBalance(s: State, steps: seq<Step>)
    ensures Refunds.Balance(Changes(s, steps)) == Account(s, steps).outstanding
  {
    if steps != [] {
      ChangesBalance(s, steps[..|steps| - 1]);
      assert Changes(s, steps)[..|steps| - 1] == Changes(s, steps[..|steps| - 1]);
    }
  }

  /** If each refund gives back at most one successful deduction of its own, all refunds are covered. */
  lemma PairedIsCovered(s: State, steps: seq<Step>, of: map<nat, nat>)
    requires Refunds.Paired(Changes(s, steps), of)
    ensures RefundsCovered(s, steps)
  {
    forall n | 0 <= n < |steps| ensures CoveredAt(s, steps, n) {
      Refunds.PairedCovered(Changes(s, steps), of, n);
      ChangesAt(s, steps, n);
      ChangesBalance(s, steps[..n]);
    }
  }

  // ---------- From genesis ----------

  /** Whatever happens after a complete Load of an empty store, balances never exceed the genesis allocations. */
  lemma BoundedByGenesis(allocs: seq<Genesis.Allocation>, parse: Genesis.Parser, s: State, steps: seq<Step>)
    requires Genesis.LoadsExactly(allocs, |allocs|, parse)
    requires Genesis.HoldsLast(map[], s.balances, allocs, |allocs|, parse)
    requires RefundsCovered(s, steps)
    ensures Sum(Run(s, steps).balances) + Account(s, steps).outstanding
         <= Genesis.Allocated(allocs, |allocs|) <= MAX_U64
  {
    Genesis.LoadsAll(allocs, |allocs|, parse);
    Genesis.LoadedSum(s.balances, allocs, |allocs|, parse);
    Conserved(s, steps);
  }

  // ---------- No empty records ----------

  lemma {:induction false} StaysCanonical(s: State, steps: seq<Step>)
    requires Canonical(s)
    ensures Canonical(Run(s, steps))
  {
    if steps != [] {
      var init, last := steps[..|steps| - 1], steps[|steps| - 1];
      StaysCanonical(s, init);
      var before := Run(s, init);
      if Outcome(before, last).Some? && last.Act? {
        if last.action.Transfer? {
          MoveCanonical(before, last.actor, last.action.to, last.action.value);
        } else {
          EffectBalances(before, last.action, last.actor, last.txID, last.ts, last.rules);
        }
      }
    }
  }

  /** Two reachable states whose balances read alike have identical balance records, whatever runs led to them. */
  lemma ReadsDetermineRecords(s: State, steps: seq<Step>, s': State, steps': seq<Step>)
    requires Canonical(s) && Canonical(s')
    requires forall a: Address :: BalanceOf(Run(s, steps), a) == BalanceOf(Run(s', steps'), a)
    ensures Run(s, steps).balances == Run(s', steps').balances
  {
    StaysCanonical(s, steps);
    StaysCanonical(s', steps');
    CanonicalDetermined(Run(s, steps), Run(s', steps'));
  }
}
