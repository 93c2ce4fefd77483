/** Runs of the chain: fee deductions, actions and refunds, in any order. */
module Runs {
  import opened Encoding
  import opened Records
  import opened Actions
  import Ledger
  import Execution

  datatype Step =
    | Deduct(payer: Address, amount: U64)
    | Act(txID: ID, actor: Address, action: Action, ts: I64, rules: Rules)
    | Refund(payer: Address, amount: U64)

  /** The state that a step commits, or None if it fails and changes nothing. */
  ghost function Outcome(s: State, step: Step): Option<State> {
    match step
    case Deduct(payer, amount) => Ledger.Debit(s, payer, amount)
    case Act(txID, actor, action, ts, rules) => Execution.Effect(s, action, actor, txID, ts, rules)
    case Refund(payer, amount) => Ledger.Credit(s, payer, amount, false)
  }

  ghost function Next(s: State, step: Step): State {
    match Outcome(s, step)
    case None => s
    case Some(s') => s'
  }

  ghost function Run(s: State, steps: seq<Step>): State {
    if steps == [] then s else Next(Run(s, steps[..|steps| - 1]), steps[|steps| - 1])
  }

  lemma {:induction false} RunAppend(s: State, first: seq<Step>, second: seq<Step>)
    ensures Run(s, first + second) == Run(Run(s, first), second)
  {
    if second == [] {
      assert first + second == first;
    } else {
      var init, last := second[..|second| - 1], second[|second| - 1];
      RunAppend(s, first, init);
      assert (first + second)[..|first + second| - 1] == first + init;
    }
  }
}
