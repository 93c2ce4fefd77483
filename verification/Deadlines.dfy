/** Voting windows over whole runs: when they open, when they close, and that closed means closed. */
module Deadlines {
  import opened Encoding
  import opened Records
  import opened Actions
  import opened Runs
  import opened History
  import Execution
  import Windows
  import Voting

  /** Block timestamps never decrease. */
  ghost predicate Ordered(steps: seq<Step>) {
    forall i, j | 0 <= i < j < |steps| && steps[i].Act? && steps[j].Act? :: steps[i].ts <= steps[j].ts
  }

  predicate Opens(step: Step, tx: ID) {
    step.Act? && IsProof(step.action) && step.txID == tx
  }

  /** No two proof actions share a transaction ID. */
  ghost predicate FreshProofs(steps: seq<Step>) {
    forall i, j | 0 <= i < j < |steps| && steps[i].Act? && Opens(steps[j], steps[i].txID) :: !IsProof(steps[i].action)
  }

  function DeadlineOf(step: Step): I64
    requires step.Act? && IsProof(step.action)
  {
    Windows.Deadline(step.ts, step.action.timeOutBlocks)
  }

  lemma EffectWindows(s: State, a: Action, actor: Address, txID: ID, ts: I64, rules: Rules)
    requires Execution.Effect(s, a, actor, txID, ts, rules).Some?
    ensures Execution.Effect(s, a, actor, txID, ts, rules).value.timeOuts
         == if IsProof(a) then s.timeOuts[txID := Windows.Deadline(ts, a.timeOutBlocks)] else s.timeOuts
  {
  }

  /** A step changes the window of tx only by opening it. */
  lemma WindowStep(s: State, step: Step, tx: ID)
    ensures Opens(step, tx) ==> tx in Next(s, step).timeOuts && Next(s, step).timeOuts[tx] == DeadlineOf(step)
    ensures !Opens(step, tx) ==> (tx in Next(s, step).timeOuts <==> tx in s.timeOuts)
    ensures !Opens(step, tx) && tx in s.timeOuts ==> Next(s, step).timeOuts[tx] == s.timeOuts[tx]
  {
    if step.Act? {
      if Outcome(s, step).Some? {
        EffectWindows(s, step.action, step.actor, step.txID, step.ts, step.rules);
      }
    } else {
      assert Next(s, step).timeOuts == s.timeOuts;
    }
  }

  /** No step from the i-th on opens the window of tx. */
  ghost predicate NotReopened(steps: seq<Step>, i: nat, tx: ID) {
    forall q | i <= q < |steps| :: !Opens(steps[q], tx)
  }

  /** The last proof action that opened a window fixed its deadline, however often its ID was used before. */
  lemma {:induction false} WindowOrigin(s: State, steps: seq<Step>, tx: ID) returns (p: nat)
    requires s.timeOuts == map[] && tx in Run(s, steps).timeOuts
    ensures p < |steps| && Opens(steps[p], tx) && NotReopened(steps, p + 1, tx)
    ensures Run(s, steps).timeOuts[tx] == DeadlineOf(steps[p])
    ensures var timeOut := steps[p].action.timeOutBlocks;
      Windows.ClosesAfter(Run(s, steps).timeOuts[tx], steps[p].ts,
                          if timeOut < 20 then 20 else if timeOut > 300 then 300 else timeOut)
  {
    var init, last := steps[..|steps| - 1], steps[|steps| - 1];
    WindowStep(Run(s, init), last, tx);
    if Opens(last, tx) {
      p := |steps| - 1;
      Windows.DeadlineExactly(last.ts, last.action.timeOutBlocks);
    } else {
      p := WindowOrigin(s, init, tx);
      forall q | p + 1 <= q < |steps| ensures !Opens(steps[q], tx) {
        assert q < |init| ==> !Opens(init[q], tx);
      }
    }
  }

  /** A window keeps its deadline until it is opened again. */
  lemma {:induction false} WindowStays(s: State, steps: seq<Step>, i: nat, tx: ID)
    requires i <= |steps| && NotReopened(steps, i, tx)
    requires tx in Run(s, steps[..i]).timeOuts
    ensures tx in Run(s, steps).timeOuts && Run(s, steps).timeOuts[tx] == Run(s, steps[..i]).timeOuts[tx]
    decreases |steps|
  {
    if i == |steps| {
      assert steps[..i] == steps;
    } else {
      var init, last := steps[..|steps| - 1], steps[|steps| - 1];
      assert init[..i] == steps[..i];
      NotReopenedPrefix(steps, i, tx);
      WindowStays(s, init, i, tx);
      WindowStep(Run(s, init), last, tx);
    }
  }

  lemma NotReopenedPrefix(steps: seq<Step>, i: nat, tx: ID)
    requires i < |steps| && NotReopened(steps, i, tx)
    ensures NotReopened(steps[..|steps| - 1], i, tx) && !Opens(steps[|steps| - 1], tx)
  {
    var init := steps[..|steps| - 1];
    forall q | i <= q < |init| ensures !Opens(init[q], tx) {
      assert !Opens(steps[q], tx);
    }
  }

  /** When no two proof actions share an ID, an open window is never opened again. */
  lemma FreshNotReopened(s: State, steps: seq<Step>, i: nat, tx: ID)
    requires s.timeOuts == map[] && FreshProofs(steps)
    requires i <= |steps| && tx in Run(s, steps[..i]).timeOuts
    ensures NotReopened(steps, i, tx)
  {
    var p := WindowOrigin(s, steps[..i], tx);
    assert steps[..i][p] == steps[p];
  }

  /** Every counted vote lies between the last opening of its window and a deadline 20 to 300 seconds after that. */
  lemma VoteInWindow(s: State, steps: seq<Step>, q: nat) returns (p: nat)
    requires s.timeOuts == map[] && Ordered(steps)
    requires q < |steps| && BallotOf(Run(s, steps[..q]), steps[q]).Some?
    ensures var tx := BallotOf(Run(s, steps[..q]), steps[q]).value.tx;
      p < q && Opens(steps[p], tx) && NotReopened(steps[..q], p + 1, tx)
    ensures steps[p].ts <= steps[q].ts <= DeadlineOf(steps[p])
    ensures steps[p].ts + 20000 <= DeadlineOf(steps[p]) <= steps[p].ts + 300000
  {
    var before := Run(s, steps[..q]);
    assert Voting.Prelude(before, steps[q].action, steps[q].rules, steps[q].ts) == None;
    p := WindowOrigin(s, steps[..q], steps[q].action.tx);
    assert steps[..q][p] == steps[p];
    Windows.DeadlineBounds(steps[p].ts, steps[p].action.timeOutBlocks);
  }

  ghost predicate SameVoteRecords(s: State, s': State, tx: ID) {
    && (tx in s'.weights <==> tx in s.weights)
    && (tx in s.weights && tx in s'.weights ==> s'.weights[tx] == s.weights[tx])
    && (tx in s'.statuses <==> tx in s.statuses)
    && (forall actor: Address :: (tx, actor) in s'.votes <==> (tx, actor) in s.votes)
  }

  lemma OtherVotes(s: State, step: Step, tx: ID)
    requires BallotOf(s, step).Some? ==> BallotOf(s, step).value.tx != tx
    ensures SameVoteRecords(s, Next(s, step), tx)
  {
    if BallotOf(s, step).Some? { OneBallot(s, step); } else { NoBallot(s, step); }
  }

  /**
   * Once some action of the run is later than a deadline, the tally, the status and the votes it closes
   * never change until the window is opened again.
   */
  lemma {:induction false} Frozen(s: State, steps: seq<Step>, i: nat, p: nat, tx: ID)
    requires Ordered(steps) && i <= |steps| && NotReopened(steps, i, tx)
    requires p <= i && p < |steps| && steps[p].Act?
    requires tx in Run(s, steps[..i]).timeOuts && steps[p].ts > Run(s, steps[..i]).timeOuts[tx]
    ensures SameVoteRecords(Run(s, steps[..i]), Run(s, steps), tx)
    decreases |steps|
  {
    if i == |steps| {
      assert steps[..i] == steps;
    } else {
      var init, last := steps[..|steps| - 1], steps[|steps| - 1];
      assert init[..i] == steps[..i];
      NotReopenedPrefix(steps, i, tx);
      WindowStays(s, init, i, tx);
      if p < |init| {
        Frozen(s, init, i, p, tx);
      } else {
        assert init == steps[..i];
      }
      LateVote(Run(s, init), last, tx);
      OtherVotes(Run(s, init), last, tx);
    }
  }

  /** When no two proof actions share an ID, a window that has closed is closed for good. */
  lemma FrozenForGood(s: State, steps: seq<Step>, i: nat, p: nat, tx: ID)
    requires s.timeOuts == map[] && FreshProofs(steps) && Ordered(steps)
    requires p <= i <= |steps| && p < |steps| && steps[p].Act?
    requires tx in Run(s, steps[..i]).timeOuts && steps[p].ts > Run(s, steps[..i]).timeOuts[tx]
    ensures tx in Run(s, steps).timeOuts && Run(s, steps).timeOuts[tx] == Run(s, steps[..i]).timeOuts[tx]
    ensures SameVoteRecords(Run(s, steps[..i]), Run(s, steps), tx)
  {
    FreshNotReopened(s, steps, i, tx);
    WindowStays(s, steps, i, tx);
    Frozen(s, steps, i, p, tx);
  }

  lemma LateVote(s: State, step: Step, tx: ID)
    requires tx in s.timeOuts && (step.Act? ==> step.ts > s.timeOuts[tx])
    ensures BallotOf(s, step).Some? ==> BallotOf(s, step).value.tx != tx
  {
    if step.Act? && step.action.ValidatorVote? && step.action.tx == tx {
      assert Voting.Prelude(s, step.action, step.rules, step.ts).Some?;
    }
  }
}
