/** Tallies, statuses and voted records over whole runs: each is a function of the votes that were committed. */
module History {
  import opened Encoding
  import opened Records
  import opened Actions
  import opened Runs
  import Codec
  import Execution
  import Voting
  import Windows

  datatype Ballot = Ballot(tx: ID, actor: Address, yes: bool, weight: U64)

  /** The vote a step commits, if it commits one that matched a validator. */
  ghost function BallotOf(s: State, step: Step): Option<Ballot> {
    if step.Act? && step.action.ValidatorVote? && Outcome(s, step).Some?
      && Voting.Matched(step.action, step.rules) != {}
    then Some(Ballot(step.action.tx, step.actor, step.action.vote, Voting.OnlyWeight(step.action, step.rules)))
    else None
  }

  /** All committed votes of a run, in order. */
  ghost function Ballots(s: State, steps: seq<Step>): seq<Ballot> {
    if steps == [] then []
    else
      var init, last := steps[..|steps| - 1], steps[|steps| - 1];
      match BallotOf(Run(s, init), last)
      case None => Ballots(s, init)
      case Some(ballot) => Ballots(s, init) + [ballot]
  }

  predicate IsYes(b: Ballot, tx: ID) {
    b.tx == tx && b.yes
  }

  function YesCount(h: seq<Ballot>, tx: ID): nat {
    if h == [] then 0
    else YesCount(h[..|h| - 1], tx) + if IsYes(h[|h| - 1], tx) then 1 else 0
  }

  function YesSum(h: seq<Ballot>, tx: ID): nat {
    if h == [] then 0
    else YesSum(h[..|h| - 1], tx) + if IsYes(h[|h| - 1], tx) then h[|h| - 1].weight else 0
  }

  /** The 64-bit tally after a history. */
  function Tally(h: seq<Ballot>, tx: ID): U64 {
    YesSum(h, tx) % TWO64
  }

  ghost predicate Voted(h: seq<Ballot>, tx: ID, actor: Address) {
    exists i :: 0 <= i < |h| && h[i].tx == tx && h[i].actor == actor
  }

  /** The i-th vote raises a tally that is already positive, without wrapping. */
  predicate Raises(h: seq<Ballot>, i: nat, tx: ID)
    requires i < |h|
  {
    IsYes(h[i], tx) && 0 < Tally(h[..i], tx) && Tally(h[..i], tx) + h[i].weight < TWO64
  }

  ghost predicate Verified(h: seq<Ballot>, tx: ID) {
    exists i | 0 <= i < |h| :: Raises(h, i, tx)
  }

  /** No actor is counted twice for the same transaction. */
  ghost predicate NoDoubleVotes(h: seq<Ballot>) {
    forall i, j | 0 <= i < j < |h| :: h[i].tx != h[j].tx || h[i].actor != h[j].actor
  }

  /** The records of one transaction say what the history says about it. */
  ghost predicate ReflectsTx(s: State, h: seq<Ballot>, tx: ID) {
    && (tx in s.weights <==> YesCount(h, tx) > 0)
    && (tx in s.weights ==> s.weights[tx] == Tally(h, tx))
    && (tx in s.statuses <==> Verified(h, tx))
  }

  ghost predicate Reflects(s: State, h: seq<Ballot>) {
    && (forall tx: ID :: ReflectsTx(s, h, tx))
    && (forall tx: ID, actor: Address :: (tx, actor) in s.votes <==> Voted(h, tx, actor))
  }

  // ---------- One more vote ----------

  lemma {:induction false} NoYesNoSum(h: seq<Ballot>, tx: ID)
    ensures YesCount(h, tx) == 0 ==> YesSum(h, tx) == 0
  {
    if h != [] { NoYesNoSum(h[..|h| - 1], tx); }
  }

  lemma Extend(h: seq<Ballot>, b: Ballot, tx: ID)
    ensures YesCount(h + [b], tx) == YesCount(h, tx) + if IsYes(b, tx) then 1 else 0
    ensures YesSum(h + [b], tx) == YesSum(h, tx) + if IsYes(b, tx) then b.weight else 0
    ensures forall i | 0 <= i < |h| :: Raises(h + [b], i, tx) == Raises(h, i, tx)
    ensures Verified(h + [b], tx) <==> Verified(h, tx) || Raises(h + [b], |h|, tx)
  {
    var h' := h + [b];
    assert h'[..|h|] == h;
    forall i | 0 <= i < |h| ensures Raises(h', i, tx) == Raises(h, i, tx) {
      assert h'[..i] == h[..i];
    }
    if Verified(h, tx) {
      var i :| 0 <= i < |h| && Raises(h, i, tx);
      assert Raises(h', i, tx);
    }
  }

  lemma ExtendVoted(h: seq<Ballot>, b: Ballot, tx: ID, actor: Address)
    ensures Voted(h + [b], tx, actor) <==> Voted(h, tx, actor) || (b.tx == tx && b.actor == actor)
  {
    var h' := h + [b];
    if Voted(h, tx, actor) {
      var i :| 0 <= i < |h| && h[i].tx == tx && h[i].actor == actor;
      assert h'[i] == h[i];
    }
    assert h'[|h|] == b;
  }

  /** Adding w to a stored tally modulo 2^64, and comparing with w, is what Raises says. */
  lemma TallyStep(h: seq<Ballot>, b: Ballot)
    requires b.yes
    ensures Tally(h + [b], b.tx) == (Tally(h, b.tx) + b.weight) % TWO64
    ensures Tally(h + [b], b.tx) > b.weight <==> Raises(h + [b], |h|, b.tx)
  {
    Extend(h, b, b.tx);
    assert (h + [b])[..|h|] == h;
    AddModulo(YesSum(h, b.tx), b.weight);
  }

  lemma AddModulo(n: nat, w: U64)
    ensures (n + w) % TWO64 == (n % TWO64 + w) % TWO64
         == if n % TWO64 + w < TWO64 then n % TWO64 + w else n % TWO64 + w - TWO64
  {
  }

  lemma OtherTx(s: State, h: seq<Ballot>, b: Ballot, tx: ID)
    requires ReflectsTx(s, h, tx) && !IsYes(b, tx)
    ensures ReflectsTx(Windows.Cast(s, b.tx, b.actor, b.yes, b.weight, b.weight), h + [b], tx)
  {
    Extend(h, b, tx);
  }

  lemma YesTx(s: State, h: seq<Ballot>, b: Ballot)
    requires ReflectsTx(s, h, b.tx) && b.yes
    ensures ReflectsTx(Windows.Cast(s, b.tx, b.actor, b.yes, b.weight, b.weight), h + [b], b.tx)
  {
    Extend(h, b, b.tx);
    TallyStep(h, b);
    NoYesNoSum(h, b.tx);
    assert (h + [b])[..|h|] == h;
    if b.tx !in s.weights {
      assert Tally(h, b.tx) == 0 && !Raises(h + [b], |h|, b.tx);
    }
  }

  lemma CastReflects(s: State, h: seq<Ballot>, b: Ballot)
    requires Reflects(s, h)
    ensures Reflects(Windows.Cast(s, b.tx, b.actor, b.yes, b.weight, b.weight), h + [b])
  {
    var s' := Windows.Cast(s, b.tx, b.actor, b.yes, b.weight, b.weight);
    var h' := h + [b];
    forall tx: ID ensures ReflectsTx(s', h', tx) {
      assert ReflectsTx(s, h, tx);
      if IsYes(b, tx) { YesTx(s, h, b); } else { OtherTx(s, h, b, tx); }
    }
    forall tx: ID, actor: Address ensures (tx, actor) in s'.votes <==> Voted(h', tx, actor) {
      ExtendVoted(h, b, tx, actor);
    }
  }

  // ---------- Whole runs ----------

  lemma OtherEffect(s: State, a: Action, actor: Address, txID: ID, ts: I64, rules: Rules)
    requires !a.ValidatorVote? && Execution.Effect(s, a, actor, txID, ts, rules).Some?
    ensures var s' := Execution.Effect(s, a, actor, txID, ts, rules).value;
      s'.weights == s.weights && s'.statuses == s.statuses && s'.votes == s.votes
  {
  }

  /** Steps that commit no vote leave the vote records alone. */
  lemma NoBallot(s: State, step: Step)
    requires BallotOf(s, step) == None
    ensures Next(s, step).weights == s.weights && Next(s, step).statuses == s.statuses && Next(s, step).votes == s.votes
  {
    if step.Act? && Outcome(s, step).Some? {
      if step.action.ValidatorVote? {
        assert Outcome(s, step) == Voting.VoteCommit(s, step.action, step.rules, step.ts, step.actor) == Some(s);
      } else {
        OtherEffect(s, step.action, step.actor, step.txID, step.ts, step.rules);
      }
    }
  }

  lemma OneBallot(s: State, step: Step)
    requires BallotOf(s, step).Some?
    ensures var b := BallotOf(s, step).value;
      (b.tx, b.actor) !in s.votes && Next(s, step) == Windows.Cast(s, b.tx, b.actor, b.yes, b.weight, b.weight)
  {
  }

  /** In every reachable state the records are those of the committed votes, and nobody was counted twice. */
  lemma {:induction false} RecordsAreHistory(s: State, steps: seq<Step>)
    requires s.weights == map[] && s.statuses == {} && s.votes == {}
    ensures Reflects(Run(s, steps), Ballots(s, steps))
    ensures NoDoubleVotes(Ballots(s, steps))
  {
    if steps != [] {
      var init, last := steps[..|steps| - 1], steps[|steps| - 1];
      RecordsAreHistory(s, init);
      var before, h := Run(s, init), Ballots(s, init);
      if BallotOf(before, last).Some? {
        var b := BallotOf(before, last).value;
        OneBallot(before, last);
        CastReflects(before, h, b);
        assert !Voted(h, b.tx, b.actor);
      } else {
        NoBallot(before, last);
        forall tx: ID ensures ReflectsTx(Run(s, steps), h, tx) {
          assert ReflectsTx(before, h, tx);
        }
      }
    }
  }

  predicate MatchesNothing(step: Step) {
    step.Act? && step.action.ValidatorVote? ==> Voting.Matched(step.action, step.rules) == {}
  }

  /** If no vote of a run matches a validator, votes leave no trace, whether they succeed or not. */
  lemma {:induction false} NothingMatches(s: State, steps: seq<Step>)
    requires forall i | 0 <= i < |steps| :: MatchesNothing(steps[i])
    ensures Ballots(s, steps) == []
    ensures var s' := Run(s, steps); s'.weights == s.weights && s'.statuses == s.statuses && s'.votes == s.votes
  {
    if steps != [] {
      var init, last := steps[..|steps| - 1], steps[|steps| - 1];
      NothingMatches(s, init);
      assert MatchesNothing(last);
      NoBallot(Run(s, init), last);
    }
  }

  // ---------- What a status means ----------

  lemma {:induction false} SomeYes(h: seq<Ballot>, tx: ID) returns (i: nat)
    requires YesCount(h, tx) > 0
    ensures i < |h| && IsYes(h[i], tx)
  {
    if IsYes(h[|h| - 1], tx) {
      i := |h| - 1;
    } else {
      i := SomeYes(h[..|h| - 1], tx);
    }
  }

  /** A verified transaction has committed yes votes from two different actors. */
  lemma VerifiedByTwo(s: State, steps: seq<Step>, tx: ID) returns (i: nat, j: nat)
    requires s.weights == map[] && s.statuses == {} && s.votes == {}
    requires tx in Run(s, steps).statuses
    ensures var h := Ballots(s, steps);
      i < j < |h| && IsYes(h[i], tx) && IsYes(h[j], tx) && h[i].actor != h[j].actor
  {
    RecordsAreHistory(s, steps);
    var h := Ballots(s, steps);
    assert ReflectsTx(Run(s, steps), h, tx);
    i, j := RaisedByTwo(h, tx);
  }

  lemma RaisedByTwo(h: seq<Ballot>, tx: ID) returns (i: nat, j: nat)
    requires Verified(h, tx) && NoDoubleVotes(h)
    ensures i < j < |h| && IsYes(h[i], tx) && IsYes(h[j], tx) && h[i].actor != h[j].actor
  {
    j :| 0 <= j < |h| && Raises(h, j, tx);
    NoYesNoSum(h[..j], tx);
    i := SomeYes(h[..j], tx);
    assert h[..j][i] == h[i];
  }

  /** The prefix sums of a history only grow. */
  lemma {:induction false} PrefixSums(h: seq<Ballot>, i: nat, tx: ID)
    requires i <= |h|
    ensures YesSum(h[..i], tx) <= YesSum(h, tx) && YesCount(h[..i], tx) <= YesCount(h, tx)
    ensures i < |h| && IsYes(h[i], tx) ==> YesSum(h[..i], tx) + h[i].weight <= YesSum(h, tx)
    decreases |h|
  {
    if i < |h| {
      PrefixSums(h[..|h| - 1], i, tx);
      assert h[..|h| - 1][..i] == h[..i];
    } else {
      assert h[..i] == h;
    }
  }

  predicate Weighs(b: Ballot, tx: ID) {
    IsYes(b, tx) ==> b.weight > 0
  }

  /** Every yes vote for tx has a positive weight. */
  ghost predicate AllWeigh(h: seq<Ballot>, tx: ID) {
    forall i {:trigger Weighs(h[i], tx)} | 0 <= i < |h| :: Weighs(h[i], tx)
  }

  lemma {:induction false} PositiveSum(h: seq<Ballot>, n: nat, tx: ID)
    requires n <= |h| && AllWeigh(h, tx)
    ensures YesCount(h[..n], tx) > 0 ==> YesSum(h[..n], tx) > 0
  {
    if n > 0 {
      PositiveSum(h, n - 1, tx);
      assert h[..n][..n - 1] == h[..n - 1];
      assert Weighs(h[n - 1], tx);
    }
  }

  lemma {:induction false} SecondYes(h: seq<Ballot>, tx: ID) returns (i: nat)
    requires YesCount(h, tx) >= 2
    ensures i < |h| && IsYes(h[i], tx) && YesCount(h[..i], tx) > 0
  {
    var init := h[..|h| - 1];
    if IsYes(h[|h| - 1], tx) {
      i := |h| - 1;
    } else {
      i := SecondYes(init, tx);
      assert init[..i] == h[..i];
    }
  }

  lemma VerifiedNeedsTwo(h: seq<Ballot>, tx: ID)
    requires Verified(h, tx)
    ensures YesCount(h, tx) >= 2
  {
    var j :| 0 <= j < |h| && Raises(h, j, tx);
    NoYesNoSum(h[..j], tx);
    assert YesCount(h[..j], tx) >= 1;
    CountNext(h, j, tx);
    PrefixSums(h, j + 1, tx);
  }

  lemma CountNext(h: seq<Ballot>, j: nat, tx: ID)
    requires j < |h| && IsYes(h[j], tx)
    ensures YesCount(h[..j + 1], tx) == YesCount(h[..j], tx) + 1
  {
    assert h[..j + 1][..j] == h[..j];
  }

  lemma TwoVerify(h: seq<Ballot>, tx: ID)
    requires YesCount(h, tx) >= 2 && YesSum(h, tx) < TWO64 && AllWeigh(h, tx)
    ensures Verified(h, tx)
  {
    var i := SecondYes(h, tx);
    PositiveSum(h, i, tx);
    PrefixSums(h, i, tx);
    assert Raises(h, i, tx);
  }

  /**
   * With positive weights that do not overflow together, two yes votes are necessary and enough,
   * whatever they weigh.
   */
  lemma VerifiedIffTwo(s: State, steps: seq<Step>, tx: ID)
    requires s.weights == map[] && s.statuses == {} && s.votes == {}
    requires AllWeigh(Ballots(s, steps), tx) && YesSum(Ballots(s, steps), tx) < TWO64
    ensures tx in Run(s, steps).statuses <==> YesCount(Ballots(s, steps), tx) >= 2
  {
    RecordsAreHistory(s, steps);
    var h := Ballots(s, steps);
    assert ReflectsTx(Run(s, steps), h, tx);
    if Verified(h, tx) { VerifiedNeedsTwo(h, tx); }
    if YesCount(h, tx) >= 2 { TwoVerify(h, tx); }
  }

  /** A status is never cleared. */
  lemma {:induction false} StatusStays(s: State, steps: seq<Step>, i: nat)
    requires i <= |steps|
    ensures Run(s, steps[..i]).statuses <= Run(s, steps).statuses
    decreases |steps|
  {
    if i < |steps| {
      var init, last := steps[..|steps| - 1], steps[|steps| - 1];
      StatusStays(s, init, i);
      assert init[..i] == steps[..i];
      if BallotOf(Run(s, init), last).Some? {
        OneBallot(Run(s, init), last);
      } else {
        NoBallot(Run(s, init), last);
      }
    } else {
      assert steps[..i] == steps;
    }
  }

  // ---------- The threshold ----------

  /** Three validators; the third outweighs the other two by far. A key matches the entry whose handle is its length. */
  function Unequal(): Rules {
    Rules(_ => true, _ => true, {[0], [0, 0]},
          map[[1] := Validator(1, 1), [2] := Validator(2, 1), [3] := Validator(3, TWO63)],
          (vdr: Validator, key: Bytes) => vdr.handle == |key|,
          message => Some(message), (key, signature, message) => true)
  }

  function YesVote(id: ID, tx: ID, actor: Address, key: Bytes, ts: I64): Step {
    Act(id, actor, ValidatorVote(tx, true, [1], key), ts, Unequal())
  }

  lemma UnequalVote(s: State, id: ID, tx: ID, actor: Address, key: Bytes, deadline: I64)
    requires key == [0] || key == [0, 0]
    requires tx in s.timeOuts && s.timeOuts[tx] == deadline && (tx, actor) !in s.votes
    ensures Next(s, YesVote(id, tx, actor, key, deadline)) == Windows.Cast(s, tx, actor, true, 1, 1)
  {
    var v := ValidatorVote(tx, true, [1], key);
    assert Voting.Matched(v, Unequal()) == {if key == [0] then [1] else [2]};
    assert Voting.Counts(s, v, Unequal(), deadline, actor);
    assert Voting.VoteCommit(s, v, Unequal(), deadline, actor) == Some(Windows.Cast(s, tx, actor, true, 1, 1));
  }

  lemma RunTwo(s: State, a: Step, b: Step)
    ensures Run(s, [a]) == Next(s, a) && Run(s, [a, b]) == Next(Next(s, a), b)
  {
    assert [a][..0] == [] && [a, b][..1] == [a];
    assert Run(s, []) == s;
  }

  /**
   * The total that UpdateWeight compares with is the voter's own weight: two yes votes of weight 1 set
   * the status of a transaction although a validator of weight 2^63 has not voted.
   */
  lemma MinorityVerifies(s: State, id: ID, id': ID, tx: ID, first: Address, second: Address, deadline: I64)
    requires tx in s.timeOuts && s.timeOuts[tx] == deadline && tx !in s.weights
    requires first != second && (tx, first) !in s.votes && (tx, second) !in s.votes
    ensures var a, b := YesVote(id, tx, first, [0], deadline), YesVote(id', tx, second, [0, 0], deadline);
      && (!IsZero(tx) ==> Codec.Encodable(a.action) && Codec.Encodable(b.action))
      && Run(s, [a]).statuses == s.statuses
      && Run(s, [a, b]).statuses == s.statuses + {tx}
      && Run(s, [a, b]).weights == s.weights[tx := 2]
  {
    var a, b := YesVote(id, tx, first, [0], deadline), YesVote(id', tx, second, [0, 0], deadline);
    RunTwo(s, a, b);
    Codec.VoteEncodable(a.action);
    Codec.VoteEncodable(b.action);
    UnequalVote(s, id, tx, first, [0], deadline);
    CastTwice(s, tx, first, second);
    UnequalVote(Windows.Cast(s, tx, first, true, 1, 1), id', tx, second, [0, 0], deadline);
  }

  lemma CastTwice(s: State, tx: ID, first: Address, second: Address)
    requires tx !in s.weights && first != second && (tx, second) !in s.votes
    ensures var once := Windows.Cast(s, tx, first, true, 1, 1);
      var twice := Windows.Cast(once, tx, second, true, 1, 1);
      && once.statuses == s.statuses && once.timeOuts == s.timeOuts && (tx, second) !in once.votes
      && twice.statuses == s.statuses + {tx} && twice.weights == s.weights[tx := 2]
  {
    assert s.weights[tx := 1][tx := 2] == s.weights[tx := 2];
  }
}
