/** Votes are counted once per account, not once per key: one signed vote can be cast again from another account. */
module OneKey {
  import opened Encoding
  import opened Records
  import opened Actions
  import opened Runs
  import opened History
  import opened Voting
  import Windows

  /** After a vote was counted, the same vote counts again exactly for another account that has not voted, in time. */
  lemma CountsAgain(s: State, v: Action, rules: Rules, ts: I64, first: Address, ts': I64, second: Address)
    requires v.ValidatorVote? && Counts(s, v, rules, ts, first)
    ensures var s1 := VoteCommit(s, v, rules, ts, first).value;
      Counts(s1, v, rules, ts', second)
      <==> second != first && (v.tx, second) !in s.votes && ts' <= s.timeOuts[v.tx]
  {
    var w := OnlyWeight(v, rules);
    var s1 := Windows.Cast(s, v.tx, first, v.vote, w, w);
    assert s1.timeOuts == s.timeOuts && s1.votes == s.votes + {(v.tx, first)};
    assert Matched(v, rules) != {};
  }

  /** One step more at the end of a run. */
  lemma BallotsNext(s: State, steps: seq<Step>, step: Step)
    ensures Run(s, steps + [step]) == Next(Run(s, steps), step)
    ensures BallotOf(Run(s, steps), step).Some? ==>
              Ballots(s, steps + [step]) == Ballots(s, steps) + [BallotOf(Run(s, steps), step).value]
  {
    var all := steps + [step];
    assert all[..|all| - 1] == steps && all[|all| - 1] == step;
  }

  lemma CountedBallot(s: State, v: Action, rules: Rules, ts: I64, id: ID, actor: Address)
    requires v.ValidatorVote? && Counts(s, v, rules, ts, actor)
    ensures var w := OnlyWeight(v, rules);
      && BallotOf(s, Act(id, actor, v, ts, rules)) == Some(Ballot(v.tx, actor, v.vote, w))
      && VoteCommit(s, v, rules, ts, actor) == Some(Next(s, Act(id, actor, v, ts, rules)))
  {
    assert Matched(v, rules) != {};
  }

  /** Both of two steps are this vote, cast in time from two accounts that have not voted. */
  ghost predicate CastTwice(s: State, v: Action, rules: Rules, a: Step, b: Step) {
    && a.Act? && b.Act? && v.ValidatorVote?
    && a.action == b.action == v && a.rules == b.rules == rules
    && Counts(s, v, rules, a.ts, a.actor)
    && b.actor != a.actor && (v.tx, b.actor) !in s.votes && b.ts <= s.timeOuts[v.tx]
  }

  lemma TwoBallots(s: State, steps: seq<Step>, v: Action, rules: Rules, a: Step, b: Step)
    requires CastTwice(Run(s, steps), v, rules, a, b)
    ensures var w := OnlyWeight(v, rules);
      Ballots(s, steps + [a] + [b])
      == Ballots(s, steps) + [Ballot(v.tx, a.actor, v.vote, w)] + [Ballot(v.tx, b.actor, v.vote, w)]
  {
    var now := Run(s, steps);
    CountsAgain(now, v, rules, a.ts, a.actor, b.ts, b.actor);
    CountedBallot(now, v, rules, a.ts, a.txID, a.actor);
    BallotsNext(s, steps, a);
    CountedBallot(Next(now, a), v, rules, b.ts, b.txID, b.actor);
    BallotsNext(s, steps + [a], b);
  }

  /** Adding w twice to a tally t, one of the sums is reached from a positive one without wrapping. */
  predicate RaisedTwice(t: U64, w: U64) {
    var u := (t + w) % TWO64;
    (0 < t && t + w < TWO64) || (0 < u && u + w < TWO64)
  }

  /** When two equal yes votes at the end of a history verify a transaction. */
  lemma TwoRaise(h: seq<Ballot>, tx: ID, first: Address, second: Address, w: U64)
    ensures Verified(h + [Ballot(tx, first, true, w)] + [Ballot(tx, second, true, w)], tx)
       <==> Verified(h, tx) || RaisedTwice(Tally(h, tx), w)
  {
    var b, b' := Ballot(tx, first, true, w), Ballot(tx, second, true, w);
    var h1 := h + [b];
    Extend(h, b, tx);
    Extend(h1, b', tx);
    TallyStep(h, b);
    assert h1[..|h|] == h && (h1 + [b'])[..|h1|] == h1;
  }

  lemma RecordsSay(now: State, h: seq<Ballot>, tx: ID)
    requires ReflectsTx(now, h, tx)
    ensures tx in now.statuses <==> Verified(h, tx)
    ensures tx !in now.weights ==> Tally(h, tx) == 0 && tx !in now.statuses
  {
    NoYesNoSum(h, tx);
    if Verified(h, tx) { VerifiedNeedsTwo(h, tx); }
  }

  /** What a reachable state records about one transaction. */
  lemma RecordsOf(s: State, steps: seq<Step>, tx: ID)
    requires s.weights == map[] && s.statuses == {} && s.votes == {}
    ensures tx in Run(s, steps).statuses <==> Verified(Ballots(s, steps), tx)
    ensures tx !in Run(s, steps).weights ==> Tally(Ballots(s, steps), tx) == 0 && tx !in Run(s, steps).statuses
  {
    RecordsAreHistory(s, steps);
    RecordsSay(Run(s, steps), Ballots(s, steps), tx);
  }

  lemma FromZero(w: U64)
    ensures RaisedTwice(0, w) <==> 0 < w && w + w < TWO64
  {
  }

  lemma StatusAfter(s: State, steps: seq<Step>, all: seq<Step>, tx: ID, first: Address, second: Address, w: U64)
    requires s.weights == map[] && s.statuses == {} && s.votes == {}
    requires Ballots(s, all) == Ballots(s, steps) + [Ballot(tx, first, true, w)] + [Ballot(tx, second, true, w)]
    ensures tx in Run(s, all).statuses <==> tx in Run(s, steps).statuses || RaisedTwice(Tally(Ballots(s, steps), tx), w)
    ensures tx !in Run(s, steps).weights ==> (tx in Run(s, all).statuses <==> 0 < w && w + w < TWO64)
  {
    RecordsOf(s, steps, tx);
    RecordsOf(s, all, tx);
    TwoRaise(Ballots(s, steps), tx, first, second, w);
    FromZero(w);
  }

  /** One key is enough: when exactly the status is set after one validator's yes vote was cast from two accounts. */
  lemma OneKeyVerifies(s: State, steps: seq<Step>, v: Action, rules: Rules, a: Step, b: Step)
    requires s.weights == map[] && s.statuses == {} && s.votes == {}
    requires CastTwice(Run(s, steps), v, rules, a, b) && v.vote
    ensures var w, now, after := OnlyWeight(v, rules), Run(s, steps), Run(s, steps + [a] + [b]);
      && (v.tx in after.statuses <==> v.tx in now.statuses || RaisedTwice(Tally(Ballots(s, steps), v.tx), w))
      && (v.tx !in now.weights ==> (v.tx in after.statuses <==> 0 < w && w + w < TWO64))
  {
    TwoBallots(s, steps, v, rules, a, b);
    StatusAfter(s, steps, steps + [a] + [b], v.tx, a.actor, b.actor, OnlyWeight(v, rules));
  }
}
