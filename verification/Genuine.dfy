/** Which votes are counted, and what counting one does, in terms of the chain's rules alone. */
module Genuine {
  import opened Encoding
  import opened Records
  import opened Actions
  import opened Runs
  import opened Voting
  import opened History
  import VoteOrder
  import Windows

  /** The signature is valid for the transaction's ID followed by 1 for yes or 0 for no. */
  predicate Signed(v: Action, rules: Rules)
    requires v.ValidatorVote?
  {
    var m := rules.unsignedMessage(v.tx + [if v.vote then 1 else 0]);
    m.Some? && rules.verifies(v.publicKey, v.signature, m.value)
  }

  /** The vote is in time, and its key and its signature parse and its key is listed. */
  predicate Admitted(s: State, v: Action, rules: Rules, ts: I64)
    requires v.ValidatorVote?
  {
    && v.tx in s.timeOuts && ts <= s.timeOuts[v.tx]
    && rules.keyParses(v.publicKey) && rules.signatureParses(v.signature) && v.publicKey in rules.listedKeys
  }

  predicate MatchesKey(n: NodeID, v: Action, rules: Rules)
    requires v.ValidatorVote?
  {
    n in rules.validators && rules.sameKey(rules.validators[n], v.publicKey)
  }

  /** n is the only entry under the vote's key. */
  ghost predicate OnlyMatch(n: NodeID, v: Action, rules: Rules)
    requires v.ValidatorVote?
  {
    MatchesKey(n, v, rules) && forall m: NodeID | MatchesKey(m, v, rules) :: m == n
  }

  /** The vote must be counted, with weight w. */
  ghost predicate IsGenuine(s: State, v: Action, rules: Rules, ts: I64, actor: Address, w: U64)
    requires v.ValidatorVote?
  {
    && Admitted(s, v, rules, ts) && Signed(v, rules) && (v.tx, actor) !in s.votes
    && exists n: NodeID :: OnlyMatch(n, v, rules) && rules.validators[n].weight == w
  }

  /** What counting a vote of weight w leaves. */
  function After(s: State, v: Action, actor: Address, w: U64): State
    requires v.ValidatorVote?
  {
    var tally := (if v.tx in s.weights then s.weights[v.tx] else 0) + w;
    s.(votes := s.votes + {(v.tx, actor)},
       weights := if v.vote then s.weights[v.tx := tally % 0x1_0000_0000_0000_0000] else s.weights,
       statuses := if v.vote && v.tx in s.weights && tally % 0x1_0000_0000_0000_0000 > w then s.statuses + {v.tx}
                   else s.statuses)
  }

  lemma ChecksAgree(s: State, v: Action, rules: Rules, ts: I64)
    requires v.ValidatorVote?
    ensures Prelude(s, v, rules, ts) == None <==> Admitted(s, v, rules, ts)
    ensures SignatureHolds(v, rules) <==> Signed(v, rules)
  {
    assert Message(v.tx, v.vote) == v.tx + [if v.vote then 1 else 0];
  }

  lemma OnlyMatchIsMatched(v: Action, rules: Rules)
    requires v.ValidatorVote?
    ensures forall n: NodeID :: n in Matched(v, rules) <==> MatchesKey(n, v, rules)
    ensures |Matched(v, rules)| == 1 <==> exists n: NodeID :: OnlyMatch(n, v, rules)
    ensures forall n: NodeID | OnlyMatch(n, v, rules) :: Matched(v, rules) == {n}
  {
    var matched := Matched(v, rules);
    if |matched| == 1 {
      var n :| n in matched;
      assert |matched - {n}| == 0;
      forall m: NodeID | MatchesKey(m, v, rules) ensures m == n {
        assert m in matched && matched - {n} == {};
      }
      assert OnlyMatch(n, v, rules);
    }
    forall n: NodeID | OnlyMatch(n, v, rules) ensures matched == {n} {
      forall m: NodeID ensures m in matched <==> m == n {
        assert m in matched <==> MatchesKey(m, v, rules);
      }
      assert forall m | m in matched :: m in {n};
    }
  }

  lemma CastIsAfter(s: State, v: Action, actor: Address, w: U64)
    requires v.ValidatorVote?
    ensures Windows.Cast(s, v.tx, actor, v.vote, w, w) == After(s, v, actor, w)
    ensures (v.tx, actor) !in s.votes ==> After(s, v, actor, w) != s
  {
    assert After(s, v, actor, w).votes == s.votes + {(v.tx, actor)};
  }

  lemma CountsIsGenuine(s: State, v: Action, rules: Rules, ts: I64, actor: Address)
    requires v.ValidatorVote?
    ensures Counts(s, v, rules, ts, actor) <==> exists w: U64 :: IsGenuine(s, v, rules, ts, actor, w)
    ensures Counts(s, v, rules, ts, actor) ==>
              forall w: U64 :: IsGenuine(s, v, rules, ts, actor, w) <==> w == OnlyWeight(v, rules)
  {
    ChecksAgree(s, v, rules, ts);
    OnlyMatchIsMatched(v, rules);
    if Counts(s, v, rules, ts, actor) {
      var n: NodeID :| OnlyMatch(n, v, rules);
      assert OnlyWeight(v, rules) == rules.validators[n].weight;
      assert IsGenuine(s, v, rules, ts, actor, rules.validators[n].weight);
    }
  }

  /** A vote changes the state exactly when it is genuine, and then as After says. */
  lemma CommitsExactly(s: State, v: Action, rules: Rules, ts: I64, actor: Address, s': State)
    requires v.ValidatorVote?
    ensures VoteCommit(s, v, rules, ts, actor) == Some(s') && s' != s
       <==> exists w: U64 :: IsGenuine(s, v, rules, ts, actor, w) && s' == After(s, v, actor, w)
  {
    CountsIsGenuine(s, v, rules, ts, actor);
    if Counts(s, v, rules, ts, actor) {
      var w := OnlyWeight(v, rules);
      CastIsAfter(s, v, actor, w);
      assert Matched(v, rules) != {};
      assert IsGenuine(s, v, rules, ts, actor, w);
    }
  }

  /** A vote succeeds without a change exactly when it is admitted and no entry is under its key. */
  lemma IdleExactly(s: State, v: Action, rules: Rules, ts: I64, actor: Address)
    requires v.ValidatorVote?
    ensures VoteCommit(s, v, rules, ts, actor) == Some(s)
       <==> Admitted(s, v, rules, ts) && forall n: NodeID :: !MatchesKey(n, v, rules)
  {
    IdleCommits(s, v, rules, ts, actor);
    ChecksAgree(s, v, rules, ts);
    OnlyMatchIsMatched(v, rules);
    if Matched(v, rules) != {} {
      var n :| n in Matched(v, rules);
      assert MatchesKey(n, v, rules);
    }
  }

  // ---------- Over runs ----------

  /** The step is a genuine vote, and the ballot says whose, on what, and how much it weighs. */
  ghost predicate Casts(s: State, step: Step, b: Ballot) {
    && step.Act? && step.action.ValidatorVote?
    && b.tx == step.action.tx && b.yes == step.action.vote && b.actor == step.actor
    && IsGenuine(s, step.action, step.rules, step.ts, step.actor, b.weight)
  }

  lemma BallotExactly(s: State, step: Step, b: Ballot)
    ensures BallotOf(s, step) == Some(b) <==> Casts(s, step, b)
  {
    if step.Act? && step.action.ValidatorVote? {
      CountsIsGenuine(s, step.action, step.rules, step.ts, step.actor);
      assert Counts(s, step.action, step.rules, step.ts, step.actor) ==> Matched(step.action, step.rules) != {};
    }
  }

  /** The q-th step of a run casts the ballot. */
  ghost predicate CastAt(s: State, steps: seq<Step>, q: int, b: Ballot) {
    0 <= q < |steps| && Casts(Run(s, steps[..q]), steps[q], b)
  }

  lemma CastAtPrefix(s: State, steps: seq<Step>, n: nat, q: int, b: Ballot)
    requires n <= |steps| && q < n
    ensures CastAt(s, steps[..n], q, b) <==> CastAt(s, steps, q, b)
  {
    if q >= 0 { assert steps[..n][..q] == steps[..q]; }
  }

  lemma BallotsStep(s: State, steps: seq<Step>, b: Ballot)
    requires steps != []
    ensures b in Ballots(s, steps)
       <==> b in Ballots(s, steps[..|steps| - 1]) || CastAt(s, steps, |steps| - 1, b)
  {
    var n := |steps| - 1;
    BallotExactly(Run(s, steps[..n]), steps[n], b);
  }

  ghost predicate IsCast(s: State, steps: seq<Step>, b: Ballot) {
    exists q :: CastAt(s, steps, q, b)
  }

  lemma IsCastStep(s: State, steps: seq<Step>, b: Ballot)
    requires steps != []
    ensures IsCast(s, steps, b) <==> IsCast(s, steps[..|steps| - 1], b) || CastAt(s, steps, |steps| - 1, b)
  {
    var n := |steps| - 1;
    if q :| CastAt(s, steps, q, b) {
      if q < n { CastAtPrefix(s, steps, n, q, b); }
    }
    if q :| CastAt(s, steps[..n], q, b) {
      CastAtPrefix(s, steps, n, q, b);
    }
  }

  /** The history of a run holds exactly the ballots of its genuine votes. */
  lemma {:induction false} BallotsAreGenuine(s: State, steps: seq<Step>, b: Ballot)
    ensures b in Ballots(s, steps) <==> IsCast(s, steps, b)
  {
    if steps != [] {
      BallotsAreGenuine(s, steps[..|steps| - 1], b);
      BallotsStep(s, steps, b);
      IsCastStep(s, steps, b);
    }
  }

  // ---------- Reported units ----------

  /** The first two entries under the vote's key that an order visits. */
  ghost predicate FirstTwo(order: seq<NodeID>, i: int, j: int, v: Action, rules: Rules)
    requires v.ValidatorVote?
  {
    && 0 <= i < j < |order| && MatchesKey(order[i], v, rules) && MatchesKey(order[j], v, rules)
    && forall k | 0 <= k < j && k != i :: !MatchesKey(order[k], v, rules)
  }

  lemma {:induction false} PositionsOfTwo(order: seq<NodeID>, v: Action, rules: Rules) returns (i: int, j: int)
    requires v.ValidatorVote? && forall n | n in order :: n in rules.validators
    ensures |Matches(order, v, rules)| == 0 ==> forall k | 0 <= k < |order| :: !MatchesKey(order[k], v, rules)
    ensures |Matches(order, v, rules)| == 1 ==>
              && 0 <= i < |order| && order[i] == Matches(order, v, rules)[0] && MatchesKey(order[i], v, rules)
              && forall k | 0 <= k < |order| && k != i :: !MatchesKey(order[k], v, rules)
    ensures |Matches(order, v, rules)| >= 2 ==>
              && FirstTwo(order, i, j, v, rules)
              && order[i] == Matches(order, v, rules)[0] && order[j] == Matches(order, v, rules)[1]
  {
    i, j := 0, 0;
    if order != [] {
      var n := |order| - 1;
      i, j := PositionsOfTwo(order[..n], v, rules);
      assert forall k | 0 <= k < n :: order[..n][k] == order[k];
      var before := Matches(order[..n], v, rules);
      if MatchesKey(order[n], v, rules) {
        assert Matches(order, v, rules) == before + [order[n]];
        if |before| == 0 { i := n; } else if |before| == 1 { j := n; }
      } else {
        assert Matches(order, v, rules) == before;
      }
    }
  }

  /** An order's matches and the entries under the key: none, one, or a first two. */
  lemma MatchesTell(s: State, order: seq<NodeID>, v: Action, rules: Rules, actor: Address) returns (i: int, j: int)
    requires v.ValidatorVote? && IsEnumeration(order, rules.validators.Keys)
    ensures forall n | n in Matches(order, v, rules) :: n in order
    ensures ScanOrder(s, order, v, rules, actor) == ByMatches(s, Matches(order, v, rules), v, rules, actor)
    ensures Matches(order, v, rules) == [] <==> forall n: NodeID :: !MatchesKey(n, v, rules)
    ensures |Matches(order, v, rules)| == 1 <==> exists n: NodeID :: OnlyMatch(n, v, rules)
    ensures |Matches(order, v, rules)| >= 2 ==>
              && FirstTwo(order, i, j, v, rules)
              && order[i] == Matches(order, v, rules)[0] && order[j] == Matches(order, v, rules)[1]
  {
    i, j := PositionsOfTwo(order, v, rules);
    ScanIsByMatches(s, order, v, rules, actor);
    OnlyMatchIsMatched(v, rules);
    VoteOrder.UnitsByPair(s, order, v, rules, actor);
    var matches := Matches(order, v, rules);
    if matches == [] {
      forall n: NodeID ensures !MatchesKey(n, v, rules) {
        assert n in Matched(v, rules) ==> n in matches;
      }
    } else {
      assert matches[0] in Matched(v, rules) && MatchesKey(matches[0], v, rules);
    }
  }

  /** The units of every outcome, check by check. */
  lemma UnitsExactly(s: State, order: seq<NodeID>, v: Action, rules: Rules, ts: I64, actor: Address)
    returns (i: int, j: int)
    requires v.ValidatorVote? && IsEnumeration(order, rules.validators.Keys)
    ensures VoteUnits(s, order, v, rules, ts, actor)
         == if v.tx !in s.timeOuts || ts > s.timeOuts[v.tx] then 1000
            else if !rules.keyParses(v.publicKey) then 2000
            else if !rules.signatureParses(v.signature) then 2500
            else if v.publicKey !in rules.listedKeys then 3000
            else if forall n: NodeID :: !MatchesKey(n, v, rules) then 5000
            else if !Signed(v, rules) then 4000
            else if (v.tx, actor) in s.votes || exists n: NodeID :: OnlyMatch(n, v, rules) then 5000
            else if FirstTwo(order, i, j, v, rules)
                 && rules.validators[order[i]].weight + rules.validators[order[j]].weight >= 0x1_0000_0000_0000_0000
            then 3500
            else 5000
    ensures (exists n: NodeID :: MatchesKey(n, v, rules)) && !(exists n: NodeID :: OnlyMatch(n, v, rules)) ==>
              FirstTwo(order, i, j, v, rules)
  {
    i, j := MatchesTell(s, order, v, rules, actor);
    ChecksAgree(s, v, rules, ts);
  }
}
