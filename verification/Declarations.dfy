/** Which keys a transaction writes or changes without having declared them. */
module Declarations {
  import opened Encoding
  import opened Keys
  import opened Records
  import opened Transactions
  import opened Actions
  import Codec
  import Execution
  import History
  import Voting
  import VoteOrder

  /** A vote on another transaction does not declare the status that it may write. */
  lemma StatusUndeclared(tx: Tx)
    requires tx.action.ValidatorVote? && tx.action.tx != tx.txID
    ensures KeyBytes(Key.Status(tx.action.tx)) !in Declared(tx)
  {
    var status := Key.Status(tx.action.tx);
    KeyBytesInjective(status, Key.Balance(tx.sponsor));
    KeyBytesInjective(status, Key.TimeOut(tx.action.tx));
    KeyBytesInjective(status, Key.Weight(tx.action.tx));
    KeyBytesInjective(status, Key.Status(tx.txID));
    KeyBytesInjective(status, Key.Vote(tx.action.tx, tx.actor));
  }

  /** All that a transaction touches is declared exactly when it is not a vote on another transaction. */
  lemma DeclaresAll(tx: Tx)
    ensures (forall k | k in TouchedByTx(tx) :: KeyBytes(k) in Declared(tx))
       <==> (tx.action.ValidatorVote? ==> tx.action.tx == tx.txID)
  {
    if tx.action.ValidatorVote? && tx.action.tx != tx.txID {
      StatusUndeclared(tx);
      assert Key.Status(tx.action.tx) in TouchedByTx(tx);
    } else {
      forall k | k in TouchedByTx(tx) ensures KeyBytes(k) in Declared(tx) {
        TouchedDeclared(tx, k);
      }
    }
  }

  // ---------- What is written ----------

  /** The records that the action of a transaction writes, undone or not. */
  ghost function WrittenBy(s: State, tx: Tx): set<Key>
    requires Proper(tx)
  {
    Execution.Written(s, tx.action, tx.order, tx.actor, tx.txID, tx.ts, tx.rules)
  }

  lemma WrittenTouched(s: State, tx: Tx)
    requires Proper(tx)
    ensures WrittenBy(s, tx) <= Touched(tx.action, tx.actor, tx.txID) <= TouchedByTx(tx)
  {
  }

  /** A yes vote of weight w inserts the status record, whether it is there already or not. */
  predicate InsertsStatus(s: State, v: Action, w: U64)
    requires v.ValidatorVote?
  {
    v.vote && v.tx in s.weights && (s.weights[v.tx] + w) % TWO64 > w
  }

  /** The loop records a first match, and that one inserts the status. */
  ghost predicate FirstInsertsStatus(s: State, tx: Tx)
    requires Proper(tx) && tx.action.ValidatorVote?
  {
    && Voting.Prelude(s, tx.action, tx.rules, tx.ts) == None
    && Voting.ReachesSecond(s, tx.action, tx.rules, tx.actor)
    && Voting.Matches(tx.order, tx.action, tx.rules) != []
    && var first := Voting.Matches(tx.order, tx.action, tx.rules)[0];
       first in tx.rules.validators && InsertsStatus(s, tx.action, tx.rules.validators[first].weight)
  }

  lemma StatusWritten(s: State, tx: Tx)
    requires Proper(tx) && tx.action.ValidatorVote?
    ensures Key.Status(tx.action.tx) in WrittenBy(s, tx) <==> FirstInsertsStatus(s, tx)
  {
    Voting.ScanIsByMatches(s, tx.order, tx.action, tx.rules, tx.actor);
  }

  /**
   * An action writes a key it does not declare exactly when it is a vote on another transaction whose first
   * match inserts the status, whether the vote is undone later or not.
   */
  lemma WritesUndeclared(s: State, tx: Tx)
    requires Proper(tx)
    ensures (exists k | k in WrittenBy(s, tx) :: KeyBytes(k) !in Declared(tx))
       <==> tx.action.ValidatorVote? && tx.action.tx != tx.txID && FirstInsertsStatus(s, tx)
  {
    WrittenTouched(s, tx);
    DeclaresAll(tx);
    if tx.action.ValidatorVote? && tx.action.tx != tx.txID {
      StatusUndeclared(tx);
      StatusWritten(s, tx);
      forall k | k in WrittenBy(s, tx) && KeyBytes(k) !in Declared(tx) ensures k == Key.Status(tx.action.tx) {
        TouchedDeclared(tx, k);
      }
    }
  }

  /** For a committed vote the condition does not depend on the order. */
  lemma CommittedUndeclared(s: State, tx: Tx)
    requires Proper(tx) && tx.action.ValidatorVote? && Acts(s, tx).Some?
    ensures (exists k | k in WrittenBy(s, tx) :: KeyBytes(k) !in Declared(tx))
       <==> tx.action.tx != tx.txID && Voting.Counts(s, tx.action, tx.rules, tx.ts, tx.actor)
            && InsertsStatus(s, tx.action, Voting.OnlyWeight(tx.action, tx.rules))
  {
    WritesUndeclared(s, tx);
    FirstIsOnly(s, tx);
  }

  lemma FirstIsOnly(s: State, tx: Tx)
    requires Proper(tx) && tx.action.ValidatorVote? && Acts(s, tx).Some?
    ensures FirstInsertsStatus(s, tx)
       <==> Voting.Counts(s, tx.action, tx.rules, tx.ts, tx.actor)
            && InsertsStatus(s, tx.action, Voting.OnlyWeight(tx.action, tx.rules))
  {
    var v, rules := tx.action, tx.rules;
    VoteOrder.UnitsByPair(s, tx.order, v, rules, tx.actor);
    var matches := Voting.Matches(tx.order, v, rules);
    if Voting.Counts(s, v, rules, tx.ts, tx.actor) {
      var n :| n in Voting.Matched(v, rules) && Voting.OnlyWeight(v, rules) == rules.validators[n].weight;
      assert n in matches && n == matches[0];
    }
  }

  /** It happens: a decodable yes vote of weight 1 on another transaction that already has a tally. */
  lemma UndeclaredHappens(s: State, tx: Tx, voted: ID)
    requires Proper(tx) && tx.rules == History.Unequal() && tx.action == ValidatorVote(voted, true, [1], [0])
    requires voted != tx.txID && voted in s.timeOuts && tx.ts <= s.timeOuts[voted] && (voted, tx.actor) !in s.votes
    requires voted in s.weights && 0 < s.weights[voted] < MAX_U64
    ensures !IsZero(voted) ==> Codec.Encodable(tx.action)
    ensures Acts(s, tx).Some? && exists k | k in WrittenBy(s, tx) :: KeyBytes(k) !in Declared(tx)
  {
    Codec.VoteEncodable(tx.action);
    assert Voting.Matched(tx.action, tx.rules) == {[1]};
    assert Voting.Counts(s, tx.action, tx.rules, tx.ts, tx.actor);
    assert Voting.OnlyWeight(tx.action, tx.rules) == 1;
    CommittedUndeclared(s, tx);
  }

  // ---------- What is changed ----------

  /** The vote is counted as a yes, and lifts an earlier tally over its own weight for the first time. */
  ghost predicate SetsStatus(s: State, v: Action, rules: Rules, ts: I64, actor: Address)
    requires v.ValidatorVote?
  {
    && Voting.Counts(s, v, rules, ts, actor) && v.vote
    && v.tx !in s.statuses && v.tx in s.weights
    && (s.weights[v.tx] + Voting.OnlyWeight(v, rules)) % TWO64 > Voting.OnlyWeight(v, rules)
  }

  ghost predicate Changes(s: State, tx: Tx, k: Key)
    requires IsRecord(k)
  {
    At(Kept(s, tx), k) != At(s, k)
  }

  /** The only record a vote can change undeclared is a status. */
  lemma OnlyStatus(s: State, tx: Tx, k: Key)
    requires tx.action.ValidatorVote? && IsRecord(k) && KeyBytes(k) !in Declared(tx) && Changes(s, tx, k)
    ensures k == Key.Status(tx.action.tx)
  {
    KeptLocal(s, s, tx, TouchedByTx(tx));
    assert k in TouchedByTx(tx);
    TouchedDeclared(tx, k);
  }

  lemma StatusChanged(s: State, tx: Tx)
    requires tx.action.ValidatorVote?
    ensures Changes(s, tx, Key.Status(tx.action.tx)) <==> SetsStatus(s, tx.action, tx.rules, tx.ts, tx.actor)
  {
    assert Voting.Counts(s, tx.action, tx.rules, tx.ts, tx.actor) ==> Voting.Matched(tx.action, tx.rules) != {};
  }

  /** A vote changes a record that it does not declare exactly when it sets the status of another transaction. */
  lemma ChangesUndeclared(s: State, tx: Tx)
    requires tx.action.ValidatorVote?
    ensures (exists k | IsRecord(k) && KeyBytes(k) !in Declared(tx) :: Changes(s, tx, k))
       <==> tx.action.tx != tx.txID && SetsStatus(s, tx.action, tx.rules, tx.ts, tx.actor)
  {
    var status := Key.Status(tx.action.tx);
    StatusChanged(s, tx);
    if tx.action.tx != tx.txID { StatusUndeclared(tx); }
    if k: Key :| IsRecord(k) && KeyBytes(k) !in Declared(tx) && Changes(s, tx, k) {
      OnlyStatus(s, tx, k);
    }
    if tx.action.tx != tx.txID && Changes(s, tx, status) {
      assert IsRecord(status) && KeyBytes(status) !in Declared(tx);
    }
  }
}
