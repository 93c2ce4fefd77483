/** When nodes that visit the validators in different orders still agree on the receipt of a transaction. */
module Receipts {
  import opened Encoding
  import opened Records
  import opened Actions
  import opened Transactions
  import opened Reordering
  import opened Voting
  import opened VoteOrder
  import Codec
  import Execution
  import Ledger

  /** The order that a node happens to take. */
  ghost function ByOrder(tx: Tx, order: seq<NodeID>): (tx': Tx)
    requires Proper(tx) && IsEnumeration(order, tx.rules.validators.Keys)
    ensures Proper(tx')
  {
    tx.(order := order)
  }

  /** A paid vote in which the order decides whether a second match overflows or finds the vote recorded. */
  ghost predicate Torn(s: State, tx: Tx) {
    && Ledger.BalanceOf(s, tx.sponsor) >= tx.maxFee
    && tx.action.ValidatorVote?
    && Prelude(s, tx.action, tx.rules, tx.ts) == None
    && ReachesSecond(s, tx.action, tx.rules, tx.actor)
    && !PairsAgree(tx.action, tx.rules)
  }

  ghost predicate SameResults(s: State, tx: Tx)
    requires Proper(tx)
  {
    forall order, order' |
        IsEnumeration(order, tx.rules.validators.Keys) && IsEnumeration(order', tx.rules.validators.Keys) ::
      ExecTx(s, ByOrder(tx, order)).result == ExecTx(s, ByOrder(tx, order')).result
  }

  ghost predicate SameStates(s: State, tx: Tx)
    requires Proper(tx)
  {
    forall order, order' |
        IsEnumeration(order, tx.rules.validators.Keys) && IsEnumeration(order', tx.rules.validators.Keys) ::
      ExecTx(s, ByOrder(tx, order)).s == ExecTx(s, ByOrder(tx, order')).s
  }

  /** The receipt of a transaction whose action reports given units. */
  ghost function ReceiptFor(s: State, tx: Tx, units: U64): Receipt
    requires Proper(tx) && units <= Execution.MaxUnits(tx.action)
  {
    match Ledger.Debit(s, tx.sponsor, tx.maxFee)
    case None => Receipt(s, Unpaid)
    case Some(charged) => Settle(Kept(charged, tx), tx, Acts(charged, tx).Some?, units)
  }

  /** The order enters a receipt through the reported units only, and paying for the vote does not change those. */
  lemma OrderIsUnits(s: State, tx: Tx, order: seq<NodeID>)
    requires Proper(tx) && IsEnumeration(order, tx.rules.validators.Keys)
    ensures ExecTx(s, ByOrder(tx, order)) == ReceiptFor(s, tx, UnitsOf(s, ByOrder(tx, order)))
  {
    var tx' := ByOrder(tx, order);
    if Ledger.Debit(s, tx.sponsor, tx.maxFee).Some? {
      var charged := Ledger.Debit(s, tx.sponsor, tx.maxFee).value;
      if tx.action.ValidatorVote? {
        VoteUnitsLocal(s, charged, tx.action, order, tx.actor, tx.ts, tx.rules);
      }
      assert UnitsOf(s, tx') == UnitsOf(charged, tx');
      assert Kept(charged, tx') == Kept(charged, tx) && Acts(charged, tx') == Acts(charged, tx);
      SettleByOrder(Kept(charged, tx), tx, order, Acts(charged, tx).Some?, UnitsOf(s, tx'));
    }
  }

  lemma SettleByOrder(s: State, tx: Tx, order: seq<NodeID>, success: bool, units: U64)
    requires Proper(tx) && IsEnumeration(order, tx.rules.validators.Keys) && units <= Execution.MaxUnits(tx.action)
    ensures Settle(s, ByOrder(tx, order), success, units) == Settle(s, tx, success, units)
  {
  }

  /** Unless a paid vote is torn, or if nobody pays, the order does not show. */
  lemma NotTorn(s: State, tx: Tx, order: seq<NodeID>, order': seq<NodeID>)
    requires Proper(tx) && !Torn(s, tx)
    requires IsEnumeration(order, tx.rules.validators.Keys) && IsEnumeration(order', tx.rules.validators.Keys)
    ensures ExecTx(s, ByOrder(tx, order)) == ExecTx(s, ByOrder(tx, order'))
  {
    OrderIsUnits(s, tx, order);
    OrderIsUnits(s, tx, order');
    if Ledger.Debit(s, tx.sponsor, tx.maxFee).Some? && tx.action.ValidatorVote?
      && Prelude(s, tx.action, tx.rules, tx.ts) == None
    {
      UnitsAgree(s, tx.action, tx.rules, tx.actor);
      assert SameUnits(ScanOrder(s, order, tx.action, tx.rules, tx.actor),
                       ScanOrder(s, order', tx.action, tx.rules, tx.actor));
    }
  }

  /** A torn vote has two matches, so it fails. */
  lemma TornFails(s: State, tx: Tx)
    requires Proper(tx) && Torn(s, tx)
    ensures var charged := Ledger.Debit(s, tx.sponsor, tx.maxFee).value; Acts(charged, tx) == None
  {
    var matched := Matched(tx.action, tx.rules);
    var a, b :| {a, b} <= matched && a != b;
    assert a in {a, b} && b in {a, b};
    assert b in matched - {a} && |matched - {a}| == |matched| - 1;
  }

  /** What a torn vote leaves: the sponsor pays for 3500 or for 5000 units. */
  lemma TornReceipt(s: State, tx: Tx, units: U64)
    requires Proper(tx) && Torn(s, tx) && units in {3500, 5000}
    ensures ReceiptFor(s, tx, units).result == Ran(false, units, true)
    ensures var s' := ReceiptFor(s, tx, units).s;
      if Ledger.BalanceOf(s, tx.sponsor) == tx.maxFee then s' == s.(balances := s.balances - {tx.sponsor})
      else s' == Ledger.Set(s, tx.sponsor, Ledger.BalanceOf(s, tx.sponsor) - tx.fee(units))
  {
    TornFails(s, tx);
    var charged := Ledger.Debit(s, tx.sponsor, tx.maxFee).value;
    assert Kept(charged, tx) == charged;
    var refund := tx.maxFee - tx.fee(units);
    if Ledger.BalanceOf(s, tx.sponsor) == tx.maxFee {
      assert Ledger.Credit(charged, tx.sponsor, refund, false) == Some(charged);
    } else {
      RefundAfterCharge(s, tx.sponsor, tx.maxFee, refund);
    }
  }

  lemma RefundAfterCharge(s: State, payer: Address, charge: U64, refund: U64)
    requires Ledger.BalanceOf(s, payer) > charge >= refund
    ensures var charged := Ledger.Set(s, payer, Ledger.BalanceOf(s, payer) - charge);
      && Ledger.Debit(s, payer, charge) == Some(charged)
      && Ledger.Credit(charged, payer, refund, false)
      == Some(Ledger.Set(s, payer, Ledger.BalanceOf(s, payer) - charge + refund))
  {
    var charged := Ledger.Set(s, payer, Ledger.BalanceOf(s, payer) - charge);
    var final := Ledger.BalanceOf(s, payer) - charge + refund;
    assert Ledger.Set(charged, payer, final) == Ledger.Set(s, payer, final);
  }

  /** Both outcomes of a torn vote occur. */
  lemma TornOrders(s: State, tx: Tx) returns (order: seq<NodeID>, order': seq<NodeID>)
    requires Proper(tx) && Torn(s, tx)
    ensures IsEnumeration(order, tx.rules.validators.Keys) && IsEnumeration(order', tx.rules.validators.Keys)
    ensures UnitsOf(s, ByOrder(tx, order)) == 3500 && UnitsOf(s, ByOrder(tx, order')) == 5000
  {
    var v, rules := tx.action, tx.rules;
    var a, b, c, d :| {a, b, c, d} <= Matched(v, rules) && a != b && c != d
                   && Overflow(a, b, rules) && !Overflow(c, d, rules);
    assert a in {a, b, c, d} && b in {a, b, c, d} && c in {a, b, c, d} && d in {a, b, c, d};
    order := ScanFrom(s, a, b, v, rules, tx.actor);
    order' := ScanFrom(s, c, d, v, rules, tx.actor);
  }

  /** Whatever the order, a torn vote reports one of the two. */
  lemma TornUnits(s: State, tx: Tx, order: seq<NodeID>)
    requires Proper(tx) && Torn(s, tx) && IsEnumeration(order, tx.rules.validators.Keys)
    ensures UnitsOf(s, ByOrder(tx, order)) in {3500, 5000}
  {
    var a, b :| {a, b} <= Matched(tx.action, tx.rules) && a != b;
    assert a in {a, b} && b in {a, b};
    TwoFail(s, a, b, order, tx.action, tx.rules, tx.actor);
  }

  /** Nodes agree on a result exactly when the transaction is not a torn vote. */
  lemma ResultsAgree(s: State, tx: Tx)
    requires Proper(tx)
    ensures SameResults(s, tx) <==> !Torn(s, tx)
  {
    if Torn(s, tx) {
      var order, order' := TornOrders(s, tx);
      OrderIsUnits(s, tx, order);
      OrderIsUnits(s, tx, order');
      TornReceipt(s, tx, 3500);
      TornReceipt(s, tx, 5000);
      assert ExecTx(s, ByOrder(tx, order)).result != ExecTx(s, ByOrder(tx, order')).result;
    } else {
      forall order, order' |
          IsEnumeration(order, tx.rules.validators.Keys) && IsEnumeration(order', tx.rules.validators.Keys)
        ensures ExecTx(s, ByOrder(tx, order)).result == ExecTx(s, ByOrder(tx, order')).result
      {
        NotTorn(s, tx, order, order');
      }
    }
  }

  /**
   * Nodes agree on the state exactly when the vote is not torn, or its two outcomes cost the same, or
   * nothing is left to refund to.
   */
  lemma StatesAgree(s: State, tx: Tx)
    requires Proper(tx)
    ensures SameStates(s, tx)
       <==> (Torn(s, tx) ==> tx.fee(3500) == tx.fee(5000) || Ledger.BalanceOf(s, tx.sponsor) == tx.maxFee)
  {
    if Torn(s, tx) {
      TornReceipt(s, tx, 3500);
      TornReceipt(s, tx, 5000);
      if tx.fee(3500) != tx.fee(5000) && Ledger.BalanceOf(s, tx.sponsor) != tx.maxFee {
        var order, order' := TornOrders(s, tx);
        OrderIsUnits(s, tx, order);
        OrderIsUnits(s, tx, order');
        var t, t' := ExecTx(s, ByOrder(tx, order)).s, ExecTx(s, ByOrder(tx, order')).s;
        assert Ledger.BalanceOf(t, tx.sponsor) != Ledger.BalanceOf(t', tx.sponsor);
      }
    }
    if Torn(s, tx) ==> tx.fee(3500) == tx.fee(5000) || Ledger.BalanceOf(s, tx.sponsor) == tx.maxFee {
      forall order, order' |
          IsEnumeration(order, tx.rules.validators.Keys) && IsEnumeration(order', tx.rules.validators.Keys)
        ensures ExecTx(s, ByOrder(tx, order)).s == ExecTx(s, ByOrder(tx, order')).s
      {
        if Torn(s, tx) {
          TornUnits(s, tx, order);
          TornUnits(s, tx, order');
          OrderIsUnits(s, tx, order);
          OrderIsUnits(s, tx, order');
        } else {
          NotTorn(s, tx, order, order');
        }
      }
    }
  }

  // ---------- It happens ----------

  /** Three entries under one key: two of the pairs overflow, the third does not. */
  function ThreeEntries(): Rules {
    Rules(_ => true, _ => true, {[0]},
          map[[1] := Validator(1, MAX_U64), [2] := Validator(1, 1), [3] := Validator(1, 1)],
          (vdr: Validator, key: Bytes) => vdr.handle == |key|,
          message => Some(message), (key, signature, message) => true)
  }

  lemma ThreeTear(v: Action)
    requires v.ValidatorVote? && v.publicKey == [0]
    ensures IsEnumeration([[1], [2], [3]], ThreeEntries().validators.Keys)
    ensures !PairsAgree(v, ThreeEntries())
  {
    var a: NodeID, b: NodeID, c: NodeID := [1], [2], [3];
    assert a[0] != b[0] && a[0] != c[0] && b[0] != c[0];
    assert {a, b, b, c} <= Matched(v, ThreeEntries());
    assert Overflow(a, b, ThreeEntries()) && !Overflow(b, c, ThreeEntries());
  }

  /**
   * A decodable vote, in time, by an actor who has not voted, after which two nodes disagree on the
   * sponsor's balance.
   */
  lemma NodesDisagree(s: State, tx: Tx, voted: ID) returns (order: seq<NodeID>, order': seq<NodeID>)
    requires tx.action == ValidatorVote(voted, true, [1], [0]) && tx.rules == ThreeEntries()
    requires tx.order == [[1], [2], [3]]
    requires forall units: U64 | units <= VOTE_UNITS :: tx.fee(units) <= tx.maxFee
    requires voted in s.timeOuts && tx.ts <= s.timeOuts[voted] && (voted, tx.actor) !in s.votes
    requires Ledger.BalanceOf(s, tx.sponsor) > tx.maxFee && tx.fee(3500) != tx.fee(5000)
    ensures !IsZero(voted) ==> Codec.Encodable(tx.action)
    ensures Proper(tx) && Torn(s, tx)
    ensures IsEnumeration(order, tx.rules.validators.Keys) && IsEnumeration(order', tx.rules.validators.Keys)
    ensures Ledger.BalanceOf(ExecTx(s, ByOrder(tx, order)).s, tx.sponsor)
         != Ledger.BalanceOf(ExecTx(s, ByOrder(tx, order')).s, tx.sponsor)
  {
    Codec.VoteEncodable(tx.action);
    ThreeTear(tx.action);
    assert Torn(s, tx);
    order, order' := TornOrders(s, tx);
    OrderIsUnits(s, tx, order);
    OrderIsUnits(s, tx, order');
    TornReceipt(s, tx, 3500);
    TornReceipt(s, tx, 5000);
  }

  // ---------- Sequences of transactions ----------

  /** The same transactions, each in an order of its own. */
  ghost predicate SameButOrders(txs: seq<Tx>, txs': seq<Tx>) {
    |txs| == |txs'| && forall i | 0 <= i < |txs| :: txs'[i] == txs[i].(order := txs'[i].order)
  }

  /** No transaction is a torn vote when its turn comes. */
  ghost predicate NeverTorn(s: State, txs: seq<Tx>)
    requires AllProper(txs)
    decreases |txs|
  {
    txs == [] || (!Torn(s, txs[0]) && NeverTorn(ExecTx(s, txs[0]).s, txs[1..]))
  }

  /** Then nodes agree on all results and on the state, whatever orders they take. */
  lemma {:induction false} OrdersDoNotShow(s: State, txs: seq<Tx>, txs': seq<Tx>)
    requires AllProper(txs) && AllProper(txs') && SameButOrders(txs, txs') && NeverTorn(s, txs)
    ensures RunTxs(s, txs') == RunTxs(s, txs) && Results(s, txs') == Results(s, txs)
    decreases |txs|
  {
    if txs != [] {
      var tx, tx' := txs[0], txs'[0];
      assert Proper(txs[0]) && Proper(txs'[0]) && tx' == tx.(order := tx'.order);
      assert tx' == ByOrder(tx, tx'.order) && tx == ByOrder(tx, tx.order);
      NotTorn(s, tx, tx.order, tx'.order);
      OrdersDoNotShow(ExecTx(s, tx).s, txs[1..], txs'[1..]);
    }
  }

  /** And otherwise some choice of orders gives other results. */
  lemma {:induction false} OrdersShow(s: State, txs: seq<Tx>) returns (txs': seq<Tx>)
    requires AllProper(txs) && !NeverTorn(s, txs)
    ensures AllProper(txs') && SameButOrders(txs, txs') && Results(s, txs') != Results(s, txs)
    decreases |txs|
  {
    var tx, rest := txs[0], txs[1..];
    if Torn(s, tx) {
      var order := OtherOrder(s, tx);
      RunCons(s, ByOrder(tx, order), rest);
      txs' := [ByOrder(tx, order)] + rest;
      assert Results(s, txs')[0] != Results(s, txs)[0];
    } else {
      var rest' := OrdersShow(ExecTx(s, tx).s, rest);
      RunCons(s, tx, rest');
      txs' := [tx] + rest';
      assert Results(s, txs')[1..] != Results(s, txs)[1..];
    }
  }

  lemma OtherOrder(s: State, tx: Tx) returns (order: seq<NodeID>)
    requires Proper(tx) && Torn(s, tx)
    ensures IsEnumeration(order, tx.rules.validators.Keys)
    ensures ExecTx(s, ByOrder(tx, order)).result != ExecTx(s, tx).result
  {
    ResultsAgree(s, tx);
    var one, two :| IsEnumeration(one, tx.rules.validators.Keys) && IsEnumeration(two, tx.rules.validators.Keys)
                 && ExecTx(s, ByOrder(tx, one)).result != ExecTx(s, ByOrder(tx, two)).result;
    order := if ExecTx(s, ByOrder(tx, one)).result != ExecTx(s, tx).result then one else two;
  }

  /** Nodes agree on the results of a sequence, whatever orders they take, exactly when no vote along it is torn. */
  lemma SequencesAgree(s: State, txs: seq<Tx>)
    requires AllProper(txs)
    ensures (forall txs' | AllProper(txs') && SameButOrders(txs, txs') :: Results(s, txs') == Results(s, txs))
       <==> NeverTorn(s, txs)
  {
    if NeverTorn(s, txs) {
      forall txs' | AllProper(txs') && SameButOrders(txs, txs') ensures Results(s, txs') == Results(s, txs) {
        OrdersDoNotShow(s, txs, txs');
      }
    } else {
      var txs' := OrdersShow(s, txs);
    }
  }
}
