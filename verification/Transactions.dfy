/** A whole transaction: deduct the maximum fee, run the action, refund what was not used. */
module Transactions {
  import opened Encoding
  import opened Keys
  import opened Records
  import opened Actions
  import Ledger
  import Windows
  import Voting
  import Execution
  import Storage

  /** `fee` turns reported units into a fee. `order` is the order in which a vote visits the validators. */
  datatype Tx = Tx(
    txID: ID,
    sponsor: Address,
    actor: Address,
    action: Action,
    ts: I64,
    rules: Rules,
    maxFee: U64,
    fee: U64 -> U64,
    order: seq<NodeID>)

  /** The maximum fee covers whatever the action may report, and the order visits every validator once. */
  ghost predicate Proper(tx: Tx) {
    && (forall units: U64 | units <= Execution.MaxUnits(tx.action) :: tx.fee(units) <= tx.maxFee)
    && Voting.IsEnumeration(tx.order, tx.rules.validators.Keys)
  }

  /** Unpaid: the sponsor cannot pay. Otherwise: did the action succeed, what did it report, did the refund fit? */
  datatype Result = Unpaid | Ran(success: bool, units: U64, refunded: bool)

  datatype Receipt = Receipt(s: State, result: Result)

  ghost function ExecTx(s: State, tx: Tx): Receipt
    requires Proper(tx)
  {
    match Ledger.Debit(s, tx.sponsor, tx.maxFee)
    case None => Receipt(s, Unpaid)
    case Some(charged) => Settle(Kept(charged, tx), tx, Acts(charged, tx).Some?, UnitsOf(charged, tx))
  }

  /** The refund after the action. */
  ghost function Settle(acted: State, tx: Tx, success: bool, units: U64): Receipt
    requires Proper(tx) && units <= Execution.MaxUnits(tx.action)
  {
    match Ledger.Credit(acted, tx.sponsor, tx.maxFee - tx.fee(units), false)
    case None => Receipt(acted, Ran(success, units, false))
    case Some(refunded) => Receipt(refunded, Ran(success, units, true))
  }

  ghost function Acts(s: State, tx: Tx): Option<State> {
    Execution.Effect(s, tx.action, tx.actor, tx.txID, tx.ts, tx.rules)
  }

  ghost function UnitsOf(s: State, tx: Tx): (units: U64)
    requires Proper(tx)
    ensures units <= Execution.MaxUnits(tx.action)
  {
    Execution.Reported(s, tx.action, tx.order, tx.actor, tx.ts, tx.rules)
  }

  /** The state after the action: its own on success, the one before it on failure. */
  ghost function Kept(s: State, tx: Tx): State {
    match Acts(s, tx)
    case None => s
    case Some(s') => s'
  }

  /** The order of a vote is whatever the loop takes: nothing about it is chosen by the transaction. */
  method ProcessTx(tx: Tx, mu: Storage.Store) returns (result: Result, ghost order: seq<NodeID>)
    requires Proper(tx) && mu.Valid()
    modifies mu
    ensures mu.Valid() && SameOutside(old(mu.data), mu.data)
    ensures Proper(tx.(order := order))
    ensures Receipt(mu.st, result) == ExecTx(old(mu.st), tx.(order := order))
  {
    order := tx.order;
    var affordable := mu.CanDeduct(tx.sponsor, tx.maxFee);
    if !affordable {
      return Unpaid, order;
    }
    var charged := mu.Deduct(tx.sponsor, tx.maxFee);
    result, order := ActAndRefund(tx, mu);
  }

  /** The action and the refund, once the maximum fee has been paid. */
  method ActAndRefund(tx: Tx, mu: Storage.Store) returns (result: Result, ghost order: seq<NodeID>)
    requires Proper(tx) && mu.Valid()
    modifies mu
    ensures mu.Valid() && SameOutside(old(mu.data), mu.data)
    ensures Proper(tx.(order := order))
    ensures var charged, tx' := old(mu.st), tx.(order := order);
      Receipt(mu.st, result) == Settle(Kept(charged, tx'), tx', Acts(charged, tx').Some?, UnitsOf(charged, tx'))
  {
    var success, units;
    success, units, order := Execution.Process(tx.action, tx.rules, mu, tx.ts, tx.actor, tx.txID);
    var refunded := mu.Refund(tx.sponsor, tx.maxFee - tx.fee(units));
    return Ran(success, units, refunded), order;
  }

  // ---------- Which records a transaction depends on ----------

  /** The declared keys: those of the action and the sponsor's balance. */
  function Declared(tx: Tx): set<Bytes> {
    StateKeys(tx.action, tx.actor, tx.txID) + SponsorStateKeys(tx.sponsor)
  }

  /**
   * The records an action reads or writes. A vote writes the status of the transaction voted on, which
   * it does not declare.
   */
  function Touched(a: Action, actor: Address, txID: ID): set<Key> {
    match a
    case Transfer(to, _) => {Key.Balance(actor), Key.Balance(to)}
    case Register(_) => {}
    case RegisterImage(image, valType, _) => {Key.Hash(image, Low16(valType))}
    case ValidatorVote(tx, _, _, _) => {Key.TimeOut(tx), Key.Weight(tx), Key.Status(tx), Key.Vote(tx, actor)}
    case _ => {Key.TimeOut(txID)}
  }

  function TouchedByTx(tx: Tx): set<Key> {
    Touched(tx.action, tx.actor, tx.txID) + {Key.Balance(tx.sponsor)}
  }

  /**
   * Every record a transaction touches is declared, except the status of a vote, and that one has a
   * declared tally beside it.
   */
  lemma TouchedDeclared(tx: Tx, k: Key)
    requires k in TouchedByTx(tx)
    ensures IsRecord(k)
    ensures KeyBytes(k) in Declared(tx) || (k.Status? && KeyBytes(Key.Weight(k.tx)) in Declared(tx))
    ensures k.Status? ==> KeyBytes(Key.Weight(k.tx)) in Declared(tx)
  {
  }

  lemma DisjointDeclaredTouched(tx: Tx, tx': Tx)
    requires Declared(tx) !! Declared(tx')
    ensures TouchedByTx(tx) !! TouchedByTx(tx')
  {
    forall k | k in TouchedByTx(tx) && k in TouchedByTx(tx') ensures false {
      TouchedDeclared(tx, k);
      TouchedDeclared(tx', k);
    }
  }

  // ---------- Locality ----------

  ghost predicate AgreeOn(s: State, t: State, ks: set<Key>) {
    forall k | k in ks && IsRecord(k) :: At(s, k) == At(t, k)
  }

  ghost predicate SameExcept(s: State, t: State, ks: set<Key>) {
    forall k: Key | IsRecord(k) && k !in ks :: At(s, k) == At(t, k)
  }

  lemma AgreeOnBalance(s: State, t: State, a: Address, ks: set<Key>)
    requires AgreeOn(s, t, ks) && Key.Balance(a) in ks
    ensures a in s.balances <==> a in t.balances
    ensures Ledger.BalanceOf(s, a) == Ledger.BalanceOf(t, a)
  {
    assert At(s, Key.Balance(a)) == At(t, Key.Balance(a));
    if a in s.balances { U64BytesInjective(s.balances[a], t.balances[a]); }
  }

  /** Writing the same value under one record keeps two states alike. */
  lemma WriteLocal(s: State, t: State, s': State, t': State, k: Key, ks: set<Key>)
    requires AgreeOn(s, t, ks) && IsRecord(k)
    requires DiffersOnlyAt(s, s', k) && DiffersOnlyAt(t, t', k) && At(s', k) == At(t', k)
    ensures AgreeOn(s', t', ks) && SameExcept(s, s', {k})
  {
    forall k' | k' in ks && IsRecord(k') ensures At(s', k') == At(t', k') {
      if k' != k {
        assert At(s, k') == At(t, k');
      }
    }
  }

  lemma SetDiffers(s: State, a: Address, balance: U64)
    ensures DiffersOnlyAt(s, Ledger.Set(s, a, balance), Key.Balance(a))
    ensures DiffersOnlyAt(s, s.(balances := s.balances - {a}), Key.Balance(a))
  {
  }

  lemma SetLocal(s: State, t: State, a: Address, balance: U64, ks: set<Key>)
    requires AgreeOn(s, t, ks)
    ensures AgreeOn(Ledger.Set(s, a, balance), Ledger.Set(t, a, balance), ks)
    ensures SameExcept(s, Ledger.Set(s, a, balance), {Key.Balance(a)})
  {
    SetDiffers(s, a, balance);
    SetDiffers(t, a, balance);
    WriteLocal(s, t, Ledger.Set(s, a, balance), Ledger.Set(t, a, balance), Key.Balance(a), ks);
  }

  lemma DebitLocal(s: State, t: State, a: Address, amount: U64, ks: set<Key>)
    requires AgreeOn(s, t, ks) && Key.Balance(a) in ks
    ensures Ledger.Debit(s, a, amount).Some? == Ledger.Debit(t, a, amount).Some?
    ensures Ledger.Debit(s, a, amount).Some? ==>
      var s', t' := Ledger.Debit(s, a, amount).value, Ledger.Debit(t, a, amount).value;
      AgreeOn(s', t', ks) && SameExcept(s, s', {Key.Balance(a)})
  {
    AgreeOnBalance(s, t, a, ks);
    var balance := Ledger.BalanceOf(s, a) - amount;
    if balance > 0 {
      SetLocal(s, t, a, balance, ks);
      assert Ledger.Debit(s, a, amount) == Some(Ledger.Set(s, a, balance));
      assert Ledger.Debit(t, a, amount) == Some(Ledger.Set(t, a, balance));
    } else if balance == 0 {
      var s', t' := s.(balances := s.balances - {a}), t.(balances := t.balances - {a});
      SetDiffers(s, a, 0);
      SetDiffers(t, a, 0);
      WriteLocal(s, t, s', t', Key.Balance(a), ks);
      assert Ledger.Debit(s, a, amount) == Some(s') && Ledger.Debit(t, a, amount) == Some(t');
    }
  }

  lemma CreditLocal(s: State, t: State, a: Address, amount: U64, create: bool, ks: set<Key>)
    requires AgreeOn(s, t, ks) && Key.Balance(a) in ks
    ensures Ledger.Credit(s, a, amount, create).Some? == Ledger.Credit(t, a, amount, create).Some?
    ensures Ledger.Credit(s, a, amount, create).Some? ==>
      var s', t' := Ledger.Credit(s, a, amount, create).value, Ledger.Credit(t, a, amount, create).value;
      AgreeOn(s', t', ks) && SameExcept(s, s', {Key.Balance(a)})
  {
    AgreeOnBalance(s, t, a, ks);
    if a !in s.balances && !create {
      assert Ledger.Credit(s, a, amount, create) == Some(s) && Ledger.Credit(t, a, amount, create) == Some(t);
    } else if Ledger.BalanceOf(s, a) + amount <= MAX_U64 {
      var balance := Ledger.BalanceOf(s, a) + amount;
      SetLocal(s, t, a, balance, ks);
      assert Ledger.Credit(s, a, amount, create) == Some(Ledger.Set(s, a, balance));
      assert Ledger.Credit(t, a, amount, create) == Some(Ledger.Set(t, a, balance));
    }
  }

  lemma MoveLocal(s: State, t: State, from: Address, to: Address, amount: U64, ks: set<Key>)
    requires AgreeOn(s, t, ks) && Key.Balance(from) in ks && Key.Balance(to) in ks
    ensures Ledger.Move(s, from, to, amount).Some? == Ledger.Move(t, from, to, amount).Some?
    ensures Ledger.Move(s, from, to, amount).Some? ==>
      var s', t' := Ledger.Move(s, from, to, amount).value, Ledger.Move(t, from, to, amount).value;
      AgreeOn(s', t', ks) && SameExcept(s, s', {Key.Balance(from), Key.Balance(to)})
  {
    DebitLocal(s, t, from, amount, ks);
    if Ledger.Debit(s, from, amount).Some? {
      CreditLocal(Ledger.Debit(s, from, amount).value, Ledger.Debit(t, from, amount).value, to, amount, true, ks);
    }
  }

  /** Records of one vote, read alike. */
  lemma AgreeOnVote(s: State, t: State, tx: ID, actor: Address, ks: set<Key>)
    requires AgreeOn(s, t, ks)
    requires {Key.TimeOut(tx), Key.Weight(tx), Key.Status(tx), Key.Vote(tx, actor)} <= ks
    ensures tx in s.timeOuts <==> tx in t.timeOuts
    ensures tx in s.timeOuts ==> s.timeOuts[tx] == t.timeOuts[tx]
    ensures tx in s.weights <==> tx in t.weights
    ensures tx in s.weights ==> s.weights[tx] == t.weights[tx]
    ensures (tx, actor) in s.votes <==> (tx, actor) in t.votes
  {
    assert At(s, Key.TimeOut(tx)) == At(t, Key.TimeOut(tx));
    assert At(s, Key.Weight(tx)) == At(t, Key.Weight(tx));
    assert At(s, Key.Vote(tx, actor)) == At(t, Key.Vote(tx, actor));
    if tx in s.timeOuts { I64RoundTrip(s.timeOuts[tx]); I64RoundTrip(t.timeOuts[tx]); }
    if tx in s.weights { U64BytesInjective(s.weights[tx], t.weights[tx]); }
  }

  lemma WeightDiffers(s: State, tx: ID, weight: U64)
    ensures DiffersOnlyAt(s, s.(weights := s.weights[tx := weight]), Key.Weight(tx))
  {
  }

  lemma StatusDiffers(s: State, tx: ID)
    ensures DiffersOnlyAt(s, s.(statuses := s.statuses + {tx}), Key.Status(tx))
  {
  }

  lemma VoteDiffers(s: State, tx: ID, actor: Address)
    ensures DiffersOnlyAt(s, Windows.RecordVote(s, tx, actor), Key.Vote(tx, actor))
  {
  }

  lemma WeightLocal(s: State, t: State, tx: ID, tally: U64, ks: set<Key>)
    requires AgreeOn(s, t, ks)
    ensures var s1, t1 := s.(weights := s.weights[tx := tally]), t.(weights := t.weights[tx := tally]);
      AgreeOn(s1, t1, ks) && SameExcept(s, s1, {Key.Weight(tx)})
  {
    WeightDiffers(s, tx, tally);
    WeightDiffers(t, tx, tally);
    WriteLocal(s, t, s.(weights := s.weights[tx := tally]), t.(weights := t.weights[tx := tally]), Key.Weight(tx), ks);
  }

  lemma StatusLocal(s: State, t: State, tx: ID, ks: set<Key>)
    requires AgreeOn(s, t, ks)
    ensures var s1, t1 := s.(statuses := s.statuses + {tx}), t.(statuses := t.statuses + {tx});
      AgreeOn(s1, t1, ks) && SameExcept(s, s1, {Key.Status(tx)})
  {
    StatusDiffers(s, tx);
    StatusDiffers(t, tx);
    WriteLocal(s, t, s.(statuses := s.statuses + {tx}), t.(statuses := t.statuses + {tx}), Key.Status(tx), ks);
  }

  lemma AddWeightLocal(s: State, t: State, tx: ID, w: U64, total: U64, ks: set<Key>)
    requires AgreeOn(s, t, ks) && {Key.Weight(tx), Key.Status(tx)} <= ks
    requires tx in s.weights <==> tx in t.weights
    requires tx in s.weights ==> s.weights[tx] == t.weights[tx]
    ensures AgreeOn(Windows.AddWeight(s, tx, w, total), Windows.AddWeight(t, tx, w, total), ks)
    ensures SameExcept(s, Windows.AddWeight(s, tx, w, total), {Key.Weight(tx), Key.Status(tx)})
  {
    var tally := if tx in s.weights then (s.weights[tx] + w) % TWO64 else w;
    var s1, t1 := s.(weights := s.weights[tx := tally]), t.(weights := t.weights[tx := tally]);
    WeightLocal(s, t, tx, tally, ks);
    if tx in s.weights && tally > total {
      var s2 := s1.(statuses := s1.statuses + {tx});
      StatusLocal(s1, t1, tx, ks);
      SameExceptJoin(s, s1, s2, {Key.Weight(tx)}, {Key.Status(tx)}, {Key.Weight(tx), Key.Status(tx)});
      assert Windows.AddWeight(s, tx, w, total) == s2;
    } else {
      assert Windows.AddWeight(s, tx, w, total) == s1;
    }
  }

  lemma RecordLocal(s: State, t: State, tx: ID, actor: Address, ks: set<Key>)
    requires AgreeOn(s, t, ks)
    ensures AgreeOn(Windows.RecordVote(s, tx, actor), Windows.RecordVote(t, tx, actor), ks)
    ensures SameExcept(s, Windows.RecordVote(s, tx, actor), {Key.Vote(tx, actor)})
  {
    VoteDiffers(s, tx, actor);
    VoteDiffers(t, tx, actor);
    WriteLocal(s, t, Windows.RecordVote(s, tx, actor), Windows.RecordVote(t, tx, actor), Key.Vote(tx, actor), ks);
  }

  lemma SameExceptJoin(s: State, t: State, u: State, ks: set<Key>, ks': set<Key>, all: set<Key>)
    requires SameExcept(s, t, ks) && SameExcept(t, u, ks') && ks <= all && ks' <= all
    ensures SameExcept(s, u, all)
  {
  }

  lemma CastLocal(s: State, t: State, tx: ID, actor: Address, yes: bool, w: U64, ks: set<Key>)
    requires AgreeOn(s, t, ks)
    requires {Key.TimeOut(tx), Key.Weight(tx), Key.Status(tx), Key.Vote(tx, actor)} <= ks
    ensures AgreeOn(Windows.Cast(s, tx, actor, yes, w, w), Windows.Cast(t, tx, actor, yes, w, w), ks)
    ensures SameExcept(s, Windows.Cast(s, tx, actor, yes, w, w),
                       {Key.TimeOut(tx), Key.Weight(tx), Key.Status(tx), Key.Vote(tx, actor)})
  {
    AgreeOnVote(s, t, tx, actor, ks);
    var all := {Key.TimeOut(tx), Key.Weight(tx), Key.Status(tx), Key.Vote(tx, actor)};
    if yes {
      var s1, t1 := Windows.AddWeight(s, tx, w, w), Windows.AddWeight(t, tx, w, w);
      AddWeightLocal(s, t, tx, w, w, ks);
      RecordLocal(s1, t1, tx, actor, ks);
      SameExceptJoin(s, s1, Windows.RecordVote(s1, tx, actor),
                     {Key.Weight(tx), Key.Status(tx)}, {Key.Vote(tx, actor)}, all);
    } else {
      RecordLocal(s, t, tx, actor, ks);
      SameExceptJoin(s, s, Windows.RecordVote(s, tx, actor), {}, {Key.Vote(tx, actor)}, all);
    }
  }

  /** An action reads and writes nothing but the records it touches. */
  lemma EffectLocal(s: State, t: State, a: Action, actor: Address, txID: ID, ts: I64, rules: Rules, ks: set<Key>)
    requires AgreeOn(s, t, ks) && Touched(a, actor, txID) <= ks
    ensures var e, e' := Execution.Effect(s, a, actor, txID, ts, rules), Execution.Effect(t, a, actor, txID, ts, rules);
      && e.Some? == e'.Some?
      && (e.Some? ==> AgreeOn(e.value, e'.value, ks) && SameExcept(s, e.value, Touched(a, actor, txID)))
  {
    match a
    case Transfer(to, value) => MoveLocal(s, t, actor, to, value, ks);
    case ValidatorVote(tx, yes, _, _) =>
      AgreeOnVote(s, t, tx, actor, ks);
      if Voting.Counts(s, a, rules, ts, actor) {
        CastLocal(s, t, tx, actor, yes, Voting.OnlyWeight(a, rules), ks);
      }
    case Register(_) =>
    case _ => SimpleLocal(s, t, a, actor, txID, ts, rules, ks);
  }

  lemma HashDiffers(s: State, image: ID, valType: U16, hash: Bytes)
    ensures DiffersOnlyAt(s, Windows.StoreHash(s, image, valType, hash), Key.Hash(image, valType))
  {
  }

  lemma WindowDiffers(s: State, tx: ID, timeOut: U64, ts: I64)
    ensures DiffersOnlyAt(s, Windows.OpenWindow(s, tx, timeOut, ts), Key.TimeOut(tx))
  {
  }

  lemma SimpleLocal(s: State, t: State, a: Action, actor: Address, txID: ID, ts: I64, rules: Rules, ks: set<Key>)
    requires AgreeOn(s, t, ks) && (IsProof(a) || a.RegisterImage?)
    ensures
      var e := Execution.Effect(s, a, actor, txID, ts, rules).value;
      var e' := Execution.Effect(t, a, actor, txID, ts, rules).value;
      AgreeOn(e, e', ks) && SameExcept(s, e, Touched(a, actor, txID))
  {
    if a.RegisterImage? {
      var v := Low16(a.valType);
      HashDiffers(s, a.image, v, a.rootHash);
      HashDiffers(t, a.image, v, a.rootHash);
      WriteLocal(s, t, Windows.StoreHash(s, a.image, v, a.rootHash), Windows.StoreHash(t, a.image, v, a.rootHash),
                 Key.Hash(a.image, v), ks);
    } else {
      WindowDiffers(s, txID, a.timeOutBlocks, ts);
      WindowDiffers(t, txID, a.timeOutBlocks, ts);
      var timeOut := a.timeOutBlocks;
      WriteLocal(s, t, Windows.OpenWindow(s, txID, timeOut, ts), Windows.OpenWindow(t, txID, timeOut, ts),
                 Key.TimeOut(txID), ks);
    }
  }

  lemma KeptLocal(s: State, t: State, tx: Tx, ks: set<Key>)
    requires AgreeOn(s, t, ks) && TouchedByTx(tx) <= ks
    ensures Acts(s, tx).Some? == Acts(t, tx).Some?
    ensures AgreeOn(Kept(s, tx), Kept(t, tx), ks) && SameExcept(s, Kept(s, tx), TouchedByTx(tx))
  {
    EffectLocal(s, t, tx.action, tx.actor, tx.txID, tx.ts, tx.rules, ks);
  }

  /** The checks of a vote and its loop read nothing but the records of that vote. */
  lemma VoteUnitsLocal(s: State, t: State, v: Action, order: seq<NodeID>, actor: Address, ts: I64, rules: Rules)
    requires v.ValidatorVote? && forall n | n in order :: n in rules.validators
    requires v.tx in s.timeOuts <==> v.tx in t.timeOuts
    requires v.tx in s.timeOuts ==> s.timeOuts[v.tx] == t.timeOuts[v.tx]
    requires (v.tx, actor) in s.votes <==> (v.tx, actor) in t.votes
    ensures Voting.VoteUnits(s, order, v, rules, ts, actor) == Voting.VoteUnits(t, order, v, rules, ts, actor)
  {
    Voting.ScanIsByMatches(s, order, v, rules, actor);
    Voting.ScanIsByMatches(t, order, v, rules, actor);
  }

  lemma UnitsLocal(s: State, t: State, tx: Tx, ks: set<Key>)
    requires Proper(tx) && AgreeOn(s, t, ks) && TouchedByTx(tx) <= ks
    ensures UnitsOf(s, tx) == UnitsOf(t, tx)
  {
    if tx.action.ValidatorVote? {
      AgreeOnVote(s, t, tx.action.tx, tx.actor, ks);
      VoteUnitsLocal(s, t, tx.action, tx.order, tx.actor, tx.ts, tx.rules);
    }
  }

  lemma SettleLocal(s: State, t: State, tx: Tx, success: bool, units: U64, ks: set<Key>)
    requires Proper(tx) && units <= Execution.MaxUnits(tx.action)
    requires AgreeOn(s, t, ks) && Key.Balance(tx.sponsor) in ks
    ensures Settle(s, tx, success, units).result == Settle(t, tx, success, units).result
    ensures AgreeOn(Settle(s, tx, success, units).s, Settle(t, tx, success, units).s, ks)
    ensures SameExcept(s, Settle(s, tx, success, units).s, {Key.Balance(tx.sponsor)})
  {
    var refund := tx.maxFee - tx.fee(units);
    CreditLocal(s, t, tx.sponsor, refund, false, ks);
    if Ledger.Credit(s, tx.sponsor, refund, false).Some? {
      assert Settle(s, tx, success, units).s == Ledger.Credit(s, tx.sponsor, refund, false).value;
      assert Settle(t, tx, success, units).s == Ledger.Credit(t, tx.sponsor, refund, false).value;
    } else {
      assert Settle(s, tx, success, units).s == s && Settle(t, tx, success, units).s == t;
    }
  }

  lemma SameExceptThrice(s: State, t: State, u: State, v: State, k: Key, ks: set<Key>)
    requires SameExcept(s, t, {k}) && SameExcept(t, u, ks) && SameExcept(u, v, {k}) && k in ks
    ensures SameExcept(s, v, ks)
  {
  }

  /** A transaction reads and writes nothing but the records it touches. */
  lemma TxLocal(s: State, t: State, tx: Tx, ks: set<Key>)
    requires Proper(tx) && AgreeOn(s, t, ks) && TouchedByTx(tx) <= ks
    ensures ExecTx(s, tx).result == ExecTx(t, tx).result
    ensures AgreeOn(ExecTx(s, tx).s, ExecTx(t, tx).s, ks)
    ensures SameExcept(s, ExecTx(s, tx).s, TouchedByTx(tx))
  {
    var k := Key.Balance(tx.sponsor);
    assert k in TouchedByTx(tx);
    DebitLocal(s, t, tx.sponsor, tx.maxFee, ks);
    if Ledger.Debit(s, tx.sponsor, tx.maxFee).Some? {
      var s1, t1 := Ledger.Debit(s, tx.sponsor, tx.maxFee).value, Ledger.Debit(t, tx.sponsor, tx.maxFee).value;
      KeptLocal(s1, t1, tx, ks);
      UnitsLocal(s1, t1, tx, ks);
      SettleLocal(Kept(s1, tx), Kept(t1, tx), tx, Acts(s1, tx).Some?, UnitsOf(s1, tx), ks);
      SameExceptThrice(s, s1, Kept(s1, tx), ExecTx(s, tx).s, k, TouchedByTx(tx));
    }
  }
}
