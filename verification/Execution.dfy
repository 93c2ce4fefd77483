/** Executing actions on the store, and the driver that commits an action only if it succeeds. */
module Execution {
  import opened Encoding
  import opened Keys
  import opened Records
  import opened Actions
  import Ledger
  import Windows
  import Storage
  import Voting

  /** The state an action commits, or None if it fails. No order of iteration and no byte appears in it. */
  ghost function Effect(s: State, a: Action, actor: Address, txID: ID, ts: I64, rules: Rules): Option<State> {
    match a
    case Transfer(to, value) => Ledger.Move(s, actor, to, value)
    case Register(_) => Some(s)
    case RegisterImage(image, valType, rootHash) => Some(Windows.StoreHash(s, image, Low16(valType), rootHash))
    case ValidatorVote(_, _, _, _) => Voting.VoteCommit(s, a, rules, ts, actor)
    case _ => Some(Windows.OpenWindow(s, txID, a.timeOutBlocks, ts))
  }

  /** The compute units that a successful action reports. */
  function Units(a: Action): U64 {
    match a
    case Transfer(_, _) => 1
    case Register(_) => 1000
    case RegisterImage(_, _, _) => 4000
    case ValidatorVote(_, _, _, _) => Voting.VOTE_UNITS
    case Miden(_, _, _, _, _, _) => 6000
    case RiscZero(_, _, _, _) => 6000
    case _ => 8000
  }

  /** MaxComputeUnits. */
  function MaxUnits(a: Action): U64 {
    match a
    case RiscZero(_, _, _, _) => 8000
    case Jolt(_, _, _) => 20000
    case _ => Units(a)
  }

  /** What an action reports, success or not, when a vote takes the given order: never more than its maximum. */
  function Reported(s: State, a: Action, order: seq<NodeID>, actor: Address, ts: I64, rules: Rules): (units: U64)
    requires forall n | n in order :: n in rules.validators
    ensures units <= MaxUnits(a)
  {
    if a.ValidatorVote? then Voting.VoteUnits(s, order, a, rules, ts, actor) else Units(a)
  }

  /** The records that a transfer writes: the sender's even if the receiver's cannot be. */
  function TransferKeys(s: State, a: Action, actor: Address): set<Key>
    requires a.Transfer?
  {
    if a.value == 0 || Ledger.BalanceOf(s, actor) < a.value then {}
    else if Ledger.Stranded(s, actor, a.to, a.value) then {Key.Balance(actor)}
    else {Key.Balance(actor), Key.Balance(a.to)}
  }

  /** The records whose keys an action inserts or removes, success or not, when a vote takes the given order. */
  function Written(s: State, a: Action, order: seq<NodeID>, actor: Address, txID: ID, ts: I64, rules: Rules): set<Key>
    requires forall n | n in order :: n in rules.validators
  {
    match a
    case Transfer(_, _) => TransferKeys(s, a, actor)
    case Register(_) => {}
    case RegisterImage(image, valType, _) => {Key.Hash(image, Low16(valType))}
    case ValidatorVote(_, _, _, _) => Voting.VoteKeys(s, order, a, rules, ts, actor)
    case _ => {Key.TimeOut(txID)}
  }

  /** What the actions that cannot fail do. */
  lemma EffectExactly(s: State, a: Action, actor: Address, txID: ID, ts: I64, rules: Rules) returns (deadline: I64)
    ensures a.Register? ==> Effect(s, a, actor, txID, ts, rules) == Some(s)
    ensures a.SP1? || a.Miden? || a.RiscZero? || a.Jolt? || a.Plonky2? ==>
              && Windows.ClosesAfter(deadline, ts, if a.timeOutBlocks < 20 then 20
                                                   else if a.timeOutBlocks > 300 then 300 else a.timeOutBlocks)
              && Effect(s, a, actor, txID, ts, rules) == Some(s.(timeOuts := s.timeOuts[txID := deadline]))
  {
    deadline := 0;
    if IsProof(a) {
      deadline := Windows.Deadline(ts, a.timeOutBlocks);
      Windows.DeadlineExactly(ts, a.timeOutBlocks);
    }
  }

  /** The units that each action reports, and the most that it may; for votes the outcome decides. */
  lemma UnitsExactly(s: State, a: Action, order: seq<NodeID>, actor: Address, ts: I64, rules: Rules)
    requires forall n | n in order :: n in rules.validators
    ensures a.Transfer? ==> Reported(s, a, order, actor, ts, rules) == 1 == MaxUnits(a)
    ensures a.Register? ==> Reported(s, a, order, actor, ts, rules) == 1000 == MaxUnits(a)
    ensures a.RegisterImage? ==> Reported(s, a, order, actor, ts, rules) == 4000 == MaxUnits(a)
    ensures a.ValidatorVote? ==> MaxUnits(a) == 5000
    ensures a.SP1? || a.Plonky2? ==> Reported(s, a, order, actor, ts, rules) == 8000 == MaxUnits(a)
    ensures a.Miden? ==> Reported(s, a, order, actor, ts, rules) == 6000 == MaxUnits(a)
    ensures a.RiscZero? ==> Reported(s, a, order, actor, ts, rules) == 6000 && MaxUnits(a) == 8000
    ensures a.Jolt? ==> Reported(s, a, order, actor, ts, rules) == 8000 && MaxUnits(a) == 20000
  {
  }

  // ---------- Execute, action by action ----------

  method ExecuteTransfer(a: Action, mu: Storage.Store, actor: Address) returns (success: bool, units: U64)
    requires a.Transfer? && mu.Valid()
    modifies mu
    ensures mu.Valid() && SameOutside(old(mu.data), mu.data) && units == Units(a)
    ensures success <==> Ledger.Move(old(mu.st), actor, a.to, a.value).Some?
    ensures success ==> Some(mu.st) == Ledger.Move(old(mu.st), actor, a.to, a.value)
    ensures !success ==>
              if Ledger.Stranded(old(mu.st), actor, a.to, a.value)
              then mu.st != old(mu.st) && Some(mu.st) == Ledger.Debit(old(mu.st), actor, a.value)
              else mu.st == old(mu.st)
    ensures mu.written == old(mu.written) + TransferKeys(old(mu.st), a, actor)
  {
    Ledger.MoveFails(mu.st, actor, a.to, a.value);
    if a.value == 0 {
      return false, 1;
    }
    var paid := mu.SubBalance(actor, a.value);
    if !paid {
      return false, 1;
    }
    var received := mu.AddBalance(a.to, a.value, true);
    if !received {
      return false, 1;
    }
    return true, 1;
  }

  method ExecuteRegisterImage(a: Action, mu: Storage.Store) returns (success: bool, units: U64)
    requires a.RegisterImage? && mu.Valid()
    modifies mu
    ensures mu.Valid() && SameOutside(old(mu.data), mu.data)
    ensures success && units == Units(a)
    ensures mu.st == old(mu.st).(hashes := old(mu.st).hashes[(a.image, a.valType % 0x1_0000) := a.rootHash])
    ensures mu.written == old(mu.written) + {Key.Hash(a.image, Low16(a.valType))}
  {
    var valType := Low16(a.valType);
    mu.StoreHashKeyType(a.image, valType, a.rootHash);
    return true, 4000;
  }

  /** SP1, Miden, RiscZero, Jolt and Plonky2 differ in the units they report. */
  method ExecuteProof(a: Action, mu: Storage.Store, ts: I64, txID: ID) returns (success: bool, units: U64)
    requires IsProof(a) && mu.Valid()
    modifies mu
    ensures mu.Valid() && SameOutside(old(mu.data), mu.data)
    ensures success && units == Units(a)
    ensures mu.st == Windows.OpenWindow(old(mu.st), txID, a.timeOutBlocks, ts)
    ensures mu.written == old(mu.written) + {Key.TimeOut(txID)}
  {
    mu.StoreTimeOut(txID, a.timeOutBlocks, ts);
    return true, if a.Miden? || a.RiscZero? then 6000 else 8000;
  }

  method Execute(a: Action, rules: Rules, mu: Storage.Store, ts: I64, actor: Address, txID: ID)
    returns (success: bool, units: U64, ghost order: seq<NodeID>)
    requires mu.Valid()
    modifies mu
    ensures mu.Valid() && SameOutside(old(mu.data), mu.data)
    ensures success <==> Effect(old(mu.st), a, actor, txID, ts, rules).Some?
    ensures success ==> Some(mu.st) == Effect(old(mu.st), a, actor, txID, ts, rules) && units == Units(a)
    ensures Voting.IsEnumeration(order, rules.validators.Keys)
    ensures units == Reported(old(mu.st), a, order, actor, ts, rules)
    ensures mu.written == old(mu.written) + Written(old(mu.st), a, order, actor, txID, ts, rules)
  {
    order := Voting.AnyEnumeration(rules.validators.Keys);
    match a
    case Transfer(_, _) =>
      success, units := ExecuteTransfer(a, mu, actor);
    case Register(_) =>
      return true, 1000, order;
    case RegisterImage(_, _, _) =>
      success, units := ExecuteRegisterImage(a, mu);
    case ValidatorVote(_, _, _, _) =>
      success, units, order := Voting.Execute(a, rules, mu, ts, actor);
    case _ =>
      success, units := ExecuteProof(a, mu, ts, txID);
  }

  /** What the chain does around Execute: keep the writes of a success, undo those of a failure. */
  method Process(a: Action, rules: Rules, mu: Storage.Store, ts: I64, actor: Address, txID: ID)
    returns (success: bool, units: U64, ghost order: seq<NodeID>)
    requires mu.Valid()
    modifies mu
    ensures mu.Valid() && SameOutside(old(mu.data), mu.data)
    ensures success <==> Effect(old(mu.st), a, actor, txID, ts, rules).Some?
    ensures success ==> Some(mu.st) == Effect(old(mu.st), a, actor, txID, ts, rules)
    ensures !success ==> mu.data == old(mu.data) && mu.st == old(mu.st)
    ensures Voting.IsEnumeration(order, rules.validators.Keys)
    ensures units == Reported(old(mu.st), a, order, actor, ts, rules)
    ensures mu.written == old(mu.written) + Written(old(mu.st), a, order, actor, txID, ts, rules)
  {
    var snapshot := mu.data;
    ghost var meaning := mu.st;
    success, units, order := Execute(a, rules, mu, ts, actor, txID);
    if !success {
      mu.Restore(snapshot, meaning);
    }
  }
}
