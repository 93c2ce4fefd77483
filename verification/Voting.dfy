/** ValidatorVote.Execute: a loop over a Go map, whose order of iteration is not fixed. */
module Voting {
  import opened Encoding
  import opened Keys
  import opened Records
  import opened Actions
  import Windows
  import Storage

  const VOTE_UNITS: U64 := 5000

  // ---------- Enumerations of a map's keys ----------

  ghost predicate IsEnumeration(order: seq<NodeID>, keys: set<NodeID>) {
    && (forall n :: n in order <==> n in keys)
    && (forall i, j | 0 <= i < j < |order| :: order[i] != order[j])
  }

  ghost function AnyEnumeration(keys: set<NodeID>): (order: seq<NodeID>)
    ensures IsEnumeration(order, keys)
  {
    if keys == {} then []
    else
      var n :| n in keys;
      [n] + AnyEnumeration(keys - {n})
  }

  lemma {:induction false} EnumerationSize(order: seq<NodeID>, keys: set<NodeID>)
    requires IsEnumeration(order, keys)
    ensures |order| == |keys|
  {
    if order == [] {
      assert keys == {};
    } else {
      var n := order[0];
      assert IsEnumeration(order[1..], keys - {n}) by {
        forall m ensures m in order[1..] <==> m in keys - {n} {
          if m in order[1..] {
            var i :| 0 <= i < |order| - 1 && order[1..][i] == m;
            assert order[i + 1] == m;
          }
        }
      }
      EnumerationSize(order[1..], keys - {n});
    }
  }

  lemma AppendEnumeration(order: seq<NodeID>, keys: set<NodeID>, rest: seq<NodeID>, more: set<NodeID>)
    requires IsEnumeration(order, keys) && IsEnumeration(rest, more) && keys !! more
    ensures IsEnumeration(order + rest, keys + more)
  {
    var full := order + rest;
    forall i, j | 0 <= i < j < |full| ensures full[i] != full[j] {
      if i < |order| <= j {
        assert full[i] in keys && rest[j - |order|] in more;
      }
    }
  }

  // ---------- One order of iteration ----------

  /** The checks before the loop: the units of the failure, if one fails. */
  function Prelude(s: State, v: Action, rules: Rules, ts: I64): (units: Option<U64>)
    requires v.ValidatorVote?
    ensures units.Some? ==> units.value <= VOTE_UNITS
  {
    if v.tx !in s.timeOuts then Some(1000)
    else if ts > s.timeOuts[v.tx] then Some(1000)
    else if !rules.keyParses(v.publicKey) then Some(2000)
    else if !rules.signatureParses(v.signature) then Some(2500)
    else if v.publicKey !in rules.listedKeys then Some(3000)
    else None
  }

  predicate SignatureHolds(v: Action, rules: Rules)
    requires v.ValidatorVote?
  {
    var message := rules.unsignedMessage(Message(v.tx, v.vote));
    message.Some? && rules.verifies(v.publicKey, v.signature, message.value)
  }

  /** Where the loop stands: still running with a running total, or left with an error. */
  datatype Scan = Running(total: U64, s: State) | Failed(units: U64, s: State)

  /** One iteration. */
  function Visit(scan: Scan, n: NodeID, v: Action, rules: Rules, actor: Address): Scan
    requires v.ValidatorVote? && n in rules.validators
  {
    if scan.Failed? || !rules.sameKey(rules.validators[n], v.publicKey) then scan
    else
      var w := rules.validators[n].weight;
      if scan.total + w > MAX_U64 then Failed(3500, scan.s)
      else if !SignatureHolds(v, rules) then Failed(4000, scan.s)
      else if (v.tx, actor) in scan.s.votes then Failed(5000, scan.s)
      else Running(scan.total + w, Windows.Cast(scan.s, v.tx, actor, v.vote, w, scan.total + w))
  }

  /** The loop over one order. */
  function ScanOrder(s: State, order: seq<NodeID>, v: Action, rules: Rules, actor: Address): Scan
    requires v.ValidatorVote? && forall n | n in order :: n in rules.validators
  {
    if order == [] then Running(0, s)
    else Visit(ScanOrder(s, order[..|order| - 1], v, rules, actor), order[|order| - 1], v, rules, actor)
  }

  // ---------- What does not depend on the order ----------

  function Matched(v: Action, rules: Rules): set<NodeID>
    requires v.ValidatorVote?
  {
    set n | n in rules.validators && rules.sameKey(rules.validators[n], v.publicKey)
  }

  /** The weight of the only entry that matches. */
  ghost function OnlyWeight(v: Action, rules: Rules): U64
    requires v.ValidatorVote? && |Matched(v, rules)| == 1
  {
    var n :| n in Matched(v, rules);
    rules.validators[n].weight
  }

  /** The first match is recorded, so the loop gets as far as a second one if there is one. */
  predicate ReachesSecond(s: State, v: Action, rules: Rules, actor: Address)
    requires v.ValidatorVote?
  {
    SignatureHolds(v, rules) && (v.tx, actor) !in s.votes
  }

  /** The vote is recorded: it is in time, from a listed key, one entry matches, and its actor has not voted. */
  ghost predicate Counts(s: State, v: Action, rules: Rules, ts: I64, actor: Address)
    requires v.ValidatorVote?
  {
    && Prelude(s, v, rules, ts) == None
    && |Matched(v, rules)| == 1
    && SignatureHolds(v, rules)
    && (v.tx, actor) !in s.votes
  }

  /** The vote succeeds without being recorded: nothing in the validator set matches its key. */
  predicate Idle(s: State, v: Action, rules: Rules, ts: I64)
    requires v.ValidatorVote?
  {
    Prelude(s, v, rules, ts) == None && Matched(v, rules) == {}
  }

  /** The committed state of a vote, with no order in sight. */
  ghost function VoteCommit(s: State, v: Action, rules: Rules, ts: I64, actor: Address): Option<State>
    requires v.ValidatorVote?
  {
    if Idle(s, v, rules, ts) then Some(s)
    else if Counts(s, v, rules, ts, actor) then
      var w := OnlyWeight(v, rules);
      Some(Windows.Cast(s, v.tx, actor, v.vote, w, w))
    else None
  }

  /** A vote that succeeds changes nothing exactly when nothing matches. */
  lemma IdleCommits(s: State, v: Action, rules: Rules, ts: I64, actor: Address)
    requires v.ValidatorVote?
    ensures VoteCommit(s, v, rules, ts, actor) == Some(s) <==> Idle(s, v, rules, ts)
  {
    if Counts(s, v, rules, ts, actor) {
      var w := OnlyWeight(v, rules);
      assert (v.tx, actor) in Windows.Cast(s, v.tx, actor, v.vote, w, w).votes;
    }
  }

  // ---------- The loop depends only on the matching entries, in their order ----------

  function Matches(order: seq<NodeID>, v: Action, rules: Rules): seq<NodeID>
    requires v.ValidatorVote? && forall n | n in order :: n in rules.validators
  {
    if order == [] then []
    else
      var last := order[|order| - 1];
      Matches(order[..|order| - 1], v, rules)
      + if rules.sameKey(rules.validators[last], v.publicKey) then [last] else []
  }

  /** The result by cases on how many entries match: a second match always fails. */
  function ByMatches(s: State, matches: seq<NodeID>, v: Action, rules: Rules, actor: Address): Scan
    requires v.ValidatorVote? && forall n | n in matches :: n in rules.validators
  {
    if matches == [] then Running(0, s)
    else if !SignatureHolds(v, rules) then Failed(4000, s)
    else if (v.tx, actor) in s.votes then Failed(5000, s)
    else
      var w := rules.validators[matches[0]].weight;
      var once := Windows.Cast(s, v.tx, actor, v.vote, w, w);
      if |matches| == 1 then Running(w, once)
      else if w + rules.validators[matches[1]].weight > MAX_U64 then Failed(3500, once)
      else Failed(5000, once)
  }

  lemma {:induction false} ScanIsByMatches(s: State, order: seq<NodeID>, v: Action, rules: Rules, actor: Address)
    requires v.ValidatorVote? && forall n | n in order :: n in rules.validators
    ensures forall n | n in Matches(order, v, rules) :: n in order
    ensures ScanOrder(s, order, v, rules, actor) == ByMatches(s, Matches(order, v, rules), v, rules, actor)
  {
    if order != [] {
      ScanIsByMatches(s, order[..|order| - 1], v, rules, actor);
    }
  }

  /** The records that the loop writes, whether it then fails or not: those of the first match. */
  function ScanKeys(s: State, matches: seq<NodeID>, v: Action, rules: Rules, actor: Address): set<Key>
    requires v.ValidatorVote? && forall n | n in matches :: n in rules.validators
  {
    if matches == [] || !ReachesSecond(s, v, rules, actor) then {}
    else
      var w := rules.validators[matches[0]].weight;
      Windows.CastKeys(s, v.tx, actor, v.vote, w, w)
  }

  /** The records that Execute writes when the loop takes a given order. */
  function VoteKeys(s: State, order: seq<NodeID>, v: Action, rules: Rules, ts: I64, actor: Address): set<Key>
    requires v.ValidatorVote? && forall n | n in order :: n in rules.validators
  {
    if Prelude(s, v, rules, ts).Some? then {} else MatchKeys(s, order, v, rules, actor)
  }

  function MatchKeys(s: State, order: seq<NodeID>, v: Action, rules: Rules, actor: Address): set<Key>
    requires v.ValidatorVote? && forall n | n in order :: n in rules.validators
  {
    ScanIsByMatches(s, order, v, rules, actor);
    ScanKeys(s, Matches(order, v, rules), v, rules, actor)
  }

  /** The units that a vote reports when the loop takes a given order. */
  function VoteUnits(s: State, order: seq<NodeID>, v: Action, rules: Rules, ts: I64, actor: Address): (units: U64)
    requires v.ValidatorVote? && forall n | n in order :: n in rules.validators
    ensures units <= VOTE_UNITS
  {
    match Prelude(s, v, rules, ts)
    case Some(units) => units
    case None =>
      ScanIsByMatches(s, order, v, rules, actor);
      match ScanOrder(s, order, v, rules, actor)
      case Running(_, _) => VOTE_UNITS
      case Failed(units, _) => units
  }

  lemma {:induction false} MatchesAppend(p: seq<NodeID>, q: seq<NodeID>, v: Action, rules: Rules)
    requires v.ValidatorVote? && forall n | n in p + q :: n in rules.validators
    ensures forall n | n in p :: n in rules.validators
    ensures forall n | n in q :: n in rules.validators
    ensures Matches(p + q, v, rules) == Matches(p, v, rules) + Matches(q, v, rules)
  {
    if q == [] {
      assert p + q == p;
    } else {
      assert (p + q)[..|p + q| - 1] == p + q[..|q| - 1];
      MatchesAppend(p, q[..|q| - 1], v, rules);
    }
    assert forall i | 0 <= i < |p| :: p[i] == (p + q)[i];
    assert forall i | 0 <= i < |q| :: q[i] == (p + q)[|p| + i];
  }

  lemma {:induction false} MatchesEnumerate(order: seq<NodeID>, keys: set<NodeID>, v: Action, rules: Rules)
    requires v.ValidatorVote? && keys <= rules.validators.Keys && IsEnumeration(order, keys)
    ensures IsEnumeration(Matches(order, v, rules), keys * Matched(v, rules))
  {
    if order != [] {
      var init, last := order[..|order| - 1], order[|order| - 1];
      assert order == init + [last];
      assert IsEnumeration(init, keys - {last}) by {
        forall n ensures n in init <==> n in keys - {last} {
          if n in init {
            var i :| 0 <= i < |init| && init[i] == n;
            assert order[i] != last;
          }
          if n in keys - {last} { assert n in order; }
        }
      }
      MatchesEnumerate(init, keys - {last}, v, rules);
      var prefix := Matches(init, v, rules);
      assert last !in prefix;
    }
  }

  /** Success and the committed state are the same for every order; success leaves no room for a second match. */
  lemma ScanCommits(s: State, order: seq<NodeID>, v: Action, rules: Rules, ts: I64, actor: Address)
    requires v.ValidatorVote? && IsEnumeration(order, rules.validators.Keys)
    requires Prelude(s, v, rules, ts) == None
    ensures var scan := ScanOrder(s, order, v, rules, actor);
      && (scan.Running? <==> VoteCommit(s, v, rules, ts, actor).Some?)
      && (scan.Running? ==> VoteCommit(s, v, rules, ts, actor) == Some(scan.s) && |Matched(v, rules)| <= 1)
      && (scan.Running? ==> scan.total == if Matched(v, rules) == {} then 0 else OnlyWeight(v, rules))
  {
    var keys := rules.validators.Keys;
    var matches := Matches(order, v, rules);
    ScanIsByMatches(s, order, v, rules, actor);
    MatchesEnumerate(order, keys, v, rules);
    assert keys * Matched(v, rules) == Matched(v, rules);
    EnumerationSize(matches, Matched(v, rules));
    if |Matched(v, rules)| == 1 {
      var n :| n in Matched(v, rules) && OnlyWeight(v, rules) == rules.validators[n].weight;
      assert n in matches && n == matches[0];
    }
  }

  /** Any two orders agree on success and, when they succeed, on the state. */
  lemma OrdersAgree(s: State, order: seq<NodeID>, order': seq<NodeID>, v: Action, rules: Rules, ts: I64, actor: Address)
    requires v.ValidatorVote? && Prelude(s, v, rules, ts) == None
    requires IsEnumeration(order, rules.validators.Keys) && IsEnumeration(order', rules.validators.Keys)
    ensures var scan, scan' := ScanOrder(s, order, v, rules, actor), ScanOrder(s, order', v, rules, actor);
      && (scan.Running? <==> scan'.Running?)
      && (scan.Running? ==> scan == scan')
  {
    ScanCommits(s, order, v, rules, ts, actor);
    ScanCommits(s, order', v, rules, ts, actor);
  }

  // ---------- Execute ----------

  /** The loop body for an entry whose key matches: the units of a failure, or the new running total. */
  method CountEntry(v: Action, rules: Rules, mu: Storage.Store, n: NodeID, totalWeight: U64, actor: Address)
    returns (failure: Option<U64>, total: U64)
    requires v.ValidatorVote? && mu.Valid() && n in rules.validators
    requires rules.sameKey(rules.validators[n], v.publicKey)
    modifies mu
    ensures mu.Valid() && SameOutside(old(mu.data), mu.data)
    ensures Visit(Running(totalWeight, old(mu.st)), n, v, rules, actor)
         == if failure.Some? then Failed(failure.value, mu.st) else Running(total, mu.st)
    ensures mu.written == old(mu.written)
         + if failure.Some? then {}
           else Windows.CastKeys(old(mu.st), v.tx, actor, v.vote, rules.validators[n].weight, total)
  {
    total := totalWeight;
    var w := rules.validators[n].weight;
    if total + w > MAX_U64 {
      return Some(3500), total;
    }
    total := total + w;
    var msg := GetMessage(v.tx, v.vote);
    var unsigned := rules.unsignedMessage(msg[..]);
    if unsigned.None? {
      return Some(4000), total;
    }
    if !rules.verifies(v.publicKey, v.signature, unsigned.value) {
      return Some(4000), total;
    }
    var voted := mu.GetVote(v.tx, actor);
    if voted {
      return Some(5000), total;
    }
    if v.vote {
      mu.UpdateWeight(v.tx, w, total);
    }
    mu.StoreVote(v.tx, actor);
    return None, total;
  }

  lemma ListNext(before: seq<NodeID>, n: NodeID, keys: set<NodeID>, remaining: set<NodeID>)
    requires n in keys && n !in remaining && remaining <= keys
    requires IsEnumeration(before, keys - (remaining + {n}))
    ensures IsEnumeration(before + [n], keys - remaining)
  {
    AppendEnumeration(before, keys - (remaining + {n}), [n], {n});
    assert keys - (remaining + {n}) + {n} == keys - remaining;
  }

  /** An entry that does not match changes nothing. */
  lemma SkipStep(s: State, before: seq<NodeID>, n: NodeID, v: Action, rules: Rules, actor: Address)
    requires v.ValidatorVote? && (forall m | m in before :: m in rules.validators) && n in rules.validators
    requires !rules.sameKey(rules.validators[n], v.publicKey)
    ensures forall m | m in before + [n] :: m in rules.validators
    ensures ScanOrder(s, before + [n], v, rules, actor) == ScanOrder(s, before, v, rules, actor)
    ensures MatchKeys(s, before + [n], v, rules, actor) == MatchKeys(s, before, v, rules, actor)
  {
    assert (before + [n])[..|before|] == before;
  }

  /** A matching entry writes only if it is the first match: a second one fails before it writes. */
  lemma KeysAppend(s: State, matches: seq<NodeID>, n: NodeID, v: Action, rules: Rules, actor: Address)
    requires v.ValidatorVote? && (forall m | m in matches :: m in rules.validators) && n in rules.validators
    requires ByMatches(s, matches, v, rules, actor).Running? && rules.sameKey(rules.validators[n], v.publicKey)
    ensures forall m | m in matches + [n] :: m in rules.validators
    ensures var scan := ByMatches(s, matches, v, rules, actor);
      var next := Visit(scan, n, v, rules, actor);
      ScanKeys(s, matches + [n], v, rules, actor)
      == ScanKeys(s, matches, v, rules, actor)
         + if next.Failed? then {}
           else Windows.CastKeys(scan.s, v.tx, actor, v.vote, rules.validators[n].weight, next.total)
  {
    if matches == [] {
      assert matches + [n] == [n] && ByMatches(s, matches, v, rules, actor) == Running(0, s);
    } else {
      assert (matches + [n])[0] == matches[0];
      assert (v.tx, actor) in ByMatches(s, matches, v, rules, actor).s.votes;
    }
  }

  lemma KeysStep(s: State, before: seq<NodeID>, n: NodeID, v: Action, rules: Rules, actor: Address)
    requires v.ValidatorVote? && (forall m | m in before :: m in rules.validators) && n in rules.validators
    requires ScanOrder(s, before, v, rules, actor).Running? && rules.sameKey(rules.validators[n], v.publicKey)
    ensures forall m | m in before + [n] :: m in rules.validators
    ensures var scan := ScanOrder(s, before, v, rules, actor);
      var next := Visit(scan, n, v, rules, actor);
      && ScanOrder(s, before + [n], v, rules, actor) == next
      && MatchKeys(s, before + [n], v, rules, actor)
      == MatchKeys(s, before, v, rules, actor)
         + if next.Failed? then {}
           else Windows.CastKeys(scan.s, v.tx, actor, v.vote, rules.validators[n].weight, next.total)
  {
    assert (before + [n])[..|before|] == before;
    ScanIsByMatches(s, before, v, rules, actor);
    KeysAppend(s, Matches(before, v, rules), n, v, rules, actor);
  }

  method Execute(v: Action, rules: Rules, mu: Storage.Store, ts: I64, actor: Address)
    returns (success: bool, units: U64, ghost order: seq<NodeID>)
    requires v.ValidatorVote? && mu.Valid()
    modifies mu
    ensures mu.Valid() && SameOutside(old(mu.data), mu.data)
    ensures success <==> VoteCommit(old(mu.st), v, rules, ts, actor).Some?
    ensures success ==> units == VOTE_UNITS && Some(mu.st) == VoteCommit(old(mu.st), v, rules, ts, actor)
    ensures Prelude(old(mu.st), v, rules, ts).Some? ==> mu.st == old(mu.st)
    ensures IsEnumeration(order, rules.validators.Keys)
    ensures units == VoteUnits(old(mu.st), order, v, rules, ts, actor)
    ensures mu.written == old(mu.written) + VoteKeys(old(mu.st), order, v, rules, ts, actor)
    ensures !success && Prelude(old(mu.st), v, rules, ts) == None ==>
              ScanOrder(old(mu.st), order, v, rules, actor) == Failed(units, mu.st)
  {
    order := AnyEnumeration(rules.validators.Keys);
    var timeOut := mu.GetTimeOut(v.tx);
    if timeOut.None? {
      return false, 1000, order;
    }
    if ts > timeOut.value {
      return false, 1000, order;
    }
    if !rules.keyParses(v.publicKey) {
      return false, 2000, order;
    }
    if !rules.signatureParses(v.signature) {
      return false, 2500, order;
    }
    if v.publicKey !in rules.listedKeys {
      return false, 3000, order;
    }
    ghost var s := mu.st;
    var failure;
    failure, order := CountMatches(v, rules, mu, actor);
    ScanCommits(s, order, v, rules, ts, actor);
    if failure.Some? {
      return false, failure.value, order;
    }
    return true, VOTE_UNITS, order;
  }

  /** The loop body. The ghost parameters say where the loop started, and what it has visited. */
  method VisitEntry(v: Action, rules: Rules, mu: Storage.Store, n: NodeID, totalWeight: U64, actor: Address,
      ghost s: State, ghost before: seq<NodeID>, ghost base: set<Key>)
    returns (failure: Option<U64>, total: U64)
    requires v.ValidatorVote? && mu.Valid()
    requires (forall m | m in before :: m in rules.validators) && n in rules.validators
    requires ScanOrder(s, before, v, rules, actor) == Running(totalWeight, mu.st)
    requires mu.written == base + MatchKeys(s, before, v, rules, actor)
    modifies mu
    ensures mu.Valid() && SameOutside(old(mu.data), mu.data)
    ensures forall m | m in before + [n] :: m in rules.validators
    ensures ScanOrder(s, before + [n], v, rules, actor)
         == if failure.Some? then Failed(failure.value, mu.st) else Running(total, mu.st)
    ensures mu.written == base + MatchKeys(s, before + [n], v, rules, actor)
  {
    if rules.sameKey(rules.validators[n], v.publicKey) {
      KeysStep(s, before, n, v, rules, actor);
      failure, total := CountEntry(v, rules, mu, n, totalWeight, actor);
    } else {
      SkipStep(s, before, n, v, rules, actor);
      return None, totalWeight;
    }
  }

  /** The loop, in whatever order it takes: the units of a failure, if it fails. */
  method CountMatches(v: Action, rules: Rules, mu: Storage.Store, actor: Address)
    returns (failure: Option<U64>, ghost order: seq<NodeID>)
    requires v.ValidatorVote? && mu.Valid()
    modifies mu
    ensures mu.Valid() && SameOutside(old(mu.data), mu.data)
    ensures IsEnumeration(order, rules.validators.Keys)
    ensures var scan := ScanOrder(old(mu.st), order, v, rules, actor);
      scan.s == mu.st && if failure.Some? then scan.Failed? && scan.units == failure.value else scan.Running?
    ensures mu.written == old(mu.written) + MatchKeys(old(mu.st), order, v, rules, actor)
  {
    ghost var s := mu.st;
    order := [];
    var totalWeight: U64 := 0;
    var remaining := rules.validators.Keys;
    while remaining != {}
      invariant remaining <= rules.validators.Keys
      invariant IsEnumeration(order, rules.validators.Keys - remaining)
      invariant mu.Valid() && SameOutside(old(mu.data), mu.data)
      invariant ScanOrder(s, order, v, rules, actor) == Running(totalWeight, mu.st)
      invariant mu.written == old(mu.written) + MatchKeys(s, order, v, rules, actor)
    {
      var n :| n in remaining;
      remaining := remaining - {n};
      ghost var before := order;
      order := order + [n];
      ListNext(before, n, rules.validators.Keys, remaining);
      var total;
      failure, total := VisitEntry(v, rules, mu, n, totalWeight, actor, s, before, old(mu.written));
      if failure.Some? {
        order := Completed(s, order, remaining, v, rules, actor);
        return;
      }
      totalWeight := total;
    }
    return None, order;
  }

  /** After a failure the entries that were not visited can be listed in any order. */
  ghost function Completed(
      s: State, order: seq<NodeID>, remaining: set<NodeID>, v: Action, rules: Rules, actor: Address)
    : (full: seq<NodeID>)
    requires v.ValidatorVote? && remaining <= rules.validators.Keys
    requires IsEnumeration(order, rules.validators.Keys - remaining)
    requires ScanOrder(s, order, v, rules, actor).Failed?
    ensures IsEnumeration(full, rules.validators.Keys)
    ensures ScanOrder(s, full, v, rules, actor) == ScanOrder(s, order, v, rules, actor)
    ensures MatchKeys(s, full, v, rules, actor) == MatchKeys(s, order, v, rules, actor)
  {
    var rest := AnyEnumeration(remaining);
    var full := order + rest;
    FailureStays(s, order, rest, v, rules, actor);
    ScanIsByMatches(s, order, v, rules, actor);
    MatchesAppend(order, rest, v, rules);
    AppendEnumeration(order, rules.validators.Keys - remaining, rest, remaining);
    assert rules.validators.Keys - remaining + remaining == rules.validators.Keys;
    full
  }

  lemma {:induction false} FailureStays(
      s: State, order: seq<NodeID>, rest: seq<NodeID>, v: Action, rules: Rules, actor: Address)
    requires v.ValidatorVote?
    requires forall n | n in order :: n in rules.validators
    requires forall n | n in rest :: n in rules.validators
    requires ScanOrder(s, order, v, rules, actor).Failed?
    ensures forall n | n in order + rest :: n in rules.validators
    ensures ScanOrder(s, order + rest, v, rules, actor) == ScanOrder(s, order, v, rules, actor)
  {
    if rest == [] {
      assert order + rest == order;
    } else {
      var init := rest[..|rest| - 1];
      FailureStays(s, order, init, v, rules, actor);
      assert (order + rest)[..|order + rest| - 1] == order + init;
    }
  }
}
