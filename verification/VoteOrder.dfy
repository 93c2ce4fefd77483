/** What a failed vote may report: the one thing that does depend on the order of iteration. */
module VoteOrder {
  import opened Encoding
  import opened Records
  import opened Actions
  import opened Voting
  import Windows

  predicate Overflow(a: NodeID, b: NodeID, rules: Rules)
    requires a in rules.validators && b in rules.validators
  {
    rules.validators[a].weight + rules.validators[b].weight > MAX_U64
  }

  /** Every two matching entries overflow together, or no two do. */
  ghost predicate PairsAgree(v: Action, rules: Rules)
    requires v.ValidatorVote?
  {
    forall a, b, c, d | {a, b, c, d} <= Matched(v, rules) && a != b && c != d ::
      Overflow(a, b, rules) == Overflow(c, d, rules)
  }

  /** Some order visits two given matching entries first. */
  lemma OrderFrom(a: NodeID, b: NodeID, v: Action, rules: Rules) returns (order: seq<NodeID>)
    requires v.ValidatorVote? && a != b && a in Matched(v, rules) && b in Matched(v, rules)
    ensures IsEnumeration(order, rules.validators.Keys)
    ensures [a, b] <= Matches(order, v, rules)
  {
    var keys := rules.validators.Keys;
    var rest := AnyEnumeration(keys - {a, b});
    order := [a, b] + rest;
    assert IsEnumeration([a, b], {a, b});
    AppendEnumeration([a, b], {a, b}, rest, keys - {a, b});
    assert {a, b} + (keys - {a, b}) == keys;
    MatchesAppend([a, b], rest, v, rules);
    PairMatches(a, b, v, rules);
  }

  lemma PairMatches(a: NodeID, b: NodeID, v: Action, rules: Rules)
    requires v.ValidatorVote? && a in Matched(v, rules) && b in Matched(v, rules)
    ensures Matches([a, b], v, rules) == [a, b]
  {
    assert [a, b][..1] == [a] && [a][..0] == [];
    assert Matches([a], v, rules) == [a];
  }

  /** The loop over an order that starts with two matching entries. */
  lemma ScanFrom(s: State, a: NodeID, b: NodeID, v: Action, rules: Rules, actor: Address) returns (order: seq<NodeID>)
    requires v.ValidatorVote? && a != b && a in Matched(v, rules) && b in Matched(v, rules)
    requires ReachesSecond(s, v, rules, actor)
    ensures IsEnumeration(order, rules.validators.Keys)
    ensures ScanOrder(s, order, v, rules, actor)
         == Failed(if Overflow(a, b, rules) then 3500 else 5000,
                   Windows.Cast(s, v.tx, actor, v.vote, rules.validators[a].weight, rules.validators[a].weight))
  {
    order := OrderFrom(a, b, v, rules);
    ScanIsByMatches(s, order, v, rules, actor);
    assert Matches(order, v, rules)[..2] == [a, b];
  }

  /** All orders report the same units exactly when the loop cannot tell one pair of matches from another. */
  lemma UnitsAgree(s: State, v: Action, rules: Rules, actor: Address)
    requires v.ValidatorVote?
    ensures
      (forall order, order' |
           IsEnumeration(order, rules.validators.Keys) && IsEnumeration(order', rules.validators.Keys) ::
        SameUnits(ScanOrder(s, order, v, rules, actor), ScanOrder(s, order', v, rules, actor)))
      <==> (ReachesSecond(s, v, rules, actor) ==> PairsAgree(v, rules))
  {
    if ReachesSecond(s, v, rules, actor) && !PairsAgree(v, rules) {
      var a, b, c, d :| {a, b, c, d} <= Matched(v, rules) && a != b && c != d
                     && Overflow(a, b, rules) != Overflow(c, d, rules);
      assert a in {a, b, c, d} && b in {a, b, c, d} && c in {a, b, c, d} && d in {a, b, c, d};
      var order := ScanFrom(s, a, b, v, rules, actor);
      var order' := ScanFrom(s, c, d, v, rules, actor);
      assert !SameUnits(ScanOrder(s, order, v, rules, actor), ScanOrder(s, order', v, rules, actor));
    } else {
      forall order, order' |
          IsEnumeration(order, rules.validators.Keys) && IsEnumeration(order', rules.validators.Keys)
        ensures SameUnits(ScanOrder(s, order, v, rules, actor), ScanOrder(s, order', v, rules, actor))
      {
        UnitsByPair(s, order, v, rules, actor);
        UnitsByPair(s, order', v, rules, actor);
        var m, m' := Matches(order, v, rules), Matches(order', v, rules);
        if ReachesSecond(s, v, rules, actor) && |m| >= 2 {
          assert {m[0], m[1], m'[0], m'[1]} <= Matched(v, rules);
        }
      }
    }
  }

  predicate SameUnits(scan: Scan, scan': Scan) {
    scan.Failed? == scan'.Failed? && (scan.Failed? && scan'.Failed? ==> scan.units == scan'.units)
  }

  lemma UnitsByPair(s: State, order: seq<NodeID>, v: Action, rules: Rules, actor: Address)
    requires v.ValidatorVote? && IsEnumeration(order, rules.validators.Keys)
    ensures IsEnumeration(Matches(order, v, rules), Matched(v, rules))
    ensures |Matches(order, v, rules)| == |Matched(v, rules)|
    ensures ScanOrder(s, order, v, rules, actor) == ByMatches(s, Matches(order, v, rules), v, rules, actor)
  {
    ScanIsByMatches(s, order, v, rules, actor);
    MatchesEnumerate(order, rules.validators.Keys, v, rules);
    assert rules.validators.Keys * Matched(v, rules) == Matched(v, rules);
    EnumerationSize(Matches(order, v, rules), Matched(v, rules));
  }

  /** A failed vote leaves writes behind exactly when the loop reached a second match. */
  lemma FailureWrites(s: State, order: seq<NodeID>, v: Action, rules: Rules, actor: Address)
    requires v.ValidatorVote? && IsEnumeration(order, rules.validators.Keys)
    ensures var scan := ScanOrder(s, order, v, rules, actor);
      scan.Failed? && scan.s != s <==> ReachesSecond(s, v, rules, actor) && |Matched(v, rules)| >= 2
  {
    UnitsByPair(s, order, v, rules, actor);
    assert (v.tx, actor) !in s.votes ==> forall w: U64 ::
        (v.tx, actor) in Windows.Cast(s, v.tx, actor, v.vote, w, w).votes;
  }

  /** All matching entries have one weight. */
  ghost predicate OneWeight(v: Action, rules: Rules)
    requires v.ValidatorVote?
  {
    forall a, b | a in Matched(v, rules) && b in Matched(v, rules) ::
      rules.validators[a].weight == rules.validators[b].weight
  }

  /** What the first match writes determines its weight, because adding modulo 2^64 can be undone. */
  lemma CastTells(s: State, tx: ID, actor: Address, w: U64, w': U64)
    ensures Windows.Cast(s, tx, actor, true, w, w) == Windows.Cast(s, tx, actor, true, w', w') ==> w == w'
  {
    var once, once' := Windows.Cast(s, tx, actor, true, w, w), Windows.Cast(s, tx, actor, true, w', w');
    if once == once' {
      assert once.weights[tx] == once'.weights[tx];
    }
  }

  /** All orders leave the same store exactly when the first match cannot be told by its weight. */
  lemma StoresAgree(s: State, v: Action, rules: Rules, actor: Address)
    requires v.ValidatorVote?
    ensures
      (forall order, order' |
           IsEnumeration(order, rules.validators.Keys) && IsEnumeration(order', rules.validators.Keys) ::
        ScanOrder(s, order, v, rules, actor).s == ScanOrder(s, order', v, rules, actor).s)
      <==> (ReachesSecond(s, v, rules, actor) && v.vote ==> OneWeight(v, rules))
  {
    if ReachesSecond(s, v, rules, actor) && v.vote && !OneWeight(v, rules) {
      var a, b :| a in Matched(v, rules) && b in Matched(v, rules)
               && rules.validators[a].weight != rules.validators[b].weight;
      var order := ScanFrom(s, a, b, v, rules, actor);
      var order' := ScanFrom(s, b, a, v, rules, actor);
      CastTells(s, v.tx, actor, rules.validators[a].weight, rules.validators[b].weight);
      assert ScanOrder(s, order, v, rules, actor).s != ScanOrder(s, order', v, rules, actor).s;
    } else {
      forall order, order' |
          IsEnumeration(order, rules.validators.Keys) && IsEnumeration(order', rules.validators.Keys)
        ensures ScanOrder(s, order, v, rules, actor).s == ScanOrder(s, order', v, rules, actor).s
      {
        UnitsByPair(s, order, v, rules, actor);
        UnitsByPair(s, order', v, rules, actor);
        var m, m' := Matches(order, v, rules), Matches(order', v, rules);
        if ReachesSecond(s, v, rules, actor) && m != [] {
          SameCast(s, m[0], m'[0], v, rules, actor);
        }
      }
    }
  }

  lemma SameCast(s: State, a: NodeID, b: NodeID, v: Action, rules: Rules, actor: Address)
    requires v.ValidatorVote? && a in Matched(v, rules) && b in Matched(v, rules)
    requires v.vote ==> OneWeight(v, rules)
    ensures var w, w' := rules.validators[a].weight, rules.validators[b].weight;
      Windows.Cast(s, v.tx, actor, v.vote, w, w) == Windows.Cast(s, v.tx, actor, v.vote, w', w')
  {
  }

  /** Two matches with different weights leave different stores behind, so determinism rests on undoing failures. */
  lemma FailureLeavesOrder(s: State, a: NodeID, b: NodeID, v: Action, rules: Rules, actor: Address)
    returns (order: seq<NodeID>, order': seq<NodeID>)
    requires v.ValidatorVote? && v.vote && ReachesSecond(s, v, rules, actor)
    requires a in Matched(v, rules) && b in Matched(v, rules)
    requires rules.validators[a].weight != rules.validators[b].weight
    ensures IsEnumeration(order, rules.validators.Keys) && IsEnumeration(order', rules.validators.Keys)
    ensures ScanOrder(s, order, v, rules, actor).Failed? && ScanOrder(s, order', v, rules, actor).Failed?
    ensures ScanOrder(s, order, v, rules, actor).s != ScanOrder(s, order', v, rules, actor).s
  {
    StoresAgree(s, v, rules, actor);
    order, order' :| IsEnumeration(order, rules.validators.Keys) && IsEnumeration(order', rules.validators.Keys)
                  && ScanOrder(s, order, v, rules, actor).s != ScanOrder(s, order', v, rules, actor).s;
    TwoFail(s, a, b, order, v, rules, actor);
    TwoFail(s, a, b, order', v, rules, actor);
  }

  /** With two matches every order fails, and the only units it can report are those of a second match. */
  lemma TwoFail(s: State, a: NodeID, b: NodeID, order: seq<NodeID>, v: Action, rules: Rules, actor: Address)
    requires v.ValidatorVote? && ReachesSecond(s, v, rules, actor)
    requires a in Matched(v, rules) && b in Matched(v, rules) && a != b
    requires IsEnumeration(order, rules.validators.Keys)
    ensures ScanOrder(s, order, v, rules, actor).Failed?
    ensures ScanOrder(s, order, v, rules, actor).units in {3500, 5000}
  {
    UnitsByPair(s, order, v, rules, actor);
    var m := Matches(order, v, rules);
    assert a in m && b in m;
  }
}
