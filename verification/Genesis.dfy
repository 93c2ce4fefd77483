/** Genesis.Load: allocations are written one by one while the supply is added up with a check. */
module Genesis {
  import opened Encoding
  import opened Records
  import opened Ledger
  import Storage

  /** The address is text; parsing it is an arbitrary partial function. */
  datatype Allocation = Allocation(address: string, balance: U64)

  type Parser = string -> Option<Address>

  /** The unbounded total of the first n allocations. */
  function Allocated(allocs: seq<Allocation>, n: nat): nat
    requires n <= |allocs|
  {
    if n == 0 then 0 else Allocated(allocs, n - 1) + allocs[n - 1].balance
  }

  /** The i-th allocation can be loaded: it parses, and the supply up to and including it fits 64 bits. */
  predicate Loadable(allocs: seq<Allocation>, i: nat, parse: Parser)
    requires i < |allocs|
  {
    parse(allocs[i].address).Some? && Allocated(allocs, i + 1) <= MAX_U64
  }

  /** Exactly the first n allocations are loaded: the next one, if there is one, is the first that cannot be. */
  ghost predicate LoadsExactly(allocs: seq<Allocation>, n: nat, parse: Parser) {
    && n <= |allocs|
    && (forall i | 0 <= i < n :: Loadable(allocs, i, parse))
    && (n < |allocs| ==> !Loadable(allocs, n, parse))
  }

  /** The last of the first n allocations that goes to an address, or -1. */
  function LastTo(allocs: seq<Allocation>, n: nat, parse: Parser, a: Address): (i: int)
    requires n <= |allocs|
    ensures -1 <= i < n
    ensures i >= 0 ==> parse(allocs[i].address) == Some(a)
    ensures forall j | i < j < n :: parse(allocs[j].address) != Some(a)
  {
    if n == 0 then -1
    else if parse(allocs[n - 1].address) == Some(a) then n - 1
    else LastTo(allocs, n - 1, parse, a)
  }

  function Holding(m: map<Address, U64>, a: Address): Option<U64> {
    if a in m then Some(m[a]) else None
  }

  /**
   * The balances that the first n allocations leave: the last one to an address wins; other addresses
   * are as before.
   */
  ghost predicate HoldsLast(
      before: map<Address, U64>, after: map<Address, U64>, allocs: seq<Allocation>, n: nat, parse: Parser)
    requires n <= |allocs|
  {
    forall a: Address ::
      var i := LastTo(allocs, n, parse, a);
      Holding(after, a) == if i >= 0 then Some(allocs[i].balance) else Holding(before, a)
  }

  /** `branchOk` is the outcome of the branch-factor check, which comes first. */
  method Load(branchOk: bool, allocs: seq<Allocation>, parse: Parser, mu: Storage.Store)
    returns (ok: bool, ghost loaded: nat)
    requires mu.Valid()
    modifies mu
    ensures mu.Valid() && SameOutside(old(mu.data), mu.data)
    ensures mu.st == old(mu.st).(balances := mu.st.balances)
    ensures !branchOk ==> !ok && loaded == 0
    ensures branchOk ==> LoadsExactly(allocs, loaded, parse)
    ensures branchOk ==> (ok <==> loaded == |allocs|)
    ensures HoldsLast(old(mu.st).balances, mu.st.balances, allocs, loaded, parse)
  {
    loaded := 0;
    if !branchOk {
      return false, 0;
    }
    var supply: U64 := 0;
    for i := 0 to |allocs|
      invariant mu.Valid() && SameOutside(old(mu.data), mu.data)
      invariant mu.st == old(mu.st).(balances := mu.st.balances)
      invariant loaded == i && supply == Allocated(allocs, i)
      invariant forall j | 0 <= j < i :: Loadable(allocs, j, parse)
      invariant HoldsLast(old(mu.st).balances, mu.st.balances, allocs, i, parse)
    {
      var addr := parse(allocs[i].address);
      if addr.None? {
        return false, i;
      }
      if supply + allocs[i].balance > MAX_U64 {
        return false, i;
      }
      supply := supply + allocs[i].balance;
      ghost var before := mu.st.balances;
      mu.SetBalance(addr.value, allocs[i].balance);
      loaded := i + 1;
      HoldsLastStep(old(mu.st).balances, before, allocs, i, parse, addr.value);
    }
    return true, |allocs|;
  }

  lemma HoldsLastStep(
      start: map<Address, U64>, before: map<Address, U64>,
      allocs: seq<Allocation>, n: nat, parse: Parser, addr: Address)
    requires n < |allocs| && HoldsLast(start, before, allocs, n, parse) && parse(allocs[n].address) == Some(addr)
    ensures HoldsLast(start, before[addr := allocs[n].balance], allocs, n + 1, parse)
  {
    var after := before[addr := allocs[n].balance];
    forall a: Address
      ensures var i := LastTo(allocs, n + 1, parse, a);
        Holding(after, a) == if i >= 0 then Some(allocs[i].balance) else Holding(start, a)
    {
      var i := LastTo(allocs, n, parse, a);
      assert Holding(before, a) == if i >= 0 then Some(allocs[i].balance) else Holding(start, a);
    }
  }

  // ---------- When everything loads ----------

  lemma {:induction false} AllocatedMonotone(allocs: seq<Allocation>, m: nat, n: nat)
    requires m <= n <= |allocs|
    ensures Allocated(allocs, m) <= Allocated(allocs, n)
  {
    if m < n { AllocatedMonotone(allocs, m, n - 1); }
  }

  /** Load succeeds exactly when every address parses and the allocations together fit 64 bits. */
  lemma LoadsAll(allocs: seq<Allocation>, n: nat, parse: Parser)
    requires LoadsExactly(allocs, n, parse)
    ensures n == |allocs| <==>
      (forall i | 0 <= i < |allocs| :: parse(allocs[i].address).Some?) && Allocated(allocs, |allocs|) <= MAX_U64
  {
    if n == |allocs| {
      forall i | 0 <= i < n ensures parse(allocs[i].address).Some? {
        assert Loadable(allocs, i, parse);
      }
      if n > 0 { assert Loadable(allocs, n - 1, parse); }
    } else {
      assert !Loadable(allocs, n, parse);
      AllocatedMonotone(allocs, n + 1, |allocs|);
    }
  }

  // ---------- The sum after loading ----------

  predicate DistinctAddresses(allocs: seq<Allocation>, n: nat, parse: Parser)
    requires n <= |allocs|
  {
    forall i, j | 0 <= i < j < n :: parse(allocs[i].address) != parse(allocs[j].address)
  }

  /** On an empty ledger the loaded balances sum to at most the supply, and to all of it when no address repeats. */
  lemma {:induction false} LoadedSum(after: map<Address, U64>, allocs: seq<Allocation>, n: nat, parse: Parser)
    requires n <= |allocs| && HoldsLast(map[], after, allocs, n, parse)
    requires forall i | 0 <= i < n :: parse(allocs[i].address).Some?
    ensures Sum(after) <= Allocated(allocs, n)
    ensures DistinctAddresses(allocs, n, parse) ==> Sum(after) == Allocated(allocs, n)
    decreases n
  {
    if n == 0 {
      forall a: Address ensures a !in after {
        assert Holding(after, a) == None;
      }
      assert after == map[];
    } else {
      var last := parse(allocs[n - 1].address).value;
      var init := Rewind(after, allocs, n, parse, last);
      LoadedSum(init, allocs, n - 1, parse);
      SumUpdate(init, last, allocs[n - 1].balance);
      if DistinctAddresses(allocs, n, parse) {
        assert LastTo(allocs, n - 1, parse, last) == -1;
        assert Holding(init, last) == None;
      }
    }
  }

  /** The balances before the last of n allocations. */
  lemma Rewind(after: map<Address, U64>, allocs: seq<Allocation>, n: nat, parse: Parser, last: Address)
    returns (init: map<Address, U64>)
    requires 0 < n <= |allocs| && HoldsLast(map[], after, allocs, n, parse)
    requires parse(allocs[n - 1].address) == Some(last)
    ensures HoldsLast(map[], init, allocs, n - 1, parse)
    ensures after == init[last := allocs[n - 1].balance]
  {
    var i := LastTo(allocs, n - 1, parse, last);
    init := if i >= 0 then after[last := allocs[i].balance] else after - {last};
    assert Holding(after, last) == Some(allocs[n - 1].balance);
    forall a: Address
      ensures var j := LastTo(allocs, n - 1, parse, a);
        Holding(init, a) == if j >= 0 then Some(allocs[j].balance) else None
    {
      if a != last {
        assert LastTo(allocs, n, parse, a) == LastTo(allocs, n - 1, parse, a);
        assert Holding(init, a) == Holding(after, a);
      }
    }
    assert after == init[last := allocs[n - 1].balance];
  }

  predicate LastPositiveTo(allocs: seq<Allocation>, n: nat, parse: Parser, a: Address)
    requires n <= |allocs|
  {
    var i := LastTo(allocs, n, parse, a);
    i >= 0 ==> allocs[i].balance > 0
  }

  ghost predicate LastPositive(allocs: seq<Allocation>, n: nat, parse: Parser)
    requires n <= |allocs|
  {
    forall a: Address :: LastPositiveTo(allocs, n, parse, a)
  }

  /** No zero record is left exactly when every address's last allocation is positive. */
  lemma LoadedCanonical(s: State, allocs: seq<Allocation>, n: nat, parse: Parser)
    requires n <= |allocs| && HoldsLast(map[], s.balances, allocs, n, parse)
    ensures Canonical(s) <==> LastPositive(allocs, n, parse)
  {
    if Canonical(s) {
      forall a: Address ensures LastPositiveTo(allocs, n, parse, a) {
        HoldingLast(s.balances, allocs, n, parse, a);
      }
    }
    if LastPositive(allocs, n, parse) {
      forall a: Address | a in s.balances ensures s.balances[a] > 0 {
        assert LastPositiveTo(allocs, n, parse, a);
        HoldingLast(s.balances, allocs, n, parse, a);
      }
    }
  }

  lemma HoldingLast(after: map<Address, U64>, allocs: seq<Allocation>, n: nat, parse: Parser, a: Address)
    requires n <= |allocs| && HoldsLast(map[], after, allocs, n, parse)
    ensures a in after <==> LastTo(allocs, n, parse, a) >= 0
    ensures a in after ==> after[a] == allocs[LastTo(allocs, n, parse, a)].balance
  {
    var i := LastTo(allocs, n, parse, a);
    assert Holding(after, a) == if i >= 0 then Some(allocs[i].balance) else None;
  }
}
