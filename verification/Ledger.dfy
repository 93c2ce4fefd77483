/** What balance operations do to the typed state, and the sum of all balances. */
module Ledger {
  import opened Encoding
  import opened Records

  /** A missing record reads as zero. */
  function BalanceOf(s: State, a: Address): U64 {
    if a in s.balances then s.balances[a] else 0
  }

  /** Writes a record even for a zero balance. */
  function Set(s: State, a: Address, balance: U64): State {
    s.(balances := s.balances[a := balance])
  }

  /** AddBalance: None when the new balance does not fit 64 bits. */
  function Credit(s: State, a: Address, amount: U64, create: bool): Option<State> {
    if a !in s.balances && !create then Some(s)
    else if BalanceOf(s, a) + amount > MAX_U64 then None
    else Some(Set(s, a, BalanceOf(s, a) + amount))
  }

  /** SubBalance: None when the balance is too small; an emptied account has no record. */
  function Debit(s: State, a: Address, amount: U64): Option<State> {
    if BalanceOf(s, a) < amount then None
    else if BalanceOf(s, a) == amount then Some(s.(balances := s.balances - {a}))
    else Some(Set(s, a, BalanceOf(s, a) - amount))
  }

  /** A credit fails exactly on overflow; it is dropped only for a missing account that it may not create. */
  lemma CreditExactly(s: State, a: Address, amount: U64, create: bool)
    ensures var balance := if a in s.balances then s.balances[a] else 0;
      Credit(s, a, amount, create)
      == if a !in s.balances && !create then Some(s)
         else if balance + amount >= 0x1_0000_0000_0000_0000 then None
         else Some(s.(balances := s.balances[a := balance + amount]))
  {
  }

  /** A debit fails exactly when it is not covered, and leaves a record exactly when something is left. */
  lemma DebitExactly(s: State, a: Address, amount: U64)
    ensures var balance := if a in s.balances then s.balances[a] else 0;
      Debit(s, a, amount)
      == if balance < amount then None
         else if balance > amount then Some(s.(balances := s.balances[a := balance - amount]))
         else Some(s.(balances := s.balances - {a}))
  {
  }

  /** Transfer.Execute, from a state that its failure leaves untouched. */
  function Move(s: State, from: Address, to: Address, amount: U64): Option<State> {
    if amount == 0 then None
    else match Debit(s, from, amount)
         case None => None
         case Some(debited) => Credit(debited, to, amount, true)
  }

  // ---------- The sum of all balances ----------

  ghost function Sum(m: map<Address, U64>): nat
    decreases |m|
  {
    if m == map[] then 0
    else
      var a :| a in m;
      m[a] + Sum(m - {a})
  }

  lemma {:induction false} SumWithout(m: map<Address, U64>, a: Address)
    requires a in m
    ensures Sum(m) == m[a] + Sum(m - {a})
    decreases |m|
  {
    var b :| b in m && Sum(m) == m[b] + Sum(m - {b});
    if a != b {
      SumWithout(m - {b}, a);
      SumWithout(m - {a}, b);
      assert m - {a} - {b} == m - {b} - {a};
    }
  }

  lemma SumUpdate(m: map<Address, U64>, a: Address, v: U64)
    ensures Sum(m[a := v]) == Sum(m) - (if a in m then m[a] else 0) + v
  {
    SumWithout(m[a := v], a);
    if a in m {
      SumWithout(m, a);
      assert m[a := v] - {a} == m - {a};
    } else {
      assert m[a := v] - {a} == m;
    }
  }

  lemma BalanceAtMostSum(s: State, a: Address)
    ensures BalanceOf(s, a) <= Sum(s.balances)
  {
    if a in s.balances { SumWithout(s.balances, a); }
  }

  lemma DebitSum(s: State, a: Address, amount: U64)
    requires Debit(s, a, amount).Some?
    ensures Sum(Debit(s, a, amount).value.balances) == Sum(s.balances) - amount
  {
    if BalanceOf(s, a) == amount {
      if a in s.balances {
        SumWithout(s.balances, a);
      } else {
        assert s.balances - {a} == s.balances;
      }
    } else {
      SumUpdate(s.balances, a, BalanceOf(s, a) - amount);
    }
  }

  /** Within a 64-bit total the overflow branch of AddBalance is dead. */
  lemma CreditSum(s: State, a: Address, amount: U64, create: bool)
    requires Sum(s.balances) + amount <= MAX_U64
    ensures Credit(s, a, amount, create).Some?
    ensures Sum(Credit(s, a, amount, create).value.balances)
         == Sum(s.balances) + (if create || a in s.balances then amount else 0)
  {
    BalanceAtMostSum(s, a);
    if create || a in s.balances { SumUpdate(s.balances, a, BalanceOf(s, a) + amount); }
  }

  /** A transfer of something that the sender can pay always succeeds and conserves the total, to oneself included. */
  lemma MoveConserves(s: State, from: Address, to: Address, amount: U64)
    requires Sum(s.balances) <= MAX_U64
    ensures Move(s, from, to, amount).Some? <==> 0 < amount <= BalanceOf(s, from)
    ensures Move(s, from, to, amount).Some? ==> Sum(Move(s, from, to, amount).value.balances) == Sum(s.balances)
  {
    if amount != 0 && Debit(s, from, amount).Some? {
      DebitSum(s, from, amount);
      CreditSum(Debit(s, from, amount).value, to, amount, true);
    }
  }

  /** The receiver's balance overflows after the sender has paid. */
  predicate Stranded(s: State, from: Address, to: Address, amount: U64) {
    && 0 < amount <= BalanceOf(s, from)
    && from != to
    && BalanceOf(s, to) + amount > MAX_U64
  }

  /**
   * A transfer fails because it is empty, because it cannot be paid, or, with the payment already made,
   * by an overflow.
   */
  lemma MoveFails(s: State, from: Address, to: Address, amount: U64)
    ensures Move(s, from, to, amount) == None
       <==> amount == 0 || BalanceOf(s, from) < amount || Stranded(s, from, to, amount)
    ensures Stranded(s, from, to, amount) ==> Debit(s, from, amount).Some? && Debit(s, from, amount).value != s
  {
    if amount > 0 && Debit(s, from, amount).Some? {
      var debited := Debit(s, from, amount).value;
      assert BalanceOf(debited, from) == BalanceOf(s, from) - amount;
      assert BalanceOf(debited, to) == BalanceOf(s, to) - if from == to then amount else 0;
    }
  }

  /** What each account holds after a transfer. */
  lemma MoveBalances(s: State, from: Address, to: Address, amount: U64, s': State)
    requires Move(s, from, to, amount) == Some(s')
    ensures s' == s.(balances := s'.balances)
    ensures from == to ==> s'.balances == s.balances
    ensures from != to ==>
              BalanceOf(s', from) == BalanceOf(s, from) - amount && BalanceOf(s', to) == BalanceOf(s, to) + amount
    ensures forall a: Address | a != from && a != to :: BalanceOf(s', a) == BalanceOf(s, a)
    ensures from in s'.balances <==> from == to || BalanceOf(s, from) > amount
  {
    if from == to {
      assert s'.balances == s.balances;
    }
  }

  // ---------- No empty records ----------

  ghost predicate Canonical(s: State) {
    forall a: Address | a in s.balances :: s.balances[a] > 0
  }

  /** Canonical ledgers that read alike are the same records. */
  lemma CanonicalDetermined(s: State, s': State)
    requires Canonical(s) && Canonical(s')
    requires forall a: Address :: BalanceOf(s, a) == BalanceOf(s', a)
    ensures s.balances == s'.balances
  {
    forall a: Address ensures a in s.balances <==> a in s'.balances
      ensures a in s.balances ==> s.balances[a] == s'.balances[a]
    {
      assert BalanceOf(s, a) == BalanceOf(s', a);
    }
  }

  lemma MoveCanonical(s: State, from: Address, to: Address, amount: U64)
    requires Canonical(s) && Move(s, from, to, amount).Some?
    ensures Canonical(Move(s, from, to, amount).value)
  {
  }
}
