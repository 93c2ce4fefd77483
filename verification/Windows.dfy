/** What opening a voting window and casting a vote do to the typed state. */
module Windows {
  import opened Encoding
  import opened Keys
  import opened Records

  const MIN_TIME_OUT: U64 := 20
  const MAX_TIME_OUT: U64 := 300
  const MILLIS := 1000

  function Clamp(timeOut: U64): (c: U64)
    ensures MIN_TIME_OUT <= c <= MAX_TIME_OUT
  {
    if timeOut < MIN_TIME_OUT then MIN_TIME_OUT
    else if timeOut > MAX_TIME_OUT then MAX_TIME_OUT
    else timeOut
  }

  /** The last timestamp at which a vote is accepted: a wrapping 64-bit sum. */
  function Deadline(start: I64, timeOut: U64): I64 {
    WrapI64(start + Clamp(timeOut) * MILLIS)
  }

  /** 64-bit milliseconds: the exact sum if it fits, else the sum less 2^64. */
  predicate ClosesAfter(deadline: I64, start: I64, seconds: nat) {
    deadline == start + seconds * 1000 || deadline == start + seconds * 1000 - TWO64
  }

  /** A time-out of 20 to 300 seconds is taken as it is; a shorter one counts as 20, a longer one as 300. */
  lemma DeadlineExactly(start: I64, timeOut: U64)
    ensures 20 <= timeOut <= 300 ==> ClosesAfter(Deadline(start, timeOut), start, timeOut)
    ensures timeOut < 20 ==> ClosesAfter(Deadline(start, timeOut), start, 20)
    ensures timeOut > 300 ==> ClosesAfter(Deadline(start, timeOut), start, 300)
  {
    var n := start + Clamp(timeOut) * MILLIS;
    if n > MAX_I64 {
      assert n + TWO63 - TWO64 == (n + TWO63) % TWO64;
    } else {
      assert n + TWO63 == (n + TWO63) % TWO64;
    }
  }

  /**
   * The window stays open for 20 to 300 seconds exactly when the sum does not wrap; else it is closed
   * from the start.
   */
  lemma DeadlineBounds(start: I64, timeOut: U64)
    ensures var millis := if timeOut < 20 then 20000 else if timeOut > 300 then 300000 else timeOut * 1000;
      && (start + 20000 <= Deadline(start, timeOut) <= start + 300000 <==> start + millis <= MAX_I64)
      && (Deadline(start, timeOut) < start <==> start + millis > MAX_I64)
  {
    DeadlineExactly(start, timeOut);
  }

  function OpenWindow(s: State, tx: ID, timeOut: U64, ts: I64): State {
    s.(timeOuts := s.timeOuts[tx := Deadline(ts, timeOut)])
  }

  /** UpdateWeight: the first weight is stored as it is; later ones are added modulo 2^64 and may set the status. */
  function AddWeight(s: State, tx: ID, weight: U64, totalWeight: U64): State {
    if tx !in s.weights then s.(weights := s.weights[tx := weight])
    else
      var tally := (s.weights[tx] + weight) % TWO64;
      s.(weights := s.weights[tx := tally],
         statuses := if tally > totalWeight then s.statuses + {tx} else s.statuses)
  }

  /**
   * The records that UpdateWeight inserts: the status is written again each time the new tally is above
   * totalWeight.
   */
  function WeightKeys(s: State, tx: ID, weight: U64, totalWeight: U64): set<Key> {
    if tx in s.weights && (s.weights[tx] + weight) % TWO64 > totalWeight then {Key.Weight(tx), Key.Status(tx)}
    else {Key.Weight(tx)}
  }

  function RecordVote(s: State, tx: ID, actor: Address): State {
    s.(votes := s.votes + {(tx, actor)})
  }

  /** One counted vote: the tally if it is a yes, and the voted record. */
  function Cast(s: State, tx: ID, actor: Address, yes: bool, weight: U64, totalWeight: U64): State {
    RecordVote(if yes then AddWeight(s, tx, weight, totalWeight) else s, tx, actor)
  }

  /** The records that a counted vote inserts. */
  function CastKeys(s: State, tx: ID, actor: Address, yes: bool, weight: U64, totalWeight: U64): set<Key> {
    (if yes then WeightKeys(s, tx, weight, totalWeight) else {}) + {Key.Vote(tx, actor)}
  }

  function StoreHash(s: State, image: ID, valType: U16, hash: Bytes): State {
    s.(hashes := s.hashes[(image, valType) := hash])
  }
}
