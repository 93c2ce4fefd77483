/** The actions a transaction can carry, and what the chain supplies while one executes. */
module Actions {
  import opened Encoding
  import opened Keys

  datatype Action =
    | Transfer(to: Address, value: U64)
    | Register(provingSystem: U64)
    | RegisterImage(image: ID, valType: U64, rootHash: Bytes)
    | ValidatorVote(tx: ID, vote: bool, signature: Bytes, publicKey: Bytes)
    | SP1(image: ID, proofValType: U64, timeOutBlocks: U64)
    | Miden(image: ID, proofValType: U64, code: Bytes, inputs: Bytes, outputs: Bytes, timeOutBlocks: U64)
    | RiscZero(image: ID, proofValType: U64, riscZeroImage: Bytes, timeOutBlocks: U64)
    | Jolt(image: ID, proofValType: U64, timeOutBlocks: U64)
    | Plonky2(image: ID, proofValType: U64, commonDataValType: U64, verifierDataValType: U64, timeOutBlocks: U64)

  /** The actions that open a voting window for their own transaction. */
  predicate IsProof(a: Action) {
    a.SP1? || a.Miden? || a.RiscZero? || a.Jolt? || a.Plonky2?
  }

  type NodeID = Bytes

  /** `handle` stands for the pointer held in the validator set. */
  datatype Validator = Validator(handle: nat, weight: U64)

  /** The chain rules a vote consults. Cryptography and pointer comparison are arbitrary functions. */
  datatype Rules = Rules(
    keyParses: Bytes -> bool,
    signatureParses: Bytes -> bool,
    listedKeys: set<Bytes>,
    validators: map<NodeID, Validator>,
    sameKey: (Validator, Bytes) -> bool,
    unsignedMessage: Bytes -> Option<Bytes>,
    verifies: (Bytes, Bytes, Bytes) -> bool)

  // ---------- The bytes that validators sign ----------

  function Message(tx: ID, yes: bool): (m: Bytes) {
    tx + [if yes then 1 else 0]
  }

  /** 33 bytes: the ID, and then 1 for yes and 0 for no. */
  lemma MessageLayout(tx: ID, yes: bool)
    ensures |Message(tx, yes)| == 33 && Message(tx, yes)[..32] == tx
    ensures Message(tx, true)[32] == 1 && Message(tx, false)[32] == 0
  {
  }

  method GetMessage(tx: ID, yes: bool) returns (msg: array<Byte>)
    ensures fresh(msg) && msg[..] == Message(tx, yes)
  {
    msg := new Byte[ID_LEN + 1](_ => 0);
    CopyInto(msg, 0, tx, []);
    if yes {
      CopyInto(msg, ID_LEN, [1], tx);
    } else {
      CopyInto(msg, ID_LEN, [0], tx);
    }
  }

  /** A signature speaks for one transaction and one answer. */
  lemma MessageInjective(tx: ID, yes: bool, tx': ID, yes': bool)
    ensures Message(tx, yes) == Message(tx', yes') <==> tx == tx' && yes == yes'
  {
    if Message(tx, yes) == Message(tx', yes') {
      assert Message(tx, yes)[ID_LEN] == Message(tx', yes')[ID_LEN];
      SplitPrefix(tx, [if yes then 1 else 0], tx', [if yes' then 1 else 0]);
    }
  }

  // ---------- Declared state keys ----------

  /** The conversion uint16(n). */
  function Low16(n: U64): U16 {
    n % TWO16
  }

  function StateKeys(a: Action, actor: Address, txID: ID): set<Bytes> {
    match a
    case Transfer(to, _) => {KeyBytes(Key.Balance(actor)), KeyBytes(Key.Balance(to))}
    case Register(_) => {}
    case RegisterImage(image, valType, _) => {KeyBytes(Key.Hash(image, Low16(valType)))}
    case ValidatorVote(tx, _, _, _) =>
      {KeyBytes(Key.TimeOut(tx)), KeyBytes(Key.Weight(tx)), KeyBytes(Key.Status(txID)), KeyBytes(Key.Vote(tx, actor))}
    case _ => {KeyBytes(Key.TimeOut(txID))}
  }

  function SponsorStateKeys(sponsor: Address): set<Bytes> {
    {KeyBytes(Key.Balance(sponsor))}
  }

  // ---------- The declared keys, byte by byte: these and no others ----------

  lemma TransferKeysLayout(a: Action, actor: Address, txID: ID)
    requires a.Transfer?
    ensures StateKeys(a, actor, txID) == {[0x0] + actor + [0, 1], [0x0] + a.to + [0, 1]}
    ensures SponsorStateKeys(actor) == {[0x0] + actor + [0, 1]}
  {
    KeyLayout(Key.Balance(actor));
    KeyLayout(Key.Balance(a.to));
  }

  lemma ImageKeysLayout(a: Action, actor: Address, txID: ID)
    requires a.RegisterImage?
    ensures StateKeys(a, actor, txID) == {[0x7] + a.image + [a.valType / 256 % 256, a.valType % 256] + [0, 10]}
  {
    var t := Low16(a.valType);
    KeyLayout(Key.Hash(a.image, t));
    assert t / 256 == a.valType / 256 % 256 && t % 256 == a.valType % 256;
  }

  lemma VoteKeysLayout(a: Action, actor: Address, txID: ID)
    requires a.ValidatorVote?
    ensures StateKeys(a, actor, txID)
         == {[0x8] + a.tx + [0, 1], [0x9] + a.tx + [0, 1], [0xa] + txID + [0, 1], [0xb] + a.tx + actor + [0, 1]}
  {
    KeyLayout(Key.TimeOut(a.tx));
    KeyLayout(Key.Weight(a.tx));
    KeyLayout(Key.Status(txID));
    KeyLayout(Key.Vote(a.tx, actor));
  }

  lemma OtherKeysLayout(a: Action, actor: Address, txID: ID)
    ensures a.Register? ==> StateKeys(a, actor, txID) == {}
    ensures a.SP1? || a.Miden? || a.RiscZero? || a.Jolt? || a.Plonky2? ==>
              StateKeys(a, actor, txID) == {[0x8] + txID + [0, 1]}
  {
    KeyLayout(Key.TimeOut(txID));
  }
}
