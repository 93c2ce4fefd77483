/** registry.go: one decoder for each type ID, and what decoding through it means. */
module Registry {
  import opened Encoding
  import opened Actions
  import opened Codec
  import opened Packing

  /** codec.TypeParser: a type ID can be registered once. */
  class TypeParser {
    var decoders: map<Byte, Kind>

    constructor ()
      ensures decoders == map[]
    {
      decoders := map[];
    }

    method Register(tag: Byte, k: Kind) returns (ok: bool)
      modifies this
      ensures ok <==> tag !in old(decoders.Keys)
      ensures decoders == if ok then old(decoders)[tag := k] else old(decoders)
    {
      ok := tag !in decoders;
      if ok {
        decoders := decoders[tag := k];
      }
    }

    /** Each type ID leads to the decoder of its own kind. */
    ghost predicate Faithful()
      reads this
    {
      forall tag: Byte | tag in decoders :: KindWith(tag) == Some(decoders[tag])
    }

    /** Every kind of action, and nothing else, can be decoded. */
    ghost predicate Complete()
      reads this
    {
      Faithful() && forall tag: Byte :: tag in decoders.Keys <==> KindWith(tag).Some?
    }
  }

  /** Registers a kind's decoder under the kind's own type ID. */
  method RegisterKind(actions: TypeParser, k: Kind) returns (ok: bool)
    requires actions.Faithful()
    modifies actions
    ensures actions.Faithful()
    ensures ok <==> TypeID(k) !in old(actions.decoders.Keys)
    ensures actions.decoders.Keys == old(actions.decoders.Keys) + {TypeID(k)}
  {
    KindWithTypeID(k);
    ok := actions.Register(TypeID(k), k);
  }

  method RegisterLedger(actions: TypeParser) returns (ok: bool)
    requires actions.Faithful() && actions.decoders.Keys == {}
    modifies actions
    ensures actions.Faithful() && ok && actions.decoders.Keys == {0, 1, 2}
  {
    var ok1 := RegisterKind(actions, TransferK);
    var ok2 := RegisterKind(actions, RegisterK);
    var ok3 := RegisterKind(actions, RegisterImageK);
    ok := ok1 && ok2 && ok3;
  }

  method RegisterProofs(actions: TypeParser) returns (ok: bool)
    requires actions.Faithful() && actions.decoders.Keys == {0, 1, 2}
    modifies actions
    ensures actions.Faithful() && ok && actions.decoders.Keys == {0, 1, 2, 4, 5, 6}
  {
    var ok1 := RegisterKind(actions, SP1K);
    var ok2 := RegisterKind(actions, RiscZeroK);
    var ok3 := RegisterKind(actions, MidenK);
    ok := ok1 && ok2 && ok3;
  }

  method RegisterLater(actions: TypeParser) returns (ok: bool)
    requires actions.Faithful() && actions.decoders.Keys == {0, 1, 2, 4, 5, 6}
    modifies actions
    ensures actions.Faithful() && ok && actions.decoders.Keys == {0, 1, 2, 3, 4, 5, 6, 8, 9}
  {
    var ok1 := RegisterKind(actions, JoltK);
    var ok2 := RegisterKind(actions, Plonky2K);
    var ok3 := RegisterKind(actions, ValidatorVoteK);
    ok := ok1 && ok2 && ok3;
  }

  /** The init function: no two actions claim the same type ID. */
  method Setup() returns (actions: TypeParser, errored: bool)
    ensures fresh(actions) && actions.Complete() && !errored
  {
    actions := new TypeParser();
    var ok1 := RegisterLedger(actions);
    var ok2 := RegisterProofs(actions);
    var ok3 := RegisterLater(actions);
    errored := !(ok1 && ok2 && ok3);
  }

  /** Marshal, whatever the action. */
  method MarshalFields(a: Action, p: Packer)
    requires p.Valid()
    modifies p
    ensures p.Valid() && p.offset == old(p.offset)
    ensures p.failed <==> old(p.failed) || HasLongText(a)
    ensures !p.failed ==> p.bytes == old(p.bytes) + FieldsBytes(Fields(a))
  {
    match KindOf(a)
    case TransferK => MarshalTransfer(a, p);
    case RegisterK => MarshalRegister(a, p);
    case RegisterImageK => MarshalRegisterImage(a, p);
    case ValidatorVoteK => MarshalValidatorVote(a, p);
    case SP1K => MarshalSP1(a, p);
    case MidenK => MarshalMiden(a, p);
    case RiscZeroK => MarshalRiscZero(a, p);
    case JoltK => MarshalJolt(a, p);
    case Plonky2K => MarshalPlonky2(a, p);
  }

  /**
   * What the chain writes for an action: its type ID, then its fields. Only an overlong text is an error
   * here; empty and zero fields are written, and refused when they are read.
   */
  method MarshalAction(a: Action, p: Packer)
    requires p.Valid()
    modifies p
    ensures p.Valid() && p.offset == old(p.offset)
    ensures p.failed <==> old(p.failed) || HasLongText(a)
    ensures !p.failed ==> p.bytes == old(p.bytes) + Encode(a)
  {
    var tag := TypeID(KindOf(a));
    p.PackByte(tag);
    MarshalFields(a, p);
    Associate(old(p.bytes), [tag], FieldsBytes(Fields(a)));
  }

  lemma FieldsDecode(k: Kind, a: Action, b: Bytes, rest: Bytes)
    requires KindOf(a) == k && ParseAll(Shape(k), b) == Some((Fields(a), rest))
    ensures DecodeAs(k, b) == Some((a, rest))
  {
    FieldsDetermine(a, DecodeAs(k, b).value.0);
  }

  /** The decoder of one kind. */
  method UnmarshalKind(k: Kind, p: Packer) returns (r: Option<Action>)
    requires p.Valid() && !p.failed
    modifies p
    ensures p.bytes == old(p.bytes) && p.offset <= |p.bytes|
    ensures r.Some? ==> KindOf(r.value) == k
    ensures r == None ==> p.failed
    ensures ParseAll(Shape(k), old(p.Rest())) == if p.failed then None else Some((Fields(r.value), p.Rest()))
  {
    var a: Action;
    match k {
      case TransferK =>
        r := UnmarshalTransfer(p);
        return;
      case RegisterK => a := UnmarshalRegister(p);
      case RegisterImageK => a := UnmarshalRegisterImage(p);
      case SP1K => a := UnmarshalSP1(p);
      case RiscZeroK => a := UnmarshalRiscZero(p);
      case MidenK => a := UnmarshalMiden(p);
      case JoltK => a := UnmarshalJolt(p);
      case Plonky2K => a := UnmarshalPlonky2(p);
      case ValidatorVoteK => a := UnmarshalValidatorVote(p);
    }
    r := Some(a);
  }

  /**
   * What the chain does with the registry: read the type ID, run its decoder, and refuse the action if
   * the packer reports an error.
   */
  method UnmarshalAction(actions: TypeParser, p: Packer) returns (r: Option<Action>)
    requires actions.Complete() && p.Valid() && !p.failed
    modifies p
    ensures p.offset <= |p.bytes|
    ensures Decode(old(p.Rest())) == if r == None then None else Some((r.value, p.Rest()))
  {
    ghost var b := p.Rest();
    if p.offset == |p.bytes| {
      return None;
    }
    var tag := p.bytes[p.offset];
    assert tag == b[0];
    if tag !in actions.decoders {
      return None;
    }
    var k := actions.decoders[tag];
    p.offset := p.offset + 1;
    assert p.Rest() == b[1..];
    r := UnmarshalKind(k, p);
    if p.failed {
      return None;
    }
    FieldsDecode(k, r.value, b[1..], p.Rest());
  }

  /**
   * The vote that was built is the vote that is decoded, signed message and all, exactly when its ID and
   * its two blobs are present and within limits. A result whose ID did not parse is voted on under the
   * empty ID, so that vote is never decoded.
   */
  lemma VoteSurvives(v: Action, rest: Bytes)
    requires v.ValidatorVote?
    ensures Decode(Encode(v) + rest) == Some((v, rest))
      <==> !IsZero(v.tx) && 0 < |v.signature| <= SIGNATURE_LEN && 0 < |v.publicKey| <= PUBLIC_KEY_LEN
  {
    ActionRoundTrip(v, rest);
    VoteEncodable(v);
  }
}
