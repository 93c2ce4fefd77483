/** The packer, and Marshal and Unmarshal of every action. */
module Packing {
  import opened Encoding
  import opened Actions
  import opened Codec

  /** The i-th field was read from rests[i] and left rests[i + 1]. */
  predicate Reads(shape: seq<FieldType>, got: seq<Field>, rests: seq<Bytes>) {
    && |got| <= |shape| && |rests| == |got| + 1
    && forall i {:trigger got[i], rests[i]} | 0 <= i < |got| ::
         Parse(shape[i], rests[i]) == Some((got[i], rests[i + 1]))
  }

  /** Reading field by field is ParseAll: it gets through, or fails where a field does not parse. */
  lemma {:induction false} ReadsParse(shape: seq<FieldType>, got: seq<Field>, rests: seq<Bytes>)
    requires Reads(shape, got, rests)
    ensures |got| == |shape| ==> ParseAll(shape, rests[0]) == Some((got, rests[|got|]))
    ensures |got| < |shape| && Parse(shape[|got|], rests[|got|]) == None ==> ParseAll(shape, rests[0]) == None
    decreases |got|
  {
    if got != [] {
      var shape', got', rests' := shape[1..], got[1..], rests[1..];
      assert Parse(shape[0], rests[0]) == Some((got[0], rests[1]));
      forall i | 0 <= i < |got'| ensures Parse(shape'[i], rests'[i]) == Some((got'[i], rests'[i + 1])) {
        assert got[i + 1] == got'[i] && rests[i + 1] == rests'[i];
      }
      ReadsParse(shape', got', rests');
      assert got == [got[0]] + got';
    }
  }

  /**
   * codec.Packer: bytes, a read position and an error that sticks. The ghost fields follow what is
   * written and read.
   */
  class Packer {
    var bytes: Bytes
    var offset: nat
    var failed: bool
    ghost var base: Bytes
    ghost var put: seq<Field>
    ghost var shape: seq<FieldType>
    ghost var got: seq<Field>
    ghost var rests: seq<Bytes>
    ghost var position: nat

    ghost predicate Valid()
      reads this
    {
      && offset <= |bytes|
      && (!failed ==> bytes == base + FieldsBytes(put))
    }

    /** Fields of the expected shape have been read up to the position, or up to one that does not parse. */
    ghost predicate Reading()
      reads this
    {
      && offset <= |bytes|
      && Reads(shape, got, rests)
      && (!failed ==> position == |got| && rests[|got|] == Rest())
      && (failed ==> |got| < |shape| && Parse(shape[|got|], rests[|got|]) == None)
    }

    /** The next field to read, if reading has not failed, is of the given type. */
    ghost predicate Expects(t: FieldType)
      reads this
    {
      Reading() && position < |shape| && shape[position] == t
    }

    function Rest(): Bytes
      reads this
      requires offset <= |bytes|
    {
      bytes[offset..]
    }

    constructor (content: Bytes)
      ensures Valid() && bytes == content && offset == 0 && !failed
    {
      bytes, offset, failed := content, 0, false;
      base, put := content, [];
      shape, got, rests, position := [], [], [], 0;
    }

    // ---------- Writing ----------

    ghost method BeginWriting()
      requires Valid()
      modifies `base, `put
      ensures Valid() && base == bytes && put == []
    {
      base, put := bytes, [];
    }

    /** Appends the bytes of a field, unless an error came before. */
    method Write(b: Bytes, ghost f: Field)
      requires Valid() && b == FieldBytes(f)
      modifies `bytes, `put
      ensures Valid() && put == old(put) + [f]
      ensures bytes == if failed then old(bytes) else old(bytes) + b
    {
      FieldsBytesAppend(put, f);
      Associate(base, FieldsBytes(put), b);
      if !failed {
        bytes := bytes + b;
      }
      put := put + [f];
    }

    /** The type ID in front of an action. */
    method PackByte(b: Byte)
      requires Valid()
      modifies `bytes, `base, `put
      ensures Valid() && bytes == if failed then old(bytes) else old(bytes) + [b]
    {
      if !failed {
        bytes := bytes + [b];
      }
      base, put := bytes, [];
    }

    method PackAddress(a: Address)
      requires Valid()
      modifies `bytes, `put
      ensures Valid() && put == old(put) + [Addr(a)]
    {
      Write(a, Addr(a));
    }

    method PackID(id: ID)
      requires Valid()
      modifies `bytes, `put
      ensures Valid() && put == old(put) + [Id(id)]
    {
      Write(id, Id(id));
    }

    method PackUint64(n: U64)
      requires Valid()
      modifies `bytes, `put
      ensures Valid() && put == old(put) + [Number(n)]
    {
      Write(U64Bytes(n), Number(n));
    }

    method PackBool(yes: bool)
      requires Valid()
      modifies `bytes, `put
      ensures Valid() && put == old(put) + [Flag(yes)]
    {
      Write([if yes then 1 else 0], Flag(yes));
    }

    /** A text longer than its two-byte length can say is an error. */
    method PackString(s: Bytes)
      requires Valid()
      modifies `bytes, `put, `failed
      ensures Valid() && put == old(put) + [Text(s)]
      ensures failed <==> old(failed) || |s| >= TWO16
    {
      if |s| >= TWO16 {
        failed := true;
      }
      Write(U16Bytes(|s| % TWO16) + s, Text(s));
    }

    method PackBytes(d: Bytes)
      requires Valid()
      modifies `bytes, `put
      ensures Valid() && put == old(put) + [Blob(d)]
    {
      Write(BigEndian(|d| % TWO32, 4) + d, Blob(d));
    }

    // ---------- Reading ----------

    ghost method BeginReading(shape: seq<FieldType>)
      requires Valid() && !failed
      modifies `shape, `got, `rests, `position
      ensures Reading() && this.shape == shape && got == [] && position == 0 && rests[0] == Rest()
    {
      this.shape, got, rests, position := shape, [], [Rest()], 0;
    }

    /** Moves past the next field, or fails: `parsed` is what the bytes hold. */
    method Advance(ghost t: FieldType, ok: bool, n: nat)
      requires Expects(t)
      requires ok <==> !failed && Parse(t, Rest()).Some?
      requires ok ==> offset + n <= |bytes| && bytes[offset + n..] == Parse(t, Rest()).value.1
      modifies `offset, `failed, `got, `rests, `position
      ensures Reading() && (failed <==> !ok) && position == old(position) + 1 && rests[0] == old(rests[0])
      ensures if ok then got == old(got) + [old(Parse(t, Rest())).value.0] else got == old(got)
    {
      if ok {
        var parsed := Parse(t, Rest()).value;
        got := got + [parsed.0];
        rests := rests + [parsed.1];
        offset := offset + n;
      } else {
        failed := true;
      }
      position := position + 1;
    }

    method UnpackAddress() returns (a: Address)
      requires Expects(AddressT)
      modifies `offset, `failed, `got, `rests, `position
      ensures Reading() && position == old(position) + 1 && rests[0] == old(rests[0]) && (old(failed) ==> failed)
      ensures !failed ==> got == old(got) + [Addr(a)]
    {
      var ok := !failed && offset + ADDRESS_LEN <= |bytes|;
      a := if ok then bytes[offset..][..ADDRESS_LEN] else seq(ADDRESS_LEN, _ => 0);
      assert ok ==> bytes[offset..][ADDRESS_LEN..] == bytes[offset + ADDRESS_LEN..];
      Advance(AddressT, ok, ADDRESS_LEN);
    }

    method UnpackID() returns (id: ID)
      requires Expects(IdT)
      modifies `offset, `failed, `got, `rests, `position
      ensures Reading() && position == old(position) + 1 && rests[0] == old(rests[0]) && (old(failed) ==> failed)
      ensures !failed ==> got == old(got) + [Id(id)]
    {
      var ok := !failed && offset + ID_LEN <= |bytes|;
      id := if ok then bytes[offset..][..ID_LEN] else EmptyID();
      ok := ok && !IsZero(id);
      assert ok ==> bytes[offset..][ID_LEN..] == bytes[offset + ID_LEN..];
      Advance(IdT, ok, ID_LEN);
    }

    method UnpackUint64() returns (n: U64)
      requires Expects(NumberT)
      modifies `offset, `failed, `got, `rests, `position
      ensures Reading() && position == old(position) + 1 && rests[0] == old(rests[0]) && (old(failed) ==> failed)
      ensures if failed then n == 0 else got == old(got) + [Number(n)]
    {
      var ok := !failed && offset + 8 <= |bytes|;
      n := if ok then ReadU64(bytes[offset..][..8]) else 0;
      ok := ok && n != 0;
      assert ok ==> bytes[offset..][8..] == bytes[offset + 8..];
      Advance(NumberT, ok, 8);
    }

    method UnpackBool() returns (yes: bool)
      requires Expects(FlagT)
      modifies `offset, `failed, `got, `rests, `position
      ensures Reading() && position == old(position) + 1 && rests[0] == old(rests[0]) && (old(failed) ==> failed)
      ensures if failed then !yes else got == old(got) + [Flag(yes)]
    {
      var ok := !failed && offset + 1 <= |bytes| && bytes[offset] <= 1;
      yes := ok && bytes[offset] == 1;
      assert ok ==> bytes[offset..][1..] == bytes[offset + 1..];
      Advance(FlagT, ok, 1);
    }

    method UnpackString() returns (s: Bytes)
      requires Expects(TextT)
      modifies `offset, `failed, `got, `rests, `position
      ensures Reading() && position == old(position) + 1 && rests[0] == old(rests[0]) && (old(failed) ==> failed)
      ensures if failed then s == [] else got == old(got) + [Text(s)]
    {
      var b := bytes[offset..];
      var n: nat := 0;
      if !failed && |b| >= 2 {
        n := ReadU16(b[..2]);
      }
      var ok := n > 0 && |b| >= 2 + n;
      s := if ok then b[2..2 + n] else [];
      assert ok ==> b[2 + n..] == bytes[offset + (2 + n)..];
      Advance(TextT, ok, 2 + n);
    }

    method UnpackBytes(limit: nat) returns (d: Bytes)
      requires Expects(BlobT(limit))
      modifies `offset, `failed, `got, `rests, `position
      ensures Reading() && position == old(position) + 1 && rests[0] == old(rests[0]) && (old(failed) ==> failed)
      ensures if failed then d == [] else got == old(got) + [Blob(d)]
    {
      var b := bytes[offset..];
      var n: nat := 0;
      if !failed && |b| >= 4 {
        n := FromBigEndian(b[..4]);
      }
      var ok := 0 < n <= limit && |b| >= 4 + n;
      d := if ok then b[4..4 + n] else [];
      assert ok ==> b[4 + n..] == bytes[offset + (4 + n)..];
      Advance(BlobT(limit), ok, 4 + n);
    }
  }

  /** Some text of the action is too long for the packer. */
  predicate HasLongText(a: Action) {
    (a.RegisterImage? && |a.rootHash| >= TWO16)
    || (a.Miden? && (|a.code| >= TWO16 || |a.inputs| >= TWO16 || |a.outputs| >= TWO16))
    || (a.RiscZero? && |a.riscZeroImage| >= TWO16)
  }

  // ---------- Marshal and Unmarshal, action by action ----------

  method MarshalTransfer(a: Action, p: Packer)
    requires a.Transfer? && p.Valid()
    modifies p
    ensures p.Valid() && p.offset == old(p.offset)
    ensures p.failed <==> old(p.failed)
    ensures !p.failed ==> p.bytes == old(p.bytes) + FieldsBytes(Fields(a))
  {
    p.BeginWriting();
    p.PackAddress(a.to);
    p.PackUint64(a.value);
    assert p.put == Fields(a);
  }

  /** The only decoder that looks at the packer's error; the others leave that to the caller. */
  method UnmarshalTransfer(p: Packer) returns (r: Option<Action>)
    requires p.Valid() && !p.failed
    modifies p
    ensures p.bytes == old(p.bytes) && p.offset <= |p.bytes|
    ensures r == None <==> p.failed
    ensures r.Some? ==> r.value.Transfer?
    ensures ParseAll(Shape(TransferK), old(p.Rest())) == if p.failed then None else Some((Fields(r.value), p.Rest()))
  {
    p.BeginReading(Shape(TransferK));
    var to := p.UnpackAddress();
    var value := p.UnpackUint64();
    ReadsParse(p.shape, p.got, p.rests);
    if p.failed {
      return None;
    }
    var a := Transfer(to, value);
    assert p.got == Fields(a);
    return Some(a);
  }

  method MarshalRegister(a: Action, p: Packer)
    requires a.Register? && p.Valid()
    modifies p
    ensures p.Valid() && p.offset == old(p.offset)
    ensures p.failed <==> old(p.failed)
    ensures !p.failed ==> p.bytes == old(p.bytes) + FieldsBytes(Fields(a))
  {
    p.BeginWriting();
    p.PackUint64(a.provingSystem);
    assert p.put == Fields(a);
  }

  method UnmarshalRegister(p: Packer) returns (a: Action)
    requires p.Valid() && !p.failed
    modifies p
    ensures p.bytes == old(p.bytes) && p.offset <= |p.bytes| && a.Register?
    ensures ParseAll(Shape(RegisterK), old(p.Rest())) == if p.failed then None else Some((Fields(a), p.Rest()))
  {
    p.BeginReading(Shape(RegisterK));
    var system := p.UnpackUint64();
    a := Register(system);
    assert !p.failed ==> p.got == Fields(a);
    ReadsParse(p.shape, p.got, p.rests);
  }

  method MarshalRegisterImage(a: Action, p: Packer)
    requires a.RegisterImage? && p.Valid()
    modifies p
    ensures p.Valid() && p.offset == old(p.offset)
    ensures p.failed <==> old(p.failed) || HasLongText(a)
    ensures !p.failed ==> p.bytes == old(p.bytes) + FieldsBytes(Fields(a))
  {
    p.BeginWriting();
    p.PackID(a.image);
    p.PackUint64(a.valType);
    p.PackString(a.rootHash);
    assert p.put == Fields(a);
  }

  method UnmarshalRegisterImage(p: Packer) returns (a: Action)
    requires p.Valid() && !p.failed
    modifies p
    ensures p.bytes == old(p.bytes) && p.offset <= |p.bytes| && a.RegisterImage?
    ensures ParseAll(Shape(RegisterImageK), old(p.Rest())) == if p.failed then None else Some((Fields(a), p.Rest()))
  {
    p.BeginReading(Shape(RegisterImageK));
    var image := p.UnpackID();
    var valType := p.UnpackUint64();
    var rootHash := p.UnpackString();
    a := RegisterImage(image, valType, rootHash);
    assert !p.failed ==> p.got == Fields(a);
    ReadsParse(p.shape, p.got, p.rests);
  }

  method MarshalValidatorVote(a: Action, p: Packer)
    requires a.ValidatorVote? && p.Valid()
    modifies p
    ensures p.Valid() && p.offset == old(p.offset)
    ensures p.failed <==> old(p.failed)
    ensures !p.failed ==> p.bytes == old(p.bytes) + FieldsBytes(Fields(a))
  {
    p.BeginWriting();
    p.PackID(a.tx);
    p.PackBool(a.vote);
    p.PackBytes(a.signature);
    p.PackBytes(a.publicKey);
    assert p.put == Fields(a);
  }

  method UnmarshalValidatorVote(p: Packer) returns (a: Action)
    requires p.Valid() && !p.failed
    modifies p
    ensures p.bytes == old(p.bytes) && p.offset <= |p.bytes| && a.ValidatorVote?
    ensures ParseAll(Shape(ValidatorVoteK), old(p.Rest())) == if p.failed then None else Some((Fields(a), p.Rest()))
  {
    p.BeginReading(Shape(ValidatorVoteK));
    var tx := p.UnpackID();
    var vote := p.UnpackBool();
    var signature := p.UnpackBytes(SIGNATURE_LEN);
    var publicKey := p.UnpackBytes(PUBLIC_KEY_LEN);
    a := ValidatorVote(tx, vote, signature, publicKey);
    assert !p.failed ==> p.got == Fields(a);
    ReadsParse(p.shape, p.got, p.rests);
  }

  method MarshalSP1(a: Action, p: Packer)
    requires a.SP1? && p.Valid()
    modifies p
    ensures p.Valid() && p.offset == old(p.offset)
    ensures p.failed <==> old(p.failed)
    ensures !p.failed ==> p.bytes == old(p.bytes) + FieldsBytes(Fields(a))
  {
    p.BeginWriting();
    p.PackID(a.image);
    p.PackUint64(a.proofValType);
    p.PackUint64(a.timeOutBlocks);
    assert p.put == Fields(a);
  }

  method UnmarshalSP1(p: Packer) returns (a: Action)
    requires p.Valid() && !p.failed
    modifies p
    ensures p.bytes == old(p.bytes) && p.offset <= |p.bytes| && a.SP1?
    ensures ParseAll(Shape(SP1K), old(p.Rest())) == if p.failed then None else Some((Fields(a), p.Rest()))
  {
    p.BeginReading(Shape(SP1K));
    var image := p.UnpackID();
    var valType := p.UnpackUint64();
    var timeOut := p.UnpackUint64();
    a := SP1(image, valType, timeOut);
    assert !p.failed ==> p.got == Fields(a);
    ReadsParse(p.shape, p.got, p.rests);
  }

  method MarshalMiden(a: Action, p: Packer)
    requires a.Miden? && p.Valid()
    modifies p
    ensures p.Valid() && p.offset == old(p.offset)
    ensures p.failed <==> old(p.failed) || HasLongText(a)
    ensures !p.failed ==> p.bytes == old(p.bytes) + FieldsBytes(Fields(a))
  {
    p.BeginWriting();
    p.PackID(a.image);
    p.PackUint64(a.proofValType);
    p.PackString(a.code);
    p.PackString(a.inputs);
    p.PackString(a.outputs);
    p.PackUint64(a.timeOutBlocks);
    assert p.put == Fields(a);
  }

  method UnmarshalMiden(p: Packer) returns (a: Action)
    requires p.Valid() && !p.failed
    modifies p
    ensures p.bytes == old(p.bytes) && p.offset <= |p.bytes| && a.Miden?
    ensures ParseAll(Shape(MidenK), old(p.Rest())) == if p.failed then None else Some((Fields(a), p.Rest()))
  {
    p.BeginReading(Shape(MidenK));
    var image := p.UnpackID();
    var valType := p.UnpackUint64();
    var code := p.UnpackString();
    var inputs := p.UnpackString();
    var outputs := p.UnpackString();
    var timeOut := p.UnpackUint64();
    a := Miden(image, valType, code, inputs, outputs, timeOut);
    assert !p.failed ==> p.got == Fields(a);
    ReadsParse(p.shape, p.got, p.rests);
  }

  method MarshalRiscZero(a: Action, p: Packer)
    requires a.RiscZero? && p.Valid()
    modifies p
    ensures p.Valid() && p.offset == old(p.offset)
    ensures p.failed <==> old(p.failed) || HasLongText(a)
    ensures !p.failed ==> p.bytes == old(p.bytes) + FieldsBytes(Fields(a))
  {
    p.BeginWriting();
    p.PackID(a.image);
    p.PackUint64(a.proofValType);
    p.PackString(a.riscZeroImage);
    p.PackUint64(a.timeOutBlocks);
    assert p.put == Fields(a);
  }

  method UnmarshalRiscZero(p: Packer) returns (a: Action)
    requires p.Valid() && !p.failed
    modifies p
    ensures p.bytes == old(p.bytes) && p.offset <= |p.bytes| && a.RiscZero?
    ensures ParseAll(Shape(RiscZeroK), old(p.Rest())) == if p.failed then None else Some((Fields(a), p.Rest()))
  {
    p.BeginReading(Shape(RiscZeroK));
    var image := p.UnpackID();
    var valType := p.UnpackUint64();
    var riscImage := p.UnpackString();
    var timeOut := p.UnpackUint64();
    a := RiscZero(image, valType, riscImage, timeOut);
    assert !p.failed ==> p.got == Fields(a);
    ReadsParse(p.shape, p.got, p.rests);
  }

  method MarshalJolt(a: Action, p: Packer)
    requires a.Jolt? && p.Valid()
    modifies p
    ensures p.Valid() && p.offset == old(p.offset)
    ensures p.failed <==> old(p.failed)
    ensures !p.failed ==> p.bytes == old(p.bytes) + FieldsBytes(Fields(a))
  {
    p.BeginWriting();
    p.PackID(a.image);
    p.PackUint64(a.proofValType);
    p.PackUint64(a.timeOutBlocks);
    assert p.put == Fields(a);
  }

  method UnmarshalJolt(p: Packer) returns (a: Action)
    requires p.Valid() && !p.failed
    modifies p
    ensures p.bytes == old(p.bytes) && p.offset <= |p.bytes| && a.Jolt?
    ensures ParseAll(Shape(JoltK), old(p.Rest())) == if p.failed then None else Some((Fields(a), p.Rest()))
  {
    p.BeginReading(Shape(JoltK));
    var image := p.UnpackID();
    var valType := p.UnpackUint64();
    var timeOut := p.UnpackUint64();
    a := Jolt(image, valType, timeOut);
    assert !p.failed ==> p.got == Fields(a);
    ReadsParse(p.shape, p.got, p.rests);
  }

  method MarshalPlonky2(a: Action, p: Packer)
    requires a.Plonky2? && p.Valid()
    modifies p
    ensures p.Valid() && p.offset == old(p.offset)
    ensures p.failed <==> old(p.failed)
    ensures !p.failed ==> p.bytes == old(p.bytes) + FieldsBytes(Fields(a))
  {
    p.BeginWriting();
    p.PackID(a.image);
    p.PackUint64(a.proofValType);
    p.PackUint64(a.commonDataValType);
    p.PackUint64(a.verifierDataValType);
    p.PackUint64(a.timeOutBlocks);
    assert p.put == Fields(a);
  }

  method UnmarshalPlonky2(p: Packer) returns (a: Action)
    requires p.Valid() && !p.failed
    modifies p
    ensures p.bytes == old(p.bytes) && p.offset <= |p.bytes| && a.Plonky2?
    ensures ParseAll(Shape(Plonky2K), old(p.Rest())) == if p.failed then None else Some((Fields(a), p.Rest()))
  {
    p.BeginReading(Shape(Plonky2K));
    var image := p.UnpackID();
    var valType := p.UnpackUint64();
    var common := p.UnpackUint64();
    var verifier := p.UnpackUint64();
    var timeOut := p.UnpackUint64();
    a := Plonky2(image, valType, common, verifier, timeOut);
    assert !p.failed ==> p.got == Fields(a);
    ReadsParse(p.shape, p.got, p.rests);
  }
}
