/** How actions are written to bytes and read back, field by field. */
module Codec {
  import opened Encoding
  import opened Keys
  import opened Actions

  const SIGNATURE_LEN: nat := 96
  const PUBLIC_KEY_LEN: nat := 48

  /** What a decoder asks the packer for. Numbers, IDs, texts and blobs are required: zero or empty ones are refused. */
  datatype FieldType = AddressT | IdT | NumberT | FlagT | TextT | BlobT(limit: nat)

  datatype Field = Addr(a: Address) | Id(id: ID) | Number(n: U64) | Flag(yes: bool) | Text(s: Bytes) | Blob(d: Bytes)

  predicate Accepts(t: FieldType, f: Field) {
    match t
    case AddressT => f.Addr?
    case IdT => f.Id? && !IsZero(f.id)
    case NumberT => f.Number? && f.n != 0
    case FlagT => f.Flag?
    case TextT => f.Text? && 0 < |f.s| < TWO16
    case BlobT(limit) => f.Blob? && 0 < |f.d| <= limit && |f.d| < TWO32
  }

  function FieldBytes(f: Field): Bytes {
    match f
    case Addr(a) => a
    case Id(id) => id
    case Number(n) => U64Bytes(n)
    case Flag(yes) => [if yes then 1 else 0]
    case Text(s) => U16Bytes(|s| % TWO16) + s
    case Blob(d) => BigEndian(|d| % TWO32, 4) + d
  }

  /** One field and the bytes after it. */
  function Parse(t: FieldType, b: Bytes): Option<(Field, Bytes)> {
    match t
    case AddressT => if |b| < ADDRESS_LEN then None else Some((Addr(b[..ADDRESS_LEN]), b[ADDRESS_LEN..]))
    case IdT => if |b| < ID_LEN || IsZero(b[..ID_LEN]) then None else Some((Id(b[..ID_LEN]), b[ID_LEN..]))
    case NumberT => if |b| < 8 || ReadU64(b[..8]) == 0 then None else Some((Number(ReadU64(b[..8])), b[8..]))
    case FlagT => if |b| < 1 || b[0] > 1 then None else Some((Flag(b[0] == 1), b[1..]))
    case TextT => ParseText(b)
    case BlobT(limit) => ParseBlob(limit, b)
  }

  function ParseText(b: Bytes): Option<(Field, Bytes)> {
    if |b| < 2 then None
    else
      var n := ReadU16(b[..2]);
      if n == 0 || |b| < 2 + n then None else Some((Text(b[2..2 + n]), b[2 + n..]))
  }

  function ParseBlob(limit: nat, b: Bytes): Option<(Field, Bytes)> {
    if |b| < 4 then None
    else
      var n := FromBigEndian(b[..4]);
      if n == 0 || n > limit || |b| < 4 + n then None else Some((Blob(b[4..4 + n]), b[4 + n..]))
  }

  lemma TextRoundTrip(s: Bytes, rest: Bytes)
    requires 0 < |s| < TWO16
    ensures ParseText(FieldBytes(Text(s)) + rest) == Some((Text(s), rest))
  {
    U16RoundTrip(|s|);
    assert |s| % TWO16 == |s|;
    Pieces(U16Bytes(|s|), s, rest);
  }

  lemma BlobRoundTrip(limit: nat, d: Bytes, rest: Bytes)
    requires 0 < |d| <= limit && |d| < TWO32
    ensures ParseBlob(limit, FieldBytes(Blob(d)) + rest) == Some((Blob(d), rest))
  {
    Widths();
    FromBigEndianOfBigEndian(|d|, 4);
    assert |d| % TWO32 == |d|;
    Pieces(BigEndian(|d|, 4), d, rest);
  }

  lemma TextCanonical(b: Bytes)
    requires ParseText(b).Some?
    ensures var (f, rest) := ParseText(b).value; Accepts(TextT, f) && b == FieldBytes(f) + rest
  {
    var n := ReadU16(b[..2]);
    U16BytesRoundTrip(b[..2]);
    assert n % TWO16 == n;
    Cut(b, 2, 2 + n);
  }

  lemma BlobCanonical(limit: nat, b: Bytes)
    requires ParseBlob(limit, b).Some?
    ensures var (f, rest) := ParseBlob(limit, b).value; Accepts(BlobT(limit), f) && b == FieldBytes(f) + rest
  {
    var n := FromBigEndian(b[..4]);
    Widths();
    BigEndianOfFromBigEndian(b[..4]);
    assert BigEndian(n, 4) == b[..4] && n % TWO32 == n;
    Cut(b, 4, 4 + n);
  }

  /** An accepted field is read back as it was written, and what follows is left alone. */
  lemma FieldRoundTrip(t: FieldType, f: Field, rest: Bytes)
    requires Accepts(t, f)
    ensures Parse(t, FieldBytes(f) + rest) == Some((f, rest))
  {
    var b := FieldBytes(f) + rest;
    match f
    case Addr(a) => assert b[..ADDRESS_LEN] == a && b[ADDRESS_LEN..] == rest;
    case Id(id) => assert b[..ID_LEN] == id && b[ID_LEN..] == rest;
    case Number(n) =>
      U64RoundTrip(n);
      assert b[..8] == U64Bytes(n) && b[8..] == rest;
    case Flag(_) => assert b[1..] == rest;
    case Text(s) => TextRoundTrip(s, rest);
    case Blob(d) => BlobRoundTrip(t.limit, d, rest);
  }

  /** Only the encoding of an accepted field parses. */
  lemma FieldCanonical(t: FieldType, b: Bytes)
    requires Parse(t, b).Some?
    ensures var (f, rest) := Parse(t, b).value; Accepts(t, f) && b == FieldBytes(f) + rest
  {
    match t
    case AddressT => assert b == b[..ADDRESS_LEN] + b[ADDRESS_LEN..];
    case IdT => assert b == b[..ID_LEN] + b[ID_LEN..];
    case NumberT =>
      U64BytesRoundTrip(b[..8]);
      assert b == b[..8] + b[8..];
    case FlagT => assert b == [b[0]] + b[1..];
    case TextT => TextCanonical(b);
    case BlobT(limit) => BlobCanonical(limit, b);
  }

  // ---------- Sequences of fields ----------

  predicate AcceptsAll(shape: seq<FieldType>, fields: seq<Field>) {
    |fields| == |shape| && forall i | 0 <= i < |shape| :: Accepts(shape[i], fields[i])
  }

  function FieldsBytes(fields: seq<Field>): Bytes {
    if fields == [] then [] else FieldBytes(fields[0]) + FieldsBytes(fields[1..])
  }

  function ParseAll(shape: seq<FieldType>, b: Bytes): Option<(seq<Field>, Bytes)>
    decreases |shape|
  {
    if shape == [] then Some(([], b))
    else
      match Parse(shape[0], b)
      case None => None
      case Some(first) =>
        match ParseAll(shape[1..], first.1)
        case None => None
        case Some(others) => Some(([first.0] + others.0, others.1))
  }

  lemma BytesCons(f: Field, fields: seq<Field>, rest: Bytes)
    ensures FieldsBytes([f] + fields) + rest == FieldBytes(f) + (FieldsBytes(fields) + rest)
  {
    assert ([f] + fields)[1..] == fields;
  }

  lemma {:induction false} FieldsBytesAppend(fields: seq<Field>, f: Field)
    ensures FieldsBytes(fields + [f]) == FieldsBytes(fields) + FieldBytes(f)
  {
    if fields == [] {
      assert [f][1..] == [];
      assert FieldsBytes([f]) == FieldBytes(f) + FieldsBytes([]);
    } else {
      FieldsBytesAppend(fields[1..], f);
      assert (fields + [f])[1..] == fields[1..] + [f];
      var first, rest, last := FieldBytes(fields[0]), FieldsBytes(fields[1..]), FieldBytes(f);
      Associate(first, rest, last);
      assert FieldsBytes(fields + [f]) == first + FieldsBytes((fields + [f])[1..]);
    }
  }

  lemma ParseCons(shape: seq<FieldType>, b: Bytes, f: Field, after: Bytes, fields: seq<Field>, rest: Bytes)
    requires shape != [] && Parse(shape[0], b) == Some((f, after))
    requires ParseAll(shape[1..], after) == Some((fields, rest))
    ensures ParseAll(shape, b) == Some(([f] + fields, rest))
  {
  }

  lemma {:induction false} FieldsRoundTrip(shape: seq<FieldType>, fields: seq<Field>, rest: Bytes)
    requires AcceptsAll(shape, fields)
    ensures ParseAll(shape, FieldsBytes(fields) + rest) == Some((fields, rest))
    decreases |shape|
  {
    if shape == [] {
      assert FieldsBytes(fields) + rest == rest;
    } else {
      var f, others := fields[0], fields[1..];
      var after := FieldsBytes(others) + rest;
      assert fields == [f] + others;
      BytesCons(f, others, rest);
      FieldRoundTrip(shape[0], f, after);
      FieldsRoundTrip(shape[1..], others, rest);
      ParseCons(shape, FieldBytes(f) + after, f, after, others, rest);
    }
  }

  lemma {:induction false} FieldsCanonical(shape: seq<FieldType>, b: Bytes)
    requires ParseAll(shape, b).Some?
    ensures var (fields, rest) := ParseAll(shape, b).value; AcceptsAll(shape, fields) && b == FieldsBytes(fields) + rest
    decreases |shape|
  {
    if shape != [] {
      var first := Parse(shape[0], b).value;
      FieldCanonical(shape[0], b);
      FieldsCanonical(shape[1..], first.1);
      var others := ParseAll(shape[1..], first.1).value;
      assert ([first.0] + others.0)[1..] == others.0;
      assert b == FieldBytes(first.0) + FieldsBytes(others.0) + others.1;
    }
  }

  // ---------- Actions as sequences of fields ----------

  datatype Kind = TransferK | RegisterK | RegisterImageK | SP1K | RiscZeroK | MidenK | JoltK | Plonky2K | ValidatorVoteK

  function TypeID(k: Kind): Byte {
    match k
    case TransferK => 0
    case RegisterK => 1
    case RegisterImageK => 2
    case ValidatorVoteK => 3
    case SP1K => 4
    case MidenK => 5
    case RiscZeroK => 6
    case JoltK => 8
    case Plonky2K => 9
  }

  function KindOf(a: Action): Kind {
    match a
    case Transfer(_, _) => TransferK
    case Register(_) => RegisterK
    case RegisterImage(_, _, _) => RegisterImageK
    case ValidatorVote(_, _, _, _) => ValidatorVoteK
    case SP1(_, _, _) => SP1K
    case Miden(_, _, _, _, _, _) => MidenK
    case RiscZero(_, _, _, _) => RiscZeroK
    case Jolt(_, _, _) => JoltK
    case Plonky2(_, _, _, _, _) => Plonky2K
  }

  function Shape(k: Kind): seq<FieldType> {
    match k
    case TransferK => [AddressT, NumberT]
    case RegisterK => [NumberT]
    case RegisterImageK => [IdT, NumberT, TextT]
    case ValidatorVoteK => [IdT, FlagT, BlobT(SIGNATURE_LEN), BlobT(PUBLIC_KEY_LEN)]
    case SP1K => [IdT, NumberT, NumberT]
    case MidenK => [IdT, NumberT, TextT, TextT, TextT, NumberT]
    case RiscZeroK => [IdT, NumberT, TextT, NumberT]
    case JoltK => [IdT, NumberT, NumberT]
    case Plonky2K => [IdT, NumberT, NumberT, NumberT, NumberT]
  }

  function Fields(a: Action): seq<Field> {
    match a
    case Transfer(to, value) => [Addr(to), Number(value)]
    case Register(system) => [Number(system)]
    case RegisterImage(image, valType, rootHash) => [Id(image), Number(valType), Text(rootHash)]
    case ValidatorVote(tx, vote, signature, publicKey) => [Id(tx), Flag(vote), Blob(signature), Blob(publicKey)]
    case SP1(image, valType, timeOut) => [Id(image), Number(valType), Number(timeOut)]
    case Miden(image, valType, code, inputs, outputs, timeOut) =>
      [Id(image), Number(valType), Text(code), Text(inputs), Text(outputs), Number(timeOut)]
    case RiscZero(image, valType, riscImage, timeOut) => [Id(image), Number(valType), Text(riscImage), Number(timeOut)]
    case Jolt(image, valType, timeOut) => [Id(image), Number(valType), Number(timeOut)]
    case Plonky2(image, valType, common, verifier, timeOut) =>
      [Id(image), Number(valType), Number(common), Number(verifier), Number(timeOut)]
  }

  function Build(k: Kind, fields: seq<Field>): (a: Action)
    requires AcceptsAll(Shape(k), fields)
    ensures KindOf(a) == k && Fields(a) == fields
  {
    assert forall i | 0 <= i < |fields| :: Accepts(Shape(k)[i], fields[i]);
    match k
    case TransferK => Transfer(fields[0].a, fields[1].n)
    case RegisterK => Register(fields[0].n)
    case RegisterImageK => RegisterImage(fields[0].id, fields[1].n, fields[2].s)
    case ValidatorVoteK => ValidatorVote(fields[0].id, fields[1].yes, fields[2].d, fields[3].d)
    case SP1K => SP1(fields[0].id, fields[1].n, fields[2].n)
    case MidenK => Miden(fields[0].id, fields[1].n, fields[2].s, fields[3].s, fields[4].s, fields[5].n)
    case RiscZeroK => RiscZero(fields[0].id, fields[1].n, fields[2].s, fields[3].n)
    case JoltK => Jolt(fields[0].id, fields[1].n, fields[2].n)
    case Plonky2K => Plonky2(fields[0].id, fields[1].n, fields[2].n, fields[3].n, fields[4].n)
  }

  lemma FieldsDetermine(a: Action, a': Action)
    requires KindOf(a) == KindOf(a') && Fields(a) == Fields(a')
    ensures a == a'
  {
    var f, f' := Fields(a), Fields(a');
    assert forall i | 0 <= i < |f| :: f[i] == f'[i];
  }

  /** The fields of the action are present and within their limits. */
  predicate Encodable(a: Action) {
    AcceptsAll(Shape(KindOf(a)), Fields(a))
  }

  /** A vote needs an ID, a signature and a key, the last two within their limits. */
  lemma VoteEncodable(v: Action)
    requires v.ValidatorVote?
    ensures Encodable(v) <==> !IsZero(v.tx) && 0 < |v.signature| <= SIGNATURE_LEN && 0 < |v.publicKey| <= PUBLIC_KEY_LEN
  {
    var shape, fields := Shape(ValidatorVoteK), Fields(v);
    assert Accepts(shape[0], fields[0]) <==> !IsZero(v.tx);
    assert Accepts(shape[1], fields[1]);
    assert Accepts(shape[2], fields[2]) <==> 0 < |v.signature| <= SIGNATURE_LEN;
    assert Accepts(shape[3], fields[3]) <==> 0 < |v.publicKey| <= PUBLIC_KEY_LEN;
  }

  /** The type ID, and then what Marshal writes. */
  function Encode(a: Action): Bytes {
    [TypeID(KindOf(a))] + FieldsBytes(Fields(a))
  }

  function KindWith(tag: Byte): (k: Option<Kind>)
    ensures k.Some? ==> TypeID(k.value) == tag
    ensures k == None ==> forall k' :: TypeID(k') != tag
  {
    if tag == 0 then Some(TransferK)
    else if tag == 1 then Some(RegisterK)
    else if tag == 2 then Some(RegisterImageK)
    else if tag == 3 then Some(ValidatorVoteK)
    else if tag == 4 then Some(SP1K)
    else if tag == 5 then Some(MidenK)
    else if tag == 6 then Some(RiscZeroK)
    else if tag == 8 then Some(JoltK)
    else if tag == 9 then Some(Plonky2K)
    else None
  }

  /** The decoder registered for one kind of action. */
  function DecodeAs(k: Kind, b: Bytes): (r: Option<(Action, Bytes)>)
    ensures r.Some? <==> ParseAll(Shape(k), b).Some?
    ensures r.Some? ==> KindOf(r.value.0) == k && ParseAll(Shape(k), b) == Some((Fields(r.value.0), r.value.1))
  {
    match ParseAll(Shape(k), b)
    case None => None
    case Some(parsed) =>
      FieldsCanonical(Shape(k), b);
      Some((Build(k, parsed.0), parsed.1))
  }

  function Decode(b: Bytes): Option<(Action, Bytes)> {
    if b == [] || KindWith(b[0]) == None then None
    else DecodeAs(KindWith(b[0]).value, b[1..])
  }

  lemma KindWithTypeID(k: Kind)
    ensures KindWith(TypeID(k)) == Some(k)
  {
  }

  /**
   * Decoding an encoded action followed by anything gives back the action and what followed, exactly
   * when its fields are in order.
   */
  lemma ActionRoundTrip(a: Action, rest: Bytes)
    ensures Decode(Encode(a) + rest) == Some((a, rest)) <==> Encodable(a)
  {
    var k, tail := KindOf(a), FieldsBytes(Fields(a)) + rest;
    Associate([TypeID(k)], FieldsBytes(Fields(a)), rest);
    assert ([TypeID(k)] + tail)[1..] == tail;
    KindWithTypeID(k);
    assert Decode(Encode(a) + rest) == DecodeAs(k, tail);
    if DecodeAs(k, tail) == Some((a, rest)) { FieldsCanonical(Shape(k), tail); }
    if Encodable(a) {
      FieldsRoundTrip(Shape(k), Fields(a), rest);
      FieldsDetermine(a, Decode(Encode(a) + rest).value.0);
    }
  }

  /** There is only one way to write an action: whatever decodes to it is its encoding. */
  lemma ActionCanonical(b: Bytes)
    requires Decode(b).Some?
    ensures var (a, rest) := Decode(b).value; Encodable(a) && b == Encode(a) + rest
  {
    var k := KindWith(b[0]).value;
    FieldsCanonical(Shape(k), b[1..]);
    var (a, rest) := Decode(b).value;
    assert b == [b[0]] + b[1..];
    Associate([b[0]], FieldsBytes(Fields(a)), rest);
  }

  /** No encoding is a prefix of another action's encoding. */
  lemma PrefixFree(a: Action, a': Action, rest: Bytes, rest': Bytes)
    requires Encodable(a) && Encodable(a') && Encode(a) + rest == Encode(a') + rest'
    ensures a == a' && rest == rest'
  {
    ActionRoundTrip(a, rest);
    ActionRoundTrip(a', rest');
  }
}
