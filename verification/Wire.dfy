/** The bytes of every action, written out: type ID, field order, widths and length prefixes. */
module Wire {
  import opened Encoding
  import opened Actions
  import opened Codec

  /** A text follows its length in two bytes. */
  function TextWire(s: Bytes): Bytes {
    var n := |s| % 0x1_0000;
    [n / 256, n % 256] + s
  }

  /** A byte string follows its length in four bytes. */
  function BlobWire(d: Bytes): Bytes {
    var n := |d| % 0x1_0000_0000;
    [n / 0x100_0000, n / 0x1_0000 % 256, n / 256 % 256, n % 256] + d
  }

  predicate OnWire(a: Action, b: Bytes) {
    match a
    case Transfer(to, value) => b == [0] + (to + U64Bytes(value))
    case Register(system) => b == [1] + U64Bytes(system)
    case RegisterImage(image, valType, rootHash) => b == [2] + (image + U64Bytes(valType) + TextWire(rootHash))
    case ValidatorVote(tx, yes, signature, publicKey) =>
      b == [3] + (tx + [if yes then 1 else 0] + BlobWire(signature) + BlobWire(publicKey))
    case SP1(image, valType, timeOut) => b == [4] + (image + U64Bytes(valType) + U64Bytes(timeOut))
    case Miden(image, valType, code, inputs, outputs, timeOut) =>
      b == [5] + (image + U64Bytes(valType) + TextWire(code) + TextWire(inputs) + TextWire(outputs) + U64Bytes(timeOut))
    case RiscZero(image, valType, riscImage, timeOut) =>
      b == [6] + (image + U64Bytes(valType) + TextWire(riscImage) + U64Bytes(timeOut))
    case Jolt(image, valType, timeOut) => b == [8] + (image + U64Bytes(valType) + U64Bytes(timeOut))
    case Plonky2(image, valType, common, verifier, timeOut) =>
      b == [9] + (image + U64Bytes(valType) + U64Bytes(common) + U64Bytes(verifier) + U64Bytes(timeOut))
  }

  // ---------- Fields one after the other ----------

  lemma TextBytes(s: Bytes)
    ensures FieldBytes(Text(s)) == TextWire(s)
  {
    U16Layout(|s| % TWO16);
  }

  lemma BlobBytes(d: Bytes)
    ensures FieldBytes(Blob(d)) == BlobWire(d)
  {
    U32Layout(|d| % TWO32);
  }

  lemma U32Layout(n: nat)
    requires n < TWO32
    ensures BigEndian(n, 4) == [n / 0x100_0000, n / 0x1_0000 % 256, n / 256 % 256, n % 256]
  {
    assert Pow256(0) == 1 && Pow256(1) == 256 && Pow256(2) == 0x1_0000 && Pow256(3) == 0x100_0000;
    BigEndianAt(n, 4, 0);
    BigEndianAt(n, 4, 1);
    BigEndianAt(n, 4, 2);
    BigEndianAt(n, 4, 3);
    assert n / 0x100_0000 < 256;
    assert |BigEndian(n, 4)| == 4;
  }

  lemma OneField(f: Field)
    ensures FieldsBytes([f]) == FieldBytes(f)
  {
    FieldsBytesAppend([], f);
    assert [] + [f] == [f];
  }

  lemma TwoFields(f: Field, g: Field)
    ensures FieldsBytes([f, g]) == FieldBytes(f) + FieldBytes(g)
  {
    OneField(f);
    FieldsBytesAppend([f], g);
    assert [f] + [g] == [f, g];
  }

  lemma ThreeFields(f: Field, g: Field, h: Field)
    ensures FieldsBytes([f, g, h]) == FieldBytes(f) + FieldBytes(g) + FieldBytes(h)
  {
    TwoFields(f, g);
    FieldsBytesAppend([f, g], h);
    assert [f, g] + [h] == [f, g, h];
  }

  lemma FourFields(f: Field, g: Field, h: Field, i: Field)
    ensures FieldsBytes([f, g, h, i]) == FieldBytes(f) + FieldBytes(g) + FieldBytes(h) + FieldBytes(i)
  {
    ThreeFields(f, g, h);
    FieldsBytesAppend([f, g, h], i);
    assert [f, g, h] + [i] == [f, g, h, i];
  }

  lemma FiveFields(f: Field, g: Field, h: Field, i: Field, j: Field)
    ensures FieldsBytes([f, g, h, i, j])
         == FieldBytes(f) + FieldBytes(g) + FieldBytes(h) + FieldBytes(i) + FieldBytes(j)
  {
    FourFields(f, g, h, i);
    FieldsBytesAppend([f, g, h, i], j);
    assert [f, g, h, i] + [j] == [f, g, h, i, j];
  }

  lemma SixFields(f: Field, g: Field, h: Field, i: Field, j: Field, k: Field)
    ensures FieldsBytes([f, g, h, i, j, k])
         == FieldBytes(f) + FieldBytes(g) + FieldBytes(h) + FieldBytes(i) + FieldBytes(j) + FieldBytes(k)
  {
    FiveFields(f, g, h, i, j);
    FieldsBytesAppend([f, g, h, i, j], k);
    assert [f, g, h, i, j] + [k] == [f, g, h, i, j, k];
  }

  // ---------- Layout ----------

  lemma TransferLayout(a: Action)
    requires a.Transfer?
    ensures OnWire(a, Encode(a))
  {
    TwoFields(Addr(a.to), Number(a.value));
  }

  lemma RegisterLayout(a: Action)
    requires a.Register?
    ensures OnWire(a, Encode(a))
  {
    OneField(Number(a.provingSystem));
  }

  lemma SP1Layout(a: Action)
    requires a.SP1?
    ensures OnWire(a, Encode(a))
  {
    ThreeFields(Id(a.image), Number(a.proofValType), Number(a.timeOutBlocks));
  }

  lemma JoltLayout(a: Action)
    requires a.Jolt?
    ensures OnWire(a, Encode(a))
  {
    ThreeFields(Id(a.image), Number(a.proofValType), Number(a.timeOutBlocks));
  }

  lemma Plonky2Layout(a: Action)
    requires a.Plonky2?
    ensures OnWire(a, Encode(a))
  {
    FiveFields(Id(a.image), Number(a.proofValType), Number(a.commonDataValType), Number(a.verifierDataValType),
               Number(a.timeOutBlocks));
  }

  lemma RegisterImageLayout(a: Action)
    requires a.RegisterImage?
    ensures OnWire(a, Encode(a))
  {
    ThreeFields(Id(a.image), Number(a.valType), Text(a.rootHash));
    TextBytes(a.rootHash);
  }

  lemma RiscZeroLayout(a: Action)
    requires a.RiscZero?
    ensures OnWire(a, Encode(a))
  {
    FourFields(Id(a.image), Number(a.proofValType), Text(a.riscZeroImage), Number(a.timeOutBlocks));
    TextBytes(a.riscZeroImage);
  }

  lemma MidenLayout(a: Action)
    requires a.Miden?
    ensures OnWire(a, Encode(a))
  {
    SixFields(Id(a.image), Number(a.proofValType), Text(a.code), Text(a.inputs), Text(a.outputs),
              Number(a.timeOutBlocks));
    TextBytes(a.code);
    TextBytes(a.inputs);
    TextBytes(a.outputs);
  }

  lemma VoteLayout(a: Action)
    requires a.ValidatorVote?
    ensures OnWire(a, Encode(a))
  {
    FourFields(Id(a.tx), Flag(a.vote), Blob(a.signature), Blob(a.publicKey));
    BlobBytes(a.signature);
    BlobBytes(a.publicKey);
  }

  /** What is written for an action, byte by byte. */
  lemma EncodeLayout(a: Action)
    ensures OnWire(a, Encode(a))
  {
    match a
    case Transfer(_, _) => TransferLayout(a);
    case Register(_) => RegisterLayout(a);
    case SP1(_, _, _) => SP1Layout(a);
    case Jolt(_, _, _) => JoltLayout(a);
    case Plonky2(_, _, _, _, _) => Plonky2Layout(a);
    case RegisterImage(_, _, _) => RegisterImageLayout(a);
    case RiscZero(_, _, _, _) => RiscZeroLayout(a);
    case Miden(_, _, _, _, _, _) => MidenLayout(a);
    case ValidatorVote(_, _, _, _) => VoteLayout(a);
  }

  // ---------- Limits ----------

  /** IDs and numbers are not zero; texts and byte strings are not empty and within their limits. */
  predicate InOrder(a: Action) {
    match a
    case Transfer(_, value) => value > 0
    case Register(system) => system > 0
    case RegisterImage(image, valType, rootHash) => image != EmptyID() && valType > 0 && 0 < |rootHash| < 65536
    case ValidatorVote(tx, _, signature, publicKey) =>
      tx != EmptyID() && 0 < |signature| <= 96 && 0 < |publicKey| <= 48
    case SP1(image, valType, timeOut) => image != EmptyID() && valType > 0 && timeOut > 0
    case Miden(image, valType, code, inputs, outputs, timeOut) =>
      image != EmptyID() && valType > 0 && timeOut > 0
      && 0 < |code| < 65536 && 0 < |inputs| < 65536 && 0 < |outputs| < 65536
    case RiscZero(image, valType, riscImage, timeOut) =>
      image != EmptyID() && valType > 0 && 0 < |riscImage| < 65536 && timeOut > 0
    case Jolt(image, valType, timeOut) => image != EmptyID() && valType > 0 && timeOut > 0
    case Plonky2(image, valType, common, verifier, timeOut) =>
      image != EmptyID() && valType > 0 && common > 0 && verifier > 0 && timeOut > 0
  }

  lemma Accepts1(t: FieldType, f: Field)
    ensures AcceptsAll([t], [f]) <==> Accepts(t, f)
  {
    assert [t][0] == t && [f][0] == f;
  }

  /** The first field, and then the others. */
  lemma AcceptsNext(t: FieldType, shape: seq<FieldType>, f: Field, fields: seq<Field>)
    ensures AcceptsAll([t] + shape, [f] + fields) <==> Accepts(t, f) && AcceptsAll(shape, fields)
  {
    var shape', fields' := [t] + shape, [f] + fields;
    assert shape'[0] == t && fields'[0] == f;
    if AcceptsAll(shape', fields') {
      forall i | 0 <= i < |shape| ensures Accepts(shape[i], fields[i]) {
        assert Accepts(shape'[i + 1], fields'[i + 1]);
      }
    }
  }

  lemma Accepts2(t: FieldType, u: FieldType, f: Field, g: Field)
    ensures AcceptsAll([t, u], [f, g]) <==> Accepts(t, f) && Accepts(u, g)
  {
    Accepts1(u, g);
    AcceptsNext(t, [u], f, [g]);
    assert [t] + [u] == [t, u] && [f] + [g] == [f, g];
  }

  lemma Accepts3(t: FieldType, u: FieldType, v: FieldType, f: Field, g: Field, h: Field)
    ensures AcceptsAll([t, u, v], [f, g, h]) <==> Accepts(t, f) && Accepts(u, g) && Accepts(v, h)
  {
    Accepts2(u, v, g, h);
    AcceptsNext(t, [u, v], f, [g, h]);
    assert [t] + [u, v] == [t, u, v] && [f] + [g, h] == [f, g, h];
  }

  lemma SmallEncodable(a: Action)
    requires a.Transfer? || a.Register? || a.RegisterImage? || a.SP1? || a.Jolt?
    ensures Encodable(a) <==> InOrder(a)
  {
    match a
    case Transfer(to, value) => Accepts2(AddressT, NumberT, Addr(to), Number(value));
    case Register(system) => Accepts1(NumberT, Number(system));
    case RegisterImage(image, valType, rootHash) =>
      Accepts3(IdT, NumberT, TextT, Id(image), Number(valType), Text(rootHash));
    case SP1(image, valType, timeOut) =>
      Accepts3(IdT, NumberT, NumberT, Id(image), Number(valType), Number(timeOut));
    case Jolt(image, valType, timeOut) =>
      Accepts3(IdT, NumberT, NumberT, Id(image), Number(valType), Number(timeOut));
  }

  lemma Accepts4(t: FieldType, u: FieldType, v: FieldType, w: FieldType, f: Field, g: Field, h: Field, i: Field)
    ensures AcceptsAll([t, u, v, w], [f, g, h, i])
       <==> Accepts(t, f) && Accepts(u, g) && Accepts(v, h) && Accepts(w, i)
  {
    Accepts3(u, v, w, g, h, i);
    AcceptsNext(t, [u, v, w], f, [g, h, i]);
    assert [t] + [u, v, w] == [t, u, v, w] && [f] + [g, h, i] == [f, g, h, i];
  }

  lemma RiscZeroEncodable(a: Action)
    requires a.RiscZero?
    ensures Encodable(a) <==> InOrder(a)
  {
    Accepts4(IdT, NumberT, TextT, NumberT,
             Id(a.image), Number(a.proofValType), Text(a.riscZeroImage), Number(a.timeOutBlocks));
  }

  lemma Plonky2Encodable(a: Action)
    requires a.Plonky2?
    ensures Encodable(a) <==> InOrder(a)
  {
    var shape := [NumberT, NumberT, NumberT, NumberT];
    var fields := [Number(a.proofValType), Number(a.commonDataValType), Number(a.verifierDataValType),
                   Number(a.timeOutBlocks)];
    Accepts4(NumberT, NumberT, NumberT, NumberT, fields[0], fields[1], fields[2], fields[3]);
    AcceptsNext(IdT, shape, Id(a.image), fields);
    assert [IdT] + shape == Shape(Plonky2K) && [Id(a.image)] + fields == Fields(a);
  }

  lemma MidenEncodable(a: Action)
    requires a.Miden?
    ensures Encodable(a) <==> InOrder(a)
  {
    var shape := [TextT, TextT, TextT, NumberT];
    var fields := [Text(a.code), Text(a.inputs), Text(a.outputs), Number(a.timeOutBlocks)];
    Accepts4(TextT, TextT, TextT, NumberT, fields[0], fields[1], fields[2], fields[3]);
    AcceptsNext(NumberT, shape, Number(a.proofValType), fields);
    AcceptsNext(IdT, [NumberT] + shape, Id(a.image), [Number(a.proofValType)] + fields);
    assert [IdT] + ([NumberT] + shape) == Shape(MidenK);
    assert [Id(a.image)] + ([Number(a.proofValType)] + fields) == Fields(a);
  }

  /** An action decodes exactly when its fields are in order. */
  lemma EncodableExactly(a: Action)
    ensures Encodable(a) <==> InOrder(a)
  {
    match a
    case Miden(_, _, _, _, _, _) => MidenEncodable(a);
    case RiscZero(_, _, _, _) => RiscZeroEncodable(a);
    case Plonky2(_, _, _, _, _) => Plonky2Encodable(a);
    case ValidatorVote(_, _, _, _) => VoteEncodable(a);
    case _ => SmallEncodable(a);
  }
}
