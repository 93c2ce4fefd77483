/** The byte keys of storage.go: builders that fill buffers, and why no two records share a key. */
module Keys {
  import opened Encoding

  const BALANCE_CHUNKS: U16 := 1
  const HASH_CHUNKS_MAX: U16 := 10
  const TIME_OUT_CHUNKS: U16 := 1

  /** What a state key stands for: one constructor per builder, with the builder's arguments. */
  datatype Key =
    | Balance(addr: Address)
    | Height
    | Timestamp
    | Fee
    | IncomingWarp(source: ID, msg: ID)
    | OutgoingWarp(tx: ID)
    | Chunk(image: ID, registerType: U16)
    | Hash(image: ID, valType: U16)
    | TimeOut(tx: ID)
    | Weight(tx: ID)
    | Status(tx: ID)
    | Vote(tx: ID, actor: Address)

  function Prefix(k: Key): Byte {
    match k
    case Balance(_) => 0x0
    case Height => 0x1
    case Timestamp => 0x2
    case Fee => 0x3
    case IncomingWarp(_, _) => 0x4
    case OutgoingWarp(_) => 0x5
    case Chunk(_, _) => 0x6
    case Hash(_, _) => 0x7
    case TimeOut(_) => 0x8
    case Weight(_) => 0x9
    case Status(_) => 0xa
    case Vote(_, _) => 0xb
  }

  /** The arguments as they are laid out after the prefix. */
  function Payload(k: Key): Bytes {
    match k
    case Balance(a) => a + U16Bytes(BALANCE_CHUNKS)
    case Height => []
    case Timestamp => []
    case Fee => []
    case IncomingWarp(s, m) => s + m
    case OutgoingWarp(t) => t
    case Chunk(i, t) => i + U16Bytes(t)
    case Hash(i, t) => i + U16Bytes(t) + U16Bytes(HASH_CHUNKS_MAX)
    case TimeOut(t) => t + U16Bytes(TIME_OUT_CHUNKS)
    case Weight(t) => t + U16Bytes(TIME_OUT_CHUNKS)
    case Status(t) => t + U16Bytes(TIME_OUT_CHUNKS)
    case Vote(t, a) => t + a + U16Bytes(TIME_OUT_CHUNKS)
  }

  function KeyBytes(k: Key): Bytes {
    [Prefix(k)] + Payload(k)
  }

  /** Each kind of key, byte by byte. */
  predicate LaidOut(k: Key, b: Bytes) {
    match k
    case Balance(a) => b == [0x0] + a + [0, 1]
    case Height => b == [0x1]
    case Timestamp => b == [0x2]
    case Fee => b == [0x3]
    case IncomingWarp(s, m) => b == [0x4] + s + m
    case OutgoingWarp(t) => b == [0x5] + t
    case Chunk(i, t) => b == [0x6] + i + [t / 256, t % 256]
    case Hash(i, t) => b == [0x7] + i + [t / 256, t % 256] + [0, 10]
    case TimeOut(t) => b == [0x8] + t + [0, 1]
    case Weight(t) => b == [0x9] + t + [0, 1]
    case Status(t) => b == [0xa] + t + [0, 1]
    case Vote(t, a) => b == [0xb] + t + a + [0, 1]
  }

  lemma KeyLayout(k: Key)
    ensures LaidOut(k, KeyBytes(k))
  {
    U16Layout(1);
    U16Layout(10);
    match k
    case Balance(a) => Associate([0x0], a, [0, 1]);
    case IncomingWarp(s, m) => Associate([0x4], s, m);
    case Chunk(i, t) =>
      U16Layout(t);
      Associate([0x6], i, [t / 256, t % 256]);
    case Hash(i, t) =>
      U16Layout(t);
      Associate([0x7], i, [t / 256, t % 256]);
      Associate([0x7], i + [t / 256, t % 256], [0, 10]);
    case TimeOut(t) => Associate([0x8], t, [0, 1]);
    case Weight(t) => Associate([0x9], t, [0, 1]);
    case Status(t) => Associate([0xa], t, [0, 1]);
    case Vote(t, a) =>
      Associate([0xb], t, a);
      Associate([0xb], t + a, [0, 1]);
    case _ =>
  }

  // ---------- No two keys collide ----------

  lemma SplitPrefix(a: Bytes, b: Bytes, a': Bytes, b': Bytes)
    requires |a| == |a'| && a + b == a' + b'
    ensures a == a' && b == b'
  {
    assert a == (a + b)[..|a|] && b == (a + b)[|a|..];
  }

  lemma U16BytesInjective(m: U16, n: U16)
    requires U16Bytes(m) == U16Bytes(n)
    ensures m == n
  {
    U16RoundTrip(m);
    U16RoundTrip(n);
  }

  lemma U64BytesInjective(m: U64, n: U64)
    requires U64Bytes(m) == U64Bytes(n)
    ensures m == n
  {
    U64RoundTrip(m);
    U64RoundTrip(n);
  }

  lemma PayloadInjective(k: Key, k': Key)
    requires Prefix(k) == Prefix(k') && Payload(k) == Payload(k')
    ensures k == k'
  {
    match k {
      case Balance(a) => SplitPrefix(a, U16Bytes(BALANCE_CHUNKS), k'.addr, U16Bytes(BALANCE_CHUNKS));
      case Height =>
      case Timestamp =>
      case Fee =>
      case IncomingWarp(s, m) => SplitPrefix(s, m, k'.source, k'.msg);
      case OutgoingWarp(_) =>
      case Chunk(i, t) =>
        SplitPrefix(i, U16Bytes(t), k'.image, U16Bytes(k'.registerType));
        U16BytesInjective(t, k'.registerType);
      case Hash(i, t) =>
        var chunks := U16Bytes(HASH_CHUNKS_MAX);
        SplitPrefix(i + U16Bytes(t), chunks, k'.image + U16Bytes(k'.valType), chunks);
        SplitPrefix(i, U16Bytes(t), k'.image, U16Bytes(k'.valType));
        U16BytesInjective(t, k'.valType);
      case TimeOut(t) => SplitPrefix(t, U16Bytes(TIME_OUT_CHUNKS), k'.tx, U16Bytes(TIME_OUT_CHUNKS));
      case Weight(t) => SplitPrefix(t, U16Bytes(TIME_OUT_CHUNKS), k'.tx, U16Bytes(TIME_OUT_CHUNKS));
      case Status(t) => SplitPrefix(t, U16Bytes(TIME_OUT_CHUNKS), k'.tx, U16Bytes(TIME_OUT_CHUNKS));
      case Vote(t, a) =>
        SplitPrefix(t + a, U16Bytes(TIME_OUT_CHUNKS), k'.tx + k'.actor, U16Bytes(TIME_OUT_CHUNKS));
        SplitPrefix(t, a, k'.tx, k'.actor);
    }
  }

  /** Different records, or the same record with different arguments, never share a byte key. */
  lemma KeyBytesInjective(k: Key, k': Key)
    ensures KeyBytes(k) == KeyBytes(k') <==> k == k'
  {
    if KeyBytes(k) == KeyBytes(k') {
      SplitPrefix([Prefix(k)], Payload(k), [Prefix(k')], Payload(k'));
      PayloadInjective(k, k');
    }
  }

  // ---------- The builders ----------

  /** Go's copy into a slice of a freshly made buffer whose first bytes are already written. */
  method CopyInto(dst: array<Byte>, at: nat, src: Bytes, ghost written: Bytes)
    requires at + |src| <= dst.Length && dst[..at] == written
    modifies dst
    ensures dst[..at + |src|] == written + src
    ensures dst[at + |src|..] == old(dst[at + |src|..])
  {
    for i := 0 to |src|
      invariant dst[..at + i] == written + src[..i]
      invariant dst[at + i..] == old(dst[at + i..])
    {
      dst[at + i] := src[i];
    }
  }

  /** A buffer of n bytes that starts with the prefix of a key. */
  method NewBuffer(n: nat, prefix: Byte) returns (k: array<Byte>)
    requires n > 0
    ensures fresh(k) && k.Length == n && k[..1] == [prefix]
  {
    k := new Byte[n](_ => 0);
    k[0] := prefix;
  }

  method BalanceKey(addr: Address) returns (k: array<Byte>)
    ensures fresh(k) && k[..] == KeyBytes(Key.Balance(addr))
  {
    k := NewBuffer(1 + ADDRESS_LEN + 2, 0x0);
    CopyInto(k, 1, addr, [0x0]);
    CopyInto(k, 1 + ADDRESS_LEN, U16Bytes(BALANCE_CHUNKS), [0x0] + addr);
    assert k[..] == k[..1 + ADDRESS_LEN + 2];
    assert [0x0] + addr + U16Bytes(BALANCE_CHUNKS) == KeyBytes(Key.Balance(addr));
  }

  method IncomingWarpKeyPrefix(source: ID, msg: ID) returns (k: array<Byte>)
    ensures fresh(k) && k[..] == KeyBytes(Key.IncomingWarp(source, msg))
  {
    k := NewBuffer(1 + ID_LEN * 2, 0x4);
    CopyInto(k, 1, source, [0x4]);
    CopyInto(k, 1 + ID_LEN, msg, [0x4] + source);
    assert k[..] == k[..1 + ID_LEN * 2];
    assert [0x4] + source + msg == KeyBytes(Key.IncomingWarp(source, msg));
  }

  method OutgoingWarpKeyPrefix(tx: ID) returns (k: array<Byte>)
    ensures fresh(k) && k[..] == KeyBytes(Key.OutgoingWarp(tx))
  {
    k := NewBuffer(1 + ID_LEN, 0x5);
    CopyInto(k, 1, tx, [0x5]);
    assert k[..] == k[..1 + ID_LEN];
  }

  method ChunkKey(image: ID, registerType: U16) returns (k: array<Byte>)
    ensures fresh(k) && k[..] == KeyBytes(Key.Chunk(image, registerType))
  {
    k := NewBuffer(1 + ID_LEN + 2, 0x6);
    CopyInto(k, 1, image, [0x6]);
    CopyInto(k, 1 + ID_LEN, U16Bytes(registerType), [0x6] + image);
    assert k[..] == k[..1 + ID_LEN + 2];
    assert [0x6] + image + U16Bytes(registerType) == KeyBytes(Key.Chunk(image, registerType));
  }

  method HashKey(image: ID, valType: U16) returns (k: array<Byte>)
    ensures fresh(k) && k[..] == KeyBytes(Key.Hash(image, valType))
  {
    k := NewBuffer(1 + ID_LEN + 2 + 2, 0x7);
    CopyInto(k, 1, image, [0x7]);
    CopyInto(k, 1 + ID_LEN, U16Bytes(valType), [0x7] + image);
    CopyInto(k, 1 + ID_LEN + 2, U16Bytes(HASH_CHUNKS_MAX), [0x7] + image + U16Bytes(valType));
    assert k[..] == k[..1 + ID_LEN + 2 + 2];
    assert [0x7] + image + U16Bytes(valType) + U16Bytes(HASH_CHUNKS_MAX) == KeyBytes(Key.Hash(image, valType));
  }

  method TimeOutKey(tx: ID) returns (k: array<Byte>)
    ensures fresh(k) && k[..] == KeyBytes(Key.TimeOut(tx))
  {
    k := NewBuffer(1 + ID_LEN + 2, 0x8);
    CopyInto(k, 1, tx, [0x8]);
    CopyInto(k, 1 + ID_LEN, U16Bytes(TIME_OUT_CHUNKS), [0x8] + tx);
    assert k[..] == k[..1 + ID_LEN + 2];
    assert [0x8] + tx + U16Bytes(TIME_OUT_CHUNKS) == KeyBytes(Key.TimeOut(tx));
  }

  method WeightKey(tx: ID) returns (k: array<Byte>)
    ensures fresh(k) && k[..] == KeyBytes(Key.Weight(tx))
  {
    k := NewBuffer(1 + ID_LEN + 2, 0x9);
    CopyInto(k, 1, tx, [0x9]);
    CopyInto(k, 1 + ID_LEN, U16Bytes(TIME_OUT_CHUNKS), [0x9] + tx);
    assert k[..] == k[..1 + ID_LEN + 2];
    assert [0x9] + tx + U16Bytes(TIME_OUT_CHUNKS) == KeyBytes(Key.Weight(tx));
  }

  method StatusKey(tx: ID) returns (k: array<Byte>)
    ensures fresh(k) && k[..] == KeyBytes(Key.Status(tx))
  {
    k := NewBuffer(1 + ID_LEN + 2, 0xa);
    CopyInto(k, 1, tx, [0xa]);
    CopyInto(k, 1 + ID_LEN, U16Bytes(TIME_OUT_CHUNKS), [0xa] + tx);
    assert k[..] == k[..1 + ID_LEN + 2];
    assert [0xa] + tx + U16Bytes(TIME_OUT_CHUNKS) == KeyBytes(Key.Status(tx));
  }

  method VoteKey(tx: ID, actor: Address) returns (k: array<Byte>)
    ensures fresh(k) && k[..] == KeyBytes(Key.Vote(tx, actor))
  {
    k := NewBuffer(1 + ID_LEN + ADDRESS_LEN + 2, 0xb);
    CopyInto(k, 1, tx, [0xb]);
    CopyInto(k, 1 + ID_LEN, actor, [0xb] + tx);
    CopyInto(k, 1 + ID_LEN + ADDRESS_LEN, U16Bytes(TIME_OUT_CHUNKS), [0xb] + tx + actor);
    assert k[..] == k[..1 + ID_LEN + ADDRESS_LEN + 2];
    assert [0xb] + tx + actor + U16Bytes(TIME_OUT_CHUNKS) == KeyBytes(Key.Vote(tx, actor));
  }
}
