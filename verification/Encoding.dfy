/** Machine integers, byte strings and the fixed-width big-endian encoding of encoding/binary. */
module Encoding {

  datatype Option<+T> = None | Some(value: T)

  const TWO16 := 0x1_0000
  const TWO32 := 0x1_0000_0000
  const TWO63 := 0x8000_0000_0000_0000
  const TWO64 := 0x1_0000_0000_0000_0000
  const MAX_U64 := TWO64 - 1
  const MAX_I64 := TWO63 - 1

  type Byte = b: int | 0 <= b < 256
  type U16 = n: int | 0 <= n < TWO16
  type U64 = n: int | 0 <= n < TWO64
  type I64 = n: int | -TWO63 <= n < TWO63

  type Bytes = seq<Byte>

  const ID_LEN: nat := 32
  const ADDRESS_LEN: nat := 33

  type ID = s: Bytes | |s| == ID_LEN witness seq(ID_LEN, _ => 0)
  type Address = s: Bytes | |s| == ADDRESS_LEN witness seq(ADDRESS_LEN, _ => 0)

  predicate IsZero(b: Bytes) {
    forall i | 0 <= i < |b| :: b[i] == 0
  }

  /** ids.Empty, the only ID of zero bytes. */
  function EmptyID(): (id: ID)
    ensures IsZero(id)
    ensures forall other: ID :: IsZero(other) ==> other == id
  {
    var id: Bytes := seq(ID_LEN, _ => 0);
    assert forall other: ID | IsZero(other) :: other == id;
    id
  }

  // ---------- Pieces of byte strings ----------

  lemma Associate(a: Bytes, b: Bytes, c: Bytes)
    ensures a + b + c == a + (b + c)
  {
  }

  lemma Pieces(a: Bytes, b: Bytes, c: Bytes)
    ensures var s := a + b + c; s[..|a|] == a && s[|a|..|a| + |b|] == b && s[|a| + |b|..] == c
  {
  }

  lemma Cut(s: Bytes, i: nat, j: nat)
    requires i <= j <= |s|
    ensures s == s[..i] + s[i..j] + s[j..]
  {
  }

  // ---------- Wrap-around of Go's fixed-width integers ----------

  /** The signed 64-bit value of an unbounded sum. */
  function WrapI64(n: int): I64 {
    (n + TWO63) % TWO64 - TWO63
  }

  /** The conversions uint64(t) and int64(u). */
  function I64ToU64(t: I64): U64 {
    if t < 0 then t + TWO64 else t
  }

  function U64ToI64(u: U64): I64 {
    if u < TWO63 then u else u - TWO64
  }

  /** Each conversion keeps the number modulo 2^64, which with the range of its type says what it is. */
  lemma SameModulo(n: int, t: I64, u: U64)
    ensures (WrapI64(n) - n) % TWO64 == 0
    ensures (I64ToU64(t) - t) % TWO64 == 0 && (U64ToI64(u) - u) % TWO64 == 0
  {
    var k := (n + TWO63) / TWO64;
    assert WrapI64(n) - n == TWO64 * (0 - k);
  }

  // ---------- Big-endian numbers ----------

  function Pow256(width: nat): (p: nat)
    ensures p > 0
  {
    if width == 0 then 1 else 256 * Pow256(width - 1)
  }

  function BigEndian(n: nat, width: nat): (b: Bytes)
    ensures |b| == width
  {
    if width == 0 then [] else BigEndian(n / 256, width - 1) + [n % 256]
  }

  function FromBigEndian(b: Bytes): nat {
    if b == [] then 0 else FromBigEndian(b[..|b| - 1]) * 256 + b[|b| - 1]
  }

  lemma {:induction false} FromBigEndianOfBigEndian(n: nat, width: nat)
    requires n < Pow256(width)
    ensures FromBigEndian(BigEndian(n, width)) == n
  {
    if width != 0 {
      FromBigEndianOfBigEndian(n / 256, width - 1);
      assert BigEndian(n, width)[..width - 1] == BigEndian(n / 256, width - 1);
    }
  }

  lemma {:induction false} BigEndianOfFromBigEndian(b: Bytes)
    ensures FromBigEndian(b) < Pow256(|b|)
    ensures BigEndian(FromBigEndian(b), |b|) == b
  {
    if b != [] {
      var n := FromBigEndian(b[..|b| - 1]);
      BigEndianOfFromBigEndian(b[..|b| - 1]);
      assert FromBigEndian(b) == n * 256 + b[|b| - 1];
      assert FromBigEndian(b) / 256 == n && FromBigEndian(b) % 256 == b[|b| - 1];
      assert b == b[..|b| - 1] + [b[|b| - 1]];
    }
  }

  lemma Scale(a: nat, b: nat, d: nat)
    requires a <= b
    ensures d * a <= d * b
  {
  }

  lemma DivideTwice(n: nat, d: nat)
    requires d > 0
    ensures n / 256 / d == n / (256 * d)
  {
    var q, r := n / (256 * d), n % (256 * d);
    assert n == 256 * d * q + r;
    assert n / 256 == d * q + r / 256;
    assert 0 <= r / 256 < d;
    DivideBack(d, q, r / 256);
  }

  lemma DivideBack(d: nat, q: nat, r: nat)
    requires r < d
    ensures (d * q + r) / d == q
  {
    var k := (d * q + r) / d;
    assert d * k <= d * q + r < d * k + d;
    if k > q {
      Scale(q + 1, k, d);
    } else if k < q {
      Scale(k + 1, q, d);
    }
  }

  /** The most significant byte comes first. */
  lemma {:induction false} BigEndianAt(n: nat, width: nat, i: nat)
    requires i < width
    ensures BigEndian(n, width)[i] == n / Pow256(width - 1 - i) % 256
    decreases width
  {
    if i < width - 1 {
      BigEndianAt(n / 256, width - 1, i);
      DivideTwice(n, Pow256(width - 2 - i));
      assert BigEndian(n, width)[i] == BigEndian(n / 256, width - 1)[i];
    } else {
      assert Pow256(0) == 1;
    }
  }

  lemma U16Layout(n: U16)
    ensures U16Bytes(n) == [n / 256, n % 256]
  {
    assert BigEndian(n / 256, 1) == BigEndian(n / 256 / 256, 0) + [n / 256 % 256];
  }

  function U16Bytes(n: U16): (b: Bytes)
    ensures |b| == 2
  {
    BigEndian(n, 2)
  }

  function U64Bytes(n: U64): (b: Bytes)
    ensures |b| == 8
  {
    BigEndian(n, 8)
  }

  function I64Bytes(t: I64): (b: Bytes)
    ensures |b| == 8
  {
    U64Bytes(I64ToU64(t))
  }

  function ReadU16(b: Bytes): U16
    requires |b| == 2
  {
    BigEndianOfFromBigEndian(b);
    Widths();
    FromBigEndian(b)
  }

  function ReadU64(b: Bytes): U64
    requires |b| == 8
  {
    BigEndianOfFromBigEndian(b);
    Widths();
    FromBigEndian(b)
  }

  lemma Widths()
    ensures Pow256(1) == 256 && Pow256(2) == TWO16 && Pow256(4) == TWO32 && Pow256(8) == TWO64
  {
    assert Pow256(1) == 256;
    assert Pow256(2) == 0x1_0000;
    assert Pow256(3) == 0x100_0000;
    assert Pow256(4) == 0x1_0000_0000;
    assert Pow256(5) == 0x100_0000_0000;
    assert Pow256(6) == 0x1_0000_0000_0000;
    assert Pow256(7) == 0x100_0000_0000_0000;
  }

  lemma U16RoundTrip(n: U16)
    ensures ReadU16(U16Bytes(n)) == n
  {
    Widths();
    FromBigEndianOfBigEndian(n, 2);
  }

  lemma U64RoundTrip(n: U64)
    ensures ReadU64(U64Bytes(n)) == n
  {
    Widths();
    FromBigEndianOfBigEndian(n, 8);
  }

  lemma U64BytesRoundTrip(b: Bytes)
    requires |b| == 8
    ensures U64Bytes(ReadU64(b)) == b
  {
    BigEndianOfFromBigEndian(b);
  }

  lemma U16BytesRoundTrip(b: Bytes)
    requires |b| == 2
    ensures U16Bytes(ReadU16(b)) == b
  {
    BigEndianOfFromBigEndian(b);
  }

  /** Signed values survive the trip through an unsigned record, negative ones included. */
  lemma I64RoundTrip(t: I64)
    ensures U64ToI64(ReadU64(I64Bytes(t))) == t
  {
    U64RoundTrip(I64ToU64(t));
  }
}
