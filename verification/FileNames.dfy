/** DeployKey: the name of the file in which a registered image or proof is stored. */
module FileNames {
  import opened Encoding

  const DEPLOY_PREFIX: nat := 7
  const SUFFIX := ".pvalt"

  function Digit(d: nat): (c: char)
    requires d < 16
  {
    "0123456789abcdef"[d]
  }

  function DigitValue(c: char): int {
    if '0' <= c <= '9' then c as int - '0' as int else c as int - 'a' as int + 10
  }

  lemma DigitRoundTrip(d: nat)
    requires d < 16
    ensures DigitValue(Digit(d)) == d
  {
    assert d == 0 || d == 1 || d == 2 || d == 3 || d == 4 || d == 5 || d == 6 || d == 7
        || d == 8 || d == 9 || d == 10 || d == 11 || d == 12 || d == 13 || d == 14 || d == 15;
  }

  /** strconv.Itoa of a non-negative number: decimal, no padding. */
  function Itoa(n: nat): (s: string)
    ensures |s| > 0
  {
    if n < 10 then [Digit(n)] else Itoa(n / 10) + [Digit(n % 10)]
  }

  function Atoi(s: string): int {
    if s == "" then 0 else Atoi(s[..|s| - 1]) * 10 + DigitValue(s[|s| - 1])
  }

  lemma {:induction false} AtoiOfItoa(n: nat)
    ensures Atoi(Itoa(n)) == n
  {
    DigitRoundTrip(n % 10);
    if n < 10 {
      assert Itoa(n)[..0] == "";
    } else {
      AtoiOfItoa(n / 10);
      assert Itoa(n)[..|Itoa(n)| - 1] == Itoa(n / 10);
    }
  }

  /** ids.ID.Hex: two lower-case hexadecimal digits a byte. */
  function Hex(b: Bytes): (s: string)
    ensures |s| == 2 * |b|
  {
    if b == [] then "" else [Digit(b[0] / 16), Digit(b[0] % 16)] + Hex(b[1..])
  }

  lemma {:induction false} HexInjective(a: Bytes, b: Bytes)
    requires Hex(a) == Hex(b)
    ensures a == b
  {
    assert |Hex(a)| == |Hex(b)|;
    if a != [] {
      assert Hex(a)[0] == Hex(b)[0] && Hex(a)[1] == Hex(b)[1];
      DigitRoundTrip(a[0] / 16);
      DigitRoundTrip(b[0] / 16);
      DigitRoundTrip(a[0] % 16);
      DigitRoundTrip(b[0] % 16);
      assert Hex(a[1..]) == Hex(a)[2..] && Hex(b[1..]) == Hex(b)[2..];
      HexInjective(a[1..], b[1..]);
      assert a == [a[0]] + a[1..] && b == [b[0]] + b[1..];
    }
  }

  function DeployKey(image: ID, valType: U16): string {
    Itoa(DEPLOY_PREFIX) + Hex(image) + Itoa(valType) + SUFFIX
  }

  /** Two deployments share a file only if they agree on the image and on the type, although the type is not padded. */
  lemma DeployKeyInjective(image: ID, valType: U16, image': ID, valType': U16)
    ensures DeployKey(image, valType) == DeployKey(image', valType') <==> image == image' && valType == valType'
  {
    if DeployKey(image, valType) == DeployKey(image', valType') {
      var head := Itoa(DEPLOY_PREFIX);
      var name := DeployKey(image, valType);
      var name' := DeployKey(image', valType');
      var middle := |head| + 2 * ID_LEN;
      assert Hex(image) == name[|head|..middle] && Hex(image') == name'[|head|..middle];
      HexInjective(image, image');
      assert Itoa(valType) == name[middle..|name| - |SUFFIX|];
      assert Itoa(valType') == name'[middle..|name'| - |SUFFIX|];
      AtoiOfItoa(valType);
      AtoiOfItoa(valType');
    }
  }

  predicate IsDecimal(s: string) {
    forall i | 0 <= i < |s| :: '0' <= s[i] <= '9'
  }

  lemma {:induction false} ItoaIsDecimal(n: nat)
    ensures IsDecimal(Itoa(n)) && (n > 0 ==> Itoa(n)[0] != '0')
  {
    if n >= 10 { ItoaIsDecimal(n / 10); }
  }

  lemma {:induction false} HexAt(b: Bytes, i: nat)
    requires i < |b|
    ensures Hex(b)[2 * i] == "0123456789abcdef"[b[i] / 16] && Hex(b)[2 * i + 1] == "0123456789abcdef"[b[i] % 16]
  {
    if i > 0 { HexAt(b[1..], i - 1); }
  }

  /** A name is 7, the ID in lower-case hexadecimal, the type in plain decimal and the suffix. */
  lemma DeployKeyLayout(image: ID, valType: U16, i: nat)
    requires i < 32
    ensures var name := DeployKey(image, valType);
      && |name| > 71 && name[0] == '7' && name[|name| - 6..] == ".pvalt"
      && name[1 + 2 * i] == "0123456789abcdef"[image[i] / 16] && name[2 + 2 * i] == "0123456789abcdef"[image[i] % 16]
      && var number := name[65..|name| - 6];
         IsDecimal(number) && Atoi(number) == valType && (valType > 0 ==> number[0] != '0')
  {
    var name := DeployKey(image, valType);
    assert Itoa(DEPLOY_PREFIX) == "7";
    HexAt(image, i);
    ItoaIsDecimal(valType);
    AtoiOfItoa(valType);
    assert name[65..|name| - 6] == Itoa(valType);
    assert name[1..65] == Hex(image);
  }
}
