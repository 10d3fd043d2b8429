/**
  Printing and parsing API keys (generate and parseToken in src/api-key/api-key-secret.service.ts).

  A key is fma_live_<publicId>_<secret>: eight random bytes in lower-case hexadecimal (section 8 of
  RFC 4648) and thirty-two in unpadded base64url (section 5). The random bytes are parameters.
 */
module ApiKey {
  import opened Wrappers
  import opened Collections

  type Byte = b: int | 0 <= b < 256

  const PREFIX := "fma_live"
  const SECRET_BYTES := 32
  const PUBLIC_ID_BYTES := 8
  const SECRET_LENGTH := 43

  // ------------------------------------------------------------------------------------------
  // Hexadecimal.
  // ------------------------------------------------------------------------------------------

  predicate IsHexDigit(c: char) {
    '0' <= c <= '9' || 'a' <= c <= 'f'
  }

  function HexDigit(v: int): (c: char)
    requires 0 <= v < 16
    ensures IsHexDigit(c) && HexValue(c) == v
  {
    if v < 10 then ('0' as int + v) as char else ('a' as int + v - 10) as char
  }

  function HexValue(c: char): (v: int)
    requires IsHexDigit(c)
    ensures 0 <= v < 16
  {
    if c <= '9' then c as int - '0' as int else c as int - 'a' as int + 10
  }

  predicate IsHex(s: string) {
    forall i :: 0 <= i < |s| ==> IsHexDigit(s[i])
  }

  function Hex(bytes: seq<Byte>): (s: string)
    ensures |s| == 2 * |bytes| && IsHex(s)
  {
    if bytes == [] then "" else [HexDigit(bytes[0] / 16), HexDigit(bytes[0] % 16)] + Hex(bytes[1..])
  }

  function FromHex(s: string): (bytes: seq<Byte>)
    requires |s| % 2 == 0 && IsHex(s)
    ensures |bytes| == |s| / 2
  {
    if s == "" then [] else
      [16 * HexValue(s[0]) + HexValue(s[1])] + FromHex(s[2..])
  }

  lemma {:induction false} FromHexUndoesHex(bytes: seq<Byte>)
    ensures FromHex(Hex(bytes)) == bytes
  {
    if bytes != [] {
      FromHexUndoesHex(bytes[1..]);
      assert Hex(bytes)[2..] == Hex(bytes[1..]);
    }
  }

  lemma HexValueIsInjective(c: char)
    requires IsHexDigit(c)
    ensures HexDigit(HexValue(c)) == c
  {
  }

  /** Every string of digits is the print of some bytes. */
  lemma {:induction false} HexUndoesFromHex(s: string)
    requires |s| % 2 == 0 && IsHex(s)
    ensures Hex(FromHex(s)) == s
  {
    if s != "" {
      HexUndoesFromHex(s[2..]);
      FirstTwoComeBack(s, FromHex(s), FromHex(s[2..]));
    }
  }

  lemma FirstTwoComeBack(s: string, bytes: seq<Byte>, rest: seq<Byte>)
    requires |s| >= 2 && IsHexDigit(s[0]) && IsHexDigit(s[1])
    requires bytes == [16 * HexValue(s[0]) + HexValue(s[1])] + rest && Hex(rest) == s[2..]
    ensures Hex(bytes) == s
  {
    HexValueIsInjective(s[0]);
    HexValueIsInjective(s[1]);
    HexOfFirst(bytes[0], rest);
    assert s == [s[0], s[1]] + s[2..];
  }

  lemma HexOfFirst(first: Byte, rest: seq<Byte>)
    ensures Hex([first] + rest) == [HexDigit(first / 16), HexDigit(first % 16)] + Hex(rest)
  {
    assert ([first] + rest)[1..] == rest;
  }

  // ------------------------------------------------------------------------------------------
  // base64url.
  // ------------------------------------------------------------------------------------------

  predicate IsBase64Digit(c: char) {
    'A' <= c <= 'Z' || 'a' <= c <= 'z' || '0' <= c <= '9' || c == '-' || c == '_'
  }

  function Base64Digit(v: int): (c: char)
    requires 0 <= v < 64
    ensures IsBase64Digit(c) && Base64Value(c) == v
  {
    if v < 26 then ('A' as int + v) as char
    else if v < 52 then ('a' as int + v - 26) as char
    else if v < 62 then ('0' as int + v - 52) as char
    else if v == 62 then '-'
    else '_'
  }

  function Base64Value(c: char): (v: int)
    requires IsBase64Digit(c)
    ensures 0 <= v < 64
  {
    if 'A' <= c <= 'Z' then c as int - 'A' as int
    else if 'a' <= c <= 'z' then c as int - 'a' as int + 26
    else if '0' <= c <= '9' then c as int - '0' as int + 52
    else if c == '-' then 62
    else 63
  }

  predicate IsBase64(s: string) {
    forall i :: 0 <= i < |s| ==> IsBase64Digit(s[i])
  }

  lemma Base64ValueIsInjective(c: char)
    requires IsBase64Digit(c)
    ensures Base64Digit(Base64Value(c)) == c
  {
  }

  type Sextet = v: int | 0 <= v < 64

  function Digits(values: seq<Sextet>): (s: string)
    ensures IsBase64(s) && |s| == |values|
  {
    seq(|values|, i requires 0 <= i < |values| => Base64Digit(values[i]))
  }

  function Values(s: string): (values: seq<Sextet>)
    requires IsBase64(s)
    ensures |values| == |s|
  {
    seq(|s|, i requires 0 <= i < |s| => Base64Value(s[i]))
  }

  lemma ValuesAndDigits(values: seq<Sextet>, s: string)
    requires IsBase64(s)
    ensures Values(Digits(values)) == values && Digits(Values(s)) == s
  {
    forall i | 0 <= i < |s| ensures Base64Digit(Base64Value(s[i])) == s[i] {
      Base64ValueIsInjective(s[i]);
    }
  }

  /** The number of groups of six bits that hold n bytes. */
  function SextetCount(n: nat): nat {
    if n == 0 then 0 else if n == 1 then 2 else if n == 2 then 3 else 4 + SextetCount(n - 3)
  }

  /** n groups of six bits hold whole bytes, with less than a byte left over. */
  predicate HoldsBytes(n: nat) {
    if n < 4 then n != 1 else HoldsBytes(n - 4)
  }

  /**
    Three bytes are four groups of six bits; at the end two bytes are three groups and one byte is
    two, filled up with zeros.
   */
  function Sextets(bytes: seq<Byte>): (values: seq<Sextet>)
    ensures |values| == SextetCount(|bytes|) && HoldsBytes(|values|)
  {
    if bytes == [] then []
    else if |bytes| == 1 then [bytes[0] / 4, bytes[0] % 4 * 16]
    else if |bytes| == 2 then [bytes[0] / 4, bytes[0] % 4 * 16 + bytes[1] / 16, bytes[1] % 16 * 4]
    else
      [bytes[0] / 4, bytes[0] % 4 * 16 + bytes[1] / 16, bytes[1] % 16 * 4 + bytes[2] / 64, bytes[2] % 64]
      + Sextets(bytes[3..])
  }

  function FirstByte(v0: int, v1: int): Byte
    requires 0 <= v0 < 64 && 0 <= v1 < 64
  {
    v0 * 4 + v1 / 16
  }

  function SecondByte(v1: int, v2: int): Byte
    requires 0 <= v1 < 64 && 0 <= v2 < 64
  {
    v1 % 16 * 16 + v2 / 4
  }

  function ThirdByte(v2: int, v3: int): Byte
    requires 0 <= v2 < 64 && 0 <= v3 < 64
  {
    v2 % 4 * 64 + v3
  }

  /** Puts the bytes together and drops the bits left over. */
  function Octets(values: seq<Sextet>): (bytes: seq<Byte>)
    requires HoldsBytes(|values|)
    ensures SextetCount(|bytes|) == |values|
  {
    if values == [] then []
    else if |values| == 2 then [FirstByte(values[0], values[1])]
    else if |values| == 3 then [FirstByte(values[0], values[1]), SecondByte(values[1], values[2])]
    else
      [FirstByte(values[0], values[1]), SecondByte(values[1], values[2]), ThirdByte(values[2], values[3])]
      + Octets(values[4..])
  }

  function Base64Url(bytes: seq<Byte>): string {
    Digits(Sextets(bytes))
  }

  function FromBase64Url(s: string): seq<Byte>
    requires IsBase64(s) && HoldsBytes(|s|)
  {
    Octets(Values(s))
  }

  lemma {:induction false} OctetsUndoSextets(bytes: seq<Byte>)
    ensures Octets(Sextets(bytes)) == bytes
  {
    if |bytes| >= 3 {
      OctetsUndoSextets(bytes[3..]);
      FirstThreeComeBack(bytes[0], bytes[1], bytes[2], bytes[3..], Sextets(bytes[3..]));
      assert bytes == [bytes[0], bytes[1], bytes[2]] + bytes[3..];
    }
  }

  lemma FirstThreeComeBack(a: Byte, b: Byte, c: Byte, tail: seq<Byte>, rest: seq<Sextet>)
    requires HoldsBytes(|rest|) && Octets(rest) == tail
    ensures var values := [a / 4, a % 4 * 16 + b / 16, b % 16 * 4 + c / 64, c % 64] + rest;
            HoldsBytes(|values|) && Octets(values) == [a, b, c] + tail
  {
    BytesComeBack(a, b, c);
    OctetsOfFour(a / 4, a % 4 * 16 + b / 16, b % 16 * 4 + c / 64, c % 64, rest);
  }

  lemma BytesComeBack(a: Byte, b: Byte, c: Byte)
    ensures FirstByte(a / 4, a % 4 * 16 + b / 16) == a
    ensures SecondByte(a % 4 * 16 + b / 16, b % 16 * 4 + c / 64) == b
    ensures ThirdByte(b % 16 * 4 + c / 64, c % 64) == c
  {
  }

  lemma OctetsOfFour(v0: Sextet, v1: Sextet, v2: Sextet, v3: Sextet, rest: seq<Sextet>)
    requires HoldsBytes(|rest|)
    ensures HoldsBytes(|[v0, v1, v2, v3] + rest|)
    ensures Octets([v0, v1, v2, v3] + rest) == [FirstByte(v0, v1), SecondByte(v1, v2), ThirdByte(v2, v3)] + Octets(rest)
  {
    assert ([v0, v1, v2, v3] + rest)[4..] == rest;
  }

  lemma DecodeUndoesEncode(bytes: seq<Byte>)
    ensures FromBase64Url(Base64Url(bytes)) == bytes
  {
    OctetsUndoSextets(bytes);
    ValuesAndDigits(Sextets(bytes), "");
  }

  /** The bits of the last group that belong to no byte. */
  function BitsLeftOver(values: seq<Sextet>): int
    requires HoldsBytes(|values|)
  {
    if |values| >= 4 then BitsLeftOver(values[4..])
    else if |values| == 3 then values[2] % 4
    else if |values| == 2 then values[1] % 16
    else 0
  }

  /** A text is the print of some bytes exactly when those bits are zero. */
  lemma {:induction false} SextetsUndoOctetsIff(values: seq<Sextet>)
    requires HoldsBytes(|values|)
    ensures Sextets(Octets(values)) == values <==> BitsLeftOver(values) == 0
  {
    if |values| >= 4 {
      SextetsUndoOctetsIff(values[4..]);
      WholeGroup(values);
      SameEndIff(values[..4], Sextets(Octets(values[4..])), values[4..]);
      assert values == values[..4] + values[4..];
    } else if values != [] {
      LastGroup(values);
    }
  }

  lemma LastGroup(values: seq<Sextet>)
    requires 2 <= |values| <= 3
    ensures Sextets(Octets(values)) == values <==> BitsLeftOver(values) == 0
  {
    OctetsOfLast(values);
    LastComesBackIff(values, Octets(values));
  }

  lemma OctetsOfLast(values: seq<Sextet>)
    requires 2 <= |values| <= 3
    ensures |values| == 2 ==> Octets(values) == [FirstByte(values[0], values[1])]
    ensures |values| == 3 ==> Octets(values) == [FirstByte(values[0], values[1]), SecondByte(values[1], values[2])]
    ensures BitsLeftOver(values) == values[|values| - 1] % (if |values| == 3 then 4 else 16)
  {
  }

  lemma LastComesBackIff(values: seq<Sextet>, bytes: seq<Byte>)
    requires 2 <= |values| <= 3
    requires |values| == 2 ==> bytes == [FirstByte(values[0], values[1])]
    requires |values| == 3 ==> bytes == [FirstByte(values[0], values[1]), SecondByte(values[1], values[2])]
    ensures Sextets(bytes) == values <==> values[|values| - 1] % (if |values| == 3 then 4 else 16) == 0
  {
    if |values| == 3 {
      LastThree(values[0], values[1], values[2]);
      assert values == [values[0], values[1], values[2]];
    } else {
      LastTwo(values[0], values[1]);
      assert values == [values[0], values[1]];
    }
  }

  lemma LastThree(v0: Sextet, v1: Sextet, v2: Sextet)
    ensures Sextets([FirstByte(v0, v1), SecondByte(v1, v2)]) == [v0, v1, v2] <==> v2 % 4 == 0
  {
    BitsComeBack(v0, v1, v2, 0);
    assert Sextets([FirstByte(v0, v1), SecondByte(v1, v2)]) == [v0, v1, SecondByte(v1, v2) % 16 * 4];
    assert [v0, v1, SecondByte(v1, v2) % 16 * 4][2] == SecondByte(v1, v2) % 16 * 4;
  }

  lemma LastTwo(v0: Sextet, v1: Sextet)
    ensures Sextets([FirstByte(v0, v1)]) == [v0, v1] <==> v1 % 16 == 0
  {
    assert Sextets([FirstByte(v0, v1)]) == [v0, FirstByte(v0, v1) % 4 * 16];
    assert [v0, FirstByte(v0, v1) % 4 * 16][1] == FirstByte(v0, v1) % 4 * 16;
  }

  /** Four groups come back as they were. */
  lemma WholeGroup(values: seq<Sextet>)
    requires HoldsBytes(|values|) && |values| >= 4
    ensures Sextets(Octets(values)) == values[..4] + Sextets(Octets(values[4..]))
  {
    OctetsOfFirst(values);
    FirstFourComeBack(values, Octets(values), Octets(values[4..]));
  }

  lemma FirstFourComeBack(values: seq<Sextet>, bytes: seq<Byte>, rest: seq<Byte>)
    requires |values| >= 4
    requires bytes == [FirstByte(values[0], values[1]), SecondByte(values[1], values[2]), ThirdByte(values[2], values[3])] + rest
    ensures Sextets(bytes) == values[..4] + Sextets(rest)
  {
    FourComeBack(values[0], values[1], values[2], values[3], rest);
    assert values[..4] == [values[0], values[1], values[2], values[3]];
  }

  lemma FourComeBack(v0: Sextet, v1: Sextet, v2: Sextet, v3: Sextet, rest: seq<Byte>)
    ensures Sextets([FirstByte(v0, v1), SecondByte(v1, v2), ThirdByte(v2, v3)] + rest) == [v0, v1, v2, v3] + Sextets(rest)
  {
    BitsComeBack(v0, v1, v2, v3);
    SextetsOfFirst(FirstByte(v0, v1), SecondByte(v1, v2), ThirdByte(v2, v3), rest);
  }

  lemma OctetsOfFirst(values: seq<Sextet>)
    requires HoldsBytes(|values|) && |values| >= 4
    ensures Octets(values)
         == [FirstByte(values[0], values[1]), SecondByte(values[1], values[2]), ThirdByte(values[2], values[3])]
            + Octets(values[4..])
  {
  }

  lemma SextetsOfFirst(a: Byte, b: Byte, c: Byte, rest: seq<Byte>)
    ensures Sextets([a, b, c] + rest) == [a / 4, a % 4 * 16 + b / 16, b % 16 * 4 + c / 64, c % 64] + Sextets(rest)
  {
    assert ([a, b, c] + rest)[3..] == rest;
  }

  lemma BitsComeBack(v0: int, v1: int, v2: int, v3: int)
    requires 0 <= v0 < 64 && 0 <= v1 < 64 && 0 <= v2 < 64 && 0 <= v3 < 64
    ensures var (a, b, c) := (FirstByte(v0, v1), SecondByte(v1, v2), ThirdByte(v2, v3));
            a / 4 == v0 && a % 4 * 16 + b / 16 == v1 && b % 16 * 4 + c / 64 == v2 && c % 64 == v3
  {
  }

  // ------------------------------------------------------------------------------------------
  // What the digits say, without the functions above.
  // ------------------------------------------------------------------------------------------

  const HEX_ALPHABET := "0123456789abcdef"
  const UPPER_CASE := "ABCDEFGHIJKLMNOPQRSTUVWXYZ"
  const LOWER_CASE := "abcdefghijklmnopqrstuvwxyz"
  const BASE64URL_ALPHABET := UPPER_CASE + LOWER_CASE + "0123456789-_"

  /** The two digits of a byte, the high half first. */
  lemma {:induction false} HexDigitsOfByte(bytes: seq<Byte>, i: nat)
    requires i < |bytes|
    ensures Hex(bytes)[2 * i] == HEX_ALPHABET[bytes[i] / 16]
    ensures Hex(bytes)[2 * i + 1] == HEX_ALPHABET[bytes[i] % 16]
  {
    if i == 0 {
      HexAlphabetAt(bytes[0] / 16);
      HexAlphabetAt(bytes[0] % 16);
    } else {
      HexDigitsOfByte(bytes[1..], i - 1);
      assert Hex(bytes)[2..] == Hex(bytes[1..]);
    }
  }

  lemma HexAlphabetAt(v: nat)
    requires v < 16
    ensures |HEX_ALPHABET| == 16 && HexDigit(v) == HEX_ALPHABET[v]
  {
  }

  lemma Base64AlphabetAt(v: nat)
    requires v < 64
    ensures |BASE64URL_ALPHABET| == 64 && Base64Digit(v) == BASE64URL_ALPHABET[v]
  {
    if v < 26 {
      UpperCaseAt(v);
    } else if v < 52 {
      LowerCaseAt(v - 26);
    }
  }

  lemma UpperCaseAt(v: nat)
    requires v < 26
    ensures |UPPER_CASE| == 26 && UPPER_CASE[v] == ('A' as int + v) as char
  {
  }

  lemma LowerCaseAt(v: nat)
    requires v < 26
    ensures |LOWER_CASE| == 26 && LOWER_CASE[v] == ('a' as int + v) as char
  {
  }

  /** The digits of `s` from `from` on have these values in the alphabet of section 5 of RFC 4648. */
  predicate Spells(s: string, from: nat, values: seq<int>) {
    && from + |values| <= |s|
    && forall i :: 0 <= i < |values| ==> 0 <= values[i] < 64 && s[from + i] == BASE64URL_ALPHABET[values[i]]
  }

  /** Four digits are the number in base 64 that three bytes are in base 256. */
  ghost predicate SpellsThree(s: string, from: nat, a: int, b: int, c: int) {
    exists v0, v1, v2, v3 ::
      Spells(s, from, [v0, v1, v2, v3]) && v0 * 262144 + v1 * 4096 + v2 * 64 + v3 == a * 65536 + b * 256 + c
  }

  /** Three digits are two bytes followed by two zero bits. */
  ghost predicate SpellsTwo(s: string, from: nat, a: int, b: int) {
    exists v0, v1, v2 :: Spells(s, from, [v0, v1, v2]) && v0 * 4096 + v1 * 64 + v2 == (a * 256 + b) * 4
  }

  /** Two digits are one byte followed by four zero bits. */
  ghost predicate SpellsOne(s: string, from: nat, a: int) {
    exists v0, v1 :: Spells(s, from, [v0, v1]) && v0 * 64 + v1 == a * 16
  }

  /** Base64url, group by group. */
  lemma DigitsSpellTheBytes(bytes: seq<Byte>, k: nat)
    requires 3 * k < |bytes|
    ensures if |bytes| == 3 * k + 1 then SpellsOne(Base64Url(bytes), 4 * k, bytes[3 * k])
            else if |bytes| == 3 * k + 2 then SpellsTwo(Base64Url(bytes), 4 * k, bytes[3 * k], bytes[3 * k + 1])
            else SpellsThree(Base64Url(bytes), 4 * k, bytes[3 * k], bytes[3 * k + 1], bytes[3 * k + 2])
  {
    var n, rest := |bytes| - 3 * k, bytes[3 * k..];
    SextetsOfGroup(bytes, k);
    if n == 1 {
      OneIsSpelled(bytes, k, rest[0]);
    } else if n == 2 {
      TwoAreSpelled(bytes, k, rest[0], rest[1]);
    } else {
      ThreeAreSpelled(bytes, k, rest[0], rest[1], rest[2]);
    }
  }

  lemma OneIsSpelled(bytes: seq<Byte>, k: nat, a: int)
    requires 0 <= a < 256 && 4 * k <= |Sextets(bytes)|
    requires [a / 4, a % 4 * 16] <= Sextets(bytes)[4 * k..]
    ensures SpellsOne(Base64Url(bytes), 4 * k, a)
  {
    GroupIsSpelled(bytes, k, [a / 4, a % 4 * 16]);
  }

  lemma TwoAreSpelled(bytes: seq<Byte>, k: nat, a: int, b: int)
    requires 0 <= a < 256 && 0 <= b < 256 && 4 * k <= |Sextets(bytes)|
    requires [a / 4, a % 4 * 16 + b / 16, b % 16 * 4] <= Sextets(bytes)[4 * k..]
    ensures SpellsTwo(Base64Url(bytes), 4 * k, a, b)
  {
    GroupIsSpelled(bytes, k, [a / 4, a % 4 * 16 + b / 16, b % 16 * 4]);
    assert a / 4 * 4096 + (a % 4 * 16 + b / 16) * 64 + b % 16 * 4 == (a * 256 + b) * 4;
  }

  lemma ThreeAreSpelled(bytes: seq<Byte>, k: nat, a: int, b: int, c: int)
    requires 0 <= a < 256 && 0 <= b < 256 && 0 <= c < 256 && 4 * k <= |Sextets(bytes)|
    requires [a / 4, a % 4 * 16 + b / 16, b % 16 * 4 + c / 64, c % 64] <= Sextets(bytes)[4 * k..]
    ensures SpellsThree(Base64Url(bytes), 4 * k, a, b, c)
  {
    GroupIsSpelled(bytes, k, [a / 4, a % 4 * 16 + b / 16, b % 16 * 4 + c / 64, c % 64]);
    assert a / 4 * 262144 + (a % 4 * 16 + b / 16) * 4096 + (b % 16 * 4 + c / 64) * 64 + c % 64
        == a * 65536 + b * 256 + c;
  }

  lemma {:induction false} SextetsOfGroup(bytes: seq<Byte>, k: nat)
    requires 3 * k <= |bytes|
    ensures 4 * k <= |Sextets(bytes)| && Sextets(bytes)[4 * k..] == Sextets(bytes[3 * k..])
  {
    if k > 0 {
      SextetsOfGroup(bytes[3..], k - 1);
      assert bytes[3..][3 * (k - 1)..] == bytes[3 * k..];
      assert Sextets(bytes)[4..] == Sextets(bytes[3..]);
      assert Sextets(bytes)[4..][4 * (k - 1)..] == Sextets(bytes)[4 * k..];
    } else {
      assert bytes[0..] == bytes;
    }
  }

  lemma GroupIsSpelled(bytes: seq<Byte>, k: nat, values: seq<int>)
    requires 4 * k <= |Sextets(bytes)| && values <= Sextets(bytes)[4 * k..]
    requires forall i :: 0 <= i < |values| ==> 0 <= values[i] < 64
    ensures Spells(Base64Url(bytes), 4 * k, values)
  {
    forall i | 0 <= i < |values| ensures Base64Url(bytes)[4 * k + i] == BASE64URL_ALPHABET[values[i]] {
      assert values[i] == Sextets(bytes)[4 * k..][i] == Sextets(bytes)[4 * k + i];
      Base64AlphabetAt(values[i]);
    }
  }

  // ------------------------------------------------------------------------------------------
  // Keys.
  // ------------------------------------------------------------------------------------------

  datatype ParsedApiKeyToken = ParsedApiKeyToken(publicId: string, secret: string)

  function Print(k: ParsedApiKeyToken): string {
    PREFIX + "_" + k.publicId + "_" + k.secret
  }

  /** The two groups of API_KEY_TOKEN_PATTERN. */
  predicate IsKey(k: ParsedApiKeyToken) {
    && |k.publicId| == 2 * PUBLIC_ID_BYTES && IsHex(k.publicId)
    && |k.secret| == SECRET_LENGTH && IsBase64(k.secret)
  }

  function Generate(id: seq<Byte>, secret: seq<Byte>): ParsedApiKeyToken
    requires |id| == PUBLIC_ID_BYTES && |secret| == SECRET_BYTES
  {
    ParsedApiKeyToken(Hex(id), Base64Url(secret))
  }

  /** Every part of the pattern has a fixed length, so a match can be split in one way only. */
  function ParseToken(token: string): Option<ParsedApiKeyToken> {
    if |token| == 69 && token[..9] == PREFIX + "_" && token[25] == '_' && IsHex(token[9..25]) && IsBase64(token[26..])
    then Some(ParsedApiKeyToken(token[9..25], token[26..]))
    else None
  }

  lemma PrintParts(k: ParsedApiKeyToken)
    requires |k.publicId| == 16 && |k.secret| == 43
    ensures var token := Print(k);
            && |token| == 69 && token[..9] == PREFIX + "_" && token[25] == '_'
            && token[9..25] == k.publicId && token[26..] == k.secret
  {
    var head := PREFIX + "_";
    var token := Print(k);
    assert token == head + (k.publicId + ("_" + k.secret));
    assert token[9..] == k.publicId + ("_" + k.secret);
    assert token[25..] == "_" + k.secret;
  }

  /** Parsing is exactly the inverse of printing: what it returns prints to the token, and nothing else does. */
  lemma ParsedIffPrinted(token: string, k: ParsedApiKeyToken)
    ensures ParseToken(token) == Some(k) <==> IsKey(k) && Print(k) == token
  {
    if IsKey(k) {
      PrintParts(k);
    }
    if ParseToken(token) == Some(k) {
      var head := PREFIX + "_";
      assert token == token[..9] + (token[9..25] + ([token[25]] + token[26..]));
      assert Print(k) == head + (k.publicId + ("_" + k.secret));
    }
  }

  /** A generated key is accepted and gives its two parts back, and from them its random bytes. */
  lemma GeneratedIsAccepted(id: seq<Byte>, secret: seq<Byte>)
    requires |id| == 8 && |secret| == 32
    ensures var k := Generate(id, secret);
            && ParseToken(Print(k)) == Some(k)
            && Print(k) == "fma_live_" + k.publicId + "_" + k.secret && |Print(k)| == 69
            && FromHex(k.publicId) == id && FromBase64Url(k.secret) == secret
  {
    ParsedIffPrinted(Print(Generate(id, secret)), Generate(id, secret));
    FromHexUndoesHex(id);
    DecodeUndoesEncode(secret);
  }

  /** Although a secret may contain `_`, a token has one reading. */
  lemma OneReading(a: ParsedApiKeyToken, b: ParsedApiKeyToken)
    requires IsKey(a) && IsKey(b) && Print(a) == Print(b)
    ensures a == b
  {
    ParsedIffPrinted(Print(a), a);
    ParsedIffPrinted(Print(b), b);
  }

  ghost predicate IsGenerated(k: ParsedApiKeyToken) {
    exists id: seq<Byte>, secret: seq<Byte> :: Generates(id, secret, k)
  }

  ghost predicate Generates(id: seq<Byte>, secret: seq<Byte>, k: ParsedApiKeyToken) {
    |id| == PUBLIC_ID_BYTES && |secret| == SECRET_BYTES && Generate(id, secret) == k
  }

  /**
    The pattern accepts more than generate emits: an accepted token is one that could have been
    generated exactly when the last digit of its secret is a multiple of four.
   */
  lemma AcceptedIsGeneratedIff(k: ParsedApiKeyToken)
    requires IsKey(k)
    ensures IsGenerated(k) <==> Base64Value(k.secret[42]) % 4 == 0
  {
    var values := Values(k.secret);
    ValuesAndDigits([], k.secret);
    SextetsUndoOctetsIff(values);
    LastOfFortyThree(values);
    if Base64Value(k.secret[42]) % 4 == 0 {
      BytesGenerate(k, Octets(values));
    }
    forall id: seq<Byte>, secret: seq<Byte> | Generates(id, secret, k) ensures Sextets(Octets(values)) == values {
      OctetsUndoSextets(secret);
      ValuesAndDigits(Sextets(secret), "");
    }
  }

  lemma BytesGenerate(k: ParsedApiKeyToken, secret: seq<Byte>)
    requires IsKey(k) && SextetCount(|secret|) == SECRET_LENGTH && Base64Url(secret) == k.secret
    ensures IsGenerated(k)
  {
    HexUndoesFromHex(k.publicId);
    SextetsOfSecret(|secret|);
    assert Generates(FromHex(k.publicId), secret, k);
  }

  lemma SextetsOfSecret(n: nat)
    requires SextetCount(n) == SECRET_LENGTH
    ensures n == SECRET_BYTES
  {
    SextetCountBounds(n);
  }

  lemma {:induction false} SextetCountBounds(n: nat)
    ensures 4 * n <= 3 * SextetCount(n) <= 4 * n + 2
  {
    if n >= 3 {
      SextetCountBounds(n - 3);
    }
  }

  /** Ten whole groups before the last three digits. */
  lemma LastOfFortyThree(values: seq<Sextet>)
    requires |values| == SECRET_LENGTH && HoldsBytes(|values|)
    ensures BitsLeftOver(values) == values[42] % 4
  {
    LastIsTwoFromEnd(values, 10);
  }

  lemma {:induction false} LastIsTwoFromEnd(values: seq<Sextet>, groups: nat)
    requires |values| == 4 * groups + 3 && HoldsBytes(|values|)
    ensures BitsLeftOver(values) == values[4 * groups + 2] % 4
  {
    if groups > 0 {
      LastIsTwoFromEnd(values[4..], groups - 1);
    }
  }
}
