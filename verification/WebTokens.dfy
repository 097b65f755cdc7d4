/** base64url and the token comparison of apps/web/middleware.ts. */
module WebTokens {
  import opened Wrappers
  import opened JsString

  type Byte = b: int | 0 <= b < 256

  type Sextet = s: int | 0 <= s < 64

  // ---------------------------------------------------------------- RFC 4648, section 4

  /** Table 1 of RFC 4648. */
  function Digit(s: Sextet): char {
    if s < 26 then 'A' + s as char
    else if s < 52 then 'a' + (s - 26) as char
    else if s < 62 then '0' + (s - 52) as char
    else if s == 62 then '+' else '/'
  }

  function SextetOf(c: char): Option<Sextet> {
    if 'A' <= c <= 'Z' then Some((c - 'A') as int)
    else if 'a' <= c <= 'z' then Some((c - 'a') as int + 26)
    else if '0' <= c <= '9' then Some((c - '0') as int + 52)
    else if c == '+' then Some(62) else if c == '/' then Some(63) else None
  }

  function FirstSextet(x: Byte): Sextet { x / 4 }

  function SecondSextet(x: Byte, y: Byte): Sextet { x % 4 * 16 + y / 16 }

  function ThirdSextet(y: Byte, z: Byte): Sextet { y % 16 * 4 + z / 64 }

  function FourthSextet(z: Byte): Sextet { z % 64 }

  /** Three bytes as four sextets; at the end, two as three and one as two. */
  function Sextets(bytes: seq<Byte>): seq<Sextet> {
    if |bytes| == 0 then []
    else if |bytes| == 1 then [FirstSextet(bytes[0]), SecondSextet(bytes[0], 0)]
    else if |bytes| == 2 then [FirstSextet(bytes[0]), SecondSextet(bytes[0], bytes[1]), ThirdSextet(bytes[1], 0)]
    else
      [FirstSextet(bytes[0]), SecondSextet(bytes[0], bytes[1]), ThirdSextet(bytes[1], bytes[2]), FourthSextet(bytes[2])]
      + Sextets(bytes[3..])
  }

  function FirstByte(s: Sextet, t: Sextet): Byte {
    var (a: int, b: int) := (s, t);
    a * 4 + b / 16
  }

  function SecondByte(s: Sextet, t: Sextet): Byte {
    var (a: int, b: int) := (s, t);
    a % 16 * 16 + b / 4
  }

  function ThirdByte(s: Sextet, t: Sextet): Byte {
    var (a: int, b: int) := (s, t);
    a % 4 * 64 + b
  }

  /** The reverse; bits that do not fill a byte are dropped, and so is a lone sextet. */
  function Bytes(s: seq<Sextet>): seq<Byte> {
    if |s| < 2 then []
    else if |s| == 2 then [FirstByte(s[0], s[1])]
    else if |s| == 3 then [FirstByte(s[0], s[1]), SecondByte(s[1], s[2])]
    else [FirstByte(s[0], s[1]), SecondByte(s[1], s[2]), ThirdByte(s[2], s[3])] + Bytes(s[4..])
  }

  function Digits(s: seq<Sextet>): (t: string)
    ensures |t| == |s| && forall i :: 0 <= i < |s| ==> t[i] == Digit(s[i])
  {
    seq(|s|, i requires 0 <= i < |s| => Digit(s[i]))
  }

  function Equals(n: nat): (t: string)
    ensures |t| == n && forall i :: 0 <= i < n ==> t[i] == '='
  {
    seq(n, _ => '=')
  }

  /** The padding that fills the last group. */
  function Padding(n: nat): nat {
    (4 - n % 4) % 4
  }

  /** A string of bytes, as `String.fromCharCode` makes it. */
  function Binary(bytes: seq<Byte>): (t: string)
    ensures |t| == |bytes| && forall i :: 0 <= i < |bytes| ==> t[i] == bytes[i] as char
  {
    seq(|bytes|, i requires 0 <= i < |bytes| => bytes[i] as char)
  }

  function BytesOf(binary: string): (bytes: seq<Byte>)
    requires forall i :: 0 <= i < |binary| ==> binary[i] as int < 256
    ensures |bytes| == |binary| && forall i :: 0 <= i < |bytes| ==> bytes[i] == binary[i] as int
  {
    seq(|binary|, i requires 0 <= i < |binary| => binary[i] as int)
  }

  /** `btoa`, which throws on characters that are no bytes. */
  function Btoa(binary: string): Option<string> {
    if exists i | 0 <= i < |binary| :: binary[i] as int >= 256 then None
    else
      var s := Sextets(BytesOf(binary));
      Some(Digits(s) + Equals(Padding(|s|)))
  }

  predicate IsAsciiSpace(c: char) {
    c == '\t' || c == '\n' || c == '\U{000C}' || c == '\r' || c == ' '
  }

  function WithoutSpaces(t: string): string {
    if t == [] then [] else (if IsAsciiSpace(t[0]) then [] else [t[0]]) + WithoutSpaces(t[1..])
  }

  /** At most two equals signs go from the end, if the length is a multiple of four. */
  function Unpadded(t: string): string {
    if |t| % 4 != 0 || t == [] || t[|t| - 1] != '=' then t
    else if |t| >= 2 && t[|t| - 2] == '=' then t[..|t| - 2]
    else t[..|t| - 1]
  }

  predicate AllDigits(t: string) {
    forall i | 0 <= i < |t| :: SextetOf(t[i]).Some?
  }

  function SextetsOf(t: string): (s: seq<Sextet>)
    requires AllDigits(t)
    ensures |s| == |t| && forall i :: 0 <= i < |t| ==> Some(s[i]) == SextetOf(t[i])
  {
    seq(|t|, i requires 0 <= i < |t| => SextetOf(t[i]).value)
  }

  /** `atob`: the forgiving-base64 decode of the WHATWG Infra Standard; None where it throws. */
  function Atob(text: string): Option<string> {
    var t := Unpadded(WithoutSpaces(text));
    if |t| % 4 == 1 || !AllDigits(t) then None else Some(Binary(Bytes(SextetsOf(t))))
  }

  // ---------------------------------------------------------------- the source's pair

  function ReplaceAll(t: string, from: char, replacement: char): (r: string)
    ensures |r| == |t| && forall i :: 0 <= i < |t| ==> r[i] == if t[i] == from then replacement else t[i]
  {
    seq(|t|, i requires 0 <= i < |t| => if t[i] == from then replacement else t[i])
  }

  function WithoutTrailingEquals(t: string): string {
    if t != [] && t[|t| - 1] == '=' then WithoutTrailingEquals(t[..|t| - 1]) else t
  }

  function PadEnd(t: string, n: nat): string {
    if |t| >= n then t else t + Equals(n - |t|)
  }

  function Base64Url(bytes: seq<Byte>): string {
    Digits64Url(Sextets(bytes))
  }

  /** Table 2 of RFC 4648, section 5, without padding. */
  function Digits64Url(s: seq<Sextet>): (t: string)
    ensures |t| == |s|
    ensures forall i :: 0 <= i < |s| ==> t[i] == if s[i] == 62 then '-' else if s[i] == 63 then '_' else Digit(s[i])
  {
    seq(|s|, i requires 0 <= i < |s| => if s[i] == 62 then '-' else if s[i] == 63 then '_' else Digit(s[i]))
  }

  method Base64UrlEncode(bytes: seq<Byte>) returns (encoded: string)
    ensures encoded == Base64Url(bytes)
  {
    var binary := "";
    for i := 0 to |bytes|
      invariant |binary| == i && forall j :: 0 <= j < i ==> binary[j] == bytes[j] as char
    {
      binary := binary + [bytes[i] as char];
    }
    assert BytesOf(binary) == bytes;
    var text := Btoa(binary);
    EncodedIsUrl(Sextets(bytes));
    encoded := WithoutTrailingEquals(ReplaceAll(ReplaceAll(text.value, '+', '-'), '/', '_'));
  }

  function Base64UrlDecode(value: string): Option<string> {
    Atob(PadEnd(ReplaceAll(ReplaceAll(value, '-', '+'), '_', '/'), (|value| + 3) / 4 * 4))
  }

  // ---------------------------------------------------------------- proofs

  lemma DigitIsRead(s: Sextet)
    ensures SextetOf(Digit(s)) == Some(s) && Digit(s) != '=' && Digit(s) != '-' && Digit(s) != '_'
    ensures !IsAsciiSpace(Digit(s)) && Digit(s) != '.'
  {
  }

  lemma {:induction false} StripsExactly(t: string, n: nat)
    requires t == [] || t[|t| - 1] != '='
    ensures WithoutTrailingEquals(t + Equals(n)) == t
  {
    if n == 0 {
      assert t + Equals(0) == t;
    } else {
      assert (t + Equals(n))[..|t| + n - 1] == t + Equals(n - 1);
      StripsExactly(t, n - 1);
    }
  }

  lemma EncodedIsUrl(s: seq<Sextet>)
    ensures WithoutTrailingEquals(ReplaceAll(ReplaceAll(Digits(s) + Equals(Padding(|s|)), '+', '-'), '/', '_'))
         == Digits64Url(s)
  {
    forall i | 0 <= i < |s| ensures Digits64Url(s)[i] != '=' {
      DigitIsRead(s[i]);
    }
    assert ReplaceAll(ReplaceAll(Digits(s) + Equals(Padding(|s|)), '+', '-'), '/', '_')
         == Digits64Url(s) + Equals(Padding(|s|));
    StripsExactly(Digits64Url(s), Padding(|s|));
  }

  lemma BytesOfGroup(x: Byte, y: Byte, z: Byte)
    ensures FirstByte(FirstSextet(x), SecondSextet(x, y)) == x
    ensures SecondByte(SecondSextet(x, y), ThirdSextet(y, z)) == y
    ensures ThirdByte(ThirdSextet(y, z), FourthSextet(z)) == z
  {
  }

  lemma GroupIsRead(x: Byte, y: Byte, z: Byte, rest: seq<Sextet>)
    ensures Bytes([FirstSextet(x), SecondSextet(x, y), ThirdSextet(y, z), FourthSextet(z)] + rest)
         == [x, y, z] + Bytes(rest)
  {
    hide FirstByte, SecondByte, ThirdByte, FirstSextet, SecondSextet, ThirdSextet, FourthSextet;
    BytesOfGroup(x, y, z);
    assert ([FirstSextet(x), SecondSextet(x, y), ThirdSextet(y, z), FourthSextet(z)] + rest)[4..] == rest;
  }

  lemma {:induction false} SextetsAreRead(bytes: seq<Byte>)
    ensures Bytes(Sextets(bytes)) == bytes && |Sextets(bytes)| % 4 != 1
  {
    hide FirstByte, SecondByte, ThirdByte, FirstSextet, SecondSextet, ThirdSextet, FourthSextet, Bytes;
    if |bytes| >= 3 {
      SextetsAreRead(bytes[3..]);
      GroupIsRead(bytes[0], bytes[1], bytes[2], Sextets(bytes[3..]));
      assert bytes == [bytes[0], bytes[1], bytes[2]] + bytes[3..];
    } else {
      LastGroupIsRead(bytes);
    }
  }

  lemma LastGroupIsRead(bytes: seq<Byte>)
    requires |bytes| < 3
    ensures Bytes(Sextets(bytes)) == bytes && |Sextets(bytes)| % 4 != 1
  {
    hide FirstByte, SecondByte, ThirdByte, FirstSextet, SecondSextet, ThirdSextet, FourthSextet;
    if |bytes| > 0 {
      BytesOfGroup(bytes[0], if |bytes| == 1 then 0 else bytes[1], 0);
    }
  }

  lemma {:induction false} NoSpacesStay(t: string)
    requires forall c :: c in t ==> !IsAsciiSpace(c)
    ensures WithoutSpaces(t) == t
  {
    if t != [] {
      assert t[0] in t;
      NoSpacesStay(t[1..]);
    }
  }

  lemma {:induction false} UnpaddedExactly(t: string)
    requires |t| % 4 != 1 && (t == [] || t[|t| - 1] != '=')
    ensures Unpadded(t + Equals(Padding(|t|))) == t
  {
    var n := Padding(|t|);
    assert 0 <= n <= 2;
    assert (t + Equals(n))[..|t|] == t;
  }

  predicate IsUrlText(value: string) {
    forall i | 0 <= i < |value| ::
      value[i] == '-' || value[i] == '_' || (SextetOf(value[i]).Some? && value[i] != '+' && value[i] != '/')
  }

  function UrlSextets(value: string): (s: seq<Sextet>)
    requires IsUrlText(value)
    ensures |s| == |value| && Digits64Url(s) == value
  {
    var s := seq(|value|, i requires 0 <= i < |value| =>
      if value[i] == '-' then 62 else if value[i] == '_' then 63 else SextetOf(value[i]).value);
    assert forall i :: 0 <= i < |value| ==> Digits64Url(s)[i] == value[i];
    s
  }

  lemma StandardText(s: seq<Sextet>)
    ensures ReplaceAll(ReplaceAll(Digits64Url(s), '-', '+'), '_', '/') == Digits(s)
    ensures AllDigits(Digits(s)) && SextetsOf(Digits(s)) == s
    ensures forall c :: c in Digits(s) ==> !IsAsciiSpace(c) && c != '='
  {
    forall i | 0 <= i < |s|
      ensures ReplaceAll(ReplaceAll(Digits64Url(s), '-', '+'), '_', '/')[i] == Digit(s[i])
      ensures SextetOf(Digits(s)[i]) == Some(s[i]) && !IsAsciiSpace(Digits(s)[i]) && Digits(s)[i] != '='
    {
      DigitIsRead(s[i]);
    }
  }

  lemma PaddingFills(n: nat)
    ensures (n + 3) / 4 * 4 == n + Padding(n)
  {
  }

  lemma LoneSextetFails(standard: string)
    requires |standard| % 4 == 1
    ensures Unpadded(standard + Equals(3)) == standard + Equals(1) && !AllDigits(standard + Equals(1))
  {
    assert (standard + Equals(3))[..|standard| + 1] == standard + Equals(1);
    assert (standard + Equals(1))[|standard|] == '=' && SextetOf('=').None?;
  }

  lemma PaddedText(s: seq<Sextet>)
    ensures PadEnd(Digits(s), (|s| + 3) / 4 * 4) == Digits(s) + Equals(Padding(|s|))
    ensures WithoutSpaces(Digits(s) + Equals(Padding(|s|))) == Digits(s) + Equals(Padding(|s|))
    ensures Unpadded(Digits(s) + Equals(Padding(|s|))) == if |s| % 4 == 1 then Digits(s) + "=" else Digits(s)
  {
    hide WithoutSpaces, SextetOf, Digit, Unpadded, Digits, IsAsciiSpace;
    PaddingFills(|s|);
    PaddedHasNoSpaces(s);
    NoSpacesStay(Digits(s) + Equals(Padding(|s|)));
    PaddedIsUnpadded(s);
  }

  lemma PaddedHasNoSpaces(s: seq<Sextet>)
    ensures forall c :: c in Digits(s) + Equals(Padding(|s|)) ==> !IsAsciiSpace(c)
  {
    hide Digits;
    StandardText(s);
    var padded := Digits(s) + Equals(Padding(|s|));
    forall c | c in padded ensures !IsAsciiSpace(c) {
      if c !in Digits(s) {
        assert c in Equals(Padding(|s|));
      }
    }
  }

  lemma PaddedIsUnpadded(s: seq<Sextet>)
    ensures Unpadded(Digits(s) + Equals(Padding(|s|))) == if |s| % 4 == 1 then Digits(s) + "=" else Digits(s)
  {
    hide Digits, Unpadded, SextetOf;
    StandardText(s);
    assert Equals(1) == "=";
    if |s| % 4 == 1 {
      LoneSextetFails(Digits(s));
    } else {
      assert s != [] ==> Digits(s)[|s| - 1] in Digits(s);
      UnpaddedExactly(Digits(s));
    }
  }

  /** Padding comes back exactly; a text that leaves a lone sextet does not decode. */
  lemma DecodedIsBytes(s: seq<Sextet>)
    ensures Base64UrlDecode(Digits64Url(s)) == if |s| % 4 == 1 then None else Some(Binary(Bytes(s)))
  {
    PaddedText(s);
    assert ReplaceAll(ReplaceAll(Digits64Url(s), '-', '+'), '_', '/') == Digits(s) && AllDigits(Digits(s))
        && SextetsOf(Digits(s)) == s by { StandardText(s); }
    hide Bytes, WithoutSpaces, SextetOf, Digit, PadEnd, Unpadded, Padding;
    if |s| % 4 == 1 {
      LoneSextetFails(Digits(s));
      assert Equals(1) == "=";
    }
  }

  /** Decoding undoes encoding, for every sequence of bytes. */
  lemma DecodeUndoesEncode(bytes: seq<Byte>)
    ensures Base64UrlDecode(Base64Url(bytes)) == Some(Binary(bytes))
  {
    SextetsAreRead(bytes);
    DecodedIsBytes(Sextets(bytes));
  }

  /** The bits of the last sextet that no byte uses. */
  predicate SpareBitsAreZero(s: seq<Sextet>) {
    if |s| < 2 then true
    else if |s| == 2 then NoLowBits(s[1], 16)
    else if |s| == 3 then NoLowBits(s[2], 4)
    else SpareBitsAreZero(s[4..])
  }

  predicate NoLowBits(s: Sextet, unit: nat)
    requires unit > 0
  {
    s % unit == 0
  }

  lemma SextetsOfGroup(a: Sextet, b: Sextet, c: Sextet, d: Sextet)
    ensures FirstSextet(FirstByte(a, b)) == a
    ensures SecondSextet(FirstByte(a, b), SecondByte(b, c)) == b
    ensures ThirdSextet(SecondByte(b, c), ThirdByte(c, d)) == c
    ensures FourthSextet(ThirdByte(c, d)) == d
  {
  }

  lemma SecondOfTwo(a: Sextet, b: Sextet)
    ensures SecondSextet(FirstByte(a, b), 0) == b <==> NoLowBits(b, 16)
  {
    var p: int, q: int := a, b / 16;
    assert b == 16 * q + b % 16;
    assert (4 * p + q) % 4 == q;
  }

  lemma ThirdOfThree(b: Sextet, c: Sextet)
    ensures ThirdSextet(SecondByte(b, c), 0) == c <==> NoLowBits(c, 4)
  {
    var p: int, q: int := b % 16, c / 4;
    assert c == 4 * q + c % 4;
    assert (16 * p + q) % 16 == q;
  }

  lemma SextetsOfLastGroup(a: Sextet, b: Sextet, c: Sextet)
    ensures SecondSextet(FirstByte(a, b), 0) == b <==> NoLowBits(b, 16)
    ensures ThirdSextet(SecondByte(b, c), 0) == c <==> NoLowBits(c, 4)
  {
    SecondOfTwo(a, b);
    ThirdOfThree(b, c);
  }

  lemma {:induction false} BytesAreRead(s: seq<Sextet>)
    requires |s| % 4 != 1
    ensures Sextets(Bytes(s)) == s <==> SpareBitsAreZero(s)
  {
    hide FirstByte, SecondByte, ThirdByte, FirstSextet, SecondSextet, ThirdSextet, FourthSextet, NoLowBits;
    if |s| >= 4 {
      BytesAreRead(s[4..]);
      SextetsOfGroup(s[0], s[1], s[2], s[3]);
      var rest := Bytes(s[4..]);
      assert Bytes(s)[3..] == rest;
      assert s == s[..4] + s[4..] && s[..4] == [s[0], s[1], s[2], s[3]];
      assert Sextets(Bytes(s)) == s[..4] + Sextets(rest);
      assert (s[..4] + Sextets(rest))[4..] == Sextets(rest);
    } else if |s| >= 2 {
      SextetsOfGroup(s[0], s[1], if |s| == 2 then 0 else s[2], 0);
      SextetsOfLastGroup(s[0], s[1], if |s| == 2 then 0 else s[2]);
    }
  }

  /**
   Over the url alphabet without padding: a text decodes exactly when it leaves no lone sextet, and
   encoding gives it back exactly when its spare bits are zero.
   */
  lemma UrlTextDecodes(value: string)
    requires IsUrlText(value)
    ensures Base64UrlDecode(value).Some? <==> |value| % 4 != 1
    ensures |value| % 4 != 1 ==>
              && Base64UrlDecode(value) == Some(Binary(Bytes(UrlSextets(value))))
              && (Base64Url(Bytes(UrlSextets(value))) == value <==> SpareBitsAreZero(UrlSextets(value)))
  {
    var s := UrlSextets(value);
    DecodedIsBytes(s);
    if |value| % 4 != 1 {
      BytesAreRead(s);
      if Digits64Url(Sextets(Bytes(s))) == Digits64Url(s) {
        Digits64UrlInjective(Sextets(Bytes(s)), s);
      }
    }
  }

  /** It decodes to bytes whose encoding it is. */
  ghost predicate IsCanonical(value: string) {
    exists bytes :: Base64UrlDecode(value) == Some(Binary(bytes)) && Base64Url(bytes) == value
  }

  /**
   Of all texts, encoding undoes decoding exactly for those over the url alphabet, without padding, that
   leave no lone sextet and whose spare bits are zero.
   */
  lemma EncodeUndoesDecodeIff(value: string)
    ensures IsCanonical(value) <==> IsUrlText(value) && |value| % 4 != 1 && SpareBitsAreZero(UrlSextets(value))
  {
    hide Base64UrlDecode, Sextets, Bytes, SpareBitsAreZero, Digits64Url, Digit, SextetOf, IsUrlText;
    if IsUrlText(value) {
      UrlTextDecodes(value);
    }
    if IsCanonical(value) {
      var bytes :| Base64UrlDecode(value) == Some(Binary(bytes)) && Base64Url(bytes) == value;
      EncodedIsUrlText(Sextets(bytes));
      SextetsAreRead(bytes);
      Digits64UrlInjective(UrlSextets(value), Sextets(bytes));
      BytesAreRead(Sextets(bytes));
    }
  }

  lemma EncodedIsUrlText(s: seq<Sextet>)
    ensures IsUrlText(Digits64Url(s))
  {
    var t := Digits64Url(s);
    forall i | 0 <= i < |t| ensures t[i] == '-' || t[i] == '_' || (SextetOf(t[i]).Some? && t[i] != '+' && t[i] != '/') {
      DigitIsRead(s[i]);
    }
  }

  lemma Digits64UrlInjective(a: seq<Sextet>, b: seq<Sextet>)
    requires Digits64Url(a) == Digits64Url(b)
    ensures a == b
  {
    forall i | 0 <= i < |a| ensures a[i] == b[i] {
      assert Digits64Url(a)[i] == Digits64Url(b)[i];
      DigitIsRead(a[i]);
      DigitIsRead(b[i]);
    }
  }

  /** Encoded payload and signature, joined by a dot, split into exactly the two. */
  lemma SessionValueSplits(payload: seq<Byte>, signature: seq<Byte>)
    ensures Split(Base64Url(payload) + "." + Base64Url(signature), ".") == [Base64Url(payload), Base64Url(signature)]
  {
    var parts := [Base64Url(payload), Base64Url(signature)];
    UrlTextLacksDot(Sextets(payload));
    UrlTextLacksDot(Sextets(signature));
    SplitUndoesJoin(parts, '.');
    assert parts[1..] == [parts[1]];
  }

  lemma UrlTextLacksDot(s: seq<Sextet>)
    ensures Lacks(Digits64Url(s), '.')
  {
    forall i | 0 <= i < |s| ensures Digits64Url(s)[i] != '.' {
      DigitIsRead(s[i]);
    }
  }

  // ---------------------------------------------------------------- the standard, on numbers

  const UPPER := "ABCDEFGHIJKLMNOPQRSTUVWXYZ"
  const LOWER := "abcdefghijklmnopqrstuvwxyz"
  const URL_TABLE := UPPER + LOWER + "0123456789-_"

  lemma UpperDigitIs(n: nat)
    requires n < 26
    ensures URL_TABLE[n] == 'A' + n as char
  {
    assert UPPER[n] as int == 65 + n;
  }

  lemma LowerDigitIs(n: nat)
    requires n < 26
    ensures URL_TABLE[26 + n] == 'a' + n as char
  {
    assert LOWER[n] as int == 97 + n;
  }

  lemma UrlDigitIs(s: Sextet)
    ensures (if s == 62 then '-' else if s == 63 then '_' else Digit(s)) == URL_TABLE[s]
  {
    if s < 26 {
      UpperDigitIs(s);
    } else if s < 52 {
      LowerDigitIs(s - 26);
    } else if s < 62 {
      assert "0123456789-_"[s - 52] as int == s - 4;
    }
  }

  /** Three bytes as one number. */
  function Bits24(x: int, y: int, z: int): int {
    65536 * x + 256 * y + z
  }

  lemma Quotients(x: Byte, y: Byte, z: Byte)
    ensures var v := Bits24(x, y, z);
            v / 64 == 1024 * x + 4 * y + z / 64 && v / 4096 == 16 * x + y / 16 && v / 262144 == x / 4
  {
  }

  lemma LastSix(high: int, low: int)
    requires 0 <= low < 64
    ensures (64 * high + low) % 64 == low
  {
  }

  lemma SecondDigit(x: Byte, y: Byte)
    ensures x % 4 * 16 + y / 16 == (16 * x + y / 16) % 64
  {
    var q: int, r: int := x / 4, x % 4;
    assert x == 4 * q + r;
    LastSix(q, 16 * r + y / 16);
    assert 16 * x + y / 16 == 64 * q + (16 * r + y / 16);
  }

  lemma ThirdDigit(x: Byte, y: Byte, z: Byte)
    ensures y % 16 * 4 + z / 64 == (1024 * x + 4 * y + z / 64) % 64
  {
    var q: int, r: int := y / 16, y % 16;
    assert y == 16 * q + r;
    LastSix(16 * x + q, 4 * r + z / 64);
    assert 1024 * x + 4 * y + z / 64 == 64 * (16 * x + q) + (4 * r + z / 64);
  }

  lemma FourthDigit(x: Byte, y: Byte, z: Byte)
    ensures z % 64 == Bits24(x, y, z) % 64
  {
    var q: int, r: int := z / 64, z % 64;
    assert z == 64 * q + r;
    LastSix(1024 * x + 4 * y + q, r);
  }

  lemma GroupNumbers(x: Byte, y: Byte, z: Byte)
    ensures var v := Bits24(x, y, z);
            && FirstSextet(x) == v / 262144 && SecondSextet(x, y) == v / 4096 % 64
            && ThirdSextet(y, z) == v / 64 % 64 && FourthSextet(z) == v % 64
  {
    hide Bits24;
    Quotients(x, y, z);
    SecondDigit(x, y);
    ThirdDigit(x, y, z);
    FourthDigit(x, y, z);
  }

  lemma UrlDigitsConcat(a: seq<Sextet>, b: seq<Sextet>)
    ensures Digits64Url(a + b) == Digits64Url(a) + Digits64Url(b)
  {
  }

  /** Each group of three bytes is a number of 24 bits, written as four digits of base 64, the highest first. */
  lemma GroupsAreNumbers(bytes: seq<Byte>)
    requires |bytes| >= 3
    ensures var v := Bits24(bytes[0], bytes[1], bytes[2]);
            Base64Url(bytes)
            == [URL_TABLE[v / 262144], URL_TABLE[v / 4096 % 64], URL_TABLE[v / 64 % 64], URL_TABLE[v % 64]]
               + Base64Url(bytes[3..])
  {
    hide FirstSextet, SecondSextet, ThirdSextet, FourthSextet, Digit, Digits64Url, Bits24;
    var x, y, z := bytes[0], bytes[1], bytes[2];
    var group := [FirstSextet(x), SecondSextet(x, y), ThirdSextet(y, z), FourthSextet(z)];
    GroupNumbers(x, y, z);
    UrlDigitsConcat(group, Sextets(bytes[3..]));
    UrlTextIs(group, 0);
    UrlTextIs(group, 1);
    UrlTextIs(group, 2);
    UrlTextIs(group, 3);
  }

  lemma UrlTextIs(s: seq<Sextet>, i: nat)
    requires i < |s|
    ensures Digits64Url(s)[i] == URL_TABLE[s[i]]
  {
    UrlDigitIs(s[i]);
  }

  /** The last one or two bytes are filled up with zero bits; two or three digits are written. */
  lemma LastGroupIsANumber(x: Byte, y: Byte)
    ensures Base64Url([]) == ""
    ensures var v := Bits24(x, 0, 0); Base64Url([x]) == [URL_TABLE[v / 262144], URL_TABLE[v / 4096 % 64]]
    ensures var v := Bits24(x, y, 0);
            Base64Url([x, y]) == [URL_TABLE[v / 262144], URL_TABLE[v / 4096 % 64], URL_TABLE[v / 64 % 64]]
  {
    hide FirstSextet, SecondSextet, ThirdSextet, FourthSextet, Digit, Digits64Url, Bits24;
    GroupNumbers(x, 0, 0);
    GroupNumbers(x, y, 0);
    var one, two := Sextets([x]), Sextets([x, y]);
    UrlTextIs(one, 0);
    UrlTextIs(one, 1);
    UrlTextIs(two, 0);
    UrlTextIs(two, 1);
    UrlTextIs(two, 2);
  }

  /** The characters of either alphabet, the padding, and the spaces that decoding skips. */
  predicate IsReadable(c: char) {
    || c in URL_TABLE || c == '+' || c == '/' || c == '='
    || c == ' ' || c == '\t' || c == '\n' || c == '\r' || c == '\U{000C}'
  }

  lemma {:induction false} SpacesAreReadable(t: string)
    requires forall c :: c in WithoutSpaces(t) ==> IsReadable(c)
    ensures forall c :: c in t ==> IsReadable(c)
  {
    if t != [] {
      assert t == [t[0]] + t[1..];
      assert forall c :: c in WithoutSpaces(t[1..]) ==> c in WithoutSpaces(t);
      SpacesAreReadable(t[1..]);
      if !IsAsciiSpace(t[0]) {
        assert WithoutSpaces(t)[0] == t[0];
      }
    }
  }

  lemma DigitsAreReadable(c: char)
    requires SextetOf(c).Some?
    ensures IsReadable(c)
  {
    if c != '+' && c != '/' {
      UrlDigitIs(SextetOf(c).value);
    }
  }

  lemma UnpaddedIsReadable(t: string)
    requires AllDigits(Unpadded(t))
    ensures forall c :: c in t ==> IsReadable(c)
  {
    hide IsReadable;
    assert IsReadable('=') by { EqualsIsReadable(); }
    var u := Unpadded(t);
    forall i | 0 <= i < |t| ensures IsReadable(t[i]) {
      if i < |u| {
        assert t[i] == u[i];
        DigitsAreReadable(u[i]);
      }
    }
  }

  lemma EqualsIsReadable()
    ensures IsReadable('=')
  {
  }

  /** A text with any other character is not decoded. */
  lemma DecodedIsReadable(value: string)
    requires Base64UrlDecode(value).Some?
    ensures forall c :: c in value ==> IsReadable(c)
  {
    hide WithoutSpaces, Unpadded, IsReadable, SextetOf, Bytes;
    var standard := ReplaceAll(ReplaceAll(value, '-', '+'), '_', '/');
    var padded := PadEnd(standard, (|value| + 3) / 4 * 4);
    UnpaddedIsReadable(WithoutSpaces(padded));
    SpacesAreReadable(padded);
    forall i | 0 <= i < |value| ensures IsReadable(value[i]) {
      assert padded[i] == standard[i] && padded[i] in padded;
      UrlSignsAreReadable();
    }
  }

  lemma UrlSignsAreReadable()
    ensures IsReadable('-') && IsReadable('_')
  {
    assert URL_TABLE[62] == '-' && URL_TABLE[63] == '_';
  }

  // ---------------------------------------------------------------- comparing tokens

  /** `a ^ b` and `a | b` on non-negative integers, bit by bit. */
  function Xor(a: nat, b: nat): nat {
    if a == 0 && b == 0 then 0 else 2 * Xor(a / 2, b / 2) + if a % 2 == b % 2 then 0 else 1
  }

  function Or(a: nat, b: nat): nat {
    if a == 0 && b == 0 then 0 else 2 * Or(a / 2, b / 2) + if a % 2 == 0 && b % 2 == 0 then 0 else 1
  }

  lemma {:induction false} XorIsZero(a: nat, b: nat)
    ensures Xor(a, b) == 0 <==> a == b
  {
    if a != 0 || b != 0 {
      XorIsZero(a / 2, b / 2);
    }
  }

  lemma {:induction false} OrIsZero(a: nat, b: nat)
    ensures Or(a, b) == 0 <==> a == 0 && b == 0
  {
    if a != 0 || b != 0 {
      OrIsZero(a / 2, b / 2);
    }
  }

  /** `charCodeAt(index) || 0`: past the end there is NaN, which becomes 0. */
  function UnitAt(s: string, i: nat): nat {
    if i < |s| then s[i] as int else 0
  }

  /** The comparison visits every position of the longer token; it is equality. */
  method TokenMatches(actual: Option<string>, expected: string) returns (matches: bool)
    ensures matches <==> actual == Some(expected)
  {
    if actual.None? {
      return false;
    }
    var a := actual.value;
    var diff := Xor(|a|, |expected|);
    XorIsZero(|a|, |expected|);
    var maxLength := if |a| >= |expected| then |a| else |expected|;
    for i := 0 to maxLength
      invariant diff == 0 <==> |a| == |expected| && forall k :: 0 <= k < i ==> UnitAt(a, k) == UnitAt(expected, k)
    {
      XorIsZero(UnitAt(a, i), UnitAt(expected, i));
      OrIsZero(diff, Xor(UnitAt(a, i), UnitAt(expected, i)));
      diff := Or(diff, Xor(UnitAt(a, i), UnitAt(expected, i)));
    }
    matches := diff == 0;
    assert a == expected ==> matches;
    if matches {
      forall k | 0 <= k < |a| ensures a[k] == expected[k] {
        assert UnitAt(a, k) == UnitAt(expected, k);
      }
      assert a == expected;
    }
  }
}
