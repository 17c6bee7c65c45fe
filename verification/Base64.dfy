/** The standard padded base64 codec (section 4 of RFC 4648) as Go's `base64.StdEncoding`
    implements it: decoding skips line breaks and ignores unused trailing bits. */
module Base64 {
  import opened Text

  newtype byte = x: int | 0 <= x < 256

  type Bytes = seq<byte>

  type Sextet = x: int | 0 <= x < 64

  function Letter(x: Sextet): char {
    if x < 26 then ('A' as int + x) as char
    else if x < 52 then ('a' as int + x - 26) as char
    else if x < 62 then ('0' as int + x - 52) as char
    else if x == 62 then '+'
    else '/'
  }

  function Unletter(c: char): Option<Sextet> {
    if 'A' <= c <= 'Z' then Some(c as int - 'A' as int)
    else if 'a' <= c <= 'z' then Some(c as int - 'a' as int + 26)
    else if '0' <= c <= '9' then Some(c as int - '0' as int + 52)
    else if c == '+' then Some(62)
    else if c == '/' then Some(63)
    else None
  }

  function EncodeGroup(a: byte, b: byte, c: byte): string {
    [Letter(a as int / 4),
     Letter(a as int % 4 * 16 + b as int / 16),
     Letter(b as int % 16 * 4 + c as int / 64),
     Letter(c as int % 64)]
  }

  /** `EncodeToString`. */
  function Encode(bs: Bytes): string {
    if bs == [] then ""
    else if |bs| == 1 then EncodeGroup(bs[0], 0, 0)[..2] + "=="
    else if |bs| == 2 then EncodeGroup(bs[0], bs[1], 0)[..3] + "="
    else EncodeGroup(bs[0], bs[1], bs[2]) + Encode(bs[3..])
  }

  function FirstByte(x: Sextet, y: Sextet): byte {
    (x * 4 + y / 16) as byte
  }

  function SecondByte(y: Sextet, z: Sextet): byte {
    (y % 16 * 16 + z / 4) as byte
  }

  function ThirdByte(z: Sextet, w: Sextet): byte {
    (z % 4 * 64 + w) as byte
  }

  function DropLineBreaks(s: string): string {
    if s == "" then ""
    else if s[0] == '\n' || s[0] == '\r' then DropLineBreaks(s[1..])
    else [s[0]] + DropLineBreaks(s[1..])
  }

  /** Groups of four letters; only the last one may be padded. */
  function DecodeGroups(s: string): Option<Bytes> {
    if s == "" then Some([])
    else if |s| < 4 then None
    else
      match (Unletter(s[0]), Unletter(s[1]), Unletter(s[2]), Unletter(s[3]))
      case (Some(x), Some(y), Some(z), Some(w)) =>
        (match DecodeGroups(s[4..])
         case None => None
         case Some(rest) => Some([FirstByte(x, y), SecondByte(y, z), ThirdByte(z, w)] + rest))
      case (Some(x), Some(y), Some(z), None) =>
        if s[3] == '=' && |s| == 4 then Some([FirstByte(x, y), SecondByte(y, z)]) else None
      case (Some(x), Some(y), None, None) =>
        if s[2] == '=' && s[3] == '=' && |s| == 4 then Some([FirstByte(x, y)]) else None
      case _ => None
  }

  /** `DecodeString`; None stands for a CorruptInputError. */
  function Decode(s: string): Option<Bytes> {
    DecodeGroups(DropLineBreaks(s))
  }

  lemma UnletterLetter(x: Sextet)
    ensures Unletter(Letter(x)) == Some(x)
    ensures Letter(x) != '\n' && Letter(x) != '\r'
  {
  }

  lemma GroupBytes(a: byte, b: byte, c: byte)
    ensures var (x, y) := (a as int / 4, a as int % 4 * 16 + b as int / 16);
            var (z, w) := (b as int % 16 * 4 + c as int / 64, c as int % 64);
            FirstByte(x, y) == a && SecondByte(y, z) == b && ThirdByte(z, w) == c
  {
  }

  lemma GroupLetters(a: byte, b: byte, c: byte)
    ensures var g := EncodeGroup(a, b, c);
            && Unletter(g[0]) == Some(a as int / 4)
            && Unletter(g[1]) == Some(a as int % 4 * 16 + b as int / 16)
            && Unletter(g[2]) == Some(b as int % 16 * 4 + c as int / 64)
            && Unletter(g[3]) == Some(c as int % 64)
    ensures forall i | 0 <= i < 4 :: EncodeGroup(a, b, c)[i] != '\n' && EncodeGroup(a, b, c)[i] != '\r'
  {
    UnletterLetter(a as int / 4);
    UnletterLetter(a as int % 4 * 16 + b as int / 16);
    UnletterLetter(b as int % 16 * 4 + c as int / 64);
    UnletterLetter(c as int % 64);
  }

  lemma {:induction false} EncodeHasNoLineBreaks(bs: Bytes)
    ensures forall i | 0 <= i < |Encode(bs)| :: Encode(bs)[i] != '\n' && Encode(bs)[i] != '\r'
  {
    if bs != [] {
      GroupLetters(bs[0], if |bs| > 1 then bs[1] else 0, if |bs| > 2 then bs[2] else 0);
      if |bs| > 2 {
        EncodeHasNoLineBreaks(bs[3..]);
      }
    }
  }

  lemma {:induction false} DropNothing(s: string)
    requires forall i | 0 <= i < |s| :: s[i] != '\n' && s[i] != '\r'
    ensures DropLineBreaks(s) == s
  {
    if s != "" {
      DropNothing(s[1..]);
    }
  }

  lemma DecodeOneGroup(a: byte, b: byte, c: byte, rest: string)
    ensures DecodeGroups(EncodeGroup(a, b, c) + rest) ==
      match DecodeGroups(rest) case None => None case Some(bs) => Some([a, b, c] + bs)
  {
    GroupLetters(a, b, c);
    GroupBytes(a, b, c);
    assert (EncodeGroup(a, b, c) + rest)[4..] == rest;
  }

  lemma DecodePadded(a: byte, b: byte)
    ensures DecodeGroups(EncodeGroup(a, b, 0)[..3] + "=") == Some([a, b])
    ensures DecodeGroups(EncodeGroup(a, 0, 0)[..2] + "==") == Some([a])
  {
    GroupLetters(a, b, 0);
    GroupBytes(a, b, 0);
    GroupLetters(a, 0, 0);
    GroupBytes(a, 0, 0);
  }

  lemma DecodeShort(bs: Bytes)
    requires |bs| < 3
    ensures DecodeGroups(Encode(bs)) == Some(bs)
  {
    if |bs| == 1 {
      DecodePadded(bs[0], 0);
      assert bs == [bs[0]];
    } else if |bs| == 2 {
      DecodePadded(bs[0], bs[1]);
      assert bs == [bs[0], bs[1]];
    }
  }

  lemma EncodeLong(bs: Bytes)
    requires |bs| >= 3
    ensures Encode(bs) == EncodeGroup(bs[0], bs[1], bs[2]) + Encode(bs[3..])
  {
  }

  lemma {:induction false} DecodeGroupsEncode(bs: Bytes)
    ensures DecodeGroups(Encode(bs)) == Some(bs)
  {
    if |bs| < 3 {
      DecodeShort(bs);
    } else {
      DecodeGroupsEncode(bs[3..]);
      EncodeLong(bs);
      DecodeOneGroup(bs[0], bs[1], bs[2], Encode(bs[3..]));
      assert bs == [bs[0], bs[1], bs[2]] + bs[3..];
    }
  }

  /** Decoding restores every byte string, so encoding loses nothing. */
  lemma DecodeEncode(bs: Bytes)
    ensures Decode(Encode(bs)) == Some(bs)
  {
    EncodeHasNoLineBreaks(bs);
    DropNothing(Encode(bs));
    DecodeGroupsEncode(bs);
  }

  lemma EncodeInjective(a: Bytes, b: Bytes)
    requires Encode(a) == Encode(b)
    ensures a == b
  {
    DecodeEncode(a);
    DecodeEncode(b);
  }

  /** The standard alphabet: capitals, small letters and figures in their order, then plus and slash. */
  lemma Alphabet()
    ensures Letter(0) == 'A' && Letter(25) == 'Z' && Letter(26) == 'a' && Letter(51) == 'z'
    ensures Letter(52) == '0' && Letter(61) == '9' && Letter(62) == '+' && Letter(63) == '/'
    ensures forall x: Sextet | x !in {25, 51, 61, 62, 63} :: Letter(x + 1) as int == Letter(x) as int + 1
  {
  }

  lemma GroupNumber(a: byte, b: byte, c: byte)
    ensures var (x, y) := (a as int / 4, a as int % 4 * 16 + b as int / 16);
            var (z, w) := (b as int % 16 * 4 + c as int / 64, c as int % 64);
            x * 262144 + y * 4096 + z * 64 + w == a as int * 65536 + b as int * 256 + c as int
  {
  }

  /** Each full group of three bytes, read as one number with the first byte highest, is written as its
      four digits to base 64, highest first. */
  lemma GroupDigits(bs: Bytes) returns (x: Sextet, y: Sextet, z: Sextet, w: Sextet)
    requires |bs| >= 3
    ensures x * 262144 + y * 4096 + z * 64 + w == bs[0] as int * 65536 + bs[1] as int * 256 + bs[2] as int
    ensures Encode(bs) == [Letter(x), Letter(y), Letter(z), Letter(w)] + Encode(bs[3..])
  {
    var (a, b, c) := (bs[0], bs[1], bs[2]);
    x, y := a as int / 4, a as int % 4 * 16 + b as int / 16;
    z, w := b as int % 16 * 4 + c as int / 64, c as int % 64;
    GroupNumber(a, b, c);
    EncodeLong(bs);
  }

  /** An incomplete last group is written as if filled up with zeros, its unused digits as padding. */
  lemma LastGroupPadded(a: byte, b: byte)
    ensures Encode([a, b]) == Encode([a, b, 0])[..3] + "="
    ensures Encode([a]) == Encode([a, 0, 0])[..2] + "=="
  {
    EncodeLong([a, b, 0]);
    EncodeLong([a, 0, 0]);
  }

  /** Only the empty file has an empty encoding. */
  lemma EncodeEmptyIff(bs: Bytes)
    ensures Encode(bs) == "" <==> bs == []
  {
    if bs != [] {
      assert |Encode(bs)| >= 4;
    }
  }

  // ------------------------------------------------------- what decoding accepts

  lemma LetterUnletter(c: char)
    requires Unletter(c).Some?
    ensures Letter(Unletter(c).value) == c && c != '='
  {
  }

  lemma FullGroup(x: Sextet, y: Sextet, z: Sextet, w: Sextet)
    ensures EncodeGroup(FirstByte(x, y), SecondByte(y, z), ThirdByte(z, w))
      == [Letter(x), Letter(y), Letter(z), Letter(w)]
  {
    var (a, b, c) := (FirstByte(x, y), SecondByte(y, z), ThirdByte(z, w));
    assert a as int / 4 == x && a as int % 4 == y / 16;
    assert b as int / 16 == y % 16 && b as int % 16 == z / 4;
    assert c as int / 64 == z % 4 && c as int % 64 == w;
  }

  lemma TwoBytes(x: Sextet, y: Sextet, z: Sextet)
    ensures EncodeGroup(FirstByte(x, y), SecondByte(y, z), 0)[..2] == [Letter(x), Letter(y)]
  {
    var (a, b) := (FirstByte(x, y), SecondByte(y, z));
    assert a as int / 4 == x && a as int % 4 == y / 16;
    assert b as int / 16 == y % 16;
  }

  lemma OneByte(x: Sextet, y: Sextet)
    ensures EncodeGroup(FirstByte(x, y), 0, 0)[..1] == [Letter(x)]
  {
    assert FirstByte(x, y) as int / 4 == x;
  }

  /** The place of the letter whose low bits padding leaves unused. */
  predicate Unused(bs: Bytes, length: nat, i: nat) {
    (|bs| % 3 == 1 && i + 3 == length) || (|bs| % 3 == 2 && i + 2 == length)
  }

  /** The texts agree but for the letter before the padding, some of whose bits are not used. */
  predicate SameLetters(t: string, bs: Bytes) {
    |t| == |Encode(bs)| && forall i | 0 <= i < |t| && !Unused(bs, |t|, i) :: t[i] == Encode(bs)[i]
  }

  lemma SameFront(t: string, a: byte, b: byte, c: byte, rest: Bytes)
    requires |t| >= 4 && t[..4] == EncodeGroup(a, b, c) && SameLetters(t[4..], rest)
    ensures SameLetters(t, [a, b, c] + rest)
  {
    var bs := [a, b, c] + rest;
    assert bs[3..] == rest;
    EncodeLong(bs);
    forall i | 0 <= i < |t| && !Unused(bs, |t|, i) ensures t[i] == Encode(bs)[i] {
      if i >= 4 {
        assert t[i] == t[4..][i - 4];
        assert !Unused(rest, |t| - 4, i - 4);
      } else {
        assert t[i] == t[..4][i];
      }
    }
  }

  /** Decoding accepts nothing but encodings, up to the bits that padding leaves unused. */
  lemma {:induction false} DecodesOnlyEncodings(t: string)
    requires DecodeGroups(t).Some?
    ensures SameLetters(t, DecodeGroups(t).value)
    decreases |t|
  {
    if t != "" {
      var (x, y, z, w) := (Unletter(t[0]), Unletter(t[1]), Unletter(t[2]), Unletter(t[3]));
      LetterUnletter(t[0]);
      LetterUnletter(t[1]);
      if z.Some? && w.Some? {
        LetterUnletter(t[2]);
        LetterUnletter(t[3]);
        DecodesOnlyEncodings(t[4..]);
        FullGroup(x.value, y.value, z.value, w.value);
        SameFront(t, FirstByte(x.value, y.value), SecondByte(y.value, z.value), ThirdByte(z.value, w.value),
                  DecodeGroups(t[4..]).value);
      } else if z.Some? {
        TwoBytes(x.value, y.value, z.value);
      } else {
        OneByte(x.value, y.value);
      }
    }
  }

  lemma {:induction false} DropAppend(a: string, b: string)
    ensures DropLineBreaks(a + b) == DropLineBreaks(a) + DropLineBreaks(b)
  {
    if a == "" {
      assert a + b == b;
    } else {
      DropAppend(a[1..], b);
      assert (a + b)[1..] == a[1..] + b;
    }
  }

  /** A line break anywhere in the text makes no difference. */
  lemma LineBreakIgnored(a: string, c: char, b: string)
    requires c == '\n' || c == '\r'
    ensures Decode(a + [c] + b) == Decode(a + b)
  {
    DropAppend(a, b);
    DropAppend(a, [c] + b);
    assert a + [c] + b == a + ([c] + b);
    assert ([c] + b)[1..] == b;
  }
}
