/** `decodeBytes`: how the JavaScript verifier reads byte fields, taking any text that starts with `0x` for hex. */
module JsonBytes {
  import opened Basics
  import opened Base64

  function HexDigit(c: char): (r: Option<nat>)
    ensures r.Some? ==> r.value < 16
  {
    if '0' <= c <= '9' then Some(c as nat - '0' as nat)
    else if 'a' <= c <= 'f' then Some(c as nat - 'a' as nat + 10)
    else if 'A' <= c <= 'F' then Some(c as nat - 'A' as nat + 10)
    else None
  }

  /** `Buffer.from(s, "hex")`: pairs of digits, up to the first that is none; an odd digit at the end is dropped. */
  function FromHex(s: string): Bytes
  {
    if |s| < 2 then []
    else
      match (HexDigit(s[0]), HexDigit(s[1]))
      case (Some(high), Some(low)) => [high * 16 + low] + FromHex(s[2..])
      case _ => []
  }

  /** `decodeBytes`; for text that is no base64 see the notes on what is left out. */
  function DecodeBytes(s: string): Bytes
  {
    if s == "" then []
    else if "0x" <= s then FromHex(s[2..])
    else
      match Decode(s)
      case Ok(b) => b
      case Err(_) => []
  }

  /** The text of a bytes field in JSON. */
  function TextOf(padded: bool, b: Bytes): string
  {
    if padded then EncodePadded(UrlSafe, b) else EncodeUnpadded(UrlSafe, b)
  }

  /** The byte strings whose text starts with `0x`. */
  predicate LooksHex(b: Bytes)
  {
    |b| >= 2 && b[0] == 0xd3 && b[1] / 16 == 1
  }

  lemma FirstChars(p: nat, q: nat)
    requires p < 64 && q < 64
    ensures CharOf(UrlSafe, p) == '0' && CharOf(UrlSafe, q) == 'x' <==> p == 52 && q == 49
  {
  }

  lemma FirstGroups(x: Byte, y: Byte)
    ensures Group0(x) == 52 && Group1(x, y) == 49 <==> x == 0xd3 && y / 16 == 1
  {
  }

  lemma SplitStarts(b: Bytes)
    requires b != []
    ensures |Split(b)| >= 2 && Split(b)[0] == Group0(b[0]) && Split(b)[1] == Group1(b[0], if |b| > 1 then b[1] else 0)
  {
    hide Group0, Group1, Group2, Group3;
  }

  lemma LooksHexIff(padded: bool, b: Bytes)
    ensures "0x" <= TextOf(padded, b) <==> LooksHex(b)
  {
    hide Split, CharOf, Group0, Group1;
    var t := TextOf(padded, b);
    if b == [] {
      NoGroups();
    } else {
      SplitStarts(b);
      FirstGroups(b[0], if |b| > 1 then b[1] else 0);
      FirstChars(Split(b)[0], Split(b)[1]);
      assert t[0] == CharOf(UrlSafe, Split(b)[0]) && t[1] == CharOf(UrlSafe, Split(b)[1]);
      assert "0x" <= t <==> t[0] == '0' && t[1] == 'x' by { assert "0x"[0] == '0' && "0x"[1] == 'x'; }
    }
  }

  lemma NoGroups()
    ensures Split([]) == [] && EncodeUnpadded(UrlSafe, []) == "" && EncodePadded(UrlSafe, []) == ""
  {
  }

  predicate IsHexDigit(c: char) { '0' <= c <= '9' || 'a' <= c <= 'f' || 'A' <= c <= 'F' }

  const UPPER_DIGITS: string := "0123456789ABCDEF"

  /** Two hex digits for each byte, in either case. */
  predicate IsHexOf(s: string, b: Bytes)
  {
    && |s| == 2 * |b|
    && forall i :: 0 <= i < |b| ==> IsDigit(s[2 * i], b[i] / 16) && IsDigit(s[2 * i + 1], b[i] % 16)
  }

  predicate IsDigit(c: char, d: nat)
    requires d < 16
  {
    c == HEX_DIGITS[d] || c == UPPER_DIGITS[d]
  }

  lemma HexDigitReadsBack(c: char, d: nat)
    requires d < 16 && IsDigit(c, d)
    ensures HexDigit(c) == Some(d)
  {
  }

  lemma FromHexCons(s: string, high: nat, low: nat)
    requires |s| >= 2 && high < 16 && low < 16 && IsDigit(s[0], high) && IsDigit(s[1], low)
    ensures FromHex(s) == [high * 16 + low] + FromHex(s[2..])
  {
    hide HexDigit, IsDigit;
    HexDigitReadsBack(s[0], high);
    HexDigitReadsBack(s[1], low);
    FromHexStep(s);
  }

  lemma FromHexStep(s: string)
    requires |s| >= 2 && HexDigit(s[0]).Some? && HexDigit(s[1]).Some?
    ensures FromHex(s) == [HexDigit(s[0]).value * 16 + HexDigit(s[1]).value] + FromHex(s[2..])
  {
    hide HexDigit;
  }

  lemma FromHexStops(x: string)
    requires |x| < 2 || !IsHexDigit(x[0]) || !IsHexDigit(x[1])
    ensures FromHex(x) == []
  {
    hide HexDigit, IsHexDigit;
    if |x| >= 2 {
      NoHexDigit(x[0]);
      NoHexDigit(x[1]);
    }
  }

  /** Hex digits read back as their bytes, up to the end or two characters of which one is no digit. */
  lemma {:induction false} HexReadsBack(s: string, b: Bytes, x: string)
    requires IsHexOf(s, b) && (|x| < 2 || !IsHexDigit(x[0]) || !IsHexDigit(x[1]))
    ensures FromHex(s + x) == b
  {
    hide FromHex, IsHexDigit, IsDigit;
    if b == [] {
      assert s + x == x;
      FromHexStops(x);
    } else {
      var t := s[2..];
      forall i | 0 <= i < |b| - 1
        ensures IsDigit(t[2 * i], b[1..][i] / 16) && IsDigit(t[2 * i + 1], b[1..][i] % 16)
      {
        assert b[1..][i] == b[i + 1] && t[2 * i] == s[2 * (i + 1)] && t[2 * i + 1] == s[2 * (i + 1) + 1];
      }
      HexReadsBack(t, b[1..], x);
      assert (s + x)[0] == s[2 * 0] && (s + x)[1] == s[2 * 0 + 1] && (s + x)[2..] == t + x;
      FromHexCons(s + x, b[0] / 16, b[0] % 16);
      assert b == [b[0]] + b[1..];
    }
  }

  lemma NoHexDigit(c: char)
    ensures !IsHexDigit(c) ==> HexDigit(c) == None
  {
  }

  lemma {:induction false} FromHexIsShort(s: string)
    ensures 2 * |FromHex(s)| <= |s|
  {
    if |s| >= 2 { FromHexIsShort(s[2..]); }
  }

  lemma {:induction false} SplitSize(b: Bytes)
    ensures 3 * |Split(b)| == 4 * |b| + (if |b| % 3 == 0 then 0 else 3 - |b| % 3)
  {
    hide Group0, Group1, Group2, Group3;
    if |b| >= 3 {
      SplitSize(b[3..]);
      assert |Split(b)| == 4 + |Split(b[3..])|;
      hide Split;
      assert |b| % 3 == (|b| - 3) % 3;
    }
  }

  lemma TextSize(padded: bool, b: Bytes)
    ensures 3 * |TextOf(padded, b)| <= 4 * |b| + 8
  {
    hide Split;
    SplitSize(b);
    SplitLength(b);
  }

  /** A misread field is shorter than it should be. */
  lemma MisreadIsShorter(padded: bool, b: Bytes)
    requires LooksHex(b)
    ensures |DecodeBytes(TextOf(padded, b))| < |b|
  {
    LooksHexIff(padded, b);
    TextSize(padded, b);
    var t := TextOf(padded, b);
    hide TextOf, FromHex, Decode;
    FromHexIsShort(t[2..]);
  }

  /** A field is read right exactly when its text does not start with `0x`. */
  lemma ReadRightIff(padded: bool, b: Bytes)
    ensures DecodeBytes(TextOf(padded, b)) == b <==> !LooksHex(b)
    ensures |DecodeBytes(TextOf(padded, b))| <= |b|
  {
    hide LooksHex, FromHex, Decode, EncodePadded, EncodeUnpadded;
    LooksHexIff(padded, b);
    if LooksHex(b) {
      MisreadIsShorter(padded, b);
    } else {
      DecodeInvertsEncode(UrlSafe, b);
      EmptyText(padded, b);
    }
  }

  lemma EmptyText(padded: bool, b: Bytes)
    ensures TextOf(padded, b) == "" ==> b == []
  {
    TextSize(padded, b);
    hide EncodePadded, EncodeUnpadded;
    if TextOf(padded, b) == "" {
      DecodeInvertsEncode(UrlSafe, b);
      DecodeInvertsEncode(UrlSafe, []);
      NoGroups();
    }
  }

  /** The bytes D3 1A B0 have the text `0xqw`, which is read as no bytes at all. */
  lemma MisreadExample(padded: bool)
    ensures TextOf(padded, [0xd3, 0x1a, 0xb0]) == "0xqw" && DecodeBytes("0xqw") == []
  {
    var b: Bytes := [0xd3, 0x1a, 0xb0];
    assert Split(b) == [52, 49, 42, 48] by {
      assert b[3..] == [];
      assert Split([]) == [];
    }
    assert EncodeUnpadded(UrlSafe, b) == "0xqw";
    assert Padding(Missing(4)) == "";
    assert "0xqw"[2..] == "qw";
  }
}
