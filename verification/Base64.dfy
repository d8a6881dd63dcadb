/** Base64 in the standard and the URL-safe alphabet, padded and unpadded (RFC 4648, sections 4 and 5). */
module Base64 {
  import opened Basics

  datatype Alphabet = Standard | UrlSafe

  function CharOf(a: Alphabet, d: nat): char
    requires d < 64
  {
    if d < 26 then 'A' + d as char
    else if d < 52 then 'a' + (d - 26) as char
    else if d < 62 then '0' + (d - 52) as char
    else if d == 62 then (if a.Standard? then '+' else '-')
    else (if a.Standard? then '/' else '_')
  }

  /** The decoders of both languages accept the special characters of either alphabet. */
  function DigitOf(c: char): (r: Option<nat>)
    ensures r.Some? ==> r.value < 64
  {
    if 'A' <= c <= 'Z' then Some(c as nat - 'A' as nat)
    else if 'a' <= c <= 'z' then Some(26 + c as nat - 'a' as nat)
    else if '0' <= c <= '9' then Some(52 + c as nat - '0' as nat)
    else if c == '+' || c == '-' then Some(62)
    else if c == '/' || c == '_' then Some(63)
    else None
  }

  type Sextet = x: nat | x < 64

  function Group0(x: Byte): Sextet { x / 4 }

  function Group1(x: Byte, y: Byte): Sextet { x % 4 * 16 + y / 16 }

  function Group2(y: Byte, z: Byte): Sextet { y % 16 * 4 + z / 64 }

  function Group3(z: Byte): Sextet { z % 64 }

  /** Three bytes become four groups of six bits; a shorter rest is filled up with zero bits. */
  function Split(b: Bytes): (r: seq<Sextet>)
  {
    if b == [] then []
    else if |b| == 1 then [Group0(b[0]), Group1(b[0], 0)]
    else if |b| == 2 then [Group0(b[0]), Group1(b[0], b[1]), Group2(b[1], 0)]
    else [Group0(b[0]), Group1(b[0], b[1]), Group2(b[1], b[2]), Group3(b[2])] + Split(b[3..])
  }

  lemma {:induction false} SplitLength(b: Bytes)
    ensures |Split(b)| % 4 == if |b| % 3 == 0 then 0 else |b| % 3 + 1
  {
    hide Group0, Group1, Group2, Group3;
    if |b| >= 3 {
      var rest := Split(b[3..]);
      SplitLength(b[3..]);
      assert |Split(b)| == 4 + |rest|;
      hide Split;
      assert |b| % 3 == (|b| - 3) % 3;
    }
  }

  function Byte0(x: int, y: int): Byte requires 0 <= x < 64 && 0 <= y < 64 { x * 4 + y / 16 }

  function Byte1(y: int, z: int): Byte requires 0 <= y < 64 && 0 <= z < 64 { y % 16 * 16 + z / 4 }

  function Byte2(z: int, w: int): Byte requires 0 <= z < 64 && 0 <= w < 64 { z % 4 * 64 + w }

  /** The bytes of groups of six bits, dropping the fill bits. One group alone carries no byte. */
  function Unite(s: seq<Sextet>): Option<Bytes>
  {
    if s == [] then Some([])
    else if |s| == 1 then None
    else if |s| == 2 then Some([Byte0(s[0], s[1])])
    else if |s| == 3 then Some([Byte0(s[0], s[1]), Byte1(s[1], s[2])])
    else
      match Unite(s[4..])
      case None => None
      case Some(rest) => Some([Byte0(s[0], s[1]), Byte1(s[1], s[2]), Byte2(s[2], s[3])] + rest)
  }

  lemma ThreeBytes(x: Byte, y: Byte, z: Byte)
    ensures Byte0(Group0(x), Group1(x, y)) == x
    ensures Byte1(Group1(x, y), Group2(y, z)) == y
    ensures Byte2(Group2(y, z), Group3(z)) == z
  {
  }

  lemma UniteStep(p: Sextet, q: Sextet, r: Sextet, t: Sextet, rest: seq<Sextet>)
    requires Unite(rest).Some?
    ensures Unite([p, q, r, t] + rest) == Some([Byte0(p, q), Byte1(q, r), Byte2(r, t)] + Unite(rest).value)
  {
    hide Byte0, Byte1, Byte2;
    assert ([p, q, r, t] + rest)[4..] == rest;
  }

  lemma {:induction false} UniteInvertsSplit(b: Bytes)
    ensures Unite(Split(b)) == Some(b)
  {
    hide Byte0, Byte1, Byte2, Group0, Group1, Group2, Group3;
    if |b| >= 3 {
      UniteInvertsSplit(b[3..]);
      ThreeBytes(b[0], b[1], b[2]);
      UniteStep(Group0(b[0]), Group1(b[0], b[1]), Group2(b[1], b[2]), Group3(b[2]), Split(b[3..]));
      hide Unite;
      assert b == [b[0], b[1], b[2]] + b[3..];
    } else if |b| == 2 {
      ThreeBytes(b[0], b[1], 0);
      assert b == [b[0], b[1]];
    } else if |b| == 1 {
      ThreeBytes(b[0], 0, 0);
      assert b == [b[0]];
    }
  }

  function Text(a: Alphabet, s: seq<Sextet>): (r: string)
    ensures |r| == |s| && forall i :: 0 <= i < |s| ==> r[i] == CharOf(a, s[i])
  {
    seq(|s|, i requires 0 <= i < |s| => CharOf(a, s[i]))
  }

  function Padding(n: nat): (r: string)
    ensures |r| == n && forall i :: 0 <= i < n ==> r[i] == '='
  {
    seq(n, _ => '=')
  }

  /** `"=" * (-len(value) % 4)` */
  function Missing(n: nat): (r: nat)
    ensures (n + r) % 4 == 0 && r < 4
  {
    (4 - n % 4) % 4
  }

  function EncodeUnpadded(a: Alphabet, b: Bytes): string
  {
    Text(a, Split(b))
  }

  function EncodePadded(a: Alphabet, b: Bytes): string
  {
    EncodeUnpadded(a, b) + Padding(Missing(|Split(b)|))
  }

  /** The text before the trailing padding. */
  function Unpad(s: string): (r: string)
    ensures |r| <= |s| && s[..|r|] == r
    ensures r == [] || r[|r| - 1] != '='
  {
    if s == [] || s[|s| - 1] != '=' then s else Unpad(s[..|s| - 1])
  }

  function Sextets(s: string): (r: Option<seq<Sextet>>)
  {
    if s == [] then Some([])
    else
      match (DigitOf(s[0]), Sextets(s[1..]))
      case (Some(d), Some(rest)) => Some([d] + rest)
      case _ => None
  }

  /** `b64url_decode`: padding is completed, then at most two characters of it are needed. */
  function Decode(s: string): Result<Bytes>
  {
    match Sextets(Unpad(s + Padding(Missing(|s|))))
    case None => Err(ValueError)
    case Some(digits) =>
      match Unite(digits)
      case None => Err(ValueError)
      case Some(b) => Ok(b)
  }

  lemma CharReadsBack(a: Alphabet, d: Sextet)
    ensures DigitOf(CharOf(a, d)) == Some(d) && CharOf(a, d) != '='
  {
  }

  lemma {:induction false} TextReadsBack(a: Alphabet, s: seq<Sextet>)
    ensures Sextets(Text(a, s)) == Some(s)
  {
    if s != [] {
      CharReadsBack(a, s[0]);
      TextReadsBack(a, s[1..]);
      assert Text(a, s)[1..] == Text(a, s[1..]);
      assert s == [s[0]] + s[1..];
    }
  }

  lemma {:induction false} UnpadText(a: Alphabet, s: seq<Sextet>, n: nat)
    ensures Unpad(Text(a, s) + Padding(n)) == Text(a, s)
    decreases n
  {
    hide Text, Padding, CharOf;
    var t := Text(a, s) + Padding(n);
    if n > 0 {
      assert t[..|t| - 1] == Text(a, s) + Padding(n - 1);
      UnpadText(a, s, n - 1);
    } else {
      assert t == Text(a, s);
      if s != [] { CharReadsBack(a, s[|s| - 1]); }
    }
  }

  /** Decoding inverts both encodings, in both alphabets. */
  lemma DecodeInvertsEncode(a: Alphabet, b: Bytes)
    ensures Decode(EncodePadded(a, b)) == Ok(b)
    ensures Decode(EncodeUnpadded(a, b)) == Ok(b)
  {
    hide Split, Unite, Sextets, Unpad, Text, Missing;
    var s := Split(b);
    UniteInvertsSplit(b);
    TextReadsBack(a, s);
    UnpadText(a, s, Missing(|s|));
    var padded := EncodePadded(a, b);
    assert Missing(|padded|) == 0;
    assert padded + Padding(0) == padded;
  }

  lemma EncodeIsInjective(a: Alphabet, b: Bytes, c: Bytes)
    requires EncodeUnpadded(a, b) == EncodeUnpadded(a, c)
    ensures b == c
  {
    DecodeInvertsEncode(a, b);
    DecodeInvertsEncode(a, c);
  }

  /** The decoders read exactly the characters of the two alphabets. */
  lemma DigitsAre(c: char, d: nat)
    ensures DigitOf(c) == Some(d) <==> d < 64 && (CharOf(Standard, d) == c || CharOf(UrlSafe, d) == c)
  {
  }

  predicate IsLetterOrDigit(c: char) { 'A' <= c <= 'Z' || 'a' <= c <= 'z' || '0' <= c <= '9' }

  /** A standard text has letters, digits, `+` and `/`; the URL-safe one has `-` and `_` in the places of these. */
  lemma AlphabetsAre(b: Bytes)
    ensures var (s, u) := (EncodeUnpadded(Standard, b), EncodeUnpadded(UrlSafe, b));
      && |u| == |s|
      && forall i :: 0 <= i < |s| ==>
           if s[i] == '+' then u[i] == '-' else if s[i] == '/' then u[i] == '_'
           else IsLetterOrDigit(s[i]) && u[i] == s[i]
  {
    hide Split;
  }
}
