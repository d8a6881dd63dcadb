/** The Base58 codec of the genesis builder. */
module Base58 {
  import opened Basics
  import opened Positional

  /** The character for a digit: 1-9, A-H, J-N, P-Z, a-k, m-z. */
  function CharOf(d: nat): char
    requires d < 58
  {
    if d < 9 then '1' + d as char
    else if d < 17 then 'A' + (d - 9) as char
    else if d < 22 then 'J' + (d - 17) as char
    else if d < 33 then 'P' + (d - 22) as char
    else if d < 44 then 'a' + (d - 33) as char
    else 'm' + (d - 44) as char
  }

  /** `base58Map.get`. */
  function DigitOf(c: char): (r: Option<nat>)
    ensures r.Some? ==> r.value < 58 && CharOf(r.value) == c
  {
    if '1' <= c <= '9' then Some(c as nat - '1' as nat)
    else if 'A' <= c <= 'H' then Some(9 + c as nat - 'A' as nat)
    else if 'J' <= c <= 'N' then Some(17 + c as nat - 'J' as nat)
    else if 'P' <= c <= 'Z' then Some(22 + c as nat - 'P' as nat)
    else if 'a' <= c <= 'k' then Some(33 + c as nat - 'a' as nat)
    else if 'm' <= c <= 'z' then Some(44 + c as nat - 'm' as nat)
    else None
  }

  lemma DigitOfChar(d: nat)
    requires d < 58
    ensures DigitOf(CharOf(d)) == Some(d)
  {
  }

  function Text(digits: seq<nat>): (r: string)
    requires Below(58, digits)
    ensures |r| == |digits| && forall i :: 0 <= i < |r| ==> r[i] == CharOf(digits[i])
  {
    seq(|digits|, i requires 0 <= i < |digits| => CharOf(digits[i]))
  }

  predicate IsText(s: string)
  {
    forall i :: 0 <= i < |s| ==> DigitOf(s[i]).Some?
  }

  /** The digits of a text; every character outside the alphabet is rejected. */
  function Digits(s: string): (r: Option<seq<nat>>)
    ensures r.Some? <==> IsText(s)
    ensures r.Some? ==> |r.value| == |s| && forall i :: 0 <= i < |s| ==> DigitOf(s[i]) == Some(r.value[i])
  {
    if s == [] then Some([])
    else
      var (front, last) := (s[..|s| - 1], s[|s| - 1]);
      assert s == front + [last];
      match (Digits(front), DigitOf(last))
      case (Some(ds), Some(d)) => Some(ds + [d])
      case _ => None
  }

  // ----- base58Encode -----

  function Encode(b: Bytes): string
  {
    ConvertBelow(256, 58, b);
    if b == [] then "1" else Text(Convert(256, 58, b))
  }

  /** The middle loop of `base58Encode`. */
  method DigitLoop(n: nat) returns (digits: seq<nat>)
    ensures digits == ToDigits(58, n)
  {
    var acc: nat := n;
    digits := [];
    while acc > 0
      invariant ToDigits(58, n) == ToDigits(58, acc) + digits
    {
      DivShrinks(acc, 58);
      Assoc(ToDigits(58, acc / 58), [acc % 58], digits);
      digits := [acc % 58] + digits;
      acc := acc / 58;
    }
  }

  /** The first loop: the bytes as one number. */
  method Accumulate(b: Bytes) returns (acc: nat)
    ensures acc == FromDigits(256, b)
  {
    acc := 0;
    for i := 0 to |b|
      invariant acc == FromDigits(256, b[..i])
    {
      assert b[..i + 1][..i] == b[..i];
      acc := acc * 256 + b[i];
    }
    assert b[..|b|] == b;
  }

  /** The three loops of `base58Encode`: the number, its digits, the leading zeros. */
  method EncodeDigits(b: Bytes) returns (digits: seq<nat>)
    ensures digits == Convert(256, 58, b)
  {
    hide FromDigits, ToDigits;
    var acc := Accumulate(b);
    digits := DigitLoop(acc);
    ghost var tail := digits;
    var i := 0;
    while i < |b| && b[i] == 0
      invariant 0 <= i <= LeadingZeros(b)
      invariant digits == Zeros(i) + tail
    {
      digits := [0] + digits;
      i := i + 1;
    }
  }

  /** `base58Encode`. */
  method Base58Encode(b: Bytes) returns (s: string)
    ensures s == Encode(b)
  {
    var digits := EncodeDigits(b);
    ConvertBelow(256, 58, b);
    s := Text(digits);
    if s == [] {
      s := "1";
    }
    EmptyOnlyForEmpty(b);
  }

  lemma EmptyOnlyForEmpty(b: Bytes)
    ensures Convert(256, 58, b) == [] <==> b == []
  {
    if b != [] && LeadingZeros(b) == 0 {
      ConvertShape(256, 58, b);
    }
    if b == [] { assert ToDigits(58, FromDigits(256, b)) == []; }
  }

  // ----- base58Decode -----

  /** `acc.toString(16)`, padded to an even number of digits. */
  function Hex(acc: nat): seq<nat>
  {
    var hex := if acc == 0 then [0] else ToDigits(16, acc);
    if |hex| % 2 != 0 then [0] + hex else hex
  }

  /** `Buffer.from(hex, 'hex')`. */
  function PairUp(hex: seq<nat>): (r: seq<nat>)
    requires |hex| % 2 == 0
  {
    if hex == [] then [] else PairUp(hex[..|hex| - 2]) + [hex[|hex| - 2] * 16 + hex[|hex| - 1]]
  }

  lemma {:induction false} PairUpValue(hex: seq<nat>)
    requires |hex| % 2 == 0 && Below(16, hex)
    ensures FromDigits(256, PairUp(hex)) == FromDigits(16, hex)
    ensures Below(256, PairUp(hex)) && 2 * |PairUp(hex)| == |hex|
    ensures hex != [] ==> PairUp(hex)[0] == hex[0] * 16 + hex[1]
  {
    if hex != [] {
      var n := |hex|;
      var front := hex[..n - 2];
      PairUpValue(front);
      var byte := hex[n - 2] * 16 + hex[n - 1];
      assert PairUp(hex)[..|PairUp(front)|] == PairUp(front);
      assert hex[..n - 1][..n - 2] == front;
    }
  }

  /** Through hexadecimal the bytes of a positive number come out without leading zero. */
  lemma HexBytes(acc: nat)
    ensures |Hex(acc)| % 2 == 0
    ensures PairUp(Hex(acc)) == if acc == 0 then [0] else ToDigits(256, acc)
  {
    hide ToDigits, FromDigits;
    if acc == 0 {
      assert Hex(0) == [0, 0];
      assert PairUp([0, 0][..0]) == [];
    } else {
      hide PairUp;
      var hex := ToDigits(16, acc);
      FromTo(16, acc);
      var padded := Hex(acc);
      if |hex| % 2 != 0 {
        assert padded == Zeros(1) + hex;
        LeadingZerosIgnored(16, 1, hex);
      }
      PairUpValue(padded);
      ToFrom(256, PairUp(padded));
    }
  }

  function DecodedDigits(digits: seq<nat>): seq<nat>
  {
    HexBytes(FromDigits(58, digits));
    Zeros(LeadingZeros(digits)) + PairUp(Hex(FromDigits(58, digits)))
  }

  /** The bytes of a text, or None where the source stops with "invalid base58 character". */
  function Decode(s: string): Option<seq<nat>>
  {
    match Digits(s)
    case None => None
    case Some(digits) => Some(DecodedDigits(digits))
  }

  lemma DecodedDigitsAre(digits: seq<nat>)
    ensures DecodedDigits(digits) ==
      if FromDigits(58, digits) == 0 then Zeros(LeadingZeros(digits)) + [0] else Convert(58, 256, digits)
  {
    HexBytes(FromDigits(58, digits));
  }

  /** The first loop: the value of the digits, or None at an invalid character. */
  method ReadDigits(s: string) returns (acc: nat, digits: Option<seq<nat>>)
    ensures digits == Digits(s)
    ensures digits.Some? ==> |digits.value| == |s| && acc == FromDigits(58, digits.value)
  {
    hide FromDigits, DigitOf;
    EmptyValue();
    acc := 0;
    var read: seq<nat> := [];
    for i := 0 to |s|
      invariant Digits(s[..i]) == Some(read) && |read| == i
      invariant acc == FromDigits(58, read)
    {
      assert s[..i + 1][..i] == s[..i];
      var d := DigitOf(s[i]);
      if d.None? { return acc, None; }
      AppendDigit(read, d.value);
      acc := acc * 58 + d.value;
      read := read + [d.value];
    }
    assert s[..|s|] == s;
    digits := Some(read);
  }

  /** `base58Decode`. */
  method Base58Decode(s: string) returns (r: Option<seq<nat>>)
    ensures r == Decode(s)
  {
    hide FromDigits, Hex, PairUp, DigitOf;
    var acc, read := ReadDigits(s);
    if read.None? { return None; }
    ghost var digits := read.value;
    HexBytes(acc);
    var bytes := PairUp(Hex(acc));
    var leading := 0;
    while leading < |s| && s[leading] == '1'
      invariant 0 <= leading <= LeadingZeros(digits)
    {
      OneIsZero(s[leading]);
      leading := leading + 1;
    }
    if leading < |s| { OneIsZero(s[leading]); }
    return Some(Zeros(leading) + bytes);
  }

  lemma OneIsZero(c: char)
    ensures c == '1' <==> DigitOf(c) == Some(0)
  {
  }

  lemma EmptyValue()
    ensures FromDigits(58, []) == 0
  {
  }

  lemma AppendDigit(digits: seq<nat>, d: nat)
    ensures FromDigits(58, digits + [d]) == FromDigits(58, digits) * 58 + d
  {
    assert (digits + [d])[..|digits|] == digits;
  }

  // ----- the two directions -----

  lemma TextReadsBack(digits: seq<nat>)
    requires Below(58, digits)
    ensures Digits(Text(digits)) == Some(digits)
  {
    var s := Text(digits);
    forall i | 0 <= i < |s| ensures DigitOf(s[i]) == Some(digits[i]) {
      DigitOfChar(digits[i]);
    }
    assert forall i :: 0 <= i < |s| ==> DigitOf(s[i]) == Some(Digits(s).value[i]);
    assert Digits(s).value == digits;
  }

  lemma AllLeading(s: seq<nat>)
    requires !HasNonzero(s)
    ensures LeadingZeros(s) == |s|
  {
    assert LeadingZeros(s) >= |s|;
  }

  lemma AllZero(base: nat, s: seq<nat>)
    requires !HasNonzero(s)
    ensures s == Zeros(|s|) && LeadingZeros(s) == |s| && FromDigits(base, s) == 0
  {
    assert s == Zeros(|s|) + [];
    LeadingZerosIgnored(base, |s|, []);
    AllLeading(s);
  }

  lemma DecodeEncodeZeros(b: Bytes)
    requires !HasNonzero(b)
    ensures Decode(Encode(b)).Some? && |Decode(Encode(b)).value| > |b|
  {
    AllZero(256, b);
    ConvertBelow(256, 58, b);
    var digits := if b == [] then [0] else Convert(256, 58, b);
    assert ToDigits(58, 0) == [];
    assert Encode(b) == Text(digits);
    TextReadsBack(digits);
    AllZero(58, digits);
    DecodedDigitsAre(digits);
  }

  /** Decoding inverts encoding on exactly the byte strings that contain a nonzero byte. */
  lemma DecodeInvertsEncode(b: Bytes)
    ensures Decode(Encode(b)) == Some(b) <==> HasNonzero(b)
  {
    if HasNonzero(b) {
      ConvertBelow(256, 58, b);
      var digits := Convert(256, 58, b);
      TextReadsBack(digits);
      ConvertShape(256, 58, b);
      DecodedDigitsAre(digits);
      ConvertBack(256, 58, b);
    } else {
      DecodeEncodeZeros(b);
    }
  }

  /** The bytes of a text really are bytes. */
  lemma DecodeGivesBytes(s: string)
    requires IsText(s)
    ensures Below(256, Decode(s).value)
  {
    var digits := Digits(s).value;
    DecodedDigitsAre(digits);
    ConvertBelow(58, 256, digits);
  }

  predicate OnlyOnes(s: string)
  {
    forall i :: 0 <= i < |s| ==> s[i] == '1'
  }

  lemma OnesAreZeros(s: string)
    requires IsText(s)
    ensures OnlyOnes(s) <==> !HasNonzero(Digits(s).value)
  {
    hide Digits, DigitOf;
    var digits := Digits(s).value;
    forall i | 0 <= i < |s| ensures s[i] == '1' <==> digits[i] == 0 {
      assert DigitOf(s[i]) == Some(digits[i]);
      OneIsZero(s[i]);
    }
  }

  lemma DigitsBelow(s: string)
    requires IsText(s)
    ensures Below(58, Digits(s).value) && Text(Digits(s).value) == s
  {
    hide Digits, CharOf;
    var digits := Digits(s).value;
    forall i | 0 <= i < |s| ensures digits[i] < 58 && CharOf(digits[i]) == s[i] {
      assert DigitOf(s[i]) == Some(digits[i]);
    }
  }

  /** Encoding inverts decoding on exactly the texts that contain a character other than '1'. */
  lemma EncodeInvertsDecode(s: string, b: Bytes)
    requires Decode(s) == Some(b)
    ensures Encode(b) == s <==> !OnlyOnes(s)
  {
    hide Digits, OnlyOnes, HasNonzero, FromDigits, ToDigits, Text, LeadingZeros, DecodedDigits;
    var digits := Digits(s).value;
    OnesAreZeros(s);
    DecodedDigitsAre(digits);
    DigitsBelow(s);
    ConvertBelow(256, 58, b);
    if OnlyOnes(s) {
      AllZero(58, digits);
      ZerosStay(|s|);
    } else {
      ConvertShape(58, 256, digits);
      ConvertBack(58, 256, digits);
      EmptyOnlyForEmpty(b);
    }
  }

  lemma ZerosStay(n: nat)
    ensures |Encode(Zeros(n) + [0])| == n + 1
  {
    var b: Bytes := Zeros(n) + [0];
    AllZero(256, b);
    ConvertBelow(256, 58, b);
    assert ToDigits(58, 0) == [];
  }

  /** Leading zero bytes and leading '1's match one for one. */
  lemma LeadingOnesMatch(b: Bytes)
    requires HasNonzero(b)
    ensures Digits(Encode(b)).Some? && LeadingZeros(Digits(Encode(b)).value) == LeadingZeros(b)
  {
    ConvertBelow(256, 58, b);
    TextReadsBack(Convert(256, 58, b));
    ConvertShape(256, 58, b);
  }
}
