/** Positional notation: digits, most significant first, in any base, and conversion between bases. */
module Positional {

  /** A string of digits in the given base. */
  predicate Below(base: nat, s: seq<nat>)
  {
    forall i :: 0 <= i < |s| ==> s[i] < base
  }

  function FromDigits(base: nat, s: seq<nat>): nat
  {
    if s == [] then 0 else FromDigits(base, s[..|s| - 1]) * base + s[|s| - 1]
  }

  /** The digits of n without leading zeros; none for 0. */
  function ToDigits(base: nat, n: nat): (r: seq<nat>)
    requires base >= 2
    ensures r == [] <==> n == 0
  {
    if n == 0 then [] else
      assert n / base < n by { DivShrinks(n, base); }
      ToDigits(base, n / base) + [n % base]
  }

  lemma {:induction false} AtLeastTwice(q: nat, base: nat)
    requires base >= 2
    ensures q * base >= 2 * q
  {
    if q > 0 { AtLeastTwice(q - 1, base); }
  }

  lemma DivShrinks(n: nat, base: nat)
    requires n > 0 && base >= 2
    ensures 0 <= n / base < n && n == n / base * base + n % base && 0 <= n % base < base
  {
    AtLeastTwice(n / base, base);
  }

  lemma SmallMultiple(k: int, base: nat)
    requires 0 < k * base + base && k * base < base
    ensures k == 0
  {
    assert k >= 1 ==> k * base >= base;
    assert k <= -1 ==> k * base + base <= 0;
  }

  lemma DivOfSum(high: nat, low: nat, base: nat)
    requires low < base
    ensures (high * base + low) / base == high && (high * base + low) % base == low
  {
    var n := high * base + low;
    assert n == n / base * base + n % base;
    assert (n / base - high) * base == n / base * base - high * base;
    SmallMultiple(n / base - high, base);
  }

  lemma {:induction false} FromTo(base: nat, n: nat)
    requires base >= 2
    ensures FromDigits(base, ToDigits(base, n)) == n
    ensures Below(base, ToDigits(base, n))
    ensures n > 0 ==> ToDigits(base, n)[0] != 0
    decreases n
  {
    if n > 0 {
      DivShrinks(n, base);
      FromTo(base, n / base);
      var front := ToDigits(base, n / base);
      assert ToDigits(base, n)[..|front|] == front;
    }
  }

  lemma {:induction false} ToFrom(base: nat, s: seq<nat>)
    requires base >= 2 && Below(base, s) && (s == [] || s[0] != 0)
    ensures ToDigits(base, FromDigits(base, s)) == s
    ensures s != [] ==> FromDigits(base, s) > 0
  {
    if s != [] {
      var (front, last) := (s[..|s| - 1], s[|s| - 1]);
      assert s == front + [last];
      ToFrom(base, front);
      DivOfSum(FromDigits(base, front), last, base);
      if front != [] { assert FromDigits(base, front) * base > 0; } else { assert last == s[0]; }
    }
  }

  function Zeros(k: nat): (r: seq<nat>)
    ensures |r| == k && forall i :: 0 <= i < k ==> r[i] == 0
  {
    seq(k, _ => 0)
  }

  function LeadingZeros(s: seq<nat>): (k: nat)
    ensures k <= |s| && (forall i :: 0 <= i < k ==> s[i] == 0) && (k < |s| ==> s[k] != 0)
  {
    if s == [] || s[0] != 0 then 0 else 1 + LeadingZeros(s[1..])
  }

  lemma {:induction false} LeadingZerosIgnored(base: nat, k: nat, s: seq<nat>)
    ensures FromDigits(base, Zeros(k) + s) == FromDigits(base, s)
    decreases |s|, k
  {
    if s == [] {
      if k > 0 {
        assert (Zeros(k) + s)[..k - 1] == Zeros(k - 1) + s;
        LeadingZerosIgnored(base, k - 1, s);
      } else {
        assert Zeros(0) + s == [];
      }
    } else {
      assert (Zeros(k) + s)[..|Zeros(k) + s| - 1] == Zeros(k) + s[..|s| - 1];
      LeadingZerosIgnored(base, k, s[..|s| - 1]);
    }
  }

  /** Another base, with as many leading zeros. */
  function Convert(from: nat, to: nat, s: seq<nat>): seq<nat>
    requires to >= 2
  {
    Zeros(LeadingZeros(s)) + ToDigits(to, FromDigits(from, s))
  }

  ghost predicate HasNonzero(s: seq<nat>)
  {
    exists i :: 0 <= i < |s| && s[i] != 0
  }

  lemma StripZeros(base: nat, s: seq<nat>)
    requires base >= 2 && Below(base, s) && HasNonzero(s)
    ensures var (k, n) := (LeadingZeros(s), FromDigits(base, s));
      k < |s| && n > 0 && s == Zeros(k) + ToDigits(base, n)
  {
    var k := LeadingZeros(s);
    assert s == Zeros(k) + s[k..];
    LeadingZerosIgnored(base, k, s[k..]);
    ToFrom(base, s[k..]);
  }

  lemma AddZeros(base: nat, k: nat, n: nat)
    requires base >= 2 && n > 0
    ensures var c := Zeros(k) + ToDigits(base, n);
      LeadingZeros(c) == k && FromDigits(base, c) == n && Below(base, c) && HasNonzero(c)
  {
    hide ToDigits, FromDigits;
    FromTo(base, n);
    var t := ToDigits(base, n);
    LeadingZerosIgnored(base, k, t);
    assert (Zeros(k) + t)[k] == t[0] != 0;
    LeadingZerosAre(Zeros(k) + t, k);
  }

  /** What conversion makes of a digit string that is not all zeros. */
  lemma ConvertShape(from: nat, to: nat, s: seq<nat>)
    requires from >= 2 && to >= 2 && Below(from, s) && HasNonzero(s)
    ensures var c := Convert(from, to, s);
      && LeadingZeros(c) == LeadingZeros(s)
      && FromDigits(to, c) == FromDigits(from, s) > 0
      && Below(to, c) && HasNonzero(c)
  {
    hide ToDigits, FromDigits, LeadingZeros, HasNonzero;
    StripZeros(from, s);
    AddZeros(to, LeadingZeros(s), FromDigits(from, s));
  }

  lemma ConvertBelow(from: nat, to: nat, s: seq<nat>)
    requires to >= 2
    ensures Below(to, Convert(from, to, s))
  {
    FromTo(to, FromDigits(from, s));
  }

  lemma LeadingZerosAre(s: seq<nat>, k: nat)
    requires k < |s| && s[k] != 0 && forall i :: 0 <= i < k ==> s[i] == 0
    ensures LeadingZeros(s) == k
  {
  }

  /** Converting back recovers every digit string that is not all zeros. */
  lemma ConvertBack(from: nat, to: nat, s: seq<nat>)
    requires from >= 2 && to >= 2 && Below(from, s) && HasNonzero(s)
    ensures Convert(to, from, Convert(from, to, s)) == s
  {
    hide ToDigits, FromDigits, LeadingZeros, HasNonzero;
    ConvertShape(from, to, s);
    StripZeros(from, s);
  }
}
