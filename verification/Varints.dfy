/** Base-128 varints: each reading and writing loop is proved against a recursive specification. */
module Varints {
  import opened Basics

  /** The varint at `pos`: its value and the position behind it, or None when the bytes run out. */
  function VarintAt(buf: Bytes, pos: nat): (r: Option<(nat, nat)>)
    ensures r.Some? ==> pos < r.value.1 <= |buf|
    decreases |buf| - pos
  {
    if pos >= |buf| then None
    else if buf[pos] < 0x80 then Some((buf[pos], pos + 1))
    else
      match VarintAt(buf, pos + 1)
      case None => None
      case Some((high, end)) => Some((buf[pos] - 0x80 + 0x80 * high, end))
  }

  /** The canonical encoding of n, low group first. */
  function Varint(n: nat): (r: Bytes)
    ensures r != []
  {
    if n < 0x80 then [n] else [0x80 + n % 0x80] + Varint(n / 0x80)
  }

  /** What a reader that has accumulated `result` at weight `scale` makes of the rest. */
  function Accumulate(result: nat, scale: nat, rest: Option<(nat, nat)>): Option<(nat, nat)>
  {
    match rest
    case None => None
    case Some((v, end)) => Some((result + scale * v, end))
  }

  lemma AccumulateStep(buf: Bytes, pos: nat, result: nat, scale: nat)
    requires pos < |buf| && buf[pos] >= 0x80
    ensures Accumulate(result, scale, VarintAt(buf, pos))
         == Accumulate(result + scale * (buf[pos] - 0x80), scale * 0x80, VarintAt(buf, pos + 1))
  {
    match VarintAt(buf, pos + 1)
    case None =>
    case Some((high, end)) =>
      assert scale * (buf[pos] - 0x80 + 0x80 * high) == scale * (buf[pos] - 0x80) + scale * 0x80 * high;
  }

  /** `read_varint`. The source shifts by 0, 7, 14, ...; `scale` is 1 << shift. The groups do not
      overlap, so the source's `|=` is an addition. Running off the end raises `missing`: IndexError
      in one script, ValueError ("unterminated varint") in the other. */
  method ReadVarint(buf: Bytes, start: nat, missing: Error) returns (r: Result<(nat, nat)>)
    ensures VarintAt(buf, start).None? ==> r == Err(missing)
    ensures VarintAt(buf, start).Some? ==> r == Ok(VarintAt(buf, start).value)
  {
    var result: nat, scale: nat, pos: nat := 0, 1, start;
    while true
      invariant pos >= start
      invariant VarintAt(buf, start) == Accumulate(result, scale, VarintAt(buf, pos))
      decreases |buf| - pos
    {
      if pos >= |buf| {
        return Err(missing);
      }
      var b := buf[pos];
      var low: nat := b % 0x80;
      if b < 0x80 {
        assert low == b;
        return Ok((result + scale * low, pos + 1));
      }
      assert low == b - 0x80;
      AccumulateStep(buf, pos, result, scale);
      result, scale, pos := result + scale * low, scale * 0x80, pos + 1;
    }
  }

  /** `putVarint` and `write_varint`: append groups while more than one is left. */
  method WriteVarint(n: nat) returns (out: Bytes)
    ensures out == Varint(n)
  {
    var rest: nat := n;
    out := [];
    while rest >= 0x80
      invariant Varint(n) == out + Varint(rest)
    {
      Assoc(out, [0x80 + rest % 0x80], Varint(rest / 0x80));
      out := out + [rest % 0x80 + 0x80];
      rest := rest / 0x80;
    }
    out := out + [rest];
  }

  /** `varint` of the Python script: the group is split off first and the remainder tested. */
  method WriteVarintSplitFirst(n: nat) returns (out: Bytes)
    ensures out == Varint(n)
  {
    var rest: nat := n;
    out := [];
    while true
      invariant Varint(n) == out + Varint(rest)
      decreases rest
    {
      var b: nat := rest % 0x80;
      rest := rest / 0x80;
      if rest != 0 {
        Assoc(out, [b + 0x80], Varint(rest));
        out := out + [b + 0x80];
      } else {
        return out + [b];
      }
    }
  }

  const TWO_TO_32: nat := 0x1_0000_0000

  /** `varint` of the JavaScript verifier: `&` and `>>>` first truncate a number to 32 bits. */
  method WriteVarint32(n: nat) returns (out: Bytes)
    ensures out == Varint(n % TWO_TO_32)
  {
    var rest: nat := n;
    out := [];
    while true
      invariant Varint(n % TWO_TO_32) == out + Varint(rest % TWO_TO_32)
      decreases rest
    {
      var low: nat := rest % TWO_TO_32;
      var b: nat := low % 0x80;
      var next: nat := low / 0x80;
      assert next % TWO_TO_32 == next;
      if next != 0 {
        Assoc(out, [0x80 + b], Varint(next));
        out := out + [b + 0x80];
        rest := next;
      } else {
        return out + [b];
      }
    }
  }

  /** Reading inverts writing, wherever the bytes stand and whatever follows them. */
  lemma {:induction false} ReadInvertsWrite(buf: Bytes, pos: nat, n: nat)
    requires OccursAt(buf, Varint(n), pos)
    ensures VarintAt(buf, pos) == Some((n, pos + |Varint(n)|))
    decreases n
  {
    assert buf[pos] == buf[pos..pos + |Varint(n)|][0] == Varint(n)[0];
    if n >= 0x80 {
      OccursSplit(buf, [0x80 + n % 0x80], Varint(n / 0x80), pos);
      ReadInvertsWrite(buf, pos + 1, n / 0x80);
    }
  }

  lemma WriteIsInjective(m: nat, n: nat)
    requires Varint(m) == Varint(n)
    ensures m == n
  {
    assert OccursAt(Varint(m), Varint(m), 0);
    ReadInvertsWrite(Varint(m), 0, m);
    ReadInvertsWrite(Varint(m), 0, n);
  }

  /** The length of an encoding says how large the number is, and the other way round. */
  lemma {:induction false} LengthIsLogarithmic(n: nat, k: nat)
    requires k > 1
    ensures |Varint(n)| == k <==> Pow(0x80, k - 1) <= n < Pow(0x80, k)
    ensures |Varint(n)| == 1 <==> n < 0x80
    decreases n
  {
    assert Pow(0x80, k) == 0x80 * Pow(0x80, k - 1);
    PowGrows(k - 1);
    if n < 0x80 {
      assert |Varint(n)| == 1;
    } else {
      assert |Varint(n)| == 1 + |Varint(n / 0x80)|;
      if k == 2 {
        assert Pow(0x80, 1) == 0x80 * Pow(0x80, 0) == 0x80;
        LengthIsLogarithmic(n / 0x80, 2);
      } else {
        LengthIsLogarithmic(n / 0x80, k - 1);
        assert Pow(0x80, k - 1) == 0x80 * Pow(0x80, k - 2);
      }
    }
  }

  lemma {:induction false} PowGrows(e: nat)
    ensures e >= 1 ==> Pow(0x80, e) >= 0x80
  {
    if e > 1 { PowGrows(e - 1); }
    if e == 1 { assert Pow(0x80, 1) == 0x80 * Pow(0x80, 0); }
  }

  /** No byte string that reads as n is shorter than the one written for n, and one of that length
      is the one written. */
  lemma {:induction false} WriteIsShortest(buf: Bytes, pos: nat)
    requires VarintAt(buf, pos).Some?
    ensures var (n, end) := VarintAt(buf, pos).value;
      && |Varint(n)| <= end - pos
      && (|Varint(n)| == end - pos ==> buf[pos..end] == Varint(n))
    decreases |buf| - pos
  {
    var (n, end) := VarintAt(buf, pos).value;
    if buf[pos] >= 0x80 {
      WriteIsShortest(buf, pos + 1);
      var high := VarintAt(buf, pos + 1).value.0;
      assert n % 0x80 == buf[pos] - 0x80 && n / 0x80 == high;
      assert buf[pos..end] == [buf[pos]] + buf[pos + 1..end];
    }
  }

  /** The 32-bit writer agrees with the unbounded one on exactly the 32-bit numbers. */
  lemma Writer32Agrees(n: nat)
    ensures Varint(n % TWO_TO_32) == Varint(n) <==> n < TWO_TO_32
  {
    hide Varint;
    var low: nat := n % TWO_TO_32;
    assert low == n <==> n < TWO_TO_32;
    if Varint(low) == Varint(n) { WriteIsInjective(low, n); }
  }
}
