/** Bytes, optional values, and results carrying the kind of exception the source raises. */
module Basics {

  type Byte = x: int | 0 <= x < 256
  type Bytes = seq<Byte>

  /** JavaScript's `Number.MAX_SAFE_INTEGER`. */
  const MAX_SAFE_INTEGER: int := 0x1F_FFFF_FFFF_FFFF

  datatype Option<+T> = None | Some(value: T)

  /** The exceptions the Python scripts raise on malformed input. */
  datatype Error = IndexError | ValueError | TypeError | AssertionError | StructError | MissingFile

  datatype Result<+T> = Ok(value: T) | Err(error: Error)

  /** Python's `data[pos:pos + n]`: a slice past the end is silently shortened. */
  function Slice(data: Bytes, pos: nat, n: nat): (r: Bytes)
    ensures pos + n <= |data| ==> r == data[pos..pos + n]
    ensures |r| <= n
  {
    if pos >= |data| then []
    else if pos + n <= |data| then data[pos..pos + n]
    else data[pos..]
  }

  function Pow(b: nat, e: nat): (r: nat)
    ensures b > 0 ==> r > 0
  {
    if e == 0 then 1 else b * Pow(b, e - 1)
  }

  function Map<A, B>(f: A -> B, s: seq<A>): (r: seq<B>)
    ensures |r| == |s|
    ensures forall i :: 0 <= i < |s| ==> r[i] == f(s[i])
  {
    seq(|s|, i requires 0 <= i < |s| => f(s[i]))
  }

  /** A sequence without its element at `j`. */
  function Without<T>(s: seq<T>, j: nat): (r: seq<T>)
    requires j < |s|
    ensures |r| == |s| - 1
    ensures forall k :: 0 <= k < |r| ==> r[k] == if k < j then s[k] else s[k + 1]
  {
    s[..j] + s[j + 1..]
  }

  lemma WithoutRemovesOne<T>(s: seq<T>, j: nat)
    requires j < |s|
    ensures multiset(Without(s, j)) == multiset(s) - multiset{s[j]}
    ensures multiset(s) == multiset(Without(s, j)) + multiset{s[j]}
  {
    var (a, b) := (s[..j], s[j + 1..]);
    assert s == a + ([s[j]] + b);
    assert multiset(s) == multiset(a) + multiset([s[j]] + b);
    assert multiset([s[j]] + b) == multiset{s[j]} + multiset(b);
    assert multiset(Without(s, j)) == multiset(a) + multiset(b);
  }

  lemma MapWithout<A, B>(f: A -> B, s: seq<A>, j: nat)
    requires j < |s|
    ensures Map(f, Without(s, j)) == Without(Map(f, s), j)
  {
    var (x, y) := (Map(f, Without(s, j)), Without(Map(f, s), j));
    forall k | 0 <= k < |x| ensures x[k] == y[k] {
      var i := if k < j then k else k + 1;
      assert Without(s, j)[k] == s[i] && y[k] == Map(f, s)[i];
    }
  }

  lemma MapConcat<A, B>(f: A -> B, s: seq<A>, t: seq<A>)
    ensures Map(f, s + t) == Map(f, s) + Map(f, t)
  {
    hide Map;
  }

  lemma Assoc<T>(a: seq<T>, b: seq<T>, c: seq<T>)
    ensures (a + b) + c == a + (b + c)
  {
  }

  const HEX_DIGITS: string := "0123456789abcdef"

  /** Two lower-case hex digits for each byte. */
  function HexText(b: Bytes): string
  {
    if b == [] then "" else [HEX_DIGITS[b[0] / 16], HEX_DIGITS[b[0] % 16]] + HexText(b[1..])
  }

  predicate OccursAt(hay: Bytes, needle: Bytes, i: nat)
  {
    i + |needle| <= |hay| && hay[i..i + |needle|] == needle
  }

  /** A concatenation stands somewhere when its parts stand one behind the other. */
  lemma OccursSplit(hay: Bytes, a: Bytes, b: Bytes, i: nat)
    ensures OccursAt(hay, a + b, i) <==> OccursAt(hay, a, i) && OccursAt(hay, b, i + |a|)
  {
    if OccursAt(hay, a + b, i) {
      assert hay[i..i + |a|] == hay[i..i + |a + b|][..|a|] == a;
      assert hay[i + |a|..i + |a| + |b|] == hay[i..i + |a + b|][|a|..] == b;
    }
    if OccursAt(hay, a, i) && OccursAt(hay, b, i + |a|) {
      assert hay[i..i + |a + b|] == hay[i..i + |a|] + hay[i + |a|..i + |a| + |b|];
    }
  }

  /** `needle in hay` for byte strings. */
  predicate Contains(hay: Bytes, needle: Bytes)
  {
    exists i | 0 <= i <= |hay| :: OccursAt(hay, needle, i)
  }

  lemma ContainsSlice(hay: Bytes, lo: nat, hi: nat)
    requires lo <= hi <= |hay|
    ensures Contains(hay, hay[lo..hi])
  {
    assert OccursAt(hay, hay[lo..hi], lo);
  }

  lemma ContainsEnd(front: Bytes, b: Bytes)
    ensures Contains(front + b, b)
  {
    var hay := front + b;
    assert hay[|front|..|hay|] == b;
    ContainsSlice(hay, |front|, |hay|);
  }

  lemma ContainsTransitive(a: Bytes, b: Bytes, c: Bytes)
    requires Contains(a, b) && Contains(b, c)
    ensures Contains(a, c)
  {
    var i :| 0 <= i <= |a| && OccursAt(a, b, i);
    var j :| 0 <= j <= |b| && OccursAt(b, c, j);
    forall k | 0 <= k < |c| ensures a[i + j..i + j + |c|][k] == c[k] {
      assert c[k] == b[j..j + |c|][k] == b[j + k];
      assert b[j + k] == a[i..i + |b|][j + k] == a[i + j + k];
    }
    assert OccursAt(a, c, i + j);
  }
}
