/** The hash tree over a state delta, built bottom-up by the scripts; SHA-256 is a parameter `h`. */
module Merkle {
  import opened Basics

  type Digest = d: Bytes | |d| == 32 witness seq(32, _ => 0)
  type Hash = Bytes -> Digest

  /** The string hashed for an inner node. */
  function Join(left: Bytes, right: Bytes): Bytes
  {
    left + right
  }

  // The scripts build the tree level by level, promoting an odd last node; the theorems relate that loop to
  // the top-down tree of section 2.1 of RFC 6962 (without its prefix bytes) and say what the root binds.

  /** One level up: neighbours are hashed together, an odd last node is promoted. */
  function Level(h: Hash, nodes: seq<Digest>): (r: seq<Digest>)
    ensures |r| == (|nodes| + 1) / 2
  {
    if |nodes| < 2 then nodes else [h(Join(nodes[0], nodes[1]))] + Level(h, nodes[2..])
  }

  function BottomUp(h: Hash, nodes: seq<Digest>): Digest
    requires nodes != []
    decreases |nodes|
  {
    if |nodes| == 1 then nodes[0] else BottomUp(h, Level(h, nodes))
  }

  predicate PowerOfTwo(k: nat)
  {
    k == 1 || (k > 1 && k % 2 == 0 && PowerOfTwo(k / 2))
  }

  /** The largest power of two below n. */
  function SplitPoint(n: nat): (k: nat)
    requires n >= 2
    ensures PowerOfTwo(k) && k < n <= 2 * k
  {
    if n == 2 then 1 else 2 * SplitPoint((n + 1) / 2)
  }

  function TopDown(h: Hash, nodes: seq<Digest>): Digest
    requires nodes != []
  {
    if |nodes| == 1 then nodes[0]
    else
      var k := SplitPoint(|nodes|);
      h(Join(TopDown(h, nodes[..k]), TopDown(h, nodes[k..])))
  }

  lemma {:induction false} LevelSplits(h: Hash, a: seq<Digest>, b: seq<Digest>)
    requires |a| % 2 == 0
    ensures Level(h, a + b) == Level(h, a) + Level(h, b)
  {
    if a == [] {
      assert a + b == b;
    } else {
      LevelSplits(h, a[2..], b);
      assert (a + b)[2..] == a[2..] + b;
      Assoc([h(Join(a[0], a[1]))], Level(h, a[2..]), Level(h, b));
    }
  }

  /** Hashing one level up does not change the top-down root. */
  lemma {:induction false} TopDownOfLevel(h: Hash, nodes: seq<Digest>)
    requires |nodes| >= 2
    ensures TopDown(h, Level(h, nodes)) == TopDown(h, nodes)
    decreases |nodes|
  {
    var n := |nodes|;
    if n == 2 {
      assert nodes[..1] == [nodes[0]] && nodes[1..] == [nodes[1]];
      assert Level(h, nodes[2..]) == [];
    } else {
      var k := SplitPoint(n);
      var (left, right) := (nodes[..k], nodes[k..]);
      var up := Level(h, nodes);
      assert nodes == left + right;
      LevelSplits(h, left, right);
      assert SplitPoint(|up|) == k / 2;
      assert up[..k / 2] == Level(h, left) && up[k / 2..] == Level(h, right);
      TopDownOfLevel(h, left);
      if |right| >= 2 { TopDownOfLevel(h, right); }
    }
  }

  /** The level loop computes the RFC 6962 tree, for every nonempty list of leaves. */
  lemma {:induction false} BottomUpIsTopDown(h: Hash, nodes: seq<Digest>)
    requires nodes != []
    ensures BottomUp(h, nodes) == TopDown(h, nodes)
    decreases |nodes|
  {
    if |nodes| >= 2 {
      BottomUpIsTopDown(h, Level(h, nodes));
      TopDownOfLevel(h, nodes);
    }
  }

  lemma {:induction false} SplitPointIs(n: nat, e: nat)
    requires n >= 2 && Pow(2, e) < n <= 2 * Pow(2, e)
    ensures SplitPoint(n) == Pow(2, e)
  {
    if n > 2 { SplitPointIs((n + 1) / 2, e - 1); }
  }

  /** The root of one leaf is the leaf. The root of more is the hash of the root of the first 2^e, the largest
      power of two below their number, followed by the root of the others. */
  lemma RootSplits(h: Hash, nodes: seq<Digest>, e: nat)
    requires nodes != []
    ensures |nodes| == 1 ==> BottomUp(h, nodes) == nodes[0]
    ensures Pow(2, e) < |nodes| <= 2 * Pow(2, e) ==>
      BottomUp(h, nodes) == h(BottomUp(h, nodes[..Pow(2, e)]) + BottomUp(h, nodes[Pow(2, e)..]))
  {
    hide BottomUp;
    BottomUpIsTopDown(h, nodes);
    if Pow(2, e) < |nodes| <= 2 * Pow(2, e) {
      SplitPointIs(|nodes|, e);
      BottomUpIsTopDown(h, nodes[..Pow(2, e)]);
      BottomUpIsTopDown(h, nodes[Pow(2, e)..]);
    }
  }

  /** The inner loop of `delta_root` and of `deltaMerkleRoot`. */
  method NextLevel(h: Hash, nodes: seq<Digest>) returns (next: seq<Digest>)
    ensures next == Level(h, nodes)
  {
    next := [];
    var i := 0;
    while i < |nodes|
      invariant 0 <= i <= |nodes|
      invariant Level(h, nodes) == next + Level(h, nodes[i..])
    {
      if i + 1 < |nodes| {
        assert nodes[i..][2..] == nodes[i + 2..];
        Assoc(next, [h(Join(nodes[i], nodes[i + 1]))], Level(h, nodes[i + 2..]));
        next := next + [h(Join(nodes[i], nodes[i + 1]))];
        i := i + 2;
      } else {
        assert nodes[i..] == [nodes[i]];
        assert Level(h, nodes[i + 1..]) == [];
        next := next + [nodes[i]];
        i := i + 1;
      }
    }
  }

  /** The outer loop: levels until one node is left. */
  method Fold(h: Hash, leaves: seq<Digest>) returns (root: Digest)
    requires leaves != []
    ensures root == TopDown(h, leaves)
  {
    var nodes := leaves;
    while |nodes| > 1
      invariant nodes != []
      invariant BottomUp(h, nodes) == BottomUp(h, leaves)
    {
      nodes := NextLevel(h, nodes);
    }
    BottomUpIsTopDown(h, leaves);
    root := nodes[0];
  }

  // ----- what a root binds -----

  /** Two different strings, one from each side, with the same hash. */
  ghost predicate Collide(h: Hash, xs: set<Bytes>, ys: set<Bytes>)
  {
    exists x, y :: x in xs && y in ys && x != y && h(x) == h(y)
  }

  /** The strings hashed to go one level up. */
  ghost function HashedByLevel(nodes: seq<Digest>): set<Bytes>
  {
    if |nodes| < 2 then {} else {Join(nodes[0], nodes[1])} + HashedByLevel(nodes[2..])
  }

  /** The strings hashed on the way from the leaves to the root. */
  ghost function HashedByTree(h: Hash, nodes: seq<Digest>): set<Bytes>
    requires nodes != []
    decreases |nodes|
  {
    if |nodes| == 1 then {} else HashedByLevel(nodes) + HashedByTree(h, Level(h, nodes))
  }

  lemma {:induction false} LevelBinds(h: Hash, a: seq<Digest>, b: seq<Digest>)
    requires |a| == |b| && Level(h, a) == Level(h, b)
    ensures a == b || Collide(h, HashedByLevel(a), HashedByLevel(b))
  {
    if |a| >= 2 {
      var (x, y) := (Join(a[0], a[1]), Join(b[0], b[1]));
      assert h(x) == Level(h, a)[0] == Level(h, b)[0] == h(y);
      assert Level(h, a[2..]) == Level(h, a)[1..] == Level(h, b)[1..] == Level(h, b[2..]);
      if x == y {
        assert a[0] == x[..32] == y[..32] == b[0];
        assert a[1] == x[32..] == y[32..] == b[1];
        LevelBinds(h, a[2..], b[2..]);
        assert a == [a[0], a[1]] + a[2..] && b == [b[0], b[1]] + b[2..];
      } else {
        assert x in HashedByLevel(a) && y in HashedByLevel(b);
      }
    }
  }

  /** Lists of equal length with equal roots are equal, or two strings hashed for them collide. */
  lemma {:induction false} TreeBinds(h: Hash, a: seq<Digest>, b: seq<Digest>)
    requires |a| == |b| > 0 && BottomUp(h, a) == BottomUp(h, b)
    ensures a == b || Collide(h, HashedByTree(h, a), HashedByTree(h, b))
    decreases |a|
  {
    if |a| >= 2 {
      TreeBinds(h, Level(h, a), Level(h, b));
      if Level(h, a) == Level(h, b) { LevelBinds(h, a, b); }
    } else {
      assert a == [a[0]] && b == [b[0]];
    }
  }
}
