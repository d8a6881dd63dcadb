/** The state-delta root: what the two scripts compute, when they agree, and what the root binds. */
module StateRoot {
  import opened Basics
  import opened Sorting
  import opened Varints
  import opened Protobuf
  import opened StateDelta
  import opened Receipts
  import opened Merkle
  import opened JsonBytes

  /** A serialized database key and the value under it, empty for a removal. */
  datatype Pair = Pair(key: Bytes, value: Bytes)

  predicate KeyLe(p: Pair, q: Pair)
  {
    LexLe(p.key, q.key)
  }

  function Leaves(h: Hash, pairs: seq<Pair>): (r: seq<Digest>)
    ensures |r| == 2 * |pairs|
  {
    if pairs == [] then [] else [h(pairs[0].key), h(pairs[0].value)] + Leaves(h, pairs[1..])
  }

  function LeavesOrOne(h: Hash, pairs: seq<Pair>): (r: seq<Digest>)
    ensures r != []
  {
    if pairs == [] then [h([])] else Leaves(h, pairs)
  }

  function Root(h: Hash, pairs: seq<Pair>): Bytes
  {
    [0x12, 0x20] + TopDown(h, LeavesOrOne(h, Sort(KeyLe, pairs)))
  }

  lemma LeavesFrom(h: Hash, pairs: seq<Pair>, i: nat)
    requires i < |pairs|
    ensures Leaves(h, pairs[i..]) == [h(pairs[i].key), h(pairs[i].value)] + Leaves(h, pairs[i + 1..])
  {
    assert pairs[i..][1..] == pairs[i + 1..];
  }

  lemma TwoMore(nodes: seq<Digest>, a: Digest, b: Digest)
    ensures nodes + [a, b] == nodes + [a] + [b]
  {
  }

  lemma NoLeaves(h: Hash, nodes: seq<Digest>)
    ensures nodes + Leaves(h, []) == nodes
  {
  }

  method HashLeaves(h: Hash, pairs: seq<Pair>) returns (nodes: seq<Digest>)
    ensures nodes == Leaves(h, pairs)
  {
    hide Leaves;
    nodes := [];
    assert pairs[0..] == pairs;
    for i := 0 to |pairs|
      invariant Leaves(h, pairs) == nodes + Leaves(h, pairs[i..])
    {
      LeavesFrom(h, pairs, i);
      Assoc(nodes, [h(pairs[i].key), h(pairs[i].value)], Leaves(h, pairs[i + 1..]));
      TwoMore(nodes, h(pairs[i].key), h(pairs[i].value));
      nodes := nodes + [h(pairs[i].key)];
      nodes := nodes + [h(pairs[i].value)];
    }
    NoLeaves(h, nodes);
  }

  /** `delta_root`. */
  method DeltaRoot(h: Hash, pairs: seq<Pair>) returns (root: Bytes)
    ensures root == Root(h, pairs)
  {
    var nodes := HashLeaves(h, Sort(KeyLe, pairs));
    if nodes == [] {
      nodes := [h([])];
    }
    var top := Fold(h, nodes);
    root := [0x12, 0x20] + top;
  }

  // ----- from a receipt to a root -----

  /** One turn of `entries_to_pairs`, together with the hashing of the value: neither a key nor a
      value may be an integer, except that the integer key 0 counts as empty. */
  function PairOf(r: RawEntry): Result<Pair>
  {
    if (r.key.Num? && Truthy(r.key)) || (r.hasValue && r.value.Num?) then Err(TypeError)
    else Ok(Pair(EncodeDatabaseKey(r.space, if r.key.Raw? then r.key.b else []),
                 if r.hasValue then r.value.b else []))
  }

  function PairsOf(rs: seq<RawEntry>): Result<seq<Pair>>
  {
    if rs == [] then Ok([])
    else
      match PairOf(rs[0])
      case Err(e) => Err(e)
      case Ok(p) => Prepend([p], PairsOf(rs[1..]))
  }

  /** `delta_root(entries_to_pairs(receipt_entries(receipt)))`. */
  function ReceiptRoot(h: Hash, receipt: Bytes): Result<Bytes>
  {
    match ReceiptEntries(receipt)
    case Err(e) => Err(e)
    case Ok(rs) =>
      match PairsOf(rs)
      case Err(e) => Err(e)
      case Ok(pairs) => Ok(Root(h, pairs))
  }

  function EntryPair(e: Entry): Pair
  {
    Pair(EncodeDatabaseKey(SpaceBytes(e), e.key), if e.value.Some? then e.value.value else [])
  }

  function EntryPairs(es: seq<Entry>): seq<Pair> { Map(EntryPair, es) }

  function EntriesRoot(h: Hash, es: seq<Entry>): Bytes
  {
    Root(h, EntryPairs(es))
  }

  lemma {:induction false} PairsOfItems(items: seq<Item>)
    ensures PairsOf(EntriesOf(items)) == Ok(EntryPairs(Deltas(items)))
  {
    hide PairOf, RawOf, EntryPair;
    if items != [] {
      PairsOfItems(items[1..]);
      if items[0].Delta? {
        PairOfRaw(items[0].entry);
        MapConcat(EntryPair, [items[0].entry], Deltas(items[1..]));
        assert EntryPairs(Deltas(items)) == [EntryPair(items[0].entry)] + EntryPairs(Deltas(items[1..]));
        assert EntriesOf(items)[1..] == EntriesOf(items[1..]);
        assert Deltas(items)[1..] == Deltas(items[1..]);
      } else {
        assert EntriesOf(items) == EntriesOf(items[1..]);
        assert Deltas(items) == Deltas(items[1..]);
      }
    }
  }

  lemma PairOfRaw(e: Entry)
    ensures PairOf(RawOf(e)) == Ok(EntryPair(e))
  {
    hide EncodeDatabaseKey, EncodeObjectSpace;
  }

  /** The root of a receipt is the root of the entries it encodes. */
  lemma ReceiptRootIsEntriesRoot(h: Hash, items: seq<Item>)
    requires forall it :: it in items && it.Other? ==> it.field.number != 13
    ensures ReceiptRoot(h, EncodeFields(ItemFields(items))) == Ok(EntriesRoot(h, Deltas(items)))
  {
    hide EncodeFields, Root;
    ReceiptReadsBack(items);
    PairsOfItems(items);
  }

  // ----- order independence -----

  lemma KeyLeIsTotalPreorder()
    ensures TotalPreorder(KeyLe)
  {
    forall p: Pair, q: Pair ensures KeyLe(p, q) || KeyLe(q, p) { LexTotal(p.key, q.key); }
    forall p: Pair, q: Pair, r: Pair | KeyLe(p, q) && KeyLe(q, r) ensures KeyLe(p, r) {
      LexTransitive(p.key, q.key, r.key);
    }
  }

  ghost predicate DistinctKeys(pairs: seq<Pair>)
  {
    forall p, q :: p in pairs && q in pairs && p.key == q.key ==> p == q
  }

  /** With distinct keys the root does not depend on the order of the entries. */
  lemma RootForgetsOrder(h: Hash, a: seq<Pair>, b: seq<Pair>)
    requires multiset(a) == multiset(b) && DistinctKeys(a)
    ensures Root(h, a) == Root(h, b)
  {
    KeyLeIsTotalPreorder();
    forall p, q | p in a && q in a && KeyLe(p, q) && KeyLe(q, p) ensures p == q {
      LexAntisymmetric(p.key, q.key);
    }
    SortForgetsOrder(KeyLe, a, b);
  }

  // ----- binding -----

  ghost function Strings(pairs: seq<Pair>): set<Bytes>
  {
    if pairs == [] then {} else {pairs[0].key, pairs[0].value} + Strings(pairs[1..])
  }

  /** Every string hashed to compute the root. */
  ghost function Hashed(h: Hash, pairs: seq<Pair>): set<Bytes>
  {
    Strings(Sort(KeyLe, pairs)) + HashedByTree(h, LeavesOrOne(h, Sort(KeyLe, pairs)))
  }

  lemma {:induction false} LeavesBind(h: Hash, a: seq<Pair>, b: seq<Pair>)
    requires |a| == |b| && Leaves(h, a) == Leaves(h, b)
    ensures a == b || Collide(h, Strings(a), Strings(b))
  {
    if a != [] {
      assert h(a[0].key) == Leaves(h, a)[0] == Leaves(h, b)[0] == h(b[0].key);
      assert h(a[0].value) == Leaves(h, a)[1] == Leaves(h, b)[1] == h(b[0].value);
      assert Leaves(h, a[1..]) == Leaves(h, a)[2..] == Leaves(h, b)[2..] == Leaves(h, b[1..]);
      LeavesBind(h, a[1..], b[1..]);
      if a[0] == b[0] {
        assert a == [a[0]] + a[1..] && b == [b[0]] + b[1..];
      } else {
        assert a[0].key in Strings(a) && b[0].key in Strings(b);
        assert a[0].value in Strings(a) && b[0].value in Strings(b);
      }
    }
  }

  /** Pair lists of equal length with equal roots agree once sorted, or two strings hashed for them
      collide. */
  lemma RootBindsPairs(h: Hash, a: seq<Pair>, b: seq<Pair>)
    requires |a| == |b| && Root(h, a) == Root(h, b)
    ensures Sort(KeyLe, a) == Sort(KeyLe, b) || Collide(h, Hashed(h, a), Hashed(h, b))
  {
    hide TopDown, BottomUp, HashedByTree, Sort;
    var (s, t) := (Sort(KeyLe, a), Sort(KeyLe, b));
    var (x, y) := (LeavesOrOne(h, s), LeavesOrOne(h, t));
    assert TopDown(h, x) == Root(h, a)[2..] == Root(h, b)[2..] == TopDown(h, y);
    BottomUpIsTopDown(h, x);
    BottomUpIsTopDown(h, y);
    TreeBinds(h, x, y);
    if x == y && s != [] { LeavesBind(h, s, t); }
  }

  /** A removal hashes like a put of the empty value. */
  function Hashable(e: Entry): Entry
  {
    e.(value := Some(if e.value.Some? then e.value.value else []))
  }

  function Hashables(es: seq<Entry>): seq<Entry> { Map(Hashable, es) }

  lemma PairDeterminesEntry(d: Entry, e: Entry)
    requires EntryPair(d) == EntryPair(e)
    ensures Hashable(d) == Hashable(e)
  {
    hide EncodeDatabaseKey, EncodeObjectSpace;
    KeyEncodingIsInjective(SpaceBytes(d), d.key, SpaceBytes(e), e.key);
    SpaceEncodingIsInjective(d.system, d.zone, d.id, e.system, e.zone, e.id);
  }

  /** An injective encoding carries equality of multisets back. */
  lemma {:induction false} SamePairsSameEntries(a: seq<Entry>, b: seq<Entry>)
    requires multiset(EntryPairs(a)) == multiset(EntryPairs(b))
    ensures multiset(Hashables(a)) == multiset(Hashables(b))
    decreases |a|
  {
    hide EntryPair, Hashable, Map, Without;
    var (p, q) := (EntryPairs(a), EntryPairs(b));
    SameElements(p, q);
    if a != [] {
      assert p[0] in q;
      var j :| 0 <= j < |q| && q[j] == p[0];
      PairDeterminesEntry(a[0], b[j]);
      MapWithout(EntryPair, a, 0);
      MapWithout(EntryPair, b, j);
      MapWithout(Hashable, a, 0);
      MapWithout(Hashable, b, j);
      WithoutRemovesOne(p, 0);
      WithoutRemovesOne(q, j);
      WithoutRemovesOne(Hashables(a), 0);
      WithoutRemovesOne(Hashables(b), j);
      SamePairsSameEntries(Without(a, 0), Without(b, j));
    } else {
      assert b == [];
    }
  }

  /** Entry lists of equal length with equal roots hold the same entries, a removal counting as an
      empty value, or two strings hashed for them collide. */
  lemma RootBindsEntries(h: Hash, a: seq<Entry>, b: seq<Entry>)
    requires |a| == |b| && EntriesRoot(h, a) == EntriesRoot(h, b)
    ensures multiset(Hashables(a)) == multiset(Hashables(b))
         || Collide(h, Hashed(h, EntryPairs(a)), Hashed(h, EntryPairs(b)))
  {
    hide Root, Hashed;
    var (p, q) := (EntryPairs(a), EntryPairs(b));
    RootBindsPairs(h, p, q);
    if Sort(KeyLe, p) == Sort(KeyLe, q) {
      assert multiset(p) == multiset(Sort(KeyLe, p)) == multiset(q);
      SamePairsSameEntries(a, b);
    }
  }

  // ----- distinct keys are needed -----

  lemma PullOne(a: seq<Pair>, p: Pair) returns (rest: seq<Pair>)
    requires p in a
    ensures multiset([p] + rest) == multiset(a)
  {
    var j :| 0 <= j < |a| && a[j] == p;
    rest := Without(a, j);
    WithoutRemovesOne(a, j);
  }

  lemma PullTwo(a: seq<Pair>, p: Pair, q: Pair) returns (rest: seq<Pair>)
    requires p in a && q in a && p != q
    ensures multiset([p, q] + rest) == multiset(a) && multiset([q, p] + rest) == multiset(a)
  {
    var r := PullOne(a, p);
    SameElements([p] + r, a);
    assert q in [p] + r && q in r;
    rest := PullOne(r, q);
    assert [p, q] + rest == [p] + ([q] + rest);
  }

  lemma TiesInFront(p: Pair, q: Pair, rest: seq<Pair>)
    requires KeyLe(p, q) && KeyLe(q, p) && TotalPreorder(KeyLe)
    ensures Filter(TiesWith(KeyLe, p), [p, q] + rest) == [p, q] + Filter(TiesWith(KeyLe, p), rest)
    ensures Filter(TiesWith(KeyLe, p), [q, p] + rest) == [q, p] + Filter(TiesWith(KeyLe, p), rest)
  {
    hide KeyLe, Filter;
    var t := TiesWith(KeyLe, p);
    assert t(p) && t(q);
    assert [p, q] + rest == [p] + ([q] + rest) && [q, p] + rest == [q] + ([p] + rest);
    FilterCons(t, p, [q] + rest);
    FilterCons(t, q, rest);
    FilterCons(t, q, [p] + rest);
    FilterCons(t, p, rest);
  }

  /** Two pairs with one key in front: swapping them changes the sorted list. */
  lemma SwapIsVisible(p: Pair, q: Pair, rest: seq<Pair>)
    requires p.key == q.key && p != q
    ensures Sort(KeyLe, [p, q] + rest) != Sort(KeyLe, [q, p] + rest)
  {
    KeyLeIsTotalPreorder();
    assert KeyLe(p, q) && KeyLe(q, p) by { LexTotal(p.key, p.key); }
    hide KeyLe, Sort, Filter;
    TiesInFront(p, q, rest);
    SortIsStable(KeyLe, [p, q] + rest, p);
    SortIsStable(KeyLe, [q, p] + rest, p);
    var f := Filter(TiesWith(KeyLe, p), rest);
    assert ([p, q] + f)[0] != ([q, p] + f)[0];
  }

  ghost predicate Rearranged(a: seq<Pair>, x: seq<Pair>) { multiset(x) == multiset(a) }

  ghost predicate RootsDiffer(h: Hash, x: seq<Pair>, y: seq<Pair>)
  {
    Root(h, x) != Root(h, y) || Collide(h, Hashed(h, x), Hashed(h, y))
  }

  /** With a key under two values, two orders of the entries give different roots, unless hashed strings
      collide. */
  lemma DuplicateKeysShowOrder(h: Hash, a: seq<Pair>)
    requires !DistinctKeys(a)
    ensures exists x, y :: Rearranged(a, x) && Rearranged(a, y) && RootsDiffer(h, x, y)
  {
    hide Root, Hashed, Sort;
    var p, q :| p in a && q in a && p.key == q.key && p != q;
    var rest := PullTwo(a, p, q);
    var (x, y) := ([p, q] + rest, [q, p] + rest);
    SwapIsVisible(p, q, rest);
    if Root(h, x) == Root(h, y) { RootBindsPairs(h, x, y); }
    assert Rearranged(a, x) && Rearranged(a, y);
  }

  /** The root forgets the order of the entries exactly when no key is under two values, unless strings
      hashed for two orders collide. */
  lemma RootForgetsOrderIff(h: Hash, a: seq<Pair>)
    ensures
      || (DistinctKeys(a) <==> forall x, y :: Rearranged(a, x) && Rearranged(a, y) ==> Root(h, x) == Root(h, y))
      || (exists x, y :: Rearranged(a, x) && Rearranged(a, y) && Collide(h, Hashed(h, x), Hashed(h, y)))
  {
    hide Root, Hashed;
    if DistinctKeys(a) {
      forall x, y | Rearranged(a, x) && Rearranged(a, y) ensures Root(h, x) == Root(h, y) {
        SameElements(x, a);
        RootForgetsOrder(h, x, y);
      }
    } else {
      DuplicateKeysShowOrder(h, a);
    }
  }

  // ----- what is hashed, and in which order -----

  /** The hashes of key and value, pair by pair. */
  ghost predicate AreLeaves(h: Hash, leaves: seq<Digest>, pairs: seq<Pair>)
  {
    && |leaves| == 2 * |pairs|
    && forall i :: 0 <= i < |pairs| ==> leaves[2 * i] == h(pairs[i].key) && leaves[2 * i + 1] == h(pairs[i].value)
  }

  ghost predicate AscendingKeys(pairs: seq<Pair>)
  {
    forall i, j :: 0 <= i < j < |pairs| ==> pairs[i].key == pairs[j].key || Precedes(pairs[i].key, pairs[j].key)
  }

  lemma {:induction false} LeavesAre(h: Hash, pairs: seq<Pair>)
    ensures AreLeaves(h, Leaves(h, pairs), pairs)
  {
    if pairs != [] {
      LeavesAre(h, pairs[1..]);
      var (all, rest) := (Leaves(h, pairs), Leaves(h, pairs[1..]));
      assert all[2..] == rest;
      hide Leaves;
      forall i | 0 <= i < |pairs| ensures all[2 * i] == h(pairs[i].key) && all[2 * i + 1] == h(pairs[i].value) {
        if i > 0 {
          assert pairs[1..][i - 1] == pairs[i];
          assert all[2 * i] == rest[2 * (i - 1)] && all[2 * i + 1] == rest[2 * (i - 1) + 1];
        }
      }
    }
  }

  lemma SortAscends(pairs: seq<Pair>)
    ensures AscendingKeys(Sort(KeyLe, pairs))
  {
    KeyLeIsTotalPreorder();
    SortIsSorted(KeyLe, pairs);
    hide Sort, Precedes;
    var s := Sort(KeyLe, pairs);
    forall i, j | 0 <= i < j < |s| ensures s[i].key == s[j].key || Precedes(s[i].key, s[j].key) {
      LexLeIff(s[i].key, s[j].key);
    }
  }

  /** The root is that of the hashes of the keys and values, in an arrangement of the pairs whose keys ascend; of
      no pair, it is the hash of the empty string. */
  lemma RootHashesAscendingKeys(h: Hash, pairs: seq<Pair>)
    ensures pairs == [] ==> Root(h, pairs) == [0x12, 0x20] + h([])
    ensures pairs != [] ==> exists ordered, leaves ::
      && multiset(ordered) == multiset(pairs) && AscendingKeys(ordered) && AreLeaves(h, leaves, ordered)
      && Root(h, pairs) == [0x12, 0x20] + BottomUp(h, leaves)
  {
    var ordered := Sort(KeyLe, pairs);
    SortAscends(pairs);
    LeavesAre(h, ordered);
    BottomUpIsTopDown(h, LeavesOrOne(h, ordered));
    hide Sort, AscendingKeys, AreLeaves, BottomUp;
    if pairs != [] { assert |ordered| == |pairs|; }
  }

  lemma NotBothPrecede(x: Bytes, y: Bytes)
    requires Precedes(x, y)
    ensures LexLe(x, y) && !LexLe(y, x)
  {
    LexLeIff(x, y);
    if LexLe(y, x) { LexAntisymmetric(x, y); NotBeforeItself(x); }
  }

  lemma NotBeforeItself(x: Bytes)
    ensures !Precedes(x, x)
  {
  }

  /** The root of one pair, and of two in either order: the smaller key is hashed first. */
  lemma RootOfTwo(h: Hash, p: Pair, q: Pair)
    requires Precedes(p.key, q.key)
    ensures Root(h, [p]) == [0x12, 0x20] + h(h(p.key) + h(p.value))
    ensures Root(h, [p, q]) == Root(h, [q, p]) == [0x12, 0x20] + h(h(h(p.key) + h(p.value)) + h(h(q.key) + h(q.value)))
  {
    NotBothPrecede(p.key, q.key);
    SortOrdered(p, q, p);
    SortSwapped(p, q);
    hide Sort, Precedes;
    LeavesOfTwo(h, p, q);
    LeavesOfOne(h, p);
    TopDownOfTwo(h, h(p.key), h(p.value));
    TopDownOfFour(h, h(p.key), h(p.value), h(q.key), h(q.value));
    TopDownOfTwo(h, h(h(p.key) + h(p.value)), h(h(q.key) + h(q.value)));
  }

  lemma SortSwapped(p: Pair, q: Pair)
    requires KeyLe(p, q) && !KeyLe(q, p)
    ensures Sort(KeyLe, [q, p]) == [p, q]
  {
    hide KeyLe;
    assert [q, p][1..] == [p] && [p][1..] == [];
    assert Sort(KeyLe, []) == [] && Insert(KeyLe, q, []) == [q];
    assert Sort(KeyLe, [p]) == [p];
  }

  lemma LeavesOfOne(h: Hash, p: Pair)
    ensures Leaves(h, [p]) == [h(p.key), h(p.value)]
  {
    assert [p][1..] == [] && Leaves(h, []) == [];
  }

  lemma LeavesOfTwo(h: Hash, p: Pair, q: Pair)
    ensures Leaves(h, [p, q]) == [h(p.key), h(p.value), h(q.key), h(q.value)]
  {
    assert [p, q][1..] == [q];
    LeavesOfOne(h, q);
  }

  // ----- equal length is needed -----

  /** Two pairs have the root of one pair made of their hashes. */
  lemma LengthIsNeeded(h: Hash, p: Pair, q: Pair)
    requires p.key == q.key || Precedes(p.key, q.key)
    ensures Root(h, [p, q]) == Root(h, [Pair(h(p.key) + h(p.value), h(q.key) + h(q.value))])
  {
    var r := Pair(h(p.key) + h(p.value), h(q.key) + h(q.value));
    LexLeIff(p.key, q.key);
    SortOrdered(p, q, r);
    hide Sort, Precedes;
    LeavesOfTwo(h, p, q);
    LeavesOfOne(h, r);
    TopDownOfFour(h, h(p.key), h(p.value), h(q.key), h(q.value));
  }

  lemma SortOrdered(p: Pair, q: Pair, r: Pair)
    requires KeyLe(p, q)
    ensures Sort(KeyLe, [p, q]) == [p, q] && Sort(KeyLe, [r]) == [r]
  {
    hide KeyLe;
    assert [p, q][1..] == [q] && [q][1..] == [] && [r][1..] == [];
    assert Sort(KeyLe, []) == [];
    assert Sort(KeyLe, [q]) == [q] && Sort(KeyLe, [r]) == [r];
  }

  lemma TopDownOfFour(h: Hash, a: Digest, b: Digest, c: Digest, d: Digest)
    ensures TopDown(h, [a, b, c, d]) == TopDown(h, [h(a + b), h(c + d)])
  {
    assert SplitPoint(4) == 2 && SplitPoint(2) == 1;
    var x := [a, b, c, d];
    assert x[..2] == [a, b] && x[2..] == [c, d];
    TopDownOfTwo(h, a, b);
    TopDownOfTwo(h, c, d);
    TopDownOfTwo(h, h(a + b), h(c + d));
  }

  lemma TopDownOfTwo(h: Hash, a: Digest, b: Digest)
    ensures TopDown(h, [a, b]) == h(a + b)
  {
    assert SplitPoint(2) == 1;
    assert [a, b][..1] == [a] && [a, b][1..] == [b];
    assert TopDown(h, [a]) == a && TopDown(h, [b]) == b;
  }

  // ----- the JavaScript verifier -----

  /** `encodeObjectSpace` of the JavaScript verifier, with its 32-bit varint. */
  function SpaceBytes32(e: Entry): Bytes
  {
    SystemPart(e.system)
    + (if e.zone != [] then [0x12] + Varint(|e.zone| % TWO_TO_32) + e.zone else [])
    + (if e.id != 0 then [0x18] + Varint(e.id % TWO_TO_32) else [])
  }

  /** `encodeDatabaseKey` of the JavaScript verifier. */
  function DatabaseKey32(e: Entry): Bytes
  {
    [0x0a] + Varint(|SpaceBytes32(e)| % TWO_TO_32) + SpaceBytes32(e)
    + (if e.key != [] then [0x12] + Varint(|e.key| % TWO_TO_32) + e.key else [])
  }

  function Pair32(e: Entry): Pair
  {
    Pair(DatabaseKey32(e), if e.value.Some? then e.value.value else [])
  }

  /** An entry as JSON carries it: byte fields as text, an absent zone or key as "". */
  datatype JsonEntry = JsonEntry(system: bool, zone: string, id: nat, key: string, value: Option<string>)

  /** The JSON of an entry, with or without base64 padding. */
  function ToJson(padded: bool, e: Entry): JsonEntry
  {
    JsonEntry(e.system, TextOf(padded, e.zone), e.id, TextOf(padded, e.key),
              if e.value.Some? then Some(TextOf(padded, e.value.value)) else None)
  }

  /** The entry that `decodeBytes` makes of it. */
  function Decoded(j: JsonEntry): Entry
  {
    Entry(j.system, DecodeBytes(j.zone), j.id, DecodeBytes(j.key),
          if j.value.Some? then Some(DecodeBytes(j.value.value)) else None)
  }

  function JsonPairs(js: seq<JsonEntry>): seq<Pair> { Map(j => Pair32(Decoded(j)), js) }

  /** `entries.map` in `deltaMerkleRoot`. */
  method EncodePairs32(js: seq<JsonEntry>) returns (pairs: seq<Pair>)
    ensures pairs == JsonPairs(js)
  {
    hide Pair32, Decoded;
    pairs := [];
    for i := 0 to |js|
      invariant |pairs| == i
      invariant forall k :: 0 <= k < i ==> pairs[k] == Pair32(Decoded(js[k]))
    {
      pairs := pairs + [Pair32(Decoded(js[i]))];
    }
  }

  /** `deltaMerkleRoot`: an empty list has no node to print, which raises a TypeError. */
  method DeltaMerkleRoot(h: Hash, js: seq<JsonEntry>) returns (r: Result<Bytes>)
    ensures r == if js == [] then Err(TypeError) else Ok(Root(h, JsonPairs(js)))
  {
    var pairs := EncodePairs32(js);
    if js == [] { return Err(TypeError); }
    var nodes := HashLeaves(h, Sort(KeyLe, pairs));
    var top := Fold(h, nodes);
    return Ok([0x12, 0x20] + top);
  }

  /** Byte strings shorter than 4 GiB. */
  predicate LengthsFit(e: Entry)
  {
    |e.zone| < TWO_TO_32 && |e.key| < TWO_TO_32 && |SpaceBytes32(e)| < TWO_TO_32
  }

  lemma SpacesAgree(e: Entry)
    requires LengthsFit(e)
    ensures SpaceBytes32(e) == SpaceBytes(e) <==> e.id < TWO_TO_32
  {
    hide Varint;
    assert |e.zone| % TWO_TO_32 == |e.zone|;
    var front := SystemPart(e.system) + ZonePart(e.zone);
    if e.id < TWO_TO_32 {
      assert e.id % TWO_TO_32 == e.id;
    } else if SpaceBytes32(e) == SpaceBytes(e) {
      var (x, y) := ([0x18] + Varint(e.id % TWO_TO_32), [0x18] + Varint(e.id));
      assert x == SpaceBytes32(e)[|front|..] && y == SpaceBytes(e)[|front|..];
      assert Varint(e.id % TWO_TO_32) == x[1..] == y[1..] == Varint(e.id);
      WriteIsInjective(e.id % TWO_TO_32, e.id);
    }
  }

  /** The two encoders write the same database key exactly when the object id is a `uint32`. */
  lemma KeysAgree(e: Entry)
    requires LengthsFit(e)
    ensures DatabaseKey32(e) == EncodeDatabaseKey(SpaceBytes(e), e.key) <==> e.id < TWO_TO_32
  {
    SpacesAgree(e);
    hide Varint, SpaceBytes32, EncodeObjectSpace;
    assert |SpaceBytes32(e)| % TWO_TO_32 == |SpaceBytes32(e)| && |e.key| % TWO_TO_32 == |e.key|;
    assert DatabaseKey32(e) == EncodeDatabaseKey(SpaceBytes32(e), e.key);
    if DatabaseKey32(e) == EncodeDatabaseKey(SpaceBytes(e), e.key) {
      KeyEncodingIsInjective(SpaceBytes32(e), e.key, SpaceBytes(e), e.key);
    }
  }

  /** The fields behind the JavaScript space encoder: a nonzero id is written even when its low bits are 0. */
  function SpaceFields32(e: Entry): seq<WireField>
  {
    Unless(!e.system, VarintField(1, 1)) + Unless(e.zone == [], BytesField(2, e.zone))
    + Unless(e.id == 0, VarintField(3, e.id % TWO_TO_32))
  }

  lemma Space32IsFields(e: Entry)
    requires LengthsFit(e)
    ensures SpaceBytes32(e) == EncodeFields(SpaceFields32(e))
  {
    hide Varint, EncodeFields, EncodeField, Unless;
    EncodeParts(e.system, e.zone, e.id);
    EncodeOne(VarintField(3, e.id % TWO_TO_32));
    EncodeVarintField(3, e.id % TWO_TO_32);
    UnlessIdEncodes(e.id, e.id % TWO_TO_32);
    var (a, b) := (Unless(!e.system, VarintField(1, 1)), Unless(e.zone == [], BytesField(2, e.zone)));
    var c := Unless(e.id == 0, VarintField(3, e.id % TWO_TO_32));
    EncodeFieldsConcat(a + b, c);
    EncodeFieldsConcat(a, b);
    assert |e.zone| % TWO_TO_32 == |e.zone|;
    assert SpaceBytes32(e) == SystemPart(e.system) + ZonePart(e.zone) + EncodeFields(c);
  }

  lemma UnlessIdEncodes(id: nat, n: nat)
    ensures EncodeFields(Unless(id == 0, VarintField(3, n))) == if id != 0 then [0x18] + Varint(n) else []
  {
    hide Varint, EncodeField;
    EncodeNone();
    EncodeOne(VarintField(3, n));
    EncodeVarintField(3, n);
  }

  /** No key of the JavaScript encoder is the true key of an entry with a larger id. */
  lemma LargeIdIsMissed(d: Entry, e: Entry)
    requires LengthsFit(d) && e.id >= TWO_TO_32
    ensures Pair32(d) != EntryPair(e)
  {
    hide Varint, SpaceBytes32, EncodeObjectSpace, EncodeFields;
    if Pair32(d).key == EntryPair(e).key {
      assert |SpaceBytes32(d)| % TWO_TO_32 == |SpaceBytes32(d)| && |d.key| % TWO_TO_32 == |d.key|;
      assert DatabaseKey32(d) == EncodeDatabaseKey(SpaceBytes32(d), d.key);
      KeyEncodingIsInjective(SpaceBytes32(d), d.key, SpaceBytes(e), e.key);
      Space32IsFields(d);
      SpaceIsFields(e.system, e.zone, e.id);
      EncodeFieldsIsInjective(SpaceFields32(d), SpaceFields(e.system, e.zone, e.id));
      LastFields(d, e);
    }
  }

  lemma LastFields(d: Entry, e: Entry)
    requires e.id >= TWO_TO_32
    ensures SpaceFields32(d) != SpaceFields(e.system, e.zone, e.id)
  {
    var (fs, gs) := (SpaceFields32(d), SpaceFields(e.system, e.zone, e.id));
    assert gs[|gs| - 1] == VarintField(3, e.id);
    assert fs != [] ==> fs[|fs| - 1].number != 3 || fs[|fs| - 1] == VarintField(3, d.id % TWO_TO_32);
  }

  // ----- when the two scripts agree -----

  /** Both scripts hash the same pair for an entry: its id is a `uint32`, and no text of its fields starts
      with `0x`. */
  predicate ReadRight(e: Entry)
  {
    && e.id < TWO_TO_32 && !LooksHex(e.zone) && !LooksHex(e.key)
    && (e.value.Some? ==> !LooksHex(e.value.value))
  }

  function JsPair(padded: bool, e: Entry): Pair { Pair32(Decoded(ToJson(padded, e))) }

  function JsPairs(padded: bool, es: seq<Entry>): seq<Pair> { JsonPairs(Map(e => ToJson(padded, e), es)) }

  lemma JsPairsAt(padded: bool, es: seq<Entry>)
    ensures |JsPairs(padded, es)| == |es|
    ensures forall i :: 0 <= i < |es| ==> JsPairs(padded, es)[i] == JsPair(padded, es[i])
  {
    hide Pair32, Decoded, ToJson;
  }

  lemma {:induction false} VarintGrows(m: nat, n: nat)
    requires m <= n
    ensures |Varint(m)| <= |Varint(n)|
    decreases n
  {
    if m >= 0x80 { VarintGrows(m / 0x80, n / 0x80); }
  }

  /** A shorter zone or key makes a shorter database key. */
  lemma ShorterFields(d: Entry, e: Entry)
    requires d.system == e.system && d.id == e.id && |d.zone| <= |e.zone| && |d.key| <= |e.key|
    ensures var (x, y) := (EntryPair(d).key, EntryPair(e).key);
      |x| <= |y| && (|d.zone| < |e.zone| || |d.key| < |e.key| ==> |x| < |y|)
  {
    VarintGrows(|d.zone|, |e.zone|);
    VarintGrows(|d.key|, |e.key|);
    hide Varint;
    ShorterSpace(d, e);
    VarintGrows(|SpaceBytes(d)|, |SpaceBytes(e)|);
  }

  lemma ShorterSpace(d: Entry, e: Entry)
    requires d.system == e.system && d.id == e.id && |d.zone| <= |e.zone|
    ensures |SpaceBytes(d)| <= |SpaceBytes(e)| && (|d.zone| < |e.zone| ==> |SpaceBytes(d)| < |SpaceBytes(e)|)
  {
    VarintGrows(|d.zone|, |e.zone|);
    hide Varint;
  }

  lemma Space32Shorter(d: Entry, e: Entry)
    requires d.system == e.system && d.id == e.id && |d.zone| <= |e.zone| < TWO_TO_32
    ensures |SpaceBytes32(d)| <= |SpaceBytes32(e)|
  {
    VarintGrows(|d.zone|, |e.zone|);
    hide Varint;
    assert |d.zone| % TWO_TO_32 == |d.zone| && |e.zone| % TWO_TO_32 == |e.zone|;
  }

  /** What decoding does to the lengths of the fields. */
  lemma DecodedFacts(padded: bool, e: Entry)
    ensures var d := Decoded(ToJson(padded, e));
      && d.system == e.system && d.id == e.id && |d.zone| <= |e.zone| && |d.key| <= |e.key|
      && (d.value.Some? <==> e.value.Some?) && (e.value.Some? ==> |d.value.value| <= |e.value.value|)
      && (LengthsFit(e) ==> LengthsFit(d))
      && (e.id < TWO_TO_32 ==> (d == e <==> ReadRight(e)))
  {
    hide SpaceBytes32, DecodeBytes, TextOf, LooksHex;
    ReadRightIff(padded, e.zone);
    ReadRightIff(padded, e.key);
    if e.value.Some? { ReadRightIff(padded, e.value.value); }
    if LengthsFit(e) { Space32Shorter(Decoded(ToJson(padded, e)), e); }
  }

  lemma MisreadShrinks(padded: bool, e: Entry)
    requires e.id < TWO_TO_32 && !ReadRight(e)
    ensures var d := Decoded(ToJson(padded, e));
      |d.zone| < |e.zone| || |d.key| < |e.key| || (e.value.Some? && |d.value.value| < |e.value.value|)
  {
    hide DecodeBytes, TextOf, LooksHex;
    if LooksHex(e.zone) { MisreadIsShorter(padded, e.zone); }
    if LooksHex(e.key) { MisreadIsShorter(padded, e.key); }
    if e.value.Some? && LooksHex(e.value.value) { MisreadIsShorter(padded, e.value.value); }
  }

  ghost function PairSize(p: Pair): nat { |p.key| + |p.value| }

  lemma Pair32IsEntryPair(d: Entry)
    requires LengthsFit(d) && d.id < TWO_TO_32
    ensures Pair32(d) == EntryPair(d)
  {
    hide DatabaseKey32, EncodeDatabaseKey, SpaceBytes32;
    KeysAgree(d);
  }

  /** With a `uint32` id the JavaScript pair is no longer than the Python one, and shorter when a field is
      misread. */
  lemma PairSizes(padded: bool, e: Entry)
    requires LengthsFit(e) && e.id < TWO_TO_32
    ensures PairSize(JsPair(padded, e)) <= PairSize(EntryPair(e))
    ensures ReadRight(e) ==> JsPair(padded, e) == EntryPair(e)
    ensures !ReadRight(e) ==> PairSize(JsPair(padded, e)) < PairSize(EntryPair(e))
  {
    hide SpaceBytes32, DatabaseKey32, EncodeDatabaseKey, LengthsFit, LooksHex, DecodeBytes, TextOf, Pair32;
    var d := Decoded(ToJson(padded, e));
    DecodedFacts(padded, e);
    Pair32IsEntryPair(d);
    ShorterFields(d, e);
    if !ReadRight(e) { MisreadShrinks(padded, e); }
  }

  /** The two scripts hash the same pair for an entry exactly when the id is a `uint32` and no field is misread. */
  lemma PairsAgree(padded: bool, e: Entry)
    requires LengthsFit(e)
    ensures JsPair(padded, e) == EntryPair(e) <==> ReadRight(e)
  {
    hide LengthsFit, Pair32, EntryPair, PairSize, Decoded, ToJson;
    DecodedFacts(padded, e);
    if e.id < TWO_TO_32 { PairSizes(padded, e); } else { LargeIdIsMissed(Decoded(ToJson(padded, e)), e); }
  }

  lemma LargeIdShows(padded: bool, es: seq<Entry>, j: nat)
    requires (forall e :: e in es ==> LengthsFit(e)) && j < |es| && es[j].id >= TWO_TO_32
    ensures multiset(JsPairs(padded, es)) != multiset(EntryPairs(es))
  {
    hide LengthsFit, Pair32, EntryPair, Decoded, ToJson, JsPairs;
    var (p, q) := (JsPairs(padded, es), EntryPairs(es));
    JsPairsAt(padded, es);
    if multiset(p) == multiset(q) {
      SameElements(p, q);
      assert q[j] in p;
      var i :| 0 <= i < |p| && p[i] == q[j];
      assert es[i] in es;
      DecodedFacts(padded, es[i]);
      LargeIdIsMissed(Decoded(ToJson(padded, es[i])), es[j]);
    }
  }

  lemma MisreadShows(padded: bool, es: seq<Entry>, j: nat)
    requires (forall e :: e in es ==> LengthsFit(e) && e.id < TWO_TO_32) && j < |es| && !ReadRight(es[j])
    ensures multiset(JsPairs(padded, es)) != multiset(EntryPairs(es))
  {
    hide LengthsFit, JsPair, EntryPair, JsPairs, PairSize, ReadRight;
    var (p, q) := (JsPairs(padded, es), EntryPairs(es));
    JsPairsAt(padded, es);
    forall i | 0 <= i < |es| ensures PairSize(p[i]) <= PairSize(q[i]) {
      assert es[i] in es;
      PairSizes(padded, es[i]);
    }
    PairSizes(padded, es[j]);
    assert PairSize(p[j]) < PairSize(q[j]);
    WeightLess(PairSize, p, q);
    if multiset(p) == multiset(q) { WeightForgetsOrder(PairSize, p, q); }
  }

  /** The two scripts give one root for a list of entries exactly when all object ids are `uint32` and no text
      of a field starts with `0x`, unless hashed strings collide. */
  lemma ImplementationsAgree(h: Hash, padded: bool, es: seq<Entry>)
    requires forall e :: e in es ==> LengthsFit(e)
    ensures (forall e :: e in es ==> ReadRight(e)) ==> Root(h, JsPairs(padded, es)) == EntriesRoot(h, es)
    ensures Root(h, JsPairs(padded, es)) == EntriesRoot(h, es) ==>
      (forall e :: e in es ==> ReadRight(e)) || Collide(h, Hashed(h, JsPairs(padded, es)), Hashed(h, EntryPairs(es)))
  {
    hide Root, Hashed, LengthsFit, JsPair, JsPairs, EntryPair, Sort, LooksHex;
    var (p, q) := (JsPairs(padded, es), EntryPairs(es));
    JsPairsAt(padded, es);
    if forall e :: e in es ==> ReadRight(e) {
      forall i | 0 <= i < |es| ensures p[i] == q[i] {
        assert es[i] in es;
        PairsAgree(padded, es[i]);
      }
      assert p == q;
    } else {
      var e :| e in es && !ReadRight(e);
      var j :| 0 <= j < |es| && es[j] == e;
      if i :| 0 <= i < |es| && es[i].id >= TWO_TO_32 {
        LargeIdShows(padded, es, i);
      } else {
        forall d | d in es ensures d.id < TWO_TO_32 { }
        MisreadShows(padded, es, j);
      }
      if Root(h, p) == Root(h, q) {
        RootBindsPairs(h, p, q);
        SortKeeps(p);
        SortKeeps(q);
      }
    }
  }

  lemma SortKeeps(a: seq<Pair>)
    ensures multiset(Sort(KeyLe, a)) == multiset(a)
  {
  }

  /** Such an input: a removed entry of the kernel space whose key is D3 1A B0. */
  lemma MisreadKeyShows(h: Hash, padded: bool)
    ensures var es := [Entry(true, [], 1, [0xd3, 0x1a, 0xb0], None)];
      Root(h, JsPairs(padded, es)) != EntriesRoot(h, es)
      || Collide(h, Hashed(h, JsPairs(padded, es)), Hashed(h, EntryPairs(es)))
  {
    hide Root, Hashed, JsPairs, EntryPair;
    var e := Entry(true, [], 1, [0xd3, 0x1a, 0xb0], None);
    assert LengthsFit(e) by { SmallSpace(e); }
    assert !ReadRight(e);
    assert e in [e];
    ImplementationsAgree(h, padded, [e]);
  }

  lemma SmallSpace(e: Entry)
    requires e.zone == [] && e.id == 1
    ensures |SpaceBytes32(e)| < TWO_TO_32
  {
  }
}
