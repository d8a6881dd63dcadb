/** Stable sorting by a comparison, as `Array.prototype.sort` and Python's `sorted` do it. */
module Sorting {
  import opened Basics

  ghost predicate TotalPreorder<T(!new)>(le: (T, T) -> bool)
  {
    && (forall a, b :: le(a, b) || le(b, a))
    && (forall a, b, c :: le(a, b) && le(b, c) ==> le(a, c))
  }

  /** No two different elements compare as equal. */
  ghost predicate NoTies<T(!new)>(le: (T, T) -> bool, s: seq<T>)
  {
    forall a, b :: a in s && b in s && le(a, b) && le(b, a) ==> a == b
  }

  ghost predicate SortedBy<T>(le: (T, T) -> bool, s: seq<T>)
  {
    forall i, j :: 0 <= i < j < |s| ==> le(s[i], s[j])
  }

  function Insert<T>(le: (T, T) -> bool, x: T, s: seq<T>): (r: seq<T>)
    ensures multiset(r) == multiset{x} + multiset(s)
  {
    if s == [] then [x]
    else if le(x, s[0]) then [x] + s
    else
      assert s == [s[0]] + s[1..];
      [s[0]] + Insert(le, x, s[1..])
  }

  function Sort<T>(le: (T, T) -> bool, s: seq<T>): (r: seq<T>)
    ensures multiset(r) == multiset(s)
    ensures |r| == |s|
  {
    if s == [] then [] else
      assert s == [s[0]] + s[1..];
      var r := Insert(le, s[0], Sort(le, s[1..]));
      assert |r| == |multiset(r)| == |multiset(s)| == |s|;
      r
  }

  lemma SameElements<T>(a: seq<T>, b: seq<T>)
    requires multiset(a) == multiset(b)
    ensures |a| == |b|
    ensures forall x :: x in a <==> x in b
  {
    assert |a| == |multiset(a)| == |multiset(b)| == |b|;
    forall x ensures x in a <==> x in b {
      assert x in a <==> x in multiset(a);
      assert x in b <==> x in multiset(b);
    }
  }

  lemma {:induction false} InsertKeepsSorted<T(!new)>(le: (T, T) -> bool, x: T, s: seq<T>)
    requires TotalPreorder(le) && SortedBy(le, s)
    ensures SortedBy(le, Insert(le, x, s))
  {
    if s == [] || le(x, s[0]) {
    } else {
      InsertKeepsSorted(le, x, s[1..]);
      var rest := Insert(le, x, s[1..]);
      forall k | 0 <= k < |rest| ensures le(s[0], rest[k]) {
        assert rest[k] in multiset(rest);
        assert rest[k] == x || rest[k] in s[1..];
      }
    }
  }

  lemma {:induction false} SortIsSorted<T(!new)>(le: (T, T) -> bool, s: seq<T>)
    requires TotalPreorder(le)
    ensures SortedBy(le, Sort(le, s))
  {
    if s != [] {
      SortIsSorted(le, s[1..]);
      InsertKeepsSorted(le, s[0], Sort(le, s[1..]));
    }
  }

  lemma TwiceCounts<T>(s: seq<T>, i: nat, j: nat)
    requires i < j < |s| && s[i] == s[j]
    ensures multiset(s)[s[i]] >= 2
  {
    assert s == s[..i] + [s[i]] + s[i + 1..j] + [s[j]] + s[j + 1..];
  }

  lemma RemoveHead<T>(s: seq<T>)
    requires s != []
    ensures multiset(s[1..]) == multiset(s) - multiset{s[0]}
  {
    assert s == [s[0]] + s[1..];
  }

  lemma NoTiesInTail<T(!new)>(le: (T, T) -> bool, s: seq<T>)
    requires NoTies(le, s) && s != []
    ensures NoTies(le, s[1..])
  {
    forall x, y | x in s[1..] && y in s[1..] && le(x, y) && le(y, x) ensures x == y {
      assert x in s && y in s;
    }
  }

  lemma SortedHeadsAgree<T(!new)>(le: (T, T) -> bool, a: seq<T>, b: seq<T>)
    requires TotalPreorder(le) && SortedBy(le, a) && SortedBy(le, b)
    requires multiset(a) == multiset(b) && NoTies(le, a) && a != []
    ensures b != [] && a[0] == b[0]
  {
    SameElements(a, b);
    assert a[0] in b && b[0] in a;
    assert le(b[0], a[0]) && le(a[0], b[0]);
  }

  lemma SortedTail<T>(le: (T, T) -> bool, s: seq<T>)
    requires SortedBy(le, s) && s != []
    ensures SortedBy(le, s[1..])
  {
  }

  lemma SameHeadAndTail<T>(a: seq<T>, b: seq<T>)
    requires a != [] && b != [] && a[0] == b[0] && a[1..] == b[1..]
    ensures a == b
  {
    assert a == [a[0]] + a[1..] && b == [b[0]] + b[1..];
  }

  /** A sorted arrangement of given elements is unique when no two of them tie. */
  lemma {:induction false} SortedIsUnique<T(!new)>(le: (T, T) -> bool, a: seq<T>, b: seq<T>)
    requires TotalPreorder(le) && SortedBy(le, a) && SortedBy(le, b)
    requires multiset(a) == multiset(b) && NoTies(le, a)
    ensures a == b
  {
    hide NoTies, TotalPreorder, SortedBy;
    if a == [] {
      SameElements(a, b);
    } else {
      SortedHeadsAgree(le, a, b);
      RemoveHead(a);
      RemoveHead(b);
      NoTiesInTail(le, a);
      SortedTail(le, a);
      SortedTail(le, b);
      SortedIsUnique(le, a[1..], b[1..]);
      SameHeadAndTail(a, b);
    }
  }

  // ----- sums over a sequence -----

  ghost function Weight<T>(w: T -> nat, s: seq<T>): nat
  {
    if s == [] then 0 else w(s[0]) + Weight(w, s[1..])
  }

  lemma {:induction false} WeightWithout<T>(w: T -> nat, s: seq<T>, j: nat)
    requires j < |s|
    ensures Weight(w, s) == w(s[j]) + Weight(w, Without(s, j))
  {
    if j == 0 {
      assert Without(s, 0) == s[1..];
    } else {
      WeightWithout(w, s[1..], j - 1);
      assert Without(s, j)[0] == s[0];
      assert Without(s, j)[1..] == Without(s[1..], j - 1);
    }
  }

  lemma {:induction false} WeightForgetsOrder<T>(w: T -> nat, a: seq<T>, b: seq<T>)
    requires multiset(a) == multiset(b)
    ensures Weight(w, a) == Weight(w, b)
  {
    SameElements(a, b);
    if a != [] {
      assert a[0] in b;
      var j :| 0 <= j < |b| && b[j] == a[0];
      RemoveHead(a);
      WithoutRemovesOne(b, j);
      WeightForgetsOrder(w, a[1..], Without(b, j));
      WeightWithout(w, b, j);
    }
  }

  /** Sums of smaller parts are smaller, and strictly so when one part is. */
  lemma {:induction false} WeightLess<T>(w: T -> nat, a: seq<T>, b: seq<T>)
    requires |a| == |b| && forall i :: 0 <= i < |a| ==> w(a[i]) <= w(b[i])
    ensures Weight(w, a) <= Weight(w, b)
    ensures (exists i :: 0 <= i < |a| && w(a[i]) < w(b[i])) ==> Weight(w, a) < Weight(w, b)
  {
    if a != [] {
      WeightLess(w, a[1..], b[1..]);
      if i :| 0 <= i < |a| && w(a[i]) < w(b[i]) {
        assert i > 0 ==> w(a[1..][i - 1]) < w(b[1..][i - 1]);
      }
    }
  }

  /** Sorting forgets the order of its input when nothing ties. */
  lemma SortForgetsOrder<T(!new)>(le: (T, T) -> bool, a: seq<T>, b: seq<T>)
    requires TotalPreorder(le) && multiset(a) == multiset(b) && NoTies(le, a)
    ensures Sort(le, a) == Sort(le, b)
  {
    SortIsSorted(le, a);
    SortIsSorted(le, b);
    SameElements(Sort(le, a), a);
    SortedIsUnique(le, Sort(le, a), Sort(le, b));
  }

  function Keep<T>(p: T -> bool, x: T): seq<T> { if p(x) then [x] else [] }

  function Filter<T>(p: T -> bool, s: seq<T>): seq<T>
  {
    if s == [] then [] else Keep(p, s[0]) + Filter(p, s[1..])
  }

  lemma {:induction false} FilterConcat<T>(p: T -> bool, a: seq<T>, b: seq<T>)
    ensures Filter(p, a + b) == Filter(p, a) + Filter(p, b)
  {
    hide Keep;
    if a == [] {
      assert a + b == b;
    } else {
      assert (a + b)[1..] == a[1..] + b;
      FilterConcat(p, a[1..], b);
      Assoc(Keep(p, a[0]), Filter(p, a[1..]), Filter(p, b));
    }
  }

  lemma FilterCons<T>(p: T -> bool, x: T, s: seq<T>)
    ensures Filter(p, [x] + s) == Keep(p, x) + Filter(p, s)
  {
    hide Keep;
    assert ([x] + s)[1..] == s;
  }

  ghost function TiesWith<T>(le: (T, T) -> bool, a: T): T -> bool
  {
    x => le(a, x) && le(x, a)
  }

  /** An element is inserted before those it must not pass. */
  lemma {:induction false} InsertIsStable<T>(le: (T, T) -> bool, x: T, s: seq<T>, p: T -> bool)
    requires p(x) ==> forall y :: y in s && !le(x, y) ==> !p(y)
    ensures Filter(p, Insert(le, x, s)) == Keep(p, x) + Filter(p, s)
  {
    hide Filter, Keep;
    if s == [] || le(x, s[0]) {
      assert Insert(le, x, s) == [x] + s;
      FilterCons(p, x, s);
    } else {
      var (y, t) := (s[0], s[1..]);
      InsertIsStable(le, x, t, p);
      FilterCons(p, y, Insert(le, x, t));
      assert s == [y] + t;
      FilterCons(p, y, t);
      KeepsPass(p, x, y, Filter(p, t));
    }
  }

  lemma KeepsPass<T>(p: T -> bool, x: T, y: T, s: seq<T>)
    requires p(x) ==> !p(y)
    ensures Keep(p, y) + (Keep(p, x) + s) == Keep(p, x) + (Keep(p, y) + s)
  {
  }

  /** Sorting keeps the order of elements that tie. */
  lemma {:induction false} SortIsStable<T(!new)>(le: (T, T) -> bool, s: seq<T>, a: T)
    requires TotalPreorder(le)
    ensures Filter(TiesWith(le, a), Sort(le, s)) == Filter(TiesWith(le, a), s)
  {
    if s != [] {
      var t := Sort(le, s[1..]);
      SortIsStable(le, s[1..], a);
      InsertIsStable(le, s[0], t, TiesWith(le, a));
      FilterCons(TiesWith(le, a), s[0], s[1..]);
      assert s == [s[0]] + s[1..];
    }
  }

  /** Lexicographic order: Python's `bytes` order, `Buffer.compare`, and JavaScript string order. */
  predicate LexLe(a: seq<int>, b: seq<int>)
  {
    a == [] || (b != [] && (a[0] < b[0] || (a[0] == b[0] && LexLe(a[1..], b[1..]))))
  }

  lemma {:induction false} LexTotal(a: seq<int>, b: seq<int>)
    ensures LexLe(a, b) || LexLe(b, a)
  {
    if a != [] && b != [] { LexTotal(a[1..], b[1..]); }
  }

  lemma {:induction false} LexTransitive(a: seq<int>, b: seq<int>, c: seq<int>)
    requires LexLe(a, b) && LexLe(b, c)
    ensures LexLe(a, c)
  {
    if a != [] && a[0] == b[0] == c[0] { LexTransitive(a[1..], b[1..], c[1..]); }
  }

  lemma {:induction false} LexAntisymmetric(a: seq<int>, b: seq<int>)
    requires LexLe(a, b) && LexLe(b, a)
    ensures a == b
  {
    if a != [] {
      LexAntisymmetric(a[1..], b[1..]);
      assert a == [a[0]] + a[1..] && b == [b[0]] + b[1..];
    }
  }

  /** x stands before y: it is smaller at the first place where they differ, or it ends there. */
  ghost predicate Precedes(x: seq<int>, y: seq<int>)
  {
    exists i: nat :: SmallerAt(x, y, i)
  }

  ghost predicate SmallerAt(x: seq<int>, y: seq<int>, i: nat)
  {
    i <= |x| && i < |y| && x[..i] == y[..i] && (i < |x| ==> x[i] < y[i])
  }

  lemma SmallerBehind(x: seq<int>, y: seq<int>, i: nat)
    requires x != [] && y != [] && x[0] == y[0] && SmallerAt(x[1..], y[1..], i)
    ensures SmallerAt(x, y, i + 1)
  {
    assert x[..i + 1] == [x[0]] + x[1..][..i] && y[..i + 1] == [y[0]] + y[1..][..i];
  }

  lemma SmallerAhead(x: seq<int>, y: seq<int>, i: nat)
    requires i > 0 && SmallerAt(x, y, i)
    ensures x[0] == y[0] && SmallerAt(x[1..], y[1..], i - 1)
  {
    assert x[0] == x[..i][0] && y[0] == y[..i][0];
    assert x[1..][..i - 1] == x[..i][1..] && y[1..][..i - 1] == y[..i][1..];
  }

  /** The recursive order is the one told by the first difference. */
  lemma {:induction false} LexLeIff(x: seq<int>, y: seq<int>)
    ensures LexLe(x, y) <==> x == y || Precedes(x, y)
  {
    hide SmallerAt;
    if x == [] {
      EmptyPrecedes(y);
    } else if y == [] {
      forall i: nat ensures !SmallerAt(x, [], i) { NothingBefore(x, i); }
    } else {
      LexLeIff(x[1..], y[1..]);
      SmallerCons(x, y);
      assert x == [x[0]] + x[1..] && y == [y[0]] + y[1..];
    }
  }

  lemma EmptyPrecedes(y: seq<int>)
    ensures y != [] ==> Precedes([], y)
  {
    if y != [] { assert SmallerAt([], y, 0); }
  }

  lemma NothingBefore(x: seq<int>, i: nat)
    ensures !SmallerAt(x, [], i)
  {
  }

  lemma SmallerCons(x: seq<int>, y: seq<int>)
    requires x != [] && y != []
    ensures Precedes(x, y) <==> x[0] < y[0] || (x[0] == y[0] && Precedes(x[1..], y[1..]))
  {
    if x[0] < y[0] { assert SmallerAt(x, y, 0); }
    hide SmallerAt;
    if x[0] == y[0] && Precedes(x[1..], y[1..]) {
      var i: nat :| SmallerAt(x[1..], y[1..], i);
      SmallerBehind(x, y, i);
    }
    if Precedes(x, y) {
      var i: nat :| SmallerAt(x, y, i);
      if i > 0 { SmallerAhead(x, y, i); } else { SmallerAtStart(x, y); }
    }
  }

  lemma SmallerAtStart(x: seq<int>, y: seq<int>)
    requires x != [] && SmallerAt(x, y, 0)
    ensures x[0] < y[0]
  {
  }
}
