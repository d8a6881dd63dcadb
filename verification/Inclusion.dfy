/** Waiting for transactions to appear in blocks: a polling loop over heads, and a scan over heights. */
module Inclusion {
  import opened Basics
  import opened Sorting

  type Id = string

  /** A chain: the transaction ids of the block at each height. */
  type Chain = int -> seq<Id>

  /** The least height from `start` below `next` whose block contains the transaction. */
  function FirstHeight(chain: Chain, id: Id, start: int, next: int): (r: Option<int>)
    ensures r.Some? ==> start <= r.value < next && id in chain(r.value)
    ensures r.Some? ==> forall h :: start <= h < r.value ==> id !in chain(h)
    ensures r.None? ==> forall h :: start <= h < next ==> id !in chain(h)
    decreases next - start
  {
    if next <= start then None else
      var r := FirstHeight(chain, id, start, next - 1);
      if r.Some? then r else if id in chain(next - 1) then Some(next - 1) else None
  }

  /** The ids in order of first appearance: what a `Set` built from them iterates over. */
  function Unique(ids: seq<Id>): (r: seq<Id>)
    ensures forall x :: x in r <==> x in ids
  {
    if ids == [] then [] else
      assert ids == ids[..|ids| - 1] + [ids[|ids| - 1]];
      var r := Unique(ids[..|ids| - 1]);
      if ids[|ids| - 1] in r then r else r + [ids[|ids| - 1]]
  }

  lemma {:induction false} UniqueHasNoDuplicates(ids: seq<Id>)
    ensures forall i, j :: 0 <= i < j < |Unique(ids)| ==> Unique(ids)[i] != Unique(ids)[j]
  {
    if ids != [] { UniqueHasNoDuplicates(ids[..|ids| - 1]); }
  }

  ghost function Waiting(chain: Chain, start: int, next: int): Id -> bool
  {
    id => FirstHeight(chain, id, start, next).None?
  }

  /** What is known after checking the heights below `next`. */
  ghost predicate Known(chain: Chain, ids: seq<Id>, start: int, next: int, included: map<Id, int>, pending: seq<Id>)
  {
    && pending == Filter(Waiting(chain, start, next), Unique(ids))
    && forall id :: if id in ids && FirstHeight(chain, id, start, next).Some?
                    then id in included && included[id] == FirstHeight(chain, id, start, next).value
                    else id !in included
  }

  lemma {:induction false} FilterMembers<T>(p: T -> bool, s: seq<T>)
    ensures forall x :: x in Filter(p, s) <==> x in s && p(x)
  {
    if s != [] { FilterMembers(p, s[1..]); }
  }

  lemma {:induction false} FilterAll<T>(p: T -> bool, s: seq<T>)
    requires forall x :: x in s ==> p(x)
    ensures Filter(p, s) == s
  {
    if s != [] { FilterAll(p, s[1..]); }
  }

  lemma {:induction false} FilterTwice<T>(p: T -> bool, q: T -> bool, r: T -> bool, s: seq<T>)
    requires forall x :: r(x) <==> p(x) && q(x)
    ensures Filter(q, Filter(p, s)) == Filter(r, s)
  {
    if s != [] {
      FilterTwice(p, q, r, s[1..]);
      FilterConcat(q, Keep(p, s[0]), Filter(p, s[1..]));
    }
  }

  /** The ids that the block at `height` contains are noted with that height; nothing else changes. */
  ghost predicate Marked(chain: Chain, height: int, looked: seq<Id>, before: map<Id, int>, after: map<Id, int>)
  {
    forall id :: if id in looked && id in chain(height) then id in after && after[id] == height
                 else (id in after <==> id in before) && (id in before ==> after[id] == before[id])
  }

  ghost function Absent(chain: Chain, height: int): Id -> bool { id => id !in chain(height) }

  lemma MarkOne(chain: Chain, height: int, looked: seq<Id>, id: Id, before: map<Id, int>, after: map<Id, int>)
    requires Marked(chain, height, looked, before, after)
    ensures Marked(chain, height, looked + [id], before, if id in chain(height) then after[id := height] else after)
  {
  }

  lemma KeepAbsent(chain: Chain, height: int, looked: seq<Id>, id: Id)
    ensures Filter(Absent(chain, height), looked + [id])
      == Filter(Absent(chain, height), looked) + (if id in chain(height) then [] else [id])
  {
    FilterConcat(Absent(chain, height), looked, [id]);
    FilterOne(Absent(chain, height), id);
  }

  /** The innermost loop: ids found in the block leave the waiting set. */
  method CheckBlock(chain: Chain, height: int, included0: map<Id, int>, pending0: seq<Id>)
    returns (included: map<Id, int>, pending: seq<Id>)
    ensures pending == Filter(Absent(chain, height), pending0)
    ensures Marked(chain, height, pending0, included0, included)
  {
    hide Marked, Filter, Absent;
    included, pending := included0, [];
    NothingMarked(chain, height, included0);
    for i := 0 to |pending0|
      invariant pending == Filter(Absent(chain, height), pending0[..i])
      invariant Marked(chain, height, pending0[..i], included0, included)
    {
      var id := pending0[i];
      assert pending0[..i + 1] == pending0[..i] + [id];
      MarkOne(chain, height, pending0[..i], id, included0, included);
      KeepAbsent(chain, height, pending0[..i], id);
      if id in chain(height) {
        included := included[id := height];
      } else {
        pending := pending + [id];
      }
    }
    assert pending0[..|pending0|] == pending0;
  }

  lemma NothingMarked(chain: Chain, height: int, included: map<Id, int>)
    ensures Marked(chain, height, [], included, included) && Filter(Absent(chain, height), []) == []
  {
  }

  lemma FilterOne<T>(p: T -> bool, x: T)
    ensures Filter(p, [x]) == Keep(p, x)
  {
    assert Filter(p, [x][1..]) == [];
  }

  lemma NextFirst(chain: Chain, id: Id, start: int, next: int)
    requires start <= next
    ensures FirstHeight(chain, id, start, next + 1) ==
      if FirstHeight(chain, id, start, next).Some? then FirstHeight(chain, id, start, next)
      else if id in chain(next) then Some(next) else None
  {
  }

  lemma NextKnown(chain: Chain, ids: seq<Id>, start: int, next: int,
      included0: map<Id, int>, pending0: seq<Id>, included: map<Id, int>, pending: seq<Id>)
    requires start <= next && Known(chain, ids, start, next, included0, pending0)
    requires pending == Filter(Absent(chain, next), pending0) && Marked(chain, next, pending0, included0, included)
    ensures Known(chain, ids, start, next + 1, included, pending)
  {
    hide FirstHeight, Filter;
    forall id { NextFirst(chain, id, start, next); }
    FilterTwice(Waiting(chain, start, next), Absent(chain, next), Waiting(chain, start, next + 1), Unique(ids));
    FilterMembers(Waiting(chain, start, next), Unique(ids));
  }

  /** The highest head that was read, or the height before the start. */
  function Top(heads: seq<int>, start: int): (r: int)
    ensures r >= start - 1
  {
    if heads == [] then start - 1 else
      var t := Top(heads[..|heads| - 1], start);
      if heads[|heads| - 1] > t then heads[|heads| - 1] else t
  }

  /** The heights checked so far are consecutive from the start. */
  ghost predicate Consecutive(checked: seq<int>, start: int, next: int)
  {
    |checked| == next - start && forall i :: 0 <= i < |checked| ==> checked[i] == start + i
  }

  /** Some transaction is not in any block below h. */
  ghost predicate Needed(chain: Chain, ids: seq<Id>, start: int, h: int)
  {
    exists id :: id in ids && FirstHeight(chain, id, start, h).None?
  }

  lemma PendingNeeds(chain: Chain, ids: seq<Id>, start: int, next: int, included: map<Id, int>, pending: seq<Id>)
    requires Known(chain, ids, start, next, included, pending)
    ensures pending != [] <==> Needed(chain, ids, start, next)
    ensures forall id :: id in pending <==> id in ids && FirstHeight(chain, id, start, next).None?
  {
    hide FirstHeight, Filter;
    FilterMembers(Waiting(chain, start, next), Unique(ids));
    if pending != [] { assert pending[0] in pending; }
  }

  /** The inner loop: scan up to the head, or until nothing is waited for. */
  method ScanTo(chain: Chain, ids: seq<Id>, start: int, head: int, next0: int, included0: map<Id, int>,
      pending0: seq<Id>, checked0: seq<int>)
    returns (next: int, included: map<Id, int>, pending: seq<Id>, checked: seq<int>)
    requires start <= next0 && Known(chain, ids, start, next0, included0, pending0)
    requires Consecutive(checked0, start, next0)
    ensures next0 <= next && Known(chain, ids, start, next, included, pending) && Consecutive(checked, start, next)
    ensures next == next0 || next <= head + 1
    ensures pending != [] ==> next > head
    ensures next > next0 ==> Needed(chain, ids, start, next - 1)
  {
    hide Known, Needed, Marked, Absent, Filter;
    next, included, pending, checked := next0, included0, pending0, checked0;
    while next <= head && pending != []
      invariant next0 <= next && Known(chain, ids, start, next, included, pending) && Consecutive(checked, start, next)
      invariant next == next0 || next <= head + 1
      invariant next > next0 ==> Needed(chain, ids, start, next - 1)
      decreases head - next
    {
      PendingNeeds(chain, ids, start, next, included, pending);
      checked := checked + [next];
      ghost var (before, waited) := (included, pending);
      included, pending := CheckBlock(chain, next, included, pending);
      NextKnown(chain, ids, start, next, before, waited, included, pending);
      next := next + 1;
    }
  }

  /** What the scan reports, said without it: an id is included exactly when a block between the start and
      the highest head read contains it, and then with the least such height; the others are missing, in
      their order. The heights checked run from the start without gap or repeat, no further than the
      highest head, up to it when something is missing, and never beyond the last block needed. */
  ghost predicate Reports(chain: Chain, ids: seq<Id>, start: int, top: int,
    included: map<Id, int>, missing: seq<Id>, checked: seq<int>)
  {
    && (forall id :: id in included <==> id in ids && FirstHeight(chain, id, start, top + 1).Some?)
    && (forall id :: id in included ==> included[id] == FirstHeight(chain, id, start, top + 1).value)
    && missing == Filter(Waiting(chain, start, top + 1), Unique(ids))
    && Consecutive(checked, start, start + |checked|) && |checked| <= top + 1 - start
    && (missing != [] ==> |checked| == top + 1 - start)
    && (forall id :: id in included ==> included[id] < start + |checked|)
    && (checked != [] ==> Needed(chain, ids, start, checked[|checked| - 1]))
  }

  lemma {:induction false} FirstLater(chain: Chain, id: Id, start: int, next: int, later: int)
    requires next <= later
    ensures FirstHeight(chain, id, start, next).Some? ==>
      FirstHeight(chain, id, start, later) == FirstHeight(chain, id, start, next)
    decreases later - next
  {
    if next < later { FirstLater(chain, id, start, next, later - 1); }
  }

  lemma KnownIsReport(chain: Chain, ids: seq<Id>, start: int, next: int, top: int,
      included: map<Id, int>, pending: seq<Id>, checked: seq<int>)
    requires start <= next <= top + 1 && Known(chain, ids, start, next, included, pending)
    requires Consecutive(checked, start, next)
    requires pending != [] ==> next == top + 1
    requires checked != [] ==> Needed(chain, ids, start, next - 1)
    ensures Reports(chain, ids, start, top, included, pending, checked)
  {
    hide FirstHeight, Filter;
    PendingNeeds(chain, ids, start, next, included, pending);
    forall id { FirstLater(chain, id, start, next, top + 1); }
    if pending == [] {
      FilterNone(Waiting(chain, start, top + 1), Unique(ids));
    }
  }

  lemma {:induction false} FilterNone<T>(p: T -> bool, s: seq<T>)
    requires forall x :: x in s ==> !p(x)
    ensures Filter(p, s) == []
  {
    if s != [] { FilterNone(p, s[1..]); }
  }

  /** `waitForPublicInclusion`. The heads are what the polls read before time ran out; the report depends
      on them only through the highest. */
  method WaitForPublicInclusion(chain: Chain, heads: seq<int>, ids: seq<Id>, start: int)
    returns (included: map<Id, int>, missing: seq<Id>, checked: seq<int>)
    ensures Reports(chain, ids, start, Top(heads, start), included, missing, checked)
  {
    hide Known, Needed, Reports, Filter;
    included, missing, checked := map[], Unique(ids), [];
    var next := start;
    StartKnown(chain, ids, start);
    var poll: nat := 0;
    while poll < |heads| && missing != []
      invariant poll <= |heads| && start <= next <= Top(heads[..poll], start) + 1
      invariant Known(chain, ids, start, next, included, missing) && Consecutive(checked, start, next)
      invariant missing != [] ==> next == Top(heads[..poll], start) + 1
      invariant checked != [] ==> Needed(chain, ids, start, next - 1)
    {
      assert heads[..poll + 1][..poll] == heads[..poll];
      next, included, missing, checked := ScanTo(chain, ids, start, heads[poll], next, included, missing, checked);
      poll := poll + 1;
    }
    TopGrows(heads, start, poll);
    assert poll == |heads| ==> heads[..poll] == heads;
    KnownIsReport(chain, ids, start, next, Top(heads, start), included, missing, checked);
  }

  lemma StartKnown(chain: Chain, ids: seq<Id>, start: int)
    ensures Known(chain, ids, start, start, map[], Unique(ids))
  {
    FilterAll(Waiting(chain, start, start), Unique(ids));
  }

  lemma {:induction false} TopGrows(heads: seq<int>, start: int, n: nat)
    requires n <= |heads|
    ensures Top(heads[..n], start) <= Top(heads, start)
  {
    if n < |heads| {
      TopGrows(heads[..|heads| - 1], start, n);
      assert heads[..|heads| - 1][..n] == heads[..n];
    } else {
      assert heads[..n] == heads;
    }
  }

  lemma {:induction false} FilterNoDuplicates(p: Id -> bool, s: seq<Id>)
    requires forall i, j :: 0 <= i < j < |s| ==> s[i] != s[j]
    ensures forall i, j :: 0 <= i < j < |Filter(p, s)| ==> Filter(p, s)[i] != Filter(p, s)[j]
  {
    if s != [] {
      FilterNoDuplicates(p, s[1..]);
      FilterMembers(p, s[1..]);
      assert s[0] !in s[1..];
      var r := Filter(p, s[1..]);
      assert forall j :: 0 <= j < |r| ==> r[j] in r;
    }
  }

  /** So included and missing divide the ids, each included height is the least one that contains the id,
      and no checked block contains a missing id. */
  lemma ReportMeans(chain: Chain, ids: seq<Id>, start: int, top: int, included: map<Id, int>, missing: seq<Id>,
      checked: seq<int>)
    requires Reports(chain, ids, start, top, included, missing, checked)
    ensures forall id :: id in ids <==> id in included || id in missing
    ensures forall id :: !(id in included && id in missing)
    ensures forall id :: id in included ==>
      start <= included[id] <= top && id in chain(included[id])
    ensures forall id, h :: id in included && start <= h < included[id] ==> id !in chain(h)
    ensures forall id, h :: id in missing && h in checked ==> id !in chain(h)
    ensures forall id :: id in included ==> included[id] in checked
    ensures forall i, j :: 0 <= i < j < |missing| ==> missing[i] != missing[j]
  {
    hide Filter;
    FilterMembers(Waiting(chain, start, top + 1), Unique(ids));
    UniqueHasNoDuplicates(ids);
    FilterNoDuplicates(Waiting(chain, start, top + 1), Unique(ids));
    hide FirstHeight;
    forall id | id in included ensures included[id] in checked {
      assert checked[included[id] - start] == included[id];
    }
  }
}
