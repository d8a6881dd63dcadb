/**
 The start order of the managed services: a depth-first topological sort that tolerates cycles.
 `localeCompare` is a parameter `loc`, of which only the ordering laws are used.
 */
module Services {
  import opened Sorting

  type Id = string

  const MANAGED: seq<Id> := ["amqp", "chain", "mempool", "block_store", "p2p", "block_producer", "jsonrpc", "grpc",
                             "transaction_store", "contract_meta_store", "account_history", "rest"]

  /** The place of a service in `KOINOS_MANAGED_SERVICES`; services outside it come last. */
  function RankFrom(id: Id, i: nat): nat
    requires i <= |MANAGED|
    decreases |MANAGED| - i
  {
    if i == |MANAGED| || MANAGED[i] == id then i else RankFrom(id, i + 1)
  }

  function Rank(id: Id): nat { RankFrom(id, 0) }

  /** The comparison of `sortManagedServiceIds`. */
  function RankLe(loc: (Id, Id) -> bool): (Id, Id) -> bool
  {
    (a, b) => Rank(a) < Rank(b) || (Rank(a) == Rank(b) && loc(a, b))
  }

  /** `new Set(ids)` in iteration order. */
  function Distinct(ids: seq<Id>): (r: seq<Id>)
    ensures forall x :: x in r <==> x in ids
    ensures forall x :: multiset(r)[x] <= 1
  {
    if ids == [] then []
    else
      var front := Distinct(ids[..|ids| - 1]);
      var last := ids[|ids| - 1];
      assert ids == ids[..|ids| - 1] + [last];
      if last in front then front
      else
        assert multiset(front + [last]) == multiset(front) + multiset{last};
        assert last !in multiset(front);
        front + [last]
  }

  function SortManaged(loc: (Id, Id) -> bool, ids: seq<Id>): seq<Id>
  {
    Sort(RankLe(loc), ids)
  }

  /** The included services and the `dependsOn` lists of the definitions. */
  datatype Graph = Graph(included: set<Id>, dependsOn: map<Id, seq<Id>>)

  function GraphOf(ids: seq<Id>, dependsOn: map<Id, seq<Id>>): (g: Graph)
    ensures g.dependsOn == dependsOn && forall x :: x in g.included <==> x in ids
  {
    Graph((set x | x in ids), dependsOn)
  }

  function Deps(g: Graph, s: Id): seq<Id>
  {
    if s in g.dependsOn then g.dependsOn[s] else []
  }

  datatype State = State(resolved: set<Id>, active: set<Id>, ordered: seq<Id>)

  /** The services a visit may still enter. */
  function Left(g: Graph, st: State): set<Id>
  {
    g.included - st.active - st.resolved
  }

  /** `visit`, as a function on the three collections the closure changes. */
  function Visit(g: Graph, s: Id, st: State): (r: State)
    ensures r.active == st.active && st.resolved <= r.resolved
    decreases Left(g, st), 0
  {
    if s !in g.included || s in st.resolved || s in st.active then st
    else
      var deeper := st.(active := st.active + {s});
      assert s in Left(g, st) && s !in Left(g, deeper);
      var inner := VisitAll(g, Deps(g, s), deeper);
      State(inner.resolved + {s}, inner.active - {s}, inner.ordered + [s])
  }

  function VisitAll(g: Graph, ids: seq<Id>, st: State): (r: State)
    ensures r.active == st.active && st.resolved <= r.resolved
    decreases Left(g, st), |ids| + 1
  {
    if ids == [] then st
    else
      var next := Visit(g, ids[0], st);
      assert Left(g, next) <= Left(g, st);
      VisitAll(g, ids[1..], next)
  }

  const START := State({}, {}, [])

  function StartOrder(loc: (Id, Id) -> bool, ids: seq<Id>, dependsOn: map<Id, seq<Id>>): seq<Id>
  {
    VisitAll(GraphOf(ids, dependsOn), SortManaged(loc, Distinct(ids)), START).ordered
  }

  /** The locals of `sortManagedServiceIdsByDependencies` that its closure shares. */
  class Sorter {
    const g: Graph
    var resolved: set<Id>
    var active: set<Id>
    var ordered: seq<Id>

    function Now(): State
      reads this
    {
      State(resolved, active, ordered)
    }

    constructor (g: Graph)
      ensures this.g == g && Now() == START
    {
      this.g := g;
      resolved, active, ordered := {}, {}, [];
    }

    method VisitOne(s: Id)
      modifies this
      ensures Now() == Visit(g, s, old(Now()))
      decreases Left(g, Now())
    {
      if s !in g.included || s in resolved { return; }
      if s in active { return; }
      active := active + {s};
      ghost var inner := Now();
      var dependencies := Deps(g, s);
      for i := 0 to |dependencies|
        invariant active == inner.active && inner.resolved <= resolved
        invariant VisitAll(g, dependencies, inner) == VisitAll(g, dependencies[i..], Now())
      {
        assert dependencies[i..][1..] == dependencies[i + 1..];
        assert s in old(Left(g, Now())) && s !in Left(g, Now());
        VisitOne(dependencies[i]);
      }
      active := active - {s};
      resolved := resolved + {s};
      ordered := ordered + [s];
    }
  }

  /** `sortManagedServiceIdsByDependencies`. */
  method SortByDependencies(loc: (Id, Id) -> bool, ids: seq<Id>, dependsOn: map<Id, seq<Id>>)
    returns (ordered: seq<Id>)
    ensures ordered == StartOrder(loc, ids, dependsOn)
  {
    var g := GraphOf(ids, dependsOn);
    var sorter := new Sorter(g);
    var roots := SortManaged(loc, Distinct(ids));
    for i := 0 to |roots|
      invariant VisitAll(g, roots, START) == VisitAll(g, roots[i..], sorter.Now())
      invariant sorter.g == g
    {
      assert roots[i..][1..] == roots[i + 1..];
      sorter.VisitOne(roots[i]);
    }
    return sorter.ordered;
  }

  // ----- reachability -----

  predicate Edge(g: Graph, s: Id, d: Id)
  {
    s in g.included && d in g.included && s in g.dependsOn && d in g.dependsOn[s]
  }

  /** A path along dependencies between included services; one service alone is a path. */
  predicate IsPath(g: Graph, path: seq<Id>)
  {
    && path != []
    && (forall x :: x in path ==> x in g.included)
    && (forall i :: 0 <= i < |path| - 1 ==> Edge(g, path[i], path[i + 1]))
  }

  ghost predicate Reaches(g: Graph, a: Id, b: Id)
  {
    exists path :: IsPath(g, path) && path[0] == a && path[|path| - 1] == b
  }

  lemma ReachesSelf(g: Graph, a: Id)
    requires a in g.included
    ensures Reaches(g, a, a)
  {
    assert IsPath(g, [a]);
  }

  lemma ReachesFurther(g: Graph, a: Id, s: Id, d: Id)
    requires Reaches(g, a, s) && Edge(g, s, d)
    ensures Reaches(g, a, d)
  {
    var path :| IsPath(g, path) && path[0] == a && path[|path| - 1] == s;
    var longer := path + [d];
    forall i | 0 <= i < |longer| - 1 ensures Edge(g, longer[i], longer[i + 1]) {
      if i < |path| - 1 { assert longer[i] == path[i] && longer[i + 1] == path[i + 1]; }
    }
    assert IsPath(g, longer) && longer[0] == a && longer[|longer| - 1] == d;
  }

  // ----- what every step keeps -----

  /** Every dependency of the service at place i stands before it, or lies on a cycle with it. */
  ghost predicate InOrder(g: Graph, ordered: seq<Id>)
  {
    forall i, d :: 0 <= i < |ordered| && Edge(g, ordered[i], d) ==> d in ordered[..i] || Reaches(g, d, ordered[i])
  }

  ghost predicate NoRepeats(s: seq<Id>)
  {
    forall i, j :: 0 <= i < j < |s| ==> s[i] != s[j]
  }

  ghost predicate Inv(g: Graph, st: State)
  {
    && st.resolved <= g.included && st.active <= g.included && st.resolved !! st.active
    && (forall x :: x in st.ordered <==> x in st.resolved)
    && NoRepeats(st.ordered)
    && InOrder(g, st.ordered)
  }

  /** The services being visited all lead to s. */
  ghost predicate LeadTo(g: Graph, active: set<Id>, s: Id)
  {
    forall a :: a in active ==> Reaches(g, a, s)
  }

  lemma Append(g: Graph, st: State, s: Id)
    requires Inv(g, st) && s in g.included && s !in st.resolved && s in st.active
    requires forall d :: Edge(g, s, d) ==> d in st.resolved || Reaches(g, d, s)
    ensures Inv(g, State(st.resolved + {s}, st.active - {s}, st.ordered + [s]))
  {
    hide Edge, Reaches;
    var longer := st.ordered + [s];
    forall i, d | 0 <= i < |longer| && Edge(g, longer[i], d)
      ensures d in longer[..i] || Reaches(g, d, longer[i])
    {
      if i < |st.ordered| { assert longer[i] == st.ordered[i] && longer[..i] == st.ordered[..i]; }
      else { assert longer[..i] == st.ordered; }
    }
    forall i, j | 0 <= i < j < |longer| ensures longer[i] != longer[j] {
      if j == |st.ordered| { assert longer[i] in st.ordered; }
    }
  }

  lemma {:induction false} VisitKeeps(g: Graph, s: Id, st: State)
    requires Inv(g, st) && (s in g.included ==> LeadTo(g, st.active, s))
    ensures Inv(g, Visit(g, s, st))
    ensures s in g.included ==> s in Visit(g, s, st).resolved || s in st.active
    decreases Left(g, st), 0
  {
    hide InOrder, NoRepeats, Reaches, IsPath, Edge;
    if s in g.included && s !in st.resolved && s !in st.active {
      var deeper := st.(active := st.active + {s});
      ReachesSelf(g, s);
      assert s in Left(g, st) && s !in Left(g, deeper);
      var inner := VisitAll(g, Deps(g, s), deeper);
      VisitAllKeeps(g, Deps(g, s), deeper, s);
      assert s !in inner.resolved;
      forall d | Edge(g, s, d) ensures d in inner.resolved || Reaches(g, d, s) {
        EdgeMeans(g, s, d);
      }
      Append(g, inner, s);
    }
  }

  lemma EdgeMeans(g: Graph, s: Id, d: Id)
    ensures Edge(g, s, d) <==> s in g.included && d in g.included && d in Deps(g, s)
  {
  }

  /** Visiting the dependencies of s: afterwards each is resolved or is being visited. */
  lemma {:induction false} VisitAllKeeps(g: Graph, ids: seq<Id>, st: State, s: Id)
    requires Inv(g, st) && s in g.included && LeadTo(g, st.active, s)
    requires forall d :: d in ids ==> d in Deps(g, s)
    ensures Inv(g, VisitAll(g, ids, st))
    ensures forall d :: d in ids && d in g.included ==> d in VisitAll(g, ids, st).resolved || d in st.active
    decreases Left(g, st), |ids| + 1
  {
    hide InOrder, NoRepeats, Reaches, IsPath, Inv;
    if ids != [] {
      var d := ids[0];
      assert d in ids;
      if d in g.included {
        forall a | a in st.active ensures Reaches(g, a, d) { ReachesFurther(g, a, s, d); }
      }
      VisitKeeps(g, d, st);
      var next := Visit(g, d, st);
      assert Left(g, next) <= Left(g, st);
      VisitAllKeeps(g, ids[1..], next, s);
      forall x | x in ids && x in g.included ensures x in VisitAll(g, ids, st).resolved || x in st.active {
        assert x == d || x in ids[1..];
      }
    }
  }

  lemma {:induction false} RootsKeep(g: Graph, ids: seq<Id>, st: State)
    requires Inv(g, st) && st.active == {}
    ensures Inv(g, VisitAll(g, ids, st))
    ensures forall d :: d in ids && d in g.included ==> d in VisitAll(g, ids, st).resolved
    decreases |ids|
  {
    hide InOrder, NoRepeats, Inv;
    if ids != [] {
      VisitKeeps(g, ids[0], st);
      RootsKeep(g, ids[1..], Visit(g, ids[0], st));
      forall x | x in ids && x in g.included ensures x in VisitAll(g, ids, st).resolved {
        assert x == ids[0] || x in ids[1..];
      }
    }
  }

  /** On any graph, cycles included: every included service once and nothing else, and every included
      dependency before its dependent unless the dependency itself reaches the dependent. */
  lemma StartOrderIsTopological(loc: (Id, Id) -> bool, ids: seq<Id>, dependsOn: map<Id, seq<Id>>)
    ensures var (g, r) := (GraphOf(ids, dependsOn), StartOrder(loc, ids, dependsOn));
      && (forall x :: x in r <==> x in ids)
      && NoRepeats(r)
      && InOrder(g, r)
  {
    hide InOrder, NoRepeats, VisitAll;
    var g := GraphOf(ids, dependsOn);
    var roots := SortManaged(loc, Distinct(ids));
    StartIsFine(g);
    RootsKeep(g, roots, START);
    SameElements(roots, Distinct(ids));
  }

  lemma StartIsFine(g: Graph)
    ensures Inv(g, START)
  {
  }

  ghost predicate Acyclic(g: Graph)
  {
    forall s, d :: Edge(g, s, d) ==> !Reaches(g, d, s)
  }

  /** Without cycles this is a true topological order. */
  lemma AcyclicStartOrder(loc: (Id, Id) -> bool, ids: seq<Id>, dependsOn: map<Id, seq<Id>>)
    requires Acyclic(GraphOf(ids, dependsOn))
    ensures var (g, r) := (GraphOf(ids, dependsOn), StartOrder(loc, ids, dependsOn));
      forall i, d :: 0 <= i < |r| && Edge(g, r[i], d) ==> d in r[..i]
  {
    hide Edge, Reaches, StartOrder;
    StartOrderIsTopological(loc, ids, dependsOn);
  }

  // ----- dependence on the order of the input -----

  ghost predicate SameServices(p: seq<Id>, q: seq<Id>)
  {
    forall x :: x in p <==> x in q
  }

  lemma RankLeIsTotalPreorder(loc: (Id, Id) -> bool)
    requires TotalPreorder(loc)
    ensures TotalPreorder(RankLe(loc))
  {
  }

  lemma DistinctAgree(p: seq<Id>, q: seq<Id>)
    requires SameServices(p, q)
    ensures multiset(Distinct(p)) == multiset(Distinct(q))
  {
    hide Distinct;
    var (a, b) := (Distinct(p), Distinct(q));
    forall x ensures multiset(a)[x] == multiset(b)[x] {
      assert x in a <==> x in multiset(a);
      assert x in b <==> x in multiset(b);
    }
  }

  /** The start order does not depend on how the ids were iterated, if no two of them tie. */
  lemma StartOrderForgetsInputOrder(loc: (Id, Id) -> bool, p: seq<Id>, q: seq<Id>, dependsOn: map<Id, seq<Id>>)
    requires TotalPreorder(loc) && SameServices(p, q) && NoTies(RankLe(loc), p)
    ensures StartOrder(loc, p, dependsOn) == StartOrder(loc, q, dependsOn)
  {
    hide VisitAll, Rank, Distinct;
    assert GraphOf(p, dependsOn) == GraphOf(q, dependsOn);
    RankLeIsTotalPreorder(loc);
    DistinctAgree(p, q);
    assert NoTies(RankLe(loc), Distinct(p));
    SortForgetsOrder(RankLe(loc), Distinct(p), Distinct(q));
  }

  lemma {:induction false} NoDependencies(g: Graph, ids: seq<Id>, st: State)
    requires (forall s, d :: !Edge(g, s, d)) && st.active == {} && NoRepeats(ids)
    requires forall x :: x in ids ==> x in g.included && x !in st.resolved
    ensures VisitAll(g, ids, st).ordered == st.ordered + ids
    decreases |ids|
  {
    if ids != [] {
      var s := ids[0];
      assert s in ids;
      var next := Visit(g, s, st);
      var deeper := st.(active := st.active + {s});
      forall d | d in Deps(g, s) ensures d !in g.included { assert !Edge(g, s, d); }
      OutsideAreSkipped(g, Deps(g, s), deeper);
      assert deeper.active - {s} == {};
      assert next == State(st.resolved + {s}, {}, st.ordered + [s]);
      forall x | x in ids[1..] ensures x in g.included && x !in next.resolved {
        var i :| 0 <= i < |ids[1..]| && ids[1..][i] == x;
        assert x == ids[i + 1];
      }
      NoDependencies(g, ids[1..], next);
      assert st.ordered + ids == st.ordered + [s] + ids[1..];
    }
  }

  lemma StartOrderWithoutDependencies(loc: (Id, Id) -> bool, ids: seq<Id>, dependsOn: map<Id, seq<Id>>)
    requires forall s, d :: !Edge(GraphOf(ids, dependsOn), s, d)
    ensures StartOrder(loc, ids, dependsOn) == SortManaged(loc, Distinct(ids))
  {
    hide Sort, Distinct, VisitAll, Edge;
    var roots := SortManaged(loc, Distinct(ids));
    SameElements(roots, Distinct(ids));
    forall i, j | 0 <= i < j < |roots| ensures roots[i] != roots[j] {
      if roots[i] == roots[j] { TwiceCounts(roots, i, j); }
    }
    NoDependencies(GraphOf(ids, dependsOn), roots, START);
    assert [] + roots == roots;
  }

  lemma {:induction false} DistinctPrefix(a: seq<Id>, b: seq<Id>)
    ensures Distinct(a) <= Distinct(a + b)
  {
    if b == [] {
      assert a + b == a;
    } else {
      DistinctPrefix(a, b[..|b| - 1]);
      assert (a + b)[..|a + b| - 1] == a + b[..|b| - 1];
    }
  }

  /** Iterating a tied pair first shows which of the two came first. */
  lemma TieIsVisible(loc: (Id, Id) -> bool, a: Id, b: Id, rest: seq<Id>)
    requires TotalPreorder(loc) && a != b && RankLe(loc)(a, b) && RankLe(loc)(b, a)
    ensures var r := Filter(TiesWith(RankLe(loc), a), StartOrder(loc, [a, b] + rest, map[]));
      r != [] && r[0] == a
    ensures var r := Filter(TiesWith(RankLe(loc), a), StartOrder(loc, [b, a] + rest, map[]));
      r != [] && r[0] == b
  {
    RankLeIsTotalPreorder(loc);
    FirstOfTies(loc, a, b, a, rest);
    FirstOfTies(loc, b, a, a, rest);
  }

  lemma FirstOfTies(loc: (Id, Id) -> bool, x: Id, y: Id, a: Id, rest: seq<Id>)
    requires TotalPreorder(RankLe(loc)) && TiesWith(RankLe(loc), a)(x) && x != y
    ensures var r := Filter(TiesWith(RankLe(loc), a), StartOrder(loc, [x, y] + rest, map[]));
      r != [] && r[0] == x
  {
    hide RankLe, StartOrder, TotalPreorder, Sort, TiesWith, Distinct, Filter;
    var f := TiesWith(RankLe(loc), a);
    var ids := [x, y] + rest;
    StartOrderWithoutDependencies(loc, ids, map[]);
    SortIsStable(RankLe(loc), Distinct(ids), a);
    FirstStays(x, [y] + rest);
    assert [x] + ([y] + rest) == ids;
    var d := Distinct(ids);
    assert d == [x] + d[1..];
    FilterCons(f, x, d[1..]);
  }

  lemma FirstStays(x: Id, rest: seq<Id>)
    ensures Distinct([x] + rest) != [] && Distinct([x] + rest)[0] == x
  {
    DistinctPrefix([x], rest);
    assert Distinct([x]) == [x] by { assert [x][..0] == []; }
  }

  /** The start order is the same for every iteration order of the ids, whatever the dependencies,
      exactly when no two different ids tie in the comparison. */
  lemma InputOrderIrrelevantIffNoTies(loc: (Id, Id) -> bool, ids: seq<Id>)
    requires TotalPreorder(loc)
    ensures (forall p, q, dependsOn :: SameServices(p, ids) && SameServices(q, ids)
               ==> StartOrder(loc, p, dependsOn) == StartOrder(loc, q, dependsOn))
       <==> NoTies(RankLe(loc), ids)
  {
    hide StartOrder, RankLe;
    var le := RankLe(loc);
    if NoTies(le, ids) {
      forall p, q, dependsOn | SameServices(p, ids) && SameServices(q, ids)
        ensures StartOrder(loc, p, dependsOn) == StartOrder(loc, q, dependsOn)
      {
        StartOrderForgetsInputOrder(loc, p, q, dependsOn);
      }
    } else {
      var a, b :| a in ids && b in ids && le(a, b) && le(b, a) && a != b;
      TieIsVisible(loc, a, b, ids);
      var (p, q) := ([a, b] + ids, [b, a] + ids);
      assert SameServices(p, ids) && SameServices(q, ids);
      assert StartOrder(loc, p, map[]) != StartOrder(loc, q, map[]);
    }
  }

  // ----- which order comes out -----

  /** x stands before y among the managed services, or is the only one of the two that is managed. */
  ghost predicate Ahead(x: Id, y: Id)
  {
    || (exists i, j :: 0 <= i < j < |MANAGED| && MANAGED[i] == x && MANAGED[j] == y)
    || (x in MANAGED && y !in MANAGED)
  }

  ghost predicate NoLater(loc: (Id, Id) -> bool, x: Id, y: Id)
  {
    x == y || Ahead(x, y) || (x !in MANAGED && y !in MANAGED && loc(x, y))
  }

  lemma ManagedAreDistinct()
    ensures forall i, j :: 0 <= i < j < |MANAGED| ==> MANAGED[i] != MANAGED[j]
  {
    assert |MANAGED[0]| == 4 && |MANAGED[1]| == 5 && |MANAGED[2]| == 7 && |MANAGED[3]| == 11 && |MANAGED[4]| == 3;
    assert |MANAGED[5]| == 14 && |MANAGED[6]| == 7 && |MANAGED[7]| == 4 && |MANAGED[8]| == 17;
    assert |MANAGED[9]| == 19 && |MANAGED[10]| == 15 && |MANAGED[11]| == 4;
    assert MANAGED[0][0] == 'a' && MANAGED[7][0] == 'g' && MANAGED[11][0] == 'r';
    assert MANAGED[2][0] == 'm' && MANAGED[6][0] == 'j';
  }

  lemma {:induction false} RankIsFirst(id: Id, i: nat)
    requires i <= |MANAGED|
    ensures i <= RankFrom(id, i) <= |MANAGED|
    ensures forall k :: i <= k < RankFrom(id, i) ==> MANAGED[k] != id
    ensures RankFrom(id, i) < |MANAGED| ==> MANAGED[RankFrom(id, i)] == id
    decreases |MANAGED| - i
  {
    if i < |MANAGED| && MANAGED[i] != id { RankIsFirst(id, i + 1); }
  }

  lemma RankFacts(id: Id)
    ensures Rank(id) < |MANAGED| <==> id in MANAGED
    ensures forall i :: 0 <= i < |MANAGED| && MANAGED[i] == id ==> Rank(id) == i
  {
    RankIsFirst(id, 0);
    ManagedAreDistinct();
    hide RankFrom;
  }

  /** The comparison of the sort, told by the list of managed services. */
  lemma NoLaterIff(loc: (Id, Id) -> bool, x: Id, y: Id)
    requires TotalPreorder(loc)
    ensures RankLe(loc)(x, y) <==> NoLater(loc, x, y)
  {
    RankFacts(x);
    RankFacts(y);
    RankIsFirst(x, 0);
    RankIsFirst(y, 0);
    hide RankFrom;
    assert loc(x, x);
    if Rank(x) < Rank(y) < |MANAGED| { assert MANAGED[Rank(x)] == x && MANAGED[Rank(y)] == y; }
    if Rank(x) == Rank(y) < |MANAGED| { assert MANAGED[Rank(x)] == x && MANAGED[Rank(y)] == y; }
  }

  /** The known services never tie, so for them the start order is a function of the set alone. */
  lemma ManagedNeverTie(loc: (Id, Id) -> bool, ids: seq<Id>)
    requires forall x :: x in ids ==> x in MANAGED
    ensures NoTies(RankLe(loc), ids)
  {
    forall a, b | a in ids && b in ids && RankLe(loc)(a, b) && RankLe(loc)(b, a) ensures a == b {
      RankFacts(a);
      RankFacts(b);
    }
  }

  /** Without dependencies between included services: the managed ones in the order of their list, then the
      others in the order of `localeCompare`. */
  lemma OrderWithoutDependencies(loc: (Id, Id) -> bool, ids: seq<Id>, dependsOn: map<Id, seq<Id>>)
    requires TotalPreorder(loc) && forall s, d :: !Edge(GraphOf(ids, dependsOn), s, d)
    ensures var r := StartOrder(loc, ids, dependsOn);
      && (forall x :: x in r <==> x in ids) && NoRepeats(r)
      && forall i, j :: 0 <= i < j < |r| ==> NoLater(loc, r[i], r[j])
  {
    hide NoLater, NoRepeats, StartOrder, RankLe, InOrder, Edge, GraphOf;
    StartOrderIsTopological(loc, ids, dependsOn);
    StartOrderWithoutDependencies(loc, ids, dependsOn);
    RankLeIsTotalPreorder(loc);
    SortIsSorted(RankLe(loc), Distinct(ids));
    var r := StartOrder(loc, ids, dependsOn);
    forall i, j | 0 <= i < j < |r| ensures NoLater(loc, r[i], r[j]) { NoLaterIff(loc, r[i], r[j]); }
  }

  lemma ReachesFirst(g: Graph, s: Id, d: Id, b: Id)
    requires Edge(g, s, d) && Reaches(g, d, b)
    ensures Reaches(g, s, b)
  {
    var path :| IsPath(g, path) && path[0] == d && path[|path| - 1] == b;
    var longer := [s] + path;
    forall i | 0 <= i < |longer| - 1 ensures Edge(g, longer[i], longer[i + 1]) {
      if i > 0 { assert longer[i] == path[i - 1] && longer[i + 1] == path[i]; }
    }
    assert IsPath(g, longer) && longer[0] == s && longer[|longer| - 1] == b;
  }

  ghost predicate FromOne(g: Graph, ids: seq<Id>, x: Id)
  {
    exists u :: u in ids && Reaches(g, u, x)
  }

  lemma FromMore(g: Graph, first: Id, rest: seq<Id>, x: Id)
    ensures FromOne(g, [first] + rest, x) <==> Reaches(g, first, x) || FromOne(g, rest, x)
  {
    hide Reaches;
    assert forall u :: u in [first] + rest <==> u == first || u in rest;
  }

  /** What a visit resolves is reached from where it began. */
  lemma {:induction false} VisitReaches(g: Graph, s: Id, st: State)
    ensures forall x :: x in Visit(g, s, st).resolved && x !in st.resolved ==> Reaches(g, s, x)
    decreases Left(g, st), 0
  {
    hide Reaches, Edge;
    if s in g.included && s !in st.resolved && s !in st.active {
      var deeper := st.(active := st.active + {s});
      assert s in Left(g, st) && s !in Left(g, deeper);
      ReachesSelf(g, s);
      var inner := VisitAll(g, Deps(g, s), deeper);
      VisitAllReaches(g, Deps(g, s), deeper);
      forall x | x in inner.resolved && x !in st.resolved ensures Reaches(g, s, x) {
        var d :| d in Deps(g, s) && Reaches(g, d, x);
        ReachesIncluded(g, d, x);
        EdgeMeans(g, s, d);
        ReachesFirst(g, s, d, x);
      }
    }
  }

  lemma ReachesIncluded(g: Graph, a: Id, b: Id)
    requires Reaches(g, a, b)
    ensures a in g.included
  {
    var path :| IsPath(g, path) && path[0] == a && path[|path| - 1] == b;
    assert path[0] in path;
  }

  lemma {:induction false} VisitAllReaches(g: Graph, ids: seq<Id>, st: State)
    ensures forall x :: x in VisitAll(g, ids, st).resolved && x !in st.resolved ==> FromOne(g, ids, x)
    decreases Left(g, st), |ids| + 1
  {
    hide Reaches, FromOne, Visit;
    if ids != [] {
      var next := Visit(g, ids[0], st);
      assert Left(g, next) <= Left(g, st);
      VisitReaches(g, ids[0], st);
      VisitAllReaches(g, ids[1..], next);
      assert ids == [ids[0]] + ids[1..];
      forall x { FromMore(g, ids[0], ids[1..], x); }
    }
  }

  lemma {:induction false} VisitAllConcat(g: Graph, a: seq<Id>, b: seq<Id>, st: State)
    ensures VisitAll(g, a + b, st) == VisitAll(g, b, VisitAll(g, a, st))
    decreases |a|
  {
    hide Visit;
    if a == [] {
      assert a + b == b;
    } else {
      assert (a + b)[1..] == a[1..] + b;
      VisitAllConcat(g, a[1..], b, Visit(g, a[0], st));
    }
  }

  lemma {:induction false} VisitGrows(g: Graph, s: Id, st: State)
    ensures st.ordered <= Visit(g, s, st).ordered
    decreases Left(g, st), 0
  {
    if s in g.included && s !in st.resolved && s !in st.active {
      var deeper := st.(active := st.active + {s});
      assert s in Left(g, st) && s !in Left(g, deeper);
      VisitAllGrows(g, Deps(g, s), deeper);
    }
  }

  lemma {:induction false} VisitAllGrows(g: Graph, ids: seq<Id>, st: State)
    ensures st.ordered <= VisitAll(g, ids, st).ordered
    decreases Left(g, st), |ids| + 1
  {
    if ids != [] {
      var next := Visit(g, ids[0], st);
      assert Left(g, next) <= Left(g, st);
      VisitGrows(g, ids[0], st);
      VisitAllGrows(g, ids[1..], next);
    }
  }

  /** What stands before the k-th root in the start order is reached from a root up to it. */
  lemma BeforeRoot(g: Graph, roots: seq<Id>, k: nat, a: nat, b: nat)
    requires k < |roots| && roots[k] in g.included
    requires var r := VisitAll(g, roots, START).ordered; a < b < |r| && r[b] == roots[k] && NoRepeats(r)
    ensures FromOne(g, roots[..k + 1], VisitAll(g, roots, START).ordered[a])
  {
    hide FromOne, VisitAll, InOrder;
    var (front, rest) := (roots[..k + 1], roots[k + 1..]);
    var now := VisitAll(g, front, START);
    assert roots == front + rest;
    VisitAllConcat(g, front, rest, START);
    VisitAllGrows(g, rest, now);
    StartIsFine(g);
    RootsKeep(g, front, START);
    assert front[k] == roots[k] && roots[k] in front;
    assert roots[k] in now.ordered;
    var c :| 0 <= c < |now.ordered| && now.ordered[c] == roots[k];
    var r := VisitAll(g, roots, START).ordered;
    assert r[c] == r[b];
    assert c == b;
    assert now.ordered[a] == r[a] && r[a] in now.ordered;
    VisitAllReaches(g, front, START);
  }

  /** On any graph: when t starts before s although s is ahead of it, then s, or one that is no later than s,
      depends on t, directly or not. */
  lemma EarlierStartHasReason(loc: (Id, Id) -> bool, ids: seq<Id>, dependsOn: map<Id, seq<Id>>, a: nat, b: nat)
    requires TotalPreorder(loc) && a < b < |StartOrder(loc, ids, dependsOn)|
    ensures var (r, g) := (StartOrder(loc, ids, dependsOn), GraphOf(ids, dependsOn));
      exists u :: u in ids && NoLater(loc, u, r[b]) && Reaches(g, u, r[a])
  {
    hide NoLater, Reaches, NoRepeats, VisitAll, RankLe, InOrder, TotalPreorder, Sort, Distinct;
    var (r, g) := (StartOrder(loc, ids, dependsOn), GraphOf(ids, dependsOn));
    var roots := SortManaged(loc, Distinct(ids));
    StartOrderIsTopological(loc, ids, dependsOn);
    SameElements(roots, Distinct(ids));
    assert r[b] in r;
    var k: nat :| k < |roots| && roots[k] == r[b];
    BeforeRoot(g, roots, k, a, b);
    var u :| u in roots[..k + 1] && Reaches(g, u, r[a]);
    var i :| 0 <= i < |roots[..k + 1]| && roots[..k + 1][i] == u;
    assert roots[i] in roots;
    RankLeIsTotalPreorder(loc);
    SortIsSorted(RankLe(loc), Distinct(ids));
    NoLaterIff(loc, u, r[b]);
    NoLaterIff(loc, r[b], r[b]);
    SortedAt(RankLe(loc), roots, i, k);
  }

  lemma SortedAt(le: (Id, Id) -> bool, s: seq<Id>, i: nat, k: nat)
    requires SortedBy(le, s) && i <= k < |s|
    ensures i == k || le(s[i], s[k])
  {
  }

  lemma {:induction false} OutsideAreSkipped(g: Graph, ids: seq<Id>, st: State)
    requires forall d :: d in ids ==> d !in g.included
    ensures VisitAll(g, ids, st) == st
    decreases |ids|
  {
    if ids != [] {
      assert ids[0] in ids;
      OutsideAreSkipped(g, ids[1..], st);
    }
  }
}
