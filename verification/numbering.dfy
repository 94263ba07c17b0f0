/** Which holds are accepted however their accounts are numbered: exactly the conserved ones without cycles. */
module Numbering {
  import opened Arithmetic
  import opened Wrappers
  import opened Sums
  import opened Ordered
  import opened Cuts
  import opened Books
  import opened Runs
  import opened Routes

  // ---------------------------------------------------------- arcs that were placed --

  lemma {:induction false} ArcPlaced(paths: seq<Path>, k: Key) returns (p: Path)
    requires Get(AllRoutes(paths).edge, k) > 0
    ensures p in paths && k in p.arcs
    decreases |paths|
  {
    var front, last := paths[..|paths| - 1], paths[|paths| - 1];
    assert paths == front + [last];
    AllRoutesMore(front, last);
    assert Get(AllRoutes(paths).edge, k) == Get(AllRoutes(front).edge, k) + Get(RouteArcs(last).edge, k);
    if k in last.arcs {
      p := last;
    } else {
      p := ArcPlaced(front, k);
    }
  }

  lemma {:induction false} RoutePlaced(paths: seq<Path>, p: Path)
    requires p in paths && p.value > 0
    ensures Get(AllRoutes(paths).supply, p.source) > 0
    ensures forall j :: 0 <= j < |p.arcs| ==> Get(AllRoutes(paths).edge, p.arcs[j]) > 0
    decreases |paths|
  {
    hide AllRoutes;
    var front, last := paths[..|paths| - 1], paths[|paths| - 1];
    assert paths == front + [last];
    AllRoutesMore(front, last);
    if p == last {
      assert Get(RouteArcs(p).supply, p.source) == p.value;
      forall j | 0 <= j < |p.arcs| ensures Get(AllRoutes(paths).edge, p.arcs[j]) > 0 {
        assert p.arcs[j] in p.arcs;
        assert Get(RouteArcs(p).edge, p.arcs[j]) == p.value;
      }
    } else {
      assert p in front;
      RoutePlaced(front, p);
      forall j | 0 <= j < |p.arcs| ensures Get(AllRoutes(paths).edge, p.arcs[j]) > 0 {
        assert Get(AllRoutes(front).edge, p.arcs[j]) > 0;
      }
    }
  }

  /** In an accepted hold every arc lies on a simple route from a supplied source to the debtor. */
  lemma OnSomeRoute(held: Held, debtor: nat, k: Key) returns (p: Path, i: nat)
    requires Decomposed(held, debtor).Ok? && Get(held.Arcs().edge, k) > 0
    ensures IsRoute(p, debtor) && i < |p.arcs| && p.arcs[i] == k
    ensures Get(held.Arcs().supply, p.source) > 0
    ensures forall j :: 0 <= j < |p.arcs| ==> Get(held.Arcs().edge, p.arcs[j]) > 0
  {
    hide Decomposed, AllRoutes, IsRoute, Held.Arcs;
    DecomposeSound(held, debtor);
    var paths := Decomposed(held, debtor).value;
    assert Get(held.Arcs().edge, k) <= Get(AllRoutes(paths).edge, k);
    p := ArcPlaced(paths, k);
    i :| 0 <= i < |p.arcs| && p.arcs[i] == k;
    RouteWorth(p, debtor);
    RoutePlaced(paths, p);
    assert Get(AllRoutes(paths).supply, p.source) <= Get(held.Arcs().supply, p.source);
    forall j | 0 <= j < |p.arcs| ensures Get(held.Arcs().edge, p.arcs[j]) > 0 {
      assert Get(AllRoutes(paths).edge, p.arcs[j]) <= Get(held.Arcs().edge, p.arcs[j]);
    }
  }

  lemma RouteLeavesBefore(p: Path, debtor: nat, i: nat)
    requires IsRoute(p, debtor) && i < |p.arcs|
    ensures p.arcs[i].0 == NodeAt(p.source, p.arcs, i) != debtor
  {
  }

  /** A hold that sends anything on from its debtor is always refused. */
  lemma DebtorSendsNothing(held: Held, debtor: nat, k: Key)
    requires Get(held.Arcs().edge, k) > 0 && k.0 == debtor
    ensures Decomposed(held, debtor).Err?
  {
    hide Decomposed, IsRoute, Held.Arcs;
    if Decomposed(held, debtor).Ok? {
      var p, i := OnSomeRoute(held, debtor, k);
      RouteLeavesBefore(p, debtor, i);
    }
  }

  /** X holds no supplied source, and nothing enters it but from the debtor. */
  ghost predicate CutOff(a: Arcs, debtor: nat, X: set<nat>) {
    && (forall u :: u in X ==> Get(a.supply, u) == 0)
    && (forall k :: Get(a.edge, k) > 0 && k.1 in X ==> k.0 in X || k.0 == debtor)
  }

  lemma {:induction false} NeverReached(a: Arcs, debtor: nat, X: set<nat>, p: Path, i: nat)
    requires CutOff(a, debtor, X) && IsRoute(p, debtor) && i < |p.arcs|
    requires Get(a.supply, p.source) > 0 && forall j :: 0 <= j < |p.arcs| ==> Get(a.edge, p.arcs[j]) > 0
    ensures p.arcs[i].0 !in X
    decreases i
  {
    hide IsRoute, CutOff, NodeAt;
    RouteJoins(p, debtor, i);
    if i > 0 {
      NeverReached(a, debtor, X, p, i - 1);
      RouteLeavesBefore(p, debtor, i - 1);
      NoWayIn(a, debtor, X, p.arcs[i - 1]);
    } else {
      NoSourceIn(a, debtor, X, p.source);
    }
  }

  lemma RouteJoins(p: Path, debtor: nat, i: nat)
    requires IsRoute(p, debtor) && i < |p.arcs|
    ensures p.arcs[i].0 == if i == 0 then p.source else p.arcs[i - 1].1
  {
  }

  lemma NoWayIn(a: Arcs, debtor: nat, X: set<nat>, k: Key)
    requires CutOff(a, debtor, X) && Get(a.edge, k) > 0 && k.0 !in X && k.0 != debtor
    ensures k.1 !in X
  {
  }

  lemma NoSourceIn(a: Arcs, debtor: nat, X: set<nat>, u: nat)
    requires CutOff(a, debtor, X) && Get(a.supply, u) > 0
    ensures u !in X
  {
  }

  /** A hold with flow where no source reaches short of the debtor, a cycle off to the side, is always refused. */
  lemma UnreachedRefused(held: Held, debtor: nat, X: set<nat>, k: Key)
    requires CutOff(held.Arcs(), debtor, X) && Get(held.Arcs().edge, k) > 0 && k.0 in X
    ensures Decomposed(held, debtor).Err?
  {
    hide Decomposed, IsRoute, Held.Arcs, CutOff;
    if Decomposed(held, debtor).Ok? {
      var p, i := OnSomeRoute(held, debtor, k);
      NeverReached(held.Arcs(), debtor, X, p, i);
    }
  }

  // -------------------------------------------------------------------- renumbering --

  ghost predicate Injective(pi: nat -> nat) {
    forall a, b :: pi(a) == pi(b) ==> a == b
  }

  ghost function Renamed(pi: nat -> nat, k: Key): Key {
    (pi(k.0), pi(k.1))
  }

  ghost function RenamedEdges(e: map<Key, nat>, pi: nat -> nat): map<Key, nat>
    requires Injective(pi)
  {
    map k | k in e && e[k] > 0 :: Renamed(pi, k) := e[k]
  }

  ghost function RenamedSupply(s: map<nat, nat>, pi: nat -> nat): map<nat, nat>
    requires Injective(pi)
  {
    map u | u in s && s[u] > 0 :: pi(u) := s[u]
  }

  /** The same hold with its accounts numbered by pi, listed in the new key order. */
  ghost function Renumbered(held: Held, pi: nat -> nat): Held
    requires Injective(pi)
  {
    Held(EdgeEntries(RenamedEdges(held.Arcs().edge, pi)), IdEntries(RenamedSupply(held.Arcs().supply, pi)))
  }

  ghost predicate AcceptedHoweverNumbered(held: Held, debtor: nat) {
    forall pi: nat -> nat :: Injective(pi) ==> Decomposed(Renumbered(held, pi), pi(debtor)).Ok?
  }

  lemma RenamedAt(a: Arcs, pi: nat -> nat, k: Key, u: nat)
    requires Injective(pi)
    ensures Get(RenamedEdges(a.edge, pi), Renamed(pi, k)) == Get(a.edge, k)
    ensures Get(RenamedSupply(a.supply, pi), pi(u)) == Get(a.supply, u)
  {
    if Renamed(pi, k) in RenamedEdges(a.edge, pi) {
      var j :| j in a.edge && a.edge[j] > 0 && Renamed(pi, j) == Renamed(pi, k);
      assert j == k;
    }
    if pi(u) in RenamedSupply(a.supply, pi) {
      var v :| v in a.supply && a.supply[v] > 0 && pi(v) == pi(u);
      assert v == u;
    }
  }

  lemma RenamedPositive(a: Arcs, pi: nat -> nat)
    requires Injective(pi)
    ensures AllPositive(Arcs(RenamedEdges(a.edge, pi), RenamedSupply(a.supply, pi)))
  {
    hide Injective;
  }

  lemma RenumberedArcs(held: Held, pi: nat -> nat)
    requires Injective(pi)
    ensures Renumbered(held, pi).Arcs()
         == Arcs(RenamedEdges(held.Arcs().edge, pi), RenamedSupply(held.Arcs().supply, pi))
    ensures Renumbered(held, pi).Tidy()
  {
    hide Held.Arcs, EdgeEntries, IdEntries, Held.Tidy, RenamedEdges, RenamedSupply;
    RenamedPositive(held.Arcs(), pi);
    ListedHold(RenamedEdges(held.Arcs().edge, pi), RenamedSupply(held.Arcs().supply, pi));
  }

  // ------------------------------------------------- renumbering keeps conservation --

  ghost function Image<K(!new), L(!new)>(s: set<K>, g: K -> L): set<L> {
    set a | a in s :: g(a)
  }

  lemma {:induction false} SumImage<K(!new), L(!new)>(s: set<K>, g: K -> L, f: L -> int, h: K -> int)
    requires forall a, b :: a in s && b in s && g(a) == g(b) ==> a == b
    requires forall a :: a in s ==> h(a) == f(g(a))
    ensures Sum(Image(s, g), f) == Sum(s, h)
    decreases |s|
  {
    var image := Image(s, g);
    if s == {} {
      assert image == {};
    } else {
      var x :| x in s;
      SumRemove(s, h, x);
      SumImage(s - {x}, g, f, h);
      assert Image(s - {x}, g) == image - {g(x)};
      SumRemove(image, f, g(x));
    }
  }

  lemma RenamedEdgeKeys(e: map<Key, nat>, pi: nat -> nat)
    requires Injective(pi)
    ensures Image(PositiveKeys(e), (k: Key) => Renamed(pi, k)) == RenamedEdges(e, pi).Keys
  {
    hide Injective;
    var g := (k: Key) => Renamed(pi, k);
    var ks := PositiveKeys(e);
    forall x | x in Image(ks, g) ensures x in RenamedEdges(e, pi).Keys {
      var k :| k in ks && g(k) == x;
    }
    forall x | x in RenamedEdges(e, pi).Keys ensures x in Image(ks, g) {
      var k :| k in e && e[k] > 0 && Renamed(pi, k) == x;
      assert k in ks && g(k) == x;
    }
  }

  lemma RenamedSupplyKeys(s: map<nat, nat>, pi: nat -> nat)
    requires Injective(pi)
    ensures Image(Sources(s), pi) == RenamedSupply(s, pi).Keys
  {
    hide Injective;
  }

  lemma RenamedEdgeSum(e: map<Key, nat>, pi: nat -> nat, f: Key -> int, h: Key -> int)
    requires Injective(pi)
    requires forall k :: h(k) == f(Renamed(pi, k)) && (Get(e, k) == 0 ==> h(k) == 0)
    ensures Sum(RenamedEdges(e, pi).Keys, f) == Sum(e.Keys, h)
  {
    hide Sum, RenamedEdges, Renamed;
    var ks := PositiveKeys(e);
    var g := (k: Key) => Renamed(pi, k);
    RenamedEdgeKeys(e, pi);
    RenamedApart(pi);
    SumImage(ks, g, f, h);
    assert Image(ks, g) == Image(ks, (k: Key) => Renamed(pi, k));
    SumSubset(ks, e.Keys, h);
  }

  lemma RenamedApart(pi: nat -> nat)
    requires Injective(pi)
    ensures forall a, b :: Renamed(pi, a) == Renamed(pi, b) ==> a == b
  {
  }

  lemma RenamedSupplySum(s: map<nat, nat>, pi: nat -> nat, f: nat -> int, h: nat -> int)
    requires Injective(pi)
    requires forall u :: h(u) == f(pi(u)) && (Get(s, u) == 0 ==> h(u) == 0)
    ensures Sum(RenamedSupply(s, pi).Keys, f) == Sum(s.Keys, h)
  {
    hide Sum, RenamedSupply;
    RenamedSupplyKeys(s, pi);
    SumImage(Sources(s), pi, f, h);
    SumSubset(Sources(s), s.Keys, h);
  }

  lemma RenamedNet(a: Arcs, pi: nat -> nat, v: nat)
    requires Injective(pi)
    ensures NetInto(Arcs(RenamedEdges(a.edge, pi), RenamedSupply(a.supply, pi)), {pi(v)}) == NetInto(a, {v})
  {
    hide Sum, RenamedEdges, RenamedSupply;
    var e, s := RenamedEdges(a.edge, pi), RenamedSupply(a.supply, pi);
    forall k ensures InTerm(a.edge, {v})(k) == InTerm(e, {pi(v)})(Renamed(pi, k))
             ensures OutTerm(a.edge, {v})(k) == OutTerm(e, {pi(v)})(Renamed(pi, k))
    {
      RenamedAt(a, pi, k, v);
    }
    forall u ensures SupplyTerm(a.supply, {v})(u) == SupplyTerm(s, {pi(v)})(pi(u)) {
      RenamedAt(a, pi, (u, u), u);
    }
    RenamedEdgeSum(a.edge, pi, InTerm(e, {pi(v)}), InTerm(a.edge, {v}));
    RenamedEdgeSum(a.edge, pi, OutTerm(e, {pi(v)}), OutTerm(a.edge, {v}));
    RenamedSupplySum(a.supply, pi, SupplyTerm(s, {pi(v)}), SupplyTerm(a.supply, {v}));
  }

  lemma UnusedNet(a: Arcs, pi: nat -> nat, v: nat)
    requires Injective(pi) && forall x :: pi(x) != v
    ensures NetInto(Arcs(RenamedEdges(a.edge, pi), RenamedSupply(a.supply, pi)), {v}) == 0
  {
    hide Sum, RenamedEdges, RenamedSupply, Get;
    var e, s := RenamedEdges(a.edge, pi), RenamedSupply(a.supply, pi);
    UnusedKeys(a, pi, v);
    SumZero(e.Keys, InTerm(e, {v}));
    SumZero(e.Keys, OutTerm(e, {v}));
    SumZero(s.Keys, SupplyTerm(s, {v}));
  }

  lemma UnusedKeys(a: Arcs, pi: nat -> nat, v: nat)
    requires Injective(pi) && forall x :: pi(x) != v
    ensures forall k :: k in RenamedEdges(a.edge, pi) ==> k.0 != v && k.1 != v
    ensures forall u :: u in RenamedSupply(a.supply, pi) ==> u != v
  {
  }

  lemma RenamedFlow(a: Arcs, pi: nat -> nat, debtor: nat, amount: nat)
    requires Injective(pi) && IsFlow(a, debtor, amount)
    ensures IsFlow(Arcs(RenamedEdges(a.edge, pi), RenamedSupply(a.supply, pi)), pi(debtor), amount)
  {
    hide NetInto, RenamedEdges, RenamedSupply;
    var b := Arcs(RenamedEdges(a.edge, pi), RenamedSupply(a.supply, pi));
    forall v: nat ensures NetInto(b, {v}) == if v == pi(debtor) then amount else 0 {
      if x :| pi(x) == v {
        RenamedNet(a, pi, x);
        assert NetInto(a, {x}) == if x == debtor then amount else 0;
      } else {
        UnusedNet(a, pi, v);
      }
    }
  }

  // -------------------------------------------------------- renumbering keeps cycles --

  ghost function Origin(e: map<Key, nat>, pi: nat -> nat, k: Key): (o: Key)
    requires Injective(pi)
    ensures Get(RenamedEdges(e, pi), k) > 0 ==> Renamed(pi, o) == k && Get(e, o) > 0
  {
    if Get(RenamedEdges(e, pi), k) > 0 then
      var o :| o in e && e[o] > 0 && Renamed(pi, o) == k;
      o
    else k
  }

  lemma RenamedAcyclic(e: map<Key, nat>, pi: nat -> nat)
    requires Injective(pi) && Acyclic(e)
    ensures Acyclic(RenamedEdges(e, pi))
  {
    hide RenamedEdges;
    forall c: seq<Key> | IsCycle(RenamedEdges(e, pi), c) ensures false {
      var o := seq(|c|, i requires 0 <= i < |c| => Origin(e, pi, c[i]));
      forall i | 0 <= i < |c| ensures Renamed(pi, o[i]) == c[i] && Get(e, o[i]) > 0 {
        assert Get(RenamedEdges(e, pi), c[i]) > 0;
      }
      forall i | 0 <= i < |o| - 1 ensures o[i].1 == o[i + 1].0 {
        assert pi(o[i].1) == c[i].1 == c[i + 1].0 == pi(o[i + 1].0);
      }
      assert pi(o[|o| - 1].1) == c[|c| - 1].1 == c[0].0 == pi(o[0].0);
      CycleFound(e, o);
    }
  }

  // ------------------------------------------------------------- a lasso is refused --

  /** Distinct accounts short of the debtor, from a supplied source along arcs that carry. */
  ghost predicate Thread(a: Arcs, debtor: nat, xs: seq<nat>) {
    && xs != [] && Get(a.supply, xs[0]) > 0 && Distinct(xs) && debtor !in xs
    && forall i :: 0 <= i < |xs| - 1 ==> Get(a.edge, (xs[i], xs[i + 1])) > 0
  }

  ghost predicate Lasso(a: Arcs, debtor: nat, xs: seq<nat>) {
    && Thread(a, debtor, xs)
    && exists b :: b in xs && Get(a.edge, (xs[|xs| - 1], b)) > 0
  }

  function IndexOf(xs: seq<nat>, v: nat): (i: nat)
    requires v in xs
    ensures i < |xs| && xs[i] == v
  {
    if xs[|xs| - 1] == v then |xs| - 1 else IndexOf(xs[..|xs| - 1], v)
  }

  /** The listed accounts first, in list order; everybody else behind them. */
  function Number(xs: seq<nat>, v: nat): nat {
    if v in xs then IndexOf(xs, v) else |xs| + v
  }

  lemma NumberInjective(xs: seq<nat>)
    ensures Injective((v: nat) => Number(xs, v))
  {
  }

  lemma NumberAt(xs: seq<nat>, i: nat)
    requires Distinct(xs) && i < |xs|
    ensures Number(xs, xs[i]) == i
  {
  }

  function UpTo(j: nat): (s: set<nat>)
    ensures forall i :: i in s <==> 0 <= i <= j
  {
    if j == 0 then {0} else UpTo(j - 1) + {j}
  }

  /** The arc from the i-th numbered account to the next carries something. */
  ghost predicate Onward(left: map<Key, nat>, i: nat) {
    Get(left, (i, i + 1)) > 0
  }

  ghost predicate Back(left: map<Key, nat>, i: nat, b: nat) {
    b <= i && Get(left, (i, b)) > 0
  }

  ghost predicate FallsBack(left: map<Key, nat>, i: nat) {
    exists b :: Back(left, i, b)
  }

  /** Numbered along a lasso, the walk takes its arcs in order or falls back on one it has seen. */
  lemma {:induction false} WalkLost(left: map<Key, nat>, debtor: nat, m: nat, j: nat, arcs: seq<Key>, value: nat)
    requires j < m <= debtor
    requires forall i: nat :: i < m - 1 ==> Onward(left, i)
    requires FallsBack(left, m - 1)
    ensures WalkFrom(left, 0, debtor, j, arcs, value, UpTo(j)).Lost?
    decreases m - j
  {
    hide WalkFrom;
    var next: nat;
    if j + 1 < m {
      next := j + 1;
      assert Onward(left, j);
    } else {
      next :| Back(left, m - 1, next);
    }
    assert next in Usable(left, j);
    var b := Least(Usable(left, j));
    WalkStep(left, debtor, j, arcs, value, b);
    if b > j {
      WalkLost(left, debtor, m, j + 1, arcs + [(j, b)], Lesser(value, left[(j, b)]));
    }
  }

  lemma WalkStep(left: map<Key, nat>, debtor: nat, j: nat, arcs: seq<Key>, value: nat, b: nat)
    requires j < debtor && Usable(left, j) != {} && b == Least(Usable(left, j))
    ensures (j, b) in left
    ensures b <= j ==> WalkFrom(left, 0, debtor, j, arcs, value, UpTo(j)).Lost?
    ensures b == j + 1 ==>
      WalkFrom(left, 0, debtor, j, arcs, value, UpTo(j))
      == WalkFrom(left, 0, debtor, b, arcs + [(j, b)], Lesser(value, left[(j, b)]), UpTo(b))
  {
    assert b == j + 1 ==> UpTo(j) + {b} == UpTo(b);
  }

  lemma LostIsRefused(e: map<Key, nat>, s: map<nat, nat>, debtor: nat, budget: nat)
    requires budget > 0 && Get(s, 0) > 0 && WalkFrom(e, 0, debtor, 0, [], Get(s, 0), {0}).Lost?
    ensures Peel(e, s, debtor, budget, []).Err?
  {
    hide WalkFrom;
    assert 0 in Sources(s);
    assert Least(Sources(s)) == 0;
  }

  /** Numbered along a lasso, its arcs run upwards from zero and back. */
  lemma LassoNumbered(a: Arcs, debtor: nat, xs: seq<nat>, pi: nat -> nat)
    requires Lasso(a, debtor, xs) && Injective(pi) && forall i :: 0 <= i < |xs| ==> pi(xs[i]) == i
    ensures var e, s := RenamedEdges(a.edge, pi), RenamedSupply(a.supply, pi);
      && Get(s, 0) > 0
      && (forall i: nat :: i < |xs| - 1 ==> Onward(e, i))
      && FallsBack(e, |xs| - 1)
  {
    hide RenamedEdges, RenamedSupply, Injective, Get, Distinct;
    var e := RenamedEdges(a.edge, pi);
    RenamedAt(a, pi, (xs[0], xs[0]), xs[0]);
    forall i: nat | i < |xs| - 1 ensures Onward(e, i) {
      RenamedAt(a, pi, (xs[i], xs[i + 1]), xs[0]);
    }
    var b :| b in xs && Get(a.edge, (xs[|xs| - 1], b)) > 0;
    var at :| 0 <= at < |xs| && xs[at] == b;
    RenamedAt(a, pi, (xs[|xs| - 1], b), xs[0]);
    assert Back(e, |xs| - 1, at);
  }

  /** Numbered along a lasso, a hold is refused on its first route. */
  lemma LassoRefused(held: Held, debtor: nat, xs: seq<nat>)
    requires Lasso(held.Arcs(), debtor, xs)
    ensures !AcceptedHoweverNumbered(held, debtor)
  {
    hide WalkFrom, Peel, RenamedEdges, RenamedSupply, Number, Renumbered, Lasso, Injective, Held.Arcs, Onward, FallsBack;
    var a := held.Arcs();
    var pi := (v: nat) => Number(xs, v);
    NumberInjective(xs);
    LassoThread(a, debtor, xs);
    forall i | 0 <= i < |xs| ensures pi(xs[i]) == i {
      NumberAt(xs, i);
    }
    LassoNumbered(a, debtor, xs, pi);
    NumberBehind(xs, debtor);
    var e, s := RenamedEdges(a.edge, pi), RenamedSupply(a.supply, pi);
    WalkLost(e, pi(debtor), |xs|, 0, [], Get(s, 0));
    assert UpTo(0) == {0};
    LostIsRefused(e, s, pi(debtor), |Renumbered(held, pi).edges| + |Renumbered(held, pi).supply| + 1);
    RenumberedPeels(held, debtor, pi);
    assert Decomposed(Renumbered(held, pi), pi(debtor)).Err?;
  }

  lemma LassoThread(a: Arcs, debtor: nat, xs: seq<nat>)
    requires Lasso(a, debtor, xs)
    ensures xs != [] && Distinct(xs) && debtor !in xs
  {
  }

  lemma RenumberedPeels(held: Held, debtor: nat, pi: nat -> nat)
    requires Injective(pi)
    ensures var h := Renumbered(held, pi);
      Decomposed(h, pi(debtor)) == Peel(RenamedEdges(held.Arcs().edge, pi), RenamedSupply(held.Arcs().supply, pi),
                                        pi(debtor), |h.edges| + |h.supply| + 1, [])
  {
    hide Peel, RenamedEdges, RenamedSupply, Renumbered;
    RenumberedArcs(held, pi);
  }

  lemma NumberBehind(xs: seq<nat>, v: nat)
    requires v !in xs
    ensures Number(xs, v) >= |xs|
  {
  }

  // ------------------------------------------------------- a reached cycle is a lasso --

  /** Going round a cycle from a thread that holds one of its nodes, some node comes up twice. */
  lemma {:induction false} FollowCycle(held: Held, debtor: nat, c: seq<Key>, j: nat, xs: seq<nat>) returns (ys: seq<nat>)
    requires Decomposed(held, debtor).Ok? && IsCycle(held.Arcs().edge, c) && j < |c|
    requires Thread(held.Arcs(), debtor, xs) && xs[|xs| - 1] == c[j].0 && c[0].0 in xs
    ensures Lasso(held.Arcs(), debtor, ys)
    decreases |c| - j
  {
    hide Decomposed, Held.Arcs;
    var next := c[j].1;
    assert Get(held.Arcs().edge, c[j]) > 0 && c[j] == (xs[|xs| - 1], next);
    if next in xs {
      return xs;
    }
    assert j < |c| - 1 && next == c[j + 1].0;
    assert Get(held.Arcs().edge, c[j + 1]) > 0;
    if next == debtor {
      DebtorSendsNothing(held, debtor, c[j + 1]);
    }
    ThreadOn(held.Arcs(), debtor, xs, next);
    ys := FollowCycle(held, debtor, c, j + 1, xs + [next]);
  }

  lemma ThreadOn(a: Arcs, debtor: nat, xs: seq<nat>, next: nat)
    requires Thread(a, debtor, xs) && next !in xs && next != debtor && Get(a.edge, (xs[|xs| - 1], next)) > 0
    ensures Thread(a, debtor, xs + [next])
  {
    var more := xs + [next];
    forall i | 0 <= i < |more| - 1 ensures Get(a.edge, (more[i], more[i + 1])) > 0 {
      if i < |xs| - 1 {
        assert more[i] == xs[i] && more[i + 1] == xs[i + 1];
      }
    }
  }

  /** The nodes a route passes up to its i-th arc are a thread. */
  lemma RouteThread(a: Arcs, debtor: nat, p: Path, i: nat) returns (xs: seq<nat>)
    requires IsRoute(p, debtor) && i < |p.arcs|
    requires Get(a.supply, p.source) > 0 && forall j :: 0 <= j < |p.arcs| ==> Get(a.edge, p.arcs[j]) > 0
    ensures Thread(a, debtor, xs) && xs[|xs| - 1] == p.arcs[i].0
  {
    hide IsRoute, Get;
    xs := seq(i + 1, j requires 0 <= j <= i => NodeAt(p.source, p.arcs, j));
    RouteNodes(p, debtor, i);
    forall j | 0 <= j < |xs| - 1 ensures Get(a.edge, (xs[j], xs[j + 1])) > 0 {
      assert p.arcs[j] == (xs[j], xs[j + 1]);
    }
  }

  lemma RouteNodes(p: Path, debtor: nat, i: nat)
    requires IsRoute(p, debtor) && i < |p.arcs|
    ensures p.arcs[i].0 == NodeAt(p.source, p.arcs, i)
    ensures forall j :: 0 <= j < i ==> p.arcs[j] == (NodeAt(p.source, p.arcs, j), NodeAt(p.source, p.arcs, j + 1))
    ensures forall j, k :: 0 <= j < k <= i ==> NodeAt(p.source, p.arcs, j) != NodeAt(p.source, p.arcs, k)
    ensures forall j :: 0 <= j <= i ==> NodeAt(p.source, p.arcs, j) != debtor
  {
    forall j | 0 <= j < i ensures p.arcs[j] == (NodeAt(p.source, p.arcs, j), NodeAt(p.source, p.arcs, j + 1)) {
      RouteJoins(p, debtor, j);
    }
    forall j | 0 <= j <= i ensures NodeAt(p.source, p.arcs, j) != debtor {
      RouteLeavesBefore(p, debtor, j);
    }
  }

  /** In a hold accepted as it is numbered, any cycle is reached: somewhere a source runs into one. */
  lemma CycleIsReached(held: Held, debtor: nat, c: seq<Key>) returns (xs: seq<nat>)
    requires Decomposed(held, debtor).Ok? && IsCycle(held.Arcs().edge, c)
    ensures Lasso(held.Arcs(), debtor, xs)
  {
    hide Decomposed, Held.Arcs, IsRoute, Thread, Lasso;
    assert Get(held.Arcs().edge, c[0]) > 0;
    var p, i := OnSomeRoute(held, debtor, c[0]);
    var ts := RouteThread(held.Arcs(), debtor, p, i);
    ThreadEnds(held.Arcs(), debtor, ts);
    xs := FollowCycle(held, debtor, c, 0, ts);
  }

  lemma ThreadEnds(a: Arcs, debtor: nat, xs: seq<nat>)
    requires Thread(a, debtor, xs)
    ensures xs != [] && xs[|xs| - 1] in xs
  {
  }

  // --------------------------------------------------------------------- the theorem --

  /** The numbering a hold already has loses only what carries nothing. */
  lemma AsNumbered(held: Held)
    ensures Injective((v: nat) => v)
    ensures Same(held.Arcs(), Renumbered(held, (v: nat) => v).Arcs())
  {
    hide Held.Arcs, RenamedEdges, RenamedSupply, Renumbered;
    var pi := (v: nat) => v;
    RenumberedArcs(held, pi);
    var a := held.Arcs();
    forall k: Key ensures Get(a.edge, k) == Get(RenamedEdges(a.edge, pi), k) {
      RenamedAt(a, pi, k, 0);
    }
    forall u: nat ensures Get(a.supply, u) == Get(RenamedSupply(a.supply, pi), u) {
      RenamedAt(a, pi, (0, 0), u);
    }
  }

  lemma CycleOfSame(a: Arcs, b: Arcs, c: seq<Key>)
    requires Same(a, b) && IsCycle(a.edge, c)
    ensures IsCycle(b.edge, c)
  {
    forall i | 0 <= i < |c| ensures Get(b.edge, c[i]) > 0 {
      assert Get(a.edge, c[i]) > 0 && Get(a.edge, c[i]) <= Get(b.edge, c[i]);
    }
  }

  lemma LassoOfSame(a: Arcs, b: Arcs, debtor: nat, xs: seq<nat>)
    requires Same(a, b) && Lasso(a, debtor, xs)
    ensures Lasso(b, debtor, xs)
  {
    assert forall k :: Get(a.edge, k) == Get(b.edge, k);
    assert forall u :: Get(a.supply, u) == Get(b.supply, u);
    var x :| x in xs && Get(a.edge, (xs[|xs| - 1], x)) > 0;
    assert Get(b.edge, (xs[|xs| - 1], x)) > 0;
  }

  /** The numbering-free completeness of the decomposition: accepted however its accounts are numbered is what a conserved
      hold without cycles is, and nothing else is. */
  lemma AcceptedHoweverNumberedExactly(held: Held, debtor: nat)
    ensures AcceptedHoweverNumbered(held, debtor)
      <==> Acyclic(held.Arcs().edge) && IsFlow(held.Arcs(), debtor, Total(held.Arcs().supply))
  {
    hide Decomposed, Held.Arcs, IsFlow, Acyclic, Renumbered, Total, Lasso, Injective, Same;
    var a := held.Arcs();
    if Acyclic(a.edge) && IsFlow(a, debtor, Total(a.supply)) {
      forall pi: nat -> nat | Injective(pi) ensures Decomposed(Renumbered(held, pi), pi(debtor)).Ok? {
        RenamedAccepted(held, debtor, pi);
      }
    } else if AcceptedHoweverNumbered(held, debtor) {
      AsNumbered(held);
      var same := Renumbered(held, (v: nat) => v);
      assert Decomposed(same, debtor).Ok?;
      if !IsFlow(same.Arcs(), debtor, Total(same.Arcs().supply)) {
        NotConservedRefused(same, debtor);
      }
      FlowOfSame(a, same.Arcs(), debtor, Total(same.Arcs().supply));
      AmountIsSupply(a, debtor, Total(same.Arcs().supply));
      var c := SomeCycle(a.edge);
      CycleOfSame(a, same.Arcs(), c);
      var xs := CycleIsReached(same, debtor, c);
      SameBack(a, same.Arcs());
      LassoOfSame(same.Arcs(), a, debtor, xs);
      LassoRefused(held, debtor, xs);
    }
  }

  lemma SameBack(a: Arcs, b: Arcs)
    requires Same(a, b)
    ensures Same(b, a)
  {
  }

  lemma SomeCycle(e: map<Key, nat>) returns (c: seq<Key>)
    requires !Acyclic(e)
    ensures IsCycle(e, c)
  {
    c :| IsCycle(e, c);
  }

  lemma RenamedAccepted(held: Held, debtor: nat, pi: nat -> nat)
    requires Injective(pi) && Acyclic(held.Arcs().edge)
    requires IsFlow(held.Arcs(), debtor, Total(held.Arcs().supply))
    ensures Decomposed(Renumbered(held, pi), pi(debtor)).Ok?
  {
    hide Decomposed, Held.Arcs, IsFlow, Acyclic, Renumbered, Total, RenamedEdges, RenamedSupply;
    var a := held.Arcs();
    RenumberedArcs(held, pi);
    RenamedAcyclic(a.edge, pi);
    RenamedFlow(a, pi, debtor, Total(a.supply));
    AmountIsSupply(Arcs(RenamedEdges(a.edge, pi), RenamedSupply(a.supply, pi)), pi(debtor), Total(a.supply));
    AcyclicAcceptedExactly(Renumbered(held, pi), pi(debtor));
  }
}
