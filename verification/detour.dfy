/** Where shortest routes share an edge: an amount that fits on them, drawn over a longer one all the same. */
module Detour {
  import opened Arithmetic
  import opened Wrappers
  import opened Sums
  import opened Ordered
  import opened Cuts
  import opened Residual
  import opened Augmenting
  import opened Layout
  import opened MaxFlow
  import opened Networks
  import opened Drawn
  import opened Priority
  import opened Legs
  import opened Books
  import Routes
  import opened Drawing
  import opened Nearest
  import Adjacency

  // Two underwriters 0 and 1, and an account 5 that 2 and 3 back: 0 backs both, 1 backs 2, and 3 only the long way, over 4.
  // From 5 on, a chain of m edges to the debtor. Two units fit on the shortest routes, 0-3-5 and 1-2-5; but of those the first
  // laid is 0-2-5, and with it gone what is left of 1 goes round by 4.

  function Core(): map<Key, nat> {
    map[(0, 2) := 1, (0, 3) := 1, (1, 2) := 1, (1, 4) := 1, (2, 5) := 1, (3, 5) := 1, (4, 3) := 1]
  }

  function Ways(m: nat): map<Key, nat> {
    if m == 0 then Core() else Ways(m - 1)[(4 + m, 5 + m) := 2]
  }

  function Lenders(): seq<(nat, nat)> {
    [(0, 1), (1, 1)]
  }

  ghost function Laid(m: nat): Arcs {
    Arcs(Ways(m), map[0 := 1, 1 := 1])
  }

  lemma {:induction false} WaysAt(m: nat, k: Key)
    ensures k in Ways(m) <==> k in Core() || (5 <= k.0 < 5 + m && k.1 == k.0 + 1)
    ensures Get(Ways(m), k) == if k in Core() then 1 else if k in Ways(m) then 2 else 0
  {
    if m > 0 {
      WaysAt(m - 1, k);
    }
  }

  /** From 5 to the debtor. */
  function Chain(m: nat): (c: seq<nat>)
    ensures |c| == m + 1 && forall i :: 0 <= i <= m ==> c[i] == 5 + i
  {
    seq(m + 1, i => 5 + i)
  }

  lemma ShortWay(m: nat, a: nat, b: nat)
    requires (a, b) in Core() && (b, 5) in Core() && a < 2
    ensures FreeRoute(Laid(m), 5 + m, [a, b] + Chain(m))
  {
    var r := [a, b] + Chain(m);
    forall i | 0 <= i < |r| - 1 ensures Get(Ways(m), Leg(r, i)) > 0 {
      WaysAt(m, Leg(r, i));
    }
  }

  lemma LongWay(m: nat)
    ensures FreeRoute(Laid(m), 5 + m, [1, 4, 3] + Chain(m))
  {
    var r := [1, 4, 3] + Chain(m);
    forall i | 0 <= i < |r| - 1 ensures Get(Ways(m), Leg(r, i)) > 0 {
      WaysAt(m, Leg(r, i));
    }
  }

  // ------------------------------------------------------------- how long a route must be --

  function Depth(x: nat): nat {
    if x < 2 then 1 else if x < 5 then 2 else x - 2
  }

  /** No leg gains more than one, and the one from 4 to 3 nothing. */
  lemma {:induction false} RouteDepth(m: nat, r: seq<nat>, i: nat)
    requires FreeRoute(Laid(m), 5 + m, r) && i < |r|
    ensures Depth(r[i]) <= i + 1
    ensures (exists j :: 0 <= j < i && Leg(r, j) == (4, 3)) ==> Depth(r[i]) <= i
    decreases i
  {
    if i > 0 {
      RouteDepth(m, r, i - 1);
      WaysAt(m, Leg(r, i - 1));
      assert Get(Ways(m), Leg(r, i - 1)) > 0;
    }
  }

  lemma RouteLong(m: nat, r: seq<nat>)
    requires FreeRoute(Laid(m), 5 + m, r)
    ensures |r| >= 3 + m && (Uses(r, (4, 3)) ==> |r| >= 4 + m)
  {
    RouteDepth(m, r, |r| - 1);
  }

  lemma ShortWays(m: nat, a: nat, b: nat)
    requires (a, b) in Core() && (b, 5) in Core() && a < 2
    ensures Shortest(Laid(m), 5 + m, [a, b] + Chain(m))
  {
    hide FreeRoute;
    ShortWay(m, a, b);
    forall q | FreeRoute(Laid(m), 5 + m, q) ensures 3 + m <= |q| {
      RouteLong(m, q);
    }
  }

  lemma LongWayRound(m: nat)
    ensures !OnShortest(Laid(m), 5 + m, (4, 3))
  {
    hide FreeRoute, Uses;
    ShortWay(m, 0, 2);
    forall r | Shortest(Laid(m), 5 + m, r) ensures !Uses(r, (4, 3)) {
      RouteLong(m, r);
    }
  }

  /** Of the shortest routes none goes by lower ids than 0-2-5. */
  lemma FirstWay(m: nat, r: seq<nat>)
    requires FreeRoute(Laid(m), 5 + m, r)
    ensures !Nearer(r, [0, 2] + Chain(m))
  {
    var f := [0, 2] + Chain(m);
    RouteLong(m, r);
    forall i | 0 <= i < |r| && i < |f| && r[..i] == f[..i] ensures r[i] >= f[i] {
      if i > 0 {
        SamePrefix(r, f, i - 1, i);
        WaysAt(m, Leg(r, i - 1));
        assert Get(Ways(m), Leg(r, i - 1)) > 0;
      }
    }
  }

  // ------------------------------------------------------------- what the first unit leaves --

  /** How far each account is from the source once a unit runs over 0-2-5; 0 and 4 lie off every shortest way by then. */
  function Level(x: nat): nat {
    if x == 1 then 1 else if x < 3 || x == 4 then 2 else if x == 3 then 3 else x - 1
  }

  ghost function LevelsOf(plan: Plan, m: nat): (level: seq<int>)
    ensures |level| == |plan.ids| + 2 && level[|plan.ids|] == 0 && level[|plan.ids| + 1] == 5 + m
    ensures forall j :: 0 <= j < |plan.ids| ==> level[j] == Level(plan.ids[j])
  {
    seq(|plan.ids|, j requires 0 <= j < |plan.ids| => Level(plan.ids[j])) + [0, 5 + m]
  }

  ghost predicate OnWays(plan: Plan, w: Wires, pairs: seq<Pair>, was: seq<nat>, m: nat) {
    && Built(plan, w, pairs, was, Laid(m), {5 + m}) && plan.targets == [5 + m] && |w.out| == |plan.ids| + 2
    && Known(plan, [0, 2] + Chain(m))
  }

  /** The room left once one unit runs over 0-2-5 and on to the debtor. */
  ghost function Left(plan: Plan, was: seq<nat>, m: nat): seq<nat>
    requires Known(plan, [0, 2] + Chain(m))
  {
    Along(was, ArcsOf(plan, [0, 2] + Chain(m)), 1)
  }

  lemma Spent(plan: Plan, was: seq<nat>, m: nat, a: nat)
    requires Known(plan, [0, 2] + Chain(m)) && a < |was|
    ensures |Left(plan, was, m)| == |was| && Left(plan, was, m)[a] >= Minus(was[a], 1)
    ensures a in ArcsOf(plan, [0, 2] + Chain(m)) ==> Left(plan, was, m)[a] == Minus(was[a], 1)
    ensures a !in ArcsOf(plan, [0, 2] + Chain(m)) ==> Left(plan, was, m)[a] >= was[a]
  {
    hide ArcsOf, Known;
  }

  /** One pair: neither of its arcs with room climbs more than a level. */
  lemma PairClimbs(plan: Plan, w: Wires, pairs: seq<Pair>, was: seq<nat>, m: nat, i: nat)
    requires OnWays(plan, w, pairs, was, m) && i < plan.Count() == |pairs|
    ensures var level := LevelsOf(plan, m);
      && |Left(plan, was, m)| == |was| == 2 * plan.Count() && pairs[i].from < |level| && pairs[i].into < |level|
      && level[pairs[i].from] >= 0 && level[pairs[i].into] >= 0
      && level[pairs[i].from] <= level[pairs[i].into] + 1
      && (Left(plan, was, m)[2 * i] > 0 ==> level[pairs[i].into] <= level[pairs[i].from] + 1)
  {
    hide Built, Known, ArcsOf, Left, HasKey, Wired, Elements, Distinct, Uses;
    var first := [0, 2] + Chain(m);
    CountSize(plan, w, pairs, was, Laid(m), {5 + m});
    PairEnds(plan, w, pairs, was, Laid(m), {5 + m}, i);
    Spent(plan, was, m, 2 * i);
    if i < |plan.keys| {
      KeyEnds(plan, w, pairs, was, Laid(m), {5 + m}, i);
      WaysAt(m, plan.keys[i]);
      KeyOnRoute(plan, first, i);
      if plan.keys[i] == (2, 5) {
        FirstLegsAre(m);
      }
    } else if i < |plan.keys| + |plan.lenders| {
      LenderEnds(plan, w, pairs, was, Laid(m), {5 + m}, i - |plan.keys|);
      LenderOnRoute(plan, first, i - |plan.keys|);
    } else {
      SinkEnds(plan, w, pairs, was, Laid(m), {5 + m}, i - |plan.keys| - |plan.lenders|);
    }
  }

  lemma FirstLegsAre(m: nat)
    ensures Uses([0, 2] + Chain(m), (0, 2)) && Uses([0, 2] + Chain(m), (2, 5))
    ensures !Uses([0, 2] + Chain(m), (1, 4)) && !Uses([0, 2] + Chain(m), (4, 3)) && !Uses([0, 2] + Chain(m), (3, 5))
  {
    var r := [0, 2] + Chain(m);
    assert Leg(r, 0) == (0, 2) && Leg(r, 1) == (2, 5);
  }

  lemma LeftLayered(plan: Plan, w: Wires, pairs: seq<Pair>, was: seq<nat>, m: nat)
    requires OnWays(plan, w, pairs, was, m)
    ensures Layered(w, Left(plan, was, m), LevelsOf(plan, m))
  {
    hide Built, Known, Left, Wired, Tail, Elements, Distinct;
    CountSize(plan, w, pairs, was, Laid(m), {5 + m});
    var level, left := LevelsOf(plan, m), Left(plan, was, m);
    assert |left| == |was| by { LeftSize(plan, was, m); }
    forall a | 0 <= a < |w.to| && left[a] > 0 && level[Tail(w, a)] >= 0
      ensures w.to[a] < |level| && 0 <= level[w.to[a]] <= level[Tail(w, a)] + 1
    {
      var i := ArcOfPair(a, plan.Count());
      PairEnds(plan, w, pairs, was, Laid(m), {5 + m}, i);
      PairClimbs(plan, w, pairs, was, m, i);
    }
  }

  lemma LeftSize(plan: Plan, was: seq<nat>, m: nat)
    requires Known(plan, [0, 2] + Chain(m))
    ensures |Left(plan, was, m)| == |was|
  {
    hide ArcsOf, Known;
  }

  /** With a unit over 0-2-5, the long way round still has room. */
  lemma LongWayOpen(plan: Plan, w: Wires, pairs: seq<Pair>, was: seq<nat>, m: nat)
    requires OnWays(plan, w, pairs, was, m)
    ensures Known(plan, [1, 4, 3] + Chain(m)) && Route(w, Left(plan, was, m), ArcsOf(plan, [1, 4, 3] + Chain(m)))
    ensures |ArcsOf(plan, [1, 4, 3] + Chain(m))| == 5 + m
  {
    hide Built, Known, Left, Wired, Tail, Elements, Distinct, ArcsOf, Route, FreeRoute;
    var r, left := [1, 4, 3] + Chain(m), Left(plan, was, m);
    CountSize(plan, w, pairs, was, Laid(m), {5 + m});
    LongWay(m);
    LegsRoute(plan, w, pairs, was, Laid(m), 5 + m, r);
    ArcsOfSize(plan, r);
    LeftSize(plan, was, m);
    var p := ArcsOf(plan, r);
    forall j | 0 <= j < |p| ensures p[j] < |was| && left[p[j]] > 0 {
      LongArcOpen(plan, w, pairs, was, m, j);
    }
    RouteSizes(w, was, p);
    forall j | 0 <= j < |p| ensures p[j] < |left| && left[p[j]] > 0 && Tail(w, p[j]) == Node(w, p, j) {
      RouteAt(w, was, p, j);
    }
    Joins(w, left, p);
  }

  lemma LongArcOpen(plan: Plan, w: Wires, pairs: seq<Pair>, was: seq<nat>, m: nat, j: nat)
    requires OnWays(plan, w, pairs, was, m) && Known(plan, [1, 4, 3] + Chain(m)) && j < |ArcsOf(plan, [1, 4, 3] + Chain(m))|
    ensures ArcsOf(plan, [1, 4, 3] + Chain(m))[j] < |was| == |Left(plan, was, m)|
    ensures Left(plan, was, m)[ArcsOf(plan, [1, 4, 3] + Chain(m))[j]] > 0
  {
    hide Built, Left, Wired, Tail, Elements, Distinct, HasKey, Uses, Known;
    var r, first := [1, 4, 3] + Chain(m), [0, 2] + Chain(m);
    LongEnds(m);
    LegArc(plan, w, pairs, was, Laid(m), 5 + m, r, j);
    CountSize(plan, w, pairs, was, Laid(m), {5 + m});
    var a := ArcsOf(plan, r)[j];
    Spent(plan, was, m, a);
    LeftSize(plan, was, m);
    FirstLegsAre(m);
    if j == 0 {
      LenderOnRoute(plan, first, LenderIndex(plan, 1));
    } else if j < |r| {
      var k := Leg(r, j - 1);
      WaysAt(m, k);
      if k in Core() {
        KeyOnRouteAt(plan, r, j - 1);
        KeyOnRoute(plan, first, KeyIndex(plan, k.0, k.1));
      }
    }
  }

  lemma LongEnds(m: nat)
    ensures var r := [1, 4, 3] + Chain(m); |r| == 4 + m && r[|r| - 1] == 5 + m && r[0] == 1
    ensures var r := [1, 4, 3] + Chain(m); forall j :: 0 <= j < |r| - 1 ==>
      (Leg(r, j) in Core() <==> j < 3) && (j < 3 ==> Leg(r, j) in {(1, 4), (4, 3), (3, 5)}) && Leg(r, j) in Ways(m)
  {
    var r := [1, 4, 3] + Chain(m);
    forall j | 0 <= j < |r| - 1
      ensures (Leg(r, j) in Core() <==> j < 3) && (j < 3 ==> Leg(r, j) in {(1, 4), (4, 3), (3, 5)}) && Leg(r, j) in Ways(m)
    {
      WaysAt(m, Leg(r, j));
    }
  }

  ghost function Shared(plan: Plan): (i: nat)
    requires HasKey(plan, 0, 2)
    ensures i < |plan.keys| && plan.keys[i] == (0, 2)
  {
    KeyIndex(plan, 0, 2)
  }

  lemma SharedArc(plan: Plan, w: Wires, pairs: seq<Pair>, was: seq<nat>, m: nat)
    requires OnWays(plan, w, pairs, was, m)
    ensures HasKey(plan, 0, 2) && 2 * Shared(plan) + 1 < |was| == |w.to| == |Left(plan, was, m)|
    ensures was[2 * Shared(plan)] == 1 && was[2 * Shared(plan) + 1] == 0
    ensures Left(plan, was, m)[2 * Shared(plan)] == 0 && Left(plan, was, m)[2 * Shared(plan) + 1] == 1
    ensures w.to[2 * Shared(plan) + 1] < |plan.ids| && plan.ids[w.to[2 * Shared(plan) + 1]] == 0
    ensures Tail(w, 2 * Shared(plan) + 1) < |plan.ids| && plan.ids[Tail(w, 2 * Shared(plan) + 1)] == 2
  {
    hide Built, Wired, Tail, Elements, Distinct, HasKey, Uses, Known, ArcsOf, Left;
    var first := [0, 2] + Chain(m);
    CountSize(plan, w, pairs, was, Laid(m), {5 + m});
    FirstLegsAre(m);
    KeyOnRouteAt(plan, first, 0);
    var i := Shared(plan);
    PairEnds(plan, w, pairs, was, Laid(m), {5 + m}, i);
    KeyEnds(plan, w, pairs, was, Laid(m), {5 + m}, i);
    WaysAt(m, (0, 2));
    KeyOnRoute(plan, first, i);
    Spent(plan, was, m, 2 * i);
    LeftBack(plan, was, m, i);
  }

  lemma LeftBack(plan: Plan, was: seq<nat>, m: nat, i: nat)
    requires Known(plan, [0, 2] + Chain(m)) && 2 * i + 1 < |was| && was[2 * i + 1] == 0
    ensures |Left(plan, was, m)| == |was|
    ensures Left(plan, was, m)[2 * i + 1] == if 2 * i in ArcsOf(plan, [0, 2] + Chain(m)) then 1 else 0
  {
    hide Known, ArcsOf;
    BackAlong(plan, [0, 2] + Chain(m), was, 1, i);
  }

  /** The second unit leaves the edge from 0 to 2 as it is, either way. */
  lemma SecondPasses(plan: Plan, w: Wires, pairs: seq<Pair>, was: seq<nat>, m: nat, p: seq<nat>)
    requires OnWays(plan, w, pairs, was, m) && First(w, Left(plan, was, m), p)
    ensures HasKey(plan, 0, 2) && 2 * Shared(plan) !in p && 2 * Shared(plan) + 1 !in p
  {
    hide Built, Known, Left, Wired, Tail, Elements, Distinct, ArcsOf, Route, HasKey, Layered, Node, OnWires;
    SharedArc(plan, w, pairs, was, m);
    LongWayOpen(plan, w, pairs, was, m);
    FirstShortest(w, Left(plan, was, m), p, ArcsOf(plan, [1, 4, 3] + Chain(m)));
    LeftLayered(plan, w, pairs, was, m);
    var level, left := LevelsOf(plan, m), Left(plan, was, m);
    CountSize(plan, w, pairs, was, Laid(m), {5 + m});
    RouteInside(w, left, p);
    RouteEnds(w, left, level, p);
    RouteClimbs(w, left, level, p, |p|);
    forall j | 0 <= j < |p| ensures p[j] != 2 * Shared(plan) && p[j] != 2 * Shared(plan) + 1 {
      RouteAt(w, left, p, j);
      RouteTight(w, left, level, p, j);
      RouteTight(w, left, level, p, j + 1);
    }
  }

  /** The first unit runs over 0-2-5. */
  lemma FirstUnit(plan: Plan, w: Wires, pairs: seq<Pair>, was: seq<nat>, now: seq<nat>, m: nat)
    requires OnWays(plan, w, pairs, was, m) && Sorted(plan.keys, KeyLess) && Sorted(plan.lenders, IdLess)
    requires Reaches(w, Search(was, 2), Search(now, 0))
    ensures First(w, was, ArcsOf(plan, [0, 2] + Chain(m)))
    ensures Step(w, Search(was, 2)) == Search(Left(plan, was, m), 1)
  {
    hide Built, Known, Wired, Elements, Distinct, ArcsOf, Sorted, First, FreeRoute, Nearer, Reaches, Along, Step, Over, Bottleneck,
         Fits, OnWires;
    var first := [0, 2] + Chain(m);
    var p := SomeFirst(w, was, now, 2);
    var r := FirstLegs(plan, w, pairs, was, Laid(m), 5 + m, p);
    FirstWay(m, r);
    ShortWay(m, 0, 2);
    assert r == first;
    UnitFits(m);
    RouteCarries(plan, w, pairs, was, Laid(m), 5 + m, first, 1);
    LegArc(plan, w, pairs, was, Laid(m), 5 + m, first, 0);
    ArcsOfSize(plan, first);
    StepTakes(w, Search(was, 2), p);
    OneOfTwo(was, p);
  }

  lemma UnitFits(m: nat)
    ensures Fits(Laid(m), [0, 2] + Chain(m), 1)
  {
    var r := [0, 2] + Chain(m);
    forall i | 0 <= i < |r| - 1 ensures 1 <= Get(Ways(m), Leg(r, i)) {
      WaysAt(m, Leg(r, i));
    }
  }

  lemma OneOfTwo(cap: seq<nat>, p: seq<nat>)
    requires p != [] && (forall j :: 0 <= j < |p| ==> p[j] < |cap|)
    requires cap[p[0]] == 1 && Carries(cap, p, 1) == 1
    ensures Carries(cap, p, 2) == 1
  {
    hide Bottleneck;
  }

  lemma UnitCarried(w: Wires, cap: seq<nat>, p: seq<nat>)
    requires First(w, cap, p)
    ensures OnWires(w, p) && |cap| == |w.to| && Carries(cap, p, 1) == 1
  {
    hide Wired, Sooner, Bottleneck;
    RouteNotEmpty(w, cap, p);
  }

  lemma OffRoute(cap: seq<nat>, p: seq<nat>, i: nat)
    requires 2 * i + 1 < |cap| && 2 * i !in p && 2 * i + 1 !in p
    ensures |Along(cap, p, 1)| == |cap| && Along(cap, p, 1)[2 * i + 1] == cap[2 * i + 1]
  {
  }

  /** So the whole search leaves a unit on the edge from 0 to 2. */
  lemma SharedDrawn(plan: Plan, w: Wires, pairs: seq<Pair>, was: seq<nat>, now: seq<nat>, m: nat)
    requires OnWays(plan, w, pairs, was, m) && Sorted(plan.keys, KeyLess) && Sorted(plan.lenders, IdLess)
    requires Reaches(w, Search(was, 2), Search(now, 0))
    ensures HasKey(plan, 0, 2) && |now| == |was| && 2 * Shared(plan) + 1 < |now| && now[2 * Shared(plan) + 1] == 1
  {
    hide Built, Known, Wired, Elements, Distinct, Sorted, First, Reaches, Along, Step, Bottleneck, Left, OnWires, HasKey, ArcsOf;
    FirstUnit(plan, w, pairs, was, now, m);
    SharedArc(plan, w, pairs, was, m);
    var left := Left(plan, was, m);
    ReachesStep(w, Search(was, 2));
    assert !Over(w, Search(left, 1)) by {
      if Over(w, Search(left, 1)) {
        OneEnd(w, Search(was, 2), Search(left, 1), Search(now, 0));
      }
    }
    var p := Next(w, left);
    UnitCarried(w, left, p);
    StepTakes(w, Search(left, 1), p);
    SecondPasses(plan, w, pairs, was, m, p);
    OffRoute(left, p, Shared(plan));
    ReachesStep(w, Search(left, 1));
    ReachesOn(w, Search(was, 2), Search(left, 1), Search(Along(left, p, 1), 0));
    OneEnd(w, Search(was, 2), Search(Along(left, p, 1), 0), Search(now, 0));
  }

  // ------------------------------------------------------------- what that makes of the rest --

  lemma SumOfTwo(s: set<Key>, f: Key -> int, a: Key, b: Key)
    requires a != b && (forall k :: k != a && k != b ==> f(k) == 0) && (a !in s ==> f(a) == 0) && (b !in s ==> f(b) == 0)
    ensures Sum(s, f) == f(a) + f(b)
  {
    var t := s + {a, b};
    SumSubset(s, t, f);
    SumRemove(t, f, a);
    SumRemove(t - {a}, f, b);
    SumZero(t - {a} - {b}, f);
  }

  /** h stays on the ways: nothing off them, one unit from each lender. */
  ghost predicate Fitting(h: Arcs, m: nat) {
    && (forall u :: Get(h.supply, u) <= if u < 2 then 1 else 0)
    && (forall k :: Get(h.edge, k) > 0 ==> k in Ways(m)) && (forall k :: k in Core() ==> Get(h.edge, k) <= 1)
  }

  lemma LeqFits(h: Arcs, m: nat)
    requires Leq(h, Laid(m))
    ensures Fitting(h, m)
  {
    hide Ways;
    forall k ensures Get(h.edge, k) > 0 ==> k in Ways(m)
             ensures k in Core() ==> Get(h.edge, k) <= 1
    {
      WaysAt(m, k);
    }
  }

  lemma FittingEdge(h: Arcs, m: nat, k: Key)
    requires Fitting(h, m) && Get(h.edge, k) > 0
    ensures k.0 < 5 ==> k in {(0, 2), (0, 3), (1, 2), (1, 4), (2, 5), (3, 5), (4, 3)}
    ensures k.0 >= 5 ==> k.1 == k.0 + 1 && k.0 < 5 + m
  {
    hide Ways;
    WaysAt(m, k);
  }

  lemma NetZero(h: Arcs, debtor: nat, amount: nat, v: nat)
    requires IsFlow(h, debtor, amount) && v != debtor
    ensures Into(h.edge, {v}) - OutOf(h.edge, {v}) + SuppliedTo(h.supply, {v}) == 0
  {
    assert NetInto(h, {v}) == 0;
  }

  lemma IntoTail(h: Arcs, m: nat)
    requires IsFlow(h, 5 + m, 2) && Fitting(h, m)
    ensures Get(h.edge, (2, 5)) + Get(h.edge, (3, 5)) == 2
  {
    hide Sum, IsFlow, Fitting;
    var D := Elements(Chain(m));
    forall x: nat ensures x in D <==> 5 <= x <= 5 + m {
      InChain(m, x);
    }
    FlowAcross(h, 5 + m, 2, D);
    forall k ensures k != (2, 5) && k != (3, 5) ==> InTerm(h.edge, D)(k) == 0
             ensures OutTerm(h.edge, D)(k) == 0
    {
      if Get(h.edge, k) > 0 {
        FittingEdge(h, m, k);
      }
    }
    SumOfTwo(h.edge.Keys, InTerm(h.edge, D), (2, 5), (3, 5));
    SumZero(h.edge.Keys, OutTerm(h.edge, D));
    NoSupplyAbove(h, m, D);
  }

  lemma InChain(m: nat, x: nat)
    ensures x in Elements(Chain(m)) <==> 5 <= x <= 5 + m
  {
    if 5 <= x <= 5 + m {
      assert Chain(m)[x - 5] == x;
    }
  }

  lemma NoSupplyAbove(h: Arcs, m: nat, D: set<nat>)
    requires Fitting(h, m) && forall x :: x in D ==> x >= 2
    ensures SuppliedTo(h.supply, D) == 0
  {
    hide Ways;
    SumZero(h.supply.Keys, SupplyTerm(h.supply, D));
  }

  lemma AtThree(h: Arcs, m: nat)
    requires IsFlow(h, 5 + m, 2) && Fitting(h, m)
    ensures Get(h.edge, (0, 3)) + Get(h.edge, (4, 3)) == Get(h.edge, (3, 5))
  {
    hide Sum, IsFlow, Fitting;
    NetZero(h, 5 + m, 2, 3);
    forall k ensures k != (0, 3) && k != (4, 3) ==> InTerm(h.edge, {3})(k) == 0
             ensures k != (3, 5) ==> OutTerm(h.edge, {3})(k) == 0
    {
      if Get(h.edge, k) > 0 {
        FittingEdge(h, m, k);
      }
    }
    SumOfTwo(h.edge.Keys, InTerm(h.edge, {3}), (0, 3), (4, 3));
    SumOfTwo(h.edge.Keys, OutTerm(h.edge, {3}), (3, 5), (3, 4));
    NoSupplyAbove(h, m, {3});
  }

  lemma AtZero(h: Arcs, m: nat)
    requires IsFlow(h, 5 + m, 2) && Fitting(h, m)
    ensures Get(h.edge, (0, 2)) + Get(h.edge, (0, 3)) <= 1
  {
    hide Sum, IsFlow, Fitting;
    NetZero(h, 5 + m, 2, 0);
    forall k ensures InTerm(h.edge, {0})(k) == 0
             ensures k != (0, 2) && k != (0, 3) ==> OutTerm(h.edge, {0})(k) == 0
    {
      if Get(h.edge, k) > 0 {
        FittingEdge(h, m, k);
      }
    }
    SumZero(h.edge.Keys, InTerm(h.edge, {0}));
    SumOfTwo(h.edge.Keys, OutTerm(h.edge, {0}), (0, 2), (0, 3));
    SuppliedOne(h.supply, 0);
    OneEach(h, m, 0);
  }

  lemma OneEach(h: Arcs, m: nat, k: nat)
    requires Fitting(h, m)
    ensures Get(h.supply, k) <= 1 && Get(h.edge, (3, 5)) <= 1 && Get(h.edge, (2, 5)) <= 1
  {
    hide Ways;
  }

  /** Two units leave for 5 on, so 3 sends one of them; it gets none from 0, whose one went to 2. */
  lemma RoundBy4(h: Arcs, m: nat)
    requires Leq(h, Laid(m)) && IsFlow(h, 5 + m, 2) && Get(h.edge, (0, 2)) == 1
    ensures Get(h.edge, (4, 3)) == 1
  {
    hide IsFlow, Leq, Fitting;
    LeqFits(h, m);
    IntoTail(h, m);
    AtThree(h, m);
    AtZero(h, m);
    OneEach(h, m, 0);
  }

  // ------------------------------------------------------------- two units on the shortest ways --

  function LegsOver(a: nat, b: nat, m: nat): seq<Key> {
    var r := [a, b] + Chain(m);
    seq(|r| - 1, i requires 0 <= i < |r| - 1 => Leg(r, i))
  }

  /** A unit over a and b. */
  function Way(a: nat, b: nat, m: nat): Routes.Path {
    Routes.Path(a, LegsOver(a, b, m), 1)
  }

  lemma WayNode(a: nat, b: nat, m: nat, i: nat)
    requires i <= 2 + m
    ensures |LegsOver(a, b, m)| == 2 + m
    ensures Routes.NodeAt(a, LegsOver(a, b, m), i) == if i == 0 then a else if i == 1 then b else 3 + i
    ensures i < 2 + m ==> LegsOver(a, b, m)[i].0 == Routes.NodeAt(a, LegsOver(a, b, m), i)
  {
  }

  lemma WayIsRoute(a: nat, b: nat, m: nat)
    requires a < 2 && 2 <= b < 5
    ensures Routes.IsRoute(Way(a, b, m), 5 + m)
  {
    hide LegsOver;
    var arcs := LegsOver(a, b, m);
    WayNode(a, b, m, 2 + m);
    forall i | 0 <= i < |arcs| ensures arcs[i].0 == Routes.NodeAt(a, arcs, i) {
      WayNode(a, b, m, i);
    }
    forall i, j | 0 <= i < j <= |arcs| ensures Routes.NodeAt(a, arcs, i) != Routes.NodeAt(a, arcs, j) {
      WayNode(a, b, m, i);
      WayNode(a, b, m, j);
    }
  }

  lemma WayLegs(a: nat, b: nat, m: nat, k: Key)
    ensures k in LegsOver(a, b, m) <==> Uses([a, b] + Chain(m), k)
    ensures k in LegsOver(a, b, m) <==> k == (a, b) || k == (b, 5) || (5 <= k.0 < 5 + m && k.1 == k.0 + 1)
  {
    var arcs, r := LegsOver(a, b, m), [a, b] + Chain(m);
    if k in arcs {
      var i :| 0 <= i < |arcs| && arcs[i] == k;
      assert Leg(r, i) == k;
    }
    if Uses(r, k) {
      var i :| 0 <= i < |r| - 1 && Leg(r, i) == k;
      assert arcs[i] == k;
    }
    if k == (a, b) {
      assert arcs[0] == k;
    } else if k == (b, 5) {
      assert arcs[1] == k;
    } else if 5 <= k.0 < 5 + m && k.1 == k.0 + 1 {
      assert arcs[k.0 - 3] == k;
    }
  }

  /** One unit over 0-3-5 and one over 1-2-5. */
  function Both(m: nat): Arcs {
    Arcs(map k | k in LegsOver(0, 3, m) + LegsOver(1, 2, m) ::
           (if k in LegsOver(0, 3, m) then 1 else 0) + (if k in LegsOver(1, 2, m) then 1 else 0),
         map[0 := 1, 1 := 1])
  }

  lemma BothFlow(m: nat)
    ensures IsFlow(Both(m), 5 + m, 2)
  {
    hide IsFlow, LegsOver;
    WayIsRoute(0, 3, m);
    WayIsRoute(1, 2, m);
    Routes.RouteIsFlow(Way(0, 3, m), 5 + m);
    Routes.RouteIsFlow(Way(1, 2, m), 5 + m);
    FlowsAdd(Both(m), Routes.RouteArcs(Way(0, 3, m)), Routes.RouteArcs(Way(1, 2, m)), 5 + m, 1, 1);
  }

  lemma BothFit(m: nat)
    ensures Leq(Both(m), Laid(m))
  {
    hide LegsOver;
    forall k ensures Get(Both(m).edge, k) <= Get(Ways(m), k) {
      WaysAt(m, k);
      WayLegs(0, 3, m, k);
      WayLegs(1, 2, m, k);
    }
  }

  lemma BothShortest(m: nat)
    ensures ShortestOnly(Laid(m), 5 + m, Both(m))
  {
    hide LegsOver, Shortest, Uses;
    ShortWays(m, 0, 3);
    ShortWays(m, 1, 2);
    forall k | Get(Both(m).edge, k) > 0 ensures OnShortest(Laid(m), 5 + m, k) {
      WayLegs(0, 3, m, k);
      WayLegs(1, 2, m, k);
    }
    forall u | Get(Both(m).supply, u) > 0 ensures StartsShortest(Laid(m), 5 + m, u) {
      assert u == 0 || u == 1;
      assert ([0, 3] + Chain(m))[0] == 0 && ([1, 2] + Chain(m))[0] == 1;
    }
  }

  lemma TwoFit(m: nat)
    ensures FitsShortest(Laid(m), 5 + m, 2)
  {
    hide IsFlow, Leq, ShortestOnly;
    BothFlow(m);
    BothFit(m);
    BothShortest(m);
  }

  // ------------------------------------------------------------- the whole reservation --

  lemma {:induction false} WaysWithin(m: nat, k: Key)
    requires k in Ways(m)
    ensures k.0 < 6 + m && k.1 < 6 + m
  {
    WaysAt(m, k);
  }

  lemma LendersAre()
    ensures MapOf(Lenders()) == map[0 := 1, 1 := 1] && DistinctIds(Lenders()) && Sorted(Firsts(Lenders()), IdLess)
    ensures Total(MapOf(Lenders())) == 2
  {
    var es := Lenders();
    assert Firsts(es) == [0, 1];
    assert es[..1] == [(0, 1)] && es[..1][..0] == es[..0];
    TotalOfTwo();
  }

  lemma TotalOfTwo()
    ensures Total(map[0 := 1, 1 := 1]) == 2
  {
    TotalOfNothing();
    TotalWith(map[], 0, 1);
    TotalWith(map[0 := 1], 1, 1);
  }

  lemma LaidIsFree(m: nat)
    ensures Free(Ways(m), map[], map[], map[0 := 1, 1 := 1], {5 + m}, 6 + m, false) == Laid(m)
  {
    hide Ways;
    var edge, supply := FreeEdges(Ways(m), map[], 6 + m), FreeSupply(map[0 := 1, 1 := 1], map[], {5 + m}, 6 + m, false);
    forall k ensures (k in edge <==> k in Ways(m)) && (k in Ways(m) ==> edge[k] == Ways(m)[k]) {
      if k in Ways(m) {
        WaysWithin(m, k);
      }
    }
    assert edge == Ways(m);
    assert supply.Keys == {0, 1} && supply[0] == 1 && supply[1] == 1;
    assert supply == map[0 := 1, 1 := 1];
  }

  lemma WaysBuilt(plan: Plan, w: Wires, pairs: seq<Pair>, was: seq<nat>, tail: seq<nat>, m: nat)
    requires BuildsTo(plan, w, pairs, was, tail, Ways(m), map[], map[], Lenders(), [5 + m], 6 + m, false)
    ensures OnWays(plan, w, pairs, was, m) && Sorted(plan.keys, KeyLess) && Sorted(plan.lenders, IdLess)
  {
    hide Built, Known, Wired, Sorted, MapOf, DistinctIds, Total, FreeRoute, Free, KeptKeys, KeptLenders, EdgeEntries, Elements,
         Distinct, Adjacency.ByTail, Adjacency.TakesPart;
    LendersAre();
    LaidIsFree(m);
    BuildFor(plan, w, pairs, was, tail, Ways(m), map[], map[], Lenders(), 5 + m, 6 + m, false);
    PlanSorted(plan, Ways(m), Lenders(), {5 + m}, 6 + m, false);
    CountSize(plan, w, pairs, was, Laid(m), {5 + m});
    ShortWay(m, 0, 2);
    FreeIsKnown(plan, Laid(m), 5 + m, [0, 2] + Chain(m));
  }

  /** Whatever the length of the chain, the two units fit on the shortest routes and one is drawn over 4 all the same. */
  lemma GoesRound(m: nat, h: Held)
    requires Draws(Ways(m), map[], map[], Lenders(), 5 + m, 6 + m, 2, false, h)
    requires IsFlow(h.Arcs(), 5 + m, 2) && Leq(h.Arcs(), Laid(m))
    ensures FitsShortest(Laid(m), 5 + m, 2) && Shortest(Laid(m), 5 + m, [0, 2] + Chain(m))
    ensures Get(h.Arcs().edge, (4, 3)) == 1 && !ShortestOnly(Laid(m), 5 + m, h.Arcs())
  {
    hide BuildsTo, Searched, ReadsOff, PairsKept, Built, Sorted, MapOf, DistinctIds, Plan.Backward, Held.Arcs, IsFlow,
         Known, FitsShortest, Shortest, OnShortest, StartsShortest, HasKey, Reaches, Wired;
    TwoFit(m);
    ShortWays(m, 0, 2);
    LongWayRound(m);
    var plan: Plan, w: Wires, pairs: seq<Pair>, was: seq<nat>, tail: seq<nat>, now: seq<nat> :|
      && BuildsTo(plan, w, pairs, was, tail, Ways(m), map[], map[], Lenders(), [5 + m], 6 + m, false)
      && Searched(w, Search(was, 2), Search(now, 0)) && PairsKept(was, now) && ReadsOff(plan, was, now, h);
    WaysBuilt(plan, w, pairs, was, tail, m);
    SearchedReaches(w, Search(was, 2), Search(now, 0));
    SharedDrawn(plan, w, pairs, was, now, m);
    ReadOffIsBackward(plan, w, pairs, was, now, Laid(m), {5 + m}, h);
    ColumnKeys(plan, w, pairs, was, now, Laid(m), {5 + m});
    assert Get(plan.Backward(now).edge, plan.keys[Shared(plan)]) == now[2 * Shared(plan) + 1];
    RoundBy4(h.Arcs(), m);
  }

  function CoreKeys(): (ks: seq<Key>)
    ensures |ks| == 7 && Distinct(ks) && forall k :: k in ks <==> k in Core()
  {
    [(0, 2), (0, 3), (1, 2), (1, 4), (2, 5), (3, 5), (4, 3)]
  }

  function CoreUpTo(i: nat): map<Key, nat>
    requires i <= |CoreKeys()|
  {
    map k | k in CoreKeys()[..i] :: 1
  }

  lemma CoreStaked(i: nat)
    requires i < |CoreKeys()|
    ensures var k := CoreKeys()[i]; Staked(CoreUpTo(i), k.0, k.1, 1, 1) == CoreUpTo(i + 1) && k.0 != k.1
  {
    hide Distinct;
    var ks := CoreKeys();
    assert ks[..i + 1] == ks[..i] + [ks[i]];
    NotAgain(ks, i);
  }

  lemma NotAgain(ks: seq<Key>, i: nat)
    requires Distinct(ks) && i < |ks|
    ensures ks[i] !in ks[..i]
  {
  }

  lemma CoreDone()
    ensures CoreUpTo(7) == Ways(0) && CoreUpTo(0) == map[]
  {
    var ks := CoreKeys();
    assert ks[..7] == ks;
  }

  lemma ChainStaked(i: nat)
    ensures Staked(Ways(i), 5 + i, 6 + i, 2, 2) == Ways(i + 1)
  {
    WaysAt(i, (5 + i, 6 + i));
  }

  lemma TwoBelowCuts(m: nat, D: set<nat>)
    requires 5 + m in D
    ensures Cut(Laid(m), D) >= 2
  {
    hide IsFlow, Leq, Cut, Ways;
    BothFlow(m);
    BothFit(m);
    FlowBelowCut(Both(m), Laid(m), 5 + m, 2, D);
  }

  lemma RoomForTwo(m: nat)
    ensures State(Laid(m), NOTHING).Capacity({5 + m}, 6 + m, false) >= 2
  {
    hide Cut, Ways, FreeEdges, FreeSupply;
    LaidIsFree(m);
    var D := MinCutAttained(Laid(m), {5 + m});
    assert Inside({5 + m}, 6 + m) == {5 + m};
    TwoBelowCuts(m, D);
  }

  /** Staked and reserved step by step: for every length of the chain there is such a hold. */
  method Reserved(m: nat) returns (h: Held)
    ensures FitsShortest(Laid(m), 5 + m, 2) && Shortest(Laid(m), 5 + m, [0, 2] + Chain(m))
    ensures IsFlow(h.Arcs(), 5 + m, 2) && Leq(h.Arcs(), Laid(m))
    ensures Get(h.Arcs().edge, (4, 3)) == 1 && !ShortestOnly(Laid(m), 5 + m, h.Arcs())
  {
    hide Staked, CoreUpTo, CoreKeys, Ways, MapOf, Draws, IsFlow, Leq, Shortest, FitsShortest, ShortestOnly, OwnFirst, DirectFirst,
         State.Capacity, Total, DistinctIds, IsSum, Held.Tidy;
    LendersAre();
    var book := new Book(Lenders());
    CoreDone();
    for i := 0 to 7
      invariant fresh(book) && book.uw == Lenders() && book.View() == State(Arcs(CoreUpTo(i), MapOf(Lenders())), NOTHING)
    {
      CoreStaked(i);
      var k := CoreKeys()[i];
      book.Stake(k.0, k.1, 1, 1);
    }
    for i := 0 to m
      invariant fresh(book) && book.uw == Lenders() && book.View() == State(Arcs(Ways(i), MapOf(Lenders())), NOTHING)
    {
      ChainStaked(i);
      book.Stake(5 + i, 6 + i, 2, 2);
    }
    LaidIsFree(m);
    RoomForTwo(m);
    var r := book.Reserve(5 + m, 6 + m, 2, false);
    h := r.value;
    GoesRound(m, h);
  }
}
