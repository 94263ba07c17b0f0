/** A reservation that costs more than it takes: an earlier hold is never rerouted. */
module Rerouting {
  import opened Sums
  import opened Ordered
  import opened Cuts
  import opened Layout
  import opened Books
  import opened Runs
  import opened Routes
  import opened Legs
  import opened Drawing
  import Augmenting

  // An underwriter 0, two members 1 and 2 it backs, two more 3 and 4, and the debtor 5. Two unit routes, over 1 and 4 and
  // over 2 and 3, have only the arc from 1 to 3 between them; out of 1 it comes before the arc to 4 in key order.

  function Ladder(): map<Key, nat> {
    map[(0, 1) := 1, (0, 2) := 1, (1, 3) := 1, (1, 4) := 1, (2, 3) := 1, (3, 5) := 1, (4, 5) := 1]
  }

  function Rungs(): Arcs {
    Arcs(Ladder(), map[0 := 2])
  }

  function Upper(): Path {
    Path(0, [(0, 1), (1, 4), (4, 5)], 1)
  }

  function Lower(): Path {
    Path(0, [(0, 2), (2, 3), (3, 5)], 1)
  }

  /** From one route to the other, as long as either, and the first of the three in key order. */
  function Across(): Path {
    Path(0, [(0, 1), (1, 3), (3, 5)], 1)
  }

  function AcrossHold(): Held {
    Held([((0, 1), 1), ((1, 3), 1), ((3, 5), 1)], [(0, 1)])
  }

  lemma ThreeArcs(p: Path, a: Key, b: Key, c: Key)
    requires p.arcs == [a, b, c] && p.value == 1 && p.source == 0
    ensures RouteArcs(p) == Arcs(map[a := 1, b := 1, c := 1], map[0 := 1])
  {
    assert p.arcs[0] == a && p.arcs[1] == b && p.arcs[2] == c;
    assert forall k :: k in p.arcs <==> k in {a, b, c};
  }

  lemma RungsFlow(p: Path)
    requires p in [Upper(), Lower(), Across()]
    ensures IsFlow(RouteArcs(p), 5, 1)
  {
    assert IsRoute(Upper(), 5) && IsRoute(Lower(), 5) && IsRoute(Across(), 5);
    hide IsRoute, RouteArcs, IsFlow;
    RouteIsFlow(Upper(), 5);
    RouteIsFlow(Lower(), 5);
    RouteIsFlow(Across(), 5);
  }

  lemma AcrossArcs()
    ensures AcrossHold().Arcs() == RouteArcs(Across()) && AcrossHold().Tidy()
    ensures RouteArcs(Across()) == Arcs(map[(0, 1) := 1, (1, 3) := 1, (3, 5) := 1], map[0 := 1])
  {
    ThreeArcs(Across(), (0, 1), (1, 3), (3, 5));
    var es, h := AcrossHold().edges, AcrossHold();
    hide RouteArcs;
    assert MapOf(es[..1]) == MapOf(es[..1][..0])[(0, 1) := 1];
    assert es[..2][..1] == es[..1] && es[..3][..2] == es[..2] && es[..3] == es;
    assert MapOf(es[..2]) == MapOf(es[..1])[(1, 3) := 1];
    assert MapOf(es) == MapOf(es[..2])[(3, 5) := 1];
    assert MapOf(h.supply) == MapOf(h.supply[..0])[0 := 1];
  }

  /** On the pristine graph, the query sees the whole of it. */
  lemma RungsFree(own: bool)
    ensures State(Rungs(), NOTHING).Free({5}, 6, own) == Rungs()
  {
    hide State.Free;
    PristineFree(Rungs(), {5}, 6, own);
  }

  function Both(): Arcs {
    Arcs(map[(0, 1) := 1, (1, 4) := 1, (4, 5) := 1, (0, 2) := 1, (2, 3) := 1, (3, 5) := 1], map[0 := 2])
  }

  lemma BothRoutes()
    ensures IsFlow(Both(), 5, 2) && Leq(Both(), Rungs())
  {
    hide IsFlow, RouteArcs, Both, IsSum, Leq, Rungs, Upper, Lower;
    RungsFlow(Upper());
    RungsFlow(Lower());
    BothIsSum();
    BothFits();
    FlowsAdd(Both(), RouteArcs(Upper()), RouteArcs(Lower()), 5, 1, 1);
  }

  lemma BothIsSum()
    ensures IsSum(Both(), RouteArcs(Upper()), RouteArcs(Lower()))
  {
    hide RouteArcs, Ladder, Rungs;
    ThreeArcs(Upper(), (0, 1), (1, 4), (4, 5));
    ThreeArcs(Lower(), (0, 2), (2, 3), (3, 5));
    var upper, lower := RouteArcs(Upper()).edge, RouteArcs(Lower()).edge;
    assert Both().edge == upper + lower && upper.Keys !! lower.Keys;
  }

  lemma BothFits()
    ensures Leq(Both(), Rungs())
  {
    assert Both().edge == Ladder() - {(1, 3)};
    hide Both, Ladder;
  }

  /** Two units fit: one over each route. */
  lemma TwoFit(own: bool)
    ensures State(Rungs(), NOTHING).Capacity({5}, 6, own) == 2
  {
    hide MinCut, Cut;
    RungsFree(own);
    assert Inside({5}, 6) == {5};
    var D := MinCutAttained(Rungs(), {5});
    BothRoutes();
    FlowBelowCut(Both(), Rungs(), 5, 2, D);
    MinCutBelow(Rungs(), {5}, {0, 1, 2, 3, 4, 5});
    OnlySupply();
  }

  lemma OnlySupply()
    ensures Cut(Rungs(), {0, 1, 2, 3, 4, 5}) == 2
  {
    var D := {0, 1, 2, 3, 4, 5};
    var g := Rungs();
    SumZero(g.edge.Keys, InTerm(g.edge, D));
    SumRemove(g.supply.Keys, SupplyTerm(g.supply, D), 0);
    assert g.supply.Keys - {0} == {};
  }

  /** The book after the unit across. */
  lemma AcrossReserved(own: bool)
    ensures Reserves(State(Rungs(), NOTHING), State(Rungs(), AcrossHold().Arcs()), 5, 6, 1, own, AcrossHold())
  {
    hide IsFlow, RouteArcs, AcrossHold, State.Free, Held.Tidy, Held.Arcs, Rungs, Ladder, Across, Leq;
    RungsFlow(Across());
    RungsFree(own);
    AcrossArcs();
    AcrossFits();
    FirstReserves(Rungs(), 5, 6, 1, own, AcrossHold());
  }

  lemma AcrossFits()
    ensures Leq(RouteArcs(Across()), Rungs())
  {
    hide RouteArcs;
    ThreeArcs(Across(), (0, 1), (1, 3), (3, 5));
  }

  /** What the unit across leaves of the arcs it took. */
  lemma AcrossLeaves(own: bool)
    ensures var f := State(Rungs(), AcrossHold().Arcs()).Free({5}, 6, own);
      && Get(f.edge, (0, 1)) == 0 && Get(f.edge, (3, 5)) == 0
      && f.edge.Keys <= {(0, 1), (0, 2), (1, 3), (1, 4), (2, 3), (3, 5), (4, 5)}
      && f.supply.Keys <= {0}
  {
    hide AcrossHold, RouteArcs;
    AcrossArcs();
  }

  /** With the cut drawn around the debtor, 1 and 4, every arc into it is taken. */
  lemma NothingFits(own: bool)
    ensures State(Rungs(), AcrossHold().Arcs()).Capacity({5}, 6, own) == 0
  {
    hide State.Free, AcrossHold, Rungs, MinCut;
    var f := State(Rungs(), AcrossHold().Arcs()).Free({5}, 6, own);
    AcrossLeaves(own);
    assert Inside({5}, 6) == {5};
    MinCutBelow(f, {5}, {1, 4, 5});
    CapacityNonNegative(State(Rungs(), AcrossHold().Arcs()), {5}, 6, own);
    AllTaken(f);
  }

  lemma AllTaken(f: Arcs)
    requires Get(f.edge, (0, 1)) == 0 && Get(f.edge, (3, 5)) == 0
    requires f.edge.Keys <= {(0, 1), (0, 2), (1, 3), (1, 4), (2, 3), (3, 5), (4, 5)} && f.supply.Keys <= {0}
    ensures Cut(f, {1, 4, 5}) == 0
  {
    hide Sum;
    var D := {1, 4, 5};
    forall k | k in f.edge ensures InTerm(f.edge, D)(k) == 0 {
    }
    SumZero(f.edge.Keys, InTerm(f.edge, D));
    SumZero(f.supply.Keys, SupplyTerm(f.supply, D));
  }

  /** One unit reserved, and capacity falls by two: strictly more than the amount, under either reading. */
  lemma FallsByMore(own: bool)
    ensures Reserves(State(Rungs(), NOTHING), State(Rungs(), AcrossHold().Arcs()), 5, 6, 1, own, AcrossHold())
    ensures State(Rungs(), NOTHING).Capacity({5}, 6, own) == 2
    ensures State(Rungs(), AcrossHold().Arcs()).Capacity({5}, 6, own) == 0
  {
    hide Reserves, State.Capacity, AcrossHold;
    AcrossReserved(own);
    TwoFit(own);
    NothingFits(own);
  }

  // ------------------------------------------------------------- and that is the unit drawn --

  function AcrossWay(): seq<nat> {
    [0, 1, 3, 5]
  }

  function Rung(x: nat): nat {
    if x == 0 then 0 else if x < 3 then 1 else if x < 5 then 2 else 3
  }

  lemma {:induction false} RungsUp(r: seq<nat>, i: nat)
    requires FreeRoute(Rungs(), 5, r) && i < |r|
    ensures r[0] == 0 && Rung(r[i]) == i
    decreases i
  {
    if i > 0 {
      RungsUp(r, i - 1);
      assert Get(Ladder(), Leg(r, i - 1)) > 0;
    }
  }

  /** No way up is shorter than the one across, and none goes by lower ids. */
  lemma AcrossFirst(r: seq<nat>)
    requires FreeRoute(Rungs(), 5, r)
    ensures |r| == 4 && !Nearer(r, AcrossWay())
  {
    hide Ladder;
    RungsUp(r, |r| - 1);
    RungsUp(r, 1);
    RungsUp(r, 2);
    assert Get(Ladder(), Leg(r, 0)) > 0 && Get(Ladder(), Leg(r, 1)) > 0 && Get(Ladder(), Leg(r, 2)) > 0;
    AcrossLegs(r);
    forall i | 0 <= i < |r| && i < 4 && r[..i] == AcrossWay()[..i] ensures r[i] >= AcrossWay()[i] {
      if i > 0 {
        Augmenting.SamePrefix(r, AcrossWay(), i - 1, i);
      }
    }
  }

  lemma AcrossLegs(r: seq<nat>)
    requires |r| == 4 && r[0] == 0 && Rung(r[3]) == 3
    requires Get(Ladder(), Leg(r, 0)) > 0 && Get(Ladder(), Leg(r, 1)) > 0 && Get(Ladder(), Leg(r, 2)) > 0
    ensures r[1] >= 1 && r[2] >= 3 && r[3] == 5
  {
  }

  lemma AcrossFree()
    ensures FreeRoute(Rungs(), 5, AcrossWay()) && Fits(Rungs(), AcrossWay(), 1)
  {
    var r := AcrossWay();
    assert Leg(r, 0) == (0, 1) && Leg(r, 1) == (1, 3) && Leg(r, 2) == (3, 5);
  }

  function Backer(): seq<(nat, nat)> {
    [(0, 2)]
  }

  lemma OneLender()
    ensures MapOf(Backer()) == map[0 := 2] && DistinctIds(Backer()) && Sorted(Firsts(Backer()), IdLess)
    ensures Total(MapOf(Backer())) == 2
  {
    assert MapOf(Backer()) == MapOf(Backer()[..0])[0 := 2];
    TotalOfNothing();
    TotalWith(map[], 0, 2);
  }

  lemma AcrossUses(k: Key)
    ensures Uses(AcrossWay(), k) <==> k in {(0, 1), (1, 3), (3, 5)}
  {
    var r := AcrossWay();
    assert Leg(r, 0) == (0, 1) && Leg(r, 1) == (1, 3) && Leg(r, 2) == (3, 5);
  }

  /** A tidy hold of one unit over three edges lists them in key order. */
  lemma CarriedIsAcross(h: Held)
    requires Legs.Carried(h.Arcs(), AcrossWay(), 1) && h.Tidy()
    ensures h == AcrossHold()
  {
    hide MapOf, Uses, Sorted, Distinct;
    KeyLessTotal();
    SortedDistinct(Firsts(h.edges), KeyLess);
    MapOfSorted(h.edges);
    MapOfSorted(h.supply);
    forall k ensures k in Firsts(h.edges) <==> k in {(0, 1), (1, 3), (3, 5)} {
      AcrossUses(k);
      if k in Firsts(h.edges) {
        assert k in Elements(Firsts(h.edges));
        TidyPositive(h, k);
      } else {
        assert k !in Elements(Firsts(h.edges));
      }
    }
    AcrossKeys(Firsts(h.edges));
    forall i | 0 <= i < |h.edges| ensures h.edges[i].1 == 1 {
      AcrossUses(h.edges[i].0);
      assert Firsts(h.edges)[i] == h.edges[i].0;
    }
    assert h.edges == AcrossHold().edges by {
      assert h.edges[0].0 == Firsts(h.edges)[0] && h.edges[1].0 == Firsts(h.edges)[1] && h.edges[2].0 == Firsts(h.edges)[2];
    }
    forall i | 0 <= i < |h.supply| ensures h.supply[i] == (0, 1) {
      assert Firsts(h.supply)[i] == h.supply[i].0;
      assert Get(h.Arcs().supply, h.supply[i].0) == h.supply[i].1;
    }
    OnlyOnce(h.supply, 0, 1);
  }

  lemma AcrossKeys(ks: seq<Key>)
    requires Sorted(ks, KeyLess) && forall k :: k in ks <==> k in {(0, 1), (1, 3), (3, 5)}
    ensures ks == [(0, 1), (1, 3), (3, 5)]
  {
    KeyLessTotal();
    var t: seq<Key> := [(0, 1), (1, 3), (3, 5)];
    SortedUnique(ks, t, KeyLess);
  }

  /** On the ladder, a reservation of one unit takes exactly the way across. */
  lemma AcrossIsDrawn(own: bool, h: Held)
    requires Draws(Ladder(), map[], map[], Backer(), 5, 6, 1, own, h) && h.Tidy()
    ensures h == AcrossHold()
  {
    hide Ladder, Draws, Free, FreeRoute, Nearer, Fits, Legs.Carried, MapOf, DistinctIds, Total, Sorted, Held.Arcs, State.Free, Held.Tidy;
    OneLender();
    RungsFree(own);
    LadderFree(own);
    var r := NearestRouteDrawn(Ladder(), map[], map[], Backer(), 5, 6, 1, own, h);
    AcrossFree();
    AcrossFirst(r);
    CarriedIsAcross(h);
  }

  lemma LadderFree(own: bool)
    ensures State(Rungs(), NOTHING).Free({5}, 6, own) == Free(Ladder(), map[], map[], map[0 := 2], {5}, 6, own)
  {
  }
}
