/** Cutting a hold along its routes: both halves are flows, and a part of a live hold can be given back. */
module Splitting {
  import opened Wrappers
  import opened Sums
  import opened Ordered
  import opened Cuts
  import opened Books
  import opened Runs
  import opened Routes

  /** How much of each route's value is kept. */
  ghost predicate Shares(paths: seq<Path>, take: seq<nat>) {
    |take| == |paths| && forall j :: 0 <= j < |paths| ==> take[j] <= paths[j].value
  }

  /** The same routes carrying the shares, those left with nothing dropped. */
  function Part(paths: seq<Path>, take: seq<nat>): seq<Path>
    requires |take| == |paths|
  {
    if paths == [] then [] else
      var last, v := paths[|paths| - 1], take[|take| - 1];
      Part(paths[..|paths| - 1], take[..|take| - 1]) + if v == 0 then [] else [last.(value := v)]
  }

  function Others(paths: seq<Path>, take: seq<nat>): seq<nat>
    requires Shares(paths, take)
  {
    seq(|take|, j requires 0 <= j < |take| => paths[j].value - take[j])
  }

  function SumOfShares(take: seq<nat>): nat {
    if take == [] then 0 else SumOfShares(take[..|take| - 1]) + take[|take| - 1]
  }

  lemma PartStep(paths: seq<Path>, take: seq<nat>)
    requires |take| == |paths| > 0
    ensures var part := Part(paths[..|paths| - 1], take[..|take| - 1]);
      Part(paths, take) == if take[|take| - 1] == 0 then part else part + [paths[|paths| - 1].(value := take[|take| - 1])]
  {
  }

  lemma CarriedMore(paths: seq<Path>, p: Path)
    ensures Carried(paths + [p]) == Carried(paths) + p.value
  {
    assert (paths + [p])[..|paths|] == paths;
  }

  lemma RouteAtValue(p: Path, v: nat, debtor: nat)
    requires IsRoute(p, debtor) && v > 0
    ensures IsRoute(p.(value := v), debtor)
  {
  }

  /** A route at any other value is a route. */
  lemma {:induction false} PartRoutes(paths: seq<Path>, take: seq<nat>, debtor: nat)
    requires |take| == |paths| && forall p :: p in paths ==> IsRoute(p, debtor)
    ensures forall p :: p in Part(paths, take) ==> IsRoute(p, debtor)
    ensures Carried(Part(paths, take)) == SumOfShares(take)
    decreases |paths|
  {
    hide IsRoute;
    if paths != [] {
      var front, last := paths[..|paths| - 1], paths[|paths| - 1];
      assert paths == front + [last];
      PartRoutes(front, take[..|take| - 1], debtor);
      PartStep(paths, take);
      if take[|take| - 1] > 0 {
        RouteAtValue(last, take[|take| - 1], debtor);
        CarriedMore(Part(front, take[..|take| - 1]), last.(value := take[|take| - 1]));
      }
    }
  }

  /** A route is the sum of two of its values. */
  lemma RouteInTwo(p: Path, v: nat)
    requires v <= p.value
    ensures IsSum(RouteArcs(p), RouteArcs(p.(value := v)), RouteArcs(p.(value := p.value - v)))
  {
  }

  lemma NoValue(p: Path)
    requires p.value == 0
    ensures Same(RouteArcs(p), NOTHING)
  {
  }

  /** Adding a route of the share, or leaving it out where there is none, comes to the same. */
  lemma PartNext(paths: seq<Path>, take: seq<nat>)
    requires |take| == |paths| > 0
    ensures var last := paths[|paths| - 1].(value := take[|take| - 1]);
      IsSum(AllRoutes(Part(paths, take)), AllRoutes(Part(paths[..|paths| - 1], take[..|take| - 1])), RouteArcs(last))
  {
    hide AllRoutes, RouteArcs, Part, IsSum, Same;
    PartStep(paths, take);
    var part := Part(paths[..|paths| - 1], take[..|take| - 1]);
    var last := paths[|paths| - 1].(value := take[|take| - 1]);
    if last.value == 0 {
      NoValue(last);
      AddedNothing(AllRoutes(part), RouteArcs(last));
    } else {
      AllRoutesMore(part, last);
    }
  }

  lemma AddedNothing(a: Arcs, b: Arcs)
    requires Same(b, NOTHING)
    ensures IsSum(a, a, b)
  {
    forall k ensures Get(b.edge, k) == 0 {
      assert Get(b.edge, k) <= Get(NOTHING.edge, k);
    }
    forall u ensures Get(b.supply, u) == 0 {
      assert Get(b.supply, u) <= Get(NOTHING.supply, u);
    }
  }

  /** Two sums of two, added part by part. */
  lemma AddInTwo(all: Arcs, front: Arcs, last: Arcs, a: Arcs, a0: Arcs, a1: Arcs, b: Arcs, b0: Arcs, b1: Arcs)
    requires IsSum(all, front, last) && IsSum(front, a0, b0) && IsSum(last, a1, b1) && IsSum(a, a0, a1) && IsSum(b, b0, b1)
    ensures IsSum(all, a, b)
  {
    forall k ensures Get(all.edge, k) == Get(a.edge, k) + Get(b.edge, k) {
      assert Get(front.edge, k) == Get(a0.edge, k) + Get(b0.edge, k);
      assert Get(last.edge, k) == Get(a1.edge, k) + Get(b1.edge, k);
      assert Get(a.edge, k) == Get(a0.edge, k) + Get(a1.edge, k);
    }
    forall u ensures Get(all.supply, u) == Get(a.supply, u) + Get(b.supply, u) {
      assert Get(front.supply, u) == Get(a0.supply, u) + Get(b0.supply, u);
      assert Get(last.supply, u) == Get(a1.supply, u) + Get(b1.supply, u);
      assert Get(a.supply, u) == Get(a0.supply, u) + Get(a1.supply, u);
    }
  }

  /** Both parts together are all the routes, arc for arc. */
  lemma {:induction false} PartsAdd(paths: seq<Path>, take: seq<nat>)
    requires Shares(paths, take)
    ensures IsSum(AllRoutes(paths), AllRoutes(Part(paths, take)), AllRoutes(Part(paths, Others(paths, take))))
    decreases |paths|
  {
    hide AllRoutes, RouteArcs, IsSum, Part;
    var others := Others(paths, take);
    if paths == [] {
      NoParts(paths, take);
    } else {
      var front, last := paths[..|paths| - 1], paths[|paths| - 1];
      var before, v := take[..|take| - 1], take[|take| - 1];
      assert Others(front, before) == others[..|others| - 1];
      PartsAdd(front, before);
      assert paths == front + [last];
      AllRoutesMore(front, last);
      RouteInTwo(last, v);
      PartNext(paths, take);
      PartNext(paths, others);
      AddInTwo(AllRoutes(paths), AllRoutes(front), RouteArcs(last),
               AllRoutes(Part(paths, take)), AllRoutes(Part(front, before)), RouteArcs(last.(value := v)),
               AllRoutes(Part(paths, others)), AllRoutes(Part(front, Others(front, before))), RouteArcs(last.(value := last.value - v)));
    }
  }

  lemma NoParts(paths: seq<Path>, take: seq<nat>)
    requires paths == [] && Shares(paths, take)
    ensures IsSum(AllRoutes(paths), AllRoutes(Part(paths, take)), AllRoutes(Part(paths, Others(paths, take))))
  {
    SumWithNothing(NOTHING);
  }

  // ------------------------------------------------------------------- the two holds --

  /** What routes rebuild into is tidy, and is the sum of them. */
  lemma RebuiltSame(paths: seq<Path>, debtor: nat)
    requires forall p :: p in paths ==> IsRoute(p, debtor)
    ensures Rebuilt(paths).Tidy() && Same(Rebuilt(paths).Arcs(), AllRoutes(paths))
    ensures Rebuilt(paths).Amount() == Carried(paths)
  {
    hide IsRoute, Same, AllPositive, IsFlow, EdgeTotals, SupplyTotals, AllRoutes, Held.Tidy, Held.Arcs;
    forall p | p in paths ensures p.value > 0 && Distinct(p.arcs) {
      RouteDistinct(p, debtor);
    }
    TotalsSpec(paths, |paths|);
    assert paths[..|paths|] == paths;
    ListedHold(EdgeTotals(paths, |paths|), SupplyTotals(paths, |paths|));
    RebuiltIsFlow(paths, debtor);
    FlowAmount(Rebuilt(paths), debtor, Carried(paths));
  }

  lemma FlowAmount(h: Held, debtor: nat, amount: nat)
    requires h.Tidy() && IsFlow(h.Arcs(), debtor, amount)
    ensures h.Amount() == amount
  {
    hide IsFlow;
    SumOfIsTotal(h.supply);
    AmountIsSupply(h.Arcs(), debtor, amount);
  }

  lemma SumOfSame(g: Arcs, a: Arcs, b: Arcs, g': Arcs, a': Arcs, b': Arcs)
    requires IsSum(g, a, b) && Same(g', g) && Same(a', a) && Same(b', b)
    ensures IsSum(g', a', b')
  {
    forall k ensures Get(g'.edge, k) == Get(a'.edge, k) + Get(b'.edge, k) {
      SameAt(g', g, k, 0);
      SameAt(a', a, k, 0);
      SameAt(b', b, k, 0);
    }
    forall u: nat ensures Get(g'.supply, u) == Get(a'.supply, u) + Get(b'.supply, u) {
      SameAt(g', g, (0, 0), u);
      SameAt(a', a, (0, 0), u);
      SameAt(b', b, (0, 0), u);
    }
  }

  lemma SameAt(a: Arcs, b: Arcs, k: Key, u: nat)
    requires Same(a, b)
    ensures Get(a.edge, k) == Get(b.edge, k) && Get(a.supply, u) == Get(b.supply, u)
  {
  }

  /** Cut every route of an accepted hold in two, anywhere: the two holds rebuilt are flows of what they carry into the same
      debtor, and they sum to the hold arc for arc. */
  lemma CutAlongRoutes(held: Held, debtor: nat, take: seq<nat>)
    requires Decomposed(held, debtor).Ok? && Shares(Decomposed(held, debtor).value, take)
    ensures var paths := Decomposed(held, debtor).value;
      var kept, back := Rebuilt(Part(paths, take)), Rebuilt(Part(paths, Others(paths, take)));
      && TwoParts(held, debtor, back, kept)
      && kept.Amount() == SumOfShares(take) && back.Amount() == SumOfShares(Others(paths, take))
  {
    hide Decomposed, IsRoute, IsFlow, IsSum, Same, AllRoutes, Rebuilt, Part, Held.Tidy, Held.Arcs, Held.Amount;
    DecomposeSound(held, debtor);
    var paths := Decomposed(held, debtor).value;
    var others := Others(paths, take);
    PartRoutes(paths, take, debtor);
    PartRoutes(paths, others, debtor);
    RebuiltSame(Part(paths, take), debtor);
    RebuiltSame(Part(paths, others), debtor);
    RebuiltIsFlow(Part(paths, take), debtor);
    RebuiltIsFlow(Part(paths, others), debtor);
    PartsAdd(paths, take);
    SumOfSame(AllRoutes(paths), AllRoutes(Part(paths, take)), AllRoutes(Part(paths, others)),
              held.Arcs(), Rebuilt(Part(paths, take)).Arcs(), Rebuilt(Part(paths, others)).Arcs());
  }

  /** So part of any live hold that decomposes can be given back: a step of the ledger, that leaves it sound, with the kept
      part live and the debt lower by exactly the other. */
  lemma PartialRelease(s: Ledger, i: nat, take: seq<nat>, book: State)
    requires Sound(s) && i < |s.live|
    requires Decomposed(s.live[i].held, s.live[i].debtor).Ok?
    requires Shares(Decomposed(s.live[i].held, s.live[i].debtor).value, take)
    requires Releases(s.book, book, Rebuilt(Part(Decomposed(s.live[i].held, s.live[i].debtor).value,
                                                 Others(Decomposed(s.live[i].held, s.live[i].debtor).value, take))))
    ensures var debtor := s.live[i].debtor; var paths := Decomposed(s.live[i].held, debtor).value;
      var kept, back := Rebuilt(Part(paths, take)), Rebuilt(Part(paths, Others(paths, take)));
      var t := Ledger(book, s.live[i := Hold(debtor, kept)]);
      && Next(s, ReleasePart(i, back, kept), t) && Sound(t)
      && kept.Amount() + back.Amount() == s.live[i].held.Amount()
  {
    hide Decomposed, Rebuilt, Part, Sound, HoldOk, Releases, Held.Tidy, Held.Arcs, Held.Amount, IsFlow, IsSum;
    var debtor := s.live[i].debtor;
    var paths := Decomposed(s.live[i].held, debtor).value;
    var kept, back := Rebuilt(Part(paths, take)), Rebuilt(Part(paths, Others(paths, take)));
    CutAlongRoutes(s.live[i].held, debtor, take);
    var t := Ledger(book, s.live[i := Hold(debtor, kept)]);
    StepKeepsSound(s, ReleasePart(i, back, kept), t);
    AmountsAdd(s, i, back, kept);
  }

  lemma AmountsAdd(s: Ledger, i: nat, back: Held, kept: Held)
    requires Sound(s) && i < |s.live| && TwoParts(s.live[i].held, s.live[i].debtor, back, kept)
    ensures kept.Amount() + back.Amount() == s.live[i].held.Amount()
  {
    hide AllHeld, Same, AllPositive, Leq, IsFlow, Held.Tidy, Held.Arcs;
    assert HoldOk(s.live[i]);
    FlowsAdd(s.live[i].held.Arcs(), kept.Arcs(), back.Arcs(), s.live[i].debtor, kept.Amount(), back.Amount());
    FlowAmount(s.live[i].held, s.live[i].debtor, kept.Amount() + back.Amount());
  }
}
