/** What a reservation draws: the same from equal state, a member's own supply alone where it covers the amount, and the
    shortest free route alone where that carries it. */
module Drawing {
  import opened Arithmetic
  import opened Sums
  import opened Ordered
  import opened Cuts
  import opened Residual
  import opened Augmenting
  import opened Layout
  import opened MaxFlow
  import opened Networks
  import opened Priority
  import opened Legs
  import opened Books
  import opened Security
  import Adjacency

  // ------------------------------------------------------------- equal state, equal hold --

  /** Two builds from equal state are the same network. */
  lemma SameBuild(edges: map<Key, nat>, reserved: map<Key, nat>, committed: map<nat, nat>, uw: seq<(nat, nat)>,
                  targets: seq<nat>, n: nat, own: bool,
                  plan: Plan, w: Wires, pairs: seq<Pair>, cap: seq<nat>, tail: seq<nat>,
                  plan': Plan, w': Wires, pairs': seq<Pair>, cap': seq<nat>, tail': seq<nat>)
    requires BuildsTo(plan, w, pairs, cap, tail, edges, reserved, committed, uw, targets, n, own)
    requires BuildsTo(plan', w', pairs', cap', tail', edges, reserved, committed, uw, targets, n, own)
    ensures plan == plan' && pairs == pairs' && cap == cap' && w == w'
  {
    hide Free, KeptKeys, KeptLenders, KeptTargets, EdgeEntries, MapOf, Wired, Plan.Follows, Woven, Fresh, Adjacency.ByTail,
         Adjacency.TakesPart, Elements, Inside, Distinct;
    SameAscending(plan.ids, plan'.ids);
    SamePairs(plan, pairs, pairs', Free(edges, reserved, committed, MapOf(uw), Elements(targets), n, own));
    SameArcs(w, w', pairs, cap, cap');
    SameLists(w, w', tail, tail');
  }

  /** Whoever reserves the same amount from equal state holds the same, arc for arc. */
  lemma SameDraw(edges: map<Key, nat>, reserved: map<Key, nat>, committed: map<nat, nat>, uw: seq<(nat, nat)>,
                 debtor: nat, n: nat, amount: nat, own: bool, h: Held, h': Held)
    requires Draws(edges, reserved, committed, uw, debtor, n, amount, own, h)
    requires Draws(edges, reserved, committed, uw, debtor, n, amount, own, h')
    ensures h == h'
  {
    hide BuildsTo, Searched, ReadsOff, PairsKept;
    if amount > 0 {
      var plan: Plan, w: Wires, pairs: seq<Pair>, was: seq<nat>, tail: seq<nat>, now: seq<nat> :|
        && BuildsTo(plan, w, pairs, was, tail, edges, reserved, committed, uw, [debtor], n, own)
        && Searched(w, Search(was, amount), Search(now, 0)) && PairsKept(was, now) && ReadsOff(plan, was, now, h);
      var plan': Plan, w': Wires, pairs': seq<Pair>, was': seq<nat>, tail': seq<nat>, now': seq<nat> :|
        && BuildsTo(plan', w', pairs', was', tail', edges, reserved, committed, uw, [debtor], n, own)
        && Searched(w', Search(was', amount), Search(now', 0)) && PairsKept(was', now') && ReadsOff(plan', was', now', h');
      SameBuild(edges, reserved, committed, uw, [debtor], n, own, plan, w, pairs, was, tail, plan', w', pairs', was', tail');
      OneEnd(w, Search(was, amount), Search(now, 0), Search(now', 0));
      SameReadOff(plan, was, now, h, h');
    }
  }

  lemma SameReadOff(plan: Plan, was: seq<nat>, now: seq<nat>, h: Held, h': Held)
    requires ReadsOff(plan, was, now, h) && ReadsOff(plan, was, now, h')
    ensures h == h'
  {
    hide Taken, Rooms;
  }

  // ------------------------------------------------------------- own supply alone --

  lemma OthersLendNothing(supply: map<nat, nat>, u: nat, amount: nat, v: nat)
    requires Total(supply) == amount && Get(supply, u) == amount && v != u
    ensures Get(supply, v) == 0
  {
    var f := (x: nat) => Get(supply, x);
    if v in supply && u in supply {
      SumRemove(supply.Keys, f, u);
      SumTerm(supply.Keys - {u}, f, v);
    } else if v in supply {
      SumTerm(supply.Keys, f, v);
    }
  }

  /** Of an account that gets no edge and no supply, nothing goes out. */
  lemma NothingOut(h: Arcs, debtor: nat, amount: nat, k: Key)
    requires IsFlow(h, debtor, amount) && k in h.edge && k.1 == debtor != k.0
    requires (forall e :: e in h.edge ==> e.1 == debtor) && Get(h.supply, k.0) == 0
    ensures h.edge[k] == 0
  {
    var D := {k.0};
    assert NetInto(h, D) == 0;
    SumZero(h.edge.Keys, InTerm(h.edge, D));
    SumZero(h.supply.Keys, SupplyTerm(h.supply, D));
    SumTerm(h.edge.Keys, OutTerm(h.edge, D), k);
  }

  lemma OwnFits(s: State, debtor: nat, n: nat, amount: nat)
    requires debtor < n && amount <= Minus(Get(s.gross.supply, debtor), Get(s.held.supply, debtor))
    ensures amount <= DirectRoom(s.Free({debtor}, n, true), debtor)
  {
    hide State.Free, Sum;
    FreeOwn(s, debtor, n);
    var g := s.Free({debtor}, n, true);
    if debtor in g.supply {
      SumTerm(g.supply.Keys, DirectTerm(g, debtor), debtor);
    } else {
      SumNonNegative(g.supply.Keys, DirectTerm(g, debtor));
    }
  }

  /** A member whose own uncommitted supply covers the amount is seated on it alone: no stake edge is drawn, and nobody else. */
  lemma OwnAlone(s: State, t: State, debtor: nat, n: nat, amount: nat, h: Held)
    requires Reserves(s, t, debtor, n, amount, true, h) && debtor < n && amount > 0
    requires OwnFirst(s, debtor, amount, h) && DirectFirst(s.Free({debtor}, n, true), debtor, amount, h)
    requires amount <= Minus(Get(s.gross.supply, debtor), Get(s.held.supply, debtor))
    ensures h == Held([], [(debtor, amount)])
  {
    hide State.Free, IsFlow, Leq, IsSum, DirectRoom, MapOf, Total;
    OwnFits(s, debtor, n, amount);
    AmountIsSupply(h.Arcs(), debtor, amount);
    KeyLessTotal();
    SortedDistinct(Firsts(h.edges), KeyLess);
    MapOfSorted(h.edges);
    MapOfSorted(h.supply);
    if h.edges != [] {
      var k := h.edges[0].0;
      assert Firsts(h.edges)[0] == k;
      OthersLendNothing(h.Arcs().supply, debtor, amount, k.0);
      NothingOut(h.Arcs(), debtor, amount, k);
    }
    forall i | 0 <= i < |h.supply| ensures h.supply[i] == (debtor, amount) {
      assert Firsts(h.supply)[i] == h.supply[i].0;
      if h.supply[i].0 != debtor {
        OthersLendNothing(h.Arcs().supply, debtor, amount, h.supply[i].0);
      }
    }
    OnlyOnce(h.supply, debtor, amount);
  }

  lemma OnlyOnce(es: seq<(nat, nat)>, debtor: nat, amount: nat)
    requires Distinct(Firsts(es)) && (forall i :: 0 <= i < |es| ==> es[i] == (debtor, amount))
    requires Get(MapOf(es), debtor) == amount > 0
    ensures es == [(debtor, amount)]
  {
    hide Distinct;
    if |es| >= 2 {
      DistinctAt(Firsts(es), 0, 1);
    }
  }

  // ------------------------------------------------------------- the shortest route first --

  /** What was read off is what the arcs now carry in reverse. */
  lemma ReadOffIsBackward(plan: Plan, w: Wires, pairs: seq<Pair>, was: seq<nat>, now: seq<nat>, g: Arcs, goal: set<nat>, h: Held)
    requires Built(plan, w, pairs, was, g, goal) && PairsKept(was, now) && ReadsOff(plan, was, now, h)
    ensures |now| == 2 * plan.Count() && Leq(h.Arcs(), plan.Backward(now)) && Leq(plan.Backward(now), h.Arcs())
  {
    hide Built, PairsKept, Reading.Of, Leq, Held.Arcs, Plan.Backward, Rooms, Taken;
    var ledgerArc, supplyArc := LedgerArcs(plan.keys, 0), LedgerArcs(plan.lenders, 2 * |plan.keys|);
    var read := Reading(ledgerArc, Rooms(ledgerArc, was), supplyArc, Rooms(supplyArc, was));
    ReadingOf(plan, w, pairs, was, now, g, goal, read);
    read.IsWithin(plan, now);
    read.HeldIsBackward(plan, now);
  }

  lemma BothWays(a: Arcs, b: Arcs, r: seq<nat>, amount: nat)
    requires Leq(a, b) && Leq(b, a) && Carried(b, r, amount)
    ensures Carried(a, r, amount)
  {
    hide Uses;
  }

  /** The free route the search takes first: none is shorter, and with underwriters ascending none as short goes by lower ids.
      An amount that fits on it is drawn over it alone. */
  lemma NearestRouteDrawn(edges: map<Key, nat>, reserved: map<Key, nat>, committed: map<nat, nat>, uw: seq<(nat, nat)>,
                          debtor: nat, n: nat, amount: nat, own: bool, h: Held) returns (r: seq<nat>)
    requires Draws(edges, reserved, committed, uw, debtor, n, amount, own, h) && amount > 0 && debtor < n
    requires DistinctIds(uw) && Total(MapOf(uw)) < UNBOUNDED
    ensures var g := Free(edges, reserved, committed, MapOf(uw), {debtor}, n, own);
      && FreeRoute(g, debtor, r) && (forall q :: FreeRoute(g, debtor, q) ==> |r| <= |q|)
      && (Sorted(Firsts(uw), IdLess) ==> forall q :: FreeRoute(g, debtor, q) && q != r ==> Nearer(r, q))
      && (Fits(g, r, amount) ==> Carried(h.Arcs(), r, amount))
  {
    hide BuildsTo, Searched, ReadsOff, PairsKept, Built, FreeRoute, Nearer, Fits, Carried, Sorted, MapOf, DistinctIds,
         Total, Plan.Backward, Held.Arcs, Leq, Free;
    var plan: Plan, w: Wires, pairs: seq<Pair>, was: seq<nat>, tail: seq<nat>, now: seq<nat> :|
      && BuildsTo(plan, w, pairs, was, tail, edges, reserved, committed, uw, [debtor], n, own)
      && Searched(w, Search(was, amount), Search(now, 0)) && PairsKept(was, now) && ReadsOff(plan, was, now, h);
    var g := Free(edges, reserved, committed, MapOf(uw), {debtor}, n, own);
    BuildFor(plan, w, pairs, was, tail, edges, reserved, committed, uw, debtor, n, own);
    PlanSorted(plan, edges, uw, {debtor}, n, own);
    SearchedReaches(w, Search(was, amount), Search(now, 0));
    r := FirstDrawn(plan, w, pairs, was, now, g, debtor, amount);
    if Fits(g, r, amount) {
      FitsBelow(edges, reserved, committed, uw, {debtor}, n, own, r, amount);
      ReadOffIsBackward(plan, w, pairs, was, now, g, {debtor}, h);
      BothWays(h.Arcs(), plan.Backward(now), r, amount);
    }
  }

  lemma BuildFor(plan: Plan, w: Wires, pairs: seq<Pair>, was: seq<nat>, tail: seq<nat>, edges: map<Key, nat>, reserved: map<Key, nat>,
                 committed: map<nat, nat>, uw: seq<(nat, nat)>, debtor: nat, n: nat, own: bool)
    requires BuildsTo(plan, w, pairs, was, tail, edges, reserved, committed, uw, [debtor], n, own) && debtor < n
    ensures Built(plan, w, pairs, was, Free(edges, reserved, committed, MapOf(uw), {debtor}, n, own), {debtor})
    ensures plan.targets == [debtor] && plan.keys == KeptKeys(EdgeEntries(edges), |EdgeEntries(edges)|, n)
    ensures plan.lenders == KeptLenders(uw, |uw|, {debtor}, n, own)
  {
    hide Free, KeptKeys, KeptLenders, KeptTargets, EdgeEntries, MapOf, Built, Wired, Adjacency.ByTail, Adjacency.TakesPart, Elements, Inside;
    OneTarget(debtor, n);
  }

  lemma SearchedReaches(w: Wires, s: Search, t: Search)
    requires Searched(w, s, t)
    ensures Reaches(w, s, t)
  {
  }

  lemma FitsBelow(edges: map<Key, nat>, reserved: map<Key, nat>, committed: map<nat, nat>, uw: seq<(nat, nat)>,
                  targets: set<nat>, n: nat, own: bool, r: seq<nat>, amount: nat)
    requires Total(MapOf(uw)) < UNBOUNDED
    requires Fits(Free(edges, reserved, committed, MapOf(uw), targets, n, own), r, amount)
    ensures amount <= UNBOUNDED
  {
    hide Total, MapOf, FreeEdges;
    SupplyBelowTotal(MapOf(uw), r[0]);
  }
}
