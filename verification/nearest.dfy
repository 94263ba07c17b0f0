/** When an amount that fits on the shortest free routes is drawn over those alone. */
module Nearest {
  import opened Arithmetic
  import opened Sums
  import opened Ordered
  import opened Cuts
  import opened Layout
  import opened Priority
  import opened Legs
  import opened Books
  import opened Drawing

  ghost predicate Shortest(g: Arcs, debtor: nat, r: seq<nat>) {
    FreeRoute(g, debtor, r) && forall q :: FreeRoute(g, debtor, q) ==> |r| <= |q|
  }

  ghost predicate OnShortest(g: Arcs, debtor: nat, k: Key) {
    exists r :: Shortest(g, debtor, r) && Uses(r, k)
  }

  ghost predicate StartsShortest(g: Arcs, debtor: nat, u: nat) {
    exists r :: Shortest(g, debtor, r) && r[0] == u
  }

  /** Every arc h uses is on some shortest free route. */
  ghost predicate ShortestOnly(g: Arcs, debtor: nat, h: Arcs) {
    && (forall k :: Get(h.edge, k) > 0 ==> OnShortest(g, debtor, k))
    && (forall u :: Get(h.supply, u) > 0 ==> StartsShortest(g, debtor, u))
  }

  /** The amount fits on the shortest free routes. */
  ghost predicate FitsShortest(g: Arcs, debtor: nat, amount: nat) {
    exists f :: Leq(f, g) && IsFlow(f, debtor, amount) && ShortestOnly(g, debtor, f)
  }

  // ------------------------------------------------------------- flows of direct edges --

  ghost predicate DirectOnly(h: Arcs, debtor: nat) {
    forall k :: Get(h.edge, k) > 0 ==> k.1 == debtor != k.0
  }

  lemma SuppliedOne(supply: map<nat, nat>, u: nat)
    ensures SuppliedTo(supply, {u}) == Get(supply, u)
  {
    var f := SupplyTerm(supply, {u});
    if u in supply {
      SumRemove(supply.Keys, f, u);
      SumZero(supply.Keys - {u}, f);
    } else {
      SumZero(supply.Keys, f);
    }
  }

  lemma OutOne(edge: map<Key, nat>, u: nat, debtor: nat)
    requires u != debtor && forall k :: Get(edge, k) > 0 ==> k.1 == debtor
    ensures OutOf(edge, {u}) == Get(edge, (u, debtor))
  {
    var f := OutTerm(edge, {u});
    if (u, debtor) in edge {
      SumRemove(edge.Keys, f, (u, debtor));
      SumZero(edge.Keys - {(u, debtor)}, f);
    } else {
      SumZero(edge.Keys, f);
    }
  }

  /** In a flow of direct edges everybody else passes on exactly what they supply. */
  lemma DirectPasses(h: Arcs, debtor: nat, amount: nat, u: nat)
    requires IsFlow(h, debtor, amount) && DirectOnly(h, debtor) && u != debtor
    ensures Get(h.supply, u) == Get(h.edge, (u, debtor))
  {
    hide OutOf, SuppliedTo;
    assert NetInto(h, {u}) == 0;
    SumZero(h.edge.Keys, InTerm(h.edge, {u}));
    OutOne(h.edge, u, debtor);
    SuppliedOne(h.supply, u);
  }

  lemma DirectFits(f: Arcs, g: Arcs, debtor: nat, amount: nat)
    requires Leq(f, g) && IsFlow(f, debtor, amount) && DirectOnly(f, debtor)
    ensures amount <= DirectRoom(g, debtor)
  {
    hide IsFlow, DirectOnly, Sum;
    AmountIsSupply(f, debtor, amount);
    var a, b := (u: nat) => Get(f.supply, u), DirectTerm(g, debtor);
    var all := f.supply.Keys + g.supply.Keys;
    forall u | u in all ensures a(u) <= b(u) {
      if u != debtor {
        DirectPasses(f, debtor, amount, u);
      }
    }
    SumLeq(all, a, b);
    SumSubset(f.supply.Keys, all, a);
    SumSubset(g.supply.Keys, all, b);
  }

  // ------------------------------------------------------------- short routes --

  lemma ShortLegs(g: Arcs, debtor: nat, r: seq<nat>, k: Key)
    requires Shortest(g, debtor, r) && |r| <= 2 && OnShortest(g, debtor, k)
    ensures |r| == 2 && k.1 == debtor != k.0
  {
    hide FreeRoute;
    var q :| Shortest(g, debtor, q) && Uses(q, k);
    var i :| 0 <= i < |q| - 1 && Leg(q, i) == k;
    RouteFacts(g, debtor, q);
    if k.0 == debtor {
      OwnRoute(g, debtor);
    }
  }

  lemma RouteFacts(g: Arcs, debtor: nat, r: seq<nat>)
    requires FreeRoute(g, debtor, r)
    ensures r != [] && r[|r| - 1] == debtor && Get(g.supply, r[0]) > 0
  {
  }

  lemma ShortestNotEmpty(g: Arcs, debtor: nat, r: seq<nat>)
    requires Shortest(g, debtor, r)
    ensures r != []
  {
  }

  lemma OwnRoute(g: Arcs, debtor: nat)
    requires Get(g.supply, debtor) > 0
    ensures FreeRoute(g, debtor, [debtor])
  {
  }

  lemma PairRoute(g: Arcs, debtor: nat, u: nat)
    requires Get(g.supply, u) > 0 && Get(g.edge, (u, debtor)) > 0
    ensures FreeRoute(g, debtor, [u, debtor]) && Uses([u, debtor], (u, debtor))
  {
    var r := [u, debtor];
    assert Leg(r, 0) == (u, debtor);
    assert r[1] == debtor;
  }

  /** Where the shortest free routes have at most one stake edge, an amount that fits on them is drawn over them alone. */
  lemma ShortestAlone(s: State, t: State, debtor: nat, n: nat, amount: nat, own: bool, h: Held, r: seq<nat>)
    requires Reserves(s, t, debtor, n, amount, own, h) && debtor < n
    requires (own ==> OwnFirst(s, debtor, amount, h)) && DirectFirst(s.Free({debtor}, n, own), debtor, amount, h)
    requires Shortest(s.Free({debtor}, n, own), debtor, r) && |r| <= 2
    requires FitsShortest(s.Free({debtor}, n, own), debtor, amount)
    ensures ShortestOnly(s.Free({debtor}, n, own), debtor, h.Arcs())
  {
    hide State.Free, IsFlow, Leq, Shortest, OnShortest, StartsShortest, Held.Arcs, DirectRoom, OwnFirst, IsSum;
    var g := s.Free({debtor}, n, own);
    var f :| Leq(f, g) && IsFlow(f, debtor, amount) && ShortestOnly(g, debtor, f);
    forall k | Get(f.edge, k) > 0 ensures |r| == 2 && k.1 == debtor != k.0 {
      ShortLegs(g, debtor, r, k);
    }
    DirectFits(f, g, debtor, amount);
    assert DirectOnly(h.Arcs(), debtor);
    ShortestNotEmpty(g, debtor, r);
    if |r| == 1 {
      OwnOnly(s, debtor, n, amount, own, h, f, r);
    } else {
      PairsOnly(g, debtor, amount, h.Arcs(), r);
    }
  }

  lemma OwnOnly(s: State, debtor: nat, n: nat, amount: nat, own: bool, h: Held, f: Arcs, r: seq<nat>)
    requires debtor < n && IsFlow(h.Arcs(), debtor, amount) && DirectOnly(h.Arcs(), debtor) && (own ==> OwnFirst(s, debtor, amount, h))
    requires Shortest(s.Free({debtor}, n, own), debtor, r) && |r| == 1
    requires Leq(f, s.Free({debtor}, n, own)) && IsFlow(f, debtor, amount) && forall k :: Get(f.edge, k) == 0
    ensures ShortestOnly(s.Free({debtor}, n, own), debtor, h.Arcs())
  {
    hide IsFlow, OnShortest, Held.Arcs, FreeEdges, DirectOnly;
    var g := s.Free({debtor}, n, own);
    assert r == [debtor] && own;
    AmountIsSupply(f, debtor, amount);
    AmountIsSupply(h.Arcs(), debtor, amount);
    assert DirectOnly(f, debtor) by { NoEdges(f, debtor); }
    forall u | u != debtor ensures Get(f.supply, u) == 0 {
      DirectPasses(f, debtor, amount, u);
    }
    TotalOne(f.supply, debtor);
    forall u | u != debtor ensures Get(h.Arcs().supply, u) == 0 && Get(h.Arcs().edge, (u, debtor)) == 0 {
      OthersLendNothing(h.Arcs().supply, debtor, amount, u);
      DirectPasses(h.Arcs(), debtor, amount, u);
    }
    forall k ensures Get(h.Arcs().edge, k) == 0 {
      NotDirect(h.Arcs(), debtor, k);
    }
  }

  lemma NoEdges(f: Arcs, debtor: nat)
    requires forall k :: Get(f.edge, k) == 0
    ensures DirectOnly(f, debtor)
  {
  }

  lemma NotDirect(h: Arcs, debtor: nat, k: Key)
    requires DirectOnly(h, debtor)
    ensures Get(h.edge, k) > 0 ==> k == (k.0, debtor) && k.0 != debtor
  {
  }

  lemma TotalOne(supply: map<nat, nat>, u: nat)
    requires forall v :: v != u ==> Get(supply, v) == 0
    ensures Total(supply) == Get(supply, u)
  {
    var f := (v: nat) => Get(supply, v);
    if u in supply {
      SumRemove(supply.Keys, f, u);
      SumZero(supply.Keys - {u}, f);
    } else {
      SumZero(supply.Keys, f);
    }
  }

  lemma PairsOnly(g: Arcs, debtor: nat, amount: nat, h: Arcs, r: seq<nat>)
    requires Shortest(g, debtor, r) && |r| == 2 && Leq(h, g) && IsFlow(h, debtor, amount) && DirectOnly(h, debtor)
    ensures ShortestOnly(g, debtor, h)
  {
    hide IsFlow, FreeRoute, DirectOnly, Uses;
    if Get(g.supply, debtor) > 0 {
      OwnRoute(g, debtor);
    }
    forall k | Get(h.edge, k) > 0 ensures OnShortest(g, debtor, k) {
      NotDirect(h, debtor, k);
      DirectPasses(h, debtor, amount, k.0);
      PairRoute(g, debtor, k.0);
    }
    forall u | Get(h.supply, u) > 0 ensures StartsShortest(g, debtor, u) {
      DirectPasses(h, debtor, amount, u);
      PairRoute(g, debtor, u);
      assert [u, debtor][0] == u;
    }
  }
}
