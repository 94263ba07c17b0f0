/** The first route a search takes, on the ledger: the shortest way from an underwriter to the debtor, by the lowest ids. */
module Legs {
  import opened Arithmetic
  import opened Ordered
  import opened Sums
  import opened Cuts
  import opened Residual
  import opened Augmenting
  import opened Layout
  import opened MaxFlow
  import opened Drawn
  import opened Priority

  /** Accounts from an underwriter with supply to lend, over edges with room, to the debtor. */
  ghost predicate FreeRoute(g: Arcs, debtor: nat, r: seq<nat>) {
    && r != [] && r[|r| - 1] == debtor && Get(g.supply, r[0]) > 0
    && forall i :: 0 <= i < |r| - 1 ==> Get(g.edge, Leg(r, i)) > 0
  }

  function Leg(r: seq<nat>, i: nat): Key
    requires i < |r| - 1
  {
    (r[i], r[i + 1])
  }

  /** Shorter, or as short and by lower ids where the two part. */
  ghost predicate Nearer(r: seq<nat>, q: seq<nat>) {
    |r| < |q| || (|r| == |q| && Sooner(r, q))
  }

  /** Whether k is one of the route's edges. */
  ghost predicate Uses(r: seq<nat>, k: Key) {
    exists i :: 0 <= i < |r| - 1 && Leg(r, i) == k
  }

  // ------------------------------------------------------------- accounts to arcs --

  ghost function LenderIndex(plan: Plan, u: nat): (i: nat)
    requires u in plan.lenders
    ensures i < |plan.lenders| && plan.lenders[i] == u
  {
    var i :| 0 <= i < |plan.lenders| && plan.lenders[i] == u;
    i
  }

  /** The plan has an arc for the route's first account and for every edge of it. */
  ghost predicate Known(plan: Plan, r: seq<nat>) {
    r != [] && r[0] in plan.lenders && forall i :: 0 <= i < |r| - 1 ==> HasKey(plan, Leg(r, i).0, Leg(r, i).1)
  }

  /** The route in arcs: a lender's, then edges, then the sink's. */
  ghost function ArcsOf(plan: Plan, r: seq<nat>): (p: seq<nat>)
    requires Known(plan, r)
    ensures |p| == |r| + 1
    ensures p[0] == 2 * (|plan.keys| + LenderIndex(plan, r[0])) && p[|r|] == SinkArcOf(plan)
    ensures forall j :: 0 < j < |r| ==>
      HasKey(plan, Leg(r, j - 1).0, Leg(r, j - 1).1) && p[j] == 2 * KeyIndex(plan, Leg(r, j - 1).0, Leg(r, j - 1).1)
  {
    [2 * (|plan.keys| + LenderIndex(plan, r[0]))]
    + seq(|r| - 1, j requires 0 <= j < |r| - 1 => 2 * KeyIndex(plan, Leg(r, j).0, Leg(r, j).1))
    + [SinkArcOf(plan)]
  }

  lemma FreeIsKnown(plan: Plan, g: Arcs, debtor: nat, r: seq<nat>)
    requires Elements(plan.keys) == g.edge.Keys && Elements(plan.lenders) == g.supply.Keys && FreeRoute(g, debtor, r)
    ensures Known(plan, r)
  {
    assert r[0] in Elements(plan.lenders);
    forall i | 0 <= i < |r| - 1 ensures HasKey(plan, Leg(r, i).0, Leg(r, i).1) {
      assert Leg(r, i) in Elements(plan.keys);
    }
  }

  /** One arc of a free route: its ends and its room. */
  lemma LegArc(plan: Plan, w: Wires, pairs: seq<Pair>, was: seq<nat>, g: Arcs, debtor: nat, r: seq<nat>, j: nat)
    requires Built(plan, w, pairs, was, g, {debtor}) && plan.targets == [debtor] && Known(plan, r) && r[|r| - 1] == debtor
    requires j <= |r|
    ensures |was| == |w.to| && ArcsOf(plan, r)[j] < |was|
    ensures var a := ArcsOf(plan, r)[j];
      && (if j == 0 then Tail(w, a) == w.src else Tail(w, a) < |plan.ids| && plan.ids[Tail(w, a)] == r[j - 1])
      && (if j == |r| then w.to[a] == w.snk else w.to[a] < |plan.ids| && plan.ids[w.to[a]] == r[j])
      && was[a] == if j == 0 then Get(g.supply, r[0]) else if j == |r| then UNBOUNDED else Get(g.edge, Leg(r, j - 1))
  {
    hide Built, Wired, Tail, HasKey, Distinct, Elements;
    CountSize(plan, w, pairs, was, g, {debtor});
    var a := ArcsOf(plan, r)[j];
    if j == 0 {
      var i := LenderIndex(plan, r[0]);
      PairEnds(plan, w, pairs, was, g, {debtor}, |plan.keys| + i);
      LenderEnds(plan, w, pairs, was, g, {debtor}, i);
    } else if j == |r| {
      PairEnds(plan, w, pairs, was, g, {debtor}, |plan.keys| + |plan.lenders|);
      SinkEnds(plan, w, pairs, was, g, {debtor}, 0);
    } else {
      var i := KeyIndex(plan, Leg(r, j - 1).0, Leg(r, j - 1).1);
      PairEnds(plan, w, pairs, was, g, {debtor}, i);
      KeyEnds(plan, w, pairs, was, g, {debtor}, i);
    }
  }

  lemma LegsRoute(plan: Plan, w: Wires, pairs: seq<Pair>, was: seq<nat>, g: Arcs, debtor: nat, r: seq<nat>)
    requires Built(plan, w, pairs, was, g, {debtor}) && plan.targets == [debtor] && FreeRoute(g, debtor, r)
    ensures Known(plan, r) && Route(w, was, ArcsOf(plan, r))
  {
    hide Built, Wired, Tail, HasKey, Distinct, Elements, ArcsOf, Known, Node, OnWires;
    CountSize(plan, w, pairs, was, g, {debtor});
    FreeIsKnown(plan, g, debtor, r);
    ArcsOfSize(plan, r);
    var p := ArcsOf(plan, r);
    forall j | 0 <= j < |p| ensures p[j] < |w.to| {
      LegArc(plan, w, pairs, was, g, debtor, r, j);
    }
    AllOnWires(w, p);
    LegArc(plan, w, pairs, was, g, debtor, r, |r|);
    NodeIs(w, p, |p|);
    forall j | 0 <= j < |p| ensures p[j] < |was| && was[p[j]] > 0 && Tail(w, p[j]) == Node(w, p, j) {
      LegArc(plan, w, pairs, was, g, debtor, r, j);
      NodeIs(w, p, j);
      if j > 0 {
        LegArc(plan, w, pairs, was, g, debtor, r, j - 1);
        DistinctAt(plan.ids, Tail(w, p[j]), w.to[p[j - 1]]);
      }
    }
    Joins(w, was, p);
  }

  lemma AllOnWires(w: Wires, p: seq<nat>)
    requires forall j :: 0 <= j < |p| ==> p[j] < |w.to|
    ensures OnWires(w, p)
  {
  }

  lemma NodeIs(w: Wires, p: seq<nat>, j: nat)
    requires OnWires(w, p) && j <= |p|
    ensures Node(w, p, j) == if j == 0 then w.src else w.to[p[j - 1]]
  {
  }

  lemma ArcsOfSize(plan: Plan, r: seq<nat>)
    requires Known(plan, r)
    ensures |ArcsOf(plan, r)| == |r| + 1 && r != []
  {
  }

  // ------------------------------------------------------------- arcs to accounts --

  /** Where arc j of a route on a fresh network stands. */
  lemma RouteKind(plan: Plan, w: Wires, pairs: seq<Pair>, was: seq<nat>, g: Arcs, debtor: nat, p: seq<nat>, j: nat)
      returns (i: nat)
    requires Built(plan, w, pairs, was, g, {debtor}) && plan.targets == [debtor] && Route(w, was, p) && j < |p|
    ensures i < plan.Count() == |pairs| && p[j] == 2 * i && OnWires(w, p)
    ensures Node(w, p, j) == pairs[i].from && Node(w, p, j + 1) == pairs[i].into
    ensures j == 0 <==> |plan.keys| <= i < |plan.keys| + |plan.lenders|
    ensures j == |p| - 1 <==> i >= |plan.keys| + |plan.lenders|
  {
    hide Built, Wired, Tail, Route, Node, OnWires;
    RouteAt(w, was, p, j);
    i := FreshArc(plan, w, pairs, was, g, {debtor}, p[j]);
    CountSize(plan, w, pairs, was, g, {debtor});
    if j > 0 {
      RouteAt(w, was, p, j - 1);
      var h := FreshArc(plan, w, pairs, was, g, {debtor}, p[j - 1]);
      PairKind(plan, w, pairs, was, g, {debtor}, h);
    }
    if j < |p| - 1 {
      RouteAt(w, was, p, j + 1);
      var h := FreshArc(plan, w, pairs, was, g, {debtor}, p[j + 1]);
      PairKind(plan, w, pairs, was, g, {debtor}, h);
    }
  }

  lemma RouteAccount(plan: Plan, w: Wires, pairs: seq<Pair>, was: seq<nat>, g: Arcs, debtor: nat, p: seq<nat>, j: nat)
    requires Built(plan, w, pairs, was, g, {debtor}) && plan.targets == [debtor] && Route(w, was, p) && j + 1 < |p|
    ensures p[j] < |w.to| && w.to[p[j]] < |plan.ids|
  {
    hide Built, Wired, Route, Node, OnWires, Tail;
    RouteAt(w, was, p, j);
    var i := RouteKind(plan, w, pairs, was, g, debtor, p, j);
    if j == 0 {
      LenderEnds(plan, w, pairs, was, g, {debtor}, i - |plan.keys|);
    } else {
      KeyEnds(plan, w, pairs, was, g, {debtor}, i);
    }
  }

  lemma RouteLength(plan: Plan, w: Wires, pairs: seq<Pair>, was: seq<nat>, g: Arcs, debtor: nat, p: seq<nat>)
    requires Built(plan, w, pairs, was, g, {debtor}) && plan.targets == [debtor] && Route(w, was, p)
    ensures |p| >= 2
  {
    hide Built, Wired, Route, Node, OnWires;
    RouteNotEmpty(w, was, p);
    var i := RouteKind(plan, w, pairs, was, g, debtor, p, 0);
  }

  /** The accounts a route on a fresh network visits. */
  ghost function Accounts(plan: Plan, w: Wires, pairs: seq<Pair>, was: seq<nat>, g: Arcs, debtor: nat, p: seq<nat>): (r: seq<nat>)
    requires Built(plan, w, pairs, was, g, {debtor}) && plan.targets == [debtor] && Route(w, was, p) && |p| >= 2
    ensures |r| == |p| - 1
    ensures forall j :: 0 <= j < |r| ==> p[j] < |w.to| && w.to[p[j]] < |plan.ids| && r[j] == plan.ids[w.to[p[j]]]
  {
    hide Built, Wired, Route, Node, OnWires;
    assert forall j :: 0 <= j < |p| - 1 ==> p[j] < |w.to| && w.to[p[j]] < |plan.ids| by {
      forall j | 0 <= j < |p| - 1 ensures p[j] < |w.to| && w.to[p[j]] < |plan.ids| {
        RouteAccount(plan, w, pairs, was, g, debtor, p, j);
      }
    }
    seq(|p| - 1, j requires 0 <= j < |p| - 1 => plan.ids[w.to[p[j]]])
  }

  /** One of those accounts, and how the route came to it. */
  lemma AccountLeg(plan: Plan, w: Wires, pairs: seq<Pair>, was: seq<nat>, g: Arcs, debtor: nat, p: seq<nat>, j: nat)
    requires Built(plan, w, pairs, was, g, {debtor}) && plan.targets == [debtor] && Route(w, was, p) && |p| >= 2 && j < |p|
    ensures var r := Accounts(plan, w, pairs, was, g, debtor, p);
      && (j == 0 ==> r[0] in plan.lenders && p[0] == 2 * (|plan.keys| + LenderIndex(plan, r[0])) && Get(g.supply, r[0]) > 0)
      && (0 < j < |p| - 1 ==> HasKey(plan, r[j - 1], r[j]) && p[j] == 2 * KeyIndex(plan, r[j - 1], r[j])
                              && Get(g.edge, (r[j - 1], r[j])) > 0)
      && (j == |p| - 1 ==> r[j - 1] == debtor && p[j] == SinkArcOf(plan))
  {
    hide Built, Wired, Route, Node, OnWires, Tail, HasKey, Distinct, Elements;
    CountSize(plan, w, pairs, was, g, {debtor});
    var r := Accounts(plan, w, pairs, was, g, debtor, p);
    var i := RouteKind(plan, w, pairs, was, g, debtor, p, j);
    RouteAt(w, was, p, j);
    if j > 0 {
      RouteAt(w, was, p, j - 1);
    }
    PairEnds(plan, w, pairs, was, g, {debtor}, i);
    if j == 0 {
      LenderEnds(plan, w, pairs, was, g, {debtor}, i - |plan.keys|);
      DistinctAt(plan.lenders, i - |plan.keys|, LenderIndex(plan, r[0]));
    } else if j < |p| - 1 {
      KeyEnds(plan, w, pairs, was, g, {debtor}, i);
      assert plan.keys[i] == (r[j - 1], r[j]);
      KeyFound(plan, r[j - 1], r[j], i);
    } else {
      SinkEnds(plan, w, pairs, was, g, {debtor}, i - |plan.keys| - |plan.lenders|);
      assert r[j - 1] == debtor;
    }
  }

  lemma RouteLegs(plan: Plan, w: Wires, pairs: seq<Pair>, was: seq<nat>, g: Arcs, debtor: nat, p: seq<nat>) returns (r: seq<nat>)
    requires Built(plan, w, pairs, was, g, {debtor}) && plan.targets == [debtor] && Route(w, was, p)
    ensures FreeRoute(g, debtor, r) && Known(plan, r) && p == ArcsOf(plan, r)
  {
    hide Built, Wired, Route, Node, OnWires, HasKey, Distinct, Elements;
    RouteLength(plan, w, pairs, was, g, debtor, p);
    r := Accounts(plan, w, pairs, was, g, debtor, p);
    AccountLeg(plan, w, pairs, was, g, debtor, p, 0);
    AccountLeg(plan, w, pairs, was, g, debtor, p, |p| - 1);
    forall i | 0 <= i < |r| - 1
      ensures HasKey(plan, Leg(r, i).0, Leg(r, i).1) && Get(g.edge, Leg(r, i)) > 0
      ensures p[i + 1] == 2 * KeyIndex(plan, Leg(r, i).0, Leg(r, i).1)
    {
      AccountLeg(plan, w, pairs, was, g, debtor, p, i + 1);
    }
    assert Known(plan, r);
    var q := ArcsOf(plan, r);
    forall j | 0 <= j < |p| ensures p[j] == q[j] {
      if 0 < j < |p| - 1 {
        AccountLeg(plan, w, pairs, was, g, debtor, p, j);
      }
    }
  }

  // ------------------------------------------------------------- the order of routes --

  /** The same arcs up to i, the same accounts. */
  lemma SameAccounts(plan: Plan, r: seq<nat>, q: seq<nat>, i: nat)
    requires Known(plan, r) && Known(plan, q) && |r| == |q| && i <= |r|
    requires ArcsOf(plan, r)[..i] == ArcsOf(plan, q)[..i]
    ensures r[..i] == q[..i]
  {
    hide Known, HasKey;
    var a, b := ArcsOf(plan, r), ArcsOf(plan, q);
    forall j | 0 <= j < i ensures r[j] == q[j] {
      SamePrefix(a, b, j, i);
      if j > 0 {
        assert a[j] == b[j];
      }
    }
  }

  lemma SortedIndex<K(!new)>(s: seq<K>, less: (K, K) -> bool, i: nat, j: nat)
    requires Sorted(s, less) && i < j < |s|
    ensures less(s[i], s[j])
  {
  }

  /** Of two free routes as long, the one whose arcs were laid first is the one by lower ids. */
  lemma SoonerById(plan: Plan, r: seq<nat>, q: seq<nat>)
    requires Known(plan, r) && Known(plan, q) && |r| == |q|
    requires Sorted(plan.lenders, IdLess) && Sorted(plan.keys, KeyLess)
    requires Sooner(ArcsOf(plan, r), ArcsOf(plan, q))
    ensures Sooner(r, q)
  {
    hide Known, HasKey, Sorted;
    var a, b := ArcsOf(plan, r), ArcsOf(plan, q);
    ArcsOfSize(plan, r);
    var i :| 0 <= i < |a| && i < |b| && a[..i] == b[..i] && a[i] < b[i];
    assert i < |r|;
    SameAccounts(plan, r, q, i);
    if i == 0 {
      SortedIndex(plan.lenders, IdLess, LenderIndex(plan, r[0]), LenderIndex(plan, q[0]));
      assert r[..0] == q[..0];
    } else {
      SamePrefix(r, q, i - 1, i);
      SortedIndex(plan.keys, KeyLess, KeyIndex(plan, Leg(r, i - 1).0, Leg(r, i - 1).1),
                  KeyIndex(plan, Leg(q, i - 1).0, Leg(q, i - 1).1));
    }
  }

  /** The first route of a fresh network, in accounts: no free route is shorter, and with lenders ascending none as short goes
      by lower ids. */
  lemma FirstLegs(plan: Plan, w: Wires, pairs: seq<Pair>, was: seq<nat>, g: Arcs, debtor: nat, p: seq<nat>) returns (r: seq<nat>)
    requires Built(plan, w, pairs, was, g, {debtor}) && plan.targets == [debtor] && First(w, was, p)
    requires Sorted(plan.keys, KeyLess)
    ensures FreeRoute(g, debtor, r) && Known(plan, r) && p == ArcsOf(plan, r)
    ensures forall q :: FreeRoute(g, debtor, q) ==> |r| <= |q|
    ensures Sorted(plan.lenders, IdLess) ==> forall q :: FreeRoute(g, debtor, q) && q != r ==> Nearer(r, q)
  {
    hide Built, Wired, Route, Known, FreeRoute, Sorted, Sooner, ArcsOf;
    RouteInside(w, was, p);
    r := RouteLegs(plan, w, pairs, was, g, debtor, p);
    ArcsOfSize(plan, r);
    forall q | FreeRoute(g, debtor, q)
      ensures |r| <= |q| && (Sorted(plan.lenders, IdLess) && q != r ==> Nearer(r, q))
    {
      LegsRoute(plan, w, pairs, was, g, debtor, q);
      ArcsOfSize(plan, q);
      if |q| == |r| && q != r && Sorted(plan.lenders, IdLess) {
        ArcsApart(plan, r, q);
        SoonerById(plan, r, q);
      }
    }
  }

  lemma ArcsApart(plan: Plan, r: seq<nat>, q: seq<nat>)
    requires Known(plan, r) && Known(plan, q) && |r| == |q| && r != q
    ensures ArcsOf(plan, r) != ArcsOf(plan, q)
  {
    hide Known, ArcsOf;
    assert r[..|r|] == r && q[..|q|] == q;
    if ArcsOf(plan, r) == ArcsOf(plan, q) {
      SameAccounts(plan, r, q, |r|);
    }
  }

  // ------------------------------------------------------------- what the first route carries --

  /** Every arc of the route has room for the amount. */
  ghost predicate Fits(g: Arcs, r: seq<nat>, amount: nat) {
    r != [] && amount <= Get(g.supply, r[0]) && forall i :: 0 <= i < |r| - 1 ==> amount <= Get(g.edge, Leg(r, i))
  }

  lemma RouteCarries(plan: Plan, w: Wires, pairs: seq<Pair>, was: seq<nat>, g: Arcs, debtor: nat, r: seq<nat>, amount: nat)
    requires Built(plan, w, pairs, was, g, {debtor}) && plan.targets == [debtor] && Known(plan, r) && r[|r| - 1] == debtor
    requires Fits(g, r, amount) && amount <= UNBOUNDED
    ensures (forall j :: 0 <= j < |ArcsOf(plan, r)| ==> ArcsOf(plan, r)[j] < |was|)
    ensures Carries(was, ArcsOf(plan, r), amount) == amount
  {
    hide Built, Wired, Known, ArcsOf, Bottleneck;
    ArcsOfSize(plan, r);
    var p := ArcsOf(plan, r);
    forall j | 0 <= j < |p| ensures p[j] < |was| && was[p[j]] >= amount {
      LegArc(plan, w, pairs, was, g, debtor, r, j);
      if 0 < j < |r| {
        assert amount <= Get(g.edge, Leg(r, j - 1));
      }
    }
  }

  lemma KeyOnRoute(plan: Plan, r: seq<nat>, i: nat)
    requires Known(plan, r) && i < |plan.keys| && Distinct(plan.keys)
    ensures 2 * i in ArcsOf(plan, r) <==> Uses(r, plan.keys[i])
  {
    hide Known, Distinct, HasKey;
    var p := ArcsOf(plan, r);
    if 2 * i in p {
      var j :| 0 <= j < |p| && p[j] == 2 * i;
      assert 0 < j < |r|;
      assert Leg(r, j - 1) == plan.keys[i];
    }
    if Uses(r, plan.keys[i]) {
      var j :| 0 <= j < |r| - 1 && Leg(r, j) == plan.keys[i];
      KeyOnRouteAt(plan, r, j);
      KeyFound(plan, plan.keys[i].0, plan.keys[i].1, i);
    }
  }

  lemma KeyOnRouteAt(plan: Plan, r: seq<nat>, j: nat)
    requires Known(plan, r) && j + 1 < |r|
    ensures HasKey(plan, Leg(r, j).0, Leg(r, j).1)
    ensures 2 * KeyIndex(plan, Leg(r, j).0, Leg(r, j).1) in ArcsOf(plan, r)
  {
    assert ArcsOf(plan, r)[j + 1] == 2 * KeyIndex(plan, Leg(r, j).0, Leg(r, j).1);
  }

  lemma LenderOnRoute(plan: Plan, r: seq<nat>, i: nat)
    requires Known(plan, r) && i < |plan.lenders| && Distinct(plan.lenders)
    ensures 2 * (|plan.keys| + i) in ArcsOf(plan, r) <==> plan.lenders[i] == r[0]
  {
    hide Known, Distinct, HasKey;
    var p := ArcsOf(plan, r);
    if plan.lenders[i] == r[0] {
      DistinctAt(plan.lenders, i, LenderIndex(plan, r[0]));
      assert p[0] == 2 * (|plan.keys| + i);
    }
    if 2 * (|plan.keys| + i) in p {
      var j :| 0 <= j < |p| && p[j] == 2 * (|plan.keys| + i);
    }
  }

  lemma ArcsEven(plan: Plan, r: seq<nat>, a: nat)
    requires Known(plan, r) && a in ArcsOf(plan, r)
    ensures a % 2 == 0
  {
    hide Known, HasKey;
    var p := ArcsOf(plan, r);
    var j :| 0 <= j < |p| && p[j] == a;
    assert j == 0 || j == |r| || 0 < j < |r|;
  }

  /** What an arc's reverse has gained. */
  lemma BackAlong(plan: Plan, r: seq<nat>, was: seq<nat>, amount: nat, i: nat)
    requires Known(plan, r) && 2 * i + 1 < |was| && was[2 * i + 1] == 0
    ensures Along(was, ArcsOf(plan, r), amount)[2 * i + 1] == if 2 * i in ArcsOf(plan, r) then amount else 0
  {
    hide Known, ArcsOf;
    if 2 * i + 1 in ArcsOf(plan, r) {
      ArcsEven(plan, r, 2 * i + 1);
    }
  }

  /** Exactly the route, with the amount on every arc of it. */
  ghost predicate Carried(h: Arcs, r: seq<nat>, amount: nat) {
    && r != []
    && (forall k :: Get(h.edge, k) == if Uses(r, k) then amount else 0)
    && (forall u :: Get(h.supply, u) == if u == r[0] then amount else 0)
  }

  lemma RouteCarried(plan: Plan, w: Wires, pairs: seq<Pair>, was: seq<nat>, now: seq<nat>, g: Arcs, debtor: nat,
                     r: seq<nat>, amount: nat)
    requires Built(plan, w, pairs, was, g, {debtor}) && Known(plan, r) && FreeRoute(g, debtor, r)
    requires now == Along(was, ArcsOf(plan, r), amount)
    ensures |now| == 2 * plan.Count() && Carried(plan.Backward(now), r, amount)
  {
    hide Built, Wired, Known, ArcsOf, Along, Plan.Backward, Distinct, Elements, HasKey, Uses;
    CountSize(plan, w, pairs, was, g, {debtor});
    assert |now| == |was| by { AlongSize(was, ArcsOf(plan, r), amount); }
    ColumnKeys(plan, w, pairs, was, now, g, {debtor});
    var b := plan.Backward(now);
    forall k ensures Get(b.edge, k) == if Uses(r, k) then amount else 0 {
      if k in g.edge {
        var i := PairOfKey(plan, w, pairs, was, g, {debtor}, k);
        BackAlong(plan, r, was, amount, i);
        KeyOnRoute(plan, r, i);
        assert Get(b.edge, plan.keys[i]) == now[2 * i + 1];
      } else {
        NotUsed(g, debtor, r, k);
      }
    }
    forall u ensures Get(b.supply, u) == if u == r[0] then amount else 0 {
      if u in g.supply {
        var i := PairOfLender(plan, w, pairs, was, g, {debtor}, u);
        PairEnds(plan, w, pairs, was, g, {debtor}, |plan.keys| + i);
        BackAlong(plan, r, was, amount, |plan.keys| + i);
        LenderOnRoute(plan, r, i);
        assert Get(b.supply, plan.lenders[i]) == now[2 * |plan.keys| + 2 * i + 1];
      }
    }
  }

  lemma AlongSize(cap: seq<nat>, path: seq<nat>, p: nat)
    ensures |Along(cap, path, p)| == |cap|
  {
  }

  lemma NotUsed(g: Arcs, debtor: nat, r: seq<nat>, k: Key)
    requires FreeRoute(g, debtor, r) && k !in g.edge
    ensures !Uses(r, k)
  {
    forall i | 0 <= i < |r| - 1 ensures Leg(r, i) != k {
      assert Get(g.edge, Leg(r, i)) > 0;
    }
  }

  lemma {:induction false} FirstEnds(w: Wires, was: seq<nat>, now: seq<nat>, p: seq<nat>, amount: nat)
    requires Reaches(w, Search(was, amount), Search(now, 0)) && amount > 0
    requires First(w, was, p) && OnWires(w, p) && |was| == |w.to| && Carries(was, p, amount) == amount
    ensures now == Along(was, p, amount)
  {
    hide First, Along, Bottleneck, OnWires;
    StepTakes(w, Search(was, amount), p);
    var t := Search(Along(was, p, amount), 0);
    ReachesStep(w, Search(was, amount));
    OneEnd(w, Search(was, amount), t, Search(now, 0));
  }

  /** What is wanted and found starts with a first route. */
  lemma SomeFirst(w: Wires, was: seq<nat>, now: seq<nat>, amount: nat) returns (p: seq<nat>)
    requires Reaches(w, Search(was, amount), Search(now, 0)) && amount > 0
    ensures First(w, was, p)
  {
    hide First;
    if Over(w, Search(was, amount)) {
      var k: nat :| Search(now, 0) == Steps(w, Search(was, amount), k);
      OverStays(w, Search(was, amount), k);
      assert false;
    } else {
      p :| First(w, was, p);
    }
  }

  /** A search for what the first route carries draws it and nothing else. */
  lemma FirstDrawn(plan: Plan, w: Wires, pairs: seq<Pair>, was: seq<nat>, now: seq<nat>, g: Arcs, debtor: nat, amount: nat)
      returns (r: seq<nat>)
    requires Built(plan, w, pairs, was, g, {debtor}) && plan.targets == [debtor] && Sorted(plan.keys, KeyLess)
    requires Reaches(w, Search(was, amount), Search(now, 0)) && amount > 0
    ensures FreeRoute(g, debtor, r) && (forall q :: FreeRoute(g, debtor, q) ==> |r| <= |q|)
    ensures Sorted(plan.lenders, IdLess) ==> forall q :: FreeRoute(g, debtor, q) && q != r ==> Nearer(r, q)
    ensures Fits(g, r, amount) && amount <= UNBOUNDED ==> |now| == 2 * plan.Count() && Carried(plan.Backward(now), r, amount)
  {
    hide Built, Wired, First, Sorted, Reaches, Known, ArcsOf, Fits, Carried, Plan.Backward, OnWires, Nearer, Route;
    var p := SomeFirst(w, was, now, amount);
    RouteInside(w, was, p);
    r := FirstLegs(plan, w, pairs, was, g, debtor, p);
    if Fits(g, r, amount) && amount <= UNBOUNDED {
      RouteCarries(plan, w, pairs, was, g, debtor, r, amount);
      FirstEnds(w, was, now, p, amount);
      RouteCarried(plan, w, pairs, was, now, g, debtor, r, amount);
    }
  }
}
