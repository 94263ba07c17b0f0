/** Cuts and flows over a graph of stake edges and supply arcs. */
module Cuts {
  import opened Sums
  import opened Ordered

  /** An amount on every stake edge and on every underwriter's supply arc: a capacity, or a flow. */
  datatype Arcs = Arcs(edge: map<Key, nat>, supply: map<nat, nat>)

  const NOTHING := Arcs(map[], map[])

  ghost function InTerm(edge: map<Key, nat>, D: set<nat>): Key -> int {
    (k: Key) => if k.0 !in D && k.1 in D then Get(edge, k) else 0
  }

  ghost function OutTerm(edge: map<Key, nat>, D: set<nat>): Key -> int {
    (k: Key) => if k.0 in D && k.1 !in D then Get(edge, k) else 0
  }

  ghost function SupplyTerm(supply: map<nat, nat>, D: set<nat>): nat -> int {
    (u: nat) => if u in D then Get(supply, u) else 0
  }

  /** What crosses into D along stake edges, what leaves it, and what underwriters inside D are supplied. */
  ghost function Into(edge: map<Key, nat>, D: set<nat>): int {
    Sum(edge.Keys, InTerm(edge, D))
  }

  ghost function OutOf(edge: map<Key, nat>, D: set<nat>): int {
    Sum(edge.Keys, OutTerm(edge, D))
  }

  ghost function SuppliedTo(supply: map<nat, nat>, D: set<nat>): int {
    Sum(supply.Keys, SupplyTerm(supply, D))
  }

  /** The capacity of the cut whose debtor side is D: every way value can enter D. */
  ghost function Cut(g: Arcs, D: set<nat>): (c: int)
    ensures c >= 0
  {
    SumNonNegative(g.edge.Keys, InTerm(g.edge, D));
    SumNonNegative(g.supply.Keys, SupplyTerm(g.supply, D));
    Into(g.edge, D) + SuppliedTo(g.supply, D)
  }

  // -------------------------------------------------------- minimum cut --

  ghost predicate IsMinCut(g: Arcs, targets: set<nat>, v: int) {
    && (exists D :: targets <= D && Cut(g, D) == v)
    && (forall D :: targets <= D ==> v <= Cut(g, D))
  }

  lemma {:induction false} MinCutExists(g: Arcs, targets: set<nat>, D: set<nat>)
    requires targets <= D
    ensures exists v :: IsMinCut(g, targets, v)
    decreases Cut(g, D)
  {
    if E :| targets <= E && Cut(g, E) < Cut(g, D) {
      MinCutExists(g, targets, E);
    } else {
      assert IsMinCut(g, targets, Cut(g, D));
    }
  }

  /** The least cut that has every target on its debtor side. */
  ghost function MinCut(g: Arcs, targets: set<nat>): int
  {
    MinCutExists(g, targets, targets);
    var v :| IsMinCut(g, targets, v);
    v
  }

  lemma MinCutBelow(g: Arcs, targets: set<nat>, D: set<nat>)
    requires targets <= D
    ensures MinCut(g, targets) <= Cut(g, D)
  {
    MinCutExists(g, targets, targets);
  }

  lemma MinCutAttained(g: Arcs, targets: set<nat>) returns (D: set<nat>)
    ensures targets <= D && Cut(g, D) == MinCut(g, targets)
  {
    MinCutExists(g, targets, targets);
    D :| targets <= D && Cut(g, D) == MinCut(g, targets);
  }

  // ----------------------------------------------------- pointwise order --

  ghost predicate Leq(g: Arcs, h: Arcs) {
    && (forall k :: Get(g.edge, k) <= Get(h.edge, k))
    && (forall u :: Get(g.supply, u) <= Get(h.supply, u))
  }

  /** The same sums taken over any larger set of keys. */
  lemma OverKeys(g: Arcs, D: set<nat>, ks: set<Key>, us: set<nat>)
    requires g.edge.Keys <= ks && g.supply.Keys <= us
    ensures Into(g.edge, D) == Sum(ks, InTerm(g.edge, D))
    ensures OutOf(g.edge, D) == Sum(ks, OutTerm(g.edge, D))
    ensures SuppliedTo(g.supply, D) == Sum(us, SupplyTerm(g.supply, D))
  {
    SumSubset(g.edge.Keys, ks, InTerm(g.edge, D));
    SumSubset(g.edge.Keys, ks, OutTerm(g.edge, D));
    SumSubset(g.supply.Keys, us, SupplyTerm(g.supply, D));
  }

  lemma CutMonotone(g: Arcs, h: Arcs, D: set<nat>)
    requires Leq(g, h)
    ensures Into(g.edge, D) <= Into(h.edge, D)
    ensures SuppliedTo(g.supply, D) <= SuppliedTo(h.supply, D)
    ensures Cut(g, D) <= Cut(h, D)
  {
    hide Sum;
    var ks, us := g.edge.Keys + h.edge.Keys, g.supply.Keys + h.supply.Keys;
    OverKeys(g, D, ks, us);
    OverKeys(h, D, ks, us);
    SumLeq(ks, InTerm(g.edge, D), InTerm(h.edge, D));
    SumLeq(us, SupplyTerm(g.supply, D), SupplyTerm(h.supply, D));
  }

  /** Capacity is monotone in every edge and every supply. */
  lemma MinCutMonotone(g: Arcs, h: Arcs, targets: set<nat>)
    requires Leq(g, h)
    ensures MinCut(g, targets) <= MinCut(h, targets)
  {
    var D := MinCutAttained(h, targets);
    CutMonotone(g, h, D);
    MinCutBelow(g, targets, D);
  }

  /** Measuring more accounts together never lowers the cut. */
  lemma MinCutMoreTargets(g: Arcs, s: set<nat>, t: set<nat>)
    requires s <= t
    ensures MinCut(g, s) <= MinCut(g, t)
  {
    var D := MinCutAttained(g, t);
    MinCutBelow(g, s, D);
  }

  // ------------------------------------------------------------- flows --

  /** What arrives in D and does not leave it. */
  ghost function NetInto(h: Arcs, D: set<nat>): int {
    Into(h.edge, D) - OutOf(h.edge, D) + SuppliedTo(h.supply, D)
  }

  /** Conservation, node by node: everything that arrives leaves, but for `amount` at the debtor. */
  ghost predicate IsFlow(h: Arcs, debtor: nat, amount: nat) {
    forall v: nat :: NetInto(h, {v}) == if v == debtor then amount else 0
  }

  lemma NetIntoAdds(h: Arcs, D: set<nat>, v: nat)
    requires v !in D
    ensures NetInto(h, D + {v}) == NetInto(h, D) + NetInto(h, {v})
  {
    var E := D + {v};
    var ks, us := h.edge.Keys, h.supply.Keys;
    var f := (k: Key) => InTerm(h.edge, E)(k) + OutTerm(h.edge, D)(k) + OutTerm(h.edge, {v})(k);
    var a := (k: Key) => InTerm(h.edge, E)(k) + OutTerm(h.edge, D)(k);
    var b := (k: Key) => InTerm(h.edge, D)(k) + InTerm(h.edge, {v})(k);
    SumPlus(ks, InTerm(h.edge, E), OutTerm(h.edge, D), a);
    SumPlus(ks, a, OutTerm(h.edge, {v}), f);
    SumPlus(ks, InTerm(h.edge, D), InTerm(h.edge, {v}), b);
    SumPlus(ks, b, OutTerm(h.edge, E), f);
    SumPlus(us, SupplyTerm(h.supply, D), SupplyTerm(h.supply, {v}), SupplyTerm(h.supply, E));
  }

  lemma NothingInto(h: Arcs)
    ensures NetInto(h, {}) == 0
  {
    SumZero(h.edge.Keys, InTerm(h.edge, {}));
    SumZero(h.edge.Keys, OutTerm(h.edge, {}));
    SumZero(h.supply.Keys, SupplyTerm(h.supply, {}));
  }

  /** What a set keeps is what its members keep. */
  lemma {:induction false} NetIntoSums(h: Arcs, D: set<nat>)
    ensures NetInto(h, D) == Sum(D, (v: nat) => NetInto(h, {v}))
    decreases |D|
  {
    hide NetInto, Sum;
    var f := (v: nat) => NetInto(h, {v});
    if D == {} {
      NothingInto(h);
      SumZero(D, f);
    } else {
      var v :| v in D;
      NetIntoSums(h, D - {v});
      NetIntoAdds(h, D - {v}, v);
      SumRemove(D, f, v);
      SumSame(D - {v}, f, (v: nat) => NetInto(h, {v}));
      assert D - {v} + {v} == D;
    }
    SumSame(D, f, (v: nat) => NetInto(h, {v}));
  }

  /** Conservation everywhere but at a set of accounts, which keep `amount` between them. */
  ghost predicate IsFlowInto(h: Arcs, goal: set<nat>, amount: nat) {
    && (forall v: nat :: v !in goal ==> NetInto(h, {v}) == 0)
    && (forall v: nat :: v in goal ==> NetInto(h, {v}) >= 0)
    && Sum(goal, (v: nat) => NetInto(h, {v})) == amount
  }

  lemma IntoOne(h: Arcs, debtor: nat, amount: nat)
    requires IsFlowInto(h, {debtor}, amount)
    ensures IsFlow(h, debtor, amount)
  {
    hide NetInto;
    var f := (v: nat) => NetInto(h, {v});
    SumRemove({debtor}, f, debtor);
    SumSame({debtor}, f, (v: nat) => NetInto(h, {v}));
    SumZero({debtor} - {debtor}, f);
  }

  /** Conservation at every node is conservation across every set. */
  lemma {:induction false} FlowAcross(h: Arcs, debtor: nat, amount: nat, D: set<nat>)
    requires IsFlow(h, debtor, amount)
    ensures NetInto(h, D) == if debtor in D then amount else 0
    decreases |D|
  {
    hide NetInto;
    if D == {} {
      NothingInto(h);
    } else {
      var v :| v in D;
      FlowAcross(h, debtor, amount, D - {v});
      NetIntoAdds(h, D - {v}, v);
      assert D - {v} + {v} == D;
    }
  }

  /** Weak duality, with what the flow takes from the cut made explicit. */
  lemma FlowCrosses(h: Arcs, debtor: nat, amount: nat, D: set<nat>)
    requires IsFlow(h, debtor, amount) && debtor in D
    ensures amount <= Cut(h, D)
  {
    FlowAcross(h, debtor, amount, D);
    SumNonNegative(h.edge.Keys, OutTerm(h.edge, D));
  }

  lemma FlowBelowCut(h: Arcs, g: Arcs, debtor: nat, amount: nat, D: set<nat>)
    requires IsFlow(h, debtor, amount) && Leq(h, g) && debtor in D
    ensures amount <= Cut(g, D)
  {
    FlowCrosses(h, debtor, amount, D);
    CutMonotone(h, g, D);
  }

  ghost function Total(supply: map<nat, nat>): (t: int)
    ensures t >= 0
  {
    SumNonNegative(supply.Keys, u => Get(supply, u));
    Sum(supply.Keys, u => Get(supply, u))
  }

  /** A conserved flow's supply entries total its amount. */
  lemma AmountIsSupply(h: Arcs, debtor: nat, amount: nat)
    requires IsFlow(h, debtor, amount)
    ensures Total(h.supply) == amount
  {
    hide Sum, IsFlow;
    var D := (set k | k in h.edge.Keys :: k.0) + (set k | k in h.edge.Keys :: k.1) + h.supply.Keys + {debtor};
    FlowAcross(h, debtor, amount, D);
    SumZero(h.edge.Keys, InTerm(h.edge, D));
    SumZero(h.edge.Keys, OutTerm(h.edge, D));
    SumSame(h.supply.Keys, SupplyTerm(h.supply, D), u => Get(h.supply, u));
  }

  // -------------------------------------------------------- arithmetic --

  /** g is the pointwise sum of a and b. */
  ghost predicate IsSum(g: Arcs, a: Arcs, b: Arcs) {
    && (forall k :: Get(g.edge, k) == Get(a.edge, k) + Get(b.edge, k))
    && (forall u :: Get(g.supply, u) == Get(a.supply, u) + Get(b.supply, u))
  }

  lemma SumCrosses(g: Arcs, a: Arcs, b: Arcs, D: set<nat>)
    requires IsSum(g, a, b)
    ensures Cut(g, D) == Cut(a, D) + Cut(b, D)
    ensures NetInto(g, D) == NetInto(a, D) + NetInto(b, D)
    ensures SuppliedTo(g.supply, D) == SuppliedTo(a.supply, D) + SuppliedTo(b.supply, D)
  {
    hide Into, OutOf, SuppliedTo;
    EdgeSumsCross(g, a, b, D);
    SupplySumsCross(g, a, b, D);
  }

  lemma EdgeSumsCross(g: Arcs, a: Arcs, b: Arcs, D: set<nat>)
    requires IsSum(g, a, b)
    ensures Into(g.edge, D) == Into(a.edge, D) + Into(b.edge, D)
    ensures OutOf(g.edge, D) == OutOf(a.edge, D) + OutOf(b.edge, D)
  {
    hide Sum, SuppliedTo;
    var ks := g.edge.Keys + a.edge.Keys + b.edge.Keys;
    OverKeys(g, D, ks, g.supply.Keys);
    OverKeys(a, D, ks, a.supply.Keys);
    OverKeys(b, D, ks, b.supply.Keys);
    SumPlus(ks, InTerm(a.edge, D), InTerm(b.edge, D), InTerm(g.edge, D));
    SumPlus(ks, OutTerm(a.edge, D), OutTerm(b.edge, D), OutTerm(g.edge, D));
  }

  lemma SupplySumsCross(g: Arcs, a: Arcs, b: Arcs, D: set<nat>)
    requires IsSum(g, a, b)
    ensures SuppliedTo(g.supply, D) == SuppliedTo(a.supply, D) + SuppliedTo(b.supply, D)
  {
    hide Sum, Into, OutOf;
    var us := g.supply.Keys + a.supply.Keys + b.supply.Keys;
    OverKeys(g, D, g.edge.Keys, us);
    OverKeys(a, D, a.edge.Keys, us);
    OverKeys(b, D, b.edge.Keys, us);
    SumPlus(us, SupplyTerm(a.supply, D), SupplyTerm(b.supply, D), SupplyTerm(g.supply, D));
  }

  lemma FlowsAddAt(g: Arcs, a: Arcs, b: Arcs, debtor: nat, m: nat, n: nat, v: nat)
    requires IsSum(g, a, b) && IsFlow(a, debtor, m) && IsFlow(b, debtor, n)
    ensures NetInto(g, {v}) == if v == debtor then m + n else 0
  {
    var x, y := NetInto(a, {v}), NetInto(b, {v});
    assert x + y == if v == debtor then m + n else 0;
    SumCrosses(g, a, b, {v});
  }

  /** Two flows into one debtor add. */
  lemma FlowsAdd(g: Arcs, a: Arcs, b: Arcs, debtor: nat, m: nat, n: nat)
    requires IsSum(g, a, b) && IsFlow(a, debtor, m) && IsFlow(b, debtor, n)
    ensures IsFlow(g, debtor, m + n)
  {
    forall v: nat ensures NetInto(g, {v}) == if v == debtor then m + n else 0 {
      FlowsAddAt(g, a, b, debtor, m, n, v);
    }
  }

  /** Submodularity: two cuts cost at least their union and their intersection. */
  lemma Submodular(g: Arcs, D: set<nat>, E: set<nat>)
    ensures Cut(g, D + E) + Cut(g, D * E) <= Cut(g, D) + Cut(g, E)
  {
    var ks, us := g.edge.Keys, g.supply.Keys;
    var f := (k: Key) => InTerm(g.edge, D + E)(k) + InTerm(g.edge, D * E)(k);
    var h := (k: Key) => InTerm(g.edge, D)(k) + InTerm(g.edge, E)(k);
    SumPlus(ks, InTerm(g.edge, D + E), InTerm(g.edge, D * E), f);
    SumPlus(ks, InTerm(g.edge, D), InTerm(g.edge, E), h);
    SumLeq(ks, f, h);
    var p := (u: nat) => SupplyTerm(g.supply, D)(u) + SupplyTerm(g.supply, E)(u);
    SumPlus(us, SupplyTerm(g.supply, D), SupplyTerm(g.supply, E), p);
    SumPlus(us, SupplyTerm(g.supply, D + E), SupplyTerm(g.supply, D * E), p);
  }

  /** Splitting a coalition never raises what it can carry together. */
  lemma MinCutSubadditive(g: Arcs, s: set<nat>, t: set<nat>)
    ensures MinCut(g, s + t) <= MinCut(g, s) + MinCut(g, t)
  {
    var D := MinCutAttained(g, s);
    var E := MinCutAttained(g, t);
    Submodular(g, D, E);
    MinCutBelow(g, s + t, D + E);
  }

  /** g and h differ at most on one edge, which h carries more on. */
  ghost predicate Widens(g: Arcs, h: Arcs, x: nat, y: nat) {
    && Leq(g, h)
    && (forall k :: k != (x, y) ==> Get(g.edge, k) == Get(h.edge, k))
    && (forall u :: Get(g.supply, u) == Get(h.supply, u))
  }

  /** Only a cut with y on its debtor side and x on the other sees the edge between them. */
  lemma WidenedCut(g: Arcs, h: Arcs, x: nat, y: nat, D: set<nat>)
    requires Widens(g, h, x, y)
    ensures Cut(h, D) == Cut(g, D) + if x !in D && y in D then Get(h.edge, (x, y)) - Get(g.edge, (x, y)) else 0
  {
    var more: map<Key, nat> := map[(x, y) := Get(h.edge, (x, y)) - Get(g.edge, (x, y))];
    var gap := Arcs(more, map[]);
    SumCrosses(h, g, gap, D);
    SumRemove(more.Keys, InTerm(more, D), (x, y));
    assert more.Keys - {(x, y)} == {};
    SumZero(gap.supply.Keys, SupplyTerm(gap.supply, D));
  }

  /** An edge out of x that carries all x can be reached with is wide enough for every cut: widening it changes
      nothing for any set without x. */
  lemma WideEnough(g: Arcs, h: Arcs, x: nat, y: nat, targets: set<nat>)
    requires Widens(g, h, x, y) && x !in targets && Get(g.edge, (x, y)) >= MinCut(g, {x})
    ensures MinCut(h, targets) == MinCut(g, targets)
  {
    hide MinCut, Cut;
    MinCutMonotone(g, h, targets);
    var D := MinCutAttained(g, targets);
    WidenedCut(g, h, x, y, D);
    if x !in D && y in D {
      var E := MinCutAttained(g, {x});
      var bare := Arcs(g.edge[(x, y) := 0], g.supply);
      Submodular(bare, D, E);
      WidenedCut(bare, g, x, y, D);
      WidenedCut(bare, g, x, y, E);
      WidenedCut(bare, g, x, y, D + E);
      WidenedCut(g, h, x, y, D + E);
      MinCutBelow(h, targets, D + E);
    } else {
      MinCutBelow(h, targets, D);
    }
  }
}
