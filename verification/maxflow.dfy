/** What Dinic's result means on the ledger: a minimum cut, and a conserved flow of that value. */
module MaxFlow {
  import opened Arithmetic
  import opened Sums
  import opened Ordered
  import opened Cuts
  import opened Residual
  import opened Layout

  /** A network freshly built over the arcs of g for the accounts in goal. */
  ghost predicate Built(plan: Plan, w: Wires, pairs: seq<Pair>, cap: seq<nat>, g: Arcs, goal: set<nat>) {
    && Woven(w.to, pairs) && plan.Follows(pairs, g) && plan.Covers(g, goal) && Fresh(cap, pairs)
    && w.src == |plan.ids| && w.snk == |plan.ids| + 1
  }

  /** The pair an edge of g became, and the pair of an underwriter. */
  lemma PairOfKey(plan: Plan, w: Wires, pairs: seq<Pair>, cap: seq<nat>, g: Arcs, goal: set<nat>, k: Key) returns (i: nat)
    requires Built(plan, w, pairs, cap, g, goal) && k in g.edge
    ensures i < |plan.keys| && plan.keys[i] == k && |cap| == |w.to| == 2 * plan.Count()
    ensures cap[2 * i] == g.edge[k] && cap[2 * i + 1] == 0
  {
    hide Wired;
    assert k in Elements(plan.keys);
    i :| 0 <= i < |plan.keys| && plan.keys[i] == k;
    assert plan.EdgeArc(pairs[i], g, k);
  }

  lemma PairOfLender(plan: Plan, w: Wires, pairs: seq<Pair>, cap: seq<nat>, g: Arcs, goal: set<nat>, u: nat) returns (i: nat)
    requires Built(plan, w, pairs, cap, g, goal) && u in g.supply
    ensures i < |plan.lenders| && plan.lenders[i] == u && |cap| == |w.to| == 2 * plan.Count()
    ensures cap[2 * |plan.keys| + 2 * i] == g.supply[u] && cap[2 * |plan.keys| + 2 * i + 1] == 0
  {
    hide Wired;
    assert u in Elements(plan.lenders);
    i :| 0 <= i < |plan.lenders| && plan.lenders[i] == u;
    assert plan.SupplyArc(pairs[|plan.keys| + i], g, u);
    assert cap[2 * (|plan.keys| + i)] == pairs[|plan.keys| + i].room && cap[2 * (|plan.keys| + i) + 1] == 0;
  }

  /** The columns of a plan are keyed by exactly the arcs of g. */
  lemma ColumnKeys(plan: Plan, w: Wires, pairs: seq<Pair>, was: seq<nat>, cap: seq<nat>, g: Arcs, goal: set<nat>)
    requires Built(plan, w, pairs, was, g, goal) && |cap| == |was|
    ensures |cap| == |w.to| == 2 * plan.Count()
    ensures plan.Forward(cap).edge.Keys == plan.Backward(cap).edge.Keys == g.edge.Keys
    ensures plan.Forward(cap).supply.Keys == plan.Backward(cap).supply.Keys == g.supply.Keys
    ensures forall i :: 0 <= i < |plan.keys| ==>
      && Get(plan.Forward(cap).edge, plan.keys[i]) == cap[2 * i]
      && Get(plan.Backward(cap).edge, plan.keys[i]) == cap[2 * i + 1]
    ensures forall i :: 0 <= i < |plan.lenders| ==>
      && Get(plan.Forward(cap).supply, plan.lenders[i]) == cap[2 * |plan.keys| + 2 * i]
      && Get(plan.Backward(cap).supply, plan.lenders[i]) == cap[2 * |plan.keys| + 2 * i + 1]
  {
    hide Column, Wired, Elements, Get;
    ColumnSpec(plan.keys, cap, 0);
    ColumnSpec(plan.keys, cap, 1);
    ColumnSpec(plan.lenders, cap, 2 * |plan.keys|);
    ColumnSpec(plan.lenders, cap, 2 * |plan.keys| + 1);
    forall i | 0 <= i < |plan.keys| ensures Get(plan.Backward(cap).edge, plan.keys[i]) == cap[2 * i + 1] {
      assert cap[1 + 2 * i] == cap[2 * i + 1];
    }
    forall i | 0 <= i < |plan.lenders|
      ensures Get(plan.Backward(cap).supply, plan.lenders[i]) == cap[2 * |plan.keys| + 2 * i + 1]
    {
      assert cap[2 * |plan.keys| + 1 + 2 * i] == cap[2 * |plan.keys| + 2 * i + 1];
    }
  }

  lemma FreshColumns(plan: Plan, w: Wires, pairs: seq<Pair>, cap: seq<nat>, g: Arcs, goal: set<nat>)
    requires Built(plan, w, pairs, cap, g, goal)
    ensures |cap| == |w.to| == 2 * plan.Count()
    ensures plan.Forward(cap) == g
    ensures forall D :: OutOf(plan.Backward(cap).edge, D) == 0
  {
    hide Built, Plan.Forward, Plan.Backward;
    ColumnKeys(plan, w, pairs, cap, cap, g, goal);
    var f, b := plan.Forward(cap), plan.Backward(cap);
    forall k | k in g.edge ensures f.edge[k] == g.edge[k] && b.edge[k] == 0 {
      var i := PairOfKey(plan, w, pairs, cap, g, goal, k);
      assert Get(f.edge, plan.keys[i]) == cap[2 * i] && Get(b.edge, plan.keys[i]) == cap[2 * i + 1];
    }
    forall u | u in g.supply ensures f.supply[u] == g.supply[u] {
      var i := PairOfLender(plan, w, pairs, cap, g, goal, u);
      assert Get(f.supply, plan.lenders[i]) == cap[2 * |plan.keys| + 2 * i];
    }
    assert f.edge == g.edge && f.supply == g.supply;
    forall D ensures OutOf(b.edge, D) == 0 {
      SumZero(b.edge.Keys, OutTerm(b.edge, D));
    }
  }

  lemma FreshCut(plan: Plan, w: Wires, pairs: seq<Pair>, cap: seq<nat>, g: Arcs, goal: set<nat>, S: set<nat>, D: set<nat>)
    requires Built(plan, w, pairs, cap, g, goal) && Splits(plan.ids, S, D)
    ensures |cap| == 2 * plan.Count()
    ensures NetCut(w.to, cap, S) == Cut(g, D) + plan.SinkRoom(cap, D)
  {
    FreshColumns(plan, w, pairs, cap, g, goal);
    CutOfPlan(plan, w.to, cap, pairs, g, S, D);
  }

  /** The source side that leaves exactly the participants of D to the sink. */
  ghost function SourceSide(ids: seq<nat>, D: set<nat>): (S: set<nat>)
    ensures Splits(ids, S, D)
  {
    (set j | 0 <= j < |ids| && ids[j] !in D) + {|ids|}
  }

  ghost function DebtorSide(ids: seq<nat>, S: set<nat>): set<nat> {
    set j | 0 <= j < |ids| && j !in S :: ids[j]
  }

  lemma DebtorSideSplits(ids: seq<nat>, S: set<nat>)
    requires Distinct(ids) && |ids| in S && |ids| + 1 !in S
    ensures Splits(ids, S, DebtorSide(ids, S))
  {
  }

  lemma NoSinkRoom(plan: Plan, cap: seq<nat>, D: set<nat>)
    requires |cap| == 2 * plan.Count() && Elements(plan.targets) <= D
    ensures plan.SinkRoom(cap, D) == 0
  {
    RangeZero(plan.SinkTerm(cap, D), |plan.keys| + |plan.lenders|, plan.Count());
  }

  /** Leaving a target on the source side costs at least an unbounded arc. */
  lemma SinkRoomUnbounded(plan: Plan, w: Wires, pairs: seq<Pair>, cap: seq<nat>, g: Arcs, goal: set<nat>, D: set<nat>)
    requires Built(plan, w, pairs, cap, g, goal) && !(goal <= D)
    ensures |cap| == 2 * plan.Count() && plan.SinkRoom(cap, D) >= UNBOUNDED
  {
    hide Wired, RangeSum;
    var M := |plan.keys| + |plan.lenders|;
    var t :| t in goal && t !in D;
    assert t in Elements(plan.targets);
    var i :| 0 <= i < |plan.targets| && plan.targets[i] == t;
    assert plan.SinkArc(pairs[M + i], plan.targets[i]);
    assert cap[2 * (M + i)] == UNBOUNDED;
    SinkTermCounts(plan, cap, D, i);
  }

  lemma SinkTermCounts(plan: Plan, cap: seq<nat>, D: set<nat>, i: nat)
    requires |cap| == 2 * plan.Count() && i < |plan.targets| && plan.targets[i] !in D
    ensures plan.SinkRoom(cap, D) >= cap[2 * (|plan.keys| + |plan.lenders| + i)]
  {
    var M := |plan.keys| + |plan.lenders|;
    var f := plan.SinkTerm(cap, D);
    RangeSplit(f, M, M + i, plan.Count());
    RangeSplit(f, M + i, M + i + 1, plan.Count());
    RangeNonNegative(f, M, M + i);
    RangeNonNegative(f, M + i + 1, plan.Count());
    assert RangeSum(f, M + i, M + i) == 0;
    assert RangeSum(f, M + i, M + i + 1) == f(M + i);
  }

  /** No more than any cut gets through. */
  lemma BelowEveryCut(plan: Plan, w: Wires, pairs: seq<Pair>, was: seq<nat>, now: seq<nat>, g: Arcs, goal: set<nat>,
                      r: nat, D: set<nat>)
    requires Built(plan, w, pairs, was, g, goal) && CutsLose(w, was, now, r) && goal <= D
    ensures r <= Cut(g, D)
  {
    var S := SourceSide(plan.ids, D);
    FreshCut(plan, w, pairs, was, g, goal, S, D);
    NoSinkRoom(plan, was, D);
    NetCutNonNegative(w.to, now, S);
    assert NetCut(w.to, now, S) == NetCut(w.to, was, S) - r;
  }

  lemma BelowSupply(plan: Plan, w: Wires, pairs: seq<Pair>, was: seq<nat>, now: seq<nat>, g: Arcs, goal: set<nat>, r: nat)
    requires Built(plan, w, pairs, was, g, goal) && CutsLose(w, was, now, r)
    ensures r <= Total(g.supply)
  {
    var D := (set k | k in g.edge.Keys :: k.0) + g.supply.Keys + goal;
    BelowEveryCut(plan, w, pairs, was, now, g, goal, r, D);
    SumZero(g.edge.Keys, InTerm(g.edge, D));
    SumSame(g.supply.Keys, SupplyTerm(g.supply, D), (u: nat) => Get(g.supply, u));
  }

  /** A search that stopped short of its limit has filled a cut of the ledger's graph. */
  lemma MeetsSomeCut(plan: Plan, w: Wires, pairs: seq<Pair>, was: seq<nat>, now: seq<nat>, g: Arcs, goal: set<nat>,
                     r: nat, S: set<nat>) returns (D: set<nat>)
    requires Built(plan, w, pairs, was, g, goal) && CutsLose(w, was, now, r)
    requires Total(g.supply) < UNBOUNDED
    requires w.src in S && w.snk !in S && NetCut(w.to, now, S) == 0
    ensures goal <= D && Cut(g, D) == r
  {
    D := DebtorSide(plan.ids, S);
    DebtorSideSplits(plan.ids, S);
    FreshCut(plan, w, pairs, was, g, goal, S, D);
    BelowSupply(plan, w, pairs, was, now, g, goal, r);
    assert NetCut(w.to, now, S) == NetCut(w.to, was, S) - r;
    if goal <= D {
      NoSinkRoom(plan, was, D);
    } else {
      SinkRoomUnbounded(plan, w, pairs, was, g, goal, D);
      assert false;
    }
  }

  /** Dinic's answer is the smaller of its limit and the minimum cut. */
  lemma DinicIsMinCut(plan: Plan, w: Wires, pairs: seq<Pair>, was: seq<nat>, now: seq<nat>, g: Arcs, goal: set<nat>,
                      r: nat, limit: nat)
    requires Built(plan, w, pairs, was, g, goal) && CutsLose(w, was, now, r)
    requires Total(g.supply) < UNBOUNDED && r <= limit
    requires r < limit ==> exists S: set<nat> :: w.src in S && w.snk !in S && NetCut(w.to, now, S) == 0
    ensures r == Lesser(limit, MinCut(g, goal))
  {
    var D := MinCutAttained(g, goal);
    BelowEveryCut(plan, w, pairs, was, now, g, goal, r, D);
    if r < limit {
      var S: set<nat> :| w.src in S && w.snk !in S && NetCut(w.to, now, S) == 0;
      var E := MeetsSomeCut(plan, w, pairs, was, now, g, goal, r, S);
      MinCutBelow(g, goal, E);
    }
  }

  // ------------------------------------------------- the flow it leaves --

  /** What went through plus what is left is what there was. */
  lemma ColumnsAdd(plan: Plan, w: Wires, pairs: seq<Pair>, was: seq<nat>, now: seq<nat>, g: Arcs, goal: set<nat>)
    requires Built(plan, w, pairs, was, g, goal) && PairsKept(was, now)
    ensures |now| == 2 * plan.Count() && IsSum(g, plan.Forward(now), plan.Backward(now))
    ensures plan.Backward(now).edge.Keys == g.edge.Keys && plan.Backward(now).supply.Keys == g.supply.Keys
  {
    hide Built, Plan.Forward, Plan.Backward;
    ColumnKeys(plan, w, pairs, was, now, g, goal);
    var f, b := plan.Forward(now), plan.Backward(now);
    forall k ensures Get(g.edge, k) == Get(f.edge, k) + Get(b.edge, k) {
      if k in g.edge {
        var i := PairOfKey(plan, w, pairs, was, g, goal, k);
        PairKept(was, now, i);
        assert Get(f.edge, plan.keys[i]) == now[2 * i] && Get(b.edge, plan.keys[i]) == now[2 * i + 1];
      }
    }
    forall u ensures Get(g.supply, u) == Get(f.supply, u) + Get(b.supply, u) {
      if u in g.supply {
        var i := PairOfLender(plan, w, pairs, was, g, goal, u);
        PairKept(was, now, |plan.keys| + i);
        assert Get(f.supply, plan.lenders[i]) == now[2 * |plan.keys| + 2 * i];
        assert Get(b.supply, plan.lenders[i]) == now[2 * |plan.keys| + 2 * i + 1];
      }
    }
  }

  lemma PairKept(was: seq<nat>, now: seq<nat>, i: nat)
    requires PairsKept(was, now) && 2 * i + 1 < |was|
    ensures now[2 * i] + now[2 * i + 1] == was[2 * i] + was[2 * i + 1]
  {
  }

  lemma NetIntoOfPush(plan: Plan, w: Wires, pairs: seq<Pair>, was: seq<nat>, now: seq<nat>, g: Arcs, goal: set<nat>,
                      r: nat, D: set<nat>)
    requires Built(plan, w, pairs, was, g, goal) && PairsKept(was, now) && CutsLose(w, was, now, r)
    ensures |was| == |now| == 2 * plan.Count()
    ensures NetInto(plan.Backward(now), D) == r + plan.SinkRoom(now, D) - plan.SinkRoom(was, D)
  {
    var S := SourceSide(plan.ids, D);
    var f, b := plan.Forward(now), plan.Backward(now);
    ColumnsAdd(plan, w, pairs, was, now, g, goal);
    FreshCut(plan, w, pairs, was, g, goal, S, D);
    CutOfPlan(plan, w.to, now, pairs, g, S, D);
    SumCrosses(g, f, b, D);
    assert NetCut(w.to, now, S) == NetCut(w.to, was, S) - r;
  }

  /** Fresh sink arcs lead out of the targets, and have nothing in reverse. */
  lemma TargetsInGoal(plan: Plan, w: Wires, pairs: seq<Pair>, was: seq<nat>, g: Arcs, goal: set<nat>)
    requires Built(plan, w, pairs, was, g, goal)
    ensures |was| == 2 * plan.Count()
    ensures forall j :: 0 <= j < |plan.targets| ==> plan.targets[j] in goal
    ensures forall i :: 0 <= i < plan.Count() ==> was[2 * i + 1] == 0
  {
    hide Wired;
    forall j | 0 <= j < |plan.targets| ensures plan.targets[j] in goal {
      assert plan.targets[j] in Elements(plan.targets);
    }
  }

  /** What a sink arc lost: nothing outside the targets, and never a gain. */
  lemma SinkRoomFalls(plan: Plan, was: seq<nat>, now: seq<nat>, goal: set<nat>, v: nat)
    requires |was| == |now| == 2 * plan.Count()
    requires forall j :: 0 <= j < |plan.targets| ==> plan.targets[j] in goal
    requires forall i :: 0 <= i < plan.Count() ==> now[2 * i] <= was[2 * i]
    ensures plan.SinkRoom(now, {v}) - plan.SinkRoom(was, {v}) >= plan.SinkRoom(now, {}) - plan.SinkRoom(was, {})
    ensures v !in goal ==>
      plan.SinkRoom(now, {v}) == plan.SinkRoom(now, {}) && plan.SinkRoom(was, {v}) == plan.SinkRoom(was, {})
  {
    hide RangeSum;
    var M, n := |plan.keys| + |plan.lenders|, plan.Count();
    var a, b := plan.SinkTerm(now, {v}), plan.SinkTerm(was, {});
    var c, d := plan.SinkTerm(now, {}), plan.SinkTerm(was, {v});
    var left := (i: int) => a(i) + b(i);
    var right := (i: int) => c(i) + d(i);
    RangePlus(a, b, left, M, n);
    RangePlus(c, d, right, M, n);
    RangeLeq(right, left, M, n);
    if v !in goal {
      RangeSame(a, c, M, n);
      RangeSame(d, b, M, n);
    }
  }

  lemma ForwardFalls(plan: Plan, w: Wires, pairs: seq<Pair>, was: seq<nat>, now: seq<nat>, g: Arcs, goal: set<nat>)
    requires Built(plan, w, pairs, was, g, goal) && PairsKept(was, now)
    ensures |was| == |now| == 2 * plan.Count()
    ensures forall i :: 0 <= i < plan.Count() ==> now[2 * i] <= was[2 * i]
  {
    hide Built;
    TargetsInGoal(plan, w, pairs, was, g, goal);
    forall i | 0 <= i < plan.Count() ensures now[2 * i] <= was[2 * i] {
      PairKept(was, now, i);
    }
  }

  lemma AllTargets(plan: Plan, goal: set<nat>)
    requires forall j :: 0 <= j < |plan.targets| ==> plan.targets[j] in goal
    ensures Elements(plan.targets) <= goal
  {
  }

  /** What was pushed, read by ledger key, is conserved everywhere but at the targets, which keep exactly r. */
  lemma PushedIsFlowInto(plan: Plan, w: Wires, pairs: seq<Pair>, was: seq<nat>, now: seq<nat>, g: Arcs, goal: set<nat>, r: nat)
    requires Built(plan, w, pairs, was, g, goal) && PairsKept(was, now) && CutsLose(w, was, now, r)
    ensures |now| == 2 * plan.Count() && IsFlowInto(plan.Backward(now), goal, r)
  {
    hide Built, PairsKept, CutsLose, NetInto, Plan.Backward, Plan.SinkRoom, Plan.Count;
    ColumnsAdd(plan, w, pairs, was, now, g, goal);
    var b := plan.Backward(now);
    NothingInto(b);
    NetIntoOfPush(plan, w, pairs, was, now, g, goal, r, {});
    TargetsInGoal(plan, w, pairs, was, g, goal);
    ForwardFalls(plan, w, pairs, was, now, g, goal);
    forall v: nat ensures NetInto(b, {v}) >= 0 && (v !in goal ==> NetInto(b, {v}) == 0) {
      NetIntoOfPush(plan, w, pairs, was, now, g, goal, r, {v});
      SinkRoomFalls(plan, was, now, goal, v);
    }
    NetIntoOfPush(plan, w, pairs, was, now, g, goal, r, goal);
    AllTargets(plan, goal);
    NoSinkRoom(plan, was, goal);
    NoSinkRoom(plan, now, goal);
    NetIntoSums(b, goal);
  }

  /** For one debtor, that is a conserved flow of exactly r. */
  lemma PushedIsFlow(plan: Plan, w: Wires, pairs: seq<Pair>, was: seq<nat>, now: seq<nat>, g: Arcs, debtor: nat, r: nat)
    requires Built(plan, w, pairs, was, g, {debtor}) && PairsKept(was, now) && CutsLose(w, was, now, r)
    ensures |now| == 2 * plan.Count() && IsFlow(plan.Backward(now), debtor, r)
  {
    hide Built, PairsKept, CutsLose, Plan.Backward;
    PushedIsFlowInto(plan, w, pairs, was, now, g, {debtor}, r);
    IntoOne(plan.Backward(now), debtor, r);
  }

  /** With no target in the id space nothing gets through. */
  lemma NoTargetNoFlow(plan: Plan, w: Wires, pairs: seq<Pair>, was: seq<nat>, now: seq<nat>, g: Arcs, r: nat)
    requires Built(plan, w, pairs, was, g, {}) && CutsLose(w, was, now, r)
    ensures r == 0
  {
    BelowEveryCut(plan, w, pairs, was, now, g, {}, r, {});
    SumZero(g.edge.Keys, InTerm(g.edge, {}));
    SumZero(g.supply.Keys, SupplyTerm(g.supply, {}));
  }
}
