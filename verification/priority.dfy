/** What the order of the search means on the ledger: a debtor's own supply is drawn first, and direct stake edges before detours. */
module Priority {
  import opened Arithmetic
  import opened Sums
  import opened Ordered
  import opened Cuts
  import opened Residual
  import opened Augmenting
  import opened Layout
  import opened MaxFlow
  import opened Drawn

  /** Where the arcs of pair i lead. */
  lemma PairEnds(plan: Plan, w: Wires, pairs: seq<Pair>, was: seq<nat>, g: Arcs, goal: set<nat>, i: nat)
    requires Built(plan, w, pairs, was, g, goal) && i < plan.Count()
    ensures |w.to| == |was| == 2 * plan.Count() && |pairs| == plan.Count()
    ensures Tail(w, 2 * i) == w.to[2 * i + 1] == pairs[i].from && Tail(w, 2 * i + 1) == w.to[2 * i] == pairs[i].into
    ensures was[2 * i] == pairs[i].room && was[2 * i + 1] == 0
  {
    hide Wired, Plan.Follows, Plan.Covers;
    CountSize(plan, w, pairs, was, g, goal);
  }

  lemma CountSize(plan: Plan, w: Wires, pairs: seq<Pair>, was: seq<nat>, g: Arcs, goal: set<nat>)
    requires Built(plan, w, pairs, was, g, goal)
    ensures |pairs| == plan.Count() && |was| == |w.to| == 2 * plan.Count()
    ensures w.src == |plan.ids| && w.snk == |plan.ids| + 1
    ensures Distinct(plan.ids) && Distinct(plan.keys) && Distinct(plan.lenders)
    ensures Elements(plan.keys) == g.edge.Keys && Elements(plan.lenders) == g.supply.Keys
  {
    hide Wired;
  }

  lemma KeyEnds(plan: Plan, w: Wires, pairs: seq<Pair>, was: seq<nat>, g: Arcs, goal: set<nat>, i: nat)
    requires Built(plan, w, pairs, was, g, goal) && i < |plan.keys| && i < |pairs|
    ensures pairs[i].from < |plan.ids| && plan.ids[pairs[i].from] == plan.keys[i].0
    ensures pairs[i].into < |plan.ids| && plan.ids[pairs[i].into] == plan.keys[i].1
    ensures plan.keys[i] in g.edge && pairs[i].room == g.edge[plan.keys[i]]
  {
    hide Wired;
    assert plan.EdgeArc(pairs[i], g, plan.keys[i]);
  }

  lemma LenderEnds(plan: Plan, w: Wires, pairs: seq<Pair>, was: seq<nat>, g: Arcs, goal: set<nat>, i: nat)
    requires Built(plan, w, pairs, was, g, goal) && i < |plan.lenders| && |plan.keys| + i < |pairs|
    ensures var p := pairs[|plan.keys| + i];
      p.from == |plan.ids| && p.into < |plan.ids| && plan.ids[p.into] == plan.lenders[i]
      && plan.lenders[i] in g.supply && p.room == g.supply[plan.lenders[i]]
  {
    hide Wired;
    assert plan.SupplyArc(pairs[|plan.keys| + i], g, plan.lenders[i]);
  }

  lemma SinkEnds(plan: Plan, w: Wires, pairs: seq<Pair>, was: seq<nat>, g: Arcs, goal: set<nat>, i: nat)
    requires Built(plan, w, pairs, was, g, goal) && i < |plan.targets| && |plan.keys| + |plan.lenders| + i < |pairs|
    ensures var p := pairs[|plan.keys| + |plan.lenders| + i];
      p.from < |plan.ids| && plan.ids[p.from] == plan.targets[i] && p.into == |plan.ids| + 1 && p.room == UNBOUNDED
  {
    hide Wired;
    assert plan.SinkArc(pairs[|plan.keys| + |plan.lenders| + i], plan.targets[i]);
  }

  /** What kind of pair i is. */
  lemma PairKind(plan: Plan, w: Wires, pairs: seq<Pair>, was: seq<nat>, g: Arcs, goal: set<nat>, i: nat)
    requires Built(plan, w, pairs, was, g, goal) && i < plan.Count() == |pairs|
    ensures pairs[i].from == |plan.ids| <==> |plan.keys| <= i < |plan.keys| + |plan.lenders|
    ensures pairs[i].into == |plan.ids| + 1 <==> i >= |plan.keys| + |plan.lenders|
    ensures pairs[i].from <= |plan.ids| && pairs[i].into <= |plan.ids| + 1 && pairs[i].into != |plan.ids|
  {
    hide Built;
    if i < |plan.keys| {
      KeyEnds(plan, w, pairs, was, g, goal, i);
    } else if i < |plan.keys| + |plan.lenders| {
      LenderEnds(plan, w, pairs, was, g, goal, i - |plan.keys|);
    } else {
      SinkEnds(plan, w, pairs, was, g, goal, i - |plan.keys| - |plan.lenders|);
    }
  }

  function SinkArcOf(plan: Plan): nat {
    2 * (|plan.keys| + |plan.lenders|)
  }

  lemma ArcOfPair(x: nat, n: nat) returns (i: nat)
    requires x < 2 * n
    ensures i < n && (x == 2 * i || x == 2 * i + 1)
  {
    i := x / 2;
  }

  /** The one target's slot, and the one arc into the sink. */
  lemma DrainOf(plan: Plan, w: Wires, pairs: seq<Pair>, was: seq<nat>, g: Arcs, goal: set<nat>, debtor: nat) returns (t: nat)
    requires Built(plan, w, pairs, was, g, goal) && plan.targets == [debtor]
    ensures t < |plan.ids| && plan.ids[t] == debtor && Drain(w, t, SinkArcOf(plan))
    ensures SinkArcOf(plan) < |was| && was[SinkArcOf(plan)] == UNBOUNDED
  {
    hide Built, Wired, Tail;
    CountSize(plan, w, pairs, was, g, goal);
    var M := |plan.keys| + |plan.lenders|;
    PairEnds(plan, w, pairs, was, g, goal, M);
    SinkEnds(plan, w, pairs, was, g, goal, 0);
    t := pairs[M].from;
    forall x | 0 <= x < |w.to| && w.to[x] == w.snk ensures x == 2 * M {
      var i := ArcOfPair(x, plan.Count());
      PairEnds(plan, w, pairs, was, g, goal, i);
      PairKind(plan, w, pairs, was, g, goal, i);
    }
  }

  lemma DistinctAt<K(!new)>(s: seq<K>, i: nat, j: nat)
    requires Distinct(s) && i < |s| && j < |s| && s[i] == s[j]
    ensures i == j
  {
  }

  lemma TapOf(plan: Plan, w: Wires, pairs: seq<Pair>, was: seq<nat>, g: Arcs, goal: set<nat>, t: nat, i: nat)
    requires Built(plan, w, pairs, was, g, goal)
    requires t < |plan.ids| && i < |plan.lenders| && plan.lenders[i] == plan.ids[t]
    ensures Tap(w, t, 2 * (|plan.keys| + i))
  {
    hide Built, Wired, Tail, Distinct;
    CountSize(plan, w, pairs, was, g, goal);
    PairEnds(plan, w, pairs, was, g, goal, |plan.keys| + i);
    LenderEnds(plan, w, pairs, was, g, goal, i);
    DistinctAt(plan.ids, pairs[|plan.keys| + i].into, t);
    forall x | 0 <= x < |w.to| && Tail(w, x) == w.src && w.to[x] == t ensures x == 2 * (|plan.keys| + i) {
      var j := ArcOfPair(x, plan.Count());
      PairEnds(plan, w, pairs, was, g, goal, j);
      PairKind(plan, w, pairs, was, g, goal, j);
      LenderEnds(plan, w, pairs, was, g, goal, j - |plan.keys|);
      DistinctAt(plan.lenders, j - |plan.keys|, i);
    }
  }

  /** The debtor's own supply is drawn before anything else. */
  lemma OwnDrawn(plan: Plan, w: Wires, pairs: seq<Pair>, was: seq<nat>, now: seq<nat>, g: Arcs, debtor: nat, amount: nat)
    requires Built(plan, w, pairs, was, g, {debtor}) && PairsKept(was, now) && plan.targets == [debtor]
    requires Reaches(w, Search(was, amount), Search(now, 0))
    requires debtor in g.supply && g.supply[debtor] <= UNBOUNDED
    ensures |now| == 2 * plan.Count() && Get(plan.Backward(now).supply, debtor) == Lesser(amount, g.supply[debtor])
  {
    hide Built, Wired, Steps, Plan.Backward, Drain, Tap, Elements;
    var t := DrainOf(plan, w, pairs, was, g, {debtor}, debtor);
    var i := PairOfLender(plan, w, pairs, was, g, {debtor}, debtor);
    TapOf(plan, w, pairs, was, g, {debtor}, t, i);
    var k: nat :| Search(now, 0) == Steps(w, Search(was, amount), k);
    var a := 2 * (|plan.keys| + i);
    assert a == 2 * |plan.keys| + 2 * i;
    TapSteps(w, was, amount, t, a, SinkArcOf(plan), k);
    ColumnKeys(plan, w, pairs, was, now, g, {debtor});
    PairKept(was, now, |plan.keys| + i);
    assert Get(plan.Backward(now).supply, plan.lenders[i]) == now[a + 1];
  }

  // ------------------------------------------------------------- direct edges --

  /** What an underwriter lends the debtor directly: their supply, through at most the one edge. */
  ghost function DirectTerm(g: Arcs, debtor: nat): nat -> int {
    (u: nat) => if u == debtor then Get(g.supply, u) else Lesser(Get(g.supply, u), Get(g.edge, (u, debtor)))
  }

  /** What fits on routes of at most one stake edge. */
  ghost function DirectRoom(g: Arcs, debtor: nat): int {
    Sum(g.supply.Keys, DirectTerm(g, debtor))
  }

  ghost predicate HasKey(plan: Plan, u: nat, debtor: nat) {
    (u, debtor) in plan.keys
  }

  ghost function KeyIndex(plan: Plan, u: nat, debtor: nat): (j: nat)
    requires HasKey(plan, u, debtor)
    ensures j < |plan.keys| && plan.keys[j] == (u, debtor)
  {
    var j :| 0 <= j < |plan.keys| && plan.keys[j] == (u, debtor);
    j
  }

  /** Lender i's direct way to the debtor, in arcs. */
  ghost function ArmOf(plan: Plan, debtor: nat, i: nat): seq<nat>
    requires i < |plan.lenders|
  {
    var u := plan.lenders[i];
    if u == debtor then [2 * (|plan.keys| + i)]
    else if HasKey(plan, u, debtor) then [2 * (|plan.keys| + i), 2 * KeyIndex(plan, u, debtor)]
    else []
  }

  ghost function ArmsOf(plan: Plan, debtor: nat): seq<seq<nat>> {
    seq(|plan.lenders|, i requires 0 <= i < |plan.lenders| => ArmOf(plan, debtor, i))
  }

  lemma ArmIs(plan: Plan, w: Wires, pairs: seq<Pair>, was: seq<nat>, g: Arcs, goal: set<nat>, debtor: nat, t: nat, i: nat)
    requires Built(plan, w, pairs, was, g, goal) && i < |plan.lenders|
    requires t < |plan.ids| && plan.ids[t] == debtor
    ensures Arm(w, t, ArmOf(plan, debtor, i)) && |was| == |w.to| && OnWires(w, ArmOf(plan, debtor, i))
    ensures Bottleneck(was, ArmOf(plan, debtor, i)) == DirectTerm(g, debtor)(plan.lenders[i])
  {
    hide Built, Wired, Tail, Distinct, HasKey, Bottleneck;
    CountSize(plan, w, pairs, was, g, goal);
    var L, u := |plan.keys|, plan.lenders[i];
    PairEnds(plan, w, pairs, was, g, goal, L + i);
    LenderEnds(plan, w, pairs, was, g, goal, i);
    if u == debtor {
      DistinctAt(plan.ids, pairs[L + i].into, t);
      LeastOfOne(was, 2 * (L + i));
    } else if HasKey(plan, u, debtor) {
      var j := KeyIndex(plan, u, debtor);
      PairEnds(plan, w, pairs, was, g, goal, j);
      KeyEnds(plan, w, pairs, was, g, goal, j);
      DistinctAt(plan.ids, pairs[j].into, t);
      DistinctAt(plan.ids, pairs[L + i].into, pairs[j].from);
      LeastOfTwo(was, 2 * (L + i), 2 * j);
    } else {
      NoKey(plan, g, u, debtor);
      NoLeast(was, []);
    }
  }

  lemma LeastOfOne(cap: seq<nat>, x: nat)
    requires x < |cap|
    ensures Bottleneck(cap, [x]) == cap[x]
  {
  }

  lemma LeastOfTwo(cap: seq<nat>, x: nat, y: nat)
    requires x < |cap| && y < |cap|
    ensures Bottleneck(cap, [x, y]) == Lesser(cap[x], cap[y])
  {
    assert [x, y][..1] == [x];
    LeastOfOne(cap, x);
  }

  lemma NoKey(plan: Plan, g: Arcs, u: nat, debtor: nat)
    requires Elements(plan.keys) == g.edge.Keys && !HasKey(plan, u, debtor)
    ensures Get(g.edge, (u, debtor)) == 0
  {
    assert (u, debtor) !in Elements(plan.keys);
  }

  lemma DirectRoomIsSpare(plan: Plan, w: Wires, pairs: seq<Pair>, was: seq<nat>, g: Arcs, goal: set<nat>, debtor: nat, t: nat)
    requires Built(plan, w, pairs, was, g, goal) && t < |plan.ids| && plan.ids[t] == debtor
    ensures Spare(was, ArmsOf(plan, debtor)) == DirectRoom(g, debtor)
  {
    hide Built, Wired, Distinct, ArmOf, DirectTerm, Bottleneck, RangeSum;
    CountSize(plan, w, pairs, was, g, goal);
    var arms := ArmsOf(plan, debtor);
    forall i | 0 <= i < |plan.lenders| ensures ArmTerm(was, arms)(0 + i) == DirectTerm(g, debtor)(plan.lenders[i]) {
      ArmIs(plan, w, pairs, was, g, goal, debtor, t, i);
    }
    RangeToSet(plan.lenders, DirectTerm(g, debtor), ArmTerm(was, arms), 0);
  }

  /** Whose way an arc is on. */
  lemma ArmOwner(plan: Plan, debtor: nat, i: nat, x: nat)
    requires i < |plan.lenders| && x in ArmOf(plan, debtor, i)
    ensures x == 2 * (|plan.keys| + i) || exists j :: 0 <= j < |plan.keys| && x == 2 * j && plan.keys[j] == (plan.lenders[i], debtor)
  {
    hide HasKey;
    if x != 2 * (|plan.keys| + i) {
      var j := KeyIndex(plan, plan.lenders[i], debtor);
      assert x == 2 * j;
    }
  }

  lemma ArmsDisjoint(plan: Plan, debtor: nat, i: nat, j: nat, x: nat)
    requires Distinct(plan.lenders) && i < |plan.lenders| && j < |plan.lenders|
    requires x in ArmOf(plan, debtor, i) && x in ArmOf(plan, debtor, j)
    ensures i == j
  {
    hide ArmOf, Distinct;
    ArmOwner(plan, debtor, i, x);
    ArmOwner(plan, debtor, j, x);
    if plan.lenders[i] == plan.lenders[j] {
      DistinctAt(plan.lenders, i, j);
    }
  }

  /** An arc with room before anything is pushed runs its pair's own way. */
  lemma FreshArc(plan: Plan, w: Wires, pairs: seq<Pair>, was: seq<nat>, g: Arcs, goal: set<nat>, x: nat) returns (i: nat)
    requires Built(plan, w, pairs, was, g, goal) && x < |was| && was[x] > 0
    ensures i < plan.Count() == |pairs| && x == 2 * i && x < |w.to|
    ensures Tail(w, x) == pairs[i].from && w.to[x] == pairs[i].into
    ensures pairs[i].from == |plan.ids| <==> |plan.keys| <= i < |plan.keys| + |plan.lenders|
    ensures pairs[i].into == |plan.ids| + 1 <==> i >= |plan.keys| + |plan.lenders|
  {
    hide Built, Wired, Tail;
    CountSize(plan, w, pairs, was, g, goal);
    i := ArcOfPair(x, plan.Count());
    PairEnds(plan, w, pairs, was, g, goal, i);
    PairKind(plan, w, pairs, was, g, goal, i);
  }

  /** Every direct way with room is some lender's. */
  lemma ArmIsSome(plan: Plan, w: Wires, pairs: seq<Pair>, was: seq<nat>, g: Arcs, goal: set<nat>, debtor: nat, t: nat, arm: seq<nat>)
    requires Built(plan, w, pairs, was, g, goal) && t < |plan.ids| && plan.ids[t] == debtor && |was| == |w.to|
    requires arm != [] && Arm(w, t, arm) && forall x :: x in arm ==> x < |was| && was[x] > 0
    ensures arm in ArmsOf(plan, debtor)
  {
    hide Built, Wired, Tail, Distinct, HasKey;
    CountSize(plan, w, pairs, was, g, goal);
    var L := |plan.keys|;
    assert arm[0] in arm;
    var m := FreshArc(plan, w, pairs, was, g, goal, arm[0]);
    var i := m - L;
    LenderEnds(plan, w, pairs, was, g, goal, i);
    if |arm| == 1 {
      assert plan.lenders[i] == debtor;
      assert arm == ArmOf(plan, debtor, i);
    } else {
      assert arm[1] in arm;
      var j := FreshArc(plan, w, pairs, was, g, goal, arm[1]);
      KeyEnds(plan, w, pairs, was, g, goal, j);
      KeyFound(plan, plan.lenders[i], debtor, j);
      if plan.lenders[i] == debtor {
        DistinctAt(plan.ids, pairs[m].into, t);
        assert false;
      }
      assert arm == ArmOf(plan, debtor, i);
    }
    assert ArmsOf(plan, debtor)[i] == ArmOf(plan, debtor, i);
  }

  lemma KeyFound(plan: Plan, u: nat, debtor: nat, j: nat)
    requires Distinct(plan.keys) && j < |plan.keys| && plan.keys[j] == (u, debtor)
    ensures HasKey(plan, u, debtor) && KeyIndex(plan, u, debtor) == j
  {
    hide Distinct;
    assert HasKey(plan, u, debtor);
    DistinctAt(plan.keys, KeyIndex(plan, u, debtor), j);
  }

  lemma ArmsAll(plan: Plan, w: Wires, pairs: seq<Pair>, was: seq<nat>, g: Arcs, goal: set<nat>, debtor: nat, t: nat)
    requires Built(plan, w, pairs, was, g, goal) && t < |plan.ids| && plan.ids[t] == debtor
    ensures Arms(w, was, t, ArmsOf(plan, debtor))
  {
    hide Built, Wired, Distinct, Arm, ArmOf;
    CountSize(plan, w, pairs, was, g, goal);
    var arms := ArmsOf(plan, debtor);
    forall i | 0 <= i < |arms| ensures Arm(w, t, arms[i]) {
      ArmIs(plan, w, pairs, was, g, goal, debtor, t, i);
    }
    forall i, j, x | 0 <= i < |arms| && 0 <= j < |arms| && x in arms[i] && x in arms[j] ensures i == j {
      ArmsDisjoint(plan, debtor, i, j, x);
    }
    forall arm: seq<nat> | arm != [] && Arm(w, t, arm) && (forall x :: x in arm ==> x < |was| && was[x] > 0) ensures arm in arms {
      ArmOnWires(w, t, arm);
      ArmIsSome(plan, w, pairs, was, g, goal, debtor, t, arm);
    }
  }

  /** What fits on the debtor's own supply and the direct edges takes no other edge. */
  lemma DirectDrawn(plan: Plan, w: Wires, pairs: seq<Pair>, was: seq<nat>, now: seq<nat>, g: Arcs, debtor: nat, amount: nat,
                    k: Key)
    requires Built(plan, w, pairs, was, g, {debtor}) && PairsKept(was, now) && plan.targets == [debtor]
    requires Reaches(w, Search(was, amount), Search(now, 0)) && amount <= DirectRoom(g, debtor)
    ensures |now| == 2 * plan.Count() && (Get(plan.Backward(now).edge, k) > 0 ==> k.1 == debtor != k.0)
  {
    hide Built, Wired, Steps, Plan.Backward, Drain, Arms, Elements, Spare;
    var t := DrainOf(plan, w, pairs, was, g, {debtor}, debtor);
    ArmsAll(plan, w, pairs, was, g, {debtor}, debtor, t);
    DirectRoomIsSpare(plan, w, pairs, was, g, {debtor}, debtor, t);
    var n: nat :| Search(now, 0) == Steps(w, Search(was, amount), n);
    DirectSteps(w, was, amount, t, SinkArcOf(plan), ArmsOf(plan, debtor), n);
    ColumnKeys(plan, w, pairs, was, now, g, {debtor});
    if Get(plan.Backward(now).edge, k) > 0 {
      KeyLost(plan, w, pairs, was, now, g, debtor, t, k);
    }
  }

  lemma KeyLost(plan: Plan, w: Wires, pairs: seq<Pair>, was: seq<nat>, now: seq<nat>, g: Arcs, debtor: nat, t: nat, k: Key)
    requires Built(plan, w, pairs, was, g, {debtor}) && PairsKept(was, now) && |now| == 2 * plan.Count()
    requires t < |plan.ids| && plan.ids[t] == debtor && OnlyDirect(w, was, now, t, SinkArcOf(plan))
    requires Get(plan.Backward(now).edge, k) > 0
    ensures k.1 == debtor != k.0
  {
    hide Built, Wired, Plan.Backward, PairsKept, Tail, Distinct;
    ColumnKeys(plan, w, pairs, was, now, g, {debtor});
    var i := PairOfKey(plan, w, pairs, was, g, {debtor}, k);
    PairKept(was, now, i);
    CountSize(plan, w, pairs, was, g, {debtor});
    PairEnds(plan, w, pairs, was, g, {debtor}, i);
    KeyEnds(plan, w, pairs, was, g, {debtor}, i);
    assert Get(plan.Backward(now).edge, plan.keys[i]) == now[2 * i + 1];
    assert now[2 * i] < was[2 * i];
    if k.0 == debtor {
      DistinctAt(plan.ids, pairs[i].from, t);
    }
  }
}
