/** How a network is laid out over the ledger: slots, arcs in creation order, and what its cuts are. */
module Layout {
  import opened Arithmetic
  import opened Sums
  import opened Ordered
  import opened Cuts
  import opened Residual

  /** The room of a sink arc; supply is assumed to total less. */
  const UNBOUNDED: nat := 0x3FFF_FFFF_FFFF_FFFF

  ghost predicate DistinctIds(uw: seq<(nat, nat)>) {
    Distinct(Firsts(uw))
  }

  ghost function FreeEdges(edges: map<Key, nat>, reserved: map<Key, nat>, n: nat): map<Key, nat> {
    map k | k in edges && k.0 < n && k.1 < n :: Minus(edges[k], Get(reserved, k))
  }

  ghost function FreeSupply(supply: map<nat, nat>, committed: map<nat, nat>, targets: set<nat>, n: nat, own: bool)
    : map<nat, nat>
  {
    map u | u in supply && u < n && (own || u !in targets) :: Minus(supply[u], Get(committed, u))
  }

  /** What is left to lend: the arcs a query sees. Underwriters among the targets are left out unless `own`. */
  ghost function Free(edges: map<Key, nat>, reserved: map<Key, nat>, committed: map<nat, nat>,
                      supply: map<nat, nat>, targets: set<nat>, n: nat, own: bool): Arcs
  {
    Arcs(FreeEdges(edges, reserved, n), FreeSupply(supply, committed, targets, n, own))
  }

  ghost function Inside(targets: set<nat>, n: nat): set<nat> {
    set t | t in targets && t < n
  }

  /** One pair of arcs: from, to, and the room it was given. */
  datatype Pair = Pair(from: nat, into: nat, room: nat)

  /** Arcs 2i and 2i+1 are pair i and its reverse. */
  ghost predicate Woven(to: seq<nat>, pairs: seq<Pair>) {
    && |to| == 2 * |pairs|
    && forall i :: 0 <= i < |pairs| ==> to[2 * i] == pairs[i].into && to[2 * i + 1] == pairs[i].from
  }

  ghost predicate Fresh(cap: seq<nat>, pairs: seq<Pair>) {
    && |cap| == 2 * |pairs|
    && forall i :: 0 <= i < |pairs| ==> cap[2 * i] == pairs[i].room && cap[2 * i + 1] == 0
  }

  /** Slots rank the participating ids in ascending order. */
  ghost predicate Ranks(slotOf: seq<int>, ids: seq<nat>) {
    && (forall i, j :: 0 <= i < j < |ids| ==> ids[i] < ids[j])
    && (forall id :: 0 <= id < |slotOf| ==> -1 <= slotOf[id] < |ids|)
    && (forall id :: 0 <= id < |slotOf| && slotOf[id] >= 0 ==> ids[slotOf[id]] == id)
    && (forall j :: 0 <= j < |ids| ==> ids[j] < |slotOf| && slotOf[ids[j]] == j)
  }

  /** Which ledger keys, underwriters and targets became arcs, in that order. */
  datatype Plan = Plan(ids: seq<nat>, keys: seq<Key>, lenders: seq<nat>, targets: seq<nat>) {
    function Count(): nat {
      |keys| + |lenders| + |targets|
    }

    ghost predicate EdgeArc(p: Pair, g: Arcs, k: Key) {
      && k in g.edge && p.room == g.edge[k]
      && p.from < |ids| && ids[p.from] == k.0 && p.into < |ids| && ids[p.into] == k.1
    }

    ghost predicate SupplyArc(p: Pair, g: Arcs, u: nat) {
      u in g.supply && p.room == g.supply[u] && p.from == |ids| && p.into < |ids| && ids[p.into] == u
    }

    ghost predicate SinkArc(p: Pair, t: nat) {
      p.room == UNBOUNDED && p.from < |ids| && ids[p.from] == t && p.into == |ids| + 1
    }

    /** Edge arcs first, then supply arcs, then sink arcs. */
    ghost predicate Follows(pairs: seq<Pair>, g: Arcs) {
      && |pairs| == Count()
      && (forall i :: 0 <= i < |keys| ==> EdgeArc(pairs[i], g, keys[i]))
      && (forall i :: 0 <= i < |lenders| ==> SupplyArc(pairs[|keys| + i], g, lenders[i]))
      && (forall i :: 0 <= i < |targets| ==> SinkArc(pairs[|keys| + |lenders| + i], targets[i]))
    }

    /** The lists `reserve` reads back name each planned arc by its ledger key, in plan order. */
    ghost predicate ReadBy(ledgerArc: seq<(Key, nat)>, supplyArc: seq<(nat, nat)>) {
      && |ledgerArc| == |keys| && |supplyArc| == |lenders|
      && (forall i :: 0 <= i < |ledgerArc| ==> ledgerArc[i] == (keys[i], 2 * i))
      && (forall i :: 0 <= i < |supplyArc| ==> supplyArc[i] == (lenders[i], 2 * (|keys| + i)))
    }

    /** Every arc of g is in the plan once. */
    ghost predicate Covers(g: Arcs, goal: set<nat>) {
      && Distinct(ids) && Distinct(keys) && Distinct(lenders)
      && Elements(keys) == g.edge.Keys && Elements(lenders) == g.supply.Keys && Elements(targets) == goal
    }

    /** The room each pair has in its own direction, keyed by ledger. */
    ghost function Forward(cap: seq<nat>): Arcs
      requires |cap| == 2 * Count()
    {
      Arcs(Column(keys, cap, 0), Column(lenders, cap, 2 * |keys|))
    }

    /** The room each pair has in reverse: the flow it carries. */
    ghost function Backward(cap: seq<nat>): Arcs
      requires |cap| == 2 * Count()
    {
      Arcs(Column(keys, cap, 1), Column(lenders, cap, 2 * |keys| + 1))
    }

    ghost function SinkTerm(cap: seq<nat>, D: set<nat>): int -> int {
      (i: int) =>
        if |keys| + |lenders| <= i < Count() && |cap| == 2 * Count() && targets[i - |keys| - |lenders|] !in D
        then cap[2 * i] else 0
    }

    /** Room on the sink arcs of targets left outside D. */
    ghost function SinkRoom(cap: seq<nat>, D: set<nat>): int {
      RangeSum(SinkTerm(cap, D), |keys| + |lenders|, Count())
    }
  }

  /** Every other entry of cap from `first` on, keyed by ks. */
  ghost function Column<K(!new)>(ks: seq<K>, cap: seq<nat>, first: nat): map<K, nat>
    requires first + 2 * |ks| <= |cap| + 1
  {
    MapOf(seq(|ks|, i requires 0 <= i < |ks| => (ks[i], cap[first + 2 * i])))
  }

  lemma ColumnSpec<K(!new)>(ks: seq<K>, cap: seq<nat>, first: nat)
    requires first + 2 * |ks| <= |cap| + 1 && Distinct(ks)
    ensures Column(ks, cap, first).Keys == Elements(ks)
    ensures forall i :: 0 <= i < |ks| ==> Get(Column(ks, cap, first), ks[i]) == cap[first + 2 * i]
  {
    hide MapOf;
    var es := seq(|ks|, i requires 0 <= i < |ks| => (ks[i], cap[first + 2 * i]));
    assert Firsts(es) == ks;
    MapOfSorted(es);
    assert forall i :: 0 <= i < |ks| ==> es[i] == (ks[i], cap[first + 2 * i]);
    forall i | 0 <= i < |ks| ensures Get(MapOf(es), ks[i]) == cap[first + 2 * i] {
      assert es[i].0 == ks[i];
    }
  }

  // ------------------------------------------------ cuts of the network --

  /** S and D split the participants the same way: S holds the source side, D the debtor side. */
  ghost predicate Splits(ids: seq<nat>, S: set<nat>, D: set<nat>) {
    && |ids| in S && |ids| + 1 !in S
    && forall j :: 0 <= j < |ids| ==> (j in S <==> ids[j] !in D)
  }

  ghost function CrossTerm(f: map<Key, nat>, b: map<Key, nat>, D: set<nat>): Key -> int {
    (k: Key) =>
      (if k.0 !in D && k.1 in D then Get(f, k) else 0) + (if k.0 in D && k.1 !in D then Get(b, k) else 0)
  }

  lemma EdgePair(plan: Plan, to: seq<nat>, cap: seq<nat>, pairs: seq<Pair>, g: Arcs, S: set<nat>, D: set<nat>,
                 f: map<Key, nat>, b: map<Key, nat>, i: nat)
    requires Woven(to, pairs) && |cap| == |to| && Splits(plan.ids, S, D)
    requires i < |plan.keys| && i < |pairs| && plan.EdgeArc(pairs[i], g, plan.keys[i])
    requires Get(f, plan.keys[i]) == cap[2 * i] && Get(b, plan.keys[i]) == cap[2 * i + 1]
    ensures PairTerm(to, cap, S)(i) == CrossTerm(f, b, D)(plan.keys[i])
  {
    var p, k := pairs[i], plan.keys[i];
    assert (p.from in S <==> k.0 !in D) && (p.into in S <==> k.1 !in D);
  }

  lemma EdgeSegment(plan: Plan, to: seq<nat>, cap: seq<nat>, pairs: seq<Pair>, g: Arcs, S: set<nat>, D: set<nat>)
    requires Woven(to, pairs) && plan.Follows(pairs, g) && |cap| == |to| && Splits(plan.ids, S, D)
    requires Distinct(plan.keys)
    ensures RangeSum(PairTerm(to, cap, S), 0, |plan.keys|)
         == Into(plan.Forward(cap).edge, D) + OutOf(plan.Backward(cap).edge, D)
  {
    hide Column, Plan.EdgeArc, Plan.SupplyArc, Plan.SinkArc, RangeSum, Sum, Splits, PairTerm, Elements;
    var f, b := Column(plan.keys, cap, 0), Column(plan.keys, cap, 1);
    ColumnSpec(plan.keys, cap, 0);
    ColumnSpec(plan.keys, cap, 1);
    forall i | 0 <= i < |plan.keys| ensures PairTerm(to, cap, S)(0 + i) == CrossTerm(f, b, D)(plan.keys[i]) {
      assert Get(b, plan.keys[i]) == cap[1 + 2 * i];
      EdgePair(plan, to, cap, pairs, g, S, D, f, b, i);
    }
    RangeToSet(plan.keys, CrossTerm(f, b, D), PairTerm(to, cap, S), 0);
    SumPlus(Elements(plan.keys), InTerm(f, D), OutTerm(b, D), CrossTerm(f, b, D));
  }

  lemma SupplySegment(plan: Plan, to: seq<nat>, cap: seq<nat>, pairs: seq<Pair>, g: Arcs, S: set<nat>, D: set<nat>)
    requires Woven(to, pairs) && plan.Follows(pairs, g) && |cap| == |to| && Splits(plan.ids, S, D)
    requires Distinct(plan.lenders)
    ensures RangeSum(PairTerm(to, cap, S), |plan.keys|, |plan.keys| + |plan.lenders|)
         == SuppliedTo(plan.Forward(cap).supply, D)
  {
    hide Column, Plan.EdgeArc, Plan.SinkArc, RangeSum, Sum;
    var L := |plan.keys|;
    var f := Column(plan.lenders, cap, 2 * L);
    ColumnSpec(plan.lenders, cap, 2 * L);
    forall i | 0 <= i < |plan.lenders| ensures PairTerm(to, cap, S)(L + i) == SupplyTerm(f, D)(plan.lenders[i]) {
      assert plan.SupplyArc(pairs[L + i], g, plan.lenders[i]);
    }
    RangeToSet(plan.lenders, SupplyTerm(f, D), PairTerm(to, cap, S), L);
  }

  lemma SinkSegment(plan: Plan, to: seq<nat>, cap: seq<nat>, pairs: seq<Pair>, g: Arcs, S: set<nat>, D: set<nat>)
    requires Woven(to, pairs) && plan.Follows(pairs, g) && |cap| == |to| && Splits(plan.ids, S, D)
    ensures RangeSum(PairTerm(to, cap, S), |plan.keys| + |plan.lenders|, plan.Count()) == plan.SinkRoom(cap, D)
    ensures |to| / 2 == plan.Count()
  {
    var M := |plan.keys| + |plan.lenders|;
    forall i | M <= i < plan.Count() ensures PairTerm(to, cap, S)(i) == plan.SinkTerm(cap, D)(i) {
      assert plan.SinkArc(pairs[M + (i - M)], plan.targets[i - M]);
    }
    RangeSame(PairTerm(to, cap, S), plan.SinkTerm(cap, D), M, plan.Count());
  }

  /** A cut of the network, whatever has been pushed, in the ledger's own terms. */
  lemma CutOfPlan(plan: Plan, to: seq<nat>, cap: seq<nat>, pairs: seq<Pair>, g: Arcs, S: set<nat>, D: set<nat>)
    requires Woven(to, pairs) && plan.Follows(pairs, g) && |cap| == |to| && Splits(plan.ids, S, D)
    requires Distinct(plan.keys) && Distinct(plan.lenders)
    ensures NetCut(to, cap, S)
         == Cut(plan.Forward(cap), D) + OutOf(plan.Backward(cap).edge, D) + plan.SinkRoom(cap, D)
  {
    hide Column, Plan.Follows, Woven, Splits, RangeSum, Sum, PairTerm, Plan.SinkTerm, Plan.SinkRoom;
    EdgeSegment(plan, to, cap, pairs, g, S, D);
    SupplySegment(plan, to, cap, pairs, g, S, D);
    SinkSegment(plan, to, cap, pairs, g, S, D);
    RangeSplit(PairTerm(to, cap, S), 0, |plan.keys|, |plan.keys| + |plan.lenders|);
    RangeSplit(PairTerm(to, cap, S), 0, |plan.keys| + |plan.lenders|, plan.Count());
  }

  // ------------------------------------------------- which arcs are built --

  /** The edges between valid ids, in key order. */
  ghost function KeptKeys(es: seq<(Key, nat)>, i: nat, n: nat): seq<Key>
    requires i <= |es|
  {
    if i == 0 then [] else
      KeptKeys(es, i - 1, n) + if es[i - 1].0.0 < n && es[i - 1].0.1 < n then [es[i - 1].0] else []
  }

  /** The underwriters a query counts, in the order given. */
  ghost function KeptLenders(uw: seq<(nat, nat)>, i: nat, targets: set<nat>, n: nat, own: bool): seq<nat>
    requires i <= |uw|
  {
    if i == 0 then [] else
      KeptLenders(uw, i - 1, targets, n, own) +
      if uw[i - 1].0 < n && (own || uw[i - 1].0 !in targets) then [uw[i - 1].0] else []
  }

  ghost function KeptTargets(targets: seq<nat>, i: nat, n: nat): seq<nat>
    requires i <= |targets|
  {
    if i == 0 then [] else KeptTargets(targets, i - 1, n) + if targets[i - 1] < n then [targets[i - 1]] else []
  }

  lemma KeptKeysNone(es: seq<(Key, nat)>, n: nat)
    ensures KeptKeys(es, 0, n) == []
  {
  }

  lemma KeptKeysStep(es: seq<(Key, nat)>, i: nat, n: nat)
    requires i < |es|
    ensures KeptKeys(es, i + 1, n) ==
      if es[i].0.0 < n && es[i].0.1 < n then KeptKeys(es, i, n) + [es[i].0] else KeptKeys(es, i, n)
  {
  }

  lemma FreeEdgeAt(edges: map<Key, nat>, reserved: map<Key, nat>, n: nat, k: Key)
    requires k in edges && k.0 < n && k.1 < n
    ensures k in FreeEdges(edges, reserved, n)
    ensures FreeEdges(edges, reserved, n)[k] == Minus(edges[k], Get(reserved, k))
  {
  }

  /** k is the key of one of the first i entries. */
  ghost predicate Named<K(!new)>(es: seq<(K, nat)>, i: nat, k: K)
    requires i <= |es|
  {
    exists j :: 0 <= j < i && es[j].0 == k
  }

  lemma NamedStep<K(!new)>(es: seq<(K, nat)>, i: nat, k: K)
    requires 0 < i <= |es|
    ensures Named(es, i, k) <==> Named(es, i - 1, k) || es[i - 1].0 == k
  {
  }

  lemma NamedNone<K(!new)>(es: seq<(K, nat)>, k: K)
    ensures !Named(es, 0, k)
  {
  }

  lemma NamedNotYet<K(!new)>(es: seq<(K, nat)>, i: nat)
    requires i < |es| && Distinct(Firsts(es))
    ensures !Named(es, i, es[i].0)
  {
    forall j | 0 <= j < i ensures es[j].0 != es[i].0 {
      assert Firsts(es)[j] != Firsts(es)[i];
    }
  }

  lemma NamedFirsts<K(!new)>(es: seq<(K, nat)>, k: K)
    ensures Named(es, |es|, k) <==> k in Elements(Firsts(es))
  {
    if k in Elements(Firsts(es)) {
      var j :| 0 <= j < |es| && Firsts(es)[j] == k;
      assert es[j].0 == k;
    }
    if Named(es, |es|, k) {
      var j :| 0 <= j < |es| && es[j].0 == k;
      assert Firsts(es)[j] == k;
    }
  }

  lemma {:induction false} KeptKeysNamed(es: seq<(Key, nat)>, i: nat, n: nat, k: Key)
    requires i <= |es|
    ensures k in KeptKeys(es, i, n) <==> k.0 < n && k.1 < n && Named(es, i, k)
    decreases i
  {
    hide Named;
    if i > 0 {
      KeptKeysNamed(es, i - 1, n, k);
      NamedStep(es, i, k);
    } else {
      NamedNone(es, k);
    }
  }

  lemma {:induction false} KeptKeysSorted(es: seq<(Key, nat)>, i: nat, n: nat)
    requires i <= |es| && forall a, b :: 0 <= a < b < |es| ==> KeyLess(es[a].0, es[b].0)
    ensures Sorted(KeptKeys(es, i, n), KeyLess)
    ensures forall k :: k in KeptKeys(es, i, n) && i < |es| ==> KeyLess(k, es[i].0)
    decreases i
  {
    hide KeyLess;
    KeyLessTotal();
    if i > 0 {
      KeptKeysSorted(es, i - 1, n);
      var front := KeptKeys(es, i - 1, n);
      forall k | k in KeptKeys(es, i, n) && i < |es| ensures KeyLess(k, es[i].0) {
        assert k in front || k == es[i - 1].0;
      }
      forall a, b | 0 <= a < b < |KeptKeys(es, i, n)|
        ensures KeyLess(KeptKeys(es, i, n)[a], KeptKeys(es, i, n)[b])
      {
        assert front[a] in front;
      }
    }
  }

  lemma {:induction false} KeptLendersNamed(uw: seq<(nat, nat)>, i: nat, targets: set<nat>, n: nat, own: bool, u: nat)
    requires i <= |uw|
    ensures u in KeptLenders(uw, i, targets, n, own) <==> u < n && (own || u !in targets) && Named(uw, i, u)
    decreases i
  {
    hide Named;
    if i > 0 {
      KeptLendersNamed(uw, i - 1, targets, n, own, u);
      NamedStep(uw, i, u);
    } else {
      NamedNone(uw, u);
    }
  }

  lemma {:induction false} KeptLendersOnce(uw: seq<(nat, nat)>, i: nat, targets: set<nat>, n: nat, own: bool)
    requires i <= |uw| && DistinctIds(uw)
    ensures Distinct(KeptLenders(uw, i, targets, n, own))
    decreases i
  {
    hide Named;
    if i > 0 {
      KeptLendersOnce(uw, i - 1, targets, n, own);
      KeptLendersNamed(uw, i - 1, targets, n, own, uw[i - 1].0);
      NamedNotYet(uw, i - 1);
    }
  }

  /** Underwriters given in ascending order are kept in ascending order. */
  lemma {:induction false} KeptLendersSorted(uw: seq<(nat, nat)>, i: nat, targets: set<nat>, n: nat, own: bool)
    requires i <= |uw| && forall a, b :: 0 <= a < b < |uw| ==> uw[a].0 < uw[b].0
    ensures Sorted(KeptLenders(uw, i, targets, n, own), IdLess)
    ensures forall j :: 0 <= j < |KeptLenders(uw, i, targets, n, own)| && i < |uw| ==>
      KeptLenders(uw, i, targets, n, own)[j] < uw[i].0
    decreases i
  {
    if i > 0 {
      KeptLendersSorted(uw, i - 1, targets, n, own);
    }
  }

  lemma {:induction false} KeptTargetsSpec(targets: seq<nat>, i: nat, n: nat)
    requires i <= |targets|
    ensures forall t :: t in KeptTargets(targets, i, n) <==> t < n && t in targets[..i]
    decreases i
  {
    if i > 0 {
      KeptTargetsSpec(targets, i - 1, n);
      assert targets[..i] == targets[..i - 1] + [targets[i - 1]];
    }
  }

  lemma KeptKeysCover(edges: map<Key, nat>, reserved: map<Key, nat>, n: nat)
    ensures var es := EdgeEntries(edges); var keys := KeptKeys(es, |es|, n);
      && Sorted(keys, KeyLess) && Distinct(keys)
      && Elements(keys) == FreeEdges(edges, reserved, n).Keys
  {
    hide EdgeEntries, KeptKeys, Named;
    var es := EdgeEntries(edges);
    var keys := KeptKeys(es, |es|, n);
    KeptKeysSorted(es, |es|, n);
    KeyLessTotal();
    SortedDistinct(keys, KeyLess);
    forall k ensures k in Elements(keys) <==> k in FreeEdges(edges, reserved, n).Keys {
      KeptKeysNamed(es, |es|, n, k);
      EntriesNamed(edges, k);
    }
  }

  lemma EntriesNamed(edges: map<Key, nat>, k: Key)
    ensures Named(EdgeEntries(edges), |EdgeEntries(edges)|, k) <==> k in edges
  {
    if k in edges {
      var j :| 0 <= j < |EdgeEntries(edges)| && EdgeEntries(edges)[j] == (k, edges[k]);
    }
  }

  lemma KeptLendersCover(uw: seq<(nat, nat)>, committed: map<nat, nat>, goal: set<nat>, n: nat, own: bool)
    requires DistinctIds(uw)
    ensures var lenders := KeptLenders(uw, |uw|, goal, n, own);
      Distinct(lenders) && Elements(lenders) == FreeSupply(MapOf(uw), committed, goal, n, own).Keys
  {
    hide MapOf, KeptLenders, Named, Distinct, Firsts;
    var lenders := KeptLenders(uw, |uw|, goal, n, own);
    KeptLendersOnce(uw, |uw|, goal, n, own);
    MapOfSorted(uw);
    forall u ensures u in Elements(lenders) <==> u in FreeSupply(MapOf(uw), committed, goal, n, own).Keys {
      KeptLendersNamed(uw, |uw|, goal, n, own, u);
      NamedFirsts(uw, u);
    }
  }

  /** Together the kept arcs cover the free arcs exactly. */
  lemma KeptCover(ids: seq<nat>, edges: map<Key, nat>, reserved: map<Key, nat>, committed: map<nat, nat>,
                  uw: seq<(nat, nat)>, targets: seq<nat>, n: nat, own: bool)
    requires DistinctIds(uw) && forall i, j :: 0 <= i < j < |ids| ==> ids[i] < ids[j]
    ensures var es := EdgeEntries(edges); var goal := Elements(targets);
      Plan(ids, KeptKeys(es, |es|, n), KeptLenders(uw, |uw|, goal, n, own), KeptTargets(targets, |targets|, n))
        .Covers(Free(edges, reserved, committed, MapOf(uw), goal, n, own), Inside(goal, n))
  {
    hide FreeEdges, FreeSupply, KeptKeys, KeptLenders, MapOf, DistinctIds;
    KeptKeysCover(edges, reserved, n);
    KeptLendersCover(uw, committed, Elements(targets), n, own);
    KeptTargetsSpec(targets, |targets|, n);
    assert targets[..|targets|] == targets;
  }

  // --------------------------------------------------- laying arcs down --

  /** The first arcs laid down are those of the edges listed, in that order. */
  ghost predicate EdgesLaid(ids: seq<nat>, edge: map<Key, nat>, ledgerArc: seq<(Key, nat)>, pairs: seq<Pair>) {
    && |ledgerArc| <= |pairs|
    && forall j :: 0 <= j < |ledgerArc| ==>
         ledgerArc[j].1 == 2 * j && Plan(ids, [], [], []).EdgeArc(pairs[j], Arcs(edge, map[]), ledgerArc[j].0)
  }

  lemma EdgesLaidMore(slotOf: seq<int>, ids: seq<nat>, edge: map<Key, nat>, ledgerArc: seq<(Key, nat)>, pairs: seq<Pair>, k: Key)
    requires EdgesLaid(ids, edge, ledgerArc, pairs) && |ledgerArc| == |pairs| && Ranks(slotOf, ids)
    requires k in edge && k.0 < |slotOf| && k.1 < |slotOf| && slotOf[k.0] >= 0 && slotOf[k.1] >= 0
    ensures EdgesLaid(ids, edge, ledgerArc + [(k, 2 * |pairs|)], pairs + [Pair(slotOf[k.0], slotOf[k.1], edge[k])])
    ensures Firsts(ledgerArc + [(k, 2 * |pairs|)]) == Firsts(ledgerArc) + [k]
  {
  }

  lemma EdgesLaidKept(ids: seq<nat>, edge: map<Key, nat>, ledgerArc: seq<(Key, nat)>, pairs: seq<Pair>, more: seq<Pair>)
    requires EdgesLaid(ids, edge, ledgerArc, pairs)
    ensures EdgesLaid(ids, edge, ledgerArc, pairs + more)
  {
  }

  /** The arcs from pair `base` on are those of the underwriters listed, in that order. */
  ghost predicate SupplyLaid(ids: seq<nat>, supply: map<nat, nat>, base: nat, supplyArc: seq<(nat, nat)>, pairs: seq<Pair>) {
    && base + |supplyArc| <= |pairs|
    && forall j :: 0 <= j < |supplyArc| ==>
         && supplyArc[j].1 == 2 * (base + j)
         && Plan(ids, [], [], []).SupplyArc(pairs[base + j], Arcs(map[], supply), supplyArc[j].0)
  }

  lemma SupplyLaidMore(slotOf: seq<int>, ids: seq<nat>, supply: map<nat, nat>, base: nat, supplyArc: seq<(nat, nat)>,
                       pairs: seq<Pair>, u: nat)
    requires SupplyLaid(ids, supply, base, supplyArc, pairs) && |pairs| == base + |supplyArc| && Ranks(slotOf, ids)
    requires u in supply && u < |slotOf| && slotOf[u] >= 0
    ensures SupplyLaid(ids, supply, base, supplyArc + [(u, 2 * |pairs|)], pairs + [Pair(|ids|, slotOf[u], supply[u])])
    ensures Firsts(supplyArc + [(u, 2 * |pairs|)]) == Firsts(supplyArc) + [u]
  {
  }

  lemma SupplyLaidKept(ids: seq<nat>, supply: map<nat, nat>, base: nat, supplyArc: seq<(nat, nat)>, pairs: seq<Pair>,
                       more: seq<Pair>)
    requires SupplyLaid(ids, supply, base, supplyArc, pairs)
    ensures SupplyLaid(ids, supply, base, supplyArc, pairs + more)
  {
  }

  lemma KeptLendersNone(targets: set<nat>, n: nat, own: bool)
    ensures KeptLenders([], 0, targets, n, own) == []
  {
  }

  lemma KeptLendersStep(uw: seq<(nat, nat)>, i: nat, targets: set<nat>, n: nat, own: bool)
    requires i < |uw|
    ensures KeptLenders(uw, 0, targets, n, own) == []
    ensures KeptLenders(uw, i + 1, targets, n, own) ==
      if uw[i].0 < n && (own || uw[i].0 !in targets)
      then KeptLenders(uw, i, targets, n, own) + [uw[i].0] else KeptLenders(uw, i, targets, n, own)
  {
  }

  lemma FreeSupplyAt(uw: seq<(nat, nat)>, committed: map<nat, nat>, targets: set<nat>, n: nat, own: bool, i: nat)
    requires i < |uw| && DistinctIds(uw) && uw[i].0 < n && (own || uw[i].0 !in targets)
    ensures uw[i].0 in FreeSupply(MapOf(uw), committed, targets, n, own)
    ensures FreeSupply(MapOf(uw), committed, targets, n, own)[uw[i].0] == Minus(uw[i].1, Get(committed, uw[i].0))
  {
    MapOfSorted(uw);
  }

  /** The pairs from `base` on are sink arcs of the targets listed, in that order. */
  ghost predicate SinksLaid(ids: seq<nat>, base: nat, sinks: seq<nat>, pairs: seq<Pair>) {
    && base + |sinks| == |pairs|
    && forall j :: 0 <= j < |sinks| ==> Plan(ids, [], [], []).SinkArc(pairs[base + j], sinks[j])
  }

  lemma SinksLaidMore(slotOf: seq<int>, ids: seq<nat>, base: nat, sinks: seq<nat>, pairs: seq<Pair>, t: nat)
    requires SinksLaid(ids, base, sinks, pairs) && Ranks(slotOf, ids) && t < |slotOf| && slotOf[t] >= 0
    ensures SinksLaid(ids, base, sinks + [t], pairs + [Pair(slotOf[t], |ids| + 1, UNBOUNDED)])
  {
  }

  /** Edges, supply and sinks laid down in turn follow the plan. */
  lemma PlanFollowed(plan: Plan, g: Arcs, ledgerArc: seq<(Key, nat)>, supplyArc: seq<(nat, nat)>, pairs: seq<Pair>)
    requires EdgesLaid(plan.ids, g.edge, ledgerArc, pairs) && plan.keys == Firsts(ledgerArc)
    requires SupplyLaid(plan.ids, g.supply, |ledgerArc|, supplyArc, pairs) && plan.lenders == Firsts(supplyArc)
    requires SinksLaid(plan.ids, |ledgerArc| + |supplyArc|, plan.targets, pairs)
    ensures plan.Follows(pairs, g)
    ensures plan.ReadBy(ledgerArc, supplyArc)
  {
    var bare := Plan(plan.ids, [], [], []);
    forall i | 0 <= i < |plan.keys| ensures plan.EdgeArc(pairs[i], g, plan.keys[i]) {
      assert bare.EdgeArc(pairs[i], Arcs(g.edge, map[]), ledgerArc[i].0);
    }
    forall i | 0 <= i < |plan.lenders| ensures plan.SupplyArc(pairs[|plan.keys| + i], g, plan.lenders[i]) {
      assert bare.SupplyArc(pairs[|plan.keys| + i], Arcs(map[], g.supply), supplyArc[i].0);
    }
    forall i | 0 <= i < |plan.targets|
      ensures plan.SinkArc(pairs[|plan.keys| + |plan.lenders| + i], plan.targets[i])
    {
      assert bare.SinkArc(pairs[|ledgerArc| + |supplyArc| + i], plan.targets[i]);
    }
  }

  /** Arcs that follow a plan stay inside its nodes. */
  lemma PlanInside(plan: Plan, g: Arcs, pairs: seq<Pair>, to: seq<nat>)
    requires plan.Follows(pairs, g) && Woven(to, pairs)
    ensures Paired(to, |plan.ids| + 2)
    ensures forall i :: 0 <= i < |pairs| ==> pairs[i].from < |plan.ids| + 2 && pairs[i].into < |plan.ids| + 2
  {
    var L, U := |plan.keys|, |plan.lenders|;
    forall i | 0 <= i < |pairs| ensures pairs[i].from < |plan.ids| + 2 && pairs[i].into < |plan.ids| + 2 {
      if i < L {
        assert plan.EdgeArc(pairs[i], g, plan.keys[i]);
      } else if i < L + U {
        assert plan.SupplyArc(pairs[L + (i - L)], g, plan.lenders[i - L]);
      } else {
        assert plan.SinkArc(pairs[L + U + (i - L - U)], plan.targets[i - L - U]);
      }
    }
    forall a | 0 <= a < |to| ensures to[a] < |plan.ids| + 2 {
      var i := a / 2;
      assert a == 2 * i || a == 2 * i + 1;
      assert pairs[i].from < |plan.ids| + 2 && pairs[i].into < |plan.ids| + 2;
    }
  }
}
