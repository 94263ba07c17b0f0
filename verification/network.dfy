/** The residual flow network: breadth-first levels, blocking phases, and Dinic's loop over them. */
module Networks {
  import opened Arithmetic
  import opened Sums
  import opened Ordered
  import opened Residual
  import opened Augmenting
  import opened Cuts
  import opened Layout
  import opened MaxFlow
  import Adjacency

  datatype Levels = Unreachable | Reached(level: seq<int>)

  /** What a build is held to: the plan of the arcs kept, its participants ascending, every free arc laid with its room,
      and every node's list in creation order. */
  ghost predicate BuildsTo(plan: Plan, w: Wires, pairs: seq<Pair>, cap: seq<nat>, tail: seq<nat>,
                           edges: map<Key, nat>, reserved: map<Key, nat>, committed: map<nat, nat>,
                           uw: seq<(nat, nat)>, targets: seq<nat>, n: nat, own: bool) {
    && Built(plan, w, pairs, cap, Free(edges, reserved, committed, MapOf(uw), Elements(targets), n, own),
             Inside(Elements(targets), n))
    && plan == Plan(plan.ids, KeptKeys(EdgeEntries(edges), |EdgeEntries(edges)|, n),
                    KeptLenders(uw, |uw|, Elements(targets), n, own), KeptTargets(targets, |targets|, n))
    && (forall i, j :: 0 <= i < j < |plan.ids| ==> plan.ids[i] < plan.ids[j])
    && (forall x: nat :: x in plan.ids <==> x < n && Adjacency.TakesPart(EdgeEntries(edges), uw, targets, n, x))
    && |tail| == |w.to| && |w.out| == |plan.ids| + 2
    && (forall u :: 0 <= u < |w.out| ==> w.out[u] == Adjacency.ByTail(tail, u, |tail|))
  }

  class Network {
    var to: seq<nat>
    var cap: seq<nat>
    var tail: seq<nat>
    var headStart: seq<nat>
    var headArcs: seq<nat>
    var ledgerArc: seq<(Key, nat)>
    var supplyArc: seq<(nat, nat)>
    var src: nat
    var snk: nat
    ghost var w: Wires
    ghost var pairs: seq<Pair>
    ghost var plan: Plan

    // ---------------------------------------------------------- building --

    ghost predicate Weaving()
      reads this`to, this`cap, this`tail, this`pairs
    {
      && Woven(to, pairs) && Fresh(cap, pairs)
      && |tail| == |to| && forall i :: 0 <= i < |pairs| ==> tail[2 * i] == pairs[i].from && tail[2 * i + 1] == pairs[i].into
    }

    /** One arc and its reverse, which starts empty. */
    method Arc(u: nat, v: nat, c: nat) returns (id: nat)
      requires Weaving()
      modifies this`to, this`cap, this`tail, this`pairs
      ensures Weaving() && pairs == old(pairs) + [Pair(u, v, c)] && id == 2 * |old(pairs)|
    {
      id := |to|;
      to := to + [v];
      cap := cap + [c];
      tail := tail + [u];
      to := to + [u];
      cap := cap + [0];
      tail := tail + [v];
      pairs := pairs + [Pair(u, v, c)];
    }

    ghost predicate Laying(ids: seq<nat>, edge: map<Key, nat>)
      reads this`to, this`cap, this`tail, this`pairs, this`ledgerArc
    {
      Weaving() && |pairs| == |ledgerArc| && EdgesLaid(ids, edge, ledgerArc, pairs)
    }

    /** One edge's arc, and its id kept under the ledger's own key. */
    method AddEdge(key: Key, free: nat, slotOf: seq<int>, ghost ids: seq<nat>, ghost edge: map<Key, nat>)
      requires Laying(ids, edge) && Ranks(slotOf, ids)
      requires key in edge && edge[key] == free
      requires key.0 < |slotOf| && key.1 < |slotOf| && slotOf[key.0] >= 0 && slotOf[key.1] >= 0
      modifies this`to, this`cap, this`tail, this`pairs, this`ledgerArc
      ensures Laying(ids, edge) && Firsts(ledgerArc) == Firsts(old(ledgerArc)) + [key]
    {
      hide Ranks, EdgesLaid, Woven, Fresh;
      EdgesLaidMore(slotOf, ids, edge, ledgerArc, pairs, key);
      var arc := Arc(slotOf[key.0], slotOf[key.1], free);
      ledgerArc := ledgerArc + [(key, arc)];
    }

    /** Free capacity of every valid edge, in key order. */
    method AddEdges(edges: map<Key, nat>, reserved: map<Key, nat>, slotOf: seq<int>, ghost ids: seq<nat>, n: nat)
      requires Weaving() && pairs == [] && |slotOf| == n && Ranks(slotOf, ids)
      requires forall k :: k in edges && k.0 < n && k.1 < n ==> slotOf[k.0] >= 0 && slotOf[k.1] >= 0
      modifies this`to, this`cap, this`tail, this`pairs, this`ledgerArc
      ensures Laying(ids, FreeEdges(edges, reserved, n))
      ensures Firsts(ledgerArc) == KeptKeys(EdgeEntries(edges), |EdgeEntries(edges)|, n)
    {
      hide Ranks, EdgesLaid, Woven, Fresh, EdgeEntries, StrictTotal, ReservedCursor.Valid, Laying, KeptKeys, FreeEdges;
      var es := EdgeEntries(edges);
      var held := new ReservedCursor(reserved);
      ghost var edge := FreeEdges(edges, reserved, n);
      ledgerArc := [];
      LayingStarts(ids, edge);
      KeptKeysNone(es, n);
      for i := 0 to |es|
        invariant Laying(ids, edge)
        invariant held.Valid() && fresh(held) && held.reserved == reserved
        invariant held.last.Some? ==> i > 0 && (held.last.value == es[i - 1].0 || KeyLess(held.last.value, es[i - 1].0))
        invariant Firsts(ledgerArc) == KeptKeys(es, i, n)
      {
        var (key, weight) := es[i];
        KeptKeysStep(es, i, n);
        if key.0 < n && key.1 < n {
          assert i > 0 ==> KeyLess(es[i - 1].0, key);
          var reservation := held.At(key);
          var free := Minus(weight, reservation);
          FreeEdgeAt(edges, reserved, n, key);
          AddEdge(key, free, slotOf, ids, edge);
        }
      }
    }

    lemma LayingStarts(ids: seq<nat>, edge: map<Key, nat>)
      requires Weaving() && pairs == [] && ledgerArc == []
      ensures Laying(ids, edge)
    {
    }

    ghost predicate Lending(ids: seq<nat>, supply: map<nat, nat>)
      reads this`to, this`cap, this`tail, this`pairs, this`ledgerArc, this`supplyArc
    {
      && Weaving() && |pairs| == |ledgerArc| + |supplyArc|
      && SupplyLaid(ids, supply, |ledgerArc|, supplyArc, pairs)
    }

    method AddLender(u: nat, free: nat, slotOf: seq<int>, ghost ids: seq<nat>, ghost edge: map<Key, nat>,
                     ghost supply: map<nat, nat>)
      requires Lending(ids, supply) && EdgesLaid(ids, edge, ledgerArc, pairs) && Ranks(slotOf, ids) && src == |ids|
      requires u in supply && supply[u] == free && u < |slotOf| && slotOf[u] >= 0
      modifies this`to, this`cap, this`tail, this`pairs, this`supplyArc
      ensures Lending(ids, supply) && EdgesLaid(ids, edge, ledgerArc, pairs)
      ensures Firsts(supplyArc) == Firsts(old(supplyArc)) + [u]
    {
      hide Ranks, EdgesLaid, SupplyLaid, Woven, Fresh;
      SupplyLaidMore(slotOf, ids, supply, |ledgerArc|, supplyArc, pairs, u);
      EdgesLaidKept(ids, edge, ledgerArc, pairs, [Pair(src, slotOf[u], free)]);
      var arc := Arc(src, slotOf[u], free);
      supplyArc := supplyArc + [(u, arc)];
    }

    /** Uncommitted supply of every underwriter the query counts, in the order given. */
    method AddSupply(uw: seq<(nat, nat)>, committed: map<nat, nat>, targets: seq<nat>, slotOf: seq<int>,
                     ghost ids: seq<nat>, n: nat, own: bool, ghost edge: map<Key, nat>)
      requires Weaving() && |pairs| == |ledgerArc| && EdgesLaid(ids, edge, ledgerArc, pairs) && src == |ids|
      requires DistinctIds(uw) && |slotOf| == n && Ranks(slotOf, ids)
      requires forall i :: 0 <= i < |uw| && uw[i].0 < n ==> slotOf[uw[i].0] >= 0
      modifies this`to, this`cap, this`tail, this`pairs, this`supplyArc
      ensures Lending(ids, FreeSupply(MapOf(uw), committed, Elements(targets), n, own))
      ensures EdgesLaid(ids, edge, ledgerArc, pairs)
      ensures Firsts(supplyArc) == KeptLenders(uw, |uw|, Elements(targets), n, own)
    {
      hide Ranks, EdgesLaid, SupplyLaid, Woven, Fresh, Lending, KeptLenders, FreeSupply, DistinctIds;
      var inside := set t | t in targets;
      ghost var supply := FreeSupply(MapOf(uw), committed, inside, n, own);
      supplyArc := [];
      LendingStarts(ids, supply);
      if uw != [] {
        KeptLendersStep(uw, 0, inside, n, own);
      } else {
        KeptLendersNone(inside, n, own);
      }
      for i := 0 to |uw|
        invariant Lending(ids, supply) && EdgesLaid(ids, edge, ledgerArc, pairs)
        invariant Firsts(supplyArc) == KeptLenders(uw, i, inside, n, own)
      {
        var (u, declared) := uw[i];
        KeptLendersStep(uw, i, inside, n, own);
        if u < n && !(!own && u in inside) {
          var free := Minus(declared, Get(committed, u));
          FreeSupplyAt(uw, committed, inside, n, own, i);
          AddLender(u, free, slotOf, ids, edge, supply);
        }
      }
    }

    lemma LendingStarts(ids: seq<nat>, supply: map<nat, nat>)
      requires Weaving() && |pairs| == |ledgerArc| && supplyArc == []
      ensures Lending(ids, supply)
    {
    }

    ghost predicate Sinking(ids: seq<nat>, g: Arcs, sinks: seq<nat>)
      reads this`to, this`cap, this`tail, this`pairs, this`ledgerArc, this`supplyArc
    {
      && Weaving() && EdgesLaid(ids, g.edge, ledgerArc, pairs)
      && SupplyLaid(ids, g.supply, |ledgerArc|, supplyArc, pairs)
      && SinksLaid(ids, |ledgerArc| + |supplyArc|, sinks, pairs)
    }

    method AddSink(t: nat, slotOf: seq<int>, ghost ids: seq<nat>, ghost g: Arcs, ghost sinks: seq<nat>)
      requires Sinking(ids, g, sinks) && Ranks(slotOf, ids) && t < |slotOf| && slotOf[t] >= 0 && snk == |ids| + 1
      modifies this`to, this`cap, this`tail, this`pairs
      ensures Sinking(ids, g, sinks + [t])
    {
      hide Ranks, EdgesLaid, SupplyLaid, SinksLaid, Woven, Fresh;
      ghost var more := [Pair(slotOf[t], snk, UNBOUNDED)];
      EdgesLaidKept(ids, g.edge, ledgerArc, pairs, more);
      SupplyLaidKept(ids, g.supply, |ledgerArc|, supplyArc, pairs, more);
      SinksLaidMore(slotOf, ids, |ledgerArc| + |supplyArc|, sinks, pairs, t);
      var _ := Arc(slotOf[t], snk, UNBOUNDED);
    }

    /** An unbounded arc from every valid target to the sink. */
    method AddTargets(targets: seq<nat>, slotOf: seq<int>, ghost ids: seq<nat>, n: nat, ghost g: Arcs)
      requires Lending(ids, g.supply) && EdgesLaid(ids, g.edge, ledgerArc, pairs) && snk == |ids| + 1
      requires |slotOf| == n && Ranks(slotOf, ids)
      requires forall i :: 0 <= i < |targets| && targets[i] < n ==> slotOf[targets[i]] >= 0
      modifies this`to, this`cap, this`tail, this`pairs
      ensures Sinking(ids, g, KeptTargets(targets, |targets|, n))
    {
      hide Ranks, EdgesLaid, SupplyLaid, Woven, Fresh, Sinking;
      SinkingStarts(ids, g);
      for i := 0 to |targets|
        invariant Sinking(ids, g, KeptTargets(targets, i, n))
      {
        assert KeptTargets(targets, i, n) + [] == KeptTargets(targets, i, n);
        if targets[i] < n {
          AddSink(targets[i], slotOf, ids, g, KeptTargets(targets, i, n));
        }
      }
    }

    lemma SinkingStarts(ids: seq<nat>, g: Arcs)
      requires Lending(ids, g.supply) && EdgesLaid(ids, g.edge, ledgerArc, pairs)
      ensures Sinking(ids, g, [])
    {
    }

    /** What the arcs laid down so far look like as fixed wiring. */
    lemma WiringOf(nodes: nat) returns (wires: Wires)
      requires Weaving() && Paired(to, nodes) && src < nodes && snk < nodes && src != snk
      ensures wires.to == to && wires.src == src && wires.snk == snk && |wires.out| == nodes
      ensures forall a :: 0 <= a < |tail| ==> tail[a] < nodes
      ensures forall u :: 0 <= u < nodes ==> wires.out[u] == Adjacency.ByTail(tail, u, |tail|)
    {
      hide Adjacency.ByTail;
      forall a | 0 <= a < |to| ensures tail[a] == TailOf(to, a) {
        var i := a / 2;
        assert a == 2 * i || a == 2 * i + 1;
        assert tail[2 * i] == pairs[i].from && tail[2 * i + 1] == pairs[i].into;
        assert to[2 * i] == pairs[i].into && to[2 * i + 1] == pairs[i].from;
      }
      var out := seq(nodes, u requires 0 <= u < nodes reads this`tail => Adjacency.ByTail(tail, u, |tail|));
      forall u, j | 0 <= u < nodes && 0 <= j < |out[u]| ensures out[u][j] < |to| && TailOf(to, out[u][j]) == u {
        Adjacency.ByTailSpec(tail, u, |tail|);
      }
      forall a | 0 <= a < |to| ensures Listed(to, out, a) {
        Adjacency.ByTailSpec(tail, tail[a], |tail|);
      }
      wires := Wiring(to, out, src, snk);
    }

    /** Every account an arc will touch has a slot. */
    lemma SlotsForAll(mark: array<bool>, slotOf: seq<int>, edges: map<Key, nat>, uw: seq<(nat, nat)>, targets: seq<nat>, n: nat)
      requires mark.Length == n == |slotOf|
      requires forall x :: 0 <= x < n ==> (mark[x] <==> Adjacency.TakesPart(EdgeEntries(edges), uw, targets, n, x))
      requires forall x :: 0 <= x < n ==> (slotOf[x] >= 0 <==> mark[x])
      ensures forall k :: k in edges && k.0 < n && k.1 < n ==> slotOf[k.0] >= 0 && slotOf[k.1] >= 0
      ensures forall i :: 0 <= i < |uw| && uw[i].0 < n ==> slotOf[uw[i].0] >= 0
      ensures forall i :: 0 <= i < |targets| && targets[i] < n ==> slotOf[targets[i]] >= 0
    {
      var es := EdgeEntries(edges);
      forall k | k in edges && k.0 < n && k.1 < n ensures slotOf[k.0] >= 0 && slotOf[k.1] >= 0 {
        var j :| 0 <= j < |es| && es[j] == (k, edges[k]);
        assert es[j].0 == k;
        assert Adjacency.TakesPart(es, uw, targets, n, k.0) && Adjacency.TakesPart(es, uw, targets, n, k.1);
      }
      forall i | 0 <= i < |uw| && uw[i].0 < n ensures slotOf[uw[i].0] >= 0 {
        assert Adjacency.TakesPart(es, uw, targets, n, uw[i].0);
      }
      forall i | 0 <= i < |targets| && targets[i] < n ensures slotOf[targets[i]] >= 0 {
        assert Adjacency.TakesPart(es, uw, targets, n, targets[i]);
      }
    }

    /** Turn `tail` into the adjacency: each node lists its arcs in creation order. */
    method Index(nodes: nat)
      requires Weaving() && Paired(to, nodes) && src < nodes && snk < nodes && src != snk
      modifies this`headStart, this`headArcs, this`w
      ensures Valid() && |w.out| == nodes
      ensures forall u :: 0 <= u < nodes ==> w.out[u] == Adjacency.ByTail(tail, u, |tail|)
    {
      hide Wired, Adjacency.ByTail, InOrder;
      w := WiringOf(nodes);
      headStart, headArcs := Adjacency.CountingSort(tail, nodes);
      OutInOrder(nodes);
      forall u | 0 <= u < nodes ensures Stretch(u) {
        assert Adjacency.Stretch(tail, headStart, headArcs, u);
      }
    }

    lemma OutInOrder(nodes: nat)
      requires |w.out| == nodes && forall u :: 0 <= u < nodes ==> w.out[u] == Adjacency.ByTail(tail, u, |tail|)
      ensures InOrder(w)
    {
      hide Wired, Adjacency.ByTail;
      forall u | 0 <= u < nodes ensures forall i, j :: 0 <= i < j < |w.out[u]| ==> w.out[u][i] < w.out[u][j] {
        Adjacency.ByTailSpec(tail, u, |tail|);
      }
    }

    /** Edge arcs in key order, then supply arcs in the order given, then sink arcs. */
    method LayArcs(edges: map<Key, nat>, reserved: map<Key, nat>, committed: map<nat, nat>, uw: seq<(nat, nat)>,
                   targets: seq<nat>, n: nat, own: bool, slotOf: seq<int>, ghost ids: seq<nat>, ghost g: Arcs)
      requires DistinctIds(uw) && |slotOf| == n && Ranks(slotOf, ids)
      requires Weaving() && pairs == [] && src == |ids| && snk == |ids| + 1
      requires forall k :: k in edges && k.0 < n && k.1 < n ==> slotOf[k.0] >= 0 && slotOf[k.1] >= 0
      requires forall i :: 0 <= i < |uw| && uw[i].0 < n ==> slotOf[uw[i].0] >= 0
      requires forall i :: 0 <= i < |targets| && targets[i] < n ==> slotOf[targets[i]] >= 0
      requires g == Free(edges, reserved, committed, MapOf(uw), Elements(targets), n, own)
      modifies this`to, this`cap, this`tail, this`pairs, this`ledgerArc, this`supplyArc, this`plan
      ensures Weaving()
      ensures plan == Plan(ids, KeptKeys(EdgeEntries(edges), |EdgeEntries(edges)|, n),
                           KeptLenders(uw, |uw|, Elements(targets), n, own), KeptTargets(targets, |targets|, n))
      ensures plan.Follows(pairs, g) && plan.ReadBy(ledgerArc, supplyArc)
    {
      hide Ranks, EdgesLaid, SupplyLaid, SinksLaid, Woven, Fresh, KeptKeys, KeptLenders, KeptTargets,
           Plan.Follows, FreeEdges, FreeSupply, EdgeEntries, DistinctIds, MapOf;
      AddEdges(edges, reserved, slotOf, ids, n);
      AddSupply(uw, committed, targets, slotOf, ids, n, own, g.edge);
      AddTargets(targets, slotOf, ids, n, g);
      plan := Plan(ids, KeptKeys(EdgeEntries(edges), |EdgeEntries(edges)|, n),
                   KeptLenders(uw, |uw|, Elements(targets), n, own), KeptTargets(targets, |targets|, n));
      PlanFollowed(plan, g, ledgerArc, supplyArc, pairs);
    }

    /** One query's network: the plan it follows, its participants in ascending order, its lists in creation order. */
    constructor Build(edges: map<Key, nat>, reserved: map<Key, nat>, committed: map<nat, nat>,
                      uw: seq<(nat, nat)>, targets: seq<nat>, n: nat, own: bool)
      requires DistinctIds(uw)
      ensures Valid()
      ensures BuildsTo(plan, w, pairs, cap, tail, edges, reserved, committed, uw, targets, n, own)
      ensures plan.ReadBy(ledgerArc, supplyArc)
    {
      hide DistinctIds, KeptKeys, KeptLenders, KeptTargets, Adjacency.ByTail, Adjacency.TakesPart, Ranks,
           Plan.Follows, Plan.Covers, Free, EdgeEntries, MapOf, Wired, Built, Inside, Woven, Fresh, Elements, StrictTotal;
      to, cap, tail, ledgerArc, supplyArc, pairs := [], [], [], [], [], [];
      headStart, headArcs := [], [];
      src, snk := 0, 1;
      w := NoWires();
      plan := Plan([], [], [], []);
      new;
      WeavingStarts();
      var mark := Adjacency.Participants(EdgeEntries(edges), uw, targets, n);
      var slotOf, m, ids := Adjacency.Rank(mark);
      src, snk := m, m + 1;
      SlotsForAll(mark, slotOf[..], edges, uw, targets, n);
      RanksMarked(mark[..], slotOf[..], ids);
      ghost var g := Free(edges, reserved, committed, MapOf(uw), Elements(targets), n, own);
      LayArcs(edges, reserved, committed, uw, targets, n, own, slotOf[..], ids, g);
      PlanInside(plan, g, pairs, to);
      KeptCover(ids, edges, reserved, committed, uw, targets, n, own);
      Index(m + 2);
      BuiltNow(g, Inside(Elements(targets), n));
    }

    lemma WeavingStarts()
      requires to == cap == tail == [] && pairs == []
      ensures Weaving()
    {
    }

    lemma BuiltNow(g: Arcs, goal: set<nat>)
      requires Weaving() && plan.Follows(pairs, g) && plan.Covers(g, goal)
      requires w.to == to && w.src == |plan.ids| && w.snk == |plan.ids| + 1
      ensures Built(plan, w, pairs, cap, g, goal)
    {
    }

    lemma RanksMarked(mark: seq<bool>, slotOf: seq<int>, ids: seq<nat>)
      requires |mark| == |slotOf| && Ranks(slotOf, ids)
      requires forall x :: 0 <= x < |mark| ==> (slotOf[x] >= 0 <==> mark[x])
      ensures forall i, j :: 0 <= i < j < |ids| ==> ids[i] < ids[j]
      ensures forall x: nat :: x in ids <==> x < |mark| && mark[x]
    {
    }

    /** Node u's arcs are a stretch of headArcs. */
    ghost predicate Stretch(u: nat)
      requires u < |w.out|
      reads this`headStart, this`headArcs, this`w
    {
      && u + 1 < |headStart| && headStart[u] <= headStart[u + 1] <= |headArcs|
      && headArcs[headStart[u]..headStart[u + 1]] == w.out[u]
    }

    ghost predicate Valid()
      reads this
    {
      && w.to == to && w.src == src && w.snk == snk && InOrder(w)
      && |cap| == |to|
      && |headStart| == |w.out| + 1
      && forall u {:trigger Stretch(u)} :: 0 <= u < |w.out| ==> Stretch(u)
    }

    /** A node's own list. */
    function Out(u: nat): (arcs: seq<nat>)
      requires Valid() && u < |w.out|
      reads this`headStart, this`headArcs, this`w, this
      ensures arcs == w.out[u]
    {
      assert Stretch(u);
      headArcs[headStart[u]..headStart[u + 1]]
    }

    /** Look at every arc out of the head of the queue, queueing what it reaches first. */
    method Visit(level0: seq<int>, queue: seq<nat>, ghost done: set<nat>) returns (level: seq<int>, q: seq<nat>)
      requires Valid() && queue != [] && Searching(w, cap, level0, done, queue)
      ensures Searching(w, cap, level, done + {queue[0]}, q)
    {
      hide Searching, Wired, ListsLeaving;
      SourceInside(w);
      SearchHead(w, cap, level0, done, queue);
      var u := queue[0];
      ListsAll(w, u);
      q, level := queue, level0;
      var arcs := Out(u);
      for j := 0 to |arcs|
        invariant |level| == |level0| && q != [] && q[0] == u
        invariant Searching(w, cap, level, done, q)
        invariant forall i :: 0 <= i < j && cap[arcs[i]] > 0 ==> level[to[arcs[i]]] != UNREACHED
      {
        var a := arcs[j];
        if cap[a] > 0 && level[to[a]] == UNREACHED {
          SearchHead(w, cap, level, done, q);
          SearchFinds(w, cap, level, done, q, a);
          level := level[to[a] := level[u] + 1];
          q := q + [to[a]];
        }
      }
      SearchFinishes(w, cap, level, done, q, arcs);
      q := q[1..];
    }

    /** Exact distances that reach the sink, or a cut with no room. */
    method LevelGraph() returns (r: Levels)
      requires Valid()
      ensures r.Reached? ==> Bfs(w, cap, r.level) && |r.level| == |w.out| && snk < |w.out| && r.level[snk] >= 0
      ensures r.Unreachable? ==> exists S: set<nat> :: src in S && snk !in S && NetCut(to, cap, S) == 0
    {
      hide Searching, Wired, Bfs;
      SourceInside(w);
      var level := seq(|headStart| - 1, _ => UNREACHED);
      level := level[src := 0];
      var q := [src];
      ghost var done: set<nat> := {};
      SearchStarts(w, cap, level);
      while q != []
        invariant done <= Below(|w.out|)
        invariant Searching(w, cap, level, done, q)
        decreases Below(|w.out|) - done
      {
        ghost var u := q[0];
        SearchHead(w, cap, level, done, q);
        level, q := Visit(level, q, done);
        done := done + {u};
      }
      SearchEnds(w, cap, level, done);
      if level[snk] != UNREACHED {
        r := Reached(level);
      } else {
        r := Unreachable;
      }
    }

    /** Push along a whole path, and find the first arc this filled. */
    method Augment(path: seq<nat>, push: nat, ghost level: seq<int>) returns (cut: nat)
      requires Valid() && Sized(w, cap, level) && Climbs(w, level, path)
      requires forall i :: 0 <= i < |path| ==> cap[path[i]] >= push
      modifies this`cap
      ensures Valid() && Carrying(w, level, path, old(cap), cap, push, |path|)
      ensures cut <= |path| && (cut < |path| ==> cap[path[cut]] == 0)
      ensures forall i :: 0 <= i < cut ==> cap[path[i]] > 0
      ensures cut == |path| ==> forall i :: 0 <= i < |path| ==> old(cap)[path[i]] > push
      ensures Untouched(old(cap), cap, path)
    {
      hide Carrying, Climbs, Wired, Mate, Tail, Untouched, InOrder;
      UntouchedYet(cap, path);
      ClimbInside(w, level, path);
      CarryStarts(w, level, path, cap, push);
      ghost var was := cap;
      cut := |path|;
      for i := 0 to |path|
        invariant Valid() && Carrying(w, level, path, was, cap, push, i) && Untouched(was, cap, path)
        invariant cut <= |path| && (cut < |path| ==> cut < i && was[path[cut]] == push)
        invariant forall j :: 0 <= j < i && j < cut ==> was[path[j]] > push
      {
        var a := path[i];
        ArcInside(w, a);
        CarryRoom(w, level, path, was, cap, push, i);
        CarryOne(w, level, path, was, cap, push, i);
        UntouchedStep(was, cap, path, a, push);
        ghost var pushed := Pushed(cap, a, push);
        cap := cap[a := cap[a] - push];
        cap := cap[Mate(a) := cap[Mate(a)] + push];
        assert cap == pushed;
        CarryRoom(w, level, path, was, cap, push, i + 1);
        if cap[a] == 0 && i < cut {
          cut := i;
        }
      }
      CarryRoom(w, level, path, was, cap, push, |path|);
    }

    /** Either the path is one arc longer, or its last node has no arc left to try. */
    method Advance(level: seq<int>, next0: seq<nat>, path0: seq<nat>, u: nat)
        returns (next: seq<nat>, path: seq<nat>, advanced: bool)
      requires Valid() && Walking(w, cap, level, next0, path0) && Skipped(w, cap, level, next0)
      requires (forall i :: 0 <= i < |path0| ==> path0[i] < |w.to|) && u == End(w, path0) != snk
      ensures Skipped(w, cap, level, next) && Walking(w, cap, level, next, path)
      ensures Untried(w, next) <= Untried(w, next0)
      ensures advanced ==> |path| == |path0| + 1
      ensures !advanced ==> path == path0 && next[u] == |w.out[u]|
    {
      hide Walking, Climbs, Untried, Wired, ListsLeaving;
      WalkEnds(w, cap, level, next0, path0);
      ListsAll(w, u);
      next, path, advanced := next0, path0, false;
      while next[u] < |Out(u)|
        invariant Skipped(w, cap, level, next) && Walking(w, cap, level, next, path0)
        invariant Untried(w, next) <= Untried(w, next0)
        decreases Untried(w, next)
      {
        var a := Out(u)[next[u]];
        var v := to[a];
        ArcInside(w, a);
        if cap[a] > 0 && level[v] == level[u] + 1 {
          WalkOn(w, cap, level, next, path0, u);
          path := path0 + [a];
          advanced := true;
          return;
        }
        SkipArc(w, cap, level, next, u);
        WalkKept(w, cap, level, next, path0, u, next[u] + 1);
        UntriedDrops(w, next, u);
        next := next[u := next[u] + 1];
      }
    }

    /** Every cut loses the push, the path is cut back to arcs with room, and short of `want` a useful arc is gone. */
    method Saturate(ghost level: seq<int>, ghost next: seq<nat>, path0: seq<nat>, want: nat)
        returns (push: nat, path: seq<nat>)
      requires Valid() && Layered(w, cap, level) && Skipped(w, cap, level, next) && Walking(w, cap, level, next, path0)
      requires (forall i :: 0 <= i < |path0| ==> path0[i] < |w.to|) && End(w, path0) == snk
      modifies this`cap
      ensures Valid() && push <= want && (want > 0 ==> push > 0)
      ensures Layered(w, cap, level) && Skipped(w, cap, level, next) && Walking(w, cap, level, next, path)
      ensures CutsLose(w, old(cap), cap, push) && PairsKept(old(cap), cap)
      ensures Useful(w, cap, level) <= Useful(w, old(cap), level)
      ensures push < want ==> Useful(w, cap, level) < Useful(w, old(cap), level)
      ensures want > 0 ==> Reaches(w, Search(old(cap), want), Search(cap, want - push))
    {
      hide Wired, Layered, Skipped, Walking, Carrying, CutsLose, PairsKept, Useful, Climbs, Untouched, InOrder, Reaches, Step;
      SourceInside(w);
      WalkEnds(w, cap, level, next, path0);
      ghost var was := cap;
      var room := Bottleneck(cap, path0);
      push := if room < want then room else want;
      var cut := Augment(path0, push, level);
      AugmentKeeps(w, level, next, path0, was, cap, push, cut);
      if want > 0 {
        AugmentIsStep(w, level, next, path0, was, cap, want);
        ReachesStep(w, Search(was, want));
      }
      path := path0[..cut];
    }

    /** One arc shorter, and that arc counted as tried. */
    method Retreat(ghost level: seq<int>, next0: seq<nat>, path0: seq<nat>)
        returns (next: seq<nat>, path: seq<nat>, u: nat)
      requires Valid() && Skipped(w, cap, level, next0) && Walking(w, cap, level, next0, path0) && path0 != []
      requires (forall i :: 0 <= i < |path0| ==> path0[i] < |w.to|) && End(w, path0) != snk
      requires |next0| == |w.out| && End(w, path0) < |w.out| && next0[End(w, path0)] == |w.out[End(w, path0)]|
      ensures Skipped(w, cap, level, next) && Walking(w, cap, level, next, path)
      ensures |path| < |path0| && (forall i :: 0 <= i < |path| ==> path[i] < |w.to|) && u == End(w, path)
      ensures Untried(w, next) < Untried(w, next0)
    {
      hide Wired, Skipped, Walking, Untried, Climbs;
      var a := path0[|path0| - 1];
      ArcInside(w, a);
      WalkRetreats(w, cap, level, next0, path0);
      UntriedDrops(w, next0, Tail(w, a));
      path := path0[..|path0| - 1];
      u := to[Mate(a)];
      next := next0[u := next0[u] + 1];
    }

    /** One phase over a level graph: augment until the limit is met or the source has no arcs left to try. */
    method Phase(level: seq<int>, limit: nat, found: nat) returns (total: nat, ghost dead: set<nat>)
      requires Valid() && Bfs(w, cap, level) && snk < |level| && level[snk] >= 0 && found < limit
      modifies this`cap
      ensures Valid() && found <= total <= limit
      ensures CutsLose(w, old(cap), cap, total - found) && PairsKept(old(cap), cap)
      ensures total > found
      ensures total < limit ==> Blocked(w, cap, level, dead)
      ensures Reaches(w, Search(old(cap), limit - found), Search(cap, limit - total))
    {
      hide Wired, Bfs, Layered, Skipped, Walking, CutsLose, PairsKept, Useful, Untried, Blocked, Climbs, Reaches, InOrder;
      SourceInside(w);
      total := found;
      dead := {};
      var next := seq(|headStart| - 1, _ => 0);
      var path: seq<nat> := [];
      var u := src;
      ghost var was := cap;
      BfsSized(w, cap, level);
      PhaseStarts(w, cap, level, next);
      ReachesStep(w, Search(cap, limit - found));
      while true
        invariant total <= limit && Reaches(w, Search(was, limit - found), Search(cap, limit - total))
        invariant Valid() && found <= total <= limit && (total == found ==> cap == was)
        invariant CutsLose(w, was, cap, total - found) && PairsKept(was, cap)
        invariant Layered(w, cap, level) && Skipped(w, cap, level, next) && Walking(w, cap, level, next, path)
        invariant (forall i :: 0 <= i < |path| ==> path[i] < |w.to|) && u == End(w, path)
        decreases Useful(w, cap, level) + (if total < limit then 1 else 0), Untried(w, next), |level| - |path|
      {
        WalkEnds(w, cap, level, next, path);
        if total >= limit {
          break;
        }
        if u == snk {
          ghost var before := cap;
          var push;
          push, path := Saturate(level, next, path, limit - total);
          CutsLoseMore(w, was, before, cap, total - found, push);
          ReachesOn(w, Search(was, limit - found), Search(before, limit - total), Search(cap, limit - total - push));
          total := total + push;
        } else {
          var advanced;
          next, path, advanced := Advance(level, next, path, u);
          if !advanced {
            if path == [] {
              dead := PhaseBlocked(w, cap, level, next);
              if cap == was {
                SinkRecedes(w, cap, level, level, dead);
              }
              break;
            }
            WalkEnds(w, cap, level, next, path);
            next, path, u := Retreat(level, next, path);
          }
        }
        WalkEnds(w, cap, level, next, path);
        u := if path == [] then src else to[path[|path| - 1]];
      }
    }

    /** The whole search: it takes the shortest route with room, the first laid of those, until nothing is wanted or none
        is left. Phases are bounded by the nodes, since each moves the sink further off, and by the total, since each adds
        to it. */
    method Flow(limit: nat) returns (total: nat, ghost phases: nat)
      requires Valid()
      modifies this`cap
      ensures Valid() && total <= limit && phases <= |w.out| && phases <= total
      ensures CutsLose(w, old(cap), cap, total) && PairsKept(old(cap), cap)
      ensures total < limit ==> exists S: set<nat> :: w.src in S && w.snk !in S && NetCut(w.to, cap, S) == 0
      ensures Searched(w, Search(old(cap), limit), Search(cap, limit - total))
    {
      hide Wired, Bfs, CutsLose, PairsKept, Blocked, Reaches, InOrder, Searched;
      SourceInside(w);
      total := 0;
      phases := 0;
      ghost var was := cap;
      ghost var last: seq<int>, dead: set<nat> := [], {};
      ghost var distance := -1;
      CutsLoseNothing(w, cap);
      ReachesStep(w, Search(cap, limit));
      while total < limit
        invariant total <= limit && Reaches(w, Search(was, limit), Search(cap, limit - total))
        invariant Valid() && phases <= total <= limit
        invariant CutsLose(w, was, cap, total) && PairsKept(was, cap)
        invariant phases <= distance + 1 <= |w.out| && (phases == 0 ==> distance == -1)
        invariant phases > 0 && total < limit ==>
          Blocked(w, cap, last, dead) && snk < |last| && last[snk] == distance
        decreases |w.out| - distance
      {
        var found := LevelGraph();
        if found.Unreachable? {
          break;
        }
        BfsSized(w, cap, found.level);
        LevelsBelowNodes(w, cap, found.level, snk);
        if phases > 0 {
          SinkRecedes(w, cap, last, found.level, dead);
        }
        last, distance := found.level, found.level[snk];
        ghost var before := cap;
        ghost var had := total;
        total, dead := Phase(found.level, limit, total);
        CutsLoseMore(w, was, before, cap, had, total - had);
        ReachesOn(w, Search(was, limit), Search(before, limit - had), Search(cap, limit - total));
        phases := phases + 1;
      }
      OverWhenShut(w, Search(cap, limit - total));
      SearchedThen(w, Search(was, limit), Search(cap, limit - total));
    }
  }
}
