/** What a coalition can and cannot do to its own capacity. */
module Security {
  import opened Arithmetic
  import opened Sums
  import opened Ordered
  import opened Cuts
  import opened Residual
  import opened Layout
  import opened MaxFlow
  import opened Networks
  import opened Books
  import Adjacency
  import opened Runs

  // ------------------------------------------------------------ monotonicity --

  /** More standing, less of it held, a wider id space: what a query sees only grows. */
  lemma FreeGrows(s: State, t: State, targets: set<nat>, n: nat, m: nat, own: bool)
    requires Leq(s.gross, t.gross) && Leq(t.held, s.held) && n <= m
    ensures Leq(s.Free(targets, n, own), t.Free(targets, m, own))
  {
    var f, g := s.Free(targets, n, own), t.Free(targets, m, own);
    forall k ensures Get(f.edge, k) <= Get(g.edge, k) {
      assert Get(s.gross.edge, k) <= Get(t.gross.edge, k) && Get(t.held.edge, k) <= Get(s.held.edge, k);
    }
    forall u ensures Get(f.supply, u) <= Get(g.supply, u) {
      assert Get(s.gross.supply, u) <= Get(t.gross.supply, u) && Get(t.held.supply, u) <= Get(s.held.supply, u);
    }
  }

  /** Capacity is monotone in every edge, every supply and the id space, and antitone in what is held. */
  lemma CapacityMonotone(s: State, t: State, targets: set<nat>, n: nat, m: nat, own: bool)
    requires Leq(s.gross, t.gross) && Leq(t.held, s.held) && n <= m
    ensures s.Capacity(targets, n, own) <= t.Capacity(targets, m, own)
  {
    FreeGrows(s, t, targets, n, m, own);
    MinCutMonotone(s.Free(targets, n, own), t.Free(targets, m, own), Inside(targets, n));
    MinCutMoreTargets(t.Free(targets, m, own), Inside(targets, n), Inside(targets, m));
  }

  /** Steps that can lower what stands. */
  predicate Lowers(step: Step, supply: map<nat, nat>) {
    step.Decay? || (step.Declare? && step.supply < Get(supply, step.underwriter))
  }

  /** A cut measured once stays a lower bound on the gross cut until an edge or a supply falls. */
  lemma {:induction false} CutStaysLowerBound(states: seq<Ledger>, steps: seq<Step>, targets: set<nat>, n: nat, m: nat, own: bool)
    requires |states| == |steps| + 1 && n <= m
    requires forall i :: 0 <= i < |steps| ==> Next(states[i], steps[i], states[i + 1])
    requires forall i :: 0 <= i < |steps| ==> !Lowers(steps[i], states[i].book.gross.supply)
    ensures GrossCapacity(states[0], targets, n, own) <= GrossCapacity(states[|steps|], targets, m, own)
    decreases |steps|
  {
    hide GrossCapacity, Next;
    if |steps| == 0 {
      GrossRises(states[0], states[0], targets, n, m, own);
    } else {
      var last := |steps| - 1;
      CutStaysLowerBound(states[..|steps|], steps[..last], targets, n, m, own);
      assert states[..|steps|][last] == states[last];
      StepRaises(states[last], steps[last], states[last + 1]);
      GrossRises(states[last], states[last + 1], targets, m, m, own);
    }
  }

  lemma GrossRises(s: Ledger, t: Ledger, targets: set<nat>, n: nat, m: nat, own: bool)
    requires Leq(s.book.gross, t.book.gross) && n <= m
    ensures GrossCapacity(s, targets, n, own) <= GrossCapacity(t, targets, m, own)
  {
    CapacityMonotone(State(s.book.gross, NOTHING), State(t.book.gross, NOTHING), targets, n, m, own);
  }

  lemma StepRaises(s: Ledger, step: Step, t: Ledger)
    requires Next(s, step, t) && !Lowers(step, s.book.gross.supply)
    ensures Leq(s.book.gross, t.book.gross)
  {
    if step.Stake? {
      forall k ensures Get(s.book.gross.edge, k) <= Get(t.book.gross.edge, k) {
        StakedRaises(s.book.gross.edge, step.creditor, step.debtor, step.amount, step.conferrable, k);
      }
    }
  }

  // --------------------------------------------------------------- coalitions --

  /** Two books that differ only on stakes given by members of C and, unless own supply counts, on what
      members of C declare. */
  ghost predicate DifferInside(s: State, t: State, C: set<nat>, own: bool) {
    && s.held == t.held
    && (forall k: Key :: k.0 !in C ==> Get(s.gross.edge, k) == Get(t.gross.edge, k))
    && (forall u: nat :: own || u !in C ==> Get(s.gross.supply, u) == Get(t.gross.supply, u))
  }

  lemma FreeSameOutside(s: State, t: State, C: set<nat>, n: nat, own: bool)
    requires DifferInside(s, t, C, own)
    ensures forall k: Key :: k.0 !in C ==> Get(s.Free(C, n, own).edge, k) == Get(t.Free(C, n, own).edge, k)
    ensures forall u :: Get(s.Free(C, n, own).supply, u) == Get(t.Free(C, n, own).supply, u)
  {
    forall k: Key | k.0 !in C ensures Get(s.Free(C, n, own).edge, k) == Get(t.Free(C, n, own).edge, k) {
      assert Get(s.gross.edge, k) == Get(t.gross.edge, k);
    }
    forall u ensures Get(s.Free(C, n, own).supply, u) == Get(t.Free(C, n, own).supply, u) {
      assert own || u !in C ==> Get(s.gross.supply, u) == Get(t.gross.supply, u);
    }
  }

  lemma FreeValid(s: State, C: set<nat>, n: nat, own: bool, k: Key)
    requires k in s.Free(C, n, own).edge
    ensures k.0 < n && k.1 < n
  {
  }

  lemma CutSeesNoInside(s: State, t: State, C: set<nat>, n: nat, own: bool, D: set<nat>)
    requires DifferInside(s, t, C, own) && Inside(C, n) <= D
    ensures Cut(s.Free(C, n, own), D) == Cut(t.Free(C, n, own), D)
  {
    hide State.Free, DifferInside, Sum;
    var f, g := s.Free(C, n, own), t.Free(C, n, own);
    var ks, us := f.edge.Keys + g.edge.Keys, f.supply.Keys + g.supply.Keys;
    FreeSameOutside(s, t, C, n, own);
    OverKeys(f, D, ks, us);
    OverKeys(g, D, ks, us);
    forall k | k in ks ensures InTerm(f.edge, D)(k) == InTerm(g.edge, D)(k) {
      if k in f.edge {
        FreeValid(s, C, n, own, k);
      } else {
        FreeValid(t, C, n, own, k);
      }
    }
    SumSame(ks, InTerm(f.edge, D), InTerm(g.edge, D));
    SumSame(us, SupplyTerm(f.supply, D), SupplyTerm(g.supply, D));
  }

  lemma InsideChangesNothing(s: State, t: State, C: set<nat>, n: nat, own: bool)
    requires DifferInside(s, t, C, own)
    ensures s.Capacity(C, n, own) == t.Capacity(C, n, own)
  {
    hide State.Free, DifferInside, MinCut, Cut, Inside;
    var D := MinCutAttained(s.Free(C, n, own), Inside(C, n));
    CutSeesNoInside(s, t, C, n, own, D);
    MinCutBelow(t.Free(C, n, own), Inside(C, n), D);
    var E := MinCutAttained(t.Free(C, n, own), Inside(C, n));
    CutSeesNoInside(s, t, C, n, own, E);
    MinCutBelow(s.Free(C, n, own), Inside(C, n), E);
  }

  /** What a coalition can do alone: stake whatever it likes, and declare its own members underwriters. */
  predicate ByCoalition(step: Step, C: set<nat>, own: bool) {
    || (step.Stake? && step.creditor in C)
    || (step.Declare? && step.underwriter in C && !own)
  }

  lemma CoalitionStepInside(s: Ledger, step: Step, t: Ledger, C: set<nat>, own: bool)
    requires Next(s, step, t) && ByCoalition(step, C, own)
    ensures DifferInside(s.book, t.book, C, own)
  {
  }

  /** No sequence of stakes by members of C, of any amounts and caps, nor of declarations by them, changes
      what C can borrow. With own supply counted, the same holds of stakes alone. */
  lemma {:induction false} CoalitionGainsNothing(states: seq<Ledger>, steps: seq<Step>, C: set<nat>, n: nat, own: bool)
    requires |states| == |steps| + 1
    requires forall i :: 0 <= i < |steps| ==> Next(states[i], steps[i], states[i + 1]) && ByCoalition(steps[i], C, own)
    ensures states[|steps|].book.Capacity(C, n, own) == states[0].book.Capacity(C, n, own)
    decreases |steps|
  {
    hide State.Capacity, Next, DifferInside;
    if |steps| > 0 {
      var last := |steps| - 1;
      CoalitionGainsNothing(states[..|steps|], steps[..last], C, n, own);
      assert states[..|steps|][last] == states[last];
      CoalitionStepInside(states[last], steps[last], states[last + 1], C, own);
      InsideChangesNothing(states[last].book, states[last + 1].book, C, n, own);
    }
  }

  // ---------------------------------------------------------- vertex separator --

  /** Every edge into the ring from outside it starts at c. */
  ghost predicate Separates(edges: map<Key, nat>, c: nat, R: set<nat>) {
    forall k :: k in edges && k.1 in R && k.0 !in R ==> k.0 == c
  }

  lemma WiderExclusionSame(s: State, R: set<nat>, c: nat, n: nat, own: bool)
    requires DeclaresNothing(s.gross.supply, R + {c})
    ensures Leq(s.Free(R + {c}, n, own), s.Free({c}, n, own)) && Leq(s.Free({c}, n, own), s.Free(R + {c}, n, own))
  {
    forall u: nat ensures Get(s.Free(R + {c}, n, own).supply, u) == Get(s.Free({c}, n, own).supply, u) {
      if u in R + {c} {
        assert Get(s.gross.supply, u) == 0;
      }
    }
  }

  lemma RingAddsNoCut(s: State, c: nat, R: set<nat>, n: nat, own: bool, D: set<nat>)
    requires Separates(s.gross.edge, c, R) && DeclaresNothing(s.gross.supply, R + {c})
    requires Inside({c}, n) <= D
    ensures Cut(s.Free({c}, n, own), D + Inside(R, n)) <= Cut(s.Free({c}, n, own), D)
  {
    var f, E := s.Free({c}, n, own), D + Inside(R, n);
    forall k | k in f.edge.Keys ensures InTerm(f.edge, E)(k) <= InTerm(f.edge, D)(k) {
      assert k.1 in R && k.0 !in R ==> k.0 == c;
    }
    forall u | u in f.supply.Keys ensures SupplyTerm(f.supply, E)(u) <= SupplyTerm(f.supply, D)(u) {
      if u in R {
        assert Get(s.gross.supply, u) == 0;
      }
    }
    SumLeq(f.edge.Keys, InTerm(f.edge, E), InTerm(f.edge, D));
    SumLeq(f.supply.Keys, SupplyTerm(f.supply, E), SupplyTerm(f.supply, D));
  }

  /** A colluder that does not underwrite passes on exactly what they hold, however many accounts stand behind
      them and whatever those accounts stake among themselves. */
  lemma VertexSeparator(s: State, c: nat, R: set<nat>, n: nat, own: bool)
    requires Separates(s.gross.edge, c, R) && DeclaresNothing(s.gross.supply, R + {c})
    ensures s.Capacity(R + {c}, n, own) == s.Capacity({c}, n, own)
  {
    hide State.Free, Separates, DeclaresNothing;
    var f, g := s.Free({c}, n, own), s.Free(R + {c}, n, own);
    WiderExclusionSame(s, R, c, n, own);
    var both := Inside(R + {c}, n);
    MinCutMonotone(f, g, both);
    MinCutMonotone(g, f, both);
    MinCutMoreTargets(f, Inside({c}, n), both);
    var D := MinCutAttained(f, Inside({c}, n));
    RingAddsNoCut(s, c, R, n, own, D);
    assert both <= D + Inside(R, n);
    MinCutBelow(f, both, D + Inside(R, n));
  }

  // ------------------------------------------------------------------ splitting --

  lemma FreeShrinksWithTargets(s: State, S: set<nat>, T: set<nat>, n: nat, own: bool)
    requires S <= T
    ensures Leq(s.Free(T, n, own), s.Free(S, n, own))
  {
  }

  /** Measured together, two sets carry no more than they do apart: one supply behind many debtors is one supply. */
  lemma TogetherNoMoreThanApart(s: State, S: set<nat>, T: set<nat>, n: nat, own: bool)
    ensures s.Capacity(S + T, n, own) <= s.Capacity(S, n, own) + s.Capacity(T, n, own)
  {
    hide State.Free;
    var g := s.Free(S + T, n, own);
    FreeShrinksWithTargets(s, S, S + T, n, own);
    FreeShrinksWithTargets(s, T, S + T, n, own);
    MinCutSubadditive(g, Inside(S, n), Inside(T, n));
    assert Inside(S, n) + Inside(T, n) == Inside(S + T, n);
    MinCutMonotone(g, s.Free(S, n, own), Inside(S, n));
    MinCutMonotone(g, s.Free(T, n, own), Inside(T, n));
  }

  // ------------------------------------------------------------------- id space --

  /** Ids nobody uses change no answer: once n exceeds every id, capacity does not depend on it. */
  lemma IdSpaceChangesNothing(s: State, targets: set<nat>, n: nat, m: nat, own: bool)
    requires IdsBelow(s.gross, n) && n <= m && forall t :: t in targets ==> t < n
    ensures s.Capacity(targets, n, own) == s.Capacity(targets, m, own)
  {
    assert Inside(targets, n) == Inside(targets, m);
    var f, g := s.Free(targets, n, own), s.Free(targets, m, own);
    assert f.edge == g.edge && f.supply == g.supply;
  }

  /** Nor do they change what is built: the same arcs are kept, with the same rooms, for the same participants. */
  lemma IdSpaceKeepsPlan(edges: map<Key, nat>, reserved: map<Key, nat>, committed: map<nat, nat>, uw: seq<(nat, nat)>,
                         targets: seq<nat>, n: nat, m: nat, own: bool)
    requires n <= m && (forall k :: k in edges ==> k.0 < n && k.1 < n)
    requires (forall i :: 0 <= i < |uw| ==> uw[i].0 < n) && (forall i :: 0 <= i < |targets| ==> targets[i] < n)
    ensures var es := EdgeEntries(edges); var goal := Elements(targets);
      && KeptKeys(es, |es|, n) == KeptKeys(es, |es|, m)
      && KeptLenders(uw, |uw|, goal, n, own) == KeptLenders(uw, |uw|, goal, m, own)
      && KeptTargets(targets, |targets|, n) == KeptTargets(targets, |targets|, m)
      && Free(edges, reserved, committed, MapOf(uw), goal, n, own) == Free(edges, reserved, committed, MapOf(uw), goal, m, own)
      && (forall x: nat :: x < n && Adjacency.TakesPart(es, uw, targets, n, x) <==> x < m && Adjacency.TakesPart(es, uw, targets, m, x))
  {
    hide MapOf, EdgeEntries, KeptKeys, KeptLenders, KeptTargets;
    var es := EdgeEntries(edges);
    KeptKeysSame(es, |es|, n, m);
    KeptLendersSame(uw, |uw|, Elements(targets), n, m, own);
    KeptTargetsSame(targets, |targets|, n, m);
    MapOfWithin(uw, n);
    IdSpaceFree(edges, reserved, committed, MapOf(uw), Elements(targets), n, m, own);
  }

  lemma {:induction false} MapOfWithin(uw: seq<(nat, nat)>, n: nat)
    requires forall i :: 0 <= i < |uw| ==> uw[i].0 < n
    ensures forall u: nat :: u in MapOf(uw) ==> u < n
    decreases |uw|
  {
    if uw != [] {
      MapOfWithin(uw[..|uw| - 1], n);
    }
  }

  lemma IdSpaceFree(edges: map<Key, nat>, reserved: map<Key, nat>, committed: map<nat, nat>, supply: map<nat, nat>,
                    goal: set<nat>, n: nat, m: nat, own: bool)
    requires n <= m && (forall k :: k in edges ==> k.0 < n && k.1 < n) && forall u: nat :: u in supply ==> u < n
    ensures Free(edges, reserved, committed, supply, goal, n, own) == Free(edges, reserved, committed, supply, goal, m, own)
  {
    assert FreeEdges(edges, reserved, n) == FreeEdges(edges, reserved, m);
    assert FreeSupply(supply, committed, goal, n, own) == FreeSupply(supply, committed, goal, m, own);
  }

  /** A plan over a graph determines its pairs. */
  lemma SamePairs(plan: Plan, p: seq<Pair>, q: seq<Pair>, g: Arcs)
    requires plan.Follows(p, g) && plan.Follows(q, g) && Distinct(plan.ids)
    ensures p == q
  {
    hide Distinct;
    var L, M := |plan.keys|, |plan.keys| + |plan.lenders|;
    forall i | 0 <= i < plan.Count() ensures p[i] == q[i] {
      if i < L {
        SameSlot(plan.ids, p[i].from, q[i].from);
        SameSlot(plan.ids, p[i].into, q[i].into);
      } else if i < M {
        assert plan.SupplyArc(p[L + (i - L)], g, plan.lenders[i - L]) && plan.SupplyArc(q[L + (i - L)], g, plan.lenders[i - L]);
        SameSlot(plan.ids, p[i].into, q[i].into);
      } else {
        assert plan.SinkArc(p[M + (i - M)], plan.targets[i - M]) && plan.SinkArc(q[M + (i - M)], plan.targets[i - M]);
        SameSlot(plan.ids, p[i].from, q[i].from);
      }
    }
  }

  lemma SameSlot(ids: seq<nat>, i: nat, j: nat)
    requires Distinct(ids) && i < |ids| && j < |ids| && ids[i] == ids[j]
    ensures i == j
  {
  }

  /** Pairs determine the arcs and their rooms; every node's list, in creation order, follows from the arcs. */
  lemma SameArcs(v: Wires, w: Wires, p: seq<Pair>, b: seq<nat>, c: seq<nat>)
    requires Woven(v.to, p) && Woven(w.to, p) && Fresh(b, p) && Fresh(c, p)
    ensures v.to == w.to && b == c
  {
    hide Wired;
    forall a | 0 <= a < 2 * |p| ensures v.to[a] == w.to[a] && b[a] == c[a] {
      assert a == 2 * (a / 2) || a == 2 * (a / 2) + 1;
    }
  }

  /** Creation-order lists name each arc's own tail, so the arcs alone determine them. */
  lemma TailsAreOwn(w: Wires, tail: seq<nat>, a: nat)
    requires |tail| == |w.to| && a < |w.to|
    requires forall u :: 0 <= u < |w.out| ==> w.out[u] == Adjacency.ByTail(tail, u, |tail|)
    ensures tail[a] == TailOf(w.to, a)
  {
    hide Adjacency.ByTail;
    var u := TailOf(w.to, a);
    assert Listed(w.to, w.out, a);
    Adjacency.ByTailSpec(tail, u, |tail|);
    var j :| 0 <= j < |w.out[u]| && w.out[u][j] == a;
  }

  lemma SameLists(v: Wires, w: Wires, s: seq<nat>, t: seq<nat>)
    requires v.to == w.to && |v.out| == |w.out| && |s| == |t| == |v.to|
    requires forall u :: 0 <= u < |v.out| ==> v.out[u] == Adjacency.ByTail(s, u, |s|)
    requires forall u :: 0 <= u < |w.out| ==> w.out[u] == Adjacency.ByTail(t, u, |t|)
    ensures s == t && v.out == w.out
  {
    hide Adjacency.ByTail, Wired;
    forall a | 0 <= a < |s| ensures s[a] == t[a] {
      TailsAreOwn(v, s, a);
      TailsAreOwn(w, t, a);
    }
  }

  /** The network itself: past every id in use two builds are the same, slot for slot, arc for arc and room for room. */
  lemma IdSpaceChangesNoArc(edges: map<Key, nat>, reserved: map<Key, nat>, committed: map<nat, nat>, uw: seq<(nat, nat)>,
                            targets: seq<nat>, n: nat, m: nat, own: bool,
                            plan: Plan, w: Wires, pairs: seq<Pair>, cap: seq<nat>, tail: seq<nat>,
                            plan': Plan, w': Wires, pairs': seq<Pair>, cap': seq<nat>, tail': seq<nat>)
    requires n <= m && (forall k :: k in edges ==> k.0 < n && k.1 < n)
    requires (forall i :: 0 <= i < |uw| ==> uw[i].0 < n) && (forall i :: 0 <= i < |targets| ==> targets[i] < n)
    requires BuildsTo(plan, w, pairs, cap, tail, edges, reserved, committed, uw, targets, n, own)
    requires BuildsTo(plan', w', pairs', cap', tail', edges, reserved, committed, uw, targets, m, own)
    ensures plan == plan' && pairs == pairs' && cap == cap' && tail == tail'
    ensures w.to == w'.to && w.out == w'.out && w.src == w'.src && w.snk == w'.snk
  {
    hide Free, KeptKeys, KeptLenders, KeptTargets, EdgeEntries, MapOf, Wired, Plan.Follows, Woven, Fresh, Adjacency.ByTail,
         Adjacency.TakesPart, Elements, Inside, Distinct;
    IdSpaceKeepsPlan(edges, reserved, committed, uw, targets, n, m, own);
    SameAscending(plan.ids, plan'.ids);
    SamePairs(plan, pairs, pairs', Free(edges, reserved, committed, MapOf(uw), Elements(targets), n, own));
    SameArcs(w, w', pairs, cap, cap');
    SameLists(w, w', tail, tail');
  }

  lemma SameAscending(s: seq<nat>, t: seq<nat>)
    requires (forall i, j :: 0 <= i < j < |s| ==> s[i] < s[j]) && (forall i, j :: 0 <= i < j < |t| ==> t[i] < t[j])
    requires forall x: nat :: x in s <==> x in t
    ensures s == t
  {
    IdLessTotal();
    SortedUnique(s, t, IdLess);
  }

  lemma {:induction false} KeptKeysSame(es: seq<(Key, nat)>, i: nat, n: nat, m: nat)
    requires i <= |es| && n <= m && forall j :: 0 <= j < |es| ==> es[j].0.0 < n && es[j].0.1 < n
    ensures KeptKeys(es, i, n) == KeptKeys(es, i, m)
    decreases i
  {
    if i > 0 {
      KeptKeysSame(es, i - 1, n, m);
    }
  }

  lemma {:induction false} KeptLendersSame(uw: seq<(nat, nat)>, i: nat, targets: set<nat>, n: nat, m: nat, own: bool)
    requires i <= |uw| && n <= m && forall j :: 0 <= j < |uw| ==> uw[j].0 < n
    ensures KeptLenders(uw, i, targets, n, own) == KeptLenders(uw, i, targets, m, own)
    decreases i
  {
    if i > 0 {
      KeptLendersSame(uw, i - 1, targets, n, m, own);
    }
  }

  lemma {:induction false} KeptTargetsSame(targets: seq<nat>, i: nat, n: nat, m: nat)
    requires i <= |targets| && n <= m && forall j :: 0 <= j < |targets| ==> targets[j] < n
    ensures KeptTargets(targets, i, n) == KeptTargets(targets, i, m)
    decreases i
  {
    if i > 0 {
      KeptTargetsSame(targets, i - 1, n, m);
    }
  }

  // -------------------------------------------------- conferring more than you hold --

  /** What x may be reached with in a query that leaves x's accomplices out is at most x's own capacity. */
  lemma ReachBelowCapacity(s: State, x: nat, targets: set<nat>, n: nat, own: bool)
    requires x < n && (own || Get(s.gross.supply, x) == 0)
    ensures MinCut(s.Free(targets, n, own), {x}) <= s.Capacity({x}, n, own)
  {
    var f, g := s.Free(targets, n, own), s.Free({x}, n, own);
    forall u: nat ensures Get(f.supply, u) <= Get(g.supply, u) {
      assert u == x && u in f.supply ==> f.supply[u] == Minus(s.gross.supply[u], Get(s.held.supply, u));
    }
    MinCutMonotone(f, g, {x});
    assert Inside({x}, n) == {x};
  }

  /** An edge out of x never crosses a cut around x. */
  lemma OutgoingUnseen(g: Arcs, h: Arcs, x: nat, y: nat)
    requires Widens(g, h, x, y)
    ensures MinCut(g, {x}) == MinCut(h, {x})
  {
    hide MinCut, Cut;
    MinCutMonotone(g, h, {x});
    var D := MinCutAttained(g, {x});
    WidenedCut(g, h, x, y, D);
    MinCutBelow(h, {x}, D);
  }

  ghost function WithStake(s: State, x: nat, y: nat, amount: nat, conferrable: nat): State {
    State(Arcs(Staked(s.gross.edge, x, y, amount, conferrable), s.gross.supply), s.held)
  }

  /** The edge a query sees after a stake. */
  lemma StakedFree(s: State, x: nat, y: nat, amount: nat, c: nat, targets: set<nat>, n: nat, own: bool, k: Key)
    ensures WithStake(s, x, y, amount, c).Free(targets, n, own).supply == s.Free(targets, n, own).supply
    ensures Get(WithStake(s, x, y, amount, c).Free(targets, n, own).edge, k)
         == if k.0 >= n || k.1 >= n then 0
            else Minus(if k == (x, y) && x != y then Greater(Get(s.gross.edge, k), Lesser(amount, c)) else Get(s.gross.edge, k),
                       Get(s.held.edge, k))
    ensures Get(s.Free(targets, n, own).edge, k)
         == if k.0 >= n || k.1 >= n then 0 else Minus(Get(s.gross.edge, k), Get(s.held.edge, k))
  {
  }

  lemma StakedWidens(s: State, x: nat, y: nat, amount: nat, a: nat, b: nat, targets: set<nat>, n: nat, own: bool)
    requires a <= b
    ensures var f := WithStake(s, x, y, amount, a).Free(targets, n, own);
      var g := WithStake(s, x, y, amount, b).Free(targets, n, own);
      && Widens(s.Free(targets, n, own), f, x, y) && Widens(f, g, x, y)
      && (x == y || amount <= a || x >= n || y >= n ==> Widens(g, f, x, y))
      && (x != y && amount > a && x < n && y < n ==> Get(f.edge, (x, y)) >= Minus(a, Get(s.held.edge, (x, y))))
  {
    hide WithStake, State.Free, Get, Staked;
    var e := s.Free(targets, n, own);
    var f, g := WithStake(s, x, y, amount, a).Free(targets, n, own), WithStake(s, x, y, amount, b).Free(targets, n, own);
    StakedFree(s, x, y, amount, a, targets, n, own, (x, y));
    StakedFree(s, x, y, amount, b, targets, n, own, (x, y));
    forall k ensures Get(e.edge, k) <= Get(f.edge, k) <= Get(g.edge, k)
             ensures k != (x, y) || x == y || amount <= a || x >= n || y >= n ==> Get(f.edge, k) == Get(g.edge, k)
             ensures k != (x, y) ==> Get(e.edge, k) == Get(f.edge, k)
    {
      StakedFree(s, x, y, amount, a, targets, n, own, k);
      StakedFree(s, x, y, amount, b, targets, n, own, k);
    }
  }

  lemma WidensBothWays(g: Arcs, h: Arcs, x: nat, y: nat, targets: set<nat>)
    requires Widens(g, h, x, y) && Widens(h, g, x, y)
    ensures MinCut(g, targets) == MinCut(h, targets)
  {
    MinCutMonotone(g, h, targets);
    MinCutMonotone(h, g, targets);
  }

  /** An account that declares nothing and may confer no more than its capacity gives nothing away by the limit: granted
      any more, the edge is wider and no set without the account has more behind it. */
  lemma ConferringMoreChangesNothing(s: State, x: nat, y: nat, amount: nat, a: nat, b: nat, targets: set<nat>, n: nat, own: bool)
    requires a <= b && x !in targets && (own || Get(s.gross.supply, x) == 0)
    requires s.Capacity({x}, n, own) <= Minus(a, Get(s.held.edge, (x, y)))
    ensures WithStake(s, x, y, amount, a).Capacity(targets, n, own)
         == WithStake(s, x, y, amount, b).Capacity(targets, n, own)
  {
    hide State.Free, Widens, MinCut, WithStake, Inside;
    var f := WithStake(s, x, y, amount, a).Free(targets, n, own);
    var g := WithStake(s, x, y, amount, b).Free(targets, n, own);
    StakedWidens(s, x, y, amount, a, b, targets, n, own);
    InsideLess(targets, n, x);
    if x == y || amount <= a || x >= n || y >= n {
      WidensBothWays(f, g, x, y, Inside(targets, n));
    } else {
      ReachBelowCapacity(s, x, targets, n, own);
      OutgoingUnseen(s.Free(targets, n, own), f, x, y);
      WideEnough(f, g, x, y, Inside(targets, n));
    }
  }

  lemma InsideLess(targets: set<nat>, n: nat, x: nat)
    requires x !in targets
    ensures x !in Inside(targets, n)
  {
  }

  // ----------------------------------------------------------- zero is absorbing --

  /** What a member may confer on somebody else: what they declared, or their capacity. */
  ghost function Conferrable(s: State, member: nat, n: nat): int {
    if member in s.gross.supply then s.gross.supply[member] else s.Capacity({member}, n, false)
  }

  /** A stake confers no more than its creditor may. */
  ghost predicate Capped(s: Ledger, step: Step) {
    step.Stake? ==> exists n: nat :: step.conferrable <= Conferrable(s.book, step.creditor, n)
  }

  ghost predicate NobodyDeclares(s: Ledger) {
    forall u: nat :: Get(s.book.gross.supply, u) == 0
  }

  /** With nobody declaring, nothing can be pushed anywhere, whatever the edges. */
  lemma NoSupplyNoCapacity(s: State, targets: set<nat>, n: nat, own: bool)
    requires forall u: nat :: Get(s.gross.supply, u) == 0
    ensures s.Capacity(targets, n, own) == 0
  {
    var f := s.Free(targets, n, own);
    var D := (set k | k in f.edge.Keys :: k.0) + Inside(targets, n);
    MinCutBelow(f, Inside(targets, n), D);
    SumZero(f.edge.Keys, InTerm(f.edge, D));
    forall u | u in f.supply ensures SupplyTerm(f.supply, D)(u) == 0 {
      assert Get(s.gross.supply, u) == 0;
    }
    SumZero(f.supply.Keys, SupplyTerm(f.supply, D));
    CapacityNonNegative(s, targets, n, own);
  }

  lemma NothingToConfer(s: Ledger, step: Step)
    requires NobodyDeclares(s) && Capped(s, step) && step.Stake?
    ensures step.conferrable == 0
  {
    hide State.Capacity;
    var n: nat :| step.conferrable <= Conferrable(s.book, step.creditor, n);
    NoSupplyNoCapacity(s.book, {step.creditor}, n, false);
    assert Get(s.book.gross.supply, step.creditor) == 0;
  }

  lemma NothingGrows(s: Ledger, step: Step, t: Ledger)
    requires Next(s, step, t) && s.book.gross.edge == map[]
    requires step.Stake? ==> step.conferrable == 0
    ensures t.book.gross.edge == map[]
  {
    hide Refunded, IsSum, IsFlow, TwoParts, Held.Tidy, State.Free;
  }

  /** Usage seeds no credit: with nobody declaring supply and every stake capped at what its creditor may confer, no run
      makes an edge, and every capacity is zero for ever. */
  lemma {:induction false} ZeroIsAbsorbing(states: seq<Ledger>, steps: seq<Step>, i: nat)
    requires Run(states, steps) && i < |states|
    requires forall j :: 0 <= j < |states| ==> NobodyDeclares(states[j])
    requires forall j :: 0 <= j < |steps| ==> Capped(states[j], steps[j])
    ensures states[i].book.gross.edge == map[]
    ensures forall targets, n, own :: states[i].book.Capacity(targets, n, own) == 0
    decreases i
  {
    hide Next, Capped, State.Capacity;
    if i > 0 {
      ZeroIsAbsorbing(states, steps, i - 1);
      assert Capped(states[i - 1], steps[i - 1]) && Next(states[i - 1], steps[i - 1], states[i]);
      if steps[i - 1].Stake? {
        NothingToConfer(states[i - 1], steps[i - 1]);
      }
      NothingGrows(states[i - 1], steps[i - 1], states[i]);
    }
    forall targets: set<nat>, n: nat, own: bool ensures states[i].book.Capacity(targets, n, own) == 0 {
      assert NobodyDeclares(states[i]);
      NoSupplyNoCapacity(states[i].book, targets, n, own);
    }
  }
}
