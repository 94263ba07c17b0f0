/** The reservation book: capacity queries, and what reserving, releasing, staking and decaying do to it. */
module Books {
  import opened Wrappers
  import opened Arithmetic
  import opened Sums
  import opened Ordered
  import opened Cuts
  import opened Residual
  import opened Layout
  import opened Augmenting
  import opened MaxFlow
  import opened Priority
  import opened Networks

  /** Exactly what one obligation holds: amounts on stake edges, and on supply arcs. */
  datatype Held = Held(edges: seq<(Key, nat)>, supply: seq<(nat, nat)>) {
    ghost function Arcs(): Arcs {
      Cuts.Arcs.Arcs(MapOf(edges), MapOf(supply))
    }

    function Amount(): nat {
      SumOf(supply)
    }

    /** Edges in key order, every amount positive, no underwriter twice. */
    ghost predicate Tidy() {
      && Sorted(Firsts(edges), KeyLess) && Distinct(Firsts(supply))
      && (forall i :: 0 <= i < |edges| ==> edges[i].1 > 0)
      && (forall i :: 0 <= i < |supply| ==> supply[i].1 > 0)
    }
  }

  function SumOf(es: seq<(nat, nat)>): nat {
    if es == [] then 0 else SumOf(es[..|es| - 1]) + es[|es| - 1].1
  }

  lemma {:induction false} SumOfIsTotal(es: seq<(nat, nat)>)
    requires Distinct(Firsts(es))
    ensures SumOf(es) == Total(MapOf(es))
    decreases |es|
  {
    hide Total, Distinct, Firsts;
    if es != [] {
      NotBefore(es, |es| - 1);
      SumOfIsTotal(es[..|es| - 1]);
      TotalWith(MapOf(es[..|es| - 1]), es[|es| - 1].0, es[|es| - 1].1);
    } else {
      TotalOfNothing();
    }
  }

  lemma TotalOfNothing()
    ensures Total(map[]) == 0
  {
  }

  lemma TotalWith(m: map<nat, nat>, k: nat, v: nat)
    requires k !in m
    ensures Total(m[k := v]) == Total(m) + v
  {
    var more := m[k := v];
    var f := (u: nat) => Get(more, u);
    assert more.Keys - {k} == m.Keys;
    SumRemove(more.Keys, f, k);
    SumSame(m.Keys, f, (u: nat) => Get(m, u));
    SumSame(more.Keys, f, (u: nat) => Get(more, u));
  }

  // ------------------------------------------------------- reading back --

  /** What each listed arc lost, where it lost anything. */
  ghost function Taken<K(!new)>(arcs: seq<(K, nat)>, before: seq<nat>, cap: seq<nat>, i: nat): seq<(K, nat)>
    requires i <= |arcs| == |before| && forall j :: 0 <= j < |arcs| ==> arcs[j].1 < |cap|
  {
    if i == 0 then [] else
      var used := Minus(before[i - 1], cap[arcs[i - 1].1]);
      Taken(arcs, before, cap, i - 1) + if used > 0 then [(arcs[i - 1].0, used)] else []
  }

  /** Nothing is taken twice, nothing in vain, and only from the arcs listed. */
  lemma {:induction false} TakenKeys<K(!new)>(arcs: seq<(K, nat)>, before: seq<nat>, cap: seq<nat>, i: nat)
    requires i <= |arcs| == |before| && forall j :: 0 <= j < |arcs| ==> arcs[j].1 < |cap|
    requires Distinct(Firsts(arcs))
    ensures var t := Taken(arcs, before, cap, i);
      && (forall a :: 0 <= a < |t| ==> t[a].1 > 0 && t[a].0 in Firsts(arcs)[..i])
      && Distinct(Firsts(t))
    decreases i
  {
    if i > 0 {
      TakenKeys(arcs, before, cap, i - 1);
      var front, k := Taken(arcs, before, cap, i - 1), Firsts(arcs)[i - 1];
      forall a | 0 <= a < |front| ensures front[a].0 != k && front[a].0 in Firsts(arcs)[..i] {
        var j :| 0 <= j < i - 1 && Firsts(arcs)[..i - 1][j] == front[a].0;
        assert Firsts(arcs)[..i][j] == front[a].0;
      }
      assert Firsts(arcs)[..i][i - 1] == k;
      var all := Taken(arcs, before, cap, i);
      forall a, b | 0 <= a < b < |all| ensures Firsts(all)[a] != Firsts(all)[b] {
        if b < |front| {
          assert Firsts(front)[a] != Firsts(front)[b];
        }
      }
    }
  }

  lemma {:induction false} TakenValues<K(!new)>(arcs: seq<(K, nat)>, before: seq<nat>, cap: seq<nat>, i: nat, j: nat)
    requires j < i <= |arcs| == |before| && forall j :: 0 <= j < |arcs| ==> arcs[j].1 < |cap|
    requires Distinct(Firsts(arcs))
    ensures Get(MapOf(Taken(arcs, before, cap, i)), arcs[j].0) == Minus(before[j], cap[arcs[j].1])
    decreases i
  {
    var front, all := Taken(arcs, before, cap, i - 1), Taken(arcs, before, cap, i);
    assert |all| > |front| ==> all[..|all| - 1] == front;
    assert |all| == |front| ==> all == front;
    if j < i - 1 {
      TakenValues(arcs, before, cap, i - 1, j);
      assert Firsts(arcs)[j] != Firsts(arcs)[i - 1];
    } else if |all| == |front| {
      TakenKeys(arcs, before, cap, i - 1);
      MapOfSorted(front);
      forall a | 0 <= a < |front| ensures Firsts(front)[a] != arcs[j].0 {
        var b :| 0 <= b < i - 1 && Firsts(arcs)[..i - 1][b] == front[a].0;
        assert Firsts(arcs)[b] != Firsts(arcs)[i - 1];
      }
    }
  }

  lemma {:induction false} TakenSorted<K(!new)>(arcs: seq<(K, nat)>, before: seq<nat>, cap: seq<nat>, i: nat, less: (K, K) -> bool)
    requires i <= |arcs| == |before| && forall j :: 0 <= j < |arcs| ==> arcs[j].1 < |cap|
    requires Distinct(Firsts(arcs)) && Sorted(Firsts(arcs), less)
    ensures Sorted(Firsts(Taken(arcs, before, cap, i)), less)
    decreases i
  {
    if i > 0 {
      TakenSorted(arcs, before, cap, i - 1, less);
      TakenKeys(arcs, before, cap, i - 1);
      var front, all := Taken(arcs, before, cap, i - 1), Taken(arcs, before, cap, i);
      forall a, b | 0 <= a < b < |all| ensures less(Firsts(all)[a], Firsts(all)[b]) {
        if b < |front| {
          assert Firsts(all)[a] == Firsts(front)[a] && Firsts(all)[b] == Firsts(front)[b];
        } else {
          var j :| 0 <= j < i - 1 && Firsts(arcs)[..i - 1][j] == front[a].0;
          assert less(Firsts(arcs)[j], Firsts(arcs)[i - 1]);
        }
      }
    }
  }

  /** Add every entry to a book. */
  ghost function Charged<K(!new)>(book: map<K, nat>, es: seq<(K, nat)>, i: nat): map<K, nat>
    requires i <= |es|
  {
    if i == 0 then book else
      var m := Charged(book, es, i - 1);
      m[es[i - 1].0 := Get(m, es[i - 1].0) + es[i - 1].1]
  }

  lemma {:induction false} ChargedSpec<K(!new)>(book: map<K, nat>, es: seq<(K, nat)>, i: nat, k: K)
    requires i <= |es| && Distinct(Firsts(es))
    ensures Get(Charged(book, es, i), k) == Get(book, k) + Get(MapOf(es[..i]), k)
    ensures k in Charged(book, es, i) <==> k in book || k in MapOf(es[..i])
    decreases i
  {
    if i > 0 {
      ChargedSpec(book, es, i - 1, k);
      assert es[..i][..i - 1] == es[..i - 1];
      NotBefore(es, i - 1);
    }
  }

  /** Charge what each listed arc lost, and list it. */
  method ReadBack<K(!new)>(arcs: seq<(K, nat)>, before: seq<nat>, cap: seq<nat>, book0: map<K, nat>)
      returns (book: map<K, nat>, taken: seq<(K, nat)>)
    requires |arcs| == |before| && forall j :: 0 <= j < |arcs| ==> arcs[j].1 < |cap|
    ensures taken == Taken(arcs, before, cap, |arcs|)
    ensures book == Charged(book0, taken, |taken|)
  {
    book, taken := book0, [];
    for i := 0 to |arcs|
      invariant taken == Taken(arcs, before, cap, i)
      invariant book == Charged(book0, taken, |taken|)
    {
      var (key, arc) := arcs[i];
      var used := Minus(before[i], cap[arc]);
      if used > 0 {
        ChargedOne(book0, taken, (key, used));
        book := book[key := Get(book, key) + used];
        taken := taken + [(key, used)];
      }
    }
  }

  lemma ChargedOne<K(!new)>(book: map<K, nat>, es: seq<(K, nat)>, e: (K, nat))
    ensures Charged(book, es + [e], |es| + 1)
         == Charged(book, es, |es|)[e.0 := Get(Charged(book, es, |es|), e.0) + e.1]
  {
    ChargedPrefix(book, es, [e], |es|);
  }

  lemma {:induction false} ChargedPrefix<K(!new)>(book: map<K, nat>, es: seq<(K, nat)>, more: seq<(K, nat)>, i: nat)
    requires i <= |es|
    ensures Charged(book, es + more, i) == Charged(book, es, i)
    decreases i
  {
    if i > 0 {
      ChargedPrefix(book, es, more, i - 1);
    }
  }

  // --------------------------------------------------------- the ledger --

  /** What stands, and what outstanding credit holds of it: edges and supply, reserved and committed. */
  datatype State = State(gross: Arcs, held: Arcs) {
    ghost function Free(targets: set<nat>, n: nat, own: bool): Arcs {
      Layout.Free(gross.edge, held.edge, held.supply, gross.supply, targets, n, own)
    }

    /** What the underwriters can still push into a set of accounts. */
    ghost function Capacity(targets: set<nat>, n: nat, own: bool): int {
      MinCut(Free(targets, n, own), Inside(targets, n))
    }
  }

  /** h holds `amount` of flow into the debtor, out of what was free, and the book is charged exactly h. */
  ghost predicate Reserves(s: State, t: State, debtor: nat, n: nat, amount: nat, own: bool, h: Held) {
    && t.gross == s.gross
    && IsSum(t.held, s.held, h.Arcs())
    && t.held.edge.Keys == s.held.edge.Keys + h.Arcs().edge.Keys
    && t.held.supply.Keys == s.held.supply.Keys + h.Arcs().supply.Keys
    && h.Tidy()
    && Leq(h.Arcs(), s.Free({debtor}, n, own))
    && IsFlow(h.Arcs(), debtor, amount)
  }

  lemma TotalOfFree(supply: map<nat, nat>, committed: map<nat, nat>, targets: set<nat>, n: nat, own: bool)
    ensures Total(FreeSupply(supply, committed, targets, n, own)) <= Total(supply)
  {
    var free := FreeSupply(supply, committed, targets, n, own);
    SumSubset(free.Keys, supply.Keys, (u: nat) => Get(free, u));
    SumLeq(supply.Keys, (u: nat) => Get(free, u), (u: nat) => Get(supply, u));
    SumSame(free.Keys, (u: nat) => Get(free, u), (u: nat) => Get(free, u));
  }

  lemma NoTargetsNoCapacity(g: Arcs)
    ensures MinCut(g, {}) == 0
  {
    MinCutBelow(g, {}, {});
    var D := MinCutAttained(g, {});
    SumZero(g.edge.Keys, InTerm(g.edge, {}));
    SumZero(g.supply.Keys, SupplyTerm(g.supply, {}));
  }

  lemma SameFlow(a: Arcs, b: Arcs, debtor: nat, amount: nat)
    requires IsFlow(a, debtor, amount) && Leq(a, b) && Leq(b, a)
    ensures IsFlow(b, debtor, amount)
  {
    forall v: nat ensures NetInto(b, {v}) == if v == debtor then amount else 0 {
      SumCrosses(b, a, NOTHING, {v});
      NothingCrosses({v});
      assert NetInto(a, {v}) == if v == debtor then amount else 0;
    }
  }

  lemma NothingCrosses(D: set<nat>)
    ensures NetInto(NOTHING, D) == 0
  {
  }

  /** Arcs listed against a column of the network, with what each held before. */
  ghost predicate Lists<K(!new)>(ks: seq<K>, arcs: seq<(K, nat)>, before: seq<nat>, now: seq<nat>, first: nat) {
    && |arcs| == |ks| == |before| && first + 2 * |ks| <= |now| && Distinct(ks)
    && (forall i :: 0 <= i < |ks| ==> arcs[i] == (ks[i], first + 2 * i))
    && (forall i :: 0 <= i < |ks| ==> now[first + 2 * i] + now[first + 1 + 2 * i] == before[i])
  }

  lemma ListsSpec<K(!new)>(ks: seq<K>, arcs: seq<(K, nat)>, before: seq<nat>, now: seq<nat>, first: nat)
    requires Lists(ks, arcs, before, now, first)
    ensures Firsts(arcs) == ks && |arcs| == |before| == |ks| && first + 2 * |ks| <= |now| && Distinct(ks)
    ensures forall j :: 0 <= j < |arcs| ==> arcs[j].1 < |now|
  {
    assert Firsts(arcs) == ks;
  }

  lemma ColumnTakenAt<K(!new)>(ks: seq<K>, arcs: seq<(K, nat)>, before: seq<nat>, now: seq<nat>, first: nat, i: nat)
    requires Lists(ks, arcs, before, now, first) && i < |ks|
    requires |arcs| == |before| && forall j :: 0 <= j < |arcs| ==> arcs[j].1 < |now|
    ensures Get(MapOf(Taken(arcs, before, now, |arcs|)), ks[i]) == now[first + 1 + 2 * i]
  {
    hide MapOf, Taken;
    ListsSpec(ks, arcs, before, now, first);
    TakenValues(arcs, before, now, |arcs|, i);
    assert arcs[i] == (ks[i], first + 2 * i);
  }

  /** What was taken off a column of arcs is what those arcs now carry in reverse. */
  lemma ColumnTaken<K(!new)>(ks: seq<K>, arcs: seq<(K, nat)>, before: seq<nat>, now: seq<nat>, first: nat, k: K)
    requires Lists(ks, arcs, before, now, first)
    ensures |arcs| == |before| == |ks| && first + 2 * |ks| <= |now|
    ensures forall j :: 0 <= j < |arcs| ==> arcs[j].1 < |now|
    ensures Get(MapOf(Taken(arcs, before, now, |arcs|)), k) == Get(Column(ks, now, first + 1), k)
  {
    hide MapOf, Taken, Column, Lists;
    ListsSpec(ks, arcs, before, now, first);
    var taken := Taken(arcs, before, now, |arcs|);
    ColumnSpec(ks, now, first + 1);
    if k in Elements(ks) {
      var i :| 0 <= i < |ks| && ks[i] == k;
      ColumnTakenAt(ks, arcs, before, now, first, i);
    } else {
      TakenKeys(arcs, before, now, |arcs|);
      MapOfSorted(taken);
      assert ks[..|arcs|] == ks;
      forall a | 0 <= a < |taken| ensures Firsts(taken)[a] != k {
        assert taken[a].0 in ks;
      }
    }
  }

  function Rooms<K>(arcs: seq<(K, nat)>, cap: seq<nat>): seq<nat>
    requires forall j :: 0 <= j < |arcs| ==> arcs[j].1 < |cap|
  {
    seq(|arcs|, j requires 0 <= j < |arcs| => cap[arcs[j].1])
  }

  lemma ReadingInside(plan: Plan, w: Wires, pairs: seq<Pair>, was: seq<nat>, g: Arcs, goal: set<nat>,
                      ledgerArc: seq<(Key, nat)>, supplyArc: seq<(nat, nat)>)
    requires Built(plan, w, pairs, was, g, goal) && plan.ReadBy(ledgerArc, supplyArc)
    ensures forall j :: 0 <= j < |ledgerArc| ==> ledgerArc[j].1 < |was|
    ensures forall j :: 0 <= j < |supplyArc| ==> supplyArc[j].1 < |was|
  {
  }

  /** After any search, the lists and the room each arc had before are a reading of the network. */
  lemma ReadingOf(plan: Plan, w: Wires, pairs: seq<Pair>, was: seq<nat>, now: seq<nat>, g: Arcs, goal: set<nat>, read: Reading)
    requires Built(plan, w, pairs, was, g, goal) && read.From(plan, was) && PairsKept(was, now)
    ensures read.Of(plan, now)
  {
    hide Built, PairsKept, Lists, Rooms, Distinct;
    CoversDistinct(plan, w, pairs, was, g, goal);
    PairRooms(plan, w, pairs, was, now, g, goal);
    RoomsFrom(was, now, 0, |plan.keys|);
    RoomsFrom(was, now, |plan.keys|, |plan.lenders|);
    ListsOf(plan.keys, read.ledgerArc, was, now, 0);
    ListsOf(plan.lenders, read.supplyArc, was, now, 2 * |plan.keys|);
  }

  lemma RoomsFrom(was: seq<nat>, now: seq<nat>, first: nat, count: nat)
    requires |was| == |now| && 2 * (first + count) <= |was|
    requires forall i :: 0 <= i < first + count ==> now[2 * i] + now[2 * i + 1] == was[2 * i]
    ensures forall i :: 0 <= i < count ==> now[2 * first + 2 * i] + now[2 * first + 1 + 2 * i] == was[2 * first + 2 * i]
  {
    forall i | 0 <= i < count ensures now[2 * first + 2 * i] + now[2 * first + 1 + 2 * i] == was[2 * first + 2 * i] {
      assert now[2 * (first + i)] + now[2 * (first + i) + 1] == was[2 * (first + i)];
    }
  }

  lemma CoversDistinct(plan: Plan, w: Wires, pairs: seq<Pair>, was: seq<nat>, g: Arcs, goal: set<nat>)
    requires Built(plan, w, pairs, was, g, goal)
    ensures Distinct(plan.keys) && Distinct(plan.lenders)
  {
    hide Wired, Distinct;
  }

  /** On a fresh network every pair holds all its room in its own direction; afterwards it is shared between both. */
  lemma PairRooms(plan: Plan, w: Wires, pairs: seq<Pair>, was: seq<nat>, now: seq<nat>, g: Arcs, goal: set<nat>)
    requires Built(plan, w, pairs, was, g, goal) && PairsKept(was, now)
    ensures |was| == |now| == 2 * plan.Count()
    ensures forall i :: 0 <= i < plan.Count() ==> now[2 * i] + now[2 * i + 1] == was[2 * i]
  {
    hide Built;
    TargetsInGoal(plan, w, pairs, was, g, goal);
    forall i | 0 <= i < plan.Count() ensures now[2 * i] + now[2 * i + 1] == was[2 * i] {
      PairKept(was, now, i);
    }
  }

  lemma ListsOf<K(!new)>(ks: seq<K>, arcs: seq<(K, nat)>, was: seq<nat>, now: seq<nat>, first: nat)
    requires |arcs| == |ks| && Distinct(ks) && first + 2 * |ks| <= |was| == |now|
    requires forall i :: 0 <= i < |ks| ==> arcs[i] == (ks[i], first + 2 * i)
    requires forall i :: 0 <= i < |ks| ==> now[first + 2 * i] + now[first + 1 + 2 * i] == was[first + 2 * i]
    ensures Lists(ks, arcs, Rooms(arcs, was), now, first)
  {
  }

  /** The arcs a search is read back through, edges and supply. */
  datatype Reading = Reading(ledgerArc: seq<(Key, nat)>, beforeEdges: seq<nat>,
                             supplyArc: seq<(nat, nat)>, beforeSupply: seq<nat>) {
    ghost predicate Of(plan: Plan, now: seq<nat>) {
      && Lists(plan.keys, ledgerArc, beforeEdges, now, 0)
      && Lists(plan.lenders, supplyArc, beforeSupply, now, 2 * |plan.keys|)
    }

    /** The plan's own arcs, each with the room it had. */
    ghost predicate From(plan: Plan, was: seq<nat>) {
      && plan.ReadBy(ledgerArc, supplyArc)
      && (forall j :: 0 <= j < |ledgerArc| ==> ledgerArc[j].1 < |was|) && beforeEdges == Rooms(ledgerArc, was)
      && (forall j :: 0 <= j < |supplyArc| ==> supplyArc[j].1 < |was|) && beforeSupply == Rooms(supplyArc, was)
    }

    ghost predicate Within(now: seq<nat>) {
      && |ledgerArc| == |beforeEdges| && (forall j :: 0 <= j < |ledgerArc| ==> ledgerArc[j].1 < |now|)
      && |supplyArc| == |beforeSupply| && (forall j :: 0 <= j < |supplyArc| ==> supplyArc[j].1 < |now|)
    }

    ghost function Hold(now: seq<nat>): Held
      requires Within(now)
    {
      Held(Taken(ledgerArc, beforeEdges, now, |ledgerArc|), Taken(supplyArc, beforeSupply, now, |supplyArc|))
    }

    lemma IsWithin(plan: Plan, now: seq<nat>)
      requires Of(plan, now)
      ensures Within(now)
    {
      ListsSpec(plan.keys, ledgerArc, beforeEdges, now, 0);
      ListsSpec(plan.lenders, supplyArc, beforeSupply, now, 2 * |plan.keys|);
    }

    lemma HeldIsTidy(plan: Plan, now: seq<nat>)
      requires Of(plan, now) && Within(now) && Sorted(plan.keys, KeyLess)
      ensures Hold(now).Tidy()
      ensures Sorted(plan.lenders, IdLess) ==> Sorted(Firsts(Hold(now).supply), IdLess)
    {
      hide Taken, Lists;
      ListsSpec(plan.keys, ledgerArc, beforeEdges, now, 0);
      ListsSpec(plan.lenders, supplyArc, beforeSupply, now, 2 * |plan.keys|);
      TakenKeys(ledgerArc, beforeEdges, now, |ledgerArc|);
      TakenKeys(supplyArc, beforeSupply, now, |supplyArc|);
      TakenSorted(ledgerArc, beforeEdges, now, |ledgerArc|, KeyLess);
      if Sorted(plan.lenders, IdLess) {
        TakenSorted(supplyArc, beforeSupply, now, |supplyArc|, IdLess);
      }
    }

    lemma HeldIsBackward(plan: Plan, now: seq<nat>)
      requires Of(plan, now) && Within(now) && |now| == 2 * plan.Count()
      ensures Leq(Hold(now).Arcs(), plan.Backward(now)) && Leq(plan.Backward(now), Hold(now).Arcs())
    {
      hide Taken, Lists, MapOf, Column;
      var h, b := Hold(now).Arcs(), plan.Backward(now);
      forall k ensures Get(h.edge, k) == Get(b.edge, k) {
        ColumnTaken(plan.keys, ledgerArc, beforeEdges, now, 0, k);
      }
      forall u ensures Get(h.supply, u) == Get(b.supply, u) {
        ColumnTaken(plan.lenders, supplyArc, beforeSupply, now, 2 * |plan.keys|, u);
      }
    }
  }

  function LedgerArcs<K>(ks: seq<K>, first: nat): (arcs: seq<(K, nat)>)
    ensures |arcs| == |ks| && forall i :: 0 <= i < |ks| ==> arcs[i] == (ks[i], first + 2 * i)
  {
    seq(|ks|, i requires 0 <= i < |ks| => (ks[i], first + 2 * i))
  }

  /** Read off in plan order: every arc that lost room, with what it lost. */
  ghost predicate ReadsOff(plan: Plan, was: seq<nat>, now: seq<nat>, h: Held) {
    && |was| == |now| == 2 * plan.Count()
    && var ledgerArc, supplyArc := LedgerArcs(plan.keys, 0), LedgerArcs(plan.lenders, 2 * |plan.keys|);
       h == Held(Taken(ledgerArc, Rooms(ledgerArc, was), now, |ledgerArc|),
                 Taken(supplyArc, Rooms(supplyArc, was), now, |supplyArc|))
  }

  /** h is what the search for `amount` draws: over the network of what is free, the shortest route with room and of those
      the one laid first, again and again until nothing more is wanted. */
  ghost predicate Draws(edges: map<Key, nat>, reserved: map<Key, nat>, committed: map<nat, nat>, uw: seq<(nat, nat)>,
                        debtor: nat, n: nat, amount: nat, own: bool, h: Held) {
    if amount == 0 then h == Held([], []) else
      exists plan: Plan, w: Wires, pairs: seq<Pair>, was: seq<nat>, tail: seq<nat>, now: seq<nat> ::
      && BuildsTo(plan, w, pairs, was, tail, edges, reserved, committed, uw, [debtor], n, own)
      && Searched(w, Search(was, amount), Search(now, 0)) && PairsKept(was, now) && ReadsOff(plan, was, now, h)
  }

  lemma ReadingReadsOff(plan: Plan, was: seq<nat>, now: seq<nat>, read: Reading)
    requires read.From(plan, was) && |was| == |now| == 2 * plan.Count() && read.Within(now)
    ensures ReadsOff(plan, was, now, read.Hold(now))
  {
    hide Taken, Rooms;
    assert read.ledgerArc == LedgerArcs(plan.keys, 0);
    assert read.supplyArc == LedgerArcs(plan.lenders, 2 * |plan.keys|);
  }

  /** The debtor's own supply goes first: of anybody else's nothing is drawn while some of it is left. */
  ghost predicate OwnFirst(s: State, debtor: nat, amount: nat, h: Held) {
    Get(h.Arcs().supply, debtor) == Lesser(amount, Minus(Get(s.gross.supply, debtor), Get(s.held.supply, debtor)))
  }

  /** An amount that fits on the debtor's own supply and the edges of who backs them directly is drawn over those alone. */
  ghost predicate DirectFirst(g: Arcs, debtor: nat, amount: nat, h: Held) {
    amount <= DirectRoom(g, debtor) ==> forall k :: k in h.Arcs().edge ==> k.1 == debtor != k.0
  }

  lemma HoldsInOrder(plan: Plan, w: Wires, pairs: seq<Pair>, was: seq<nat>, now: seq<nat>, s: State,
                     debtor: nat, n: nat, amount: nat, own: bool, read: Reading)
    requires Built(plan, w, pairs, was, s.Free({debtor}, n, own), {debtor}) && PairsKept(was, now) && debtor < n
    requires plan.targets == [debtor] && read.Of(plan, now) && read.Within(now) && read.Hold(now).Tidy()
    requires Leq(read.Hold(now).Arcs(), s.Free({debtor}, n, own))
    requires Reaches(w, Search(was, amount), Search(now, 0)) && Total(s.gross.supply) < UNBOUNDED
    ensures own ==> OwnFirst(s, debtor, amount, read.Hold(now))
    ensures DirectFirst(s.Free({debtor}, n, own), debtor, amount, read.Hold(now))
  {
    hide Built, PairsKept, Reading.Of, Reading.Hold, Held.Arcs, Plan.Backward, Wired, DirectRoom, Total, Reaches, MapOf, State.Free;
    var g, h := s.Free({debtor}, n, own), read.Hold(now);
    ColumnKeys(plan, w, pairs, was, was, g, {debtor});
    assert |now| == |was| by { PairsSame(was, now); }
    read.HeldIsBackward(plan, now);
    if own {
      FreeOwn(s, debtor, n);
      if debtor in g.supply {
        SupplyBelowTotal(s.gross.supply, debtor);
        OwnDrawn(plan, w, pairs, was, now, g, debtor, amount);
      }
    }
    if amount <= DirectRoom(g, debtor) {
      forall k | k in h.Arcs().edge ensures k.1 == debtor != k.0 {
        DirectDrawn(plan, w, pairs, was, now, g, debtor, amount, k);
        TidyPositive(h, k);
      }
    }
  }

  lemma PairsSame(was: seq<nat>, now: seq<nat>)
    requires PairsKept(was, now)
    ensures |was| == |now|
  {
  }

  lemma FreeOwn(s: State, debtor: nat, n: nat)
    requires debtor < n
    ensures var g := s.Free({debtor}, n, true);
      && Get(g.supply, debtor) == Minus(Get(s.gross.supply, debtor), Get(s.held.supply, debtor)) <= Get(s.gross.supply, debtor)
      && (debtor in g.supply <==> debtor in s.gross.supply)
  {
  }

  lemma SupplyBelowTotal(supply: map<nat, nat>, u: nat)
    ensures Get(supply, u) <= Total(supply)
  {
    if u in supply {
      SumTerm(supply.Keys, (v: nat) => Get(supply, v), u);
    } else {
      SumNonNegative(supply.Keys, (v: nat) => Get(supply, v));
    }
  }

  lemma TidyPositive(h: Held, k: Key)
    requires h.Tidy() && k in h.Arcs().edge
    ensures Get(h.Arcs().edge, k) > 0
  {
    hide MapOf;
    KeyLessTotal();
    SortedDistinct(Firsts(h.edges), KeyLess);
    MapOfSorted(h.edges);
  }

  /** The read-back of a finished search is the flow it pushed, out of what was free. */
  lemma HeldIsPushed(plan: Plan, w: Wires, pairs: seq<Pair>, was: seq<nat>, now: seq<nat>, g: Arcs, debtor: nat, r: nat,
                     read: Reading)
    requires Built(plan, w, pairs, was, g, {debtor}) && PairsKept(was, now) && CutsLose(w, was, now, r)
    requires Sorted(plan.keys, KeyLess) && read.Of(plan, now)
    ensures read.Within(now) && read.Hold(now).Tidy()
    ensures Leq(read.Hold(now).Arcs(), g) && IsFlow(read.Hold(now).Arcs(), debtor, r)
    ensures Sorted(plan.lenders, IdLess) ==> Sorted(Firsts(read.Hold(now).supply), IdLess)
  {
    hide Built, PairsKept, CutsLose, Reading.Of, Reading.Hold, Plan.Backward, Plan.Forward, IsFlow, Held.Tidy, Held.Arcs;
    read.IsWithin(plan, now);
    read.HeldIsTidy(plan, now);
    ColumnsAdd(plan, w, pairs, was, now, g, {debtor});
    PushedIsFlow(plan, w, pairs, was, now, g, debtor, r);
    read.HeldIsBackward(plan, now);
    SameFlow(plan.Backward(now), read.Hold(now).Arcs(), debtor, r);
  }

  class Book {
    var edges: map<Key, nat>
    var reserved: map<Key, nat>
    var committed: map<nat, nat>
    var uw: seq<(nat, nat)>

    constructor (founders: seq<(nat, nat)>)
      ensures View() == State(Arcs(map[], MapOf(founders)), NOTHING) && uw == founders
    {
      edges, reserved, committed, uw := map[], map[], map[], founders;
    }

    ghost function View(): State
      reads this
    {
      State(Arcs(edges, MapOf(uw)), Arcs(reserved, committed))
    }

    /** Underwriters are listed once each, and together declare less than an unbounded arc. */
    ghost predicate Lendable()
      reads this
    {
      DistinctIds(uw) && Total(MapOf(uw)) < UNBOUNDED
    }

    method BuildNetwork(targets: seq<nat>, n: nat, own: bool) returns (net: Network)
      requires DistinctIds(uw)
      ensures fresh(net) && net.Valid() && net.plan.ReadBy(net.ledgerArc, net.supplyArc)
      ensures BuildsTo(net.plan, net.w, net.pairs, net.cap, net.tail, edges, reserved, committed, uw, targets, n, own)
      ensures Built(net.plan, net.w, net.pairs, net.cap, View().Free(Elements(targets), n, own), Inside(Elements(targets), n))
      ensures net.plan == Plan(net.plan.ids, KeptKeys(EdgeEntries(edges), |EdgeEntries(edges)|, n),
                               KeptLenders(uw, |uw|, Elements(targets), n, own), KeptTargets(targets, |targets|, n))
    {
      hide Network.Valid, Plan.ReadBy, Built, KeptKeys, KeptLenders, KeptTargets, EdgeEntries, DistinctIds;
      net := new Network.Build(edges, reserved, committed, uw, targets, n, own);
    }

    /** The answer of a set query: the smaller of `limit` and the minimum cut of what is free. */
    method CapacityInner(targets: seq<nat>, n: nat, limit: nat, own: bool) returns (r: nat)
      requires Lendable()
      ensures r == Lesser(limit, View().Capacity(Elements(targets), n, own))
    {
      hide Network.Valid, Built, Residual.CutsLose, Residual.PairsKept, MinCut, Free, KeptKeys, KeptLenders, KeptTargets,
           EdgeEntries, DistinctIds, Plan.ReadBy, Inside, Elements;
      if targets == [] || n == 0 {
        NobodyInside(targets, n);
        NoTargetsNoCapacity(View().Free(Elements(targets), n, own));
        return 0;
      }
      var net := BuildNetwork(targets, n, own);
      ghost var was := net.cap;
      FreeTotal(View(), Elements(targets), n, own);
      var total, phases := net.Flow(limit);
      DinicIsMinCut(net.plan, net.w, net.pairs, was, net.cap, View().Free(Elements(targets), n, own),
                    Inside(Elements(targets), n), total, limit);
      r := total;
    }

    /** The set query with the supply of its own members left out. */
    method Capacity(targets: seq<nat>, n: nat, limit: nat) returns (r: nat)
      requires Lendable()
      ensures r == Lesser(limit, View().Capacity(Elements(targets), n, false))
    {
      r := CapacityInner(targets, n, limit, false);
    }

    /** The set query with everybody's supply counted. */
    method CapacityWithOwnSupply(targets: seq<nat>, n: nat, limit: nat) returns (r: nat)
      requires Lendable()
      ensures r == Lesser(limit, View().Capacity(Elements(targets), n, true))
    {
      r := CapacityInner(targets, n, limit, true);
    }

    /** Reserve exactly `amount` of flow into the debtor, or change nothing because there is less than that. What is drawn
        is what the search draws: where own supply counts that first, and direct edges before any detour. */
    method Reserve(debtor: nat, n: nat, amount: nat, own: bool) returns (r: Option<Held>)
      requires Lendable()
      modifies this`reserved, this`committed
      ensures r.None? <==> amount > old(View()).Capacity({debtor}, n, own)
      ensures r.None? ==> View() == old(View())
      ensures r.Some? ==> Reserves(old(View()), View(), debtor, n, amount, own, r.value)
      ensures r.Some? && Sorted(Firsts(uw), IdLess) ==> Sorted(Firsts(r.value.supply), IdLess)
      ensures r.Some? ==> Draws(edges, old(reserved), old(committed), uw, debtor, n, amount, own, r.value)
      ensures r.Some? && own && debtor < n ==> OwnFirst(old(View()), debtor, amount, r.value)
      ensures r.Some? && debtor < n ==> DirectFirst(old(View()).Free({debtor}, n, own), debtor, amount, r.value)
    {
      hide Network.Valid, Built, CutsLose, PairsKept, MinCut, State.Free, KeptKeys, KeptLenders, KeptTargets,
           EdgeEntries, DistinctIds, Plan.ReadBy, Inside, Elements, Reserves, Reading.Of,
           IsFlow, Leq, Taken, MapOf, Held.Tidy, Held.Arcs, Charged, Plan.Count, Sorted,
           BuildsTo, Searched, OwnFirst, DirectFirst, Draws;
      CapacityNonNegative(View(), {debtor}, n, own);
      if amount == 0 {
        ReservesNothing(View(), debtor, n, own);
        NothingInOrder(View(), debtor, n, own);
        NothingDrawn(edges, reserved, committed, uw, debtor, n, own);
        return Some(Held([], []));
      }
      ghost var before := View();
      var net := BuildNetwork([debtor], n, own);
      OneTarget(debtor, n);
      ghost var was := net.cap;
      ReadingInside(net.plan, net.w, net.pairs, was, before.Free({debtor}, n, own), Inside({debtor}, n),
                    net.ledgerArc, net.supplyArc);
      var beforeEdges := Rooms(net.ledgerArc, net.cap);
      var beforeSupply := Rooms(net.supplyArc, net.cap);
      FreeTotal(before, {debtor}, n, own);
      var total, phases := net.Flow(amount);
      DinicIsMinCut(net.plan, net.w, net.pairs, was, net.cap, before.Free({debtor}, n, own), Inside({debtor}, n), total, amount);
      if total < amount {
        return None;
      }
      ghost var read := Reading(net.ledgerArc, beforeEdges, net.supplyArc, beforeSupply);
      ReadingOf(net.plan, net.w, net.pairs, was, net.cap, before.Free({debtor}, n, own), Inside({debtor}, n), read);
      PlanSorted(net.plan, edges, uw, {debtor}, n, own);
      ReserveBehind(net.plan, net.w, net.pairs, was, net.cap, before, debtor, n, amount, own, read);
      OrderBehind(net.plan, net.w, net.pairs, was, net.tail, net.cap, before, edges, reserved, committed, uw,
                  debtor, n, amount, own, read);
      var takenEdges, takenSupply;
      reserved, takenEdges := ReadBack(net.ledgerArc, beforeEdges, net.cap, reserved);
      committed, takenSupply := ReadBack(net.supplyArc, beforeSupply, net.cap, committed);
      var held := Held(takenEdges, takenSupply);
      ChargedReserves(before, View(), debtor, n, amount, own, held);
      r := Some(held);
    }

    /** The first declaration listed for the member, or without one the capacity of the member alone. */
    method Conferrable(member: nat, n: nat) returns (r: nat)
      requires Lendable()
      ensures member in MapOf(uw) ==> r == MapOf(uw)[member]
      ensures member !in MapOf(uw) ==> r == Lesser(0xFFFF_FFFF_FFFF_FFFF, View().Capacity({member}, n, false))
    {
      hide MapOf, State.Capacity;
      MapOfSorted(uw);
      for i := 0 to |uw|
        invariant forall j :: 0 <= j < i ==> uw[j].0 != member
      {
        if uw[i].0 == member {
          return uw[i].1;
        }
      }
      assert member !in MapOf(uw) by {
        assert forall j :: 0 <= j < |uw| ==> Firsts(uw)[j] == uw[j].0;
      }
      assert Elements([member]) == {member};
      r := Capacity([member], n, 0xFFFF_FFFF_FFFF_FFFF);
    }

    /** Give back exactly what a hold took. */
    method Release(held: Held)
      modifies this`reserved, this`committed
      ensures Releases(old(View()), View(), held)
    {
      for i := 0 to |held.edges|
        invariant reserved == Refunded(old(reserved), held.edges, i) && committed == old(committed)
      {
        var (key, amount) := held.edges[i];
        if key in reserved {
          reserved := reserved[key := Minus(reserved[key], amount)];
        }
      }
      for i := 0 to |held.supply|
        invariant reserved == Refunded(old(reserved), held.edges, |held.edges|)
        invariant committed == Refunded(old(committed), held.supply, i)
      {
        var (u, amount) := held.supply[i];
        if u in committed {
          committed := committed[u := Minus(committed[u], amount)];
        }
      }
      reserved := Positive(reserved);
      committed := Positive(committed);
    }

    /** The one edge becomes the larger of itself and the smaller of `amount` and `conferrable`. */
    method Stake(creditor: nat, debtor: nat, amount: nat, conferrable: nat)
      modifies this`edges
      ensures View() == State(Arcs(Staked(old(edges), creditor, debtor, amount, conferrable), MapOf(uw)), old(View()).held)
    {
      if creditor == debtor {
        return;
      }
      var staked := Lesser(amount, conferrable);
      if staked == 0 {
        return;
      }
      var e := Get(edges, (creditor, debtor));
      edges := edges[(creditor, debtor) := Greater(e, staked)];
    }

    /** Every edge becomes the larger of its faded weight and what is reserved on it; the book is left alone. */
    method Decay(num: nat, den: nat)
      modifies this`edges
      ensures View() == State(Arcs(Decayed(old(edges), reserved, num, den), MapOf(uw)), old(View()).held)
    {
      hide EdgeEntries, StrictTotal, ReservedCursor.Valid, Faded, Decayed, FadedFirst;
      DecayedWhen(edges, reserved, num, den);
      if den == 0 || num >= den {
        return;
      }
      var held := new ReservedCursor(reserved);
      var es := EdgeEntries(edges);
      FadedNone(edges, reserved, es, num, den);
      for i := 0 to |es|
        invariant held.Valid() && fresh(held) && held.reserved == reserved
        invariant held.last == if i == 0 then None else Some(es[i - 1].0)
        invariant edges == FadedFirst(old(edges), reserved, es, i, num, den)
      {
        var (k, weight) := es[i];
        assert i > 0 ==> KeyLess(es[i - 1].0, k);
        var floor := held.At(k);
        FadedNext(old(edges), reserved, es, i, num, den);
        edges := edges[k := Greater(weight * num / den, floor)];
      }
      FadedAll(old(edges), reserved, num, den);
      edges := Positive(edges);
    }
  }

  ghost function FadedFirst(edges: map<Key, nat>, reserved: map<Key, nat>, es: seq<(Key, nat)>, i: nat, num: nat, den: nat)
    : map<Key, nat>
    requires i <= |es| && den > 0
  {
    if i == 0 then edges else
      FadedFirst(edges, reserved, es, i - 1, num, den)
        [es[i - 1].0 := Faded(es[i - 1].1, Get(reserved, es[i - 1].0), num, den)]
  }

  lemma FadedNext(edges: map<Key, nat>, reserved: map<Key, nat>, es: seq<(Key, nat)>, i: nat, num: nat, den: nat)
    requires i < |es| && den > 0
    ensures FadedFirst(edges, reserved, es, 0, num, den) == edges
    ensures FadedFirst(edges, reserved, es, i + 1, num, den) == FadedFirst(edges, reserved, es, i, num, den)
      [es[i].0 := Greater(es[i].1 * num / den, Get(reserved, es[i].0))]
  {
  }

  lemma {:induction false} FadedAt(edges: map<Key, nat>, reserved: map<Key, nat>, es: seq<(Key, nat)>, i: nat,
                                   num: nat, den: nat, j: nat)
    requires i <= |es| && den > 0 && j < |es|
    requires forall a, b :: 0 <= a < b < |es| ==> KeyLess(es[a].0, es[b].0)
    requires forall a :: 0 <= a < |es| ==> es[a].0 in edges && edges[es[a].0] == es[a].1
    ensures FadedFirst(edges, reserved, es, i, num, den).Keys == edges.Keys
    ensures Get(FadedFirst(edges, reserved, es, i, num, den), es[j].0)
         == if j < i then Faded(es[j].1, Get(reserved, es[j].0), num, den) else es[j].1
    decreases i
  {
    hide Faded;
    if i > 0 {
      FadedAt(edges, reserved, es, i - 1, num, den, j);
      assert j < i - 1 ==> KeyLess(es[j].0, es[i - 1].0);
      assert i - 1 < j ==> KeyLess(es[i - 1].0, es[j].0);
    }
  }

  lemma FadedAll(edges: map<Key, nat>, reserved: map<Key, nat>, num: nat, den: nat)
    requires den > 0 && num < den
    ensures var es := EdgeEntries(edges);
      Positive(FadedFirst(edges, reserved, es, |es|, num, den)) == Decayed(edges, reserved, num, den)
  {
    hide Faded, EdgeEntries, FadedFirst;
    var es := EdgeEntries(edges);
    var all := FadedFirst(edges, reserved, es, |es|, num, den);
    if es == [] {
      assert edges.Keys == {};
      FadedNone(edges, reserved, es, num, den);
    } else {
      FadedAt(edges, reserved, es, |es|, num, den, 0);
      forall k | k in edges ensures all[k] == Faded(edges[k], Get(reserved, k), num, den) {
        var j :| 0 <= j < |es| && es[j] == (k, edges[k]);
        FadedAt(edges, reserved, es, |es|, num, den, j);
      }
    }
  }

  lemma FadedNone(edges: map<Key, nat>, reserved: map<Key, nat>, es: seq<(Key, nat)>, num: nat, den: nat)
    requires den > 0
    ensures FadedFirst(edges, reserved, es, 0, num, den) == edges
  {
  }

  lemma DecayedWhen(edges: map<Key, nat>, reserved: map<Key, nat>, num: nat, den: nat)
    ensures den == 0 || num >= den ==> Decayed(edges, reserved, num, den) == edges
  {
  }

  function Positive<K>(m: map<K, nat>): map<K, nat> {
    map k | k in m && m[k] > 0 :: m[k]
  }

  /** Take every entry off a book, stopping at zero and skipping what the book does not hold. */
  ghost function Refunded<K>(book: map<K, nat>, es: seq<(K, nat)>, i: nat): map<K, nat>
    requires i <= |es|
  {
    if i == 0 then book else
      var m := Refunded(book, es, i - 1);
      if es[i - 1].0 in m then m[es[i - 1].0 := Minus(m[es[i - 1].0], es[i - 1].1)] else m
  }

  ghost predicate Releases(s: State, t: State, h: Held) {
    && t.gross == s.gross
    && t.held == Arcs(Positive(Refunded(s.held.edge, h.edges, |h.edges|)),
                      Positive(Refunded(s.held.supply, h.supply, |h.supply|)))
  }

  ghost function Staked(edges: map<Key, nat>, creditor: nat, debtor: nat, amount: nat, conferrable: nat): map<Key, nat> {
    var staked := Lesser(amount, conferrable);
    if creditor == debtor || staked == 0 then edges
    else edges[(creditor, debtor) := Greater(Get(edges, (creditor, debtor)), staked)]
  }

  function Faded(weight: nat, floor: nat, num: nat, den: nat): nat
    requires den > 0
  {
    Greater(weight * num / den, floor)
  }

  ghost function Decayed(edges: map<Key, nat>, reserved: map<Key, nat>, num: nat, den: nat): map<Key, nat> {
    if den == 0 || num >= den then edges
    else map k | k in edges && Faded(edges[k], Get(reserved, k), num, den) > 0
           :: Faded(edges[k], Get(reserved, k), num, den)
  }

  lemma PlanSorted(plan: Plan, edges: map<Key, nat>, uw: seq<(nat, nat)>, targets: set<nat>, n: nat, own: bool)
    requires plan.keys == KeptKeys(EdgeEntries(edges), |EdgeEntries(edges)|, n)
    requires plan.lenders == KeptLenders(uw, |uw|, targets, n, own)
    ensures Sorted(plan.keys, KeyLess)
    ensures Sorted(Firsts(uw), IdLess) ==> Sorted(plan.lenders, IdLess)
  {
    hide KeptKeys, KeptLenders, EdgeEntries;
    KeptKeysCover(edges, map[], n);
    if Sorted(Firsts(uw), IdLess) {
      forall a, b | 0 <= a < b < |uw| ensures uw[a].0 < uw[b].0 {
        assert IdLess(Firsts(uw)[a], Firsts(uw)[b]);
      }
      KeptLendersSorted(uw, |uw|, targets, n, own);
    }
  }

  /** What a full search read back amounts to, before the book is charged. */
  lemma ReserveBehind(plan: Plan, w: Wires, pairs: seq<Pair>, was: seq<nat>, now: seq<nat>, s: State,
                      debtor: nat, n: nat, amount: nat, own: bool, read: Reading)
    requires Built(plan, w, pairs, was, s.Free({debtor}, n, own), Inside({debtor}, n))
    requires PairsKept(was, now) && CutsLose(w, was, now, amount) && amount > 0
    requires plan.targets == (if debtor < n then [debtor] else [])
    requires Sorted(plan.keys, KeyLess) && read.Of(plan, now)
    ensures read.Within(now) && read.Hold(now).Tidy()
    ensures Leq(read.Hold(now).Arcs(), s.Free({debtor}, n, own)) && IsFlow(read.Hold(now).Arcs(), debtor, amount)
    ensures Sorted(plan.lenders, IdLess) ==> Sorted(Firsts(read.Hold(now).supply), IdLess)
  {
    hide Built, PairsKept, CutsLose, Reading.Of, Reading.Hold, State.Free, IsFlow, Leq, Held.Tidy, Held.Arcs, Sorted;
    OneTarget(debtor, n);
    if debtor < n {
      HeldIsPushed(plan, w, pairs, was, now, s.Free({debtor}, n, own), debtor, amount, read);
    } else {
      NoTargetNoFlow(plan, w, pairs, was, now, s.Free({debtor}, n, own), amount);
      assert false;
    }
  }

  /** And what the search drew it from. */
  lemma OrderBehind(plan: Plan, w: Wires, pairs: seq<Pair>, was: seq<nat>, tail: seq<nat>, now: seq<nat>, s: State,
                    edges: map<Key, nat>, reserved: map<Key, nat>, committed: map<nat, nat>, uw: seq<(nat, nat)>,
                    debtor: nat, n: nat, amount: nat, own: bool, read: Reading)
    requires BuildsTo(plan, w, pairs, was, tail, edges, reserved, committed, uw, [debtor], n, own)
    requires Built(plan, w, pairs, was, s.Free({debtor}, n, own), Inside({debtor}, n)) && amount > 0
    requires PairsKept(was, now) && read.Of(plan, now) && read.Within(now) && read.Hold(now).Tidy()
    requires read.From(plan, was) && plan.targets == (if debtor < n then [debtor] else [])
    requires Leq(read.Hold(now).Arcs(), s.Free({debtor}, n, own)) && Total(s.gross.supply) < UNBOUNDED
    requires Searched(w, Search(was, amount), Search(now, 0))
    ensures Draws(edges, reserved, committed, uw, debtor, n, amount, own, read.Hold(now))
    ensures debtor < n && own ==> OwnFirst(s, debtor, amount, read.Hold(now))
    ensures debtor < n ==> DirectFirst(s.Free({debtor}, n, own), debtor, amount, read.Hold(now))
  {
    hide BuildsTo, Built, PairsKept, Reading.Of, Reading.Hold, Held.Tidy, Held.Arcs, Leq, State.Free, Total, Reaches, ReadsOff,
         OwnFirst, DirectFirst, Reading.From, Reading.Within;
    OneTarget(debtor, n);
    ReadingSizes(plan, w, pairs, was, now, s.Free({debtor}, n, own), Inside({debtor}, n));
    ReadingReadsOff(plan, was, now, read);
    if debtor < n {
      HoldsInOrder(plan, w, pairs, was, now, s, debtor, n, amount, own, read);
    }
  }

  lemma ReadingSizes(plan: Plan, w: Wires, pairs: seq<Pair>, was: seq<nat>, now: seq<nat>, g: Arcs, goal: set<nat>)
    requires Built(plan, w, pairs, was, g, goal) && PairsKept(was, now)
    ensures |was| == |now| == 2 * plan.Count()
  {
    hide Built;
    ColumnKeys(plan, w, pairs, was, was, g, goal);
  }

  lemma NothingInOrder(s: State, debtor: nat, n: nat, own: bool)
    ensures OwnFirst(s, debtor, 0, Held([], [])) && DirectFirst(s.Free({debtor}, n, own), debtor, 0, Held([], []))
  {
    hide State.Free;
    assert Held([], []).Arcs() == NOTHING;
  }

  lemma NothingDrawn(edges: map<Key, nat>, reserved: map<Key, nat>, committed: map<nat, nat>, uw: seq<(nat, nat)>,
                     debtor: nat, n: nat, own: bool)
    ensures Draws(edges, reserved, committed, uw, debtor, n, 0, own, Held([], []))
  {
  }

  /** Charging a tidy hold to a book. */
  lemma ChargedReserves(s: State, t: State, debtor: nat, n: nat, amount: nat, own: bool, h: Held)
    requires h.Tidy() && Leq(h.Arcs(), s.Free({debtor}, n, own)) && IsFlow(h.Arcs(), debtor, amount)
    requires t.gross == s.gross
    requires t.held == Arcs(Charged(s.held.edge, h.edges, |h.edges|), Charged(s.held.supply, h.supply, |h.supply|))
    ensures Reserves(s, t, debtor, n, amount, own, h)
  {
    hide Charged, MapOf, State.Free, IsFlow, Leq, Get;
    KeyLessTotal();
    SortedDistinct(Firsts(h.edges), KeyLess);
    assert h.edges[..|h.edges|] == h.edges && h.supply[..|h.supply|] == h.supply;
    forall k ensures Get(t.held.edge, k) == Get(s.held.edge, k) + Get(h.Arcs().edge, k)
             ensures k in t.held.edge <==> k in s.held.edge || k in h.Arcs().edge
    {
      ChargedSpec(s.held.edge, h.edges, |h.edges|, k);
    }
    forall u ensures Get(t.held.supply, u) == Get(s.held.supply, u) + Get(h.Arcs().supply, u)
             ensures u in t.held.supply <==> u in s.held.supply || u in h.Arcs().supply
    {
      ChargedSpec(s.held.supply, h.supply, |h.supply|, u);
    }
  }

  lemma OneTarget(debtor: nat, n: nat)
    ensures Elements([debtor]) == {debtor}
    ensures KeptTargets([debtor], 1, n) == if debtor < n then [debtor] else []
    ensures Inside({debtor}, n) == if debtor < n then {debtor} else {}
  {
    assert KeptTargets([debtor], 1, n) == KeptTargets([debtor], 0, n) + if debtor < n then [debtor] else [];
  }

  lemma FreeTotal(s: State, targets: set<nat>, n: nat, own: bool)
    ensures Total(s.Free(targets, n, own).supply) <= Total(s.gross.supply)
  {
    TotalOfFree(s.gross.supply, s.held.supply, targets, n, own);
  }

  lemma CapacityNonNegative(s: State, targets: set<nat>, n: nat, own: bool)
    ensures s.Capacity(targets, n, own) >= 0
  {
    var D := MinCutAttained(s.Free(targets, n, own), Inside(targets, n));
  }

  lemma ReservesNothing(s: State, debtor: nat, n: nat, own: bool)
    ensures Reserves(s, s, debtor, n, 0, own, Held([], []))
    ensures Sorted(Firsts(Held([], []).supply), IdLess)
  {
    hide State.Free, NetInto;
    var h := Held([], []);
    assert h.Arcs() == NOTHING;
    forall v: nat ensures NetInto(h.Arcs(), {v}) == 0 {
      NothingCrosses({v});
    }
    assert s.held.edge.Keys + h.Arcs().edge.Keys == s.held.edge.Keys;
    assert s.held.supply.Keys + h.Arcs().supply.Keys == s.held.supply.Keys;
  }

  lemma NobodyInside(targets: seq<nat>, n: nat)
    requires targets == [] || n == 0
    ensures Inside(Elements(targets), n) == {}
  {
  }
}
