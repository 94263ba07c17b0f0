/** What any set of debtors can hold, over every run: bounded by the cut around the set. */
module Bounds {
  import opened Sums
  import opened Ordered
  import opened Cuts
  import opened Layout
  import opened Books
  import opened Runs

  // ------------------------------------------------------------ what a set owes --

  /** What the debtors in D owe together. */
  function Owed(live: seq<Hold>, D: set<nat>): nat {
    if live == [] then 0 else
      var last := live[|live| - 1];
      Owed(live[..|live| - 1], D) + if last.debtor in D then last.held.Amount() else 0
  }

  /** The part of a hold's supply side drawn from underwriters outside S. */
  function Drawn(supply: seq<(nat, nat)>, S: set<nat>): nat {
    if supply == [] then 0 else
      var last := supply[|supply| - 1];
      Drawn(supply[..|supply| - 1], S) + if last.0 in S then 0 else last.1
  }

  /** What the debtors in S hold of supply reaching S from outside. */
  function DrawnInto(live: seq<Hold>, S: set<nat>): nat {
    if live == [] then 0 else
      var last := live[|live| - 1];
      DrawnInto(live[..|live| - 1], S) + if last.debtor in S then Drawn(last.held.supply, S) else 0
  }

  lemma SuppliedWith(m: map<nat, nat>, u: nat, v: nat, S: set<nat>)
    requires u !in m
    ensures SuppliedTo(m[u := v], S) == SuppliedTo(m, S) + if u in S then v else 0
  {
    var more := m[u := v];
    assert more.Keys - {u} == m.Keys;
    SumRemove(more.Keys, SupplyTerm(more, S), u);
    SumSame(m.Keys, SupplyTerm(more, S), SupplyTerm(m, S));
  }

  /** A hold's amount is what it draws from outside S and what S supplies itself. */
  lemma {:induction false} DrawnSplits(supply: seq<(nat, nat)>, S: set<nat>)
    requires Distinct(Firsts(supply))
    ensures Drawn(supply, S) + SuppliedTo(MapOf(supply), S) == SumOf(supply)
    decreases |supply|
  {
    hide SuppliedTo, Distinct, Firsts;
    if supply != [] {
      NotBefore(supply, |supply| - 1);
      DrawnSplits(supply[..|supply| - 1], S);
      SuppliedWith(MapOf(supply[..|supply| - 1]), supply[|supply| - 1].0, supply[|supply| - 1].1, S);
    } else {
      NothingSupplied(S);
    }
  }

  lemma NothingSupplied(S: set<nat>)
    ensures SuppliedTo(map[], S) == 0
  {
  }

  lemma {:induction false} DrawnAll(supply: seq<(nat, nat)>, S: set<nat>)
    requires forall i :: 0 <= i < |supply| ==> supply[i].0 !in S
    ensures Drawn(supply, S) == SumOf(supply)
    decreases |supply|
  {
    if supply != [] {
      DrawnAll(supply[..|supply| - 1], S);
    }
  }

  // ------------------------------------------------------------ against the cut --

  lemma SuppliedGrows(h: Arcs, S: set<nat>, D: set<nat>)
    requires S <= D
    ensures SuppliedTo(h.supply, S) <= SuppliedTo(h.supply, D) <= Cut(h, D)
  {
    SumLeq(h.supply.Keys, SupplyTerm(h.supply, S), SupplyTerm(h.supply, D));
    SumNonNegative(h.edge.Keys, InTerm(h.edge, D));
  }

  /** One hold: what it draws into S from outside, and all of S's supply it uses, cross every cut around S. */
  lemma HoldCrosses(h: Hold, S: set<nat>, D: set<nat>)
    requires HoldOk(h) && S <= D
    ensures (if h.debtor in S then Drawn(h.held.supply, S) else 0) + SuppliedTo(h.held.Arcs().supply, S)
         <= Cut(h.held.Arcs(), D)
  {
    hide Cut, IsFlow, SuppliedTo;
    DrawnSplits(h.held.supply, S);
    if h.debtor in S {
      FlowCrosses(h.held.Arcs(), h.debtor, h.held.Amount(), D);
    } else {
      SuppliedGrows(h.held.Arcs(), S, D);
    }
  }

  lemma {:induction false} DrawnCrosses(live: seq<Hold>, S: set<nat>, D: set<nat>)
    requires S <= D && forall i :: 0 <= i < |live| ==> HoldOk(live[i])
    ensures DrawnInto(live, S) + SuppliedTo(AllHeld(live).supply, S) <= Cut(AllHeld(live), D)
    decreases |live|
  {
    hide Cut, HoldOk, Held.Arcs, AllHeld, SuppliedTo;
    if live != [] {
      var front, last := live[..|live| - 1], live[|live| - 1];
      assert live == front + [last];
      assert HoldOk(last);
      DrawnCrosses(front, S, D);
      HoldCrosses(last, S, D);
      AllHeldMore(front, last);
      SumCrosses(AllHeld(live), AllHeld(front), last.held.Arcs(), D);
      SumCrosses(AllHeld(live), AllHeld(front), last.held.Arcs(), S);
    } else {
      AllHeldNone();
      NothingSupplied(S);
    }
  }

  /** Without S's own supply, what is held still fits under the gross graph that leaves S's underwriters out. */
  lemma HeldWithoutOwn(a: Arcs, gross: Arcs, S: set<nat>, n: nat, D: set<nat>)
    requires Leq(a, gross) && IdsBelow(gross, n) && S <= D
    ensures Cut(a, D) - SuppliedTo(a.supply, S) <= Cut(State(gross, NOTHING).Free(S, n, false), D)
  {
    hide Cut;
    var f := State(gross, NOTHING).Free(S, n, false);
    var outer := Arcs(a.edge, map u | u in a.supply && u !in S :: a.supply[u]);
    var inner := Arcs(map[], map u | u in a.supply && u in S :: a.supply[u]);
    SumCrosses(a, outer, inner, D);
    SuppliedInside(a, inner, S, D);
    WithoutOwnFits(a, gross, outer, S, n);
    CutMonotone(outer, f, D);
  }

  lemma SuppliedInside(a: Arcs, inner: Arcs, S: set<nat>, D: set<nat>)
    requires S <= D && inner == Arcs(map[], map u | u in a.supply && u in S :: a.supply[u])
    ensures Cut(inner, D) == SuppliedTo(a.supply, S)
  {
    SumZero(inner.edge.Keys, InTerm(inner.edge, D));
    SumSubset(inner.supply.Keys, a.supply.Keys, SupplyTerm(inner.supply, D));
    SumSame(a.supply.Keys, SupplyTerm(inner.supply, D), SupplyTerm(a.supply, S));
  }

  lemma WithoutOwnFits(a: Arcs, gross: Arcs, outer: Arcs, S: set<nat>, n: nat)
    requires Leq(a, gross) && IdsBelow(gross, n)
    requires outer == Arcs(a.edge, map u | u in a.supply && u !in S :: a.supply[u])
    ensures Leq(outer, State(gross, NOTHING).Free(S, n, false))
  {
    var f := State(gross, NOTHING).Free(S, n, false);
    forall k ensures Get(outer.edge, k) <= Get(f.edge, k) {
      assert Get(a.edge, k) <= Get(gross.edge, k);
      assert k in gross.edge ==> k.0 < n && k.1 < n;
    }
    forall u: nat ensures Get(outer.supply, u) <= Get(f.supply, u) {
      LeqAt(a, gross, u);
      assert u in gross.supply ==> u < n;
    }
  }

  lemma LeqAt(a: Arcs, b: Arcs, u: nat)
    requires Leq(a, b)
    ensures Get(a.supply, u) <= Get(b.supply, u)
  {
  }

  /** The bound, for every set, its own underwriters or not: what its debtors draw from outside it is at most what
      the community could push into it from scratch. */
  lemma DrawnBound(s: Ledger, S: set<nat>, n: nat)
    requires Sound(s) && IdsBelow(s.book.gross, n) && forall x :: x in S ==> x < n
    ensures DrawnInto(s.live, S) <= GrossCapacity(s, S, n, false)
  {
    hide Cut, HoldOk, AllPositive, State.Free, AllHeld, SuppliedTo, MinCut, IdsBelow;
    assert Inside(S, n) == S;
    var D := MinCutAttained(State(s.book.gross, NOTHING).Free(S, n, false), Inside(S, n));
    DrawnCrosses(s.live, S, D);
    HeldWithoutOwn(AllHeld(s.live), s.book.gross, S, n, D);
  }

  lemma {:induction false} OwedGrows(live: seq<Hold>, S: set<nat>, D: set<nat>)
    requires S <= D
    ensures Owed(live, S) <= Owed(live, D)
    decreases |live|
  {
    if live != [] {
      OwedGrows(live[..|live| - 1], S, D);
    }
  }

  lemma {:induction false} OwedCrosses(live: seq<Hold>, D: set<nat>)
    requires forall i :: 0 <= i < |live| ==> HoldOk(live[i])
    ensures Owed(live, D) <= Cut(AllHeld(live), D)
    decreases |live|
  {
    hide Cut, IsFlow, Held.Tidy, Held.Arcs, Held.Amount, AllHeld;
    CutOfNothing(D);
    AllHeldNone();
    if live != [] {
      var front, last := live[..|live| - 1], live[|live| - 1];
      assert live == front + [last];
      assert HoldOk(last);
      OwedCrosses(front, D);
      AllHeldMore(front, last);
      SumCrosses(AllHeld(live), AllHeld(front), last.held.Arcs(), D);
      if last.debtor in D {
        FlowCrosses(last.held.Arcs(), last.debtor, last.held.Amount(), D);
      }
    }
  }

  lemma CutOfNothing(D: set<nat>)
    ensures Cut(NOTHING, D) == 0
  {
  }

  lemma GrossIsFree(gross: Arcs, S: set<nat>, n: nat)
    requires IdsBelow(gross, n)
    ensures Leq(gross, State(gross, NOTHING).Free(S, n, true))
  {
    var f := State(gross, NOTHING).Free(S, n, true);
    forall k ensures Get(gross.edge, k) <= Get(f.edge, k) {
      assert k in gross.edge ==> k.0 < n && k.1 < n;
    }
    forall u ensures Get(gross.supply, u) <= Get(f.supply, u) {
      assert u in gross.supply ==> u < n;
    }
  }

  /** With the set's own supply counted, everything it owes is bounded. */
  lemma OwedBound(s: Ledger, S: set<nat>, n: nat)
    requires Sound(s) && IdsBelow(s.book.gross, n) && forall x :: x in S ==> x < n
    ensures Owed(s.live, S) <= GrossCapacity(s, S, n, true)
  {
    hide Cut, HoldOk, AllPositive, State.Free, Leq, AllHeld;
    var f := State(s.book.gross, NOTHING).Free(S, n, true);
    assert Inside(S, n) == S;
    var D := MinCutAttained(f, Inside(S, n));
    OwedGrows(s.live, S, D);
    OwedCrosses(s.live, D);
    CutMonotone(AllHeld(s.live), s.book.held, D);
    CutMonotone(s.book.held, s.book.gross, D);
    GrossIsFree(s.book.gross, S, n);
    CutMonotone(s.book.gross, f, D);
  }

  // ------------------------------------------- when drawn from outside is all of it --

  /** No debtor of S draws on an underwriter of S. */
  ghost predicate DrawsOutside(live: seq<Hold>, S: set<nat>) {
    forall i :: 0 <= i < |live| && live[i].debtor in S ==> OutsideOnly(live[i].held.supply, S)
  }

  ghost predicate OutsideOnly(supply: seq<(nat, nat)>, S: set<nat>) {
    forall j :: 0 <= j < |supply| ==> supply[j].0 !in S
  }

  lemma {:induction false} OwedIsDrawn(live: seq<Hold>, S: set<nat>)
    requires DrawsOutside(live, S)
    ensures DrawnInto(live, S) == Owed(live, S)
    decreases |live|
  {
    if live != [] {
      var front, last := live[..|live| - 1], live[|live| - 1];
      assert forall i :: 0 <= i < |front| ==> front[i] == live[i];
      OwedIsDrawn(front, S);
      if last.debtor in S {
        assert OutsideOnly(last.held.supply, S);
        DrawnAll(last.held.supply, S);
      }
    }
  }

  /** Every entry of a tidy hold is at most what is free of it, so what is not free is not drawn. */
  lemma ListedIsFree(h: Held, f: Arcs, j: nat)
    requires h.Tidy() && Leq(h.Arcs(), f) && j < |h.supply|
    ensures Get(f.supply, h.supply[j].0) > 0
  {
    TidyDistinct(h);
    MapOfSorted(h.supply);
    assert Get(h.Arcs().supply, h.supply[j].0) <= Get(f.supply, h.supply[j].0);
  }

  lemma DeclaredNothingDrawn(s: Ledger, S: set<nat>)
    requires Sound(s) && DeclaresNothing(s.book.gross.supply, S)
    ensures DrawsOutside(s.live, S)
  {
    hide IsFlow, Held.Tidy, AllHeld, Held.Arcs;
    forall i | 0 <= i < |s.live| ensures OutsideOnly(s.live[i].held.supply, S) {
      assert HoldOk(s.live[i]);
      AllHeldWithout(s.live, i);
      PartLeq(AllHeld(s.live), s.live[i].held.Arcs(), s.book.held, s.book.gross,
              AllHeld(s.live[..i] + s.live[i + 1..]));
      forall j | 0 <= j < |s.live[i].held.supply| ensures s.live[i].held.supply[j].0 !in S {
        ListedIsFree(s.live[i].held, s.book.gross, j);
      }
    }
  }

  lemma PartLeq(all: Arcs, part: Arcs, held: Arcs, gross: Arcs, rest: Arcs)
    requires IsSum(all, rest, part) && Leq(all, held) && Leq(held, gross)
    ensures Leq(part, gross)
  {
    forall k ensures Get(part.edge, k) <= Get(gross.edge, k) {
      assert Get(all.edge, k) == Get(rest.edge, k) + Get(part.edge, k) && Get(all.edge, k) <= Get(held.edge, k) <= Get(gross.edge, k);
    }
    forall u ensures Get(part.supply, u) <= Get(gross.supply, u) {
      assert Get(all.supply, u) == Get(rest.supply, u) + Get(part.supply, u) && Get(all.supply, u) <= Get(held.supply, u) <= Get(gross.supply, u);
    }
  }

  /** Over every run of stakes, reservations, releases, decay and declarations, at every state, for every set of
      debtors: drawn from outside, within the cut that leaves the set's underwriters out; owed altogether, within
      the cut that counts them, and within the other too where they declare nothing. */
  lemma SetBound(states: seq<Ledger>, steps: seq<Step>, i: nat, S: set<nat>, n: nat)
    requires Run(states, steps) && i < |states|
    requires IdsBelow(states[i].book.gross, n) && forall x :: x in S ==> x < n
    ensures DrawnInto(states[i].live, S) <= GrossCapacity(states[i], S, n, false)
    ensures Owed(states[i].live, S) <= GrossCapacity(states[i], S, n, true)
    ensures DeclaresNothing(states[i].book.gross.supply, S)
        ==> Owed(states[i].live, S) <= GrossCapacity(states[i], S, n, false)
  {
    hide Run, Sound, GrossCapacity, IdsBelow, DrawsOutside, DeclaresNothing;
    RunIsSound(states, steps, i);
    DrawnBound(states[i], S, n);
    OwedBound(states[i], S, n);
    if DeclaresNothing(states[i].book.gross.supply, S) {
      DeclaredNothingDrawn(states[i], S);
      OwedIsDrawn(states[i].live, S);
    }
  }

  // ---------------------------------------------- credit alone, and books that mix --

  /** Every reservation leaves the borrower's own supply out: credit, and no seat. */
  predicate CreditOnly(steps: seq<Step>) {
    forall i :: 0 <= i < |steps| && steps[i].Reserve? ==> !steps[i].own
  }

  /** No live hold draws on its own debtor. */
  ghost predicate NoSelfDraw(live: seq<Hold>) {
    forall i :: 0 <= i < |live| ==> OutsideOnly(live[i].held.supply, {live[i].debtor})
  }

  lemma CreditStep(s: Ledger, step: Step, t: Ledger)
    requires Next(s, step, t) && NoSelfDraw(s.live) && (step.Reserve? ==> !step.own)
    ensures NoSelfDraw(t.live)
  {
    hide IsFlow, Held.Tidy, Held.Arcs, State.Free, Releases, Staked, Decayed, OutsideOnly, IsSum, TwoParts;
    match step {
      case Reserve(d, n, amount, own, h) =>
        CreditDrawsOutside(s.book, t.book, d, n, amount, h);
        assert forall i :: 0 <= i < |s.live| ==> t.live[i] == s.live[i];
      case Release(i) =>
        forall j | 0 <= j < |t.live| ensures OutsideOnly(t.live[j].held.supply, {t.live[j].debtor}) {
          assert t.live[j] == if j < i then s.live[j] else s.live[j + 1];
        }
      case ReleasePart(i, back, kept) =>
        assert OutsideOnly(s.live[i].held.supply, {s.live[i].debtor});
        KeptDrawsOutside(s.live[i].held, s.live[i].debtor, back, kept);
        forall j | 0 <= j < |t.live| ensures OutsideOnly(t.live[j].held.supply, {t.live[j].debtor}) {
          assert j != i ==> t.live[j] == s.live[j];
        }
      case _ =>
    }
  }

  /** What is kept of a hold draws only where the hold drew. */
  lemma KeptDrawsOutside(h: Held, debtor: nat, back: Held, kept: Held)
    requires TwoParts(h, debtor, back, kept) && OutsideOnly(h.supply, {debtor})
    ensures OutsideOnly(kept.supply, {debtor})
  {
    hide IsFlow;
    forall j | 0 <= j < |kept.supply| ensures kept.supply[j].0 !in {debtor} {
      ListedIsFree(kept, kept.Arcs(), j);
      assert Get(h.Arcs().supply, kept.supply[j].0) > 0;
      ListedInMap(h.supply, kept.supply[j].0);
    }
  }

  lemma {:induction false} ListedInMap(es: seq<(nat, nat)>, u: nat)
    requires u in MapOf(es)
    ensures exists j :: 0 <= j < |es| && es[j].0 == u
    decreases |es|
  {
    if es[|es| - 1].0 != u {
      ListedInMap(es[..|es| - 1], u);
    }
  }

  lemma CreditDrawsOutside(s: State, t: State, d: nat, n: nat, amount: nat, h: Held)
    requires Reserves(s, t, d, n, amount, false, h)
    ensures OutsideOnly(h.supply, {d})
  {
    var f := s.Free({d}, n, false);
    forall j | 0 <= j < |h.supply| ensures h.supply[j].0 !in {d} {
      ListedIsFree(h, f, j);
      assert d !in f.supply;
    }
  }

  lemma {:induction false} CreditRun(states: seq<Ledger>, steps: seq<Step>, i: nat)
    requires Run(states, steps) && CreditOnly(steps) && i < |states|
    ensures NoSelfDraw(states[i].live)
    decreases i
  {
    hide NoSelfDraw, Next;
    if i > 0 {
      CreditRun(states, steps, i - 1);
      CreditStep(states[i - 1], steps[i - 1], states[i]);
    } else {
      NobodyDraws();
    }
  }

  lemma NobodyDraws()
    ensures NoSelfDraw([])
  {
  }

  lemma AloneDrawsOutside(live: seq<Hold>, S: set<nat>)
    requires NoSelfDraw(live) && |S| <= 1
    ensures DrawsOutside(live, S)
  {
    forall i | 0 <= i < |live| && live[i].debtor in S ensures OutsideOnly(live[i].held.supply, S) {
      assert OutsideOnly(live[i].held.supply, {live[i].debtor});
      forall u | u in S ensures u == live[i].debtor {
        FewerOf({u, live[i].debtor}, S);
      }
    }
  }

  /** The whole debt against the cut that leaves the set's underwriters out, over every run ending with these
      declarations: of credit alone, or with own-supply draws mixed in. */
  ghost predicate ExcludedBoundHolds(supply: map<nat, nat>, S: set<nat>, n: nat, mixed: bool) {
    forall states: seq<Ledger>, steps: seq<Step> {:trigger Run(states, steps)} ::
      Run(states, steps) && (mixed || CreditOnly(steps)) ==>
      var last := states[|states| - 1];
      last.book.gross.supply == supply && IdsBelow(last.book.gross, n) ==>
      Owed(last.live, S) <= GrossCapacity(last, S, n, false)
  }

  /** An underwriter of the set backs another member, who borrows: inside the set, and past no cut of it. */
  lemma InsideCredit(supply: map<nat, nat>, S: set<nat>, n: nat, u: nat, x: nat)
      returns (states: seq<Ledger>, steps: seq<Step>)
    requires u in S && x in S && u != x && u < n && x < n
    requires u in supply && supply[u] > 0 && forall y :: y in supply ==> y < n
    ensures Run(states, steps) && CreditOnly(steps) && |states| == 3
    ensures states[2].book.gross == Arcs(map[(u, x) := 1], supply)
    ensures Owed(states[2].live, S) == 1
  {
    hide IsFlow, IsSum, Held.Tidy, Leq, State.Free, Held.Arcs, MapOf, SumOf;
    var h := Held([((u, x), 1)], [(u, 1)]);
    var edge: map<Key, nat> := map[(u, x) := 1];
    var s := State(Arcs(map[], supply), NOTHING);
    var t := State(Arcs(edge, supply), NOTHING);
    var r := State(Arcs(edge, supply), h.Arcs());
    InsideHold(supply, n, u, x);
    states := [Ledger(s, []), Ledger(t, []), Ledger(r, [Hold(x, h)])];
    steps := [Stake(u, x, 1, supply[u]), Reserve(x, n, 1, false, h)];
    assert Staked(map[], u, x, 1, supply[u]) == edge;
    assert Next(states[0], steps[0], states[1]);
    assert Next(states[1], steps[1], states[2]);
    assert states[2].live[..0] == [];
    assert Owed(states[2].live, S) == Owed(states[2].live[..0], S) + h.Amount();
  }

  lemma InsideHold(supply: map<nat, nat>, n: nat, u: nat, x: nat)
    requires u != x && u < n && x < n && u in supply && supply[u] > 0
    ensures var h := Held([((u, x), 1)], [(u, 1)]);
      && h.Amount() == 1
      && Reserves(State(Arcs(map[(u, x) := 1], supply), NOTHING), State(Arcs(map[(u, x) := 1], supply), h.Arcs()),
                  x, n, 1, false, h)
  {
    hide IsFlow, Held.Tidy, State.Free, MapOf;
    var h := Held([((u, x), 1)], [(u, 1)]);
    var g := Arcs(map[(u, x) := 1], supply);
    InsideArcs(u, x);
    InsideFits(g, n, u, x);
    assert SumOf(h.supply[..0]) == 0;
    FirstReserves(g, x, n, 1, false, h);
  }

  lemma InsideFits(g: Arcs, n: nat, u: nat, x: nat)
    requires u != x && u < n && x < n && u in g.supply && g.supply[u] > 0 && Get(g.edge, (u, x)) == 1
    ensures Leq(Arcs(map[(u, x) := 1], map[u := 1]), State(g, NOTHING).Free({x}, n, false))
  {
    var f := State(g, NOTHING).Free({x}, n, false);
    assert Get(f.edge, (u, x)) == 1 && Get(f.supply, u) == g.supply[u];
  }

  lemma InsideArcs(u: nat, x: nat)
    requires u != x
    ensures var h := Held([((u, x), 1)], [(u, 1)]);
      h.Arcs() == Arcs(map[(u, x) := 1], map[u := 1]) && h.Tidy() && IsFlow(h.Arcs(), x, 1)
  {
    var h := Held([((u, x), 1)], [(u, 1)]);
    assert MapOf(h.supply) == MapOf(h.supply[..0])[u := 1];
    assert MapOf(h.edges) == MapOf(h.edges[..0])[(u, x) := 1];
    var a := Arcs(map[(u, x) := 1], map[u := 1]);
    forall v: nat ensures NetInto(a, {v}) == if v == x then 1 else 0 {
      SumRemove(a.edge.Keys, InTerm(a.edge, {v}), (u, x));
      SumRemove(a.edge.Keys, OutTerm(a.edge, {v}), (u, x));
      SumRemove(a.supply.Keys, SupplyTerm(a.supply, {v}), u);
      assert a.edge.Keys - {(u, x)} == {} && a.supply.Keys - {u} == {};
    }
  }

  lemma OwnArcs(u: nat, amount: nat)
    requires amount > 0
    ensures var h := Held([], [(u, amount)]);
      h.Arcs() == Arcs(map[], map[u := amount]) && h.Tidy() && h.Amount() == amount && IsFlow(h.Arcs(), u, amount)
  {
    var h := Held([], [(u, amount)]);
    assert MapOf(h.supply) == MapOf(h.supply[..0])[u := amount];
    assert SumOf(h.supply[..0]) == 0;
    var a := Arcs(map[], map[u := amount]);
    forall v: nat ensures NetInto(a, {v}) == if v == u then amount else 0 {
      SumRemove(a.supply.Keys, SupplyTerm(a.supply, {v}), u);
      assert a.supply.Keys - {u} == {};
    }
  }

  lemma OwnFits(supply: map<nat, nat>, n: nat, u: nat)
    requires u in supply && u < n
    ensures Leq(Arcs(map[], map[u := supply[u]]), State(Arcs(map[], supply), NOTHING).Free({u}, n, true))
  {
    assert Get(State(Arcs(map[], supply), NOTHING).Free({u}, n, true).supply, u) == supply[u];
  }

  /** One member drawing their own declared supply. */
  lemma OwnDraw(supply: map<nat, nat>, S: set<nat>, n: nat, u: nat) returns (states: seq<Ledger>, steps: seq<Step>)
    requires u in S && u in supply && supply[u] > 0 && u < n && forall x :: x in supply ==> x < n
    ensures Run(states, steps) && |states| == 2
    ensures states[1].book.gross == Arcs(map[], supply)
    ensures Owed(states[1].live, S) == supply[u]
  {
    hide IsFlow, Held.Tidy, State.Free, MapOf, Held.Arcs, Held.Amount, Reserves;
    var h := Held([], [(u, supply[u])]);
    var g := Arcs(map[], supply);
    OwnArcs(u, supply[u]);
    OwnFits(supply, n, u);
    FirstReserves(g, u, n, supply[u], true, h);
    states := [Ledger(State(g, NOTHING), []), Ledger(State(g, h.Arcs()), [Hold(u, h)])];
    steps := [Reserve(u, n, supply[u], true, h)];
    assert Next(states[0], steps[0], states[1]);
    assert states[1].live[..0] == [];
    assert Owed(states[1].live, S) == Owed(states[1].live[..0], S) + h.Amount();
  }

  /** A graph whose edges all lie inside the set pushes nothing into it once its own underwriters are left out. */
  lemma InsideCutsNothing(gross: Arcs, S: set<nat>, n: nat)
    requires (forall x :: x in S ==> x < n) && forall k :: k in gross.edge ==> k.0 in S
    ensures State(gross, NOTHING).Capacity(S, n, false) <= 0
  {
    var f := State(gross, NOTHING).Free(S, n, false);
    MinCutBelow(f, Inside(S, n), S);
    SumZero(f.edge.Keys, InTerm(f.edge, S));
    SumZero(f.supply.Keys, SupplyTerm(f.supply, S));
  }

  lemma RunNonEmpty(states: seq<Ledger>, steps: seq<Step>)
    requires Run(states, steps)
    ensures |states| > 0
  {
  }

  lemma GrossOf(s: Ledger, S: set<nat>, n: nat, own: bool)
    ensures GrossCapacity(s, S, n, own) == State(s.book.gross, NOTHING).Capacity(S, n, own)
  {
  }

  lemma IdsOf(gross: Arcs, n: nat)
    requires (forall k :: k in gross.edge ==> k.0 < n && k.1 < n) && forall u :: u in gross.supply ==> u < n
    ensures IdsBelow(gross, n)
  {
  }

  lemma ExcludedBoundMet(supply: map<nat, nat>, S: set<nat>, n: nat, mixed: bool)
    requires forall x :: x in S ==> x < n
    requires DeclaresNothing(supply, S) || (!mixed && |S| <= 1)
    ensures ExcludedBoundHolds(supply, S, n, mixed)
  {
    hide Run, GrossCapacity, Owed, IdsBelow, CreditOnly, DeclaresNothing, NoSelfDraw;
    forall states: seq<Ledger>, steps: seq<Step> | Run(states, steps) && (mixed || CreditOnly(steps))
      ensures |states| > 0
      ensures var last := states[|states| - 1];
        last.book.gross.supply == supply && IdsBelow(last.book.gross, n) ==>
        Owed(last.live, S) <= GrossCapacity(last, S, n, false)
    {
      RunNonEmpty(states, steps);
      var last := states[|states| - 1];
      if last.book.gross.supply == supply && IdsBelow(last.book.gross, n) {
        SetBound(states, steps, |states| - 1, S, n);
        if !DeclaresNothing(supply, S) {
          CreditRun(states, steps, |states| - 1);
          AloneDrawsOutside(last.live, S);
          OwedIsDrawn(last.live, S);
        }
      }
    }
  }

  /** Over credit, leaving the set's own underwriters out bounds the whole debt exactly for sets whose members declare
      nothing and for single accounts. */
  lemma ExcludedBoundExactly(supply: map<nat, nat>, S: set<nat>, n: nat)
    requires (forall x :: x in S ==> x < n) && (forall x :: x in supply ==> x < n)
    ensures ExcludedBoundHolds(supply, S, n, false) <==> DeclaresNothing(supply, S) || |S| <= 1
  {
    hide Run, GrossCapacity, Owed, IdsBelow, CreditOnly;
    if DeclaresNothing(supply, S) || |S| <= 1 {
      ExcludedBoundMet(supply, S, n, false);
    } else {
      var u :| u in S && Get(supply, u) != 0;
      var x := Another(S, u);
      var states, steps := InsideCredit(supply, S, n, u, x);
      InsideCutsNothing(states[2].book.gross, S, n);
      IdsOf(states[2].book.gross, n);
      GrossOf(states[2], S, n, false);
      assert Run(states, steps);
    }
  }

  lemma Another(S: set<nat>, u: nat) returns (x: nat)
    requires u in S && |S| > 1
    ensures x in S && x != u
  {
    if S <= {u} {
      FewerOf(S, {u});
    }
    x :| x in S && x != u;
  }

  /** In a book that also takes own-supply draws, only for sets whose members declare nothing. */
  lemma MixedBoundExactly(supply: map<nat, nat>, S: set<nat>, n: nat)
    requires (forall x :: x in S ==> x < n) && (forall x :: x in supply ==> x < n)
    ensures ExcludedBoundHolds(supply, S, n, true) <==> DeclaresNothing(supply, S)
  {
    hide Run, GrossCapacity, Owed, IdsBelow, CreditOnly;
    if DeclaresNothing(supply, S) {
      ExcludedBoundMet(supply, S, n, true);
    } else {
      var u :| u in S && Get(supply, u) != 0;
      var states, steps := OwnDraw(supply, S, n, u);
      InsideCutsNothing(states[1].book.gross, S, n);
      IdsOf(states[1].book.gross, n);
      GrossOf(states[1], S, n, false);
      assert Run(states, steps);
    }
  }
}
