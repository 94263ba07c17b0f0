/** Every run of the book: what each step keeps, and the bound on what any set of debtors can hold. */
module Runs {
  import opened Arithmetic
  import opened Sums
  import opened Ordered
  import opened Cuts
  import opened Layout
  import opened Books

  // ------------------------------------------------- release undoes reserve --

  lemma {:induction false} RefundedSpec<K(!new)>(book: map<K, nat>, es: seq<(K, nat)>, i: nat, k: K)
    requires i <= |es| && Distinct(Firsts(es))
    ensures Refunded(book, es, i).Keys == book.Keys
    ensures Get(Refunded(book, es, i), k) == Minus(Get(book, k), Get(MapOf(es[..i]), k))
    decreases i
  {
    if i > 0 {
      RefundedSpec(book, es, i - 1, k);
      assert es[..i][..i - 1] == es[..i - 1];
      NotBefore(es, i - 1);
    }
  }

  /** Releasing a tidy hold takes exactly its amounts off the book, and drops what reaches zero. */
  lemma ReleasedBook<K(!new)>(book: map<K, nat>, es: seq<(K, nat)>, k: K)
    requires Distinct(Firsts(es))
    ensures var after := Positive(Refunded(book, es, |es|));
      && Get(after, k) == Minus(Get(book, k), Get(MapOf(es), k))
      && (k in after <==> k in book && Get(after, k) > 0)
  {
    RefundedSpec(book, es, |es|, k);
    assert es[..|es|] == es;
  }

  ghost predicate AllPositive(a: Arcs) {
    && (forall k :: k in a.edge ==> a.edge[k] > 0)
    && (forall u :: u in a.supply ==> a.supply[u] > 0)
  }

  lemma TidyDistinct(h: Held)
    requires h.Tidy()
    ensures Distinct(Firsts(h.edges)) && Distinct(Firsts(h.supply)) && AllPositive(h.Arcs())
    ensures h.Arcs().edge.Keys == Elements(Firsts(h.edges)) && h.Arcs().supply.Keys == Elements(Firsts(h.supply))
  {
    KeyLessTotal();
    SortedDistinct(Firsts(h.edges), KeyLess);
    MapOfSorted(h.edges);
    MapOfSorted(h.supply);
    forall k | k in h.Arcs().edge ensures h.Arcs().edge[k] > 0 {
      assert k in Elements(Firsts(h.edges));
      var i :| 0 <= i < |h.edges| && Firsts(h.edges)[i] == k;
      assert h.edges[i].0 == k;
    }
    forall u | u in h.Arcs().supply ensures h.Arcs().supply[u] > 0 {
      assert u in Elements(Firsts(h.supply));
      var i :| 0 <= i < |h.supply| && Firsts(h.supply)[i] == u;
      assert h.supply[i].0 == u;
    }
  }

  /** Reserving and then releasing leaves both maps as they were, key for key. */
  lemma ReleaseUndoesReserve(s: State, t: State, u: State, debtor: nat, n: nat, amount: nat, own: bool, h: Held)
    requires Reserves(s, t, debtor, n, amount, own, h) && Releases(t, u, h)
    requires AllPositive(s.held)
    ensures u == s
  {
    hide MapOf, Refunded, IsFlow, State.Free;
    TidyDistinct(h);
    forall k ensures k in u.held.edge <==> k in s.held.edge
             ensures k in u.held.edge ==> u.held.edge[k] == s.held.edge[k]
    {
      ReleasedBook(t.held.edge, h.edges, k);
    }
    forall x ensures x in u.held.supply <==> x in s.held.supply
             ensures x in u.held.supply ==> u.held.supply[x] == s.held.supply[x]
    {
      ReleasedBook(t.held.supply, h.supply, x);
    }
    assert u.held.edge == s.held.edge && u.held.supply == s.held.supply;
  }

  /** The debt recorded against a hold is the sum of its supply side. */
  lemma HeldAmount(s: State, t: State, debtor: nat, n: nat, amount: nat, own: bool, h: Held)
    requires Reserves(s, t, debtor, n, amount, own, h)
    ensures h.Amount() == amount
  {
    SumOfIsTotal(h.supply);
    AmountIsSupply(h.Arcs(), debtor, amount);
  }

  /** Any tidy flow within what a pristine book has free is a reservation of it. */
  lemma FirstReserves(g: Arcs, debtor: nat, n: nat, amount: nat, own: bool, h: Held)
    requires h.Tidy() && IsFlow(h.Arcs(), debtor, amount)
    requires Leq(h.Arcs(), State(g, NOTHING).Free({debtor}, n, own))
    ensures Reserves(State(g, NOTHING), State(g, h.Arcs()), debtor, n, amount, own, h)
  {
    hide IsFlow, Held.Tidy, State.Free, Held.Arcs;
  }

  // ------------------------------------------------- capacity after reserve --

  lemma FreeSplits(s: State, t: State, h: Arcs, targets: set<nat>, n: nat, own: bool)
    requires t.gross == s.gross && IsSum(t.held, s.held, h) && Leq(h, s.Free(targets, n, own))
    ensures IsSum(s.Free(targets, n, own), t.Free(targets, n, own), h)
  {
    var f, g := s.Free(targets, n, own), t.Free(targets, n, own);
    forall k ensures Get(f.edge, k) == Get(g.edge, k) + Get(h.edge, k) {
      assert Get(h.edge, k) <= Get(f.edge, k);
      assert Get(t.held.edge, k) == Get(s.held.edge, k) + Get(h.edge, k);
    }
    forall u ensures Get(f.supply, u) == Get(g.supply, u) + Get(h.supply, u) {
      assert Get(h.supply, u) <= Get(f.supply, u);
      assert Get(t.held.supply, u) == Get(s.held.supply, u) + Get(h.supply, u);
    }
  }

  /** No edge of a query enters an id outside the id space. */
  lemma OutsideGetsNothing(s: State, targets: set<nat>, n: nat, own: bool, x: nat)
    requires x >= n
    ensures Cut(s.Free(targets, n, own), {x}) == 0
  {
    var f := s.Free(targets, n, own);
    SumZero(f.edge.Keys, InTerm(f.edge, {x}));
    SumZero(f.supply.Keys, SupplyTerm(f.supply, {x}));
  }

  /** Every query that counts the debtor and sees the arcs that were drawn falls by at least the amount. */
  lemma ReserveLowersCapacity(s: State, t: State, debtor: nat, n: nat, amount: nat, own: bool, h: Held,
                              targets: set<nat>, reading: bool)
    requires Reserves(s, t, debtor, n, amount, own, h)
    requires debtor in targets && Leq(h.Arcs(), s.Free(targets, n, reading))
    ensures t.Capacity(targets, n, reading) + amount <= s.Capacity(targets, n, reading)
  {
    hide State.Free, IsFlow, Leq, Held.Tidy, Held.Arcs, IsSum;
    var f, g := s.Free(targets, n, reading), t.Free(targets, n, reading);
    FreeSplits(s, t, h.Arcs(), targets, n, reading);
    var D := MinCutAttained(f, Inside(targets, n));
    MinCutBelow(g, Inside(targets, n), D);
    SumCrosses(f, g, h.Arcs(), D);
    if debtor < n {
      FlowCrosses(h.Arcs(), debtor, amount, D);
    } else {
      OutsideGetsNothing(s, targets, n, reading, debtor);
      FlowBelowCut(h.Arcs(), f, debtor, amount, {debtor});
    }
  }

  /** Where a cut loses the amount and what the hold carries back out of it. */
  lemma ReservedCut(f: Arcs, g: Arcs, h: Arcs, debtor: nat, amount: nat, D: set<nat>)
    requires IsSum(f, g, h) && IsFlow(h, debtor, amount) && debtor in D
    ensures Cut(g, D) == Cut(f, D) - amount - OutOf(h.edge, D)
  {
    SumCrosses(f, g, h, D);
    FlowAcross(h, debtor, amount, D);
  }

  /** The fall is exactly the amount if and only if no cut around the set is within what the hold carries back out
      of it of the least. */
  lemma CapacityFallsExactly(s: State, t: State, debtor: nat, n: nat, amount: nat, own: bool, h: Held,
                             targets: set<nat>, reading: bool)
    requires Reserves(s, t, debtor, n, amount, own, h)
    requires debtor in targets && debtor < n && Leq(h.Arcs(), s.Free(targets, n, reading))
    ensures t.Capacity(targets, n, reading) + amount == s.Capacity(targets, n, reading)
      <==> forall D :: Inside(targets, n) <= D ==>
             s.Capacity(targets, n, reading) + OutOf(h.Arcs().edge, D) <= Cut(s.Free(targets, n, reading), D)
  {
    hide State.Free, IsFlow, Leq, Held.Tidy, Held.Arcs, IsSum, MinCut, Cut, OutOf;
    var f, g := s.Free(targets, n, reading), t.Free(targets, n, reading);
    var inside := Inside(targets, n);
    FreeSplits(s, t, h.Arcs(), targets, n, reading);
    ReserveLowersCapacity(s, t, debtor, n, amount, own, h, targets, reading);
    if t.Capacity(targets, n, reading) + amount == s.Capacity(targets, n, reading) {
      forall D | inside <= D ensures s.Capacity(targets, n, reading) + OutOf(h.Arcs().edge, D) <= Cut(f, D) {
        ReservedCut(f, g, h.Arcs(), debtor, amount, D);
        MinCutBelow(g, inside, D);
      }
    } else {
      var D := MinCutAttained(g, inside);
      ReservedCut(f, g, h.Arcs(), debtor, amount, D);
    }
  }

  // ------------------------------------------------------ the state machine --

  datatype Hold = Hold(debtor: nat, held: Held)

  /** The book together with the holds of every outstanding obligation. */
  datatype Ledger = Ledger(book: State, live: seq<Hold>)

  datatype Step =
    | Stake(creditor: nat, debtor: nat, amount: nat, conferrable: nat)
    | Reserve(borrower: nat, n: nat, amount: nat, own: bool, held: Held)
    | Release(index: nat)
    | ReleasePart(index: nat, back: Held, kept: Held)
    | Decay(num: nat, den: nat)
    | Declare(underwriter: nat, supply: nat)

  function SupplyFloor(committed: map<nat, nat>, underwriter: nat): nat {
    Get(committed, underwriter)
  }

  ghost predicate Starts(s: Ledger) {
    s.book.gross.edge == map[] && s.book.held == NOTHING && s.live == []
  }

  /** A hold cut in two flows into its debtor, arc for arc: one given back, one kept. */
  ghost predicate TwoParts(h: Held, debtor: nat, back: Held, kept: Held) {
    && back.Tidy() && IsFlow(back.Arcs(), debtor, back.Amount())
    && kept.Tidy() && IsFlow(kept.Arcs(), debtor, kept.Amount())
    && IsSum(h.Arcs(), kept.Arcs(), back.Arcs())
  }

  ghost predicate Next(s: Ledger, step: Step, t: Ledger) {
    match step
    case Stake(c, d, amount, conferrable) =>
      t == s.(book := State(Arcs(Staked(s.book.gross.edge, c, d, amount, conferrable), s.book.gross.supply), s.book.held))
    case Reserve(d, n, amount, own, h) =>
      Reserves(s.book, t.book, d, n, amount, own, h) && t.live == s.live + [Hold(d, h)]
    case Release(i) =>
      i < |s.live| && Releases(s.book, t.book, s.live[i].held) && t.live == s.live[..i] + s.live[i + 1..]
    case ReleasePart(i, back, kept) =>
      && i < |s.live| && TwoParts(s.live[i].held, s.live[i].debtor, back, kept)
      && Releases(s.book, t.book, back) && t.live == s.live[i := Hold(s.live[i].debtor, kept)]
    case Decay(num, den) =>
      t == s.(book := State(Arcs(Decayed(s.book.gross.edge, s.book.held.edge, num, den), s.book.gross.supply), s.book.held))
    case Declare(u, supply) =>
      && supply >= SupplyFloor(s.book.held.supply, u)
      && t == s.(book := State(Arcs(s.book.gross.edge, s.book.gross.supply[u := supply]), s.book.held))
  }

  /** Who stakes on whom, for how much, and what they could confer. */
  datatype Staking = Staking(creditor: nat, debtor: nat, amount: nat, conferrable: nat)

  ghost function StakedAll(edges: map<Key, nat>, stakes: seq<Staking>): map<Key, nat> {
    if stakes == [] then edges else
      var s := stakes[|stakes| - 1];
      Staked(StakedAll(edges, stakes[..|stakes| - 1]), s.creditor, s.debtor, s.amount, s.conferrable)
  }

  /** On edge k, of weight v: between two accounts, with neither its amount nor what could be conferred below v, and one of them v. */
  ghost predicate Sets(s: Staking, k: Key, v: nat) {
    (s.creditor, s.debtor) == k && k.0 != k.1 && s.amount >= v && s.conferrable >= v && (s.amount == v || s.conferrable == v)
  }

  /** However often it is staked, in whatever order, an edge stands at its peak: never below what it was or below what any
      stake on it was worth, and at one of those. */
  lemma {:induction false} StakesPeak(edges: map<Key, nat>, stakes: seq<Staking>, k: Key)
    ensures var v := Get(StakedAll(edges, stakes), k);
      && v >= Get(edges, k)
      && (forall i, worth: nat :: 0 <= i < |stakes| && Sets(stakes[i], k, worth) ==> v >= worth)
      && (v == Get(edges, k) || exists i :: 0 <= i < |stakes| && Sets(stakes[i], k, v))
    decreases |stakes|
  {
    if stakes != [] {
      var front, s := stakes[..|stakes| - 1], stakes[|stakes| - 1];
      StakesPeak(edges, front, k);
      var u, v := Get(StakedAll(edges, front), k), Get(StakedAll(edges, stakes), k);
      assert forall i :: 0 <= i < |front| ==> front[i] == stakes[i];
      if u != Get(edges, k) && v == u {
        var i :| 0 <= i < |front| && Sets(front[i], k, u);
        assert Sets(stakes[i], k, v);
      } else if v != u {
        assert Sets(stakes[|stakes| - 1], k, v);
      }
    }
  }

  /** An underwriter may declare any supply from what is committed upwards, that itself included, and nothing less. */
  lemma DeclareExactly(s: Ledger, u: nat, supply: nat)
    ensures (exists t :: Next(s, Step.Declare(u, supply), t)) <==> Get(s.book.held.supply, u) <= supply
    ensures Sound(s) && (exists t :: Next(s, Step.Declare(u, supply), t)) ==>
      exists t :: Next(s, Step.Declare(u, supply), t) && Sound(t) && Get(t.book.gross.supply, u) == supply
  {
    var t := s.(book := State(Arcs(s.book.gross.edge, s.book.gross.supply[u := supply]), s.book.held));
    if supply >= Get(s.book.held.supply, u) {
      assert Next(s, Step.Declare(u, supply), t);
      if Sound(s) {
        StepKeepsSound(s, Step.Declare(u, supply), t);
      }
    }
  }

  ghost predicate Run(states: seq<Ledger>, steps: seq<Step>) {
    && |states| == |steps| + 1 && Starts(states[0])
    && forall i :: 0 <= i < |steps| ==> Next(states[i], steps[i], states[i + 1])
  }

  // ------------------------------------------------------------- invariant --

  function Plus(a: Arcs, b: Arcs): Arcs {
    Arcs(map k | k in a.edge.Keys + b.edge.Keys :: Get(a.edge, k) + Get(b.edge, k),
         map u | u in a.supply.Keys + b.supply.Keys :: Get(a.supply, u) + Get(b.supply, u))
  }

  /** Everything the live holds hold, arc by arc. */
  ghost function AllHeld(live: seq<Hold>): Arcs {
    if live == [] then NOTHING else Plus(AllHeld(live[..|live| - 1]), live[|live| - 1].held.Arcs())
  }

  ghost predicate Same(a: Arcs, b: Arcs) {
    Leq(a, b) && Leq(b, a)
  }

  ghost predicate HoldOk(h: Hold) {
    h.held.Tidy() && IsFlow(h.held.Arcs(), h.debtor, h.held.Amount())
  }

  /** Reserved and committed are exactly what the live holds sum to; no edge or supply is below them; every
      hold is a conserved flow of its own amount. */
  ghost predicate Sound(s: Ledger) {
    && Same(s.book.held, AllHeld(s.live)) && AllPositive(s.book.held)
    && Leq(s.book.held, s.book.gross)
    && forall i :: 0 <= i < |s.live| ==> HoldOk(s.live[i])
  }

  lemma AllHeldNone()
    ensures AllHeld([]) == NOTHING
  {
  }

  lemma PlusIsSum(a: Arcs, b: Arcs)
    ensures IsSum(Plus(a, b), a, b)
  {
  }

  lemma AllHeldMore(live: seq<Hold>, h: Hold)
    ensures IsSum(AllHeld(live + [h]), AllHeld(live), h.held.Arcs())
  {
    assert (live + [h])[..|live|] == live;
    PlusIsSum(AllHeld(live), h.held.Arcs());
  }

  lemma {:induction false} AllHeldWithout(live: seq<Hold>, i: nat)
    requires i < |live|
    ensures IsSum(AllHeld(live), AllHeld(live[..i] + live[i + 1..]), live[i].held.Arcs())
    decreases |live|
  {
    hide IsSum, AllHeld, Held.Arcs;
    var front, last := live[..|live| - 1], live[|live| - 1];
    var rest := live[..i] + live[i + 1..];
    assert live == front + [last];
    AllHeldMore(front, last);
    if i == |live| - 1 {
      assert rest == front;
    } else {
      AllHeldWithout(front, i);
      var less := front[..i] + front[i + 1..];
      assert rest == less + [last];
      AllHeldMore(less, last);
      SwapSum(AllHeld(live), AllHeld(front), AllHeld(rest), AllHeld(less), live[i].held.Arcs(), last.held.Arcs());
    }
  }

  /** all = front + last, front = less + x, rest = less + last: so all = rest + x. */
  lemma SwapSum(all: Arcs, front: Arcs, rest: Arcs, less: Arcs, x: Arcs, last: Arcs)
    requires IsSum(all, front, last) && IsSum(front, less, x) && IsSum(rest, less, last)
    ensures IsSum(all, rest, x)
  {
    forall k ensures Get(all.edge, k) == Get(rest.edge, k) + Get(x.edge, k) {
      assert Get(front.edge, k) == Get(less.edge, k) + Get(x.edge, k);
    }
    forall u ensures Get(all.supply, u) == Get(rest.supply, u) + Get(x.supply, u) {
      assert Get(front.supply, u) == Get(less.supply, u) + Get(x.supply, u);
    }
  }

  lemma StakedRaises(edges: map<Key, nat>, c: nat, d: nat, amount: nat, conferrable: nat, k: Key)
    ensures Get(edges, k) <= Get(Staked(edges, c, d, amount, conferrable), k)
  {
  }

  lemma DecayedFloor(edges: map<Key, nat>, reserved: map<Key, nat>, num: nat, den: nat, k: Key)
    requires Get(reserved, k) <= Get(edges, k)
    ensures Get(reserved, k) <= Get(Decayed(edges, reserved, num, den), k)
  {
  }

  /** Equal books plus the same hold stay equal; the new book still fits under what stands. */
  lemma SumsStaySame(a: Arcs, b: Arcs, h: Arcs, a': Arcs, b': Arcs)
    requires IsSum(a', a, h) && IsSum(b', b, h)
    ensures Same(a, b) <==> Same(a', b')
  {
    SumOrder(a, b, h, a', b');
    SumOrder(b, a, h, b', a');
  }

  lemma SumOrder(a: Arcs, b: Arcs, h: Arcs, a': Arcs, b': Arcs)
    requires IsSum(a', a, h) && IsSum(b', b, h)
    ensures Leq(a, b) <==> Leq(a', b')
  {
    forall k ensures Get(a.edge, k) <= Get(b.edge, k) <==> Get(a'.edge, k) <= Get(b'.edge, k) {
      assert Get(a'.edge, k) == Get(a.edge, k) + Get(h.edge, k);
    }
    forall u ensures Get(a.supply, u) <= Get(b.supply, u) <==> Get(a'.supply, u) <= Get(b'.supply, u) {
      assert Get(a'.supply, u) == Get(a.supply, u) + Get(h.supply, u);
    }
  }

  lemma SumStillFits(s: State, h: Arcs, a: Arcs, targets: set<nat>, n: nat, own: bool)
    requires IsSum(a, s.held, h) && Leq(s.held, s.gross) && Leq(h, s.Free(targets, n, own))
    ensures Leq(a, s.gross)
  {
    var free := s.Free(targets, n, own);
    forall k ensures Get(a.edge, k) <= Get(s.gross.edge, k) {
      assert Get(h.edge, k) <= Get(free.edge, k) && Get(s.held.edge, k) <= Get(s.gross.edge, k);
    }
    forall u ensures Get(a.supply, u) <= Get(s.gross.supply, u) {
      assert Get(h.supply, u) <= Get(free.supply, u) && Get(s.held.supply, u) <= Get(s.gross.supply, u);
    }
  }

  lemma ReserveSound(s: Ledger, t: Ledger, d: nat, n: nat, amount: nat, own: bool, h: Held)
    requires Sound(s) && Next(s, Reserve(d, n, amount, own, h), t)
    ensures Sound(t)
  {
    hide IsFlow, Held.Tidy, State.Free, Held.Arcs, AllHeld, IsSum, Same, Leq;
    HeldAmount(s.book, t.book, d, n, amount, own, h);
    TidyDistinct(h);
    AllHeldMore(s.live, Hold(d, h));
    SumsStaySame(s.book.held, AllHeld(s.live), h.Arcs(), t.book.held, AllHeld(t.live));
    SumStillFits(s.book, h.Arcs(), t.book.held, {d}, n, own);
    SumPositive(s.book.held, h.Arcs(), t.book.held);
    forall i | 0 <= i < |t.live| ensures HoldOk(t.live[i]) {
      assert i < |s.live| ==> HoldOk(s.live[i]);
    }
  }

  lemma SumPositive(a: Arcs, b: Arcs, c: Arcs)
    requires IsSum(c, a, b) && AllPositive(a) && AllPositive(b)
    requires c.edge.Keys == a.edge.Keys + b.edge.Keys && c.supply.Keys == a.supply.Keys + b.supply.Keys
    ensures AllPositive(c)
  {
    forall k | k in c.edge ensures c.edge[k] > 0 {
      assert Get(c.edge, k) == Get(a.edge, k) + Get(b.edge, k);
    }
    forall u | u in c.supply ensures c.supply[u] > 0 {
      assert Get(c.supply, u) == Get(a.supply, u) + Get(b.supply, u);
    }
  }

  /** Releasing one of the holds the book is made of subtracts it exactly. */
  lemma ReleaseSubtracts(s: State, t: State, h: Held, all: Arcs, rest: Arcs)
    requires Releases(s, t, h) && h.Tidy() && Same(s.held, all) && IsSum(all, rest, h.Arcs())
    ensures IsSum(s.held, t.held, h.Arcs()) && AllPositive(t.held)
  {
    hide Refunded, MapOf;
    TidyDistinct(h);
    forall k ensures Get(s.held.edge, k) == Get(t.held.edge, k) + Get(h.Arcs().edge, k)
             ensures k in t.held.edge ==> t.held.edge[k] > 0 {
      ReleasedBook(s.held.edge, h.edges, k);
      assert Get(s.held.edge, k) == Get(all.edge, k) == Get(rest.edge, k) + Get(h.Arcs().edge, k);
    }
    forall u ensures Get(s.held.supply, u) == Get(t.held.supply, u) + Get(h.Arcs().supply, u)
             ensures u in t.held.supply ==> t.held.supply[u] > 0 {
      ReleasedBook(s.held.supply, h.supply, u);
      assert Get(s.held.supply, u) == Get(all.supply, u) == Get(rest.supply, u) + Get(h.Arcs().supply, u);
    }
  }

  lemma PartFits(all: Arcs, part: Arcs, h: Arcs, gross: Arcs)
    requires IsSum(all, part, h) && Leq(all, gross)
    ensures Leq(part, gross)
  {
    forall k ensures Get(part.edge, k) <= Get(gross.edge, k) {
      assert Get(all.edge, k) == Get(part.edge, k) + Get(h.edge, k) && Get(all.edge, k) <= Get(gross.edge, k);
    }
    forall u ensures Get(part.supply, u) <= Get(gross.supply, u) {
      assert Get(all.supply, u) == Get(part.supply, u) + Get(h.supply, u) && Get(all.supply, u) <= Get(gross.supply, u);
    }
  }

  lemma ReleaseSound(s: Ledger, t: Ledger, i: nat)
    requires Sound(s) && Next(s, Release(i), t)
    ensures Sound(t)
  {
    hide IsFlow, Held.Tidy, Held.Arcs, Refunded, MapOf, AllHeld, IsSum, Same, Leq, Releases;
    var h := s.live[i].held;
    assert HoldOk(s.live[i]);
    AllHeldWithout(s.live, i);
    ReleaseSubtracts(s.book, t.book, h, AllHeld(s.live), AllHeld(t.live));
    SumsStaySame(t.book.held, AllHeld(t.live), h.Arcs(), s.book.held, AllHeld(s.live));
    PartFits(s.book.held, t.book.held, h.Arcs(), s.book.gross);
    ReleaseKeepsGross(s.book, t.book, h);
    forall j | 0 <= j < |t.live| ensures HoldOk(t.live[j]) {
      assert t.live[j] == if j < i then s.live[j] else s.live[j + 1];
    }
  }

  /** Keeping part of a hold takes the other part off the sum. */
  lemma AllHeldReplaced(live: seq<Hold>, i: nat, kept: Held, back: Held)
    requires i < |live| && IsSum(live[i].held.Arcs(), kept.Arcs(), back.Arcs())
    ensures IsSum(AllHeld(live), AllHeld(live[i := Hold(live[i].debtor, kept)]), back.Arcs())
  {
    hide AllHeld, Held.Arcs, IsSum;
    var now := live[i := Hold(live[i].debtor, kept)];
    var rest := live[..i] + live[i + 1..];
    AllHeldWithout(live, i);
    AllHeldWithout(now, i);
    assert now[..i] + now[i + 1..] == rest;
    Regroup(AllHeld(live), AllHeld(now), AllHeld(rest), live[i].held.Arcs(), kept.Arcs(), back.Arcs());
  }

  /** all = rest + whole, whole = kept + back, now = rest + kept: so all = now + back. */
  lemma Regroup(all: Arcs, now: Arcs, rest: Arcs, whole: Arcs, kept: Arcs, back: Arcs)
    requires IsSum(all, rest, whole) && IsSum(whole, kept, back) && IsSum(now, rest, kept)
    ensures IsSum(all, now, back)
  {
    forall k ensures Get(all.edge, k) == Get(now.edge, k) + Get(back.edge, k) {
      assert Get(whole.edge, k) == Get(kept.edge, k) + Get(back.edge, k);
      assert Get(now.edge, k) == Get(rest.edge, k) + Get(kept.edge, k);
    }
    forall u ensures Get(all.supply, u) == Get(now.supply, u) + Get(back.supply, u) {
      assert Get(whole.supply, u) == Get(kept.supply, u) + Get(back.supply, u);
      assert Get(now.supply, u) == Get(rest.supply, u) + Get(kept.supply, u);
    }
  }

  lemma ReleasePartSound(s: Ledger, t: Ledger, i: nat, back: Held, kept: Held)
    requires Sound(s) && Next(s, ReleasePart(i, back, kept), t)
    ensures Sound(t)
  {
    hide IsFlow, Held.Tidy, Held.Arcs, Refunded, MapOf, AllHeld, IsSum, Same, Leq, Releases;
    AllHeldReplaced(s.live, i, kept, back);
    ReleaseSubtracts(s.book, t.book, back, AllHeld(s.live), AllHeld(t.live));
    SumsStaySame(t.book.held, AllHeld(t.live), back.Arcs(), s.book.held, AllHeld(s.live));
    PartFits(s.book.held, t.book.held, back.Arcs(), s.book.gross);
    ReleaseKeepsGross(s.book, t.book, back);
    forall j | 0 <= j < |t.live| ensures HoldOk(t.live[j]) {
      assert j != i ==> t.live[j] == s.live[j] && HoldOk(s.live[j]);
    }
  }

  lemma ReleaseKeepsGross(s: State, t: State, h: Held)
    requires Releases(s, t, h)
    ensures t.gross == s.gross
  {
  }

  /** Every step keeps the book sound. */
  lemma StepKeepsSound(s: Ledger, step: Step, t: Ledger)
    requires Sound(s) && Next(s, step, t)
    ensures Sound(t)
  {
    hide HoldOk, Staked, Decayed, Reserves, Releases, AllHeld;
    match step {
      case Stake(c, d, amount, conferrable) =>
        forall k ensures Get(t.book.held.edge, k) <= Get(t.book.gross.edge, k) {
          StakedRaises(s.book.gross.edge, c, d, amount, conferrable, k);
          assert Get(s.book.held.edge, k) <= Get(s.book.gross.edge, k);
        }
      case Reserve(d, n, amount, own, h) =>
        ReserveSound(s, t, d, n, amount, own, h);
      case Release(i) =>
        ReleaseSound(s, t, i);
      case ReleasePart(i, back, kept) =>
        ReleasePartSound(s, t, i, back, kept);
      case Decay(num, den) =>
        forall k ensures Get(t.book.held.edge, k) <= Get(t.book.gross.edge, k) {
          assert Get(s.book.held.edge, k) <= Get(s.book.gross.edge, k);
          DecayedFloor(s.book.gross.edge, s.book.held.edge, num, den, k);
        }
      case Declare(u, supply) =>
        forall x ensures Get(t.book.held.supply, x) <= Get(t.book.gross.supply, x) {
          assert Get(s.book.held.supply, x) <= Get(s.book.gross.supply, x);
        }
    }
  }

  /** Every state of every run is sound. */
  lemma {:induction false} RunIsSound(states: seq<Ledger>, steps: seq<Step>, i: nat)
    requires Run(states, steps) && i < |states|
    ensures Sound(states[i])
    decreases i
  {
    if i > 0 {
      RunIsSound(states, steps, i - 1);
      StepKeepsSound(states[i - 1], steps[i - 1], states[i]);
    }
  }

  /** Releasing the last hold leaves both books empty. */
  lemma DrainedToNothing(s: Ledger)
    requires Sound(s) && s.live == []
    ensures s.book.held == NOTHING
  {
    forall k ensures k !in s.book.held.edge {
      assert Get(s.book.held.edge, k) <= Get(NOTHING.edge, k);
    }
    forall u ensures u !in s.book.held.supply {
      assert Get(s.book.held.supply, u) <= Get(NOTHING.supply, u);
    }
  }

  // ----------------------------------------------------------- gross capacity --

  /** A set's capacity with nothing held. */
  ghost function GrossCapacity(s: Ledger, targets: set<nat>, n: nat, own: bool): int {
    State(s.book.gross, NOTHING).Capacity(targets, n, own)
  }

  ghost predicate IdsBelow(g: Arcs, n: nat) {
    (forall k :: k in g.edge ==> k.0 < n && k.1 < n) && (forall u :: u in g.supply ==> u < n)
  }

  ghost predicate DeclaresNothing(supply: map<nat, nat>, S: set<nat>) {
    forall u :: u in S ==> Get(supply, u) == 0
  }

  /** With nothing held and nobody left out, a query sees the whole graph. */
  lemma PristineFree(g: Arcs, targets: set<nat>, n: nat, own: bool)
    requires IdsBelow(g, n) && forall u :: u in g.supply ==> own || u !in targets
    ensures State(g, NOTHING).Free(targets, n, own) == g
  {
    var f := State(g, NOTHING).Free(targets, n, own);
    assert f.edge == g.edge;
    assert f.supply == g.supply;
  }

  // ------------------------------------------------------------ conservation --

  lemma TotalOver(supply: map<nat, nat>, us: set<nat>)
    requires supply.Keys <= us
    ensures Total(supply) == Sum(us, (u: nat) => Get(supply, u))
  {
    SumSame(supply.Keys, (u: nat) => Get(supply, u), (u: nat) => Get(supply, u));
    SumSubset(supply.Keys, us, (u: nat) => Get(supply, u));
  }

  lemma TotalsAdd(a: Arcs, b: Arcs, c: Arcs)
    requires IsSum(c, a, b)
    ensures Total(c.supply) == Total(a.supply) + Total(b.supply)
  {
    var us := a.supply.Keys + b.supply.Keys + c.supply.Keys;
    TotalOver(a.supply, us);
    TotalOver(b.supply, us);
    TotalOver(c.supply, us);
    SumPlus(us, (u: nat) => Get(a.supply, u), (u: nat) => Get(b.supply, u), (u: nat) => Get(c.supply, u));
  }

  ghost function AllOwed(live: seq<Hold>): nat {
    if live == [] then 0 else AllOwed(live[..|live| - 1]) + live[|live| - 1].held.Amount()
  }

  lemma {:induction false} AllHeldTotal(live: seq<Hold>)
    requires forall i :: 0 <= i < |live| ==> HoldOk(live[i])
    ensures Total(AllHeld(live).supply) == AllOwed(live)
    decreases |live|
  {
    hide Total, IsSum, AllHeld;
    AllHeldNone();
    NothingTotals();
    if live != [] {
      var front, last := live[..|live| - 1], live[|live| - 1];
      assert live == front + [last];
      assert HoldOk(last);
      AllHeldTotal(front);
      AllHeldMore(front, last);
      TotalsAdd(AllHeld(front), last.held.Arcs(), AllHeld(live));
      AmountIsSupply(last.held.Arcs(), last.debtor, last.held.Amount());
    }
  }

  lemma NothingTotals()
    ensures Total(NOTHING.supply) == 0
  {
  }

  /** The committed total is the sum of the live holds' amounts. */
  lemma CommittedIsOwed(s: Ledger)
    requires Sound(s)
    ensures Total(s.book.held.supply) == AllOwed(s.live)
  {
    hide AllHeld;
    AllHeldTotal(s.live);
    var us := s.book.held.supply.Keys + AllHeld(s.live).supply.Keys;
    TotalOver(s.book.held.supply, us);
    TotalOver(AllHeld(s.live).supply, us);
    forall u ensures Get(s.book.held.supply, u) == Get(AllHeld(s.live).supply, u) {
      assert Get(s.book.held.supply, u) <= Get(AllHeld(s.live).supply, u);
      assert Get(AllHeld(s.live).supply, u) <= Get(s.book.held.supply, u);
    }
    SumSame(us, (u: nat) => Get(s.book.held.supply, u), (u: nat) => Get(AllHeld(s.live).supply, u));
  }
}
