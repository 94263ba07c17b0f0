/** Splitting holds into simple routes, and totalling routes into holds. */
module Routes {
  import opened Arithmetic
  import opened Wrappers
  import opened Sums
  import opened Ordered
  import opened Cuts
  import opened Layout
  import opened Books
  import opened Runs

  /** Where a route starts, its arcs head to tail, and the amount on each. */
  datatype Path = Path(source: nat, arcs: seq<Key>, value: nat)

  datatype Refusal =
    | Stranded(source: nat, node: nat, value: nat)
    | Cycles(source: nat, node: nat)
    | SupplyUnplaced
    | ArcsUnsourced

  type Decomposition = Result<seq<Path>, Refusal>

  // ----------------------------------------------------------- what it computes --

  lemma LeastOf(s: set<nat>)
    requires s != {}
    ensures exists x :: x in s && forall y :: y in s ==> x <= y
  {
    IdLessTotal();
    LeastExists(s, IdLess);
  }

  function Least(s: set<nat>): (x: nat)
    requires s != {}
    ensures x in s && forall y :: y in s ==> x <= y
  {
    LeastOf(s);
    var x :| x in s && forall y :: y in s ==> x <= y;
    x
  }

  /** The heads of the arcs out of `node` that still carry something. */
  function Usable(left: map<Key, nat>, node: nat): set<nat> {
    set k | k in left && k.0 == node && left[k] > 0 :: k.1
  }

  function Sources(left: map<nat, nat>): set<nat> {
    set u | u in left && left[u] > 0
  }

  datatype Walk = Arrived(arcs: seq<Key>, value: nat) | Lost(why: Refusal)

  /** One walk by least heads: to the debtor, to a dead end, or to a node seen before. */
  function WalkFrom(left: map<Key, nat>, src: nat, debtor: nat, node: nat, arcs: seq<Key>, value: nat, seen: set<nat>): Walk
    decreases (set k | k in left :: k.1) - seen
  {
    if node == debtor then Arrived(arcs, value)
    else if Usable(left, node) == {} then Lost(Stranded(src, node, value))
    else
      var b := Least(Usable(left, node));
      if b in seen then Lost(Cycles(src, b))
      else WalkFrom(left, src, debtor, b, arcs + [(node, b)], Lesser(value, left[(node, b)]), seen + {b})
  }

  /** Take `value` off every arc of a route. */
  function Drain(left: map<Key, nat>, arcs: seq<Key>, value: nat): map<Key, nat> {
    if arcs == [] then left else
      var last := arcs[|arcs| - 1];
      var m := Drain(left, arcs[..|arcs| - 1], value);
      m[last := Minus(Get(m, last), value)]
  }

  function Finish(edgeLeft: map<Key, nat>, supplyLeft: map<nat, nat>, out: seq<Path>): Decomposition {
    if exists u :: u in supplyLeft && supplyLeft[u] > 0 then Err(SupplyUnplaced)
    else if exists k :: k in edgeLeft && edgeLeft[k] > 0 then Err(ArcsUnsourced)
    else Ok(out)
  }

  function Peel(edgeLeft: map<Key, nat>, supplyLeft: map<nat, nat>, debtor: nat, budget: nat, out: seq<Path>): Decomposition
    decreases budget
  {
    if budget == 0 || Sources(supplyLeft) == {} then Finish(edgeLeft, supplyLeft, out)
    else
      var src := Least(Sources(supplyLeft));
      match WalkFrom(edgeLeft, src, debtor, src, [], supplyLeft[src], {src})
      case Lost(why) => Err(why)
      case Arrived(arcs, value) =>
        Peel(Drain(edgeLeft, arcs, value), supplyLeft[src := Minus(supplyLeft[src], value)], debtor, budget - 1,
             out + [Path(src, arcs, value)])
  }

  /** The routes of a hold, sources in underwriter order, or why it is not a flow. */
  function Decomposed(held: Held, debtor: nat): Decomposition {
    Peel(MapOf(held.edges), MapOf(held.supply), debtor, |held.edges| + |held.supply| + 1, [])
  }

  method Decompose(held: Held, debtor: nat) returns (r: Decomposition)
    ensures r == Decomposed(held, debtor)
  {
    var edgeLeft: map<Key, nat>, supplyLeft: map<nat, nat> := MapOf(held.edges), MapOf(held.supply);
    var out: seq<Path> := [];
    var budget := |held.edges| + |held.supply| + 1;
    for i := 0 to budget
      invariant Peel(edgeLeft, supplyLeft, debtor, budget - i, out) == Decomposed(held, debtor)
    {
      if Sources(supplyLeft) == {} {
        break;
      }
      var src := Least(Sources(supplyLeft));
      var node: nat, value: nat := src, supplyLeft[src];
      var arcs: seq<Key> := [];
      var seen := {src};
      ghost var walk := WalkFrom(edgeLeft, src, debtor, src, [], supplyLeft[src], {src});
      while node != debtor
        invariant WalkFrom(edgeLeft, src, debtor, node, arcs, value, seen) == walk
        decreases (set k | k in edgeLeft :: k.1) - seen
      {
        if Usable(edgeLeft, node) == {} {
          return Err(Stranded(src, node, value));
        }
        var b := Least(Usable(edgeLeft, node));
        value := Lesser(value, edgeLeft[(node, b)]);
        arcs := arcs + [(node, b)];
        node := b;
        if node in seen {
          return Err(Cycles(src, node));
        }
        seen := seen + {node};
      }
      supplyLeft := supplyLeft[src := Minus(supplyLeft[src], value)];
      ghost var before := edgeLeft;
      for j := 0 to |arcs|
        invariant edgeLeft == Drain(before, arcs[..j], value)
      {
        assert arcs[..j + 1][..j] == arcs[..j];
        edgeLeft := edgeLeft[arcs[j] := Minus(Get(edgeLeft, arcs[j]), value)];
      }
      assert arcs[..|arcs|] == arcs;
      out := out + [Path(src, arcs, value)];
    }
    if exists u :: u in supplyLeft && supplyLeft[u] > 0 {
      return Err(SupplyUnplaced);
    }
    if exists k :: k in edgeLeft && edgeLeft[k] > 0 {
      return Err(ArcsUnsourced);
    }
    r := Ok(out);
  }

  // --------------------------------------------------------------- routes as flows --

  /** The node a route is at after i arcs. */
  function NodeAt(src: nat, arcs: seq<Key>, i: nat): nat
    requires i <= |arcs|
  {
    if i == 0 then src else arcs[i - 1].1
  }

  /** Arcs head to tail from src, never at one node twice. */
  ghost predicate Simple(src: nat, arcs: seq<Key>) {
    && (forall i :: 0 <= i < |arcs| ==> arcs[i].0 == NodeAt(src, arcs, i))
    && (forall i, j :: 0 <= i < j <= |arcs| ==> NodeAt(src, arcs, i) != NodeAt(src, arcs, j))
  }

  ghost predicate IsRoute(p: Path, debtor: nat) {
    p.value > 0 && Simple(p.source, p.arcs) && NodeAt(p.source, p.arcs, |p.arcs|) == debtor
  }

  ghost function RouteArcs(p: Path): Arcs {
    Arcs(map k | k in p.arcs :: p.value, map[p.source := p.value])
  }

  lemma OneArcAt(a: Arcs, x: nat, y: nat, v: nat, n: nat)
    requires x != y && (x, y) !in a.edge
    ensures NetInto(Arcs(a.edge[(x, y) := v], a.supply), {n})
         == NetInto(a, {n}) + (if n == y then v else 0) - (if n == x then v else 0)
  {
    var k: Key := (x, y);
    var edge: map<Key, nat> := a.edge[k := v];
    SumRemove(edge.Keys, InTerm(edge, {n}), k);
    SumRemove(edge.Keys, OutTerm(edge, {n}), k);
    assert edge.Keys - {k} == a.edge.Keys;
    SumSame(a.edge.Keys, InTerm(edge, {n}), InTerm(a.edge, {n}));
    SumSame(a.edge.Keys, OutTerm(edge, {n}), OutTerm(a.edge, {n}));
  }

  /** Carrying a flow one arc further moves where it arrives. */
  lemma OneArcFurther(a: Arcs, x: nat, y: nat, v: nat)
    requires IsFlow(a, x, v) && x != y && (x, y) !in a.edge
    ensures IsFlow(Arcs(a.edge[(x, y) := v], a.supply), y, v)
  {
    hide NetInto;
    forall n: nat ensures NetInto(Arcs(a.edge[(x, y) := v], a.supply), {n}) == if n == y then v else 0 {
      OneArcAt(a, x, y, v, n);
      assert NetInto(a, {n}) == if n == x then v else 0;
    }
  }

  lemma SupplyIsFlow(src: nat, v: nat)
    ensures IsFlow(Arcs(map[], map[src := v]), src, v)
  {
    var m: map<nat, nat> := map[src := v];
    forall n: nat ensures NetInto(Arcs(map[], m), {n}) == if n == src then v else 0 {
      SumRemove(m.Keys, SupplyTerm(m, {n}), src);
      assert m.Keys - {src} == {};
    }
  }

  lemma SimpleArcsDistinct(src: nat, arcs: seq<Key>)
    requires Simple(src, arcs)
    ensures Distinct(arcs)
  {
    forall i, j | 0 <= i < j < |arcs| ensures arcs[i] != arcs[j] {
      assert NodeAt(src, arcs, i) != NodeAt(src, arcs, j);
    }
  }

  lemma SimplePrefix(src: nat, arcs: seq<Key>, i: nat)
    requires Simple(src, arcs) && i <= |arcs|
    ensures Simple(src, arcs[..i]) && NodeAt(src, arcs[..i], i) == NodeAt(src, arcs, i)
  {
    forall j | 0 <= j <= i ensures NodeAt(src, arcs[..i], j) == NodeAt(src, arcs, j) {
    }
  }

  lemma {:induction false} SimpleIsFlow(src: nat, arcs: seq<Key>, v: nat)
    requires Simple(src, arcs)
    ensures IsFlow(RouteArcs(Path(src, arcs, v)), NodeAt(src, arcs, |arcs|), v)
    decreases |arcs|
  {
    hide IsFlow, Simple, RouteArcs, NodeAt, Distinct;
    var all := RouteArcs(Path(src, arcs, v));
    if arcs == [] {
      SupplyIsFlow(src, v);
      NoArcs(src, v);
    } else {
      var front, last := arcs[..|arcs| - 1], arcs[|arcs| - 1];
      SimplePrefix(src, arcs, |arcs| - 1);
      SimpleIsFlow(src, front, v);
      SimpleArcsDistinct(src, arcs);
      SimpleEnds(src, arcs);
      assert arcs == front + [last];
      var part := RouteArcs(Path(src, front, v));
      RouteLonger(src, front, last, v);
      NodePrefix(src, arcs);
      OneArcFurther(part, last.0, last.1, v);
    }
  }

  lemma SimpleEnds(src: nat, arcs: seq<Key>)
    requires Simple(src, arcs) && arcs != []
    ensures var last := arcs[|arcs| - 1];
      last.0 == NodeAt(src, arcs, |arcs| - 1) && last.1 == NodeAt(src, arcs, |arcs|) && last.0 != last.1
  {
  }

  lemma NoArcs(src: nat, v: nat)
    ensures RouteArcs(Path(src, [], v)) == Arcs(map[], map[src := v]) && NodeAt(src, [], 0) == src
  {
    assert RouteArcs(Path(src, [], v)).edge == map[];
  }

  lemma RouteLonger(src: nat, front: seq<Key>, last: Key, v: nat)
    requires Distinct(front + [last])
    ensures var part := RouteArcs(Path(src, front, v));
      last !in part.edge && RouteArcs(Path(src, front + [last], v)) == Arcs(part.edge[last := v], part.supply)
  {
    var arcs := front + [last];
    assert arcs[|front|] == last;
    assert forall i :: 0 <= i < |front| ==> arcs[i] == front[i];
    assert forall k :: k in arcs <==> k in front || k == last;
    var part := RouteArcs(Path(src, front, v));
    assert RouteArcs(Path(src, arcs, v)).edge == part.edge[last := v];
  }

  lemma NodePrefix(src: nat, arcs: seq<Key>)
    requires arcs != []
    ensures NodeAt(src, arcs[..|arcs| - 1], |arcs| - 1) == NodeAt(src, arcs, |arcs| - 1)
  {
  }

  lemma RouteIsFlow(p: Path, debtor: nat)
    requires IsRoute(p, debtor)
    ensures IsFlow(RouteArcs(p), debtor, p.value)
  {
    SimpleIsFlow(p.source, p.arcs, p.value);
  }

  ghost function AllRoutes(paths: seq<Path>): Arcs {
    if paths == [] then NOTHING else Plus(AllRoutes(paths[..|paths| - 1]), RouteArcs(paths[|paths| - 1]))
  }

  ghost function Carried(paths: seq<Path>): nat {
    if paths == [] then 0 else Carried(paths[..|paths| - 1]) + paths[|paths| - 1].value
  }

  lemma AllRoutesMore(paths: seq<Path>, p: Path)
    ensures IsSum(AllRoutes(paths + [p]), AllRoutes(paths), RouteArcs(p))
  {
    assert (paths + [p])[..|paths|] == paths;
    PlusIsSum(AllRoutes(paths), RouteArcs(p));
  }

  /** Routes into one debtor add up to a flow of what they carry. */
  lemma {:induction false} AllRoutesFlow(paths: seq<Path>, debtor: nat)
    requires forall p :: p in paths ==> IsRoute(p, debtor)
    ensures IsFlow(AllRoutes(paths), debtor, Carried(paths))
    decreases |paths|
  {
    hide IsFlow, IsRoute, Plus, RouteArcs, IsSum, AllRoutes;
    if paths == [] {
      SumWithNothing(NOTHING);
      NothingIsFlow(debtor);
    } else {
      var front, last := paths[..|paths| - 1], paths[|paths| - 1];
      assert paths == front + [last];
      AllRoutesFlow(front, debtor);
      RouteIsFlow(last, debtor);
      AllRoutesMore(front, last);
      FlowsAdd(AllRoutes(paths), AllRoutes(front), RouteArcs(last), debtor, Carried(front), last.value);
    }
  }

  lemma NothingIsFlow(debtor: nat)
    ensures IsFlow(NOTHING, debtor, 0)
  {
    forall v: nat ensures NetInto(NOTHING, {v}) == 0 {
      NothingCrosses({v});
    }
  }

  // ---------------------------------------------------------------- draining a route --

  lemma {:induction false} DrainSpec(left: map<Key, nat>, arcs: seq<Key>, value: nat, k: Key)
    requires Distinct(arcs)
    ensures Get(Drain(left, arcs, value), k) == if k in arcs then Minus(Get(left, k), value) else Get(left, k)
    decreases |arcs|
  {
    if arcs != [] {
      var front, last := arcs[..|arcs| - 1], arcs[|arcs| - 1];
      DrainSpec(left, front, value, k);
      assert arcs == front + [last];
      assert last !in front;
    }
  }

  ghost predicate Carries(left: map<Key, nat>, arcs: seq<Key>, value: nat) {
    forall k :: k in arcs ==> Get(left, k) >= value
  }

  /** Taking a route off what is left subtracts exactly that route. */
  lemma DrainSubtracts(edgeLeft: map<Key, nat>, supplyLeft: map<nat, nat>, p: Path)
    requires Distinct(p.arcs) && Carries(edgeLeft, p.arcs, p.value) && Get(supplyLeft, p.source) >= p.value
    ensures IsSum(Arcs(edgeLeft, supplyLeft),
                  Arcs(Drain(edgeLeft, p.arcs, p.value), supplyLeft[p.source := Minus(Get(supplyLeft, p.source), p.value)]),
                  RouteArcs(p))
  {
    var after := Drain(edgeLeft, p.arcs, p.value);
    forall k ensures Get(edgeLeft, k) == Get(after, k) + Get(RouteArcs(p).edge, k) {
      DrainSpec(edgeLeft, p.arcs, p.value, k);
    }
  }

  // -------------------------------------------------------------------- the walk --

  /** A closed walk of arcs that all carry something. */
  ghost predicate IsCycle(left: map<Key, nat>, c: seq<Key>) {
    && c != []
    && (forall i :: 0 <= i < |c| ==> Get(left, c[i]) > 0)
    && (forall i :: 0 <= i < |c| - 1 ==> c[i].1 == c[i + 1].0)
    && c[|c| - 1].1 == c[0].0
  }

  ghost predicate Acyclic(left: map<Key, nat>) {
    forall c :: !IsCycle(left, c)
  }

  ghost function Nodes(src: nat, arcs: seq<Key>): set<nat> {
    {src} + set k | k in arcs :: k.1
  }

  /** Where the walk stands: a simple route so far, every arc carrying at least `value`. */
  ghost predicate OnTheWay(left: map<Key, nat>, src: nat, node: nat, arcs: seq<Key>, value: nat, seen: set<nat>, first: nat) {
    && Simple(src, arcs) && node == NodeAt(src, arcs, |arcs|) && seen == Nodes(src, arcs)
    && Carries(left, arcs, value) && 0 < value <= first
    && (value == first || exists k :: k in arcs && Get(left, k) == value)
  }

  ghost predicate WalkOk(left: map<Key, nat>, src: nat, debtor: nat, first: nat, walk: Walk) {
    match walk
    case Arrived(arcs, value) =>
      && IsRoute(Path(src, arcs, value), debtor) && Carries(left, arcs, value) && value <= first
      && (value == first || exists k :: k in arcs && Get(left, k) == value)
    case Lost(why) =>
      && (why.Stranded? || why.Cycles?)
      && (why.Stranded? ==> DeadEnd(left, src, debtor, why.node))
      && (why.Cycles? ==> !Acyclic(left))
  }

  /** A node something arrives at and nothing leaves, short of the debtor. */
  ghost predicate DeadEnd(left: map<Key, nat>, src: nat, debtor: nat, node: nat) {
    && node != debtor && Usable(left, node) == {}
    && (node == src || exists k :: Get(left, k) > 0 && k.1 == node && k.0 != node)
  }

  lemma NodeIndex(src: nat, arcs: seq<Key>, b: nat) returns (i: nat)
    requires b in Nodes(src, arcs)
    ensures i <= |arcs| && NodeAt(src, arcs, i) == b
  {
    if b == src {
      i := 0;
    } else {
      var k :| k in arcs && k.1 == b;
      var j :| 0 <= j < |arcs| && arcs[j] == k;
      i := j + 1;
    }
  }

  /** Meeting a node again closes a walk. */
  lemma RepeatIsCycle(left: map<Key, nat>, src: nat, arcs: seq<Key>, b: nat, value: nat)
    requires Simple(src, arcs) && Carries(left, arcs, value) && value > 0
    requires b in Nodes(src, arcs) && Get(left, (NodeAt(src, arcs, |arcs|), b)) > 0
    ensures !Acyclic(left)
  {
    hide Nodes, Acyclic, Simple, Carries;
    var i := NodeIndex(src, arcs, b);
    SimpleHeads(src, arcs);
    forall j | 0 <= j < |arcs| ensures Get(left, arcs[j]) > 0 {
      CarriedAt(left, arcs, value, j);
    }
    ClosedWalk(left, src, arcs, i);
  }

  lemma SimpleHeads(src: nat, arcs: seq<Key>)
    requires Simple(src, arcs)
    ensures forall j :: 0 <= j < |arcs| ==> arcs[j].0 == NodeAt(src, arcs, j)
  {
  }

  lemma CarriedAt(left: map<Key, nat>, arcs: seq<Key>, value: nat, i: nat)
    requires Carries(left, arcs, value) && i < |arcs|
    ensures Get(left, arcs[i]) >= value
  {
    assert arcs[i] in arcs;
  }

  /** A walk's last stretch, closed. */
  lemma ClosedWalk(left: map<Key, nat>, src: nat, arcs: seq<Key>, i: nat)
    requires i <= |arcs| && forall j :: 0 <= j < |arcs| ==> arcs[j].0 == NodeAt(src, arcs, j) && Get(left, arcs[j]) > 0
    requires Get(left, (NodeAt(src, arcs, |arcs|), NodeAt(src, arcs, i))) > 0
    ensures !Acyclic(left)
  {
    hide Acyclic;
    var c := arcs[i..] + [(NodeAt(src, arcs, |arcs|), NodeAt(src, arcs, i))];
    assert forall j :: 0 <= j < |arcs| - i ==> c[j] == arcs[i + j];
    forall j | 0 <= j < |c| - 1 ensures c[j].1 == c[j + 1].0 {
      assert NodeAt(src, arcs, i + j + 1) == arcs[i + j].1;
    }
    CycleFound(left, c);
  }

  lemma CycleFound(left: map<Key, nat>, c: seq<Key>)
    requires IsCycle(left, c)
    ensures !Acyclic(left)
  {
  }

  lemma NodeOnRoute(src: nat, arcs: seq<Key>, i: nat)
    requires i <= |arcs|
    ensures NodeAt(src, arcs, i) in Nodes(src, arcs)
  {
    assert i > 0 ==> arcs[i - 1] in arcs;
  }

  lemma NodesExtend(src: nat, arcs: seq<Key>, k: Key)
    ensures Nodes(src, arcs + [k]) == Nodes(src, arcs) + {k.1}
  {
    assert forall x :: x in arcs + [k] <==> x in arcs || x == k;
    assert k in arcs + [k];
  }

  lemma SimpleExtends(src: nat, arcs: seq<Key>, b: nat)
    requires Simple(src, arcs) && b !in Nodes(src, arcs)
    ensures Simple(src, arcs + [(NodeAt(src, arcs, |arcs|), b)])
    ensures Nodes(src, arcs + [(NodeAt(src, arcs, |arcs|), b)]) == Nodes(src, arcs) + {b}
  {
    hide Nodes;
    var last: Key := (NodeAt(src, arcs, |arcs|), b);
    var more := arcs + [last];
    NodesExtend(src, arcs, last);
    forall i | 0 <= i <= |arcs| ensures NodeAt(src, more, i) == NodeAt(src, arcs, i) && NodeAt(src, arcs, i) != b {
      NodeOnRoute(src, arcs, i);
    }
    assert NodeAt(src, more, |arcs| + 1) == b;
    forall i | 0 <= i < |more| ensures more[i].0 == NodeAt(src, more, i) {
      assert i < |arcs| ==> more[i] == arcs[i];
    }
    forall i, j | 0 <= i < j <= |more| ensures NodeAt(src, more, i) != NodeAt(src, more, j) {
      assert i <= |arcs|;
    }
  }

  lemma LessCarried(left: map<Key, nat>, arcs: seq<Key>, value: nat, first: nat, k: Key)
    requires Carries(left, arcs, value) && value <= first && Get(left, k) > 0
    requires value == first || exists x :: x in arcs && Get(left, x) == value
    ensures var v := Lesser(value, Get(left, k));
      Carries(left, arcs + [k], v) && v <= first && (v == first || exists x :: x in arcs + [k] && Get(left, x) == v)
  {
    var v, more := Lesser(value, Get(left, k)), arcs + [k];
    assert forall x :: x in more <==> x in arcs || x == k;
    if v != first {
      if v == value {
        var x :| x in arcs && Get(left, x) == value;
        assert x in more;
      } else {
        assert k in more;
      }
    }
  }

  lemma WalkExtends(left: map<Key, nat>, src: nat, node: nat, arcs: seq<Key>, value: nat, seen: set<nat>, first: nat, b: nat)
    requires OnTheWay(left, src, node, arcs, value, seen, first) && b !in seen
    requires (node, b) in left && left[(node, b)] > 0
    ensures OnTheWay(left, src, b, arcs + [(node, b)], Lesser(value, left[(node, b)]), seen + {b}, first)
  {
    hide Simple, Carries, Nodes;
    SimpleExtends(src, arcs, b);
    LessCarried(left, arcs, value, first, (node, b));
  }

  /** Every walk ends at the debtor with a route, at a dead end, or on a cycle. */
  lemma {:induction false} WalkEnds(left: map<Key, nat>, src: nat, debtor: nat, node: nat, arcs: seq<Key>, value: nat,
                                    seen: set<nat>, first: nat)
    requires OnTheWay(left, src, node, arcs, value, seen, first)
    ensures WalkOk(left, src, debtor, first, WalkFrom(left, src, debtor, node, arcs, value, seen))
    decreases (set k | k in left :: k.1) - seen
  {
    if node == debtor {
    } else if Usable(left, node) == {} {
      LastArcArrives(left, src, node, arcs, value, seen, first);
    } else {
      var b := Least(Usable(left, node));
      assert (node, b) in left && left[(node, b)] > 0;
      if b in seen {
        RepeatIsCycle(left, src, arcs, b, value);
      } else {
        WalkExtends(left, src, node, arcs, value, seen, first, b);
        WalkEnds(left, src, debtor, b, arcs + [(node, b)], Lesser(value, left[(node, b)]), seen + {b}, first);
      }
    }
  }

  lemma LastArcArrives(left: map<Key, nat>, src: nat, node: nat, arcs: seq<Key>, value: nat, seen: set<nat>, first: nat)
    requires OnTheWay(left, src, node, arcs, value, seen, first)
    ensures node == src || exists k :: Get(left, k) > 0 && k.1 == node && k.0 != node
  {
    if arcs != [] {
      SimpleEnds(src, arcs);
      var k := arcs[|arcs| - 1];
      assert k in arcs;
    }
  }

  lemma WalkStarts(left: map<Key, nat>, src: nat, debtor: nat, first: nat)
    requires first > 0
    ensures WalkOk(left, src, debtor, first, WalkFrom(left, src, debtor, src, [], first, {src}))
  {
    assert OnTheWay(left, src, src, [], first, {src}, first);
    WalkEnds(left, src, debtor, src, [], first, {src}, first);
  }

  // ----------------------------------------------------------------- soundness --

  lemma SumShifts(start: Arcs, left: Arcs, done: Arcs, less: Arcs, route: Arcs, more: Arcs)
    requires IsSum(start, left, done) && IsSum(left, less, route) && IsSum(more, done, route)
    ensures IsSum(start, less, more)
  {
    forall k ensures Get(start.edge, k) == Get(less.edge, k) + Get(more.edge, k) {
      assert Get(left.edge, k) == Get(less.edge, k) + Get(route.edge, k);
      assert Get(more.edge, k) == Get(done.edge, k) + Get(route.edge, k);
    }
    forall u ensures Get(start.supply, u) == Get(less.supply, u) + Get(more.supply, u) {
      assert Get(left.supply, u) == Get(less.supply, u) + Get(route.supply, u);
      assert Get(more.supply, u) == Get(done.supply, u) + Get(route.supply, u);
    }
  }

  lemma NothingLeft(start: Arcs, left: Arcs, done: Arcs)
    requires IsSum(start, left, done)
    requires (forall k :: Get(left.edge, k) == 0) && (forall u :: Get(left.supply, u) == 0)
    ensures Same(start, done)
  {
  }

  /** What an accepted route takes is exactly itself, and it is a simple route to the debtor. */
  lemma RouteTaken(edgeLeft: map<Key, nat>, supplyLeft: map<nat, nat>, debtor: nat, src: nat)
    requires src in supplyLeft && supplyLeft[src] > 0
    ensures var walk := WalkFrom(edgeLeft, src, debtor, src, [], supplyLeft[src], {src});
      && (walk.Lost? ==> WalkOk(edgeLeft, src, debtor, supplyLeft[src], walk))
      && (walk.Arrived? ==>
            && IsRoute(Path(src, walk.arcs, walk.value), debtor)
            && Distinct(walk.arcs) && Carries(edgeLeft, walk.arcs, walk.value) && walk.value <= supplyLeft[src]
            && (walk.value == supplyLeft[src] || exists k :: k in walk.arcs && Get(edgeLeft, k) == walk.value)
            && IsSum(Arcs(edgeLeft, supplyLeft),
                     Arcs(Drain(edgeLeft, walk.arcs, walk.value), supplyLeft[src := Minus(supplyLeft[src], walk.value)]),
                     RouteArcs(Path(src, walk.arcs, walk.value))))
  {
    hide IsSum, RouteArcs;
    WalkStarts(edgeLeft, src, debtor, supplyLeft[src]);
    match WalkFrom(edgeLeft, src, debtor, src, [], supplyLeft[src], {src}) {
      case Lost(why) =>
      case Arrived(arcs, value) =>
        SimpleArcsDistinct(src, arcs);
        DrainSubtracts(edgeLeft, supplyLeft, Path(src, arcs, value));
    }
  }

  lemma {:induction false} PeelSound(edgeLeft: map<Key, nat>, supplyLeft: map<nat, nat>, debtor: nat, budget: nat,
                                     out: seq<Path>, start: Arcs)
    requires IsSum(start, Arcs(edgeLeft, supplyLeft), AllRoutes(out))
    requires forall p :: p in out ==> IsRoute(p, debtor)
    ensures var r := Peel(edgeLeft, supplyLeft, debtor, budget, out);
      r.Ok? ==> (forall p :: p in r.value ==> IsRoute(p, debtor)) && Same(start, AllRoutes(r.value))
    decreases budget
  {
    hide IsSum, AllRoutes, IsRoute, Same, RouteArcs, Drain, WalkFrom;
    if budget == 0 || Sources(supplyLeft) == {} {
      FinishSound(edgeLeft, supplyLeft, out, start);
    } else {
      var src := Least(Sources(supplyLeft));
      RouteTaken(edgeLeft, supplyLeft, debtor, src);
      match WalkFrom(edgeLeft, src, debtor, src, [], supplyLeft[src], {src}) {
        case Lost(why) =>
        case Arrived(arcs, value) =>
          var p := Path(src, arcs, value);
          AllRoutesMore(out, p);
          SumShifts(start, Arcs(edgeLeft, supplyLeft), AllRoutes(out),
                    Arcs(Drain(edgeLeft, arcs, value), supplyLeft[src := Minus(supplyLeft[src], value)]), RouteArcs(p),
                    AllRoutes(out + [p]));
          PeelSound(Drain(edgeLeft, arcs, value), supplyLeft[src := Minus(supplyLeft[src], value)], debtor, budget - 1,
                    out + [p], start);
      }
    }
  }

  lemma FinishSound(edgeLeft: map<Key, nat>, supplyLeft: map<nat, nat>, out: seq<Path>, start: Arcs)
    requires IsSum(start, Arcs(edgeLeft, supplyLeft), AllRoutes(out))
    ensures var r := Finish(edgeLeft, supplyLeft, out);
      r.Ok? ==> r.value == out && Same(start, AllRoutes(out))
  {
    hide IsSum, AllRoutes, Same;
    if Finish(edgeLeft, supplyLeft, out).Ok? {
      forall k ensures Get(edgeLeft, k) == 0 {
      }
      forall u ensures Get(supplyLeft, u) == 0 {
      }
      NothingLeft(start, Arcs(edgeLeft, supplyLeft), AllRoutes(out));
    }
  }

  lemma SumWithNothing(a: Arcs)
    ensures IsSum(a, a, NOTHING) && AllRoutes([]) == NOTHING
  {
  }

  /** Accepted, every route is a simple route into the debtor, and the routes sum back to the hold arc for arc. */
  lemma DecomposeSound(held: Held, debtor: nat)
    ensures var r := Decomposed(held, debtor);
      r.Ok? ==> (forall p :: p in r.value ==> IsRoute(p, debtor)) && Same(held.Arcs(), AllRoutes(r.value))
  {
    hide IsSum, AllRoutes, IsRoute, Same, Peel;
    SumWithNothing(held.Arcs());
    PeelSound(MapOf(held.edges), MapOf(held.supply), debtor, |held.edges| + |held.supply| + 1, [], held.Arcs());
  }

  /** So a hold that is not conserved is always refused. */
  lemma NotConservedRefused(held: Held, debtor: nat)
    requires !IsFlow(held.Arcs(), debtor, Total(held.Arcs().supply))
    ensures Decomposed(held, debtor).Err?
  {
    hide IsFlow, Same, IsRoute, Peel;
    DecomposeSound(held, debtor);
    var r := Decomposed(held, debtor);
    if r.Ok? {
      AllRoutesFlow(r.value, debtor);
      FlowOfSame(held.Arcs(), AllRoutes(r.value), debtor, Carried(r.value));
      AmountIsSupply(held.Arcs(), debtor, Carried(r.value));
      assert false;
    }
  }

  lemma FlowOfSame(a: Arcs, b: Arcs, debtor: nat, amount: nat)
    requires Same(a, b) && IsFlow(b, debtor, amount)
    ensures IsFlow(a, debtor, amount)
  {
    SameFlow(b, a, debtor, amount);
  }

  // -------------------------------------------------------------- completeness --

  ghost function Busy(left: Arcs): nat {
    |PositiveKeys(left.edge)| + |Sources(left.supply)|
  }

  ghost function PositiveKeys(left: map<Key, nat>): set<Key> {
    set k | k in left && left[k] > 0
  }

  /** Every route empties an arc or a supply entry, and refills nothing. */
  lemma RouteEmptiesOne(edgeLeft: map<Key, nat>, supplyLeft: map<nat, nat>, src: nat, arcs: seq<Key>, value: nat)
    requires src in supplyLeft && 0 < value <= supplyLeft[src] && Distinct(arcs)
    requires value == supplyLeft[src] || exists k :: k in arcs && Get(edgeLeft, k) == value
    ensures Busy(Arcs(Drain(edgeLeft, arcs, value), supplyLeft[src := Minus(supplyLeft[src], value)]))
          < Busy(Arcs(edgeLeft, supplyLeft))
  {
    var e, f := edgeLeft, Drain(edgeLeft, arcs, value);
    var s, t := supplyLeft, supplyLeft[src := Minus(supplyLeft[src], value)];
    forall k | k in PositiveKeys(f) ensures k in PositiveKeys(e) {
      DrainSpec(e, arcs, value, k);
      assert Get(f, k) > 0;
    }
    assert PositiveKeys(f) <= PositiveKeys(e) && Sources(t) <= Sources(s);
    FewerOf(PositiveKeys(f), PositiveKeys(e));
    FewerOf(Sources(t), Sources(s));
    if value == supplyLeft[src] {
      assert src in Sources(s) && src !in Sources(t);
      StrictlyFewer(Sources(t), Sources(s), src);
    } else {
      var k :| k in arcs && Get(edgeLeft, k) == value;
      DrainSpec(e, arcs, value, k);
      assert k in PositiveKeys(e) && Get(f, k) == 0;
      StrictlyFewer(PositiveKeys(f), PositiveKeys(e), k);
    }
  }

  lemma PositiveTerm<K(!new)>(s: set<K>, f: K -> int) returns (x: K)
    requires Sum(s, f) > 0
    ensures x in s && f(x) > 0
  {
    if forall y :: y in s ==> f(y) <= 0 {
      SumLeq(s, f, (y: K) => 0);
      SumZero(s, (y: K) => 0);
    }
    x :| x in s && f(x) > 0;
  }

  /** In a flow, what arrives at a node short of the debtor leaves it over some arc to another node. */
  lemma SomethingLeaves(left: Arcs, debtor: nat, amount: nat, node: nat) returns (b: nat)
    requires IsFlow(left, debtor, amount)
    requires (node != debtor || amount == 0)
    requires Get(left.supply, node) > 0 || exists k :: Get(left.edge, k) > 0 && k.1 == node && k.0 != node
    ensures (node, b) in left.edge && left.edge[(node, b)] > 0 && b != node
  {
    hide IsFlow, NetInto, Sum;
    LeavingSum(left, debtor, amount, node);
    var k := PositiveTerm(left.edge.Keys, OutTerm(left.edge, {node}));
    b := k.1;
    assert k == (node, b);
  }

  /** Where anything reaches a node that keeps nothing, something leaves it. */
  lemma LeavingSum(left: Arcs, debtor: nat, amount: nat, node: nat)
    requires IsFlow(left, debtor, amount)
    requires (node != debtor || amount == 0)
    requires Get(left.supply, node) > 0 || exists k :: Get(left.edge, k) > 0 && k.1 == node && k.0 != node
    ensures Sum(left.edge.Keys, OutTerm(left.edge, {node})) > 0
  {
    hide Sum;
    var ins, outs, sup := InTerm(left.edge, {node}), OutTerm(left.edge, {node}), SupplyTerm(left.supply, {node});
    assert NetInto(left, {node}) == 0;
    SumNonNegative(left.edge.Keys, ins);
    SumNonNegative(left.supply.Keys, sup);
    if Get(left.supply, node) > 0 {
      SumTerm(left.supply.Keys, sup, node);
    } else {
      var k :| Get(left.edge, k) > 0 && k.1 == node && k.0 != node;
      SumTerm(left.edge.Keys, ins, k);
    }
  }

  /** A conserved hold never strands a walk. */
  lemma NeverStranded(left: Arcs, debtor: nat, amount: nat, src: nat, node: nat)
    requires IsFlow(left, debtor, amount) && Get(left.supply, src) > 0
    ensures !DeadEnd(left.edge, src, debtor, node)
  {
    if node != debtor && (node == src || exists k :: Get(left.edge, k) > 0 && k.1 == node && k.0 != node) {
      var b := SomethingLeaves(left, debtor, amount, node);
      assert b in Usable(left.edge, node);
    }
  }

  lemma FlowLess(left: Arcs, less: Arcs, p: Path, debtor: nat, amount: nat)
    requires IsFlow(left, debtor, amount) && IsSum(left, less, RouteArcs(p)) && IsRoute(p, debtor)
    ensures p.value <= amount && IsFlow(less, debtor, amount - p.value)
  {
    hide IsSum, RouteArcs, IsRoute, NetInto;
    RouteIsFlow(p, debtor);
    AmountIsSupply(left, debtor, amount);
    AmountIsSupply(RouteArcs(p), debtor, p.value);
    TotalsAdd(less, RouteArcs(p), left);
    forall v: nat ensures NetInto(less, {v}) == if v == debtor then amount - p.value else 0 {
      SumCrosses(left, less, RouteArcs(p), {v});
      assert NetInto(left, {v}) == if v == debtor then amount else 0;
      assert NetInto(RouteArcs(p), {v}) == if v == debtor then p.value else 0;
    }
  }

  lemma AcyclicLess(edgeLeft: map<Key, nat>, arcs: seq<Key>, value: nat)
    requires Acyclic(edgeLeft) && Distinct(arcs)
    ensures Acyclic(Drain(edgeLeft, arcs, value))
  {
    forall c ensures !IsCycle(Drain(edgeLeft, arcs, value), c) {
      if IsCycle(Drain(edgeLeft, arcs, value), c) {
        forall i | 0 <= i < |c| ensures Get(edgeLeft, c[i]) > 0 {
          DrainSpec(edgeLeft, arcs, value, c[i]);
        }
        assert IsCycle(edgeLeft, c);
        assert false;
      }
    }
  }

  /** Following a circulation forward never ends, so it closes a walk. */
  lemma {:induction false} CirculationCycles(left: Arcs, debtor: nat, src: nat, arcs: seq<Key>)
    requires IsFlow(left, debtor, 0) && Simple(src, arcs) && arcs != [] && Carries(left.edge, arcs, 1)
    ensures !Acyclic(left.edge)
    decreases (set k | k in left.edge :: k.1) - Nodes(src, arcs)
  {
    hide IsFlow, Acyclic, Simple, Carries, Nodes, NodeAt;
    var node := NodeAt(src, arcs, |arcs|);
    SimpleEnds(src, arcs);
    CarriedAt(left.edge, arcs, 1, |arcs| - 1);
    var b := SomethingLeaves(left, debtor, 0, node);
    if b in Nodes(src, arcs) {
      RepeatIsCycle(left.edge, src, arcs, b, 1);
    } else {
      SimpleExtends(src, arcs, b);
      CarriesOn(left.edge, arcs, (node, b));
      assert b in (set k | k in left.edge :: k.1);
      CirculationCycles(left, debtor, src, arcs + [(node, b)]);
    }
  }

  lemma CarriesOn(left: map<Key, nat>, arcs: seq<Key>, k: Key)
    requires Carries(left, arcs, 1) && Get(left, k) > 0
    ensures Carries(left, arcs + [k], 1)
  {
    assert forall x :: x in arcs + [k] <==> x in arcs || x == k;
  }

  /** Where no supply is left, an arc that still carries lies on a cycle. */
  lemma LeftoverCycles(left: Arcs, debtor: nat, k: Key)
    requires IsFlow(left, debtor, 0) && Get(left.edge, k) > 0
    ensures !Acyclic(left.edge)
  {
    if k.0 == k.1 {
      assert IsCycle(left.edge, [k]);
    } else {
      assert Simple(k.0, [k]);
      CirculationCycles(left, debtor, k.0, [k]);
    }
  }

  lemma {:induction false} PeelComplete(edgeLeft: map<Key, nat>, supplyLeft: map<nat, nat>, debtor: nat, budget: nat,
                                        out: seq<Path>, amount: nat)
    requires IsFlow(Arcs(edgeLeft, supplyLeft), debtor, amount) && Acyclic(edgeLeft)
    requires Busy(Arcs(edgeLeft, supplyLeft)) < budget
    ensures Peel(edgeLeft, supplyLeft, debtor, budget, out).Ok?
    decreases budget
  {
    hide IsFlow, Acyclic, Busy, IsSum, RouteArcs, IsRoute, Drain, WalkFrom, Carries, DeadEnd;
    var left := Arcs(edgeLeft, supplyLeft);
    if Sources(supplyLeft) == {} {
      FinishComplete(edgeLeft, supplyLeft, debtor, amount, out);
    } else {
      var src := Least(Sources(supplyLeft));
      RouteTaken(edgeLeft, supplyLeft, debtor, src);
      match WalkFrom(edgeLeft, src, debtor, src, [], supplyLeft[src], {src}) {
        case Lost(why) =>
          if why.Stranded? {
            NeverStranded(left, debtor, amount, src, why.node);
          }
        case Arrived(arcs, value) =>
          RouteWorth(Path(src, arcs, value), debtor);
          RouteEmptiesOne(edgeLeft, supplyLeft, src, arcs, value);
          var edgeLess, supplyLess := Drain(edgeLeft, arcs, value), supplyLeft[src := Minus(supplyLeft[src], value)];
          FlowLess(left, Arcs(edgeLess, supplyLess), Path(src, arcs, value), debtor, amount);
          AcyclicLess(edgeLeft, arcs, value);
          PeelComplete(edgeLess, supplyLess, debtor, budget - 1, out + [Path(src, arcs, value)], amount - value);
      }
    }
  }

  lemma RouteWorth(p: Path, debtor: nat)
    requires IsRoute(p, debtor)
    ensures p.value > 0
  {
  }

  lemma FinishComplete(edgeLeft: map<Key, nat>, supplyLeft: map<nat, nat>, debtor: nat, amount: nat, out: seq<Path>)
    requires IsFlow(Arcs(edgeLeft, supplyLeft), debtor, amount) && Acyclic(edgeLeft) && Sources(supplyLeft) == {}
    ensures Finish(edgeLeft, supplyLeft, out).Ok?
  {
    hide IsFlow, Acyclic;
    var left := Arcs(edgeLeft, supplyLeft);
    AmountIsSupply(left, debtor, amount);
    forall u | u in supplyLeft ensures Get(supplyLeft, u) == 0 {
      assert u !in Sources(supplyLeft);
    }
    SumZero(supplyLeft.Keys, (u: nat) => Get(supplyLeft, u));
    SumSame(supplyLeft.Keys, (u: nat) => Get(supplyLeft, u), (u: nat) => Get(supplyLeft, u));
    if k :| k in edgeLeft && edgeLeft[k] > 0 {
      LeftoverCycles(left, debtor, k);
    }
  }

  lemma {:induction false} MapOfSmall<K(!new)>(es: seq<(K, nat)>)
    ensures |MapOf(es)| <= |es|
    decreases |es|
  {
    if es != [] {
      var front, last := es[..|es| - 1], es[|es| - 1];
      MapOfSmall(front);
      assert MapOf(es).Keys == MapOf(front).Keys + {last.0};
      assert |MapOf(es).Keys| <= |MapOf(front).Keys| + 1;
      assert |MapOf(es)| == |MapOf(es).Keys| && |MapOf(front)| == |MapOf(front).Keys|;
    }
  }

  /** For a hold without cycles, being accepted and being conserved are the same thing: the budget is enough,
      no walk strands or repeats, and nothing is left over. */
  lemma AcyclicAcceptedExactly(held: Held, debtor: nat)
    requires Acyclic(held.Arcs().edge)
    ensures Decomposed(held, debtor).Ok? <==> IsFlow(held.Arcs(), debtor, Total(held.Arcs().supply))
  {
    hide IsFlow, Acyclic, Peel;
    if IsFlow(held.Arcs(), debtor, Total(held.Arcs().supply)) {
      var e, s := MapOf(held.edges), MapOf(held.supply);
      MapOfSmall(held.edges);
      MapOfSmall(held.supply);
      FewerOf(PositiveKeys(e), e.Keys);
      FewerOf(Sources(s), s.Keys);
      PeelComplete(e, s, debtor, |held.edges| + |held.supply| + 1, [], Total(s));
    } else {
      NotConservedRefused(held, debtor);
    }
  }

  // ------------------------------------------------------------- rebuilding --

  ghost function AddArcs(edges: map<Key, nat>, arcs: seq<Key>, value: nat): map<Key, nat> {
    if arcs == [] then edges else
      var last := arcs[|arcs| - 1];
      var m := AddArcs(edges, arcs[..|arcs| - 1], value);
      m[last := Get(m, last) + value]
  }

  /** Arc totals of the first i routes, those carrying nothing skipped. */
  ghost function EdgeTotals(paths: seq<Path>, i: nat): map<Key, nat>
    requires i <= |paths|
  {
    if i == 0 then map[]
    else if paths[i - 1].value == 0 then EdgeTotals(paths, i - 1)
    else AddArcs(EdgeTotals(paths, i - 1), paths[i - 1].arcs, paths[i - 1].value)
  }

  ghost function SupplyTotals(paths: seq<Path>, i: nat): map<nat, nat>
    requires i <= |paths|
  {
    if i == 0 then map[]
    else
      var m, p := SupplyTotals(paths, i - 1), paths[i - 1];
      if p.value == 0 then m else m[p.source := Get(m, p.source) + p.value]
  }

  /** Rebuild a hold: each arc holds the sum of what crosses it, listed in key order. */
  method FromPaths(paths: seq<Path>) returns (held: Held)
    ensures held == Rebuilt(paths)
  {
    var edges: map<Key, nat>, supply: map<nat, nat> := map[], map[];
    for i := 0 to |paths|
      invariant edges == EdgeTotals(paths, i) && supply == SupplyTotals(paths, i)
    {
      var p := paths[i];
      if p.value == 0 {
        continue;
      }
      supply := supply[p.source := Get(supply, p.source) + p.value];
      ghost var before := edges;
      for j := 0 to |p.arcs|
        invariant edges == AddArcs(before, p.arcs[..j], p.value)
      {
        assert p.arcs[..j + 1][..j] == p.arcs[..j];
        edges := edges[p.arcs[j] := Get(edges, p.arcs[j]) + p.value];
      }
      assert p.arcs[..|p.arcs|] == p.arcs;
    }
    held := Held(EdgeEntries(edges), IdEntries(supply));
  }

  ghost function Rebuilt(paths: seq<Path>): Held {
    Held(EdgeEntries(EdgeTotals(paths, |paths|)), IdEntries(SupplyTotals(paths, |paths|)))
  }

  lemma {:induction false} AddArcsSpec(edges: map<Key, nat>, arcs: seq<Key>, value: nat, k: Key)
    requires Distinct(arcs)
    ensures Get(AddArcs(edges, arcs, value), k) == Get(edges, k) + if k in arcs then value else 0
    ensures k in AddArcs(edges, arcs, value) <==> k in edges || k in arcs
    decreases |arcs|
  {
    if arcs != [] {
      var front, last := arcs[..|arcs| - 1], arcs[|arcs| - 1];
      AddArcsSpec(edges, front, value, k);
      assert arcs == front + [last];
      assert last !in front;
    }
  }

  /** The totals of routes without repeated arcs are their sum, and every entry is positive. */
  lemma {:induction false} TotalsSpec(paths: seq<Path>, i: nat)
    requires i <= |paths| && forall p :: p in paths ==> p.value > 0 && Distinct(p.arcs)
    ensures Same(Arcs(EdgeTotals(paths, i), SupplyTotals(paths, i)), AllRoutes(paths[..i]))
    ensures AllPositive(Arcs(EdgeTotals(paths, i), SupplyTotals(paths, i)))
    decreases i
  {
    hide AllRoutes, IsSum, Plus, RouteArcs, Same, AllPositive, Distinct;
    if i > 0 {
      TotalsSpec(paths, i - 1);
      var p := paths[i - 1];
      assert p in paths && paths[..i] == paths[..i - 1] + [p];
      AllRoutesMore(paths[..i - 1], p);
      TotalsStep(EdgeTotals(paths, i - 1), SupplyTotals(paths, i - 1), AllRoutes(paths[..i - 1]), AllRoutes(paths[..i]), p);
    } else {
      assert paths[..0] == [];
      SumWithNothing(NOTHING);
      NothingTotalled();
    }
  }

  lemma NothingTotalled()
    ensures Same(NOTHING, NOTHING) && AllPositive(NOTHING)
  {
  }

  lemma TotalsStep(edges: map<Key, nat>, supply: map<nat, nat>, all: Arcs, more: Arcs, p: Path)
    requires p.value > 0 && Distinct(p.arcs) && Same(Arcs(edges, supply), all) && AllPositive(Arcs(edges, supply))
    requires IsSum(more, all, RouteArcs(p))
    ensures var now := Arcs(AddArcs(edges, p.arcs, p.value), supply[p.source := Get(supply, p.source) + p.value]);
      Same(now, more) && AllPositive(now)
  {
    var e := AddArcs(edges, p.arcs, p.value);
    forall k ensures Get(e, k) == Get(more.edge, k) && (k in e ==> e[k] > 0) {
      AddArcsSpec(edges, p.arcs, p.value, k);
      assert Get(edges, k) <= Get(all.edge, k) && Get(all.edge, k) <= Get(edges, k);
      assert Get(more.edge, k) == Get(all.edge, k) + Get(RouteArcs(p).edge, k);
    }
    var s := supply[p.source := Get(supply, p.source) + p.value];
    forall u ensures Get(s, u) == Get(more.supply, u) {
      assert Get(supply, u) <= Get(all.supply, u) && Get(all.supply, u) <= Get(supply, u);
      assert Get(more.supply, u) == Get(all.supply, u) + Get(RouteArcs(p).supply, u);
    }
  }

  /** Maps without zero entries that agree at every key are one map. */
  lemma SamePositive(a: Arcs, b: Arcs)
    requires Same(a, b) && AllPositive(a) && AllPositive(b)
    ensures a == b
  {
    forall k ensures k in a.edge <==> k in b.edge
             ensures k in a.edge ==> a.edge[k] == b.edge[k] {
      assert Get(a.edge, k) <= Get(b.edge, k) && Get(b.edge, k) <= Get(a.edge, k);
    }
    forall u ensures u in a.supply <==> u in b.supply
             ensures u in a.supply ==> a.supply[u] == b.supply[u] {
      assert Get(a.supply, u) <= Get(b.supply, u) && Get(b.supply, u) <= Get(a.supply, u);
    }
    assert a.edge == b.edge && a.supply == b.supply;
  }

  lemma EntriesRebuild(held: Held)
    requires held.Tidy() && Sorted(Firsts(held.supply), IdLess)
    ensures EdgeEntries(MapOf(held.edges)) == held.edges && IdEntries(MapOf(held.supply)) == held.supply
  {
    KeyLessTotal();
    IdLessTotal();
    EntriesOfMapOf(held.edges, KeyLess);
    EntriesOfMapOf(held.supply, IdLess);
  }

  /** Splitting and rebuilding gives the hold back exactly. */
  lemma RoundTrip(held: Held, debtor: nat)
    requires held.Tidy() && Sorted(Firsts(held.supply), IdLess)
    ensures var r := Decomposed(held, debtor); r.Ok? ==> Rebuilt(r.value) == held
  {
    hide IsRoute, Same, AllPositive, Peel, EdgeEntries, IdEntries, EdgeTotals, SupplyTotals, AllRoutes, Held.Tidy;
    DecomposeSound(held, debtor);
    var r := Decomposed(held, debtor);
    if r.Ok? {
      var totals := Arcs(EdgeTotals(r.value, |r.value|), SupplyTotals(r.value, |r.value|));
      forall p | p in r.value ensures p.value > 0 && Distinct(p.arcs) {
        RouteDistinct(p, debtor);
      }
      TotalsSpec(r.value, |r.value|);
      assert r.value[..|r.value|] == r.value;
      TidyDistinct(held);
      SameTwice(totals, AllRoutes(r.value), held.Arcs());
      SamePositive(totals, held.Arcs());
      EntriesRebuild(held);
    }
  }

  lemma RouteDistinct(p: Path, debtor: nat)
    requires IsRoute(p, debtor)
    ensures p.value > 0 && Distinct(p.arcs)
  {
    SimpleArcsDistinct(p.source, p.arcs);
  }

  lemma SameTwice(a: Arcs, b: Arcs, c: Arcs)
    requires Same(a, b) && Same(c, b)
    ensures Same(a, c)
  {
    forall k ensures Get(a.edge, k) == Get(c.edge, k) {
      assert Get(a.edge, k) <= Get(b.edge, k) && Get(b.edge, k) <= Get(a.edge, k);
      assert Get(c.edge, k) <= Get(b.edge, k) && Get(b.edge, k) <= Get(c.edge, k);
    }
    forall u ensures Get(a.supply, u) == Get(c.supply, u) {
      assert Get(a.supply, u) <= Get(b.supply, u) && Get(b.supply, u) <= Get(a.supply, u);
      assert Get(c.supply, u) <= Get(b.supply, u) && Get(b.supply, u) <= Get(c.supply, u);
    }
  }

  /** Any simple routes into one debtor rebuild to a conserved hold of what they carry. */
  lemma RebuiltIsFlow(paths: seq<Path>, debtor: nat)
    requires forall p :: p in paths ==> IsRoute(p, debtor)
    ensures IsFlow(Rebuilt(paths).Arcs(), debtor, Carried(paths))
  {
    hide IsRoute, Same, AllPositive, IsFlow, EdgeTotals, SupplyTotals, AllRoutes, StrictTotal;
    forall p | p in paths ensures p.value > 0 && Distinct(p.arcs) {
      RouteDistinct(p, debtor);
    }
    TotalsSpec(paths, |paths|);
    assert paths[..|paths|] == paths;
    AllRoutesFlow(paths, debtor);
    KeyLessTotal();
    IdLessTotal();
    MapOfEntries(EdgeTotals(paths, |paths|), KeyLess);
    MapOfEntries(SupplyTotals(paths, |paths|), IdLess);
    FlowOfSame(Rebuilt(paths).Arcs(), AllRoutes(paths), debtor, Carried(paths));
  }

  // --------------------------------------------------------- a hold with a cycle --

  /** Two unit routes into 9 that cross each other between 1 and 2. */
  function ShortRoute(): Path {
    Path(2, [(2, 1), (1, 9)], 1)
  }

  function LongRoute(): Path {
    Path(5, [(5, 6), (6, 1), (1, 2), (2, 3), (3, 4), (4, 9)], 1)
  }

  function ShortEdges(): map<Key, nat> {
    map[(2, 1) := 1, (1, 9) := 1]
  }

  function LongEdges(): map<Key, nat> {
    map[(5, 6) := 1, (6, 1) := 1, (1, 2) := 1, (2, 3) := 1, (3, 4) := 1, (4, 9) := 1]
  }

  function CrossingEdges(): map<Key, nat> {
    map[(1, 2) := 1, (1, 9) := 1, (2, 1) := 1, (2, 3) := 1, (3, 4) := 1, (4, 9) := 1, (5, 6) := 1, (6, 1) := 1]
  }

  function CrossingSupply(): map<nat, nat> {
    map[2 := 1, 5 := 1]
  }

  /** The hold that keeps both routes, in key order. */
  function CrossingHold(): Held {
    Held(EdgeEntries(CrossingEdges()), IdEntries(CrossingSupply()))
  }

  /** A hold listed from positive maps is tidy, and collects back to them. */
  lemma ListedHold(edges: map<Key, nat>, supply: map<nat, nat>)
    requires AllPositive(Arcs(edges, supply))
    ensures var h := Held(EdgeEntries(edges), IdEntries(supply));
      h.Arcs() == Arcs(edges, supply) && h.Tidy() && Sorted(Firsts(h.supply), IdLess)
  {
    hide MapOf;
    var h := Held(EdgeEntries(edges), IdEntries(supply));
    KeyLessTotal();
    IdLessTotal();
    MapOfEntries(edges, KeyLess);
    MapOfEntries(supply, IdLess);
    EntriesSpec(edges, KeyLess);
    EntriesSpec(supply, IdLess);
    SortedDistinct(Firsts(h.supply), IdLess);
  }

  lemma CrossingMaps()
    ensures CrossingHold().Arcs() == Arcs(CrossingEdges(), CrossingSupply())
    ensures CrossingHold().Tidy() && Sorted(Firsts(CrossingHold().supply), IdLess)
  {
    hide CrossingEdges, CrossingSupply, AllPositive, EdgeEntries, IdEntries, MapOf, Sorted, Firsts, Distinct;
    CrossingPositive();
    ListedHold(CrossingEdges(), CrossingSupply());
  }

  lemma ShortIsRoute()
    ensures IsRoute(ShortRoute(), 9)
    ensures RouteArcs(ShortRoute()) == Arcs(ShortEdges(), map[2 := 1])
  {
    var arcs := ShortRoute().arcs;
    assert Elements(arcs) == {arcs[0], arcs[1]};
    assert forall k :: k in arcs <==> k in Elements(arcs);
  }

  lemma LongIsRoute()
    ensures IsRoute(LongRoute(), 9)
    ensures RouteArcs(LongRoute()) == Arcs(LongEdges(), map[5 := 1])
  {
    hide IsRoute, RouteArcs;
    LongWalks();
    LongArcs();
  }

  lemma LongWalks()
    ensures IsRoute(LongRoute(), 9)
  {
    var arcs := LongRoute().arcs;
    assert Elements(arcs) == {arcs[0], arcs[1], arcs[2], arcs[3], arcs[4], arcs[5]};
    assert forall k :: k in arcs <==> k in Elements(arcs);
  }

  lemma LongArcs()
    ensures RouteArcs(LongRoute()) == Arcs(LongEdges(), map[5 := 1])
  {
    var arcs := LongRoute().arcs;
    assert Elements(arcs) == {arcs[0], arcs[1], arcs[2], arcs[3], arcs[4], arcs[5]};
    assert forall k :: k in arcs <==> k in Elements(arcs);
  }

  /** The routes share no arc, so together they hold each arc once. */
  lemma CrossingSum()
    ensures IsSum(Arcs(CrossingEdges(), CrossingSupply()), RouteArcs(ShortRoute()), RouteArcs(LongRoute()))
  {
    hide IsRoute, RouteArcs, ShortRoute, LongRoute, CrossingEdges;
    ShortIsRoute();
    LongIsRoute();
    CrossingEdgeSum();
  }

  lemma CrossingEdgeSum()
    ensures forall k :: Get(CrossingEdges(), k) == Get(ShortEdges(), k) + Get(LongEdges(), k)
  {
    var short, long := ShortEdges(), LongEdges();
    assert CrossingEdges() == short + long;
    assert short.Keys !! long.Keys;
    assert forall k :: k in short ==> short[k] == 1;
    assert forall k :: k in long ==> long[k] == 1;
  }

  lemma CrossingFlow()
    ensures IsFlow(CrossingHold().Arcs(), 9, 2)
  {
    hide IsFlow, IsRoute, CrossingEdges, CrossingSupply, CrossingHold, ShortRoute, LongRoute, RouteArcs, IsSum;
    ShortIsRoute();
    LongIsRoute();
    RouteIsFlow(ShortRoute(), 9);
    RouteIsFlow(LongRoute(), 9);
    UnitRoutes();
    CrossingMaps();
    CrossingSum();
    FlowsAdd(CrossingHold().Arcs(), RouteArcs(ShortRoute()), RouteArcs(LongRoute()), 9, 1, 1);
  }

  lemma UnitRoutes()
    ensures ShortRoute().value == LongRoute().value == 1
  {
  }

  lemma CrossingWalk()
    ensures WalkFrom(CrossingEdges(), 2, 9, 2, [], 1, {2}) == Lost(Cycles(2, 2))
  {
    var left := CrossingEdges();
    assert Usable(left, 2) == {1, 3} by {
      assert (2, 1) in left && (2, 3) in left;
    }
    assert Usable(left, 1) == {2, 9} by {
      assert (1, 2) in left && (1, 9) in left;
    }
    assert Least(Usable(left, 2)) == 1 && Least(Usable(left, 1)) == 2;
    assert 2 in {2} + {1};
    assert WalkFrom(left, 2, 9, 1, [] + [(2, 1)], 1, {2} + {1}) == Lost(Cycles(2, 2));
  }

  lemma CrossingRefused()
    ensures Decomposed(CrossingHold(), 9) == Err(Cycles(2, 2))
  {
    hide WalkFrom, EdgeEntries, IdEntries, MapOf, Drain, Finish, CrossingEdges;
    CrossingMaps();
    CrossingWalk();
    assert Sources(CrossingSupply()) == {2, 5};
    assert Least(Sources(CrossingSupply())) == 2;
    PeelLost(CrossingEdges(), CrossingSupply(), 9, |CrossingHold().edges| + |CrossingHold().supply| + 1, []);
  }

  /** A lost walk refuses the hold at once. */
  lemma PeelLost(edgeLeft: map<Key, nat>, supplyLeft: map<nat, nat>, debtor: nat, budget: nat, out: seq<Path>)
    requires budget > 0 && Sources(supplyLeft) != {}
    ensures var src := Least(Sources(supplyLeft));
      var walk := WalkFrom(edgeLeft, src, debtor, src, [], supplyLeft[src], {src});
      walk.Lost? ==> Peel(edgeLeft, supplyLeft, debtor, budget, out) == Err(walk.why)
  {
    hide WalkFrom, Drain, Finish;
  }

  lemma CrossingRebuilt()
    ensures IsRoute(ShortRoute(), 9) && IsRoute(LongRoute(), 9)
    ensures Rebuilt([ShortRoute(), LongRoute()]) == CrossingHold()
  {
    hide IsRoute, CrossingEdges, CrossingSupply, ShortRoute, LongRoute, RouteArcs, IsSum, AllRoutes, EdgeTotals,
         SupplyTotals, Same, AllPositive, EdgeEntries, IdEntries;
    var p, q := ShortRoute(), LongRoute();
    var ps := [p, q];
    ShortIsRoute();
    LongIsRoute();
    RouteDistinct(p, 9);
    RouteDistinct(q, 9);
    TotalsSpec(ps, |ps|);
    assert ps[..|ps|] == ps;
    CrossingSum();
    PairOfRoutes(p, q, Arcs(CrossingEdges(), CrossingSupply()));
    SameTwice(Arcs(EdgeTotals(ps, |ps|), SupplyTotals(ps, |ps|)), AllRoutes(ps), Arcs(CrossingEdges(), CrossingSupply()));
    CrossingPositive();
    SamePositive(Arcs(EdgeTotals(ps, |ps|), SupplyTotals(ps, |ps|)), Arcs(CrossingEdges(), CrossingSupply()));
  }

  lemma CrossingPositive()
    ensures AllPositive(Arcs(CrossingEdges(), CrossingSupply()))
  {
  }

  lemma PairOfRoutes(p: Path, q: Path, all: Arcs)
    requires IsSum(all, RouteArcs(p), RouteArcs(q))
    ensures Same(all, AllRoutes([p, q]))
  {
    hide RouteArcs, AllRoutes;
    SumWithNothing(NOTHING);
    AllRoutesMore([], p);
    AllRoutesMore([p], q);
    assert [] + [p] == [p] && [p] + [q] == [p, q];
    forall k ensures Get(all.edge, k) == Get(AllRoutes([p, q]).edge, k) {
      assert Get(AllRoutes([p]).edge, k) == Get(NOTHING.edge, k) + Get(RouteArcs(p).edge, k);
      assert Get(all.edge, k) == Get(RouteArcs(p).edge, k) + Get(RouteArcs(q).edge, k);
    }
    forall u ensures Get(all.supply, u) == Get(AllRoutes([p, q]).supply, u) {
      assert Get(AllRoutes([p]).supply, u) == Get(NOTHING.supply, u) + Get(RouteArcs(p).supply, u);
      assert Get(all.supply, u) == Get(RouteArcs(p).supply, u) + Get(RouteArcs(q).supply, u);
    }
  }

  /** A conserved hold whose arcs close a cycle can be refused, although routes that rebuild it exist: the walk
      takes the lowest arc, not the right one. */
  lemma ConservedButRefused()
    ensures CrossingHold().Tidy() && IsFlow(CrossingHold().Arcs(), 9, 2)
    ensures Decomposed(CrossingHold(), 9) == Err(Cycles(2, 2))
    ensures IsRoute(ShortRoute(), 9) && IsRoute(LongRoute(), 9)
    ensures Rebuilt([ShortRoute(), LongRoute()]) == CrossingHold()
  {
    hide IsFlow, Rebuilt, Held.Tidy, IsRoute, Decomposed, CrossingHold, ShortRoute, LongRoute;
    CrossingMaps();
    CrossingFlow();
    CrossingRefused();
    CrossingRebuilt();
  }

  /** And a book can hold it: on the graph of its own arcs, the hold is a reservation of its two units. */
  lemma RefusedIsReserved()
    ensures var g := Arcs(CrossingEdges(), CrossingSupply());
      Reserves(State(g, NOTHING), State(g, g), 9, 10, 2, false, CrossingHold())
  {
    hide IsFlow, CrossingHold, State.Free, CrossingEdges, CrossingSupply, Held.Tidy, Held.Arcs, Leq;
    CrossingMaps();
    CrossingFlow();
    CrossingFree();
    SameReserves();
  }

  lemma CrossingFree()
    ensures var g := Arcs(CrossingEdges(), CrossingSupply()); State(g, NOTHING).Free({9}, 10, false) == g
  {
    hide State.Free;
    PristineFree(Arcs(CrossingEdges(), CrossingSupply()), {9}, 10, false);
  }

  lemma SameReserves()
    requires CrossingHold().Tidy() && IsFlow(CrossingHold().Arcs(), 9, 2)
    requires CrossingHold().Arcs() == Arcs(CrossingEdges(), CrossingSupply())
    requires State(CrossingHold().Arcs(), NOTHING).Free({9}, 10, false) == CrossingHold().Arcs()
    ensures Reserves(State(CrossingHold().Arcs(), NOTHING), State(CrossingHold().Arcs(), CrossingHold().Arcs()), 9, 10, 2,
                     false, CrossingHold())
  {
    hide IsFlow, CrossingHold, State.Free, CrossingEdges, CrossingSupply, Held.Tidy, Held.Arcs;
    FirstReserves(CrossingHold().Arcs(), 9, 10, 2, false, CrossingHold());
  }

  // ------------------------------------------- a cycle the walk never closes --

  function WovenEdges(): map<Key, nat> {
    map[(10, 5) := 1, (5, 1) := 1, (1, 3) := 1, (11, 1) := 1, (1, 5) := 1, (5, 3) := 1]
  }

  function WovenHold(): Held {
    Held(EdgeEntries(WovenEdges()), IdEntries(map[10 := 1, 11 := 1]))
  }

  /** One unit step of a walk. */
  lemma UnitStep(left: map<Key, nat>, src: nat, debtor: nat, node: nat, arcs: seq<Key>, seen: set<nat>, b: nat)
    requires node != debtor && b in Usable(left, node) && b !in seen && left[(node, b)] == 1
    requires forall c :: c in Usable(left, node) ==> b <= c
    ensures WalkFrom(left, src, debtor, node, arcs, 1, seen)
         == WalkFrom(left, src, debtor, b, arcs + [(node, b)], 1, seen + {b})
  {
    assert Least(Usable(left, node)) == b;
  }

  lemma WovenWalk(left: map<Key, nat>, src: nat, x: nat, y: nat)
    requires src != 3 && x != 3 && y != 3 && src != x && src != y && x != y
    requires forall k :: k in left ==> left[k] <= 1
    requires x in Usable(left, src) && y in Usable(left, x) && 3 in Usable(left, y)
    requires (forall c :: c in Usable(left, src) ==> x <= c) && (forall c :: c in Usable(left, x) ==> y <= c)
    requires forall c :: c in Usable(left, y) ==> 3 <= c
    ensures WalkFrom(left, src, 3, src, [], 1, {src}) == Arrived([(src, x), (x, y), (y, 3)], 1)
  {
    hide WalkFrom;
    UnitStep(left, src, 3, src, [], {src}, x);
    assert [] + [(src, x)] == [(src, x)];
    UnitStep(left, src, 3, x, [(src, x)], {src} + {x}, y);
    assert [(src, x)] + [(x, y)] == [(src, x), (x, y)];
    UnitStep(left, src, 3, y, [(src, x), (x, y)], {src} + {x} + {y}, 3);
    assert [(src, x), (x, y)] + [(y, 3)] == [(src, x), (x, y), (y, 3)];
    WalkDone(left, src, 3, [(src, x), (x, y), (y, 3)], 1, {src} + {x} + {y} + {3});
  }

  lemma WalkDone(left: map<Key, nat>, src: nat, debtor: nat, arcs: seq<Key>, value: nat, seen: set<nat>)
    ensures WalkFrom(left, src, debtor, debtor, arcs, value, seen) == Arrived(arcs, value)
  {
  }

  /** One accepted route of a peel. */
  lemma PeelTakes(edgeLeft: map<Key, nat>, supplyLeft: map<nat, nat>, debtor: nat, budget: nat, out: seq<Path>,
                  src: nat, arcs: seq<Key>, value: nat)
    requires budget > 0 && src in Sources(supplyLeft) && forall u :: u in Sources(supplyLeft) ==> src <= u
    requires WalkFrom(edgeLeft, src, debtor, src, [], supplyLeft[src], {src}) == Arrived(arcs, value)
    ensures Peel(edgeLeft, supplyLeft, debtor, budget, out)
         == Peel(Drain(edgeLeft, arcs, value), supplyLeft[src := Minus(supplyLeft[src], value)], debtor, budget - 1,
                 out + [Path(src, arcs, value)])
  {
    hide WalkFrom, Drain, Finish;
    assert Least(Sources(supplyLeft)) == src;
  }

  lemma WovenFirst()
    ensures WalkFrom(WovenEdges(), 10, 3, 10, [], 1, {10}) == Arrived([(10, 5), (5, 1), (1, 3)], 1)
  {
    hide WalkFrom;
    var e := WovenEdges();
    assert (10, 5) in e && (5, 1) in e && (5, 3) in e && (1, 3) in e && (1, 5) in e;
    WovenWalk(e, 10, 5, 1);
  }

  lemma WovenDrained() returns (left: map<Key, nat>)
    ensures left == Drain(WovenEdges(), [(10, 5), (5, 1), (1, 3)], 1)
    ensures forall k :: Get(left, k) == if k in {(11, 1), (1, 5), (5, 3)} then 1 else 0
  {
    hide Drain;
    var arcs := [(10, 5), (5, 1), (1, 3)];
    left := Drain(WovenEdges(), arcs, 1);
    forall k ensures Get(left, k) == if k in {(11, 1), (1, 5), (5, 3)} then 1 else 0 {
      DrainSpec(WovenEdges(), arcs, 1, k);
    }
  }

  lemma WovenSecond(left: map<Key, nat>)
    requires forall k :: Get(left, k) == if k in {(11, 1), (1, 5), (5, 3)} then 1 else 0
    ensures WalkFrom(left, 11, 3, 11, [], 1, {11}) == Arrived([(11, 1), (1, 5), (5, 3)], 1)
    ensures forall k :: Get(Drain(left, [(11, 1), (1, 5), (5, 3)], 1), k) == 0
  {
    hide WalkFrom, Drain;
    assert Get(left, (11, 1)) == 1 && Get(left, (1, 5)) == 1 && Get(left, (5, 3)) == 1;
    forall k | k in left ensures left[k] <= 1 {
      assert Get(left, k) <= 1;
    }
    forall x, b | b in Usable(left, x) ensures (x, b) in {(11, 1), (1, 5), (5, 3)} {
      assert Get(left, (x, b)) > 0;
    }
    WovenWalk(left, 11, 1, 5);
    var arcs := [(11, 1), (1, 5), (5, 3)];
    forall k ensures Get(Drain(left, arcs, 1), k) == 0 {
      DrainSpec(left, arcs, 1, k);
      assert k in {(11, 1), (1, 5), (5, 3)} ==> k == arcs[0] || k == arcs[1] || k == arcs[2];
    }
  }

  /** Being free of cycles is enough to be accepted but is not needed: this hold closes one and is accepted. */
  lemma CyclicYetAccepted()
    ensures !Acyclic(WovenHold().Arcs().edge)
    ensures Decomposed(WovenHold(), 3).Ok?
  {
    hide WalkFrom, Drain, Peel, EdgeEntries, IdEntries, MapOf, WovenEdges, Acyclic;
    WovenTidy();
    WovenCycles();
    ListedSizes();
    WovenPeels(|WovenHold().edges| + |WovenHold().supply| + 1);
  }

  lemma WovenTidy()
    ensures WovenHold().Arcs() == Arcs(WovenEdges(), map[10 := 1, 11 := 1])
  {
    hide EdgeEntries, IdEntries, MapOf;
    var supply: map<nat, nat> := map[10 := 1, 11 := 1];
    ListedHold(WovenEdges(), supply);
  }

  lemma WovenCycles()
    ensures !Acyclic(WovenEdges())
  {
    assert IsCycle(WovenEdges(), [(5, 1), (1, 5)]);
  }

  lemma WovenPeels(budget: nat)
    requires budget > 2
    ensures Peel(WovenEdges(), map[10 := 1, 11 := 1], 3, budget, []).Ok?
  {
    hide WalkFrom, Drain, Peel, WovenEdges;
    var supply: map<nat, nat> := map[10 := 1, 11 := 1];
    WovenFirst();
    var left := WovenDrained();
    WovenSecond(left);
    PeelTakes(WovenEdges(), supply, 3, budget, [], 10, [(10, 5), (5, 1), (1, 3)], 1);
    var supply1 := supply[10 := Minus(1, 1)];
    var out := [] + [Path(10, [(10, 5), (5, 1), (1, 3)], 1)];
    assert Sources(supply1) == {11};
    PeelTakes(left, supply1, 3, budget - 1, out, 11, [(11, 1), (1, 5), (5, 3)], 1);
    var supply2 := supply1[11 := Minus(1, 1)];
    PeelStops(Drain(left, [(11, 1), (1, 5), (5, 3)], 1), supply2, 3, budget - 2, out + [Path(11, [(11, 1), (1, 5), (5, 3)], 1)]);
  }

  lemma ListedSizes()
    ensures |WovenHold().supply| >= 2
  {
    var m := map[10 := 1, 11 := 1];
    var i :| 0 <= i < |IdEntries(m)| && IdEntries(m)[i] == (10, m[10]);
    var j :| 0 <= j < |IdEntries(m)| && IdEntries(m)[j] == (11, m[11]);
  }

  lemma PeelStops(edgeLeft: map<Key, nat>, supplyLeft: map<nat, nat>, debtor: nat, budget: nat, out: seq<Path>)
    requires Sources(supplyLeft) == {} && forall k :: Get(edgeLeft, k) == 0
    ensures Peel(edgeLeft, supplyLeft, debtor, budget, out) == Ok(out)
  {
    forall u | u in supplyLeft ensures supplyLeft[u] == 0 {
      assert u !in Sources(supplyLeft);
    }
    forall k | k in edgeLeft ensures edgeLeft[k] == 0 {
      assert Get(edgeLeft, k) == 0;
    }
  }
}
