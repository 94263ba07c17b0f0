/** What a search amounts to, with no levels and no phases: while more is wanted, the shortest route with room, of those the
    one whose arcs were laid first, carries what it can. */
module Augmenting {
  import opened Arithmetic
  import opened Sums
  import opened Residual

  ghost predicate OnWires(w: Wires, path: seq<nat>) {
    forall i :: 0 <= i < |path| ==> path[i] < |w.to|
  }

  /** The node a path has reached after i arcs. */
  ghost function Node(w: Wires, path: seq<nat>, i: nat): nat
    requires OnWires(w, path) && i <= |path|
  {
    if i == 0 then w.src else w.to[path[i - 1]]
  }

  /** From the source, head to tail, over arcs with room, to the sink. */
  ghost predicate Route(w: Wires, cap: seq<nat>, path: seq<nat>) {
    && |cap| == |w.to| && OnWires(w, path)
    && (forall i :: 0 <= i < |path| ==> cap[path[i]] > 0 && Tail(w, path[i]) == Node(w, path, i))
    && Node(w, path, |path|) == w.snk
  }

  /** Where the two part, p takes the arc laid first. */
  ghost predicate Sooner(p: seq<nat>, q: seq<nat>) {
    exists i :: 0 <= i < |p| && i < |q| && p[..i] == q[..i] && p[i] < q[i]
  }

  /** The shortest route with room, and of those as short the one laid first. */
  ghost predicate First(w: Wires, cap: seq<nat>, p: seq<nat>) {
    && Route(w, cap, p)
    && forall q :: Route(w, cap, q) ==> |p| <= |q| && (|p| == |q| && p != q ==> Sooner(p, q))
  }

  lemma SamePrefix(p: seq<nat>, q: seq<nat>, i: nat, j: nat)
    requires i < j && j <= |p| && j <= |q| && p[..j] == q[..j]
    ensures p[i] == q[i]
  {
    assert p[..j][i] == q[..j][i];
  }

  lemma NotBothSooner(p: seq<nat>, q: seq<nat>)
    requires Sooner(p, q)
    ensures !Sooner(q, p)
  {
    var i :| 0 <= i < |p| && i < |q| && p[..i] == q[..i] && p[i] < q[i];
    forall j | 0 <= j < |q| && j < |p| && q[..j] == p[..j] ensures q[j] >= p[j] {
      if j < i {
        SamePrefix(p, q, j, i);
      } else if i < j {
        SamePrefix(p, q, i, j);
      }
    }
  }

  lemma OneFirst(w: Wires, cap: seq<nat>, p: seq<nat>, q: seq<nat>)
    requires First(w, cap, p) && First(w, cap, q)
    ensures p == q
  {
    hide Route, Sooner;
    if p != q {
      NotBothSooner(p, q);
    }
  }

  /** Every arc of the path has p less, and its reverse p more. */
  ghost function Along(cap: seq<nat>, path: seq<nat>, p: nat): seq<nat> {
    seq(|cap|, a requires 0 <= a < |cap| =>
      if a in path then Minus(cap[a], p) else if Mate(a) in path then cap[a] + p else cap[a])
  }

  /** The room left on every arc, and how much is still wanted. */
  datatype Search = Search(cap: seq<nat>, want: nat)

  ghost predicate Over(w: Wires, s: Search) {
    s.want == 0 || forall p :: !First(w, s.cap, p)
  }

  function Carries(cap: seq<nat>, path: seq<nat>, want: nat): (p: nat)
    requires forall i :: 0 <= i < |path| ==> path[i] < |cap|
  {
    Lesser(Bottleneck(cap, path), want)
  }

  /** The first route, where there is one. */
  ghost function Next(w: Wires, cap: seq<nat>): (path: seq<nat>)
    requires exists p :: First(w, cap, p)
    ensures First(w, cap, path) && |cap| == |w.to| && OnWires(w, path)
  {
    var path :| First(w, cap, path);
    RouteInside(w, cap, path);
    path
  }

  ghost function Step(w: Wires, s: Search): Search {
    if Over(w, s) then s else
      var path := Next(w, s.cap);
      var p := Carries(s.cap, path, s.want);
      Search(Along(s.cap, path, p), s.want - p)
  }

  lemma StepTakes(w: Wires, s: Search, path: seq<nat>)
    requires First(w, s.cap, path) && s.want > 0
    ensures |s.cap| == |w.to| && OnWires(w, path)
    ensures var p := Carries(s.cap, path, s.want); Step(w, s) == Search(Along(s.cap, path, p), s.want - p)
  {
    hide First;
    RouteInside(w, s.cap, path);
    OneFirst(w, s.cap, path, Next(w, s.cap));
  }

  lemma RouteInside(w: Wires, cap: seq<nat>, path: seq<nat>)
    requires First(w, cap, path)
    ensures Route(w, cap, path) && |cap| == |w.to| && OnWires(w, path)
  {
  }

  ghost function Steps(w: Wires, s: Search, k: nat): Search {
    if k == 0 then s else Step(w, Steps(w, s, k - 1))
  }

  lemma {:induction false} StepsMore(w: Wires, s: Search, j: nat, k: nat)
    ensures Steps(w, s, j + k) == Steps(w, Steps(w, s, j), k)
    decreases k
  {
    hide Step;
    if k > 0 {
      StepsMore(w, s, j, k - 1);
    }
  }

  lemma OverStep(w: Wires, s: Search)
    requires Over(w, s)
    ensures Step(w, s) == s
  {
  }

  lemma {:induction false} OverStays(w: Wires, s: Search, k: nat)
    requires Over(w, s)
    ensures Steps(w, s, k) == s
    decreases k
  {
    hide Over;
    if k > 0 {
      OverStep(w, s);
      OverStays(w, s, k - 1);
    }
  }

  /** Some steps on from s. */
  ghost predicate Reaches(w: Wires, s: Search, t: Search) {
    exists k: nat :: t == Steps(w, s, k)
  }

  /** t is where the search ends that starts from s. */
  ghost predicate Searched(w: Wires, s: Search, t: Search) {
    Over(w, t) && Reaches(w, s, t)
  }

  /** Wherever a search ends, it ends there. */
  lemma OneEnd(w: Wires, s: Search, t: Search, u: Search)
    requires Searched(w, s, t) && Searched(w, s, u)
    ensures t == u
  {
    hide Over, Step, Steps;
    var j: nat :| t == Steps(w, s, j);
    var k: nat :| u == Steps(w, s, k);
    if j <= k {
      StepsMore(w, s, j, k - j);
      OverStays(w, t, k - j);
    } else {
      StepsMore(w, s, k, j - k);
      OverStays(w, u, j - k);
    }
  }

  lemma ReachesOn(w: Wires, s: Search, t: Search, u: Search)
    requires Reaches(w, s, t) && Reaches(w, t, u)
    ensures Reaches(w, s, u)
  {
    hide Steps;
    var j: nat :| t == Steps(w, s, j);
    var k: nat :| u == Steps(w, t, k);
    StepsMore(w, s, j, k);
    assert u == Steps(w, s, j + k);
  }

  lemma ReachesStep(w: Wires, s: Search)
    ensures Reaches(w, s, s) && Reaches(w, s, Step(w, s))
  {
    assert Steps(w, s, 0) == s;
    assert Steps(w, s, 1) == Step(w, s);
  }

  // ---------------------------------------------- the walk finds the first route --

  ghost predicate InOrder(w: Wires) {
    forall u, i, j :: 0 <= u < |w.out| && 0 <= i < j < |w.out[u]| ==> w.out[u][i] < w.out[u][j]
  }

  /** One arc of a route, over a level graph. */
  lemma RouteArc(w: Wires, cap: seq<nat>, level: seq<int>, q: seq<nat>, i: nat)
    requires Layered(w, cap, level) && Route(w, cap, q) && i < |q|
    ensures |level| == |w.out| && OnWires(w, q) && q[i] < |w.to| == |cap| && cap[q[i]] > 0
    ensures Node(w, q, i) == Tail(w, q[i]) < |level| && Node(w, q, i + 1) == w.to[q[i]] < |level|
    ensures level[Tail(w, q[i])] >= 0 ==> 0 <= level[w.to[q[i]]] <= level[Tail(w, q[i])] + 1
  {
    hide Tail, Adjacent;
  }

  lemma RouteEnds(w: Wires, cap: seq<nat>, level: seq<int>, q: seq<nat>)
    requires Layered(w, cap, level) && Route(w, cap, q)
    ensures OnWires(w, q) && Node(w, q, 0) == w.src < |level| && Node(w, q, |q|) == w.snk < |level| && level[w.src] == 0
    ensures w.src != w.snk && q != []
  {
    hide Tail, Adjacent;
  }

  /** A route climbs at most a level an arc, so it falls short of the sink by no more than the arcs it has left. */
  lemma {:induction false} RouteClimbs(w: Wires, cap: seq<nat>, level: seq<int>, q: seq<nat>, i: nat)
    requires Layered(w, cap, level) && Route(w, cap, q) && i <= |q|
    ensures OnWires(w, q) && Node(w, q, i) < |level| && 0 <= level[Node(w, q, i)] <= i
    decreases i
  {
    hide Wired, Layered, Route, OnWires, Node, Tail;
    RouteEnds(w, cap, level, q);
    if i > 0 {
      RouteClimbs(w, cap, level, q, i - 1);
      RouteArc(w, cap, level, q, i - 1);
    }
  }

  lemma {:induction false} RouteBehind(w: Wires, cap: seq<nat>, level: seq<int>, q: seq<nat>, i: nat)
    requires Layered(w, cap, level) && Route(w, cap, q) && i <= |q|
    ensures OnWires(w, q) && w.snk < |level| && Node(w, q, i) < |level|
    ensures level[Node(w, q, i)] >= level[w.snk] - (|q| - i)
    decreases |q| - i
  {
    hide Wired, Layered, Route, OnWires, Node, Tail;
    RouteEnds(w, cap, level, q);
    if i < |q| {
      RouteClimbs(w, cap, level, q, i);
      RouteArc(w, cap, level, q, i);
      RouteBehind(w, cap, level, q, i + 1);
    }
  }

  /** On a route with no arc to spare every arc climbs. */
  lemma RouteTight(w: Wires, cap: seq<nat>, level: seq<int>, q: seq<nat>, i: nat)
    requires Layered(w, cap, level) && Route(w, cap, q) && i <= |q|
    requires w.snk < |level| && |q| == level[w.snk]
    ensures OnWires(w, q) && Node(w, q, i) < |level| && level[Node(w, q, i)] == i
  {
    hide Wired, Layered, Route, OnWires, Node;
    RouteClimbs(w, cap, level, q, i);
    RouteBehind(w, cap, level, q, i);
  }

  /** Where a node's arcs stand: one before its current arc was skipped. */
  ghost predicate Past(w: Wires, next: seq<nat>, u: nat, a: nat) {
    u < |next| && u < |w.out| && exists j :: 0 <= j < |w.out[u]| && j < next[u] && w.out[u][j] == a
  }

  lemma PastIsStuck(w: Wires, cap: seq<nat>, level: seq<int>, next: seq<nat>, u: nat, a: nat)
    requires Skipped(w, cap, level, next) && Past(w, next, u, a) && a < |w.to|
    ensures Sized(w, cap, level) && |next| == |level|
    ensures Stuck(w, cap, level, next, a)
  {
    hide Wired, Tail, Stuck;
  }

  /** A skipped arc on a tight route leads to a node out of arcs. */
  lemma PastOnRoute(w: Wires, cap: seq<nat>, level: seq<int>, next: seq<nat>, q: seq<nat>, i: nat)
    requires Layered(w, cap, level) && Skipped(w, cap, level, next) && Route(w, cap, q) && i < |q|
    requires w.snk < |level| && |q| == level[w.snk]
    requires OnWires(w, q) && Past(w, next, Node(w, q, i), q[i])
    ensures var v := Node(w, q, i + 1); v < |next| && v < |w.out| && v != w.snk && next[v] == |w.out[v]|
  {
    hide Wired, Layered, Route, OnWires, Node, Tail, Skipped, Past;
    RouteArc(w, cap, level, q, i);
    PastIsStuck(w, cap, level, next, Node(w, q, i), q[i]);
    RouteTight(w, cap, level, q, i);
    RouteTight(w, cap, level, q, i + 1);
  }

  lemma SpentIsPast(w: Wires, next: seq<nat>, a: nat)
    requires a < |w.to| && Tail(w, a) < |next| && next[Tail(w, a)] == |w.out[Tail(w, a)]|
    ensures Past(w, next, Tail(w, a), a)
  {
    assert Listed(w.to, w.out, a);
  }

  /** A node out of arcs is on no tight route. */
  lemma {:induction false} SpentOffRoute(w: Wires, cap: seq<nat>, level: seq<int>, next: seq<nat>, q: seq<nat>, i: nat)
    requires Layered(w, cap, level) && Skipped(w, cap, level, next) && Route(w, cap, q) && i <= |q|
    requires w.snk < |level| && |q| == level[w.snk] && OnWires(w, q)
    requires var u := Node(w, q, i); u < |next| && u < |w.out| && u != w.snk && next[u] == |w.out[u]|
    ensures false
    decreases |q| - i
  {
    hide Wired, Layered, Route, OnWires, Node, Tail, Skipped, Past;
    RouteEnds(w, cap, level, q);
    if i < |q| {
      RouteArc(w, cap, level, q, i);
      SpentIsPast(w, next, q[i]);
      PastOnRoute(w, cap, level, next, q, i);
      SpentOffRoute(w, cap, level, next, q, i + 1);
    }
  }

  lemma {:induction false} Parting(p: seq<nat>, q: seq<nat>, k: nat) returns (i: nat)
    requires |p| == |q| && p != q && k <= |p| && p[..k] == q[..k]
    ensures i < |p| && p[..i] == q[..i] && p[i] != q[i]
    decreases |p| - k
  {
    assert p[..|p|] == p && q[..|q|] == q;
    if p[k] != q[k] {
      i := k;
    } else {
      assert p[..k + 1] == p[..k] + [p[k]] && q[..k + 1] == q[..k] + [q[k]];
      i := Parting(p, q, k + 1);
    }
  }

  lemma SameNode(w: Wires, p: seq<nat>, q: seq<nat>, i: nat)
    requires OnWires(w, p) && OnWires(w, q) && i <= |p| && i <= |q| && p[..i] == q[..i]
    ensures Node(w, p, i) == Node(w, q, i)
  {
    hide Wired;
    if i > 0 {
      SamePrefix(p, q, i - 1, i);
    }
  }

  lemma WalkIsRoute(w: Wires, cap: seq<nat>, level: seq<int>, next: seq<nat>, path: seq<nat>)
    requires Walking(w, cap, level, next, path) && OnWires(w, path) && End(w, path) == w.snk
    ensures Route(w, cap, path)
  {
    hide Wired, Tail;
    forall i | 0 <= i < |path| ensures End(w, path[..i]) == Node(w, path, i) {
    }
  }

  /** The walk stands at its nodes' current arcs. */
  lemma WalkCurrent(w: Wires, cap: seq<nat>, level: seq<int>, next: seq<nat>, path: seq<nat>, i: nat)
    requires Walking(w, cap, level, next, path) && i < |path| && OnWires(w, path) && Route(w, cap, path)
    ensures var u := Node(w, path, i);
      u < |next| == |w.out| && next[u] < |w.out[u]| && w.out[u][next[u]] == path[i]
  {
    hide Adjacent;
  }

  /** Of two arcs of one node, the current one was laid before any that is not past. */
  lemma CurrentFirst(w: Wires, next: seq<nat>, u: nat, a: nat)
    requires InOrder(w) && u < |next| == |w.out| && next[u] < |w.out[u]|
    requires a < |w.to| && Tail(w, a) == u && !Past(w, next, u, a)
    ensures w.out[u][next[u]] <= a
  {
    assert Listed(w.to, w.out, a);
    var j :| 0 <= j < |w.out[u]| && w.out[u][j] == a;
  }

  /** Of the routes as short as the walk, none was laid sooner. */
  lemma WalkIsSooner(w: Wires, cap: seq<nat>, level: seq<int>, next: seq<nat>, path: seq<nat>, q: seq<nat>)
    requires Walking(w, cap, level, next, path) && Skipped(w, cap, level, next) && Layered(w, cap, level) && InOrder(w)
    requires Route(w, cap, path) && Route(w, cap, q) && q != path
    requires w.snk < |level| && |q| == |path| == level[w.snk]
    ensures Sooner(path, q)
  {
    hide Wired, Walking, Skipped, Layered, InOrder, Route, OnWires, Past, Node, Tail;
    assert path[..0] == q[..0];
    var i := Parting(path, q, 0);
    RouteArc(w, cap, level, q, i);
    RouteArc(w, cap, level, path, i);
    WalkCurrent(w, cap, level, next, path, i);
    SameNode(w, path, q, i);
    if Past(w, next, Node(w, q, i), q[i]) {
      PastOnRoute(w, cap, level, next, q, i);
      SpentOffRoute(w, cap, level, next, q, i + 1);
    } else {
      CurrentFirst(w, next, Node(w, q, i), q[i]);
    }
  }

  /** A walk that reached the sink is the first route. */
  lemma WalkIsFirst(w: Wires, cap: seq<nat>, level: seq<int>, next: seq<nat>, path: seq<nat>)
    requires Walking(w, cap, level, next, path) && Skipped(w, cap, level, next) && Layered(w, cap, level) && InOrder(w)
    requires OnWires(w, path) && End(w, path) == w.snk
    ensures First(w, cap, path)
  {
    hide Wired, Walking, Skipped, Layered, InOrder, Route, OnWires, Node, Tail, Sooner;
    WalkIsRoute(w, cap, level, next, path);
    WalkEnds(w, cap, level, next, path);
    forall q | Route(w, cap, q) ensures |path| <= |q| && (|path| == |q| && path != q ==> Sooner(path, q)) {
      RouteEnds(w, cap, level, q);
      RouteClimbs(w, cap, level, q, |q|);
      if |path| == |q| && path != q {
        WalkIsSooner(w, cap, level, next, path, q);
      }
    }
  }

  // ---------------------------------------------------- what an augmentation does --

  /** A climbing path takes no arc both ways. */
  lemma ClimbsOneWay(w: Wires, level: seq<int>, path: seq<nat>, a: nat)
    requires Climbs(w, level, path) && a in path
    ensures Mate(a) !in path
  {
    hide Wired;
    var i :| 0 <= i < |path| && path[i] == a;
    ClimbAt(w, level, path, i);
    forall j | 0 <= j < |path| ensures path[j] != Mate(a) {
      ClimbAt(w, level, path, j);
      MateTurns(w, a);
      MateTurns(w, Mate(a));
    }
  }

  /** Off the path and its reverse nothing changes. */
  ghost predicate Untouched(was: seq<nat>, now: seq<nat>, path: seq<nat>) {
    && |was| == |now|
    && forall a :: 0 <= a < |was| && a !in path && Mate(a) !in path ==> now[a] == was[a]
  }

  lemma UntouchedStep(was: seq<nat>, now: seq<nat>, path: seq<nat>, a: nat, p: nat)
    requires Untouched(was, now, path) && a in path && |was| % 2 == 0 && a < |was| && p <= now[a]
    ensures Untouched(was, Pushed(now, a, p), path)
  {
  }

  lemma UntouchedYet(cap: seq<nat>, path: seq<nat>)
    ensures Untouched(cap, cap, path)
  {
  }

  /** What carrying p along a path leaves. */
  lemma CarriedIsAlong(w: Wires, level: seq<int>, path: seq<nat>, was: seq<nat>, now: seq<nat>, p: nat)
    requires Climbs(w, level, path) && PairsKept(was, now) && |was| == |w.to|
    requires forall j :: 0 <= j < |path| ==> path[j] < |was| && was[path[j]] >= p && now[path[j]] == was[path[j]] - p
    requires Untouched(was, now, path)
    ensures now == Along(was, path, p)
  {
    hide Wired, Climbs;
    assert |now| == |was|;
    hide PairsKept;
    forall a | 0 <= a < |was| ensures |now| == |was| && now[a] == Along(was, path, p)[a] {
      PairSum(was, now, a);
      if a in path {
        ClimbsOneWay(w, level, path, a);
      } else if Mate(a) in path {
        PairSum(was, now, Mate(a));
      }
    }
  }

  lemma PairSum(was: seq<nat>, now: seq<nat>, a: nat)
    requires PairsKept(was, now) && a < |was|
    ensures |was| == |now| && Mate(a) < |was| && now[a] + now[Mate(a)] == was[a] + was[Mate(a)] && Mate(Mate(a)) == a
  {
    assert a == 2 * (a / 2) || a == 2 * (a / 2) + 1;
  }

  /** Where a path first leaves a set. */
  lemma {:induction false} Leaves(w: Wires, path: seq<nat>, S: set<nat>, k: nat) returns (i: nat)
    requires OnWires(w, path) && k <= |path| && Node(w, path, k) in S && Node(w, path, |path|) !in S
    ensures i < |path| && Node(w, path, i) in S && Node(w, path, i + 1) !in S
    decreases |path| - k
  {
    hide Wired, OnWires, Node;
    if Node(w, path, k + 1) in S {
      i := Leaves(w, path, S, k + 1);
    } else {
      i := k;
    }
  }

  lemma CrossingHasRoom(w: Wires, cap: seq<nat>, S: set<nat>, a: nat)
    requires |cap| == |w.to| && a < |w.to| && Tail(w, a) in S && w.to[a] !in S
    ensures NetCut(w.to, cap, S) >= cap[a]
  {
    var f := PairTerm(w.to, cap, S);
    var i := a / 2;
    assert a == 2 * i || a == 2 * i + 1;
    RangeSplit(f, 0, i, |w.to| / 2);
    RangeSplit(f, i, i + 1, |w.to| / 2);
    RangeNonNegative(f, 0, i);
    RangeNonNegative(f, i + 1, |w.to| / 2);
  }

  /** No room across a cut, no route. */
  lemma ClosedNoRoute(w: Wires, cap: seq<nat>, S: set<nat>, q: seq<nat>)
    requires |cap| == |w.to| && w.src in S && w.snk !in S && NetCut(w.to, cap, S) == 0
    ensures !Route(w, cap, q)
  {
    hide Wired, NetCut;
    if Route(w, cap, q) {
      var i := Leaves(w, q, S, 0);
      CrossingHasRoom(w, cap, S, q[i]);
    }
  }

  lemma SearchedThen(w: Wires, s: Search, t: Search)
    requires Reaches(w, s, t) && Over(w, t)
    ensures Searched(w, s, t)
  {
  }

  lemma OverWhenShut(w: Wires, s: Search)
    requires |s.cap| == |w.to|
    requires s.want == 0 || exists S: set<nat> :: w.src in S && w.snk !in S && NetCut(w.to, s.cap, S) == 0
    ensures Over(w, s)
  {
    hide Wired, Route, NetCut;
    if s.want > 0 {
      var S: set<nat> :| w.src in S && w.snk !in S && NetCut(w.to, s.cap, S) == 0;
      forall q ensures !First(w, s.cap, q) {
        ClosedNoRoute(w, s.cap, S, q);
      }
    }
  }

  /** One augmentation by a walk that reached the sink is one step. */
  lemma AugmentIsStep(w: Wires, level: seq<int>, next: seq<nat>, path: seq<nat>, was: seq<nat>, now: seq<nat>, want: nat)
    requires Walking(w, was, level, next, path) && Skipped(w, was, level, next) && Layered(w, was, level) && InOrder(w)
    requires OnWires(w, path) && End(w, path) == w.snk && want > 0 && |was| == |w.to|
    requires Carrying(w, level, path, was, now, Carries(was, path, want), |path|) && Untouched(was, now, path)
    ensures Step(w, Search(was, want)) == Search(now, want - Carries(was, path, want))
  {
    hide Wired, Walking, Skipped, Layered, InOrder, First, Climbs, Step, Drained, NetCut, Untouched;
    WalkIsFirst(w, was, level, next, path);
    WalkEnds(w, was, level, next, path);
    StepTakes(w, Search(was, want), path);
    CarryRoom(w, level, path, was, now, Carries(was, path, want), |path|);
    CarriedIsAlong(w, level, path, was, now, Carries(was, path, want));
  }
}
