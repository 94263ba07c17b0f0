/** Which arcs a search draws: the debtor's own supply before anything else, and the direct stake edges before any detour. */
module Drawn {
  import opened Arithmetic
  import opened Sums
  import opened Residual
  import opened Augmenting

  // ---------------------------------------------------------- shortening a route --

  lemma RouteAt(w: Wires, cap: seq<nat>, p: seq<nat>, i: nat)
    requires Route(w, cap, p) && i < |p|
    ensures |cap| == |w.to| && OnWires(w, p) && p[i] < |cap| && cap[p[i]] > 0
    ensures Tail(w, p[i]) == Node(w, p, i) && w.to[p[i]] == Node(w, p, i + 1)
    ensures Node(w, p, 0) == w.src && Node(w, p, |p|) == w.snk
  {
    hide Wired, Tail;
  }

  lemma NodeFrom(w: Wires, p: seq<nat>, i: nat, j: nat)
    requires OnWires(w, p) && i <= |p| && j <= |p| - i && Node(w, p, i) == w.src
    ensures OnWires(w, p[i..]) && Node(w, p[i..], j) == Node(w, p, i + j)
  {
    hide Wired;
  }

  lemma Joins(w: Wires, cap: seq<nat>, q: seq<nat>)
    requires |cap| == |w.to| && OnWires(w, q) && Node(w, q, |q|) == w.snk
    requires forall j :: 0 <= j < |q| ==> q[j] < |cap| && cap[q[j]] > 0 && Tail(w, q[j]) == Node(w, q, j)
    ensures Route(w, cap, q)
  {
    hide Wired, Node, Tail, OnWires;
  }

  /** Back at the source, the arcs before may be left out. */
  lemma RouteFrom(w: Wires, cap: seq<nat>, p: seq<nat>, i: nat)
    requires Route(w, cap, p) && i <= |p| && OnWires(w, p) && Node(w, p, i) == w.src
    ensures Route(w, cap, p[i..])
  {
    hide Wired, Tail, Route, Node, OnWires;
    RouteSizes(w, cap, p);
    NodeFrom(w, p, i, |p| - i);
    forall j | 0 <= j < |p[i..]|
      ensures p[i..][j] < |cap| && cap[p[i..][j]] > 0 && Tail(w, p[i..][j]) == Node(w, p[i..], j)
    {
      RouteAt(w, cap, p, i + j);
      NodeFrom(w, p, i, j);
    }
    Joins(w, cap, p[i..]);
  }

  lemma RouteSizes(w: Wires, cap: seq<nat>, p: seq<nat>)
    requires Route(w, cap, p)
    ensures |cap| == |w.to| && OnWires(w, p) && Node(w, p, |p|) == w.snk
  {
    hide Wired, Tail;
  }

  lemma NodeVia(w: Wires, p: seq<nat>, i: nat, b: nat, j: nat)
    requires OnWires(w, p) && i <= |p| && b < |w.to| && j <= i
    ensures OnWires(w, p[..i] + [b]) && Node(w, p[..i] + [b], j) == Node(w, p, j)
    ensures Node(w, p[..i] + [b], i + 1) == w.to[b]
  {
    hide Wired;
  }

  /** From a node with an arc to the sink, the other arcs may be left out. */
  lemma RouteVia(w: Wires, cap: seq<nat>, p: seq<nat>, i: nat, b: nat)
    requires Route(w, cap, p) && i <= |p| && OnWires(w, p)
    requires b < |w.to| == |cap| && Tail(w, b) == Node(w, p, i) && w.to[b] == w.snk && cap[b] > 0
    ensures Route(w, cap, p[..i] + [b])
  {
    hide Wired, Tail, Route, Node, OnWires;
    var q := p[..i] + [b];
    NodeVia(w, p, i, b, i);
    forall j | 0 <= j < |q| ensures q[j] < |cap| && cap[q[j]] > 0 && Tail(w, q[j]) == Node(w, q, j) {
      NodeVia(w, p, i, b, j);
      if j < i {
        RouteAt(w, cap, p, j);
      }
    }
    Joins(w, cap, q);
  }

  lemma RouteUntil(w: Wires, cap: seq<nat>, p: seq<nat>, i: nat)
    requires Route(w, cap, p) && i <= |p| && OnWires(w, p) && Node(w, p, i) == w.snk
    ensures Route(w, cap, p[..i])
  {
    hide Wired, Tail;
    var q := p[..i];
    assert OnWires(w, q);
    assert forall j :: 0 <= j <= |q| ==> Node(w, q, j) == Node(w, p, j);
  }

  /** The first route leaves the source once and enters the sink once. */
  lemma FirstOnce(w: Wires, cap: seq<nat>, p: seq<nat>, i: nat)
    requires First(w, cap, p) && i < |p|
    ensures |cap| == |w.to| && OnWires(w, p) && Route(w, cap, p)
    ensures Tail(w, p[i]) == w.src <==> i == 0
    ensures w.to[p[i]] == w.snk <==> i == |p| - 1
    ensures w.to[p[i]] != w.src && Tail(w, p[i]) != w.snk
  {
    hide Wired, Route, Tail, Sooner;
    RouteAt(w, cap, p, i);
    SourceInside(w);
    if Node(w, p, i) == w.src {
      RouteFrom(w, cap, p, i);
    }
    if Node(w, p, i + 1) == w.src {
      RouteFrom(w, cap, p, i + 1);
    }
    if Node(w, p, i + 1) == w.snk {
      RouteUntil(w, cap, p, i + 1);
    }
    if Node(w, p, i) == w.snk {
      RouteUntil(w, cap, p, i);
    }
  }

  /** The one arc into the sink, from t. */
  ghost predicate Drain(w: Wires, t: nat, b: nat) {
    && b < |w.to| && Tail(w, b) == t && w.to[b] == w.snk && t != w.src
    && forall x :: 0 <= x < |w.to| && w.to[x] == w.snk ==> x == b
  }

  /** Every first route ends over it, and having reached t takes it. */
  lemma EndsAtDrain(w: Wires, cap: seq<nat>, p: seq<nat>, t: nat, b: nat)
    requires First(w, cap, p) && Drain(w, t, b)
    ensures |cap| == |w.to| && OnWires(w, p) && Route(w, cap, p)
    ensures |p| >= 2 && p[|p| - 1] == b && cap[b] > 0 && Node(w, p, |p| - 1) == t
    ensures forall i :: 0 <= i < |p| - 1 ==> p[i] != b && Tail(w, p[i]) != t
    ensures Mate(b) !in p
  {
    hide Wired, Route, Tail, Sooner, First;
    RouteInside(w, cap, p);
    SourceInside(w);
    RouteNotEmpty(w, cap, p);
    FirstOnce(w, cap, p, |p| - 1);
    RouteAt(w, cap, p, |p| - 1);
    MateTurns(w, b);
    FirstOnce(w, cap, p, 0);
    forall i | 0 <= i < |p| ensures i < |p| - 1 ==> p[i] != b && Tail(w, p[i]) != t
                            ensures p[i] != Mate(b)
    {
      FirstOnce(w, cap, p, i);
      RouteAt(w, cap, p, i);
      if Tail(w, p[i]) == t {
        RouteVia(w, cap, p, i, b);
        FirstShortest(w, cap, p, p[..i] + [b]);
      }
    }
  }

  lemma RouteNotEmpty(w: Wires, cap: seq<nat>, p: seq<nat>)
    requires Route(w, cap, p)
    ensures p != []
  {
  }

  lemma FirstShortest(w: Wires, cap: seq<nat>, p: seq<nat>, q: seq<nat>)
    requires First(w, cap, p) && Route(w, cap, q)
    ensures |p| <= |q|
  {
  }

  // ------------------------------------------------------------- own supply first --

  /** The one arc from the source to t. */
  ghost predicate Tap(w: Wires, t: nat, a: nat) {
    && a < |w.to| && Tail(w, a) == w.src && w.to[a] == t
    && forall x :: 0 <= x < |w.to| && Tail(w, x) == w.src && w.to[x] == t ==> x == a
  }

  /** While the tap has room the first route is the tap and the drain; after that nothing runs through the tap. */
  lemma FirstAtTap(w: Wires, cap: seq<nat>, p: seq<nat>, t: nat, a: nat, b: nat)
    requires First(w, cap, p) && Drain(w, t, b) && Tap(w, t, a)
    ensures |cap| == |w.to| && Mate(a) !in p && (cap[a] > 0 ==> p == [a, b]) && (cap[a] == 0 ==> a !in p)
  {
    hide Wired, Route, Tail, Sooner, First;
    EndsAtDrain(w, cap, p, t, b);
    MateTurns(w, a);
    MateTurns(w, Mate(a));
    forall i | 0 <= i < |p| ensures p[i] != Mate(a) && cap[p[i]] > 0 {
      FirstOnce(w, cap, p, i);
      RouteAt(w, cap, p, i);
    }
    if cap[a] > 0 {
      ShortRoute(w, cap, a, b);
      FirstShortest(w, cap, p, [a, b]);
      FirstOnce(w, cap, p, 0);
      RouteAt(w, cap, p, 0);
      assert p == [p[0], b];
    }
  }

  lemma ShortRoute(w: Wires, cap: seq<nat>, a: nat, b: nat)
    requires |cap| == |w.to| && a < |cap| && b < |cap| && cap[a] > 0 && cap[b] > 0
    requires Tail(w, a) == w.src && w.to[a] == Tail(w, b) && w.to[b] == w.snk
    ensures Route(w, cap, [a, b])
  {
    hide Wired, Tail;
    assert OnWires(w, [a, b]);
  }

  /** What a search that started from `was` has left of tap and drain. */
  ghost predicate Tapped(w: Wires, was: seq<nat>, limit: nat, a: nat, b: nat, s: Search) {
    && |was| == |w.to| == |s.cap| && a < |was| && b < |was| && s.want <= limit
    && s.cap[a] == Minus(was[a], limit - s.want)
    && s.cap[b] == was[b] - (limit - s.want)
  }

  lemma {:induction false} TapSteps(w: Wires, was: seq<nat>, limit: nat, t: nat, a: nat, b: nat, k: nat)
    requires |was| == |w.to| && Drain(w, t, b) && Tap(w, t, a) && was[a] <= was[b]
    ensures Tapped(w, was, limit, a, b, Steps(w, Search(was, limit), k))
    decreases k
  {
    hide Wired, Step, Tapped, Drain, Tap;
    if k == 0 {
      TapStarts(w, was, limit, t, a, b);
    } else {
      TapSteps(w, was, limit, t, a, b, k - 1);
      TapStep(w, was, limit, t, a, b, Steps(w, Search(was, limit), k - 1));
    }
  }

  lemma TapStarts(w: Wires, was: seq<nat>, limit: nat, t: nat, a: nat, b: nat)
    requires |was| == |w.to| && Drain(w, t, b) && Tap(w, t, a)
    ensures Tapped(w, was, limit, a, b, Search(was, limit))
  {
  }

  lemma TapStep(w: Wires, was: seq<nat>, limit: nat, t: nat, a: nat, b: nat, s: Search)
    requires Tapped(w, was, limit, a, b, s) && Drain(w, t, b) && Tap(w, t, a) && was[a] <= was[b]
    ensures Tapped(w, was, limit, a, b, Step(w, s))
  {
    hide Wired, Drain, Tap, Route, First;
    if !Over(w, s) {
      var p := Next(w, s.cap);
      EndsAtDrain(w, s.cap, p, t, b);
      FirstAtTap(w, s.cap, p, t, a, b);
      assert p[|p| - 1] == b;
    }
  }

  // ------------------------------------------------------- direct edges before detours --

  /** One direct way from the source to t: an arc, or two over a node between; or none. */
  ghost predicate Arm(w: Wires, t: nat, arm: seq<nat>) {
    && |arm| <= 2 && OnWires(w, arm)
    && (arm != [] ==> Tail(w, arm[0]) == w.src && w.to[arm[|arm| - 1]] == t)
    && (|arm| == 2 ==> w.to[arm[0]] == Tail(w, arm[1]) && Tail(w, arm[1]) != t && Tail(w, arm[1]) != w.src)
  }

  /** Direct ways, no arc on two of them, and every direct way with room among them. */
  ghost predicate Arms(w: Wires, was: seq<nat>, t: nat, arms: seq<seq<nat>>) {
    && |was| == |w.to|
    && (forall i :: 0 <= i < |arms| ==> Arm(w, t, arms[i]))
    && (forall i, j, x {:trigger x in arms[i], x in arms[j]} ::
          0 <= i < |arms| && 0 <= j < |arms| && x in arms[i] && x in arms[j] ==> i == j)
    && (forall arm: seq<nat> :: arm != [] && Arm(w, t, arm) && (forall x :: x in arm ==> x < |was| && was[x] > 0) ==> arm in arms)
  }

  ghost function ArmTerm(cap: seq<nat>, arms: seq<seq<nat>>): int -> int {
    (i: int) =>
      if 0 <= i < |arms| && (forall j :: 0 <= j < |arms[i]| ==> arms[i][j] < |cap|) then Bottleneck(cap, arms[i]) else 0
  }

  /** What the direct ways together still carry. */
  ghost function Spare(cap: seq<nat>, arms: seq<seq<nat>>): int {
    RangeSum(ArmTerm(cap, arms), 0, |arms|)
  }

  /** Only arcs out of the source, into t and the drain have lost room, and only their reverses have gained any. */
  ghost predicate OnlyDirect(w: Wires, was: seq<nat>, now: seq<nat>, t: nat, b: nat) {
    && |was| == |w.to| == |now|
    && (forall x :: 0 <= x < |w.to| && now[x] < was[x] ==> Tail(w, x) == w.src || (w.to[x] == t && Tail(w, x) != t) || x == b)
    && (forall x :: 0 <= x < |w.to| && now[x] > was[x] ==> w.to[x] == w.src || Tail(w, x) == t || Tail(w, x) == w.snk)
  }

  /** So far only direct ways have lost room, and between them what was found. */
  ghost predicate Direct(w: Wires, was: seq<nat>, limit: nat, t: nat, b: nat, arms: seq<seq<nat>>, s: Search) {
    && s.want <= limit && OnlyDirect(w, was, s.cap, t, b)
    && Spare(s.cap, arms) == Spare(was, arms) - (limit - s.want)
  }

  lemma SomeArm(w: Wires, cap: seq<nat>, t: nat, arms: seq<seq<nat>>) returns (i: nat)
    requires |cap| == |w.to| && (forall i :: 0 <= i < |arms| ==> Arm(w, t, arms[i])) && Spare(cap, arms) > 0
    ensures i < |arms| && OnWires(w, arms[i]) && Bottleneck(cap, arms[i]) > 0
  {
    hide Wired, Tail, Bottleneck;
    if k :| 0 <= k < |arms| && ArmTerm(cap, arms)(k) > 0 {
      i := k;
    } else {
      RangeLeq(ArmTerm(cap, arms), _ => 0, 0, |arms|);
      RangeZero(_ => 0, 0, |arms|);
      assert false;
    }
  }

  lemma ArmRoute(w: Wires, cap: seq<nat>, t: nat, b: nat, arm: seq<nat>)
    requires |cap| == |w.to| && Arm(w, t, arm) && Drain(w, t, b) && cap[b] > 0
    requires OnWires(w, arm) && Bottleneck(cap, arm) > 0
    ensures Route(w, cap, arm + [b])
  {
    hide Wired, Tail;
    var q := arm + [b];
    assert OnWires(w, q);
    assert forall j :: 0 <= j < |arm| ==> q[j] == arm[j] && cap[arm[j]] >= Bottleneck(cap, arm);
  }

  /** While the direct ways carry anything, the first route is one of them. */
  lemma FirstIsArm(w: Wires, was: seq<nat>, limit: nat, t: nat, b: nat, arms: seq<seq<nat>>, s: Search, p: seq<nat>) returns (i: nat)
    requires Direct(w, was, limit, t, b, arms, s) && Arms(w, was, t, arms) && Drain(w, t, b)
    requires First(w, s.cap, p) && Spare(s.cap, arms) > 0
    ensures i < |arms| && p == arms[i] + [b]
  {
    hide Wired, Route, First, Tail, Spare, Sooner;
    EndsAtDrain(w, s.cap, p, t, b);
    var k := SomeArm(w, s.cap, t, arms);
    ArmRoute(w, s.cap, t, b, arms[k]);
    FirstShortest(w, s.cap, p, arms[k] + [b]);
    var arm := p[..|p| - 1];
    assert p == arm + [b];
    forall j | 0 <= j < |arm| ensures was[arm[j]] > 0 {
      FirstOnce(w, s.cap, p, j);
      RouteAt(w, s.cap, p, j);
    }
    FirstArm(w, s.cap, p, t, b);
    assert arm in arms;
    i :| 0 <= i < |arms| && arms[i] == arm;
  }

  lemma FirstArm(w: Wires, cap: seq<nat>, p: seq<nat>, t: nat, b: nat)
    requires First(w, cap, p) && Drain(w, t, b) && |p| <= 3
    ensures p != [] && Arm(w, t, p[..|p| - 1])
  {
    hide Wired, Route, First, Tail, Sooner;
    EndsAtDrain(w, cap, p, t, b);
    var arm := p[..|p| - 1];
    assert OnWires(w, arm);
    FirstOnce(w, cap, p, 0);
    RouteAt(w, cap, p, 0);
    FirstOnce(w, cap, p, 1);
    RouteAt(w, cap, p, 1);
    RouteAt(w, cap, p, |p| - 1);
  }

  lemma LeastIs(cap: seq<nat>, path: seq<nat>, v: nat)
    requires path != [] && forall i :: 0 <= i < |path| ==> path[i] < |cap|
    requires (forall i :: 0 <= i < |path| ==> v <= cap[path[i]]) && (exists i :: 0 <= i < |path| && cap[path[i]] == v)
    ensures Bottleneck(cap, path) == v
  {
    hide Bottleneck;
  }

  /** Carrying p along a way and the drain leaves it p less. */
  lemma ArmLoses(cap: seq<nat>, arm: seq<nat>, b: nat, p: nat)
    requires arm != [] && (forall i :: 0 <= i < |arm| ==> arm[i] < |cap|) && p <= Bottleneck(cap, arm)
    ensures |Along(cap, arm + [b], p)| == |cap|
    ensures Bottleneck(Along(cap, arm + [b], p), arm) == Bottleneck(cap, arm) - p
  {
    hide Bottleneck;
    var now := Along(cap, arm + [b], p);
    forall i | 0 <= i < |arm| ensures now[arm[i]] == cap[arm[i]] - p {
      assert arm[i] == (arm + [b])[i];
    }
    LeastIs(now, arm, Bottleneck(cap, arm) - p);
  }

  lemma {:induction false} SameLeast(cap: seq<nat>, now: seq<nat>, path: seq<nat>)
    requires |now| == |cap| && (forall i :: 0 <= i < |path| ==> path[i] < |cap|)
    requires forall i :: 0 <= i < |path| ==> now[path[i]] == cap[path[i]]
    ensures Bottleneck(now, path) == Bottleneck(cap, path)
  {
    hide Bottleneck;
    if path == [] {
      NoLeast(cap, path);
      NoLeast(now, path);
    } else {
      LeastIs(now, path, Bottleneck(cap, path));
    }
  }

  lemma NoLeast(cap: seq<nat>, path: seq<nat>)
    requires path == []
    ensures Bottleneck(cap, path) == 0
  {
  }

  /** No way runs over an arc of another, or back over any. */
  lemma ArmsApart(w: Wires, was: seq<nat>, t: nat, b: nat, arms: seq<seq<nat>>, i: nat, j: nat, x: nat)
    requires Arms(w, was, t, arms) && Drain(w, t, b) && i < |arms| && j < |arms| && i != j && x in arms[j]
    ensures x < |w.to| && x !in arms[i] && Mate(x) !in arms[i] && x != b && Mate(x) != b
  {
    hide Wired, Arm, Tail, Drain, Mate;
    assert Arm(w, t, arms[i]) && Arm(w, t, arms[j]);
    ArmEnds(w, t, b, arms[j], x);
    MateTurns(w, x);
    MateBack(x);
    MateTurns(w, Mate(x));
    if Mate(x) in arms[i] {
      ArmEnds(w, t, b, arms[i], Mate(x));
    }
    DrainEnds(w, t, b);
  }

  lemma MateBack(x: nat)
    ensures Mate(Mate(x)) == x
  {
  }

  lemma DrainEnds(w: Wires, t: nat, b: nat)
    requires Drain(w, t, b)
    ensures b < |w.to| && Tail(w, b) == t && w.to[b] == w.snk && t != w.src
  {
  }

  lemma ArmEnds(w: Wires, t: nat, b: nat, arm: seq<nat>, x: nat)
    requires Arm(w, t, arm) && Drain(w, t, b) && x in arm
    ensures x < |w.to| && Tail(w, x) != t && w.to[x] != w.src && Tail(w, x) != w.snk
    ensures Tail(w, x) == w.src || w.to[x] == t
  {
    hide Adjacent, Tail;
  }

  /** One step along a direct way. */
  lemma DirectStep(w: Wires, was: seq<nat>, limit: nat, t: nat, b: nat, arms: seq<seq<nat>>, s: Search)
    requires Direct(w, was, limit, t, b, arms, s) && Arms(w, was, t, arms) && Drain(w, t, b)
    requires limit <= Spare(was, arms)
    ensures Direct(w, was, limit, t, b, arms, Step(w, s))
  {
    hide Wired, Route, First, Tail, Drain, Arms, Spare, Direct, Over, Along, Bottleneck;
    if !Over(w, s) {
      WantStands(w, was, limit, t, b, arms, s);
      var p := Next(w, s.cap);
      var i := FirstIsArm(w, was, limit, t, b, arms, s, p);
      ArmTaken(w, was, limit, t, b, arms, s, i);
    }
  }

  lemma WantStands(w: Wires, was: seq<nat>, limit: nat, t: nat, b: nat, arms: seq<seq<nat>>, s: Search)
    requires Direct(w, was, limit, t, b, arms, s) && limit <= Spare(was, arms) && !Over(w, s)
    ensures s.want > 0 && Spare(s.cap, arms) > 0 && exists p :: First(w, s.cap, p)
  {
    hide First;
  }

  lemma WholeIsLess(cap: seq<nat>, arm: seq<nat>, b: nat)
    requires arm != [] && b < |cap| && forall i :: 0 <= i < |arm| ==> arm[i] < |cap|
    ensures Bottleneck(cap, arm + [b]) <= Bottleneck(cap, arm)
  {
    hide Bottleneck;
    var i :| 0 <= i < |arm| && Bottleneck(cap, arm) == cap[arm[i]];
    assert (arm + [b])[i] == arm[i];
  }

  lemma ArmAlone(w: Wires, cap: seq<nat>, was: seq<nat>, t: nat, b: nat, arms: seq<seq<nat>>, i: nat, j: nat, p: nat)
    requires Arms(w, was, t, arms) && Drain(w, t, b) && i < |arms| && j < |arms| && i != j && |cap| == |w.to|
    ensures OnWires(w, arms[j]) && Bottleneck(Along(cap, arms[i] + [b], p), arms[j]) == Bottleneck(cap, arms[j])
  {
    hide Wired, Bottleneck, Arm, Drain, Mate;
    assert Arm(w, t, arms[j]);
    ArmOnWires(w, t, arms[j]);
    var now := Along(cap, arms[i] + [b], p);
    forall k | 0 <= k < |arms[j]| ensures now[arms[j][k]] == cap[arms[j][k]] {
      ArmsApart(w, was, t, b, arms, i, j, arms[j][k]);
    }
    SameLeast(cap, now, arms[j]);
  }

  lemma ArmOnWires(w: Wires, t: nat, arm: seq<nat>)
    requires Arm(w, t, arm)
    ensures OnWires(w, arm)
  {
  }

  lemma SpareFalls(w: Wires, cap: seq<nat>, was: seq<nat>, t: nat, b: nat, arms: seq<seq<nat>>, i: nat, p: nat)
    requires Arms(w, was, t, arms) && Drain(w, t, b) && i < |arms| && arms[i] != [] && |cap| == |w.to|
    requires OnWires(w, arms[i]) && p <= Bottleneck(cap, arms[i])
    ensures Spare(Along(cap, arms[i] + [b], p), arms) == Spare(cap, arms) - p
  {
    hide Wired, Bottleneck, Arm, Arms, Drain, RangeSum, Along;
    var now := Along(cap, arms[i] + [b], p);
    var f, g := ArmTerm(cap, arms), ArmTerm(now, arms);
    ArmLoses(cap, arms[i], b, p);
    forall j | 0 <= j < |arms| && j != i ensures f(j) == g(j) {
      ArmAlone(w, cap, was, t, b, arms, i, j, p);
    }
    RangeUpdate(f, g, 0, |arms|, i);
  }

  lemma DirectArcs(w: Wires, was: seq<nat>, cap: seq<nat>, t: nat, b: nat, arm: seq<nat>, p: nat)
    requires OnlyDirect(w, was, cap, t, b) && Arm(w, t, arm) && Drain(w, t, b)
    ensures OnlyDirect(w, was, Along(cap, arm + [b], p), t, b)
  {
    hide Wired, Arm, Drain, Tail, Mate;
    var path, now := arm + [b], Along(cap, arm + [b], p);
    DrainEnds(w, t, b);
    forall x | 0 <= x < |w.to|
      ensures now[x] < was[x] ==> Tail(w, x) == w.src || (w.to[x] == t && Tail(w, x) != t) || x == b
      ensures now[x] > was[x] ==> w.to[x] == w.src || Tail(w, x) == t || Tail(w, x) == w.snk
    {
      MateTurns(w, x);
      MateBack(x);
      MateTurns(w, Mate(x));
      if x in arm {
        ArmEnds(w, t, b, arm, x);
      }
      if Mate(x) in arm {
        ArmEnds(w, t, b, arm, Mate(x));
      }
    }
  }

  lemma ArmTaken(w: Wires, was: seq<nat>, limit: nat, t: nat, b: nat, arms: seq<seq<nat>>, s: Search, i: nat)
    requires Direct(w, was, limit, t, b, arms, s) && Arms(w, was, t, arms) && Drain(w, t, b) && i < |arms|
    requires First(w, s.cap, arms[i] + [b])
    ensures OnWires(w, arms[i] + [b]) && |s.cap| == |w.to|
    ensures var p := Carries(s.cap, arms[i] + [b], s.want);
      Direct(w, was, limit, t, b, arms, Search(Along(s.cap, arms[i] + [b], p), s.want - p))
  {
    hide Wired, Route, First, Tail, Spare, Along, Bottleneck, Drain, OnlyDirect, Arm, Sooner;
    var path := arms[i] + [b];
    RouteInside(w, s.cap, path);
    EndsAtDrain(w, s.cap, path, t, b);
    var p := Carries(s.cap, path, s.want);
    assert Arm(w, t, arms[i]);
    ArmOnWires(w, t, arms[i]);
    WholeIsLess(s.cap, arms[i], b);
    SpareFalls(w, s.cap, was, t, b, arms, i, p);
    DirectArcs(w, was, s.cap, t, b, arms[i], p);
  }

  /** A search for no more than the direct ways carry takes direct ways alone. */
  lemma {:induction false} DirectSteps(w: Wires, was: seq<nat>, limit: nat, t: nat, b: nat, arms: seq<seq<nat>>, k: nat)
    requires Arms(w, was, t, arms) && Drain(w, t, b) && limit <= Spare(was, arms)
    ensures Direct(w, was, limit, t, b, arms, Steps(w, Search(was, limit), k))
    decreases k
  {
    hide Wired, Step, Arms, Drain, Spare;
    if k == 0 {
      assert |was| == |w.to| by { ArmsSized(w, was, t, arms); }
    } else {
      DirectSteps(w, was, limit, t, b, arms, k - 1);
      DirectStep(w, was, limit, t, b, arms, Steps(w, Search(was, limit), k - 1));
    }
  }

  lemma ArmsSized(w: Wires, was: seq<nat>, t: nat, arms: seq<seq<nat>>)
    requires Arms(w, was, t, arms)
    ensures |was| == |w.to|
  {
  }
}
