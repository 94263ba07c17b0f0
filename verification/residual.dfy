/** A residual network on plain values: paired arcs, cuts, levels and blocked phases. */
module Residual {
  import opened Sums

  /** Arcs come in pairs 2i, 2i+1: a direction and its reverse. */
  function Mate(a: nat): nat {
    if a % 2 == 0 then a + 1 else a - 1
  }

  /** What never changes while flow is pushed: where arcs lead, the arc list of each node, source and sink. */
  datatype Wiring = Wiring(to: seq<nat>, out: seq<seq<nat>>, src: nat, snk: nat) {
    function Nodes(): nat { |out| }
  }

  ghost predicate Paired(to: seq<nat>, nodes: nat) {
    |to| % 2 == 0 && forall a :: 0 <= a < |to| ==> to[a] < nodes
  }

  function TailOf(to: seq<nat>, a: nat): nat
    requires |to| % 2 == 0 && a < |to|
  {
    to[Mate(a)]
  }

  /** Arc a is on the list of the node it leaves. */
  ghost predicate Listed(to: seq<nat>, out: seq<seq<nat>>, a: nat)
    requires |to| % 2 == 0 && a < |to| && TailOf(to, a) < |out|
  {
    a in out[TailOf(to, a)]
  }

  /** Every node lists exactly the arcs that leave it. */
  ghost predicate Adjacent(to: seq<nat>, out: seq<seq<nat>>)
    requires Paired(to, |out|)
  {
    && (forall u, j :: 0 <= u < |out| && 0 <= j < |out[u]| ==> out[u][j] < |to| && TailOf(to, out[u][j]) == u)
    && (forall a {:trigger Listed(to, out, a)} :: 0 <= a < |to| ==> Listed(to, out, a))
  }

  ghost predicate Wired(w: Wiring) {
    Paired(w.to, |w.out|) && Adjacent(w.to, w.out) && w.src < |w.out| && w.snk < |w.out| && w.src != w.snk
  }

  type Wires = w: Wiring | Wired(w) ghost witness Wiring([], [[], []], 0, 1)

  ghost function NoWires(): Wires {
    Wiring([], [[], []], 0, 1)
  }

  function Tail(w: Wires, a: nat): (u: nat)
    requires a < |w.to|
    ensures u < |w.out|
  {
    TailOf(w.to, a)
  }

  lemma ArcInside(w: Wires, a: nat)
    requires a < |w.to|
    ensures Mate(a) < |w.to| && |w.to| % 2 == 0 && w.to[a] < |w.out|
    ensures w.to[Mate(a)] == Tail(w, a)
  {
  }

  lemma SourceInside(w: Wires)
    ensures w.src < |w.out| && w.snk < |w.out| && w.src != w.snk
  {
  }

  ghost predicate ListsLeaving(w: Wires, u: nat, arcs: seq<nat>) {
    && (forall j :: 0 <= j < |arcs| ==> arcs[j] < |w.to| && Tail(w, arcs[j]) == u && w.to[arcs[j]] < |w.out|)
    && (forall a :: 0 <= a < |w.to| && Tail(w, a) == u ==> a in arcs)
  }

  lemma ListsAll(w: Wires, u: nat)
    requires u < |w.out|
    ensures ListsLeaving(w, u, w.out[u])
    ensures forall j :: 0 <= j < |w.out[u]| ==>
      w.out[u][j] < |w.to| && Tail(w, w.out[u][j]) == u && w.to[w.out[u][j]] < |w.out|
  {
    forall a | 0 <= a < |w.to| && Tail(w, a) == u ensures a in w.out[u] {
      assert Listed(w.to, w.out, a);
    }
  }

  // --------------------------------------------------------------- cuts --

  /** What pair i lets across from S to outside S. */
  ghost function PairTerm(to: seq<nat>, cap: seq<nat>, S: set<nat>): int -> int {
    (i: int) =>
      if 0 <= i && 2 * i + 1 < |to| && |cap| == |to| then
        (if to[2 * i + 1] in S && to[2 * i] !in S then cap[2 * i] else 0) +
        (if to[2 * i] in S && to[2 * i + 1] !in S then cap[2 * i + 1] else 0)
      else 0
  }

  /** The room left on every arc from S to outside S. */
  ghost function NetCut(to: seq<nat>, cap: seq<nat>, S: set<nat>): int {
    RangeSum(PairTerm(to, cap, S), 0, |to| / 2)
  }

  /** Move p units along arc a. */
  function Pushed(cap: seq<nat>, a: nat, p: nat): seq<nat>
    requires |cap| % 2 == 0 && a < |cap| && p <= cap[a]
  {
    cap[a := cap[a] - p][Mate(a) := cap[Mate(a)] + p]
  }

  /** A push changes a cut by what it carries over the boundary, in either direction. */
  lemma PushCut(w: Wires, cap: seq<nat>, a: nat, p: nat, S: set<nat>)
    requires |cap| == |w.to| && a < |w.to| && p <= cap[a]
    ensures NetCut(w.to, Pushed(cap, a, p), S)
         == NetCut(w.to, cap, S) + (if w.to[a] in S then p else 0) - (if Tail(w, a) in S then p else 0)
  {
    RangeUpdate(PairTerm(w.to, cap, S), PairTerm(w.to, Pushed(cap, a, p), S), 0, |w.to| / 2, a / 2);
  }

  lemma NetCutNonNegative(to: seq<nat>, cap: seq<nat>, S: set<nat>)
    ensures NetCut(to, cap, S) >= 0
  {
    RangeNonNegative(PairTerm(to, cap, S), 0, |to| / 2);
  }

  lemma NetCutZero(w: Wires, cap: seq<nat>, S: set<nat>)
    requires |cap| == |w.to|
    requires forall a :: 0 <= a < |w.to| && cap[a] > 0 && Tail(w, a) in S ==> w.to[a] in S
    ensures NetCut(w.to, cap, S) == 0
  {
    forall i | 0 <= i < |w.to| / 2 ensures PairTerm(w.to, cap, S)(i) == 0 {
      assert Tail(w, 2 * i) == w.to[2 * i + 1] && Tail(w, 2 * i + 1) == w.to[2 * i];
    }
    RangeZero(PairTerm(w.to, cap, S), 0, |w.to| / 2);
  }

  /** Every source-to-sink cut lost exactly p. */
  ghost predicate CutsLose(w: Wires, was: seq<nat>, now: seq<nat>, p: int) {
    forall S: set<nat> {:trigger NetCut(w.to, now, S)} ::
      w.src in S && w.snk !in S ==> NetCut(w.to, now, S) == NetCut(w.to, was, S) - p
  }

  /** Both directions of every pair together hold what they always held. */
  ghost predicate PairsKept(was: seq<nat>, now: seq<nat>) {
    && |was| == |now| && |was| % 2 == 0
    && forall i :: 0 <= i < |was| / 2 ==> now[2 * i] + now[2 * i + 1] == was[2 * i] + was[2 * i + 1]
  }

  lemma CutsLoseNothing(w: Wires, cap: seq<nat>)
    requires |cap| == |w.to|
    ensures CutsLose(w, cap, cap, 0) && PairsKept(cap, cap)
  {
  }

  lemma CutsLoseMore(w: Wires, a: seq<nat>, b: seq<nat>, c: seq<nat>, p: int, q: int)
    requires CutsLose(w, a, b, p) && CutsLose(w, b, c, q)
    requires PairsKept(a, b) && PairsKept(b, c)
    ensures CutsLose(w, a, c, p + q) && PairsKept(a, c)
  {
    forall S: set<nat> | w.src in S && w.snk !in S ensures NetCut(w.to, c, S) == NetCut(w.to, a, S) - (p + q) {
      assert NetCut(w.to, b, S) == NetCut(w.to, a, S) - p;
    }
  }

  // ------------------------------------------------------------- levels --

  const UNREACHED := -1

  ghost predicate Sized(w: Wires, cap: seq<nat>, level: seq<int>) {
    |cap| == |w.to| && |level| == |w.out|
  }

  /** No arc with room leads more than one level up, or out of what was reached. */
  ghost predicate Layered(w: Wires, cap: seq<nat>, level: seq<int>) {
    && Sized(w, cap, level)
    && level[w.src] == 0
    && forall a :: 0 <= a < |w.to| && cap[a] > 0 && level[Tail(w, a)] >= 0
               ==> 0 <= level[w.to[a]] <= level[Tail(w, a)] + 1
  }

  /** v was reached over arc a from one level below. */
  ghost predicate Entered(w: Wires, cap: seq<nat>, level: seq<int>, v: nat, a: nat)
    requires Sized(w, cap, level) && v < |level|
  {
    a < |w.to| && cap[a] > 0 && w.to[a] == v && 0 <= level[Tail(w, a)] == level[v] - 1
  }

  ghost predicate HasEntry(w: Wires, cap: seq<nat>, level: seq<int>, v: nat)
    requires Sized(w, cap, level) && v < |level|
  {
    exists a :: Entered(w, cap, level, v, a)
  }

  /** Levels are exact distances from the source over arcs with room. */
  ghost predicate Bfs(w: Wires, cap: seq<nat>, level: seq<int>) {
    && Layered(w, cap, level)
    && (forall v :: 0 <= v < |level| ==> level[v] >= UNREACHED)
    && (forall v {:trigger HasEntry(w, cap, level, v)} ::
          0 <= v < |level| && v != w.src && level[v] >= 0 ==> HasEntry(w, cap, level, v))
  }

  lemma BfsSized(w: Wires, cap: seq<nat>, level: seq<int>)
    requires Bfs(w, cap, level)
    ensures Sized(w, cap, level)
  {
  }

  /** A shortest route to v visits one node per level. */
  lemma {:induction false} ShortestRoute(w: Wires, cap: seq<nat>, level: seq<int>, v: nat) returns (p: seq<nat>)
    requires Bfs(w, cap, level) && v < |level| && level[v] >= 0
    ensures |p| == level[v] + 1
    ensures forall i :: 0 <= i < |p| ==> p[i] < |level| && level[p[i]] == i
    decreases level[v]
  {
    if v == w.src {
      p := [v];
    } else {
      assert HasEntry(w, cap, level, v);
      var a :| Entered(w, cap, level, v, a);
      p := ShortestRoute(w, cap, level, Tail(w, a));
      p := p + [v];
    }
  }

  lemma {:induction false} DistinctBelow(p: seq<nat>, n: nat)
    requires Distinct(p) && forall i :: 0 <= i < |p| ==> p[i] < n
    ensures |p| <= n
    decreases n
  {
    assert p != [] ==> p[0] < n;
    if p == [] {
    } else if i :| 0 <= i < |p| && p[i] == n - 1 {
      DistinctBelow(p[..i] + p[i + 1..], n - 1);
    } else {
      DistinctBelow(p, n - 1);
    }
  }

  lemma LevelsBelowNodes(w: Wires, cap: seq<nat>, level: seq<int>, v: nat)
    requires Bfs(w, cap, level) && v < |level|
    ensures level[v] < |level|
  {
    if level[v] >= 0 {
      var p := ShortestRoute(w, cap, level, v);
      DistinctBelow(p, |level|);
    }
  }

  // ----------------------------------------------- breadth-first search --

  /** The queue waits in level order behind what is done, and together they are what was reached. */
  ghost predicate Queued(level: seq<int>, done: set<nat>, queue: seq<nat>) {
    && Distinct(queue)
    && (forall i :: 0 <= i < |queue| ==> queue[i] < |level| && level[queue[i]] >= 0 && queue[i] !in done)
    && (forall i, j :: 0 <= i < j < |queue| ==> level[queue[i]] <= level[queue[j]] <= level[queue[i]] + 1)
    && (forall v :: v in done ==> v < |level| && level[v] >= 0)
    && (queue != [] ==> forall v :: v in done ==> level[v] <= level[queue[0]])
    && (forall v :: 0 <= v < |level| ==> level[v] >= UNREACHED)
    && (forall v :: 0 <= v < |level| && level[v] >= 0 ==> v in done || v in queue)
  }

  /** No arc with room leads out of what is done to anything unreached, or more than one level up. */
  ghost predicate Closed(w: Wires, cap: seq<nat>, level: seq<int>, done: set<nat>)
    requires Sized(w, cap, level)
  {
    forall a :: 0 <= a < |w.to| && cap[a] > 0 && Tail(w, a) in done ==> 0 <= level[w.to[a]] <= level[Tail(w, a)] + 1
  }

  ghost predicate AllEntered(w: Wires, cap: seq<nat>, level: seq<int>)
    requires Sized(w, cap, level)
  {
    forall v {:trigger HasEntry(w, cap, level, v)} ::
      0 <= v < |level| && v != w.src && level[v] >= 0 ==> HasEntry(w, cap, level, v)
  }

  /** A search under way: `done` is closed under arcs with room, `queue` waits in level order. */
  ghost predicate Searching(w: Wires, cap: seq<nat>, level: seq<int>, done: set<nat>, queue: seq<nat>) {
    && Sized(w, cap, level)
    && level[w.src] == 0
    && Queued(level, done, queue)
    && Closed(w, cap, level, done)
    && AllEntered(w, cap, level)
  }

  ghost function Below(n: nat): (s: set<nat>)
    ensures forall v: nat :: v in s <==> v < n
  {
    if n == 0 then {} else Below(n - 1) + {n - 1}
  }

  lemma SearchStarts(w: Wires, cap: seq<nat>, level: seq<int>)
    requires Sized(w, cap, level)
    requires forall v :: 0 <= v < |level| ==> level[v] == if v == w.src then 0 else UNREACHED
    ensures Searching(w, cap, level, {}, [w.src])
  {
  }

  lemma SearchHead(w: Wires, cap: seq<nat>, level: seq<int>, done: set<nat>, queue: seq<nat>)
    requires Searching(w, cap, level, done, queue) && queue != []
    ensures Sized(w, cap, level)
    ensures queue[0] < |level| && queue[0] !in done && 0 <= level[queue[0]]
  {
  }

  /** Nothing reached so far is more than one level past the head of the queue. */
  lemma QueueDepth(level: seq<int>, done: set<nat>, queue: seq<nat>, v: nat)
    requires Queued(level, done, queue) && queue != [] && v < |level|
    ensures queue[0] < |level| && 0 <= level[queue[0]]
    ensures level[v] == UNREACHED || 0 <= level[v] <= level[queue[0]] + 1
  {
    if level[v] >= 0 && v !in done {
      var i :| 0 <= i < |queue| && queue[i] == v;
      assert i > 0 ==> level[queue[0]] <= level[queue[i]] <= level[queue[0]] + 1;
    }
  }

  /** An exhausted queue leaves exact distances, and nothing with room leaves what was reached. */
  lemma SearchEnds(w: Wires, cap: seq<nat>, level: seq<int>, done: set<nat>)
    requires Searching(w, cap, level, done, [])
    ensures Bfs(w, cap, level) && Sized(w, cap, level)
    ensures NetCut(w.to, cap, done) == 0
    ensures forall v :: 0 <= v < |level| ==> (v in done <==> level[v] != UNREACHED)
    ensures level[w.src] == 0
  {
    NetCutZero(w, cap, done);
  }

  lemma QueueGrows(level: seq<int>, done: set<nat>, queue: seq<nat>, v: nat)
    requires Queued(level, done, queue) && queue != [] && v < |level| && level[v] == UNREACHED
    ensures queue[0] < |level|
    ensures Queued(level[v := level[queue[0]] + 1], done, queue + [v])
  {
    var u := queue[0];
    var now := level[v := level[u] + 1];
    var q := queue + [v];
    forall i | 0 <= i < |queue| ensures level[u] <= level[queue[i]] <= level[u] + 1 {
      QueueDepth(level, done, queue, queue[i]);
      assert i > 0 ==> level[queue[0]] <= level[queue[i]];
    }
    forall x | 0 <= x < |level| && now[x] >= 0 ensures x in done || x in q {
      if x != v {
        assert x in done || x in queue;
      } else {
        assert q[|queue|] == v;
      }
    }
  }

  lemma StillClosed(w: Wires, cap: seq<nat>, level: seq<int>, done: set<nat>, v: nat, n: int)
    requires Sized(w, cap, level) && Closed(w, cap, level, done)
    requires v < |level| && level[v] == UNREACHED && v !in done
    ensures Closed(w, cap, level[v := n], done)
  {
  }

  lemma StillEntered(w: Wires, cap: seq<nat>, level: seq<int>, v: nat, a: nat)
    requires Sized(w, cap, level) && AllEntered(w, cap, level)
    requires a < |w.to| && cap[a] > 0 && w.to[a] == v && v < |level| && level[v] == UNREACHED
    requires level[Tail(w, a)] >= 0
    ensures AllEntered(w, cap, level[v := level[Tail(w, a)] + 1])
  {
    var now := level[v := level[Tail(w, a)] + 1];
    forall x | 0 <= x < |level| && x != w.src && now[x] >= 0 ensures HasEntry(w, cap, now, x) {
      if x == v {
        assert Entered(w, cap, now, v, a);
      } else {
        assert HasEntry(w, cap, level, x);
        var b :| Entered(w, cap, level, x, b);
        assert Entered(w, cap, now, x, b);
      }
    }
  }

  lemma QueueHead(level: seq<int>, done: set<nat>, queue: seq<nat>)
    requires Queued(level, done, queue) && queue != []
    ensures queue[0] < |level| && level[queue[0]] >= 0
    ensures forall v :: v in done ==> v < |level| && level[v] >= 0
  {
  }

  /** A node first seen from the head of the queue goes one level below it, at the back. */
  lemma SearchFinds(w: Wires, cap: seq<nat>, level: seq<int>, done: set<nat>, queue: seq<nat>, a: nat)
    requires Searching(w, cap, level, done, queue) && queue != []
    requires a < |w.to| && cap[a] > 0 && Tail(w, a) == queue[0] && level[w.to[a]] == UNREACHED
    ensures queue[0] < |level|
    ensures Searching(w, cap, level[w.to[a] := level[queue[0]] + 1], done, queue + [w.to[a]])
  {
    hide Queued, Closed, AllEntered, Tail;
    var v := w.to[a];
    QueueHead(level, done, queue);
    QueueGrows(level, done, queue, v);
    StillClosed(w, cap, level, done, v, level[queue[0]] + 1);
    StillEntered(w, cap, level, v, a);
  }

  lemma QueueShrinks(level: seq<int>, done: set<nat>, queue: seq<nat>)
    requires Queued(level, done, queue) && queue != []
    ensures Queued(level, done + {queue[0]}, queue[1..])
  {
    var q, d := queue[1..], done + {queue[0]};
    assert forall i :: 0 <= i < |q| ==> q[i] == queue[i + 1];
    assert q != [] ==> level[queue[0]] <= level[queue[1]];
    forall x | 0 <= x < |level| && level[x] >= 0 ensures x in d || x in q {
      if x !in done {
        var i :| 0 <= i < |queue| && queue[i] == x;
        assert i > 0 ==> q[i - 1] == x;
      }
    }
  }

  /** The head of the queue is finished once every arc with room out of it leads somewhere reached. */
  lemma SearchFinishes(w: Wires, cap: seq<nat>, level: seq<int>, done: set<nat>, queue: seq<nat>, arcs: seq<nat>)
    requires Searching(w, cap, level, done, queue) && queue != []
    requires ListsLeaving(w, queue[0], arcs)
    requires forall j :: 0 <= j < |arcs| ==> arcs[j] < |w.to| && w.to[arcs[j]] < |level|
    requires forall j :: 0 <= j < |arcs| && cap[arcs[j]] > 0 ==> level[w.to[arcs[j]]] != UNREACHED
    ensures Searching(w, cap, level, done + {queue[0]}, queue[1..])
  {
    hide Queued, AllEntered, Wired, Tail;
    QueueHead(level, done, queue);
    forall a | 0 <= a < |w.to| && cap[a] > 0 && Tail(w, a) == queue[0]
      ensures 0 <= level[w.to[a]] <= level[queue[0]] + 1
    {
      assert a in arcs;
      QueueDepth(level, done, queue, w.to[a]);
    }
    QueueShrinks(level, done, queue);
  }

  // ----------------------------------------------------- blocked phases --

  /** A finished phase: from src no arc with room climbs a level out of `dead`, and the sink is outside it. */
  ghost predicate Blocked(w: Wires, cap: seq<nat>, level: seq<int>, dead: set<nat>) {
    && Layered(w, cap, level)
    && w.src in dead && w.snk !in dead
    && forall a :: 0 <= a < |w.to| && cap[a] > 0 && Tail(w, a) in dead && level[w.to[a]] == level[Tail(w, a)] + 1
               ==> w.to[a] in dead
  }

  /** After a blocked phase every node is at least as far as before, and no nearer unless it is dead. */
  lemma {:induction false} DistancesGrow(w: Wires, cap: seq<nat>, was: seq<int>, now: seq<int>, dead: set<nat>, v: nat)
    requires Blocked(w, cap, was, dead) && Bfs(w, cap, now)
    requires v < |now| && now[v] >= 0
    ensures 0 <= was[v] <= now[v]
    ensures was[v] == now[v] ==> v in dead
    decreases now[v]
  {
    if v != w.src {
      assert HasEntry(w, cap, now, v);
      var a :| Entered(w, cap, now, v, a);
      DistancesGrow(w, cap, was, now, dead, Tail(w, a));
    }
  }

  /** So the sink moves strictly further away with every phase. */
  lemma SinkRecedes(w: Wires, cap: seq<nat>, was: seq<int>, now: seq<int>, dead: set<nat>)
    requires Blocked(w, cap, was, dead) && Bfs(w, cap, now) && now[w.snk] >= 0
    ensures |was| == |now| && was[w.snk] < now[w.snk]
  {
    DistancesGrow(w, cap, was, now, dead, w.snk);
  }

  // -------------------------------------------------------- augmentation --

  /** The node a path of arcs from the source ends at. */
  function End(w: Wires, path: seq<nat>): nat
    requires forall i :: 0 <= i < |path| ==> path[i] < |w.to|
  {
    if path == [] then w.src else w.to[path[|path| - 1]]
  }

  /** A path in the level graph: arc i climbs from level i to level i+1, head to tail from the source. */
  ghost predicate Climbs(w: Wires, level: seq<int>, path: seq<nat>) {
    && |level| == |w.out|
    && (forall i :: 0 <= i < |path| ==> path[i] < |w.to|)
    && (forall i :: 0 <= i < |path| ==> level[Tail(w, path[i])] == i && level[w.to[path[i]]] == i + 1)
    && (forall i :: 0 <= i < |path| ==> Tail(w, path[i]) == End(w, path[..i]))
  }

  /** The least room on a path, or zero for the empty path. */
  function Bottleneck(cap: seq<nat>, path: seq<nat>): (p: nat)
    requires forall i :: 0 <= i < |path| ==> path[i] < |cap|
    ensures forall i :: 0 <= i < |path| ==> p <= cap[path[i]]
    ensures path != [] ==> exists i :: 0 <= i < |path| && p == cap[path[i]]
  {
    if |path| == 0 then 0
    else if |path| == 1 then cap[path[0]]
    else
      var rest := path[..|path| - 1];
      var b := Bottleneck(cap, rest);
      assert exists i :: 0 <= i < |rest| && b == cap[rest[i]] && rest[i] == path[i];
      if cap[path[|path| - 1]] < b then cap[path[|path| - 1]] else b
  }

  /** Room grew only down the level graph. */
  ghost predicate Drained(w: Wires, level: seq<int>, was: seq<nat>, now: seq<nat>) {
    && Sized(w, was, level) && Sized(w, now, level)
    && forall a :: 0 <= a < |w.to| && now[a] > was[a] ==> 0 <= level[w.to[a]] == level[Tail(w, a)] - 1
  }

  /** One arc of an augmentation: room moves to the reverse direction, which descends. */
  lemma PushStep(w: Wires, level: seq<int>, path: seq<nat>, was: seq<nat>, now: seq<nat>, p: nat, i: nat)
    requires Climbs(w, level, path) && i < |path|
    requires Drained(w, level, was, now) && PairsKept(was, now)
    requires p <= now[path[i]]
    ensures var after := Pushed(now, path[i], p);
      && Drained(w, level, was, after) && PairsKept(was, after)
      && (forall j :: 0 <= j < |path| && j != i ==> after[path[j]] == now[path[j]])
      && after[path[i]] == now[path[i]] - p
  {
    hide Wired, Climbs, Drained, PairsKept, Tail, Mate;
    var a := path[i];
    ClimbAt(w, level, path, i);
    ArcInside(w, a);
    DrainedSizes(w, level, was, now);
    PushDrains(w, level, was, now, p, a);
    PushPairs(was, now, p, a);
    forall j | 0 <= j < |path| && j != i
      ensures path[j] < |now| && path[j] != a && path[j] != Mate(a) && Pushed(now, a, p)[path[j]] == now[path[j]]
    {
      ClimbAt(w, level, path, j);
      MateTurns(w, a);
    }
    MateApart(a);
  }

  lemma ClimbAt(w: Wires, level: seq<int>, path: seq<nat>, i: nat)
    requires Climbs(w, level, path) && i < |path|
    ensures path[i] < |w.to| && |level| == |w.out|
    ensures level[Tail(w, path[i])] == i && w.to[path[i]] < |level| && level[w.to[path[i]]] == i + 1
  {
  }

  lemma DrainedSizes(w: Wires, level: seq<int>, was: seq<nat>, now: seq<nat>)
    requires Drained(w, level, was, now)
    ensures |was| == |now| == |w.to|
  {
  }

  lemma MateTurns(w: Wires, a: nat)
    requires a < |w.to|
    ensures Mate(a) < |w.to| && Tail(w, Mate(a)) == w.to[a]
  {
  }

  lemma MateApart(a: nat)
    ensures Mate(a) != a
  {
  }

  lemma PushDrains(w: Wires, level: seq<int>, was: seq<nat>, now: seq<nat>, p: nat, a: nat)
    requires Drained(w, level, was, now) && a < |w.to| && p <= now[a]
    requires 0 <= level[Tail(w, a)] == level[w.to[a]] - 1
    ensures Drained(w, level, was, Pushed(now, a, p))
  {
    ArcInside(w, a);
    assert Tail(w, Mate(a)) == w.to[a] && w.to[Mate(a)] == Tail(w, a);
  }

  lemma PushPairs(was: seq<nat>, now: seq<nat>, p: nat, a: nat)
    requires PairsKept(was, now) && a < |now| && Mate(a) < |now| && p <= now[a]
    ensures PairsKept(was, Pushed(now, a, p))
  {
    var after := Pushed(now, a, p);
    forall k | 0 <= k < |was| / 2
      ensures after[2 * k] + after[2 * k + 1] == was[2 * k] + was[2 * k + 1]
    {
      assert now[2 * k] + now[2 * k + 1] == was[2 * k] + was[2 * k + 1];
    }
  }

  /** An augmentation under way: the first i arcs of the path carry p more than before. */
  ghost predicate Carrying(w: Wires, level: seq<int>, path: seq<nat>, was: seq<nat>, now: seq<nat>, p: nat, i: nat) {
    && Climbs(w, level, path) && i <= |path|
    && Drained(w, level, was, now) && PairsKept(was, now)
    && (forall j :: 0 <= j < |path| ==> was[path[j]] >= p && now[path[j]] == was[path[j]] - if j < i then p else 0)
    && forall S: set<nat> {:trigger NetCut(w.to, now, S)} ::
         NetCut(w.to, now, S) == NetCut(w.to, was, S)
                               + (if End(w, path[..i]) in S then p else 0) - (if w.src in S then p else 0)
  }

  lemma ClimbInside(w: Wires, level: seq<int>, path: seq<nat>)
    requires Climbs(w, level, path)
    ensures forall i :: 0 <= i < |path| ==> path[i] < |w.to|
  {
  }

  lemma CarryStarts(w: Wires, level: seq<int>, path: seq<nat>, cap: seq<nat>, p: nat)
    requires Sized(w, cap, level) && Climbs(w, level, path)
    requires forall i :: 0 <= i < |path| ==> cap[path[i]] >= p
    ensures Carrying(w, level, path, cap, cap, p, 0)
  {
    assert path[..0] == [];
    assert End(w, path[..0]) == w.src;
  }

  /** What the arcs of the path hold part way. */
  lemma CarryRoom(w: Wires, level: seq<int>, path: seq<nat>, was: seq<nat>, now: seq<nat>, p: nat, i: nat)
    requires Carrying(w, level, path, was, now, p, i)
    ensures |was| == |now| == |w.to|
    ensures forall j :: 0 <= j < |path| ==>
      path[j] < |w.to| && was[path[j]] >= p && now[path[j]] == was[path[j]] - if j < i then p else 0
  {
  }

  lemma CarryOne(w: Wires, level: seq<int>, path: seq<nat>, was: seq<nat>, now: seq<nat>, p: nat, i: nat)
    requires Carrying(w, level, path, was, now, p, i) && i < |path|
    ensures Carrying(w, level, path, was, Pushed(now, path[i], p), p, i + 1)
  {
    var after := Pushed(now, path[i], p);
    PushStep(w, level, path, was, now, p, i);
    assert End(w, path[..i + 1]) == w.to[path[i]];
    forall S: set<nat>
      ensures NetCut(w.to, after, S) == NetCut(w.to, was, S)
                                      + (if w.to[path[i]] in S then p else 0) - (if w.src in S then p else 0)
    {
      PushCut(w, now, path[i], p, S);
      assert NetCut(w.to, now, S) == NetCut(w.to, was, S)
                                   + (if Tail(w, path[i]) in S then p else 0) - (if w.src in S then p else 0);
    }
  }

  // -------------------------------------------------------- current arcs --

  /** An arc the walk need not try again: full, off the level graph, or leading to a node out of arcs. */
  ghost predicate Stuck(w: Wires, cap: seq<nat>, level: seq<int>, next: seq<nat>, a: nat)
    requires Sized(w, cap, level) && |next| == |level| && a < |w.to|
  {
    || cap[a] == 0
    || level[w.to[a]] != level[Tail(w, a)] + 1
    || (w.to[a] != w.snk && next[w.to[a]] == |w.out[w.to[a]]|)
  }

  /** Every arc before a node's current arc is stuck. */
  ghost predicate Skipped(w: Wires, cap: seq<nat>, level: seq<int>, next: seq<nat>) {
    && Sized(w, cap, level) && |next| == |level|
    && (forall v :: 0 <= v < |next| ==> next[v] <= |w.out[v]|)
    && (forall v, j :: 0 <= v < |next| && 0 <= j < next[v] ==> Stuck(w, cap, level, next, w.out[v][j]))
  }

  /** The walk's path: it climbs, every arc on it has room, and each is its tail's current arc. */
  ghost predicate Walking(w: Wires, cap: seq<nat>, level: seq<int>, next: seq<nat>, path: seq<nat>) {
    && Sized(w, cap, level) && |next| == |level| && level[w.src] == 0
    && Climbs(w, level, path)
    && forall i :: 0 <= i < |path| ==>
         && cap[path[i]] > 0
         && next[Tail(w, path[i])] < |w.out[Tail(w, path[i])]|
         && w.out[Tail(w, path[i])][next[Tail(w, path[i])]] == path[i]
  }

  lemma PhaseStarts(w: Wires, cap: seq<nat>, level: seq<int>, next: seq<nat>)
    requires Bfs(w, cap, level) && |next| == |level|
    requires forall v :: 0 <= v < |next| ==> next[v] == 0
    ensures Layered(w, cap, level) && CutsLose(w, cap, cap, 0) && PairsKept(cap, cap)
    ensures Skipped(w, cap, level, next) && Walking(w, cap, level, next, [])
    ensures forall v :: 0 <= v < |level| ==> level[v] < |level|
  {
    forall v | 0 <= v < |level| ensures level[v] < |level| {
      LevelsBelowNodes(w, cap, level, v);
    }
  }

  /** The walk moves past a current arc that is stuck. */
  lemma SkipArc(w: Wires, cap: seq<nat>, level: seq<int>, next: seq<nat>, u: nat)
    requires Skipped(w, cap, level, next)
    requires u < |next| && next[u] < |w.out[u]| && Stuck(w, cap, level, next, w.out[u][next[u]])
    ensures Skipped(w, cap, level, next[u := next[u] + 1])
  {
    var after := next[u := next[u] + 1];
    forall v, j | 0 <= v < |next| && 0 <= j < after[v] ensures Stuck(w, cap, level, after, w.out[v][j]) {
      assert Stuck(w, cap, level, next, w.out[v][j]);
    }
  }

  /** Moving a node's current arc leaves a path alone that does not leave that node. */
  lemma WalkKept(w: Wires, cap: seq<nat>, level: seq<int>, next: seq<nat>, path: seq<nat>, u: nat, k: nat)
    requires Walking(w, cap, level, next, path) && u < |next| && level[u] >= |path|
    ensures Walking(w, cap, level, next[u := k], path)
  {
  }

  lemma WalkTaken(w: Wires, cap: seq<nat>, level: seq<int>, next: seq<nat>, path: seq<nat>, k: nat)
    requires Walking(w, cap, level, next, path) && k <= |path|
    ensures Walking(w, cap, level, next, path[..k])
  {
    forall i | 0 <= i < k ensures path[..k][..i] == path[..i] {
    }
  }

  lemma WalkOn(w: Wires, cap: seq<nat>, level: seq<int>, next: seq<nat>, path: seq<nat>, u: nat)
    requires Walking(w, cap, level, next, path) && u < |next| && End(w, path) == u
    requires level[u] == |path| && next[u] < |w.out[u]|
    requires var a := w.out[u][next[u]]; cap[a] > 0 && level[w.to[a]] == level[u] + 1
    ensures Walking(w, cap, level, next, path + [w.out[u][next[u]]])
  {
    var q := path + [w.out[u][next[u]]];
    assert q[..|path|] == path;
    forall i | 0 <= i < |path| ensures q[..i] == path[..i] && q[i] == path[i] {
    }
  }

  lemma WalkEnds(w: Wires, cap: seq<nat>, level: seq<int>, next: seq<nat>, path: seq<nat>)
    requires Walking(w, cap, level, next, path)
    ensures Sized(w, cap, level) && |next| == |level| && Climbs(w, level, path)
    ensures forall i :: 0 <= i < |path| ==> path[i] < |w.to| && cap[path[i]] > 0
    ensures End(w, path) < |level| && level[End(w, path)] == |path|
  {
  }

  /** The last arc of a walk is the current arc of the node it left. */
  lemma WalkTop(w: Wires, cap: seq<nat>, level: seq<int>, next: seq<nat>, path: seq<nat>)
    requires path != [] && Walking(w, cap, level, next, path)
    ensures var a := path[|path| - 1];
      && a < |w.to| && Tail(w, a) < |next|
      && (forall i :: 0 <= i < |path| ==> path[i] < |w.to|)
      && level[Tail(w, a)] == |path| - 1 && level[w.to[a]] == |path|
      && next[Tail(w, a)] < |w.out[Tail(w, a)]| && w.out[Tail(w, a)][next[Tail(w, a)]] == a
      && End(w, path) == w.to[a] && End(w, path[..|path| - 1]) == Tail(w, a)
  {
  }

  /** A node out of arcs is left over the arc that led to it, which is then stuck. */
  lemma WalkRetreats(w: Wires, cap: seq<nat>, level: seq<int>, next: seq<nat>, path: seq<nat>)
    requires Walking(w, cap, level, next, path) && Skipped(w, cap, level, next) && path != []
    requires var u := End(w, path); u != w.snk && u < |next| && next[u] == |w.out[u]|
    ensures path[|path| - 1] < |w.to|
    ensures var u := Tail(w, path[|path| - 1]); var front := path[..|path| - 1];
      && u < |next| && End(w, front) == u && next[u] < |w.out[u]|
      && Walking(w, cap, level, next[u := next[u] + 1], front)
      && Skipped(w, cap, level, next[u := next[u] + 1])
  {
    hide Walking, Skipped, Climbs, Wired;
    WalkTop(w, cap, level, next, path);
    var a, front := path[|path| - 1], path[..|path| - 1];
    var u := Tail(w, a);
    WalkTaken(w, cap, level, next, path, |path| - 1);
    SkipArc(w, cap, level, next, u);
    WalkKept(w, cap, level, next, front, u, next[u] + 1);
  }

  /** Draining the level graph unsticks nothing. */
  lemma StillSkipped(w: Wires, was: seq<nat>, now: seq<nat>, level: seq<int>, next: seq<nat>)
    requires Drained(w, level, was, now) && Skipped(w, was, level, next)
    ensures Skipped(w, now, level, next)
  {
    forall v, j | 0 <= v < |next| && 0 <= j < next[v] ensures Stuck(w, now, level, next, w.out[v][j]) {
      assert Stuck(w, was, level, next, w.out[v][j]);
    }
  }

  lemma StillLayered(w: Wires, was: seq<nat>, now: seq<nat>, level: seq<int>)
    requires Drained(w, level, was, now) && Layered(w, was, level)
    ensures Layered(w, now, level)
  {
  }

  /** A walk that ran out of arcs at the source has blocked the phase. */
  lemma PhaseBlocked(w: Wires, cap: seq<nat>, level: seq<int>, next: seq<nat>) returns (dead: set<nat>)
    requires Skipped(w, cap, level, next) && Layered(w, cap, level) && next[w.src] == |w.out[w.src]|
    ensures Blocked(w, cap, level, dead)
  {
    dead := set v | v in Below(|level|) && v != w.snk && next[v] == |w.out[v]|;
    forall a | 0 <= a < |w.to| && cap[a] > 0 && Tail(w, a) in dead && level[w.to[a]] == level[Tail(w, a)] + 1
      ensures w.to[a] in dead
    {
      assert Listed(w.to, w.out, a);
      var j :| 0 <= j < |w.out[Tail(w, a)]| && w.out[Tail(w, a)][j] == a;
      assert Stuck(w, cap, level, next, w.out[Tail(w, a)][j]);
    }
  }

  // ------------------------------------------------------------- measures --

  ghost function UsefulTerm(w: Wires, cap: seq<nat>, level: seq<int>): int -> int {
    (a: int) =>
      if Sized(w, cap, level) && 0 <= a < |w.to| && cap[a] > 0 && level[w.to[a]] == level[Tail(w, a)] + 1
      then 1 else 0
  }

  /** How many arcs of the level graph still have room. */
  ghost function Useful(w: Wires, cap: seq<nat>, level: seq<int>): nat {
    RangeNonNegative(UsefulTerm(w, cap, level), 0, |w.to|);
    RangeSum(UsefulTerm(w, cap, level), 0, |w.to|)
  }

  ghost function UntriedTerm(w: Wires, next: seq<nat>): int -> int {
    (v: int) => if |next| == |w.out| && 0 <= v < |w.out| && next[v] <= |w.out[v]| then |w.out[v]| - next[v] else 0
  }

  /** How many arcs the current-arc positions have still ahead of them. */
  ghost function Untried(w: Wires, next: seq<nat>): nat {
    RangeNonNegative(UntriedTerm(w, next), 0, |w.out|);
    RangeSum(UntriedTerm(w, next), 0, |w.out|)
  }

  lemma UntriedDrops(w: Wires, next: seq<nat>, u: nat)
    requires |next| == |w.out| && u < |w.out| && next[u] < |w.out[u]|
    ensures Untried(w, next[u := next[u] + 1]) == Untried(w, next) - 1
  {
    RangeUpdate(UntriedTerm(w, next), UntriedTerm(w, next[u := next[u] + 1]), 0, |w.out|, u);
  }

  /** Filling an arc of the level graph leaves fewer of them with room. */
  lemma UsefulDrops(w: Wires, was: seq<nat>, now: seq<nat>, level: seq<int>)
    requires Drained(w, level, was, now)
    ensures Useful(w, now, level) <= Useful(w, was, level)
    ensures forall a :: 0 <= a < |w.to| && was[a] > 0 && now[a] == 0 && level[w.to[a]] == level[Tail(w, a)] + 1
                    ==> Useful(w, now, level) < Useful(w, was, level)
  {
    RangeLeq(UsefulTerm(w, now, level), UsefulTerm(w, was, level), 0, |w.to|);
    forall a | 0 <= a < |w.to| && was[a] > 0 && now[a] == 0 && level[w.to[a]] == level[Tail(w, a)] + 1
      ensures Useful(w, now, level) < Useful(w, was, level)
    {
      RangeLess(UsefulTerm(w, now, level), UsefulTerm(w, was, level), 0, |w.to|, a);
    }
  }

  /** An augmentation keeps everything the phase relies on, and fills an arc of the level graph if it cut the path. */
  lemma AugmentKeeps(w: Wires, level: seq<int>, next: seq<nat>, path: seq<nat>,
                     was: seq<nat>, now: seq<nat>, p: nat, cut: nat)
    requires Walking(w, was, level, next, path) && End(w, path) == w.snk
    requires Skipped(w, was, level, next) && Layered(w, was, level)
    requires Carrying(w, level, path, was, now, p, |path|)
    requires cut <= |path| && (cut < |path| ==> now[path[cut]] == 0)
    requires forall i :: 0 <= i < cut ==> now[path[i]] > 0
    ensures Walking(w, now, level, next, path[..cut])
    ensures Skipped(w, now, level, next) && Layered(w, now, level)
    ensures PairsKept(was, now) && CutsLose(w, was, now, p)
    ensures Useful(w, now, level) <= Useful(w, was, level)
    ensures cut < |path| ==> Useful(w, now, level) < Useful(w, was, level)
  {
    assert path[..|path|] == path;
    WalkTaken(w, was, level, next, path, cut);
    StillSkipped(w, was, now, level, next);
    StillLayered(w, was, now, level);
    UsefulDrops(w, was, now, level);
  }
}
