/** Grouping arcs by tail without changing their order, and ranking ledger ids into slots. */
module Adjacency {
  import opened Layout
  import opened Ordered

  /** The arcs among the first k whose tail is u, in creation order. */
  ghost function ByTail(tail: seq<nat>, u: nat, k: nat): (arcs: seq<nat>)
    requires k <= |tail|
    ensures |arcs| <= k
  {
    if k == 0 then [] else ByTail(tail, u, k - 1) + if tail[k - 1] == u then [k - 1] else []
  }

  lemma {:induction false} ByTailSpec(tail: seq<nat>, u: nat, k: nat)
    requires k <= |tail|
    ensures forall j :: 0 <= j < |ByTail(tail, u, k)| ==> ByTail(tail, u, k)[j] < k && tail[ByTail(tail, u, k)[j]] == u
    ensures forall a :: 0 <= a < k && tail[a] == u ==> a in ByTail(tail, u, k)
    ensures forall i, j :: 0 <= i < j < |ByTail(tail, u, k)| ==> ByTail(tail, u, k)[i] < ByTail(tail, u, k)[j]
  {
    if k > 0 {
      ByTailSpec(tail, u, k - 1);
    }
  }

  lemma {:induction false} ByTailGrows(tail: seq<nat>, u: nat, k: nat, m: nat)
    requires k <= m <= |tail|
    ensures |ByTail(tail, u, k)| <= |ByTail(tail, u, m)|
    decreases m - k
  {
    if k < m {
      ByTailGrows(tail, u, k, m - 1);
    }
  }

  /** How many of the first k arcs leave a node below u. */
  ghost function Offset(tail: seq<nat>, u: nat, k: nat): nat
    requires k <= |tail|
  {
    if u == 0 then 0 else Offset(tail, u - 1, k) + |ByTail(tail, u - 1, k)|
  }

  lemma {:induction false} OffsetStep(tail: seq<nat>, u: nat, k: nat)
    requires k < |tail|
    ensures Offset(tail, u, k + 1) == Offset(tail, u, k) + if tail[k] < u then 1 else 0
    decreases u
  {
    if u > 0 {
      OffsetStep(tail, u - 1, k);
    }
  }

  lemma {:induction false} OffsetTotal(tail: seq<nat>, nodes: nat, k: nat)
    requires k <= |tail| && forall a :: 0 <= a < k ==> tail[a] < nodes
    ensures Offset(tail, nodes, k) == k
    decreases k
  {
    if k > 0 {
      OffsetTotal(tail, nodes, k - 1);
      OffsetStep(tail, nodes, k - 1);
    } else {
      OffsetNone(tail, nodes);
    }
  }

  lemma {:induction false} OffsetNone(tail: seq<nat>, u: nat)
    ensures Offset(tail, u, 0) == 0
    decreases u
  {
    if u > 0 {
      OffsetNone(tail, u - 1);
    }
  }

  lemma {:induction false} OffsetGrows(tail: seq<nat>, u: nat, v: nat)
    requires u < v
    ensures Offset(tail, u, |tail|) + |ByTail(tail, u, |tail|)| <= Offset(tail, v, |tail|)
    decreases v
  {
    if u + 1 < v {
      OffsetGrows(tail, u, v - 1);
    }
  }

  /** Node u's place in the sorted list. */
  ghost predicate Placed(tail: seq<nat>, arcs: seq<nat>, u: nat, k: nat)
    requires k <= |tail|
  {
    && Offset(tail, u, |tail|) + |ByTail(tail, u, k)| <= |arcs|
    && arcs[Offset(tail, u, |tail|)..Offset(tail, u, |tail|) + |ByTail(tail, u, k)|] == ByTail(tail, u, k)
  }

  ghost predicate AllPlaced(tail: seq<nat>, arcs: seq<nat>, nodes: nat, k: nat)
    requires k <= |tail|
  {
    |arcs| == |tail| && forall u :: 0 <= u < nodes ==> Placed(tail, arcs, u, k)
  }

  ghost function Cursor(tail: seq<nat>, u: nat, k: nat): nat
    requires k <= |tail|
  {
    Offset(tail, u, |tail|) + |ByTail(tail, u, k)|
  }

  /** Node u's arcs are a stretch of the sorted list. */
  ghost predicate Stretch(tail: seq<nat>, headStart: seq<nat>, headArcs: seq<nat>, u: nat) {
    && u + 1 < |headStart| && headStart[u] <= headStart[u + 1] <= |headArcs|
    && headArcs[headStart[u]..headStart[u + 1]] == ByTail(tail, u, |tail|)
  }

  /** Writing the next arc at its tail's cursor places it and disturbs no other node. */
  lemma PlaceNext(tail: seq<nat>, nodes: nat, arcs: seq<nat>, k: nat)
    requires k < |tail| && forall a :: 0 <= a < |tail| ==> tail[a] < nodes
    requires AllPlaced(tail, arcs, nodes, k)
    ensures Cursor(tail, tail[k], k) < |arcs|
    ensures AllPlaced(tail, arcs[Cursor(tail, tail[k], k) := k], nodes, k + 1)
    ensures forall u: nat :: Cursor(tail, u, k + 1) == Cursor(tail, u, k) + if u == tail[k] then 1 else 0
  {
    hide Placed, ByTail, Offset;
    var t := tail[k];
    CursorInside(tail, nodes, k);
    var after, m := arcs[Cursor(tail, t, k) := k], k + 1;
    forall u | 0 <= u < nodes ensures Placed(tail, after, u, m) {
      assert Placed(tail, arcs, u, k);
      if u == t {
        PlaceHere(tail, nodes, arcs, k);
      } else {
        PlaceElsewhere(tail, nodes, arcs, k, u);
      }
    }
    CursorsNext(tail, k);
  }

  lemma CursorsNext(tail: seq<nat>, k: nat)
    requires k < |tail|
    ensures forall u: nat :: Cursor(tail, u, k + 1) == Cursor(tail, u, k) + if u == tail[k] then 1 else 0
  {
    hide Offset;
  }

  lemma ByTailNext(tail: seq<nat>, u: nat, k: nat)
    requires k < |tail|
    ensures ByTail(tail, u, k + 1) == if u == tail[k] then ByTail(tail, u, k) + [k] else ByTail(tail, u, k)
  {
  }

  lemma CursorInside(tail: seq<nat>, nodes: nat, k: nat)
    requires k < |tail| && forall a :: 0 <= a < |tail| ==> tail[a] < nodes
    ensures Cursor(tail, tail[k], k) < Cursor(tail, tail[k], |tail|) <= |tail|
  {
    hide ByTail, Offset;
    ByTailNext(tail, tail[k], k);
    ByTailGrows(tail, tail[k], k + 1, |tail|);
    OffsetTotal(tail, nodes, |tail|);
    OffsetGrows(tail, tail[k], nodes);
  }

  lemma PlaceHere(tail: seq<nat>, nodes: nat, arcs: seq<nat>, k: nat)
    requires k < |tail| && |arcs| == |tail| && forall a :: 0 <= a < |tail| ==> tail[a] < nodes
    requires Placed(tail, arcs, tail[k], k)
    ensures Cursor(tail, tail[k], k) < |arcs|
    ensures Placed(tail, arcs[Cursor(tail, tail[k], k) := k], tail[k], k + 1)
  {
    hide ByTail, Offset;
    CursorInside(tail, nodes, k);
    ByTailNext(tail, tail[k], k);
  }

  lemma PlaceElsewhere(tail: seq<nat>, nodes: nat, arcs: seq<nat>, k: nat, u: nat)
    requires k < |tail| && |arcs| == |tail| && forall a :: 0 <= a < |tail| ==> tail[a] < nodes
    requires u < nodes && u != tail[k] && Placed(tail, arcs, u, k)
    ensures Cursor(tail, tail[k], k) < |arcs|
    ensures Placed(tail, arcs[Cursor(tail, tail[k], k) := k], u, k + 1)
  {
    hide ByTail, Offset;
    CursorInside(tail, nodes, k);
    ByTailNext(tail, u, k);
    Apart(tail, u, tail[k], k);
  }

  /** Two nodes' stretches do not meet. */
  lemma Apart(tail: seq<nat>, u: nat, t: nat, k: nat)
    requires k <= |tail| && u != t
    ensures u < t ==> Cursor(tail, u, k) <= Offset(tail, t, |tail|)
    ensures t < u ==> Cursor(tail, t, |tail|) <= Offset(tail, u, |tail|)
  {
    hide ByTail, Offset;
    ByTailGrows(tail, u, k, |tail|);
    if u < t {
      OffsetGrows(tail, u, t);
    } else {
      OffsetGrows(tail, t, u);
    }
  }

  lemma NothingPlaced(tail: seq<nat>, nodes: nat, arcs: seq<nat>)
    requires |arcs| == |tail| && forall a :: 0 <= a < |tail| ==> tail[a] < nodes
    ensures AllPlaced(tail, arcs, nodes, 0)
  {
    OffsetTotal(tail, nodes, |tail|);
    forall u | 0 <= u < nodes ensures Placed(tail, arcs, u, 0) {
      OffsetGrows(tail, u, nodes);
    }
  }

  lemma CountsStart(tail: seq<nat>)
    ensures forall u: nat :: |ByTail(tail, u, 0)| == 0
    ensures Offset(tail, 0, |tail|) == 0
  {
  }

  lemma CountsStep(tail: seq<nat>, i: nat)
    requires i < |tail|
    ensures forall u: nat :: |ByTail(tail, u, i + 1)| == |ByTail(tail, u, i)| + if tail[i] == u then 1 else 0
  {
  }

  lemma OffsetNext(tail: seq<nat>, u: nat)
    ensures Offset(tail, u + 1, |tail|) == Offset(tail, u, |tail|) + |ByTail(tail, u, |tail|)|
  {
  }

  /** How many arcs leave each node, summed into where each node's stretch starts. */
  method Starts(tail: seq<nat>, nodes: nat) returns (start: array<nat>)
    requires forall a :: 0 <= a < |tail| ==> tail[a] < nodes
    ensures fresh(start) && start.Length == nodes + 1
    ensures forall u :: 0 <= u <= nodes ==> start[u] == Offset(tail, u, |tail|)
  {
    hide ByTail, Offset;
    start := new nat[nodes + 1](_ => 0);
    CountsStart(tail);
    for i := 0 to |tail|
      invariant start[0] == 0
      invariant forall u :: 1 <= u <= nodes ==> start[u] == |ByTail(tail, u - 1, i)|
    {
      CountsStep(tail, i);
      start[tail[i] + 1] := start[tail[i] + 1] + 1;
    }
    for i := 0 to nodes
      invariant forall u :: 0 <= u <= i ==> start[u] == Offset(tail, u, |tail|)
      invariant forall u :: i < u <= nodes ==> start[u] == |ByTail(tail, u - 1, |tail|)|
    {
      OffsetNext(tail, i);
      start[i + 1] := start[i + 1] + start[i];
    }
  }

  /** Every tail's stretch between two offsets is its arcs in creation order. */
  method CountingSort(tail: seq<nat>, nodes: nat) returns (headStart: seq<nat>, headArcs: seq<nat>)
    requires forall a :: 0 <= a < |tail| ==> tail[a] < nodes
    ensures |headStart| == nodes + 1
    ensures forall u :: 0 <= u < nodes ==> Stretch(tail, headStart, headArcs, u)
  {
    hide AllPlaced, ByTail, Offset;
    var start := Starts(tail, nodes);
    headStart := start[..];
    var cursor := new nat[nodes + 1](i requires 0 <= i < |headStart| => headStart[i]);
    var arcs := new nat[|tail|](_ => 0);
    NothingPlaced(tail, nodes, arcs[..]);
    for id := 0 to |tail|
      invariant forall u :: 0 <= u < nodes ==> cursor[u] == Cursor(tail, u, id)
      invariant AllPlaced(tail, arcs[..], nodes, id)
    {
      var t := tail[id];
      PlaceNext(tail, nodes, arcs[..], id);
      ghost var was := arcs[..];
      arcs[cursor[t]] := id;
      assert arcs[..] == was[cursor[t] := id];
      cursor[t] := cursor[t] + 1;
    }
    headArcs := arcs[..];
    forall u | 0 <= u < nodes ensures Stretch(tail, headStart, headArcs, u) {
      StretchOf(tail, nodes, headStart, headArcs, u);
    }
  }

  lemma StretchOf(tail: seq<nat>, nodes: nat, headStart: seq<nat>, headArcs: seq<nat>, u: nat)
    requires AllPlaced(tail, headArcs, nodes, |tail|) && u < nodes && |headStart| == nodes + 1
    requires forall v :: 0 <= v <= nodes ==> headStart[v] == Offset(tail, v, |tail|)
    ensures Stretch(tail, headStart, headArcs, u)
  {
    assert Placed(tail, headArcs, u, |tail|);
    assert headStart[u] == Offset(tail, u, |tail|) && headStart[u + 1] == Offset(tail, u + 1, |tail|);
  }

  /** Rank the marked ids in ascending order. */
  method Rank(mark: array<bool>) returns (slotOf: array<int>, m: nat, ghost ids: seq<nat>)
    ensures fresh(slotOf) && slotOf.Length == mark.Length && m == |ids|
    ensures Ranks(slotOf[..], ids)
    ensures forall id :: 0 <= id < mark.Length ==> (slotOf[id] >= 0 <==> mark[id])
  {
    slotOf := new int[mark.Length](_ => -1);
    m := 0;
    ids := [];
    for id := 0 to mark.Length
      invariant m == |ids|
      invariant forall i, j :: 0 <= i < j < |ids| ==> ids[i] < ids[j]
      invariant forall x :: id <= x < mark.Length ==> slotOf[x] == -1
      invariant forall x :: 0 <= x < id ==> -1 <= slotOf[x] < |ids| && (slotOf[x] >= 0 <==> mark[x])
      invariant forall x :: 0 <= x < id && slotOf[x] >= 0 ==> ids[slotOf[x]] == x
      invariant forall j :: 0 <= j < |ids| ==> ids[j] < id && slotOf[ids[j]] == j
    {
      if mark[id] {
        slotOf[id] := m;
        m := m + 1;
        ids := ids + [id];
      }
    }
  }

  /** An account takes part when a valid edge, an underwriter or a target names it. */
  ghost predicate TakesPart(es: seq<(Key, nat)>, uw: seq<(nat, nat)>, targets: seq<nat>, n: nat, x: nat) {
    || (exists j :: 0 <= j < |es| && es[j].0.0 < n && es[j].0.1 < n && (es[j].0.0 == x || es[j].0.1 == x))
    || (exists j :: 0 <= j < |uw| && uw[j].0 == x)
    || (exists j :: 0 <= j < |targets| && targets[j] == x)
  }

  /** The marks are the accounts that take part, and no others. */
  method Participants(es: seq<(Key, nat)>, uw: seq<(nat, nat)>, targets: seq<nat>, n: nat) returns (mark: array<bool>)
    ensures fresh(mark) && mark.Length == n
    ensures forall x :: 0 <= x < n ==> (mark[x] <==> TakesPart(es, uw, targets, n, x))
  {
    mark := new bool[n](_ => false);
    for j := 0 to |es|
      invariant forall x :: 0 <= x < n ==> (mark[x] <==> TakesPart(es[..j], [], [], n, x))
    {
      var (c, d) := es[j].0;
      ghost var was := mark[..];
      if c < n && d < n {
        mark[c] := true;
        mark[d] := true;
      }
      forall x | 0 <= x < n ensures mark[x] <==> TakesPart(es[..j + 1], [], [], n, x) {
        OneMoreEdge(es, j, n, x);
        assert was[x] <==> TakesPart(es[..j], [], [], n, x);
      }
    }
    assert es[..|es|] == es;
    for j := 0 to |uw|
      invariant forall x :: 0 <= x < n ==> (mark[x] <==> TakesPart(es, uw[..j], [], n, x))
    {
      ghost var was := mark[..];
      if uw[j].0 < n {
        mark[uw[j].0] := true;
      }
      forall x | 0 <= x < n ensures mark[x] <==> TakesPart(es, uw[..j + 1], [], n, x) {
        OneMoreLender(es, uw, j, n, x);
        assert was[x] <==> TakesPart(es, uw[..j], [], n, x);
      }
    }
    assert uw[..|uw|] == uw;
    for j := 0 to |targets|
      invariant forall x :: 0 <= x < n ==> (mark[x] <==> TakesPart(es, uw, targets[..j], n, x))
    {
      ghost var was := mark[..];
      if targets[j] < n {
        mark[targets[j]] := true;
      }
      forall x | 0 <= x < n ensures mark[x] <==> TakesPart(es, uw, targets[..j + 1], n, x) {
        OneMoreTarget(es, uw, targets, j, n, x);
        assert was[x] <==> TakesPart(es, uw, targets[..j], n, x);
      }
    }
    assert targets[..|targets|] == targets;
  }

  lemma OneMoreEdge(es: seq<(Key, nat)>, j: nat, n: nat, x: nat)
    requires j < |es|
    ensures TakesPart(es[..j + 1], [], [], n, x) <==>
      TakesPart(es[..j], [], [], n, x) || (es[j].0.0 < n && es[j].0.1 < n && (es[j].0.0 == x || es[j].0.1 == x))
  {
    var more := es[..j + 1];
    assert forall i :: 0 <= i < j ==> more[i] == es[..j][i];
    assert more[j] == es[j];
  }

  lemma OneMoreLender(es: seq<(Key, nat)>, uw: seq<(nat, nat)>, j: nat, n: nat, x: nat)
    requires j < |uw|
    ensures TakesPart(es, uw[..j + 1], [], n, x) <==> TakesPart(es, uw[..j], [], n, x) || uw[j].0 == x
  {
    var more := uw[..j + 1];
    assert forall i :: 0 <= i < j ==> more[i] == uw[..j][i];
    assert more[j] == uw[j];
  }

  lemma OneMoreTarget(es: seq<(Key, nat)>, uw: seq<(nat, nat)>, targets: seq<nat>, j: nat, n: nat, x: nat)
    requires j < |targets|
    ensures TakesPart(es, uw, targets[..j + 1], n, x) <==> TakesPart(es, uw, targets[..j], n, x) || targets[j] == x
  {
    var more := targets[..j + 1];
    assert forall i :: 0 <= i < j ==> more[i] == targets[..j][i];
    assert more[j] == targets[j];
  }
}
