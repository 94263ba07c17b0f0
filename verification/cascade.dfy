/** The support cascade's allocators, and the common level their rounds find. */
module Cascade {
  import opened Arithmetic

  /** A need and a weight. */
  type Target = (real, real)

  function RealSum(s: seq<real>): real {
    if s == [] then 0.0 else RealSum(s[..|s| - 1]) + s[|s| - 1]
  }

  lemma {:induction false} RealSumUpdate(s: seq<real>, i: nat, x: real)
    requires i < |s|
    ensures RealSum(s[i := x]) == RealSum(s) - s[i] + x
    decreases |s|
  {
    var t := s[i := x];
    if i == |s| - 1 {
      assert t[..|s| - 1] == s[..|s| - 1];
    } else {
      assert t[..|s| - 1] == s[..|s| - 1][i := x];
      RealSumUpdate(s[..|s| - 1], i, x);
    }
  }

  lemma LastDiffers(s: seq<real>, t: seq<real>)
    requires |s| == |t| > 0
    ensures s == t <==> s[..|s| - 1] == t[..|t| - 1] && s[|s| - 1] == t[|t| - 1]
  {
    assert s == s[..|s| - 1] + [s[|s| - 1]] && t == t[..|t| - 1] + [t[|t| - 1]];
  }

  lemma {:induction false} RealSumLeq(s: seq<real>, t: seq<real>)
    requires |s| == |t| && forall i :: 0 <= i < |s| ==> s[i] <= t[i]
    ensures RealSum(s) <= RealSum(t)
    ensures RealSum(s) == RealSum(t) ==> s == t
    decreases |s|
  {
    if s != [] {
      RealSumLeq(s[..|s| - 1], t[..|t| - 1]);
      LastDiffers(s, t);
    }
  }

  lemma {:induction false} RealSumZeros(s: seq<real>)
    requires forall i :: 0 <= i < |s| ==> s[i] == 0.0
    ensures RealSum(s) == 0.0
    decreases |s|
  {
    if s != [] {
      RealSumZeros(s[..|s| - 1]);
    }
  }

  predicate Eligible(t: Target) {
    t.0 > 0.0 && t.1 > 0.0
  }

  /** What a common water level gives each target. */
  function AtLevel(targets: seq<Target>, level: real): seq<real> {
    seq(|targets|, i requires 0 <= i < |targets| =>
      if !Eligible(targets[i]) then 0.0
      else if level * targets[i].1 < targets[i].0 then level * targets[i].1 else targets[i].0)
  }

  function Needs(targets: seq<Target>): real {
    RealSum(seq(|targets|, i requires 0 <= i < |targets| => if Eligible(targets[i]) then targets[i].0 else 0.0))
  }

  function WeightSum(targets: seq<Target>, open: seq<nat>): real
    requires forall j :: 0 <= j < |open| ==> open[j] < |targets|
  {
    if open == [] then 0.0 else WeightSum(targets, open[..|open| - 1]) + targets[open[|open| - 1]].1
  }

  /** Between rounds: open targets stand at the level, below their needs; closed ones are met but for the slack, at or
      below it. */
  ghost predicate Standing(targets: seq<Target>, alloc: seq<real>, open: seq<nat>, level: real, slack: real) {
    && |alloc| == |targets| && level >= 0.0 && slack >= 0.0
    && (forall i, j :: 0 <= i < j < |open| ==> open[i] < open[j])
    && (forall j :: 0 <= j < |open| ==> open[j] < |targets| && Eligible(targets[open[j]]))
    && (forall i :: 0 <= i < |targets| ==>
          if i in open then alloc[i] == level * targets[i].1 < targets[i].0
          else if Eligible(targets[i]) then
            targets[i].0 - slack <= alloc[i] <= targets[i].0 && alloc[i] <= level * targets[i].1
          else alloc[i] == 0.0)
  }

  /** Everybody has what the level gives, but for the slack. */
  ghost predicate Near(targets: seq<Target>, alloc: seq<real>, level: real, slack: real) {
    |alloc| == |targets| && forall i :: 0 <= i < |targets| ==> AtLevel(targets, level)[i] - slack <= alloc[i] <= AtLevel(targets, level)[i]
  }

  /** Every eligible need is met, but for the slack. */
  ghost predicate Satisfied(targets: seq<Target>, alloc: seq<real>, slack: real) {
    |alloc| == |targets| && forall i :: 0 <= i < |targets| && Eligible(targets[i]) ==> targets[i].0 - slack <= alloc[i]
  }

  lemma NearExactly(targets: seq<Target>, alloc: seq<real>, level: real)
    requires Near(targets, alloc, level, 0.0)
    ensures alloc == AtLevel(targets, level)
  {
  }

  lemma SatisfiedExactly(targets: seq<Target>, alloc: seq<real>, level: real)
    requires Near(targets, alloc, level, 0.0) && Satisfied(targets, alloc, 0.0)
    ensures RealSum(alloc) == Needs(targets)
  {
    assert alloc == seq(|targets|, i requires 0 <= i < |targets| => if Eligible(targets[i]) then targets[i].0 else 0.0);
  }

  lemma StandingIsLevel(targets: seq<Target>, alloc: seq<real>, open: seq<nat>, level: real, slack: real)
    requires Standing(targets, alloc, open, level, slack)
    ensures Near(targets, alloc, level, slack) && level >= 0.0
  {
    forall i | 0 <= i < |targets| ensures AtLevel(targets, level)[i] - slack <= alloc[i] <= AtLevel(targets, level)[i] {
      if i in open {
        var j :| 0 <= j < |open| && open[j] == i;
      }
    }
  }

  lemma BelowNeeds(targets: seq<Target>, level: real)
    requires level >= 0.0
    ensures RealSum(AtLevel(targets, level)) <= Needs(targets)
  {
    RealSumLeq(AtLevel(targets, level),
               seq(|targets|, i requires 0 <= i < |targets| => if Eligible(targets[i]) then targets[i].0 else 0.0));
  }

  lemma AllMet(targets: seq<Target>, alloc: seq<real>, open: seq<nat>, level: real, slack: real)
    requires Standing(targets, alloc, open, level, slack) && open == []
    ensures Satisfied(targets, alloc, slack)
  {
  }

  lemma {:induction false} WeightSumPositive(targets: seq<Target>, open: seq<nat>)
    requires forall j :: 0 <= j < |open| ==> open[j] < |targets| && Eligible(targets[open[j]])
    ensures open != [] ==> WeightSum(targets, open) > 0.0
    ensures open == [] ==> WeightSum(targets, open) == 0.0
    decreases |open|
  {
    if open != [] {
      WeightSumPositive(targets, open[..|open| - 1]);
    }
  }

  /** Level uniqueness: a common level and the amount handed out determine every allocation. */
  lemma LevelDetermines(targets: seq<Target>, a: real, b: real)
    requires RealSum(AtLevel(targets, a)) == RealSum(AtLevel(targets, b))
    ensures AtLevel(targets, a) == AtLevel(targets, b)
  {
    if a <= b {
      LevelMonotone(targets, a, b);
      RealSumLeq(AtLevel(targets, a), AtLevel(targets, b));
    } else {
      LevelMonotone(targets, b, a);
      RealSumLeq(AtLevel(targets, b), AtLevel(targets, a));
    }
  }

  lemma LevelMonotone(targets: seq<Target>, a: real, b: real)
    requires a <= b
    ensures forall i :: 0 <= i < |targets| ==> AtLevel(targets, a)[i] <= AtLevel(targets, b)[i]
  {
    forall i | 0 <= i < |targets| ensures AtLevel(targets, a)[i] <= AtLevel(targets, b)[i] {
      if Eligible(targets[i]) {
        assert (b - a) * targets[i].1 >= 0.0;
      }
    }
  }

  function EligibleIndices(targets: seq<Target>, k: nat): (open: seq<nat>)
    requires k <= |targets|
    ensures |open| <= k
    ensures forall i, j :: 0 <= i < j < |open| ==> open[i] < open[j]
    ensures forall j :: 0 <= j < |open| ==> open[j] < k && Eligible(targets[open[j]])
    ensures forall i :: 0 <= i < k && Eligible(targets[i]) ==> i in open
  {
    if k == 0 then [] else
      EligibleIndices(targets, k - 1) + if Eligible(targets[k - 1]) then [k - 1] else []
  }

  function Min(a: real, b: real): real {
    if a < b then a else b
  }

  function Filled(t: Target, level: real): real {
    Min(t.0, level * t.1)
  }

  /** Mid-round: the first j open targets have been poured to the new level. */
  ghost predicate Pouring(targets: seq<Target>, before: seq<real>, alloc: seq<real>, open: seq<nat>, nextOpen: seq<nat>,
                          level: real, rise: real, j: nat, slack: real) {
    && Standing(targets, before, open, level, slack) && rise > 0.0 && j <= |open| && |alloc| == |targets|
    && (forall i :: 0 <= i < |targets| ==>
          alloc[i] == if i in open[..j] then Filled(targets[i], level + rise) else before[i])
    && (forall a, b :: 0 <= a < b < |nextOpen| ==> nextOpen[a] < nextOpen[b])
    && (forall i :: i in nextOpen <==> i in open[..j] && alloc[i] < targets[i].0 - slack)
  }

  /** A target's part of what remains, in proportion to its weight. */
  function Share(remaining: real, weight: real, weightSum: real): real
    requires weightSum > 0.0
  {
    remaining * weight / weightSum
  }

  lemma ShareIsRise(remaining: real, weight: real, weightSum: real)
    requires weightSum > 0.0
    ensures Share(remaining, weight, weightSum) == remaining / weightSum * weight
  {
    var rise := remaining / weightSum;
    assert rise * weightSum == remaining;
    assert remaining * weight == (rise * weight) * weightSum;
  }

  lemma PourStarts(targets: seq<Target>, before: seq<real>, open: seq<nat>, level: real, rise: real, slack: real)
    requires Standing(targets, before, open, level, slack) && rise > 0.0
    ensures Pouring(targets, before, before, open, [], level, rise, 0, slack)
  {
  }

  /** Where the next open target stands before it is poured. */
  lemma NextStands(targets: seq<Target>, before: seq<real>, alloc: seq<real>, open: seq<nat>, nextOpen: seq<nat>,
                   level: real, rise: real, j: nat, slack: real)
    requires Pouring(targets, before, alloc, open, nextOpen, level, rise, j, slack) && j < |open|
    ensures |alloc| == |targets| && open[j] < |targets| && Eligible(targets[open[j]])
    ensures alloc[open[j]] == level * targets[open[j]].1 < targets[open[j]].0
    ensures open[j] !in open[..j]
  {
  }

  lemma StandingShape(targets: seq<Target>, alloc: seq<real>, open: seq<nat>, level: real, slack: real)
    requires Standing(targets, alloc, open, level, slack)
    ensures |alloc| == |targets| && slack >= 0.0
    ensures forall i, j :: 0 <= i < j < |open| ==> open[i] < open[j]
    ensures forall j :: 0 <= j < |open| ==> open[j] < |targets|
  {
  }

  lemma PrefixGrows(open: seq<nat>, j: nat)
    requires j < |open|
    requires forall i, j :: 0 <= i < j < |open| ==> open[i] < open[j]
    ensures forall x :: x in open[..j + 1] <==> x in open[..j] || x == open[j]
    ensures forall x :: x in open[..j] ==> x < open[j]
  {
    assert open[..j + 1] == open[..j] + [open[j]];
  }

  lemma PourOne(targets: seq<Target>, before: seq<real>, alloc: seq<real>, open: seq<nat>, nextOpen: seq<nat>,
                level: real, rise: real, j: nat, slack: real)
    requires Pouring(targets, before, alloc, open, nextOpen, level, rise, j, slack) && j < |open|
    ensures open[j] < |targets| == |alloc|
    ensures var i := open[j]; var v := Filled(targets[i], level + rise);
      Pouring(targets, before, alloc[i := v], open, if v < targets[i].0 - slack then nextOpen + [i] else nextOpen, level, rise, j + 1, slack)
  {
    hide Standing, Filled;
    StandingShape(targets, before, open, level, slack);
    PrefixGrows(open, j);
    var i := open[j];
    var v := Filled(targets[i], level + rise);
    var alloc1 := alloc[i := v];
    var nextOpen1 := if v < targets[i].0 - slack then nextOpen + [i] else nextOpen;
    forall x ensures x in nextOpen1 <==> x in open[..j + 1] && alloc1[x] < targets[x].0 - slack {
      if x != i {
        assert x in nextOpen1 <==> x in nextOpen;
      }
    }
    forall a, b | 0 <= a < b < |nextOpen1| ensures nextOpen1[a] < nextOpen1[b] {
      assert nextOpen1[a] in nextOpen;
    }
  }

  lemma PourEnds(targets: seq<Target>, before: seq<real>, alloc: seq<real>, open: seq<nat>, nextOpen: seq<nat>,
                 level: real, rise: real, slack: real)
    requires Pouring(targets, before, alloc, open, nextOpen, level, rise, |open|, slack)
    ensures Standing(targets, alloc, nextOpen, level + rise, slack)
  {
    assert open[..|open|] == open;
    forall j | 0 <= j < |nextOpen| ensures nextOpen[j] < |targets| && Eligible(targets[nextOpen[j]]) {
      assert nextOpen[j] in nextOpen;
    }
    forall i | 0 <= i < |targets| && Eligible(targets[i]) ensures level * targets[i].1 <= (level + rise) * targets[i].1 {
      assert (level + rise) * targets[i].1 == level * targets[i].1 + rise * targets[i].1;
      assert rise * targets[i].1 >= 0.0;
    }
  }

  /** What one target takes: its share of the rise, or the room it has left. */
  lemma TakeFills(t: Target, have: real, level: real, rise: real, remaining: real, weightSum: real, take: real)
    requires weightSum > 0.0 && rise == remaining / weightSum && have == level * t.1
    requires take == Min(Share(remaining, t.1, weightSum), t.0 - have)
    ensures have + take == Filled(t, level + rise)
    ensures take <= rise * t.1
    ensures have + take < t.0 ==> take == rise * t.1
  {
    ShareIsRise(remaining, t.1, weightSum);
    assert (level + rise) * t.1 == level * t.1 + rise * t.1;
  }

  /** What a round has spent so far: at most the rise times the weights poured, exactly that while nobody is met. */
  ghost predicate Spent(targets: seq<Target>, open: seq<nat>, rise: real, spent: real, kept: nat, j: nat)
    requires forall x :: 0 <= x < |open| ==> open[x] < |targets|
    requires j <= |open|
  {
    && kept <= j
    && spent <= rise * WeightSum(targets, open[..j])
    && (kept == j ==> spent == rise * WeightSum(targets, open[..j]))
  }

  lemma SpendOne(targets: seq<Target>, open: seq<nat>, rise: real, spent: real, kept: nat, j: nat, take: real, met: bool)
    requires j < |open| && forall x :: 0 <= x < |open| ==> open[x] < |targets|
    requires Spent(targets, open, rise, spent, kept, j)
    requires take <= rise * targets[open[j]].1 && (!met ==> take == rise * targets[open[j]].1)
    ensures Spent(targets, open, rise, spent + take, if met then kept else kept + 1, j + 1)
  {
    WeightSumNext(targets, open, j, rise);
  }

  lemma SpentAll(targets: seq<Target>, open: seq<nat>, rise: real, spent: real, kept: nat)
    requires forall x :: 0 <= x < |open| ==> open[x] < |targets|
    requires Spent(targets, open, rise, spent, kept, |open|)
    ensures kept <= |open| && spent <= rise * WeightSum(targets, open)
    ensures kept == |open| ==> spent == rise * WeightSum(targets, open)
  {
    hide WeightSum;
    assert open[..|open|] == open;
  }

  /** One round: pour what remains over the open targets, in proportion to their weights. */
  method Round(targets: seq<Target>, alloc0: seq<real>, open: seq<nat>, remaining: real, slack: real, ghost level: real)
      returns (alloc: seq<real>, nextOpen: seq<nat>, spent: real, ghost higher: real)
    requires Standing(targets, alloc0, open, level, slack) && open != [] && remaining > 0.0
    ensures Standing(targets, alloc, nextOpen, higher, slack)
    ensures |nextOpen| <= |open| && RealSum(alloc) == RealSum(alloc0) + spent
    ensures spent <= remaining
    ensures |nextOpen| == |open| ==> spent == remaining
  {
    hide Pouring, Standing, Spent, Filled, WeightSum, Min, RealSum, Eligible, Share;
    StandingShape(targets, alloc0, open, level, slack);
    OpenWeighs(targets, alloc0, open, level, slack);
    alloc, nextOpen, spent := alloc0, [], 0.0;
    var weightSum := WeightSum(targets, open);
    ghost var rise := remaining / weightSum;
    PourStarts(targets, alloc0, open, level, rise, slack);
    SpentNothing(targets, open, rise);
    for j := 0 to |open|
      invariant Pouring(targets, alloc0, alloc, open, nextOpen, level, rise, j, slack)
      invariant RealSum(alloc) == RealSum(alloc0) + spent
      invariant Spent(targets, open, rise, spent, |nextOpen|, j)
    {
      var i := open[j];
      NextStands(targets, alloc0, alloc, open, nextOpen, level, rise, j, slack);
      PourOne(targets, alloc0, alloc, open, nextOpen, level, rise, j, slack);
      var share := Share(remaining, targets[i].1, weightSum);
      var room := targets[i].0 - alloc[i];
      var take := Min(share, room);
      TakeFills(targets[i], alloc[i], level, rise, remaining, weightSum, take);
      RealSumUpdate(alloc, i, alloc[i] + take);
      alloc := alloc[i := alloc[i] + take];
      SpendOne(targets, open, rise, spent, |nextOpen|, j, take, !(alloc[i] < targets[i].0 - slack));
      spent := spent + take;
      if alloc[i] < targets[i].0 - slack {
        nextOpen := nextOpen + [i];
      }
    }
    SpentAll(targets, open, rise, spent, |nextOpen|);
    PourEnds(targets, alloc0, alloc, open, nextOpen, level, rise, slack);
    assert rise * weightSum == remaining;
    higher := level + rise;
  }

  lemma OpenWeighs(targets: seq<Target>, alloc: seq<real>, open: seq<nat>, level: real, slack: real)
    requires Standing(targets, alloc, open, level, slack) && open != []
    ensures (forall j :: 0 <= j < |open| ==> open[j] < |targets|) && WeightSum(targets, open) > 0.0
  {
    WeightSumPositive(targets, open);
  }

  lemma SpentNothing(targets: seq<Target>, open: seq<nat>, rise: real)
    requires forall x :: 0 <= x < |open| ==> open[x] < |targets|
    ensures Spent(targets, open, rise, 0.0, 0, 0)
  {
  }

  lemma WeightSumNext(targets: seq<Target>, open: seq<nat>, j: nat, rise: real)
    requires j < |open| && forall x :: 0 <= x < |open| ==> open[x] < |targets|
    ensures WeightSum(targets, open[..j + 1]) == WeightSum(targets, open[..j]) + targets[open[j]].1
    ensures rise * WeightSum(targets, open[..j + 1]) == rise * WeightSum(targets, open[..j]) + rise * targets[open[j]].1
  {
    assert open[..j + 1][..j] == open[..j];
  }

  /** One common level gives everybody theirs, but for the slack, and either the pot is spent or every need is met, but for
      the slack. Without slack that is the level exactly, and the sum is the smaller of the pot and the needs. */
  method Waterfill(targets: seq<Target>, total: real, slack: real) returns (alloc: seq<real>)
    requires slack >= 0.0
    ensures total <= 0.0 ==> alloc == AtLevel(targets, 0.0)
    ensures total > 0.0 ==>
      && (exists level :: level >= 0.0 && Near(targets, alloc, level, slack))
      && RealSum(alloc) <= total && (RealSum(alloc) == total || Satisfied(targets, alloc, slack))
    ensures total > 0.0 && slack == 0.0 ==>
      (exists level :: level >= 0.0 && alloc == AtLevel(targets, level)) && RealSum(alloc) == Min(total, Needs(targets))
  {
    hide Standing, AtLevel, RealSum, Needs, Near, Satisfied;
    var n := |targets|;
    alloc := seq(n, _ => 0.0);
    AtZero(targets, alloc);
    if n == 0 || total <= 0.0 {
      NoTargets(targets, alloc, slack);
      return;
    }
    var remaining := total;
    var open := EligibleIndices(targets, n);
    ghost var level := 0.0;
    StartStands(targets, alloc, open, slack);
    RealSumZeros(alloc);
    for round := 0 to n
      invariant Standing(targets, alloc, open, level, slack)
      invariant |open| + round <= n
      invariant remaining == total - RealSum(alloc) && remaining >= 0.0
    {
      if open == [] || remaining <= 0.0 {
        break;
      }
      var nextOpen, spent;
      ghost var higher;
      alloc, nextOpen, spent, higher := Round(targets, alloc, open, remaining, slack, level);
      remaining := remaining - spent;
      level := higher;
      if |nextOpen| == |open| {
        open := nextOpen;
        break;
      }
      open := nextOpen;
    }
    StandingIsLevel(targets, alloc, open, level, slack);
    BelowNeeds(targets, level);
    if open == [] {
      AllMet(targets, alloc, open, level, slack);
    }
    if slack == 0.0 {
      NearExactly(targets, alloc, level);
      if Satisfied(targets, alloc, slack) {
        SatisfiedExactly(targets, alloc, level);
      }
    }
  }

  lemma AtZero(targets: seq<Target>, alloc: seq<real>)
    requires |alloc| == |targets| && forall i :: 0 <= i < |alloc| ==> alloc[i] == 0.0
    ensures alloc == AtLevel(targets, 0.0)
  {
  }

  lemma NoTargets(targets: seq<Target>, alloc: seq<real>, slack: real)
    requires slack >= 0.0 && |alloc| == |targets|
    ensures targets == [] ==>
      && Needs(targets) == 0.0 && RealSum(alloc) == 0.0 && alloc == AtLevel(targets, 0.0)
      && Near(targets, alloc, 0.0, slack) && Satisfied(targets, alloc, slack)
  {
  }

  lemma StartStands(targets: seq<Target>, alloc: seq<real>, open: seq<nat>, slack: real)
    requires |alloc| == |targets| && forall i :: 0 <= i < |alloc| ==> alloc[i] == 0.0
    requires open == EligibleIndices(targets, |targets|) && slack >= 0.0
    ensures Standing(targets, alloc, open, 0.0, slack)
  {
  }

  // Minor units: integer needs and an integer pot, each round's share floored.

  type MinorTarget = (nat, real)

  function NatSum(s: seq<nat>): nat {
    if s == [] then 0 else NatSum(s[..|s| - 1]) + s[|s| - 1]
  }

  lemma {:induction false} NatSumUpdate(s: seq<nat>, i: nat, x: nat)
    requires i < |s|
    ensures NatSum(s[i := x]) == NatSum(s) - s[i] + x
    decreases |s|
  {
    var t := s[i := x];
    if i == |s| - 1 {
      assert t[..|s| - 1] == s[..|s| - 1];
    } else {
      assert t[..|s| - 1] == s[..|s| - 1][i := x];
      NatSumUpdate(s[..|s| - 1], i, x);
    }
  }

  lemma {:induction false} NatSumZeros(s: seq<nat>)
    requires forall i :: 0 <= i < |s| ==> s[i] == 0
    ensures NatSum(s) == 0
    decreases |s|
  {
    if s != [] {
      NatSumZeros(s[..|s| - 1]);
    }
  }

  predicate EligibleMinor(t: MinorTarget) {
    t.0 > 0 && t.1 > 0.0
  }

  /** The eligible targets an allocation leaves short. */
  function Short(targets: seq<MinorTarget>, alloc: seq<nat>): set<nat>
    requires |alloc| == |targets|
  {
    set i: nat | i < |targets| && EligibleMinor(targets[i]) && alloc[i] < targets[i].0
  }

  /** Nobody gets more than their need, and the ineligible get nothing. */
  ghost predicate Clamped(targets: seq<MinorTarget>, alloc: seq<nat>) {
    && |alloc| == |targets|
    && forall i :: 0 <= i < |targets| ==> alloc[i] <= if EligibleMinor(targets[i]) then targets[i].0 else 0
  }

  /** `open` lists, once each, the eligible targets the allocation leaves short. */
  ghost predicate Lists(targets: seq<MinorTarget>, alloc: seq<nat>, open: seq<nat>) {
    && |alloc| == |targets|
    && (forall i, j :: 0 <= i < j < |open| ==> open[i] < open[j])
    && (forall i :: i in open <==> i in Short(targets, alloc))
  }

  lemma {:induction false} AscendingSize(open: seq<nat>, s: set<nat>)
    requires forall i, j :: 0 <= i < j < |open| ==> open[i] < open[j]
    requires forall i :: i in open <==> i in s
    ensures |s| == |open|
    decreases |open|
  {
    if open != [] {
      var last := open[|open| - 1];
      assert open == open[..|open| - 1] + [last];
      AscendingSize(open[..|open| - 1], s - {last});
    } else {
      assert s == {};
    }
  }

  ghost predicate Weighted(targets: seq<MinorTarget>, open: seq<nat>) {
    forall j :: 0 <= j < |open| ==> open[j] < |targets| && targets[open[j]].1 > 0.0
  }

  function WeightOf(targets: seq<MinorTarget>, open: seq<nat>): real
    requires Weighted(targets, open)
  {
    if open == [] then 0.0 else WeightOf(targets, open[..|open| - 1]) + targets[open[|open| - 1]].1
  }

  lemma WeightedPart(targets: seq<MinorTarget>, open: seq<nat>, j: nat)
    requires Weighted(targets, open) && j <= |open|
    ensures Weighted(targets, open[..j])
    ensures j < |open| ==> open[j] < |targets| && targets[open[j]].1 > 0.0
  {
  }

  lemma WeightNext(targets: seq<MinorTarget>, open: seq<nat>, j: nat)
    requires Weighted(targets, open) && j < |open|
    ensures open[j] < |targets| && targets[open[j]].1 > 0.0
    ensures Weighted(targets, open[..j]) && Weighted(targets, open[..j + 1])
    ensures WeightOf(targets, open[..j + 1]) == WeightOf(targets, open[..j]) + targets[open[j]].1
  {
    WeightedPart(targets, open, j);
    WeightedPart(targets, open, j + 1);
    assert open[..j + 1][..j] == open[..j];
  }

  lemma {:induction false} WeightGrows(targets: seq<MinorTarget>, open: seq<nat>, j: nat)
    requires Weighted(targets, open) && j <= |open|
    ensures Weighted(targets, open[..j])
    ensures 0.0 <= WeightOf(targets, open[..j]) <= WeightOf(targets, open)
    ensures j > 0 ==> WeightOf(targets, open[..j]) > 0.0
    ensures j == 0 ==> WeightOf(targets, open[..j]) == 0.0
    decreases |open|, |open| - j
  {
    hide Weighted;
    WeightedPart(targets, open, j);
    if j < |open| {
      WeightGrows(targets, open, j + 1);
      WeightNext(targets, open, j);
      if j == 0 {
        NoWeight(targets, open);
      } else {
        WeightGrows(targets, open[..j], j);
        assert open[..j][..j] == open[..j];
      }
    } else if j > 0 {
      assert open[..j] == open;
      WeightNext(targets, open, j - 1);
      WeightGrows(targets, open[..j - 1], j - 1);
      assert open[..j - 1][..j - 1] == open[..j - 1];
    } else {
      NoWeight(targets, open);
    }
  }

  function FlooredShare(remaining: nat, weight: real, weightSum: real): nat
    requires weightSum > 0.0 && weight > 0.0
  {
    ShareNotNegative(remaining, weight, weightSum);
    Share(remaining as real, weight, weightSum).Floor
  }

  lemma ShareNotNegative(remaining: nat, weight: real, weightSum: real)
    requires weightSum > 0.0 && weight > 0.0
    ensures Share(remaining as real, weight, weightSum) >= 0.0
  {
    ShareIsRise(remaining as real, weight, weightSum);
    var rise := remaining as real / weightSum;
    assert rise * weightSum == remaining as real;
    assert rise >= 0.0;
  }

  /** What a round of floored shares has spent after j targets; `kept` of those j are still short. */
  ghost predicate FlooredSpent(targets: seq<MinorTarget>, open: seq<nat>, remaining: nat, spent: nat, kept: nat, j: nat)
    requires Weighted(targets, open) && j <= |open|
  {
    var weightSum := WeightOf(targets, open);
    && weightSum > 0.0
    && kept <= j
    && spent as real <= Share(remaining as real, WeightOf(targets, open[..j]), weightSum)
    && (kept == j > 0 ==> spent as real > Share(remaining as real, WeightOf(targets, open[..j]), weightSum) - j as real)
  }

  lemma SharesAdd(remaining: nat, part: real, weight: real, weightSum: real)
    requires weightSum > 0.0
    ensures Share(remaining as real, part + weight, weightSum)
         == Share(remaining as real, part, weightSum) + Share(remaining as real, weight, weightSum)
  {
    ShareIsRise(remaining as real, part, weightSum);
    ShareIsRise(remaining as real, weight, weightSum);
    ShareIsRise(remaining as real, part + weight, weightSum);
    var rise := remaining as real / weightSum;
    assert rise * (part + weight) == rise * part + rise * weight;
  }

  lemma ShareWithin(remaining: nat, part: real, weightSum: real)
    requires weightSum > 0.0 && part <= weightSum
    ensures Share(remaining as real, part, weightSum) <= remaining as real
    ensures Share(remaining as real, weightSum, weightSum) == remaining as real
    ensures Share(remaining as real, 0.0, weightSum) == 0.0
  {
    ShareIsRise(remaining as real, part, weightSum);
    ShareIsRise(remaining as real, weightSum, weightSum);
    var rise := remaining as real / weightSum;
    assert rise * weightSum == remaining as real && rise >= 0.0;
    assert rise * (weightSum - part) >= 0.0;
  }

  lemma FlooredNearShare(remaining: nat, weight: real, weightSum: real)
    requires weightSum > 0.0 && weight > 0.0
    ensures FlooredShare(remaining, weight, weightSum) as real <= Share(remaining as real, weight, weightSum)
    ensures Share(remaining as real, weight, weightSum) < FlooredShare(remaining, weight, weightSum) as real + 1.0
  {
    var share := Share(remaining as real, weight, weightSum);
    assert share.Floor as real <= share < share.Floor as real + 1.0;
  }

  /** The third clamp, what remains of the pot, never binds: floors sum to at most the pot. */
  lemma PotNeverBinds(targets: seq<MinorTarget>, open: seq<nat>, remaining: nat, spent: nat, kept: nat, j: nat)
    requires Weighted(targets, open) && j < |open| && FlooredSpent(targets, open, remaining, spent, kept, j)
    ensures open[j] < |targets| && targets[open[j]].1 > 0.0 && WeightOf(targets, open) > 0.0
    ensures spent + FlooredShare(remaining, targets[open[j]].1, WeightOf(targets, open)) <= remaining
  {
    hide WeightOf, FlooredShare, Share, Weighted;
    WeightNext(targets, open, j);
    WeightGrows(targets, open, j + 1);
    var weightSum := WeightOf(targets, open);
    SharesAdd(remaining, WeightOf(targets, open[..j]), targets[open[j]].1, weightSum);
    ShareWithin(remaining, WeightOf(targets, open[..j + 1]), weightSum);
    FlooredNearShare(remaining, targets[open[j]].1, weightSum);
  }

  lemma FlooredSpendOne(targets: seq<MinorTarget>, open: seq<nat>, remaining: nat, spent: nat, kept: nat, j: nat,
                        take: nat, met: bool)
    requires Weighted(targets, open) && j < |open| && FlooredSpent(targets, open, remaining, spent, kept, j)
    requires open[j] < |targets| && targets[open[j]].1 > 0.0 && WeightOf(targets, open) > 0.0
    requires take <= FlooredShare(remaining, targets[open[j]].1, WeightOf(targets, open))
    requires !met ==> take == FlooredShare(remaining, targets[open[j]].1, WeightOf(targets, open))
    ensures FlooredSpent(targets, open, remaining, spent + take, if met then kept else kept + 1, j + 1)
  {
    hide WeightOf, FlooredShare, Share, Weighted;
    WeightNext(targets, open, j);
    NoWeight(targets, open);
    var weightSum := WeightOf(targets, open);
    ShareWithin(remaining, 0.0, weightSum);
    SharesAdd(remaining, WeightOf(targets, open[..j]), targets[open[j]].1, weightSum);
    FlooredNearShare(remaining, targets[open[j]].1, weightSum);
    FloorsAdd(spent, take, FlooredShare(remaining, targets[open[j]].1, weightSum), kept, j, met,
              Share(remaining as real, WeightOf(targets, open[..j]), weightSum),
              Share(remaining as real, targets[open[j]].1, weightSum));
  }

  /** A floored share more: still at most the shares so far, and within a unit a target of them while nobody is met. */
  lemma FloorsAdd(spent: nat, take: nat, floored: nat, kept: nat, j: nat, met: bool, before: real, share: real)
    requires floored as real <= share < floored as real + 1.0
    requires take <= floored && (!met ==> take == floored)
    requires kept <= j && spent as real <= before && (j == 0 ==> before == 0.0)
    requires kept == j > 0 ==> spent as real > before - j as real
    ensures (spent + take) as real <= before + share
    ensures !met && kept == j ==> (spent + take) as real > before + share - (j + 1) as real
  {
  }

  lemma NoWeight(targets: seq<MinorTarget>, open: seq<nat>)
    requires Weighted(targets, open)
    ensures Weighted(targets, open[..0]) && WeightOf(targets, open[..0]) == 0.0
  {
  }

  lemma FlooredSpentAll(targets: seq<MinorTarget>, open: seq<nat>, remaining: nat, spent: nat, kept: nat)
    requires Weighted(targets, open) && open != [] && FlooredSpent(targets, open, remaining, spent, kept, |open|)
    ensures kept <= |open| && spent <= remaining
    ensures kept == |open| ==> remaining - spent < |open|
  {
    hide WeightOf, Share;
    assert open[..|open|] == open;
    ShareWithin(remaining, WeightOf(targets, open), WeightOf(targets, open));
  }

  lemma FlooredSpentNothing(targets: seq<MinorTarget>, open: seq<nat>, remaining: nat)
    requires Weighted(targets, open) && open != []
    ensures FlooredSpent(targets, open, remaining, 0, 0, 0)
  {
    WeightGrows(targets, open, |open|);
    assert open[..|open|] == open && open[..0] == [];
    ShareWithin(remaining, 0.0, WeightOf(targets, open));
  }

  /** Mid-round: targets from j on are as they were; `nextOpen` lists those of the first j still short. */
  ghost predicate Handing(targets: seq<MinorTarget>, alloc: seq<nat>, open: seq<nat>, nextOpen: seq<nat>, j: nat) {
    && Clamped(targets, alloc) && j <= |open|
    && (forall a, b :: 0 <= a < b < |open| ==> open[a] < open[b])
    && (forall a, b :: 0 <= a < b < |nextOpen| ==> nextOpen[a] < nextOpen[b])
    && (forall i :: i in nextOpen <==> i in open[..j] && i in Short(targets, alloc))
    && (forall i :: i in open[j..] ==> i in Short(targets, alloc))
    && (forall i :: i in Short(targets, alloc) ==> i in open)
  }

  lemma HandOne(targets: seq<MinorTarget>, alloc: seq<nat>, open: seq<nat>, nextOpen: seq<nat>, j: nat, x: nat)
    requires Handing(targets, alloc, open, nextOpen, j) && j < |open|
    ensures open[j] < |targets| == |alloc| && alloc[open[j]] < targets[open[j]].0
    ensures x <= targets[open[j]].0 ==>
      Handing(targets, alloc[open[j] := x], open, if x < targets[open[j]].0 then nextOpen + [open[j]] else nextOpen, j + 1)
  {
    var i := open[j];
    assert i in open[j..];
    PrefixGrows(open, j);
    if x <= targets[i].0 {
      var alloc1 := alloc[i := x];
      var nextOpen1 := if x < targets[i].0 then nextOpen + [i] else nextOpen;
      assert forall k :: k != i ==> (k in Short(targets, alloc1) <==> k in Short(targets, alloc));
      forall k | k in open[j + 1..] ensures k in Short(targets, alloc1) {
        assert k in open[j..] && k > i;
      }
      forall a, b | 0 <= a < b < |nextOpen1| ensures nextOpen1[a] < nextOpen1[b] {
        assert nextOpen1[a] in nextOpen;
      }
    }
  }

  lemma HandStarts(targets: seq<MinorTarget>, alloc: seq<nat>, open: seq<nat>)
    requires Clamped(targets, alloc) && Lists(targets, alloc, open)
    ensures Handing(targets, alloc, open, [], 0) && Weighted(targets, open)
  {
    forall j | 0 <= j < |open| ensures open[j] < |targets| && targets[open[j]].1 > 0.0 {
      assert open[j] in open;
    }
  }

  lemma HandEnds(targets: seq<MinorTarget>, alloc: seq<nat>, open: seq<nat>, nextOpen: seq<nat>)
    requires Handing(targets, alloc, open, nextOpen, |open|)
    ensures Clamped(targets, alloc) && Lists(targets, alloc, nextOpen)
  {
    assert open[..|open|] == open;
  }

  /** Shares that come out as the exact ones floored. */
  ghost predicate Floors(shareOf: (nat, real, real) -> nat) {
    forall remaining: nat, weight: real, weightSum: real {:trigger shareOf(remaining, weight, weightSum)} ::
      weightSum > 0.0 && weight > 0.0 ==> shareOf(remaining, weight, weightSum) == FlooredShare(remaining, weight, weightSum)
  }

  /** Where a round of floored shares leaves everybody once the first j open targets had theirs. */
  ghost predicate Poured(targets: seq<MinorTarget>, alloc0: seq<nat>, alloc: seq<nat>, open: seq<nat>, remaining: nat,
                         weightSum: real, j: nat) {
    && |alloc| == |alloc0| == |targets| && weightSum > 0.0 && j <= |open|
    && forall i :: 0 <= i < |targets| ==>
         alloc[i] == if i in open[..j] && targets[i].1 > 0.0
                     then Lesser(alloc0[i] + FlooredShare(remaining, targets[i].1, weightSum), targets[i].0)
                     else alloc0[i]
  }

  lemma PouredNext(targets: seq<MinorTarget>, alloc0: seq<nat>, alloc: seq<nat>, open: seq<nat>, remaining: nat,
                   weightSum: real, j: nat)
    requires Poured(targets, alloc0, alloc, open, remaining, weightSum, j) && j < |open| && open[j] < |targets|
    requires (forall a, b :: 0 <= a < b < |open| ==> open[a] < open[b]) && targets[open[j]].1 > 0.0
    requires alloc[open[j]] <= targets[open[j]].0
    ensures var i := open[j];
      Poured(targets, alloc0,
             alloc[i := alloc[i] + Lesser(FlooredShare(remaining, targets[i].1, weightSum), targets[i].0 - alloc[i])],
             open, remaining, weightSum, j + 1)
  {
    hide FlooredShare;
    PrefixGrows(open, j);
  }

  lemma PouredNone(targets: seq<MinorTarget>, alloc: seq<nat>, open: seq<nat>, remaining: nat, weightSum: real)
    requires Clamped(targets, alloc)
    ensures weightSum > 0.0 ==> Poured(targets, alloc, alloc, open, remaining, weightSum, 0)
  {
  }

  lemma HandingOrder(targets: seq<MinorTarget>, alloc: seq<nat>, open: seq<nat>, nextOpen: seq<nat>, j: nat)
    requires Handing(targets, alloc, open, nextOpen, j)
    ensures forall a, b :: 0 <= a < b < |open| ==> open[a] < open[b]
  {
  }

  /** One round, however its shares come out: clamped at the need and at the pot. With floored shares every open target gets
      its own, or its room. */
  method RoundMinor(targets: seq<MinorTarget>, alloc0: seq<nat>, open: seq<nat>, remaining: nat,
                    shareOf: (nat, real, real) -> nat)
      returns (alloc: seq<nat>, nextOpen: seq<nat>, spent: nat)
    requires Clamped(targets, alloc0) && Lists(targets, alloc0, open) && open != []
    ensures Clamped(targets, alloc) && Lists(targets, alloc, nextOpen)
    ensures |nextOpen| <= |open| && NatSum(alloc) == NatSum(alloc0) + spent && spent <= remaining
    ensures Floors(shareOf) && |nextOpen| == |open| ==> remaining - spent < |open|
    ensures Weighted(targets, open)
    ensures Floors(shareOf) ==> Poured(targets, alloc0, alloc, open, remaining, WeightOf(targets, open), |open|)
  {
    hide Poured, Handing, FlooredSpent, Clamped, Lists, WeightOf, NatSum, FlooredShare;
    HandStarts(targets, alloc0, open);
    FlooredSpentNothing(targets, open, remaining);
    alloc, nextOpen, spent := alloc0, [], 0;
    var weightSum := WeightOf(targets, open);
    PouredNone(targets, alloc0, open, remaining, weightSum);
    for j := 0 to |open|
      invariant Floors(shareOf) ==> Poured(targets, alloc0, alloc, open, remaining, weightSum, j)
      invariant Handing(targets, alloc, open, nextOpen, j)
      invariant NatSum(alloc) == NatSum(alloc0) + spent && spent <= remaining
      invariant |nextOpen| <= j
      invariant Floors(shareOf) ==> FlooredSpent(targets, open, remaining, spent, |nextOpen|, j)
    {
      var i := open[j];
      if Floors(shareOf) {
        PotNeverBinds(targets, open, remaining, spent, |nextOpen|, j);
      }
      var share := shareOf(remaining, targets[i].1, weightSum);
      HandOne(targets, alloc, open, nextOpen, j, 0);
      var room := targets[i].0 - alloc[i];
      var take := Lesser(Lesser(share, room), remaining - spent);
      if Floors(shareOf) {
        HandingOrder(targets, alloc, open, nextOpen, j);
        PouredNext(targets, alloc0, alloc, open, remaining, weightSum, j);
      }
      HandOne(targets, alloc, open, nextOpen, j, alloc[i] + take);
      NatSumUpdate(alloc, i, alloc[i] + take);
      alloc := alloc[i := alloc[i] + take];
      if Floors(shareOf) {
        FlooredSpendOne(targets, open, remaining, spent, |nextOpen|, j, take, !(alloc[i] < targets[i].0));
      }
      spent := spent + take;
      if alloc[i] < targets[i].0 {
        nextOpen := nextOpen + [i];
      }
    }
    HandEnds(targets, alloc, open, nextOpen);
    if Floors(shareOf) {
      FlooredSpentAll(targets, open, remaining, spent, |nextOpen|);
    }
  }

  // ------------------------------------------------------- the level up to the floors --

  /** After some rounds: nobody above the level; the open less than a unit a round below it, the others so far below the
      lesser of it and their need; and among the open, more weight never has less. */
  ghost predicate Levelled(targets: seq<MinorTarget>, alloc: seq<nat>, open: seq<nat>, level: real, rounds: nat) {
    && |alloc| == |targets| && level >= 0.0
    && (forall i :: 0 <= i < |targets| && EligibleMinor(targets[i]) ==>
          LevelledAt(targets[i], alloc[i], i in open, level, rounds))
    && (forall i, j :: i in open && j in open && i < |targets| && j < |targets| && targets[i].1 <= targets[j].1 ==>
          alloc[i] <= alloc[j])
  }

  ghost predicate LevelledAt(t: MinorTarget, a: nat, open: bool, level: real, rounds: nat) {
    && a as real <= level * t.1
    && a as real >= (if open then level * t.1 else Min(t.0 as real, level * t.1)) - rounds as real
    && (rounds > 0 ==> a as real > (if open then level * t.1 else Min(t.0 as real, level * t.1)) - rounds as real)
  }

  /** One floored share more, or the room that was left. */
  lemma LevelledUp(t: MinorTarget, a: nat, fs: nat, level: real, rise: real, rounds: nat)
    requires LevelledAt(t, a, true, level, rounds) && fs as real <= rise * t.1 < fs as real + 1.0 && a <= t.0
    ensures a + fs < t.0 ==> LevelledAt(t, a + fs, true, level + rise, rounds + 1)
    ensures a + fs >= t.0 ==> LevelledAt(t, t.0, false, level + rise, rounds + 1)
  {
    assert (level + rise) * t.1 == level * t.1 + rise * t.1;
  }

  /** Who is met stays where they are, below the higher level. */
  lemma LevelledMet(t: MinorTarget, level: real, rise: real, rounds: nat)
    requires LevelledAt(t, t.0, false, level, rounds) && rise >= 0.0 && t.1 > 0.0
    ensures LevelledAt(t, t.0, false, level + rise, rounds + 1)
  {
    assert (level + rise) * t.1 == level * t.1 + rise * t.1;
    assert rise * t.1 >= 0.0;
  }

  lemma FloorsMonotone(remaining: nat, v: real, w: real, weightSum: real)
    requires 0.0 < v <= w && weightSum > 0.0
    ensures FlooredShare(remaining, v, weightSum) <= FlooredShare(remaining, w, weightSum)
  {
    hide FlooredShare, Share;
    FlooredNearShare(remaining, v, weightSum);
    FlooredNearShare(remaining, w, weightSum);
    ShareGrows(remaining, v, w, weightSum);
  }

  lemma ShareGrows(remaining: nat, v: real, w: real, weightSum: real)
    requires 0.0 < v <= w && weightSum > 0.0
    ensures Share(remaining as real, v, weightSum) <= Share(remaining as real, w, weightSum)
  {
    ShareIsRise(remaining as real, v, weightSum);
    ShareIsRise(remaining as real, w, weightSum);
    var rise := remaining as real / weightSum;
    assert rise * weightSum == remaining as real && rise >= 0.0;
    assert rise * (w - v) >= 0.0;
    assert rise * w == rise * v + rise * (w - v);
  }

  /** Clamped and not short is met. */
  lemma MetOrOpen(targets: seq<MinorTarget>, alloc: seq<nat>, open: seq<nat>, i: nat)
    requires Clamped(targets, alloc) && Lists(targets, alloc, open) && i < |targets| && EligibleMinor(targets[i])
    ensures alloc[i] <= targets[i].0 && (i in open <==> alloc[i] < targets[i].0)
  {
  }

  lemma RiseNear(remaining: nat, weight: real, weightSum: real)
    requires weightSum > 0.0 && weight > 0.0
    ensures var rise := remaining as real / weightSum; var fs := FlooredShare(remaining, weight, weightSum);
      rise >= 0.0 && fs as real <= rise * weight < fs as real + 1.0
  {
    hide FlooredShare;
    FlooredNearShare(remaining, weight, weightSum);
    ShareIsRise(remaining as real, weight, weightSum);
    var rise := remaining as real / weightSum;
    assert rise * weightSum == remaining as real;
  }

  lemma PouredAt(targets: seq<MinorTarget>, alloc0: seq<nat>, alloc: seq<nat>, open: seq<nat>, remaining: nat, weightSum: real, i: nat)
    requires Poured(targets, alloc0, alloc, open, remaining, weightSum, |open|) && i < |targets|
    ensures |alloc| == |alloc0| == |targets| && weightSum > 0.0
    ensures alloc[i] == if i in open && targets[i].1 > 0.0
                        then Lesser(alloc0[i] + FlooredShare(remaining, targets[i].1, weightSum), targets[i].0)
                        else alloc0[i]
  {
    hide FlooredShare;
    assert open[..|open|] == open;
  }

  /** One target through one round. */
  lemma RoundLevelsAt(targets: seq<MinorTarget>, alloc0: seq<nat>, alloc: seq<nat>, open: seq<nat>, nextOpen: seq<nat>,
                      remaining: nat, weightSum: real, level: real, rounds: nat, i: nat)
    requires Clamped(targets, alloc0) && Lists(targets, alloc0, open) && Clamped(targets, alloc) && Lists(targets, alloc, nextOpen)
    requires Poured(targets, alloc0, alloc, open, remaining, weightSum, |open|) && weightSum > 0.0
    requires i < |targets| && EligibleMinor(targets[i]) && |alloc0| == |targets| == |alloc|
    requires LevelledAt(targets[i], alloc0[i], i in open, level, rounds)
    ensures LevelledAt(targets[i], alloc[i], i in nextOpen, level + remaining as real / weightSum, rounds + 1)
  {
    hide FlooredShare, LevelledAt, Clamped, Lists, Poured;
    PouredAt(targets, alloc0, alloc, open, remaining, weightSum, i);
    MetOrOpen(targets, alloc0, open, i);
    MetOrOpen(targets, alloc, nextOpen, i);
    RiseNear(remaining, targets[i].1, weightSum);
    var rise := remaining as real / weightSum;
    if i in open {
      LevelledUp(targets[i], alloc0[i], FlooredShare(remaining, targets[i].1, weightSum), level, rise, rounds);
    } else {
      LevelledMet(targets[i], level, rise, rounds);
    }
  }

  /** A round lifts the level by its rise. */
  lemma RoundLevels(targets: seq<MinorTarget>, alloc0: seq<nat>, alloc: seq<nat>, open: seq<nat>, nextOpen: seq<nat>,
                    remaining: nat, weightSum: real, level: real, rounds: nat)
    requires Clamped(targets, alloc0) && Lists(targets, alloc0, open) && Clamped(targets, alloc) && Lists(targets, alloc, nextOpen)
    requires Poured(targets, alloc0, alloc, open, remaining, weightSum, |open|) && weightSum > 0.0
    requires Levelled(targets, alloc0, open, level, rounds)
    ensures Levelled(targets, alloc, nextOpen, level + remaining as real / weightSum, rounds + 1)
  {
    hide FlooredShare, LevelledAt, Clamped, Poured, Min;
    var rise := remaining as real / weightSum;
    assert rise * weightSum == remaining as real;
    forall i | 0 <= i < |targets| && EligibleMinor(targets[i])
      ensures LevelledAt(targets[i], alloc[i], i in nextOpen, level + rise, rounds + 1)
    {
      RoundLevelsAt(targets, alloc0, alloc, open, nextOpen, remaining, weightSum, level, rounds, i);
    }
    forall i, j | i in nextOpen && j in nextOpen && i < |targets| && j < |targets| && targets[i].1 <= targets[j].1
      ensures alloc[i] <= alloc[j]
    {
      StillOpen(targets, alloc0, alloc, open, nextOpen, remaining, weightSum, i);
      StillOpen(targets, alloc0, alloc, open, nextOpen, remaining, weightSum, j);
      FloorsMonotone(remaining, targets[i].1, targets[j].1, weightSum);
    }
  }

  lemma StillOpen(targets: seq<MinorTarget>, alloc0: seq<nat>, alloc: seq<nat>, open: seq<nat>, nextOpen: seq<nat>,
                  remaining: nat, weightSum: real, i: nat)
    requires Clamped(targets, alloc0) && Lists(targets, alloc0, open) && Clamped(targets, alloc) && Lists(targets, alloc, nextOpen)
    requires Poured(targets, alloc0, alloc, open, remaining, weightSum, |open|) && i in nextOpen && i < |targets|
    ensures i in open && targets[i].1 > 0.0 && |alloc| == |alloc0| == |targets| && weightSum > 0.0
    ensures alloc[i] == alloc0[i] + FlooredShare(remaining, targets[i].1, weightSum)
  {
    hide FlooredShare, Clamped, Poured;
    PouredAt(targets, alloc0, alloc, open, remaining, weightSum, i);
    assert i in Short(targets, alloc);
    MetOrOpen(targets, alloc0, open, i);
    MetOrOpen(targets, alloc, nextOpen, i);
  }

  /** One level for everybody, up to the floors: nobody above it, and nobody a unit a target below the lesser of it and
      their need. */
  ghost predicate NearLevel(targets: seq<MinorTarget>, alloc: seq<nat>, level: real) {
    && |alloc| == |targets| && level >= 0.0
    && forall i :: 0 <= i < |targets| && EligibleMinor(targets[i]) ==>
         && alloc[i] as real <= level * targets[i].1
         && alloc[i] as real > Min(targets[i].0 as real, level * targets[i].1) - |targets| as real
  }

  /** Of two left short, the one of more weight has no less; of equal weight, the same. */
  ghost predicate WeightOrdered(targets: seq<MinorTarget>, alloc: seq<nat>)
    requires |alloc| == |targets|
  {
    forall i, j :: i in Short(targets, alloc) && j in Short(targets, alloc) && targets[i].1 <= targets[j].1 ==>
      alloc[i] <= alloc[j] && (targets[i].1 == targets[j].1 ==> alloc[i] == alloc[j])
  }

  lemma LevelledEnds(targets: seq<MinorTarget>, alloc: seq<nat>, open: seq<nat>, level: real, rounds: nat)
    requires Levelled(targets, alloc, open, level, rounds) && Lists(targets, alloc, open) && rounds <= |targets|
    ensures NearLevel(targets, alloc, level) && WeightOrdered(targets, alloc)
  {
    forall i | 0 <= i < |targets| && EligibleMinor(targets[i])
      ensures alloc[i] as real <= level * targets[i].1
      ensures alloc[i] as real > Min(targets[i].0 as real, level * targets[i].1) - |targets| as real
    {
      assert LevelledAt(targets[i], alloc[i], i in open, level, rounds);
    }
  }

  lemma LevelledStarts(targets: seq<MinorTarget>, alloc: seq<nat>, open: seq<nat>)
    requires |alloc| == |targets| && forall i :: 0 <= i < |alloc| ==> alloc[i] == 0
    ensures Levelled(targets, alloc, open, 0.0, 0)
  {
  }

  function EligibleMinorIndices(targets: seq<MinorTarget>, k: nat): (open: seq<nat>)
    requires k <= |targets|
    ensures |open| <= k
    ensures forall i, j :: 0 <= i < j < |open| ==> open[i] < open[j]
    ensures forall j :: 0 <= j < |open| ==> open[j] < k && EligibleMinor(targets[open[j]])
    ensures forall i :: 0 <= i < k && EligibleMinor(targets[i]) ==> i in open
  {
    if k == 0 then [] else
      EligibleMinorIndices(targets, k - 1) + if EligibleMinor(targets[k - 1]) then [k - 1] else []
  }

  lemma MinorStarts(targets: seq<MinorTarget>, alloc: seq<nat>)
    requires |alloc| == |targets| && forall i :: 0 <= i < |alloc| ==> alloc[i] == 0
    ensures Clamped(targets, alloc) && Lists(targets, alloc, EligibleMinorIndices(targets, |targets|)) && NatSum(alloc) == 0
  {
    NatSumZeros(alloc);
  }

  /** However the shares come out, nobody gets more than their need and all together no more than the pot; where they come
      out floored and some eligible target is left short, the dust is less than how many are. */
  method WaterfillMinor(targets: seq<MinorTarget>, total: nat, shareOf: (nat, real, real) -> nat) returns (alloc: seq<nat>)
    ensures Clamped(targets, alloc)
    ensures |alloc| == |targets| && NatSum(alloc) <= total
    ensures Floors(shareOf) ==> Short(targets, alloc) == {} || total - NatSum(alloc) < |Short(targets, alloc)|
    ensures Floors(shareOf) ==> WeightOrdered(targets, alloc) && exists level :: NearLevel(targets, alloc, level)
  {
    hide Clamped, Lists, NatSum, Levelled, NearLevel, WeightOrdered, Poured, WeightOf, Weighted, Short;
    var n := |targets|;
    alloc := seq(n, _ => 0);
    MinorStarts(targets, alloc);
    LevelledStarts(targets, alloc, EligibleMinorIndices(targets, n));
    if n == 0 || total == 0 {
      ListsSize(targets, alloc, EligibleMinorIndices(targets, n));
      LevelledEnds(targets, alloc, EligibleMinorIndices(targets, n), 0.0, 0);
      return;
    }
    var remaining := total;
    var open: seq<nat> := EligibleMinorIndices(targets, n);
    ghost var level, rounds := 0.0, 0;
    for round := 0 to n
      invariant Floors(shareOf) ==> Levelled(targets, alloc, open, level, rounds)
      invariant rounds == round
      invariant Clamped(targets, alloc) && Lists(targets, alloc, open)
      invariant |open| + round <= n
      invariant remaining == total - NatSum(alloc)
    {
      if open == [] || remaining == 0 {
        break;
      }
      var nextOpen, spent;
      ghost var before := alloc;
      alloc, nextOpen, spent := RoundMinor(targets, alloc, open, remaining, shareOf);
      if Floors(shareOf) {
        PouredSum(targets, before, alloc, open, remaining, WeightOf(targets, open));
        RoundLevels(targets, before, alloc, open, nextOpen, remaining, WeightOf(targets, open), level, rounds);
        level := level + remaining as real / WeightOf(targets, open);
      }
      rounds := rounds + 1;
      remaining := remaining - spent;
      if |nextOpen| == |open| {
        open := nextOpen;
        break;
      }
      open := nextOpen;
    }
    ListsSize(targets, alloc, open);
    if Floors(shareOf) {
      LevelledEnds(targets, alloc, open, level, rounds);
    }
  }

  lemma PouredSum(targets: seq<MinorTarget>, alloc0: seq<nat>, alloc: seq<nat>, open: seq<nat>, remaining: nat, weightSum: real)
    requires Poured(targets, alloc0, alloc, open, remaining, weightSum, |open|)
    ensures weightSum > 0.0
  {
  }

  lemma ListsSize(targets: seq<MinorTarget>, alloc: seq<nat>, open: seq<nat>)
    requires Lists(targets, alloc, open)
    ensures |alloc| == |targets| && |Short(targets, alloc)| == |open|
    ensures open == [] ==> Short(targets, alloc) == {}
  {
    AscendingSize(open, Short(targets, alloc));
  }
}
