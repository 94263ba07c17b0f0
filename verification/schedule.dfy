/** Who has a day today: one budget of days over the whole run, longest waiting first. */
module Schedule {
  import opened Arithmetic
  import opened Wrappers
  import opened Sums
  import opened Ordered

  datatype Config = Config(turnBudget: nat, targetTicks: nat)

  /** The days used, and each person's last day. */
  datatype World = World(turnsUsed: nat, lastDay: seq<Option<nat>>)

  /** When a person last had a day, what they drew, and who they are. */
  type Keyed = (nat, nat, nat)

  predicate Before(a: Keyed, b: Keyed) {
    a.0 < b.0 || (a.0 == b.0 && (a.1 < b.1 || (a.1 == b.1 && a.2 < b.2)))
  }

  function Since(world: World, person: nat): nat
    requires person < |world.lastDay|
  {
    match world.lastDay[person]
    case Some(t) => t + 1
    case None => 0
  }

  function DivCeil(a: nat, b: nat): nat
    requires b > 0
  {
    (a + b - 1) / b
  }

  function DaysLeft(cfg: Config, tick: nat): (d: nat)
    ensures d >= 1
  {
    Minus(cfg.targetTicks, tick) + 1
  }

  /** Everybody listed is one of the world's people. */
  predicate Known(world: World, eligible: seq<nat>) {
    forall j :: 0 <= j < |eligible| ==> eligible[j] < |world.lastDay|
  }

  function Keys(world: World, eligible: seq<nat>, draws: nat -> nat): seq<Keyed>
    requires Known(world, eligible)
  {
    seq(|eligible|, j requires 0 <= j < |eligible| => (Since(world, eligible[j]), draws(j), eligible[j]))
  }

  function Persons(s: seq<Keyed>): seq<nat> {
    seq(|s|, j requires 0 <= j < |s| => s[j].2)
  }

  /** How many days today has. */
  function Share(cfg: Config, world: World, tick: nat, eligible: nat): nat {
    var n := DivCeil(Minus(cfg.turnBudget, world.turnsUsed), DaysLeft(cfg, tick));
    if n < eligible then n else eligible
  }

  function Today(cfg: Config, world: World, tick: nat, eligible: seq<nat>, draws: nat -> nat): seq<nat>
    requires Known(world, eligible)
  {
    if Minus(cfg.turnBudget, world.turnsUsed) == 0 then []
    else
      var keyed := SortedBy(Keys(world, eligible, draws), Before);
      var n := Share(cfg, world, tick, |eligible|);
      Persons(if n <= |keyed| then keyed[..n] else keyed)
  }

  // ----------------------------------------------------------------- the sort --

  /** Strictly ascending, nobody twice. */
  ghost predicate NamesInOrder(s: seq<Keyed>) {
    Sorted(s, Before) && forall i, j :: 0 <= i < j < |s| ==> s[i].2 != s[j].2
  }

  lemma KeysUntied(world: World, eligible: seq<nat>, draws: nat -> nat, i: nat)
    requires Known(world, eligible) && Distinct(eligible) && i < |eligible|
    ensures Untied(Keys(world, eligible, draws)[i], Keys(world, eligible, draws)[..i], Before)
  {
    var keys := Keys(world, eligible, draws);
    forall y | y in keys[..i] ensures keys[i].2 != y.2 {
      var j :| 0 <= j < i && keys[j] == y;
      assert eligible[j] != eligible[i];
    }
  }

  lemma BeforeTransitive()
    ensures Transitive(Before)
  {
  }

  /** Keys name each person once, so sorted keys do too. */
  lemma SortedNamesOnce(world: World, eligible: seq<nat>, draws: nat -> nat, keyed: seq<Keyed>)
    requires Known(world, eligible) && Distinct(eligible) && Sorted(keyed, Before)
    requires forall y :: y in keyed <==> y in Keys(world, eligible, draws)
    ensures NamesInOrder(keyed)
  {
    var keys := Keys(world, eligible, draws);
    forall i, j | 0 <= i < j < |keyed| ensures keyed[i].2 != keyed[j].2 {
      assert keyed[i] in keys && keyed[j] in keys && Before(keyed[i], keyed[j]);
      var a :| 0 <= a < |keys| && keys[a] == keyed[i];
      var b :| 0 <= b < |keys| && keys[b] == keyed[j];
      assert a != b;
      assert eligible[a] != eligible[b];
    }
  }

  /** The sorted keys: everybody eligible once, longest waiting first. */
  lemma SortedKeys(world: World, eligible: seq<nat>, draws: nat -> nat)
    requires Known(world, eligible) && Distinct(eligible)
    ensures var keyed := SortedBy(Keys(world, eligible, draws), Before);
      && |keyed| == |eligible| && NamesInOrder(keyed)
      && (forall j :: 0 <= j < |keyed| ==>
            keyed[j].2 in eligible && keyed[j].2 < |world.lastDay| && keyed[j].0 == Since(world, keyed[j].2))
      && (forall p :: p in eligible ==> exists j :: 0 <= j < |keyed| && keyed[j].2 == p)
  {
    hide SortedBy, Since, Before, NamesInOrder;
    var keys := Keys(world, eligible, draws);
    BeforeTransitive();
    forall i | 0 <= i < |keys| ensures Untied(keys[i], keys[..i], Before) {
      KeysUntied(world, eligible, draws, i);
    }
    SortSorts(keys, Before);
    var keyed := SortedBy(keys, Before);
    SortedNamesOnce(world, eligible, draws, keyed);
    forall j | 0 <= j < |keyed|
      ensures keyed[j].2 in eligible && keyed[j].2 < |world.lastDay| && keyed[j].0 == Since(world, keyed[j].2)
    {
      assert keyed[j] in keys;
    }
    forall p | p in eligible ensures exists j :: 0 <= j < |keyed| && keyed[j].2 == p {
      var i :| 0 <= i < |eligible| && eligible[i] == p;
      assert keys[i] in keyed;
    }
  }

  /** Today's list: as many as the share allows, each once, and nobody left out has waited longer than somebody in. */
  lemma TodayPicks(cfg: Config, world: World, tick: nat, eligible: seq<nat>, draws: nat -> nat)
    requires Known(world, eligible) && Distinct(eligible)
    ensures var picked := Today(cfg, world, tick, eligible, draws);
      && Distinct(picked)
      && |picked| == Share(cfg, world, tick, |eligible|)
      && |picked| <= Minus(cfg.turnBudget, world.turnsUsed)
      && (forall q :: q in picked ==> q in eligible)
      && (forall p, q :: q in picked && p in eligible && p !in picked ==> Since(world, q) <= Since(world, p))
  {
    hide SortedBy, Keys, Since, DivCeil, Minus, DaysLeft;
    CeilBounds(Minus(cfg.turnBudget, world.turnsUsed), DaysLeft(cfg, tick));
    SortedKeys(world, eligible, draws);
    var keyed := SortedBy(Keys(world, eligible, draws), Before);
    var picked := Today(cfg, world, tick, eligible, draws);
    FirstFew(keyed, Share(cfg, world, tick, |eligible|));
    forall p, q | q in picked && p in eligible && p !in picked ensures Since(world, q) <= Since(world, p) {
      var j :| 0 <= j < |keyed| && keyed[j].2 == p;
      var i :| 0 <= i < |keyed| && keyed[i].2 == q && (p in picked || keyed[i].0 <= keyed[j].0);
    }
  }

  /** The size of the day, in the budget's own terms: with days left to live and somebody to live them the list is not
      empty, and where anybody is left out it is the least that spends what is left in the days to the target. */
  lemma TodaySpends(cfg: Config, world: World, tick: nat, eligible: seq<nat>, draws: nat -> nat)
    requires Known(world, eligible) && Distinct(eligible)
    ensures var picked := Today(cfg, world, tick, eligible, draws);
      var left := if cfg.turnBudget > world.turnsUsed then cfg.turnBudget - world.turnsUsed else 0;
      var days := (if cfg.targetTicks > tick then cfg.targetTicks - tick else 0) + 1;
      && (left > 0 && eligible != [] ==> picked != [])
      && ((exists p :: p in eligible && p !in picked) ==> |picked| * days >= left && (left > 0 ==> (|picked| - 1) * days < left))
  {
    hide Today, DivCeil, Known, Distinct;
    var left := Minus(cfg.turnBudget, world.turnsUsed);
    var days := DaysLeft(cfg, tick);
    CeilBounds(left, days);
    TodayPicks(cfg, world, tick, eligible, draws);
    var picked := Today(cfg, world, tick, eligible, draws);
    if p :| p in eligible && p !in picked {
      LeftOut(eligible, picked, p);
    }
  }

  lemma LeftOut(eligible: seq<nat>, picked: seq<nat>, p: nat)
    requires Distinct(eligible) && Distinct(picked) && (forall q :: q in picked ==> q in eligible)
    requires p in eligible && p !in picked
    ensures |picked| < |eligible|
  {
    DistinctSize(eligible);
    DistinctSize(picked);
    StrictlyFewer(Elements(picked), Elements(eligible), p);
  }

  /** The i-th listed comes before the j-th: longer without a day, then the lower draw, then the lower number. */
  predicate Earlier(world: World, eligible: seq<nat>, draws: nat -> nat, i: nat, j: nat)
    requires Known(world, eligible) && i < |eligible| && j < |eligible|
  {
    var a, b := Since(world, eligible[i]), Since(world, eligible[j]);
    a < b || (a == b && (draws(i) < draws(j) || (draws(i) == draws(j) && eligible[i] < eligible[j])))
  }

  /** Whoever comes before somebody picked is picked, and stands before them. */
  lemma TodayInOrder(cfg: Config, world: World, tick: nat, eligible: seq<nat>, draws: nat -> nat, i: nat, j: nat)
    requires Known(world, eligible) && Distinct(eligible) && i < |eligible| && j < |eligible|
    requires Earlier(world, eligible, draws, i, j) && eligible[j] in Today(cfg, world, tick, eligible, draws)
    ensures var picked := Today(cfg, world, tick, eligible, draws);
      exists a, b :: 0 <= a < b < |picked| && picked[a] == eligible[i] && picked[b] == eligible[j]
  {
    hide SortedBy, Share, Since, NamesInOrder, Persons, Distinct;
    var keys := Keys(world, eligible, draws);
    var keyed := SortedBy(keys, Before);
    SortedKeys(world, eligible, draws);
    KeysSorted(world, eligible, draws);
    assert keys[i] in keyed && keys[j] in keyed;
    var n := Share(cfg, world, tick, |eligible|);
    NoneBelow(keyed[..0]);
    StandsBefore(keyed, keys[i], keys[j], if n <= |keyed| then n else |keyed|);
    assert keyed[..|keyed|] == keyed;
  }

  lemma NoneBelow(s: seq<Keyed>)
    ensures s == [] ==> Persons(s) == []
  {
  }

  lemma StandsAhead(keyed: seq<Keyed>, k: nat, m: nat)
    requires NamesInOrder(keyed) && k < |keyed| && m < |keyed| && Before(keyed[k], keyed[m])
    ensures k < m
  {
  }

  lemma StandsBefore(keyed: seq<Keyed>, x: Keyed, y: Keyed, n: nat)
    requires NamesInOrder(keyed) && x in keyed && y in keyed && Before(x, y) && n <= |keyed|
    requires y.2 in Persons(keyed[..n])
    ensures var picked := Persons(keyed[..n]);
      exists a, b :: 0 <= a < b < |picked| && picked[a] == x.2 && picked[b] == y.2
  {
    var picked := Persons(keyed[..n]);
    var b :| 0 <= b < n && picked[b] == y.2;
    var k :| 0 <= k < |keyed| && keyed[k] == x;
    var m :| 0 <= m < |keyed| && keyed[m] == y;
    assert keyed[b].2 == keyed[m].2;
    assert b == m;
    StandsAhead(keyed, k, m);
    assert picked[k] == x.2;
  }

  lemma KeysSorted(world: World, eligible: seq<nat>, draws: nat -> nat)
    requires Known(world, eligible) && Distinct(eligible)
    ensures forall y :: y in SortedBy(Keys(world, eligible, draws), Before) <==> y in Keys(world, eligible, draws)
  {
    hide Keys, Before, SortedBy;
    BeforeTransitive();
    forall i | 0 <= i < |eligible|
      ensures i < |Keys(world, eligible, draws)| && Untied(Keys(world, eligible, draws)[i], Keys(world, eligible, draws)[..i], Before)
    {
      KeysLength(world, eligible, draws);
      KeysUntied(world, eligible, draws, i);
    }
    KeysLength(world, eligible, draws);
    SortSorts(Keys(world, eligible, draws), Before);
  }

  lemma KeysLength(world: World, eligible: seq<nat>, draws: nat -> nat)
    requires Known(world, eligible)
    ensures |Keys(world, eligible, draws)| == |eligible|
  {
  }

  /** The first n of the sorted keys: each person once, and none after them has waited longer. */
  lemma FirstFew(keyed: seq<Keyed>, n: nat)
    requires NamesInOrder(keyed) && n <= |keyed|
    ensures var picked := Persons(keyed[..n]);
      && Distinct(picked) && |picked| == n
      && (forall q :: q in picked ==> exists i :: 0 <= i < n && keyed[i].2 == q)
      && (forall i, j :: 0 <= i < n && 0 <= j < |keyed| && keyed[j].2 !in picked ==> keyed[i].0 <= keyed[j].0)
  {
    var picked := Persons(keyed[..n]);
    assert forall x :: 0 <= x < n ==> picked[x] == keyed[x].2;
    assert forall x :: 0 <= x < n ==> picked[x] in picked;
  }

  lemma CeilBounds(left: nat, days: nat)
    requires days >= 1
    ensures DivCeil(left, days) <= left && DivCeil(left, days) * days >= left
    ensures left == 0 ==> DivCeil(left, days) == 0
    ensures left > 0 ==> DivCeil(left, days) > 0 && (DivCeil(left, days) - 1) * days < left
  {
    var n := DivCeil(left, days);
    assert (n - 1) * days == n * days - days;
    assert n * days + (left + days - 1) % days == left + days - 1;
    Scaled(left + 1, n, days);
    Scaled(1, days, left);
    assert (left + 1) * days == left * days + days;
  }

  // --------------------------------------------------------------- the budget --

  /** Inside a tick: its list, who of it has had a day, and who a notification reached. */
  datatype Run = Run(world: World, tick: nat, schedule: seq<nat>, doneToday: set<nat>, notified: set<nat>)

  datatype Step =
    | OpenDay(eligible: seq<nat>, draws: nat -> nat)
    | LiveDay(person: nat)
    | NotificationRound(requested: seq<nat>, lived: nat)
    | Resume
    | CloseTick

  function HadDay(world: World, tick: nat, person: nat): World {
    World(world.turnsUsed + 1,
          if person < |world.lastDay| then world.lastDay[person := Some(tick)] else world.lastDay)
  }

  function HadDays(world: World, tick: nat, persons: seq<nat>): World {
    if persons == [] then world else HadDay(HadDays(world, tick, persons[..|persons| - 1]), tick, persons[|persons| - 1])
  }

  function Unnotified(requested: seq<nat>, notified: set<nat>): seq<nat> {
    if requested == [] then [] else
      Unnotified(requested[..|requested| - 1], notified)
      + if requested[|requested| - 1] in notified then [] else [requested[|requested| - 1]]
  }

  /** Whom a round reaches: the asked who were not reached yet, as many as the budget still has days. */
  function Reached(cfg: Config, run: Run, requested: seq<nat>): seq<nat> {
    var who := Unnotified(requested, run.notified);
    var left := Minus(cfg.turnBudget, run.world.turnsUsed);
    if left < |who| then who[..left] else who
  }

  /** Those of a round who had their day before the sitting was cut off. */
  function Begun(who: seq<nat>, lived: nat): seq<nat> {
    if lived < |who| then who[..lived] else who
  }

  ghost predicate Allowed(run: Run, step: Step) {
    match step
    case OpenDay(eligible, _) => Known(run.world, eligible) && Distinct(eligible)
    case LiveDay(person) => person in run.schedule && person !in run.doneToday
    case NotificationRound(_, _) => forall p :: p in run.schedule ==> p in run.doneToday
    case Resume => true
    case CloseTick => forall p :: p in run.schedule ==> p in run.doneToday
  }

  function Next(cfg: Config, run: Run, step: Step): Run
    requires Allowed(run, step)
  {
    match step
    case OpenDay(eligible, draws) =>
      Run(run.world, run.tick, Today(cfg, run.world, run.tick, eligible, draws), {}, {})
    case LiveDay(person) =>
      run.(world := HadDay(run.world, run.tick, person), doneToday := run.doneToday + {person})
    case NotificationRound(requested, lived) =>
      // A sitting may be cut off inside a round, once `lived` of those reached have had their day.
      var who := Reached(cfg, run, requested);
      var had := Begun(who, lived);
      run.(world := HadDays(run.world, run.tick, had),
           doneToday := run.doneToday + (set p | p in had),
           notified := run.notified + (set p | p in who))
    case Resume => run.(notified := {})
    case CloseTick => Run(run.world, run.tick + 1, [], {}, {})
  }

  ghost predicate IsRun(cfg: Config, steps: seq<Step>, runs: seq<Run>) {
    && |runs| == |steps| + 1
    && runs[0].world.turnsUsed == 0 && runs[0].schedule == []
    && forall i :: 0 <= i < |steps| ==> Follows(cfg, steps, runs, i)
  }

  ghost predicate Follows(cfg: Config, steps: seq<Step>, runs: seq<Run>, i: nat)
    requires i < |steps| && |runs| == |steps| + 1
  {
    Allowed(runs[i], steps[i]) && runs[i + 1] == Next(cfg, runs[i], steps[i])
  }

  /** Those of a list still owed their day. */
  function Owed(schedule: seq<nat>, done: set<nat>): nat {
    if schedule == [] then 0 else
      Owed(schedule[..|schedule| - 1], done) + if schedule[|schedule| - 1] in done then 0 else 1
  }

  ghost predicate WithinBudget(cfg: Config, run: Run) {
    run.world.turnsUsed + Owed(run.schedule, run.doneToday) <= cfg.turnBudget && Distinct(run.schedule)
  }

  lemma {:induction false} OwedAtMost(schedule: seq<nat>, done: set<nat>)
    ensures Owed(schedule, done) <= |schedule|
    ensures (forall p :: p in schedule ==> p in done) ==> Owed(schedule, done) == 0
    decreases |schedule|
  {
    if schedule != [] {
      OwedAtMost(schedule[..|schedule| - 1], done);
    }
  }

  lemma {:induction false} OwedFalls(schedule: seq<nat>, done: set<nat>, person: nat)
    requires Distinct(schedule)
    ensures Owed(schedule, done + {person})
         == Owed(schedule, done) - if person in schedule && person !in done then 1 else 0
    decreases |schedule|
  {
    if schedule != [] {
      OwedFalls(schedule[..|schedule| - 1], done, person);
    }
  }

  lemma {:induction false} HadDaysTurns(world: World, tick: nat, persons: seq<nat>)
    ensures HadDays(world, tick, persons).turnsUsed == world.turnsUsed + |persons|
    ensures |HadDays(world, tick, persons).lastDay| == |world.lastDay|
    decreases |persons|
  {
    if persons != [] {
      HadDaysTurns(world, tick, persons[..|persons| - 1]);
    }
  }

  lemma StepWithinBudget(cfg: Config, run: Run, step: Step)
    requires WithinBudget(cfg, run) && Allowed(run, step)
    ensures WithinBudget(cfg, Next(cfg, run, step))
  {
    match step
    case OpenDay(eligible, draws) =>
      TodayPicks(cfg, run.world, run.tick, eligible, draws);
      OwedAtMost(Today(cfg, run.world, run.tick, eligible, draws), {});
    case LiveDay(person) =>
      OwedFalls(run.schedule, run.doneToday, person);
    case NotificationRound(requested, lived) =>
      var who := Reached(cfg, run, requested);
      var had := Begun(who, lived);
      HadDaysTurns(run.world, run.tick, had);
      OwedAtMost(run.schedule, run.doneToday);
      OwedAtMost(run.schedule, Next(cfg, run, step).doneToday);
    case Resume =>
    case CloseTick =>
  }

  /** Over any run, notification rounds, cut-off rounds and resumes included, the days used never pass the budget. */
  lemma {:induction false} NeverOverBudget(cfg: Config, steps: seq<Step>, runs: seq<Run>, i: nat)
    requires IsRun(cfg, steps, runs) && i <= |steps|
    ensures WithinBudget(cfg, runs[i]) && runs[i].world.turnsUsed <= cfg.turnBudget
    decreases i
  {
    if i > 0 {
      NeverOverBudget(cfg, steps, runs, i - 1);
      assert Follows(cfg, steps, runs, i - 1);
      StepWithinBudget(cfg, runs[i - 1], steps[i - 1]);
    }
  }

  /** Who lives a day in a step. */
  function LivedBy(cfg: Config, run: Run, step: Step): seq<nat> {
    match step
    case LiveDay(person) => [person]
    case NotificationRound(requested, lived) =>
      var who := Reached(cfg, run, requested);
      Begun(who, lived)
    case _ => []
  }

  ghost function LivedUpTo(cfg: Config, steps: seq<Step>, runs: seq<Run>, i: nat): nat
    requires i <= |steps| && |runs| == |steps| + 1
  {
    if i == 0 then 0 else LivedUpTo(cfg, steps, runs, i - 1) + |LivedBy(cfg, runs[i - 1], steps[i - 1])|
  }

  /** Every day lived is charged to the budget once, and nothing else is. */
  lemma {:induction false} DaysCounted(cfg: Config, steps: seq<Step>, runs: seq<Run>, i: nat)
    requires IsRun(cfg, steps, runs) && i <= |steps|
    ensures runs[i].world.turnsUsed == LivedUpTo(cfg, steps, runs, i)
    decreases i
  {
    hide Today, Reached, Owed;
    if i > 0 {
      DaysCounted(cfg, steps, runs, i - 1);
      assert Follows(cfg, steps, runs, i - 1);
      HadDaysTurns(runs[i - 1].world, runs[i - 1].tick, LivedBy(cfg, runs[i - 1], steps[i - 1]));
    }
  }

  lemma {:induction false} HadDaysLast(world: World, tick: nat, persons: seq<nat>, p: nat)
    requires p < |world.lastDay|
    ensures |HadDays(world, tick, persons).lastDay| == |world.lastDay|
    ensures HadDays(world, tick, persons).lastDay[p] == if p in persons then Some(tick) else world.lastDay[p]
    decreases |persons|
  {
    if persons != [] {
      HadDaysLast(world, tick, persons[..|persons| - 1], p);
    }
  }

  /** A step dates the last day of exactly those who live in it. */
  lemma LastDayDated(cfg: Config, run: Run, step: Step, p: nat)
    requires Allowed(run, step) && p < |run.world.lastDay|
    ensures |Next(cfg, run, step).world.lastDay| == |run.world.lastDay|
    ensures Next(cfg, run, step).world.lastDay[p] == if p in LivedBy(cfg, run, step) then Some(run.tick) else run.world.lastDay[p]
  {
    hide Today, Reached, Owed;
    HadDaysLast(run.world, run.tick, LivedBy(cfg, run, step), p);
  }

  lemma {:induction false} UnnotifiedAre(requested: seq<nat>, notified: set<nat>)
    ensures forall p :: p in Unnotified(requested, notified) <==> p in requested && p !in notified
    decreases |requested|
  {
    if requested != [] {
      var front, last := requested[..|requested| - 1], requested[|requested| - 1];
      UnnotifiedAre(front, notified);
      assert requested == front + [last];
    }
  }

  /** A round reaches only the asked nobody reached before, never more than the budget has days; and it leaves one of them
      out only where it spends every day that is left. */
  lemma RoundReaches(cfg: Config, run: Run, requested: seq<nat>)
    ensures var who := Reached(cfg, run, requested);
      && (forall p :: p in who ==> p in requested && p !in run.notified)
      && (who != [] ==> run.world.turnsUsed + |who| <= cfg.turnBudget)
      && ((exists p :: p in requested && p !in run.notified && p !in who) ==> run.world.turnsUsed + |who| >= cfg.turnBudget)
  {
    UnnotifiedAre(requested, run.notified);
  }

  // --------------------------------------------------------------- the waiting --

  /** From one opening to the next: today's list has its day, and notifications may reach anybody else. */
  ghost predicate DayPasses(cfg: Config, world: World, after: World, tick: nat, eligible: seq<nat>, picked: seq<nat>) {
    && |after.lastDay| == |world.lastDay|
    && Known(world, eligible) && Distinct(eligible)
    && (exists draws :: picked == Today(cfg, world, tick, eligible, draws))
    && (forall p :: 0 <= p < |world.lastDay| ==>
          after.lastDay[p] == Some(tick) || (after.lastDay[p] == world.lastDay[p] && p !in picked))
    && (forall p :: 0 <= p < |world.lastDay| ==> Since(world, p) <= tick)
  }

  /** Those at least as long without a day as p. */
  ghost function Ahead(world: World, eligible: seq<nat>, p: nat): set<nat>
    requires p < |world.lastDay| && Known(world, eligible)
  {
    set q | q in eligible && q != p && Since(world, q) <= Since(world, p)
  }

  lemma {:induction false} DistinctSize(s: seq<nat>)
    requires Distinct(s)
    ensures |Elements(s)| == |s|
    decreases |s|
  {
    if s != [] {
      var front, last := s[..|s| - 1], s[|s| - 1];
      DistinctSize(front);
      assert Elements(front) == Elements(s) - {last} by {
        assert s == front + [last];
      }
    } else {
      assert Elements(s) == {};
    }
  }

  /** A day that passes p over takes everybody it picks out from ahead of p, and puts nobody there. */
  lemma PassedOver(cfg: Config, world: World, after: World, tick: nat, eligible: seq<nat>, picked: seq<nat>, p: nat)
    requires DayPasses(cfg, world, after, tick, eligible, picked)
    requires p in eligible && after.lastDay[p] == world.lastDay[p] && p !in picked
    ensures |Ahead(after, eligible, p)| + |picked| <= |Ahead(world, eligible, p)|
    ensures Since(after, p) == Since(world, p)
  {
    hide Today;
    PicksWaited(cfg, world, after, tick, eligible, picked, p);
    var gone := Elements(picked);
    DistinctSize(picked);
    forall q | q in Ahead(after, eligible, p) ensures q in Ahead(world, eligible, p) {
      assert after.lastDay[q] == Some(tick) || after.lastDay[q] == world.lastDay[q];
    }
    assert Ahead(after, eligible, p) !! gone;
    assert |Ahead(after, eligible, p) + gone| == |Ahead(after, eligible, p)| + |gone|;
    FewerOf(Ahead(after, eligible, p) + gone, Ahead(world, eligible, p));
  }

  lemma PicksWaited(cfg: Config, world: World, after: World, tick: nat, eligible: seq<nat>, picked: seq<nat>, p: nat)
    requires DayPasses(cfg, world, after, tick, eligible, picked)
    requires p in eligible && after.lastDay[p] == world.lastDay[p] && p !in picked
    ensures Distinct(picked)
    ensures forall q :: q in picked ==> q in Ahead(world, eligible, p) && q !in Ahead(after, eligible, p)
  {
    hide Today;
    var draws :| picked == Today(cfg, world, tick, eligible, draws);
    TodayPicks(cfg, world, tick, eligible, draws);
    forall q | q in picked ensures q in Ahead(world, eligible, p) && q !in Ahead(after, eligible, p) {
      assert after.lastDay[q] == Some(tick);
    }
  }

  /** Consecutive days over one eligible list, at least k picked each day. */
  ghost predicate Days(cfg: Config, worlds: seq<World>, first: nat, eligible: seq<nat>, picks: seq<seq<nat>>, k: nat) {
    && |worlds| == |picks| + 1
    && forall d :: 0 <= d < |picks| ==> DayAt(cfg, worlds, first, eligible, picks, d) && |picks[d]| >= k
  }

  ghost predicate DayAt(cfg: Config, worlds: seq<World>, first: nat, eligible: seq<nat>, picks: seq<seq<nat>>, d: nat)
    requires |worlds| == |picks| + 1 && d < |picks|
  {
    DayPasses(cfg, worlds[d], worlds[d + 1], first + d, eligible, picks[d])
  }

  /** p has had no day in the first d days. */
  ghost predicate Waits(worlds: seq<World>, picks: seq<seq<nat>>, p: nat, d: nat)
    requires |worlds| == |picks| + 1 && d <= |picks|
  {
    && p < |worlds[0].lastDay| && (forall i :: 0 <= i <= d ==> p < |worlds[i].lastDay| && worlds[i].lastDay[p] == worlds[0].lastDay[p])
    && (forall i :: 0 <= i < d ==> p !in picks[i])
  }

  lemma {:induction false} WaitShrinksAhead(cfg: Config, worlds: seq<World>, first: nat, eligible: seq<nat>,
                                            picks: seq<seq<nat>>, k: nat, p: nat, d: nat)
    requires Days(cfg, worlds, first, eligible, picks, k) && 0 < d <= |picks|
    requires p in eligible && Waits(worlds, picks, p, d)
    ensures Known(worlds[0], eligible) && Known(worlds[d], eligible)
    ensures |Ahead(worlds[d], eligible, p)| + d * k <= |Ahead(worlds[0], eligible, p)|
    decreases d
  {
    hide DayPasses, Days, Waits, Known, Distinct, Ahead;
    LastDayWaited(cfg, worlds, first, eligible, picks, k, p, d);
    PassedOver(cfg, worlds[d - 1], worlds[d], first + d - 1, eligible, picks[d - 1], p);
    if d > 1 {
      WaitShrinksAhead(cfg, worlds, first, eligible, picks, k, p, d - 1);
    }
    assert d * k == (d - 1) * k + k;
  }

  lemma LastDayWaited(cfg: Config, worlds: seq<World>, first: nat, eligible: seq<nat>,
                      picks: seq<seq<nat>>, k: nat, p: nat, d: nat)
    requires Days(cfg, worlds, first, eligible, picks, k) && 0 < d <= |picks|
    requires Waits(worlds, picks, p, d)
    ensures |worlds| == |picks| + 1
    ensures Waits(worlds, picks, p, d - 1) && |picks[d - 1]| >= k && p !in picks[d - 1]
    ensures DayPasses(cfg, worlds[d - 1], worlds[d], first + d - 1, eligible, picks[d - 1])
    ensures Known(worlds[d - 1], eligible) && Known(worlds[d], eligible)
    ensures p < |worlds[d - 1].lastDay| && p < |worlds[d].lastDay| && worlds[d].lastDay[p] == worlds[d - 1].lastDay[p]
  {
    hide Today;
    assert DayAt(cfg, worlds, first, eligible, picks, d - 1);
  }

  lemma AheadFewer(cfg: Config, worlds: seq<World>, first: nat, eligible: seq<nat>, picks: seq<seq<nat>>,
                   k: nat, p: nat, d: nat)
    requires Days(cfg, worlds, first, eligible, picks, k) && 0 < d <= |picks|
    requires p in eligible
    ensures Known(worlds[0], eligible)
    ensures |Ahead(worlds[0], eligible, p)| < |eligible|
  {
    hide Today, Waits;
    assert DayAt(cfg, worlds, first, eligible, picks, 0);
    DistinctSize(eligible);
    var all := Elements(eligible);
    FewerOf(Ahead(worlds[0], eligible, p), all - {p});
  }

  /** Nobody eligible waits ceil(N/k) days, whatever the draws and whomever notifications reach. */
  lemma NobodyWaits(cfg: Config, worlds: seq<World>, first: nat, eligible: seq<nat>, picks: seq<seq<nat>>,
                    k: nat, p: nat, d: nat)
    requires Days(cfg, worlds, first, eligible, picks, k) && k > 0 && d <= |picks|
    requires p in eligible && Waits(worlds, picks, p, d)
    ensures d < DivCeil(|eligible|, k)
  {
    hide Days, Waits, DivCeil;
    if d > 0 {
      WaitShrinksAhead(cfg, worlds, first, eligible, picks, k, p, d);
      AheadFewer(cfg, worlds, first, eligible, picks, k, p, d);
    }
    CeilBounds(|eligible|, k);
    var n := DivCeil(|eligible|, k);
    Scaled(n, d, k);
  }

  // ----------------------------------------------------------------- the pacing --

  /** A budget that affords k days a tick to the target keeps affording them, while each tick spends only its share. */
  lemma PaceHolds(cfg: Config, world: World, tick: nat, eligible: nat, k: nat)
    requires k <= eligible && tick <= cfg.targetTicks
    requires cfg.turnBudget >= world.turnsUsed + k * DaysLeft(cfg, tick)
    ensures Share(cfg, world, tick, eligible) >= k
    ensures tick < cfg.targetTicks ==>
      cfg.turnBudget >= world.turnsUsed + Share(cfg, world, tick, eligible) + k * DaysLeft(cfg, tick + 1)
  {
    var left, days := cfg.turnBudget - world.turnsUsed, DaysLeft(cfg, tick);
    var n := DivCeil(left, days);
    CeilBounds(left, days);
    Scaled(n + 1, k, days);
    assert (n + 1) * days == n * days + days;
    if tick < cfg.targetTicks {
      CeilLeaves(left, days, k);
      assert DaysLeft(cfg, tick + 1) == days - 1;
    }
  }

  lemma CeilLeaves(left: nat, days: nat, k: nat)
    requires days >= 1 && left >= k * days
    ensures left >= DivCeil(left, days) + k * (days - 1)
  {
    var n := DivCeil(left, days);
    assert n * days + (left + days - 1) % days == left + days - 1;
    var spare := left - k * days;
    Scaled(k + spare + 1, n, days);
    Scaled(1, days, spare);
    assert (k + spare + 1) * days == k * days + spare * days + days;
    assert k * (days - 1) == k * days - k;
  }
}
