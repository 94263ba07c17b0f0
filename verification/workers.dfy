/** A tick's days lived at once: workers share one counter and write one slot each index. */
module Workers {

  import opened Wrappers

  /** The days to live, how one day comes out against the opening world, and the configured width. */
  datatype Job<!Outcome> = Job(living: seq<nat>, live: nat -> Outcome, concurrency: nat)

  /** Where one worker stands: building its model, about to draw an index, living it, storing it, or ended, with a model or with the
      error that left it without one. */
  datatype Worker<Outcome> =
    | Building
    | Drawing
    | Living(index: nat)
    | Storing(index: nat, outcome: Outcome)
    | Finished
    | NoModel(error: string)

  /** The shared state, and beside it how many times each index was lived. */
  datatype State<Outcome> = State(next: nat, slots: seq<Option<Outcome>>, failed: Option<string>,
                                  workers: seq<Worker<Outcome>>, lived: seq<nat>)

  function Width<Outcome(!new)>(job: Job<Outcome>): nat
    requires job.living != []
  {
    var wide := if job.concurrency < 1 then 1 else job.concurrency;
    if wide < |job.living| then wide else |job.living|
  }

  /** As many workers as configured, but one at least and no more than there are days. */
  lemma WidthIs<Outcome(!new)>(job: Job<Outcome>)
    requires job.living != []
    ensures 1 <= Width(job) <= |job.living|
    ensures 1 <= job.concurrency <= |job.living| ==> Width(job) == job.concurrency
    ensures job.concurrency > |job.living| ==> Width(job) == |job.living|
  {
  }

  function Opening<Outcome(!new)>(job: Job<Outcome>): State<Outcome>
    requires job.living != []
  {
    State(0, seq(|job.living|, _ => None), None, seq(Width(job), _ => Building), seq(|job.living|, _ => 0))
  }

  /** One atomic step of worker w. Building a model may fail, with any error. */
  ghost predicate StepOf<Outcome(!new)>(job: Job<Outcome>, s: State<Outcome>, t: State<Outcome>, w: nat) {
    && w < |s.workers|
    && |s.slots| == |s.lived| == |job.living|
    && match s.workers[w]
       case Building =>
         || t == s.(workers := s.workers[w := Drawing])
         || (exists e :: t == s.(workers := s.workers[w := NoModel(e)], failed := Some(e)))
       case Drawing =>
         t == s.(next := s.next + 1,
                 workers := s.workers[w := if s.next < |job.living| then Living(s.next) else Finished])
       case Living(i) =>
         && i < |job.living|
         && t == s.(workers := s.workers[w := Storing(i, job.live(job.living[i]))], lived := s.lived[i := s.lived[i] + 1])
       case Storing(i, outcome) =>
         && i < |job.living|
         && t == s.(workers := s.workers[w := Drawing], slots := s.slots[i := Some(outcome)])
       case Finished => false
       case NoModel(_) => false
  }

  ghost predicate Steps<Outcome(!new)>(job: Job<Outcome>, s: State<Outcome>, t: State<Outcome>) {
    exists w: nat :: StepOf(job, s, t, w)
  }

  /** Any interleaving from the opening state. */
  ghost predicate IsRun<Outcome(!new)>(job: Job<Outcome>, run: seq<State<Outcome>>) {
    && job.living != [] && run != []
    && if |run| == 1 then run[0] == Opening(job)
       else IsRun(job, run[..|run| - 1]) && Steps(job, run[|run| - 2], run[|run| - 1])
  }

  predicate Ended<Outcome>(w: Worker<Outcome>) {
    w.Finished? || w.NoModel?
  }

  predicate AllEnded<Outcome>(s: State<Outcome>) {
    forall w :: 0 <= w < |s.workers| ==> Ended(s.workers[w])
  }

  predicate SomeoneWorked<Outcome>(s: State<Outcome>) {
    exists w :: 0 <= w < |s.workers| && s.workers[w].Finished?
  }

  /** What the scope's end makes of the slots. */
  function Conclude<Outcome>(s: State<Outcome>): Result<seq<Outcome>, string> {
    if exists i :: 0 <= i < |s.slots| && s.slots[i].None? then
      Err(if s.failed.Some? then s.failed.value else "a day was never lived")
    else
      Ok(seq(|s.slots|, i requires 0 <= i < |s.slots| => s.slots[i].value))
  }

  /** The whole call, given the state its workers left behind. */
  function DaysAtOnce<Outcome(!new)>(job: Job<Outcome>, last: State<Outcome>): Result<seq<Outcome>, string> {
    if job.living == [] then Ok([]) else Conclude(last)
  }

  /** What one worker after another would have lived, in `living` order. */
  function Sequential<Outcome(!new)>(job: Job<Outcome>): seq<Outcome> {
    seq(|job.living|, i requires 0 <= i < |job.living| => job.live(job.living[i]))
  }

  predicate Busy<Outcome>(w: Worker<Outcome>, i: nat) {
    (w.Living? && w.index == i) || (w.Storing? && w.index == i)
  }

  /** Index i is undrawn, in exactly one worker's hands, or stored. */
  ghost predicate Tracked<Outcome(!new)>(job: Job<Outcome>, s: State<Outcome>, i: nat)
    requires i < |job.living| == |s.slots| == |s.lived|
  {
    && (i >= s.next ==> s.slots[i].None? && s.lived[i] == 0)
    && (forall w :: 0 <= w < |s.workers| && Busy(s.workers[w], i) ==> i < s.next && s.slots[i].None?)
    && (forall w :: 0 <= w < |s.workers| && Busy(s.workers[w], i) ==> s.lived[i] == if s.workers[w].Living? then 0 else 1)
    && (forall w :: 0 <= w < |s.workers| && s.workers[w].Storing? && Busy(s.workers[w], i) ==>
          s.workers[w].outcome == job.live(job.living[i]))
    && (forall v, w :: 0 <= v < w < |s.workers| ==> !(Busy(s.workers[v], i) && Busy(s.workers[w], i)))
    && (i < s.next && s.slots[i].None? ==> exists w :: 0 <= w < |s.workers| && Busy(s.workers[w], i))
    && (s.slots[i].Some? ==> s.slots[i].value == job.live(job.living[i]) && s.lived[i] == 1)
  }

  /** What every step keeps. */
  ghost predicate Kept<Outcome(!new)>(job: Job<Outcome>, s: State<Outcome>) {
    && |s.slots| == |s.lived| == |job.living| > 0
    && |s.workers| == Width(job)
    && (forall i :: 0 <= i < |job.living| ==> Tracked(job, s, i))
    && (forall w :: 0 <= w < |s.workers| && (s.workers[w].Living? || s.workers[w].Storing?) ==>
          s.workers[w].index < |job.living|)
    && (SomeoneWorked(s) ==> s.next >= |job.living|)
    && (s.next == 0 || exists w :: 0 <= w < |s.workers| && !s.workers[w].Building? && !s.workers[w].NoModel?)
    && (s.failed.Some? <==> exists w :: 0 <= w < |s.workers| && s.workers[w].NoModel?)
  }

  lemma BuildKeepsTracked<Outcome(!new)>(job: Job<Outcome>, s: State<Outcome>, t: State<Outcome>, w: nat, i: nat)
    requires StepOf(job, s, t, w) && s.workers[w].Building?
    requires i < |job.living| && Tracked(job, s, i)
    ensures |t.slots| == |t.lived| == |job.living| && |t.workers| == |s.workers|
    ensures Tracked(job, t, i)
  {
    assert forall v :: 0 <= v < |s.workers| && v != w ==> t.workers[v] == s.workers[v];
    if i < t.next && t.slots[i].None? {
      var v :| 0 <= v < |s.workers| && Busy(s.workers[v], i);
      assert Busy(t.workers[v], i);
    }
  }

  lemma DrawKeepsTracked<Outcome(!new)>(job: Job<Outcome>, s: State<Outcome>, t: State<Outcome>, w: nat, i: nat)
    requires StepOf(job, s, t, w) && s.workers[w].Drawing?
    requires i < |job.living| && Tracked(job, s, i)
    ensures |t.slots| == |t.lived| == |job.living| && |t.workers| == |s.workers|
    ensures Tracked(job, t, i)
  {
    assert forall v :: 0 <= v < |s.workers| && v != w ==> t.workers[v] == s.workers[v];
    if i < t.next && t.slots[i].None? {
      if i == s.next {
        assert Busy(t.workers[w], i);
      } else {
        var v :| 0 <= v < |s.workers| && Busy(s.workers[v], i);
        assert Busy(t.workers[v], i);
      }
    }
  }

  lemma LiveKeepsTracked<Outcome(!new)>(job: Job<Outcome>, s: State<Outcome>, t: State<Outcome>, w: nat, i: nat)
    requires StepOf(job, s, t, w) && s.workers[w].Living?
    requires i < |job.living| && Tracked(job, s, i)
    ensures |t.slots| == |t.lived| == |job.living| && |t.workers| == |s.workers|
    ensures Tracked(job, t, i)
  {
    assert forall v :: 0 <= v < |s.workers| && v != w ==> t.workers[v] == s.workers[v];
    if i < t.next && t.slots[i].None? {
      var v :| 0 <= v < |s.workers| && Busy(s.workers[v], i);
      assert Busy(t.workers[v], i);
    }
  }

  lemma StoreKeepsTracked<Outcome(!new)>(job: Job<Outcome>, s: State<Outcome>, t: State<Outcome>, w: nat, i: nat)
    requires StepOf(job, s, t, w) && s.workers[w].Storing?
    requires i < |job.living| && Tracked(job, s, i)
    ensures |t.slots| == |t.lived| == |job.living| && |t.workers| == |s.workers|
    ensures Tracked(job, t, i)
  {
    assert forall v :: 0 <= v < |s.workers| && v != w ==> t.workers[v] == s.workers[v];
    if i < t.next && t.slots[i].None? {
      var v :| 0 <= v < |s.workers| && Busy(s.workers[v], i);
      assert Busy(t.workers[v], i);
    }
  }

  lemma TrackedNow<Outcome(!new)>(job: Job<Outcome>, s: State<Outcome>, i: nat)
    requires Kept(job, s) && i < |job.living|
    ensures |s.slots| == |s.lived| == |job.living| && Tracked(job, s, i)
  {
  }

  lemma StepKeepsTracked<Outcome(!new)>(job: Job<Outcome>, s: State<Outcome>, t: State<Outcome>, w: nat, i: nat)
    requires Kept(job, s) && StepOf(job, s, t, w) && i < |job.living|
    ensures |t.slots| == |t.lived| == |job.living| && |t.workers| == |s.workers|
    ensures Tracked(job, t, i)
  {
    hide Kept, Tracked;
    TrackedNow(job, s, i);
    match s.workers[w]
    case Building => BuildKeepsTracked(job, s, t, w, i);
    case Drawing => DrawKeepsTracked(job, s, t, w, i);
    case Living(_) => LiveKeepsTracked(job, s, t, w, i);
    case Storing(_, _) => StoreKeepsTracked(job, s, t, w, i);
  }

  lemma StepKeeps<Outcome(!new)>(job: Job<Outcome>, s: State<Outcome>, t: State<Outcome>, w: nat)
    requires Kept(job, s) && StepOf(job, s, t, w)
    ensures Kept(job, t)
  {
    forall i | 0 <= i < |job.living| ensures Tracked(job, t, i) {
      StepKeepsTracked(job, s, t, w, i);
    }
    StepKeepsRest(job, s, t, w);
  }

  lemma StepKeepsRest<Outcome(!new)>(job: Job<Outcome>, s: State<Outcome>, t: State<Outcome>, w: nat)
    requires Kept(job, s) && StepOf(job, s, t, w)
    ensures |t.slots| == |t.lived| == |job.living| && |t.workers| == |s.workers|
    ensures forall v :: 0 <= v < |t.workers| && (t.workers[v].Living? || t.workers[v].Storing?) ==>
      t.workers[v].index < |job.living|
    ensures SomeoneWorked(t) ==> t.next >= |job.living|
    ensures t.next == 0 || exists v :: 0 <= v < |t.workers| && !t.workers[v].Building? && !t.workers[v].NoModel?
    ensures t.failed.Some? <==> exists v :: 0 <= v < |t.workers| && t.workers[v].NoModel?
  {
    hide Tracked;
    assert forall v :: 0 <= v < |s.workers| && v != w ==> t.workers[v] == s.workers[v];
    if s.workers[w].Building? && s.next > 0 {
      var v :| 0 <= v < |s.workers| && !s.workers[v].Building? && !s.workers[v].NoModel?;
      assert t.workers[v] == s.workers[v];
    }
    if s.failed.Some? {
      var v :| 0 <= v < |s.workers| && s.workers[v].NoModel?;
      assert t.workers[v] == s.workers[v];
    }
    if t.workers[w].NoModel? {
      assert t.failed.Some?;
    }
    if SomeoneWorked(t) && !SomeoneWorked(s) {
      var v :| 0 <= v < |t.workers| && t.workers[v].Finished?;
      assert v == w;
    }
  }

  lemma {:induction false} RunKeeps<Outcome(!new)>(job: Job<Outcome>, run: seq<State<Outcome>>)
    requires IsRun(job, run)
    ensures Kept(job, run[|run| - 1])
    decreases |run|
  {
    if |run| > 1 {
      RunKeeps(job, run[..|run| - 1]);
      var w: nat :| StepOf(job, run[|run| - 2], run[|run| - 1], w);
      StepKeeps(job, run[|run| - 2], run[|run| - 1], w);
    } else {
      forall i | 0 <= i < |job.living| ensures Tracked(job, run[0], i) {
      }
    }
  }

  /** At every moment of every run, no index has been lived twice. */
  lemma NeverLivedTwice<Outcome(!new)>(job: Job<Outcome>, run: seq<State<Outcome>>, i: nat)
    requires IsRun(job, run) && i < |job.living|
    ensures i < |run[|run| - 1].lived| && run[|run| - 1].lived[i] <= 1
  {
    RunKeeps(job, run);
    var s := run[|run| - 1];
    assert Tracked(job, s, i);
  }

  /** Nobody fails to build a model in step i of the run. */
  ghost predicate NobodyFails<Outcome(!new)>(run: seq<State<Outcome>>, i: nat)
    requires 0 < i < |run|
  {
    var s, t := run[i - 1], run[i];
    |s.workers| == |t.workers| ==> forall v :: 0 <= v < |t.workers| && t.workers[v].NoModel? ==> s.workers[v].NoModel?
  }

  lemma FailedStays<Outcome(!new)>(job: Job<Outcome>, run: seq<State<Outcome>>, i: nat)
    requires 0 < i < |run| && Steps(job, run[i - 1], run[i]) && NobodyFails(run, i)
    ensures run[i].failed == run[i - 1].failed
  {
    var w: nat :| StepOf(job, run[i - 1], run[i], w);
    assert |run[i].workers| == |run[i - 1].workers|;
  }

  lemma FailedNow<Outcome(!new)>(job: Job<Outcome>, s: State<Outcome>, t: State<Outcome>, w: nat)
    requires Steps(job, s, t) && w < |s.workers| && w < |t.workers|
    requires s.workers[w].Building? && t.workers[w].NoModel?
    ensures t.failed == Some(t.workers[w].error)
  {
    var v: nat :| StepOf(job, s, t, v);
    if v != w {
      OthersStay(job, s, t, v, w);
    }
  }

  lemma OthersStay<Outcome(!new)>(job: Job<Outcome>, s: State<Outcome>, t: State<Outcome>, v: nat, w: nat)
    requires StepOf(job, s, t, v) && v != w && w < |s.workers|
    ensures w < |t.workers| && t.workers[w] == s.workers[w]
  {
  }

  lemma LastStep<Outcome(!new)>(job: Job<Outcome>, run: seq<State<Outcome>>)
    requires IsRun(job, run) && |run| > 1
    ensures IsRun(job, run[..|run| - 1]) && Steps(job, run[|run| - 2], run[|run| - 1])
  {
  }

  /** The error kept is the last: that of the worker after whom nobody else failed to build a model. */
  lemma {:induction false} LastErrorKept<Outcome(!new)>(job: Job<Outcome>, run: seq<State<Outcome>>, j: nat, w: nat, error: string)
    requires IsRun(job, run) && 0 < j < |run|
    requires w < |run[j - 1].workers| && w < |run[j].workers|
    requires run[j - 1].workers[w].Building? && run[j].workers[w] == NoModel(error)
    requires forall i :: j < i < |run| ==> NobodyFails(run, i)
    ensures run[|run| - 1].failed == Some(error)
    decreases |run|
  {
    hide IsRun, Steps, NobodyFails;
    var last := |run| - 1;
    LastStep(job, run);
    if j < last {
      forall i | j < i < last ensures NobodyFails(run[..last], i) {
        SameFailures(run, i);
      }
      LastErrorKept(job, run[..last], j, w, error);
      FailedStays(job, run, last);
    } else {
      FailedNow(job, run[last - 1], run[last], w);
    }
  }

  lemma SameFailures<Outcome(!new)>(run: seq<State<Outcome>>, i: nat)
    requires 0 < i < |run| - 1 && NobodyFails(run, i)
    ensures NobodyFails(run[..|run| - 1], i)
  {
  }

  /** Once every worker has ended, the result is the sequential one unless not a single model was built. */
  lemma EndedRun<Outcome(!new)>(job: Job<Outcome>, run: seq<State<Outcome>>)
    requires IsRun(job, run) && AllEnded(run[|run| - 1])
    ensures var last := run[|run| - 1];
      && (DaysAtOnce(job, last).Ok? <==> SomeoneWorked(last))
      && (SomeoneWorked(last) ==>
            && DaysAtOnce(job, last) == Ok(Sequential(job))
            && last.lived == seq(|job.living|, _ => 1))
      && (!SomeoneWorked(last) ==>
            && last.failed.Some? && DaysAtOnce(job, last) == Err(last.failed.value)
            && last.lived == seq(|job.living|, _ => 0))
  {
    RunKeeps(job, run);
    var last := run[|run| - 1];
    forall i, w | 0 <= i < |job.living| && 0 <= w < |last.workers| ensures !Busy(last.workers[w], i) {
      assert Ended(last.workers[w]);
    }
    if SomeoneWorked(last) {
      forall i | 0 <= i < |job.living|
        ensures last.slots[i].Some? && last.slots[i].value == job.live(job.living[i]) && last.lived[i] == 1
      {
        assert Tracked(job, last, i);
      }
      assert Conclude(last).Ok?;
      assert Conclude(last).value == Sequential(job);
    } else {
      assert Ended(last.workers[0]) && last.workers[0].NoModel?;
      assert last.next == 0;
      forall i | 0 <= i < |job.living| ensures last.slots[i].None? && last.lived[i] == 0 {
        assert Tracked(job, last, i);
      }
      assert last.slots[0].None?;
    }
  }

  /** The width never shows: two jobs over the same days, run at any widths, agree wherever both come out. */
  lemma AnyWidthSameRun<Outcome(!new)>(job: Job<Outcome>, other: Job<Outcome>,
                                       run: seq<State<Outcome>>, otherRun: seq<State<Outcome>>)
    requires job.living == other.living && job.live == other.live
    requires IsRun(job, run) && AllEnded(run[|run| - 1]) && IsRun(other, otherRun) && AllEnded(otherRun[|otherRun| - 1])
    requires DaysAtOnce(job, run[|run| - 1]).Ok? && DaysAtOnce(other, otherRun[|otherRun| - 1]).Ok?
    ensures DaysAtOnce(job, run[|run| - 1]) == DaysAtOnce(other, otherRun[|otherRun| - 1])
  {
    EndedRun(job, run);
    EndedRun(other, otherRun);
  }

  // Every run ends.

  function Rank<Outcome>(w: Worker<Outcome>): nat {
    match w
    case Building => 2
    case Drawing => 1
    case Living(_) => 3
    case Storing(_, _) => 2
    case Finished => 0
    case NoModel(_) => 0
  }

  function Ranks<Outcome>(workers: seq<Worker<Outcome>>): nat {
    if workers == [] then 0 else Ranks(workers[..|workers| - 1]) + Rank(workers[|workers| - 1])
  }

  lemma {:induction false} RanksUpdate<Outcome>(workers: seq<Worker<Outcome>>, w: nat, now: Worker<Outcome>)
    requires w < |workers|
    ensures Ranks(workers[w := now]) == Ranks(workers) - Rank(workers[w]) + Rank(now)
    decreases |workers|
  {
    var front := workers[..|workers| - 1];
    if w == |workers| - 1 {
      assert workers[w := now][..|workers| - 1] == front;
    } else {
      assert workers[w := now][..|workers| - 1] == front[w := now];
      RanksUpdate(front, w, now);
    }
  }

  /** The work left: three steps for every undrawn index, and what each worker still owes. */
  function Left<Outcome(!new)>(job: Job<Outcome>, s: State<Outcome>): nat {
    3 * (if s.next < |job.living| then |job.living| - s.next else 0) + Ranks(s.workers)
  }

  /** While a worker has not ended some step is possible, and every step leaves less to do: no deadlock, no endless run. */
  lemma AlwaysEnds<Outcome(!new)>(job: Job<Outcome>, s: State<Outcome>)
    requires Kept(job, s)
    ensures !AllEnded(s) ==> exists t :: Steps(job, s, t)
    ensures forall t :: Steps(job, s, t) ==> Left(job, t) < Left(job, s)
  {
    hide StepOf, Left, Kept, Ranks;
    if !AllEnded(s) {
      var w :| 0 <= w < |s.workers| && !Ended(s.workers[w]);
      SomeStep(job, s, w);
    }
    forall t | Steps(job, s, t) ensures Left(job, t) < Left(job, s) {
      var w: nat :| StepOf(job, s, t, w);
      StepLeavesLess(job, s, t, w);
    }
  }

  lemma StepLeavesLess<Outcome(!new)>(job: Job<Outcome>, s: State<Outcome>, t: State<Outcome>, w: nat)
    requires StepOf(job, s, t, w)
    ensures Left(job, t) < Left(job, s)
  {
    hide Ranks;
    assert t.workers == s.workers[w := t.workers[w]];
    RanksUpdate(s.workers, w, t.workers[w]);
  }

  lemma SomeStep<Outcome(!new)>(job: Job<Outcome>, s: State<Outcome>, w: nat)
    requires Kept(job, s) && w < |s.workers| && !Ended(s.workers[w])
    ensures exists t :: Steps(job, s, t)
  {
    var n := |job.living|;
    var worker := s.workers[w];
    var t :=
      if worker.Building? then s.(workers := s.workers[w := Drawing])
      else if worker.Drawing? then
        s.(next := s.next + 1, workers := s.workers[w := if s.next < n then Living(s.next) else Finished])
      else if worker.Living? then
        s.(workers := s.workers[w := Storing(worker.index, job.live(job.living[worker.index]))],
           lived := s.lived[worker.index := s.lived[worker.index] + 1])
      else
        s.(workers := s.workers[w := Drawing], slots := s.slots[worker.index := Some(worker.outcome)]);
    assert StepOf(job, s, t, w);
    assert Steps(job, s, t);
  }

  /** A run of one job is at most three steps a day and two a worker long. */
  lemma {:induction false} RunsAreShort<Outcome(!new)>(job: Job<Outcome>, run: seq<State<Outcome>>)
    requires IsRun(job, run)
    ensures |run| - 1 + Left(job, run[|run| - 1]) <= 3 * |job.living| + 2 * Width(job)
    decreases |run|
  {
    if |run| == 1 {
      RanksOpening(run[0].workers);
    } else {
      var before := run[..|run| - 1];
      RunsAreShort(job, before);
      RunKeeps(job, before);
      AlwaysEnds(job, before[|before| - 1]);
      assert Steps(job, before[|before| - 1], run[|run| - 1]);
    }
  }

  lemma {:induction false} RanksOpening<Outcome>(workers: seq<Worker<Outcome>>)
    requires forall w :: 0 <= w < |workers| ==> workers[w].Building?
    ensures Ranks(workers) == 2 * |workers|
    decreases |workers|
  {
    if workers != [] {
      RanksOpening(workers[..|workers| - 1]);
    }
  }
}
