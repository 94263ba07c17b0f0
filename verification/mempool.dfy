/** A first-in-first-out pool of uncommitted transactions that knows what it holds and what was lately committed. */
module Mempools {
  import opened Wrappers
  import opened Sums

  const SEEN_CAP: nat := 4096

  const MAX_QUEUE_LEN: nat := 8192

  /** The pool's two orders: what waits, with its hash, and which committed hashes are remembered, oldest first. */
  datatype Pool<Tx, Hash> = Pool(queue: seq<(Tx, Hash)>, seen: seq<Hash>)

  function Hashes<Tx, Hash>(queue: seq<(Tx, Hash)>): seq<Hash> {
    seq(|queue|, i requires 0 <= i < |queue| => queue[i].1)
  }

  function Txs<Tx, Hash>(queue: seq<(Tx, Hash)>): seq<Tx> {
    seq(|queue|, i requires 0 <= i < |queue| => queue[i].0)
  }

  /** Each waiting transaction carries its own hash, none waits twice, none remembered waits, and both bounds hold. */
  ghost predicate Sound<Tx(!new), Hash(!new)>(hash: Tx -> Option<Hash>, p: Pool<Tx, Hash>) {
    && (forall i :: 0 <= i < |p.queue| ==> hash(p.queue[i].0) == Some(p.queue[i].1))
    && Distinct(Hashes(p.queue)) && Distinct(p.seen)
    && Elements(Hashes(p.queue)) !! Elements(p.seen)
    && |p.queue| <= MAX_QUEUE_LEN && |p.seen| <= SEEN_CAP
  }

  // ------------------------------------------------------------------- pushing --

  ghost predicate Accepts<Tx(!new), Hash(!new)>(hash: Tx -> Option<Hash>, p: Pool<Tx, Hash>, tx: Tx) {
    && hash(tx).Some?
    && hash(tx).value !in Elements(Hashes(p.queue)) && hash(tx).value !in Elements(p.seen)
    && |p.queue| < MAX_QUEUE_LEN
  }

  ghost function Pushed<Tx(!new), Hash(!new)>(hash: Tx -> Option<Hash>, p: Pool<Tx, Hash>, tx: Tx): Pool<Tx, Hash> {
    if Accepts(hash, p, tx) then p.(queue := p.queue + [(tx, hash(tx).value)]) else p
  }

  // ---------------------------------------------------------------- committing --

  /** What waits, in order, less what was committed. */
  function Keep<Tx, Hash>(queue: seq<(Tx, Hash)>, committed: set<Hash>): seq<(Tx, Hash)> {
    if queue == [] then []
    else
      var last := queue[|queue| - 1];
      Keep(queue[..|queue| - 1], committed) + if last.1 in committed then [] else [last]
  }

  ghost function CommittedIn<Tx(!new), Hash(!new)>(hash: Tx -> Option<Hash>, txs: seq<Tx>): set<Hash> {
    set i | 0 <= i < |txs| && hash(txs[i]).Some? :: hash(txs[i]).value
  }

  /** Remembering one more hash, at the cost of the oldest past the cap. */
  function Remember<Hash(==)>(seen: seq<Hash>, h: Hash): seq<Hash> {
    if h in seen then seen
    else if |seen| + 1 > SEEN_CAP then (seen + [h])[1..]
    else seen + [h]
  }

  function RememberAll<Hash(==)>(seen: seq<Hash>, order: seq<Hash>): seq<Hash> {
    if order == [] then seen else Remember(RememberAll(seen, order[..|order| - 1]), order[|order| - 1])
  }

  /** A list of the committed hashes, each once: the order a hash set happens to be walked in. */
  ghost predicate Walks<Hash(!new)>(order: seq<Hash>, committed: set<Hash>) {
    Distinct(order) && Elements(order) == committed
  }

  ghost function Committed<Tx(!new), Hash(!new)>(hash: Tx -> Option<Hash>, p: Pool<Tx, Hash>, txs: seq<Tx>,
                                                 order: seq<Hash>): Pool<Tx, Hash> {
    Pool(Keep(p.queue, CommittedIn(hash, txs)), RememberAll(p.seen, order))
  }

  // ----------------------------------------------------------------- the pool --

  class Mempool<Tx(!new), Hash(==, !new)> {
    const hash: Tx -> Option<Hash>
    var queue: seq<(Tx, Hash)>
    var queued: set<Hash>
    var seen: seq<Hash>
    var seenSet: set<Hash>

    ghost function View(): Pool<Tx, Hash>
      reads this
    {
      Pool(queue, seen)
    }

    /** Both sets agree with the orders they index. */
    ghost predicate Valid()
      reads this
    {
      && Sound(hash, View())
      && queued == Elements(Hashes(queue))
      && seenSet == Elements(seen)
    }

    constructor (hash: Tx -> Option<Hash>)
      ensures Valid() && this.hash == hash && View() == Pool([], [])
    {
      this.hash := hash;
      queue, queued, seen, seenSet := [], {}, [], {};
    }

    method Push(tx: Tx) returns (accepted: bool)
      requires Valid()
      modifies this
      ensures Valid()
      ensures accepted == Accepts(hash, old(View()), tx)
      ensures View() == Pushed(hash, old(View()), tx)
    {
      PushKeepsSound(hash, View(), tx);
      var h := hash(tx);
      if h.None? {
        return false;
      }
      if h.value in queued || h.value in seenSet {
        return false;
      }
      if |queue| >= MAX_QUEUE_LEN {
        return false;
      }
      ElementsPlus(Hashes(queue), h.value);
      assert Hashes(queue + [(tx, h.value)]) == Hashes(queue) + [h.value];
      queue := queue + [(tx, h.value)];
      queued := queued + {h.value};
      return true;
    }

    method Contains(h: Hash) returns (waiting: bool)
      requires Valid()
      ensures waiting <==> exists i :: 0 <= i < |queue| && queue[i].1 == h
    {
      waiting := h in queued;
      assert forall i :: 0 <= i < |queue| ==> Hashes(queue)[i] == queue[i].1;
    }

    /** Peeks; nothing leaves the pool. */
    method Batch(max: nat) returns (txs: seq<Tx>)
      requires Valid()
      ensures txs == Txs(queue[..if max < |queue| then max else |queue|])
    {
      var n := if max < |queue| then max else |queue|;
      txs := [];
      for i := 0 to n
        invariant txs == Txs(queue[..i])
      {
        txs := txs + [queue[i].0];
      }
    }

    /** Whatever order the set of committed hashes is walked in. */
    method RemoveCommitted(txs: seq<Tx>) returns (ghost order: seq<Hash>)
      requires Valid()
      modifies this
      ensures Valid()
      ensures Walks(order, CommittedIn(hash, txs))
      ensures View() == Committed(hash, old(View()), txs, order)
    {
      hide Sound, Keep, RememberAll, Remember, CommittedIn, Distinct, Elements, Hashes, Committed;
      var committed := CommittedHashes(hash, txs);
      ghost var was := View();
      SoundParts(hash, was);
      queue := Keep(queue, committed);
      order := [];
      var todo := committed;
      NothingWalked(was.seen, committed);
      while todo != {}
        invariant queue == Keep(was.queue, committed)
        invariant seen == RememberAll(was.seen, order) && seenSet == Elements(seen)
        invariant Distinct(seen) && |seen| <= SEEN_CAP
        invariant Distinct(order) && Elements(order) == committed - todo && todo <= committed
        invariant queued == Elements(Hashes(was.queue)) - Elements(order)
        decreases todo
      {
        var h :| h in todo;
        todo := todo - {h};
        queued := queued - {h};
        OrderGrows(was.seen, order, h);
        RememberSpec(seen, h);
        order := order + [h];
        if h !in seenSet {
          seenSet := seenSet + {h};
          seen := seen + [h];
          if |seen| > SEEN_CAP {
            var oldest := seen[0];
            seen := seen[1..];
            seenSet := seenSet - {oldest};
          }
        }
      }
      CommitKeepsSound(hash, was, txs, order);
    }
  }

  method CommittedHashes<Tx(!new), Hash(==, !new)>(hash: Tx -> Option<Hash>, txs: seq<Tx>) returns (committed: set<Hash>)
    ensures committed == CommittedIn(hash, txs)
  {
    committed := {};
    for i := 0 to |txs|
      invariant committed == CommittedIn(hash, txs[..i])
    {
      var h := hash(txs[i]);
      CommittedNext(hash, txs, i);
      if h.Some? {
        committed := committed + {h.value};
      }
    }
    assert txs[..|txs|] == txs;
  }

  lemma CommittedNext<Tx(!new), Hash(!new)>(hash: Tx -> Option<Hash>, txs: seq<Tx>, i: nat)
    requires i < |txs|
    ensures CommittedIn(hash, txs[..i + 1])
         == CommittedIn(hash, txs[..i]) + if hash(txs[i]).Some? then {hash(txs[i]).value} else {}
  {
    var now, next := txs[..i], txs[..i + 1];
    assert forall j :: 0 <= j < i ==> now[j] == next[j];
    if hash(txs[i]).Some? {
      assert next[i] == txs[i];
    }
  }

  // -------------------------------------------------------------- small lemmas --

  lemma ElementsPlus<K(!new)>(s: seq<K>, x: K)
    ensures Elements(s + [x]) == Elements(s) + {x}
    ensures Distinct(s) && x !in Elements(s) ==> Distinct(s + [x])
  {
    assert forall y :: y in s + [x] <==> y in s || y == x;
  }

  lemma ElementsTail<K(!new)>(s: seq<K>)
    requires s != [] && Distinct(s)
    ensures Distinct(s[1..]) && Elements(s[1..]) == Elements(s) - {s[0]}
  {
    assert s == [s[0]] + s[1..];
  }

  lemma SoundParts<Tx(!new), Hash(!new)>(hash: Tx -> Option<Hash>, p: Pool<Tx, Hash>)
    requires Sound(hash, p)
    ensures Distinct(p.seen) && |p.seen| <= SEEN_CAP
  {
  }

  lemma NothingWalked<Hash(!new)>(seen: seq<Hash>, committed: set<Hash>)
    ensures RememberAll(seen, []) == seen && Distinct<Hash>([]) && Elements<Hash>([]) == {}
    ensures committed - committed == {}
  {
  }

  lemma OrderGrows<Hash(!new)>(seen: seq<Hash>, order: seq<Hash>, h: Hash)
    requires Distinct(order) && h !in Elements(order)
    ensures Distinct(order + [h]) && Elements(order + [h]) == Elements(order) + {h}
    ensures RememberAll(seen, order + [h]) == Remember(RememberAll(seen, order), h)
  {
    ElementsPlus(order, h);
    assert (order + [h])[..|order|] == order;
  }

  /** Remembering keeps the memory duplicate-free and bounded, takes the hash in, and gives up only the oldest. */
  lemma RememberSpec<Hash(!new)>(seen: seq<Hash>, h: Hash)
    requires Distinct(seen) && |seen| <= SEEN_CAP
    ensures var now := Remember(seen, h);
      && Distinct(now) && |now| <= SEEN_CAP && h in Elements(now)
      && Elements(now) <= Elements(seen) + {h}
      && (h in Elements(seen) ==> now == seen)
      && (h !in Elements(seen) ==>
            if |seen + [h]| > SEEN_CAP then
              now == (seen + [h])[1..] && Elements(now) == Elements(seen) + {h} - {(seen + [h])[0]}
            else
              now == seen + [h] && Elements(now) == Elements(seen) + {h})
  {
    ElementsPlus(seen, h);
    if h !in seen {
      ElementsTail(seen + [h]);
      assert h == (seen + [h])[|seen|];
    }
  }

  lemma {:induction false} RememberAllSpec<Hash(!new)>(seen: seq<Hash>, order: seq<Hash>)
    requires Distinct(seen) && |seen| <= SEEN_CAP
    ensures var now := RememberAll(seen, order);
      Distinct(now) && |now| <= SEEN_CAP && Elements(now) <= Elements(seen) + Elements(order)
    decreases |order|
  {
    if order != [] {
      var front, last := order[..|order| - 1], order[|order| - 1];
      RememberAllSpec(seen, front);
      RememberSpec(RememberAll(seen, front), last);
      assert order == front + [last];
      ElementsPlus(front, last);
    }
  }

  /** Exactly the uncommitted stay, each as it was. */
  lemma {:induction false} KeepSpec<Tx(!new), Hash(!new)>(queue: seq<(Tx, Hash)>, committed: set<Hash>)
    ensures forall e :: e in Keep(queue, committed) <==> e in queue && e.1 !in committed
    ensures |Keep(queue, committed)| <= |queue|
    decreases |queue|
  {
    if queue != [] {
      var front, last := queue[..|queue| - 1], queue[|queue| - 1];
      assert queue == front + [last];
      KeepSpec(front, committed);
    }
  }

  lemma {:induction false} KeepHashes<Tx(!new), Hash(!new)>(queue: seq<(Tx, Hash)>, committed: set<Hash>)
    requires Distinct(Hashes(queue))
    ensures Elements(Hashes(Keep(queue, committed))) == Elements(Hashes(queue)) - committed
    ensures Distinct(Hashes(Keep(queue, committed)))
    decreases |queue|
  {
    hide Distinct, Elements, Hashes;
    if queue != [] {
      var front, last := queue[..|queue| - 1], queue[|queue| - 1];
      assert queue == front + [last];
      HashesPlus(front, last);
      HashesPlus(Keep(front, committed), last);
      DistinctFront(Hashes(front), last.1);
      ElementsPlus(Hashes(front), last.1);
      KeepHashes(front, committed);
      ElementsPlus(Hashes(Keep(front, committed)), last.1);
      if last.1 in committed {
        assert Keep(queue, committed) == Keep(front, committed);
      } else {
        assert Keep(queue, committed) == Keep(front, committed) + [last];
      }
    } else {
      assert Keep(queue, committed) == queue;
      NoHashes(queue);
    }
  }

  lemma NoHashes<Tx(!new), Hash(!new)>(queue: seq<(Tx, Hash)>)
    ensures queue == [] ==> Elements(Hashes(queue)) == {}
  {
  }

  lemma HashesPlus<Tx, Hash>(queue: seq<(Tx, Hash)>, e: (Tx, Hash))
    ensures Hashes(queue + [e]) == Hashes(queue) + [e.1]
  {
  }

  lemma DistinctFront<K(!new)>(s: seq<K>, x: K)
    requires Distinct(s + [x])
    ensures Distinct(s) && x !in Elements(s)
  {
    assert (s + [x])[|s|] == x;
    assert forall i :: 0 <= i < |s| ==> (s + [x])[i] == s[i];
  }

  // ---------------------------------------------------------------- invariants --

  lemma PushKeepsSound<Tx(!new), Hash(!new)>(hash: Tx -> Option<Hash>, p: Pool<Tx, Hash>, tx: Tx)
    requires Sound(hash, p)
    ensures Sound(hash, Pushed(hash, p, tx))
  {
    if Accepts(hash, p, tx) {
      HashesPlus(p.queue, (tx, hash(tx).value));
      ElementsPlus(Hashes(p.queue), hash(tx).value);
    }
  }

  lemma CommitKeepsSound<Tx(!new), Hash(!new)>(hash: Tx -> Option<Hash>, p: Pool<Tx, Hash>, txs: seq<Tx>, order: seq<Hash>)
    requires Sound(hash, p) && Walks(order, CommittedIn(hash, txs))
    ensures Sound(hash, Committed(hash, p, txs, order))
    ensures Committed(hash, p, txs, order) == Pool(Keep(p.queue, CommittedIn(hash, txs)), RememberAll(p.seen, order))
    ensures Elements(Hashes(Keep(p.queue, CommittedIn(hash, txs)))) == Elements(Hashes(p.queue)) - CommittedIn(hash, txs)
  {
    hide CommittedIn, Keep, RememberAll, Distinct, Elements;
    var committed := CommittedIn(hash, txs);
    KeepSpec(p.queue, committed);
    KeepHashes(p.queue, committed);
    RememberAllSpec(p.seen, order);
    var kept := Keep(p.queue, committed);
    forall i | 0 <= i < |kept| ensures hash(kept[i].0) == Some(kept[i].1) {
      assert kept[i] in kept;
    }
  }

  /** What a step of a run does: a push, or a block whose hashes are walked in some order. */
  datatype Step<Tx, Hash> = Push(tx: Tx) | Commit(txs: seq<Tx>, order: seq<Hash>)

  ghost predicate Allowed<Tx(!new), Hash(!new)>(hash: Tx -> Option<Hash>, step: Step<Tx, Hash>) {
    step.Commit? ==> Walks(step.order, CommittedIn(hash, step.txs))
  }

  ghost function After<Tx(!new), Hash(!new)>(hash: Tx -> Option<Hash>, p: Pool<Tx, Hash>, steps: seq<Step<Tx, Hash>>): Pool<Tx, Hash> {
    if steps == [] then p
    else
      var before := After(hash, p, steps[..|steps| - 1]);
      var step := steps[|steps| - 1];
      if step.Push? then Pushed(hash, before, step.tx) else Committed(hash, before, step.txs, step.order)
  }

  /** Every run from a sound pool, so every run from the empty one, stays sound. */
  lemma {:induction false} RunKeepsSound<Tx(!new), Hash(!new)>(hash: Tx -> Option<Hash>, p: Pool<Tx, Hash>, steps: seq<Step<Tx, Hash>>)
    requires Sound(hash, p) && forall i :: 0 <= i < |steps| ==> Allowed(hash, steps[i])
    ensures Sound(hash, After(hash, p, steps))
    decreases |steps|
  {
    hide Sound;
    if steps != [] {
      var before := After(hash, p, steps[..|steps| - 1]);
      var step := steps[|steps| - 1];
      RunKeepsSound(hash, p, steps[..|steps| - 1]);
      assert Allowed(hash, step);
      if step.Push? {
        PushKeepsSound(hash, before, step.tx);
      } else {
        CommitKeepsSound(hash, before, step.txs, step.order);
      }
    }
  }

  // ---------------------------------------------------------------------- FIFO --

  /** Where in the queue each kept transaction stood. */
  function KeptAt<Tx, Hash(==)>(queue: seq<(Tx, Hash)>, committed: set<Hash>): seq<nat> {
    if queue == [] then []
    else
      KeptAt(queue[..|queue| - 1], committed) + if queue[|queue| - 1].1 in committed then [] else [|queue| - 1]
  }

  /** First in, first out: what is kept stands in the order it stood, and nothing uncommitted is skipped. */
  lemma {:induction false} KeepsOrder<Tx(!new), Hash(!new)>(queue: seq<(Tx, Hash)>, committed: set<Hash>)
    ensures var at := KeptAt(queue, committed);
      && |at| == |Keep(queue, committed)|
      && (forall i, j :: 0 <= i < j < |at| ==> at[i] < at[j])
      && (forall k :: 0 <= k < |at| ==> at[k] < |queue| && Keep(queue, committed)[k] == queue[at[k]])
      && (forall i :: 0 <= i < |queue| ==> (i in at <==> queue[i].1 !in committed))
    decreases |queue|
  {
    if queue != [] {
      var front, last := queue[..|queue| - 1], queue[|queue| - 1];
      KeepsOrder(front, committed);
      var at, atFront := KeptAt(queue, committed), KeptAt(front, committed);
      forall i | 0 <= i < |queue| ensures i in at <==> queue[i].1 !in committed {
        if i < |front| {
          assert i in at <==> i in atFront;
          assert front[i] == queue[i];
        } else {
          assert i !in atFront;
        }
      }
    }
  }

  ghost predicate StandsBefore<Tx(!new), Hash(!new)>(queue: seq<(Tx, Hash)>, e: (Tx, Hash), f: (Tx, Hash)) {
    exists a, b :: 0 <= a < b < |queue| && queue[a] == e && queue[b] == f
  }

  lemma IndexOrder(at: seq<nat>, k: nat, m: nat)
    requires forall i, j :: 0 <= i < j < |at| ==> at[i] < at[j]
    requires k < |at| && m < |at| && at[k] < at[m]
    ensures k < m
  {
  }

  lemma KeepStandsBefore<Tx(!new), Hash(!new)>(queue: seq<(Tx, Hash)>, committed: set<Hash>, e: (Tx, Hash), f: (Tx, Hash))
    requires StandsBefore(queue, e, f) && e.1 !in committed && f.1 !in committed
    ensures StandsBefore(Keep(queue, committed), e, f)
  {
    hide Keep;
    KeepsOrder(queue, committed);
    var a, b :| 0 <= a < b < |queue| && queue[a] == e && queue[b] == f;
    var at := KeptAt(queue, committed);
    var k :| 0 <= k < |at| && at[k] == a;
    var m :| 0 <= m < |at| && at[m] == b;
    assert Keep(queue, committed)[k] == e && Keep(queue, committed)[m] == f;
    IndexOrder(at, k, m);
  }

  /** One more step of a run keeps the order of two that are still waiting after it. */
  lemma StepStandsBefore<Tx(!new), Hash(!new)>(hash: Tx -> Option<Hash>, p: Pool<Tx, Hash>, steps: seq<Step<Tx, Hash>>,
                                               e: (Tx, Hash), f: (Tx, Hash))
    requires steps != [] && StandsBefore(After(hash, p, steps[..|steps| - 1]).queue, e, f)
    requires e in After(hash, p, steps).queue && f in After(hash, p, steps).queue
    ensures StandsBefore(After(hash, p, steps).queue, e, f)
  {
    hide Keep, CommittedIn, RememberAll;
    var before, step := After(hash, p, steps[..|steps| - 1]), steps[|steps| - 1];
    if step.Commit? {
      KeepSpec(before.queue, CommittedIn(hash, step.txs));
      KeepStandsBefore(before.queue, CommittedIn(hash, step.txs), e, f);
    } else {
      var a, b :| 0 <= a < b < |before.queue| && before.queue[a] == e && before.queue[b] == f;
      var now := After(hash, p, steps).queue;
      assert now[a] == e && now[b] == f;
    }
  }

  /** After the first k steps x is waiting, and has been since step i accepted it. */
  ghost predicate Waiting<Tx(!new), Hash(!new)>(hash: Tx -> Option<Hash>, p: Pool<Tx, Hash>, steps: seq<Step<Tx, Hash>>, i: nat, e: (Tx, Hash))
    requires i < |steps|
  {
    && steps[i] == Push(e.0) && hash(e.0) == Some(e.1)
    && Accepts(hash, After(hash, p, steps[..i]), e.0)
    && forall k :: i < k <= |steps| ==> e in After(hash, p, steps[..k]).queue
  }

  lemma AcceptedLast<Tx(!new), Hash(!new)>(hash: Tx -> Option<Hash>, p: Pool<Tx, Hash>, steps: seq<Step<Tx, Hash>>, j: nat,
                                           e: (Tx, Hash), f: (Tx, Hash))
    requires j < |steps| && steps[j] == Push(f.0) && hash(f.0) == Some(f.1) && Accepts(hash, After(hash, p, steps[..j]), f.0)
    requires e in After(hash, p, steps[..j]).queue
    ensures StandsBefore(After(hash, p, steps[..j + 1]).queue, e, f)
  {
    hide Accepts;
    var before := After(hash, p, steps[..j]).queue;
    assert steps[..j + 1][..j] == steps[..j];
    var now := After(hash, p, steps[..j + 1]).queue;
    assert now == before + [f];
    var a :| 0 <= a < |before| && before[a] == e;
    assert now[a] == e && now[|before|] == f;
  }

  lemma {:induction false} StillBefore<Tx(!new), Hash(!new)>(hash: Tx -> Option<Hash>, p: Pool<Tx, Hash>,
                                                             steps: seq<Step<Tx, Hash>>, i: nat, j: nat,
                                                             e: (Tx, Hash), f: (Tx, Hash), k: nat)
    requires i < j < k <= |steps| && Waiting(hash, p, steps, i, e) && Waiting(hash, p, steps, j, f)
    ensures StandsBefore(After(hash, p, steps[..k]).queue, e, f)
    decreases k
  {
    hide After, Accepts, StandsBefore;
    if k == j + 1 {
      AcceptedLast(hash, p, steps, j, e, f);
    } else {
      StillBefore(hash, p, steps, i, j, e, f, k - 1);
      assert steps[..k][..k - 1] == steps[..k - 1];
      StepStandsBefore(hash, p, steps[..k], e, f);
    }
  }

  /** First in, first out over runs: of two that have both been waiting since they were accepted, whatever was pushed and
      committed meanwhile, the one accepted first stands first. */
  lemma FirstAcceptedFirst<Tx(!new), Hash(!new)>(hash: Tx -> Option<Hash>, p: Pool<Tx, Hash>, steps: seq<Step<Tx, Hash>>,
                                                 i: nat, j: nat, e: (Tx, Hash), f: (Tx, Hash))
    requires i < j < |steps| && Waiting(hash, p, steps, i, e) && Waiting(hash, p, steps, j, f)
    ensures StandsBefore(After(hash, p, steps).queue, e, f)
  {
    hide After, Waiting, StandsBefore;
    StillBefore(hash, p, steps, i, j, e, f, |steps|);
    assert steps[..|steps|] == steps;
  }

  /** So a batch is the earliest accepted of those waiting: it holds nobody without those accepted before them. */
  lemma BatchIsEarliest<Tx(!new), Hash(!new)>(hash: Tx -> Option<Hash>, p: Pool<Tx, Hash>, steps: seq<Step<Tx, Hash>>,
                                              i: nat, j: nat, e: (Tx, Hash), f: (Tx, Hash), n: nat)
    requires Sound(hash, p) && forall k :: 0 <= k < |steps| ==> Allowed(hash, steps[k])
    requires i < j < |steps| && Waiting(hash, p, steps, i, e) && Waiting(hash, p, steps, j, f)
    requires n <= |After(hash, p, steps).queue| && f in After(hash, p, steps).queue[..n]
    ensures e in After(hash, p, steps).queue[..n]
  {
    hide After, Waiting, Allowed;
    FirstAcceptedFirst(hash, p, steps, i, j, e, f);
    RunKeepsSound(hash, p, steps);
    var queue := After(hash, p, steps).queue;
    var a, b :| 0 <= a < b < |queue| && queue[a] == e && queue[b] == f;
    var m :| 0 <= m < n && queue[m] == f;
    assert Hashes(queue)[m] == Hashes(queue)[b];
    assert queue[..n][a] == e;
  }

  /** With no block between, what waited is where it was, and everything accepted since is behind it. */
  lemma {:induction false} PushesOnlyAppend<Tx(!new), Hash(!new)>(hash: Tx -> Option<Hash>, p: Pool<Tx, Hash>, steps: seq<Step<Tx, Hash>>)
    requires forall k :: 0 <= k < |steps| ==> steps[k].Push?
    ensures p.queue <= After(hash, p, steps).queue
    decreases |steps|
  {
    hide Accepts;
    if steps != [] {
      PushesOnlyAppend(hash, p, steps[..|steps| - 1]);
    }
  }

  /** A block built from a batch and committed takes exactly that batch off the front. */
  lemma BatchLeaves<Tx(!new), Hash(!new)>(hash: Tx -> Option<Hash>, p: Pool<Tx, Hash>, n: nat, order: seq<Hash>)
    requires Sound(hash, p) && n <= |p.queue|
    ensures Committed(hash, p, Txs(p.queue[..n]), order).queue == p.queue[n..]
  {
    var committed := CommittedIn(hash, Txs(p.queue[..n]));
    BatchHashes(hash, p, n);
    assert p.queue[..|p.queue|] == p.queue;
    KeepFromBatch(p.queue, committed, n, |p.queue|);
  }

  lemma BatchHashes<Tx(!new), Hash(!new)>(hash: Tx -> Option<Hash>, p: Pool<Tx, Hash>, n: nat)
    requires Sound(hash, p) && n <= |p.queue|
    ensures forall i :: 0 <= i < |p.queue| ==> (p.queue[i].1 in CommittedIn(hash, Txs(p.queue[..n])) <==> i < n)
  {
    var txs := Txs(p.queue[..n]);
    var committed := CommittedIn(hash, txs);
    assert forall i :: 0 <= i < n ==> txs[i] == p.queue[i].0;
    forall i | 0 <= i < |p.queue| ensures p.queue[i].1 in committed <==> i < n {
      if i < n {
        assert hash(txs[i]) == Some(p.queue[i].1);
      } else {
        forall j | 0 <= j < n ensures hash(txs[j]) != Some(p.queue[i].1) {
          assert Hashes(p.queue)[j] != Hashes(p.queue)[i];
        }
      }
    }
  }

  lemma KeepNext<Tx(!new), Hash(!new)>(queue: seq<(Tx, Hash)>, committed: set<Hash>, m: nat)
    requires 0 < m <= |queue|
    ensures Keep(queue[..m], committed)
         == if queue[m - 1].1 in committed then Keep(queue[..m - 1], committed) else Keep(queue[..m - 1], committed) + [queue[m - 1]]
  {
    assert queue[..m][..m - 1] == queue[..m - 1] && queue[..m][m - 1] == queue[m - 1];
  }

  lemma {:induction false} KeepFromBatch<Tx(!new), Hash(!new)>(queue: seq<(Tx, Hash)>, committed: set<Hash>, n: nat, m: nat)
    requires n <= |queue| && m <= |queue|
    requires forall i :: 0 <= i < |queue| ==> (queue[i].1 in committed <==> i < n)
    ensures Keep(queue[..m], committed) == if m <= n then [] else queue[n..m]
    decreases m
  {
    hide Keep;
    if m > 0 {
      KeepFromBatch(queue, committed, n, m - 1);
      KeepNext(queue, committed, m);
      if m > n {
        assert queue[n..m] == queue[n..m - 1] + [queue[m - 1]];
      }
    } else {
      KeepNone(queue[..m], committed);
    }
  }

  lemma KeepNone<Tx(!new), Hash(!new)>(queue: seq<(Tx, Hash)>, committed: set<Hash>)
    ensures queue == [] ==> Keep(queue, committed) == []
  {
  }

  // ------------------------------------------------------------------ re-gossip --

  /** How many more hashes the memory takes in before it gives this one up is at least the cap less where it stands from the end. */
  ghost predicate Stands<Hash(!new)>(seen: seq<Hash>, h: Hash, fromEnd: nat) {
    exists i :: 0 <= i < |seen| && seen[i] == h && |seen| - i <= fromEnd
  }

  lemma RememberKeeps<Hash(!new)>(seen: seq<Hash>, x: Hash, h: Hash, fromEnd: nat)
    requires Stands(seen, h, fromEnd) && fromEnd + 1 <= SEEN_CAP
    ensures Stands(Remember(seen, x), h, fromEnd + 1)
  {
    var i :| 0 <= i < |seen| && seen[i] == h && |seen| - i <= fromEnd;
    var now := Remember(seen, x);
    if x in seen {
      assert now[i] == h;
    } else if |seen| + 1 > SEEN_CAP {
      assert now[i - 1] == h;
    } else {
      assert now[i] == h;
    }
  }

  lemma {:induction false} RememberAllKeeps<Hash(!new)>(seen: seq<Hash>, order: seq<Hash>, h: Hash, fromEnd: nat)
    requires Stands(seen, h, fromEnd) && fromEnd + |order| <= SEEN_CAP
    ensures Stands(RememberAll(seen, order), h, fromEnd + |order|)
    decreases |order|
  {
    if order != [] {
      RememberAllKeeps(seen, order[..|order| - 1], h, fromEnd);
      RememberKeeps(RememberAll(seen, order[..|order| - 1]), order[|order| - 1], h, fromEnd + |order| - 1);
    }
  }

  /** A newly committed hash stands among the youngest, at whatever point of the walk it came. */
  lemma {:induction false} NewlyStands<Hash(!new)>(seen: seq<Hash>, order: seq<Hash>, h: Hash)
    requires Distinct(order) && h in order && h !in seen && |order| <= SEEN_CAP
    requires Distinct(seen) && |seen| <= SEEN_CAP
    ensures Stands(RememberAll(seen, order), h, |order|)
    decreases |order|
  {
    var front, last := order[..|order| - 1], order[|order| - 1];
    assert order == front + [last];
    var before := RememberAll(seen, front);
    RememberAllSpec(seen, front);
    if h == last {
      assert h !in Elements(front) && h !in Elements(seen);
      assert h !in Elements(before);
      var now := RememberAll(seen, order);
      assert now[|now| - 1] == h;
    } else {
      NewlyStands(seen, front, h);
      RememberKeeps(before, last, h, |front|);
    }
  }

  ghost function CommittedCount<Tx(!new), Hash(!new)>(steps: seq<Step<Tx, Hash>>): nat {
    if steps == [] then 0
    else CommittedCount(steps[..|steps| - 1]) + if steps[|steps| - 1].Commit? then |steps[|steps| - 1].order| else 0
  }

  lemma {:induction false} RunRemembers<Tx(!new), Hash(!new)>(hash: Tx -> Option<Hash>, p: Pool<Tx, Hash>,
                                                              steps: seq<Step<Tx, Hash>>, h: Hash, fromEnd: nat)
    requires Stands(p.seen, h, fromEnd) && fromEnd + CommittedCount(steps) <= SEEN_CAP
    ensures Stands(After(hash, p, steps).seen, h, fromEnd + CommittedCount(steps))
    decreases |steps|
  {
    hide Stands, RememberAll, Keep, CommittedIn, Accepts;
    if steps != [] {
      var front, step := steps[..|steps| - 1], steps[|steps| - 1];
      RunRemembers(hash, p, front, h, fromEnd);
      if step.Commit? {
        RememberAllKeeps(After(hash, p, front).seen, step.order, h, fromEnd + CommittedCount(front));
      }
    }
  }

  /** Re-gossip: a transaction newly committed by a block is refused from then on, through any run, until as many hashes
      as the memory holds have been committed, the block's own included. */
  lemma RefusesRegossip<Tx(!new), Hash(!new)>(hash: Tx -> Option<Hash>, p: Pool<Tx, Hash>, txs: seq<Tx>, order: seq<Hash>,
                                              steps: seq<Step<Tx, Hash>>, tx: Tx)
    requires Sound(hash, p) && Walks(order, CommittedIn(hash, txs))
    requires hash(tx).Some? && hash(tx).value in CommittedIn(hash, txs) && hash(tx).value !in p.seen
    requires |order| + CommittedCount(steps) <= SEEN_CAP
    ensures !Accepts(hash, After(hash, Committed(hash, p, txs, order), steps), tx)
  {
    hide CommittedIn, After, CommittedCount, Keep, RememberAll;
    var h := hash(tx).value;
    assert h in Elements(order);
    NewlyStands(p.seen, order, h);
    RunRemembers(hash, Committed(hash, p, txs, order), steps, h, |order|);
  }

  /** A remembered transaction is refused until the hashes committed since fill the memory from where it stands. */
  lemma RememberedIsRefused<Tx(!new), Hash(!new)>(hash: Tx -> Option<Hash>, p: Pool<Tx, Hash>, steps: seq<Step<Tx, Hash>>,
                                                  tx: Tx, i: nat)
    requires hash(tx).Some? && i < |p.seen| && p.seen[i] == hash(tx).value
    requires |p.seen| - i + CommittedCount(steps) <= SEEN_CAP
    ensures !Accepts(hash, After(hash, p, steps), tx)
  {
    hide After, CommittedCount;
    RunRemembers(hash, p, steps, hash(tx).value, |p.seen| - i);
  }

  /** Committed a second time, a hash keeps its old place: the oldest of a full memory, walked first, is forgotten by the
      very block that commits it again, and accepted the next time it comes where the queue has room. */
  lemma RecommittedForgotten<Tx(!new), Hash(!new)>(hash: Tx -> Option<Hash>, p: Pool<Tx, Hash>, txs: seq<Tx>,
                                                   tx: Tx, newest: Hash)
    requires Sound(hash, p) && |p.seen| == SEEN_CAP && hash(tx) == Some(p.seen[0]) && newest !in p.seen
    requires CommittedIn(hash, txs) == {p.seen[0], newest}
    ensures Walks([p.seen[0], newest], CommittedIn(hash, txs))
    ensures p.seen[0] !in Committed(hash, p, txs, [p.seen[0], newest]).seen
    ensures |p.queue| < MAX_QUEUE_LEN ==> Accepts(hash, Committed(hash, p, txs, [p.seen[0], newest]), tx)
  {
    hide CommittedIn, Keep, Hashes, Distinct;
    var oldest := p.seen[0];
    var order := [oldest, newest];
    assert order[..1] == [oldest] && [oldest][..0] == [];
    assert RememberAll(p.seen, [oldest]) == p.seen;
    assert RememberAll(p.seen, order) == (p.seen + [newest])[1..];
    TwoWalk(oldest, newest);
    OldestGoes(p.seen, newest);
    KeepHashes(p.queue, CommittedIn(hash, txs));
    KeepSpec(p.queue, CommittedIn(hash, txs));
  }

  lemma TwoWalk<Hash(!new)>(a: Hash, b: Hash)
    requires a != b
    ensures Walks([a, b], {a, b})
  {
  }

  lemma OldestGoes<Hash(!new)>(seen: seq<Hash>, newest: Hash)
    requires seen != [] && Distinct(seen) && newest !in seen
    ensures seen[0] !in (seen + [newest])[1..]
  {
    var now := (seen + [newest])[1..];
    forall j | 0 <= j < |now| ensures now[j] != seen[0] {
      assert now[j] == if j + 1 < |seen| then seen[j + 1] else newest;
    }
  }
}
