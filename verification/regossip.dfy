/** How long the pool refuses what a block has committed: exactly as long as its memory lasts. */
module Regossip {
  import opened Wrappers
  import opened Sums
  import opened Mempools

  // ------------------------------------------------------- what new hashes push out --

  function Newest<Hash>(s: seq<Hash>): seq<Hash> {
    if |s| <= SEEN_CAP then s else s[|s| - SEEN_CAP..]
  }

  lemma NewestNext<Hash>(s: seq<Hash>, h: Hash)
    ensures Newest(s + [h])
         == if |Newest(s)| + 1 > SEEN_CAP then (Newest(s) + [h])[1..] else Newest(s) + [h]
  {
  }

  /** Hashes all new leave the youngest of everything ever remembered. */
  lemma {:induction false} AllNewStay<Hash(!new)>(seen: seq<Hash>, order: seq<Hash>)
    requires |seen| <= SEEN_CAP && Distinct(seen + order)
    ensures RememberAll(seen, order) == Newest(seen + order)
    decreases |order|
  {
    if order == [] {
      assert seen + order == seen;
    } else {
      var front, last := order[..|order| - 1], order[|order| - 1];
      var before := seen + front;
      assert seen + order == before + [last];
      DistinctFront(before, last);
      AllNewStay(seen, front);
      assert last !in Newest(before);
      NewestNext(before, last);
    }
  }

  /** What stands a whole memory or more from the end is gone. */
  lemma OldAreGone<Hash(!new)>(s: seq<Hash>, i: nat)
    requires Distinct(s) && i + SEEN_CAP < |s|
    ensures s[i] !in Newest(s)
  {
    var now, k := Newest(s), |s| - SEEN_CAP;
    forall j | 0 <= j < |now| ensures now[j] != s[i] {
      assert now[j] == s[k + j];
    }
  }

  lemma {:induction false} KnownFirst<Hash(!new)>(seen: seq<Hash>, h: Hash, rest: seq<Hash>)
    requires h in seen
    ensures RememberAll(seen, [h] + rest) == RememberAll(seen, rest)
    decreases |rest|
  {
    if rest == [] {
      assert [h] + rest == [h];
      assert RememberAll(seen, [h]) == Remember(RememberAll(seen, []), h);
    } else {
      var front := rest[..|rest| - 1];
      assert ([h] + rest)[..|rest|] == [h] + front;
      KnownFirst(seen, h, front);
    }
  }

  // ------------------------------------------------------------ blocks of new hashes --

  function HashList<Tx, Hash>(hash: Tx -> Option<Hash>, txs: seq<Tx>): seq<Hash>
    requires forall j :: 0 <= j < |txs| ==> hash(txs[j]).Some?
  {
    seq(|txs|, j requires 0 <= j < |txs| => hash(txs[j]).value)
  }

  /** Transactions whose hashes are new to the list and to each other. */
  ghost predicate NewTo<Tx(!new), Hash(!new)>(hash: Tx -> Option<Hash>, seen: seq<Hash>, txs: seq<Tx>) {
    && (forall j :: 0 <= j < |txs| ==> hash(txs[j]).Some?)
    && Distinct(seen + HashList(hash, txs))
  }

  lemma ListWalks<Tx(!new), Hash(!new)>(hash: Tx -> Option<Hash>, txs: seq<Tx>)
    requires forall j :: 0 <= j < |txs| ==> hash(txs[j]).Some?
    requires Distinct(HashList(hash, txs))
    ensures Walks(HashList(hash, txs), CommittedIn(hash, txs))
  {
    var list := HashList(hash, txs);
    forall h | h in list ensures h in CommittedIn(hash, txs) {
      var j :| 0 <= j < |list| && list[j] == h;
      assert hash(txs[j]).value == h;
    }
    forall h | h in CommittedIn(hash, txs) ensures h in list {
      var j :| 0 <= j < |txs| && hash(txs[j]).Some? && hash(txs[j]).value == h;
      assert list[j] == h;
    }
  }

  lemma DistinctParts<K(!new)>(s: seq<K>, t: seq<K>)
    requires Distinct(s + t)
    ensures Distinct(s) && Distinct(t) && forall x :: x in s ==> x !in t
  {
    assert forall i :: 0 <= i < |s| ==> (s + t)[i] == s[i];
    assert forall j :: 0 <= j < |t| ==> (s + t)[|s| + j] == t[j];
  }

  // ------------------------------------------------------------- how long, exactly --

  ghost predicate AllAllowed<Tx(!new), Hash(!new)>(hash: Tx -> Option<Hash>, steps: seq<Step<Tx, Hash>>) {
    forall i :: 0 <= i < |steps| ==> Allowed(hash, steps[i])
  }

  /** Every run that commits at most n hashes still remembers h. */
  ghost predicate RemembersThrough<Tx(!new), Hash(!new)>(hash: Tx -> Option<Hash>, p: Pool<Tx, Hash>, h: Hash, n: nat) {
    forall steps: seq<Step<Tx, Hash>> :: AllAllowed(hash, steps) && CommittedCount(steps) <= n ==> h in After(hash, p, steps).seen
  }

  lemma OneBlock<Tx(!new), Hash(!new)>(hash: Tx -> Option<Hash>, p: Pool<Tx, Hash>, txs: seq<Tx>, order: seq<Hash>)
    requires Walks(order, CommittedIn(hash, txs))
    ensures var steps: seq<Step<Tx, Hash>> := [Commit(txs, order)];
      AllAllowed(hash, steps) && CommittedCount(steps) == |order| && After(hash, p, steps) == Committed(hash, p, txs, order)
  {
    hide Walks, CommittedIn, Committed;
    var steps: seq<Step<Tx, Hash>> := [Commit(txs, order)];
    assert steps[..0] == [];
    assert CommittedCount(steps) == CommittedCount(steps[..0]) + |order|;
    assert After(hash, p, steps[..0]) == p;
  }

  /** A remembered hash outlives n more exactly when they still fit behind it. */
  lemma RememberedExactly<Tx(!new), Hash(!new)>(hash: Tx -> Option<Hash>, p: Pool<Tx, Hash>, i: nat, txs: seq<Tx>)
    requires Sound(hash, p) && i < |p.seen| && NewTo(hash, p.seen, txs)
    ensures RemembersThrough(hash, p, p.seen[i], |txs|) <==> |p.seen| - i + |txs| <= SEEN_CAP
  {
    hide Sound, After, CommittedCount, CommittedIn, RememberAll, Keep, AllAllowed, Walks;
    SoundParts(hash, p);
    if |p.seen| - i + |txs| <= SEEN_CAP {
      forall steps: seq<Step<Tx, Hash>> | AllAllowed(hash, steps) && CommittedCount(steps) <= |txs|
        ensures p.seen[i] in After(hash, p, steps).seen
      {
        RunRemembers(hash, p, steps, p.seen[i], |p.seen| - i);
      }
    } else {
      var order := HashList(hash, txs);
      DistinctParts(p.seen, order);
      ListWalks(hash, txs);
      OneBlock(hash, p, txs, order);
      AllNewStay(p.seen, order);
      OldAreGone(p.seen + order, i);
      assert (p.seen + order)[i] == p.seen[i];
      assert p.seen[i] !in After(hash, p, [Commit(txs, order)]).seen;
    }
  }

  // -------------------------------------------------------------------- re-gossip --

  /** Whatever block commits the transaction, and whatever follows, up to n committed hashes in all: it is refused. */
  ghost predicate RefusedThrough<Tx(!new), Hash(!new)>(hash: Tx -> Option<Hash>, p: Pool<Tx, Hash>, tx: Tx, n: nat)
    requires hash(tx).Some?
  {
    forall txs: seq<Tx>, order: seq<Hash>, steps: seq<Step<Tx, Hash>> ::
      Walks(order, CommittedIn(hash, txs)) && hash(tx).value in CommittedIn(hash, txs)
      && AllAllowed(hash, steps) && |order| + CommittedCount(steps) <= n
      ==> !Accepts(hash, After(hash, Committed(hash, p, txs, order), steps), tx)
  }

  /** Walking a block in which a remembered hash stands among others: it moves no further than the others push it. */
  lemma {:induction false} SelfTakesNoPlace<Hash(!new)>(seen: seq<Hash>, order: seq<Hash>, h: Hash, fromEnd: nat)
    requires Stands(seen, h, fromEnd) && Distinct(order) && h in order && fromEnd + |order| <= SEEN_CAP + 1
    ensures Stands(RememberAll(seen, order), h, fromEnd + |order| - 1)
    decreases |order|
  {
    hide Stands;
    var front, last := order[..|order| - 1], order[|order| - 1];
    assert order == front + [last];
    DistinctFront(front, last);
    if last == h {
      RememberAllKeeps(seen, front, h, fromEnd);
      StandsIn(RememberAll(seen, front), h, fromEnd + |front|);
    } else {
      SelfTakesNoPlace(seen, front, h, fromEnd);
      RememberKeeps(RememberAll(seen, front), last, h, fromEnd + |front| - 1);
    }
  }

  lemma StandsIn<Hash(!new)>(seen: seq<Hash>, h: Hash, fromEnd: nat)
    requires Stands(seen, h, fromEnd)
    ensures h in seen
  {
  }

  lemma StandsRefused<Tx(!new), Hash(!new)>(hash: Tx -> Option<Hash>, p: Pool<Tx, Hash>, steps: seq<Step<Tx, Hash>>,
                                            tx: Tx, fromEnd: nat)
    requires hash(tx).Some? && Stands(p.seen, hash(tx).value, fromEnd) && fromEnd + CommittedCount(steps) <= SEEN_CAP
    ensures !Accepts(hash, After(hash, p, steps), tx)
  {
    hide Stands, After, CommittedCount;
    RunRemembers(hash, p, steps, hash(tx).value, fromEnd);
    StandsIn(After(hash, p, steps).seen, hash(tx).value, fromEnd + CommittedCount(steps));
  }

  /** A committed and forgotten transaction is accepted where the queue has room. */
  lemma ForgottenAccepted<Tx(!new), Hash(!new)>(hash: Tx -> Option<Hash>, p: Pool<Tx, Hash>, txs: seq<Tx>,
                                                order: seq<Hash>, tx: Tx)
    requires Sound(hash, p) && |p.queue| < MAX_QUEUE_LEN
    requires hash(tx).Some? && hash(tx).value in CommittedIn(hash, txs) && hash(tx).value !in RememberAll(p.seen, order)
    ensures Accepts(hash, Committed(hash, p, txs, order), tx)
  {
    hide CommittedIn, RememberAll, Keep;
    KeepHashes(p.queue, CommittedIn(hash, txs));
    KeepSpec(p.queue, CommittedIn(hash, txs));
  }

  /** A block of the transaction and new ones, the transaction walked first. */
  lemma BlockWith<Tx(!new), Hash(!new)>(hash: Tx -> Option<Hash>, tx: Tx, txs: seq<Tx>)
    requires hash(tx).Some? && NewTo(hash, [hash(tx).value], txs)
    ensures Walks([hash(tx).value] + HashList(hash, txs), CommittedIn(hash, [tx] + txs))
    ensures hash(tx).value in CommittedIn(hash, [tx] + txs)
  {
    var block := [tx] + txs;
    assert HashList(hash, block) == [hash(tx).value] + HashList(hash, txs);
    ListWalks(hash, block);
    assert block[0] == tx;
  }

  /** Where the block pushes its own transaction out, it is accepted again. */
  lemma NotRefused<Tx(!new), Hash(!new)>(hash: Tx -> Option<Hash>, p: Pool<Tx, Hash>, tx: Tx, txs: seq<Tx>, n: nat)
    requires Sound(hash, p) && |p.queue| < MAX_QUEUE_LEN && hash(tx).Some? && |txs| + 1 <= n
    requires NewTo(hash, [hash(tx).value], txs)
    requires hash(tx).value !in RememberAll(p.seen, [hash(tx).value] + HashList(hash, txs))
    ensures !RefusedThrough(hash, p, tx, n)
  {
    hide CommittedIn, RememberAll, Walks, Sound, Committed, Accepts, Distinct;
    var order := [hash(tx).value] + HashList(hash, txs);
    BlockWith(hash, tx, txs);
    ForgottenAccepted(hash, p, [tx] + txs, order, tx);
    var none: seq<Step<Tx, Hash>> := [];
    assert AllAllowed(hash, none) && CommittedCount(none) == 0;
    assert After(hash, Committed(hash, p, [tx] + txs, order), none) == Committed(hash, p, [tx] + txs, order);
  }

  /** A transaction no block the memory knows has committed is refused for n hashes, its own included, exactly when n fit
      the memory. */
  lemma FirstCommitExactly<Tx(!new), Hash(!new)>(hash: Tx -> Option<Hash>, p: Pool<Tx, Hash>, tx: Tx, txs: seq<Tx>)
    requires Sound(hash, p) && |p.queue| < MAX_QUEUE_LEN && hash(tx).Some? && hash(tx).value !in p.seen
    requires NewTo(hash, p.seen + [hash(tx).value], txs)
    ensures RefusedThrough(hash, p, tx, |txs| + 1) <==> |txs| + 1 <= SEEN_CAP
  {
    hide CommittedIn, RememberAll, Walks, Sound, Committed, Accepts, CommittedCount, After, AllAllowed, Distinct;
    SoundParts(hash, p);
    var h := hash(tx).value;
    if |txs| + 1 <= SEEN_CAP {
      forall block: seq<Tx>, order: seq<Hash>, steps: seq<Step<Tx, Hash>> |
        Walks(order, CommittedIn(hash, block)) && h in CommittedIn(hash, block)
        && AllAllowed(hash, steps) && |order| + CommittedCount(steps) <= |txs| + 1
        ensures !Accepts(hash, After(hash, Committed(hash, p, block, order), steps), tx)
      {
        RefusesRegossip(hash, p, block, order, steps, tx);
      }
    } else {
      var order := [h] + HashList(hash, txs);
      NewBehind(hash, p.seen, h, txs);
      AllNewStay(p.seen, order);
      OldAreGone(p.seen + order, |p.seen|);
      assert (p.seen + order)[|p.seen|] == h;
      NotRefused(hash, p, tx, txs, |txs| + 1);
    }
  }

  lemma NewBehind<Tx(!new), Hash(!new)>(hash: Tx -> Option<Hash>, seen: seq<Hash>, h: Hash, txs: seq<Tx>)
    requires NewTo(hash, seen + [h], txs)
    ensures Distinct(seen + ([h] + HashList(hash, txs))) && NewTo(hash, [h], txs)
  {
    assert seen + [h] + HashList(hash, txs) == seen + ([h] + HashList(hash, txs));
    DistinctParts(seen, [h] + HashList(hash, txs));
  }

  /** A transaction the memory already holds at i is refused for n hashes, its own included, exactly when the others fit
      behind it: committed again, it takes no new place. */
  lemma RecommitExactly<Tx(!new), Hash(!new)>(hash: Tx -> Option<Hash>, p: Pool<Tx, Hash>, tx: Tx, i: nat, txs: seq<Tx>)
    requires Sound(hash, p) && |p.queue| < MAX_QUEUE_LEN
    requires hash(tx).Some? && i < |p.seen| && p.seen[i] == hash(tx).value && NewTo(hash, p.seen, txs)
    ensures RefusedThrough(hash, p, tx, |txs| + 1) <==> |p.seen| - i + |txs| <= SEEN_CAP
  {
    hide CommittedIn, RememberAll, Walks, Sound, Committed, Accepts, CommittedCount, After, AllAllowed, Distinct;
    SoundParts(hash, p);
    var h := hash(tx).value;
    if |p.seen| - i + |txs| <= SEEN_CAP {
      forall block: seq<Tx>, order: seq<Hash>, steps: seq<Step<Tx, Hash>> |
        Walks(order, CommittedIn(hash, block)) && h in CommittedIn(hash, block)
        && AllAllowed(hash, steps) && |order| + CommittedCount(steps) <= |txs| + 1
        ensures !Accepts(hash, After(hash, Committed(hash, p, block, order), steps), tx)
      {
        WalkedThrough(order, CommittedIn(hash, block), h);
        assert Stands(p.seen, h, |p.seen| - i);
        SelfTakesNoPlace(p.seen, order, h, |p.seen| - i);
        CommittedSeen(hash, p, block, order);
        StandsRefused(hash, Committed(hash, p, block, order), steps, tx, |p.seen| - i + |order| - 1);
      }
    } else {
      NewToOne(hash, p.seen, i, txs);
      KnownFirst(p.seen, h, HashList(hash, txs));
      AllNewStay(p.seen, HashList(hash, txs));
      OldAreGone(p.seen + HashList(hash, txs), i);
      assert (p.seen + HashList(hash, txs))[i] == h;
      NotRefused(hash, p, tx, txs, |txs| + 1);
    }
  }

  lemma WalkedThrough<Hash(!new)>(order: seq<Hash>, committed: set<Hash>, h: Hash)
    requires Walks(order, committed) && h in committed
    ensures Distinct(order) && h in order
  {
    assert h in Elements(order);
  }

  lemma CommittedSeen<Tx(!new), Hash(!new)>(hash: Tx -> Option<Hash>, p: Pool<Tx, Hash>, txs: seq<Tx>, order: seq<Hash>)
    ensures Committed(hash, p, txs, order).seen == RememberAll(p.seen, order)
  {
  }

  lemma NewToOne<Tx(!new), Hash(!new)>(hash: Tx -> Option<Hash>, seen: seq<Hash>, i: nat, txs: seq<Tx>)
    requires NewTo(hash, seen, txs) && i < |seen|
    ensures NewTo(hash, [seen[i]], txs)
  {
    var list := HashList(hash, txs);
    DistinctParts(seen, list);
    var few := [seen[i]] + list;
    forall a, b | 0 <= a < b < |few| ensures few[a] != few[b] {
      assert few[b] == list[b - 1] && list[b - 1] in list && seen[i] in seen;
      assert a > 0 ==> few[a] == list[a - 1];
    }
  }
}
