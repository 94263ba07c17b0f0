/** Building a validator set, and power-proportional, stateless proposer selection over it. */
module Proposers {
  import opened Arithmetic
  import opened Wrappers
  import opened Sums
  import opened Ordered

  const MAX_VALIDATOR_POWER: nat := 1_000_000

  /** One past the largest 64-bit value. */
  const WORD: nat := 0x1_0000_0000_0000_0000

  type Key = seq<bv8>

  /** A public key is told apart by the bytes it was parsed from. */
  datatype Validator = Validator(address: nat, publicKey: Key, power: nat)

  datatype BuildError =
    | Empty
    | MissingMember(id: nat)
    | MissingConsensusKey(id: nat)
    | UnparseableKey(id: nat)
    | PowerTooLarge(id: nat)
    | TotalPowerOverflow

  /** What a set is built from: each member's current consensus key, the recorded keys of the height, what parses. */
  datatype Source = Source(members: map<nat, Option<Key>>, keys: map<nat, Key>, parses: Key -> bool)

  function Resolve(source: Source, id: nat): Result<Key, BuildError> {
    var key :=
      if id in source.keys then Ok(source.keys[id])
      else if id !in source.members then Err(MissingMember(id))
      else if source.members[id].None? then Err(MissingConsensusKey(id))
      else Ok(source.members[id].value);
    if key.Ok? && !source.parses(key.value) then Err(UnparseableKey(id)) else key
  }

  // ------------------------------------------------------------------ ordering --

  /** Power descending, then address ascending. */
  predicate Before(a: Validator, b: Validator) {
    a.power > b.power || (a.power == b.power && a.address < b.address)
  }

  ghost predicate Canonical(vs: seq<Validator>) {
    Sorted(vs, Before)
  }

  /** A new set holds the validators in canonical order. */
  function NewSet(vs: seq<Validator>): seq<Validator> {
    SortedBy(vs, Before)
  }

  /** The order consensus indexes into, in powers and addresses: no power before a greater one, and among equal powers
      addresses ascending. */
  ghost predicate HighestFirst(vs: seq<Validator>) {
    forall i, j :: 0 <= i < j < |vs| ==>
      vs[i].power >= vs[j].power && (vs[i].power == vs[j].power ==> vs[i].address < vs[j].address)
  }

  function Power(vs: seq<Validator>, k: nat): nat
    requires k <= |vs|
  {
    if k == 0 then 0 else Power(vs, k - 1) + vs[k - 1].power
  }

  lemma {:induction false} PowerOf(vs: seq<Validator>, us: seq<Validator>, k: nat)
    requires k <= |vs| && k <= |us| && vs[..k] == us[..k]
    ensures Power(vs, k) == Power(us, k)
    decreases k
  {
    if k > 0 {
      assert vs[..k][k - 1] == us[..k][k - 1];
      assert vs[..k - 1] == vs[..k][..k - 1] && us[..k - 1] == us[..k][..k - 1];
      PowerOf(vs, us, k - 1);
    }
  }

  lemma {:induction false} PowerFirst(x: Validator, vs: seq<Validator>, k: nat)
    requires k <= |vs|
    ensures Power([x] + vs, k + 1) == x.power + Power(vs, k)
    decreases k
  {
    if k > 0 {
      PowerFirst(x, vs, k - 1);
    }
  }

  lemma {:induction false} InsertedPower(x: Validator, vs: seq<Validator>)
    ensures |Inserted(x, vs, Before)| == |vs| + 1
    ensures Power(Inserted(x, vs, Before), |vs| + 1) == x.power + Power(vs, |vs|)
    decreases |vs|
  {
    if vs == [] || Before(x, vs[0]) {
      PowerFirst(x, vs, |vs|);
    } else {
      assert vs == [vs[0]] + vs[1..];
      InsertedPower(x, vs[1..]);
      PowerFirst(vs[0], vs[1..], |vs| - 1);
      PowerFirst(vs[0], Inserted(x, vs[1..], Before), |vs|);
    }
  }

  lemma {:induction false} NewSetPower(vs: seq<Validator>)
    ensures |NewSet(vs)| == |vs| && Power(NewSet(vs), |vs|) == Power(vs, |vs|)
    decreases |vs|
  {
    if vs != [] {
      var front, last := vs[..|vs| - 1], vs[|vs| - 1];
      NewSetPower(front);
      InsertedPower(last, NewSet(front));
      PowerOf(vs, front, |front|);
    }
  }

  lemma CanonicalOrder(vs: seq<Validator>)
    requires Canonical(vs)
    ensures HighestFirst(vs)
  {
    forall i, j | 0 <= i < j < |vs|
      ensures vs[i].power >= vs[j].power && (vs[i].power == vs[j].power ==> vs[i].address < vs[j].address)
    {
      assert Before(vs[i], vs[j]);
    }
  }

  lemma NewSetSorts(vs: seq<Validator>)
    requires forall i, j :: 0 <= i < j < |vs| ==> vs[i].address != vs[j].address
    ensures Canonical(NewSet(vs)) && |NewSet(vs)| == |vs|
    ensures forall y :: y in NewSet(vs) <==> y in vs
    ensures HighestFirst(NewSet(vs))
    ensures Power(NewSet(vs), |vs|) == Power(vs, |vs|)
  {
    hide SortedBy, Power;
    forall i | 0 <= i < |vs| ensures Untied(vs[i], vs[..i], Before) {
    }
    SortSorts(vs, Before);
    NewSetPower(vs);
    CanonicalOrder(NewSet(vs));
  }

  // ------------------------------------------------------------------ building --

  /** What an entry of the power map becomes, or why it is refused, given the power before it. */
  function Entered(source: Source, total: nat, id: nat, power: nat): Result<Validator, BuildError> {
    if power > MAX_VALIDATOR_POWER then Err(PowerTooLarge(id))
    else if total + power >= WORD then Err(TotalPowerOverflow)
    else
      var key := Resolve(source, id);
      if key.Err? then Err(key.error) else Ok(Validator(id, key.value, power))
  }

  function PowerBefore(entries: seq<(nat, nat)>, k: nat): nat
    requires k <= |entries|
  {
    if k == 0 then 0 else PowerBefore(entries, k - 1) + entries[k - 1].1
  }

  ghost predicate EnteredAt(source: Source, entries: seq<(nat, nat)>, k: nat)
    requires k < |entries|
  {
    Entered(source, PowerBefore(entries, k), entries[k].0, entries[k].1).Ok?
  }

  /** Entry k is the first refused, with error e. */
  ghost predicate RefusedAt(source: Source, entries: seq<(nat, nat)>, k: nat, e: BuildError)
    requires k < |entries|
  {
    && Entered(source, PowerBefore(entries, k), entries[k].0, entries[k].1) == Err(e)
    && forall j :: 0 <= j < k ==> EnteredAt(source, entries, j)
  }

  ghost predicate AllEntered(source: Source, entries: seq<(nat, nat)>) {
    entries != [] && forall k :: 0 <= k < |entries| ==> EnteredAt(source, entries, k)
  }

  /** A key the set can verify against: the one recorded for the height, or without one the member's current one. */
  predicate HasKey(source: Source, id: nat) {
    if id in source.keys then source.parses(source.keys[id])
    else id in source.members && source.members[id].Some? && source.parses(source.members[id].value)
  }

  lemma {:induction false} PowerBeforeGrows(entries: seq<(nat, nat)>, a: nat, b: nat)
    requires a <= b <= |entries|
    ensures PowerBefore(entries, a) <= PowerBefore(entries, b)
    decreases b
  {
    if a < b {
      PowerBeforeGrows(entries, a, b - 1);
    }
  }

  /** Which power maps build: not empty, every power within the ceiling, every key there, and the whole within 64 bits. */
  lemma BuildsExactly(source: Source, entries: seq<(nat, nat)>)
    ensures AllEntered(source, entries)
      <==> entries != [] && (forall k :: 0 <= k < |entries| ==> entries[k].1 <= 1_000_000 && HasKey(source, entries[k].0))
           && PowerBefore(entries, |entries|) < WORD
  {
    forall k | 0 <= k < |entries|
      ensures EnteredAt(source, entries, k)
        <==> entries[k].1 <= 1_000_000 && HasKey(source, entries[k].0) && PowerBefore(entries, k) + entries[k].1 < WORD
      ensures PowerBefore(entries, k) + entries[k].1 <= PowerBefore(entries, |entries|)
    {
      PowerBeforeGrows(entries, k + 1, |entries|);
    }
    if AllEntered(source, entries) {
      assert EnteredAt(source, entries, |entries| - 1);
    }
  }

  /** All entries or none: a refused entry refuses the set, never makes a smaller one; the error is the first entry's. */
  method Build(source: Source, validators: map<nat, nat>) returns (r: Result<seq<Validator>, BuildError>)
    ensures r.Ok? <==> AllEntered(source, IdEntries(validators))
    ensures r.Ok? ==> Joins(r.value, source, validators) && RecordedFirst(r.value, source)
    ensures r.Ok? ==> HighestFirst(r.value) && Canonical(r.value) && Power(r.value, |r.value|) < WORD
    ensures r.Err? && validators.Keys == {} ==> r.error == Empty
    ensures r.Err? && validators.Keys != {} ==>
      exists k :: 0 <= k < |IdEntries(validators)| && RefusedAt(source, IdEntries(validators), k, r.error)
  {
    hide IdEntries, Entered, Resolve, NewSet, Power, PowerBefore, Canonical, Joins, RecordedFirst, HighestFirst, EnteredAt, BuiltOf;
    var entries := IdEntries(validators);
    NoEntries(validators);
    if entries == [] {
      return Err(Empty);
    }
    var built: seq<Validator> := [];
    var total := 0;
    NothingBuilt(entries);
    for k := 0 to |entries|
      invariant |built| == k && total == PowerBefore(entries, k) == Power(built, k)
      invariant total < WORD
      invariant forall j :: 0 <= j < k ==> EnteredAt(source, entries, j)
      invariant forall j :: 0 <= j < k ==> BuiltOf(source, entries, built, j)
    {
      var entered := Entered(source, total, entries[k].0, entries[k].1);
      EnteredNow(source, entries, k);
      if entered.Err? {
        assert RefusedAt(source, entries, k, entered.error);
        return Err(entered.error);
      }
      BuildOne(source, entries, built, k);
      built := built + [entered.value];
      total := total + entries[k].1;
    }
    BuiltDistinct(source, validators, entries, built);
    NewSetSorts(built);
    BuiltJoins(source, validators, entries, built);
    return Ok(NewSet(built));
  }

  lemma NothingBuilt(entries: seq<(nat, nat)>)
    ensures PowerBefore(entries, 0) == 0 && Power([], 0) == 0
  {
  }

  lemma EnteredNow(source: Source, entries: seq<(nat, nat)>, k: nat)
    requires k < |entries|
    ensures EnteredAt(source, entries, k) <==> Entered(source, PowerBefore(entries, k), entries[k].0, entries[k].1).Ok?
  {
  }

  lemma BuildOne(source: Source, entries: seq<(nat, nat)>, built: seq<Validator>, k: nat)
    requires |built| == k < |entries| && PowerBefore(entries, k) == Power(built, k)
    requires forall j :: 0 <= j < k ==> BuiltOf(source, entries, built, j)
    requires EnteredAt(source, entries, k)
    ensures Entered(source, PowerBefore(entries, k), entries[k].0, entries[k].1).Ok?
    ensures var v := Entered(source, PowerBefore(entries, k), entries[k].0, entries[k].1).value;
      && (forall j :: 0 <= j < k + 1 ==> BuiltOf(source, entries, built + [v], j))
      && PowerBefore(entries, k) + entries[k].1 == PowerBefore(entries, k + 1) == Power(built + [v], k + 1) < WORD
  {
    hide Resolve;
    EnteredSpec(source, PowerBefore(entries, k), entries[k].0, entries[k].1);
    var v := Entered(source, PowerBefore(entries, k), entries[k].0, entries[k].1).value;
    PowerOf(built + [v], built, k);
    forall j | 0 <= j < k ensures BuiltOf(source, entries, built + [v], j) {
      assert BuiltOf(source, entries, built, j);
    }
  }

  lemma BuiltDistinct(source: Source, validators: map<nat, nat>, entries: seq<(nat, nat)>, built: seq<Validator>)
    requires entries == IdEntries(validators) && |built| == |entries|
    requires forall j :: 0 <= j < |entries| ==> BuiltOf(source, entries, built, j)
    ensures forall i, j :: 0 <= i < j < |built| ==> built[i].address != built[j].address
  {
    hide Resolve;
    forall i, j | 0 <= i < j < |built| ensures built[i].address != built[j].address {
      assert BuiltOf(source, entries, built, i) && BuiltOf(source, entries, built, j);
    }
  }

  lemma NoEntries(validators: map<nat, nat>)
    ensures IdEntries(validators) == [] <==> validators.Keys == {}
  {
    var entries := IdEntries(validators);
    if entries != [] {
      assert entries[0].0 in validators.Keys;
    }
  }

  lemma EnteredSpec(source: Source, total: nat, id: nat, power: nat)
    requires Entered(source, total, id, power).Ok?
    ensures power <= MAX_VALIDATOR_POWER && total + power < WORD && Resolve(source, id).Ok?
    ensures Entered(source, total, id, power).value == Validator(id, Resolve(source, id).value, power)
  {
  }

  ghost predicate BuiltOf(source: Source, entries: seq<(nat, nat)>, built: seq<Validator>, j: nat)
    requires j < |entries| && j < |built|
  {
    var key := Resolve(source, entries[j].0);
    key.Ok? && built[j] == Validator(entries[j].0, key.value, entries[j].1) && entries[j].1 <= MAX_VALIDATOR_POWER
  }

  /** Exactly the governed power map, each entry with the key that resolves for it. */
  ghost predicate Joins(vs: seq<Validator>, source: Source, validators: map<nat, nat>) {
    && |vs| == |IdEntries(validators)|
    && (forall v :: v in vs ==>
          && v.address in validators && validators[v.address] == v.power <= MAX_VALIDATOR_POWER
          && Resolve(source, v.address) == Ok(v.publicKey))
    && (forall id :: id in validators ==> exists v :: v in vs && v.address == id)
  }

  /** The key recorded for the height where there is one, the member's current key only where there is none; and it parses. */
  ghost predicate RecordedFirst(vs: seq<Validator>, source: Source) {
    forall v :: v in vs ==>
      && (if v.address in source.keys then v.publicKey == source.keys[v.address]
          else v.address in source.members && source.members[v.address] == Some(v.publicKey))
      && source.parses(v.publicKey)
  }

  lemma JoinedKeys(vs: seq<Validator>, source: Source, validators: map<nat, nat>)
    requires Joins(vs, source, validators)
    ensures RecordedFirst(vs, source)
  {
    forall v | v in vs ensures Resolve(source, v.address) == Ok(v.publicKey) {
    }
  }

  lemma BuiltJoins(source: Source, validators: map<nat, nat>, entries: seq<(nat, nat)>, built: seq<Validator>)
    requires entries == IdEntries(validators) && |built| == |entries|
    requires forall j :: 0 <= j < |entries| ==> BuiltOf(source, entries, built, j)
    requires |NewSet(built)| == |built| && forall y :: y in NewSet(built) <==> y in built
    ensures Joins(NewSet(built), source, validators)
    ensures RecordedFirst(NewSet(built), source)
  {
    hide NewSet, Resolve;
    var vs := NewSet(built);
    forall v | v in vs
      ensures v.address in validators && validators[v.address] == v.power <= MAX_VALIDATOR_POWER
      ensures Resolve(source, v.address) == Ok(v.publicKey)
    {
      assert v in built;
      var j :| 0 <= j < |built| && built[j] == v;
      assert BuiltOf(source, entries, built, j);
    }
    forall id | id in validators ensures exists v :: v in vs && v.address == id {
      var j :| 0 <= j < |entries| && entries[j] == (id, validators[id]);
      assert BuiltOf(source, entries, built, j);
      assert built[j] in vs;
    }
    JoinedKeys(vs, source, validators);
  }

  // ----------------------------------------------------------------- selection --

  function SatAdd(a: nat, b: nat): nat {
    if a + b < WORD then a + b else WORD - 1
  }

  function SaturatedPower(vs: seq<Validator>, k: nat): nat
    requires k <= |vs|
  {
    if k == 0 then 0 else SatAdd(SaturatedPower(vs, k - 1), vs[k - 1].power)
  }

  function TotalVotingPower(vs: seq<Validator>): nat {
    SaturatedPower(vs, |vs|)
  }

  lemma {:induction false} Saturates(vs: seq<Validator>, k: nat)
    requires k <= |vs|
    ensures SaturatedPower(vs, k) == if Power(vs, k) < WORD then Power(vs, k) else WORD - 1
    decreases k
  {
    if k > 0 {
      Saturates(vs, k - 1);
    }
  }

  /** The wrapping sum of height and round. */
  function Turn(height: nat, round: nat): nat {
    (height + round) % WORD
  }

  /** Validator i's slot contains pos. */
  predicate InSlot(vs: seq<Validator>, i: nat, pos: nat) {
    i < |vs| && Power(vs, i) <= pos < Power(vs, i + 1)
  }

  /** Whose turn it is: the slot the turn falls into modulo the total, and the first validator of a powerless set. */
  ghost predicate Proposes(vs: seq<Validator>, height: nat, round: nat, i: nat) {
    if TotalVotingPower(vs) == 0 then i == 0 else InSlot(vs, i, Turn(height, round) % TotalVotingPower(vs))
  }

  /** Walks the slots; the fallback behind the loop is never reached, even on a set whose total saturates. */
  method SelectProposer(vs: seq<Validator>, height: nat, round: nat) returns (v: Validator)
    requires vs != []
    ensures exists i :: 0 <= i < |vs| && Proposes(vs, height, round, i) && v == vs[i]
  {
    v := vs[0];
    var total := TotalVotingPower(vs);
    if total == 0 {
      assert Proposes(vs, height, round, 0);
      return;
    }
    Saturates(vs, |vs|);
    ghost var turn := Turn(height, round) % total;
    var pos: nat := Turn(height, round) % total;
    assert turn < Power(vs, |vs|);
    for index := 0 to |vs|
      invariant pos + Power(vs, index) == turn
    {
      var w := vs[index];
      assert Power(vs, index + 1) == Power(vs, index) + w.power;
      if pos < w.power {
        assert Proposes(vs, height, round, index);
        return w;
      }
      pos := pos - w.power;
    }
    assert false;
  }

  lemma {:induction false} PowerGrows(vs: seq<Validator>, a: nat, b: nat)
    requires a <= b <= |vs|
    ensures Power(vs, a) <= Power(vs, b)
    decreases b
  {
    if a < b {
      PowerGrows(vs, a, b - 1);
    }
  }

  /** Everybody who builds the same set agrees on one proposer. */
  lemma OneProposer(vs: seq<Validator>, height: nat, round: nat, i: nat, j: nat)
    requires Proposes(vs, height, round, i) && Proposes(vs, height, round, j)
    ensures i == j
  {
    if TotalVotingPower(vs) != 0 && i < j {
      PowerGrows(vs, i + 1, j);
    }
    if TotalVotingPower(vs) != 0 && j < i {
      PowerGrows(vs, j + 1, i);
    }
  }

  lemma HeadFirst(vs: seq<Validator>, i: nat)
    requires HighestFirst(vs) && i < |vs|
    ensures vs[0].power >= vs[i].power && (vs[0].power == vs[i].power ==> i == 0 || vs[0].address < vs[i].address)
  {
  }

  /** Every turn below the greatest power goes to the lowest address that has it. */
  lemma GreatestProposes(vs: seq<Validator>, height: nat, round: nat, v: Validator)
    requires HighestFirst(vs) && 0 < Power(vs, |vs|) < WORD
    requires v in vs && (forall u :: u in vs ==> u.power <= v.power)
    requires forall u :: u in vs && u.power == v.power ==> v.address <= u.address
    requires (height + round) % WORD % Power(vs, |vs|) < v.power
    ensures v == vs[0] && Proposes(vs, height, round, 0)
  {
    Saturates(vs, |vs|);
    var i :| 0 <= i < |vs| && vs[i] == v;
    assert vs[0] in vs;
    HeadFirst(vs, i);
    assert Power(vs, 1) == Power(vs, 0) + vs[0].power;
  }

  // ------------------------------------------------------------------ fairness --

  /** How many of the n heights from `first` on validator i proposes at. */
  ghost function Turns(vs: seq<Validator>, first: nat, round: nat, n: nat, i: nat): nat {
    if n == 0 then 0 else
      Turns(vs, first, round, n - 1, i) + if Proposes(vs, first + n - 1, round, i) then 1 else 0
  }

  /** How many of the n residues from a on fall in validator i's slot. */
  function SlotHits(vs: seq<Validator>, total: nat, a: nat, n: nat, i: nat): nat
    requires total > 0
  {
    if n == 0 then 0 else
      SlotHits(vs, total, a, n - 1, i) + if InSlot(vs, i, (a + n - 1) % total) then 1 else 0
  }

  lemma {:induction false} HitsFromNext(vs: seq<Validator>, total: nat, a: nat, n: nat, i: nat)
    requires total > 0
    ensures (if InSlot(vs, i, a % total) then 1 else 0) + SlotHits(vs, total, a + 1, n, i) == SlotHits(vs, total, a, n + 1, i)
    decreases n
  {
    if n > 0 {
      HitsFromNext(vs, total, a, n - 1, i);
      assert (a + 1) + n - 1 == a + (n + 1) - 1;
    }
  }

  /** Sliding a window of a whole total by one drops a residue and takes the same one back. */
  lemma {:induction false} WindowSlides(vs: seq<Validator>, total: nat, a: nat, i: nat)
    requires total > 0
    ensures SlotHits(vs, total, a, total, i) == SlotHits(vs, total, 0, total, i)
    decreases a
  {
    if a > 0 {
      WindowSlides(vs, total, a - 1, i);
      HitsFromNext(vs, total, a - 1, total, i);
      WholeTurn(a - 1, total);
    }
  }

  lemma WholeTurn(a: nat, total: nat)
    requires total > 0
    ensures (a + total) % total == a % total
  {
    var q, r := a / total, a % total;
    assert a + total == (q + 1) * total + r;
    Remainder(q + 1, r, total);
  }

  /** The residues below n that fall in a slot: as much of the slot as lies below n. */
  lemma {:induction false} HitsBelow(vs: seq<Validator>, total: nat, n: nat, i: nat)
    requires n <= total && i < |vs| && total > 0
    ensures Power(vs, i) <= Power(vs, i + 1)
    ensures SlotHits(vs, total, 0, n, i)
         == if n <= Power(vs, i) then 0 else if n < Power(vs, i + 1) then n - Power(vs, i) else vs[i].power
    decreases n
  {
    if n > 0 {
      HitsBelow(vs, total, n - 1, i);
      Remainder(0, n - 1, total);
    }
  }

  /** A validator's turns over heights whose turns do not wrap, or wrap evenly, are its slot hits. */
  lemma {:induction false} TurnsAreHits(vs: seq<Validator>, first: nat, round: nat, n: nat, i: nat)
    requires TotalVotingPower(vs) > 0
    requires first + round + n <= WORD || WORD % TotalVotingPower(vs) == 0
    ensures Turns(vs, first, round, n, i) == SlotHits(vs, TotalVotingPower(vs), first + round, n, i)
    decreases n
  {
    if n > 0 {
      TurnsAreHits(vs, first, round, n - 1, i);
      TurnResidue(first + n - 1, round, TotalVotingPower(vs));
      assert first + n - 1 + round == first + round + n - 1;
    }
  }

  lemma TurnResidue(height: nat, round: nat, total: nat)
    requires total > 0 && (height + round < WORD || WORD % total == 0)
    ensures Turn(height, round) % total == (height + round) % total
  {
    var x := height + round;
    if x < WORD {
      Remainder(0, x, WORD);
    } else {
      var whole := WORD / total;
      assert WORD == whole * total;
      var q, r := x % WORD / total, x % WORD % total;
      assert x == x / WORD * WORD + x % WORD;
      assert x / WORD * WORD == x / WORD * whole * total;
      assert x == (x / WORD * whole + q) * total + r;
      Remainder(x / WORD * whole + q, r, total);
    }
  }

  /** Over any `total` consecutive heights of one round, each validator proposes exactly `power` times. */
  lemma FairProposers(vs: seq<Validator>, first: nat, round: nat, i: nat)
    requires i < |vs| && 0 < Power(vs, |vs|) < WORD
    requires var total := TotalVotingPower(vs); total > 0 && (first + round + total <= WORD || WORD % total == 0)
    ensures Turns(vs, first, round, TotalVotingPower(vs), i) == vs[i].power
  {
    var total := TotalVotingPower(vs);
    Saturates(vs, |vs|);
    TurnsAreHits(vs, first, round, total, i);
    WindowSlides(vs, total, first + round, i);
    HitsBelow(vs, total, total, i);
    PowerGrows(vs, i + 1, |vs|);
  }

  /** Where the sum of height and round wraps the promise breaks: three equals, three heights, one proposes twice. */
  lemma WrapIsUnfair(a: Validator, b: Validator, c: Validator)
    requires a.power == b.power == c.power == 1
    ensures var vs := [a, b, c];
      TotalVotingPower(vs) == 3 && Turns(vs, WORD - 3, 1, 3, 0) == 2 && Turns(vs, WORD - 3, 1, 3, 1) == 0
  {
    hide InSlot, Power, SaturatedPower, Turns, TotalVotingPower;
    var vs := [a, b, c];
    ThreeSlots(a, b, c);
    assert Turn(WORD - 3, 1) % 3 == 2 && Turn(WORD - 2, 1) % 3 == 0 && Turn(WORD - 1, 1) % 3 == 0;
    ThreeTurns(vs, WORD - 3, 1, 0);
    ThreeTurns(vs, WORD - 3, 1, 1);
  }

  lemma ThreeSlots(a: Validator, b: Validator, c: Validator)
    requires a.power == b.power == c.power == 1
    ensures TotalVotingPower([a, b, c]) == 3
    ensures forall i: nat, pos: nat :: i < 3 ==> (InSlot([a, b, c], i, pos) <==> i == pos)
  {
    var vs := [a, b, c];
    forall j | 0 <= j < 3 ensures vs[j].power == 1 {
    }
    UnitPower(vs, 0);
    UnitPower(vs, 1);
    UnitPower(vs, 2);
    UnitPower(vs, 3);
    Saturates(vs, 3);
  }

  lemma ThreeTurns(vs: seq<Validator>, first: nat, round: nat, i: nat)
    ensures Turns(vs, first, round, 3, i)
         == (if Proposes(vs, first, round, i) then 1 else 0) + (if Proposes(vs, first + 1, round, i) then 1 else 0)
            + (if Proposes(vs, first + 2, round, i) then 1 else 0)
  {
    hide Proposes;
    assert Turns(vs, first, round, 1, i) == if Proposes(vs, first, round, i) then 1 else 0;
    assert Turns(vs, first, round, 2, i) == Turns(vs, first, round, 1, i) + if Proposes(vs, first + 1, round, i) then 1 else 0;
  }

  // -------------------------------------------------- fairness across the wrap --

  /** One past the largest round. */
  const ROUNDS: nat := 0x1_0000_0000

  /** Every window of `total` consecutive 64-bit heights, at every round, gives each validator its power in turns. */
  ghost predicate FairEverywhere(vs: seq<Validator>) {
    forall first: nat, round: nat, i: nat ::
      round < ROUNDS && i < |vs| && first + TotalVotingPower(vs) <= WORD
      ==> Turns(vs, first, round, TotalVotingPower(vs), i) == vs[i].power
  }

  /** The same heights a round later: the first sum is dropped, the next taken up. */
  lemma {:induction false} RoundSlides(vs: seq<Validator>, first: nat, round: nat, n: nat, i: nat)
    ensures Turns(vs, first, round + 1, n, i) + (if Proposes(vs, first, round, i) then 1 else 0)
         == Turns(vs, first, round, n, i) + if Proposes(vs, first + n, round, i) then 1 else 0
    decreases n
  {
    hide InSlot, TotalVotingPower;
    if n > 0 {
      RoundSlides(vs, first, round, n - 1, i);
      SameSum(vs, first + n - 1, round, i);
    }
  }

  lemma SameSum(vs: seq<Validator>, height: nat, round: nat, i: nat)
    ensures Proposes(vs, height, round + 1, i) <==> Proposes(vs, height + 1, round, i)
  {
    assert height + (round + 1) == height + 1 + round;
  }

  /** The residue at the wrap: k past the word and a whole rotation before it, a remainder apart. */
  lemma BeforeTheWrap(total: nat, k: nat)
    requires 0 < total < WORD
    ensures (WORD - total + k) % total == (WORD % total + k) % total
  {
    var r, q := WORD % total, WORD / total;
    var more, rest := (r + k) / total, (r + k) % total;
    assert WORD == q * total + r && r + k == more * total + rest;
    assert WORD - total + k == (q - 1 + more) * total + rest;
    Remainder(q - 1 + more, rest, total);
  }

  /** Fairness on both sides of the wrap makes a slot look the same a remainder further on. */
  lemma FairShifts(vs: seq<Validator>, k: nat, i: nat)
    requires FairEverywhere(vs) && i < |vs| && 0 < TotalVotingPower(vs) < WORD && k + 1 < ROUNDS
    requires k < TotalVotingPower(vs)
    ensures InSlot(vs, i, (WORD % TotalVotingPower(vs) + k) % TotalVotingPower(vs)) <==> InSlot(vs, i, k)
  {
    hide InSlot, TotalVotingPower, Turns;
    var total := TotalVotingPower(vs);
    var first := WORD - total;
    assert Turns(vs, first, k, total, i) == vs[i].power;
    assert Turns(vs, first, k + 1, total, i) == vs[i].power;
    RoundSlides(vs, first, k, total, i);
    BeforeTheWrap(total, k);
    Remainder(0, first + k, WORD);
    Remainder(1, k, WORD);
    Remainder(0, k, total);
  }

  /** Slot i holds residue k exactly when it holds the one a remainder further on. */
  ghost predicate SlotAgrees(vs: seq<Validator>, i: nat, k: nat)
    requires TotalVotingPower(vs) > 0
  {
    InSlot(vs, i, (WORD % TotalVotingPower(vs) + k) % TotalVotingPower(vs)) <==> InSlot(vs, i, k)
  }

  /** As far as rounds reach past the wrap, slots look the same a remainder further on. */
  ghost predicate SameShifted(vs: seq<Validator>)
    requires TotalVotingPower(vs) > 0
  {
    forall k: nat, i: nat :: k + 1 < ROUNDS && k < TotalVotingPower(vs) && i < |vs| ==> SlotAgrees(vs, i, k)
  }

  /** The residues of two sums a whole rotation apart: the same, unless the wrap is between them. */
  lemma RotationResidues(total: nat, s: nat)
    requires 0 < total < WORD && s + total < 2 * WORD
    ensures s + total < WORD || s >= WORD ==> s % WORD % total == (s + total) % WORD % total
    ensures s < WORD <= s + total ==> s % WORD % total == (WORD % total + (s + total - WORD)) % total
    ensures s < WORD <= s + total ==> (s + total) % WORD % total == s + total - WORD < total
  {
    if s + total < WORD {
      Remainder(0, s, WORD);
      Remainder(0, s + total, WORD);
      WholeTurn(s, total);
    } else if s < WORD {
      var k := s + total - WORD;
      BeforeTheWrap(total, k);
      Remainder(0, s, WORD);
      Remainder(1, k, WORD);
      Remainder(0, k, total);
    } else {
      Remainder(1, s - WORD, WORD);
      Remainder(1, s + total - WORD, WORD);
      WholeTurn(s - WORD, total);
    }
  }

  /** The sums a whole rotation apart fall in the same slot, past the wrap or on either side of it. */
  lemma RotationsAgree(vs: seq<Validator>, first: nat, round: nat, i: nat)
    requires 0 < TotalVotingPower(vs) < WORD && SameShifted(vs) && i < |vs|
    requires first + TotalVotingPower(vs) <= WORD && round + 1 < ROUNDS
    ensures Proposes(vs, first, round, i) <==> Proposes(vs, first + TotalVotingPower(vs), round, i)
  {
    hide InSlot, TotalVotingPower;
    var total := TotalVotingPower(vs);
    var s := first + round;
    RotationResidues(total, s);
    assert first + total + round == s + total;
    if s < WORD <= s + total {
      assert SlotAgrees(vs, i, s + total - WORD);
    }
  }

  lemma {:induction false} FairAtRound(vs: seq<Validator>, first: nat, round: nat, i: nat)
    requires 0 < Power(vs, |vs|) < WORD && TotalVotingPower(vs) == Power(vs, |vs|) && SameShifted(vs) && i < |vs|
    requires first + TotalVotingPower(vs) <= WORD && round < ROUNDS
    ensures Turns(vs, first, round, TotalVotingPower(vs), i) == vs[i].power
    decreases round
  {
    hide Proposes, SameShifted, TotalVotingPower, Power, Turns;
    if round == 0 {
      FairProposers(vs, first, 0, i);
    } else {
      FairAtRound(vs, first, round - 1, i);
      RoundSlides(vs, first, round - 1, TotalVotingPower(vs), i);
      RotationsAgree(vs, first, round - 1, i);
    }
  }

  /** Exactly when any set is fair everywhere: its slots look the same shifted by what the word leaves over. */
  lemma FairWhereShifted(vs: seq<Validator>)
    requires 0 < Power(vs, |vs|) < WORD
    ensures TotalVotingPower(vs) == Power(vs, |vs|)
    ensures FairEverywhere(vs) <==> SameShifted(vs)
  {
    hide Turns, InSlot;
    Saturates(vs, |vs|);
    var total := TotalVotingPower(vs);
    if FairEverywhere(vs) {
      forall k: nat, i: nat | k + 1 < ROUNDS && k < total && i < |vs|
        ensures SlotAgrees(vs, i, k)
      {
        FairShifts(vs, k, i);
      }
    }
    if SameShifted(vs) {
      forall first: nat, round: nat, i: nat | round < ROUNDS && i < |vs| && first + total <= WORD
        ensures Turns(vs, first, round, total, i) == vs[i].power
      {
        FairAtRound(vs, first, round, i);
      }
    }
  }

  lemma {:induction false} FirstPowered(vs: seq<Validator>, k: nat) returns (i: nat)
    requires k <= |vs| && Power(vs, k) > 0
    ensures i < k && Power(vs, i) == 0 && vs[i].power > 0
    decreases k
  {
    if Power(vs, k - 1) > 0 {
      i := FirstPowered(vs, k - 1);
    } else {
      i := k - 1;
    }
  }

  /** Two slots or more, and a wrap with a remainder: the first slot cannot look the same. */
  lemma UnevenIsUnfair(vs: seq<Validator>)
    requires 0 < Power(vs, |vs|) < WORD && forall v :: v in vs ==> v.power < ROUNDS
    requires WORD % Power(vs, |vs|) != 0 && forall i :: 0 <= i < |vs| ==> vs[i].power != Power(vs, |vs|)
    ensures !FairEverywhere(vs)
  {
    hide FairEverywhere;
    Saturates(vs, |vs|);
    var i := FirstPowered(vs, |vs|);
    var p, r := vs[i].power, WORD % Power(vs, |vs|);
    assert vs[i] in vs;
    PowerGrows(vs, i + 1, |vs|);
    assert Power(vs, i + 1) == p;
    if FairEverywhere(vs) {
      FairShifts(vs, 0, i);
      Remainder(0, r, Power(vs, |vs|));
      FairShifts(vs, p - r, i);
      Remainder(0, p, Power(vs, |vs|));
      assert false;
    }
  }

  /** One validator holding all the power proposes every time, and nobody else has any. */
  lemma HolderAlone(vs: seq<Validator>, holder: nat, i: nat)
    requires holder < |vs| && vs[holder].power == Power(vs, |vs|) && i < |vs|
    ensures Power(vs, holder) == 0 && Power(vs, holder + 1) == Power(vs, |vs|)
    ensures i != holder ==> vs[i].power == 0
  {
    PowerGrows(vs, holder + 1, |vs|);
    if i < holder {
      PowerGrows(vs, i + 1, holder);
    } else if i > holder {
      PowerGrows(vs, holder + 1, i);
      PowerGrows(vs, i + 1, |vs|);
    }
  }

  lemma {:induction false} HolderTurns(vs: seq<Validator>, holder: nat, first: nat, round: nat, n: nat, i: nat)
    requires holder < |vs| && vs[holder].power == Power(vs, |vs|) == TotalVotingPower(vs) > 0 && i < |vs|
    ensures Turns(vs, first, round, n, i) == if i == holder then n else 0
    decreases n
  {
    HolderAlone(vs, holder, i);
    if n > 0 {
      HolderTurns(vs, holder, first, round, n - 1, i);
      assert Power(vs, i + 1) == Power(vs, i) + vs[i].power;
    }
  }

  /** Exactly when a set is fair everywhere: the word is a whole number of rotations, or there is nobody to be unfair to. */
  lemma FairExactly(vs: seq<Validator>)
    requires 0 < Power(vs, |vs|) < WORD && forall v :: v in vs ==> v.power < ROUNDS
    ensures TotalVotingPower(vs) == Power(vs, |vs|)
    ensures FairEverywhere(vs)
      <==> WORD % Power(vs, |vs|) == 0 || exists i :: 0 <= i < |vs| && vs[i].power == Power(vs, |vs|)
  {
    Saturates(vs, |vs|);
    var total := TotalVotingPower(vs);
    if WORD % total == 0 {
      forall first: nat, round: nat, i: nat | round < ROUNDS && i < |vs| && first + total <= WORD
        ensures Turns(vs, first, round, total, i) == vs[i].power
      {
        FairProposers(vs, first, round, i);
      }
    } else if exists i :: 0 <= i < |vs| && vs[i].power == total {
      var holder :| 0 <= holder < |vs| && vs[holder].power == total;
      forall first: nat, round: nat, i: nat | round < ROUNDS && i < |vs| && first + total <= WORD
        ensures Turns(vs, first, round, total, i) == vs[i].power
      {
        HolderTurns(vs, holder, first, round, total, i);
        HolderAlone(vs, holder, i);
      }
    } else {
      UnevenIsUnfair(vs);
    }
  }

  // --------------------------------------------------------------- equal powers --

  lemma {:induction false} UnitPower(vs: seq<Validator>, k: nat)
    requires k <= |vs| && forall j :: 0 <= j < |vs| ==> vs[j].power == 1
    ensures Power(vs, k) == k
    decreases k
  {
    if k > 0 {
      UnitPower(vs, k - 1);
    }
  }

  /** With unit powers the walk is plain indexing by the turn, over the addresses in ascending order. */
  lemma UnitPowersIndex(vs: seq<Validator>, height: nat, round: nat)
    requires Canonical(vs) && 0 < |vs| < WORD && forall j :: 0 <= j < |vs| ==> vs[j].power == 1
    ensures Proposes(vs, height, round, Turn(height, round) % |vs|)
    ensures height + round < WORD ==> Proposes(vs, height, round, (height + round) % |vs|)
    ensures forall i, j :: 0 <= i < j < |vs| ==> vs[i].address < vs[j].address
  {
    UnitPower(vs, |vs|);
    Saturates(vs, |vs|);
    var i := Turn(height, round) % |vs|;
    UnitPower(vs, i);
    UnitPower(vs, i + 1);
    if height + round < WORD {
      TurnResidue(height, round, |vs|);
    }
    forall i, j | 0 <= i < j < |vs| ensures vs[i].address < vs[j].address {
      assert Before(vs[i], vs[j]);
    }
  }
}
