/** Ordered maps: the ledger's maps are walked in ascending key order, and that order is
    part of what the rest of the project specifies. */
module Ordered {
  import opened Wrappers
  import opened Sums

  /** A stake edge: (creditor, debtor). */
  type Key = (nat, nat)

  predicate KeyLess(a: Key, b: Key) {
    a.0 < b.0 || (a.0 == b.0 && a.1 < b.1)
  }

  predicate IdLess(a: nat, b: nat) {
    a < b
  }

  ghost predicate StrictTotal<K(!new)>(less: (K, K) -> bool) {
    && (forall a, b :: less(a, b) ==> !less(b, a))
    && (forall a, b, c :: less(a, b) && less(b, c) ==> less(a, c))
    && (forall a, b :: a != b ==> less(a, b) || less(b, a))
  }

  ghost predicate Sorted<K(!new)>(s: seq<K>, less: (K, K) -> bool) {
    forall i, j :: 0 <= i < j < |s| ==> less(s[i], s[j])
  }

  lemma KeyLessTotal()
    ensures StrictTotal(KeyLess)
  {
  }

  lemma IdLessTotal()
    ensures StrictTotal(IdLess)
  {
  }

  ghost predicate IsLeast<K(!new)>(s: set<K>, less: (K, K) -> bool, x: K) {
    x in s && forall y :: y in s && y != x ==> less(x, y)
  }

  lemma {:induction false} LeastExists<K(!new)>(s: set<K>, less: (K, K) -> bool)
    requires StrictTotal(less) && s != {}
    ensures exists x :: IsLeast(s, less, x)
    decreases |s|
  {
    var z :| z in s;
    var t := s - {z};
    if t == {} {
      assert s == {z};
      assert IsLeast(s, less, z);
    } else {
      LeastExists(t, less);
      var x :| IsLeast(t, less, x);
      var l := if less(x, z) then x else z;
      forall y | y in s && y != l ensures less(l, y) {
        assert y == z || y in t;
      }
      assert IsLeast(s, less, l);
    }
  }

  /** The keys of an ordered set, ascending. */
  function Ascending<K(!new,==)>(s: set<K>, less: (K, K) -> bool): (ks: seq<K>)
    requires StrictTotal(less)
    ensures Elements(ks) == s
    ensures Sorted(ks, less)
  {
    if s == {} then
      []
    else
      LeastExists(s, less);
      assert exists x :: x in s && forall y :: y in s && y != x ==> less(x, y) by {
        var x :| IsLeast(s, less, x);
      }
      var x :| x in s && forall y :: y in s && y != x ==> less(x, y);
      var rest := Ascending(s - {x}, less);
      assert forall y :: y in rest <==> y in Elements(rest);
      assert Elements([x] + rest) == {x} + Elements(rest);
      [x] + rest
  }

  lemma SortedDistinct<K(!new)>(s: seq<K>, less: (K, K) -> bool)
    requires StrictTotal(less) && Sorted(s, less)
    ensures Distinct(s)
  {
    forall i, j | 0 <= i < j < |s| ensures s[i] != s[j] {
      assert less(s[i], s[j]);
    }
  }

  /** Two ascending lists of the same keys are the same list. */
  lemma {:induction false} SortedUnique<K(!new)>(s: seq<K>, t: seq<K>, less: (K, K) -> bool)
    requires StrictTotal(less) && Sorted(s, less) && Sorted(t, less)
    requires Elements(s) == Elements(t)
    ensures s == t
    decreases |s|
  {
    assert |t| > 0 ==> t[0] in Elements(t);
    if s != [] {
      assert s[0] in Elements(t);
      assert t != [];
      assert t[0] in Elements(s);
      assert s[0] == t[0];
      assert Elements(s[1..]) == Elements(s) - {s[0]} by {
        SortedDistinct(s, less);
        assert s == [s[0]] + s[1..];
      }
      assert Elements(t[1..]) == Elements(t) - {t[0]} by {
        SortedDistinct(t, less);
        assert t == [t[0]] + t[1..];
      }
      SortedUnique(s[1..], t[1..], less);
      assert s == [s[0]] + s[1..] && t == [t[0]] + t[1..];
    }
  }

  // ------------------------------------------------------------------ sorting --

  function Inserted<T>(x: T, s: seq<T>, less: (T, T) -> bool): seq<T> {
    if s == [] || less(x, s[0]) then [x] + s else [s[0]] + Inserted(x, s[1..], less)
  }

  function SortedBy<T>(s: seq<T>, less: (T, T) -> bool): seq<T> {
    if s == [] then [] else Inserted(s[|s| - 1], SortedBy(s[..|s| - 1], less), less)
  }

  ghost predicate Transitive<T(!new)>(less: (T, T) -> bool) {
    forall a, b, c :: less(a, b) && less(b, c) ==> less(a, c)
  }

  ghost predicate Untied<T(!new)>(x: T, s: seq<T>, less: (T, T) -> bool) {
    forall y :: y in s ==> less(x, y) || less(y, x)
  }

  lemma {:induction false} InsertSorts<T(!new)>(x: T, s: seq<T>, less: (T, T) -> bool)
    requires Transitive(less) && Sorted(s, less) && Untied(x, s, less)
    ensures Sorted(Inserted(x, s, less), less) && |Inserted(x, s, less)| == |s| + 1
    ensures forall y :: y in Inserted(x, s, less) <==> y == x || y in s
    decreases |s|
  {
    if s == [] || less(x, s[0]) {
      assert Inserted(x, s, less) == [x] + s;
    } else {
      assert s == [s[0]] + s[1..];
      InsertSorts(x, s[1..], less);
      PutFirst(s[0], Inserted(x, s[1..], less), x, s[1..], less);
    }
  }

  lemma PutFirst<T(!new)>(first: T, tail: seq<T>, x: T, rest: seq<T>, less: (T, T) -> bool)
    requires Sorted(tail, less) && Sorted([first] + rest, less) && less(first, x)
    requires forall y :: y in tail <==> y == x || y in rest
    ensures Sorted([first] + tail, less)
  {
    forall j | 0 <= j < |tail| ensures less(first, tail[j]) {
      assert tail[j] in tail;
      if tail[j] != x {
        var k :| 0 <= k < |rest| && rest[k] == tail[j];
        assert ([first] + rest)[0] == first && ([first] + rest)[k + 1] == tail[j];
      }
    }
  }

  /** Sorting without ties: strictly ascending, with the same elements. */
  lemma {:induction false} SortSorts<T(!new)>(s: seq<T>, less: (T, T) -> bool)
    requires Transitive(less) && forall i :: 0 <= i < |s| ==> Untied(s[i], s[..i], less)
    ensures Sorted(SortedBy(s, less), less) && |SortedBy(s, less)| == |s|
    ensures forall y :: y in SortedBy(s, less) <==> y in s
    decreases |s|
  {
    hide Untied;
    if s != [] {
      var front, last := s[..|s| - 1], s[|s| - 1];
      assert s == front + [last];
      forall i | 0 <= i < |front| ensures Untied(front[i], front[..i], less) {
        assert front[..i] == s[..i] && front[i] == s[i];
      }
      SortSorts(front, less);
      UntiedToo(last, front, SortedBy(front, less), less);
      InsertSorts(last, SortedBy(front, less), less);
    }
  }

  lemma UntiedToo<T(!new)>(x: T, s: seq<T>, t: seq<T>, less: (T, T) -> bool)
    requires Untied(x, s, less) && forall y :: y in t <==> y in s
    ensures Untied(x, t, less)
  {
  }

  /** A map's value at a key, or zero. */
  function Get<K(==)>(m: map<K, nat>, k: K): nat {
    if k in m then m[k] else 0
  }

  /** The entries of an ordered map, ascending by key. */
  function Entries<K(!new,==)>(m: map<K, nat>, less: (K, K) -> bool): (es: seq<(K, nat)>)
    requires StrictTotal(less)
  {
    var ks := Ascending(m.Keys, less);
    seq(|ks|, i requires 0 <= i < |ks| => assert ks[i] in Elements(ks); (ks[i], m[ks[i]]))
  }

  ghost function Firsts<K(!new)>(es: seq<(K, nat)>): seq<K> {
    seq(|es|, i requires 0 <= i < |es| => es[i].0)
  }

  lemma EntriesSpec<K(!new)>(m: map<K, nat>, less: (K, K) -> bool)
    requires StrictTotal(less)
    ensures var es := Entries(m, less);
      && Sorted(Firsts(es), less)
      && (forall i :: 0 <= i < |es| ==> es[i].0 in m && m[es[i].0] == es[i].1)
      && (forall k :: k in m ==> exists i :: 0 <= i < |es| && es[i] == (k, m[k]))
  {
    var es := Entries(m, less);
    var ks := Ascending(m.Keys, less);
    assert Firsts(es) == ks;
    forall i | 0 <= i < |es| ensures es[i].0 in m && m[es[i].0] == es[i].1 {
      assert ks[i] in Elements(ks);
    }
    forall k | k in m ensures exists i :: 0 <= i < |es| && es[i] == (k, m[k]) {
      assert k in Elements(ks);
      var i :| 0 <= i < |ks| && ks[i] == k;
      assert es[i] == (k, m[k]);
    }
  }

  /** Collecting entries into a map: a later entry for a key replaces an earlier one. */
  function MapOf<K(==)>(es: seq<(K, nat)>): map<K, nat> {
    if es == [] then map[] else
      var e := es[|es| - 1];
      MapOf(es[..|es| - 1])[e.0 := e.1]
  }

  /** A key-sorted list loses nothing when collected. */
  lemma {:induction false} MapOfSorted<K(!new)>(es: seq<(K, nat)>)
    requires Distinct(Firsts(es))
    ensures MapOf(es).Keys == Elements(Firsts(es))
    ensures forall i :: 0 <= i < |es| ==> es[i].0 in MapOf(es) && MapOf(es)[es[i].0] == es[i].1
  {
    if es != [] {
      var front := es[..|es| - 1];
      assert Firsts(front) == Firsts(es)[..|es| - 1];
      MapOfSorted(front);
      var last := es[|es| - 1];
      forall i | 0 <= i < |es| ensures es[i].0 in MapOf(es) && MapOf(es)[es[i].0] == es[i].1 {
        if i < |es| - 1 {
          assert front[i] == es[i];
          assert Firsts(es)[i] != Firsts(es)[|es| - 1];
        }
      }
      assert Firsts(es) == Firsts(front) + [last.0];
      assert MapOf(es).Keys == MapOf(front).Keys + {last.0};
    }
  }

  /** A key listed once is not among the keys before it. */
  lemma NotBefore<K(!new)>(es: seq<(K, nat)>, i: nat)
    requires i < |es| && Distinct(Firsts(es))
    ensures es[i].0 !in MapOf(es[..i])
    ensures Distinct(Firsts(es[..i])) && Firsts(es[..i]) == Firsts(es)[..i]
  {
    hide MapOf;
    assert Firsts(es[..i]) == Firsts(es)[..i];
    MapOfSorted(es[..i]);
    forall a | 0 <= a < i ensures Firsts(es[..i])[a] != es[i].0 {
      assert Firsts(es)[a] != Firsts(es)[i];
    }
  }

  /** A sorted entry list is the entry list of the map it collects to. */
  lemma EntriesOfMapOf<K(!new)>(es: seq<(K, nat)>, less: (K, K) -> bool)
    requires StrictTotal(less) && Sorted(Firsts(es), less)
    ensures Entries(MapOf(es), less) == es
  {
    SortedDistinct(Firsts(es), less);
    MapOfSorted(es);
    var ks := Ascending(MapOf(es).Keys, less);
    SortedUnique(ks, Firsts(es), less);
    var fs := Entries(MapOf(es), less);
    forall i | 0 <= i < |es| ensures fs[i] == es[i] {
      assert ks[i] == Firsts(es)[i];
    }
  }

  lemma MapOfEntries<K(!new)>(m: map<K, nat>, less: (K, K) -> bool)
    requires StrictTotal(less)
    ensures MapOf(Entries(m, less)) == m
  {
    hide Entries, MapOf, Sorted, StrictTotal;
    var es := Entries(m, less);
    EntriesSpec(m, less);
    SortedDistinct(Firsts(es), less);
    MapOfSorted(es);
    forall k | k in m ensures k in MapOf(es) && MapOf(es)[k] == m[k] {
      var i :| 0 <= i < |es| && es[i] == (k, m[k]);
    }
    forall k | k in MapOf(es) ensures k in m {
      assert k in Elements(Firsts(es));
      var i :| 0 <= i < |es| && Firsts(es)[i] == k;
      assert es[i].0 == k;
    }
    assert MapOf(es).Keys == m.Keys;
  }

  /** Two entry lists of the ledger's own key orders. */
  function EdgeEntries(m: map<Key, nat>): (es: seq<(Key, nat)>)
    ensures forall i, j :: 0 <= i < j < |es| ==> KeyLess(es[i].0, es[j].0)
    ensures forall i :: 0 <= i < |es| ==> es[i].0 in m && m[es[i].0] == es[i].1
    ensures forall k :: k in m ==> exists i :: 0 <= i < |es| && es[i] == (k, m[k])
  {
    KeyLessTotal();
    EntriesSpec(m, KeyLess);
    var es := Entries(m, KeyLess);
    assert forall i :: 0 <= i < |es| ==> Firsts(es)[i] == es[i].0;
    es
  }

  function IdEntries(m: map<nat, nat>): (es: seq<(nat, nat)>)
    ensures forall i, j :: 0 <= i < j < |es| ==> es[i].0 < es[j].0
    ensures forall i :: 0 <= i < |es| ==> es[i].0 in m && m[es[i].0] == es[i].1
    ensures forall k :: k in m ==> exists i :: 0 <= i < |es| && es[i] == (k, m[k])
  {
    IdLessTotal();
    EntriesSpec(m, IdLess);
    var es := Entries(m, IdLess);
    assert forall i, j :: 0 <= i < j < |es| ==> IdLess(Firsts(es)[i], Firsts(es)[j]);
    es
  }

  /** One pass over the reservations beside a walk of the edges: the entries still ahead. */
  class ReservedCursor {
    var next: seq<(Key, nat)>
    ghost var reserved: map<Key, nat>
    ghost var last: Option<Key>
    ghost var passed: nat

    /** What is ahead is a suffix of the ascending entries; what was passed lies below the last key asked for. */
    ghost predicate Valid()
      reads this
    {
      var all := EdgeEntries(reserved);
      && passed <= |all|
      && next == all[passed..]
      && forall i :: 0 <= i < passed ==> last.Some? && KeyLess(all[i].0, last.value)
    }

    constructor (r: map<Key, nat>)
      ensures Valid() && reserved == r && last == None
    {
      next := EdgeEntries(r);
      reserved := r;
      last := None;
      passed := 0;
    }

    /** Asked in ascending order, the walk reads what a lookup reads. */
    method At(key: Key) returns (v: nat)
      requires Valid()
      requires last.Some? ==> KeyLess(last.value, key)
      modifies this
      ensures Valid() && reserved == old(reserved) && last == Some(key)
      ensures v == Get(reserved, key)
    {
      hide EdgeEntries, StrictTotal;
      ghost var all := EdgeEntries(reserved);
      while |next| > 0 && KeyLess(next[0].0, key)
        invariant reserved == old(reserved) && passed <= |all| && next == all[passed..]
        invariant forall i :: 0 <= i < passed ==> KeyLess(all[i].0, key)
        decreases |next|
      {
        next := next[1..];
        passed := passed + 1;
      }
      last := Some(key);
      if |next| > 0 && next[0].0 == key {
        v := next[0].1;
      } else {
        v := 0;
      }
    }
  }
}
