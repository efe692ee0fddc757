/** LRUCache: a LinkedHashMap in access order whose removeEldestEntry hook
    answers size() > capacity. The entries are kept as a sequence ordered from
    the least to the most recently accessed; a lookup that finds its key and
    every put count as accesses and move the entry to the back, and an insertion
    of a new key that makes the map larger than its capacity drops the front
    entry. */
module Lru {
  import opened Jvm

  ghost function Keys<K, V>(es: seq<(K, V)>): set<K>
  {
    set i | 0 <= i < |es| :: es[i].0
  }

  ghost predicate DistinctKeys<K, V>(es: seq<(K, V)>)
  {
    forall i, j :: 0 <= i < j < |es| ==> es[i].0 != es[j].0
  }

  /** Position of key k among the entries, or -1. */
  function IndexOf<K(==), V>(es: seq<(K, V)>, k: K): (i: int)
    ensures -1 <= i < |es|
    ensures i >= 0 ==> es[i].0 == k && forall j :: 0 <= j < i ==> es[j].0 != k
    ensures i < 0 <==> k !in Keys(es)
  {
    if es == [] then -1
    else if es[0].0 == k then 0
    else
      var j := IndexOf(es[1..], k);
      assert Keys(es) == {es[0].0} + Keys(es[1..]) by {
        assert es == [es[0]] + es[1..];
      }
      if j < 0 then -1 else j + 1
  }

  /** Map.get without its access-order side effect. */
  function Lookup<K(==), V>(es: seq<(K, V)>, k: K): Option<V>
  {
    var i := IndexOf(es, k);
    if i < 0 then None else Some(es[i].1)
  }

  function RemoveAt<T>(s: seq<T>, i: nat): seq<T>
    requires i < |s|
  {
    s[..i] + s[i + 1..]
  }

  /** The entries after get(k): a found entry moves to the back. */
  function AfterGet<K(==), V>(es: seq<(K, V)>, k: K): seq<(K, V)>
  {
    var i := IndexOf(es, k);
    if i < 0 then es else RemoveAt(es, i) + [es[i]]
  }

  /** The entries after put(k, v): an existing key is replaced and moved to the
      back; a new key is appended, and then the eldest entry is dropped when
      the size exceeds the capacity. */
  function AfterPut<K(==), V>(es: seq<(K, V)>, capacity: nat, k: K, v: V): seq<(K, V)>
  {
    var i := IndexOf(es, k);
    if i >= 0 then RemoveAt(es, i) + [(k, v)]
    else if |es| + 1 > capacity then (es + [(k, v)])[1..]
    else es + [(k, v)]
  }

  /** Position of the last access to k in the access history, or -1. */
  ghost function LastAccess<K>(log: seq<K>, k: K): (r: int)
    ensures -1 <= r < |log|
  {
    if log == [] then -1
    else if log[|log| - 1] == k then |log| - 1
    else LastAccess(log[..|log| - 1], k)
  }

  /** The entries are ordered by the time of their last access. */
  ghost predicate OrderedByAccess<K, V>(es: seq<(K, V)>, log: seq<K>)
  {
    && (forall i :: 0 <= i < |es| ==> LastAccess(log, es[i].0) >= 0)
    && (forall i, j :: 0 <= i < j < |es| ==> LastAccess(log, es[i].0) < LastAccess(log, es[j].0))
  }

  class LruCache<K(==), V> {
    const capacity: nat
    /** Entries from the least to the most recently accessed. */
    var entries: seq<(K, V)>
    /** Every access so far, in order: each put and each get that found its key. */
    ghost var accesses: seq<K>

    ghost predicate Valid()
      reads this
    {
      |entries| <= capacity && DistinctKeys(entries) && OrderedByAccess(entries, accesses)
    }

    constructor (capacity: nat)
      ensures Valid()
      ensures this.capacity == capacity && entries == [] && accesses == []
    {
      this.capacity := capacity;
      entries := [];
      accesses := [];
    }

    /** size() */
    function Size(): nat
      reads this
    {
      |entries|
    }

    /** The removeEldestEntry hook, consulted after a new key is inserted. */
    predicate RemoveEldestEntry()
      reads this
    {
      |entries| > capacity
    }

    /** get(k) */
    method Get(k: K) returns (r: Option<V>)
      requires Valid()
      modifies this
      ensures Valid()
      ensures r == Lookup(old(entries), k)
      ensures entries == AfterGet(old(entries), k)
      ensures accesses == if r.Some? then old(accesses) + [k] else old(accesses)
    {
      var i := IndexOf(entries, k);
      if i < 0 {
        r := None;
      } else {
        r := Some(entries[i].1);
        MoveToBackKeepsOrder(entries, accesses, i, entries[i]);
        entries := RemoveAt(entries, i) + [entries[i]];
        accesses := accesses + [k];
      }
    }

    /** put(k, v) */
    method Put(k: K, v: V)
      requires Valid()
      modifies this
      ensures Valid()
      ensures entries == AfterPut(old(entries), capacity, k, v)
      ensures accesses == old(accesses) + [k]
    {
      var i := IndexOf(entries, k);
      if i >= 0 {
        MoveToBackKeepsOrder(entries, accesses, i, (k, v));
        entries := RemoveAt(entries, i) + [(k, v)];
        accesses := accesses + [k];
      } else {
        AppendKeepsOrder(entries, accesses, k, v);
        entries := entries + [(k, v)];
        accesses := accesses + [k];
        if RemoveEldestEntry() {
          entries := entries[1..];
        }
      }
    }

    /** containsKey(k): no effect on the access order. */
    method ContainsKey(k: K) returns (b: bool)
      ensures b <==> k in Keys(entries)
    {
      b := IndexOf(entries, k) >= 0;
    }
  }

  // ------------------------------------------------ order of last accesses

  lemma LastAccessSnoc<K>(log: seq<K>, x: K, y: K)
    ensures LastAccess(log + [x], y) == if y == x then |log| else LastAccess(log, y)
  {
    assert (log + [x])[..|log|] == log;
  }

  lemma {:induction false} MoveToBackKeepsOrder<K, V>(es: seq<(K, V)>, log: seq<K>, i: nat, e: (K, V))
    requires i < |es| && e.0 == es[i].0
    requires DistinctKeys(es) && OrderedByAccess(es, log)
    ensures DistinctKeys(RemoveAt(es, i) + [e])
    ensures OrderedByAccess(RemoveAt(es, i) + [e], log + [e.0])
  {
    var es' := RemoveAt(es, i) + [e];
    var log' := log + [e.0];
    assert |es'| == |es|;
    // es'[p] is es[Src(p)] for every position but the last
    forall p | 0 <= p < |es'| - 1
      ensures es'[p] == es[if p < i then p else p + 1]
    {
    }
    forall p | 0 <= p < |es'|
      ensures LastAccess(log', es'[p].0) == if p == |es'| - 1 then |log| else LastAccess(log, es'[p].0)
    {
      LastAccessSnoc(log, e.0, es'[p].0);
    }
    forall p, q | 0 <= p < q < |es'|
      ensures es'[p].0 != es'[q].0
      ensures LastAccess(log', es'[p].0) < LastAccess(log', es'[q].0)
    {
      var p0 := if p < i then p else p + 1;
      if q < |es'| - 1 {
        var q0 := if q < i then q else q + 1;
        assert p0 < q0;
      } else {
        assert p0 != i;
      }
    }
  }

  lemma AppendKeepsOrder<K, V>(es: seq<(K, V)>, log: seq<K>, k: K, v: V)
    requires k !in Keys(es)
    requires DistinctKeys(es) && OrderedByAccess(es, log)
    ensures DistinctKeys(es + [(k, v)]) && OrderedByAccess(es + [(k, v)], log + [k])
    ensures DistinctKeys((es + [(k, v)])[1..]) && OrderedByAccess((es + [(k, v)])[1..], log + [k])
  {
    var es' := es + [(k, v)];
    forall p | 0 <= p < |es'|
      ensures LastAccess(log + [k], es'[p].0) == if p == |es| then |log| else LastAccess(log, es'[p].0)
    {
      LastAccessSnoc(log, k, es'[p].0);
      if p < |es| {
        assert es'[p] == es[p];
      }
    }
  }

  // ------------------------------------------------ properties of get and put

  /** After any put the cache holds at most `capacity` entries. */
  lemma {:induction false} PutKeepsBound<K, V>(es: seq<(K, V)>, capacity: nat, k: K, v: V)
    requires |es| <= capacity
    ensures |AfterPut(es, capacity, k, v)| <= capacity
  {
  }

  /** The key just put is present with its new value (unless the capacity is 0,
      in which case the cache stays empty). */
  lemma {:induction false} PutThenLookup<K, V>(es: seq<(K, V)>, capacity: nat, k: K, v: V)
    requires DistinctKeys(es) && |es| <= capacity
    ensures capacity > 0 ==> Lookup(AfterPut(es, capacity, k, v), k) == Some(v)
    ensures capacity == 0 ==> AfterPut(es, capacity, k, v) == []
  {
    if capacity > 0 {
      var rest := PutRest(es, capacity, k, v);
      LookupAtLast(rest, k, v);
    }
  }

  /** A positive-capacity put leaves entries for other keys followed by (k, v). */
  lemma {:induction false} PutRest<K, V>(es: seq<(K, V)>, capacity: nat, k: K, v: V) returns (rest: seq<(K, V)>)
    requires DistinctKeys(es) && |es| <= capacity && capacity > 0
    ensures AfterPut(es, capacity, k, v) == rest + [(k, v)]
    ensures forall p | 0 <= p < |rest| :: rest[p].0 != k
  {
    var i := IndexOf(es, k);
    if i >= 0 {
      rest := RemoveAt(es, i);
      forall p | 0 <= p < |rest|
        ensures rest[p].0 != k
      {
        assert rest[p] == es[if p < i then p else p + 1];
      }
    } else {
      forall p | 0 <= p < |es|
        ensures es[p].0 != k
      {
        assert es[p].0 in Keys(es);
      }
      if |es| + 1 > capacity {
        rest := es[1..];
        assert (es + [(k, v)])[1..] == rest + [(k, v)];
      } else {
        rest := es;
      }
    }
  }

  /** An entry for k behind entries for other keys is the one found. */
  lemma {:induction false} LookupAtLast<K, V>(rest: seq<(K, V)>, k: K, v: V)
    requires forall p | 0 <= p < |rest| :: rest[p].0 != k
    ensures Lookup(rest + [(k, v)], k) == Some(v)
  {
    var es := rest + [(k, v)];
    assert es[|rest|].0 == k;
    assert k in Keys(es);
    var i := IndexOf(es, k);
    assert i == |rest|;
  }

  /** Inserting a new key into a full cache removes exactly one entry, the
      front one, and the front entry is the one accessed least recently. */
  lemma {:induction false} PutEvictsLeastRecentlyAccessed<K, V>(es: seq<(K, V)>, log: seq<K>, capacity: nat, k: K, v: V)
    requires DistinctKeys(es) && OrderedByAccess(es, log)
    requires |es| == capacity > 0 && k !in Keys(es)
    ensures Keys(AfterPut(es, capacity, k, v)) == Keys(es) - {es[0].0} + {k}
    ensures |AfterPut(es, capacity, k, v)| == |es|
    ensures forall j :: 0 < j < |es| ==> LastAccess(log, es[0].0) < LastAccess(log, es[j].0)
  {
    var es' := AfterPut(es, capacity, k, v);
    assert es' == es[1..] + [(k, v)];
    forall x | x in Keys(es')
      ensures x in Keys(es) - {es[0].0} + {k}
    {
      var q :| 0 <= q < |es'| && es'[q].0 == x;
      if q < |es| - 1 {
        assert es'[q] == es[q + 1];
        assert es[0].0 != es[q + 1].0;
      }
    }
    forall x | x in Keys(es) - {es[0].0} + {k}
      ensures x in Keys(es')
    {
      if x != k {
        var p :| 0 <= p < |es| && es[p].0 == x;
        assert p != 0;
        assert es'[p - 1] == es[p];
      } else {
        assert es'[|es'| - 1] == (k, v);
      }
    }
  }

  /** A put on an existing key evicts nothing: the same keys remain, the key
      now maps to the new value and is the most recently accessed, and every
      other key keeps its value. */
  lemma {:induction false} PutExistingKey<K, V>(es: seq<(K, V)>, capacity: nat, k: K, v: V)
    requires DistinctKeys(es) && k in Keys(es)
    ensures |AfterPut(es, capacity, k, v)| == |es|
    ensures Keys(AfterPut(es, capacity, k, v)) == Keys(es)
    ensures AfterPut(es, capacity, k, v)[|es| - 1] == (k, v)
    ensures forall x :: x != k ==> Lookup(AfterPut(es, capacity, k, v), x) == Lookup(es, x)
  {
    var i := IndexOf(es, k);
    MovedEntryKeepsContents(es, i, (k, v));
  }

  /** A get that finds its key returns the stored value, moves the entry to
      the back and changes no key's value; the number of entries is unchanged. */
  lemma {:induction false} GetHit<K, V>(es: seq<(K, V)>, k: K)
    requires DistinctKeys(es) && k in Keys(es)
    ensures Lookup(es, k).Some? && es[IndexOf(es, k)] == (k, Lookup(es, k).value)
    ensures |AfterGet(es, k)| == |es|
    ensures Keys(AfterGet(es, k)) == Keys(es)
    ensures AfterGet(es, k)[|es| - 1].0 == k
    ensures forall x :: Lookup(AfterGet(es, k), x) == Lookup(es, x)
  {
    var i := IndexOf(es, k);
    MovedEntryKeepsContents(es, i, es[i]);
    var es' := AfterGet(es, k);
    assert Lookup(es', k) == Lookup(es, k) by {
      assert es'[|es'| - 1] == es[i];
      assert forall p :: 0 <= p < |es'| - 1 ==> es'[p].0 != k by {
        forall p | 0 <= p < |es'| - 1 ensures es'[p].0 != k {
          assert es'[p] == es[if p < i then p else p + 1];
        }
      }
      assert IndexOf(es', k) == |es'| - 1;
    }
  }

  /** A get on an absent key returns nothing and changes nothing. */
  lemma {:induction false} GetMiss<K, V>(es: seq<(K, V)>, k: K)
    requires k !in Keys(es)
    ensures Lookup(es, k) == None && AfterGet(es, k) == es
  {
  }

  lemma {:induction false} MovedEntryKeepsContents<K, V>(es: seq<(K, V)>, i: nat, e: (K, V))
    requires DistinctKeys(es) && i < |es| && e.0 == es[i].0
    ensures |RemoveAt(es, i) + [e]| == |es|
    ensures Keys(RemoveAt(es, i) + [e]) == Keys(es)
    ensures forall x :: x != e.0 ==> Lookup(RemoveAt(es, i) + [e], x) == Lookup(es, x)
  {
    var es' := RemoveAt(es, i) + [e];
    assert forall p :: 0 <= p < |es'| - 1 ==> es'[p] == es[if p < i then p else p + 1];
    forall x | x in Keys(es) ensures x in Keys(es') {
      var p :| 0 <= p < |es| && es[p].0 == x;
      if p < i { assert es'[p] == es[p]; }
      else if p > i { assert es'[p - 1] == es[p]; }
      else { assert es'[|es'| - 1] == e; }
    }
    forall x | x != e.0
      ensures Lookup(es', x) == Lookup(es, x)
    {
      MovedEntryLookup(es, i, e, x);
    }
  }

  /** Moving the entry at i to the back leaves the lookup of another key as
      it was. */
  lemma {:induction false} MovedEntryLookup<K, V>(es: seq<(K, V)>, i: nat, e: (K, V), x: K)
    requires DistinctKeys(es) && i < |es| && e.0 == es[i].0 && x != e.0
    ensures Lookup(RemoveAt(es, i) + [e], x) == Lookup(es, x)
  {
    var es' := RemoveAt(es, i) + [e];
    var j := IndexOf(es, x);
    var j' := IndexOf(es', x);
    if j >= 0 {
      var p := if j < i then j else j - 1;
      assert es'[p] == es[j];
      assert j' >= 0 && j' <= p;
      assert es'[j'] == es[if j' < i then j' else j' + 1];
    } else {
      assert x !in Keys(es);
    }
  }

  /** A get of the most recently accessed key finds its value and leaves the
      order as it is. */
  lemma {:induction false} GetAtLast<K, V>(es: seq<(K, V)>, k: K)
    requires DistinctKeys(es) && es != [] && es[|es| - 1].0 == k
    ensures Lookup(es, k) == Some(es[|es| - 1].1)
    ensures AfterGet(es, k) == es
  {
    assert IndexOf(es, k) == |es| - 1;
    assert es[..|es| - 1] + es[|es|..] + [es[|es| - 1]] == es;
  }

  /** A get that finds k leaves its entry the most recently accessed one. */
  lemma {:induction false} GetLast<K, V>(es: seq<(K, V)>, k: K, v: V)
    requires Lookup(es, k) == Some(v)
    ensures AfterGet(es, k) != [] && AfterGet(es, k)[|AfterGet(es, k)| - 1] == (k, v)
  {
    var i := IndexOf(es, k);
    assert AfterGet(es, k) == RemoveAt(es, i) + [es[i]];
  }

  /** A put with a positive capacity leaves its entry the most recently
      accessed one. */
  lemma {:induction false} PutLast<K, V>(es: seq<(K, V)>, capacity: nat, k: K, v: V)
    requires capacity > 0
    ensures AfterPut(es, capacity, k, v) != []
    ensures AfterPut(es, capacity, k, v)[|AfterPut(es, capacity, k, v)| - 1] == (k, v)
  {
    var i := IndexOf(es, k);
    var r := AfterPut(es, capacity, k, v);
    if i >= 0 {
      var rest := RemoveAt(es, i);
      assert r == rest + [(k, v)];
    } else if |es| + 1 > capacity {
      var grown := es + [(k, v)];
      assert r == grown[1..];
      assert |r| == |es| && r[|es| - 1] == grown[|es|];
    } else {
      assert r == es + [(k, v)];
    }
  }

  /** get(k) only reorders: every entry afterwards was an entry before. */
  lemma GetKeepsEntries<K, V>(es: seq<(K, V)>, k: K)
    ensures forall e | e in AfterGet(es, k) :: e in es
  {
    var i := IndexOf(es, k);
    if i >= 0 {
      forall e | e in AfterGet(es, k) ensures e in es {
        var p :| 0 <= p < |AfterGet(es, k)| && AfterGet(es, k)[p] == e;
        if p < |es| - 1 { assert e == es[if p < i then p else p + 1]; }
      }
    }
  }

  /** put(k, v) adds no entry other than (k, v). */
  lemma PutKeepsEntries<K, V>(es: seq<(K, V)>, capacity: nat, k: K, v: V)
    ensures forall e | e in AfterPut(es, capacity, k, v) :: e == (k, v) || e in es
  {
    var i := IndexOf(es, k);
    if i >= 0 {
      assert forall e | e in es[..i] + es[i + 1..] :: e in es;
    } else if |es| + 1 > capacity {
      assert forall e | e in (es + [(k, v)])[1..] :: e in es + [(k, v)];
    }
  }

  /** The entries after each step of the sequence exercised in LRUCacheTest:
      filling the cache, touching key 1, and two insertions past capacity. */
  lemma ScenarioFill()
    ensures AfterPut([], 4, 1, "a") == [(1, "a")]
    ensures AfterPut([(1, "a")], 4, 2, "b") == [(1, "a"), (2, "b")]
    ensures AfterPut([(1, "a"), (2, "b")], 4, 3, "c") == [(1, "a"), (2, "b"), (3, "c")]
    ensures AfterPut([(1, "a"), (2, "b"), (3, "c")], 4, 4, "d") == [(1, "a"), (2, "b"), (3, "c"), (4, "d")]
  {
    assert IndexOf([(1, "a")], 2) == -1;
    assert IndexOf([(1, "a"), (2, "b")], 3) == -1;
    assert IndexOf([(1, "a"), (2, "b"), (3, "c")], 4) == -1;
  }

  lemma ScenarioTouch()
    ensures Lookup([(1, "a"), (2, "b"), (3, "c"), (4, "d")], 1) == Some("a")
    ensures AfterGet([(1, "a"), (2, "b"), (3, "c"), (4, "d")], 1) == [(2, "b"), (3, "c"), (4, "d"), (1, "a")]
  {
  }

  lemma ScenarioEvict()
    ensures AfterPut([(2, "b"), (3, "c"), (4, "d"), (1, "a")], 4, 5, "e") == [(3, "c"), (4, "d"), (1, "a"), (5, "e")]
    ensures AfterPut([(3, "c"), (4, "d"), (1, "a"), (5, "e")], 4, 6, "f") == [(4, "d"), (1, "a"), (5, "e"), (6, "f")]
  {
  }

  lemma ScenarioFinal()
    ensures IndexOf([(4, "d"), (1, "a"), (5, "e"), (6, "f")], 2) < 0
    ensures IndexOf([(4, "d"), (1, "a"), (5, "e"), (6, "f")], 3) < 0
    ensures Lookup([(4, "d"), (1, "a"), (5, "e"), (6, "f")], 1) == Some("a")
  {
  }

  /** The cache sequence exercised in LRUCacheTest: with capacity 4, put keys
      1..4, get 1, then put 5 and 6; key 1 still maps to "a" while keys 2 and 3
      have been evicted. */
  method EvictionScenario() returns (one: Option<string>, twoPresent: bool, threePresent: bool, size: nat)
    ensures one == Some("a") && !twoPresent && !threePresent && size == 4
  {
    ScenarioFill();
    ScenarioTouch();
    ScenarioEvict();
    ScenarioFinal();
    var cache := new LruCache<int, string>(4);
    cache.Put(1, "a");
    cache.Put(2, "b");
    cache.Put(3, "c");
    cache.Put(4, "d");
    var _ := cache.Get(1);
    cache.Put(5, "e");
    cache.Put(6, "f");
    twoPresent := cache.ContainsKey(2);
    threePresent := cache.ContainsKey(3);
    size := cache.Size();
    one := cache.Get(1);
  }
}
