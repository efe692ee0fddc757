/** Ordering methods by name: COMPARE_METHOD_BY_NAME with Collections.sort,
    and the recursive binary search over a name-sorted method list that both
    ReflectionUtils and ModelMapper use. */
module Search {
  import opened Jvm
  import opened Strings

  predicate SortedByName(ms: seq<MethodDecl>)
  {
    forall i, j {:trigger Compare(ms[i].name, ms[j].name)} :: 0 <= i < j < |ms| ==> Compare(ms[i].name, ms[j].name) <= 0
  }

  /** m placed before the first element whose name is not smaller. */
  function InsertByName(m: MethodDecl, ms: seq<MethodDecl>): (r: seq<MethodDecl>)
    requires SortedByName(ms)
    ensures SortedByName(r) && multiset(r) == multiset(ms) + multiset{m}
    ensures forall x :: x in r ==> x == m || x in ms
  {
    if ms == [] || Compare(m.name, ms[0].name) <= 0 then
      InsertFrontSorted(m, ms);
      [m] + ms
    else
      var rest := InsertByName(m, ms[1..]);
      InsertBehindSorted(m, ms, rest);
      assert ms == [ms[0]] + ms[1..];
      [ms[0]] + rest
  }

  lemma InsertFrontSorted(m: MethodDecl, ms: seq<MethodDecl>)
    requires SortedByName(ms) && (ms == [] || Compare(m.name, ms[0].name) <= 0)
    ensures SortedByName([m] + ms)
  {
    var r := [m] + ms;
    forall i, j | 0 <= i < j < |r|
      ensures Compare(r[i].name, r[j].name) <= 0
    {
      if i == 0 {
        if j > 1 { CompareTrans(m.name, ms[0].name, r[j].name); }
      } else {
        assert r[i] == ms[i - 1] && r[j] == ms[j - 1];
      }
    }
  }

  lemma InsertBehindSorted(m: MethodDecl, ms: seq<MethodDecl>, rest: seq<MethodDecl>)
    requires SortedByName(ms) && ms != [] && Compare(m.name, ms[0].name) > 0
    requires SortedByName(rest) && forall x :: x in rest ==> x == m || x in ms[1..]
    ensures SortedByName([ms[0]] + rest)
  {
    CompareFlip(m.name, ms[0].name);
    var r := [ms[0]] + rest;
    forall i, j | 0 <= i < j < |r|
      ensures Compare(r[i].name, r[j].name) <= 0
    {
      if i == 0 {
        assert r[j] in rest;
        if r[j] != m {
          var k :| 0 <= k < |ms[1..]| && ms[1..][k] == r[j];
          assert ms[k + 1] == r[j];
        }
      } else {
        assert r[i] == rest[i - 1] && r[j] == rest[j - 1];
      }
    }
  }

  /** Collections.sort(methods, COMPARE_METHOD_BY_NAME): the same methods,
      ordered by name. */
  function SortByName(ms: seq<MethodDecl>): (r: seq<MethodDecl>)
    ensures SortedByName(r) && multiset(r) == multiset(ms) && |r| == |ms|
  {
    if ms == [] then []
    else
      assert ms == [ms[0]] + ms[1..];
      InsertByName(ms[0], SortByName(ms[1..]))
  }

  /** binarySearch(methodName, methodList, startIdx, endIdx): an empty range or
      a null list gives null; otherwise the middle element is compared with
      the name and the search continues in the half that can hold it. */
  function BinarySearch(name: string, list: Option<seq<MethodDecl>>, start: int, end: int): (r: Option<MethodDecl>)
    requires list.Some? && start <= end ==> 0 <= start && end < |list.value|
    ensures end < start || list.None? ==> r.None?
    ensures r.Some? ==> r.value.name == name
    decreases if end < start then 0 else end - start + 1
  {
    if end < start || list.None? then None
    else
      var ms := list.value;
      var mid := (end + start) / 2;
      var c := Compare(name, ms[mid].name);
      if c == 0 then Some(ms[mid])
      else if c < 0 then BinarySearch(name, list, start, mid - 1)
      else if c > 0 then BinarySearch(name, list, mid + 1, end)
      else None
  }

  /** What the search returns is an element of the range it searched. */
  lemma {:induction false} BinarySearchSound(name: string, ms: seq<MethodDecl>, start: int, end: int)
    requires start <= end ==> 0 <= start && end < |ms|
    ensures var r := BinarySearch(name, Some(ms), start, end);
            r.Some? ==> exists i | start <= i <= end :: ms[i] == r.value
    decreases if end < start then 0 else end - start + 1
  {
    if start <= end {
      var mid := (end + start) / 2;
      var c := Compare(name, ms[mid].name);
      if c < 0 {
        BinarySearchSound(name, ms, start, mid - 1);
      } else if c > 0 {
        BinarySearchSound(name, ms, mid + 1, end);
      }
    }
  }

  /** One step of the search on a non-empty range. */
  lemma BinarySearchStep(name: string, ms: seq<MethodDecl>, start: int, end: int)
    requires 0 <= start <= end < |ms|
    ensures var mid := (end + start) / 2;
            var c := Compare(name, ms[mid].name);
            BinarySearch(name, Some(ms), start, end)
            == if c == 0 then Some(ms[mid])
               else if c < 0 then BinarySearch(name, Some(ms), start, mid - 1)
               else BinarySearch(name, Some(ms), mid + 1, end)
  {
  }

  /** On a name-sorted list the search finds every name present in the range. */
  lemma {:induction false} BinarySearchComplete(name: string, ms: seq<MethodDecl>, start: int, end: int, k: int)
    requires SortedByName(ms)
    requires 0 <= start <= k <= end < |ms| && ms[k].name == name
    ensures BinarySearch(name, Some(ms), start, end).Some?
    decreases end - start + 1
  {
    var mid := (end + start) / 2;
    var c := Compare(name, ms[mid].name);
    BinarySearchStep(name, ms, start, end);
    if c < 0 {
      if k >= mid {
        // the name would be at or after mid, hence not smaller than ms[mid]
        if k > mid { assert Compare(ms[mid].name, ms[k].name) <= 0; CompareFlip(ms[mid].name, name); }
        assert false;
      }
      BinarySearchComplete(name, ms, start, mid - 1, k);
    } else if c > 0 {
      if k <= mid {
        assert false;
      }
      BinarySearchComplete(name, ms, mid + 1, end, k);
    }
  }

  /** The search on a whole list: present in a name-sorted list if and only if
      it is found. */
  lemma SearchSortedList(name: string, ms: seq<MethodDecl>)
    requires SortedByName(ms)
    ensures BinarySearch(name, Some(ms), 0, |ms| - 1).Some? <==> exists m :: m in ms && m.name == name
  {
    BinarySearchSound(name, ms, 0, |ms| - 1);
    if m :| m in ms && m.name == name {
      var k :| 0 <= k < |ms| && ms[k] == m;
      BinarySearchComplete(name, ms, 0, |ms| - 1, k);
    }
  }

  /** Sorting first makes the search find every method of the original list:
      the guarantee lookupPropertyResolver relies on. */
  lemma SearchAfterSort(name: string, ms: seq<MethodDecl>)
    ensures BinarySearch(name, Some(SortByName(ms)), 0, |ms| - 1).Some? <==> exists m :: m in ms && m.name == name
    ensures BinarySearch(name, Some(SortByName(ms)), 0, |ms| - 1).Some? ==>
              BinarySearch(name, Some(SortByName(ms)), 0, |ms| - 1).value in ms
  {
    SearchSortedPermutation(name, SortByName(ms), ms);
  }

  /** The search over a name-sorted arrangement s of the methods of ms. */
  lemma SearchSortedPermutation(name: string, s: seq<MethodDecl>, ms: seq<MethodDecl>)
    requires SortedByName(s) && multiset(s) == multiset(ms) && |s| == |ms|
    ensures BinarySearch(name, Some(s), 0, |ms| - 1).Some? <==> exists m :: m in ms && m.name == name
    ensures BinarySearch(name, Some(s), 0, |ms| - 1).Some? ==> BinarySearch(name, Some(s), 0, |ms| - 1).value in ms
  {
    var r := BinarySearch(name, Some(s), 0, |s| - 1);
    SearchSortedList(name, s);
    if r.Some? {
      BinarySearchSound(name, s, 0, |s| - 1);
      var i :| 0 <= i <= |s| - 1 && s[i] == r.value;
      assert r.value in multiset(s);
      var m :| m in s && m.name == name;
      assert m in multiset(s);
      assert m in ms;
    }
    if m :| m in ms && m.name == name {
      assert m in multiset(ms);
      assert m in s;
    }
  }

  /** On a list that is not sorted the search can miss a method that is there:
      with declaration order getB, getC, getA it does not find getA. */
  lemma UnsortedListMisses(f: FieldId)
    ensures var ms := [MethodDecl("getB", PUBLIC, f), MethodDecl("getC", PUBLIC, f), MethodDecl("getA", PUBLIC, f)];
            ms[2].name == "getA" && BinarySearch("getA", Some(ms), 0, 2).None?
  {
    var ms := [MethodDecl("getB", PUBLIC, f), MethodDecl("getC", PUBLIC, f), MethodDecl("getA", PUBLIC, f)];
    assert Compare("getA", "getC") < 0 by {
      assert "getA"[1..] == "etA" && "getC"[1..] == "etC";
      assert "etA"[1..] == "tA" && "etC"[1..] == "tC";
      assert "tA"[1..] == "A" && "tC"[1..] == "C";
    }
    assert Compare("getA", "getB") < 0 by {
      assert "getA"[1..] == "etA" && "getB"[1..] == "etB";
      assert "etA"[1..] == "tA" && "etB"[1..] == "tB";
      assert "tA"[1..] == "A" && "tB"[1..] == "B";
    }
  }
}
