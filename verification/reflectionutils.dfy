/** ReflectionUtils: the single instance holding two LRU caches (declared
    fields and declared methods along a class hierarchy, capacity 100 each),
    the do/while hierarchy walks that fill them, the method lookup by
    binary search, getMethodsByNameCriteria, reflective instantiation and
    invocation. */
module ReflectionUtils {
  import opened Jvm
  import opened Lru
  import opened Hierarchy
  import opened Search
  import opened Criteria
  import opened Strings

  const CACHE_DEFAULT_CAPACITY: nat := 100

  // ------------------------------------------------------------ the walks

  /** The value the walk's class variable holds when the do/while loop ends:
      the superclass of the last class visited, so null or Object. */
  function WalkEnd(ct: ClassTable, c: ClassName): (r: Option<ClassName>)
    requires WellFormed(ct)
    ensures r.None? || r == Some(OBJECT)
    decreases Level(ct, c)
  {
    match NextInWalk(ct, c)
    case Some(s) => WalkEnd(ct, s)
    case None => Superclass(ct, c)
  }

  /** The do/while loop of getDeclaredFieldsAlongTheHierarchy...: append the
      declared fields, move to the superclass, continue while it is neither
      null nor Object. Also returns the class variable's final value. */
  method WalkFields(ct: ClassTable, clazz: ClassName) returns (collected: seq<FieldDecl>, last: Option<ClassName>)
    requires WellFormed(ct)
    ensures collected == FieldsAlongHierarchy(ct, clazz)
    ensures last == WalkEnd(ct, clazz)
  {
    var node := clazz;
    collected := DeclaredFields(ct, node);
    last := Superclass(ct, node);
    while last.Some? && last.value != OBJECT
      invariant last == Superclass(ct, node)
      invariant collected + (match NextInWalk(ct, node) case Some(s) => FieldsAlongHierarchy(ct, s) case None => [])
                == FieldsAlongHierarchy(ct, clazz)
      invariant WalkEnd(ct, node) == WalkEnd(ct, clazz)
      decreases Level(ct, node)
    {
      assert NextInWalk(ct, node) == last;
      node := last.value;
      collected := collected + DeclaredFields(ct, node);
      last := Superclass(ct, node);
    }
  }

  /** The do/while loop of getClazzDeclaredMethodsAlongTheHierarchy. */
  method WalkMethods(ct: ClassTable, clazz: ClassName) returns (collected: seq<MethodDecl>)
    requires WellFormed(ct)
    ensures collected == MethodsAlongHierarchy(ct, clazz)
  {
    var node := clazz;
    collected := DeclaredMethods(ct, node);
    var up := Superclass(ct, node);
    while up.Some? && up.value != OBJECT
      invariant up == Superclass(ct, node)
      invariant collected + (match NextInWalk(ct, node) case Some(s) => MethodsAlongHierarchy(ct, s) case None => [])
                == MethodsAlongHierarchy(ct, clazz)
      decreases Level(ct, node)
    {
      assert NextInWalk(ct, node) == up;
      node := up.value;
      collected := collected + DeclaredMethods(ct, node);
      up := Superclass(ct, node);
    }
  }

  /** The last step of getDeclaredFieldsAlongTheHierarchy...: filter by the
      annotation types when some are given. */
  function ByAnnotations(fields: seq<FieldDecl>, annotations: seq<ClassName>): seq<FieldDecl>
  {
    if annotations == [] then fields else MeetFields(annotations, fields)
  }

  /** getDeclaredFieldsAlongTheHierarchyOptionallyFilteringByAnnotationTypes AS
      WRITTEN: the loop reassigns the class variable, and the collected fields
      are cached under its final value (null or Object), not under the class
      asked for. */
  method GetDeclaredFieldsAsWritten(ct: ClassTable, cache: LruCache<Option<ClassName>, seq<FieldDecl>>,
                                    clazz: Option<ClassName>, annotations: seq<ClassName>)
    returns (r: seq<FieldDecl>)
    requires WellFormed(ct) && cache.Valid()
    modifies cache
    ensures cache.Valid()
    ensures clazz.None? ==> r == [] && cache.entries == old(cache.entries)
    ensures clazz.Some? && Lookup(old(cache.entries), clazz).Some? ==>
              r == ByAnnotations(Lookup(old(cache.entries), clazz).value, annotations)
    ensures clazz.Some? && Lookup(old(cache.entries), clazz).None? ==>
              r == ByAnnotations(FieldsAlongHierarchy(ct, clazz.value), annotations)
              && cache.entries == AfterPut(old(cache.entries), cache.capacity,
                                           WalkEnd(ct, clazz.value), FieldsAlongHierarchy(ct, clazz.value))
    ensures AsWrittenKeys(old(cache.entries)) ==> AsWrittenKeys(cache.entries)
    ensures AsWrittenKeys(old(cache.entries)) && clazz.Some? && clazz.value != OBJECT ==>
              r == ByAnnotations(FieldsAlongHierarchy(ct, clazz.value), annotations)
  {
    if clazz.None? {
      return [];
    }
    if AsWrittenKeys(cache.entries) {
      AsWrittenKeysGet(cache.entries, clazz);
    }
    var collected := cache.Get(clazz);
    var fields: seq<FieldDecl>;
    if collected.None? {
      var last;
      fields, last := WalkFields(ct, clazz.value);
      if AsWrittenKeys(cache.entries) {
        AsWrittenKeysPut(cache.entries, cache.capacity, last, fields);
      }
      cache.Put(last, fields);
    } else {
      fields := collected.value;
    }
    if annotations != [] {
      r := MeetFieldCriteria(annotations, fields);
    } else {
      r := fields;
    }
  }

  /** Every entry the as-written walk stores is keyed by the walk's end: null
      or Object. */
  ghost predicate AsWrittenKeys(es: seq<(Option<ClassName>, seq<FieldDecl>)>)
  {
    forall i | 0 <= i < |es| :: es[i].0.None? || es[i].0 == Some(OBJECT)
  }

  /** A cache filled only by the as-written walk never holds an entry for a
      class other than Object, so for every such class the walk runs afresh
      and its fields are right; the entries keep that shape. */
  lemma AsWrittenKeysGet(es: seq<(Option<ClassName>, seq<FieldDecl>)>, k: Option<ClassName>)
    requires AsWrittenKeys(es)
    ensures AsWrittenKeys(AfterGet(es, k))
    ensures k.Some? && k.value != OBJECT ==> Lookup(es, k).None?
  {
    var P := (k: Option<ClassName>, v: seq<FieldDecl>) => k.None? || k == Some(OBJECT);
    LookupSound(es, k, P);
    GetSound(es, k, P);
  }

  lemma AsWrittenKeysPut(es: seq<(Option<ClassName>, seq<FieldDecl>)>, capacity: nat, k: Option<ClassName>, v: seq<FieldDecl>)
    requires AsWrittenKeys(es) && (k.None? || k == Some(OBJECT))
    ensures AsWrittenKeys(AfterPut(es, capacity, k, v))
  {
    PutSound(es, capacity, k, v, (k: Option<ClassName>, v: seq<FieldDecl>) => k.None? || k == Some(OBJECT));
  }

  /** The class table of the first finding: Person, directly below Object,
      declares a field; Object declares none. */
  const PERSON: ClassName := "com.dynamicmapper.domain.Person"
  const PersonTable: ClassTable := map[
    OBJECT := ClassDecl(None, false, true, [], [], 0, map[]),
    PERSON := ClassDecl(Some(OBJECT), false, true,
                        [FieldDecl(FieldId(PERSON, "name"), STRING, 2, [])], [], 1, map[])]

  /** Once the fields of Person have been collected, asking for the fields of
      Object returns Person's fields: they were cached under Object. */
  method StaleObjectFields() returns (forObject: seq<FieldDecl>)
    ensures forObject == FieldsAlongHierarchy(PersonTable, PERSON)
    ensures forObject != FieldsAlongHierarchy(PersonTable, OBJECT)
  {
    assert WellFormed(PersonTable);
    var cache := new LruCache<Option<ClassName>, seq<FieldDecl>>(CACHE_DEFAULT_CAPACITY);
    var _ := GetDeclaredFieldsAsWritten(PersonTable, cache, Some(PERSON), []);
    assert WalkEnd(PersonTable, PERSON) == Some(OBJECT);
    PutThenLookup([], CACHE_DEFAULT_CAPACITY, Some(OBJECT), FieldsAlongHierarchy(PersonTable, PERSON));
    forObject := GetDeclaredFieldsAsWritten(PersonTable, cache, Some(OBJECT), []);
    assert |FieldsAlongHierarchy(PersonTable, PERSON)| == 1;
  }

  // ------------------------------------------------------- the cache state

  /** Every fields-cache entry is stored under the class it was collected for. */
  ghost predicate FieldsCacheSound(ct: ClassTable, es: seq<(Option<ClassName>, seq<FieldDecl>)>)
    requires WellFormed(ct)
  {
    forall i | 0 <= i < |es| :: es[i].0.Some? && es[i].1 == FieldsAlongHierarchy(ct, es[i].0.value)
  }

  /** Every methods-cache entry holds the methods along the hierarchy of its
      class, in declaration order or sorted by name. */
  ghost predicate MethodsCacheSound(ct: ClassTable, es: seq<(ClassName, seq<MethodDecl>)>)
    requires WellFormed(ct)
  {
    forall i | 0 <= i < |es| :: multiset(es[i].1) == multiset(MethodsAlongHierarchy(ct, es[i].0))
  }

  lemma LookupSound<K, V>(es: seq<(K, V)>, k: K, P: (K, V) -> bool)
    requires forall i | 0 <= i < |es| :: P(es[i].0, es[i].1)
    ensures Lookup(es, k).Some? ==> P(k, Lookup(es, k).value)
  {
  }

  lemma PutSound<K, V>(es: seq<(K, V)>, capacity: nat, k: K, v: V, P: (K, V) -> bool)
    requires forall i | 0 <= i < |es| :: P(es[i].0, es[i].1)
    requires P(k, v)
    ensures forall i | 0 <= i < |AfterPut(es, capacity, k, v)| :: P(AfterPut(es, capacity, k, v)[i].0, AfterPut(es, capacity, k, v)[i].1)
  {
    var es' := AfterPut(es, capacity, k, v);
    PutKeepsEntries(es, capacity, k, v);
    forall i | 0 <= i < |es'| ensures P(es'[i].0, es'[i].1) {
      if es'[i] != (k, v) {
        assert es'[i] in es;
        var m :| 0 <= m < |es| && es[m] == es'[i];
      }
    }
  }

  lemma GetSound<K, V>(es: seq<(K, V)>, k: K, P: (K, V) -> bool)
    requires forall i | 0 <= i < |es| :: P(es[i].0, es[i].1)
    ensures forall i | 0 <= i < |AfterGet(es, k)| :: P(AfterGet(es, k)[i].0, AfterGet(es, k)[i].1)
  {
    var es' := AfterGet(es, k);
    GetKeepsEntries(es, k);
    forall i | 0 <= i < |es'| ensures P(es'[i].0, es'[i].1) {
      assert es'[i] in es;
      var m :| 0 <= m < |es| && es[m] == es'[i];
    }
  }

  lemma FieldsCacheHit(ct: ClassTable, es: seq<(Option<ClassName>, seq<FieldDecl>)>, k: Option<ClassName>)
    requires WellFormed(ct) && FieldsCacheSound(ct, es)
    ensures Lookup(es, k).Some? ==> k.Some? && Lookup(es, k).value == FieldsAlongHierarchy(ct, k.value)
    ensures FieldsCacheSound(ct, AfterGet(es, k))
  {
    var P := (k: Option<ClassName>, v: seq<FieldDecl>) => k.Some? && v == FieldsAlongHierarchy(ct, k.value);
    LookupSound(es, k, P);
    GetSound(es, k, P);
  }

  lemma FieldsCachePut(ct: ClassTable, es: seq<(Option<ClassName>, seq<FieldDecl>)>, capacity: nat, c: ClassName, v: seq<FieldDecl>)
    requires WellFormed(ct) && FieldsCacheSound(ct, es) && v == FieldsAlongHierarchy(ct, c)
    ensures FieldsCacheSound(ct, AfterPut(es, capacity, Some(c), v))
  {
    PutSound(es, capacity, Some(c), v, (k: Option<ClassName>, v: seq<FieldDecl>) => k.Some? && v == FieldsAlongHierarchy(ct, k.value));
  }

  lemma MethodsCacheHit(ct: ClassTable, es: seq<(ClassName, seq<MethodDecl>)>, k: ClassName)
    requires WellFormed(ct) && MethodsCacheSound(ct, es)
    ensures Lookup(es, k).Some? ==> multiset(Lookup(es, k).value) == multiset(MethodsAlongHierarchy(ct, k))
    ensures MethodsCacheSound(ct, AfterGet(es, k))
  {
    var P := (k: ClassName, v: seq<MethodDecl>) => multiset(v) == multiset(MethodsAlongHierarchy(ct, k));
    LookupSound(es, k, P);
    GetSound(es, k, P);
  }

  lemma MethodsCachePut(ct: ClassTable, es: seq<(ClassName, seq<MethodDecl>)>, capacity: nat, k: ClassName, v: seq<MethodDecl>)
    requires WellFormed(ct) && MethodsCacheSound(ct, es) && multiset(v) == multiset(MethodsAlongHierarchy(ct, k))
    ensures MethodsCacheSound(ct, AfterPut(es, capacity, k, v))
  {
    PutSound(es, capacity, k, v, (k: ClassName, v: seq<MethodDecl>) => multiset(v) == multiset(MethodsAlongHierarchy(ct, k)));
  }

  function HasDefaultConstructor(ct: ClassTable, c: ClassName): bool
  {
    c in ct && ct[c].hasDefaultConstructor
  }

  function FieldIds(fs: seq<FieldDecl>): set<FieldId>
  {
    set i | 0 <= i < |fs| :: fs[i].id
  }

  /** The object the public parameterless constructor of c makes: one slot
      per field along c's hierarchy, each holding the value the constructor
      leaves in it. */
  function DefaultInstance(ct: ClassTable, c: ClassName): (o: JObject)
    requires WellFormed(ct)
    ensures o.Instance? && ClassOf(o) == c
    ensures o.fields.Keys == FieldIds(FieldsAlongHierarchy(ct, c))
    ensures forall f | f in FieldsAlongHierarchy(ct, c) :: f.id in o.fields && o.fields[f.id] == InitialValue(ct, c, f.id)
  {
    var o := Instance(c, map id | id in FieldIds(FieldsAlongHierarchy(ct, c)) :: InitialValue(ct, c, id));
    assert forall f | f in FieldsAlongHierarchy(ct, c) :: f.id in FieldIds(FieldsAlongHierarchy(ct, c));
    o
  }

  /** invokeReflective(obj, method): a null method raises
      NullPointerException; otherwise Method.invoke. */
  function InvokeReflective(objs: map<Addr, JObject>, receiver: Value, m: Option<MethodDecl>): (r: Result<Value>)
    ensures m.None? ==> r == Err(NullPointer)
    ensures m.Some? ==> r == Invoke(objs, receiver, m.value)
  {
    if m.None? then Err(NullPointer) else Invoke(objs, receiver, m.value)
  }

  /** What getter-by-name filtering keeps of a class's methods: public
      getters whose name contains one of the names. */
  predicate AcceptsByName(names: seq<string>, m: MethodDecl)
    requires names != []
  {
    Accepts(ByName(GetterCriteria, Join(names, SEPARATOR)), m)
  }

  /** The methods along clazz's hierarchy that getter-by-name filtering
      keeps, in walk order. */
  function GettersByName(ct: ClassTable, clazz: ClassName, names: seq<string>): seq<MethodDecl>
    requires WellFormed(ct) && names != []
  {
    Filter(MethodsAlongHierarchy(ct, clazz), m => AcceptsByName(names, m))
  }

  lemma FilterPermutation(xs: seq<MethodDecl>, ys: seq<MethodDecl>, keep: MethodDecl -> bool)
    requires multiset(xs) == multiset(ys)
    ensures multiset(Filter(xs, keep)) == multiset(Filter(ys, keep))
    ensures |Filter(xs, keep)| == |Filter(ys, keep)|
  {
    FilterRemovesOnly(xs, keep);
    FilterRemovesOnly(ys, keep);
    assert multiset(Filter(xs, keep)) == multiset(Filter(ys, keep));
    assert |multiset(Filter(xs, keep))| == |multiset(Filter(ys, keep))|;
  }

  /** The by-name getter filter built from a non-empty name list keeps
      exactly the methods AcceptsByName describes. */
  lemma GetterByNameIsFilter(names: seq<string>, items: seq<MethodDecl>)
    requires names != []
    ensures Meet(ByName(GetterCriteria, Join(names, SEPARATOR)), items) == Ok(Filter(items, m => AcceptsByName(names, m)))
  {
    var c := ByName(GetterCriteria, Join(names, SEPARATOR));
    MeetIsFilter(c, items);
    assert Initialized(GetterCriteria) by {
      assert GetterCriteria.children[0] == NamePattern(Some(GetterPattern));
    }
    FilterSame(items, m => Accepts(c, m), m => AcceptsByName(names, m));
  }

  /** A search over any arrangement of the methods along a hierarchy finds
      only methods of that hierarchy, of the name searched for. */
  lemma SearchFindsInHierarchy(ct: ClassTable, clazz: ClassName, name: string, ms: seq<MethodDecl>)
    requires WellFormed(ct) && multiset(ms) == multiset(MethodsAlongHierarchy(ct, clazz))
    ensures var r := BinarySearch(name, Some(ms), 0, |ms| - 1);
            r.Some? ==> r.value.name == name && r.value in MethodsAlongHierarchy(ct, clazz)
  {
    var r := BinarySearch(name, Some(ms), 0, |ms| - 1);
    BinarySearchSound(name, ms, 0, |ms| - 1);
    if r.Some? {
      assert r.value in multiset(ms);
    }
  }

  /** On a sorted arrangement the search finds a method exactly when the
      hierarchy has one of that name. */
  lemma SortedSearchComplete(ct: ClassTable, clazz: ClassName, name: string, ms: seq<MethodDecl>)
    requires WellFormed(ct) && multiset(ms) == multiset(MethodsAlongHierarchy(ct, clazz)) && SortedByName(ms)
    ensures BinarySearch(name, Some(ms), 0, |ms| - 1).Some? <==> exists m :: m in MethodsAlongHierarchy(ct, clazz) && m.name == name
  {
    SearchSortedList(name, ms);
    if m :| m in MethodsAlongHierarchy(ct, clazz) && m.name == name {
      assert m in multiset(ms);
    }
    if m :| m in ms && m.name == name {
      assert m in multiset(MethodsAlongHierarchy(ct, clazz));
    }
  }

  class ReflectionUtils {
    /** The classes of the running program. */
    const ct: ClassTable
    const fieldsCache: LruCache<Option<ClassName>, seq<FieldDecl>>
    const methodsCache: LruCache<ClassName, seq<MethodDecl>>

    ghost predicate Valid()
      reads this, fieldsCache, methodsCache
    {
      && WellFormed(ct)
      && fieldsCache.Valid() && methodsCache.Valid()
      && fieldsCache.capacity == CACHE_DEFAULT_CAPACITY && methodsCache.capacity == CACHE_DEFAULT_CAPACITY
      && FieldsCacheSound(ct, fieldsCache.entries)
      && MethodsCacheSound(ct, methodsCache.entries)
    }

    /** The private constructor: two empty caches of capacity 100. */
    constructor (ct: ClassTable)
      requires WellFormed(ct)
      ensures Valid() && this.ct == ct
      ensures fresh(fieldsCache) && fresh(methodsCache)
      ensures fieldsCache.entries == [] && methodsCache.entries == []
    {
      this.ct := ct;
      fieldsCache := new LruCache(CACHE_DEFAULT_CAPACITY);
      methodsCache := new LruCache(CACHE_DEFAULT_CAPACITY);
    }

    /** getDeclaredFieldsAlongTheHierarchyOptionallyFilteringByAnnotationTypes,
        caching under the class asked for: a null class gives an empty list;
        otherwise the fields along the hierarchy, filtered when annotation
        types are given, whether or not they came from the cache. */
    method GetDeclaredFieldsAlongTheHierarchy(clazz: Option<ClassName>, annotations: seq<ClassName>) returns (r: seq<FieldDecl>)
      requires Valid()
      modifies fieldsCache
      ensures Valid()
      ensures clazz.None? ==> r == [] && fieldsCache.entries == old(fieldsCache.entries)
      ensures clazz.Some? ==> r == ByAnnotations(FieldsAlongHierarchy(ct, clazz.value), annotations)
    {
      if clazz.None? {
        return [];
      }
      FieldsCacheHit(ct, fieldsCache.entries, clazz);
      var collected := fieldsCache.Get(clazz);
      var fields: seq<FieldDecl>;
      if collected.None? {
        var last;
        fields, last := WalkFields(ct, clazz.value);
        FieldsCachePut(ct, fieldsCache.entries, fieldsCache.capacity, clazz.value, fields);
        fieldsCache.Put(clazz, fields);
      } else {
        fields := collected.value;
      }
      if annotations != [] {
        r := MeetFieldCriteria(annotations, fields);
      } else {
        r := fields;
      }
    }

    /** getClazzFieldsAlongTheHierarchy(clazz). */
    method GetClazzFieldsAlongTheHierarchy(clazz: Option<ClassName>) returns (r: seq<FieldDecl>)
      requires Valid()
      modifies fieldsCache
      ensures Valid()
      ensures r == if clazz.None? then [] else FieldsAlongHierarchy(ct, clazz.value)
    {
      r := GetDeclaredFieldsAlongTheHierarchy(clazz, []);
    }

    /** getDeclaredFieldsAnnotatedWithTraversingClazzHierarchy(clazz, annotation). */
    method GetDeclaredFieldsAnnotatedWith(clazz: Option<ClassName>, annotation: ClassName) returns (r: seq<FieldDecl>)
      requires Valid()
      modifies fieldsCache
      ensures Valid()
      ensures r == if clazz.None? then [] else MeetFields([annotation], FieldsAlongHierarchy(ct, clazz.value))
    {
      r := GetDeclaredFieldsAlongTheHierarchy(clazz, [annotation]);
    }

    /** getClazzDeclaredMethodsAlongTheHierarchy: a cached list is returned as
        it is, without walking again; on a miss the walk's list (declaration
        order) is cached under the class. */
    method GetClazzDeclaredMethodsAlongTheHierarchy(clazz: ClassName) returns (r: seq<MethodDecl>)
      requires Valid()
      modifies methodsCache
      ensures Valid()
      ensures multiset(r) == multiset(MethodsAlongHierarchy(ct, clazz))
      ensures Lookup(old(methodsCache.entries), clazz).Some? ==> r == Lookup(old(methodsCache.entries), clazz).value
      ensures Lookup(old(methodsCache.entries), clazz).None? ==>
                r == MethodsAlongHierarchy(ct, clazz)
                && methodsCache.entries == AfterPut(old(methodsCache.entries), CACHE_DEFAULT_CAPACITY, clazz, r)
      ensures Lookup(methodsCache.entries, clazz) == Some(r)
    {
      MethodsCacheHit(ct, methodsCache.entries, clazz);
      ghost var before := methodsCache.entries;
      var collected := methodsCache.Get(clazz);
      if collected.None? {
        r := WalkMethods(ct, clazz);
        MethodsCachePut(ct, methodsCache.entries, methodsCache.capacity, clazz, r);
        PutThenLookup(methodsCache.entries, methodsCache.capacity, clazz, r);
        methodsCache.Put(clazz, r);
      } else {
        r := collected.value;
        GetHit(before, clazz);
      }
    }

    /** lookupPropertyResolver(name, clazz) AS WRITTEN: the list is sorted only
        when the class is not cached yet. A list that
        getClazzDeclaredMethodsAlongTheHierarchy cached earlier is searched in
        declaration order, where the binary search can miss. */
    method LookupPropertyResolverAsWritten(name: string, clazz: ClassName) returns (r: Option<MethodDecl>)
      requires Valid()
      modifies methodsCache
      ensures Valid()
      ensures r.Some? ==> r.value.name == name && r.value in MethodsAlongHierarchy(ct, clazz)
      ensures Lookup(old(methodsCache.entries), clazz).None? ==>
                (r.Some? <==> exists m :: m in MethodsAlongHierarchy(ct, clazz) && m.name == name)
      ensures Lookup(old(methodsCache.entries), clazz).Some? ==>
                var cached := Lookup(old(methodsCache.entries), clazz).value;
                r == BinarySearch(name, Some(cached), 0, |cached| - 1)
    {
      var cached := methodsCache.ContainsKey(clazz);
      if !cached {
        var methodList := CacheSortedMethods(clazz);
      }
      var targetClazzMethods := GetCachedMethods(clazz);
      r := BinarySearch(name, Some(targetClazzMethods), 0, |targetClazzMethods| - 1);
      SearchFindsInHierarchy(ct, clazz, name, targetClazzMethods);
      if !cached {
        SortedSearchComplete(ct, clazz, name, targetClazzMethods);
      }
    }

    /** cachedMethods.get(clazz) for a class known to be cached. */
    method GetCachedMethods(clazz: ClassName) returns (ms: seq<MethodDecl>)
      requires Valid() && Lookup(methodsCache.entries, clazz).Some?
      modifies methodsCache
      ensures Valid()
      ensures ms == Lookup(old(methodsCache.entries), clazz).value
      ensures multiset(ms) == multiset(MethodsAlongHierarchy(ct, clazz))
    {
      MethodsCacheHit(ct, methodsCache.entries, clazz);
      var cached := methodsCache.Get(clazz);
      ms := cached.value;
    }

    /** The block lookupPropertyResolver runs for a class not cached yet: walk
        the hierarchy, sort by name, cache the sorted list. */
    method CacheSortedMethods(clazz: ClassName) returns (sorted: seq<MethodDecl>)
      requires Valid()
      modifies methodsCache
      ensures Valid()
      ensures Lookup(methodsCache.entries, clazz) == Some(sorted)
      ensures SortedByName(sorted) && multiset(sorted) == multiset(MethodsAlongHierarchy(ct, clazz))
    {
      var methodList := GetClazzDeclaredMethodsAlongTheHierarchy(clazz);
      methodList := SortByName(methodList);
      MethodsCachePut(ct, methodsCache.entries, methodsCache.capacity, clazz, methodList);
      PutThenLookup(methodsCache.entries, methodsCache.capacity, clazz, methodList);
      methodsCache.Put(clazz, methodList);
      sorted := methodList;
    }

    /** lookupPropertyResolver(name, clazz), corrected to sort the list it
        searches whether or not it was cached: the method is found exactly
        when the hierarchy has a method of that name. */
    method LookupPropertyResolver(name: string, clazz: ClassName) returns (r: Option<MethodDecl>)
      requires Valid()
      modifies methodsCache
      ensures Valid()
      ensures r.Some? ==> r.value.name == name && r.value in MethodsAlongHierarchy(ct, clazz)
      ensures r.Some? <==> exists m :: m in MethodsAlongHierarchy(ct, clazz) && m.name == name
    {
      var methodList := CacheSortedMethods(clazz);
      r := BinarySearch(name, Some(methodList), 0, |methodList| - 1);
      SearchFindsInHierarchy(ct, clazz, name, methodList);
      SortedSearchComplete(ct, clazz, name, methodList);
    }

    /** getMethodsByNameCriteria(clazz, names): the public getters along the
        hierarchy whose names contain one of the names; an empty name list
        raises while building the filter, and a count different from the
        number of names raises afterwards. */
    method GetMethodsByNameCriteria(clazz: ClassName, names: seq<string>) returns (r: Result<seq<MethodDecl>>)
      requires Valid()
      modifies methodsCache
      ensures Valid()
      ensures Lookup(methodsCache.entries, clazz).Some?
      ensures names == [] ==> r == Err(StringIndexOutOfBounds)
      ensures names != [] ==>
                var found := GettersByName(ct, clazz, names);
                && (r.Err? <==> |found| != |names|)
                && (r.Err? ==> r.error == MethodsNotFound)
                && (r.Ok? ==> multiset(r.value) == multiset(found))
    {
      var methods := GetClazzDeclaredMethodsAlongTheHierarchy(clazz);
      var criteria := NewByName(GetterCriteria, names);
      if criteria.Err? {
        return Err(criteria.error);
      }
      var filtered := MeetCriteria(criteria.value, methods);
      GetterByNameIsFilter(names, methods);
      FilterPermutation(methods, MethodsAlongHierarchy(ct, clazz), m => AcceptsByName(names, m));
      if |filtered.value| != |names| {
        return Err(MethodsNotFound);
      }
      return Ok(filtered.value);
    }
  }

  /** newInstanceOf(clazz): a new object through the public parameterless
      constructor, or an error when there is none. */
  method NewInstanceOf(ct: ClassTable, h: Heap, clazz: ClassName) returns (r: Result<Addr>)
    requires WellFormed(ct) && h.Valid()
    modifies h
    ensures h.Valid()
    ensures !HasDefaultConstructor(ct, clazz) ==> r == Err(NoDefaultConstructor(clazz)) && h.objs == old(h.objs) && h.next == old(h.next)
    ensures HasDefaultConstructor(ct, clazz) ==>
              r == Ok(old(h.next)) && h.next == old(h.next) + 1
              && h.objs == old(h.objs)[old(h.next) := DefaultInstance(ct, clazz)]
  {
    if !HasDefaultConstructor(ct, clazz) {
      return Err(NoDefaultConstructor(clazz));
    }
    var a := h.Alloc(DefaultInstance(ct, clazz));
    return Ok(a);
  }

  /** The class of the second finding: C declares getB, getC, getA in that
      order, each reading one field. */
  const C_CLASS: ClassName := "C"
  const CField: FieldId := FieldId(C_CLASS, "x")
  const CTable: ClassTable := map[
    OBJECT := ClassDecl(None, false, true, [], [], 0, map[]),
    C_CLASS := ClassDecl(Some(OBJECT), false, true, [FieldDecl(CField, STRING, 2, [])],
                         [MethodDecl("getB", PUBLIC, CField), MethodDecl("getC", PUBLIC, CField),
                          MethodDecl("getA", PUBLIC, CField)], 1, map[])]

  /** After getClazzDeclaredMethodsAlongTheHierarchy(C) has cached C's methods
      in declaration order, lookupPropertyResolver("getA", C) as written finds
      nothing, although C declares getA; the corrected lookup finds it. */
  method UnsortedCacheMissesMethod() returns (asWritten: Option<MethodDecl>, corrected: Option<MethodDecl>)
    ensures MethodDecl("getA", PUBLIC, CField) in MethodsAlongHierarchy(CTable, C_CLASS)
    ensures asWritten.None? && corrected.Some? && corrected.value.name == "getA"
  {
    var ms := [MethodDecl("getB", PUBLIC, CField), MethodDecl("getC", PUBLIC, CField), MethodDecl("getA", PUBLIC, CField)];
    CTableFacts();
    var ru := new ReflectionUtils(CTable);
    var listed := ru.GetClazzDeclaredMethodsAlongTheHierarchy(C_CLASS);
    UnsortedListMisses(CField);
    asWritten := ru.LookupPropertyResolverAsWritten("getA", C_CLASS);
    assert ms[2] in ms;
    corrected := ru.LookupPropertyResolver("getA", C_CLASS);
  }

  lemma CTableFacts()
    ensures WellFormed(CTable)
    ensures MethodsAlongHierarchy(CTable, C_CLASS)
            == [MethodDecl("getB", PUBLIC, CField), MethodDecl("getC", PUBLIC, CField), MethodDecl("getA", PUBLIC, CField)]
  {
    assert NextInWalk(CTable, C_CLASS) == None;
  }
}
