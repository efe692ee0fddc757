/** ModelMapper: the reflective deep copy, and the mapping of a source object
    onto a new object of a destination class through the source getters named
    by the destination's @Mappable fields. */
module ModelMapper {
  import opened Jvm
  import opened Hierarchy
  import opened CopySpec
  import opened Lru
  import opened Search
  import opened MapSpec
  import CollectionFactory
  import ReflectionUtils

  // -------------------------------------------------------------- deep copy

  /** recursiveReflectiveDeepCopy(obj). Every exception raised while copying
      an object (the NullPointerException of a null argument, a collection
      CollectionFactory has no implementation for, a class without a public
      parameterless constructor) is caught and turned into a null copy. */
  method RecursiveReflectiveDeepCopy(ct: ClassTable, h: Heap, v: Value,
                                     ghost src: map<Addr, JObject>, ghost rank: map<Addr, nat>)
    returns (c: Value)
    requires Copyable(ct, src, rank) && h.Valid() && Within(src, h.objs)
    requires v.Null? || v.addr in src
    modifies h
    ensures h.Valid() && old(h.next) <= h.next && Grown(old(h.objs), old(h.next), h.objs)
    ensures Copied(ct, src, rank, h.objs, old(h.next), h.next, v, c)
    decreases Rk(rank, v), 2
  {
    if v.Null? {
      return Null;
    }
    if ObjectIsWellKnownImmutable(ct, h.objs, v) {
      return v;
    }
    match h.objs[v.addr]
    case ArrayObj(_, _) =>
      c := CopyArray(ct, h, v.addr, src, rank);
    case CollectionObj(_, _) =>
      c := CopyCollection(ct, h, v.addr, src, rank);
    case Instance(_, _) =>
      c := CopyInstance(ct, h, v.addr, src, rank);
  }

  /** deepCopyOf(obj). */
  method DeepCopyOf(ct: ClassTable, h: Heap, v: Value, ghost src: map<Addr, JObject>, ghost rank: map<Addr, nat>)
    returns (c: Value)
    requires Copyable(ct, src, rank) && h.Valid() && Within(src, h.objs)
    requires v.Null? || v.addr in src
    modifies h
    ensures h.Valid() && old(h.next) <= h.next && Grown(old(h.objs), old(h.next), h.objs)
    ensures Copied(ct, src, rank, h.objs, old(h.next), h.next, v, c)
  {
    c := RecursiveReflectiveDeepCopy(ct, h, v, src, rank);
  }

  /** The array branch: Array.newInstance with the same component type and
      length, then each slot copied in turn. Array.set of a null copy into an
      array of a primitive component type raises IllegalArgumentException,
      and the copy is null. An array class declares no fields, so the field
      loop that follows adds nothing. */
  method CopyArray(ct: ClassTable, h: Heap, a: Addr, ghost src: map<Addr, JObject>, ghost rank: map<Addr, nat>)
    returns (c: Value)
    requires Copyable(ct, src, rank) && h.Valid() && Within(src, h.objs)
    requires a in src && src[a].ArrayObj?
    modifies h
    ensures h.Valid() && old(h.next) <= h.next && Grown(old(h.objs), old(h.next), h.objs)
    ensures ArrayCopied(ct, src, rank, h.objs, old(h.next), h.next, a, c)
    decreases Rk(rank, Ref(a)), 1
  {
    var slots := h.objs[a].slots;
    var component := h.objs[a].component;
    ghost var start := h.objs;
    var lo := h.Alloc(ArrayObj(component, seq(|slots|, _ => Null)));
    assert lo !in src;
    assert RankedObject(src, rank, a);
    var i := 0;
    while i < |slots|
      invariant h.Valid() && ArrayLoop(ct, src, rank, start, lo, h.objs, h.next, component, slots, i)
    {
      ghost var before := h.objs;
      ghost var n := h.next;
      assert Below(src, rank, a, slots[i]);
      var e := RecursiveReflectiveDeepCopy(ct, h, slots[i], src, rank);
      ArrayLoopGrow(ct, src, rank, start, lo, before, n, h.objs, h.next, component, slots, i);
      if e.Null? && IsPrimitive(ct, component) {
        ArrayLoopFail(ct, src, rank, h.objs, lo, n, h.next, a, i);
        return Null;
      }
      ArrayLoopStore(ct, src, rank, start, lo, h.objs, n, h.next, component, slots, i, e);
      h.SetSlot(lo, i, e);
      i := i + 1;
    }
    ArrayLoopDone(ct, src, rank, start, lo, h.objs, h.next, a);
    c := Ref(lo);
  }

  /** The collection branch: a new collection from CollectionFactory for the
      canonical class name (a name it does not know raises, and the copy is
      null), then each element copied and added in iteration order. The
      field loop that follows is given a null class and adds nothing. */
  method CopyCollection(ct: ClassTable, h: Heap, a: Addr, ghost src: map<Addr, JObject>, ghost rank: map<Addr, nat>)
    returns (c: Value)
    requires Copyable(ct, src, rank) && h.Valid() && Within(src, h.objs)
    requires a in src && src[a].CollectionObj?
    modifies h
    ensures h.Valid() && old(h.next) <= h.next && Grown(old(h.objs), old(h.next), h.objs)
    ensures CollectionCopied(ct, src, rank, h.objs, old(h.next), h.next, a, c)
    decreases Rk(rank, Ref(a)), 1
  {
    var elems := h.objs[a].elems;
    ghost var start := h.objs;
    var made := CollectionFactory.NewInstanceOf(h, h.objs[a].cls);
    if made.Err? {
      return Null;
    }
    var lo := made.value;
    ghost var cls := CollectionFactory.Lookup(src[a].cls).value.Type();
    assert lo !in src;
    assert RankedObject(src, rank, a);
    var i := 0;
    ghost var cs: seq<Value> := [];
    while i < |elems|
      invariant h.Valid() && CollectionLoop(ct, src, rank, start, lo, h.objs, h.next, cls, elems, cs, i)
    {
      ghost var before := h.objs;
      ghost var n := h.next;
      assert Below(src, rank, a, elems[i]);
      var e := RecursiveReflectiveDeepCopy(ct, h, elems[i], src, rank);
      CollectionLoopGrow(ct, src, rank, start, lo, before, n, h.objs, h.next, cls, elems, cs, i);
      CollectionLoopStore(ct, src, rank, start, lo, h.objs, n, h.next, cls, elems, cs, i, e);
      h.Add(lo, e);
      cs := cs + [e];
      i := i + 1;
    }
    CollectionLoopDone(ct, src, rank, start, lo, h.objs, h.next, a, cs);
    c := Ref(lo);
  }

  /** The plain-object branch: newInstanceOf the object's class (no public
      parameterless constructor raises, and the copy is null), then the loop
      over the fields along the class hierarchy. */
  method CopyInstance(ct: ClassTable, h: Heap, a: Addr, ghost src: map<Addr, JObject>, ghost rank: map<Addr, nat>)
    returns (c: Value)
    requires Copyable(ct, src, rank) && h.Valid() && Within(src, h.objs)
    requires a in src && src[a].Instance?
    modifies h
    ensures h.Valid() && old(h.next) <= h.next && Grown(old(h.objs), old(h.next), h.objs)
    ensures InstanceCopied(ct, src, rank, h.objs, old(h.next), h.next, a, c)
    decreases Rk(rank, Ref(a)), 1
  {
    var cls := h.objs[a].cls;
    ghost var start := h.objs;
    var made := ReflectionUtils.NewInstanceOf(ct, h, cls);
    if made.Err? {
      return Null;
    }
    var lo := made.value;
    assert lo !in src;
    InstanceLoopStart(ct, src, rank, start, lo, a);
    var walk := FieldsAlongHierarchy(ct, cls);
    for i := 0 to |walk|
      invariant h.Valid() && InstanceLoop(ct, src, rank, start, lo, h.objs, h.next, a, i)
    {
      var f := walk[i];
      var x := h.objs[a].fields[f.id];
      if x.Null? || IsFinal(f.modifiers) {
        InstanceLoopSkip(ct, src, rank, start, lo, h.objs, h.next, a, i);
      } else {
        ghost var before := h.objs;
        ghost var n := h.next;
        var d := FieldValue(ct, h, a, f, lo, src, rank);
        InstanceLoopGrow(ct, src, rank, start, lo, before, n, h.objs, h.next, a, i);
        InstanceLoopStore(ct, src, rank, start, lo, h.objs, n, h.next, a, i, d);
        h.SetField(lo, f.id, d);
      }
    }
    InstanceLoopDone(ct, src, rank, start, lo, h.objs, h.next, a);
    c := Ref(lo);
  }

  /** The value the loop stores in field f of the copy (at lo) for a field
      that is neither null nor final: the same reference for a well-known
      immutable field type, the copy itself for a field referring to the
      object, a recursive copy otherwise. */
  method FieldValue(ct: ClassTable, h: Heap, a: Addr, f: FieldDecl, lo: Addr,
                    ghost src: map<Addr, JObject>, ghost rank: map<Addr, nat>)
    returns (d: Value)
    requires Copyable(ct, src, rank) && h.Valid() && Within(src, h.objs)
    requires a in src && src[a].Instance? && f.id in src[a].fields
    requires !(src[a].fields[f.id].Null? || IsFinal(f.modifiers))
    modifies h
    ensures h.Valid() && old(h.next) <= h.next && Grown(old(h.objs), old(h.next), h.objs)
    ensures FieldCopied(ct, src, rank, h.objs, old(h.next), h.next, a, f, Ref(lo), d)
    decreases Rk(rank, Ref(a)), 0
  {
    var x := h.objs[a].fields[f.id];
    if IsWellKnownImmutable(ct, f.fieldType) {
      return x;
    }
    if x == Ref(a) {
      return Ref(lo);
    }
    assert RankedObject(src, rank, a);
    assert Below(src, rank, a, x);
    d := RecursiveReflectiveDeepCopy(ct, h, x, src, rank);
  }

  // ----------------------------------------------------------------- map

  /** CACHE_CAPACITY: the size of the accessor cache. */
  const CACHE_CAPACITY: nat := 100

  /** Every accessor list in the cache is sorted by name and made of methods
      of the class it is cached under. */
  ghost predicate AccessorsCacheSound(ct: ClassTable, es: seq<(ClassName, seq<MethodDecl>)>)
    requires WellFormed(ct)
  {
    forall i | 0 <= i < |es| :: AccessorsOf(ct, es[i].0, es[i].1)
  }

  lemma AccessorsCacheGet(ct: ClassTable, es: seq<(ClassName, seq<MethodDecl>)>, k: ClassName)
    requires WellFormed(ct) && AccessorsCacheSound(ct, es)
    ensures Lookup(es, k).Some? ==> AccessorsOf(ct, k, Lookup(es, k).value)
    ensures AccessorsCacheSound(ct, AfterGet(es, k))
  {
    var P := (k: ClassName, v: seq<MethodDecl>) => AccessorsOf(ct, k, v);
    ReflectionUtils.LookupSound(es, k, P);
    ReflectionUtils.GetSound(es, k, P);
  }

  lemma AccessorsCachePut(ct: ClassTable, es: seq<(ClassName, seq<MethodDecl>)>, capacity: nat,
                          k: ClassName, v: seq<MethodDecl>)
    requires WellFormed(ct) && AccessorsCacheSound(ct, es) && AccessorsOf(ct, k, v)
    ensures AccessorsCacheSound(ct, AfterPut(es, capacity, k, v))
  {
    ReflectionUtils.PutSound(es, capacity, k, v, (k: ClassName, v: seq<MethodDecl>) => AccessorsOf(ct, k, v));
  }

  /** The mapper's static state: the class table, the shared ReflectionUtils
      instance and the LRU cache of accessor lists, keyed by source class. */
  class ModelMapper {
    const ct: ClassTable
    const utils: ReflectionUtils.ReflectionUtils
    const accessors: LruCache<ClassName, seq<MethodDecl>>

    ghost predicate Valid()
      reads this, utils, utils.fieldsCache, utils.methodsCache, accessors
    {
      && utils.Valid() && utils.ct == ct
      && accessors != utils.methodsCache
      && accessors.Valid() && accessors.capacity == CACHE_CAPACITY
      && AccessorsCacheSound(ct, accessors.entries)
    }

    /** The static initialiser: an empty accessor cache of capacity
        CACHE_CAPACITY. */
    constructor (utils: ReflectionUtils.ReflectionUtils)
      requires utils.Valid()
      ensures Valid() && this.utils == utils && ct == utils.ct
      ensures fresh(accessors) && accessors.entries == []
    {
      ct := utils.ct;
      this.utils := utils;
      accessors := new LruCache(CACHE_CAPACITY);
    }

    /** map(sourceObj, dstClazz): null when either is null; otherwise the
        tagged fields of the destination's hierarchy, the accessor list of
        the source class (cached, or found, sorted and cached), a new
        destination object and the field loop. The accessor cache is keyed by
        the source class alone: a hit is used whatever the destination. The
        names asked of getMethodsByNameCriteria on a miss are collectNames of
        the tagged fields. */
    method Map(h: Heap, source: Value, dst: Option<ClassName>, collectNames: seq<FieldDecl> -> seq<string>,
               ghost src: map<Addr, JObject>, ghost rank: map<Addr, nat>)
      returns (r: Result<Value>, ghost used: seq<MethodDecl>)
      requires Valid() && h.Valid() && Copyable(ct, src, rank) && Within(src, h.objs)
      requires source.Null? || source.addr in src
      modifies h, utils.fieldsCache, utils.methodsCache, accessors
      ensures Valid() && h.Valid() && old(h.next) <= h.next && Grown(old(h.objs), old(h.next), h.objs) && Within(src, h.objs)
      ensures source.Null? || dst.None? ==>
                r == Ok(Null) && h.objs == old(h.objs) && h.next == old(h.next) && accessors.entries == old(accessors.entries)
      ensures source.Ref? && dst.Some? ==>
                var cls := ClassOf(src[source.addr]);
                var cached := Lookup(old(accessors.entries), cls);
                var names := collectNames(MappedFields(ct, dst.value));
                var err := if cached.Some? then None else AccessorError(ct, cls, names);
                && MapOutcome(ct, src, rank, h.objs, old(h.next), h.next, source, dst.value, err, used, r)
                && (err.None? ==> AccessorsOf(ct, cls, used))
                && (cached.Some? ==> used == cached.value && accessors.entries == AfterGet(old(accessors.entries), cls))
                && (cached.None? && err.Some? ==> accessors.entries == old(accessors.entries))
                && (cached.None? && err.None? ==>
                      && multiset(used) == multiset(ReflectionUtils.GettersByName(ct, cls, names))
                      && accessors.entries == AfterPut(old(accessors.entries), CACHE_CAPACITY, cls, used))
    {
      if source.Null? || dst.None? {
        return Ok(Null), [];
      }
      var fields := utils.GetDeclaredFieldsAnnotatedWith(dst, MAPPABLE);
      var cls := ClassOf(h.objs[source.addr]);
      var resolved := ResolveAccessors(cls, collectNames(fields));
      if resolved.Err? {
        return Err(resolved.error), [];
      }
      used := resolved.value;
      r := NewMapped(h, source, dst.value, fields, used, src, rank);
    }

    /** mapList(srcList, dstListType): null when either is null; otherwise a
        new ArrayList holding map(elem, dstListType) of each element, in
        order; an exception from map propagates. The source list is given by
        its elements. Element i of the result is made in the address range
        [bounds[i], bounds[i + 1]) with the accessor list useds[i]. */
    method MapList(h: Heap, sources: Option<seq<Value>>, dst: Option<ClassName>, collectNames: seq<FieldDecl> -> seq<string>,
                   ghost src: map<Addr, JObject>, ghost rank: map<Addr, nat>)
      returns (r: Result<Value>, ghost bounds: seq<nat>, ghost useds: seq<seq<MethodDecl>>)
      requires Valid() && h.Valid() && Copyable(ct, src, rank) && Within(src, h.objs)
      requires sources.Some? ==> forall i | 0 <= i < |sources.value| :: sources.value[i].Null? || sources.value[i].addr in src
      modifies h, utils.fieldsCache, utils.methodsCache, accessors
      ensures Valid() && h.Valid() && old(h.next) <= h.next && Grown(old(h.objs), old(h.next), h.objs) && Within(src, h.objs)
      ensures sources.None? || dst.None? ==> r == Ok(Null) && h.objs == old(h.objs) && h.next == old(h.next)
      ensures sources.Some? && dst.Some? && r.Ok? ==>
                var list := old(h.next);
                && r == Ok(Ref(list)) && list in h.objs && h.objs[list].CollectionObj?
                && h.objs[list].cls == CollectionFactory.ARRAY_LIST
                && ListMapped(ct, src, rank, h.objs, sources.value, h.objs[list].elems, bounds, useds, dst.value,
                              ReflectionUtils.FieldIds(FieldsAlongHierarchy(ct, dst.value)), MappedFields(ct, dst.value),
                              |sources.value|)
                && bounds[0] == list + 1
      ensures r.Err? ==> sources.Some? && exists i | 0 <= i < |sources.value| :: sources.value[i].Ref?
    {
      if sources.None? || dst.None? {
        return Ok(Null), [], [];
      }
      var elems := sources.value;
      var list := h.Alloc(CollectionObj(CollectionFactory.ARRAY_LIST, []));
      ghost var slots := ReflectionUtils.FieldIds(FieldsAlongHierarchy(ct, dst.value));
      ghost var fields := MappedFields(ct, dst.value);
      bounds, useds := [h.next], [];
      var i := 0;
      while i < |elems|
        invariant i <= |elems|
        invariant Valid() && h.Valid() && Within(src, h.objs) && Grown(old(h.objs), old(h.next), h.objs)
        invariant list == old(h.next) && list in h.objs && h.objs[list].CollectionObj?
        invariant h.objs[list].cls == CollectionFactory.ARRAY_LIST
        invariant ListMapped(ct, src, rank, h.objs, elems, h.objs[list].elems, bounds, useds, dst.value, slots, fields, i)
        invariant bounds[0] == list + 1 && bounds[i] == h.next
      {
        var e;
        ghost var used;
        e, used := MapElement(h, list, elems, i, dst.value, collectNames, bounds, useds, slots, fields, src, rank);
        if e.Err? {
          return Err(e.error), bounds, useds;
        }
        bounds, useds := bounds + [h.next], useds + [used];
        i := i + 1;
      }
      return Ok(Ref(list)), bounds, useds;
    }

    /** One turn of mapList's loop: map(elem, dstListType) added to the list
        at `list`. Nothing else that existed before changes. */
    method MapElement(h: Heap, list: Addr, elems: seq<Value>, i: nat, dst: ClassName,
                      collectNames: seq<FieldDecl> -> seq<string>,
                      ghost bounds: seq<nat>, ghost useds: seq<seq<MethodDecl>>, ghost slots: set<FieldId>,
                      ghost fields: seq<FieldDecl>, ghost src: map<Addr, JObject>, ghost rank: map<Addr, nat>)
      returns (e: Result<Value>, ghost used: seq<MethodDecl>)
      requires Valid() && h.Valid() && Copyable(ct, src, rank) && Within(src, h.objs) && i < |elems|
      requires elems[i].Null? || elems[i].addr in src
      requires slots == ReflectionUtils.FieldIds(FieldsAlongHierarchy(ct, dst)) && fields == MappedFields(ct, dst)
      requires list in h.objs && h.objs[list].CollectionObj? && list !in src
      requires h.objs[list].cls == CollectionFactory.ARRAY_LIST
      requires ListMapped(ct, src, rank, h.objs, elems, h.objs[list].elems, bounds, useds, dst, slots, fields, i)
      requires list < bounds[0] && bounds[i] == h.next
      modifies h, utils.fieldsCache, utils.methodsCache, accessors
      ensures Valid() && h.Valid() && Within(src, h.objs) && old(h.next) <= h.next
      ensures forall a | a in old(h.objs) && a != list :: a in h.objs && h.objs[a] == old(h.objs)[a]
      ensures forall a | a in h.objs && a !in old(h.objs) :: old(h.next) <= a
      ensures list in h.objs
      ensures e.Err? ==> elems[i].Ref?
      ensures e.Ok? ==>
                && h.objs[list] == CollectionObj(old(h.objs)[list].cls, old(h.objs)[list].elems + [e.value])
                && ListMapped(ct, src, rank, h.objs, elems, h.objs[list].elems, bounds + [h.next], useds + [used],
                              dst, slots, fields, i + 1)
    {
      ghost var before := h.objs;
      e, used := MapItem(h, elems[i], dst, collectNames, src, rank);
      if e.Err? {
        return;
      }
      ListMappedStep(ct, src, rank, before, h.objs, h.next, list, elems, bounds, useds, dst, slots, fields, i, used, e);
      h.Add(list, e.value);
    }

    /** map(elem, dstListType) as mapList's loop calls it: a successful
        result for a non-null element is the new object that Mapped
        describes, made from the first free address on. */
    method MapItem(h: Heap, source: Value, dst: ClassName, collectNames: seq<FieldDecl> -> seq<string>,
                   ghost src: map<Addr, JObject>, ghost rank: map<Addr, nat>)
      returns (r: Result<Value>, ghost used: seq<MethodDecl>)
      requires Valid() && h.Valid() && Copyable(ct, src, rank) && Within(src, h.objs)
      requires source.Null? || source.addr in src
      modifies h, utils.fieldsCache, utils.methodsCache, accessors
      ensures Valid() && h.Valid() && old(h.next) <= h.next && Grown(old(h.objs), old(h.next), h.objs) && Within(src, h.objs)
      ensures r.Err? ==> source.Ref?
      ensures source.Null? ==> r == Ok(Null)
      ensures r.Ok? && source.Ref? ==>
                && r.value == Ref(old(h.next))
                && AccessorsOf(ct, ClassOf(src[source.addr]), used)
                && Mapped(ct, src, rank, h.objs, old(h.next), h.next, source, used, dst,
                          ReflectionUtils.FieldIds(FieldsAlongHierarchy(ct, dst)), MappedFields(ct, dst))
    {
      ghost var cache := accessors.entries;
      r, used := Map(h, source, Some(dst), collectNames, src, rank);
      if r.Ok? && source.Ref? {
        ghost var cls := ClassOf(src[source.addr]);
        MapOutcomeOk(ct, src, rank, h.objs, old(h.next), h.next, source, dst,
                     if Lookup(cache, cls).Some? then None else AccessorError(ct, cls, collectNames(MappedFields(ct, dst))),
                     used, r);
      }
    }

    /** Lines 80-88 of map: newInstanceOf(dstClazz), then the field loop over
        the tagged fields with the accessor list `used`, the most recently
        accessed cache entry. */
    method NewMapped(h: Heap, source: Value, dst: ClassName, fields: seq<FieldDecl>,
                     ghost used: seq<MethodDecl>, ghost src: map<Addr, JObject>, ghost rank: map<Addr, nat>)
      returns (r: Result<Value>)
      requires Valid() && h.Valid() && Copyable(ct, src, rank) && Within(src, h.objs)
      requires source.Ref? && source.addr in src && fields == MappedFields(ct, dst)
      requires accessors.entries != [] && accessors.entries[|accessors.entries| - 1] == (ClassOf(src[source.addr]), used)
      modifies h, accessors
      ensures Valid() && h.Valid() && old(h.next) <= h.next && Grown(old(h.objs), old(h.next), h.objs) && Within(src, h.objs)
      ensures accessors.entries == old(accessors.entries)
      ensures MapOutcome(ct, src, rank, h.objs, old(h.next), h.next, source, dst, None, used, r)
    {
      ghost var start := h.objs;
      var made := ReflectionUtils.NewInstanceOf(ct, h, dst);
      if made.Err? {
        return Err(made.error);
      }
      var lo := made.value;
      ghost var slots := ReflectionUtils.FieldIds(FieldsAlongHierarchy(ct, dst));
      MapLoopStart(ct, src, rank, start, lo, source, used, dst, fields);
      MappedFieldsOfWalk(ct, dst);
      r := MapFields(h, source, dst, fields, lo, used, slots, start, src, rank);
    }

    /** Lines 68-78 of map: the accessor list cached for the source class;
        on a miss, the one FindAccessors builds, put into the cache. */
    method ResolveAccessors(cls: ClassName, names: seq<string>) returns (r: Result<seq<MethodDecl>>)
      requires Valid()
      modifies utils.methodsCache, accessors
      ensures Valid()
      ensures var cached := Lookup(old(accessors.entries), cls);
              && (cached.Some? ==> r == Ok(cached.value) && accessors.entries == AfterGet(old(accessors.entries), cls))
              && (cached.None? && AccessorError(ct, cls, names).Some? ==>
                    r == Err(AccessorError(ct, cls, names).value) && accessors.entries == old(accessors.entries))
              && (cached.None? && AccessorError(ct, cls, names).None? ==>
                    && r.Ok? && multiset(r.value) == multiset(ReflectionUtils.GettersByName(ct, cls, names))
                    && accessors.entries == AfterPut(old(accessors.entries), CACHE_CAPACITY, cls, r.value))
      ensures r.Ok? ==> AccessorsOf(ct, cls, r.value)
      ensures r.Ok? ==> accessors.entries != [] && accessors.entries[|accessors.entries| - 1] == (cls, r.value)
    {
      ghost var es := accessors.entries;
      AccessorsCacheGet(ct, es, cls);
      var cached := accessors.Get(cls);
      if cached.Some? {
        GetLast(es, cls, cached.value);
        return Ok(cached.value);
      }
      r := FindAccessors(cls, names);
      if r.Err? {
        return;
      }
      StoreAccessors(cls, r.value);
    }

    /** Line 77 of map: the accessor list for cls put into the cache, where
        it becomes the most recently accessed entry. */
    method StoreAccessors(cls: ClassName, list: seq<MethodDecl>)
      requires Valid() && AccessorsOf(ct, cls, list)
      modifies accessors
      ensures Valid()
      ensures accessors.entries == AfterPut(old(accessors.entries), CACHE_CAPACITY, cls, list)
      ensures accessors.entries != [] && accessors.entries[|accessors.entries| - 1] == (cls, list)
    {
      AccessorsCachePut(ct, accessors.entries, CACHE_CAPACITY, cls, list);
      PutLast(accessors.entries, CACHE_CAPACITY, cls, list);
      accessors.Put(cls, list);
    }

    /** Lines 72-76 of map: the getters getMethodsByNameCriteria finds for
        the names, sorted by name. */
    method FindAccessors(cls: ClassName, names: seq<string>) returns (r: Result<seq<MethodDecl>>)
      requires utils.Valid() && utils.ct == ct
      modifies utils.methodsCache
      ensures utils.Valid()
      ensures AccessorError(ct, cls, names).Some? ==> r == Err(AccessorError(ct, cls, names).value)
      ensures AccessorError(ct, cls, names).None? ==>
                && r.Ok? && multiset(r.value) == multiset(ReflectionUtils.GettersByName(ct, cls, names))
                && AccessorsOf(ct, cls, r.value)
    {
      var found := utils.GetMethodsByNameCriteria(cls, names);
      if found.Err? {
        return Err(found.error);
      }
      var sorted := SortByName(found.value);
      forall m | m in sorted
        ensures m in MethodsAlongHierarchy(ct, cls)
      {
        assert multiset(sorted)[m] > 0;
        assert m in ReflectionUtils.GettersByName(ct, cls, names);
      }
      return Ok(sorted);
    }

    /** lookupPropertyResolver(name, cls): a get on the accessor cache (a
        miss leaves a null list, whose size() raises NullPointerException)
        and a binary search of the list. */
    method LookupPropertyResolver(name: string, cls: ClassName) returns (r: Result<Option<MethodDecl>>)
      requires Valid()
      modifies accessors
      ensures Valid()
      ensures accessors.entries == AfterGet(old(accessors.entries), cls)
      ensures Lookup(old(accessors.entries), cls).None? ==> r == Err(NullPointer)
      ensures Lookup(old(accessors.entries), cls).Some? ==>
                var list := Lookup(old(accessors.entries), cls).value;
                && r == Ok(BinarySearch(name, Some(list), 0, |list| - 1))
                && (r.value.Some? <==> exists m | m in list :: m.name == name)
    {
      AccessorsCacheGet(ct, accessors.entries, cls);
      var list := accessors.Get(cls);
      if list.None? {
        return Err(NullPointer);
      }
      SearchSortedList(name, list.value);
      return Ok(BinarySearch(name, list, 0, |list.value| - 1));
    }

    /** lookupPropertyResolver while the accessor list for cls is the most
        recently accessed cache entry: it is found, and the cache keeps its
        order. */
    method CachedResolver(name: string, cls: ClassName, ghost used: seq<MethodDecl>) returns (getter: Option<MethodDecl>)
      requires Valid()
      requires accessors.entries != [] && accessors.entries[|accessors.entries| - 1] == (cls, used)
      modifies accessors
      ensures Valid() && accessors.entries == old(accessors.entries)
      ensures getter == BinarySearch(name, Some(used), 0, |used| - 1)
    {
      GetAtLast(accessors.entries, cls);
      var found := LookupPropertyResolver(name, cls);
      return found.value;
    }

    /** The field loop of map (lines 81-87) on the new object at lo; the
        accessor list `used` is the most recently accessed cache entry
        throughout. The first field that cannot be read ends the loop with
        its exception. */
    method MapFields(h: Heap, source: Value, dst: ClassName, fields: seq<FieldDecl>, lo: Addr,
                     ghost used: seq<MethodDecl>, ghost slots: set<FieldId>, ghost start: map<Addr, JObject>,
                     ghost src: map<Addr, JObject>, ghost rank: map<Addr, nat>)
      returns (r: Result<Value>)
      requires Valid() && h.Valid() && Copyable(ct, src, rank)
      requires source.Ref? && source.addr in src && FieldsIn(slots, fields)
      requires accessors.entries != [] && accessors.entries[|accessors.entries| - 1] == (ClassOf(src[source.addr]), used)
      requires MapLoop(ct, src, rank, start, lo, h.objs, h.next, source, used, dst, slots, fields, 0)
      modifies h, accessors
      ensures Valid() && h.Valid() && accessors.entries == old(accessors.entries)
      ensures old(h.next) <= h.next && lo < h.next && Grown(start, lo, h.objs) && Within(src, h.objs)
      ensures match FirstFailure(src, source, used, fields)
              case Some(e) => r == Err(e)
              case None => r == Ok(Ref(lo)) && Mapped(ct, src, rank, h.objs, lo, h.next, source, used, dst, slots, fields)
    {
      for i := 0 to |fields|
        invariant Valid() && h.Valid() && accessors.entries == old(accessors.entries)
        invariant old(h.next) <= h.next
        invariant MapLoop(ct, src, rank, start, lo, h.objs, h.next, source, used, dst, slots, fields, i)
      {
        var e := MapField(h, source, dst, fields, i, lo, used, slots, start, src, rank);
        if e.Some? {
          MapLoopStop(ct, src, rank, start, lo, h.objs, h.next, source, used, dst, slots, fields, i);
          return Err(e.value);
        }
      }
      MapLoopEnd(ct, src, rank, start, lo, h.objs, h.next, source, used, dst, slots, fields);
      return Ok(Ref(lo));
    }

    /** One turn of map's field loop, on field i: the source value read
        through the getter named by the field's tag, its deep copy stored in
        the field. An exception from the read is returned, the heap
        unchanged. */
    method MapField(h: Heap, source: Value, dst: ClassName, fields: seq<FieldDecl>, i: nat, lo: Addr,
                    ghost used: seq<MethodDecl>, ghost slots: set<FieldId>, ghost start: map<Addr, JObject>,
                    ghost src: map<Addr, JObject>, ghost rank: map<Addr, nat>)
      returns (e: Option<Error>)
      requires Valid() && h.Valid() && Copyable(ct, src, rank)
      requires source.Ref? && source.addr in src && FieldsIn(slots, fields) && i < |fields|
      requires accessors.entries != [] && accessors.entries[|accessors.entries| - 1] == (ClassOf(src[source.addr]), used)
      requires MapLoop(ct, src, rank, start, lo, h.objs, h.next, source, used, dst, slots, fields, i)
      modifies h, accessors
      ensures Valid() && h.Valid() && accessors.entries == old(accessors.entries) && old(h.next) <= h.next
      ensures FieldSource(src, source, used, fields[i]).Err? ==>
                e == Some(FieldSource(src, source, used, fields[i]).error) && h.objs == old(h.objs) && h.next == old(h.next)
      ensures FieldSource(src, source, used, fields[i]).Ok? ==>
                e.None? && MapLoop(ct, src, rank, start, lo, h.objs, h.next, source, used, dst, slots, fields, i + 1)
    {
      var value := ReadField(h, source, fields[i], used, src);
      if value.Err? {
        return Some(value.error);
      }
      StoreField(ct, h, value.value, dst, fields, i, lo, source, used, slots, start, src, rank);
      return None;
    }

    /** lookupPropertyResolver and invokeReflective for destination field f:
        the getter named by f's tag, searched for in the accessor list cached
        for the source class, invoked on the source. */
    method ReadField(h: Heap, source: Value, f: FieldDecl, ghost used: seq<MethodDecl>, ghost src: map<Addr, JObject>)
      returns (value: Result<Value>)
      requires Valid() && source.Ref? && source.addr in src && Within(src, h.objs)
      requires accessors.entries != [] && accessors.entries[|accessors.entries| - 1] == (ClassOf(src[source.addr]), used)
      modifies accessors
      ensures Valid() && accessors.entries == old(accessors.entries)
      ensures value == FieldSource(src, source, used, f)
    {
      var name := MappableName(f.annotations);
      if name.None? {
        return Err(NullPointer);
      }
      assert h.objs[source.addr] == src[source.addr];
      var cls := ClassOf(h.objs[source.addr]);
      assert accessors.entries[|accessors.entries| - 1] == (cls, used);
      var getter := CachedResolver(name.value, cls, used);
      value := ReflectionUtils.InvokeReflective(h.objs, source, getter);
      FieldSourceWithin(src, h.objs, source, used, f);
    }
  }

  /** setField(field i, object at lo, deep copy of value) for a value read
      from the source: the copy is made by recursiveReflectiveDeepCopy and
      stored in the new object, which advances map's field loop. */
  method StoreField(ct: ClassTable, h: Heap, value: Value, dst: ClassName, fields: seq<FieldDecl>, i: nat, lo: Addr,
                    source: Value, ghost used: seq<MethodDecl>, ghost slots: set<FieldId>, ghost start: map<Addr, JObject>,
                    ghost src: map<Addr, JObject>, ghost rank: map<Addr, nat>)
    requires h.Valid() && Copyable(ct, src, rank)
    requires source.Ref? && source.addr in src && FieldsIn(slots, fields) && i < |fields|
    requires FieldSource(src, source, used, fields[i]) == Ok(value)
    requires MapLoop(ct, src, rank, start, lo, h.objs, h.next, source, used, dst, slots, fields, i)
    modifies h
    ensures h.Valid() && old(h.next) <= h.next
    ensures MapLoop(ct, src, rank, start, lo, h.objs, h.next, source, used, dst, slots, fields, i + 1)
  {
    var f := fields[i];
    FieldSourceInSnapshot(ct, src, rank, source, used, f);
    ghost var before := h.objs;
    ghost var n := h.next;
    var clone := RecursiveReflectiveDeepCopy(ct, h, value, src, rank);
    MapLoopGrow(ct, src, rank, start, lo, before, n, h.objs, h.next, source, used, dst, slots, fields, i);
    MapLoopStore(ct, src, rank, start, lo, h.objs, n, h.next, source, used, dst, slots, fields, i, clone);
    h.SetField(lo, f.id, clone);
  }
}
