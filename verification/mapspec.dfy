/** What ModelMapper.map promises. The destination fields it visits are the
    @Mappable fields along the destination class's hierarchy; the value it
    stores in each is the deep copy of what the source getter named by the
    field's tag returns, the getter being found by binary search in the
    name-sorted accessor list cached for the source class. */
module MapSpec {
  import opened Jvm
  import opened Hierarchy
  import opened Search
  import opened Criteria
  import opened CopySpec
  import ReflectionUtils

  // ------------------------------------------------------------ accessors

  /** field.getAnnotation(Mappable.class).methodName(): the method name of
      the field's @Mappable tag, or None when it has none (the call on the
      missing tag raises NullPointerException). */
  function MappableName(anns: seq<Annotation>): (r: Option<string>)
    ensures r.Some? <==> exists a | a in anns :: a.Mappable?
    ensures r.Some? ==> Mappable(r.value) in anns
  {
    if anns == [] then None
    else if anns[0].Mappable? then Some(anns[0].methodName)
    else
      assert forall a | a in anns :: a == anns[0] || a in anns[1..];
      MappableName(anns[1..])
  }

  /** The destination fields map visits, in walk order. */
  function MappedFields(ct: ClassTable, dst: ClassName): seq<FieldDecl>
    requires WellFormed(ct)
  {
    MeetFields([MAPPABLE], FieldsAlongHierarchy(ct, dst))
  }

  /** The exception getMethodsByNameCriteria raises for the names, if any. */
  function AccessorError(ct: ClassTable, cls: ClassName, names: seq<string>): Option<Error>
    requires WellFormed(ct)
  {
    if names == [] then Some(StringIndexOutOfBounds)
    else if |ReflectionUtils.GettersByName(ct, cls, names)| != |names| then Some(MethodsNotFound)
    else None
  }

  /** What every accessor list the mapper caches is: sorted by name, and made
      of methods of the class it is cached under. */
  ghost predicate AccessorsOf(ct: ClassTable, cls: ClassName, used: seq<MethodDecl>)
    requires WellFormed(ct)
  {
    SortedByName(used) && forall m | m in used :: m in MethodsAlongHierarchy(ct, cls)
  }

  /** The value map reads for destination field f: the getter named by the
      field's tag, searched for in the accessor list, invoked on the source.
      A field without the tag, or a name the search does not find, raises
      NullPointerException. */
  function FieldSource(objs: map<Addr, JObject>, receiver: Value, accessors: seq<MethodDecl>, f: FieldDecl): (r: Result<Value>)
    ensures MappableName(f.annotations).None? ==> r == Err(NullPointer)
    ensures r.Ok? ==> exists m | m in accessors :: m.name == MappableName(f.annotations).value && r == Invoke(objs, receiver, m)
  {
    match MappableName(f.annotations)
    case None => Err(NullPointer)
    case Some(name) =>
      var found := BinarySearch(name, Some(accessors), 0, |accessors| - 1);
      BinarySearchSound(name, accessors, 0, |accessors| - 1);
      assert found.Some? ==> found.value in accessors;
      ReflectionUtils.InvokeReflective(objs, receiver, found)
  }

  /** On a name-sorted accessor list a tagged field reads the source through
      a getter of the tag's name whenever the list has one, and raises
      NullPointerException exactly when it has none. */
  lemma FieldSourceSorted(objs: map<Addr, JObject>, receiver: Value, accessors: seq<MethodDecl>, f: FieldDecl)
    requires SortedByName(accessors) && MappableName(f.annotations).Some?
    ensures var name := MappableName(f.annotations).value;
            (exists m | m in accessors :: m.name == name) ==>
              exists m | m in accessors :: m.name == name && FieldSource(objs, receiver, accessors, f) == Invoke(objs, receiver, m)
    ensures var name := MappableName(f.annotations).value;
            (forall m | m in accessors :: m.name != name) ==> FieldSource(objs, receiver, accessors, f) == Err(NullPointer)
  {
    var name := MappableName(f.annotations).value;
    var found := BinarySearch(name, Some(accessors), 0, |accessors| - 1);
    SearchSortedList(name, accessors);
    BinarySearchSound(name, accessors, 0, |accessors| - 1);
    if found.Some? {
      assert found.value in accessors;
    }
  }

  /** Reading through a getter does not depend on objects other than the
      receiver. */
  lemma FieldSourceWithin(src: map<Addr, JObject>, objs: map<Addr, JObject>, receiver: Value,
                          accessors: seq<MethodDecl>, f: FieldDecl)
    requires Within(src, objs) && receiver.Ref? && receiver.addr in src
    ensures FieldSource(objs, receiver, accessors, f) == FieldSource(src, receiver, accessors, f)
  {
  }

  /** A value read from a source object is null or an object of the
      snapshot, so it can be deep-copied. */
  lemma FieldSourceInSnapshot(ct: ClassTable, src: map<Addr, JObject>, rank: map<Addr, nat>,
                              receiver: Value, accessors: seq<MethodDecl>, f: FieldDecl)
    requires Ranked(src, rank) && receiver.Ref? && receiver.addr in src
    requires FieldSource(src, receiver, accessors, f).Ok?
    ensures var v := FieldSource(src, receiver, accessors, f).value;
            v.Null? || v.addr in src
  {
    RankedAt(src, rank, receiver.addr);
    var m :| m in accessors && FieldSource(src, receiver, accessors, f) == Invoke(src, receiver, m);
    assert Invoke(src, receiver, m).Ok?;
    var v := src[receiver.addr].fields[m.accessed];
    assert v == Ref(receiver.addr) || Below(src, rank, receiver.addr, v);
  }

  /** The exception of the first field, in loop order, whose value cannot be
      read; None when every field can be read. */
  function FirstFailure(objs: map<Addr, JObject>, receiver: Value, accessors: seq<MethodDecl>, fields: seq<FieldDecl>): (r: Option<Error>)
    ensures r.None? <==> forall k | 0 <= k < |fields| :: FieldSource(objs, receiver, accessors, fields[k]).Ok?
  {
    if fields == [] then None
    else match FieldSource(objs, receiver, accessors, fields[0])
      case Err(e) => Some(e)
      case Ok(_) =>
        var rest := FirstFailure(objs, receiver, accessors, fields[1..]);
        assert forall k | 1 <= k < |fields| :: fields[k] == fields[1..][k - 1];
        rest
  }

  /** Field k fails and every field before it is read: its exception is the
      first one. */
  lemma {:induction false} FirstFailureAt(objs: map<Addr, JObject>, receiver: Value, accessors: seq<MethodDecl>,
                                          fields: seq<FieldDecl>, k: nat)
    requires k < |fields| && FieldSource(objs, receiver, accessors, fields[k]).Err?
    requires forall j | 0 <= j < k :: FieldSource(objs, receiver, accessors, fields[j]).Ok?
    ensures FirstFailure(objs, receiver, accessors, fields) == Some(FieldSource(objs, receiver, accessors, fields[k]).error)
  {
    if k > 0 {
      assert FieldSource(objs, receiver, accessors, fields[0]).Ok?;
      assert fields[1..][k - 1] == fields[k];
      forall j | 0 <= j < k - 1
        ensures FieldSource(objs, receiver, accessors, fields[1..][j]).Ok?
      {
        assert fields[1..][j] == fields[j + 1];
      }
      FirstFailureAt(objs, receiver, accessors, fields[1..], k - 1);
    }
  }

  // ---------------------------------------------------- destination fields

  lemma {:induction false} FilterKeepsDistinctIds(xs: seq<FieldDecl>, keep: FieldDecl -> bool)
    requires forall i, j | 0 <= i < j < |xs| :: xs[i].id != xs[j].id
    ensures forall i, j | 0 <= i < j < |Filter(xs, keep)| :: Filter(xs, keep)[i].id != Filter(xs, keep)[j].id
  {
    if xs != [] {
      assert forall i, j | 0 <= i < j < |xs[1..]| :: xs[1..][i] == xs[i + 1] && xs[1..][j] == xs[j + 1];
      FilterKeepsDistinctIds(xs[1..], keep);
      if keep(xs[0]) {
        var r := Filter(xs, keep);
        var rest := Filter(xs[1..], keep);
        forall i, j | 0 <= i < j < |r|
          ensures r[i].id != r[j].id
        {
          assert r[j] == rest[j - 1];
          if i == 0 {
            assert r[j] in xs[1..];
            var p :| 0 <= p < |xs[1..]| && xs[1..][p] == r[j];
            assert xs[p + 1] == r[j];
          } else {
            assert r[i] == rest[i - 1];
          }
        }
      }
    }
  }

  /** The tagged fields are fields of the destination's walk, no two with the
      same id, so map writes each destination slot at most once. */
  lemma MappedFieldsOfWalk(ct: ClassTable, dst: ClassName)
    requires WellFormed(ct)
    ensures FieldsIn(ReflectionUtils.FieldIds(FieldsAlongHierarchy(ct, dst)), MappedFields(ct, dst))
  {
    var walk := FieldsAlongHierarchy(ct, dst);
    var fields := MappedFields(ct, dst);
    FieldIdsDistinct(ct, dst);
    FilterKeepsDistinctIds(walk, f => Tagged(f, [MAPPABLE]));
    forall j | 0 <= j < |fields|
      ensures fields[j].id in ReflectionUtils.FieldIds(walk)
    {
      assert fields[j] in walk;
      var p :| 0 <= p < |walk| && walk[p] == fields[j];
    }
  }

  /** The first k fields of `fields` hold, in `values`, deep copies (made in
      [lo, hi)) of what the source getters named by their tags return. */
  ghost predicate FieldsMapped(ct: ClassTable, src: map<Addr, JObject>, rank: map<Addr, nat>,
                               objs: map<Addr, JObject>, lo: nat, hi: nat, receiver: Value,
                               accessors: seq<MethodDecl>, fields: seq<FieldDecl>, values: map<FieldId, Value>, k: nat)
    requires WellFormed(ct) && Ranked(src, rank)
  {
    k <= |fields|
    && forall j {:trigger FieldMapped(ct, src, rank, objs, lo, hi, receiver, accessors, fields[j], values)} | 0 <= j < k ::
         FieldMapped(ct, src, rank, objs, lo, hi, receiver, accessors, fields[j], values)
  }

  /** Field f holds, in `values`, a deep copy (made in [lo, hi)) of what the
      source getter named by its tag returns. */
  ghost predicate FieldMapped(ct: ClassTable, src: map<Addr, JObject>, rank: map<Addr, nat>,
                              objs: map<Addr, JObject>, lo: nat, hi: nat, receiver: Value,
                              accessors: seq<MethodDecl>, f: FieldDecl, values: map<FieldId, Value>)
    requires WellFormed(ct) && Ranked(src, rank)
  {
    && f.id in values
    && FieldSource(src, receiver, accessors, f).Ok?
    && Copied(ct, src, rank, objs, lo, hi, FieldSource(src, receiver, accessors, f).value, values[f.id])
  }

  /** The object at lo is the result of map: a new object of the destination
      class with one slot per field of its hierarchy, each of the visited
      fields holding the deep copy of its source value, every other field
      what the parameterless constructor left in it. */
  ghost predicate Mapped(ct: ClassTable, src: map<Addr, JObject>, rank: map<Addr, nat>,
                         objs: map<Addr, JObject>, lo: nat, hi: nat, receiver: Value,
                         accessors: seq<MethodDecl>, dst: ClassName, slots: set<FieldId>, fields: seq<FieldDecl>)
    requires WellFormed(ct) && Ranked(src, rank)
  {
    && lo in objs && objs[lo].Instance? && objs[lo].cls == dst
    && objs[lo].fields.Keys == slots
    && FieldsMapped(ct, src, rank, objs, lo + 1, hi, receiver, accessors, fields, objs[lo].fields, |fields|)
    && (forall id | id in objs[lo].fields && id !in ReflectionUtils.FieldIds(fields) ::
          objs[lo].fields[id] == InitialValue(ct, dst, id))
  }

  /** The outcome of map(source, dst) once the accessor list `used` is known
      and the accessor step raised `accessorError` or nothing: that error;
      else no public parameterless constructor; else the exception of the
      first field that cannot be read; else a new object at lo as Mapped
      describes. */
  ghost predicate MapOutcome(ct: ClassTable, src: map<Addr, JObject>, rank: map<Addr, nat>,
                             objs: map<Addr, JObject>, lo: nat, hi: nat, receiver: Value, dst: ClassName,
                             accessorError: Option<Error>, used: seq<MethodDecl>, r: Result<Value>)
    requires WellFormed(ct) && Ranked(src, rank)
  {
    if accessorError.Some? then r == Err(accessorError.value)
    else if !ReflectionUtils.HasDefaultConstructor(ct, dst) then r == Err(NoDefaultConstructor(dst))
    else match FirstFailure(src, receiver, used, MappedFields(ct, dst))
      case Some(e) => r == Err(e)
      case None => r == Ok(Ref(lo)) && Mapped(ct, src, rank, objs, lo, hi, receiver, used, dst,
                                                      ReflectionUtils.FieldIds(FieldsAlongHierarchy(ct, dst)), MappedFields(ct, dst))
  }

  // ------------------------------------------------------------ loop state

  /** The fields are among the slots, no two with the same id. */
  ghost predicate FieldsIn(slots: set<FieldId>, fields: seq<FieldDecl>)
  {
    && (forall j | 0 <= j < |fields| :: fields[j].id in slots)
    && (forall i, j | 0 <= i < j < |fields| :: fields[i].id != fields[j].id)
  }

  /** The part of the field loop's state that does not depend on the copies:
      the object under construction at lo keeps its class and slots, and the
      slots of the fields not yet visited still hold their initial values. */
  ghost predicate MapShape(ct: ClassTable, src: map<Addr, JObject>, start: map<Addr, JObject>, lo: nat,
                           objs: map<Addr, JObject>, next: nat, dst: ClassName, slots: set<FieldId>,
                           fields: seq<FieldDecl>, k: nat)
  {
    && k <= |fields| && lo < next && lo !in start && lo !in src
    && Grown(start, lo, objs) && Within(src, objs)
    && lo in objs && objs[lo].Instance? && objs[lo].cls == dst
    && objs[lo].fields.Keys == slots
    && (forall id | id in objs[lo].fields && id !in ReflectionUtils.FieldIds(fields[..k]) ::
          objs[lo].fields[id] == InitialValue(ct, dst, id))
  }

  /** The field loop of map after k of the fields. */
  ghost predicate MapLoop(ct: ClassTable, src: map<Addr, JObject>, rank: map<Addr, nat>,
                          start: map<Addr, JObject>, lo: nat, objs: map<Addr, JObject>, next: nat,
                          receiver: Value, accessors: seq<MethodDecl>, dst: ClassName, slots: set<FieldId>,
                          fields: seq<FieldDecl>, k: nat)
    requires WellFormed(ct) && Ranked(src, rank)
  {
    && MapShape(ct, src, start, lo, objs, next, dst, slots, fields, k)
    && FieldsMapped(ct, src, rank, objs, lo + 1, next, receiver, accessors, fields, objs[lo].fields, k)
  }

  lemma FieldsMappedFrame(ct: ClassTable, src: map<Addr, JObject>, rank: map<Addr, nat>,
                          objs: map<Addr, JObject>, objs': map<Addr, JObject>, lo: nat, hi: nat, lo': nat, hi': nat,
                          receiver: Value, accessors: seq<MethodDecl>, fields: seq<FieldDecl>, values: map<FieldId, Value>, k: nat)
    requires WellFormed(ct) && Ranked(src, rank)
    requires lo' <= lo && hi <= hi' && Agree(objs, objs', lo, hi)
    requires FieldsMapped(ct, src, rank, objs, lo, hi, receiver, accessors, fields, values, k)
    ensures FieldsMapped(ct, src, rank, objs', lo', hi', receiver, accessors, fields, values, k)
  {
    forall j | 0 <= j < k
      ensures FieldMapped(ct, src, rank, objs', lo', hi', receiver, accessors, fields[j], values)
    {
      assert FieldMapped(ct, src, rank, objs, lo, hi, receiver, accessors, fields[j], values);
      CopiedFrame(ct, src, rank, objs, objs', lo, hi, lo', hi',
                  FieldSource(src, receiver, accessors, fields[j]).value, values[fields[j].id]);
    }
  }

  /** A new default instance of dst at lo starts the field loop, its slots
      being the fields of dst's hierarchy. */
  lemma MapLoopStart(ct: ClassTable, src: map<Addr, JObject>, rank: map<Addr, nat>,
                     start: map<Addr, JObject>, lo: nat, receiver: Value, accessors: seq<MethodDecl>,
                     dst: ClassName, fields: seq<FieldDecl>)
    requires WellFormed(ct) && Ranked(src, rank)
    requires lo !in start && lo !in src && Within(src, start)
    ensures MapLoop(ct, src, rank, start, lo, start[lo := ReflectionUtils.DefaultInstance(ct, dst)], lo + 1,
                    receiver, accessors, dst, ReflectionUtils.FieldIds(FieldsAlongHierarchy(ct, dst)), fields, 0)
  {
    assert fields[..0] == [];
  }

  /** A nested deep copy keeps the field loop's state. */
  lemma MapLoopGrow(ct: ClassTable, src: map<Addr, JObject>, rank: map<Addr, nat>,
                    start: map<Addr, JObject>, lo: nat, objs: map<Addr, JObject>, n: nat,
                    objs': map<Addr, JObject>, next: nat, receiver: Value, accessors: seq<MethodDecl>,
                    dst: ClassName, slots: set<FieldId>, fields: seq<FieldDecl>, k: nat)
    requires WellFormed(ct) && Ranked(src, rank)
    requires MapLoop(ct, src, rank, start, lo, objs, n, receiver, accessors, dst, slots, fields, k)
    requires n <= next && Grown(objs, n, objs')
    ensures MapLoop(ct, src, rank, start, lo, objs', next, receiver, accessors, dst, slots, fields, k) && objs'[lo] == objs[lo]
  {
    MapShapeGrow(ct, src, start, lo, objs, n, objs', next, dst, slots, fields, k);
    FieldsMappedFrame(ct, src, rank, objs, objs', lo + 1, n, lo + 1, next, receiver, accessors, fields, objs[lo].fields, k);
  }

  lemma MapShapeGrow(ct: ClassTable, src: map<Addr, JObject>, start: map<Addr, JObject>, lo: nat,
                     objs: map<Addr, JObject>, n: nat, objs': map<Addr, JObject>, next: nat,
                     dst: ClassName, slots: set<FieldId>, fields: seq<FieldDecl>, k: nat)
    requires MapShape(ct, src, start, lo, objs, n, dst, slots, fields, k)
    requires n <= next && Grown(objs, n, objs')
    ensures MapShape(ct, src, start, lo, objs', next, dst, slots, fields, k) && objs'[lo] == objs[lo]
    ensures Agree(objs, objs', lo + 1, n)
  {
    GrowFrame(src, start, lo, objs, n, objs');
  }

  lemma FieldIdsSnoc(fields: seq<FieldDecl>, k: nat)
    requires k < |fields|
    ensures ReflectionUtils.FieldIds(fields[..k + 1]) == ReflectionUtils.FieldIds(fields[..k]) + {fields[k].id}
  {
    var f := fields[k];
    forall id | id in ReflectionUtils.FieldIds(fields[..k + 1])
      ensures id in ReflectionUtils.FieldIds(fields[..k]) + {f.id}
    {
      var p :| 0 <= p < k + 1 && fields[..k + 1][p].id == id;
      if p < k { assert fields[..k][p].id == id; }
    }
    forall id | id in ReflectionUtils.FieldIds(fields[..k])
      ensures id in ReflectionUtils.FieldIds(fields[..k + 1])
    {
      var p :| 0 <= p < k && fields[..k][p].id == id;
      assert fields[..k + 1][p].id == id;
    }
    assert fields[..k + 1][k].id == f.id;
  }

  lemma MapShapeStore(ct: ClassTable, src: map<Addr, JObject>, start: map<Addr, JObject>, lo: nat,
                      objs: map<Addr, JObject>, next: nat, dst: ClassName, slots: set<FieldId>,
                      fields: seq<FieldDecl>, k: nat, d: Value)
    requires FieldsIn(slots, fields)
    requires MapShape(ct, src, start, lo, objs, next, dst, slots, fields, k) && k < |fields|
    ensures var f := fields[k];
            var after := objs[lo := Instance(objs[lo].cls, objs[lo].fields[f.id := d])];
            MapShape(ct, src, start, lo, after, next, dst, slots, fields, k + 1) && Agree(objs, after, lo + 1, next)
  {
    var f := fields[k];
    StoreFrame(src, start, lo, objs, Instance(objs[lo].cls, objs[lo].fields[f.id := d]), next);
    FieldIdsSnoc(fields, k);
  }

  lemma FieldsMappedSet(ct: ClassTable, src: map<Addr, JObject>, rank: map<Addr, nat>,
                        objs: map<Addr, JObject>, lo: nat, hi: nat, receiver: Value,
                        accessors: seq<MethodDecl>, slots: set<FieldId>, fields: seq<FieldDecl>,
                        values: map<FieldId, Value>, k: nat, d: Value)
    requires WellFormed(ct) && Ranked(src, rank) && FieldsIn(slots, fields) && k < |fields|
    requires FieldsMapped(ct, src, rank, objs, lo, hi, receiver, accessors, fields, values, k)
    requires FieldSource(src, receiver, accessors, fields[k]).Ok?
    requires Copied(ct, src, rank, objs, lo, hi, FieldSource(src, receiver, accessors, fields[k]).value, d)
    ensures FieldsMapped(ct, src, rank, objs, lo, hi, receiver, accessors, fields, values[fields[k].id := d], k + 1)
  {
    var values' := values[fields[k].id := d];
    forall j | 0 <= j < k + 1
      ensures FieldMapped(ct, src, rank, objs, lo, hi, receiver, accessors, fields[j], values')
    {
      if j < k {
        assert FieldMapped(ct, src, rank, objs, lo, hi, receiver, accessors, fields[j], values);
        assert fields[j].id != fields[k].id;
        FieldMappedUpdate(ct, src, rank, objs, lo, hi, receiver, accessors, fields[j], values, fields[k].id, d);
      } else {
        FieldMappedStore(ct, src, rank, objs, lo, hi, receiver, accessors, fields[k], values, d);
      }
    }
  }

  /** Storing the deep copy d of f's source value maps f. */
  lemma FieldMappedStore(ct: ClassTable, src: map<Addr, JObject>, rank: map<Addr, nat>,
                         objs: map<Addr, JObject>, lo: nat, hi: nat, receiver: Value,
                         accessors: seq<MethodDecl>, f: FieldDecl, values: map<FieldId, Value>, d: Value)
    requires WellFormed(ct) && Ranked(src, rank) && FieldSource(src, receiver, accessors, f).Ok?
    requires Copied(ct, src, rank, objs, lo, hi, FieldSource(src, receiver, accessors, f).value, d)
    ensures FieldMapped(ct, src, rank, objs, lo, hi, receiver, accessors, f, values[f.id := d])
  {
    assert values[f.id := d][f.id] == d;
  }

  /** Storing into another slot keeps field f mapped. */
  lemma FieldMappedUpdate(ct: ClassTable, src: map<Addr, JObject>, rank: map<Addr, nat>,
                          objs: map<Addr, JObject>, lo: nat, hi: nat, receiver: Value,
                          accessors: seq<MethodDecl>, f: FieldDecl, values: map<FieldId, Value>, id: FieldId, d: Value)
    requires WellFormed(ct) && Ranked(src, rank) && f.id != id
    requires FieldMapped(ct, src, rank, objs, lo, hi, receiver, accessors, f, values)
    ensures FieldMapped(ct, src, rank, objs, lo, hi, receiver, accessors, f, values[id := d])
  {
    assert values[id := d][f.id] == values[f.id];
  }

  /** Every field mapped so far was read without an exception. */
  lemma FieldsMappedRead(ct: ClassTable, src: map<Addr, JObject>, rank: map<Addr, nat>,
                         objs: map<Addr, JObject>, lo: nat, hi: nat, receiver: Value,
                         accessors: seq<MethodDecl>, fields: seq<FieldDecl>, values: map<FieldId, Value>, k: nat)
    requires WellFormed(ct) && Ranked(src, rank)
    requires FieldsMapped(ct, src, rank, objs, lo, hi, receiver, accessors, fields, values, k)
    ensures forall j | 0 <= j < k :: FieldSource(src, receiver, accessors, fields[j]).Ok?
  {
    forall j | 0 <= j < k
      ensures FieldSource(src, receiver, accessors, fields[j]).Ok?
    {
      assert FieldMapped(ct, src, rank, objs, lo, hi, receiver, accessors, fields[j], values);
    }
  }

  /** Storing the deep copy d of field k's source value keeps the field
      loop's state. */
  lemma MapLoopStore(ct: ClassTable, src: map<Addr, JObject>, rank: map<Addr, nat>,
                     start: map<Addr, JObject>, lo: nat, objs: map<Addr, JObject>, m: nat, next: nat,
                     receiver: Value, accessors: seq<MethodDecl>, dst: ClassName, slots: set<FieldId>,
                     fields: seq<FieldDecl>, k: nat, d: Value)
    requires WellFormed(ct) && Ranked(src, rank) && FieldsIn(slots, fields)
    requires MapLoop(ct, src, rank, start, lo, objs, next, receiver, accessors, dst, slots, fields, k) && k < |fields|
    requires FieldSource(src, receiver, accessors, fields[k]).Ok?
    requires lo < m && Copied(ct, src, rank, objs, m, next, FieldSource(src, receiver, accessors, fields[k]).value, d)
    ensures MapLoop(ct, src, rank, start, lo, objs[lo := Instance(objs[lo].cls, objs[lo].fields[fields[k].id := d])],
                    next, receiver, accessors, dst, slots, fields, k + 1)
  {
    var f := fields[k];
    var after := objs[lo := Instance(objs[lo].cls, objs[lo].fields[f.id := d])];
    MapShapeStore(ct, src, start, lo, objs, next, dst, slots, fields, k, d);
    FieldsMappedFrame(ct, src, rank, objs, after, lo + 1, next, lo + 1, next, receiver, accessors, fields, objs[lo].fields, k);
    CopiedFrame(ct, src, rank, objs, after, m, next, lo + 1, next, FieldSource(src, receiver, accessors, f).value, d);
    FieldsMappedSet(ct, src, rank, after, lo + 1, next, receiver, accessors, slots, fields, objs[lo].fields, k, d);
  }

  lemma MapLoopDone(ct: ClassTable, src: map<Addr, JObject>, rank: map<Addr, nat>,
                    start: map<Addr, JObject>, lo: nat, objs: map<Addr, JObject>, next: nat,
                    receiver: Value, accessors: seq<MethodDecl>, dst: ClassName, slots: set<FieldId>, fields: seq<FieldDecl>)
    requires WellFormed(ct) && Ranked(src, rank)
    requires MapLoop(ct, src, rank, start, lo, objs, next, receiver, accessors, dst, slots, fields, |fields|)
    ensures Mapped(ct, src, rank, objs, lo, next, receiver, accessors, dst, slots, fields)
  {
    assert fields[..|fields|] == fields;
  }

  /** The field loop stopped at field k, whose read failed: that failure is
      the first one, and the new object is in place. */
  lemma MapLoopStop(ct: ClassTable, src: map<Addr, JObject>, rank: map<Addr, nat>,
                    start: map<Addr, JObject>, lo: nat, objs: map<Addr, JObject>, next: nat,
                    receiver: Value, accessors: seq<MethodDecl>, dst: ClassName, slots: set<FieldId>,
                    fields: seq<FieldDecl>, k: nat)
    requires WellFormed(ct) && Ranked(src, rank)
    requires MapLoop(ct, src, rank, start, lo, objs, next, receiver, accessors, dst, slots, fields, k)
    requires k < |fields| && FieldSource(src, receiver, accessors, fields[k]).Err?
    ensures FirstFailure(src, receiver, accessors, fields) == Some(FieldSource(src, receiver, accessors, fields[k]).error)
    ensures lo < next && Grown(start, lo, objs) && Within(src, objs)
  {
    FieldsMappedRead(ct, src, rank, objs, lo + 1, next, receiver, accessors, fields, objs[lo].fields, k);
    FirstFailureAt(src, receiver, accessors, fields, k);
  }

  /** The field loop went through every field: no read failed and the new
      object is mapped. */
  lemma MapLoopEnd(ct: ClassTable, src: map<Addr, JObject>, rank: map<Addr, nat>,
                   start: map<Addr, JObject>, lo: nat, objs: map<Addr, JObject>, next: nat,
                   receiver: Value, accessors: seq<MethodDecl>, dst: ClassName, slots: set<FieldId>, fields: seq<FieldDecl>)
    requires WellFormed(ct) && Ranked(src, rank)
    requires MapLoop(ct, src, rank, start, lo, objs, next, receiver, accessors, dst, slots, fields, |fields|)
    ensures FirstFailure(src, receiver, accessors, fields) == None
    ensures Mapped(ct, src, rank, objs, lo, next, receiver, accessors, dst, slots, fields)
    ensures lo < next && Grown(start, lo, objs) && Within(src, objs)
  {
    FieldsMappedRead(ct, src, rank, objs, lo + 1, next, receiver, accessors, fields, objs[lo].fields, |fields|);
    MapLoopDone(ct, src, rank, start, lo, objs, next, receiver, accessors, dst, slots, fields);
  }

  /** A mapped object stays mapped in any heap that agrees on its range. */
  lemma MappedFrame(ct: ClassTable, src: map<Addr, JObject>, rank: map<Addr, nat>,
                    objs: map<Addr, JObject>, objs': map<Addr, JObject>, lo: nat, hi: nat, hi': nat,
                    receiver: Value, accessors: seq<MethodDecl>, dst: ClassName, slots: set<FieldId>, fields: seq<FieldDecl>)
    requires WellFormed(ct) && Ranked(src, rank)
    requires hi <= hi' && Agree(objs, objs', lo, hi) && lo < hi
    requires Mapped(ct, src, rank, objs, lo, hi, receiver, accessors, dst, slots, fields)
    ensures Mapped(ct, src, rank, objs', lo, hi', receiver, accessors, dst, slots, fields)
  {
    assert objs'[lo] == objs[lo];
    FieldsMappedFrame(ct, src, rank, objs, objs', lo + 1, hi, lo + 1, hi', receiver, accessors, fields, objs[lo].fields, |fields|);
  }

  /** A successful map of a non-null source is a new object at lo, mapped as
      Mapped says; the accessor step, the constructor and every field read
      have succeeded. */
  lemma MapOutcomeOk(ct: ClassTable, src: map<Addr, JObject>, rank: map<Addr, nat>,
                     objs: map<Addr, JObject>, lo: nat, hi: nat, receiver: Value, dst: ClassName,
                     accessorError: Option<Error>, used: seq<MethodDecl>, r: Result<Value>)
    requires WellFormed(ct) && Ranked(src, rank)
    requires MapOutcome(ct, src, rank, objs, lo, hi, receiver, dst, accessorError, used, r) && r.Ok?
    ensures accessorError.None? && ReflectionUtils.HasDefaultConstructor(ct, dst)
    ensures FirstFailure(src, receiver, used, MappedFields(ct, dst)).None?
    ensures r == Ok(Ref(lo))
    ensures Mapped(ct, src, rank, objs, lo, hi, receiver, used, dst,
                   ReflectionUtils.FieldIds(FieldsAlongHierarchy(ct, dst)), MappedFields(ct, dst))
  {
  }

  // ----------------------------------------------------------- mapList

  /** The first k elements of mapList's result: a null source element gives
      null, any other the object Mapped describes, made in the k-th range
      [bounds[k], bounds[k + 1]) with the accessor list useds[k]. */
  ghost predicate ListMapped(ct: ClassTable, src: map<Addr, JObject>, rank: map<Addr, nat>,
                             objs: map<Addr, JObject>, sources: seq<Value>, elems: seq<Value>,
                             bounds: seq<nat>, useds: seq<seq<MethodDecl>>, dst: ClassName,
                             slots: set<FieldId>, fields: seq<FieldDecl>, k: nat)
    requires WellFormed(ct) && Ranked(src, rank)
  {
    && k <= |sources| && |elems| == k && |bounds| == k + 1 && |useds| == k
    && (forall i, j | 0 <= i <= j <= k :: bounds[i] <= bounds[j])
    && forall i {:trigger ElementMapped(ct, src, rank, objs, sources, elems, bounds, useds, dst, slots, fields, i)} | 0 <= i < k ::
         ElementMapped(ct, src, rank, objs, sources, elems, bounds, useds, dst, slots, fields, i)
  }

  /** Element i of the list: null for a null source, otherwise a reference
      to the object mapped from it in [bounds[i], bounds[i + 1]), with a
      name-sorted list of accessors of the source element's own class. */
  ghost predicate ElementMapped(ct: ClassTable, src: map<Addr, JObject>, rank: map<Addr, nat>,
                                objs: map<Addr, JObject>, sources: seq<Value>, elems: seq<Value>,
                                bounds: seq<nat>, useds: seq<seq<MethodDecl>>, dst: ClassName,
                                slots: set<FieldId>, fields: seq<FieldDecl>, i: nat)
    requires WellFormed(ct) && Ranked(src, rank)
    requires i < |sources| && i < |elems| && i + 1 < |bounds| && i < |useds|
  {
    if sources[i].Null? then elems[i] == Null
    else && elems[i] == Ref(bounds[i]) && bounds[i] < bounds[i + 1]
         && sources[i].addr in src && AccessorsOf(ct, ClassOf(src[sources[i].addr]), useds[i])
         && Mapped(ct, src, rank, objs, bounds[i], bounds[i + 1], sources[i], useds[i], dst, slots, fields)
  }

  /** The elements mapped so far stay mapped in a heap that agrees on their
      ranges. */
  lemma ListMappedFrame(ct: ClassTable, src: map<Addr, JObject>, rank: map<Addr, nat>,
                        objs: map<Addr, JObject>, objs': map<Addr, JObject>, sources: seq<Value>, elems: seq<Value>,
                        bounds: seq<nat>, useds: seq<seq<MethodDecl>>, dst: ClassName,
                        slots: set<FieldId>, fields: seq<FieldDecl>, k: nat)
    requires WellFormed(ct) && Ranked(src, rank)
    requires ListMapped(ct, src, rank, objs, sources, elems, bounds, useds, dst, slots, fields, k)
    requires Agree(objs, objs', bounds[0], bounds[k])
    ensures ListMapped(ct, src, rank, objs', sources, elems, bounds, useds, dst, slots, fields, k)
  {
    forall i | 0 <= i < k
      ensures ElementMapped(ct, src, rank, objs', sources, elems, bounds, useds, dst, slots, fields, i)
    {
      assert ElementMapped(ct, src, rank, objs, sources, elems, bounds, useds, dst, slots, fields, i);
      if sources[i].Ref? {
        assert bounds[0] <= bounds[i] && bounds[i + 1] <= bounds[k];
        MappedFrame(ct, src, rank, objs, objs', bounds[i], bounds[i + 1], bounds[i + 1],
                    sources[i], useds[i], dst, slots, fields);
      }
    }
  }

  /** Mapping element k (heap grown from objs, whose addresses are all below
      bounds[k], to objs', the result e made in [bounds[k], hi)) extends
      the list. */
  lemma ListMappedSnoc(ct: ClassTable, src: map<Addr, JObject>, rank: map<Addr, nat>,
                       objs: map<Addr, JObject>, objs': map<Addr, JObject>, sources: seq<Value>, elems: seq<Value>,
                       bounds: seq<nat>, useds: seq<seq<MethodDecl>>, dst: ClassName,
                       slots: set<FieldId>, fields: seq<FieldDecl>, k: nat, e: Value, hi: nat, used: seq<MethodDecl>)
    requires WellFormed(ct) && Ranked(src, rank)
    requires ListMapped(ct, src, rank, objs, sources, elems, bounds, useds, dst, slots, fields, k) && k < |sources|
    requires (forall a | a in objs :: a < bounds[k]) && bounds[k] <= hi && Grown(objs, bounds[k], objs')
    requires if sources[k].Null? then e == Null
             else && e == Ref(bounds[k]) && bounds[k] < hi
                  && sources[k].addr in src && AccessorsOf(ct, ClassOf(src[sources[k].addr]), used)
                  && Mapped(ct, src, rank, objs', bounds[k], hi, sources[k], used, dst, slots, fields)
    ensures ListMapped(ct, src, rank, objs', sources, elems + [e], bounds + [hi], useds + [used], dst, slots, fields, k + 1)
  {
    ListMappedFrame(ct, src, rank, objs, objs', sources, elems, bounds, useds, dst, slots, fields, k);
    var elems', bounds', useds' := elems + [e], bounds + [hi], useds + [used];
    assert forall i | 0 <= i <= k :: bounds'[i] == bounds[i];
    assert forall i | 0 <= i < k :: elems'[i] == elems[i] && useds'[i] == useds[i];
    forall i, j | 0 <= i <= j <= k + 1
      ensures bounds'[i] <= bounds'[j]
    {
      if j == k + 1 && i <= k { assert bounds[i] <= bounds[k]; }
    }
    forall i | 0 <= i < k + 1
      ensures ElementMapped(ct, src, rank, objs', sources, elems', bounds', useds', dst, slots, fields, i)
    {
      if i == k {
        assert elems'[i] == e && bounds'[i] == bounds[k] && bounds'[i + 1] == hi && useds'[i] == used;
      } else {
        assert ElementMapped(ct, src, rank, objs', sources, elems, bounds, useds, dst, slots, fields, i);
        assert bounds'[i + 1] == bounds[i + 1];
      }
    }
  }

  /** One turn of mapList: map's result r for element i, made while the heap
      grew from `before` to `mid`, appended to the list at `list`, extends
      the list by one mapped element. */
  lemma ListMappedStep(ct: ClassTable, src: map<Addr, JObject>, rank: map<Addr, nat>,
                       before: map<Addr, JObject>, mid: map<Addr, JObject>, hi: nat, list: Addr,
                       sources: seq<Value>, bounds: seq<nat>, useds: seq<seq<MethodDecl>>, dst: ClassName,
                       slots: set<FieldId>, fields: seq<FieldDecl>, i: nat, used: seq<MethodDecl>, r: Result<Value>)
    requires WellFormed(ct) && Ranked(src, rank) && i < |sources|
    requires slots == ReflectionUtils.FieldIds(FieldsAlongHierarchy(ct, dst)) && fields == MappedFields(ct, dst)
    requires list in before && before[list].CollectionObj?
    requires ListMapped(ct, src, rank, before, sources, before[list].elems, bounds, useds, dst, slots, fields, i)
    requires list < bounds[0]
    requires (forall a | a in before :: a < bounds[i]) && (forall a | a in mid :: a < hi)
    requires bounds[i] <= hi && Grown(before, bounds[i], mid)
    requires r.Ok? && (sources[i].Null? ==> r == Ok(Null))
    requires sources[i].Ref? ==>
               && r.value == Ref(bounds[i]) && sources[i].addr in src && AccessorsOf(ct, ClassOf(src[sources[i].addr]), used)
               && Mapped(ct, src, rank, mid, bounds[i], hi, sources[i], used, dst, slots, fields)
    ensures var after := mid[list := CollectionObj(before[list].cls, before[list].elems + [r.value])];
            ListMapped(ct, src, rank, after, sources, after[list].elems, bounds + [hi], useds + [used], dst, slots, fields, i + 1)
  {
    ListMappedSnoc(ct, src, rank, before, mid, sources, before[list].elems, bounds, useds, dst,
                   slots, fields, i, r.value, hi, used);
    var after := mid[list := CollectionObj(before[list].cls, before[list].elems + [r.value])];
    ListMappedFrame(ct, src, rank, mid, after, sources, before[list].elems + [r.value], bounds + [hi], useds + [used],
                    dst, slots, fields, i + 1);
  }
}
