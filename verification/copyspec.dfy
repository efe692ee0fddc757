/** What recursiveReflectiveDeepCopy promises, stated as a relation between a
    source value, read in a snapshot `src` of the objects that existed before
    the copy, and its copy `c` in a heap `objs`, where every object the copy
    made lies in the address range [lo, hi).

    The recursion of the copy terminates only on acyclic object graphs (a
    field holding the object itself is the one cycle it handles), so the
    snapshot comes with a ghost `rank` that strictly decreases along every
    reference the copy follows. */
module CopySpec {
  import opened Jvm
  import opened Hierarchy
  import CollectionFactory
  import ReflectionUtils

  /** The measure of a value: one more than the rank of the object it refers
      to, 0 for null. */
  function Rk(rank: map<Addr, nat>, v: Value): nat
  {
    if v.Ref? && v.addr in rank then rank[v.addr] + 1 else 0
  }

  /** x is null, or a source object ranked below the object at a. */
  ghost predicate Below(src: map<Addr, JObject>, rank: map<Addr, nat>, a: Addr, x: Value)
  {
    x.Null? || (x.addr in src && x.addr in rank && a in rank && rank[x.addr] < rank[a])
  }

  /** Every reference held by the object at a points below it, except a field
      that refers to the object itself. */
  ghost predicate RankedObject(src: map<Addr, JObject>, rank: map<Addr, nat>, a: Addr)
    requires a in src
  {
    match src[a]
    case Instance(_, fields) => forall id | id in fields :: fields[id] == Ref(a) || Below(src, rank, a, fields[id])
    case ArrayObj(_, slots) => forall i | 0 <= i < |slots| :: Below(src, rank, a, slots[i])
    case CollectionObj(_, elems) => forall i | 0 <= i < |elems| :: Below(src, rank, a, elems[i])
  }

  ghost predicate Ranked(src: map<Addr, JObject>, rank: map<Addr, nat>)
  {
    forall a {:trigger RankedObject(src, rank, a)} | a in src :: a in rank && RankedObject(src, rank, a)
  }

  lemma RankedAt(src: map<Addr, JObject>, rank: map<Addr, nat>, a: Addr)
    requires Ranked(src, rank) && a in src
    ensures a in rank && RankedObject(src, rank, a)
  {
  }

  /** Every plain object has exactly one slot per field along its class
      hierarchy, as a Java object of that class does. */
  ghost predicate Conforms(ct: ClassTable, src: map<Addr, JObject>)
    requires WellFormed(ct)
  {
    forall a | a in src && src[a].Instance? ::
      src[a].fields.Keys == ReflectionUtils.FieldIds(FieldsAlongHierarchy(ct, src[a].cls))
  }

  /** The conditions under which the copy of an object of `src` is defined. */
  ghost predicate Copyable(ct: ClassTable, src: map<Addr, JObject>, rank: map<Addr, nat>)
  {
    WellFormed(ct) && Ranked(src, rank) && Conforms(ct, src)
  }

  /** c refers to an object made by the copy. */
  ghost predicate Made(objs: map<Addr, JObject>, lo: nat, hi: nat, c: Value)
  {
    c.Ref? && lo <= c.addr < hi && c.addr in objs
  }

  /** c is a deep copy of v:
      null is copied as null; an object of a well-known immutable class is
      shared; an array, a collection or a plain object is copied by kind. */
  ghost predicate Copied(ct: ClassTable, src: map<Addr, JObject>, rank: map<Addr, nat>,
                         objs: map<Addr, JObject>, lo: nat, hi: nat, v: Value, c: Value)
    requires WellFormed(ct) && Ranked(src, rank)
    decreases Rk(rank, v), 2
  {
    if v.Null? then c == Null
    else if v.addr !in src then false
    else if ObjectIsWellKnownImmutable(ct, src, v) then c == v
    else match src[v.addr]
      case ArrayObj(_, _) => ArrayCopied(ct, src, rank, objs, lo, hi, v.addr, c)
      case CollectionObj(_, _) => CollectionCopied(ct, src, rank, objs, lo, hi, v.addr, c)
      case Instance(_, _) => InstanceCopied(ct, src, rank, objs, lo, hi, v.addr, c)
  }

  /** A new array of the same component type and length whose slot i is a
      deep copy of slot i of the source. Array.set cannot store null into an
      array of a primitive component type: when the copy of a slot of such an
      array is null, the IllegalArgumentException it raises is caught and the
      copy of the whole array is null. */
  ghost predicate ArrayCopied(ct: ClassTable, src: map<Addr, JObject>, rank: map<Addr, nat>,
                              objs: map<Addr, JObject>, lo: nat, hi: nat, a: Addr, c: Value)
    requires WellFormed(ct) && Ranked(src, rank) && a in src && src[a].ArrayObj?
    decreases Rk(rank, Ref(a)), 1
  {
    RankedAt(src, rank, a);
    var slots := src[a].slots;
    var primitive := IsPrimitive(ct, src[a].component);
    if c.Null? then primitive && SlotCopiedToNull(ct, src, rank, objs, lo, hi, a)
    else
      && Made(objs, lo, hi, c) && objs[c.addr].ArrayObj?
      && objs[c.addr].component == src[a].component
      && |objs[c.addr].slots| == |slots|
      && (forall i | 0 <= i < |slots| :: Copied(ct, src, rank, objs, lo, hi, slots[i], objs[c.addr].slots[i]))
      && (primitive ==> forall i | 0 <= i < |slots| :: objs[c.addr].slots[i] != Null)
  }

  /** Some slot of the array at a copies to null. */
  ghost predicate SlotCopiedToNull(ct: ClassTable, src: map<Addr, JObject>, rank: map<Addr, nat>,
                                   objs: map<Addr, JObject>, lo: nat, hi: nat, a: Addr)
    requires WellFormed(ct) && Ranked(src, rank) && a in src && src[a].ArrayObj?
    decreases Rk(rank, Ref(a)), 0
  {
    RankedAt(src, rank, a);
    exists k | 0 <= k < |src[a].slots| :: Copied(ct, src, rank, objs, lo, hi, src[a].slots[k], Null)
  }

  /** When CollectionFactory has no implementation for the collection's
      canonical name, the copy is null; otherwise a new collection of the
      registered implementation into which the copies cs of the elements
      were added in iteration order (a list holds all of them, a HashSet
      each distinct one once). */
  ghost predicate CollectionCopied(ct: ClassTable, src: map<Addr, JObject>, rank: map<Addr, nat>,
                                   objs: map<Addr, JObject>, lo: nat, hi: nat, a: Addr, c: Value)
    requires WellFormed(ct) && Ranked(src, rank) && a in src && src[a].CollectionObj?
    decreases Rk(rank, Ref(a)), 1
  {
    RankedAt(src, rank, a);
    var elems := src[a].elems;
    match CollectionFactory.Lookup(src[a].cls)
    case Err(_) => c == Null
    case Ok(t) =>
      && Made(objs, lo, hi, c) && objs[c.addr].CollectionObj?
      && objs[c.addr].cls == t.Type()
      && exists cs {:trigger Collect(t.Type(), cs)} ::
           && |cs| == |elems|
           && (forall i | 0 <= i < |elems| :: Copied(ct, src, rank, objs, lo, hi, elems[i], cs[i]))
           && objs[c.addr].elems == Collect(t.Type(), cs)
  }

  /** A class without a public parameterless constructor gives null;
      otherwise a new object of the same class whose fields along the
      hierarchy are each copied as FieldCopied says. */
  ghost predicate InstanceCopied(ct: ClassTable, src: map<Addr, JObject>, rank: map<Addr, nat>,
                                 objs: map<Addr, JObject>, lo: nat, hi: nat, a: Addr, c: Value)
    requires WellFormed(ct) && Ranked(src, rank) && a in src && src[a].Instance?
    decreases Rk(rank, Ref(a)), 1
  {
    RankedAt(src, rank, a);
    var cls := src[a].cls;
    var walk := FieldsAlongHierarchy(ct, cls);
    if !ReflectionUtils.HasDefaultConstructor(ct, cls) then c == Null
    else
      && Made(objs, lo, hi, c) && objs[c.addr].Instance?
      && objs[c.addr].cls == cls
      && objs[c.addr].fields.Keys == ReflectionUtils.FieldIds(walk)
      && forall i | 0 <= i < |walk| ::
           walk[i].id in objs[c.addr].fields
           && FieldCopied(ct, src, rank, objs, lo, hi, a, walk[i], c, objs[c.addr].fields[walk[i].id])
  }

  /** The value d the copy c of the object at a holds in field f: a null or
      final field keeps what the parameterless constructor left in it; a
      field whose type is a well-known immutable class shares the value; a
      field referring to the object itself refers to the copy; any other
      value is deep-copied. */
  ghost predicate FieldCopied(ct: ClassTable, src: map<Addr, JObject>, rank: map<Addr, nat>,
                              objs: map<Addr, JObject>, lo: nat, hi: nat,
                              a: Addr, f: FieldDecl, c: Value, d: Value)
    requires WellFormed(ct) && Ranked(src, rank) && a in src && src[a].Instance?
    decreases Rk(rank, Ref(a)), 0
  {
    RankedAt(src, rank, a);
    f.id in src[a].fields &&
    var x := src[a].fields[f.id];
    if x.Null? || IsFinal(f.modifiers) then d == InitialValue(ct, src[a].cls, f.id)
    else if IsWellKnownImmutable(ct, f.fieldType) then d == x
    else if x == Ref(a) then d == c
    else Copied(ct, src, rank, objs, lo, hi, x, d)
  }

  /** Character is not a leaf and has no public parameterless constructor,
      so the copy of a Character object is null. */
  lemma CharacterCopiesToNull(ct: ClassTable, src: map<Addr, JObject>, rank: map<Addr, nat>,
                              objs: map<Addr, JObject>, lo: nat, hi: nat, a: Addr, c: Value)
    requires JdkShaped(ct) && Ranked(src, rank)
    requires a in src && src[a].Instance? && src[a].cls == CHARACTER
    requires Copied(ct, src, rank, objs, lo, hi, Ref(a), c)
    ensures c == Null
  {
    CharacterIsNotALeaf(ct);
  }

  /** Array.get boxes each char of a char[] into a Character, whose copy is
      null, and Array.set cannot store null into a char[]: the copy of a
      non-empty char[] is null. */
  lemma CharArrayCopiesToNull(ct: ClassTable, src: map<Addr, JObject>, rank: map<Addr, nat>,
                              objs: map<Addr, JObject>, lo: nat, hi: nat, a: Addr, c: Value)
    requires JdkShaped(ct) && Ranked(src, rank)
    requires a in src && src[a].ArrayObj? && src[a].component == CHAR && |src[a].slots| > 0
    requires forall i | 0 <= i < |src[a].slots| ::
               src[a].slots[i].Ref? && src[a].slots[i].addr in src
               && src[src[a].slots[i].addr].Instance? && src[src[a].slots[i].addr].cls == CHARACTER
    requires Copied(ct, src, rank, objs, lo, hi, Ref(a), c)
    ensures c == Null
  {
    LeafTestObjects(ct, src, Ref(a));
    assert ArrayCopied(ct, src, rank, objs, lo, hi, a, c);
    if c.Ref? {
      var first := src[a].slots[0];
      CharacterCopiesToNull(ct, src, rank, objs, lo, hi, first.addr, objs[c.addr].slots[0]);
    }
  }

  /** The copy of a collection whose registered implementation is a list
      holds one copy per element, slot by slot in iteration order. */
  lemma CollectionCopiedList(ct: ClassTable, src: map<Addr, JObject>, rank: map<Addr, nat>,
                             objs: map<Addr, JObject>, lo: nat, hi: nat, a: Addr, c: Value)
    requires WellFormed(ct) && Ranked(src, rank) && a in src && src[a].CollectionObj?
    requires CollectionFactory.Lookup(src[a].cls).Ok? && CollectionFactory.Lookup(src[a].cls).value.Type() != HASH_SET
    requires CollectionCopied(ct, src, rank, objs, lo, hi, a, c)
    ensures Made(objs, lo, hi, c) && objs[c.addr].CollectionObj?
    ensures |objs[c.addr].elems| == |src[a].elems|
    ensures forall i | 0 <= i < |src[a].elems| :: Copied(ct, src, rank, objs, lo, hi, src[a].elems[i], objs[c.addr].elems[i])
  {
    var t := CollectionFactory.Lookup(src[a].cls).value.Type();
    var cs :| |cs| == |src[a].elems| && (forall i | 0 <= i < |src[a].elems| :: Copied(ct, src, rank, objs, lo, hi, src[a].elems[i], cs[i]))
              && objs[c.addr].elems == Collect(t, cs);
    CollectList(t, cs);
  }

  /** x is the copy of one of the values vs. */
  ghost predicate CopyOfSome(ct: ClassTable, src: map<Addr, JObject>, rank: map<Addr, nat>,
                             objs: map<Addr, JObject>, lo: nat, hi: nat, vs: seq<Value>, x: Value)
    requires WellFormed(ct) && Ranked(src, rank)
  {
    exists i | 0 <= i < |vs| :: Copied(ct, src, rank, objs, lo, hi, vs[i], x)
  }

  /** Some value among xs is a copy of v. */
  ghost predicate CopyAmong(ct: ClassTable, src: map<Addr, JObject>, rank: map<Addr, nat>,
                            objs: map<Addr, JObject>, lo: nat, hi: nat, v: Value, xs: seq<Value>)
    requires WellFormed(ct) && Ranked(src, rank)
  {
    exists x | x in xs :: Copied(ct, src, rank, objs, lo, hi, v, x)
  }

  /** The copy of a collection whose registered implementation is HashSet
      holds each distinct copy once: every element is the copy of some source
      element, every source element has its copy among the elements, and
      there are no duplicates, so it may be smaller than the source (two
      elements whose copies are both null leave a single null). */
  lemma CollectionCopiedSet(ct: ClassTable, src: map<Addr, JObject>, rank: map<Addr, nat>,
                            objs: map<Addr, JObject>, lo: nat, hi: nat, a: Addr, c: Value)
    requires WellFormed(ct) && Ranked(src, rank) && a in src && src[a].CollectionObj?
    requires CollectionFactory.Lookup(src[a].cls).Ok? && CollectionFactory.Lookup(src[a].cls).value.Type() == HASH_SET
    requires CollectionCopied(ct, src, rank, objs, lo, hi, a, c)
    ensures Made(objs, lo, hi, c) && objs[c.addr].CollectionObj?
    ensures NoDuplicates(objs[c.addr].elems) && |objs[c.addr].elems| <= |src[a].elems|
    ensures forall x | x in objs[c.addr].elems :: CopyOfSome(ct, src, rank, objs, lo, hi, src[a].elems, x)
    ensures forall i | 0 <= i < |src[a].elems| :: CopyAmong(ct, src, rank, objs, lo, hi, src[a].elems[i], objs[c.addr].elems)
  {
    var elems := src[a].elems;
    var t := CollectionFactory.Lookup(src[a].cls).value.Type();
    var cs :| |cs| == |elems| && (forall i | 0 <= i < |elems| :: Copied(ct, src, rank, objs, lo, hi, elems[i], cs[i]))
              && objs[c.addr].elems == Collect(t, cs);
    var r := objs[c.addr].elems;
    CollectSet(cs);
    forall x | x in r
      ensures CopyOfSome(ct, src, rank, objs, lo, hi, elems, x)
    {
      assert x in cs;
      var i :| 0 <= i < |cs| && cs[i] == x;
      assert Copied(ct, src, rank, objs, lo, hi, elems[i], cs[i]);
    }
    forall i | 0 <= i < |elems|
      ensures CopyAmong(ct, src, rank, objs, lo, hi, elems[i], r)
    {
      assert cs[i] in cs;
      assert cs[i] in r;
      assert Copied(ct, src, rank, objs, lo, hi, elems[i], cs[i]);
    }
  }

  // ------------------------------------------------------------------ frame

  /** objs and objs' hold the same objects at the addresses in [lo, hi). */
  ghost predicate Agree(objs: map<Addr, JObject>, objs': map<Addr, JObject>, lo: nat, hi: nat)
  {
    forall x | lo <= x < hi :: (x in objs <==> x in objs') && (x in objs ==> objs[x] == objs'[x])
  }

  /** A copy reads nothing of the heap outside its own range: it stays a copy
      in any heap that agrees on that range, and in any wider range. */
  lemma {:induction false} CopiedFrame(ct: ClassTable, src: map<Addr, JObject>, rank: map<Addr, nat>,
                                       objs: map<Addr, JObject>, objs': map<Addr, JObject>,
                                       lo: nat, hi: nat, lo': nat, hi': nat, v: Value, c: Value)
    requires WellFormed(ct) && Ranked(src, rank)
    requires lo' <= lo && hi <= hi' && Agree(objs, objs', lo, hi)
    requires Copied(ct, src, rank, objs, lo, hi, v, c)
    ensures Copied(ct, src, rank, objs', lo', hi', v, c)
    decreases Rk(rank, v), 2
  {
    if v.Null? || v.addr !in src || ObjectIsWellKnownImmutable(ct, src, v) {
      return;
    }
    var a := v.addr;
    assert RankedObject(src, rank, a);
    match src[a]
    case ArrayObj(_, slots) =>
      if c.Null? {
        assert SlotCopiedToNull(ct, src, rank, objs, lo, hi, a);
        var k :| 0 <= k < |slots| && Copied(ct, src, rank, objs, lo, hi, slots[k], Null);
        assert Below(src, rank, a, slots[k]);
        CopiedFrame(ct, src, rank, objs, objs', lo, hi, lo', hi', slots[k], Null);
      } else {
        var d := objs[c.addr].slots;
        forall i | 0 <= i < |slots|
          ensures Copied(ct, src, rank, objs', lo', hi', slots[i], d[i])
        {
          assert Below(src, rank, a, slots[i]);
          CopiedFrame(ct, src, rank, objs, objs', lo, hi, lo', hi', slots[i], d[i]);
        }
      }
    case CollectionObj(_, _) =>
      CollectionCopiedFrame(ct, src, rank, objs, objs', lo, hi, lo', hi', a, c);
    case Instance(cls, fields) =>
      if ReflectionUtils.HasDefaultConstructor(ct, cls) {
        var walk := FieldsAlongHierarchy(ct, cls);
        assert InstanceCopied(ct, src, rank, objs, lo, hi, a, c);
        var d := objs[c.addr].fields;
        forall i | 0 <= i < |walk|
          ensures FieldCopied(ct, src, rank, objs', lo', hi', a, walk[i], c, d[walk[i].id])
        {
          assert FieldCopied(ct, src, rank, objs, lo, hi, a, walk[i], c, d[walk[i].id]);
          var x := fields[walk[i].id];
          if !(x.Null? || IsFinal(walk[i].modifiers) || IsWellKnownImmutable(ct, walk[i].fieldType) || x == Ref(a)) {
            assert Below(src, rank, a, x);
            CopiedFrame(ct, src, rank, objs, objs', lo, hi, lo', hi', x, d[walk[i].id]);
          }
        }
      }
  }

  /** The collection case of CopiedFrame. */
  lemma {:induction false} CollectionCopiedFrame(ct: ClassTable, src: map<Addr, JObject>, rank: map<Addr, nat>,
                                                 objs: map<Addr, JObject>, objs': map<Addr, JObject>,
                                                 lo: nat, hi: nat, lo': nat, hi': nat, a: Addr, c: Value)
    requires WellFormed(ct) && Ranked(src, rank) && a in src && src[a].CollectionObj?
    requires lo' <= lo && hi <= hi' && Agree(objs, objs', lo, hi)
    requires CollectionCopied(ct, src, rank, objs, lo, hi, a, c)
    ensures CollectionCopied(ct, src, rank, objs', lo', hi', a, c)
    decreases Rk(rank, Ref(a)), 1
  {
    var elems := src[a].elems;
    assert RankedObject(src, rank, a);
    if CollectionFactory.Lookup(src[a].cls).Ok? {
      var t := CollectionFactory.Lookup(src[a].cls).value.Type();
      var d :| |d| == |elems| && (forall i | 0 <= i < |elems| :: Copied(ct, src, rank, objs, lo, hi, elems[i], d[i]))
               && objs[c.addr].elems == Collect(t, d);
      forall i | 0 <= i < |elems|
        ensures Copied(ct, src, rank, objs', lo', hi', elems[i], d[i])
      {
        assert Below(src, rank, a, elems[i]);
        CopiedFrame(ct, src, rank, objs, objs', lo, hi, lo', hi', elems[i], d[i]);
      }
      assert objs'[c.addr].elems == Collect(t, d);
    }
  }

  /** The copies of a run of values, each made in the range [lo, hi). */
  ghost predicate AllCopied(ct: ClassTable, src: map<Addr, JObject>, rank: map<Addr, nat>,
                            objs: map<Addr, JObject>, lo: nat, hi: nat, vs: seq<Value>, cs: seq<Value>)
    requires WellFormed(ct) && Ranked(src, rank)
  {
    |cs| <= |vs| && forall i | 0 <= i < |cs| :: Copied(ct, src, rank, objs, lo, hi, vs[i], cs[i])
  }

  lemma AllCopiedFrame(ct: ClassTable, src: map<Addr, JObject>, rank: map<Addr, nat>,
                       objs: map<Addr, JObject>, objs': map<Addr, JObject>,
                       lo: nat, hi: nat, lo': nat, hi': nat, vs: seq<Value>, cs: seq<Value>)
    requires WellFormed(ct) && Ranked(src, rank)
    requires lo' <= lo && hi <= hi' && Agree(objs, objs', lo, hi)
    requires AllCopied(ct, src, rank, objs, lo, hi, vs, cs)
    ensures AllCopied(ct, src, rank, objs', lo', hi', vs, cs)
  {
    forall i | 0 <= i < |cs|
      ensures Copied(ct, src, rank, objs', lo', hi', vs[i], cs[i])
    {
      CopiedFrame(ct, src, rank, objs, objs', lo, hi, lo', hi', vs[i], cs[i]);
    }
  }

  /** One more copy at the end of a run. */
  lemma AllCopiedSnoc(ct: ClassTable, src: map<Addr, JObject>, rank: map<Addr, nat>,
                      objs: map<Addr, JObject>, lo: nat, hi: nat, vs: seq<Value>, cs: seq<Value>, c: Value)
    requires WellFormed(ct) && Ranked(src, rank)
    requires AllCopied(ct, src, rank, objs, lo, hi, vs, cs) && |cs| < |vs|
    requires Copied(ct, src, rank, objs, lo, hi, vs[|cs|], c)
    ensures AllCopied(ct, src, rank, objs, lo, hi, vs, cs + [c])
  {
  }

  /** A run copied over [lo, hi), extended by a copy made over [m, hi), still
      holds in a heap that agrees on [lo, hi). */
  lemma AllCopiedStore(ct: ClassTable, src: map<Addr, JObject>, rank: map<Addr, nat>,
                       objs: map<Addr, JObject>, objs': map<Addr, JObject>,
                       lo: nat, m: nat, hi: nat, vs: seq<Value>, cs: seq<Value>, c: Value)
    requires WellFormed(ct) && Ranked(src, rank)
    requires lo <= m && Agree(objs, objs', lo, hi)
    requires AllCopied(ct, src, rank, objs, lo, hi, vs, cs) && |cs| < |vs|
    requires Copied(ct, src, rank, objs, m, hi, vs[|cs|], c)
    ensures AllCopied(ct, src, rank, objs', lo, hi, vs, cs + [c])
  {
    AllCopiedFrame(ct, src, rank, objs, objs', lo, hi, lo, hi, vs, cs);
    CopiedFrame(ct, src, rank, objs, objs', m, hi, lo, hi, vs[|cs|], c);
    AllCopiedSnoc(ct, src, rank, objs', lo, hi, vs, cs, c);
  }

  /** The same for the fields of an object: field i, copied over [m, hi), is
      stored into `fields` in a heap that agrees on [lo, hi). */
  lemma FieldsCopiedStore(ct: ClassTable, src: map<Addr, JObject>, rank: map<Addr, nat>,
                          objs: map<Addr, JObject>, objs': map<Addr, JObject>,
                          lo: nat, m: nat, hi: nat, a: Addr, c: Value, fields: map<FieldId, Value>, i: nat, d: Value)
    requires WellFormed(ct) && Ranked(src, rank) && a in src && src[a].Instance?
    requires lo <= m && Agree(objs, objs', lo, hi)
    requires FieldsCopied(ct, src, rank, objs, lo, hi, a, c, fields, i)
    requires i < |FieldsAlongHierarchy(ct, src[a].cls)|
    requires FieldCopied(ct, src, rank, objs, m, hi, a, FieldsAlongHierarchy(ct, src[a].cls)[i], c, d)
    ensures FieldsCopied(ct, src, rank, objs', lo, hi, a, c, fields[FieldsAlongHierarchy(ct, src[a].cls)[i].id := d], i + 1)
  {
    FieldCopiedFrame(ct, src, rank, objs, objs', m, hi, lo, hi, a, FieldsAlongHierarchy(ct, src[a].cls)[i], c, d);
    FieldsCopiedFrame(ct, src, rank, objs, objs', lo, hi, lo, hi, a, c, fields, i);
    FieldsCopiedSet(ct, src, rank, objs', lo, hi, a, c, fields, i, d);
  }

  /** The first i fields of the walk of the object at a hold, in `fields`,
      what FieldCopied prescribes for the copy c. */
  ghost predicate FieldsCopied(ct: ClassTable, src: map<Addr, JObject>, rank: map<Addr, nat>,
                               objs: map<Addr, JObject>, lo: nat, hi: nat, a: Addr, c: Value,
                               fields: map<FieldId, Value>, i: nat)
    requires WellFormed(ct) && Ranked(src, rank) && a in src && src[a].Instance?
  {
    var walk := FieldsAlongHierarchy(ct, src[a].cls);
    i <= |walk|
    && forall j | 0 <= j < i ::
         walk[j].id in fields && FieldCopied(ct, src, rank, objs, lo, hi, a, walk[j], c, fields[walk[j].id])
  }

  lemma FieldsCopiedFrame(ct: ClassTable, src: map<Addr, JObject>, rank: map<Addr, nat>,
                          objs: map<Addr, JObject>, objs': map<Addr, JObject>,
                          lo: nat, hi: nat, lo': nat, hi': nat, a: Addr, c: Value, fields: map<FieldId, Value>, i: nat)
    requires WellFormed(ct) && Ranked(src, rank) && a in src && src[a].Instance?
    requires lo' <= lo && hi <= hi' && Agree(objs, objs', lo, hi)
    requires FieldsCopied(ct, src, rank, objs, lo, hi, a, c, fields, i)
    ensures FieldsCopied(ct, src, rank, objs', lo', hi', a, c, fields, i)
  {
    var walk := FieldsAlongHierarchy(ct, src[a].cls);
    forall j | 0 <= j < i
      ensures FieldCopied(ct, src, rank, objs', lo', hi', a, walk[j], c, fields[walk[j].id])
    {
      FieldCopiedFrame(ct, src, rank, objs, objs', lo, hi, lo', hi', a, walk[j], c, fields[walk[j].id]);
    }
  }

  /** Storing the value of field i, whose id differs from those before it. */
  lemma FieldsCopiedSet(ct: ClassTable, src: map<Addr, JObject>, rank: map<Addr, nat>,
                        objs: map<Addr, JObject>, lo: nat, hi: nat, a: Addr, c: Value,
                        fields: map<FieldId, Value>, i: nat, d: Value)
    requires WellFormed(ct) && Ranked(src, rank) && a in src && src[a].Instance?
    requires FieldsCopied(ct, src, rank, objs, lo, hi, a, c, fields, i)
    requires i < |FieldsAlongHierarchy(ct, src[a].cls)|
    requires FieldCopied(ct, src, rank, objs, lo, hi, a, FieldsAlongHierarchy(ct, src[a].cls)[i], c, d)
    ensures FieldsCopied(ct, src, rank, objs, lo, hi, a, c,
                         fields[FieldsAlongHierarchy(ct, src[a].cls)[i].id := d], i + 1)
  {
    FieldIdsDistinct(ct, src[a].cls);
  }

  /** The field form of CopiedFrame. */
  lemma FieldCopiedFrame(ct: ClassTable, src: map<Addr, JObject>, rank: map<Addr, nat>,
                         objs: map<Addr, JObject>, objs': map<Addr, JObject>,
                         lo: nat, hi: nat, lo': nat, hi': nat, a: Addr, f: FieldDecl, c: Value, d: Value)
    requires WellFormed(ct) && Ranked(src, rank) && a in src && src[a].Instance?
    requires lo' <= lo && hi <= hi' && Agree(objs, objs', lo, hi)
    requires FieldCopied(ct, src, rank, objs, lo, hi, a, f, c, d)
    ensures FieldCopied(ct, src, rank, objs', lo', hi', a, f, c, d)
  {
    var x := src[a].fields[f.id];
    if !(x.Null? || IsFinal(f.modifiers) || IsWellKnownImmutable(ct, f.fieldType) || x == Ref(a)) {
      CopiedFrame(ct, src, rank, objs, objs', lo, hi, lo', hi', x, d);
    }
  }

  // ------------------------------------------------------------ heap growth

  /** The objects of `src` are still in `objs`, unchanged. */
  ghost predicate Within(src: map<Addr, JObject>, objs: map<Addr, JObject>)
  {
    forall a | a in src :: a in objs && objs[a] == src[a]
  }

  /** objs' keeps every object of objs unchanged and adds objects only at
      addresses from `next` on. */
  ghost predicate Grown(objs: map<Addr, JObject>, next: nat, objs': map<Addr, JObject>)
  {
    && (forall a | a in objs :: a in objs' && objs'[a] == objs[a])
    && (forall a | a in objs' && a !in objs :: next <= a)
  }

  /** A nested copy grew the heap from objs (next free address n) to objs';
      the object under construction at lo, allocated before n, and every
      address between them are untouched. */
  lemma GrowFrame(src: map<Addr, JObject>, start: map<Addr, JObject>, lo: nat,
                  objs: map<Addr, JObject>, n: nat, objs': map<Addr, JObject>)
    requires Grown(start, lo, objs) && lo < n && Within(src, objs) && Grown(objs, n, objs')
    ensures Grown(start, lo, objs') && Within(src, objs') && Agree(objs, objs', lo + 1, n)
  {
  }

  /** Storing o into the object under construction at lo changes nothing
      else. */
  lemma StoreFrame(src: map<Addr, JObject>, start: map<Addr, JObject>, lo: nat,
                   objs: map<Addr, JObject>, o: JObject, hi: nat)
    requires Grown(start, lo, objs) && lo in objs && lo !in start && lo !in src && Within(src, objs)
    ensures Grown(start, lo, objs[lo := o]) && Within(src, objs[lo := o]) && Agree(objs, objs[lo := o], lo + 1, hi)
  {
  }

  // ------------------------------------------------------------ loop states

  /** The array loop after i slots: the copy at lo has the component type and
      length of the source, and its first i slots hold copies made above lo,
      none of them null when the component type is primitive; nothing that
      existed before the copy began (`start`) has changed. */
  ghost predicate ArrayLoop(ct: ClassTable, src: map<Addr, JObject>, rank: map<Addr, nat>,
                            start: map<Addr, JObject>, lo: nat, objs: map<Addr, JObject>, next: nat,
                            component: ClassName, slots: seq<Value>, i: nat)
    requires WellFormed(ct) && Ranked(src, rank)
  {
    && i <= |slots| && lo < next && lo !in start && lo !in src
    && Grown(start, lo, objs) && Within(src, objs)
    && lo in objs && objs[lo].ArrayObj? && objs[lo].component == component && |objs[lo].slots| == |slots|
    && AllCopied(ct, src, rank, objs, lo + 1, next, slots, objs[lo].slots[..i])
    && (IsPrimitive(ct, component) ==> forall j | 0 <= j < i :: objs[lo].slots[j] != Null)
  }

  /** A nested copy keeps the array loop's state. */
  lemma ArrayLoopGrow(ct: ClassTable, src: map<Addr, JObject>, rank: map<Addr, nat>,
                      start: map<Addr, JObject>, lo: nat, objs: map<Addr, JObject>, n: nat,
                      objs': map<Addr, JObject>, next: nat, component: ClassName, slots: seq<Value>, i: nat)
    requires WellFormed(ct) && Ranked(src, rank)
    requires ArrayLoop(ct, src, rank, start, lo, objs, n, component, slots, i)
    requires n <= next && Grown(objs, n, objs')
    ensures ArrayLoop(ct, src, rank, start, lo, objs', next, component, slots, i) && objs'[lo] == objs[lo]
  {
    GrowFrame(src, start, lo, objs, n, objs');
    AllCopiedFrame(ct, src, rank, objs, objs', lo + 1, n, lo + 1, next, slots, objs[lo].slots[..i]);
  }

  /** Storing the copy of slot i keeps the array loop's state. */
  lemma ArrayLoopStore(ct: ClassTable, src: map<Addr, JObject>, rank: map<Addr, nat>,
                       start: map<Addr, JObject>, lo: nat, objs: map<Addr, JObject>, m: nat, next: nat,
                       component: ClassName, slots: seq<Value>, i: nat, e: Value)
    requires WellFormed(ct) && Ranked(src, rank)
    requires ArrayLoop(ct, src, rank, start, lo, objs, next, component, slots, i) && i < |slots|
    requires lo < m && Copied(ct, src, rank, objs, m, next, slots[i], e)
    requires IsPrimitive(ct, component) ==> e != Null
    ensures ArrayLoop(ct, src, rank, start, lo, objs[lo := ArrayObj(objs[lo].component, objs[lo].slots[i := e])],
                      next, component, slots, i + 1)
  {
    var after := objs[lo := ArrayObj(objs[lo].component, objs[lo].slots[i := e])];
    StoreFrame(src, start, lo, objs, after[lo], next);
    AllCopiedStore(ct, src, rank, objs, after, lo + 1, m, next, slots, objs[lo].slots[..i], e);
    assert after[lo].slots[..i + 1] == objs[lo].slots[..i] + [e];
  }

  /** Storing a null copy into an array of a primitive component type raises,
      and the copy of the whole array is null. */
  lemma ArrayLoopFail(ct: ClassTable, src: map<Addr, JObject>, rank: map<Addr, nat>,
                      objs: map<Addr, JObject>, lo: nat, m: nat, next: nat, a: Addr, i: nat)
    requires WellFormed(ct) && Ranked(src, rank) && a in src && src[a].ArrayObj?
    requires IsPrimitive(ct, src[a].component) && i < |src[a].slots|
    requires lo <= m && Copied(ct, src, rank, objs, m, next, src[a].slots[i], Null)
    ensures ArrayCopied(ct, src, rank, objs, lo, next, a, Null)
  {
    CopiedFrame(ct, src, rank, objs, objs, m, next, lo, next, src[a].slots[i], Null);
  }

  lemma ArrayLoopDone(ct: ClassTable, src: map<Addr, JObject>, rank: map<Addr, nat>,
                      start: map<Addr, JObject>, lo: nat, objs: map<Addr, JObject>, next: nat, a: Addr)
    requires WellFormed(ct) && Ranked(src, rank) && a in src && src[a].ArrayObj?
    requires ArrayLoop(ct, src, rank, start, lo, objs, next, src[a].component, src[a].slots, |src[a].slots|)
    ensures ArrayCopied(ct, src, rank, objs, lo, next, a, Ref(lo))
  {
    assert objs[lo].slots[..|src[a].slots|] == objs[lo].slots;
    AllCopiedFrame(ct, src, rank, objs, objs, lo + 1, next, lo, next, src[a].slots, objs[lo].slots);
  }

  /** The collection loop after i elements: cs are the copies of the first
      i elements, made above lo, and the new collection at lo holds what
      adding them in turn leaves in it. */
  ghost predicate CollectionLoop(ct: ClassTable, src: map<Addr, JObject>, rank: map<Addr, nat>,
                                 start: map<Addr, JObject>, lo: nat, objs: map<Addr, JObject>, next: nat,
                                 cls: ClassName, elems: seq<Value>, cs: seq<Value>, i: nat)
    requires WellFormed(ct) && Ranked(src, rank)
  {
    && i <= |elems| && |cs| == i
    && CollectionShape(src, start, lo, objs, next, cls, cs)
    && AllCopied(ct, src, rank, objs, lo + 1, next, elems, cs)
  }

  /** The part of CollectionLoop that does not depend on what was copied. */
  ghost predicate CollectionShape(src: map<Addr, JObject>, start: map<Addr, JObject>, lo: nat,
                                  objs: map<Addr, JObject>, next: nat, cls: ClassName, cs: seq<Value>)
  {
    && lo < next && lo !in start && lo !in src
    && Grown(start, lo, objs) && Within(src, objs)
    && lo in objs && objs[lo].CollectionObj? && objs[lo].cls == cls && objs[lo].elems == Collect(cls, cs)
  }

  lemma CollectionShapeGrow(src: map<Addr, JObject>, start: map<Addr, JObject>, lo: nat,
                            objs: map<Addr, JObject>, n: nat, objs': map<Addr, JObject>, next: nat,
                            cls: ClassName, cs: seq<Value>)
    requires CollectionShape(src, start, lo, objs, n, cls, cs)
    requires n <= next && Grown(objs, n, objs')
    ensures CollectionShape(src, start, lo, objs', next, cls, cs) && objs'[lo] == objs[lo]
    ensures Agree(objs, objs', lo + 1, n)
  {
    GrowFrame(src, start, lo, objs, n, objs');
  }

  lemma CollectionLoopGrow(ct: ClassTable, src: map<Addr, JObject>, rank: map<Addr, nat>,
                           start: map<Addr, JObject>, lo: nat, objs: map<Addr, JObject>, n: nat,
                           objs': map<Addr, JObject>, next: nat, cls: ClassName, elems: seq<Value>,
                           cs: seq<Value>, i: nat)
    requires WellFormed(ct) && Ranked(src, rank)
    requires CollectionLoop(ct, src, rank, start, lo, objs, n, cls, elems, cs, i)
    requires n <= next && Grown(objs, n, objs')
    ensures CollectionLoop(ct, src, rank, start, lo, objs', next, cls, elems, cs, i) && objs'[lo] == objs[lo]
  {
    CollectionShapeGrow(src, start, lo, objs, n, objs', next, cls, cs);
    AllCopiedFrame(ct, src, rank, objs, objs', lo + 1, n, lo + 1, next, elems, cs);
  }

  lemma CollectionLoopStore(ct: ClassTable, src: map<Addr, JObject>, rank: map<Addr, nat>,
                            start: map<Addr, JObject>, lo: nat, objs: map<Addr, JObject>, m: nat, next: nat,
                            cls: ClassName, elems: seq<Value>, cs: seq<Value>, i: nat, e: Value)
    requires WellFormed(ct) && Ranked(src, rank)
    requires CollectionLoop(ct, src, rank, start, lo, objs, next, cls, elems, cs, i) && i < |elems|
    requires lo < m && Copied(ct, src, rank, objs, m, next, elems[i], e)
    ensures CollectionLoop(ct, src, rank, start, lo,
                           objs[lo := CollectionObj(objs[lo].cls, Added(objs[lo].cls, objs[lo].elems, e))],
                           next, cls, elems, cs + [e], i + 1)
  {
    var after := objs[lo := CollectionObj(objs[lo].cls, Added(objs[lo].cls, objs[lo].elems, e))];
    StoreFrame(src, start, lo, objs, after[lo], next);
    AllCopiedStore(ct, src, rank, objs, after, lo + 1, m, next, elems, cs, e);
    assert (cs + [e])[..|cs|] == cs;
  }

  lemma CollectionLoopDone(ct: ClassTable, src: map<Addr, JObject>, rank: map<Addr, nat>,
                           start: map<Addr, JObject>, lo: nat, objs: map<Addr, JObject>, next: nat, a: Addr,
                           cs: seq<Value>)
    requires WellFormed(ct) && Ranked(src, rank) && a in src && src[a].CollectionObj?
    requires CollectionFactory.Lookup(src[a].cls).Ok?
    requires CollectionLoop(ct, src, rank, start, lo, objs, next, CollectionFactory.Lookup(src[a].cls).value.Type(),
                            src[a].elems, cs, |src[a].elems|)
    ensures CollectionCopied(ct, src, rank, objs, lo, next, a, Ref(lo))
  {
    AllCopiedFrame(ct, src, rank, objs, objs, lo + 1, next, lo, next, src[a].elems, cs);
  }

  /** The field loop of an object copy after i fields of the walk: the copy at
      lo has the object's class and one entry per field of the walk; the first
      i entries hold what FieldCopied prescribes and the others still hold
      what the constructor left in them. */
  ghost predicate InstanceLoop(ct: ClassTable, src: map<Addr, JObject>, rank: map<Addr, nat>,
                               start: map<Addr, JObject>, lo: nat, objs: map<Addr, JObject>, next: nat,
                               a: Addr, i: nat)
    requires WellFormed(ct) && Ranked(src, rank) && a in src && src[a].Instance?
  {
    && InstanceShape(ct, src, start, lo, objs, next, a, i)
    && FieldsCopied(ct, src, rank, objs, lo + 1, next, a, Ref(lo), objs[lo].fields, i)
  }

  /** The part of InstanceLoop that does not depend on what was copied: the
      copy has the object's class, one entry per field of the walk, and the
      entries from i on still hold their initial values. */
  ghost predicate InstanceShape(ct: ClassTable, src: map<Addr, JObject>, start: map<Addr, JObject>,
                                lo: nat, objs: map<Addr, JObject>, next: nat, a: Addr, i: nat)
    requires WellFormed(ct) && a in src && src[a].Instance?
  {
    var walk := FieldsAlongHierarchy(ct, src[a].cls);
    && i <= |walk| && lo < next && lo !in start && lo !in src
    && Grown(start, lo, objs) && Within(src, objs)
    && lo in objs && objs[lo].Instance? && objs[lo].cls == src[a].cls
    && objs[lo].fields.Keys == ReflectionUtils.FieldIds(walk)
    && (forall j | i <= j < |walk| :: walk[j].id in objs[lo].fields
          && objs[lo].fields[walk[j].id] == InitialValue(ct, src[a].cls, walk[j].id))
  }

  lemma InstanceShapeGrow(ct: ClassTable, src: map<Addr, JObject>, start: map<Addr, JObject>, lo: nat,
                          objs: map<Addr, JObject>, n: nat, objs': map<Addr, JObject>, next: nat, a: Addr, i: nat)
    requires WellFormed(ct) && a in src && src[a].Instance?
    requires InstanceShape(ct, src, start, lo, objs, n, a, i)
    requires n <= next && Grown(objs, n, objs')
    ensures InstanceShape(ct, src, start, lo, objs', next, a, i) && objs'[lo] == objs[lo]
    ensures Agree(objs, objs', lo + 1, n)
  {
    GrowFrame(src, start, lo, objs, n, objs');
  }

  lemma InstanceShapeStore(ct: ClassTable, src: map<Addr, JObject>, start: map<Addr, JObject>, lo: nat,
                           objs: map<Addr, JObject>, next: nat, a: Addr, i: nat, d: Value)
    requires WellFormed(ct) && a in src && src[a].Instance?
    requires InstanceShape(ct, src, start, lo, objs, next, a, i)
    requires i < |FieldsAlongHierarchy(ct, src[a].cls)|
    ensures var f := FieldsAlongHierarchy(ct, src[a].cls)[i];
            var after := objs[lo := Instance(objs[lo].cls, objs[lo].fields[f.id := d])];
            InstanceShape(ct, src, start, lo, after, next, a, i + 1) && Agree(objs, after, lo + 1, next)
  {
    var f := FieldsAlongHierarchy(ct, src[a].cls)[i];
    FieldIdsDistinct(ct, src[a].cls);
    StoreFrame(src, start, lo, objs, Instance(objs[lo].cls, objs[lo].fields[f.id := d]), next);
  }

  /** The default instance just allocated at lo starts the field loop. */
  lemma InstanceLoopStart(ct: ClassTable, src: map<Addr, JObject>, rank: map<Addr, nat>,
                          start: map<Addr, JObject>, lo: nat, a: Addr)
    requires WellFormed(ct) && Ranked(src, rank) && a in src && src[a].Instance?
    requires lo !in start && lo !in src && Within(src, start)
    ensures InstanceLoop(ct, src, rank, start, lo, start[lo := ReflectionUtils.DefaultInstance(ct, src[a].cls)], lo + 1, a, 0)
  {
    var walk := FieldsAlongHierarchy(ct, src[a].cls);
    var objs := start[lo := ReflectionUtils.DefaultInstance(ct, src[a].cls)];
    forall j | 0 <= j < |walk|
      ensures walk[j].id in objs[lo].fields && objs[lo].fields[walk[j].id] == InitialValue(ct, src[a].cls, walk[j].id)
    {
      assert walk[j] in walk;
    }
  }

  /** A field that is null or final in the source keeps its initial value in
      the copy. */
  lemma InstanceLoopSkip(ct: ClassTable, src: map<Addr, JObject>, rank: map<Addr, nat>,
                         start: map<Addr, JObject>, lo: nat, objs: map<Addr, JObject>, next: nat, a: Addr, i: nat)
    requires WellFormed(ct) && Ranked(src, rank) && a in src && src[a].Instance?
    requires InstanceLoop(ct, src, rank, start, lo, objs, next, a, i)
    requires i < |FieldsAlongHierarchy(ct, src[a].cls)|
    requires var f := FieldsAlongHierarchy(ct, src[a].cls)[i];
             f.id in src[a].fields && (src[a].fields[f.id].Null? || IsFinal(f.modifiers))
    ensures InstanceLoop(ct, src, rank, start, lo, objs, next, a, i + 1)
  {
    RankedAt(src, rank, a);
    var f := FieldsAlongHierarchy(ct, src[a].cls)[i];
    var d := InitialValue(ct, src[a].cls, f.id);
    FieldsCopiedSet(ct, src, rank, objs, lo + 1, next, a, Ref(lo), objs[lo].fields, i, d);
    assert objs[lo].fields[f.id := d] == objs[lo].fields;
  }

  /** A nested copy keeps the field loop's state. */
  lemma InstanceLoopGrow(ct: ClassTable, src: map<Addr, JObject>, rank: map<Addr, nat>,
                         start: map<Addr, JObject>, lo: nat, objs: map<Addr, JObject>, n: nat,
                         objs': map<Addr, JObject>, next: nat, a: Addr, i: nat)
    requires WellFormed(ct) && Ranked(src, rank) && a in src && src[a].Instance?
    requires InstanceLoop(ct, src, rank, start, lo, objs, n, a, i)
    requires n <= next && Grown(objs, n, objs')
    ensures InstanceLoop(ct, src, rank, start, lo, objs', next, a, i) && objs'[lo] == objs[lo]
  {
    InstanceShapeGrow(ct, src, start, lo, objs, n, objs', next, a, i);
    FieldsCopiedFrame(ct, src, rank, objs, objs', lo + 1, n, lo + 1, next, a, Ref(lo), objs[lo].fields, i);
  }

  /** Storing the value FieldCopied prescribes for field i keeps the field
      loop's state. */
  lemma InstanceLoopStore(ct: ClassTable, src: map<Addr, JObject>, rank: map<Addr, nat>,
                          start: map<Addr, JObject>, lo: nat, objs: map<Addr, JObject>, m: nat, next: nat,
                          a: Addr, i: nat, d: Value)
    requires WellFormed(ct) && Ranked(src, rank) && a in src && src[a].Instance?
    requires InstanceLoop(ct, src, rank, start, lo, objs, next, a, i)
    requires i < |FieldsAlongHierarchy(ct, src[a].cls)|
    requires lo < m && FieldCopied(ct, src, rank, objs, m, next, a, FieldsAlongHierarchy(ct, src[a].cls)[i], Ref(lo), d)
    ensures var f := FieldsAlongHierarchy(ct, src[a].cls)[i];
            InstanceLoop(ct, src, rank, start, lo, objs[lo := Instance(objs[lo].cls, objs[lo].fields[f.id := d])],
                         next, a, i + 1)
  {
    var f := FieldsAlongHierarchy(ct, src[a].cls)[i];
    var after := objs[lo := Instance(objs[lo].cls, objs[lo].fields[f.id := d])];
    InstanceShapeStore(ct, src, start, lo, objs, next, a, i, d);
    FieldsCopiedStore(ct, src, rank, objs, after, lo + 1, m, next, a, Ref(lo), objs[lo].fields, i, d);
  }

  lemma InstanceLoopDone(ct: ClassTable, src: map<Addr, JObject>, rank: map<Addr, nat>,
                         start: map<Addr, JObject>, lo: nat, objs: map<Addr, JObject>, next: nat, a: Addr)
    requires WellFormed(ct) && Ranked(src, rank) && a in src && src[a].Instance?
    requires ReflectionUtils.HasDefaultConstructor(ct, src[a].cls)
    requires InstanceLoop(ct, src, rank, start, lo, objs, next, a, |FieldsAlongHierarchy(ct, src[a].cls)|)
    ensures InstanceCopied(ct, src, rank, objs, lo, next, a, Ref(lo))
  {
    var walk := FieldsAlongHierarchy(ct, src[a].cls);
    FieldsCopiedFrame(ct, src, rank, objs, objs, lo + 1, next, lo, next, a, Ref(lo), objs[lo].fields, |walk|);
  }
}
