/** What the superclass-chain walks of ReflectionUtils collect, and the
    "well-known immutable class" test that decides which values the deep copy
    shares instead of copying. */
module Hierarchy {
  import opened Jvm

  /** The class the walk moves to after c: its superclass, unless there is
      none or it is java.lang.Object, where the walk stops. */
  function NextInWalk(ct: ClassTable, c: ClassName): (r: Option<ClassName>)
    requires WellFormed(ct)
    ensures r.Some? ==> r.value != OBJECT && r.value in ct && Level(ct, r.value) < Level(ct, c)
  {
    match Superclass(ct, c)
    case Some(s) => if s == OBJECT then None else Some(s)
    case None => None
  }

  /** The classes the do/while walk visits starting at c: c itself (even when
      c is Object), then each superclass up to but excluding Object. */
  function Chain(ct: ClassTable, c: ClassName): (r: seq<ClassName>)
    requires WellFormed(ct)
    ensures |r| > 0 && r[0] == c
    ensures forall i :: 0 < i < |r| ==> r[i] != OBJECT && r[i] in ct && Level(ct, r[i]) < Level(ct, c)
    decreases Level(ct, c)
  {
    match NextInWalk(ct, c)
    case Some(s) => [c] + Chain(ct, s)
    case None => [c]
  }

  /** Declared fields of c and of each class above it, most-derived first. */
  function FieldsAlongHierarchy(ct: ClassTable, c: ClassName): seq<FieldDecl>
    requires WellFormed(ct)
    decreases Level(ct, c)
  {
    DeclaredFields(ct, c) + match NextInWalk(ct, c)
                            case Some(s) => FieldsAlongHierarchy(ct, s)
                            case None => []
  }

  /** Declared methods of c and of each class above it, most-derived first. */
  function MethodsAlongHierarchy(ct: ClassTable, c: ClassName): seq<MethodDecl>
    requires WellFormed(ct)
    decreases Level(ct, c)
  {
    DeclaredMethods(ct, c) + match NextInWalk(ct, c)
                             case Some(s) => MethodsAlongHierarchy(ct, s)
                             case None => []
  }

  /** A field is collected exactly when it is declared by one of the classes
      of the chain; it is declared by the class it names as declaring class. */
  lemma {:induction false} FieldsAlongHierarchyMembers(ct: ClassTable, c: ClassName, f: FieldDecl)
    requires WellFormed(ct)
    ensures f in FieldsAlongHierarchy(ct, c) <==> exists k :: k in Chain(ct, c) && f in DeclaredFields(ct, k)
    ensures f in FieldsAlongHierarchy(ct, c) ==> f.id.declaring in Chain(ct, c) && f in DeclaredFields(ct, f.id.declaring)
    decreases Level(ct, c)
  {
    match NextInWalk(ct, c)
    case Some(s) =>
      FieldsAlongHierarchyMembers(ct, s, f);
      if f in DeclaredFields(ct, c) {
        DeclaredFieldNamesItsClass(ct, c, f);
      }
    case None =>
      if f in DeclaredFields(ct, c) {
        DeclaredFieldNamesItsClass(ct, c, f);
      }
  }

  /** A method is collected exactly when one of the classes of the chain
      declares it. */
  lemma {:induction false} MethodsAlongHierarchyMembers(ct: ClassTable, c: ClassName, m: MethodDecl)
    requires WellFormed(ct)
    ensures m in MethodsAlongHierarchy(ct, c) <==> exists k :: k in Chain(ct, c) && m in DeclaredMethods(ct, k)
    decreases Level(ct, c)
  {
    match NextInWalk(ct, c)
    case Some(s) =>
      MethodsAlongHierarchyMembers(ct, s, m);
    case None =>
  }

  lemma DeclaredFieldNamesItsClass(ct: ClassTable, c: ClassName, f: FieldDecl)
    requires WellFormed(ct) && f in DeclaredFields(ct, c)
    ensures f.id.declaring == c
  {
    var i :| 0 <= i < |ct[c].fields| && ct[c].fields[i] == f;
  }

  /** No field is collected twice, so the copy loop visits every field slot
      of an object once. */
  lemma {:induction false} FieldIdsDistinct(ct: ClassTable, c: ClassName)
    requires WellFormed(ct)
    ensures forall i, j :: 0 <= i < j < |FieldsAlongHierarchy(ct, c)| ==>
              FieldsAlongHierarchy(ct, c)[i].id != FieldsAlongHierarchy(ct, c)[j].id
    decreases Level(ct, c)
  {
    var w := FieldsAlongHierarchy(ct, c);
    var d := DeclaredFields(ct, c);
    match NextInWalk(ct, c)
    case Some(s) =>
      FieldIdsDistinct(ct, s);
      var rest := FieldsAlongHierarchy(ct, s);
      forall i, j | 0 <= i < j < |w|
        ensures w[i].id != w[j].id
      {
        if j >= |d| {
          if i < |d| {
            assert w[i] in DeclaredFields(ct, c);
            DeclaredFieldNamesItsClass(ct, c, w[i]);
            assert w[j] == rest[j - |d|];
            FieldsAlongHierarchyMembers(ct, s, w[j]);
            assert Level(ct, w[j].id.declaring) <= Level(ct, s);
          } else {
            assert w[i] == rest[i - |d|] && w[j] == rest[j - |d|];
          }
        }
      }
    case None =>
  }

  /** Java's Object is never visited as a superclass: it contributes fields
      only when it is the class asked for. */
  lemma ObjectOnlyWhenAsked(ct: ClassTable, c: ClassName)
    requires WellFormed(ct)
    ensures OBJECT in Chain(ct, c) ==> c == OBJECT
  {
  }

  // --------------------------------------------------------------- leaves

  /** classIsAWellKnownImmutableClassFromJDK: primitive classes, String, the
      direct subclasses of Number (the boxed numbers) and Boolean. */
  predicate IsWellKnownImmutable(ct: ClassTable, c: ClassName)
  {
    IsPrimitive(ct, c) || c == STRING || Superclass(ct, c) == Some(NUMBER) || c == BOOLEAN
  }

  /** objectClassIsAwellKnownImmutableClassFromJDK: false for null, otherwise
      the test on the object's class. */
  predicate ObjectIsWellKnownImmutable(ct: ClassTable, objs: map<Addr, JObject>, v: Value)
  {
    v.Ref? && v.addr in objs && IsWellKnownImmutable(ct, ClassOf(objs[v.addr]))
  }

  /** The boxed numbers: the wrappers of byte, short, int, long, float and
      double. */
  const NUMBER_WRAPPERS: set<ClassName> :=
    {"java.lang.Byte", "java.lang.Short", "java.lang.Integer", "java.lang.Long", "java.lang.Float", "java.lang.Double"}

  /** The eight wrappers of the primitive types. */
  const PRIMITIVE_WRAPPERS: set<ClassName> := NUMBER_WRAPPERS + {BOOLEAN, CHARACTER}

  /** The name of an array class, as ClassOf gives it: the component's name
      followed by "[]". */
  predicate IsArrayClass(c: ClassName)
  {
    |c| >= 2 && c[|c| - 2..] == "[]"
  }

  /** What the class table of any JVM has: Object is a non-primitive root;
      Number, String, Boolean and Character extend Object; the boxed numbers
      extend Number; Character has no public parameterless constructor; char
      is primitive; and the table lists no array class. */
  ghost predicate JdkShaped(ct: ClassTable)
  {
    && WellFormed(ct)
    && OBJECT in ct && ct[OBJECT].superclass.None? && !ct[OBJECT].primitive
    && (forall c | c in {NUMBER, STRING, BOOLEAN, CHARACTER} ::
          c in ct && ct[c].superclass == Some(OBJECT) && !ct[c].primitive)
    && (forall w | w in NUMBER_WRAPPERS :: w in ct && ct[w].superclass == Some(NUMBER))
    && !ct[CHARACTER].hasDefaultConstructor
    && CHAR in ct && ct[CHAR].primitive
    && (forall c | c in ct :: !IsArrayClass(c))
  }

  /** The leaf test on any JVM: Object and Number are not leaves, nor is any
      array class; String, Boolean and every direct subclass of Number are. */
  lemma {:induction false} LeafTest(ct: ClassTable, c: ClassName)
    requires JdkShaped(ct)
    ensures !IsWellKnownImmutable(ct, OBJECT) && !IsWellKnownImmutable(ct, NUMBER)
    ensures IsWellKnownImmutable(ct, STRING) && IsWellKnownImmutable(ct, BOOLEAN)
    ensures Superclass(ct, c) == Some(NUMBER) ==> IsWellKnownImmutable(ct, c)
    ensures IsArrayClass(c) ==> !IsWellKnownImmutable(ct, c)
  {
    assert NUMBER in {NUMBER, STRING, BOOLEAN, CHARACTER};
    if IsArrayClass(c) {
      assert c !in ct;
      assert STRING[|STRING| - 2..] == "ng" && BOOLEAN[|BOOLEAN| - 2..] == "an";
    }
  }

  /** The object form on any JVM: null and arrays are never leaves. */
  lemma {:induction false} LeafTestObjects(ct: ClassTable, objs: map<Addr, JObject>, v: Value)
    requires JdkShaped(ct)
    ensures !ObjectIsWellKnownImmutable(ct, objs, Null)
    ensures v.Ref? && v.addr in objs && objs[v.addr].ArrayObj? ==> !ObjectIsWellKnownImmutable(ct, objs, v)
  {
    if v.Ref? && v.addr in objs && objs[v.addr].ArrayObj? {
      var c := ClassOf(objs[v.addr]);
      assert c[|c| - 2..] == "[]";
      LeafTest(ct, c);
    }
  }

  /** As written, the test leaves out one of the primitive wrappers its
      documentation promises: Character, whose superclass is Object. Every
      other wrapper is a leaf. */
  lemma CharacterIsNotALeaf(ct: ClassTable)
    requires JdkShaped(ct)
    ensures !IsWellKnownImmutable(ct, CHARACTER)
    ensures forall w | w in PRIMITIVE_WRAPPERS && w != CHARACTER :: IsWellKnownImmutable(ct, w)
  {
    assert CHARACTER in {NUMBER, STRING, BOOLEAN, CHARACTER};
  }

  /** The test as documented: a primitive class, a primitive wrapper (so
      Character too), String, a Number subclass or Boolean. */
  predicate IsWellKnownImmutableCorrected(ct: ClassTable, c: ClassName)
  {
    IsWellKnownImmutable(ct, c) || c == CHARACTER
  }

  /** The corrected test holds of every primitive wrapper, and differs from
      the library's only on Character. */
  lemma WrappersAreLeaves(ct: ClassTable, c: ClassName)
    requires JdkShaped(ct)
    ensures forall w | w in PRIMITIVE_WRAPPERS :: IsWellKnownImmutableCorrected(ct, w)
    ensures IsWellKnownImmutableCorrected(ct, c) != IsWellKnownImmutable(ct, c) <==> c == CHARACTER
  {
    CharacterIsNotALeaf(ct);
  }

  /** A fragment of the JDK hierarchy. */
  const JdkSample: ClassTable := map[
    OBJECT := ClassDecl(None, false, true, [], [], 0, map[]),
    NUMBER := ClassDecl(Some(OBJECT), false, false, [], [], 1, map[]),
    "java.lang.Integer" := ClassDecl(Some(NUMBER), false, false, [], [], 2, map[]),
    "java.math.BigDecimal" := ClassDecl(Some(NUMBER), false, false, [], [], 2, map[]),
    "java.util.concurrent.atomic.AtomicLong" := ClassDecl(Some(NUMBER), false, true, [], [], 2, map[]),
    BOOLEAN := ClassDecl(Some(OBJECT), false, false, [], [], 1, map[]),
    STRING := ClassDecl(Some(OBJECT), false, false, [], [], 1, map[]),
    "int" := ClassDecl(None, true, false, [], [], 0, map[]),
    "boolean" := ClassDecl(None, true, false, [], [], 0, map[])]

  /** Which classes of the sample are leaves: every direct subclass of Number
      (mutable AtomicLong included) is, Number itself and Object are not, and
      neither is an array class. */
  lemma LeafClassification()
    ensures IsWellKnownImmutable(JdkSample, "java.lang.Integer")
    ensures IsWellKnownImmutable(JdkSample, "java.math.BigDecimal")
    ensures IsWellKnownImmutable(JdkSample, "java.util.concurrent.atomic.AtomicLong")
    ensures IsWellKnownImmutable(JdkSample, BOOLEAN) && IsWellKnownImmutable(JdkSample, STRING)
    ensures IsWellKnownImmutable(JdkSample, "int") && IsWellKnownImmutable(JdkSample, "boolean")
    ensures !IsWellKnownImmutable(JdkSample, NUMBER) && !IsWellKnownImmutable(JdkSample, OBJECT)
    ensures !IsWellKnownImmutable(JdkSample, "java.lang.Integer[]")
  {
  }

  /** The object test: null is not a leaf, a boxed Integer is, and an array
      of Integer is not. */
  lemma LeafObjects()
    ensures forall objs :: !ObjectIsWellKnownImmutable(JdkSample, objs, Null)
    ensures forall objs: map<Addr, JObject>, a | a in objs && objs[a] == Instance("java.lang.Integer", map[]) ::
              ObjectIsWellKnownImmutable(JdkSample, objs, Ref(a))
    ensures forall objs: map<Addr, JObject>, a | a in objs && objs[a] == ArrayObj("java.lang.Integer", []) ::
              !ObjectIsWellKnownImmutable(JdkSample, objs, Ref(a))
  {
  }
}
