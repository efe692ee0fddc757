/** The explicit stand-in for Java reflection: a table of loaded classes (each
    a name, a superclass link, its declared fields and methods) and a heap of
    objects addressed by references. Everything the library reads through
    Class, Field and Method, and everything it writes through Field.set,
    Array.set and Collection.add, goes through the definitions here. */
module Jvm {

  datatype Option<+T> = None | Some(value: T)

  /** The exceptions the library raises or lets through. */
  datatype Error =
    | NullPointer                          // NullPointerException
    | IllegalArgument                      // Field.get / Method.invoke on a receiver without the member
    | StringIndexOutOfBounds               // charAt(0) / deleteCharAt(-1) on an empty string
    | UnsupportedCollection(name: string)  // CollectionFactory has no implementation for the name
    | NoDefaultConstructor(cls: string)    // newInstanceOf: no public parameterless constructor
    | MethodsNotFound                      // getMethodsByNameCriteria: count mismatch
    | PatternNotInitialized                // MethodNamePatternCriteria without a pattern
    | NotAField                            // FieldAnnotatedMapping.setTarget on null or a non-Field

  datatype Result<+T> = Ok(value: T) | Err(error: Error)

  type ClassName = string

  const OBJECT: ClassName := "java.lang.Object"
  const STRING: ClassName := "java.lang.String"
  const NUMBER: ClassName := "java.lang.Number"
  const BOOLEAN: ClassName := "java.lang.Boolean"
  const CHARACTER: ClassName := "java.lang.Character"
  const CHAR: ClassName := "char"
  const MAPPABLE: ClassName := "com.dynamicmapper.commons.Mappable"
  /** The one set implementation the library instantiates. */
  const HASH_SET: ClassName := "java.util.HashSet"

  /** java.lang.reflect.Modifier bits. */
  const PUBLIC: nat := 1
  const STATIC: nat := 8
  const FINAL: nat := 16

  predicate IsFinal(modifiers: nat)
  {
    (modifiers / FINAL) % 2 == 1
  }

  /** A field is identified by its declaring class and its name. */
  datatype FieldId = FieldId(declaring: ClassName, name: string)

  /** An annotation on a field: @Mappable(methodName = ...) or any other. */
  datatype Annotation = Mappable(methodName: string) | Marker(annotationType: ClassName)
  {
    function AnnotationType(): ClassName
    {
      if Mappable? then MAPPABLE else annotationType
    }
  }

  datatype FieldDecl = FieldDecl(id: FieldId, fieldType: ClassName, modifiers: nat, annotations: seq<Annotation>)
  {
    function Name(): string { id.name }
  }

  /** A declared method. Its body is modelled as an accessor: invoking it on a
      receiver returns the receiver's value of the field `accessed`. */
  datatype MethodDecl = MethodDecl(name: string, modifiers: nat, accessed: FieldId)

  /** A loaded class. `level` is its depth below the root of the hierarchy;
      it only serves to show that superclass walks end. `initial` is what the
      public parameterless constructor, with the field initialisers it runs,
      leaves in the fields of a new object of the class; a field it does not
      list is left null. */
  datatype ClassDecl = ClassDecl(
    superclass: Option<ClassName>,
    primitive: bool,
    hasDefaultConstructor: bool,
    fields: seq<FieldDecl>,
    methods: seq<MethodDecl>,
    level: nat,
    initial: map<FieldId, Value>)

  type ClassTable = map<ClassName, ClassDecl>

  /** Superclass links stay inside the table and go strictly up; every declared
      field names its class as declaring class, and no two share a name. */
  ghost predicate WellFormed(ct: ClassTable)
  {
    && (forall c :: c in ct && ct[c].superclass.Some? ==>
          ct[c].superclass.value in ct && ct[ct[c].superclass.value].level < ct[c].level)
    && (forall c, i :: c in ct && 0 <= i < |ct[c].fields| ==> ct[c].fields[i].id.declaring == c)
    && (forall c, i, j :: c in ct && 0 <= i < j < |ct[c].fields| ==>
          ct[c].fields[i].id != ct[c].fields[j].id)
  }

  /** Class.getSuperclass(); classes outside the table (array classes) are
      modelled as declaring nothing and having no superclass of interest. */
  function Superclass(ct: ClassTable, c: ClassName): Option<ClassName>
  {
    if c in ct then ct[c].superclass else None
  }

  function Level(ct: ClassTable, c: ClassName): nat
  {
    if c in ct then ct[c].level else 0
  }

  /** Class.isPrimitive(). */
  predicate IsPrimitive(ct: ClassTable, c: ClassName)
  {
    c in ct && ct[c].primitive
  }

  function DeclaredFields(ct: ClassTable, c: ClassName): seq<FieldDecl>
  {
    if c in ct then ct[c].fields else []
  }

  function DeclaredMethods(ct: ClassTable, c: ClassName): seq<MethodDecl>
  {
    if c in ct then ct[c].methods else []
  }

  /** The value field id of a new object of class c holds once the public
      parameterless constructor has run. */
  function InitialValue(ct: ClassTable, c: ClassName, id: FieldId): Value
  {
    if c in ct && id in ct[c].initial then ct[c].initial[id] else Null
  }

  // ------------------------------------------------------------------ heap

  type Addr = nat

  datatype Value = Null | Ref(addr: Addr)

  /** An object on the heap: a plain instance with one slot per field along
      its class hierarchy, an array, or a java.util.Collection whose elements
      are listed in iteration order. `cls` is the class's canonical name. */
  datatype JObject =
    | Instance(cls: ClassName, fields: map<FieldId, Value>)
    | ArrayObj(component: ClassName, slots: seq<Value>)
    | CollectionObj(cls: ClassName, elems: seq<Value>)

  /** obj.getClass(), by name. */
  function ClassOf(o: JObject): ClassName
  {
    match o
    case Instance(c, _) => c
    case ArrayObj(comp, _) => comp + "[]"
    case CollectionObj(c, _) => c
  }

  /** The elements of a collection of class cls after add(v): a HashSet
      leaves out an element it already holds (elements are compared by
      reference, and null equals null); any other collection appends it. */
  function Added(cls: ClassName, elems: seq<Value>, v: Value): seq<Value>
  {
    if cls == HASH_SET && v in elems then elems else elems + [v]
  }

  /** The elements of a new, empty collection of class cls after cs has been
      added element by element. */
  function Collect(cls: ClassName, cs: seq<Value>): seq<Value>
  {
    if cs == [] then [] else Added(cls, Collect(cls, cs[..|cs| - 1]), cs[|cs| - 1])
  }

  ghost predicate NoDuplicates(s: seq<Value>)
  {
    forall i, j | 0 <= i < j < |s| :: s[i] != s[j]
  }

  /** A list keeps every element added to it, in order. */
  lemma {:induction false} CollectList(cls: ClassName, cs: seq<Value>)
    requires cls != HASH_SET
    ensures Collect(cls, cs) == cs
  {
    if cs != [] {
      CollectList(cls, cs[..|cs| - 1]);
      assert cs[..|cs| - 1] + [cs[|cs| - 1]] == cs;
    }
  }

  /** A HashSet holds each added element exactly once: the same elements as
      cs, without duplicates, so never more than cs has. */
  lemma {:induction false} CollectSet(cs: seq<Value>)
    ensures forall x :: x in Collect(HASH_SET, cs) <==> x in cs
    ensures NoDuplicates(Collect(HASH_SET, cs))
    ensures |Collect(HASH_SET, cs)| <= |cs|
  {
    if cs != [] {
      var init := cs[..|cs| - 1];
      CollectSet(init);
      assert cs == init + [cs[|cs| - 1]];
    }
  }

  /** The objects of the running program. New objects get consecutive
      addresses from `next`, so the objects made by one call occupy an
      address range of their own. */
  class Heap {
    var objs: map<Addr, JObject>
    var next: Addr

    ghost predicate Valid()
      reads this
    {
      forall a :: a in objs ==> a < next
    }

    constructor (objs: map<Addr, JObject>, next: Addr)
      requires forall a :: a in objs ==> a < next
      ensures Valid() && this.objs == objs && this.next == next
    {
      this.objs := objs;
      this.next := next;
    }

    /** Allocation of a new object (a constructor call, Array.newInstance). */
    method Alloc(o: JObject) returns (a: Addr)
      requires Valid()
      modifies this
      ensures Valid()
      ensures a == old(next) && next == old(next) + 1 && a !in old(objs)
      ensures objs == old(objs)[a := o]
    {
      a := next;
      objs := objs[a := o];
      next := next + 1;
    }

    /** Field.set(obj, v) on a field the object has. */
    method SetField(a: Addr, f: FieldId, v: Value)
      requires Valid() && a in objs && objs[a].Instance? && f in objs[a].fields
      modifies this
      ensures Valid() && next == old(next)
      ensures objs == old(objs)[a := Instance(old(objs)[a].cls, old(objs)[a].fields[f := v])]
    {
      objs := objs[a := Instance(objs[a].cls, objs[a].fields[f := v])];
    }

    /** Array.set(array, i, v). */
    method SetSlot(a: Addr, i: nat, v: Value)
      requires Valid() && a in objs && objs[a].ArrayObj? && i < |objs[a].slots|
      modifies this
      ensures Valid() && next == old(next)
      ensures objs == old(objs)[a := ArrayObj(old(objs)[a].component, old(objs)[a].slots[i := v])]
    {
      objs := objs[a := ArrayObj(objs[a].component, objs[a].slots[i := v])];
    }

    /** Collection.add(v), as Added describes it for the collection's class. */
    method Add(a: Addr, v: Value)
      requires Valid() && a in objs && objs[a].CollectionObj?
      modifies this
      ensures Valid() && next == old(next)
      ensures objs == old(objs)[a := CollectionObj(old(objs)[a].cls, Added(old(objs)[a].cls, old(objs)[a].elems, v))]
    {
      objs := objs[a := CollectionObj(objs[a].cls, Added(objs[a].cls, objs[a].elems, v))];
    }
  }

  /** Method.invoke(receiver) for an accessor: a null receiver raises
      NullPointerException, a receiver without the accessed field raises
      IllegalArgumentException. */
  function Invoke(objs: map<Addr, JObject>, receiver: Value, m: MethodDecl): (r: Result<Value>)
    ensures r.Ok? <==> receiver.Ref? && receiver.addr in objs && objs[receiver.addr].Instance?
                       && m.accessed in objs[receiver.addr].fields
    ensures r.Ok? ==> r.value == objs[receiver.addr].fields[m.accessed]
    ensures receiver.Null? ==> r == Err(NullPointer)
  {
    if receiver.Null? then Err(NullPointer)
    else if receiver.addr in objs && objs[receiver.addr].Instance? && m.accessed in objs[receiver.addr].fields
    then Ok(objs[receiver.addr].fields[m.accessed])
    else Err(IllegalArgument)
  }
}
