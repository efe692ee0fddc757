/** CollectionFactory: the fixed table from collection class names to the
    implementation the deep copy instantiates, its first-match lookup, and
    newInstanceOf. */
module CollectionFactory {
  import opened Jvm

  const ARRAY_LIST: ClassName := "java.util.ArrayList"
  const LINKED_LIST: ClassName := "java.util.LinkedList"

  /** FrameWorkSupportedTypesEnum. */
  datatype SupportedType = SET | COLLECTION | ARRAYLIST | LINKEDLIST | HASHSET
  {
    /** getClassName(): the name the entry answers to. */
    function ClassName(): ClassName
    {
      match this
      case SET => "java.util.Set"
      case COLLECTION => "java.util.Collection"
      case ARRAYLIST => "java.util.Arrays.ArrayList"
      case LINKEDLIST => "java.util.LinkedList"
      case HASHSET => "java.util.HashSet"
    }

    /** getType(): the implementation class instantiated for the entry. */
    function Type(): ClassName
    {
      match this
      case SET => HASH_SET
      case COLLECTION => ARRAY_LIST
      case ARRAYLIST => ARRAY_LIST
      case LINKEDLIST => LINKED_LIST
      case HASHSET => HASH_SET
    }
  }

  /** values(), in declaration order. */
  const Values: seq<SupportedType> := [SET, COLLECTION, ARRAYLIST, LINKEDLIST, HASHSET]

  /** The first entry of `entries` whose name equals `name`. */
  function FirstMatch(entries: seq<SupportedType>, name: string): (r: Option<SupportedType>)
    ensures r.Some? ==> r.value in entries && r.value.ClassName() == name
    ensures r.None? <==> forall e :: e in entries ==> e.ClassName() != name
  {
    if entries == [] then None
    else if entries[0].ClassName() == name then Some(entries[0])
    else
      var r := FirstMatch(entries[1..], name);
      assert forall e :: e in entries ==> e == entries[0] || e in entries[1..];
      r
  }

  /** The outcome forClazzFullQualifiedName(name) specifies: the first matching
      entry, or the error for an unsupported name. */
  function Lookup(name: string): (r: Result<SupportedType>)
    ensures r.Ok? ==> r.value.ClassName() == name
    ensures r.Err? ==> r == Err(UnsupportedCollection(name)) && forall t: SupportedType :: t.ClassName() != name
  {
    match FirstMatch(Values, name)
    case Some(t) => Ok(t)
    case None => Err(UnsupportedCollection(name))
  }

  /** forClazzFullQualifiedName: a scan of values() in declaration order. */
  method ForClazzFullQualifiedName(name: string) returns (r: Result<SupportedType>)
    ensures r == Lookup(name)
  {
    var i := 0;
    while i < |Values|
      invariant 0 <= i <= |Values|
      invariant forall j :: 0 <= j < i ==> Values[j].ClassName() != name
    {
      if Values[i].ClassName() == name {
        FirstMatchAt(Values, name, i);
        return Ok(Values[i]);
      }
      i := i + 1;
    }
    assert forall e :: e in Values ==> e.ClassName() != name;
    return Err(UnsupportedCollection(name));
  }

  /** The first index whose entry matches decides the lookup. */
  lemma {:induction false} FirstMatchAt(entries: seq<SupportedType>, name: string, i: int)
    requires 0 <= i < |entries| && entries[i].ClassName() == name
    requires forall j :: 0 <= j < i ==> entries[j].ClassName() != name
    ensures FirstMatch(entries, name) == Some(entries[i])
  {
    if i > 0 {
      var rest := entries[1..];
      assert entries[0].ClassName() != name;
      assert rest[i - 1] == entries[i];
      forall j | 0 <= j < i - 1
        ensures rest[j].ClassName() != name
      {
        assert rest[j] == entries[j + 1];
      }
      FirstMatchAt(rest, name, i - 1);
    }
  }

  /** The table, entry by entry. */
  lemma TableContents()
    ensures Lookup("java.util.Set") == Ok(SET) && SET.Type() == HASH_SET
    ensures Lookup("java.util.Collection") == Ok(COLLECTION) && COLLECTION.Type() == ARRAY_LIST
    ensures Lookup("java.util.Arrays.ArrayList") == Ok(ARRAYLIST) && ARRAYLIST.Type() == ARRAY_LIST
    ensures Lookup("java.util.LinkedList") == Ok(LINKEDLIST) && LINKEDLIST.Type() == LINKED_LIST
    ensures Lookup("java.util.HashSet") == Ok(HASHSET) && HASHSET.Type() == HASH_SET
  {
    LookupOwnName(SET);
    LookupOwnName(COLLECTION);
    LookupOwnName(ARRAYLIST);
    LookupOwnName(LINKEDLIST);
    LookupOwnName(HASHSET);
  }

  /** The names are compared exactly: java.util.ArrayList, the class of the
      most common list, is not in the table (the entry ARRAYLIST answers to
      java.util.Arrays.ArrayList), so its lookup fails. */
  lemma ConcreteArrayListUnsupported()
    ensures Lookup(ARRAY_LIST) == Err(UnsupportedCollection(ARRAY_LIST))
  {
    assert SET.ClassName() != ARRAY_LIST && COLLECTION.ClassName() != ARRAY_LIST;
    assert ARRAYLIST.ClassName() != ARRAY_LIST && LINKEDLIST.ClassName() != ARRAY_LIST;
    assert HASHSET.ClassName() != ARRAY_LIST;
    assert forall e :: e in Values ==> e.ClassName() != ARRAY_LIST;
  }

  /** Looking up an entry's own name gives back that entry: no two entries
      share a name, so the first match is the only one. */
  lemma {:induction false} LookupOwnName(t: SupportedType)
    ensures Lookup(t.ClassName()) == Ok(t)
  {
    var k := match t
      case SET => 0
      case COLLECTION => 1
      case ARRAYLIST => 2
      case LINKEDLIST => 3
      case HASHSET => 4;
    assert Values[k] == t;
    forall j | 0 <= j < k
      ensures Values[j].ClassName() != t.ClassName()
    {
      assert Values[j] != t;
      assert |Values[j].ClassName()| != |t.ClassName()| || Values[j].ClassName()[10] != t.ClassName()[10];
    }
    FirstMatchAt(Values, t.ClassName(), k);
  }

  /** Lookup succeeds exactly for the five registered names, compared exactly. */
  lemma {:induction false} LookupSucceedsIffRegistered(name: string)
    ensures Lookup(name).Ok? <==> exists t: SupportedType :: t.ClassName() == name
    ensures Lookup(name).Ok? ==> Lookup(name).value.ClassName() == name
  {
    if t: SupportedType :| t.ClassName() == name {
      LookupOwnName(t);
    }
  }

  /** newInstanceOf(name): a new, empty collection of the implementation
      registered for the name. The implementations in the table all have a
      public parameterless constructor, so the only failure is the lookup. */
  method NewInstanceOf(h: Heap, name: string) returns (r: Result<Addr>)
    requires h.Valid()
    modifies h
    ensures h.Valid()
    ensures Lookup(name).Err? ==> r == Err(Lookup(name).error) && h.objs == old(h.objs) && h.next == old(h.next)
    ensures Lookup(name).Ok? ==> r == Ok(old(h.next)) && h.next == old(h.next) + 1
                                 && h.objs == old(h.objs)[old(h.next) := CollectionObj(Lookup(name).value.Type(), [])]
  {
    var impl := ForClazzFullQualifiedName(name);
    if impl.Err? {
      return Err(impl.error);
    }
    var a := h.Alloc(CollectionObj(impl.value.Type(), []));
    return Ok(a);
  }
}
