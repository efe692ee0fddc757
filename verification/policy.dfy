/** The legacy mapping strategies and the registry that picks one per
    destination field: PropertyAccessorMapping derives a getter name from the
    field's name, FieldAnnotatedMapping takes it from the field's @Mappable
    tag, and MappingManager hands out one shared instance of each. */
module Policy {
  import opened Jvm
  import opened Strings
  import opened Hierarchy
  import opened Criteria
  import opened MapSpec
  import opened ReflectionUtils
  import opened Search
  import opened Lru

  // ------------------------------------------------ accessor name derivation

  /** The accessor prefix: "is" exactly when the declared type is the boxed
      java.lang.Boolean (the comparison is `== Boolean.class`, so a
      primitive boolean field still gets "get"). */
  function AccessorPrefix(fieldType: ClassName): (p: string)
    ensures p == "is" <==> fieldType == BOOLEAN
    ensures p != "is" ==> p == "get"
  {
    if fieldType == BOOLEAN then "is" else "get"
  }

  /** methodNameToLookup(): the prefix, then the field name with its first
      character upper-cased; charAt(0) on an empty name raises
      StringIndexOutOfBoundsException. */
  function MethodNameToLookup(target: FieldDecl): (r: Result<string>)
    ensures r.Err? <==> target.Name() == []
    ensures r.Err? ==> r.error == StringIndexOutOfBounds
    ensures r.Ok? ==>
              var name := target.Name();
              var p := AccessorPrefix(target.fieldType);
              && |r.value| == |p| + |name|
              && r.value[..|p|] == p
              && r.value[|p|] == ToUpper(name[0])
              && r.value[|p| + 1..] == name[1..]
  {
    var name := target.Name();
    if name == [] then Err(StringIndexOutOfBounds)
    else
      var r := AccessorPrefix(target.fieldType) + ([ToUpper(name[0])] + name[1..]);
      assert r[..|AccessorPrefix(target.fieldType)|] == AccessorPrefix(target.fieldType);
      Ok(r)
  }

  /** A field name that starts with an ASCII letter or digit yields a name the
      getter pattern `get[A-Za-z0-9]+|is[A-Za-z0-9]+` finds. */
  lemma DerivedNameIsGetterName(target: FieldDecl)
    requires target.Name() != [] && IsAsciiAlnum(target.Name()[0])
    ensures MethodNameToLookup(target).Ok?
    ensures Finds(GetterPattern, MethodNameToLookup(target).value)
  {
    var r := MethodNameToLookup(target).value;
    var p := AccessorPrefix(target.fieldType);
    assert OccursAt(r, p, 0);
    assert IsAsciiAlnum(r[|p|]);
    if p == "is" {
      assert FindsPrefixedWord(r, "is");
    } else {
      assert FindsPrefixedWord(r, "get");
    }
  }

  /** Two fields of the same type whose names differ only in the case of a
      leading letter derive the same accessor name: "url" and "Url" both look
      up "getUrl". */
  lemma CaseOfFirstLetterIsLost(t: ClassName)
    ensures MethodNameToLookup(FieldDecl(FieldId("C", "url"), t, PUBLIC, [])) ==
            MethodNameToLookup(FieldDecl(FieldId("C", "Url"), t, PUBLIC, []))
  {
    var lower := MethodNameToLookup(FieldDecl(FieldId("C", "url"), t, PUBLIC, []));
    var upper := MethodNameToLookup(FieldDecl(FieldId("C", "Url"), t, PUBLIC, []));
    assert ToUpper('u') == 'U' == ToUpper('U');
    assert lower.value == upper.value;
  }

  /** Apart from the first letter's case, the derived name determines the
      field name and whether the field is a boxed Boolean. */
  lemma DerivedNameDeterminesField(a: FieldDecl, b: FieldDecl)
    requires MethodNameToLookup(a).Ok? && MethodNameToLookup(a) == MethodNameToLookup(b)
    ensures (a.fieldType == BOOLEAN) == (b.fieldType == BOOLEAN)
    ensures |a.Name()| == |b.Name()| && a.Name()[1..] == b.Name()[1..]
    ensures ToUpper(a.Name()[0]) == ToUpper(b.Name()[0])
  {
    var r := MethodNameToLookup(a).value;
    var pa := AccessorPrefix(a.fieldType);
    var pb := AccessorPrefix(b.fieldType);
    assert r[..|pa|] == pa && r[..|pb|] == pb;
    assert pa[0] == r[0] == pb[0];
  }

  // ------------------------------------------------ PropertyAccessorMapping

  /** The strategy for fields without a tag: the accessor is found by the
      name derived from the target field. The two helpers its resolve calls,
      gettersOf(class, name) and lookupPropertyResolver(name, list), are not
      part of this model and are passed in. */
  class PropertyAccessorMapping {
    var provider: Value
    var target: Option<FieldDecl>

    constructor ()
      ensures provider == Null && target == None
    {
      provider := Null;
      target := None;
    }

    method SetProvider(p: Value)
      modifies this
      ensures provider == p && target == old(target)
    {
      provider := p;
    }

    method SetTarget(f: FieldDecl)
      modifies this
      ensures target == Some(f) && provider == old(provider)
    {
      target := Some(f);
    }

    /** resolve(): derive the name (a missing target raises
        NullPointerException, an empty name StringIndexOutOfBoundsException),
        ask for the provider's getters of that name (a null provider raises
        NullPointerException), pick one and invoke it on the provider. */
    method Resolve(objs: map<Addr, JObject>,
                   gettersOf: (ClassName, string) -> seq<MethodDecl>,
                   lookup: (string, seq<MethodDecl>) -> Option<MethodDecl>)
      returns (r: Result<Value>)
      requires provider.Ref? ==> provider.addr in objs
      ensures target.None? ==> r == Err(NullPointer)
      ensures target.Some? && target.value.Name() == [] ==> r == Err(StringIndexOutOfBounds)
      ensures target.Some? && target.value.Name() != [] && provider.Null? ==> r == Err(NullPointer)
      ensures target.Some? && target.value.Name() != [] && provider.Ref? ==>
                var name := MethodNameToLookup(target.value).value;
                var found := lookup(name, gettersOf(ClassOf(objs[provider.addr]), name));
                && (found.None? ==> r == Err(NullPointer))
                && (found.Some? ==> r == Invoke(objs, provider, found.value))
      ensures r.Ok? ==> exists m :: r == Invoke(objs, provider, m)
    {
      if target.None? {
        return Err(NullPointer);
      }
      var methodName := MethodNameToLookup(target.value);
      if methodName.Err? {
        return Err(methodName.error);
      }
      if provider.Null? {
        return Err(NullPointer);
      }
      var cls := ClassOf(objs[provider.addr]);
      var targetAccessibleMethods := gettersOf(cls, methodName.value);
      var propertyAccessor := lookup(methodName.value, targetAccessibleMethods);
      r := InvokeReflective(objs, provider, propertyAccessor);
    }
  }

  // -------------------------------------------------- FieldAnnotatedMapping

  /** What setTarget(Object) may be handed: null, a java.lang.reflect.Field,
      or an object of some other class. */
  datatype TargetArg = NullArg | FieldArg(field: FieldDecl) | OtherArg(cls: ClassName)

  /** The strategy for tagged fields: the accessor is the provider method
      named by the target field's @Mappable tag, taken verbatim. */
  class FieldAnnotatedMapping {
    var provider: Value
    var target: Option<FieldDecl>
    /** The tag type. Its static type is Class<? extends Mappable>, and an
        annotation type cannot be extended, so it is Mappable.class. */
    const annotationClazz: ClassName

    constructor (annotationClazz: ClassName)
      requires annotationClazz == MAPPABLE
      ensures this.annotationClazz == annotationClazz
      ensures provider == Null && target == None
    {
      this.annotationClazz := annotationClazz;
      provider := Null;
      target := None;
    }

    method SetProvider(p: Value)
      modifies this
      ensures provider == p && target == old(target)
    {
      provider := p;
    }

    /** setTarget(obj): anything but a Field raises, leaving the strategy as
        it was; a Field becomes the target. */
    method SetTarget(obj: TargetArg) returns (err: Option<Error>)
      modifies this
      ensures err.None? <==> obj.FieldArg?
      ensures err.Some? ==> err.value == NotAField && target == old(target)
      ensures obj.FieldArg? ==> target == Some(obj.field)
      ensures provider == old(provider)
    {
      if !obj.FieldArg? {
        return Some(NotAField);
      }
      target := Some(obj.field);
      err := None;
    }

    /** resolve(): the tag's methodName, verbatim, is looked up along the
        provider's class hierarchy by ReflectionUtils.lookupPropertyResolver,
        as written, and invoked on the provider. A missing target, a target
        without the tag, a null provider and a name no method has all raise
        NullPointerException. For a class not in the methods cache yet the
        lookup sorts and finds every name the hierarchy has; for a cached
        class it searches the cached list as it stands, which may be in
        declaration order and miss the name. */
    method Resolve(utils: ReflectionUtils, objs: map<Addr, JObject>) returns (r: Result<Value>)
      requires utils.Valid()
      requires provider.Ref? ==> provider.addr in objs
      modifies utils.methodsCache
      ensures utils.Valid()
      ensures target.None? || MappableName(target.value.annotations).None? || provider.Null? ==>
                r == Err(NullPointer)
      ensures target.Some? && MappableName(target.value.annotations).Some? && provider.Ref? ==>
                Resolved(objs, provider, MethodsAlongHierarchy(utils.ct, ClassOf(objs[provider.addr])),
                         MappableName(target.value.annotations).value,
                         Lookup(old(utils.methodsCache.entries), ClassOf(objs[provider.addr])), r)
    {
      if target.None? {
        return Err(NullPointer);
      }
      var methodNameToLookup := MappableName(target.value.annotations);
      if methodNameToLookup.None? {
        return Err(NullPointer);
      }
      if provider.Null? {
        return Err(NullPointer);
      }
      r := ResolveNamed(utils, objs, provider, methodNameToLookup.value);
    }
  }

  /** The lookup and invocation resolve() performs once it has the tag's
      method name and a non-null provider. */
  method ResolveNamed(utils: ReflectionUtils, objs: map<Addr, JObject>, provider: Value, name: string)
    returns (r: Result<Value>)
    requires utils.Valid() && provider.Ref? && provider.addr in objs
    modifies utils.methodsCache
    ensures utils.Valid()
    ensures Resolved(objs, provider, MethodsAlongHierarchy(utils.ct, ClassOf(objs[provider.addr])), name,
                     Lookup(old(utils.methodsCache.entries), ClassOf(objs[provider.addr])), r)
  {
    var clazz := ClassOf(objs[provider.addr]);
    ghost var cached := Lookup(utils.methodsCache.entries, clazz);
    var methodToBeInvokedOnProvider := utils.LookupPropertyResolverAsWritten(name, clazz);
    r := InvokeReflective(objs, provider, methodToBeInvokedOnProvider);
    InvokeFound(objs, provider, MethodsAlongHierarchy(utils.ct, clazz), name, cached, methodToBeInvokedOnProvider);
  }

  /** What resolve() returns for a provider whose class has `methods` along
      its hierarchy, given the cached list for the class before the call: a
      name no method has raises NullPointerException; a success is the
      invocation of a method of that name; for an uncached class every name
      the hierarchy has is found; for a cached class the binary search runs
      over the cached list as it stands. */
  ghost predicate Resolved(objs: map<Addr, JObject>, provider: Value, methods: seq<MethodDecl>, name: string,
                           cached: Option<seq<MethodDecl>>, r: Result<Value>)
  {
    && ((forall m | m in methods :: m.name != name) ==> r == Err(NullPointer))
    && (r.Ok? ==> exists m | m in methods :: m.name == name && r == Invoke(objs, provider, m))
    && (cached.None? && (exists m | m in methods :: m.name == name) ==>
          exists m | m in methods :: m.name == name && r == Invoke(objs, provider, m))
    && (cached.Some? ==>
          r == InvokeReflective(objs, provider, BinarySearch(name, Some(cached.value), 0, |cached.value| - 1)))
  }

  /** Invoking what the lookup found is resolve()'s outcome, given what the
      lookup promises: a found method has the name and is on the hierarchy,
      an uncached class finds every name it has, a cached one searches its
      cached list. */
  lemma InvokeFound(objs: map<Addr, JObject>, provider: Value, methods: seq<MethodDecl>, name: string,
                    cached: Option<seq<MethodDecl>>, found: Option<MethodDecl>)
    requires found.Some? ==> found.value.name == name && found.value in methods
    requires cached.None? ==> (found.Some? <==> exists m :: m in methods && m.name == name)
    requires cached.Some? ==> found == BinarySearch(name, Some(cached.value), 0, |cached.value| - 1)
    ensures Resolved(objs, provider, methods, name, cached, InvokeReflective(objs, provider, found))
  {
    if found.Some? {
      assert InvokeReflective(objs, provider, found) == Invoke(objs, provider, found.value);
    }
  }

  // --------------------------------------------------------- MappingManager

  datatype MappingPolicy = FieldAnnotation | PropertyAccessor

  /** A registered strategy: one of the two implementations. */
  datatype Strategy = Annotated(fam: FieldAnnotatedMapping) | Accessor(pam: PropertyAccessorMapping)
  {
    function Object(): object
    {
      match this
      case Annotated(m) => m
      case Accessor(m) => m
    }

    function Target(): Option<FieldDecl>
      reads Object()
    {
      match this
      case Annotated(m) => m.target
      case Accessor(m) => m.target
    }

    function Provider(): Value
      reads Object()
    {
      match this
      case Annotated(m) => m.provider
      case Accessor(m) => m.provider
    }
  }

  /** The policy discovery picks: the field-annotation strategy exactly when
      the field carries @Mappable; nothing else is consulted. */
  function PolicyOf(field: FieldDecl): (p: MappingPolicy)
    ensures p == FieldAnnotation <==> exists a | a in field.annotations :: a.Mappable?
  {
    if MappableName(field.annotations).Some? then FieldAnnotation else PropertyAccessor
  }

  /** The registry filled once when the class is initialised: one shared
      instance per policy. */
  class MappingManager {
    const mappers: map<MappingPolicy, Strategy>

    predicate Valid()
    {
      && FieldAnnotation in mappers && PropertyAccessor in mappers
      && mappers[FieldAnnotation].Annotated?
      && mappers[PropertyAccessor].Accessor?
      && mappers[FieldAnnotation].fam.annotationClazz == MAPPABLE
    }

    /** The static initialiser. */
    constructor ()
      ensures Valid()
      ensures fresh(mappers[FieldAnnotation].fam) && fresh(mappers[PropertyAccessor].pam)
      ensures mappers[FieldAnnotation].Target() == None && mappers[PropertyAccessor].Target() == None
    {
      var fam := new FieldAnnotatedMapping(MAPPABLE);
      var pam := new PropertyAccessorMapping();
      mappers := map[FieldAnnotation := Annotated(fam), PropertyAccessor := Accessor(pam)];
    }

    /** discovery(field): the registered strategy for the field's policy,
        never null, with its target set to the field. The other strategy and
        both providers are left alone. */
    method Discovery(field: FieldDecl) returns (selected: Strategy)
      requires Valid()
      modifies mappers[FieldAnnotation].fam, mappers[PropertyAccessor].pam
      ensures selected == mappers[PolicyOf(field)]
      ensures selected.Target() == Some(field)
      ensures selected.Provider() == old(selected.Provider())
      ensures var other := mappers[if PolicyOf(field) == FieldAnnotation then PropertyAccessor else FieldAnnotation];
              other.Target() == old(other.Target()) && other.Provider() == old(other.Provider())
    {
      if MappableName(field.annotations).Some? {
        selected := mappers[FieldAnnotation];
        var err := selected.fam.SetTarget(FieldArg(field));
      } else {
        selected := mappers[PropertyAccessor];
        selected.pam.SetTarget(field);
      }
    }

    /** Two discoveries for fields of the same policy return the same shared
        instance, so the first caller now sees the second field as target. */
    method DiscoveryShares(first: FieldDecl, second: FieldDecl) returns (s1: Strategy, s2: Strategy)
      requires Valid() && PolicyOf(first) == PolicyOf(second)
      modifies mappers[FieldAnnotation].fam, mappers[PropertyAccessor].pam
      ensures s1 == s2
      ensures s1.Target() == Some(second)
    {
      s1 := Discovery(first);
      s2 := Discovery(second);
    }
  }
}
