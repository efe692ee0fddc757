/** The Criteria filters of ReflectionUtils: name patterns, exact modifiers,
    compound (children applied left to right), the by-name decorator and the
    field annotation filter. Each filter builds a new list in a loop; the
    loops are proved to compute `Meet`, and `Meet` is proved to keep exactly
    the items a per-item predicate accepts, in their original order. */
module Criteria {
  import opened Jvm
  import opened Strings

  // ------------------------------------------------------------ filtering

  function Filter<T(!new)>(xs: seq<T>, keep: T -> bool): (r: seq<T>)
    ensures |r| <= |xs|
    ensures forall x :: x in r <==> x in xs && keep(x)
  {
    if xs == [] then []
    else if keep(xs[0]) then [xs[0]] + Filter(xs[1..], keep)
    else Filter(xs[1..], keep)
  }

  /** a is b with some elements removed, the rest kept in order. */
  ghost predicate IsSubsequence<T>(a: seq<T>, b: seq<T>)
    decreases |b|
  {
    a == [] || (b != [] && ((a[0] == b[0] && IsSubsequence(a[1..], b[1..])) || IsSubsequence(a, b[1..])))
  }

  /** Filtering only removes: the kept items appear in their original order,
      each kept item as often as in the input and each dropped one not at all. */
  lemma {:induction false} FilterRemovesOnly<T(!new)>(xs: seq<T>, keep: T -> bool)
    ensures IsSubsequence(Filter(xs, keep), xs)
    ensures forall x :: multiset(Filter(xs, keep))[x] == if keep(x) then multiset(xs)[x] else 0
  {
    if xs != [] {
      FilterRemovesOnly(xs[1..], keep);
      assert xs == [xs[0]] + xs[1..];
      if keep(xs[0]) {
        assert Filter(xs, keep)[1..] == Filter(xs[1..], keep);
      }
    }
  }

  lemma {:induction false} FilterAppend<T(!new)>(xs: seq<T>, ys: seq<T>, keep: T -> bool)
    ensures Filter(xs + ys, keep) == Filter(xs, keep) + Filter(ys, keep)
  {
    if xs == [] {
      assert xs + ys == ys;
    } else {
      assert (xs + ys)[0] == xs[0] && (xs + ys)[1..] == xs[1..] + ys;
      FilterAppend(xs[1..], ys, keep);
      if keep(xs[0]) {
        assert [xs[0]] + (Filter(xs[1..], keep) + Filter(ys, keep))
            == ([xs[0]] + Filter(xs[1..], keep)) + Filter(ys, keep);
      }
    }
  }

  lemma {:induction false} FilterTwice<T(!new)>(xs: seq<T>, p: T -> bool, q: T -> bool, both: T -> bool)
    requires forall x :: both(x) == (p(x) && q(x))
    ensures Filter(Filter(xs, p), q) == Filter(xs, both)
  {
    if xs != [] {
      FilterTwice(xs[1..], p, q, both);
    }
  }

  // ------------------------------------------------------------- patterns

  const SEPARATOR: char := '|'

  /** The regular expressions the filters compile. */
  datatype Pattern =
    | GetterPattern               // get[A-Za-z0-9]+|is[A-Za-z0-9]+
    | SetterPattern               // set[A-Za-z0-9]+
    | Alternation(source: string) // n1|n2|...|nk, every ni a literal name

  /** matcher(name).find(): the pattern matches somewhere in the name. */
  predicate Finds(p: Pattern, name: string)
  {
    match p
    case GetterPattern => FindsPrefixedWord(name, "get") || FindsPrefixedWord(name, "is")
    case SetterPattern => FindsPrefixedWord(name, "set")
    case Alternation(src) => exists alt | alt in Split(src, SEPARATOR) :: Contains(name, alt)
  }

  // ------------------------------------------------------ method criteria

  datatype MethodCriteria =
    | NamePattern(pattern: Option<Pattern>)                 // MethodNamePatternCriteria
    | Modifiers(modifiers: int)                             // MethodModifiersCriteria
    | Compound(children: seq<MethodCriteria>)               // MethodCompoundCriteria
    | ByName(delegate: MethodCriteria, alternation: string) // PropertyAccessorByNameCriteria

  /** MethodGetterCriteria and MethodSetterCriteria. */
  const GetterCriteria: MethodCriteria := Compound([NamePattern(Some(GetterPattern)), Modifiers(PUBLIC)])
  const SetterCriteria: MethodCriteria := Compound([NamePattern(Some(SetterPattern)), Modifiers(PUBLIC)])

  /** meetCriteria(items): what each filter returns, or the exception it raises. */
  function Meet(c: MethodCriteria, items: seq<MethodDecl>): Result<seq<MethodDecl>>
    decreases c, 1
  {
    match c
    case NamePattern(None) => Err(PatternNotInitialized)
    case NamePattern(Some(p)) => Ok(Filter(items, (m: MethodDecl) => Finds(p, m.name)))
    case Modifiers(mods) => Ok(Filter(items, (m: MethodDecl) => m.modifiers == mods))
    case Compound(cs) => MeetAll(c, cs, items)
    case ByName(d, alt) =>
      match Meet(d, items)
      case Err(e) => Err(e)
      case Ok(pre) => Ok(Filter(pre, (m: MethodDecl) => Finds(Alternation(alt), m.name)))
  }

  /** The children of a compound, applied left to right, each to the result of
      the one before. */
  function MeetAll(ghost parent: MethodCriteria, cs: seq<MethodCriteria>, items: seq<MethodDecl>): Result<seq<MethodDecl>>
    requires forall k :: 0 <= k < |cs| ==> cs[k] < parent
    decreases parent, 0, |cs|
  {
    if cs == [] then Ok(items)
    else
      match Meet(cs[0], items)
      case Err(e) => Err(e)
      case Ok(next) => MeetAll(parent, cs[1..], next)
  }

  /** Every pattern filter inside c has its pattern. */
  predicate Initialized(c: MethodCriteria)
  {
    match c
    case NamePattern(p) => p.Some?
    case Modifiers(_) => true
    case Compound(cs) => forall k | 0 <= k < |cs| :: Initialized(cs[k])
    case ByName(d, _) => Initialized(d)
  }

  /** The reference reading of a criteria: the test it applies to one method. */
  predicate Accepts(c: MethodCriteria, m: MethodDecl)
  {
    match c
    case NamePattern(p) => p.Some? && Finds(p.value, m.name)
    case Modifiers(mods) => m.modifiers == mods
    case Compound(cs) => forall k | 0 <= k < |cs| :: Accepts(cs[k], m)
    case ByName(d, alt) => Accepts(d, m) && Finds(Alternation(alt), m.name)
  }

  /** A criteria raises exactly when one of its pattern filters lacks its
      pattern, and otherwise keeps exactly the methods it accepts, in order. */
  lemma {:induction false} MeetIsFilter(c: MethodCriteria, items: seq<MethodDecl>)
    ensures Meet(c, items) == if Initialized(c) then Ok(Filter(items, m => Accepts(c, m))) else Err(PatternNotInitialized)
    decreases c, 1
  {
    match c
    case NamePattern(p) =>
      if p.Some? {
        FilterSame(items, (m: MethodDecl) => Finds(p.value, m.name), m => Accepts(c, m));
      }
    case Modifiers(mods) =>
      FilterSame(items, (m: MethodDecl) => m.modifiers == mods, m => Accepts(c, m));
    case Compound(cs) =>
      MeetAllIsFilter(c, cs, 0, items);
      FilterSame(items, m => Accepts(c, m), m => forall k | 0 <= k < |cs| :: Accepts(cs[k], m));
    case ByName(d, alt) =>
      MeetIsFilter(d, items);
      if Initialized(d) {
        var pre := Filter(items, m => Accepts(d, m));
        FilterTwice(items, m => Accepts(d, m), (m: MethodDecl) => Finds(Alternation(alt), m.name), m => Accepts(c, m));
      }
  }

  lemma {:induction false} MeetAllIsFilter(parent: MethodCriteria, cs: seq<MethodCriteria>, from: nat, items: seq<MethodDecl>)
    requires parent == Compound(cs) && from <= |cs|
    ensures MeetAll(parent, cs[from..], items) ==
              if forall k | from <= k < |cs| :: Initialized(cs[k])
              then Ok(Filter(items, m => forall k | from <= k < |cs| :: Accepts(cs[k], m)))
              else Err(PatternNotInitialized)
    decreases parent, 0, |cs| - from
  {
    var tail := cs[from..];
    if from == |cs| {
      FilterAll(items, m => forall k | from <= k < |cs| :: Accepts(cs[k], m));
    } else {
      assert tail[0] == cs[from] && tail[1..] == cs[from + 1..];
      MeetIsFilter(cs[from], items);
      if Initialized(cs[from]) {
        var next := Filter(items, m => Accepts(cs[from], m));
        MeetAllIsFilter(parent, cs, from + 1, next);
        FilterTwice(items, m => Accepts(cs[from], m),
                    m => forall k | from + 1 <= k < |cs| :: Accepts(cs[k], m),
                    m => forall k | from <= k < |cs| :: Accepts(cs[k], m));
      }
    }
  }

  lemma {:induction false} FilterSame<T(!new)>(xs: seq<T>, p: T -> bool, q: T -> bool)
    requires forall x :: p(x) == q(x)
    ensures Filter(xs, p) == Filter(xs, q)
  {
    if xs != [] {
      FilterSame(xs[1..], p, q);
    }
  }

  lemma {:induction false} FilterAll<T(!new)>(xs: seq<T>, p: T -> bool)
    requires forall x :: p(x)
    ensures Filter(xs, p) == xs
  {
    if xs != [] {
      FilterAll(xs[1..], p);
    }
  }

  /** Modifiers are compared for equality, not as a mask: the getter filter
      keeps a public getter and drops a public static one. */
  lemma GetterCriteriaExactModifiers(f: FieldId)
    ensures Accepts(GetterCriteria, MethodDecl("getName", PUBLIC, f))
    ensures !Accepts(GetterCriteria, MethodDecl("getName", PUBLIC + STATIC, f))
  {
    var name := "getName";
    assert GetterCriteria.children[0] == NamePattern(Some(GetterPattern));
    assert GetterCriteria.children[1] == Modifiers(PUBLIC);
    assert OccursAt(name, "get", 0) && IsAsciiAlnum(name[3]);
    assert !Accepts(Modifiers(PUBLIC), MethodDecl("getName", PUBLIC + STATIC, f));
  }

  // ------------------------------------------------------------ the loops

  /** MethodNamePatternCriteria.meetCriteria: the null check comes before the
      loop, so a missing pattern raises even on an empty list. */
  method MeetPattern(pattern: Option<Pattern>, items: seq<MethodDecl>) returns (r: Result<seq<MethodDecl>>)
    ensures r == Meet(NamePattern(pattern), items)
  {
    if pattern.None? {
      return Err(PatternNotInitialized);
    }
    var p := pattern.value;
    ghost var keep := (m: MethodDecl) => Finds(p, m.name);
    var filtered := [];
    for i := 0 to |items|
      invariant filtered == Filter(items[..i], keep)
    {
      FilterAppend(items[..i], [items[i]], keep);
      assert items[..i + 1] == items[..i] + [items[i]];
      var found := FindsName(p, items[i].name);
      if found {
        filtered := filtered + [items[i]];
      }
    }
    assert items[..|items|] == items;
    return Ok(filtered);
  }

  /** Pattern.matcher(name).find() for the three patterns built here. */
  method FindsName(p: Pattern, name: string) returns (b: bool)
    ensures b == Finds(p, name)
  {
    match p
    case GetterPattern =>
      var g := FindsWord(name, "get");
      var i := FindsWord(name, "is");
      b := g || i;
    case SetterPattern =>
      b := FindsWord(name, "set");
    case Alternation(src) =>
      var alts := Split(src, SEPARATOR);
      b := false;
      for k := 0 to |alts|
        invariant b <==> exists j | 0 <= j < k :: Contains(name, alts[j])
      {
        var found := ContainsAt(name, alts[k]);
        b := b || found;
      }
      assert b <==> exists alt | alt in alts :: Contains(name, alt) by {
        forall alt | alt in alts ensures exists j | 0 <= j < |alts| :: alts[j] == alt {
          var j :| 0 <= j < |alts| && alts[j] == alt;
        }
      }
  }

  method FindsWord(s: string, pre: string) returns (b: bool)
    ensures b == FindsPrefixedWord(s, pre)
  {
    b := false;
    for i := 0 to |s|
      invariant b <==> exists j | 0 <= j < i :: OccursAt(s, pre, j) && j + |pre| < |s| && IsAsciiAlnum(s[j + |pre|])
    {
      var hit := i + |pre| < |s| && s[i..i + |pre|] == pre && IsAsciiAlnum(s[i + |pre|]);
      assert hit == (OccursAt(s, pre, i) && i + |pre| < |s| && IsAsciiAlnum(s[i + |pre|]));
      b := b || hit;
    }
  }

  method ContainsAt(s: string, p: string) returns (b: bool)
    ensures b == Contains(s, p)
  {
    b := false;
    for i := 0 to |s| + 1
      invariant b <==> exists j | 0 <= j < i :: OccursAt(s, p, j)
    {
      var hit := i + |p| <= |s| && s[i..i + |p|] == p;
      assert hit == OccursAt(s, p, i);
      b := b || hit;
    }
  }

  /** MethodModifiersCriteria.meetCriteria. */
  method MeetModifiers(mods: int, items: seq<MethodDecl>) returns (r: seq<MethodDecl>)
    ensures Ok(r) == Meet(Modifiers(mods), items)
  {
    ghost var keep := (m: MethodDecl) => m.modifiers == mods;
    r := [];
    for i := 0 to |items|
      invariant r == Filter(items[..i], keep)
    {
      FilterAppend(items[..i], [items[i]], keep);
      assert items[..i + 1] == items[..i] + [items[i]];
      if items[i].modifiers == mods {
        r := r + [items[i]];
      }
    }
    assert items[..|items|] == items;
  }

  /** meetCriteria on any criteria: a compound hands the result of each child
      to the next; the by-name decorator filters with its delegate and then
      with its alternation. */
  method MeetCriteria(c: MethodCriteria, items: seq<MethodDecl>) returns (r: Result<seq<MethodDecl>>)
    ensures r == Meet(c, items)
    decreases c
  {
    match c
    case NamePattern(p) =>
      r := MeetPattern(p, items);
    case Modifiers(mods) =>
      var kept := MeetModifiers(mods, items);
      r := Ok(kept);
    case Compound(cs) =>
      var filtered := items;
      var k := 0;
      while k < |cs|
        invariant 0 <= k <= |cs|
        invariant MeetAll(c, cs, items) == MeetAll(c, cs[k..], filtered)
      {
        assert cs[k..][0] == cs[k] && cs[k..][1..] == cs[k + 1..];
        var next := MeetCriteria(cs[k], filtered);
        if next.Err? {
          return next;
        }
        filtered := next.value;
        k := k + 1;
      }
      r := Ok(filtered);
    case ByName(d, alt) =>
      var pre := MeetCriteria(d, items);
      if pre.Err? {
        return Err(pre.error);
      }
      r := MeetPattern(Some(Alternation(alt)), pre.value);
  }

  /** The PropertyAccessorByNameCriteria constructor: each name followed by
      "|", then the last character deleted; an empty name list leaves nothing
      to delete and raises StringIndexOutOfBoundsException. */
  method BuildAlternation(names: seq<string>) returns (r: Result<string>)
    ensures names == [] ==> r == Err(StringIndexOutOfBounds)
    ensures names != [] ==> r == Ok(Join(names, SEPARATOR))
  {
    var sb: string := [];
    for i := 0 to |names|
      invariant sb == Terminated(names[..i], SEPARATOR)
    {
      TerminatedSnoc(names[..i], names[i], SEPARATOR);
      assert names[..i + 1] == names[..i] + [names[i]];
      sb := sb + names[i] + [SEPARATOR];
    }
    if |sb| == 0 {
      return Err(StringIndexOutOfBounds);
    }
    assert names != [];
    assert names[..|names|] == names;
    TerminatedIsJoin(names, SEPARATOR);
    return Ok(sb[..|sb| - 1]);
  }

  /** new PropertyAccessorByNameCriteria(delegate, names). */
  method NewByName(delegate: MethodCriteria, names: seq<string>) returns (r: Result<MethodCriteria>)
    ensures names == [] ==> r == Err(StringIndexOutOfBounds)
    ensures names != [] ==> r == Ok(ByName(delegate, Join(names, SEPARATOR)))
  {
    var alt := BuildAlternation(names);
    if alt.Err? {
      return Err(alt.error);
    }
    return Ok(ByName(delegate, alt.value));
  }

  /** The alternation built from names without "|" in them matches a method
      name exactly when one of the names occurs in it (find() looks for the
      names anywhere in the method name, not for whole-name equality). */
  lemma AlternationMatchesAnyName(names: seq<string>, name: string)
    requires |names| > 0 && forall k :: 0 <= k < |names| ==> SEPARATOR !in names[k]
    ensures Finds(Alternation(Join(names, SEPARATOR)), name) <==> exists n | n in names :: Contains(name, n)
  {
    SplitJoin(names, SEPARATOR);
  }

  // ---------------------------------------------------- field annotations

  /** The field carries an annotation whose type is one of `types`. */
  predicate Tagged(f: FieldDecl, types: seq<ClassName>)
  {
    exists a | a in f.annotations :: a.AnnotationType() in types
  }

  /** FieldAnnotationCriteria(types).meetCriteria(items). */
  function MeetFields(types: seq<ClassName>, items: seq<FieldDecl>): seq<FieldDecl>
  {
    Filter(items, f => Tagged(f, types))
  }

  /** A field with several matching annotations is still added once: the
      result holds each tagged input field exactly as often as the input. */
  lemma FieldAnnotationAddsOnce(types: seq<ClassName>, items: seq<FieldDecl>)
    ensures forall f :: multiset(MeetFields(types, items))[f] == if Tagged(f, types) then multiset(items)[f] else 0
    ensures IsSubsequence(MeetFields(types, items), items)
  {
    FilterRemovesOnly(items, f => Tagged(f, types));
  }

  lemma FilterOne<T(!new)>(x: T, keep: T -> bool)
    ensures Filter([x], keep) == if keep(x) then [x] else []
  {
    assert [x][1..] == [];
  }

  /** The nested loops of FieldAnnotationCriteria.meetCriteria: a field is
      added once, when its first matching annotation is found. */
  method MeetFieldCriteria(types: seq<ClassName>, items: seq<FieldDecl>) returns (r: seq<FieldDecl>)
    ensures r == MeetFields(types, items)
  {
    ghost var keep := (f: FieldDecl) => Tagged(f, types);
    r := [];
    for i := 0 to |items|
      invariant r == Filter(items[..i], keep)
    {
      FilterAppend(items[..i], [items[i]], keep);
      FilterOne(items[i], keep);
      assert items[..i + 1] == items[..i] + [items[i]];
      var tagged := HasAnnotationIn(items[i], types);
      if tagged {
        r := r + [items[i]];
      }
    }
    assert items[..|items|] == items;
  }

  /** The inner loop: it stops at the first annotation whose type is one of
      `types`. */
  method HasAnnotationIn(f: FieldDecl, types: seq<ClassName>) returns (b: bool)
    ensures b == Tagged(f, types)
  {
    var j := 0;
    while j < |f.annotations|
      invariant 0 <= j <= |f.annotations|
      invariant forall k :: 0 <= k < j ==> f.annotations[k].AnnotationType() !in types
    {
      if f.annotations[j].AnnotationType() in types {
        assert f.annotations[j] in f.annotations;
        return true;
      }
      j := j + 1;
    }
    return false;
  }
}
