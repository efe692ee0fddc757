# dynamicmapper, modelled in Dafny

dynamicmapper is a Java library with two jobs. It maps an object onto an instance of an unrelated
destination class: each destination field tagged `@Mappable(methodName = ...)` receives a deep copy of
what the named getter of the source object returns. It also deep-copies object graphs
(`deepCopyOf`). This project models the library's core and proves properties of the model:

- the access-ordered LRU cache (`LRUCache`);
- the reflection helper (`ReflectionUtils`): hierarchy walks and their caches, the method filters
  (`Criteria`), the name-sorted binary search, leaf classification and reflective instantiation;
- the mapper (`ModelMapper`): `map`, `mapList`, `deepCopyOf` / `recursiveReflectiveDeepCopy`, and its
  own accessor cache and lookup;
- the legacy strategies (`PropertyAccessorMapping`, `FieldAnnotatedMapping`) and their registry
  (`MappingManager`);
- the collection implementation table (`CollectionFactory`).

Java reflection becomes an explicit world. A class table (`Jvm.ClassTable`) lists every class with its
superclass link, declared fields and methods, primitive flag, whether it has a public
parameterless constructor, and what that constructor leaves in the fields of a new object. A heap
(`Jvm.Heap`) holds instances, arrays and collections at addresses.
A method is modelled as an accessor that returns one field of its receiver. Every exception the
library raises or lets through is a value of `Jvm.Error`, carried in a `Result`.

Modules, one per source concern:

| file | module | models |
|---|---|---|
| jvm.dfy | Jvm | classes, fields, methods, annotations, objects, `Field.set`, `Array.set`, `Collection.add`, `Method.invoke` |
| strings.dfy | Strings | `String.compareTo`, ASCII `Character.toUpperCase`, substring search, the `|` join |
| lru.dfy | Lru | `LRUCache`, a class over a sequence of entries ordered from least to most recently accessed |
| search.dfy | Search | `binarySearch` and `Collections.sort` by method name |
| hierarchy.dfy | Hierarchy | the superclass walk and the leaf ("well-known immutable") classification |
| criteria.dfy | Criteria | the method and field filters and their `meetCriteria` loops |
| reflectionutils.dfy | ReflectionUtils | the `ReflectionUtils` instance, its two caches and its operations |
| collectionfactory.dfy | CollectionFactory | `FrameWorkSupportedTypesEnum` and `newInstanceOf` |
| copyspec.dfy | CopySpec | what a deep copy is, as a relation between a source object and its copy |
| mapspec.dfy | MapSpec | what `map` and `mapList` produce, as relations |
| modelmapper.dfy | ModelMapper | `ModelMapper`'s methods, proved against CopySpec and MapSpec |
| policy.dfy | Policy | the two strategies and `MappingManager` |

The deep copy and `map` are imperative methods over the heap. Their postconditions say that the new
objects, in the address range they allocated, stand in the relation `CopySpec.Copied` or
`MapSpec.Mapped` to the source. Those relations follow the Java code case by case:

- null gives null;
- a leaf object is shared;
- an array gets a new array of copied slots, or null when its component type is primitive and a
  slot copies to null (`Array.set` cannot store null there);
- a collection gets a new collection of its registered implementation, or null when the name is not
  registered. The copies of the elements are added in iteration order: a list keeps all of them, a
  `HashSet` keeps one of each;
- an instance gets a new object of its class. Null and final fields keep what the parameterless
  constructor left in them, leaf-typed fields are shared, a field pointing to the object itself
  points to the copy, and other fields are copied. The fields visited are those along the class
  hierarchy. Without a default constructor the copy is null.

Recursion is bounded by a ghost rank on the source objects: every reference goes to a lower-ranked
object, except a reference from an instance to itself.

Where the specification of the library and its code disagree, the model follows the code:

- `map` has no visited set and no split between copying and re-mapping. It deep-copies every getter
  result, so only a direct self-reference in a copied value is handled.
- The fields walk caches its result under the class variable's final value, not under the class asked
  for. This is finding 1 below. Such a cache only ever holds entries for null and Object, so for
  every other class the walk runs afresh (`ReflectionUtils.AsWrittenKeysGet`). The deep copy and
  `map` therefore use the walk itself; what this leaves out for Object is listed under Left out.
- The hierarchy walks include the class asked for even when it is `java.lang.Object`.
- The convention strategy calls two helpers that the code does not define. They are parameters here.

The accessor cache of `ModelMapper` is keyed by the source class only, as in the code
(ModelMapper.java:68,77). A list cached while mapping to one destination class is reused for every
other destination class. `ModelMapper.Map`'s contract states this: on a hit, `used` is the cached
list.

## Model

| member | source | states |
|---|---|---|
| Jvm.Invoke | dynamicmapper/src/main/java/com/dynamicmapper/commons/ReflectionUtils.java:215-221 | invoking an accessor succeeds exactly when the receiver is a live instance holding the accessed field, and returns that field's value; a null receiver gives NullPointerException |
| Jvm.Heap.Alloc | dynamicmapper/src/main/java/com/dynamicmapper/mapper/ModelMapper.java:227 | `Array.newInstance`, a constructor call or `new ArrayList<>` puts the new object at the next free address, which no object held, and changes nothing else |
| Jvm.IsPrimitive | dynamicmapper/src/main/java/com/dynamicmapper/commons/ReflectionUtils.java:266 | `Class.isPrimitive()`, read from the class table; the leaf test and the array copy use it |
| Jvm.Heap.SetField | dynamicmapper/src/main/java/com/dynamicmapper/mapper/ModelMapper.java:139-146 | `Field.set` changes only the one field of the one object and allocates nothing |
| Jvm.Heap.SetSlot | dynamicmapper/src/main/java/com/dynamicmapper/mapper/ModelMapper.java:231 | `Array.set` changes only slot i of the one array |
| Jvm.Heap.Add | dynamicmapper/src/main/java/com/dynamicmapper/mapper/ModelMapper.java:240 | `Collection.add` appends the value to a list; a `HashSet` that already holds it is left as it was; nothing else changes |
| Jvm.CollectList | dynamicmapper/src/main/java/com/dynamicmapper/mapper/ModelMapper.java:237-241 | adding values one by one to a new list leaves exactly those values, in order |
| Jvm.CollectSet | dynamicmapper/src/main/java/com/dynamicmapper/mapper/ModelMapper.java:237-241 | adding values one by one to a new `HashSet` leaves the same values, each once, so no more than were added |
| Strings.Compare | dynamicmapper/src/main/java/com/dynamicmapper/commons/ReflectionUtils.java:31-36 | the comparator's sign is in {-1, 0, 1} and is 0 exactly for equal names |
| Strings.CompareFlip | dynamicmapper/src/main/java/com/dynamicmapper/commons/ReflectionUtils.java:31-36 | the comparator is antisymmetric |
| Strings.CompareTrans | dynamicmapper/src/main/java/com/dynamicmapper/commons/ReflectionUtils.java:31-36 | the comparator is transitive, strictly when either step is strict, so sorting by it is well defined |
| Strings.ToUpper | dynamicmapper/src/main/java/com/dynamicmapper/mapper/policy/PropertyAccessorMapping.java:32 | a lower-case ASCII letter becomes its capital; every other character is unchanged |
| Strings.TerminatedIsJoin | dynamicmapper/src/main/java/com/dynamicmapper/commons/ReflectionUtils.java:401-406 | appending `name|` per name and deleting the last character yields the names joined by `|` |
| Strings.SplitJoin | dynamicmapper/src/main/java/com/dynamicmapper/commons/ReflectionUtils.java:411-413 | splitting the joined alternation at `|` gives back the names when no name contains `|` |
| Lru.IndexOf | dynamicmapper/src/main/java/com/dynamicmapper/commons/LRUCache.java:13 | the position found holds the key and no earlier entry does; -1 exactly when the key is absent |
| Lru.LruCache.constructor | dynamicmapper/src/main/java/com/dynamicmapper/commons/LRUCache.java:18-21 | a new cache is empty and remembers its capacity |
| Lru.LruCache.Get | dynamicmapper/src/main/java/com/dynamicmapper/commons/LRUCache.java:13-21 | get returns the key's value and, when found, moves its entry to the most recently accessed end; the invariant (distinct keys, ordered by last access, at most capacity) is kept |
| Lru.LruCache.Put | dynamicmapper/src/main/java/com/dynamicmapper/commons/LRUCache.java:13-32 | put stores (k, v) as the most recently accessed entry and evicts the eldest when the size would exceed the capacity; the invariant is kept |
| Lru.LruCache.ContainsKey | dynamicmapper/src/main/java/com/dynamicmapper/commons/LRUCache.java:13 | containsKey is true exactly for keys with an entry and does not reorder |
| Lru.MoveToBackKeepsOrder | dynamicmapper/src/main/java/com/dynamicmapper/commons/LRUCache.java:19 | moving an accessed entry to the back keeps keys distinct and entries ordered by last access |
| Lru.LruCache.Size | dynamicmapper/src/main/java/com/dynamicmapper/commons/LRUCache.java:31 | `size()`, the number of entries; that it never exceeds the capacity is the contract of Lru.PutKeepsBound |
| Lru.LruCache.RemoveEldestEntry | dynamicmapper/src/main/java/com/dynamicmapper/commons/LRUCache.java:30-32 | the hook asks for eviction exactly when the size exceeds the capacity; what that does to the cache is the contract of Lru.LruCache.Put, Lru.PutKeepsBound and Lru.PutEvictsLeastRecentlyAccessed |
| Lru.PutKeepsBound | dynamicmapper/src/main/java/com/dynamicmapper/commons/LRUCache.java:30-32 | after any put the cache holds at most `capacity` entries |
| Lru.PutThenLookup | dynamicmapper/src/main/java/com/dynamicmapper/commons/LRUCache.java:13-32 | a get right after put(k, v) returns v when the capacity is positive; with capacity 0 the put leaves the cache empty |
| Lru.PutEvictsLeastRecentlyAccessed | dynamicmapper/src/main/java/com/dynamicmapper/commons/LRUCache.java:30-32 | a put of a new key into a full cache removes exactly the entry whose last access is the oldest, and keeps the size |
| Lru.PutExistingKey | dynamicmapper/src/main/java/com/dynamicmapper/commons/LRUCache.java:13-21 | re-putting a present key keeps the size and the key set, makes the entry most recent, and leaves every other key's value alone |
| Lru.GetHit | dynamicmapper/src/main/java/com/dynamicmapper/commons/LRUCache.java:19 | a get that finds its key keeps size, keys and all values, and leaves that key most recently accessed |
| Lru.GetMiss | dynamicmapper/src/main/java/com/dynamicmapper/commons/LRUCache.java:19 | a get on an absent key returns nothing and changes nothing |
| Lru.MovedEntryKeepsContents | dynamicmapper/src/main/java/com/dynamicmapper/commons/LRUCache.java:19 | reordering an entry keeps the size, the key set and every other key's value |
| Lru.GetKeepsEntries | dynamicmapper/src/main/java/com/dynamicmapper/commons/LRUCache.java:19 | get only reorders: every entry afterwards was an entry before |
| Lru.PutKeepsEntries | dynamicmapper/src/main/java/com/dynamicmapper/commons/LRUCache.java:30-32 | put adds no entry other than (k, v) |
| Lru.ScenarioFill | dynamicmapper/src/main/java/com/dynamicmapper/commons/LRUCache.java:18-32 | inserting 1..4 into a capacity-4 cache keeps them all, in insertion order |
| Lru.ScenarioTouch | dynamicmapper/src/main/java/com/dynamicmapper/commons/LRUCache.java:19 | reading key 1 moves it behind 2, 3 and 4 |
| Lru.ScenarioEvict | dynamicmapper/src/main/java/com/dynamicmapper/commons/LRUCache.java:30-32 | inserting 5 and then 6 evicts 2 and then 3, not the recently read 1 |
| Lru.ScenarioFinal | dynamicmapper/src/main/java/com/dynamicmapper/commons/LRUCache.java:18-32 | afterwards 2 and 3 are absent and 1 still maps to "a" |
| Lru.EvictionScenario | dynamicmapper/src/main/java/com/dynamicmapper/commons/LRUCache.java:18-32 | the same run through the cache's own methods: 1 is found, 2 and 3 are gone, the size is 4 |
| Search.SortByName | dynamicmapper/src/main/java/com/dynamicmapper/commons/ReflectionUtils.java:197 | `Collections.sort` by name yields a name-sorted permutation of the list |
| Search.InsertByName | dynamicmapper/src/main/java/com/dynamicmapper/commons/ReflectionUtils.java:197 | inserting into a sorted list keeps it sorted and adds exactly the one element |
| Search.BinarySearch | dynamicmapper/src/main/java/com/dynamicmapper/commons/ReflectionUtils.java:285-301 | a null list or an empty range gives null; anything found has the name searched for |
| Search.BinarySearchSound | dynamicmapper/src/main/java/com/dynamicmapper/commons/ReflectionUtils.java:285-301 | what the search returns is an element of the searched range |
| Search.BinarySearchStep | dynamicmapper/src/main/java/com/dynamicmapper/commons/ReflectionUtils.java:290-299 | one step compares with the midpoint `(end + start) >> 1` and recurses left or right |
| Search.BinarySearchComplete | dynamicmapper/src/main/java/com/dynamicmapper/commons/ReflectionUtils.java:285-301 | on a name-sorted list the search finds every name present in the range |
| Search.SearchSortedList | dynamicmapper/src/main/java/com/dynamicmapper/commons/ReflectionUtils.java:285-301 | on a sorted list the search succeeds exactly when some method has the name |
| Search.SearchAfterSort | dynamicmapper/src/main/java/com/dynamicmapper/commons/ReflectionUtils.java:195-202 | sorting and then searching finds a method of the list exactly when the list has one with that name |
| Search.UnsortedListMisses | dynamicmapper/src/main/java/com/dynamicmapper/commons/ReflectionUtils.java:285-301 | on the unsorted list [getB, getC, getA] the search for getA finds nothing |
| Hierarchy.NextInWalk | dynamicmapper/src/main/java/com/dynamicmapper/commons/ReflectionUtils.java:128-131 | the walk's next class is a class of the table, not Object, strictly higher in the hierarchy, so the do/while loop ends |
| Hierarchy.Chain | dynamicmapper/src/main/java/com/dynamicmapper/commons/ReflectionUtils.java:128-131 | the classes the walk visits start with the class asked for and are otherwise proper ancestors other than Object |
| Hierarchy.MethodsAlongHierarchy | dynamicmapper/src/main/java/com/dynamicmapper/commons/ReflectionUtils.java:123-135 | the methods declared by each class of the walk, most-derived first; which methods it holds is the contract of Hierarchy.MethodsAlongHierarchyMembers |
| Hierarchy.FieldsAlongHierarchy | dynamicmapper/src/main/java/com/dynamicmapper/commons/ReflectionUtils.java:236-248 | the fields declared by each class of the walk, most-derived first; which fields it holds, and that none is repeated, are the contracts of Hierarchy.FieldsAlongHierarchyMembers and Hierarchy.FieldIdsDistinct |
| Hierarchy.MethodsAlongHierarchyMembers | dynamicmapper/src/main/java/com/dynamicmapper/commons/ReflectionUtils.java:123-135 | a method is collected exactly when some visited class declares it |
| Hierarchy.FieldsAlongHierarchyMembers | dynamicmapper/src/main/java/com/dynamicmapper/commons/ReflectionUtils.java:242-246 | a field is collected exactly when some visited class declares it, and then its declaring class is visited |
| Hierarchy.FieldIdsDistinct | dynamicmapper/src/main/java/com/dynamicmapper/commons/ReflectionUtils.java:242-246 | no field is collected twice |
| Hierarchy.ObjectOnlyWhenAsked | dynamicmapper/src/main/java/com/dynamicmapper/commons/ReflectionUtils.java:128-131 | Object's members are collected only when Object itself is asked for |
| Hierarchy.IsWellKnownImmutable | dynamicmapper/src/main/java/com/dynamicmapper/commons/ReflectionUtils.java:265-270 | the leaf test on a class: primitive, String, a direct subclass of Number, or Boolean; its verdicts on any JVM are the contract of Hierarchy.LeafTest and Hierarchy.CharacterIsNotALeaf, and on a sample table of Hierarchy.LeafClassification |
| Hierarchy.ObjectIsWellKnownImmutable | dynamicmapper/src/main/java/com/dynamicmapper/commons/ReflectionUtils.java:167-169 | false for null, otherwise the leaf test on the runtime class; see Hierarchy.LeafTestObjects and Hierarchy.LeafObjects |
| Hierarchy.LeafTest | dynamicmapper/src/main/java/com/dynamicmapper/commons/ReflectionUtils.java:265-270 | on the class table of any JVM: Object, Number and every array class are not leaves; String, Boolean and every direct subclass of Number are |
| Hierarchy.LeafTestObjects | dynamicmapper/src/main/java/com/dynamicmapper/commons/ReflectionUtils.java:167-169 | on any JVM: null and every array object are not leaves |
| Hierarchy.CharacterIsNotALeaf | dynamicmapper/src/main/java/com/dynamicmapper/commons/ReflectionUtils.java:259-270 | as written: `Character` is not a leaf, while every other primitive wrapper is |
| Hierarchy.IsWellKnownImmutableCorrected | dynamicmapper/src/main/java/com/dynamicmapper/commons/ReflectionUtils.java:259-270 | the test as documented: the library's test, or `Character` |
| Hierarchy.WrappersAreLeaves | dynamicmapper/src/main/java/com/dynamicmapper/commons/ReflectionUtils.java:259-270 | corrected: every primitive wrapper is a leaf, and the corrected test differs from the library's on `Character` alone |
| Hierarchy.LeafClassification | dynamicmapper/src/main/java/com/dynamicmapper/commons/ReflectionUtils.java:265-270 | primitives, String, Boolean and every direct subclass of Number (AtomicLong included) are leaves; Number, Object and array classes are not |
| Hierarchy.LeafObjects | dynamicmapper/src/main/java/com/dynamicmapper/commons/ReflectionUtils.java:167-169 | null is never a leaf; an object is a leaf by its runtime class, so an Integer object is one and an Integer array is not |
| Criteria.Filter | dynamicmapper/src/main/java/com/dynamicmapper/commons/ReflectionUtils.java:354-360 | the filtered list holds exactly the kept elements and is no longer than the input |
| Criteria.FilterRemovesOnly | dynamicmapper/src/main/java/com/dynamicmapper/commons/ReflectionUtils.java:354-360 | filtering keeps order and multiplicity of the kept elements and removes the rest |
| Criteria.FilterAppend | dynamicmapper/src/main/java/com/dynamicmapper/commons/ReflectionUtils.java:354-360 | filtering distributes over concatenation, so the walk's per-class lists can be filtered one by one |
| Criteria.FilterTwice | dynamicmapper/src/main/java/com/dynamicmapper/commons/ReflectionUtils.java:329-334 | applying two filters in turn is filtering by their conjunction |
| Criteria.MeetIsFilter | dynamicmapper/src/main/java/com/dynamicmapper/commons/ReflectionUtils.java:307-417 | every method criteria is a filter by its `Accepts` test, and fails exactly when some pattern filter has no pattern |
| Criteria.MeetAllIsFilter | dynamicmapper/src/main/java/com/dynamicmapper/commons/ReflectionUtils.java:328-335 | a compound criteria keeps the methods every child accepts |
| Criteria.GetterCriteriaExactModifiers | dynamicmapper/src/main/java/com/dynamicmapper/commons/ReflectionUtils.java:384-392 | the getter filter keeps a public getter but drops a public static one, because modifiers are compared with `==` |
| Criteria.MeetPattern | dynamicmapper/src/main/java/com/dynamicmapper/commons/ReflectionUtils.java:349-361 | the pattern filter's loop computes the reference filter and raises when the pattern is missing |
| Criteria.FindsName | dynamicmapper/src/main/java/com/dynamicmapper/commons/ReflectionUtils.java:356 | the matcher's find() agrees with the reference reading of each of the three patterns |
| Criteria.FindsWord | dynamicmapper/src/main/java/com/dynamicmapper/commons/ReflectionUtils.java:366 | the search for `pre[A-Za-z0-9]+` agrees with its reference predicate |
| Criteria.ContainsAt | dynamicmapper/src/main/java/com/dynamicmapper/commons/ReflectionUtils.java:356 | the substring search agrees with its reference predicate |
| Criteria.MeetModifiers | dynamicmapper/src/main/java/com/dynamicmapper/commons/ReflectionUtils.java:384-392 | the modifiers filter's loop computes the reference filter |
| Criteria.MeetCriteria | dynamicmapper/src/main/java/com/dynamicmapper/commons/ReflectionUtils.java:307-417 | meetCriteria on any criteria computes the reference result |
| Criteria.BuildAlternation | dynamicmapper/src/main/java/com/dynamicmapper/commons/ReflectionUtils.java:398-407 | the names joined by `|`; an empty name list raises at deleteCharAt(-1) |
| Criteria.NewByName | dynamicmapper/src/main/java/com/dynamicmapper/commons/ReflectionUtils.java:398-407 | the by-name criteria carries the joined names, or construction fails on an empty list |
| Criteria.AlternationMatchesAnyName | dynamicmapper/src/main/java/com/dynamicmapper/commons/ReflectionUtils.java:409-415 | the alternation pattern finds a method name exactly when one of the names occurs in it |
| Criteria.FieldAnnotationAddsOnce | dynamicmapper/src/main/java/com/dynamicmapper/commons/ReflectionUtils.java:426-438 | a field with several matching annotations is still kept once, in its original position |
| Criteria.MeetFieldCriteria | dynamicmapper/src/main/java/com/dynamicmapper/commons/ReflectionUtils.java:426-438 | the annotation filter's nested loops compute the reference filter |
| Criteria.HasAnnotationIn | dynamicmapper/src/main/java/com/dynamicmapper/commons/ReflectionUtils.java:430-435 | the inner loop with break answers whether some annotation has one of the types |
| ReflectionUtils.WalkEnd | dynamicmapper/src/main/java/com/dynamicmapper/commons/ReflectionUtils.java:242-246 | when the walk ends the class variable holds null or Object |
| ReflectionUtils.WalkFields | dynamicmapper/src/main/java/com/dynamicmapper/commons/ReflectionUtils.java:240-246 | the do/while loop collects the fields along the hierarchy and leaves the class variable at the walk's end |
| ReflectionUtils.WalkMethods | dynamicmapper/src/main/java/com/dynamicmapper/commons/ReflectionUtils.java:125-131 | the do/while loop collects the methods along the hierarchy |
| ReflectionUtils.GetDeclaredFieldsAsWritten | dynamicmapper/src/main/java/com/dynamicmapper/commons/ReflectionUtils.java:231-257 | as written: a miss returns the walk's (filtered) fields but caches them under the walk's end class, null or Object; a cache holding only such keys keeps only such keys, and for any class other than Object the result is the walk's fields |
| ReflectionUtils.AsWrittenKeysGet | dynamicmapper/src/main/java/com/dynamicmapper/commons/ReflectionUtils.java:236 | in a cache keyed only by null and Object, a lookup of any other class misses, and a get keeps the keys so |
| ReflectionUtils.AsWrittenKeysPut | dynamicmapper/src/main/java/com/dynamicmapper/commons/ReflectionUtils.java:248 | storing under the walk's end keeps the cache keyed only by null and Object |
| ReflectionUtils.StaleObjectFields | dynamicmapper/src/main/java/com/dynamicmapper/commons/ReflectionUtils.java:248 | after collecting Person's fields, a request for Object's fields returns Person's |
| ReflectionUtils.FieldsCacheHit | dynamicmapper/src/main/java/com/dynamicmapper/commons/ReflectionUtils.java:236 | with the corrected key, a cached field list is the walk of the class it is cached under |
| ReflectionUtils.FieldsCachePut | dynamicmapper/src/main/java/com/dynamicmapper/commons/ReflectionUtils.java:248 | storing the walk under the class asked for keeps the fields cache sound |
| ReflectionUtils.MethodsCacheHit | dynamicmapper/src/main/java/com/dynamicmapper/commons/ReflectionUtils.java:123 | a cached method list is a permutation of the methods along its class's hierarchy |
| ReflectionUtils.MethodsCachePut | dynamicmapper/src/main/java/com/dynamicmapper/commons/ReflectionUtils.java:133 | storing such a permutation keeps the methods cache sound |
| ReflectionUtils.InvokeReflective | dynamicmapper/src/main/java/com/dynamicmapper/commons/ReflectionUtils.java:215-221 | a null method raises NullPointerException; otherwise the accessor is invoked |
| ReflectionUtils.GetterByNameIsFilter | dynamicmapper/src/main/java/com/dynamicmapper/commons/ReflectionUtils.java:409-415 | the by-name getter filter keeps exactly the public getters whose name contains one of the names |
| ReflectionUtils.SearchFindsInHierarchy | dynamicmapper/src/main/java/com/dynamicmapper/commons/ReflectionUtils.java:200-202 | searching any cached arrangement of the hierarchy's methods returns only a method of the hierarchy with that name |
| ReflectionUtils.SortedSearchComplete | dynamicmapper/src/main/java/com/dynamicmapper/commons/ReflectionUtils.java:195-202 | searching a sorted arrangement finds a method exactly when the hierarchy has one with that name |
| ReflectionUtils.ReflectionUtils.constructor | dynamicmapper/src/main/java/com/dynamicmapper/commons/ReflectionUtils.java:39-42 | the instance starts with two empty caches of capacity 100 |
| ReflectionUtils.ReflectionUtils.GetDeclaredFieldsAlongTheHierarchy | dynamicmapper/src/main/java/com/dynamicmapper/commons/ReflectionUtils.java:231-257 | corrected: null gives an empty list; otherwise the fields along the hierarchy, filtered by the annotation types when any are given, cached under the class asked for |
| ReflectionUtils.ReflectionUtils.GetClazzFieldsAlongTheHierarchy | dynamicmapper/src/main/java/com/dynamicmapper/commons/ReflectionUtils.java:107-109 | all fields along the hierarchy, unfiltered |
| ReflectionUtils.ReflectionUtils.GetDeclaredFieldsAnnotatedWith | dynamicmapper/src/main/java/com/dynamicmapper/commons/ReflectionUtils.java:95-97 | the fields along the hierarchy that carry the annotation, in walk order |
| ReflectionUtils.ReflectionUtils.GetClazzDeclaredMethodsAlongTheHierarchy | dynamicmapper/src/main/java/com/dynamicmapper/commons/ReflectionUtils.java:121-136 | a hit returns the cached list; a miss walks, returns the methods in declaration order and caches them; either way the result is a permutation of the hierarchy's methods and is cached afterwards |
| ReflectionUtils.ReflectionUtils.LookupPropertyResolverAsWritten | dynamicmapper/src/main/java/com/dynamicmapper/commons/ReflectionUtils.java:192-203 | as written: complete only when the class was not cached; on a cached list it is the binary search of that list as it stands |
| ReflectionUtils.ReflectionUtils.GetCachedMethods | dynamicmapper/src/main/java/com/dynamicmapper/commons/ReflectionUtils.java:200 | the cached list of a cached class, a permutation of its hierarchy's methods |
| ReflectionUtils.ReflectionUtils.CacheSortedMethods | dynamicmapper/src/main/java/com/dynamicmapper/commons/ReflectionUtils.java:195-199 | walk, sort by name, cache: the cached list is a sorted permutation of the hierarchy's methods |
| ReflectionUtils.ReflectionUtils.LookupPropertyResolver | dynamicmapper/src/main/java/com/dynamicmapper/commons/ReflectionUtils.java:192-203 | corrected: returns a method of the hierarchy with the name, and finds one exactly when one exists |
| ReflectionUtils.ReflectionUtils.GetMethodsByNameCriteria | dynamicmapper/src/main/java/com/dynamicmapper/commons/ReflectionUtils.java:145-157 | the public getters whose name contains one of the names; an empty name list and a count different from the number of names raise |
| ReflectionUtils.HasDefaultConstructor | dynamicmapper/src/main/java/com/dynamicmapper/commons/ReflectionUtils.java:72-86 | whether getConstructor() finds a public parameterless constructor; what follows from it is the contract of ReflectionUtils.NewInstanceOf |
| ReflectionUtils.NewInstanceOf | dynamicmapper/src/main/java/com/dynamicmapper/commons/ReflectionUtils.java:72-86 | without a public parameterless constructor it raises and allocates nothing; otherwise one new instance, DefaultInstance, and nothing else changes |
| ReflectionUtils.DefaultInstance | dynamicmapper/src/main/java/com/dynamicmapper/commons/ReflectionUtils.java:79 | the new object has the class asked for, exactly one slot per field along its hierarchy, and in each slot the value the constructor leaves there |
| ReflectionUtils.UnsortedCacheMissesMethod | dynamicmapper/src/main/java/com/dynamicmapper/commons/ReflectionUtils.java:195-201 | after the methods of C are cached unsorted, the as-written lookup misses getA while the corrected one finds it |
| CollectionFactory.SupportedType.ClassName | dynamicmapper/src/main/java/com/dynamicmapper/commons/CollectionFactory.java:21-38 | `getClassName()`, the name the entry was declared with; that every entry is found by it is the contract of CollectionFactory.LookupOwnName, and the five names are listed by CollectionFactory.TableContents |
| CollectionFactory.SupportedType.Type | dynamicmapper/src/main/java/com/dynamicmapper/commons/CollectionFactory.java:21-42 | `getType()`, the implementation instantiated for the entry; CollectionFactory.TableContents lists them, a HashSet for the two set names |
| CollectionFactory.Lookup | dynamicmapper/src/main/java/com/dynamicmapper/commons/CollectionFactory.java:44-50 | a found entry answers to exactly the name; an unsupported name raises with that name, and then no entry answers to it |
| CollectionFactory.FirstMatch | dynamicmapper/src/main/java/com/dynamicmapper/commons/CollectionFactory.java:44-50 | a match is a table entry with exactly that name; there is none exactly when no entry has the name |
| CollectionFactory.FirstMatchAt | dynamicmapper/src/main/java/com/dynamicmapper/commons/CollectionFactory.java:44-49 | the first entry in declaration order with the name is the one returned |
| CollectionFactory.ForClazzFullQualifiedName | dynamicmapper/src/main/java/com/dynamicmapper/commons/CollectionFactory.java:44-51 | the for-each loop returns what the lookup over values() specifies, or raises |
| CollectionFactory.TableContents | dynamicmapper/src/main/java/com/dynamicmapper/commons/CollectionFactory.java:21-25 | the five names map to HashSet, ArrayList, ArrayList, LinkedList and HashSet |
| CollectionFactory.ConcreteArrayListUnsupported | dynamicmapper/src/main/java/com/dynamicmapper/commons/CollectionFactory.java:50 | "java.util.ArrayList" is not registered and raises, with no fallback |
| CollectionFactory.LookupOwnName | dynamicmapper/src/main/java/com/dynamicmapper/commons/CollectionFactory.java:44-49 | every entry is found by its own name |
| CollectionFactory.LookupSucceedsIffRegistered | dynamicmapper/src/main/java/com/dynamicmapper/commons/CollectionFactory.java:44-50 | lookup succeeds exactly for registered names and returns an entry with that exact name |
| CollectionFactory.NewInstanceOf | dynamicmapper/src/main/java/com/dynamicmapper/commons/CollectionFactory.java:54-70 | an unregistered name raises and allocates nothing; otherwise one new empty collection of the registered implementation |
| MapSpec.MappableName | dynamicmapper/src/main/java/com/dynamicmapper/mapper/ModelMapper.java:83 | the tag's method name exists exactly when the field carries `@Mappable`, and is that tag's name |
| MapSpec.FieldSource | dynamicmapper/src/main/java/com/dynamicmapper/mapper/ModelMapper.java:83-84 | an untagged field raises NullPointerException; a value read is what some cached accessor with the tag's name returns |
| MapSpec.FieldSourceSorted | dynamicmapper/src/main/java/com/dynamicmapper/mapper/ModelMapper.java:169-174 | on a sorted accessor list, a tagged field reads through a getter with the tag's name when the list has one, and raises NullPointerException exactly when it has none |
| MapSpec.FirstFailure | dynamicmapper/src/main/java/com/dynamicmapper/mapper/ModelMapper.java:81-87 | there is no failure exactly when every visited field can be read |
| MapSpec.FirstFailureAt | dynamicmapper/src/main/java/com/dynamicmapper/mapper/ModelMapper.java:81-87 | the exception map raises is that of the first unreadable field in loop order |
| MapSpec.MappedFieldsOfWalk | dynamicmapper/src/main/java/com/dynamicmapper/mapper/ModelMapper.java:67 | the tagged fields are slots of the destination, no two alike, so each slot is written at most once |
| ModelMapper.RecursiveReflectiveDeepCopy | dynamicmapper/src/main/java/com/dynamicmapper/mapper/ModelMapper.java:216-271 | the result is a deep copy of the value (CopySpec.Copied) made only of objects newly allocated by the call; no existing object changes; the limits of the model are listed under Left out |
| ModelMapper.DeepCopyOf | dynamicmapper/src/main/java/com/dynamicmapper/mapper/ModelMapper.java:123-125 | deepCopyOf is the recursive deep copy: the same relation, the same new objects, no existing object changed; the limits are those of ModelMapper.RecursiveReflectiveDeepCopy |
| ModelMapper.CopyArray | dynamicmapper/src/main/java/com/dynamicmapper/mapper/ModelMapper.java:226-233 | a new array of the same component type and length whose slots are copies of the source slots; when the component type is primitive and a slot copies to null, `Array.set` raises and the copy is null, and a successful copy of such an array holds no null |
| ModelMapper.CopyCollection | dynamicmapper/src/main/java/com/dynamicmapper/mapper/ModelMapper.java:235-244 | a new collection of the registered implementation into which the element copies were added in iteration order, or null for an unregistered class |
| CopySpec.CharacterCopiesToNull | dynamicmapper/src/main/java/com/dynamicmapper/mapper/ModelMapper.java:246-248 | on any JVM the copy of a `Character` object is null: it is not a leaf and has no public parameterless constructor |
| CopySpec.CharArrayCopiesToNull | dynamicmapper/src/main/java/com/dynamicmapper/mapper/ModelMapper.java:226-233 | on any JVM the copy of a non-empty `char[]` is null: each boxed `Character` copies to null, which `Array.set` cannot store |
| CopySpec.CollectionCopiedList | dynamicmapper/src/main/java/com/dynamicmapper/mapper/ModelMapper.java:235-244 | when the implementation is a list, the copy has the source's length and slot i holds the copy of element i |
| CopySpec.CollectionCopiedSet | dynamicmapper/src/main/java/com/dynamicmapper/mapper/ModelMapper.java:235-244 | when the implementation is `HashSet`, the copy has no duplicates and is no longer than the source; each of its elements copies some source element, and each source element's copy is among them |
| ModelMapper.CopyInstance | dynamicmapper/src/main/java/com/dynamicmapper/mapper/ModelMapper.java:246-266 | a new object of the same class whose fields are copied field by field, or null without a default constructor |
| ModelMapper.FieldValue | dynamicmapper/src/main/java/com/dynamicmapper/mapper/ModelMapper.java:255-263 | a leaf-typed field is shared, a self-reference points to the copy, anything else is deep-copied |
| ModelMapper.AccessorsCacheGet | dynamicmapper/src/main/java/com/dynamicmapper/mapper/ModelMapper.java:68 | a cached accessor list is sorted by name and made of methods of its class; a get keeps the cache so |
| ModelMapper.AccessorsCachePut | dynamicmapper/src/main/java/com/dynamicmapper/mapper/ModelMapper.java:76-77 | storing a sorted list of the class's methods keeps the cache so |
| ModelMapper.ModelMapper.constructor | dynamicmapper/src/main/java/com/dynamicmapper/mapper/ModelMapper.java:47-49 | the accessor cache starts empty with capacity 100 |
| ModelMapper.ModelMapper.Map | dynamicmapper/src/main/java/com/dynamicmapper/mapper/ModelMapper.java:61-89 | null source or class gives null; otherwise, in order: the accessor error, the missing constructor, the first unreadable field, or a new destination whose tagged fields hold deep copies of the getters' values and whose other fields keep the constructor's values; a cache hit reuses the list cached for the source class |
| ModelMapper.ModelMapper.MapList | dynamicmapper/src/main/java/com/dynamicmapper/mapper/ModelMapper.java:102-113 | null list or class gives null; otherwise a new ArrayList whose i-th element is the map of the i-th source, in order and of the same length, each read through a name-sorted list of getters of that source's own class |
| ModelMapper.ModelMapper.MapElement | dynamicmapper/src/main/java/com/dynamicmapper/mapper/ModelMapper.java:108-111 | one loop step maps the element and appends the result to the list, extending the per-element relation by one |
| ModelMapper.ModelMapper.MapItem | dynamicmapper/src/main/java/com/dynamicmapper/mapper/ModelMapper.java:109 | a null element maps to null; a mapped element is a new object standing in the Mapped relation to its source, through a name-sorted list of getters of the source's class; the limits of ModelMapper.ModelMapper.Map under Left out apply |
| ModelMapper.ModelMapper.NewMapped | dynamicmapper/src/main/java/com/dynamicmapper/mapper/ModelMapper.java:80-88 | instantiate the destination, then fill its fields: the outcome is MapOutcome with no accessor error; untagged fields keep the fixed initial values (Left out) |
| ModelMapper.ModelMapper.ResolveAccessors | dynamicmapper/src/main/java/com/dynamicmapper/mapper/ModelMapper.java:68-78 | a hit returns the cached list; a miss returns the sorted by-name getters and caches them, or the error getMethodsByNameCriteria raises, leaving the cache unchanged |
| ModelMapper.ModelMapper.StoreAccessors | dynamicmapper/src/main/java/com/dynamicmapper/mapper/ModelMapper.java:76-77 | the list is put into the accessor cache and is its most recent entry |
| ModelMapper.ModelMapper.FindAccessors | dynamicmapper/src/main/java/com/dynamicmapper/mapper/ModelMapper.java:72-76 | the filtered getters, sorted by name: a sorted permutation of the by-name getters, or the filter's error |
| ModelMapper.ModelMapper.LookupPropertyResolver | dynamicmapper/src/main/java/com/dynamicmapper/mapper/ModelMapper.java:169-174 | an uncached class raises NullPointerException; otherwise the binary search of the cached list, which finds a name exactly when the list has it |
| ModelMapper.ModelMapper.CachedResolver | dynamicmapper/src/main/java/com/dynamicmapper/mapper/ModelMapper.java:169-174 | for the class just cached, the lookup searches exactly the list map is using and leaves the cache as it was |
| ModelMapper.ModelMapper.MapFields | dynamicmapper/src/main/java/com/dynamicmapper/mapper/ModelMapper.java:81-88 | the field loop stops with the first unreadable field's exception, or returns the destination with every tagged field holding its deep copy |
| ModelMapper.ModelMapper.MapField | dynamicmapper/src/main/java/com/dynamicmapper/mapper/ModelMapper.java:82-86 | one loop step: an unreadable field raises and changes nothing; otherwise the loop relation extends by one field |
| ModelMapper.ModelMapper.ReadField | dynamicmapper/src/main/java/com/dynamicmapper/mapper/ModelMapper.java:83-84 | the value read is the field's FieldSource on the source |
| ModelMapper.StoreField | dynamicmapper/src/main/java/com/dynamicmapper/mapper/ModelMapper.java:85-86 | the value's deep copy is stored in the destination field, extending the loop relation by one field |
| Policy.AccessorPrefix | dynamicmapper/src/main/java/com/dynamicmapper/mapper/policy/PropertyAccessorMapping.java:34-39 | the prefix is "is" exactly for a field declared as boxed Boolean, and "get" otherwise, primitive boolean included |
| Policy.MethodNameToLookup | dynamicmapper/src/main/java/com/dynamicmapper/mapper/policy/PropertyAccessorMapping.java:29-41 | an empty name raises StringIndexOutOfBoundsException; otherwise the prefix, then the first character upper-cased, then the rest of the name unchanged |
| Policy.DerivedNameIsGetterName | dynamicmapper/src/main/java/com/dynamicmapper/mapper/policy/PropertyAccessorMapping.java:29-41 | for a name starting with an ASCII letter or digit, the derived name passes the getter pattern `get[A-Za-z0-9]+|is[A-Za-z0-9]+` |
| Policy.CaseOfFirstLetterIsLost | dynamicmapper/src/main/java/com/dynamicmapper/mapper/policy/PropertyAccessorMapping.java:31-33 | fields "url" and "Url" of one type look up the same accessor |
| Policy.DerivedNameDeterminesField | dynamicmapper/src/main/java/com/dynamicmapper/mapper/policy/PropertyAccessorMapping.java:29-41 | equal derived names mean the same Boolean-ness, the same name length, the same name after the first character, and first characters equal up to case |
| Policy.PropertyAccessorMapping.constructor | dynamicmapper/src/main/java/com/dynamicmapper/mapper/policy/PropertyAccessorMapping.java:11-12 | provider and target start null |
| Policy.PropertyAccessorMapping.SetProvider | dynamicmapper/src/main/java/com/dynamicmapper/mapper/policy/PropertyAccessorMapping.java:14-17 | stores the provider and leaves the target |
| Policy.PropertyAccessorMapping.SetTarget | dynamicmapper/src/main/java/com/dynamicmapper/mapper/policy/PropertyAccessorMapping.java:18-20 | stores the target and leaves the provider |
| Policy.PropertyAccessorMapping.Resolve | dynamicmapper/src/main/java/com/dynamicmapper/mapper/policy/PropertyAccessorMapping.java:21-27 | a null target or provider raises NullPointerException and an empty field name StringIndexOutOfBoundsException; otherwise the accessor picked among the provider's getters for the derived name is invoked on the provider, and a missing one raises NullPointerException |
| Policy.FieldAnnotatedMapping.constructor | dynamicmapper/src/main/java/com/dynamicmapper/mapper/policy/FieldAnnotatedMapping.java:17-19 | remembers the tag type; provider and target start null |
| Policy.FieldAnnotatedMapping.SetProvider | dynamicmapper/src/main/java/com/dynamicmapper/mapper/policy/FieldAnnotatedMapping.java:20-22 | stores the provider and leaves the target |
| Policy.FieldAnnotatedMapping.SetTarget | dynamicmapper/src/main/java/com/dynamicmapper/mapper/policy/FieldAnnotatedMapping.java:23-29 | null or a non-Field raises and keeps the old target; a Field becomes the target; the provider is untouched |
| Policy.FieldAnnotatedMapping.Resolve | dynamicmapper/src/main/java/com/dynamicmapper/mapper/policy/FieldAnnotatedMapping.java:30-34 | no target, no tag or no provider raises NullPointerException; otherwise the outcome Resolved describes for the tag's name, verbatim |
| Policy.ResolveNamed | dynamicmapper/src/main/java/com/dynamicmapper/mapper/policy/FieldAnnotatedMapping.java:32-33 | with the as-written lookup: a name no method of the provider's hierarchy has raises NullPointerException; a result is the invocation of a method with that name; an uncached class finds every name its hierarchy has; a cached class gets the binary search of its cached list as it stands |
| Policy.PolicyOf | dynamicmapper/src/main/java/com/dynamicmapper/mapper/policy/MappingManager.java:22-27 | the field-annotation policy exactly when the field carries `@Mappable`; no other signal counts |
| Policy.MappingManager.constructor | dynamicmapper/src/main/java/com/dynamicmapper/mapper/policy/MappingManager.java:13-17 | both policies are registered, each with one new shared instance, targets null |
| Policy.MappingManager.Discovery | dynamicmapper/src/main/java/com/dynamicmapper/mapper/policy/MappingManager.java:19-30 | returns the registered (never null) instance for the field's policy with its target set to the field; the other instance and both providers are unchanged |
| Policy.MappingManager.DiscoveryShares | dynamicmapper/src/main/java/com/dynamicmapper/mapper/policy/MappingManager.java:19-30 | two discoveries of the same policy return the same instance, so the first caller now sees the second field as target |

## Findings

| source | as written | input that shows it | evidently intended | confidence | as-written member | corrected member |
|---|---|---|---|---|---|---|
| dynamicmapper/src/main/java/com/dynamicmapper/commons/ReflectionUtils.java:245-248 | the walk reassigns `clazz` and then caches the collected fields under it, which by then is null or Object | collect the fields of `Person extends Object`; then ask for the fields of Object: Person's fields come back | cache under the class asked for | high (not executed) | ReflectionUtils.GetDeclaredFieldsAsWritten, ReflectionUtils.StaleObjectFields | ReflectionUtils.ReflectionUtils.GetDeclaredFieldsAlongTheHierarchy |
| dynamicmapper/src/main/java/com/dynamicmapper/commons/ReflectionUtils.java:195-201 | the list is sorted only when the class is not cached yet; a list that getClazzDeclaredMethodsAlongTheHierarchy cached earlier is searched in declaration order | class C declaring getB, getC, getA, after getClazzDeclaredMethodsAlongTheHierarchy(C): lookupPropertyResolver("getA", C) returns null | binary search over a name-sorted list | high (not executed) | ReflectionUtils.ReflectionUtils.LookupPropertyResolverAsWritten, ReflectionUtils.UnsortedCacheMissesMethod | ReflectionUtils.ReflectionUtils.LookupPropertyResolver |
| dynamicmapper/src/main/java/com/dynamicmapper/commons/ReflectionUtils.java:259-270 | the leaf test admits primitive classes, String, the direct subclasses of Number and Boolean; `Character`, whose superclass is Object, is left out although the documentation promises every primitive wrapper | deepCopyOf of a `Character`, of an object with a `Character` field, or of a non-empty `char[]`: `Character` has no public parameterless constructor, so that copy is null | every primitive wrapper, `Character` included, is a leaf and is shared | high (not executed) | Hierarchy.CharacterIsNotALeaf, CopySpec.CharacterCopiesToNull, CopySpec.CharArrayCopiesToNull | Hierarchy.IsWellKnownImmutableCorrected, Hierarchy.WrappersAreLeaves |

The deep copy and `map` walk the hierarchy directly, as the corrected member of the first row does.
`FieldAnnotatedMapping` is modelled with the library's own lookup: Policy.FieldAnnotatedMapping.Resolve
and Policy.ResolveNamed call ReflectionUtils.ReflectionUtils.LookupPropertyResolverAsWritten, so the
second row's missed method can reach them, and their contracts say so. The deep copy keeps the
library's leaf test of the third row, so a `Character` copies to null there, as it does in Java.

## Left out

- The double-checked-locking singleton of `ReflectionUtils` and all thread safety: one explicit
  instance is passed around, and calls are sequential.
- The three-argument `getDeclaredFieldsAnnotatedWithTraversingClazzHierarchy` called by `map`
  (ModelMapper.java:67) does not exist in the code; it is modelled by the two-argument version.
- `collectPropertyAccessorNamesFromMetaData` (ModelMapper.java:72) does not exist in the code; it is
  the parameter `collectNames` of `Map` and `MapList`.
- `gettersOf` and `lookupPropertyResolver(String, List)` (PropertyAccessorMapping.java:24-25) do not
  exist in the code; they are the parameters of `PropertyAccessorMapping.Resolve`, with no contract.
- `FieldAnnotatedMapping.setTarget(Object)` does not match the interface's `setTarget(Field)`. The
  model accepts any argument, as the class's own method does; `Discovery` always passes a field.
- `java.util.regex` in general: only the three patterns the library compiles are modelled (the getter
  pattern, the setter pattern and an alternation of names). The alternation is read as a choice of
  literal names. A name holding a regular-expression metacharacter such as `$`, `.`, `(` or `[` would
  change what the pattern matches, and a name that makes the pattern malformed would make
  `Pattern.compile` raise `PatternSyntaxException` (ReflectionUtils.java:411-413); neither is modelled.
- CopySpec.CollectionCopied: `HashSet` membership is decided by reference identity, with null equal
  to null, not by `equals`/`hashCode`. Copies are new objects (distinct unless their class overrides
  `equals`), and shared leaves such as strings were already distinct in the source set. The elements
  of a `HashSet` are kept in insertion order, not hash order.
- ModelMapper.CopyCollection: as for CopySpec.CollectionCopied, whose relation it establishes.
- ModelMapper.CopyArray: the slots of an array of a primitive type hold references to the boxed
  values that `Array.get` returns. A new box per read is not modelled: the same box is read each time.
  `Array.set` of a null copy into such an array raises, and that is modelled; a box of the wrong
  type for the component (which a deep copy never produces) is not.
- Static fields: every field is an instance slot. The default value of a primitive field is whatever
  the class's `initial` map says, null when absent.
- ReflectionUtils.NewInstanceOf: the parameterless constructor is modelled by a fixed value per field
  (`ClassDecl.initial`). A constructor or field initialiser that allocates objects (`new
  ArrayList<>()`, a nested value object), has other side effects on the heap, or throws is not
  modelled. Such an initial value is not new per object and is shared by every object of the class.
- ModelMapper.CopyInstance: the fields are taken from the walk itself (`FieldsAlongHierarchy`). The
  library goes through the fields cache as written (finding 1), which only ever holds entries for
  null and Object. The difference shows only for an object of class `java.lang.Object` itself. Java
  then gets whatever fields were last cached under Object: those of the last class or array class
  walked. Reading such a field from a plain Object raises, so the deep copy of `new Object()` can be
  null in Java while the model makes a new Object.
- ModelMapper.ModelMapper.Map: the destination's fields come from the walk itself, not the as-written
  fields cache. They differ only for the destination class `java.lang.Object`, where Java can get
  another class's tagged fields and raise when it sets them. Untagged fields keep the fixed initial
  values of ReflectionUtils.NewInstanceOf.
- ModelMapper.ModelMapper.NewMapped: the untagged fields of the new destination keep the fixed
  initial values of ReflectionUtils.NewInstanceOf, with the same limits.
- ModelMapper.ModelMapper.MapItem: the same limits as ModelMapper.ModelMapper.Map, for each element.
- ModelMapper.RecursiveReflectiveDeepCopy: the limits listed for ReflectionUtils.NewInstanceOf (fixed
  initial values), CopySpec.CollectionCopied (`HashSet` by identity), ModelMapper.CopyInstance
  (Object's fields cache) and ModelMapper.CopyArray (boxing).
- ModelMapper.DeepCopyOf: the same limits as ModelMapper.RecursiveReflectiveDeepCopy.
- Strings.ToUpper: only the ASCII letters a-z are upper-cased. `Character.toUpperCase` also maps
  other letters (é to É, for example). The derived accessor names of such fields are not modelled.
- Policy.MethodNameToLookup: the first letter of the field name is upper-cased by Strings.ToUpper,
  so ASCII only; a field whose name starts with another letter gets a different accessor name.
- Strings.Compare: characters are compared as Unicode scalar values. `String.compareTo` compares
  UTF-16 code units, which orders differently when a character outside the Basic Multilingual Plane
  is compared with one in U+E000..U+FFFF. Method names with such characters are not modelled.
- Lru.LruCache.constructor: the capacity is a natural number. In Java a negative capacity makes the
  `LinkedHashMap` constructor raise `IllegalArgumentException`; the library only ever passes 100.
- `Field.set` with a value of the wrong type, and accessibility (`setAccessible`): every stored value
  is accepted.
- Cycles longer than a self-reference: Java overflows the stack (an `Error`, not caught), so the
  deep copy and `map` require a ranked, otherwise acyclic, source graph.
- `testCyclicReferenceOnMappingAndPass`: `map` cannot make a destination refer to itself, so that test
  expectation is not a property of the model.
- ModelMapper.ModelMapper.MapList: on an error the contract says only that some element was a
  reference, not which element failed or with which exception, and not what was allocated before.
  Each mapped element has the limits of ModelMapper.ModelMapper.Map (fixed initial values, and the
  walk instead of the fields cache for the destination class Object). Each element's accessor list
  is a name-sorted list of getters of that element's class. Which list the accessor cache held for
  the class at that point, and so which getter names it has, is not stated.
- Jvm.Invoke: a method is modelled by the field it reads, and `Method.invoke` runs the method found,
  not the override in the receiver's class that Java's virtual dispatch would run. A subclass that
  overrides a getter of its superclass is not modelled: the walk collects both, and the binary search
  may return either.
- Search.BinarySearchStep: indices are unbounded integers. The midpoint `(end + start) >> 1`
  (ReflectionUtils.java:290, ModelMapper.java:193) would overflow Java's `int` only for lists of
  about 2^30 methods, which no class has.
- Sorting is the pure function `Search.SortByName` (insertion by name), not an in-place stable merge
  sort. Only the sorted-permutation property is used.
- The classes and fields of the program are a fixed table: no class loading, no generics.
- The `annotationClazz` of `FieldAnnotatedMapping` is required to be `Mappable.class`, the only class
  its type `Class<? extends Mappable>` admits besides null.
