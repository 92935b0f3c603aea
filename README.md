# Test-support core of the cache library, in Dafny

This project models the self-contained logic of the cache library's test-support classes and proves properties of it. The cache engine itself is not part of the model. The test-support classes are:

- **ClassToInstanceMap** (`class_to_instance_map.dfy`, module `ClassToInstance`). A class-keyed map whose `put` overwrites in place. `getInstance` answers `null` for a class never put, and `containsKey` is true even for a class put with `null`. The map keeps a ghost history of puts, and every query is proved against the replay of that history.
- **ArbitraryInstances** (`arbitrary_instances.dfy`, module `Arbitrary`). The registry of defaults and type-to-implementation substitutions, and the fixed-priority `get`. `get` tries, in order: a non-null default, the registered implementation (recursively), the empty stream, the first enum constant, an empty array, and then, for a public non-abstract class, construction through the public no-argument constructor. An abstract or non-public class, one without that constructor and one whose constructor throws fall back to the first public static final constant in field-name order (`String.compareTo`, which compares UTF-16 code units). Types are abstract descriptors (`JavaLang.ClassInfo`) rather than reflection. A cycle of implementations is the StackOverflowError it causes in Java.
- **FreshValueGenerator** (`fresh_value_generator.dfy`, module `FreshValues`). The freshness counter starts at 1 and moves on only when a non-null value was produced. The modular pick rule chooses from sample collections and enum constants. The "empty instance already issued at freshness f" record decides when an `@Empty` method may be used again. The scalar generators and the priority chain of `generate` are modelled too. `generate` is an imperative method over the generator's fields, proved equal to a pure function of the freshness level, the samples and the empty-instance record.
- **MapTestSuiteBuilder** (`map_test_suite_builder.dfy`, module `MapSuiteFeatures`). The feature sets derived for the reserialized map and for the entry-set, key-set and values views. Each derived set is characterized feature by feature.
- **CacheBuilderFactory** (`cache_builder_factory.dfy`, module `BuilderFactory`). The recursive cartesian product, with its size, shape, order and distinctness. `DurationSpec.equals` is equality of saturating nanosecond counts. The `with*` setters are modelled as well.

`java_lang.dfy` (module `JavaLang`) holds the Java-level vocabulary shared by all of them:
- object references with `null`;
- thrown exceptions, as `Outcome.Threw`;
- the reflective class descriptor.

## Model

| member | source | states |
|---|---|---|
| ClassToInstance.ReplayLastWriteWins | cache-tests/test/com/github/lafa/cache/collect/ClassToInstanceMap.java:15-17 | After any sequence of puts, a class is in the map exactly when it has a latest put, and it maps to that put's value |
| ClassToInstance.LastPutIffWasPut | cache-tests/test/com/github/lafa/cache/collect/ClassToInstanceMap.java:15-21 | A class has a latest put exactly when it was put at least once |
| ClassToInstance.ClassToInstanceMap.constructor | cache-tests/test/com/github/lafa/cache/collect/ClassToInstanceMap.java:8 | The map starts empty, with no puts |
| ClassToInstance.ClassToInstanceMap.GetInstance | cache-tests/test/com/github/lafa/cache/collect/ClassToInstanceMap.java:10-13 | The value of the latest put for the class, and `null` for a class never put |
| ClassToInstance.ClassToInstanceMap.ContainsKey | cache-tests/test/com/github/lafa/cache/collect/ClassToInstanceMap.java:19-21 | True exactly for the classes that were put, whatever the value |
| ClassToInstance.ClassToInstanceMap.Put | cache-tests/test/com/github/lafa/cache/collect/ClassToInstanceMap.java:15-17 | Overwrites the entry. The class then reads back the new value and is present, and every other class keeps its instance and its presence |
| ClassToInstance.OverwriteScenario | cache-tests/test/com/github/lafa/cache/collect/ClassToInstanceMap.java:8-21 | A second put for a class wins over the first. A class put with `null` is present while its instance is `null` |
| Arbitrary.CodeUnits | cache-tests/test/com/github/lafa/cache/common/testing/ArbitraryInstances.java:141 | The UTF-16 encoding of one character: one code unit below U+10000, its value itself below U+10000 (never a surrogate), otherwise a high and a low surrogate from which the character is recovered |
| Arbitrary.Utf16 | cache-tests/test/com/github/lafa/cache/common/testing/ArbitraryInstances.java:141 | A name as the UTF-16 code units that `String.compareTo` compares, at least one and at most two per character; for a name below U+10000 throughout, exactly its characters' values |
| Arbitrary.Utf16Injective | cache-tests/test/com/github/lafa/cache/common/testing/ArbitraryInstances.java:141 | Different names have different UTF-16 contents |
| Arbitrary.NameLeTotal | cache-tests/test/com/github/lafa/cache/common/testing/ArbitraryInstances.java:138-143 | The field-name order (`String.compareTo`, by UTF-16 code unit) relates every pair of names |
| Arbitrary.NameLeTransitive | cache-tests/test/com/github/lafa/cache/common/testing/ArbitraryInstances.java:138-143 | The field-name order is transitive |
| Arbitrary.NameLeAntisymmetric | cache-tests/test/com/github/lafa/cache/common/testing/ArbitraryInstances.java:138-143 | Two names each at most the other are equal, so the least field name is unique |
| Arbitrary.SupplementarySortsBeforeHighBmp | cache-tests/test/com/github/lafa/cache/common/testing/ArbitraryInstances.java:141 | The order is by code unit, not by character: U+1D400 sorts before U+FF21 although it is the larger character |
| Arbitrary.BmpOrderIsCharOrder | cache-tests/test/com/github/lafa/cache/common/testing/ArbitraryInstances.java:141 | For two characters below U+10000 the order is the character order |
| Arbitrary.SortByNameCorrect | cache-tests/test/com/github/lafa/cache/common/testing/ArbitraryInstances.java:299-300 | Sorting the declared fields by name yields a permutation of them that is ordered by name |
| Arbitrary.ArbitraryConstantInstanceOrNull | cache-tests/test/com/github/lafa/cache/common/testing/ArbitraryInstances.java:297-318 | `null` exactly when no field is a non-null public static final constant of a raw type assignable to the class. Otherwise it is the value of such a field whose name is least among all such fields |
| Arbitrary.CreateEmptyArray | cache-tests/test/com/github/lafa/cache/common/testing/ArbitraryInstances.java:320-322 | An array of the component type with no elements |
| Arbitrary.Lookup | cache-tests/test/com/github/lafa/cache/common/testing/ArbitraryInstances.java:258-295 | The only way `get` fails is a StackOverflowError |
| Arbitrary.LookupOrder | cache-tests/test/com/github/lafa/cache/common/testing/ArbitraryInstances.java:258-295 | The priority chain. A non-null default wins first. The implementation comes next. Without either: the empty stream for `Stream`; the first enum constant, or `null` if there is none; an empty array; constant lookup for an abstract (every interface included) or non-public type; the no-argument constructor's instance, with constant lookup when there is none or it throws |
| Arbitrary.LookupVisitedMonotone | cache-tests/test/com/github/lafa/cache/common/testing/ArbitraryInstances.java:263-266 | A lookup that returns a value does not depend on one more type being on the call stack |
| Arbitrary.InterfaceNeverConstructed | cache-tests/test/com/github/lafa/cache/common/testing/ArbitraryInstances.java:280-282 | An interface with no default and no implementation is never instantiated: it gets the constant lookup, as `Modifier.isAbstract` holds of every interface |
| Arbitrary.OverflowByReentry | cache-tests/test/com/github/lafa/cache/common/testing/ArbitraryInstances.java:263-266 | If marking a type as on the stack causes an overflow, then the chain of implementations reaches that type |
| Arbitrary.CycleOverflows | cache-tests/test/com/github/lafa/cache/common/testing/ArbitraryInstances.java:263-266 | A chain of implementations that comes back to a type already on the stack overflows |
| Arbitrary.GetDelegatesToImplementation | cache-tests/test/com/github/lafa/cache/common/testing/ArbitraryInstances.java:263-266 | With no default but a registered implementation, `get(type)` equals `get(implementation)`, overflow included |
| Arbitrary.ArbitraryInstances.constructor | cache-tests/test/com/github/lafa/cache/common/testing/ArbitraryInstances.java:162 | No implementations are registered yet |
| Arbitrary.ArbitraryInstances.SetImplementation | cache-tests/test/com/github/lafa/cache/common/testing/ArbitraryInstances.java:221-226 | Throws IllegalArgumentException with nothing changed for a type registered to itself or a type with a default. Otherwise it replaces the implementation, and then throws exactly when the type already had one |
| Arbitrary.ArbitraryInstances.Get | cache-tests/test/com/github/lafa/cache/common/testing/ArbitraryInstances.java:258-262 | A non-null `DEFAULTS.getInstance(type)` is returned as it is. The only failure is a StackOverflowError |
| FreshValues.GenerateInt | cache-tests/test/com/github/lafa/cache/common/testing/FreshValueGenerator.java:356-359 | The current freshness, which is at least 1 |
| FreshValues.JavaRem | cache-tests/test/com/github/lafa/cache/common/testing/FreshValueGenerator.java:302 | Java's `%` for a positive divisor: the Euclidean remainder for a non-negative dividend, a remainder in `(-b, 0]` for a negative one, and always congruent to the dividend |
| FreshValues.GenerateBoolean | cache-tests/test/com/github/lafa/cache/common/testing/FreshValueGenerator.java:426-429 | `generateInt() % 2 == 0` with Java's remainder is true exactly at even freshness, negative freshness included |
| FreshValues.BooleanAlternates | cache-tests/test/com/github/lafa/cache/common/testing/FreshValueGenerator.java:426-429 | The boolean alternates from one freshness level to the next and is false at level 1 |
| FreshValues.GenerateShort | cache-tests/test/com/github/lafa/cache/common/testing/FreshValueGenerator.java:396-399 | A signed 16-bit value congruent to the freshness modulo 2^16, equal to it when it fits |
| FreshValues.GenerateByte | cache-tests/test/com/github/lafa/cache/common/testing/FreshValueGenerator.java:406-409 | A signed 8-bit value congruent to the freshness modulo 2^8, equal to it when it fits |
| FreshValues.GenerateString | cache-tests/test/com/github/lafa/cache/common/testing/FreshValueGenerator.java:451-454 | A non-empty string of decimal digits without a leading zero that parses back to the freshness |
| FreshValues.DecimalRoundTrip | cache-tests/test/com/github/lafa/cache/common/testing/FreshValueGenerator.java:451-454 | Parsing `Integer.toString(n)` gives back `n`, for negative `n` too |
| FreshValues.DecimalInjective | cache-tests/test/com/github/lafa/cache/common/testing/FreshValueGenerator.java:451-454 | Different freshness levels give different strings |
| FreshValues.PickInstance | cache-tests/test/com/github/lafa/cache/common/testing/FreshValueGenerator.java:293-304 | The default for a `null` or empty collection, and otherwise an element of the collection |
| FreshValues.PickAt | cache-tests/test/com/github/lafa/cache/common/testing/FreshValueGenerator.java:301-303 | For a non-empty collection the pick is exactly element `(freshness - 1) % size` |
| FreshValues.PickRoundRobin | cache-tests/test/com/github/lafa/cache/common/testing/FreshValueGenerator.java:301-303 | Level `i + 1` picks element `i` of the first `size` elements, and the pick repeats every `size` levels |
| FreshValues.IteratorGet | cache-tests/test/com/github/lafa/cache/common/testing/FreshValueGenerator.java:306-311 | Element `position` when it exists. The first element for a negative position. NoSuchElementException past the end |
| FreshValues.GenerateAt | cache-tests/test/com/github/lafa/cache/common/testing/FreshValueGenerator.java:170-226 | Generation only adds to the empty-instance record. An entry once recorded never changes, and every new entry holds the current freshness |
| FreshValues.GenerateFromGenerators | cache-tests/test/com/github/lafa/cache/common/testing/FreshValueGenerator.java:203-234 | The same record invariant for the `@Generates` and default steps |
| FreshValues.GenerateArgs | cache-tests/test/com/github/lafa/cache/common/testing/FreshValueGenerator.java:205-222 | When the argument loop completes, it holds the earlier arguments followed by exactly one non-null value per remaining parameter. The record only grows |
| FreshValues.SampleFirst | cache-tests/test/com/github/lafa/cache/common/testing/FreshValueGenerator.java:171-176 | A non-null pick from the registered samples is returned before anything else, with the record unchanged |
| FreshValues.EnumPicksConstant | cache-tests/test/com/github/lafa/cache/common/testing/FreshValueGenerator.java:177-179 | Without samples, an enum gets one of its constants, or `null` when it has none |
| FreshValues.ArrayOfOne | cache-tests/test/com/github/lafa/cache/common/testing/FreshValueGenerator.java:180-185 | Without samples, an array type gets an array of length 1 whose only element is generated for the component type. A failure there propagates |
| FreshValues.EmptyFirstRequest | cache-tests/test/com/github/lafa/cache/common/testing/FreshValueGenerator.java:196-201 | The first request for a type with an `@Empty` method returns the empty instance and records the current freshness |
| FreshValues.EmptyKeyedByExactType | cache-tests/test/com/github/lafa/cache/common/testing/FreshValueGenerator.java:188-201 | The record is keyed by the exact type: after the raw class's empty instance was issued at one freshness, a parameterized type or type variable of the same class still gets the empty instance at another freshness, under its own key |
| FreshValues.EmptyRepeatSameFreshness | cache-tests/test/com/github/lafa/cache/common/testing/FreshValueGenerator.java:188-192 | A repeat at the recorded freshness returns the empty instance again and leaves the record as it was |
| FreshValues.EmptyDifferentFreshness | cache-tests/test/com/github/lafa/cache/common/testing/FreshValueGenerator.java:188-195 | At another freshness, generation continues with the `@Generates` step, and the type's recorded freshness is unchanged |
| FreshValues.GeneratorGetsNonNullArgs | cache-tests/test/com/github/lafa/cache/common/testing/FreshValueGenerator.java:208-223 | A `@Generates` method is only called with one non-null argument per parameter |
| FreshValues.RecordBefore | cache-tests/test/com/github/lafa/cache/common/testing/FreshValueGenerator.java:208-222 | The empty-instance record after the first `k` type arguments were generated in order only grows, and its new entries hold the current freshness |
| FreshValues.ArgsStopAtNull | cache-tests/test/com/github/lafa/cache/common/testing/FreshValueGenerator.java:208-222 | From any position, the argument loop ends with no argument list at the first type argument that generates `null` |
| FreshValues.NullArgumentRefuses | cache-tests/test/com/github/lafa/cache/common/testing/FreshValueGenerator.java:170-220 | A `null` argument at any position, after non-null ones, means the `@Generates` method is not called and that step returns `null`, for types with an `@Empty` method too. `generate` returns `null` whenever it reaches that step: no non-null sample, not an enum, and no `@Empty` method usable at this freshness |
| FreshValues.DefaultGenerate | cache-tests/test/com/github/lafa/cache/common/testing/FreshValueGenerator.java:228-234 | With nothing else applicable, an interface gets a proxy whose identity is the freshness, and a class gets `ArbitraryInstances.get` |
| FreshValues.FreshValueGenerator.constructor | cache-tests/test/com/github/lafa/cache/common/testing/FreshValueGenerator.java:124-131 | Freshness 1, with no samples and no empty-instance record |
| FreshValues.FreshValueGenerator.AddSampleInstances | cache-tests/test/com/github/lafa/cache/common/testing/FreshValueGenerator.java:133-137 | Registers or replaces the samples of one raw type and changes nothing else |
| FreshValues.FreshValueGenerator.PickInstanceOf | cache-tests/test/com/github/lafa/cache/common/testing/FreshValueGenerator.java:297-304 | Indexing a list and walking any other collection's iterator both return `PickInstance` |
| FreshValues.FreshValueGenerator.Generate | cache-tests/test/com/github/lafa/cache/common/testing/FreshValueGenerator.java:170-202 | The value and the new empty-instance record are those of `GenerateAt` at the current freshness |
| FreshValues.FreshValueGenerator.UseGenerators | cache-tests/test/com/github/lafa/cache/common/testing/FreshValueGenerator.java:203-234 | The value and record are those of `GenerateFromGenerators`. The argument loop is proved against `GenerateArgs` |
| FreshValues.FreshValueGenerator.GenerateFresh | cache-tests/test/com/github/lafa/cache/common/testing/FreshValueGenerator.java:152-158 | Generates at the current level. Freshness goes up by exactly one when the value is non-null, and otherwise stays |
| FreshValues.FreshValueGenerator.NewFreshProxy | cache-tests/test/com/github/lafa/cache/common/testing/FreshValueGenerator.java:160-164 | A proxy whose identity is the current freshness. Freshness then goes up by exactly one |
| FreshValues.SuccessiveProxiesDiffer | cache-tests/test/com/github/lafa/cache/common/testing/FreshValueGenerator.java:160-164 | Two proxies made one after the other are different, with consecutive identities |
| MapSuiteFeatures.ComputeCommonDerivedCollectionFeatures | cache-tests/test/com/github/lafa/cache/collect/testing/MapTestSuiteBuilder.java:182-211 | A feature is in the result exactly when `CommonMember` holds for it. That means: SERIALIZABLE iff the map is SERIALIZABLE_INCLUDING_VIEWS; never SERIALIZABLE_INCLUDING_VIEWS; a collection feature the map has or one of its three map features carries over; a size the map has |
| MapSuiteFeatures.AddCollectionFeatures | cache-tests/test/com/github/lafa/cache/collect/testing/MapTestSuiteBuilder.java:198-203 | Adds exactly the collection features the copy holds |
| MapSuiteFeatures.AddCollectionSizes | cache-tests/test/com/github/lafa/cache/collect/testing/MapTestSuiteBuilder.java:204-209 | Adds exactly the collection sizes the copy holds |
| MapSuiteFeatures.CommonDerivedRules | cache-tests/test/com/github/lafa/cache/collect/testing/MapTestSuiteBuilder.java:185-209 | The derivation rules:<br>- SERIALIZABLE iff SERIALIZABLE_INCLUDING_VIEWS, and never SERIALIZABLE_INCLUDING_VIEWS;<br>- SUPPORTS_REMOVE, REJECTS_DUPLICATES_AT_CREATION and FAILS_FAST_ON_CONCURRENT_MODIFICATION map to their collection namesakes;<br>- every other collection feature and size of the map is kept;<br>- nothing but collection features and sizes appears |
| MapSuiteFeatures.ComputeReserializedMapFeatures | cache-tests/test/com/github/lafa/cache/collect/testing/MapTestSuiteBuilder.java:139-144 | The map's features minus exactly SERIALIZABLE and SERIALIZABLE_INCLUDING_VIEWS |
| MapSuiteFeatures.ComputeEntrySetFeatures | cache-tests/test/com/github/lafa/cache/collect/testing/MapTestSuiteBuilder.java:146-152 | A superset of the common set, which adds only ALLOWS_NULL_QUERIES, and that exactly for ALLOWS_NULL_ENTRY_QUERIES |
| MapSuiteFeatures.ComputeKeySetFeatures | cache-tests/test/com/github/lafa/cache/collect/testing/MapTestSuiteBuilder.java:154-168 | A superset of the common set, always with SUBSET_VIEW. It adds ALLOWS_NULL_VALUES iff the map has ALLOWS_NULL_KEYS, and otherwise ALLOWS_NULL_QUERIES iff it has ALLOWS_NULL_KEY_QUERIES |
| MapSuiteFeatures.ComputeValuesCollectionFeatures | cache-tests/test/com/github/lafa/cache/collect/testing/MapTestSuiteBuilder.java:170-180 | A superset of the common set that adds ALLOWS_NULL_QUERIES exactly for ALLOWS_NULL_VALUE_QUERIES and ALLOWS_NULL_VALUES exactly for ALLOWS_NULL_VALUES |
| BuilderFactory.ProductAtEnd | cache-tests/test/com/github/lafa/cache/lrucache/CacheBuilderFactory.java:196-197 | At `index == sets.length` the product is exactly one combination, the empty list |
| BuilderFactory.ProductSize | cache-tests/test/com/github/lafa/cache/lrucache/CacheBuilderFactory.java:199-205 | The number of combinations from `index` is the product of the sizes of `sets[index..]` |
| BuilderFactory.ProductEmptyIfAnySetEmpty | cache-tests/test/com/github/lafa/cache/lrucache/CacheBuilderFactory.java:199-205 | One empty set among `sets[index..]` leaves no combination |
| BuilderFactory.ProductShape | cache-tests/test/com/github/lafa/cache/lrucache/CacheBuilderFactory.java:200-203 | Every combination from `index` has length `sets.length - index`. Its position `j` holds an element of `sets[sets.length - 1 - j]` (reverse set order) |
| BuilderFactory.ProductOrder | cache-tests/test/com/github/lafa/cache/lrucache/CacheBuilderFactory.java:199-204 | Combination `i * M + k` is deeper combination `k` with element `i` of `sets[index]` appended: grouped by that set's iteration order |
| BuilderFactory.ProductDistinct | cache-tests/test/com/github/lafa/cache/lrucache/CacheBuilderFactory.java:199-204 | When no set repeats an element, no two combinations are equal |
| BuilderFactory.CartesianProductFrom | cache-tests/test/com/github/lafa/cache/lrucache/CacheBuilderFactory.java:194-207 | The nested loops that re-run the recursion per element return exactly the product from `index` |
| BuilderFactory.CartesianProduct | cache-tests/test/com/github/lafa/cache/lrucache/CacheBuilderFactory.java:187-192 | Throws IllegalArgumentException for fewer than two sets. Otherwise it returns the product from index 0 |
| BuilderFactory.ToNanosIsClampedProduct | cache-tests/test/com/github/lafa/cache/lrucache/CacheBuilderFactory.java:176 | The saturating `TimeUnit.toNanos` is the exact nanosecond count clamped to the `long` range |
| BuilderFactory.Equals | cache-tests/test/com/github/lafa/cache/lrucache/CacheBuilderFactory.java:172-179 | Nothing but a DurationSpec (`null` included) is equal to one. Every spec is equal to itself. Two nanosecond specs are equal exactly when their durations are |
| BuilderFactory.EqualsByNanos | cache-tests/test/com/github/lafa/cache/lrucache/CacheBuilderFactory.java:172-179 | `equals` holds iff the clamped nanosecond counts agree. It is false for anything that is not a DurationSpec, `null` included |
| BuilderFactory.EqualsIsEquivalence | cache-tests/test/com/github/lafa/cache/lrucache/CacheBuilderFactory.java:172-179 | `equals` on specs is reflexive, symmetric and transitive |
| BuilderFactory.EqualAcrossUnits | cache-tests/test/com/github/lafa/cache/lrucache/CacheBuilderFactory.java:172-179 | One second equals a thousand milliseconds and not 999 |
| BuilderFactory.SaturatedDurationsEqual | cache-tests/test/com/github/lafa/cache/lrucache/CacheBuilderFactory.java:176 | Any two durations whose nanosecond counts both exceed `Long.MAX_VALUE` are equal, and so are any two that are both below `Long.MIN_VALUE` |
| BuilderFactory.CacheBuilderFactory.constructor | cache-tests/test/com/github/lafa/cache/lrucache/CacheBuilderFactory.java:44-51 | All eight option sets start empty |
| BuilderFactory.CacheBuilderFactory.WithConcurrencyLevels | cache-tests/test/com/github/lafa/cache/lrucache/CacheBuilderFactory.java:53-56 | Replaces the concurrency levels with the given set and changes nothing else |
| BuilderFactory.CacheBuilderFactory.WithInitialCapacities | cache-tests/test/com/github/lafa/cache/lrucache/CacheBuilderFactory.java:58-61 | Replaces the initial capacities and changes nothing else |
| BuilderFactory.CacheBuilderFactory.WithMaximumSizes | cache-tests/test/com/github/lafa/cache/lrucache/CacheBuilderFactory.java:63-66 | Replaces the maximum sizes and changes nothing else |
| BuilderFactory.CacheBuilderFactory.WithExpireAfterWrites | cache-tests/test/com/github/lafa/cache/lrucache/CacheBuilderFactory.java:68-71 | Replaces the write expirations and changes nothing else |
| BuilderFactory.CacheBuilderFactory.WithExpireAfterAccesses | cache-tests/test/com/github/lafa/cache/lrucache/CacheBuilderFactory.java:73-76 | Replaces the access expirations and changes nothing else |
| BuilderFactory.CacheBuilderFactory.WithRefreshes | cache-tests/test/com/github/lafa/cache/lrucache/CacheBuilderFactory.java:78-81 | Replaces the refresh durations and changes nothing else |
| BuilderFactory.CacheBuilderFactory.WithKeyStrengths | cache-tests/test/com/github/lafa/cache/lrucache/CacheBuilderFactory.java:83-87 | Stores the strengths. It then throws IllegalArgumentException exactly when SOFT is among them, with the rejected set already stored |
| BuilderFactory.CacheBuilderFactory.WithValueStrengths | cache-tests/test/com/github/lafa/cache/lrucache/CacheBuilderFactory.java:89-92 | Replaces the value strengths and changes nothing else |

## Left out

- The cache engine: `CacheBuilder`, `LocalCache` and the tests of `Splitter`, `Preconditions` and `Throwables`. Their implementations are not part of this model.
- `CacheBuilderFactory.buildAllPermutations` and `createCacheBuilder`. They only call into `CacheBuilder`, which is not part of this model. As written, `buildAllPermutations` passes one set of seven sets as a single argument, so it could not produce the builders it names.
- `DurationSpec.hashCode` and `toString`. The hash uses `(duration, unit)`, so it does not agree with `equals` (one second and a thousand milliseconds are equal); nothing here claims that it does.
- Reflection:
  - Classes are abstract `ClassInfo` descriptors. `getDeclaredFields`, `getConstructor` and `newInstance` become fields of that descriptor.
  - `TypeToken` resolution is reduced to one token per declared type parameter. A token records whether it is the raw class, a parameterized type or a type variable (by declaring class and name), which is what tells apart the keys of the empty-instance record. Wildcards and the finer equality of `ParameterizedType` (owner type) are not modelled.
  - `@Generates` and `@Empty` methods are opaque total functions of the freshness level (and the arguments). Exceptions thrown by a generator method and their wrapping by `invokeGeneratorMethod` are not modelled.
  - The concrete generator methods are not modelled: collections, `float`/`double`, `Charset`, `Locale`, `Currency` and `preJava7FreshCurrency`. Neither are the concrete contents of `DEFAULTS` and of the static `setImplementation` calls.
- Proxies are `Proxy(interface, identity)` values, equal when the interface and the handler identity agree. In Java, proxy equality goes through `AbstractInvocationHandler`, which is not part of this model. `FreshInvocationHandler.equals` itself compares only the identity; the model's equality is right only if `AbstractInvocationHandler` also requires the same proxy interfaces, as the upstream library's version does. `interfaceMethodCalled` is not modelled.
- BuilderFactory.Equals: a DurationSpec whose `unit` is `null` throws a NullPointerException from `equals` in Java. The model's `TimeUnit` has no `null`, so that path is not modelled.
- FreshValues.FreshValueGenerator.AddSampleInstances: Java keeps the caller's collection by reference, so later changes by the caller change future picks. The model stores the collection's contents at the time of the call.
- FreshValues.GenerateAt: the model does not require that a `ClassType` token names a non-array class. Java treats every array type through the array branch. A `ClassType` whose raw class is an array class has no Java counterpart, and the model then answers through the later branches instead.
- `Array.set` of a `null` element into an array of a primitive component type (an IllegalArgumentException in Java) is not modelled. Primitive types always have a `@Generates` method, so `generate` does not return `null` for them.
- FreshValues.GenerateInt: freshness is an unbounded integer of at least 1. The wrap-around of the 32-bit `AtomicInteger` after 2^31 - 1 increments is not modelled, and neither is the failing pick that would follow. `PickInstance`, `GenerateInt` and `GenerateString` require freshness of at least 1, as the source's own comment that `generateInt()` is 1-based assumes.
- `null` arguments:
  - `addSampleInstances` with a `null` type or collection (a NullPointerException from `checkNotNull`);
  - a `null` array of sets for `cartesianProduct`;
  - a `null` set for a `with*` setter.

  These cannot be expressed with the model's value types. `null` entries inside the option sets are `None`.
- Object identity and aliasing:
  - The `with*` setters' `LinkedHashSet` copies and the fresh `ArrayList`s of the cartesian product are values in the model.
  - "No two combinations share a list" is captured only as distinct contents when the sets have distinct elements (`ProductDistinct`), not as distinct objects.
  - `computeCommonDerivedCollectionFeatures` cannot change its caller's set, because sets are values.
- Concurrency: the concurrent maps and the atomic counter are modelled as sequential state.
- The constants of `CollectionFeature`, `MapFeature` and `CollectionSize` are declared in files that are not part of this model. The model lists them in the order of the upstream collection test library. Every constant the modelled code names is among them, and `Feature.OtherFeature` stands for every other kind of feature.
- `ArbitraryInstances.get`:
  - The AssertionError branches for exceptions the source calls impossible are not modelled.
  - The logging of a throwing constructor is not modelled.
  - The unbounded recursion of a cycle of implementations is modelled as the StackOverflowError it ends in.
- Test-suite scaffolding is not part of this model:
  - `createDerivedSuites`, the reserialized-map generator and the tester classes;
  - `ClassPathUtil`, which reads system properties and the file system.
