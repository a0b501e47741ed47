# Duck-typing and reflection helpers of the OpenTelemetry .NET auto-instrumentation

This project models, in Dafny, three cooperating helpers that let instrumentation code
reach into objects whose concrete type is unknown at build time:

- `MemberResult<T>` (module `Emit`): the outcome of a reflective member lookup, `Found(value)`
  or `NotFound`, with null-propagating navigation (`GetProperty`, `GetField`, `CallMethod`)
  and text rendering. `Found(null)` is a member that exists and holds null; it is not
  `NotFound`. Chains of navigations are modelled as sequences of hops (`Emit.Chain`).
- `PropertyFetcher` (module `Util`): a fetcher for one property name that looks the property up
  on the first runtime type it meets, compiles an accessor, and keeps `(type, accessor)` in a
  single slot until a different type arrives. It is a class whose fields `expectedType` and
  `fetchForExpectedType` the fetch methods overwrite, plus a ghost count of lookups. The nested
  `PropertyFetch<T>` is the datatype `PropertyFetch` (default-returning or compiled accessor).
- `DuckAttribute` / `DuckKind` (module `DuckTyping`): the binding directive, an immutable record
  with declared defaults, one-property setters, attribute-initializer lists and the registry
  from decorated members to their one directive.

The .NET reflection runtime is an oracle (module `Reflection`): each runtime type has a table
of properties in declaration order and a set of ancestors, and property getters are an opaque
function. `Type.GetProperty(name, flags)` selects the first property the name and the binding
flags admit. The `Try*` lookups used by `MemberResult` are function parameters, as is the
conversion of a property value to the requested result type (`Util.Conversion`). Nullness of a
generic `T` is the parameter `isNull`, and `default(T)` is the parameter `zero`.

## Behaviour worth knowing

- The fetcher's lookup scope is `Public | NonPublic | Instance | IgnoreCase`
  (src/OpenTelemetry.AutoInstrumentation/Util/PropertyFetcher.cs:62), not the duck-typing
  default scope: static properties are never found, and names compare ignoring case.
- Compiling an accessor can raise (a property without a getter, no conversion to `T`). It raises
  before the slot is written, so the slot keeps its previous type and the next fetch with the same
  type looks the property up and raises again: the failure is not detected once and remembered.
- `Fetch(obj)` on null raises in `obj.GetType()`. `Fetch(obj, objType)` with a null `objType`
  raises too, on a fresh fetcher as well as on a bound one.
- A fetcher built with a null property name raises an argument-null exception in the lookup of
  every fetch whose type differs from the cached one; its slot is never filled.

## Model

| member | source | states |
|---|---|---|
| `Reflection.FirstMatch` | src/OpenTelemetry.AutoInstrumentation/Util/PropertyFetcher.cs:62 | the property lookup yields the first property in table order that the name and flags admit, and nothing exactly when no property is admitted |
| `Util.LookupFlagsSelectInstanceProperties` | src/OpenTelemetry.AutoInstrumentation/Util/PropertyFetcher.cs:62 | the fetcher's flags admit a property iff it is an instance property whose name equals the requested one ignoring case, public or not |
| `Util.FetcherLookup` | src/OpenTelemetry.AutoInstrumentation/Util/PropertyFetcher.cs:62 | a found property belongs to the type, is not static and matches ignoring case; nothing is found iff every property of that name up to case is static |
| `Util.LookupFlagsDifferFromDuckDefaults` | src/OpenTelemetry.AutoInstrumentation/Util/PropertyFetcher.cs:62 | a static property that the duck-typing default scope finds is not found by the fetcher |
| `Util.PropertyFetch.Fetch` | src/OpenTelemetry.AutoInstrumentation/Util/PropertyFetcher.cs:80-125 | the default accessor returns `default(T)` for every object; the compiled one raises a null reference on null, an invalid cast on an object that is not an instance of the declaring type, and on an instance returns or raises exactly what the conversion chosen for the property's declared type does to the getter value |
| `Util.FetcherForProperty` | src/OpenTelemetry.AutoInstrumentation/Util/PropertyFetcher.cs:106-115 | no property gives exactly the default accessor; a property gives the accessor compiled for it iff it is readable, non-static and converts to `T`; otherwise an argument exception exactly for a missing getter or a static property, and an invalid-operation exception exactly for a missing conversion |
| `Util.MissingPropertyFetchesDefault` | src/OpenTelemetry.AutoInstrumentation/Util/PropertyFetcher.cs:80-112 | when no property matches, a fetch on that type returns `default(T)` for every object, null included, and never signals absence |
| `Util.FoundPropertyFetchesItsValue` | src/OpenTelemetry.AutoInstrumentation/Util/PropertyFetcher.cs:85-97 | in a runtime where every reported property is declared by the type or an ancestor, a fetch from an instance whose type has a readable, convertible matching property returns or raises what converting its getter value from the property's declared type does |
| `Util.NullPropertyNameRaises` | src/OpenTelemetry.AutoInstrumentation/Util/PropertyFetcher.cs:35-64 | with a null property name every fetch on a type other than the cached one raises an argument-null exception from the lookup and leaves the cached type as it was |
| `Util.PropertyFetcher.constructor` | src/OpenTelemetry.AutoInstrumentation/Util/PropertyFetcher.cs:27-38 | a new fetcher keeps its property name (possibly null) for good, starts with an empty slot and no lookups |
| `Util.PropertyFetcher.FetchWithType` | src/OpenTelemetry.AutoInstrumentation/Util/PropertyFetcher.cs:58-68 | the result equals resolving afresh against `objType` (the cache is transparent); the slot stays coherent; a lookup happens exactly when a non-null `objType` differs from the cached type; a hit leaves both fields unchanged; a successful resolution replaces the slot with `objType` |
| `Util.PropertyFetcher.Fetch` | src/OpenTelemetry.AutoInstrumentation/Util/PropertyFetcher.cs:46-49 | behaves as `FetchWithType` with the object's runtime type; on null it raises and changes nothing |
| `Util.ResolutionsCountTypeChanges` | src/OpenTelemetry.AutoInstrumentation/Util/PropertyFetcher.cs:60-65 | over fetches whose types resolve, the number of lookups equals the number of type changes, counting the change from the cached type to the first one |
| `Util.AlternatingTypesResolveThrice` | src/OpenTelemetry.AutoInstrumentation/Util/PropertyFetcher.cs:60-65 | a fresh fetcher seeing types A, B, A looks the property up three times: the slot is replaced, never merged |
| `Util.MonomorphicSiteResolvesOnce` | src/OpenTelemetry.AutoInstrumentation/Util/PropertyFetcher.cs:60-65 | a fresh fetcher seeing one type any number of times looks the property up once |
| `Util.FailedResolutionIsRetried` | src/OpenTelemetry.AutoInstrumentation/Util/PropertyFetcher.cs:62-64 | a type whose accessor fails to compile is not cached, so the next fetch with it looks up again |
| `Util.FetchAlternatingTypes` | src/OpenTelemetry.AutoInstrumentation/Util/PropertyFetcher.cs:60-65 | the A, B, A scenario run on the class itself: three lookups, and the slot ends bound to A |
| `Emit.MemberResult.Value` | src/OpenTelemetry.AutoInstrumentation/Emit/MemberResult.cs:26-41 | succeeds exactly when the result has a value and returns the stored value, null included; raises an invalid-operation exception on `NotFound` |
| `Emit.MemberResult.GetValueOrDefault` | src/OpenTelemetry.AutoInstrumentation/Emit/MemberResult.cs:43-46 | never raises: agrees with `Value` where it succeeds and is `default(T)` where it raises |
| `Emit.MemberResult.GetProperty` | src/OpenTelemetry.AutoInstrumentation/Emit/MemberResult.cs:48-56 | found iff the receiver holds a non-null value and the property lookup succeeds on it, holding what the lookup returned (null included) |
| `Emit.MemberResult.GetField` | src/OpenTelemetry.AutoInstrumentation/Emit/MemberResult.cs:63-71 | found iff the receiver holds a non-null value and the field lookup succeeds on it, holding what the lookup returned |
| `Emit.MemberResult.CallMethod` | src/OpenTelemetry.AutoInstrumentation/Emit/MemberResult.cs:78-86 | found iff the receiver holds a non-null value and the call succeeds on it with the argument, holding the call's result |
| `Emit.MemberResult.ToString` | src/OpenTelemetry.AutoInstrumentation/Emit/MemberResult.cs:93-101 | empty text for `NotFound` or a held null, otherwise the held value's own text |
| `Emit.AbsentReceiverShortCircuits` | src/OpenTelemetry.AutoInstrumentation/Emit/MemberResult.cs:48-86 | on `NotFound` or a held null every navigation is `NotFound` whatever the lookups, names and argument, so none of them is consulted |
| `Emit.ObjectOverloadsAreGenericAtObject` | src/OpenTelemetry.AutoInstrumentation/Emit/MemberResult.cs:58-91 | each `object` overload equals its generic form at result type `object` |
| `Emit.ChainFromAbsentIsNotFound` | src/OpenTelemetry.AutoInstrumentation/Emit/MemberResult.cs:48-91 | a chain of any length started on `NotFound`, or a non-empty one started on a held null, is `NotFound` |
| `Emit.ChainAppend` | src/OpenTelemetry.AutoInstrumentation/Emit/MemberResult.cs:48-91 | running two chains one after the other is running their concatenation |
| `Emit.AbsentPrefixDecidesChain` | src/OpenTelemetry.AutoInstrumentation/Emit/MemberResult.cs:48-91 | once a prefix of a chain is `NotFound`, the chain is `NotFound` whatever hops follow |
| `Emit.FoundChainHasFoundPrefixes` | src/OpenTelemetry.AutoInstrumentation/Emit/MemberResult.cs:48-91 | a chain that ends found held a non-null value after every proper prefix |
| `Emit.MissingFirstMemberSkipsTheRest` | src/OpenTelemetry.AutoInstrumentation/Emit/MemberResult.cs:48-56 | `GetProperty("A").GetField("B").CallMethod("C", arg)` on an object without `A` is `NotFound` for every argument |
| `DuckTyping.NewDuckAttribute` | src/OpenTelemetry.AutoInstrumentation/DuckTyping/DuckAttribute.cs:52-77 | a new attribute has kind `Property`, the default flags, and unset name, generic argument names, parameter type names and explicit interface name |
| `DuckTyping.DefaultFlagsAdmitEveryMember` | src/OpenTelemetry.AutoInstrumentation/DuckTyping/DuckAttribute.cs:47 | the default scope admits every property (public or not, static or instance, inherited statics included) and compares names ordinally |
| `DuckTyping.Set` | src/OpenTelemetry.AutoInstrumentation/DuckTyping/DuckAttribute.cs:52-77 | setting a property makes it read back the new value and leaves every other property unchanged |
| `DuckTyping.SettersCommute` | src/OpenTelemetry.AutoInstrumentation/DuckTyping/DuckAttribute.cs:52-77 | setting two different properties gives the same attribute in either order |
| `DuckTyping.InitializeDeclares` | src/OpenTelemetry.AutoInstrumentation/DuckTyping/DuckAttribute.cs:52-77 | each property of an attribute built from an initializer list holds the value the list gives it, or its declared default |
| `DuckTyping.Attach` | src/OpenTelemetry.AutoInstrumentation/DuckTyping/DuckAttribute.cs:41 | a directive attaches only to a property, method or field that carries none yet, and then only that member's entry is added |
| `DuckTyping.RegisterIsPartialFunction` | src/OpenTelemetry.AutoInstrumentation/DuckTyping/DuckAttribute.cs:41 | the registry of an interface exists iff every decorated member is of an allowed kind and decorated once, and then maps exactly the decorated members, each to its directive |

## Left out

- `Reflection.FirstMatch`: when several properties match (two names that differ only in case,
  say), .NET raises an ambiguous-match exception; the model returns the first one instead.
- `Reflection.NameEquals`: case folding covers ASCII letters only, not .NET's full case-insensitive comparison of Unicode names.
- Property getters are an opaque function of property and object; a getter that raises, and
  indexed properties, are not modelled.
- The conversion of a property value to the requested type is an oracle (`Util.Conversion`)
  that returns a value or the exception it raises; the numeric and reference conversion rules of
  expression trees, and which values make them raise, are not modelled.
- The cast of the cached slot to `PropertyFetch<T>`: the model fixes `T` per fetcher
  (`Util.PropertyFetcher<T>`), so fetching with a different `T` on a type already cached, which
  raises an invalid cast in the source, is not represented.
- Concurrent fetches: the two slot fields are written one after the other without a lock; only
  sequential behaviour is modelled.
- The `TryGetPropertyValue`, `TryGetFieldValue` and `TryCallMethod` extensions are not part of
  this model; they are parameters of the navigation functions.
- `NotFound` being the default value of the struct is represented by the `NotFound` constructor;
  Dafny has no default struct value to compare with.
- The duck-type generator that consumes `DuckAttribute` (name fallback to the decorated member,
  overload filtering by parameter type names, generic instantiation, explicit-interface
  resolution) is not part of this model.
- src/OpenTelemetry.AutoInstrumentation/Instrumentations/GraphQL/ValidateIntegration.cs
  (tracing side effects and calls into code not shown), src/OpenTelemetry.AutoInstrumentation.Loader/FileSink.cs
  (file I/O and locking) and test/OpenTelemetry.AutoInstrumentation.Native.Tests/pch.h
  (includes only) are not modelled.
