/**
 * A fetcher for one named property that compiles a reading accessor the first time it
 * meets a runtime type and keeps it in a single slot for as long as the type stays
 * the same. A different type replaces the slot; nothing is memoised beyond it.
 */
module Util {
  import opened Wrappers
  import opened Reflection
  import DuckTyping

  /** The scope of the fetcher's lookup: instance properties, public or not, any case. */
  const LookupFlags: BindingFlags := {Public, NonPublic, Instance, IgnoreCase}

  /** The conversion of a property's value to the requested result type `T`: `zero` is
      `default(T)`, `hasConversion` says whether an expression-tree conversion from a
      property type exists, and `convert(propertyType, v)` performs the conversion chosen for
      that property type on a value, raising where it does (an invalid cast, unboxing null,
      an empty nullable). */
  datatype Conversion<T> = Conversion(zero: T, hasConversion: TypeName -> bool,
                                      convert: (TypeName, Object) -> Result<T, Exception>)

  /** What a fetcher reads through: the runtime, and the conversion to its result type. */
  datatype Env<T> = Env(runtime: Runtime, conversion: Conversion<T>)

  /** An accessor: the one that yields the default, or the one compiled for a property,
      `arg => (T)((TDeclaring)arg).Property`. */
  datatype PropertyFetch = ReturnsDefault | Compiled(property: PropertyInfo)
  {
    /** Applies the accessor to an object. The default accessor never looks at the object;
        the compiled one raises on null and on an object of another type, and otherwise
        returns, or raises, what converting the getter's value from the property type to `T` does. */
    function Fetch<T>(env: Env<T>, obj: Object): (r: Result<T, Exception>)
      ensures ReturnsDefault? ==> r == Success(env.conversion.zero)
      ensures Compiled? && obj.Null? ==> r == Failure(NullReferenceException)
      ensures Compiled? && obj.Ref? && !IsInstanceOf(env.runtime, obj, property.declaringType) ==>
                r == Failure(InvalidCastException)
      ensures Compiled? && IsInstanceOf(env.runtime, obj, property.declaringType) ==>
                r == env.conversion.convert(property.propertyType, env.runtime.getValue(property, obj))
    {
      match this
      case ReturnsDefault => Success(env.conversion.zero)
      case Compiled(p) =>
        if obj.Null? then Failure(NullReferenceException)
        else if !IsInstanceOf(env.runtime, obj, p.declaringType) then Failure(InvalidCastException)
        else env.conversion.convert(p.propertyType, env.runtime.getValue(p, obj))
    }
  }

  /** Builds the accessor for the property lookup found: the default accessor when there is
      none; otherwise compiling raises on a property without a getter or a static one, and on
      a property type with no conversion to `T`. */
  function FetcherForProperty<T>(conversion: Conversion<T>, propertyInfo: Option<PropertyInfo>): (r: Result<PropertyFetch, Exception>)
    ensures propertyInfo.None? <==> r == Success(ReturnsDefault)
    ensures propertyInfo.Some? ==>
              (r.Success? <==> propertyInfo.value.canRead && !propertyInfo.value.isStatic
                               && conversion.hasConversion(propertyInfo.value.propertyType))
    ensures r.Success? && propertyInfo.Some? ==> r.value == Compiled(propertyInfo.value)
    ensures r.Failure? ==> propertyInfo.Some?
    ensures r.Failure? ==>
              (r.error == ArgumentException <==> !propertyInfo.value.canRead || propertyInfo.value.isStatic)
    ensures r.Failure? ==>
              (r.error == InvalidOperationException <==>
                 propertyInfo.value.canRead && !propertyInfo.value.isStatic
                 && !conversion.hasConversion(propertyInfo.value.propertyType))
  {
    match propertyInfo
    case None => Success(ReturnsDefault)
    case Some(p) =>
      if !p.canRead || p.isStatic then Failure(ArgumentException)
      else if !conversion.hasConversion(p.propertyType) then Failure(InvalidOperationException)
      else Success(Compiled(p))
  }

  /** What a fetcher does on meeting type `ty`: look the property up, build its accessor.
      A null property name makes the lookup raise. */
  function Resolve<T>(env: Env<T>, propertyName: Option<string>, ty: TypeName): Result<PropertyFetch, Exception>
  {
    match propertyName
    case None => Failure(ArgumentNullException)
    case Some(name) => FetcherForProperty(env.conversion, GetProperty(env.runtime, ty, name, LookupFlags))
  }

  /** The fetch without a cache: resolve afresh against `objType` and apply the accessor.
      A null `objType` raises, as calling `GetProperty` on it does. */
  function UncachedFetch<T>(env: Env<T>, propertyName: Option<string>, obj: Object, objType: Option<TypeName>): Result<T, Exception>
  {
    if objType.None? then Failure(NullReferenceException)
    else match Resolve(env, propertyName, objType.value)
      case Failure(e) => Failure(e)
      case Success(f) => f.Fetch(env, obj)
  }

  /** Whether a fetch with `objType` against cached type `expected` performs a lookup. */
  predicate Resolves(expected: Option<TypeName>, objType: Option<TypeName>)
  {
    objType.Some? && objType != expected
  }

  /** The cached type after a fetch: `objType` once it has been resolved and compiled,
      otherwise unchanged (cache hit, or a raise before the slot is written). */
  function NextExpected<T>(env: Env<T>, propertyName: Option<string>, expected: Option<TypeName>, objType: Option<TypeName>): Option<TypeName>
  {
    if Resolves(expected, objType) && Resolve(env, propertyName, objType.value).Success? then objType else expected
  }

  /** The number of lookups a fetcher whose cached type is `expected` performs over
      a sequence of fetches with the given types. */
  function Resolutions<T>(env: Env<T>, propertyName: Option<string>, expected: Option<TypeName>, types: seq<Option<TypeName>>): nat
    decreases |types|
  {
    if types == [] then 0
    else (if Resolves(expected, types[0]) then 1 else 0)
         + Resolutions(env, propertyName, NextExpected(env, propertyName, expected, types[0]), types[1..])
  }

  /** The number of adjacent positions of `s` that hold different types. */
  function Changes(s: seq<Option<TypeName>>): nat
    decreases |s|
  {
    if |s| < 2 then 0 else (if s[0] != s[1] then 1 else 0) + Changes(s[1..])
  }

  /** Over fetches whose types all resolve, the fetcher looks the property up once per
      change of type, counting the change from the cached type to the first one. */
  lemma {:induction false} ResolutionsCountTypeChanges<T>(env: Env<T>, propertyName: Option<string>,
                                                         expected: Option<TypeName>, types: seq<Option<TypeName>>)
    requires forall i :: 0 <= i < |types| ==> types[i].Some? && Resolve(env, propertyName, types[i].value).Success?
    ensures Resolutions(env, propertyName, expected, types) == Changes([expected] + types)
    decreases |types|
  {
    if types != [] {
      var t := types[0];
      assert NextExpected(env, propertyName, expected, t) == t;
      ResolutionsCountTypeChanges(env, propertyName, t, types[1..]);
      assert [t] + types[1..] == types;
      assert ([expected] + types)[1..] == types;
    }
  }

  /** A fresh fetcher that sees types A, B, A looks the property up three times. */
  lemma AlternatingTypesResolveThrice<T>(env: Env<T>, propertyName: Option<string>, a: TypeName, b: TypeName)
    requires a != b
    requires Resolve(env, propertyName, a).Success? && Resolve(env, propertyName, b).Success?
    ensures Resolutions(env, propertyName, None, [Some(a), Some(b), Some(a)]) == 3
  {
    ResolutionsCountTypeChanges(env, propertyName, None, [Some(a), Some(b), Some(a)]);
    var s := [None] + [Some(a), Some(b), Some(a)];
    assert s[1..] == [Some(a), Some(b), Some(a)];
    assert s[1..][1..] == [Some(b), Some(a)];
    assert s[1..][1..][1..] == [Some(a)];
    assert Changes(s[1..][1..]) == 1;
  }

  /** A fresh fetcher that sees one type any number of times looks the property up once. */
  lemma {:induction false} MonomorphicSiteResolvesOnce<T>(env: Env<T>, propertyName: Option<string>, ty: TypeName, n: nat)
    requires n > 0 && Resolve(env, propertyName, ty).Success?
    ensures Resolutions(env, propertyName, None, seq(n, _ => Some(ty))) == 1
  {
    var types := seq(n, _ => Some(ty));
    ResolutionsCountTypeChanges(env, propertyName, None, types);
    ConstantHasNoChanges(types);
    assert ([None] + types)[1..] == types;
  }

  lemma {:induction false} ConstantHasNoChanges(s: seq<Option<TypeName>>)
    requires forall i :: 0 <= i < |s| ==> s[i] == s[0]
    ensures Changes(s) == 0
    decreases |s|
  {
    if |s| >= 2 {
      ConstantHasNoChanges(s[1..]);
    }
  }

  /** A type whose resolution raises is not cached: the next fetch with it looks up again. */
  lemma FailedResolutionIsRetried<T>(env: Env<T>, propertyName: Option<string>, expected: Option<TypeName>, ty: TypeName)
    requires expected != Some(ty) && Resolve(env, propertyName, ty).Failure?
    ensures NextExpected(env, propertyName, expected, Some(ty)) == expected
    ensures Resolves(NextExpected(env, propertyName, expected, Some(ty)), Some(ty))
  {
  }

  /** The fetcher's lookup admits exactly the instance properties whose name equals the
      requested one up to case; a static property of that name is never found. */
  lemma LookupFlagsSelectInstanceProperties(p: PropertyInfo, name: string)
    ensures Matches(p, name, LookupFlags) <==> !p.isStatic && NameEquals(p.name, name, true)
  {
  }

  /** The fetcher's scope is not the duck-typing default: a static property that the default
      scope finds is invisible to the fetcher. */
  lemma LookupFlagsDifferFromDuckDefaults(p: PropertyInfo)
    requires p.isStatic
    ensures Matches(p, p.name, DuckTyping.DefaultFlags) && !Matches(p, p.name, LookupFlags)
  {
    DuckTyping.DefaultFlagsAdmitEveryMember(p, p.name);
  }

  /** The fetcher finds a property of `ty` exactly when the type has an instance property of
      that name up to case, and what it finds is such a property. */
  lemma FetcherLookup(rt: Runtime, ty: TypeName, name: string)
    ensures GetProperty(rt, ty, name, LookupFlags).Some? ==>
              var p := GetProperty(rt, ty, name, LookupFlags).value;
              p in PropertiesOf(rt, ty) && !p.isStatic && NameEquals(p.name, name, true)
    ensures GetProperty(rt, ty, name, LookupFlags).None? <==>
              forall p :: p in PropertiesOf(rt, ty) ==> p.isStatic || !NameEquals(p.name, name, true)
  {
  }

  /** When no property matches, every fetch on that type yields the default, whatever the
      object, null included: absence is never signalled. */
  lemma MissingPropertyFetchesDefault<T>(env: Env<T>, name: string, ty: TypeName, obj: Object)
    requires GetProperty(env.runtime, ty, name, LookupFlags).None?
    ensures UncachedFetch(env, Some(name), obj, Some(ty)) == Success(env.conversion.zero)
  {
  }

  /** In a well-formed runtime, when a readable instance property matches and converts, a
      fetch from an instance of the type returns, or raises, what converting its getter's
      value does. */
  lemma FoundPropertyFetchesItsValue<T>(env: Env<T>, name: string, obj: Object, p: PropertyInfo)
    requires WellFormed(env.runtime)
    requires obj.Ref? && GetProperty(env.runtime, obj.runtimeType, name, LookupFlags) == Some(p)
    requires p.canRead && env.conversion.hasConversion(p.propertyType)
    ensures UncachedFetch(env, Some(name), obj, Some(obj.runtimeType)) == env.conversion.convert(p.propertyType, env.runtime.getValue(p, obj))
  {
    FetcherLookup(env.runtime, obj.runtimeType, name);
    assert p in PropertiesOf(env.runtime, obj.runtimeType);
    assert IsInstanceOf(env.runtime, obj, p.declaringType);
  }

  /** A fetcher built with a null property name raises on every fetch whose type differs
      from the cached one, and never fills its slot. */
  lemma NullPropertyNameRaises<T>(env: Env<T>, expected: Option<TypeName>, obj: Object, ty: TypeName)
    ensures UncachedFetch(env, None, obj, Some(ty)) == Failure(ArgumentNullException)
    ensures NextExpected(env, None, expected, Some(ty)) == expected
  {
  }

  /** The fetcher for one property name. The slot `(expectedType, fetchForExpectedType)` is
      empty until the first fetch and then holds one type and the accessor compiled for it.
      The result type `T` is fixed per fetcher: the slot is keyed by object type alone. */
  class PropertyFetcher<T> {
    const propertyName: Option<string>
    const env: Env<T>
    var expectedType: Option<TypeName>
    var fetchForExpectedType: Option<PropertyFetch>
    /** How many times the fetcher has looked its property up. */
    ghost var resolutions: nat

    /** The slot is empty as a whole, or holds a type with the accessor resolving it gives. */
    ghost predicate Valid()
      reads this
    {
      && (expectedType.None? <==> fetchForExpectedType.None?)
      && (expectedType.Some? ==>
            Resolve(env, propertyName, expectedType.value) == Success(fetchForExpectedType.value))
    }

    constructor (propertyName: Option<string>, env: Env<T>)
      ensures Valid()
      ensures this.propertyName == propertyName && this.env == env
      ensures expectedType.None? && fetchForExpectedType.None? && resolutions == 0
    {
      this.propertyName := propertyName;
      this.env := env;
      expectedType := None;
      fetchForExpectedType := None;
      resolutions := 0;
    }

    /** `Fetch<T>(obj, objType)`: the cache is transparent (the result is that of resolving
        afresh); a lookup happens exactly when `objType` differs from the cached type, and
        a hit leaves the slot as it was. */
    method FetchWithType(obj: Object, objType: Option<TypeName>) returns (r: Result<T, Exception>)
      requires Valid()
      modifies this
      ensures Valid()
      ensures r == UncachedFetch(env, propertyName, obj, objType)
      ensures expectedType == NextExpected(env, propertyName, old(expectedType), objType)
      ensures resolutions == old(resolutions) + (if Resolves(old(expectedType), objType) then 1 else 0)
      ensures objType == old(expectedType) ==>
                expectedType == old(expectedType) && fetchForExpectedType == old(fetchForExpectedType)
    {
      if objType != expectedType {
        if objType.None? {
          return Failure(NullReferenceException);
        }
        resolutions := resolutions + 1;
        if propertyName.None? {
          return Failure(ArgumentNullException);
        }
        var propertyInfo := GetProperty(env.runtime, objType.value, propertyName.value, LookupFlags);
        var fetch := FetcherForProperty(env.conversion, propertyInfo);
        if fetch.Failure? {
          return Failure(fetch.error);
        }
        fetchForExpectedType := Some(fetch.value);
        expectedType := objType;
      }
      match fetchForExpectedType {
        case None =>
          r := Failure(NullReferenceException);
        case Some(f) =>
          r := f.Fetch(env, obj);
      }
    }

    /** `Fetch<T>(obj)`: `FetchWithType` with the object's runtime type; on null the call to
        `GetType` raises before the fetcher is touched. */
    method Fetch(obj: Object) returns (r: Result<T, Exception>)
      requires Valid()
      modifies this
      ensures Valid()
      ensures obj.Null? ==> r == Failure(NullReferenceException) && unchanged(this)
      ensures obj.Ref? ==> r == UncachedFetch(env, propertyName, obj, Some(obj.runtimeType))
      ensures obj.Ref? ==> expectedType == NextExpected(env, propertyName, old(expectedType), Some(obj.runtimeType))
      ensures obj.Ref? ==>
                resolutions == old(resolutions) + (if Resolves(old(expectedType), Some(obj.runtimeType)) then 1 else 0)
    {
      match GetType(obj) {
        case Failure(e) =>
          r := Failure(e);
        case Success(ty) =>
          r := FetchWithType(obj, Some(ty));
      }
    }
  }

  /** A fresh fetcher used on objects of types A, B, A looks its property up three times. */
  method FetchAlternatingTypes<T>(env: Env<T>, propertyName: Option<string>, a: Object, b: Object)
    returns (f: PropertyFetcher<T>)
    requires a.Ref? && b.Ref? && a.runtimeType != b.runtimeType
    requires Resolve(env, propertyName, a.runtimeType).Success? && Resolve(env, propertyName, b.runtimeType).Success?
    ensures f.resolutions == 3 && f.expectedType == Some(a.runtimeType)
  {
    f := new PropertyFetcher(propertyName, env);
    var r1 := f.Fetch(a);
    var r2 := f.Fetch(b);
    var r3 := f.Fetch(a);
  }
}
