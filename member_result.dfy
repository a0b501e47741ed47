/**
 * The outcome of a reflective member lookup that may fail: the member's value, or
 * "not found". Navigation operations chain lookups and collapse to "not found" at the
 * first missing member or null value, without consulting the runtime again.
 *
 * The `Try*` lookups of the runtime are parameters: `tryGetPropertyValue(v, n)` is the
 * value of property `n` of `v` converted to the requested type, or `None` when the
 * lookup fails; `isNull(v)` says whether `v` is null.
 */
module Emit {
  import opened Wrappers
  import opened Reflection

  /** `Found(v)` with `v` null is a member that exists and holds null; it differs from `NotFound`. */
  datatype MemberResult<T> = NotFound | Found(value: T)
  {
    predicate HasValue()
    {
      Found?
    }

    /** The held value; raises only on `NotFound`, and returns a held null. */
    function Value(): (r: Result<T, Exception>)
      ensures r.Success? <==> HasValue()
      ensures HasValue() ==> r.value == value
      ensures !HasValue() ==> r.error == InvalidOperationException
    {
      if HasValue() then Success(value) else Failure(InvalidOperationException)
    }

    /** Never raises: the value `Value` would return, or `zero` (the type's default)
        where `Value` would raise. */
    function GetValueOrDefault(zero: T): (r: T)
      ensures Value().Success? ==> r == Value().value
      ensures Value().Failure? ==> r == zero
    {
      match this
      case Found(v) => v
      case NotFound => zero
    }

    /** Property navigation: found exactly when this result holds a non-null value and the
        lookup succeeds on it, and then it holds what the lookup returned (null included). */
    function GetProperty<R>(isNull: T -> bool, tryGetPropertyValue: (T, string) -> Option<R>,
                            propertyName: string): (r: MemberResult<R>)
      ensures r.HasValue() <==> HasValue() && !isNull(value) && tryGetPropertyValue(value, propertyName).Some?
      ensures r.HasValue() ==> r.value == tryGetPropertyValue(value, propertyName).value
    {
      if !HasValue() || isNull(Value().value) then NotFound
      else match tryGetPropertyValue(Value().value, propertyName)
        case None => NotFound
        case Some(result) => Found(result)
    }

    function GetPropertyObject(isNull: T -> bool, tryGetPropertyValue: (T, string) -> Option<Object>,
                               propertyName: string): MemberResult<Object>
    {
      GetProperty<Object>(isNull, tryGetPropertyValue, propertyName)
    }

    /** Field navigation, with the same contract over the field lookup. */
    function GetField<R>(isNull: T -> bool, tryGetFieldValue: (T, string) -> Option<R>,
                         fieldName: string): (r: MemberResult<R>)
      ensures r.HasValue() <==> HasValue() && !isNull(value) && tryGetFieldValue(value, fieldName).Some?
      ensures r.HasValue() ==> r.value == tryGetFieldValue(value, fieldName).value
    {
      if !HasValue() || isNull(Value().value) then NotFound
      else match tryGetFieldValue(Value().value, fieldName)
        case None => NotFound
        case Some(result) => Found(result)
    }

    function GetFieldObject(isNull: T -> bool, tryGetFieldValue: (T, string) -> Option<Object>,
                            fieldName: string): MemberResult<Object>
    {
      GetField<Object>(isNull, tryGetFieldValue, fieldName)
    }

    /** Method invocation with one argument; the argument reaches the runtime only when the
        receiver is found and non-null. */
    function CallMethod<A, R>(isNull: T -> bool, tryCallMethod: (T, string, A) -> Option<R>,
                              methodName: string, arg1: A): (r: MemberResult<R>)
      ensures r.HasValue() <==> HasValue() && !isNull(value) && tryCallMethod(value, methodName, arg1).Some?
      ensures r.HasValue() ==> r.value == tryCallMethod(value, methodName, arg1).value
    {
      if !HasValue() || isNull(Value().value) then NotFound
      else match tryCallMethod(Value().value, methodName, arg1)
        case None => NotFound
        case Some(result) => Found(result)
    }

    function CallMethodObject<A>(isNull: T -> bool, tryCallMethod: (T, string, A) -> Option<Object>,
                                 methodName: string, arg1: A): MemberResult<Object>
    {
      CallMethod<A, Object>(isNull, tryCallMethod, methodName, arg1)
    }

    /** Text of the result: empty unless a non-null value is held, else the value's own text. */
    function ToString(isNull: T -> bool, toString: T -> string): (s: string)
      ensures Value().Success? && !isNull(Value().value) ==> s == toString(Value().value)
      ensures Value().Failure? || isNull(Value().value) ==> s == ""
    {
      if !HasValue() || isNull(Value().value) then "" else toString(Value().value)
    }
  }

  /** A result whose navigation must stop: not found, or found holding null. */
  predicate Absent<T>(r: MemberResult<T>, isNull: T -> bool)
  {
    !r.HasValue() || isNull(r.value)
  }

  /** On an absent receiver every navigation is `NotFound`, whatever the lookups, names
      and argument: none of them is consulted. */
  lemma AbsentReceiverShortCircuits<T, A, R>(
    r: MemberResult<T>, isNull: T -> bool,
    tryGetPropertyValue: (T, string) -> Option<R>, tryGetFieldValue: (T, string) -> Option<R>,
    tryCallMethod: (T, string, A) -> Option<R>, name: string, arg1: A)
    requires Absent(r, isNull)
    ensures r.GetProperty(isNull, tryGetPropertyValue, name) == NotFound
    ensures r.GetField(isNull, tryGetFieldValue, name) == NotFound
    ensures r.CallMethod(isNull, tryCallMethod, name, arg1) == NotFound
  {
  }

  /** The object-typed overloads are the generic operations at result type `object`. */
  lemma ObjectOverloadsAreGenericAtObject<T, A>(
    r: MemberResult<T>, isNull: T -> bool,
    tryGetPropertyValue: (T, string) -> Option<Object>, tryGetFieldValue: (T, string) -> Option<Object>,
    tryCallMethod: (T, string, A) -> Option<Object>, name: string, arg1: A)
    ensures r.GetPropertyObject(isNull, tryGetPropertyValue, name) == r.GetProperty<Object>(isNull, tryGetPropertyValue, name)
    ensures r.GetFieldObject(isNull, tryGetFieldValue, name) == r.GetField<Object>(isNull, tryGetFieldValue, name)
    ensures r.CallMethodObject(isNull, tryCallMethod, name, arg1) == r.CallMethod<A, Object>(isNull, tryCallMethod, name, arg1)
  {
  }

  /** One navigation step of a chain over `object` values. */
  datatype Hop =
    | GetPropertyHop(propertyName: string)
    | GetFieldHop(fieldName: string)
    | CallMethodHop(methodName: string, arg1: Object)

  /** The runtime's three `Try*` lookups on `object` receivers. */
  datatype Probe = Probe(
    tryGetPropertyValue: (Object, string) -> Option<Object>,
    tryGetFieldValue: (Object, string) -> Option<Object>,
    tryCallMethod: (Object, string, Object) -> Option<Object>)

  function IsNull(o: Object): bool
  {
    o.Null?
  }

  function Step(r: MemberResult<Object>, probe: Probe, hop: Hop): MemberResult<Object>
  {
    match hop
    case GetPropertyHop(n) => r.GetPropertyObject(IsNull, probe.tryGetPropertyValue, n)
    case GetFieldHop(n) => r.GetFieldObject(IsNull, probe.tryGetFieldValue, n)
    case CallMethodHop(n, a) => r.CallMethodObject(IsNull, probe.tryCallMethod, n, a)
  }

  /** `r.Hop1(...).Hop2(...)...`: the hops applied left to right. */
  function Chain(r: MemberResult<Object>, probe: Probe, hops: seq<Hop>): MemberResult<Object>
    decreases |hops|
  {
    if hops == [] then r else Chain(Step(r, probe, hops[0]), probe, hops[1..])
  }

  /** A chain of any length started on `NotFound`, or a non-empty chain started on a held
      null, ends in `NotFound`. */
  lemma {:induction false} ChainFromAbsentIsNotFound(r: MemberResult<Object>, probe: Probe, hops: seq<Hop>)
    requires r.NotFound? || (r == Found(Null) && hops != [])
    ensures Chain(r, probe, hops) == NotFound
    decreases |hops|
  {
    if hops != [] {
      assert Step(r, probe, hops[0]) == NotFound;
      ChainFromAbsentIsNotFound(NotFound, probe, hops[1..]);
    }
  }

  /** Chaining two chains is one chain over the concatenated hops. */
  lemma {:induction false} ChainAppend(r: MemberResult<Object>, probe: Probe, a: seq<Hop>, b: seq<Hop>)
    ensures Chain(r, probe, a + b) == Chain(Chain(r, probe, a), probe, b)
    decreases |a|
  {
    if a != [] {
      assert (a + b)[0] == a[0];
      assert (a + b)[1..] == a[1..] + b;
      ChainAppend(Step(r, probe, a[0]), probe, a[1..], b);
    } else {
      assert a + b == b;
    }
  }

  /** Once a prefix of a chain is `NotFound` the whole chain is, whatever follows. */
  lemma AbsentPrefixDecidesChain(r: MemberResult<Object>, probe: Probe, a: seq<Hop>, b: seq<Hop>)
    requires Chain(r, probe, a).NotFound?
    ensures Chain(r, probe, a + b) == NotFound
  {
    ChainAppend(r, probe, a, b);
    ChainFromAbsentIsNotFound(Chain(r, probe, a), probe, b);
  }

  /** A chain that ends found passed every hop: every proper prefix holds a non-null value. */
  lemma FoundChainHasFoundPrefixes(r: MemberResult<Object>, probe: Probe, hops: seq<Hop>, k: nat)
    requires k < |hops| && Chain(r, probe, hops).HasValue()
    ensures Chain(r, probe, hops[..k]).HasValue() && Chain(r, probe, hops[..k]).value != Null
  {
    assert hops == hops[..k] + hops[k..];
    ChainAppend(r, probe, hops[..k], hops[k..]);
    var mid := Chain(r, probe, hops[..k]);
    if mid.NotFound? || mid == Found(Null) {
      ChainFromAbsentIsNotFound(mid, probe, hops[k..]);
    }
  }

  /** `o.GetProperty("A").GetField("B").CallMethod("C", arg)` on an object without a
      property `A`: `NotFound`, and the same for every argument. */
  lemma MissingFirstMemberSkipsTheRest(o: Object, probe: Probe, arg: Object)
    requires probe.tryGetPropertyValue(o, "A").None?
    ensures Chain(Found(o), probe, [GetPropertyHop("A"), GetFieldHop("B"), CallMethodHop("C", arg)]) == NotFound
  {
    var hops := [GetPropertyHop("A"), GetFieldHop("B"), CallMethodHop("C", arg)];
    assert Step(Found(o), probe, hops[0]) == NotFound;
    ChainFromAbsentIsNotFound(NotFound, probe, hops[1..]);
  }
}
