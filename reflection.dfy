/**
 * The part of the .NET reflection runtime that the duck-typing helpers consult.
 * The runtime is an oracle: each runtime type has a table of properties (declared
 * and inherited, in declaration order), a set of ancestor types, and every
 * property getter is an opaque function of the property and the receiver.
 */
module Reflection {
  import opened Wrappers

  type TypeName = string

  /** A CLR object reference: null, or an instance of some runtime type. */
  datatype Object = Null | Ref(runtimeType: TypeName, id: nat)

  /** The exceptions the modelled code can raise. */
  datatype Exception =
    | InvalidOperationException
    | NullReferenceException
    | InvalidCastException
    | ArgumentException
    | ArgumentNullException

  /** `obj.GetType()`: the runtime type of the object; raises on null. */
  function GetType(obj: Object): Result<TypeName, Exception>
  {
    if obj.Null? then Failure(NullReferenceException) else Success(obj.runtimeType)
  }

  /** The members of `System.Reflection.BindingFlags` that matter for property lookup. */
  datatype BindingFlag = IgnoreCase | DeclaredOnly | Instance | Static | Public | NonPublic | FlattenHierarchy

  type BindingFlags = set<BindingFlag>

  /** What reflection reports about one property of a type. */
  datatype PropertyInfo = PropertyInfo(
    name: string,
    declaringType: TypeName,
    propertyType: TypeName,
    isPublic: bool,
    isStatic: bool,
    isInherited: bool,
    canRead: bool)

  /** The runtime's type system, fixed for the life of the process. The table of a type holds
      only what reflection reports for it: its own properties and the inherited ones that
      reflection exposes (never the private properties of its base types). */
  datatype Runtime = Runtime(
    properties: map<TypeName, seq<PropertyInfo>>,
    ancestors: map<TypeName, set<TypeName>>,
    getValue: (PropertyInfo, Object) -> Object)

  /** Every property a type reports is declared by that type or by one of its ancestors. */
  ghost predicate WellFormed(rt: Runtime)
  {
    forall ty, p :: ty in rt.properties && p in rt.properties[ty] ==>
      p.declaringType == ty || (ty in rt.ancestors && p.declaringType in rt.ancestors[ty])
  }

  function PropertiesOf(rt: Runtime, ty: TypeName): seq<PropertyInfo>
  {
    if ty in rt.properties then rt.properties[ty] else []
  }

  /** Whether a reference conversion of `obj` to `ty` succeeds on a non-null object. */
  predicate IsInstanceOf(rt: Runtime, obj: Object, ty: TypeName)
  {
    obj.Ref? && (obj.runtimeType == ty || (obj.runtimeType in rt.ancestors && ty in rt.ancestors[obj.runtimeType]))
  }

  /** Upper-casing of ASCII letters; other characters are left as they are. */
  function UpperAscii(c: char): char
  {
    if 'a' <= c <= 'z' then (c as int - 32) as char else c
  }

  /** Member-name comparison, ordinal or ignoring case. */
  predicate NameEquals(a: string, b: string, ignoreCase: bool)
  {
    if ignoreCase then
      |a| == |b| && forall i :: 0 <= i < |a| ==> UpperAscii(a[i]) == UpperAscii(b[i])
    else
      a == b
  }

  /** Whether the flags admit the property, whatever its name: visibility, static or
      instance, and where it is declared. */
  predicate InScope(p: PropertyInfo, flags: BindingFlags)
  {
    && (if p.isPublic then Public in flags else NonPublic in flags)
    && (if p.isStatic then Static in flags else Instance in flags)
    && (p.isInherited ==> DeclaredOnly !in flags && (p.isStatic ==> FlattenHierarchy in flags))
  }

  predicate Matches(p: PropertyInfo, name: string, flags: BindingFlags)
  {
    NameEquals(p.name, name, IgnoreCase in flags) && InScope(p, flags)
  }

  /** The first property of `ps` that the name and flags select, if any. */
  function FirstMatch(ps: seq<PropertyInfo>, name: string, flags: BindingFlags): (r: Option<PropertyInfo>)
    ensures r.None? <==> forall p :: p in ps ==> !Matches(p, name, flags)
    ensures r.Some? ==> exists i :: 0 <= i < |ps| && ps[i] == r.value && Matches(ps[i], name, flags)
                                      && forall j :: 0 <= j < i ==> !Matches(ps[j], name, flags)
  {
    if ps == [] then None
    else if Matches(ps[0], name, flags) then Some(ps[0])
    else
      var r := FirstMatch(ps[1..], name, flags);
      assert forall p :: p in ps ==> p == ps[0] || p in ps[1..];
      if r.Some? then
        var i :| 0 <= i < |ps[1..]| && ps[1..][i] == r.value && Matches(ps[1..][i], name, flags)
                 && forall j :: 0 <= j < i ==> !Matches(ps[1..][j], name, flags);
        assert ps[i + 1] == r.value;
        assert forall j :: 1 <= j < i + 1 ==> ps[j] == ps[1..][j - 1];
        r
      else
        r
  }

  /** `ty.GetProperty(name, flags)`: the property of the type selected by name and flags. */
  function GetProperty(rt: Runtime, ty: TypeName, name: string, flags: BindingFlags): Option<PropertyInfo>
  {
    FirstMatch(PropertiesOf(rt, ty), name, flags)
  }
}
