/**
 * The binding directive attached to a member of a duck-typing interface: which member
 * of the underlying object it binds to, of which kind, under which lookup scope, and
 * how overloads, generic arguments and explicit interfaces are disambiguated.
 */
module DuckTyping {
  import opened Wrappers
  import opened Reflection

  /** The kind of underlying member a directive binds to; there are exactly two. */
  datatype DuckKind = Property | Field

  /** The lookup scope a directive uses unless it says otherwise. */
  const DefaultFlags: BindingFlags := {Public, NonPublic, Static, Instance, FlattenHierarchy}

  /** The default scope admits every property, public or not, static or instance,
      declared or inherited; it does not ignore case, so names compare ordinally. */
  lemma DefaultFlagsAdmitEveryMember(p: PropertyInfo, name: string)
    ensures InScope(p, DefaultFlags)
    ensures Matches(p, name, DefaultFlags) <==> p.name == name
  {
  }

  /** An attribute instance. A reference-typed property that was never set is `None` (null). */
  datatype DuckAttribute = DuckAttribute(
    name: Option<string>,
    kind: DuckKind,
    bindingFlags: BindingFlags,
    genericParameterTypeNames: Option<seq<string>>,
    parameterTypeNames: Option<seq<string>>,
    explicitInterfaceTypeName: Option<string>)

  /** `new DuckAttribute()`: every property at its declared initial value. */
  function NewDuckAttribute(): (d: DuckAttribute)
    ensures d.kind == Property && d.bindingFlags == DefaultFlags
    ensures d.name.None? && d.genericParameterTypeNames.None?
    ensures d.parameterTypeNames.None? && d.explicitInterfaceTypeName.None?
  {
    DuckAttribute(None, Property, DefaultFlags, None, None, None)
  }

  /** The six settable properties of the attribute. */
  datatype PropertyId =
    | NameProperty
    | KindProperty
    | BindingFlagsProperty
    | GenericParameterTypeNamesProperty
    | ParameterTypeNamesProperty
    | ExplicitInterfaceTypeNameProperty

  /** One named argument of an attribute usage, `Name = "x"` say: a property and its value. */
  datatype Setting =
    | SetName(name: Option<string>)
    | SetKind(kind: DuckKind)
    | SetBindingFlags(flags: BindingFlags)
    | SetGenericParameterTypeNames(genericNames: Option<seq<string>>)
    | SetParameterTypeNames(parameterNames: Option<seq<string>>)
    | SetExplicitInterfaceTypeName(interfaceName: Option<string>)

  function Target(s: Setting): PropertyId
  {
    match s
    case SetName(_) => NameProperty
    case SetKind(_) => KindProperty
    case SetBindingFlags(_) => BindingFlagsProperty
    case SetGenericParameterTypeNames(_) => GenericParameterTypeNamesProperty
    case SetParameterTypeNames(_) => ParameterTypeNamesProperty
    case SetExplicitInterfaceTypeName(_) => ExplicitInterfaceTypeNameProperty
  }

  /** The getter of property `q`, as the setting that would give it its current value. */
  function Get(d: DuckAttribute, q: PropertyId): (s: Setting)
    ensures Target(s) == q
  {
    match q
    case NameProperty => SetName(d.name)
    case KindProperty => SetKind(d.kind)
    case BindingFlagsProperty => SetBindingFlags(d.bindingFlags)
    case GenericParameterTypeNamesProperty => SetGenericParameterTypeNames(d.genericParameterTypeNames)
    case ParameterTypeNamesProperty => SetParameterTypeNames(d.parameterTypeNames)
    case ExplicitInterfaceTypeNameProperty => SetExplicitInterfaceTypeName(d.explicitInterfaceTypeName)
  }

  /** The setter of one auto-property: the targeted property reads back the new value and
      every other property reads back what it read before. */
  function Set(d: DuckAttribute, s: Setting): (r: DuckAttribute)
    ensures Get(r, Target(s)) == s
    ensures forall q :: q != Target(s) ==> Get(r, q) == Get(d, q)
  {
    match s
    case SetName(n) => d.(name := n)
    case SetKind(k) => d.(kind := k)
    case SetBindingFlags(f) => d.(bindingFlags := f)
    case SetGenericParameterTypeNames(g) => d.(genericParameterTypeNames := g)
    case SetParameterTypeNames(p) => d.(parameterTypeNames := p)
    case SetExplicitInterfaceTypeName(e) => d.(explicitInterfaceTypeName := e)
  }

  /** Two attributes are equal exactly when every property reads back the same. */
  lemma ExtensionalEquality(d: DuckAttribute, e: DuckAttribute)
    ensures d == e <==> forall q :: Get(d, q) == Get(e, q)
  {
    if forall q :: Get(d, q) == Get(e, q) {
      assert Get(d, NameProperty) == Get(e, NameProperty);
      assert Get(d, KindProperty) == Get(e, KindProperty);
      assert Get(d, BindingFlagsProperty) == Get(e, BindingFlagsProperty);
      assert Get(d, GenericParameterTypeNamesProperty) == Get(e, GenericParameterTypeNamesProperty);
      assert Get(d, ParameterTypeNamesProperty) == Get(e, ParameterTypeNamesProperty);
      assert Get(d, ExplicitInterfaceTypeNameProperty) == Get(e, ExplicitInterfaceTypeNameProperty);
    }
  }

  /** Setting two different properties gives the same attribute in either order. */
  lemma SettersCommute(d: DuckAttribute, s: Setting, t: Setting)
    requires Target(s) != Target(t)
    ensures Set(Set(d, s), t) == Set(Set(d, t), s)
  {
    forall q ensures Get(Set(Set(d, s), t), q) == Get(Set(Set(d, t), s), q) {
    }
    ExtensionalEquality(Set(Set(d, s), t), Set(Set(d, t), s));
  }

  /** The attribute an initializer list `[Duck(A = a, B = b, ...)]` produces: the
      default attribute with each named argument applied in order. */
  function Initialize(settings: seq<Setting>): DuckAttribute
  {
    if settings == [] then NewDuckAttribute()
    else Set(Initialize(settings[..|settings| - 1]), settings[|settings| - 1])
  }

  /** The value an initializer list gives property `q`: the last setting for `q`, or
      the declared default when the list does not mention `q`. */
  function Declared(settings: seq<Setting>, q: PropertyId): Setting
  {
    if settings == [] then Get(NewDuckAttribute(), q)
    else if Target(settings[|settings| - 1]) == q then settings[|settings| - 1]
    else Declared(settings[..|settings| - 1], q)
  }

  /** Every property of an initialized attribute holds the value the initializer list
      declares for it, independently of the other properties. */
  lemma {:induction false} InitializeDeclares(settings: seq<Setting>, q: PropertyId)
    ensures Get(Initialize(settings), q) == Declared(settings, q)
  {
    if settings != [] {
      InitializeDeclares(settings[..|settings| - 1], q);
    }
  }

  /** The member kinds the attribute may decorate (`AttributeTargets`). */
  datatype MemberKind = PropertyMember | MethodMember | FieldMember | ConstructorMember | EventMember | TypeMember

  predicate ValidOn(k: MemberKind)
  {
    k == PropertyMember || k == MethodMember || k == FieldMember
  }

  /** A member declaration of a duck-typing interface; `parameterTypes` tells overloads apart. */
  datatype MemberRef = MemberRef(declaringType: TypeName, name: string, parameterTypes: seq<TypeName>, kind: MemberKind)

  /** One `[Duck(...)]` usage on one member. */
  datatype Decoration = Decoration(member: MemberRef, directive: DuckAttribute)

  type Registry = map<MemberRef, DuckAttribute>

  /** Attaching a directive to a member: refused on a member kind outside the attribute's
      targets, and on a member that already carries one (`AllowMultiple = false`). */
  function Attach(reg: Registry, dec: Decoration): (r: Option<Registry>)
    ensures r.Some? <==> ValidOn(dec.member.kind) && dec.member !in reg
    ensures r.Some? ==> r.value.Keys == reg.Keys + {dec.member} && r.value[dec.member] == dec.directive
    ensures r.Some? ==> forall m :: m in reg ==> r.value[m] == reg[m]
  {
    if ValidOn(dec.member.kind) && dec.member !in reg then Some(reg[dec.member := dec.directive]) else None
  }

  /** The registry built from all decorations of an interface, in declaration order. */
  function Register(decs: seq<Decoration>): Option<Registry>
  {
    if decs == [] then Some(map[])
    else match Register(decs[..|decs| - 1])
      case None => None
      case Some(reg) => Attach(reg, decs[|decs| - 1])
  }

  /** Every decorated member has an allowed kind and no member is decorated twice. */
  predicate Admissible(decs: seq<Decoration>)
  {
    && (forall i :: 0 <= i < |decs| ==> ValidOn(decs[i].member.kind))
    && (forall i, j :: 0 <= i < j < |decs| ==> decs[i].member != decs[j].member)
  }

  function Members(decs: seq<Decoration>): set<MemberRef>
  {
    set i | 0 <= i < |decs| :: decs[i].member
  }

  lemma MembersSnoc(decs: seq<Decoration>)
    requires decs != []
    ensures Members(decs) == Members(decs[..|decs| - 1]) + {decs[|decs| - 1].member}
  {
    var n := |decs| - 1;
    forall m | m in Members(decs) ensures m in Members(decs[..n]) + {decs[n].member} {
      var i :| 0 <= i < |decs| && decs[i].member == m;
      if i < n { assert decs[..n][i].member == m; }
    }
    forall m | m in Members(decs[..n]) ensures m in Members(decs) {
      var i :| 0 <= i < n && decs[..n][i].member == m;
      assert decs[i].member == m;
    }
  }

  lemma AdmissibleSnoc(decs: seq<Decoration>)
    requires decs != []
    ensures Admissible(decs) <==>
              && Admissible(decs[..|decs| - 1])
              && ValidOn(decs[|decs| - 1].member.kind)
              && decs[|decs| - 1].member !in Members(decs[..|decs| - 1])
  {
    var n := |decs| - 1;
    var init := decs[..n];
    assert forall i :: 0 <= i < n ==> init[i] == decs[i];
    if decs[n].member in Members(init) {
      var i :| 0 <= i < n && init[i].member == decs[n].member;
      assert decs[i].member == decs[n].member;
    }
  }

  /** The registry exists exactly when the decorations are admissible, and then it is a
      function from the decorated members to their one directive each. */
  lemma {:induction false} RegisterIsPartialFunction(decs: seq<Decoration>)
    ensures Register(decs).Some? <==> Admissible(decs)
    ensures Register(decs).Some? ==> Register(decs).value.Keys == Members(decs)
    ensures Register(decs).Some? ==>
              forall i :: 0 <= i < |decs| ==> Register(decs).value[decs[i].member] == decs[i].directive
  {
    if decs != [] {
      var n := |decs| - 1;
      var init := decs[..n];
      RegisterIsPartialFunction(init);
      AdmissibleSnoc(decs);
      MembersSnoc(decs);
      if Register(decs).Some? {
        var reg := Register(init).value;
        forall i | 0 <= i < |decs| ensures Register(decs).value[decs[i].member] == decs[i].directive {
          if i < n {
            assert init[i] == decs[i];
          }
        }
      }
    }
  }
}
