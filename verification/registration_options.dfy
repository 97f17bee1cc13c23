/** `RegistrationOptions`: the fluent builder an engine rule uses to turn a
    matched type into registrations. It holds the type being registered and
    one resolver each for contracts, name and lifetime; every mutator
    replaces exactly one resolver, so the last call for a resolver wins. */
module RegistrationOptions {
  import opened Errors
  import opened TypeUniverse
  import opened Resolvers

  datatype Options = Options(
    current: Option<TypeInfo>,
    contracts: ContractResolver,
    name: NameResolver,
    lifetime: LifetimeResolver)

  /** Everything except the lifetime resolver is as in `o`. */
  ghost predicate OnlyLifetimeChanged(o: Options, r: Options)
  {
    r.current == o.current && r.contracts == o.contracts && r.name == o.name
  }

  /** Everything except the name resolver is as in `o`. */
  ghost predicate OnlyNameChanged(o: Options, r: Options)
  {
    r.current == o.current && r.contracts == o.contracts && r.lifetime == o.lifetime
  }

  /** Everything except the contracts resolver is as in `o`. */
  ghost predicate OnlyContractsChanged(o: Options, r: Options)
  {
    r.current == o.current && r.name == o.name && r.lifetime == o.lifetime
  }

  /** A new builder: no type yet, all interfaces, empty name, transient. */
  function New(): (o: Options)
    ensures o.current.None?
    ensures forall t :: Contracts(o.contracts, Some(t)) == Ok(t.interfaces)
    ensures forall t :: Name(o.name, t) == Ok("")
    ensures forall t :: LifetimeOf(o.lifetime, t) == Transient
  {
    Options(None, AllInterfaces, LiteralName(""), FixedLifetime(Transient))
  }

  /** The `LifetimeManager` getter: the lifetime resolver applied to the
      type field. It never throws, even with no type set. */
  function LifetimeManager(o: Options): (l: Lifetime)
    ensures o.lifetime.FixedLifetime? ==> l == o.lifetime.lifetime
    ensures o.lifetime.ComputedLifetime? ==> l == o.lifetime.f(o.current)
  {
    LifetimeOf(o.lifetime, o.current)
  }

  /** The `Name` getter: the name resolver applied to the type field. With
      no type set it throws exactly for the strategies that read the type. */
  function GetName(o: Options): (r: Result<string>)
    ensures o.current.None? ==> (r.Err? <==> o.name.TypeName? || o.name.PartName?)
    ensures o.name.LiteralName? ==> r == Ok(o.name.value)
    ensures o.name.ComputedName? ==> r == Ok(o.name.f(o.current))
    ensures o.name.TypeName? && o.current.Some? ==> r == Ok(o.current.value.name)
  {
    Name(o.name, o.current)
  }

  /** The `Interfaces` getter: the contracts resolver applied to the type
      field. With no type set it throws exactly for the strategies that read
      the type. */
  function Interfaces(o: Options): (r: Result<seq<TypeInfo>>)
    ensures o.current.None? ==> (r.Err? <==> ReadsType(o.contracts))
    ensures o.contracts.FixedContracts? ==> r == Ok(o.contracts.contracts)
    ensures o.contracts.ComputedContracts? ==> r == Ok(o.contracts.f(o.current))
    ensures o.contracts.AllInterfaces? && o.current.Some? ==> r == Ok(o.current.value.interfaces)
  {
    Contracts(o.contracts, o.current)
  }

  /** The `LifetimeManager` setter: the lifetime no longer depends on the type. */
  function SetLifetimeManager(o: Options, l: Lifetime): (r: Options)
    ensures forall t :: LifetimeOf(r.lifetime, t) == l
    ensures OnlyLifetimeChanged(o, r)
  {
    o.(lifetime := FixedLifetime(l))
  }

  /** The `Name` setter: the name no longer depends on the type. */
  function SetName(o: Options, name: string): (r: Options)
    ensures forall t :: Name(r.name, t) == Ok(name)
    ensures OnlyNameChanged(o, r)
  {
    o.(name := LiteralName(name))
  }

  /** The `Interfaces` setter: the contracts no longer depend on the type. */
  function SetInterfaces(o: Options, contracts: seq<TypeInfo>): (r: Options)
    ensures forall t :: Contracts(r.contracts, t) == Ok(contracts)
    ensures OnlyContractsChanged(o, r)
  {
    o.(contracts := FixedContracts(contracts))
  }

  /** The `Type` setter: a null type throws and keeps the previous one. */
  function SetType(o: Options, t: Option<TypeInfo>): (r: Result<Options>)
    ensures t.None? ==> r == Err(ArgumentNull(""))
    ensures t.Some? ==> r.Ok? && r.value.current == t
    ensures r.Ok? ==> r.value.contracts == o.contracts && r.value.name == o.name && r.value.lifetime == o.lifetime
  {
    if t.None? then Err(ArgumentNull("")) else Ok(o.(current := t))
  }

  /** `UsingLifetime<TLifetimeManager>()`: a manager of class `l` for every type. */
  function UsingLifetimeOfClass(o: Options, l: Lifetime): (r: Options)
    ensures forall t :: LifetimeOf(r.lifetime, t) == l
    ensures OnlyLifetimeChanged(o, r)
  {
    o.(lifetime := FixedLifetime(l))
  }

  /** `UsingLifetime(Func<Type, LifetimeManager>)`. */
  function UsingLifetimeResolver(o: Options, resolver: Option<Option<TypeInfo> -> Lifetime>): (r: Result<Options>)
    ensures resolver.None? ==> r == Err(ArgumentNull("lifetimeResolver"))
    ensures resolver.Some? ==>
      r.Ok? && OnlyLifetimeChanged(o, r.value)
      && forall t :: LifetimeOf(r.value.lifetime, t) == resolver.value(t)
  {
    if resolver.None? then Err(ArgumentNull("lifetimeResolver"))
    else Ok(o.(lifetime := ComputedLifetime(resolver.value)))
  }

  /** `UsingLifetime(manager)`: that manager for every type. */
  function UsingLifetimeManager(o: Options, manager: Option<Lifetime>): (r: Result<Options>)
    ensures manager.None? ==> r == Err(ArgumentNull("manager"))
    ensures manager.Some? ==>
      r.Ok? && OnlyLifetimeChanged(o, r.value)
      && forall t :: LifetimeOf(r.value.lifetime, t) == manager.value
  {
    if manager.None? then Err(ArgumentNull("manager"))
    else Ok(o.(lifetime := FixedLifetime(manager.value)))
  }

  /** `UsingSingetonMode()`: a container-controlled manager for every type. */
  function UsingSingetonMode(o: Options): (r: Options)
    ensures forall t :: LifetimeOf(r.lifetime, t) == Singleton
    ensures OnlyLifetimeChanged(o, r)
  {
    o.(lifetime := FixedLifetime(Singleton))
  }

  /** `UsingPerCallMode()`: a transient manager for every type. */
  function UsingPerCallMode(o: Options): (r: Options)
    ensures forall t :: LifetimeOf(r.lifetime, t) == Transient
    ensures OnlyLifetimeChanged(o, r)
  {
    o.(lifetime := FixedLifetime(Transient))
  }

  /** `UsingPerThreadMode()`: a per-thread manager for every type. */
  function UsingPerThreadMode(o: Options): (r: Options)
    ensures forall t :: LifetimeOf(r.lifetime, t) == PerThread
    ensures OnlyLifetimeChanged(o, r)
  {
    o.(lifetime := FixedLifetime(PerThread))
  }

  /** `WithName(string)`: rejects null, otherwise the same as the `Name` setter. */
  function WithName(o: Options, name: Option<string>): (r: Result<Options>)
    ensures name.None? ==> r == Err(ArgumentNull("name"))
    ensures name.Some? ==> r == Ok(SetName(o, name.value))
  {
    if name.None? then Err(ArgumentNull("name")) else Ok(SetName(o, name.value))
  }

  /** `WithName(Func<Type, string>)`. */
  function WithNameResolver(o: Options, resolver: Option<Option<TypeInfo> -> string>): (r: Result<Options>)
    ensures resolver.None? ==> r == Err(ArgumentNull("nameResolver"))
    ensures resolver.Some? ==>
      r.Ok? && OnlyNameChanged(o, r.value)
      && forall t :: Name(r.value.name, t) == Ok(resolver.value(t))
  {
    if resolver.None? then Err(ArgumentNull("nameResolver"))
    else Ok(o.(name := ComputedName(resolver.value)))
  }

  /** `WithTypeName()`: the name is the type's own name. */
  function WithTypeName(o: Options): (r: Options)
    ensures forall t :: Name(r.name, Some(t)) == Ok(t.name)
    ensures Name(r.name, None) == Err(NullReference)
    ensures OnlyNameChanged(o, r)
  {
    o.(name := TypeName)
  }

  /** `WithPartName(part)`: the type's name without a trailing `part`. The
      part is not checked for null here; a null part throws when the name
      is read. */
  function WithPartName(o: Options, part: Option<string>): (r: Options)
    ensures part.Some? ==> forall base: string :: forall t: TypeInfo | t.name == base + part.value ::
      Name(r.name, Some(t)) == Ok(base)
    ensures part.Some? ==> forall t: TypeInfo | !EndsWith(t.name, part.value) ::
      Name(r.name, Some(t)) == Ok(t.name)
    ensures part.None? ==> forall t :: Name(r.name, Some(t)) == Err(ArgumentNull("value"))
    ensures OnlyNameChanged(o, r)
  {
    var r := o.(name := PartName(part));
    assert part.Some? ==> forall base: string :: forall t: TypeInfo | t.name == base + part.value ::
      Name(r.name, Some(t)) == Ok(base) by {
      if part.Some? {
        forall base: string, t: TypeInfo | t.name == base + part.value
          ensures Name(r.name, Some(t)) == Ok(base)
        {
          StripPartRoundTrip(base, part.value);
        }
      }
    }
    r
  }

  /** `As<TContract>()`: exactly the one contract, whatever the type implements. */
  function As(o: Options, contract: TypeInfo): (r: Options)
    ensures forall t :: Contracts(r.contracts, t) == Ok([contract])
    ensures OnlyContractsChanged(o, r)
  {
    o.(contracts := FixedContracts([contract]))
  }

  /** `As(Func<Type, Type>)`: the one contract the resolver picks. */
  function AsResolver(o: Options, resolver: Option<Option<TypeInfo> -> TypeInfo>): (r: Result<Options>)
    ensures resolver.None? ==> r == Err(ArgumentNull("typeResolver"))
    ensures resolver.Some? ==>
      r.Ok? && OnlyContractsChanged(o, r.value)
      && forall t :: Contracts(r.value.contracts, t) == Ok([resolver.value(t)])
  {
    if resolver.None? then Err(ArgumentNull("typeResolver"))
    else
      var f := resolver.value;
      Ok(o.(contracts := ComputedContracts(t => [f(t)])))
  }

  /** `As(Func<Type, Type[]>)`: the contracts the resolver lists, in order. */
  function AsResolverMany(o: Options, resolver: Option<Option<TypeInfo> -> seq<TypeInfo>>): (r: Result<Options>)
    ensures resolver.None? ==> r == Err(ArgumentNull("typesResolver"))
    ensures resolver.Some? ==>
      r.Ok? && OnlyContractsChanged(o, r.value)
      && forall t :: Contracts(r.value.contracts, t) == Ok(resolver.value(t))
  {
    if resolver.None? then Err(ArgumentNull("typesResolver"))
    else Ok(o.(contracts := ComputedContracts(resolver.value)))
  }

  /** `AsFirstInterfaceOfType()`: the first interface; a type with none throws. */
  function AsFirstInterfaceOfType(o: Options): (r: Options)
    ensures forall t: TypeInfo :: |t.interfaces| > 0 ==> Contracts(r.contracts, Some(t)) == Ok([t.interfaces[0]])
    ensures forall t: TypeInfo :: |t.interfaces| == 0 ==> Contracts(r.contracts, Some(t)) == Err(NoElements)
    ensures OnlyContractsChanged(o, r)
  {
    o.(contracts := FirstInterface)
  }

  /** `AsSingleInterfaceOfType()`: the only interface; none or several throw. */
  function AsSingleInterfaceOfType(o: Options): (r: Options)
    ensures forall t: TypeInfo, c :: t.interfaces == [c] ==> Contracts(r.contracts, Some(t)) == Ok([c])
    ensures forall t: TypeInfo :: |t.interfaces| == 0 ==> Contracts(r.contracts, Some(t)) == Err(NoElements)
    ensures forall t: TypeInfo :: |t.interfaces| > 1 ==> Contracts(r.contracts, Some(t)) == Err(MoreThanOneElement)
    ensures OnlyContractsChanged(o, r)
  {
    o.(contracts := SingleInterface)
  }

  /** `AsAllInterfacesOfType()`: every interface, in reported order. */
  function AsAllInterfacesOfType(o: Options): (r: Options)
    ensures forall t :: Contracts(r.contracts, Some(t)) == Ok(t.interfaces)
    ensures OnlyContractsChanged(o, r)
  {
    o.(contracts := AllInterfaces)
  }

  /** Setting the type does not change what a constant name, lifetime or
      contract list reads back: later reads return the value set. */
  lemma ConstantsIgnoreType(o: Options, name: string, l: Lifetime, cs: seq<TypeInfo>, t: TypeInfo)
    ensures var r := SetType(SetInterfaces(SetLifetimeManager(SetName(o, name), l), cs), Some(t)).value;
      GetName(r) == Ok(name) && LifetimeManager(r) == l && Interfaces(r) == Ok(cs)
  {
  }
}
