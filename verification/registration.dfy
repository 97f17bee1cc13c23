/** `Registration`: the older registration builder. Unlike
    `RegistrationOptions` it starts with an empty contract list, keeps the
    lifetime manager in a plain field rather than a resolver, and checks no
    argument for null except the type. */
module Registration {
  import opened Errors
  import opened TypeUniverse
  import opened Resolvers

  datatype Registration = Registration(
    current: Option<TypeInfo>,
    contracts: ContractResolver,
    name: NameResolver,
    lifetime: Lifetime)

  /** Everything except the lifetime field is as in `g`. */
  ghost predicate OnlyLifetimeChanged(g: Registration, r: Registration)
  {
    r.current == g.current && r.contracts == g.contracts && r.name == g.name
  }

  /** Everything except the name resolver is as in `g`. */
  ghost predicate OnlyNameChanged(g: Registration, r: Registration)
  {
    r.current == g.current && r.contracts == g.contracts && r.lifetime == g.lifetime
  }

  /** Everything except the contracts resolver is as in `g`. */
  ghost predicate OnlyContractsChanged(g: Registration, r: Registration)
  {
    r.current == g.current && r.name == g.name && r.lifetime == g.lifetime
  }

  /** A new builder: no type, no contracts at all, empty name, transient. */
  function New(): (g: Registration)
    ensures g.current.None?
    ensures forall t :: Contracts(g.contracts, t) == Ok([])
    ensures forall t :: Name(g.name, t) == Ok("")
    ensures g.lifetime == Transient
  {
    Registration(None, FixedContracts([]), LiteralName(""), Transient)
  }

  /** The `NameToRegisterWith` getter: the name resolver applied to the type
      field. With no type set it throws exactly for the strategies that read
      the type. */
  function NameToRegisterWith(g: Registration): (r: Result<string>)
    ensures g.current.None? ==> (r.Err? <==> g.name.TypeName? || g.name.PartName?)
    ensures g.name.LiteralName? ==> r == Ok(g.name.value)
    ensures g.name.ComputedName? ==> r == Ok(g.name.f(g.current))
    ensures g.name.TypeName? && g.current.Some? ==> r == Ok(g.current.value.name)
  {
    Name(g.name, g.current)
  }

  /** The `InterfacesToRegisterAs` getter: the contracts resolver applied to
      the type field. With no type set it throws exactly for the strategies
      that read the type. */
  function InterfacesToRegisterAs(g: Registration): (r: Result<seq<TypeInfo>>)
    ensures g.current.None? ==> (r.Err? <==> ReadsType(g.contracts))
    ensures g.contracts.FixedContracts? ==> r == Ok(g.contracts.contracts)
    ensures g.contracts.AllInterfaces? && g.current.Some? ==> r == Ok(g.current.value.interfaces)
  {
    Contracts(g.contracts, g.current)
  }

  /** The `NameToRegisterWith` setter: the name no longer depends on the type. */
  function SetNameToRegisterWith(g: Registration, name: string): (r: Registration)
    ensures forall t :: Name(r.name, t) == Ok(name)
    ensures OnlyNameChanged(g, r)
  {
    g.(name := LiteralName(name))
  }

  /** The `LifetimeManagerToRegisterWith` setter. */
  function SetLifetimeManagerToRegisterWith(g: Registration, l: Lifetime): (r: Registration)
    ensures r.lifetime == l
    ensures OnlyLifetimeChanged(g, r)
  {
    g.(lifetime := l)
  }

  /** The `Type` setter: a null type throws and keeps the previous one. */
  function SetType(g: Registration, t: Option<TypeInfo>): (r: Result<Registration>)
    ensures t.None? ==> r == Err(ArgumentNull(""))
    ensures t.Some? ==> r.Ok? && r.value.current == t
    ensures r.Ok? ==> r.value.contracts == g.contracts && r.value.name == g.name && r.value.lifetime == g.lifetime
  {
    if t.None? then Err(ArgumentNull("")) else Ok(g.(current := t))
  }

  /** `UsingLifetime<TLifetimeManager>()`. */
  function UsingLifetimeOfClass(g: Registration, l: Lifetime): (r: Registration)
    ensures r.lifetime == l && OnlyLifetimeChanged(g, r)
  {
    g.(lifetime := l)
  }

  /** `UsingLifetime(manager)`. */
  function UsingLifetimeManager(g: Registration, manager: Lifetime): (r: Registration)
    ensures r.lifetime == manager && OnlyLifetimeChanged(g, r)
  {
    g.(lifetime := manager)
  }

  /** `UsingSingetonMode()`: a container-controlled manager. */
  function UsingSingetonMode(g: Registration): (r: Registration)
    ensures r.lifetime == Singleton && OnlyLifetimeChanged(g, r)
  {
    g.(lifetime := Singleton)
  }

  /** `UsingPerCallMode()`: a transient manager. */
  function UsingPerCallMode(g: Registration): (r: Registration)
    ensures r.lifetime == Transient && OnlyLifetimeChanged(g, r)
  {
    g.(lifetime := Transient)
  }

  /** `WithName(string)`: the same as the `NameToRegisterWith` setter. */
  function WithName(g: Registration, name: string): (r: Registration)
    ensures r == SetNameToRegisterWith(g, name)
  {
    g.(name := LiteralName(name))
  }

  /** `WithName(Func<Type, string>)`. */
  function WithNameResolver(g: Registration, nameCreator: Option<TypeInfo> -> string): (r: Registration)
    ensures forall t :: Name(r.name, t) == Ok(nameCreator(t))
    ensures OnlyNameChanged(g, r)
  {
    g.(name := ComputedName(nameCreator))
  }

  /** `WithTypeName()`: the name is the type's own name. */
  function WithTypeName(g: Registration): (r: Registration)
    ensures forall t :: Name(r.name, Some(t)) == Ok(t.name)
    ensures Name(r.name, None) == Err(NullReference)
    ensures OnlyNameChanged(g, r)
  {
    g.(name := TypeName)
  }

  /** `AsInterface<TContract>()`: exactly that one contract. */
  function AsInterface(g: Registration, contract: TypeInfo): (r: Registration)
    ensures forall t :: Contracts(r.contracts, t) == Ok([contract])
    ensures OnlyContractsChanged(g, r)
  {
    g.(contracts := FixedContracts([contract]))
  }

  /** `AsFirstInterfaceOfType()`: the first interface; a type with none throws. */
  function AsFirstInterfaceOfType(g: Registration): (r: Registration)
    ensures forall t: TypeInfo :: |t.interfaces| > 0 ==> Contracts(r.contracts, Some(t)) == Ok([t.interfaces[0]])
    ensures forall t: TypeInfo :: |t.interfaces| == 0 ==> Contracts(r.contracts, Some(t)) == Err(NoElements)
    ensures OnlyContractsChanged(g, r)
  {
    g.(contracts := FirstInterface)
  }

  /** `AsSingleInterfaceOfType()`: the only interface; none or several throw. */
  function AsSingleInterfaceOfType(g: Registration): (r: Registration)
    ensures forall t: TypeInfo, c :: t.interfaces == [c] ==> Contracts(r.contracts, Some(t)) == Ok([c])
    ensures forall t: TypeInfo :: |t.interfaces| == 0 ==> Contracts(r.contracts, Some(t)) == Err(NoElements)
    ensures forall t: TypeInfo :: |t.interfaces| > 1 ==> Contracts(r.contracts, Some(t)) == Err(MoreThanOneElement)
    ensures OnlyContractsChanged(g, r)
  {
    g.(contracts := SingleInterface)
  }

  /** `AsAllInterfacesOfType()`: every interface, in reported order. */
  function AsAllInterfacesOfType(g: Registration): (r: Registration)
    ensures forall t :: Contracts(r.contracts, Some(t)) == Ok(t.interfaces)
    ensures OnlyContractsChanged(g, r)
  {
    g.(contracts := AllInterfaces)
  }

  /** What the setters store, the getters read back once a type is set,
      whatever the type. */
  lemma SettersReadBack(g: Registration, name: string, l: Lifetime, t: TypeInfo)
    ensures var r := SetType(SetLifetimeManagerToRegisterWith(SetNameToRegisterWith(g, name), l), Some(t)).value;
      NameToRegisterWith(r) == Ok(name) && r.lifetime == l
      && InterfacesToRegisterAs(r) == Contracts(g.contracts, Some(t))
  {
  }
}
