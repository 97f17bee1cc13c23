# Unity.AutoRegistration rule engine, in Dafny

This project models the core of Unity.AutoRegistration, a fluent add-on for
the Unity IoC container. The engine collects registration rules and
assembly and type filters. Applying it scans the loaded assemblies and
registers each surviving type with the container, once for each rule whose
type filter accepts it. A rule's registrations are either made by a
caller's registrator delegate or described by a `RegistrationOptions`
builder. The builder holds a contract-list resolver, a name resolver and a
lifetime resolver.

How the model is built:

- Reflection is replaced by values. `TypeUniverse.TypeInfo` holds a type's
  namespace, its name, its interfaces in reported order and the classes of
  its attributes. `TypeUniverse.Assembly` is an ordered list of types. The
  loaded-assembly universe is an ordered list of assemblies, and it is
  passed to the apply step explicitly.
- A lifetime manager is identified by its class (`Lifetime`: transient,
  container-controlled singleton, per-thread, or any other class).
- `RegisterType(from, to, name, lifetime)` calls on the container become
  `Bind` values. A pass returns a `Trace`: the binds it made, in order,
  plus the exception that stopped it, if any. Binds made before an
  exception stay; nothing is rolled back.
- Exceptions are `Errors.Error` values. A call that throws returns `Err`
  and produces no new engine or builder, so the caller's old value is the
  state after the failure. A reference argument the source checks for null
  is an `Option`, and `None` stands for null.
- The three builder resolvers are tagged variants (`Resolvers`), shared by
  `RegistrationOptions` and the older `Registration` builder. A mutator
  replaces exactly one resolver, so the last write wins. A caller-supplied
  resolver receives the builder's current type field as an `Option`,
  because the .NET lambda is called with whatever `_type` holds, null
  included.
- The `If` predicates are functions of a type's metadata only. They give
  the same answer however often and in whatever order they are evaluated.
- `AutoRegistration.Apply` is the apply step as a function of the engine
  and the universe. `AutoRegistration.ApplyAutoRegistration` is the source's
  nested loop over assemblies, types and rules, and it is proved to
  produce the same trace.

## Model

| member | source | states |
|---|---|---|
| Enumerable.Any | Unity.AutoRegistration/AutoRegistration.cs:151-152 | `Any` holds exactly when some element satisfies the predicate |
| Enumerable.First | Unity.AutoRegistration/RegistrationOptions.cs:253 | `First()` succeeds exactly on a non-empty sequence and returns its head; an empty one throws NoElements |
| Enumerable.Single | Unity.AutoRegistration/RegistrationOptions.cs:263 | `Single()` succeeds exactly on a one-element sequence and returns that element; empty throws NoElements, longer throws MoreThanOneElement |
| If.DecoratedWith | Unity.AutoRegistration/If.cs:11 | true iff the attribute class is among the type's attribute classes (exact class match) |
| If.Implements | Unity.AutoRegistration/If.cs:16 | true iff the contract is among the type's interfaces |
| If.TrimStart | Unity.AutoRegistration/If.cs:21 | the result is a suffix of the input; everything removed is the trimmed character; the result does not start with it |
| If.ImplementsITypeName | Unity.AutoRegistration/If.cs:21 | as written: true iff some interface name, with every leading 'I' trimmed, equals the type's name |
| If.ImplementsITypeNameIntended | Tests.AutoRegistration/AutoRegistrationFixture.cs:204-208 | the intended convention: true iff some interface is named "I" followed by the type's name |
| If.IntendedImpliesAsWritten | Unity.AutoRegistration/If.cs:19-22 | for a type name not starting with 'I' (the empty name included), the intended convention implies the as-written test |
| If.AsWrittenAcceptsSameName | Unity.AutoRegistration/If.cs:21 | the as-written test accepts a type with an interface of exactly its own name, no 'I' in front, for a type name not starting with 'I' |
| If.ImplementsSingleInterface | Unity.AutoRegistration/If.cs:26 | true iff the interface list is exactly one interface |
| If.AnyType | Unity.AutoRegistration/If.cs:31 | true of every type |
| Resolvers.Contracts | Unity.AutoRegistration/RegistrationOptions.cs:251-275 | interface strategies throw NullReference on an unset type. All-interfaces yields exactly the contracts `If.Implements` accepts, in order. First-interface yields a one-element prefix of the interfaces, or throws NoElements. Single-interface succeeds exactly where `If.ImplementsSingleInterface` holds, and otherwise throws NoElements or MoreThanOneElement. A fixed list is returned whatever the type; a computed list is the caller's function applied to the type field, null included |
| Resolvers.StripPart | Unity.AutoRegistration/RegistrationOptions.cs:200-203 | if the name ends with the part, the result followed by the part is the name; otherwise the result is the name unchanged |
| Resolvers.StripPartRoundTrip | Unity.AutoRegistration/RegistrationOptions.cs:190-204 | stripping a part from base + part gives back base |
| Resolvers.Name | Unity.AutoRegistration/RegistrationOptions.cs:183-206 | a literal name ignores the type. The type-name strategy returns the type's name and throws NullReference on an unset type. The part-name strategy throws on an unset type and on a null part, and otherwise satisfies the StripPart relation. A computed name is the caller's function applied to the type field, null included |
| Resolvers.LifetimeOf | Unity.AutoRegistration/RegistrationOptions.cs:97-104 | a fixed manager is the same whatever the type field holds; a computed one is the caller's function applied to the type field |
| RegistrationOptions.New | Unity.AutoRegistration/RegistrationOptions.cs:13-17 | a new builder has no type; its contracts are all the type's interfaces, its name is "" and its lifetime is transient, for every type |
| RegistrationOptions.LifetimeManager | Unity.AutoRegistration/RegistrationOptions.cs:25-28 | the getter applies the lifetime resolver to the type field and never throws: a fixed manager whatever the type, otherwise the caller's function of the type field |
| RegistrationOptions.GetName | Unity.AutoRegistration/RegistrationOptions.cs:41-44 | the getter applies the name resolver to the type field; with no type set it throws exactly for the type-name and part-name strategies; a literal name comes back as set |
| RegistrationOptions.Interfaces | Unity.AutoRegistration/RegistrationOptions.cs:57-60 | the getter applies the contracts resolver to the type field; with no type set it throws exactly for the interface strategies; a fixed list comes back as set |
| RegistrationOptions.SetLifetimeManager | Unity.AutoRegistration/RegistrationOptions.cs:29-32 | afterwards the lifetime is the value set for every type; nothing else changes |
| RegistrationOptions.SetName | Unity.AutoRegistration/RegistrationOptions.cs:45-48 | afterwards the name is the value set for every type; nothing else changes |
| RegistrationOptions.SetInterfaces | Unity.AutoRegistration/RegistrationOptions.cs:61-64 | afterwards the contracts are the list set for every type; nothing else changes |
| RegistrationOptions.SetType | Unity.AutoRegistration/RegistrationOptions.cs:71-79 | a null type throws ArgumentNull and yields no builder; otherwise only the type field changes |
| RegistrationOptions.ConstantsIgnoreType | Unity.AutoRegistration/RegistrationOptions.cs:23-65 | name, lifetime and contracts set through the properties read back unchanged after the type is set |
| RegistrationOptions.UsingLifetimeOfClass | Unity.AutoRegistration/RegistrationOptions.cs:86-90 | a manager of the given class for every type; only the lifetime resolver changes |
| RegistrationOptions.UsingLifetimeResolver | Unity.AutoRegistration/RegistrationOptions.cs:97-104 | a null resolver throws ArgumentNull("lifetimeResolver"); otherwise the lifetime is the resolver's value, and only that resolver changes |
| RegistrationOptions.UsingLifetimeManager | Unity.AutoRegistration/RegistrationOptions.cs:112-119 | a null manager throws ArgumentNull("manager"); otherwise that manager for every type, and only that resolver changes |
| RegistrationOptions.UsingSingetonMode | Unity.AutoRegistration/RegistrationOptions.cs:125-129 | singleton for every type; only the lifetime resolver changes |
| RegistrationOptions.UsingPerCallMode | Unity.AutoRegistration/RegistrationOptions.cs:135-139 | transient for every type; only the lifetime resolver changes |
| RegistrationOptions.UsingPerThreadMode | Unity.AutoRegistration/RegistrationOptions.cs:145-149 | per-thread for every type; only the lifetime resolver changes |
| RegistrationOptions.WithName | Unity.AutoRegistration/RegistrationOptions.cs:156-163 | a null name throws ArgumentNull("name"); otherwise it is the Name setter |
| RegistrationOptions.WithNameResolver | Unity.AutoRegistration/RegistrationOptions.cs:170-177 | a null resolver throws ArgumentNull("nameResolver"); otherwise the name is the resolver's value, and only the name resolver changes |
| RegistrationOptions.WithTypeName | Unity.AutoRegistration/RegistrationOptions.cs:183-187 | the name is the type's own name, and reading it with no type set throws NullReference; only the name resolver changes |
| RegistrationOptions.WithPartName | Unity.AutoRegistration/RegistrationOptions.cs:196-206 | a type named base + part gets the name base; a type whose name does not end with the part keeps its name; a null part throws only when the name is read |
| RegistrationOptions.As | Unity.AutoRegistration/RegistrationOptions.cs:213-217 | the contracts are exactly the given one, whatever the type implements; only the contracts resolver changes |
| RegistrationOptions.AsResolver | Unity.AutoRegistration/RegistrationOptions.cs:224-231 | a null resolver throws ArgumentNull("typeResolver"); otherwise the contracts are the single one it picks |
| RegistrationOptions.AsResolverMany | Unity.AutoRegistration/RegistrationOptions.cs:238-245 | a null resolver throws ArgumentNull("typesResolver"); otherwise the contracts are the list it returns |
| RegistrationOptions.AsFirstInterfaceOfType | Unity.AutoRegistration/RegistrationOptions.cs:251-255 | the contracts are the first interface alone; a type with none throws NoElements |
| RegistrationOptions.AsSingleInterfaceOfType | Unity.AutoRegistration/RegistrationOptions.cs:261-265 | the contracts are the only interface; none throws NoElements, several throw MoreThanOneElement |
| RegistrationOptions.AsAllInterfacesOfType | Unity.AutoRegistration/RegistrationOptions.cs:271-275 | the contracts are all the type's interfaces, in order |
| Registration.New | Unity.AutoRegistration/Registration.cs:12-18 | a new builder yields no contracts for any type, the name "", and a transient lifetime |
| Registration.NameToRegisterWith | Unity.AutoRegistration/Registration.cs:24-27 | the getter applies the name resolver to the type field; with no type set it throws exactly for the strategies that read the type; a literal name comes back as set |
| Registration.InterfacesToRegisterAs | Unity.AutoRegistration/Registration.cs:36-39 | the getter applies the contracts resolver to the type field; with no type set it throws exactly for the interface strategies; a fixed list comes back as set |
| Registration.SetNameToRegisterWith | Unity.AutoRegistration/Registration.cs:28-31 | afterwards the name is the value set for every type; nothing else changes |
| Registration.SetLifetimeManagerToRegisterWith | Unity.AutoRegistration/Registration.cs:20 | the lifetime field becomes the value set; nothing else changes |
| Registration.SettersReadBack | Unity.AutoRegistration/Registration.cs:20-31 | a name and a lifetime set through the properties read back unchanged after the type is set, and the contracts are those of the type |
| Registration.SetType | Unity.AutoRegistration/Registration.cs:42-50 | a null type throws ArgumentNull and yields no builder; otherwise only the type field changes |
| Registration.UsingLifetimeOfClass | Unity.AutoRegistration/Registration.cs:52-56 | the lifetime field becomes the given class; nothing else changes |
| Registration.UsingLifetimeManager | Unity.AutoRegistration/Registration.cs:58-62 | the lifetime field becomes the given manager; nothing else changes |
| Registration.UsingSingetonMode | Unity.AutoRegistration/Registration.cs:64-68 | the lifetime field becomes singleton; nothing else changes |
| Registration.UsingPerCallMode | Unity.AutoRegistration/Registration.cs:70-74 | the lifetime field becomes transient; nothing else changes |
| Registration.WithName | Unity.AutoRegistration/Registration.cs:76-80 | the same as the NameToRegisterWith setter |
| Registration.WithNameResolver | Unity.AutoRegistration/Registration.cs:82-86 | the name is the resolver's value for every type; only the name resolver changes |
| Registration.WithTypeName | Unity.AutoRegistration/Registration.cs:88-92 | the name is the type's own name, and it throws NullReference with no type set; only the name resolver changes |
| Registration.AsInterface | Unity.AutoRegistration/Registration.cs:94-98 | the contracts are exactly the given one; only the contracts resolver changes |
| Registration.AsFirstInterfaceOfType | Unity.AutoRegistration/Registration.cs:100-104 | the first interface alone; a type with none throws NoElements |
| Registration.AsSingleInterfaceOfType | Unity.AutoRegistration/Registration.cs:106-110 | the only interface; none throws NoElements, several throw MoreThanOneElement |
| Registration.AsAllInterfacesOfType | Unity.AutoRegistration/Registration.cs:112-116 | all the type's interfaces, in order |
| AutoRegistration.New | Unity.AutoRegistration/AutoRegistration.cs:27-32 | a null container throws ArgumentNull("container") and gives no engine; otherwise all four lists start empty |
| AutoRegistration.Include | Unity.AutoRegistration/AutoRegistration.cs:41-52 | a null filter throws first, then a null registrator; otherwise exactly one rule is appended at the end and nothing else changes |
| AutoRegistration.IncludeWithOptions | Unity.AutoRegistration/AutoRegistration.cs:61-86 | a null filter throws first, then null options; otherwise exactly one builder rule is appended at the end and nothing else changes |
| AutoRegistration.ExcludeAssemblies | Unity.AutoRegistration/AutoRegistration.cs:94-101 | a null filter throws; otherwise the filter is appended to the assembly-exclude list and nothing else changes |
| AutoRegistration.IncludeAssemblies | Unity.AutoRegistration/AutoRegistration.cs:109-116 | a null filter throws; otherwise the filter is appended to the assembly-include list and nothing else changes |
| AutoRegistration.IncludeAllLoadedAssemblies | Unity.AutoRegistration/AutoRegistration.cs:123-127 | an always-true filter is put at position 0 of the include list; the other lists are untouched |
| AutoRegistration.Exclude | Unity.AutoRegistration/AutoRegistration.cs:134-141 | a null filter throws; otherwise the filter is appended to the type-exclude list and nothing else changes |
| AutoRegistration.RegisterWithOptions | Unity.AutoRegistration/AutoRegistration.cs:72-83 | a builder rule sets the type and reads the contract list once. An exception from the contract list, or from the name when there is a contract to register, is raised before any bind. Otherwise it does not throw and makes one bind per contract, in order, each with the builder's name and lifetime and the matched type as the concrete type |
| AutoRegistration.BuilderRuleAddsOneBindPerContract | Unity.AutoRegistration/AutoRegistration.cs:74-82 | a builder rule whose filter accepts the type, tried after rules that did not throw, adds exactly one bind per contract after the earlier binds, each with the builder's name and lifetime |
| AutoRegistration.Fire | Unity.AutoRegistration/AutoRegistration.cs:173-177 | a rule does nothing when its filter rejects the type; otherwise it runs its registrator or its builder |
| AutoRegistration.FireRules | Unity.AutoRegistration/AutoRegistration.cs:155-156 | the rule loop for one type produces the functional trace of all rules in registration order |
| AutoRegistration.FireOnKeptTypes | Unity.AutoRegistration/AutoRegistration.cs:153-156 | the type loop over one assembly, including the early exit on an exception, continues the functional trace over the types no type-exclude filter accepts |
| AutoRegistration.ApplyAutoRegistration | Unity.AutoRegistration/AutoRegistration.cs:147-157 | the nested loop over assemblies, types and rules, including the early exit on an exception, produces exactly the functional `Apply` trace |
| AutoRegistration.FireOnTypesAppend | Unity.AutoRegistration/AutoRegistration.cs:149-156 | a pass over xs + ys is the pass over xs followed by the pass over ys: order is type order |
| AutoRegistration.FireAllAppend | Unity.AutoRegistration/AutoRegistration.cs:155-156 | trying rules xs + ys on a type is trying xs and then ys: order is registration order |
| AutoRegistration.FailureEndsPass | Unity.AutoRegistration/AutoRegistration.cs:149-156 | once a pass has thrown, later types add nothing to its trace |
| AutoRegistration.KeptTypesExactly | Unity.AutoRegistration/AutoRegistration.cs:154 | a type survives type filtering iff it is in the list and no type-exclude filter accepts it |
| AutoRegistration.ScannedTypesExactly | Unity.AutoRegistration/AutoRegistration.cs:149-154 | a type reaches the rules iff it lies in an assembly that no exclude filter and some include filter accepts, and no type-exclude filter accepts it |
| AutoRegistration.ExcludedAssemblyNeverScanned | Unity.AutoRegistration/AutoRegistration.cs:151 | a type whose every assembly is excluded never reaches a rule, even when an include filter matches |
| AutoRegistration.ExcludedTypeNeverScanned | Unity.AutoRegistration/AutoRegistration.cs:154 | a type accepted by a type-exclude filter never reaches a rule |
| AutoRegistration.NoIncludeNoBinds | Unity.AutoRegistration/AutoRegistration.cs:152 | with an empty include list no type is scanned and the pass makes no bind, whatever the rules |
| AutoRegistration.IncludeAllScansUnexcluded | Unity.AutoRegistration/AutoRegistration.cs:125 | after IncludeAllLoadedAssemblies an assembly is scanned iff no exclude filter accepts it |
| AutoRegistration.ExcludeAssembliesShrinksScan | Unity.AutoRegistration/AutoRegistration.cs:94-101 | adding an assembly-exclude filter never adds a type to the scan |
| AutoRegistration.BindsComeFromScannedTypes | Unity.AutoRegistration/AutoRegistration.cs:72-83 | with builder rules only, every bind's concrete type is a scanned type |
| AutoRegistration.ExcludedTypesNeverRegistered | Unity.AutoRegistration/AutoRegistration.cs:149-156 | with builder rules only, a type that is type-excluded or whose assemblies are all excluded is never the concrete type of a bind |
| Scenarios.FixtureRuleRegistersNothing | Tests.AutoRegistration/AutoRegistrationFixture.cs:137-159 | as the fixture configures it, with no include filter, a TestCache rule registers nothing, whatever its builder |
| Scenarios.DefaultOptionsOnTestCache | Unity.AutoRegistration/RegistrationOptions.cs:15-17 | a default builder registers TestCache exactly as ICache and IDisposable, with name "" and a transient lifetime |
| Scenarios.DefaultOptionsBindAllInterfaces | Unity.AutoRegistration/AutoRegistration.cs:72-83 | after `IncludeAllLoadedAssemblies`, a default-builder rule for TestCache makes exactly the registrations as ICache and IDisposable, with name "" and a transient lifetime, that the fixture expects at AutoRegistrationFixture.cs:146-158 |
| Scenarios.ExplicitOptionsOnTestCache | Unity.AutoRegistration/RegistrationOptions.cs:23-65 | a builder with one contract, a singleton lifetime and a name set through the properties registers TestCache once with exactly those values |
| Scenarios.ExplicitOptionsBindOnce | Unity.AutoRegistration/AutoRegistration.cs:72-83 | after `IncludeAllLoadedAssemblies`, that builder's rule makes exactly the one registration the fixture expects at AutoRegistrationFixture.cs:177-181 |
| Scenarios.PartNameOfCustomerRepository | Tests.AutoRegistration/AutoRegistrationFixture.cs:254-260 | `WithPartName("Repository")` names CustomerRepository "Customer" |
| Scenarios.ITypeNameMissesIntroduction | Tests.AutoRegistration/AutoRegistrationFixture.cs:207 | the as-written test rejects `Introduction : IIntroduction`, which the intended convention accepts |
| Scenarios.ITypeNameAcceptsUnprefixedInterface | Unity.AutoRegistration/If.cs:21 | the as-written test accepts `Handler : Handler`, an interface with no 'I' in front, which the intended convention rejects |

## Findings

| source | as written | input that shows it | evidently intended | confidence | as-written member | corrected member |
|---|---|---|---|---|---|---|
| Unity.AutoRegistration/If.cs:21 | `i.Name.TrimStart('I') == type.Name` strips every leading 'I' of the interface name | type `Introduction` implementing `IIntroduction`: the trimmed name is "ntroduction", so the test is false, while the fixture (AutoRegistrationFixture.cs:207) asserts true | strip exactly one leading 'I': the interface is named "I" + the type's name | high; not executed | If.ImplementsITypeName (counterexamples Scenarios.ITypeNameMissesIntroduction, Scenarios.ITypeNameAcceptsUnprefixedInterface) | If.ImplementsITypeNameIntended |
| Tests.AutoRegistration/AutoRegistrationFixture.cs:141-144 | the fixture's registering tests configure the engine with `ConfigureAutoRegistration()` (only the constructor, Extension.cs:32-35) and add no include filter, so `_includedAssemblyFilters.Any` (AutoRegistration.cs:152) rejects every assembly | the default-options rule for TestCache: the pass registers nothing, while the test expects two registrations (line 146); the tests at lines 172-175, 188-196, 214-218 and 235-238 have the same shape | the loaded assemblies are included, as `IncludeAllLoadedAssemblies()` does | high; not executed | Scenarios.FixtureRuleRegistersNothing | Scenarios.DefaultOptionsBindAllInterfaces and Scenarios.ExplicitOptionsBindOnce (rule added after IncludeAllLoadedAssemblies) |

The predicate library keeps both naming tests. The as-written one is what a
rule built from `If.ImplementsITypeName` runs. It errs in both directions:
it rejects `Introduction : IIntroduction` and accepts an interface named
exactly like the type. The engine keeps the include-filter check as
written; the scenarios that register something include all loaded
assemblies first.

## Left out

- Assembly loading from files (LoadAssembyExtensions.cs, `IncludeAssembly` in Extension.cs) is I/O. The universe of loaded assemblies is passed in as a value instead.
- The reflection shims (Polyfills/AppDomain.cs, Polyfills/TypeInfo.cs, including their concurrent cache) and TypeExtensions.cs are replaced by the `TypeInfo` metadata record.
- `Extension.GetAttribute` reads attribute objects by reflection, and `ConfigureAutoRegistration` only calls the constructor (modelled as `AutoRegistration.New`).
- TargetFrameworkInformation.cs holds build metadata. The interface files (IFluentRegistration.cs, IRegistrationOptions.cs, IRegistration.cs) declare signatures with no behaviour.
- Open-generic contract matching, the `Then` builder and `If.Is`/`If.ContainsType`/`ExcludeSystemAssemblies` are called by the tests but are defined outside the modelled files. A name-convention contract strategy is likewise absent from the source's builders.
- Lifetime managers are compared by class. A fresh manager per registration and one shared instance are not told apart.
- Types are identified by their metadata value, not by runtime identity. `GetInterfaces()` order is taken to be the order listed in `TypeInfo`.
- `WithPartName` uses ordinal `EndsWith`. The .NET one-argument overload compares culture-sensitively.
- Caller delegates (filters, registrators, resolvers) are modelled as total, pure functions. An exception thrown inside one, a side effect of one, or a resolver that returns null is not modelled. The container never rejects a `RegisterType` call.
- A registrator delegate is modelled by the binds it makes on the container. Anything else it does with the container is not modelled.
- RegistrationOptions.SetName: the source's setter also accepts null and stores it unchecked; the model takes a non-null name.
- RegistrationOptions.SetInterfaces: the source's setter stores a null list unchecked; the model takes a list.
- RegistrationOptions.SetLifetimeManager: the source's setter stores a null manager unchecked; the model takes a manager class.
- Registration.SetNameToRegisterWith: the source's setter (Registration.cs:30) stores a null name unchecked; the model takes a non-null name.
- Registration.SetLifetimeManagerToRegisterWith: the auto-property (Registration.cs:20) stores a null manager unchecked; the model takes a manager class.
- Registration.WithName: the source stores a null name unchecked; the model takes a non-null name.
- Registration.WithNameResolver: the source stores a null resolver unchecked; the model takes a function.
- Registration.UsingLifetimeManager: the source stores a null manager unchecked; the model takes a manager class.
- RegistrationOptions.WithPartName: with an empty part, `EndsWith("")` holds and RegistrationOptions.cs:202 calls `Remove(Length)`. The model returns the whole name, as the netstandard runtimes do. On the .NET Framework targets (net40, net45) `String.Remove` rejects a start index equal to the length, so there reading the name throws.
- Resolvers.StripPart: for an empty part it returns the whole name, the netstandard behaviour; the .NET Framework targets throw there, as described for WithPartName.
- Resolvers.Name: the part-name strategy with an empty part yields the whole name, the netstandard behaviour; the .NET Framework targets throw there.
- A builder rule captures its `RegistrationOptions` as a value when the rule is added. Later changes made through another reference to the same .NET object are not seen. After a pass the .NET builder's type field holds the last matched type, and the model does not return it.
- The older `Registration` builder does not provide the `Interfaces`/`Name`/`LifetimeManager` members that `Include` reads, so it is modelled on its own and not as a rule action.
- A builder's contracts are an ordered list that can hold duplicates, not a set. The builders have no name-convention or open-generic contract strategy. The naming test is the `TrimStart` form recorded under Findings.
- The source's LINQ chain evaluates filters lazily, interleaved with rule firing. Filters are pure, so the model evaluates them up front, and the binds are the same.
