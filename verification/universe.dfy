/** The reflection surface the engine reads, as plain values.

    A type carries its own simple name (`Type.Name`), the interfaces it
    implements in the order `GetInterfaces()` reports them, and the types of
    the attributes attached to it (`GetCustomAttributes(false)`). An assembly
    is an ordered list of types, and the loaded-assembly universe is an
    ordered list of assemblies. Two types are the same type when all of their
    metadata agrees. */
module TypeUniverse {

  datatype TypeInfo = TypeInfo(
    namespace: string,
    name: string,
    interfaces: seq<TypeInfo>,
    attributes: seq<TypeInfo>)

  datatype Assembly = Assembly(name: string, types: seq<TypeInfo>)

  /** The lifetime-manager classes, compared by class rather than by object:
      TransientLifetimeManager, ContainerControlledLifetimeManager,
      PerThreadLifetimeManager, or any other LifetimeManager subclass. */
  datatype Lifetime = Transient | Singleton | PerThread | Custom(className: string)

  /** One `IUnityContainer.RegisterType(from, to, name, lifetime)` call. */
  datatype Bind = Bind(contract: TypeInfo, concrete: TypeInfo, name: string, lifetime: Lifetime)
}
