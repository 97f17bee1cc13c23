/** The three resolvers a registration builder holds: from the type being
    registered to its contracts, to its registration name, and to its
    lifetime manager. Each is a tagged variant naming one strategy of the
    builders; `Computed*` variants carry a caller-supplied function, which
    receives the builder's current type field exactly as the .NET lambda
    does, null included. */
module Resolvers {
  import opened Errors
  import opened TypeUniverse
  import Enumerable
  import If

  datatype ContractResolver =
    | AllInterfaces                                           // new List<Type>(t.GetInterfaces())
    | FirstInterface                                          // { t.GetInterfaces().First() }
    | SingleInterface                                         // { t.GetInterfaces().Single() }
    | FixedContracts(contracts: seq<TypeInfo>)                // a list that ignores the type
    | ComputedContracts(f: Option<TypeInfo> -> seq<TypeInfo>) // a list computed by the caller

  datatype NameResolver =
    | LiteralName(value: string)                  // a name that ignores the type
    | TypeName                                    // t.Name
    | PartName(part: Option<string>)              // t.Name without a trailing application part
    | ComputedName(f: Option<TypeInfo> -> string) // a name computed by the caller

  datatype LifetimeResolver =
    | FixedLifetime(lifetime: Lifetime)
    | ComputedLifetime(f: Option<TypeInfo> -> Lifetime)

  /** True of the strategies that dereference the type they are given. */
  predicate ReadsType(r: ContractResolver)
  {
    r.AllInterfaces? || r.FirstInterface? || r.SingleInterface?
  }

  /** The contracts `r` yields for the type field `t` (null when `None`). */
  function Contracts(r: ContractResolver, t: Option<TypeInfo>): (res: Result<seq<TypeInfo>>)
    // the interface-based strategies throw on an unset type
    ensures ReadsType(r) && t.None? ==> res == Err(NullReference)
    // all interfaces: exactly the contracts `If.Implements` accepts, in reported order
    ensures r.AllInterfaces? && t.Some? ==>
      res.Ok? && (forall c :: c in res.value <==> If.Implements(t.value, c))
      && res.value == t.value.interfaces
    // first interface: a one-element prefix of the interface list, or NoElements
    ensures r.FirstInterface? && t.Some? ==>
      (res.Ok? <==> |t.value.interfaces| > 0)
      && (res.Ok? ==> |res.value| == 1 && res.value <= t.value.interfaces)
      && (res.Err? ==> res.error == NoElements)
    // single interface: succeeds exactly on the types `If.ImplementsSingleInterface` accepts
    ensures r.SingleInterface? && t.Some? ==>
      (res.Ok? <==> If.ImplementsSingleInterface(t.value))
      && (res.Ok? ==> res.value == t.value.interfaces)
      && (|t.value.interfaces| == 0 ==> res == Err(NoElements))
      && (|t.value.interfaces| > 1 ==> res == Err(MoreThanOneElement))
    // fixed and computed lists never throw: a fixed list ignores the type,
    // a computed one is the caller's function of the type field
    ensures !ReadsType(r) ==> res.Ok?
    ensures r.FixedContracts? ==> res == Ok(r.contracts)
    ensures r.ComputedContracts? ==> res == Ok(r.f(t))
  {
    match r
    case AllInterfaces =>
      if t.None? then Err(NullReference) else Ok(t.value.interfaces)
    case FirstInterface =>
      if t.None? then Err(NullReference)
      else
        var c :- Enumerable.First(t.value.interfaces);
        Ok([c])
    case SingleInterface =>
      if t.None? then Err(NullReference)
      else
        var c :- Enumerable.Single(t.value.interfaces);
        Ok([c])
    case FixedContracts(cs) => Ok(cs)
    case ComputedContracts(f) => Ok(f(t))
  }

  /** Ordinal `String.EndsWith`. */
  predicate EndsWith(s: string, suffix: string)
  {
    |suffix| <= |s| && s[|s| - |suffix|..] == suffix
  }

  /** The name `WithPartName(part)` derives from `typeName`: the name minus
      the part when it ends with the part, the whole name otherwise. */
  function StripPart(typeName: string, part: string): (r: string)
    ensures EndsWith(typeName, part) ==> r + part == typeName
    ensures !EndsWith(typeName, part) ==> r == typeName
  {
    if EndsWith(typeName, part) then typeName[..|typeName| - |part|] else typeName
  }

  /** Appending a part and stripping it again gives back the base name,
      e.g. "Customer" + "Repository" gives "Customer". */
  lemma {:induction false} StripPartRoundTrip(base: string, part: string)
    ensures StripPart(base + part, part) == base
  {
    var s := base + part;
    assert s[|s| - |part|..] == part;
    assert EndsWith(s, part);
    assert s[..|s| - |part|] == base;
  }

  /** The name `r` yields for the type field `t` (null when `None`). */
  function Name(r: NameResolver, t: Option<TypeInfo>): (res: Result<string>)
    ensures r.LiteralName? ==> res == Ok(r.value)
    ensures r.TypeName? ==> (t.None? <==> res.Err?) && (t.Some? ==> res == Ok(t.value.name))
    ensures r.PartName? && t.None? ==> res == Err(NullReference)
    // EndsWith(null) throws; that surfaces only when the name is read
    ensures r.PartName? && t.Some? && r.part.None? ==> res == Err(ArgumentNull("value"))
    ensures r.PartName? && t.Some? && r.part.Some? ==>
      res.Ok? &&
      (if EndsWith(t.value.name, r.part.value) then res.value + r.part.value == t.value.name
       else res.value == t.value.name)
    ensures r.ComputedName? ==> res == Ok(r.f(t))
  {
    match r
    case LiteralName(s) => Ok(s)
    case TypeName => if t.None? then Err(NullReference) else Ok(t.value.name)
    case PartName(p) =>
      if t.None? then Err(NullReference)
      else if p.None? then Err(ArgumentNull("value"))
      else Ok(StripPart(t.value.name, p.value))
    case ComputedName(f) => Ok(f(t))
  }

  /** The lifetime manager `r` yields for the type field `t`. */
  function LifetimeOf(r: LifetimeResolver, t: Option<TypeInfo>): (l: Lifetime)
    // a fixed manager is the same whatever the type field holds, null included
    ensures r.FixedLifetime? ==> l == r.lifetime
    ensures r.ComputedLifetime? ==> l == r.f(t)
  {
    match r
    case FixedLifetime(l) => l
    case ComputedLifetime(f) => f(t)
  }
}
