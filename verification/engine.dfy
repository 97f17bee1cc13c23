/** `AutoRegistration`: the engine. It collects registration rules and
    three kinds of filter, then scans the loaded assemblies and fires every
    rule on every surviving type. The loaded-assembly universe is passed in
    explicitly, and the registrations the pass performs on the container
    come back as the list of `Bind`s it made, in order. */
module AutoRegistration {
  import opened Errors
  import opened TypeUniverse
  import Enumerable
  import RegistrationOptions

  /** The container the engine registers into; only its presence matters. */
  datatype Container = Container(id: nat)

  /** What a rule does with a type that passes its filter: run a caller's
      registrator, which performs the given binds, or register the type as
      a `RegistrationOptions` builder describes. */
  datatype Action =
    | Registrator(register: TypeInfo -> seq<Bind>)
    | WithOptions(options: RegistrationOptions.Options)

  /** A registration rule (`RegistrationEntry`). */
  datatype Entry = Entry(filter: TypeInfo -> bool, action: Action)

  datatype Engine = Engine(
    container: Container,
    entries: seq<Entry>,
    excludedAssemblies: seq<Assembly -> bool>,
    excludedTypes: seq<TypeInfo -> bool>,
    includedAssemblies: seq<Assembly -> bool>)

  /** What a pass produced: the binds performed, in order, and the exception
      that stopped it, if any. Binds made before the exception stay. */
  datatype Trace = Trace(binds: seq<Bind>, failure: Option<Error>)

  /** A pass that did nothing. */
  function Empty(): Trace
  {
    Trace([], None)
  }

  /** Running `a` and then, unless `a` threw, `b`. */
  function AndThen(a: Trace, b: Trace): (r: Trace)
    ensures a.failure.Some? ==> r == a
    ensures a.failure.None? ==> r.binds == a.binds + b.binds && r.failure == b.failure
  {
    if a.failure.Some? then a else Trace(a.binds + b.binds, b.failure)
  }

  // ---------------------------------------------------------------- configuration

  /** The constructor: a null container throws; otherwise every list is empty. */
  function New(container: Option<Container>): (r: Result<Engine>)
    ensures container.None? <==> r.Err?
    ensures container.None? ==> r.error == ArgumentNull("container")
    ensures r.Ok? ==>
      r.value.container == container.value
      && r.value.entries == [] && r.value.excludedAssemblies == []
      && r.value.excludedTypes == [] && r.value.includedAssemblies == []
  {
    if container.None? then Err(ArgumentNull("container"))
    else Ok(Engine(container.value, [], [], [], []))
  }

  /** Only the rule list differs between `e` and `r`, and it grew by `entry` at the end. */
  ghost predicate AppendedEntry(e: Engine, r: Engine, entry: Entry)
  {
    r.entries == e.entries + [entry]
    && r.container == e.container
    && r.excludedAssemblies == e.excludedAssemblies
    && r.excludedTypes == e.excludedTypes
    && r.includedAssemblies == e.includedAssemblies
  }

  /** `Include(typeFilter, registrator)`. The filter is checked first. */
  function Include(e: Engine, typeFilter: Option<TypeInfo -> bool>, registrator: Option<TypeInfo -> seq<Bind>>): (r: Result<Engine>)
    ensures typeFilter.None? ==> r == Err(ArgumentNull("typeFilter"))
    ensures typeFilter.Some? && registrator.None? ==> r == Err(ArgumentNull("registrator"))
    ensures typeFilter.Some? && registrator.Some? ==>
      r.Ok? && AppendedEntry(e, r.value, Entry(typeFilter.value, Registrator(registrator.value)))
  {
    if typeFilter.None? then Err(ArgumentNull("typeFilter"))
    else if registrator.None? then Err(ArgumentNull("registrator"))
    else Ok(e.(entries := e.entries + [Entry(typeFilter.value, Registrator(registrator.value))]))
  }

  /** `Include(typeFilter, registrationOptions)`. The filter is checked first. */
  function IncludeWithOptions(e: Engine, typeFilter: Option<TypeInfo -> bool>, options: Option<RegistrationOptions.Options>): (r: Result<Engine>)
    ensures typeFilter.None? ==> r == Err(ArgumentNull("typeFilter"))
    ensures typeFilter.Some? && options.None? ==> r == Err(ArgumentNull("registrationOptions"))
    ensures typeFilter.Some? && options.Some? ==>
      r.Ok? && AppendedEntry(e, r.value, Entry(typeFilter.value, WithOptions(options.value)))
  {
    if typeFilter.None? then Err(ArgumentNull("typeFilter"))
    else if options.None? then Err(ArgumentNull("registrationOptions"))
    else Ok(e.(entries := e.entries + [Entry(typeFilter.value, WithOptions(options.value))]))
  }

  /** `ExcludeAssemblies(filter)`: appends to the assembly-exclude list only. */
  function ExcludeAssemblies(e: Engine, filter: Option<Assembly -> bool>): (r: Result<Engine>)
    ensures filter.None? ==> r == Err(ArgumentNull("filter"))
    ensures filter.Some? ==>
      r.Ok? && r.value.excludedAssemblies == e.excludedAssemblies + [filter.value]
      && r.value.container == e.container && r.value.entries == e.entries
      && r.value.excludedTypes == e.excludedTypes && r.value.includedAssemblies == e.includedAssemblies
  {
    if filter.None? then Err(ArgumentNull("filter"))
    else Ok(e.(excludedAssemblies := e.excludedAssemblies + [filter.value]))
  }

  /** `IncludeAssemblies(filter)`: appends to the assembly-include list only. */
  function IncludeAssemblies(e: Engine, filter: Option<Assembly -> bool>): (r: Result<Engine>)
    ensures filter.None? ==> r == Err(ArgumentNull("filter"))
    ensures filter.Some? ==>
      r.Ok? && r.value.includedAssemblies == e.includedAssemblies + [filter.value]
      && r.value.container == e.container && r.value.entries == e.entries
      && r.value.excludedTypes == e.excludedTypes && r.value.excludedAssemblies == e.excludedAssemblies
  {
    if filter.None? then Err(ArgumentNull("filter"))
    else Ok(e.(includedAssemblies := e.includedAssemblies + [filter.value]))
  }

  /** `IncludeAllLoadedAssemblies()`: puts an always-true include filter first. */
  function IncludeAllLoadedAssemblies(e: Engine): (r: Engine)
    ensures |r.includedAssemblies| == |e.includedAssemblies| + 1
    ensures forall a :: r.includedAssemblies[0](a)
    ensures r.includedAssemblies[1..] == e.includedAssemblies
    ensures r.container == e.container && r.entries == e.entries
    ensures r.excludedAssemblies == e.excludedAssemblies && r.excludedTypes == e.excludedTypes
  {
    e.(includedAssemblies := [(a: Assembly) => true] + e.includedAssemblies)
  }

  /** `Exclude(filter)`: appends to the type-exclude list only. */
  function Exclude(e: Engine, filter: Option<TypeInfo -> bool>): (r: Result<Engine>)
    ensures filter.None? ==> r == Err(ArgumentNull("filter"))
    ensures filter.Some? ==>
      r.Ok? && r.value.excludedTypes == e.excludedTypes + [filter.value]
      && r.value.container == e.container && r.value.entries == e.entries
      && r.value.excludedAssemblies == e.excludedAssemblies && r.value.includedAssemblies == e.includedAssemblies
  {
    if filter.None? then Err(ArgumentNull("filter"))
    else Ok(e.(excludedTypes := e.excludedTypes + [filter.value]))
  }

  // ---------------------------------------------------------------- the pass

  /** Some filter in `filters` accepts `x`. */
  predicate AnyMatch<T>(filters: seq<T -> bool>, x: T)
  {
    Enumerable.Any(filters, (f: T -> bool) => f(x))
  }

  /** An assembly is scanned when no exclude filter and some include filter accepts it. */
  predicate AssemblyScanned(e: Engine, a: Assembly)
  {
    !AnyMatch(e.excludedAssemblies, a) && AnyMatch(e.includedAssemblies, a)
  }

  /** The types of `ts` no type-exclude filter accepts, in order. */
  function KeptTypes(e: Engine, ts: seq<TypeInfo>): seq<TypeInfo>
  {
    if |ts| == 0 then []
    else
      var last := ts[|ts| - 1];
      KeptTypes(e, ts[..|ts| - 1]) + (if AnyMatch(e.excludedTypes, last) then [] else [last])
  }

  /** The types the pass hands to the rules: the kept types of the scanned
      assemblies, in assembly order and then in type order. */
  function ScannedTypes(e: Engine, universe: seq<Assembly>): seq<TypeInfo>
  {
    if |universe| == 0 then []
    else
      var a := universe[|universe| - 1];
      ScannedTypes(e, universe[..|universe| - 1]) + (if AssemblyScanned(e, a) then KeptTypes(e, a.types) else [])
  }

  /** The binds a `RegistrationOptions` rule makes for `t`: it sets the
      builder's type to `t`, reads the contract list once and, for each
      contract in order, registers `t` under the builder's name and lifetime.
      The name is read only when there is a contract to register. */
  function RegisterWithOptions(o: RegistrationOptions.Options, t: TypeInfo): (r: Trace)
    ensures var o' := o.(current := Some(t));
      && (RegistrationOptions.Interfaces(o').Err? ==> r == Trace([], Some(RegistrationOptions.Interfaces(o').error)))
      // a name that throws is thrown before the first registration
      && ((RegistrationOptions.Interfaces(o').Ok? && |RegistrationOptions.Interfaces(o').value| > 0
           && RegistrationOptions.GetName(o').Err?)
          ==> r == Trace([], Some(RegistrationOptions.GetName(o').error)))
      // readable contracts, and a readable name whenever it is needed, never throw
      && ((RegistrationOptions.Interfaces(o').Ok?
           && (|RegistrationOptions.Interfaces(o').value| == 0 || RegistrationOptions.GetName(o').Ok?))
          ==> r.failure.None?)
      && (r.failure.None? ==>
            RegistrationOptions.Interfaces(o').Ok?
            && |r.binds| == |RegistrationOptions.Interfaces(o').value|
            && forall i :: 0 <= i < |r.binds| ==>
                 r.binds[i].contract == RegistrationOptions.Interfaces(o').value[i]
                 && Ok(r.binds[i].name) == RegistrationOptions.GetName(o'))
    ensures forall b :: b in r.binds ==>
      b.concrete == t && b.lifetime == RegistrationOptions.LifetimeManager(o.(current := Some(t)))
  {
    var o' := RegistrationOptions.SetType(o, Some(t)).value;
    match RegistrationOptions.Interfaces(o')
    case Err(err) => Trace([], Some(err))
    case Ok(contracts) =>
      if |contracts| == 0 then Empty()
      else
        match RegistrationOptions.GetName(o')
        case Err(err) => Trace([], Some(err))
        case Ok(name) =>
          var lifetime := RegistrationOptions.LifetimeManager(o');
          Trace(seq(|contracts|, i requires 0 <= i < |contracts| => Bind(contracts[i], t, name, lifetime)), None)
  }

  /** Rules `entries` and then one more rule `entry` on `t`. */
  lemma FireAllSnoc(entries: seq<Entry>, entry: Entry, t: TypeInfo)
    ensures FireAll(entries + [entry], t) == AndThen(FireAll(entries, t), Fire(entry, t))
  {
    var all := entries + [entry];
    assert all[..|all| - 1] == entries && all[|all| - 1] == entry;
  }

  /** A builder rule that accepts `t`, tried after rules that did not throw,
      adds exactly one bind per contract, in contract order, under the
      builder's name and lifetime, and keeps the earlier binds in front. */
  lemma {:induction false} BuilderRuleAddsOneBindPerContract(entries: seq<Entry>, filter: TypeInfo -> bool, o: RegistrationOptions.Options, t: TypeInfo)
    requires filter(t)
    requires FireAll(entries, t).failure.None?
    requires var o' := o.(current := Some(t));
      RegistrationOptions.Interfaces(o').Ok? && RegistrationOptions.GetName(o').Ok?
    ensures var o' := o.(current := Some(t));
      var contracts := RegistrationOptions.Interfaces(o').value;
      var before := FireAll(entries, t).binds;
      var r := FireAll(entries + [Entry(filter, WithOptions(o))], t);
      && r.failure.None?
      && |r.binds| == |before| + |contracts|
      && r.binds[..|before|] == before
      && forall i :: 0 <= i < |contracts| ==>
           r.binds[|before| + i] == Bind(contracts[i], t, RegistrationOptions.GetName(o').value, RegistrationOptions.LifetimeManager(o'))
  {
    var o' := o.(current := Some(t));
    var contracts := RegistrationOptions.Interfaces(o').value;
    var before := FireAll(entries, t).binds;
    var entry := Entry(filter, WithOptions(o));
    FireAllSnoc(entries, entry, t);
    var fired := RegisterWithOptions(o, t);
    assert Fire(entry, t) == fired;
    assert fired.failure.None? && |fired.binds| == |contracts|;
    assert FireAll(entries + [entry], t) == Trace(before + fired.binds, None);
    forall i | 0 <= i < |contracts|
      ensures (before + fired.binds)[|before| + i] == Bind(contracts[i], t, RegistrationOptions.GetName(o').value, RegistrationOptions.LifetimeManager(o'))
    {
      assert fired.binds[i] in fired.binds;
    }
  }

  /** `RegisterIfSatisfiesFilter`: the rule's action, when its filter accepts `t`. */
  function Fire(entry: Entry, t: TypeInfo): (r: Trace)
    ensures !entry.filter(t) ==> r == Empty()
    ensures entry.filter(t) && entry.action.Registrator? ==> r == Trace(entry.action.register(t), None)
    ensures entry.filter(t) && entry.action.WithOptions? ==> r == RegisterWithOptions(entry.action.options, t)
  {
    if !entry.filter(t) then Empty()
    else
      match entry.action
      case Registrator(register) => Trace(register(t), None)
      case WithOptions(o) => RegisterWithOptions(o, t)
  }

  /** Every rule of `entries` tried on `t`, in rule order. */
  function FireAll(entries: seq<Entry>, t: TypeInfo): Trace
  {
    if |entries| == 0 then Empty()
    else AndThen(FireAll(entries[..|entries| - 1], t), Fire(entries[|entries| - 1], t))
  }

  /** Every rule tried on every type of `ts`, in type order. */
  function FireOnTypes(entries: seq<Entry>, ts: seq<TypeInfo>): Trace
  {
    if |ts| == 0 then Empty()
    else AndThen(FireOnTypes(entries, ts[..|ts| - 1]), FireAll(entries, ts[|ts| - 1]))
  }

  /** `ApplyAutoRegistration()`, as a function of the engine and the universe. */
  function Apply(e: Engine, universe: seq<Assembly>): Trace
  {
    FireOnTypes(e.entries, ScannedTypes(e, universe))
  }

  /** The inner loop of `ApplyAutoRegistration()`: every rule tried on `t`
      in registration order, stopping at the first exception. */
  method FireRules(entries: seq<Entry>, t: TypeInfo) returns (r: Trace)
    ensures r == FireAll(entries, t)
  {
    r := Empty();
    var n := 0;
    while n < |entries|
      invariant 0 <= n <= |entries|
      invariant r == FireAll(entries[..n], t) && r.failure.None?
    {
      assert entries[..n + 1][..n] == entries[..n];
      var fired := Fire(entries[n], t);
      r := Trace(r.binds + fired.binds, fired.failure);
      if fired.failure.Some? {
        FireAllAppend(entries[..n + 1], entries[n + 1..], t);
        assert entries[..n + 1] + entries[n + 1..] == entries;
        return;
      }
      n := n + 1;
    }
    assert entries[..n] == entries;
  }

  /** The type loop of `ApplyAutoRegistration()` for one scanned assembly:
      each of `ts` that no type-exclude filter accepts is handed to the
      rules, continuing the pass that made `binds0` over `before`. */
  method FireOnKeptTypes(e: Engine, ts: seq<TypeInfo>, ghost before: seq<TypeInfo>, binds0: seq<Bind>)
    returns (binds: seq<Bind>, failure: Option<Error>)
    requires Trace(binds0, None) == FireOnTypes(e.entries, before)
    ensures Trace(binds, failure) == FireOnTypes(e.entries, before + KeptTypes(e, ts))
  {
    binds := binds0;
    failure := None;
    var j := 0;
    assert ts[..0] == [] && before + [] == before;
    while j < |ts|
      invariant 0 <= j <= |ts|
      invariant Trace(binds, None) == FireOnTypes(e.entries, before + KeptTypes(e, ts[..j]))
    {
      var t := ts[j];
      ghost var done := before + KeptTypes(e, ts[..j]);
      KeptTypesStep(e, ts, j);
      if !AnyMatch(e.excludedTypes, t) {
        var fired := FireRules(e.entries, t);
        FireOnTypesStep(e.entries, done, t);
        binds := binds + fired.binds;
        assert before + KeptTypes(e, ts[..j + 1]) == done + [t];
        if fired.failure.Some? {
          failure := fired.failure;
          FailureEndsKeptTypes(e, ts, before, j);
          return;
        }
      } else {
        assert before + KeptTypes(e, ts[..j + 1]) == done;
      }
      j := j + 1;
    }
    assert ts[..j] == ts;
  }

  /** Once the pass over `before` and the first `j + 1` of `ts` has thrown,
      the rest of `ts` adds nothing. */
  lemma FailureEndsKeptTypes(e: Engine, ts: seq<TypeInfo>, before: seq<TypeInfo>, j: nat)
    requires j < |ts|
    requires FireOnTypes(e.entries, before + KeptTypes(e, ts[..j + 1])).failure.Some?
    ensures FireOnTypes(e.entries, before + KeptTypes(e, ts)) == FireOnTypes(e.entries, before + KeptTypes(e, ts[..j + 1]))
  {
    assert ts == ts[..j + 1] + ts[j + 1..];
    KeptTypesAppend(e, ts[..j + 1], ts[j + 1..]);
    FailureEndsPass(e.entries, before + KeptTypes(e, ts[..j + 1]), KeptTypes(e, ts[j + 1..]));
    assert before + KeptTypes(e, ts) == before + KeptTypes(e, ts[..j + 1]) + KeptTypes(e, ts[j + 1..]);
  }

  /** `ApplyAutoRegistration()`: for each assembly that passes the assembly
      filters, for each of its types that passes the type filters, every rule
      in registration order. An exception stops the pass and keeps the binds
      made before it. */
  method ApplyAutoRegistration(e: Engine, universe: seq<Assembly>) returns (binds: seq<Bind>, failure: Option<Error>)
    ensures Trace(binds, failure) == Apply(e, universe)
  {
    binds := [];
    failure := None;
    var k := 0;
    while k < |universe|
      invariant 0 <= k <= |universe|
      invariant Trace(binds, failure) == FireOnTypes(e.entries, ScannedTypes(e, universe[..k])) && failure.None?
    {
      var a := universe[k];
      ScannedTypesStep(e, universe, k);
      if AssemblyScanned(e, a) {
        binds, failure := FireOnKeptTypes(e, a.types, ScannedTypes(e, universe[..k]), binds);
        if failure.Some? {
          ghost var scanned := ScannedTypes(e, universe[..k + 1]);
          assert universe[..k + 1] + universe[k + 1..] == universe;
          ScannedTypesAppend(e, universe[..k + 1], universe[k + 1..]);
          FailureEndsPass(e.entries, scanned, ScannedTypes(e, universe[k + 1..]));
          return;
        }
      } else {
        assert ScannedTypes(e, universe[..k]) + [] == ScannedTypes(e, universe[..k]);
      }
      k := k + 1;
    }
    assert universe[..k] == universe;
  }

  lemma ScannedTypesStep(e: Engine, universe: seq<Assembly>, k: nat)
    requires k < |universe|
    ensures ScannedTypes(e, universe[..k + 1]) ==
      ScannedTypes(e, universe[..k]) + (if AssemblyScanned(e, universe[k]) then KeptTypes(e, universe[k].types) else [])
  {
    assert universe[..k + 1][..k] == universe[..k];
  }

  lemma KeptTypesStep(e: Engine, ts: seq<TypeInfo>, j: nat)
    requires j < |ts|
    ensures KeptTypes(e, ts[..j + 1]) == KeptTypes(e, ts[..j]) + (if AnyMatch(e.excludedTypes, ts[j]) then [] else [ts[j]])
  {
    assert ts[..j + 1][..j] == ts[..j];
  }

  lemma FireOnTypesStep(entries: seq<Entry>, done: seq<TypeInfo>, t: TypeInfo)
    ensures FireOnTypes(entries, done + [t]) == AndThen(FireOnTypes(entries, done), FireAll(entries, t))
  {
    assert (done + [t])[..|done + [t]| - 1] == done;
  }

  // ---------------------------------------------------------------- properties

  lemma AndThenAssociative(a: Trace, b: Trace, c: Trace)
    ensures AndThen(AndThen(a, b), c) == AndThen(a, AndThen(b, c))
  {
  }

  /** Running the rules on `xs` and then on `ys` is running them on `xs + ys`. */
  lemma {:induction false} FireOnTypesAppend(entries: seq<Entry>, xs: seq<TypeInfo>, ys: seq<TypeInfo>)
    ensures FireOnTypes(entries, xs + ys) == AndThen(FireOnTypes(entries, xs), FireOnTypes(entries, ys))
    decreases |ys|
  {
    if |ys| == 0 {
      assert xs + ys == xs;
    } else {
      var ys' := ys[..|ys| - 1];
      assert (xs + ys)[..|xs + ys| - 1] == xs + ys';
      assert (xs + ys)[|xs + ys| - 1] == ys[|ys| - 1];
      FireOnTypesAppend(entries, xs, ys');
      AndThenAssociative(FireOnTypes(entries, xs), FireOnTypes(entries, ys'), FireAll(entries, ys[|ys| - 1]));
    }
  }

  /** Trying the rules `xs` and then the rules `ys` on a type is trying `xs + ys`. */
  lemma {:induction false} FireAllAppend(xs: seq<Entry>, ys: seq<Entry>, t: TypeInfo)
    ensures FireAll(xs + ys, t) == AndThen(FireAll(xs, t), FireAll(ys, t))
    decreases |ys|
  {
    if |ys| == 0 {
      assert xs + ys == xs;
    } else {
      var ys' := ys[..|ys| - 1];
      assert (xs + ys)[..|xs + ys| - 1] == xs + ys';
      assert (xs + ys)[|xs + ys| - 1] == ys[|ys| - 1];
      FireAllAppend(xs, ys', t);
      AndThenAssociative(FireAll(xs, t), FireAll(ys', t), Fire(ys[|ys| - 1], t));
    }
  }

  /** Once a pass has thrown, nothing after it runs: the trace of a longer
      pass is the trace up to the exception. */
  lemma {:induction false} FailureEndsPass(entries: seq<Entry>, xs: seq<TypeInfo>, ys: seq<TypeInfo>)
    requires FireOnTypes(entries, xs).failure.Some?
    ensures FireOnTypes(entries, xs + ys) == FireOnTypes(entries, xs)
  {
    FireOnTypesAppend(entries, xs, ys);
  }

  lemma {:induction false} KeptTypesAppend(e: Engine, xs: seq<TypeInfo>, ys: seq<TypeInfo>)
    ensures KeptTypes(e, xs + ys) == KeptTypes(e, xs) + KeptTypes(e, ys)
    decreases |ys|
  {
    if |ys| == 0 {
      assert xs + ys == xs;
    } else {
      var ys' := ys[..|ys| - 1];
      assert (xs + ys)[..|xs + ys| - 1] == xs + ys';
      KeptTypesAppend(e, xs, ys');
    }
  }

  lemma {:induction false} ScannedTypesAppend(e: Engine, us: seq<Assembly>, vs: seq<Assembly>)
    ensures ScannedTypes(e, us + vs) == ScannedTypes(e, us) + ScannedTypes(e, vs)
    decreases |vs|
  {
    if |vs| == 0 {
      assert us + vs == us;
    } else {
      var vs' := vs[..|vs| - 1];
      assert (us + vs)[..|us + vs| - 1] == us + vs';
      ScannedTypesAppend(e, us, vs');
    }
  }

  /** The kept types are the types of `ts` that no type-exclude filter accepts. */
  lemma {:induction false} KeptTypesExactly(e: Engine, ts: seq<TypeInfo>, t: TypeInfo)
    ensures t in KeptTypes(e, ts) <==> t in ts && !AnyMatch(e.excludedTypes, t)
    decreases |ts|
  {
    if |ts| > 0 {
      KeptTypesExactly(e, ts[..|ts| - 1], t);
      assert ts == ts[..|ts| - 1] + [ts[|ts| - 1]];
    }
  }

  /** Which types reach the rules: a type is handed to the rules exactly
      when it belongs to an assembly that no exclude filter and some include
      filter accepts, and no type-exclude filter accepts it. */
  lemma {:induction false} ScannedTypesExactly(e: Engine, universe: seq<Assembly>, t: TypeInfo)
    ensures t in ScannedTypes(e, universe) <==>
      (exists k :: 0 <= k < |universe| && AssemblyScanned(e, universe[k]) && t in universe[k].types)
      && !AnyMatch(e.excludedTypes, t)
    decreases |universe|
  {
    if |universe| > 0 {
      var u' := universe[..|universe| - 1];
      var a := universe[|universe| - 1];
      ScannedTypesExactly(e, u', t);
      KeptTypesExactly(e, a.types, t);
      var tail := if AssemblyScanned(e, a) then KeptTypes(e, a.types) else [];
      assert ScannedTypes(e, universe) == ScannedTypes(e, u') + tail;
      assert t in ScannedTypes(e, universe) <==> t in ScannedTypes(e, u') || t in tail;
      if t in ScannedTypes(e, universe) {
        if t !in ScannedTypes(e, u') {
          assert AssemblyScanned(e, universe[|universe| - 1]) && t in universe[|universe| - 1].types;
        } else {
          var k :| 0 <= k < |u'| && AssemblyScanned(e, u'[k]) && t in u'[k].types;
          assert universe[k] == u'[k];
        }
      }
      if (exists k :: 0 <= k < |universe| && AssemblyScanned(e, universe[k]) && t in universe[k].types)
        && !AnyMatch(e.excludedTypes, t)
      {
        var k :| 0 <= k < |universe| && AssemblyScanned(e, universe[k]) && t in universe[k].types;
        if k < |u'| {
          assert u'[k] == universe[k];
        }
      }
    }
  }

  /** Exclusion dominates: a type whose every assembly is excluded never
      reaches a rule, whatever the include filters say. */
  lemma ExcludedAssemblyNeverScanned(e: Engine, universe: seq<Assembly>, t: TypeInfo)
    requires forall k :: 0 <= k < |universe| && t in universe[k].types ==> AnyMatch(e.excludedAssemblies, universe[k])
    ensures t !in ScannedTypes(e, universe)
  {
    ScannedTypesExactly(e, universe, t);
  }

  /** A type some type-exclude filter accepts never reaches a rule. */
  lemma ExcludedTypeNeverScanned(e: Engine, universe: seq<Assembly>, t: TypeInfo)
    requires AnyMatch(e.excludedTypes, t)
    ensures t !in ScannedTypes(e, universe)
  {
    ScannedTypesExactly(e, universe, t);
  }

  /** With no include filter no assembly is scanned, so the pass binds
      nothing, whatever rules there are. */
  lemma {:induction false} NoIncludeNoBinds(e: Engine, universe: seq<Assembly>)
    requires e.includedAssemblies == []
    ensures ScannedTypes(e, universe) == []
    ensures Apply(e, universe) == Empty()
    decreases |universe|
  {
    if |universe| > 0 {
      NoIncludeNoBinds(e, universe[..|universe| - 1]);
      assert !AssemblyScanned(e, universe[|universe| - 1]);
    }
  }

  /** After `IncludeAllLoadedAssemblies()` an assembly is scanned exactly
      when no exclude filter accepts it. */
  lemma IncludeAllScansUnexcluded(e: Engine, a: Assembly)
    ensures AssemblyScanned(IncludeAllLoadedAssemblies(e), a) <==> !AnyMatch(e.excludedAssemblies, a)
  {
    var r := IncludeAllLoadedAssemblies(e);
    assert r.includedAssemblies[0](a);
  }

  /** Adding an assembly-exclude filter never adds a type to the scan. */
  lemma ExcludeAssembliesShrinksScan(e: Engine, f: Assembly -> bool, universe: seq<Assembly>, t: TypeInfo)
    requires t in ScannedTypes(ExcludeAssemblies(e, Some(f)).value, universe)
    ensures t in ScannedTypes(e, universe)
  {
    var r := ExcludeAssemblies(e, Some(f)).value;
    ScannedTypesExactly(r, universe, t);
    ScannedTypesExactly(e, universe, t);
    var k :| 0 <= k < |universe| && AssemblyScanned(r, universe[k]) && t in universe[k].types;
    if AnyMatch(e.excludedAssemblies, universe[k]) {
      var i :| 0 <= i < |e.excludedAssemblies| && e.excludedAssemblies[i](universe[k]);
      assert r.excludedAssemblies[i] == e.excludedAssemblies[i];
    }
  }

  /** True when every rule registers through a `RegistrationOptions` builder. */
  predicate OptionsRulesOnly(entries: seq<Entry>)
  {
    forall i :: 0 <= i < |entries| ==> entries[i].action.WithOptions?
  }

  lemma {:induction false} FireAllBindsOnlyT(entries: seq<Entry>, t: TypeInfo)
    requires OptionsRulesOnly(entries)
    ensures forall b :: b in FireAll(entries, t).binds ==> b.concrete == t
    decreases |entries|
  {
    if |entries| > 0 {
      FireAllBindsOnlyT(entries[..|entries| - 1], t);
    }
  }

  /** With builder rules only, every bind of a pass registers a type the
      pass handed to the rules. */
  lemma {:induction false} BindsComeFromScannedTypes(entries: seq<Entry>, ts: seq<TypeInfo>)
    requires OptionsRulesOnly(entries)
    ensures forall b :: b in FireOnTypes(entries, ts).binds ==> b.concrete in ts
    decreases |ts|
  {
    if |ts| > 0 {
      BindsComeFromScannedTypes(entries, ts[..|ts| - 1]);
      FireAllBindsOnlyT(entries, ts[|ts| - 1]);
    }
  }

  /** With builder rules only, a type that is excluded, or whose assemblies
      are all excluded, is never registered. */
  lemma ExcludedTypesNeverRegistered(e: Engine, universe: seq<Assembly>, t: TypeInfo)
    requires OptionsRulesOnly(e.entries)
    requires AnyMatch(e.excludedTypes, t)
      || forall k :: 0 <= k < |universe| && t in universe[k].types ==> AnyMatch(e.excludedAssemblies, universe[k])
    ensures forall b :: b in Apply(e, universe).binds ==> b.concrete != t
  {
    ScannedTypesExactly(e, universe, t);
    BindsComeFromScannedTypes(e.entries, ScannedTypes(e, universe));
  }
}
