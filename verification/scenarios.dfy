/** Concrete configurations from the repository's test fixture, worked
    through in the model. The fixture's own configurations add no include
    filter, so the engine scans no assembly for them; the scenarios that
    register something therefore add `IncludeAllLoadedAssemblies` first. */
module Scenarios {
  import opened Errors
  import opened TypeUniverse
  import opened AutoRegistration
  import RegistrationOptions
  import Resolvers
  import If

  function ICache(): TypeInfo { TypeInfo("Tests.Contracts", "ICache", [], []) }
  function IDisposable(): TypeInfo { TypeInfo("System", "IDisposable", [], []) }
  function TestCache(): TypeInfo { TypeInfo("Tests.AutoRegistration", "TestCache", [ICache(), IDisposable()], []) }
  function CustomerRepository(): TypeInfo { TypeInfo("Tests.AutoRegistration", "CustomerRepository", [], []) }

  /** The interface `IIntroduction` and the type `Introduction` implementing it. */
  function IIntroduction(): TypeInfo { TypeInfo("Tests.AutoRegistration", "IIntroduction", [], []) }
  function Introduction(): TypeInfo { TypeInfo("Tests.AutoRegistration", "Introduction", [IIntroduction()], []) }

  /** A type `Handler` whose interface is also named `Handler`. */
  function HandlerContract(): TypeInfo { TypeInfo("Tests.Contracts", "Handler", [], []) }
  function Handler(): TypeInfo { TypeInfo("Tests.AutoRegistration", "Handler", [HandlerContract()], []) }

  /** The fixture's assembly: the cache and one unrelated type. */
  function Universe(): seq<Assembly>
  {
    [Assembly("Tests.AutoRegistration", [CustomerRepository(), TestCache()])]
  }

  /** A rule for TestCache on a fresh engine, configured as the fixture
      configures it: no assembly filter of either kind. */
  function FixtureRule(o: RegistrationOptions.Options): Engine
  {
    IncludeWithOptions(New(Some(Container(0))).value, Some((t: TypeInfo) => t == TestCache()), Some(o)).value
  }

  /** The same rule on an engine that includes all loaded assemblies first. */
  function IncludeAllRule(o: RegistrationOptions.Options): Engine
  {
    var e := IncludeAllLoadedAssemblies(New(Some(Container(0))).value);
    IncludeWithOptions(e, Some((t: TypeInfo) => t == TestCache()), Some(o)).value
  }

  /** As the fixture configures it, a rule registers nothing, whatever its
      builder: no include filter accepts the fixture's assembly. */
  lemma FixtureRuleRegistersNothing(o: RegistrationOptions.Options)
    ensures Apply(FixtureRule(o), Universe()) == Empty()
  {
    NoIncludeNoBinds(FixtureRule(o), Universe());
  }

  /** Of the fixture's types only TestCache passes the rule's filter, so a
      pass is what the rule's builder does with TestCache. */
  lemma OnlyTestCacheFires(o: RegistrationOptions.Options)
    ensures Apply(IncludeAllRule(o), Universe()) == RegisterWithOptions(o, TestCache())
  {
    var e := IncludeAllRule(o);
    var a := Universe()[0];
    assert ScannedTypes(e, Universe()) == [CustomerRepository(), TestCache()] by {
      assert AssemblyScanned(e, a) by {
        assert e.includedAssemblies[0](a);
      }
      assert KeptTypes(e, a.types[..1]) == [CustomerRepository()] by {
        assert a.types[..1][..0] == [];
      }
      assert KeptTypes(e, a.types) == [CustomerRepository(), TestCache()] by {
        assert a.types[..1] == [CustomerRepository()];
      }
      assert Universe()[..0] == [];
    }
    assert CustomerRepository() != TestCache();
    assert FireAll(e.entries, CustomerRepository()) == Empty() by {
      assert e.entries[..0] == [];
    }
    assert FireAll(e.entries, TestCache()) == RegisterWithOptions(o, TestCache()) by {
      assert e.entries[..0] == [];
    }
    var ts := [CustomerRepository(), TestCache()];
    assert ts[..1] == [CustomerRepository()] && ts[..1][..0] == [];
    assert FireOnTypes(e.entries, ts[..1]) == Empty();
    var fired := RegisterWithOptions(o, TestCache());
    assert AndThen(Empty(), fired) == Trace([] + fired.binds, fired.failure);
    assert [] + fired.binds == fired.binds;
  }

  /** Default options register TestCache as each of its interfaces, with
      an empty name and a transient lifetime. */
  lemma DefaultOptionsOnTestCache()
    ensures RegisterWithOptions(RegistrationOptions.New(), TestCache()) ==
      Trace([Bind(ICache(), TestCache(), "", Transient), Bind(IDisposable(), TestCache(), "", Transient)], None)
  {
    var o' := RegistrationOptions.New().(current := Some(TestCache()));
    assert o' == RegistrationOptions.Options(Some(TestCache()), Resolvers.AllInterfaces,
      Resolvers.LiteralName(""), Resolvers.FixedLifetime(Transient));
    assert RegistrationOptions.Interfaces(o') == Ok([ICache(), IDisposable()]);
    assert RegistrationOptions.GetName(o') == Ok("");
    assert RegistrationOptions.LifetimeManager(o') == Transient;
    var r := RegisterWithOptions(RegistrationOptions.New(), TestCache());
    assert r.failure.None? && |r.binds| == 2;
    assert r.binds[0] == Bind(ICache(), TestCache(), "", Transient);
    assert r.binds[1] == Bind(IDisposable(), TestCache(), "", Transient);
  }

  /** With all loaded assemblies included, default options register the
      type as each of its interfaces, with an empty name and a transient
      lifetime, and nothing else. */
  lemma DefaultOptionsBindAllInterfaces()
    ensures Apply(IncludeAllRule(RegistrationOptions.New()), Universe()) ==
      Trace([Bind(ICache(), TestCache(), "", Transient), Bind(IDisposable(), TestCache(), "", Transient)], None)
  {
    OnlyTestCacheFires(RegistrationOptions.New());
    DefaultOptionsOnTestCache();
  }

  /** The builder with one contract, a singleton lifetime and a name set. */
  function ExplicitOptions(): RegistrationOptions.Options
  {
    RegistrationOptions.SetName(
      RegistrationOptions.SetLifetimeManager(
        RegistrationOptions.SetInterfaces(RegistrationOptions.New(), [ICache()]), Singleton), "TestName")
  }

  /** The setters leave one fixed contract, a fixed name and a fixed lifetime. */
  lemma ExplicitOptionsValue()
    ensures ExplicitOptions() == RegistrationOptions.Options(None, Resolvers.FixedContracts([ICache()]),
      Resolvers.LiteralName("TestName"), Resolvers.FixedLifetime(Singleton))
  {
  }

  /** Options with the contracts, lifetime and name set explicitly register
      TestCache once, with exactly those values. */
  lemma ExplicitOptionsOnTestCache()
    ensures RegisterWithOptions(ExplicitOptions(), TestCache()) ==
      Trace([Bind(ICache(), TestCache(), "TestName", Singleton)], None)
  {
    var o := RegistrationOptions.Options(None, Resolvers.FixedContracts([ICache()]),
      Resolvers.LiteralName("TestName"), Resolvers.FixedLifetime(Singleton));
    ExplicitOptionsValue();
    var o' := o.(current := Some(TestCache()));
    assert RegistrationOptions.Interfaces(o') == Ok([ICache()]);
    assert RegistrationOptions.GetName(o') == Ok("TestName");
    assert RegistrationOptions.LifetimeManager(o') == Singleton;
    var r := RegisterWithOptions(o, TestCache());
    assert |r.binds| == 1 && r.failure.None?;
    assert r.binds[0] == Bind(ICache(), TestCache(), "TestName", Singleton);
  }

  /** With all loaded assemblies included, options with the contracts,
      lifetime and name set explicitly make one registration with exactly
      those values. */
  lemma ExplicitOptionsBindOnce()
    ensures Apply(IncludeAllRule(ExplicitOptions()), Universe()) ==
      Trace([Bind(ICache(), TestCache(), "TestName", Singleton)], None)
  {
    OnlyTestCacheFires(ExplicitOptions());
    ExplicitOptionsOnTestCache();
  }

  /** `WithPartName("Repository")` names `CustomerRepository` "Customer". */
  lemma PartNameOfCustomerRepository()
    ensures
      var o := RegistrationOptions.SetType(RegistrationOptions.WithPartName(RegistrationOptions.New(), Some("Repository")), Some(CustomerRepository())).value;
      RegistrationOptions.GetName(o) == Ok("Customer")
  {
    assert CustomerRepository().name == "Customer" + "Repository";
  }

  /** The as-written naming test rejects `Introduction : IIntroduction`,
      because TrimStart strips both leading 'I's of "IIntroduction"; the
      naming convention accepts it. */
  lemma {:induction false} ITypeNameMissesIntroduction()
    ensures !If.ImplementsITypeName(Introduction())
    ensures If.ImplementsITypeNameIntended(Introduction())
  {
    var n := IIntroduction().name;
    assert n[0] == 'I' && n[1] == 'I' && n[2] == 'n';
    assert n[1..][0] == 'I' && n[1..][1..] == n[2..];
    assert If.TrimStart(n[2..], 'I') == n[2..];
    assert If.TrimStart(n, 'I') == n[2..];
    assert |n[2..]| != |Introduction().name|;
    assert n[1..] == Introduction().name;
  }

  /** The as-written naming test accepts `Handler : Handler`, an interface
      with no 'I' in front, which the naming convention rejects. */
  lemma {:induction false} ITypeNameAcceptsUnprefixedInterface()
    ensures If.ImplementsITypeName(Handler())
    ensures !If.ImplementsITypeNameIntended(Handler())
  {
    If.AsWrittenAcceptsSameName(Handler(), 0);
    assert HandlerContract().name[0] != 'I';
  }
}
