/** What `SimpleBeanFactory` guarantees, stated over the container functions of module Container. */
module ContainerFacts {
  import opened Reflection
  import opened Enums
  import opened Exceptions
  import opened Definitions
  import opened Container
  import InstantiationUtil

  /** `getBean` answers from the cache, refuses a type under construction and an undefined type, all without changing anything. */
  lemma GetBeanShortcuts(s: State, t: TypeId)
    requires Valid(s)
    ensures t in s.beans ==> GetBean(s, t) == (Ok(s.beans[t]), s)
    ensures t !in s.beans && t in s.defs && s.defs[t].status == Creating ==>
              GetBean(s, t) == (Err(CircularDependency(t)), s)
    ensures t !in s.beans && t !in s.defs ==> GetBean(s, t) == (Err(NoSuchBeanDefinition(t)), s)
  {
  }

  /** A second `getBean` for the same type returns the identical object and changes nothing. */
  lemma GetBeanIdempotent(s: State, t: TypeId)
    requires Valid(s) && GetBean(s, t).0.Ok?
    ensures GetBean(GetBean(s, t).1, t) == GetBean(s, t)
  {
    GetBeanGrows(s, t);
  }

  /**
   * A failed build leaves the type CREATING with no bean, so asking for it again reports a circular
   * dependency on it rather than retrying the construction.
   */
  lemma FailedBuildBlocksRetry(s: State, t: TypeId)
    requires Valid(s) && t in s.defs && t !in s.beans && GetBean(s, t).0.Err?
    ensures var s' := GetBean(s, t).1;
      s.defs[t].status != Creating ==> GetBean(s', t) == (Err(CircularDependency(t)), s')
  {
    if s.defs[t].status != Creating {
      CreateBeanGrows(s, t);
    }
  }

  /**
   * `getExistingBean` agrees with `getBean` whenever it succeeds; afterwards it returns every bean
   * `getBean` returned that is the object itself, and refuses a proxy with a ClassCast failure.
   */
  lemma ExistingBeanAgrees(s: State, t: TypeId)
    requires Valid(s)
    ensures GetExistingBean(s, t).Ok? ==> GetBean(s, t) == (GetExistingBean(s, t), s)
    ensures GetBean(s, t).0.Ok? ==>
      GetExistingBean(GetBean(s, t).1, t) == if GetBean(s, t).0.value.Plain? then GetBean(s, t).0 else Err(ClassCast(t))
  {
    GetBeanGrows(s, t);
    var res := GetBean(s, t);
    if res.0.Ok? {
      assert t in res.1.beans && res.1.beans[t] == res.0.value;
    }
  }

  /**
   * A bean built by `createBean` is a new object of the type, made from the arguments its parameters
   * call for: position `j` holds the bean of parameter `j`'s type when that type is defined, and
   * otherwise null for an interface or a reference type and the zero value for a primitive type.
   */
  lemma CreatedBeanArgs(s: State, t: TypeId, j: nat)
    requires Valid(s) && t in s.defs && CreateBean(s, t).0.Ok? && j < |s.defs[t].paramTypes|
    ensures |CreateBean(s, t).0.value.target.args| == |s.defs[t].paramTypes|
    ensures ArgMeaning(s, CreateBean(s, t).1, s.defs[t].paramTypes[j], CreateBean(s, t).0.value.target.args[j])
  {
    CreateBeanGrows(s, t);
    var res := CreateBean(s, t);
    ArgMeans(s, res.1, s.defs[t].paramTypes[j], res.0.value.target.args[j]);
  }

  /**
   * Argument `a` for parameter `p`, in a container that was `s` when the build began and is `s'`
   * now: the bean of `p`'s type when that type is defined, otherwise null for an interface or a
   * reference type and the zero value for a primitive type.
   */
  ghost predicate ArgMeaning(s: State, s': State, p: ParamType, a: Arg) {
    && (p.id in s.defs ==> p.id in s'.beans && a == Bean(s'.beans[p.id]))
    && (p.id !in s.defs && p.kind.PrimitiveType? ==> a.Value? && BoxType(a.boxed) == p.kind.prim && IsZero(a.boxed))
    && (p.id !in s.defs && !p.kind.PrimitiveType? ==> a == Null)
  }

  lemma ArgMeans(s: State, s': State, p: ParamType, a: Arg)
    requires Extends(s, s') && ArgFor(s', p, a)
    ensures ArgMeaning(s, s', p, a)
  {
    assert p.id in s.defs <==> p.id in s'.defs;
  }

  /** Every cached bean was built from its own definition's parameters. */
  ghost predicate Wired(s: State) {
    forall t :: t in s.beans ==> t in s.defs && Built(s, s.defs[t].paramTypes, s.beans[t].target.args)
  }

  lemma WiredPersists(s: State, s': State)
    requires Extends(s, s') && Wired(s)
    ensures forall t :: t in s.beans ==> t in s'.defs && Built(s', s'.defs[t].paramTypes, s'.beans[t].target.args)
  {
    forall t | t in s.beans
      ensures t in s'.defs && Built(s', s'.defs[t].paramTypes, s'.beans[t].target.args)
    {
      BuiltPersists(s, s', s.defs[t].paramTypes, s.beans[t].target.args);
    }
  }

  lemma {:induction false} GetBeanWired(s: State, t: TypeId)
    requires Valid(s) && Wired(s)
    ensures Wired(GetBean(s, t).1)
    decreases Pending(s), 0, 0
  {
    if t !in s.beans && t in s.defs && s.defs[t].status != Creating {
      PendingShrinks(s, t);
      CreateBeanWired(s, t);
    }
  }

  lemma {:induction false} CreateBeanWired(s: State, t: TypeId)
    requires Valid(s) && Wired(s) && t in s.defs
    ensures Wired(CreateBean(s, t).1)
    decreases Pending(Mark(s, t, Creating)), 2, 0
  {
    var s1 := Mark(s, t, Creating);
    var params := s.defs[t].paramTypes;
    MarkCreating(s, t);
    WiredPersists(s, s1);
    ResolveArgsWired(s1, params, 0, []);
    ResolveArgsGrows(s1, params, 0, []);
    var r := ResolveArgs(s1, params, 0, []);
    MarkRemaining(s, t, Creating);
    assert r.0.Ok? ==> Built(r.1, params, r.0.value);
    ConcludeWired(s, t, r.0, r.1);
  }

  lemma ConcludeWired(s: State, t: TypeId, args: Result<seq<Arg>>, s2: State)
    requires t in s.defs && Extends(Mark(s, t, Creating), s2) && Wired(s2)
    requires args.Ok? ==> Remaining(s2) == Remaining(s) - {t}
    requires args.Ok? ==> Built(s2, s.defs[t].paramTypes, args.value)
    ensures Wired(Conclude(s, t, args, s2).1)
  {
    if args.Ok? {
      assert s2.defs[t].paramTypes == s.defs[t].paramTypes;
      ConstructWired(s2, t, args.value);
    }
  }

  /** Construction from the arguments the type's parameters call for keeps every cached bean wired. */
  lemma ConstructWired(s: State, t: TypeId, args: seq<Arg>)
    requires Valid(s) && Wired(s) && t in s.defs && Built(s, s.defs[t].paramTypes, args)
    ensures Wired(Construct(s, t, args).1)
  {
    var res := Construct(s, t, args);
    ConstructGrows(s, t, args);
    BuiltPersists(s, res.1, s.defs[t].paramTypes, args);
    WiredAdd(s, res.1, t);
  }

  /** A step that caches at most `t`, built from its definition, keeps every cached bean wired. */
  lemma WiredAdd(s: State, s': State, t: TypeId)
    requires Extends(s, s') && Wired(s) && s'.beans.Keys <= s.beans.Keys + {t}
    requires t in s'.beans && t !in s.beans ==> t in s'.defs && Built(s', s'.defs[t].paramTypes, s'.beans[t].target.args)
    ensures Wired(s')
  {
    WiredPersists(s, s');
  }

  lemma {:induction false} NextArgWired(s: State, p: ParamType)
    requires Valid(s) && Wired(s)
    ensures Wired(NextArg(s, p).1)
    decreases Pending(s), 0, 1
  {
    if p.id in s.defs {
      GetBeanWired(s, p.id);
    }
  }

  lemma {:induction false} ResolveArgsWired(s: State, params: seq<ParamType>, i: nat, acc: seq<Arg>)
    requires Valid(s) && Wired(s) && i <= |params| && |acc| == i
    ensures Wired(ResolveArgs(s, params, i, acc).1)
    decreases Pending(s), 1, |params| - i
  {
    if i < |params| {
      ResolveArgsStep(s, params, i, acc);
      NextArgWired(s, params[i]);
      var r := NextArg(s, params[i]);
      if r.0.Ok? {
        ResolveArgsWired(r.1, params, i + 1, acc + [r.0.value]);
      }
    }
  }

  /**
   * A constructor whose first parameter is its own class, or a class already under construction,
   * fails with a circular dependency on that class, wrapped once by this class's `createBean`.
   */
  lemma FirstParamInProgressFails(s: State, t: TypeId, u: TypeId)
    requires Valid(s) && t in s.defs && t !in s.beans && s.defs[t].status != Creating
    requires |s.defs[t].paramTypes| > 0 && s.defs[t].paramTypes[0].id == u
    requires u in s.defs && u !in s.beans && (u == t || s.defs[u].status == Creating)
    ensures GetBean(s, t).0 == Err(BeanCreation(t, CreationFailed, CircularDependency(u)))
  {
    var s1 := Mark(s, t, Creating);
    MarkCreating(s, t);
    assert GetBean(s1, u) == (Err(CircularDependency(u)), s1);
    assert NextArg(s1, s.defs[t].paramTypes[0]) == (Err(CircularDependency(u)), s1);
    assert ResolveArgs(s1, s.defs[t].paramTypes, 0, []).0 == Err(CircularDependency(u));
  }

  /**
   * A class whose one constructor parameter is declared as a class, and whose argument is a cached
   * proxy, cannot be built: `newInstance` refuses the proxy, and `createBean` wraps that failure.
   */
  lemma ProxyArgumentRejected(s: State, t: TypeId, u: TypeId)
    requires Valid(s) && t in s.defs && t !in s.beans && s.defs[t].status != Creating
    requires |s.defs[t].paramTypes| == 1 && s.defs[t].paramTypes[0].id == u && s.defs[t].paramTypes[0].kind.Reference?
    requires u in s.defs && u in s.beans && s.beans[u].Proxy?
    ensures GetBean(s, t).0 == Err(BeanCreation(t, CreationFailed, ArgumentTypeMismatch(t)))
  {
    var s1 := Mark(s, t, Creating);
    MarkCreating(s, t);
    var params := s.defs[t].paramTypes;
    assert NextArg(s1, params[0]) == (Ok(Bean(s.beans[u])), s1);
    ResolveArgsStep(s1, params, 0, []);
    assert [] + [Bean(s.beans[u])] == [Bean(s.beans[u])];
    assert ResolveArgs(s1, params, 1, [Bean(s.beans[u])]) == (Ok([Bean(s.beans[u])]), s1);
    assert ResolveArgs(s1, params, 0, []) == (Ok([Bean(s.beans[u])]), s1);
    assert !AcceptsAll(s1.defs[t].paramTypes, [Bean(s.beans[u])]);
  }

  /** A constructor that needs its own class fails with a circular dependency, wrapped once. */
  lemma SelfDependencyFails(s: State, t: TypeId)
    requires Valid(s) && t in s.defs && t !in s.beans && s.defs[t].status == NotCreated
    requires |s.defs[t].paramTypes| > 0 && s.defs[t].paramTypes[0].id == t
    ensures GetBean(s, t).0 == Err(BeanCreation(t, CreationFailed, CircularDependency(t)))
  {
    FirstParamInProgressFails(s, t, t);
  }

  /**
   * A cycle A -> B -> A: building A marks it CREATING, building B then asks for A, and the circular
   * dependency reaches the caller wrapped by B's and then A's `createBean`.
   */
  lemma TwoCycleFails(s: State, a: TypeId, b: TypeId)
    requires Valid(s) && a != b && a in s.defs && b in s.defs && a !in s.beans && b !in s.beans
    requires s.defs[a].status == NotCreated && s.defs[b].status == NotCreated
    requires |s.defs[a].paramTypes| > 0 && s.defs[a].paramTypes[0].id == b
    requires |s.defs[b].paramTypes| > 0 && s.defs[b].paramTypes[0].id == a
    ensures GetBean(s, a).0 ==
              Err(BeanCreation(a, CreationFailed, BeanCreation(b, CreationFailed, CircularDependency(a))))
  {
    var s1 := Mark(s, a, Creating);
    MarkCreating(s, a);
    FirstParamInProgressFails(s1, b, a);
    var inner := BeanCreation(b, CreationFailed, CircularDependency(a));
    assert NextArg(s1, s.defs[a].paramTypes[0]).0 == Err(inner);
    assert ResolveArgs(s1, s.defs[a].paramTypes, 0, []).0 == Err(inner);
  }

  // ---------------------------------------------------------------------------------------------
  // The repository's own components, registered end to end.

  const Fixtures := [InstantiationUtil.MyRepository, InstantiationUtil.MyService]
  const RepoId := InstantiationUtil.MyRepository.id
  const ServiceId := InstantiationUtil.MyService.id
  const RepoCtor := Ctor(false, [InstantiationUtil.IntParam], false)
  const ServiceCtor := Ctor(true, [InstantiationUtil.RepositoryParam, InstantiationUtil.StringParam], false)
  const RepoDef := Definition(InstantiationUtil.MyRepository, Singleton, NotCreated, RepoCtor, RepoCtor.params)
  const ServiceDef := Definition(InstantiationUtil.MyService, Singleton, NotCreated, ServiceCtor, ServiceCtor.params)
  const RepoBean := Plain(Obj(0, RepoId, [Value(IntBox(0))]))
  const ServiceBean := Plain(Obj(1, ServiceId, [Bean(RepoBean), Null]))

  /** After the definition loop. */
  const Defined := State(map[RepoId := RepoDef, ServiceId := ServiceDef], map[], 0)
  /** After `getBean(MyRepository.class)`. */
  const RepoBuilt := State(map[RepoId := RepoDef.(status := Created), ServiceId := ServiceDef], map[RepoId := RepoBean], 1)
  /** After `getBean(MyService.class)`. */
  const AllBuilt := State(map[RepoId := RepoDef.(status := Created), ServiceId := ServiceDef.(status := Created)],
                          map[RepoId := RepoBean, ServiceId := ServiceBean], 2)

  /** Both classes get a definition: MyRepository through `MyRepository(int)`, MyService through its @Autowired constructor. */
  lemma FixturesDefined()
    ensures Valid(Defined)
    ensures RegisterDefs(Empty, Fixtures, 0) == (Ok(()), Defined)
  {
    InstantiationUtil.MyRepositoryUsesIntConstructor();
    InstantiationUtil.SoleConstructorChosen(InstantiationUtil.MyService);
    RegisterDefsStep(Empty, Fixtures, 0);
    var s1 := Empty.(defs := map[RepoId := RepoDef]);
    RegisterDefsStep(s1, Fixtures, 1);
    assert s1.(defs := s1.defs[ServiceId := ServiceDef]) == Defined;
  }

  /** The argument loop of MyRepository supplies `int` 0, the default of its primitive parameter. */
  lemma RepositoryArgs()
    requires Valid(Mark(Defined, RepoId, Creating))
    ensures ResolveArgs(Mark(Defined, RepoId, Creating), RepoDef.paramTypes, 0, []) ==
              (Ok([Value(IntBox(0))]), Mark(Defined, RepoId, Creating))
  {
    var s1 := Mark(Defined, RepoId, Creating);
    var params := RepoDef.paramTypes;
    assert NextArg(s1, params[0]) == (Ok(Value(IntBox(0))), s1);
    ResolveArgsStep(s1, params, 0, []);
    assert [] + [Value(IntBox(0))] == [Value(IntBox(0))];
  }

  /** MyRepository is constructed from that argument and cached unproxied. */
  lemma RepositoryConstructed()
    requires Valid(Mark(Defined, RepoId, Creating))
    ensures Valid(RepoBuilt)
    ensures Construct(Mark(Defined, RepoId, Creating), RepoId, [Value(IntBox(0))]) == (Ok(RepoBean), RepoBuilt)
  {
    var s1 := Mark(Defined, RepoId, Creating);
    assert AcceptsAll(RepoDef.paramTypes, [Value(IntBox(0))]);
    assert Mark(s1, RepoId, Created).(beans := map[RepoId := RepoBean], nextRef := 1) == RepoBuilt;
  }

  /** `getBean(MyRepository.class)` builds MyRepository from `int` 0 and caches it unproxied. */
  lemma RepositoryBuilt()
    requires Valid(Defined)
    ensures Valid(RepoBuilt)
    ensures GetBean(Defined, RepoId) == (Ok(RepoBean), RepoBuilt)
  {
    MarkCreating(Defined, RepoId);
    RepositoryArgs();
    RepositoryConstructed();
    assert CreateBean(Defined, RepoId) == Construct(Mark(Defined, RepoId, Creating), RepoId, [Value(IntBox(0))]);
  }

  /** The argument loop of MyService supplies the cached MyRepository bean and null for `String`. */
  lemma ServiceArgs()
    requires Valid(Mark(RepoBuilt, ServiceId, Creating))
    ensures ResolveArgs(Mark(RepoBuilt, ServiceId, Creating), ServiceDef.paramTypes, 0, []) ==
              (Ok([Bean(RepoBean), Null]), Mark(RepoBuilt, ServiceId, Creating))
  {
    var s1 := Mark(RepoBuilt, ServiceId, Creating);
    var params := ServiceDef.paramTypes;
    assert GetBean(s1, RepoId) == (Ok(RepoBean), s1);
    assert NextArg(s1, params[0]) == (Ok(Bean(RepoBean)), s1);
    ResolveArgsStep(s1, params, 0, []);
    assert [] + [Bean(RepoBean)] == [Bean(RepoBean)];
    ServiceArgsRest(s1);
  }

  /** The second turn of that loop: `String` has no definition, so it gets null. */
  lemma ServiceArgsRest(s1: State)
    requires Valid(s1) && InstantiationUtil.StringParam.id !in s1.defs
    ensures ResolveArgs(s1, ServiceDef.paramTypes, 1, [Bean(RepoBean)]) == (Ok([Bean(RepoBean), Null]), s1)
  {
    var params := ServiceDef.paramTypes;
    assert NextArg(s1, params[1]) == (Ok(Null), s1);
    ResolveArgsStep(s1, params, 1, [Bean(RepoBean)]);
    assert [Bean(RepoBean)] + [Null] == [Bean(RepoBean), Null];
  }

  /** MyService is constructed from those arguments and cached unproxied. */
  lemma ServiceConstructed()
    requires Valid(Mark(RepoBuilt, ServiceId, Creating))
    ensures Valid(AllBuilt)
    ensures Construct(Mark(RepoBuilt, ServiceId, Creating), ServiceId, [Bean(RepoBean), Null]) == (Ok(ServiceBean), AllBuilt)
  {
    var s1 := Mark(RepoBuilt, ServiceId, Creating);
    assert AcceptsAll(ServiceDef.paramTypes, [Bean(RepoBean), Null]);
    assert Mark(s1, ServiceId, Created).(beans := s1.beans[ServiceId := ServiceBean], nextRef := 2) == AllBuilt;
  }

  /** `getBean(MyService.class)` wires MyService to the cached MyRepository bean and to null. */
  lemma ServiceBuilt()
    requires Valid(RepoBuilt)
    ensures Valid(AllBuilt)
    ensures GetBean(RepoBuilt, ServiceId) == (Ok(ServiceBean), AllBuilt)
  {
    MarkCreating(RepoBuilt, ServiceId);
    ServiceArgs();
    ServiceConstructed();
    assert CreateBean(RepoBuilt, ServiceId) == Construct(Mark(RepoBuilt, ServiceId, Creating), ServiceId, [Bean(RepoBean), Null]);
  }

  /**
   * `registerBeans` on MyRepository and MyService succeeds. MyRepository is built through
   * `MyRepository(int)` with 0, and MyService is wired to that very singleton and to null.
   */
  lemma MyServiceWired()
    ensures var res := RegisterBeans(Empty, Fixtures);
      && res.0.Ok?
      && RepoId in res.1.beans && ServiceId in res.1.beans
      && res.1.beans[RepoId].target.args == [Value(IntBox(0))]
      && res.1.beans[ServiceId] == Plain(Obj(1, ServiceId, [Bean(res.1.beans[RepoId]), Null]))
  {
    FixturesDefined();
    RepositoryBuilt();
    ServiceBuilt();
    BuildAllStep(Defined, Fixtures, 0);
    BuildAllStep(RepoBuilt, Fixtures, 1);
    assert BuildAll(AllBuilt, Fixtures, 2) == (Ok(()), AllBuilt);
    assert RegisterBeans(Empty, Fixtures) == (Ok(()), AllBuilt);
  }
}
