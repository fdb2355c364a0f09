# A verified model of the ALOC dependency-injection container

This project models the core of a small Spring-like dependency-injection container written in Java:

- **the constructor resolver** (`InstantiationUtil.resolveConstructor`) picks the one constructor the
  container uses for a class. It tries the single `@Autowired` constructor, then the sole
  constructor, then the unique widest constructor, then the unique one with the most
  `@Component`-typed parameters, and otherwise fails;
- **`BeanDefinition`** is a mutable record. It fixes the chosen constructor and its parameter types
  when it is made, and carries a `status` (NOT_CREATED, CREATING, CREATED) and a `scope`;
- **`SimpleBeanFactory`** holds the definition map `defs` and the singleton cache `beans`.
  - `registerBeans` files a definition for every class, then builds every class that has no bean yet.
  - `getBean` and `createBean` recurse into each other to build a bean's constructor arguments.
  - A definition found CREATING on re-entry is a circular dependency.
- **`ReflectiveMethodInvocation.proceed`** is the around-advice chain. One index walks the
  interceptor list, and the call after the last interceptor runs the real method.
- **`HandlerMapping`** builds the table from URL paths to controller methods. Paths are normalised
  with a leading "/", blank paths are skipped, and the first registration of a path wins.

Java reflection is replaced by explicit descriptors (module `Reflection`):

- a class is a `ClassDesc` listing its constructors, whether it implements an interface, whether
  proxy creation fails for it, whether it is a `@Controller`, and its methods;
- a constructor is a `Ctor` carrying its `@Autowired` marker, its parameter types and whether its
  body throws;
- the exceptions are the datatype `Exceptions.Failure`, and a call that may throw returns a `Result`.

Module layout:

| module | file | form |
|---|---|---|
| `Enums`, `Exceptions`, `Reflection` | enums.dfy, exceptions.dfy, reflection.dfy | datatypes |
| `InstantiationUtil` | instantiation_util.dfy | pure functions and lemmas (the source is stream pipelines) |
| `Definitions` | bean_definition.dfy | the value `Definition`, the function `NewDefinition`, the class `BeanDefinition` with its setters |
| `Container` | container.dfy | the factory's state as a value; `getBean`/`createBean`/argument loop as mutually recursive functions; outcome lemmas |
| `ContainerFacts` | container_facts.dfy | consequences: idempotence, argument meaning, wiring, cycles |
| `Factory` | simple_bean_factory.dfy | the class `SimpleBeanFactory` with its loops and in-place updates, each method proved equal to the `Container` function |
| `Aop` | aop.dfy | the class `ReflectiveMethodInvocation` with its mutable index, proved against the function `Run` |
| `Web` | web.dfy | the class `HandlerMapping` with its nested loops, proved against `AddClasses`/`AddMethods` |

Termination of the `getBean`/`createBean` recursion is proved. The measure is the number of
definitions that are not CREATING, and every nested `createBean` marks one more definition CREATING
before it recurses.

Behaviour of the code that the model makes explicit:

- A failed `createBean` leaves its definition CREATING. A later `getBean` for that type therefore
  reports a circular dependency instead of retrying (`ContainerFacts.FailedBuildBlocksRetry`).
- The `NoSuchBeanDefinitionException` handler of `createBean` (SimpleBeanFactory.java lines 140-144)
  can never run. `getBean` is only called there for types that have a definition. For such a type
  a nested `getBean` fails either with a `BeanCreationException` from the nested `createBean` or
  with an unwrapped `CircularDependencyException` (lines 62-64); neither is
  `NoSuchBeanDefinitionException`. `Container.CreateOutcome` states that every `createBean` failure
  carries the generic step `CreationFailed`.
- The cache holds the exposed object, which is the proxy when one was made, not the raw instance.
- A proxy implements only the class's interfaces. `ctor.newInstance` therefore refuses a proxy
  passed for a parameter whose type is a class, and `createBean` wraps that refusal
  (`ContainerFacts.ProxyArgumentRejected`). For the same reason `getExistingBean`'s
  `beanType.cast` fails on a cached proxy, and `HandlerMapping.initialize` skips a proxied
  controller (`Web.ProxiedControllerSkipped`).
- Within one `getBean` no definition's status moves back (`Container.Advances`). Registering a class
  again replaces its definition with a fresh NOT_CREATED one (`Container.RegisterDefsFiles`).

## Model

All source paths are under `app/src/main/java/dev/aloc/spring/`.

| member | source | states |
|---|---|---|
| InstantiationUtil.Candidates | app/src/main/java/dev/aloc/spring/InstantiationUtil.java:28-30 | the filtered list keeps exactly the constructors that meet the criterion (`@Autowired`, a given arity, a given component count) and is no longer than the input |
| InstantiationUtil.MaxScore | app/src/main/java/dev/aloc/spring/InstantiationUtil.java:49 | `max().orElse(0)` bounds the arity (or component count) of every constructor listed |
| InstantiationUtil.MaxWitness | app/src/main/java/dev/aloc/spring/InstantiationUtil.java:58-61 | a non-empty list has a constructor that attains the maximum |
| InstantiationUtil.ResolveConstructor | app/src/main/java/dev/aloc/spring/InstantiationUtil.java:19-74 | the result is one of the declared constructors; there is a NoConstructor failure exactly when none is declared; every failure names the class and is either that or a ConstructorResolution failure |
| InstantiationUtil.Tiebreak | app/src/main/java/dev/aloc/spring/InstantiationUtil.java:49-72 | the arity and component-count tie-breaks return a declared constructor or fail with "no unique candidate" |
| InstantiationUtil.TiebreakIsSelected | app/src/main/java/dev/aloc/spring/InstantiationUtil.java:49-68 | a constructor the tie-breaks return has the greatest arity, has the most component parameters among those as wide, and is the only one with both |
| InstantiationUtil.SelectedWinsTiebreak | app/src/main/java/dev/aloc/spring/InstantiationUtil.java:49-68 | conversely, among distinct constructors, one that wins both tie-breaks is what the tie-breaks return |
| InstantiationUtil.ResolvedIsSelected | app/src/main/java/dev/aloc/spring/InstantiationUtil.java:19-74 | a returned constructor is the one the priority rules designate: the unique `@Autowired` one, else the sole one, else the tie-break winner |
| InstantiationUtil.SelectedIsResolved | app/src/main/java/dev/aloc/spring/InstantiationUtil.java:19-74 | for constructors with distinct signatures, the constructor the priority rules designate is returned |
| InstantiationUtil.ResolveMatchesPolicy | app/src/main/java/dev/aloc/spring/InstantiationUtil.java:19-74 | the resolver returns `c` if and only if the priority rules designate `c` |
| InstantiationUtil.UniqueAutowiredChosen | app/src/main/java/dev/aloc/spring/InstantiationUtil.java:33-36 | a single `@Autowired` constructor is chosen whatever the arities of the others |
| InstantiationUtil.TwoAutowiredFail | app/src/main/java/dev/aloc/spring/InstantiationUtil.java:37-40 | two or more `@Autowired` constructors always fail with ConstructorResolution, whatever their arities |
| InstantiationUtil.SoleConstructorChosen | app/src/main/java/dev/aloc/spring/InstantiationUtil.java:44-46 | a class with exactly one constructor gets it, whether marked or not |
| InstantiationUtil.WidestChosen | app/src/main/java/dev/aloc/spring/InstantiationUtil.java:49-67 | without markers and with several constructors, the chosen one has maximum arity, and the most component parameters among those of that arity |
| InstantiationUtil.CandidatesPermute | app/src/main/java/dev/aloc/spring/InstantiationUtil.java:50-52 | filtering a reordering of the constructors yields a reordering of the filtered list |
| InstantiationUtil.MaxScorePermute | app/src/main/java/dev/aloc/spring/InstantiationUtil.java:58-61 | the maximum does not depend on the order of the list |
| InstantiationUtil.ResolveIgnoresOrder | app/src/main/java/dev/aloc/spring/InstantiationUtil.java:19-72 | listing the same constructors in another order never changes the outcome, success or failure |
| InstantiationUtil.TiebreakIgnoresOrder | app/src/main/java/dev/aloc/spring/InstantiationUtil.java:49-72 | the tie-breaks do not depend on declaration order |
| InstantiationUtil.MyRepositoryUsesIntConstructor | app/src/main/java/dev/aloc/spring/mybeans/MyRepository.java:20-29 | for `MyRepository(int)` and `MyRepository()` the one-parameter constructor is chosen |
| Definitions.NewDefinition | app/src/main/java/dev/aloc/spring/BeanDefinition.java:33-50 | a null class fails with NullBeanType, unwrapped; otherwise a definition exists exactly when resolution succeeds, and it has that class, status NOT_CREATED, scope SINGLETON, the very constructor the resolver returned and that constructor's parameter types in order; a failure is a BeanCreation failure naming the class with the resolver's failure as cause, marked "unresolvable" exactly when the cause is a ConstructorResolution failure |
| Definitions.NoConstructorNoDefinition | app/src/main/java/dev/aloc/spring/BeanDefinition.java:46-48 | a class with zero constructors gets no definition, only the generic BeanCreation failure wrapping NoConstructor |
| Definitions.BeanDefinition.Resolved | app/src/main/java/dev/aloc/spring/BeanDefinition.java:16-39 | a new definition object holds the class, SINGLETON, NOT_CREATED, the constructor and its parameter types |
| Definitions.BeanDefinition.Create | app/src/main/java/dev/aloc/spring/BeanDefinition.java:33-50 | the constructor yields a fresh object holding exactly `NewDefinition`'s value, or throws exactly `NewDefinition`'s failure |
| Definitions.BeanDefinition.SetStatus | app/src/main/java/dev/aloc/spring/BeanDefinition.java:81-83 | only the status changes; class, scope, constructor and parameter types stay |
| Definitions.BeanDefinition.SetScope | app/src/main/java/dev/aloc/spring/BeanDefinition.java:77-79 | only the scope changes |
| Definitions.BeanDefinition.SetBeanClass | app/src/main/java/dev/aloc/spring/BeanDefinition.java:73-75 | only the bean class changes; constructor and parameter types are final |
| Container.DefaultPrimitive | app/src/main/java/dev/aloc/spring/SimpleBeanFactory.java:181-205 | each primitive type gets a boxed value of that same type which is its zero (false, '\0', 0, 0L, 0f, 0d) |
| Container.FallbackArg | app/src/main/java/dev/aloc/spring/SimpleBeanFactory.java:97-107 | a parameter type without a definition gets that primitive's zero when it is primitive, and null otherwise (interfaces and other references) |
| Container.Expose | app/src/main/java/dev/aloc/spring/SimpleBeanFactory.java:113-131 | the exposed handle wraps the new object, and is a proxy exactly when the class implements an interface and proxy creation does not throw |
| Container.PendingShrinks | app/src/main/java/dev/aloc/spring/SimpleBeanFactory.java:84 | marking a definition that is not CREATING as CREATING strictly shrinks the termination measure |
| Container.MarkRemaining | app/src/main/java/dev/aloc/spring/SimpleBeanFactory.java:137 | setting a status keeps the definition set; CREATING adds the type to those under construction, any other status removes it |
| Container.GetBean | app/src/main/java/dev/aloc/spring/SimpleBeanFactory.java:52-71 | `getBean` terminates, keeps the container valid and its definition set, and on success leaves under construction exactly what was before |
| Container.CreateBean | app/src/main/java/dev/aloc/spring/SimpleBeanFactory.java:81-150 | `createBean` terminates, keeps the container valid, and on success the type is no longer under construction |
| Container.Conclude | app/src/main/java/dev/aloc/spring/SimpleBeanFactory.java:111-149 | after the argument loop, a failure is wrapped and a success constructs; the container stays valid and a success releases the type |
| Container.Construct | app/src/main/java/dev/aloc/spring/SimpleBeanFactory.java:111-138 | construction keeps the container valid and releases the type on success |
| Container.NextArg | app/src/main/java/dev/aloc/spring/SimpleBeanFactory.java:91-107 | one turn of the argument loop keeps the container valid, and on success leaves nothing new under construction |
| Container.ResolveArgs | app/src/main/java/dev/aloc/spring/SimpleBeanFactory.java:88-108 | the argument loop terminates, keeps the container valid, and on success leaves nothing new under construction |
| Container.GetBeanGrows | app/src/main/java/dev/aloc/spring/SimpleBeanFactory.java:52-71 | `getBean` drops no definition or bean and moves no status back, and caches only defined types that were not under construction; a success returns the bean cached for the type; a failure caches nothing for the type; a defined type never fails with NoSuchBeanDefinition |
| Container.CreateBeanGrows | app/src/main/java/dev/aloc/spring/SimpleBeanFactory.java:81-150 | on success the type is CREATED and cached (put-if-absent), and the result is a new object of the type, exposed through `Expose`, built by a constructor that did not throw from the arguments its parameters call for, no proxy among them sitting in a class-typed parameter; on failure the type stays CREATING, gains no cache entry, and the failure is a BeanCreation failure naming it |
| Container.CreateBeanCause | app/src/main/java/dev/aloc/spring/SimpleBeanFactory.java:81-149 | `createBean` succeeds exactly when the argument loop resolves every parameter, `newInstance` accepts the arguments and the constructor does not throw; a failure is a BeanCreation failure whose cause is the argument loop's failure, else the refused argument, else the constructor's exception |
| Container.ConstructGrows | app/src/main/java/dev/aloc/spring/SimpleBeanFactory.java:111-138 | construction succeeds exactly when `newInstance` accepts every argument (no proxy for a class-typed parameter) and the constructor does not throw; a failure changes nothing and is ArgumentTypeMismatch or ConstructorThrew, wrapped; a success changes only the type's own definition and cache entry: the object is new, the type is CREATED and cached unless it was cached already |
| Container.NextArgGrows | app/src/main/java/dev/aloc/spring/SimpleBeanFactory.java:91-107 | a defined parameter type receives its bean and an undefined one its fallback; the state only grows; a failure is never NoSuchBeanDefinition |
| Container.ResolveArgsGrows | app/src/main/java/dev/aloc/spring/SimpleBeanFactory.java:88-108 | on success there is one argument per parameter, in order, each the one its parameter type calls for in the final state, and the arguments already resolved are kept |
| Container.FirstInvalid | app/src/main/java/dev/aloc/spring/SimpleBeanFactory.java:32-34 | the position of the first class whose definition cannot be built: all classes before it can be defined, and it cannot |
| Container.RegisterDefs | app/src/main/java/dev/aloc/spring/SimpleBeanFactory.java:32-34 | the definition loop keeps the container valid |
| Container.RegisterDefsFiles | app/src/main/java/dev/aloc/spring/SimpleBeanFactory.java:32-34 | the loop touches no bean, keeps the definitions of classes it does not name, files every class before the first one that cannot be defined, each type holding the fresh NOT_CREATED definition of the last such class naming it, and succeeds exactly when every class can be defined, failing with the first failure otherwise |
| Container.BuildAll | app/src/main/java/dev/aloc/spring/SimpleBeanFactory.java:37-41 | the build loop keeps the container valid |
| Container.BuildAllBuilds | app/src/main/java/dev/aloc/spring/SimpleBeanFactory.java:37-41 | the build loop drops nothing and moves no status back; on success every class has a cached bean |
| Container.RegisterBeans | app/src/main/java/dev/aloc/spring/SimpleBeanFactory.java:30-42 | registration keeps the container valid |
| Container.RegisterBeansBuilds | app/src/main/java/dev/aloc/spring/SimpleBeanFactory.java:30-42 | after a successful `registerBeans` every given class has a definition and a cached bean, and no bean cached before was dropped |
| Container.GetExistingBean | app/src/main/java/dev/aloc/spring/SimpleBeanFactory.java:160-173 | succeeds exactly when a plain (unproxied) bean is cached, returning it; a cached proxy fails the cast with ClassCast, and a missing bean fails with NoSuchBeanDefinition |
| ContainerFacts.GetBeanShortcuts | app/src/main/java/dev/aloc/spring/SimpleBeanFactory.java:53-70 | a cached type returns its bean, a CREATING type fails with CircularDependency, and an unknown type fails with NoSuchBeanDefinition, all without changing the state |
| ContainerFacts.FailedBuildBlocksRetry | app/src/main/java/dev/aloc/spring/SimpleBeanFactory.java:59-64 | after a failed build of a defined type, a second `getBean` for it fails with CircularDependency on that type instead of building again |
| ContainerFacts.GetBeanIdempotent | app/src/main/java/dev/aloc/spring/SimpleBeanFactory.java:53-57 | a second `getBean` for a type returns the identical object and changes nothing |
| ContainerFacts.ExistingBeanAgrees | app/src/main/java/dev/aloc/spring/SimpleBeanFactory.java:160-173 | when `getExistingBean` succeeds, `getBean` returns the same bean and changes nothing; after a successful `getBean` it returns the same bean, or fails with ClassCast when that bean is a proxy |
| ContainerFacts.CreatedBeanArgs | app/src/main/java/dev/aloc/spring/SimpleBeanFactory.java:88-111 | a created bean has one argument per parameter; position `j` holds the bean of parameter `j`'s type when that type is defined, otherwise null for an interface or reference type and the typed zero for a primitive |
| ContainerFacts.GetBeanWired | app/src/main/java/dev/aloc/spring/SimpleBeanFactory.java:52-71 | if every cached bean was built from its own definition's parameters, that still holds after `getBean` |
| ContainerFacts.CreateBeanWired | app/src/main/java/dev/aloc/spring/SimpleBeanFactory.java:81-150 | `createBean` preserves "every cached bean was built from its definition's parameters" |
| ContainerFacts.ConstructWired | app/src/main/java/dev/aloc/spring/SimpleBeanFactory.java:111-138 | constructing from the arguments the parameters call for preserves that wiring |
| ContainerFacts.NextArgWired | app/src/main/java/dev/aloc/spring/SimpleBeanFactory.java:91-107 | one argument turn preserves the wiring |
| ContainerFacts.ResolveArgsWired | app/src/main/java/dev/aloc/spring/SimpleBeanFactory.java:88-108 | the argument loop preserves the wiring |
| ContainerFacts.FirstParamInProgressFails | app/src/main/java/dev/aloc/spring/SimpleBeanFactory.java:59-64 | a first parameter whose type is the class itself, or a class under construction, yields CircularDependency on that type, wrapped once by this class's `createBean` |
| ContainerFacts.SelfDependencyFails | app/src/main/java/dev/aloc/spring/SimpleBeanFactory.java:59-64 | a class whose constructor needs itself fails with a wrapped circular dependency instead of recursing forever |
| ContainerFacts.TwoCycleFails | app/src/main/java/dev/aloc/spring/SimpleBeanFactory.java:140-149 | a cycle A to B to A ends in CircularDependency(A), wrapped by B's and then A's `createBean` |
| ContainerFacts.ProxyArgumentRejected | app/src/main/java/dev/aloc/spring/SimpleBeanFactory.java:111-148 | a class whose only parameter is a non-interface class cached as a proxy fails with a BeanCreation failure wrapping ArgumentTypeMismatch |
| ContainerFacts.MyServiceWired | app/src/main/java/dev/aloc/spring/SimpleBeanFactory.java:30-149 | `registerBeans` on MyRepository and MyService succeeds; MyRepository is built from `int` 0 and MyService from the cached MyRepository singleton and null for its `String` parameter |
| Factory.SimpleBeanFactory.constructor | app/src/main/java/dev/aloc/spring/SimpleBeanFactory.java:19-21 | a new factory has no definitions and no beans |
| Factory.SimpleBeanFactory.GetBean | app/src/main/java/dev/aloc/spring/SimpleBeanFactory.java:52-71 | the in-place `getBean` returns and leaves exactly what `Container.GetBean` does, keeping the same definition objects |
| Factory.SimpleBeanFactory.CreateBean | app/src/main/java/dev/aloc/spring/SimpleBeanFactory.java:81-150 | the in-place `createBean` agrees with `Container.CreateBean` |
| Factory.SimpleBeanFactory.SetStatus | app/src/main/java/dev/aloc/spring/SimpleBeanFactory.java:84 | setting the status on a definition object of the map changes the abstract state at that type only |
| Factory.SimpleBeanFactory.ResolveArguments | app/src/main/java/dev/aloc/spring/SimpleBeanFactory.java:88-108 | the argument loop agrees with `Container.ResolveArgs` |
| Factory.SimpleBeanFactory.ResolveArgument | app/src/main/java/dev/aloc/spring/SimpleBeanFactory.java:91-107 | one loop turn agrees with `Container.NextArg` |
| Factory.SimpleBeanFactory.Instantiate | app/src/main/java/dev/aloc/spring/SimpleBeanFactory.java:111-138 | the argument check of `newInstance`, construction, exposure, put-if-absent and CREATED agree with `Container.Construct` |
| Factory.SimpleBeanFactory.RegisterBeans | app/src/main/java/dev/aloc/spring/SimpleBeanFactory.java:30-42 | `registerBeans` agrees with `Container.RegisterBeans` |
| Factory.SimpleBeanFactory.DefineAll | app/src/main/java/dev/aloc/spring/SimpleBeanFactory.java:32-34 | the definition loop agrees with `Container.RegisterDefs`, and every definition object is old or fresh |
| Factory.SimpleBeanFactory.BuildAll | app/src/main/java/dev/aloc/spring/SimpleBeanFactory.java:37-41 | the build loop agrees with `Container.BuildAll` |
| Factory.SimpleBeanFactory.GetExistingBean | app/src/main/java/dev/aloc/spring/SimpleBeanFactory.java:160-173 | changes nothing and agrees with `Container.GetExistingBean`, including the ClassCast failure on a proxy |
| Aop.RunShape | app/src/main/java/dev/aloc/spring/aop/ReflectiveMethodInvocation.java:43-52 | interceptors are entered in list order up to the first one that answers without proceeding; if one answers, its value is the result and the method never runs; otherwise the method runs once, last, and its value is the result |
| Aop.RunReachesMethod | app/src/main/java/dev/aloc/spring/aop/ReflectiveMethodInvocation.java:43-52 | the real method runs exactly when every remaining interceptor proceeds |
| Aop.AllTimingRunsMethodOnce | app/src/main/java/dev/aloc/spring/aop/ReflectiveMethodInvocation.java:43-52 | with only proceeding interceptors, all are entered in order, the method runs exactly once, its value is returned, and the index ends at the list size |
| Aop.AnswerStopsChain | app/src/main/java/dev/aloc/spring/aop/ReflectiveMethodInvocation.java:43-52 | an interceptor that does not proceed ends the chain: later interceptors and the method never run |
| Aop.ReflectiveMethodInvocation.constructor | app/src/main/java/dev/aloc/spring/aop/ReflectiveMethodInvocation.java:13-25 | target, method, arguments and interceptors are fixed, and the index starts at -1 |
| Aop.ReflectiveMethodInvocation.Proceed | app/src/main/java/dev/aloc/spring/aop/ReflectiveMethodInvocation.java:43-52 | `proceed` from index `i` returns what the chain from `i + 1` returns and moves the index as that chain does; calling it with the index already at the end is excluded |
| Aop.ReflectiveMethodInvocation.Invoke | app/src/main/java/dev/aloc/spring/aop/TimeLoggingAspect.java:12-23 | an interceptor invoked with the invocation returns what the chain from its own position returns |
| Aop.ProceedThroughAspects | app/src/main/java/dev/aloc/spring/aop/ReflectiveMethodInvocation.java:43-52 | a fresh invocation whose interceptors all proceed once returns the real method's result |
| Web.Normalize | app/src/main/java/dev/aloc/spring/web/HandlerMapping.java:50 | the result starts with "/", leaves a path that already does unchanged, and adds at most one character |
| Web.NormalizeIdempotent | app/src/main/java/dev/aloc/spring/web/HandlerMapping.java:50 | normalising twice is normalising once |
| Web.MissingSlashCollides | app/src/main/java/dev/aloc/spring/web/HandlerMapping.java:50-56 | "hello" and "/hello" normalise to the same key |
| Web.MappedPath | app/src/main/java/dev/aloc/spring/web/HandlerMapping.java:44-50 | a method is mapped exactly when it has `@GetMapping` with a non-null, non-blank value, and then to that value normalised |
| Web.AddMethodsKeeps | app/src/main/java/dev/aloc/spring/web/HandlerMapping.java:43-65 | the method loop never removes or overwrites an entry, and keeps every key starting with "/" |
| Web.AddMethodsFirstWins | app/src/main/java/dev/aloc/spring/web/HandlerMapping.java:52-61 | after the method loop a path is present exactly when it was before or some method maps to it; a new entry holds the first such method |
| Web.AddClassesKeeps | app/src/main/java/dev/aloc/spring/web/HandlerMapping.java:30-66 | the class loop never removes or overwrites an entry, and keeps every key starting with "/" |
| Web.AddClassFiles | app/src/main/java/dev/aloc/spring/web/HandlerMapping.java:31-65 | one class adds a path exactly when it is a `@Controller` whose cached bean is plain (not a proxy) and maps a method to that path, and never touches an existing entry |
| Web.AddClassesFirstWins | app/src/main/java/dev/aloc/spring/web/HandlerMapping.java:26-67 | after the class loop a path is present exactly when it was before or some served controller (one with a plain cached bean) maps it; a new entry holds the first such controller's bean and its first such method |
| Web.ProxiedControllerSkipped | app/src/main/java/dev/aloc/spring/web/HandlerMapping.java:35-41 | a controller whose cached bean is a proxy adds nothing to the table, because the cast in `getExistingBean` fails and the failure is ignored |
| Web.AddMethodsCount | app/src/main/java/dev/aloc/spring/web/HandlerMapping.java:43-61 | the method loop never shrinks the table and adds at most one entry per method |
| Web.AddClassesCount | app/src/main/java/dev/aloc/spring/web/HandlerMapping.java:30-61 | the class loop never shrinks the table and adds at most one entry per method of a served controller |
| Web.HandlerMapping.constructor | app/src/main/java/dev/aloc/spring/web/HandlerMapping.java:17 | a new mapping has an empty table |
| Web.HandlerMapping.Initialize | app/src/main/java/dev/aloc/spring/web/HandlerMapping.java:26-67 | the nested loops leave exactly the table `AddClasses` describes |
| Web.HandlerMapping.GetHandler | app/src/main/java/dev/aloc/spring/web/HandlerMapping.java:72-74 | returns an entry exactly when the exact path is a key, and then the entry filed under it |
| Web.HandlerMapping.GetHandlerCount | app/src/main/java/dev/aloc/spring/web/HandlerMapping.java:79-81 | the number of distinct paths in the table |
| Web.CountAfterInitialize | app/src/main/java/dev/aloc/spring/web/HandlerMapping.java:79-81 | after initialising a fresh mapping the count is at most the number of methods of served controllers, and at least one when some served controller maps a path |
| Web.InitializeFresh | app/src/main/java/dev/aloc/spring/web/HandlerMapping.java:26-74 | after initialising a fresh mapping, a path is served exactly when some controller with a plain cached bean maps a method to it, by the first such controller's first such method in reflection order, and every served path starts with "/" |

## Left out

- Reflection and class scanning: classes, constructors, methods and annotations are explicit descriptors. `Class.isInterface`, `Class.isPrimitive`, `getInterfaces` and `@Component` on a parameter type are fields of those descriptors.
- Proxy construction (`java.lang.reflect.Proxy`, `AspectProxyHandler`): a proxy is the tag `Handle.Proxy` around the object, and a failing proxy construction is the class flag `proxyFails`. The handler's behaviour is not part of this model.
- Constructor bodies and `method.invoke`: a constructor either returns a new object or throws (`Ctor.throws`). The real method's result is a function parameter, and its exceptions are not modelled.
- Object identity: a new object is numbered by the counter `nextRef`. JVM allocation and garbage collection are not modelled.
- The argument array of `createBean` is a sequence filled in parameter order. An array updated in place was not kept.
- `Set<Class<?>>` iteration order is the order of a sequence. Which order a `HashSet` yields is not modelled.
- `getDeclaredMethods` order is the order of a sequence, so "first method" means first in that sequence. Reflection does not specify that order.
- Aop.Run: an interceptor either proceeds once and returns the chain's result (`Timing`, the only aspect the code has) or answers without proceeding (`Answer`). An interceptor that proceeds and then changes the result, or proceeds more than once, is not modelled.
- Container.Accepts: a proxy is taken to implement any interface type it is passed for; whether the class really implements that interface is not modelled.
- `ConcurrentHashMap` and thread safety: everything is sequential.
- Exception message texts and console output are not modelled. This includes the `split(" ")[0]` message surgery and the timing printed by `TimeLoggingAspect` (`System.nanoTime`).
- `Scope.PROTOTYPE`: it is declared, but the factory never consults it, so it behaves as singleton only.
- `defaultPrimitive` on `void.class` (SimpleBeanFactory.java line 206) is left out: no constructor parameter has type `void`. The floating-point zeros are tagged constants.
- The null-controller check in `HandlerMapping.initialize`: `getExistingBean` never returns null, so only its failure is modelled.
- `HandlerMapping.initialize` receives the container's state instead of a `BeanFactory` object. It only calls `getExistingBean`, which reads that state.
- Web.HandlerMapping.GetHandlerCount: the result is an unbounded natural, not a 32-bit `int`. A table never reaches 2^31 entries.
- The getters of `ReflectiveMethodInvocation` and `BeanDefinition` are not separate members: the final fields are Dafny `const` fields, and `BeanDefinition.Value()` reads all of them.
- `BeanFactory`'s generic `getBean` signature is not modelled; `SimpleBeanFactory`'s own signatures are.
- Aop.ReflectiveMethodInvocation.Proceed: the out-of-range `interceptors.get` after the last `proceed` is a precondition, not a modelled exception.
