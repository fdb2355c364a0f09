/**
 * The bean container of `SimpleBeanFactory` as a function of its state: the definition map, the
 * singleton cache and the allocation counter that gives every constructed object its identity.
 * `getBean`, `createBean` and the argument loop of `createBean` are mutually recursive; the class
 * `Factory.SimpleBeanFactory` runs the same steps in place and is proved equal to these functions.
 */
module Container {
  import opened Reflection
  import opened Enums
  import opened Exceptions
  import opened Definitions

  datatype State = State(defs: map<TypeId, Definition>, beans: map<TypeId, Handle>, nextRef: nat)

  const Empty := State(map[], map[], 0)

  /**
   * Every definition is filed under its own class, and a CREATED definition has a cached bean; every
   * cached bean is an object of the type it is filed under, allocated before the counter's value.
   */
  ghost predicate Valid(s: State) {
    && (forall t :: t in s.defs ==>
          && s.defs[t].beanType.id == t
          && (s.defs[t].status == Created ==> t in s.beans))
    && (forall t :: t in s.beans ==> s.beans[t].target.cls == t && s.beans[t].target.ref < s.nextRef)
  }

  /** The types whose construction is under way: the current chain of nested createBean calls. */
  function InProgress(s: State): set<TypeId> {
    set t | t in s.defs && s.defs[t].status == Creating
  }

  /** The definitions that may still be entered: those not under construction. */
  function Remaining(s: State): set<TypeId> {
    s.defs.Keys - InProgress(s)
  }

  /** How many definitions may still be entered; shrinks with every nested createBean. */
  function Pending(s: State): nat {
    |Remaining(s)|
  }

  function Mark(s: State, t: TypeId, status: CreationStatus): State
    requires t in s.defs
  {
    s.(defs := s.defs[t := s.defs[t].(status := status)])
  }

  /** The order NOT_CREATED, CREATING, CREATED. */
  function Rank(status: CreationStatus): nat {
    match status
    case NotCreated => 0
    case Creating => 1
    case Created => 2
  }

  /**
   * What any step of bean creation keeps: validity, the set of definitions and everything in them
   * but their status, every cached bean, and the allocation counter never going back.
   */
  ghost predicate Extends(s: State, s': State) {
    && Valid(s')
    && s'.defs.Keys == s.defs.Keys
    && (forall k :: k in s.defs ==> s'.defs[k] == s.defs[k].(status := s'.defs[k].status))
    && (forall k :: k in s.beans ==> k in s'.beans && s'.beans[k] == s.beans[k])
    && s.nextRef <= s'.nextRef
  }

  /** No definition's status moves back, except possibly those in `except`. */
  ghost predicate Advances(s: State, s': State, except: set<TypeId>) {
    forall k :: k in s.defs && k in s'.defs && k !in except ==>
      Rank(s.defs[k].status) <= Rank(s'.defs[k].status)
  }

  /**
   * What a step of bean creation does: it extends the state, moves no status back, and caches new
   * beans only for types that were defined and not under construction when it began (and for those
   * in `except`, whose status may also be reset).
   */
  ghost predicate Grows(s: State, s': State, except: set<TypeId>) {
    && Extends(s, s')
    && Advances(s, s', except)
    && (forall k :: k in s'.beans && k !in s.beans ==> k in except || (k in s.defs && k !in InProgress(s)))
  }

  /** `defaultPrimitive`: the boxed default value of a primitive type. */
  function DefaultPrimitive(p: Primitive): (v: Boxed)
    ensures BoxType(v) == p
    ensures IsZero(v)
  {
    match p
    case Boolean => BoolBox(false)
    case Char => CharBox('\0')
    case Byte => ByteBox(0)
    case Short => ShortBox(0)
    case Int => IntBox(0)
    case Long => LongBox(0)
    case Float => FloatZero
    case Double => DoubleZero
  }

  /** The argument for a parameter type that has no definition. */
  function FallbackArg(p: ParamType): (a: Arg)
    ensures a.Value? <==> p.kind.PrimitiveType?
    ensures a.Value? ==> BoxType(a.boxed) == p.kind.prim && IsZero(a.boxed)
    ensures !p.kind.PrimitiveType? ==> a == Null
  {
    match p.kind
    case Interface => Null
    case PrimitiveType(q) => Value(DefaultPrimitive(q))
    case Reference => Null
  }

  /** The argument a parameter receives in state `s`: the bean of a defined type, otherwise its fallback. */
  ghost predicate ArgFor(s: State, p: ParamType, a: Arg) {
    if p.id in s.defs then p.id in s.beans && a == Bean(s.beans[p.id]) else a == FallbackArg(p)
  }

  /** `args` are the arguments for `params` in state `s`, position by position. */
  ghost predicate Built(s: State, params: seq<ParamType>, args: seq<Arg>) {
    |args| == |params| && forall j :: 0 <= j < |params| ==> ArgFor(s, params[j], args[j])
  }

  lemma ArgForPersists(s: State, s': State, p: ParamType, a: Arg)
    requires Extends(s, s') && ArgFor(s, p, a)
    ensures ArgFor(s', p, a)
  {
  }

  lemma BuiltPersists(s: State, s': State, params: seq<ParamType>, args: seq<Arg>)
    requires Extends(s, s') && Built(s, params, args)
    ensures Built(s', params, args)
  {
    forall j | 0 <= j < |params|
      ensures ArgFor(s', params[j], args[j])
    {
      ArgForPersists(s, s', params[j], args[j]);
    }
  }

  /**
   * `Constructor.newInstance` accepts argument `a` for a parameter of type `p`. A proxy implements
   * only the interfaces of its object's class, so it is refused for a parameter declared as a class
   * (or a primitive); for an interface parameter the model takes it to be one the proxy implements.
   */
  predicate Accepts(p: ParamType, a: Arg) {
    !(a.Bean? && a.handle.Proxy? && !p.kind.Interface?)
  }

  /** `newInstance` accepts every argument, position by position. */
  predicate AcceptsAll(params: seq<ParamType>, args: seq<Arg>) {
    forall j :: 0 <= j < |params| && j < |args| ==> Accepts(params[j], args[j])
  }

  /**
   * What createBean exposes for a new object: a TimeLoggingAspect proxy when the class implements an
   * interface and proxy creation succeeds, otherwise the object itself.
   */
  function Expose(o: Obj, cls: ClassDesc): (h: Handle)
    ensures h.target == o
    ensures h.Proxy? <==> cls.hasInterfaces && !cls.proxyFails
  {
    if cls.hasInterfaces && !cls.proxyFails then Proxy(o) else Plain(o)
  }

  lemma PendingShrinks(s: State, t: TypeId)
    requires t in s.defs && s.defs[t].status != Creating
    ensures Pending(Mark(s, t, Creating)) < Pending(s)
  {
    var s1 := Mark(s, t, Creating);
    assert InProgress(s1) == InProgress(s) + {t};
    assert s.defs.Keys - InProgress(s) == (s1.defs.Keys - InProgress(s1)) + {t};
  }

  /** Marking a definition CREATING takes it out of the remaining set; any other status puts it back. */
  lemma MarkRemaining(s: State, t: TypeId, status: CreationStatus)
    requires t in s.defs
    ensures Mark(s, t, status).defs.Keys == s.defs.Keys
    ensures InProgress(Mark(s, t, status)) == if status == Creating then InProgress(s) + {t} else InProgress(s) - {t}
    ensures Remaining(Mark(s, t, status)) == if status == Creating then Remaining(s) - {t} else Remaining(s) + {t}
  {
  }

  /**
   * `getBean`: the cached bean; otherwise, for a defined type, a circular-dependency failure when it
   * is under construction and a new bean otherwise; NoSuchBeanDefinition for an undefined type.
   */
  function GetBean(s: State, t: TypeId): (res: (Result<Handle>, State))
    requires Valid(s)
    ensures Valid(res.1) && res.1.defs.Keys == s.defs.Keys
    ensures res.0.Ok? ==> Remaining(res.1) == Remaining(s)
    decreases Pending(s), 0, 0
  {
    if t in s.beans then (Ok(s.beans[t]), s)
    else if t in s.defs then
      if s.defs[t].status == Creating then (Err(CircularDependency(t)), s)
      else
        PendingShrinks(s, t);
        CreateBean(s, t)
    else (Err(NoSuchBeanDefinition(t)), s)
  }

  /**
   * `createBean`: mark the definition CREATING, resolve the arguments in order, then construct. A
   * failure while resolving is wrapped in a BeanCreation failure that names the type and leaves its
   * definition CREATING.
   */
  function CreateBean(s: State, t: TypeId): (res: (Result<Handle>, State))
    requires Valid(s) && t in s.defs
    ensures Valid(res.1) && res.1.defs.Keys == s.defs.Keys
    ensures res.0.Ok? ==> Remaining(res.1) == Remaining(s) + {t}
    decreases Pending(Mark(s, t, Creating)), 2, 0
  {
    MarkRemaining(s, t, Creating);
    var (args, s2) := ResolveArgs(Mark(s, t, Creating), s.defs[t].paramTypes, 0, []);
    Conclude(s, t, args, s2)
  }

  /**
   * What `createBean` does once the argument loop has ended in state `s2`: a failure is wrapped in a
   * BeanCreation failure that names the type (which stays CREATING); otherwise construct.
   */
  function Conclude(s: State, t: TypeId, args: Result<seq<Arg>>, s2: State): (res: (Result<Handle>, State))
    requires Valid(s2) && t in s.defs && s2.defs.Keys == s.defs.Keys
    requires args.Ok? ==> Remaining(s2) == Remaining(s) - {t}
    ensures Valid(res.1) && res.1.defs.Keys == s.defs.Keys
    ensures res.0.Ok? ==> Remaining(res.1) == Remaining(s) + {t}
  {
    match args
    case Err(e) =>
      var step := if e.NoSuchBeanDefinition? then MissingParameterDefinition else CreationFailed;
      (Err(BeanCreation(t, step, e)), s2)
    case Ok(argv) => Construct(s2, t, argv)
  }

  /**
   * The end of `createBean`, once the arguments are resolved: invoke the constructor, expose the
   * object (or its proxy), cache it unless a bean is already cached for the type, mark CREATED.
   * `newInstance` refuses an argument of the wrong type before the constructor body runs.
   */
  function Construct(s: State, t: TypeId, args: seq<Arg>): (res: (Result<Handle>, State))
    requires Valid(s) && t in s.defs
    ensures Valid(res.1) && res.1.defs.Keys == s.defs.Keys
    ensures res.0.Ok? ==> Remaining(res.1) == Remaining(s) + {t}
  {
    var def := s.defs[t];
    if !AcceptsAll(def.paramTypes, args) then (Err(BeanCreation(t, CreationFailed, ArgumentTypeMismatch(t))), s)
    else if def.ctor.throws then (Err(BeanCreation(t, CreationFailed, ConstructorThrew(t))), s)
    else
      var exposed := Expose(Obj(s.nextRef, t, args), def.beanType);
      var beans := if t in s.beans then s.beans else s.beans[t := exposed];
      MarkRemaining(s, t, Created);
      (Ok(exposed), Mark(s, t, Created).(beans := beans, nextRef := s.nextRef + 1))
  }

  /** One turn of the argument loop: `getBean` for a defined parameter type, else the fallback. */
  function NextArg(s: State, p: ParamType): (res: (Result<Arg>, State))
    requires Valid(s)
    ensures Valid(res.1) && res.1.defs.Keys == s.defs.Keys
    ensures res.0.Ok? ==> Remaining(res.1) == Remaining(s)
    decreases Pending(s), 0, 1
  {
    if p.id in s.defs then
      var (r, s') := GetBean(s, p.id);
      (if r.Ok? then Ok(Bean(r.value)) else Err(r.error), s')
    else (Ok(FallbackArg(p)), s)
  }

  /**
   * The argument loop of `createBean`, from parameter `i` on, with `acc` the arguments already
   * resolved; the first failure ends the loop.
   */
  function ResolveArgs(s: State, params: seq<ParamType>, i: nat, acc: seq<Arg>): (res: (Result<seq<Arg>>, State))
    requires Valid(s) && i <= |params| && |acc| == i
    ensures Valid(res.1) && res.1.defs.Keys == s.defs.Keys
    ensures res.0.Ok? ==> Remaining(res.1) == Remaining(s)
    decreases Pending(s), 1, |params| - i
  {
    if i == |params| then (Ok(acc), s)
    else
      var (a, s') := NextArg(s, params[i]);
      match a
      case Err(e) => (Err(e), s')
      case Ok(v) => ResolveArgs(s', params, i + 1, acc + [v])
  }

  /** The argument loop is its first turn followed by the rest of the loop, unless that turn fails. */
  lemma ResolveArgsStep(s: State, params: seq<ParamType>, i: nat, acc: seq<Arg>)
    requires Valid(s) && i < |params| && |acc| == i
    ensures var (a, s') := NextArg(s, params[i]);
      && Valid(s')
      && (a.Ok? ==> Remaining(s') == Remaining(s))
      && ResolveArgs(s, params, i, acc) ==
           if a.Err? then (Err(a.error), s') else ResolveArgs(s', params, i + 1, acc + [a.value])
  {
  }

  /**
   * `getBean` grows the state: it keeps every definition and every cached bean, moves no status
   * back, and caches only types that were defined and not under construction. On success the bean
   * returned is the one cached for the type and nothing is left under construction that was not
   * before; a failure caches nothing for the type, and a defined type never fails with
   * NoSuchBeanDefinition.
   */
  lemma {:induction false} GetBeanGrows(s: State, t: TypeId)
    requires Valid(s)
    ensures var res := GetBean(s, t);
      && Grows(s, res.1, {})
      && (res.0.Ok? ==> InProgress(res.1) == InProgress(s) && t in res.1.beans && res.1.beans[t] == res.0.value)
      && (res.0.Err? ==> InProgress(s) <= InProgress(res.1) && t !in res.1.beans)
      && (res.0.Err? && t in s.defs ==> !res.0.error.NoSuchBeanDefinition?)
    decreases Pending(s), 0, 0
  {
    if t !in s.beans && t in s.defs && s.defs[t].status != Creating {
      PendingShrinks(s, t);
      CreateBeanGrows(s, t);
      EnterStep(s, t, CreateBean(s, t).1);
    }
  }

  /** A type `getBean` hands to `createBean` was NOT_CREATED and not under construction. */
  lemma EnterStep(s: State, t: TypeId, s': State)
    requires Valid(s) && t in s.defs && t !in s.beans && s.defs[t].status != Creating
    requires Grows(s, s', {t})
    ensures Grows(s, s', {})
    ensures InProgress(s) - {t} == InProgress(s)
  {
  }

  /**
   * What `createBean` promises about `res`, run from `s` for type `t`: it grows the state, except
   * that the type's own status may go back to CREATING. On success the type is CREATED with a cached
   * bean, nothing is left under construction that was not before, and the result is a new object of
   * the type exposed through `Expose`, made by a constructor that did not throw, from the arguments
   * its parameters call for, each of which `newInstance` accepts; on failure the type stays CREATING, no bean is cached for it that was
   * not before, and the error is a BeanCreation failure naming it.
   */
  ghost predicate CreateOutcome(s: State, t: TypeId, res: (Result<Handle>, State))
    requires t in s.defs
  {
    && Grows(s, res.1, {t})
    && (res.0.Ok? ==>
          && InProgress(res.1) == InProgress(s) - {t}
          && res.1.defs[t].status == Created
          && t in res.1.beans
          && (t !in s.beans ==> res.1.beans[t] == res.0.value))
    && (res.0.Ok? ==>
          && !s.defs[t].ctor.throws
          && AcceptsAll(s.defs[t].paramTypes, res.0.value.target.args)
          && res.0.value == Expose(res.0.value.target, s.defs[t].beanType)
          && res.0.value.target.cls == t
          && s.nextRef <= res.0.value.target.ref < res.1.nextRef
          && Built(res.1, s.defs[t].paramTypes, res.0.value.target.args))
    && (res.0.Err? ==>
          && InProgress(s) + {t} <= InProgress(res.1)
          && (t in res.1.beans <==> t in s.beans)
          && res.0.error.BeanCreation? && res.0.error.beanType == t && res.0.error.step == CreationFailed)
  }

  lemma {:induction false} CreateBeanGrows(s: State, t: TypeId)
    requires Valid(s) && t in s.defs
    ensures CreateOutcome(s, t, CreateBean(s, t))
    decreases Pending(Mark(s, t, Creating)), 2, 0
  {
    var s1 := Mark(s, t, Creating);
    MarkCreating(s, t);
    MarkRemaining(s, t, Creating);
    var params := s.defs[t].paramTypes;
    ResolveArgsGrows(s1, params, 0, []);
    var r := ResolveArgs(s1, params, 0, []);
    AfterArgs(s, t, r.1);
    ConcludeGrows(s, t, r.0, r.1);
  }

  /**
   * When `createBean` succeeds and why it fails. It succeeds exactly when the argument loop resolves
   * every parameter, `newInstance` accepts the arguments and the constructor does not throw. A
   * failure is a BeanCreation failure whose cause is the argument loop's own failure, else the
   * refused argument, else the constructor's exception.
   */
  lemma CreateBeanCause(s: State, t: TypeId)
    requires Valid(s) && t in s.defs
    ensures Valid(Mark(s, t, Creating))
    ensures var def := s.defs[t];
      var (a, s2) := ResolveArgs(Mark(s, t, Creating), def.paramTypes, 0, []);
      var res := CreateBean(s, t);
      && (res.0.Ok? <==> a.Ok? && AcceptsAll(def.paramTypes, a.value) && !def.ctor.throws)
      && (res.0.Err? ==>
            && res.0.error.BeanCreation?
            && res.0.error.cause ==
                 if a.Err? then a.error
                 else if !AcceptsAll(def.paramTypes, a.value) then ArgumentTypeMismatch(t)
                 else ConstructorThrew(t))
  {
    var s1 := Mark(s, t, Creating);
    MarkCreating(s, t);
    MarkRemaining(s, t, Creating);
    var params := s.defs[t].paramTypes;
    ResolveArgsGrows(s1, params, 0, []);
    var (a, s2) := ResolveArgs(s1, params, 0, []);
    assert s2.defs[t].paramTypes == params && s2.defs[t].ctor == s.defs[t].ctor;
    if a.Ok? {
      ConstructGrows(s2, t, a.value);
    }
  }

  /** The end of `createBean` keeps its promise given what the argument loop guarantees. */
  lemma ConcludeGrows(s: State, t: TypeId, args: Result<seq<Arg>>, s2: State)
    requires Valid(s) && t in s.defs
    requires Grows(s, s2, {t}) && (t in s2.beans <==> t in s.beans)
    requires args.Ok? ==> Remaining(s2) == Remaining(s) - {t}
    requires args.Ok? ==> InProgress(s2) == InProgress(s) + {t} && Built(s2, s.defs[t].paramTypes, args.value)
    requires args.Err? ==> InProgress(s) + {t} <= InProgress(s2) && !args.error.NoSuchBeanDefinition?
    ensures CreateOutcome(s, t, Conclude(s, t, args, s2))
  {
    if args.Ok? {
      var res := Construct(s2, t, args.value);
      ConstructGrows(s2, t, args.value);
      AfterConstruct(s, t, s2, res);
      if res.0.Ok? {
        AfterConstructOk(s, t, s2, args.value, res);
      }
    }
  }

  /** From the state before `createBean` to the state after its argument loop. */
  lemma AfterArgs(s: State, t: TypeId, s2: State)
    requires Valid(s) && t in s.defs
    requires Extends(s, Mark(s, t, Creating)) && Grows(Mark(s, t, Creating), s2, {})
    requires InProgress(Mark(s, t, Creating)) == InProgress(s) + {t}
    requires InProgress(s) + {t} <= InProgress(s2)
    ensures Grows(s, s2, {t})
    ensures t in s2.beans <==> t in s.beans
  {
    ExtendsTrans(s, Mark(s, t, Creating), s2);
  }

  /** From the state before `createBean` to the state construction leaves: the frame. */
  lemma AfterConstruct(s: State, t: TypeId, s2: State, res: (Result<Handle>, State))
    requires Valid(s) && t in s.defs
    requires Grows(s, s2, {t})
    requires Extends(s2, res.1)
    requires forall k :: k in s2.defs && k != t ==> res.1.defs[k] == s2.defs[k]
    requires res.1.beans.Keys <= s2.beans.Keys + {t}
    ensures Grows(s, res.1, {t})
  {
    ExtendsTrans(s, s2, res.1);
  }

  /** From the state before `createBean` to the state a successful construction leaves: the bean. */
  lemma AfterConstructOk(s: State, t: TypeId, s2: State, args: seq<Arg>, res: (Result<Handle>, State))
    requires Valid(s) && t in s.defs && res.0.Ok?
    requires Extends(s, s2) && Extends(s2, res.1)
    requires t in s2.beans <==> t in s.beans
    requires InProgress(s2) == InProgress(s) + {t}
    requires Built(s2, s.defs[t].paramTypes, args)
    requires res.1.defs[t].status == Created
    requires InProgress(res.1) == InProgress(s2) - {t}
    requires t in res.1.beans
    requires t !in s2.beans ==> res.1.beans[t] == res.0.value
    requires !s2.defs[t].ctor.throws && AcceptsAll(s2.defs[t].paramTypes, args)
    requires res.0.value == Expose(Obj(s2.nextRef, t, args), s2.defs[t].beanType)
    requires res.1.nextRef == s2.nextRef + 1
    ensures InProgress(res.1) == InProgress(s) - {t}
    ensures t !in s.beans ==> res.1.beans[t] == res.0.value
    ensures !s.defs[t].ctor.throws && AcceptsAll(s.defs[t].paramTypes, res.0.value.target.args)
    ensures res.0.value == Expose(res.0.value.target, s.defs[t].beanType)
    ensures res.0.value.target.cls == t
    ensures s.nextRef <= res.0.value.target.ref < res.1.nextRef
    ensures Built(res.1, s.defs[t].paramTypes, res.0.value.target.args)
  {
    BuiltPersists(s2, res.1, s.defs[t].paramTypes, args);
  }

  /**
   * Construction changes only the type's own definition and cache entry. It succeeds exactly when
   * `newInstance` accepts every argument and the constructor does not throw; a failure changes
   * nothing. On success the exposed object is new, made from `args`, the type is CREATED and cached
   * unless a bean was cached already, and the allocation counter moves on by one.
   */
  lemma ConstructGrows(s: State, t: TypeId, args: seq<Arg>)
    requires Valid(s) && t in s.defs
    ensures var res := Construct(s, t, args);
      && Extends(s, res.1)
      && (forall k :: k in s.defs && k != t ==> res.1.defs[k] == s.defs[k])
      && res.1.beans.Keys <= s.beans.Keys + {t}
      && (res.0.Ok? <==> AcceptsAll(s.defs[t].paramTypes, args) && !s.defs[t].ctor.throws)
      && (res.0.Ok? ==>
            && res.1.defs[t].status == Created
            && InProgress(res.1) == InProgress(s) - {t}
            && t in res.1.beans
            && (t !in s.beans ==> res.1.beans[t] == res.0.value)
            && !s.defs[t].ctor.throws
            && AcceptsAll(s.defs[t].paramTypes, args)
            && res.0.value == Expose(Obj(s.nextRef, t, args), s.defs[t].beanType)
            && res.1.nextRef == s.nextRef + 1)
      && (res.0.Err? ==>
            var cause := if AcceptsAll(s.defs[t].paramTypes, args) then ConstructorThrew(t) else ArgumentTypeMismatch(t);
            res == (Err(BeanCreation(t, CreationFailed, cause)), s))
  {
    MarkRemaining(s, t, Created);
  }

  lemma MarkCreating(s: State, t: TypeId)
    requires Valid(s) && t in s.defs
    ensures Extends(s, Mark(s, t, Creating))
    ensures InProgress(Mark(s, t, Creating)) == InProgress(s) + {t}
  {
    MarkRemaining(s, t, Creating);
  }

  lemma ExtendsTrans(s: State, s': State, s'': State)
    requires Extends(s, s') && Extends(s', s'')
    ensures Extends(s, s'')
  {
  }

  /**
   * One turn of the argument loop grows the state; on success the argument is the one the parameter
   * calls for and nothing new is under construction; a failure is never NoSuchBeanDefinition.
   */
  lemma {:induction false} NextArgGrows(s: State, p: ParamType)
    requires Valid(s)
    ensures var res := NextArg(s, p);
      && Grows(s, res.1, {})
      && (res.0.Ok? ==> InProgress(res.1) == InProgress(s) && ArgFor(res.1, p, res.0.value))
      && (res.0.Err? ==> InProgress(s) <= InProgress(res.1) && !res.0.error.NoSuchBeanDefinition?)
    decreases Pending(s), 0, 1
  {
    if p.id in s.defs {
      GetBeanGrows(s, p.id);
    }
  }

  /**
   * What the argument loop promises about `res`, run from `s` at parameter `i` with `acc` resolved:
   * it grows the state. On success it yields one argument per parameter, keeps the arguments already
   * resolved, leaves nothing new under construction, and gives every later parameter the argument
   * it calls for in the final state; a failure is never NoSuchBeanDefinition.
   */
  ghost predicate ResolveOutcome(s: State, params: seq<ParamType>, i: nat, acc: seq<Arg>, res: (Result<seq<Arg>>, State))
    requires i <= |params|
  {
    && Grows(s, res.1, {})
    && (res.0.Ok? ==> InProgress(res.1) == InProgress(s))
    && (res.0.Ok? ==> |res.0.value| == |params| && res.0.value[..i] == acc)
    && (res.0.Ok? ==> forall j :: i <= j < |params| ==> ArgFor(res.1, params[j], res.0.value[j]))
    && (res.0.Err? ==> InProgress(s) <= InProgress(res.1) && !res.0.error.NoSuchBeanDefinition?)
  }

  lemma {:induction false} ResolveArgsGrows(s: State, params: seq<ParamType>, i: nat, acc: seq<Arg>)
    requires Valid(s) && i <= |params| && |acc| == i
    ensures ResolveOutcome(s, params, i, acc, ResolveArgs(s, params, i, acc))
    decreases Pending(s), 1, |params| - i
  {
    if i < |params| {
      ResolveArgsStep(s, params, i, acc);
      NextArgGrows(s, params[i]);
      var r := NextArg(s, params[i]);
      if r.0.Ok? {
        ResolveArgsGrows(r.1, params, i + 1, acc + [r.0.value]);
        ResolveOutcomeStep(s, r.1, params, i, acc, r.0.value, ResolveArgs(r.1, params, i + 1, acc + [r.0.value]));
      }
    }
  }

  /** A successful turn of the argument loop composes with the rest of the loop. */
  lemma ResolveOutcomeStep(s: State, s': State, params: seq<ParamType>, i: nat, acc: seq<Arg>, a: Arg, res: (Result<seq<Arg>>, State))
    requires i < |params| && |acc| == i
    requires Grows(s, s', {}) && InProgress(s') == InProgress(s) && ArgFor(s', params[i], a)
    requires ResolveOutcome(s', params, i + 1, acc + [a], res)
    ensures ResolveOutcome(s, params, i, acc, res)
  {
    GrowsTrans(s, s', res.1);
    ArgStep(s', params, i, acc, a, res);
  }

  /** One turn of the argument loop: position `i` receives `a`, which stays right as the state grows. */
  lemma ArgStep(s: State, params: seq<ParamType>, i: nat, acc: seq<Arg>, a: Arg, res: (Result<seq<Arg>>, State))
    requires i < |params| && |acc| == i && ArgFor(s, params[i], a)
    requires Extends(s, res.1)
    requires res.0.Ok? ==> |res.0.value| == |params| && res.0.value[..i + 1] == acc + [a]
    requires res.0.Ok? ==> forall j :: i + 1 <= j < |params| ==> ArgFor(res.1, params[j], res.0.value[j])
    ensures res.0.Ok? ==> res.0.value[..i] == acc
    ensures res.0.Ok? ==> forall j :: i <= j < |params| ==> ArgFor(res.1, params[j], res.0.value[j])
  {
    if res.0.Ok? {
      assert res.0.value[..i] == res.0.value[..i + 1][..i];
      assert res.0.value[i] == res.0.value[..i + 1][i];
      ArgForPersists(s, res.1, params[i], a);
    }
  }

  lemma GrowsTrans(s: State, s': State, s'': State)
    requires Grows(s, s', {}) && Grows(s', s'', {}) && InProgress(s') == InProgress(s)
    ensures Grows(s, s'', {})
  {
    ExtendsTrans(s, s', s'');
  }

  /** The position of the first class from `i` on whose definition cannot be built, or `|classes|`. */
  function FirstInvalid(classes: seq<ClassDesc>, i: nat): (r: nat)
    requires i <= |classes|
    ensures i <= r <= |classes|
    ensures forall j :: i <= j < r ==> NewDefinition(Some(classes[j])).Ok?
    ensures r < |classes| ==> NewDefinition(Some(classes[r])).Err?
    decreases |classes| - i
  {
    if i == |classes| || NewDefinition(Some(classes[i])).Err? then i else FirstInvalid(classes, i + 1)
  }

  /**
   * The first loop of `registerBeans`: file a fresh definition under each class from `i` on, a
   * later duplicate replacing an earlier one. The first class whose definition fails aborts the
   * loop with that failure, the classes before it already filed.
   */
  function RegisterDefs(s: State, classes: seq<ClassDesc>, i: nat): (res: (Result<()>, State))
    requires Valid(s) && i <= |classes|
    ensures Valid(res.1)
    decreases |classes| - i
  {
    if i == |classes| then (Ok(()), s)
    else
      match NewDefinition(Some(classes[i]))
      case Err(e) => (Err(e), s)
      case Ok(d) => RegisterDefs(s.(defs := s.defs[classes[i].id := d]), classes, i + 1)
  }

  /** One turn of the definition loop: a class whose definition fails stops it, otherwise it is filed. */
  lemma RegisterDefsStep(s: State, classes: seq<ClassDesc>, i: nat)
    requires Valid(s) && i < |classes|
    ensures match NewDefinition(Some(classes[i]))
      case Err(e) => RegisterDefs(s, classes, i) == (Err(e), s)
      case Ok(d) =>
        var s' := s.(defs := s.defs[classes[i].id := d]);
        Valid(s') && RegisterDefs(s, classes, i) == RegisterDefs(s', classes, i + 1)
  {
  }

  /** No class after position `j` and before `hi` has the class of position `j`. */
  ghost predicate LastOf(classes: seq<ClassDesc>, j: nat, hi: nat)
    requires j < hi <= |classes|
  {
    forall k :: j < k < hi ==> classes[k].id != classes[j].id
  }

  /**
   * What the definition loop promises about `res`, run from `s` at class `i`: it touches neither the
   * cache nor the counter and drops no definition; a type that no filed class names keeps its
   * definition; every class before the first one that cannot be defined is filed, the last class
   * filed under a type leaving its fresh NOT_CREATED definition there; the loop succeeds
   * exactly when every class can be defined, and otherwise fails with the first failure.
   */
  ghost predicate DefsOutcome(s: State, classes: seq<ClassDesc>, i: nat, res: (Result<()>, State))
    requires i <= |classes|
  {
    && res.1.beans == s.beans && res.1.nextRef == s.nextRef
    && s.defs.Keys <= res.1.defs.Keys
    && (forall k :: k in res.1.defs && (forall j :: i <= j < FirstInvalid(classes, i) ==> classes[j].id != k) ==>
          k in s.defs && res.1.defs[k] == s.defs[k])
    && (forall j :: i <= j < FirstInvalid(classes, i) ==> classes[j].id in res.1.defs)
    && (forall j :: i <= j < FirstInvalid(classes, i) && LastOf(classes, j, FirstInvalid(classes, i)) ==>
          res.1.defs[classes[j].id] == NewDefinition(Some(classes[j])).value)
    && (res.0.Ok? <==> FirstInvalid(classes, i) == |classes|)
    && (res.0.Err? ==> res.0.error == NewDefinition(Some(classes[FirstInvalid(classes, i)])).error)
  }

  lemma {:induction false} RegisterDefsFiles(s: State, classes: seq<ClassDesc>, i: nat)
    requires Valid(s) && i <= |classes|
    ensures DefsOutcome(s, classes, i, RegisterDefs(s, classes, i))
    decreases |classes| - i
  {
    if i < |classes| {
      RegisterDefsStep(s, classes, i);
      if NewDefinition(Some(classes[i])).Ok? {
        var s' := s.(defs := s.defs[classes[i].id := NewDefinition(Some(classes[i])).value]);
        RegisterDefsFiles(s', classes, i + 1);
        DefsOutcomeStep(s, s', classes, i, RegisterDefs(s', classes, i + 1));
      }
    }
  }

  /** Filing class `i` composes with the rest of the definition loop. */
  lemma DefsOutcomeStep(s: State, s': State, classes: seq<ClassDesc>, i: nat, res: (Result<()>, State))
    requires i < |classes| && NewDefinition(Some(classes[i])).Ok?
    requires s' == s.(defs := s.defs[classes[i].id := NewDefinition(Some(classes[i])).value])
    requires DefsOutcome(s', classes, i + 1, res)
    ensures DefsOutcome(s, classes, i, res)
  {
    var hi := FirstInvalid(classes, i);
    assert hi == FirstInvalid(classes, i + 1);
    DefsLastStep(s, s', classes, i, hi, res);
    DefsKeepStep(s, s', classes, i, hi, res);
  }

  /** Filing class `i` keeps the definitions of the types no class from `i` on names. */
  lemma DefsKeepStep(s: State, s': State, classes: seq<ClassDesc>, i: nat, hi: nat, res: (Result<()>, State))
    requires i < hi <= |classes| && NewDefinition(Some(classes[i])).Ok?
    requires s' == s.(defs := s.defs[classes[i].id := NewDefinition(Some(classes[i])).value])
    requires forall k :: k in res.1.defs && (forall j :: i + 1 <= j < hi ==> classes[j].id != k) ==>
               k in s'.defs && res.1.defs[k] == s'.defs[k]
    ensures forall k :: k in res.1.defs && (forall j :: i <= j < hi ==> classes[j].id != k) ==>
              k in s.defs && res.1.defs[k] == s.defs[k]
  {
    forall k | k in res.1.defs && (forall j :: i <= j < hi ==> classes[j].id != k)
      ensures k in s.defs && res.1.defs[k] == s.defs[k]
    {
      assert classes[i].id != k;
    }
  }

  /** Filing class `i` keeps the definitions the rest of the loop leaves for the last classes of each type. */
  lemma DefsLastStep(s: State, s': State, classes: seq<ClassDesc>, i: nat, hi: nat, res: (Result<()>, State))
    requires i < hi <= |classes| && NewDefinition(Some(classes[i])).Ok?
    requires forall j :: i <= j < hi ==> NewDefinition(Some(classes[j])).Ok?
    requires s' == s.(defs := s.defs[classes[i].id := NewDefinition(Some(classes[i])).value])
    requires forall k :: k in res.1.defs && (forall j :: i + 1 <= j < hi ==> classes[j].id != k) ==>
               k in s'.defs && res.1.defs[k] == s'.defs[k]
    requires s'.defs.Keys <= res.1.defs.Keys
    requires forall j :: i + 1 <= j < hi ==> classes[j].id in res.1.defs
    requires forall j :: i + 1 <= j < hi && LastOf(classes, j, hi) ==>
               res.1.defs[classes[j].id] == NewDefinition(Some(classes[j])).value
    ensures forall j :: i <= j < hi && LastOf(classes, j, hi) ==>
              classes[j].id in res.1.defs && res.1.defs[classes[j].id] == NewDefinition(Some(classes[j])).value
  {
    forall j | i <= j < hi && LastOf(classes, j, hi)
      ensures classes[j].id in res.1.defs && res.1.defs[classes[j].id] == NewDefinition(Some(classes[j])).value
    {
      if j == i {
        var k := classes[i].id;
        assert k in s'.defs;
        assert forall m :: i + 1 <= m < hi ==> classes[m].id != k;
        assert res.1.defs[k] == s'.defs[k];
      }
    }
  }

  /**
   * The second loop of `registerBeans`: build, through `getBean`, every class from `i` on that has no
   * cached bean yet; the first failure aborts.
   */
  function BuildAll(s: State, classes: seq<ClassDesc>, i: nat): (res: (Result<()>, State))
    requires Valid(s) && i <= |classes|
    ensures Valid(res.1)
    decreases |classes| - i
  {
    if i == |classes| then (Ok(()), s)
    else if classes[i].id in s.beans then BuildAll(s, classes, i + 1)
    else
      var (r, s') := GetBean(s, classes[i].id);
      match r
      case Err(e) => (Err(e), s')
      case Ok(_) => BuildAll(s', classes, i + 1)
  }

  /** One turn of the build loop: a class with a bean is skipped, otherwise `getBean` builds it or ends the loop. */
  lemma BuildAllStep(s: State, classes: seq<ClassDesc>, i: nat)
    requires Valid(s) && i < |classes|
    ensures classes[i].id in s.beans ==> BuildAll(s, classes, i) == BuildAll(s, classes, i + 1)
    ensures classes[i].id !in s.beans ==>
      var (r, s') := GetBean(s, classes[i].id);
      && Valid(s')
      && BuildAll(s, classes, i) == if r.Err? then (Err(r.error), s') else BuildAll(s', classes, i + 1)
  {
  }

  /**
   * What the build loop promises about `res`, run from `s` at class `i`: it extends the state and
   * moves no status back; on success nothing is left under construction that was not before, and
   * every class from `i` on has a cached bean.
   */
  ghost predicate BuildOutcome(s: State, classes: seq<ClassDesc>, i: nat, res: (Result<()>, State)) {
    && Extends(s, res.1) && Advances(s, res.1, {})
    && (res.0.Ok? ==> InProgress(res.1) == InProgress(s))
    && (res.0.Ok? ==> forall j :: i <= j < |classes| ==> classes[j].id in res.1.beans)
  }

  lemma {:induction false} BuildAllBuilds(s: State, classes: seq<ClassDesc>, i: nat)
    requires Valid(s) && i <= |classes|
    ensures BuildOutcome(s, classes, i, BuildAll(s, classes, i))
    decreases |classes| - i
  {
    if i < |classes| {
      BuildAllStep(s, classes, i);
      if classes[i].id in s.beans {
        BuildAllBuilds(s, classes, i + 1);
        BuildOutcomeStep(s, s, classes, i, BuildAll(s, classes, i + 1));
      } else {
        GetBeanGrows(s, classes[i].id);
        var r := GetBean(s, classes[i].id);
        if r.0.Ok? {
          BuildAllBuilds(r.1, classes, i + 1);
          BuildOutcomeStep(s, r.1, classes, i, BuildAll(r.1, classes, i + 1));
        }
      }
    }
  }

  /** A turn of the build loop that leaves a bean for class `i` composes with the rest of the loop. */
  lemma BuildOutcomeStep(s: State, s': State, classes: seq<ClassDesc>, i: nat, res: (Result<()>, State))
    requires Valid(s) && i < |classes|
    requires Extends(s, s') && Advances(s, s', {}) && InProgress(s') == InProgress(s)
    requires classes[i].id in s'.beans
    requires BuildOutcome(s', classes, i + 1, res)
    ensures BuildOutcome(s, classes, i, res)
  {
    ExtendsTrans(s, s', res.1);
  }

  /** `registerBeans`: define every class, then build every class not yet built. */
  function RegisterBeans(s: State, classes: seq<ClassDesc>): (res: (Result<()>, State))
    requires Valid(s)
    ensures Valid(res.1)
  {
    var (r, s1) := RegisterDefs(s, classes, 0);
    match r
    case Err(e) => (Err(e), s1)
    case Ok(_) => BuildAll(s1, classes, 0)
  }

  /**
   * After a successful `registerBeans` every class given has a definition and a cached bean, and no
   * bean cached before was dropped.
   */
  lemma RegisterBeansBuilds(s: State, classes: seq<ClassDesc>)
    requires Valid(s)
    ensures var res := RegisterBeans(s, classes);
      && (res.0.Ok? ==> forall c :: c in classes ==> c.id in res.1.defs && c.id in res.1.beans)
      && s.beans.Keys <= res.1.beans.Keys
  {
    RegisterDefsFiles(s, classes, 0);
    var r := RegisterDefs(s, classes, 0);
    if r.0.Ok? {
      BuildAllBuilds(r.1, classes, 0);
      var res := BuildAll(r.1, classes, 0);
      assert RegisterBeans(s, classes) == res;
      forall c | c in classes && res.0.Ok?
        ensures c.id in res.1.defs && c.id in res.1.beans
      {
        var j :| 0 <= j < |classes| && classes[j] == c;
        assert classes[j].id in r.1.defs;
      }
    }
  }

  /**
   * `getExistingBean`: the cached bean cast to its class, never building one. A proxy implements only
   * the interfaces of its object's class, so the cast refuses a cached proxy.
   */
  function GetExistingBean(s: State, t: TypeId): (r: Result<Handle>)
    ensures r.Ok? <==> t in s.beans && s.beans[t].Plain?
    ensures r.Ok? ==> r.value == s.beans[t]
    ensures r.Err? ==> r.error == if t in s.beans then ClassCast(t) else NoSuchBeanDefinition(t)
  {
    if t !in s.beans then Err(NoSuchBeanDefinition(t))
    else if s.beans[t].Proxy? then Err(ClassCast(t))
    else Ok(s.beans[t])
  }
}
