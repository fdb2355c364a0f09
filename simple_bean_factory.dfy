/**
 * `SimpleBeanFactory` as the Java class runs it: a definition map whose `BeanDefinition` objects are
 * updated in place, a singleton cache, and the recursive getBean/createBean pair. Every method is
 * proved to compute exactly what the state functions of `Container` compute, so the properties
 * proved there hold for this class.
 */
module Factory {
  import opened Reflection
  import opened Enums
  import opened Exceptions
  import opened Definitions
  import Container

  class SimpleBeanFactory {
    /** Class to its definition; each definition is its own object, updated in place. */
    var defs: map<TypeId, BeanDefinition>
    /** Class to its singleton. */
    var beans: map<TypeId, Handle>
    /** How many objects the factory has constructed: the identity the next one receives. */
    var nextRef: nat

    /** The container state this object stands for. */
    ghost function Abs(): Container.State
      reads this, defs.Values
    {
      Container.State(map t | t in defs :: defs[t].Value(), beans, nextRef)
    }

    /** No two classes share a definition object. */
    ghost predicate Distinct()
      reads this
    {
      forall a, b :: a in defs && b in defs && a != b ==> defs[a] != defs[b]
    }

    /** Definitions are not shared, and the state is a valid container state. */
    ghost predicate Valid()
      reads this, defs.Values
    {
      Distinct() && Container.Valid(Abs())
    }

    /** Writing to memory outside the factory and its definitions leaves the abstract state as it was. */
    twostate lemma AbsUnchanged()
      requires unchanged(this) && unchanged(old(defs).Values)
      ensures Abs() == old(Abs())
    {
    }

    /** Filing a fresh definition object under `t` updates the abstract definition map at `t`. */
    twostate lemma Filed(t: TypeId, new def: BeanDefinition)
      requires old(Distinct()) && def !in old(defs).Values
      requires defs == old(defs)[t := def] && beans == old(beans) && nextRef == old(nextRef)
      requires forall d :: d in old(defs).Values ==> unchanged(d)
      ensures Distinct()
      ensures Abs() == old(Abs()).(defs := old(Abs()).defs[t := def.Value()])
    {
      forall k | k in defs
        ensures defs[k].Value() == if k == t then def.Value() else old(defs[k].Value())
      {
        if k != t {
          assert defs[k] in old(defs).Values;
        }
      }
    }

    constructor ()
      ensures Valid() && Abs() == Container.Empty
    {
      defs := map[];
      beans := map[];
      nextRef := 0;
    }

    /**
     * `getBean`: the cached bean; a circular-dependency failure for a type under construction;
     * otherwise a new bean for a defined type and NoSuchBeanDefinition for an undefined one.
     */
    method GetBean(beanType: TypeId) returns (r: Result<Handle>)
      requires Valid()
      modifies this, defs.Values
      ensures Valid() && defs == old(defs)
      ensures (r, Abs()) == Container.GetBean(old(Abs()), beanType)
      decreases Container.Pending(Abs()), 0
    {
      if beanType in beans {
        return Ok(beans[beanType]);
      }
      if beanType in defs {
        var def := defs[beanType];
        if def.status == Creating {
          return Err(CircularDependency(beanType));
        }
        Container.PendingShrinks(Abs(), beanType);
        r := CreateBean(def);
        return;
      }
      return Err(NoSuchBeanDefinition(beanType));
    }

    /**
     * `createBean`: mark the definition CREATING, fill the argument array in parameter order, then
     * invoke the constructor; a failure while filling the array is wrapped in a BeanCreation failure
     * that names the type being created and leaves its definition CREATING.
     */
    method CreateBean(def: BeanDefinition) returns (r: Result<Handle>)
      requires Valid() && def.beanType.id in defs && defs[def.beanType.id] == def
      modifies this, defs.Values
      ensures Valid() && defs == old(defs)
      ensures (r, Abs()) == Container.CreateBean(old(Abs()), old(def.beanType.id))
      decreases Container.Pending(Container.Mark(Abs(), def.beanType.id, Creating)), 3
    {
      var t := def.beanType.id;
      ghost var s0 := Abs();
      Container.MarkCreating(s0, t);
      SetStatus(def, Creating);

      var args := ResolveArguments(def.paramTypes);
      if args.Err? {
        var e := args.error;
        var step := if e.NoSuchBeanDefinition? then MissingParameterDefinition else CreationFailed;
        return Err(BeanCreation(t, step, e));
      }
      r := Instantiate(def, args.value);
    }

    /** `def.setStatus(status)` on a definition of this factory: `Container.Mark` on the abstract state. */
    method SetStatus(def: BeanDefinition, status: CreationStatus)
      requires Distinct() && def.beanType.id in defs && defs[def.beanType.id] == def
      modifies def
      ensures Abs() == Container.Mark(old(Abs()), old(def.beanType.id), status)
    {
      ghost var t := def.beanType.id;
      ghost var before := Abs();
      def.SetStatus(status);
      forall k | k in defs
        ensures defs[k].Value() == if k == t then before.defs[t].(status := status) else before.defs[k]
      {
      }
    }

    /**
     * The argument loop of `createBean`: each parameter in order receives its argument, and the
     * first failure ends the loop. The argument array is the sequence `args`, filled in order.
     */
    method ResolveArguments(paramTypes: seq<ParamType>) returns (r: Result<seq<Arg>>)
      requires Valid()
      modifies this, defs.Values
      ensures Valid() && defs == old(defs)
      ensures (r, Abs()) == Container.ResolveArgs(old(Abs()), paramTypes, 0, [])
      decreases Container.Pending(Abs()), 2
    {
      ghost var s0 := Abs();
      ghost var s := s0;
      ghost var goal := Container.ResolveArgs(s0, paramTypes, 0, []);
      var args: seq<Arg> := [];
      for i := 0 to |paramTypes|
        invariant Valid() && defs == old(defs) && Abs() == s
        invariant Container.Remaining(s) == Container.Remaining(s0)
        invariant |args| == i
        invariant Container.ResolveArgs(s, paramTypes, i, args) == goal
      {
        Container.ResolveArgsStep(s, paramTypes, i, args);
        var arg := ResolveArgument(paramTypes[i]);
        s := Abs();
        if arg.Err? {
          return Err(arg.error);
        }
        args := args + [arg.value];
      }
      r := Ok(args);
    }

    /**
     * One turn of the argument loop: a parameter type with a definition gets `getBean`, whose
     * failure ends the loop; an interface or reference type gets null, a primitive its default value.
     */
    method ResolveArgument(paramType: ParamType) returns (r: Result<Arg>)
      requires Valid()
      modifies this, defs.Values
      ensures Valid() && defs == old(defs)
      ensures (r, Abs()) == Container.NextArg(old(Abs()), paramType)
      decreases Container.Pending(Abs()), 1
    {
      if paramType.id in defs {
        var bean := GetBean(paramType.id);
        if bean.Err? {
          return Err(bean.error);
        }
        return Ok(Bean(bean.value));
      } else if paramType.kind.Interface? {
        return Ok(Null);
      } else if paramType.kind.PrimitiveType? {
        return Ok(Value(Container.DefaultPrimitive(paramType.kind.prim)));
      } else {
        return Ok(Null);
      }
    }

    /**
     * The end of `createBean`: invoke the constructor (`newInstance` first refuses an argument of the
     * wrong type), expose the object or its TimeLoggingAspect
     * proxy, cache it unless a bean is cached already, and mark the definition CREATED.
     */
    method Instantiate(def: BeanDefinition, args: seq<Arg>) returns (r: Result<Handle>)
      requires Valid() && def.beanType.id in defs && defs[def.beanType.id] == def
      modifies this, def
      ensures (r, Abs()) == Container.Construct(old(Abs()), old(def.beanType.id), args)
      ensures Valid() && defs == old(defs)
    {
      var t := def.beanType.id;
      ghost var s0 := Abs();
      assert s0.defs[t] == def.Value();
      if !Container.AcceptsAll(def.paramTypes, args) {
        return Err(BeanCreation(t, CreationFailed, ArgumentTypeMismatch(t)));
      }
      if def.injectionCtor.throws {
        return Err(BeanCreation(t, CreationFailed, ConstructorThrew(t)));
      }
      var original := Obj(nextRef, t, args);
      nextRef := nextRef + 1;
      var exposed := Plain(original);
      if def.beanType.hasInterfaces && !def.beanType.proxyFails {
        exposed := Proxy(original);
      }
      if t !in beans {
        beans := beans[t := exposed];
      }
      assert exposed == Container.Expose(original, s0.defs[t].beanType);
      assert Abs() == s0.(beans := beans, nextRef := nextRef);
      SetStatus(def, Created);
      r := Ok(exposed);
      assert (r, Abs()) == Container.Construct(s0, t, args);
    }

    /**
     * `registerBeans`: file a fresh definition under every class (the first one that cannot be
     * defined aborts), then build through `getBean` every class that has no bean yet (the first
     * failure aborts).
     */
    method RegisterBeans(classes: seq<ClassDesc>) returns (r: Result<()>)
      requires Valid()
      modifies this, defs.Values
      ensures Valid()
      ensures (r, Abs()) == Container.RegisterBeans(old(Abs()), classes)
    {
      r := DefineAll(classes);
      if r.Err? {
        return;
      }
      r := BuildAll(classes);
    }

    /** The first loop of `registerBeans`: a fresh definition for every class, in iteration order. */
    method DefineAll(classes: seq<ClassDesc>) returns (r: Result<()>)
      requires Valid()
      modifies this
      ensures Valid()
      ensures forall d :: d in defs.Values ==> d in old(defs).Values || fresh(d)
      ensures (r, Abs()) == Container.RegisterDefs(old(Abs()), classes, 0)
    {
      ghost var s0 := Abs();
      ghost var s := s0;
      ghost var goal := Container.RegisterDefs(s0, classes, 0);
      for i := 0 to |classes|
        invariant Valid() && Abs() == s
        invariant forall d :: d in defs.Values ==> d in old(defs).Values || fresh(d)
        invariant Container.RegisterDefs(s, classes, i) == goal
      {
        Container.RegisterDefsStep(s, classes, i);
        label Filing:
        var def := BeanDefinition.Create(Some(classes[i]));
        AbsUnchanged@Filing();
        if def.Err? {
          return Err(def.error);
        }
        defs := defs[classes[i].id := def.value];
        Filed@Filing(classes[i].id, def.value);
        s := Abs();
      }
      r := Ok(());
    }

    /** The second loop of `registerBeans`: `getBean` for every class that has no bean yet. */
    method BuildAll(classes: seq<ClassDesc>) returns (r: Result<()>)
      requires Valid()
      modifies this, defs.Values
      ensures Valid()
      ensures (r, Abs()) == Container.BuildAll(old(Abs()), classes, 0)
    {
      ghost var s0 := Abs();
      ghost var s := s0;
      ghost var goal := Container.BuildAll(s0, classes, 0);
      for i := 0 to |classes|
        invariant Valid() && Abs() == s && defs == old(defs)
        invariant Container.BuildAll(s, classes, i) == goal
      {
        Container.BuildAllStep(s, classes, i);
        if classes[i].id !in beans {
          var bean := GetBean(classes[i].id);
          s := Abs();
          if bean.Err? {
            return Err(bean.error);
          }
        }
      }
      r := Ok(());
    }

    /**
     * `getExistingBean`: the cached bean cast to its class; NoSuchBeanDefinition when none is cached,
     * ClassCast when the cached bean is a proxy. Never builds.
     */
    method GetExistingBean(beanType: TypeId) returns (r: Result<Handle>)
      ensures r == Container.GetExistingBean(Abs(), beanType)
    {
      var bean := if beanType in beans then Some(beans[beanType]) else None;
      if bean.None? {
        return Err(NoSuchBeanDefinition(beanType));
      }
      if bean.value.Proxy? {
        return Err(ClassCast(beanType));
      }
      r := Ok(bean.value);
    }
  }
}
