/** `BeanDefinition`: the resolved construction metadata of one component class. */
module Definitions {
  import opened Reflection
  import opened Enums
  import opened Exceptions
  import opened InstantiationUtil

  /** What a BeanDefinition holds at one moment. */
  datatype Definition = Definition(
    beanType: ClassDesc,
    scope: Scope,
    status: CreationStatus,
    ctor: Ctor,
    paramTypes: seq<ParamType>)

  /**
   * `new BeanDefinition(beanType)` as a value. A null class is rejected before anything else (and
   * that exception is not wrapped); a resolution failure becomes a BeanCreationException carrying
   * it as cause, with the "constructor cannot be determined" message exactly when the cause is a
   * ConstructorResolutionException.
   */
  function NewDefinition(beanType: Option<ClassDesc>): (r: Result<Definition>)
    ensures beanType.None? ==> r == Err(NullBeanType)
    ensures beanType.Some? ==> (r.Ok? <==> ResolveConstructor(beanType.value).Ok?)
    ensures r.Ok? ==>
              && r.value.beanType == beanType.value
              && r.value.status == NotCreated && r.value.scope == Singleton
              && r.value.ctor == ResolveConstructor(beanType.value).value
              && r.value.ctor in beanType.value.ctors
              && r.value.paramTypes == r.value.ctor.params
    ensures r.Err? && beanType.Some? ==>
              && r.error.BeanCreation?
              && r.error.beanType == beanType.value.id
              && r.error.cause == ResolveConstructor(beanType.value).error
              && (r.error.step == DefinitionUnresolvable <==> r.error.cause.ConstructorResolution?)
              && (r.error.step == DefinitionFailed <==> r.error.cause.NoConstructor?)
  {
    match beanType
    case None => Err(NullBeanType)
    case Some(cls) =>
      match ResolveConstructor(cls)
      case Ok(c) => Ok(Definition(cls, Singleton, NotCreated, c, c.params))
      case Err(e) =>
        Err(BeanCreation(cls.id, if e.ConstructorResolution? then DefinitionUnresolvable else DefinitionFailed, e))
  }

  /** A class with no declared constructor never gets a definition. */
  lemma NoConstructorNoDefinition(cls: ClassDesc)
    requires |cls.ctors| == 0
    ensures NewDefinition(Some(cls)) == Err(BeanCreation(cls.id, DefinitionFailed, NoConstructor(cls.id)))
  {
  }

  /** A mutable bean definition; the chosen constructor and its parameter types are final. */
  class BeanDefinition {
    var beanType: ClassDesc
    var scope: Scope
    var status: CreationStatus
    const injectionCtor: Ctor
    const paramTypes: seq<ParamType>

    /** The definition this object holds now. */
    function Value(): Definition
      reads this
    {
      Definition(beanType, scope, status, injectionCtor, paramTypes)
    }

    /** The part of the constructor that runs once resolution has succeeded. */
    constructor Resolved(beanType: ClassDesc, ctor: Ctor)
      ensures Value() == Definition(beanType, Singleton, NotCreated, ctor, ctor.params)
    {
      this.beanType := beanType;
      scope := Singleton;
      status := NotCreated;
      injectionCtor := ctor;
      paramTypes := ctor.params;
    }

    /** `new BeanDefinition(beanType)`, which either yields a fresh definition or throws. */
    static method Create(beanType: Option<ClassDesc>) returns (r: Result<BeanDefinition>)
      ensures r.Ok? ==> fresh(r.value) && NewDefinition(beanType) == Ok(r.value.Value())
      ensures r.Err? ==> NewDefinition(beanType) == Err(r.error)
    {
      if beanType.None? {
        return Err(NullBeanType);
      }
      var cls := beanType.value;
      var resolved := ResolveConstructor(cls);
      if resolved.Ok? {
        var def := new BeanDefinition.Resolved(cls, resolved.value);
        r := Ok(def);
      } else if resolved.error.ConstructorResolution? {
        r := Err(BeanCreation(cls.id, DefinitionUnresolvable, resolved.error));
      } else {
        r := Err(BeanCreation(cls.id, DefinitionFailed, resolved.error));
      }
    }

    method SetStatus(status: CreationStatus)
      modifies this
      ensures Value() == old(Value()).(status := status)
    {
      this.status := status;
    }

    method SetScope(scope: Scope)
      modifies this
      ensures Value() == old(Value()).(scope := scope)
    {
      this.scope := scope;
    }

    method SetBeanClass(beanType: ClassDesc)
      modifies this
      ensures Value() == old(Value()).(beanType := beanType)
    {
      this.beanType := beanType;
    }
  }
}
