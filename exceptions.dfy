/**
 * The exceptions raised by the container (package `exception`, plus the JDK exceptions the core
 * throws), as values. Message texts are not modelled; each failure carries the type it names.
 */
module Exceptions {
  import opened Reflection

  /** Why a `ConstructorResolutionException` was raised. */
  datatype Ambiguity =
    | MultipleAutowired     // two or more constructors carry @Autowired
    | NoUniqueCandidate     // the arity and component-count tie-breaks left a tie

  /** The message variants of `BeanCreationException`, each naming a different stage. */
  datatype CreationStep =
    | DefinitionUnresolvable              // BeanDefinition: the constructor could not be determined
    | DefinitionFailed                    // BeanDefinition: any other failure
    | MissingParameterDefinition          // createBean: a parameter type has no definition (the cause names it)
    | CreationFailed                      // createBean: any other failure

  datatype Failure =
    | NullBeanType                                        // requireNonNull rejected a null class
    | NoConstructor(beanType: TypeId)                     // IllegalStateException: zero declared constructors
    | ConstructorResolution(beanType: TypeId, reason: Ambiguity)
    | CircularDependency(beanType: TypeId)
    | NoSuchBeanDefinition(beanType: TypeId)
    | ConstructorThrew(beanType: TypeId)                  // the chosen constructor's body raised an exception
    | ArgumentTypeMismatch(beanType: TypeId)              // IllegalArgumentException: newInstance refused an argument
    | ClassCast(beanType: TypeId)                         // ClassCastException: the cached bean is not of the class
    | BeanCreation(beanType: TypeId, step: CreationStep, cause: Failure)

  /** A value, or the exception that replaced it. */
  datatype Result<+T> = Ok(value: T) | Err(error: Failure)
}
