/**
 * Explicit descriptors that stand for what the container reads through Java reflection
 * (`Class`, `Constructor`, `Method`, annotations) and for the runtime values it builds.
 */
module Reflection {

  /** A class, identified by its fully qualified name. */
  type TypeId = string

  datatype Option<+T> = None | Some(value: T)

  /** The Java primitive types that can appear as constructor parameters. */
  datatype Primitive = Boolean | Char | Byte | Short | Int | Long | Float | Double

  /** What `Class.isInterface()` and `Class.isPrimitive()` report for a parameter type. */
  datatype TypeKind = Interface | PrimitiveType(prim: Primitive) | Reference

  /** A constructor parameter type: the class it names, its kind, and whether that class carries @Component. */
  datatype ParamType = ParamType(id: TypeId, kind: TypeKind, component: bool)

  /**
   * A declared constructor: whether it carries @Autowired, its parameter types in order, and whether
   * its body raises an exception when invoked (the body itself is code outside the model).
   */
  datatype Ctor = Ctor(autowired: bool, params: seq<ParamType>, throws: bool)

  /** The @GetMapping annotation of a method, if any; its value may be null. */
  datatype Mapping = NoMapping | GetMapping(value: Option<string>)

  /** A declared method, as far as request mapping is concerned. */
  datatype MethodDecl = MethodDecl(name: string, mapping: Mapping)

  /**
   * A class handed to the container by the scanner: its constructors, whether it declares an
   * interface directly (`getInterfaces().length > 0`; inherited interfaces do not count), whether the JDK refuses to build a proxy for it, whether it carries @Controller,
   * and its declared methods.
   */
  datatype ClassDesc = ClassDesc(
    id: TypeId,
    ctors: seq<Ctor>,
    hasInterfaces: bool,
    proxyFails: bool,
    controller: bool,
    methods: seq<MethodDecl>)

  /** A boxed primitive value; the floating-point zeros are tagged constants. */
  datatype Boxed =
    | BoolBox(b: bool)
    | CharBox(c: char)
    | ByteBox(n: int)
    | ShortBox(n: int)
    | IntBox(n: int)
    | LongBox(n: int)
    | FloatZero
    | DoubleZero

  /** The primitive type a boxed value belongs to. */
  function BoxType(v: Boxed): Primitive {
    match v
    case BoolBox(_) => Boolean
    case CharBox(_) => Char
    case ByteBox(_) => Byte
    case ShortBox(_) => Short
    case IntBox(_) => Int
    case LongBox(_) => Long
    case FloatZero => Float
    case DoubleZero => Double
  }

  /** The value is its type's default: false, '\0' or zero. */
  predicate IsZero(v: Boxed) {
    match v
    case BoolBox(b) => !b
    case CharBox(c) => c == '\0'
    case ByteBox(n) => n == 0
    case ShortBox(n) => n == 0
    case IntBox(n) => n == 0
    case LongBox(n) => n == 0
    case FloatZero => true
    case DoubleZero => true
  }

  /** A constructed object: its identity (allocation number), its class and the arguments it was built from. */
  datatype Obj = Obj(ref: nat, cls: TypeId, args: seq<Arg>)

  /** What the container exposes for a bean: the object itself, or a proxy around it running the TimeLoggingAspect. */
  datatype Handle = Plain(target: Obj) | Proxy(target: Obj)

  /** One constructor argument. */
  datatype Arg = Null | Bean(handle: Handle) | Value(boxed: Boxed)
}
