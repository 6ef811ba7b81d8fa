/**
  Values shared by the container model: class tokens, lifetime tags, the
  objects the container hands out, its errors, and the reflection services
  it consults (constructor introspection and instantiation).
 */
module Types {

  /** A Java `Class` token, used as an opaque, comparable key. */
  type TypeId = nat

  /** The lifetime tag recorded per abstract type (`RegistrationType`). */
  datatype RegistrationType = Instance | Transient | Singleton | Scoped | ScopeContext

  /** The five resolver components that `resolverMap` can point to. */
  datatype Resolver =
    | InstanceContainer
    | TransientContainer
    | SingletonContainer
    | ScopedContainer
    | ScopeContextResolver

  datatype Option<T> = None | Some(value: T)

  /** A factory object registered for a singleton; `returnType` is the
      declared return type of its first method, and `productClass` the
      runtime class of the object it returns, which may be any subclass of
      that type (or unrelated to it, for an erased generic return type). */
  datatype Factory = Factory(returnType: TypeId, productClass: TypeId, id: nat)

  /**
    An object as the container sees it. Objects are terms without identity:
    `Built` is what a constructor produced from its arguments, `Supplied` an
    object handed in by the caller (an instance binding or a scope context),
    `Produced` what a singleton factory returned.
   */
  datatype Obj =
    | Built(concrete: TypeId, args: seq<Obj>)
    | Supplied(cls: TypeId, id: nat)
    | Produced(factory: Factory)

  /** `o.getClass()` */
  function ClassOf(o: Obj): TypeId
  {
    match o
    case Built(k, _) => k
    case Supplied(k, _) => k
    case Produced(f) => f.productClass
  }

  /** What a singleton registration stores: a concrete class or a factory. */
  datatype SingletonBinding = ByClass(concrete: TypeId) | ByFactory(factory: Factory)

  /** One frame of the scope stack, with the optional context set on it. */
  datatype ScopeFrame = ScopeFrame(context: Option<Obj>)

  datatype Error =
    | AlreadyRegistered(abstractType: TypeId, existing: RegistrationType)
    | UnregisteredType(abstractType: TypeId)
    | CyclicDependency(abstractType: TypeId)
      /** One of the checked reflection exceptions (instantiation, access,
          invocation target) raised by `newInstance` for a concrete class. */
    | ConstructionFailed(concrete: TypeId)
      /** `ConstructorResolutionException`: the wrapped form of the above. */
    | ResolutionFailed(abstractType: TypeId, concrete: TypeId)
      /** `IllegalArgumentException` from `newInstance`: an argument is not
          assignable to its parameter. It is unchecked, so `resolve` does not
          catch it. */
    | ArgumentMismatch(concrete: TypeId)
      /** `getDeclaredConstructors()` is empty, which happens only for
          interfaces, primitive types, array types and `void`, so index 0 is
          out of bounds; this exception is not caught by `resolve`. */
    | NoConstructor(concrete: TypeId)
      /** `IllegalArgumentException` from `field.set` in `inject`: the value
          is not assignable to the named field. It is unchecked, so `inject`
          does not catch it. */
    | FieldTypeMismatch(field: string)
    | NoActiveScope
      /** The call stack is exhausted by nested constructor resolution. */
    | StackOverflow

  datatype Result<T> = Success(value: T) | Failure(error: Error)

  datatype Outcome = Pass | Fail(error: Error)

  /**
    How `constructor.newInstance(args)` ends: it returns the new object, it
    throws one of the checked reflection exceptions (the class is abstract,
    the constructor is inaccessible, or its body throws), or it rejects an
    argument that is not assignable to its parameter.
   */
  datatype Invocation = Returned | ThrewChecked | RejectedArgument

  /**
    The reflection services: `constructorOf(k)` gives the parameter types of
    the first entry of `getDeclaredConstructors()` for `k` (None when that
    array is empty: interfaces, primitive types, array types and `void`), and
    `newInstance(k, args)` says how invoking that constructor on `args` ends;
    `assignable(d, o)` says whether `field.set` accepts `o` for a field
    declared with type `d`.
   */
  datatype Reflection = Reflection(
    constructorOf: TypeId -> Option<seq<TypeId>>,
    newInstance: (TypeId, seq<Obj>) -> Invocation,
    assignable: (TypeId, Obj) -> bool)

  /**
    The verdict of the cyclic dependency checker: given the dependency graph
    recorded so far, an abstract type and the constructor parameter types of
    its concrete type, true when the checker rejects the registration.
   */
  type CycleCheck = (map<TypeId, seq<TypeId>>, TypeId, seq<TypeId>) -> bool
}
