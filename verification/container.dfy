/**
  The dependency-injection container `Jinjectsu`: the registry of lifetime
  tags, the fixed table from tag to resolver, the state of the resolver
  components it talks to, the scope stack, and the recursive resolution of
  constructor parameters.
 */
module Container {
  import opened Types

  /** What `bind` hands back: a binder for one abstract type. */
  datatype TypeBinder = TypeBinder(abstractType: TypeId)

  /** A declared field of an injection target. */
  datatype Field = Field(name: string, declaredType: TypeId, annotated: bool)

  /** One field write performed by `inject`. */
  datatype Assignment = Assignment(field: string, value: Obj)

  /** The resolver that the constructor files under each tag. */
  function ResolverFor(tag: RegistrationType): Resolver
  {
    match tag
    case Instance => InstanceContainer
    case Transient => TransientContainer
    case Singleton => SingletonContainer
    case Scoped => ScopedContainer
    case ScopeContext => ScopeContextResolver
  }

  /** The concrete type a singleton registration resolves for. */
  function SingletonTarget(b: SingletonBinding): TypeId
  {
    match b
    case ByClass(k) => k
    case ByFactory(f) => f.returnType
  }

  /**
    The catch blocks of `resolve`: a checked reflection exception raised while
    the resolver worked becomes a resolution error naming the requested type;
    every other outcome passes through untouched.
   */
  function Caught(t: TypeId, r: Result<Obj>): (c: Result<Obj>)
    ensures c.Success? <==> r.Success?
    ensures c.Failure? ==> !c.error.ConstructionFailed?
    ensures r.Failure? && r.error.ConstructionFailed? ==> c == Failure(ResolutionFailed(t, r.error.concrete))
    ensures !(r.Failure? && r.error.ConstructionFailed?) ==> c == r
  {
    match r
    case Failure(ConstructionFailed(k)) => Failure(ResolutionFailed(t, k))
    case _ => r
  }

  /** The fields of a target that carry the injection annotation, in order. */
  function Annotated(fields: seq<Field>): (r: seq<Field>)
    ensures |r| <= |fields|
    ensures forall f :: f in r ==> f in fields && f.annotated
  {
    if fields == [] then []
    else
      var rest := Annotated(fields[..|fields| - 1]);
      if fields[|fields| - 1].annotated then rest + [fields[|fields| - 1]] else rest
  }

  class Jinjectsu {
    /** Reflection over classes, as the JVM provides it. */
    const reflection: Reflection
    /** The verdict of the cyclic dependency checker. */
    const cycleCheck: CycleCheck
    const resolverMap: map<RegistrationType, Resolver>

    var registrationTypeMap: map<TypeId, RegistrationType>
    /** What the instance container holds. */
    var instances: map<TypeId, Obj>
    /** What the transient container holds: abstract to concrete type. */
    var transients: map<TypeId, TypeId>
    /** What the singleton container holds. */
    var singletons: map<TypeId, SingletonBinding>
    /** What the scoped container holds: abstract to concrete type. */
    var scopedTypes: map<TypeId, TypeId>
    /** The scoped container's stack of frames; the last one is the top. */
    var scopes: seq<ScopeFrame>
    /** The edges recorded by the cyclic dependency checker. */
    var dependencyGraph: map<TypeId, seq<TypeId>>

    /** The resolver component has an entry for `t`. */
    ghost predicate Holds(resolver: Resolver, t: TypeId)
      reads this
    {
      match resolver
      case InstanceContainer => t in instances
      case TransientContainer => t in transients
      case SingletonContainer => t in singletons
      case ScopedContainer => t in scopedTypes
      case ScopeContextResolver => true
    }

    /**
      The resolver table covers every tag with its own component, and every
      registered type is held by the component its tag selects.
     */
    ghost predicate Valid()
      reads this
    {
      && (forall tag: RegistrationType :: tag in resolverMap && resolverMap[tag] == ResolverFor(tag))
      && (forall t :: t in registrationTypeMap ==> Holds(resolverMap[registrationTypeMap[t]], t))
    }

    constructor (reflection: Reflection, cycleCheck: CycleCheck)
      ensures Valid()
      ensures this.reflection == reflection && this.cycleCheck == cycleCheck
      ensures forall tag: RegistrationType :: tag in resolverMap && resolverMap[tag] == ResolverFor(tag)
      ensures registrationTypeMap == map[] && scopes == [] && dependencyGraph == map[]
      ensures instances == map[] && transients == map[] && singletons == map[] && scopedTypes == map[]
    {
      this.reflection := reflection;
      this.cycleCheck := cycleCheck;
      var table := map[
        Instance := InstanceContainer,
        Transient := TransientContainer,
        Singleton := SingletonContainer,
        Scoped := ScopedContainer,
        ScopeContext := ScopeContextResolver];
      forall tag: RegistrationType
        ensures tag in table && table[tag] == ResolverFor(tag)
      {
        match tag {
          case Instance =>
          case Transient =>
          case Singleton =>
          case Scoped =>
          case ScopeContext =>
        }
      }
      resolverMap := table;
      registrationTypeMap := map[];
      instances := map[];
      transients := map[];
      singletons := map[];
      scopedTypes := map[];
      scopes := [];
      dependencyGraph := map[];
    }

    // ---------------------------------------------------------------------
    // Read-only queries

    /** `bind`: refuses a type that already carries a lifetime tag. */
    function Bind(t: TypeId): (r: Result<TypeBinder>)
      reads this
      ensures r.Failure? <==> t in registrationTypeMap
      ensures r.Failure? ==> r.error == AlreadyRegistered(t, registrationTypeMap[t])
      ensures r.Success? ==> r.value.abstractType == t
    {
      if t in registrationTypeMap then Failure(AlreadyRegistered(t, registrationTypeMap[t]))
      else Success(TypeBinder(t))
    }

    /**
      `getTypeRegisteredUnder`: asks the singleton, transient, scoped and
      instance components in that order for the concrete type of `t`.
     */
    function GetTypeRegisteredUnder(t: TypeId): (r: Result<TypeId>)
      reads this
      ensures r.Failure? <==> t !in singletons && t !in transients && t !in scopedTypes && t !in instances
      ensures r.Failure? ==> r.error == UnregisteredType(t)
      ensures t in singletons ==> r == Success(SingletonTarget(singletons[t]))
      ensures t !in singletons && t in transients ==> r == Success(transients[t])
      ensures t !in singletons && t !in transients && t in scopedTypes ==> r == Success(scopedTypes[t])
      ensures t !in singletons && t !in transients && t !in scopedTypes && t in instances ==>
        r == Success(ClassOf(instances[t]))
    {
      if t in singletons then Success(SingletonTarget(singletons[t]))
      else if t in transients then Success(transients[t])
      else if t in scopedTypes then Success(scopedTypes[t])
      else if t in instances then Success(ClassOf(instances[t]))
      else Failure(UnregisteredType(t))
    }

    /**
      `getConstructorDependenciesForType`: the parameters of the first declared
      constructor. Registration hands this list to the cyclic dependency
      checker and construction resolves it.
     */
    function ConstructorDependencies(k: TypeId): (r: Result<seq<TypeId>>)
      ensures r.Success? <==> reflection.constructorOf(k).Some?
      ensures r.Success? ==> r.value == reflection.constructorOf(k).value
      ensures r.Failure? ==> r.error == NoConstructor(k)
    {
      match reflection.constructorOf(k)
      case None => Failure(NoConstructor(k))
      case Some(ps) => Success(ps)
    }

    /** `constructor.newInstance(args)` */
    function NewInstance(k: TypeId, args: seq<Obj>): (r: Result<Obj>)
      ensures r.Success? <==> reflection.newInstance(k, args) == Returned
      ensures r.Success? ==> r.value.Built? && r.value.concrete == k && r.value.args == args
      ensures r.Failure? ==> r.error in {ConstructionFailed(k), ArgumentMismatch(k)}
    {
      match reflection.newInstance(k, args)
      case Returned => Success(Built(k, args))
      case ThrewChecked => Failure(ConstructionFailed(k))
      case RejectedArgument => Failure(ArgumentMismatch(k))
    }

    // ---------------------------------------------------------------------
    // Resolution, as functions of the current state. `fuel` bounds the depth
    // of nested constructor resolutions, standing for the call stack.

    /** `resolve(t)` */
    ghost function Resolution(t: TypeId, fuel: nat): Result<Obj>
      reads this
      requires Valid()
      decreases fuel, 2, 0
    {
      if t !in registrationTypeMap then Failure(UnregisteredType(t))
      else Caught(t, ResolverResolution(resolverMap[registrationTypeMap[t]], t, fuel))
    }

    /** `ITypeResolver.resolve(t, this)` for each of the five components. */
    ghost function ResolverResolution(resolver: Resolver, t: TypeId, fuel: nat): Result<Obj>
      reads this
      requires Valid() && Holds(resolver, t)
      decreases fuel, 1, 1
    {
      match resolver
      case InstanceContainer => Success(instances[t])
      case TransientContainer => Construction(transients[t], fuel)
      case SingletonContainer =>
        (match singletons[t]
         case ByClass(k) => Construction(k, fuel)
         case ByFactory(f) => Success(Produced(f)))
      case ScopedContainer =>
        if scopes == [] then Failure(NoActiveScope) else Construction(scopedTypes[t], fuel)
      case ScopeContextResolver =>
        if scopes == [] then Failure(NoActiveScope)
        else
          match scopes[|scopes| - 1].context
          case None => Failure(UnregisteredType(t))
          case Some(ctx) => Success(ctx)
    }

    /** `ConstructorResolve(k)` */
    ghost function Construction(k: TypeId, fuel: nat): Result<Obj>
      reads this
      requires Valid()
      decreases fuel, 1, 0
    {
      match ConstructorDependencies(k)
      case Failure(e) => Failure(e)
      case Success(ps) =>
        if |ps| == 0 then NewInstance(k, [])
        else if fuel == 0 then Failure(StackOverflow)
        else
          match ResolveAll(ps, fuel - 1)
          case Failure(e) => Failure(e)
          case Success(args) => NewInstance(k, args)
    }

    /** Resolves `ps` left to right, stopping at the first failure. */
    ghost function ResolveAll(ps: seq<TypeId>, fuel: nat): Result<seq<Obj>>
      reads this
      requires Valid()
      decreases fuel, 3, |ps|
    {
      if ps == [] then Success([])
      else
        match ResolveAll(ps[..|ps| - 1], fuel)
        case Failure(e) => Failure(e)
        case Success(vs) =>
          match Resolution(ps[|ps| - 1], fuel)
          case Failure(e) => Failure(e)
          case Success(v) => Success(vs + [v])
    }

    /** Once a prefix of the parameters fails, the whole list fails the same way. */
    lemma {:induction false} ResolveAllKeepsFailure(ps: seq<TypeId>, qs: seq<TypeId>, fuel: nat)
      requires Valid()
      requires ResolveAll(ps, fuel).Failure?
      ensures ResolveAll(ps + qs, fuel) == ResolveAll(ps, fuel)
      decreases |qs|
    {
      if qs != [] {
        var front := qs[..|qs| - 1];
        assert (ps + qs)[..|ps + qs| - 1] == ps + front;
        ResolveAllKeepsFailure(ps, front, fuel);
      } else {
        assert ps + qs == ps;
      }
    }

    // ---------------------------------------------------------------------
    // Resolution, as the code runs it

    method Resolve(t: TypeId, fuel: nat) returns (r: Result<Obj>)
      requires Valid()
      ensures r == Resolution(t, fuel)
      ensures t !in registrationTypeMap ==> r == Failure(UnregisteredType(t))
      ensures r.Failure? ==> !r.error.ConstructionFailed?
      decreases fuel, 2, 0
    {
      if t !in registrationTypeMap {
        return Failure(UnregisteredType(t));
      }
      var registrationType := registrationTypeMap[t];
      var resolver := resolverMap[registrationType];
      var outcome := ResolveWith(resolver, t, fuel);
      r := Caught(t, outcome);
    }

    /** The resolve call of the component `resolver`. */
    method ResolveWith(resolver: Resolver, t: TypeId, fuel: nat) returns (r: Result<Obj>)
      requires Valid() && Holds(resolver, t)
      ensures r == ResolverResolution(resolver, t, fuel)
      decreases fuel, 1, 1
    {
      match resolver {
        case InstanceContainer =>
          r := Success(instances[t]);
        case TransientContainer =>
          r := ConstructorResolve(transients[t], fuel);
        case SingletonContainer =>
          match singletons[t] {
            case ByClass(k) =>
              r := ConstructorResolve(k, fuel);
            case ByFactory(f) =>
              r := Success(Produced(f));
          }
        case ScopedContainer =>
          if scopes == [] {
            r := Failure(NoActiveScope);
          } else {
            r := ConstructorResolve(scopedTypes[t], fuel);
          }
        case ScopeContextResolver =>
          if scopes == [] {
            r := Failure(NoActiveScope);
          } else if scopes[|scopes| - 1].context.None? {
            r := Failure(UnregisteredType(t));
          } else {
            r := Success(scopes[|scopes| - 1].context.value);
          }
      }
    }

    /** Builds `k`, resolving its constructor's parameters in order into an array. */
    method ConstructorResolve(k: TypeId, fuel: nat) returns (r: Result<Obj>)
      requires Valid()
      ensures r == Construction(k, fuel)
      decreases fuel, 1, 0
    {
      var dependencies := ConstructorDependencies(k);
      if dependencies.Failure? {
        return Failure(dependencies.error);
      }
      var parameterTypes := dependencies.value;
      if |parameterTypes| == 0 {
        return NewInstance(k, []);
      }
      if fuel == 0 {
        return Failure(StackOverflow);
      }
      var parameterValues := new Obj[|parameterTypes|];
      for i := 0 to |parameterTypes|
        invariant ResolveAll(parameterTypes[..i], fuel - 1) == Success(parameterValues[..i])
      {
        var value := Resolve(parameterTypes[i], fuel - 1);
        assert parameterTypes[..i + 1][..i] == parameterTypes[..i];
        if value.Failure? {
          assert parameterTypes == parameterTypes[..i + 1] + parameterTypes[i + 1..];
          ResolveAllKeepsFailure(parameterTypes[..i + 1], parameterTypes[i + 1..], fuel - 1);
          return Failure(value.error);
        }
        parameterValues[i] := value.value;
        assert parameterValues[..i + 1] == parameterValues[..i] + [value.value];
      }
      assert parameterTypes[..|parameterTypes|] == parameterTypes;
      assert parameterValues[..] == parameterValues[..|parameterTypes|];
      r := NewInstance(k, parameterValues[..]);
    }

    // ---------------------------------------------------------------------
    // Field injection

    /**
      The writes `inject` performs on a target whose declared fields are
      `fields`, and how it ends: each annotated field, in order, receives the
      resolution of its declared type; the first failing resolution, or the
      first resolved value `field.set` rejects, stops the walk, and the writes
      before it stay done.
     */
    ghost function Injection(fields: seq<Field>, fuel: nat): (seq<Assignment>, Outcome)
      reads this
      requires Valid()
      decreases |fields|
    {
      if fields == [] then ([], Pass)
      else
        var (done, outcome) := Injection(fields[..|fields| - 1], fuel);
        var f := fields[|fields| - 1];
        if outcome.Fail? || !f.annotated then (done, outcome)
        else
          match Resolution(f.declaredType, fuel)
          case Failure(e) => (done, Fail(e))
          case Success(v) =>
            if reflection.assignable(f.declaredType, v) then (done + [Assignment(f.name, v)], Pass)
            else (done, Fail(FieldTypeMismatch(f.name)))
    }

    lemma {:induction false} InjectionKeepsFailure(fields: seq<Field>, more: seq<Field>, fuel: nat)
      requires Valid()
      requires Injection(fields, fuel).1.Fail?
      ensures Injection(fields + more, fuel) == Injection(fields, fuel)
      decreases |more|
    {
      if more != [] {
        var front := more[..|more| - 1];
        assert (fields + more)[..|fields + more| - 1] == fields + front;
        InjectionKeepsFailure(fields, front, fuel);
      } else {
        assert fields + more == fields;
      }
    }

    /** `inject(target)`, returning the field writes made on the target. */
    method Inject(fields: seq<Field>, fuel: nat) returns (written: seq<Assignment>, r: Outcome)
      requires Valid()
      ensures (written, r) == Injection(fields, fuel)
    {
      written := [];
      for i := 0 to |fields|
        invariant Injection(fields[..i], fuel) == (written, Pass)
      {
        assert fields[..i + 1][..i] == fields[..i];
        if !fields[i].annotated {
          continue;
        }
        var value := Resolve(fields[i].declaredType, fuel);
        if value.Failure? {
          assert fields == fields[..i + 1] + fields[i + 1..];
          InjectionKeepsFailure(fields[..i + 1], fields[i + 1..], fuel);
          return written, Fail(value.error);
        }
        if !reflection.assignable(fields[i].declaredType, value.value) {
          assert fields == fields[..i + 1] + fields[i + 1..];
          InjectionKeepsFailure(fields[..i + 1], fields[i + 1..], fuel);
          return written, Fail(FieldTypeMismatch(fields[i].name));
        }
        written := written + [Assignment(fields[i].name, value.value)];
      }
      assert fields[..|fields|] == fields;
      r := Pass;
    }

    // ---------------------------------------------------------------------
    // Registration

    /**
      What registering `t` with concrete type `k` asks of the cyclic
      dependency checker: the parameters of `k`'s first constructor, unless
      `k` has none or the checker rejects them.
     */
    ghost function DependencyCheck(t: TypeId, k: TypeId): Result<seq<TypeId>>
      reads this
    {
      match ConstructorDependencies(k)
      case Failure(e) => Failure(e)
      case Success(ps) => if cycleCheck(dependencyGraph, t, ps) then Failure(CyclicDependency(t)) else Success(ps)
    }

    /** `cyclicDependencyChecker.registerDependency(t, getConstructorDependenciesForType(k))` */
    method RegisterDependency(t: TypeId, k: TypeId) returns (r: Result<seq<TypeId>>)
      modifies this`dependencyGraph
      ensures r == old(DependencyCheck(t, k))
      ensures dependencyGraph == if r.Success? then old(dependencyGraph)[t := r.value] else old(dependencyGraph)
    {
      var dependencies := ConstructorDependencies(k);
      if dependencies.Failure? {
        return Failure(dependencies.error);
      }
      if cycleCheck(dependencyGraph, t, dependencies.value) {
        return Failure(CyclicDependency(t));
      }
      dependencyGraph := dependencyGraph[t := dependencies.value];
      r := dependencies;
    }

    method RegisterInstance(t: TypeId, instance: Obj)
      requires Valid()
      modifies this
      ensures Valid()
      ensures registrationTypeMap == old(registrationTypeMap)[t := Instance]
      ensures instances == old(instances)[t := instance]
      ensures unchanged(this`transients, this`singletons, this`scopedTypes, this`scopes, this`dependencyGraph)
    {
      registrationTypeMap := registrationTypeMap[t := Instance];
      instances := instances[t := instance];
    }

    method RegisterTransient(t: TypeId, k: TypeId) returns (r: Outcome)
      requires Valid()
      modifies this
      ensures Valid()
      ensures r.Fail? <==> old(DependencyCheck(t, k)).Failure?
      ensures r.Fail? ==> r.error == old(DependencyCheck(t, k)).error && unchanged(this)
      ensures r.Pass? ==>
        && registrationTypeMap == old(registrationTypeMap)[t := Transient]
        && transients == old(transients)[t := k]
        && dependencyGraph == old(dependencyGraph)[t := old(DependencyCheck(t, k)).value]
        && unchanged(this`instances, this`singletons, this`scopedTypes, this`scopes)
    {
      var checked := RegisterDependency(t, k);
      if checked.Failure? {
        return Fail(checked.error);
      }
      registrationTypeMap := registrationTypeMap[t := Transient];
      transients := transients[t := k];
      r := Pass;
    }

    method RegisterSingleton(t: TypeId, k: TypeId) returns (r: Outcome)
      requires Valid()
      modifies this
      ensures Valid()
      ensures r.Fail? <==> old(DependencyCheck(t, k)).Failure?
      ensures r.Fail? ==> r.error == old(DependencyCheck(t, k)).error && unchanged(this)
      ensures r.Pass? ==>
        && registrationTypeMap == old(registrationTypeMap)[t := Singleton]
        && singletons == old(singletons)[t := ByClass(k)]
        && dependencyGraph == old(dependencyGraph)[t := old(DependencyCheck(t, k)).value]
        && unchanged(this`instances, this`transients, this`scopedTypes, this`scopes)
    {
      var checked := RegisterDependency(t, k);
      if checked.Failure? {
        return Fail(checked.error);
      }
      registrationTypeMap := registrationTypeMap[t := Singleton];
      singletons := singletons[t := ByClass(k)];
      r := Pass;
    }

    /** The factory overload: the dependencies checked are those of the
        factory's declared return type. */
    method RegisterSingletonFactory(t: TypeId, factory: Factory) returns (r: Outcome)
      requires Valid()
      modifies this
      ensures Valid()
      ensures r.Fail? <==> old(DependencyCheck(t, factory.returnType)).Failure?
      ensures r.Fail? ==> r.error == old(DependencyCheck(t, factory.returnType)).error && unchanged(this)
      ensures r.Pass? ==>
        && registrationTypeMap == old(registrationTypeMap)[t := Singleton]
        && singletons == old(singletons)[t := ByFactory(factory)]
        && dependencyGraph == old(dependencyGraph)[t := old(DependencyCheck(t, factory.returnType)).value]
        && unchanged(this`instances, this`transients, this`scopedTypes, this`scopes)
    {
      var concreteType := factory.returnType;
      var checked := RegisterDependency(t, concreteType);
      if checked.Failure? {
        return Fail(checked.error);
      }
      registrationTypeMap := registrationTypeMap[t := Singleton];
      singletons := singletons[t := ByFactory(factory)];
      r := Pass;
    }

    method RegisterScoped(t: TypeId, k: TypeId) returns (r: Outcome)
      requires Valid()
      modifies this
      ensures Valid()
      ensures r.Fail? <==> old(DependencyCheck(t, k)).Failure?
      ensures r.Fail? ==> r.error == old(DependencyCheck(t, k)).error && unchanged(this)
      ensures r.Pass? ==>
        && registrationTypeMap == old(registrationTypeMap)[t := Scoped]
        && scopedTypes == old(scopedTypes)[t := k]
        && dependencyGraph == old(dependencyGraph)[t := old(DependencyCheck(t, k)).value]
        && unchanged(this`instances, this`transients, this`singletons, this`scopes)
    {
      var checked := RegisterDependency(t, k);
      if checked.Failure? {
        return Fail(checked.error);
      }
      registrationTypeMap := registrationTypeMap[t := Scoped];
      scopedTypes := scopedTypes[t := k];
      r := Pass;
    }

    method RegisterScopeContext(t: TypeId)
      requires Valid()
      modifies this
      ensures Valid()
      ensures registrationTypeMap == old(registrationTypeMap)[t := ScopeContext]
      ensures unchanged(this`instances, this`transients, this`singletons, this`scopedTypes, this`scopes, this`dependencyGraph)
    {
      registrationTypeMap := registrationTypeMap[t := ScopeContext];
    }

    // ---------------------------------------------------------------------
    // Scopes

    /** `beginScope()` */
    method BeginScope()
      requires Valid()
      modifies this
      ensures Valid()
      ensures scopes == old(scopes) + [ScopeFrame(None)]
      ensures unchanged(this`registrationTypeMap, this`instances, this`transients, this`singletons, this`scopedTypes, this`dependencyGraph)
    {
      scopes := scopes + [ScopeFrame(None)];
    }

    /** `beginScope(context)`: the context's type is not registered here. */
    method BeginScopeWith(context: Obj)
      requires Valid()
      modifies this
      ensures Valid()
      ensures scopes == old(scopes) + [ScopeFrame(Some(context))]
      ensures unchanged(this`registrationTypeMap, this`instances, this`transients, this`singletons, this`scopedTypes, this`dependencyGraph)
    {
      var container := ScopeFrame(Some(context));
      scopes := scopes + [container];
    }

    /**
      `endScope()`: pops the top frame; when it carries a context, the key
      `context.getClass()` leaves the registry, whatever it was registered as.
     */
    method EndScope() returns (r: Outcome)
      requires Valid()
      modifies this
      ensures Valid()
      ensures old(scopes) == [] ==> r == Fail(NoActiveScope) && unchanged(this)
      ensures old(scopes) != [] ==>
        && r == Pass
        && scopes == old(scopes[..|scopes| - 1])
        && registrationTypeMap == match old(scopes[|scopes| - 1]).context
                                  case None => old(registrationTypeMap)
                                  case Some(ctx) => old(registrationTypeMap) - {ClassOf(ctx)}
      ensures unchanged(this`instances, this`transients, this`singletons, this`scopedTypes, this`dependencyGraph)
    {
      if scopes == [] {
        return Fail(NoActiveScope);
      }
      var container := scopes[|scopes| - 1];
      scopes := scopes[..|scopes| - 1];
      var context := container.context;
      if context.Some? {
        registrationTypeMap := registrationTypeMap - {ClassOf(context.value)};
      }
      r := Pass;
    }
  }
}
