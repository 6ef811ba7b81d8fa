/**
  Callers of the container, written against the contracts of its methods
  alone: each starts from a fresh container and checks what the documented
  usage promises.
 */
module Scenarios {
  import opened Types
  import opened Container
  import opened ResolutionFacts

  /**
    A context object pushed with `beginScope(context)` is not resolvable until
    its class is registered as a scope context; then it resolves to the
    context itself; after `endScope()` its class is unregistered again.
   */
  method ContextScopeScenario(reflection: Reflection, cycleCheck: CycleCheck, context: Obj, fuel: nat)
    returns (beforeRegistration: Result<Obj>, during: Result<Obj>, after: Result<Obj>)
    ensures beforeRegistration == Failure(UnregisteredType(ClassOf(context)))
    ensures during == Success(context)
    ensures after == Failure(UnregisteredType(ClassOf(context)))
  {
    var container := new Jinjectsu(reflection, cycleCheck);
    var contextType := ClassOf(context);
    container.BeginScopeWith(context);
    beforeRegistration := container.Resolve(contextType, fuel);
    container.RegisterScopeContext(contextType);
    during := container.Resolve(contextType, fuel);
    var ended := container.EndScope();
    after := container.Resolve(contextType, fuel);
  }

  /**
    A scoped type resolves only while a scope is active.
   */
  method ScopedLifetimeScenario(reflection: Reflection, cycleCheck: CycleCheck, abstractType: TypeId, concreteType: TypeId, fuel: nat)
    returns (outside: Result<Obj>, inside: Result<Obj>, afterEnd: Result<Obj>)
    requires reflection.constructorOf(concreteType) == Some([]) && reflection.newInstance(concreteType, []) == Returned
    requires !cycleCheck(map[], abstractType, [])
    ensures outside == Failure(NoActiveScope)
    ensures inside == Success(Built(concreteType, []))
    ensures afterEnd == Failure(NoActiveScope)
  {
    var container := new Jinjectsu(reflection, cycleCheck);
    var registered := container.RegisterScoped(abstractType, concreteType);
    outside := container.Resolve(abstractType, fuel);
    container.BeginScope();
    ParameterlessConstruction(container, concreteType, fuel);
    assert container.ResolverResolution(ScopedContainer, abstractType, fuel) == Success(Built(concreteType, []));
    inside := container.Resolve(abstractType, fuel);
    var ended := container.EndScope();
    afterEnd := container.Resolve(abstractType, fuel);
  }

  /**
    A logger bound as a singleton and a service bound as a transient whose
    constructor takes the logger: the service is built around an object equal
    to the one resolving the logger type gives.
   */
  method LoggerServiceScenario(
    reflection: Reflection, cycleCheck: CycleCheck,
    loggerType: TypeId, consoleLogger: TypeId, serviceType: TypeId, serviceImpl: TypeId, fuel: nat)
    returns (service: Result<Obj>, logger: Result<Obj>)
    requires loggerType != serviceType
    requires reflection.constructorOf(consoleLogger) == Some([]) && reflection.newInstance(consoleLogger, []) == Returned
    requires reflection.constructorOf(serviceImpl) == Some([loggerType]) && reflection.newInstance(serviceImpl, [Built(consoleLogger, [])]) == Returned
    requires !cycleCheck(map[], loggerType, [])
    requires !cycleCheck(map[loggerType := []], serviceType, [loggerType])
    requires fuel > 0
    ensures logger == Success(Built(consoleLogger, []))
    ensures service == Success(Built(serviceImpl, [logger.value]))
  {
    var container := new Jinjectsu(reflection, cycleCheck);
    var first := container.RegisterSingleton(loggerType, consoleLogger);
    var second := container.RegisterTransient(serviceType, serviceImpl);
    ParameterlessConstruction(container, consoleLogger, fuel);
    ParameterlessConstruction(container, consoleLogger, fuel - 1);
    ConstructionFollowsParameters(container, serviceImpl, fuel);
    assert container.Resolution(loggerType, fuel - 1) == Success(Built(consoleLogger, []));
    assert ParametersResolveTo(container, [loggerType], fuel, [Built(consoleLogger, [])]);
    assert container.Construction(serviceImpl, fuel) == Success(Built(serviceImpl, [Built(consoleLogger, [])]));
    service := container.Resolve(serviceType, fuel);
    logger := container.Resolve(loggerType, fuel);
  }

  /**
    Two types whose implementations need each other: once the checker
    rejects the second registration, that type is still unbound and can be
    bound again, while the first stays bound.
   */
  method RejectedRegistrationScenario(
    reflection: Reflection, cycleCheck: CycleCheck,
    typeA: TypeId, implA: TypeId, typeB: TypeId, implB: TypeId)
    returns (first: Outcome, second: Outcome, bindA: Result<TypeBinder>, bindB: Result<TypeBinder>)
    requires typeA != typeB
    requires reflection.constructorOf(implB) == Some([typeA])
    requires reflection.constructorOf(implA) == Some([typeB])
    requires !cycleCheck(map[], typeB, [typeA])
    requires cycleCheck(map[typeB := [typeA]], typeA, [typeB])
    ensures first == Pass
    ensures second == Fail(CyclicDependency(typeA))
    ensures bindA == Success(TypeBinder(typeA))
    ensures bindB == Failure(AlreadyRegistered(typeB, Transient))
  {
    var container := new Jinjectsu(reflection, cycleCheck);
    first := container.RegisterTransient(typeB, implB);
    second := container.RegisterTransient(typeA, implA);
    bindA := container.Bind(typeA);
    bindB := container.Bind(typeB);
  }
}
