# Jinjectsu container, modelled in Dafny

Jinjectsu is a small dependency-injection container for Java. This project
models its core class, `Jinjectsu`, which does the following:

- It keeps a registry from abstract type to lifetime tag (`registrationTypeMap`).
- It keeps a fixed table from each of the five tags to the component that
  resolves it (`resolverMap`).
- It refuses to `bind` a type twice.
- The `register*` methods ask the cyclic dependency checker first and record
  the tag only after it accepts.
- `resolve` dispatches on the recorded tag and turns the three checked
  reflection exceptions into a resolution error.
- `beginScope`/`endScope` push and pop frames of the scope stack. Popping a
  frame that carries a context unregisters the context's class.
- `ConstructorResolve` builds an object by resolving the parameters of its
  first constructor, in order, into an array.
- `inject` resolves each annotated field of a target.

Files:

- `types.dfy` (module `Types`): class tokens (`TypeId`), the tags
  (`RegistrationType`), the five resolver components, objects, errors, and
  the reflection services.
- `container.dfy` (module `Container`): the class `Jinjectsu`. It has its
  fields, the invariant `Valid()`, resolution stated as functions of the
  state (`Resolution`, `ResolverResolution`, `Construction`, `ResolveAll`,
  `Injection`), and the methods that run it (`Resolve`, `ResolveWith`,
  `ConstructorResolve`, `Inject`), each proved equal to its function. It
  also has the registration and scope methods, whose `ensures` give the
  whole new state.
- `resolution_facts.dfy` (module `ResolutionFacts`): lemmas about resolution.
  They cover parameter order, the first failing parameter, what each tag
  resolves to, which errors `resolve` can report, and the stack bound.
- `scenarios.dfy` (module `Scenarios`): callers that start from a fresh
  container and are proved from the method contracts alone.

How the parts the core does not contain are modelled:

- A Java `Class` is an opaque `nat`.
- Reflection is a constructor parameter, `Reflection`. Its field
  `constructorOf(k)` gives the parameter types of the first entry of
  `k.getDeclaredConstructors()`, or `None` when that array is empty. Its
  field `newInstance(k, args)` says how invoking that constructor on `args`
  ends: it returns, it throws one of the three checked reflection exceptions
  (abstract class, inaccessible constructor, or a constructor body that
  throws on these arguments), or it throws `IllegalArgumentException`
  because an argument is not assignable to its parameter. The JVM's order
  among these is whatever that function says for the class and arguments.
  Its field `assignable(d, o)` says whether `field.set` accepts `o` for a
  field declared with type `d`; when it does not, `inject` stops with the
  unchecked `FieldTypeMismatch` (Java's `IllegalArgumentException`). Built
  objects are the terms `Built(k, args)`. A factory's product is
  `Produced(f)`, whose runtime class is the factory's `productClass`, which
  need not be its declared return type.
- The cyclic dependency checker is reduced to its verdict, `cycleCheck`, a
  constructor parameter. The model fixes that the verdict is a function of
  the recorded graph, the type and its parameter list, and that an accepted
  registration records the edges `dependencyGraph[t := ps]` while a rejected
  one leaves the graph unchanged.
- The components `InstanceContainer`, `TransientContainer`,
  `SingletonContainer`, `ScopedContainer`, `ScopeContextResolver` and
  `CyclicDependencyChecker` are not part of this model. Their state is
  represented as map and sequence fields of the class. What their `resolve`
  does is assumed here, in its simplest form:
  - An instance binding returns the stored object.
  - The transient, singleton and scoped bindings call back into
    `ConstructorResolve`.
  - A factory singleton returns the factory's product.
  - A scoped binding, or a scope context, fails with `NoActiveScope` when the
    stack is empty.
  - A scope context with no context on the top frame fails with
    `UnregisteredType`.
  - Popping the scope stack (`endScope`) when it is empty fails with
    `NoActiveScope` and changes nothing.
- Java has no depth guard on `resolve` → `ConstructorResolve` → `resolve`.
  The model bounds it with `fuel`, which stands for the call stack: a
  constructor with parameters reached with no fuel left fails with
  `StackOverflow`. `ResolutionFuelMonotone` proves that the answer does not
  depend on the fuel once the fuel suffices.
- In these places the model follows the code as written:
  - `beginScope(context)` does not register the context's class. A caller
    must register it as a scope context, as `ContextScopeScenario` does.
  - `endScope` removes `context.getClass()` whatever that key was registered
    as.
  - `getDeclaredConstructors()` is empty only for interfaces, primitive
    types, array types and `void`; indexing it then raises
    `ArrayIndexOutOfBoundsException`. The model reports it as
    `NoConstructor`, and `resolve` does not wrap it.
  - `IllegalArgumentException` from `newInstance` (reachable because
    `registerInstance` and scope contexts accept any object) is unchecked.
    The model reports it as `ArgumentMismatch`, and `resolve` does not wrap
    it.
  - Only the innermost `resolve` wraps a reflection exception. Errors raised
    by nested resolutions pass through outer ones unchanged.

## Model

| member | source | states |
|---|---|---|
| `Container.Jinjectsu.constructor` | jinjectsu/src/main/java/com/example/ericlouw/jinjectsu/Jinjectsu.java:27-41 | A fresh container has an empty registry, empty components and an empty scope stack. `resolverMap` maps each of the five tags to its own component, so the lookup in `resolve` is always defined. |
| `Container.Jinjectsu.Bind` | jinjectsu/src/main/java/com/example/ericlouw/jinjectsu/Jinjectsu.java:62-67 | `bind(t)` fails exactly when `t` is a key of the registry, with `AlreadyRegistered` carrying the recorded tag. Otherwise it returns a binder for `t`. It changes no state. |
| `Container.Caught` | jinjectsu/src/main/java/com/example/ericlouw/jinjectsu/Jinjectsu.java:78-86 | A checked reflection exception from the resolver becomes `ResolutionFailed` for the requested type. Success and every other error pass through unchanged. |
| `Container.Jinjectsu.Resolve` | jinjectsu/src/main/java/com/example/ericlouw/jinjectsu/Jinjectsu.java:69-87 | Equals `Resolution(t, fuel)`. An unregistered `t` fails with `UnregisteredType(t)`. No raw reflection exception reaches the caller. |
| `Container.Jinjectsu.ResolveWith` | jinjectsu/src/main/java/com/example/ericlouw/jinjectsu/ITypeResolver.java:7 | The resolve call of each of the five components equals `ResolverResolution` of that component. |
| `Container.Jinjectsu.ConstructorResolve` | jinjectsu/src/main/java/com/example/ericlouw/jinjectsu/Jinjectsu.java:166-182 | Equals `Construction(k, fuel)`. The loop invariant keeps the filled part of the array equal to the resolutions of the parameters so far, and the first failure is returned. |
| `Container.Jinjectsu.ResolveAllKeepsFailure` | jinjectsu/src/main/java/com/example/ericlouw/jinjectsu/Jinjectsu.java:177-179 | Once a prefix of the parameter list fails, the whole list fails with the same error. |
| `Container.Jinjectsu.Inject` | jinjectsu/src/main/java/com/example/ericlouw/jinjectsu/Jinjectsu.java:43-60 | Equals `Injection(fields, fuel)`: the field writes made, in order, and how the walk ended, including a resolved value that `field.set` rejects. |
| `Container.Jinjectsu.InjectionKeepsFailure` | jinjectsu/src/main/java/com/example/ericlouw/jinjectsu/Jinjectsu.java:46-58 | Once the walk over a prefix of the fields has failed, later fields change neither the writes nor the error. |
| `Container.Jinjectsu.GetTypeRegisteredUnder` | jinjectsu/src/main/java/com/example/ericlouw/jinjectsu/Jinjectsu.java:111-130 | Fails with `UnregisteredType` exactly when none of the singleton, transient, scoped and instance components holds `t`. Otherwise the first of them, in that order, that holds `t` answers: the singleton's concrete type (a factory's declared return type), the transient or scoped concrete type, or the class of the stored instance. |
| `Container.Jinjectsu.ConstructorDependencies` | jinjectsu/src/main/java/com/example/ericlouw/jinjectsu/Jinjectsu.java:184-188 | Gives the parameter types of the first declared constructor, or `NoConstructor` when reflection lists none. It is the one source of the list that registration passes to the checker (`DependencyCheck`) and that construction resolves (`Construction`). |
| `Container.Jinjectsu.NewInstance` | jinjectsu/src/main/java/com/example/ericlouw/jinjectsu/Jinjectsu.java:181 | `constructor.newInstance(args)` yields `Built(k, args)` exactly when the invocation returns; otherwise it fails with a checked reflection failure or an argument mismatch for `k`. |
| `Container.Jinjectsu.RegisterDependency` | jinjectsu/src/main/java/com/example/ericlouw/jinjectsu/Jinjectsu.java:138 | Reports the checker's verdict on the first constructor's parameters, or `NoConstructor`. It records the edges only on acceptance. |
| `Container.Jinjectsu.RegisterInstance` | jinjectsu/src/main/java/com/example/ericlouw/jinjectsu/Jinjectsu.java:132-135 | Runs no dependency check. Tags `t` as `Instance` and stores the instance. No other key or component changes. |
| `Container.Jinjectsu.RegisterTransient` | jinjectsu/src/main/java/com/example/ericlouw/jinjectsu/Jinjectsu.java:137-141 | Fails exactly when the dependency check fails, and then nothing changes. On success it tags `t` as `Transient`, stores `k` and records the edges. Every other key and component is unchanged. |
| `Container.Jinjectsu.RegisterSingleton` | jinjectsu/src/main/java/com/example/ericlouw/jinjectsu/Jinjectsu.java:143-147 | As for transient registration, with the tag `Singleton` and the binding `ByClass(k)`. |
| `Container.Jinjectsu.RegisterSingletonFactory` | jinjectsu/src/main/java/com/example/ericlouw/jinjectsu/Jinjectsu.java:149-154 | As for singleton registration. The checked parameter list is that of the factory's declared return type, and the binding is `ByFactory`. |
| `Container.Jinjectsu.RegisterScoped` | jinjectsu/src/main/java/com/example/ericlouw/jinjectsu/Jinjectsu.java:156-160 | As for transient registration, with the tag `Scoped` and the scoped component. |
| `Container.Jinjectsu.RegisterScopeContext` | jinjectsu/src/main/java/com/example/ericlouw/jinjectsu/Jinjectsu.java:162-164 | Runs no dependency check. Tags `t` as `ScopeContext` and touches no component. |
| `Container.Jinjectsu.BeginScope` | jinjectsu/src/main/java/com/example/ericlouw/jinjectsu/Jinjectsu.java:89-91 | Pushes exactly one frame without a context. Leaves the registry and the components unchanged. |
| `Container.Jinjectsu.BeginScopeWith` | jinjectsu/src/main/java/com/example/ericlouw/jinjectsu/Jinjectsu.java:103-109 | Pushes exactly one frame carrying the context. The registry is unchanged, so the context's class is not registered. |
| `Container.Jinjectsu.EndScope` | jinjectsu/src/main/java/com/example/ericlouw/jinjectsu/Jinjectsu.java:93-101 | Pops exactly one frame. If the frame had a context, only the key `ClassOf(context)` leaves the registry; otherwise the registry is unchanged. On an empty stack it fails with `NoActiveScope` and changes nothing. |
| `ResolutionFacts.ResolveAllSucceedsExactly` | jinjectsu/src/main/java/com/example/ericlouw/jinjectsu/Jinjectsu.java:175-179 | The parameters all resolve exactly when each one does. The values come back one per parameter, in parameter order. |
| `ResolutionFacts.ResolveAllStopsAtFirstFailure` | jinjectsu/src/main/java/com/example/ericlouw/jinjectsu/Jinjectsu.java:177-179 | A failing parameter list reports the error of its first failing parameter, and every parameter before it resolved. |
| `ResolutionFacts.ConstructionFollowsParameters` | jinjectsu/src/main/java/com/example/ericlouw/jinjectsu/Jinjectsu.java:166-182 | A class without a constructor fails with `NoConstructor`. A success is an object of class `k` whose arguments are the resolutions of the parameters, one per parameter, in order, and the constructor returned on them. When the parameters resolve to some arguments (exactly when each parameter resolves one level deeper, or there are none), the outcome is the invocation's on those arguments; when they do not, construction fails. |
| `ResolutionFacts.ParameterlessConstruction` | jinjectsu/src/main/java/com/example/ericlouw/jinjectsu/Jinjectsu.java:171-173 | A constructor with zero parameters that returns on no arguments builds its object with no arguments, at any stack depth. |
| `ResolutionFacts.SameConstructorForCheckAndBuild` | jinjectsu/src/main/java/com/example/ericlouw/jinjectsu/Jinjectsu.java:184-188 | Registration and construction read the same constructor: a class without one fails both with `NoConstructor`, and the list an accepted registration records as the type's edges is the list whose resolutions a successful construction passes as its arguments, one per parameter, in order. |
| `ResolutionFacts.ResolvedObjectMatchesRegistration` | jinjectsu/src/main/java/com/example/ericlouw/jinjectsu/Jinjectsu.java:74-79 | A successful `resolve(t)` answers through the component for `t`'s tag. The answer is the stored instance, an object of the registered concrete class (for a scoped type, only inside a scope), the factory's product, or the context of the top frame. |
| `ResolutionFacts.TypeRegisteredUnderNamesResolvedClass` | jinjectsu/src/main/java/com/example/ericlouw/jinjectsu/Jinjectsu.java:111-130 | For a type not registered as a scope context, suppose no component asked before the one `t`'s tag selects holds `t`. Then `getTypeRegisteredUnder(t)` names the class of what `resolve(t)` returns, except for a factory singleton: there `resolve(t)` returns the factory's product and the query names the factory's declared return type, which the product's runtime class need not be. |
| `ResolutionFacts.ResolutionErrors` | jinjectsu/src/main/java/com/example/ericlouw/jinjectsu/Jinjectsu.java:69-87 | `resolve` reports only `UnregisteredType`, `ResolutionFailed`, `ArgumentMismatch`, `NoConstructor`, `NoActiveScope` or `StackOverflow`. It never reports a raw reflection exception or a registration error. |
| `ResolutionFacts.ResolverErrors` | jinjectsu/src/main/java/com/example/ericlouw/jinjectsu/ITypeResolver.java:7 | A component's resolve reports only those errors or a raw reflection exception. |
| `ResolutionFacts.ConstructionErrors` | jinjectsu/src/main/java/com/example/ericlouw/jinjectsu/Jinjectsu.java:166-182 | `ConstructorResolve` reports only those errors or a raw reflection exception. |
| `ResolutionFacts.ResolveAllErrors` | jinjectsu/src/main/java/com/example/ericlouw/jinjectsu/Jinjectsu.java:177-179 | A failing parameter list reports only errors that `resolve` itself can report. |
| `ResolutionFacts.ResolutionFuelMonotone` | jinjectsu/src/main/java/com/example/ericlouw/jinjectsu/Jinjectsu.java:69-87 | A resolution that did not exhaust the stack gives the same result with any deeper stack. |
| `ResolutionFacts.ResolverFuelMonotone` | jinjectsu/src/main/java/com/example/ericlouw/jinjectsu/ITypeResolver.java:7 | The same, for a component's resolve. |
| `ResolutionFacts.ConstructionFuelMonotone` | jinjectsu/src/main/java/com/example/ericlouw/jinjectsu/Jinjectsu.java:166-182 | The same, for `ConstructorResolve`. |
| `ResolutionFacts.ResolveAllFuelMonotone` | jinjectsu/src/main/java/com/example/ericlouw/jinjectsu/Jinjectsu.java:177-179 | The same, for the parameter loop. |
| `ResolutionFacts.InjectionFillsAnnotatedFields` | jinjectsu/src/main/java/com/example/ericlouw/jinjectsu/Jinjectsu.java:43-60 | `inject` writes into each annotated field, in order, a value that its declared type resolves to and that `field.set` accepts, and skips the others. It completes exactly when every annotated field's type resolves to an accepted value. Otherwise it stops at the first annotated field that cannot be filled and reports that resolution's error, or `FieldTypeMismatch` for that field when the value resolved but was rejected. |
| `Scenarios.ContextScopeScenario` | jinjectsu/src/main/java/com/example/ericlouw/jinjectsu/Jinjectsu.java:93-109 | After `beginScope(ctx)`, the context's class is still unregistered. Once registered as a scope context it resolves to `ctx`. After `endScope()` it is unregistered again. |
| `Scenarios.ScopedLifetimeScenario` | jinjectsu/src/main/java/com/example/ericlouw/jinjectsu/Jinjectsu.java:89-101 | A scoped type fails with `NoActiveScope` outside a scope. Inside a scope it resolves to an object built from its concrete class. After `endScope()` it fails with `NoActiveScope` again. |
| `Scenarios.LoggerServiceScenario` | jinjectsu/src/main/java/com/example/ericlouw/jinjectsu/Jinjectsu.java:137-147 | Take a singleton logger and a transient service whose constructor takes the logger. The service is built around an object equal to the one resolving the logger type gives. |
| `Scenarios.RejectedRegistrationScenario` | jinjectsu/src/main/java/com/example/ericlouw/jinjectsu/Jinjectsu.java:137-141 | Take two types whose implementations need each other. When the checker rejects the second registration, that type can still be bound and the first stays bound. |

## Left out

- Singleton and scoped caching: caching lives in the component classes,
  which are not part of this model. Objects are terms without identity, so
  the model does not say whether two resolutions return the same reference.
  Moreover, each resolve of a singleton or scoped type rebuilds the object
  against the current state. After the state changes (a scope ends, a
  dependency is unregistered, the fuel runs out), the model can fail, or
  build with different arguments, where the container would hand back its
  cached instance.
- The cycle detection algorithm: `CyclicDependencyChecker` is not part of
  this model. Its verdict is a parameter.
- Thread safety and concurrent first resolution of a singleton: the code
  shown has no concurrency.
- Exception messages and the distinct Java exception classes: one `Error`
  datatype stands for them.
- The fluent binder (`TypeBinder`) that calls the `register*` methods is not
  part of this model. `Bind` returns only the binder's abstract type.
- Inject: the `IllegalAccessException` path (`InjectionException`) is not
  modelled (the `IllegalArgumentException` of `field.set` is, as
  `FieldTypeMismatch`). After `setAccessible(true)` it depends on JVM access rules that
  the code does not show. Field discovery and annotation scanning are
  replaced by a given list of fields, and the writes are returned, not
  applied to an object.
- BeginScopeWith: a `null` context is not modelled. It behaves like
  `beginScope()`.
- Resolve: the unchecked cast of the result to the caller's type is not
  modelled.
- Resolve: Java's unbounded recursion is bounded by `fuel`, which stands for
  the call stack. With enough fuel, the result does not depend on it
  (`ResolutionFuelMonotone`).
- The factory's method invocation and `getMethods()[0].getReturnType()` are
  reduced to the fields of `Factory`: its declared return type and the
  runtime class of its product.
