/**
  Properties of resolution in the container: which resolver answers a
  registered type, how constructor parameters become arguments, which errors
  can come out of `resolve`, and that the stack bound only matters when it
  is exhausted.
 */
module ResolutionFacts {
  import opened Types
  import opened Container

  /** The errors `resolve` can report to its caller. */
  predicate ResolveError(e: Error)
  {
    e.UnregisteredType? || e.ResolutionFailed? || e.ArgumentMismatch? || e.NoConstructor? || e.NoActiveScope? || e.StackOverflow?
  }

  // -----------------------------------------------------------------------
  // Parameters, in order

  /** All parameters resolve exactly when each one does, and the values come
      back one per parameter, in parameter order. */
  lemma {:induction false} ResolveAllSucceedsExactly(c: Jinjectsu, ps: seq<TypeId>, fuel: nat)
    requires c.Valid()
    ensures c.ResolveAll(ps, fuel).Success? <==> forall i :: 0 <= i < |ps| ==> c.Resolution(ps[i], fuel).Success?
    ensures c.ResolveAll(ps, fuel).Success? ==>
      && |c.ResolveAll(ps, fuel).value| == |ps|
      && forall i :: 0 <= i < |ps| ==> c.Resolution(ps[i], fuel) == Success(c.ResolveAll(ps, fuel).value[i])
    decreases |ps|
  {
    if ps != [] {
      var front := ps[..|ps| - 1];
      ResolveAllSucceedsExactly(c, front, fuel);
      assert forall i :: 0 <= i < |front| ==> front[i] == ps[i];
    }
  }

  /** A failed parameter list reports the error of the first parameter that
      fails; every parameter before it resolved. */
  lemma {:induction false} ResolveAllStopsAtFirstFailure(c: Jinjectsu, ps: seq<TypeId>, fuel: nat)
    requires c.Valid()
    requires c.ResolveAll(ps, fuel).Failure?
    ensures exists k ::
              && 0 <= k < |ps|
              && c.Resolution(ps[k], fuel) == Failure(c.ResolveAll(ps, fuel).error)
              && forall i :: 0 <= i < k ==> c.Resolution(ps[i], fuel).Success?
    decreases |ps|
  {
    var front := ps[..|ps| - 1];
    assert forall i :: 0 <= i < |front| ==> front[i] == ps[i];
    if c.ResolveAll(front, fuel).Failure? {
      ResolveAllStopsAtFirstFailure(c, front, fuel);
      var k :| 0 <= k < |front| && c.Resolution(front[k], fuel) == Failure(c.ResolveAll(front, fuel).error)
        && forall i :: 0 <= i < k ==> c.Resolution(front[i], fuel).Success?;
      assert c.Resolution(ps[k], fuel) == Failure(c.ResolveAll(ps, fuel).error);
    } else {
      ResolveAllSucceedsExactly(c, front, fuel);
      var k := |ps| - 1;
      assert c.Resolution(ps[k], fuel) == Failure(c.ResolveAll(ps, fuel).error);
    }
  }

  /**
    `args` is what resolving the parameters `ps` one level below `fuel` yields,
    one value per parameter, in order; a constructor without parameters gets
    no arguments at any depth.
   */
  ghost predicate ParametersResolveTo(c: Jinjectsu, ps: seq<TypeId>, fuel: nat, args: seq<Obj>)
    reads c
    requires c.Valid()
  {
    && |args| == |ps|
    && (|ps| == 0 || (fuel > 0 && forall i :: 0 <= i < |ps| ==> c.Resolution(ps[i], fuel - 1) == Success(args[i])))
  }

  /**
    `ConstructorResolve(k)` succeeds exactly when `k` has a constructor, its
    parameters resolve one level deeper (unless it takes none), and invoking
    the constructor on the resolved arguments returns. Whatever the
    parameters resolve to, the outcome is that invocation's. A successful
    result is of class `k` and holds one argument per parameter, in order,
    taken from the same list that registration hands to the cyclic
    dependency checker.
   */
  lemma ConstructionFollowsParameters(c: Jinjectsu, k: TypeId, fuel: nat)
    requires c.Valid()
    ensures c.ConstructorDependencies(k).Failure? ==> c.Construction(k, fuel) == Failure(NoConstructor(k))
    ensures c.Construction(k, fuel).Success? ==>
      var o := c.Construction(k, fuel).value;
      && c.ConstructorDependencies(k).Success?
      && o.Built? && o.concrete == k
      && ParametersResolveTo(c, c.ConstructorDependencies(k).value, fuel, o.args)
      && c.reflection.newInstance(k, o.args) == Returned
    ensures c.ConstructorDependencies(k).Success? ==>
      var ps := c.ConstructorDependencies(k).value;
      ((|ps| == 0 || (fuel > 0 && forall i :: 0 <= i < |ps| ==> c.Resolution(ps[i], fuel - 1).Success?))
       <==> exists args :: ParametersResolveTo(c, ps, fuel, args))
    ensures forall args ::
      (c.ConstructorDependencies(k).Success? && ParametersResolveTo(c, c.ConstructorDependencies(k).value, fuel, args))
      ==> c.Construction(k, fuel) == c.NewInstance(k, args)
    ensures
      (c.ConstructorDependencies(k).Success? &&
       forall args :: !ParametersResolveTo(c, c.ConstructorDependencies(k).value, fuel, args))
      ==> c.Construction(k, fuel).Failure?
  {
    if c.ConstructorDependencies(k).Success? {
      var ps := c.ConstructorDependencies(k).value;
      if fuel > 0 {
        ResolveAllSucceedsExactly(c, ps, fuel - 1);
      }
      if |ps| == 0 {
        assert ParametersResolveTo(c, ps, fuel, []);
      } else if fuel > 0 && c.ResolveAll(ps, fuel - 1).Success? {
        assert ParametersResolveTo(c, ps, fuel, c.ResolveAll(ps, fuel - 1).value);
      }
      forall args | ParametersResolveTo(c, ps, fuel, args)
        ensures c.Construction(k, fuel) == c.NewInstance(k, args)
      {
        if |ps| > 0 {
          var vs := c.ResolveAll(ps, fuel - 1).value;
          assert forall i :: 0 <= i < |ps| ==> vs[i] == args[i];
          assert vs == args;
        }
      }
    }
  }

  /** A class whose constructor takes no parameters is built with no
      arguments, whatever the stack depth. */
  lemma ParameterlessConstruction(c: Jinjectsu, k: TypeId, fuel: nat)
    requires c.Valid()
    requires c.reflection.constructorOf(k) == Some([]) && c.reflection.newInstance(k, []) == Returned
    ensures c.Construction(k, fuel) == Success(Built(k, []))
  {
  }

  /**
    Registration and construction read the same constructor: a class without
    one fails both with `NoConstructor`, and an accepted registration records
    as the type's edges exactly the list whose resolutions a successful
    construction passes as its arguments.
   */
  lemma SameConstructorForCheckAndBuild(c: Jinjectsu, t: TypeId, k: TypeId, fuel: nat)
    requires c.Valid()
    ensures c.ConstructorDependencies(k).Failure? ==>
      c.DependencyCheck(t, k) == Failure(NoConstructor(k)) && c.Construction(k, fuel) == Failure(NoConstructor(k))
    ensures c.DependencyCheck(t, k).Success? && c.Construction(k, fuel).Success? ==>
      ParametersResolveTo(c, c.DependencyCheck(t, k).value, fuel, c.Construction(k, fuel).value.args)
  {
    ConstructionFollowsParameters(c, k, fuel);
  }

  // -----------------------------------------------------------------------
  // Dispatch on the recorded tag

  /**
    A successful `resolve(t)` answers with what the resolver for `t`'s tag
    holds: the registered instance, an object built from the registered
    concrete type (inside an active scope for a scoped type), the factory's
    product, or the context of the innermost scope.
   */
  lemma ResolvedObjectMatchesRegistration(c: Jinjectsu, t: TypeId, fuel: nat)
    requires c.Valid()
    requires c.Resolution(t, fuel).Success?
    ensures t in c.registrationTypeMap
    ensures var o := c.Resolution(t, fuel).value;
      match c.registrationTypeMap[t]
      case Instance => o == c.instances[t]
      case Transient => o.Built? && o.concrete == c.transients[t]
      case Singleton =>
        (match c.singletons[t]
         case ByClass(k) => o.Built? && o.concrete == k
         case ByFactory(f) => o == Produced(f))
      case Scoped => c.scopes != [] && o.Built? && o.concrete == c.scopedTypes[t]
      case ScopeContext => c.scopes != [] && c.scopes[|c.scopes| - 1].context == Some(o)
  {
    var tag := c.registrationTypeMap[t];
    match tag
    case Transient => ConstructionFollowsParameters(c, c.transients[t], fuel);
    case Singleton =>
      if c.singletons[t].ByClass? {
        ConstructionFollowsParameters(c, c.singletons[t].concrete, fuel);
      }
    case Scoped =>
      if c.scopes != [] {
        ConstructionFollowsParameters(c, c.scopedTypes[t], fuel);
      }
    case _ =>
  }

  /**
    When `t` is held by no component that `getTypeRegisteredUnder` asks before
    the one its tag selects, that query names the class of what `resolve(t)`
    returns, except for a factory singleton: there it names the factory's
    declared return type, while the product's runtime class may differ.
   */
  lemma TypeRegisteredUnderNamesResolvedClass(c: Jinjectsu, t: TypeId, fuel: nat)
    requires c.Valid()
    requires c.Resolution(t, fuel).Success?
    requires t in c.registrationTypeMap
    requires match c.registrationTypeMap[t]
      case Singleton => true
      case Transient => t !in c.singletons
      case Scoped => t !in c.singletons && t !in c.transients
      case Instance => t !in c.singletons && t !in c.transients && t !in c.scopedTypes
      case ScopeContext => false
    ensures !(c.registrationTypeMap[t] == Singleton && c.singletons[t].ByFactory?) ==>
      c.GetTypeRegisteredUnder(t) == Success(ClassOf(c.Resolution(t, fuel).value))
    ensures c.registrationTypeMap[t] == Singleton && c.singletons[t].ByFactory? ==>
      var f := c.singletons[t].factory;
      c.Resolution(t, fuel) == Success(Produced(f)) && c.GetTypeRegisteredUnder(t) == Success(f.returnType)
  {
    ResolvedObjectMatchesRegistration(c, t, fuel);
  }

  // -----------------------------------------------------------------------
  // Errors

  /** `resolve` never lets a raw reflection exception or a registration
      error escape. */
  lemma {:induction false} ResolutionErrors(c: Jinjectsu, t: TypeId, fuel: nat)
    requires c.Valid()
    requires c.Resolution(t, fuel).Failure?
    ensures ResolveError(c.Resolution(t, fuel).error)
    decreases fuel, 2, 0
  {
    if t in c.registrationTypeMap {
      var resolver := c.resolverMap[c.registrationTypeMap[t]];
      ResolverErrors(c, resolver, t, fuel);
    }
  }

  lemma {:induction false} ResolverErrors(c: Jinjectsu, resolver: Resolver, t: TypeId, fuel: nat)
    requires c.Valid() && c.Holds(resolver, t)
    requires c.ResolverResolution(resolver, t, fuel).Failure?
    ensures var e := c.ResolverResolution(resolver, t, fuel).error;
      ResolveError(e) || e.ConstructionFailed?
    decreases fuel, 1, 1
  {
    match resolver
    case TransientContainer => ConstructionErrors(c, c.transients[t], fuel);
    case SingletonContainer =>
      if c.singletons[t].ByClass? {
        ConstructionErrors(c, c.singletons[t].concrete, fuel);
      }
    case ScopedContainer =>
      if c.scopes != [] {
        ConstructionErrors(c, c.scopedTypes[t], fuel);
      }
    case _ =>
  }

  lemma {:induction false} ConstructionErrors(c: Jinjectsu, k: TypeId, fuel: nat)
    requires c.Valid()
    requires c.Construction(k, fuel).Failure?
    ensures var e := c.Construction(k, fuel).error;
      ResolveError(e) || e.ConstructionFailed?
    decreases fuel, 1, 0
  {
    match c.ConstructorDependencies(k)
    case Failure(_) =>
    case Success(ps) =>
      if |ps| > 0 && fuel > 0 && c.ResolveAll(ps, fuel - 1).Failure? {
        ResolveAllErrors(c, ps, fuel - 1);
      }
  }

  lemma {:induction false} ResolveAllErrors(c: Jinjectsu, ps: seq<TypeId>, fuel: nat)
    requires c.Valid()
    requires c.ResolveAll(ps, fuel).Failure?
    ensures ResolveError(c.ResolveAll(ps, fuel).error)
    decreases fuel, 3, |ps|
  {
    var front := ps[..|ps| - 1];
    if c.ResolveAll(front, fuel).Failure? {
      ResolveAllErrors(c, front, fuel);
    } else {
      ResolutionErrors(c, ps[|ps| - 1], fuel);
    }
  }

  // -----------------------------------------------------------------------
  // The stack bound

  /** A resolution that did not exhaust the stack gives the same answer with
      any deeper stack. */
  lemma {:induction false} ResolutionFuelMonotone(c: Jinjectsu, t: TypeId, fuel: nat, more: nat)
    requires c.Valid()
    requires fuel <= more
    requires c.Resolution(t, fuel) != Failure(StackOverflow)
    ensures c.Resolution(t, more) == c.Resolution(t, fuel)
    decreases fuel, 2, 0
  {
    if t in c.registrationTypeMap {
      ResolverFuelMonotone(c, c.resolverMap[c.registrationTypeMap[t]], t, fuel, more);
    }
  }

  lemma {:induction false} ResolverFuelMonotone(c: Jinjectsu, resolver: Resolver, t: TypeId, fuel: nat, more: nat)
    requires c.Valid() && c.Holds(resolver, t)
    requires fuel <= more
    requires c.ResolverResolution(resolver, t, fuel) != Failure(StackOverflow)
    ensures c.ResolverResolution(resolver, t, more) == c.ResolverResolution(resolver, t, fuel)
    decreases fuel, 1, 1
  {
    match resolver
    case TransientContainer => ConstructionFuelMonotone(c, c.transients[t], fuel, more);
    case SingletonContainer =>
      if c.singletons[t].ByClass? {
        ConstructionFuelMonotone(c, c.singletons[t].concrete, fuel, more);
      }
    case ScopedContainer =>
      if c.scopes != [] {
        ConstructionFuelMonotone(c, c.scopedTypes[t], fuel, more);
      }
    case _ =>
  }

  lemma {:induction false} ConstructionFuelMonotone(c: Jinjectsu, k: TypeId, fuel: nat, more: nat)
    requires c.Valid()
    requires fuel <= more
    requires c.Construction(k, fuel) != Failure(StackOverflow)
    ensures c.Construction(k, more) == c.Construction(k, fuel)
    decreases fuel, 1, 0
  {
    match c.ConstructorDependencies(k)
    case Failure(_) =>
    case Success(ps) =>
      if |ps| > 0 {
        ResolveAllFuelMonotone(c, ps, fuel - 1, more - 1);
      }
  }

  lemma {:induction false} ResolveAllFuelMonotone(c: Jinjectsu, ps: seq<TypeId>, fuel: nat, more: nat)
    requires c.Valid()
    requires fuel <= more
    requires c.ResolveAll(ps, fuel) != Failure(StackOverflow)
    ensures c.ResolveAll(ps, more) == c.ResolveAll(ps, fuel)
    decreases fuel, 3, |ps|
  {
    if ps != [] {
      var front := ps[..|ps| - 1];
      ResolveAllFuelMonotone(c, front, fuel, more);
      if c.ResolveAll(front, fuel).Success? {
        ResolutionFuelMonotone(c, ps[|ps| - 1], fuel, more);
      }
    }
  }

  // -----------------------------------------------------------------------
  // Injection

  /** The annotated field `f` can be filled: its declared type resolves and
      `field.set` accepts the resolved value. */
  ghost predicate Injectable(c: Jinjectsu, f: Field, fuel: nat)
    reads c
    requires c.Valid()
  {
    c.Resolution(f.declaredType, fuel).Success? &&
    c.reflection.assignable(f.declaredType, c.Resolution(f.declaredType, fuel).value)
  }

  /**
    `inject` writes, in order, one resolved and accepted value into each
    annotated field and skips the others; it completes exactly when every
    annotated field can be filled, and otherwise stops at the first annotated
    field that cannot, reporting its resolution error or, when the value
    resolved but `field.set` rejects it, the field type mismatch.
   */
  lemma {:induction false} InjectionFillsAnnotatedFields(c: Jinjectsu, fields: seq<Field>, fuel: nat)
    requires c.Valid()
    ensures var written := c.Injection(fields, fuel).0;
      var wanted := Annotated(fields);
      && |written| <= |wanted|
      && forall i :: 0 <= i < |written| ==>
           && written[i].field == wanted[i].name
           && c.Resolution(wanted[i].declaredType, fuel) == Success(written[i].value)
           && c.reflection.assignable(wanted[i].declaredType, written[i].value)
    ensures c.Injection(fields, fuel).1.Pass? <==>
      forall i :: 0 <= i < |Annotated(fields)| ==> Injectable(c, Annotated(fields)[i], fuel)
    ensures c.Injection(fields, fuel).1.Pass? ==> |c.Injection(fields, fuel).0| == |Annotated(fields)|
    ensures c.Injection(fields, fuel).1.Fail? ==>
      var n := |c.Injection(fields, fuel).0|;
      && n < |Annotated(fields)|
      && !Injectable(c, Annotated(fields)[n], fuel)
      && var f := Annotated(fields)[n];
         c.Injection(fields, fuel).1.error ==
           match c.Resolution(f.declaredType, fuel)
           case Failure(e) => e
           case Success(_) => FieldTypeMismatch(f.name)
    decreases |fields|
  {
    if fields != [] {
      var front := fields[..|fields| - 1];
      InjectionFillsAnnotatedFields(c, front, fuel);
      var wantedFront := Annotated(front);
      var last := fields[|fields| - 1];
      var wanted := Annotated(fields);
      if last.annotated {
        assert wanted == wantedFront + [last];
        assert forall i :: 0 <= i < |wantedFront| ==> wanted[i] == wantedFront[i];
        assert wanted[|wantedFront|] == last;
        var allFill := forall i :: 0 <= i < |wanted| ==> Injectable(c, wanted[i], fuel);
        var frontFill := forall i :: 0 <= i < |wantedFront| ==> Injectable(c, wantedFront[i], fuel);
        assert allFill <==> frontFill && Injectable(c, last, fuel);
      } else {
        assert wanted == wantedFront;
      }
    }
  }
}
