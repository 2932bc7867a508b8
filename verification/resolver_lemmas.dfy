/** Properties of `resolve`, `buildObject` and `buildDependencies` of
    `Titan\Container`. */
module ResolverProperties {
  import opened Wrappers
  import opened OrderedTable
  import opened Registry
  import opened Resolver

  /** The class-table entry of a class without a constructor. */
  function Plain(): ClassInfo {
    ClassInfo(true, None)
  }

  /** A required parameter type-hinted with class `t`. */
  function Needs(t: string): Param {
    Param(false, false, Some(t))
  }

  /** Resolving a class without a constructor: one new object with no
      arguments, cached when the key is singleton. */
  lemma PlainResolves(env: Env, c: Container, k: string, args: seq<Value>, fuel: nat)
    requires !IsHit(c, k)
    requires SpecFor(c, k).value in env.classes && env.classes[SpecFor(c, k).value] == Plain()
    ensures var o := Obj(c.nextId, SpecFor(c, k).value, []);
      Resolve(env, c, k, args, fuel) == Resolved(PrepareObject(c.(nextId := c.nextId + 1), k, o), Success(o))
  {
  }

  /** A cached singleton is returned for any arguments and any fuel,
      nothing is constructed and the container is unchanged. */
  lemma SingletonHitIgnoresArgs(env: Env, c: Container, k: string, args: seq<Value>, fuel: nat)
    requires IsSingleton(c, k) && k in c.instances
    ensures Resolve(env, c, k, args, fuel) == Resolved(c, Success(c.instances[k]))
  {
  }

  /** Unless the cache answers, `resolve` returns an object different from
      everything cached before. */
  lemma ResolvedObjectIsFresh(env: Env, c: Container, k: string, args: seq<Value>, fuel: nat)
    requires Wf(c) && !IsHit(c, k)
    requires Resolve(env, c, k, args, fuel).outcome.Success?
    ensures forall j :: j in c.instances ==> c.instances[j] != Resolve(env, c, k, args, fuel).outcome.value
  {
  }

  /** A singleton key: once resolved, a second resolution with any
      arguments returns the identical instance and changes nothing. */
  lemma SingletonIdentity(env: Env, c: Container, k: string, args1: seq<Value>, args2: seq<Value>, f1: nat, f2: nat)
    requires IsSingleton(c, k)
    requires Resolve(env, c, k, args1, f1).outcome.Success?
    ensures var r1 := Resolve(env, c, k, args1, f1);
      Resolve(env, r1.after, k, args2, f2) == r1
  {
    SameTablesSameSingletons(c, Resolve(env, c, k, args1, f1).after);
  }

  /** `prepareObject` followed by `getSingletonInstance`: a singleton key
      then has `obj` cached and counts as a hit; for any other key the
      cache answers as before. */
  lemma PrepareObjectThenLookup(c: Container, key: string, obj: Value, j: string)
    ensures var d := PrepareObject(c, key, obj);
      && (IsSingleton(c, key) ==> GetSingletonInstance(d, key) == Some(obj) && IsHit(d, key))
      && (!IsSingleton(c, key) || j != key ==> GetSingletonInstance(d, j) == GetSingletonInstance(c, j))
  {
  }

  /** After a successful resolution of a singleton key,
      `getSingletonInstance` returns the instance `resolve` returned. */
  lemma ResolvedSingletonIsCached(env: Env, c: Container, k: string, args: seq<Value>, fuel: nat)
    requires IsSingleton(c, k)
    ensures var r := Resolve(env, c, k, args, fuel);
      r.outcome.Success? ==> GetSingletonInstance(r.after, k) == Some(r.outcome.value) && IsHit(r.after, k)
  {
    SameTablesSameSingletons(c, Resolve(env, c, k, args, fuel).after);
  }

  /** `bind(k)` without the singleton flag: two resolutions return two
      distinct instances. */
  lemma NonSingletonDistinct(env: Env, c: Container, k: string, args1: seq<Value>, args2: seq<Value>, f1: nat, f2: nat)
    requires Wf(c) && Bind(c, k, false).Success?
    requires Resolve(env, Bind(c, k, false).value, k, args1, f1).outcome.Success?
    requires Resolve(env, Resolve(env, Bind(c, k, false).value, k, args1, f1).after, k, args2, f2).outcome.Success?
    ensures var r1 := Resolve(env, Bind(c, k, false).value, k, args1, f1);
      Resolve(env, r1.after, k, args2, f2).outcome.value != r1.outcome.value
  {
  }

  /** An alias of a singleton has its own cache entry: resolving the
      original and then the alias yields two instances, each cached under
      the key it was requested by. */
  lemma AliasHasOwnCacheEntry(env: Env, c: Container, k: string, a: string, f1: nat, f2: nat)
    requires Wf(c) && !IsBinded(c, k) && !IsBinded(c, a) && a != k
    requires a !in c.aliases && a !in c.instances && k !in c.instances
    requires k in env.classes && env.classes[k] == Plain()
    ensures var c2 := Alias(Singleton(c, k).value, a, Some(k)).value;
      var r1 := Resolve(env, c2, k, [], f1);
      var r2 := Resolve(env, r1.after, a, [], f2);
      && r1.outcome.Success? && r2.outcome.Success?
      && r1.outcome.value != r2.outcome.value
      && r2.after.instances[k] == r1.outcome.value
      && r2.after.instances[a] == r2.outcome.value
  {
  }

  /** `offsetUnset` leaves the singleton cache alone: after unsetting a
      resolved singleton the key resolves through the fallback to a new
      instance, while the stale instance stays cached. */
  lemma UnsetLeavesStaleSingleton(env: Env, c: Container, k: string, f1: nat, f2: nat)
    requires Wf(c) && !IsBinded(c, k) && k !in c.aliases && k !in c.instances
    requires k in env.classes && env.classes[k] == Plain()
    ensures var r1 := Resolve(env, Singleton(c, k).value, k, [], f1);
      var r2 := Resolve(env, OffsetUnset(r1.after, k), k, [], f2);
      && r1.outcome.Success? && r2.outcome.Success?
      && r2.outcome.value != r1.outcome.value
      && r2.after.instances[k] == r1.outcome.value
  {
  }

  /** A key neither bound nor aliased resolves as a non-singleton binding
      of the class of the same name. A class without a constructor is
      instantiated with no arguments, whatever the caller passed. */
  lemma FallbackConstructs(env: Env, c: Container, k: string, args: seq<Value>, fuel: nat)
    requires !IsBinded(c, k) && k !in c.aliases
    requires k in env.classes && env.classes[k] == Plain()
    ensures Resolve(env, c, k, args, fuel) == Resolved(c.(nextId := c.nextId + 1), Success(Obj(c.nextId, k, [])))
  {
  }

  /** The fallback in general: a key neither bound nor aliased is built
      exactly as the non-singleton spec `['value' => $key, 'singleton' =>
      false]`, for every class and constructor, and nothing is cached
      under `k` (singletons resolved on the way may be). */
  lemma FallbackIsBuildOfOwnName(env: Env, c: Container, k: string, args: seq<Value>, fuel: nat)
    requires !IsBinded(c, k) && k !in c.aliases
    ensures Resolve(env, c, k, args, fuel) == BuildObject(env, c, Binding(k, false), args, fuel)
    ensures k in Resolve(env, c, k, args, fuel).after.instances <==> k in c.instances
  {
  }

  /** The fallback on an unknown class throws the reflection error. */
  lemma FallbackUnknownClass(env: Env, c: Container, k: string, args: seq<Value>, fuel: nat)
    requires !IsBinded(c, k) && k !in c.aliases && k !in env.classes
    ensures Resolve(env, c, k, args, fuel) == Resolved(c, Failure(ClassNotFound(k)))
  {
  }

  /** A spec naming an abstract class or interface throws "not a
      resolvable dependency" and changes nothing. */
  lemma NotInstantiableFails(env: Env, c: Container, k: string, args: seq<Value>, fuel: nat)
    requires !IsHit(c, k)
    requires SpecFor(c, k).value in env.classes && !env.classes[SpecFor(c, k).value].instantiable
    ensures Resolve(env, c, k, args, fuel) == Resolved(c, Failure(NotInstantiable(SpecFor(c, k).value)))
  {
  }

  /** A stored value is not returned as is: `resolve` tries to construct a
      class of that name, and throws when there is none. */
  lemma StoredValueIsConstructed(env: Env, c: Container, k: string, v: string, args: seq<Value>, fuel: nat)
    requires !IsBinded(c, k)
    ensures var c1 := Store(c, k, v).value;
      && (v !in env.classes ==> Resolve(env, c1, k, args, fuel) == Resolved(c1, Failure(ClassNotFound(v))))
      && (v in env.classes && env.classes[v] == Plain() ==>
            Resolve(env, c1, k, args, fuel).outcome == Success(Obj(c1.nextId, v, [])))
  {
  }

  /** Parameters that are optional, arrays or without a class type get no
      argument: `buildDependencies` then returns the caller's arguments and
      changes nothing. */
  lemma {:induction false} NoWiredParams(env: Env, c: Container, args: seq<Value>, params: seq<Param>, fuel: nat)
    requires forall i :: 0 <= i < |params| ==> !Wired(params[i])
    ensures BuildDependencies(env, c, args, params, fuel) == Resolved(c, Success(args))
    decreases |params|
  {
    if |params| > 0 {
      NoWiredParams(env, c, args, params[1..], fuel);
    }
  }

  /** With a constructor none of whose parameters is wired, the object is
      built from exactly the caller's arguments. */
  lemma UnwiredConstructorTakesCallerArgs(env: Env, c: Container, k: string, params: seq<Param>, args: seq<Value>, fuel: nat)
    requires !IsBinded(c, k) && k !in c.aliases
    requires k in env.classes && env.classes[k] == ClassInfo(true, Some(Ctor(params, false)))
    requires forall i :: 0 <= i < |params| ==> !Wired(params[i])
    ensures Resolve(env, c, k, args, fuel) == Resolved(c.(nextId := c.nextId + 1), Success(Obj(c.nextId, k, args)))
  {
    NoWiredParams(env, c, args, params, fuel);
  }

  /** A constructor that throws makes `resolve` throw, and nothing is
      cached under the requested key. */
  lemma ConstructorFailurePropagates(env: Env, c: Container, k: string, params: seq<Param>, args: seq<Value>, fuel: nat)
    requires !IsHit(c, k) && k !in c.instances && SpecFor(c, k).value == k
    requires k in env.classes && env.classes[k] == ClassInfo(true, Some(Ctor(params, true)))
    requires forall i :: 0 <= i < |params| ==> !Wired(params[i])
    ensures Resolve(env, c, k, args, fuel) == Resolved(c, Failure(ConstructorFailed(k)))
  {
    NoWiredParams(env, c, args, params, fuel);
  }

  /** The spec of a key depends on the two registration tables only. */
  lemma SameTablesSameSpec(c: Container, d: Container, key: string)
    requires d.bindings == c.bindings && d.aliases == c.aliases
    ensures SpecFor(d, key) == SpecFor(c, key)
  {
  }

  /** The class table says the constructor of `cls` is reached and throws. */
  predicate Throws(env: Env, cls: string) {
    && cls in env.classes && env.classes[cls].instantiable
    && env.classes[cls].ctor.Some? && env.classes[cls].ctor.value.throws
  }

  /** `buildObject` on a class whose constructor throws always throws: the
      error of a dependency if one fails, otherwise the constructor's own,
      after the dependencies were built. */
  lemma ThrowingConstructorFails(env: Env, c: Container, spec: Binding, args: seq<Value>, fuel: nat)
    requires Throws(env, spec.value)
    ensures var r := BuildObject(env, c, spec, args, fuel);
      var d := BuildDependencies(env, c, args, env.classes[spec.value].ctor.value.params, fuel);
      && r.outcome.Failure?
      && r.after == d.after
      && (d.outcome.Success? ==> r.outcome.error == ConstructorFailed(spec.value))
      && (d.outcome.Failure? ==> r.outcome.error == d.outcome.error)
  {
  }

  /** Whatever is resolved, a key whose spec class has a throwing
      constructor never gets a cache entry, and resolving that key itself
      always throws; singletons cached by nested resolutions on the way
      stay cached. */
  lemma {:induction false} ThrowingKeyNeverCached(env: Env, c: Container, key: string, k: string, args: seq<Value>,
                                                  fuel: nat)
    requires Throws(env, SpecFor(c, key).value) && key !in c.instances
    ensures key !in Resolve(env, c, k, args, fuel).after.instances
    ensures k == key ==> Resolve(env, c, k, args, fuel).outcome.Failure?
    decreases fuel, 2, 0, 0
  {
    if !IsHit(c, k) {
      BuildObjectKeepsThrowingUncached(env, c, key, SpecFor(c, k), args, fuel);
    }
  }

  lemma {:induction false} BuildObjectKeepsThrowingUncached(env: Env, c: Container, key: string, spec: Binding,
                                                            args: seq<Value>, fuel: nat)
    requires Throws(env, SpecFor(c, key).value) && key !in c.instances
    ensures key !in BuildObject(env, c, spec, args, fuel).after.instances
    decreases fuel, 1, 0, 0
  {
    if spec.value in env.classes && env.classes[spec.value].instantiable && env.classes[spec.value].ctor.Some? {
      BuildDependenciesKeepsThrowingUncached(env, c, key, args, env.classes[spec.value].ctor.value.params, fuel);
    }
  }

  lemma {:induction false} BuildDependenciesKeepsThrowingUncached(env: Env, c: Container, key: string,
                                                                  args: seq<Value>, params: seq<Param>, fuel: nat)
    requires Throws(env, SpecFor(c, key).value) && key !in c.instances
    ensures key !in BuildDependencies(env, c, args, params, fuel).after.instances
    decreases fuel, 0, |params|, 1
  {
    if |params| > 0 {
      var p := params[0];
      if !Wired(p) {
        BuildDependenciesKeepsThrowingUncached(env, c, key, args, params[1..], fuel);
      } else if p.classType.value in env.classes && p.classType.value == env.selfClass {
        BuildDependenciesKeepsThrowingUncached(env, c, key, args + [ContainerRef], params[1..], fuel);
      } else if p.classType.value in env.classes && fuel > 0 {
        NestedResolveKeepsThrowingUncached(env, c, key, args, params, fuel);
      }
    }
  }

  /** The step of `buildDependencies` that resolves a dependency. */
  lemma {:induction false} NestedResolveKeepsThrowingUncached(env: Env, c: Container, key: string,
                                                              args: seq<Value>, params: seq<Param>, fuel: nat)
    requires Throws(env, SpecFor(c, key).value) && key !in c.instances
    requires |params| > 0 && Wired(params[0]) && fuel > 0
    requires params[0].classType.value in env.classes && params[0].classType.value != env.selfClass
    ensures key !in BuildDependencies(env, c, args, params, fuel).after.instances
    decreases fuel, 0, |params|, 0
  {
    var t := params[0].classType.value;
    var d := Resolve(env, c, t, [], fuel - 1);
    ThrowingKeyNeverCached(env, c, key, t, [], fuel - 1);
    if d.outcome.Success? {
      SameTablesSameSpec(c, d.after, key);
      var x := d.outcome.value;
      BuildDependenciesKeepsThrowingUncached(env, d.after, key, args + [x], params[1..], fuel);
      assert BuildDependencies(env, c, args, params, fuel).after
          == BuildDependencies(env, d.after, args + [x], params[1..], fuel).after;
    }
  }

  /** Self-injection: a parameter typed with the container's own class
      receives the container itself, appended after the caller's
      arguments. */
  lemma SelfInjection(env: Env, c: Container, k: string, args: seq<Value>, fuel: nat)
    requires !IsBinded(c, k) && k !in c.aliases
    requires WfEnv(env)
    requires k in env.classes && env.classes[k] == ClassInfo(true, Some(Ctor([Needs(env.selfClass)], false)))
    ensures Resolve(env, c, k, args, fuel)
         == Resolved(c.(nextId := c.nextId + 1), Success(Obj(c.nextId, k, args + [ContainerRef])))
  {
    var ps := [Needs(env.selfClass)];
    assert ps[1..] == [];
    assert BuildDependencies(env, c, args, ps, fuel) == Resolved(c, Success(args + [ContainerRef]));
    assert BuildObject(env, c, Binding(k, false), args, fuel) == Instantiate(c, k, args + [ContainerRef]);
  }

  /** Any other class-typed parameter receives `resolve(type)` with no
      arguments, appended after the caller's arguments, computed one unit
      of fuel deeper; when that resolution throws, its error propagates. */
  lemma DependencyIsResolved(env: Env, c: Container, k: string, t: string, args: seq<Value>, fuel: nat)
    requires !IsHit(c, k) && SpecFor(c, k).value == k
    requires t in env.classes && t != env.selfClass && fuel > 0
    requires k in env.classes && env.classes[k] == ClassInfo(true, Some(Ctor([Needs(t)], false)))
    ensures var d := Resolve(env, c, t, [], fuel - 1);
      && (d.outcome.Success? ==>
            Resolve(env, c, k, args, fuel).outcome == Success(Obj(d.after.nextId, k, args + [d.outcome.value])))
      && (d.outcome.Failure? ==> Resolve(env, c, k, args, fuel).outcome == Failure(d.outcome.error))
  {
    var ps := [Needs(t)];
    assert ps[1..] == [];
    var d := Resolve(env, c, t, [], fuel - 1);
    if d.outcome.Success? {
      var x := d.outcome.value;
      assert BuildDependencies(env, d.after, args + [x], ps[1..], fuel) == Resolved(d.after, Success(args + [x]));
      assert BuildDependencies(env, c, args, ps, fuel) == Resolved(d.after, Success(args + [x]));
      assert BuildObject(env, c, SpecFor(c, k), args, fuel) == Instantiate(d.after, k, args + [x]);
    } else {
      assert BuildDependencies(env, c, args, ps, fuel) == Resolved(d.after, Failure(d.outcome.error));
    }
  }

  /** On success the constructor receives the caller's arguments followed
      by one value per wired parameter: the container for its own class,
      a constructed object for every other class. */
  lemma ConstructorArguments(env: Env, c: Container, k: string, params: seq<Param>, th: bool, args: seq<Value>, fuel: nat)
    requires Wf(c) && !IsHit(c, k) && SpecFor(c, k).value == k
    requires k in env.classes && env.classes[k] == ClassInfo(true, Some(Ctor(params, th)))
    requires Resolve(env, c, k, args, fuel).outcome.Success?
    ensures var v := Resolve(env, c, k, args, fuel).outcome.value;
      && v.Obj? && |v.args| == |args| + |WiredTypes(params)| && v.args[..|args|] == args
      && forall i :: 0 <= i < |WiredTypes(params)| ==>
           (v.args[|args| + i] == ContainerRef <==> WiredTypes(params)[i] == env.selfClass)
  {
  }

  /** No cycle detection: a key that resolves to its own class, is not
      cached, and whose constructor's only parameter is that class never
      resolves, however much fuel is given; no instance is produced and the
      container is unchanged. */
  lemma {:induction false} SelfCycleNeverResolves(env: Env, c: Container, k: string, th: bool, args: seq<Value>, fuel: nat)
    requires !IsHit(c, k) && SpecFor(c, k).value == k && k != env.selfClass
    requires k in env.classes && env.classes[k] == ClassInfo(true, Some(Ctor([Needs(k)], th)))
    ensures Resolve(env, c, k, args, fuel) == Resolved(c, Failure(OutOfFuel))
    decreases fuel
  {
    var ps := [Needs(k)];
    if fuel > 0 {
      SelfCycleNeverResolves(env, c, k, th, [], fuel - 1);
    }
    assert BuildDependencies(env, c, args, ps, fuel) == Resolved(c, Failure(OutOfFuel));
    assert BuildObject(env, c, SpecFor(c, k), args, fuel) == Resolved(c, Failure(OutOfFuel));
  }

  /** The same for two keys that each resolve to their own class, are not
      cached, and whose constructors' only parameter is the other class
      (A needs B, B needs A). */
  lemma {:induction false} MutualCycleNeverResolves(env: Env, c: Container, a: string, b: string, ta: bool, tb: bool,
                                                    args: seq<Value>, fuel: nat)
    requires !IsHit(c, a) && SpecFor(c, a).value == a && a != env.selfClass
    requires !IsHit(c, b) && SpecFor(c, b).value == b && b != env.selfClass
    requires a in env.classes && env.classes[a] == ClassInfo(true, Some(Ctor([Needs(b)], ta)))
    requires b in env.classes && env.classes[b] == ClassInfo(true, Some(Ctor([Needs(a)], tb)))
    ensures Resolve(env, c, a, args, fuel) == Resolved(c, Failure(OutOfFuel))
    ensures Resolve(env, c, b, args, fuel) == Resolved(c, Failure(OutOfFuel))
    decreases fuel
  {
    var pa := [Needs(b)];
    var pb := [Needs(a)];
    if fuel > 0 {
      MutualCycleNeverResolves(env, c, a, b, ta, tb, [], fuel - 1);
    }
    assert BuildDependencies(env, c, args, pa, fuel) == Resolved(c, Failure(OutOfFuel));
    assert BuildObject(env, c, SpecFor(c, a), args, fuel) == Resolved(c, Failure(OutOfFuel));
    assert BuildDependencies(env, c, args, pb, fuel) == Resolved(c, Failure(OutOfFuel));
    assert BuildObject(env, c, SpecFor(c, b), args, fuel) == Resolved(c, Failure(OutOfFuel));
  }

  /** Fuel only bounds the recursion: a resolution that did not run out
      gives the same answer and the same container with more fuel. */
  lemma {:induction false} ResolveFuelMonotone(env: Env, c: Container, k: string, args: seq<Value>, f: nat, g: nat)
    requires f <= g && Resolve(env, c, k, args, f).outcome != Failure(OutOfFuel)
    ensures Resolve(env, c, k, args, g) == Resolve(env, c, k, args, f)
    decreases f, 2, 0
  {
    if !IsHit(c, k) {
      BuildObjectFuelMonotone(env, c, SpecFor(c, k), args, f, g);
    }
  }

  lemma {:induction false} BuildObjectFuelMonotone(env: Env, c: Container, spec: Binding, args: seq<Value>, f: nat, g: nat)
    requires f <= g && BuildObject(env, c, spec, args, f).outcome != Failure(OutOfFuel)
    ensures BuildObject(env, c, spec, args, g) == BuildObject(env, c, spec, args, f)
    decreases f, 1, 0
  {
    if spec.value in env.classes && env.classes[spec.value].instantiable && env.classes[spec.value].ctor.Some? {
      BuildDependenciesFuelMonotone(env, c, args, env.classes[spec.value].ctor.value.params, f, g);
    }
  }

  lemma {:induction false} BuildDependenciesFuelMonotone(env: Env, c: Container, args: seq<Value>, params: seq<Param>,
                                                         f: nat, g: nat)
    requires f <= g && BuildDependencies(env, c, args, params, f).outcome != Failure(OutOfFuel)
    ensures BuildDependencies(env, c, args, params, g) == BuildDependencies(env, c, args, params, f)
    decreases f, 0, |params|
  {
    if |params| > 0 {
      var p := params[0];
      if !Wired(p) {
        BuildDependenciesFuelMonotone(env, c, args, params[1..], f, g);
      } else {
        var t := p.classType.value;
        if t in env.classes && t == env.selfClass {
          BuildDependenciesFuelMonotone(env, c, args + [ContainerRef], params[1..], f, g);
        } else if t in env.classes {
          var d := Resolve(env, c, t, [], f - 1);
          ResolveFuelMonotone(env, c, t, [], f - 1, g - 1);
          if d.outcome.Success? {
            BuildDependenciesFuelMonotone(env, d.after, args + [d.outcome.value], params[1..], f, g);
          }
        }
      }
    }
  }
}
