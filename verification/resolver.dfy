/** The resolution half of `Titan\Container` (src/Container.php): `resolve`,
    `buildObject`, `buildDependencies`, `prepareObject` and `offsetGet`.

    PHP reflection is replaced by a class table `Env.classes`: for each
    class name, whether it is instantiable and its constructor, if any,
    as a list of parameters. Constructing an object draws a fresh id from
    the container's counter, so object identity is equality of ids.

    The source has no cycle detection: a circular constructor dependency
    recurses until the PHP stack is exhausted. Here every nested `resolve`
    spends one unit of `fuel`, and running out is reported as `OutOfFuel`
    rather than being turned into a behaviour of its own. */
module Resolver {
  import opened Wrappers
  import opened OrderedTable
  import opened Registry

  /** A constructor parameter as reflection reports it: `isOptional()`,
      `isArray()`, and the class of its type hint (`getClass()`), absent
      for untyped and scalar-typed parameters. */
  datatype Param = Param(optional: bool, isArray: bool, classType: Option<string>)

  /** A declared constructor; `throws` says its body raises. */
  datatype Ctor = Ctor(params: seq<Param>, throws: bool)

  datatype ClassInfo = ClassInfo(instantiable: bool, ctor: Option<Ctor>)

  /** The classes PHP can see, and `get_class($this)`. */
  datatype Env = Env(classes: map<string, ClassInfo>, selfClass: string)

  /** `get_class($this)` names a loaded class, so the container's own
      class is always in the table. */
  predicate WfEnv(env: Env) {
    env.selfClass in env.classes
  }

  /** The state after a resolution step together with its outcome. The
      state is kept on failure too: a singleton cached by a nested
      resolution stays cached when a later step throws. */
  datatype Resolved<+T> = Resolved(after: Container, outcome: Result<T, Error>)

  /** A parameter `buildDependencies` supplies an argument for: required,
      not an array, and typed with a class. */
  predicate Wired(p: Param) {
    !p.optional && !p.isArray && p.classType.Some?
  }

  /** The class names of the wired parameters, in declaration order. */
  function WiredTypes(params: seq<Param>): (ts: seq<string>)
    ensures |ts| <= |params|
    ensures forall p :: p in params && Wired(p) ==> p.classType.value in ts
  {
    if |params| == 0 then []
    else
      assert forall p :: p in params[1..] ==> p in params;
      (if Wired(params[0]) then [params[0].classType.value] else []) + WiredTypes(params[1..])
  }

  /** The spec `resolve` builds from: `getBinding`, or, for a key known to
      neither table, `['value' => $key, 'singleton' => false]`. */
  function SpecFor(c: Container, key: string): (b: Binding)
    ensures GetBinding(c, key).Some? ==> b == GetBinding(c, key).value
    ensures GetBinding(c, key).None? ==> b == Binding(key, false)
  {
    match GetBinding(c, key)
    case Some(b) => b
    case None => Binding(key, false)
  }

  /** A cached singleton answers the request for `key`. */
  predicate IsHit(c: Container, key: string) {
    IsSingleton(c, key) && IsSingletonResolved(c, key)
  }

  /** Singleton-ness depends on the two registration tables only. */
  lemma SameTablesSameSingletons(c: Container, d: Container)
    requires d.bindings == c.bindings && d.aliases == c.aliases
    ensures forall k :: IsSingleton(c, k) == IsSingleton(d, k)
  {
  }

  /** What resolution may do to the container: `bindings` and `aliases`
      stay as they are, ids are never reused, a cache entry present in
      `c` is neither removed nor overwritten, and new cache entries are
      for singleton keys only. */
  ghost predicate Frame(c: Container, d: Container) {
    && d.bindings == c.bindings
    && d.aliases == c.aliases
    && c.nextId <= d.nextId
    && (forall k :: k in c.instances ==> k in d.instances && d.instances[k] == c.instances[k])
    && (forall k :: k in d.instances && k !in c.instances ==> IsSingleton(c, k))
  }

  lemma FrameTrans(a: Container, b: Container, c: Container)
    requires Frame(a, b) && Frame(b, c)
    ensures Frame(a, c)
  {
  }

  /** `prepareObject`: caches `obj` under `key` when `key` is singleton. */
  function PrepareObject(c: Container, key: string, obj: Value): (d: Container)
    ensures d.bindings == c.bindings && d.aliases == c.aliases && d.nextId == c.nextId
    ensures IsSingleton(c, key) ==> d.instances == c.instances[key := obj]
    ensures !IsSingleton(c, key) ==> d.instances == c.instances
  {
    if IsSingleton(c, key) then c.(instances := c.instances[key := obj]) else c
  }

  /** `newInstance` / `newInstanceArgs`: a new object of class `cls`. */
  function Instantiate(c: Container, cls: string, args: seq<Value>): (r: Resolved<Value>)
    ensures r.outcome.Success? && r.outcome.value.Obj?
    ensures r.outcome.value.id == c.nextId && r.outcome.value.cls == cls && r.outcome.value.args == args
    ensures r.after.nextId == c.nextId + 1
    ensures Frame(c, r.after)
    ensures Wf(c) ==> Wf(r.after)
  {
    Resolved(c.(nextId := c.nextId + 1), Success(Obj(c.nextId, cls, args)))
  }

  /** `resolve($key, $args)`. */
  function Resolve(env: Env, c: Container, key: string, args: seq<Value>, fuel: nat): (r: Resolved<Value>)
    decreases fuel, 2, 0
    ensures Frame(c, r.after)
    ensures Wf(c) ==> Wf(r.after)
    ensures Wf(c) && r.outcome.Success? ==> r.outcome.value.Obj? && r.outcome.value.id < r.after.nextId
    ensures r.outcome.Success? && IsSingleton(c, key) ==>
      key in r.after.instances && r.after.instances[key] == r.outcome.value
    ensures r.outcome.Success? && !IsHit(c, key) ==>
      && r.outcome.value.Obj?
      && r.outcome.value.cls == SpecFor(c, key).value
      && c.nextId <= r.outcome.value.id
      && r.after.nextId == r.outcome.value.id + 1
  {
    var spec := SpecFor(c, key);
    if IsSingleton(c, key) && IsSingletonResolved(c, key) then
      Resolved(c, Success(c.instances[key]))
    else
      var b := BuildObject(env, c, spec, args, fuel);
      if b.outcome.Failure? then b
      else
        SameTablesSameSingletons(c, b.after);
        Resolved(PrepareObject(b.after, key, b.outcome.value), b.outcome)
  }

  /** `buildObject($class, $args)`. */
  function BuildObject(env: Env, c: Container, spec: Binding, args: seq<Value>, fuel: nat): (r: Resolved<Value>)
    decreases fuel, 1, 0
    ensures Frame(c, r.after)
    ensures Wf(c) ==> Wf(r.after)
    ensures spec.value !in env.classes ==> r == Resolved(c, Failure(ClassNotFound(spec.value)))
    ensures spec.value in env.classes && !env.classes[spec.value].instantiable ==>
      r == Resolved(c, Failure(NotInstantiable(spec.value)))
    ensures r.outcome.Success? ==>
      && r.outcome.value.Obj?
      && r.outcome.value.cls == spec.value
      && c.nextId <= r.outcome.value.id
      && r.after.nextId == r.outcome.value.id + 1
  {
    var name := spec.value;
    if name !in env.classes then Resolved(c, Failure(ClassNotFound(name)))
    else
      var info := env.classes[name];
      if !info.instantiable then Resolved(c, Failure(NotInstantiable(name)))
      else
        match info.ctor
        case None => Instantiate(c, name, [])
        case Some(ctor) =>
          var d := BuildDependencies(env, c, args, ctor.params, fuel);
          if d.outcome.Failure? then Resolved(d.after, Failure(d.outcome.error))
          else if ctor.throws then Resolved(d.after, Failure(ConstructorFailed(name)))
          else
            FrameTrans(c, d.after, Instantiate(d.after, name, d.outcome.value).after);
            Instantiate(d.after, name, d.outcome.value)
  }

  /** The argument list `buildDependencies` returns on success: the
      caller's `args` unchanged, then one entry per wired parameter, and
      the container itself wherever the wired type is the container's own
      class. */
  ghost predicate ArgsShape(env: Env, args: seq<Value>, params: seq<Param>, out: seq<Value>) {
    && |out| == |args| + |WiredTypes(params)|
    && out[..|args|] == args
    && forall i :: 0 <= i < |WiredTypes(params)| && WiredTypes(params)[i] == env.selfClass ==>
         out[|args| + i] == ContainerRef
  }

  /** Every appended entry for a type other than the container's own is an
      object constructed before id `bound`. */
  ghost predicate ResolvedArgs(env: Env, args: seq<Value>, params: seq<Param>, out: seq<Value>, bound: nat)
    requires |out| == |args| + |WiredTypes(params)|
  {
    forall i :: 0 <= i < |WiredTypes(params)| && WiredTypes(params)[i] != env.selfClass ==>
      out[|args| + i].Obj? && out[|args| + i].id < bound
  }

  lemma ShapeSkip(env: Env, args: seq<Value>, params: seq<Param>, out: seq<Value>, bound: nat)
    requires |params| > 0 && !Wired(params[0])
    requires ArgsShape(env, args, params[1..], out)
    ensures ArgsShape(env, args, params, out)
    ensures ResolvedArgs(env, args, params[1..], out, bound) ==> ResolvedArgs(env, args, params, out, bound)
  {
  }

  lemma ShapeCons(env: Env, args: seq<Value>, x: Value, params: seq<Param>, out: seq<Value>, bound: nat)
    requires |params| > 0 && Wired(params[0])
    requires params[0].classType.value == env.selfClass ==> x == ContainerRef
    requires ArgsShape(env, args + [x], params[1..], out)
    ensures ArgsShape(env, args, params, out)
    ensures ((params[0].classType.value != env.selfClass ==> x.Obj? && x.id < bound)
             && ResolvedArgs(env, args + [x], params[1..], out, bound))
            ==> ResolvedArgs(env, args, params, out, bound)
  {
  }

  /** `buildDependencies($args, $params)`: appends one argument per wired
      parameter to the caller's `args`. */
  function BuildDependencies(env: Env, c: Container, args: seq<Value>, params: seq<Param>, fuel: nat)
    : (r: Resolved<seq<Value>>)
    decreases fuel, 0, |params|
    ensures Frame(c, r.after)
    ensures Wf(c) ==> Wf(r.after)
    ensures r.outcome.Success? ==> ArgsShape(env, args, params, r.outcome.value)
    ensures r.outcome.Success? && Wf(c) ==> ResolvedArgs(env, args, params, r.outcome.value, r.after.nextId)
  {
    if |params| == 0 then Resolved(c, Success(args))
    else
      var p := params[0];
      if !Wired(p) then
        var r := BuildDependencies(env, c, args, params[1..], fuel);
        if r.outcome.Success? then ShapeSkip(env, args, params, r.outcome.value, r.after.nextId); r else r
      else
        var t := p.classType.value;
        if t !in env.classes then Resolved(c, Failure(ClassNotFound(t)))
        else if t == env.selfClass then
          var r := BuildDependencies(env, c, args + [ContainerRef], params[1..], fuel);
          if r.outcome.Success? then ShapeCons(env, args, ContainerRef, params, r.outcome.value, r.after.nextId); r else r
        else if fuel == 0 then Resolved(c, Failure(OutOfFuel))
        else
          var d := Resolve(env, c, t, [], fuel - 1);
          if d.outcome.Failure? then Resolved(d.after, Failure(d.outcome.error))
          else
            var x := d.outcome.value;
            var r := BuildDependencies(env, d.after, args + [x], params[1..], fuel);
            FrameTrans(c, d.after, r.after);
            if r.outcome.Success? then ShapeCons(env, args, x, params, r.outcome.value, r.after.nextId); r else r
  }

  /** `offsetGet($key)`: `resolve($key)` with no arguments. */
  function OffsetGet(env: Env, c: Container, key: string, fuel: nat): (r: Resolved<Value>)
    ensures r == Resolve(env, c, key, [], fuel)
  {
    Resolve(env, c, key, [], fuel)
  }
}
