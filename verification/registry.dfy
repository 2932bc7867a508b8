/** The registry half of `Titan\Container` (src/Container.php): the
    insertion-ordered `bindings` table, the `aliases` table and the
    `instances` singleton cache, with the registration and lookup
    operations. Every operation is a pure transition: a thrown exception is
    a `Failure`, after which the caller still holds the unchanged state. */
module Registry {
  import opened Wrappers
  import opened OrderedTable

  /** The exceptions of the container. The last four are raised while
      resolving (see module Resolver). */
  datatype Error =
    | DuplicateBinding(key: string)
    | DuplicateAlias(key: string)
    | UndefinedKey(key: string)
    | MissingTarget(key: string)   // alias target absent from `bindings`
    | NoBindings                   // alias without target on an empty table
    | ClassNotFound(name: string)  // ReflectionException
    | NotInstantiable(name: string)
    | ConstructorFailed(name: string)
    | OutOfFuel                    // stands for unbounded recursion

  /** An entry `['value' => ..., 'singleton' => ...]` of `bindings` or
      `aliases`. `value` is a class name for `bind` and the stored value
      for `store`. */
  datatype Binding = Binding(value: string, singleton: bool)

  /** Values handed around by the container: objects it constructed (an
      abstract identity, their class and the constructor arguments), the
      container itself, and scalars a caller passes in. */
  datatype Value =
    | Obj(id: nat, cls: string, args: seq<Value>)
    | ContainerRef
    | Scalar(text: string)

  /** The container's three tables, plus the source of fresh object ids. */
  datatype Container = Container(
    bindings: seq<Entry<Binding>>,
    aliases: map<string, Binding>,
    instances: map<string, Value>,
    nextId: nat)

  /** A freshly constructed container: all three tables empty and no
      object constructed yet. */
  function Empty(): (c: Container)
    ensures Wf(c)
    ensures c.bindings == [] && c.aliases == map[] && c.instances == map[] && c.nextId == 0
    ensures forall k :: !IsBinded(c, k) && GetBinding(c, k) == None
  {
    Container([], map[], map[], 0)
  }

  /** What every reachable container satisfies: binding keys are unique and
      every cached instance is an object the container already constructed. */
  predicate Wf(c: Container) {
    && Distinct(c.bindings)
    && forall k :: k in c.instances ==> c.instances[k].Obj? && c.instances[k].id < c.nextId
  }

  /** `isBinded`: only the `bindings` table is consulted. */
  predicate IsBinded(c: Container, k: string) {
    Has(c.bindings, k)
  }

  /** `getBinding`: the `bindings` entry, else the `aliases` entry, else null. */
  function GetBinding(c: Container, k: string): (r: Option<Binding>)
    ensures r.Some? <==> IsBinded(c, k) || k in c.aliases
    ensures IsBinded(c, k) ==> r == Find(c.bindings, k)
    ensures !IsBinded(c, k) && k in c.aliases ==> r == Some(c.aliases[k])
  {
    if !Has(c.bindings, k) then
      if k in c.aliases then Some(c.aliases[k]) else None
    else
      Find(c.bindings, k)
  }

  /** `isSingleton`: the singleton flag of `getBinding`, false when absent. */
  predicate IsSingleton(c: Container, k: string) {
    match GetBinding(c, k)
    case None => false
    case Some(b) => b.singleton
  }

  /** `isSingletonResolved`: the cache holds an instance for `k`. */
  predicate IsSingletonResolved(c: Container, k: string) {
    k in c.instances
  }

  /** `getSingletonInstance`: the cached instance, or null. */
  function GetSingletonInstance(c: Container, k: string): (r: Option<Value>)
    ensures r.Some? <==> IsSingletonResolved(c, k)
    ensures r.Some? ==> r.value == c.instances[k]
  {
    if IsSingletonResolved(c, k) then Some(c.instances[k]) else None
  }

  /** `d` is `c` with one new last binding `k => b` and nothing else
      changed: earlier entries keep their order and values, and the alias
      table, the singleton cache and the id counter are untouched. */
  ghost predicate Appended(c: Container, d: Container, k: string, b: Binding) {
    && |d.bindings| == |c.bindings| + 1
    && d.bindings[..|c.bindings|] == c.bindings
    && d.bindings[|c.bindings|] == Entry(k, b)
    && Find(d.bindings, k) == Some(b)
    && (forall j :: j != k ==> Find(d.bindings, j) == Find(c.bindings, j))
    && d.aliases == c.aliases && d.instances == c.instances && d.nextId == c.nextId
  }

  /** Adds a new last entry to `bindings`. */
  function AddBinding(c: Container, k: string, b: Binding): (d: Container)
    requires !IsBinded(c, k)
    ensures Appended(c, d, k, b)
    ensures Wf(c) ==> Wf(d)
  {
    var d := c.(bindings := c.bindings + [Entry(k, b)]);
    assert d.bindings[..|c.bindings|] == c.bindings;
    FindAppend(c.bindings, Entry(k, b), k);
    assert forall j :: j != k ==> Find(d.bindings, j) == Find(c.bindings, j) by {
      forall j | j != k
        ensures Find(d.bindings, j) == Find(c.bindings, j)
      {
        FindAppend(c.bindings, Entry(k, b), j);
      }
    }
    if Distinct(c.bindings) then AppendDistinct(c.bindings, Entry(k, b)); d else d
  }

  /** `bind($class, $singleton)`: registers `k` to construct class `k`. */
  function Bind(c: Container, k: string, singleton: bool): (r: Result<Container, Error>)
    ensures r.Failure? <==> IsBinded(c, k)
    ensures r.Failure? ==> r.error == DuplicateBinding(k)
    ensures r.Success? ==> Appended(c, r.value, k, Binding(k, singleton))
    ensures r.Success? && Wf(c) ==> Wf(r.value)
  {
    if IsBinded(c, k) then Failure(DuplicateBinding(k))
    else Success(AddBinding(c, k, Binding(k, singleton)))
  }

  /** `store($key, $value)`: registers `k` with a literal value, never
      singleton; shares the namespace of `bind`. */
  function Store(c: Container, k: string, v: string): (r: Result<Container, Error>)
    ensures r.Failure? <==> IsBinded(c, k)
    ensures r.Failure? ==> r.error == DuplicateBinding(k)
    ensures r.Success? ==> Appended(c, r.value, k, Binding(v, false))
    ensures r.Success? && Wf(c) ==> Wf(r.value)
  {
    if IsBinded(c, k) then Failure(DuplicateBinding(k))
    else Success(AddBinding(c, k, Binding(v, false)))
  }

  /** `singleton($class)`: shorthand for `bind($class, true)`. */
  function Singleton(c: Container, k: string): (r: Result<Container, Error>)
    ensures r.Failure? <==> IsBinded(c, k)
    ensures r.Failure? ==> r.error == DuplicateBinding(k)
    ensures r.Success? ==> Appended(c, r.value, k, Binding(k, true)) && IsSingleton(r.value, k)
  {
    Bind(c, k, true)
  }

  /** The key `alias` copies from: the given one, or else the `value` of
      the last inserted binding. */
  function AliasTarget(c: Container, target: Option<string>): (r: Result<string, Error>)
    ensures target.Some? ==> r == Success(target.value)
    ensures target.None? && |c.bindings| == 0 ==> r == Failure(NoBindings)
    ensures target.None? && |c.bindings| > 0 ==> r == Success(Last(c.bindings).val.value)
  {
    match target
    case Some(t) => Success(t)
    case None =>
      if |c.bindings| == 0 then Failure(NoBindings)
      else Success(Last(c.bindings).val.value)
  }

  /** `alias($key, $binding)`: stores under `a` a copy of the `bindings`
      entry of the target (aliases are not searched). */
  function Alias(c: Container, a: string, target: Option<string>): (r: Result<Container, Error>)
    ensures a in c.aliases ==> r == Failure(DuplicateAlias(a))
    ensures a !in c.aliases && AliasTarget(c, target).Failure? ==> r == Failure(NoBindings)
    ensures a !in c.aliases && AliasTarget(c, target).Success? ==>
      var t := AliasTarget(c, target).value;
      && (r.Failure? <==> !IsBinded(c, t))
      && (r.Failure? ==> r.error == MissingTarget(t))
      && (r.Success? ==> r.value == c.(aliases := c.aliases[a := Find(c.bindings, t).value]))
    ensures r.Success? ==> r.value.bindings == c.bindings && r.value.instances == c.instances
    ensures r.Success? && Wf(c) ==> Wf(r.value)
  {
    if a in c.aliases then Failure(DuplicateAlias(a))
    else
      var t :- AliasTarget(c, target);
      match Find(c.bindings, t)
      case None => Failure(MissingTarget(t))
      case Some(b) => Success(c.(aliases := c.aliases[a := b]))
  }

  /** `get($key)`: the stored `value` of a bound key. */
  function Get(c: Container, k: string): (r: Result<string, Error>)
    ensures r.Failure? <==> !IsBinded(c, k)
    ensures r.Failure? ==> r.error == UndefinedKey(k)
    ensures r.Success? ==> Entry(k, Binding(r.value, Find(c.bindings, k).value.singleton)) in c.bindings
  {
    if !IsBinded(c, k) then Failure(UndefinedKey(k))
    else Success(GetBinding(c, k).value.value)
  }

  /** `offsetSet($key, $value)`: binds `k`, the assigned value becoming the
      singleton flag. */
  function OffsetSet(c: Container, k: string, flag: bool): (r: Result<Container, Error>)
    ensures r.Failure? <==> IsBinded(c, k)
    ensures r.Failure? ==> r.error == DuplicateBinding(k)
    ensures r.Success? ==> Appended(c, r.value, k, Binding(k, flag))
    ensures r.Success? ==> OffsetExists(r.value, k) && IsSingleton(r.value, k) == flag
  {
    Bind(c, k, flag)
  }

  /** `offsetExists($key)`: only the `bindings` table is consulted. */
  predicate OffsetExists(c: Container, k: string) {
    Has(c.bindings, k)
  }

  /** `offsetUnset($key)`: drops the `bindings` entry and nothing else. */
  function OffsetUnset(c: Container, k: string): (d: Container)
    ensures !IsBinded(d, k)
    ensures multiset(d.bindings) <= multiset(c.bindings)
    ensures forall j :: j != k ==> Find(d.bindings, j) == Find(c.bindings, j)
    ensures d.aliases == c.aliases && d.instances == c.instances && d.nextId == c.nextId
    ensures Wf(c) ==> Wf(d)
  {
    var d := c.(bindings := Remove(c.bindings, k));
    RemoveSubMultiset(c.bindings, k);
    assert forall j :: j != k ==> Find(d.bindings, j) == Find(c.bindings, j) by {
      forall j | j != k
        ensures Find(d.bindings, j) == Find(c.bindings, j)
      {
        FindRemove(c.bindings, k, j);
      }
    }
    if Distinct(c.bindings) then RemoveDistinct(c.bindings, k); d else d
  }
}
