# titan-container in Dafny

A model of `Titan\Container` (src/Container.php), a small dependency-injection
container for PHP, with proofs about it. The container keeps three tables:

- `bindings`: an insertion-ordered table from key to `{value, singleton}`. It
  is filled by `bind`, `singleton`, `store` and `offsetSet`.
- `aliases`: snapshot copies of binding entries, made by `alias`.
- `instances`: the singleton cache.

On top of these tables, `resolve` looks a key up, returns a cached singleton
or builds an object, and auto-wires constructor parameters by resolving their
class types recursively.

The model is functional. `Registry.Container` is an immutable record holding
the three tables and a counter for fresh object ids. Every public and
internal method of the class is a pure function:

- A thrown exception is a `Failure`.
- The registration operations return `Result<Container, Error>`. On failure
  the caller keeps the old container, as PHP does after the exception.
- Resolution returns `Resolved(after, outcome)`. The container is returned on
  failure too, because a singleton cached by a nested resolution stays cached
  when a later step throws.

Files:

- `wrappers.dfy`: `Option` (PHP `null`) and `Result` (exceptions).
- `ordered_table.dfy`: the PHP-array behaviour `bindings` relies on. This
  covers lookup, appending a new key at the end, `unset`, and `end()`.
- `registry.dfy`: the state, `bind`, `store`, `singleton`, `alias`,
  `isBinded`, `get`, `getBinding`, `isSingleton`, `isSingletonResolved`,
  `getSingletonInstance`, `offsetSet`, `offsetExists` and `offsetUnset`.
- `resolver.dfy`: `resolve`, `buildObject`, `buildDependencies`,
  `prepareObject` and `offsetGet`, over an abstract class table.
- `registry_lemmas.dfy`: properties of the registration operations and of
  arbitrary sequences of container calls (`Run`).
- `resolver_lemmas.dfy`: properties of resolution.

Reflection is replaced by `Resolver.Env`:

- `classes` maps each class name to `ClassInfo`.
  - `instantiable` stands for `isInstantiable()`.
  - The optional constructor holds a parameter list. Each parameter records
    `isOptional()`, `isArray()` and the class named by `getClass()`.
  - A constructor also carries a flag saying whether its body throws.
- `selfClass` is `get_class($this)`. `Resolver.WfEnv` records that it names a
  class in the table, as a loaded PHP class always does.

A class missing from the table makes `new ReflectionClass` throw
(`ClassNotFound`). So does `getClass()` on a parameter whose type names such a
class. Constructing an object takes the next id from the counter, so "the same
instance" means equal ids.

`resolve` has no cycle detection. A circular constructor dependency recurses
until PHP runs out of stack. In the model, every nested `resolve` started by
`buildDependencies` spends one unit of `fuel`, and running out is reported as
`OutOfFuel`. Two cycle shapes are shown never to yield an instance, however
much fuel is given. In both, each key resolves to the class of its own name,
is not cached, and has a constructor whose only parameter names the next
class of the cycle:

- `ResolverProperties.SelfCycleNeverResolves` covers a class needing itself;
- `ResolverProperties.MutualCycleNeverResolves` covers two classes needing each
  other.

Other shapes can behave differently. A constructor with a further parameter may
cache a singleton before the cycle runs out of fuel. A binding may redirect one
key of the cycle to a class outside it, and then the cycle resolves.
`ResolverProperties.ResolveFuelMonotone` shows that fuel only bounds the recursion: a result that did not run out stays
the same with more fuel.

Behaviour that a reader of the container's documentation might not expect:

- `resolve` always tries to construct unless the singleton cache answers. A
  key registered with `store(k, v)` therefore makes `resolve(k)` build class
  `v`, or throw if there is none. The value is not handed back
  (`ResolverProperties.StoredValueIsConstructed`).
- Arguments passed to `resolve` are not matched against constructor
  parameters. Wired dependencies are always appended after them.
- `alias` without a target uses the `value` of the last binding, not its key.
  After `store(k, v)` this means `v` (`RegistryProperties.AliasDefaultUsesStoredValue`).

## Model

| member | source | states |
|---|---|---|
| OrderedTable.FindAppend | src/Container.php:37-40 | assigning a new key to a PHP array adds it as the last entry: earlier lookups are unchanged and the new key finds its value |
| OrderedTable.Remove | src/Container.php:285 | `unset` drops every entry with the key, keeps every other entry, and keeps only entries of the table |
| OrderedTable.RemoveSubMultiset | src/Container.php:285 | the result of `unset` is a sub-multiset of the table, so no entry is added or duplicated |
| OrderedTable.RemoveSnoc | src/Container.php:285 | `unset` keeps the order of the surviving entries: the last entry is dropped exactly when it has the key, and otherwise stays last behind what remains of the rest |
| OrderedTable.FindRemove | src/Container.php:285 | after `unset`, the removed key finds nothing and every other key finds what it found before |
| OrderedTable.RemoveLast | src/Container.php:84 | `end()` after `unset`: unsetting a key other than the last keeps the last entry; unsetting the last key of a table with unique keys leaves the table without its last entry |
| Registry.Empty | src/Container.php:14-24 | a new container has no bindings, no aliases, an empty cache and no constructed object, no key is bound or found by `getBinding`, and it is well formed |
| Registry.GetBinding | src/Container.php:243-250 | the `bindings` entry when the key is bound, else the `aliases` entry, else null; `RegistryProperties.BindingShadowsAlias` shows the precedence across bind and unset |
| Registry.GetSingletonInstance | src/Container.php:234-237 | returns a value exactly when the cache has the key, and then the cached instance; `ResolverProperties.ResolvedSingletonIsCached` connects it to `resolve` |
| Registry.Bind | src/Container.php:31-43 | throws DuplicateBinding exactly when the key is already in `bindings`; otherwise `{value: k, singleton: s}` becomes the new last entry, every other key's lookup is unchanged, aliases, cache and counter are untouched, and keys stay unique |
| Registry.Store | src/Container.php:50-60 | same failure rule as bind (one shared namespace); otherwise `{value: v, singleton: false}` is appended as the last entry and nothing else changes |
| Registry.Singleton | src/Container.php:67-70 | behaves as `bind(k, true)`: throws DuplicateBinding exactly when `k` is bound, otherwise appends `{value: k, singleton: true}` as the last entry, changes nothing else, and makes `k` a singleton key |
| Registry.AliasTarget | src/Container.php:83-85 | an omitted target is the `value` of the last inserted binding; on an empty table there is no target |
| Registry.Alias | src/Container.php:77-88 | throws DuplicateAlias when the alias key exists; fails when the target is not in `bindings` (aliases are not searched); otherwise adds a copy of the target's binding under the alias key, leaving bindings and cache alone |
| Registry.Get | src/Container.php:103-110 | throws UndefinedKey exactly when the key is not in `bindings`; otherwise returns the `value` of its entry |
| Registry.OffsetSet | src/Container.php:266-269 | binds rather than stores: same failure rule as `bind`, otherwise appends `{value: k, singleton: flag}`, after which `offsetExists(k)` holds and the key is singleton exactly when the assigned flag is true |
| Registry.OffsetUnset | src/Container.php:283-286 | removes the key from `bindings` only and adds no entry; every other key's lookup, the aliases and the cache are unchanged; keys stay unique |
| RegistryProperties.UnsetThenAliasDefault | src/Container.php:84 | after `offsetUnset(k)`, an untargeted `alias` still targets the same last binding unless `k` was the last key; then it targets the binding before it, or fails when none is left |
| Resolver.Resolve | src/Container.php:118-136 | never changes bindings or aliases; never reuses ids; cache entries are added only for singleton keys, and an entry that existed when the call started is never removed or overwritten (with `RegistryProperties.CacheEntryPersists`: once a call has returned, a cache entry is never changed by a later call); on success a singleton key is cached with the returned object; without a cache hit the result is a new object of the spec's class, the last one constructed |
| Resolver.BuildObject | src/Container.php:144-163 | a missing class throws the reflection error and a non-instantiable one "not a resolvable dependency", both changing nothing; success yields a new object of the spec's class |
| Resolver.BuildDependencies | src/Container.php:171-190 | on success the list is the caller's args followed by one entry per wired parameter in order; exactly the entries for the container's own class are the container, the others are constructed objects |
| Resolver.PrepareObject | src/Container.php:197-204 | caches the object under the key exactly when the key is singleton, and changes nothing else; `ResolverProperties.PrepareObjectThenLookup` shows what `getSingletonInstance` then returns |
| Resolver.OffsetGet | src/Container.php:257-260 | is `resolve(key)` with no arguments |
| RegistryProperties.RunPreservesWf | src/Container.php:31-60 | under any sequence of container calls, binding keys stay unique and the cache holds only objects already constructed |
| RegistryProperties.BindThenDuplicate | src/Container.php:94-97 | after `bind(k)`, `isBinded(k)` and `offsetExists(k)` hold and a second `bind` or `store` of `k` throws DuplicateBinding |
| RegistryProperties.BindStoreThenGet | src/Container.php:37-40 | `get(k)` after `bind(k)` is `k`; after `store(k, v)` it is `v` |
| RegistryProperties.SingletonMarksKey | src/Container.php:210-219 | after `singleton(k)`, `isSingleton(k)` holds and `get(k)` is `k` |
| RegistryProperties.AliasDefaultsToLastBinding | src/Container.php:83-87 | after `bind(x)` then `bind(y)`, `alias(a)` is `alias(a, y)` and stores a copy of y's binding |
| RegistryProperties.AliasDefaultUsesStoredValue | src/Container.php:84 | after `store(k, v)`, `alias(a)` targets the value `v`, and fails when `v` is not bound |
| RegistryProperties.AliasOfAliasFails | src/Container.php:87 | a key present only as an alias cannot be aliased again |
| RegistryProperties.AliasSnapshotPersists | src/Container.php:87 | an alias entry is unchanged by any later sequence of bind, store, alias, unset and resolve calls |
| RegistryProperties.CacheEntryPersists | src/Container.php:197-204 | a cached instance is unchanged by any later sequence of bind, store, alias, unset and resolve calls |
| RegistryProperties.AliasSnapshotIsWhatLookupSees | src/Container.php:243-250 | as long as the alias key is never bound, `getBinding` of it returns the copy taken when the alias was made, whatever happens to the original binding |
| RegistryProperties.BindingShadowsAlias | src/Container.php:243-250 | `isBinded`, `offsetExists` and `get` ignore aliases while `getBinding` falls back to them; binding the alias key shadows the alias, and unsetting it uncovers the alias again |
| ResolverProperties.PlainResolves | src/Container.php:159-162 | a class without a constructor is instantiated with no arguments, whatever the caller passed, and cached if the key is singleton |
| ResolverProperties.SingletonHitIgnoresArgs | src/Container.php:129-131 | a singleton key with a cached instance returns it for any args, building nothing and changing nothing |
| ResolverProperties.ResolvedObjectIsFresh | src/Container.php:133-135 | without a cache hit, the result differs from every previously cached instance |
| ResolverProperties.SingletonIdentity | src/Container.php:197-204 | for a singleton key, once one resolution succeeds, a second with any args returns the identical instance and changes nothing |
| ResolverProperties.PrepareObjectThenLookup | src/Container.php:197-204 | after `prepareObject` on a singleton key, `getSingletonInstance` returns the object and the key is a cache hit; every other lookup is unchanged |
| ResolverProperties.ResolvedSingletonIsCached | src/Container.php:133-135 | after a successful resolution of a singleton key, `getSingletonInstance` returns the resolved instance |
| ResolverProperties.NonSingletonDistinct | src/Container.php:133-135 | after `bind(k)`, two resolutions return two distinct instances |
| ResolverProperties.AliasHasOwnCacheEntry | src/Container.php:199-201 | the cache is keyed by the requested key: an alias of a singleton and the original resolve to two instances, each cached under its own key |
| ResolverProperties.UnsetLeavesStaleSingleton | src/Container.php:283-286 | after unsetting a resolved singleton, the key resolves to a new instance through the fallback, while the stale instance stays cached |
| ResolverProperties.FallbackIsBuildOfOwnName | src/Container.php:120-127 | a key in neither table resolves exactly as `buildObject` of the non-singleton spec naming the key itself, for every class, and is not cached |
| ResolverProperties.FallbackConstructs | src/Container.php:120-127 | for a class without a constructor, the fallback builds one new object of the key's class with no arguments and caches nothing |
| ResolverProperties.FallbackUnknownClass | src/Container.php:146-148 | the fallback on a name that is no class throws the reflection error and changes nothing |
| ResolverProperties.NotInstantiableFails | src/Container.php:150-152 | an abstract class or interface throws "not a resolvable dependency" and changes nothing |
| ResolverProperties.StoredValueIsConstructed | src/Container.php:133 | resolving a `store`d key constructs the class named by the value, or throws when there is none; the value is never returned as is |
| ResolverProperties.NoWiredParams | src/Container.php:173-179 | optional, array-typed and class-less parameters contribute nothing: the caller's args come back and the container is unchanged |
| ResolverProperties.UnwiredConstructorTakesCallerArgs | src/Container.php:154-159 | a constructor with no wired parameter receives exactly the caller's args |
| ResolverProperties.ThrowingConstructorFails | src/Container.php:154-159 | `buildObject` on a class whose constructor throws always throws: a failing dependency's error, otherwise the constructor's own after the dependencies were built |
| ResolverProperties.ThrowingKeyNeverCached | src/Container.php:118-136 | resolving a key that is not cached and whose class has a throwing constructor always throws, and no resolution of any key then caches it; singletons cached by nested resolutions stay cached |
| ResolverProperties.ConstructorFailurePropagates | src/Container.php:159 | for a constructor without wired parameters, its exception propagates and the container is unchanged, so nothing is cached under the requested key |
| ResolverProperties.SelfInjection | src/Container.php:181-184 | a parameter typed with the container's own class receives the container itself, after the caller's args |
| ResolverProperties.DependencyIsResolved | src/Container.php:186 | for a one-parameter constructor, a parameter typed with any other class receives `resolve(type)` with no args, after the caller's args; when that nested resolution throws, its error is what `resolve` throws |
| ResolverProperties.ConstructorArguments | src/Container.php:171-190 | a constructed object's arguments are the caller's args followed by one per wired parameter; an entry is the container exactly when its type is the container's class |
| ResolverProperties.SelfCycleNeverResolves | src/Container.php:186 | a key that resolves to its own class, is not cached, and whose constructor's only parameter is that class never yields an instance, for any fuel, and leaves the container unchanged |
| ResolverProperties.MutualCycleNeverResolves | src/Container.php:186 | two keys that each resolve to their own class, are not cached, and whose constructors' only parameter is the other class never yield an instance, for any fuel, and leave the container unchanged |
| ResolverProperties.ResolveFuelMonotone | src/Container.php:118-136 | a resolution that did not run out of fuel gives the same outcome and container with more fuel |
| ResolverProperties.BuildObjectFuelMonotone | src/Container.php:144-163 | the same for `buildObject` |
| ResolverProperties.BuildDependenciesFuelMonotone | src/Container.php:171-190 | the same for `buildDependencies` |

## Left out

- PHP reflection (`ReflectionClass`, `getConstructor`, `getParameters`, `getClass`, `newInstanceArgs`) is replaced by the class table described above. Constructor bodies are foreign code. Only whether one throws is modelled, and they are taken not to call back into the container: a self-injected constructor receives the container (src/Container.php:181-184) and could bind, unset or resolve during a resolution, which would break the rule that resolution leaves `bindings` and `aliases` alone.
- The arguments a constructor receives are not checked against its declared parameters. A PHP `ArgumentCountError` or `TypeError` raised by `newInstanceArgs` is therefore not modelled, for example when a required scalar parameter is skipped.
- `alias` with a target missing from `bindings`, or with no target and no bindings, raises a PHP notice and stores `null` under the alias key. The model fails with `MissingTarget` or `NoBindings` instead and stores nothing.
- `offsetSet` passes an arbitrary value as the singleton flag. Here the flag is a `bool`. Stored values are strings, and `get`'s `string` return-type coercion is not modelled.
- PHP converts integer-like string keys to integers. Class names are compared exactly, although PHP compares them case-insensitively.
- Unbounded recursion on a constructor cycle is cut off by `fuel` (`OutOfFuel`). Stack exhaustion itself is not modelled.
- Constructor cycles through three or more classes, or whose constructors take further parameters, are not proved to fail. Only the one- and two-class shapes described above are.
- The `ArrayAccess` interface plumbing is left out. Only the bodies of the four `offset*` methods are modelled.
- Exception message texts are left out. Each exception is an `Error` constructor.
- Resolver.BuildDependencies: its contract gives the shape of the argument list and where the container is injected. That each other entry is the result of the matching nested `resolve` is proved only for a one-parameter constructor (`ResolverProperties.DependencyIsResolved`).
- Resolver.Resolve: two facts about a single call are not proved in general. The first is that a failing resolution leaves the requested key uncached. The second is that no nested resolution writes the requested key before the outer `prepareObject` does. Either would need a nested resolution of the same key to succeed inside its own construction, and that takes a constructor cycle. A cycle is shown never to succeed only in the one- and two-class shapes of `ResolverProperties.SelfCycleNeverResolves` and `ResolverProperties.MutualCycleNeverResolves`. Stating this for cycles through any number of classes needs an induction over the stack of keys under construction, which the model does not carry. Proved special cases: `ResolverProperties.ThrowingKeyNeverCached`, and the immediate ClassNotFound and NotInstantiable failures of `Resolver.BuildObject`.
- DependencyIsResolved: shown for a one-parameter constructor only. With several parameters each nested `resolve` starts from the container the previous one left, and the general statement is not proved.
