/** Properties of the registration operations of `Titan\Container`, and of
    arbitrary sequences of them. */
module RegistryProperties {
  import opened Wrappers
  import opened OrderedTable
  import opened Registry
  import opened Resolver

  /** One call a program makes on the container. A call that throws leaves
      the container as it was. */
  datatype Op =
    | BindOp(key: string, singleton: bool)
    | StoreOp(key: string, value: string)
    | AliasOp(alias: string, target: Option<string>)
    | UnsetOp(key: string)
    | ResolveOp(key: string, args: seq<Value>)

  function Apply(env: Env, fuel: nat, c: Container, op: Op): Container {
    match op
    case BindOp(k, s) => (match Bind(c, k, s) case Success(d) => d case Failure(_) => c)
    case StoreOp(k, v) => (match Store(c, k, v) case Success(d) => d case Failure(_) => c)
    case AliasOp(a, t) => (match Alias(c, a, t) case Success(d) => d case Failure(_) => c)
    case UnsetOp(k) => OffsetUnset(c, k)
    case ResolveOp(k, args) => Resolve(env, c, k, args, fuel).after
  }

  function Run(env: Env, fuel: nat, c: Container, ops: seq<Op>): Container
    decreases |ops|
  {
    if |ops| == 0 then c else Run(env, fuel, Apply(env, fuel, c, ops[0]), ops[1..])
  }

  /** `op` may put `k` into `bindings`. */
  predicate Registers(op: Op, k: string) {
    (op.BindOp? && op.key == k) || (op.StoreOp? && op.key == k)
  }

  /** Every reachable container is well formed: the operations keep the
      binding keys unique and the cache filled with constructed objects. */
  lemma {:induction false} RunPreservesWf(env: Env, fuel: nat, c: Container, ops: seq<Op>)
    requires Wf(c)
    ensures Wf(Run(env, fuel, c, ops))
    decreases |ops|
  {
    if |ops| > 0 {
      var d := Apply(env, fuel, c, ops[0]);
      assert Wf(d);
      RunPreservesWf(env, fuel, d, ops[1..]);
    }
  }

  /** A bound key is reported bound, and binding or storing it again throws
      DuplicateBinding. */
  lemma BindThenDuplicate(c: Container, k: string, s: bool, s': bool, v: string)
    requires Bind(c, k, s).Success?
    ensures IsBinded(Bind(c, k, s).value, k) && OffsetExists(Bind(c, k, s).value, k)
    ensures Bind(Bind(c, k, s).value, k, s') == Failure(DuplicateBinding(k))
    ensures Store(Bind(c, k, s).value, k, v) == Failure(DuplicateBinding(k))
  {
  }

  /** `get` after `bind(k)` returns `k` itself; after `store(k, v)` it
      returns `v`. */
  lemma BindStoreThenGet(c: Container, k: string, s: bool, v: string)
    requires !IsBinded(c, k)
    ensures Get(Bind(c, k, s).value, k) == Success(k)
    ensures Get(Store(c, k, v).value, k) == Success(v)
  {
  }

  /** `singleton(k)` registers `k` marked singleton. */
  lemma SingletonMarksKey(c: Container, k: string)
    requires !IsBinded(c, k)
    ensures Singleton(c, k).Success? && IsSingleton(Singleton(c, k).value, k)
    ensures Get(Singleton(c, k).value, k) == Success(k)
  {
  }

  /** `alias(a)` without a target after `bind(x)` and then `bind(y)` aliases
      `y`, the last inserted binding. */
  lemma AliasDefaultsToLastBinding(c: Container, x: string, y: string, a: string, sx: bool, sy: bool)
    requires !IsBinded(c, x) && x != y && !IsBinded(c, y)
    requires a !in c.aliases
    ensures var c2 := Bind(Bind(c, x, sx).value, y, sy).value;
      && Alias(c2, a, None) == Alias(c2, a, Some(y))
      && Alias(c2, a, None).Success?
      && Alias(c2, a, None).value.aliases[a] == Binding(y, sy)
  {
    var c1 := Bind(c, x, sx).value;
    assert !IsBinded(c1, y) by {
      assert Find(c1.bindings, y) == Find(c.bindings, y);
    }
  }

  /** The default target is the *value* of the last binding, not its key:
      after `store(k, v)` an untargeted `alias` looks up `v`. */
  lemma AliasDefaultUsesStoredValue(c: Container, k: string, v: string, a: string)
    requires !IsBinded(c, k) && a !in c.aliases
    ensures var c1 := Store(c, k, v).value;
      && Alias(c1, a, None) == Alias(c1, a, Some(v))
      && (v != k && !IsBinded(c, v) ==> Alias(c1, a, None) == Failure(MissingTarget(v)))
  {
  }

  /** `alias` searches `bindings` only: aliasing an alias fails. */
  lemma AliasOfAliasFails(c: Container, a: string, b: string)
    requires a in c.aliases && !IsBinded(c, a) && b !in c.aliases
    ensures Alias(c, b, Some(a)) == Failure(MissingTarget(a))
  {
  }

  /** An existing alias entry survives every later operation unchanged: it
      is a snapshot, not a reference to the binding it was copied from. */
  lemma {:induction false} AliasSnapshotPersists(env: Env, fuel: nat, c: Container, ops: seq<Op>, a: string)
    requires a in c.aliases
    ensures a in Run(env, fuel, c, ops).aliases
    ensures Run(env, fuel, c, ops).aliases[a] == c.aliases[a]
    decreases |ops|
  {
    if |ops| > 0 {
      var d := Apply(env, fuel, c, ops[0]);
      assert a in d.aliases && d.aliases[a] == c.aliases[a];
      AliasSnapshotPersists(env, fuel, d, ops[1..], a);
    }
  }

  /** A cached instance survives every later operation unchanged: the
      registration calls never touch the cache, `offsetUnset` drops the
      binding only, and `resolve` writes an entry only where there was none.
      So once a call has returned, the entry is never rewritten. */
  lemma {:induction false} CacheEntryPersists(env: Env, fuel: nat, c: Container, ops: seq<Op>, k: string)
    requires k in c.instances
    ensures k in Run(env, fuel, c, ops).instances
    ensures Run(env, fuel, c, ops).instances[k] == c.instances[k]
    decreases |ops|
  {
    if |ops| > 0 {
      var d := Apply(env, fuel, c, ops[0]);
      assert k in d.instances && d.instances[k] == c.instances[k];
      CacheEntryPersists(env, fuel, d, ops[1..], k);
    }
  }

  /** Operations that never register `k` keep it out of `bindings`. */
  lemma {:induction false} UnregisteredStaysUnbound(env: Env, fuel: nat, c: Container, ops: seq<Op>, k: string)
    requires !IsBinded(c, k)
    requires forall i :: 0 <= i < |ops| ==> !Registers(ops[i], k)
    ensures !IsBinded(Run(env, fuel, c, ops), k)
    decreases |ops|
  {
    if |ops| > 0 {
      var d := Apply(env, fuel, c, ops[0]);
      assert !Registers(ops[0], k);
      assert !IsBinded(d, k) by {
        match ops[0]
        case BindOp(j, s) =>
          if Bind(c, j, s).Success? {
            assert Find(d.bindings, k) == Find(c.bindings, k);
          }
        case StoreOp(j, v) =>
          if Store(c, j, v).Success? {
            assert Find(d.bindings, k) == Find(c.bindings, k);
          }
        case AliasOp(_, _) =>
        case UnsetOp(j) =>
          if j != k {
            assert Find(d.bindings, k) == Find(c.bindings, k);
          }
        case ResolveOp(_, _) =>
      }
      UnregisteredStaysUnbound(env, fuel, d, ops[1..], k);
    }
  }

  /** Whatever happens to the original binding afterwards (rebinding,
      unsetting, resolving), an alias key that is never bound itself keeps
      resolving through the copy taken when the alias was made. */
  lemma AliasSnapshotIsWhatLookupSees(env: Env, fuel: nat, c: Container, a: string, t: string, ops: seq<Op>)
    requires !IsBinded(c, a) && a !in c.aliases && IsBinded(c, t)
    requires forall i :: 0 <= i < |ops| ==> !Registers(ops[i], a)
    ensures Alias(c, a, Some(t)).Success?
    ensures GetBinding(Run(env, fuel, Alias(c, a, Some(t)).value, ops), a) == Find(c.bindings, t)
  {
    var d := Alias(c, a, Some(t)).value;
    AliasSnapshotPersists(env, fuel, d, ops, a);
    UnregisteredStaysUnbound(env, fuel, d, ops, a);
  }

  /** `offsetUnset` keeps the order of the remaining bindings, so the
      default target of a later `alias` (the last binding) changes only
      when the last binding itself is unset; it then falls back to the
      binding before it, or to NoBindings when none is left. */
  lemma UnsetThenAliasDefault(c: Container, k: string)
    requires Wf(c) && |c.bindings| > 0
    ensures var d := OffsetUnset(c, k); var n := |c.bindings|;
      && (Last(c.bindings).key != k ==> AliasTarget(d, None) == AliasTarget(c, None))
      && (Last(c.bindings).key == k && n == 1 ==> AliasTarget(d, None) == Failure(NoBindings))
      && (Last(c.bindings).key == k && n > 1 ==> AliasTarget(d, None) == Success(c.bindings[n - 2].val.value))
  {
    RemoveLast(c.bindings, k);
  }

  /** Lookup precedence: `isBinded`, `offsetExists` and `get` see only
      `bindings`, while `getBinding` falls back to `aliases`; a binding for
      the same key shadows the alias, and unsetting that binding uncovers
      the alias again. */
  lemma BindingShadowsAlias(c: Container, a: string, t: string, s: bool)
    requires !IsBinded(c, a) && a !in c.aliases && IsBinded(c, t)
    ensures var c1 := Alias(c, a, Some(t)).value;
      && !IsBinded(c1, a) && !OffsetExists(c1, a)
      && Get(c1, a) == Failure(UndefinedKey(a))
      && GetBinding(c1, a) == Find(c.bindings, t)
      && GetBinding(Bind(c1, a, s).value, a) == Some(Binding(a, s))
      && GetBinding(OffsetUnset(Bind(c1, a, s).value, a), a) == Find(c.bindings, t)
  {
  }
}
