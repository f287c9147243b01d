/** Feature flags: a persisted value per scope, and a task-scoped memo in front of it. */
module FeatureMemo {
  import opened Seqs

  datatype Scope = Global | Text(text: string) | Entity(kind: string, key: string)

  /** A flag's value; a resolver computes one from the scope. */
  type Value = int
  type Resolver = Scope -> Value

  type Values = map<(string, string), Value>
  type Memo = map<(int, string, string), Value>

  const Everyone: string := "__everyone__"

  datatype Resolved = Value(value: Value) | NoSuchFeature

  function ScopeKey(scope: Scope, fallback: string): string {
    match scope
    case Global => fallback
    case Text(text) => text
    case Entity(kind, key) => kind + ":" + key
  }

  /** The global scope is the text scope of the configured default, and a model is the text scope of its class
      name and key joined by a colon: they share one answer. Two models of classes without a colon in the name
      share one only if class and key agree, whatever the keys contain. */
  lemma ScopesShareKeyIff(a: Scope, b: Scope, fallback: string)
    ensures ScopeKey(Global, fallback) == ScopeKey(Text(fallback), fallback)
    ensures a.Entity? ==> ScopeKey(a, fallback) == ScopeKey(Text(a.kind + ":" + a.key), fallback)
    ensures a.Text? && b.Text? ==> (ScopeKey(a, fallback) == ScopeKey(b, fallback) <==> a == b)
    ensures a.Entity? && b.Entity? && ':' !in a.kind && ':' !in b.kind ==>
              (ScopeKey(a, fallback) == ScopeKey(b, fallback) <==> a == b)
  {
    if a.Entity? && b.Entity? && ':' !in a.kind && ':' !in b.kind {
      var (x, y) := (ScopeKey(a, fallback), ScopeKey(b, fallback));
      if x == y {
        assert x[|a.kind|] == ':' && y[|b.kind|] == ':';
        assert forall i :: 0 <= i < |a.kind| ==> x[i] == a.kind[i] && x[i] != ':';
        assert forall i :: 0 <= i < |b.kind| ==> y[i] == b.kind[i] && y[i] != ':';
        assert a.kind == x[..|a.kind|] && b.kind == y[..|b.kind|];
        assert a.key == x[|a.kind| + 1..] && b.key == y[|b.kind| + 1..];
      }
    }
  }

  /** What the store says of a flag for a scope: its own row, else the row for everyone. */
  function Effective(values: Values, name: string, key: string): Option<Value> {
    if (name, key) in values then Some(values[(name, key)])
    else if (name, Everyone) in values then Some(values[(name, Everyone)])
    else None
  }

  /** Every memoised answer of this store is what the store would answer now. */
  ghost predicate Agrees(values: Values, memo: Memo, id: int) {
    forall name, key :: (id, name, key) in memo ==> Effective(values, name, key) == Some(memo[(id, name, key)])
  }

  /** An answer that was read from the row for everyone. */
  predicate Borrowed(values: Values, memo: Memo, id: int, name: string, key: string) {
    (id, name, key) in memo && key != Everyone && (name, key) !in values
  }

  /** Other stores' entries of a memo. */
  function Foreign(memo: Memo, id: int): Memo {
    map k | k in memo && k.0 != id :: memo[k]
  }

  // --- exactly which writes keep the memo true ---------------------------------------------------

  /** Writing a scope's own row, and its memo entry, keeps agreement. Writing the row for everyone that
      way keeps it exactly when every borrowed answer of the flag already has the new value. */
  lemma {:induction false} ActivateAgrees(values: Values, memo: Memo, id: int, name: string, key: string, value: Value)
    requires Agrees(values, memo, id)
    ensures Agrees(values[(name, key) := value], memo[(id, name, key) := value], id) <==>
            key != Everyone ||
            forall k :: Borrowed(values, memo, id, name, k) ==> memo[(id, name, k)] == value
  {
    var (after, memo') := (values[(name, key) := value], memo[(id, name, key) := value]);
    if key == Everyone && Agrees(after, memo', id) {
      forall k | Borrowed(values, memo, id, name, k) ensures memo[(id, name, k)] == value {
        assert Effective(after, name, k) == Some(memo'[(id, name, k)]);
      }
    }
    if key != Everyone || forall k :: Borrowed(values, memo, id, name, k) ==> memo[(id, name, k)] == value {
      forall n, k | (id, n, k) in memo' ensures Effective(after, n, k) == Some(memo'[(id, n, k)]) {
        assert (n, k) != (name, key) ==> Effective(values, n, k) == Some(memo[(id, n, k)]);
        assert n == name && Borrowed(values, memo, id, name, k) && key == Everyone ==> memo[(id, name, k)] == value;
      }
    }
  }

  /** `activate_for_everyone` writes the row but no memo entry: agreement survives exactly when every
      answer that was borrowed from it, or read from it directly, already has the new value. */
  lemma {:induction false} ForEveryoneAgrees(values: Values, memo: Memo, id: int, name: string, value: Value)
    requires Agrees(values, memo, id)
    ensures Agrees(values[(name, Everyone) := value], memo, id) <==>
            forall k :: (id, name, k) in memo && (k == Everyone || (name, k) !in values) ==>
              memo[(id, name, k)] == value
  {
    var after := values[(name, Everyone) := value];
    if Agrees(after, memo, id) {
      forall k | (id, name, k) in memo && (k == Everyone || (name, k) !in values)
        ensures memo[(id, name, k)] == value
      {
        assert Effective(after, name, k) == Some(memo[(id, name, k)]);
      }
    }
    if forall k :: (id, name, k) in memo && (k == Everyone || (name, k) !in values) ==> memo[(id, name, k)] == value {
      forall n, k | (id, n, k) in memo ensures Effective(after, n, k) == Some(memo[(id, n, k)]) {
        assert Effective(values, n, k) == Some(memo[(id, n, k)]);
      }
    }
  }

  /** For example an answer read from the row for everyone goes stale when that row is rewritten. */
  lemma StaleAfterForEveryone(id: int, name: string, key: string, was: Value, now: Value)
    requires key != Everyone && was != now
    ensures var values: Values := map[(name, Everyone) := was];
            var memo: Memo := map[(id, name, key) := was];
            Agrees(values, memo, id) && !Agrees(values[(name, Everyone) := now], memo, id)
  {
    var values: Values := map[(name, Everyone) := was];
    var memo: Memo := map[(id, name, key) := was];
    assert (id, name, key) in memo;
    ForEveryoneAgrees(values, memo, id, name, now);
  }

  /** Forgetting a scope keeps agreement; forgetting the row for everyone keeps it exactly when no
      answer was borrowed from it. */
  lemma {:induction false} ForgetAgrees(values: Values, memo: Memo, id: int, name: string, key: string)
    requires Agrees(values, memo, id)
    ensures Agrees(values - {(name, key)}, memo - {(id, name, key)}, id) <==>
            key != Everyone || forall k :: !Borrowed(values, memo, id, name, k)
  {
    var (after, memo') := (values - {(name, key)}, memo - {(id, name, key)});
    if key == Everyone && Agrees(after, memo', id) {
      forall k ensures !Borrowed(values, memo, id, name, k) {
        assert (id, name, k) in memo' ==> Effective(after, name, k) == Some(memo'[(id, name, k)]);
      }
    }
    if key != Everyone || forall k :: !Borrowed(values, memo, id, name, k) {
      forall n, k | (id, n, k) in memo' ensures Effective(after, n, k) == Some(memo'[(id, n, k)]) {
        assert Effective(values, n, k) == Some(memo[(id, n, k)]);
        assert n == name && key == Everyone ==> !Borrowed(values, memo, id, name, k);
      }
    }
  }

  // --- the store and the manager --------------------------------------------------------------------

  class ArrayFeatureStore {
    var values: Values

    constructor ()
      ensures values == map[]
    {
      values := map[];
    }

    method Get(name: string, key: string) returns (value: Option<Value>)
      ensures value == if (name, key) in values then Some(values[(name, key)]) else None
    {
      value := if (name, key) in values then Some(values[(name, key)]) else None;
    }

    method Put(name: string, key: string, value: Value)
      modifies this
      ensures values == old(values)[(name, key) := value]
    {
      values := values[(name, key) := value];
    }

    method Forget(name: string, key: string)
      modifies this
      ensures values == old(values) - {(name, key)}
    {
      values := values - {(name, key)};
    }

    method Purge(name: string)
      modifies this
      ensures values == map k | k in old(values) && k.0 != name :: old(values)[k]
    {
      var doomed := set k | k in values && k.0 == name;
      ghost var all := doomed;
      while doomed != {}
        invariant doomed <= all
        invariant values == old(values) - (all - doomed)
        decreases doomed
      {
        var k :| k in doomed;
        values := values - {k};
        doomed := doomed - {k};
      }
    }

    method PurgeAll()
      modifies this
      ensures values == map[]
    {
      values := map[];
    }
  }

  class FeatureManager {
    const store: ArrayFeatureStore
    const id: int
    const defaultScope: string
    var resolvers: map<string, Resolver>
      /** The task's memo, shared by all managers; entries carry the store's id. */
    var memo: Memo

    constructor (id: int, defaultScope: string, memo: Memo)
      requires forall name, key :: (id, name, key) !in memo
      ensures Valid() && fresh(store) && store.values == map[] && this.memo == memo && resolvers == map[]
      ensures this.id == id && this.defaultScope == defaultScope
    {
      this.store := new ArrayFeatureStore();
      this.id := id;
      this.defaultScope := defaultScope;
      resolvers := map[];
      this.memo := memo;
    }

    ghost predicate Valid()
      reads this, store
    {
      Agrees(store.values, memo, id)
    }

    function KeyOf(scope: Scope): string {
      ScopeKey(scope, defaultScope)
    }

    method Define(name: string, resolver: Resolver)
      modifies this`resolvers
      ensures resolvers == old(resolvers)[name := resolver]
    {
      resolvers := resolvers[name := resolver];
    }

    /** Answers as the store alone would, memo or not: the scope's own row, else the row for everyone,
        else what the resolver computes, which is then the scope's own row. */
    method Resolve(name: string, scope: Scope) returns (r: Resolved)
      requires Valid()
      modifies this`memo, store
      ensures Valid() && Foreign(memo, id) == Foreign(old(memo), id)
      ensures var stored := Effective(old(store.values), name, KeyOf(scope));
              if stored.Some? then r == Value(stored.value) && store.values == old(store.values)
              else if name !in resolvers then
                r == NoSuchFeature && store.values == old(store.values) && memo == old(memo)
              else r == Value(resolvers[name](scope))
                   && store.values == old(store.values)[(name, KeyOf(scope)) := r.value]
      ensures r.Value? ==> (id, name, KeyOf(scope)) in memo
    {
      var key := KeyOf(scope);
      if (id, name, key) in memo {
        return Value(memo[(id, name, key)]);
      }
      var own := store.Get(name, key);
      if own.Some? {
        memo := memo[(id, name, key) := own.value];
        return Value(own.value);
      }
      var everyone := store.Get(name, Everyone);
      if everyone.Some? {
        memo := memo[(id, name, key) := everyone.value];
        return Value(everyone.value);
      }
      if name !in resolvers {
        return NoSuchFeature;
      }
      var value := resolvers[name](scope);
      store.Put(name, key, value);
      memo := memo[(id, name, key) := value];
      r := Value(value);
    }

    /** Writes through: the next read of the scope gives the value. */
    method Activate(name: string, scope: Scope, value: Value)
      requires Valid()
      modifies this`memo, store
      ensures store.values == old(store.values)[(name, KeyOf(scope)) := value]
      ensures memo == old(memo)[(id, name, KeyOf(scope)) := value]
      ensures Valid() <==> KeyOf(scope) != Everyone ||
                           forall k :: Borrowed(old(store.values), old(memo), id, name, k) ==>
                             old(memo)[(id, name, k)] == value
    {
      ActivateAgrees(store.values, memo, id, name, KeyOf(scope), value);
      store.Put(name, KeyOf(scope), value);
      memo := memo[(id, name, KeyOf(scope)) := value];
    }

    method ActivateForEveryone(name: string, value: Value)
      requires Valid()
      modifies store
      ensures store.values == old(store.values)[(name, Everyone) := value]
      ensures Valid() <==> forall k :: (id, name, k) in memo && (k == Everyone || (name, k) !in old(store.values)) ==>
                             memo[(id, name, k)] == value
    {
      ForEveryoneAgrees(store.values, memo, id, name, value);
      store.Put(name, Everyone, value);
    }

    method Forget(name: string, scope: Scope)
      requires Valid()
      modifies this`memo, store
      ensures store.values == old(store.values) - {(name, KeyOf(scope))}
      ensures memo == old(memo) - {(id, name, KeyOf(scope))}
      ensures Valid() <==> KeyOf(scope) != Everyone ||
                           forall k :: !Borrowed(old(store.values), old(memo), id, name, k)
    {
      ForgetAgrees(store.values, memo, id, name, KeyOf(scope));
      store.Forget(name, KeyOf(scope));
      memo := memo - {(id, name, KeyOf(scope))};
    }

    /** One flag, or all of them: rows and this store's memo entries go together. */
    method Purge(name: Option<string>)
      requires Valid()
      modifies this`memo, store
      ensures Valid() && Foreign(memo, id) == Foreign(old(memo), id)
      ensures store.values == map k | k in old(store.values) && name.Some? && k.0 != name.value :: old(store.values)[k]
      ensures forall n, k :: (id, n, k) in memo <==> (id, n, k) in old(memo) && name.Some? && n != name.value
    {
      if name.None? {
        store.PurgeAll();
        memo := map k | k in memo && k.0 != id :: memo[k];
      } else {
        PurgeAgrees(store.values, memo, id, name.value);
        store.Purge(name.value);
        memo := map k | k in memo && !(k.0 == id && k.1 == name.value) :: memo[k];
      }
    }

    /** A new request starts with no memo. */
    method FlushCache()
      modifies this`memo
      ensures Valid() && memo == map[]
    {
      memo := map[];
    }
  }

  lemma PurgeAgrees(values: Values, memo: Memo, id: int, name: string)
    requires Agrees(values, memo, id)
    ensures Agrees(map k | k in values && k.0 != name :: values[k],
                   map k | k in memo && !(k.0 == id && k.1 == name) :: memo[k], id)
  {
    var after := map k | k in values && k.0 != name :: values[k];
    forall n, k | (id, n, k) in memo && n != name ensures Effective(after, n, k) == Some(memo[(id, n, k)]) {
      assert Effective(values, n, k) == Some(memo[(id, n, k)]);
    }
  }
}
