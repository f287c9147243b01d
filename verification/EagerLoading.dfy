/** Relations loaded one parent at a time and loaded in one batch for many parents. Here columns may
    be NULL: a record maps the columns that are not. */
module EagerLoading {
  import opened Seqs

  type Record = map<string, int>

  function Value(r: Record, column: string): Option<int> {
    if column in r then Some(r[column]) else None
  }

  /** SQL's `=` between two columns: NULL equals nothing. */
  predicate SqlEqual(a: Option<int>, b: Option<int>) {
    a.Some? && a == b
  }

  // --- what the loops build -------------------------------------------------------------------

  function Keyed<T, K(==)>(key: T -> K, k: K): T -> bool {
    (x: T) => key(x) == k
  }

  function LastOf<T>(s: seq<T>): Option<T> {
    if s == [] then None else Some(s[|s| - 1])
  }

  function FirstOf<T>(s: seq<T>): Option<T> {
    if s == [] then None else Some(s[0])
  }

  function GetAll<K, T>(grouped: map<K, seq<T>>, k: K): seq<T> {
    if k in grouped then grouped[k] else []
  }

  function Get<K, T>(m: map<K, T>, k: K): Option<T> {
    if k in m then Some(m[k]) else None
  }

  lemma FilterSnoc<T>(p: T -> bool, s: seq<T>, i: nat)
    requires i < |s|
    ensures Filter(p, s[..i + 1]) == Filter(p, s[..i]) + if p(s[i]) then [s[i]] else []
  {
    assert s[..i + 1] == s[..i] + [s[i]];
    FilterConcat(p, s[..i], [s[i]]);
    FilterSingle(p, s[i]);
  }

  lemma FilterNothing<T>()
    ensures forall p: T -> bool :: Filter(p, []) == []
  {
  }

  /** `setdefault(key, []).append(row)` over the rows: each group keeps the rows' order. */
  method GroupBy<T, K(==)>(key: T -> K, rows: seq<T>) returns (grouped: map<K, seq<T>>)
    ensures forall k :: GetAll(grouped, k) == Filter(Keyed(key, k), rows)
    ensures forall k :: k in grouped ==> grouped[k] != []
  {
    grouped := map[];
    var i := 0;
    FilterNothing<T>();
    hide Filter;
    while i < |rows|
      invariant 0 <= i <= |rows|
      invariant forall k :: GetAll(grouped, k) == Filter(Keyed(key, k), rows[..i])
      invariant forall k :: k in grouped ==> grouped[k] != []
    {
      var own := key(rows[i]);
      ghost var before := grouped;
      grouped := grouped[own := GetAll(grouped, own) + [rows[i]]];
      forall k ensures GetAll(grouped, k) == Filter(Keyed(key, k), rows[..i + 1]) {
        FilterSnoc(Keyed(key, k), rows, i);
        if k == own {
          assert GetAll(grouped, k) == GetAll(before, k) + [rows[i]];
        } else {
          assert GetAll(grouped, k) == GetAll(before, k) + [];
        }
      }
      i := i + 1;
    }
    assert rows[..|rows|] == rows;
  }

  /** A dict comprehension over the rows: of two rows with one key the last stays. */
  method IndexBy<T, K(==)>(key: T -> K, rows: seq<T>) returns (index: map<K, T>)
    ensures forall k :: Get(index, k) == LastOf(Filter(Keyed(key, k), rows))
  {
    index := map[];
    var i := 0;
    FilterNothing<T>();
    hide Filter;
    while i < |rows|
      invariant 0 <= i <= |rows|
      invariant forall k :: Get(index, k) == LastOf(Filter(Keyed(key, k), rows[..i]))
    {
      forall k { FilterSnoc(Keyed(key, k), rows, i); }
      index := index[key(rows[i]) := rows[i]];
      i := i + 1;
    }
    assert rows[..|rows|] == rows;
  }

  /** The parents' keys that are not NULL. */
  method Keys(parents: seq<Record>, column: string) returns (keys: seq<int>)
    ensures forall p :: p in parents && Value(p, column).Some? ==> Value(p, column).value in keys
    ensures forall k :: k in keys ==> exists p :: p in parents && Value(p, column) == Some(k)
  {
    keys := [];
    var i := 0;
    while i < |parents|
      invariant 0 <= i <= |parents|
      invariant forall p :: p in parents[..i] && Value(p, column).Some? ==> Value(p, column).value in keys
      invariant forall k :: k in keys ==> exists p :: p in parents && Value(p, column) == Some(k)
    {
      assert parents[..i + 1] == parents[..i] + [parents[i]] && parents[i] in parents;
      var k := Value(parents[i], column);
      if k.Some? { keys := keys + [k.value]; }
      i := i + 1;
    }
  }

  predicate ValueIn(r: Record, column: string, keys: seq<int>) {
    Value(r, column).Some? && Value(r, column).value in keys
  }

  // --- has-one, has-many, morph ------------------------------------------------------------------

  /** A morph relation also fixes the children's type column. */
  datatype Kind = Kind(column: string, value: int)

  datatype HasMany = HasMany(foreignKey: string, localKey: string, kind: Option<Kind>)

  predicate OfKind(kind: Option<Kind>, r: Record) {
    kind.None? || Value(r, kind.value.column) == Some(kind.value.value)
  }

  /** The relation's own query; comparing with a NULL key is written `IS NULL`. */
  function Own(s: HasMany, parent: Record): Record -> bool {
    (r: Record) => OfKind(s.kind, r) && Value(r, s.foreignKey) == Value(parent, s.localKey)
  }

  function Fetch(s: HasMany, parent: Record, table: seq<Record>): seq<Record> {
    Filter(Own(s, parent), table)
  }

  /** The children of one parent: a NULL key has none. */
  function Correlated(s: HasMany, parent: Record): Record -> bool {
    (r: Record) => OfKind(s.kind, r) && SqlEqual(Value(r, s.foreignKey), Value(parent, s.localKey))
  }

  function And<T>(p: T -> bool, q: T -> bool): T -> bool {
    (x: T) => p(x) && q(x)
  }

  /** The batched query: children of any of the keys, under the caller's constraint. */
  function Batch(s: HasMany, keys: seq<int>, constrain: Record -> bool): Record -> bool {
    (r: Record) => OfKind(s.kind, r) && ValueIn(r, s.foreignKey, keys) && constrain(r)
  }

  /** One query for all parents gives each parent its own children under the constraint, in table
      order, none of another parent's or of another morph type. */
  method EagerLoadMany(s: HasMany, table: seq<Record>, parents: seq<Record>, constrain: Record -> bool)
    returns (loaded: seq<seq<Record>>)
    ensures |loaded| == |parents|
    ensures forall i :: 0 <= i < |parents| ==>
              loaded[i] == Filter(And(Correlated(s, parents[i]), constrain), table)
  {
    var keys := Keys(parents, s.localKey);
    if keys == [] {
      loaded := seq(|parents|, i => []);
      forall i | 0 <= i < |parents| ensures loaded[i] == Filter(And(Correlated(s, parents[i]), constrain), table) {
        assert parents[i] in parents;
        FilterNone(And(Correlated(s, parents[i]), constrain), table);
      }
      return;
    }
    var children := Filter(Batch(s, keys, constrain), table);
    var column := s.foreignKey;
    var grouped := GroupBy((r: Record) => Value(r, column), children);
    loaded := seq(|parents|, i requires 0 <= i < |parents| => GetAll(grouped, Value(parents[i], s.localKey)));
    forall i | 0 <= i < |parents| ensures loaded[i] == Filter(And(Correlated(s, parents[i]), constrain), table) {
      var k := Value(parents[i], s.localKey);
      var ofParent := Keyed((r: Record) => Value(r, column), k);
      assert parents[i] in parents;
      FilterTwice(Batch(s, keys, constrain), ofParent, And(Correlated(s, parents[i]), constrain), table);
    }
  }

  /** The children of a parent are of the relation's morph type, if it has one, and carry the parent's key. */
  lemma ChildrenAre(s: HasMany, parent: Record, table: seq<Record>, constrain: Record -> bool, r: Record)
    ensures r in Filter(And(Correlated(s, parent), constrain), table) <==>
            && r in table && constrain(r)
            && s.foreignKey in r && s.localKey in parent && r[s.foreignKey] == parent[s.localKey]
            && (s.kind.Some? ==> s.kind.value.column in r && r[s.kind.value.column] == s.kind.value.value)
    ensures r in Fetch(s, parent, table) <==>
            && r in table
            && (if s.localKey in parent then s.foreignKey in r && r[s.foreignKey] == parent[s.localKey]
                else s.foreignKey !in r)
            && (s.kind.Some? ==> s.kind.value.column in r && r[s.kind.value.column] == s.kind.value.value)
  {
    FilterIn(And(Correlated(s, parent), constrain), table, r);
    FilterIn(Own(s, parent), table, r);
  }

  /** Loaded together or loaded alone, a parent has the same children, unless its key is NULL and the
      table holds orphans: alone it then gets those, together it gets none. */
  lemma BatchEqualsOwn(s: HasMany, parent: Record, table: seq<Record>)
    ensures Filter(Correlated(s, parent), table) == Fetch(s, parent, table) <==>
            Value(parent, s.localKey).Some? ||
            !exists r :: r in table && OfKind(s.kind, r) && Value(r, s.foreignKey).None?
  {
    if Value(parent, s.localKey).Some? {
      FilterExt(Correlated(s, parent), Own(s, parent), table);
    } else {
      FilterNone(Correlated(s, parent), table);
      if r :| r in table && OfKind(s.kind, r) && Value(r, s.foreignKey).None? {
        FilterIn(Own(s, parent), table, r);
      } else {
        FilterNone(Own(s, parent), table);
      }
    }
  }

  /** For example a parent without key, alone, is given a child without parent. */
  lemma NullKeyFetchesOrphans(s: HasMany)
    requires s.kind.None?
    ensures Fetch(s, map[], [map[]]) == [map[]] && Filter(Correlated(s, map[]), [map[]]) == []
  {
    FilterSingle(Own(s, map[]), map[]);
    FilterSingle(Correlated(s, map[]), map[]);
  }

  // --- belongs-to --------------------------------------------------------------------------------------

  datatype BelongsTo = BelongsTo(foreignKey: string, ownerKey: string)

  function OwnerOf(s: BelongsTo, child: Record): Record -> bool {
    (r: Record) => SqlEqual(Value(r, s.ownerKey), Value(child, s.foreignKey))
  }

  function FetchOwner(s: BelongsTo, child: Record, table: seq<Record>): Option<Record> {
    var (owner, key) := (s.ownerKey, Value(child, s.foreignKey));
    FirstOf(Filter((r: Record) => Value(r, owner) == key, table))
  }

  /** One query for all children gives each child its owner under the constraint; of several owners
      with one key it gives the last, where loading alone gives the first. */
  method EagerLoadOwner(s: BelongsTo, table: seq<Record>, children: seq<Record>, constrain: Record -> bool)
    returns (loaded: seq<Option<Record>>)
    ensures |loaded| == |children|
    ensures forall i :: 0 <= i < |children| ==>
              loaded[i] == LastOf(Filter(And(OwnerOf(s, children[i]), constrain), table))
  {
    var keys := Keys(children, s.foreignKey);
    var column := s.ownerKey;
    if keys == [] {
      loaded := seq(|children|, i => None);
      forall i | 0 <= i < |children|
        ensures loaded[i] == LastOf(Filter(And(OwnerOf(s, children[i]), constrain), table))
      {
        assert children[i] in children;
        FilterNone(And(OwnerOf(s, children[i]), constrain), table);
      }
      return;
    }
    var fetched := (r: Record) => ValueIn(r, column, keys) && constrain(r);
    var byKey := IndexBy((r: Record) => Value(r, column), Filter(fetched, table));
    loaded := seq(|children|, i requires 0 <= i < |children| => Get(byKey, Value(children[i], s.foreignKey)));
    forall i | 0 <= i < |children| ensures loaded[i] == LastOf(Filter(And(OwnerOf(s, children[i]), constrain), table)) {
      var k := Value(children[i], s.foreignKey);
      assert children[i] in children;
      FilterTwice(fetched, Keyed((r: Record) => Value(r, column), k), And(OwnerOf(s, children[i]), constrain), table);
    }
  }

  /** The owner rows without a key, which is what the lone query of a NULL foreign key asks for. */
  ghost predicate NoKeylessOwner(s: BelongsTo, table: seq<Record>) {
    forall r :: r in table ==> Value(r, s.ownerKey).Some?
  }

  /** The lone query sees the rows the batch sees, or, for a NULL foreign key, the rows without a key. */
  lemma FetchOwnerIs(s: BelongsTo, child: Record, table: seq<Record>)
    ensures Value(child, s.foreignKey).Some? ==>
              FetchOwner(s, child, table) == FirstOf(Filter(OwnerOf(s, child), table))
    ensures Value(child, s.foreignKey).None? ==>
              && Filter(OwnerOf(s, child), table) == []
              && (FetchOwner(s, child, table).None? <==> NoKeylessOwner(s, table))
  {
    var (owner, key) := (s.ownerKey, Value(child, s.foreignKey));
    var lone := (r: Record) => Value(r, owner) == key;
    if key.Some? {
      FilterExt(OwnerOf(s, child), lone, table);
    } else {
      FilterNone(OwnerOf(s, child), table);
      if NoKeylessOwner(s, table) {
        FilterNone(lone, table);
      } else {
        var r :| r in table && Value(r, s.ownerKey).None?;
        FilterIn(lone, table, r);
      }
    }
  }

  /** In a table without repeated rows the two loads agree exactly when at most one row carries the
      child's key, or, for a NULL foreign key, when every row has a key. */
  lemma OwnerEqualsOwn(s: BelongsTo, child: Record, table: seq<Record>)
    requires Distinct(table)
    ensures LastOf(Filter(OwnerOf(s, child), table)) == FetchOwner(s, child, table) <==>
            if Value(child, s.foreignKey).Some? then Count(table, OwnerOf(s, child)) <= 1
            else NoKeylessOwner(s, table)
  {
    FetchOwnerIs(s, child, table);
    FilterDistinct(OwnerOf(s, child), table);
    CountFilter(table, OwnerOf(s, child));
  }

  /** For example two owners with one key: together the last one wins, alone the first. */
  lemma LastOwnerOrFirst(k: int, a: int, b: int)
    ensures var s := BelongsTo("owner", "key");
            var (first, last) := (map["key" := k, "name" := a], map["key" := k, "name" := b]);
            var child := map["owner" := k];
            && LastOf(Filter(OwnerOf(s, child), [first, last])) == Some(last)
            && FetchOwner(s, child, [first, last]) == Some(first)
  {
    var s := BelongsTo("owner", "key");
    var (first, last) := (map["key" := k, "name" := a], map["key" := k, "name" := b]);
    var child := map["owner" := k];
    FilterAll(OwnerOf(s, child), [first, last]);
    FetchOwnerIs(s, child, [first, last]);
  }

  // --- through an intermediate ---------------------------------------------------------------------------

  /** Parent, `through` (its `firstKey` names the parent, its `link` is what far rows name), far rows. */
  datatype Through = Through(localKey: string, firstKey: string, link: string, secondKey: string)

  /** The parent's intermediate rows. */
  function Via(s: Through, parent: Record): Record -> bool {
    (t: Record) => SqlEqual(Value(t, s.firstKey), Value(parent, s.localKey))
  }

  /** What the relation's own query takes for them; comparing with a NULL key is written `IS NULL`. */
  function ViaOwn(s: Through, parent: Record): Record -> bool {
    (t: Record) => Value(t, s.firstKey) == Value(parent, s.localKey)
  }

  /** One of these intermediates is linked to the far row. */
  ghost predicate Joined(s: Through, through: seq<Record>, via: Record -> bool, r: Record) {
    exists t :: t in through && via(t) && SqlEqual(Value(t, s.link), Value(r, s.secondKey))
  }

  ghost predicate Reaches(s: Through, through: seq<Record>, parent: Record, r: Record) {
    Joined(s, through, Via(s, parent), r)
  }

  /** A far row behind an intermediate that names no parent. */
  ghost predicate Stray(s: Through, through: seq<Record>, r: Record) {
    exists t :: t in through && Value(t, s.firstKey).None? && SqlEqual(Value(t, s.link), Value(r, s.secondKey))
  }

  ghost predicate NoStray(s: Through, through: seq<Record>, table: seq<Record>) {
    forall r :: r in table ==> !Stray(s, through, r)
  }

  /** The values of a column over rows, without the NULLs. */
  function Links(rows: seq<Record>, column: string): (links: seq<int>)
    ensures forall k :: k in links <==> exists t :: t in rows && Value(t, column) == Some(k)
  {
    if rows == [] then []
    else
      assert forall t :: t in rows <==> t == rows[0] || t in rows[1..];
      (if Value(rows[0], column).Some? then [Value(rows[0], column).value] else []) + Links(rows[1..], column)
  }

  function Linked(column: string, links: seq<int>): Record -> bool {
    (r: Record) => ValueIn(r, column, links)
  }

  /** The far rows behind some of the intermediates: one query for the intermediates, one by their links. */
  function Behind(s: Through, through: seq<Record>, via: Record -> bool, table: seq<Record>): seq<Record> {
    Filter(Linked(s.secondKey, Links(Filter(via, through), s.link)), table)
  }

  function FetchThrough(s: Through, through: seq<Record>, parent: Record, table: seq<Record>): seq<Record> {
    Behind(s, through, ViaOwn(s, parent), table)
  }

  lemma BehindIs(s: Through, through: seq<Record>, via: Record -> bool, r: Record, table: seq<Record>)
    ensures r in Behind(s, through, via, table) <==> r in table && Joined(s, through, via, r)
  {
    var rows := Filter(via, through);
    FilterIn(Linked(s.secondKey, Links(rows, s.link)), table, r);
    if ValueIn(r, s.secondKey, Links(rows, s.link)) {
      var t :| t in rows && Value(t, s.link) == Some(Value(r, s.secondKey).value);
      FilterIn(via, through, t);
    }
    if t :| t in through && via(t) && SqlEqual(Value(t, s.link), Value(r, s.secondKey)) {
      FilterIn(via, through, t);
    }
  }

  /** Alone, a parent with a key fetches the far rows it reaches, and one without key those behind
      intermediates that name no parent. */
  lemma FetchThroughIs(s: Through, through: seq<Record>, parent: Record, r: Record, table: seq<Record>)
    ensures r in FetchThrough(s, through, parent, table) <==>
            && r in table
            && if Value(parent, s.localKey).Some? then Reaches(s, through, parent, r) else Stray(s, through, r)
    ensures Value(parent, s.localKey).None? ==> !Reaches(s, through, parent, r)
  {
    BehindIs(s, through, ViaOwn(s, parent), r, table);
    if Joined(s, through, ViaOwn(s, parent), r) {
      var t :| t in through && ViaOwn(s, parent)(t) && SqlEqual(Value(t, s.link), Value(r, s.secondKey));
      assert Value(parent, s.localKey).Some? ==> Via(s, parent)(t);
    }
    if Value(parent, s.localKey).Some? && Reaches(s, through, parent, r) {
      var t :| t in through && Via(s, parent)(t) && SqlEqual(Value(t, s.link), Value(r, s.secondKey));
      assert ViaOwn(s, parent)(t);
    }
    if Value(parent, s.localKey).None? && Stray(s, through, r) {
      var t :| t in through && Value(t, s.firstKey).None? && SqlEqual(Value(t, s.link), Value(r, s.secondKey));
      assert ViaOwn(s, parent)(t);
    }
  }

  lemma FetchesNothingIff(s: Through, through: seq<Record>, parent: Record, table: seq<Record>)
    requires Value(parent, s.localKey).None?
    ensures FetchThrough(s, through, parent, table) == [] <==> NoStray(s, through, table)
  {
    var fetched := FetchThrough(s, through, parent, table);
    forall r ensures r in fetched <==> r in table && Stray(s, through, r) {
      FetchThroughIs(s, through, parent, r, table);
    }
    if fetched != [] { assert fetched[0] in fetched; }
  }

  /** An intermediate of one of the parents, linked to the far row. */
  ghost function Listed(s: Through, parents: seq<Record>, r: Record): Record -> bool {
    (t: Record) => SqlEqual(Value(t, s.link), Value(r, s.secondKey))
                   && exists p :: p in parents && Via(s, p)(t)
  }

  /** The batched load attributes a far row to one parent key: that of the last intermediate linked to it. */
  ghost predicate Attributed(s: Through, through: seq<Record>, parents: seq<Record>, parent: Record, r: Record) {
    var owner := LastOf(Filter(Listed(s, parents, r), through));
    owner.Some? && Via(s, parent)(owner.value)
  }

  ghost function AttributedTo(s: Through, through: seq<Record>, parents: seq<Record>, parent: Record): Record -> bool {
    (r: Record) => Attributed(s, through, parents, parent, r)
  }

  lemma ListedFetch(s: Through, keys: seq<int>, through: seq<Record>, parents: seq<Record>, r: Record)
    requires forall p :: p in parents && Value(p, s.localKey).Some? ==> Value(p, s.localKey).value in keys
    requires forall k :: k in keys ==> exists p :: p in parents && Value(p, s.localKey) == Some(k)
    requires Value(r, s.secondKey).Some?
    ensures Filter(Keyed((t: Record) => Value(t, s.link), Value(r, s.secondKey)),
                   Filter((t: Record) => ValueIn(t, s.firstKey, keys), through)) ==
            Filter(Listed(s, parents, r), through)
  {
    forall t | t in through
      ensures ValueIn(t, s.firstKey, keys) <==> exists p :: p in parents && Via(s, p)(t)
    {
      if ValueIn(t, s.firstKey, keys) {
        var k: int := Value(t, s.firstKey).value;
        assert k in keys;
        var p :| p in parents && Value(p, s.localKey) == Some(k);
        assert Via(s, p)(t);
      }
    }
    FilterTwice((t: Record) => ValueIn(t, s.firstKey, keys),
                Keyed((t: Record) => Value(t, s.link), Value(r, s.secondKey)), Listed(s, parents, r), through);
  }

  /** One query for the intermediates of all parents and one for the far rows. */
  method EagerLoadThrough(s: Through, through: seq<Record>, table: seq<Record>, parents: seq<Record>,
                          constrain: Record -> bool)
    returns (loaded: seq<seq<Record>>)
    ensures |loaded| == |parents|
    ensures forall i :: 0 <= i < |parents| ==>
              loaded[i] == Filter(And(AttributedTo(s, through, parents, parents[i]), constrain), table)
  {
    var keys := Keys(parents, s.localKey);
    var (first, link, second) := (s.firstKey, s.link, s.secondKey);
    var intermediates := Filter((t: Record) => ValueIn(t, first, keys), through);
    var byLink := IndexBy((t: Record) => Value(t, link), intermediates);
    var far := (r: Record) => ValueIn(r, second, Links(intermediates, link)) && constrain(r);
    var owner := (r: Record) => Get(byLink, Value(r, second));
    var ownerKey := (r: Record) => if owner(r).Some? then Value(owner(r).value, first) else None;
    var grouped := GroupBy(ownerKey, Filter(far, table));
    loaded := seq(|parents|, i requires 0 <= i < |parents| => GetAll(grouped, Value(parents[i], s.localKey)));
    forall i | 0 <= i < |parents|
      ensures loaded[i] == Filter(And(AttributedTo(s, through, parents, parents[i]), constrain), table)
    {
      var k := Value(parents[i], s.localKey);
      forall r | r in table
        ensures And(AttributedTo(s, through, parents, parents[i]), constrain)(r) <==> far(r) && Keyed(ownerKey, k)(r)
      {
        AttributionByLink(s, through, parents, keys, intermediates, parents[i], r);
      }
      FilterTwice(far, Keyed(ownerKey, k), And(AttributedTo(s, through, parents, parents[i]), constrain), table);
    }
  }

  /** What the two dictionaries say of a far row. */
  lemma AttributionByLink(s: Through, through: seq<Record>, parents: seq<Record>, keys: seq<int>,
                          intermediates: seq<Record>, parent: Record, r: Record)
    requires forall p :: p in parents && Value(p, s.localKey).Some? ==> Value(p, s.localKey).value in keys
    requires forall k :: k in keys ==> exists p :: p in parents && Value(p, s.localKey) == Some(k)
    requires intermediates == Filter((t: Record) => ValueIn(t, s.firstKey, keys), through)
    ensures var owner := LastOf(Filter(Keyed((t: Record) => Value(t, s.link), Value(r, s.secondKey)), intermediates));
            Attributed(s, through, parents, parent, r) <==>
            ValueIn(r, s.secondKey, Links(intermediates, s.link))
            && (if owner.Some? then Value(owner.value, s.firstKey) else None) == Value(parent, s.localKey)
  {
    var same := Keyed((t: Record) => Value(t, s.link), Value(r, s.secondKey));
    var linked := Filter(same, intermediates);
    if Value(r, s.secondKey).None? {
      FilterNone(Listed(s, parents, r), through);
    } else {
      ListedFetch(s, keys, through, parents, r);
      assert ValueIn(r, s.secondKey, Links(intermediates, s.link)) <==> linked != [] by {
        if linked != [] {
          FilterIn(same, intermediates, linked[0]);
          assert linked[0] in linked && Value(linked[0], s.link) == Some(Value(r, s.secondKey).value);
        } else if ValueIn(r, s.secondKey, Links(intermediates, s.link)) {
          var t :| t in intermediates && Value(t, s.link) == Some(Value(r, s.secondKey).value);
          FilterIn(same, intermediates, t);
        }
      }
      if linked != [] {
        var owner := linked[|linked| - 1];
        FilterIn(same, intermediates, owner);
        FilterIn((t: Record) => ValueIn(t, s.firstKey, keys), through, owner);
      }
    }
  }

  /** Two parents with different keys both reach a far row. */
  ghost predicate Contested(s: Through, through: seq<Record>, parents: seq<Record>, table: seq<Record>) {
    exists r, p, q :: r in table && p in parents && q in parents && Value(p, s.localKey) != Value(q, s.localKey)
                      && Reaches(s, through, p, r) && Reaches(s, through, q, r)
  }

  /** A parent without key, and a far row behind an intermediate that names no parent. */
  ghost predicate FetchesStrays(s: Through, through: seq<Record>, parents: seq<Record>, table: seq<Record>) {
    !NoStray(s, through, table) && exists p :: p in parents && Value(p, s.localKey).None?
  }

  /** Every parent gets together what it gets alone exactly when no far row is contested and no parent
      without key fetches, alone, the far rows of intermediates that name no parent. */
  lemma ThroughEqualsOwn(s: Through, through: seq<Record>, parents: seq<Record>, table: seq<Record>)
    ensures (forall p :: p in parents ==>
               Filter(AttributedTo(s, through, parents, p), table) == FetchThrough(s, through, p, table))
            <==> !Contested(s, through, parents, table) && !FetchesStrays(s, through, parents, table)
  {
    if Contested(s, through, parents, table) {
      var r, p, q :| r in table && p in parents && q in parents && Value(p, s.localKey) != Value(q, s.localKey)
                     && Reaches(s, through, p, r) && Reaches(s, through, q, r);
      FetchThroughIs(s, through, p, r, table);
      FetchThroughIs(s, through, q, r, table);
      FilterIn(AttributedTo(s, through, parents, p), table, r);
      FilterIn(AttributedTo(s, through, parents, q), table, r);
    } else {
      forall p | p in parents
        ensures Filter(AttributedTo(s, through, parents, p), table) == FetchThrough(s, through, p, table) <==>
                Value(p, s.localKey).Some? || NoStray(s, through, table)
      {
        ParentEqualsOwn(s, through, parents, p, table);
      }
    }
  }

  lemma ParentEqualsOwn(s: Through, through: seq<Record>, parents: seq<Record>, p: Record, table: seq<Record>)
    requires p in parents && !Contested(s, through, parents, table)
    ensures Filter(AttributedTo(s, through, parents, p), table) == FetchThrough(s, through, p, table) <==>
            Value(p, s.localKey).Some? || NoStray(s, through, table)
  {
    if Value(p, s.localKey).None? {
      FilterNone(AttributedTo(s, through, parents, p), table);
      FetchesNothingIff(s, through, p, table);
    } else {
      var own := Linked(s.secondKey, Links(Filter(ViaOwn(s, p), through), s.link));
      forall r | r in table ensures AttributedTo(s, through, parents, p)(r) == own(r) {
        FetchThroughIs(s, through, p, r, table);
        FilterIn(own, table, r);
        AttributedIffReached(s, through, parents, p, r, table);
      }
      FilterExt(AttributedTo(s, through, parents, p), own, table);
    }
  }

  lemma AttributedIffReached(s: Through, through: seq<Record>, parents: seq<Record>, p: Record, r: Record,
                             table: seq<Record>)
    requires r in table && p in parents && !Contested(s, through, parents, table)
    ensures Attributed(s, through, parents, p, r) <==> Reaches(s, through, p, r)
  {
    var listed := Filter(Listed(s, parents, r), through);
    if listed != [] {
      var owner := listed[|listed| - 1];
      FilterIn(Listed(s, parents, r), through, owner);
      var q :| q in parents && Via(s, q)(owner);
      assert Reaches(s, through, q, r);
    }
    if t :| t in through && Via(s, p)(t) && SqlEqual(Value(t, s.link), Value(r, s.secondKey)) {
      FilterIn(Listed(s, parents, r), through, t);
    }
  }

  lemma ReachesBy(s: Through, through: seq<Record>, parent: Record, t: Record, r: Record)
    requires t in through && Via(s, parent)(t) && SqlEqual(Value(t, s.link), Value(r, s.secondKey))
    ensures Reaches(s, through, parent, r)
  {
  }

  /** For example two intermediates of different parents that share a link: the far row is contested. */
  lemma SharedLinkIsContested()
    ensures var s := Through("id", "country", "id", "user");
            var through := [map["country" := 1, "id" := 7], map["country" := 2, "id" := 7]];
            Contested(s, through, [map["id" := 1], map["id" := 2]], [map["user" := 7]])
  {
    var s := Through("id", "country", "id", "user");
    var through := [map["country" := 1, "id" := 7], map["country" := 2, "id" := 7]];
    var p: Record, q: Record, r: Record := map["id" := 1], map["id" := 2], map["user" := 7];
    ReachesBy(s, through, p, through[0], r);
    ReachesBy(s, through, q, through[1], r);
    hide Reaches;
    assert p in [p, q] && q in [p, q] && r in [r] && Value(p, "id") != Value(q, "id");
  }

  /** For example a parent without key, alone, is given what belongs to an intermediate without parent. */
  lemma NullKeyFetchesStrays()
    ensures var s := Through("id", "country", "id", "user");
            var (parent, through, table) := (map[], [map["id" := 7]], [map["user" := 7]]);
            && FetchThrough(s, through, parent, table) == table
            && Filter(AttributedTo(s, through, [parent], parent), table) == []
            && !Contested(s, through, [parent], table)
  {
    var s := Through("id", "country", "id", "user");
    var parent: Record, through: seq<Record>, table: seq<Record> := map[], [map["id" := 7]], [map["user" := 7]];
    FilterNone(AttributedTo(s, through, [parent], parent), table);
    FilterAll(ViaOwn(s, parent), through);
    assert through[0] in through;
    FilterAll(Linked("user", Links(through, "id")), table);
  }
}
