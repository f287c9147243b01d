/** Correlated EXISTS and COUNT clauses against the rows the relation fetches. */
module WhereHas {
  import opened Seqs
  import opened EagerLoading

  /** The condition a callback adds; a callback that adds none is `None`. */
  type Constraint = Option<Record -> bool>

  predicate Meets(c: Constraint, r: Record) {
    c.None? || c.value(r)
  }

  ghost predicate Contains(rows: seq<Record>, c: Constraint) {
    exists r :: r in rows && Meets(c, r)
  }

  // --- has-one, has-many, morph --------------------------------------------------------------

  ghost predicate ManyExists(s: HasMany, table: seq<Record>, parent: Record, c: Constraint) {
    exists r :: r in table && Correlated(s, parent)(r) && Meets(c, r)
  }

  function ManyCount(s: HasMany, table: seq<Record>, parent: Record): nat {
    Count(table, Correlated(s, parent))
  }

  /** The clause holds for exactly the parents whose batch-loaded relation has a matching row; none
      at all without constraint; and the count is that relation's size. Loading the parent alone
      agrees with all three unless its key is NULL and the table holds orphans. */
  lemma {:induction false} ManyAgrees(s: HasMany, table: seq<Record>, parent: Record, c: Constraint)
    ensures var loaded := Filter(Correlated(s, parent), table);
            && (ManyExists(s, table, parent, c) <==> Contains(loaded, c))
            && (!ManyExists(s, table, parent, None) <==> loaded == [])
            && ManyCount(s, table, parent) == |loaded|
    ensures (Value(parent, s.localKey).Some? ||
             !exists r :: r in table && OfKind(s.kind, r) && Value(r, s.foreignKey).None?) <==>
            ManyCount(s, table, parent) == |Fetch(s, parent, table)|
  {
    var loaded := Filter(Correlated(s, parent), table);
    CountFilter(table, Correlated(s, parent));
    forall r ensures r in loaded <==> r in table && Correlated(s, parent)(r) {
      FilterIn(Correlated(s, parent), table, r);
    }
    if loaded != [] { assert loaded[0] in loaded; }
    BatchEqualsOwn(s, parent, table);
    if Value(parent, s.localKey).None? {
      FilterNone(Correlated(s, parent), table);
    }
  }

  /** No row of the parent is hidden by the related model's own scopes, such as soft deletion. */
  ghost predicate NoneHidden(s: HasMany, table: seq<Record>, parent: Record, visible: Record -> bool) {
    forall r :: r in table && Correlated(s, parent)(r) ==> visible(r)
  }

  ghost predicate ScopedClauseAgrees(s: HasMany, table: seq<Record>, parent: Record, visible: Record -> bool,
                                     c: Constraint) {
    ManyExists(s, table, parent, c) <==> Contains(Filter(And(Correlated(s, parent), visible), table), c)
  }

  /** The related model's scopes filter what is loaded but are not part of the clauses: EXISTS agrees with
      the loaded relation under every constraint, and COUNT with its size, exactly when they hide nothing. */
  lemma {:induction false} ScopedClauseAgreesIff(s: HasMany, table: seq<Record>, parent: Record,
                                                 visible: Record -> bool)
    ensures (forall c: Constraint :: ScopedClauseAgrees(s, table, parent, visible, c)) <==>
            NoneHidden(s, table, parent, visible)
    ensures ManyCount(s, table, parent) == |Filter(And(Correlated(s, parent), visible), table)| <==>
            NoneHidden(s, table, parent, visible)
  {
    var shown := And(Correlated(s, parent), visible);
    forall r ensures r in Filter(shown, table) <==> r in table && shown(r) {
      FilterIn(shown, table, r);
    }
    CountFilter(table, shown);
    CountNarrowed(table, Correlated(s, parent), visible);
    hide Filter;
    if r :| r in table && Correlated(s, parent)(r) && !visible(r) {
      var same: Constraint := Some((x: Record) => x == r);
      assert Meets(same, r) && ManyExists(s, table, parent, same);
      assert !ScopedClauseAgrees(s, table, parent, visible, same);
    }
  }

  lemma {:induction false} CountNarrowed(table: seq<Record>, p: Record -> bool, q: Record -> bool)
    ensures Count(table, And(p, q)) <= Count(table, p)
    ensures Count(table, And(p, q)) == Count(table, p) <==> forall r :: r in table && p(r) ==> q(r)
  {
    if table != [] {
      CountNarrowed(table[1..], p, q);
      assert table == [table[0]] + table[1..];
    }
  }

  // --- belongs-to ---------------------------------------------------------------------------------

  ghost predicate OwnerExists(s: BelongsTo, table: seq<Record>, child: Record, c: Constraint) {
    exists r :: r in table && OwnerOf(s, child)(r) && Meets(c, r)
  }

  /** All rows the child's key names are one and the same record; for a NULL foreign key, no row lacks a
      key. */
  ghost predicate OwnersAlike(s: BelongsTo, table: seq<Record>, child: Record) {
    if Value(child, s.foreignKey).Some? then
      forall a, b :: a in table && b in table && OwnerOf(s, child)(a) && OwnerOf(s, child)(b) ==> a == b
    else NoKeylessOwner(s, table)
  }

  /** The clause and the fetched owner agree under a constraint. */
  ghost predicate OwnerClauseAgrees(s: BelongsTo, table: seq<Record>, child: Record, c: Constraint) {
    var owner := FetchOwner(s, child, table);
    OwnerExists(s, table, child, c) <==> owner.Some? && Meets(c, owner.value)
  }

  /** EXISTS agrees with the fetched owner under every constraint exactly when the rows it could be are
      one record; COUNT agrees exactly when at most one row carries the key, or, for a NULL foreign key,
      when no row lacks one. */
  lemma {:induction false} OwnerAgrees(s: BelongsTo, table: seq<Record>, child: Record)
    ensures (forall c: Constraint :: OwnerClauseAgrees(s, table, child, c)) <==> OwnersAlike(s, table, child)
    ensures Count(table, OwnerOf(s, child)) == (if FetchOwner(s, child, table).Some? then 1 else 0) <==>
            if Value(child, s.foreignKey).Some? then Count(table, OwnerOf(s, child)) <= 1
            else NoKeylessOwner(s, table)
  {
    var matching := Filter(OwnerOf(s, child), table);
    FetchOwnerIs(s, child, table);
    CountFilter(table, OwnerOf(s, child));
    forall r ensures r in matching <==> r in table && OwnerOf(s, child)(r) {
      FilterIn(OwnerOf(s, child), table, r);
    }
    if matching != [] { assert matching[0] in matching; }
    if OwnersAlike(s, table, child) {
      forall c: Constraint ensures OwnerClauseAgrees(s, table, child, c) {
        if OwnerExists(s, table, child, c) {
          var r :| r in table && OwnerOf(s, child)(r) && Meets(c, r);
          assert r in matching;
        }
      }
    }
    if forall c: Constraint :: OwnerClauseAgrees(s, table, child, c) {
      assert OwnerClauseAgrees(s, table, child, None);
      forall r | r in matching ensures r == matching[0] {
        var same: Constraint := Some((x: Record) => x == r);
        assert OwnerExists(s, table, child, same) by { assert Meets(same, r); }
        assert OwnerClauseAgrees(s, table, child, same);
      }
    }
  }

  /** Two rows with the key: the clause looks at both, the fetch only at the first. */
  lemma SecondOwnerIsOnlySeenByTheClause(k: int)
    ensures var s := BelongsTo("owner", "key");
            var table := [map["key" := k, "vip" := 0], map["key" := k, "vip" := 1]];
            var child := map["owner" := k];
            var vip: Constraint := Some((r: Record) => Value(r, "vip") == Some(1));
            && OwnerExists(s, table, child, vip)
            && FetchOwner(s, child, table).Some?
            && !Meets(vip, FetchOwner(s, child, table).value)
  {
    var s := BelongsTo("owner", "key");
    var table := [map["key" := k, "vip" := 0], map["key" := k, "vip" := 1]];
    var child := map["owner" := k];
    assert table[1] in table && OwnerOf(s, child)(table[1]);
  }

  // --- through ----------------------------------------------------------------------------------------

  function Chained(s: Through, parent: Record): (Record, Record) -> bool {
    (t: Record, r: Record) => Via(s, parent)(t) && SqlEqual(Value(t, s.link), Value(r, s.secondKey))
  }

  /** The nested EXISTS: an intermediate of the parent for which a matching far row exists. */
  ghost predicate ThroughExists(s: Through, through: seq<Record>, table: seq<Record>, parent: Record, c: Constraint) {
    exists t :: t in through && Via(s, parent)(t)
                && exists r :: r in table && SqlEqual(Value(r, s.secondKey), Value(t, s.link)) && Meets(c, r)
  }

  /** COUNT over the join of the intermediates with the far rows. */
  function ThroughCount(s: Through, through: seq<Record>, table: seq<Record>, parent: Record): nat {
    Pairs(Chained(s, parent), through, table)
  }

  /** The parent's own fetch gives no row of a parentless intermediate that meets the constraint: the parent
      has a key, or there is no such row. */
  ghost predicate FetchesOnlyOwn(s: Through, through: seq<Record>, table: seq<Record>, parent: Record, c: Constraint) {
    Value(parent, s.localKey).Some? || !exists r :: r in table && Stray(s, through, r) && Meets(c, r)
  }

  /** The clause holds only for parents whose fetched relation has a matching row, and for all of them
      exactly when no parent without key fetches one that is not its own. The count is that of the fetch
      exactly when besides no far row is reached twice, and for a parent with a key never below it. */
  lemma {:induction false} ThroughAgrees(s: Through, through: seq<Record>, table: seq<Record>,
                                         parent: Record, c: Constraint)
    ensures var fetched := FetchThrough(s, through, parent, table);
            && (ThroughExists(s, through, table, parent, c) ==> Contains(fetched, c))
            && ((ThroughExists(s, through, table, parent, c) <==> Contains(fetched, c)) <==>
                FetchesOnlyOwn(s, through, table, parent, c))
            && ((!ThroughExists(s, through, table, parent, None) <==> fetched == []) <==>
                FetchesOnlyOwn(s, through, table, parent, None))
            && (ThroughCount(s, through, table, parent) >= |fetched| <==>
                FetchesOnlyOwn(s, through, table, parent, None))
            && (ThroughCount(s, through, table, parent) == |fetched| <==>
                FetchesOnlyOwn(s, through, table, parent, None)
                && forall r :: r in table ==> Count(through, To(Chained(s, parent), r)) <= 1)
  {
    var fetched := FetchThrough(s, through, parent, table);
    forall r ensures r in fetched <==>
                     && r in table
                     && if Value(parent, s.localKey).Some? then Reaches(s, through, parent, r)
                        else Stray(s, through, r)
             ensures Value(parent, s.localKey).None? ==> !Reaches(s, through, parent, r)
    {
      FetchThroughIs(s, through, parent, r, table);
    }
    ThroughExistsIs(s, through, table, parent, c);
    ThroughExistsIs(s, through, table, parent, None);
    if fetched != [] { assert fetched[0] in fetched && Meets(None, fetched[0]); }
    ThroughCounts(s, through, table, parent);
  }

  /** The count over the join is at least the number of far rows reached, and equal to it exactly when none
      is reached twice. */
  lemma {:induction false} ThroughCounts(s: Through, through: seq<Record>, table: seq<Record>, parent: Record)
    ensures var fetched := FetchThrough(s, through, parent, table);
            var once := forall r :: r in table ==> Count(through, To(Chained(s, parent), r)) <= 1;
            if Value(parent, s.localKey).Some? then
              && ThroughCount(s, through, table, parent) >= |fetched|
              && (ThroughCount(s, through, table, parent) == |fetched| <==> once)
            else ThroughCount(s, through, table, parent) == 0 && once
  {
    var own := Linked(s.secondKey, Links(Filter(Via(s, parent), through), s.link));
    forall r | r in table ensures own(r) <==> exists t :: t in through && Chained(s, parent)(t, r) {
      FilterIn(own, table, r);
      BehindIs(s, through, Via(s, parent), r, table);
      assert Reaches(s, through, parent, r) <==> exists t :: t in through && Chained(s, parent)(t, r);
    }
    CountFilter(table, own);
    PairsAndPartners(Chained(s, parent), through, table, own);
    if Value(parent, s.localKey).Some? {
      FilterExt(Via(s, parent), ViaOwn(s, parent), through);
    } else {
      FilterNone(own, table);
      forall r | r in table ensures Count(through, To(Chained(s, parent), r)) == 0 {
        CountZero(through, To(Chained(s, parent), r));
      }
    }
  }

  lemma {:induction false} ThroughExistsIs(s: Through, through: seq<Record>, table: seq<Record>,
                                           parent: Record, c: Constraint)
    ensures ThroughExists(s, through, table, parent, c) <==>
            exists r :: r in table && Reaches(s, through, parent, r) && Meets(c, r)
  {
    if ThroughExists(s, through, table, parent, c) {
      var t :| t in through && Via(s, parent)(t)
               && exists r :: r in table && SqlEqual(Value(r, s.secondKey), Value(t, s.link)) && Meets(c, r);
      var r :| r in table && SqlEqual(Value(r, s.secondKey), Value(t, s.link)) && Meets(c, r);
      assert Reaches(s, through, parent, r);
    }
    if r :| r in table && Reaches(s, through, parent, r) && Meets(c, r) {
      var t :| t in through && Via(s, parent)(t) && SqlEqual(Value(t, s.link), Value(r, s.secondKey));
    }
  }

  ghost predicate BatchClauseAgrees(s: Through, through: seq<Record>, table: seq<Record>, parents: seq<Record>,
                                    p: Record, c: Constraint) {
    ThroughExists(s, through, table, p, c) <==> Contains(Filter(AttributedTo(s, through, parents, p), table), c)
  }

  /** The clause and the relation loaded in one batch agree, for all parents and under every constraint,
      exactly when no far row is contested; a parent without key has nothing in either. */
  lemma {:induction false} ThroughBatchAgrees(s: Through, through: seq<Record>, table: seq<Record>,
                                              parents: seq<Record>)
    ensures (forall p, c: Constraint :: p in parents ==> BatchClauseAgrees(s, through, table, parents, p, c))
            <==> !Contested(s, through, parents, table)
  {
    hide BatchClauseAgrees, Contested;
    if Contested(s, through, parents, table) {
      var p, c := ContestedDisagrees(s, through, table, parents);
    } else {
      forall p, c: Constraint | p in parents ensures BatchClauseAgrees(s, through, table, parents, p, c) {
        UncontestedAgrees(s, through, table, parents, p, c);
      }
    }
  }

  lemma ContestedDisagrees(s: Through, through: seq<Record>, table: seq<Record>, parents: seq<Record>)
    returns (p: Record, c: Constraint)
    requires Contested(s, through, parents, table)
    ensures p in parents && !BatchClauseAgrees(s, through, table, parents, p, c)
  {
    hide Attributed, BatchClauseAgrees, Reaches;
    var r, first, second :|
      r in table && first in parents && second in parents && Value(first, s.localKey) != Value(second, s.localKey)
      && Reaches(s, through, first, r) && Reaches(s, through, second, r);
    hide Contested;
    c := Some((x: Record) => x == r);
    OneAgrees(s, through, table, parents, first, r, c);
    OneAgrees(s, through, table, parents, second, r, c);
    if Attributed(s, through, parents, first, r) {
      if Attributed(s, through, parents, second, r) {
        AttributedOnce(s, through, parents, first, second, r);
        assert false;
      }
      p := second;
    } else {
      p := first;
    }
  }

  lemma AttributedOnce(s: Through, through: seq<Record>, parents: seq<Record>, p: Record, q: Record, r: Record)
    requires Attributed(s, through, parents, p, r) && Attributed(s, through, parents, q, r)
    ensures Value(p, s.localKey) == Value(q, s.localKey)
  {
  }

  /** Asked for exactly the row `r`, which the parent reaches, the two agree only if it is attributed. */
  lemma OneAgrees(s: Through, through: seq<Record>, table: seq<Record>, parents: seq<Record>, p: Record,
                  r: Record, same: Constraint)
    requires r in table && Reaches(s, through, p, r) && forall x :: Meets(same, x) <==> x == r
    ensures BatchClauseAgrees(s, through, table, parents, p, same) ==> Attributed(s, through, parents, p, r)
  {
    hide Reaches, Attributed, BatchClauseAgrees, Meets;
    BatchClauseIs(s, through, table, parents, p, same);
  }

  lemma UncontestedAgrees(s: Through, through: seq<Record>, table: seq<Record>, parents: seq<Record>, p: Record,
                          c: Constraint)
    requires p in parents && !Contested(s, through, parents, table)
    ensures BatchClauseAgrees(s, through, table, parents, p, c)
  {
    hide Reaches, Attributed, BatchClauseAgrees, Contested;
    forall r | r in table ensures Attributed(s, through, parents, p, r) <==> Reaches(s, through, p, r) {
      AttributedIffReached(s, through, parents, p, r, table);
    }
    BatchClauseIs(s, through, table, parents, p, c);
  }

  lemma {:induction false} BatchClauseIs(s: Through, through: seq<Record>, table: seq<Record>,
                                         parents: seq<Record>, p: Record, c: Constraint)
    ensures BatchClauseAgrees(s, through, table, parents, p, c) <==>
            ((exists r :: r in table && Reaches(s, through, p, r) && Meets(c, r)) <==>
             exists r :: r in table && Attributed(s, through, parents, p, r) && Meets(c, r))
  {
    hide Reaches, Attributed, ThroughExists, Contains;
    ThroughExistsIs(s, through, table, p, c);
    ContainsFiltered(AttributedTo(s, through, parents, p), table, c);
  }

  lemma ContainsFiltered(p: Record -> bool, table: seq<Record>, c: Constraint)
    ensures Contains(Filter(p, table), c) <==> exists r :: r in table && p(r) && Meets(c, r)
  {
    forall r ensures r in Filter(p, table) <==> r in table && p(r) {
      FilterIn(p, table, r);
    }
  }

  // --- the query builder ------------------------------------------------------------------------------

  /** `where_has` keeps, in order, exactly the parents whose relation has a matching row, and
      `doesnt_have` exactly those whose relation is empty: for has-many and morph relations ... */
  lemma {:induction false} WhereHasMany(s: HasMany, table: seq<Record>, parents: seq<Record>, c: Constraint,
                                        has: Record -> bool, lacks: Record -> bool)
    requires forall p :: has(p) <==> ManyExists(s, table, p, c)
    requires forall p :: lacks(p) <==> !ManyExists(s, table, p, None)
    ensures forall p :: p in Filter(has, parents) <==> p in parents && Contains(Filter(Correlated(s, p), table), c)
    ensures forall p :: p in Filter(lacks, parents) <==> p in parents && Filter(Correlated(s, p), table) == []
  {
    forall p
      ensures p in Filter(has, parents) <==> p in parents && Contains(Filter(Correlated(s, p), table), c)
      ensures p in Filter(lacks, parents) <==> p in parents && Filter(Correlated(s, p), table) == []
    {
      FilterIn(has, parents, p);
      FilterIn(lacks, parents, p);
      ManyAgrees(s, table, p, c);
    }
  }

  /** ... for belongs-to relations, where the rows each child's key can name are one record ... */
  lemma {:induction false} WhereHasOwner(s: BelongsTo, table: seq<Record>, children: seq<Record>, c: Constraint,
                                         has: Record -> bool, lacks: Record -> bool)
    requires forall p :: has(p) <==> OwnerExists(s, table, p, c)
    requires forall p :: lacks(p) <==> !OwnerExists(s, table, p, None)
    requires forall p :: p in children ==> OwnersAlike(s, table, p)
    ensures forall p :: p in Filter(has, children) <==>
              p in children && FetchOwner(s, p, table).Some? && Meets(c, FetchOwner(s, p, table).value)
    ensures forall p :: p in Filter(lacks, children) <==> p in children && FetchOwner(s, p, table).None?
  {
    forall p
      ensures p in Filter(has, children) <==>
                p in children && FetchOwner(s, p, table).Some? && Meets(c, FetchOwner(s, p, table).value)
      ensures p in Filter(lacks, children) <==> p in children && FetchOwner(s, p, table).None?
    {
      FilterIn(has, children, p);
      FilterIn(lacks, children, p);
      OwnerAgrees(s, table, p);
      if p in children {
        assert OwnerClauseAgrees(s, table, p, c) && OwnerClauseAgrees(s, table, p, None);
      }
    }
  }

  lemma NothingContained(rows: seq<Record>, c: Constraint)
    ensures rows == [] ==> !Contains(rows, c)
  {
  }

  /** ... and for relations through an intermediate, parent by parent exactly where its own fetch gives only
      what is its own. */
  lemma {:induction false} WhereHasThrough(s: Through, through: seq<Record>, table: seq<Record>,
                                           parents: seq<Record>, c: Constraint,
                                           has: Record -> bool, lacks: Record -> bool)
    requires forall p :: has(p) <==> ThroughExists(s, through, table, p, c)
    requires forall p :: lacks(p) <==> !ThroughExists(s, through, table, p, None)
    ensures forall p :: p in Filter(has, parents) ==> p in parents && Contains(FetchThrough(s, through, p, table), c)
    ensures forall p :: p in parents ==>
              ((p in Filter(has, parents) <==> Contains(FetchThrough(s, through, p, table), c)) <==>
               FetchesOnlyOwn(s, through, table, p, c))
    ensures forall p :: p in parents && FetchThrough(s, through, p, table) == [] ==> p in Filter(lacks, parents)
    ensures forall p :: p in parents ==>
              ((p in Filter(lacks, parents) <==> FetchThrough(s, through, p, table) == []) <==>
               FetchesOnlyOwn(s, through, table, p, None))
  {
    forall p
      ensures p in Filter(has, parents) <==> p in parents && ThroughExists(s, through, table, p, c)
      ensures p in Filter(lacks, parents) <==> p in parents && !ThroughExists(s, through, table, p, None)
    {
      FilterIn(has, parents, p);
      FilterIn(lacks, parents, p);
    }
    hide ThroughExists, FetchThrough, Filter, FetchesOnlyOwn, Contains;
    forall p
      ensures ThroughExists(s, through, table, p, c) ==> Contains(FetchThrough(s, through, p, table), c)
      ensures (ThroughExists(s, through, table, p, c) <==> Contains(FetchThrough(s, through, p, table), c)) <==>
              FetchesOnlyOwn(s, through, table, p, c)
      ensures FetchThrough(s, through, p, table) == [] ==> !ThroughExists(s, through, table, p, None)
      ensures (!ThroughExists(s, through, table, p, None) <==> FetchThrough(s, through, p, table) == []) <==>
              FetchesOnlyOwn(s, through, table, p, None)
    {
      ThroughAgrees(s, through, table, p, c);
      ThroughAgrees(s, through, table, p, None);
      NothingContained(FetchThrough(s, through, p, table), None);
    }
  }
}
