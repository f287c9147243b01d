/** Many-to-many relations through a pivot table: loading and correlation. */
module Pivots {
  import opened Seqs
  import opened EagerLoading
  import opened WhereHas

  /** A pivot row: the two keys and whatever else it carries. */
  datatype Link = Link(pid: int, rid: int, columns: map<string, int>)

  /** `wheres` are the `where_pivot` conditions. */
  datatype BelongsToMany = BelongsToMany(parentKey: string, relatedKey: string, wheres: seq<(string, int)>)

  /** A related model with the pivot row it was reached through. */
  datatype Attached = Attached(model: Record, link: Link)

  predicate PivotWhere(wheres: seq<(string, int)>, l: Link) {
    forall i :: 0 <= i < |wheres| ==> wheres[i].0 in l.columns && l.columns[wheres[i].0] == wheres[i].1
  }

  function LinkOf(s: BelongsToMany, parent: Record): Link -> bool {
    (l: Link) => Value(parent, s.parentKey) == Some(l.pid) && PivotWhere(s.wheres, l)
  }

  /** The parent's pivot rows. */
  function Links(s: BelongsToMany, parent: Record, pivot: seq<Link>): seq<Link> {
    Filter(LinkOf(s, parent), pivot)
  }

  /** They name the parent's key and carry the value of every condition. */
  lemma LinksAre(s: BelongsToMany, parent: Record, pivot: seq<Link>, l: Link)
    ensures l in Links(s, parent, pivot) <==>
            && l in pivot && s.parentKey in parent && parent[s.parentKey] == l.pid
            && forall c, v :: (c, v) in s.wheres ==> c in l.columns && l.columns[c] == v
  {
    FilterIn(LinkOf(s, parent), pivot, l);
    if PivotWhere(s.wheres, l) {
      forall c, v | (c, v) in s.wheres ensures c in l.columns && l.columns[c] == v {
        var i :| 0 <= i < |s.wheres| && s.wheres[i] == (c, v);
      }
    }
    if forall c, v :: (c, v) in s.wheres ==> c in l.columns && l.columns[c] == v {
      forall i | 0 <= i < |s.wheres| ensures s.wheres[i].0 in l.columns && l.columns[s.wheres[i].0] == s.wheres[i].1 {
        assert (s.wheres[i].0, s.wheres[i].1) in s.wheres;
      }
    }
  }

  function HasKey(column: string, k: int): Record -> bool {
    (r: Record) => Value(r, column) == Some(k)
  }

  function ToRow(rid: int): Link -> bool {
    (l: Link) => l.rid == rid
  }

  /** The related rows' key identifies them. */
  ghost predicate UniqueKey(table: seq<Record>, column: string) {
    forall k: int :: Count(table, HasKey(column, k)) <= 1
  }

  // --- one parent alone ---------------------------------------------------------------------------

  function IsAttached(column: string, links: seq<Link>): Record -> bool {
    (r: Record) => Value(r, column).Some? && exists l :: l in links && l.rid == Value(r, column).value
  }

  function WithLink(column: string, links: seq<Link>): Record -> Attached {
    (r: Record) =>
      var last := LastOf(Filter(ToRow(if Value(r, column).Some? then Value(r, column).value else 0), links));
      Attached(r, if last.Some? then last.value else Link(0, 0, map[]))
  }

  /** `get`: each attached related row once, in the related table's order, with its last pivot row. */
  function Fetch(s: BelongsToMany, parent: Record, pivot: seq<Link>, table: seq<Record>): seq<Attached> {
    var links := Links(s, parent, pivot);
    Map(WithLink(s.relatedKey, links), Filter(IsAttached(s.relatedKey, links), table))
  }

  // --- many parents at once --------------------------------------------------------------------------

  function Source(column: string, table: seq<Record>, rid: int): Option<Record> {
    LastOf(Filter(HasKey(column, rid), table))
  }

  /** Along the parent's pivot rows: one copy per row whose related row was found. */
  function Along(column: string, links: seq<Link>, all: seq<Link>, table: seq<Record>): seq<Attached> {
    if links == [] then []
    else
      var source := Source(column, table, links[0].rid);
      var link := LastOf(Filter(ToRow(links[0].rid), all));
      (if source.Some? && link.Some? then [Attached(source.value, link.value)] else [])
      + Along(column, links[1..], all, table)
  }

  function Loaded(s: BelongsToMany, parent: Record, pivot: seq<Link>, table: seq<Record>): seq<Attached> {
    var links := Links(s, parent, pivot);
    Along(s.relatedKey, links, links, table)
  }

  function OfParents(s: BelongsToMany, ids: seq<int>): Link -> bool {
    (l: Link) => l.pid in ids && PivotWhere(s.wheres, l)
  }

  function Pid(): Link -> Option<int> {
    (l: Link) => Some(l.pid)
  }

  function KeyPair(): Link -> (int, int) {
    (l: Link) => (l.pid, l.rid)
  }

  function KeyOf(column: string): Record -> Option<int> {
    (r: Record) => Value(r, column)
  }

  /** One query over the pivot and one over the related table serve all parents: each gets what its
      own pivot rows lead to, under the constraint. */
  method EagerLoadPivot(s: BelongsToMany, pivot: seq<Link>, table: seq<Record>, parents: seq<Record>,
                        constrain: Record -> bool)
    returns (loaded: seq<seq<Attached>>)
    ensures |loaded| == |parents|
    ensures forall i :: 0 <= i < |parents| ==>
              loaded[i] == Loaded(s, parents[i], pivot, Filter(constrain, table))
  {
    hide Filter, LastOf, Along;
    var ids := Keys(parents, s.parentKey);
    var rows := Filter(OfParents(s, ids), pivot);
    var rowsByParent := GroupBy(Pid(), rows);
    var byPair := IndexBy(KeyPair(), rows);
    var models := Filter(And(IsAttached(s.relatedKey, rows), constrain), table);
    var byId := IndexBy(KeyOf(s.relatedKey), models);
    loaded := [];
    var i := 0;
    while i < |parents|
      invariant 0 <= i <= |parents| && |loaded| == i
      invariant forall j :: 0 <= j < i ==> loaded[j] == Loaded(s, parents[j], pivot, Filter(constrain, table))
    {
      var own := GetAll(rowsByParent, Value(parents[i], s.parentKey));
      assert parents[i] in parents;
      OwnLinks(s, parents[i], pivot, ids, rows);
      forall l | l in own
        ensures Get(byPair, (l.pid, l.rid)) == LastOf(Filter(ToRow(l.rid), own))
        ensures Get(byPair, (l.pid, l.rid)).Some?
        ensures Get(byId, Some(l.rid)) == Source(s.relatedKey, Filter(constrain, table), l.rid)
      {
        OwnPair(s, parents[i], pivot, ids, rows, l);
        SourceAmongModels(s.relatedKey, rows, table, constrain, l);
      }
      var matched := MatchLinks(s.relatedKey, own, byPair, byId, Filter(constrain, table));
      loaded := loaded + [matched];
      i := i + 1;
    }
  }

  method MatchLinks(column: string, own: seq<Link>, byPair: map<(int, int), Link>, byId: map<Option<int>, Record>,
                    ghost table: seq<Record>)
    returns (matched: seq<Attached>)
    requires forall l :: l in own ==>
               && Get(byPair, (l.pid, l.rid)) == LastOf(Filter(ToRow(l.rid), own))
               && Get(byPair, (l.pid, l.rid)).Some?
               && Get(byId, Some(l.rid)) == Source(column, table, l.rid)
    ensures matched == Along(column, own, own, table)
  {
    hide Filter, Along;
    matched := [];
    var j := 0;
    assert own[0..] == own;
    while j < |own|
      invariant 0 <= j <= |own|
      invariant matched + Along(column, own[j..], own, table) == Along(column, own, own, table)
    {
      var l := own[j];
      assert l in own;
      var source := Get(byId, Some(l.rid));
      ghost var rest := Along(column, own[j + 1..], own, table);
      AlongStep(column, own, j, table);
      if source.Some? {
        var next := Attached(source.value, byPair[(l.pid, l.rid)]);
        assert matched + ([next] + rest) == matched + [next] + rest;
        matched := matched + [next];
      }
      j := j + 1;
    }
    AlongEnd(column, own, table);
    assert matched + [] == matched;
  }

  lemma AlongStep(column: string, own: seq<Link>, j: nat, table: seq<Record>)
    requires j < |own|
    ensures var source := Source(column, table, own[j].rid);
            var link := LastOf(Filter(ToRow(own[j].rid), own));
            var rest := Along(column, own[j + 1..], own, table);
            Along(column, own[j..], own, table) ==
            if source.Some? && link.Some? then [Attached(source.value, link.value)] + rest else rest
  {
    assert own[j..][1..] == own[j + 1..];
  }

  lemma AlongEnd(column: string, own: seq<Link>, table: seq<Record>)
    ensures Along(column, own[|own|..], own, table) == []
  {
  }

  lemma OwnLinks(s: BelongsToMany, parent: Record, pivot: seq<Link>, ids: seq<int>, rows: seq<Link>)
    requires Value(parent, s.parentKey).Some? ==> Value(parent, s.parentKey).value in ids
    requires rows == Filter(OfParents(s, ids), pivot)
    ensures Filter(Keyed(Pid(), Value(parent, s.parentKey)), rows) == Links(s, parent, pivot)
  {
    FilterTwice(OfParents(s, ids), Keyed(Pid(), Value(parent, s.parentKey)), LinkOf(s, parent), pivot);
  }

  /** The pivot row kept for a pair is the parent's last for that related id. */
  lemma OwnPair(s: BelongsToMany, parent: Record, pivot: seq<Link>, ids: seq<int>, rows: seq<Link>, l: Link)
    requires Value(parent, s.parentKey).Some? ==> Value(parent, s.parentKey).value in ids
    requires rows == Filter(OfParents(s, ids), pivot) && l in Links(s, parent, pivot)
    ensures l in rows
    ensures Filter(Keyed(KeyPair(), (l.pid, l.rid)), rows) == Filter(ToRow(l.rid), Links(s, parent, pivot))
    ensures LastOf(Filter(ToRow(l.rid), Links(s, parent, pivot))).Some?
  {
    var pair := Keyed(KeyPair(), (l.pid, l.rid));
    FilterIn(LinkOf(s, parent), pivot, l);
    FilterIn(OfParents(s, ids), pivot, l);
    FilterIn(ToRow(l.rid), Links(s, parent, pivot), l);
    FilterTwice(OfParents(s, ids), pair, And(OfParents(s, ids), pair), pivot);
    FilterTwice(LinkOf(s, parent), ToRow(l.rid), And(OfParents(s, ids), pair), pivot);
  }

  lemma SourceAmongModels(column: string, rows: seq<Link>, table: seq<Record>, constrain: Record -> bool, l: Link)
    requires l in rows
    ensures Filter(Keyed(KeyOf(column), Some(l.rid)), Filter(And(IsAttached(column, rows), constrain), table)) ==
            Filter(HasKey(column, l.rid), Filter(constrain, table))
  {
    var same := Keyed(KeyOf(column), Some(l.rid));
    FilterTwice(And(IsAttached(column, rows), constrain), same, And(constrain, HasKey(column, l.rid)), table);
    FilterTwice(constrain, HasKey(column, l.rid), And(constrain, HasKey(column, l.rid)), table);
  }

  // --- the two loads agree ---------------------------------------------------------------------------

  lemma {:induction false} AlongIn(column: string, links: seq<Link>, all: seq<Link>, table: seq<Record>, a: Attached)
    requires forall l :: l in links ==> l in all
    ensures a in Along(column, links, all, table) <==>
            exists l :: l in links && Source(column, table, l.rid) == Some(a.model)
                        && LastOf(Filter(ToRow(l.rid), all)) == Some(a.link)
  {
    hide Filter, LastOf, Source;
    if links != [] {
      AlongIn(column, links[1..], all, table, a);
      assert links == [links[0]] + links[1..];
      LinkFound(all, links[0]);
    }
  }

  lemma LinkFound(all: seq<Link>, l: Link)
    requires l in all
    ensures LastOf(Filter(ToRow(l.rid), all)).Some?
  {
    FilterIn(ToRow(l.rid), all, l);
  }

  lemma SourceIs(column: string, table: seq<Record>, rid: int, r: Record)
    requires UniqueKey(table, column)
    ensures Source(column, table, rid) == Some(r) <==> r in table && Value(r, column) == Some(rid)
    ensures Count(table, HasKey(column, rid)) == if Source(column, table, rid).Some? then 1 else 0
  {
    var found := Filter(HasKey(column, rid), table);
    CountFilter(table, HasKey(column, rid));
    assert Count(table, HasKey(column, rid)) <= 1;
    FilterIn(HasKey(column, rid), table, r);
    if found != [] { assert found[0] in found; }
  }

  lemma FetchIn(s: BelongsToMany, parent: Record, pivot: seq<Link>, table: seq<Record>, a: Attached)
    ensures a in Fetch(s, parent, pivot, table) <==>
            var links := Links(s, parent, pivot);
            a.model in table && IsAttached(s.relatedKey, links)(a.model) && a == WithLink(s.relatedKey, links)(a.model)
  {
    var links := Links(s, parent, pivot);
    var models := Filter(IsAttached(s.relatedKey, links), table);
    FilterIn(IsAttached(s.relatedKey, links), table, a.model);
    if a in Fetch(s, parent, pivot, table) {
      var i :| 0 <= i < |models| && WithLink(s.relatedKey, links)(models[i]) == a;
      assert models[i] in models;
    }
    if a.model in models && a == WithLink(s.relatedKey, links)(a.model) {
      var i :| 0 <= i < |models| && models[i] == a.model;
      assert Fetch(s, parent, pivot, table)[i] == a;
    }
  }

  /** Alone or in a batch, a parent reaches the same related rows with the same pivot data. */
  lemma SameRows(s: BelongsToMany, parent: Record, pivot: seq<Link>, table: seq<Record>, a: Attached)
    requires UniqueKey(table, s.relatedKey)
    ensures a in Loaded(s, parent, pivot, table) <==> a in Fetch(s, parent, pivot, table)
  {
    hide Filter, Along, UniqueKey;
    var links := Links(s, parent, pivot);
    AlongIn(s.relatedKey, links, links, table, a);
    FetchIn(s, parent, pivot, table, a);
    if a in Loaded(s, parent, pivot, table) {
      var l :| l in links && Source(s.relatedKey, table, l.rid) == Some(a.model)
               && LastOf(Filter(ToRow(l.rid), links)) == Some(a.link);
      SourceIs(s.relatedKey, table, l.rid, a.model);
    }
    if a in Fetch(s, parent, pivot, table) {
      var rid: int := Value(a.model, s.relatedKey).value;
      var l :| l in links && l.rid == rid;
      SourceIs(s.relatedKey, table, rid, a.model);
      LinkFound(links, l);
    }
  }

  // --- EXISTS and COUNT ------------------------------------------------------------------------------------

  /** With a condition the clause looks the related row up; without one the pivot row is enough. */
  ghost predicate PivotExists(s: BelongsToMany, pivot: seq<Link>, table: seq<Record>, parent: Record, c: Constraint) {
    exists l :: l in pivot && LinkOf(s, parent)(l)
                && (c.None? || exists r :: r in table && Value(r, s.relatedKey) == Some(l.rid) && c.value(r))
  }

  /** The fetched relation contains a matching row. */
  ghost predicate FetchContains(rows: seq<Attached>, c: Constraint) {
    exists a :: a in rows && Meets(c, a.model)
  }

  /** Under a condition the clause holds for exactly the parents whose fetched relation has a matching
      row; without one, unless the parent has pivot rows and all of them dangle. */
  lemma PivotExistsAgrees(s: BelongsToMany, pivot: seq<Link>, table: seq<Record>, parent: Record, c: Constraint)
    ensures (PivotExists(s, pivot, table, parent, c) <==> FetchContains(Fetch(s, parent, pivot, table), c)) <==>
            c.Some? || NotAllDangle(s, pivot, table, parent)
    ensures !FetchContains(Fetch(s, parent, pivot, table), None) <==> Fetch(s, parent, pivot, table) == []
  {
    hide Filter;
    var links := Links(s, parent, pivot);
    var fetched := Fetch(s, parent, pivot, table);
    forall l ensures l in links <==> l in pivot && LinkOf(s, parent)(l) {
      FilterIn(LinkOf(s, parent), pivot, l);
    }
    if links != [] { assert links[0] in links; }
    if fetched != [] { assert fetched[0] in fetched && Meets(None, fetched[0].model); }
    FetchContainsIs(s, pivot, table, parent, c);
  }

  lemma FetchContainsIs(s: BelongsToMany, pivot: seq<Link>, table: seq<Record>, parent: Record, c: Constraint)
    ensures FetchContains(Fetch(s, parent, pivot, table), c) <==>
            exists l, r :: l in Links(s, parent, pivot) && r in table
                           && Value(r, s.relatedKey) == Some(l.rid) && Meets(c, r)
  {
    hide Filter;
    var links := Links(s, parent, pivot);
    if FetchContains(Fetch(s, parent, pivot, table), c) {
      var a :| a in Fetch(s, parent, pivot, table) && Meets(c, a.model);
      FetchIn(s, parent, pivot, table, a);
    }
    if l, r :| l in links && r in table && Value(r, s.relatedKey) == Some(l.rid) && Meets(c, r) {
      var a := WithLink(s.relatedKey, links)(r);
      FetchIn(s, parent, pivot, table, a);
    }
  }

  /** Not all of the parent's pivot rows, if it has any, name related rows that are gone. */
  ghost predicate NotAllDangle(s: BelongsToMany, pivot: seq<Link>, table: seq<Record>, parent: Record) {
    Links(s, parent, pivot) == [] ||
    exists l, r :: l in Links(s, parent, pivot) && r in table && Value(r, s.relatedKey) == Some(l.rid)
  }

  /** Under a condition `where_has` keeps exactly the parents whose fetched relation has a matching row.
      `doesnt_have` keeps exactly those whose fetched relation is empty, if and only if no parent's pivot
      rows all dangle. */
  lemma WhereHasPivot(s: BelongsToMany, pivot: seq<Link>, table: seq<Record>, parents: seq<Record>,
                      p: Record -> bool, has: Record -> bool, lacks: Record -> bool)
    requires forall x :: has(x) <==> PivotExists(s, pivot, table, x, Some(p))
    requires forall x :: lacks(x) <==> !PivotExists(s, pivot, table, x, None)
    ensures forall x :: x in Filter(has, parents) <==>
              x in parents && FetchContains(Fetch(s, x, pivot, table), Some(p))
    ensures (forall x :: x in Filter(lacks, parents) <==> x in parents && Fetch(s, x, pivot, table) == []) <==>
            forall x :: x in parents ==> NotAllDangle(s, pivot, table, x)
  {
    hide Filter, PivotExists, FetchContains;
    forall x ensures x in Filter(has, parents) <==>
                     x in parents && FetchContains(Fetch(s, x, pivot, table), Some(p))
    {
      FilterIn(has, parents, x);
      PivotExistsAgrees(s, pivot, table, x, Some(p));
    }
    forall x ensures (x in Filter(lacks, parents) <==> x in parents && Fetch(s, x, pivot, table) == []) <==>
                     (x in parents ==> NotAllDangle(s, pivot, table, x))
    {
      FilterIn(lacks, parents, x);
      PivotExistsAgrees(s, pivot, table, x, None);
    }
  }

  function Joined(column: string): (Link, Record) -> bool {
    (l: Link, r: Record) => Value(r, column) == Some(l.rid)
  }

  /** COUNT over the pivot joined with the related table. */
  function PivotCount(s: BelongsToMany, pivot: seq<Link>, table: seq<Record>, parent: Record): nat {
    Pairs(Joined(s.relatedKey), Links(s, parent, pivot), table)
  }

  lemma {:induction false} AlongSize(column: string, links: seq<Link>, all: seq<Link>, table: seq<Record>)
    requires UniqueKey(table, column) && forall l :: l in links ==> l in all
    ensures Pairs(Joined(column), links, table) == |Along(column, links, all, table)|
  {
    hide Filter, UniqueKey;
    if links != [] {
      AlongSize(column, links[1..], all, table);
      assert links == [links[0]] + links[1..];
      SourceIs(column, table, links[0].rid, map[]);
      LinkFound(all, links[0]);
      CountExt(table, On(Joined(column), links[0]), HasKey(column, links[0].rid));
    }
  }

  /** No related row is linked twice to the parent. */
  ghost predicate LinkedOnce(s: BelongsToMany, pivot: seq<Link>, table: seq<Record>, parent: Record) {
    forall r :: r in table ==> Count(Links(s, parent, pivot), To(Joined(s.relatedKey), r)) <= 1
  }

  /** `with_count` is always the size of the batch-loaded relation; it is the size of the relation
      loaded alone exactly when no related row is linked twice. */
  lemma PivotCountAgrees(s: BelongsToMany, pivot: seq<Link>, table: seq<Record>, parent: Record)
    requires UniqueKey(table, s.relatedKey)
    ensures PivotCount(s, pivot, table, parent) == |Loaded(s, parent, pivot, table)|
    ensures PivotCount(s, pivot, table, parent) >= |Fetch(s, parent, pivot, table)|
    ensures PivotCount(s, pivot, table, parent) == |Fetch(s, parent, pivot, table)| <==>
            LinkedOnce(s, pivot, table, parent)
  {
    var links := Links(s, parent, pivot);
    AlongSize(s.relatedKey, links, links, table);
    CountFilter(table, IsAttached(s.relatedKey, links));
    forall r | r in table
      ensures IsAttached(s.relatedKey, links)(r) <==> exists l :: l in links && Joined(s.relatedKey)(l, r)
    {
      if l :| l in links && Joined(s.relatedKey)(l, r) { assert IsAttached(s.relatedKey, links)(r); }
      if IsAttached(s.relatedKey, links)(r) {
        var l :| l in links && l.rid == Value(r, s.relatedKey).value;
        assert Joined(s.relatedKey)(l, r);
      }
    }
    PairsAndPartners(Joined(s.relatedKey), links, table, IsAttached(s.relatedKey, links));
  }

  /** The two loads return the same rows equally often exactly when no related row is linked twice. */
  lemma SameRowsAsOften(s: BelongsToMany, parent: Record, pivot: seq<Link>, table: seq<Record>)
    requires UniqueKey(table, s.relatedKey)
    ensures multiset(Loaded(s, parent, pivot, table)) == multiset(Fetch(s, parent, pivot, table)) <==>
            LinkedOnce(s, pivot, table, parent)
  {
    hide Fetch, Loaded, LinkedOnce, PivotCount, UniqueKey;
    PivotCountAgrees(s, pivot, table, parent);
    var loaded, fetched := Loaded(s, parent, pivot, table), Fetch(s, parent, pivot, table);
    if multiset(loaded) == multiset(fetched) {
      assert |loaded| == |multiset(loaded)| && |fetched| == |multiset(fetched)|;
    }
    if LinkedOnce(s, pivot, table, parent) {
      LoadedDistinct(s, parent, pivot, table);
      FetchDistinct(s, parent, pivot, table);
      forall a ensures a in loaded <==> a in fetched {
        SameRows(s, parent, pivot, table, a);
      }
      SameElementsOnce(loaded, fetched);
    }
  }

  lemma FetchDistinct(s: BelongsToMany, parent: Record, pivot: seq<Link>, table: seq<Record>)
    requires UniqueKey(table, s.relatedKey)
    ensures Distinct(Fetch(s, parent, pivot, table))
  {
    var links := Links(s, parent, pivot);
    var models := Filter(IsAttached(s.relatedKey, links), table);
    forall i, j | 0 <= i < j < |models| ensures models[i] != models[j] {
      FilterIn(IsAttached(s.relatedKey, links), table, models[i]);
      assert models[i] in models;
      var k: int := Value(models[i], s.relatedKey).value;
      assert Count(table, HasKey(s.relatedKey, k)) <= 1;
      if models[i] == models[j] {
        TwoCounted(models, i, j, HasKey(s.relatedKey, k));
        CountOfFilter(table, IsAttached(s.relatedKey, links), HasKey(s.relatedKey, k));
      }
    }
  }

  lemma LoadedDistinct(s: BelongsToMany, parent: Record, pivot: seq<Link>, table: seq<Record>)
    requires UniqueKey(table, s.relatedKey) && LinkedOnce(s, pivot, table, parent)
    ensures Distinct(Loaded(s, parent, pivot, table))
  {
    var links := Links(s, parent, pivot);
    AlongDistinct(s.relatedKey, links, links, table);
  }

  lemma {:induction false} AlongDistinct(column: string, links: seq<Link>, all: seq<Link>, table: seq<Record>)
    requires UniqueKey(table, column) && forall l :: l in links ==> l in all
    requires forall r :: r in table ==> Count(links, To(Joined(column), r)) <= 1
    ensures Distinct(Along(column, links, all, table))
  {
    hide Filter, UniqueKey;
    if links != [] {
      var rest := Along(column, links[1..], all, table);
      assert links == [links[0]] + links[1..];
      forall r | r in table ensures Count(links[1..], To(Joined(column), r)) <= 1 {
        assert Count(links, To(Joined(column), r)) <= 1;
      }
      AlongDistinct(column, links[1..], all, table);
      var source := Source(column, table, links[0].rid);
      if source.Some? {
        LinkFound(all, links[0]);
        var a := Attached(source.value, LastOf(Filter(ToRow(links[0].rid), all)).value);
        SourceIs(column, table, links[0].rid, source.value);
        assert Joined(column)(links[0], source.value);
        assert Count(links, To(Joined(column), source.value)) <= 1;
        CountZero(links[1..], To(Joined(column), source.value));
        AlongIn(column, links[1..], all, table, a);
        if a in rest {
          var l :| l in links[1..] && Source(column, table, l.rid) == Some(a.model);
          SourceIs(column, table, l.rid, a.model);
        }
        assert a !in rest;
      }
    }
  }

  /** For example a pivot row whose related row is gone: the clause without condition still holds. */
  lemma DanglingRowCounts(p: int, r: int)
    ensures var s := BelongsToMany("id", "id", []);
            var (pivot, parent) := ([Link(p, r, map[])], map["id" := p]);
            PivotExists(s, pivot, [], parent, None) && Fetch(s, parent, pivot, []) == []
  {
    var s := BelongsToMany("id", "id", []);
    var (pivot, parent) := ([Link(p, r, map[])], map["id" := p]);
    assert pivot[0] in pivot && LinkOf(s, parent)(pivot[0]);
  }

  /** For example a related row linked twice: together it is loaded twice, alone once. */
  lemma LinkedTwice(p: int, r: int)
    ensures var s := BelongsToMany("id", "id", []);
            var (pivot, parent) := ([Link(p, r, map[]), Link(p, r, map[])], map["id" := p]);
            |Loaded(s, parent, pivot, [map["id" := r]])| == 2 && |Fetch(s, parent, pivot, [map["id" := r]])| == 1
  {
    var s := BelongsToMany("id", "id", []);
    var link := Link(p, r, map[]);
    var (pivot, parent) := ([link, link], map["id" := p]);
    var row: Record := map["id" := r];
    FilterAll(LinkOf(s, parent), pivot);
    assert Links(s, parent, pivot) == pivot;
    FilterAll(ToRow(r), pivot);
    FilterSingle(HasKey("id", r), row);
    assert Source("id", [row], r) == Some(row);
    assert pivot[1..] == [link] && [link][1..] == [];
    assert Along("id", [link], pivot, [row]) == [Attached(row, link)] + [];
    assert Along("id", pivot, pivot, [row]) == [Attached(row, link)] + Along("id", [link], pivot, [row]);
    assert pivot[0] in pivot;
    FilterSingle(IsAttached("id", pivot), row);
  }
}
