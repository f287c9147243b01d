/** Migrations applied in batches and rolled back batch by batch. The database schema is any type;
    a migration is a pair of partial changes to it. */
module Migrator {
  import opened Seqs

  /** `up` and `down` fail where they raise. */
  datatype Migration<!S> = Migration(name: string, up: S -> Option<S>, down: S -> Option<S>)

  /** A row of the bookkeeping table, whose primary key is the name. */
  datatype Entry = Entry(name: string, batch: nat)

  datatype Outcome = Ran(count: nat) | Failed

  /** Applying migrations in order. */
  function Fold<S>(ms: seq<Migration<S>>, s: S): Option<S> {
    if ms == [] then Some(s)
    else
      var before := Fold(ms[..|ms| - 1], s);
      if before.None? then None else ms[|ms| - 1].up(before.value)
  }

  /** Reverting, from the last of the list to the first, those named in the batch. */
  function Unfold<S>(ms: seq<Migration<S>>, batch: set<string>, s: S): Option<S> {
    if ms == [] then Some(s)
    else
      var m := ms[|ms| - 1];
      if m.name in batch then
        var before := m.down(s);
        if before.None? then None else Unfold(ms[..|ms| - 1], batch, before.value)
      else Unfold(ms[..|ms| - 1], batch, s)
  }

  function Names(rows: seq<Entry>): set<string> {
    set e | e in rows :: e.name
  }

  ghost function ListNames<S>(ms: seq<Migration<S>>): set<string> {
    set m | m in ms :: m.name
  }

  function Max(rows: seq<Entry>): (n: nat)
    ensures forall e :: e in rows ==> e.batch <= n
    ensures n == 0 || exists e :: e in rows && e.batch == n
  {
    if rows == [] then 0
    else
      var rest := Max(rows[1..]);
      assert rows == [rows[0]] + rows[1..];
      if rows[0].batch > rest then rows[0].batch else rest
  }

  function InBatch(rows: seq<Entry>, b: nat): set<string> {
    set e | e in rows && e.batch == b :: e.name
  }

  function NotApplied<S>(rows: seq<Entry>): Migration<S> -> bool {
    var applied := Names(rows);
    (m: Migration<S>) => m.name !in applied
  }

  function Pending<S>(ms: seq<Migration<S>>, rows: seq<Entry>): seq<Migration<S>> {
    Filter(NotApplied(rows), ms)
  }

  function Entries<S>(ms: seq<Migration<S>>, b: nat): seq<Entry> {
    Map((m: Migration<S>) => Entry(m.name, b), ms)
  }

  function NamedIn<S>(names: set<string>): Migration<S> -> bool {
    (m: Migration<S>) => m.name in names
  }

  function NotNamed(names: set<string>): Entry -> bool {
    (e: Entry) => e.name !in names
  }

  ghost predicate DistinctNames<S>(ms: seq<Migration<S>>) {
    forall i, j :: 0 <= i < j < |ms| ==> ms[i].name != ms[j].name
  }

  /** The primary key. */
  ghost predicate Keyed(rows: seq<Entry>) {
    forall e, f :: e in rows && f in rows && e.name == f.name ==> e == f
  }

  // --- what was recorded, replayed ------------------------------------------------------------

  function Batch<S>(ms: seq<Migration<S>>, rows: seq<Entry>, b: nat): seq<Migration<S>> {
    Filter(NamedIn(InBatch(rows, b)), ms)
  }

  /** Batches 1 to `n`, each in list order. */
  function Recorded<S>(ms: seq<Migration<S>>, rows: seq<Entry>, n: nat): seq<Migration<S>> {
    if n == 0 then [] else Recorded(ms, rows, n - 1) + Batch(ms, rows, n)
  }

  function Replay<S>(ms: seq<Migration<S>>, rows: seq<Entry>, base: S): Option<S> {
    Fold(Recorded(ms, rows, Max(rows)), base)
  }

  /** The schema is what the recorded batches make of the base, all of them known and numbered from one. */
  ghost predicate Consistent<S>(ms: seq<Migration<S>>, rows: seq<Entry>, base: S, schema: S) {
    && Keyed(rows)
    && Names(rows) <= ListNames(ms)
    && (forall e :: e in rows ==> e.batch >= 1)
    && Replay(ms, rows, base) == Some(schema)
  }

  ghost predicate DownsUndoUps<S(!new)>(ms: seq<Migration<S>>) {
    forall m, s: S :: m in ms && m.up(s).Some? ==> m.down(m.up(s).value) == Some(s)
  }

  lemma {:induction false} FoldConcat<S>(a: seq<Migration<S>>, b: seq<Migration<S>>, s: S)
    ensures Fold(a + b, s) == if Fold(a, s).None? then None else Fold(b, Fold(a, s).value)
  {
    if b == [] {
      assert a + b == a;
    } else {
      assert (a + b)[..|a + b| - 1] == a + b[..|b| - 1];
      FoldConcat(a, b[..|b| - 1], s);
    }
  }

  /** Reverting a list undoes applying those of its migrations that are in the batch. */
  lemma {:induction false} UnfoldUndoes<S(!new)>(ms: seq<Migration<S>>, batch: set<string>, s: S)
    requires DownsUndoUps(ms) && Fold(Filter(NamedIn(batch), ms), s).Some?
    ensures Unfold(ms, batch, Fold(Filter(NamedIn(batch), ms), s).value) == Some(s)
  {
    if ms != [] {
      var (init, m) := (ms[..|ms| - 1], ms[|ms| - 1]);
      assert ms == init + [m];
      FilterConcat(NamedIn(batch), init, [m]);
      FilterSingle(NamedIn(batch), m);
      var done := Filter(NamedIn(batch), init);
      if m.name in batch {
        assert (done + [m])[..|done|] == done;
        assert m in ms;
        assert m.down(m.up(Fold(done, s).value).value) == Some(Fold(done, s).value);
      } else {
        assert done + [] == done;
      }
      UnfoldUndoes(init, batch, s);
    }
  }

  lemma {:induction false} RecordedSame<S>(ms: seq<Migration<S>>, a: seq<Entry>, b: seq<Entry>, n: nat)
    requires forall k :: 1 <= k <= n ==> InBatch(a, k) == InBatch(b, k)
    ensures Recorded(ms, a, n) == Recorded(ms, b, n)
  {
    if n > 0 {
      RecordedSame(ms, a, b, n - 1);
    }
  }

  /** Batch numbers beyond the largest add nothing. */
  lemma {:induction false} RecordedPastMax<S>(ms: seq<Migration<S>>, rows: seq<Entry>, n: nat)
    requires Max(rows) <= n
    ensures Recorded(ms, rows, n) == Recorded(ms, rows, Max(rows))
  {
    if Max(rows) < n {
      RecordedPastMax(ms, rows, n - 1);
      assert InBatch(rows, n) == {};
      FilterNone(NamedIn(InBatch(rows, n)), ms);
    }
  }

  // --- run --------------------------------------------------------------------------------------

  /** What a run that succeeds leaves. */
  ghost predicate RanUp<S>(ms: seq<Migration<S>>, rows: seq<Entry>, schema: S, rows': seq<Entry>, schema': S) {
    var pending := Pending(ms, rows);
    && Fold(pending, schema) == Some(schema')
    && rows' == rows + Entries(pending, Max(rows) + 1)
    && DistinctNames(pending)
  }

  lemma EntriesAre<S>(pending: seq<Migration<S>>, n: nat)
    ensures forall e :: e in Entries(pending, n) <==> e.batch == n && e.name in ListNames(pending)
  {
    var added := Entries(pending, n);
    forall m | m in pending ensures Entry(m.name, n) in added {
      var i :| 0 <= i < |pending| && pending[i] == m;
      assert added[i] == Entry(m.name, n);
    }
    forall e | e in added ensures e.batch == n && e.name in ListNames(pending) {
      var i :| 0 <= i < |added| && added[i] == e;
      assert pending[i] in pending;
    }
  }

  lemma EntriesBatch<S>(pending: seq<Migration<S>>, rows: seq<Entry>)
    ensures var n := Max(rows) + 1;
            var rows' := rows + Entries(pending, n);
            && InBatch(rows', n) == ListNames(pending)
            && (forall k :: k != n ==> InBatch(rows', k) == InBatch(rows, k))
            && Names(rows') == Names(rows) + ListNames(pending)
            && Max(rows') == if pending == [] then Max(rows) else n
  {
    var n := Max(rows) + 1;
    var added := Entries(pending, n);
    EntriesAre(pending, n);
    AppendedBatch(rows, added, ListNames(pending), n);
    hide Entries, Max;
    if pending == [] { assert rows + added == rows; } else { assert pending[0].name in ListNames(pending); }
  }

  lemma AppendedBatch(rows: seq<Entry>, added: seq<Entry>, names: set<string>, n: nat)
    requires n == Max(rows) + 1 && forall e :: e in added <==> e.batch == n && e.name in names
    ensures var rows' := rows + added;
            && InBatch(rows', n) == names
            && (forall k :: k != n ==> InBatch(rows', k) == InBatch(rows, k))
            && Names(rows') == Names(rows) + names
            && (names != {} ==> Max(rows') == n)
  {
    var rows' := rows + added;
    forall e ensures e in rows' <==> e in rows || e in added {}
    forall x | x in names ensures x in InBatch(rows', n) && x in Names(rows') {
      assert Entry(x, n) in rows';
    }
    if x :| x in names { assert Entry(x, n) in rows'; }
  }

  lemma PendingAgain<S>(ms: seq<Migration<S>>, rows: seq<Entry>)
    ensures Filter(NamedIn(ListNames(Pending(ms, rows))), ms) == Pending(ms, rows)
  {
    forall m | m in ms ensures m.name in ListNames(Pending(ms, rows)) <==> m.name !in Names(rows) {
      FilterIn(NotApplied(rows), ms, m);
      if m.name in ListNames(Pending(ms, rows)) {
        var p :| p in Pending(ms, rows) && p.name == m.name;
        FilterIn(NotApplied(rows), ms, p);
      }
    }
    FilterExt(NamedIn(ListNames(Pending(ms, rows))), NotApplied(rows), ms);
  }

  lemma PendingIs<S>(ms: seq<Migration<S>>, rows: seq<Entry>, m: Migration<S>)
    ensures m in Pending(ms, rows) <==> m in ms && m.name !in Names(rows)
  {
    FilterIn(NotApplied(rows), ms, m);
  }

  /** A run appends one batch to what a replay gives. */
  lemma RunKeepsReplay<S>(ms: seq<Migration<S>>, rows: seq<Entry>, base: S, schema: S,
                          rows': seq<Entry>, schema': S)
    requires Consistent(ms, rows, base, schema) && RanUp(ms, rows, schema, rows', schema')
    ensures Consistent(ms, rows', base, schema') && Names(rows') == ListNames(ms)
  {
    hide Replay, Fold, Names, ListNames, Keyed, Max, Pending, Entries, DistinctNames;
    RunReplay(ms, rows, base, schema, rows', schema');
    RunKeepsKey(ms, rows);
    RunNames(ms, rows);
  }

  lemma RunReplay<S>(ms: seq<Migration<S>>, rows: seq<Entry>, base: S, schema: S, rows': seq<Entry>, schema': S)
    requires Replay(ms, rows, base) == Some(schema) && RanUp(ms, rows, schema, rows', schema')
    ensures Replay(ms, rows', base) == Some(schema')
  {
    hide Filter, Fold, Max, InBatch, Entries, Names, ListNames;
    var n, pending := Max(rows) + 1, Pending(ms, rows);
    EntriesBatch(Pending(ms, rows), rows);
    PendingAgain(ms, rows);
    RecordedSame(ms, rows, rows', n - 1);
    FoldConcat(Recorded(ms, rows, n - 1), pending, base);
    assert Recorded(ms, rows', n) == Recorded(ms, rows, n - 1) + pending;
    RecordedPastMax(ms, rows', n);
  }

  lemma RunNames<S>(ms: seq<Migration<S>>, rows: seq<Entry>)
    requires Names(rows) <= ListNames(ms)
    ensures Names(rows + Entries(Pending(ms, rows), Max(rows) + 1)) == ListNames(ms)
  {
    EntriesBatch(Pending(ms, rows), rows);
    hide Entries, Max, Pending, Names;
    forall m | m in ms ensures m.name in Names(rows) + ListNames(Pending(ms, rows)) {
      PendingIs(ms, rows, m);
    }
    forall m | m in Pending(ms, rows) ensures m in ms {
      PendingIs(ms, rows, m);
    }
  }

  lemma AddedRow<S>(ms: seq<Migration<S>>, rows: seq<Entry>, e: Entry)
    requires e in Entries(Pending(ms, rows), Max(rows) + 1)
    ensures e.batch == Max(rows) + 1 && e.name !in Names(rows)
  {
    var pending := Pending(ms, rows);
    var added := Entries(pending, Max(rows) + 1);
    var i :| 0 <= i < |added| && added[i] == e;
    PendingIs(ms, rows, pending[i]);
  }

  lemma RunKeepsKey<S>(ms: seq<Migration<S>>, rows: seq<Entry>)
    requires Keyed(rows) && forall e :: e in rows ==> e.batch >= 1
    ensures var rows' := rows + Entries(Pending(ms, rows), Max(rows) + 1);
            Keyed(rows') && forall e :: e in rows' ==> e.batch >= 1
  {
    var added := Entries(Pending(ms, rows), Max(rows) + 1);
    forall e | e in added ensures e.batch == Max(rows) + 1 && e.name !in Names(rows) {
      AddedRow(ms, rows, e);
    }
    hide Entries, Max, Pending;
    forall e | e in rows ensures e.name in Names(rows) {}
  }

  /** Nothing is pending after a run: repeating it is a no-op. */
  lemma RunAgain<S>(ms: seq<Migration<S>>, rows: seq<Entry>, schema: S, rows': seq<Entry>, schema': S)
    requires RanUp(ms, rows, schema, rows', schema')
    ensures Pending(ms, rows') == []
  {
    EntriesBatch(Pending(ms, rows), rows);
    hide Entries, Max, Names;
    forall m | m in ms ensures !NotApplied(rows')(m) {
      PendingIs(ms, rows, m);
    }
    FilterNone(NotApplied(rows'), ms);
  }

  /** A list that keeps the applied migrations in their order replays to the same schema, wherever new
      ones were put. */
  lemma ListMayGrow<S>(ms: seq<Migration<S>>, longer: seq<Migration<S>>, rows: seq<Entry>, base: S, schema: S)
    requires Consistent(ms, rows, base, schema)
    requires Filter(NamedIn(Names(rows)), longer) == Filter(NamedIn(Names(rows)), ms)
    ensures Consistent(longer, rows, base, schema)
  {
    SameRecorded(ms, longer, rows, Max(rows));
    forall n | n in Names(rows) ensures n in ListNames(longer) {
      var m :| m in ms && m.name == n;
      FilterIn(NamedIn(Names(rows)), ms, m);
      FilterIn(NamedIn(Names(rows)), longer, m);
    }
  }

  lemma {:induction false} SameRecorded<S>(ms: seq<Migration<S>>, longer: seq<Migration<S>>, rows: seq<Entry>, n: nat)
    requires Filter(NamedIn(Names(rows)), longer) == Filter(NamedIn(Names(rows)), ms)
    ensures Recorded(longer, rows, n) == Recorded(ms, rows, n)
  {
    if n > 0 {
      SameRecorded(ms, longer, rows, n - 1);
      assert InBatch(rows, n) <= Names(rows);
      FilterTwice(NamedIn(Names(rows)), NamedIn(InBatch(rows, n)), NamedIn(InBatch(rows, n)), ms);
      FilterTwice(NamedIn(Names(rows)), NamedIn(InBatch(rows, n)), NamedIn(InBatch(rows, n)), longer);
    }
  }

  // --- rollback -----------------------------------------------------------------------------------

  /** What a rollback that succeeds leaves: the last batch reverted as far as the list knows it. */
  ghost predicate RanDown<S>(ms: seq<Migration<S>>, rows: seq<Entry>, schema: S, rows': seq<Entry>, schema': S) {
    var batch := InBatch(rows, Max(rows));
    && Unfold(ms, batch, schema) == Some(schema')
    && rows' == Filter(NotNamed(batch * ListNames(ms)), rows)
  }

  /** A rollback takes the last batch off a replay. */
  lemma RollbackKeepsReplay<S(!new)>(ms: seq<Migration<S>>, rows: seq<Entry>, base: S, schema: S,
                                     rows': seq<Entry>, schema': S)
    requires Consistent(ms, rows, base, schema) && DownsUndoUps(ms) && RanDown(ms, rows, schema, rows', schema')
    ensures Consistent(ms, rows', base, schema') && (rows != [] ==> Max(rows') < Max(rows))
  {
    hide Fold, Unfold, Recorded, Filter, DownsUndoUps;
    RowsLeft(ms, rows, rows');
    if rows == [] {
      UnfoldNothing(ms, InBatch(rows, Max(rows)), schema);
    } else {
      assert rows[0] in rows;
      RollbackReplay(ms, rows, base, schema, rows', schema');
    }
  }

  lemma RollbackReplay<S(!new)>(ms: seq<Migration<S>>, rows: seq<Entry>, base: S, schema: S,
                                rows': seq<Entry>, schema': S)
    requires Max(rows') < Max(rows) && (forall k :: k != Max(rows) ==> InBatch(rows', k) == InBatch(rows, k))
    requires Replay(ms, rows, base) == Some(schema) && DownsUndoUps(ms)
    requires Unfold(ms, InBatch(rows, Max(rows)), schema) == Some(schema')
    ensures Replay(ms, rows', base) == Some(schema')
  {
    hide Max, Filter, InBatch, Unfold, Fold;
    var n := Max(rows);
    FoldConcat(Recorded(ms, rows, n - 1), Batch(ms, rows, n), base);
    var mid := Fold(Recorded(ms, rows, n - 1), base);
    UnfoldUndoes(ms, InBatch(rows, n), mid.value);
    RecordedSame(ms, rows, rows', n - 1);
    RecordedPastMax(ms, rows', n - 1);
  }

  lemma {:induction false} UnfoldNothing<S>(ms: seq<Migration<S>>, batch: set<string>, s: S)
    requires forall m :: m in ms ==> m.name !in batch
    ensures Unfold(ms, batch, s) == Some(s)
  {
    if ms != [] {
      UnfoldNothing(ms[..|ms| - 1], batch, s);
    }
  }

  lemma RowsLeft<S>(ms: seq<Migration<S>>, rows: seq<Entry>, rows': seq<Entry>)
    requires Keyed(rows) && Names(rows) <= ListNames(ms) && (forall e :: e in rows ==> e.batch >= 1)
    requires rows' == Filter(NotNamed(InBatch(rows, Max(rows)) * ListNames(ms)), rows)
    ensures Keyed(rows') && Names(rows') <= Names(rows) && (forall e :: e in rows' ==> e.batch >= 1)
    ensures rows != [] ==> Max(rows') < Max(rows)
    ensures forall k :: k != Max(rows) ==> InBatch(rows', k) == InBatch(rows, k)
  {
    var batch := InBatch(rows, Max(rows)) * ListNames(ms);
    forall e ensures e in rows' <==> e in rows && e.batch != Max(rows) {
      FilterIn(NotNamed(batch), rows, e);
      if e in rows { assert e.name in Names(rows); }
    }
    if rows != [] { assert rows[0] in rows; }
  }

  /** A rollback right after a run that applied something restores the schema and the bookkeeping. */
  lemma RollbackUndoesRun<S(!new)>(ms: seq<Migration<S>>, rows: seq<Entry>, schema: S, rows': seq<Entry>, schema': S)
    requires RanUp(ms, rows, schema, rows', schema') && DownsUndoUps(ms) && Pending(ms, rows) != []
    ensures RanDown(ms, rows', schema', rows, schema)
  {
    hide Filter, Fold, Unfold, Entries, Max, Names, ListNames, InBatch, DistinctNames;
    var pending := Pending(ms, rows);
    EntriesBatch(pending, rows);
    PendingAgain(ms, rows);
    UnfoldUndoes(ms, ListNames(pending), schema);
    PendingNames(ms, rows);
    RestoredRows(rows, pending, Max(rows) + 1);
  }

  lemma RestoredRows<S>(rows: seq<Entry>, pending: seq<Migration<S>>, n: nat)
    requires forall e :: e in rows ==> e.name !in ListNames(pending)
    ensures Filter(NotNamed(ListNames(pending)), rows + Entries(pending, n)) == rows
  {
    EntriesAre(pending, n);
    hide Entries, Filter, ListNames;
    RemoveAdded(rows, Entries(pending, n), ListNames(pending));
  }

  lemma RemoveAdded(rows: seq<Entry>, added: seq<Entry>, names: set<string>)
    requires (forall e :: e in rows ==> e.name !in names) && forall e :: e in added ==> e.name in names
    ensures Filter(NotNamed(names), rows + added) == rows
  {
    FilterConcat(NotNamed(names), rows, added);
    FilterAll(NotNamed(names), rows);
    FilterNone(NotNamed(names), added);
  }

  lemma PendingNames<S>(ms: seq<Migration<S>>, rows: seq<Entry>)
    ensures ListNames(Pending(ms, rows)) * ListNames(ms) == ListNames(Pending(ms, rows))
    ensures forall e :: e in rows ==> e.name !in ListNames(Pending(ms, rows))
  {
    forall m | m in Pending(ms, rows) ensures m in ms && m.name !in Names(rows) { PendingIs(ms, rows, m); }
    forall e | e in rows ensures e.name in Names(rows) {}
  }

  /** A rollback moves on to an earlier batch if and only if the list knows the whole last batch. */
  lemma RollbackMovesOnIffKnown<S>(ms: seq<Migration<S>>, rows: seq<Entry>, schema: S, rows': seq<Entry>, schema': S)
    requires RanDown(ms, rows, schema, rows', schema') && Keyed(rows) && rows != []
    requires forall e :: e in rows ==> e.batch >= 1
    ensures Max(rows') < Max(rows) <==> InBatch(rows, Max(rows)) <= ListNames(ms)
    ensures Max(rows') <= Max(rows)
  {
    hide Unfold, ListNames;
    LeftIs(ms, rows, rows');
    assert rows[0] in rows;
    if x :| x in InBatch(rows, Max(rows)) && x !in ListNames(ms) {
      assert Entry(x, Max(rows)) in rows';
    }
  }

  lemma LeftIs<S>(ms: seq<Migration<S>>, rows: seq<Entry>, rows': seq<Entry>)
    requires rows' == Filter(NotNamed(InBatch(rows, Max(rows)) * ListNames(ms)), rows)
    ensures forall e :: e in rows' <==> e in rows && !(e.name in InBatch(rows, Max(rows)) && e.name in ListNames(ms))
  {
    forall e ensures e in rows' <==> e in rows && e.name !in InBatch(rows, Max(rows)) * ListNames(ms) {
      FilterIn(NotNamed(InBatch(rows, Max(rows)) * ListNames(ms)), rows, e);
    }
  }

  /** For example with one unknown name in the second batch, rolling back leaves everything as it is. */
  lemma UnknownNameBlocks<S>(m: Migration<S>, unknown: string, schema: S)
    requires m.name != unknown
    ensures var rows := [Entry(m.name, 1), Entry(unknown, 2)];
            RanDown([m], rows, schema, rows, schema)
  {
    var rows := [Entry(m.name, 1), Entry(unknown, 2)];
    assert rows[1..] == [Entry(unknown, 2)] && rows[1..][1..] == [];
    assert rows[0] in rows && rows[1] in rows;
    assert Max(rows[1..]) == 2 && Max(rows) == 2;
    assert InBatch(rows, 2) == {unknown};
    UnfoldNothing([m], InBatch(rows, 2), schema);
    assert InBatch(rows, 2) * ListNames([m]) == {};
    FilterAll(NotNamed({}), rows);
  }

  /** Once a name of the last batch is missing from the list, further rollbacks do nothing at all. */
  lemma StuckForGood<S>(ms: seq<Migration<S>>, rows: seq<Entry>, schema: S, rows': seq<Entry>, schema': S)
    requires RanDown(ms, rows, schema, rows', schema') && Keyed(rows) && rows != []
    requires (forall e :: e in rows ==> e.batch >= 1) && !(InBatch(rows, Max(rows)) <= ListNames(ms))
    ensures RanDown(ms, rows', schema', rows', schema')
  {
    RollbackMovesOnIffKnown(ms, rows, schema, rows', schema');
    var left := InBatch(rows', Max(rows'));
    NothingKnownIsLeft(ms, rows, rows');
    UnfoldNothing(ms, left, schema');
    assert left * ListNames(ms) == {};
    FilterAll(NotNamed({}), rows');
  }

  lemma NothingKnownIsLeft<S>(ms: seq<Migration<S>>, rows: seq<Entry>, rows': seq<Entry>)
    requires rows' == Filter(NotNamed(InBatch(rows, Max(rows)) * ListNames(ms)), rows) && Max(rows') == Max(rows)
    ensures forall m :: m in ms ==> m.name !in InBatch(rows', Max(rows'))
  {
    LeftIs(ms, rows, rows');
    hide Filter, Max;
    forall m | m in ms ensures m.name in ListNames(ms) {}
  }

  // --- any sequence of runs and rollbacks ---------------------------------------------------------------

  /** The database as the migrator sees it. */
  datatype Db<S> = Db(schema: S, rows: seq<Entry>)

  /** A call with the list it is given. */
  datatype Op<!S> = Up(ms: seq<Migration<S>>) | Down(ms: seq<Migration<S>>)

  /** A run: one more batch, or nothing when there is none or something raises. */
  ghost function AfterUp<S>(ms: seq<Migration<S>>, db: Db<S>): Db<S> {
    var pending := Pending(ms, db.rows);
    var schema := Fold(pending, db.schema);
    if schema.None? || !DistinctNames(pending) then db
    else Db(schema.value, db.rows + Entries(pending, Max(db.rows) + 1))
  }

  /** A rollback: the last batch less, as far as the list knows it, or nothing when something raises. */
  ghost function AfterDown<S>(ms: seq<Migration<S>>, db: Db<S>): Db<S> {
    var batch := InBatch(db.rows, Max(db.rows));
    var schema := Unfold(ms, batch, db.schema);
    if schema.None? then db else Db(schema.value, Filter(NotNamed(batch * ListNames(ms)), db.rows))
  }

  ghost function Do<S>(op: Op<S>, db: Db<S>): Db<S> {
    if op.Up? then AfterUp(op.ms, db) else AfterDown(op.ms, db)
  }

  ghost function Runs<S>(ops: seq<Op<S>>, db: Db<S>): Db<S> {
    if ops == [] then db else Runs(ops[1..], Do(ops[0], db))
  }

  /** Each list undoes what it does and keeps the applied migrations of the list before it in their
      order; new migrations may appear anywhere. */
  ghost predicate Lawful<S(!new)>(ops: seq<Op<S>>, ms: seq<Migration<S>>, db: Db<S>) {
    ops == [] ||
    (&& DownsUndoUps(ops[0].ms)
     && Filter(NamedIn(Names(db.rows)), ops[0].ms) == Filter(NamedIn(Names(db.rows)), ms)
     && Lawful(ops[1..], ops[0].ms, Do(ops[0], db)))
  }

  ghost function LastList<S>(ops: seq<Op<S>>, ms: seq<Migration<S>>): seq<Migration<S>> {
    if ops == [] then ms else LastList(ops[1..], ops[0].ms)
  }

  lemma OneKeepsReplay<S(!new)>(op: Op<S>, ms: seq<Migration<S>>, base: S, db: Db<S>)
    requires Consistent(ms, db.rows, base, db.schema) && DownsUndoUps(op.ms)
    requires Filter(NamedIn(Names(db.rows)), op.ms) == Filter(NamedIn(Names(db.rows)), ms)
    ensures Consistent(op.ms, Do(op, db).rows, base, Do(op, db).schema)
  {
    hide Consistent, Fold, Unfold, Filter, Max, Names, ListNames, InBatch, Entries, DownsUndoUps;
    ListMayGrow(ms, op.ms, db.rows, base, db.schema);
    var after := Do(op, db);
    match op
    case Up(_) =>
      if RanUp(op.ms, db.rows, db.schema, after.rows, after.schema) {
        RunKeepsReplay(op.ms, db.rows, base, db.schema, after.rows, after.schema);
      }
    case Down(_) =>
      if RanDown(op.ms, db.rows, db.schema, after.rows, after.schema) {
        RollbackKeepsReplay(op.ms, db.rows, base, db.schema, after.rows, after.schema);
      }
  }

  /** After any sequence of runs and rollbacks, failing ones included, the schema is what the recorded
      batches replayed in order make of the base. */
  lemma {:induction false} RunsKeepReplay<S(!new)>(ops: seq<Op<S>>, ms: seq<Migration<S>>, base: S, db: Db<S>)
    requires Consistent(ms, db.rows, base, db.schema) && Lawful(ops, ms, db)
    ensures var after := Runs(ops, db);
            Consistent(LastList(ops, ms), after.rows, base, after.schema)
  {
    hide Consistent, Do, DownsUndoUps, Filter, Names;
    if ops != [] {
      OneKeepsReplay(ops[0], ms, base, db);
      RunsKeepReplay(ops[1..], ops[0].ms, base, Do(ops[0], db));
    }
  }

  /** From an empty bookkeeping table, with one list throughout: no more is asked of the calls than that
      downs undo ups. */
  lemma RunsOfOneList<S(!new)>(ops: seq<Op<S>>, ms: seq<Migration<S>>, base: S)
    requires DownsUndoUps(ms) && forall i :: 0 <= i < |ops| ==> ops[i].ms == ms
    ensures var after := Runs(ops, Db(base, []));
            Consistent(ms, after.rows, base, after.schema)
  {
    assert Consistent(ms, [], base, base);
    OneListIsLawful(ops, ms, Db(base, []));
    RunsKeepReplay(ops, ms, base, Db(base, []));
  }

  lemma {:induction false} OneListIsLawful<S(!new)>(ops: seq<Op<S>>, ms: seq<Migration<S>>, db: Db<S>)
    requires DownsUndoUps(ms) && forall i :: 0 <= i < |ops| ==> ops[i].ms == ms
    ensures Lawful(ops, ms, db) && LastList(ops, ms) == ms
  {
    hide Do, DownsUndoUps, Filter, Names;
    if ops != [] {
      assert forall i :: 0 <= i < |ops[1..]| ==> ops[1..][i] == ops[i + 1];
      OneListIsLawful(ops[1..], ms, Do(ops[0], db));
    }
  }

  // --- the migrator -------------------------------------------------------------------------------------

  class Migrator<S(!new)> {
    var schema: S
    var rows: seq<Entry>

    constructor (schema: S)
      ensures this.schema == schema && rows == []
    {
      this.schema := schema;
      rows := [];
    }

    /** Applies what is pending as one batch, all of it or, if anything raises, nothing. */
    method Run(ms: seq<Migration<S>>) returns (r: Outcome)
      modifies this
      ensures r.Failed? <==>
              Fold(Pending(ms, old(rows)), old(schema)).None? || !DistinctNames(Pending(ms, old(rows)))
      ensures Db(schema, rows) == AfterUp(ms, old(Db(schema, rows)))
      ensures r.Failed? ==> schema == old(schema) && rows == old(rows)
      ensures r.Ran? ==> r.count == |Pending(ms, old(rows))|
      ensures r.Ran? && r.count > 0 ==> RanUp(ms, old(rows), old(schema), rows, schema)
      ensures r == Ran(0) ==> schema == old(schema) && rows == old(rows)
    {
      var pending := Pending(ms, rows);
      if pending == [] {
        NothingPending(ms, Db(schema, rows));
        return Ran(0);
      }
      var (savedSchema, savedRows) := (schema, rows);
      hide Filter, Names, Max, Fold, Entries, DistinctNames;
      forall p | p in pending ensures p.name !in Names(rows) { PendingIs(ms, rows, p); }
      var ok := ApplyAll(pending, Max(rows) + 1);
      if !ok {
        schema, rows := savedSchema, savedRows;
        return Failed;
      }
      r := Ran(|pending|);
    }

    /** The loop inside the transaction: stops where something raises. */
    method ApplyAll(pending: seq<Migration<S>>, batch: nat) returns (ok: bool)
      requires forall p :: p in pending ==> p.name !in Names(rows)
      modifies this
      ensures ok <==> Fold(pending, old(schema)).Some? && DistinctNames(pending)
      ensures ok ==> Fold(pending, old(schema)) == Some(schema) && rows == old(rows) + Entries(pending, batch)
    {
      FoldNothing(pending, schema, rows, batch);
      hide Filter, Names, ListNames, Max, Fold, Entries, DistinctNames;
      var i := 0;
      while i < |pending|
        invariant 0 <= i <= |pending|
        invariant Fold(pending[..i], old(schema)) == Some(schema)
        invariant rows == old(rows) + Entries(pending[..i], batch)
        invariant DistinctNames(pending[..i])
      {
        var m := pending[i];
        assert m in pending;
        FoldUpTo(pending, i, old(schema), batch);
        DistinctUpTo(pending, i, batch, old(rows));
        var next := m.up(schema);
        if next.None? { FoldFails(pending, i + 1, old(schema)); }
        if next.None? || m.name in Names(rows) {
          return false;
        }
        schema, rows := next.value, rows + [Entry(m.name, batch)];
        i := i + 1;
      }
      ok := true;
    }

    /** Reverts the last batch from the end of the list, all of it that the list knows or, if anything
        raises, nothing. */
    method Rollback(ms: seq<Migration<S>>) returns (r: Outcome)
      modifies this
      ensures r.Failed? <==> Unfold(ms, InBatch(old(rows), Max(old(rows))), old(schema)).None?
      ensures Db(schema, rows) == AfterDown(ms, old(Db(schema, rows)))
      ensures r.Failed? ==> schema == old(schema) && rows == old(rows)
      ensures r.Ran? ==> RanDown(ms, old(rows), old(schema), rows, schema)
      ensures r.Ran? ==> r.count == |Batch(ms, old(rows), Max(old(rows)))|
    {
      if rows == [] {
        assert InBatch(rows, Max(rows)) == {};
        UnfoldNothing(ms, InBatch(rows, Max(rows)), schema);
        FilterNone(NamedIn(InBatch(rows, Max(rows))), ms);
        return Ran(0);
      }
      var (savedSchema, savedRows) := (schema, rows);
      var inBatch := InBatch(rows, Max(rows));
      var reverted := 0;
      var i := |ms|;
      NothingReverted(ms, inBatch, rows);
      hide Filter, ListNames, Max, InBatch, Unfold;
      while i > 0
        invariant 0 <= i <= |ms|
        invariant Unfold(ms[..i], inBatch, schema) == Unfold(ms, inBatch, savedSchema)
        invariant rows == Filter(NotNamed(inBatch * ListNames(ms[i..])), savedRows)
        invariant reverted == |Filter(NamedIn(inBatch), ms[i..])|
      {
        i := i - 1;
        var m := ms[i];
        DownTo(ms, i, inBatch, schema);
        RowsDownTo(ms, i, inBatch, savedRows);
        if m.name in inBatch {
          var before := m.down(schema);
          if before.None? {
            schema, rows := savedSchema, savedRows;
            return Failed;
          }
          schema, rows := before.value, Filter(NotNamed({m.name}), rows);
          reverted := reverted + 1;
        }
      }
      assert ms[0..] == ms;
      r := Ran(reverted);
    }
  }

  lemma EntriesSnoc<S>(done: seq<Migration<S>>, m: Migration<S>, batch: nat)
    ensures Entries(done + [m], batch) == Entries(done, batch) + [Entry(m.name, batch)]
  {
  }

  lemma NothingReverted<S>(ms: seq<Migration<S>>, batch: set<string>, rows: seq<Entry>)
    ensures ms[..|ms|] == ms && Filter(NamedIn(batch), ms[|ms|..]) == []
    ensures Filter(NotNamed(batch * ListNames(ms[|ms|..])), rows) == rows
    ensures forall s: S :: Unfold(ms[..0], batch, s) == Some(s)
  {
    assert batch * ListNames(ms[|ms|..]) == {};
    FilterAll(NotNamed({}), rows);
  }

  lemma NothingPending<S>(ms: seq<Migration<S>>, db: Db<S>)
    requires Pending(ms, db.rows) == []
    ensures Fold(Pending(ms, db.rows), db.schema) == Some(db.schema) && DistinctNames(Pending(ms, db.rows))
    ensures AfterUp(ms, db) == db
  {
    var none: seq<Migration<S>> := [];
    assert Entries(none, Max(db.rows) + 1) == [];
    assert db.rows + [] == db.rows;
  }

  lemma FoldNothing<S>(pending: seq<Migration<S>>, start: S, rows: seq<Entry>, batch: nat)
    ensures Fold(pending[..0], start) == Some(start) && DistinctNames(pending[..0])
    ensures rows == rows + Entries(pending[..0], batch)
    ensures pending[..|pending|] == pending && Fold([], start) == Some(start)
  {
  }

  lemma FoldSnoc<S>(done: seq<Migration<S>>, m: Migration<S>, start: S)
    ensures Fold(done + [m], start) == if Fold(done, start).None? then None else m.up(Fold(done, start).value)
  {
    assert (done + [m])[..|done|] == done;
  }

  /** One more migration of the list. */
  lemma FoldUpTo<S>(pending: seq<Migration<S>>, i: nat, start: S, batch: nat)
    requires i < |pending|
    ensures Fold(pending[..i + 1], start) ==
            if Fold(pending[..i], start).None? then None else pending[i].up(Fold(pending[..i], start).value)
    ensures Entries(pending[..i + 1], batch) == Entries(pending[..i], batch) + [Entry(pending[i].name, batch)]
  {
    hide Fold, Entries;
    var (done, m) := (pending[..i], pending[i]);
    EntriesSnoc(done, m, batch);
    FoldSnoc(done, m, start);
    assert pending[..i + 1] == done + [m];
  }

  lemma FoldFails<S>(pending: seq<Migration<S>>, i: nat, start: S)
    requires i <= |pending| && Fold(pending[..i], start).None?
    ensures Fold(pending, start).None?
  {
    hide Fold;
    FoldConcat(pending[..i], pending[i..], start);
    assert pending[..i] + pending[i..] == pending;
  }

  lemma DistinctUpTo<S>(pending: seq<Migration<S>>, i: nat, batch: nat, rows: seq<Entry>)
    requires i < |pending| && DistinctNames(pending[..i]) && pending[i].name !in Names(rows)
    ensures pending[i].name in Names(rows + Entries(pending[..i], batch)) ==> !DistinctNames(pending)
    ensures pending[i].name !in Names(rows + Entries(pending[..i], batch)) ==> DistinctNames(pending[..i + 1])
  {
    NameTaken(pending[..i], pending[i].name, batch, rows);
    hide Names, Entries;
    var done := pending[..i];
    if j :| 0 <= j < i && done[j].name == pending[i].name {
      assert pending[j].name == pending[i].name;
    } else {
      var upTo := pending[..i + 1];
      forall j, k | 0 <= j < k < |upTo| ensures upTo[j].name != upTo[k].name {
        assert done[j].name == pending[j].name;
        if k < i { assert done[k].name == pending[k].name; }
      }
    }
  }

  lemma NameTaken<S>(done: seq<Migration<S>>, name: string, batch: nat, rows: seq<Entry>)
    requires name !in Names(rows)
    ensures name in Names(rows + Entries(done, batch)) <==> exists j :: 0 <= j < |done| && done[j].name == name
  {
    var added := Entries(done, batch);
    if name in Names(rows + added) {
      var e :| e in rows + added && e.name == name;
      var j :| 0 <= j < |added| && added[j] == e;
      assert done[j].name == name;
    }
    if j :| 0 <= j < |done| && done[j].name == name {
      assert added[j] in rows + added;
    }
  }

  /** One migration fewer, from the end. */
  lemma DownTo<S>(ms: seq<Migration<S>>, i: nat, batch: set<string>, schema: S)
    requires i < |ms|
    ensures Filter(NamedIn(batch), ms[i..]) ==
            (if ms[i].name in batch then [ms[i]] else []) + Filter(NamedIn(batch), ms[i + 1..])
    ensures Unfold(ms[..i + 1], batch, schema) ==
            if ms[i].name !in batch then Unfold(ms[..i], batch, schema)
            else if ms[i].down(schema).None? then None
            else Unfold(ms[..i], batch, ms[i].down(schema).value)
  {
    var m := ms[i];
    assert ms[i..] == [m] + ms[i + 1..];
    FilterConcat(NamedIn(batch), [m], ms[i + 1..]);
    FilterSingle(NamedIn(batch), m);
    assert ms[..i + 1][..i] == ms[..i];
  }

  lemma RowsDownTo<S>(ms: seq<Migration<S>>, i: nat, batch: set<string>, rows: seq<Entry>)
    requires i < |ms|
    ensures var later := Filter(NotNamed(batch * ListNames(ms[i + 1..])), rows);
            Filter(NotNamed(batch * ListNames(ms[i..])), rows) ==
            if ms[i].name in batch then Filter(NotNamed({ms[i].name}), later) else later
  {
    var m := ms[i];
    NamesFrom(ms, i);
    hide Filter, ListNames;
    var (now, later) := (batch * ListNames(ms[i..]), batch * ListNames(ms[i + 1..]));
    assert now == later + if m.name in batch then {m.name} else {};
    FilterTwice(NotNamed(later), NotNamed({m.name}), NotNamed(later + {m.name}), rows);
  }

  lemma NamesFrom<S>(ms: seq<Migration<S>>, i: nat)
    requires i < |ms|
    ensures ListNames(ms[i..]) == {ms[i].name} + ListNames(ms[i + 1..])
  {
    assert ms[i..] == [ms[i]] + ms[i + 1..];
  }
}
