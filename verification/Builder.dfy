/** The query builder as the object it is: fluent fields that reads rewrite, page by page. */
module Builder {
  import opened Seqs
  import opened Query
  import opened Keyset

  datatype Result<+T> = Ok(value: T) | KeyError(column: string)

  /** What a chunk callback does with the rows it is handed. */
  datatype Outcome = Continue | Stop | Raise

  /** The deferred pivot scope: the attached related ids, or `1 = 0` when nothing is attached. */
  function PivotScope(relatedKey: string, ids: seq<int>): Clause {
    if ids == [] then Never
    else Any(seq(|ids|, i requires 0 <= i < |ids| => Compare(relatedKey, Eq, ids[i])))
  }

  lemma PivotScopeMeaning(relatedKey: string, ids: seq<int>, row: Row)
    ensures Holds(PivotScope(relatedKey, ids), row) <==> Cell(row, relatedKey) in ids
  {
    if ids != [] {
      var terms := PivotScope(relatedKey, ids).clauses;
      assert forall i :: 0 <= i < |ids| ==> terms[i] == Compare(relatedKey, Eq, ids[i]);
      if i :| 0 <= i < |ids| && ids[i] == Cell(row, relatedKey) {
        assert Holds(terms[i], row);
      }
    }
  }

  /** The conditions match exactly the rows that matched before and satisfy the clause. */
  ghost predicate NarrowedBy(before: seq<(Connector, Clause)>, clause: Clause, after: seq<(Connector, Clause)>) {
    forall row :: Matches(after, row) <==> Matches(before, row) && Holds(clause, row)
  }

  lemma Narrows(wheres: seq<(Connector, Clause)>, clause: Clause)
    ensures NarrowedBy(wheres, clause, wheres + [(And, clause)])
  {
    forall row ensures Matches(wheres + [(And, clause)], row) <==> Matches(wheres, row) && Holds(clause, row) {
      AndNarrows(wheres, clause, row);
    }
  }

  // --- chunked reads as functions of the listing ------------------------------------

  function Bound(key: string, last: Option<int>): seq<(Connector, Clause)> {
    if last.None? then [] else [(And, Compare(key, Gt, last.value))]
  }

  function Beyond(key: string, last: Option<int>): Row -> bool {
    row => last.None? || Cell(row, key) > last.value
  }

  function KeyOrder(key: string): seq<Spec> {
    [(key, Asc)]
  }

  /** One page: the first rows beyond the last key seen, after the builder's own offset. */
  function ChunkPage(listing: seq<Row>, key: string, offset: nat, size: nat, last: Option<int>): seq<Row> {
    Take(Drop(Filter(Beyond(key, last), listing), offset), size)
  }

  ghost function Left(listing: seq<Row>, key: string, last: Option<int>): nat {
    |Filter(Beyond(key, last), listing)|
  }

  lemma {:induction false} LeftShrinks(listing: seq<Row>, key: string, last: Option<int>, row: Row)
    requires row in Filter(Beyond(key, last), listing)
    ensures Left(listing, key, Some(Cell(row, key))) < Left(listing, key, last)
  {
    hide Beyond, Cell;
    var before := Filter(Beyond(key, last), listing);
    var next := Beyond(key, Some(Cell(row, key)));
    BeyondNarrows(listing, key, last, row);
    var i :| 0 <= i < |before| && before[i] == row;
    FilterDrops(next, before, i);
  }

  lemma BeyondNarrows(listing: seq<Row>, key: string, last: Option<int>, row: Row)
    requires row in Filter(Beyond(key, last), listing)
    ensures var next := Beyond(key, Some(Cell(row, key)));
            && Filter(next, listing) == Filter(next, Filter(Beyond(key, last), listing))
            && !next(row)
  {
    var next := Beyond(key, Some(Cell(row, key)));
    FilterIn(Beyond(key, last), listing, row);
    FilterTwice(Beyond(key, last), next, next, listing);
  }

  lemma {:induction false} FilterDrops<T>(p: T -> bool, s: seq<T>, i: nat)
    requires i < |s| && !p(s[i])
    ensures |Filter(p, s)| < |s|
  {
    if i > 0 {
      FilterDrops(p, s[1..], i - 1);
    }
  }

  lemma ChunkPageShrinks(listing: seq<Row>, key: string, offset: nat, size: nat, last: Option<int>)
    requires ChunkPage(listing, key, offset, size, last) != []
    ensures var page := ChunkPage(listing, key, offset, size, last);
            Left(listing, key, Some(Cell(page[|page| - 1], key))) < Left(listing, key, last)
  {
    var page := ChunkPage(listing, key, offset, size, last);
    var rest := Filter(Beyond(key, last), listing);
    assert page[|page| - 1] == rest[offset + |page| - 1];
    LeftShrinks(listing, key, last, page[|page| - 1]);
  }

  /** The pages a chunk walk hands to its callback. */
  function Chunks(listing: seq<Row>, key: string, offset: nat, size: nat,
                  callback: seq<Row> -> Outcome, last: Option<int>): seq<seq<Row>>
    decreases Left(listing, key, last)
  {
    var page := ChunkPage(listing, key, offset, size, last);
    if page == [] then []
    else if callback(page) != Continue || |page| < size then [page]
    else
      ChunkPageShrinks(listing, key, offset, size, last);
      [page] + Chunks(listing, key, offset, size, callback, Some(Cell(page[|page| - 1], key)))
  }

  /** The same on a table that may change from page to page: `tables[i]` is the table as page `i` finds it.
      The walk stops where the snapshots do. */
  function ChunksOver(tables: seq<seq<Row>>, wheres: seq<(Connector, Clause)>, key: string, offset: nat, size: nat,
                      callback: seq<Row> -> Outcome, last: Option<int>): (pages: seq<seq<Row>>)
    ensures |pages| <= |tables|
  {
    if tables == [] then []
    else
      var page := ChunkPage(Select(tables[0], wheres, KeyOrder(key)), key, offset, size, last);
      if page == [] then []
      else if callback(page) != Continue || |page| < size then [page]
      else
        [page] + ChunksOver(tables[1..], wheres, key, offset, size, callback, Some(Cell(page[|page| - 1], key)))
  }

  /** The pages of the offset walk, `at` counting the rows before the page. */
  function OffsetChunksOver(tables: seq<seq<Row>>, wheres: seq<(Connector, Clause)>, order: seq<Spec>, size: nat,
                            callback: seq<Row> -> Outcome, at: nat): (pages: seq<seq<Row>>)
    ensures |pages| <= |tables|
  {
    if tables == [] then []
    else
      var page := Take(Drop(Select(tables[0], wheres, order), at), size);
      if page == [] then []
      else if callback(page) != Continue || |page| < size then [page]
      else [page] + OffsetChunksOver(tables[1..], wheres, order, size, callback, at + size)
  }

  /** What a walk still has to hand out when page `i` is next. */
  ghost function ChunksFrom(tables: seq<seq<Row>>, i: nat, wheres: seq<(Connector, Clause)>, key: string, offset: nat,
                            size: nat, callback: seq<Row> -> Outcome, last: Option<int>): seq<seq<Row>>
    requires i <= |tables|
  {
    ChunksOver(tables[i..], wheres, key, offset, size, callback, last)
  }

  ghost function OffsetChunksFrom(tables: seq<seq<Row>>, i: nat, wheres: seq<(Connector, Clause)>, order: seq<Spec>,
                                  size: nat, callback: seq<Row> -> Outcome): seq<seq<Row>>
    requires i <= |tables|
  {
    OffsetChunksOver(tables[i..], wheres, order, size, callback, i * size)
  }

  class QueryBuilder {
    const pk: string
    var wheres: seq<(Connector, Clause)>
    var order: seq<Spec>        // the ORDER BY terms
    var orderSpecs: seq<Spec>   // what order_by was asked for
    var limit: Option<nat>
    var offset: nat
    var prepare: Option<Clause> // the deferred pivot scope
    var prepared: bool

    constructor (pk: string, prepare: Option<Clause>)
      ensures this.pk == pk && this.prepare == prepare && !prepared
      ensures wheres == [] && order == [] && orderSpecs == [] && limit == None && offset == 0
    {
      this.pk := pk;
      wheres, order, orderSpecs, limit, offset := [], [], [], None, 0;
      this.prepare := prepare;
      prepared := false;
    }

    /** The conditions every terminal read runs under. */
    function Scoped(): seq<(Connector, Clause)>
      reads this
    {
      if prepare.Some? && !prepared then wheres + [(And, prepare.value)] else wheres
    }

    method OrderBy(column: string, direction: Direction)
      modifies this`order, this`orderSpecs
      ensures order == old(order) + [(column, direction)]
      ensures orderSpecs == old(orderSpecs) + [(column, direction)]
    {
      order := order + [(column, direction)];
      orderSpecs := orderSpecs + [(column, direction)];
    }

    /** Runs the deferred scope once: the first call adds it, later calls change nothing. */
    method EnsurePrepared()
      modifies this`wheres, this`prepared
      ensures wheres == old(Scoped()) && wheres == Scoped()
      ensures if prepare.Some? && !old(prepared) then NarrowedBy(old(wheres), prepare.value, wheres)
              else wheres == old(wheres)
      ensures prepare.Some? ==> prepared
      ensures prepare.None? ==> prepared == old(prepared)
    {
      if prepare.Some? && !prepared {
        Narrows(wheres, prepare.value);
        prepared := true;
        wheres := wheres + [(And, prepare.value)];
      }
    }

    method Get(table: seq<Row>) returns (rows: seq<Row>)
      modifies this`wheres, this`prepared
      ensures wheres == old(Scoped()) && wheres == Scoped()
      ensures prepare.Some? ==> prepared
      ensures prepare.None? ==> prepared == old(prepared)
      ensures rows == (var listing := Drop(Select(table, wheres, order), offset);
                       if limit.None? then listing else Take(listing, limit.value))
    {
      EnsurePrepared();
      rows := Drop(Select(table, wheres, order), offset);
      if limit.Some? {
        rows := Take(rows, limit.value);
      }
    }

    /** Builds the OR-of-ANDs clause column by column; a position without an ordering column is a
        lookup failure, and that is the only failure. */
    static method SeekPredicate(specs: seq<Spec>, position: Row) returns (r: Result<Clause>)
      ensures r.Ok? <==> forall i :: 0 <= i < |specs| ==> specs[i].0 in position
      ensures r.Ok? ==> r.value == SeekClause(specs, position)
    {
      var clauses: seq<Clause> := [];
      var i := 0;
      while i < |specs|
        invariant 0 <= i <= |specs| && |clauses| == i
        invariant forall j :: 0 <= j < i ==> specs[j].0 in position
        invariant forall j :: 0 <= j < i ==> clauses[j] == SeekTerm(specs, position, j)
      {
        var equals: seq<Clause> := [];
        var j := 0;
        while j < i
          invariant 0 <= j <= i
          invariant equals == Equals(specs[..j], position)
        {
          equals := equals + [Compare(specs[j].0, Eq, Cell(position, specs[j].0))];
          j := j + 1;
          assert equals == Equals(specs[..j], position);
        }
        if specs[i].0 !in position {
          return KeyError(specs[i].0);
        }
        var tie := Tie(specs[i], position);
        clauses := clauses + [if equals == [] then tie else All(equals + [tie])];
        i := i + 1;
      }
      assert clauses == SeekClause(specs, position).clauses;
      r := Ok(Any(clauses));
    }

    /** The seek bound joins the conditions, then the rows are read in scan order. The deferred
        scope is added by the read, after the bound; the rows are the same as the other way round. */
    method Scan(table: seq<Row>, scan: seq<Spec>, cursor: Option<Cursor>, size: nat)
        returns (r: Result<seq<Row>>)
      modifies this`wheres, this`prepared, this`order, this`limit
      ensures r.KeyError? <==>
              cursor.Some? && exists i :: 0 <= i < |scan| && scan[i].0 !in cursor.value.position
      ensures r.KeyError? ==> unchanged(this)
      ensures r.Ok? ==>
                && order == scan && limit == Some(size + 1)
                && r.value == Take(Drop(Select(table, Sought(old(Scoped()), scan, cursor), scan), offset), size + 1)
    {
      hide Select, Holds, Matches, Before, SeekClause;
      if cursor.Some? {
        var seek := SeekPredicate(scan, cursor.value.position);
        if seek.KeyError? {
          return KeyError(seek.column);
        }
        SeekBeforeScope(table, wheres, seek.value, prepare, prepared, scan);
        wheres := wheres + [(And, seek.value)];
      }
      order := scan;
      limit := Some(size + 1);
      var rows := Get(table);
      r := Ok(rows);
    }

    /** Defaults the ordering to the primary key and makes sure it ends in a unique column. */
    method AddTiebreaker()
      modifies this`order, this`orderSpecs
      ensures orderSpecs == Normalised(old(orderSpecs), pk)
    {
      if orderSpecs == [] {
        OrderBy(pk, Asc);
        assert orderSpecs[0].0 == pk;
      }
      if pk !in Columns(orderSpecs) {
        OrderBy(pk, Asc);
      }
    }

    /** A page, or the lookup failure of a cursor whose position misses an ordering column. The
        builder keeps the seek bound, the scan order and the limit: one builder serves one page. */
    method CursorPaginate(table: seq<Row>, perPage: int, cursor: Option<Cursor>) returns (r: Result<Page>)
      modifies this
      ensures orderSpecs == Normalised(old(orderSpecs), pk)
      ensures offset == old(offset) && prepare == old(prepare)
      ensures r.KeyError? <==>
              cursor.Some? && exists i :: 0 <= i < |orderSpecs| && orderSpecs[i].0 !in cursor.value.position
      ensures r.KeyError? ==> wheres == old(wheres) && limit == old(limit) && prepared == old(prepared)
      ensures r.Ok? ==>
                r.value == PageOf(table, old(Scoped()), offset, orderSpecs,
                                  if perPage < 1 then 1 else perPage, cursor)
      ensures r.Ok? ==> AsRequested(old(orderSpecs), pk, r.value.rows)
    {
      hide Select, Holds, Matches, Before, Boundary, SeekClause, Sought, Columns, Normalised, Assemble, AsRequested;
      var size: nat := if perPage < 1 then 1 else perPage;
      AddTiebreaker();
      var specs := orderSpecs;
      var backward := cursor.Some? && cursor.value.backward;
      var scan := if backward then Flip(specs) else specs;
      assert forall i :: 0 <= i < |specs| ==> scan[i].0 == specs[i].0;
      var scanned := Scan(table, scan, cursor, size);
      if scanned.KeyError? {
        return KeyError(scanned.column);
      }
      var page := ShowPage(scanned.value, specs, size, cursor.Some?, backward);
      PageAsRequested(table, old(Scoped()), offset, old(orderSpecs), pk, size, cursor);
      r := Ok(page);
    }

    static method ShowPage(rows: seq<Row>, specs: seq<Spec>, size: nat, sought: bool, backward: bool)
        returns (page: Page)
      ensures page == Assemble(rows, specs, size, sought, backward)
    {
      hide Boundary;
      var extra := |rows| > size;
      var shown := Take(rows, size);
      if backward {
        shown := Reverse(shown);
      }
      var next: Option<Cursor>, prev: Option<Cursor> := None, None;
      if shown != [] {
        if backward {
          next := Some(Cursor(Boundary(shown[|shown| - 1], specs), false));
          if extra {
            prev := Some(Cursor(Boundary(shown[0], specs), true));
          }
        } else {
          if sought {
            prev := Some(Cursor(Boundary(shown[0], specs), true));
          }
          if extra {
            next := Some(Cursor(Boundary(shown[|shown| - 1], specs), false));
          }
        }
      }
      page := Page(shown, next, prev);
    }

    /** Reads one key-ordered page beyond `last`, overwriting the builder's conditions, order and limit. */
    method BoundedGet(table: seq<Row>, baseWheres: seq<(Connector, Clause)>, size: nat, key: string,
                      last: Option<int>) returns (rows: seq<Row>)
      requires prepare.Some? ==> prepared
      modifies this`wheres, this`prepared, this`order, this`limit
      ensures prepared == old(prepared)
      ensures rows == ChunkPage(Select(table, baseWheres, KeyOrder(key)), key, offset, size, last)
    {
      hide Select, Matches, ChunkPage;
      wheres := baseWheres + Bound(key, last);
      order := KeyOrder(key);
      limit := Some(size);
      rows := Get(table);
      BoundedPage(table, baseWheres, key, offset, size, last);
    }

    /** The page loop, under the conditions the caller snapshotted. */
    method WalkPages(tables: seq<seq<Row>>, baseWheres: seq<(Connector, Clause)>, size: nat,
                     callback: seq<Row> -> Outcome, key: string)
        returns (pages: seq<seq<Row>>, raised: bool)
      requires prepare.Some? ==> prepared
      modifies this`wheres, this`prepared, this`order, this`limit
      ensures prepared == old(prepared)
      ensures pages == ChunksOver(tables, baseWheres, key, offset, size, callback, None)
      ensures raised <==> pages != [] && callback(pages[|pages| - 1]) == Raise
    {
      hide Select, Filter, ChunksFrom, ChunksOver, ChunkPage, Scoped, Take, Drop, KeyOrder, Cell, Handed;
      var last: Option<int> := None;
      pages, raised := [], false;
      var running := true;
      ghost var all := ChunksOver(tables, baseWheres, key, offset, size, callback, None);
      var i := 0;
      ChunksFromStart(tables, baseWheres, key, offset, size, callback);
      HandedNothing(callback, all);
      while running && i < |tables|
        invariant prepared == old(prepared) && 0 <= i <= |tables|
        invariant Handed(callback, all, pages, raised,
                         if running then ChunksFrom(tables, i, baseWheres, key, offset, size, callback, last) else [])
        decreases running, |tables| - i
      {
        var rows := BoundedGet(tables[i], baseWheres, size, key, last);
        ChunksFromStep(tables, i, baseWheres, key, offset, size, callback, last);
        if rows == [] {
          running := false;
        } else {
          var outcome := callback(rows);
          running := outcome == Continue && |rows| >= size;
          last := Some(Cell(rows[|rows| - 1], key));
          i := i + 1;
          HandedNext(callback, all, pages, raised, rows,
                     if running then ChunksFrom(tables, i, baseWheres, key, offset, size, callback, last) else []);
          pages := pages + [rows];
          raised := outcome == Raise;
        }
      }
      HandedAll(callback, all, pages, raised);
    }

    /** Hands the callback key-ordered pages until it stops, fails or the rows run out, and puts the
        builder's order and limit back on every exit; the conditions stay as prepared. `tables[i]` is the
        table as page `i` finds it. */
    method ChunkById(tables: seq<seq<Row>>, size: nat, callback: seq<Row> -> Outcome, key: string)
        returns (pages: seq<seq<Row>>, raised: bool)
      modifies this
      ensures pages == ChunksOver(tables, old(Scoped()), key, offset, size, callback, None)
      ensures raised <==> pages != [] && callback(pages[|pages| - 1]) == Raise
      ensures wheres == old(Scoped()) && wheres == Scoped()
      ensures order == old(order) && orderSpecs == old(orderSpecs)
      ensures limit == old(limit) && offset == old(offset) && prepare == old(prepare)
    {
      EnsurePrepared();
      var baseWheres, baseOrder, baseLimit := wheres, order, limit;
      pages, raised := WalkPages(tables, baseWheres, size, callback, key);
      wheres, order, limit := baseWheres, baseOrder, baseLimit;
    }

    /** Offset batches over the builder's own order; its limit and offset are set aside and put back. */
    method Chunk(tables: seq<seq<Row>>, size: nat, callback: seq<Row> -> Outcome)
        returns (pages: seq<seq<Row>>, raised: bool)
      modifies this
      ensures pages == OffsetChunksOver(tables, old(Scoped()), order, size, callback, 0)
      ensures raised <==> pages != [] && callback(pages[|pages| - 1]) == Raise
      ensures wheres == old(Scoped()) && wheres == Scoped()
      ensures order == old(order) && orderSpecs == old(orderSpecs)
      ensures limit == old(limit) && offset == old(offset) && prepare == old(prepare)
    {
      EnsurePrepared();
      var baseLimit, baseOffset := limit, offset;
      pages, raised := WalkOffsets(tables, size, callback);
      limit, offset := baseLimit, baseOffset;
    }

    method OffsetGet(table: seq<Row>, size: nat, at: nat) returns (rows: seq<Row>)
      requires prepare.Some? ==> prepared
      modifies this`limit, this`offset, this`wheres, this`prepared
      ensures wheres == old(wheres) && prepared == old(prepared)
      ensures rows == Take(Drop(Select(table, wheres, order), at), size)
    {
      limit := Some(size);
      offset := at;
      rows := Get(table);
    }

    method WalkOffsets(tables: seq<seq<Row>>, size: nat, callback: seq<Row> -> Outcome)
        returns (pages: seq<seq<Row>>, raised: bool)
      requires prepare.Some? ==> prepared
      modifies this`limit, this`offset, this`wheres, this`prepared
      ensures wheres == old(wheres) && prepared == old(prepared)
      ensures pages == OffsetChunksOver(tables, wheres, order, size, callback, 0)
      ensures raised <==> pages != [] && callback(pages[|pages| - 1]) == Raise
    {
      hide Select, OffsetChunksFrom, OffsetChunksOver, Scoped, Take, Drop, Handed;
      ghost var all := OffsetChunksOver(tables, wheres, order, size, callback, 0);
      var page := 0;
      pages, raised := [], false;
      var running := true;
      OffsetChunksFromStart(tables, wheres, order, size, callback);
      HandedNothing(callback, all);
      while running && page < |tables|
        invariant wheres == old(wheres) && prepared == old(prepared) && 0 <= page <= |tables|
        invariant Handed(callback, all, pages, raised,
                         if running then OffsetChunksFrom(tables, page, wheres, order, size, callback) else [])
        decreases running, |tables| - page
      {
        var rows := OffsetGet(tables[page], size, page * size);
        OffsetChunksFromStep(tables, page, wheres, order, size, callback);
        if rows == [] {
          running := false;
        } else {
          var outcome := callback(rows);
          running := outcome == Continue && |rows| >= size;
          page := page + 1;
          HandedNext(callback, all, pages, raised, rows,
                     if running then OffsetChunksFrom(tables, page, wheres, order, size, callback) else []);
          pages := pages + [rows];
          raised := outcome == Raise;
        }
      }
      HandedAll(callback, all, pages, raised);
    }
  }

  /** Of all the pages these are handed out and the rest remains; the last one tells whether the callback
      failed. */
  ghost predicate Handed(callback: seq<Row> -> Outcome, all: seq<seq<Row>>, pages: seq<seq<Row>>, raised: bool,
                         rest: seq<seq<Row>>) {
    all == pages + rest && (raised <==> pages != [] && callback(pages[|pages| - 1]) == Raise)
  }

  lemma HandedNothing(callback: seq<Row> -> Outcome, all: seq<seq<Row>>)
    ensures Handed(callback, all, [], false, all)
  {
    assert [] + all == all;
  }

  lemma HandedNext(callback: seq<Row> -> Outcome, all: seq<seq<Row>>, pages: seq<seq<Row>>, raised: bool,
                   rows: seq<Row>, rest: seq<seq<Row>>)
    requires Handed(callback, all, pages, raised, [rows] + rest)
    ensures Handed(callback, all, pages + [rows], callback(rows) == Raise, rest)
  {
    assert pages + ([rows] + rest) == pages + [rows] + rest;
  }

  lemma HandedAll(callback: seq<Row> -> Outcome, all: seq<seq<Row>>, pages: seq<seq<Row>>, raised: bool)
    requires Handed(callback, all, pages, raised, [])
    ensures pages == all && (raised <==> pages != [] && callback(pages[|pages| - 1]) == Raise)
  {
    assert pages + [] == pages;
  }

  lemma ChunksFromStart(tables: seq<seq<Row>>, wheres: seq<(Connector, Clause)>, key: string, offset: nat,
                        size: nat, callback: seq<Row> -> Outcome)
    ensures ChunksFrom(tables, 0, wheres, key, offset, size, callback, None) ==
            ChunksOver(tables, wheres, key, offset, size, callback, None)
    ensures forall last :: ChunksFrom(tables, |tables|, wheres, key, offset, size, callback, last) == []
  {
    assert tables[0..] == tables;
  }

  lemma ChunksFromStep(tables: seq<seq<Row>>, i: nat, wheres: seq<(Connector, Clause)>, key: string, offset: nat,
                       size: nat, callback: seq<Row> -> Outcome, last: Option<int>)
    requires i < |tables|
    ensures var page := ChunkPage(Select(tables[i], wheres, KeyOrder(key)), key, offset, size, last);
            ChunksFrom(tables, i, wheres, key, offset, size, callback, last) ==
            if page == [] then []
            else [page] + if callback(page) == Continue && |page| >= size
                          then ChunksFrom(tables, i + 1, wheres, key, offset, size, callback,
                                          Some(Cell(page[|page| - 1], key)))
                          else []
  {
    assert tables[i..][1..] == tables[i + 1..];
  }

  lemma OffsetChunksFromStart(tables: seq<seq<Row>>, wheres: seq<(Connector, Clause)>, order: seq<Spec>,
                              size: nat, callback: seq<Row> -> Outcome)
    ensures OffsetChunksFrom(tables, 0, wheres, order, size, callback) ==
            OffsetChunksOver(tables, wheres, order, size, callback, 0)
    ensures OffsetChunksFrom(tables, |tables|, wheres, order, size, callback) == []
  {
    assert tables[0..] == tables;
  }

  lemma OffsetChunksFromStep(tables: seq<seq<Row>>, i: nat, wheres: seq<(Connector, Clause)>, order: seq<Spec>,
                             size: nat, callback: seq<Row> -> Outcome)
    requires i < |tables|
    ensures var page := Take(Drop(Select(tables[i], wheres, order), i * size), size);
            OffsetChunksFrom(tables, i, wheres, order, size, callback) ==
            if page == [] then []
            else [page] + if callback(page) == Continue && |page| >= size
                          then OffsetChunksFrom(tables, i + 1, wheres, order, size, callback) else []
  {
    assert tables[i..][1..] == tables[i + 1..] && (i + 1) * size == i * size + size;
    hide Select, Take, Drop;
  }

  /** A malformed cursor decodes to the empty position, which no ordering accepts; the positions the
      pages themselves hand out name every ordering column. */
  lemma OnlyForeignCursorsFail(specs: seq<Spec>, pk: string, row: Row)
    ensures var ordering := Normalised(specs, pk);
            && (exists i :: 0 <= i < |ordering| && ordering[i].0 !in Cursor(map[], false).position)
            && (forall i :: 0 <= i < |ordering| ==> ordering[i].0 in Boundary(row, ordering))
  {
    var ordering := Normalised(specs, pk);
    assert |ordering| > 0 && ordering[0].0 !in Cursor(map[], false).position;
    forall i | 0 <= i < |ordering| ensures ordering[i].0 in Boundary(row, ordering) {
      assert ordering[i].0 in Columns(ordering);
    }
  }

  /** Seeking first and scoping afterwards selects the same rows as the other way round. */
  lemma SeekBeforeScope(table: seq<Row>, wheres: seq<(Connector, Clause)>, seek: Clause,
                        prepare: Option<Clause>, prepared: bool, order: seq<Spec>)
    ensures var pending := if prepare.Some? && !prepared then [(And, prepare.value)] else [];
            Select(table, wheres + [(And, seek)] + pending, order) ==
            Select(table, wheres + pending + [(And, seek)], order)
  {
    if prepare.Some? && !prepared {
      var scope := prepare.value;
      var sought, scoped := wheres + [(And, seek)], wheres + [(And, scope)];
      forall row | row in table
        ensures Matching(sought + [(And, scope)])(row) == Matching(scoped + [(And, seek)])(row)
      {
        AndNarrows(sought, scope, row);
        AndNarrows(wheres, seek, row);
        AndNarrows(scoped, seek, row);
        AndNarrows(wheres, scope, row);
      }
      FilterExt(Matching(sought + [(And, scope)]), Matching(scoped + [(And, seek)]), table);
    } else {
      assert wheres + [(And, seek)] + [] == wheres + [] + [(And, seek)];
    }
  }

  lemma BoundedPage(table: seq<Row>, wheres: seq<(Connector, Clause)>, key: string, offset: nat,
                    size: nat, last: Option<int>)
    ensures Take(Drop(Select(table, wheres + Bound(key, last), KeyOrder(key)), offset), size) ==
            ChunkPage(Select(table, wheres, KeyOrder(key)), key, offset, size, last)
  {
    var listing := Select(table, wheres, KeyOrder(key));
    if last.None? {
      assert wheres + Bound(key, last) == wheres;
      FilterAll(Beyond(key, last), listing);
    } else {
      SelectBounded(table, wheres, KeyOrder(key), Compare(key, Gt, last.value), Beyond(key, last));
    }
  }

  function OffsetChunks(listing: seq<Row>, size: nat, callback: seq<Row> -> Outcome, at: nat): seq<seq<Row>>
    decreases |Drop(listing, at)|
  {
    var page := Take(Drop(listing, at), size);
    if page == [] then []
    else if callback(page) != Continue || |page| < size then [page]
    else [page] + OffsetChunks(listing, size, callback, at + size)
  }

  lemma ChunksStep(listing: seq<Row>, key: string, offset: nat, size: nat,
                   callback: seq<Row> -> Outcome, last: Option<int>)
    ensures var page := ChunkPage(listing, key, offset, size, last);
            Chunks(listing, key, offset, size, callback, last) ==
            if page == [] then []
            else if callback(page) != Continue || |page| < size then [page]
            else [page] + Chunks(listing, key, offset, size, callback, Some(Cell(page[|page| - 1], key)))
  {
  }

  lemma OffsetChunksStep(listing: seq<Row>, size: nat, callback: seq<Row> -> Outcome, at: nat)
    ensures var page := Take(Drop(listing, at), size);
            OffsetChunks(listing, size, callback, at) ==
            if page == [] then []
            else if callback(page) != Continue || |page| < size then [page]
            else [page] + OffsetChunks(listing, size, callback, at + size)
  {
  }

  // --- what a chunk walk delivers ------------------------------------------------------

  function Always(): seq<Row> -> Outcome {
    page => Continue
  }

  /** A callback that stops or fails sees a prefix of the full walk, ending with the page on which
      it did so, whatever happens to the table between pages. */
  lemma {:induction false} ChunksPrefix(tables: seq<seq<Row>>, wheres: seq<(Connector, Clause)>, key: string,
                                        offset: nat, size: nat, callback: seq<Row> -> Outcome, last: Option<int>)
    ensures Interrupts(callback, ChunksOver(tables, wheres, key, offset, size, callback, last),
                       ChunksOver(tables, wheres, key, offset, size, Always(), last))
  {
    hide ChunkPage, Select;
    if tables != [] {
      var page := ChunkPage(Select(tables[0], wheres, KeyOrder(key)), key, offset, size, last);
      if page != [] && callback(page) == Continue && |page| >= size {
        var next := Some(Cell(page[|page| - 1], key));
        ChunksPrefix(tables[1..], wheres, key, offset, size, callback, next);
        InterruptsCons(callback, page, ChunksOver(tables[1..], wheres, key, offset, size, callback, next),
                       ChunksOver(tables[1..], wheres, key, offset, size, Always(), next));
      }
    }
  }

  /** Offset batches are cut short in the same way. */
  lemma {:induction false} OffsetChunksPrefix(tables: seq<seq<Row>>, wheres: seq<(Connector, Clause)>,
                                              order: seq<Spec>, size: nat, callback: seq<Row> -> Outcome, at: nat)
    ensures Interrupts(callback, OffsetChunksOver(tables, wheres, order, size, callback, at),
                       OffsetChunksOver(tables, wheres, order, size, Always(), at))
  {
    hide Take, Drop, Select;
    if tables != [] {
      var page := Take(Drop(Select(tables[0], wheres, order), at), size);
      if page != [] && callback(page) == Continue && |page| >= size {
        OffsetChunksPrefix(tables[1..], wheres, order, size, callback, at + size);
        InterruptsCons(callback, page, OffsetChunksOver(tables[1..], wheres, order, size, callback, at + size),
                       OffsetChunksOver(tables[1..], wheres, order, size, Always(), at + size));
      }
    }
  }

  /** `pages` is `full` up to and with the page on which the callback stopped or failed. */
  ghost predicate Interrupts(callback: seq<Row> -> Outcome, pages: seq<seq<Row>>, full: seq<seq<Row>>) {
    && pages <= full
    && (forall i :: 0 <= i < |pages| - 1 ==> callback(pages[i]) == Continue)
    && (|pages| < |full| ==> pages != [] && callback(pages[|pages| - 1]) != Continue)
  }

  lemma InterruptsCons(callback: seq<Row> -> Outcome, page: seq<Row>, pages: seq<seq<Row>>, full: seq<seq<Row>>)
    requires Interrupts(callback, pages, full) && callback(page) == Continue
    ensures Interrupts(callback, [page] + pages, [page] + full)
  {
  }

  /** Every row handed out on page `i` is a row of the table page `i` read and satisfies the conditions and
      the deferred scope, whatever ANDs and ORs were accumulated before it. */
  lemma ChunksScoped(tables: seq<seq<Row>>, wheres: seq<(Connector, Clause)>, scope: Clause, key: string,
                     offset: nat, size: nat, callback: seq<Row> -> Outcome, i: nat, row: Row)
    requires var pages := ChunksOver(tables, wheres + [(And, scope)], key, offset, size, callback, None);
             i < |pages| && row in pages[i]
    ensures row in tables[i] && Matches(wheres, row) && Holds(scope, row)
  {
    var scoped := wheres + [(And, scope)];
    ChunksFromListing(tables, scoped, key, offset, size, callback, None, i, row);
    SelectIn(tables[i], scoped, KeyOrder(key), row);
    AndNarrows(wheres, scope, row);
  }

  lemma {:induction false} ChunksFromListing(tables: seq<seq<Row>>, wheres: seq<(Connector, Clause)>, key: string,
                                             offset: nat, size: nat, callback: seq<Row> -> Outcome,
                                             last: Option<int>, i: nat, row: Row)
    requires var pages := ChunksOver(tables, wheres, key, offset, size, callback, last);
             i < |pages| && row in pages[i]
    ensures row in Select(tables[i], wheres, KeyOrder(key))
  {
    hide ChunkPage, Select;
    var listing := Select(tables[0], wheres, KeyOrder(key));
    var page := ChunkPage(listing, key, offset, size, last);
    if i == 0 {
      PageFromListing(listing, key, offset, size, last, row);
    } else {
      var next := Some(Cell(page[|page| - 1], key));
      ChunksFromListing(tables[1..], wheres, key, offset, size, callback, next, i - 1, row);
    }
  }

  lemma PageFromListing(listing: seq<Row>, key: string, offset: nat, size: nat, last: Option<int>, row: Row)
    requires row in ChunkPage(listing, key, offset, size, last)
    ensures row in Filter(Beyond(key, last), listing) && row in listing
  {
    var page := ChunkPage(listing, key, offset, size, last);
    var rest := Filter(Beyond(key, last), listing);
    var j :| 0 <= j < |page| && page[j] == row;
    assert rest[offset + j] == row;
    FilterIn(Beyond(key, last), listing, row);
  }

  // --- a table that stands still ----------------------------------------------------------

  /** On a table that does not change, given snapshots enough, the walk is that over its one listing. */
  lemma {:induction false} StillChunks(table: seq<Row>, times: nat, wheres: seq<(Connector, Clause)>, key: string,
                                       offset: nat, size: nat, callback: seq<Row> -> Outcome, last: Option<int>)
    requires Left(Select(table, wheres, KeyOrder(key)), key, last) < times
    ensures ChunksOver(Still(table, times), wheres, key, offset, size, callback, last) ==
            Chunks(Select(table, wheres, KeyOrder(key)), key, offset, size, callback, last)
  {
    hide ChunkPage, Select, Left, Cell;
    var listing := Select(table, wheres, KeyOrder(key));
    var page := ChunkPage(listing, key, offset, size, last);
    ChunksStep(listing, key, offset, size, callback, last);
    if page != [] && callback(page) == Continue && |page| >= size {
      var next := Some(Cell(page[|page| - 1], key));
      ChunkPageShrinks(listing, key, offset, size, last);
      StillChunks(table, times - 1, wheres, key, offset, size, callback, next);
      assert Still(table, times)[1..] == Still(table, times - 1);
    }
  }

  lemma {:induction false} StillOffsetChunks(table: seq<Row>, times: nat, wheres: seq<(Connector, Clause)>,
                                             order: seq<Spec>, size: nat, callback: seq<Row> -> Outcome, at: nat)
    requires |Drop(Select(table, wheres, order), at)| < times
    ensures OffsetChunksOver(Still(table, times), wheres, order, size, callback, at) ==
            OffsetChunks(Select(table, wheres, order), size, callback, at)
  {
    hide Select, OffsetChunks;
    var listing := Select(table, wheres, order);
    var page := Take(Drop(listing, at), size);
    OffsetChunksStep(listing, size, callback, at);
    if page != [] && callback(page) == Continue && |page| >= size {
      StillOffsetChunks(table, times - 1, wheres, order, size, callback, at + size);
      assert Still(table, times)[1..] == Still(table, times - 1);
    }
  }

  // --- a table that changes ------------------------------------------------------------------

  ghost predicate StrictKeys(key: string, s: seq<Row>) {
    forall i, j :: 0 <= i < j < |s| ==> Cell(s[i], key) < Cell(s[j], key)
  }

  /** The walk found its end before the snapshots did. */
  ghost predicate Ended(tables: seq<seq<Row>>, size: nat, pages: seq<seq<Row>>) {
    |pages| < |tables| || (pages != [] && |pages[|pages| - 1]| < size)
  }

  /** A matching row of the table has this key. */
  ghost predicate HasKey(table: seq<Row>, wheres: seq<(Connector, Clause)>, key: string, value: int) {
    exists row :: row in table && Matches(wheres, row) && Cell(row, key) == value
  }

  /** What one page on a unique column reads from. */
  lemma RestStrict(table: seq<Row>, wheres: seq<(Connector, Clause)>, key: string, last: Option<int>)
    requires UniqueIn(key, table)
    ensures var rest := Filter(Beyond(key, last), Select(table, wheres, KeyOrder(key)));
            && StrictKeys(key, rest)
            && (last.Some? ==> forall i :: 0 <= i < |rest| ==> last.value < Cell(rest[i], key))
  {
    var listing := Select(table, wheres, KeyOrder(key));
    var rest := Filter(Beyond(key, last), listing);
    FilterUnique(key, Matching(wheres), table);
    SortUnique(key, KeyOrder(key), Filter(Matching(wheres), table));
    SelectKeySorted(table, wheres, key);
    FilterUnique(key, Beyond(key, last), listing);
    KeySortedFilter(key, Beyond(key, last), listing);
    forall i | 0 <= i < |rest| ensures Beyond(key, last)(rest[i]) {
      FilterIn(Beyond(key, last), listing, rest[i]);
    }
  }

  lemma StrictKeysConcat(key: string, a: seq<Row>, b: seq<Row>)
    requires StrictKeys(key, a) && StrictKeys(key, b)
    requires a != [] ==> AllBeyond(key, Some(Cell(a[|a| - 1], key)), b)
    ensures StrictKeys(key, a + b)
  {
  }

  ghost predicate AllBeyond(key: string, last: Option<int>, s: seq<Row>) {
    last.Some? ==> forall i :: 0 <= i < |s| ==> last.value < Cell(s[i], key)
  }

  lemma AllBeyondConcat(key: string, last: Option<int>, a: seq<Row>, b: seq<Row>)
    requires a != [] && AllBeyond(key, last, a) && AllBeyond(key, Some(Cell(a[|a| - 1], key)), b)
    ensures AllBeyond(key, last, a + b)
  {
  }

  lemma PageStrict(table: seq<Row>, wheres: seq<(Connector, Clause)>, key: string, offset: nat, size: nat,
                   last: Option<int>)
    requires UniqueIn(key, table)
    ensures var page := ChunkPage(Select(table, wheres, KeyOrder(key)), key, offset, size, last);
            StrictKeys(key, page) && AllBeyond(key, last, page)
  {
    hide Select, UniqueIn, Cell, Filter;
    var rest := Filter(Beyond(key, last), Select(table, wheres, KeyOrder(key)));
    var page := ChunkPage(Select(table, wheres, KeyOrder(key)), key, offset, size, last);
    RestStrict(table, wheres, key, last);
    assert forall i :: 0 <= i < |page| ==> page[i] == rest[offset + i];
  }

  /** On a unique column, whatever happens to the table between pages, the keys handed out strictly increase. */
  lemma {:induction false} ChunksIncrease(tables: seq<seq<Row>>, wheres: seq<(Connector, Clause)>, key: string,
                                          offset: nat, size: nat, callback: seq<Row> -> Outcome, last: Option<int>)
    requires forall t :: t in tables ==> UniqueIn(key, t)
    ensures var rows := Flat(ChunksOver(tables, wheres, key, offset, size, callback, last));
            StrictKeys(key, rows) && AllBeyond(key, last, rows)
  {
    hide Select, UniqueIn, Cell, ChunkPage, StrictKeys, AllBeyond, Flat;
    FlatNothing<Row>();
    NothingStrict(key, last);
    if tables != [] {
      var page := ChunkPage(Select(tables[0], wheres, KeyOrder(key)), key, offset, size, last);
      PageStrict(tables[0], wheres, key, offset, size, last);
      FlatFirst(page, []);
      assert [page] + [] == [page] && page + [] == page;
      if page != [] && callback(page) == Continue && |page| >= size {
        var next := Some(Cell(page[|page| - 1], key));
        var tail := ChunksOver(tables[1..], wheres, key, offset, size, callback, next);
        ChunksIncrease(tables[1..], wheres, key, offset, size, callback, next);
        FlatFirst(page, tail);
        StrictKeysConcat(key, page, Flat(tail));
        AllBeyondConcat(key, last, page, Flat(tail));
      }
    }
  }

  lemma NothingStrict(key: string, last: Option<int>)
    ensures StrictKeys(key, []) && AllBeyond(key, last, [])
  {
  }

  /** A page hands out the key it finds, or is full of smaller ones. */
  lemma PageHasKey(table: seq<Row>, wheres: seq<(Connector, Clause)>, key: string, size: nat, last: Option<int>,
                   value: int)
    requires size > 0 && UniqueIn(key, table) && HasKey(table, wheres, key, value)
    requires last.Some? ==> last.value < value
    ensures var page := ChunkPage(Select(table, wheres, KeyOrder(key)), key, 0, size, last);
            || (exists row :: row in page && Cell(row, key) == value)
            || (|page| == size && Cell(page[|page| - 1], key) < value)
  {
    hide Select, UniqueIn, Cell, HasKey, Filter;
    var rest := Filter(Beyond(key, last), Select(table, wheres, KeyOrder(key)));
    var page := ChunkPage(Select(table, wheres, KeyOrder(key)), key, 0, size, last);
    var i := KeyInRest(table, wheres, key, last, value);
    RestStrict(table, wheres, key, last);
    if i < size {
      assert page[i] == rest[i] && rest[i] in page;
    } else {
      assert page[size - 1] == rest[size - 1];
    }
  }

  /** A key that every page finds in the table, and that lies after the start, is handed out. */
  lemma {:induction false} ChunksReach(tables: seq<seq<Row>>, wheres: seq<(Connector, Clause)>, key: string,
                                       size: nat, last: Option<int>, value: int)
    requires size > 0 && forall t :: t in tables ==> UniqueIn(key, t)
    requires Ended(tables, size, ChunksOver(tables, wheres, key, 0, size, Always(), last))
    requires Stays(tables, wheres, key, value, |ChunksOver(tables, wheres, key, 0, size, Always(), last)|)
    requires last.Some? ==> last.value < value
    ensures exists row ::
              row in Flat(ChunksOver(tables, wheres, key, 0, size, Always(), last)) && Cell(row, key) == value
  {
    hide Select, UniqueIn, Cell, HasKey, ChunkPage, Flat;
    var page := ChunkPage(Select(tables[0], wheres, KeyOrder(key)), key, 0, size, last);
    assert HasKey(tables[0], wheres, key, value);
    PageHasKey(tables[0], wheres, key, size, last, value);
    assert page != [];
    var next := Some(Cell(page[|page| - 1], key));
    var tail := if |page| < size then [] else ChunksOver(tables[1..], wheres, key, 0, size, Always(), next);
    FlatFirst(page, tail);
    assert [page] + [] == [page];
    assert Flat(ChunksOver(tables, wheres, key, 0, size, Always(), last)) == page + Flat(tail);
    if row :| row in page && Cell(row, key) == value {
      assert row in page + Flat(tail);
    } else {
      EndedTail(tables, size, page, tail);
      forall j | 0 <= j < |tables[1..]| && j <= |tail| ensures HasKey(tables[1..][j], wheres, key, value) {
        assert tables[j + 1] == tables[1..][j];
      }
      ChunksReach(tables[1..], wheres, key, size, next, value);
      var row :| row in Flat(tail) && Cell(row, key) == value;
      assert row in page + Flat(tail);
    }
  }

  lemma EndedTail(tables: seq<seq<Row>>, size: nat, page: seq<Row>, tail: seq<seq<Row>>)
    requires tables != [] && |page| >= size && Ended(tables, size, [page] + tail)
    ensures Ended(tables[1..], size, tail)
  {
    if tail != [] { assert tail[|tail| - 1] == ([page] + tail)[|tail|]; }
  }

  /** Each of the first `n` pages, and the read after them, finds the key in the table. */
  ghost predicate Stays(tables: seq<seq<Row>>, wheres: seq<(Connector, Clause)>, key: string, value: int, n: nat) {
    forall i :: 0 <= i < |tables| && i <= n ==> HasKey(tables[i], wheres, key, value)
  }

  lemma KeyInRest(table: seq<Row>, wheres: seq<(Connector, Clause)>, key: string, last: Option<int>, value: int)
    returns (i: nat)
    requires HasKey(table, wheres, key, value) && (last.Some? ==> last.value < value)
    ensures var rest := Filter(Beyond(key, last), Select(table, wheres, KeyOrder(key)));
            i < |rest| && Cell(rest[i], key) == value
  {
    hide Select, Matches;
    var row :| row in table && Matches(wheres, row) && Cell(row, key) == value;
    SelectIn(table, wheres, KeyOrder(key), row);
    FilterIn(Beyond(key, last), Select(table, wheres, KeyOrder(key)), row);
    var rest := Filter(Beyond(key, last), Select(table, wheres, KeyOrder(key)));
    i :| 0 <= i < |rest| && rest[i] == row;
  }

  /** Chunking on a unique column is stable under changes: when the walk ends, every key that stayed in the
      table with a matching row was handed out exactly once, whatever came, went or changed between pages. */
  lemma ChunkByIdExactlyOnce(tables: seq<seq<Row>>, wheres: seq<(Connector, Clause)>, key: string, size: nat,
                             value: int)
    requires size > 0 && forall t :: t in tables ==> UniqueIn(key, t)
    requires Ended(tables, size, ChunksOver(tables, wheres, key, 0, size, Always(), None))
    requires Stays(tables, wheres, key, value, |ChunksOver(tables, wheres, key, 0, size, Always(), None)|)
    ensures var rows := Flat(ChunksOver(tables, wheres, key, 0, size, Always(), None));
            && StrictKeys(key, rows)
            && Count(rows, WithKey(key, value)) == 1
  {
    hide Cell, UniqueIn;
    var rows := Flat(ChunksOver(tables, wheres, key, 0, size, Always(), None));
    ChunksIncrease(tables, wheres, key, 0, size, Always(), None);
    ChunksReach(tables, wheres, key, size, None, value);
    var row :| row in rows && Cell(row, key) == value;
    hide ChunksOver, Ended, Stays, Flat;
    var i :| 0 <= i < |rows| && rows[i] == row;
    OnlyOne(key, rows, i);
  }

  function WithKey(key: string, value: int): Row -> bool {
    row => Cell(row, key) == value
  }

  lemma OnlyOne(key: string, rows: seq<Row>, i: nat)
    requires StrictKeys(key, rows) && i < |rows|
    ensures Count(rows, WithKey(key, Cell(rows[i], key))) == 1
  {
    hide Cell, Count;
    var p := WithKey(key, Cell(rows[i], key));
    var before, after := rows[..i], rows[i + 1..];
    assert forall j :: 0 <= j < |before| ==> before[j] == rows[j];
    assert forall j :: 0 <= j < |after| ==> after[j] == rows[i + 1 + j];
    assert (forall x :: x in before ==> !p(x)) && forall x :: x in after ==> !p(x);
    CountZero(before, p);
    CountZero(after, p);
    CountAppend(before, rows[i], p);
    CountConcat(before + [rows[i]], after, p);
    assert rows == before + [rows[i]] + after;
  }

  /** Offset batches are not: the first batch of one is handed out and its row deleted, and the second row,
      there all along, has moved up to where the walk no longer looks. */
  lemma OffsetChunksSkip(a: Row, b: Row, key: string)
    requires Cell(a, key) < Cell(b, key)
    ensures OffsetChunksOver([[a, b], [b]], [], KeyOrder(key), 1, Always(), 0) == [[a]]
  {
    var (both, left) := ([a, b], [b]);
    var order := KeyOrder(key);
    FilterAll(Matching([]), both);
    FilterAll(Matching([]), left);
    assert both[1..] == left && left[1..] == [] && [both, left][1..] == [left];
    assert order[0].0 == key && !Before(order, b, a);
    assert Sort(order, left) == left && Sort(order, both) == both;
    hide Sort, Filter, Before;
    assert Take(Drop(both, 0), 1) == [a] && Drop(left, 1) == [];
  }

  ghost predicate KeySorted(key: string, s: seq<Row>) {
    forall i, j :: 0 <= i < j < |s| ==> Cell(s[i], key) <= Cell(s[j], key)
  }

  /** No page boundary falls between two rows with the same key. */
  ghost predicate NoTieAcross(key: string, size: nat, s: seq<Row>)
    decreases |s|
  {
    size > 0 && |s| > size ==>
      Cell(s[size - 1], key) < Cell(s[size], key) && NoTieAcross(key, size, s[size..])
  }

  lemma FilterSuffix(p: Row -> bool, s: seq<Row>, k: nat)
    requires k <= |s|
    requires forall i :: 0 <= i < k ==> !p(s[i])
    requires forall i :: k <= i < |s| ==> p(s[i])
    ensures Filter(p, s) == s[k..]
  {
    assert s == s[..k] + s[k..];
    FilterConcat(p, s[..k], s[k..]);
    FilterNone(p, s[..k]);
    FilterAll(p, s[k..]);
  }

  lemma {:induction false} BeyondSuffix(key: string, s: seq<Row>, bound: int) returns (k: nat)
    requires KeySorted(key, s)
    ensures k <= |s| && Filter(Beyond(key, Some(bound)), s) == s[k..]
    ensures forall i :: 0 <= i < k ==> Cell(s[i], key) <= bound
    ensures forall i :: k <= i < |s| ==> Cell(s[i], key) > bound
  {
    var p := Beyond(key, Some(bound));
    k := 0;
    while k < |s| && Cell(s[k], key) <= bound
      invariant k <= |s| && forall i :: 0 <= i < k ==> Cell(s[i], key) <= bound
    {
      k := k + 1;
    }
    forall i | k <= i < |s| ensures p(s[i]) {
      assert i > k ==> Cell(s[k], key) <= Cell(s[i], key);
    }
    FilterSuffix(p, s, k);
  }

  /** The rows left after a page of `rest` with last key `bound`, read off `rest` itself. */
  lemma RestAfter(listing: seq<Row>, key: string, last: Option<int>, bound: int)
    requires last.Some? ==> last.value <= bound
    ensures Filter(Beyond(key, Some(bound)), listing) ==
            Filter(Beyond(key, Some(bound)), Filter(Beyond(key, last), listing))
  {
    FilterTwice(Beyond(key, last), Beyond(key, Some(bound)), Beyond(key, Some(bound)), listing);
  }

  lemma {:induction false} KeySortedFilter(key: string, p: Row -> bool, s: seq<Row>)
    requires KeySorted(key, s)
    ensures KeySorted(key, Filter(p, s))
  {
    if s != [] {
      var rest := s[1..];
      assert forall i :: 0 <= i < |rest| ==> rest[i] == s[i + 1];
      KeySortedFilter(key, p, rest);
      forall j | 0 <= j < |Filter(p, rest)| ensures Cell(s[0], key) <= Cell(Filter(p, rest)[j], key) {
        FilterIn(p, rest, Filter(p, rest)[j]);
        var k :| 0 <= k < |rest| && rest[k] == Filter(p, rest)[j];
        assert s[k + 1] == rest[k];
      }
    }
  }

  /** What one full page leaves: the position `k` where the next page starts reading. */
  lemma NextRest(listing: seq<Row>, key: string, offset: nat, size: nat, last: Option<int>) returns (k: nat)
    requires KeySorted(key, listing)
    requires ChunkPage(listing, key, offset, size, last) != []
    ensures var rest := Filter(Beyond(key, last), listing);
            var page := ChunkPage(listing, key, offset, size, last);
            var seen := offset + |page|;
            && seen <= k <= |rest|
            && Filter(Beyond(key, Some(Cell(page[|page| - 1], key))), listing) == rest[k..]
            && (k == seen <==> seen == |rest| || Cell(rest[seen - 1], key) < Cell(rest[seen], key))
  {
    hide Filter;
    var rest := Filter(Beyond(key, last), listing);
    var page := ChunkPage(listing, key, offset, size, last);
    var seen := offset + |page|;
    assert page[|page| - 1] == rest[seen - 1];
    var bound := Cell(rest[seen - 1], key);
    FilterIn(Beyond(key, last), listing, rest[seen - 1]);
    RestAfter(listing, key, last, bound);
    KeySortedFilter(key, Beyond(key, last), listing);
    k := BeyondSuffix(key, rest, bound);
  }

  /** A walk never hands out more rows than the offset leaves. */
  lemma {:induction false} ChunksBounded(listing: seq<Row>, key: string, offset: nat, size: nat, last: Option<int>)
    requires KeySorted(key, listing)
    ensures var rest := Filter(Beyond(key, last), listing);
            |Flat(Chunks(listing, key, offset, size, Always(), last))| <= |Drop(rest, offset)|
    decreases Left(listing, key, last)
  {
    hide Chunks, Left, Filter, KeySorted;
    var page := ChunkPage(listing, key, offset, size, last);
    ChunksStep(listing, key, offset, size, Always(), last);
    if page != [] {
      ChunkPageShrinks(listing, key, offset, size, last);
      var next := Some(Cell(page[|page| - 1], key));
      var k := NextRest(listing, key, offset, size, last);
      ChunksBounded(listing, key, offset, size, next);
      FlatFirst(page, if |page| < size then [] else Chunks(listing, key, offset, size, Always(), next));
    }
  }

  lemma FlatFirst<T>(first: seq<T>, rest: seq<seq<T>>)
    ensures Flat([first] + rest) == first + Flat(rest)
  {
    assert ([first] + rest)[1..] == rest;
  }

  lemma {:induction false} ChunksComplete(listing: seq<Row>, key: string, offset: nat, size: nat, last: Option<int>)
    requires KeySorted(key, listing)
    ensures var rest := Filter(Beyond(key, last), listing);
            Flat(Chunks(listing, key, offset, size, Always(), last)) == rest <==>
            rest == [] || (offset == 0 && size > 0 && NoTieAcross(key, size, rest))
    decreases Left(listing, key, last)
  {
    hide Chunks, Left, Filter, KeySorted, Flat;
    var rest := Filter(Beyond(key, last), listing);
    var page := ChunkPage(listing, key, offset, size, last);
    ChunksBounded(listing, key, offset, size, last);
    ChunksStep(listing, key, offset, size, Always(), last);
    FlatFirst(page, []);
    FlatNothing<Row>();
    assert [page] + [] == [page];
    if rest != [] && offset == 0 && size > 0 && |page| == size {
      ChunkPageShrinks(listing, key, offset, size, last);
      var next := Some(Cell(page[|page| - 1], key));
      var k := NextRest(listing, key, offset, size, last);
      var tail := Chunks(listing, key, offset, size, Always(), next);
      FlatFirst(page, tail);
      ChunksBounded(listing, key, offset, size, next);
      ChunksComplete(listing, key, offset, size, next);
      SplitSlice(rest, 0, size);
      SameAfter(page, Flat(tail), rest[size..]);
    }
  }

  lemma FlatNothing<T>()
    ensures Flat<T>([]) == []
  {
  }

  lemma SameAfter<T>(first: seq<T>, a: seq<T>, b: seq<T>)
    ensures first + a == first + b <==> a == b
  {
    if first + a == first + b {
      assert a == (first + a)[|first|..] && b == (first + b)[|first|..];
    }
  }

  /** With a callback that never stops, on a table that stands still, `chunk_by_id` hands out every matching
      row exactly once, in key order, if and only if there is nothing to hand out, or the page size is
      positive, the builder carries no offset, and no page boundary splits a run of equal keys. */
  lemma ChunkByIdComplete(table: seq<Row>, times: nat, wheres: seq<(Connector, Clause)>, key: string, offset: nat,
                          size: nat)
    requires |Select(table, wheres, KeyOrder(key))| < times
    ensures var listing := Select(table, wheres, KeyOrder(key));
            && KeySorted(key, listing)
            && (Flat(ChunksOver(Still(table, times), wheres, key, offset, size, Always(), None)) == listing <==>
                listing == [] || (offset == 0 && size > 0 && NoTieAcross(key, size, listing)))
  {
    var listing := Select(table, wheres, KeyOrder(key));
    SelectKeySorted(table, wheres, key);
    FilterAll(Beyond(key, None), listing);
    StillChunks(table, times, wheres, key, offset, size, Always(), None);
    ChunksComplete(listing, key, offset, size, None);
  }

  lemma SelectKeySorted(table: seq<Row>, wheres: seq<(Connector, Clause)>, key: string)
    ensures KeySorted(key, Select(table, wheres, KeyOrder(key)))
  {
    SortSorted(KeyOrder(key), Filter(Matching(wheres), table));
  }

  /** Chunking on a unique column, such as the primary key, never splits a run of equal keys. */
  lemma UniqueKeyNeverTies(table: seq<Row>, wheres: seq<(Connector, Clause)>, key: string, size: nat)
    requires UniqueIn(key, table)
    ensures NoTieAcross(key, size, Select(table, wheres, KeyOrder(key)))
  {
    FilterUnique(key, Matching(wheres), table);
    SortUnique(key, KeyOrder(key), Filter(Matching(wheres), table));
    SelectKeySorted(table, wheres, key);
    UniqueSortedNoTie(key, size, Select(table, wheres, KeyOrder(key)));
  }

  lemma {:induction false} UniqueSortedNoTie(key: string, size: nat, s: seq<Row>)
    requires KeySorted(key, s) && UniqueIn(key, s)
    ensures NoTieAcross(key, size, s)
    decreases |s|
  {
    if size > 0 && |s| > size {
      assert forall i :: 0 <= i < |s[size..]| ==> s[size..][i] == s[size + i];
      UniqueSortedNoTie(key, size, s[size..]);
    }
  }

  /** A non-unique column loses rows: two rows with one key and pages of one. */
  lemma NonUniqueColumnLosesARow()
    ensures var table := [map["id" := 1, "group" := 7], map["id" := 2, "group" := 7]];
            var pages := ChunksOver(Still(table, 3), [], "group", 0, 1, Always(), None);
            Flat(pages) != Select(table, [], KeyOrder("group"))
  {
    var a: Row, b: Row := map["id" := 1, "group" := 7], map["id" := 2, "group" := 7];
    var table := [a, b];
    FilterAll(Matching([]), table);
    var order := KeyOrder("group");
    assert order[0].0 == "group";
    assert table[1..] == [b] && [b][1..] == [];
    assert Sort(order, [b]) == [b];
    assert !Before(order, b, a);
    assert Select(table, [], order) == [a] + [b];
    ChunkByIdComplete(table, 3, [], "group", 0, 1);
  }

  /** Offset batches of a positive size, on a table that stands still, cut the whole listing in its order. */
  lemma OffsetChunksComplete(table: seq<Row>, times: nat, wheres: seq<(Connector, Clause)>, order: seq<Spec>,
                             size: nat)
    requires |Select(table, wheres, order)| < times
    ensures var listing := Select(table, wheres, order);
            Flat(OffsetChunksOver(Still(table, times), wheres, order, size, Always(), 0)) == listing <==>
            size > 0 || listing == []
  {
    hide Select;
    StillOffsetChunks(table, times, wheres, order, size, Always(), 0);
    OffsetChunksCut(Select(table, wheres, order), size, 0);
  }

  lemma {:induction false} OffsetChunksCut(listing: seq<Row>, size: nat, at: nat)
    ensures Flat(OffsetChunks(listing, size, Always(), at)) == Drop(listing, at) <==>
            size > 0 || Drop(listing, at) == []
    decreases |Drop(listing, at)|
  {
    hide OffsetChunks;
    var rest := Drop(listing, at);
    var page := Take(rest, size);
    OffsetChunksStep(listing, size, Always(), at);
    if page != [] {
      if |page| < size {
        assert Flat([page]) == page + [];
      } else {
        OffsetChunksCut(listing, size, at + size);
        var tail := OffsetChunks(listing, size, Always(), at + size);
        assert ([page] + tail)[1..] == tail;
        assert rest == page + Drop(listing, at + size);
      }
    }
  }
}
