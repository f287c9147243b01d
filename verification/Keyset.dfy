/** Keyset pagination: the seek predicate, one page, and walks along `next` and `prev` cursors. */
module Keyset {
  import opened Seqs
  import opened Query

  /** A decoded cursor: the ordering columns' values at the seek point, and the scan direction.
      Decoding a malformed cursor string yields `Cursor(map[], false)`. */
  datatype Cursor = Cursor(position: Row, backward: bool)

  datatype Page = Page(rows: seq<Row>, next: Option<Cursor>, prev: Option<Cursor>)

  // --- the seek predicate -------------------------------------------------------

  function Columns(specs: seq<Spec>): set<string> {
    set i | 0 <= i < |specs| :: specs[i].0
  }

  function Tie(spec: Spec, position: Row): Clause {
    Compare(spec.0, if spec.1 == Asc then Gt else Lt, Cell(position, spec.0))
  }

  function Equals(specs: seq<Spec>, position: Row): seq<Clause> {
    seq(|specs|, i requires 0 <= i < |specs| => Compare(specs[i].0, Eq, Cell(position, specs[i].0)))
  }

  function SeekTerm(specs: seq<Spec>, position: Row, i: nat): Clause
    requires i < |specs|
  {
    if i == 0 then Tie(specs[0], position)
    else All(Equals(specs[..i], position) + [Tie(specs[i], position)])
  }

  function SeekClause(specs: seq<Spec>, position: Row): Clause {
    Any(seq(|specs|, i requires 0 <= i < |specs| => SeekTerm(specs, position, i)))
  }

  /** The term at `i` asks for agreement on the first `i` columns and a strict step at column `i`. */
  ghost predicate StepsAt(specs: seq<Spec>, a: Row, b: Row, i: nat)
    requires i < |specs|
  {
    && (forall j :: 0 <= j < i ==> Cell(a, specs[j].0) == Cell(b, specs[j].0))
    && Precedes(specs[i].1, Cell(a, specs[i].0), Cell(b, specs[i].0))
  }

  lemma SeekTermMeaning(specs: seq<Spec>, position: Row, i: nat, row: Row)
    requires i < |specs|
    ensures Holds(SeekTerm(specs, position, i), row) <==> StepsAt(specs, position, row, i)
  {
    if i > 0 {
      var eqs := Equals(specs[..i], position);
      var parts := eqs + [Tie(specs[i], position)];
      assert parts[i] == Tie(specs[i], position);
      forall j | 0 <= j < i
        ensures Holds(parts[j], row) <==> Cell(position, specs[j].0) == Cell(row, specs[j].0)
      {
        assert parts[j] == eqs[j] == Compare(specs[j].0, Eq, Cell(position, specs[j].0));
      }
      if Holds(All(parts), row) {
        forall j | 0 <= j < i ensures Cell(position, specs[j].0) == Cell(row, specs[j].0) {
          assert Holds(parts[j], row);
        }
        assert Holds(parts[i], row);
      }
    }
  }

  lemma {:induction false} BeforeSteps(specs: seq<Spec>, a: Row, b: Row)
    ensures Before(specs, a, b) <==> exists i :: 0 <= i < |specs| && StepsAt(specs, a, b, i)
  {
    if specs != [] {
      var rest := specs[1..];
      assert forall i :: 0 <= i < |rest| ==> rest[i] == specs[i + 1];
      BeforeSteps(rest, a, b);
      if Before(specs, a, b) {
        if Precedes(specs[0].1, Cell(a, specs[0].0), Cell(b, specs[0].0)) {
          assert StepsAt(specs, a, b, 0);
        } else {
          var i :| 0 <= i < |rest| && StepsAt(rest, a, b, i);
          forall j | 0 <= j < i + 1 ensures Cell(a, specs[j].0) == Cell(b, specs[j].0) {
            if j > 0 { assert rest[j - 1] == specs[j]; }
          }
          assert StepsAt(specs, a, b, i + 1);
        }
      }
      if i :| 0 <= i < |specs| && StepsAt(specs, a, b, i) {
        if i > 0 {
          forall j | 0 <= j < i - 1 ensures Cell(a, rest[j].0) == Cell(b, rest[j].0) {
            assert rest[j] == specs[j + 1];
          }
          assert StepsAt(rest, a, b, i - 1);
        }
      }
    }
  }

  /** The OR-of-ANDs clause holds exactly for the rows strictly after the position in the
      lexicographic order of the mixed ascending and descending columns. */
  lemma SeekMeaning(specs: seq<Spec>, position: Row, row: Row)
    ensures Holds(SeekClause(specs, position), row) <==> Before(specs, position, row)
  {
    BeforeSteps(specs, position, row);
    var terms := SeekClause(specs, position).clauses;
    assert forall i :: 0 <= i < |specs| ==> terms[i] == SeekTerm(specs, position, i);
    forall i | 0 <= i < |specs|
      ensures Holds(terms[i], row) <==> StepsAt(specs, position, row, i)
    {
      SeekTermMeaning(specs, position, i, row);
    }
    if Holds(SeekClause(specs, position), row) {
      var i :| 0 <= i < |terms| && Holds(terms[i], row);
      assert StepsAt(specs, position, row, i);
    }
    if i :| 0 <= i < |specs| && StepsAt(specs, position, row, i) {
      assert Holds(terms[i], row);
    }
  }

  // --- one page -----------------------------------------------------------------

  /** The primary key is appended as a tiebreaker unless the ordering already names it. */
  function Normalised(specs: seq<Spec>, pk: string): seq<Spec> {
    if pk in Columns(specs) then specs else specs + [(pk, Asc)]
  }

  function Opposite(direction: Direction): Direction {
    if direction == Desc then Asc else Desc
  }

  function Flip(specs: seq<Spec>): seq<Spec> {
    seq(|specs|, i requires 0 <= i < |specs| => (specs[i].0, Opposite(specs[i].1)))
  }

  function Reverse<T>(s: seq<T>): (r: seq<T>)
    ensures |r| == |s|
    ensures forall i :: 0 <= i < |s| ==> r[i] == s[|s| - 1 - i]
  {
    if s == [] then [] else Reverse(s[1..]) + [s[0]]
  }

  function Boundary(row: Row, specs: seq<Spec>): Row {
    map column | column in Columns(specs) :: Cell(row, column)
  }

  /** A page from up to `perPage + 1` scanned rows: the extra row only says that more follow. */
  function Assemble(rows: seq<Row>, specs: seq<Spec>, perPage: nat, sought: bool, backward: bool): Page {
    var extra := |rows| > perPage;
    var shown := if backward then Reverse(Take(rows, perPage)) else Take(rows, perPage);
    if shown == [] then Page([], None, None)
    else
      var first := Cursor(Boundary(shown[0], specs), true);
      var last := Cursor(Boundary(shown[|shown| - 1], specs), false);
      if backward then Page(shown, Some(last), if extra then Some(first) else None)
      else Page(shown, if extra then Some(last) else None, if sought then Some(first) else None)
  }

  /** The builder's conditions and the seek bound of the cursor, if there is one. */
  function Sought(wheres: seq<(Connector, Clause)>, scan: seq<Spec>, cursor: Option<Cursor>)
    : seq<(Connector, Clause)>
  {
    if cursor.None? then wheres else wheres + [(And, SeekClause(scan, cursor.value.position))]
  }

  function PageOf(table: seq<Row>, wheres: seq<(Connector, Clause)>, offset: nat, specs: seq<Spec>,
                  perPage: nat, cursor: Option<Cursor>): Page
  {
    var backward := cursor.Some? && cursor.value.backward;
    var scan := if backward then Flip(specs) else specs;
    var rows := Take(Drop(Select(table, Sought(wheres, scan, cursor), scan), offset), perPage + 1);
    Assemble(rows, specs, perPage, cursor.Some?, backward)
  }

  // --- distinct keys --------------------------------------------------------------

  ghost predicate UniqueIn(column: string, s: seq<Row>) {
    forall i, j :: 0 <= i < j < |s| ==> Cell(s[i], column) != Cell(s[j], column)
  }

  lemma {:induction false} FilterUnique(column: string, p: Row -> bool, s: seq<Row>)
    requires UniqueIn(column, s)
    ensures UniqueIn(column, Filter(p, s))
  {
    if s != [] {
      var rest := s[1..];
      assert forall i :: 0 <= i < |rest| ==> rest[i] == s[i + 1];
      FilterUnique(column, p, rest);
      forall j | 0 <= j < |Filter(p, rest)| ensures Cell(Filter(p, rest)[j], column) != Cell(s[0], column) {
        FilterIn(p, rest, Filter(p, rest)[j]);
        var k :| 0 <= k < |rest| && rest[k] == Filter(p, rest)[j];
        assert s[k + 1] == rest[k];
      }
    }
  }

  /** A row whose ordering key differs from every listed one goes strictly between its neighbours. */
  lemma {:induction false} SortStrict(column: string, specs: seq<Spec>, s: seq<Row>)
    requires UniqueIn(column, s) && column in Columns(specs)
    ensures StrictlySorted(specs, Sort(specs, s))
  {
    SortSorted(specs, s);
    var r := Sort(specs, s);
    SortUnique(column, specs, s);
    var c :| 0 <= c < |specs| && specs[c].0 == column;
    forall i, j | 0 <= i < j < |r| ensures Before(specs, r[i], r[j]) {
      Trichotomy(specs, r[i], r[j]);
      assert Cell(r[i], specs[c].0) != Cell(r[j], specs[c].0);
    }
  }

  lemma {:induction false} InsertUnique(column: string, specs: seq<Spec>, x: Row, s: seq<Row>)
    requires UniqueIn(column, s)
    requires forall y :: y in s ==> Cell(x, column) != Cell(y, column)
    ensures UniqueIn(column, Insert(specs, x, s))
  {
    if s != [] && Before(specs, s[0], x) {
      assert forall i :: 0 <= i < |s[1..]| ==> s[1..][i] == s[i + 1];
      InsertUnique(column, specs, x, s[1..]);
      InsertElements(specs, x, s[1..]);
      var rest := Insert(specs, x, s[1..]);
      forall j | 0 <= j < |rest| ensures Cell(rest[j], column) != Cell(s[0], column) {
        assert rest[j] in multiset(rest);
        if rest[j] != x {
          assert rest[j] in multiset(s[1..]);
          var k :| 0 <= k < |s[1..]| && s[1..][k] == rest[j];
          assert s[k + 1] == rest[j];
        }
      }
    }
  }

  lemma {:induction false} SortUnique(column: string, specs: seq<Spec>, s: seq<Row>)
    requires UniqueIn(column, s)
    ensures UniqueIn(column, Sort(specs, s))
  {
    if s != [] {
      assert forall i :: 0 <= i < |s[1..]| ==> s[1..][i] == s[i + 1];
      SortUnique(column, specs, s[1..]);
      SortSorted(specs, s[1..]);
      var rest := Sort(specs, s[1..]);
      forall y | y in rest ensures Cell(s[0], column) != Cell(y, column) {
        assert y in multiset(rest) && y in multiset(s[1..]);
        var k :| 0 <= k < |s[1..]| && s[1..][k] == y;
        assert s[k + 1] == y;
      }
      InsertUnique(column, specs, s[0], rest);
    }
  }

  // --- reading backwards ------------------------------------------------------------

  lemma {:induction false} FlipBefore(specs: seq<Spec>, a: Row, b: Row)
    ensures Before(Flip(specs), a, b) <==> Before(specs, b, a)
  {
    if specs != [] {
      assert Flip(specs)[1..] == Flip(specs[1..]);
      FlipBefore(specs[1..], a, b);
    }
  }

  lemma {:induction false} InsertLast(specs: seq<Spec>, x: Row, s: seq<Row>)
    requires forall y :: y in s ==> Before(specs, y, x)
    ensures Insert(specs, x, s) == s + [x]
  {
    if s != [] {
      InsertLast(specs, x, s[1..]);
    }
  }

  lemma {:induction false} InsertAppend(specs: seq<Spec>, x: Row, s: seq<Row>, z: Row)
    requires !Before(specs, z, x)
    ensures Insert(specs, x, s + [z]) == Insert(specs, x, s) + [z]
  {
    if s != [] {
      assert (s + [z])[1..] == s[1..] + [z];
      InsertAppend(specs, x, s[1..], z);
    }
  }

  lemma {:induction false} InsertReversed(specs: seq<Spec>, x: Row, s: seq<Row>)
    requires Sorted(specs, s)
    requires forall y :: y in s ==> Before(specs, x, y) || Before(specs, y, x)
    ensures Insert(Flip(specs), x, Reverse(s)) == Reverse(Insert(specs, x, s))
  {
    hide Before;
    var back := Flip(specs);
    if s == [] {
      assert Reverse([x]) == [x];
    } else if !Before(specs, s[0], x) {
      FirstGoesLast(specs, x, s);
      assert ([x] + s)[1..] == s;
    } else {
      assert forall i :: 0 <= i < |s[1..]| ==> s[1..][i] == s[i + 1];
      InsertReversed(specs, x, s[1..]);
      FlipBefore(specs, s[0], x);
      BeforeAsymmetric(specs, s[0], x);
      InsertAppend(back, x, Reverse(s[1..]), s[0]);
      var r := Insert(specs, x, s);
      assert r[0] == s[0] && r[1..] == Insert(specs, x, s[1..]);
    }
  }

  lemma FirstGoesLast(specs: seq<Spec>, x: Row, s: seq<Row>)
    requires Sorted(specs, s) && s != [] && Before(specs, x, s[0])
    ensures Insert(Flip(specs), x, Reverse(s)) == Reverse(s) + [x]
  {
    hide Before, Flip;
    var r := Reverse(s);
    forall y | y in r ensures Before(Flip(specs), y, x) {
      var k :| 0 <= k < |r| && r[k] == y;
      assert y == s[|s| - 1 - k];
      if |s| - 1 - k > 0 {
        BeforeTransitive(specs, x, s[0], y);
      }
      FlipBefore(specs, y, x);
    }
    InsertLast(Flip(specs), x, r);
  }

  /** With distinct keys, the flipped ORDER BY lists exactly the reverse. */
  lemma {:induction false} SortReversed(column: string, specs: seq<Spec>, s: seq<Row>)
    requires UniqueIn(column, s) && column in Columns(specs)
    ensures Sort(Flip(specs), s) == Reverse(Sort(specs, s))
  {
    if s != [] {
      var rest := s[1..];
      assert forall i :: 0 <= i < |rest| ==> rest[i] == s[i + 1];
      SortReversed(column, specs, rest);
      SortSorted(specs, rest);
      var c :| 0 <= c < |specs| && specs[c].0 == column;
      forall y | y in Sort(specs, rest) ensures Before(specs, s[0], y) || Before(specs, y, s[0]) {
        assert y in multiset(Sort(specs, rest)) && y in multiset(rest);
        var k :| 0 <= k < |rest| && rest[k] == y;
        Trichotomy(specs, s[0], y);
        assert Cell(s[0], specs[c].0) != Cell(s[k + 1], specs[c].0);
      }
      InsertReversed(specs, s[0], Sort(specs, rest));
    }
  }

  lemma {:induction false} FilterReversed<T>(p: T -> bool, s: seq<T>)
    ensures Filter(p, Reverse(s)) == Reverse(Filter(p, s))
  {
    if s != [] {
      FilterReversed(p, s[1..]);
      FilterConcat(p, Reverse(s[1..]), [s[0]]);
      assert [s[0]][1..] == [];
      if p(s[0]) {
        assert Filter(p, s)[1..] == Filter(p, s[1..]);
      }
    }
  }

  // --- pages read off the ordered listing --------------------------------------------

  lemma BoundaryKey(row: Row, specs: seq<Spec>)
    ensures SameKey(specs, Boundary(row, specs), row)
  {
    forall i | 0 <= i < |specs|
      ensures Cell(Boundary(row, specs), specs[i].0) == Cell(row, specs[i].0)
    {
      assert specs[i].0 in Columns(specs);
    }
  }

  /** The listing rows a forward page starts from: all of them, or those after the position. */
  ghost function Remaining(table: seq<Row>, wheres: seq<(Connector, Clause)>, specs: seq<Spec>,
                           cursor: Option<Cursor>): seq<Row>
  {
    var listing := Select(table, wheres, specs);
    if cursor.None? then listing else Filter(After(specs, cursor.value.position), listing)
  }

  ghost predicate Forward(cursor: Option<Cursor>) {
    cursor.Some? ==> !cursor.value.backward
  }

  /** A forward page is the first `perPage` rows after the position, and has a `next` exactly when
      more follow. */
  lemma ForwardPage(table: seq<Row>, wheres: seq<(Connector, Clause)>, specs: seq<Spec>,
                    perPage: nat, cursor: Option<Cursor>)
    requires perPage >= 1 && Forward(cursor)
    ensures var rest := Remaining(table, wheres, specs, cursor);
            var page := PageOf(table, wheres, 0, specs, perPage, cursor);
            && page.rows == Take(rest, perPage)
            && (page.next.Some? <==> |rest| > perPage)
            && (page.next.Some? ==>
                  page.next.value == Cursor(Boundary(rest[perPage - 1], specs), false))
            && (page.prev.Some? <==> cursor.Some? && rest != [])
            && (page.prev.Some? ==> page.prev.value == Cursor(Boundary(rest[0], specs), true))
  {
    hide Select, Before, SeekClause, Boundary, Filter, Holds;
    if cursor.Some? {
      var position := cursor.value.position;
      forall row ensures Holds(SeekClause(specs, position), row) <==> After(specs, position)(row) {
        SeekMeaning(specs, position, row);
      }
      SelectBounded(table, wheres, specs, SeekClause(specs, position), After(specs, position));
    }
  }

  lemma RemainingStrict(column: string, table: seq<Row>, wheres: seq<(Connector, Clause)>,
                        specs: seq<Spec>, cursor: Option<Cursor>) returns (k: nat)
    requires UniqueIn(column, table) && column in Columns(specs)
    ensures StrictlySorted(specs, Select(table, wheres, specs))
    ensures k <= |Select(table, wheres, specs)|
    ensures Remaining(table, wheres, specs, cursor) == Select(table, wheres, specs)[k..]
    ensures StrictlySorted(specs, Remaining(table, wheres, specs, cursor))
    ensures cursor.Some? ==> forall row :: row in Remaining(table, wheres, specs, cursor) ==>
                                             Before(specs, cursor.value.position, row)
  {
    hide Before, Filter, Matching, Sort, Columns, UniqueIn;
    FilterUnique(column, Matching(wheres), table);
    SortStrict(column, specs, Filter(Matching(wheres), table));
    var listing := Select(table, wheres, specs);
    SortSorted(specs, Filter(Matching(wheres), table));
    if cursor.None? {
      k := 0;
    } else {
      k := AfterIsSuffix(specs, cursor.value.position, listing);
    }
    assert forall i :: 0 <= i < |listing[k..]| ==> listing[k..][i] == listing[k + i];
  }

  /** Seeking past a listed row leaves exactly the rows behind it. */
  lemma RemainingAfter(column: string, table: seq<Row>, wheres: seq<(Connector, Clause)>,
                       specs: seq<Spec>, m: nat)
    requires UniqueIn(column, table) && column in Columns(specs)
    requires m < |Select(table, wheres, specs)|
    ensures var listing := Select(table, wheres, specs);
            var here := Cursor(Boundary(listing[m], specs), false);
            Remaining(table, wheres, specs, Some(here)) == listing[m + 1..]
  {
    var listing := Select(table, wheres, specs);
    var position := Boundary(listing[m], specs);
    BoundaryKey(listing[m], specs);
    var k := RemainingStrict(column, table, wheres, specs, None);
    SortSorted(specs, Filter(Matching(wheres), table));
    var j := AfterIsSuffix(specs, position, listing);
    forall i | 0 <= i < |listing| ensures Before(specs, position, listing[i]) <==> i > m {
      BeforeSameKey(specs, position, listing[m], listing[i]);
      BeforeAsymmetric(specs, listing[i], listing[m]);
      if i == m { BeforeAsymmetric(specs, listing[m], listing[m]); }
    }
    assert j > m && (m + 1 < |listing| ==> Before(specs, position, listing[m + 1]));
    assert j == m + 1;
  }

  /** The reversed scan that a backward cursor runs lists the rows before the position, backwards. */
  lemma BackwardSelect(column: string, table: seq<Row>, wheres: seq<(Connector, Clause)>,
                       specs: seq<Spec>, m: nat)
    requires UniqueIn(column, table) && column in Columns(specs)
    requires m < |Select(table, wheres, specs)|
    ensures var listing := Select(table, wheres, specs);
            var seek := SeekClause(Flip(specs), Boundary(listing[m], specs));
            Select(table, wheres + [(And, seek)], Flip(specs)) == Reverse(listing[..m])
  {
    var listing := Select(table, wheres, specs);
    var position := Boundary(listing[m], specs);
    var back := Flip(specs);
    var after := After(back, position);
    forall row ensures Holds(SeekClause(back, position), row) <==> after(row) {
      SeekMeaning(back, position, row);
    }
    SelectBounded(table, wheres, back, SeekClause(back, position), after);
    FilterUnique(column, Matching(wheres), table);
    SortReversed(column, specs, Filter(Matching(wheres), table));
    FilterReversed(after, listing);
    FilterBeforePosition(column, table, wheres, specs, m);
  }

  lemma LastReversed<T>(s: seq<T>, n: nat)
    requires n >= 1
    ensures var start := if |s| > n then |s| - n else 0;
            && Reverse(Take(Take(Reverse(s), n + 1), n)) == s[start..]
            && (|Take(Reverse(s), n + 1)| > n <==> start > 0)
  {
    var start := if |s| > n then |s| - n else 0;
    var r := Reverse(Take(Take(Reverse(s), n + 1), n));
    assert |r| == |s| - start;
    assert forall i :: 0 <= i < |r| ==> r[i] == s[start + i];
  }

  /** A backward page ends just before the position: it shows the last `perPage` of the rows that
      precede it, in the requested order. */
  lemma BackwardPage(column: string, table: seq<Row>, wheres: seq<(Connector, Clause)>,
                     specs: seq<Spec>, perPage: nat, m: nat)
    requires UniqueIn(column, table) && column in Columns(specs)
    requires perPage >= 1 && 0 < m < |Select(table, wheres, specs)|
    ensures var listing := Select(table, wheres, specs);
            var page := PageOf(table, wheres, 0, specs, perPage,
                               Some(Cursor(Boundary(listing[m], specs), true)));
            var start := if m > perPage then m - perPage else 0;
            && page.rows == listing[start..m]
            && page.next == Some(Cursor(Boundary(listing[m - 1], specs), false))
            && (page.prev == if start > 0 then Some(Cursor(Boundary(listing[start], specs), true))
                             else None)
  {
    var listing := Select(table, wheres, specs);
    hide Select, Boundary, Flip, SeekClause, Assemble, Reverse, UniqueIn, Columns;
    BackwardSelect(column, table, wheres, specs, m);
    assert Drop(Reverse(listing[..m]), 0) == Reverse(listing[..m]);
    AssembleBackward(listing, m, specs, perPage);
  }

  lemma AssembleBackward(listing: seq<Row>, m: nat, specs: seq<Spec>, perPage: nat)
    requires perPage >= 1 && 0 < m < |listing|
    ensures var page := Assemble(Take(Reverse(listing[..m]), perPage + 1), specs, perPage, true, true);
            var start := if m > perPage then m - perPage else 0;
            && page.rows == listing[start..m]
            && page.next == Some(Cursor(Boundary(listing[m - 1], specs), false))
            && (page.prev == if start > 0 then Some(Cursor(Boundary(listing[start], specs), true))
                             else None)
  {
    hide Boundary, Reverse;
    var start := if m > perPage then m - perPage else 0;
    LastReversed(listing[..m], perPage);
    assert listing[..m][start..] == listing[start..m];
  }

  lemma FilterBeforePosition(column: string, table: seq<Row>, wheres: seq<(Connector, Clause)>,
                             specs: seq<Spec>, m: nat)
    requires UniqueIn(column, table) && column in Columns(specs)
    requires m < |Select(table, wheres, specs)|
    ensures var listing := Select(table, wheres, specs);
            Filter(After(Flip(specs), Boundary(listing[m], specs)), listing) == listing[..m]
  {
    var listing := Select(table, wheres, specs);
    var position := Boundary(listing[m], specs);
    var after := After(Flip(specs), position);
    BoundaryKey(listing[m], specs);
    var k := RemainingStrict(column, table, wheres, specs, None);
    forall i | 0 <= i < |listing| ensures after(listing[i]) <==> i < m {
      FlipBefore(specs, position, listing[i]);
      BeforeSameKey(specs, position, listing[m], listing[i]);
      BeforeAsymmetric(specs, listing[i], listing[m]);
      if i == m { BeforeAsymmetric(specs, listing[m], listing[m]); }
    }
    assert listing == listing[..m] + listing[m..];
    FilterConcat(after, listing[..m], listing[m..]);
    FilterAll(after, listing[..m]);
    forall x | x in listing[m..] ensures !after(x) {
      var i :| 0 <= i < |listing[m..]| && listing[m..][i] == x;
      assert x == listing[m + i];
    }
    FilterNone(after, listing[m..]);
  }

  // --- the ordering that was asked for --------------------------------------------------

  /** The ordering a page is read in: first as asked for, then, if the request does not name the primary
      key, by ascending primary key. It always ends in distinct keys. */
  lemma {:induction false} RequestedOrder(specs: seq<Spec>, pk: string, a: Row, b: Row)
    ensures var ordering := Normalised(specs, pk);
            && pk in Columns(ordering)
            && (Before(ordering, a, b) <==>
                Before(specs, a, b) || (pk !in Columns(specs) && SameKey(specs, a, b) && Cell(a, pk) < Cell(b, pk)))
  {
    if pk !in Columns(specs) {
      var ordering := specs + [(pk, Asc)];
      assert ordering[|specs|].0 == pk;
      BeforeAppended(specs, pk, a, b);
    }
  }

  lemma {:induction false} BeforeAppended(specs: seq<Spec>, pk: string, a: Row, b: Row)
    ensures Before(specs + [(pk, Asc)], a, b) <==>
            Before(specs, a, b) || (SameKey(specs, a, b) && Cell(a, pk) < Cell(b, pk))
  {
    if specs == [] {
      assert ([] + [(pk, Asc)])[1..] == [];
    } else {
      assert (specs + [(pk, Asc)])[1..] == specs[1..] + [(pk, Asc)];
      BeforeAppended(specs[1..], pk, a, b);
      BeforeAsymmetric(specs, a, b);
      Trichotomy(specs, a, b);
      Trichotomy(specs[1..], a, b);
    }
  }

  /** The rows are in the requested order, and rows it does not tell apart are in ascending order of the
      primary key. */
  ghost predicate AsRequested(specs: seq<Spec>, pk: string, rows: seq<Row>) {
    forall i, j :: 0 <= i < j < |rows| ==>
      && !Before(specs, rows[j], rows[i])
      && (pk !in Columns(specs) && SameKey(specs, rows[i], rows[j]) ==> Cell(rows[i], pk) <= Cell(rows[j], pk))
  }

  lemma SortedAsRequested(specs: seq<Spec>, pk: string, rows: seq<Row>)
    requires Sorted(Normalised(specs, pk), rows)
    ensures AsRequested(specs, pk, rows)
  {
    hide Before, Normalised, SameKey;
    forall i, j | 0 <= i < j < |rows|
      ensures !Before(specs, rows[j], rows[i])
      ensures pk !in Columns(specs) && SameKey(specs, rows[i], rows[j]) ==> Cell(rows[i], pk) <= Cell(rows[j], pk)
    {
      RequestedOrder(specs, pk, rows[j], rows[i]);
      Trichotomy(specs, rows[i], rows[j]);
      Trichotomy(specs, rows[j], rows[i]);
    }
  }

  lemma SliceSorted(specs: seq<Spec>, rows: seq<Row>, from: nat, n: nat)
    requires Sorted(specs, rows)
    ensures Sorted(specs, Take(Drop(rows, from), n))
  {
    hide Before;
    var slice := Take(Drop(rows, from), n);
    assert forall i :: 0 <= i < |slice| ==> slice[i] == rows[from + i];
  }

  lemma ReverseSorted(specs: seq<Spec>, rows: seq<Row>)
    requires Sorted(Flip(specs), rows)
    ensures Sorted(specs, Reverse(rows))
  {
    hide Before, Flip;
    var r := Reverse(rows);
    forall i, j | 0 <= i < j < |r| ensures !Before(specs, r[j], r[i]) {
      FlipBefore(specs, r[i], r[j]);
    }
  }

  /** Every page, forward or backward, shows its rows in the requested order. */
  lemma PageAsRequested(table: seq<Row>, wheres: seq<(Connector, Clause)>, offset: nat, specs: seq<Spec>, pk: string,
                        perPage: nat, cursor: Option<Cursor>)
    ensures AsRequested(specs, pk, PageOf(table, wheres, offset, Normalised(specs, pk), perPage, cursor).rows)
  {
    hide Sorted, Sort, Filter, Normalised, Flip, Sought, AsRequested, Boundary, Take, Drop;
    var ordering := Normalised(specs, pk);
    var backward := cursor.Some? && cursor.value.backward;
    var scan := if backward then Flip(ordering) else ordering;
    var listing := Select(table, Sought(wheres, scan, cursor), scan);
    SortSorted(scan, Filter(Matching(Sought(wheres, scan, cursor)), table));
    hide Select, Matching;
    SliceSorted(scan, listing, offset, perPage + 1);
    var rows := Take(Drop(listing, offset), perPage + 1);
    ShownAsRequested(specs, pk, rows, perPage, cursor.Some?, backward);
  }

  lemma ShownAsRequested(specs: seq<Spec>, pk: string, rows: seq<Row>, perPage: nat, sought: bool, backward: bool)
    requires Sorted(if backward then Flip(Normalised(specs, pk)) else Normalised(specs, pk), rows)
    ensures AsRequested(specs, pk, Assemble(rows, Normalised(specs, pk), perPage, sought, backward).rows)
  {
    hide Sorted, Normalised, Flip, AsRequested, Boundary;
    var ordering := Normalised(specs, pk);
    SliceSorted(if backward then Flip(ordering) else ordering, rows, 0, perPage);
    assert Drop(rows, 0) == rows;
    if backward {
      ReverseSorted(ordering, Take(rows, perPage));
    }
    SortedAsRequested(specs, pk, Assemble(rows, ordering, perPage, sought, backward).rows);
  }

  // --- walks ------------------------------------------------------------------------

  /** Following `next` cursors, where `tables[i]` is the table as page `i` finds it. The walk ends
      with the first page that has no `next`, or when the snapshots run out. */
  function Walk(tables: seq<seq<Row>>, wheres: seq<(Connector, Clause)>, specs: seq<Spec>,
                perPage: nat, cursor: Option<Cursor>): (pages: seq<Page>)
    ensures |pages| <= |tables|
  {
    if tables == [] then []
    else
      var page := PageOf(tables[0], wheres, 0, specs, perPage, cursor);
      if page.next.None? then [page]
      else [page] + Walk(tables[1..], wheres, specs, perPage, page.next)
  }

  ghost predicate Complete(pages: seq<Page>) {
    pages != [] && pages[|pages| - 1].next.None?
  }

  function Delivered(pages: seq<Page>): seq<Row> {
    if pages == [] then [] else pages[0].rows + Delivered(pages[1..])
  }

  /** Exactly one of the rows carries this ordering key. */
  ghost predicate ExactlyOnce(specs: seq<Spec>, rows: seq<Row>, key: Row) {
    exists i ::
      && 0 <= i < |rows| && SameKey(specs, rows[i], key)
      && forall j :: 0 <= j < |rows| && j != i ==> !SameKey(specs, rows[j], key)
  }

  /** Some matching row of the table carries this ordering key. */
  ghost predicate Present(table: seq<Row>, wheres: seq<(Connector, Clause)>, specs: seq<Spec>, key: Row) {
    exists row :: row in table && Matches(wheres, row) && SameKey(specs, row, key)
  }

  lemma SelectIn(table: seq<Row>, wheres: seq<(Connector, Clause)>, specs: seq<Spec>, row: Row)
    ensures row in Select(table, wheres, specs) <==> row in table && Matches(wheres, row)
  {
    var kept := Filter(Matching(wheres), table);
    SortSorted(specs, kept);
    FilterIn(Matching(wheres), table, row);
    assert row in Sort(specs, kept) <==> row in multiset(Sort(specs, kept));
    assert row in kept <==> row in multiset(kept);
  }

  lemma StrictConcat(specs: seq<Spec>, a: seq<Row>, b: seq<Row>)
    requires StrictlySorted(specs, a) && StrictlySorted(specs, b)
    requires a != [] ==> forall row :: row in b ==> Before(specs, a[|a| - 1], row)
    ensures StrictlySorted(specs, a + b)
  {
    var s := a + b;
    forall i, j | 0 <= i < j < |s| ensures Before(specs, s[i], s[j]) {
      if i < |a| <= j {
        assert s[j] == b[j - |a|] && s[j] in b;
        if i < |a| - 1 {
          BeforeAsymmetric(specs, a[|a| - 1], s[j]);
          BeforeTransitive(specs, s[i], a[|a| - 1], s[j]);
        }
      }
    }
  }

  /** Along any walk, over any changes of the table, the delivered keys strictly increase. */
  lemma {:induction false} WalkIncreases(column: string, tables: seq<seq<Row>>,
                                         wheres: seq<(Connector, Clause)>, specs: seq<Spec>,
                                         perPage: nat, cursor: Option<Cursor>)
    requires forall t :: t in tables ==> UniqueIn(column, t)
    requires column in Columns(specs) && perPage >= 1 && Forward(cursor)
    ensures var rows := Delivered(Walk(tables, wheres, specs, perPage, cursor));
            && StrictlySorted(specs, rows)
            && (cursor.Some? ==>
                  forall row :: row in rows ==> Before(specs, cursor.value.position, row))
  {
    hide PageOf, Select, Remaining, Before, Boundary, SameKey, Columns, Filter;
    if tables != [] {
      var rest := Remaining(tables[0], wheres, specs, cursor);
      var page := PageOf(tables[0], wheres, 0, specs, perPage, cursor);
      ForwardPage(tables[0], wheres, specs, perPage, cursor);
      var k := RemainingStrict(column, tables[0], wheres, specs, cursor);
      if page.next.None? {
        assert Delivered([page]) == page.rows;
      } else {
        var tail := Walk(tables[1..], wheres, specs, perPage, page.next);
        WalkIncreases(column, tables[1..], wheres, specs, perPage, page.next);
        assert Delivered([page] + tail) == page.rows + Delivered(tail);
        var last := rest[perPage - 1];
        BoundaryKey(last, specs);
        forall row | row in Delivered(tail)
          ensures Before(specs, last, row)
          ensures cursor.Some? ==> Before(specs, cursor.value.position, row)
        {
          BeforeSameKey(specs, Boundary(last, specs), last, row);
          if cursor.Some? {
            BeforeAsymmetric(specs, last, row);
            BeforeTransitive(specs, cursor.value.position, last, row);
          }
        }
        StrictConcat(specs, page.rows, Delivered(tail));
      }
    }
  }

  /** A key present on every page's table, and after the start, is delivered. */
  lemma {:induction false} WalkReaches(column: string, tables: seq<seq<Row>>,
                                       wheres: seq<(Connector, Clause)>, specs: seq<Spec>,
                                       perPage: nat, cursor: Option<Cursor>, key: Row) returns (row: Row)
    requires forall t :: t in tables ==> UniqueIn(column, t)
    requires column in Columns(specs) && perPage >= 1 && Forward(cursor)
    requires Complete(Walk(tables, wheres, specs, perPage, cursor))
    requires forall i :: 0 <= i < |Walk(tables, wheres, specs, perPage, cursor)| ==>
                           Present(tables[i], wheres, specs, key)
    requires cursor.Some? ==> Before(specs, cursor.value.position, key)
    ensures row in Delivered(Walk(tables, wheres, specs, perPage, cursor))
    ensures SameKey(specs, row, key)
  {
    hide PageOf, Select, Before, Boundary, SameKey, Columns, Filter, Remaining, Present;
    var pages := Walk(tables, wheres, specs, perPage, cursor);
    var page := PageOf(tables[0], wheres, 0, specs, perPage, cursor);
    var rest := Remaining(tables[0], wheres, specs, cursor);
    ForwardPage(tables[0], wheres, specs, perPage, cursor);
    assert Present(tables[0], wheres, specs, key);
    var i := PresentRemains(tables[0], wheres, specs, cursor, key);
    row := rest[i];
    if i < perPage {
      assert page.rows[i] == row && row in page.rows;
      assert pages[0] == page;
    } else {
      var k := RemainingStrict(column, tables[0], wheres, specs, cursor);
      var last := rest[perPage - 1];
      BoundaryKey(last, specs);
      BeforeSameKey(specs, Boundary(last, specs), last, row);
      BeforeSameKey(specs, row, key, Boundary(last, specs));
      assert Before(specs, page.next.value.position, key);
      var tail := Walk(tables[1..], wheres, specs, perPage, page.next);
      assert pages == [page] + tail && pages[1..] == tail;
      forall j | 0 <= j < |tail| ensures Present(tables[1..][j], wheres, specs, key) {
        assert Present(tables[j + 1], wheres, specs, key);
      }
      assert tail != [] && tail[|tail| - 1] == pages[|pages| - 1];
      row := WalkReaches(column, tables[1..], wheres, specs, perPage, page.next, key);
    }
  }

  lemma PresentRemains(table: seq<Row>, wheres: seq<(Connector, Clause)>, specs: seq<Spec>,
                       cursor: Option<Cursor>, key: Row) returns (i: nat)
    requires Present(table, wheres, specs, key)
    requires cursor.Some? ==> Before(specs, cursor.value.position, key)
    ensures i < |Remaining(table, wheres, specs, cursor)|
    ensures SameKey(specs, Remaining(table, wheres, specs, cursor)[i], key)
  {
    hide Select, Before;
    var row :| row in table && Matches(wheres, row) && SameKey(specs, row, key);
    SelectIn(table, wheres, specs, row);
    if cursor.Some? {
      BeforeSameKey(specs, row, key, cursor.value.position);
      FilterIn(After(specs, cursor.value.position), Select(table, wheres, specs), row);
    }
    i :| 0 <= i < |Remaining(table, wheres, specs, cursor)|
         && Remaining(table, wheres, specs, cursor)[i] == row;
  }

  /** Following `next` to the end while the table changes arbitrarily between pages: keys strictly
      increase, and every row that stays present with unchanged ordering columns is delivered
      exactly once. */
  lemma WalkExactlyOnce(column: string, tables: seq<seq<Row>>, wheres: seq<(Connector, Clause)>,
                        specs: seq<Spec>, perPage: nat, key: Row)
    requires forall t :: t in tables ==> UniqueIn(column, t)
    requires column in Columns(specs) && perPage >= 1
    requires Complete(Walk(tables, wheres, specs, perPage, None))
    requires forall i :: 0 <= i < |Walk(tables, wheres, specs, perPage, None)| ==>
                           Present(tables[i], wheres, specs, key)
    ensures var rows := Delivered(Walk(tables, wheres, specs, perPage, None));
            StrictlySorted(specs, rows) && ExactlyOnce(specs, rows, key)
  {
    hide Walk, Before, Delivered, Columns;
    var rows := Delivered(Walk(tables, wheres, specs, perPage, None));
    WalkIncreases(column, tables, wheres, specs, perPage, None);
    var row := WalkReaches(column, tables, wheres, specs, perPage, None, key);
    var i :| 0 <= i < |rows| && rows[i] == row;
    forall j | 0 <= j < |rows| && j != i ensures !SameKey(specs, rows[j], key) {
      Trichotomy(specs, rows[i], rows[j]);
      Trichotomy(specs, rows[j], rows[i]);
    }
  }

  /** So a whole walk delivers its rows in the requested order, over any changes of the table. */
  lemma WalkAsRequested(tables: seq<seq<Row>>, wheres: seq<(Connector, Clause)>, specs: seq<Spec>, pk: string,
                        perPage: nat, cursor: Option<Cursor>)
    requires forall t :: t in tables ==> UniqueIn(pk, t)
    requires perPage >= 1 && Forward(cursor)
    ensures AsRequested(specs, pk, Delivered(Walk(tables, wheres, Normalised(specs, pk), perPage, cursor)))
  {
    hide Before, Normalised, SameKey, Walk, Delivered, AsRequested;
    var ordering := Normalised(specs, pk);
    var rows := Delivered(Walk(tables, wheres, ordering, perPage, cursor));
    RequestedOrder(specs, pk, map[], map[]);
    WalkIncreases(pk, tables, wheres, ordering, perPage, cursor);
    forall i, j | 0 <= i < j < |rows| ensures !Before(ordering, rows[j], rows[i]) {
      BeforeAsymmetric(ordering, rows[i], rows[j]);
    }
    SortedAsRequested(specs, pk, rows);
  }

  /** Nothing else is delivered: every row of page `i` is a matching row of the table page `i` read. */
  lemma {:induction false} WalkOnlyMatches(tables: seq<seq<Row>>, wheres: seq<(Connector, Clause)>,
                                           specs: seq<Spec>, perPage: nat, cursor: Option<Cursor>, i: nat, row: Row)
    requires perPage >= 1 && Forward(cursor)
    requires i < |Walk(tables, wheres, specs, perPage, cursor)|
    requires row in Walk(tables, wheres, specs, perPage, cursor)[i].rows
    ensures row in tables[i] && Matches(wheres, row)
  {
    hide PageOf, Matches;
    var pages := Walk(tables, wheres, specs, perPage, cursor);
    var page := PageOf(tables[0], wheres, 0, specs, perPage, cursor);
    if i == 0 {
      assert pages[0] == page;
      ForwardOnlyMatches(tables[0], wheres, specs, perPage, cursor, row);
    } else {
      var tail := Walk(tables[1..], wheres, specs, perPage, page.next);
      assert page.next.Some? && pages == [page] + tail && pages[i] == tail[i - 1];
      ForwardPage(tables[0], wheres, specs, perPage, cursor);
      WalkOnlyMatches(tables[1..], wheres, specs, perPage, page.next, i - 1, row);
    }
  }

  lemma ForwardOnlyMatches(table: seq<Row>, wheres: seq<(Connector, Clause)>, specs: seq<Spec>,
                           perPage: nat, cursor: Option<Cursor>, row: Row)
    requires perPage >= 1 && Forward(cursor)
    requires row in PageOf(table, wheres, 0, specs, perPage, cursor).rows
    ensures row in table && Matches(wheres, row)
  {
    ForwardPage(table, wheres, specs, perPage, cursor);
    var rest := Remaining(table, wheres, specs, cursor);
    assert row in Take(rest, perPage) && row in rest;
    if cursor.Some? {
      FilterIn(After(specs, cursor.value.position), Select(table, wheres, specs), row);
    }
    SelectIn(table, wheres, specs, row);
  }

  // --- the walk on a table that does not change ----------------------------------------

  function PageCount(n: nat, perPage: nat): nat
    requires perPage >= 1
  {
    if n <= perPage then 1 else 1 + PageCount(n - perPage, perPage)
  }

  /** ceil(n / perPage), with one empty page for an empty listing. */
  lemma {:induction false} PageCountIsCeiling(n: nat, perPage: nat)
    requires perPage >= 1
    ensures var pages := PageCount(n, perPage);
            && n <= pages * perPage
            && (n > 0 ==> (pages - 1) * perPage < n)
            && (n == 0 ==> pages == 1)
  {
    if n > perPage {
      PageCountIsCeiling(n - perPage, perPage);
      var rest := PageCount(n - perPage, perPage);
      assert (1 + rest) * perPage == perPage + rest * perPage;
      assert (1 + rest - 1) * perPage == perPage + (rest - 1) * perPage;
    }
  }

  function Still(table: seq<Row>, times: nat): seq<seq<Row>> {
    seq(times, i => table)
  }

  function End(listing: seq<Row>, m: nat, perPage: nat): nat {
    if m + perPage < |listing| then m + perPage else |listing|
  }

  /** From index `m`, the pages cut the listing into consecutive slices linked by their cursors. */
  ghost predicate Cuts(specs: seq<Spec>, perPage: nat, listing: seq<Row>, m: nat, pages: seq<Page>)
    requires perPage >= 1 && m <= |listing|
    decreases |pages|
  {
    && pages != []
    && pages[0].rows == listing[m..End(listing, m, perPage)]
    && if |listing| <= m + perPage then |pages| == 1 && pages[0].next.None?
       else
         && pages[0].next == Some(Cursor(Boundary(listing[m + perPage - 1], specs), false))
         && |pages| > 1
         && pages[1].prev == Some(Cursor(Boundary(listing[m + perPage], specs), true))
         && Cuts(specs, perPage, listing, m + perPage, pages[1..])
  }

  lemma SplitSlice<T>(s: seq<T>, i: nat, j: nat)
    requires i <= j <= |s|
    ensures s[i..] == s[i..j] + s[j..]
  {
  }

  lemma DeliveredCons(pages: seq<Page>)
    requires pages != []
    ensures Delivered(pages) == pages[0].rows + Delivered(pages[1..])
  {
  }

  lemma {:induction false} CutsWhole(specs: seq<Spec>, perPage: nat, listing: seq<Row>, m: nat, pages: seq<Page>)
    requires perPage >= 1 && m <= |listing| && Cuts(specs, perPage, listing, m, pages)
    ensures |pages| == PageCount(|listing| - m, perPage)
    ensures Complete(pages)
    ensures Delivered(pages) == listing[m..]
    decreases |pages|
  {
    hide Boundary;
    if |listing| <= m + perPage {
      assert Delivered(pages) == pages[0].rows + [];
    } else {
      CutsWhole(specs, perPage, listing, m + perPage, pages[1..]);
      assert pages[1..][|pages[1..]| - 1] == pages[|pages| - 1];
      SplitSlice(listing, m, m + perPage);
      DeliveredCons(pages);
    }
  }

  /** Page `k` shows the slice that starts `k` pages on. */
  lemma CutsOn(specs: seq<Spec>, perPage: nat, listing: seq<Row>, m: nat, pages: seq<Page>)
    requires perPage >= 1 && m <= |listing| && Cuts(specs, perPage, listing, m, pages)
    ensures pages != [] && pages[0].rows == listing[m..End(listing, m, perPage)]
    ensures |listing| <= m + perPage <==> |pages| == 1
    ensures |pages| > 1 ==>
              && pages[0].next == Some(Cursor(Boundary(listing[m + perPage - 1], specs), false))
              && pages[1].prev == Some(Cursor(Boundary(listing[m + perPage], specs), true))
              && Cuts(specs, perPage, listing, m + perPage, pages[1..])
  {
    hide Boundary;
  }

  lemma {:induction false} CutsAt(specs: seq<Spec>, perPage: nat, listing: seq<Row>, m: nat,
                                  pages: seq<Page>, k: nat) returns (at: nat)
    requires perPage >= 1 && m <= |listing| && Cuts(specs, perPage, listing, m, pages)
    requires 1 <= k < |pages|
    ensures m + perPage <= at < |listing| && (k > 1 <==> at > m + perPage)
    ensures pages[k - 1].rows == listing[at - perPage..at]
    ensures pages[k - 1].next == Some(Cursor(Boundary(listing[at - 1], specs), false))
    ensures pages[k].rows == listing[at..End(listing, at, perPage)]
    ensures pages[k].prev == Some(Cursor(Boundary(listing[at], specs), true))
    decreases k
  {
    hide Boundary, Cuts;
    CutsOn(specs, perPage, listing, m, pages);
    if k == 1 {
      at := m + perPage;
      CutsOn(specs, perPage, listing, at, pages[1..]);
    } else {
      at := CutsAt(specs, perPage, listing, m + perPage, pages[1..], k - 1);
      assert pages[1..][k - 1] == pages[k] && pages[1..][k - 2] == pages[k - 1];
    }
  }

  lemma CutsLast(specs: seq<Spec>, perPage: nat, listing: seq<Row>, m: nat, page: Page)
    requires perPage >= 1 && m <= |listing| <= m + perPage
    requires page.rows == listing[m..|listing|] && page.next.None?
    ensures Cuts(specs, perPage, listing, m, [page])
  {
  }

  lemma CutsCons(specs: seq<Spec>, perPage: nat, listing: seq<Row>, m: nat, page: Page, tail: seq<Page>)
    requires perPage >= 1 && m + perPage < |listing|
    requires page.rows == listing[m..m + perPage]
    requires page.next == Some(Cursor(Boundary(listing[m + perPage - 1], specs), false))
    requires Cuts(specs, perPage, listing, m + perPage, tail)
    requires tail[0].prev == Some(Cursor(Boundary(listing[m + perPage], specs), true))
    ensures Cuts(specs, perPage, listing, m, [page] + tail)
  {
    assert ([page] + tail)[1..] == tail;
  }

  lemma StillWalkCons(table: seq<Row>, wheres: seq<(Connector, Clause)>, specs: seq<Spec>,
                      perPage: nat, cursor: Option<Cursor>, times: nat)
    requires times >= 1
    ensures var page := PageOf(table, wheres, 0, specs, perPage, cursor);
            Walk(Still(table, times), wheres, specs, perPage, cursor) ==
            if page.next.None? then [page]
            else [page] + Walk(Still(table, times - 1), wheres, specs, perPage, page.next)
  {
    assert Still(table, times)[0] == table;
    assert Still(table, times)[1..] == Still(table, times - 1);
  }

  /** A forward page whose remaining rows start at listing index `m`. */
  lemma ForwardPageAt(table: seq<Row>, wheres: seq<(Connector, Clause)>, specs: seq<Spec>,
                      perPage: nat, cursor: Option<Cursor>, m: nat)
    requires perPage >= 1 && Forward(cursor) && m <= |Select(table, wheres, specs)|
    requires Remaining(table, wheres, specs, cursor) == Select(table, wheres, specs)[m..]
    ensures var listing := Select(table, wheres, specs);
            var page := PageOf(table, wheres, 0, specs, perPage, cursor);
            && page.rows == listing[m..End(listing, m, perPage)]
            && (page.next == if m + perPage < |listing|
                             then Some(Cursor(Boundary(listing[m + perPage - 1], specs), false)) else None)
            && (page.prev == if cursor.Some? && m < |listing|
                             then Some(Cursor(Boundary(listing[m], specs), true)) else None)
  {
    hide PageOf, Remaining, Select, Boundary;
    ForwardPage(table, wheres, specs, perPage, cursor);
    var listing := Select(table, wheres, specs);
    assert Take(listing[m..], perPage) == listing[m..End(listing, m, perPage)];
  }

  /** One page of the walk from index `m`, and the cursor it leaves for the next. */
  lemma StillStep(column: string, table: seq<Row>, wheres: seq<(Connector, Clause)>, specs: seq<Spec>,
                  perPage: nat, cursor: Option<Cursor>, m: nat)
    requires UniqueIn(column, table) && column in Columns(specs) && perPage >= 1 && Forward(cursor)
    requires m + perPage < |Select(table, wheres, specs)|
    requires Remaining(table, wheres, specs, cursor) == Select(table, wheres, specs)[m..]
    ensures var listing := Select(table, wheres, specs);
            var page := PageOf(table, wheres, 0, specs, perPage, cursor);
            && page.rows == listing[m..m + perPage]
            && page.next == Some(Cursor(Boundary(listing[m + perPage - 1], specs), false))
            && Remaining(table, wheres, specs, page.next) == listing[m + perPage..]
            && PageOf(table, wheres, 0, specs, perPage, page.next).prev ==
               Some(Cursor(Boundary(listing[m + perPage], specs), true))
  {
    hide PageOf, Remaining, Select, Boundary, Columns, UniqueIn;
    ForwardPageAt(table, wheres, specs, perPage, cursor, m);
    RemainingAfter(column, table, wheres, specs, m + perPage - 1);
    var page := PageOf(table, wheres, 0, specs, perPage, cursor);
    ForwardPageAt(table, wheres, specs, perPage, page.next, m + perPage);
  }

  /** From listing index `m` on, a walk cuts the rest of the listing. */
  lemma {:induction false} StillWalkFrom(column: string, table: seq<Row>, wheres: seq<(Connector, Clause)>,
                                         specs: seq<Spec>, perPage: nat, cursor: Option<Cursor>,
                                         m: nat, times: nat)
    requires UniqueIn(column, table) && column in Columns(specs) && perPage >= 1 && Forward(cursor)
    requires m <= |Select(table, wheres, specs)|
    requires Remaining(table, wheres, specs, cursor) == Select(table, wheres, specs)[m..]
    requires times >= PageCount(|Select(table, wheres, specs)| - m, perPage)
    ensures Cuts(specs, perPage, Select(table, wheres, specs), m,
                 Walk(Still(table, times), wheres, specs, perPage, cursor))
    decreases times
  {
    hide PageOf, Remaining, Select, Walk, Still, Boundary, Columns, Cuts, UniqueIn;
    var listing := Select(table, wheres, specs);
    StillWalkCons(table, wheres, specs, perPage, cursor, times);
    var page := PageOf(table, wheres, 0, specs, perPage, cursor);
    if |listing| <= m + perPage {
      ForwardPageAt(table, wheres, specs, perPage, cursor, m);
      CutsLast(specs, perPage, listing, m, page);
    } else {
      StillStep(column, table, wheres, specs, perPage, cursor, m);
      StillWalkFrom(column, table, wheres, specs, perPage, page.next, m + perPage, times - 1);
      StillWalkCons(table, wheres, specs, perPage, page.next, times - 1);
      CutsCons(specs, perPage, listing, m, page,
               Walk(Still(table, times - 1), wheres, specs, perPage, page.next));
    }
  }

  /** On a fixed table the forward walk has ceil(n / perPage) pages and they concatenate to the
      filtered, ordered listing. */
  lemma StillWalk(column: string, table: seq<Row>, wheres: seq<(Connector, Clause)>, specs: seq<Spec>,
                  perPage: nat, times: nat)
    requires UniqueIn(column, table) && column in Columns(specs) && perPage >= 1
    requires times >= PageCount(|Select(table, wheres, specs)|, perPage)
    ensures var pages := Walk(Still(table, times), wheres, specs, perPage, None);
            && Complete(pages)
            && |pages| == PageCount(|Select(table, wheres, specs)|, perPage)
            && Delivered(pages) == Select(table, wheres, specs)
  {
    hide Walk, Still, Select, Cuts, Delivered;
    var listing := Select(table, wheres, specs);
    assert listing[0..] == listing;
    StillWalkFrom(column, table, wheres, specs, perPage, None, 0, times);
    CutsWhole(specs, perPage, listing, 0, Walk(Still(table, times), wheres, specs, perPage, None));
  }

  /** From any page but the first, `prev` returns exactly the page before it, and that page's `next`
      leads forward to where we were. The first page has no `prev`. */
  lemma StepBackAndForth(column: string, table: seq<Row>, wheres: seq<(Connector, Clause)>,
                         specs: seq<Spec>, perPage: nat, times: nat, k: nat)
    requires UniqueIn(column, table) && column in Columns(specs) && perPage >= 1
    requires times >= PageCount(|Select(table, wheres, specs)|, perPage)
    requires k < |Walk(Still(table, times), wheres, specs, perPage, None)|
    ensures var pages := Walk(Still(table, times), wheres, specs, perPage, None);
            if k == 0 then pages[0].prev.None?
            else
              && pages[k].prev.Some?
              && var back := PageOf(table, wheres, 0, specs, perPage, pages[k].prev);
                 && back.rows == pages[k - 1].rows
                 && back.next == pages[k - 1].next
                 && (back.prev.Some? <==> k > 1)
                 && PageOf(table, wheres, 0, specs, perPage, back.next).rows == pages[k].rows
  {
    hide PageOf, Select, Walk, Still, Boundary, Columns, Cuts;
    var listing := Select(table, wheres, specs);
    var pages := Walk(Still(table, times), wheres, specs, perPage, None);
    assert listing[0..] == listing;
    StillWalkFrom(column, table, wheres, specs, perPage, None, 0, times);
    if k == 0 {
      StillWalkCons(table, wheres, specs, perPage, None, times);
      ForwardPage(table, wheres, specs, perPage, None);
    } else {
      var m := CutsAt(specs, perPage, listing, 0, pages, k);
      BackwardPage(column, table, wheres, specs, perPage, m);
      NextLeadsOn(column, table, wheres, specs, perPage, m);
    }
  }

  lemma NextLeadsOn(column: string, table: seq<Row>, wheres: seq<(Connector, Clause)>,
                    specs: seq<Spec>, perPage: nat, m: nat)
    requires UniqueIn(column, table) && column in Columns(specs) && perPage >= 1
    requires 0 < m <= |Select(table, wheres, specs)|
    ensures var listing := Select(table, wheres, specs);
            var here := Cursor(Boundary(listing[m - 1], specs), false);
            PageOf(table, wheres, 0, specs, perPage, Some(here)).rows ==
            listing[m..End(listing, m, perPage)]
  {
    hide PageOf, Select;
    var here := Cursor(Boundary(Select(table, wheres, specs)[m - 1], specs), false);
    RemainingAfter(column, table, wheres, specs, m - 1);
    ForwardPageAt(table, wheres, specs, perPage, Some(here), m);
  }
}
