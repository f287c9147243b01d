/** What the query builder compiles to: WHERE clauses, ORDER BY lists and the rows they select.
    Column values are integers, standing for any totally ordered column type without NULLs. */
module Query {
  import opened Seqs

  type Row = map<string, int>

  datatype Direction = Asc | Desc

  type Spec = (string, Direction)

  datatype Op = Eq | Gt | Lt

  /** A SQLAlchemy boolean expression; `Never` is the raw `1 = 0`. */
  datatype Clause =
    | Compare(column: string, op: Op, value: int)
    | All(clauses: seq<Clause>)
    | Any(clauses: seq<Clause>)
    | Never

  datatype Connector = And | Or

  /** The value of a column. Every row of a table carries every column; a column the map omits
      reads as one fixed value. */
  function Cell(row: Row, column: string): int {
    if column in row then row[column] else 0
  }

  predicate Holds(clause: Clause, row: Row) {
    match clause
    case Compare(column, Eq, value) => Cell(row, column) == value
    case Compare(column, Gt, value) => Cell(row, column) > value
    case Compare(column, Lt, value) => Cell(row, column) < value
    case All(clauses) => forall i :: 0 <= i < |clauses| ==> Holds(clauses[i], row)
    case Any(clauses) => exists i :: 0 <= i < |clauses| && Holds(clauses[i], row)
    case Never => false
  }

  /** A comparison reads the row's own value of its column. */
  lemma CompareReads(column: string, op: Op, value: int, row: Row)
    requires column in row
    ensures Holds(Compare(column, op, value), row) <==>
            if op == Eq then row[column] == value else if op == Gt then row[column] > value else row[column] < value
  {
  }

  /** The builder's accumulated conditions folded from the left into one clause. */
  function WhereExpression(wheres: seq<(Connector, Clause)>): Option<Clause> {
    if wheres == [] then None
    else
      var last := wheres[|wheres| - 1];
      match WhereExpression(wheres[..|wheres| - 1])
      case None => Some(last.1)
      case Some(expr) =>
        if last.0 == Or then Some(Any([expr, last.1])) else Some(All([expr, last.1]))
  }

  predicate Matches(wheres: seq<(Connector, Clause)>, row: Row) {
    var expr := WhereExpression(wheres);
    expr.Some? ==> Holds(expr.value, row)
  }

  /** A clause appended with AND narrows the whole expression, whatever ANDs and ORs precede it. */
  lemma AndNarrows(wheres: seq<(Connector, Clause)>, clause: Clause, row: Row)
    ensures Matches(wheres + [(And, clause)], row) <==> Matches(wheres, row) && Holds(clause, row)
  {
    var all := wheres + [(And, clause)];
    assert all[..|all| - 1] == wheres;
    match WhereExpression(wheres)
    case None =>
    case Some(expr) =>
      var pair := [expr, clause];
      assert pair[0] == expr && pair[1] == clause;
      assert Holds(All(pair), row) <==> Holds(pair[0], row) && Holds(pair[1], row);
  }

  /** A clause appended with OR widens the whole expression; the connector of the first clause is not read. */
  lemma OrWidens(wheres: seq<(Connector, Clause)>, clause: Clause, row: Row)
    ensures Matches(wheres + [(Or, clause)], row) <==>
            if wheres == [] then Holds(clause, row) else Matches(wheres, row) || Holds(clause, row)
  {
    var all := wheres + [(Or, clause)];
    assert all[..|all| - 1] == wheres;
    match WhereExpression(wheres)
    case None =>
    case Some(expr) =>
      var pair := [expr, clause];
      assert pair[0] == expr && pair[1] == clause;
      assert Holds(Any(pair), row) <==> Holds(pair[0], row) || Holds(pair[1], row);
  }

  function Matching(wheres: seq<(Connector, Clause)>): Row -> bool {
    row => Matches(wheres, row)
  }

  // --- ordering ---------------------------------------------------------------

  predicate Precedes(direction: Direction, a: int, b: int) {
    if direction == Asc then a < b else a > b
  }

  /** Strict lexicographic order of ORDER BY over mixed ascending and descending columns. */
  predicate Before(specs: seq<Spec>, a: Row, b: Row) {
    && specs != []
    && (|| Precedes(specs[0].1, Cell(a, specs[0].0), Cell(b, specs[0].0))
        || (Cell(a, specs[0].0) == Cell(b, specs[0].0) && Before(specs[1..], a, b)))
  }

  /** Ordering by one column: ascending by its values, or descending. */
  lemma OrderReads(column: string, direction: Direction, a: Row, b: Row)
    requires column in a && column in b
    ensures Before([(column, direction)], a, b) <==>
            if direction == Asc then a[column] < b[column] else a[column] > b[column]
  {
    assert [(column, direction)][1..] == [];
  }

  ghost predicate SameKey(specs: seq<Spec>, a: Row, b: Row) {
    forall i :: 0 <= i < |specs| ==> Cell(a, specs[i].0) == Cell(b, specs[i].0)
  }

  lemma {:induction false} BeforeTransitive(specs: seq<Spec>, a: Row, b: Row, c: Row)
    requires Before(specs, a, b) && !Before(specs, c, b)
    ensures Before(specs, a, c)
  {
    if Cell(a, specs[0].0) == Cell(b, specs[0].0) == Cell(c, specs[0].0) {
      BeforeTransitive(specs[1..], a, b, c);
    }
  }

  lemma {:induction false} NotAfterBefore(specs: seq<Spec>, a: Row, b: Row, c: Row)
    requires !Before(specs, b, a) && Before(specs, b, c)
    ensures Before(specs, a, c)
  {
    if Cell(a, specs[0].0) == Cell(b, specs[0].0) == Cell(c, specs[0].0) {
      NotAfterBefore(specs[1..], a, b, c);
    }
  }

  lemma {:induction false} BeforeAsymmetric(specs: seq<Spec>, a: Row, b: Row)
    ensures !(Before(specs, a, b) && Before(specs, b, a))
  {
    if specs != [] {
      BeforeAsymmetric(specs[1..], a, b);
    }
  }

  /** Rows are unordered only when every ordering column agrees. */
  lemma {:induction false} Trichotomy(specs: seq<Spec>, a: Row, b: Row)
    ensures SameKey(specs, a, b) <==> !Before(specs, a, b) && !Before(specs, b, a)
  {
    if specs != [] {
      Trichotomy(specs[1..], a, b);
      assert forall i :: 0 <= i < |specs[1..]| ==> specs[1..][i] == specs[i + 1];
      assert SameKey(specs, a, b) <==>
             Cell(a, specs[0].0) == Cell(b, specs[0].0) && SameKey(specs[1..], a, b) by {
        if Cell(a, specs[0].0) == Cell(b, specs[0].0) && SameKey(specs[1..], a, b) {
          forall i | 0 <= i < |specs| ensures Cell(a, specs[i].0) == Cell(b, specs[i].0) {
            if i > 0 { assert specs[i] == specs[1..][i - 1]; }
          }
        }
      }
    }
  }

  /** Ordering only reads the ordering columns. */
  lemma {:induction false} BeforeSameKey(specs: seq<Spec>, a: Row, b: Row, c: Row)
    requires SameKey(specs, a, b)
    ensures Before(specs, a, c) == Before(specs, b, c)
    ensures Before(specs, c, a) == Before(specs, c, b)
  {
    if specs != [] {
      assert SameKey(specs[1..], a, b) by {
        assert forall i :: 0 <= i < |specs[1..]| ==> specs[1..][i] == specs[i + 1];
      }
      BeforeSameKey(specs[1..], a, b, c);
    }
  }

  // --- sorting ----------------------------------------------------------------

  function Insert(specs: seq<Spec>, x: Row, s: seq<Row>): seq<Row> {
    if s == [] then [x]
    else if !Before(specs, s[0], x) then [x] + s
    else [s[0]] + Insert(specs, x, s[1..])
  }

  /** ORDER BY: a stable sort. */
  function Sort(specs: seq<Spec>, s: seq<Row>): seq<Row> {
    if s == [] then [] else Insert(specs, s[0], Sort(specs, s[1..]))
  }

  ghost predicate Sorted(specs: seq<Spec>, s: seq<Row>) {
    forall i, j :: 0 <= i < j < |s| ==> !Before(specs, s[j], s[i])
  }

  ghost predicate StrictlySorted(specs: seq<Spec>, s: seq<Row>) {
    forall i, j :: 0 <= i < j < |s| ==> Before(specs, s[i], s[j])
  }

  lemma {:induction false} InsertElements(specs: seq<Spec>, x: Row, s: seq<Row>)
    ensures multiset(Insert(specs, x, s)) == multiset(s) + multiset{x}
  {
    if s != [] && Before(specs, s[0], x) {
      InsertElements(specs, x, s[1..]);
      assert s == [s[0]] + s[1..];
    }
  }

  lemma {:induction false} InsertSorted(specs: seq<Spec>, x: Row, s: seq<Row>)
    requires Sorted(specs, s)
    ensures Sorted(specs, Insert(specs, x, s))
  {
    if s == [] {
    } else if !Before(specs, s[0], x) {
      var r := [x] + s;
      forall i, j | 0 <= i < j < |r| ensures !Before(specs, r[j], r[i]) {
        if i == 0 && j > 1 && Before(specs, s[j - 1], x) {
          NotAfterBefore(specs, s[0], s[j - 1], x);
        }
      }
    } else {
      var rest := Insert(specs, x, s[1..]);
      assert forall i :: 0 <= i < |s[1..]| ==> s[1..][i] == s[i + 1];
      InsertSorted(specs, x, s[1..]);
      forall j | 0 <= j < |rest| ensures !Before(specs, rest[j], s[0]) {
        InsertElements(specs, x, s[1..]);
        assert rest[j] in multiset(rest);
        BeforeAsymmetric(specs, s[0], x);
        if rest[j] != x {
          assert rest[j] in multiset(s[1..]);
          var k :| 0 <= k < |s[1..]| && s[1..][k] == rest[j];
          assert s[k + 1] == rest[j];
        }
      }
      SortedCons(specs, s[0], rest);
    }
  }

  lemma SortedCons(specs: seq<Spec>, x: Row, s: seq<Row>)
    requires Sorted(specs, s)
    requires forall j :: 0 <= j < |s| ==> !Before(specs, s[j], x)
    ensures Sorted(specs, [x] + s)
  {
    var r := [x] + s;
    forall i, j | 0 <= i < j < |r| ensures !Before(specs, r[j], r[i]) {
      assert r[j] == s[j - 1];
    }
  }

  lemma {:induction false} SortSorted(specs: seq<Spec>, s: seq<Row>)
    ensures Sorted(specs, Sort(specs, s))
    ensures multiset(Sort(specs, s)) == multiset(s)
  {
    if s != [] {
      SortSorted(specs, s[1..]);
      InsertSorted(specs, s[0], Sort(specs, s[1..]));
      InsertElements(specs, s[0], Sort(specs, s[1..]));
      assert s == [s[0]] + s[1..];
    }
  }

  lemma {:induction false} InsertFilter(specs: seq<Spec>, p: Row -> bool, x: Row, s: seq<Row>)
    requires Sorted(specs, s)
    ensures Filter(p, Insert(specs, x, s)) ==
            if p(x) then Insert(specs, x, Filter(p, s)) else Filter(p, s)
  {
    if s == [] {
    } else if !Before(specs, s[0], x) {
      assert ([x] + s)[1..] == s;
      var kept := Filter(p, s);
      if p(x) && kept != [] {
        FilterIn(p, s, kept[0]);
        var k :| 0 <= k < |s| && s[k] == kept[0];
        if Before(specs, kept[0], x) && k > 0 {
          NotAfterBefore(specs, s[0], s[k], x);
        }
      }
    } else {
      assert forall i :: 0 <= i < |s[1..]| ==> s[1..][i] == s[i + 1];
      InsertFilter(specs, p, x, s[1..]);
      assert ([s[0]] + Insert(specs, x, s[1..]))[1..] == Insert(specs, x, s[1..]);
    }
  }

  /** Filtering and ordering commute, so a page query may be read off the whole ordered listing. */
  lemma {:induction false} SortFilter(specs: seq<Spec>, p: Row -> bool, s: seq<Row>)
    ensures Filter(p, Sort(specs, s)) == Sort(specs, Filter(p, s))
  {
    if s != [] {
      SortFilter(specs, p, s[1..]);
      SortSorted(specs, s[1..]);
      InsertFilter(specs, p, s[0], Sort(specs, s[1..]));
    }
  }

  // --- seeking ----------------------------------------------------------------

  function After(specs: seq<Spec>, position: Row): Row -> bool {
    row => Before(specs, position, row)
  }

  /** In an ordered listing the rows after a position are one suffix. */
  lemma {:induction false} AfterIsSuffix(specs: seq<Spec>, position: Row, s: seq<Row>) returns (k: nat)
    requires Sorted(specs, s)
    ensures k <= |s| && Filter(After(specs, position), s) == s[k..]
    ensures forall i :: 0 <= i < k ==> !Before(specs, position, s[i])
    ensures forall i :: k <= i < |s| ==> Before(specs, position, s[i])
  {
    if s == [] {
      k := 0;
    } else {
      assert forall i :: 0 <= i < |s[1..]| ==> s[1..][i] == s[i + 1];
      if Before(specs, position, s[0]) {
        k := 0;
        forall i | 0 <= i < |s| ensures Before(specs, position, s[i]) {
          if i > 0 { BeforeTransitive(specs, position, s[0], s[i]); }
        }
        FilterAll(After(specs, position), s);
      } else {
        var rest := AfterIsSuffix(specs, position, s[1..]);
        k := rest + 1;
        assert s[k..] == s[1..][rest..];
        forall i | 0 <= i < |s| ensures i < k ==> !Before(specs, position, s[i])
          ensures i >= k ==> Before(specs, position, s[i])
        {
          if i > 0 { assert s[i] == s[1..][i - 1]; }
        }
      }
    }
  }

  // --- the statement a builder runs --------------------------------------------

  function Select(table: seq<Row>, wheres: seq<(Connector, Clause)>, order: seq<Spec>): seq<Row> {
    Sort(order, Filter(Matching(wheres), table))
  }

  function Take<T>(s: seq<T>, n: nat): seq<T> {
    if |s| <= n then s else s[..n]
  }

  function Drop<T>(s: seq<T>, n: nat): seq<T> {
    if |s| <= n then [] else s[n..]
  }

  /** Adding a seek bound to a query selects the part of its listing after the bound. */
  lemma SelectBounded(table: seq<Row>, wheres: seq<(Connector, Clause)>, order: seq<Spec>,
                      bound: Clause, after: Row -> bool)
    requires forall row :: Holds(bound, row) <==> after(row)
    ensures Select(table, wheres + [(And, bound)], order) ==
            Filter(after, Select(table, wheres, order))
  {
    var bounded := Matching(wheres + [(And, bound)]);
    forall row | row in table ensures bounded(row) <==> Matching(wheres)(row) && after(row) {
      AndNarrows(wheres, bound, row);
    }
    FilterTwice(Matching(wheres), after, bounded, table);
    SortFilter(order, after, Filter(Matching(wheres), table));
  }
}
