/** Folding the flat, depth-tagged rows of a recursive relation into nested dictionaries. */
module Nest {
  import opened Seqs
  import opened Recursive

  datatype Tree = Tree(of: Reached, nested: seq<Tree>)

  function Under(dir: Direction, m: Reached): Reached -> bool {
    (x: Reached) => Joins(dir, m.node, x.node)
  }

  function TopLevel(dir: Direction, models: seq<Reached>): Reached -> bool {
    (x: Reached) => forall i :: 0 <= i < |models| ==> !Joins(dir, models[i].node, x.node)
  }

  ghost predicate DistinctIds(models: seq<Reached>) {
    forall i, j :: 0 <= i < j < |models| ==> models[i].node.id != models[j].node.id
  }

  ghost predicate Consecutive(dir: Direction, models: seq<Reached>) {
    forall a, b | a in models && b in models && Joins(dir, a.node, b.node) :: b.depth == a.depth + 1
  }

  ghost predicate SinglePredecessor(dir: Direction, models: seq<Reached>) {
    forall a, b, c | a in models && b in models && c in models
                     && Joins(dir, a.node, c.node) && Joins(dir, b.node, c.node)
      :: a == b
  }

  ghost predicate RootedAtOne(dir: Direction, models: seq<Reached>) {
    forall b | b in models :: b.depth >= 1 && (TopLevel(dir, models)(b) <==> b.depth == 1)
  }

  /** What the result of a recursive query guarantees about its rows. */
  ghost predicate TreeRows(dir: Direction, models: seq<Reached>) {
    && DistinctIds(models)
    && Consecutive(dir, models)
    && SinglePredecessor(dir, models)
    && RootedAtOne(dir, models)
  }

  ghost function Ceiling(models: seq<Reached>): (n: nat)
    ensures forall m :: m in models ==> m.depth < n
  {
    if models == [] then 0
    else
      var rest := Ceiling(models[1..]);
      assert models == [models[0]] + models[1..];
      if models[0].depth < rest then rest else models[0].depth + 1
  }

  ghost predicate AllAt(models: seq<Reached>, ms: seq<Reached>, depth: nat) {
    forall i :: 0 <= i < |ms| ==> ms[i] in models && ms[i].depth == depth
  }

  lemma UnderAt(dir: Direction, models: seq<Reached>, m: Reached)
    requires TreeRows(dir, models) && m in models
    ensures AllAt(models, Filter(Under(dir, m), models), m.depth + 1)
  {
    var kids := Filter(Under(dir, m), models);
    forall i | 0 <= i < |kids| ensures kids[i] in models && kids[i].depth == m.depth + 1 {
      FilterIn(Under(dir, m), models, kids[i]);
    }
  }

  /** The subtree under one row: the rows joined to it, in result order, each with its own subtree. */
  ghost function Grow(dir: Direction, models: seq<Reached>, m: Reached): Tree
    requires TreeRows(dir, models) && m in models
    decreases Ceiling(models) - m.depth, 0, 0
  {
    UnderAt(dir, models, m);
    Tree(m, GrowAll(dir, models, Filter(Under(dir, m), models), m.depth + 1))
  }

  ghost function GrowAll(dir: Direction, models: seq<Reached>, ms: seq<Reached>, depth: nat): (ts: seq<Tree>)
    requires TreeRows(dir, models) && AllAt(models, ms, depth)
    ensures |ts| == |ms|
    decreases Ceiling(models) - depth, 1, |ms|
  {
    if ms == [] then []
    else
      assert ms[0] in models && AllAt(models, ms[1..], depth);
      [Grow(dir, models, ms[0])] + GrowAll(dir, models, ms[1..], depth)
  }

  lemma RootsAt(dir: Direction, models: seq<Reached>)
    requires TreeRows(dir, models)
    ensures AllAt(models, Filter(TopLevel(dir, models), models), 1)
  {
    var roots := Filter(TopLevel(dir, models), models);
    forall i | 0 <= i < |roots| ensures roots[i] in models && roots[i].depth == 1 {
      FilterIn(TopLevel(dir, models), models, roots[i]);
    }
  }

  ghost function Forest(dir: Direction, models: seq<Reached>): seq<Tree>
    requires TreeRows(dir, models)
  {
    RootsAt(dir, models);
    GrowAll(dir, models, Filter(TopLevel(dir, models), models), 1)
  }

  function Flatten(t: Tree): seq<Reached>
    decreases t, 0
  {
    [t.of] + FlattenAll(t.nested)
  }

  function FlattenAll(ts: seq<Tree>): seq<Reached>
    decreases ts, 1
  {
    if ts == [] then [] else Flatten(ts[0]) + FlattenAll(ts[1..])
  }

  // --- every row is placed once ----------------------------------------------------------

  ghost function Kids(dir: Direction, models: seq<Reached>, ms: seq<Reached>): seq<Reached> {
    if ms == [] then [] else Filter(Under(dir, ms[0]), models) + Kids(dir, models, ms[1..])
  }

  lemma {:induction false} KidsIn(dir: Direction, models: seq<Reached>, ms: seq<Reached>, x: Reached)
    ensures x in Kids(dir, models, ms) <==>
            x in models && exists i :: 0 <= i < |ms| && Joins(dir, ms[i].node, x.node)
  {
    if ms != [] {
      KidsIn(dir, models, ms[1..], x);
      FilterIn(Under(dir, ms[0]), models, x);
      assert forall i :: 0 <= i < |ms[1..]| ==> ms[1..][i] == ms[i + 1];
      if i :| 0 <= i < |ms| && Joins(dir, ms[i].node, x.node) {
        if i > 0 { assert Joins(dir, ms[1..][i - 1].node, x.node); }
      }
    }
  }

  lemma KidsAt(dir: Direction, models: seq<Reached>, ms: seq<Reached>, depth: nat)
    requires TreeRows(dir, models) && AllAt(models, ms, depth)
    ensures AllAt(models, Kids(dir, models, ms), depth + 1)
  {
    var kids := Kids(dir, models, ms);
    forall i | 0 <= i < |kids| ensures kids[i] in models && kids[i].depth == depth + 1 {
      KidsIn(dir, models, ms, kids[i]);
    }
  }

  lemma {:induction false} KidsDistinct(dir: Direction, models: seq<Reached>, ms: seq<Reached>)
    requires TreeRows(dir, models) && Distinct(ms)
    requires forall i :: 0 <= i < |ms| ==> ms[i] in models
    ensures Distinct(Kids(dir, models, ms))
  {
    if ms != [] {
      var rest := ms[1..];
      assert forall i :: 0 <= i < |rest| ==> rest[i] == ms[i + 1];
      KidsDistinct(dir, models, rest);
      FilterDistinct(Under(dir, ms[0]), models);
      var first, tail := Filter(Under(dir, ms[0]), models), Kids(dir, models, rest);
      forall x | x in first ensures x !in tail {
        FilterIn(Under(dir, ms[0]), models, x);
        KidsIn(dir, models, rest, x);
      }
      DistinctConcat(first, tail);
    }
  }

  function Depth(depth: nat): Reached -> bool {
    (m: Reached) => m.depth == depth
  }

  function AtLeast(depth: nat): Reached -> bool {
    (m: Reached) => m.depth >= depth
  }

  lemma NextDepthHasPredecessor(dir: Direction, models: seq<Reached>, x: Reached) returns (from: Reached)
    requires TreeRows(dir, models) && x in models && x.depth > 1
    ensures from in models && Joins(dir, from.node, x.node) && from.depth == x.depth - 1
  {
    hide Joins;
    assert !TopLevel(dir, models)(x);
    var j :| 0 <= j < |models| && Joins(dir, models[j].node, x.node);
    from := models[j];
  }

  lemma KidsAreNextDepth(dir: Direction, models: seq<Reached>, ms: seq<Reached>, depth: nat, x: Reached)
    requires TreeRows(dir, models) && depth >= 1
    requires forall m :: m in ms <==> m in models && m.depth == depth
    ensures x in Kids(dir, models, ms) <==> x in models && x.depth == depth + 1
  {
    hide Joins, SinglePredecessor, RootedAtOne, DistinctIds;
    KidsIn(dir, models, ms, x);
    if x in models && x.depth == depth + 1 {
      var from := NextDepthHasPredecessor(dir, models, x);
      var i :| 0 <= i < |ms| && ms[i] == from;
      assert Joins(dir, ms[i].node, x.node);
    }
    if x in Kids(dir, models, ms) {
      var i :| 0 <= i < |ms| && Joins(dir, ms[i].node, x.node);
      assert ms[i] in ms;
    }
  }

  lemma FilterMembers(p: Reached -> bool, models: seq<Reached>, ms: seq<Reached>)
    requires DistinctIds(models) && multiset(ms) == multiset(Filter(p, models))
    ensures Distinct(ms)
    ensures forall m :: m in ms <==> m in models && p(m)
  {
    assert Distinct(models);
    FilterDistinct(p, models);
    DistinctPermute(Filter(p, models), ms);
    forall m ensures m in ms <==> m in models && p(m) {
      assert m in ms <==> m in multiset(ms);
      assert m in Filter(p, models) <==> m in multiset(Filter(p, models));
      FilterIn(p, models, m);
    }
  }

  /** The rows under the rows of one depth are the rows of the next depth, each once. */
  lemma KidsPartition(dir: Direction, models: seq<Reached>, ms: seq<Reached>, depth: nat)
    requires TreeRows(dir, models) && depth >= 1
    requires multiset(ms) == multiset(Filter(Depth(depth), models))
    ensures AllAt(models, ms, depth)
    ensures multiset(Kids(dir, models, ms)) == multiset(Filter(Depth(depth + 1), models))
  {
    hide Consecutive, SinglePredecessor, RootedAtOne, DistinctIds, Filter, Kids;
    var next, kids := Filter(Depth(depth + 1), models), Kids(dir, models, ms);
    FilterMembers(Depth(depth), models, ms);
    FilterMembers(Depth(depth + 1), models, next);
    forall i | 0 <= i < |ms| ensures ms[i] in models && ms[i].depth == depth {
      assert ms[i] in ms;
    }
    KidsDistinct(dir, models, ms);
    forall x ensures x in kids <==> x in next {
      KidsAreNextDepth(dir, models, ms, depth, x);
    }
    SameElementsOnce(kids, next);
  }

  lemma DistinctPermute<T>(a: seq<T>, b: seq<T>)
    requires Distinct(a) && multiset(a) == multiset(b)
    ensures Distinct(b)
  {
    DistinctCounts(a);
    DistinctCounts(b);
    forall x | x in b ensures multiset(b)[x] == 1 {
      assert x in multiset(b) && x in a;
    }
  }

  lemma {:induction false} GrowAllConcat(dir: Direction, models: seq<Reached>, a: seq<Reached>, b: seq<Reached>,
                                         depth: nat)
    requires TreeRows(dir, models) && AllAt(models, a, depth) && AllAt(models, b, depth)
    ensures AllAt(models, a + b, depth)
    ensures GrowAll(dir, models, a + b, depth) == GrowAll(dir, models, a, depth) + GrowAll(dir, models, b, depth)
  {
    hide Grow, TreeRows;
    if a == [] {
      assert a + b == b;
    } else {
      GrowAllConcat(dir, models, a[1..], b, depth);
      assert (a + b)[1..] == a[1..] + b && (a + b)[0] == a[0];
      assert AllAt(models, a + b, depth);
      ConcatAssoc([Grow(dir, models, a[0])], GrowAll(dir, models, a[1..], depth), GrowAll(dir, models, b, depth));
    }
  }

  lemma {:induction false} FlattenAllConcat(a: seq<Tree>, b: seq<Tree>)
    ensures FlattenAll(a + b) == FlattenAll(a) + FlattenAll(b)
  {
    hide Flatten;
    if a == [] {
      assert a + b == b;
    } else {
      FlattenAllConcat(a[1..], b);
      assert (a + b)[1..] == a[1..] + b;
      assert FlattenAll(a + b) == Flatten(a[0]) + FlattenAll(a[1..] + b);
    }
  }

  /** A row of trees flattens to its roots and the flattened trees one level down. */
  lemma {:induction false} FlattenByLevel(dir: Direction, models: seq<Reached>, ms: seq<Reached>, depth: nat)
    requires TreeRows(dir, models) && AllAt(models, ms, depth)
    ensures AllAt(models, Kids(dir, models, ms), depth + 1)
    ensures multiset(FlattenAll(GrowAll(dir, models, ms, depth))) ==
            multiset(ms) + multiset(FlattenAll(GrowAll(dir, models, Kids(dir, models, ms), depth + 1)))
  {
    hide TreeRows, Joins, Filter, Flatten, FlattenAll;
    KidsAt(dir, models, ms, depth);
    FlattenNone();
    if ms != [] {
      var m, rest := ms[0], ms[1..];
      assert m in models && AllAt(models, rest, depth);
      FlattenByLevel(dir, models, rest, depth);
      UnderAt(dir, models, m);
      KidsAt(dir, models, rest, depth);
      var under, below := Filter(Under(dir, m), models), Kids(dir, models, rest);
      GrowAllConcat(dir, models, under, below, depth + 1);
      ByLevelStep(Grow(dir, models, m), GrowAll(dir, models, rest, depth), rest,
                  GrowAll(dir, models, below, depth + 1));
      assert ms == [m] + rest;
    }
  }

  lemma ByLevelStep(t: Tree, ts: seq<Tree>, roots: seq<Reached>, below: seq<Tree>)
    requires multiset(FlattenAll(ts)) == multiset(roots) + multiset(FlattenAll(below))
    ensures multiset(FlattenAll([t] + ts)) == multiset([t.of] + roots) + multiset(FlattenAll(t.nested + below))
  {
    hide FlattenAll;
    FlattenAllFirst(t, ts);
    FlattenAllConcat(t.nested, below);
  }

  lemma FlattenNone()
    ensures FlattenAll([]) == []
  {
  }

  lemma FlattenAllFirst(t: Tree, ts: seq<Tree>)
    ensures FlattenAll([t] + ts) == [t.of] + FlattenAll(t.nested) + FlattenAll(ts)
  {
    assert ([t] + ts)[1..] == ts;
  }

  lemma {:induction false} DepthSplit(models: seq<Reached>, depth: nat)
    ensures multiset(Filter(AtLeast(depth), models)) ==
            multiset(Filter(Depth(depth), models)) + multiset(Filter(AtLeast(depth + 1), models))
  {
    forall x: Reached ensures
      multiset(Filter(AtLeast(depth), models))[x] ==
      (multiset(Filter(Depth(depth), models)) + multiset(Filter(AtLeast(depth + 1), models)))[x]
    {
      FilterCount(AtLeast(depth), models, x);
      FilterCount(Depth(depth), models, x);
      FilterCount(AtLeast(depth + 1), models, x);
    }
  }

  lemma {:induction false} FlattenFrom(dir: Direction, models: seq<Reached>, ms: seq<Reached>, depth: nat)
    requires TreeRows(dir, models) && depth >= 1
    requires multiset(ms) == multiset(Filter(Depth(depth), models))
    ensures AllAt(models, ms, depth)
    ensures multiset(FlattenAll(GrowAll(dir, models, ms, depth))) == multiset(Filter(AtLeast(depth), models))
    decreases Ceiling(models) - depth
  {
    hide Grow, GrowAll, TreeRows, Kids, Flatten, FlattenAll, Filter;
    KidsPartition(dir, models, ms, depth);
    FlattenByLevel(dir, models, ms, depth);
    DepthSplit(models, depth);
    if depth < Ceiling(models) {
      FlattenFrom(dir, models, Kids(dir, models, ms), depth + 1);
    } else {
      FilterNone(Depth(depth + 1), models);
      FilterNone(AtLeast(depth + 1), models);
      assert |Kids(dir, models, ms)| == |multiset(Kids(dir, models, ms))| == 0;
      FlattenNone();
      assert GrowAll(dir, models, Kids(dir, models, ms), depth + 1) == [];
    }
  }

  /** Flattening the forest gives back the rows, each exactly once. */
  lemma ForestPlacesEachOnce(dir: Direction, models: seq<Reached>)
    requires TreeRows(dir, models)
    ensures multiset(FlattenAll(Forest(dir, models))) == multiset(models)
  {
    RootsAt(dir, models);
    FilterExt(TopLevel(dir, models), Depth(1), models);
    FlattenFrom(dir, models, Filter(TopLevel(dir, models), models), 1);
    FilterAll(AtLeast(1), models);
  }

  // --- shape -------------------------------------------------------------------------------

  /** Nesting level equals the depth tag, and every nested node is joined to the node above it. */
  ghost predicate Shaped(dir: Direction, t: Tree, level: nat)
    decreases t
  {
    && t.of.depth == level
    && forall i :: 0 <= i < |t.nested| ==>
         Joins(dir, t.of.node, t.nested[i].of.node) && Shaped(dir, t.nested[i], level + 1)
  }

  lemma ShapedNode(dir: Direction, t: Tree, level: nat)
    requires t.of.depth == level
    requires forall i :: 0 <= i < |t.nested| ==>
                           Joins(dir, t.of.node, t.nested[i].of.node) && Shaped(dir, t.nested[i], level + 1)
    ensures Shaped(dir, t, level)
  {
  }

  lemma {:induction false} GrowShaped(dir: Direction, models: seq<Reached>, m: Reached)
    requires TreeRows(dir, models) && m in models
    ensures Shaped(dir, Grow(dir, models, m), m.depth)
    decreases Ceiling(models) - m.depth
  {
    hide TreeRows, Joins, GrowAll, Filter, Shaped;
    UnderAt(dir, models, m);
    var under := Filter(Under(dir, m), models);
    var t := Grow(dir, models, m);
    forall i | 0 <= i < |t.nested|
      ensures Joins(dir, t.of.node, t.nested[i].of.node) && Shaped(dir, t.nested[i], m.depth + 1)
    {
      GrowAllAt(dir, models, under, m.depth + 1, i);
      FilterIn(Under(dir, m), models, under[i]);
      assert AllAt(models, under, m.depth + 1);
      GrowShaped(dir, models, under[i]);
    }
    ShapedNode(dir, t, m.depth);
  }

  lemma {:induction false} GrowAllAt(dir: Direction, models: seq<Reached>, ms: seq<Reached>, depth: nat, i: nat)
    requires TreeRows(dir, models) && AllAt(models, ms, depth) && i < |ms|
    ensures ms[i] in models && GrowAll(dir, models, ms, depth)[i] == Grow(dir, models, ms[i])
  {
    hide TreeRows, Grow;
    if i > 0 {
      assert AllAt(models, ms[1..], depth);
      GrowAllAt(dir, models, ms[1..], depth, i - 1);
    }
  }

  lemma ForestShaped(dir: Direction, models: seq<Reached>, i: nat)
    requires TreeRows(dir, models) && i < |Forest(dir, models)|
    ensures Shaped(dir, Forest(dir, models)[i], 1)
  {
    RootsAt(dir, models);
    var roots := Filter(TopLevel(dir, models), models);
    GrowAllAt(dir, models, roots, 1, i);
    GrowShaped(dir, models, roots[i]);
  }

  // --- recursive results are tree rows -----------------------------------------------------

  lemma ResultFacts(dir: Direction, table: seq<Node>, seed: Node, rows: seq<Reached>, r: Reached)
    requires IsResult(dir, table, seed, rows) && r in rows
    ensures r.root == seed.id && r.depth >= 1 && r.node in Level(dir, table, seed, r.depth) && r.node in table
  {
    var k: nat :| Level(dir, table, seed, k + 1) == [] && multiset(rows) == multiset(Rows(dir, table, seed, k));
    assert r in multiset(rows);
    RowsIn(dir, table, seed, k, r);
    LevelInTable(dir, table, seed, r.depth, r.node);
  }

  /** One step back from a result row: the seed itself at depth one, another result row deeper. */
  lemma Predecessor(dir: Direction, table: seq<Node>, seed: Node, rows: seq<Reached>, r: Reached)
    returns (from: Reached)
    requires IsResult(dir, table, seed, rows) && r in rows
    ensures from.depth == r.depth - 1 && Joins(dir, from.node, r.node)
    ensures from.node in Level(dir, table, seed, from.depth)
    ensures if r.depth == 1 then from.node == seed else from in rows
  {
    hide IsResult, PathTo, Level, Step, Joins;
    ResultFacts(dir, table, seed, rows, r);
    var before := Level(dir, table, seed, r.depth - 1);
    LevelZero(dir, table, seed);
    LevelSucc(dir, table, seed, r.depth);
    StepIn(dir, table, before, r.node);
    var i :| 0 <= i < |before| && Joins(dir, before[i], r.node);
    from := Reached(before[i], seed.id, r.depth - 1);
    if r.depth > 1 {
      LevelIsPaths(dir, table, seed, r.depth - 1, before[i]);
      ResultIsReachability(dir, table, seed, rows, before[i], r.depth - 1);
    }
  }

  /** Rows joined within a result sit at consecutive depths. */
  lemma JoinedDepths(dir: Direction, table: seq<Node>, seed: Node, rows: seq<Reached>, a: Reached, b: Reached)
    requires UniqueIds(table) && !ReachesCycle(dir, table, seed)
    requires IsResult(dir, table, seed, rows) && a in rows && b in rows && Joins(dir, a.node, b.node)
    ensures b.depth == a.depth + 1
  {
    hide IsResult, ReachesCycle, UniqueIds, Joins, Rows, Step;
    ResultFacts(dir, table, seed, rows, a);
    ResultFacts(dir, table, seed, rows, b);
    var level := Level(dir, table, seed, a.depth);
    StepIn(dir, table, level, b.node);
    var i :| 0 <= i < |level| && level[i] == a.node;
    assert Joins(dir, level[i], b.node);
    assert b.node in Level(dir, table, seed, a.depth + 1);
    var lo, hi := if b.depth < a.depth + 1 then b.depth else a.depth + 1,
                  if b.depth < a.depth + 1 then a.depth + 1 else b.depth;
    OneDepth(dir, table, seed, b.node, lo, hi);
  }

  lemma JoinsDown(a: Node, b: Node, c: Node)
    requires Joins(Down, a, c) && Joins(Down, b, c)
    ensures a.id == b.id
  {
  }

  lemma OnePredecessor(dir: Direction, table: seq<Node>, seed: Node, rows: seq<Reached>,
                       a: Reached, b: Reached, c: Reached)
    requires UniqueIds(table) && !ReachesCycle(dir, table, seed)
    requires IsResult(dir, table, seed, rows) && a in rows && b in rows && c in rows
    requires Joins(dir, a.node, c.node) && Joins(dir, b.node, c.node)
    ensures a == b
  {
    hide IsResult, ReachesCycle, Level, Joins, Rows;
    ResultFacts(dir, table, seed, rows, a);
    ResultFacts(dir, table, seed, rows, b);
    JoinedDepths(dir, table, seed, rows, a, c);
    JoinedDepths(dir, table, seed, rows, b, c);
    if dir == Up {
      LevelDistinct(Up, table, seed, a.depth);
    } else {
      JoinsDown(a.node, b.node, c.node);
      SameId(table, a.node, b.node);
    }
  }

  /** What a terminating recursive query returns is fit for nesting, in both directions. */
  lemma ResultIsTreeRows(dir: Direction, table: seq<Node>, seed: Node, rows: seq<Reached>)
    requires UniqueIds(table) && !ReachesCycle(dir, table, seed)
    requires IsResult(dir, table, seed, rows)
    ensures TreeRows(dir, rows)
  {
    hide IsResult, ReachesCycle, Level, Joins;
    ResultHasNoDuplicates(dir, table, seed, rows);
    forall i, j | 0 <= i < j < |rows| ensures rows[i].node.id != rows[j].node.id {
      ResultFacts(dir, table, seed, rows, rows[i]);
      ResultFacts(dir, table, seed, rows, rows[j]);
      if rows[i].node.id == rows[j].node.id { SameId(table, rows[i].node, rows[j].node); }
    }
    forall a, b | a in rows && b in rows && Joins(dir, a.node, b.node) ensures b.depth == a.depth + 1 {
      JoinedDepths(dir, table, seed, rows, a, b);
    }
    forall a, b, c | a in rows && b in rows && c in rows && Joins(dir, a.node, c.node) && Joins(dir, b.node, c.node)
      ensures a == b
    {
      OnePredecessor(dir, table, seed, rows, a, b, c);
    }
    forall b | b in rows ensures b.depth >= 1 && (TopLevel(dir, rows)(b) <==> b.depth == 1) {
      ResultFacts(dir, table, seed, rows, b);
      var from := Predecessor(dir, table, seed, rows, b);
      if b.depth == 1 {
        forall i | 0 <= i < |rows| ensures !Joins(dir, rows[i].node, b.node) {
          if Joins(dir, rows[i].node, b.node) {
            JoinedDepths(dir, table, seed, rows, rows[i], b);
            ResultFacts(dir, table, seed, rows, rows[i]);
          }
        }
      } else {
        var i :| 0 <= i < |rows| && rows[i] == from;
        assert Joins(dir, rows[i].node, b.node);
      }
    }
  }

  // --- ancestors form one chain ---------------------------------------------------------------

  ghost predicate OnePerDepth(models: seq<Reached>) {
    forall a, b | a in models && b in models :: a.depth == b.depth ==> a == b
  }

  lemma AncestorsOnePerDepth(table: seq<Node>, seed: Node, rows: seq<Reached>)
    requires UniqueIds(table) && IsResult(Up, table, seed, rows)
    ensures OnePerDepth(rows)
  {
    forall a, b | a in rows && b in rows && a.depth == b.depth ensures a == b {
      ResultFacts(Up, table, seed, rows, a);
      ResultFacts(Up, table, seed, rows, b);
      LevelDistinct(Up, table, seed, a.depth);
    }
  }

  ghost predicate Thin(t: Tree)
    decreases t
  {
    |t.nested| <= 1 && forall i :: 0 <= i < |t.nested| ==> Thin(t.nested[i])
  }

  lemma {:induction false} OneAtMost(models: seq<Reached>, p: Reached -> bool, depth: nat)
    requires DistinctIds(models) && OnePerDepth(models)
    requires forall m :: m in models && p(m) ==> m.depth == depth
    ensures |Filter(p, models)| <= 1
  {
    if models != [] {
      var rest := models[1..];
      assert forall i :: 0 <= i < |rest| ==> rest[i] == models[i + 1];
      OneAtMost(rest, p, depth);
      if p(models[0]) {
        FilterNone(p, rest);
      }
    }
  }

  lemma {:induction false} GrowThin(dir: Direction, models: seq<Reached>, m: Reached)
    requires TreeRows(dir, models) && OnePerDepth(models) && m in models
    ensures Thin(Grow(dir, models, m))
    decreases Ceiling(models) - m.depth
  {
    hide TreeRows, Joins, OnePerDepth;
    UnderAt(dir, models, m);
    var under := Filter(Under(dir, m), models);
    RowsAreDistinct(dir, models);
    forall x | x in models && Under(dir, m)(x) ensures x.depth == m.depth + 1 {
      FilterIn(Under(dir, m), models, x);
    }
    OneAtMost(models, Under(dir, m), m.depth + 1);
    if under != [] {
      assert AllAt(models, under, m.depth + 1);
      GrowThin(dir, models, under[0]);
      GrowAllAt(dir, models, under, m.depth + 1, 0);
    }
  }

  lemma RowsAreDistinct(dir: Direction, models: seq<Reached>)
    requires TreeRows(dir, models)
    ensures DistinctIds(models)
  {
  }

  lemma {:induction false} ThinFlatten(dir: Direction, t: Tree, level: nat)
    requires Thin(t) && Shaped(dir, t, level)
    ensures forall i :: 0 <= i < |Flatten(t)| ==> Flatten(t)[i].depth == level + i
    decreases t
  {
    hide Joins;
    if t.nested == [] {
      FlattenNone();
    } else {
      var u := t.nested[0];
      ThinFlatten(dir, u, level + 1);
      FlattenAllFirst(u, []);
      FlattenNone();
      assert t.nested == [u] + [];
      assert Flatten(t) == [t.of] + Flatten(u);
    }
  }

  ghost predicate StrictDepths(s: seq<Reached>) {
    forall i, j :: 0 <= i < j < |s| ==> s[i].depth < s[j].depth
  }

  lemma FirstsAgree(a: seq<Reached>, b: seq<Reached>)
    requires StrictDepths(a) && StrictDepths(b) && multiset(a) == multiset(b) && a != []
    ensures b != [] && a[0] == b[0] && multiset(a[1..]) == multiset(b[1..])
  {
    hide DistinctIds;
    assert |a| == |multiset(a)| && |b| == |multiset(b)|;
    assert a[0] in multiset(b) && b[0] in multiset(a);
    var i :| 0 <= i < |b| && b[i] == a[0];
    var j :| 0 <= j < |a| && a[j] == b[0];
    TailMultiset(a);
    TailMultiset(b);
  }

  lemma TailMultiset<T>(s: seq<T>)
    requires s != []
    ensures multiset(s[1..]) == multiset(s) - multiset{s[0]}
  {
    assert s == [s[0]] + s[1..];
  }

  lemma {:induction false} StrictDepthsUnique(a: seq<Reached>, b: seq<Reached>)
    requires StrictDepths(a) && StrictDepths(b) && multiset(a) == multiset(b)
    ensures a == b
  {
    if a == [] {
      assert |a| == |multiset(a)| && |b| == |multiset(b)|;
    } else {
      FirstsAgree(a, b);
      assert a == [a[0]] + a[1..] && b == [b[0]] + b[1..];
      assert StrictDepths(a[1..]) && StrictDepths(b[1..]);
      StrictDepthsUnique(a[1..], b[1..]);
    }
  }

  /** The ancestors of a node fold into one chain, nearest first: each nests the next one. */
  lemma AncestorsAreOneChain(table: seq<Node>, seed: Node, rows: seq<Reached>)
    requires UniqueIds(table) && !ReachesCycle(Up, table, seed)
    requires IsResult(Up, table, seed, rows)
    ensures TreeRows(Up, rows)
    ensures |Forest(Up, rows)| == if rows == [] then 0 else 1
    ensures FlattenAll(Forest(Up, rows)) == rows
  {
    hide IsResult, ReachesCycle, UniqueIds, TreeRows, Joins, OnePerDepth;
    ResultIsTreeRows(Up, table, seed, rows);
    AncestorsOnePerDepth(table, seed, rows);
    RowsAreDistinct(Up, rows);
    ChainOrder(Up, table, seed, rows);
    OneRoot(rows);
  }

  lemma OneRoot(rows: seq<Reached>)
    requires TreeRows(Up, rows) && OnePerDepth(rows) && StrictDepths(rows)
    ensures |Forest(Up, rows)| == if rows == [] then 0 else 1
    ensures FlattenAll(Forest(Up, rows)) == rows
  {
    hide TreeRows, Joins, OnePerDepth, StrictDepths, Flatten, Grow, GrowAll;
    RowsAreDistinct(Up, rows);
    RootsAt(Up, rows);
    forall x | x in rows && TopLevel(Up, rows)(x) ensures x.depth == 1 {
      FilterIn(TopLevel(Up, rows), rows, x);
    }
    OneAtMost(rows, TopLevel(Up, rows), 1);
    ForestPlacesEachOnce(Up, rows);
    var forest := Forest(Up, rows);
    FlattenNone();
    assert |rows| == |multiset(rows)| && |FlattenAll(forest)| == |multiset(FlattenAll(forest))|;
    if forest != [] {
      var roots := Filter(TopLevel(Up, rows), rows);
      ForestShaped(Up, rows, 0);
      GrowAllAt(Up, rows, roots, 1, 0);
      GrowThin(Up, rows, roots[0]);
      ThinFlatten(Up, forest[0], 1);
      FlattenAllFirst(forest[0], []);
      assert forest == [forest[0]] + [];
      assert FlattenAll(forest) == Flatten(forest[0]);
      StrictDepthsUnique(FlattenAll(forest), rows);
    }
  }

  lemma ChainOrder(dir: Direction, table: seq<Node>, seed: Node, rows: seq<Reached>)
    requires IsResult(dir, table, seed, rows) && DistinctIds(rows) && OnePerDepth(rows)
    ensures StrictDepths(rows)
  {
    forall i, j | 0 <= i < j < |rows| ensures rows[i].depth < rows[j].depth {
      assert rows[i] in rows && rows[j] in rows && rows[i] != rows[j];
    }
  }

  // --- the fold itself: dictionaries that nest by reference -------------------------------------

  class Dict {
    const of: Reached
    var nested: seq<Dict>

    constructor (of: Reached)
      ensures this.of == of && nested == []
    {
      this.of := of;
      nested := [];
    }
  }

  type Dicts = map<int, Dict>

  ghost predicate Holding(nodes: Dicts, models: seq<Reached>) {
    && (forall m :: m in models ==> m.node.id in nodes && nodes[m.node.id].of == m)
    && (forall id :: id in nodes ==> nodes[id].of in models && nodes[id].of.node.id == id)
  }

  /** The dictionaries of these rows. */
  function Pick(nodes: Dicts, ms: seq<Reached>): seq<Dict> {
    if ms == [] then []
    else (if ms[0].node.id in nodes then [nodes[ms[0].node.id]] else []) + Pick(nodes, ms[1..])
  }

  lemma {:induction false} PickConcat(nodes: Dicts, a: seq<Reached>, b: seq<Reached>)
    ensures Pick(nodes, a + b) == Pick(nodes, a) + Pick(nodes, b)
  {
    hide Pick;
    if a == [] {
      PickNothing(nodes);
      assert a + b == b;
    } else {
      PickConcat(nodes, a[1..], b);
      PickCons(nodes, a);
      PickCons(nodes, a + b);
      assert (a + b)[1..] == a[1..] + b && (a + b)[0] == a[0];
      ConcatAssoc(if a[0].node.id in nodes then [nodes[a[0].node.id]] else [], Pick(nodes, a[1..]), Pick(nodes, b));
    }
  }

  lemma PickNothing(nodes: Dicts)
    ensures Pick(nodes, []) == []
  {
  }

  lemma PickCons(nodes: Dicts, ms: seq<Reached>)
    requires ms != []
    ensures Pick(nodes, ms) ==
            (if ms[0].node.id in nodes then [nodes[ms[0].node.id]] else []) + Pick(nodes, ms[1..])
  {
  }

  lemma {:induction false} PickAt(nodes: Dicts, ms: seq<Reached>, i: nat)
    requires forall j :: 0 <= j < |ms| ==> ms[j].node.id in nodes
    ensures |Pick(nodes, ms)| == |ms|
    ensures i < |ms| ==> Pick(nodes, ms)[i] == nodes[ms[i].node.id]
  {
    if ms != [] {
      PickAt(nodes, ms[1..], if i == 0 then 0 else i - 1);
    }
  }

  /** Every dictionary nests the dictionaries of those `seen` rows that go under its row. */
  ghost predicate Linked(dir: Direction, nodes: Dicts, models: seq<Reached>, seen: seq<Reached>)
    reads nodes.Values
  {
    && Holding(nodes, models)
    && forall m :: m in models ==> nodes[m.node.id].nested == Pick(nodes, Filter(Under(dir, m), seen))
  }

  method MakeDicts(models: seq<Reached>) returns (nodes: Dicts)
    requires DistinctIds(models)
    ensures Holding(nodes, models)
    ensures forall id :: id in nodes ==> fresh(nodes[id]) && nodes[id].nested == []
  {
    nodes := map[];
    var i := 0;
    while i < |models|
      invariant 0 <= i <= |models|
      invariant Holding(nodes, models[..i])
      invariant forall id :: id in nodes ==> fresh(nodes[id]) && nodes[id].nested == []
    {
      var data := new Dict(models[i]);
      assert models[..i + 1] == models[..i] + [models[i]];
      forall m | m in models[..i] ensures m.node.id != models[i].node.id {
        var j :| 0 <= j < i && models[j] == m;
      }
      nodes := nodes[models[i].node.id := data];
      i := i + 1;
      assert forall m :: m in models[..i] <==> m in models[..i - 1] || m == models[i - 1];
    }
    assert models[..i] == models;
  }

  lemma NoneYet(nodes: Dicts, p: Reached -> bool)
    ensures Pick(nodes, Filter(p, [])) == []
  {
  }

  lemma LinkedNone(dir: Direction, nodes: Dicts, models: seq<Reached>)
    requires Holding(nodes, models) && forall id :: id in nodes ==> nodes[id].nested == []
    ensures Linked(dir, nodes, models, [])
  {
  }

  lemma PickOne(nodes: Dicts, models: seq<Reached>, x: Reached)
    requires Holding(nodes, models) && x in models
    ensures Pick(nodes, [x]) == [nodes[x.node.id]]
    ensures Pick(nodes, []) == []
  {
    assert [x][1..] == [];
  }

  /** One more seen row extends exactly the dictionary it goes under. */
  lemma PickOneMore(dir: Direction, nodes: Dicts, models: seq<Reached>, m: Reached, seen: seq<Reached>, x: Reached)
    requires Holding(nodes, models) && x in models
    ensures Pick(nodes, Filter(Under(dir, m), seen + [x])) ==
            Pick(nodes, Filter(Under(dir, m), seen)) +
            if Joins(dir, m.node, x.node) then [nodes[x.node.id]] else []
  {
    FilterConcat(Under(dir, m), seen, [x]);
    FilterSingle(Under(dir, m), x);
    PickOne(nodes, models, x);
    PickConcat(nodes, Filter(Under(dir, m), seen), Filter(Under(dir, m), [x]));
    assert Under(dir, m)(x) <==> Joins(dir, m.node, x.node);
  }

  lemma RootsOneMore(dir: Direction, nodes: Dicts, models: seq<Reached>, seen: seq<Reached>, x: Reached)
    requires Holding(nodes, models) && x in models
    ensures Pick(nodes, Filter(TopLevel(dir, models), seen + [x])) ==
            Pick(nodes, Filter(TopLevel(dir, models), seen)) +
            if TopLevel(dir, models)(x) then [nodes[x.node.id]] else []
  {
    FilterConcat(TopLevel(dir, models), seen, [x]);
    FilterSingle(TopLevel(dir, models), x);
    PickOne(nodes, models, x);
    PickConcat(nodes, Filter(TopLevel(dir, models), seen), Filter(TopLevel(dir, models), [x]));
    assert TopLevel(dir, models)(x) <==> TopLevel(dir, models)(x);
  }

  /** Nests each row's dictionary under its structural parent's; rows without one are the roots. */
  method NestDown(models: seq<Reached>) returns (roots: seq<Dict>, nodes: Dicts)
    requires DistinctIds(models)
    ensures Linked(Down, nodes, models, models)
    ensures forall id :: id in nodes ==> fresh(nodes[id])
    ensures roots == Pick(nodes, Filter(TopLevel(Down, models), models))
  {
    hide Pick, Filter, Under, TopLevel;
    nodes := MakeDicts(models);
    LinkedNone(Down, nodes, models);
    NoneYet(nodes, TopLevel(Down, models));
    roots := [];
    var i := 0;
    assert models[..0] == [];
    while i < |models|
      invariant 0 <= i <= |models|
      invariant forall id :: id in nodes ==> fresh(nodes[id])
      invariant Linked(Down, nodes, models, models[..i])
      invariant roots == Pick(nodes, Filter(TopLevel(Down, models), models[..i]))
    {
      var node := nodes[models[i].node.id];
      ghost var x := models[i];
      RootsOneMore(Down, nodes, models, models[..i], x);
      TopLevelDown(nodes, models, x);
      assert models[..i + 1] == models[..i] + [x];
      if models[i].node.parent.Some? && models[i].node.parent.value in nodes {
        var parent: int := models[i].node.parent.value;
        PlaceUnder(nodes, models, models[..i], parent, node, x);
      } else {
        roots := roots + [node];
        PlaceNowhere(nodes, models, models[..i], x);
      }
      i := i + 1;
    }
    assert models[..i] == models;
  }

  lemma PlaceNowhere(nodes: Dicts, models: seq<Reached>, seen: seq<Reached>, x: Reached)
    requires Linked(Down, nodes, models, seen) && x in models && TopLevel(Down, models)(x)
    ensures Linked(Down, nodes, models, seen + [x])
  {
    forall m | m in models
      ensures nodes[m.node.id].nested == Pick(nodes, Filter(Under(Down, m), seen + [x]))
    {
      PickOneMore(Down, nodes, models, m, seen, x);
      var i :| 0 <= i < |models| && models[i] == m;
      assert !Joins(Down, models[i].node, x.node);
    }
  }

  /** `nodes[parent][key].append(node)`: the one dictionary that changes is the parent's. */
  method PlaceUnder(nodes: Dicts, ghost models: seq<Reached>, ghost seen: seq<Reached>, parent: int,
                    node: Dict, ghost x: Reached)
    requires Linked(Down, nodes, models, seen) && parent in nodes
    requires x in models && x.node.parent == Some(parent) && node == nodes[x.node.id]
    modifies nodes[parent]
    ensures Linked(Down, nodes, models, seen + [x])
  {
    forall m | m in models
      ensures Pick(nodes, Filter(Under(Down, m), seen + [x])) ==
              nodes[m.node.id].nested + if m.node.id == parent then [node] else []
    {
      PickOneMore(Down, nodes, models, m, seen, x);
    }
    hide Pick, Filter, Under;
    nodes[parent].nested := nodes[parent].nested + [node];
  }

  lemma TopLevelDown(nodes: Dicts, models: seq<Reached>, x: Reached)
    requires Holding(nodes, models)
    ensures TopLevel(Down, models)(x) <==> !(x.node.parent.Some? && x.node.parent.value in nodes)
  {
    if x.node.parent.Some? && x.node.parent.value in nodes {
      var key: int := x.node.parent.value;
      var m := nodes[key].of;
      assert m in models;
      var i :| 0 <= i < |models| && models[i] == m;
      assert Joins(Down, models[i].node, x.node);
    }
    if !TopLevel(Down, models)(x) {
      var i :| 0 <= i < |models| && Joins(Down, models[i].node, x.node);
      assert models[i] in models;
    }
  }

  /** The first `i` rows hold their ancestor, the others nothing yet. */
  ghost predicate LinkedUpTo(nodes: Dicts, models: seq<Reached>, i: nat)
    requires i <= |models|
    reads nodes.Values
  {
    && Holding(nodes, models)
    && (forall j :: 0 <= j < i ==>
          models[j] in models
          && nodes[models[j].node.id].nested == Pick(nodes, Filter(Under(Up, models[j]), models)))
    && (forall j :: i <= j < |models| ==> models[j] in models && nodes[models[j].node.id].nested == [])
  }

  /** Nests the next ancestor inside each row's dictionary; the root is the row no other points to. */
  method NestUp(models: seq<Reached>) returns (roots: seq<Dict>, nodes: Dicts)
    requires DistinctIds(models)
    ensures Linked(Up, nodes, models, models)
    ensures forall id :: id in nodes ==> fresh(nodes[id])
    ensures roots == Pick(nodes, Filter(TopLevel(Up, models), models))
  {
    hide Pick, Filter, Under, TopLevel;
    nodes := MakeDicts(models);
    var referenced := set i | 0 <= i < |models| :: models[i].node.parent;
    NoneYet(nodes, TopLevel(Up, models));
    roots := [];
    var i := 0;
    assert models[..0] == [];
    while i < |models|
      invariant 0 <= i <= |models|
      invariant forall id :: id in nodes ==> fresh(nodes[id])
      invariant LinkedUpTo(nodes, models, i)
      invariant roots == Pick(nodes, Filter(TopLevel(Up, models), models[..i]))
    {
      var node := nodes[models[i].node.id];
      ghost var x := models[i];
      RootsOneMore(Up, nodes, models, models[..i], x);
      assert models[..i + 1] == models[..i] + [x];
      TopLevelUp(models, x, referenced);
      if Some(models[i].node.id) !in referenced {
        roots := roots + [node];
      }
      PlaceAncestor(nodes, models, i, node);
      i := i + 1;
    }
    assert models[..i] == models;
    forall m | m in models
      ensures nodes[m.node.id].nested == Pick(nodes, Filter(Under(Up, m), models))
    {
      var j :| 0 <= j < |models| && models[j] == m;
    }
  }

  lemma TopLevelUp(models: seq<Reached>, x: Reached, referenced: set<Option<int>>)
    requires referenced == set i | 0 <= i < |models| :: models[i].node.parent
    ensures TopLevel(Up, models)(x) <==> Some(x.node.id) !in referenced
  {
  }

  method PlaceAncestor(nodes: Dicts, models: seq<Reached>, i: nat, node: Dict)
    requires DistinctIds(models) && i < |models| && LinkedUpTo(nodes, models, i)
    requires node == nodes[models[i].node.id]
    modifies node
    ensures LinkedUpTo(nodes, models, i + 1)
  {
    assert models[i] in models;
    UnderUp(nodes, models, models[i]);
    hide Filter, Under;
    if models[i].node.parent.Some? && models[i].node.parent.value in nodes {
      var parent: int := models[i].node.parent.value;
      node.nested := node.nested + [nodes[parent]];
    }
    forall j | 0 <= j < |models| && j != i ensures nodes[models[j].node.id] != node {
      assert models[j] in models;
    }
  }

  lemma UnderUp(nodes: Dicts, models: seq<Reached>, x: Reached)
    requires Holding(nodes, models) && DistinctIds(models)
    ensures Pick(nodes, Filter(Under(Up, x), models)) ==
            if x.node.parent.Some? && x.node.parent.value in nodes
            then (var parent: int := x.node.parent.value; [nodes[parent]]) else []
  {
    if x.node.parent.Some? && x.node.parent.value in nodes {
      var key: int := x.node.parent.value;
      var m := nodes[key].of;
      assert m in models;
      var j :| 0 <= j < |models| && models[j] == m;
      FilterOnly(Under(Up, x), models, j);
      assert [m][1..] == [];
    } else {
      FilterNone(Under(Up, x), models);
    }
  }

  lemma {:induction false} FilterOnly(p: Reached -> bool, s: seq<Reached>, j: nat)
    requires j < |s| && forall i :: 0 <= i < |s| ==> (p(s[i]) <==> i == j)
    ensures Filter(p, s) == [s[j]]
  {
    assert s == s[..j] + ([s[j]] + s[j + 1..]);
    FilterConcat(p, s[..j], [s[j]] + s[j + 1..]);
    FilterNone(p, s[..j]);
    FilterNone(p, s[j + 1..]);
    assert ([s[j]] + s[j + 1..])[1..] == s[j + 1..];
  }

  /** The nested dictionaries under `d` spell out the tree `t`. */
  ghost predicate Shows(all: set<Dict>, d: Dict, t: Tree)
    reads all
    decreases t
  {
    && d in all
    && d.of == t.of
    && |d.nested| == |t.nested|
    && forall i :: 0 <= i < |t.nested| ==> Shows(all, d.nested[i], t.nested[i])
  }

  /** Following the references from a row's dictionary reads off that row's subtree. */
  lemma {:induction false} LinkedShows(dir: Direction, nodes: Dicts, models: seq<Reached>, m: Reached)
    requires TreeRows(dir, models) && Linked(dir, nodes, models, models) && m in models
    ensures Shows(nodes.Values, nodes[m.node.id], Grow(dir, models, m))
    decreases Ceiling(models) - m.depth
  {
    hide TreeRows, Joins, GrowAll, Filter, Pick;
    UnderAt(dir, models, m);
    var under := Filter(Under(dir, m), models);
    var d, t := nodes[m.node.id], Grow(dir, models, m);
    PickAt(nodes, under, 0);
    assert d in nodes.Values;
    forall i | 0 <= i < |t.nested| ensures Shows(nodes.Values, d.nested[i], t.nested[i]) {
      GrowAllAt(dir, models, under, m.depth + 1, i);
      PickAt(nodes, under, i);
      assert under[i] in models && under[i].depth == m.depth + 1;
      LinkedShows(dir, nodes, models, under[i]);
    }
    assert Shows(nodes.Values, d, t);
  }

  /** The dictionaries `_nest` returns spell out the forest of the rows. */
  lemma NestShowsForest(dir: Direction, nodes: Dicts, models: seq<Reached>, roots: seq<Dict>, i: nat)
    requires TreeRows(dir, models) && Linked(dir, nodes, models, models)
    requires roots == Pick(nodes, Filter(TopLevel(dir, models), models))
    ensures |roots| == |Forest(dir, models)|
    ensures i < |roots| ==> Shows(nodes.Values, roots[i], Forest(dir, models)[i])
  {
    hide TreeRows, Joins;
    RootsAt(dir, models);
    var tops := Filter(TopLevel(dir, models), models);
    forall j | 0 <= j < |tops| ensures tops[j].node.id in nodes {
      assert tops[j] in models;
    }
    PickAt(nodes, tops, i);
    if i < |tops| {
      GrowAllAt(dir, models, tops, 1, i);
      LinkedShows(dir, nodes, models, tops[i]);
    }
  }
}
