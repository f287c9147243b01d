/** Self-referential relations over an adjacency list: the recursive walk from one node, and the
    batched walk that serves many nodes at once. */
module Recursive {
  import opened Seqs

  /** A row of the tree table; `parent` is None for SQL NULL. */
  datatype Node = Node(id: int, parent: Option<int>)

  datatype Direction = Down | Up

  /** A row of a recursive query: the node, the root it was reached from, and its depth. */
  datatype Reached = Reached(node: Node, root: int, depth: nat)

  /** The join of the recursive term: `t` is one step from `from`. NULL joins nothing. */
  predicate Joins(dir: Direction, from: Node, t: Node) {
    if dir == Up then from.parent == Some(t.id) else t.parent == Some(from.id)
  }

  function Neighbours(dir: Direction, from: Node): Node -> bool {
    t => Joins(dir, from, t)
  }

  /** One iteration of the recursive term over the rows the previous iteration produced. */
  function Step(dir: Direction, table: seq<Node>, frontier: seq<Node>): seq<Node> {
    if frontier == [] then []
    else Filter(Neighbours(dir, frontier[0]), table) + Step(dir, table, frontier[1..])
  }

  /** The rows of iteration `k`; iteration 1 is the anchor of the node's own query. */
  function Level(dir: Direction, table: seq<Node>, seed: Node, k: nat): seq<Node> {
    if k == 0 then [seed] else Step(dir, table, Level(dir, table, seed, k - 1))
  }

  function Tagged(nodes: seq<Node>, root: int, depth: nat): seq<Reached> {
    seq(|nodes|, i requires 0 <= i < |nodes| => Reached(nodes[i], root, depth))
  }

  /** UNION ALL of the iterations 1..k. */
  function Rows(dir: Direction, table: seq<Node>, seed: Node, k: nat): seq<Reached> {
    if k == 0 then []
    else Rows(dir, table, seed, k - 1) + Tagged(Level(dir, table, seed, k), seed.id, k)
  }

  ghost predicate DepthOrdered(rows: seq<Reached>) {
    forall i, j :: 0 <= i < j < |rows| ==> rows[i].depth <= rows[j].depth
  }

  /** The query's result: the engine stops after the first iteration that adds nothing, and returns
      the bag of all iterations ordered by depth. */
  ghost predicate IsResult(dir: Direction, table: seq<Node>, seed: Node, rows: seq<Reached>) {
    && DepthOrdered(rows)
    && exists k: nat ::
         Level(dir, table, seed, k + 1) == [] && multiset(rows) == multiset(Rows(dir, table, seed, k))
  }

  ghost predicate UniqueIds(table: seq<Node>) {
    forall i, j :: 0 <= i < j < |table| ==> table[i].id != table[j].id
  }

  // --- paths ----------------------------------------------------------------------

  /** A walk along stored links: every node after the first is a row of the table. */
  ghost predicate Path(dir: Direction, table: seq<Node>, p: seq<Node>) {
    && |p| >= 1
    && forall i :: 1 <= i < |p| ==> p[i] in table && Joins(dir, p[i - 1], p[i])
  }

  ghost predicate PathTo(dir: Direction, table: seq<Node>, from: Node, to: Node, length: nat) {
    exists p :: |p| == length + 1 && p[0] == from && p[length] == to && Path(dir, table, p)
  }

  lemma {:induction false} StepIn(dir: Direction, table: seq<Node>, frontier: seq<Node>, t: Node)
    ensures t in Step(dir, table, frontier) <==>
            t in table && exists i :: 0 <= i < |frontier| && Joins(dir, frontier[i], t)
  {
    if frontier != [] {
      StepIn(dir, table, frontier[1..], t);
      FilterIn(Neighbours(dir, frontier[0]), table, t);
      assert forall i :: 0 <= i < |frontier[1..]| ==> frontier[1..][i] == frontier[i + 1];
      if i :| 0 <= i < |frontier| && Joins(dir, frontier[i], t) {
        if i > 0 { assert Joins(dir, frontier[1..][i - 1], t); }
      }
    }
  }

  /** Iteration `k` holds exactly the ends of the paths of length `k`: depth is path length. */
  lemma {:induction false} LevelIsPaths(dir: Direction, table: seq<Node>, seed: Node, k: nat, t: Node)
    ensures t in Level(dir, table, seed, k) <==> PathTo(dir, table, seed, t, k)
  {
    if t in Level(dir, table, seed, k) {
      LevelHasPath(dir, table, seed, k, t);
    }
    if PathTo(dir, table, seed, t, k) {
      var p :| |p| == k + 1 && p[0] == seed && p[k] == t && Path(dir, table, p);
      PathInLevel(dir, table, seed, k, p);
    }
  }

  lemma {:induction false} LevelHasPath(dir: Direction, table: seq<Node>, seed: Node, k: nat, t: Node)
    requires t in Level(dir, table, seed, k)
    ensures PathTo(dir, table, seed, t, k)
  {
    if k == 0 {
      assert Path(dir, table, [seed]) && [seed][0] == seed;
    } else {
      var before := Level(dir, table, seed, k - 1);
      StepIn(dir, table, before, t);
      var i :| 0 <= i < |before| && Joins(dir, before[i], t);
      LevelHasPath(dir, table, seed, k - 1, before[i]);
      var p :| |p| == k && p[0] == seed && p[k - 1] == before[i] && Path(dir, table, p);
      PathExtend(dir, table, p, t);
    }
  }

  lemma {:induction false} PathInLevel(dir: Direction, table: seq<Node>, seed: Node, k: nat, p: seq<Node>)
    requires |p| == k + 1 && p[0] == seed && Path(dir, table, p)
    ensures p[k] in Level(dir, table, seed, k)
  {
    if k > 0 {
      var before := Level(dir, table, seed, k - 1);
      assert Path(dir, table, p[..k]);
      PathInLevel(dir, table, seed, k - 1, p[..k]);
      var i :| 0 <= i < |before| && before[i] == p[k - 1];
      StepIn(dir, table, before, p[k]);
      assert Joins(dir, before[i], p[k]);
    }
  }

  lemma PathExtend(dir: Direction, table: seq<Node>, p: seq<Node>, t: Node)
    requires Path(dir, table, p) && t in table && Joins(dir, p[|p| - 1], t)
    ensures PathTo(dir, table, p[0], t, |p|)
  {
    var q := p + [t];
    assert Path(dir, table, q) && q[0] == p[0] && q[|p|] == t;
  }

  lemma PathJoin(dir: Direction, table: seq<Node>, a: Node, b: Node, c: Node, m: nat, n: nat)
    requires PathTo(dir, table, a, b, m) && PathTo(dir, table, b, c, n)
    ensures PathTo(dir, table, a, c, m + n)
  {
    var p :| |p| == m + 1 && p[0] == a && p[m] == b && Path(dir, table, p);
    var q :| |q| == n + 1 && q[0] == b && q[n] == c && Path(dir, table, q);
    var r := p + q[1..];
    forall i | 1 <= i < |r| ensures r[i] in table && Joins(dir, r[i - 1], r[i]) {
      if i > m {
        assert r[i] == q[i - m];
        assert r[i - 1] == q[i - m - 1];
      }
    }
    assert Path(dir, table, r) && r[0] == a && r[m + n] == c;
  }

  // --- termination -------------------------------------------------------------------

  ghost predicate OnCycle(dir: Direction, table: seq<Node>, x: Node) {
    exists n: nat :: n >= 1 && PathTo(dir, table, x, x, n)
  }

  /** Some node that `seed` reaches also reaches itself. */
  ghost predicate ReachesCycle(dir: Direction, table: seq<Node>, seed: Node) {
    exists x, m: nat :: PathTo(dir, table, seed, x, m) && OnCycle(dir, table, x)
  }

  /** A sequence longer than the table, drawn from it, repeats a row. */
  lemma {:induction false} Pigeonhole(table: seq<Node>, p: seq<Node>)
    requires forall i :: 0 <= i < |p| ==> p[i] in table
    requires Distinct(p)
    ensures |p| <= |table|
  {
    if p != [] {
      var last := p[|p| - 1];
      var i :| 0 <= i < |table| && table[i] == last;
      var rest := table[..i] + table[i + 1..];
      var q := p[..|p| - 1];
      forall j | 0 <= j < |q| ensures q[j] in rest {
        var k :| 0 <= k < |table| && table[k] == p[j];
        if k < i { assert rest[k] == q[j]; } else { assert rest[k - 1] == q[j]; }
      }
      Pigeonhole(rest, q);
    }
  }

  /** A path that visits a node twice reaches a cycle. */
  lemma RepeatIsCycle(dir: Direction, table: seq<Node>, p: seq<Node>, i: nat, j: nat)
    requires Path(dir, table, p) && i < j < |p| && p[i] == p[j]
    ensures ReachesCycle(dir, table, p[0])
  {
    var head, loop := p[..i + 1], p[i..j + 1];
    assert Path(dir, table, head) && head[i] == p[i];
    forall k | 1 <= k < |loop| ensures loop[k] in table && Joins(dir, loop[k - 1], loop[k]) {
      assert loop[k] == p[i + k] && loop[k - 1] == p[i + k - 1];
    }
    assert Path(dir, table, loop) && loop[0] == p[i] && loop[j - i] == p[j];
    assert PathTo(dir, table, p[0], p[i], i);
    assert PathTo(dir, table, p[i], p[i], j - i);
  }

  lemma {:induction false} CycleRepeats(dir: Direction, table: seq<Node>, seed: Node, x: Node, m: nat, n: nat, k: nat)
      returns (d: nat)
    requires n >= 1 && PathTo(dir, table, seed, x, m) && PathTo(dir, table, x, x, n)
    ensures d >= k && PathTo(dir, table, seed, x, d)
    decreases k - m
  {
    if k <= m {
      d := m;
    } else {
      PathJoin(dir, table, seed, x, x, m, n);
      d := CycleRepeats(dir, table, seed, x, m + n, n, k);
    }
  }

  lemma {:induction false} EmptyStaysEmpty(dir: Direction, table: seq<Node>, seed: Node, k: nat, n: nat)
    requires k <= n && Level(dir, table, seed, k) == []
    ensures Level(dir, table, seed, n) == []
  {
    if k < n {
      EmptyStaysEmpty(dir, table, seed, k, n - 1);
    }
  }

  lemma NoCycleTerminates(dir: Direction, table: seq<Node>, seed: Node)
    requires !ReachesCycle(dir, table, seed)
    ensures Level(dir, table, seed, |table| + 1) == []
  {
    var n := |table| + 1;
    if Level(dir, table, seed, n) != [] {
      var t := Level(dir, table, seed, n)[0];
      LevelIsPaths(dir, table, seed, n, t);
      var p :| |p| == n + 1 && p[0] == seed && p[n] == t && Path(dir, table, p);
      if Distinct(p[1..]) {
        Pigeonhole(table, p[1..]);
      } else {
        var i, j :| 0 <= i < j < |p[1..]| && p[1..][i] == p[1..][j];
        RepeatIsCycle(dir, table, p, i + 1, j + 1);
      }
    }
  }

  lemma CycleNeverEnds(dir: Direction, table: seq<Node>, seed: Node, k: nat)
    requires ReachesCycle(dir, table, seed)
    ensures Level(dir, table, seed, k) != []
  {
    var x, m: nat :| PathTo(dir, table, seed, x, m) && OnCycle(dir, table, x);
    var c: nat :| c >= 1 && PathTo(dir, table, x, x, c);
    var d := CycleRepeats(dir, table, seed, x, m, c, k);
    LevelIsPaths(dir, table, seed, d, x);
    if Level(dir, table, seed, k) == [] {
      EmptyStaysEmpty(dir, table, seed, k, d);
    }
  }

  /** Some iteration adds nothing, so the engine stops. */
  ghost predicate Terminates(dir: Direction, table: seq<Node>, seed: Node) {
    exists k: nat :: Level(dir, table, seed, k) == []
  }

  /** The recursive query terminates exactly when the seed reaches no cycle. */
  lemma TerminatesIffNoCycle(dir: Direction, table: seq<Node>, seed: Node)
    ensures Terminates(dir, table, seed) <==> !ReachesCycle(dir, table, seed)
  {
    if ReachesCycle(dir, table, seed) {
      forall k: nat ensures Level(dir, table, seed, k) != [] {
        CycleNeverEnds(dir, table, seed, k);
      }
    } else {
      NoCycleTerminates(dir, table, seed);
    }
  }

  // --- the result of one query --------------------------------------------------------

  lemma {:induction false} RowsIn(dir: Direction, table: seq<Node>, seed: Node, k: nat, r: Reached)
    ensures r in Rows(dir, table, seed, k) <==>
            r.root == seed.id && 1 <= r.depth <= k && r.node in Level(dir, table, seed, r.depth)
  {
    if k > 0 {
      RowsIn(dir, table, seed, k - 1, r);
      var level := Level(dir, table, seed, k);
      var tagged := Tagged(level, seed.id, k);
      if r in tagged {
        var i :| 0 <= i < |tagged| && tagged[i] == r;
        assert level[i] == r.node;
      }
      if r.root == seed.id && r.depth == k && r.node in level {
        var i :| 0 <= i < |level| && level[i] == r.node;
        assert tagged[i] == r;
      }
    }
  }

  /** The result holds exactly the reachable rows, each tagged with the length of a path to it. */
  lemma ResultIsReachability(dir: Direction, table: seq<Node>, seed: Node, rows: seq<Reached>,
                             t: Node, depth: nat)
    requires IsResult(dir, table, seed, rows)
    ensures Reached(t, seed.id, depth) in rows <==> depth >= 1 && PathTo(dir, table, seed, t, depth)
  {
    hide Level, PathTo, Rows, DepthOrdered;
    var k: nat :| Level(dir, table, seed, k + 1) == [] && multiset(rows) == multiset(Rows(dir, table, seed, k));
    var r := Reached(t, seed.id, depth);
    assert r in rows <==> r in multiset(rows);
    RowsIn(dir, table, seed, k, r);
    LevelIsPaths(dir, table, seed, depth, t);
    if depth > k {
      EmptyStaysEmpty(dir, table, seed, k + 1, depth);
    }
  }

  /** A step from distinct rows yields distinct rows: a row has one parent, and ids are unique. */
  lemma {:induction false} StepDistinct(dir: Direction, table: seq<Node>, frontier: seq<Node>)
    requires UniqueIds(table) && Distinct(table)
    requires forall i, j :: 0 <= i < j < |frontier| ==> frontier[i].id != frontier[j].id
    requires dir == Up ==> |frontier| <= 1
    ensures Distinct(Step(dir, table, frontier))
    ensures dir == Up ==> |Step(dir, table, frontier)| <= 1
  {
    if frontier != [] {
      var first := Filter(Neighbours(dir, frontier[0]), table);
      var rest := Step(dir, table, frontier[1..]);
      assert forall i :: 0 <= i < |frontier[1..]| ==> frontier[1..][i] == frontier[i + 1];
      StepDistinct(dir, table, frontier[1..]);
      FilterDistinct(Neighbours(dir, frontier[0]), table);
      forall x | x in first && x in rest ensures false {
        FilterIn(Neighbours(dir, frontier[0]), table, x);
        StepIn(dir, table, frontier[1..], x);
      }
      forall i, j | 0 <= i < j < |first + rest| ensures (first + rest)[i] != (first + rest)[j] {
        if i < |first| <= j { assert (first + rest)[j] in rest && (first + rest)[i] in first; }
      }
      if dir == Up {
        OneParent(table, frontier[0]);
      }
    }
  }

  lemma {:induction false} OneParent(table: seq<Node>, from: Node)
    requires UniqueIds(table)
    ensures |Filter(Neighbours(Up, from), table)| <= 1
  {
    if table != [] {
      var rest := table[1..];
      assert forall i :: 0 <= i < |rest| ==> rest[i] == table[i + 1];
      OneParent(rest, from);
      if Joins(Up, from, table[0]) {
        FilterNone(Neighbours(Up, from), rest);
      }
    }
  }

  lemma UniqueIdsDistinct(table: seq<Node>)
    requires UniqueIds(table)
    ensures Distinct(table)
  {
  }

  lemma {:induction false} LevelDistinct(dir: Direction, table: seq<Node>, seed: Node, k: nat)
    requires UniqueIds(table)
    ensures Distinct(Level(dir, table, seed, k))
    ensures dir == Up ==> |Level(dir, table, seed, k)| <= 1
    ensures UniqueIds(Level(dir, table, seed, k))
  {
    if k > 0 {
      var before := Level(dir, table, seed, k - 1);
      var level := Level(dir, table, seed, k);
      LevelDistinct(dir, table, seed, k - 1);
      UniqueIdsDistinct(table);
      StepDistinct(dir, table, before);
      forall i, j | 0 <= i < j < |level| ensures level[i].id != level[j].id {
        StepIn(dir, table, before, level[i]);
        StepIn(dir, table, before, level[j]);
        var a :| 0 <= a < |table| && table[a] == level[i];
        var b :| 0 <= b < |table| && table[b] == level[j];
        assert a != b;
      }
    }
  }

  lemma LevelZero(dir: Direction, table: seq<Node>, seed: Node)
    ensures Level(dir, table, seed, 0) == [seed]
  {
  }

  lemma LevelSucc(dir: Direction, table: seq<Node>, seed: Node, k: nat)
    requires k > 0
    ensures Level(dir, table, seed, k) == Step(dir, table, Level(dir, table, seed, k - 1))
  {
  }

  lemma SameId(table: seq<Node>, a: Node, b: Node)
    requires UniqueIds(table) && a in table && b in table && a.id == b.id
    ensures a == b
  {
  }

  /** Without a reachable cycle a row is reached at one depth only, whether or not the node the walk starts
      from is what the table holds under its id. */
  lemma {:induction false} OneDepth(dir: Direction, table: seq<Node>, seed: Node, t: Node, m: nat, n: nat)
    requires UniqueIds(table) && !ReachesCycle(dir, table, seed)
    requires m <= n && t in Level(dir, table, seed, m) && t in Level(dir, table, seed, n)
    ensures m == n
    decreases m
  {
    hide Joins, PathTo, UniqueIds, Level;
    if m == n {
    } else if dir == Up {
      UpDeterministic(table, seed, t, m, n);
    } else if m == 0 {
      LevelZero(dir, table, seed);
      LevelIsPaths(dir, table, seed, 0, seed);
      LevelIsPaths(dir, table, seed, n, seed);
    } else {
      var a := CameFrom(table, seed, t, m);
      var b := CameFrom(table, seed, t, n);
      if m == 1 {
        LevelZero(dir, table, seed);
        LevelIsPaths(dir, table, seed, n - 1, b);
        SameChildren(table, seed, b, n - 1);
      } else {
        SameId(table, a, b);
        OneDepth(dir, table, seed, a, m - 1, n - 1);
      }
    }
  }

  /** Down, what lies behind a node depends on its id alone. */
  lemma SameChildren(table: seq<Node>, seed: Node, t: Node, k: nat)
    requires k > 0 && seed.id == t.id && PathTo(Down, table, seed, t, k)
    ensures PathTo(Down, table, t, t, k)
  {
    var p :| |p| == k + 1 && p[0] == seed && p[k] == t && Path(Down, table, p);
    var q := p[0 := t];
    assert Path(Down, table, q) && |q| == k + 1 && q[0] == t && q[k] == t;
  }

  /** The node a child was reached from is the one its parent column names. */
  lemma CameFrom(table: seq<Node>, seed: Node, t: Node, k: nat) returns (from: Node)
    requires k > 0 && t in Level(Down, table, seed, k)
    ensures t.parent == Some(from.id) && from in Level(Down, table, seed, k - 1)
    ensures k > 1 ==> from in table
  {
    var before := Level(Down, table, seed, k - 1);
    StepIn(Down, table, before, t);
    var i :| 0 <= i < |before| && Joins(Down, before[i], t);
    from := before[i];
    if k > 1 {
      LevelInTable(Down, table, seed, k - 1, from);
    }
  }

  lemma LevelInTable(dir: Direction, table: seq<Node>, seed: Node, k: nat, t: Node)
    requires k > 0 && t in Level(dir, table, seed, k)
    ensures t in table
  {
    StepIn(dir, table, Level(dir, table, seed, k - 1), t);
  }

  lemma UpDeterministic(table: seq<Node>, seed: Node, t: Node, m: nat, n: nat)
    requires UniqueIds(table) && m < n
    requires t in Level(Up, table, seed, m) && t in Level(Up, table, seed, n)
    ensures ReachesCycle(Up, table, seed)
  {
    hide Level, Joins, ReachesCycle, UniqueIds;
    LevelIsPaths(Up, table, seed, m, t);
    LevelIsPaths(Up, table, seed, n, t);
    var p :| |p| == n + 1 && p[0] == seed && p[n] == t && Path(Up, table, p);
    assert Path(Up, table, p[..m + 1]) && p[..m + 1][m] == p[m];
    assert PathTo(Up, table, seed, p[m], m);
    LevelIsPaths(Up, table, seed, m, p[m]);
    LevelDistinct(Up, table, seed, m);
    assert p[m] == t;
    RepeatIsCycle(Up, table, p, m, n);
  }

  ghost predicate DistinctNodes(rows: seq<Reached>) {
    forall i, j :: 0 <= i < j < |rows| ==> rows[i].node != rows[j].node
  }

  /** Each reachable row appears exactly once in the result. */
  lemma ResultHasNoDuplicates(dir: Direction, table: seq<Node>, seed: Node, rows: seq<Reached>)
    requires UniqueIds(table) && !ReachesCycle(dir, table, seed)
    requires IsResult(dir, table, seed, rows)
    ensures DistinctNodes(rows)
  {
    hide Level, Rows, DepthOrdered, UniqueIds, ReachesCycle;
    var k: nat :| Level(dir, table, seed, k + 1) == [] && multiset(rows) == multiset(Rows(dir, table, seed, k));
    RowsDistinct(dir, table, seed, k);
    DistinctNodesPermute(Rows(dir, table, seed, k), rows);
  }

  lemma DistinctNodesPermute(a: seq<Reached>, b: seq<Reached>)
    requires DistinctNodes(a) && multiset(a) == multiset(b)
    ensures DistinctNodes(b)
  {
    DistinctCounts(a);
    DistinctCounts(b);
    forall x | x in b ensures multiset(b)[x] == 1 {
      assert x in multiset(b) && x in a;
    }
    forall i, j | 0 <= i < j < |b| ensures b[i].node != b[j].node {
      assert b[i] in multiset(b) && b[j] in multiset(b);
      assert b[i] in a && b[j] in a && b[i] != b[j];
    }
  }

  lemma DistinctNodesConcat(a: seq<Reached>, b: seq<Reached>)
    requires DistinctNodes(a) && DistinctNodes(b)
    requires forall i, j :: 0 <= i < |a| && 0 <= j < |b| ==> a[i].node != b[j].node
    ensures DistinctNodes(a + b)
  {
  }

  lemma {:induction false} RowsDistinct(dir: Direction, table: seq<Node>, seed: Node, k: nat)
    requires UniqueIds(table) && !ReachesCycle(dir, table, seed)
    ensures DistinctNodes(Rows(dir, table, seed, k))
  {
    hide UniqueIds, ReachesCycle, Level;
    if k > 0 {
      RowsDistinct(dir, table, seed, k - 1);
      LevelDistinct(dir, table, seed, k);
      var before, level := Rows(dir, table, seed, k - 1), Level(dir, table, seed, k);
      var tagged := Tagged(level, seed.id, k);
      forall i, j | 0 <= i < |before| && 0 <= j < |tagged| ensures before[i].node != tagged[j].node {
        assert before[i] in before && level[j] in level;
        RowsIn(dir, table, seed, k - 1, before[i]);
        if before[i].node == level[j] {
          OneDepth(dir, table, seed, level[j], before[i].depth, k);
        }
      }
      DistinctNodesConcat(before, tagged);
    }
  }

  // --- many roots in one query -----------------------------------------------------------

  /** The anchor of the batched query: every stored row whose id was asked for, as its own root. */
  function Anchors(table: seq<Node>, ids: seq<int>): seq<Reached> {
    if table == [] then []
    else
      (if table[0].id in ids then [Reached(table[0], table[0].id, 0)] else []) + Anchors(table[1..], ids)
  }

  function BatchStep(dir: Direction, table: seq<Node>, frontier: seq<Reached>): seq<Reached> {
    if frontier == [] then []
    else
      var f := frontier[0];
      Tagged(Filter(Neighbours(dir, f.node), table), f.root, f.depth + 1) + BatchStep(dir, table, frontier[1..])
  }

  function BatchLevel(dir: Direction, table: seq<Node>, ids: seq<int>, k: nat): seq<Reached> {
    if k == 0 then Anchors(table, ids) else BatchStep(dir, table, BatchLevel(dir, table, ids, k - 1))
  }

  /** UNION ALL of the iterations 0..k. */
  function BatchRows(dir: Direction, table: seq<Node>, ids: seq<int>, k: nat): seq<Reached> {
    if k == 0 then BatchLevel(dir, table, ids, 0)
    else BatchRows(dir, table, ids, k - 1) + BatchLevel(dir, table, ids, k)
  }

  function Deep(): Reached -> bool {
    (r: Reached) => r.depth > 0
  }

  function FromRoot(root: int): Reached -> bool {
    (r: Reached) => r.root == root
  }

  /** The batched result, in any order: all iterations up to an empty one, seeds dropped. */
  ghost predicate IsBatchResult(dir: Direction, table: seq<Node>, ids: seq<int>, rows: seq<Reached>) {
    exists k: nat ::
      && BatchLevel(dir, table, ids, k + 1) == []
      && multiset(rows) == multiset(Filter(Deep(), BatchRows(dir, table, ids, k)))
  }

  lemma {:induction false} AnchorsPerRoot(table: seq<Node>, ids: seq<int>, root: Node)
    requires UniqueIds(table) && root in table && root.id in ids
    ensures Filter(FromRoot(root.id), Anchors(table, ids)) == Tagged([root], root.id, 0)
  {
    var rest := table[1..];
    assert forall i :: 0 <= i < |rest| ==> rest[i] == table[i + 1];
    var first := if table[0].id in ids then [Reached(table[0], table[0].id, 0)] else [];
    FilterConcat(FromRoot(root.id), first, Anchors(rest, ids));
    if table[0] == root {
      AnchorsElsewhere(rest, ids, root.id);
      assert first[1..] == [];
    } else {
      assert root in rest;
      var i :| 0 <= i < |rest| && rest[i] == root;
      assert table[0].id != table[i + 1].id;
      AnchorsPerRoot(rest, ids, root);
      FilterNone(FromRoot(root.id), first);
    }
  }

  lemma {:induction false} AnchorsElsewhere(table: seq<Node>, ids: seq<int>, root: int)
    requires forall i :: 0 <= i < |table| ==> table[i].id != root
    ensures Filter(FromRoot(root), Anchors(table, ids)) == []
  {
    if table != [] {
      var first := if table[0].id in ids then [Reached(table[0], table[0].id, 0)] else [];
      AnchorsElsewhere(table[1..], ids, root);
      FilterConcat(FromRoot(root), first, Anchors(table[1..], ids));
      FilterNone(FromRoot(root), first);
    }
  }

  lemma BatchStepCons(dir: Direction, table: seq<Node>, f: Reached, frontier: seq<Reached>)
    ensures BatchStep(dir, table, [f] + frontier) ==
            Tagged(Filter(Neighbours(dir, f.node), table), f.root, f.depth + 1) +
            BatchStep(dir, table, frontier)
  {
    assert ([f] + frontier)[1..] == frontier;
  }

  /** A step keeps the roots apart. */
  lemma {:induction false} BatchStepPerRoot(dir: Direction, table: seq<Node>, frontier: seq<Reached>, root: int)
    ensures Filter(FromRoot(root), BatchStep(dir, table, frontier)) ==
            BatchStep(dir, table, Filter(FromRoot(root), frontier))
  {
    hide Joins, Neighbours;
    if frontier != [] {
      var f := frontier[0];
      var first := Tagged(Filter(Neighbours(dir, f.node), table), f.root, f.depth + 1);
      BatchStepPerRoot(dir, table, frontier[1..], root);
      FilterConcat(FromRoot(root), first, BatchStep(dir, table, frontier[1..]));
      if f.root == root {
        FilterAll(FromRoot(root), first);
        BatchStepCons(dir, table, f, Filter(FromRoot(root), frontier[1..]));
      } else {
        FilterNone(FromRoot(root), first);
      }
    }
  }

  lemma {:induction false} BatchStepTagged(dir: Direction, table: seq<Node>, nodes: seq<Node>, root: int, depth: nat)
    ensures BatchStep(dir, table, Tagged(nodes, root, depth)) == Tagged(Step(dir, table, nodes), root, depth + 1)
  {
    if nodes != [] {
      assert Tagged(nodes, root, depth)[1..] == Tagged(nodes[1..], root, depth);
      BatchStepTagged(dir, table, nodes[1..], root, depth);
    }
  }

  /** At every iteration the rows of one root are the iteration of that root's own query. */
  lemma {:induction false} BatchLevelPerRoot(dir: Direction, table: seq<Node>, ids: seq<int>, root: Node, k: nat)
    requires UniqueIds(table) && root in table && root.id in ids
    ensures Filter(FromRoot(root.id), BatchLevel(dir, table, ids, k)) ==
            Tagged(Level(dir, table, root, k), root.id, k)
  {
    hide Filter, Step, BatchStep, Anchors, Joins, Tagged;
    if k == 0 {
      AnchorsPerRoot(table, ids, root);
    } else {
      BatchLevelPerRoot(dir, table, ids, root, k - 1);
      BatchStepPerRoot(dir, table, BatchLevel(dir, table, ids, k - 1), root.id);
      BatchStepTagged(dir, table, Level(dir, table, root, k - 1), root.id, k - 1);
    }
  }

  lemma {:induction false} BatchDepth(dir: Direction, table: seq<Node>, ids: seq<int>, k: nat, r: Reached)
    requires r in BatchLevel(dir, table, ids, k)
    ensures r.depth == k
    ensures exists t :: t in table && t.id == r.root && r.root in ids
  {
    if k == 0 {
      AnchorsIn(table, ids, r);
    } else {
      BatchStepIn(dir, table, BatchLevel(dir, table, ids, k - 1), r);
      var i :| 0 <= i < |BatchLevel(dir, table, ids, k - 1)|
               && r.root == BatchLevel(dir, table, ids, k - 1)[i].root
               && r.depth == BatchLevel(dir, table, ids, k - 1)[i].depth + 1;
      BatchDepth(dir, table, ids, k - 1, BatchLevel(dir, table, ids, k - 1)[i]);
    }
  }

  lemma {:induction false} AnchorsIn(table: seq<Node>, ids: seq<int>, r: Reached)
    requires r in Anchors(table, ids)
    ensures r.depth == 0 && r.node in table && r.root == r.node.id && r.root in ids
  {
    if table[0].id in ids && r == Reached(table[0], table[0].id, 0) {
    } else {
      AnchorsIn(table[1..], ids, r);
    }
  }

  lemma {:induction false} BatchStepIn(dir: Direction, table: seq<Node>, frontier: seq<Reached>, r: Reached)
    requires r in BatchStep(dir, table, frontier)
    ensures exists i :: 0 <= i < |frontier| && r.root == frontier[i].root && r.depth == frontier[i].depth + 1
  {
    var f := frontier[0];
    var first := Tagged(Filter(Neighbours(dir, f.node), table), f.root, f.depth + 1);
    if r in first {
      assert r.root == frontier[0].root;
    } else {
      BatchStepIn(dir, table, frontier[1..], r);
      var i :| 0 <= i < |frontier[1..]| && r.root == frontier[1..][i].root && r.depth == frontier[1..][i].depth + 1;
      assert frontier[i + 1] == frontier[1..][i];
    }
  }

  lemma {:induction false} BatchRowsPerRoot(dir: Direction, table: seq<Node>, ids: seq<int>, root: Node, k: nat)
    requires UniqueIds(table) && root in table && root.id in ids
    ensures Filter(FromRoot(root.id), Filter(Deep(), BatchRows(dir, table, ids, k))) ==
            Rows(dir, table, root, k)
  {
    hide BatchLevel, Level, Filter, FromRoot, UniqueIds, Tagged;
    var level := BatchLevel(dir, table, ids, k);
    BatchLevelPerRoot(dir, table, ids, root, k);
    if k == 0 {
      forall r | r in level ensures !Deep()(r) { BatchDepth(dir, table, ids, 0, r); }
      FilterNone(Deep(), level);
    } else {
      var before := BatchRows(dir, table, ids, k - 1);
      BatchRowsPerRoot(dir, table, ids, root, k - 1);
      FilterConcat(Deep(), before, level);
      forall r | r in level ensures Deep()(r) { BatchDepth(dir, table, ids, k, r); }
      FilterAll(Deep(), level);
      FilterConcat(FromRoot(root.id), Filter(Deep(), before), level);
    }
  }

  lemma {:induction false} RowsStable(dir: Direction, table: seq<Node>, seed: Node, k: nat, n: nat)
    requires Level(dir, table, seed, k + 1) == [] && k <= n
    ensures Rows(dir, table, seed, n) == Rows(dir, table, seed, k)
  {
    if k < n {
      RowsStable(dir, table, seed, k, n - 1);
      EmptyStaysEmpty(dir, table, seed, k + 1, n);
    }
  }

  /** The batched rows of one root are the rows of that root's own query, which has ended too. */
  lemma BatchOfRoot(dir: Direction, table: seq<Node>, ids: seq<int>, root: Node, batch: seq<Reached>)
    returns (k: nat)
    requires UniqueIds(table) && root in table && root.id in ids && IsBatchResult(dir, table, ids, batch)
    ensures Level(dir, table, root, k + 1) == []
    ensures multiset(Filter(FromRoot(root.id), batch)) == multiset(Rows(dir, table, root, k))
  {
    hide Filter, Level, BatchLevel, Rows, BatchRows, FromRoot, Deep, UniqueIds;
    k :| BatchLevel(dir, table, ids, k + 1) == []
         && multiset(batch) == multiset(Filter(Deep(), BatchRows(dir, table, ids, k)));
    FilterMultiset(FromRoot(root.id), batch, Filter(Deep(), BatchRows(dir, table, ids, k)));
    BatchRowsPerRoot(dir, table, ids, root, k);
    BatchLevelPerRoot(dir, table, ids, root, k + 1);
    assert |Tagged(Level(dir, table, root, k + 1), root.id, k + 1)| == 0;
  }

  /** From the same first iteration the walks go on alike. */
  lemma {:induction false} SameWalk(dir: Direction, table: seq<Node>, a: Node, b: Node, k: nat)
    requires a.id == b.id && Level(dir, table, a, 1) == Level(dir, table, b, 1)
    ensures Rows(dir, table, a, k) == Rows(dir, table, b, k)
    ensures k > 0 ==> Level(dir, table, a, k) == Level(dir, table, b, k)
  {
    if k > 0 {
      SameWalk(dir, table, a, b, k - 1);
    }
  }

  /** What a parent in memory and its stored row start from is the same: down, by their common id; up,
      by parent columns that agree or that both name no stored row. */
  predicate StartsAlike(dir: Direction, table: seq<Node>, a: Node, b: Node) {
    dir == Down || a.parent == b.parent ||
    forall i :: 0 <= i < |table| ==> Some(table[i].id) != a.parent && Some(table[i].id) != b.parent
  }

  lemma FirstLevel(dir: Direction, table: seq<Node>, seed: Node, t: Node)
    ensures Level(dir, table, seed, 1) == Filter(Neighbours(dir, seed), table)
    ensures t in Level(dir, table, seed, 1) <==> t in table && Joins(dir, seed, t)
  {
    var seeds := [seed];
    assert seeds[1..] == [] && Step(dir, table, []) == [];
    assert Level(dir, table, seed, 0) == seeds;
    FilterIn(Neighbours(dir, seed), table, t);
  }

  lemma AlikeIffSameFirstLevel(dir: Direction, table: seq<Node>, a: Node, b: Node)
    requires a.id == b.id
    ensures StartsAlike(dir, table, a, b) ==> Level(dir, table, a, 1) == Level(dir, table, b, 1)
    ensures !StartsAlike(dir, table, a, b) ==>
              exists t :: (t in Level(dir, table, a, 1)) != (t in Level(dir, table, b, 1))
  {
    FirstLevel(dir, table, a, a);
    FirstLevel(dir, table, b, b);
    hide Level, Filter;
    if StartsAlike(dir, table, a, b) {
      FilterExt(Neighbours(dir, a), Neighbours(dir, b), table);
    } else {
      var i :| 0 <= i < |table| && (Some(table[i].id) == a.parent || Some(table[i].id) == b.parent);
      FirstLevel(dir, table, a, table[i]);
      FirstLevel(dir, table, b, table[i]);
    }
  }

  /** The batched walk, regrouped by root, gives a parent with a stored row exactly the rows and depths of
      its own recursive query, if and only if the two start alike. Down, and for a parent whose column is
      as stored, they always do. */
  lemma BatchEqualsOwn(dir: Direction, table: seq<Node>, ids: seq<int>, stored: Node, parent: Node,
                       batch: seq<Reached>, own: seq<Reached>)
    requires UniqueIds(table) && stored in table && parent.id == stored.id && parent.id in ids
    requires IsBatchResult(dir, table, ids, batch) && IsResult(dir, table, parent, own)
    ensures multiset(Filter(FromRoot(parent.id), batch)) == multiset(own) <==> StartsAlike(dir, table, parent, stored)
  {
    hide Filter, Level, BatchLevel, Rows, FromRoot, UniqueIds, DepthOrdered, StartsAlike, IsBatchResult;
    var k := BatchOfRoot(dir, table, ids, stored, batch);
    var n: nat :| Level(dir, table, parent, n + 1) == [] && multiset(own) == multiset(Rows(dir, table, parent, n));
    var m := if k < n then n else k;
    RowsStable(dir, table, stored, k, m);
    RowsStable(dir, table, parent, n, m);
    AlikeIffSameFirstLevel(dir, table, parent, stored);
    if StartsAlike(dir, table, parent, stored) {
      SameWalk(dir, table, parent, stored, m);
    } else {
      var t :| (t in Level(dir, table, parent, 1)) != (t in Level(dir, table, stored, 1));
      RowsStable(dir, table, stored, k, m + 1);
      RowsStable(dir, table, parent, n, m + 1);
      DifferAt(dir, table, parent, stored, m + 1, t);
    }
  }

  lemma DifferAt(dir: Direction, table: seq<Node>, a: Node, b: Node, k: nat, t: Node)
    requires a.id == b.id && k >= 1 && (t in Level(dir, table, a, 1)) != (t in Level(dir, table, b, 1))
    ensures multiset(Rows(dir, table, a, k)) != multiset(Rows(dir, table, b, k))
  {
    hide Level, Rows;
    var r := Reached(t, a.id, 1);
    RowsIn(dir, table, a, k, r);
    RowsIn(dir, table, b, k, r);
    assert r in multiset(Rows(dir, table, a, k)) <==> r in Rows(dir, table, a, k);
    assert r in multiset(Rows(dir, table, b, k)) <==> r in Rows(dir, table, b, k);
  }

  /** The batched query terminates when every stored parent's own query does. */
  lemma BatchTerminates(dir: Direction, table: seq<Node>, ids: seq<int>)
    requires UniqueIds(table)
    requires forall t :: t in table && t.id in ids ==> !ReachesCycle(dir, table, t)
    ensures BatchLevel(dir, table, ids, |table| + 1) == []
  {
    var level := BatchLevel(dir, table, ids, |table| + 1);
    if level != [] {
      var r := level[0];
      BatchDepth(dir, table, ids, |table| + 1, r);
      var t :| t in table && t.id == r.root && r.root in ids;
      NoCycleTerminates(dir, table, t);
      BatchLevelPerRoot(dir, table, ids, t, |table| + 1);
      FilterIn(FromRoot(t.id), level, r);
    }
  }

  /** A parent whose row is gone gets nothing from the batched walk, while its own query still finds
      the rows left pointing at it: the two agree exactly when there are none. */
  lemma GoneParent(dir: Direction, table: seq<Node>, ids: seq<int>, gone: Node,
                   batch: seq<Reached>, own: seq<Reached>)
    requires forall t :: t in table ==> t.id != gone.id
    requires IsBatchResult(dir, table, ids, batch) && IsResult(dir, table, gone, own)
    ensures Filter(FromRoot(gone.id), batch) == []
    ensures own == [] <==> Level(dir, table, gone, 1) == []
  {
    var k: nat :| BatchLevel(dir, table, ids, k + 1) == []
                  && multiset(batch) == multiset(Filter(Deep(), BatchRows(dir, table, ids, k)));
    forall r | r in batch ensures !FromRoot(gone.id)(r) {
      assert r in multiset(batch);
      FilterIn(Deep(), BatchRows(dir, table, ids, k), r);
      BatchRoots(dir, table, ids, k, r);
    }
    FilterNone(FromRoot(gone.id), batch);
    var n: nat :| Level(dir, table, gone, n + 1) == [] && multiset(own) == multiset(Rows(dir, table, gone, n));
    if Level(dir, table, gone, 1) == [] {
      RowsStable(dir, table, gone, 0, n);
      assert |own| == |multiset(own)|;
    } else {
      var t := Level(dir, table, gone, 1)[0];
      RowsIn(dir, table, gone, n, Reached(t, gone.id, 1));
      assert Reached(t, gone.id, 1) in multiset(own);
    }
  }

  /** For example one child left behind: the lone query finds it, the batched one has no anchor. */
  lemma LeftBehind(parent: int, child: int)
    requires parent != child
    ensures var (table, gone) := ([Node(child, Some(parent))], Node(parent, None));
            && Level(Down, table, gone, 1) == table && Anchors(table, [parent]) == []
  {
    var (table, gone) := ([Node(child, Some(parent))], Node(parent, None));
    FirstLevel(Down, table, gone, table[0]);
    FilterAll(Neighbours(Down, gone), table);
    assert table[1..] == [];
  }

  lemma {:induction false} BatchRoots(dir: Direction, table: seq<Node>, ids: seq<int>, k: nat, r: Reached)
    requires r in BatchRows(dir, table, ids, k)
    ensures exists t :: t in table && t.id == r.root
  {
    if r in BatchLevel(dir, table, ids, k) {
      BatchDepth(dir, table, ids, k, r);
    } else {
      BatchRoots(dir, table, ids, k - 1, r);
    }
  }

  // --- regrouping the batch ------------------------------------------------------------------

  lemma NothingFromRoot()
    ensures forall root :: Filter(FromRoot(root), []) == []
  {
  }

  /** Groups the batched rows by root, keeping their order, and hands every parent its group. */
  method EagerLoad(parents: seq<Node>, rows: seq<Reached>) returns (relations: seq<seq<Reached>>)
    ensures |relations| == |parents|
    ensures forall i :: 0 <= i < |parents| ==> relations[i] == Filter(FromRoot(parents[i].id), rows)
  {
    var grouped: map<int, seq<Reached>> := map[];
    var i := 0;
    NothingFromRoot();
    hide Filter;
    while i < |rows|
      invariant 0 <= i <= |rows|
      invariant forall root :: Filter(FromRoot(root), rows[..i]) ==
                               if root in grouped then grouped[root] else []
    {
      var row := rows[i];
      ghost var before := grouped;
      grouped := grouped[row.root := (if row.root in grouped then grouped[row.root] else []) + [row]];
      assert rows[..i + 1] == rows[..i] + [row];
      forall root ensures Filter(FromRoot(root), rows[..i + 1]) ==
                          if root in grouped then grouped[root] else []
      {
        FilterConcat(FromRoot(root), rows[..i], [row]);
        FilterSingle(FromRoot(root), row);
      }
      i := i + 1;
    }
    assert rows[..i] == rows;
    relations := [];
    var j := 0;
    while j < |parents|
      invariant 0 <= j <= |parents| && |relations| == j
      invariant forall n :: 0 <= n < j ==> relations[n] == Filter(FromRoot(parents[n].id), rows)
    {
      var root := parents[j].id;
      relations := relations + [if root in grouped then grouped[root] else []];
      j := j + 1;
    }
  }
}
