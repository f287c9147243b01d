/** Attaching, detaching, syncing and toggling: what each does to every pair of the pivot table. */
module PivotSync {
  import opened Seqs
  import opened EagerLoading
  import opened Pivots

  /** A pivot row's columns that are not NULL. */
  type Columns = map<string, int>

  /** Values given for some columns; None stores NULL. */
  type Given = map<string, Option<int>>

  /** `sync`'s argument, as the list of entries of the mapping; a bare id carries no columns. */
  type Wanted = seq<(int, Given)>

  /** Stores every given value and leaves every other column as it was. */
  function Store(columns: Columns, given: Given): Columns {
    map k | k in columns.Keys + given.Keys && (if k in given then given[k].Some? else k in columns)
      :: if k in given then given[k].value else columns[k]
  }

  lemma StoredValue(columns: Columns, given: Given, k: string)
    ensures Get(Store(columns, given), k) == if k in given then given[k] else Get(columns, k)
  {
  }

  lemma StoredAlready(columns: Columns, given: Given)
    ensures Store(columns, given) == columns <==> !Differs(columns, given)
    ensures !Differs(Store(columns, given), given)
  {
    forall k ensures Get(Store(columns, given), k) == if k in given then given[k] else Get(columns, k) {
      StoredValue(columns, given, k);
    }
    if !Differs(columns, given) {
      forall k ensures Get(Store(columns, given), k) == Get(columns, k) {}
      SameColumns(Store(columns, given), columns);
    }
  }

  lemma SameColumns(a: Columns, b: Columns)
    requires forall k :: Get(a, k) == Get(b, k)
    ensures a == b
  {
    forall k ensures k in a <==> k in b {
      assert Get(a, k) == Get(b, k);
    }
    forall k | k in a ensures a[k] == b[k] {
      assert Get(a, k) == Get(b, k);
    }
  }

  function IsPair(p: int, r: int): Link -> bool {
    (l: Link) => l.pid == p && l.rid == r
  }

  /** The rows that link parent `p` with related id `r`. */
  function Pair(rows: seq<Link>, p: int, r: int): seq<Link> {
    Filter(IsPair(p, r), rows)
  }

  function NotPair(p: int, r: int): Link -> bool {
    (l: Link) => !(l.pid == p && l.rid == r)
  }

  function Merge(values: Given): Link -> Link {
    (l: Link) => l.(columns := Store(l.columns, values))
  }

  // --- what the three statements do to each pair ---------------------------------------------

  lemma AttachPair(rows: seq<Link>, l: Link, p: int, r: int)
    ensures Pair(rows + [l], p, r) == Pair(rows, p, r) + if IsPair(p, r)(l) then [l] else []
  {
    FilterConcat(IsPair(p, r), rows, [l]);
    FilterSingle(IsPair(p, r), l);
  }

  lemma DetachPair(rows: seq<Link>, p: int, r: int, p': int, r': int)
    ensures Pair(Filter(NotPair(p, r), rows), p', r') == if (p', r') == (p, r) then [] else Pair(rows, p', r')
  {
    var none: Link -> bool := (l: Link) => false;
    if (p', r') == (p, r) {
      FilterTwice(NotPair(p, r), IsPair(p', r'), none, rows);
      FilterNone(none, rows);
    } else {
      FilterTwice(NotPair(p, r), IsPair(p', r'), IsPair(p', r'), rows);
    }
  }

  lemma PairOfNothing(p: int, r: int)
    ensures Pair([], p, r) == []
  {
  }

  lemma MapCons(values: Given, l: Link, rest: seq<Link>)
    ensures Map(Merge(values), [l] + rest) == [Merge(values)(l)] + Map(Merge(values), rest)
  {
  }

  lemma {:induction false} UpdatePair(rows: seq<Link>, p: int, r: int, values: Given, p': int, r': int)
    ensures Pair(Update(rows, IsPair(p, r), Merge(values)), p', r') ==
            if (p', r') == (p, r) then Map(Merge(values), Pair(rows, p', r')) else Pair(rows, p', r')
  {
    if rows != [] {
      UpdatePair(rows[1..], p, r, values, p', r');
      assert Update(rows, IsPair(p, r), Merge(values))[1..] == Update(rows[1..], IsPair(p, r), Merge(values));
      hide Map;
      MapCons(values, rows[0], Pair(rows[1..], p', r'));
    }
  }

  // --- sync -------------------------------------------------------------------------------------

  /** Some given column is not stored with the given value. */
  predicate Differs(stored: Columns, given: Given) {
    exists k :: k in given && Get(stored, k) != given[k]
  }

  predicate NeedsUpdate(pair: seq<Link>, given: Given) {
    pair != [] && Differs(pair[|pair| - 1].columns, given)
  }

  /** What `sync` makes of one pair of its parent. */
  function Synced(pair: seq<Link>, p: int, r: int, wanted: map<int, Given>, detaching: bool): seq<Link> {
    if r in wanted then
      if pair == [] then [Link(p, r, Store(map[], wanted[r]))]
      else if NeedsUpdate(pair, wanted[r]) then Map(Merge(wanted[r]), pair)
      else pair
    else if detaching then []
    else pair
  }

  /** The dict a list of entries makes: the last entry of an id gives its columns. */
  function Dict(wanted: Wanted): map<int, Given> {
    if wanted == [] then map[]
    else Dict(wanted[..|wanted| - 1])[wanted[|wanted| - 1].0 := wanted[|wanted| - 1].1]
  }

  lemma {:induction false} DictKeys(wanted: Wanted, r: int)
    ensures r in Dict(wanted) <==> exists i :: 0 <= i < |wanted| && wanted[i].0 == r
  {
    if wanted != [] {
      var n := |wanted| - 1;
      DictKeys(wanted[..n], r);
      if r in Dict(wanted[..n]) {
        var i :| 0 <= i < n && wanted[..n][i].0 == r;
        assert wanted[i].0 == r;
      }
      if i :| 0 <= i < n && wanted[i].0 == r { assert wanted[..n][i].0 == r; }
    }
  }

  /** Entry `i` of the list is the last one of its id. */
  ghost predicate LastOfId(wanted: Wanted, i: nat)
    requires i < |wanted|
  {
    forall j :: i < j < |wanted| ==> wanted[j].0 != wanted[i].0
  }

  lemma {:induction false} DictValue(wanted: Wanted, i: nat)
    requires i < |wanted| && LastOfId(wanted, i)
    ensures Get(Dict(wanted), wanted[i].0) == Some(wanted[i].1)
  {
    var n := |wanted| - 1;
    if i < n {
      assert wanted[n].0 != wanted[i].0;
      DictValue(wanted[..n], i);
    }
  }

  /** After a sync the attached ids are exactly the wanted ones, joined by the existing ones when it
      does not detach. */
  lemma SyncedIds(pair: seq<Link>, p: int, r: int, wanted: map<int, Given>, detaching: bool)
    ensures Synced(pair, p, r, wanted, detaching) != [] <==> r in wanted || (!detaching && pair != [])
  {
  }

  /** A wanted pair that occurs at most once ends up once, with every given value stored and every other
      column as it was. */
  lemma SyncedValues(pair: seq<Link>, p: int, r: int, wanted: map<int, Given>, detaching: bool)
    requires |pair| <= 1 && (pair != [] ==> IsPair(p, r)(pair[0])) && r in wanted
    ensures var before := if pair == [] then map[] else pair[0].columns;
            Synced(pair, p, r, wanted, detaching) == [Link(p, r, Store(before, wanted[r]))]
  {
    if pair != [] && !NeedsUpdate(pair, wanted[r]) {
      StoredAlready(pair[0].columns, wanted[r]);
    }
  }

  /** Whatever the table held, a second identical sync finds nothing to do. */
  lemma SyncedTwice(pair: seq<Link>, p: int, r: int, wanted: map<int, Given>, detaching: bool)
    ensures var once := Synced(pair, p, r, wanted, detaching);
            && Synced(once, p, r, wanted, detaching) == once
            && (r in wanted ==> once != [] && !NeedsUpdate(once, wanted[r]))
            && (r !in wanted && detaching ==> once == [])
  {
    if r in wanted {
      var before := if pair == [] then map[] else pair[|pair| - 1].columns;
      StoredAlready(before, wanted[r]);
      hide Store;
    }
  }

  /** The pairs of the parent with the ids done so far are synced, all others as before. */
  ghost predicate SyncedUpTo(before: seq<Link>, rows: seq<Link>, p: int, dict: map<int, Given>, done: seq<int>) {
    forall p', r :: Pair(rows, p', r) ==
      if p' == p && r in done then Synced(Pair(before, p, r), p, r, dict, false) else Pair(before, p', r)
  }

  ghost predicate Attaches(rows: seq<Link>, after: seq<Link>, p: int, r: int, given: Given) {
    forall p', r' :: Pair(after, p', r') ==
      Pair(rows, p', r') + if (p', r') == (p, r) then [Link(p, r, Store(map[], given))] else []
  }

  ghost predicate Detaches(rows: seq<Link>, after: seq<Link>, p: int, r: int) {
    forall p', r' :: Pair(after, p', r') == if (p', r') == (p, r) then [] else Pair(rows, p', r')
  }

  ghost predicate Updates(rows: seq<Link>, after: seq<Link>, p: int, r: int, values: Given) {
    forall p', r' :: Pair(after, p', r') ==
      if (p', r') == (p, r) then Map(Merge(values), Pair(rows, p', r')) else Pair(rows, p', r')
  }

  /** After the wanted ids, the extras are detached or left. */
  lemma SyncDone(before: seq<Link>, between: seq<Link>, after: seq<Link>, p: int, dict: map<int, Given>,
                 keys: seq<int>, ids: seq<int>, detaching: bool)
    requires (forall r :: r in keys <==> r in dict) && (forall r :: r in ids <==> Pair(before, p, r) != [])
    requires SyncedUpTo(before, between, p, dict, keys)
    requires if detaching then
               forall p', r :: Pair(after, p', r) ==
                 if p' == p && r in ids && r !in dict then [] else Pair(between, p', r)
             else after == between
    ensures IsSynced(before, after, p, dict, detaching)
  {
    hide Pair, NeedsUpdate;
  }

  lemma NothingSynced(rows: seq<Link>, p: int, dict: map<int, Given>)
    ensures SyncedUpTo(rows, rows, p, dict, [])
  {
  }

  lemma UpdateTest(pair: seq<Link>, given: Given)
    ensures NeedsUpdate(pair, given) <==> pair != [] && Differs(pair[|pair| - 1].columns, given)
  {
  }

  /** One wanted id takes its turn. */
  lemma SyncStep(before: seq<Link>, rows: seq<Link>, after: seq<Link>, p: int, dict: map<int, Given>,
                 done: seq<int>, r: int)
    requires SyncedUpTo(before, rows, p, dict, done) && r !in done && r in dict
    requires var pair := Pair(before, p, r);
             if pair == [] then Attaches(rows, after, p, r, dict[r])
             else if NeedsUpdate(pair, dict[r]) then Updates(rows, after, p, r, dict[r])
             else after == rows
    ensures SyncedUpTo(before, after, p, dict, done + [r])
  {
    hide Pair, Map, NeedsUpdate;
    forall p', r' ensures Pair(after, p', r') ==
      if p' == p && r' in done + [r] then Synced(Pair(before, p, r'), p, r', dict, false) else Pair(before, p', r')
    {
      assert r' in done + [r] <==> r' in done || r' == r;
    }
  }

  // --- toggle -------------------------------------------------------------------------------------

  function Copies(l: Link, n: nat): seq<Link> {
    seq(n, _ => l)
  }

  function Is(r: int): int -> bool {
    (x: int) => x == r
  }

  /** What `toggle` makes of one pair of its parent. */
  function Toggled(pair: seq<Link>, p: int, r: int, ids: seq<int>): seq<Link> {
    if Count(ids, Is(r)) == 0 then pair
    else if pair == [] then Copies(Link(p, r, map[]), Count(ids, Is(r)))
    else []
  }

  /** On ids toggling is symmetric difference, and toggling twice is the identity; it keeps a pair
      unique exactly when it was not missing and named twice. */
  lemma ToggledIds(pair: seq<Link>, p: int, r: int, ids: seq<int>)
    ensures var once := Toggled(pair, p, r, ids);
            && (once != [] <==> (r in ids) != (pair != []))
            && (Toggled(once, p, r, ids) != [] <==> pair != [])
            && (|pair| <= 1 ==> (|once| <= 1 <==> !(pair == [] && Count(ids, Is(r)) > 1)))
  {
    CountZero(ids, Is(r));
    if r in ids { assert Is(r)(r); }
  }

  ghost predicate ToggledUpTo(before: seq<Link>, rows: seq<Link>, p: int, done: seq<int>) {
    forall p', r :: Pair(rows, p', r) ==
      if p' == p then Toggled(Pair(before, p, r), p, r, done) else Pair(before, p', r)
  }

  /** Whether a related id is attached to the parent. */
  function Present(rows: seq<Link>, p: int): int -> bool {
    (r: int) => Pair(rows, p, r) != []
  }

  function Missing(rows: seq<Link>, p: int): int -> bool {
    (r: int) => Pair(rows, p, r) == []
  }

  lemma ToggledNothing(rows: seq<Link>, p: int)
    ensures ToggledUpTo(rows, rows, p, [])
  {
  }

  lemma ToggleLists(rows: seq<Link>, p: int, done: seq<int>, r: int)
    ensures Filter(Missing(rows, p), []) == [] && Filter(Present(rows, p), []) == []
    ensures Filter(Missing(rows, p), done + [r]) ==
            if Pair(rows, p, r) == [] then Filter(Missing(rows, p), done) + [r] else Filter(Missing(rows, p), done)
    ensures Filter(Present(rows, p), done + [r]) ==
            if Pair(rows, p, r) == [] then Filter(Present(rows, p), done) else Filter(Present(rows, p), done) + [r]
  {
    FilterConcat(Missing(rows, p), done, [r]);
    FilterConcat(Present(rows, p), done, [r]);
    FilterSingle(Missing(rows, p), r);
    FilterSingle(Present(rows, p), r);
  }

  /** One id takes its turn; whether it was attached at the start decides. */
  lemma ToggleStep(before: seq<Link>, rows: seq<Link>, after: seq<Link>, p: int, done: seq<int>, r: int)
    requires ToggledUpTo(before, rows, p, done)
    requires if Pair(before, p, r) == [] then Attaches(rows, after, p, r, map[]) else Detaches(rows, after, p, r)
    ensures ToggledUpTo(before, after, p, done + [r])
  {
    assert Store(map[], map[]) == map[];
    hide Pair, Count, Store;
    forall p', r' ensures Pair(after, p', r') ==
      if p' == p then Toggled(Pair(before, p, r'), p, r', done + [r]) else Pair(before, p', r')
    {
      CountAppend(done, r, Is(r'));
    }
  }

  datatype SyncResult = SyncResult(attached: seq<int>, detached: seq<int>, updated: seq<int>)

  // --- whole tables ------------------------------------------------------------------------------------

  /** What one `sync` leaves: every pair of the parent synced, every other pair as it was. */
  ghost predicate IsSynced(before: seq<Link>, after: seq<Link>, p: int, dict: map<int, Given>, detaching: bool) {
    forall p', r :: Pair(after, p', r) ==
      if p' == p then Synced(Pair(before, p, r), p, r, dict, detaching) else Pair(before, p', r)
  }

  /** What one call of `sync` does: its pairs, and its three lists, each without repeats. */
  ghost predicate DoesSync(before: seq<Link>, after: seq<Link>, p: int, dict: map<int, Given>, detaching: bool,
                           result: SyncResult)
  {
    && IsSynced(before, after, p, dict, detaching)
    && Distinct(result.attached) && Distinct(result.updated) && Distinct(result.detached)
    && (forall r :: r in result.attached <==> r in dict && Pair(before, p, r) == [])
    && (forall r :: r in result.updated <==> r in dict && NeedsUpdate(Pair(before, p, r), dict[r]))
    && (forall r :: r in result.detached <==> detaching && r !in dict && Pair(before, p, r) != [])
    && (result == SyncResult([], [], []) ==> after == before)
  }

  function AttachedIds(rows: seq<Link>, p: int): set<int> {
    set l | l in rows && l.pid == p :: l.rid
  }

  lemma AttachedIff(rows: seq<Link>, p: int, r: int)
    ensures r in AttachedIds(rows, p) <==> Pair(rows, p, r) != []
    ensures forall l :: l in Pair(rows, p, r) ==> IsPair(p, r)(l)
  {
    if r in AttachedIds(rows, p) {
      var l :| l in rows && l.pid == p && l.rid == r;
      FilterIn(IsPair(p, r), rows, l);
    }
    forall l | l in Pair(rows, p, r) ensures l in rows && IsPair(p, r)(l) {
      FilterIn(IsPair(p, r), rows, l);
    }
    if Pair(rows, p, r) != [] { assert Pair(rows, p, r)[0] in rows; }
  }

  ghost predicate UniquePairs(rows: seq<Link>) {
    forall p, r :: |Pair(rows, p, r)| <= 1
  }

  /** The attached ids are exactly the wanted ones, joined by the existing ones when nothing is
      detached; other parents keep theirs; pairs that were unique stay unique. */
  lemma SyncIds(before: seq<Link>, after: seq<Link>, p: int, dict: map<int, Given>, detaching: bool)
    requires IsSynced(before, after, p, dict, detaching)
    ensures AttachedIds(after, p) == dict.Keys + if detaching then {} else AttachedIds(before, p)
    ensures forall q :: q != p ==> AttachedIds(after, q) == AttachedIds(before, q)
    ensures UniquePairs(before) ==> UniquePairs(after)
  {
    hide Pair, Filter, Synced;
    forall r ensures r in AttachedIds(after, p) <==> r in dict || (!detaching && r in AttachedIds(before, p)) {
      AttachedIff(after, p, r);
      AttachedIff(before, p, r);
      SyncedIds(Pair(before, p, r), p, r, dict, detaching);
    }
    forall q | q != p ensures AttachedIds(after, q) == AttachedIds(before, q) {
      forall r ensures r in AttachedIds(after, q) <==> r in AttachedIds(before, q) {
        AttachedIff(after, q, r);
        AttachedIff(before, q, r);
      }
    }
    forall p', r | UniquePairs(before) ensures |Pair(after, p', r)| <= 1 {
      assert |Pair(before, p', r)| <= 1;
      SyncedSize(Pair(before, p', r), p, r, dict, detaching);
    }
  }

  lemma SyncedSize(pair: seq<Link>, p: int, r: int, dict: map<int, Given>, detaching: bool)
    ensures |Synced(pair, p, r, dict, detaching)| <= if |pair| <= 1 then 1 else |pair|
  {
  }

  /** With unique pairs, a wanted row stores every given value and keeps every column not given. */
  lemma SyncValues(before: seq<Link>, after: seq<Link>, p: int, dict: map<int, Given>, detaching: bool, r: int)
    requires IsSynced(before, after, p, dict, detaching) && UniquePairs(before) && r in dict
    ensures var pair := Pair(before, p, r);
            |Pair(after, p, r)| == 1
            && forall k :: Get(Pair(after, p, r)[0].columns, k) ==
                           if k in dict[r] then dict[r][k] else if pair == [] then None else Get(pair[0].columns, k)
  {
    hide Filter, Synced;
    var pair := Pair(before, p, r);
    forall k { StoredValue(if pair == [] then map[] else pair[0].columns, dict[r], k); }
    hide Store;
    assert |pair| <= 1;
    AttachedIff(before, p, r);
    if pair != [] { assert pair[0] in pair; }
    SyncedValues(pair, p, r, dict, detaching);
  }

  /** In terms of the list that was passed: the attached ids are the listed ones, joined by the existing
      ones when nothing is detached. */
  lemma SyncListIds(before: seq<Link>, after: seq<Link>, p: int, wanted: Wanted, detaching: bool, r: int)
    requires IsSynced(before, after, p, Dict(wanted), detaching)
    ensures r in AttachedIds(after, p) <==>
            (exists i :: 0 <= i < |wanted| && wanted[i].0 == r) || (!detaching && r in AttachedIds(before, p))
  {
    SyncIds(before, after, p, Dict(wanted), detaching);
    DictKeys(wanted, r);
  }

  /** In terms of the list that was passed: after a sync with unique pairs the row of a listed id holds every
      value of that id's last entry, and in every other column what it held before. */
  lemma SyncListValues(before: seq<Link>, after: seq<Link>, p: int, wanted: Wanted, detaching: bool, i: nat)
    requires IsSynced(before, after, p, Dict(wanted), detaching) && UniquePairs(before)
    requires i < |wanted| && LastOfId(wanted, i)
    ensures var (r, given) := wanted[i];
            var pair := Pair(before, p, r);
            && |Pair(after, p, r)| == 1
            && forall k :: Get(Pair(after, p, r)[0].columns, k) ==
                           if k in given then given[k] else if pair == [] then None else Get(pair[0].columns, k)
  {
    hide Pair, IsSynced;
    DictValue(wanted, i);
    SyncValues(before, after, p, Dict(wanted), detaching, wanted[i].0);
  }

  /** A second identical sync attaches, updates and detaches nothing and leaves the table as it is,
      whatever the first one found. */
  lemma SecondSyncIdle(before: seq<Link>, between: seq<Link>, after: seq<Link>, p: int, dict: map<int, Given>,
                       detaching: bool, first: SyncResult, second: SyncResult)
    requires DoesSync(before, between, p, dict, detaching, first)
    requires DoesSync(between, after, p, dict, detaching, second)
    ensures second == SyncResult([], [], []) && after == between
  {
    hide DoesSync;
    forall r ensures r !in second.attached && r !in second.updated && r !in second.detached {
      IdleAt(before, between, after, p, dict, detaching, first, second, r);
    }
    AllEmpty(second);
    EmptyMeansSame(between, after, p, dict, detaching, second);
  }

  lemma IdleAt(before: seq<Link>, between: seq<Link>, after: seq<Link>, p: int, dict: map<int, Given>,
               detaching: bool, first: SyncResult, second: SyncResult, r: int)
    requires DoesSync(before, between, p, dict, detaching, first)
    requires DoesSync(between, after, p, dict, detaching, second)
    ensures r !in second.attached && r !in second.updated && r !in second.detached
  {
    hide Pair, Synced, NeedsUpdate;
    SyncedTwice(Pair(before, p, r), p, r, dict, detaching);
  }

  lemma AllEmpty(result: SyncResult)
    requires forall r :: r !in result.attached
    requires forall r :: r !in result.updated
    requires forall r :: r !in result.detached
    ensures result == SyncResult([], [], [])
  {
    NoElement(result.attached);
    NoElement(result.updated);
    NoElement(result.detached);
  }

  lemma NoElement(ids: seq<int>)
    requires forall r :: r !in ids
    ensures ids == []
  {
    var r: int := if |ids| > 0 then ids[0] else 0;
    assert |ids| > 0 ==> r in ids;
  }

  lemma EmptyMeansSame(before: seq<Link>, after: seq<Link>, p: int, dict: map<int, Given>, detaching: bool,
                       result: SyncResult)
    requires DoesSync(before, after, p, dict, detaching, result) && result == SyncResult([], [], [])
    ensures after == before
  {
  }

  /** Toggling replaces the attached ids by the symmetric difference, whatever the list repeats; other
      parents keep theirs. Unique pairs stay unique exactly when no missing id is named twice. */
  lemma ToggleIds(before: seq<Link>, after: seq<Link>, p: int, ids: seq<int>)
    requires ToggledUpTo(before, after, p, ids)
    ensures forall r :: r in AttachedIds(after, p) <==> (r in ids) != (r in AttachedIds(before, p))
    ensures forall q :: q != p ==> AttachedIds(after, q) == AttachedIds(before, q)
    ensures UniquePairs(before) ==>
              (UniquePairs(after) <==> forall r :: r in AttachedIds(before, p) || Count(ids, Is(r)) <= 1)
  {
    hide Pair, Filter, Toggled, Count;
    forall r ensures r in AttachedIds(after, p) <==> (r in ids) != (r in AttachedIds(before, p)) {
      AttachedIff(after, p, r);
      AttachedIff(before, p, r);
      ToggledIds(Pair(before, p, r), p, r, ids);
    }
    forall q | q != p ensures AttachedIds(after, q) == AttachedIds(before, q) {
      forall r ensures r in AttachedIds(after, q) <==> r in AttachedIds(before, q) {
        AttachedIff(after, q, r);
        AttachedIff(before, q, r);
      }
    }
    if UniquePairs(before) {
      forall r ensures |Pair(after, p, r)| <= 1 <==> r in AttachedIds(before, p) || Count(ids, Is(r)) <= 1 {
        assert |Pair(before, p, r)| <= 1;
        AttachedIff(before, p, r);
        ToggledIds(Pair(before, p, r), p, r, ids);
      }
      forall q, r | q != p ensures |Pair(after, q, r)| <= 1 { assert |Pair(before, q, r)| <= 1; }
    }
  }

  /** Toggling the same ids twice attaches exactly the ids that were attached. */
  lemma ToggleTwice(before: seq<Link>, between: seq<Link>, after: seq<Link>, p: int, ids: seq<int>)
    requires ToggledUpTo(before, between, p, ids) && ToggledUpTo(between, after, p, ids)
    ensures AttachedIds(after, p) == AttachedIds(before, p)
  {
    ToggleIds(before, between, p, ids);
    ToggleIds(between, after, p, ids);
  }

  // --- the table --------------------------------------------------------------------------------------

  class PivotTable {
    var rows: seq<Link>

    constructor (initial: seq<Link>)
      ensures rows == initial
    {
      rows := initial;
    }

    method Attach(p: int, r: int, given: Given)
      modifies this
      ensures rows == old(rows) + [Link(p, r, Store(map[], given))]
      ensures Attaches(old(rows), rows, p, r, given)
    {
      forall p', r' { AttachPair(rows, Link(p, r, Store(map[], given)), p', r'); }
      rows := rows + [Link(p, r, Store(map[], given))];
    }

    method Detach(p: int, r: int)
      modifies this
      ensures Detaches(old(rows), rows, p, r)
    {
      forall p', r' { DetachPair(rows, p, r, p', r'); }
      rows := Filter(NotPair(p, r), rows);
    }

    method UpdateExisting(p: int, r: int, values: Given)
      modifies this
      ensures Updates(old(rows), rows, p, r, values)
    {
      forall p', r' { UpdatePair(rows, p, r, values, p', r'); }
      rows := Update(rows, IsPair(p, r), Merge(values));
    }

    /** The attached rows by related id, the last of each, and the ids in first-seen order. */
    method AttachedRows(p: int) returns (existing: map<int, Link>, ids: seq<int>)
      ensures forall r :: r in existing <==> Pair(rows, p, r) != []
      ensures forall r :: r in existing ==> existing[r] == Pair(rows, p, r)[|Pair(rows, p, r)| - 1]
      ensures Distinct(ids) && forall r :: r in ids <==> r in existing
    {
      hide Pair, Filter;
      existing, ids := map[], [];
      var i := 0;
      forall r { PairOfNothing(p, r); }
      while i < |rows|
        invariant 0 <= i <= |rows|
        invariant forall r :: r in existing <==> Pair(rows[..i], p, r) != []
        invariant forall r :: r in existing ==> existing[r] == Pair(rows[..i], p, r)[|Pair(rows[..i], p, r)| - 1]
        invariant Distinct(ids) && forall r :: r in ids <==> r in existing
      {
        var l := rows[i];
        assert rows[..i + 1] == rows[..i] + [l];
        forall r { AttachPair(rows[..i], l, p, r); }
        if l.pid == p {
          if l.rid !in existing { ids := ids + [l.rid]; }
          existing := existing[l.rid := l];
        }
        i := i + 1;
      }
      assert rows[..|rows|] == rows;
    }

    /** The dict of the wanted entries with its keys in insertion order. */
    method Normalise(wanted: Wanted) returns (dict: map<int, Given>, keys: seq<int>)
      ensures dict == Dict(wanted)
      ensures Distinct(keys) && forall r :: r in keys <==> r in dict
    {
      dict, keys := map[], [];
      var i := 0;
      while i < |wanted|
        invariant 0 <= i <= |wanted| && dict == Dict(wanted[..i])
        invariant Distinct(keys) && forall r :: r in keys <==> r in dict
      {
        assert wanted[..i + 1][..i] == wanted[..i];
        if wanted[i].0 !in dict { keys := keys + [wanted[i].0]; }
        dict := dict[wanted[i].0 := wanted[i].1];
        i := i + 1;
      }
      assert wanted[..|wanted|] == wanted;
    }

    /** Attaches what is missing, updates what differs, detaches the rest: each pair of the parent
        becomes `Synced`, each other pair stays, and the lists say exactly what was done. */
    method Sync(p: int, wanted: Wanted, detaching: bool) returns (result: SyncResult)
      modifies this
      ensures DoesSync(old(rows), rows, p, Dict(wanted), detaching, result)
    {
      hide Pair, Filter, NeedsUpdate, Synced, SyncedUpTo, IsSynced;
      var dict, keys := Normalise(wanted);
      var existing, ids := AttachedRows(p);
      ghost var before := rows;
      var attached, updated := AttachOrUpdate(p, dict, keys, existing);
      ghost var between := rows;
      var detached: seq<int> := [];
      if detaching {
        detached := DetachExtras(p, dict, ids);
      }
      result := SyncResult(attached, detached, updated);
      SyncDone(before, between, rows, p, dict, keys, ids, detaching);
    }

    method AttachOrUpdate(p: int, dict: map<int, Given>, keys: seq<int>, existing: map<int, Link>)
      returns (attached: seq<int>, updated: seq<int>)
      requires Distinct(keys) && forall r :: r in keys <==> r in dict
      requires forall r :: r in existing <==> Pair(rows, p, r) != []
      requires forall r :: r in existing ==> existing[r] == Pair(rows, p, r)[|Pair(rows, p, r)| - 1]
      modifies this
      ensures SyncedUpTo(old(rows), rows, p, dict, keys)
      ensures Distinct(attached) && Distinct(updated)
      ensures forall r :: r in attached <==> r in dict && Pair(old(rows), p, r) == []
      ensures forall r :: r in updated <==> r in dict && NeedsUpdate(Pair(old(rows), p, r), dict[r])
      ensures attached == [] && updated == [] ==> rows == old(rows)
    {
      hide Pair, Filter, Synced, NeedsUpdate, SyncedUpTo, Attaches, Updates;
      attached, updated := [], [];
      var i := 0;
      NothingSynced(rows, p, dict);
      while i < |keys|
        invariant 0 <= i <= |keys|
        invariant SyncedUpTo(old(rows), rows, p, dict, keys[..i])
        invariant Distinct(attached) && Distinct(updated)
        invariant forall r :: r in attached <==> r in keys[..i] && Pair(old(rows), p, r) == []
        invariant forall r :: r in updated <==> r in keys[..i] && NeedsUpdate(Pair(old(rows), p, r), dict[r])
        invariant attached == [] && updated == [] ==> rows == old(rows)
      {
        var r := keys[i];
        assert r in keys && r !in keys[..i] && keys[..i + 1] == keys[..i] + [r];
        ghost var pair, current := Pair(old(rows), p, r), rows;
        UpdateTest(pair, dict[r]);
        if r !in existing {
          Attach(p, r, dict[r]);
          attached := attached + [r];
        } else if Differs(existing[r].columns, dict[r]) {
          UpdateExisting(p, r, dict[r]);
          updated := updated + [r];
        }
        SyncStep(old(rows), current, rows, p, dict, keys[..i], r);
        i := i + 1;
      }
      assert keys[..|keys|] == keys;
    }

    method DetachExtras(p: int, dict: map<int, Given>, ids: seq<int>) returns (detached: seq<int>)
      requires Distinct(ids)
      modifies this
      ensures forall p', r :: Pair(rows, p', r) ==
                if p' == p && r in ids && r !in dict then [] else Pair(old(rows), p', r)
      ensures Distinct(detached) && forall r :: r in detached <==> r in ids && r !in dict
      ensures detached == [] ==> rows == old(rows)
    {
      hide Pair, Filter;
      detached := [];
      var i := 0;
      while i < |ids|
        invariant 0 <= i <= |ids|
        invariant forall p', r :: Pair(rows, p', r) ==
                    if p' == p && r in ids[..i] && r !in dict then [] else Pair(old(rows), p', r)
        invariant Distinct(detached) && forall r :: r in detached <==> r in ids[..i] && r !in dict
        invariant detached == [] ==> rows == old(rows)
      {
        var r := ids[i];
        assert r !in ids[..i] && ids[..i + 1] == ids[..i] + [r];
        if r !in dict {
          Detach(p, r);
          detached := detached + [r];
        }
        i := i + 1;
      }
      assert ids[..|ids|] == ids;
    }

    /** Which ids are present is read once, before the loop. */
    method Toggle(p: int, ids: seq<int>) returns (attached: seq<int>, detached: seq<int>)
      modifies this
      ensures ToggledUpTo(old(rows), rows, p, ids)
      ensures attached == Filter(Missing(old(rows), p), ids)
      ensures detached == Filter(Present(old(rows), p), ids)
    {
      hide Pair, Filter, Toggled, ToggledUpTo, Attaches, Detaches;
      var existing, _ := AttachedRows(p);
      attached, detached := [], [];
      var i := 0;
      ToggledNothing(rows, p);
      ToggleLists(rows, p, [], 0);
      while i < |ids|
        invariant 0 <= i <= |ids|
        invariant ToggledUpTo(old(rows), rows, p, ids[..i])
        invariant attached == Filter(Missing(old(rows), p), ids[..i])
        invariant detached == Filter(Present(old(rows), p), ids[..i])
      {
        var r := ids[i];
        assert ids[..i + 1] == ids[..i] + [r];
        ToggleLists(old(rows), p, ids[..i], r);
        ghost var current := rows;
        if r in existing {
          Detach(p, r);
          detached := detached + [r];
        } else {
          Attach(p, r, map[]);
          attached := attached + [r];
        }
        ToggleStep(old(rows), current, rows, p, ids[..i], r);
        i := i + 1;
      }
      assert ids[..|ids|] == ids;
    }
  }
}
