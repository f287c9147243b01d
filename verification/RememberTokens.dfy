/** Remember-me cookies: selector and validator, rotated on use by a conditional update. Stored hashes
    are written as the values they stand for. */
module RememberTokens {
  import opened Seqs

  datatype Row = Row(id: nat, selector: string, validator: string, user: int, expires: Option<int>)

  /** The row has an expiry and it is over. */
  predicate Past(row: Row, now: int) {
    row.expires.Some? && row.expires.value < now
  }

  /** What a successful recall returns: the user and the new validator. */
  datatype Grant = Grant(user: int, validator: string)

  datatype Call =
    | Presented(selector: string, validator: string)
      /** The row was read; it may have changed since. */
    | Seen(selector: string, validator: string, row: Row)
    | Finished(selector: string, validator: string, result: Option<Grant>)
      /** A logout between its SELECT and its DELETE. */
    | Clearing(row: Row)
    | Cleared

  /** `used` is history: every validator ever stored. */
  datatype State = State(rows: seq<Row>, nextId: nat, used: set<string>, calls: seq<Call>)

  datatype Event =
    | Issue(user: int, selector: string, validator: string, expires: int)
    | Present(cookie: string)
    | Advance(call: nat, now: int, secret: string)
    | Clear(cookie: string)
    | ClearAll(user: int)

  // --- the cookie -----------------------------------------------------------------------------

  function Colon(s: string): (k: nat)
    ensures k <= |s| && ':' !in s[..k] && (k < |s| ==> s[k] == ':')
  {
    if s == [] || s[0] == ':' then 0
    else
      var k := Colon(s[1..]);
      assert s[..k + 1] == [s[0]] + s[1..][..k];
      k + 1
  }

  lemma {:induction false} ColonIsFirst(s: string, k: nat)
    requires k < |s| && s[k] == ':' && ':' !in s[..k]
    ensures Colon(s) == k
  {
    if k > 0 {
      assert s[0] == s[..k][0];
      assert s[1..][..k - 1] == s[..k][1..];
      ColonIsFirst(s[1..], k - 1);
    }
  }

  function Cookie(selector: string, validator: string): string {
    selector + ":" + validator
  }

  /** `partition(":")`, with both parts required. */
  function Parse(cookie: string): Option<(string, string)> {
    var k := Colon(cookie);
    if k == 0 || k + 1 >= |cookie| then None else Some((cookie[..k], cookie[k + 1..]))
  }

  /** Reading a cookie back gives its parts, whatever the validator contains. */
  lemma ParseCookie(selector: string, validator: string)
    requires selector != [] && ':' !in selector && validator != []
    ensures Parse(Cookie(selector, validator)) == Some((selector, validator))
  {
    var cookie := Cookie(selector, validator);
    assert cookie[..|selector|] == selector;
    ColonIsFirst(cookie, |selector|);
    assert cookie[..|selector|] == selector && cookie[|selector| + 1..] == validator;
  }

  /** Only what `Cookie` can have written is accepted. */
  lemma ParseOnlyCookies(cookie: string)
    ensures Parse(cookie).Some? <==>
            exists selector: string, validator: string ::
              selector != [] && ':' !in selector && validator != [] && cookie == Cookie(selector, validator)
  {
    var k := Colon(cookie);
    if Parse(cookie).Some? {
      assert cookie == Cookie(cookie[..k], cookie[k + 1..]);
    }
    if selector: string, validator: string :|
      selector != [] && ':' !in selector && validator != [] && cookie == Cookie(selector, validator)
    {
      ParseCookie(selector, validator);
    }
  }

  // --- the table ---------------------------------------------------------------------------------

  function First(rows: seq<Row>, selector: string): (r: Option<Row>)
    ensures r.Some? ==> r.value in rows && r.value.selector == selector
    ensures r.None? ==> forall x :: x in rows ==> x.selector != selector
  {
    if rows == [] then None else if rows[0].selector == selector then Some(rows[0]) else First(rows[1..], selector)
  }

  function Exactly(selector: string, validator: string): Row -> bool {
    (r: Row) => r.selector == selector && r.validator == validator
  }

  function OtherThan(id: nat): Row -> bool {
    (r: Row) => r.id != id
  }

  function NotOf(user: int): Row -> bool {
    (r: Row) => r.user != user
  }

  function Holding(validator: string): Row -> bool {
    (r: Row) => r.validator == validator
  }

  function With(validator: string): Row -> Row {
    (r: Row) => r.(validator := validator)
  }

  function Delete(rows: seq<Row>, id: nat): seq<Row> {
    Filter(OtherThan(id), rows)
  }

  /** The conditional UPDATE of the rotation. */
  function Flip(rows: seq<Row>, selector: string, validator: string, secret: string): seq<Row> {
    Update(rows, Exactly(selector, validator), With(secret))
  }

  // --- one step ---------------------------------------------------------------------------------------

  function Step(st: State, e: Event): State {
    match e
    case Issue(u, selector, validator, expires) =>
      State(st.rows + [Row(st.nextId, selector, validator, u, Some(expires))], st.nextId + 1,
            st.used + {validator}, st.calls)
    case Present(cookie) =>
      var parsed := Parse(cookie);
      st.(calls := st.calls + [if parsed.None? then Finished([], [], None)
                               else Presented(parsed.value.0, parsed.value.1)])
    case Clear(cookie) =>
      var parsed := Parse(cookie);
      var row := if parsed.None? then None else First(st.rows, parsed.value.0);
      st.(calls := st.calls + [if row.None? then Cleared else Clearing(row.value)])
    case ClearAll(u) => st.(rows := Filter(NotOf(u), st.rows))
    case Advance(i, now, secret) => if i < |st.calls| then Proceed(st, i, now, secret) else st
  }

  function Proceed(st: State, i: nat, now: int, secret: string): State
    requires i < |st.calls|
  {
    match st.calls[i]
    case Presented(s, v) =>
      var row := First(st.rows, s);
      st.(calls := st.calls[i := if row.None? then Finished(s, v, None) else Seen(s, v, row.value)])
    case Seen(s, v, row) =>
      if Past(row, now) || row.validator != v then
        st.(rows := Delete(st.rows, row.id), calls := st.calls[i := Finished(s, v, None)])
      else if Count(st.rows, Exactly(s, v)) < 1 then
        st.(calls := st.calls[i := Finished(s, v, None)])
      else
        State(Flip(st.rows, s, v, secret), st.nextId, st.used + {secret},
              st.calls[i := Finished(s, v, Some(Grant(row.user, secret)))])
    case Clearing(row) => st.(rows := Delete(st.rows, row.id), calls := st.calls[i := Cleared])
    case Finished(_, _, _) => st
    case Cleared => st
  }

  /** Random values are new: a validator was never stored before, a selector is not in the table. */
  ghost predicate Legal(st: State, e: Event) {
    match e
    case Issue(_, selector, validator, _) => First(st.rows, selector).None? && validator !in st.used
    case Advance(i, _, secret) => i < |st.calls| && secret !in st.used
    case _ => true
  }

  function Run(events: seq<Event>, st: State): State {
    if events == [] then st else Run(events[1..], Step(st, events[0]))
  }

  ghost predicate LegalRun(events: seq<Event>, st: State) {
    events == [] || (Legal(st, events[0]) && LegalRun(events[1..], Step(st, events[0])))
  }

  const Empty := State([], 0, {}, [])

  // --- what every step keeps ---------------------------------------------------------------------------

  function WonWith(v: string): Call -> bool {
    (c: Call) => c.Finished? && c.result.Some? && c.validator == v
  }

  /** A validator is stored in one row, or has won one rotation, or neither. */
  ghost predicate SingleUse(st: State, v: string) {
    Count(st.rows, Holding(v)) + Count(st.calls, WonWith(v)) <= if v in st.used then 1 else 0
  }

  /** No two rows share an id or a selector. */
  ghost predicate Keyed(rows: seq<Row>) {
    rows == [] ||
    (First(rows[1..], rows[0].selector).None?
     && (forall r :: r in rows[1..] ==> r.id != rows[0].id)
     && Keyed(rows[1..]))
  }

  /** All of a row but its validator. */
  ghost predicate Same(a: Row, b: Row) {
    a == b.(validator := a.validator)
  }

  /** A row that was read: its id still means that row, and its validator is still only there. */
  ghost predicate Snapshot(st: State, row: Row) {
    && row.id < st.nextId
    && row.validator in st.used
    && forall r :: r in st.rows ==>
         (r.id == row.id ==> Same(r, row)) && (r.validator == row.validator ==> r.id == row.id)
  }

  ghost predicate CallOk(st: State, c: Call) {
    match c
    case Seen(s, _, row) => row.selector == s && Snapshot(st, row)
    case Clearing(row) => Snapshot(st, row)
    case _ => true
  }

  ghost predicate Valid(st: State) {
    && Keyed(st.rows)
    && (forall r :: r in st.rows ==> r.id < st.nextId)
    && (forall c :: c in st.calls ==> CallOk(st, c))
    && forall v: string :: SingleUse(st, v)
  }

  /** Whatever the table held before still has its selector, owner and expiry, or is gone. */
  ghost predicate Follows(before: State, after: State) {
    && before.nextId <= after.nextId
    && before.used <= after.used
    && forall r :: r in after.rows && r.id < before.nextId ==> exists b :: b in before.rows && Same(r, b)
  }

  // --- the statements -------------------------------------------------------------------------------------

  lemma {:induction false} FilterFacts(rows: seq<Row>, p: Row -> bool)
    requires Keyed(rows)
    ensures Keyed(Filter(p, rows)) && forall r :: r in Filter(p, rows) <==> r in rows && p(r)
    ensures forall s :: First(Filter(p, rows), s) ==
              if First(rows, s).Some? && p(First(rows, s).value) then First(rows, s) else None
  {
    if rows != [] {
      FilterFacts(rows[1..], p);
      assert rows == [rows[0]] + rows[1..];
      if p(rows[0]) { assert Filter(p, rows)[1..] == Filter(p, rows[1..]); }
    }
  }

  lemma {:induction false} AppendFacts(rows: seq<Row>, row: Row)
    requires Keyed(rows) && First(rows, row.selector).None? && forall r :: r in rows ==> r.id != row.id
    ensures Keyed(rows + [row])
    ensures forall s :: First(rows + [row], s) == if s == row.selector then Some(row) else First(rows, s)
  {
    if rows == [] {
      assert [] + [row] == [row] && [row][1..] == [];
    } else {
      AppendFacts(rows[1..], row);
      assert (rows + [row])[1..] == rows[1..] + [row];
    }
  }

  lemma {:induction false} FlipFirst(rows: seq<Row>, s: string, v: string, secret: string, x: string)
    requires Keyed(rows)
    ensures var hit := First(rows, s).Some? && First(rows, s).value.validator == v;
            && Count(rows, Exactly(s, v)) == (if hit then 1 else 0)
            && (!hit ==> Flip(rows, s, v, secret) == rows)
            && First(Flip(rows, s, v, secret), x) ==
                 if x == s && hit then Some(First(rows, s).value.(validator := secret)) else First(rows, x)
  {
    if rows != [] {
      FlipCons(rows, s, v, secret);
      hide Flip, Count;
      if rows[0].selector == s {
        FlipMissing(rows[1..], s, v, secret);
        assert rows == [rows[0]] + rows[1..];
      } else {
        FlipFirst(rows[1..], s, v, secret, x);
        assert rows == [rows[0]] + rows[1..];
      }
    } else {
      FlipNothing(s, v, secret);
    }
  }

  lemma FlipNothing(s: string, v: string, secret: string)
    ensures Flip([], s, v, secret) == [] && Count([], Exactly(s, v)) == 0
  {
  }

  lemma FlipCons(rows: seq<Row>, s: string, v: string, secret: string)
    requires rows != []
    ensures var hit := rows[0].selector == s && rows[0].validator == v;
            && Flip(rows, s, v, secret) ==
                 [if hit then rows[0].(validator := secret) else rows[0]] + Flip(rows[1..], s, v, secret)
            && Count(rows, Exactly(s, v)) == (if hit then 1 else 0) + Count(rows[1..], Exactly(s, v))
  {
  }

  lemma {:induction false} FlipMissing(rows: seq<Row>, s: string, v: string, secret: string)
    requires First(rows, s).None?
    ensures Count(rows, Exactly(s, v)) == 0 && Flip(rows, s, v, secret) == rows
  {
    if rows != [] {
      FlipMissing(rows[1..], s, v, secret);
    }
  }

  lemma {:induction false} FlipFacts(rows: seq<Row>, s: string, v: string, secret: string)
    requires Keyed(rows)
    ensures var hit := First(rows, s).Some? && First(rows, s).value.validator == v;
            && Keyed(Flip(rows, s, v, secret))
            && Count(rows, Exactly(s, v)) == (if hit then 1 else 0)
            && (!hit ==> Flip(rows, s, v, secret) == rows)
            && forall x :: First(Flip(rows, s, v, secret), x) ==
                 if x == s && hit then Some(First(rows, s).value.(validator := secret)) else First(rows, x)
  {
    FlipKeyed(rows, s, v, secret);
    forall x ensures First(Flip(rows, s, v, secret), x) ==
      if x == s && First(rows, s).Some? && First(rows, s).value.validator == v
      then Some(First(rows, s).value.(validator := secret)) else First(rows, x)
    {
      FlipFirst(rows, s, v, secret, x);
    }
    FlipFirst(rows, s, v, secret, s);
  }

  lemma {:induction false} FlipKeyed(rows: seq<Row>, s: string, v: string, secret: string)
    requires Keyed(rows)
    ensures Keyed(Flip(rows, s, v, secret))
  {
    if rows != [] {
      FlipKeyed(rows[1..], s, v, secret);
      FlipCons(rows, s, v, secret);
      FlipRows(rows[1..], s, v, secret);
      FlipFirst(rows[1..], s, v, secret, rows[0].selector);
      hide Flip, Count;
      var head := Flip(rows, s, v, secret)[0];
      assert Flip(rows, s, v, secret)[1..] == Flip(rows[1..], s, v, secret);
      assert head.id == rows[0].id && head.selector == rows[0].selector;
    } else {
      FlipNothing(s, v, secret);
    }
  }

  lemma FlipRows(rows: seq<Row>, s: string, v: string, secret: string)
    ensures forall r :: r in Flip(rows, s, v, secret) ==>
              exists b :: b in rows && Same(r, b) && (r == b || r.validator == secret)
  {
    var flipped := Flip(rows, s, v, secret);
    forall r | r in flipped ensures exists b :: b in rows && Same(r, b) && (r == b || r.validator == secret) {
      var i :| 0 <= i < |flipped| && flipped[i] == r;
      assert rows[i] in rows && Same(r, rows[i]);
    }
  }

  lemma {:induction false} FlipCounts(rows: seq<Row>, s: string, v: string, secret: string, x: string)
    requires v != secret
    ensures var n := Count(rows, Exactly(s, v));
            Count(Flip(rows, s, v, secret), Holding(x)) ==
            Count(rows, Holding(x)) + (if x == secret then n else 0) - (if x == v then n else 0)
    ensures Count(rows, Exactly(s, v)) <= Count(rows, Holding(v))
  {
    if rows != [] {
      FlipCounts(rows[1..], s, v, secret, x);
      assert Flip(rows, s, v, secret)[1..] == Flip(rows[1..], s, v, secret);
    }
  }

  // --- every step --------------------------------------------------------------------------------------------

  /** Deleting rows leaves every promise about the rest. */
  lemma DeletionKeeps(st: State, p: Row -> bool)
    requires Valid(st)
    ensures Valid(st.(rows := Filter(p, st.rows))) && Follows(st, st.(rows := Filter(p, st.rows)))
  {
    var after := st.(rows := Filter(p, st.rows));
    FilterFacts(st.rows, p);
    forall v: string ensures SingleUse(after, v) {
      assert SingleUse(st, v);
      CountOfFilter(st.rows, p, Holding(v));
    }
    forall c | c in after.calls ensures CallOk(after, c) {
      assert CallOk(st, c);
    }
  }

  /** A call that moves on without a rotation. */
  lemma CallKeeps(st: State, i: nat, c: Call)
    requires Valid(st) && i < |st.calls| && CallOk(st, c) && (c.Finished? ==> c.result.None?)
    ensures Valid(st.(calls := st.calls[i := c]))
  {
    var after := st.(calls := st.calls[i := c]);
    forall v: string ensures SingleUse(after, v) {
      assert SingleUse(st, v);
      CountReplace(st.calls, i, c, WonWith(v));
    }
    forall d | d in after.calls ensures CallOk(after, d) {
      assert d == c || d in st.calls;
      assert CallOk(st, d);
    }
  }

  lemma NewCallKeeps(st: State, c: Call)
    requires Valid(st) && CallOk(st, c) && (c.Finished? ==> c.result.None?)
    ensures Valid(st.(calls := st.calls + [c]))
  {
    var after := st.(calls := st.calls + [c]);
    forall v: string ensures SingleUse(after, v) {
      assert SingleUse(st, v);
      CountAppend(st.calls, c, WonWith(v));
    }
    forall d | d in after.calls ensures CallOk(after, d) {
      assert CallOk(st, d);
    }
  }

  lemma ReadIsSnapshot(st: State, s: string)
    requires Valid(st) && First(st.rows, s).Some?
    ensures Snapshot(st, First(st.rows, s).value)
  {
    var row := First(st.rows, s).value;
    assert SingleUse(st, row.validator);
    CountZero(st.rows, Holding(row.validator));
    forall r | r in st.rows
      ensures (r.id == row.id ==> Same(r, row)) && (r.validator == row.validator ==> r.id == row.id)
    {
      if r.id == row.id { SameId(st.rows, r, row); }
      if r.validator == row.validator { OnlyOne(st.rows, Holding(row.validator), r, row); }
    }
  }

  lemma {:induction false} SameId(rows: seq<Row>, a: Row, b: Row)
    requires Keyed(rows) && a in rows && b in rows && a.id == b.id
    ensures a == b
  {
    if a in rows[1..] && b in rows[1..] {
      SameId(rows[1..], a, b);
    }
  }

  lemma IssueKeeps(st: State, user: int, s: string, v: string, expires: int)
    requires Valid(st) && Legal(st, Issue(user, s, v, expires))
    ensures var after := Step(st, Issue(user, s, v, expires)); Valid(after) && Follows(st, after)
  {
    var row := Row(st.nextId, s, v, user, Some(expires));
    var after := Step(st, Issue(user, s, v, expires));
    AppendFacts(st.rows, row);
    forall x: string ensures SingleUse(after, x) {
      assert SingleUse(st, x);
      CountAppend(st.rows, row, Holding(x));
    }
    forall c | c in after.calls ensures CallOk(after, c) {
      assert CallOk(st, c);
    }
  }

  lemma RotationKeeps(st: State, i: nat, now: int, secret: string)
    requires Valid(st) && Legal(st, Advance(i, now, secret)) && st.calls[i].Seen?
    requires Count(st.rows, Exactly(st.calls[i].selector, st.calls[i].validator)) >= 1
    requires !(Past(st.calls[i].row, now) || st.calls[i].row.validator != st.calls[i].validator)
    ensures var after := Step(st, Advance(i, now, secret)); Valid(after) && Follows(st, after)
  {
    assert CallOk(st, st.calls[i]) && st.calls[i].row.validator in st.used;
    hide Count, Filter, Update, First, SingleUse, CallOk, Parse, Keyed, Flip;
    var after := Step(st, Advance(i, now, secret));
    var call := st.calls[i];
    var s, v := call.selector, call.validator;
    assert after == State(Flip(st.rows, s, v, secret), st.nextId, st.used + {secret},
                          st.calls[i := Finished(s, v, Some(Grant(call.row.user, secret)))]);
    hide Step, Proceed, Legal, Follows, Same;
    FlipKeyed(st.rows, s, v, secret);
    FlipFirst(st.rows, s, v, secret, s);
    FlipFollows(st, after, s, v, secret);
    forall x: string ensures SingleUse(after, x) {
      RotationSingleUse(st, i, Finished(s, v, Some(Grant(call.row.user, secret))), secret, x);
    }
    FlippedCalls(st, after, s, v, secret, i);
  }

  lemma FlippedCalls(st: State, after: State, s: string, v: string, secret: string, i: nat)
    requires (forall c :: c in st.calls ==> CallOk(st, c)) && secret !in st.used && i < |st.calls|
    requires after.rows == Flip(st.rows, s, v, secret) && after.nextId == st.nextId && after.used == st.used + {secret}
    requires |after.calls| == |st.calls| && after.calls == st.calls[i := after.calls[i]] && after.calls[i].Finished?
    ensures forall c :: c in after.calls ==> CallOk(after, c)
  {
    hide CallOk, Flip;
    forall c | c in after.calls ensures CallOk(after, c) {
      if c in st.calls { FlippedSnapshots(st, after, s, v, secret, c); } else { FinishedOk(after, c); }
    }
  }

  lemma FlipFollows(st: State, after: State, s: string, v: string, secret: string)
    requires forall r :: r in st.rows ==> r.id < st.nextId
    requires after.rows == Flip(st.rows, s, v, secret) && after.nextId == st.nextId && after.used == st.used + {secret}
    ensures Follows(st, after) && forall r :: r in after.rows ==> r.id < after.nextId
  {
    FlipRows(st.rows, s, v, secret);
  }

  lemma FinishedOk(st: State, c: Call)
    requires c.Finished?
    ensures CallOk(st, c)
  {
  }

  lemma RotationSingleUse(st: State, i: nat, c: Call, secret: string, x: string)
    requires SingleUse(st, x) && SingleUse(st, secret) && secret !in st.used
    requires i < |st.calls| && st.calls[i].Seen? && c.Finished? && c.result.Some?
    requires c.selector == st.calls[i].selector && c.validator == st.calls[i].validator && c.validator in st.used
    requires Count(st.rows, Exactly(c.selector, c.validator)) == 1
    ensures SingleUse(State(Flip(st.rows, c.selector, c.validator, secret), st.nextId, st.used + {secret},
                            st.calls[i := c]), x)
  {
    hide Count, Update;
    FlipCounts(st.rows, c.selector, c.validator, secret, x);
    CountReplace(st.calls, i, c, WonWith(x));
  }

  /** What was read before the rotation is as good, or as stale, as it was. */
  lemma FlippedSnapshots(st: State, after: State, s: string, v: string, secret: string, c: Call)
    requires CallOk(st, c) && secret !in st.used
    requires after.rows == Flip(st.rows, s, v, secret) && after.nextId == st.nextId && after.used == st.used + {secret}
    ensures CallOk(after, c)
  {
    hide Update;
    FlipRows(st.rows, s, v, secret);
  }

  lemma SeenKeeps(st: State, i: nat, now: int, secret: string)
    requires Valid(st) && Legal(st, Advance(i, now, secret)) && st.calls[i].Seen?
    ensures var after := Step(st, Advance(i, now, secret)); Valid(after) && Follows(st, after)
  {
    hide Filter, Update, Count, Valid, First, Parse, Snapshot;
    var call := st.calls[i];
    var bowed := Finished(call.selector, call.validator, None);
    if Past(call.row, now) || call.row.validator != call.validator {
      DeletionKeeps(st, OtherThan(call.row.id));
      CallKeeps(st.(rows := Delete(st.rows, call.row.id)), i, bowed);
    } else if Count(st.rows, Exactly(call.selector, call.validator)) < 1 {
      CallKeeps(st, i, bowed);
      SameAsItself(st);
    } else {
      RotationKeeps(st, i, now, secret);
    }
  }

  lemma StepKeeps(st: State, e: Event)
    requires Valid(st) && Legal(st, e)
    ensures Valid(Step(st, e)) && Follows(st, Step(st, e))
  {
    hide Filter, Update, Count, SingleUse, First, Keyed;
    match e
    case Issue(u, s, v, expires) => IssueKeeps(st, u, s, v, expires);
    case Present(_) => NewCallKeeps(st, Step(st, e).calls[|st.calls|]);
    case Clear(cookie) =>
      var parsed := Parse(cookie);
      if parsed.Some? && First(st.rows, parsed.value.0).Some? { ReadIsSnapshot(st, parsed.value.0); }
      NewCallKeeps(st, Step(st, e).calls[|st.calls|]);
    case ClearAll(u) => DeletionKeeps(st, NotOf(u));
    case Advance(i, now, secret) => AdvanceKeeps(st, i, now, secret);
  }

  lemma AdvanceKeeps(st: State, i: nat, now: int, secret: string)
    requires Valid(st) && Legal(st, Advance(i, now, secret))
    ensures var after := Step(st, Advance(i, now, secret)); Valid(after) && Follows(st, after)
  {
    hide Filter, Update, Count, Valid, First, Keyed, Parse, Flip, Delete, Follows;
    SameAsItself(st);
    match st.calls[i]
    case Presented(_, _) => PresentedKeeps(st, i, now, secret);
    case Seen(_, _, _) => SeenKeeps(st, i, now, secret);
    case Clearing(_) => ClearingKeeps(st, i, now, secret);
    case Finished(_, _, _) =>
    case Cleared =>
  }

  lemma PresentedKeeps(st: State, i: nat, now: int, secret: string)
    requires Valid(st) && i < |st.calls| && st.calls[i].Presented?
    ensures var after := Step(st, Advance(i, now, secret)); Valid(after) && Follows(st, after)
  {
    hide Valid, First, Parse, Follows, Snapshot;
    var (s, v) := (st.calls[i].selector, st.calls[i].validator);
    if First(st.rows, s).Some? { ReadIsSnapshot(st, s); }
    var row := First(st.rows, s);
    var c := if row.None? then Finished(s, v, None) else Seen(s, v, row.value);
    CallKeeps(st, i, c);
    SameRowsFollow(st, st.(calls := st.calls[i := c]));
  }

  lemma ClearingKeeps(st: State, i: nat, now: int, secret: string)
    requires Valid(st) && i < |st.calls| && st.calls[i].Clearing?
    ensures var after := Step(st, Advance(i, now, secret)); Valid(after) && Follows(st, after)
  {
    hide Valid, Filter, Follows;
    var id := st.calls[i].row.id;
    var deleted := st.(rows := Delete(st.rows, id));
    DeletionKeeps(st, OtherThan(id));
    CallKeeps(deleted, i, Cleared);
    FollowsSameRows(st, deleted, deleted.(calls := st.calls[i := Cleared]));
  }

  lemma SameRowsFollow(st: State, after: State)
    requires after.rows == st.rows && after.nextId == st.nextId && after.used == st.used
    ensures Follows(st, after)
  {
    SameAsItself(st);
  }

  lemma FollowsSameRows(st: State, a: State, b: State)
    requires Follows(st, a) && a.rows == b.rows && a.nextId == b.nextId && a.used == b.used
    ensures Follows(st, b)
  {
  }

  // --- every run ------------------------------------------------------------------------------------------

  lemma {:induction false} RunKeeps(events: seq<Event>, st: State)
    requires Valid(st) && LegalRun(events, st)
    ensures Valid(Run(events, st)) && Follows(st, Run(events, st))
  {
    hide Valid, Step, Legal, Same;
    if events == [] {
      SameAsItself(st);
    } else {
      var next := Step(st, events[0]);
      StepKeeps(st, events[0]);
      RunKeeps(events[1..], next);
      FollowsOn(st, next, Run(events, st));
    }
  }

  lemma SameAsItself(st: State)
    ensures Follows(st, st)
  {
    forall r | r in st.rows ensures Same(r, r) {}
  }

  lemma FollowsOn(a: State, b: State, c: State)
    requires Follows(a, b) && Follows(b, c)
    ensures Follows(a, c)
  {
    forall r | r in c.rows && r.id < a.nextId ensures exists x :: x in a.rows && Same(r, x) {
      var y :| y in b.rows && Same(r, y);
      var x :| x in a.rows && Same(y, x);
      assert Same(r, x);
    }
  }

  lemma EmptyIsValid()
    ensures Valid(Empty)
  {
    forall v: string ensures SingleUse(Empty, v) {}
  }

  /** In every interleaving each validator wins at most one rotation, and once it has won, no row holds
      it again. */
  lemma OneRotationEach(events: seq<Event>, i: nat, j: nat, v: string)
    requires LegalRun(events, Empty)
    requires var calls := Run(events, Empty).calls;
             i < |calls| && j < |calls| && WonWith(v)(calls[i]) && WonWith(v)(calls[j])
    ensures i == j
    ensures forall r :: r in Run(events, Empty).rows ==> r.validator != v
  {
    var st := Run(events, Empty);
    EmptyIsValid();
    RunKeeps(events, Empty);
    assert SingleUse(st, v);
    TwoCounted(st.calls, i, j, WonWith(v));
    CountZero(st.rows, Holding(v));
    assert forall r :: r in st.rows ==> !Holding(v)(r);
  }

  /** In every interleaving a call is granted exactly when it read the row that still holds its
      validator, not expired; the grant is for that row's owner, and the row then holds the new one. */
  lemma GrantedIffStillHeld(st: State, i: nat, now: int, secret: string)
    requires Valid(st) && Legal(st, Advance(i, now, secret)) && st.calls[i].Seen?
    ensures var call := st.calls[i];
            var after := Step(st, Advance(i, now, secret));
            var held := First(st.rows, call.selector);
            var result := after.calls[i].result;
            && after.calls[i].Finished?
            && (result.Some? <==> && call.row.validator == call.validator
                                  && (call.row.expires.None? || now <= call.row.expires.value)
                                  && held.Some? && held.value.validator == call.validator)
            && (result.Some? ==>
                  && (held.value.expires.None? || now <= held.value.expires.value)
                  && result.value == Grant(held.value.user, secret)
                  && First(after.rows, call.selector) == Some(held.value.(validator := secret)))
  {
    var call := st.calls[i];
    assert CallOk(st, call);
    FlipFacts(st.rows, call.selector, call.validator, secret);
  }

  /** A logout that nobody interrupts, taken step by step: the row behind the cookie goes, whatever its
      validator, and no other; a cookie of no row changes nothing. */
  lemma LogoutClears(st: State, s: string, v: string, now: int, secret: string)
    requires Valid(st) && s != [] && ':' !in s && v != []
    ensures var st1 := Step(st, Clear(Cookie(s, v)));
            var st2 := Step(st1, Advance(|st.calls|, now, secret));
            && st1.rows == st.rows
            && First(st2.rows, s).None? && forall x :: x != s ==> First(st2.rows, x) == First(st.rows, x)
  {
    assert Keyed(st.rows);
    hide Valid, Cookie, Parse, Update, Count;
    ParseCookie(s, v);
    var found := First(st.rows, s);
    if found.Some? {
      FilterFacts(st.rows, OtherThan(found.value.id));
      forall x | x != s ensures First(Delete(st.rows, found.value.id), x) == First(st.rows, x) {
        if First(st.rows, x).Some? && First(st.rows, x).value.id == found.value.id {
          SameId(st.rows, First(st.rows, x).value, found.value);
        }
      }
      GoneFor(st.rows, found.value);
    }
  }

  /** Logging a user out everywhere deletes exactly that user's rows, in one step. */
  lemma LogoutEverywhere(st: State, user: int)
    requires Valid(st)
    ensures var after := Step(st, ClearAll(user));
            && (forall r :: r in after.rows <==> r in st.rows && r.user != user)
            && after.calls == st.calls
  {
    hide Valid;
    forall r ensures r in Filter(NotOf(user), st.rows) <==> r in st.rows && r.user != user {
      FilterIn(NotOf(user), st.rows, r);
    }
  }

  lemma GoneFor(rows: seq<Row>, row: Row)
    requires Keyed(rows) && First(rows, row.selector) == Some(row)
    ensures First(Delete(rows, row.id), row.selector).None?
  {
    FilterFacts(rows, OtherThan(row.id));
  }

  // --- a call that nobody interrupts ------------------------------------------------------------------------

  /** What `recall_remember_token` does with a well-formed cookie when it runs alone. */
  function Recall(rows: seq<Row>, s: string, v: string, now: int, secret: string): (seq<Row>, Option<Grant>) {
    match First(rows, s)
    case None => (rows, None)
    case Some(row) =>
      if Past(row, now) || row.validator != v then (Delete(rows, row.id), None)
      else (Flip(rows, s, v, secret), Some(Grant(row.user, secret)))
  }

  lemma UninterruptedIsRecall(st: State, i: nat, now: int, secret: string)
    requires Valid(st) && i < |st.calls| && st.calls[i].Presented?
    ensures var s, v := st.calls[i].selector, st.calls[i].validator;
            var (rows, result) := Recall(st.rows, s, v, now, secret);
            var e := Advance(i, now, secret);
            var s1 := Step(st, e);
            var s2 := if s1.calls[i].Finished? then s1 else Step(s1, e);
            s2.rows == rows && s2.calls == st.calls[i := Finished(s, v, result)]
  {
    assert Keyed(st.rows);
    hide Valid, Update, Filter, Count, Keyed, Parse, First;
    var call := st.calls[i];
    var found := First(st.rows, call.selector);
    if found.Some? {
      var seen := Seen(call.selector, call.validator, found.value);
      var s1 := st.(calls := st.calls[i := seen]);
      assert Step(st, Advance(i, now, secret)) == s1;
      assert s1.calls[i] == seen;
      FlipFirst(st.rows, call.selector, call.validator, secret, call.selector);
      JustReadIsRecall(s1, i, now, secret);
    }
  }

  lemma JustReadIsRecall(st: State, i: nat, now: int, secret: string)
    requires i < |st.calls| && st.calls[i].Seen?
    requires var call := st.calls[i];
             && First(st.rows, call.selector) == Some(call.row)
             && Count(st.rows, Exactly(call.selector, call.validator)) ==
                if call.row.validator == call.validator then 1 else 0
    ensures var s, v := st.calls[i].selector, st.calls[i].validator;
            var recalled := Recall(st.rows, s, v, now, secret);
            var after := Step(st, Advance(i, now, secret));
            after.rows == recalled.0 && after.calls == st.calls[i := Finished(s, v, recalled.1)]
  {
    hide Update, Filter, Count, Parse, First;
  }

  /** A cookie is good exactly when its row holds its validator and has not expired; anything else
      leaves no row behind it, and no other selector notices. */
  lemma RecallOutcome(rows: seq<Row>, s: string, v: string, now: int, secret: string)
    requires Keyed(rows)
    ensures var held := First(rows, s);
            var (after, result) := Recall(rows, s, v, now, secret);
            && Keyed(after)
            && (result.Some? <==> && held.Some? && held.value.validator == v
                                  && (held.value.expires.None? || now <= held.value.expires.value))
            && (result.Some? ==> result.value == Grant(held.value.user, secret))
            && First(after, s) == (if result.Some? then Some(held.value.(validator := secret)) else None)
            && forall x :: x != s ==> First(after, x) == First(rows, x)
  {
    FlipFacts(rows, s, v, secret);
    if First(rows, s).Some? {
      var row := First(rows, s).value;
      FilterFacts(rows, OtherThan(row.id));
      forall x | x != s ensures First(Delete(rows, row.id), x) == First(rows, x) {
        if First(rows, x).Some? && First(rows, x).value.id == row.id { SameId(rows, First(rows, x).value, row); }
      }
    }
  }

  lemma FreshId(st: State)
    requires Valid(st)
    ensures Keyed(st.rows) && forall r :: r in st.rows ==> r.id != st.nextId
  {
  }

  /** A cookie just issued is good up to and with the moment it expires, and for its user; later it is refused
      and its row deleted. */
  lemma GoodUntilExpiry(st: State, user: int, s: string, v: string, expires: int, now: int, secret: string)
    requires Valid(st) && Legal(st, Issue(user, s, v, expires))
    ensures var issued := Step(st, Issue(user, s, v, expires)).rows;
            var (after, result) := Recall(issued, s, v, now, secret);
            && (now <= expires ==> result == Some(Grant(user, secret)) && First(after, s).Some?)
            && (now > expires ==> result.None? && First(after, s).None?)
  {
    hide Recall, Valid;
    var row := Row(st.nextId, s, v, user, Some(expires));
    FreshId(st);
    AppendFacts(st.rows, row);
    var issued := Step(st, Issue(user, s, v, expires)).rows;
    assert issued == st.rows + [row];
    RecallOutcome(issued, s, v, now, secret);
    hide Keyed, First;
    var (after, result) := Recall(issued, s, v, now, secret);
    assert First(issued, s) == Some(row);
    assert now > expires ==> result.None?;
    assert result.None? ==> First(after, s) == None;
  }

  /** A row without expiry is good at every moment. */
  lemma NeverExpires(rows: seq<Row>, s: string, now: int, secret: string)
    requires Keyed(rows) && First(rows, s).Some? && First(rows, s).value.expires.None?
    ensures var held := First(rows, s).value;
            Recall(rows, s, held.validator, now, secret).1 == Some(Grant(held.user, secret))
  {
    hide Recall;
    RecallOutcome(rows, s, First(rows, s).value.validator, now, secret);
  }

  /** Replaying a cookie after its rotation gets nothing, and kills the rotated one as well. */
  lemma ReplayKills(rows: seq<Row>, s: string, v: string, secrets: seq<string>, times: seq<int>)
    requires Keyed(rows) && |secrets| == 3 && |times| == 3 && v != secrets[0]
    requires Recall(rows, s, v, times[0], secrets[0]).1.Some?
    ensures var rotated := Recall(rows, s, v, times[0], secrets[0]).0;
            var replay := Recall(rotated, s, v, times[1], secrets[1]);
            var last := Recall(replay.0, s, secrets[0], times[2], secrets[2]);
            replay.1.None? && last.1.None? && First(last.0, s).None?
  {
    hide Recall;
    RecallOutcome(rows, s, v, times[0], secrets[0]);
    var rotated := Recall(rows, s, v, times[0], secrets[0]).0;
    RecallOutcome(rotated, s, v, times[1], secrets[1]);
    var replayed := Recall(rotated, s, v, times[1], secrets[1]).0;
    assert First(replayed, s).None?;
    RecallOutcome(replayed, s, secrets[0], times[2], secrets[2]);
  }

  // --- the loser of a race ------------------------------------------------------------------------------------

  /** Two requests presented the same cookie and one has rotated it. The other bows out, leaving the
      winner's cookie good, exactly when it had read the row before the rotation; if it reads
      afterwards it takes the mismatch for theft and deletes the row. */
  lemma LoserSparesWinnerIffReadBefore(st: State, j: nat, now: int, secret: string)
    requires Valid(st) && Legal(st, Advance(j, now, secret))
    requires var call := st.calls[j];
             && (call.Presented? || (call.Seen? && call.row.validator == call.validator && !Past(call.row, now)))
             && First(st.rows, call.selector).Some?
             && First(st.rows, call.selector).value.validator != call.validator
    ensures var s := st.calls[j].selector;
            var e := Advance(j, now, secret);
            var end := if st.calls[j].Seen? then Step(st, e) else Step(Step(st, e), e);
            && end.calls[j].Finished? && end.calls[j].result.None?
            && (First(end.rows, s) == First(st.rows, s) <==> st.calls[j].Seen?)
            && (First(end.rows, s).None? <==> st.calls[j].Presented?)
  {
    var call := st.calls[j];
    assert Keyed(st.rows);
    hide Count, Filter, Update, Valid;
    if call.Seen? {
      FlipFacts(st.rows, call.selector, call.validator, secret);
    } else {
      UninterruptedIsRecall(st, j, now, secret);
      RecallOutcome(st.rows, call.selector, call.validator, now, secret);
    }
  }

  /** For example: two requests present one cookie, the first rotates it, then the second reads. The first
      holds a grant, and no row is left to honour it. */
  lemma LateLoserKillsTheWinner(user: int, s: string, v: string, w: string, now: int)
    requires s != [] && ':' !in s && v != [] && v != w
    ensures var issued := Step(Empty, Issue(user, s, v, now));
            var both := Step(Step(issued, Present(Cookie(s, v))), Present(Cookie(s, v)));
            var won := Step(Step(both, Advance(0, now, w)), Advance(0, now, w));
            var end := Step(Step(won, Advance(1, now, w)), Advance(1, now, w));
            && won.calls[0] == Finished(s, v, Some(Grant(user, w))) && won.rows[0].validator == w
            && end.calls == [won.calls[0], Finished(s, v, None)] && end.rows == []
  {
    hide Parse, Cookie;
    var (old_, new_) := (Row(0, s, v, user, Some(now)), Row(0, s, w, user, Some(now)));
    var waiting := Presented(s, v);
    var issued := State([old_], 1, {v}, []);
    assert Step(Empty, Issue(user, s, v, now)) == issued;
    ParseCookie(s, v);
    assert Step(issued, Present(Cookie(s, v))) == issued.(calls := [waiting]);
    var both := issued.(calls := [waiting, waiting]);
    assert Step(issued.(calls := [waiting]), Present(Cookie(s, v))) == both;
    var read := both.(calls := [Seen(s, v, old_), waiting]);
    assert Step(both, Advance(0, now, w)) == read;
    TableOfOne(old_, s, v, w);
    TableOfOne(new_, s, v, w);
    hide Flip, Count, Delete, Filter;
    var grant := Finished(s, v, Some(Grant(user, w)));
    var won := State([new_], 1, {v, w}, [grant, waiting]);
    assert {v} + {w} == {v, w};
    assert Step(read, Advance(0, now, w)) == won;
    var late := won.(calls := [grant, Seen(s, v, new_)]);
    assert Step(won, Advance(1, now, w)) == late;
    assert Step(late, Advance(1, now, w)) == late.(rows := [], calls := [grant, Finished(s, v, None)]);
  }

  lemma TableOfOne(row: Row, s: string, v: string, secret: string)
    requires row.selector == s
    ensures Count([row], Exactly(s, v)) == if row.validator == v then 1 else 0
    ensures Flip([row], s, v, secret) == [if row.validator == v then row.(validator := secret) else row]
    ensures Delete([row], row.id) == []
  {
    assert [row][1..] == [];
  }

  // --- the table as the model class updates it ---------------------------------------------------------------

  class RememberTokenTable {
    var rows: seq<Row>
    var nextId: nat

    constructor ()
      ensures Valid() && rows == []
    {
      rows, nextId := [], 0;
    }

    ghost predicate Valid()
      reads this
    {
      Keyed(rows) && forall r :: r in rows ==> r.id < nextId
    }

    method Issue(user: int, selector: string, validator: string, expires: int) returns (cookie: string)
      requires Valid() && First(rows, selector).None?
      modifies this
      ensures Valid() && rows == old(rows) + [Row(old(nextId), selector, validator, user, Some(expires))]
      ensures cookie == Cookie(selector, validator)
    {
      var row := Row(nextId, selector, validator, user, Some(expires));
      AppendFacts(rows, row);
      rows, nextId := rows + [row], nextId + 1;
      cookie := Cookie(selector, validator);
    }

    /** Malformed and unknown cookies change nothing; the rest is `Recall`. */
    method RecallCookie(cookie: string, now: int, secret: string) returns (result: Option<Grant>)
      requires Valid()
      modifies this
      ensures Valid()
      ensures var parsed := Parse(cookie);
              if parsed.None? then rows == old(rows) && result.None?
              else (rows, result) == Recall(old(rows), parsed.value.0, parsed.value.1, now, secret)
    {
      var parsed := Parse(cookie);
      if parsed.None? {
        return None;
      }
      var (s, v) := parsed.value;
      RecallOutcome(rows, s, v, now, secret);
      FlipFacts(rows, s, v, secret);
      FlipRows(rows, s, v, secret);
      var found := First(rows, s);
      if found.None? {
        return None;
      }
      var row := found.value;
      if Past(row, now) || row.validator != v {
        FilterFacts(rows, OtherThan(row.id));
        rows := Delete(rows, row.id);
        return None;
      }
      var claimed := Count(rows, Exactly(s, v));
      rows := Flip(rows, s, v, secret);
      if claimed < 1 {
        return None;
      }
      result := Some(Grant(row.user, secret));
    }

    /** Logout: the row behind the cookie goes, whatever its validator, and no other. */
    method ClearCookie(cookie: string)
      requires Valid()
      modifies this
      ensures Valid()
      ensures var parsed := Parse(cookie);
              if parsed.None? then rows == old(rows)
              else && First(rows, parsed.value.0).None?
                   && forall x :: x != parsed.value.0 ==> First(rows, x) == First(old(rows), x)
    {
      var parsed := Parse(cookie);
      if parsed.Some? {
        var s := parsed.value.0;
        var found := First(rows, s);
        if found.Some? {
          RecallOutcome(rows, s, found.value.validator + "?", 0, []);
          FilterFacts(rows, OtherThan(found.value.id));
          rows := Delete(rows, found.value.id);
        }
      }
    }

    /** Log out everywhere: exactly the rows of that user go. */
    method ClearAll(user: int)
      requires Valid()
      modifies this
      ensures Valid()
      ensures forall r :: r in rows <==> r in old(rows) && r.user != user
    {
      FilterFacts(rows, NotOf(user));
      rows := Filter(NotOf(user), rows);
    }
  }
}
