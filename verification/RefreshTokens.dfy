/** Rotating refresh tokens: any number of calls, interleaved at their database steps. Random values
    and their hashes are fresh integers. */
module RefreshTokens {
  import opened Seqs

  datatype Row = Row(token: int, user: int, revoked: bool)

  datatype Grant = Grant(token: int, user: int)

  /** Where one rotation stands: before its conditional UPDATE, after it, after the SELECT, done. */
  datatype Call =
    | Presented(token: int)
    | Claimed(token: int, count: nat)
    | Read(token: int, row: Row, count: nat)
    | Finished(token: int, result: Option<Grant>)

  /** The table and every call made so far. */
  datatype State = State(rows: seq<Row>, calls: seq<Call>)

  datatype Event =
    | Issue(user: int, token: int)
    | RevokeAll(user: int)
    | Present(token: int)
      /** Call number `call` takes its next step; `token` is the random value if it needs one. */
    | Advance(call: nat, token: int)

  // --- the table ----------------------------------------------------------------------------

  function First(rows: seq<Row>, t: int): (r: Option<Row>)
    ensures r.Some? ==> r.value in rows && r.value.token == t
    ensures r.None? ==> forall x :: x in rows ==> x.token != t
  {
    if rows == [] then None else if rows[0].token == t then Some(rows[0]) else First(rows[1..], t)
  }

  function Unrevoked(t: int): Row -> bool {
    (r: Row) => r.token == t && !r.revoked
  }

  function Owned(u: int): Row -> bool {
    (r: Row) => r.user == u
  }

  function ActiveOf(u: int): Row -> bool {
    (r: Row) => r.user == u && !r.revoked
  }

  function Revoke(r: Row): Row {
    r.(revoked := true)
  }

  function Claim(rows: seq<Row>, t: int): seq<Row> {
    Update(rows, Unrevoked(t), Revoke)
  }

  function RevokeFamily(rows: seq<Row>, u: int): seq<Row> {
    Update(rows, Owned(u), Revoke)
  }

  function Active(rows: seq<Row>, u: int): nat {
    Count(rows, ActiveOf(u))
  }

  // --- one step ---------------------------------------------------------------------------------

  function Step(st: State, e: Event): State {
    match e
    case Issue(u, t) => st.(rows := st.rows + [Row(t, u, false)])
    case RevokeAll(u) => st.(rows := RevokeFamily(st.rows, u))
    case Present(t) => st.(calls := st.calls + [Presented(t)])
    case Advance(i, secret) => if i < |st.calls| then Proceed(st, i, secret) else st
  }

  function Proceed(st: State, i: nat, secret: int): State
    requires i < |st.calls|
  {
    match st.calls[i]
    case Presented(t) =>
      st.(rows := Claim(st.rows, t), calls := st.calls[i := Claimed(t, Count(st.rows, Unrevoked(t)))])
    case Claimed(t, n) =>
      var row := First(st.rows, t);
      st.(calls := st.calls[i := if row.None? then Finished(t, None) else Read(t, row.value, n)])
    case Read(t, row, n) =>
      if n < 1 then
        st.(rows := RevokeFamily(st.rows, row.user), calls := st.calls[i := Finished(t, None)])
      else
        State(st.rows + [Row(secret, row.user, false)],
              st.calls[i := Finished(t, Some(Grant(secret, row.user)))])
    case Finished(_, _) => st
  }

  /** Random values have not been stored before; nothing else is asked of the schedule. */
  ghost predicate Legal(st: State, e: Event) {
    match e
    case Issue(_, t) => First(st.rows, t).None?
    case Advance(i, t) => i < |st.calls| && First(st.rows, t).None?
    case _ => true
  }

  function Run(events: seq<Event>, st: State): State {
    if events == [] then st else Run(events[1..], Step(st, events[0]))
  }

  ghost predicate LegalRun(events: seq<Event>, st: State) {
    events == [] || (Legal(st, events[0]) && LegalRun(events[1..], Step(st, events[0])))
  }

  // --- what every step keeps -----------------------------------------------------------------------

  /** No two rows share a token. */
  ghost predicate DistinctTokens(rows: seq<Row>) {
    rows == [] || (First(rows[1..], rows[0].token).None? && DistinctTokens(rows[1..]))
  }

  predicate InFlight(c: Call) {
    (c.Claimed? || c.Read?) && c.count >= 1
  }

  /** The call ended with a successor. */
  predicate Rotated(c: Call) {
    c.Finished? && c.result.Some?
  }

  function ClaimOn(t: int): Call -> bool {
    (c: Call) => (InFlight(c) || Rotated(c)) && c.token == t
  }

  predicate OwnedBy(rows: seq<Row>, t: int, u: int) {
    First(rows, t).Some? && First(rows, t).value.user == u
  }

  function PendingOf(rows: seq<Row>, u: int): Call -> bool {
    (c: Call) => InFlight(c) && OwnedBy(rows, c.token, u)
  }

  /** Rotations that have claimed a token of `u` and not yet reissued. */
  function Pending(st: State, u: int): nat {
    Count(st.calls, PendingOf(st.rows, u))
  }

  /** The tokens `u` can use now or is about to be handed. */
  function Potential(st: State, u: int): nat {
    Active(st.rows, u) + Pending(st, u)
  }

  function Spent(rows: seq<Row>, t: int): nat {
    if First(rows, t).Some? && First(rows, t).value.revoked then 1 else 0
  }

  ghost predicate CallOk(rows: seq<Row>, c: Call) {
    match c
    case Claimed(t, n) => n >= 1 ==> First(rows, t).Some?
    case Read(t, row, _) => OwnedBy(rows, t, row.user)
    case _ => true
  }

  ghost predicate CallsOk(rows: seq<Row>, calls: seq<Call>) {
    forall c :: c in calls ==> CallOk(rows, c)
  }

  /** Claims in flight on `t` and successors already handed out for it: together one at most, and none
      while `t` is active. */
  ghost predicate SingleUse(st: State, t: int) {
    Count(st.calls, ClaimOn(t)) <= Spent(st.rows, t)
  }

  ghost predicate Valid(st: State) {
    && DistinctTokens(st.rows)
    && CallsOk(st.rows, st.calls)
    && forall t: int :: SingleUse(st, t)
  }

  /** Rows are never deleted, never change hands, and never become active again. */
  ghost predicate Follows(a: seq<Row>, b: seq<Row>) {
    |a| <= |b| &&
    forall i :: 0 <= i < |a| ==>
      b[i].token == a[i].token && b[i].user == a[i].user && (a[i].revoked ==> b[i].revoked)
  }

  lemma {:induction false} FollowsFirst(a: seq<Row>, b: seq<Row>, t: int)
    requires Follows(a, b) && First(a, t).Some?
    ensures First(b, t).Some? && First(b, t).value.user == First(a, t).value.user
    ensures Spent(a, t) <= Spent(b, t)
  {
    if a[0].token != t {
      assert forall i :: 0 <= i < |a[1..]| ==> a[1..][i] == a[i + 1] && b[1..][i] == b[i + 1];
      FollowsFirst(a[1..], b[1..], t);
    }
  }

  lemma FollowsCalls(a: seq<Row>, b: seq<Row>, calls: seq<Call>, u: int)
    requires Follows(a, b) && CallsOk(a, calls)
    ensures CallsOk(b, calls) && Count(calls, PendingOf(a, u)) == Count(calls, PendingOf(b, u))
  {
    forall c | c in calls ensures CallOk(b, c) && PendingOf(a, u)(c) == PendingOf(b, u)(c) {
      assert CallOk(a, c);
      if !c.Finished? && First(a, c.token).Some? { FollowsFirst(a, b, c.token); }
    }
    CountExt(calls, PendingOf(a, u), PendingOf(b, u));
  }

  // --- the three statements ----------------------------------------------------------------------------

  /** The conditional UPDATE claims an active token for one caller and otherwise changes nothing. */
  lemma {:induction false} ClaimFacts(rows: seq<Row>, t: int, u: int)
    requires DistinctTokens(rows)
    ensures DistinctTokens(Claim(rows, t)) && Follows(rows, Claim(rows, t))
    ensures var live := First(rows, t).Some? && !First(rows, t).value.revoked;
            && Count(rows, Unrevoked(t)) == (if live then 1 else 0)
            && (!live ==> Claim(rows, t) == rows)
            && Active(Claim(rows, t), u) + (if live && OwnedBy(rows, t, u) then 1 else 0) == Active(rows, u)
    ensures forall x :: First(Claim(rows, t), x) ==
              if x == t && First(rows, t).Some? then Some(Revoke(First(rows, t).value)) else First(rows, x)
  {
    if rows != [] {
      ClaimFacts(rows[1..], t, u);
      assert Claim(rows, t)[1..] == Claim(rows[1..], t);
    }
  }

  lemma {:induction false} FamilyFacts(rows: seq<Row>, v: int, u: int)
    requires DistinctTokens(rows)
    ensures DistinctTokens(RevokeFamily(rows, v)) && Follows(rows, RevokeFamily(rows, v))
    ensures Active(RevokeFamily(rows, v), u) == if u == v then 0 else Active(rows, u)
    ensures forall x :: First(RevokeFamily(rows, v), x).Some? <==> First(rows, x).Some?
  {
    if rows != [] {
      FamilyFacts(rows[1..], v, u);
      assert RevokeFamily(rows, v)[1..] == RevokeFamily(rows[1..], v);
    }
  }

  lemma {:induction false} AppendFacts(rows: seq<Row>, row: Row, u: int)
    requires DistinctTokens(rows) && First(rows, row.token).None?
    ensures DistinctTokens(rows + [row]) && Follows(rows, rows + [row])
    ensures Active(rows + [row], u) == Active(rows, u) + if ActiveOf(u)(row) then 1 else 0
    ensures forall x :: First(rows + [row], x) == if x == row.token then Some(row) else First(rows, x)
  {
    CountAppend(rows, row, ActiveOf(u));
    if rows == [] {
      assert [] + [row] == [row] && [row][1..] == [];
    } else {
      AppendFacts(rows[1..], row, u);
      assert (rows + [row])[1..] == rows[1..] + [row];
    }
  }

  // --- every step -----------------------------------------------------------------------------------------

  function Fresh(e: Event, u: int): nat {
    if e.Issue? && e.user == u then 1 else 0
  }

  /** Whether the step runs the family-wide revocation for `u`. */
  predicate RevokesFamily(st: State, e: Event, u: int) {
    || e == RevokeAll(u)
    || (e.Advance? && e.call < |st.calls|
        && st.calls[e.call].Read? && st.calls[e.call].count < 1 && st.calls[e.call].row.user == u)
  }

  /** What a step promises: the invariant, an append-only table, and a potential that moves only with
      a fresh issue (up by one) or a family revocation (down to the claims in flight). */
  ghost predicate Promise(st: State, e: Event, u: int) {
    var after := Step(st, e);
    && Valid(after)
    && Follows(st.rows, after.rows)
    && Potential(after, u) ==
         if RevokesFamily(st, e, u) then Pending(st, u) else Potential(st, u) + Fresh(e, u)
  }

  /** New or revoked rows disturb no call. */
  lemma TableKeeps(st: State, rows: seq<Row>, u: int)
    requires Valid(st) && Follows(st.rows, rows) && DistinctTokens(rows)
    ensures Valid(st.(rows := rows)) && Pending(st.(rows := rows), u) == Pending(st, u)
  {
    FollowsCalls(st.rows, rows, st.calls, u);
    forall t: int ensures SingleUse(st.(rows := rows), t) {
      assert SingleUse(st, t);
      if First(st.rows, t).Some? { FollowsFirst(st.rows, rows, t); }
    }
  }

  /** A call that moves on without gaining or losing its claim changes no count. */
  lemma CallKeeps(st: State, i: nat, c: Call, u: int)
    requires Valid(st) && i < |st.calls| && CallOk(st.rows, c)
    requires c.token == st.calls[i].token && InFlight(c) == InFlight(st.calls[i]) && Rotated(c) == Rotated(st.calls[i])
    ensures Valid(st.(calls := st.calls[i := c])) && Pending(st.(calls := st.calls[i := c]), u) == Pending(st, u)
  {
    var after := st.(calls := st.calls[i := c]);
    CountReplace(st.calls, i, c, PendingOf(st.rows, u));
    forall t: int ensures SingleUse(after, t) {
      assert SingleUse(st, t);
      CountReplace(st.calls, i, c, ClaimOn(t));
    }
  }

  lemma PresentKeeps(st: State, t: int, u: int)
    requires Valid(st)
    ensures Promise(st, Present(t), u)
  {
    var after := Step(st, Present(t));
    CountAppend(st.calls, Presented(t), PendingOf(st.rows, u));
    forall x: int ensures SingleUse(after, x) {
      assert SingleUse(st, x);
      CountAppend(st.calls, Presented(t), ClaimOn(x));
    }
  }

  lemma ClaimKeeps(st: State, i: nat, secret: int, u: int)
    requires Valid(st) && i < |st.calls| && st.calls[i].Presented?
    ensures Promise(st, Advance(i, secret), u)
  {
    hide First, Update, Count;
    var t := st.calls[i].token;
    var rows := Claim(st.rows, t);
    var c := Claimed(t, Count(st.rows, Unrevoked(t)));
    var after := Step(st, Advance(i, secret));
    assert after == State(rows, st.calls[i := c]);
    ClaimFacts(st.rows, t, u);
    TableKeeps(st, rows, u);
    CountReplace(st.calls, i, c, PendingOf(rows, u));
    forall x: int ensures SingleUse(after, x) {
      assert SingleUse(st, x);
      assert SingleUse(st.(rows := rows), x);
      CountReplace(st.calls, i, c, ClaimOn(x));
    }
  }

  lemma ReuseKeeps(st: State, i: nat, secret: int, u: int)
    requires Valid(st) && i < |st.calls| && st.calls[i].Read? && st.calls[i].count < 1
    ensures Promise(st, Advance(i, secret), u)
  {
    hide First, Update, Count;
    var call := st.calls[i];
    var rows := RevokeFamily(st.rows, call.row.user);
    FamilyFacts(st.rows, call.row.user, u);
    TableKeeps(st, rows, u);
    CallKeeps(st.(rows := rows), i, Finished(call.token, None), u);
  }

  lemma ReissueKeeps(st: State, i: nat, secret: int, u: int)
    requires Valid(st) && i < |st.calls| && st.calls[i].Read? && st.calls[i].count >= 1
    requires First(st.rows, secret).None?
    ensures Promise(st, Advance(i, secret), u)
  {
    hide First, Update, Count, Follows;
    var call := st.calls[i];
    var done := Finished(call.token, Some(Grant(secret, call.row.user)));
    var row := Row(secret, call.row.user, false);
    var rows := st.rows + [row];
    var after := Step(st, Advance(i, secret));
    assert after == State(rows, st.calls[i := done]);
    AppendFacts(st.rows, row, u);
    TableKeeps(st, rows, u);
    assert CallOk(st.rows, call);
    CountReplace(st.calls, i, done, PendingOf(rows, u));
    forall x: int ensures SingleUse(after, x) {
      assert SingleUse(st.(rows := rows), x);
      CountReplace(st.calls, i, done, ClaimOn(x));
    }
  }

  lemma StepKeeps(st: State, e: Event, u: int)
    requires Valid(st) && Legal(st, e)
    ensures Promise(st, e, u)
  {
    hide First, Update, Count, SingleUse;
    match e
    case Issue(v, t) =>
      AppendFacts(st.rows, Row(t, v, false), u);
      TableKeeps(st, st.rows + [Row(t, v, false)], u);
    case RevokeAll(v) =>
      FamilyFacts(st.rows, v, u);
      TableKeeps(st, RevokeFamily(st.rows, v), u);
    case Present(t) => PresentKeeps(st, t, u);
    case Advance(i, secret) =>
      match st.calls[i]
      case Presented(t) => ClaimKeeps(st, i, secret, u);
      case Claimed(t, n) =>
        var row := First(st.rows, t);
        assert CallOk(st.rows, st.calls[i]);
        CallKeeps(st, i, if row.None? then Finished(t, None) else Read(t, row.value, n), u);
      case Read(t, row, n) =>
        if n < 1 { ReuseKeeps(st, i, secret, u); } else { ReissueKeeps(st, i, secret, u); }
      case Finished(_, _) =>
  }

  // --- every run ------------------------------------------------------------------------------------------

  function Issues(events: seq<Event>, u: int): nat {
    if events == [] then 0 else Fresh(events[0], u) + Issues(events[1..], u)
  }

  const Empty := State([], [])

  /** Whatever happens, the tokens a user holds or is about to get grow only by fresh issues. */
  lemma {:induction false} RunKeeps(events: seq<Event>, st: State, u: int)
    requires Valid(st) && LegalRun(events, st)
    ensures Valid(Run(events, st)) && Follows(st.rows, Run(events, st).rows)
    ensures Potential(Run(events, st), u) <= Potential(st, u) + Issues(events, u)
  {
    hide Valid, Step, Legal, First, Count;
    if events != [] {
      StepKeeps(st, events[0], u);
      RunKeeps(events[1..], Step(st, events[0]), u);
    }
  }

  lemma EmptyIsValid()
    ensures Valid(Empty)
  {
    forall t: int ensures SingleUse(Empty, t) {}
  }

  /** In every interleaving, the active tokens of a user and its claimed, not yet reissued rotations
      never outnumber its fresh issues. */
  lemma NeverMoreThanIssued(events: seq<Event>, u: int)
    requires LegalRun(events, Empty)
    ensures Active(Run(events, Empty).rows, u) + Pending(Run(events, Empty), u) <= Issues(events, u)
  {
    EmptyIsValid();
    RunKeeps(events, Empty, u);
  }

  /** A step gives no call another number or another token, and what a finished call was told stands. */
  lemma CallsStay(st: State, e: Event, i: nat)
    requires i < |st.calls|
    ensures var after := Step(st, e);
            && |after.calls| == |st.calls| + (if e.Present? then 1 else 0)
            && after.calls[i].token == st.calls[i].token
            && (st.calls[i].Finished? ==> after.calls[i] == st.calls[i])
            && (e.Present? ==> after.calls[|st.calls|] == Presented(e.token))
  {
  }

  /** Every successor that was handed out is the token of a row of the user named with it. */
  ghost predicate GrantsStored(st: State) {
    forall c :: c in st.calls && Rotated(c) ==> OwnedBy(st.rows, c.result.value.token, c.result.value.user)
  }

  /** A step hands out a successor only for a row it adds: new, active, and of the presented token's user. */
  lemma GrantIsGood(st: State, i: nat, secret: int)
    requires Valid(st) && Legal(st, Advance(i, secret)) && !Rotated(st.calls[i])
    requires var c := Step(st, Advance(i, secret)).calls[i]; Rotated(c)
    ensures var after := Step(st, Advance(i, secret));
            var (t, g) := (st.calls[i].token, after.calls[i].result.value);
            && First(st.rows, g.token).None?
            && First(after.rows, g.token) == Some(Row(g.token, g.user, false))
            && OwnedBy(st.rows, t, g.user)
  {
    var call := st.calls[i];
    assert CallOk(st.rows, call);
    hide First, Count, Update;
    AppendFacts(st.rows, Row(secret, call.row.user, false), 0);
  }

  lemma GrantsKeep(st: State, e: Event)
    requires Valid(st) && Legal(st, e) && GrantsStored(st)
    ensures GrantsStored(Step(st, e))
  {
    hide First, Count, Update, SingleUse;
    var after := Step(st, e);
    StepKeeps(st, e, 0);
    forall c | c in after.calls && Rotated(c)
      ensures OwnedBy(after.rows, c.result.value.token, c.result.value.user)
    {
      if c in st.calls {
        FollowsFirst(st.rows, after.rows, c.result.value.token);
      } else {
        assert e.Advance? && c == after.calls[e.call];
        GrantIsGood(st, e.call, e.token);
      }
    }
  }

  /** In every interleaving, each successor handed out is stored under the user it was handed to. */
  lemma {:induction false} SuccessorsStored(events: seq<Event>, st: State)
    requires Valid(st) && GrantsStored(st) && LegalRun(events, st)
    ensures GrantsStored(Run(events, st))
  {
    hide Valid, Step, Legal, GrantsStored;
    if events != [] {
      GrantsKeep(st, events[0]);
      StepKeeps(st, events[0], 0);
      SuccessorsStored(events[1..], Step(st, events[0]));
    }
  }

  /** In every interleaving, a presented token gets at most one successor, and has been revoked by then. */
  lemma OneSuccessor(events: seq<Event>, i: nat, j: nat, t: int)
    requires LegalRun(events, Empty)
    requires var calls := Run(events, Empty).calls;
             && i < |calls| && j < |calls|
             && Rotated(calls[i]) && calls[i].token == t && Rotated(calls[j]) && calls[j].token == t
    ensures i == j && Spent(Run(events, Empty).rows, t) == 1
  {
    var st := Run(events, Empty);
    EmptyIsValid();
    RunKeeps(events, Empty, 0);
    assert SingleUse(st, t);
    TwoCounted(st.calls, i, j, ClaimOn(t));
  }

  /** A revoked token stays revoked, and stays findable, so that a replay is always noticed. */
  lemma RevokedForGood(events: seq<Event>, st: State, t: int)
    requires Valid(st) && LegalRun(events, st) && Spent(st.rows, t) == 1
    ensures Spent(Run(events, st).rows, t) == 1
  {
    RunKeeps(events, st, 0);
    FollowsFirst(st.rows, Run(events, st).rows, t);
  }

  // --- how final a family revocation is -------------------------------------------------------------------

  /** No token of `u` is ever active again unless one is issued afresh. */
  ghost predicate FamilyIsDead(st: State, u: int) {
    forall events :: LegalRun(events, st) && Issues(events, u) == 0 ==> Active(Run(events, st).rows, u) == 0
  }

  /** A family revocation leaves no active token; it is final exactly when no rotation of that family
      stands between its claim and its reissue. */
  lemma RevocationFinalIffNoneInFlight(st: State, e: Event, u: int)
    requires Valid(st) && Legal(st, e) && RevokesFamily(st, e, u)
    ensures Active(Step(st, e).rows, u) == 0
    ensures FamilyIsDead(Step(st, e), u) <==> Pending(st, u) == 0
  {
    var after := Step(st, e);
    StepKeeps(st, e, u);
    RevokedNow(st, e, u);
    if Pending(after, u) == 0 {
      forall events | LegalRun(events, after) && Issues(events, u) == 0
        ensures Active(Run(events, after).rows, u) == 0
      {
        RunKeeps(events, after, u);
      }
    } else {
      var events := InFlightSurvives(after, u);
    }
  }

  lemma RevokedNow(st: State, e: Event, u: int)
    requires Valid(st) && RevokesFamily(st, e, u)
    ensures Active(Step(st, e).rows, u) == 0
  {
    FamilyFacts(st.rows, u, u);
  }

  lemma {:induction false} Unused(rows: seq<Row>) returns (t: int)
    ensures forall x :: x >= t ==> First(rows, x).None?
  {
    if rows == [] {
      t := 0;
    } else {
      t := Unused(rows[1..]);
      t := if t <= rows[0].token then rows[0].token + 1 else t;
    }
  }

  /** Events of one call only: the run, its legality, and that nothing is issued. */
  lemma OneAdvance(st: State, i: nat, secret: int, u: int)
    ensures var e := Advance(i, secret);
            && Run([e], st) == Step(st, e)
            && (LegalRun([e], st) <==> Legal(st, e))
            && Issues([e], u) == 0
  {
    hide Step, Legal;
    var e := Advance(i, secret);
    assert [e][1..] == [];
    assert Issues([], u) == 0;
  }

  lemma TwoAdvances(st: State, i: nat, secret: int, u: int)
    ensures var e := Advance(i, secret);
            && Run([e, e], st) == Step(Step(st, e), e)
            && (LegalRun([e, e], st) <==> Legal(st, e) && Legal(Step(st, e), e))
            && Issues([e, e], u) == 0
  {
    hide Step, Legal;
    var e := Advance(i, secret);
    assert [e, e][1..] == [e];
    OneAdvance(Step(st, e), i, secret, u);
  }

  /** A call whose claim on a token of `u` is in flight. */
  lemma FindInFlight(st: State, u: int) returns (i: nat)
    requires Valid(st) && Pending(st, u) > 0
    ensures i < |st.calls| && InFlight(st.calls[i]) && OwnedBy(st.rows, st.calls[i].token, u)
    ensures CallOk(st.rows, st.calls[i])
  {
    hide Count, First;
    CountZero(st.calls, PendingOf(st.rows, u));
    var c :| c in st.calls && PendingOf(st.rows, u)(c);
    i :| 0 <= i < |st.calls| && st.calls[i] == c;
  }

  /** The SELECT of a call that has claimed finds the row; the table stays. */
  lemma ReadStep(st: State, i: nat, secret: int, u: int)
    requires Valid(st) && i < |st.calls| && st.calls[i].Claimed? && OwnedBy(st.rows, st.calls[i].token, u)
    requires First(st.rows, secret).None?
    ensures var s1 := Step(st, Advance(i, secret));
            && Valid(s1) && s1.rows == st.rows && i < |s1.calls|
            && s1.calls[i] == Read(st.calls[i].token, First(st.rows, st.calls[i].token).value, st.calls[i].count)
  {
    var (t, n) := (st.calls[i].token, st.calls[i].count);
    StepKeeps(st, Advance(i, secret), u);
    hide Valid, First;
    assert st.calls[i := Read(t, First(st.rows, t).value, n)][i] == Read(t, First(st.rows, t).value, n);
  }

  /** A claimed rotation that goes on mints an active token, whatever was revoked meanwhile. */
  lemma InFlightSurvives(st: State, u: int) returns (events: seq<Event>)
    requires Valid(st) && Pending(st, u) > 0
    ensures LegalRun(events, st) && Issues(events, u) == 0 && Active(Run(events, st).rows, u) > 0
  {
    hide First, Count, Valid, Step, Run, LegalRun, Issues, Active, Pending;
    var i := FindInFlight(st, u);
    var secret := Unused(st.rows);
    var e := Advance(i, secret);
    if st.calls[i].Claimed? {
      var s1 := Step(st, e);
      ReadStep(st, i, secret, u);
      assert Legal(st, e) && Legal(s1, e);
      ReissueActivates(s1, i, secret, u);
      TwoAdvances(st, i, secret, u);
      events := [e, e];
    } else {
      ReissueActivates(st, i, secret, u);
      OneAdvance(st, i, secret, u);
      events := [e];
    }
  }

  lemma ReissueActivates(st: State, i: nat, secret: int, u: int)
    requires Valid(st) && i < |st.calls| && st.calls[i].Read? && st.calls[i].count >= 1
    requires First(st.rows, secret).None? && OwnedBy(st.rows, st.calls[i].token, u)
    ensures Active(Step(st, Advance(i, secret)).rows, u) > 0
  {
    var call := st.calls[i];
    assert CallOk(st.rows, call);
    hide First, Count, Valid, Follows;
    AppendFacts(st.rows, Row(secret, call.row.user, false), u);
  }

  /** Two requests present the same token; the loser revokes the family before the winner reissues,
      and the winner's new token is active all the same. */
  lemma WinnerOutlivesRevocation(u: int)
    ensures var before := [Issue(u, 10), Present(10), Present(10), Advance(0, 11), Advance(1, 11), Advance(1, 11)];
            var st := Run(before, Empty);
            && LegalRun(before, Empty)
            && Legal(st, Advance(1, 11)) && RevokesFamily(st, Advance(1, 11), u)
            && !FamilyIsDead(Step(st, Advance(1, 11)), u)
  {
    var first := [Issue(u, 10), Present(10), Present(10)];
    var last := [Advance(0, 11), Advance(1, 11), Advance(1, 11)];
    var s6 := State([Row(10, u, true)], [Claimed(10, 1), Read(10, Row(10, u, true), 0)]);
    TwoPresent(u, last);
    LoserNoticesReuse(u);
    EmptyIsValid();
    hide Run, LegalRun, Step, Valid;
    RunKeeps(first + last, Empty, u);
    assert first + last == [Issue(u, 10), Present(10), Present(10), Advance(0, 11), Advance(1, 11), Advance(1, 11)];
    CountZero(s6.calls, PendingOf(s6.rows, u));
    assert s6.calls[0] in s6.calls;
    RevocationFinalIffNoneInFlight(s6, Advance(1, 11), u);
  }

  lemma TwoPresent(u: int, last: seq<Event>)
    ensures var first := [Issue(u, 10), Present(10), Present(10)];
            var s3 := State([Row(10, u, false)], [Presented(10), Presented(10)]);
            && Run(first + last, Empty) == Run(last, s3)
            && (LegalRun(first + last, Empty) <==> LegalRun(last, s3))
  {
    var active := Row(10, u, false);
    RunOn(Issue(u, 10), [Present(10), Present(10)] + last, Empty);
    RunOn(Present(10), [Present(10)] + last, State([active], []));
    RunOn(Present(10), last, State([active], [Presented(10)]));
    hide Run, LegalRun;
    assert [Issue(u, 10), Present(10), Present(10)] + last
        == [Issue(u, 10)] + ([Present(10), Present(10)] + last);
    assert [Present(10), Present(10)] + last == [Present(10)] + ([Present(10)] + last);
    assert Step(Empty, Issue(u, 10)) == State([active], []);
    assert Step(State([active], []), Present(10)) == State([active], [Presented(10)]);
    assert Step(State([active], [Presented(10)]), Present(10))
        == State([active], [Presented(10), Presented(10)]);
  }

  lemma LoserNoticesReuse(u: int)
    ensures var last := [Advance(0, 11), Advance(1, 11), Advance(1, 11)];
            var s3 := State([Row(10, u, false)], [Presented(10), Presented(10)]);
            && LegalRun(last, s3)
            && Run(last, s3) == State([Row(10, u, true)], [Claimed(10, 1), Read(10, Row(10, u, true), 0)])
  {
    var active, revoked := Row(10, u, false), Row(10, u, true);
    var s3 := State([active], [Presented(10), Presented(10)]);
    var s4 := State([revoked], [Claimed(10, 1), Presented(10)]);
    var s5 := State([revoked], [Claimed(10, 1), Claimed(10, 0)]);
    var s6 := State([revoked], [Claimed(10, 1), Read(10, revoked, 0)]);
    RunOn(Advance(0, 11), [Advance(1, 11)] + [Advance(1, 11)], s3);
    RunOn(Advance(1, 11), [Advance(1, 11)], s4);
    RunOn(Advance(1, 11), [], s5);
    assert Run([], s6) == s6 && LegalRun([], s6);
    hide Run, LegalRun;
    assert [Advance(0, 11), Advance(1, 11), Advance(1, 11)] == [Advance(0, 11)] + ([Advance(1, 11)] + [Advance(1, 11)]);
    assert [Advance(1, 11)] + [] == [Advance(1, 11)];
    assert [active][1..] == [] && [revoked][1..] == [];
    assert Claim([active], 10) == [revoked] && Count([active], Unrevoked(10)) == 1;
    assert Step(s3, Advance(0, 11)) == s4;
    assert Claim([revoked], 10) == [revoked] && Count([revoked], Unrevoked(10)) == 0;
    assert Step(s4, Advance(1, 11)) == s5;
    assert Step(s5, Advance(1, 11)) == s6;
  }

  lemma RunOn(e: Event, rest: seq<Event>, st: State)
    ensures Run([e] + rest, st) == Run(rest, Step(st, e))
    ensures LegalRun([e] + rest, st) <==> Legal(st, e) && LegalRun(rest, Step(st, e))
  {
    assert ([e] + rest)[1..] == rest;
  }

  // --- a call that nobody interrupts -------------------------------------------------------------------------

  /** What `rotate_refresh_token` does when it runs alone. */
  function Rotate(rows: seq<Row>, t: int, secret: int): (seq<Row>, Option<Grant>) {
    match First(rows, t)
    case None => (rows, None)
    case Some(row) =>
      if row.revoked then (RevokeFamily(rows, row.user), None)
      else (Claim(rows, t) + [Row(secret, row.user, false)], Some(Grant(secret, row.user)))
  }

  lemma UninterruptedIsRotate(st: State, i: nat, secret: int)
    requires Valid(st) && i < |st.calls| && st.calls[i].Presented?
    ensures var t := st.calls[i].token;
            var (rows, result) := Rotate(st.rows, t, secret);
            var e := Advance(i, secret);
            var s2 := Step(Step(st, e), e);
            var s3 := if s2.calls[i].Finished? then s2 else Step(s2, e);
            s3 == State(rows, st.calls[i := Finished(t, result)])
  {
    hide First, Update, Count, DistinctTokens;
    var t := st.calls[i].token;
    ClaimFacts(st.rows, t, 0);
    assert st.calls[i := Claimed(t, Count(st.rows, Unrevoked(t)))][i] == Claimed(t, Count(st.rows, Unrevoked(t)));
  }

  /** The successor of a rotation can be rotated in turn, for the same user, while its predecessor cannot. */
  lemma RotationsChain(rows: seq<Row>, t: int, secret: int, next: int)
    requires DistinctTokens(rows) && First(rows, secret).None? && Rotate(rows, t, secret).1.Some?
    ensures var (after, granted) := Rotate(rows, t, secret);
            && Rotate(after, granted.value.token, next).1 == Some(Grant(next, First(rows, t).value.user))
            && Rotate(after, t, next).1.None?
  {
    hide Update;
    var user := First(rows, t).value.user;
    ClaimFacts(rows, t, user);
    AppendFacts(Claim(rows, t), Row(secret, user, false), user);
  }

  /** The table as the model class updates it. */
  class RefreshTokenTable {
    var rows: seq<Row>

    constructor ()
      ensures rows == []
    {
      rows := [];
    }

    ghost predicate Valid()
      reads this
    {
      DistinctTokens(rows)
    }

    method Issue(user: int, secret: int)
      requires Valid() && First(rows, secret).None?
      modifies this
      ensures Valid() && rows == old(rows) + [Row(secret, user, false)]
    {
      AppendFacts(rows, Row(secret, user, false), user);
      rows := rows + [Row(secret, user, false)];
    }

    method RevokeAll(user: int)
      requires Valid()
      modifies this
      ensures Valid() && rows == RevokeFamily(old(rows), user) && Active(rows, user) == 0
    {
      FamilyFacts(rows, user, user);
      rows := RevokeFamily(rows, user);
    }

    /** The conditional UPDATE, with its row count. */
    method ClaimToken(t: int) returns (claimed: nat)
      requires Valid()
      modifies this
      ensures Valid() && rows == Claim(old(rows), t) && claimed == Count(old(rows), Unrevoked(t))
    {
      ClaimFacts(rows, t, 0);
      claimed := Count(rows, Unrevoked(t));
      rows := Claim(rows, t);
    }

    /** Exchanges an active token for a fresh one of the same user; refuses an unknown token without
        side effect; revokes the whole family on reuse. */
    method RotateToken(t: int, secret: int) returns (result: Option<Grant>)
      requires Valid() && First(rows, secret).None?
      modifies this
      ensures Valid() && (rows, result) == Rotate(old(rows), t, secret)
      ensures First(old(rows), t).None? ==> rows == old(rows) && result.None?
      ensures result.Some? ==>
                && result.value.token == secret
                && First(old(rows), t) == Some(Row(t, result.value.user, false))
                && First(rows, t) == Some(Row(t, result.value.user, true))
                && First(rows, secret) == Some(Row(secret, result.value.user, false))
                && Active(rows, result.value.user) == Active(old(rows), result.value.user)
      ensures Spent(old(rows), t) == 1 ==>
                result.None? && Active(rows, First(old(rows), t).value.user) == 0
    {
      ghost var before := rows;
      ghost var user := if First(rows, t).Some? then First(rows, t).value.user else 0;
      ClaimFacts(rows, t, user);
      var claimed := ClaimToken(t);
      var record := First(rows, t);
      if record.None? {
        return None;
      }
      if claimed < 1 {
        RevokeAll(record.value.user);
        return None;
      }
      AppendFacts(rows, Row(secret, user, false), user);
      Issue(record.value.user, secret);
      result := Some(Grant(secret, record.value.user));
    }
  }
}
