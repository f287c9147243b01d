/** The bounded retry around a transaction. */
module Transact {
  import opened Seqs
  import opened AfterCommit

  /** What the callback does on one attempt, and how that attempt's COMMIT goes. */
  datatype Attempt = Attempt(body: seq<Cmd>, commitFails: Option<Failure>)

  function Try(a: Attempt, st: State): (State, Outcome) {
    ExecOne(Atomic(a.body, a.commitFails, false), st)
  }

  function Total(attempts: int): (n: nat)
    ensures n >= 1
  {
    if attempts < 1 then 1 else attempts
  }

  /** Attempts `n`, `n + 1`, ... up to `total`; only a transient failure leads to the next one. */
  function Retry(program: nat -> Attempt, n: nat, total: nat, st: State): (State, Outcome)
    requires n < total
    decreases total - n
  {
    var (s1, o) := Try(program(n), st);
    if o == Threw(Transient) && n + 1 < total then Retry(program, n + 1, total, s1) else (s1, o)
  }

  /** How many attempts are made. */
  function Used(program: nat -> Attempt, n: nat, total: nat, st: State): (used: nat)
    requires n < total
    ensures 1 <= used <= total - n
    decreases total - n
  {
    var (s1, o) := Try(program(n), st);
    if o == Threw(Transient) && n + 1 < total then 1 + Used(program, n + 1, total, s1) else 1
  }

  /** The state attempt `n + k` starts from. */
  ghost function Before(program: nat -> Attempt, n: nat, k: nat, st: State): State
    decreases k
  {
    if k == 0 then st else Before(program, n + 1, k - 1, Try(program(n), st).0)
  }

  /** Every attempt but the last failed transiently; the last one gives the result, and it is the
      last because it did not fail transiently or because no attempt was left. */
  lemma {:induction false} RetriesOnlyTransient(program: nat -> Attempt, n: nat, total: nat, st: State)
    requires n < total
    ensures var used := Used(program, n, total, st);
            && (forall k :: 0 <= k < used - 1 ==>
                  Try(program(n + k), Before(program, n, k, st)).1 == Threw(Transient))
            && Retry(program, n, total, st) == Try(program(n + used - 1), Before(program, n, used - 1, st))
            && (used < total - n ==> Retry(program, n, total, st).1 != Threw(Transient))
    decreases total - n
  {
    hide Try;
    var (s1, o) := Try(program(n), st);
    if o == Threw(Transient) && n + 1 < total {
      RetriesOnlyTransient(program, n + 1, total, s1);
      var used := Used(program, n, total, st);
      forall k | 0 <= k < used - 1
        ensures Try(program(n + k), Before(program, n, k, st)).1 == Threw(Transient)
      {
        if k > 0 {
          assert Before(program, n, k, st) == Before(program, n + 1, k - 1, s1);
          assert program(n + k) == program(n + 1 + (k - 1));
        }
      }
      assert Before(program, n, used - 1, st) == Before(program, n + 1, used - 2, s1);
    }
  }

  // --- at the top level -----------------------------------------------------------------------

  ghost predicate Commits(a: Attempt) {
    Effect(a.body).outcome == Done && a.commitFails.None?
  }

  /** The attempt commits, and then the first of its callbacks to fail fails transiently, with none that
      gets to run being cancelled. */
  ghost predicate FlushFailsTransiently(a: Attempt, st: State)
    requires Idle(st)
  {
    && Commits(a)
    && !Cancels(Effect(a.body).deferred, AtCommit(a.body, st))
    && FirstFailure(Effect(a.body).deferred, AtCommit(a.body, st)) == Some(Transient)
  }

  lemma TryStaysIdle(a: Attempt, st: State)
    requires Idle(st)
    ensures Idle(Try(a, st).0)
  {
  }

  lemma {:induction false} BeforeIdle(program: nat -> Attempt, n: nat, k: nat, st: State)
    requires Idle(st)
    ensures Idle(Before(program, n, k, st))
    decreases k
  {
    hide Try;
    if k > 0 {
      TryStaysIdle(program(n), st);
      BeforeIdle(program, n + 1, k - 1, Try(program(n), st).0);
    }
  }

  function Rounds(n: nat): seq<Event> {
    if n == 0 then [] else [Began, RolledBack] + Rounds(n - 1)
  }

  lemma {:induction false} CleanBefore(program: nat -> Attempt, n: nat, k: nat, st: State)
    requires Idle(st) && forall j :: n <= j < n + k ==> !Commits(program(j))
    ensures Before(program, n, k, st) == st.(log := st.log + Rounds(k))
    decreases k
  {
    hide Try, Commits;
    if k == 0 {
      assert st.log + [] == st.log;
    } else {
      FailedTry(program(n), st);
      var s1 := st.(log := st.log + [Began, RolledBack]);
      CleanBefore(program, n + 1, k - 1, s1);
      assert st.log + [Began, RolledBack] + Rounds(k - 1) == st.log + ([Began, RolledBack] + Rounds(k - 1));
    }
  }

  lemma FailedTry(a: Attempt, st: State)
    requires Idle(st) && !Commits(a)
    ensures Try(a, st).0 == st.(log := st.log + [Began, RolledBack])
  {
    hide Effect, ExecOne;
    OutermostFails(a.body, a.commitFails, false, st);
  }

  /** All that the failed attempts leave behind is their BEGIN and ROLLBACK: the whole call does what its
      last attempt alone does. */
  ghost predicate OnlyTheLastCounts(program: nat -> Attempt, attempts: int, st: State) {
    var used := Used(program, 0, Total(attempts), st);
    Retry(program, 0, Total(attempts), st) == Try(program(used - 1), st.(log := st.log + Rounds(used - 1)))
  }

  /** That is so if and only if no retried attempt had committed. */
  lemma OnlyTheLastAttemptCounts(program: nat -> Attempt, attempts: int, st: State)
    requires Idle(st)
    ensures OnlyTheLastCounts(program, attempts, st) <==>
            forall k :: 0 <= k < Used(program, 0, Total(attempts), st) - 1 ==> !Commits(program(k))
  {
    hide Try, Commits, Retry, Rounds, Used, Before, Total;
    var used := Used(program, 0, Total(attempts), st);
    RetriesOnlyTransient(program, 0, Total(attempts), st);
    if forall k :: 0 <= k < used - 1 ==> !Commits(program(k)) {
      CleanBefore(program, 0, used - 1, st);
    } else {
      var k := FirstCommitted(program, used - 1);
      CleanBefore(program, 0, k, st);
      CommittedShows(program, k, used - 1, st);
      BeforeIdle(program, 0, used - 1, st);
      RoundsShow(program(used - 1), k, used - 1, st);
    }
  }

  /** The first attempt that committed. */
  lemma {:induction false} FirstCommitted(program: nat -> Attempt, n: nat) returns (k: nat)
    requires exists j :: 0 <= j < n && Commits(program(j))
    ensures k < n && Commits(program(k)) && forall j :: 0 <= j < k ==> !Commits(program(j))
  {
    hide Commits;
    if exists j :: 0 <= j < n - 1 && Commits(program(j)) {
      k := FirstCommitted(program, n - 1);
    } else {
      k := n - 1;
    }
  }

  lemma {:induction false} BeforeStep(program: nat -> Attempt, n: nat, k: nat, st: State)
    requires k > 0
    ensures Before(program, n, k, st) == Try(program(n + k - 1), Before(program, n, k - 1, st)).0
    decreases k
  {
    hide Try;
    if k > 1 {
      BeforeStep(program, n + 1, k - 1, Try(program(n), st).0);
    }
  }

  lemma TryLogGrows(a: Attempt, st: State)
    ensures st.log <= Try(a, st).0.log
  {
    hide ExecOne;
    LogGrowsOne(Atomic(a.body, a.commitFails, false), st);
  }

  lemma {:induction false} BeforeLogGrows(program: nat -> Attempt, k: nat, m: nat, st: State)
    requires k <= m
    ensures Before(program, 0, k, st).log <= Before(program, 0, m, st).log
    decreases m - k
  {
    hide Try, Before;
    if k < m {
      BeforeLogGrows(program, k, m - 1, st);
      BeforeStep(program, 0, m, st);
      TryLogGrows(program(m - 1), Before(program, 0, m - 1, st));
    }
  }

  /** A committed attempt leaves its COMMIT where a failed one leaves its ROLLBACK. */
  lemma CommittedShows(program: nat -> Attempt, k: nat, m: nat, st: State)
    requires Idle(st) && k < m && Commits(program(k))
    requires Before(program, 0, k, st) == st.(log := st.log + Rounds(k))
    ensures var log := Try(program(m), Before(program, 0, m, st)).0.log;
            |log| > |st.log| + 2 * k + 1 && log[|st.log| + 2 * k + 1] == Committed
  {
    hide Try, Before, Commits, Rounds;
    var before := Before(program, 0, k, st);
    RoundsSize(k);
    CommittedTry(program(k), before);
    BeforeStep(program, 0, k + 1, st);
    BeforeLogGrows(program, k + 1, m, st);
    TryLogGrows(program(m), Before(program, 0, m, st));
  }

  lemma CommittedTry(a: Attempt, st: State)
    requires Idle(st) && Commits(a)
    ensures st.log + [Began, Committed] <= Try(a, st).0.log
  {
    hide Effect, ExecOne, Flush;
    OutermostCommits(a.body, false, st);
    LogGrowsFlush(Effect(a.body).deferred, AtCommit(a.body, st), None);
  }

  lemma RoundsShow(a: Attempt, k: nat, n: nat, st: State)
    requires k < n
    ensures var log := Try(a, st.(log := st.log + Rounds(n))).0.log;
            |log| > |st.log| + 2 * k + 1 && log[|st.log| + 2 * k + 1] == RolledBack
  {
    hide Try, Rounds;
    RoundsSize(n);
    RoundsAt(k, n);
    TryLogGrows(a, st.(log := st.log + Rounds(n)));
  }

  lemma {:induction false} RoundsSize(n: nat)
    ensures |Rounds(n)| == 2 * n
  {
    if n > 0 { RoundsSize(n - 1); }
  }

  lemma {:induction false} RoundsAt(k: nat, n: nat)
    requires k < n
    ensures |Rounds(n)| == 2 * n && Rounds(n)[2 * k + 1] == RolledBack
  {
    RoundsSize(n);
    if k > 0 { RoundsAt(k - 1, n - 1); }
  }

  /** In terms of the callbacks: only the last attempt's writes and deferred work take effect if and only
      if no attempt that was retried had committed and then flushed a callback that failed transiently. */
  lemma CleanIffNoTransientFlush(program: nat -> Attempt, attempts: int, st: State)
    requires Idle(st)
    ensures OnlyTheLastCounts(program, attempts, st) <==>
            forall k :: 0 <= k < Used(program, 0, Total(attempts), st) - 1 ==>
              Idle(Before(program, 0, k, st))
              && !FlushFailsTransiently(program(k), Before(program, 0, k, st))
  {
    hide Try, Commits, Retry, Used, Before, Total, Idle, FlushFailsTransiently, OnlyTheLastCounts;
    var used := Used(program, 0, Total(attempts), st);
    RetriesOnlyTransient(program, 0, Total(attempts), st);
    OnlyTheLastAttemptCounts(program, attempts, st);
    forall k | 0 <= k < used - 1
      ensures Idle(Before(program, 0, k, st))
      ensures Commits(program(k)) <==> FlushFailsTransiently(program(k), Before(program, 0, k, st))
    {
      BeforeIdle(program, 0, k, st);
      assert Try(program(0 + k), Before(program, 0, k, st)).1 == Threw(Transient);
      TransientAfterCommit(program(k), Before(program, 0, k, st));
    }
  }

  /** An attempt that ends transiently had committed exactly when that failure came out of its flush. */
  lemma TransientAfterCommit(a: Attempt, st: State)
    requires Idle(st) && Try(a, st).1 == Threw(Transient)
    ensures Commits(a) <==> FlushFailsTransiently(a, st)
  {
    hide Effect, ExecOne, Flush, Cancels, FirstFailure;
    if Commits(a) {
      OutermostCommits(a.body, false, st);
      FlushSurfacesFirst(Effect(a.body).deferred, AtCommit(a.body, st), None);
    }
  }

  // --- how many attempts the caller gets ---------------------------------------------------------------

  /** No more attempts are made than the caller allows, and one is always made: with an allowance of one or
      less the call is that one attempt. */
  lemma AllowedAttempts(program: nat -> Attempt, attempts: int, st: State)
    ensures var used := Used(program, 0, Total(attempts), st);
            && 1 <= used && (attempts >= 1 ==> used <= attempts) && (attempts <= 1 ==> used == 1)
    ensures attempts <= 1 ==> Retry(program, 0, Total(attempts), st) == Try(program(0), st)
  {
    hide Try;
  }

  /** The bodies of `k` attempts from the `n`-th on fail transiently. */
  ghost predicate FailTransiently(program: nat -> Attempt, n: nat, k: nat) {
    forall j :: n <= j < n + k ==> Effect(program(j).body).outcome == Threw(Transient)
  }

  /** When the bodies of all allowed attempts fail transiently, each of them is made, and the transient
      failure surfaces: the log shows one BEGIN and one ROLLBACK for each, and nothing else has changed. */
  lemma AllAttemptsFail(program: nat -> Attempt, attempts: int, st: State)
    requires Idle(st) && attempts >= 1 && FailTransiently(program, 0, attempts)
    ensures Used(program, 0, Total(attempts), st) == attempts
    ensures Retry(program, 0, Total(attempts), st) == (st.(log := st.log + Rounds(attempts)), Threw(Transient))
    ensures Count(Rounds(attempts), IsBegin()) == attempts
  {
    hide Try, Rounds, Retry, Used, FailTransiently, Count;
    AllTotalFail(program, Total(attempts), st);
    RoundsBegin(attempts);
  }

  lemma AllTotalFail(program: nat -> Attempt, total: nat, st: State)
    requires Idle(st) && total >= 1 && FailTransiently(program, 0, total)
    ensures Used(program, 0, total, st) == total
    ensures Retry(program, 0, total, st) == (st.(log := st.log + Rounds(total)), Threw(Transient))
  {
    hide Try, Rounds, Retry, Used, Effect;
    var n := total - 1;
    var later := st.(log := st.log + Rounds(n));
    FailuresRetried(program, 0, total, n, st);
    LastAttempt(program, n, later);
    FailsInBody(program(n), later);
    RoundsSnoc(n);
    ConcatAssoc(st.log, Rounds(n), [Began, RolledBack]);
  }

  lemma LastAttempt(program: nat -> Attempt, n: nat, st: State)
    ensures Retry(program, n, n + 1, st) == Try(program(n), st) && Used(program, n, n + 1, st) == 1
  {
    hide Try;
  }

  /** When the first `k` bodies fail transiently, fewer than are allowed, and the next attempt does not fail so,
      that one gives the result, whether it succeeds or fails in any other way. */
  lemma FirstToEnd(program: nat -> Attempt, attempts: int, k: nat, st: State)
    requires Idle(st) && FailTransiently(program, 0, k) && (k == 0 || k < attempts)
    requires Try(program(k), st.(log := st.log + Rounds(k))).1 != Threw(Transient)
    ensures Used(program, 0, Total(attempts), st) == k + 1
    ensures Retry(program, 0, Total(attempts), st) == Try(program(k), st.(log := st.log + Rounds(k)))
  {
    hide Try;
    FailuresRetried(program, 0, Total(attempts), k, st);
  }

  function IsBegin(): Event -> bool {
    (e: Event) => e.Began?
  }

  lemma {:induction false} RoundsBegin(n: nat)
    ensures Count(Rounds(n), IsBegin()) == n
  {
    if n > 0 {
      RoundsBegin(n - 1);
      CountConcat([Began, RolledBack], Rounds(n - 1), IsBegin());
      assert [Began, RolledBack][1..] == [RolledBack] && [RolledBack][1..] == [];
    }
  }

  lemma {:induction false} RoundsSnoc(n: nat)
    ensures Rounds(n + 1) == Rounds(n) + [Began, RolledBack]
  {
    if n > 0 {
      RoundsSnoc(n - 1);
      ConcatAssoc([Began, RolledBack], Rounds(n - 1), [Began, RolledBack]);
    }
  }

  lemma FailsInBody(a: Attempt, st: State)
    requires Idle(st) && Effect(a.body).outcome == Threw(Transient)
    ensures Try(a, st) == (st.(log := st.log + [Began, RolledBack]), Threw(Transient))
  {
    hide Effect, ExecOne;
    RolledBackTransaction(a.body, a.commitFails, false, st);
  }

  /** Attempts whose bodies fail transiently are followed by the next one, as long as one is left. */
  lemma {:induction false} FailuresRetried(program: nat -> Attempt, n: nat, total: nat, k: nat, st: State)
    requires Idle(st) && n + k < total && FailTransiently(program, n, k)
    ensures var later := st.(log := st.log + Rounds(k));
            && Retry(program, n, total, st) == Retry(program, n + k, total, later)
            && Used(program, n, total, st) == k + Used(program, n + k, total, later)
    decreases k
  {
    hide Try, Effect;
    if k == 0 {
      assert st.log + Rounds(0) == st.log;
    } else {
      FailsInBody(program(n), st);
      var next := st.(log := st.log + [Began, RolledBack]);
      FailuresRetried(program, n + 1, total, k - 1, next);
      ConcatAssoc(st.log, [Began, RolledBack], Rounds(k - 1));
    }
  }

  // --- deferred work that raises nothing transient ---------------------------------------------------

  /** Nothing in the text, deferred bodies included, raises a transient failure. */
  predicate Quiet(cmds: seq<Cmd>)
    decreases cmds, 1
  {
    cmds == [] || (QuietOne(cmds[0]) && Quiet(cmds[1..]))
  }

  predicate QuietOne(c: Cmd)
    decreases c, 0
  {
    match c
    case Write(_) => true
    case Raise(f) => f != Transient
    case Defer(cb) => Quiet(cb.body)
    case Atomic(body, commitFails, _) => commitFails != Some(Transient) && Quiet(body)
    case Scope(body, _) => Quiet(body)
  }

  /** The failures a text names, deferred bodies and failing COMMITs included. */
  function Failures(cmds: seq<Cmd>): set<Failure>
    decreases cmds, 1
  {
    if cmds == [] then {} else FailuresOne(cmds[0]) + Failures(cmds[1..])
  }

  function FailuresOne(c: Cmd): set<Failure>
    decreases c, 0
  {
    match c
    case Write(_) => {}
    case Raise(f) => {f}
    case Defer(cb) => Failures(cb.body)
    case Atomic(body, commitFails, _) => Failures(body) + if commitFails.Some? then {commitFails.value} else {}
    case Scope(body, _) => Failures(body)
  }

  lemma {:induction false} QuietIff(cmds: seq<Cmd>)
    ensures Quiet(cmds) <==> Transient !in Failures(cmds)
    decreases cmds, 1
  {
    if cmds != [] {
      QuietOneIff(cmds[0]);
      QuietIff(cmds[1..]);
    }
  }

  lemma {:induction false} QuietOneIff(c: Cmd)
    ensures QuietOne(c) <==> Transient !in FailuresOne(c)
    decreases c, 0
  {
    match c
    case Defer(cb) => QuietIff(cb.body);
    case Atomic(body, _, _) => QuietIff(body);
    case Scope(body, _) => QuietIff(body);
    case _ =>
  }

  /** Every piece of work the text defers, at whatever nesting, is quiet. */
  predicate DefersQuietly(cmds: seq<Cmd>)
    decreases cmds, 1
  {
    cmds == [] || (DefersQuietlyOne(cmds[0]) && DefersQuietly(cmds[1..]))
  }

  predicate DefersQuietlyOne(c: Cmd)
    decreases c, 0
  {
    match c
    case Defer(cb) => Quiet(cb.body)
    case Atomic(body, _, _) => DefersQuietly(body)
    case Scope(body, _) => DefersQuietly(body)
    case _ => true
  }

  /** A quiet text defers quietly, and what it raises itself does not matter. */
  lemma {:induction false} QuietDefersQuietly(cmds: seq<Cmd>, f: Failure)
    ensures Quiet(cmds) ==> DefersQuietly(cmds)
    ensures DefersQuietly([Raise(f)] + cmds) <==> DefersQuietly(cmds)
    decreases cmds, 1
  {
    assert ([Raise(f)] + cmds)[1..] == cmds;
    if cmds != [] {
      QuietOneDefersQuietly(cmds[0], f);
      QuietDefersQuietly(cmds[1..], f);
    }
  }

  lemma {:induction false} QuietOneDefersQuietly(c: Cmd, f: Failure)
    ensures QuietOne(c) ==> DefersQuietlyOne(c)
    decreases c, 0
  {
    match c
    case Atomic(body, _, _) => QuietDefersQuietly(body, f);
    case Scope(body, _) => QuietDefersQuietly(body, f);
    case _ =>
  }

  ghost predicate AllQuiet(cbs: seq<Callback>) {
    forall i :: 0 <= i < |cbs| ==> Quiet(cbs[i].body)
  }

  ghost predicate QuietBuffer(st: State) {
    st.buffer.Some? ==> AllQuiet(st.buffer.value)
  }

  ghost predicate StaysQuiet(r: (State, Outcome)) {
    QuietBuffer(r.0) && r.1 != Threw(Transient)
  }

  lemma {:induction false} QuietExec(cmds: seq<Cmd>, st: State)
    requires Quiet(cmds) && QuietBuffer(st)
    ensures StaysQuiet(Exec(cmds, st))
    decreases Size(cmds), 1, |cmds|
  {
    hide ExecOne, Balanced, QuietOne, AllQuiet;
    if cmds != [] {
      QuietExecOne(cmds[0], st);
      var (s1, o) := ExecOne(cmds[0], st);
      if !o.Threw? { QuietExec(cmds[1..], s1); }
    }
  }

  lemma {:induction false} QuietExecOne(c: Cmd, st: State)
    requires QuietOne(c) && QuietBuffer(st)
    ensures StaysQuiet(ExecOne(c, st))
    decreases CmdSize(c), 0, 0
  {
    hide Exec, Leave, Flush, RunCallback, Quiet;
    match c
    case Write(_) =>
    case Raise(_) =>
    case Defer(cb) =>
      if st.buffer.None? { QuietCallback(cb, st); }
    case Atomic(body, commitFails, _) =>
      if st.open.Some? {
        QuietExec(body, st);
      } else {
        var entered := Enter(st).(open := Some([]), log := st.log + [Began]);
        QuietExec(body, entered);
        var (s1, o) := Exec(body, entered);
        BodySize(body, entered, s1, st);
        var (s2, o2) := Finish(s1, o, commitFails);
        QuietLeave(st.buffer.None?, s2, o2, Size(body));
      }
    case Scope(body, _) =>
      QuietExec(body, Enter(st));
      var (s1, o) := Exec(body, Enter(st));
      BodySize(body, Enter(st), s1, st);
      QuietLeave(st.buffer.None?, s1, o, Size(body));
  }

  lemma {:induction false} QuietLeave(owner: bool, st: State, o: Outcome, size: nat)
    requires st.buffer.Some? && (owner ==> BufferSize(st.buffer.value) <= size)
    requires QuietBuffer(st) && o != Threw(Transient)
    ensures StaysQuiet(Leave(owner, st, o, size))
    decreases size, 2, 0
  {
    hide Flush;
    if owner && o.Done? {
      QuietFlush(st.buffer.value, st.(buffer := None), None);
    }
  }

  lemma {:induction false} QuietFlush(cbs: seq<Callback>, st: State, first: Option<Failure>)
    requires st.buffer.None? && AllQuiet(cbs) && first != Some(Transient)
    ensures StaysQuiet(Flush(cbs, st, first))
    decreases BufferSize(cbs), 1, |cbs|
  {
    hide RunCallback;
    if cbs != [] {
      QuietCallback(cbs[0], st);
      var (s1, o) := RunCallback(cbs[0], st);
      if o != Threw(Cancelled) {
        QuietFlush(cbs[1..], s1, if o.Threw? && first.None? then Some(o.failure) else first);
      }
    }
  }

  lemma {:induction false} QuietCallback(cb: Callback, st: State)
    requires Quiet(cb.body) && QuietBuffer(st)
    ensures StaysQuiet(RunCallback(cb, st))
    decreases CallbackSize(cb), 0, 0
  {
    hide Exec;
    QuietExec(cb.body, st.(log := st.log + [Ran(cb.tag)]));
  }

  lemma {:induction false} DeferredIsQuiet(cmds: seq<Cmd>)
    requires DefersQuietly(cmds)
    ensures AllQuiet(Effect(cmds).deferred)
    decreases cmds, 1
  {
    hide EffectOne, DefersQuietlyOne, Quiet;
    if cmds != [] {
      DeferredIsQuietOne(cmds[0]);
      DeferredIsQuiet(cmds[1..]);
    }
  }

  lemma {:induction false} DeferredIsQuietOne(c: Cmd)
    requires DefersQuietlyOne(c)
    ensures AllQuiet(EffectOne(c).deferred)
    decreases c, 0
  {
    hide Quiet;
    match c
    case Atomic(body, _, _) => DeferredIsQuiet(body);
    case Scope(body, _) => DeferredIsQuiet(body);
    case _ =>
  }

  /** For the caller: whatever the bodies and COMMITs do, if no deferred body can raise a transient
      failure, only the last attempt counts. */
  lemma QuietDeferredWorkIsEnough(program: nat -> Attempt, attempts: int, st: State)
    requires Idle(st) && forall k :: 0 <= k < Total(attempts) ==> DefersQuietly(program(k).body)
    ensures OnlyTheLastCounts(program, attempts, st)
  {
    hide Try, Commits, Retry, Used, Before, Total, DefersQuietly, OnlyTheLastCounts;
    var used := Used(program, 0, Total(attempts), st);
    OnlyTheLastAttemptCounts(program, attempts, st);
    RetriesOnlyTransient(program, 0, Total(attempts), st);
    forall k | 0 <= k < used - 1 ensures !Commits(program(k)) {
      BeforeIdle(program, 0, k, st);
      assert Try(program(0 + k), Before(program, 0, k, st)).1 == Threw(Transient);
      QuietAttempt(program(k), Before(program, 0, k, st));
    }
  }

  lemma QuietAttempt(a: Attempt, st: State)
    requires Idle(st) && DefersQuietly(a.body)
    ensures Commits(a) ==> Try(a, st).1 != Threw(Transient)
  {
    hide Effect, ExecOne, Flush, DefersQuietly;
    if Commits(a) {
      DeferredIsQuiet(a.body);
      OutermostCommits(a.body, false, st);
      QuietFlush(Effect(a.body).deferred, AtCommit(a.body, st), None);
    }
  }

  /** Deferred work that fails transiently after the COMMIT makes a retry write everything twice. */
  lemma TransientFlushWritesTwice()
    ensures var attempt := Attempt([Write(7), Defer(Callback(1, [Raise(Transient)]))], None);
            Retry(_ => attempt, 0, 2, State([], None, None, [])).0.db == [7, 7]
  {
    var cb := Callback(1, [Raise(Transient)]);
    var attempt := Attempt([Write(7), Defer(cb)], None);
    var start := State([], None, None, []);
    FailingFlush(cb, attempt, start);
    FailingFlush(cb, attempt, Try(attempt, start).0);
    assert [7] + [7] == [7, 7];
  }

  lemma FailingFlush(cb: Callback, attempt: Attempt, st: State)
    requires cb == Callback(1, [Raise(Transient)])
    requires attempt == Attempt([Write(7), Defer(cb)], None) && Idle(st)
    ensures Idle(Try(attempt, st).0)
    ensures Try(attempt, st).1 == Threw(Transient) && Try(attempt, st).0.db == st.db + [7]
  {
    var body := attempt.body;
    assert body[1..] == [Defer(cb)] && body[1..][1..] == [];
    assert Effect([]) == Effects([], [], Done);
    assert Effect([Defer(cb)]) == Effects([], [cb], Done);
    assert Effect(body) == Effects([7], [cb], Done);
    OutermostCommits(body, false, st);
    var committed := st.(db := st.db + [7], log := st.log + [Began, Committed]);
    var ran := committed.(log := committed.log + [Ran(1)]);
    assert Exec([Raise(Transient)], ran) == (ran, Threw(Transient));
    assert RunCallback(cb, committed) == (ran, Threw(Transient));
    assert [cb][1..] == [];
    assert Flush([cb], committed, None) == Flush([], ran, Some(Transient));
  }

  // --- inside an open transaction ----------------------------------------------------------------

  function DeferredBy(program: nat -> Attempt, n: nat, k: nat): seq<Callback>
    decreases k
  {
    if k == 0 then [] else TryInside(program(n)).deferred + DeferredBy(program, n + 1, k - 1)
  }

  function TryInside(a: Attempt): Effects {
    EffectOne(Atomic(a.body, a.commitFails, false))
  }

  lemma NestedTry(a: Attempt, st: State)
    requires st.open.Some? && st.buffer.Some?
    ensures var e := TryInside(a);
            Try(a, st) == (st.(open := Some(st.open.value + e.kept),
                               buffer := Some(st.buffer.value + e.deferred)), e.outcome)
    ensures TryInside(a).outcome.Threw? ==> TryInside(a).kept == []
  {
    hide ExecOne;
    InTransactionOne(Atomic(a.body, a.commitFails, false), st);
  }

  /** Nested in an open transaction, the retries are savepoints: only the last attempt's writes stay,
      but the outer buffer keeps the work that every attempt deferred, the failed ones included. */
  lemma {:induction false} NestedRetryKeepsDeferredWork(program: nat -> Attempt, n: nat, total: nat, st: State)
    requires n < total && st.open.Some? && st.buffer.Some?
    ensures var used := Used(program, n, total, st);
            var last := TryInside(program(n + used - 1));
            Retry(program, n, total, st) ==
            (st.(open := Some(st.open.value + last.kept),
                 buffer := Some(st.buffer.value + DeferredBy(program, n, used))), last.outcome)
    decreases total - n
  {
    hide ExecOne, Try, TryInside;
    var a := program(n);
    var used := Used(program, n, total, st);
    NestedTry(a, st);
    var e := TryInside(a);
    var (s1, o) := Try(a, st);
    if o == Threw(Transient) && n + 1 < total {
      NestedRetryKeepsDeferredWork(program, n + 1, total, s1);
      assert st.open.value + [] == st.open.value;
      assert st.buffer.value + e.deferred + DeferredBy(program, n + 1, used - 1) ==
             st.buffer.value + DeferredBy(program, n, used);
    } else {
      assert DeferredBy(program, n, 1) == e.deferred + [];
      assert st.buffer.value + e.deferred == st.buffer.value + DeferredBy(program, n, 1);
    }
  }

  // --- inside the dispatcher's own context --------------------------------------------------------

  function InScope(a: Attempt, st: State): State
    requires st.buffer.Some?
  {
    var e := Effect(a.body);
    var commits := e.outcome == Done && a.commitFails.None?;
    st.(db := if commits then st.db + e.kept else st.db,
        buffer := Some(st.buffer.value + e.deferred),
        log := st.log + [Began, if commits then Committed else RolledBack])
  }

  lemma TryInScope(a: Attempt, st: State)
    requires st.open.None? && st.buffer.Some?
    ensures Try(a, st).0 == InScope(a, st) && (Commits(a) ==> Try(a, st).1 == Done)
    ensures TryInside(a).deferred == Effect(a.body).deferred
  {
    hide ExecOne, Effect;
    if Commits(a) {
      CommittedTransaction(a.body, false, st);
    } else {
      RolledBackTransaction(a.body, a.commitFails, false, st);
    }
  }

  /** With a dispatcher buffer open but no transaction, no attempt that commits is retried and only the
      last one's writes stay; but that buffer keeps the work that every attempt deferred. */
  lemma {:induction false} RetryInScopeKeepsDeferredWork(program: nat -> Attempt, n: nat, total: nat, st: State)
    requires n < total && st.open.None? && st.buffer.Some?
    ensures var used := Used(program, n, total, st);
            var last := program(n + used - 1);
            && Retry(program, n, total, st).0 ==
                 st.(db := if Commits(last) then st.db + Effect(last.body).kept else st.db,
                     buffer := Some(st.buffer.value + DeferredBy(program, n, used)),
                     log := st.log + Rounds(used - 1) + [Began, if Commits(last) then Committed else RolledBack])
    decreases total - n
  {
    hide Try, TryInside, Commits, Effect, ExecOne, InScope;
    var a := program(n);
    var used := Used(program, n, total, st);
    TryInScope(a, st);
    var (s1, o) := Try(a, st);
    InScopeIs(a, st);
    if o == Threw(Transient) && n + 1 < total {
      RetryInScopeKeepsDeferredWork(program, n + 1, total, s1);
      var last := program(n + used - 1);
      var rest := DeferredBy(program, n + 1, used - 1);
      assert DeferredBy(program, n, used) == TryInside(a).deferred + rest;
      ConcatAssoc(st.buffer.value, TryInside(a).deferred, rest);
      var tail := [Began, if Commits(last) then Committed else RolledBack];
      assert Rounds(used - 1) == [Began, RolledBack] + Rounds(used - 2);
      ConcatAssoc(st.log, [Began, RolledBack], Rounds(used - 2));
    } else {
      assert used == 1 && DeferredBy(program, n + 1, 0) == [];
      assert DeferredBy(program, n, 1) == TryInside(a).deferred + [] == TryInside(a).deferred;
      assert Rounds(0) == [] && st.log + [] == st.log;
    }
  }

  lemma InScopeIs(a: Attempt, st: State)
    requires st.buffer.Some?
    ensures InScope(a, st) ==
            st.(db := if Commits(a) then st.db + Effect(a.body).kept else st.db,
                buffer := Some(st.buffer.value + Effect(a.body).deferred),
                log := st.log + [Began, if Commits(a) then Committed else RolledBack])
  {
  }

  // --- the loop -------------------------------------------------------------------------------------

  /** Tries up to `attempts` times, at least once; sleeps between attempts are not modelled. */
  method Transact(runtime: Runtime, program: nat -> Attempt, attempts: int) returns (o: Outcome)
    modifies runtime
    ensures (runtime.View(), o) == Retry(program, 0, Total(attempts), old(runtime.View()))
    ensures attempts <= 1 ==> (runtime.View(), o) == Try(program(0), old(runtime.View()))
  {
    hide ExecOne;
    AllowedAttempts(program, attempts, runtime.View());
    var total := if attempts < 1 then 1 else attempts;
    var attempt := 0;
    o := Done;
    while attempt < total
      invariant 0 <= attempt <= total
      invariant attempt < total ==>
                  Retry(program, attempt, total, runtime.View()) ==
                  Retry(program, 0, total, old(runtime.View()))
      invariant attempt == total ==>
                  (runtime.View(), o) == Retry(program, 0, total, old(runtime.View()))
    {
      var a := program(attempt);
      o := runtime.Transaction(a.body, a.commitFails);
      if o != Threw(Transient) {
        return;
      }
      attempt := attempt + 1;
    }
  }
}
