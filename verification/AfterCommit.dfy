/** Transactions and the after-commit buffer: two nested contexts, unwound in order. */
module AfterCommit {
  import opened Seqs

  /** An exception: a transient database error, any other error, or a cancellation, which
      `except Exception` does not catch. */
  datatype Failure = Transient | Permanent | Cancelled

  datatype Outcome = Done | Threw(failure: Failure)

  /** Deferred work: when it runs, it executes its body. */
  datatype Callback = Callback(tag: nat, body: seq<Cmd>)

  datatype Cmd =
    | Write(value: int)
    | Defer(callback: Callback)
    | Raise(failure: Failure)
      /** The resolver's `transaction()`. `commitFails` is how the COMMIT goes wrong, if it does;
          `caught` says that the caller catches ordinary exceptions around the block. */
    | Atomic(body: seq<Cmd>, commitFails: Option<Failure>, caught: bool)
      /** The dispatcher's `transaction()` used on its own. */
    | Scope(body: seq<Cmd>, caught: bool)

  datatype Event = Began | Committed | RolledBack | Ran(tag: nat)

  /** `db` is what is durably written; `open` the writes of the open transaction; `buffer` the
      after-commit buffer; `log` what happened. */
  datatype State = State(db: seq<int>, open: Option<seq<int>>, buffer: Option<seq<Callback>>, log: seq<Event>)

  // --- sizes ----------------------------------------------------------------------------

  function CmdSize(c: Cmd): (n: nat)
    ensures n >= 1
    decreases c, 0
  {
    match c
    case Write(_) => 1
    case Raise(_) => 1
    case Defer(cb) => 1 + CallbackSize(cb)
    case Atomic(body, _, _) => 1 + Size(body)
    case Scope(body, _) => 1 + Size(body)
  }

  function CallbackSize(cb: Callback): nat
    decreases cb, 0
  {
    1 + Size(cb.body)
  }

  function Size(cmds: seq<Cmd>): nat
    decreases cmds, 1
  {
    if cmds == [] then 0 else CmdSize(cmds[0]) + Size(cmds[1..])
  }

  function BufferSize(cbs: seq<Callback>): nat {
    if cbs == [] then 0 else CallbackSize(cbs[0]) + BufferSize(cbs[1..])
  }

  lemma {:induction false} BufferSizeConcat(a: seq<Callback>, b: seq<Callback>)
    ensures BufferSize(a + b) == BufferSize(a) + BufferSize(b)
  {
    if a == [] {
      assert a + b == b;
    } else {
      BufferSizeConcat(a[1..], b);
      assert (a + b)[1..] == a[1..] + b;
    }
  }

  function Pending(st: State): nat {
    if st.buffer.None? then 0 else BufferSize(st.buffer.value)
  }

  /** Contexts are entered and left in pairs, and the buffer grows at most by what was executed. */
  ghost predicate Balanced(before: State, after: State, size: nat) {
    && (before.open.Some? <==> after.open.Some?)
    && (before.buffer.Some? <==> after.buffer.Some?)
    && Pending(after) <= Pending(before) + size
  }

  // --- execution --------------------------------------------------------------------------

  function Caught(caught: bool, o: Outcome): Outcome {
    if caught && o.Threw? && o.failure != Cancelled then Done else o
  }

  function Exec(cmds: seq<Cmd>, st: State): (r: (State, Outcome))
    ensures Balanced(st, r.0, Size(cmds))
    decreases Size(cmds), 1, |cmds|
  {
    if cmds == [] then (st, Done)
    else
      var (s1, o) := ExecOne(cmds[0], st);
      if o.Threw? then (s1, o) else Exec(cmds[1..], s1)
  }

  function ExecOne(c: Cmd, st: State): (r: (State, Outcome))
    ensures Balanced(st, r.0, CmdSize(c))
    decreases CmdSize(c), 0, 0
  {
    match c
    case Write(v) =>
      if st.open.Some? then (st.(open := Some(st.open.value + [v])), Done)
      else (st.(db := st.db + [v]), Done)
    case Raise(f) => (st, Threw(f))
    case Defer(cb) =>
      if st.buffer.Some? then
        BufferSizeConcat(st.buffer.value, [cb]);
        (st.(buffer := Some(st.buffer.value + [cb])), Done)
      else RunCallback(cb, st)
    case Atomic(body, commitFails, caught) =>
      if st.open.Some? then
        // a savepoint: its rollback undoes the inner writes only
        var (s1, o) := Exec(body, st);
        (if o.Threw? then s1.(open := st.open) else s1, Caught(caught, o))
      else
        var (s1, o) := Exec(body, Enter(st).(open := Some([]), log := st.log + [Began]));
        var (s2, o2) := Finish(s1, o, commitFails);
        var (s3, o3) := Leave(st.buffer.None?, s2, o2, Size(body));
        (s3, Caught(caught, o3))
    case Scope(body, caught) =>
      var (s1, o) := Exec(body, Enter(st));
      var (s2, o2) := Leave(st.buffer.None?, s1, o, Size(body));
      (s2, Caught(caught, o2))
  }

  /** Opens the buffer, unless an outer context owns one already. */
  function Enter(st: State): State {
    if st.buffer.None? then st.(buffer := Some([])) else st
  }

  /** The end of `engine.begin()`: COMMIT on success, ROLLBACK on an exception. */
  function Finish(st: State, o: Outcome, commitFails: Option<Failure>): (State, Outcome)
    requires st.open.Some?
  {
    if o.Threw? then (st.(open := None, log := st.log + [RolledBack]), o)
    else if commitFails.Some? then
      (st.(open := None, log := st.log + [RolledBack]), Threw(commitFails.value))
    else
      (st.(db := st.db + st.open.value, open := None, log := st.log + [Committed]), Done)
  }

  /** The end of the dispatcher's context: its owner drops the buffer on an exception and flushes
      it otherwise. */
  function Leave(owner: bool, st: State, o: Outcome, size: nat): (r: (State, Outcome))
    requires st.buffer.Some? && (owner ==> BufferSize(st.buffer.value) <= size)
    ensures r.0.open.Some? <==> st.open.Some?
    ensures if owner then r.0.buffer.None? else r.0 == st
    decreases size, 2, 0
  {
    if !owner then (st, o)
    else if o.Threw? then (st.(buffer := None), o)
    else Flush(st.buffer.value, st.(buffer := None), None)
  }

  /** Every buffered callback gets its chance; the first failure surfaces at the end. */
  function Flush(cbs: seq<Callback>, st: State, first: Option<Failure>): (r: (State, Outcome))
    requires st.buffer.None?
    ensures r.0.buffer.None? && (r.0.open.Some? <==> st.open.Some?)
    decreases BufferSize(cbs), 1, |cbs|
  {
    if cbs == [] then (st, if first.Some? then Threw(first.value) else Done)
    else
      var (s1, o) := RunCallback(cbs[0], st);
      if o == Threw(Cancelled) then (s1, o)
      else Flush(cbs[1..], s1, if o.Threw? && first.None? then Some(o.failure) else first)
  }

  function RunCallback(cb: Callback, st: State): (r: (State, Outcome))
    ensures Balanced(st, r.0, Size(cb.body))
    decreases CallbackSize(cb), 0, 0
  {
    Exec(cb.body, st.(log := st.log + [Ran(cb.tag)]))
  }

  // --- inside an open transaction nothing fires ---------------------------------------------

  /** What a block does to the transaction around it: the writes that stay, the work it defers, and
      how it ends. Reads nothing but the program text. */
  datatype Effects = Effects(kept: seq<int>, deferred: seq<Callback>, outcome: Outcome)

  function Effect(cmds: seq<Cmd>): Effects
    decreases cmds, 1
  {
    if cmds == [] then Effects([], [], Done)
    else
      var first := EffectOne(cmds[0]);
      if first.outcome.Threw? then first
      else
        var rest := Effect(cmds[1..]);
        Effects(first.kept + rest.kept, first.deferred + rest.deferred, rest.outcome)
  }

  function EffectOne(c: Cmd): Effects
    decreases c, 0
  {
    match c
    case Write(v) => Effects([v], [], Done)
    case Raise(f) => Effects([], [], Threw(f))
    case Defer(cb) => Effects([], [cb], Done)
    case Atomic(body, _, caught) =>
      var e := Effect(body);
      Effects(if e.outcome.Threw? then [] else e.kept, e.deferred, Caught(caught, e.outcome))
    case Scope(body, caught) =>
      var e := Effect(body);
      e.(outcome := Caught(caught, e.outcome))
  }

  /** Inside an open transaction a block only adds writes and deferred work: nothing is committed,
      nothing runs, and a rolled-back savepoint loses its writes but not its deferred work. */
  lemma {:induction false} InTransaction(cmds: seq<Cmd>, st: State)
    requires st.open.Some? && st.buffer.Some?
    ensures var e := Effect(cmds);
            Exec(cmds, st) ==
            (st.(open := Some(st.open.value + e.kept), buffer := Some(st.buffer.value + e.deferred)), e.outcome)
    decreases cmds, 1
  {
    hide ExecOne, EffectOne, Balanced;
    if cmds == [] {
      assert st.open.value + [] == st.open.value && st.buffer.value + [] == st.buffer.value;
    } else {
      InTransactionOne(cmds[0], st);
      var first := EffectOne(cmds[0]);
      if !first.outcome.Threw? {
        var s1 := ExecOne(cmds[0], st).0;
        InTransaction(cmds[1..], s1);
        var rest := Effect(cmds[1..]);
        assert st.open.value + first.kept + rest.kept == st.open.value + (first.kept + rest.kept);
        assert st.buffer.value + first.deferred + rest.deferred == st.buffer.value + (first.deferred + rest.deferred);
      }
    }
  }

  lemma {:induction false} InTransactionOne(c: Cmd, st: State)
    requires st.open.Some? && st.buffer.Some?
    ensures var e := EffectOne(c);
            ExecOne(c, st) ==
            (st.(open := Some(st.open.value + e.kept), buffer := Some(st.buffer.value + e.deferred)), e.outcome)
    decreases c, 0
  {
    assert st.open.value + [] == st.open.value && st.buffer.value + [] == st.buffer.value;
    match c
    case Atomic(body, _, _) => InTransaction(body, st);
    case Scope(body, _) => InTransaction(body, st);
    case _ =>
  }

  // --- the outermost transaction ---------------------------------------------------------------

  ghost predicate Idle(st: State) {
    st.open.None? && st.buffer.None?
  }

  /** A transaction that opens outside any other and fails, in its body or at COMMIT, leaves the data as
      it was and runs nothing. The work deferred inside it is dropped with its own buffer; a buffer that
      was open around it keeps that work. */
  lemma RolledBackTransaction(body: seq<Cmd>, commitFails: Option<Failure>, caught: bool, st: State)
    requires st.open.None? && (Effect(body).outcome.Threw? || commitFails.Some?)
    ensures ExecOne(Atomic(body, commitFails, caught), st).0 ==
            st.(log := st.log + [Began, RolledBack],
                buffer := if st.buffer.None? then None else Some(st.buffer.value + Effect(body).deferred))
    ensures ExecOne(Atomic(body, commitFails, caught), st).1 ==
            Caught(caught, if Effect(body).outcome.Threw? then Effect(body).outcome else Threw(commitFails.value))
  {
    var entered := Enter(st).(open := Some([]), log := st.log + [Began]);
    InTransaction(body, entered);
    assert st.log + [Began] + [RolledBack] == st.log + [Began, RolledBack];
  }

  /** So rolled-back work is dropped at once if and only if no dispatcher buffer was open at entry. */
  lemma RollbackDropsIffNoBuffer(body: seq<Cmd>, commitFails: Option<Failure>, caught: bool, st: State)
    requires st.open.None? && (Effect(body).outcome.Threw? || commitFails.Some?)
    requires Effect(body).deferred != []
    ensures ExecOne(Atomic(body, commitFails, caught), st).0 == st.(log := st.log + [Began, RolledBack]) <==>
            st.buffer.None?
  {
    hide ExecOne, Effect;
    RolledBackTransaction(body, commitFails, caught, st);
    if st.buffer.Some? {
      assert |st.buffer.value + Effect(body).deferred| > |st.buffer.value|;
    }
  }

  /** An outermost transaction that fails leaves the data as it was and runs none of the work deferred
      inside it. */
  lemma OutermostFails(body: seq<Cmd>, commitFails: Option<Failure>, caught: bool, st: State)
    requires Idle(st) && (Effect(body).outcome.Threw? || commitFails.Some?)
    ensures ExecOne(Atomic(body, commitFails, caught), st).0 == st.(log := st.log + [Began, RolledBack])
  {
    hide ExecOne, Effect;
    RolledBackTransaction(body, commitFails, caught, st);
  }

  /** Inside the dispatcher's own context, the work of a rolled-back transaction whose failure is caught
      there is flushed after all. */
  lemma ScopeFlushesRolledBackWork(body: seq<Cmd>, commitFails: Option<Failure>, st: State)
    requires Idle(st) && (Effect(body).outcome.Threw? || commitFails.Some?)
    requires Effect(body).outcome != Threw(Cancelled) && commitFails != Some(Cancelled)
    ensures ExecOne(Scope([Atomic(body, commitFails, true)], false), st) ==
            Flush(Effect(body).deferred, st.(log := st.log + [Began, RolledBack]), None)
  {
    hide Effect, Flush, Exec;
    var inner := Atomic(body, commitFails, true);
    RolledBackTransaction(body, commitFails, true, Enter(st));
    ExecSingle(inner, Enter(st));
    assert [] + Effect(body).deferred == Effect(body).deferred;
    ScopeOf(inner, st);
  }

  lemma ScopeOf(inner: Cmd, st: State)
    requires st.buffer.None?
    ensures Exec([inner], Enter(st)).0.buffer.Some?
    ensures var (s1, o) := Exec([inner], Enter(st));
            o == Done ==>
              ExecOne(Scope([inner], false), st) == Flush(s1.buffer.value, s1.(buffer := None), None)
  {
    hide Exec, Flush;
    var (s1, o) := Exec([inner], Enter(st));
    BodySize([inner], Enter(st), s1, st);
  }

  /** For example, the work runs although the write it was to follow is gone. */
  lemma ScopeRunsRolledBackWork(value: int, tag: nat)
    ensures var body := [Write(value), Defer(Callback(tag, [])), Raise(Permanent)];
            var program := Scope([Atomic(body, None, true)], false);
            var final := ExecOne(program, State([], None, None, [])).0;
            final.db == [] && final.log == [Began, RolledBack, Ran(tag)]
  {
    var cb := Callback(tag, []);
    var start := State([], None, None, []);
    DeferThenRaise(value, cb);
    ScopeFlushesRolledBackWork([Write(value), Defer(cb), Raise(Permanent)], None, start);
    hide ExecOne, Effect;
    var rolledBack := State([], None, None, [Began, RolledBack]);
    assert start.(log := start.log + [Began, RolledBack]) == rolledBack;
    assert [cb][1..] == [] && [Began, RolledBack] + [Ran(tag)] == [Began, RolledBack, Ran(tag)];
    assert RunCallback(cb, rolledBack) == (rolledBack.(log := [Began, RolledBack, Ran(tag)]), Done);
    assert Flush([cb], rolledBack, None) == (rolledBack.(log := [Began, RolledBack, Ran(tag)]), Done);
  }

  lemma DeferThenRaise(value: int, cb: Callback)
    ensures Effect([Write(value), Defer(cb), Raise(Permanent)]) == Effects([value], [cb], Threw(Permanent))
  {
    var body := [Write(value), Defer(cb), Raise(Permanent)];
    assert body[1..] == [Defer(cb), Raise(Permanent)] && [Defer(cb), Raise(Permanent)][1..] == [Raise(Permanent)];
    assert Effect([Raise(Permanent)]) == Effects([], [], Threw(Permanent));
    assert Effect([Defer(cb), Raise(Permanent)]) == Effects([], [cb], Threw(Permanent));
  }

  lemma ExecSingle(c: Cmd, st: State)
    ensures Exec([c], st) == ExecOne(c, st)
  {
    hide ExecOne;
    assert [c][1..] == [];
  }

  /** A transaction that opens outside any other and commits makes its kept writes durable. Then,
      strictly after the COMMIT, what was deferred inside it is flushed in registration order, or left
      to the buffer that was open around it. */
  lemma CommittedTransaction(body: seq<Cmd>, caught: bool, st: State)
    requires st.open.None? && Effect(body).outcome == Done
    ensures var e := Effect(body);
            var committed := st.(db := st.db + e.kept, log := st.log + [Began, Committed]);
            ExecOne(Atomic(body, None, caught), st) ==
            if st.buffer.Some? then (committed.(buffer := Some(st.buffer.value + e.deferred)), Done)
            else (Flush(e.deferred, committed, None).0, Caught(caught, Flush(e.deferred, committed, None).1))
  {
    hide Flush;
    var e := Effect(body);
    var entered := Enter(st).(open := Some([]), log := st.log + [Began]);
    InTransaction(body, entered);
    assert [] + e.kept == e.kept && [] + e.deferred == e.deferred;
    assert st.log + [Began] + [Committed] == st.log + [Began, Committed];
  }

  /** The state in which an outermost transaction's deferred work starts to run. */
  function AtCommit(body: seq<Cmd>, st: State): State {
    st.(db := st.db + Effect(body).kept, log := st.log + [Began, Committed])
  }

  lemma OutermostCommits(body: seq<Cmd>, caught: bool, st: State)
    requires Idle(st) && Effect(body).outcome == Done
    ensures var flushed := Flush(Effect(body).deferred, AtCommit(body, st), None);
            ExecOne(Atomic(body, None, caught), st) == (flushed.0, Caught(caught, flushed.1))
  {
    hide ExecOne, Effect, Flush;
    CommittedTransaction(body, caught, st);
  }

  // --- the flush -----------------------------------------------------------------------------------

  lemma {:induction false} LogGrows(cmds: seq<Cmd>, st: State)
    ensures st.log <= Exec(cmds, st).0.log
    decreases Size(cmds), 1, |cmds|
  {
    if cmds != [] {
      LogGrowsOne(cmds[0], st);
      var (s1, o) := ExecOne(cmds[0], st);
      if !o.Threw? { LogGrows(cmds[1..], s1); }
    }
  }

  lemma {:induction false} LogGrowsOne(c: Cmd, st: State)
    ensures st.log <= ExecOne(c, st).0.log
    decreases CmdSize(c), 0, 0
  {
    match c
    case Write(_) =>
    case Raise(_) =>
    case Defer(cb) =>
      if st.buffer.None? { LogGrowsCallback(cb, st); }
    case Atomic(body, commitFails, _) =>
      if st.open.Some? {
        LogGrows(body, st);
      } else {
        var entered := Enter(st).(open := Some([]), log := st.log + [Began]);
        LogGrows(body, entered);
        var (s1, o) := Exec(body, entered);
        var (s2, o2) := Finish(s1, o, commitFails);
        if st.buffer.None? && o2.Done? { LogGrowsFlush(s2.buffer.value, s2.(buffer := None), None); }
      }
    case Scope(body, _) =>
      LogGrows(body, Enter(st));
      var (s1, o) := Exec(body, Enter(st));
      if st.buffer.None? && o.Done? { LogGrowsFlush(s1.buffer.value, s1.(buffer := None), None); }
  }

  lemma {:induction false} LogGrowsCallback(cb: Callback, st: State)
    ensures st.log + [Ran(cb.tag)] <= RunCallback(cb, st).0.log
    decreases CallbackSize(cb), 0, 0
  {
    LogGrows(cb.body, st.(log := st.log + [Ran(cb.tag)]));
  }

  lemma {:induction false} LogGrowsFlush(cbs: seq<Callback>, st: State, first: Option<Failure>)
    requires st.buffer.None?
    ensures st.log <= Flush(cbs, st, first).0.log
    decreases BufferSize(cbs), 1, |cbs|
  {
    if cbs != [] {
      LogGrowsCallback(cbs[0], st);
      var (s1, o) := RunCallback(cbs[0], st);
      if o != Threw(Cancelled) {
        LogGrowsFlush(cbs[1..], s1, if o.Threw? && first.None? then Some(o.failure) else first);
      }
    }
  }

  /** The events each callback of a flush adds, one segment per callback that runs. */
  ghost function Segments(cbs: seq<Callback>, st: State): seq<seq<Event>>
    requires st.buffer.None?
  {
    if cbs == [] then []
    else
      var (s1, o) := RunCallback(cbs[0], st);
      LogGrowsCallback(cbs[0], st);
      [s1.log[|st.log|..]] + if o == Threw(Cancelled) then [] else Segments(cbs[1..], s1)
  }

  /** Some callback that gets to run is cancelled. */
  ghost predicate Cancels(cbs: seq<Callback>, st: State)
    requires st.buffer.None?
  {
    cbs != [] &&
    var (s1, o) := RunCallback(cbs[0], st);
    o == Threw(Cancelled) || Cancels(cbs[1..], s1)
  }

  /** The first callback to raise, in registration order. */
  ghost function FirstFailure(cbs: seq<Callback>, st: State): Option<Failure>
    requires st.buffer.None?
  {
    if cbs == [] then None
    else
      var (s1, o) := RunCallback(cbs[0], st);
      if o.Threw? then Some(o.failure) else FirstFailure(cbs[1..], s1)
  }

  /** A flush runs its callbacks in registration order, each once, whether or not earlier ones raise. */
  lemma {:induction false} FlushRunsInOrder(cbs: seq<Callback>, st: State, first: Option<Failure>)
    requires st.buffer.None?
    ensures var segments := Segments(cbs, st);
            && Flush(cbs, st, first).0.log == st.log + Flat(segments)
            && |segments| <= |cbs|
            && (forall i :: 0 <= i < |segments| ==> segments[i] != [] && segments[i][0] == Ran(cbs[i].tag))
    decreases |cbs|
  {
    hide RunCallback;
    if cbs != [] {
      var (s1, o) := RunCallback(cbs[0], st);
      LogGrowsCallback(cbs[0], st);
      var segment := s1.log[|st.log|..];
      assert s1.log == st.log + segment;
      assert segment[0] == (st.log + [Ran(cbs[0].tag)])[|st.log|];
      var segments := Segments(cbs, st);
      if o == Threw(Cancelled) {
        assert segments == [segment];
        assert segments[1..] == [];
      } else {
        var rest := Segments(cbs[1..], s1);
        FlushRunsInOrder(cbs[1..], s1, if o.Threw? && first.None? then Some(o.failure) else first);
        assert segments == [segment] + rest && segments[1..] == rest;
        assert st.log + (segment + Flat(rest)) == st.log + segment + Flat(rest);
        forall i | 0 <= i < |segments| ensures segments[i] != [] && segments[i][0] == Ran(cbs[i].tag) {
          if i > 0 { assert segments[i] == rest[i - 1]; }
        }
      }
    }
  }

  /** A callback runs if and only if none before it is cancelled. */
  lemma {:induction false} FlushRunsUpTo(cbs: seq<Callback>, st: State, i: nat)
    requires st.buffer.None? && i < |cbs|
    ensures i < |Segments(cbs, st)| <==> !Cancels(cbs[..i], st)
    decreases i
  {
    hide RunCallback;
    if i > 0 {
      FlushRunsUpTo(cbs[1..], RunCallback(cbs[0], st).0, i - 1);
      assert cbs[..i][1..] == cbs[1..][..i - 1];
    }
  }

  /** All of the callbacks run if and only if none but the last is cancelled. */
  lemma FlushRunsAll(cbs: seq<Callback>, st: State)
    requires st.buffer.None?
    ensures |Segments(cbs, st)| == |cbs| <==> cbs == [] || !Cancels(cbs[..|cbs| - 1], st)
  {
    hide RunCallback, Cancels;
    FlushRunsInOrder(cbs, st, None);
    if cbs != [] { FlushRunsUpTo(cbs, st, |cbs| - 1); }
  }

  /** A cancellation ends the flush there: the callbacks after it might as well not be buffered. */
  lemma {:induction false} FlushStops(cbs: seq<Callback>, st: State, i: nat, first: Option<Failure>)
    requires st.buffer.None? && i <= |cbs| && Cancels(cbs[..i], st)
    ensures Flush(cbs, st, first) == Flush(cbs[..i], st, first)
    decreases i
  {
    hide RunCallback;
    var (s1, o) := RunCallback(cbs[0], st);
    if o != Threw(Cancelled) {
      assert cbs[..i][1..] == cbs[1..][..i - 1];
      FlushStops(cbs[1..], s1, i - 1, if o.Threw? && first.None? then Some(o.failure) else first);
    }
  }

  /** A cancelled callback drops the ones after it: here the second of two never runs. */
  lemma CancelledDropsTheRest(a: nat, b: nat)
    ensures Flush([Callback(a, [Raise(Cancelled)]), Callback(b, [])], State([], None, None, []), None) ==
            (State([], None, None, [Ran(a)]), Threw(Cancelled))
  {
    var first := Callback(a, [Raise(Cancelled)]);
    assert [] + [Ran(a)] == [Ran(a)];
    ExecSingle(Raise(Cancelled), State([], None, None, [Ran(a)]));
    assert RunCallback(first, State([], None, None, [])) == (State([], None, None, [Ran(a)]), Threw(Cancelled));
  }

  /** The failure that surfaces is a cancellation, which stops the flush, or else the first one. */
  lemma {:induction false} FlushSurfacesFirst(cbs: seq<Callback>, st: State, first: Option<Failure>)
    requires st.buffer.None? && first != Some(Cancelled)
    ensures Flush(cbs, st, first).1 ==
            if Cancels(cbs, st) then Threw(Cancelled)
            else if first.Some? then Threw(first.value)
            else if FirstFailure(cbs, st).Some? then Threw(FirstFailure(cbs, st).value)
            else Done
    decreases |cbs|
  {
    hide RunCallback;
    if cbs != [] {
      var (s1, o) := RunCallback(cbs[0], st);
      if o != Threw(Cancelled) {
        FlushSurfacesFirst(cbs[1..], s1, if o.Threw? && first.None? then Some(o.failure) else first);
      }
    }
  }

  // --- with nothing open around it ---------------------------------------------------------------------

  /** A program is executed in order and stops at the first exception that nobody catches. */
  lemma {:induction false} ExecConcat(a: seq<Cmd>, b: seq<Cmd>, st: State)
    ensures var (s1, o) := Exec(a, st);
            Exec(a + b, st) == if o.Threw? then (s1, o) else Exec(b, s1)
    decreases |a|
  {
    hide ExecOne;
    if a == [] {
      assert a + b == b;
    } else {
      assert (a + b)[1..] == a[1..] + b;
      ExecConcat(a[1..], b, ExecOne(a[0], st).0);
    }
  }

  /** With no buffer open, deferred work runs in its place: the program behaves as if its body were written
      there. So it does in a callback that a flush runs, which finds the buffer closed. */
  lemma DeferIsInlined(cb: Callback, rest: seq<Cmd>, st: State)
    requires st.buffer.None?
    ensures Exec([Defer(cb)] + rest, st) == Exec(cb.body + rest, st.(log := st.log + [Ran(cb.tag)]))
  {
    hide Exec;
    ExecConcat([Defer(cb)], rest, st);
    ExecSingle(Defer(cb), st);
    ExecConcat(cb.body, rest, st.(log := st.log + [Ran(cb.tag)]));
  }

  /** It runs first of all, and just once if no other work in it carries its tag. */
  lemma DeferRunsAtOnce(cb: Callback, st: State)
    requires st.buffer.None?
    ensures var after := ExecOne(Defer(cb), st).0;
            && st.log + [Ran(cb.tag)] <= after.log
            && Runs(after.log, cb.tag) >= Runs(st.log, cb.tag) + 1
            && (Occurs(cb.body, cb.tag) == 0 ==> Runs(after.log, cb.tag) == Runs(st.log, cb.tag) + 1)
  {
    hide Exec, Runs, Occurs;
    var after := ExecOne(Defer(cb), st).0;
    LogGrowsCallback(cb, st);
    ConservationCallback(cb, st, cb.tag);
    var ran := st.log + [Ran(cb.tag)];
    RunsOneMore(st.log, Ran(cb.tag), cb.tag);
    assert after.log == ran + after.log[|ran|..];
    RunsConcat(ran, after.log[|ran|..], cb.tag);
  }

  /** Work that a running callback defers runs within that callback, before the next one. */
  lemma DeferredByCallback(tag: nat, inner: Callback, st: State)
    requires st.buffer.None?
    ensures RunCallback(Callback(tag, [Defer(inner)]), st) ==
            Exec(inner.body, st.(log := st.log + [Ran(tag), Ran(inner.tag)]))
  {
    var started := st.(log := st.log + [Ran(tag)]);
    DeferIsInlined(inner, [], started);
    assert [Defer(inner)] + [] == [Defer(inner)] && inner.body + [] == inner.body;
    assert started.log + [Ran(inner.tag)] == st.log + [Ran(tag), Ran(inner.tag)];
  }

  /** A write outside any transaction is durable at once, and an exception ends the program there. */
  lemma WriteOutside(v: int, f: Failure, rest: seq<Cmd>, st: State)
    requires st.open.None?
    ensures Exec([Write(v)] + rest, st) == Exec(rest, st.(db := st.db + [v]))
    ensures Exec([Raise(f)] + rest, st) == (st, Threw(f))
  {
    hide Exec;
    ExecConcat([Write(v)], rest, st);
    ExecSingle(Write(v), st);
    ExecConcat([Raise(f)], rest, st);
    ExecSingle(Raise(f), st);
  }

  /** The dispatcher's own context, when no buffer is open around it: an exception in its body drops the
      buffered work, and nothing but the body has happened; otherwise the work is flushed, in order. A
      caller that catches it catches every failure but a cancellation. */
  lemma OwnScope(body: seq<Cmd>, caught: bool, st: State)
    requires st.buffer.None?
    ensures Exec(body, st.(buffer := Some([]))).0.buffer.Some?
    ensures var (s1, o) := Exec(body, st.(buffer := Some([])));
            var (after, ended) := ExecOne(Scope(body, caught), st);
            && (o.Threw? ==>
                  && after == s1.(buffer := None)
                  && ended == if caught && o.failure != Cancelled then Done else o)
            && (o.Done? ==>
                  var (s2, o2) := Flush(s1.buffer.value, s1.(buffer := None), None);
                  && after == s2
                  && ended == if caught && o2.Threw? && o2.failure != Cancelled then Done else o2)
  {
    hide Exec, Flush;
    var (s1, o) := Exec(body, Enter(st));
    BodySize(body, Enter(st), s1, st);
  }

  /** A savepoint that an exception leaves undoes its writes and nothing else: what was deferred in it stays
      buffered. Its own COMMIT is part of the outer one. */
  lemma SavepointUndoesWrites(body: seq<Cmd>, commitFails: Option<Failure>, st: State)
    requires st.open.Some? && st.buffer.Some?
    ensures var (inner, o) := Exec(body, st);
            var (after, ended) := ExecOne(Atomic(body, commitFails, false), st);
            && ended == o && after == (if o.Threw? then inner.(open := st.open) else inner)
            && inner.db == st.db && inner.log == st.log
            && inner.open.Some? && st.open.value <= inner.open.value
            && inner.buffer.Some? && st.buffer.value <= inner.buffer.value
  {
    hide Exec;
    InTransaction(body, st);
  }

  // --- whole programs ----------------------------------------------------------------------------------

  /** How often a tag occurs on deferred work in a program text, also inside deferred bodies. */
  function Occurs(cmds: seq<Cmd>, tag: nat): nat
    decreases cmds, 1
  {
    if cmds == [] then 0 else OccursOne(cmds[0], tag) + Occurs(cmds[1..], tag)
  }

  function OccursOne(c: Cmd, tag: nat): nat
    decreases c, 0
  {
    match c
    case Defer(cb) => OccursIn(cb, tag)
    case Atomic(body, _, _) => Occurs(body, tag)
    case Scope(body, _) => Occurs(body, tag)
    case _ => 0
  }

  function OccursIn(cb: Callback, tag: nat): nat
    decreases cb, 0
  {
    (if cb.tag == tag then 1 else 0) + Occurs(cb.body, tag)
  }

  function OccursBuffered(cbs: seq<Callback>, tag: nat): nat {
    if cbs == [] then 0 else OccursIn(cbs[0], tag) + OccursBuffered(cbs[1..], tag)
  }

  lemma {:induction false} OccursBufferedConcat(a: seq<Callback>, b: seq<Callback>, tag: nat)
    ensures OccursBuffered(a + b, tag) == OccursBuffered(a, tag) + OccursBuffered(b, tag)
  {
    if a == [] {
      assert a + b == b;
    } else {
      OccursBufferedConcat(a[1..], b, tag);
      assert (a + b)[1..] == a[1..] + b;
    }
  }

  function Plain(tags: seq<nat>): seq<Cmd> {
    if tags == [] then [] else [Write(0), Defer(Callback(tags[0], []))] + Plain(tags[1..])
  }

  function IsTag(tag: nat): nat -> bool {
    (t: nat) => t == tag
  }

  /** A program that defers plain pieces of work one after the other has each tag as often as it was given. */
  lemma {:induction false} OccursPlain(tags: seq<nat>, tag: nat)
    ensures Occurs(Plain(tags), tag) == Count(tags, IsTag(tag))
  {
    if tags != [] {
      OccursPlain(tags[1..], tag);
      var program := Plain(tags);
      assert program[1..][1..] == Plain(tags[1..]);
      assert Occurs(program, tag) == Occurs(program[1..], tag);
      assert OccursIn(Callback(tags[0], []), tag) == if tags[0] == tag then 1 else 0;
      assert program[1..][0] == Defer(Callback(tags[0], []));
    }
  }

  /** How often work with this tag has run. */
  function Runs(log: seq<Event>, tag: nat): nat {
    if log == [] then 0
    else Runs(log[..|log| - 1], tag) + if log[|log| - 1] == Ran(tag) then 1 else 0
  }

  lemma RunsOneMore(log: seq<Event>, e: Event, tag: nat)
    ensures Runs(log + [e], tag) == Runs(log, tag) + if e == Ran(tag) then 1 else 0
  {
    assert (log + [e])[..|log|] == log;
  }

  /** Work with this tag that has run or is buffered to run. */
  function Account(st: State, tag: nat): nat {
    Runs(st.log, tag) + if st.buffer.Some? then OccursBuffered(st.buffer.value, tag) else 0
  }

  /** Work is never duplicated: executing a program adds at most its own deferred work, once each. */
  lemma {:induction false} Conservation(cmds: seq<Cmd>, st: State, tag: nat)
    ensures Account(Exec(cmds, st).0, tag) <= Account(st, tag) + Occurs(cmds, tag)
    decreases Size(cmds), 1, |cmds|
  {
    hide Account, ExecOne, OccursOne;
    if cmds != [] {
      ConservationOne(cmds[0], st, tag);
      var (s1, o) := ExecOne(cmds[0], st);
      if !o.Threw? { Conservation(cmds[1..], s1, tag); }
    }
  }

  lemma {:induction false} ConservationOne(c: Cmd, st: State, tag: nat)
    ensures Account(ExecOne(c, st).0, tag) <= Account(st, tag) + OccursOne(c, tag)
    decreases CmdSize(c), 0, 0
  {
    hide Exec, Runs, Leave, Flush, RunCallback, Balanced;
    match c
    case Write(_) =>
    case Raise(_) =>
    case Defer(cb) =>
      if st.buffer.None? {
        ConservationCallback(cb, st, tag);
      } else {
        OccursBufferedConcat(st.buffer.value, [cb], tag);
        assert [cb][1..] == [];
      }
    case Atomic(body, commitFails, _) =>
      if st.open.Some? {
        Conservation(body, st, tag);
      } else {
        var entered := Enter(st).(open := Some([]), log := st.log + [Began]);
        RunsOneMore(st.log, Began, tag);
        Conservation(body, entered, tag);
        var (s1, o) := Exec(body, entered);
        BodySize(body, entered, s1, st);
        var (s2, o2) := Finish(s1, o, commitFails);
        RunsOneMore(s1.log, RolledBack, tag);
        RunsOneMore(s1.log, Committed, tag);
        ConservationLeave(st.buffer.None?, s2, o2, Size(body), tag);
      }
    case Scope(body, _) =>
      Conservation(body, Enter(st), tag);
      var (s1, o) := Exec(body, Enter(st));
      BodySize(body, Enter(st), s1, st);
      ConservationLeave(st.buffer.None?, s1, o, Size(body), tag);
  }

  lemma BodySize(body: seq<Cmd>, entered: State, s1: State, st: State)
    requires Balanced(entered, s1, Size(body)) && entered.buffer == Enter(st).buffer
    ensures s1.buffer.Some? && (s1.open.Some? <==> entered.open.Some?)
    ensures st.buffer.None? ==> BufferSize(s1.buffer.value) <= Size(body)
  {
  }

  lemma {:induction false} ConservationLeave(owner: bool, st: State, o: Outcome, size: nat, tag: nat)
    requires st.buffer.Some? && (owner ==> BufferSize(st.buffer.value) <= size)
    ensures Account(Leave(owner, st, o, size).0, tag) <= Account(st, tag)
    decreases size, 2, 0
  {
    hide Flush;
    if owner && o.Done? {
      ConservationFlush(st.buffer.value, st.(buffer := None), None, tag);
    }
  }

  lemma {:induction false} ConservationFlush(cbs: seq<Callback>, st: State, first: Option<Failure>, tag: nat)
    requires st.buffer.None?
    ensures Account(Flush(cbs, st, first).0, tag) <= Account(st, tag) + OccursBuffered(cbs, tag)
    decreases BufferSize(cbs), 1, |cbs|
  {
    hide Account, RunCallback;
    if cbs != [] {
      ConservationCallback(cbs[0], st, tag);
      var (s1, o) := RunCallback(cbs[0], st);
      if o != Threw(Cancelled) {
        ConservationFlush(cbs[1..], s1, if o.Threw? && first.None? then Some(o.failure) else first, tag);
      }
    }
  }

  lemma {:induction false} ConservationCallback(cb: Callback, st: State, tag: nat)
    ensures Account(RunCallback(cb, st).0, tag) <= Account(st, tag) + OccursIn(cb, tag)
    decreases CallbackSize(cb), 0, 0
  {
    hide Exec, Runs;
    RunsOneMore(st.log, Ran(cb.tag), tag);
    Conservation(cb.body, st.(log := st.log + [Ran(cb.tag)]), tag);
  }

  /** Over a whole run, deferred work with its own tag runs at most once. */
  lemma AtMostOnce(cmds: seq<Cmd>, tag: nat)
    requires Occurs(cmds, tag) <= 1
    ensures Runs(Exec(cmds, State([], None, None, [])).0.log, tag) <= 1
  {
    Conservation(cmds, State([], None, None, []), tag);
  }

  lemma {:induction false} RunsConcat(a: seq<Event>, b: seq<Event>, tag: nat)
    ensures Runs(a + b, tag) == Runs(a, tag) + Runs(b, tag)
  {
    if b == [] {
      assert a + b == a;
    } else {
      assert (a + b)[..|a + b| - 1] == a + b[..|b| - 1];
      RunsConcat(a, b[..|b| - 1], tag);
    }
  }

  lemma {:induction false} RunsIfLogged(log: seq<Event>, tag: nat)
    requires Ran(tag) in log
    ensures Runs(log, tag) >= 1
  {
    if log[|log| - 1] != Ran(tag) {
      RunsIfLogged(log[..|log| - 1], tag);
    }
  }

  /** What a block defers is part of its text. */
  lemma {:induction false} DeferredOccurs(cmds: seq<Cmd>, tag: nat)
    ensures OccursBuffered(Effect(cmds).deferred, tag) <= Occurs(cmds, tag)
    decreases cmds, 1
  {
    hide EffectOne, OccursOne;
    if cmds != [] {
      DeferredOccursOne(cmds[0], tag);
      DeferredOccurs(cmds[1..], tag);
      OccursBufferedConcat(EffectOne(cmds[0]).deferred, Effect(cmds[1..]).deferred, tag);
    }
  }

  lemma {:induction false} DeferredOccursOne(c: Cmd, tag: nat)
    ensures OccursBuffered(EffectOne(c).deferred, tag) <= OccursOne(c, tag)
    decreases c, 0
  {
    match c
    case Defer(cb) => assert [cb][1..] == [];
    case Atomic(body, _, _) => DeferredOccurs(body, tag);
    case Scope(body, _) => DeferredOccurs(body, tag);
    case _ =>
  }

  lemma {:induction false} OccursAt(cbs: seq<Callback>, i: nat, tag: nat)
    requires i < |cbs| && cbs[i].tag == tag
    ensures OccursBuffered(cbs[..i], tag) < OccursBuffered(cbs, tag)
  {
    OccursBufferedConcat(cbs[..i], cbs[i..], tag);
    assert cbs[..i] + cbs[i..] == cbs && cbs[i..][0] == cbs[i];
  }

  lemma RunsAtCommit(body: seq<Cmd>, st: State, tag: nat)
    ensures Runs(AtCommit(body, st).log, tag) == Runs(st.log, tag)
  {
    RunsOneMore(st.log, Began, tag);
    RunsOneMore(st.log + [Began], Committed, tag);
    assert st.log + [Began] + [Committed] == st.log + [Began, Committed];
  }

  /** When an outermost transaction commits, a piece of work deferred inside it, with a tag of its own,
      runs exactly once if none before it is cancelled, and not at all otherwise. */
  lemma ExactlyOnce(body: seq<Cmd>, caught: bool, i: nat, st: State)
    requires Idle(st) && Effect(body).outcome == Done && i < |Effect(body).deferred|
    requires Occurs(body, Effect(body).deferred[i].tag) <= 1
    ensures var deferred := Effect(body).deferred;
            var after := ExecOne(Atomic(body, None, caught), st).0;
            Runs(after.log, deferred[i].tag) ==
            Runs(st.log, deferred[i].tag) + if Cancels(deferred[..i], AtCommit(body, st)) then 0 else 1
  {
    hide ExecOne, Flush, Segments, Cancels, Effect, Runs, Occurs, AtCommit, OccursBuffered;
    var deferred, committed := Effect(body).deferred, AtCommit(body, st);
    var tag := deferred[i].tag;
    assert committed.buffer.None? by { assert committed.buffer == st.buffer by { AtCommitBuffer(body, st); } }
    OutermostCommits(body, caught, st);
    RunsAtCommit(body, st, tag);
    DeferredOccurs(body, tag);
    OccursAt(deferred, i, tag);
    FlushAccount(deferred, committed, tag);
    if Cancels(deferred[..i], committed) {
      FlushStops(deferred, committed, i, None);
      FlushAccount(deferred[..i], committed, tag);
      FlushKeepsRuns(deferred, committed, tag);
    } else {
      FlushRunsUpTo(deferred, committed, i);
      FlushRunsTag(deferred, committed, i);
    }
  }

  lemma AtCommitBuffer(body: seq<Cmd>, st: State)
    ensures AtCommit(body, st).buffer == st.buffer && AtCommit(body, st).open == st.open
  {
  }

  /** A flush runs a tag at most as often as it occurs in what was buffered. */
  lemma FlushAccount(cbs: seq<Callback>, st: State, tag: nat)
    requires st.buffer.None?
    ensures Runs(Flush(cbs, st, None).0.log, tag) <= Runs(st.log, tag) + OccursBuffered(cbs, tag)
  {
    hide Flush, Runs, OccursBuffered;
    ConservationFlush(cbs, st, None, tag);
  }

  lemma FlushKeepsRuns(cbs: seq<Callback>, st: State, tag: nat)
    requires st.buffer.None?
    ensures Runs(Flush(cbs, st, None).0.log, tag) >= Runs(st.log, tag)
  {
    hide Flush, Runs, Segments;
    FlushRunsInOrder(cbs, st, None);
    RunsConcat(st.log, Flat(Segments(cbs, st)), tag);
  }

  lemma FlushRunsTag(cbs: seq<Callback>, st: State, i: nat)
    requires st.buffer.None? && i < |cbs| && i < |Segments(cbs, st)|
    ensures Runs(Flush(cbs, st, None).0.log, cbs[i].tag) >= Runs(st.log, cbs[i].tag) + 1
  {
    hide Flush, Runs, Segments;
    var segments, tag := Segments(cbs, st), cbs[i].tag;
    FlushRunsInOrder(cbs, st, None);
    RunsConcat(st.log, Flat(segments), tag);
    assert segments[i][0] == Ran(tag) && Ran(tag) in segments[i];
    FlatIn(segments, Ran(tag));
    RunsIfLogged(Flat(segments), tag);
  }

  /** From outside a transaction, no deferred work runs between a BEGIN and the COMMIT or ROLLBACK
      that answers it, and transactions do not overlap. */
  ghost predicate Neat(log: seq<Event>, inside: bool) {
    if log == [] then !inside
    else if log[0].Began? then !inside && Neat(log[1..], true)
    else if log[0].Ran? then !inside && Neat(log[1..], false)
    else inside && Neat(log[1..], false)
  }

  lemma {:induction false} NeatConcat(a: seq<Event>, b: seq<Event>, inside: bool)
    requires Neat(a, inside) && Neat(b, false)
    ensures Neat(a + b, inside)
  {
    if a == [] {
      assert a + b == b;
    } else {
      assert (a + b)[1..] == a[1..] + b;
      NeatConcat(a[1..], b, a[0].Began?);
    }
  }

  ghost function Added(before: State, after: State): seq<Event>
    requires before.log <= after.log
  {
    after.log[|before.log|..]
  }

  lemma AddedTwice(a: State, b: State, c: State)
    requires a.log <= b.log <= c.log
    requires Neat(Added(a, b), false) && Neat(Added(b, c), false)
    ensures a.log <= c.log && Neat(Added(a, c), false)
  {
    NeatConcat(Added(a, b), Added(b, c), false);
    assert Added(a, c) == Added(a, b) + Added(b, c);
  }

  lemma {:induction false} RunsAreNeat(cmds: seq<Cmd>, st: State)
    requires st.open.None?
    ensures st.log <= Exec(cmds, st).0.log && Neat(Added(st, Exec(cmds, st).0), false)
    decreases Size(cmds), 1, |cmds|
  {
    LogGrows(cmds, st);
    if cmds != [] {
      RunsAreNeatOne(cmds[0], st);
      LogGrowsOne(cmds[0], st);
      var (s1, o) := ExecOne(cmds[0], st);
      if !o.Threw? {
        RunsAreNeat(cmds[1..], s1);
        AddedTwice(st, s1, Exec(cmds, st).0);
      }
    }
  }

  lemma {:induction false} RunsAreNeatOne(c: Cmd, st: State)
    requires st.open.None?
    ensures st.log <= ExecOne(c, st).0.log && Neat(Added(st, ExecOne(c, st).0), false)
    decreases CmdSize(c), 0, 0
  {
    hide Exec, Leave, Flush, RunCallback, Neat;
    LogGrowsOne(c, st);
    NeatNothing(st);
    match c
    case Write(_) =>
    case Raise(_) =>
    case Defer(cb) =>
      if st.buffer.None? { RunsAreNeatCallback(cb, st); }
    case Atomic(body, commitFails, _) =>
      var entered := Enter(st).(open := Some([]), log := st.log + [Began]);
      InTransaction(body, entered);
      var (s1, o) := Exec(body, entered);
      var (s2, o2) := Finish(s1, o, commitFails);
      NeatPair(st, s1, s2, o, commitFails);
      RunsAreNeatLeave(st, st.buffer.None?, s2, o2, Size(body));
    case Scope(body, _) =>
      RunsAreNeat(body, Enter(st));
      var (s1, o) := Exec(body, Enter(st));
      RunsAreNeatLeave(st, st.buffer.None?, s1, o, Size(body));
  }

  lemma NeatNothing(st: State)
    ensures forall after: State :: after.log == st.log ==> Neat(Added(st, after), false)
  {
  }

  lemma NeatPair(st: State, s1: State, s2: State, o: Outcome, commitFails: Option<Failure>)
    requires s1.log == st.log + [Began] && s1.open.Some? && s2 == Finish(s1, o, commitFails).0
    ensures st.log <= s2.log && Neat(Added(st, s2), false)
  {
    var last := s2.log[|s2.log| - 1];
    assert Added(st, s2) == [Began, last];
    assert [Began, last][1..] == [last] && [last][1..] == [];
  }

  lemma {:induction false} RunsAreNeatLeave(start: State, owner: bool, st: State, o: Outcome, size: nat)
    requires st.buffer.Some? && st.open.None? && (owner ==> BufferSize(st.buffer.value) <= size)
    requires start.log <= st.log && Neat(Added(start, st), false)
    ensures start.log <= Leave(owner, st, o, size).0.log
    ensures Neat(Added(start, Leave(owner, st, o, size).0), false)
    decreases size, 2, 0
  {
    hide Flush, Neat;
    if owner && o.Done? {
      var dropped := st.(buffer := None);
      RunsAreNeatFlush(st.buffer.value, dropped, None);
      AddedTwice(start, dropped, Flush(st.buffer.value, dropped, None).0);
    }
  }

  lemma {:induction false} RunsAreNeatFlush(cbs: seq<Callback>, st: State, first: Option<Failure>)
    requires st.open.None? && st.buffer.None?
    ensures st.log <= Flush(cbs, st, first).0.log && Neat(Added(st, Flush(cbs, st, first).0), false)
    decreases BufferSize(cbs), 1, |cbs|
  {
    LogGrowsFlush(cbs, st, first);
    if cbs != [] {
      RunsAreNeatCallback(cbs[0], st);
      var (s1, o) := RunCallback(cbs[0], st);
      if o != Threw(Cancelled) {
        var next := if o.Threw? && first.None? then Some(o.failure) else first;
        RunsAreNeatFlush(cbs[1..], s1, next);
        AddedTwice(st, s1, Flush(cbs[1..], s1, next).0);
      }
    }
  }

  lemma {:induction false} RunsAreNeatCallback(cb: Callback, st: State)
    requires st.open.None?
    ensures st.log <= RunCallback(cb, st).0.log && Neat(Added(st, RunCallback(cb, st).0), false)
    decreases CallbackSize(cb), 0, 0
  {
    var started := st.(log := st.log + [Ran(cb.tag)]);
    LogGrowsCallback(cb, st);
    RunsAreNeat(cb.body, started);
    assert Added(st, started) == [Ran(cb.tag)] && [Ran(cb.tag)][1..] == [];
    AddedTwice(st, started, RunCallback(cb, st).0);
  }

  // --- the runtime as it is: fields updated in place ----------------------------------------------------

  class Runtime {
    var db: seq<int>
    var open: Option<seq<int>>
    var buffer: Option<seq<Callback>>
    var log: seq<Event>

    constructor ()
      ensures View() == State([], None, None, [])
    {
      db, open, buffer, log := [], None, None, [];
    }

    function View(): State
      reads this
    {
      State(db, open, buffer, log)
    }

    method Run(cmds: seq<Cmd>) returns (o: Outcome)
      modifies this
      ensures (View(), o) == Exec(cmds, old(View()))
      decreases Size(cmds), 1, |cmds|
    {
      if cmds == [] {
        return Done;
      }
      o := RunOne(cmds[0]);
      if o.Done? {
        o := Run(cmds[1..]);
      }
    }

    method RunOne(c: Cmd) returns (o: Outcome)
      modifies this
      ensures (View(), o) == ExecOne(c, old(View()))
      decreases CmdSize(c), 0, 0
    {
      match c {
        case Write(v) =>
          if open.Some? { open := Some(open.value + [v]); } else { db := db + [v]; }
          o := Done;
        case Raise(f) =>
          o := Threw(f);
        case Defer(cb) =>
          o := AfterCommit(cb);
        case Atomic(body, commitFails, caught) =>
          o := Transaction(body, commitFails);
          o := Caught(caught, o);
        case Scope(body, caught) =>
          var owner := EnterBuffer();
          o := Run(body);
          o := LeaveBuffer(owner, o, Size(body));
          o := Caught(caught, o);
      }
    }

    /** Defers to the open buffer, or runs at once when there is none. */
    method AfterCommit(cb: Callback) returns (o: Outcome)
      modifies this
      ensures (View(), o) == ExecOne(Defer(cb), old(View()))
      decreases CallbackSize(cb), 1, 0
    {
      if buffer.Some? {
        buffer := Some(buffer.value + [cb]);
        o := Done;
      } else {
        o := Fire(cb);
      }
    }

    method Fire(cb: Callback) returns (o: Outcome)
      modifies this
      ensures (View(), o) == RunCallback(cb, old(View()))
      decreases CallbackSize(cb), 0, 0
    {
      log := log + [Ran(cb.tag)];
      o := Run(cb.body);
    }

    /** A savepoint inside an open transaction, the real thing outside. */
    method Transaction(body: seq<Cmd>, commitFails: Option<Failure>) returns (o: Outcome)
      modifies this
      ensures (View(), o) == ExecOne(Atomic(body, commitFails, false), old(View()))
      decreases Size(body), 3, 0
    {
      if open.Some? {
        var savepoint := open;
        o := Run(body);
        if o.Threw? { open := savepoint; }
      } else {
        var owner := EnterBuffer();
        open, log := Some([]), log + [Began];
        o := Run(body);
        if o.Threw? {
          open, log := None, log + [RolledBack];
        } else if commitFails.Some? {
          open, log, o := None, log + [RolledBack], Threw(commitFails.value);
        } else {
          db, open, log := db + open.value, None, log + [Committed];
        }
        o := LeaveBuffer(owner, o, Size(body));
      }
    }

    method EnterBuffer() returns (owner: bool)
      modifies this`buffer
      ensures owner == old(buffer).None? && View() == Enter(old(View()))
    {
      owner := buffer.None?;
      if owner { buffer := Some([]); }
    }

    /** Drops or drains the buffer: the drain keeps the first failure and raises it at the end. */
    method LeaveBuffer(owner: bool, ended: Outcome, ghost size: nat) returns (o: Outcome)
      requires buffer.Some? && (owner ==> BufferSize(buffer.value) <= size)
      modifies this
      ensures (View(), o) == Leave(owner, old(View()), ended, size)
      decreases size, 2, 0
    {
      if !owner {
        return ended;
      }
      var callbacks := buffer.value;
      buffer := None;
      if ended.Threw? {
        return ended;
      }
      ghost var entry := View();
      var first: Option<Failure> := None;
      var i := 0;
      assert callbacks[0..] == callbacks;
      while i < |callbacks|
        invariant 0 <= i <= |callbacks| && buffer.None?
        invariant Flush(callbacks[i..], View(), first) == Flush(callbacks, entry, None)
        invariant BufferSize(callbacks[i..]) <= size
      {
        assert callbacks[i..][1..] == callbacks[i + 1..];
        var outcome := Fire(callbacks[i]);
        if outcome == Threw(Cancelled) {
          return outcome;
        }
        if outcome.Threw? && first.None? {
          first := Some(outcome.failure);
        }
        i := i + 1;
      }
      o := if first.Some? then Threw(first.value) else Done;
    }
  }
}
