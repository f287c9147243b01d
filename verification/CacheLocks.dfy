/** The array driver's lock table, which expires lazily: a dead entry stays until somebody looks. */
module CacheLocks {
  import opened Seqs

  /** Who holds a lock and until when; `None` is for ever. */
  datatype Entry = Entry(owner: string, expires: Option<int>)

  type Locks = map<string, Entry>

  /** One call. The clock is read at `now` and, where an expiry is computed, again at `then`. */
  datatype Op =
    | TryAcquire(name: string, owner: string, seconds: Option<int>, now: int, later: int)
    | Release(name: string, owner: string, now: int, later: int)
    | Refresh(name: string, owner: string, ttl: int, now: int, later: int)
    | ForceRelease(name: string, now: int, later: int)

  predicate Alive(expires: Option<int>, t: int) {
    expires.None? || expires.value > t
  }

  /** The live table: who holds a lock at time `t`. */
  function Holder(locks: Locks, name: string, t: int): Option<string> {
    if name in locks && Alive(locks[name].expires, t) then Some(locks[name].owner) else None
  }

  /** What `_live` leaves of the table. */
  function Swept(locks: Locks, name: string, now: int): Locks {
    if name in locks && !Alive(locks[name].expires, now) then locks - {name} else locks
  }

  function Until(later: int, seconds: Option<int>): Option<int> {
    if seconds.Some? then Some(later + seconds.value) else None
  }

  /** One call on the table, and whether it reported success. */
  function Do(locks: Locks, op: Op): (Locks, bool) {
    match op
    case TryAcquire(name, owner, seconds, now, later) =>
      if Holder(locks, name, now).Some? then (locks, false)
      else (Swept(locks, name, now)[name := Entry(owner, Until(later, seconds))], true)
    case Release(name, owner, now, _) =>
      if Holder(locks, name, now) == Some(owner) then (locks - {name}, true) else (Swept(locks, name, now), false)
    case Refresh(name, owner, ttl, now, later) =>
      if Holder(locks, name, now) == Some(owner) then (locks[name := Entry(owner, Some(later + ttl))], true)
      else (Swept(locks, name, now), false)
    case ForceRelease(name, _, _) => (locks - {name}, true)
  }

  // --- the lazy table refines the live one -----------------------------------------------------

  /** What a call does to the live table at every later moment: only its own lock can change, only an
      acquisition of a free lock or the holder's own release or refresh (or force) changes it. */
  lemma LiveTable(locks: Locks, op: Op, name: string, t: int)
    requires op.now <= op.later <= t
    ensures var (after, ok) := Do(locks, op);
            var held := Holder(locks, op.name, op.now);
            && (op.TryAcquire? ==> (ok <==> held.None?))
            && (op.Release? || op.Refresh? ==> (ok <==> held == Some(op.owner)))
            && Holder(after, name, t) ==
                 if name != op.name then Holder(locks, name, t)
                 else if op.ForceRelease? || (op.Release? && ok) then None
                 else if op.TryAcquire? && ok then
                   if op.seconds.None? || op.later + op.seconds.value > t then Some(op.owner) else None
                 else if op.Refresh? && ok then
                   if op.later + op.ttl > t then Some(op.owner) else None
                 else Holder(locks, name, t)
  {
  }

  /** Whoever looks at a lock clears a dead entry away: what a refused call leaves of its lock is alive. The
      entries of other locks stay as they are, dead or not. */
  lemma DeadEntryGoes(locks: Locks, op: Op, name: string)
    ensures var (after, ok) := Do(locks, op);
            && (!ok && op.name in after ==>
                  after == locks && (locks[op.name].expires.Some? ==> locks[op.name].expires.value > op.now))
            && (name != op.name ==>
                  (name in after <==> name in locks) && (name in locks ==> after[name] == locks[name]))
  {
  }

  /** An expired or foreign handle is refused, and nobody notices. */
  lemma ForeignHandleHarmless(locks: Locks, op: Op, name: string, t: int)
    requires (op.Release? || op.Refresh?) && Holder(locks, op.name, op.now) != Some(op.owner)
    requires op.now <= op.later <= t
    ensures !Do(locks, op).1 && Holder(Do(locks, op).0, name, t) == Holder(locks, name, t)
  {
  }

  /** An acquisition always reports success on a free lock, but with no positive duration it holds
      nothing. */
  lemma AcquiredYetNotHeld(locks: Locks, name: string, owner: string, seconds: int, now: int, later: int)
    requires now <= later && Holder(locks, name, now).None?
    ensures var (after, ok) := Do(locks, TryAcquire(name, owner, Some(seconds), now, later));
            ok && (Holder(after, name, later) == Some(owner) <==> seconds > 0)
            && (Holder(after, name, later).None? <==> seconds <= 0)
  {
  }

  // --- whole runs -----------------------------------------------------------------------------------

  function Run(locks: Locks, ops: seq<Op>): Locks
    decreases ops
  {
    if ops == [] then locks else Run(Do(locks, ops[0]).0, ops[1..])
  }

  /** The clock never goes back. */
  ghost predicate Ordered(ops: seq<Op>, start: int) {
    ops == [] || (start <= ops[0].now <= ops[0].later && Ordered(ops[1..], ops[0].later))
  }

  ghost function End(ops: seq<Op>, start: int): int {
    if ops == [] then start else End(ops[1..], ops[0].later)
  }

  /** What the owner's handles know from their own calls alone: since the last success, until when the
      lock is theirs; a release or a refused refresh ends that. */
  function Learn(belief: Option<Option<int>>, op: Op, ok: bool, name: string, owner: string): Option<Option<int>> {
    if op.ForceRelease? || op.name != name || op.owner != owner then belief
    else match op
      case TryAcquire(_, _, seconds, _, later) => if ok then Some(Until(later, seconds)) else belief
      case Release(_, _, _, _) => None
      case Refresh(_, _, ttl, _, later) => if ok then Some(Some(later + ttl)) else None
  }

  function Belief(locks: Locks, ops: seq<Op>, belief: Option<Option<int>>, name: string, owner: string)
    : Option<Option<int>>
    decreases ops
  {
    if ops == [] then belief
    else
      var (after, ok) := Do(locks, ops[0]);
      Belief(after, ops[1..], Learn(belief, ops[0], ok, name, owner), name, owner)
  }

  ghost predicate Holds(belief: Option<Option<int>>, t: int) {
    belief.Some? && Alive(belief.value, t)
  }

  predicate Forced(ops: seq<Op>, name: string) {
    ops != [] && ((ops[0].ForceRelease? && ops[0].name == name) || Forced(ops[1..], name))
  }

  lemma {:induction false} ForcedIff(ops: seq<Op>, name: string)
    ensures Forced(ops, name) <==> exists i :: 0 <= i < |ops| && ops[i].ForceRelease? && ops[i].name == name
  {
    if ops != [] {
      ForcedIff(ops[1..], name);
      assert forall i :: 0 <= i < |ops[1..]| ==> ops[1..][i] == ops[i + 1];
      if i :| 0 <= i < |ops| && ops[i].ForceRelease? && ops[i].name == name {
        if i > 0 { assert ops[1..][i - 1] == ops[i]; }
      }
    }
  }

  lemma LearnStep(locks: Locks, op: Op, belief: Option<Option<int>>, name: string, owner: string, t: int)
    requires op.now <= op.later <= t
    requires Holder(locks, name, op.now) == Some(owner) ==> Holds(belief, op.now)
    requires Holder(locks, name, t) == Some(owner) ==> Holds(belief, t)
    ensures var (after, ok) := Do(locks, op);
            Holder(after, name, t) == Some(owner) ==> Holds(Learn(belief, op, ok, name, owner), t)
  {
  }

  lemma LearnStepBack(locks: Locks, op: Op, belief: Option<Option<int>>, name: string, owner: string, t: int)
    requires op.now <= op.later <= t && !(op.ForceRelease? && op.name == name)
    requires Holds(belief, op.now) ==> Holder(locks, name, op.now) == Some(owner)
    requires Holds(belief, t) ==> Holder(locks, name, t) == Some(owner)
    ensures var (after, ok) := Do(locks, op);
            Holds(Learn(belief, op, ok, name, owner), t) ==> Holder(after, name, t) == Some(owner)
  {
  }

  ghost predicate Knows(locks: Locks, belief: Option<Option<int>>, name: string, owner: string, t: int) {
    Holder(locks, name, t) == Some(owner) ==> Holds(belief, t)
  }

  ghost predicate IsRight(locks: Locks, belief: Option<Option<int>>, name: string, owner: string, t: int) {
    Holds(belief, t) ==> Holder(locks, name, t) == Some(owner)
  }

  /** Over any run, whoever holds the lock knows it from its own calls. */
  lemma {:induction false} HolderKnows(locks: Locks, ops: seq<Op>, belief: Option<Option<int>>,
                                       name: string, owner: string, start: int)
    requires Ordered(ops, start)
    requires forall t :: t >= start ==> Knows(locks, belief, name, owner, t)
    ensures forall t :: t >= End(ops, start) ==>
              Knows(Run(locks, ops), Belief(locks, ops, belief, name, owner), name, owner, t)
    decreases ops
  {
    hide Do, Learn;
    if ops != [] {
      var op := ops[0];
      var (after, ok) := Do(locks, op);
      var learnt := Learn(belief, op, ok, name, owner);
      assert Knows(locks, belief, name, owner, op.now);
      forall t | t >= op.later ensures Knows(after, learnt, name, owner, t) {
        assert Knows(locks, belief, name, owner, t);
        LearnStep(locks, op, belief, name, owner, t);
      }
      HolderKnows(after, ops[1..], learnt, name, owner, op.later);
    }
  }

  /** Without a forced release, whoever concludes from its own calls that it holds the lock does. */
  lemma {:induction false} BeliefIsRight(locks: Locks, ops: seq<Op>, belief: Option<Option<int>>,
                                         name: string, owner: string, start: int)
    requires Ordered(ops, start) && !Forced(ops, name)
    requires forall t :: t >= start ==> IsRight(locks, belief, name, owner, t)
    ensures forall t :: t >= End(ops, start) ==>
              IsRight(Run(locks, ops), Belief(locks, ops, belief, name, owner), name, owner, t)
    decreases ops
  {
    hide Do, Learn;
    if ops != [] {
      var op := ops[0];
      var (after, ok) := Do(locks, op);
      var learnt := Learn(belief, op, ok, name, owner);
      assert IsRight(locks, belief, name, owner, op.now);
      forall t | t >= op.later ensures IsRight(after, learnt, name, owner, t) {
        assert IsRight(locks, belief, name, owner, t);
        LearnStepBack(locks, op, belief, name, owner, t);
      }
      BeliefIsRight(after, ops[1..], learnt, name, owner, op.later);
    }
  }

  /** Holding intervals of different owners never overlap: of any run from an empty table without forced
      releases, at most one owner can conclude at any moment that the lock is its own, and it is right. */
  lemma NeverTwoHolders(ops: seq<Op>, name: string, a: string, b: string, start: int, t: int)
    requires Ordered(ops, start) && !Forced(ops, name) && t >= End(ops, start)
    requires Holds(Belief(map[], ops, None, name, a), t) && Holds(Belief(map[], ops, None, name, b), t)
    ensures a == b && Holder(Run(map[], ops), name, t) == Some(a)
  {
    BeliefIsRight(map[], ops, None, name, a, start);
    BeliefIsRight(map[], ops, None, name, b, start);
    assert IsRight(Run(map[], ops), Belief(map[], ops, None, name, a), name, a, t);
    assert IsRight(Run(map[], ops), Belief(map[], ops, None, name, b), name, b, t);
  }

  /** A forced release tells the holder nothing: two owners may then both believe. */
  lemma ForcedReleaseDeceives(name: string, a: string, b: string)
    requires a != b
    ensures var ops := [TryAcquire(name, a, None, 0, 0), ForceRelease(name, 1, 1), TryAcquire(name, b, None, 2, 2)];
            && Ordered(ops, 0)
            && Holds(Belief(map[], ops, None, name, a), 2) && Holds(Belief(map[], ops, None, name, b), 2)
  {
    var (first, second) := (TryAcquire(name, a, None, 0, 0), ForceRelease(name, 1, 1));
    var third := TryAcquire(name, b, None, 2, 2);
    var ops := [first, second, third];
    assert ops == [first] + ([second] + ([third] + []));
    assert ops[1..] == [second, third] && [second, third][1..] == [third] && [third][1..] == [];
    assert Ordered([], 2) && Ordered([third], 1) && Ordered([second, third], 0);
    var one: Locks := map[name := Entry(a, None)];
    assert Do(map[], first) == (one, true);
    assert Do(one, second).0 == map[];
    assert Do(map[], third).1;
    BeliefOn(map[], first, [second] + ([third] + []), None, name, a);
    BeliefOn(one, second, [third] + [], Some(None), name, a);
    BeliefOn(map[], third, [], Some(None), name, a);
    BeliefOn(map[], first, [second] + ([third] + []), None, name, b);
    BeliefOn(one, second, [third] + [], None, name, b);
    BeliefOn(map[], third, [], None, name, b);
  }

  lemma BeliefOn(locks: Locks, op: Op, rest: seq<Op>, belief: Option<Option<int>>, name: string, owner: string)
    ensures Belief(locks, [op] + rest, belief, name, owner) ==
            Belief(Do(locks, op).0, rest, Learn(belief, op, Do(locks, op).1, name, owner), name, owner)
  {
    assert ([op] + rest)[1..] == rest;
  }

  // --- the table as it is updated ----------------------------------------------------------------------

  class ArrayLockStore {
    var locks: Locks

    constructor ()
      ensures locks == map[]
    {
      locks := map[];
    }

    /** The entry if it is live; a dead one is dropped on the way. */
    method Live(name: string, now: int) returns (current: Option<Entry>)
      modifies this
      ensures locks == Swept(old(locks), name, now)
      ensures current.Some? <==> Holder(old(locks), name, now).Some?
      ensures current.Some? ==> name in locks && current.value == locks[name]
    {
      if name !in locks {
        return None;
      }
      var entry := locks[name];
      if entry.expires.Some? && entry.expires.value <= now {
        locks := locks - {name};
        return None;
      }
      current := Some(entry);
    }

    method TryAcquire(name: string, owner: string, seconds: Option<int>, now: int, later: int) returns (ok: bool)
      modifies this
      ensures (locks, ok) == Do(old(locks), Op.TryAcquire(name, owner, seconds, now, later))
    {
      var current := Live(name, now);
      if current.Some? {
        return false;
      }
      locks := locks[name := Entry(owner, if seconds.Some? then Some(later + seconds.value) else None)];
      ok := true;
    }

    method Release(name: string, owner: string, now: int) returns (ok: bool)
      modifies this
      ensures (locks, ok) == Do(old(locks), Op.Release(name, owner, now, now))
    {
      var current := Live(name, now);
      if current.None? || current.value.owner != owner {
        return false;
      }
      locks := locks - {name};
      ok := true;
    }

    method Refresh(name: string, owner: string, ttl: int, now: int, later: int) returns (ok: bool)
      modifies this
      ensures (locks, ok) == Do(old(locks), Op.Refresh(name, owner, ttl, now, later))
    {
      var current := Live(name, now);
      if current.None? || current.value.owner != owner {
        return false;
      }
      locks := locks[name := Entry(owner, Some(later + ttl))];
      ok := true;
    }

    method ForceRelease(name: string)
      modifies this
      ensures locks == Do(old(locks), Op.ForceRelease(name, 0, 0)).0
    {
      locks := locks - {name};
    }
  }
}
