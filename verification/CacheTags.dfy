/** Tagged cache entries and the member sets that let a tag be flushed. */
module CacheTags {
  import opened Seqs
  import opened Strings

  /** A tag combination: sorted, without repeats. */
  type Names = seq<string>

  // --- scoped keys -----------------------------------------------------------------------------

  /** `sorted(set(names))`, one name at a time. */
  function Insert(name: string, names: Names): (r: Names)
    ensures forall n :: n in r <==> n == name || n in names
  {
    if names == [] || Less(name, names[0]) then [name] + names
    else if name == names[0] then names
    else
      assert names == [names[0]] + names[1..];
      [names[0]] + Insert(name, names[1..])
  }

  function Canonical(names: seq<string>): (r: Names)
    ensures forall n :: n in r <==> n in names
  {
    if names == [] then []
    else
      assert names == [names[0]] + names[1..];
      Insert(names[0], Canonical(names[1..]))
  }

  ghost predicate Sorted(names: Names) {
    names == [] || ((forall n :: n in names[1..] ==> Less(names[0], n)) && Sorted(names[1..]))
  }

  lemma {:induction false} InsertSorted(name: string, names: Names)
    requires Sorted(names)
    ensures Sorted(Insert(name, names))
  {
    if names != [] {
      LessTrichotomy(name, names[0]);
      if Less(name, names[0]) {
        forall n | n in names ensures Less(name, n) {
          assert names == [names[0]] + names[1..];
          if n != names[0] { LessTransitive(name, names[0], n); }
        }
      } else if name != names[0] {
        InsertSorted(name, names[1..]);
      }
    }
  }

  lemma {:induction false} CanonicalSorted(names: seq<string>)
    ensures Sorted(Canonical(names))
  {
    if names != [] {
      CanonicalSorted(names[1..]);
      InsertSorted(names[0], Canonical(names[1..]));
    }
  }

  lemma HeadIn(names: Names)
    requires names != []
    ensures names[0] in names
  {
  }

  lemma {:induction false} SortedOnce(a: Names, b: Names)
    requires Sorted(a) && Sorted(b) && forall n :: n in a <==> n in b
    ensures a == b
  {
    if a == [] {
      if b != [] { HeadIn(b); }
    } else {
      assert a[0] in a;
      assert b != [];
      assert b[0] in b;
      assert a == [a[0]] + a[1..] && b == [b[0]] + b[1..];
      LessTrichotomy(a[0], b[0]);
      LessTrichotomy(a[0], a[0]);
      assert a[0] == b[0];
      forall n ensures n in a[1..] <==> n in b[1..] {
        assert n in a <==> n in b;
        assert n in a[1..] || n in b[1..] ==> n != a[0];
      }
      SortedOnce(a[1..], b[1..]);
    }
  }

  /** A combination is the set of its tags, however it was written. */
  lemma CanonicalBySet(a: seq<string>, b: seq<string>)
    ensures Canonical(a) == Canonical(b) <==> forall n :: n in a <==> n in b
  {
    if forall n :: n in a <==> n in b {
      CanonicalSorted(a);
      CanonicalSorted(b);
      SortedOnce(Canonical(a), Canonical(b));
    }
  }

  /** At least one tag, and none that contains a separator. */
  ghost predicate Plain(names: Names) {
    names != [] && forall n :: n in names ==> '+' !in n && ':' !in n
  }

  function Join(names: Names): string {
    if names == [] then [] else if |names| == 1 then names[0] else names[0] + ['+'] + Join(names[1..])
  }

  function ScopedKey(names: Names, key: string): string {
    "_tag:" + (Join(names) + [':'] + key)
  }

  lemma JoinPlus(names: Names)
    requires Plain(names)
    ensures '+' in Join(names) <==> |names| > 1
  {
    assert names[0] in names;
    if |names| > 1 {
      assert Join(names)[|names[0]|] == '+';
    }
  }

  lemma {:induction false} JoinOnce(a: Names, b: Names)
    requires Plain(a) && Plain(b) && Join(a) == Join(b)
    ensures a == b
  {
    JoinPlus(a);
    JoinPlus(b);
    if |a| == 1 {
      assert a == [a[0]] && b == [b[0]];
    } else {
      assert a[0] in a && b[0] in b;
      SplitOnce('+', a[0], Join(a[1..]), b[0], Join(b[1..]));
      JoinOnce(a[1..], b[1..]);
      assert a == [a[0]] + a[1..] && b == [b[0]] + b[1..];
    }
  }

  lemma {:induction false} NoColon(names: Names)
    requires Plain(names)
    ensures ':' !in Join(names)
  {
    assert names[0] in names;
    if |names| > 1 {
      NoColon(names[1..]);
    }
  }

  /** Some pair of keys gives the two combinations one scoped key. */
  ghost predicate Collide(a: Names, b: Names) {
    exists x: string, y: string :: ScopedKey(a, x) == ScopedKey(b, y)
  }

  /** Whatever the tag names contain, two combinations collide exactly when their joined names are equal,
      or one followed by a colon begins the other. */
  lemma CollideIff(a: Names, b: Names)
    ensures Collide(a, b) <==> Join(a) == Join(b) || Join(a) + [':'] <= Join(b) || Join(b) + [':'] <= Join(a)
  {
    hide Join;
    if Collide(a, b) {
      var x: string, y: string :| ScopedKey(a, x) == ScopedKey(b, y);
      CollisionPrefix(a, x, b, y);
    }
    if Join(a) == Join(b) {
      assert ScopedKey(a, []) == ScopedKey(b, []);
    } else if Join(a) + [':'] <= Join(b) {
      PrefixCollides(a, b);
    } else if Join(b) + [':'] <= Join(a) {
      PrefixCollides(b, a);
    }
  }

  lemma CollisionPrefix(a: Names, x: string, b: Names, y: string)
    requires ScopedKey(a, x) == ScopedKey(b, y)
    ensures Join(a) == Join(b) || Join(a) + [':'] <= Join(b) || Join(b) + [':'] <= Join(a)
    ensures Join(a) == Join(b) ==> x == y
  {
    hide Join;
    var (s, t) := (Join(a) + [':'] + x, Join(b) + [':'] + y);
    assert s == ScopedKey(a, x)[5..] && t == ScopedKey(b, y)[5..];
    if |Join(a)| < |Join(b)| {
      assert Join(b) == t[..|Join(b)|] && Join(a) + [':'] == s[..|Join(a)| + 1];
    } else if |Join(b)| < |Join(a)| {
      assert Join(a) == s[..|Join(a)|] && Join(b) + [':'] == t[..|Join(b)| + 1];
    } else {
      assert Join(a) == s[..|Join(a)|] && Join(b) == t[..|Join(b)|];
      assert x == s[|Join(a)| + 1..] && y == t[|Join(b)| + 1..];
    }
  }

  lemma PrefixCollides(a: Names, b: Names)
    requires Join(a) + [':'] <= Join(b)
    ensures Collide(a, b) && Collide(b, a)
  {
    hide Join;
    var x := Join(b)[|Join(a)| + 1..] + [':'];
    assert Join(a) + [':'] + x == Join(b) + [':'] + [];
    assert ScopedKey(a, x) == ScopedKey(b, []);
  }

  /** So different combinations or different keys never share a scoped key when the tag names contain
      neither separator, whatever the keys contain. */
  lemma ScopedKeyOnce(a: Names, x: string, b: Names, y: string)
    requires Plain(a) && Plain(b) && ScopedKey(a, x) == ScopedKey(b, y)
    ensures a == b && x == y
  {
    hide Join, ScopedKey;
    NoColon(a);
    NoColon(b);
    CollisionPrefix(a, x, b, y);
    if Join(a) + [':'] <= Join(b) {
      PrefixHasColon(Join(a), Join(b));
    } else if Join(b) + [':'] <= Join(a) {
      PrefixHasColon(Join(b), Join(a));
    } else {
      JoinOnce(a, b);
    }
  }

  lemma PrefixHasColon(s: string, t: string)
    requires s + [':'] <= t
    ensures ':' in t
  {
    assert (s + [':'])[|s|] == ':';
  }

  /** For instance a "+" or a ":" inside a tag name. */
  lemma {:induction false} ScopedKeysCollide(key: string)
    ensures ScopedKey(["a+b"], key) == ScopedKey(["a", "b"], key)
    ensures ScopedKey(["a:b"], key) == ScopedKey(["a"], "b:" + key)
  {
    assert ["a", "b"][1..] == ["b"];
    assert Join(["a", "b"]) == "a" + ['+'] + "b" == "a+b";
    assert "a:b" + [':'] + key == "a" + [':'] + ("b:" + key);
  }

  // --- what a member set must cover ---------------------------------------------------------------

  /** A combination of plain tag names that contains `n` can have written the stored key `m`. */
  ghost predicate Carries(m: string, n: string) {
    exists names: Names, key: string :: Plain(names) && n in names && m == ScopedKey(names, key)
  }

  lemma CarriesIff(names: Names, key: string, n: string)
    requires Plain(names)
    ensures Carries(ScopedKey(names, key), n) <==> n in names
  {
    if Carries(ScopedKey(names, key), n) {
      var names', key' :| Plain(names') && n in names' && ScopedKey(names, key) == ScopedKey(names', key');
      ScopedKeyOnce(names, key, names', key');
    }
  }

  ghost predicate CarriesAny(m: string, names: Names) {
    exists n :: n in names && Carries(m, n)
  }

  type Entries = map<string, int>
  type Tagsets = map<string, set<string>>

  /** For each live entry, the tags it was written under since it last came into being: history, which
      nothing reads. */
  type Tags = map<string, set<string>>

  function Tagged(tags: Tags, m: string, names: Names): Tags {
    tags[m := TagsOf(tags, m) + Members(names)]
  }

  function TagsOf(tags: Tags, m: string): set<string> {
    if m in tags then tags[m] else {}
  }

  /** Writing an entry under a combination adds its names to the entry's tags, and touches no other entry. */
  lemma TaggedMeans(tags: Tags, m: string, names: Names, other: string, n: string)
    ensures m in Tagged(tags, m, names)
    ensures n in Tagged(tags, m, names)[m] <==> n in names || (m in tags && n in tags[m])
    ensures other != m ==>
              (other in Tagged(tags, m, names) <==> other in tags)
              && (other in tags ==> Tagged(tags, m, names)[other] == tags[other])
  {
  }

  function MembersOf(tagsets: Tagsets, n: string): set<string> {
    if n in tagsets then tagsets[n] else {}
  }

  function Members(batch: seq<string>): set<string> {
    set m | m in batch
  }

  lemma MembersSnoc(batch: seq<string>, i: nat)
    requires i < |batch|
    ensures Members(batch[..i + 1]) == Members(batch[..i]) + {batch[i]}
    ensures Distinct(batch) ==> batch[i] !in Members(batch[..i])
  {
    assert batch[..i + 1] == batch[..i] + [batch[i]];
  }

  /** Every live entry is a member of the set of each of its tags. */
  ghost predicate Covered(entries: Entries, tagsets: Tagsets, tags: Tags) {
    && tags.Keys == entries.Keys
    && forall m, n :: m in tags && n in tags[m] ==> m in MembersOf(tagsets, n)
  }

  /** What holds as long as all tag names are plain: members and entries tell their tags by their keys. */
  ghost predicate Tidy(tagsets: Tagsets, tags: Tags) {
    && (forall m, n :: m in MembersOf(tagsets, n) ==> Carries(m, n))
    && forall m, n :: m in tags && Carries(m, n) ==> n in tags[m]
  }

  lemma TidyWrite(names: Names, key: string, tagsets: Tagsets, tags: Tags, tagsets': Tagsets, tags': Tags)
    requires Plain(names) && Tidy(tagsets, tags)
    requires forall n :: MembersOf(tagsets', n) ==
               MembersOf(tagsets, n) + if n in names then {ScopedKey(names, key)} else {}
    requires tags' == Tagged(tags, ScopedKey(names, key), names) || tags' == tags - {ScopedKey(names, key)}
    ensures Tidy(tagsets', tags')
  {
    var scoped := ScopedKey(names, key);
    forall n ensures Carries(scoped, n) <==> n in names { CarriesIff(names, key, n); }
    hide Carries, ScopedKey, Plain, MembersOf;
  }

  /** Losing members and entries leaves a tidy store tidy. */
  lemma TidyDrop(tagsets: Tagsets, tags: Tags, tagsets': Tagsets, tags': Tags)
    requires Tidy(tagsets, tags)
    requires forall n :: MembersOf(tagsets', n) <= MembersOf(tagsets, n)
    requires forall m :: m in tags' ==> m in tags && tags'[m] == tags[m]
    ensures Tidy(tagsets', tags')
  {
    hide Carries, MembersOf;
  }

  function DeadIn(entries: Entries, tagsets: Tagsets, n: string): nat {
    |MembersOf(tagsets, n) - entries.Keys|
  }

  /** The members of the tags whose entry is gone. */
  function Dead(entries: Entries, tagsets: Tagsets, names: Names): nat {
    if names == [] then 0
    else DeadIn(entries, tagsets, names[0]) + Dead(entries, tagsets, names[1..])
  }

  /** Tag `n` has been popped of `popped` so far, and no other tag changed. */
  ghost predicate Drained(before: Tagsets, now: Tagsets, n: string, popped: seq<string>) {
    && Distinct(popped)
    && (forall m :: m in MembersOf(before, n) <==> m in popped || m in MembersOf(now, n))
    && (forall m :: m in popped ==> m !in MembersOf(now, n))
    && (forall n' :: n' != n ==> MembersOf(now, n') == MembersOf(before, n'))
  }

  lemma DrainStart(before: Tagsets, n: string)
    ensures Drained(before, before, n, [])
  {
  }

  lemma DrainStep(before: Tagsets, now: Tagsets, next: Tagsets, n: string, popped: seq<string>, batch: seq<string>)
    requires Drained(before, now, n, popped)
    requires batch != [] && Distinct(batch) && forall m :: m in batch ==> m in MembersOf(now, n)
    requires next == now[n := MembersOf(now, n) - Members(batch)]
    ensures Drained(before, next, n, popped + batch) && MembersOf(next, n) < MembersOf(now, n)
  {
    assert batch[0] in batch;
    DistinctConcat(popped, batch);
  }

  lemma DrainEnd(before: Tagsets, now: Tagsets, n: string, popped: seq<string>)
    requires Drained(before, now, n, popped) && MembersOf(now, n) == {}
    ensures Members(popped) == MembersOf(before, n)
    ensures forall n' :: MembersOf(now, n') == if n' == n then {} else MembersOf(before, n')
  {
  }

  function Stored(entries: Entries): string -> bool {
    (m: string) => m in entries
  }

  function Gone(entries: Entries): string -> bool {
    (m: string) => m !in entries
  }

  /** Of these members, the ones still stored, and how many are not. */
  ghost predicate Sifted(entries: Entries, members: seq<string>, survivors: seq<string>, removed: nat) {
    survivors == Filter(Stored(entries), members) && removed == Count(members, Gone(entries))
  }

  lemma SiftedConcat(entries: Entries, a: seq<string>, b: seq<string>, alive: seq<string>, alive': seq<string>,
                     dead: nat, dead': nat)
    requires Sifted(entries, a, alive, dead) && Sifted(entries, b, alive', dead')
    ensures Sifted(entries, a + b, alive + alive', dead + dead')
  {
    FilterConcat(Stored(entries), a, b);
    CountConcat(a, b, Gone(entries));
  }

  lemma SiftedOne(entries: Entries, m: string)
    ensures Sifted(entries, [m], if m in entries then [m] else [], if m in entries then 0 else 1)
    ensures Sifted(entries, [], [], 0)
  {
    assert [m][1..] == [];
  }

  /** The distinct members that are gone, counted along a sequence or as a set. */
  lemma {:induction false} GoneCount(entries: Entries, members: seq<string>)
    requires Distinct(members)
    ensures Count(members, Gone(entries)) == |Members(members) - entries.Keys|
  {
    if members == [] {
      assert Members(members) - entries.Keys == {};
    } else {
      MembersCons(members);
      hide Members, Distinct;
      GoneCount(entries, members[1..]);
      OneMoreGone(Members(members[1..]), members[0], entries.Keys);
    }
  }

  lemma MembersCons(members: seq<string>)
    requires members != [] && Distinct(members)
    ensures Distinct(members[1..]) && members[0] !in Members(members[1..])
    ensures Members(members) == Members(members[1..]) + {members[0]}
  {
    assert members == [members[0]] + members[1..];
    assert forall i :: 0 <= i < |members[1..]| ==> members[1..][i] == members[i + 1];
  }

  lemma OneMoreGone(members: set<string>, m: string, keys: set<string>)
    requires m !in members
    ensures |(members + {m}) - keys| == |members - keys| + if m in keys then 0 else 1
  {
    assert (members + {m}) - keys == (members - keys) + if m in keys then {} else {m};
  }

  /** The tags done so far hold their live members, the others all of theirs. */
  ghost predicate PrunedUpTo(entries: Entries, before: Tagsets, now: Tagsets, done: Names) {
    forall n :: MembersOf(now, n) ==
      if n in done then MembersOf(before, n) * entries.Keys else MembersOf(before, n)
  }

  lemma PruneTagStep(entries: Entries, before: Tagsets, now: Tagsets, next: Tagsets, done: Names, n: string)
    requires PrunedUpTo(entries, before, now, done) && PrunedUpTo(entries, now, next, [n])
    ensures PrunedUpTo(entries, before, next, done + [n])
    ensures n !in done ==> DeadIn(entries, now, n) == DeadIn(entries, before, n)
  {
    forall n' ensures MembersOf(next, n') ==
      if n' in done + [n] then MembersOf(before, n') * entries.Keys else MembersOf(before, n')
    {
      assert n' in done + [n] <==> n' in done || n' == n;
    }
  }

  lemma DeadFrom(entries: Entries, tagsets: Tagsets, names: Names, i: nat)
    requires i < |names|
    ensures Dead(entries, tagsets, names[i..]) ==
            DeadIn(entries, tagsets, names[i]) + Dead(entries, tagsets, names[i + 1..])
  {
    assert names[i..][1..] == names[i + 1..];
  }

  // --- the store ------------------------------------------------------------------------------------

  /** The cache client and the repository's verbs: entries, and one member set per tag. */
  class CacheStore {
    var entries: Entries
    var tagsets: Tagsets
    ghost var tags: Tags

    constructor ()
      ensures Valid() && Tidied() && entries == map[] && tagsets == map[]
    {
      entries, tagsets, tags := map[], map[], map[];
    }

    ghost predicate Valid()
      reads this
    {
      Covered(entries, tagsets, tags)
    }

    ghost predicate Tidied()
      reads this
    {
      Tidy(tagsets, tags)
    }

    /** An entry expires or is evicted: nobody tells the tags. */
    method Evict(m: string)
      requires Valid()
      modifies this`entries, this`tags
      ensures Valid() && entries == old(entries) - {m}
      ensures old(Tidied()) ==> Tidied()
    {
      if Tidied() { TidyDrop(tagsets, tags, tagsets, tags - {m}); }
      entries, tags := entries - {m}, tags - {m};
    }

    /** The client's own SET, which takes any lifetime as it comes. */
    method Set(m: string, value: int)
      modifies this`entries, this`tags
      ensures entries == old(entries)[m := value] && tags == old(tags)[m := TagsOf(old(tags), m)]
    {
      entries, tags := entries[m := value], tags[m := TagsOf(tags, m)];
    }

    /** A store with a non-positive lifetime evicts instead. */
    method Put(m: string, value: int, ttl: Option<int>) returns (stored: bool)
      modifies this`entries, this`tags
      ensures stored == (ttl.None? || ttl.value > 0)
      ensures entries == if stored then old(entries)[m := value] else old(entries) - {m}
      ensures tags == if stored then old(tags)[m := TagsOf(old(tags), m)] else old(tags) - {m}
    {
      if ttl.Some? && ttl.value <= 0 {
        entries, tags := entries - {m}, tags - {m};
        return false;
      }
      Set(m, value);
      stored := true;
    }

    /** Set if absent. */
    method Add(m: string, value: int, ttl: Option<int>) returns (stored: bool)
      modifies this`entries, this`tags
      ensures stored == ((ttl.None? || ttl.value > 0) && m !in old(entries))
      ensures entries == if stored then old(entries)[m := value] else old(entries)
      ensures tags == if stored then old(tags)[m := TagsOf(old(tags), m)] else old(tags)
    {
      if ttl.Some? && ttl.value <= 0 {
        return false;
      }
      stored := m !in entries;
      if stored { Set(m, value); }
    }

    method Delete(m: string)
      modifies this`entries, this`tags
      ensures entries == old(entries) - {m} && tags == old(tags) - {m}
    {
      entries, tags := entries - {m}, tags - {m};
    }

    /** `set_pop`: any members up to `count`, none only when there are none. */
    method SetPop(n: string, count: nat) returns (batch: seq<string>)
      requires count > 0
      modifies this`tagsets
      ensures |batch| <= count && (batch == [] <==> MembersOf(old(tagsets), n) == {})
      ensures Distinct(batch) && forall m :: m in batch ==> m in MembersOf(old(tagsets), n)
      ensures tagsets == if batch == [] then old(tagsets)
                         else old(tagsets)[n := MembersOf(old(tagsets), n) - Members(batch)]
    {
      var members := MembersOf(tagsets, n);
      batch := [];
      while |batch| < count && members != {}
        invariant |batch| <= count && Distinct(batch)
        invariant members == MembersOf(tagsets, n) - Members(batch)
        invariant forall m :: m in batch ==> m in MembersOf(tagsets, n)
        decreases members
      {
        var m :| m in members;
        batch := batch + [m];
        members := members - {m};
      }
      if batch != [] {
        assert batch[0] in MembersOf(tagsets, n);
        tagsets := tagsets[n := members];
      }
    }

    method SetAdd(n: string, added: set<string>)
      modifies this`tagsets
      ensures tagsets == old(tagsets)[n := MembersOf(old(tagsets), n) + added]
    {
      tagsets := tagsets[n := MembersOf(tagsets, n) + added];
    }
  }

  // --- a tag-scoped view -------------------------------------------------------------------------------

  class TaggedCache {
    const store: CacheStore
    const names: Names

    constructor (store: CacheStore, given: seq<string>)
      requires given != []
      ensures this.store == store && names == Canonical(given) && names != [] && Sorted(names)
      ensures Plain(given) ==> Plain(names)
    {
      CanonicalSorted(given);
      this.store := store;
      names := Canonical(given);
      new;
      assert given[0] in names;
    }

    ghost predicate Valid()
      reads this, store
    {
      names != [] && Sorted(names) && store.Valid()
    }

    /** Every tag name used so far is plain, this combination's included. */
    ghost predicate Tidied()
      reads this, store
    {
      Plain(names) && store.Tidied()
    }

    method Register(key: string)
      modifies store`tagsets
      ensures forall n :: MembersOf(store.tagsets, n) ==
                MembersOf(old(store.tagsets), n) + if n in names then {ScopedKey(names, key)} else {}
    {
      var scoped := ScopedKey(names, key);
      var i := 0;
      while i < |names|
        invariant 0 <= i <= |names|
        invariant forall n :: MembersOf(store.tagsets, n) ==
                    MembersOf(old(store.tagsets), n) + if n in names[..i] then {scoped} else {}
      {
        assert names[..i + 1] == names[..i] + [names[i]];
        store.SetAdd(names[i], {scoped});
        i := i + 1;
      }
      assert names[..|names|] == names;
    }

    /** The entry has now been written under this combination too. */
    ghost method Tag(key: string)
      requires names != [] && Sorted(names) && ScopedKey(names, key) in store.tags
      requires store.tags.Keys == store.entries.Keys
      requires Covered(store.entries, store.tagsets, store.tags)
      requires forall n :: n in names ==> ScopedKey(names, key) in MembersOf(store.tagsets, n)
      modifies store`tags
      ensures Valid()
      ensures store.tags == Tagged(old(store.tags), ScopedKey(names, key), names)
    {
      hide ScopedKey, MembersOf;
      var scoped := ScopedKey(names, key);
      store.tags := Tagged(store.tags, scoped, names);
    }

    /** Registers first, then stores; both or, for a dead lifetime, an eviction. */
    method Put(key: string, value: int, ttl: Option<int>) returns (stored: bool)
      requires Valid()
      modifies store
      ensures Valid() && (old(Tidied()) ==> Tidied())
      ensures stored == (ttl.None? || ttl.value > 0)
      ensures var scoped := ScopedKey(names, key);
              && store.entries == (if stored then old(store.entries)[scoped := value]
                                   else old(store.entries) - {scoped})
              && store.tags == (if stored then Tagged(old(store.tags), scoped, names)
                                else old(store.tags) - {scoped})
    {
      hide ScopedKey, MembersOf, Sorted, Plain, Tidy;
      Register(key);
      stored := store.Put(ScopedKey(names, key), value, ttl);
      if stored { Tag(key); }
      if old(Tidied()) { TidyWrite(names, key, old(store.tagsets), old(store.tags), store.tagsets, store.tags); }
    }

    /** Stores first, and registers only what was stored. */
    method Add(key: string, value: int, ttl: Option<int>) returns (stored: bool)
      requires Valid()
      modifies store
      ensures Valid() && (old(Tidied()) ==> Tidied())
      ensures stored == ((ttl.None? || ttl.value > 0) && ScopedKey(names, key) !in old(store.entries))
      ensures var scoped := ScopedKey(names, key);
              && store.entries == (if stored then old(store.entries)[scoped := value] else old(store.entries))
              && store.tags == (if stored then Tagged(old(store.tags), scoped, names)
                                else old(store.tags))
    {
      hide ScopedKey, MembersOf, Sorted, Plain, Tidy;
      stored := store.Add(ScopedKey(names, key), value, ttl);
      if stored {
        Register(key);
        Tag(key);
        if old(Tidied()) { TidyWrite(names, key, old(store.tagsets), old(store.tags), store.tagsets, store.tags); }
      }
    }

    method Get(key: string) returns (value: Option<int>)
      ensures var scoped := ScopedKey(names, key);
              value == if scoped in store.entries then Some(store.entries[scoped]) else None
    {
      var scoped := ScopedKey(names, key);
      value := if scoped in store.entries then Some(store.entries[scoped]) else None;
    }

    /** Leaves this combination's sets before it deletes, so no dead member remains there. */
    method Forget(key: string)
      requires Valid()
      modifies store
      ensures Valid() && (old(Tidied()) ==> Tidied())
      ensures store.entries == old(store.entries) - {ScopedKey(names, key)}
      ensures forall n :: MembersOf(store.tagsets, n) ==
                MembersOf(old(store.tagsets), n) - if n in names then {ScopedKey(names, key)} else {}
    {
      hide ScopedKey, Sorted, Plain, Tidy;
      var scoped := ScopedKey(names, key);
      var i := 0;
      while i < |names|
        invariant 0 <= i <= |names| && store.entries == old(store.entries) && store.tags == old(store.tags)
        invariant forall n :: MembersOf(store.tagsets, n) ==
                    MembersOf(old(store.tagsets), n) - if n in names[..i] then {scoped} else {}
      {
        assert names[..i + 1] == names[..i] + [names[i]];
        var n := names[i];
        store.tagsets := store.tagsets[n := MembersOf(store.tagsets, n) - {scoped}];
        i := i + 1;
      }
      assert names[..|names|] == names;
      store.Delete(scoped);
      if old(Tidied()) { TidyDrop(old(store.tagsets), old(store.tags), store.tagsets, store.tags); }
    }

    method Pull(key: string) returns (value: Option<int>)
      requires Valid()
      modifies store
      ensures Valid() && (old(Tidied()) ==> Tidied())
      ensures store.tagsets == old(store.tagsets) && store.entries == old(store.entries) - {ScopedKey(names, key)}
      ensures value.Some? <==> ScopedKey(names, key) in old(store.entries)
      ensures value.Some? ==> value.value == old(store.entries)[ScopedKey(names, key)]
    {
      hide ScopedKey, Sorted, Plain, Tidy;
      value := Get(key);
      store.Delete(ScopedKey(names, key));
      if old(Tidied()) { TidyDrop(old(store.tagsets), old(store.tags), store.tagsets, store.tags); }
    }

    /** Registers, then counts from what is stored or from nothing. */
    method Increment(key: string, step: int) returns (total: int)
      requires Valid()
      modifies store
      ensures Valid() && (old(Tidied()) ==> Tidied())
      ensures var scoped := ScopedKey(names, key);
              && store.entries == old(store.entries)[scoped := total]
              && store.tags == Tagged(old(store.tags), scoped, names)
              && total == step + if scoped in old(store.entries) then old(store.entries)[scoped] else 0
    {
      hide ScopedKey, MembersOf, Sorted, Plain, Tidy;
      Register(key);
      var current := Get(key);
      total := step + if current.Some? then current.value else 0;
      store.Set(ScopedKey(names, key), total);
      Tag(key);
      if old(Tidied()) { TidyWrite(names, key, old(store.tagsets), old(store.tags), store.tagsets, store.tags); }
    }

    /** Registers before it looks; computes and stores only on a miss. Unlike `Put` it hands the lifetime on
        unchecked, so one that is not positive evicts nothing and is stored like any other. */
    method Remember(key: string, ttl: Option<int>, computed: int) returns (value: int)
      requires Valid()
      modifies store
      ensures Valid() && (old(Tidied()) ==> Tidied())
      ensures var scoped := ScopedKey(names, key);
              && store.entries == old(store.entries)[scoped := value]
              && store.tags == Tagged(old(store.tags), scoped, names)
              && value == if scoped in old(store.entries) then old(store.entries)[scoped] else computed
    {
      hide ScopedKey, MembersOf, Sorted, Plain, Tidy;
      Register(key);
      var current := Get(key);
      if current.Some? {
        value := current.value;
      } else {
        value := computed;
        store.Set(ScopedKey(names, key), computed);
      }
      Tag(key);
      if old(Tidied()) { TidyWrite(names, key, old(store.tagsets), old(store.tags), store.tagsets, store.tags); }
    }

    /** Deletes exactly the members of these tags and empties their sets. */
    method Flush()
      requires Valid()
      modifies store
      ensures Valid() && (old(Tidied()) ==> Tidied())
      ensures FlushedUpTo(old(store.entries), old(store.tagsets), old(store.tags), names,
                          store.entries, store.tagsets, store.tags)
    {
      hide Sorted, Plain, Tidy, FlushedUpTo, MembersOf;
      var i := 0;
      NothingFlushed(store.entries, store.tagsets, store.tags);
      while i < |names|
        invariant 0 <= i <= |names| && Valid()
        invariant FlushedUpTo(old(store.entries), old(store.tagsets), old(store.tags), names[..i],
                              store.entries, store.tagsets, store.tags)
      {
        ghost var (entries, tagsets, tags) := (store.entries, store.tagsets, store.tags);
        FlushTag(names[i]);
        FlushStep(old(store.entries), old(store.tagsets), old(store.tags), names[..i], entries, tagsets, tags,
                  names[i], store.entries, store.tagsets, store.tags);
        assert names[..i + 1] == names[..i] + [names[i]];
        i := i + 1;
      }
      assert names[..|names|] == names;
      if old(Tidied()) {
        FlushTidy(old(store.entries), old(store.tagsets), old(store.tags), names,
                  store.entries, store.tagsets, store.tags);
      }
    }

    method FlushTag(n: string)
      requires Valid()
      modifies store
      ensures Valid()
      ensures store.entries == old(store.entries) - MembersOf(old(store.tagsets), n)
      ensures store.tags == old(store.tags) - MembersOf(old(store.tagsets), n)
      ensures forall n' :: MembersOf(store.tagsets, n') == if n' == n then {} else MembersOf(old(store.tagsets), n')
    {
      hide Members, Drained, Sorted;
      ghost var popped: seq<string> := [];
      DrainStart(store.tagsets, n);
      NoMembers(old(store.entries), old(store.tags));
      while true
        invariant names != [] && Sorted(names)
        invariant Drained(old(store.tagsets), store.tagsets, n, popped)
        invariant store.entries == old(store.entries) - Members(popped)
        invariant store.tags == old(store.tags) - Members(popped)
        decreases MembersOf(store.tagsets, n)
      {
        ghost var before := store.tagsets;
        var batch := store.SetPop(n, 1000);
        if batch == [] {
          break;
        }
        DrainStep(old(store.tagsets), before, store.tagsets, n, popped, batch);
        DeleteAll(batch);
        MembersConcat(popped, batch);
        popped := popped + batch;
      }
      DrainEnd(old(store.tagsets), store.tagsets, n, popped);
    }

    method DeleteAll(batch: seq<string>)
      modifies store`entries, store`tags
      ensures store.entries == old(store.entries) - Members(batch) && store.tags == old(store.tags) - Members(batch)
    {
      var i := 0;
      while i < |batch|
        invariant 0 <= i <= |batch|
        invariant store.entries == old(store.entries) - Members(batch[..i])
        invariant store.tags == old(store.tags) - Members(batch[..i])
      {
        MembersSnoc(batch, i);
        store.Delete(batch[i]);
        i := i + 1;
      }
      assert batch[..|batch|] == batch;
    }

    /** Drops the members of these tags whose entry is gone, and no live one; returns how many. */
    method Prune() returns (removed: nat)
      requires Valid()
      modifies store`tagsets
      ensures Valid() && (old(Tidied()) ==> Tidied())
      ensures PrunedUpTo(store.entries, old(store.tagsets), store.tagsets, names)
      ensures removed == Dead(store.entries, old(store.tagsets), names)
    {
      hide Covered, Sorted, Plain, PrunedUpTo, MembersOf, Dead, DeadIn, Tidy;
      removed := 0;
      var i := 0;
      assert names[0..] == names;
      NothingPruned(store.entries, store.tagsets);
      while i < |names|
        invariant 0 <= i <= |names| && Valid()
        invariant PrunedUpTo(store.entries, old(store.tagsets), store.tagsets, names[..i])
        invariant removed + Dead(store.entries, old(store.tagsets), names[i..]) ==
                  Dead(store.entries, old(store.tagsets), names)
      {
        ghost var done := names[..i];
        ghost var before := store.tagsets;
        SortedDistinct(names, i);
        DeadFrom(store.entries, old(store.tagsets), names, i);
        var dead := PruneTag(names[i]);
        PruneTagStep(store.entries, old(store.tagsets), before, store.tagsets, done, names[i]);
        assert names[..i + 1] == done + [names[i]];
        removed := removed + dead;
        i := i + 1;
      }
      assert names[..|names|] == names;
      NoneDead(store.entries, old(store.tagsets), names);
      if old(Tidied()) { PrunedTidy(store.entries, old(store.tagsets), store.tagsets, store.tags, names); }
    }

    method PruneTag(n: string) returns (removed: nat)
      requires Valid()
      modifies store`tagsets
      ensures Valid() && PrunedUpTo(store.entries, old(store.tagsets), store.tagsets, [n])
      ensures removed == DeadIn(store.entries, old(store.tagsets), n)
    {
      hide Covered, Drained, MembersOf, PrunedUpTo, Sifted, Members, DeadIn, Sorted;
      removed := 0;
      var survivors: seq<string> := [];
      ghost var popped: seq<string> := [];
      DrainStart(store.tagsets, n);
      SiftedOne(store.entries, n);
      while true
        invariant Drained(old(store.tagsets), store.tagsets, n, popped)
        invariant Sifted(store.entries, popped, survivors, removed)
        decreases MembersOf(store.tagsets, n)
      {
        ghost var current := store.tagsets;
        var batch := store.SetPop(n, 1000);
        if batch == [] {
          break;
        }
        DrainStep(old(store.tagsets), current, store.tagsets, n, popped, batch);
        var alive, dead := Sift(batch);
        SiftedConcat(store.entries, popped, batch, survivors, alive, removed, dead);
        survivors, removed, popped := survivors + alive, removed + dead, popped + batch;
      }
      ghost var drained := store.tagsets;
      if survivors != [] {
        store.SetAdd(n, Members(survivors));
      }
      PruneEnd(store.entries, old(store.tagsets), drained, store.tagsets, store.tags, n, popped, survivors, removed);
    }

    /** Which of a batch are still stored, and how many are not. */
    method Sift(batch: seq<string>) returns (alive: seq<string>, dead: nat)
      ensures Sifted(store.entries, batch, alive, dead)
    {
      hide Sifted;
      alive, dead := [], 0;
      var i := 0;
      SiftedOne(store.entries, "");
      while i < |batch|
        invariant 0 <= i <= |batch|
        invariant Sifted(store.entries, batch[..i], alive, dead)
      {
        var m := batch[i];
        SiftedOne(store.entries, m);
        SiftedConcat(store.entries, batch[..i], [m], alive, if m in store.entries then [m] else [],
                     dead, if m in store.entries then 0 else 1);
        assert batch[..i + 1] == batch[..i] + [m];
        if m in store.entries {
          alive := alive + [m];
        } else {
          assert alive + [] == alive;
          dead := dead + 1;
        }
        i := i + 1;
      }
      assert batch[..|batch|] == batch;
    }
  }

  lemma NoMembers(entries: Entries, tags: Tags)
    ensures entries - Members([]) == entries && tags - Members([]) == tags && Members([]) == {}
  {
  }

  lemma MembersConcat(a: seq<string>, b: seq<string>)
    ensures Members(a + b) == Members(a) + Members(b)
  {
  }

  lemma NothingPruned(entries: Entries, tagsets: Tagsets)
    ensures PrunedUpTo(entries, tagsets, tagsets, [])
  {
  }

  lemma NoneDead(entries: Entries, tagsets: Tagsets, names: Names)
    ensures Dead(entries, tagsets, names[|names|..]) == 0
  {
  }

  lemma PruneEnd(entries: Entries, before: Tagsets, drained: Tagsets, after: Tagsets, tags: Tags, n: string,
                 popped: seq<string>, survivors: seq<string>, removed: nat)
    requires Covered(entries, before, tags)
    requires Drained(before, drained, n, popped) && MembersOf(drained, n) == {}
    requires Sifted(entries, popped, survivors, removed)
    requires after == if survivors != [] then drained[n := MembersOf(drained, n) + Members(survivors)] else drained
    ensures PrunedUpTo(entries, before, after, [n])
    ensures removed == DeadIn(entries, before, n)
    ensures Covered(entries, after, tags)
  {
    DrainEnd(before, drained, n, popped);
    SurvivorsAre(entries, popped, survivors, removed);
    PrunedTo(entries, before, drained, after, n, survivors);
    PrunedValid(entries, before, after, tags, n);
    hide Covered, PrunedUpTo, Members, MembersOf;
    GoneCount(entries, popped);
  }

  lemma PrunedTo(entries: Entries, before: Tagsets, drained: Tagsets, after: Tagsets, n: string, survivors: seq<string>)
    requires forall n' :: MembersOf(drained, n') == if n' == n then {} else MembersOf(before, n')
    requires Members(survivors) == MembersOf(before, n) * entries.Keys
    requires after == if survivors != [] then drained[n := MembersOf(drained, n) + Members(survivors)] else drained
    ensures PrunedUpTo(entries, before, after, [n])
  {
    if survivors == [] { NoMembers(entries, map[]); }
    hide Members;
    forall n' ensures MembersOf(after, n') ==
      if n' in [n] then MembersOf(before, n') * entries.Keys else MembersOf(before, n')
    {
      assert n' in [n] <==> n' == n;
    }
  }

  lemma PrunedValid(entries: Entries, before: Tagsets, after: Tagsets, tags: Tags, n: string)
    requires Covered(entries, before, tags) && PrunedUpTo(entries, before, after, [n])
    ensures Covered(entries, after, tags)
  {
  }

  lemma PrunedTidy(entries: Entries, before: Tagsets, after: Tagsets, tags: Tags, names: Names)
    requires Tidy(before, tags) && PrunedUpTo(entries, before, after, names)
    ensures Tidy(after, tags)
  {
    TidyDrop(before, tags, after, tags);
  }

  lemma SurvivorsAre(entries: Entries, popped: seq<string>, survivors: seq<string>, removed: nat)
    requires Sifted(entries, popped, survivors, removed)
    ensures Members(survivors) == Members(popped) * entries.Keys
  {
    forall m ensures m in survivors <==> m in popped && m in entries {
      FilterIn(Stored(entries), popped, m);
    }
  }

  lemma {:induction false} SortedDistinct(names: Names, i: nat)
    requires Sorted(names) && i < |names|
    ensures names[i] !in names[..i]
  {
    if i > 0 {
      SortedDistinct(names[1..], i - 1);
      LessTrichotomy(names[0], names[0]);
      assert names[..i] == [names[0]] + names[1..][..i - 1];
      assert names[i] == names[1..][i - 1];
    }
  }

  // --- what a flush means --------------------------------------------------------------------------

  /** The tags that are done have no members left, and none of their members is left; everything else is
      as it was. */
  ghost predicate FlushedUpTo(entries: Entries, tagsets: Tagsets, tags: Tags, done: Names,
                              entries': Entries, tagsets': Tagsets, tags': Tags) {
    && (forall m :: m in entries' <==> m in entries && forall n :: n in done ==> m !in MembersOf(tagsets, n))
    && (forall m :: m in entries' ==> entries'[m] == entries[m])
    && (forall m :: m in tags' ==> m in tags && tags'[m] == tags[m])
    && (forall n :: MembersOf(tagsets', n) == if n in done then {} else MembersOf(tagsets, n))
  }

  lemma NothingFlushed(entries: Entries, tagsets: Tagsets, tags: Tags)
    ensures FlushedUpTo(entries, tagsets, tags, [], entries, tagsets, tags)
  {
  }

  lemma FlushStep(entries: Entries, tagsets: Tagsets, tags: Tags, done: Names,
                  entries': Entries, tagsets': Tagsets, tags': Tags, n: string,
                  entries'': Entries, tagsets'': Tagsets, tags'': Tags)
    requires FlushedUpTo(entries, tagsets, tags, done, entries', tagsets', tags')
    requires entries'' == entries' - MembersOf(tagsets', n) && tags'' == tags' - MembersOf(tagsets', n)
    requires forall n' :: MembersOf(tagsets'', n') == if n' == n then {} else MembersOf(tagsets', n')
    ensures FlushedUpTo(entries, tagsets, tags, done + [n], entries'', tagsets'', tags'')
  {
    hide MembersOf;
    forall n' ensures n' in done + [n] <==> n' in done || n' == n {}
  }

  lemma FlushTidy(entries: Entries, tagsets: Tagsets, tags: Tags, done: Names,
                  entries': Entries, tagsets': Tagsets, tags': Tags)
    requires FlushedUpTo(entries, tagsets, tags, done, entries', tagsets', tags') && Tidy(tagsets, tags)
    ensures Tidy(tagsets', tags')
  {
    TidyDrop(tagsets, tags, tagsets', tags');
  }

  /** Whatever the tag names: no entry written under a flushed tag is left, under any combination. With
      plain names, exactly the entries whose keys carry a flushed tag are gone. */
  lemma FlushLeavesNone(before: Entries, tagsets: Tagsets, tags: Tags, flushed: Names,
                        after: Entries, tagsets': Tagsets, tags': Tags)
    requires Covered(before, tagsets, tags) && FlushedUpTo(before, tagsets, tags, flushed, after, tagsets', tags')
    ensures forall m :: m in after ==> m in tags && forall n :: n in flushed ==> n !in tags[m]
    ensures Tidy(tagsets, tags) ==> forall m :: m in after <==> m in before && !CarriesAny(m, flushed)
  {
    hide Carries, MembersOf;
    if Tidy(tagsets, tags) {
      forall m ensures m in after <==> m in before && !CarriesAny(m, flushed) {
        forall n | m in before ensures Carries(m, n) <==> m in MembersOf(tagsets, n) {
          assert m in tags;
          assert Carries(m, n) ==> n in tags[m];
        }
      }
    }
  }

  /** After a flush with plain names exactly the combinations that share no tag with it still read what
      they stored. */
  lemma FlushForgets(before: Entries, after: Entries, flushed: Names, names: Names, key: string)
    requires Plain(names)
    requires forall m :: m in after <==> m in before && !CarriesAny(m, flushed)
    ensures ScopedKey(names, key) in after <==>
            ScopedKey(names, key) in before && forall n :: n in flushed ==> n !in names
  {
    var m := ScopedKey(names, key);
    forall n ensures Carries(m, n) <==> n in names {
      CarriesIff(names, key, n);
    }
  }
}
