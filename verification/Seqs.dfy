/** Sequence vocabulary shared by the table models: selection, flattening and counting. */
module Seqs {

  datatype Option<+T> = None | Some(value: T)

  /** The elements of `s` that satisfy `p`, in their original order: SQL's WHERE on a table. */
  function Filter<T>(p: T -> bool, s: seq<T>): (r: seq<T>)
    ensures |r| <= |s|
  {
    if s == [] then []
    else if p(s[0]) then [s[0]] + Filter(p, s[1..])
    else Filter(p, s[1..])
  }

  function Flat<T>(ss: seq<seq<T>>): seq<T> {
    if ss == [] then [] else ss[0] + Flat(ss[1..])
  }

  ghost predicate Distinct<T>(s: seq<T>) {
    forall i, j :: 0 <= i < j < |s| ==> s[i] != s[j]
  }

  lemma ConcatAssoc<T>(a: seq<T>, b: seq<T>, c: seq<T>)
    ensures a + (b + c) == a + b + c
  {
  }

  lemma {:induction false} FilterConcat<T>(p: T -> bool, a: seq<T>, b: seq<T>)
    ensures Filter(p, a + b) == Filter(p, a) + Filter(p, b)
  {
    if a == [] {
      assert a + b == b;
    } else {
      assert (a + b)[1..] == a[1..] + b;
      FilterConcat(p, a[1..], b);
    }
  }

  lemma FilterSingle<T>(p: T -> bool, x: T)
    ensures Filter(p, [x]) == if p(x) then [x] else []
  {
    assert [x][1..] == [];
  }

  lemma {:induction false} FilterIn<T>(p: T -> bool, s: seq<T>, x: T)
    ensures x in Filter(p, s) <==> x in s && p(x)
  {
    if s != [] {
      FilterIn(p, s[1..], x);
      assert s == [s[0]] + s[1..];
    }
  }

  lemma {:induction false} FilterExt<T>(p: T -> bool, q: T -> bool, s: seq<T>)
    requires forall x :: x in s ==> p(x) == q(x)
    ensures Filter(p, s) == Filter(q, s)
  {
    if s != [] {
      FilterExt(p, q, s[1..]);
    }
  }

  lemma {:induction false} FilterAll<T>(p: T -> bool, s: seq<T>)
    requires forall x :: x in s ==> p(x)
    ensures Filter(p, s) == s
  {
    if s != [] {
      FilterAll(p, s[1..]);
    }
  }

  lemma {:induction false} FilterNone<T>(p: T -> bool, s: seq<T>)
    requires forall x :: x in s ==> !p(x)
    ensures Filter(p, s) == []
  {
    if s != [] {
      FilterNone(p, s[1..]);
    }
  }

  /** Two successive filters are one filter by the conjunction. */
  lemma {:induction false} FilterTwice<T>(p: T -> bool, q: T -> bool, both: T -> bool, s: seq<T>)
    requires forall x :: x in s ==> (both(x) <==> p(x) && q(x))
    ensures Filter(q, Filter(p, s)) == Filter(both, s)
  {
    if s != [] {
      FilterTwice(p, q, both, s[1..]);
    }
  }

  lemma {:induction false} FilterCount<T>(p: T -> bool, s: seq<T>, x: T)
    ensures multiset(Filter(p, s))[x] == if p(x) then multiset(s)[x] else 0
  {
    if s != [] {
      FilterCount(p, s[1..], x);
      assert s == [s[0]] + s[1..];
    }
  }

  lemma {:induction false} FilterDistinct<T>(p: T -> bool, s: seq<T>)
    requires Distinct(s)
    ensures Distinct(Filter(p, s))
  {
    if s != [] {
      assert forall i, j :: 0 <= i < j < |s[1..]| ==> s[1..][i] == s[i + 1] && s[1..][j] == s[j + 1];
      FilterDistinct(p, s[1..]);
      FilterIn(p, s[1..], s[0]);
      assert s[0] !in s[1..];
    }
  }

  lemma DistinctConcat<T>(a: seq<T>, b: seq<T>)
    requires Distinct(a) && Distinct(b) && forall x :: x in a ==> x !in b
    ensures Distinct(a + b)
  {
    forall i, j | 0 <= i < j < |a + b| ensures (a + b)[i] != (a + b)[j] {
      if i < |a| <= j { assert a[i] in a && b[j - |a|] in b; }
    }
  }

  lemma {:induction false} FlatIn<T>(ss: seq<seq<T>>, x: T)
    ensures x in Flat(ss) <==> exists i :: 0 <= i < |ss| && x in ss[i]
  {
    if ss != [] {
      FlatIn(ss[1..], x);
      if x in Flat(ss) && x !in ss[0] {
        var i :| 0 <= i < |ss[1..]| && x in ss[1..][i];
        assert x in ss[i + 1];
      }
      if i :| 0 <= i < |ss| && x in ss[i] && x !in ss[0] {
        assert x in ss[1..][i - 1];
      }
    }
  }

  /** A sequence has no repeated element exactly when every count is at most one. */
  lemma {:induction false} DistinctCounts<T>(s: seq<T>)
    ensures Distinct(s) <==> forall x :: x in s ==> multiset(s)[x] == 1
  {
    if s != [] {
      DistinctCounts(s[1..]);
      assert s == [s[0]] + s[1..];
      assert forall i :: 0 <= i < |s[1..]| ==> s[1..][i] == s[i + 1];
      if Distinct(s) {
        assert s[0] !in s[1..];
        assert Distinct(s[1..]);
      }
      if forall x :: x in s ==> multiset(s)[x] == 1 {
        forall x | x in s[1..] ensures multiset(s[1..])[x] == 1 && x != s[0] {
          assert multiset(s)[x] == 1;
          assert x in multiset(s[1..]);
        }
        forall i, j | 0 <= i < j < |s| ensures s[i] != s[j] {
          assert s[j] == s[1..][j - 1] && s[j] in s[1..];
          if i > 0 { assert s[i] == s[1..][i - 1]; }
        }
      }
    }
  }

  lemma SameElementsOnce<T>(a: seq<T>, b: seq<T>)
    requires Distinct(a) && Distinct(b)
    requires forall x :: x in a <==> x in b
    ensures multiset(a) == multiset(b)
  {
    DistinctCounts(a);
    DistinctCounts(b);
    forall x ensures multiset(a)[x] == multiset(b)[x] {
      assert x in multiset(a) <==> x in a;
      assert x in multiset(b) <==> x in b;
    }
  }

  lemma FilterMultiset<T(!new)>(p: T -> bool, a: seq<T>, b: seq<T>)
    requires multiset(a) == multiset(b)
    ensures multiset(Filter(p, a)) == multiset(Filter(p, b))
  {
    forall x ensures multiset(Filter(p, a))[x] == multiset(Filter(p, b))[x] {
      FilterCount(p, a, x);
      FilterCount(p, b, x);
    }
    assert multiset(Filter(p, a)) == multiset(Filter(p, b));
  }

  function Count<T>(s: seq<T>, p: T -> bool): nat {
    if s == [] then 0 else (if p(s[0]) then 1 else 0) + Count(s[1..], p)
  }

  lemma {:induction false} CountConcat<T>(a: seq<T>, b: seq<T>, p: T -> bool)
    ensures Count(a + b, p) == Count(a, p) + Count(b, p)
  {
    if a == [] {
      assert a + b == b;
    } else {
      assert (a + b)[1..] == a[1..] + b;
      CountConcat(a[1..], b, p);
    }
  }

  lemma CountAppend<T>(a: seq<T>, x: T, p: T -> bool)
    ensures Count(a + [x], p) == Count(a, p) + if p(x) then 1 else 0
  {
    CountConcat(a, [x], p);
    assert [x][1..] == [];
  }

  /** Replacing one element changes a count by that element only. */
  lemma {:induction false} CountReplace<T>(s: seq<T>, i: nat, x: T, p: T -> bool)
    requires i < |s|
    ensures Count(s[i := x], p) + (if p(s[i]) then 1 else 0) == Count(s, p) + if p(x) then 1 else 0
  {
    if i == 0 {
      assert s[0 := x][1..] == s[1..];
    } else {
      assert s[i := x][1..] == s[1..][i - 1 := x];
      CountReplace(s[1..], i - 1, x, p);
    }
  }

  lemma {:induction false} CountExt<T>(s: seq<T>, p: T -> bool, q: T -> bool)
    requires forall x :: x in s ==> p(x) == q(x)
    ensures Count(s, p) == Count(s, q)
  {
    if s != [] {
      CountExt(s[1..], p, q);
    }
  }

  lemma {:induction false} CountZero<T>(s: seq<T>, p: T -> bool)
    ensures Count(s, p) == 0 <==> forall x :: x in s ==> !p(x)
  {
    if s != [] {
      CountZero(s[1..], p);
      assert s == [s[0]] + s[1..];
    }
  }

  lemma {:induction false} CountFilter<T>(s: seq<T>, p: T -> bool)
    ensures Count(s, p) == |Filter(p, s)|
  {
    if s != [] {
      CountFilter(s[1..], p);
    }
  }

  lemma {:induction false} CountOfFilter<T>(s: seq<T>, p: T -> bool, q: T -> bool)
    ensures Count(Filter(p, s), q) <= Count(s, q)
  {
    if s != [] {
      CountOfFilter(s[1..], p, q);
      if p(s[0]) { assert Filter(p, s)[1..] == Filter(p, s[1..]); }
    }
  }

  lemma {:induction false} TwoCounted<T>(s: seq<T>, i: nat, j: nat, p: T -> bool)
    requires i < |s| && j < |s| && p(s[i]) && p(s[j])
    ensures Count(s, p) >= 1 && (i != j ==> Count(s, p) >= 2)
  {
    if i > 0 && j > 0 {
      TwoCounted(s[1..], i - 1, j - 1, p);
    } else if i > 0 || j > 0 {
      var k := if i > 0 then i - 1 else j - 1;
      TwoCounted(s[1..], k, k, p);
    }
  }

  lemma OnlyOne<T>(s: seq<T>, p: T -> bool, a: T, b: T)
    requires Count(s, p) <= 1 && a in s && b in s && p(a) && p(b)
    ensures a == b
  {
    var i :| 0 <= i < |s| && s[i] == a;
    var j :| 0 <= j < |s| && s[j] == b;
    TwoCounted(s, i, j, p);
  }

  /** SQL's UPDATE: `change` on the rows that `hit` selects. */
  function Update<T>(s: seq<T>, hit: T -> bool, change: T -> T): (r: seq<T>)
    ensures |r| == |s|
    ensures forall i :: 0 <= i < |s| ==> r[i] == if hit(s[i]) then change(s[i]) else s[i]
  {
    if s == [] then []
    else [if hit(s[0]) then change(s[0]) else s[0]] + Update(s[1..], hit, change)
  }

  function Map<A, B>(f: A -> B, s: seq<A>): (r: seq<B>)
    ensures |r| == |s| && forall i :: 0 <= i < |s| ==> r[i] == f(s[i])
  {
    seq(|s|, i requires 0 <= i < |s| => f(s[i]))
  }

  // --- counting the pairs of a join ----------------------------------------------------------

  function On<A, B>(rel: (A, B) -> bool, a: A): B -> bool {
    (b: B) => rel(a, b)
  }

  function To<A, B>(rel: (A, B) -> bool, b: B): A -> bool {
    (a: A) => rel(a, b)
  }

  /** COUNT(*) over a join. */
  function Pairs<A, B>(rel: (A, B) -> bool, a: seq<A>, b: seq<B>): nat {
    if a == [] then 0 else Count(b, On(rel, a[0])) + Pairs(rel, a[1..], b)
  }

  lemma {:induction false} PairsRight<A, B>(rel: (A, B) -> bool, a: seq<A>, b: seq<B>)
    requires b != []
    ensures Pairs(rel, a, b) == Count(a, To(rel, b[0])) + Pairs(rel, a, b[1..])
  {
    if a != [] {
      PairsRight(rel, a[1..], b);
    }
  }

  lemma {:induction false} PairsNone<A, B>(rel: (A, B) -> bool, a: seq<A>)
    ensures Pairs(rel, a, []) == 0
  {
    if a != [] {
      PairsNone(rel, a[1..]);
    }
  }

  /** A join counts a right row once per partner: it agrees with counting the rows that have a partner
      exactly when none has two. */
  lemma {:induction false} PairsAndPartners<A, B>(rel: (A, B) -> bool, a: seq<A>, b: seq<B>, has: B -> bool)
    requires forall y :: y in b ==> (has(y) <==> exists x :: x in a && rel(x, y))
    ensures Pairs(rel, a, b) >= Count(b, has)
    ensures Pairs(rel, a, b) == Count(b, has) <==> forall y :: y in b ==> Count(a, To(rel, y)) <= 1
  {
    if b == [] {
      PairsNone(rel, a);
    } else {
      PairsRight(rel, a, b);
      assert b == [b[0]] + b[1..];
      PairsAndPartners(rel, a, b[1..], has);
      CountZero(a, To(rel, b[0]));
    }
  }

}
