/** Strings compared character by character, and split at a separator. */
module Strings {

  predicate Less(a: string, b: string) {
    b != [] && (a == [] || a[0] < b[0] || (a[0] == b[0] && Less(a[1..], b[1..])))
  }

  lemma {:induction false} LessTrichotomy(a: string, b: string)
    ensures Less(a, b) || a == b || Less(b, a)
    ensures !(Less(a, b) && Less(b, a)) && !Less(a, a)
  {
    if a != [] {
      LessTrichotomy(a[1..], a[1..]);
    }
    if a != [] && b != [] && a[0] == b[0] {
      LessTrichotomy(a[1..], b[1..]);
      assert a == [a[0]] + a[1..] && b == [b[0]] + b[1..];
    }
  }

  lemma {:induction false} LessTransitive(a: string, b: string, c: string)
    requires Less(a, b) && Less(b, c)
    ensures Less(a, c)
  {
    if a != [] && a[0] == b[0] && b[0] == c[0] {
      LessTransitive(a[1..], b[1..], c[1..]);
    }
  }

  /** A string is split in one way only at the first occurrence of a separator. */
  lemma {:induction false} SplitOnce(separator: char, a: string, x: string, b: string, y: string)
    requires separator !in a && separator !in b
    requires a + [separator] + x == b + [separator] + y
    ensures a == b && x == y
  {
    var (s, t) := (a + [separator] + x, b + [separator] + y);
    assert s[0] == if a == [] then separator else a[0];
    assert t[0] == if b == [] then separator else b[0];
    if a != [] && b != [] {
      assert s[1..] == a[1..] + [separator] + x && t[1..] == b[1..] + [separator] + y;
      SplitOnce(separator, a[1..], x, b[1..], y);
      assert a == [a[0]] + a[1..] && b == [b[0]] + b[1..];
    } else {
      assert a == b;
      assert s[1..] == x && t[1..] == y;
    }
  }
}
