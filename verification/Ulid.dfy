/** ULIDs: a 48-bit time and 80 random bits as 26 base-32 characters. */
module Ulid {
  import opened Strings

  const Alphabet: string := "0123456789ABCDEFGHJKMNPQRSTVWXYZ"

  /** The digits, and the capital letters but I, L, O and U: 32 characters in ascending order. */
  lemma AlphabetIs()
    ensures |Alphabet| == 32
    ensures forall j :: 0 <= j < 10 ==> Alphabet[j] as int == '0' as int + j
    ensures forall j :: 10 <= j < 18 ==> Alphabet[j] as int == 'A' as int + j - 10
    ensures forall j :: 18 <= j < 20 ==> Alphabet[j] as int == 'J' as int + j - 18
    ensures forall j :: 20 <= j < 22 ==> Alphabet[j] as int == 'M' as int + j - 20
    ensures forall j :: 22 <= j < 27 ==> Alphabet[j] as int == 'P' as int + j - 22
    ensures forall j :: 27 <= j < 32 ==> Alphabet[j] as int == 'V' as int + j - 27
  {
  }

  const TwoTo50: nat := 0x4_0000_0000_0000
  const TwoTo80: nat := 0x1_0000_0000_0000_0000_0000
  const TwoTo130: nat := 0x4_0000_0000_0000_0000_0000_0000_0000_0000

  function Pow(n: nat): (p: nat)
    ensures p >= 1
  {
    if n == 0 then 1 else 32 * Pow(n - 1)
  }

  /** The low `n` five-bit groups of a value, most significant first: group `k` is
      `(value >> 5 * k) & 0x1F`. */
  function Digits(value: nat, n: nat): string {
    seq(n, i requires 0 <= i < n => Alphabet[value / Pow(n - 1 - i) % 32])
  }

  function Encode(value: nat): string {
    Digits(value, 26)
  }

  /** `(milliseconds << 80) | random`. */
  function Generate(milliseconds: nat, random: nat): string
    requires random < TwoTo80
  {
    Encode(Lead(milliseconds, random, TwoTo80))
  }

  function IndexFrom(alphabet: string, c: char, i: nat): (k: nat)
    requires i <= |alphabet|
    ensures i <= k <= |alphabet|
    ensures k < |alphabet| ==> alphabet[k] == c
    ensures forall j :: i <= j < k ==> alphabet[j] != c
    decreases |alphabet| - i
  {
    if i == |alphabet| || alphabet[i] == c then i else IndexFrom(alphabet, c, i + 1)
  }

  /** A character's value; 32 for a character that is not in the alphabet. */
  function Index(c: char): nat {
    IndexFrom(Alphabet, c, 0)
  }

  /** A digit in front of the rest. */
  function Lead(digit: nat, rest: nat, p: nat): nat {
    digit * p + rest
  }

  function Decode(s: string): nat {
    if s == [] then 0 else Lead(Index(s[0]), Decode(s[1..]), Pow(|s[1..]|))
  }

  ghost predicate Valid(s: string) {
    forall i :: 0 <= i < |s| ==> Index(s[i]) < 32
  }

  /** The alphabet is in character order. */
  lemma AlphabetAscends(i: nat, j: nat)
    requires i < j < 32
    ensures Alphabet[i] < Alphabet[j]
    decreases j - i
  {
    if i + 1 < j {
      AlphabetAscends(i, j - 1);
      AlphabetNext(j - 1);
    } else {
      AlphabetNext(i);
    }
  }

  lemma AlphabetNext(i: nat)
    requires i < 31
    ensures Alphabet[i] < Alphabet[i + 1]
  {
    if i < 8 {
      assert i == 0 || i == 1 || i == 2 || i == 3 || i == 4 || i == 5 || i == 6 || i == 7;
    } else if i < 16 {
      assert i == 8 || i == 9 || i == 10 || i == 11 || i == 12 || i == 13 || i == 14 || i == 15;
    } else if i < 24 {
      assert i == 16 || i == 17 || i == 18 || i == 19 || i == 20 || i == 21 || i == 22 || i == 23;
    } else {
      assert i == 24 || i == 25 || i == 26 || i == 27 || i == 28 || i == 29 || i == 30;
    }
  }

  lemma IndexOfDigit(d: nat)
    requires d < 32
    ensures Index(Alphabet[d]) == d
  {
    var k := Index(Alphabet[d]);
    if k < d { AlphabetAscends(k, d); }
  }

  lemma IndexOrder(a: char, b: char)
    requires Index(a) < 32 && Index(b) < 32
    ensures a < b <==> Index(a) < Index(b)
    ensures a == b <==> Index(a) == Index(b)
  {
    if Index(a) < Index(b) { AlphabetAscends(Index(a), Index(b)); }
    if Index(b) < Index(a) { AlphabetAscends(Index(b), Index(a)); }
  }

  // --- round trip -------------------------------------------------------------------------------

  lemma {:induction false} MulMono(a: nat, b: nat, p: nat)
    requires a < b
    ensures a * p + p <= b * p
    decreases b
  {
    if a + 1 < b {
      MulMono(a, b - 1, p);
      assert (b - 1) * p == b * p - p;
    } else {
      assert b * p == a * p + p;
    }
  }

  lemma DivMod(v: nat, d: nat, q: nat, r: nat)
    requires d > 0 && v == q * d + r && r < d
    ensures v / d == q && v % d == r
  {
    var (q', r') := (v / d, v % d);
    assert v == q' * d + r' && r' < d;
    if q' > q { MulMono(q, q', d); }
    if q' < q { MulMono(q', q, d); }
  }

  lemma TopDigit(v: nat, p: nat)
    requires p > 0
    ensures Lead(v / p % 32, v % p, p) == v % (32 * p)
  {
    var (q, r) := (v / p, v % p);
    var (high, low) := (q / 32, q % 32);
    assert v == q * p + r && r < p;
    SplitDigit(q, high, low, p);
    MulMono(low, 32, p);
    DivMod(v, 32 * p, high, low * p + r);
  }

  lemma SplitDigit(q: nat, high: nat, low: nat, p: nat)
    requires q == 32 * high + low
    ensures q * p == high * (32 * p) + low * p
  {
  }

  /** Two numbers in base `p` compare by the leading digit, then by the rest. */
  lemma LeadingDigit(a: nat, x: nat, b: nat, y: nat, p: nat)
    requires x < p && y < p
    ensures Lead(a, x, p) < Lead(b, y, p) <==> a < b || (a == b && x < y)
    ensures Lead(a, x, p) == Lead(b, y, p) <==> a == b && x == y
  {
    if a < b { MulMono(a, b, p); }
    if b < a { MulMono(b, a, p); }
  }

  lemma LeadBound(a: nat, x: nat, b: nat, p: nat)
    requires a < b && x < p
    ensures Lead(a, x, p) < b * p
  {
    MulMono(a, b, p);
  }

  /** Decoding gives back the low five bits times the length. */
  lemma {:induction false} RoundTrip(value: nat, n: nat)
    ensures Decode(Digits(value, n)) == value % Pow(n) && Valid(Digits(value, n))
  {
    hide Digits, Lead, Index, Decode, Valid;
    if n == 0 {
      NoDigits(value);
    } else {
      var s := Digits(value, n);
      var digit := value / Pow(n - 1) % 32;
      DigitsCons(value, n);
      RoundTrip(value, n - 1);
      IndexOfDigit(digit);
      DecodeCons(s);
      TopDigit(value, Pow(n - 1));
      ValidCons(s);
    }
  }

  lemma NoDigits(value: nat)
    ensures Decode(Digits(value, 0)) == 0 && Valid(Digits(value, 0)) && Pow(0) == 1
  {
  }

  lemma DigitsCons(value: nat, n: nat)
    requires n > 0
    ensures var s := Digits(value, n);
            |s| == n && s[1..] == Digits(value, n - 1) && s[0] == Alphabet[value / Pow(n - 1) % 32]
    ensures Pow(n) == 32 * Pow(n - 1)
  {
  }

  lemma ValidCons(s: string)
    requires s != [] && Valid(s[1..]) && Index(s[0]) < 32
    ensures Valid(s)
  {
    assert forall i :: 1 <= i < |s| ==> s[i] == s[1..][i - 1];
  }

  // --- order ---------------------------------------------------------------------------------------

  lemma {:induction false} DecodeBound(s: string)
    requires Valid(s)
    ensures Decode(s) < Pow(|s|)
  {
    if s != [] {
      ValidTail(s);
      hide Valid, Index, Lead;
      DecodeBound(s[1..]);
      LeadBound(Index(s[0]), Decode(s[1..]), 32, Pow(|s[1..]|));
    }
  }

  lemma {:induction false} DecodeOrder(s: string, t: string)
    requires Valid(s) && Valid(t) && |s| == |t|
    ensures Less(s, t) <==> Decode(s) < Decode(t)
  {
    hide Decode, Less, Pow, Index, Valid, Lead;
    if s == [] {
      NothingOrder();
    } else {
      ValidTail(s);
      ValidTail(t);
      DecodeOrder(s[1..], t[1..]);
      DecodeBound(s[1..]);
      DecodeBound(t[1..]);
      LeadingDigit(Index(s[0]), Decode(s[1..]), Index(t[0]), Decode(t[1..]), Pow(|s[1..]|));
      IndexOrder(s[0], t[0]);
      DecodeCons(s);
      DecodeCons(t);
      LessCons(s, t);
    }
  }

  lemma NothingOrder()
    ensures !Less([], []) && Decode([]) == 0
  {
  }

  lemma DecodeCons(s: string)
    requires s != []
    ensures Decode(s) == Lead(Index(s[0]), Decode(s[1..]), Pow(|s[1..]|))
  {
    hide Lead, Pow, Index;
  }

  lemma LessCons(s: string, t: string)
    requires s != [] && t != []
    ensures Less(s, t) <==> s[0] < t[0] || (s[0] == t[0] && Less(s[1..], t[1..]))
  {
  }

  lemma ValidTail(s: string)
    requires Valid(s) && s != []
    ensures Valid(s[1..]) && Index(s[0]) < 32
  {
    assert forall i :: 0 <= i < |s[1..]| ==> s[1..][i] == s[i + 1];
  }

  /** The powers of 32 that the layout speaks of as powers of two. */
  lemma Bounds()
    ensures Pow(10) == TwoTo50 && Pow(16) == TwoTo80 && Pow(26) == TwoTo130
  {
    assert Pow(4) == 0x10_0000;
    PowAdd(4, 4);
    assert Pow(8) == 0x100_0000_0000;
    PowAdd(8, 8);
    assert Pow(10) == 32 * (32 * Pow(8));
    PowAdd(10, 16);
  }

  /** Below 2^130 an id is 26 characters that decode to its value, ids differ when their values do, and
      they compare as strings exactly as their values compare as numbers. */
  lemma EncodeFaithful(a: nat, b: nat)
    requires a < TwoTo130 && b < TwoTo130
    ensures |Encode(a)| == 26 && Decode(Encode(a)) == a
    ensures Encode(a) == Encode(b) <==> a == b
    ensures Less(Encode(a), Encode(b)) <==> a < b
  {
    Bounds();
    hide Pow, Decode, Valid;
    RoundTrip(a, 26);
    RoundTrip(b, 26);
    DivMod(a, Pow(26), 0, a);
    DivMod(b, Pow(26), 0, b);
    DecodeOrder(Encode(a), Encode(b));
  }

  /** Beyond 2^130 the high bits are lost: two values share an id exactly when they agree modulo 2^130. */
  lemma EncodeCollides(a: nat, b: nat)
    ensures Encode(a) == Encode(b) <==> a % TwoTo130 == b % TwoTo130
  {
    Bounds();
    hide Pow, Decode, Valid;
    RoundTrip(a, 26);
    RoundTrip(b, 26);
    var (s, t) := (Encode(a), Encode(b));
    DecodeOrder(s, t);
    DecodeOrder(t, s);
    LessTrichotomy(s, t);
  }

  /** Ids of different milliseconds sort by time, whatever the random bits; of the same millisecond, by
      the random bits. The time has room for 50 bits. */
  lemma SortsByTime(t: nat, r: nat, t': nat, r': nat)
    requires r < TwoTo80 && r' < TwoTo80 && t < TwoTo50 && t' < TwoTo50
    ensures Less(Generate(t, r), Generate(t', r')) <==> t < t' || (t == t' && r < r')
    ensures Generate(t, r) == Generate(t', r') <==> t == t' && r == r'
  {
    hide Encode, Less, Lead;
    LeadBound(t, r, TwoTo50, TwoTo80);
    LeadBound(t', r', TwoTo50, TwoTo80);
    LeadingDigit(t, r, t', r', TwoTo80);
    EncodeFaithful(Lead(t, r, TwoTo80), Lead(t', r', TwoTo80));
  }

  lemma {:induction false} PowAdd(a: nat, b: nat)
    ensures Pow(a + b) == Pow(a) * Pow(b)
  {
    if a > 0 {
      PowStep(a - 1);
      PowStep(a - 1 + b);
      hide Pow;
      PowAdd(a - 1, b);
      MulAssoc(Pow(a - 1), Pow(b));
    } else {
      PowZero();
    }
  }

  lemma PowZero()
    ensures Pow(0) == 1
  {
  }

  lemma PowStep(n: nat)
    ensures Pow(n + 1) == 32 * Pow(n)
  {
  }

  lemma MulAssoc(x: nat, y: nat)
    ensures (32 * x) * y == 32 * (x * y)
  {
  }
}
