/** Python strings: their order, `sorted`, and decimal digits. */
module Text {
  import opened Outcomes

  // ---------- Order ----------

  /** Python's `<` on strings: by code point, a proper prefix first. */
  predicate Less(a: string, b: string) {
    if b == "" then false
    else if a == "" then true
    else a[0] < b[0] || (a[0] == b[0] && Less(a[1..], b[1..]))
  }

  predicate AtMost(a: string, b: string) {
    a == b || Less(a, b)
  }

  lemma {:induction false} LessTrichotomy(a: string, b: string)
    ensures a == b ==> !Less(a, b)
    ensures a != b ==> Less(a, b) != Less(b, a)
  {
    if a == "" || b == "" {
    } else {
      LessTrichotomy(a[1..], b[1..]);
      assert a == [a[0]] + a[1..] && b == [b[0]] + b[1..];
    }
  }

  lemma {:induction false} LessTransitive(a: string, b: string, c: string)
    requires Less(a, b) && Less(b, c)
    ensures Less(a, c)
  {
    if a != "" && a[0] == b[0] == c[0] {
      LessTransitive(a[1..], b[1..], c[1..]);
    }
  }

  lemma LessAfterChar(c: char, d: char, x: string, y: string)
    ensures Less([c] + x, [d] + y) <==> c < d || (c == d && Less(x, y))
  {
    assert ([c] + x)[1..] == x && ([d] + y)[1..] == y;
  }

  lemma {:induction false} LessAfterPrefix(p: string, x: string, y: string)
    ensures Less(p + x, p + y) <==> Less(x, y)
  {
    if p == "" {
      assert p + x == x && p + y == y;
    } else {
      assert p + x == [p[0]] + (p[1..] + x) && p + y == [p[0]] + (p[1..] + y);
      LessAfterPrefix(p[1..], x, y);
    }
  }

  // ---------- Sorting ----------

  predicate Sorted(s: seq<string>) {
    forall i, j :: 0 <= i < j < |s| ==> AtMost(s[i], s[j])
  }

  function Insert(x: string, s: seq<string>): seq<string> {
    if s == [] then [x]
    else if AtMost(x, s[0]) then [x] + s
    else [s[0]] + Insert(x, s[1..])
  }

  /** Python's `sorted` on strings. */
  function Sort(s: seq<string>): seq<string> {
    if s == [] then [] else Insert(s[0], Sort(s[1..]))
  }

  lemma {:induction false} InsertSorts(x: string, s: seq<string>)
    requires Sorted(s)
    ensures Sorted(Insert(x, s)) && multiset(Insert(x, s)) == multiset(s) + multiset{x}
  {
    if s == [] {
    } else if AtMost(x, s[0]) {
      InsertFront(x, s);
    } else {
      assert s == [s[0]] + s[1..];
      LessTrichotomy(x, s[0]);
      InsertSorts(x, s[1..]);
      InsertLater(x, s, Insert(x, s[1..]));
    }
  }

  lemma InsertFront(x: string, s: seq<string>)
    requires s != [] && Sorted(s) && AtMost(x, s[0])
    ensures Sorted([x] + s)
  {
    forall j | 0 <= j < |s| ensures AtMost(x, s[j]) {
      if x != s[0] && s[0] != s[j] { LessTransitive(x, s[0], s[j]); }
    }
  }

  lemma InsertLater(x: string, s: seq<string>, r: seq<string>)
    requires s != [] && Sorted(s) && AtMost(s[0], x)
    requires Sorted(r) && multiset(r) == multiset(s[1..]) + multiset{x}
    ensures Sorted([s[0]] + r)
  {
    forall j | 0 <= j < |r| ensures AtMost(s[0], r[j]) {
      assert r[j] in multiset(r);
      if r[j] != x {
        assert r[j] in s[1..];
      }
    }
  }

  /** Sorting keeps every occurrence and puts them in order. */
  lemma {:induction false} SortSorts(s: seq<string>)
    ensures Sorted(Sort(s)) && multiset(Sort(s)) == multiset(s)
  {
    if s != [] {
      assert s == [s[0]] + s[1..];
      SortSorts(s[1..]);
      InsertSorts(s[0], Sort(s[1..]));
    }
  }

  lemma SortedHead(s: seq<string>, x: string)
    requires Sorted(s) && x in s
    ensures AtMost(s[0], x)
  {
    var i :| 0 <= i < |s| && s[i] == x;
  }

  /** A sorted sequence is determined by how often each string occurs in it. */
  lemma {:induction false} SortedUnique(a: seq<string>, b: seq<string>)
    requires Sorted(a) && Sorted(b) && multiset(a) == multiset(b)
    ensures a == b
  {
    assert |a| == |multiset(a)| == |multiset(b)| == |b|;
    if a != [] {
      assert a[0] == b[0] by {
        assert a[0] in multiset(b) && b[0] in multiset(a);
        SortedHead(a, b[0]);
        SortedHead(b, a[0]);
        LessTrichotomy(a[0], b[0]);
      }
      assert a == [a[0]] + a[1..] && b == [b[0]] + b[1..];
      assert multiset(a[1..]) == multiset(a) - multiset{a[0]} == multiset(b[1..]);
      TailSorted(a);
      TailSorted(b);
      SortedUnique(a[1..], b[1..]);
    }
  }

  lemma TailSorted(s: seq<string>)
    requires Sorted(s) && s != []
    ensures Sorted(s[1..])
  {
  }

  /** `sorted` depends only on how often each string occurs. */
  lemma SortDetermined(s: seq<string>, t: seq<string>)
    requires multiset(s) == multiset(t)
    ensures Sort(s) == Sort(t)
  {
    SortSorts(s);
    SortSorts(t);
    SortedUnique(Sort(s), Sort(t));
  }

  function Dedupe(s: seq<string>): seq<string> {
    if s == [] then []
    else if s[0] in s[1..] then Dedupe(s[1..])
    else [s[0]] + Dedupe(s[1..])
  }

  /** Python's `sorted(set(s))`. */
  function SortedSet(s: seq<string>): seq<string> {
    Sort(Dedupe(s))
  }

  lemma {:induction false} DedupeCounts(s: seq<string>, x: string)
    ensures multiset(Dedupe(s))[x] == if x in s then 1 else 0
  {
    if s != [] {
      DedupeCounts(s[1..], x);
      assert s == [s[0]] + s[1..];
    }
  }

  lemma SortedSetMembers(s: seq<string>, x: string)
    ensures x in SortedSet(s) <==> x in s
  {
    DedupeCounts(s, x);
    SortSorts(Dedupe(s));
    assert x in SortedSet(s) <==> multiset(SortedSet(s))[x] > 0;
  }

  /** `sorted(set(s))` depends only on which strings occur in `s`. */
  lemma SortedSetDetermined(s: seq<string>, t: seq<string>)
    requires forall x :: x in s <==> x in t
    ensures SortedSet(s) == SortedSet(t)
  {
    forall x ensures multiset(Dedupe(s))[x] == multiset(Dedupe(t))[x] {
      DedupeCounts(s, x);
      DedupeCounts(t, x);
    }
    assert multiset(Dedupe(s)) == multiset(Dedupe(t));
    SortDetermined(Dedupe(s), Dedupe(t));
  }

  lemma SortedSetAppend(a: seq<string>, b: seq<string>)
    ensures SortedSet(a + b) == SortedSet(SortedSet(a) + SortedSet(b))
  {
    forall x ensures x in a + b <==> x in SortedSet(a) + SortedSet(b) {
      SortedSetMembers(a, x);
      SortedSetMembers(b, x);
    }
    SortedSetDetermined(a + b, SortedSet(a) + SortedSet(b));
  }

  // ---------- Digits ----------

  function Pow10(w: nat): (p: nat)
    ensures p > 0
  {
    if w == 0 then 1 else 10 * Pow10(w - 1)
  }

  function Digit(d: nat): (c: char)
    requires d < 10
    ensures '0' <= c <= '9'
  {
    ('0' as int + d) as char
  }

  /** `n` written with exactly `w` digits, as Python's `%0wd`. */
  function Digits(n: nat, w: nat): (s: string)
    requires n < Pow10(w)
    ensures |s| == w
  {
    if w == 0 then "" else Digits(n / 10, w - 1) + [Digit(n % 10)]
  }

  function ReadDigits(s: string, w: nat): Option<nat>
    requires w <= |s|
  {
    if w == 0 then Some(0)
    else
      var high :- ReadDigits(s, w - 1);
      if '0' <= s[w - 1] <= '9' then Some(10 * high + (s[w - 1] as int - '0' as int)) else None
  }

  lemma {:induction false} DigitsRead(n: nat, w: nat, rest: string)
    requires n < Pow10(w)
    ensures ReadDigits(Digits(n, w) + rest, w) == Some(n)
  {
    if w > 0 {
      var tail := [Digit(n % 10)] + rest;
      assert Digits(n, w) + rest == Digits(n / 10, w - 1) + tail;
      DigitsRead(n / 10, w - 1, tail);
    }
  }

  /** Equal-width numbers order as their values; the text after them breaks ties. */
  lemma {:induction false} DigitsOrder(a: nat, b: nat, w: nat, x: string, y: string)
    requires a < Pow10(w) && b < Pow10(w)
    ensures Less(Digits(a, w) + x, Digits(b, w) + y) <==> a < b || (a == b && Less(x, y))
  {
    if w == 0 {
      assert Digits(a, w) + x == x && Digits(b, w) + y == y;
    } else {
      var x', y' := [Digit(a % 10)] + x, [Digit(b % 10)] + y;
      assert Digits(a, w) + x == Digits(a / 10, w - 1) + x';
      assert Digits(b, w) + y == Digits(b / 10, w - 1) + y';
      DigitsOrder(a / 10, b / 10, w - 1, x', y');
      LessAfterChar(Digit(a % 10), Digit(b % 10), x, y);
    }
  }

  // ---------- Integers ----------

  function NatText(n: nat): (s: string)
    ensures s != "" && forall i :: 0 <= i < |s| ==> '0' <= s[i] <= '9'
  {
    if n < 10 then [Digit(n)] else NatText(n / 10) + [Digit(n % 10)]
  }

  /** Python's `str` of an integer. */
  function IntText(n: int): string {
    if n < 0 then "-" + NatText(-n) else NatText(n)
  }

  function NatValue(s: string): int {
    if s == "" then 0 else 10 * NatValue(s[..|s| - 1]) + (s[|s| - 1] as int - '0' as int)
  }

  lemma {:induction false} NatTextValue(n: nat)
    ensures NatValue(NatText(n)) == n
  {
    if n >= 10 {
      NatTextValue(n / 10);
      assert NatText(n)[..|NatText(n)| - 1] == NatText(n / 10);
    }
  }

  lemma NatTextInjective(m: nat, n: nat)
    requires NatText(m) == NatText(n)
    ensures m == n
  {
    NatTextValue(m);
    NatTextValue(n);
  }

  lemma IntTextInjective(m: int, n: int)
    requires IntText(m) == IntText(n)
    ensures m == n
  {
    assert IntText(m)[0] == '-' <==> m < 0;
    assert IntText(n)[0] == '-' <==> n < 0;
    if m < 0 {
      assert ("-" + NatText(-m))[1..] == NatText(-m);
      assert ("-" + NatText(-n))[1..] == NatText(-n);
      NatTextInjective(-m, -n);
    } else {
      NatTextInjective(m, n);
    }
  }
}
