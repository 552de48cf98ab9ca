/** Comprehensions over lists: what they keep, and that reordering the list only reorders the result. */
module Lists {
  import opened Outcomes

  /** `[f(x) for x in xs if f accepts x]`. */
  function FilterMap<T, U>(xs: seq<T>, f: T -> Option<U>): seq<U> {
    if xs == [] then []
    else One(xs[0], f) + FilterMap(xs[1..], f)
  }

  function One<T, U>(x: T, f: T -> Option<U>): seq<U> {
    match f(x)
    case None => []
    case Some(y) => [y]
  }

  lemma {:induction false} FilterMapAppend<T, U>(a: seq<T>, b: seq<T>, f: T -> Option<U>)
    ensures FilterMap(a + b, f) == FilterMap(a, f) + FilterMap(b, f)
  {
    if a == [] {
      assert a + b == b;
    } else {
      assert (a + b)[1..] == a[1..] + b;
      FilterMapAppend(a[1..], b, f);
    }
  }

  lemma FilterMapAround<T, U>(front: seq<T>, x: T, back: seq<T>, f: T -> Option<U>)
    ensures multiset(FilterMap(front + ([x] + back), f)) == multiset(One(x, f)) + multiset(FilterMap(front + back, f))
  {
    FilterMapAppend(front, [x] + back, f);
    assert ([x] + back)[1..] == back;
    FilterMapAppend(front, back, f);
  }

  lemma RemoveAround<T>(front: seq<T>, x: T, back: seq<T>, rest: seq<T>)
    requires multiset([x] + rest) == multiset(front + ([x] + back))
    ensures multiset(rest) == multiset(front + back)
  {
    assert multiset(rest) == multiset([x] + rest) - multiset{x};
    assert multiset(front + back) == multiset(front + ([x] + back)) - multiset{x};
  }

  lemma SplitAt<T>(xs: seq<T>, x: T) returns (front: seq<T>, back: seq<T>)
    requires x in xs
    ensures xs == front + ([x] + back)
  {
    var i :| 0 <= i < |xs| && xs[i] == x;
    front, back := xs[..i], xs[i + 1..];
  }

  lemma {:induction false} FilterMapPermutation<T, U>(a: seq<T>, b: seq<T>, f: T -> Option<U>)
    requires multiset(a) == multiset(b)
    ensures multiset(FilterMap(a, f)) == multiset(FilterMap(b, f))
  {
    if a == [] {
      assert |multiset(b)| == 0;
    } else {
      assert a[0] in multiset(b);
      var front, back := SplitAt(b, a[0]);
      assert a == [a[0]] + a[1..];
      RemoveAround(front, a[0], back, a[1..]);
      FilterMapPermutation(a[1..], front + back, f);
      FilterMapAround(front, a[0], back, f);
    }
  }

  lemma SameMembers<T>(a: seq<T>, b: seq<T>)
    requires multiset(a) == multiset(b)
    ensures |a| == |b| && forall x :: x in a <==> x in b
  {
    assert |a| == |multiset(a)| == |multiset(b)| == |b|;
    forall x ensures x in a <==> x in b {
      assert x in a <==> x in multiset(a);
      assert x in b <==> x in multiset(b);
    }
  }

  lemma AtMostOneElement<T>(a: seq<T>, b: seq<T>)
    requires multiset(a) == multiset(b) && |a| <= 1
    ensures a == b
  {
    SameMembers(a, b);
    if a != [] { assert b[0] in b; }
  }

  // ---------- Conditional appends ----------

  /** What `n` statements `if at(k).1: m.append(at(k).0)` leave in an empty list. */
  function Noted<T(!new)>(n: nat, at: nat -> (T, bool)): seq<T> {
    if n == 0 then [] else Note(Noted(n - 1, at), at(n - 1).1, at(n - 1).0)
  }

  lemma {:induction false} NotedMembers<T(!new)>(n: nat, at: nat -> (T, bool), x: T)
    ensures x in Noted(n, at) <==> exists k: nat :: k < n && at(k) == (x, true)
  {
    if n > 0 {
      NotedMembers(n - 1, at, x);
      assert at(n - 1) == (x, true) <==> at(n - 1).1 && at(n - 1).0 == x;
    }
  }

  lemma NothingNoted<T(!new)>(n: nat, at: nat -> (T, bool))
    ensures Noted(n, at) == [] <==> forall k: nat :: k < n ==> !at(k).1
  {
    if Noted(n, at) != [] { NotedMembers(n, at, Noted(n, at)[0]); }
    if k: nat :| k < n && at(k).1 { NotedMembers(n, at, at(k).0); }
  }

  // ---------- Lists without repetitions ----------

  predicate Distinct<T(==)>(xs: seq<T>) {
    forall i, j :: 0 <= i < j < |xs| ==> xs[i] != xs[j]
  }

  /** A list without repetitions holds just `x` exactly when `x` is its only element. */
  lemma OnlyElement<T>(xs: seq<T>, x: T)
    requires Distinct(xs)
    ensures xs == [x] <==> forall y :: y in xs <==> y == x
  {
    if forall y :: y in xs <==> y == x {
      assert x in xs;
      assert xs[0] in xs;
      if |xs| > 1 { assert xs[1] in xs; }
    }
  }

  lemma DistinctTail<T>(xs: seq<T>)
    requires xs != [] && Distinct(xs)
    ensures Distinct(xs[1..]) && xs[0] !in xs[1..]
  {
  }

  lemma DistinctFront<T>(x: T, xs: seq<T>)
    requires Distinct(xs) && x !in xs
    ensures Distinct([x] + xs)
  {
  }

  lemma DistinctConcat<T>(a: seq<T>, b: seq<T>)
    ensures Distinct(a + b) <==> Distinct(a) && Distinct(b) && forall x :: x in a ==> x !in b
  {
    var ab := a + b;
    if Distinct(ab) {
      forall i, j | 0 <= i < j < |a| ensures a[i] != a[j] { assert ab[i] != ab[j]; }
      forall i, j | 0 <= i < j < |b| ensures b[i] != b[j] { assert ab[|a| + i] != ab[|a| + j]; }
      forall i, j | 0 <= i < |a| && 0 <= j < |b| ensures a[i] != b[j] { assert ab[i] != ab[|a| + j]; }
    } else if Distinct(a) && Distinct(b) {
      var i, j :| 0 <= i < j < |ab| && ab[i] == ab[j];
      assert i < |a| <= j;
      assert ab[i] in a && ab[j] in b;
    }
  }
}
