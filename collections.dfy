/** Python list operations the application relies on: comprehensions with a
    condition, `x in xs`, `xs.count(x)`, `xs.remove(x)`, and lists without
    repeated elements. */
module Collections {

  /** No element occurs twice. */
  predicate Distinct<T(==)>(s: seq<T>) {
    forall i, j :: 0 <= i < j < |s| ==> s[i] != s[j]
  }

  lemma AppendAssoc<T>(a: seq<T>, b: seq<T>, c: seq<T>)
    ensures a + (b + c) == a + b + c
  {
  }

  /** The ids after the first are keys of `m` too. */
  lemma TailInKeys<V>(order: seq<nat>, m: map<nat, V>)
    requires order != [] && forall i :: 0 <= i < |order| ==> order[i] in m
    ensures forall i :: 0 <= i < |order[1..]| ==> order[1..][i] in m
  {
    forall i | 0 <= i < |order[1..]| ensures order[1..][i] in m {
      assert order[1..][i] == order[i + 1];
    }
  }

  lemma DistinctTail<T>(s: seq<T>)
    requires s != [] && Distinct(s)
    ensures Distinct(s[1..]) && s[0] !in s[1..]
  {
    var rest := s[1..];
    forall i, j | 0 <= i < j < |rest| ensures rest[i] != rest[j] {
      assert rest[i] == s[i + 1] && rest[j] == s[j + 1];
    }
    forall i | 0 <= i < |rest| ensures rest[i] != s[0] {
      assert rest[i] == s[i + 1];
    }
  }

  /** In a sequence without repeats every element occurs at most once. */
  lemma {:induction false} DistinctMultiplicity<T>(s: seq<T>)
    requires Distinct(s)
    ensures forall x :: multiset(s)[x] <= 1
  {
    if s != [] {
      DistinctTail(s);
      DistinctMultiplicity(s[1..]);
      assert s == [s[0]] + s[1..];
    }
  }

  /** Reordering a sequence without repeats gives one without repeats. */
  lemma PermutationKeepsDistinct<T>(a: seq<T>, b: seq<T>)
    requires Distinct(a) && multiset(a) == multiset(b)
    ensures Distinct(b)
  {
    DistinctMultiplicity(a);
    forall i, j | 0 <= i < j < |b| ensures b[i] != b[j] {
      RepeatMultiplicity(b, i, j);
    }
  }

  /** An element found at two positions occurs twice. */
  lemma RepeatMultiplicity<T>(b: seq<T>, i: nat, j: nat)
    requires i < j < |b|
    ensures b[i] == b[j] ==> multiset(b)[b[i]] >= 2
  {
    assert b == b[..j] + [b[j]] + b[j + 1..];
    assert b[i] in b[..j];
    assert multiset(b)[b[i]] >= multiset(b[..j])[b[i]] + multiset([b[j]])[b[i]];
  }

  /** `[x for x in s if p(x)]` */
  function Filter<T(!new)>(s: seq<T>, p: T -> bool): (r: seq<T>)
    ensures |r| <= |s|
    ensures forall x :: x in r <==> x in s && p(x)
    ensures forall i :: 0 <= i < |r| ==> p(r[i])
  {
    if s == [] then []
    else
      assert s == [s[0]] + s[1..];
      if p(s[0]) then [s[0]] + Filter(s[1..], p) else Filter(s[1..], p)
  }

  lemma {:induction false} FilterConcat<T(!new)>(a: seq<T>, b: seq<T>, p: T -> bool)
    ensures Filter(a + b, p) == Filter(a, p) + Filter(b, p)
  {
    if a == [] {
      assert a + b == b;
    } else {
      assert (a + b)[0] == a[0] && (a + b)[1..] == a[1..] + b;
      FilterConcat(a[1..], b, p);
    }
  }

  /** The filter keeps every copy of an element it accepts and no copy of
      one it rejects. */
  lemma {:induction false} FilterMultiplicity<T(!new)>(s: seq<T>, p: T -> bool, x: T)
    ensures multiset(Filter(s, p))[x] == if p(x) then multiset(s)[x] else 0
  {
    if s != [] {
      assert s == [s[0]] + s[1..];
      FilterMultiplicity(s[1..], p, x);
    }
  }

  /** `s.count(x)` */
  function Count<T(==)>(s: seq<T>, x: T): (n: nat)
    ensures n <= |s|
    ensures n == 0 <==> x !in s
  {
    if s == [] then 0
    else
      assert s == [s[0]] + s[1..];
      (if s[0] == x then 1 else 0) + Count(s[1..], x)
  }

  lemma {:induction false} CountAppend<T>(s: seq<T>, y: T, x: T)
    ensures Count(s + [y], x) == Count(s, x) + (if y == x then 1 else 0)
  {
    if s != [] {
      assert (s + [y])[1..] == s[1..] + [y];
      CountAppend(s[1..], y, x);
    }
  }

  /** In a list without repeats `s.count(x)` is 1 for a member and 0 otherwise. */
  lemma {:induction false} CountDistinct<T>(s: seq<T>, x: T)
    requires Distinct(s)
    ensures Count(s, x) == if x in s then 1 else 0
  {
    if s != [] {
      DistinctTail(s);
      CountDistinct(s[1..], x);
    }
  }

  /** `s.remove(x)`: drop the first occurrence of `x` (Python raises when
      there is none; every caller here checks membership first). */
  function RemoveFirst<T(==,!new)>(s: seq<T>, x: T): (r: seq<T>)
    requires x in s
    ensures |r| == |s| - 1
    ensures Count(r, x) == Count(s, x) - 1
    ensures forall y :: y != x ==> Count(r, y) == Count(s, y)
  {
    if s[0] == x then s[1..]
    else
      assert s == [s[0]] + s[1..];
      var r := [s[0]] + RemoveFirst(s[1..], x);
      assert r[1..] == RemoveFirst(s[1..], x);
      r
  }

  /** The elements other than `x`, in order. */
  function Without<T(==,!new)>(s: seq<T>, x: T): seq<T> {
    Filter(s, y => y != x)
  }

  /** Removing the first `x` leaves every other element where it was. */
  lemma {:induction false} WithoutRemoveFirst<T(!new)>(s: seq<T>, x: T)
    requires x in s
    ensures Without(RemoveFirst(s, x), x) == Without(s, x)
  {
    assert s == [s[0]] + s[1..];
    FilterConcat([s[0]], s[1..], y => y != x);
    if s[0] != x {
      var rest := RemoveFirst(s[1..], x);
      FilterConcat([s[0]], rest, y => y != x);
      WithoutRemoveFirst(s[1..], x);
    }
  }

  /** Appending `x` leaves the other elements where they were. */
  lemma WithoutAppend<T(!new)>(s: seq<T>, x: T)
    ensures Without(s + [x], x) == Without(s, x)
  {
    FilterConcat(s, [x], y => y != x);
  }
}
