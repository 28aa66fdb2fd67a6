/** `sorted(xs, key=..., reverse=True)` / `xs.sort(key=..., reverse=True)` on
    an integer key (a date or timestamp), as an insertion sort. */
module Sorting {

  predicate SortedDesc<T>(s: seq<T>, key: T -> int) {
    forall i, j :: 0 <= i < j < |s| ==> key(s[i]) >= key(s[j])
  }

  /** An element whose key is not below any key of a sorted sequence can go
      in front of it. */
  lemma ConsSorted<T>(y: T, s: seq<T>, key: T -> int)
    requires SortedDesc(s, key)
    requires forall z :: z in s ==> key(y) >= key(z)
    ensures SortedDesc([y] + s, key)
  {
    var r := [y] + s;
    forall i, j | 0 <= i < j < |r| ensures key(r[i]) >= key(r[j]) {
      assert r[j] == s[j - 1];
      if i > 0 {
        assert r[i] == s[i - 1];
      }
    }
  }

  /** Put `x` in front of the first element whose key is not above its own. */
  function Insert<T>(x: T, s: seq<T>, key: T -> int): (r: seq<T>)
    requires SortedDesc(s, key)
    ensures SortedDesc(r, key)
    ensures multiset(r) == multiset(s) + multiset{x}
    ensures forall z :: z in r ==> z == x || z in s
  {
    if s == [] || key(x) >= key(s[0]) then
      ConsSorted(x, s, key);
      [x] + s
    else
      var rest := Insert(x, s[1..], key);
      assert s == [s[0]] + s[1..];
      ConsSorted(s[0], rest, key);
      [s[0]] + rest
  }

  /** The elements of `s`, largest key first. */
  function SortDesc<T>(s: seq<T>, key: T -> int): (r: seq<T>)
    ensures SortedDesc(r, key)
    ensures multiset(r) == multiset(s) && |r| == |s|
  {
    if s == [] then []
    else
      assert s == [s[0]] + s[1..];
      var r := Insert(s[0], SortDesc(s[1..], key), key);
      assert |r| == |multiset(r)|;
      r
  }

  /** Cutting a sorted sequence keeps it sorted, and the cut keeps the
      largest keys: nothing dropped is above anything kept. */
  lemma TakeSorted<T>(s: seq<T>, k: nat, key: T -> int)
    requires SortedDesc(s, key) && k <= |s|
    ensures SortedDesc(s[..k], key)
    ensures forall i, j :: 0 <= i < k <= j < |s| ==> key(s[i]) >= key(s[j])
  {
  }
}
