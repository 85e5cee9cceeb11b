/** Sequence operations behind the array methods the application uses
    (`filter`, `map`, `findIndex`, `reduce`) and the list-as-set of the weekly tracker. */
module Seqs {

  /** `filter`: the elements satisfying `p`, in their original order. */
  function Filter<T(!new)>(s: seq<T>, p: T -> bool): (r: seq<T>)
    ensures |r| <= |s|
    ensures forall x :: x in r <==> x in s && p(x)
    ensures (forall i :: 0 <= i < |s| ==> p(s[i])) ==> r == s
    decreases |s|
  {
    if s == [] then [] else (if p(s[0]) then [s[0]] else []) + Filter(s[1..], p)
  }

  /** Filtering a concatenation filters each part: the filter keeps the original order. */
  lemma {:induction false} FilterAppend<T(!new)>(a: seq<T>, b: seq<T>, p: T -> bool)
    ensures Filter(a + b, p) == Filter(a, p) + Filter(b, p)
    decreases |a|
  {
    if a == [] {
      assert a + b == b;
    } else {
      assert (a + b)[1..] == a[1..] + b;
      FilterAppend(a[1..], b, p);
    }
  }

  /** Two complementary filters split a sequence: their lengths add up to its length. */
  lemma {:induction false} FilterPartition<T(!new)>(s: seq<T>, p: T -> bool, q: T -> bool)
    requires forall x :: q(x) == !p(x)
    ensures |Filter(s, p)| + |Filter(s, q)| == |s|
    decreases |s|
  {
    if s != [] {
      FilterPartition(s[1..], p, q);
    }
  }

  /** `map`. */
  function Map<T, U>(s: seq<T>, f: T -> U): (r: seq<U>)
    ensures |r| == |s|
    ensures forall i :: 0 <= i < |s| ==> r[i] == f(s[i])
  {
    seq(|s|, i requires 0 <= i < |s| => f(s[i]))
  }

  /** `findIndex`: the first position whose element satisfies `p`, or -1. */
  function FindIndex<T>(s: seq<T>, p: T -> bool): (r: int)
    ensures -1 <= r < |s|
    ensures r == -1 <==> forall i :: 0 <= i < |s| ==> !p(s[i])
    ensures 0 <= r ==> p(s[r]) && forall i :: 0 <= i < r ==> !p(s[i])
    decreases |s|
  {
    if s == [] then -1
    else if p(s[0]) then 0
    else
      var k := FindIndex(s[1..], p);
      if k == -1 then -1 else k + 1
  }

  /** `reduce((acc, x) => acc + f(x), 0)`. */
  function SumOf<T>(s: seq<T>, f: T -> int): int
    decreases |s|
  {
    if s == [] then 0 else f(s[0]) + SumOf(s[1..], f)
  }

  lemma {:induction false} SumOfAppend<T>(a: seq<T>, b: seq<T>, f: T -> int)
    ensures SumOf(a + b, f) == SumOf(a, f) + SumOf(b, f)
    decreases |a|
  {
    if a == [] {
      assert a + b == b;
    } else {
      assert (a + b)[1..] == a[1..] + b;
      SumOfAppend(a[1..], b, f);
    }
  }

  /** Replacing one element changes the sum by the difference of the two values. */
  lemma {:induction false} SumOfUpdate<T>(s: seq<T>, i: nat, x: T, f: T -> int)
    requires i < |s|
    ensures SumOf(s[i := x], f) == SumOf(s, f) - f(s[i]) + f(x)
    decreases |s|
  {
    if i > 0 {
      assert s[i := x][1..] == s[1..][i - 1 := x];
      SumOfUpdate(s[1..], i - 1, x, f);
    }
  }

  /** No element occurs twice. */
  predicate NoDup<T(==)>(s: seq<T>)
  {
    forall i, j :: 0 <= i < j < |s| ==> s[i] != s[j]
  }

  /** The test `y => y !== x`. */
  function Other<T(==)>(x: T): T -> bool
  {
    y => y != x
  }

  /** `filter(y => y !== x)`: every occurrence of `x` removed, the rest kept in order. */
  function Remove<T(==,!new)>(s: seq<T>, x: T): (r: seq<T>)
    ensures forall y :: y in r <==> y in s && y != x
    ensures x !in s ==> r == s
    ensures NoDup(s) ==> NoDup(r)
    decreases |s|
  {
    if s == [] then []
    else
      var rest := Remove(s[1..], x);
      assert NoDup(s) ==> s[0] !in s[1..] && NoDup(s[1..]);
      var r := (if s[0] == x then [] else [s[0]]) + rest;
      assert NoDup(s) ==> NoDup(r) by {
        if NoDup(s) && s[0] != x {
          assert s[0] !in rest;
          forall i, j | 0 <= i < j < |r| ensures r[i] != r[j] {
            if i > 0 {
              assert r[i] == rest[i - 1] && r[j] == rest[j - 1];
            } else {
              assert r[j] == rest[j - 1];
            }
          }
        }
      }
      r
  }

  /** `Remove` is the `filter` it stands for: the elements other than `x`, in their order. */
  lemma {:induction false} RemoveIsFilter<T(!new)>(s: seq<T>, x: T)
    ensures Remove(s, x) == Filter(s, Other(x))
    decreases |s|
  {
    if s != [] {
      RemoveIsFilter(s[1..], x);
    }
  }

  /** Removing from a concatenation removes from each part, keeping the parts' order. */
  lemma RemoveAppend<T(!new)>(a: seq<T>, b: seq<T>, x: T)
    ensures Remove(a + b, x) == Remove(a, x) + Remove(b, x)
  {
    RemoveIsFilter(a + b, x);
    RemoveIsFilter(a, x);
    RemoveIsFilter(b, x);
    FilterAppend(a, b, Other(x));
  }

  /** `ys.forEach(y => remove y)`: the elements of `ys` removed from `s`, one after the other. */
  function RemoveAll<T(==,!new)>(s: seq<T>, ys: seq<T>): (r: seq<T>)
    ensures forall y :: y in r <==> y in s && y !in ys
    ensures NoDup(s) ==> NoDup(r)
    decreases |ys|
  {
    if ys == [] then s
    else
      var init := ys[..|ys| - 1];
      assert forall y :: y in ys <==> y in init || y == ys[|ys| - 1] by {
        assert ys == init + [ys[|ys| - 1]];
      }
      Remove(RemoveAll(s, init), ys[|ys| - 1])
  }

  /** Removing leaves nothing exactly when every element is among the removed ones. */
  lemma RemoveAllEmpty<T(!new)>(s: seq<T>, ys: seq<T>)
    ensures RemoveAll(s, ys) == [] <==> forall y :: y in s ==> y in ys
  {
    var r := RemoveAll(s, ys);
    assert r == [] || r[0] in r;
  }

  /** A sequence without duplicates has exactly as many distinct elements as it has positions. */
  lemma {:induction false} NoDupCardinality<T>(s: seq<T>)
    requires NoDup(s)
    ensures |set x | x in s| == |s|
    decreases |s|
  {
    if s != [] {
      var tail := s[1..];
      assert NoDup(tail);
      NoDupCardinality(tail);
      assert s[0] !in tail;
      assert (set x | x in s) == (set x | x in tail) + {s[0]};
    }
  }
}
