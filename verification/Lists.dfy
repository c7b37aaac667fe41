/** Lists without repetitions, as the source's maps and sets keep their keys in insertion order. */
module Lists {
  ghost predicate Distinct<T>(list: seq<T>) { forall i, j :: 0 <= i < j < |list| ==> list[i] != list[j] }

  function Without<T(==, !new)>(list: seq<T>, x: T): (r: seq<T>)
    ensures forall y :: y in r <==> y in list && y != x
    ensures |r| <= |list|
  {
    if list == [] then []
    else (if list[0] == x then [] else [list[0]]) + Without(list[1..], x)
  }

  lemma {:induction false} WithoutKeepsDistinct<T(!new)>(list: seq<T>, x: T)
    requires Distinct(list)
    ensures Distinct(Without(list, x))
    ensures |Without(list, x)| == if x in list then |list| - 1 else |list|
  {
    if list != [] {
      var rest := Without(list[1..], x);
      WithoutKeepsDistinct(list[1..], x);
      forall j | 0 <= j < |list[1..]| ensures list[1..][j] != list[0] { assert list[1..][j] == list[j + 1]; }
      assert list[0] !in rest;
    }
  }

  lemma {:induction false} WithoutAbsent<T(!new)>(list: seq<T>, x: T)
    requires x !in list
    ensures Without(list, x) == list
  {
    if list != [] { WithoutAbsent(list[1..], x); }
  }

  lemma {:induction false} WithoutPresent<T(!new)>(list: seq<T>, x: T)
    requires x in list
    ensures |Without(list, x)| < |list|
  {
    if list[0] != x { WithoutPresent(list[1..], x); }
  }

  /** Distinct numbers below n are at most n. */
  lemma {:induction false} DistinctBelow(list: seq<int>, n: nat)
    requires Distinct(list) && forall i :: 0 <= i < |list| ==> 0 <= list[i] < n
    ensures |list| <= n
    decreases n
  {
    if n > 0 {
      var rest := Without(list, n - 1);
      WithoutKeepsDistinct(list, n - 1);
      forall i | 0 <= i < |rest| ensures 0 <= rest[i] < n - 1 { assert rest[i] in rest; }
      DistinctBelow(rest, n - 1);
    }
  }

  lemma Regrouped<T>(a: seq<T>, b: seq<T>, c: seq<T>)
    ensures (a + b) + c == a + (b + c)
  {
  }
}
