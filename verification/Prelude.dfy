// Small shared vocabulary: optional values, sequence predicates and counting.
//
// Sequences stand for the source's lists, queues and logs. Most of them grow at the end, so most recursive
// functions on them take off the last element.
module Prelude {

  datatype Option<+T> = None | Some(value: T) {
    function GetOr(default: T): T {
      match this
      case Some(v) => v
      case None => default
    }
  }

  function Max(a: int, b: int): int { if a >= b then a else b }

  function Min(a: int, b: int): int { if a <= b then a else b }

  ghost predicate Distinct<T>(xs: seq<T>) {
    forall i, j :: 0 <= i < j < |xs| ==> xs[i] != xs[j]
  }

  ghost predicate Increasing(xs: seq<int>) {
    forall i, j :: 0 <= i < j < |xs| ==> xs[i] < xs[j]
  }

  ghost predicate NonDecreasing(xs: seq<int>) {
    forall i, j :: 0 <= i < j < |xs| ==> xs[i] <= xs[j]
  }

  // The first n elements, or all of them.
  function Take<T>(xs: seq<T>, n: nat): seq<T> { if |xs| <= n then xs else xs[..n] }

  function Reversed<T>(xs: seq<T>): (r: seq<T>)
    ensures |r| == |xs| && forall i :: 0 <= i < |xs| ==> r[i] == xs[|xs| - 1 - i]
  {
    if xs == [] then [] else Reversed(xs[1..]) + [xs[0]]
  }

  function Elements<T>(xs: seq<T>): set<T> { set x | x in xs }

  lemma ElementsConcat<T>(xs: seq<T>, ys: seq<T>)
    ensures Elements(xs + ys) == Elements(xs) + Elements(ys)
  {
    assert forall x :: x in xs + ys <==> x in xs || x in ys;
  }

  lemma ElementsOne<T>(x: T)
    ensures Elements([x]) == {x}
  {
  }

  function Count<T(==)>(xs: seq<T>, x: T): nat {
    if xs == [] then 0 else (if xs[|xs| - 1] == x then 1 else 0) + Count(xs[..|xs| - 1], x)
  }

  lemma NotRepeated<T>(xs: seq<T>, i: nat, n: nat)
    requires Distinct(xs) && i < n <= |xs|
    ensures xs[i..n] == [xs[i]] + xs[i + 1..n]
    ensures xs[i] !in xs[i + 1..n] && xs[i] !in xs[..i]
  {
  }

  // A sequence without repetitions is as long as its set of elements.
  lemma {:induction false} DistinctCardinality<T>(xs: seq<T>)
    requires Distinct(xs)
    ensures |Elements(xs)| == |xs|
  {
    if xs == [] {
      assert Elements(xs) == {};
    } else {
      var last, init := xs[|xs| - 1], xs[..|xs| - 1];
      DistinctCardinality(init);
      assert last !in init;
      assert Elements(xs) == Elements(init) + {last};
    }
  }

  lemma {:induction false} SubsetCardinality<T>(a: set<T>, b: set<T>)
    requires a <= b
    ensures |a| <= |b|
  {
    assert b == a + (b - a);
    assert |b| == |a| + |b - a|;
  }
}
