// Sorting by a strict total order, and the lexicographic order on strings.
//
// The source sorts lists by keys and sets by their elements. Here a sort is insertion by an order that is
// total on the elements, so that there is only one sorted arrangement of a collection: results that go
// through a sort do not depend on the order things arrived in. A set is listed in some order first, and
// the sort makes that order irrelevant.
module Orders {
  import opened Prelude

  ghost predicate StrictTotal<T(!new)>(less: (T, T) -> bool) {
    && (forall x :: !less(x, x))
    && (forall x, y, z :: less(x, y) && less(y, z) ==> less(x, z))
    && (forall x, y :: x != y ==> less(x, y) || less(y, x))
  }

  ghost predicate SortedBy<T>(xs: seq<T>, less: (T, T) -> bool) {
    forall i, j :: 0 <= i < j < |xs| ==> !less(xs[j], xs[i])
  }

  function Insert<T>(x: T, xs: seq<T>, less: (T, T) -> bool): seq<T> {
    if xs == [] || !less(xs[0], x) then [x] + xs else [xs[0]] + Insert(x, xs[1..], less)
  }

  function Sort<T>(xs: seq<T>, less: (T, T) -> bool): seq<T> {
    if xs == [] then [] else Insert(xs[0], Sort(xs[1..], less), less)
  }

  lemma {:induction false} InsertPermutes<T(!new)>(x: T, xs: seq<T>, less: (T, T) -> bool)
    ensures multiset(Insert(x, xs, less)) == multiset{x} + multiset(xs)
    ensures |Insert(x, xs, less)| == 1 + |xs|
  {
    if xs == [] || !less(xs[0], x) {
    } else {
      InsertPermutes(x, xs[1..], less);
      assert xs == [xs[0]] + xs[1..];
    }
  }

  // A sorted sequence stays sorted behind something that nothing in it comes before.
  lemma ConsSorts<T>(x: T, xs: seq<T>, less: (T, T) -> bool)
    requires SortedBy(xs, less) && forall j :: 0 <= j < |xs| ==> !less(xs[j], x)
    ensures SortedBy([x] + xs, less)
  {
    var r := [x] + xs;
    assert forall j :: 0 < j < |r| ==> r[j] == xs[j - 1];
  }

  lemma NothingBefore<T(!new)>(x: T, xs: seq<T>, less: (T, T) -> bool)
    requires StrictTotal(less) && SortedBy(xs, less) && xs != [] && !less(xs[0], x)
    ensures forall j :: 0 <= j < |xs| ==> !less(xs[j], x)
  {
    forall j | 0 <= j < |xs| ensures !less(xs[j], x) {
      assert j > 0 ==> !less(xs[j], xs[0]);
    }
  }

  lemma InsertElements<T(!new)>(x: T, xs: seq<T>, less: (T, T) -> bool, y: T)
    requires y in Insert(x, xs, less)
    ensures y == x || y in xs
  {
    InsertPermutes(x, xs, less);
    assert y in multiset(Insert(x, xs, less));
  }

  lemma {:induction false} InsertSorts<T(!new)>(x: T, xs: seq<T>, less: (T, T) -> bool)
    requires StrictTotal(less) && SortedBy(xs, less)
    ensures SortedBy(Insert(x, xs, less), less)
  {
    if xs == [] {
    } else if !less(xs[0], x) {
      NothingBefore(x, xs, less);
      ConsSorts(x, xs, less);
    } else {
      var rest := Insert(x, xs[1..], less);
      TailSorted(xs, less);
      InsertSorts(x, xs[1..], less);
      forall j | 0 <= j < |rest| ensures !less(rest[j], xs[0]) {
        InsertElements(x, xs[1..], less, rest[j]);
        if rest[j] != x {
          var n :| 0 <= n < |xs[1..]| && xs[1..][n] == rest[j];
          assert xs[n + 1] == rest[j];
        }
      }
      hide StrictTotal, SortedBy, Insert;
      ConsSorts(xs[0], rest, less);
    }
  }

  lemma {:induction false} SortSorts<T(!new)>(xs: seq<T>, less: (T, T) -> bool)
    requires StrictTotal(less)
    ensures SortedBy(Sort(xs, less), less)
    ensures multiset(Sort(xs, less)) == multiset(xs) && |Sort(xs, less)| == |xs|
    ensures forall x :: x in Sort(xs, less) <==> x in xs
  {
    if xs != [] {
      SortSorts(xs[1..], less);
      InsertSorts(xs[0], Sort(xs[1..], less), less);
      InsertPermutes(xs[0], Sort(xs[1..], less), less);
      assert xs == [xs[0]] + xs[1..];
      assert multiset(Sort(xs, less)) == multiset(xs);
    }
    assert forall x :: x in Sort(xs, less) <==> x in multiset(Sort(xs, less));
    assert forall x :: x in xs <==> x in multiset(xs);
  }

  lemma SameHead<T(!new)>(xs: seq<T>, ys: seq<T>, less: (T, T) -> bool)
    requires StrictTotal(less) && SortedBy(xs, less) && SortedBy(ys, less)
    requires xs != [] && ys != [] && xs[0] in ys && ys[0] in xs
    ensures xs[0] == ys[0]
  {
    var i :| 0 <= i < |ys| && ys[i] == xs[0];
    var j :| 0 <= j < |xs| && xs[j] == ys[0];
  }

  lemma TailMultiset<T>(xs: seq<T>)
    requires xs != []
    ensures multiset(xs[1..]) == multiset(xs) - multiset{xs[0]}
  {
    assert xs == [xs[0]] + xs[1..];
  }

  // There is only one sorted arrangement of a collection.
  lemma {:induction false} SortedUnique<T(!new)>(xs: seq<T>, ys: seq<T>, less: (T, T) -> bool)
    requires StrictTotal(less) && SortedBy(xs, less) && SortedBy(ys, less)
    requires multiset(xs) == multiset(ys)
    ensures xs == ys
    decreases |xs|
  {
    assert |xs| == |multiset(xs)| == |multiset(ys)| == |ys|;
    if xs != [] {
      assert xs[0] in multiset(ys) && ys[0] in multiset(xs);
      SameHead(xs, ys, less);
      TailMultiset(xs);
      TailMultiset(ys);
      TailSorted(xs, less);
      TailSorted(ys, less);
      hide StrictTotal, SortedBy;
      SortedUnique(xs[1..], ys[1..], less);
      assert xs == [xs[0]] + xs[1..] && ys == [ys[0]] + ys[1..];
    }
  }

  lemma TailSorted<T>(xs: seq<T>, less: (T, T) -> bool)
    requires xs != [] && SortedBy(xs, less)
    ensures SortedBy(xs[1..], less)
  {
  }

  lemma SortIgnoresOrder<T(!new)>(xs: seq<T>, ys: seq<T>, less: (T, T) -> bool)
    requires StrictTotal(less) && multiset(xs) == multiset(ys)
    ensures Sort(xs, less) == Sort(ys, less)
  {
    SortSorts(xs, less);
    SortSorts(ys, less);
    SortedUnique(Sort(xs, less), Sort(ys, less), less);
  }

  lemma {:induction false} DistinctByMultiset<T>(xs: seq<T>, ys: seq<T>)
    requires multiset(xs) == multiset(ys) && Distinct(xs)
    ensures Distinct(ys)
  {
    forall i, j | 0 <= i < j < |ys| ensures ys[i] != ys[j] {
      if ys[i] == ys[j] {
        assert ys == ys[..i] + [ys[i]] + ys[i + 1..j] + [ys[j]] + ys[j + 1..];
        assert multiset(ys)[ys[i]] >= 2;
        TwiceInSequence(xs, ys[i]);
      }
    }
  }

  lemma {:induction false} TwiceInSequence<T>(xs: seq<T>, x: T)
    requires multiset(xs)[x] >= 2
    ensures !Distinct(xs)
  {
    assert x in multiset(xs);
    var i :| 0 <= i < |xs| && xs[i] == x;
    assert xs == xs[..i] + [x] + xs[i + 1..];
    assert multiset(xs) == multiset(xs[..i]) + multiset{x} + multiset(xs[i + 1..]);
    assert x in multiset(xs[..i]) || x in multiset(xs[i + 1..]);
    if x in multiset(xs[..i]) {
      var j :| 0 <= j < i && xs[..i][j] == x;
    } else {
      var j :| 0 <= j < |xs| - i - 1 && xs[i + 1..][j] == x;
    }
  }

  // ---------------------------------------------------------------- strings

  predicate StringLess(a: string, b: string) {
    b != [] && (a == [] || a[0] < b[0] || (a[0] == b[0] && StringLess(a[1..], b[1..])))
  }

  // The first character where two strings differ decides; a string comes after its beginnings.
  lemma {:induction false} FirstDifferenceDecides(a: string, b: string)
    ensures StringLess(a, b) <==> exists k :: 0 <= k <= |a| && DiffersFirst(a, b, k)
  {
    if StringLess(a, b) {
      if a == [] || a[0] < b[0] {
        assert DiffersFirst(a, b, 0);
      } else {
        FirstDifferenceDecides(a[1..], b[1..]);
        var k :| 0 <= k <= |a[1..]| && DiffersFirst(a[1..], b[1..], k);
        assert a == [a[0]] + a[1..] && b == [b[0]] + b[1..];
        assert a[..k + 1] == [a[0]] + a[1..][..k] && b[..k + 1] == [b[0]] + b[1..][..k];
        assert DiffersFirst(a, b, k + 1);
      }
    } else if k :| 0 <= k <= |a| && DiffersFirst(a, b, k) {
      if k > 0 {
        assert a[0] == a[..k][0] == b[..k][0] == b[0];
        assert a[1..][..k - 1] == a[..k][1..] && b[1..][..k - 1] == b[..k][1..];
        FirstDifferenceDecides(a[1..], b[1..]);
        assert DiffersFirst(a[1..], b[1..], k - 1);
      }
    }
  }

  predicate DiffersFirst(a: string, b: string, k: int) {
    0 <= k <= |a| && k < |b| && a[..k] == b[..k] && (k == |a| || a[k] < b[k])
  }

  lemma {:induction false} StringLessIrreflexive(a: string)
    ensures !StringLess(a, a)
  {
    if a != [] { StringLessIrreflexive(a[1..]); }
  }

  lemma {:induction false} StringLessTransitive(a: string, b: string, c: string)
    requires StringLess(a, b) && StringLess(b, c)
    ensures StringLess(a, c)
  {
    if a != [] && a[0] == b[0] == c[0] { StringLessTransitive(a[1..], b[1..], c[1..]); }
  }

  lemma {:induction false} StringLessTotal(a: string, b: string)
    requires a != b
    ensures StringLess(a, b) || StringLess(b, a)
  {
    if a != [] && b != [] && a[0] == b[0] {
      assert a == [a[0]] + a[1..] && b == [b[0]] + b[1..];
      StringLessTotal(a[1..], b[1..]);
    }
  }

  lemma StringLessIsStrictTotal()
    ensures StrictTotal(StringLess)
  {
    forall a ensures !StringLess(a, a) { StringLessIrreflexive(a); }
    forall a, b, c | StringLess(a, b) && StringLess(b, c) ensures StringLess(a, c) { StringLessTransitive(a, b, c); }
    forall a, b | a != b ensures StringLess(a, b) || StringLess(b, a) { StringLessTotal(a, b); }
  }

  // ---------------------------------------------------------------- sets as sorted sequences

  ghost function Listed<T>(s: set<T>): (xs: seq<T>)
    ensures Elements(xs) == s && Distinct(xs)
  {
    if s == {} then [] else
      var x :| x in s;
      ElementsConcat([x], Listed(s - {x}));
      ElementsOne(x);
      assert forall y :: y in Listed(s - {x}) ==> y in Elements(Listed(s - {x}));
      [x] + Listed(s - {x})
  }

  ghost function SortedSet(s: set<string>): seq<string> {
    Sort(Listed(s), StringLess)
  }

  lemma SortedSetElements(s: set<string>)
    ensures Elements(SortedSet(s)) == s && Distinct(SortedSet(s))
  {
    StringLessIsStrictTotal();
    SortSorts(Listed(s), StringLess);
    DistinctByMultiset(Listed(s), SortedSet(s));
  }

  lemma SortedSetEmpty()
    ensures SortedSet({}) == []
  {
  }

  lemma {:induction false} SameElementsSameMultiset<T>(xs: seq<T>, ys: seq<T>)
    requires Distinct(xs) && Distinct(ys) && Elements(xs) == Elements(ys)
    ensures multiset(xs) == multiset(ys)
  {
    forall x ensures multiset(xs)[x] == multiset(ys)[x] {
      if multiset(xs)[x] >= 2 { TwiceInSequence(xs, x); }
      if multiset(ys)[x] >= 2 { TwiceInSequence(ys, x); }
      assert x in multiset(xs) <==> x in Elements(xs);
      assert x in multiset(ys) <==> x in Elements(ys);
    }
  }

  // Lists a set in ascending order.
  method SortKeys(s: set<string>) returns (xs: seq<string>)
    ensures xs == SortedSet(s)
  {
    var rest := s;
    xs := [];
    while rest != {}
      invariant rest <= s && Elements(xs) == s - rest && Distinct(xs)
      decreases |rest|
    {
      var x :| x in rest;
      assert x !in Elements(xs);
      ElementsConcat(xs, [x]);
      ElementsOne(x);
      rest := rest - {x};
      xs := xs + [x];
    }
    SameElementsSameMultiset(xs, Listed(s));
    StringLessIsStrictTotal();
    SortIgnoresOrder(xs, Listed(s), StringLess);
    xs := Sort(xs, StringLess);
  }
}
