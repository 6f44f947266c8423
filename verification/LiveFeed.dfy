// The live feed of the web client: batches merged by id, newest first, cut to fifty.
module LiveFeed {
  import opened Prelude
  import opened Orders

  const MAX_POSTS: nat := 50

  datatype Post = Post(id: string, tick: nat, body: string)

  // Ids sort by time; later ids come first.
  predicate Later(a: string, b: string) { StringLess(b, a) }

  lemma LaterIsStrictTotal()
    ensures StrictTotal(Later)
  {
    StringLessIsStrictTotal();
  }

  // The posts by id, the last one with an id winning.
  function Updated(byId: map<string, Post>, incoming: seq<Post>): map<string, Post> {
    if incoming == [] then byId
    else Updated(byId, incoming[..|incoming| - 1])[incoming[|incoming| - 1].id := incoming[|incoming| - 1]]
  }

  function ById(posts: seq<Post>): map<string, Post> { Updated(map[], posts) }

  // The latest ids of a set, latest first.
  ghost function Latest(ids: set<string>): seq<string> { Take(Sort(Orders.Listed(ids), Later), MAX_POSTS) }

  ghost function Shown(byId: map<string, Post>): seq<Post> {
    LatestAreAmong(byId.Keys);
    var ids := Latest(byId.Keys);
    seq(|ids|, k requires 0 <= k < |ids| => byId[ids[k]])
  }

  ghost function MergePosts(prev: seq<Post>, incoming: seq<Post>): seq<Post> { Shown(Updated(ById(prev), incoming)) }

  // The feed after a series of batches, and everything they ever brought.
  ghost function Feed(batches: seq<seq<Post>>): seq<Post> {
    if batches == [] then [] else MergePosts(Feed(batches[..|batches| - 1]), batches[|batches| - 1])
  }

  function Received(batches: seq<seq<Post>>): map<string, Post> {
    if batches == [] then map[] else Updated(Received(batches[..|batches| - 1]), batches[|batches| - 1])
  }

  // ---------------------------------------------------------------- the latest ids

  // The sequence lists the first n of a set in an order: nothing left out comes before anything listed.
  ghost predicate ListsFirst<T(!new)>(xs: seq<T>, ids: set<T>, less: (T, T) -> bool, n: nat) {
    && SortedBy(xs, less) && Distinct(xs) && Elements(xs) <= ids
    && |xs| == Min(|ids|, n)
    && forall x, y :: x in xs && y in ids && y !in xs ==> less(x, y)
  }

  lemma TakeLists<T(!new)>(all: seq<T>, ids: set<T>, less: (T, T) -> bool, n: nat)
    requires StrictTotal(less) && SortedBy(all, less) && Distinct(all) && |all| == |ids| && forall x :: x in all <==> x in ids
    ensures ListsFirst(Take(all, n), ids, less, n)
  {
    var xs := Take(all, n);
    assert forall k :: 0 <= k < |xs| ==> xs[k] == all[k];
    forall x, y | x in xs && y in ids && y !in xs ensures less(x, y) {
      var i :| 0 <= i < |xs| && xs[i] == x;
      assert y in all;
      var j :| 0 <= j < |all| && all[j] == y;
      assert j >= |xs| && all[i] == x;
    }
    forall x | x in xs ensures x in ids {
      var k :| 0 <= k < |xs| && xs[k] == x;
      assert all[k] in all;
    }
  }

  lemma SameSize<T>(a: set<T>, b: set<T>, x: T)
    requires |a| == |b| && x in a && x !in b
    ensures exists z :: z in b && z !in a
  {
    if forall z :: z in b ==> z in a {
      SubsetCardinality(b, a - {x});
      assert false;
    }
  }

  // There is only one such list.
  lemma OneList<T(!new)>(xs: seq<T>, ys: seq<T>, ids: set<T>, less: (T, T) -> bool, n: nat)
    requires StrictTotal(less) && ListsFirst(xs, ids, less, n) && ListsFirst(ys, ids, less, n)
    ensures xs == ys
  {
    DistinctCardinality(xs);
    DistinctCardinality(ys);
    SameChoice(xs, ys, ids, less, n);
    SameChoice(ys, xs, ids, less, n);
    assert Elements(xs) == Elements(ys);
    SameElementsSameMultiset(xs, ys);
    SortedUnique(xs, ys, less);
  }

  lemma SameChoice<T(!new)>(xs: seq<T>, ys: seq<T>, ids: set<T>, less: (T, T) -> bool, n: nat)
    requires StrictTotal(less) && ListsFirst(xs, ids, less, n) && ListsFirst(ys, ids, less, n)
    requires |Elements(xs)| == |Elements(ys)|
    ensures Elements(xs) <= Elements(ys)
  {
    hide SortedBy, Distinct;
    forall x | x in xs ensures x in ys {
      if x !in ys { SameSize(Elements(xs), Elements(ys), x); }
    }
  }

  lemma StillFirst<T(!new)>(kept: seq<T>, earlier: set<T>, more: set<T>, xs: seq<T>, less: (T, T) -> bool, n: nat)
    requires StrictTotal(less) && ListsFirst(kept, earlier, less, n) && ListsFirst(xs, Elements(kept) + more, less, n)
    ensures ListsFirst(xs, earlier + more, less, n)
  {
    hide SortedBy, StrictTotal;
    DistinctCardinality(kept);
    DistinctCardinality(xs);
    if |earlier| <= n {
      AllKept(Elements(kept), earlier);
      assert Elements(kept) + more == earlier + more;
    } else {
      SubsetCardinality(Elements(kept), Elements(kept) + more);
      SubsetCardinality(earlier, earlier + more);
      forall x, y | x in xs && y in earlier + more && y !in xs ensures less(x, y) {
        if y !in Elements(kept) + more { NotCutTooSoon(kept, earlier, more, xs, less, n, x, y); }
      }
    }
  }

  lemma AllKept<T>(kept: set<T>, earlier: set<T>)
    requires kept <= earlier && |kept| == |earlier|
    ensures kept == earlier
  {
    if kept != earlier {
      var x :| x in earlier && x !in kept;
      SubsetCardinality(kept, earlier - {x});
    }
  }

  // Something cut comes after everything listed after the merge.
  lemma NotCutTooSoon<T(!new)>(kept: seq<T>, earlier: set<T>, more: set<T>, xs: seq<T>, less: (T, T) -> bool, n: nat, x: T, y: T)
    requires StrictTotal(less) && ListsFirst(kept, earlier, less, n) && ListsFirst(xs, Elements(kept) + more, less, n)
    requires |Elements(kept)| == |Elements(xs)| && x in xs && y in earlier && y !in Elements(kept) + more
    ensures less(x, y)
  {
    hide SortedBy;
    if x in kept {
    } else {
      SameSize(Elements(xs), Elements(kept), x);
      var t :| t in Elements(kept) && t !in Elements(xs);
      assert less(x, t) && less(t, y);
    }
  }

  lemma LatestAreAmong(ids: set<string>)
    ensures ListsFirst(Latest(ids), ids, Later, MAX_POSTS)
    ensures forall k :: 0 <= k < |Latest(ids)| ==> Latest(ids)[k] in ids
  {
    hide Sort, Later, ListsFirst;
    var listed := Orders.Listed(ids);
    LaterIsStrictTotal();
    SortSorts(listed, Later);
    DistinctByMultiset(listed, Sort(listed, Later));
    DistinctCardinality(listed);
    TakeLists(Sort(listed, Later), ids, Later, MAX_POSTS);
  }

  // Cutting before merging loses nothing: what was cut could not have been among the latest.
  lemma CutThenMerge(earlier: set<string>, more: set<string>)
    ensures Latest(Elements(Latest(earlier)) + more) == Latest(earlier + more)
  {
    hide Latest, ListsFirst, Later;
    LaterIsStrictTotal();
    LatestAreAmong(earlier);
    var kept := Latest(earlier);
    LatestAreAmong(Elements(kept) + more);
    LatestAreAmong(earlier + more);
    StillFirst(kept, earlier, more, Latest(Elements(kept) + more), Later, MAX_POSTS);
    OneList(Latest(Elements(kept) + more), Latest(earlier + more), earlier + more, Later, MAX_POSTS);
  }

  // ---------------------------------------------------------------- the whole feed

  lemma {:induction false} UpdatedIs(byId: map<string, Post>, incoming: seq<Post>)
    ensures Updated(byId, incoming).Keys == byId.Keys + ById(incoming).Keys
    ensures forall id :: id in Updated(byId, incoming) ==>
              Updated(byId, incoming)[id] == if id in ById(incoming) then ById(incoming)[id] else byId[id]
    ensures forall id :: id in ById(incoming) ==> ById(incoming)[id].id == id
  {
    if incoming != [] { UpdatedIs(byId, incoming[..|incoming| - 1]); }
  }

  ghost predicate Keyed(byId: map<string, Post>) { forall id :: id in byId ==> byId[id].id == id }

  // Reading a shown list back gives the shown part of the map.
  lemma {:induction false} ShownById(byId: map<string, Post>)
    requires Keyed(byId)
    ensures ById(Shown(byId)).Keys == Elements(Latest(byId.Keys))
    ensures forall id :: id in ById(Shown(byId)) ==> id in byId && ById(Shown(byId))[id] == byId[id]
  {
    hide Latest;
    LatestAreAmong(byId.Keys);
    var ids, posts := Latest(byId.Keys), Shown(byId);
    PostsById(posts, ids, byId);
  }

  lemma {:induction false} PostsById(posts: seq<Post>, ids: seq<string>, byId: map<string, Post>)
    requires Keyed(byId) && |posts| == |ids| && forall k :: 0 <= k < |ids| ==> ids[k] in byId && posts[k] == byId[ids[k]]
    ensures ById(posts).Keys == Elements(ids)
    ensures forall id :: id in ById(posts) ==> id in byId && ById(posts)[id] == byId[id]
  {
    if posts != [] {
      var n := |posts| - 1;
      PostsById(posts[..n], ids[..n], byId);
      assert ids == ids[..n] + [ids[n]];
      ElementsConcat(ids[..n], [ids[n]]);
      ElementsOne(ids[n]);
    }
  }

  lemma SameShown(a: map<string, Post>, b: map<string, Post>)
    requires Latest(a.Keys) == Latest(b.Keys)
    requires forall id :: id in Latest(a.Keys) && id in a && id in b ==> a[id] == b[id]
    ensures Shown(a) == Shown(b)
  {
    hide Latest;
    LatestAreAmong(a.Keys);
    LatestAreAmong(b.Keys);
  }

  // One merge of a feed that shows the latest of what came before shows the latest of everything.
  lemma MergeOfShown(byId: map<string, Post>, incoming: seq<Post>)
    requires Keyed(byId)
    ensures MergePosts(Shown(byId), incoming) == Shown(Updated(byId, incoming)) && Keyed(Updated(byId, incoming))
  {
    hide Latest, Shown;
    ShownById(byId);
    var shown := ById(Shown(byId));
    UpdatedIs(byId, incoming);
    UpdatedIs(shown, incoming);
    var more := ById(incoming).Keys;
    CutThenMerge(byId.Keys, more);
    SameShown(Updated(shown, incoming), Updated(byId, incoming));
  }

  // After any batches the feed shows the fifty latest ids of everything ever received, latest first, each once and in
  // the version that came last.
  lemma {:induction false} FeedShowsTheLatest(batches: seq<seq<Post>>)
    ensures Feed(batches) == Shown(Received(batches)) && Keyed(Received(batches))
  {
    hide MergePosts, Shown;
    if batches == [] {
      NothingShown();
    } else {
      FeedShowsTheLatest(batches[..|batches| - 1]);
      MergeOfShown(Received(batches[..|batches| - 1]), batches[|batches| - 1]);
    }
  }

  lemma NothingShown()
    ensures Shown(map[]) == []
  {
    LatestAreAmong({});
    var none: map<string, Post> := map[];
    assert none.Keys == {};
  }

  ghost function Everything(batches: seq<seq<Post>>): set<Post> { set b, p | b in batches && p in b :: p }

  // When posts never change, the feed depends only on which posts arrived, not on when or in what batches.
  lemma ArrivalOrderDoesNotMatter(batches: seq<seq<Post>>, others: seq<seq<Post>>)
    requires Everything(batches) == Everything(others)
    requires forall p, q :: p in Everything(batches) && q in Everything(batches) && p.id == q.id ==> p == q
    ensures Feed(batches) == Feed(others)
  {
    hide Feed, Shown;
    FeedShowsTheLatest(batches);
    FeedShowsTheLatest(others);
    ReceivedIsEverything(batches);
    ReceivedIsEverything(others);
    var a, b := Received(batches), Received(others);
    forall id | id in a ensures id in b && a[id] == b[id] { SameArrivals(batches, others, id); }
    forall id | id in b ensures id in a { SameArrivals(others, batches, id); }
    assert a == b;
  }

  lemma SameArrivals(batches: seq<seq<Post>>, others: seq<seq<Post>>, id: string)
    requires Everything(batches) == Everything(others) && id in Received(batches)
    requires forall p, q :: p in Everything(batches) && q in Everything(batches) && p.id == q.id ==> p == q
    ensures id in Received(others) && Received(others)[id] == Received(batches)[id]
  {
    hide Received, Everything;
    ReceivedIsEverything(batches);
    ReceivedIsEverything(others);
    var p := Received(batches)[id];
    assert p in Everything(others) && p.id == id;
  }

  lemma {:induction false} ReceivedIsEverything(batches: seq<seq<Post>>)
    ensures forall id :: id in Received(batches) ==> Received(batches)[id] in Everything(batches) && Received(batches)[id].id == id
    ensures forall p :: p in Everything(batches) ==> p.id in Received(batches)
  {
    if batches != [] {
      var init, last := batches[..|batches| - 1], batches[|batches| - 1];
      ReceivedIsEverything(init);
      UpdatedIs(Received(init), last);
      BatchById(last);
      forall p ensures p in Everything(batches) <==> p in Everything(init) || p in last {
        assert forall b :: b in batches <==> b in init || b == last;
      }
    }
  }

  lemma {:induction false} BatchById(batch: seq<Post>)
    ensures forall id :: id in ById(batch) ==> ById(batch)[id] in batch
    ensures forall p :: p in batch ==> p.id in ById(batch)
  {
    if batch != [] {
      var init, last := batch[..|batch| - 1], batch[|batch| - 1];
      BatchById(init);
      assert forall p :: p in batch <==> p in init || p == last;
      assert ById(batch) == ById(init)[last.id := last];
    }
  }

  // ---------------------------------------------------------------- the feed, post by post

  // All posts received, in the order they came.
  function Arrivals(batches: seq<seq<Post>>): seq<Post> {
    if batches == [] then [] else Arrivals(batches[..|batches| - 1]) + batches[|batches| - 1]
  }

  // The k-th arrival, and nothing with its id after it.
  ghost predicate IsLastVersion(arrivals: seq<Post>, k: nat, p: Post) {
    k < |arrivals| && arrivals[k] == p && forall j :: k < j < |arrivals| ==> arrivals[j].id != p.id
  }

  ghost predicate LastVersion(arrivals: seq<Post>, p: Post) { exists k: nat :: IsLastVersion(arrivals, k, p) }

  lemma {:induction false} UpdatedConcat(byId: map<string, Post>, a: seq<Post>, b: seq<Post>)
    ensures Updated(byId, a + b) == Updated(Updated(byId, a), b)
  {
    if b == [] {
      assert a + b == a;
    } else {
      assert (a + b)[..|a + b| - 1] == a + b[..|b| - 1];
      UpdatedConcat(byId, a, b[..|b| - 1]);
    }
  }

  lemma {:induction false} ReceivedIsArrivals(batches: seq<seq<Post>>)
    ensures Received(batches) == ById(Arrivals(batches))
  {
    if batches != [] {
      ReceivedIsArrivals(batches[..|batches| - 1]);
      UpdatedConcat(map[], Arrivals(batches[..|batches| - 1]), batches[|batches| - 1]);
    }
  }

  lemma {:induction false} ByIdIsLastVersion(arrivals: seq<Post>)
    ensures forall p: Post :: p.id in ById(arrivals) && ById(arrivals)[p.id] == p <==> LastVersion(arrivals, p)
    ensures forall p :: p in arrivals ==> p.id in ById(arrivals)
    ensures forall id :: id in ById(arrivals) ==> ById(arrivals)[id].id == id
  {
    BatchById(arrivals);
    UpdatedIs(map[], arrivals);
    forall p: Post ensures p.id in ById(arrivals) && ById(arrivals)[p.id] == p <==> LastVersion(arrivals, p) {
      LastVersionFound(arrivals, p);
    }
  }

  lemma {:induction false} LastVersionFound(arrivals: seq<Post>, p: Post)
    ensures p.id in ById(arrivals) && ById(arrivals)[p.id] == p <==> LastVersion(arrivals, p)
  {
    if arrivals != [] {
      var init, last := arrivals[..|arrivals| - 1], arrivals[|arrivals| - 1];
      LastVersionFound(init, p);
      assert ById(arrivals) == ById(init)[last.id := last];
      if last == p {
        assert IsLastVersion(arrivals, |init|, p);
      } else if last.id != p.id && LastVersion(init, p) {
        var k: nat :| IsLastVersion(init, k, p);
        assert IsLastVersion(arrivals, k, p);
      } else if LastVersion(arrivals, p) {
        var k: nat :| IsLastVersion(arrivals, k, p);
        assert arrivals[|init|] == last;
        assert k < |init| && IsLastVersion(init, k, p);
      }
    }
  }

  // The feed shows posts in the version that came last, in descending order of their ids, and leaves something out only
  // when fifty posts with greater ids are shown.
  lemma FeedIsTheFiftyGreatestIds(batches: seq<seq<Post>>)
    ensures var feed, arrivals := Feed(batches), Arrivals(batches);
            && |feed| <= 50
            && (forall p :: p in feed ==> LastVersion(arrivals, p))
            && (forall i, j :: 0 <= i < j < |feed| ==> StringLess(feed[j].id, feed[i].id))
            && forall p :: LastVersion(arrivals, p) && p !in feed ==>
                 |feed| == 50 && forall i :: 0 <= i < 50 ==> StringLess(p.id, feed[i].id)
  {
    hide Feed, Latest, Received, LastVersion, StringLess, ById, ListsFirst;
    var byId, arrivals := Received(batches), Arrivals(batches);
    FeedShowsTheLatest(batches);
    ReceivedIsArrivals(batches);
    ByIdIsLastVersion(arrivals);
    LatestAreAmong(byId.Keys);
    var ids := Latest(byId.Keys);
    LatestInOrder(ids, byId.Keys);
    var feed := Feed(batches);
    forall p | LastVersion(arrivals, p) && p !in feed ensures |feed| == 50 && forall i :: 0 <= i < 50 ==> StringLess(p.id, feed[i].id) {
      forall i | 0 <= i < |ids| ensures ids[i] != p.id {
        assert feed[i] == byId[ids[i]];
      }
    }
  }

  lemma LatestInOrder(xs: seq<string>, ids: set<string>)
    requires ListsFirst(xs, ids, Later, MAX_POSTS)
    ensures |xs| <= 50 && forall i, j :: 0 <= i < j < |xs| ==> StringLess(xs[j], xs[i])
    ensures forall y :: y in ids && y !in xs ==> |xs| == 50 && forall i :: 0 <= i < |xs| ==> StringLess(y, xs[i])
  {
    hide StringLess;
    LaterIsStrictTotal();
    DistinctCardinality(xs);
    forall i, j | 0 <= i < j < |xs| ensures StringLess(xs[j], xs[i]) {
      assert !Later(xs[j], xs[i]) && xs[i] != xs[j];
    }
    forall y | y in ids && y !in xs ensures |xs| == 50 && forall i :: 0 <= i < |xs| ==> StringLess(y, xs[i]) {
      if |xs| == |ids| {
        SubsetCardinality(Elements(xs), ids - {y});
      }
      forall i | 0 <= i < |xs| ensures StringLess(y, xs[i]) {
        assert Later(xs[i], y);
      }
    }
  }

  // ---------------------------------------------------------------- the function of the web client

  method Merge(prev: seq<Post>, incoming: seq<Post>) returns (posts: seq<Post>)
    ensures posts == MergePosts(prev, incoming)
  {
    var byId: map<string, Post> := map[];
    for i := 0 to |prev|
      invariant byId == Updated(map[], prev[..i])
    {
      assert prev[..i + 1][..i] == prev[..i];
      byId := byId[prev[i].id := prev[i]];
    }
    assert prev[..|prev|] == prev;
    for i := 0 to |incoming|
      invariant byId == Updated(ById(prev), incoming[..i])
    {
      assert incoming[..i + 1][..i] == incoming[..i];
      byId := byId[incoming[i].id := incoming[i]];
    }
    assert incoming[..|incoming|] == incoming;
    posts := ShowLatest(byId);
  }

  // Sorts the ids, latest first, cuts, and looks the posts up.
  method ShowLatest(byId: map<string, Post>) returns (posts: seq<Post>)
    ensures posts == Shown(byId)
  {
    hide Latest, Later, Sort;
    LatestAreAmong(byId.Keys);
    var ids := SortLatest(byId.Keys);
    posts := [];
    for k := 0 to |ids|
      invariant |posts| == k && forall j :: 0 <= j < k ==> posts[j] == byId[ids[j]]
    {
      posts := posts + [byId[ids[k]]];
    }
  }

  method SortLatest(ids: set<string>) returns (xs: seq<string>)
    ensures xs == Latest(ids)
  {
    hide Later, Sort;
    xs := SortKeys(ids);
    SortedSetElements(ids);
    SameElementsSameMultiset(xs, Orders.Listed(ids));
    LaterIsStrictTotal();
    SortIgnoresOrder(xs, Orders.Listed(ids), Later);
    xs := Take(Sort(xs, Later), MAX_POSTS);
  }
}
