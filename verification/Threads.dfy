// Comments of a post, threaded one level deep.
//
// A reply stands under the root of its chain. Chains that run into a cycle of several comments have no root, and
// are left out.
module Threads {
  import opened Prelude

  // An absent event id or reply link is empty.
  datatype Comment = Comment(eventId: string, inReplyTo: string, body: string)
  datatype Row = Row(comment: Comment, index: nat, depth: nat)

  // The last comment with an event id carries it.
  function IndexOf(cs: seq<Comment>, id: string): Option<nat> {
    if cs == [] then None
    else if cs[|cs| - 1].eventId == id then Some(|cs| - 1) else IndexOf(cs[..|cs| - 1], id)
  }

  lemma {:induction false} IndexOfIsLast(cs: seq<Comment>, id: string)
    ensures var at := IndexOf(cs, id);
            && (at.Some? ==> at.value < |cs| && cs[at.value].eventId == id)
            && forall i :: (if at.Some? then at.value + 1 else 0) <= i < |cs| ==> cs[i].eventId != id
  {
    if cs != [] { IndexOfIsLast(cs[..|cs| - 1], id); }
  }

  // The comment a comment answers, if it answers one of the list.
  function Parent(cs: seq<Comment>, post: string, i: nat): (p: Option<nat>)
    requires i < |cs|
    ensures p.Some? ==> p.value < |cs|
  {
    IndexOfIsLast(cs, cs[i].inReplyTo);
    var target := cs[i].inReplyTo;
    if target == "" || target == post then None else IndexOf(cs, target)
  }

  ghost function Indices(n: nat): (r: set<nat>)
    ensures forall i :: i in r <==> 0 <= i < n
    ensures |r| == n
  {
    if n == 0 then {} else Indices(n - 1) + {n - 1}
  }

  lemma SeenAtMost(seen: set<nat>, n: nat)
    requires seen <= Indices(n)
    ensures |seen| <= n
  {
    SubsetCardinality(seen, Indices(n));
  }

  // Walks up from `at` until there is no parent, or one that was already passed.
  function Climb(cs: seq<Comment>, post: string, at: nat, seen: set<nat>): (r: (nat, set<nat>))
    requires at < |cs| && at in seen && seen <= Indices(|cs|)
    ensures r.0 < |cs| && r.0 in r.1 && seen <= r.1 <= Indices(|cs|)
    ensures Parent(cs, post, r.0).None? || Parent(cs, post, r.0).value in r.1
    ensures r.0 == at || r.0 !in seen
    decreases |cs| - |seen|
  {
    var p := Parent(cs, post, at);
    SeenAtMost(seen, |cs|);
    if p.None? || p.value in seen then (at, seen)
    else
      SeenAtMost(seen + {p.value}, |cs|);
      Climb(cs, post, p.value, seen + {p.value})
  }

  function RootOf(cs: seq<Comment>, post: string, i: nat): (r: nat)
    requires i < |cs|
    ensures r < |cs|
  {
    Climb(cs, post, i, {i}).0
  }

  // ---------------------------------------------------------------- the threads

  function Tops(cs: seq<Comment>, post: string, n: nat): (r: seq<nat>)
    requires n <= |cs|
    ensures forall k :: 0 <= k < |r| ==> r[k] < n
  {
    if n == 0 then []
    else
      var before := Tops(cs, post, n - 1);
      if RootOf(cs, post, n - 1) == n - 1 then before + [n - 1] else before
  }

  function Replies(cs: seq<Comment>, post: string, root: nat, n: nat): (r: seq<nat>)
    requires n <= |cs|
    ensures forall k :: 0 <= k < |r| ==> r[k] < n
  {
    if n == 0 then []
    else
      var before := Replies(cs, post, root, n - 1);
      if RootOf(cs, post, n - 1) == root != n - 1 then before + [n - 1] else before
  }

  function RepliesRows(cs: seq<Comment>, replies: seq<nat>): (r: seq<Row>)
    requires forall k :: 0 <= k < |replies| ==> replies[k] < |cs|
    ensures |r| == |replies| && forall k :: 0 <= k < |r| ==> r[k] == Row(cs[replies[k]], replies[k], 1)
  {
    seq(|replies|, k requires 0 <= k < |replies| => Row(cs[replies[k]], replies[k], 1))
  }

  function Thread(cs: seq<Comment>, post: string, top: nat): seq<Row>
    requires top < |cs|
  {
    [Row(cs[top], top, 0)] + RepliesRows(cs, Replies(cs, post, top, |cs|))
  }

  function Threaded(cs: seq<Comment>, post: string, tops: seq<nat>): seq<Row>
    requires forall k :: 0 <= k < |tops| ==> tops[k] < |cs|
  {
    if tops == [] then [] else Threaded(cs, post, tops[..|tops| - 1]) + Thread(cs, post, tops[|tops| - 1])
  }

  // ---------------------------------------------------------------- chains of replies

  function Ancestor(cs: seq<Comment>, post: string, i: nat, n: nat): (a: Option<nat>)
    requires i < |cs|
    ensures a.Some? ==> a.value < |cs|
    decreases n
  {
    if n == 0 then Some(i)
    else
      var p := Parent(cs, post, i);
      if p.None? then None else Ancestor(cs, post, p.value, n - 1)
  }

  // A chain ends at a comment that answers none of the others.
  ghost predicate Ends(cs: seq<Comment>, post: string, x: nat)
    requires x < |cs|
  {
    Parent(cs, post, x).None? || Parent(cs, post, x).value == x
  }

  // A comment that answers, through at least one other, itself.
  ghost predicate OnLongCycle(cs: seq<Comment>, post: string, x: nat)
    requires x < |cs|
  {
    !Ends(cs, post, x) && exists n :: n > 0 && Ancestor(cs, post, x, n) == Some(x)
  }

  ghost predicate EntersLongCycle(cs: seq<Comment>, post: string, i: nat)
    requires i < |cs|
  {
    exists n, x :: 0 <= x < |cs| && Ancestor(cs, post, i, n) == Some(x) && OnLongCycle(cs, post, x)
  }

  ghost predicate Settles(cs: seq<Comment>, post: string, i: nat)
    requires i < |cs|
  {
    exists n, x :: 0 <= x < |cs| && Ancestor(cs, post, i, n) == Some(x) && Ends(cs, post, x)
  }

  lemma {:induction false} AncestorsCompose(cs: seq<Comment>, post: string, i: nat, m: nat, n: nat)
    requires i < |cs| && Ancestor(cs, post, i, m).Some?
    ensures Ancestor(cs, post, i, m + n) == Ancestor(cs, post, Ancestor(cs, post, i, m).value, n)
    decreases m
  {
    if m > 0 { AncestorsCompose(cs, post, Parent(cs, post, i).value, m - 1, n); }
  }

  // What the climb has passed leads to where it stands, without ending on the way.
  ghost predicate OnTheWay(cs: seq<Comment>, post: string, at: nat, seen: set<nat>)
    requires at < |cs| && seen <= Indices(|cs|)
  {
    && (forall x :: x in seen ==> exists n :: Ancestor(cs, post, x, n) == Some(at))
    && forall x :: x in seen && x != at ==> !Ends(cs, post, x) && Parent(cs, post, x).value in seen
  }

  lemma StillOnTheWay(cs: seq<Comment>, post: string, at: nat, seen: set<nat>)
    requires at < |cs| && at in seen && seen <= Indices(|cs|) && OnTheWay(cs, post, at, seen)
    requires Parent(cs, post, at).Some? && Parent(cs, post, at).value !in seen
    ensures OnTheWay(cs, post, Parent(cs, post, at).value, seen + {Parent(cs, post, at).value})
  {
    hide Parent, Indices;
    var p := Parent(cs, post, at).value;
    forall x | x in seen + {p} ensures exists n :: 0 <= x < |cs| && Ancestor(cs, post, x, n) == Some(p) {
      assert 0 <= x < |cs|;
      if x == p {
        assert Ancestor(cs, post, p, 0) == Some(p);
      } else {
        var n: nat :| Ancestor(cs, post, x, n) == Some(at);
        AncestorsCompose(cs, post, x, n, 1);
        assert Ancestor(cs, post, p, 0) == Some(p);
        assert Ancestor(cs, post, x, n + 1) == Some(p);
      }
    }
  }

  // Where a climb stops: either its chain ends there, or everything it passed goes round for ever.
  lemma {:induction false} ClimbStops(cs: seq<Comment>, post: string, at: nat, seen: set<nat>)
    requires at < |cs| && at in seen && seen <= Indices(|cs|) && OnTheWay(cs, post, at, seen)
    ensures var (root, passed) := Climb(cs, post, at, seen); OnTheWay(cs, post, root, passed)
    decreases |cs| - |seen|
  {
    hide Parent, OnTheWay;
    var p := Parent(cs, post, at);
    SeenAtMost(seen, |cs|);
    if p.Some? && p.value !in seen {
      SeenAtMost(seen + {p.value}, |cs|);
      StillOnTheWay(cs, post, at, seen);
      ClimbStops(cs, post, p.value, seen + {p.value});
    }
  }

  lemma {:induction false} TopsAre(cs: seq<Comment>, post: string, n: nat)
    requires n <= |cs|
    ensures var r := Tops(cs, post, n);
            Increasing(r) && forall i :: i in r <==> 0 <= i < n && RootOf(cs, post, i) == i
  {
    hide RootOf;
    if n > 0 { TopsAre(cs, post, n - 1); }
  }

  lemma {:induction false} RepliesAre(cs: seq<Comment>, post: string, root: nat, n: nat)
    requires n <= |cs|
    ensures var r := Replies(cs, post, root, n);
            Increasing(r) && forall i :: i in r <==> 0 <= i < n && RootOf(cs, post, i) == root != i
  {
    hide RootOf;
    if n > 0 { RepliesAre(cs, post, root, n - 1); }
  }

  // A comment is a top exactly when its chain ends at itself.
  lemma TopExactlyWhenItEnds(cs: seq<Comment>, post: string, i: nat)
    requires i < |cs|
    ensures RootOf(cs, post, i) == i <==> Ends(cs, post, i)
  {
    hide Parent, Indices;
  }

  // A comment's chain settles exactly when its root is a top; otherwise it runs into a cycle of several comments.
  lemma RootsTell(cs: seq<Comment>, post: string, i: nat)
    requires i < |cs|
    ensures var root := RootOf(cs, post, i);
            && (RootOf(cs, post, root) == root ==> Settles(cs, post, i))
            && (RootOf(cs, post, root) != root ==> EntersLongCycle(cs, post, i))
  {
    hide Parent, Indices, Climb, RootOf;
    assert Ancestor(cs, post, i, 0) == Some(i);
    assert OnTheWay(cs, post, i, {i});
    ClimbStops(cs, post, i, {i});
    var (root, passed) := Climb(cs, post, i, {i});
    assert RootOf(cs, post, i) == root by { RootIsClimb(cs, post, i); }
    var n: nat :| Ancestor(cs, post, i, n) == Some(root);
    TopExactlyWhenItEnds(cs, post, root);
    if !Ends(cs, post, root) {
      var p := Parent(cs, post, root).value;
      var m: nat :| Ancestor(cs, post, p, m) == Some(root);
      assert Ancestor(cs, post, root, m + 1) == Some(root);
    }
  }

  lemma RootIsClimb(cs: seq<Comment>, post: string, i: nat)
    requires i < |cs|
    ensures RootOf(cs, post, i) == Climb(cs, post, i, {i}).0
  {
  }

  lemma {:induction false} EndsForGood(cs: seq<Comment>, post: string, x: nat, n: nat)
    requires x < |cs| && Ends(cs, post, x)
    ensures Ancestor(cs, post, x, n).Some? ==> Ancestor(cs, post, x, n).value == x && (n > 0 ==> Parent(cs, post, x) == Some(x))
    decreases n
  {
    hide Parent;
    if n > 0 && Parent(cs, post, x).Some? { EndsForGood(cs, post, x, n - 1); }
  }

  lemma {:induction false} RoundAndRound(cs: seq<Comment>, post: string, x: nat, n: nat, k: nat)
    requires x < |cs| && Ancestor(cs, post, x, n) == Some(x)
    ensures Ancestor(cs, post, x, k * n) == Some(x)
    decreases k
  {
    hide Parent;
    if k > 0 {
      RoundAndRound(cs, post, x, n, k - 1);
      AncestorsCompose(cs, post, x, (k - 1) * n, n);
      assert k * n == (k - 1) * n + n;
    }
  }

  lemma SettlesOrCycles(cs: seq<Comment>, post: string, i: nat)
    requires i < |cs|
    ensures Settles(cs, post, i) <==> !EntersLongCycle(cs, post, i)
  {
    hide Parent, RootOf, Ends, Ancestor;
    RootsTell(cs, post, i);
    if Settles(cs, post, i) && EntersLongCycle(cs, post, i) {
      var k: nat, t: nat :| t < |cs| && Ancestor(cs, post, i, k) == Some(t) && Ends(cs, post, t);
      var j: nat, x: nat :| x < |cs| && Ancestor(cs, post, i, j) == Some(x) && OnLongCycle(cs, post, x);
      CycleNeverEnds(cs, post, i, k, t, j, x);
    }
  }

  lemma CycleNeverEnds(cs: seq<Comment>, post: string, i: nat, k: nat, t: nat, j: nat, x: nat)
    requires i < |cs| && t < |cs| && x < |cs|
    requires Ancestor(cs, post, i, k) == Some(t) && Ends(cs, post, t)
    requires Ancestor(cs, post, i, j) == Some(x)
    ensures !OnLongCycle(cs, post, x)
  {
    hide Parent, Ends, Ancestor;
    if OnLongCycle(cs, post, x) {
      var n: nat :| n > 0 && Ancestor(cs, post, x, n) == Some(x);
      var far := FarEnough(cs, post, x, n, k);
      AncestorsCompose(cs, post, i, j, far);
      AncestorsCompose(cs, post, i, k, j + far - k);
      assert k + (j + far - k) == j + far;
      EndsForGood(cs, post, t, j + far - k);
    }
  }

  lemma FarEnough(cs: seq<Comment>, post: string, x: nat, n: nat, k: nat) returns (far: nat)
    requires x < |cs| && n > 0 && Ancestor(cs, post, x, n) == Some(x)
    ensures far >= k && Ancestor(cs, post, x, far) == Some(x)
  {
    hide Parent, Ancestor;
    RoundAndRound(cs, post, x, n, k);
    far := k * n;
    assert k * n >= k;
  }

  // ---------------------------------------------------------------- the list shown

  function Places(rows: seq<Row>): (r: seq<nat>)
    ensures |r| == |rows| && forall k :: 0 <= k < |r| ==> r[k] == rows[k].index
  {
    seq(|rows|, k requires 0 <= k < |rows| => rows[k].index)
  }

  // The rows show each of the comments under the given tops once.
  ghost predicate ShowsOnce(cs: seq<Comment>, post: string, rows: seq<Row>, tops: seq<nat>) {
    && (forall k :: 0 <= k < |rows| ==> rows[k].index < |cs| && rows[k].comment == cs[rows[k].index])
    && Distinct(Places(rows))
    && forall i :: i in Places(rows) <==> 0 <= i < |cs| && RootOf(cs, post, i) in tops
  }

  lemma OneThread(cs: seq<Comment>, post: string, top: nat)
    requires top < |cs| && RootOf(cs, post, top) == top
    ensures ShowsOnce(cs, post, Thread(cs, post, top), [top])
  {
    hide RootOf, Replies;
    RepliesAre(cs, post, top, |cs|);
    var replies := Replies(cs, post, top, |cs|);
    assert Places(Thread(cs, post, top)) == [top] + replies;
    forall i ensures i in Places(Thread(cs, post, top)) <==> 0 <= i < |cs| && RootOf(cs, post, i) in [top] {
      assert i in [top] + replies <==> i == top || i in replies;
    }
  }

  lemma {:induction false} ThreadsShowOnce(cs: seq<Comment>, post: string, tops: seq<nat>)
    requires Increasing(tops) && forall k :: 0 <= k < |tops| ==> tops[k] < |cs| && RootOf(cs, post, tops[k]) == tops[k]
    ensures ShowsOnce(cs, post, Threaded(cs, post, tops), tops)
  {
    hide RootOf, Thread;
    if tops != [] {
      var init, top := tops[..|tops| - 1], tops[|tops| - 1];
      ThreadsShowOnce(cs, post, init);
      OneThread(cs, post, top);
      ShownTogether(cs, post, Threaded(cs, post, init), init, Thread(cs, post, top), top);
      assert init + [top] == tops;
    }
  }

  lemma ShownTogether(cs: seq<Comment>, post: string, rows: seq<Row>, tops: seq<nat>, thread: seq<Row>, top: nat)
    requires ShowsOnce(cs, post, rows, tops) && ShowsOnce(cs, post, thread, [top]) && top !in tops
    ensures ShowsOnce(cs, post, rows + thread, tops + [top])
  {
    hide RootOf;
    var a, b := Places(rows), Places(thread);
    assert Places(rows + thread) == a + b;
    assert forall i :: i in a ==> RootOf(cs, post, i) in tops;
    assert forall i :: i in b ==> RootOf(cs, post, i) == top;
    forall i, j | 0 <= i < j < |a + b| ensures (a + b)[i] != (a + b)[j] {
      if i < |a| <= j { assert a[i] in a && b[j - |a|] in b; }
    }
    assert forall i :: i in a + b <==> i in a || i in b;
  }

  function ThreadComments(cs: seq<Comment>, post: string): seq<Row> { Threaded(cs, post, Tops(cs, post, |cs|)) }

  // Every comment is shown at most once, and the comments left out are exactly those whose chain of replies runs
  // into a cycle of several comments.
  lemma LeftOutExactlyTheCycles(cs: seq<Comment>, post: string)
    ensures var rows := ThreadComments(cs, post);
            && (forall k :: 0 <= k < |rows| ==> rows[k].index < |cs| && rows[k].comment == cs[rows[k].index])
            && Distinct(Places(rows))
            && forall i :: 0 <= i < |cs| ==> (i !in Places(rows) <==> EntersLongCycle(cs, post, i))
  {
    hide RootOf, Threaded, Tops, EntersLongCycle, Settles;
    TopsAre(cs, post, |cs|);
    var tops := Tops(cs, post, |cs|);
    assert forall k :: 0 <= k < |tops| ==> tops[k] in tops;
    ThreadsShowOnce(cs, post, tops);
    forall i | 0 <= i < |cs| ensures i !in Places(ThreadComments(cs, post)) <==> EntersLongCycle(cs, post, i) {
      RootsTell(cs, post, i);
      SettlesOrCycles(cs, post, i);
    }
  }

  // Without such cycles the list shown is a permutation of the comments.
  lemma NothingLostWithoutCycles(cs: seq<Comment>, post: string)
    requires forall i :: 0 <= i < |cs| ==> !EntersLongCycle(cs, post, i)
    ensures |ThreadComments(cs, post)| == |cs|
    ensures Elements(Places(ThreadComments(cs, post))) == Indices(|cs|)
  {
    hide EntersLongCycle, ThreadComments;
    LeftOutExactlyTheCycles(cs, post);
    var places := Places(ThreadComments(cs, post));
    DistinctCardinality(places);
    assert forall k :: 0 <= k < |places| ==> 0 <= places[k] < |cs|;
    assert Elements(places) == Indices(|cs|);
  }

  // The rows come in blocks: a top, then in order the comments whose chain leads to it, tops themselves in order.
  ghost predicate Blocks(cs: seq<Comment>, post: string, rows: seq<Row>) {
    && (forall k :: 0 <= k < |rows| ==> rows[k].index < |cs|)
    && (forall k :: 0 <= k < |rows| ==> rows[k].depth == if RootOf(cs, post, rows[k].index) == rows[k].index then 0 else 1)
    && forall a, b :: 0 <= a < b < |rows| ==>
         var ra, rb := RootOf(cs, post, rows[a].index), RootOf(cs, post, rows[b].index);
         ra < rb || (ra == rb && (rows[a].index == ra || (rows[a].index < rows[b].index && rows[b].index != rb)))
  }

  lemma OneBlock(cs: seq<Comment>, post: string, top: nat)
    requires top < |cs| && RootOf(cs, post, top) == top
    ensures Blocks(cs, post, Thread(cs, post, top))
    ensures forall k :: 0 <= k < |Thread(cs, post, top)| ==> RootOf(cs, post, Thread(cs, post, top)[k].index) == top
  {
    hide RootOf, Replies;
    RepliesAre(cs, post, top, |cs|);
    var replies := Replies(cs, post, top, |cs|);
    assert forall k :: 0 <= k < |replies| ==> replies[k] in replies;
  }

  lemma {:induction false} InBlocks(cs: seq<Comment>, post: string, tops: seq<nat>)
    requires Increasing(tops) && forall k :: 0 <= k < |tops| ==> tops[k] < |cs| && RootOf(cs, post, tops[k]) == tops[k]
    ensures Blocks(cs, post, Threaded(cs, post, tops))
    ensures forall k :: 0 <= k < |Threaded(cs, post, tops)| ==>
              RootOf(cs, post, Threaded(cs, post, tops)[k].index) in tops
  {
    hide RootOf, Thread, Blocks;
    if tops == [] {
      NoBlocks(cs, post);
    } else {
      var init, top := tops[..|tops| - 1], tops[|tops| - 1];
      InBlocks(cs, post, init);
      OneBlock(cs, post, top);
      assert tops == init + [top];
      BlocksTogether(cs, post, Threaded(cs, post, init), init, Thread(cs, post, top), top);
    }
  }

  lemma NoBlocks(cs: seq<Comment>, post: string)
    ensures Blocks(cs, post, [])
  {
  }

  lemma BlocksTogether(cs: seq<Comment>, post: string, rows: seq<Row>, tops: seq<nat>, thread: seq<Row>, top: nat)
    requires Blocks(cs, post, rows) && Blocks(cs, post, thread) && forall t :: t in tops ==> t < top
    requires forall k :: 0 <= k < |rows| ==> RootOf(cs, post, rows[k].index) in tops
    requires forall k :: 0 <= k < |thread| ==> RootOf(cs, post, thread[k].index) == top
    ensures Blocks(cs, post, rows + thread)
    ensures forall k :: 0 <= k < |rows + thread| ==> RootOf(cs, post, (rows + thread)[k].index) in tops + [top]
  {
    hide RootOf;
    var all := rows + thread;
    assert forall k :: |rows| <= k < |all| ==> all[k] == thread[k - |rows|];
  }

  // Every reply shown follows its own root, in the order of the original list.
  lemma RepliesFollowTheirRoot(cs: seq<Comment>, post: string)
    ensures Blocks(cs, post, ThreadComments(cs, post))
  {
    hide RootOf, Threaded, Tops, Blocks;
    TopsAre(cs, post, |cs|);
    var tops := Tops(cs, post, |cs|);
    assert forall k :: 0 <= k < |tops| ==> tops[k] in tops;
    InBlocks(cs, post, tops);
  }

  // ---------------------------------------------------------------- the function of the web client

  method FindRoot(cs: seq<Comment>, post: string, byEventId: map<string, nat>, start: nat) returns (at: nat)
    requires start < |cs|
    requires forall id :: (if id in byEventId then Some(byEventId[id]) else None) == if id == "" then None else IndexOf(cs, id)
    ensures at == RootOf(cs, post, start)
  {
    at := start;
    var seen := {at};
    while true
      invariant at < |cs| && at in seen && seen <= Indices(|cs|)
      invariant Climb(cs, post, at, seen).0 == RootOf(cs, post, start)
      decreases |cs| - |seen|
    {
      SeenAtMost(seen, |cs|);
      var target := cs[at].inReplyTo;
      if target == "" || target == post {
        return;
      }
      if target !in byEventId || byEventId[target] in seen {
        return;
      }
      var parent := byEventId[target];
      assert Parent(cs, post, at) == Some(parent);
      SeenAtMost(seen + {parent}, |cs|);
      seen := seen + {parent};
      at := parent;
    }
  }

  // The map from event ids to positions, the last one with an id winning.
  method EventIndex(cs: seq<Comment>) returns (byEventId: map<string, nat>)
    ensures forall id :: (if id in byEventId then Some(byEventId[id]) else None) == if id == "" then None else IndexOf(cs, id)
  {
    byEventId := map[];
    for i := 0 to |cs|
      invariant forall id :: (if id in byEventId then Some(byEventId[id]) else None)
                             == if id == "" then None else IndexOf(cs[..i], id)
    {
      assert cs[..i + 1][..i] == cs[..i];
      if cs[i].eventId != "" {
        byEventId := byEventId[cs[i].eventId := i];
      }
    }
    assert cs[..|cs|] == cs;
  }

  // Sorts the comments into tops and the replies under every root.
  method Group(cs: seq<Comment>, post: string) returns (tops: seq<nat>, repliesByRoot: map<nat, seq<nat>>)
    ensures tops == Tops(cs, post, |cs|)
    ensures forall r :: (if r in repliesByRoot then repliesByRoot[r] else []) == Replies(cs, post, r, |cs|)
  {
    hide RootOf, Climb, IndexOf;
    var byEventId := EventIndex(cs);
    tops, repliesByRoot := [], map[];
    for i := 0 to |cs|
      invariant tops == Tops(cs, post, i)
      invariant forall r :: (if r in repliesByRoot then repliesByRoot[r] else []) == Replies(cs, post, r, i)
    {
      var root := FindRoot(cs, post, byEventId, i);
      if root == i {
        tops := tops + [i];
      } else if root in repliesByRoot {
        repliesByRoot := repliesByRoot[root := repliesByRoot[root] + [i]];
      } else {
        repliesByRoot := repliesByRoot[root := [i]];
      }
    }
  }

  method ThreadList(cs: seq<Comment>, post: string) returns (rows: seq<Row>)
    ensures rows == ThreadComments(cs, post)
  {
    hide RootOf, Climb, Replies, Tops;
    var tops, repliesByRoot := Group(cs, post);
    rows := [];
    for k := 0 to |tops|
      invariant rows == Threaded(cs, post, tops[..k])
    {
      assert tops[..k + 1][..k] == tops[..k];
      var top := tops[k];
      var replies := if top in repliesByRoot then repliesByRoot[top] else [];
      rows := rows + ([Row(cs[top], top, 0)] + RepliesRows(cs, replies));
    }
    assert tops[..|tops|] == tops;
  }
}
