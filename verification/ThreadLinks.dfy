// Threads read off the links of the comments.
module ThreadLinks {
  import opened Prelude
  import opened Threads

  // Answers, chains and circles are defined on event ids and reply links alone; every row of the list is placed by them.

  // A link that names another comment. Of several comments with one id the last is meant; the post itself is no comment.
  ghost predicate Answers(cs: seq<Comment>, post: string, i: nat, j: nat) {
    && i < |cs| && j < |cs| && cs[i].inReplyTo == cs[j].eventId
    && cs[i].inReplyTo != "" && cs[i].inReplyTo != post
    && forall k :: j < k < |cs| ==> cs[k].eventId != cs[j].eventId
  }

  // Comments, each answering the next.
  ghost predicate Chain(cs: seq<Comment>, post: string, path: seq<nat>) {
    path != [] && path[0] < |cs| && forall k :: 0 <= k < |path| - 1 ==> Answers(cs, post, path[k], path[k + 1])
  }

  ghost predicate ChainFrom(cs: seq<Comment>, post: string, path: seq<nat>, i: nat, j: nat) {
    Chain(cs, post, path) && path[0] == i && path[|path| - 1] == j
  }

  ghost predicate LeadsTo(cs: seq<Comment>, post: string, i: nat, j: nat) {
    exists path: seq<nat> :: ChainFrom(cs, post, path, i, j)
  }

  // A chain that comes back to a comment which answers another one.
  ghost predicate Circle(cs: seq<Comment>, post: string, path: seq<nat>, i: nat, a: nat, b: nat) {
    Chain(cs, post, path) && path[0] == i && a < b < |path| && path[a] == path[b] && path[a + 1] != path[a]
  }

  ghost predicate Circles(cs: seq<Comment>, post: string, i: nat) {
    exists path: seq<nat>, a: nat, b: nat :: Circle(cs, post, path, i, a, b)
  }

  // ---------------------------------------------------------------- links and parents

  lemma ParentIsLink(cs: seq<Comment>, post: string, i: nat, j: nat)
    requires i < |cs|
    ensures Parent(cs, post, i) == Some(j) <==> Answers(cs, post, i, j)
  {
    IndexOfIsLast(cs, cs[i].inReplyTo);
  }

  lemma LinkStays(cs: seq<Comment>, post: string, i: nat, j: nat)
    requires Answers(cs, post, i, j)
    ensures i < |cs| && j < |cs|
  {
  }

  lemma {:induction false} ChainClimbs(cs: seq<Comment>, post: string, path: seq<nat>, k: nat)
    requires Chain(cs, post, path) && k < |path|
    ensures Ancestor(cs, post, path[0], k) == Some(path[k])
    decreases k
  {
    hide Parent, Answers;
    if k > 0 {
      ChainClimbs(cs, post, path, k - 1);
      assert Answers(cs, post, path[k - 1], path[k - 1 + 1]);
      LinkStays(cs, post, path[k - 1], path[k]);
      ParentIsLink(cs, post, path[k - 1], path[k]);
      AncestorsCompose(cs, post, path[0], k - 1, 1);
      assert Ancestor(cs, post, path[k], 0) == Some(path[k]);
    }
  }

  lemma {:induction false} ClimbIsChain(cs: seq<Comment>, post: string, i: nat, n: nat) returns (path: seq<nat>)
    requires i < |cs| && Ancestor(cs, post, i, n).Some?
    ensures Chain(cs, post, path) && |path| == n + 1 && path[0] == i && path[n] == Ancestor(cs, post, i, n).value
    decreases n
  {
    hide Parent, Answers;
    if n == 0 {
      path := [i];
    } else {
      var p := Parent(cs, post, i).value;
      var rest := ClimbIsChain(cs, post, p, n - 1);
      ParentIsLink(cs, post, i, p);
      path := [i] + rest;
    }
  }

  lemma LongCyclesAreCircles(cs: seq<Comment>, post: string, i: nat)
    requires i < |cs|
    ensures EntersLongCycle(cs, post, i) <==> Circles(cs, post, i)
  {
    hide Parent, Answers, Ancestor, Chain;
    if EntersLongCycle(cs, post, i) {
      var n: nat, x: nat :| x < |cs| && Ancestor(cs, post, i, n) == Some(x) && OnLongCycle(cs, post, x);
      var m: nat :| m > 0 && Ancestor(cs, post, x, m) == Some(x);
      AncestorsCompose(cs, post, i, n, m);
      var path := ClimbIsChain(cs, post, i, n + m);
      ChainClimbs(cs, post, path, n);
      StepOfChain(cs, post, path, n);
      assert Circle(cs, post, path, i, n, n + m);
    }
    if Circles(cs, post, i) {
      var path: seq<nat>, a: nat, b: nat :| Circle(cs, post, path, i, a, b);
      var x := path[a];
      ChainClimbs(cs, post, path, a);
      ChainClimbs(cs, post, path, b);
      AncestorsCompose(cs, post, i, a, b - a);
      StepOfChain(cs, post, path, a);
      assert Ancestor(cs, post, x, b - a) == Some(x);
    }
  }

  lemma StepOfChain(cs: seq<Comment>, post: string, path: seq<nat>, k: nat)
    requires Chain(cs, post, path) && k + 1 < |path|
    ensures path[k] < |cs| && Parent(cs, post, path[k]) == Some(path[k + 1])
  {
    hide Parent, Answers;
    assert Answers(cs, post, path[k], path[k + 1]);
    LinkStays(cs, post, path[k], path[k + 1]);
    ParentIsLink(cs, post, path[k], path[k + 1]);
  }

  // The comments left out are exactly those whose links run in a circle of several.
  lemma LeftOutExactlyTheCircles(cs: seq<Comment>, post: string, i: nat)
    requires i < |cs|
    ensures i !in Places(ThreadComments(cs, post)) <==> Circles(cs, post, i)
  {
    hide ThreadComments, EntersLongCycle, Circles;
    LeftOutExactlyTheCycles(cs, post);
    LongCyclesAreCircles(cs, post, i);
  }

  // ---------------------------------------------------------------- roots

  lemma RootIsReached(cs: seq<Comment>, post: string, i: nat) returns (n: nat)
    requires i < |cs|
    ensures Ancestor(cs, post, i, n) == Some(RootOf(cs, post, i))
  {
    hide Parent, Indices, Climb, RootOf;
    assert Ancestor(cs, post, i, 0) == Some(i);
    assert OnTheWay(cs, post, i, {i});
    ClimbStops(cs, post, i, {i});
    RootIsClimb(cs, post, i);
    n :| Ancestor(cs, post, i, n) == Some(RootOf(cs, post, i));
  }

  // Links lead from a comment to its root.
  lemma LinksLeadToTheRoot(cs: seq<Comment>, post: string, i: nat)
    requires i < |cs|
    ensures LeadsTo(cs, post, i, RootOf(cs, post, i))
  {
    hide Parent, RootOf, Ancestor;
    var n := RootIsReached(cs, post, i);
    var path := ClimbIsChain(cs, post, i, n);
    assert ChainFrom(cs, post, path, i, RootOf(cs, post, i));
  }

  lemma EndsWithoutAnswer(cs: seq<Comment>, post: string, i: nat)
    requires i < |cs|
    ensures Ends(cs, post, i) <==> forall j: nat :: Answers(cs, post, i, j) ==> j == i
  {
    hide Answers, Parent;
    forall j: nat ensures Parent(cs, post, i) == Some(j) <==> Answers(cs, post, i, j) {
      ParentIsLink(cs, post, i, j);
    }
    if !Ends(cs, post, i) {
      var j := Parent(cs, post, i).value;
      assert Answers(cs, post, i, j);
    }
  }

  lemma RootEnds(cs: seq<Comment>, post: string, i: nat)
    requires i < |cs| && !EntersLongCycle(cs, post, i)
    ensures Ends(cs, post, RootOf(cs, post, i))
  {
    hide RootOf, EntersLongCycle, Settles, Ends;
    RootsTell(cs, post, i);
    TopExactlyWhenItEnds(cs, post, RootOf(cs, post, i));
  }

  // Where the links of a comment end is where those of any comment it answers end.
  lemma SameRoot(cs: seq<Comment>, post: string, i: nat, j: nat)
    requires Answers(cs, post, i, j) && !EntersLongCycle(cs, post, i)
    ensures !EntersLongCycle(cs, post, j) && RootOf(cs, post, j) == RootOf(cs, post, i)
  {
    hide RootOf, Answers, Parent, Ends, Ancestor;
    LinkStays(cs, post, i, j);
    ParentIsLink(cs, post, i, j);
    ParentIsAncestor(cs, post, i);
    if EntersLongCycle(cs, post, j) {
      StillEnters(cs, post, i, j);
    } else {
      RootEnds(cs, post, i);
      RootEnds(cs, post, j);
      var n := RootIsReached(cs, post, i);
      var m := RootIsReached(cs, post, j);
      AncestorsCompose(cs, post, i, 1, m);
      OneEnd(cs, post, i, n, m + 1);
    }
  }

  lemma StillEnters(cs: seq<Comment>, post: string, i: nat, j: nat)
    requires i < |cs| && j < |cs| && Ancestor(cs, post, i, 1) == Some(j) && EntersLongCycle(cs, post, j)
    ensures EntersLongCycle(cs, post, i)
  {
    hide Ancestor, OnLongCycle;
    var n: nat, x: nat :| x < |cs| && Ancestor(cs, post, j, n) == Some(x) && OnLongCycle(cs, post, x);
    AncestorsCompose(cs, post, i, 1, n);
    assert Ancestor(cs, post, i, 1 + n) == Some(x);
  }

  lemma ParentIsAncestor(cs: seq<Comment>, post: string, i: nat)
    requires i < |cs|
    ensures Ancestor(cs, post, i, 1) == Parent(cs, post, i)
  {
    var p := Parent(cs, post, i);
    if p.Some? { assert Ancestor(cs, post, p.value, 0) == p; }
  }

  lemma OneEnd(cs: seq<Comment>, post: string, i: nat, n: nat, m: nat)
    requires i < |cs| && Ancestor(cs, post, i, n).Some? && Ancestor(cs, post, i, m).Some?
    requires Ends(cs, post, Ancestor(cs, post, i, n).value) && Ends(cs, post, Ancestor(cs, post, i, m).value)
    ensures Ancestor(cs, post, i, n) == Ancestor(cs, post, i, m)
  {
    hide Ends, Ancestor, Parent;
    if n <= m {
      AncestorsCompose(cs, post, i, n, m - n);
      EndsForGood(cs, post, Ancestor(cs, post, i, n).value, m - n);
    } else {
      AncestorsCompose(cs, post, i, m, n - m);
      EndsForGood(cs, post, Ancestor(cs, post, i, m).value, n - m);
    }
  }

  // ---------------------------------------------------------------- the rows

  // Row t is the top of the block that holds row k.
  ghost predicate TopOf(rows: seq<Row>, t: nat, k: nat) {
    t <= k < |rows| && rows[t].depth == 0 && forall m :: t < m <= k ==> rows[m].depth == 1
  }

  lemma RowsAt(cs: seq<Comment>, post: string, rows: seq<Row>, i: nat) returns (k: nat)
    requires i in Places(rows)
    ensures k < |rows| && rows[k].index == i
  {
    k :| 0 <= k < |rows| && Places(rows)[k] == i;
  }

  lemma BlockOfRoot(cs: seq<Comment>, post: string, rows: seq<Row>, t: nat, k: nat)
    requires Blocks(cs, post, rows) && Distinct(Places(rows)) && t < |rows| && k < |rows|
    requires rows[t].index == RootOf(cs, post, rows[k].index) == RootOf(cs, post, rows[t].index)
    ensures TopOf(rows, t, k)
  {
    hide RootOf;
    var r := rows[t].index;
    forall m | 0 <= m < |rows| && rows[m].index == r ensures m == t {
      assert Places(rows)[m] == Places(rows)[t];
    }
    assert t <= k;
    forall m | t < m <= k ensures rows[m].depth == 1 {
      assert RootOf(cs, post, rows[m].index) == r;
      assert rows[m].index != r;
    }
  }

  lemma TopFor(cs: seq<Comment>, post: string, k: nat) returns (t: nat)
    requires k < |ThreadComments(cs, post)|
    ensures var rows := ThreadComments(cs, post);
            && rows[k].index < |cs| && TopOf(rows, t, k) && rows[t].index == RootOf(cs, post, rows[k].index)
  {
    hide RootOf, ThreadComments, EntersLongCycle, Ends, Blocks, TopOf;
    var rows := ThreadComments(cs, post);
    RepliesFollowTheirRoot(cs, post);
    LeftOutExactlyTheCycles(cs, post);
    var i := rows[k].index;
    assert Places(rows)[k] == i;
    var r := RootOf(cs, post, i);
    RootEnds(cs, post, i);
    TopExactlyWhenItEnds(cs, post, r);
    RootShown(cs, post, r);
    t := RowsAt(cs, post, rows, r);
    BlockOfRoot(cs, post, rows, t, k);
  }

  lemma RootShown(cs: seq<Comment>, post: string, r: nat)
    requires r < |cs| && Ends(cs, post, r)
    ensures r in Places(ThreadComments(cs, post))
  {
    hide ThreadComments, Parent, RootOf;
    LeftOutExactlyTheCycles(cs, post);
    assert Ancestor(cs, post, r, 0) == Some(r);
    assert Settles(cs, post, r);
    SettlesOrCycles(cs, post, r);
  }

  // Every row stands in the block of the comment its links lead to, and is a top exactly when it answers no other
  // comment: when its link is empty, the post, or of no comment of the list.
  lemma ThreadsFollowTheLinks(cs: seq<Comment>, post: string, k: nat)
    requires k < |ThreadComments(cs, post)|
    ensures var rows := ThreadComments(cs, post);
            && (exists t: nat :: TopOf(rows, t, k) && LeadsTo(cs, post, rows[k].index, rows[t].index))
            && (rows[k].depth == 0 <==> forall j: nat :: Answers(cs, post, rows[k].index, j) ==> j == rows[k].index)
  {
    hide RootOf, ThreadComments, Answers, LeadsTo, TopOf;
    var rows := ThreadComments(cs, post);
    var t := TopFor(cs, post, k);
    LinksLeadToTheRoot(cs, post, rows[k].index);
    RepliesFollowTheirRoot(cs, post);
    TopExactlyWhenItEnds(cs, post, rows[k].index);
    EndsWithoutAnswer(cs, post, rows[k].index);
  }

  // A reply to another comment, its links not running in a circle, is shown at depth one in the block that holds
  // what it answers.
  lemma RepliesAreShownWithWhatTheyAnswer(cs: seq<Comment>, post: string, i: nat, j: nat)
    requires Answers(cs, post, i, j) && i != j && !Circles(cs, post, i)
    ensures var rows := ThreadComments(cs, post);
            exists t: nat, a: nat, b: nat :: && TopOf(rows, t, a) && TopOf(rows, t, b)
                                             && rows[a].index == i && rows[a].depth == 1 && rows[b].index == j
  {
    hide RootOf, ThreadComments, Circles, EntersLongCycle, Answers;
    var rows := ThreadComments(cs, post);
    LinkStays(cs, post, i, j);
    LongCyclesAreCircles(cs, post, i);
    SameRoot(cs, post, i, j);
    LeftOutExactlyTheCycles(cs, post);
    var a := RowsAt(cs, post, rows, i);
    var b := RowsAt(cs, post, rows, j);
    var t := TopFor(cs, post, a);
    var t' := TopFor(cs, post, b);
    assert Places(rows)[t] == Places(rows)[t'];
    assert t == t';
    ThreadsFollowTheLinks(cs, post, a);
    DepthIsOneOrZero(cs, post, a);
    assert TopOf(rows, t, a) && TopOf(rows, t, b);
  }

  lemma DepthIsOneOrZero(cs: seq<Comment>, post: string, k: nat)
    requires k < |ThreadComments(cs, post)|
    ensures ThreadComments(cs, post)[k].depth <= 1
  {
    hide RootOf, ThreadComments;
    RepliesFollowTheirRoot(cs, post);
  }

  lemma OneTop(rows: seq<Row>, t: nat, t': nat, k: nat)
    requires TopOf(rows, t, k) && TopOf(rows, t', k)
    ensures t == t'
  {
  }

  // Tops stand in the order of the list, and so do the replies of one block.
  lemma RowsKeepTheOrder(cs: seq<Comment>, post: string, a: nat, b: nat)
    requires var rows := ThreadComments(cs, post); a < b < |rows| && rows[a].depth == rows[b].depth
    requires var rows := ThreadComments(cs, post);
             rows[a].depth == 0 || exists t: nat :: TopOf(rows, t, a) && TopOf(rows, t, b)
    ensures ThreadComments(cs, post)[a].index < ThreadComments(cs, post)[b].index
  {
    hide RootOf, ThreadComments, TopOf, EntersLongCycle;
    var rows := ThreadComments(cs, post);
    RepliesFollowTheirRoot(cs, post);
    LeftOutExactlyTheCycles(cs, post);
    assert Places(rows)[a] != Places(rows)[b];
    if rows[a].depth != 0 {
      var t: nat :| TopOf(rows, t, a) && TopOf(rows, t, b);
      var t0 := TopFor(cs, post, a);
      var t1 := TopFor(cs, post, b);
      OneTop(rows, t, t0, a);
      OneTop(rows, t, t1, b);
    }
  }
}
