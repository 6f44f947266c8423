// Who gets to see a post: the live choice by salience, and the choice a replay makes without values.
module Fanout {
  import opened Prelude
  import opened Orders

  datatype Post = Post(id: string, author: string, world: bool)

  // The hash that spreads posts over readers is left uninterpreted.
  type Hash = string -> nat

  function Keep(xs: seq<string>, s: set<string>): (r: seq<string>)
    ensures forall x :: x in r <==> x in xs && x in s
  {
    if xs == [] then []
    else
      var rest := Keep(xs[1..], s);
      assert xs == [xs[0]] + xs[1..];
      if xs[0] in s then [xs[0]] + rest else rest
  }

  function Candidates(author: string, roster: seq<string>): set<string> { Elements(roster) - {author} }

  function SalienceOf(saliences: map<string, real>, a: string): real {
    if a in saliences then saliences[a] else 0.0
  }

  // Higher salience first, then by id.
  function BySalience(saliences: map<string, real>): (string, string) -> bool {
    (a, b) => SalienceOf(saliences, a) > SalienceOf(saliences, b)
              || (SalienceOf(saliences, a) == SalienceOf(saliences, b) && StringLess(a, b))
  }

  function ByHash(hash: Hash, post: string): (string, string) -> bool {
    (a, b) => hash(post + ":" + a) < hash(post + ":" + b)
              || (hash(post + ":" + a) == hash(post + ":" + b) && StringLess(a, b))
  }

  lemma BySalienceIsStrictTotal(saliences: map<string, real>)
    ensures StrictTotal(BySalience(saliences))
  {
    StringLessIsStrictTotal();
  }

  lemma ByHashIsStrictTotal(hash: Hash, post: string)
    ensures StrictTotal(ByHash(hash, post))
  {
    StringLessIsStrictTotal();
  }

  function HashedTargets(hash: Hash, author: string, post: string, roster: seq<string>, limit: nat): seq<string> {
    Take(Sort(Keep(roster, Candidates(author, roster)), ByHash(hash, post)), limit)
  }

  // Readers related to the author, strongest first; with no relation at all, hashed readers.
  function FanoutTargets(hash: Hash, author: string, post: string, roster: seq<string>, saliences: map<string, real>,
                         limit: nat): seq<string>
  {
    var related := Sort(Keep(roster, Candidates(author, roster) * saliences.Keys), BySalience(saliences));
    if related != [] then Take(related, limit) else HashedTargets(hash, author, post, roster, limit)
  }

  // The same choice knowing only which readers have an edge to the author, or None.
  ghost function ChooseWithoutValues(hash: Hash, author: string, post: string, roster: seq<string>, edges: set<string>,
                                     limit: nat): Option<seq<string>>
  {
    var related := Candidates(author, roster) * edges;
    if |related| > limit then None
    else if related != {} then Some(SortedSet(related))
    else Some(FanoutTargets(hash, author, post, roster, map[], limit))
  }

  // ---------------------------------------------------------------- facts about both choices

  lemma {:induction false} KeepIsDistinct(xs: seq<string>, s: set<string>)
    requires Distinct(xs)
    ensures Distinct(Keep(xs, s))
  {
    if xs != [] {
      KeepIsDistinct(xs[1..], s);
      assert xs[0] !in xs[1..];
    }
  }

  lemma SortedKeep(roster: seq<string>, s: set<string>, less: (string, string) -> bool)
    requires Distinct(roster) && s <= Elements(roster) && StrictTotal(less)
    ensures var r := Sort(Keep(roster, s), less);
            Elements(r) == s && Distinct(r) && |r| == |s| && SortedBy(r, less)
  {
    var kept := Keep(roster, s);
    KeepIsDistinct(roster, s);
    SortSorts(kept, less);
    DistinctByMultiset(kept, Sort(kept, less));
    assert forall x :: x in s ==> x in roster;
    assert Elements(kept) == s && Elements(Sort(kept, less)) == s;
    DistinctCardinality(Sort(kept, less));
  }

  lemma EmptyWhenNoElements<T>(xs: seq<T>)
    ensures xs == [] <==> Elements(xs) == {}
  {
    if xs != [] { assert xs[0] in Elements(xs); }
  }

  // With at most `limit` related readers, every salience map over them gives the set chosen without one.
  lemma ValueFreeChoiceIsExact(hash: Hash, author: string, post: string, roster: seq<string>, edges: set<string>,
                               limit: nat, saliences: map<string, real>)
    requires Distinct(roster) && saliences.Keys == edges
    requires ChooseWithoutValues(hash, author, post, roster, edges, limit).Some?
    ensures Elements(FanoutTargets(hash, author, post, roster, saliences, limit))
            == Elements(ChooseWithoutValues(hash, author, post, roster, edges, limit).value)
  {
    hide Sort, StrictTotal, SortedBy;
    var related := Candidates(author, roster) * edges;
    BySalienceIsStrictTotal(saliences);
    SortedKeep(roster, related, BySalience(saliences));
    EmptyWhenNoElements(Sort(Keep(roster, related), BySalience(saliences)));
    SortedSetElements(related);
    if related == {} {
      var none: map<string, real> := map[];
      assert Candidates(author, roster) * none.Keys == {};
      BySalienceIsStrictTotal(none);
      SortedKeep(roster, {}, BySalience(none));
      EmptyWhenNoElements(Sort(Keep(roster, {}), BySalience(none)));
    }
  }

  lemma TakenAreAmong(xs: seq<string>, n: nat)
    ensures Elements(Take(xs, n)) <= Elements(xs) && |Take(xs, n)| <= n
  {
  }

  // A post never comes back to its author, and reaches at most `limit` members of the roster.
  lemma AuthorIsNoReader(hash: Hash, author: string, post: string, roster: seq<string>, saliences: map<string, real>,
                         limit: nat)
    requires Distinct(roster)
    ensures var targets := FanoutTargets(hash, author, post, roster, saliences, limit);
            author !in targets && Elements(targets) <= Elements(roster) && |targets| <= limit
  {
    hide Sort, StrictTotal, SortedBy, Take;
    BySalienceIsStrictTotal(saliences);
    SortedKeep(roster, Candidates(author, roster) * saliences.Keys, BySalience(saliences));
    TakenAreAmong(Sort(Keep(roster, Candidates(author, roster) * saliences.Keys), BySalience(saliences)), limit);
    ByHashIsStrictTotal(hash, post);
    SortedKeep(roster, Candidates(author, roster), ByHash(hash, post));
    TakenAreAmong(Sort(Keep(roster, Candidates(author, roster)), ByHash(hash, post)), limit);
    var targets := FanoutTargets(hash, author, post, roster, saliences, limit);
    assert forall t :: t in targets ==> t in Elements(targets);
  }

  // As many of the pool as fit, in order, with nothing left out that comes before one of them.
  ghost predicate FirstOf(targets: seq<string>, pool: set<string>, less: (string, string) -> bool, limit: nat) {
    && (forall t :: t in targets ==> t in pool)
    && (forall i, j :: 0 <= i < j < |targets| ==> less(targets[i], targets[j]))
    && forall r :: r in pool && r !in targets ==> |targets| == limit && forall i :: 0 <= i < limit ==> less(targets[i], r)
  }

  lemma SortedComeFirst(roster: seq<string>, pool: set<string>, less: (string, string) -> bool, limit: nat)
    requires Distinct(roster) && pool <= Elements(roster) && StrictTotal(less)
    ensures FirstOf(Take(Sort(Keep(roster, pool), less), limit), pool, less, limit)
  {
    hide Sort, Keep;
    SortedKeep(roster, pool, less);
    var all := Sort(Keep(roster, pool), less);
    var taken := Take(all, limit);
    assert forall k :: 0 <= k < |taken| ==> taken[k] == all[k] && all[k] in Elements(all);
    forall r | r in pool && r !in taken ensures |taken| == limit && forall i :: 0 <= i < limit ==> less(taken[i], r) {
      assert r in Elements(all);
      var k :| 0 <= k < |all| && all[k] == r;
      assert forall i :: 0 <= i < |taken| ==> all[i] != all[k];
    }
  }

  // A post goes to the readers with the highest salience toward them, first by id among equals, in that order ...
  lemma StrongestFirst(hash: Hash, author: string, post: string, roster: seq<string>, saliences: map<string, real>, limit: nat)
    requires Distinct(roster) && exists r :: r in roster && r != author && r in saliences
    ensures var targets := FanoutTargets(hash, author, post, roster, saliences, limit);
            && (forall t :: t in targets ==> t in roster && t != author && t in saliences)
            && (forall i, j :: 0 <= i < j < |targets| ==>
                  var a, b := saliences[targets[i]], saliences[targets[j]]; a > b || (a == b && StringLess(targets[i], targets[j])))
            && forall r :: r in roster && r != author && r in saliences && r !in targets ==>
                 |targets| == limit
                 && forall i :: 0 <= i < limit ==>
                      var a, b := saliences[targets[i]], saliences[r]; a > b || (a == b && StringLess(targets[i], r))
  {
    hide Sort, StrictTotal, SortedBy, StringLess, Take, FirstOf;
    var less, related := BySalience(saliences), Candidates(author, roster) * saliences.Keys;
    BySalienceIsStrictTotal(saliences);
    SortedKeep(roster, related, less);
    EmptyWhenNoElements(Sort(Keep(roster, related), less));
    SortedComeFirst(roster, related, less, limit);
    var r :| r in roster && r != author && r in saliences;
    assert r in related;
    StrongestAre(FanoutTargets(hash, author, post, roster, saliences, limit), related, saliences, limit);
  }

  lemma StrongestAre(targets: seq<string>, pool: set<string>, saliences: map<string, real>, limit: nat)
    requires pool <= saliences.Keys && FirstOf(targets, pool, BySalience(saliences), limit)
    ensures forall t :: t in targets ==> t in pool
    ensures forall i, j :: 0 <= i < j < |targets| ==>
              var a, b := saliences[targets[i]], saliences[targets[j]]; a > b || (a == b && StringLess(targets[i], targets[j]))
    ensures forall r :: r in pool && r !in targets ==>
              |targets| == limit
              && forall i :: 0 <= i < limit ==>
                   var a, b := saliences[targets[i]], saliences[r]; a > b || (a == b && StringLess(targets[i], r))
  {
    hide StringLess;
    var less := BySalience(saliences);
    forall i, j | 0 <= i < j < |targets|
      ensures var a, b := saliences[targets[i]], saliences[targets[j]]; a > b || (a == b && StringLess(targets[i], targets[j]))
    {
      assert less(targets[i], targets[j]) && targets[i] in targets && targets[j] in targets;
    }
    forall i, r | 0 <= i < |targets| && targets[i] in pool && r in pool && r !in targets
      ensures var a, b := saliences[targets[i]], saliences[r]; a > b || (a == b && StringLess(targets[i], r))
    {
      assert less(targets[i], r);
    }
  }

  // ... and to those with the least hash of the post and their id if no reader is related at all.
  lemma LeastHashesFirst(hash: Hash, author: string, post: string, roster: seq<string>, saliences: map<string, real>, limit: nat)
    requires Distinct(roster) && !exists r :: r in roster && r != author && r in saliences
    ensures var targets := FanoutTargets(hash, author, post, roster, saliences, limit);
            && (forall t :: t in targets ==> t in roster && t != author)
            && (forall i, j :: 0 <= i < j < |targets| ==>
                  var a, b := hash(post + ":" + targets[i]), hash(post + ":" + targets[j]);
                  a < b || (a == b && StringLess(targets[i], targets[j])))
            && forall r :: r in roster && r != author && r !in targets ==>
                 |targets| == limit
                 && forall i :: 0 <= i < limit ==>
                      var a, b := hash(post + ":" + targets[i]), hash(post + ":" + r);
                      a < b || (a == b && StringLess(targets[i], r))
  {
    hide Sort, StrictTotal, SortedBy, StringLess, Take;
    var less, readers := ByHash(hash, post), Candidates(author, roster);
    BySalienceIsStrictTotal(saliences);
    assert readers * saliences.Keys == {};
    SortedKeep(roster, {}, BySalience(saliences));
    EmptyWhenNoElements(Sort(Keep(roster, {}), BySalience(saliences)));
    ByHashIsStrictTotal(hash, post);
    SortedComeFirst(roster, readers, less, limit);
  }

  function Flat(readers: set<string>): map<string, real> { map r | r in readers :: 0.0 }

  // The head of a sorted list is below everything else in it.
  lemma LeastComesFirst(xs: seq<string>, less: (string, string) -> bool, z: string)
    requires z in xs && SortedBy(xs, less) && forall x :: x in xs && x != z ==> less(z, x)
    ensures xs[0] == z
  {
    var k :| 0 <= k < |xs| && xs[k] == z;
    assert xs[0] in xs;
  }

  lemma FavouriteIsChosen(hash: Hash, author: string, post: string, roster: seq<string>, edges: set<string>, limit: nat,
                          z: string)
    requires Distinct(roster) && limit >= 1 && z in Candidates(author, roster) * edges
    ensures z in FanoutTargets(hash, author, post, roster, Flat(edges)[z := 1.0], limit)
  {
    hide Sort, StrictTotal;
    var s := Flat(edges)[z := 1.0];
    assert s.Keys == edges;
    BySalienceIsStrictTotal(s);
    SortedKeep(roster, Candidates(author, roster) * edges, BySalience(s));
    var all := Sort(Keep(roster, Candidates(author, roster) * s.Keys), BySalience(s));
    assert z in Elements(all);
    forall x | x in all && x != z ensures BySalience(s)(z, x) {
      assert SalienceOf(s, x) == 0.0 && SalienceOf(s, z) == 1.0;
    }
    LeastComesFirst(all, BySalience(s), z);
  }

  lemma SomeoneIsLeftOut(hash: Hash, author: string, post: string, roster: seq<string>, edges: set<string>, limit: nat)
    returns (z: string)
    requires Distinct(roster) && limit >= 1 && |Candidates(author, roster) * edges| > limit
    ensures z in Candidates(author, roster) * edges
    ensures z !in FanoutTargets(hash, author, post, roster, Flat(edges), limit)
  {
    hide Sort, StrictTotal;
    var s := Flat(edges);
    assert s.Keys == edges;
    BySalienceIsStrictTotal(s);
    SortedKeep(roster, Candidates(author, roster) * edges, BySalience(s));
    var all := Sort(Keep(roster, Candidates(author, roster) * s.Keys), BySalience(s));
    z := all[limit];
    assert z in Elements(all);
    NotRepeated(all, limit, |all|);
  }

  // With more related readers than fit, the values decide: two salience maps give different sets.
  lemma GivingUpIsNecessary(hash: Hash, author: string, post: string, roster: seq<string>, edges: set<string>, limit: nat)
    requires Distinct(roster) && limit >= 1 && |Candidates(author, roster) * edges| > limit
    ensures exists s1: map<string, real>, s2: map<string, real> ::
              s1.Keys == edges && s2.Keys == edges
              && Elements(FanoutTargets(hash, author, post, roster, s1, limit))
                 != Elements(FanoutTargets(hash, author, post, roster, s2, limit))
  {
    hide FanoutTargets;
    var z := SomeoneIsLeftOut(hash, author, post, roster, edges, limit);
    FavouriteIsChosen(hash, author, post, roster, edges, limit, z);
    var s1, s2 := Flat(edges), Flat(edges)[z := 1.0];
    assert s1.Keys == edges && s2.Keys == edges;
    assert z in Elements(FanoutTargets(hash, author, post, roster, s2, limit));
    assert z !in Elements(FanoutTargets(hash, author, post, roster, s1, limit));
  }

  // The replay gives up exactly when the choice depends on values it cannot know.
  lemma GivesUpExactlyWhenValuesMatter(hash: Hash, author: string, post: string, roster: seq<string>, edges: set<string>,
                                       limit: nat)
    requires Distinct(roster) && limit >= 1
    ensures ChooseWithoutValues(hash, author, post, roster, edges, limit).Some? <==>
            forall s1: map<string, real>, s2: map<string, real> ::
              s1.Keys == edges && s2.Keys == edges ==>
              Elements(FanoutTargets(hash, author, post, roster, s1, limit))
              == Elements(FanoutTargets(hash, author, post, roster, s2, limit))
  {
    hide FanoutTargets;
    if ChooseWithoutValues(hash, author, post, roster, edges, limit).Some? {
      forall s1: map<string, real>, s2: map<string, real> | s1.Keys == edges && s2.Keys == edges
        ensures Elements(FanoutTargets(hash, author, post, roster, s1, limit))
                == Elements(FanoutTargets(hash, author, post, roster, s2, limit))
      {
        ValueFreeChoiceIsExact(hash, author, post, roster, edges, limit, s1);
        ValueFreeChoiceIsExact(hash, author, post, roster, edges, limit, s2);
      }
    } else {
      GivingUpIsNecessary(hash, author, post, roster, edges, limit);
    }
  }

  // ---------------------------------------------------------------- a whole log of posts

  predicate Circulates(p: Post) { p.world && p.author != "" }

  function EdgesTo(edges: map<string, set<string>>, author: string): set<string> {
    if author in edges then edges[author] else {}
  }

  ghost function ReplayTargets(hash: Hash, p: Post, roster: seq<string>, edges: map<string, set<string>>, limit: nat)
    : Option<seq<string>>
  {
    if Circulates(p) then ChooseWithoutValues(hash, p.author, p.id, roster, EdgesTo(edges, p.author), limit) else Some([])
  }

  ghost predicate Decidable(hash: Hash, posts: seq<Post>, roster: seq<string>, edges: map<string, set<string>>, limit: nat) {
    forall p :: p in posts ==> ReplayTargets(hash, p, roster, edges, limit).Some?
  }

  // The posts of the log that the replay says reached this reader, in order.
  ghost function Replayed(hash: Hash, posts: seq<Post>, roster: seq<string>, edges: map<string, set<string>>, limit: nat,
                          reader: string): seq<Post>
  {
    if posts == [] then []
    else
      var init, p := posts[..|posts| - 1], posts[|posts| - 1];
      var targets := ReplayTargets(hash, p, roster, edges, limit);
      Replayed(hash, init, roster, edges, limit, reader) + if targets.Some? && reader in targets.value then [p] else []
  }

  // What the router delivered to this reader, with the saliences it saw at each post.
  ghost function Routed(hash: Hash, posts: seq<Post>, roster: seq<string>, seen: Post -> map<string, real>, limit: nat,
                        reader: string): seq<Post>
  {
    if posts == [] then []
    else
      var init, p := posts[..|posts| - 1], posts[|posts| - 1];
      Routed(hash, init, roster, seen, limit, reader)
      + if Circulates(p) && reader in FanoutTargets(hash, p.author, p.id, roster, seen(p), limit) then [p] else []
  }

  // Whatever saliences the router saw, a log the replay can decide gives every reader the same posts.
  lemma {:induction false} ReplayedIsRouted(hash: Hash, posts: seq<Post>, roster: seq<string>, edges: map<string, set<string>>,
                                            seen: Post -> map<string, real>, limit: nat, reader: string)
    requires Distinct(roster) && Decidable(hash, posts, roster, edges, limit)
    requires forall p :: p in posts ==> seen(p).Keys == EdgesTo(edges, p.author)
    ensures Replayed(hash, posts, roster, edges, limit, reader) == Routed(hash, posts, roster, seen, limit, reader)
  {
    hide FanoutTargets, ChooseWithoutValues;
    if posts != [] {
      var init, p := posts[..|posts| - 1], posts[|posts| - 1];
      assert p in posts;
      ReplayedIsRouted(hash, init, roster, edges, seen, limit, reader);
      if Circulates(p) {
        ValueFreeChoiceIsExact(hash, p.author, p.id, roster, EdgesTo(edges, p.author), limit, seen(p));
        assert reader in ReplayTargets(hash, p, roster, edges, limit).value <==>
               reader in Elements(ReplayTargets(hash, p, roster, edges, limit).value);
        assert reader in FanoutTargets(hash, p.author, p.id, roster, seen(p), limit) <==>
               reader in Elements(FanoutTargets(hash, p.author, p.id, roster, seen(p), limit));
      }
    }
  }

  // Only posts of the world feed with an author reach anybody, each of them the readers chosen for it.
  lemma {:induction false} OnlyPublicPostsAreRouted(hash: Hash, posts: seq<Post>, roster: seq<string>, seen: Post -> map<string, real>,
                                                    limit: nat, reader: string, p: Post)
    ensures p in Routed(hash, posts, roster, seen, limit, reader)
            <==> p in posts && p.world && p.author != "" && reader in FanoutTargets(hash, p.author, p.id, roster, seen(p), limit)
  {
    hide FanoutTargets;
    if posts != [] {
      var init, last := posts[..|posts| - 1], posts[|posts| - 1];
      OnlyPublicPostsAreRouted(hash, init, roster, seen, limit, reader, p);
      assert posts == init + [last];
    }
  }

  function Inbox(delivered: map<string, seq<Post>>, reader: string): seq<Post> {
    if reader in delivered then delivered[reader] else []
  }

  // Appends one post to the list of every target.
  method Deliver(delivered: map<string, seq<Post>>, targets: seq<string>, p: Post) returns (r: map<string, seq<Post>>)
    requires Distinct(targets)
    ensures forall reader :: Inbox(r, reader) == Inbox(delivered, reader) + if reader in targets then [p] else []
  {
    r := delivered;
    for i := 0 to |targets|
      invariant forall reader :: Inbox(r, reader) == Inbox(delivered, reader) + if reader in targets[..i] then [p] else []
    {
      NotRepeated(targets, i, |targets|);
      r := r[targets[i] := Inbox(r, targets[i]) + [p]];
    }
    assert targets[..|targets|] == targets;
  }

  lemma HashedTargetsAreDistinct(hash: Hash, author: string, post: string, roster: seq<string>, limit: nat)
    requires Distinct(roster)
    ensures Distinct(HashedTargets(hash, author, post, roster, limit))
    ensures FanoutTargets(hash, author, post, roster, map[], limit) == HashedTargets(hash, author, post, roster, limit)
  {
    ByHashIsStrictTotal(hash, post);
    SortedKeep(roster, Candidates(author, roster), ByHash(hash, post));
    NobodyRelated(author, roster);
    hide Sort, StrictTotal, SortedBy;
    assert Distinct(Take(Sort(Keep(roster, Candidates(author, roster)), ByHash(hash, post)), limit));
  }

  lemma NobodyRelated(author: string, roster: seq<string>)
    requires Distinct(roster)
    ensures var none: map<string, real> := map[];
            Sort(Keep(roster, Candidates(author, roster) * none.Keys), BySalience(none)) == []
  {
    hide Sort, StrictTotal, SortedBy;
    var none: map<string, real> := map[];
    assert Candidates(author, roster) * none.Keys == {};
    BySalienceIsStrictTotal(none);
    SortedKeep(roster, {}, BySalience(none));
    EmptyWhenNoElements(Sort(Keep(roster, {}), BySalience(none)));
  }

  // The readers of one post, or None when they depend on saliences.
  method ReadersOf(hash: Hash, p: Post, roster: seq<string>, edges: map<string, set<string>>, limit: nat)
    returns (targets: Option<seq<string>>)
    requires Distinct(roster)
    ensures targets == ReplayTargets(hash, p, roster, edges, limit)
    ensures targets.Some? ==> Distinct(targets.value)
  {
    hide FanoutTargets, HashedTargets, SortedSet;
    if !Circulates(p) {
      return Some([]);
    }
    var related := Candidates(p.author, roster) * EdgesTo(edges, p.author);
    if |related| > limit {
      return None;
    }
    if related != {} {
      SortedSetElements(related);
      var readers := SortKeys(related);
      return Some(readers);
    }
    HashedTargetsAreDistinct(hash, p.author, p.id, roster, limit);
    targets := Some(HashedTargets(hash, p.author, p.id, roster, limit));
  }

  // Rebuilds the deliveries of a log of posts, or gives up when a post's readers depend on saliences.
  method FeedDeliveries(hash: Hash, posts: seq<Post>, roster: seq<string>, edges: map<string, set<string>>, limit: nat)
    returns (r: Option<map<string, seq<Post>>>)
    requires Distinct(roster)
    ensures r.Some? <==> Decidable(hash, posts, roster, edges, limit)
    ensures r.Some? ==> forall reader :: Inbox(r.value, reader) == Replayed(hash, posts, roster, edges, limit, reader)
  {
    var delivered: map<string, seq<Post>> := map[];
    for i := 0 to |posts|
      invariant Decidable(hash, posts[..i], roster, edges, limit)
      invariant forall reader :: Inbox(delivered, reader) == Replayed(hash, posts[..i], roster, edges, limit, reader)
    {
      hide ReplayTargets, Replayed, Decidable, Distinct;
      var p := posts[i];
      assert posts[..i + 1] == posts[..i] + [p];
      var targets := ReadersOf(hash, p, roster, edges, limit);
      if targets.None? {
        return None;
      }
      delivered := Deliver(delivered, targets.value, p);
    }
    assert posts[..|posts|] == posts;
    r := Some(delivered);
  }

  // The router's side: it walks its roster for the readers that have an edge to the author.
  class FeedFanout {
    const hash: Hash
    const limit: nat
    var roster: seq<string>

    constructor (hash: Hash, roster: seq<string>, limit: nat)
      requires Distinct(roster)
      ensures this.roster == roster && this.limit == limit && this.hash == hash
    {
      this.hash, this.roster, this.limit := hash, roster, limit;
    }

    method Targets(p: Post, edges: map<string, real>) returns (chosen: seq<string>)
      requires Distinct(roster)
      ensures !Circulates(p) ==> chosen == []
      ensures Circulates(p) ==>
                chosen == FanoutTargets(hash, p.author, p.id, roster,
                                        map r | r in edges && r in Candidates(p.author, roster) :: edges[r], limit)
    {
      if !Circulates(p) {
        return [];
      }
      var saliences: map<string, real> := map[];
      for i := 0 to |roster|
        invariant saliences == map r | r in edges && r in Elements(roster[..i]) - {p.author} :: edges[r]
      {
        var reader := roster[i];
        ElementsConcat(roster[..i], [reader]);
        ElementsOne(reader);
        assert roster[..i + 1] == roster[..i] + [reader];
        if reader != p.author && reader in edges {
          saliences := saliences[reader := edges[reader]];
        }
      }
      assert roster[..|roster|] == roster;
      chosen := FanoutTargets(hash, p.author, p.id, roster, saliences, limit);
    }
  }

  // ---------------------------------------------------------------- edges read too late

  // The replay reads every edge known at the decision, the router those alive at the post: edges made in between
  // and edges gone dormant before the post are in `now` and not in `before`. The replay still picks the readers the
  // router picked exactly when there is no such edge to a candidate, or the hashed readers happen to be those.
  lemma LateEdgesAreHarmlessExactlyWhen(hash: Hash, author: string, post: string, roster: seq<string>,
                                        before: set<string>, now: set<string>, limit: nat, saliences: map<string, real>)
    requires Distinct(roster) && before <= now && saliences.Keys == before
    requires ChooseWithoutValues(hash, author, post, roster, now, limit).Some?
    ensures var r0, r1 := Candidates(author, roster) * before, Candidates(author, roster) * now;
            Elements(FanoutTargets(hash, author, post, roster, saliences, limit))
            == Elements(ChooseWithoutValues(hash, author, post, roster, now, limit).value)
            <==> r0 == r1 || (r0 == {} && Elements(HashedTargets(hash, author, post, roster, limit)) == r1)
  {
    hide FanoutTargets, HashedTargets, SortedSet, Distinct;
    var r0, r1 := Candidates(author, roster) * before, Candidates(author, roster) * now;
    assert r0 <= r1;
    SubsetCardinality(r0, r1);
    ValueFreeChoiceIsExact(hash, author, post, roster, before, limit, saliences);
    HashedTargetsAreDistinct(hash, author, post, roster, limit);
    SortedSetElements(r0);
    SortedSetElements(r1);
  }

  // Whatever the hash: nobody is related to the author at the time of the post, and one reader is at the decision.
  // The router picked as many hashed readers as it may, the replay picks the one; so the readers differ whoever that
  // one is, and if the router may pick but one reader, for everybody else.
  lemma AnEdgeInBetween(hash: Hash, author: string, post: string, roster: seq<string>, reader: string, limit: nat)
    requires Distinct(roster) && reader in Candidates(author, roster) && limit > 0
    ensures var chosen := ChooseWithoutValues(hash, author, post, roster, {reader}, limit);
            var routed := FanoutTargets(hash, author, post, roster, map[], limit);
            && chosen.Some? && Elements(chosen.value) == {reader}
            && |Elements(routed)| == Min(limit, |Candidates(author, roster)|)
            && (limit >= 2 && |Candidates(author, roster)| >= 2 ==> Elements(routed) != Elements(chosen.value))
            && (limit == 1 && reader !in routed ==> Elements(routed) != Elements(chosen.value))
  {
    hide FanoutTargets, HashedTargets, ChooseWithoutValues, Candidates, Elements, Distinct;
    HashedTargetsAreDistinct(hash, author, post, roster, limit);
    HashedTargetsAreMany(hash, author, post, roster, limit);
    DistinctCardinality(HashedTargets(hash, author, post, roster, limit));
    OnlyOneRelated(hash, author, post, roster, reader, limit);
    assert |{reader}| == 1;
    InElements(reader, FanoutTargets(hash, author, post, roster, map[], limit));
  }

  lemma InElements(x: string, xs: seq<string>)
    ensures x in Elements(xs) <==> x in xs
  {
  }

  lemma HashedTargetsAreMany(hash: Hash, author: string, post: string, roster: seq<string>, limit: nat)
    requires Distinct(roster)
    ensures |HashedTargets(hash, author, post, roster, limit)| == Min(limit, |Candidates(author, roster)|)
  {
    hide Sort, Keep, StrictTotal, SortedBy, ByHash, Distinct;
    ByHashIsStrictTotal(hash, post);
    assert Candidates(author, roster) <= Elements(roster);
    SortedKeep(roster, Candidates(author, roster), ByHash(hash, post));
  }

  lemma OnlyOneRelated(hash: Hash, author: string, post: string, roster: seq<string>, other: string, limit: nat)
    requires other in Candidates(author, roster) && limit > 0
    ensures var chosen := ChooseWithoutValues(hash, author, post, roster, {other}, limit);
            chosen.Some? && Elements(chosen.value) == {other}
  {
    hide Candidates, FanoutTargets, SortedSet, Elements;
    assert Candidates(author, roster) * {other} == {other};
    SortedSetElements({other});
  }
}
