// Whether players' interventions came back as reactions: one report folded from a pile of envelopes.
//
// The envelopes are put in the order of their ids first.
module LoopHealth {
  import opened Prelude
  import opened Orders

  datatype Kind = Dm | Comment | Like | Follow | Message | Post | Other

  // An absent correlation or target player is empty.
  datatype Envelope = Envelope(id: string, kind: Kind, at: int, causation: Option<string>, correlation: string, player: string,
                               targetPlayer: string)

  predicate Intervention(e: Envelope) { e.kind in {Dm, Comment, Like, Follow} }

  predicate Eligible(e: Envelope) { e.kind in {Dm, Comment} }

  // Earlier by time, then by id.
  predicate Before(a: Envelope, b: Envelope) { a.at < b.at || (a.at == b.at && StringLess(a.id, b.id)) }

  lemma BeforeIsAnOrder()
    ensures forall a :: !Before(a, a)
    ensures forall a, b, c :: Before(a, b) && Before(b, c) ==> Before(a, c)
    ensures forall a: Envelope, b: Envelope :: a.id != b.id ==> Before(a, b) || Before(b, a)
  {
    StringLessIsStrictTotal();
  }

  // ---------------------------------------------------------------- sorting by id

  ghost predicate DistinctIds(es: seq<Envelope>) { forall i, j :: 0 <= i < j < |es| ==> es[i].id != es[j].id }

  function ById(es: seq<Envelope>): (m: map<string, Envelope>)
    ensures forall e :: e in es ==> e.id in m
    ensures forall id :: id in m ==> m[id] in es && m[id].id == id
  {
    if es == [] then map[]
    else
      var init, last := es[..|es| - 1], es[|es| - 1];
      assert forall e :: e in es <==> e in init || e == last;
      ById(init)[last.id := last]
  }

  // Envelopes with distinct ids, in the order of their ids.
  ghost function Ordered(es: seq<Envelope>): (r: seq<Envelope>)
    ensures forall e :: e in r ==> e in es
  {
    var m := ById(es);
    SortedSetElements(m.Keys);
    var ids := SortedSet(m.Keys);
    assert forall k :: 0 <= k < |ids| ==> ids[k] in Elements(ids);
    seq(|ids|, k requires 0 <= k < |ids| => m[ids[k]])
  }

  lemma ByIdOfDistinct(es: seq<Envelope>)
    requires DistinctIds(es)
    ensures forall e :: e in es ==> ById(es)[e.id] == e
  {
    forall e | e in es ensures ById(es)[e.id] == e {
      var f := ById(es)[e.id];
      var i :| 0 <= i < |es| && es[i] == e;
      var j :| 0 <= j < |es| && es[j] == f;
      assert es[i].id == es[j].id;
    }
  }

  // The arrival order does not show.
  lemma OrderedIgnoresOrder(es: seq<Envelope>, fs: seq<Envelope>)
    requires DistinctIds(es) && DistinctIds(fs) && Elements(es) == Elements(fs)
    ensures Ordered(es) == Ordered(fs)
  {
    ByIdOfDistinct(es);
    ByIdOfDistinct(fs);
    var a, b := ById(es), ById(fs);
    forall id | id in a ensures id in b && a[id] == b[id] {
      assert a[id] in Elements(es) && a[id] in Elements(fs);
    }
    forall id | id in b ensures id in a {
      assert b[id] in Elements(fs) && b[id] in Elements(es);
    }
    assert a == b;
  }

  // ---------------------------------------------------------------- the fold

  function Interventions(es: seq<Envelope>): (r: seq<Envelope>)
    ensures forall e :: e in r <==> e in es && Intervention(e)
  {
    if es == [] then []
    else
      var init, last := es[..|es| - 1], es[|es| - 1];
      assert forall e :: e in es <==> e in init || e == last;
      Interventions(init) + if Intervention(last) then [last] else []
  }

  // A message to a player that answers one of the interventions.
  predicate Matched(ids: set<string>, e: Envelope) {
    e.kind == Message && e.targetPlayer != "" && e.causation.Some? && e.causation.value in ids
  }

  function Responses(ids: set<string>, es: seq<Envelope>): (r: seq<Envelope>)
    ensures forall e :: e in r <==> e in es && Matched(ids, e)
  {
    if es == [] then []
    else
      var init, last := es[..|es| - 1], es[|es| - 1];
      assert forall e :: e in es <==> e in init || e == last;
      Responses(ids, init) + if Matched(ids, last) then [last] else []
  }

  // The earliest response per key: per intervention answered, and per player.
  function FirstBy(key: Envelope -> string, responses: seq<Envelope>): (m: map<string, Envelope>)
    ensures forall k :: k in m ==> m[k] in responses && key(m[k]) == k
    ensures forall e :: e in responses ==> key(e) in m
  {
    if responses == [] then map[]
    else
      var init, last := responses[..|responses| - 1], responses[|responses| - 1];
      assert forall e :: e in responses <==> e in init || e == last;
      var m := FirstBy(key, init);
      if key(last) !in m || Before(last, m[key(last)]) then m[key(last) := last] else m
  }

  function CauseOf(e: Envelope): string { if e.causation.Some? then e.causation.value else "" }

  function PlayerOf(e: Envelope): string { e.targetPlayer }

  function EligibleOf(es: seq<Envelope>): (r: seq<Envelope>)
    ensures forall e :: e in r <==> e in es && Eligible(e)
    ensures |r| <= |es|
  {
    if es == [] then []
    else
      var init, last := es[..|es| - 1], es[|es| - 1];
      assert forall e :: e in es <==> e in init || e == last;
      EligibleOf(init) + if Eligible(last) then [last] else []
  }

  function RespondedOf(es: seq<Envelope>, first: map<string, Envelope>): (r: seq<Envelope>)
    ensures forall e :: e in r <==> e in es && e.id in first
    ensures |r| <= |es|
  {
    if es == [] then []
    else
      var init, last := es[..|es| - 1], es[|es| - 1];
      assert forall e :: e in es <==> e in init || e == last;
      RespondedOf(init, first) + if last.id in first then [last] else []
  }

  // Posts that carry on a chain some intervention started.
  function DerivedPosts(es: seq<Envelope>, chains: set<string>): (n: nat)
    ensures n <= |es|
  {
    if es == [] then 0
    else
      var last := es[|es| - 1];
      DerivedPosts(es[..|es| - 1], chains) + if last.kind == Post && last.correlation in chains then 1 else 0
  }

  function Latencies(first: map<string, Envelope>, responded: seq<Envelope>): seq<int>
    requires forall e :: e in responded ==> e.id in first
  {
    if responded == [] then []
    else
      var init, last := responded[..|responded| - 1], responded[|responded| - 1];
      assert forall e :: e in init ==> e in responded;
      assert last in responded;
      Latencies(first, init) + [first[last.id].at - last.at]
  }

  function Players(es: seq<Envelope>): set<string> { set e | e in es :: e.player }

  function Chains(es: seq<Envelope>): set<string> { set e | e in es :: if e.correlation != "" then e.correlation else e.id }

  function Reengaged(firstAt: map<string, Envelope>, interventions: seq<Envelope>): set<string> {
    set e | e in interventions && e.player in firstAt && Before(firstAt[e.player], e) :: e.player
  }

  function Ratio(n: nat, d: nat): (r: Option<real>)
    ensures r.Some? <==> d != 0
    ensures n <= d && d != 0 ==> 0.0 <= r.value <= 1.0
  {
    if d == 0 then None else Some(n as real / d as real)
  }

  function Ids(es: seq<Envelope>): set<string> { set e | e in es :: e.id }

  // How many there are of each kind.
  function ByType(es: seq<Envelope>): map<Kind, nat> {
    if es == [] then map[]
    else
      var before, kind := ByType(es[..|es| - 1]), es[|es| - 1].kind;
      before[kind := Of(before, kind) + 1]
  }

  function Of(byType: map<Kind, nat>, kind: Kind): nat { if kind in byType then byType[kind] else 0 }

  datatype Report = Report(total: nat, byType: map<Kind, nat>, players: nat, eligible: nat, responded: nat, matched: nat, latencies: seq<int>,
                           respondedPlayers: set<string>, reengaged: set<string>, derivedPosts: nat)

  ghost function Fold(es: seq<Envelope>): Report {
    var ordered := Ordered(es);
    var interventions := Interventions(ordered);
    var ids := Ids(interventions);
    var responses := Responses(ids, ordered);
    var first := FirstBy(CauseOf, responses);
    var eligible := EligibleOf(interventions);
    var responded := RespondedOf(eligible, first);
    var firstAt := FirstBy(PlayerOf, responses);
    var chains := Chains(interventions);
    Report(|interventions|, ByType(interventions), |Players(interventions)|, |eligible|, |responded|, |responses|, Latencies(first, responded),
           firstAt.Keys, Reengaged(firstAt, interventions),
           DerivedPosts(ordered, chains))
  }

  function ResponseRate(r: Report): Option<real> { Ratio(r.responded, r.eligible) }

  function ReengagementRate(r: Report): Option<real> { Ratio(|r.reengaged|, |r.respondedPlayers|) }

  // ---------------------------------------------------------------- what the report means

  // The same envelopes give the same report, whatever order they come in.
  lemma FoldIgnoresOrder(es: seq<Envelope>, fs: seq<Envelope>)
    requires DistinctIds(es) && multiset(es) == multiset(fs)
    ensures Fold(es) == Fold(fs)
  {
    hide Fold, Ordered;
    StillDistinct(es, fs);
    assert forall e :: e in es <==> e in multiset(es);
    assert forall e :: e in fs <==> e in multiset(fs);
    assert Elements(es) == Elements(fs);
    OrderedIgnoresOrder(es, fs);
    FoldOfOrdered(es, fs);
  }

  lemma FoldOfOrdered(es: seq<Envelope>, fs: seq<Envelope>)
    requires Ordered(es) == Ordered(fs)
    ensures Fold(es) == Fold(fs)
  {
    hide Ordered;
  }

  lemma StillDistinct(es: seq<Envelope>, fs: seq<Envelope>)
    requires DistinctIds(es) && multiset(es) == multiset(fs)
    ensures DistinctIds(fs)
  {
    assert Distinct(es);
    DistinctByMultiset(es, fs);
    forall i, j | 0 <= i < j < |fs| ensures fs[i].id != fs[j].id {
      assert fs[i] in multiset(es) && fs[j] in multiset(es);
      assert fs[i] in es && fs[j] in es;
      var a :| 0 <= a < |es| && es[a] == fs[i];
      var b :| 0 <= b < |es| && es[b] == fs[j];
    }
  }

  lemma {:induction false} KindCounted(es: seq<Envelope>, kind: Kind)
    ensures Of(ByType(es), kind) == |OfKind(es, kind)|
  {
    if es != [] { KindCounted(es[..|es| - 1], kind); }
  }

  lemma {:induction false} KindsAddUp(es: seq<Envelope>)
    requires forall i :: 0 <= i < |es| ==> Intervention(es[i])
    ensures |OfKind(es, Dm)| + |OfKind(es, Comment)| + |OfKind(es, Like)| + |OfKind(es, Follow)| == |es|
  {
    if es != [] { KindsAddUp(es[..|es| - 1]); }
  }

  function OfKind(es: seq<Envelope>, kind: Kind): seq<Envelope> {
    if es == [] then [] else OfKind(es[..|es| - 1], kind) + if es[|es| - 1].kind == kind then [es[|es| - 1]] else []
  }

  // The counts by type are those of the interventions of that type, and add up to the total.
  lemma TypesAddUp(es: seq<Envelope>)
    ensures var r := Fold(es);
            && Of(r.byType, Dm) + Of(r.byType, Comment) + Of(r.byType, Like) + Of(r.byType, Follow) == r.total
            && forall kind :: Of(r.byType, kind) == |OfKind(Interventions(Ordered(es)), kind)|
  {
    hide Ordered, Interventions, ByType, OfKind, Intervention;
    var interventions := Interventions(Ordered(es));
    forall kind ensures Of(ByType(interventions), kind) == |OfKind(interventions, kind)| { KindCounted(interventions, kind); }
    KindsAddUp(interventions);
  }

  lemma InProportion(n: nat, d: nat)
    ensures Ratio(n, d).Some? <==> d > 0
    ensures d > 0 ==> Ratio(n, d).value * d as real == n as real
    ensures d > 0 && n <= d ==> 0.0 <= Ratio(n, d).value <= 1.0
  {
  }

  // The rates are shares of the counts, undefined when there is nothing to share.
  lemma RatesAreShares(r: Report)
    ensures ResponseRate(r).Some? <==> r.eligible > 0
    ensures r.eligible > 0 ==> ResponseRate(r).value * r.eligible as real == r.responded as real
    ensures r.eligible > 0 && r.responded <= r.eligible ==> 0.0 <= ResponseRate(r).value <= 1.0
    ensures ReengagementRate(r).Some? <==> |r.respondedPlayers| > 0
    ensures |r.respondedPlayers| > 0 ==> ReengagementRate(r).value * |r.respondedPlayers| as real == |r.reengaged| as real
    ensures |r.respondedPlayers| > 0 && |r.reengaged| <= |r.respondedPlayers| ==> 0.0 <= ReengagementRate(r).value <= 1.0
  {
    hide Ratio;
    InProportion(r.responded, r.eligible);
    InProportion(|r.reengaged|, |r.respondedPlayers|);
  }

  // Both rates are proportions, and only players who got a response can have come back.
  lemma RatesAreProportions(es: seq<Envelope>)
    ensures var r := Fold(es);
            && r.responded <= r.eligible <= r.total && r.reengaged <= r.respondedPlayers
            && |r.latencies| == r.responded
            && (ResponseRate(r).Some? ==> 0.0 <= ResponseRate(r).value <= 1.0)
            && (ReengagementRate(r).Some? ==> 0.0 <= ReengagementRate(r).value <= 1.0)
  {
    hide Ordered, Interventions, Responses, FirstBy, EligibleOf, RespondedOf, ResponseRate, ReengagementRate;
    var ordered := Ordered(es);
    var interventions := Interventions(ordered);
    var ids := Ids(interventions);
    var responses := Responses(ids, ordered);
    var first := FirstBy(CauseOf, responses);
    var responded := RespondedOf(EligibleOf(interventions), first);
    OneLatencyEach(first, responded);
    SubsetCardinality(Fold(es).reengaged, Fold(es).respondedPlayers);
    RatesAreShares(Fold(es));
  }

  lemma {:induction false} OneLatencyEach(first: map<string, Envelope>, responded: seq<Envelope>)
    requires forall e :: e in responded ==> e.id in first
    ensures |Latencies(first, responded)| == |responded|
  {
    if responded != [] {
      assert forall e :: e in responded[..|responded| - 1] ==> e in responded;
      OneLatencyEach(first, responded[..|responded| - 1]);
    }
  }

  // The first response is no later than any other with its key.
  lemma {:induction false} FirstIsEarliest(key: Envelope -> string, responses: seq<Envelope>, e: Envelope)
    requires e in responses
    ensures !Before(e, FirstBy(key, responses)[key(e)])
  {
    hide Before;
    BeforeIsAnOrder();
    var init, last := responses[..|responses| - 1], responses[|responses| - 1];
    assert forall x :: x in responses <==> x in init || x == last;
    if e in init { FirstIsEarliest(key, init, e); }
  }

  // Some intervention of the player is later than some response to them.
  ghost predicate CameBack(interventions: seq<Envelope>, responses: seq<Envelope>, player: string) {
    exists i, r :: i in interventions && i.player == player && r in responses && r.targetPlayer == player && Before(r, i)
  }

  lemma ReengagedExactlyWhen(interventions: seq<Envelope>, responses: seq<Envelope>, player: string)
    ensures player in Reengaged(FirstBy(PlayerOf, responses), interventions) <==> CameBack(interventions, responses, player)
  {
    hide FirstBy, Before;
    var firstAt := FirstBy(PlayerOf, responses);
    if player in Reengaged(firstAt, interventions) {
      var i :| i in interventions && i.player in firstAt && Before(firstAt[i.player], i) && i.player == player;
      assert firstAt[player] in responses && PlayerOf(firstAt[player]) == player;
    }
    if CameBack(interventions, responses, player) {
      var i, r :| i in interventions && i.player == player && r in responses && r.targetPlayer == player && Before(r, i);
      assert PlayerOf(r) == player;
      FirstIsEarliest(PlayerOf, responses, r);
      FirstIsBeforeToo(firstAt[player], r, i);
    }
  }

  // A player counts as re-engaged exactly when some intervention of theirs is later than some response to them.
  lemma ReengagedMeansCameBack(es: seq<Envelope>, player: string)
    ensures var interventions := Interventions(Ordered(es));
            player in Fold(es).reengaged <==>
            CameBack(interventions, Responses(Ids(interventions), Ordered(es)), player)
  {
    hide Ordered, Interventions, Responses, CameBack, Reengaged, FirstBy;
    var interventions := Interventions(Ordered(es));
    ReengagedExactlyWhen(interventions, Responses(Ids(interventions), Ordered(es)), player);
  }

  lemma FirstIsBeforeToo(first: Envelope, r: Envelope, i: Envelope)
    requires !Before(r, first) && Before(r, i)
    ensures Before(first, i)
  {
    StringLessIsStrictTotal();
  }

  // ---------------------------------------------------------------- percentiles

  function Less(a: int, b: int): bool { a < b }

  // The rank of a percentile among n samples: the ceiling of that share of n, at least one.
  function Rank(n: nat, percent: nat): nat { Max(1, (n * percent + 99) / 100) }

  function Percentile(samples: seq<int>, percent: nat): int
    requires samples != [] && percent <= 100
  {
    RankInRange(|samples|, percent);
    SortLength(samples);
    Sort(samples, Less)[Rank(|samples|, percent) - 1]
  }

  lemma {:induction false} ShareGrows(n: nat, percent: nat, higher: nat)
    requires percent <= higher
    ensures n * percent <= n * higher
  {
    if n > 0 {
      ShareGrows(n - 1, percent, higher);
      assert n * percent == (n - 1) * percent + percent && n * higher == (n - 1) * higher + higher;
    }
  }

  lemma RankInRange(n: nat, percent: nat)
    requires n > 0 && percent <= 100
    ensures 1 <= Rank(n, percent) <= n
  {
    ShareGrows(n, percent, 100);
  }

  lemma SortLength(xs: seq<int>)
    ensures |Sort(xs, Less)| == |xs|
  {
    SortSorts(xs, Less);
  }

  function AtMost(xs: seq<int>, v: int): nat {
    if xs == [] then 0 else (if xs[0] <= v then 1 else 0) + AtMost(xs[1..], v)
  }

  lemma {:induction false} InsertAtMost(x: int, xs: seq<int>, v: int)
    ensures AtMost(Insert(x, xs, Less), v) == AtMost(xs, v) + if x <= v then 1 else 0
  {
    if xs == [] || !Less(xs[0], x) {
      assert ([x] + xs)[1..] == xs;
    } else {
      InsertAtMost(x, xs[1..], v);
      assert ([xs[0]] + Insert(x, xs[1..], Less))[1..] == Insert(x, xs[1..], Less);
    }
  }

  lemma {:induction false} SortAtMost(xs: seq<int>, v: int)
    ensures AtMost(Sort(xs, Less), v) == AtMost(xs, v)
  {
    if xs != [] {
      SortAtMost(xs[1..], v);
      InsertAtMost(xs[0], Sort(xs[1..], Less), v);
    }
  }

  lemma {:induction false} PrefixAtMost(xs: seq<int>, v: int, k: nat)
    requires k <= |xs| && forall i :: 0 <= i < k ==> xs[i] <= v
    ensures AtMost(xs, v) >= k
  {
    if k > 0 {
      assert forall i :: 0 <= i < k - 1 ==> xs[1..][i] == xs[i + 1];
      PrefixAtMost(xs[1..], v, k - 1);
    }
  }

  lemma {:induction false} SuffixAbove(xs: seq<int>, v: int, k: nat)
    requires k <= |xs| && forall i :: k <= i < |xs| ==> xs[i] > v
    ensures AtMost(xs, v) <= k
    decreases |xs|
  {
    if xs != [] {
      var k' := if k == 0 then 0 else k - 1;
      assert forall i :: k' <= i < |xs| - 1 ==> xs[1..][i] == xs[i + 1];
      SuffixAbove(xs[1..], v, k');
    }
  }

  lemma PercentileByRank(samples: seq<int>, percent: nat)
    requires samples != [] && percent <= 100
    ensures var v := Percentile(samples, percent);
            && v in samples && AtMost(samples, v) >= Rank(|samples|, percent)
            && forall w :: w < v ==> AtMost(samples, w) < Rank(|samples|, percent)
  {
    hide Sort, Rank;
    RankInRange(|samples|, percent);
    LessIsStrictTotal();
    SortSorts(samples, Less);
    var sorted, n := Sort(samples, Less), Rank(|samples|, percent);
    var v := sorted[n - 1];
    assert forall i, j :: 0 <= i < j < |sorted| ==> sorted[i] <= sorted[j] by {
      assert forall i, j :: 0 <= i < j < |sorted| ==> !Less(sorted[j], sorted[i]);
    }
    SortAtMost(samples, v);
    PrefixAtMost(sorted, v, n);
    forall w | w < v ensures AtMost(samples, w) < n {
      SortAtMost(samples, w);
      SuffixAbove(sorted, w, n - 1);
    }
    assert v in sorted;
  }

  // The places of the samples that are no greater.
  ghost function UpTo(samples: seq<int>, v: int): set<int> { set k | 0 <= k < |samples| && samples[k] <= v }

  lemma {:induction false} AtMostLast(xs: seq<int>, v: int)
    requires xs != []
    ensures AtMost(xs, v) == AtMost(xs[..|xs| - 1], v) + if xs[|xs| - 1] <= v then 1 else 0
  {
    if |xs| > 1 {
      AtMostLast(xs[1..], v);
      assert xs[1..][..|xs| - 2] == xs[..|xs| - 1][1..];
    } else {
      assert xs[1..] == [] == xs[..0];
    }
  }

  lemma {:induction false} AtMostCounts(samples: seq<int>, v: int)
    ensures AtMost(samples, v) == |UpTo(samples, v)|
  {
    hide AtMost, UpTo;
    if samples == [] {
      NoneAtMost(v);
    } else {
      var n := |samples| - 1;
      AtMostLast(samples, v);
      AtMostCounts(samples[..n], v);
      UpToLast(samples, v);
    }
  }

  lemma UpToLast(samples: seq<int>, v: int)
    requires samples != []
    ensures var n := |samples| - 1;
            |UpTo(samples, v)| == |UpTo(samples[..n], v)| + if samples[n] <= v then 1 else 0
  {
    var n := |samples| - 1;
    assert UpTo(samples, v) == UpTo(samples[..n], v) + if samples[n] <= v then {n} else {};
  }

  lemma NoneAtMost(v: int)
    ensures AtMost([], v) == 0 && UpTo([], v) == {}
  {
  }

  // The percentile is the least sample that at least that share of the samples does not exceed.
  lemma PercentileIsNearestRank(samples: seq<int>, percent: nat)
    requires samples != [] && percent <= 100
    ensures var v := Percentile(samples, percent);
            && v in samples && 100 * |UpTo(samples, v)| >= percent * |samples|
            && forall w :: w < v ==> UpTo(samples, w) == {} || 100 * |UpTo(samples, w)| < percent * |samples|
  {
    hide Percentile, AtMost, UpTo;
    PercentileByRank(samples, percent);
    var v := Percentile(samples, percent);
    AtMostCounts(samples, v);
    forall w | w < v ensures UpTo(samples, w) == {} || 100 * |UpTo(samples, w)| < percent * |samples| {
      AtMostCounts(samples, w);
    }
  }

  lemma LessIsStrictTotal()
    ensures StrictTotal(Less)
  {
  }

  // A higher percentile is no lower: the median never exceeds the 95th percentile.
  lemma PercentilesGrow(samples: seq<int>, percent: nat, higher: nat)
    requires samples != [] && percent <= higher <= 100
    ensures Percentile(samples, percent) <= Percentile(samples, higher)
  {
    hide Percentile;
    ShareGrows(|samples|, percent, higher);
    PercentileByRank(samples, percent);
    PercentileByRank(samples, higher);
  }

  // ---------------------------------------------------------------- the loops

  // The earliest response per key, one response at a time.
  method EarliestBy(key: Envelope -> string, responses: seq<Envelope>) returns (m: map<string, Envelope>)
    ensures m == FirstBy(key, responses)
  {
    m := map[];
    for i := 0 to |responses|
      invariant m == FirstBy(key, responses[..i])
    {
      assert responses[..i + 1][..i] == responses[..i];
      var r := responses[i];
      if key(r) !in m || Before(r, m[key(r)]) {
        m := m[key(r) := r];
      }
    }
    assert responses[..|responses|] == responses;
  }

  method SortById(es: seq<Envelope>) returns (ordered: seq<Envelope>)
    ensures ordered == Ordered(es)
  {
    hide Ordered, SortedSet, Elements;
    var m := ById(es);
    var ids := SortKeys(m.Keys);
    OrderedAt(es);
    ordered := [];
    hide ById;
    for k := 0 to |ids|
      invariant ordered == Ordered(es)[..k]
    {
      ordered := ordered + [m[ids[k]]];
    }
  }

  lemma OrderedAt(es: seq<Envelope>)
    ensures var m, r := ById(es), Ordered(es); var ids := SortedSet(m.Keys);
            |r| == |ids| && forall k :: 0 <= k < |ids| ==> ids[k] in m && r[k] == m[ids[k]]
  {
    hide SortedSet, ById;
    var m := ById(es);
    SortedSetElements(m.Keys);
    var ids := SortedSet(m.Keys);
    assert forall k :: 0 <= k < |ids| ==> ids[k] in Elements(ids);
  }

  method Gather(interventions: seq<Envelope>)
    returns (byType: map<Kind, nat>, ids: set<string>, players: set<string>, chains: set<string>)
    ensures byType == ByType(interventions) && ids == Ids(interventions)
    ensures players == Players(interventions) && chains == Chains(interventions)
  {
    byType, ids, players, chains := map[], {}, {}, {};
    for i := 0 to |interventions|
      invariant byType == ByType(interventions[..i]) && ids == Ids(interventions[..i])
      invariant players == Players(interventions[..i]) && chains == Chains(interventions[..i])
    {
      hide Ids, Players, Chains, ByType;
      var e := interventions[i];
      OneMoreGathered(interventions, i);
      byType := byType[e.kind := Of(byType, e.kind) + 1];
      ids, players := ids + {e.id}, players + {e.player};
      chains := chains + {if e.correlation != "" then e.correlation else e.id};
    }
    assert interventions[..|interventions|] == interventions;
  }

  lemma OneMoreGathered(es: seq<Envelope>, i: nat)
    requires i < |es|
    ensures var before, e, after := es[..i], es[i], es[..i + 1];
            && ByType(after) == ByType(before)[e.kind := Of(ByType(before), e.kind) + 1]
            && Ids(after) == Ids(before) + {e.id} && Players(after) == Players(before) + {e.player}
            && Chains(after) == Chains(before) + {if e.correlation != "" then e.correlation else e.id}
  {
    assert es[..i + 1][..i] == es[..i];
    assert forall x :: x in es[..i + 1] <==> x in es[..i] || x == es[i];
  }

  method FoldLoopHealth(es: seq<Envelope>) returns (r: Report)
    ensures r == Fold(es)
  {
    var ordered := SortById(es);
    hide Ordered, Interventions, Responses, FirstBy, EligibleOf, RespondedOf, DerivedPosts, Latencies;
    var interventions := Interventions(ordered);
    var byType, ids, players, chains := Gather(interventions);
    var responses := Responses(ids, ordered);
    var first := EarliestBy(CauseOf, responses);
    var eligible := EligibleOf(interventions);
    var responded := RespondedOf(eligible, first);
    var firstAt := EarliestBy(PlayerOf, responses);
    r := Report(|interventions|, byType, |players|, |eligible|, |responded|, |responses|, Latencies(first, responded), firstAt.Keys,
                Reengaged(firstAt, interventions), DerivedPosts(ordered, chains));
  }
}
