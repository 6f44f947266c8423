// What the numbers of the report count.
module LoopReport {
  import opened Prelude
  import opened Orders
  import opened LoopHealth

  // Sets of envelopes, said without the fold: every number of the report is the size of one of them.

  ghost predicate Intervened(es: seq<Envelope>, i: Envelope) { i in es && i.kind in {Dm, Comment, Like, Follow} }

  // A message to a player, caused by the envelope with this id.
  ghost predicate Answer(es: seq<Envelope>, id: string, r: Envelope) {
    r in es && r.kind == Message && r.targetPlayer != "" && r.causation == Some(id)
  }

  ghost predicate Response(es: seq<Envelope>, r: Envelope) { exists i :: Intervened(es, i) && Answer(es, i.id, r) }

  ghost predicate Answered(es: seq<Envelope>, i: Envelope) { i in es && i.kind in {Dm, Comment} && exists r :: Answer(es, i.id, r) }

  // The chain an intervention started or joined.
  ghost predicate OnChainOf(i: Envelope, chain: string) { chain == if i.correlation != "" then i.correlation else i.id }

  ghost predicate Derived(es: seq<Envelope>, p: Envelope) {
    p in es && p.kind == Post && exists i :: Intervened(es, i) && OnChainOf(i, p.correlation)
  }

  ghost predicate IsFirstAnswer(es: seq<Envelope>, i: Envelope, r: Envelope) {
    Answer(es, i.id, r) && forall other :: Answer(es, i.id, other) && other != r ==>
      r.at < other.at || (r.at == other.at && StringLess(r.id, other.id))
  }

  ghost predicate ComesBack(es: seq<Envelope>, player: string) {
    exists i, r :: Intervened(es, i) && i.player == player && Response(es, r) && r.targetPlayer == player
                   && (r.at < i.at || (r.at == i.at && StringLess(r.id, i.id)))
  }

  // ---------------------------------------------------------------- filters of distinct envelopes

  lemma OrderedIsAll(es: seq<Envelope>)
    requires DistinctIds(es)
    ensures DistinctIds(Ordered(es)) && forall e :: e in Ordered(es) <==> e in es
  {
    var m := ById(es);
    ByIdOfDistinct(es);
    OrderedAt(es);
    SortedSetElements(m.Keys);
    var ids, r := SortedSet(m.Keys), Ordered(es);
    forall i, j | 0 <= i < j < |r| ensures r[i].id != r[j].id {
      assert ids[i] in m && ids[j] in m && ids[i] != ids[j];
    }
    forall e | e in es ensures e in r {
      assert e.id in Elements(ids);
      var k :| 0 <= k < |ids| && ids[k] == e.id;
      assert r[k] == e;
    }
  }

  // Nothing twice, and everything from the other list.
  ghost predicate Part(r: seq<Envelope>, es: seq<Envelope>) { DistinctIds(r) && forall e :: e in r ==> e in es }

  lemma PartOfMore(r: seq<Envelope>, init: seq<Envelope>, last: Envelope, keep: bool)
    requires DistinctIds(init + [last]) && Part(r, init)
    ensures Part(r + if keep then [last] else [], init + [last])
  {
    var es := init + [last];
    assert forall i :: 0 <= i < |init| ==> es[i] == init[i] && es[i].id != es[|init|].id;
    forall e | e in r ensures e.id != last.id {
      assert e in init;
      var i :| 0 <= i < |init| && init[i] == e;
    }
    assert forall i :: 0 <= i < |r| ==> r[i] in r;
  }

  lemma DistinctInit(es: seq<Envelope>)
    requires es != [] && DistinctIds(es)
    ensures es == es[..|es| - 1] + [es[|es| - 1]] && DistinctIds(es[..|es| - 1])
  {
  }

  lemma {:induction false} InterventionsPart(es: seq<Envelope>)
    requires DistinctIds(es)
    ensures Part(Interventions(es), es)
  {
    hide Part, DistinctIds, Intervention;
    if es == [] {
      NothingIsPart();
    } else {
      DistinctInit(es);
      InterventionsPart(es[..|es| - 1]);
      PartOfMore(Interventions(es[..|es| - 1]), es[..|es| - 1], es[|es| - 1], Intervention(es[|es| - 1]));
    }
  }

  lemma {:induction false} EligiblePart(es: seq<Envelope>)
    requires DistinctIds(es)
    ensures Part(EligibleOf(es), es)
  {
    hide Part, DistinctIds, Eligible;
    if es == [] {
      NothingIsPart();
    } else {
      DistinctInit(es);
      EligiblePart(es[..|es| - 1]);
      PartOfMore(EligibleOf(es[..|es| - 1]), es[..|es| - 1], es[|es| - 1], Eligible(es[|es| - 1]));
    }
  }

  lemma {:induction false} ResponsesPart(ids: set<string>, es: seq<Envelope>)
    requires DistinctIds(es)
    ensures Part(Responses(ids, es), es)
  {
    hide Part, DistinctIds, Matched;
    if es == [] {
      NothingIsPart();
    } else {
      DistinctInit(es);
      ResponsesPart(ids, es[..|es| - 1]);
      PartOfMore(Responses(ids, es[..|es| - 1]), es[..|es| - 1], es[|es| - 1], Matched(ids, es[|es| - 1]));
    }
  }

  lemma {:induction false} RespondedPart(es: seq<Envelope>, first: map<string, Envelope>)
    requires DistinctIds(es)
    ensures Part(RespondedOf(es, first), es)
  {
    hide Part, DistinctIds;
    if es == [] {
      NothingIsPart();
    } else {
      DistinctInit(es);
      RespondedPart(es[..|es| - 1], first);
      PartOfMore(RespondedOf(es[..|es| - 1], first), es[..|es| - 1], es[|es| - 1], es[|es| - 1].id in first);
    }
  }

  lemma NothingIsPart()
    ensures Part([], [])
  {
  }

  function PostsOn(es: seq<Envelope>, chains: set<string>): (r: seq<Envelope>)
    ensures forall e :: e in r <==> e in es && e.kind == Post && e.correlation in chains
  {
    if es == [] then []
    else
      var init, last := es[..|es| - 1], es[|es| - 1];
      assert forall e :: e in es <==> e in init || e == last;
      PostsOn(init, chains) + if last.kind == Post && last.correlation in chains then [last] else []
  }

  lemma {:induction false} DerivedCounted(es: seq<Envelope>, chains: set<string>)
    requires DistinctIds(es)
    ensures DerivedPosts(es, chains) == |PostsOn(es, chains)| && Part(PostsOn(es, chains), es)
  {
    hide Part, DistinctIds;
    if es == [] {
      NothingIsPart();
    } else {
      DistinctInit(es);
      var init, last := es[..|es| - 1], es[|es| - 1];
      DerivedCounted(init, chains);
      PartOfMore(PostsOn(init, chains), init, last, last.kind == Post && last.correlation in chains);
    }
  }

  lemma PartCounts(r: seq<Envelope>, es: seq<Envelope>)
    requires Part(r, es)
    ensures |r| == |Elements(r)|
  {
    assert Distinct(r) by {
      forall i, j | 0 <= i < j < |r| ensures r[i] != r[j] {
        assert r[i].id != r[j].id;
      }
    }
    DistinctCardinality(r);
  }

  // ---------------------------------------------------------------- the parts of the fold

  lemma FoldParts(es: seq<Envelope>) returns (interventions: seq<Envelope>, responses: seq<Envelope>)
    requires DistinctIds(es)
    ensures interventions == Interventions(Ordered(es)) && responses == Responses(Ids(interventions), Ordered(es))
    ensures DistinctIds(interventions) && |interventions| == |Elements(interventions)| && |responses| == |Elements(responses)|
    ensures forall i :: i in interventions <==> Intervened(es, i)
    ensures forall r :: r in responses <==> Response(es, r)
  {
    hide Ordered, Interventions, Responses;
    var ordered := Ordered(es);
    OrderedIsAll(es);
    interventions := Interventions(ordered);
    InterventionsPart(ordered);
    PartCounts(interventions, ordered);
    var ids := Ids(interventions);
    responses := Responses(ids, ordered);
    ResponsesPart(ids, ordered);
    PartCounts(responses, ordered);
    forall r ensures r in responses <==> Response(es, r) {
      if r in responses {
        var i :| i in interventions && i.id == r.causation.value;
        assert Intervened(es, i) && Answer(es, i.id, r);
      }
      if Response(es, r) {
        var i :| Intervened(es, i) && Answer(es, i.id, r);
        assert i in interventions;
      }
    }
  }

  // The counts of the report are the sizes of sets of envelopes: interventions, those that can be answered, those that
  // were, the responses, the players, and the posts on a chain an intervention started.
  lemma ReportCounts(es: seq<Envelope>)
    requires DistinctIds(es)
    ensures var r := Fold(es);
            && r.total == |set i | i in es && Intervened(es, i)|
            && r.eligible == |set i | i in es && i.kind in {Dm, Comment}|
            && r.responded == |set i | i in es && Answered(es, i)|
            && r.matched == |set m | m in es && Response(es, m)|
            && r.players == |set i | i in es && Intervened(es, i) :: i.player|
            && r.respondedPlayers == (set m | m in es && Response(es, m) :: m.targetPlayer)
            && r.derivedPosts == |set p | p in es && Derived(es, p)|
  {
    hide Ordered, Interventions, Responses, FirstBy, EligibleOf, RespondedOf, DerivedPosts, Latencies, ByType,
         Intervened, Response, Answered, Derived, DistinctIds;
    var interventions, responses := FoldParts(es);
    assert Elements(interventions) == set i | i in es && Intervened(es, i) by { IntervenedIsIn(es); }
    assert Elements(responses) == set m | m in es && Response(es, m) by { ResponseIsIn(es); }
    var first := FirstBy(CauseOf, responses);
    EligibleCounted(es, interventions);
    RespondedCounted(es, interventions, responses, first);
    DerivedPostsCounted(es, interventions);
    assert Players(interventions) == set i | i in es && Intervened(es, i) :: i.player by { IntervenedIsIn(es); }
    assert FirstBy(PlayerOf, responses).Keys == set m | m in es && Response(es, m) :: m.targetPlayer by { PlayersAnswered(es, responses); }
  }

  lemma IntervenedIsIn(es: seq<Envelope>)
    ensures forall i :: Intervened(es, i) ==> i in es
  {
  }

  lemma ResponseIsIn(es: seq<Envelope>)
    ensures forall r :: Response(es, r) ==> r in es
  {
  }

  lemma PlayersAnswered(es: seq<Envelope>, responses: seq<Envelope>)
    requires forall r :: r in responses <==> Response(es, r)
    ensures FirstBy(PlayerOf, responses).Keys == set m | m in es && Response(es, m) :: m.targetPlayer
  {
    hide FirstBy, Response;
    ResponseIsIn(es);
    var first, players := FirstBy(PlayerOf, responses), set m | m in es && Response(es, m) :: m.targetPlayer;
    forall p ensures p in first <==> p in players {
      if p in first { assert first[p] in responses && PlayerOf(first[p]) == p; }
      if p in players {
        var m :| m in es && Response(es, m) && m.targetPlayer == p;
        assert PlayerOf(m) in first;
      }
    }
  }

  lemma EligibleCounted(es: seq<Envelope>, interventions: seq<Envelope>)
    requires DistinctIds(interventions) && forall i :: i in interventions <==> Intervened(es, i)
    ensures |EligibleOf(interventions)| == |set i | i in es && i.kind in {Dm, Comment}|
  {
    hide DistinctIds, Part, EligibleOf;
    EligiblePart(interventions);
    PartCounts(EligibleOf(interventions), interventions);
    assert Elements(EligibleOf(interventions)) == set i | i in es && i.kind in {Dm, Comment};
  }

  lemma AnsweredWhenFirst(es: seq<Envelope>, interventions: seq<Envelope>, responses: seq<Envelope>, i: Envelope)
    requires forall x :: x in interventions <==> Intervened(es, x)
    requires forall r :: r in responses <==> Response(es, r)
    ensures i in interventions && Eligible(i) && i.id in FirstBy(CauseOf, responses) <==> Answered(es, i)
  {
    hide FirstBy;
    var first := FirstBy(CauseOf, responses);
    if i in interventions && Eligible(i) && i.id in first {
      var r := first[i.id];
      assert Response(es, r) && CauseOf(r) == i.id;
      assert Answer(es, i.id, r);
    }
    if Answered(es, i) {
      var r :| Answer(es, i.id, r);
      assert Intervened(es, i);
      assert r in responses && CauseOf(r) == i.id;
    }
  }

  lemma RespondedCounted(es: seq<Envelope>, interventions: seq<Envelope>, responses: seq<Envelope>, first: map<string, Envelope>)
    requires DistinctIds(interventions) && first == FirstBy(CauseOf, responses)
    requires forall i :: i in interventions <==> Intervened(es, i)
    requires forall r :: r in responses <==> Response(es, r)
    ensures var responded := RespondedOf(EligibleOf(interventions), first);
            && |responded| == |set i | i in es && Answered(es, i)| && DistinctIds(responded)
            && forall i :: i in responded <==> Answered(es, i)
  {
    hide EligibleOf, RespondedOf, FirstBy, Answered, Intervened, Response, Eligible;
    EligiblePart(interventions);
    var eligible := EligibleOf(interventions);
    RespondedPart(eligible, first);
    var responded := RespondedOf(eligible, first);
    PartCounts(responded, eligible);
    forall i ensures i in responded <==> Answered(es, i) { AnsweredWhenFirst(es, interventions, responses, i); }
    assert Elements(responded) == set i | i in es && Answered(es, i) by { AnsweredIsIn(es); }
  }

  lemma AnsweredIsIn(es: seq<Envelope>)
    ensures forall i :: Answered(es, i) ==> i in es
  {
  }

  lemma DerivedPostsCounted(es: seq<Envelope>, interventions: seq<Envelope>)
    requires DistinctIds(es)
    requires forall i :: i in interventions <==> Intervened(es, i)
    ensures DerivedPosts(Ordered(es), Chains(interventions)) == |set p | p in es && Derived(es, p)|
  {
    hide DerivedPosts, PostsOn, Intervened, Ordered;
    OrderedIsAll(es);
    var ordered, chains := Ordered(es), Chains(interventions);
    DerivedCounted(ordered, chains);
    PartCounts(PostsOn(ordered, chains), ordered);
    forall p | p in es && p.kind == Post ensures p.correlation in chains <==> Derived(es, p) {
      if p.correlation in chains {
        var i :| i in interventions && p.correlation == if i.correlation != "" then i.correlation else i.id;
        assert OnChainOf(i, p.correlation);
      }
      if Derived(es, p) {
        var i :| Intervened(es, i) && OnChainOf(i, p.correlation);
        assert i in interventions;
      }
    }
    assert Elements(PostsOn(ordered, chains)) == set p | p in es && Derived(es, p);
  }

  // ---------------------------------------------------------------- latencies and players who came back

  lemma {:induction false} LatenciesAt(first: map<string, Envelope>, responded: seq<Envelope>)
    requires forall e :: e in responded ==> e.id in first
    ensures var gaps := Latencies(first, responded);
            |gaps| == |responded| && forall k :: 0 <= k < |gaps| ==> gaps[k] == first[responded[k].id].at - responded[k].at
  {
    if responded != [] {
      assert forall e :: e in responded[..|responded| - 1] ==> e in responded;
      LatenciesAt(first, responded[..|responded| - 1]);
    }
  }

  lemma FirstIsFirstAnswer(es: seq<Envelope>, interventions: seq<Envelope>, responses: seq<Envelope>, i: Envelope)
    requires DistinctIds(es)
    requires forall x :: x in interventions <==> Intervened(es, x)
    requires forall r :: r in responses <==> Response(es, r)
    requires Answered(es, i)
    ensures i.id in FirstBy(CauseOf, responses) && IsFirstAnswer(es, i, FirstBy(CauseOf, responses)[i.id])
  {
    hide FirstBy, StringLess;
    AnsweredWhenFirst(es, interventions, responses, i);
    var first := FirstBy(CauseOf, responses)[i.id];
    assert Response(es, first) && CauseOf(first) == i.id;
    assert Answer(es, i.id, first);
    assert Intervened(es, i);
    forall other | Answer(es, i.id, other) && other != first
      ensures first.at < other.at || (first.at == other.at && StringLess(first.id, other.id))
    {
      assert other in responses && CauseOf(other) == i.id;
      FirstIsEarliest(CauseOf, responses, other);
      BeforeIsAnOrder();
      ToldApartById(es, first, other);
    }
  }

  lemma ToldApartById(es: seq<Envelope>, a: Envelope, b: Envelope)
    requires DistinctIds(es) && a in es && b in es && a != b
    ensures a.id != b.id
  {
    var i :| 0 <= i < |es| && es[i] == a;
    var j :| 0 <= j < |es| && es[j] == b;
    assert es[i].id != es[j].id;
  }

  // An answered intervention and the wait for its first answer.
  ghost predicate Waited(es: seq<Envelope>, i: Envelope, gap: int) {
    Answered(es, i) && exists r :: IsFirstAnswer(es, i, r) && gap == r.at - i.at
  }

  lemma FirstWaits(es: seq<Envelope>, interventions: seq<Envelope>, responses: seq<Envelope>, answered: seq<Envelope>, gaps: seq<int>)
    requires DistinctIds(es)
    requires forall x :: x in interventions <==> Intervened(es, x)
    requires forall r :: r in responses <==> Response(es, r)
    requires forall i :: i in answered ==> Answered(es, i) && i.id in FirstBy(CauseOf, responses)
    requires gaps == Latencies(FirstBy(CauseOf, responses), answered)
    ensures |gaps| == |answered| && forall k :: 0 <= k < |gaps| ==> Waited(es, answered[k], gaps[k])
  {
    hide FirstBy, Intervened, Response, Answered, IsFirstAnswer, DistinctIds, Latencies;
    LatenciesAt(FirstBy(CauseOf, responses), answered);
    forall k | 0 <= k < |gaps| ensures Waited(es, answered[k], gaps[k]) {
      assert answered[k] in answered;
      FirstIsFirstAnswer(es, interventions, responses, answered[k]);
    }
  }

  lemma LatenciesOfFold(es: seq<Envelope>)
    ensures var interventions := Interventions(Ordered(es));
            var first := FirstBy(CauseOf, Responses(Ids(interventions), Ordered(es)));
            Fold(es).latencies == Latencies(first, RespondedOf(EligibleOf(interventions), first))
  {
    hide Ordered, Interventions, Responses, FirstBy, EligibleOf, RespondedOf, DerivedPosts, Latencies, ByType;
  }

  ghost predicate OneWaitEach(es: seq<Envelope>, answered: seq<Envelope>, gaps: seq<int>) {
    && DistinctIds(answered) && (forall i :: i in answered <==> Answered(es, i))
    && |answered| == |gaps| && forall k :: 0 <= k < |gaps| ==> Waited(es, answered[k], gaps[k])
  }

  // The latencies are the waits of the answered interventions for their first answers, one each.
  lemma LatenciesAreFirstWaits(es: seq<Envelope>)
    requires DistinctIds(es)
    ensures exists answered :: OneWaitEach(es, answered, Fold(es).latencies)
  {
    hide Fold, Ordered, Interventions, Responses, FirstBy, EligibleOf, RespondedOf, DerivedPosts, Latencies, ByType, Ids,
         Intervened, Response, Answered, IsFirstAnswer, DistinctIds, Waited;
    var interventions, responses := FoldParts(es);
    var first := FirstBy(CauseOf, responses);
    RespondedCounted(es, interventions, responses, first);
    var answered := RespondedOf(EligibleOf(interventions), first);
    LatenciesOfFold(es);
    FirstWaits(es, interventions, responses, answered, Fold(es).latencies);
    assert OneWaitEach(es, answered, Fold(es).latencies);
  }

  // A player counts as re-engaged exactly when an intervention of theirs is later than a response to them.
  lemma ReengagedExactlyWhenBack(es: seq<Envelope>, player: string)
    requires DistinctIds(es)
    ensures player in Fold(es).reengaged <==> ComesBack(es, player)
  {
    hide Fold, Ordered, Interventions, Responses, Intervened, Response, StringLess, DistinctIds, Elements, Ids;
    var interventions, responses := FoldParts(es);
    ReengagedMeansCameBack(es, player);
    if CameBack(interventions, responses, player) {
      var i, r :| i in interventions && i.player == player && r in responses && r.targetPlayer == player && Before(r, i);
      assert Intervened(es, i) && Response(es, r);
    }
    if ComesBack(es, player) {
      var i, r :| Intervened(es, i) && i.player == player && Response(es, r) && r.targetPlayer == player
                  && (r.at < i.at || (r.at == i.at && StringLess(r.id, i.id)));
      assert i in interventions && r in responses && Before(r, i);
    }
  }
}
