// Whom the players have been watching: hits kept in a rolling window, and what their stamps do to it.
module Attention {
  import opened Prelude

  // A player's interest in an actor: the tick the event is stamped with, and the tick in which it arrived.
  datatype Hit = Hit(stamp: int, target: string, arrived: int)

  // Drops hits from the front while their stamps are at or before the bound.
  function Evict(hits: seq<Hit>, bound: int): seq<Hit> {
    if hits != [] && hits[0].stamp <= bound then Evict(hits[1..], bound) else hits
  }

  function Watched(hits: seq<Hit>, target: string): nat {
    if hits == [] then 0 else Watched(hits[..|hits| - 1], target) + if hits[|hits| - 1].target == target then 1 else 0
  }

  // The interest an actor drew inside the window that ends at a tick, by stamp and by arrival.
  function Stamped(hits: seq<Hit>, target: string, bound: int): nat {
    if hits == [] then 0
    else Stamped(hits[..|hits| - 1], target, bound)
         + if hits[|hits| - 1].target == target && hits[|hits| - 1].stamp > bound then 1 else 0
  }

  function Drawn(hits: seq<Hit>, target: string, bound: int): nat {
    if hits == [] then 0
    else Drawn(hits[..|hits| - 1], target, bound)
         + if hits[|hits| - 1].target == target && hits[|hits| - 1].arrived > bound then 1 else 0
  }

  // A run of the tracker: interest observed, and scores asked for, at ticks that never go back.
  datatype Step = Observe(stamp: int, target: string) | Ask
  datatype State = State(kept: seq<Hit>, all: seq<Hit>, now: int)

  function Apply(s: State, window: int, tick: int, step: Step): State {
    match step
    case Observe(stamp, target) => State(s.kept + [Hit(stamp, target, tick)], s.all + [Hit(stamp, target, tick)], tick)
    case Ask => State(Evict(s.kept, tick - window), s.all, tick)
  }

  function Run(window: int, steps: seq<(int, Step)>): State {
    if steps == [] then State([], [], 0)
    else Apply(Run(window, steps[..|steps| - 1]), window, steps[|steps| - 1].0, steps[|steps| - 1].1)
  }

  // Ticks start at 0 and never go back.
  ghost predicate Timely(steps: seq<(int, Step)>) {
    && (forall i :: 0 <= i < |steps| ==> steps[i].0 >= 0)
    && forall i, j :: 0 <= i < j < |steps| ==> steps[i].0 <= steps[j].0
  }

  // What the tracker answers when asked at a tick.
  function Score(s: State, window: int, tick: int, target: string): nat { Watched(Evict(s.kept, tick - window), target) }

  // Stamps that say when the event arrived, and stamps as the gateway gives them to everything a player does.
  ghost predicate StampedOnArrival(steps: seq<(int, Step)>) {
    forall i :: 0 <= i < |steps| && steps[i].1.Observe? ==> steps[i].1.stamp == steps[i].0
  }

  ghost predicate StampedZero(steps: seq<(int, Step)>) {
    forall i :: 0 <= i < |steps| && steps[i].1.Observe? ==> steps[i].1.stamp == 0
  }

  // No event is stamped later than it arrives, or earlier than the one before.
  ghost predicate StampedInOrder(steps: seq<(int, Step)>) {
    && (forall i :: 0 <= i < |steps| && steps[i].1.Observe? ==> steps[i].1.stamp <= steps[i].0)
    && forall i, j :: 0 <= i < j < |steps| && steps[i].1.Observe? && steps[j].1.Observe? ==>
         steps[i].1.stamp <= steps[j].1.stamp
  }

  lemma {:induction false} StampedConcat(xs: seq<Hit>, ys: seq<Hit>, target: string, bound: int)
    ensures Stamped(xs + ys, target, bound) == Stamped(xs, target, bound) + Stamped(ys, target, bound)
  {
    if ys == [] {
      assert xs + ys == xs;
    } else {
      assert (xs + ys)[..|xs + ys| - 1] == xs + ys[..|ys| - 1];
      StampedConcat(xs, ys[..|ys| - 1], target, bound);
    }
  }

  lemma {:induction false} AllStamped(hits: seq<Hit>, target: string, bound: int)
    requires forall i :: 0 <= i < |hits| ==> hits[i].stamp > bound
    ensures Stamped(hits, target, bound) == Watched(hits, target)
  {
    if hits != [] { AllStamped(hits[..|hits| - 1], target, bound); }
  }

  ghost predicate InStampOrder(hits: seq<Hit>) { forall i, j :: 0 <= i < j < |hits| ==> hits[i].stamp <= hits[j].stamp }

  lemma {:induction false} EvictCounts(hits: seq<Hit>, target: string, bound: int, later: int)
    requires InStampOrder(hits) && bound <= later
    ensures Stamped(Evict(hits, bound), target, later) == Stamped(hits, target, later)
    ensures Watched(Evict(hits, bound), target) == Stamped(hits, target, bound)
    ensures InStampOrder(Evict(hits, bound)) && forall h :: h in Evict(hits, bound) ==> h in hits
  {
    if hits != [] && hits[0].stamp <= bound {
      assert hits == [hits[0]] + hits[1..];
      StampedConcat([hits[0]], hits[1..], target, later);
      StampedConcat([hits[0]], hits[1..], target, bound);
      assert Stamped([hits[0]], target, later) == 0 == Stamped([hits[0]], target, bound) by {
        assert [hits[0]][..0] == [];
      }
      EvictCounts(hits[1..], target, bound, later);
    } else {
      AllStamped(hits, target, bound);
    }
  }

  // What is kept counts like everything observed, from the window of the last tick on.
  ghost predicate KeepsCounts(s: State, window: int) {
    && InStampOrder(s.kept) && (forall h :: h in s.kept ==> h.stamp <= s.now)
    && forall target, bound :: bound >= s.now - window ==> Stamped(s.kept, target, bound) == Stamped(s.all, target, bound)
  }

  lemma OneMoreHit(s: State, window: int, tick: int, stamp: int, target: string)
    requires KeepsCounts(s, window) && tick >= s.now && stamp <= tick
    requires forall h :: h in s.kept ==> h.stamp <= stamp
    ensures KeepsCounts(Apply(s, window, tick, Observe(stamp, target)), window)
  {
    var s' := Apply(s, window, tick, Observe(stamp, target));
    var h := Hit(stamp, target, tick);
    assert forall i :: 0 <= i < |s.kept| ==> s.kept[i] in s.kept;
    forall t, bound | bound >= s'.now - window ensures Stamped(s'.kept, t, bound) == Stamped(s'.all, t, bound) {
      StampedConcat(s.kept, [h], t, bound);
      StampedConcat(s.all, [h], t, bound);
    }
  }

  lemma Asked(s: State, window: int, tick: int)
    requires KeepsCounts(s, window) && tick >= s.now
    ensures KeepsCounts(Apply(s, window, tick, Ask), window)
  {
    hide Evict, Stamped, InStampOrder;
    var s' := Apply(s, window, tick, Ask);
    EvictCounts(s.kept, "", tick - window, tick - window);
    forall t, bound | bound >= s'.now - window ensures Stamped(s'.kept, t, bound) == Stamped(s'.all, t, bound) {
      EvictCounts(s.kept, t, tick - window, bound);
    }
  }

  lemma {:induction false} RunKeepsCounts(window: int, steps: seq<(int, Step)>)
    requires Timely(steps) && StampedInOrder(steps)
    ensures KeepsCounts(Run(window, steps), window)
    ensures steps != [] ==> Run(window, steps).now == steps[|steps| - 1].0
    ensures forall h :: h in Run(window, steps).kept ==> SomeStamp(steps, h.stamp)
  {
    hide KeepsCounts, Evict, SomeStamp;
    if steps == [] {
      assert KeepsCounts(State([], [], 0), window) by { NothingSeen(window); }
    } else {
      var init := steps[..|steps| - 1];
      var (tick, step) := steps[|steps| - 1];
      RunKeepsCounts(window, init);
      var s := Run(window, init);
      assert s.now <= tick;
      forall h | h in s.kept ensures SomeStamp(steps, h.stamp) && (step.Observe? ==> h.stamp <= step.stamp) {
        EarlierStamp(steps, h.stamp);
      }
      match step {
        case Observe(stamp, target) =>
          OneMoreHit(s, window, tick, stamp, target);
          LastStamp(steps);
        case Ask =>
          Asked(s, window, tick);
          EvictAmong(s.kept, tick - window);
      }
    }
  }

  lemma NothingSeen(window: int)
    ensures KeepsCounts(State([], [], 0), window)
  {
  }

  ghost predicate SomeStamp(steps: seq<(int, Step)>, stamp: int) {
    exists i :: 0 <= i < |steps| && steps[i].1.Observe? && steps[i].1.stamp == stamp
  }

  lemma EarlierStamp(steps: seq<(int, Step)>, stamp: int)
    requires steps != [] && StampedInOrder(steps) && SomeStamp(steps[..|steps| - 1], stamp)
    ensures SomeStamp(steps, stamp) && (steps[|steps| - 1].1.Observe? ==> stamp <= steps[|steps| - 1].1.stamp)
  {
    var i :| 0 <= i < |steps| - 1 && steps[..|steps| - 1][i].1.Observe? && steps[..|steps| - 1][i].1.stamp == stamp;
    assert steps[i].1.Observe? && steps[i].1.stamp == stamp;
  }

  lemma LastStamp(steps: seq<(int, Step)>)
    requires steps != [] && steps[|steps| - 1].1.Observe?
    ensures SomeStamp(steps, steps[|steps| - 1].1.stamp)
  {
  }

  lemma {:induction false} EvictAmong(hits: seq<Hit>, bound: int)
    ensures forall h :: h in Evict(hits, bound) ==> h in hits
  {
    if hits != [] && hits[0].stamp <= bound { EvictAmong(hits[1..], bound); }
  }

  // With stamps in order a score is the number of hits stamped inside the window, however often scores were asked
  // for before.
  lemma ScoreCountsStamps(window: int, steps: seq<(int, Step)>, tick: int, target: string)
    requires Timely(steps) && StampedInOrder(steps) && tick >= Run(window, steps).now
    ensures Score(Run(window, steps), window, tick, target) == Stamped(Run(window, steps).all, target, tick - window)
  {
    hide Run, Evict, Stamped, InStampOrder;
    RunKeepsCounts(window, steps);
    EvictCounts(Run(window, steps).kept, target, tick - window, tick - window);
  }

  // Out of order: front eviction counts right in every later window exactly when no hit still in the window is
  // followed by one with an older stamp.
  lemma CountsRightExactlyWhenInOrder(hits: seq<Hit>, from: int)
    ensures (forall target, bound :: bound >= from ==> Watched(Evict(hits, bound), target) == Stamped(hits, target, bound))
            <==> InOrderAfter(hits, from)
  {
    hide Watched, Evict, Stamped;
    if InOrderAfter(hits, from) {
      forall target, bound | bound >= from ensures Watched(Evict(hits, bound), target) == Stamped(hits, target, bound) {
        InOrderIsCounted(hits, from, target, bound);
      }
    } else {
      var i, j :| 0 <= i < j < |hits| && hits[i].stamp > from && hits[j].stamp < hits[i].stamp;
      HiddenBehind(hits, i, j, Max(hits[j].stamp, from));
    }
  }

  ghost predicate InOrderAfter(hits: seq<Hit>, from: int) {
    forall i, j :: 0 <= i < j < |hits| && hits[i].stamp > from ==> hits[i].stamp <= hits[j].stamp
  }

  lemma {:induction false} InOrderIsCounted(hits: seq<Hit>, from: int, target: string, bound: int)
    requires InOrderAfter(hits, from) && bound >= from
    ensures Watched(Evict(hits, bound), target) == Stamped(hits, target, bound)
  {
    if hits != [] && hits[0].stamp <= bound {
      FrontIsOutside(hits, target, bound);
      InOrderIsCounted(hits[1..], from, target, bound);
    } else {
      AllStamped(hits, target, bound);
    }
  }

  lemma FrontIsOutside(hits: seq<Hit>, target: string, bound: int)
    requires hits != [] && hits[0].stamp <= bound
    ensures Stamped(hits, target, bound) == Stamped(hits[1..], target, bound)
  {
    assert hits == [hits[0]] + hits[1..] && [hits[0]][..0] == [];
    StampedConcat([hits[0]], hits[1..], target, bound);
  }

  // A hit outside the window is counted as long as one in front of it is inside.
  lemma {:induction false} HiddenBehind(hits: seq<Hit>, i: nat, j: nat, bound: int)
    requires i < j < |hits| && hits[j].stamp <= bound < hits[i].stamp
    ensures Watched(Evict(hits, bound), hits[j].target) > Stamped(hits, hits[j].target, bound)
  {
    if hits[0].stamp <= bound {
      FrontIsOutside(hits, hits[j].target, bound);
      HiddenBehind(hits[1..], i - 1, j - 1, bound);
    } else {
      OneOutside(hits, j, bound);
    }
  }

  lemma {:induction false} OneOutside(hits: seq<Hit>, j: nat, bound: int)
    requires j < |hits| && hits[j].stamp <= bound
    ensures Watched(hits, hits[j].target) > Stamped(hits, hits[j].target, bound)
  {
    if j < |hits| - 1 { OneOutside(hits[..|hits| - 1], j, bound); } else { AtMostWatched(hits[..j], hits[j].target, bound); }
  }

  lemma {:induction false} AtMostWatched(hits: seq<Hit>, target: string, bound: int)
    ensures Stamped(hits, target, bound) <= Watched(hits, target)
  {
    if hits != [] { AtMostWatched(hits[..|hits| - 1], target, bound); }
  }

  // Every hit carries the stamp its source gives it.
  lemma {:induction false} AllHits(window: int, steps: seq<(int, Step)>)
    requires Timely(steps)
    ensures forall h :: h in Run(window, steps).all ==> h.arrived >= 0
    ensures StampedOnArrival(steps) ==> forall h :: h in Run(window, steps).all ==> h.stamp == h.arrived
    ensures StampedZero(steps) ==> forall h :: h in Run(window, steps).all ==> h.stamp == 0
  {
    hide Evict;
    if steps != [] {
      var init := steps[..|steps| - 1];
      AllHits(window, init);
      assert StampedOnArrival(steps) ==> StampedOnArrival(init);
      assert StampedZero(steps) ==> StampedZero(init);
    }
  }

  lemma {:induction false} StampsAreArrivals(hits: seq<Hit>, target: string, bound: int)
    requires forall h :: h in hits ==> h.stamp == h.arrived
    ensures Stamped(hits, target, bound) == Drawn(hits, target, bound)
  {
    if hits != [] {
      var init, last := hits[..|hits| - 1], hits[|hits| - 1];
      assert last in hits && forall h :: h in init ==> h in hits;
      StampsAreArrivals(init, target, bound);
    }
  }

  lemma {:induction false} ZeroStamps(hits: seq<Hit>, target: string, bound: int)
    requires forall h :: h in hits ==> h.stamp == 0 && h.arrived >= 0
    ensures bound < 0 ==> Stamped(hits, target, bound) == Drawn(hits, target, bound)
    ensures bound >= 0 ==> Stamped(hits, target, bound) == 0
  {
    if hits != [] {
      var init, last := hits[..|hits| - 1], hits[|hits| - 1];
      assert last in hits && forall h :: h in init ==> h in hits;
      ZeroStamps(init, target, bound);
    }
  }

  // Stamped on arrival, events would be counted for as long as the window lasts.
  lemma ScoreIsInterestIfStampedOnArrival(window: int, steps: seq<(int, Step)>, tick: int, target: string)
    requires Timely(steps) && StampedOnArrival(steps) && tick >= Run(window, steps).now
    ensures Score(Run(window, steps), window, tick, target) == Drawn(Run(window, steps).all, target, tick - window)
  {
    hide Run, Score, Stamped, Drawn;
    ScoreCountsStamps(window, steps, tick, target);
    AllHits(window, steps);
    StampsAreArrivals(Run(window, steps).all, target, tick - window);
  }

  // Stamped zero, as everything a player does is, they count only while the world is younger than the window:
  // from then on a score is right exactly when nobody was interested.
  lemma ScoreIsInterestExactlyInTheFirstWindow(window: int, steps: seq<(int, Step)>, tick: int, target: string)
    requires Timely(steps) && StampedZero(steps) && tick >= Run(window, steps).now
    ensures Score(Run(window, steps), window, tick, target) == Drawn(Run(window, steps).all, target, tick - window)
            <==> tick < window || Drawn(Run(window, steps).all, target, tick - window) == 0
    ensures tick >= window ==> Score(Run(window, steps), window, tick, target) == 0
  {
    hide Run, Score, Stamped, Drawn;
    ScoreCountsStamps(window, steps, tick, target);
    AllHits(window, steps);
    ZeroStamps(Run(window, steps).all, target, tick - window);
  }

  // ---------------------------------------------------------------- the tracker

  function Seen(hits: seq<Hit>): seq<(int, string)> {
    if hits == [] then [] else Seen(hits[..|hits| - 1]) + [(hits[|hits| - 1].stamp, hits[|hits| - 1].target)]
  }

  lemma {:induction false} SeenAt(hits: seq<Hit>)
    ensures |Seen(hits)| == |hits| && forall i :: 0 <= i < |hits| ==> Seen(hits)[i] == (hits[i].stamp, hits[i].target)
  {
    if hits != [] { SeenAt(hits[..|hits| - 1]); }
  }

  lemma SeenRest(hits: seq<Hit>, seen: seq<(int, string)>)
    requires seen == Seen(hits) && hits != []
    ensures seen[1..] == Seen(hits[1..])
  {
    SeenAt(hits);
    SeenAt(hits[1..]);
  }

  // The tracker keeps stamps and targets; when the events arrived it does not know.
  class AttentionTracker {
    const window: int
    var hits: seq<(int, string)>
    ghost var state: State

    ghost predicate Valid()
      reads this
    {
      hits == Seen(state.kept)
    }

    constructor (window: int)
      ensures Valid() && this.window == window && state == State([], [], 0)
    {
      this.window, hits, state := window, [], State([], [], 0);
    }

    // Events without a target are no interest in anybody.
    method Observe(stamp: int, target: string, ghost arrived: int)
      requires Valid()
      modifies this
      ensures Valid()
      ensures state == if target == "" then old(state) else Apply(old(state), window, arrived, Step.Observe(stamp, target))
    {
      if target != "" {
        hits := hits + [(stamp, target)];
        state := Apply(state, window, arrived, Step.Observe(stamp, target));
      }
    }

    method Scores(tick: int) returns (counts: map<string, nat>)
      requires Valid()
      modifies this
      ensures Valid() && state == Apply(old(state), window, tick, Ask)
      ensures forall target :: (if target in counts then counts[target] else 0) == Score(old(state), window, tick, target)
    {
      ghost var kept := state.kept;
      hide Seen, Watched;
      SeenAt(kept);
      while |hits| > 0 && hits[0].0 <= tick - window
        invariant state == old(state) && hits == Seen(kept) && Evict(kept, tick - window) == Evict(state.kept, tick - window)
        decreases |hits|
      {
        SeenAt(kept);
        SeenRest(kept, hits);
        hits, kept := hits[1..], kept[1..];
      }
      SeenAt(kept);
      state := Apply(state, window, tick, Ask);
      counts := Tally(kept);
    }

    method Tally(ghost kept: seq<Hit>) returns (counts: map<string, nat>)
      requires hits == Seen(kept)
      ensures forall target :: (if target in counts then counts[target] else 0) == Watched(kept, target)
    {
      SeenAt(kept);
      counts := map[];
      for i := 0 to |hits|
        invariant forall target :: (if target in counts then counts[target] else 0) == Watched(kept[..i], target)
      {
        assert kept[..i + 1][..i] == kept[..i];
        var target := hits[i].1;
        counts := counts[target := (if target in counts then counts[target] else 0) + 1];
      }
      assert kept[..|kept|] == kept;
    }
  }
}
