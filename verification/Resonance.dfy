// Conversations that stay on an actor's mind until they burst out as a follow-up post.
module Resonance {
  import opened Prelude

  const GIST_MAX: nat := 120

  // Intensities are ten-thousandths.
  datatype Memory = Memory(correlation: string, source: string, player: string, comment: string, reply: string, intensity: int,
                           tick: int)

  datatype Config = Config(ttl: int, cooldown: int, threshold: int)

  // The stored keys: one memory per actor, the correlations already spent, the tick of the last burst.
  datatype Store = Store(slots: map<string, Memory>, spent: set<(string, string)>, lastBurst: map<string, int>)

  datatype Burst = Burst(actor: string, memory: Memory, tick: int)

  predicate Takes(s: Store, actor: string, m: Memory) {
    (actor, m.correlation) !in s.spent && !(actor in s.slots && s.slots[actor].intensity > m.intensity)
  }

  function Recorded(s: Store, actor: string, m: Memory): Store {
    if Takes(s, actor, m) then s.(slots := s.slots[actor := m]) else s
  }

  function Cleared(s: Store, actor: string): Store { s.(slots := s.slots - {actor}) }

  function Spent(s: Store, actor: string, correlation: string, tick: int): Store {
    Store(s.slots - {actor}, s.spent + {(actor, correlation)}, s.lastBurst[actor := tick])
  }

  predicate Faded(c: Config, s: Store, actor: string, tick: int) {
    actor in s.slots && tick - s.slots[actor].tick > c.ttl
  }

  predicate Bursts(c: Config, s: Store, actor: string, tick: int) {
    actor in s.slots && !Faded(c, s, actor, tick) && !(actor in s.lastBurst && tick - s.lastBurst[actor] < c.cooldown)
  }

  // A rhythm moment of an actor: a faded memory goes silently, one that is ripe bursts.
  function AfterMoment(c: Config, s: Store, actor: string, tick: int): Store {
    if Faded(c, s, actor, tick) then Cleared(s, actor)
    else if Bursts(c, s, actor, tick) then Spent(s, actor, s.slots[actor].correlation, tick)
    else s
  }

  // ---------------------------------------------------------------- which exchanges are offered

  // What one tick leaves behind: emotional shifts with the event that caused them, and the replies given.
  datatype Shift = Shift(cause: Option<string>, intensity: int)
  datatype Reply = Reply(actor: string, comment: bool, event: string, correlation: string, player: string, said: string, text: string)

  function Peak(shifts: seq<Shift>, event: string): (p: int)
    ensures p >= 0
    ensures forall i :: 0 <= i < |shifts| && shifts[i].cause == Some(event) ==> shifts[i].intensity <= p
    ensures p == 0 || exists i :: 0 <= i < |shifts| && shifts[i] == Shift(Some(event), p)
  {
    if shifts == [] then 0
    else
      var before, last := Peak(shifts[..|shifts| - 1], event), shifts[|shifts| - 1];
      if last.cause == Some(event) then Max(before, last.intensity) else before
  }

  function MemoryOf(shifts: seq<Shift>, r: Reply, tick: int): Memory {
    Memory(r.correlation, r.event, r.player, Take(r.said, GIST_MAX), Take(r.text, GIST_MAX), Peak(shifts, r.event), tick)
  }

  // The exchanges worth remembering, in order.
  function Offers(c: Config, shifts: seq<Shift>, replies: seq<Reply>, tick: int): seq<(string, Memory)> {
    if replies == [] then []
    else
      var before, r := Offers(c, shifts, replies[..|replies| - 1], tick), replies[|replies| - 1];
      if r.comment && Peak(shifts, r.event) >= c.threshold then before + [(r.actor, MemoryOf(shifts, r, tick))] else before
  }

  function RecordedAll(s: Store, offers: seq<(string, Memory)>): Store {
    if offers == [] then s
    else Recorded(RecordedAll(s, offers[..|offers| - 1]), offers[|offers| - 1].0, offers[|offers| - 1].1)
  }

  // ---------------------------------------------------------------- runs

  // `offered` lists, for every actor, what was offered and not yet spent since the actor's mind was last empty.
  datatype World = World(store: Store, now: int, bursts: seq<Burst>, offered: map<string, seq<Memory>>)

  datatype Step =
    | Offer(actor: string, memory: Memory)
    | Moment(actor: string, tick: int)

  function Offered(w: World, actor: string): seq<Memory> { if actor in w.offered then w.offered[actor] else [] }

  predicate Enabled(w: World, step: Step) {
    match step
    case Offer(_, m) => m.tick >= w.now
    case Moment(_, tick) => tick >= w.now
  }

  function Apply(c: Config, w: World, step: Step): World {
    match step
    case Offer(actor, m) =>
      var offered := if (actor, m.correlation) in w.store.spent then w.offered else w.offered[actor := Offered(w, actor) + [m]];
      World(Recorded(w.store, actor, m), m.tick, w.bursts, offered)
    case Moment(actor, tick) =>
      var s := AfterMoment(c, w.store, actor, tick);
      var burst := if Bursts(c, w.store, actor, tick) then [Burst(actor, w.store.slots[actor], tick)] else [];
      World(s, tick, w.bursts + burst, if actor in s.slots then w.offered else w.offered[actor := []])
  }

  function Start(now: int): World { World(Store(map[], {}, map[]), now, [], map[]) }

  // Every step of a run was possible where it was taken.
  ghost predicate Legal(c: Config, now: int, steps: seq<Step>) {
    steps == []
    || (Legal(c, now, steps[..|steps| - 1]) && Enabled(Run(c, now, steps[..|steps| - 1]), steps[|steps| - 1]))
  }

  function Run(c: Config, now: int, steps: seq<Step>): World {
    if steps == [] then Start(now) else Apply(c, Run(c, now, steps[..|steps| - 1]), steps[|steps| - 1])
  }

  ghost predicate Reachable(c: Config, w: World) { exists now, steps :: Legal(c, now, steps) && Run(c, now, steps) == w }

  // ---------------------------------------------------------------- the invariant

  ghost predicate SlotInv(w: World) {
    && (forall a :: a in w.store.slots <==> Offered(w, a) != [])
    && (forall a :: a in w.store.slots ==> LastOfStrongest(Offered(w, a), w.store.slots[a]))
    && (forall a :: a in w.store.slots ==> (a, w.store.slots[a].correlation) !in w.store.spent)
  }

  // The memory kept is the newest among the strongest offered.
  ghost predicate LastOfStrongest(offered: seq<Memory>, m: Memory) {
    exists k :: 0 <= k < |offered| && offered[k] == m
                && (forall i :: 0 <= i < k ==> offered[i].intensity <= m.intensity)
                && (forall i :: k < i < |offered| ==> offered[i].intensity < m.intensity)
  }

  ghost predicate BurstInv(c: Config, w: World) {
    && (forall i :: 0 <= i < |w.bursts| ==>
          && (w.bursts[i].actor, w.bursts[i].memory.correlation) in w.store.spent
          && w.bursts[i].tick - w.bursts[i].memory.tick <= c.ttl
          && w.bursts[i].actor in w.store.lastBurst
          && w.bursts[i].tick <= w.store.lastBurst[w.bursts[i].actor] <= w.now)
    && (forall i, j :: 0 <= i < j < |w.bursts| && w.bursts[i].actor == w.bursts[j].actor ==>
          && w.bursts[i].memory.correlation != w.bursts[j].memory.correlation
          && w.bursts[j].tick - w.bursts[i].tick >= c.cooldown)
    && (forall i, j :: 0 <= i < j < |w.bursts| ==> w.bursts[i].tick <= w.bursts[j].tick)
  }

  lemma OfferKeepsSlots(c: Config, w: World, actor: string, m: Memory)
    requires SlotInv(w)
    ensures SlotInv(Apply(c, w, Offer(actor, m)))
  {
    var w' := Apply(c, w, Offer(actor, m));
    forall a | a in w'.store.slots ensures LastOfStrongest(Offered(w', a), w'.store.slots[a]) {
      if a in w.store.slots { assert LastOfStrongest(Offered(w, a), w.store.slots[a]); }
      if a == actor && (actor, m.correlation) !in w.store.spent {
        NewestOfStrongest(Offered(w, a), m, if a in w.store.slots then Some(w.store.slots[a]) else None);
      }
    }
  }

  lemma NewestOfStrongest(offered: seq<Memory>, m: Memory, kept: Option<Memory>)
    requires if kept.Some? then LastOfStrongest(offered, kept.value) else offered == []
    ensures LastOfStrongest(offered + [m], if kept.Some? && kept.value.intensity > m.intensity then kept.value else m)
  {
    var more := offered + [m];
    if kept.None? {
      assert more[0] == m;
    } else {
      var k :| 0 <= k < |offered| && offered[k] == kept.value
               && (forall i :: 0 <= i < k ==> offered[i].intensity <= kept.value.intensity)
               && (forall i :: k < i < |offered| ==> offered[i].intensity < kept.value.intensity);
      if kept.value.intensity > m.intensity {
        assert more[k] == kept.value;
      } else {
        assert more[|offered|] == m;
        assert forall i :: 0 <= i < |offered| ==> more[i] == offered[i] && offered[i].intensity <= kept.value.intensity;
      }
    }
  }

  lemma MomentKeepsSlots(c: Config, w: World, actor: string, tick: int)
    requires SlotInv(w)
    ensures SlotInv(Apply(c, w, Moment(actor, tick)))
  {
    hide LastOfStrongest;
  }

  lemma StepKeepsBursts(c: Config, w: World, step: Step)
    requires SlotInv(w) && BurstInv(c, w) && Enabled(w, step)
    ensures BurstInv(c, Apply(c, w, step))
  {
    hide LastOfStrongest;
  }

  lemma {:induction false} RunKeepsInv(c: Config, now: int, steps: seq<Step>)
    requires Legal(c, now, steps)
    ensures SlotInv(Run(c, now, steps)) && BurstInv(c, Run(c, now, steps))
  {
    if steps != [] {
      hide SlotInv, BurstInv, Apply;
      var init, last := steps[..|steps| - 1], steps[|steps| - 1];
      var v := Run(c, now, init);
      RunKeepsInv(c, now, init);
      match last {
        case Offer(actor, m) => OfferKeepsSlots(c, v, actor, m);
        case Moment(actor, tick) => MomentKeepsSlots(c, v, actor, tick);
      }
      StepKeepsBursts(c, v, last);
    }
  }

  // In every run no correlation bursts twice for an actor, and bursts of an actor are a cooldown apart.
  lemma BurstsAreRare(c: Config, w: World, i: nat, j: nat)
    requires Reachable(c, w) && i < j < |w.bursts| && w.bursts[i].actor == w.bursts[j].actor
    ensures w.bursts[i].memory.correlation != w.bursts[j].memory.correlation
    ensures w.bursts[j].tick - w.bursts[i].tick >= c.cooldown
  {
    hide Legal, Run, SlotInv;
    var now, steps :| Legal(c, now, steps) && Run(c, now, steps) == w;
    RunKeepsInv(c, now, steps);
  }

  // And every one bursts within the lifetime of its memory.
  lemma BurstsAreFresh(c: Config, w: World, i: nat)
    requires Reachable(c, w) && i < |w.bursts|
    ensures w.bursts[i].tick - w.bursts[i].memory.tick <= c.ttl
  {
    hide Legal, Run, SlotInv;
    var now, steps :| Legal(c, now, steps) && Run(c, now, steps) == w;
    RunKeepsInv(c, now, steps);
  }

  // What is on an actor's mind is the newest of the strongest unspent memories offered since it was last empty, and
  // nothing is on it only if nothing was offered.
  lemma TheStrongestStays(c: Config, w: World, actor: string)
    requires Reachable(c, w)
    ensures actor in w.store.slots <==> Offered(w, actor) != []
    ensures actor in w.store.slots ==> LastOfStrongest(Offered(w, actor), w.store.slots[actor])
  {
    hide Legal, Run, BurstInv, LastOfStrongest;
    var now, steps :| Legal(c, now, steps) && Run(c, now, steps) == w;
    RunKeepsInv(c, now, steps);
  }

  // ---------------------------------------------------------------- when a memory bursts

  ghost predicate BurstOf(w: World, i: nat, actor: string) { i < |w.bursts| && w.bursts[i].actor == actor }

  // Nothing is spent, and no burst is remembered, without a burst.
  ghost predicate NothingElse(w: World) {
    && (forall a, corr :: (a, corr) in w.store.spent ==> exists i: nat :: BurstOf(w, i, a) && w.bursts[i].memory.correlation == corr)
    && forall a :: a in w.store.lastBurst ==> exists i: nat :: BurstOf(w, i, a) && w.bursts[i].tick == w.store.lastBurst[a]
  }

  lemma StepKeepsNothingElse(c: Config, w: World, step: Step)
    requires NothingElse(w)
    ensures NothingElse(Apply(c, w, step))
  {
    var w' := Apply(c, w, step);
    forall i: nat, a | BurstOf(w, i, a) ensures BurstOf(w', i, a) && w'.bursts[i] == w.bursts[i] {}
    if |w'.bursts| > |w.bursts| { assert BurstOf(w', |w.bursts|, step.actor); }
  }

  lemma {:induction false} RunKeepsNothingElse(c: Config, now: int, steps: seq<Step>)
    requires Legal(c, now, steps)
    ensures NothingElse(Run(c, now, steps))
  {
    if steps != [] {
      hide NothingElse, Apply;
      RunKeepsNothingElse(c, now, steps[..|steps| - 1]);
      StepKeepsNothingElse(c, Run(c, now, steps[..|steps| - 1]), steps[|steps| - 1]);
    }
  }

  // A correlation is spent for an actor exactly by bursting.
  lemma SpentExactlyByBursting(c: Config, w: World, actor: string, correlation: string)
    requires Reachable(c, w)
    ensures (actor, correlation) in w.store.spent
            <==> exists i: nat :: BurstOf(w, i, actor) && w.bursts[i].memory.correlation == correlation
  {
    hide Legal, Run, SlotInv;
    var now, steps :| Legal(c, now, steps) && Run(c, now, steps) == w;
    RunKeepsInv(c, now, steps);
    RunKeepsNothingElse(c, now, steps);
  }

  // A moment bursts what is on an actor's mind exactly when it is still fresh and every burst of that actor is a
  // cooldown ago. A faded memory goes, one that only has to wait stays.
  lemma BurstsExactlyWhenRipe(c: Config, w: World, actor: string, tick: int)
    requires Reachable(c, w) && tick >= w.now && actor in w.store.slots
    ensures var w', m := Apply(c, w, Moment(actor, tick)), w.store.slots[actor];
            var young := tick - m.tick <= c.ttl;
            var rested := forall i: nat :: BurstOf(w, i, actor) ==> tick - w.bursts[i].tick >= c.cooldown;
            && w'.bursts == (if young && rested then w.bursts + [Burst(actor, m, tick)] else w.bursts)
            && (actor in w'.store.slots <==> young && !rested)
            && (forall a :: a != actor ==> (a in w'.store.slots <==> a in w.store.slots))
            && forall a :: a in w'.store.slots ==> w'.store.slots[a] == w.store.slots[a]
  {
    hide Legal, Run, SlotInv, BurstInv, NothingElse, Apply, BurstOf;
    var now, steps :| Legal(c, now, steps) && Run(c, now, steps) == w;
    RunKeepsInv(c, now, steps);
    RunKeepsNothingElse(c, now, steps);
    RestedSinceTheLast(c, w, actor, tick);
    AtAMoment(c, w, actor, tick);
  }

  predicate Waits(c: Config, w: World, actor: string, tick: int) {
    actor in w.store.lastBurst && tick - w.store.lastBurst[actor] < c.cooldown
  }

  lemma AtAMoment(c: Config, w: World, actor: string, tick: int)
    requires actor in w.store.slots
    ensures var w', m := Apply(c, w, Moment(actor, tick)), w.store.slots[actor];
            var young, waits := tick - m.tick <= c.ttl, Waits(c, w, actor, tick);
            && w'.bursts == (if young && !waits then w.bursts + [Burst(actor, m, tick)] else w.bursts)
            && w'.store.slots == (if young && waits then w.store.slots else w.store.slots - {actor})
  {
  }

  lemma RestedSinceTheLast(c: Config, w: World, actor: string, tick: int)
    requires BurstInv(c, w) && NothingElse(w)
    ensures Waits(c, w, actor, tick)
            <==> exists i: nat :: BurstOf(w, i, actor) && tick - w.bursts[i].tick < c.cooldown
  {
  }

  // ---------------------------------------------------------------- what is offered

  // A reply to a comment that moved the actor enough.
  predicate Moving(c: Config, shifts: seq<Shift>, r: Reply) {
    r.comment && (c.threshold <= 0
                  || exists i :: 0 <= i < |shifts| && shifts[i].cause == Some(r.event) && shifts[i].intensity >= c.threshold)
  }

  // The memory of an exchange, as strong as the strongest shift it caused, or of no strength.
  ghost predicate Recalls(shifts: seq<Shift>, r: Reply, tick: int, m: Memory) {
    && m.correlation == r.correlation && m.source == r.event && m.player == r.player && m.tick == tick
    && m.comment == (if |r.said| <= 120 then r.said else r.said[..120])
    && m.reply == (if |r.text| <= 120 then r.text else r.text[..120])
    && (m.intensity == 0 || Shift(Some(r.event), m.intensity) in shifts)
    && forall s :: s in shifts && s.cause == Some(r.event) ==> s.intensity <= m.intensity
  }

  // The j-th memory offered recalls the reply at the j-th of these places.
  ghost predicate FromReplies(shifts: seq<Shift>, replies: seq<Reply>, tick: int, offers: seq<(string, Memory)>, from: seq<nat>) {
    |from| == |offers|
    && forall j :: 0 <= j < |from| ==>
         from[j] < |replies| && offers[j].0 == replies[from[j]].actor && Recalls(shifts, replies[from[j]], tick, offers[j].1)
  }

  lemma {:induction false} OffersUpTo(c: Config, shifts: seq<Shift>, replies: seq<Reply>, tick: int) returns (from: seq<nat>)
    ensures FromReplies(shifts, replies, tick, Offers(c, shifts, replies, tick), from) && Increasing(from)
    ensures forall k: nat :: k in from <==> k < |replies| && Moving(c, shifts, replies[k])
  {
    hide Peak, Increasing, Moving, FromReplies, Recalls;
    if replies == [] {
      from := [];
      NoneIncreasing(shifts, tick);
    } else {
      var init, r := replies[..|replies| - 1], replies[|replies| - 1];
      var before := OffersUpTo(c, shifts, init, tick);
      PeakMoves(c, shifts, r, tick);
      from := if Moving(c, shifts, r) then before + [|init|] else before;
      assert forall j :: 0 <= j < |before| ==> before[j] in before;
      assert replies == init + [r];
      OneMoreReply(shifts, init, r, tick, Offers(c, shifts, init, tick), before, MemoryOf(shifts, r, tick));
    }
  }

  lemma NoneIncreasing(shifts: seq<Shift>, tick: int)
    ensures Increasing([]) && FromReplies(shifts, [], tick, [], [])
  {
  }

  lemma OneMoreReply(shifts: seq<Shift>, replies: seq<Reply>, r: Reply, tick: int, offers: seq<(string, Memory)>, from: seq<nat>, m: Memory)
    requires FromReplies(shifts, replies, tick, offers, from) && Increasing(from)
    ensures FromReplies(shifts, replies + [r], tick, offers, from)
    ensures Increasing(from + [|replies|])
    ensures Recalls(shifts, r, tick, m) ==>
              FromReplies(shifts, replies + [r], tick, offers + [(r.actor, m)], from + [|replies|])
  {
    hide Recalls;
  }

  lemma PeakMoves(c: Config, shifts: seq<Shift>, r: Reply, tick: int)
    ensures r.comment && Peak(shifts, r.event) >= c.threshold <==> Moving(c, shifts, r)
    ensures Moving(c, shifts, r) ==> Recalls(shifts, r, tick, MemoryOf(shifts, r, tick))
  {
    hide Peak;
    var p := Peak(shifts, r.event);
    if p >= c.threshold && p > 0 {
      var i :| 0 <= i < |shifts| && shifts[i] == Shift(Some(r.event), p);
    }
  }

  // What a tick offers are, in order, the replies to comments that moved the actor enough, each as strong as the
  // strongest shift it caused.
  lemma OffersAreTheMovingReplies(c: Config, shifts: seq<Shift>, replies: seq<Reply>, tick: int)
    ensures exists from: seq<nat> ::
              && FromReplies(shifts, replies, tick, Offers(c, shifts, replies, tick), from) && Increasing(from)
              && forall k: nat :: k in from <==> k < |replies| && Moving(c, shifts, replies[k])
  {
    hide Offers, FromReplies, Moving, Increasing;
    var from := OffersUpTo(c, shifts, replies, tick);
  }

  // ---------------------------------------------------------------- the process

  class ResonanceStore {
    var slots: map<string, Memory>
    var spent: set<(string, string)>
    var lastBurst: map<string, int>

    ghost function Now(): Store
      reads this
    {
      Store(slots, spent, lastBurst)
    }

    constructor ()
      ensures Now() == Store(map[], {}, map[])
    {
      slots, spent, lastBurst := map[], {}, map[];
    }

    method Record(actor: string, m: Memory) returns (kept: bool)
      modifies this`slots
      ensures kept == Takes(old(Now()), actor, m) && Now() == Recorded(old(Now()), actor, m)
    {
      if (actor, m.correlation) in spent {
        return false;
      }
      if actor in slots && slots[actor].intensity > m.intensity {
        return false;
      }
      slots := slots[actor := m];
      kept := true;
    }

    method Clear(actor: string)
      modifies this`slots
      ensures Now() == Cleared(old(Now()), actor)
    {
      slots := slots - {actor};
    }

    method Spend(actor: string, correlation: string, tick: int)
      modifies this
      ensures Now() == Spent(old(Now()), actor, correlation, tick)
    {
      slots := slots - {actor};
      spent := spent + {(actor, correlation)};
      lastBurst := lastBurst[actor := tick];
    }

    // The moment bursts at most one memory, and carries its source and correlation into the post.
    method BurstResonance(c: Config, actor: string, tick: int) returns (intent: Option<(string, string)>)
      modifies this
      ensures Now() == AfterMoment(c, old(Now()), actor, tick)
      ensures intent.Some? <==> Bursts(c, old(Now()), actor, tick)
      ensures intent.Some? ==> intent.value == (old(slots)[actor].source, old(slots)[actor].correlation)
    {
      if actor !in slots {
        return None;
      }
      var m := slots[actor];
      if tick - m.tick > c.ttl {
        Clear(actor);
        return None;
      }
      if actor in lastBurst && tick - lastBurst[actor] < c.cooldown {
        return None;
      }
      intent := Some((m.source, m.correlation));
      Spend(actor, m.correlation, tick);
    }

    method RecordResonances(c: Config, shifts: seq<Shift>, replies: seq<Reply>, tick: int)
      modifies this`slots
      ensures Now() == RecordedAll(old(Now()), Offers(c, shifts, replies, tick))
    {
      var peaks: map<string, int> := map[];
      for i := 0 to |shifts|
        invariant forall e :: (if e in peaks then peaks[e] else 0) == Peak(shifts[..i], e)
      {
        assert shifts[..i + 1][..i] == shifts[..i];
        if shifts[i].cause.None? {
          continue;
        }
        var e := shifts[i].cause.value;
        peaks := peaks[e := Max(if e in peaks then peaks[e] else 0, shifts[i].intensity)];
      }
      assert shifts[..|shifts|] == shifts;
      for i := 0 to |replies|
        invariant Now() == RecordedAll(old(Now()), Offers(c, shifts, replies[..i], tick))
      {
        hide Peak;
        assert replies[..i + 1][..i] == replies[..i];
        var r := replies[i];
        if !r.comment {
          continue;
        }
        var intensity := if r.event in peaks then peaks[r.event] else 0;
        if intensity < c.threshold {
          continue;
        }
        ghost var before := Offers(c, shifts, replies[..i], tick);
        var m := Memory(r.correlation, r.event, r.player, Take(r.said, GIST_MAX), Take(r.text, GIST_MAX), intensity, tick);
        assert (before + [(r.actor, m)])[..|before|] == before;
        var _ := Record(r.actor, m);
      }
      assert replies[..|replies|] == replies;
    }
  }
}
