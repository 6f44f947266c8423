// The decay account of one actor.
module DecayAccount {
  import opened Prelude

  // Every tick is worth one unit of decay to every actor. Awake actors pay each tick; sleeping ones fall
  // behind and settle in one go, when their turn comes or when something wakes them. The account keeps
  // the last settled tick in memory, and once a tick writes it to a store that survives restarts.

  datatype Account = Account(
    member: bool,          // is the actor in this worker's roster
    loaded: bool,          // has this process read the store yet
    last: Option<int>,     // the last settled tick, in memory
    dirty: bool,           // changed since it was last written
    stored: Option<int>,   // the last settled tick, in the store
    decayed: int)          // units of decay applied to the actor's state so far

  datatype Event =
    | Tick(tick: int, woken: bool, asleep: bool)  // asleep: cold, and this is not the actor's tick
    | Restart
    | Join
    | Leave

  const NewActor := Account(true, false, None, false, None, 0)

  function Hydrate(a: Account): Account {
    if a.loaded then a
    else if a.member && a.last.None? then a.(loaded := true, last := a.stored)
    else a.(loaded := true)
  }

  // An actor seen for the first time starts at `default`.
  function Touch(a: Account, default: int): Account {
    if a.last.Some? then a else a.(last := Some(default), dirty := true)
  }

  // Applies what is missing up to tick t, if anything.
  function SettleTo(a: Account, t: int): Account {
    if a.last.Some? && t > a.last.value then a.(decayed := a.decayed + (t - a.last.value), last := Some(t), dirty := true) else a
  }

  // Waking up in tick t settles through the tick before, ahead of any use of the actor's state.
  function CatchUp(a: Account, t: int): Account {
    SettleTo(Touch(a, t - 1), t - 1)
  }

  function Perceive(a: Account, t: int, woken: bool): Account {
    var h := Hydrate(a);
    if h.member && woken then CatchUp(h, t) else h
  }

  function Flush(a: Account): Account {
    if a.dirty then a.(stored := a.last, dirty := false) else a
  }

  function Consolidate(a: Account, t: int, asleep: bool): Account {
    if !a.member then a
    else
      var seen := Touch(a, t - 1);
      Flush(if asleep then seen else SettleTo(seen, t))
  }

  function Apply(a: Account, e: Event): Account {
    match e
    case Tick(t, woken, asleep) => Consolidate(Perceive(a, t, woken), t, asleep)
    case Restart => a.(loaded := false, last := None, dirty := false)
    case Join => a.(member := true)
    case Leave => if a.member then a.(member := false, last := None, dirty := false) else a
  }

  function Run(a: Account, events: seq<Event>): Account {
    if events == [] then a else Apply(Run(a, events[..|events| - 1]), events[|events| - 1])
  }

  ghost predicate FixedRoster(events: seq<Event>) {
    forall e :: e in events ==> e.Tick? || e.Restart?
  }

  // The tick through which the actor is settled, in memory or, after a restart, in the store.
  ghost function Settled(a: Account): Option<int> {
    if a.last.Some? then a.last else a.stored
  }

  // ---------------------------------------------------------------- exactly once

  ghost predicate Balanced(a: Account, start: int) {
    && a.member && !a.dirty
    && a.stored.Some? && (a.last == a.stored || (a.last.None? && !a.loaded))
    && a.decayed == a.stored.value - start
  }

  lemma EventKeepsBalance(a: Account, e: Event, start: int)
    requires Balanced(a, start) && (e.Tick? || e.Restart?)
    ensures Balanced(Apply(a, e), start)
    ensures e.Tick? ==> Apply(a, e).last == Apply(a, e).stored
  {
  }

  lemma {:induction false} RunKeepsBalance(a: Account, events: seq<Event>, start: int)
    requires Balanced(a, start) && FixedRoster(events)
    ensures Balanced(Run(a, events), start)
  {
    if events != [] {
      RunKeepsBalance(a, events[..|events| - 1], start);
      EventKeepsBalance(Run(a, events[..|events| - 1]), events[|events| - 1], start);
    }
  }

  lemma RunNothing(a: Account)
    ensures Run(a, []) == a
  {
  }

  lemma {:induction false} RunConcat(a: Account, e: Event, events: seq<Event>)
    ensures Run(a, [e] + events) == Run(Apply(a, e), events)
  {
    var all := [e] + events;
    if events == [] {
      assert all == [e] && [e][..0] == [];
      assert Run(a, [e][..0]) == a;
    } else {
      assert all[..|all| - 1] == [e] + events[..|events| - 1];
      RunConcat(a, e, events[..|events| - 1]);
    }
  }

  // From the first tick on, the decay applied is exactly the distance the account has travelled,
  // whatever the ticks, the sleeps, the wake-ups and the restarts.
  lemma DecayAppliedExactlyOnce(first: int, woken: bool, asleep: bool, events: seq<Event>)
    requires FixedRoster(events)
    ensures var a := Run(NewActor, [Tick(first, woken, asleep)] + events);
            Settled(a).Some? && a.decayed == Settled(a).value - (first - 1)
  {
    var e := Tick(first, woken, asleep);
    RunConcat(NewActor, e, events);
    assert Balanced(Apply(NewActor, e), first - 1);
    RunKeepsBalance(Apply(NewActor, e), events, first - 1);
  }

  // What the store holds after a tick is what memory holds.
  lemma StoreEqualsMemoryAfterTick(first: int, woken: bool, asleep: bool, events: seq<Event>)
    requires FixedRoster(events) && (events == [] || events[|events| - 1].Tick?)
    ensures var a := Run(NewActor, [Tick(first, woken, asleep)] + events);
            a.last == a.stored && a.last.Some? && !a.dirty
  {
    var e := Tick(first, woken, asleep);
    RunConcat(NewActor, e, events);
    assert Balanced(Apply(NewActor, e), first - 1);
    if events != [] {
      RunKeepsBalance(Apply(NewActor, e), events[..|events| - 1], first - 1);
      EventKeepsBalance(Run(Apply(NewActor, e), events[..|events| - 1]), events[|events| - 1], first - 1);
    }
  }

  // An actor that perceives anything in tick t is settled through t - 1 before it is appraised.
  lemma SettledBeforeAppraisal(a: Account, t: int)
    requires a.member
    ensures var p := Perceive(a, t, true); p.last.Some? && p.last.value >= t - 1
    ensures a.last.Some? && a.last.value < t && a.loaded ==>
              Perceive(a, t, true).last == Some(t - 1)
              && Perceive(a, t, true).decayed == a.decayed + (t - 1 - a.last.value)
  {
  }

  lemma RerunningATickAddsNothing(a: Account, t: int, woken: bool, asleep: bool)
    ensures Apply(Apply(a, Tick(t, woken, asleep)), Tick(t, woken, asleep)) == Apply(a, Tick(t, woken, asleep))
  {
  }

  // ---------------------------------------------------------------- restarts leave no trace

  function WithoutRestarts(events: seq<Event>): seq<Event> {
    if events == [] then []
    else
      var rest := WithoutRestarts(events[..|events| - 1]);
      if events[|events| - 1].Restart? then rest else rest + [events[|events| - 1]]
  }

  // b is a, except perhaps that its process has just started.
  ghost predicate SameButRestarted(a: Account, b: Account) {
    a == b || (a.last == a.stored && b == Apply(a, Restart))
  }

  lemma {:induction false} RestartsAreInvisible(a: Account, events: seq<Event>)
    requires FixedRoster(events) && a.member && a.loaded && a.last.Some? && a.last == a.stored && !a.dirty
    ensures SameButRestarted(Run(a, WithoutRestarts(events)), Run(a, events))
    ensures var b := Run(a, WithoutRestarts(events)); b.member && b.loaded && b.last.Some? && b.last == b.stored && !b.dirty
  {
    if events != [] {
      var init, e := events[..|events| - 1], events[|events| - 1];
      RestartsAreInvisible(a, init);
      var w := WithoutRestarts(init);
      if e.Tick? {
        assert (w + [e])[..|w|] == w;
        assert Run(a, w + [e]) == Apply(Run(a, w), e);
      }
    }
  }

  // ---------------------------------------------------------------- how far behind an actor may fall

  const COLD_INTERVAL := 100

  // Consecutive ticks from t0, in which the actor may only sleep off its own phase.
  ghost predicate Scheduled(events: seq<Event>, t0: int, phase: int) {
    forall i :: 0 <= i < |events| ==>
      events[i].Tick? && events[i].tick == t0 + i
      && (events[i].asleep ==> events[i].tick % COLD_INTERVAL != phase)
  }

  ghost predicate LagAfter(a: Account, t: int, phase: int) {
    a.member && a.last.Some? && 0 <= t - a.last.value <= (t - phase) % COLD_INTERVAL
  }

  lemma TickKeepsLag(a: Account, t: int, woken: bool, asleep: bool, phase: int)
    requires LagAfter(a, t - 1, phase) || a == NewActor
    requires asleep ==> t % COLD_INTERVAL != phase
    requires 0 <= phase < COLD_INTERVAL
    ensures LagAfter(Apply(a, Tick(t, woken, asleep)), t, phase)
  {
    var b := Apply(a, Tick(t, woken, asleep));
    if asleep {
      assert (t - phase) % COLD_INTERVAL != 0;
      assert (t - phase) % COLD_INTERVAL == (t - 1 - phase) % COLD_INTERVAL + 1;
    } else {
      assert b.last == Some(t);
    }
  }

  // Through any run of consecutive ticks an actor is never a full cold interval behind, and not behind
  // at all in a tick of its own phase.
  lemma {:induction false} LagIsBounded(events: seq<Event>, t0: int, phase: int)
    requires events != [] && Scheduled(events, t0, phase) && 0 <= phase < COLD_INTERVAL
    ensures LagAfter(Run(NewActor, events), t0 + |events| - 1, phase)
  {
    var init, e := events[..|events| - 1], events[|events| - 1];
    if init != [] {
      LagIsBounded(init, t0, phase);
    }
    TickKeepsLag(Run(NewActor, init), e.tick, e.woken, e.asleep, phase);
  }

  // ---------------------------------------------------------------- a changing roster

  // Ticks rise, and an actor that leaves the roster may come back later.
  ghost predicate RisingTicks(events: seq<Event>, below: int) {
    && (forall e :: e in events && e.Tick? ==> e.tick < below)
    && forall i, j :: 0 <= i < j < |events| && events[i].Tick? && events[j].Tick? ==> events[i].tick < events[j].tick
  }

  ghost predicate Charged(a: Account, first: int, below: int) {
    && (a.stored.Some? ==> first - 1 <= a.stored.value < below && a.decayed <= a.stored.value - (first - 1))
    && (a.stored.None? ==> a.decayed == 0 && a.last.None?)
    && (a.last.Some? ==> a.last == a.stored) && !a.dirty
    && (a.member && a.loaded && a.last.None? ==> a.decayed <= below - first)
  }

  lemma TickKeepsCharged(a: Account, t: int, woken: bool, asleep: bool, first: int)
    requires Charged(a, first, t) && first <= t
    ensures Charged(Apply(a, Tick(t, woken, asleep)), first, t + 1)
  {
    var h := Hydrate(a);
    assert Charged(h, first, t);
    var p := Perceive(a, t, woken);
    assert p.decayed <= (if p.last.Some? then p.last.value else t - 1) - (first - 1);
  }

  lemma {:induction false} ChargedThroughout(events: seq<Event>, first: int, below: int)
    requires RisingTicks(events, below) && forall e :: e in events && e.Tick? ==> first <= e.tick
    requires first <= below
    ensures Charged(Run(NewActor, events), first, below)
  {
    if events != [] {
      var init, e := events[..|events| - 1], events[|events| - 1];
      assert forall x :: x in init ==> x in events;
      assert e in events;
      ChargedThroughout(init, first, if e.Tick? then e.tick else below);
      if e.Tick? {
        TickKeepsCharged(Run(NewActor, init), e.tick, e.woken, e.asleep, first);
      }
    }
  }

  // ---------------------------------------------------------------- which ticks are charged

  ghost function Interval(after: int, through: int): (ticks: set<int>)
    ensures forall u :: u in ticks <==> after < u <= through
    ensures |ticks| == Max(0, through - after)
    decreases through - after
  {
    if after < through then Interval(after, through - 1) + {through} else {}
  }

  ghost function SettleCharge(a: Account, t: int): set<int> { if a.last.Some? then Interval(a.last.value, t) else {} }

  // The ticks an event charges the actor for.
  ghost function Charges(a: Account, e: Event): set<int> {
    match e
    case Tick(t, woken, asleep) =>
      var h, p := Hydrate(a), Perceive(a, t, woken);
      (if h.member && woken then SettleCharge(Touch(h, t - 1), t - 1) else {})
      + (if p.member && !asleep then SettleCharge(Touch(p, t - 1), t) else {})
    case _ => {}
  }

  // All ticks charged in a run, as often as they were.
  ghost function AllCharges(a: Account, events: seq<Event>): multiset<int> {
    if events == [] then multiset{}
    else
      var init := events[..|events| - 1];
      AllCharges(a, init) + multiset(Charges(Run(a, init), events[|events| - 1]))
  }

  lemma DisjointSizes(s: set<int>, t: set<int>)
    requires s !! t
    ensures |s + t| == |s| + |t|
  {
  }

  lemma SettlingCharges(a: Account, t: int)
    ensures SettleTo(a, t).decayed == a.decayed + |SettleCharge(a, t)|
    ensures forall u :: u in SettleCharge(a, t) ==> a.last.Some? && a.last.value < u <= t && SettleTo(a, t).last == Some(t)
  {
    hide Interval;
  }

  // A tick applies one unit for each tick it charges, all of them later than what the store said before, and not
  // later than what it says afterwards.
  lemma TickCharges(a: Account, t: int, woken: bool, asleep: bool, first: int)
    requires Charged(a, first, t) && first <= t
    ensures var b, e := Apply(a, Tick(t, woken, asleep)), Tick(t, woken, asleep);
            && b.decayed == a.decayed + |Charges(a, e)|
            && (a.stored.Some? ==> b.stored.Some? && a.stored.value <= b.stored.value)
            && forall u :: u in Charges(a, e) ==> && b.stored.Some? && first <= u <= b.stored.value
                                                  && (a.stored.Some? ==> a.stored.value < u)
  {
    hide Interval, SettleCharge;
    var h, p := Hydrate(a), Perceive(a, t, woken);
    var early := if h.member && woken then SettleCharge(Touch(h, t - 1), t - 1) else {};
    var late := if p.member && !asleep then SettleCharge(Touch(p, t - 1), t) else {};
    SettlingCharges(Touch(h, t - 1), t - 1);
    SettlingCharges(Touch(p, t - 1), t);
    assert early !! late;
    DisjointSizes(early, late);
  }

  lemma {:induction false} ChargesSoFar(events: seq<Event>, first: int, below: int)
    requires RisingTicks(events, below) && forall e :: e in events && e.Tick? ==> first <= e.tick
    requires first <= below
    ensures var a, charges := Run(NewActor, events), AllCharges(NewActor, events);
            && |charges| == a.decayed
            && forall u :: u in charges ==> charges[u] == 1 && a.stored.Some? && first <= u <= a.stored.value
  {
    hide Apply, Charges, Charged;
    if events == [] {
    } else {
      var init, e := events[..|events| - 1], events[|events| - 1];
      var a := Run(NewActor, init);
      assert forall x :: x in init ==> x in events;
      assert e in events;
      var earlier := if e.Tick? then e.tick else below;
      ChargesSoFar(init, first, earlier);
      ChargedThroughout(init, first, earlier);
      if e.Tick? {
        TickCharges(a, e.tick, e.woken, e.asleep, first);
      } else {
        OthersChargeNothing(a, e);
      }
    }
  }

  lemma OthersChargeNothing(a: Account, e: Event)
    requires !e.Tick?
    ensures Charges(a, e) == {} && Apply(a, e).decayed == a.decayed && Apply(a, e).stored == a.stored
  {
  }

  // Even when the actor leaves and returns, no tick is ever charged twice, none before its first or after the last
  // settled one, and every unit applied is charged to a tick: time away may be forgiven, never charged again.
  lemma NeverDecayedTwice(events: seq<Event>, first: int, below: int)
    requires RisingTicks(events, below) && forall e :: e in events && e.Tick? ==> first <= e.tick
    requires first <= below
    ensures var a, charges := Run(NewActor, events), AllCharges(NewActor, events);
            && |charges| == a.decayed
            && (forall u :: charges[u] <= 1)
            && (forall u :: u in charges ==> a.stored.Some? && first <= u <= a.stored.value < below)
  {
    hide AllCharges, Run;
    ChargesSoFar(events, first, below);
    ChargedThroughout(events, first, below);
  }

  // Time away is forgiven when the process that saw the actor leave also sees it return, and charged
  // when a restart lies between.
  lemma TimeAwayForgivenOrCharged(a: Account, t: int)
    requires a.member && a.loaded && a.last.Some? && a.last == a.stored && !a.dirty && a.last.value < t
    ensures Run(a, [Leave, Join] + [Tick(t, false, false)]).decayed == a.decayed + 1
    ensures Run(a, [Leave, Join] + [Restart, Tick(t, false, false)]).decayed == a.decayed + (t - a.last.value)
  {
    hide Run;
    RunNothing(Apply(Apply(Apply(a, Leave), Join), Tick(t, false, false)));
    RunNothing(Apply(Apply(Apply(Apply(a, Leave), Join), Restart), Tick(t, false, false)));
    var away := Apply(Apply(a, Leave), Join);
    var now := Tick(t, false, false);
    RunConcat(a, Leave, [Join] + [now]);
    RunConcat(Apply(a, Leave), Join, [now]);
    assert [Leave] + ([Join] + [now]) == [Leave, Join] + [now];
    RunConcat(away, now, []);
    assert [now] + [] == [now];
    RunConcat(a, Leave, [Join] + [Restart, now]);
    RunConcat(Apply(a, Leave), Join, [Restart, now]);
    assert [Leave] + ([Join] + [Restart, now]) == [Leave, Join] + [Restart, now];
    RunConcat(away, Restart, [now]);
    assert [Restart] + [now] == [Restart, now];
    RunConcat(Apply(away, Restart), now, []);
  }
}
