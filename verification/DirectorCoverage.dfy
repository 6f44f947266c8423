// When the tail read back after a restart is long enough for the rate limit, and what happens when it is not.
module DirectorCoverage {
  import opened Prelude
  import opened DirectorGate
  import opened DirectorStreaks

  // ---------------------------------------------------------------- few audits are covered

  function AuditsAbove(log: seq<Audit>, bound: int): nat {
    if log == [] then 0 else AuditsAbove(log[..|log| - 1], bound) + if log[|log| - 1].tick > bound then 1 else 0
  }

  function PlansAbove(log: seq<Audit>, bound: int): nat {
    if log == [] then 0
    else PlansAbove(log[..|log| - 1], bound) + if log[|log| - 1].Plan? && log[|log| - 1].tick > bound then 1 else 0
  }

  // All audits, plans too, are in the order of their ticks, and none is of the future.
  ghost predicate LogInOrder(w: World) {
    && (forall i, j :: 0 <= i < j < |w.log| ==> w.log[i].tick <= w.log[j].tick)
    && (forall i :: 0 <= i < |w.log| ==> w.log[i].tick <= w.lastTick)
  }

  lemma {:induction false} AllAbove(log: seq<Audit>, i: nat, bound: int)
    requires i <= |log| && forall j :: i <= j < |log| ==> log[j].tick > bound
    ensures AuditsAbove(log, bound) >= |log| - i
  {
    if i < |log| { AllAbove(log[..|log| - 1], i, bound); }
  }

  // At most as many audits in the window as the tail is long: the tail covers the window.
  lemma FewAuditsAreCovered(c: Config, w: World)
    requires LogInOrder(w) && AuditsAbove(w.log, WindowStart(c, w.lastTick)) <= RESTORE_TAIL
    ensures TailCoversWindow(c, w)
  {
    forall i | 0 <= i < |w.log| - RESTORE_TAIL && w.log[i].Fire? ensures w.log[i].tick <= w.lastTick - c.budgetWindow {
      if w.log[i].tick > w.lastTick - c.budgetWindow { AllAbove(w.log, i, w.lastTick - c.budgetWindow); }
    }
  }

  lemma {:induction false} AuditsArePlansOrFires(log: seq<Audit>, bound: int)
    ensures AuditsAbove(log, bound) == PlansAbove(log, bound) + CountAbove(Ticks(log), bound)
  {
    if log != [] {
      var init, a := log[..|log| - 1], log[|log| - 1];
      AuditsArePlansOrFires(init, bound);
      assert init + [a] == log;
      TicksOfOneMore(init, a);
      CountAboveConcat(Ticks(init), if a.Fire? then [a.tick] else [], bound);
      OneAbove(a.tick, bound);
    }
  }

  lemma OneAbove(t: int, bound: int)
    ensures CountAbove([t], bound) == (if t > bound then 1 else 0) && CountAbove([], bound) == 0
  {
    assert [t][..0] == [];
  }

  // ---------------------------------------------------------------- how many plans a window can hold

  function PlansOn(log: seq<Audit>, day: int, interval: nat): nat
    requires interval > 0
  {
    if log == [] then 0
    else PlansOn(log[..|log| - 1], day, interval)
         + if log[|log| - 1].Plan? && log[|log| - 1].tick / interval == day then 1 else 0
  }

  function PlansSince(log: seq<Audit>, day: int, interval: nat): nat
    requires interval > 0
  {
    if log == [] then 0
    else PlansSince(log[..|log| - 1], day, interval)
         + if log[|log| - 1].Plan? && log[|log| - 1].tick / interval >= day then 1 else 0
  }

  // A season day is opened once, and brings at most a season and a life arc.
  ghost predicate TwoPlansADay(log: seq<Audit>, interval: nat)
    requires interval > 0
  {
    forall day :: PlansOn(log, day, interval) <= 2
  }

  lemma {:induction false} OneDayMore(log: seq<Audit>, day: int, interval: nat)
    requires interval > 0
    ensures PlansSince(log, day, interval) == PlansOn(log, day, interval) + PlansSince(log, day + 1, interval)
  {
    if log != [] { OneDayMore(log[..|log| - 1], day, interval); }
  }

  lemma {:induction false} NoneSince(log: seq<Audit>, day: int, interval: nat)
    requires interval > 0 && forall i :: 0 <= i < |log| ==> log[i].tick / interval < day
    ensures PlansSince(log, day, interval) == 0
  {
    if log != [] { NoneSince(log[..|log| - 1], day, interval); }
  }

  lemma {:induction false} TwoADay(log: seq<Audit>, first: int, last: int, interval: nat)
    requires interval > 0 && TwoPlansADay(log, interval) && first <= last + 1
    requires forall i :: 0 <= i < |log| ==> log[i].tick / interval <= last
    ensures PlansSince(log, first, interval) <= 2 * (last + 1 - first)
    decreases last + 1 - first
  {
    hide PlansSince, PlansOn;
    if first == last + 1 {
      NoneSince(log, first, interval);
    } else {
      TwoADay(log, first + 1, last, interval);
      OneDayMore(log, first, interval);
      assert PlansOn(log, first, interval) <= 2;
    }
  }

  lemma Factor(n: int, x: int, y: int)
    requires n > 0 && n * x < n * y
    ensures x < y
  {
  }

  lemma Days(n: int, a: int, b: int, q: int, t: int, u: int)
    requires n > 0 && t <= u
    requires n * a <= t < n * a + n && n * b <= u < n * b + n && n * q <= u - t < n * q + n
    ensures a <= b <= a + q + 1
  {
    assert n * (b + 1) == n * b + n;
    assert n * (a + q + 2) == n * a + n * q + 2 * n;
    Factor(n, a, b + 1);
    Factor(n, b, a + q + 2);
  }

  lemma DayBounds(t: int, interval: nat)
    requires interval > 0
    ensures interval * (t / interval) <= t < interval * (t / interval) + interval
  {
  }

  // How many days apart two ticks can be.
  lemma DaysApart(t: int, u: int, interval: nat)
    requires interval > 0 && t <= u
    ensures t / interval <= u / interval <= t / interval + (u - t) / interval + 1
  {
    DayBounds(t, interval);
    DayBounds(u, interval);
    DayBounds(u - t, interval);
    Days(interval, t / interval, u / interval, (u - t) / interval, t, u);
  }

  // ---------------------------------------------------------------- every restart is covered

  ghost predicate CapsAtMost(log: seq<Audit>, most: nat) {
    forall i :: 0 <= i < |log| && log[i].Fire? ==> log[i].cap <= most
  }

  // Caps and season days as they are used leave room enough in the tail.
  ghost predicate RoomInTail(c: Config, interval: nat, most: nat)
    requires interval > 0
  {
    c.budgetWindow >= 0 && most + 2 * (c.budgetWindow / interval + 2) <= RESTORE_TAIL
  }

  lemma {:induction false} PlansAboveSince(log: seq<Audit>, bound: int, day: int, interval: nat)
    requires interval > 0 && day <= (bound + 1) / interval
    ensures PlansAbove(log, bound) <= PlansSince(log, day, interval)
  {
    if log != [] {
      PlansAboveSince(log[..|log| - 1], bound, day, interval);
      var t := log[|log| - 1].tick;
      if t > bound { DaysApart(bound + 1, t, interval); }
    }
  }

  lemma FewPlans(c: Config, w: World, interval: nat)
    requires interval > 0 && c.budgetWindow >= 0 && LogInOrder(w) && TwoPlansADay(w.log, interval)
    ensures PlansAbove(w.log, WindowStart(c, w.lastTick)) <= 2 * (c.budgetWindow / interval + 2)
  {
    hide PlansAbove, PlansSince, TwoPlansADay;
    var bound := WindowStart(c, w.lastTick);
    var first, last := bound / interval, w.lastTick / interval;
    forall i | 0 <= i < |w.log| ensures w.log[i].tick / interval <= last {
      DaysApart(w.log[i].tick, w.lastTick, interval);
    }
    DaysApart(bound, w.lastTick, interval);
    DaysApart(bound, bound + 1, interval);
    PlansAboveSince(w.log, bound, first, interval);
    TwoADay(w.log, first, last, interval);
  }

  lemma {:induction false} FewFires(c: Config, w: World, log: seq<Audit>, most: nat)
    requires WithinCaps(c, log) && CapsAtMost(log, most) && forall i :: 0 <= i < |log| ==> log[i].tick <= w.lastTick
    ensures CountAbove(Ticks(log), WindowStart(c, w.lastTick)) <= most
  {
    hide CountAbove, Ticks;
    if log == [] {
      assert CountAbove(Ticks(log), WindowStart(c, w.lastTick)) == 0 by { NothingAbove(WindowStart(c, w.lastTick)); }
    } else {
      var init, a := log[..|log| - 1], log[|log| - 1];
      assert init + [a] == log && log[..|log| - 1 + 1] == log;
      if a.Fire? {
        assert CapKept(c, log, |log| - 1);
        FewerAbove(Ticks(log), a.tick - c.budgetWindow, WindowStart(c, w.lastTick));
      } else {
        TicksOfOneMore(init, a);
        assert Ticks(init) + [] == Ticks(init);
        forall i | 0 <= i < |init| ensures CapKept(c, init, i) {
          assert CapKept(c, log, i) && init[..i + 1] == log[..i + 1];
        }
        FewFires(c, w, init, most);
      }
    }
  }

  lemma NothingAbove(bound: int)
    ensures CountAbove(Ticks([]), bound) == 0
  {
  }

  lemma {:induction false} FewerAbove(ticks: seq<int>, low: int, high: int)
    requires low <= high
    ensures CountAbove(ticks, high) <= CountAbove(ticks, low)
  {
    if ticks != [] { FewerAbove(ticks[..|ticks| - 1], low, high); }
  }

  // With two plans a season day and moderate caps a restart is covered.
  lemma RestartIsCovered(c: Config, w: World, interval: nat, most: nat)
    requires interval > 0 && RoomInTail(c, interval, most)
    requires LogInOrder(w) && RateInv(c, w) && TwoPlansADay(w.log, interval) && CapsAtMost(w.log, most)
    ensures TailCoversWindow(c, w)
  {
    hide AuditsAbove, PlansAbove, CountAbove, Ticks, TwoPlansADay, CapsAtMost, TailCoversWindow, NothingForgotten, Ordered, WithinCaps;
    FewPlans(c, w, interval);
    FewFires(c, w, w.log, most);
    AuditsArePlansOrFires(w.log, WindowStart(c, w.lastTick));
    FewAuditsAreCovered(c, w);
  }

  // ---------------------------------------------------------------- over whole runs

  lemma StepKeepsLogInOrder(c: Config, w: World, step: Step)
    requires LogInOrder(w) && Enabled(c, w, step)
    ensures LogInOrder(Apply(c, w, step)) && w.log <= Apply(c, w, step).log
  {
    hide Ticks, Tools, Last, Evict, Average, Bucketed, StreakCapped;
  }

  lemma {:induction false} PlansOnPrefix(log: seq<Audit>, n: nat, day: int, interval: nat)
    requires interval > 0 && n <= |log|
    ensures PlansOn(log[..n], day, interval) <= PlansOn(log, day, interval)
  {
    if n < |log| {
      var init := log[..|log| - 1];
      assert init[..n] == log[..n];
      PlansOnPrefix(init, n, day, interval);
    } else {
      assert log[..n] == log;
    }
  }

  // What holds of a log's plans and caps held of it before.
  lemma EarlierLog(log: seq<Audit>, more: seq<Audit>, interval: nat, most: nat)
    requires interval > 0 && log <= more && TwoPlansADay(more, interval) && CapsAtMost(more, most)
    ensures TwoPlansADay(log, interval) && CapsAtMost(log, most)
  {
    hide PlansOn;
    assert log == more[..|log|];
    forall day ensures PlansOn(log, day, interval) <= 2 {
      PlansOnPrefix(more, |log|, day, interval);
      assert PlansOn(more, day, interval) <= 2;
    }
  }

  lemma {:induction false} EveryRestartIsCovered(c: Config, q: int, n: int, t: int, steps: seq<Step>, interval: nat, most: nat)
    requires Legal(c, Initial(q, n, t), steps) && interval > 0 && RoomInTail(c, interval, most)
    requires var log := Run(c, Initial(q, n, t), steps).log; TwoPlansADay(log, interval) && CapsAtMost(log, most)
    ensures AllCovered(c, Initial(q, n, t), steps) && LogInOrder(Run(c, Initial(q, n, t), steps))
  {
    hide Apply, Enabled, TwoPlansADay, CapsAtMost, TailCoversWindow, RateInv, LogInOrder;
    if steps == [] {
      InOrderAtFirst(q, n, t);
    } else {
      var init, step := steps[..|steps| - 1], steps[|steps| - 1];
      var w := Run(c, Initial(q, n, t), init);
      assert w.log <= Apply(c, w, step).log by { LogGrows(c, w, step); }
      EarlierLog(w.log, Apply(c, w, step).log, interval, most);
      EveryRestartIsCovered(c, q, n, t, init, interval, most);
      RunKeepsRate(c, q, n, t, init);
      RestartIsCovered(c, w, interval, most);
      StepKeepsLogInOrder(c, w, step);
    }
  }

  lemma LogGrows(c: Config, w: World, step: Step)
    requires Enabled(c, w, step)
    ensures w.log <= Apply(c, w, step).log
  {
    hide Ticks, Tools, Last, Evict, Average, Bucketed, StreakCapped;
  }

  lemma InOrderAtFirst(q: int, n: int, t: int)
    ensures LogInOrder(Initial(q, n, t))
  {
  }

  // However many restarts and redeliveries a run contains: with at most two plans a season day, and caps that leave
  // room in the tail, no intervention exceeds the cap in force. Caps up to four, windows of 60 ticks and days of 360,
  // as in the parameters, do.
  lemma RateLimitWithoutAsking(c: Config, w: World, i: nat, interval: nat, most: nat)
    requires Reachable(c, w) && i < |w.log| && w.log[i].Fire? && interval > 0 && RoomInTail(c, interval, most)
    requires TwoPlansADay(w.log, interval) && CapsAtMost(w.log, most)
    ensures |InterventionsAfter(w.log[..i + 1], w.log[i].tick - c.budgetWindow)| <= w.log[i].cap
    ensures RoomInTail(Config(60, c.dramaWindow, c.threshold), 360, 4)
  {
    hide Run, Legal, Initial, AllCovered, TwoPlansADay, CapsAtMost, CountAbove, Ticks;
    var q, n, t, steps :| RunsTo(c, q, n, t, steps, w);
    EveryRestartIsCovered(c, q, n, t, steps, interval, most);
    assert ReachableCovered(c, w);
    RateLimit(c, w, i);
  }

  // ---------------------------------------------------------------- a restart that is not covered

  lemma {:induction false} PlansGoOn(c: Config, w: World, n: nat) returns (steps: seq<Step>, w': World)
    ensures GoesOn(c, w, steps, w') && w'.lastTick == w.lastTick && SameLimits(w, w')
    ensures |w'.log| == |w.log| + n && w'.log[..|w.log|] == w.log
    ensures forall i :: |w.log| <= i < |w'.log| ==> w'.log[i].Plan?
  {
    hide GoesOn;
    if n == 0 {
      GoesNowhere(c, w);
      steps, w' := [], w;
      assert w.log[..|w.log|] == w.log;
    } else {
      var steps1, w1 := PlansGoOn(c, w, n - 1);
      OneStepOn(c, w, steps1, w1, PlanAhead(w1.lastTick));
      steps, w' := steps1 + [PlanAhead(w1.lastTick)], Apply(c, w1, PlanAhead(w1.lastTick));
    }
  }

  lemma {:induction false} NoFiresAmongPlans(log: seq<Audit>)
    requires forall i :: 0 <= i < |log| ==> log[i].Plan?
    ensures Ticks(log) == [] && Tools(log) == []
  {
    if log != [] { NoFiresAmongPlans(log[..|log| - 1]); }
  }

  lemma StepTo(c: Config, q: int, n: int, steps: seq<Step>, w: World, step: Step)
    requires RunsTo(c, q, n, 0, steps, w) && Enabled(c, w, step)
    ensures RunsTo(c, q, n, 0, steps + [step], Apply(c, w, step))
  {
    hide Apply, Initial, Enabled;
    assert (steps + [step])[..|steps|] == steps;
  }

  lemma {:induction false} RunsOn(c: Config, q: int, n: int, steps: seq<Step>, w: World, more: seq<Step>, w': World)
    requires RunsTo(c, q, n, 0, steps, w) && GoesOn(c, w, more, w')
    ensures RunsTo(c, q, n, 0, steps + more, w')
  {
    hide Apply, Enabled, RunsTo, GoesOn;
    var v := GoesOnLast(c, w, more, w');
    if more == [] {
      assert steps + more == steps;
    } else {
      var init, step := more[..|more| - 1], more[|more| - 1];
      RunsOn(c, q, n, steps, w, init, v);
      StepTo(c, q, n, steps + init, v, step);
      assert steps + init + [step] == steps + more;
    }
  }

  lemma RunsAtFirst(c: Config, q: int, n: int)
    ensures RunsTo(c, q, n, 0, [], Initial(q, n, 0)) && Past(Initial(q, n, 0))
  {
  }

  lemma Reached(c: Config, q: int, n: int, steps: seq<Step>, w: World)
    requires RunsTo(c, q, n, 0, steps, w)
    ensures Reachable(c, w)
  {
  }

  // An intervention that as many plans have followed as the tail is long: a restart forgets it.
  lemma BuriedIntervention(c: Config, q: int, tool: string) returns (steps: seq<Step>, w: World)
    requires CanOpen(c, 1)
    ensures RunsTo(c, q, 1, 0, steps, w) && w.mem == Memory([], [], {}, [], 0.0, 0, q, 1)
    ensures |w.log| == RESTORE_TAIL + 1 && w.log[0].Fire? && w.log[0].tick == w.lastTick
    ensures forall i :: 1 <= i < |w.log| ==> w.log[i].Plan?
  {
    hide RunsTo, GoesOn, StreakCapped, Ticks, Tools, CanOpen, Past, Gone;
    var w0 := Initial(q, 1, 0);
    RunsAtFirst(c, q, 1);
    CalmFromTheStart(w0.mem);
    PastIsGone(c, w0);
    var steps1, w1 := NextIntervention(c, w0, None, tool, Patience(c), 0);
    RunsOn(c, q, 1, [], w0, steps1, w1);
    var steps2, w2 := PlansGoOn(c, w1, RESTORE_TAIL);
    RunsOn(c, q, 1, [] + steps1, w1, steps2, w2);
    StepTo(c, q, 1, [] + steps1 + steps2, w2, Restart(q, 1));
    steps, w := [] + steps1 + steps2 + [Restart(q, 1)], Apply(c, w2, Restart(q, 1));
    assert w2.log[0] == w2.log[..1][0] == w1.log[0];
    assert Last(w2.log, RESTORE_TAIL) == w2.log[1..];
    NoFiresAmongPlans(w2.log[1..]);
  }

  // The limit does depend on coverage: after a restart that is not covered, a cap of one is exceeded, whatever the
  // configuration, if the required quiet is shorter than the budget window.
  lemma UncoveredRestartBreaksTheLimit(c: Config, q: int, tool: string)
    requires CanOpen(c, 1) && Max(1, q) < c.budgetWindow
    ensures exists w :: && Reachable(c, w) && |w.log| == RESTORE_TAIL + 2 && w.log[RESTORE_TAIL + 1].Fire?
                        && !CapKept(c, w.log, RESTORE_TAIL + 1)
  {
    hide RunsTo, GoesOn, StreakCapped, Ticks, Tools, CanOpen, CountAbove, Reachable;
    var steps, w := BuriedIntervention(c, q, tool);
    CalmWhenZeros(w.mem);
    var more, w' := NextIntervention(c, w, None, tool, 1, 0);
    RunsOn(c, q, 1, steps, w, more, w');
    Reached(c, q, 1, steps + more, w');
    TwoInWindow(w.log, w'.log[|w.log|], w'.log[|w.log|].tick - c.budgetWindow);
    assert w'.log[..RESTORE_TAIL + 2] == w'.log == w.log + [w'.log[|w.log|]];
  }

  lemma TwoInWindow(log: seq<Audit>, a: Audit, bound: int)
    requires log != [] && log[0].Fire? && log[0].tick > bound && a.Fire? && a.tick > bound
    ensures CountAbove(Ticks(log + [a]), bound) >= 2
  {
    hide Ticks, CountAbove;
    TicksOfOneMore(log, a);
    CountAboveConcat(Ticks(log), [a.tick], bound);
    SomethingAbove(log, 0, bound);
    OneAbove(a.tick, bound);
  }
}
