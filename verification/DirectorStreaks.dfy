// When the tool streak cap lasts: from which memories no run ever lets the model extend a streak.
module DirectorStreaks {
  import opened Prelude
  import opened DirectorGate

  // ---------------------------------------------------------------- going on

  // A faithful run from any world.
  ghost predicate GoesOn(c: Config, w: World, steps: seq<Step>, w': World) {
    Legal(c, w, steps) && AllFaithful(c, w, steps) && Run(c, w, steps) == w'
  }

  lemma GoesNowhere(c: Config, w: World)
    ensures GoesOn(c, w, [], w)
  {
  }

  lemma OneStepOn(c: Config, w: World, steps: seq<Step>, w': World, step: Step)
    requires GoesOn(c, w, steps, w') && Enabled(c, w', step) && Faithful(c, w', step)
    ensures GoesOn(c, w, steps + [step], Apply(c, w', step))
  {
    hide Apply, Enabled, Faithful;
    assert (steps + [step])[..|steps|] == steps;
  }

  lemma OneStep(c: Config, w: World, step: Step)
    requires Enabled(c, w, step) && Faithful(c, w, step)
    ensures GoesOn(c, w, [step], Apply(c, w, step))
  {
    hide *;
    GoesNowhere(c, w);
    OneStepOn(c, w, [], w, step);
    assert [] + [step] == [step];
  }

  lemma {:induction false} GoesOnAndOn(c: Config, w: World, steps: seq<Step>, w1: World, more: seq<Step>, w2: World)
    requires GoesOn(c, w, steps, w1) && GoesOn(c, w1, more, w2)
    ensures GoesOn(c, w, steps + more, w2)
  {
    hide Apply, Enabled, Faithful, GoesOn;
    var v := GoesOnLast(c, w1, more, w2);
    if more == [] {
      assert steps + more == steps;
    } else {
      var init, step := more[..|more| - 1], more[|more| - 1];
      GoesOnAndOn(c, w, steps, w1, init, v);
      OneStepOn(c, w, steps + init, v, step);
      assert steps + init + [step] == steps + more;
    }
  }

  // The world before the last step of a run.
  lemma GoesOnLast(c: Config, w: World, steps: seq<Step>, w': World) returns (v: World)
    requires GoesOn(c, w, steps, w')
    ensures steps == [] ==> w' == w
    ensures steps != [] ==> var init, step := steps[..|steps| - 1], steps[|steps| - 1];
                            && GoesOn(c, w, init, v) && Enabled(c, v, step) && Faithful(c, v, step) && w' == Apply(c, v, step)
  {
    hide Apply, Enabled, Faithful;
    v := if steps == [] then w else Run(c, w, steps[..|steps| - 1]);
  }

  // ---------------------------------------------------------------- the next intervention

  // The gate can open at all.
  ghost predicate CanOpen(c: Config, maxInterventions: int) {
    c.dramaWindow > 0 && c.threshold > 0.0 && maxInterventions > 0
  }

  // Every intervention remembered lies in the past.
  ghost predicate Past(w: World) { forall t :: t in w.mem.recentTicks ==> t <= w.lastTick }

  predicate Zeros(xs: seq<real>) { forall i | 0 <= i < |xs| :: xs[i] == 0.0 }

  // Nothing happens in the world.
  ghost predicate Silent(w: World, q: int, n: int) {
    && w.mem.sum == 0.0 && Zeros(w.mem.drama)
    && w.mem.quietToFire == q && w.mem.maxInterventions == n
    && Past(w)
  }

  // In a tick so many later, no intervention remembered is left in the window.
  ghost predicate Gone(c: Config, w: World, pace: nat) {
    forall t :: t in w.mem.recentTicks ==> t <= w.lastTick + pace - c.budgetWindow
  }

  function Patience(c: Config): nat { Max(1, c.budgetWindow) }

  ghost predicate SameLimits(w: World, w': World) {
    w'.mem.quietToFire == w.mem.quietToFire && w'.mem.maxInterventions == w.mem.maxInterventions
  }

  // One more intervention, of this tool.
  ghost predicate Intervened(w: World, w': World, tool: string, llm: bool) {
    && |w'.log| == |w.log| + 1 && w'.log == w.log + [w'.log[|w.log|]]
    && w'.log[|w.log|].Fire? && w'.log[|w.log|].tool == tool && w'.log[|w.log|].llm == llm
    && w'.log[|w.log|].tick == w'.lastTick && w'.log[|w.log|].cap == w.mem.maxInterventions
    && w'.mem.recentTools == Last(w.mem.recentTools + [tool], RECENT_TOOLS)
    && Past(w') && SameLimits(w, w')
  }

  lemma {:induction false} AllEvicted(xs: seq<int>, b: int)
    requires forall x :: x in xs ==> x <= b
    ensures Evict(xs, b) == []
  {
    if xs != [] {
      assert xs[0] in xs && forall x :: x in xs[1..] ==> x in xs;
      AllEvicted(xs[1..], b);
    }
  }

  lemma PastIsGone(c: Config, w: World)
    requires Past(w)
    ensures Gone(c, w, Patience(c))
  {
  }

  // A closing with an empty window counts the quiet, or brings an intervention.
  lemma CloseLater(c: Config, w: World, pace: nat, llm: Option<string>, rule: string)
    requires CanOpen(c, w.mem.maxInterventions) && Past(w) && Gone(c, w, pace)
    ensures var w', quiet := CloseStep(c, w, w.lastTick + pace, llm, rule), Closed(c, w.mem).quiet;
            var choice := Chosen(w.mem, llm, rule);
            && w'.mem.sum == 0.0 && w'.mem.drama == Bucketed(c, w.mem)
            && Past(w') && SameLimits(w, w') && w'.lastTick == w.lastTick + pace
            && (quiet < w.mem.quietToFire ==>
                  w'.log == w.log && w'.mem.recentTools == w.mem.recentTools && w'.mem.quiet == quiet && Gone(c, w', pace))
            && (quiet >= w.mem.quietToFire ==> Intervened(w, w', choice.0, choice.1))
  {
    hide StreakCapped, Last, Average, Evict, Bucketed;
    AllEvicted(w.mem.recentTicks, w.lastTick + pace - c.budgetWindow);
  }

  // How many closings in a row have been without drama, the running one included.
  ghost predicate Calm(m: Memory, k: nat) {
    k > 0 ==> k - 1 <= |m.drama| && m.sum == 0.0 && forall i | |m.drama| - k + 1 <= i < |m.drama| :: m.drama[i] == 0.0
  }

  lemma {:induction false} TotalOfZeros(xs: seq<real>)
    requires Zeros(xs)
    ensures Total(xs) == 0.0
  {
    if xs != [] { TotalOfZeros(xs[..|xs| - 1]); }
  }

  lemma CalmAverage(c: Config, m: Memory, k: nat)
    requires c.dramaWindow > 0 && Calm(m, k) && (k >= c.dramaWindow || k == |m.drama| + 1)
    ensures Average(Bucketed(c, m)) == 0.0 && Zeros(Bucketed(c, m))
  {
    hide Bucketed, Average;
    BucketedAt(c, m);
    AverageOfZeros(Bucketed(c, m));
  }

  lemma AverageOfZeros(xs: seq<real>)
    requires xs != []
    ensures Zeros(xs) ==> Average(xs) == 0.0
  {
    if Zeros(xs) { TotalOfZeros(xs); }
  }

  lemma BucketedAt(c: Config, m: Memory)
    requires c.dramaWindow > 0
    ensures var b, n := Bucketed(c, m), |m.drama|;
            && |b| == Min(n + 1, c.dramaWindow) && b[|b| - 1] == m.sum
            && (forall i | n + 1 - |b| <= i < n :: b[i - (n + 1 - |b|)] == m.drama[i])
            && forall i | 0 <= i < |b| - 1 :: b[i] == m.drama[n + 1 - |b| + i]
  {
    hide Last;
    var all := m.drama + [m.sum];
    assert Bucketed(c, m) == all[|all| - |Bucketed(c, m)|..];
  }

  lemma Calmer(c: Config, m: Memory, k: nat, m': Memory)
    requires c.dramaWindow > 0 && Calm(m, k) && m'.sum == 0.0 && m'.drama == Bucketed(c, m)
    ensures Calm(m', Min(k, c.dramaWindow) + 1)
  {
    hide Bucketed;
    BucketedAt(c, m);
  }

  // From any world some faithful run leads to the next intervention, with any proposal of the model's and any
  // choice of the rule's.
  lemma {:induction false} NextIntervention(c: Config, w: World, llm: Option<string>, rule: string, pace: nat, k: nat)
    returns (steps: seq<Step>, w': World)
    requires CanOpen(c, w.mem.maxInterventions) && Past(w) && Gone(c, w, pace) && Calm(w.mem, k)
    ensures GoesOn(c, w, steps, w')
    ensures Intervened(w, w', Chosen(w.mem, llm, rule).0, Chosen(w.mem, llm, rule).1)
    ensures Zeros(w.mem.drama) && w.mem.sum == 0.0 ==>
              && Zeros(w'.mem.drama) && w'.mem.sum == 0.0
              && w'.lastTick == w.lastTick + pace * Max(1, w.mem.quietToFire - w.mem.quiet)
    decreases c.dramaWindow - Min(k, c.dramaWindow), Max(0, w.mem.quietToFire - w.mem.quiet)
  {
    hide CloseStep, GoesOn, Calm, Zeros, StreakCapped, Bucketed, Average, Gone, Past;
    var step := Close(w.lastTick + pace, llm, rule);
    w' := Apply(c, w, step);
    steps := [step];
    CloseLater(c, w, pace, llm, rule);
    Calmer(c, w.mem, k, w'.mem);
    OneStep(c, w, step);
    if Zeros(w.mem.drama) && w.mem.sum == 0.0 {
      CalmWhenZeros(w.mem);
      CalmAverage(c, w.mem, |w.mem.drama| + 1);
    }
    if k >= c.dramaWindow { CalmAverage(c, w.mem, k); }
    if Closed(c, w.mem).quiet < w.mem.quietToFire {
      var w1 := w';
      var more, w2 := NextIntervention(c, w1, llm, rule, pace, Min(k, c.dramaWindow) + 1);
      GoesOnAndOn(c, w, steps, w1, more, w2);
      steps, w' := steps + more, w2;
      Paced(pace, w.mem.quietToFire - w.mem.quiet);
    }
  }

  lemma Paced(pace: nat, ticks: int)
    ensures ticks >= 1 ==> pace * ticks == pace + pace * (ticks - 1)
    ensures pace * Max(1, ticks) == pace + pace * (Max(1, ticks) - 1)
  {
  }

  lemma CalmWhenZeros(m: Memory)
    requires Zeros(m.drama) && m.sum == 0.0
    ensures Calm(m, |m.drama| + 1)
  {
  }

  lemma CalmFromTheStart(m: Memory)
    ensures Calm(m, 0)
  {
  }

  // ---------------------------------------------------------------- what the memory must hold

  // The last k tools are all this one.
  predicate EndsIn(tools: seq<string>, tool: string, k: nat) {
    k <= |tools| && forall i | |tools| - k <= i < |tools| :: tools[i] == tool
  }

  // As far as the streak cap looks, the memory ends in the run of one tool that the log ends in.
  ghost predicate Remembers(kept: seq<string>, all: seq<string>) {
    forall tool, k :: 1 <= k <= TOOL_STREAK_LIMIT && EndsIn(all, tool, k) ==> EndsIn(kept, tool, k)
  }

  // No faithful run from here lets the model extend a streak.
  ghost predicate NeverExtends(c: Config, w: World) {
    forall steps, w' :: GoesOn(c, w, steps, w') ==> StreaksCapped(w'.log)
  }

  lemma EndsInOneMore(tools: seq<string>, more: string, tool: string, k: nat)
    requires 1 <= k <= TOOL_STREAK_LIMIT + 1
    ensures EndsIn(tools + [more], tool, k) <==> more == tool && EndsIn(tools, tool, k - 1)
    ensures EndsIn(Last(tools + [more], RECENT_TOOLS), tool, k) <==> more == tool && EndsIn(tools, tool, k - 1)
  {
    hide Last;
    var longer := tools + [more];
    assert longer[|longer| - 1] == more && forall i :: 0 <= i < |tools| ==> longer[i] == tools[i];
    LastEndsAlike(longer, tool, k);
  }

  lemma LastEndsAlike(tools: seq<string>, tool: string, k: nat)
    requires k <= RECENT_TOOLS
    ensures EndsIn(Last(tools, RECENT_TOOLS), tool, k) <==> EndsIn(tools, tool, k)
  {
    hide Last;
    var last := Last(tools, RECENT_TOOLS);
    assert forall i :: |tools| - |last| <= i < |tools| ==> tools[i] == last[i - (|tools| - |last|)];
  }

  lemma CappedIsEndsIn(tools: seq<string>, tool: string)
    ensures StreakCapped(tools) == Some(tool) <==> EndsIn(tools, tool, TOOL_STREAK_LIMIT)
  {
  }

  lemma RemembersOneMore(kept: seq<string>, all: seq<string>, tool: string)
    requires Remembers(kept, all)
    ensures Remembers(Last(kept + [tool], RECENT_TOOLS), all + [tool])
  {
    hide EndsIn, Last;
    forall t, k | 1 <= k <= TOOL_STREAK_LIMIT && EndsIn(all + [tool], t, k)
      ensures EndsIn(Last(kept + [tool], RECENT_TOOLS), t, k)
    {
      EndsInOneMore(all, tool, t, k);
      EndsInOneMore(kept, tool, t, k);
      if k == 1 { EndsInNothing(kept, t); }
    }
  }

  lemma EndsInNothing(tools: seq<string>, tool: string)
    ensures EndsIn(tools, tool, 0)
  {
  }

  lemma EndsLikeRemembers(kept: seq<string>, all: seq<string>)
    requires EndsLike(kept, all)
    ensures Remembers(kept, all)
  {
    assert forall i :: 0 <= i < |kept| ==> kept[i] == all[|all| - |kept| + i];
  }

  // ---------------------------------------------------------------- enough

  ghost predicate StreakInv(w: World) { Remembers(w.mem.recentTools, Tools(w.log)) && StreaksCapped(w.log) }

  lemma SameStreaks(w: World, w': World)
    requires StreakInv(w) && Tools(w'.log) == Tools(w.log) && w'.mem.recentTools == w.mem.recentTools && StreaksCapped(w'.log)
    ensures StreakInv(w')
  {
  }

  lemma CloseKeepsStreaks(c: Config, w: World, tick: int, llm: Option<string>, rule: string)
    requires StreakInv(w) && c.dramaWindow > 0
    ensures StreakInv(CloseStep(c, w, tick, llm, rule))
  {
    hide Remembers, StreaksCapped, Tools, Last, StreakCapped, Remaining, Evict, Average, Bucketed;
    var w' := CloseStep(c, w, tick, llm, rule);
    if w'.log == w.log {
      SameStreaks(w, w');
    } else {
      var fire := w'.log[|w.log|];
      assert w'.log == w.log + [fire] && w'.mem.recentTools == Last(w.mem.recentTools + [fire.tool], RECENT_TOOLS);
      TicksOfOneMore(w.log, fire);
      RemembersOneMore(w.mem.recentTools, Tools(w.log), fire.tool);
      CapIsRemembered(w.mem.recentTools, Tools(w.log), fire.tool);
      StillCapped(w.log, fire);
    }
  }

  lemma CapIsRemembered(kept: seq<string>, all: seq<string>, tool: string)
    requires Remembers(kept, all)
    ensures StreakCapped(all) == Some(tool) ==> StreakCapped(kept) == Some(tool)
  {
    hide EndsIn, StreakCapped;
    CappedIsEndsIn(all, tool);
    CappedIsEndsIn(kept, tool);
  }

  lemma StepKeepsStreaks(c: Config, w: World, step: Step)
    requires StreakInv(w) && Enabled(c, w, step) && Faithful(c, w, step)
    ensures StreakInv(Apply(c, w, step))
  {
    hide Remembers, StreaksCapped, Tools, Ticks, Last, CloseStep, TailCoversWindow, Evict;
    var w' := Apply(c, w, step);
    match step
    case Close(tick, llm, rule) => CloseKeepsStreaks(c, w, tick, llm, rule);
    case PlanAhead(tick) =>
      TicksOfOneMore(w.log, Plan(tick));
      assert Tools(w'.log) == Tools(w.log);
      StillCapped(w.log, Plan(tick));
      SameStreaks(w, w');
    case Restart(q, n) =>
      var head := TailSplits(w.log);
      TailEndsLike(Tools(head), Tools(Last(w.log, RESTORE_TAIL)));
      EndsLikeRemembers(w'.mem.recentTools, Tools(w.log));
    case _ => SameStreaks(w, w');
  }

  lemma {:induction false} RunKeepsStreaks(c: Config, w: World, steps: seq<Step>)
    requires StreakInv(w) && Legal(c, w, steps) && AllFaithful(c, w, steps)
    ensures StreakInv(Run(c, w, steps))
  {
    hide StreakInv, Apply, Enabled, Faithful;
    if steps != [] {
      RunKeepsStreaks(c, w, steps[..|steps| - 1]);
      StepKeepsStreaks(c, Run(c, w, steps[..|steps| - 1]), steps[|steps| - 1]);
    }
  }

  // ---------------------------------------------------------------- necessary

  function Repeated(tool: string, n: nat): seq<string> { seq(n, i => tool) }

  // A run of k tools that the memory does not end in is completed by the rule and then extended by the model.
  lemma {:induction false} ForgottenRunIsExtended(c: Config, w: World, tool: string, k: nat)
    returns (steps: seq<Step>, w': World)
    requires CanOpen(c, w.mem.maxInterventions) && Past(w) && k <= TOOL_STREAK_LIMIT
    requires EndsIn(Tools(w.log), tool, k) && !EndsIn(w.mem.recentTools, tool, k)
    ensures GoesOn(c, w, steps, w') && |w'.log| == |w.log| + TOOL_STREAK_LIMIT + 1 - k
    ensures !StreakKept(w'.log, |w'.log| - 1) && Tools(w'.log) == Tools(w.log) + Repeated(tool, TOOL_STREAK_LIMIT + 1 - k)
    decreases TOOL_STREAK_LIMIT - k
  {
    hide GoesOn, EndsIn, Tools, Last, StreakCapped, Repeated;
    if k == TOOL_STREAK_LIMIT {
      steps, w' := ForgottenStreakIsExtended(c, w, tool);
      RepeatedOneMore(Tools(w.log), tool, 0);
    } else {
      CalmFromTheStart(w.mem);
      PastIsGone(c, w);
      var steps1, w1 := NextIntervention(c, w, None, tool, Patience(c), 0);
      TicksOfOneMore(w.log, w1.log[|w.log|]);
      EndsInOneMore(Tools(w.log), tool, tool, k + 1);
      EndsInOneMore(w.mem.recentTools, tool, tool, k + 1);
      var more, w2 := ForgottenRunIsExtended(c, w1, tool, k + 1);
      GoesOnAndOn(c, w, steps1, w1, more, w2);
      steps, w' := steps1 + more, w2;
      RepeatedOneMore(Tools(w.log), tool, TOOL_STREAK_LIMIT - k);
    }
  }

  lemma ForgottenStreakIsExtended(c: Config, w: World, tool: string)
    returns (steps: seq<Step>, w': World)
    requires CanOpen(c, w.mem.maxInterventions) && Past(w)
    requires EndsIn(Tools(w.log), tool, TOOL_STREAK_LIMIT) && !EndsIn(w.mem.recentTools, tool, TOOL_STREAK_LIMIT)
    ensures GoesOn(c, w, steps, w') && |w'.log| == |w.log| + 1
    ensures !StreakKept(w'.log, |w'.log| - 1) && Tools(w'.log) == Tools(w.log) + [tool]
  {
    hide GoesOn, EndsIn, Tools, Last, StreakCapped;
    CalmFromTheStart(w.mem);
    PastIsGone(c, w);
    CappedIsEndsIn(w.mem.recentTools, tool);
    CappedIsEndsIn(Tools(w.log), tool);
    steps, w' := NextIntervention(c, w, Some(tool), tool, Patience(c), 0);
    TicksOfOneMore(w.log, w'.log[|w.log|]);
    assert w'.log[..|w.log|] == w.log;
  }

  lemma RepeatedOneMore(tools: seq<string>, tool: string, n: nat)
    ensures tools + [tool] + Repeated(tool, n) == tools + Repeated(tool, n + 1)
    ensures Repeated(tool, 0) == []
  {
    assert [tool] + Repeated(tool, n) == Repeated(tool, n + 1);
  }

  // ---------------------------------------------------------------- exactly when

  // However many restarts and redelivered audits lie behind it: from a world whose model has extended no streak yet,
  // no faithful run lets it extend one if and only if the memory ends in the run of one tool that the log ends in.
  lemma CapLastsExactlyWhenRemembered(c: Config, w: World)
    requires Reachable(c, w) && CanOpen(c, w.mem.maxInterventions) && StreaksCapped(w.log)
    ensures NeverExtends(c, w) <==> Remembers(w.mem.recentTools, Tools(w.log))
  {
    hide *;
    ReachableIsPast(c, w);
    LastsExactlyWhenRemembered(c, w);
  }

  ghost predicate PastInv(w: World) { Ordered(w) && Past(w) }

  lemma StepKeepsPast(c: Config, w: World, step: Step)
    requires PastInv(w) && Enabled(c, w, step)
    ensures PastInv(Apply(c, w, step))
  {
    hide Ticks, Tools, CloseStep, NonDecreasing, Last, Evict;
    match step
    case Close(tick, llm, rule) => CloseKeepsPast(c, w, tick, llm, rule);
    case PlanAhead(tick) =>
      LoggedInOrder(w, Plan(tick), Apply(c, w, step));
      EvictAmong(w.mem.recentTicks, tick - c.budgetWindow);
    case Redeliver(i) => if i !in w.mem.seen && w.log[i].Fire? { RedeliveryIsPast(c, w, i); }
    case Restart(q, n) => RestartIsPast(c, w, q, n);
    case _ =>
  }

  lemma EvictAmong(xs: seq<int>, b: int)
    ensures forall x :: x in Evict(xs, b) ==> x in xs
  {
    EvictSuffix(xs, b);
  }

  lemma CloseKeepsPast(c: Config, w: World, tick: int, llm: Option<string>, rule: string)
    requires PastInv(w) && tick >= w.lastTick && c.dramaWindow > 0
    ensures PastInv(CloseStep(c, w, tick, llm, rule))
  {
    hide Ticks, Tools, NonDecreasing, Last, Evict, Average, Bucketed, StreakCapped;
    var w' := CloseStep(c, w, tick, llm, rule);
    EvictAmong(w.mem.recentTicks, tick - c.budgetWindow);
    if |w'.log| > |w.log| { LoggedInOrder(w, w'.log[|w.log|], w'); }
  }

  lemma {:induction false} RunKeepsPast(c: Config, q: int, n: int, t: int, steps: seq<Step>)
    requires Legal(c, Initial(q, n, t), steps)
    ensures PastInv(Run(c, Initial(q, n, t), steps))
  {
    hide PastInv, Apply, Enabled;
    if steps == [] {
      PastAtFirst(q, n, t);
    } else {
      RunKeepsPast(c, q, n, t, steps[..|steps| - 1]);
      StepKeepsPast(c, Run(c, Initial(q, n, t), steps[..|steps| - 1]), steps[|steps| - 1]);
    }
  }

  lemma PastAtFirst(q: int, n: int, t: int)
    ensures PastInv(Initial(q, n, t))
  {
  }

  lemma ReachableIsPast(c: Config, w: World)
    requires Reachable(c, w)
    ensures Ordered(w) && Past(w)
  {
    hide Run, Legal, Initial, Ordered, Past;
    var q, n, t, steps :| RunsTo(c, q, n, t, steps, w);
    RunKeepsPast(c, q, n, t, steps);
  }

  lemma LastsExactlyWhenRemembered(c: Config, w: World)
    requires CanOpen(c, w.mem.maxInterventions) && Past(w) && StreaksCapped(w.log)
    ensures NeverExtends(c, w) <==> Remembers(w.mem.recentTools, Tools(w.log))
  {
    hide StreaksCapped, Tools, EndsIn, CanOpen, Past, Legal, Run, AllFaithful;
    if Remembers(w.mem.recentTools, Tools(w.log)) {
      forall steps, w' | GoesOn(c, w, steps, w') ensures StreaksCapped(w'.log) {
        RunKeepsStreaks(c, w, steps);
      }
    } else {
      var tool, k :| 1 <= k <= TOOL_STREAK_LIMIT && EndsIn(Tools(w.log), tool, k) && !EndsIn(w.mem.recentTools, tool, k);
      var steps, w' := ForgottenRunIsExtended(c, w, tool, k);
      NotCapped(w'.log, |w'.log| - 1);
    }
  }

  lemma NotCapped(log: seq<Audit>, i: nat)
    requires i < |log| && !StreakKept(log, i)
    ensures !StreaksCapped(log)
  {
  }

  // One unseen audit of one's own that comes back is harmless, however the run goes on, if and only if it is of the
  // tool of the last intervention.
  lemma RedeliveryIsHarmlessExactlyWhen(c: Config, w: World, i: nat)
    requires ReachableFaithfully(c, w) && CanOpen(c, w.mem.maxInterventions)
    requires i < |w.log| && i !in w.mem.seen && w.log[i].Fire?
    ensures Tools(w.log) != []
    ensures NeverExtends(c, Apply(c, w, Redeliver(i))) <==> w.log[i].tool == Tools(w.log)[|Tools(w.log)| - 1]
  {
    hide *;
    var all, kept, tool := Tools(w.log), w.mem.recentTools, w.log[i].tool;
    RememberedFaithfully(c, w);
    ToolOfLog(w.log, i);
    Redelivered(c, w, i);
    var w' := Apply(c, w, Redeliver(i));
    assert w'.log == w.log && w'.mem.maxInterventions == w.mem.maxInterventions && Past(w') by { RedeliveryIsPast(c, w, i); }
    LastsExactlyWhenRemembered(c, w');
    RemembersOneTooMany(kept, all, tool);
  }

  // Whoever remembers faithfully has the end of the log in memory and nothing of the future.
  lemma RememberedFaithfully(c: Config, w: World)
    requires ReachableFaithfully(c, w)
    ensures EndsLike(w.mem.recentTools, Tools(w.log)) && StreaksCapped(w.log) && Ordered(w) && Past(w)
  {
    hide ReachableFaithfully, StreaksCapped, Ordered, EndsLike, Tools;
    HistoryKept(c, w);
  }

  lemma {:induction false} ToolOfLog(log: seq<Audit>, i: nat)
    requires i < |log| && log[i].Fire?
    ensures log[i].tool in Tools(log) && log[i].tick in Ticks(log)
  {
    if i < |log| - 1 { ToolOfLog(log[..|log| - 1], i); }
  }

  lemma RedeliveryIsPast(c: Config, w: World, i: nat)
    requires Ordered(w) && Past(w) && i < |w.log| && i !in w.mem.seen && w.log[i].Fire?
    ensures var w' := Apply(c, w, Redeliver(i));
            w'.log == w.log && w'.mem.maxInterventions == w.mem.maxInterventions && Past(w')
  {
    hide Ticks, Last;
    ToolOfLog(w.log, i);
  }

  lemma RemembersOneTooMany(kept: seq<string>, all: seq<string>, tool: string)
    requires EndsLike(kept, all) && all != []
    ensures Remembers(Last(kept + [tool], RECENT_TOOLS), all) <==> tool == all[|all| - 1]
  {
    hide EndsLike, Last, EndsIn;
    var last := all[|all| - 1];
    EndsLikeRemembers(kept, all);
    forall t, k | 1 <= k <= TOOL_STREAK_LIMIT && EndsIn(all, t, k)
      ensures t == last && (tool == last ==> EndsIn(Last(kept + [tool], RECENT_TOOLS), t, k))
    {
      EndsInLast(all, t, k);
      EndsInOneMore(kept, tool, t, k);
      EndsInFewer(kept, t, k);
    }
    EndsInLast(all, last, 1);
    EndsInOneMore(kept, tool, last, 1);
  }

  lemma EndsInLast(tools: seq<string>, tool: string, k: nat)
    requires tools != [] && k >= 1
    ensures EndsIn(tools, tool, k) ==> tool == tools[|tools| - 1]
    ensures EndsIn(tools, tools[|tools| - 1], 1)
  {
  }

  lemma EndsInFewer(tools: seq<string>, tool: string, k: nat)
    requires k >= 1 && EndsIn(tools, tool, k)
    ensures EndsIn(tools, tool, k - 1)
  {
  }

  // A restart is harmless, however the run goes on, if and only if the tail holds the last three interventions, or
  // has so few that the log's last ones, one more than it holds, are not all of one tool.
  lemma RestartIsHarmlessExactlyWhen(c: Config, w: World, q: int, n: int)
    requires ReachableFaithfully(c, w) && CanOpen(c, n)
    ensures var all, tail := Tools(w.log), Tools(Last(w.log, RESTORE_TAIL));
            NeverExtends(c, Apply(c, w, Restart(q, n)))
            <==> TailCoversStreak(w) || !EndsIn(all, all[|all| - 1], |tail| + 1)
  {
    hide *;
    var all, tail := Tools(w.log), Tools(Last(w.log, RESTORE_TAIL));
    RememberedFaithfully(c, w);
    RestartIsPast(c, w, q, n);
    var w' := Apply(c, w, Restart(q, n));
    LastsExactlyWhenRemembered(c, w');
    var head := TailSplits(w.log);
    if TailCoversStreak(w) {
      assert |tail| >= Min(TOOL_STREAK_LIMIT, |all|) by { TailHoldsThree(w); }
      TailEndsLike(Tools(head), tail);
      EndsLikeRemembers(w'.mem.recentTools, all);
    } else {
      assert |tail| < Min(TOOL_STREAK_LIMIT, |all|) by { TailHoldsThree(w); }
      ShortTailRemembers(Tools(head), tail);
    }
  }

  lemma TailHoldsThree(w: World)
    ensures TailCoversStreak(w) <==> |Tools(Last(w.log, RESTORE_TAIL))| >= Min(TOOL_STREAK_LIMIT, |Tools(w.log)|)
  {
  }

  lemma RestartIsPast(c: Config, w: World, q: int, n: int)
    requires Ordered(w)
    ensures Enabled(c, w, Restart(q, n))
    ensures var w', tail := Apply(c, w, Restart(q, n)), Last(w.log, RESTORE_TAIL);
            w'.log == w.log && w'.mem.maxInterventions == n && Past(w')
            && w'.mem.recentTools == Last(Tools(tail), RECENT_TOOLS)
  {
    hide Ticks, Tools, Last;
    var head := TailSplits(w.log);
    SuffixInOrder(Ticks(head), Ticks(Last(w.log, RESTORE_TAIL)), w.lastTick);
  }

  lemma ShortTailRemembers(head: seq<string>, tail: seq<string>)
    requires |tail| < Min(TOOL_STREAK_LIMIT, |head + tail|)
    ensures var all := head + tail;
            Remembers(Last(tail, RECENT_TOOLS), all) <==> !EndsIn(all, all[|all| - 1], |tail| + 1)
  {
    hide EndsIn;
    var all := head + tail;
    var last := all[|all| - 1];
    EndsInTooMany(tail, last);
    forall t, k | 1 <= k <= TOOL_STREAK_LIMIT && EndsIn(all, t, k) && !EndsIn(all, last, |tail| + 1)
      ensures EndsIn(tail, t, k)
    {
      EndsInLast(all, t, k);
      EndsInTail(head, tail, t, k);
    }
  }

  lemma EndsInTooMany(tools: seq<string>, tool: string)
    ensures !EndsIn(tools, tool, |tools| + 1)
  {
  }

  lemma EndsInTail(head: seq<string>, tail: seq<string>, tool: string, k: nat)
    requires EndsIn(head + tail, tool, k)
    ensures EndsIn(head + tail, tool, |tail| + 1) || EndsIn(tail, tool, k)
  {
    var all := head + tail;
    assert forall i :: 0 <= i < |tail| ==> tail[i] == all[|head| + i];
  }

  // ---------------------------------------------------------------- runs that go wrong

  // The rule can bring any tools one after the other.
  lemma {:induction false} RuleBrings(c: Config, w: World, tools: seq<string>)
    returns (steps: seq<Step>, w': World)
    requires CanOpen(c, w.mem.maxInterventions) && Past(w)
    ensures GoesOn(c, w, steps, w') && SameLimits(w, w') && Past(w')
    ensures Tools(w'.log) == Tools(w.log) + tools && |w'.log| == |w.log| + |tools|
    ensures Zeros(w.mem.drama) && w.mem.sum == 0.0 ==> Zeros(w'.mem.drama) && w'.mem.sum == 0.0
  {
    hide GoesOn, Tools, Last, StreakCapped, Zeros, Past;
    if tools == [] {
      GoesNowhere(c, w);
      steps, w' := [], w;
    } else {
      var init, tool := tools[..|tools| - 1], tools[|tools| - 1];
      var steps1, w1 := RuleBrings(c, w, init);
      CalmFromTheStart(w1.mem);
      PastIsGone(c, w1);
      var more, w2 := NextIntervention(c, w1, None, tool, Patience(c), 0);
      GoesOnAndOn(c, w, steps1, w1, more, w2);
      TicksOfOneMore(w1.log, w2.log[|w1.log|]);
      assert tools == init + [tool];
      steps, w' := steps1 + more, w2;
    }
  }

  lemma StartIsSilent(q: int, n: int)
    ensures Silent(Initial(q, n, 0), q, n) && Tools(Initial(q, n, 0).log) == []
  {
  }

  // The rule's own choices are not capped: whatever the configuration, any number of interventions in a row can
  // use one tool.
  lemma RuleStreaksAreUnbounded(c: Config, q: int, n: int, k: nat, tool: string)
    requires CanOpen(c, n)
    ensures exists w :: ReachableFaithfully(c, w) && Silent(w, q, n) && Tools(w.log) == Repeated(tool, k)
  {
    hide GoesOn, Tools, Zeros, CanOpen, ReachableFaithfully, Repeated;
    StartIsSilent(q, n);
    var steps, w := RuleBrings(c, Initial(q, n, 0), Repeated(tool, k));
    GoesOnReaches(c, q, n, steps, w);
    assert [] + Repeated(tool, k) == Repeated(tool, k);
  }

  lemma GoesOnReaches(c: Config, q: int, n: int, steps: seq<Step>, w: World)
    requires GoesOn(c, Initial(q, n, 0), steps, w)
    ensures ReachableFaithfully(c, w)
  {
    hide Run, Legal, Initial, AllFaithful;
    assert RunsTo(c, q, n, 0, steps, w);
  }

  ghost predicate CoveredRun(c: Config, q: int, n: int, steps: seq<Step>, w: World) {
    RunsTo(c, q, n, 0, steps, w) && AllCovered(c, Initial(q, n, 0), steps)
  }

  lemma CoveredStep(c: Config, q: int, n: int, steps: seq<Step>, w: World, step: Step)
    requires CoveredRun(c, q, n, steps, w) && Enabled(c, w, step) && Covered(c, w, step)
    ensures CoveredRun(c, q, n, steps + [step], Apply(c, w, step))
  {
    hide Apply, Initial, Enabled, Covered;
    assert (steps + [step])[..|steps|] == steps;
  }

  lemma {:induction false} CoveredOn(c: Config, q: int, n: int, steps: seq<Step>, w: World, more: seq<Step>, w': World)
    requires CoveredRun(c, q, n, steps, w) && GoesOn(c, w, more, w')
    ensures CoveredRun(c, q, n, steps + more, w')
  {
    hide Apply, Enabled, CoveredRun, TailCoversWindow, TailCoversStreak, GoesOn;
    var v := GoesOnLast(c, w, more, w');
    if more == [] {
      assert steps + more == steps;
    } else {
      var init, step := more[..|more| - 1], more[|more| - 1];
      CoveredOn(c, q, n, steps, w, init, v);
      CoveredStep(c, q, n, steps + init, v, step);
      assert steps + init + [step] == steps + more;
    }
  }

  lemma CoveredRunReaches(c: Config, q: int, n: int, steps: seq<Step>, w: World)
    requires CoveredRun(c, q, n, steps, w)
    ensures ReachableCovered(c, w)
  {
    hide Run, Legal, Initial, AllCovered;
    assert RunsTo(c, q, n, 0, steps, w);
  }

  lemma CoveredAtFirst(c: Config, q: int, n: int)
    ensures CoveredRun(c, q, n, [], Initial(q, n, 0))
  {
  }

  // As many tools as audits: all of them are interventions.
  lemma {:induction false} NothingButFires(log: seq<Audit>, i: nat)
    requires |Tools(log)| == |log| && i < |log|
    ensures log[i].Fire? && log[i].tool == Tools(log)[i]
  {
    AtMostAsManyTools(log[..|log| - 1]);
    if i < |log| - 1 { NothingButFires(log[..|log| - 1], i); }
  }

  lemma {:induction false} AtMostAsManyTools(log: seq<Audit>)
    ensures |Tools(log)| <= |log|
  {
    if log != [] { AtMostAsManyTools(log[..|log| - 1]); }
  }

  // A restart with the whole log in the tail, and then the first audit once more.
  lemma RestartAndRedelivery(c: Config, q: int, n: int, steps: seq<Step>, w: World)
    returns (steps': seq<Step>, w': World)
    requires GoesOn(c, Initial(q, n, 0), steps, w) && 0 < |w.log| == |Tools(w.log)| <= RESTORE_TAIL
    ensures CoveredRun(c, q, n, steps', w') && w'.log == w.log && w'.mem.maxInterventions == n && Past(w')
    ensures w'.mem.recentTools == Last(Last(Tools(w.log), RECENT_TOOLS) + [Tools(w.log)[0]], RECENT_TOOLS)
  {
    hide GoesOn, CoveredRun, Tools, Ticks, ReachableFaithfully, Past, Ordered, EndsLike;
    GoesOnReaches(c, q, n, steps, w);
    RememberedFaithfully(c, w);
    RestartIsPast(c, w, q, n);
    CoveredAtFirst(c, q, n);
    CoveredOn(c, q, n, [], Initial(q, n, 0), steps, w);
    assert [] + steps == steps && Last(w.log, RESTORE_TAIL) == w.log;
    var w1 := Apply(c, w, Restart(q, n));
    CoveredStep(c, q, n, steps, w, Restart(q, n));
    NothingButFires(w.log, 0);
    Redelivered(c, w1, 0);
    assert Ordered(w1) by { SameOrder(w, w1); }
    RedeliveryIsPast(c, w1, 0);
    CoveredStep(c, q, n, steps + [Restart(q, n)], w1, Redeliver(0));
    steps', w' := steps + [Restart(q, n)] + [Redeliver(0)], Apply(c, w1, Redeliver(0));
  }

  lemma SameOrder(w: World, w': World)
    requires Ordered(w) && w'.log == w.log && w'.lastTick == w.lastTick
    ensures Ordered(w')
  {
  }

  // Nor is the model's choice, once a redelivered audit has hidden the streak: whatever the configuration, a
  // restart and one redelivery let the model bring a tool a fourth time in a row.
  lemma RedeliveryLetsTheModelExtendAStreak(c: Config, q: int, n: int, tool: string, other: string)
    requires CanOpen(c, n) && tool != other
    ensures exists w :: && ReachableCovered(c, w) && Tools(w.log) == [other, tool, tool, tool, tool]
                        && |w.log| == 5 && w.log[4].Fire? && w.log[4].llm && !StreakKept(w.log, 4)
  {
    hide GoesOn, CoveredRun, CanOpen, Tools, Past, Zeros, ReachableCovered, EndsIn, StreakCapped;
    var tools := [other, tool, tool, tool];
    StartIsSilent(q, n);
    var steps0, w0 := RuleBrings(c, Initial(q, n, 0), tools);
    assert [] + tools == tools;
    var steps1, w1 := RestartAndRedelivery(c, q, n, steps0, w0);
    EndsInOneMore(Last(tools, RECENT_TOOLS), other, tool, TOOL_STREAK_LIMIT);
    assert EndsIn(tools, tool, TOOL_STREAK_LIMIT) by { FullStreak(tool, other); }
    var more, w := ForgottenRunIsExtended(c, w1, tool, TOOL_STREAK_LIMIT);
    CoveredOn(c, q, n, steps1, w1, more, w);
    CoveredRunReaches(c, q, n, steps1 + more, w);
    assert tools + Repeated(tool, 1) == [other, tool, tool, tool, tool];
  }

  lemma FullStreak(tool: string, other: string)
    ensures EndsIn([other, tool, tool, tool], tool, TOOL_STREAK_LIMIT)
  {
  }
}
