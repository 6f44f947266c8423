// When the Director may intervene.
module DirectorGate {
  import opened Prelude

  // A sliding budget, a quiet counter and a cap on tool streaks decide, and all of it is rebuilt after a restart
  // from the tail of the Director's own audit log.

  const TOOL_STREAK_LIMIT: nat := 3
  const RECENT_TOOLS: nat := 5
  const RESTORE_TAIL: nat := 50

  datatype Config = Config(budgetWindow: int, dramaWindow: nat, threshold: real)

  // What one process holds.
  datatype Memory = Memory(recentTicks: seq<int>, recentTools: seq<string>, seen: set<nat>, drama: seq<real>, sum: real,
                           quiet: nat, quietToFire: int, maxInterventions: int)

  // The audit log: low-frequency plans, and dramatic interventions. An intervention also remembers the
  // number of the tick closing it belongs to, and the cap and quiet requirement in force.
  datatype Audit =
    | Plan(tick: int)
    | Fire(tick: int, tool: string, llm: bool, budgetRemaining: int, closing: nat, cap: int, needed: int)

  function Last<T>(xs: seq<T>, n: nat): (r: seq<T>)
    ensures |r| == Min(|xs|, n) && r == xs[|xs| - |r|..]
  {
    if |xs| <= n then xs else xs[|xs| - n..]
  }

  function Ticks(log: seq<Audit>): seq<int> {
    if log == [] then []
    else Ticks(log[..|log| - 1]) + if log[|log| - 1].Fire? then [log[|log| - 1].tick] else []
  }

  function Tools(log: seq<Audit>): seq<string> {
    if log == [] then []
    else Tools(log[..|log| - 1]) + if log[|log| - 1].Fire? then [log[|log| - 1].tool] else []
  }

  // Drops ticks from the front while they are at or before the bound.
  function Evict(ticks: seq<int>, bound: int): seq<int> {
    if ticks != [] && ticks[0] <= bound then Evict(ticks[1..], bound) else ticks
  }

  function CountAbove(ticks: seq<int>, bound: int): nat {
    if ticks == [] then 0
    else CountAbove(ticks[..|ticks| - 1], bound) + if ticks[|ticks| - 1] > bound then 1 else 0
  }

  function Remaining(c: Config, m: Memory, tick: int): nat {
    Max(0, m.maxInterventions - |Evict(m.recentTicks, tick - c.budgetWindow)|)
  }

  // The tool used by all of the last three interventions, which the language model may not choose.
  function StreakCapped(tools: seq<string>): Option<string> {
    var n := |tools|;
    if n >= TOOL_STREAK_LIMIT && tools[n - 3] == tools[n - 2] == tools[n - 1] then Some(tools[n - 1]) else None
  }

  function Total(xs: seq<real>): real { if xs == [] then 0.0 else Total(xs[..|xs| - 1]) + xs[|xs| - 1] }

  function Average(xs: seq<real>): real
    requires xs != []
  {
    Total(xs) / (|xs| as real)
  }

  function Observed(m: Memory, contribution: real): Memory { m.(sum := m.sum + contribution) }

  function Bucketed(c: Config, m: Memory): (r: seq<real>)
    requires c.dramaWindow > 0
    ensures r != []
  {
    Last(m.drama + [m.sum], c.dramaWindow)
  }

  function Closed(c: Config, m: Memory): Memory
    requires c.dramaWindow > 0
  {
    var drama := Bucketed(c, m);
    m.(drama := drama, sum := 0.0, quiet := if Average(drama) < c.threshold then m.quiet + 1 else 0)
  }

  function Evicted(c: Config, m: Memory, tick: int): Memory {
    m.(recentTicks := Evict(m.recentTicks, tick - c.budgetWindow))
  }

  // What the process remembers of an intervention.
  function Recorded(m: Memory, tick: int, tool: string): Memory {
    m.(recentTicks := m.recentTicks + [tick], recentTools := Last(m.recentTools + [tool], RECENT_TOOLS))
  }

  function Restored(log: seq<Audit>, quietToFire: int, maxInterventions: int): Memory {
    var tail := Last(log, RESTORE_TAIL);
    Memory(Ticks(tail), Last(Tools(tail), RECENT_TOOLS), {}, [], 0.0, 0, quietToFire, maxInterventions)
  }

  // The model's choice unless it is capped, otherwise the rule's.
  function Chosen(m: Memory, llm: Option<string>, rule: string): (string, bool) {
    if llm.Some? && llm != StreakCapped(m.recentTools) then (llm.value, true) else (rule, false)
  }

  predicate Fires(c: Config, m: Memory, tick: int) { m.quiet >= m.quietToFire && Remaining(c, m, tick) > 0 }

  // ---------------------------------------------------------------- runs

  // `closed` lists the drama averages of all tick closings so far.
  datatype World = World(log: seq<Audit>, mem: Memory, lastTick: int, closed: seq<real>)

  datatype Step =
    | Observe(contribution: real)
    | Close(tick: int, llm: Option<string>, rule: string)
    | PlanAhead(tick: int)
    | Season(quietToFire: int, maxInterventions: int)
    | Pace(quietToFire: int)
    | Redeliver(audit: nat)
    | Restart(quietToFire: int, maxInterventions: int)

  predicate Enabled(c: Config, w: World, step: Step) {
    match step
    case Close(tick, _, _) => tick >= w.lastTick && c.dramaWindow > 0
    case PlanAhead(tick) => tick >= w.lastTick
    case Redeliver(i) => i < |w.log|
    case _ => true
  }

  function CloseStep(c: Config, w: World, tick: int, llm: Option<string>, rule: string): World
    requires c.dramaWindow > 0
  {
    var m := Closed(c, w.mem);
    var closed := w.closed + [Average(Bucketed(c, w.mem))];
    if m.quiet < m.quietToFire then World(w.log, m, tick, closed)
    else if !Fires(c, m, tick) then World(w.log, Evicted(c, m, tick), tick, closed)
    else
      var (tool, byModel) := Chosen(m, llm, rule);
      var fire := Fire(tick, tool, byModel, Remaining(c, m, tick) - 1, |closed|, m.maxInterventions, m.quietToFire);
      World(w.log + [fire], Recorded(Evicted(c, m, tick), tick, tool).(quiet := 0, seen := m.seen + {|w.log|}), tick, closed)
  }

  function Apply(c: Config, w: World, step: Step): World
    requires Enabled(c, w, step)
  {
    match step
    case Observe(x) => w.(mem := Observed(w.mem, x))
    case Close(tick, llm, rule) => CloseStep(c, w, tick, llm, rule)
    case PlanAhead(tick) =>
      World(w.log + [Plan(tick)], Evicted(c, w.mem, tick).(seen := w.mem.seen + {|w.log|}), tick, w.closed)
    case Season(q, n) => w.(mem := w.mem.(quietToFire := q, maxInterventions := n))
    case Pace(q) => w.(mem := w.mem.(quietToFire := q))
    case Redeliver(i) =>
      var a := w.log[i];
      if i in w.mem.seen || a.Plan? then w else w.(mem := Recorded(w.mem, a.tick, a.tool))
    case Restart(q, n) => w.(mem := Restored(w.log, q, n))
  }

  function Initial(quietToFire: int, maxInterventions: int, tick: int): World {
    World([], Memory([], [], {}, [], 0.0, 0, quietToFire, maxInterventions), tick, [])
  }

  ghost predicate Legal(c: Config, w0: World, steps: seq<Step>)
    decreases |steps|, 0
  {
    steps == [] || (Legal(c, w0, steps[..|steps| - 1]) && Enabled(c, Run(c, w0, steps[..|steps| - 1]), steps[|steps| - 1]))
  }

  ghost function Run(c: Config, w0: World, steps: seq<Step>): World
    requires Legal(c, w0, steps)
    decreases |steps|, 1
  {
    if steps == [] then w0 else Apply(c, Run(c, w0, steps[..|steps| - 1]), steps[|steps| - 1])
  }

  // The tail read back after a restart holds every intervention still inside the budget window ...
  ghost predicate TailCoversWindow(c: Config, w: World) {
    forall i :: 0 <= i < |w.log| - RESTORE_TAIL && w.log[i].Fire? ==> w.log[i].tick <= w.lastTick - c.budgetWindow
  }

  // ... and the last three interventions, or all there are.
  ghost predicate TailCoversStreak(w: World) {
    |Tools(Last(w.log, RESTORE_TAIL))| >= Min(TOOL_STREAK_LIMIT, |Tools(w.log)|)
  }

  ghost predicate Covered(c: Config, w: World, step: Step) { step.Restart? ==> TailCoversWindow(c, w) }

  // Nothing is counted twice and no restart forgets what still matters.
  ghost predicate Faithful(c: Config, w: World, step: Step) {
    && (step.Restart? ==> TailCoversWindow(c, w) && TailCoversStreak(w))
    && (step.Redeliver? ==> step.audit in w.mem.seen)
  }

  ghost predicate AllCovered(c: Config, w0: World, steps: seq<Step>)
    requires Legal(c, w0, steps)
  {
    steps == [] || (AllCovered(c, w0, steps[..|steps| - 1]) && Covered(c, Run(c, w0, steps[..|steps| - 1]), steps[|steps| - 1]))
  }

  ghost predicate AllFaithful(c: Config, w0: World, steps: seq<Step>)
    requires Legal(c, w0, steps)
  {
    steps == [] || (AllFaithful(c, w0, steps[..|steps| - 1]) && Faithful(c, Run(c, w0, steps[..|steps| - 1]), steps[|steps| - 1]))
  }

  ghost predicate RunsTo(c: Config, q: int, n: int, t: int, steps: seq<Step>, w: World) {
    Legal(c, Initial(q, n, t), steps) && Run(c, Initial(q, n, t), steps) == w
  }

  // Worlds that some run reaches: any run, one whose restarts cover the window, one that is faithful.
  ghost predicate Reachable(c: Config, w: World) {
    exists q, n, t, steps :: RunsTo(c, q, n, t, steps, w)
  }

  ghost predicate ReachableCovered(c: Config, w: World) {
    exists q, n, t, steps :: RunsTo(c, q, n, t, steps, w) && AllCovered(c, Initial(q, n, t), steps)
  }

  ghost predicate ReachableFaithfully(c: Config, w: World) {
    exists q, n, t, steps :: RunsTo(c, q, n, t, steps, w) && AllFaithful(c, Initial(q, n, t), steps)
  }

  function WindowStart(c: Config, tick: int): int { tick - c.budgetWindow }

  // ---------------------------------------------------------------- counting

  lemma {:induction false} CountAboveConcat(xs: seq<int>, ys: seq<int>, b: int)
    ensures CountAbove(xs + ys, b) == CountAbove(xs, b) + CountAbove(ys, b)
  {
    if ys == [] {
      assert xs + ys == xs;
    } else {
      assert (xs + ys)[..|xs + ys| - 1] == xs + ys[..|ys| - 1];
      CountAboveConcat(xs, ys[..|ys| - 1], b);
    }
  }

  lemma {:induction false} CountAboveNone(xs: seq<int>, b: int)
    requires forall x :: x in xs ==> x <= b
    ensures CountAbove(xs, b) == 0
  {
    if xs != [] {
      var init, last := xs[..|xs| - 1], xs[|xs| - 1];
      forall x | x in init ensures x <= b {
        assert x in xs;
      }
      assert last in xs;
      CountAboveNone(init, b);
    }
  }

  lemma {:induction false} CountAboveAll(xs: seq<int>, b: int)
    requires forall x :: x in xs ==> x > b
    ensures CountAbove(xs, b) == |xs|
  {
    if xs != [] {
      var init, last := xs[..|xs| - 1], xs[|xs| - 1];
      forall x | x in init ensures x > b {
        assert x in xs;
      }
      assert last in xs;
      CountAboveAll(init, b);
    }
  }

  // Eviction forgets nothing above the bound, so it never counts too little.
  lemma {:induction false} EvictKeepsAbove(xs: seq<int>, b: int, b': int)
    requires b <= b'
    ensures CountAbove(Evict(xs, b), b') == CountAbove(xs, b')
    ensures CountAbove(xs, b') <= |Evict(xs, b)|
  {
    if xs != [] && xs[0] <= b {
      assert xs == [xs[0]] + xs[1..];
      CountAboveConcat([xs[0]], xs[1..], b');
      EvictKeepsAbove(xs[1..], b, b');
    } else {
      CountAboveAtMost(xs, b');
    }
  }

  lemma {:induction false} CountAboveAtMost(xs: seq<int>, b: int)
    ensures CountAbove(xs, b) <= |xs|
  {
    if xs != [] { CountAboveAtMost(xs[..|xs| - 1], b); }
  }

  // In order, eviction counts exactly what lies above the bound.
  lemma {:induction false} EvictIsExactInOrder(xs: seq<int>, b: int)
    requires NonDecreasing(xs)
    ensures |Evict(xs, b)| == CountAbove(xs, b)
    ensures NonDecreasing(Evict(xs, b))
  {
    if xs != [] && xs[0] <= b {
      assert xs == [xs[0]] + xs[1..];
      CountAboveConcat([xs[0]], xs[1..], b);
      EvictIsExactInOrder(xs[1..], b);
    } else {
      CountAboveAll(xs, b);
    }
  }

  lemma TicksOfOneMore(log: seq<Audit>, a: Audit)
    ensures Ticks(log + [a]) == Ticks(log) + if a.Fire? then [a.tick] else []
    ensures Tools(log + [a]) == Tools(log) + if a.Fire? then [a.tool] else []
  {
    assert (log + [a])[..|log|] == log;
  }

  lemma {:induction false} TicksConcat(log: seq<Audit>, more: seq<Audit>)
    ensures Ticks(log + more) == Ticks(log) + Ticks(more) && Tools(log + more) == Tools(log) + Tools(more)
  {
    if more == [] {
      assert log + more == log;
    } else {
      assert (log + more)[..|log + more| - 1] == log + more[..|more| - 1];
      TicksConcat(log, more[..|more| - 1]);
    }
  }

  lemma {:induction false} TickOfLog(log: seq<Audit>, t: int)
    requires t in Ticks(log)
    ensures exists i :: 0 <= i < |log| && log[i].Fire? && log[i].tick == t
  {
    var last := log[|log| - 1];
    if last.Fire? && last.tick == t {
    } else {
      TickOfLog(log[..|log| - 1], t);
    }
  }

  // The interventions of the log that are later than the bound, by position.
  function InterventionsAfter(log: seq<Audit>, b: int): set<int> {
    set i | 0 <= i < |log| && log[i].Fire? && log[i].tick > b
  }

  lemma {:induction false} InterventionsCounted(log: seq<Audit>, b: int)
    ensures CountAbove(Ticks(log), b) == |InterventionsAfter(log, b)|
  {
    if log == [] {
      assert InterventionsAfter(log, b) == {};
    } else {
      var init, last := log[..|log| - 1], log[|log| - 1];
      InterventionsCounted(init, b);
      assert log == init + [last];
      TicksOfOneMore(init, last);
      if last.Fire? {
        CountAboveConcat(Ticks(init), [last.tick], b);
        CountOfOne(last.tick, b);
      }
      if last.Fire? && last.tick > b {
        assert InterventionsAfter(log, b) == InterventionsAfter(init, b) + {|init|};
      } else {
        assert InterventionsAfter(log, b) == InterventionsAfter(init, b);
        assert last.Plan? ==> Ticks(log) == Ticks(init);
      }
    }
  }

  lemma CountOfOne(x: int, b: int)
    ensures CountAbove([x], b) == if x > b then 1 else 0
  {
    assert [x][..0] == [];
  }

  // ---------------------------------------------------------------- the rate limit

  ghost predicate Ordered(w: World) {
    NonDecreasing(Ticks(w.log)) && forall t :: t in Ticks(w.log) ==> t <= w.lastTick
  }

  // How many interventions the log has in the budget window that ends at its i-th entry.
  ghost function InWindow(c: Config, log: seq<Audit>, i: nat): nat
    requires i < |log|
  {
    CountAbove(Ticks(log[..i + 1]), log[i].tick - c.budgetWindow)
  }

  ghost predicate CapKept(c: Config, log: seq<Audit>, i: nat) {
    i < |log| && log[i].Fire? ==> InWindow(c, log, i) <= log[i].cap
  }

  ghost predicate WithinCaps(c: Config, log: seq<Audit>) { forall i :: 0 <= i < |log| ==> CapKept(c, log, i) }

  // The process never remembers fewer interventions of the window than the log has.
  ghost predicate NothingForgotten(c: Config, w: World) {
    forall b :: b >= w.lastTick - c.budgetWindow ==> CountAbove(w.mem.recentTicks, b) >= CountAbove(Ticks(w.log), b)
  }

  ghost predicate RateInv(c: Config, w: World) { Ordered(w) && NothingForgotten(c, w) && WithinCaps(c, w.log) }

  lemma LoggedInOrder(w: World, a: Audit, w': World)
    requires Ordered(w) && (a.Fire? ==> a.tick >= w.lastTick)
    requires w'.log == w.log + [a] && w'.lastTick >= Max(w.lastTick, a.tick)
    ensures Ordered(w')
  {
    TicksOfOneMore(w.log, a);
    assert forall i :: 0 <= i < |Ticks(w.log)| ==> Ticks(w.log)[i] in Ticks(w.log);
  }

  lemma StillWithinCaps(c: Config, log: seq<Audit>, a: Audit)
    requires WithinCaps(c, log) && (a.Fire? ==> CountAbove(Ticks(log + [a]), a.tick - c.budgetWindow) <= a.cap)
    ensures WithinCaps(c, log + [a])
  {
    forall i | 0 <= i < |log + [a]| ensures CapKept(c, log + [a], i) {
      if i < |log| {
        assert CapKept(c, log, i);
        assert (log + [a])[..i + 1] == log[..i + 1];
      } else {
        assert (log + [a])[..i + 1] == log + [a];
      }
    }
  }

  lemma EvictForgetsNothing(c: Config, w: World, tick: int, w': World)
    requires NothingForgotten(c, w) && tick >= w.lastTick
    requires w'.log == w.log && w'.lastTick == tick && w'.mem.recentTicks == Evicted(c, w.mem, tick).recentTicks
    ensures NothingForgotten(c, w')
  {
    forall b | b >= tick - c.budgetWindow ensures CountAbove(w'.mem.recentTicks, b) >= CountAbove(Ticks(w.log), b) {
      EvictKeepsAbove(w.mem.recentTicks, tick - c.budgetWindow, b);
    }
  }

  lemma RecordingForgetsNothing(c: Config, w: World, a: Audit, w': World)
    requires NothingForgotten(c, w) && a.Fire? && w'.lastTick == w.lastTick
    requires w'.log == w.log + [a] && w'.mem.recentTicks == w.mem.recentTicks + [a.tick]
    ensures NothingForgotten(c, w')
  {
    TicksOfOneMore(w.log, a);
    forall b | b >= w.lastTick - c.budgetWindow ensures CountAbove(w'.mem.recentTicks, b) >= CountAbove(Ticks(w'.log), b) {
      CountAboveConcat(w.mem.recentTicks, [a.tick], b);
      CountAboveConcat(Ticks(w.log), [a.tick], b);
    }
  }

  // Counting a redelivered audit once more can only tighten the budget.
  lemma RedeliveryForgetsNothing(c: Config, w: World, tick: int, w': World)
    requires NothingForgotten(c, w) && w'.lastTick == w.lastTick && w'.log == w.log
    requires w'.mem.recentTicks == w.mem.recentTicks + [tick]
    ensures NothingForgotten(c, w')
  {
    forall b | b >= w.lastTick - c.budgetWindow ensures CountAbove(w'.mem.recentTicks, b) >= CountAbove(Ticks(w.log), b) {
      CountAboveConcat(w.mem.recentTicks, [tick], b);
    }
  }

  // The log's interventions are those before the tail followed by those of the tail.
  lemma TailSplits(log: seq<Audit>) returns (head: seq<Audit>)
    ensures log == head + Last(log, RESTORE_TAIL)
    ensures Ticks(log) == Ticks(head) + Ticks(Last(log, RESTORE_TAIL))
    ensures Tools(log) == Tools(head) + Tools(Last(log, RESTORE_TAIL))
  {
    hide Ticks, Tools;
    head := log[..|log| - |Last(log, RESTORE_TAIL)|];
    assert log == head + Last(log, RESTORE_TAIL);
    TicksConcat(head, Last(log, RESTORE_TAIL));
  }

  // The tail of the log counts like the whole log, from the bound of the window on.
  lemma TailCounts(c: Config, w: World, b: int)
    requires TailCoversWindow(c, w) && b >= w.lastTick - c.budgetWindow
    ensures CountAbove(Ticks(Last(w.log, RESTORE_TAIL)), b) == CountAbove(Ticks(w.log), b)
  {
    hide Ticks, Tools, CountAbove;
    var head := TailSplits(w.log);
    CountAboveConcat(Ticks(head), Ticks(Last(w.log, RESTORE_TAIL)), b);
    forall t | t in Ticks(head) ensures t <= b {
      TickOfLog(head, t);
      assert forall i :: 0 <= i < |head| ==> head[i] == w.log[i];
    }
    CountAboveNone(Ticks(head), b);
  }

  lemma FireIsWithinCap(c: Config, w: World, m: Memory, a: Audit)
    requires Ordered(w) && NothingForgotten(c, w) && a.Fire? && a.tick >= w.lastTick
    requires m.recentTicks == w.mem.recentTicks && Remaining(c, m, a.tick) > 0 && a.cap == m.maxInterventions
    ensures CountAbove(Ticks(w.log + [a]), a.tick - c.budgetWindow) <= a.cap
  {
    var b := a.tick - c.budgetWindow;
    TicksOfOneMore(w.log, a);
    CountAboveConcat(Ticks(w.log), [a.tick], b);
    EvictKeepsAbove(m.recentTicks, b, b);
  }

  lemma CloseKeepsRate(c: Config, w: World, tick: int, llm: Option<string>, rule: string)
    requires RateInv(c, w) && tick >= w.lastTick && c.dramaWindow > 0
    ensures RateInv(c, CloseStep(c, w, tick, llm, rule))
  {
    hide Remaining, Evict, CountAbove, WithinCaps, Closed, Average, Bucketed, Ticks, NonDecreasing, StreakCapped, Tools, Last;
    assert Closed(c, w.mem).recentTicks == w.mem.recentTicks by { ClosingKeepsTicks(c, w.mem); }
    var m := Closed(c, w.mem);
    var w1 := World(w.log, Evicted(c, m, tick), tick, w.closed);
    EvictForgetsNothing(c, w, tick, w1);
    if m.quiet >= m.quietToFire && Fires(c, m, tick) {
      var w2 := CloseStep(c, w, tick, llm, rule);
      var a := w2.log[|w.log|];
      assert w2.log == w.log + [a];
      FireIsWithinCap(c, w, m, a);
      StillWithinCaps(c, w.log, a);
      LoggedInOrder(w, a, w2);
      RecordingForgetsNothing(c, w1, a, w2);
    }
  }

  lemma ClosingKeepsTicks(c: Config, m: Memory)
    requires c.dramaWindow > 0
    ensures Closed(c, m).recentTicks == m.recentTicks && Closed(c, m).recentTools == m.recentTools && Closed(c, m).seen == m.seen
    ensures Closed(c, m).quietToFire == m.quietToFire && Closed(c, m).maxInterventions == m.maxInterventions
  {
  }

  lemma PlanKeepsRate(c: Config, w: World, tick: int)
    requires RateInv(c, w) && tick >= w.lastTick
    ensures RateInv(c, Apply(c, w, PlanAhead(tick)))
  {
    hide Evict, CountAbove, WithinCaps, Ticks, NonDecreasing;
    var w' := Apply(c, w, PlanAhead(tick));
    var w1 := World(w.log, Evicted(c, w.mem, tick), tick, w.closed);
    EvictForgetsNothing(c, w, tick, w1);
    TicksOfOneMore(w.log, Plan(tick));
    StillWithinCaps(c, w.log, Plan(tick));
    LoggedInOrder(w, Plan(tick), w');
    assert Ticks(w'.log) == Ticks(w.log);
  }

  lemma StepKeepsRate(c: Config, w: World, step: Step)
    requires RateInv(c, w) && Enabled(c, w, step) && Covered(c, w, step)
    ensures RateInv(c, Apply(c, w, step))
  {
    hide Evict, CountAbove, WithinCaps, Ticks, NonDecreasing, CloseStep, Last, TailCoversWindow;
    match step
    case Close(tick, llm, rule) => CloseKeepsRate(c, w, tick, llm, rule);
    case PlanAhead(tick) => PlanKeepsRate(c, w, tick);
    case Redeliver(i) =>
      if w.log[i].Fire? { RedeliveryForgetsNothing(c, w, w.log[i].tick, w.(mem := Recorded(w.mem, w.log[i].tick, w.log[i].tool))); }
    case Restart(q, n) =>
      forall b | b >= w.lastTick - c.budgetWindow
        ensures CountAbove(Ticks(Last(w.log, RESTORE_TAIL)), b) == CountAbove(Ticks(w.log), b)
      {
        TailCounts(c, w, b);
      }
    case _ =>
  }

  lemma {:induction false} RunKeepsRate(c: Config, q: int, n: int, t: int, steps: seq<Step>)
    requires Legal(c, Initial(q, n, t), steps) && AllCovered(c, Initial(q, n, t), steps)
    ensures RateInv(c, Run(c, Initial(q, n, t), steps))
  {
    hide RateInv, Apply, Enabled, Covered;
    if steps == [] {
      EmptyLogIsFine(c, q, n, t);
    } else {
      RunKeepsRate(c, q, n, t, steps[..|steps| - 1]);
      StepKeepsRate(c, Run(c, Initial(q, n, t), steps[..|steps| - 1]), steps[|steps| - 1]);
    }
  }

  lemma EmptyLogIsFine(c: Config, q: int, n: int, t: int)
    ensures RateInv(c, Initial(q, n, t)) && QuietInv(c, Initial(q, n, t)) && ExactInv(c, Initial(q, n, t))
  {
  }

  lemma RatesKept(c: Config, w: World)
    requires ReachableCovered(c, w)
    ensures RateInv(c, w)
  {
    hide Run, Legal, Initial, AllCovered, RateInv;
    var q, n, t, steps :| RunsTo(c, q, n, t, steps, w) && AllCovered(c, Initial(q, n, t), steps);
    RunKeepsRate(c, q, n, t, steps);
  }

  // Whatever restarts and redeliveries a run contains, no intervention ever exceeds the cap in force for the
  // budget window that ends at it.
  lemma RateLimit(c: Config, w: World, i: nat)
    requires ReachableCovered(c, w) && i < |w.log| && w.log[i].Fire?
    ensures |InterventionsAfter(w.log[..i + 1], w.log[i].tick - c.budgetWindow)| <= w.log[i].cap
  {
    hide ReachableCovered, CountAbove, Ticks, Ordered, NothingForgotten, InterventionsAfter;
    InterventionsCounted(w.log[..i + 1], w.log[i].tick - c.budgetWindow);
    RatesKept(c, w);
    assert CapKept(c, w.log, i);
  }

  // ---------------------------------------------------------------- quiet spells

  // Every intervention of the log came after as many quiet closings as were required, and after as many
  // closings since the one before it.
  ghost predicate AfterQuiet(c: Config, closed: seq<real>, a: Audit) {
    a.Fire? ==> a.needed <= a.closing <= |closed|
                && forall k :: Max(0, a.closing - a.needed) <= k < a.closing ==> closed[k] < c.threshold
  }

  ghost predicate SpacedOut(log: seq<Audit>) {
    forall i, j :: 0 <= i < j < |log| && log[i].Fire? && log[j].Fire? ==>
      log[i].closing < log[j].closing && log[i].closing + log[j].needed <= log[j].closing
  }

  ghost predicate QuietInv(c: Config, w: World) {
    && w.mem.quiet <= |w.closed|
    && (forall k :: |w.closed| - w.mem.quiet <= k < |w.closed| ==> w.closed[k] < c.threshold)
    && (forall i :: 0 <= i < |w.log| ==> AfterQuiet(c, w.closed, w.log[i]))
    && (forall i :: 0 <= i < |w.log| && w.log[i].Fire? ==> w.log[i].closing <= |w.closed| - w.mem.quiet)
    && SpacedOut(w.log)
  }

  lemma CloseKeepsQuiet(c: Config, w: World, tick: int, llm: Option<string>, rule: string)
    requires QuietInv(c, w) && c.dramaWindow > 0
    ensures QuietInv(c, CloseStep(c, w, tick, llm, rule))
  {
    hide Remaining, Evict, Average, Bucketed, StreakCapped, Last;
    var w' := CloseStep(c, w, tick, llm, rule);
    var m := Closed(c, w.mem);
    assert forall k :: 0 <= k < |w.closed| ==> w'.closed[k] == w.closed[k];
    forall i | 0 <= i < |w.log| ensures AfterQuiet(c, w'.closed, w.log[i]) {
      assert AfterQuiet(c, w.closed, w.log[i]);
    }
    if m.quiet >= m.quietToFire && Fires(c, m, tick) {
      assert w'.log == w.log + [w'.log[|w.log|]];
      assert AfterQuiet(c, w'.closed, w'.log[|w.log|]);
    }
  }

  lemma StepKeepsQuiet(c: Config, w: World, step: Step)
    requires QuietInv(c, w) && Enabled(c, w, step)
    ensures QuietInv(c, Apply(c, w, step))
  {
    hide Evict, CloseStep, Last, Ticks, Tools, AfterQuiet;
    match step
    case Close(tick, llm, rule) => CloseKeepsQuiet(c, w, tick, llm, rule);
    case PlanAhead(tick) =>
      assert AfterQuiet(c, w.closed, Plan(tick)) by { NoFire(c, w.closed, tick); }
    case _ =>
  }

  lemma NoFire(c: Config, closed: seq<real>, tick: int)
    ensures AfterQuiet(c, closed, Plan(tick))
  {
  }

  lemma {:induction false} RunKeepsQuiet(c: Config, q: int, n: int, t: int, steps: seq<Step>)
    requires Legal(c, Initial(q, n, t), steps)
    ensures QuietInv(c, Run(c, Initial(q, n, t), steps))
  {
    hide QuietInv, Apply, Enabled;
    if steps == [] {
      EmptyLogIsFine(c, q, n, t);
    } else {
      RunKeepsQuiet(c, q, n, t, steps[..|steps| - 1]);
      StepKeepsQuiet(c, Run(c, Initial(q, n, t), steps[..|steps| - 1]), steps[|steps| - 1]);
    }
  }

  lemma QuietKept(c: Config, w: World)
    requires Reachable(c, w)
    ensures QuietInv(c, w)
  {
    hide Run, Legal, Initial, QuietInv;
    var q, n, t, steps :| RunsTo(c, q, n, t, steps, w);
    RunKeepsQuiet(c, q, n, t, steps);
  }

  // In every run, two interventions are at least as many closings apart as the later one required, and all
  // the closings it required had a drama average below the threshold.
  lemma InterventionsAreSpacedOut(c: Config, w: World, j: nat)
    requires Reachable(c, w) && j < |w.log| && w.log[j].Fire?
    ensures AfterQuiet(c, w.closed, w.log[j])
    ensures forall i :: 0 <= i < j && w.log[i].Fire? ==> w.log[j].closing - w.log[i].closing >= Max(1, w.log[j].needed)
  {
    hide Reachable, AfterQuiet;
    QuietKept(c, w);
  }

  // ---------------------------------------------------------------- what is remembered is the history

  ghost predicate ExactCounts(c: Config, w: World) {
    && NonDecreasing(w.mem.recentTicks) && (forall t :: t in w.mem.recentTicks ==> t <= w.lastTick)
    && forall b :: b >= w.lastTick - c.budgetWindow ==> CountAbove(w.mem.recentTicks, b) == CountAbove(Ticks(w.log), b)
  }

  // The remembered tools end like the log's, as far back as the streak cap looks.
  ghost predicate ExactTools(w: World) { EndsLike(w.mem.recentTools, Tools(w.log)) }

  ghost predicate EndsLike(kept: seq<string>, all: seq<string>) {
    |kept| <= |all| && kept == all[|all| - |kept|..] && |kept| >= Min(TOOL_STREAK_LIMIT, |all|)
  }

  // No tool the model chose had already been used by the last three interventions.
  ghost predicate StreakKept(log: seq<Audit>, i: nat) {
    i < |log| && log[i].Fire? && log[i].llm ==> StreakCapped(Tools(log[..i])) != Some(log[i].tool)
  }

  ghost predicate StreaksCapped(log: seq<Audit>) { forall i :: 0 <= i < |log| ==> StreakKept(log, i) }

  ghost predicate ExactInv(c: Config, w: World) {
    Ordered(w) && ExactCounts(c, w) && ExactTools(w) && StreaksCapped(w.log)
  }

  lemma {:induction false} EvictSuffix(xs: seq<int>, b: int)
    ensures |Evict(xs, b)| <= |xs| && Evict(xs, b) == xs[|xs| - |Evict(xs, b)|..]
  {
    if xs != [] && xs[0] <= b { EvictSuffix(xs[1..], b); }
  }

  lemma EvictKeepsExact(c: Config, w: World, tick: int, w': World)
    requires ExactCounts(c, w) && tick >= w.lastTick
    requires w'.log == w.log && w'.lastTick == tick && w'.mem.recentTicks == Evicted(c, w.mem, tick).recentTicks
    ensures ExactCounts(c, w')
  {
    hide Evict, NonDecreasing, CountAbove, Ticks;
    EvictIsExactInOrder(w.mem.recentTicks, tick - c.budgetWindow);
    EvictSuffix(w.mem.recentTicks, tick - c.budgetWindow);
    assert forall x :: x in w'.mem.recentTicks ==> x in w.mem.recentTicks;
    forall b | b >= tick - c.budgetWindow ensures CountAbove(w'.mem.recentTicks, b) == CountAbove(Ticks(w.log), b) {
      EvictKeepsAbove(w.mem.recentTicks, tick - c.budgetWindow, b);
    }
  }

  lemma RecordingKeepsExact(c: Config, w: World, a: Audit, w': World)
    requires ExactCounts(c, w) && a.Fire? && a.tick == w.lastTick == w'.lastTick
    requires w'.log == w.log + [a] && w'.mem.recentTicks == w.mem.recentTicks + [a.tick]
    ensures ExactCounts(c, w')
  {
    hide Ticks, Tools, CountAbove, NonDecreasing;
    TicksOfOneMore(w.log, a);
    LatestInOrder(w.mem.recentTicks, a.tick);
    forall b | b >= w.lastTick - c.budgetWindow ensures CountAbove(w'.mem.recentTicks, b) == CountAbove(Ticks(w'.log), b) {
      CountAboveConcat(w.mem.recentTicks, [a.tick], b);
      CountAboveConcat(Ticks(w.log), [a.tick], b);
    }
  }

  lemma LatestInOrder(xs: seq<int>, x: int)
    requires NonDecreasing(xs) && forall y :: y in xs ==> y <= x
    ensures NonDecreasing(xs + [x]) && forall y :: y in xs + [x] ==> y <= x
  {
    assert forall i :: 0 <= i < |xs| ==> xs[i] in xs;
  }

  lemma SameCap(w: World)
    requires ExactTools(w)
    ensures StreakCapped(w.mem.recentTools) == StreakCapped(Tools(w.log))
  {
    hide Tools;
    var all, kept := Tools(w.log), w.mem.recentTools;
    var n, m := |all|, |kept|;
    if n >= 3 {
      assert kept[m - 1] == all[n - 1] && kept[m - 2] == all[n - 2] && kept[m - 3] == all[n - 3];
    }
  }

  lemma RecordingKeepsTools(w: World, a: Audit, w': World)
    requires ExactTools(w) && a.Fire? && w'.log == w.log + [a]
    requires w'.mem.recentTools == Last(w.mem.recentTools + [a.tool], RECENT_TOOLS)
    ensures ExactTools(w')
  {
    hide Tools, Ticks, Last;
    TicksOfOneMore(w.log, a);
  }

  lemma StillCapped(log: seq<Audit>, a: Audit)
    requires StreaksCapped(log) && (a.Fire? && a.llm ==> StreakCapped(Tools(log)) != Some(a.tool))
    ensures StreaksCapped(log + [a])
  {
    hide StreakCapped, Tools;
    forall i | 0 <= i < |log + [a]| ensures StreakKept(log + [a], i) {
      assert (log + [a])[..i] == log[..i];
      assert i < |log| ==> StreakKept(log, i);
      assert log[..|log|] == log;
    }
  }

  lemma CloseKeepsExact(c: Config, w: World, tick: int, llm: Option<string>, rule: string)
    requires ExactInv(c, w) && tick >= w.lastTick && c.dramaWindow > 0
    ensures ExactInv(c, CloseStep(c, w, tick, llm, rule))
  {
    hide Remaining, Evict, CountAbove, Closed, Average, Bucketed, Ticks, NonDecreasing, StreakCapped, Tools, Last, StreaksCapped,
         ExactCounts, ExactTools;
    var m := Closed(c, w.mem);
    ClosingKeepsTicks(c, w.mem);
    var w' := CloseStep(c, w, tick, llm, rule);
    var w1 := World(w.log, Evicted(c, m, tick), tick, w.closed);
    EvictKeepsExact(c, w, tick, w1);
    SameTools(w, w1);
    SameCap(w);
    if m.quiet >= m.quietToFire && Fires(c, m, tick) {
      var a := w'.log[|w.log|];
      assert w'.log == w.log + [a];
      StillCapped(w.log, a);
      LoggedInOrder(w, a, w');
      RecordingKeepsExact(c, w1, a, w');
      RecordingKeepsTools(w1, a, w');
    } else if m.quiet >= m.quietToFire {
      LaterIsExact(c, w1, w');
      SameTools(w, w');
    } else {
      LaterIsExact(c, w, w');
      SameTools(w, w');
    }
  }

  lemma SameTools(w: World, w': World)
    requires ExactTools(w) && Tools(w'.log) == Tools(w.log) && w'.mem.recentTools == w.mem.recentTools
    ensures ExactTools(w')
  {
  }

  lemma LaterIsExact(c: Config, w: World, w': World)
    requires ExactCounts(c, w) && Ticks(w'.log) == Ticks(w.log) && w'.mem.recentTicks == w.mem.recentTicks
    requires w'.lastTick >= w.lastTick
    ensures ExactCounts(c, w')
  {
  }

  lemma SuffixInOrder(xs: seq<int>, ys: seq<int>, bound: int)
    requires NonDecreasing(xs + ys) && forall x :: x in xs + ys ==> x <= bound
    ensures NonDecreasing(ys) && forall y :: y in ys ==> y <= bound
  {
    assert forall i :: 0 <= i < |ys| ==> ys[i] == (xs + ys)[|xs| + i];
    assert forall y :: y in ys ==> y in xs + ys;
  }

  lemma RestartKeepsCounts(c: Config, w: World, q: int, n: int)
    requires Ordered(w) && TailCoversWindow(c, w)
    ensures ExactCounts(c, w.(mem := Restored(w.log, q, n)))
  {
    hide Ticks, Tools, Last, CountAbove, TailCoversWindow, NonDecreasing;
    var head := TailSplits(w.log);
    var tail := Last(w.log, RESTORE_TAIL);
    SuffixInOrder(Ticks(head), Ticks(tail), w.lastTick);
    forall b | b >= w.lastTick - c.budgetWindow ensures CountAbove(Ticks(tail), b) == CountAbove(Ticks(w.log), b) {
      TailCounts(c, w, b);
    }
  }

  lemma TailEndsLike(head: seq<string>, tools: seq<string>)
    requires |tools| >= Min(TOOL_STREAK_LIMIT, |head + tools|)
    ensures EndsLike(Last(tools, RECENT_TOOLS), head + tools)
  {
    var kept := Last(tools, RECENT_TOOLS);
    assert kept == (head + tools)[|head + tools| - |kept|..];
  }

  lemma StepKeepsExact(c: Config, w: World, step: Step)
    requires ExactInv(c, w) && Enabled(c, w, step) && Faithful(c, w, step)
    ensures ExactInv(c, Apply(c, w, step))
  {
    hide Evict, CountAbove, Ticks, Tools, NonDecreasing, CloseStep, Last, TailCoversWindow, StreaksCapped, ExactCounts, EndsLike;
    var w' := Apply(c, w, step);
    match step
    case Close(tick, llm, rule) => CloseKeepsExact(c, w, tick, llm, rule);
    case PlanAhead(tick) =>
      TicksOfOneMore(w.log, Plan(tick));
      assert Ticks(w'.log) == Ticks(w.log) && Tools(w'.log) == Tools(w.log);
      StillCapped(w.log, Plan(tick));
      LoggedInOrder(w, Plan(tick), w');
      var w1 := World(w.log, Evicted(c, w.mem, tick), tick, w.closed);
      EvictKeepsExact(c, w, tick, w1);
      LaterIsExact(c, w1, w');
      SameTools(w, w');
    case Restart(q, n) =>
      RestartKeepsCounts(c, w, q, n);
      var head := TailSplits(w.log);
      TailEndsLike(Tools(head), Tools(Last(w.log, RESTORE_TAIL)));
    case _ =>
      LaterIsExact(c, w, w');
      SameTools(w, w');
  }

  lemma {:induction false} RunKeepsExact(c: Config, q: int, n: int, t: int, steps: seq<Step>)
    requires Legal(c, Initial(q, n, t), steps) && AllFaithful(c, Initial(q, n, t), steps)
    ensures ExactInv(c, Run(c, Initial(q, n, t), steps))
  {
    hide ExactInv, Apply, Enabled, Faithful;
    if steps == [] {
      EmptyLogIsFine(c, q, n, t);
    } else {
      RunKeepsExact(c, q, n, t, steps[..|steps| - 1]);
      StepKeepsExact(c, Run(c, Initial(q, n, t), steps[..|steps| - 1]), steps[|steps| - 1]);
    }
  }

  lemma ExactRemaining(c: Config, w: World, tick: int)
    requires ExactCounts(c, w) && tick >= w.lastTick
    ensures Remaining(c, w.mem, tick) == Max(0, w.mem.maxInterventions - CountAbove(Ticks(w.log), tick - c.budgetWindow))
  {
    EvictIsExactInOrder(w.mem.recentTicks, tick - c.budgetWindow);
  }

  lemma HistoryKept(c: Config, w: World)
    requires ReachableFaithfully(c, w)
    ensures ExactInv(c, w)
  {
    hide Run, Legal, Initial, AllFaithful, ExactInv;
    var q, n, t, steps :| RunsTo(c, q, n, t, steps, w) && AllFaithful(c, Initial(q, n, t), steps);
    RunKeepsExact(c, q, n, t, steps);
  }

  // Front eviction counts exactly the interventions of the whole log that lie in the window.
  lemma RemainingCountsTheWholeLog(c: Config, w: World, tick: int)
    requires ReachableFaithfully(c, w) && tick >= w.lastTick
    ensures Remaining(c, w.mem, tick) == Max(0, w.mem.maxInterventions - |InterventionsAfter(w.log, tick - c.budgetWindow)|)
  {
    hide ReachableFaithfully, ExactCounts, Remaining, Ordered, ExactTools, StreaksCapped, CountAbove, Ticks, InterventionsAfter;
    InterventionsCounted(w.log, tick - c.budgetWindow);
    HistoryKept(c, w);
    ExactRemaining(c, w, tick);
  }

  // A tool the model chose never makes a streak longer than three.
  lemma ModelNeverExtendsAStreak(c: Config, w: World, i: nat)
    requires ReachableFaithfully(c, w) && i < |w.log| && w.log[i].Fire? && w.log[i].llm
    ensures var before := Tools(w.log[..i]);
            |before| >= 3 ==> exists k :: |before| - 3 <= k < |before| && before[k] != w.log[i].tool
  {
    hide ReachableFaithfully, ExactCounts, Ordered, ExactTools, Tools;
    HistoryKept(c, w);
    assert StreakKept(w.log, i);
    var before := Tools(w.log[..i]);
    if |before| >= 3 {
      var k := if before[|before| - 1] != w.log[i].tool then |before| - 1
               else if before[|before| - 2] != w.log[i].tool then |before| - 2 else |before| - 3;
      assert before[k] != w.log[i].tool;
    }
  }

  // A process restarted on the same parameters has the same budget at every later tick and the same capped tool.
  lemma RestartIsInvisible(c: Config, w: World, tick: int)
    requires ReachableFaithfully(c, w) && TailCoversWindow(c, w) && TailCoversStreak(w) && tick >= w.lastTick
    ensures var m := Restored(w.log, w.mem.quietToFire, w.mem.maxInterventions);
            Remaining(c, m, tick) == Remaining(c, w.mem, tick) && StreakCapped(m.recentTools) == StreakCapped(w.mem.recentTools)
  {
    hide *;
    var q, n := w.mem.quietToFire, w.mem.maxInterventions;
    ExactlyRemembered(c, w);
    var w' := w.(mem := Restored(w.log, q, n));
    RestartKeepsCounts(c, w, q, n);
    ExactRemaining(c, w, tick);
    ExactRemaining(c, w', tick);
    assert w'.mem.maxInterventions == n by { RestoredOn(w.log, q, n); }
    SameCap(w);
    RestartKeepsTheCapExactlyWhen(w, q, n);
  }

  lemma RestoredOn(log: seq<Audit>, q: int, n: int)
    ensures Restored(log, q, n).maxInterventions == n
  {
  }

  lemma ExactlyRemembered(c: Config, w: World)
    requires ReachableFaithfully(c, w)
    ensures Ordered(w) && ExactCounts(c, w) && ExactTools(w)
  {
    hide ReachableFaithfully, Ordered, ExactCounts, ExactTools, StreaksCapped;
    HistoryKept(c, w);
  }

  // The tail suffices exactly when no intervention before it lies in the window.
  lemma RestartCountsAllExactlyWhenTheTailCoversTheWindow(c: Config, w: World, q: int, n: int)
    requires Ordered(w)
    ensures (forall tick :: tick >= w.lastTick ==>
               |Evict(Restored(w.log, q, n).recentTicks, WindowStart(c, tick))|
               == CountAbove(Ticks(w.log), WindowStart(c, tick)))
            <==> TailCoversWindow(c, w)
  {
    hide CountAbove, Ticks, Evict, Tools, TailCoversWindow;
    var tail := Last(w.log, RESTORE_TAIL);
    forall tick | tick >= w.lastTick
      ensures |Evict(Ticks(tail), WindowStart(c, tick))| == CountAbove(Ticks(tail), WindowStart(c, tick))
      ensures TailCoversWindow(c, w) ==>
                CountAbove(Ticks(tail), WindowStart(c, tick)) == CountAbove(Ticks(w.log), WindowStart(c, tick))
    {
      TailInOrder(w);
      EvictIsExactInOrder(Ticks(tail), WindowStart(c, tick));
      if TailCoversWindow(c, w) { TailCounts(c, w, WindowStart(c, tick)); }
    }
    if !TailCoversWindow(c, w) {
      TailMisses(c, w);
      assert WindowStart(c, w.lastTick) == w.lastTick - c.budgetWindow;
    }
  }

  lemma TailInOrder(w: World)
    requires Ordered(w)
    ensures NonDecreasing(Ticks(Last(w.log, RESTORE_TAIL)))
  {
    hide Ticks, Tools, Last, NonDecreasing;
    var head := TailSplits(w.log);
    SuffixInOrder(Ticks(head), Ticks(Last(w.log, RESTORE_TAIL)), w.lastTick);
  }

  lemma TailMisses(c: Config, w: World)
    requires !TailCoversWindow(c, w)
    ensures CountAbove(Ticks(Last(w.log, RESTORE_TAIL)), w.lastTick - c.budgetWindow)
            < CountAbove(Ticks(w.log), w.lastTick - c.budgetWindow)
  {
    hide Ticks, Tools, CountAbove;
    var head := TailSplits(w.log);
    CountAboveConcat(Ticks(head), Ticks(Last(w.log, RESTORE_TAIL)), w.lastTick - c.budgetWindow);
    var i :| 0 <= i < |w.log| - RESTORE_TAIL && w.log[i].Fire? && w.log[i].tick > w.lastTick - c.budgetWindow;
    assert head[i] == w.log[i];
    SomethingAbove(head, i, w.lastTick - c.budgetWindow);
  }

  lemma {:induction false} SomethingAbove(log: seq<Audit>, i: nat, b: int)
    requires i < |log| && log[i].Fire? && log[i].tick > b
    ensures CountAbove(Ticks(log), b) > 0
  {
    if i < |log| - 1 {
      SomethingAbove(log[..|log| - 1], i, b);
      CountAboveConcat(Ticks(log[..|log| - 1]), if log[|log| - 1].Fire? then [log[|log| - 1].tick] else [], b);
    }
  }

  // ---------------------------------------------------------------- the capped tool

  predicate UsedByTheLastTwo(tools: seq<string>, tool: string) {
    |tools| >= 2 && tools[|tools| - 2] == tools[|tools| - 1] == tool
  }

  // An unseen audit of one's own that comes back leaves the capped tool right exactly when it is of the capped
  // tool, or, with no tool capped, does not complete a streak of its own.
  lemma RedeliveryKeepsTheCapExactlyWhen(c: Config, w: World, i: nat)
    requires ExactTools(w) && i < |w.log| && i !in w.mem.seen && w.log[i].Fire?
    ensures var tools, tool := Tools(w.log), w.log[i].tool;
            StreakCapped(Apply(c, w, Redeliver(i)).mem.recentTools) == StreakCapped(tools)
            <==> if StreakCapped(tools).Some? then StreakCapped(tools) == Some(tool) else !UsedByTheLastTwo(tools, tool)
  {
    hide *;
    var all, kept, tool := Tools(w.log), w.mem.recentTools, w.log[i].tool;
    SameCap(w);
    CapOfOneMore(kept, tool);
    assert EndsLike(kept, all) by { RememberedTools(w); }
    LastTwoAlike(kept, all, tool);
    assert Apply(c, w, Redeliver(i)).mem.recentTools == Last(kept + [tool], RECENT_TOOLS) by { Redelivered(c, w, i); }
    CappedByThree(all, tool);
  }

  lemma RememberedTools(w: World)
    requires ExactTools(w)
    ensures EndsLike(w.mem.recentTools, Tools(w.log))
  {
  }

  lemma Redelivered(c: Config, w: World, i: nat)
    requires i < |w.log| && i !in w.mem.seen && w.log[i].Fire?
    ensures Enabled(c, w, Redeliver(i))
    ensures Apply(c, w, Redeliver(i)).mem.recentTools == Last(w.mem.recentTools + [w.log[i].tool], RECENT_TOOLS)
  {
  }

  lemma LastTwoAlike(kept: seq<string>, all: seq<string>, tool: string)
    requires EndsLike(kept, all)
    ensures UsedByTheLastTwo(kept, tool) <==> UsedByTheLastTwo(all, tool)
  {
    if |all| >= 2 {
      assert kept[|kept| - 1] == all[|all| - 1] && kept[|kept| - 2] == all[|all| - 2];
    }
  }

  lemma CappedByThree(tools: seq<string>, tool: string)
    ensures StreakCapped(tools) == Some(tool) ==> UsedByTheLastTwo(tools, tool)
    ensures StreakCapped(tools).Some? && UsedByTheLastTwo(tools, tool) ==> StreakCapped(tools) == Some(tool)
  {
  }

  lemma CapOfOneMore(kept: seq<string>, tool: string)
    ensures StreakCapped(Last(kept + [tool], RECENT_TOOLS)) == if UsedByTheLastTwo(kept, tool) then Some(tool) else None
  {
    var tools := kept + [tool];
    var last := Last(tools, RECENT_TOOLS);
    if |kept| >= 2 {
      assert last[|last| - 1] == tool && last[|last| - 2] == kept[|kept| - 1] && last[|last| - 3] == kept[|kept| - 2];
    }
  }

  // A restart finds the capped tool exactly when the tail holds the last three interventions or none is capped.
  lemma RestartKeepsTheCapExactlyWhen(w: World, q: int, n: int)
    ensures StreakCapped(Restored(w.log, q, n).recentTools) == StreakCapped(Tools(w.log))
            <==> TailCoversStreak(w) || StreakCapped(Tools(w.log)) == None
  {
    hide Tools, Ticks, Last, StreakCapped;
    var head := TailSplits(w.log);
    var tail := Tools(Last(w.log, RESTORE_TAIL));
    if TailCoversStreak(w) {
      TailEndsLike(Tools(head), tail);
      SameCap(w.(mem := Restored(w.log, q, n)));
    } else {
      TooFewToCap(Last(tail, RECENT_TOOLS));
    }
  }

  lemma TooFewToCap(tools: seq<string>)
    requires |tools| < TOOL_STREAK_LIMIT
    ensures StreakCapped(tools) == None
  {
  }

  // As long as the process remembers faithfully, a streak grows longer than three only by the rule's choice.
  lemma OnlyTheRuleExtendsAStreak(c: Config, w: World, i: nat)
    requires ReachableFaithfully(c, w) && i < |w.log| && w.log[i].Fire?
    ensures var before := Tools(w.log[..i]); var n := |before|;
            n >= 3 && before[n - 3] == before[n - 2] == before[n - 1] == w.log[i].tool
            <==> !w.log[i].llm && StreakCapped(before) == Some(w.log[i].tool)
  {
    hide ReachableFaithfully, ExactCounts, Ordered, ExactTools, Tools;
    HistoryKept(c, w);
    assert StreakKept(w.log, i);
  }
}
