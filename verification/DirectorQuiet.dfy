// What the Director's interventions answer to, read off the steps of a run.
module DirectorQuiet {
  import opened Prelude
  import opened DirectorGate

  // Drama, quiet spells and the parameters in force are defined here on the steps alone; the memory of the
  // process is proved to follow them.

  // The contributions observed since the last restart, tick by tick. The last group is the tick still open.
  function Groups(steps: seq<Step>): (r: seq<seq<real>>)
    ensures r != []
  {
    if steps == [] then [[]]
    else
      var before := Groups(steps[..|steps| - 1]);
      match steps[|steps| - 1]
      case Observe(x) => before[..|before| - 1] + [before[|before| - 1] + [x]]
      case Close(_, _, _) => before + [[]]
      case Restart(_, _) => [[]]
      case _ => before
  }

  function Sum(xs: seq<real>): real { if xs == [] then 0.0 else xs[0] + Sum(xs[1..]) }

  function Flatten(groups: seq<seq<real>>): seq<real> {
    if groups == [] then [] else Flatten(groups[..|groups| - 1]) + groups[|groups| - 1]
  }

  // The last n ticks closed, or all there are.
  function Window(n: nat, closed: seq<seq<real>>): seq<seq<real>> { closed[|closed| - Min(|closed|, n)..] }

  function ClosedTicks(steps: seq<Step>): seq<seq<real>> { Groups(steps)[..|Groups(steps)| - 1] }

  // Drama per tick over the window: all contributions of its ticks, shared among them.
  function DramaOf(c: Config, steps: seq<Step>): real {
    var window := Window(c.dramaWindow, ClosedTicks(steps));
    if window == [] then 0.0 else Sum(Flatten(window)) / (|window| as real)
  }

  function Closings(steps: seq<Step>): nat {
    if steps == [] then 0 else Closings(steps[..|steps| - 1]) + if steps[|steps| - 1].Close? then 1 else 0
  }

  // The quiet closings an intervention needs, as last set.
  function NeededAfter(q: int, steps: seq<Step>): int {
    if steps == [] then q
    else
      match steps[|steps| - 1]
      case Season(quietToFire, _) => quietToFire
      case Pace(quietToFire) => quietToFire
      case Restart(quietToFire, _) => quietToFire
      case _ => NeededAfter(q, steps[..|steps| - 1])
  }

  // The interventions allowed in one budget window, as last set.
  function CapAfter(n: int, steps: seq<Step>): int {
    if steps == [] then n
    else
      match steps[|steps| - 1]
      case Season(_, maxInterventions) => maxInterventions
      case Restart(_, maxInterventions) => maxInterventions
      case _ => CapAfter(n, steps[..|steps| - 1])
  }

  // ---------------------------------------------------------------- sums

  lemma {:induction false} SumConcat(xs: seq<real>, ys: seq<real>)
    ensures Sum(xs + ys) == Sum(xs) + Sum(ys)
  {
    if xs == [] {
      assert xs + ys == ys;
    } else {
      assert (xs + ys)[1..] == xs[1..] + ys;
      SumConcat(xs[1..], ys);
    }
  }

  function Sums(groups: seq<seq<real>>): (r: seq<real>)
    ensures |r| == |groups| && forall i :: 0 <= i < |groups| ==> r[i] == Sum(groups[i])
  {
    if groups == [] then [] else Sums(groups[..|groups| - 1]) + [Sum(groups[|groups| - 1])]
  }

  lemma {:induction false} TotalOfSums(groups: seq<seq<real>>)
    ensures Total(Sums(groups)) == Sum(Flatten(groups))
  {
    if groups != [] {
      var init := groups[..|groups| - 1];
      TotalOfSums(init);
      SumConcat(Flatten(init), groups[|groups| - 1]);
      assert Sums(groups)[..|groups| - 1] == Sums(init);
    }
  }

  lemma SumsOfOneMore(n: nat, closed: seq<seq<real>>, open: seq<real>)
    ensures Last(Sums(Window(n, closed)) + [Sum(open)], n) == Sums(Window(n, closed + [open]))
  {
    hide Sum, Sums, Last;
    var kept, all := Window(n, closed), closed + [open];
    var r := Last(Sums(kept) + [Sum(open)], n);
    var d := |all| - |r|;
    assert |r| == |Window(n, all)|;
    forall i | 0 <= i < |r| ensures r[i] == Sum(Window(n, all)[i]) {
      assert Window(n, all)[i] == all[d + i];
      assert r[i] == (Sums(kept) + [Sum(open)])[|kept| + 1 - |r| + i];
      if i < |r| - 1 {
        assert kept[|kept| + 1 - |r| + i] == closed[d + i];
      }
    }
  }

  // ---------------------------------------------------------------- the window in memory

  // The memory holds the sum of every closed tick of the window, and of the open one.
  ghost predicate Remembers(c: Config, steps: seq<Step>, m: Memory) {
    && m.sum == Sum(Groups(steps)[|Groups(steps)| - 1])
    && m.drama == Sums(Window(c.dramaWindow, ClosedTicks(steps)))
  }

  lemma GroupsOfOneMore(steps: seq<Step>, step: Step)
    ensures step.Close? ==> Groups(steps + [step]) == Groups(steps) + [[]]
    ensures step.Restart? ==> Groups(steps + [step]) == [[]]
    ensures var before := Groups(steps); var n := |before| - 1;
            step.Observe? ==> Groups(steps + [step]) == before[..n] + [before[n] + [step.contribution]]
    ensures !step.Close? && !step.Restart? && !step.Observe? ==> Groups(steps + [step]) == Groups(steps)
  {
    var steps' := steps + [step];
    assert steps'[..|steps'| - 1] == steps;
  }

  lemma ObservedIn(c: Config, steps: seq<Step>, x: real, m: Memory)
    requires Remembers(c, steps, m)
    ensures Remembers(c, steps + [Observe(x)], Observed(m, x))
  {
    hide Sum, Sums, Window, Groups;
    var before := Groups(steps);
    var open := before[|before| - 1];
    GroupsOfOneMore(steps, Observe(x));
    SumConcat(open, [x]);
    SumOfOne(x);
    assert ClosedTicks(steps + [Observe(x)]) == ClosedTicks(steps);
  }

  lemma SumOfOne(x: real)
    ensures Sum([x]) == x
  {
    assert [x][1..] == [];
  }

  lemma ClosedIn(c: Config, steps: seq<Step>, close: Step, m: Memory)
    requires Remembers(c, steps, m) && close.Close? && c.dramaWindow > 0
    ensures Remembers(c, steps + [close], Closed(c, m))
    ensures Average(Bucketed(c, m)) == DramaOf(c, steps + [close])
  {
    hide Sum, Sums, Window, Last, Total, Flatten, Groups;
    var before, steps' := Groups(steps), steps + [close];
    GroupsOfOneMore(steps, close);
    var closed, open := ClosedTicks(steps), before[|before| - 1];
    assert ClosedTicks(steps') == before == closed + [open];
    SumsOfOneMore(c.dramaWindow, closed, open);
    var window := Window(c.dramaWindow, before);
    assert Bucketed(c, m) == Sums(window);
    assert Sum([]) == 0.0 by { NothingSums(); }
    TotalOfSums(window);
  }

  lemma NothingSums()
    ensures Sum([]) == 0.0
  {
  }

  lemma StepRemembers(c: Config, w: World, steps: seq<Step>, step: Step)
    requires Remembers(c, steps, w.mem) && Enabled(c, w, step)
    ensures Remembers(c, steps + [step], Apply(c, w, step).mem)
    ensures Apply(c, w, step).closed == w.closed + if step.Close? then [DramaOf(c, steps + [step])] else []
  {
    hide Sum, Sums, Window, Last, Evict, Ticks, Tools, Remaining, DramaOf, Average, Bucketed, Remembers, Closed,
         Observed, Groups;
    var steps' := steps + [step];
    GroupsOfOneMore(steps, step);
    match step
    case Observe(x) => ObservedIn(c, steps, x, w.mem);
    case Close(tick, llm, rule) =>
      ClosedIn(c, steps, step, w.mem);
      SameDrama(c, steps', Closed(c, w.mem), Apply(c, w, step).mem);
    case Restart(q, n) => RestartedIn(c, steps, step, w.log);
    case _ =>
      OtherwiseIn(c, steps, steps', w.mem, Apply(c, w, step).mem);
  }

  lemma SameDrama(c: Config, steps: seq<Step>, m: Memory, m': Memory)
    requires Remembers(c, steps, m) && m'.sum == m.sum && m'.drama == m.drama
    ensures Remembers(c, steps, m')
  {
  }

  lemma OtherwiseIn(c: Config, steps: seq<Step>, steps': seq<Step>, m: Memory, m': Memory)
    requires Remembers(c, steps, m) && Groups(steps') == Groups(steps) && m'.sum == m.sum && m'.drama == m.drama
    ensures Remembers(c, steps', m')
  {
    hide Groups;
  }

  lemma RestartedIn(c: Config, steps: seq<Step>, step: Step, log: seq<Audit>)
    requires step.Restart?
    ensures Remembers(c, steps + [step], Restored(log, step.quietToFire, step.maxInterventions))
  {
    hide Ticks, Tools, Last, Groups;
    GroupsOfOneMore(steps, step);
    NothingSums();
  }

  lemma {:induction false} RunRemembers(c: Config, w0: World, steps: seq<Step>)
    requires Legal(c, w0, steps) && Remembers(c, [], w0.mem) && w0.closed == []
    ensures Remembers(c, steps, Run(c, w0, steps).mem)
    ensures |Run(c, w0, steps).closed| == Closings(steps)
    ensures forall i :: 0 <= i < |steps| && steps[i].Close? ==>
              Closings(steps[..i]) < Closings(steps)
              && Run(c, w0, steps).closed[Closings(steps[..i])] == DramaOf(c, steps[..i + 1])
  {
    hide Apply, Enabled, Remembers, DramaOf;
    if steps != [] {
      var init, last := steps[..|steps| - 1], steps[|steps| - 1];
      RunRemembers(c, w0, init);
      assert steps == init + [last];
      StepRemembers(c, Run(c, w0, init), init, last);
      forall i | 0 <= i < |steps| && steps[i].Close?
        ensures Closings(steps[..i]) < Closings(steps)
        ensures Run(c, w0, steps).closed[Closings(steps[..i])] == DramaOf(c, steps[..i + 1])
      {
        if i < |init| {
          assert init[i] == steps[i] && init[..i] == steps[..i] && init[..i + 1] == steps[..i + 1];
        } else {
          assert steps[..i] == init && steps[..i + 1] == steps;
        }
      }
    }
  }

  // ---------------------------------------------------------------- quiet spells

  // From step p on there was no restart, no intervention of the log, and every closing was below the threshold.
  ghost predicate Quietly(c: Config, steps: seq<Step>, log: seq<Audit>, p: nat) {
    && p <= |steps|
    && (forall k :: p <= k < |steps| ==> !steps[k].Restart? && (steps[k].Close? ==> DramaOf(c, steps[..k + 1]) < c.threshold))
    && forall i :: 0 <= i < |log| && log[i].Fire? ==> log[i].closing <= Closings(steps[..p])
  }

  ghost predicate QuietFor(c: Config, steps: seq<Step>, log: seq<Audit>, p: nat, closings: int) {
    Quietly(c, steps, log, p) && Closings(steps) - Closings(steps[..p]) >= closings
  }

  // At least so many closings have passed quietly.
  ghost predicate QuietEnough(c: Config, steps: seq<Step>, log: seq<Audit>, closings: int) {
    exists p: nat :: QuietFor(c, steps, log, p, closings)
  }

  // The counter is the length of the longest quiet spell that lasts to the present.
  ghost predicate Counts(c: Config, steps: seq<Step>, log: seq<Audit>, quiet: int) {
    && QuietEnough(c, steps, log, quiet) && !QuietEnough(c, steps, log, quiet + 1)
    && forall i :: 0 <= i < |log| && log[i].Fire? ==> log[i].closing <= Closings(steps)
  }

  lemma Enough(c: Config, steps: seq<Step>, log: seq<Audit>, p: nat, closings: int, fewer: int)
    requires QuietFor(c, steps, log, p, closings) && fewer <= closings
    ensures QuietEnough(c, steps, log, fewer)
  {
    assert QuietFor(c, steps, log, p, fewer);
  }

  lemma FewerIsEnough(c: Config, steps: seq<Step>, log: seq<Audit>, quiet: int, needed: int)
    requires Counts(c, steps, log, quiet)
    ensures QuietEnough(c, steps, log, needed) <==> quiet >= needed
  {
    hide QuietFor;
    if quiet >= needed {
      var p: nat :| QuietFor(c, steps, log, p, quiet);
      Enough(c, steps, log, p, quiet, needed);
    } else if QuietEnough(c, steps, log, needed) {
      var p: nat :| QuietFor(c, steps, log, p, needed);
      Enough(c, steps, log, p, needed, quiet + 1);
    }
  }

  lemma ClosingsOfOneMore(steps: seq<Step>, step: Step)
    ensures Closings(steps + [step]) == Closings(steps) + if step.Close? then 1 else 0
  {
    assert (steps + [step])[..|steps|] == steps;
  }

  lemma QuietBefore(c: Config, steps: seq<Step>, step: Step, log: seq<Audit>, p: nat)
    requires p <= |steps|
    ensures Quietly(c, steps + [step], log, p)
            <==> Quietly(c, steps, log, p) && !step.Restart? && (step.Close? ==> DramaOf(c, steps + [step]) < c.threshold)
    ensures Closings((steps + [step])[..p]) == Closings(steps[..p])
  {
    hide DramaOf, Closings;
    var steps' := steps + [step];
    assert steps'[..p] == steps[..p] && steps'[..|steps'|] == steps';
    assert steps'[|steps|] == step;
    forall k | p <= k < |steps| ensures steps'[k] == steps[k] && steps'[..k + 1] == steps[..k + 1] {}
  }

  // What one more step makes of the counter while the log stays.
  function CounterAfter(c: Config, steps: seq<Step>, step: Step, quiet: int): int {
    if step.Restart? then 0
    else if step.Close? then if DramaOf(c, steps + [step]) < c.threshold then quiet + 1 else 0
    else quiet
  }

  lemma CountsOn(c: Config, steps: seq<Step>, step: Step, log: seq<Audit>, quiet: nat)
    requires Counts(c, steps, log, quiet)
    ensures Counts(c, steps + [step], log, CounterAfter(c, steps, step, quiet))
  {
    hide Quietly, DramaOf, Closings, QuietEnough;
    var steps', n := steps + [step], CounterAfter(c, steps, step, quiet);
    ClosingsOfOneMore(steps, step);
    var p := SpellStart(c, steps, log, quiet);
    assert p <= |steps| by { WithinSteps(c, steps, log, p); }
    QuietBefore(c, steps, step, log, p);
    JustNow(c, steps', log);
    assert steps'[..|steps'|] == steps';
    Enough(c, steps', log, if Quietly(c, steps', log, p) then p else |steps'|, n, n);
    if QuietEnough(c, steps', log, n + 1) {
      var p' := SpellStart(c, steps', log, n + 1);
      assert p' <= |steps'| by { WithinSteps(c, steps', log, p'); }
      assert p' != |steps'|;
      QuietBefore(c, steps, step, log, p');
      Enough(c, steps, log, p', quiet + 1, quiet + 1);
    }
  }

  lemma SpellStart(c: Config, steps: seq<Step>, log: seq<Audit>, closings: int) returns (p: nat)
    requires QuietEnough(c, steps, log, closings)
    ensures QuietFor(c, steps, log, p, closings)
  {
    p :| QuietFor(c, steps, log, p, closings);
  }

  lemma WithinSteps(c: Config, steps: seq<Step>, log: seq<Audit>, p: nat)
    requires Quietly(c, steps, log, p)
    ensures p <= |steps|
  {
  }

  lemma JustNow(c: Config, steps: seq<Step>, log: seq<Audit>)
    requires forall i :: 0 <= i < |log| && log[i].Fire? ==> log[i].closing <= Closings(steps)
    ensures QuietFor(c, steps, log, |steps|, 0)
  {
    hide DramaOf, Closings;
    assert steps[..|steps|] == steps;
  }

  // An intervention at the latest closing leaves no quiet spell behind it.
  lemma CountsAnew(c: Config, steps: seq<Step>, log: seq<Audit>, quiet: int, a: Audit)
    requires Counts(c, steps, log, quiet) && a.Fire? && a.closing == Closings(steps)
    ensures Counts(c, steps, log + [a], 0)
  {
    hide DramaOf, Closings;
    var log' := log + [a];
    JustNow(c, steps, log');
    assert log'[|log|] == a;
    forall p: nat ensures !QuietFor(c, steps, log', p, 1) {
      if Quietly(c, steps, log', p) { assert a.closing <= Closings(steps[..p]); }
    }
  }

  lemma CountsWithPlan(c: Config, steps: seq<Step>, log: seq<Audit>, quiet: int, tick: int)
    requires Counts(c, steps, log, quiet)
    ensures Counts(c, steps, log + [Plan(tick)], quiet)
  {
    hide DramaOf, Closings, QuietEnough;
    var log' := log + [Plan(tick)];
    forall p: nat ensures Quietly(c, steps, log', p) <==> Quietly(c, steps, log, p) {
      assert forall i :: 0 <= i < |log| ==> log'[i] == log[i];
    }
    var p := SpellStart(c, steps, log, quiet);
    Enough(c, steps, log', p, quiet, quiet);
    if QuietEnough(c, steps, log', quiet + 1) {
      var p' := SpellStart(c, steps, log', quiet + 1);
      Enough(c, steps, log, p', quiet + 1, quiet + 1);
    }
  }

  // ---------------------------------------------------------------- over whole runs

  ghost predicate Follows(c: Config, q: int, n: int, steps: seq<Step>, w: World) {
    && Remembers(c, steps, w.mem) && |w.closed| == Closings(steps)
    && Counts(c, steps, w.log, w.mem.quiet)
    && w.mem.quietToFire == NeededAfter(q, steps) && w.mem.maxInterventions == CapAfter(n, steps)
  }

  lemma ParametersOfOneMore(q: int, n: int, steps: seq<Step>, step: Step)
    ensures NeededAfter(q, steps + [step]) == if step.Season? || step.Pace? || step.Restart? then step.quietToFire
                                              else NeededAfter(q, steps)
    ensures CapAfter(n, steps + [step]) == if step.Season? || step.Restart? then step.maxInterventions else CapAfter(n, steps)
  {
    assert (steps + [step])[..|steps|] == steps;
  }

  // What a closing does to the log and the counter, from the steps before it.
  lemma Closes(c: Config, q: int, n: int, steps: seq<Step>, w: World, close: Step)
    requires Follows(c, q, n, steps, w) && close.Close? && Enabled(c, w, close)
    ensures var w', steps' := Apply(c, w, close), steps + [close];
            && Counts(c, steps', w'.log, w'.mem.quiet)
            && w'.mem.quietToFire == w.mem.quietToFire && w'.mem.maxInterventions == w.mem.maxInterventions
            && (w'.log != w.log <==> QuietEnough(c, steps', w.log, w.mem.quietToFire) && Remaining(c, w.mem, close.tick) > 0)
            && (w'.log != w.log ==> |w'.log| == |w.log| + 1 && w'.log[..|w.log|] == w.log && IsOf(c, w, steps', close, w'.log[|w.log|]))
  {
    hide Counts, Evict, Tools, Remembers, Last, Closings, DramaOf, Average, Bucketed, StreakCapped, NeededAfter, CapAfter, QuietEnough;
    var w', steps' := Apply(c, w, close), steps + [close];
    var m := Closed(c, w.mem);
    ClosedIn(c, steps, close, w.mem);
    ClosingsOfOneMore(steps, close);
    CountsOn(c, steps, close, w.log, w.mem.quiet);
    assert m.quiet == CounterAfter(c, steps, close, w.mem.quiet);
    FewerIsEnough(c, steps', w.log, m.quiet, w.mem.quietToFire);
    if m.quiet >= m.quietToFire && Fires(c, m, close.tick) {
      var a := w'.log[|w.log|];
      assert w'.log == w.log + [a];
      CountsAnew(c, steps', w.log, m.quiet, a);
    }
  }

  // An intervention records its closing, the parameters in force, and what is left of the budget.
  ghost predicate IsOf(c: Config, w: World, steps: seq<Step>, close: Step, a: Audit)
    requires close.Close?
  {
    && a.Fire? && a.tick == close.tick && a.closing == Closings(steps)
    && a.cap == w.mem.maxInterventions && a.needed == w.mem.quietToFire && a.budgetRemaining == Remaining(c, w.mem, close.tick) - 1
    && (if close.llm.Some? && close.llm != StreakCapped(w.mem.recentTools) then a.llm && a.tool == close.llm.value
        else !a.llm && a.tool == close.rule)
  }

  lemma StepFollows(c: Config, q: int, n: int, steps: seq<Step>, w: World, step: Step)
    requires Follows(c, q, n, steps, w) && Enabled(c, w, step)
    ensures Follows(c, q, n, steps + [step], Apply(c, w, step))
  {
    hide Counts, Evict, Ticks, Tools, Last, Closings, DramaOf, CloseStep, Remembers, NeededAfter, CapAfter, Remaining, IsOf, QuietEnough;
    var steps' := steps + [step];
    StepRemembers(c, w, steps, step);
    ClosingsOfOneMore(steps, step);
    ParametersOfOneMore(q, n, steps, step);
    match step
    case Close(_, _, _) => Closes(c, q, n, steps, w, step);
    case PlanAhead(tick) =>
      CountsOn(c, steps, step, w.log, w.mem.quiet);
      CountsWithPlan(c, steps', w.log, w.mem.quiet, tick);
    case _ =>
      CountsOn(c, steps, step, w.log, w.mem.quiet);
  }

  lemma InitiallyFollows(c: Config, q: int, n: int, t: int)
    ensures Follows(c, q, n, [], Initial(q, n, t))
  {
    hide Quietly, DramaOf;
    JustNow(c, [], []);
    Enough(c, [], [], 0, 0, 0);
    NothingYet(c);
    NothingSums();
  }

  lemma NothingYet(c: Config)
    ensures !QuietEnough(c, [], [], 1) && ClosedTicks([]) == [] && Window(c.dramaWindow, []) == [] && Sums([]) == []
  {
    hide DramaOf;
    var nothing: seq<Step> := [];
    assert nothing[..0] == nothing;
  }

  lemma {:induction false} RunFollows(c: Config, q: int, n: int, t: int, steps: seq<Step>)
    requires Legal(c, Initial(q, n, t), steps)
    ensures Follows(c, q, n, steps, Run(c, Initial(q, n, t), steps))
  {
    hide Follows, Apply, Enabled, Initial;
    if steps == [] {
      InitiallyFollows(c, q, n, t);
    } else {
      var init, last := steps[..|steps| - 1], steps[|steps| - 1];
      RunFollows(c, q, n, t, init);
      assert steps == init + [last];
      StepFollows(c, q, n, init, Run(c, Initial(q, n, t), init), last);
    }
  }

  // The i-th entry of the list of averages is the drama per tick over the window at the i-th closing.
  lemma ClosingsAverageTheirWindow(c: Config, q: int, n: int, t: int, steps: seq<Step>, w: World)
    requires RunsTo(c, q, n, t, steps, w)
    ensures |w.closed| == Closings(steps)
    ensures forall i :: 0 <= i < |steps| && steps[i].Close? ==>
              Closings(steps[..i]) < Closings(steps) && w.closed[Closings(steps[..i])] == DramaOf(c, steps[..i + 1])
  {
    hide Run, Legal, Closings, DramaOf;
    InitiallyFollows(c, q, n, t);
    RunRemembers(c, Initial(q, n, t), steps);
  }

  predicate UsedByTheLastThree(tools: seq<string>, tool: string) {
    var n := |tools|;
    n >= 3 && tools[n - 3] == tools[n - 2] == tools[n - 1] == tool
  }

  // A closing brings an intervention exactly when it ends as many quiet closings as needed, since the last
  // restart and the last intervention, and the log has fewer interventions in the budget window than allowed.
  // The tool is the model's unless the last three interventions used it, and the rule's otherwise.
  lemma IntervenesExactlyWhen(c: Config, q: int, n: int, t: int, steps: seq<Step>, w: World, tick: int, llm: Option<string>, rule: string)
    requires RunsTo(c, q, n, t, steps, w) && AllFaithful(c, Initial(q, n, t), steps)
    requires Enabled(c, w, Close(tick, llm, rule))
    ensures var log, steps' := Apply(c, w, Close(tick, llm, rule)).log, steps + [Close(tick, llm, rule)];
            var needed, cap := NeededAfter(q, steps), CapAfter(n, steps);
            var used := |InterventionsAfter(w.log, tick - c.budgetWindow)|;
            var own := llm.Some? && !UsedByTheLastThree(Tools(w.log), llm.value);
            var a := Fire(tick, if own then llm.value else rule, own, cap - used - 1, Closings(steps'), cap, needed);
            log == if QuietEnough(c, steps', w.log, needed) && used < cap then w.log + [a] else w.log
  {
    hide Run, Legal, AllFaithful, Initial, Enabled, QuietEnough, Tools, Ticks, CountAbove, Closings, NeededAfter, CapAfter,
         Remaining, Apply, Counts, Remembers, Ordered, ExactCounts, ExactTools, StreaksCapped;
    var close := Close(tick, llm, rule);
    assert Follows(c, q, n, steps, w) by { RunFollows(c, q, n, t, steps); }
    Closes(c, q, n, steps, w, close);
    assert ReachableFaithfully(c, w);
    HistoryKept(c, w);
    LaterStep(c, w, close);
    ExactRemaining(c, w, tick);
    InterventionsCounted(w.log, tick - c.budgetWindow);
    SameCap(w);
    var log := Apply(c, w, close).log;
    if log != w.log {
      assert log == w.log + [log[|w.log|]];
    }
  }

  lemma LaterStep(c: Config, w: World, close: Step)
    requires Enabled(c, w, close) && close.Close?
    ensures close.tick >= w.lastTick
  {
  }

  // The j-th entry of the log is the intervention at the closing that step i is.
  ghost predicate IntervenedAt(c: Config, q: int, n: int, steps: seq<Step>, log: seq<Audit>, j: nat, i: nat) {
    && i < |steps| && j < |log| && steps[i].Close?
    && log[j].Fire? && log[j].tick == steps[i].tick && log[j].closing == Closings(steps[..i + 1])
    && log[j].needed == NeededAfter(q, steps[..i]) && log[j].cap == CapAfter(n, steps[..i])
    && QuietEnough(c, steps[..i + 1], log[..j], log[j].needed)
  }

  ghost predicate Intervened(c: Config, q: int, n: int, steps: seq<Step>, log: seq<Audit>, j: nat) {
    exists i: nat :: IntervenedAt(c, q, n, steps, log, j, i)
  }

  lemma StillIntervened(c: Config, q: int, n: int, steps: seq<Step>, log: seq<Audit>, j: nat, step: Step, more: seq<Audit>)
    requires Intervened(c, q, n, steps, log, j)
    ensures Intervened(c, q, n, steps + [step], log + more, j)
  {
    hide QuietEnough, NeededAfter, CapAfter, Closings;
    var i: nat :| IntervenedAt(c, q, n, steps, log, j, i);
    assert (steps + [step])[..i] == steps[..i] && (steps + [step])[..i + 1] == steps[..i + 1];
    assert (log + more)[..j] == log[..j];
    assert IntervenedAt(c, q, n, steps + [step], log + more, j, i);
  }

  lemma NowIntervened(c: Config, q: int, n: int, steps: seq<Step>, w: World, close: Step, a: Audit)
    requires close.Close? && IsOf(c, w, steps + [close], close, a) && QuietEnough(c, steps + [close], w.log, a.needed)
    requires w.mem.quietToFire == NeededAfter(q, steps) && w.mem.maxInterventions == CapAfter(n, steps)
    ensures Intervened(c, q, n, steps + [close], w.log + [a], |w.log|)
  {
    hide QuietEnough, NeededAfter, CapAfter, Closings;
    var steps' := steps + [close];
    assert steps'[..|steps|] == steps && steps'[..|steps| + 1] == steps';
    assert (w.log + [a])[..|w.log|] == w.log;
    assert IntervenedAt(c, q, n, steps', w.log + [a], |w.log|, |steps|);
  }

  lemma StepIntervenes(c: Config, q: int, n: int, steps: seq<Step>, w: World, step: Step, j: nat)
    requires Follows(c, q, n, steps, w) && Enabled(c, w, step)
    requires j < |w.log| && w.log[j].Fire? ==> Intervened(c, q, n, steps, w.log, j)
    requires var log := Apply(c, w, step).log; j < |log| && log[j].Fire?
    ensures Intervened(c, q, n, steps + [step], Apply(c, w, step).log, j)
  {
    hide Intervened, QuietEnough, NeededAfter, CapAfter, Closings, Counts, Remembers, CloseStep, Restored, Evict, IsOf;
    var log := Apply(c, w, step).log;
    if step.Close? { Closes(c, q, n, steps, w, step); }
    if log == w.log {
      StillIntervened(c, q, n, steps, w.log, j, step, []);
      assert w.log + [] == log;
    } else {
      assert log == w.log + [log[|w.log|]];
      if j < |w.log| {
        StillIntervened(c, q, n, steps, w.log, j, step, [log[|w.log|]]);
      } else {
        IsOfNeeds(c, w, steps + [step], step, log[j]);
        NowIntervened(c, q, n, steps, w, step, log[j]);
      }
    }
  }

  lemma IsOfNeeds(c: Config, w: World, steps: seq<Step>, close: Step, a: Audit)
    requires close.Close? && IsOf(c, w, steps, close, a)
    ensures a.Fire? && a.needed == w.mem.quietToFire
  {
  }

  // Every intervention of a run is that of one of its closings: at that step, as many closings as were then
  // needed had an average below the threshold, with no restart and no other intervention since the first of them.
  lemma {:induction false} InterventionsFollowQuiet(c: Config, q: int, n: int, t: int, steps: seq<Step>, w: World, j: nat)
    requires RunsTo(c, q, n, t, steps, w) && j < |w.log| && w.log[j].Fire?
    ensures exists i: nat :: IntervenedAt(c, q, n, steps, w.log, j, i)
    decreases |steps|
  {
    hide Intervened, Follows, Apply, Enabled, IntervenedAt;
    var w0 := Initial(q, n, t);
    if steps != [] {
      var init, last := steps[..|steps| - 1], steps[|steps| - 1];
      var before := Run(c, w0, init);
      RunFollows(c, q, n, t, init);
      if j < |before.log| && before.log[j].Fire? {
        InterventionsFollowQuiet(c, q, n, t, init, before, j);
        ToldApart(c, q, n, init, before.log, j);
      }
      StepIntervenes(c, q, n, init, before, last, j);
      assert steps == init + [last];
      ToldApart(c, q, n, steps, w.log, j);
    }
  }

  lemma ToldApart(c: Config, q: int, n: int, steps: seq<Step>, log: seq<Audit>, j: nat)
    ensures Intervened(c, q, n, steps, log, j) <==> exists i: nat :: IntervenedAt(c, q, n, steps, log, j, i)
  {
    hide IntervenedAt;
  }

  // ---------------------------------------------------------------- audits that come back

  // How long the log was at the last restart.
  ghost function LoggedAtRestart(c: Config, w0: World, steps: seq<Step>): nat
    requires Legal(c, w0, steps)
  {
    if steps == [] then |w0.log|
    else
      var init := steps[..|steps| - 1];
      if steps[|steps| - 1].Restart? then |Run(c, w0, init).log| else LoggedAtRestart(c, w0, init)
  }

  lemma {:induction false} SeenSinceRestart(c: Config, w0: World, steps: seq<Step>)
    requires Legal(c, w0, steps) && w0.mem.seen == {}
    ensures var w := Run(c, w0, steps);
            && LoggedAtRestart(c, w0, steps) <= |w.log|
            && forall i: nat :: i in w.mem.seen <==> LoggedAtRestart(c, w0, steps) <= i < |w.log|
  {
    if steps != [] {
      hide Evict, Remaining, Closed, StreakCapped, Last, Ticks, Tools;
      var init, last := steps[..|steps| - 1], steps[|steps| - 1];
      SeenSinceRestart(c, w0, init);
      if last.Close? { ClosingKeepsTicks(c, Run(c, w0, init).mem); }
    }
  }

  // An audit that comes back changes nothing exactly when it is a plan or was stored since the last restart; otherwise
  // its tick and tool are remembered again.
  lemma OwnAuditsComeBackUnnoticed(c: Config, q: int, n: int, t: int, steps: seq<Step>, w: World, i: nat)
    requires RunsTo(c, q, n, t, steps, w) && i < |w.log|
    ensures var again := Apply(c, w, Redeliver(i));
            if w.log[i].Plan? || LoggedAtRestart(c, Initial(q, n, t), steps) <= i then again == w
            else again.mem.recentTicks == w.mem.recentTicks + [w.log[i].tick]
  {
    hide Run, Legal, LoggedAtRestart;
    SeenSinceRestart(c, Initial(q, n, t), steps);
  }
}
