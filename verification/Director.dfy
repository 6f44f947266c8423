// The Director's process: it mutates its counters and queues in place, and does what DirectorGate says.
module DirectorProcess {
  import opened Prelude
  import opened DirectorGate

  // What the Director's own season event sets.
  datatype Season = Season(theme: string, quietToFire: int, maxInterventions: int)

  function DayOf(tick: int, interval: nat): int
    requires interval > 0
  {
    tick / interval
  }

  // The latest day a plan in the log belongs to, or -1.
  function LastPlanDay(log: seq<Audit>, interval: nat): int
    requires interval > 0
  {
    if log == [] then -1
    else
      var before := LastPlanDay(log[..|log| - 1], interval);
      if log[|log| - 1].Plan? then Max(before, DayOf(log[|log| - 1].tick, interval)) else before
  }

  class Director {
    const c: Config
    const seasonInterval: nat
    var recentTicks: seq<int>
    var recentTools: seq<string>
    var seen: set<nat>
    var drama: seq<real>
    var currentSum: real
    var quietTicks: nat
    var quietToFire: int
    var maxInterventions: int
    var theme: Option<string>
    var lastSeasonDay: int

    ghost function Mem(): Memory
      reads this
    {
      Memory(recentTicks, recentTools, seen, drama, currentSum, quietTicks, quietToFire, maxInterventions)
    }

    // A process starts from the last season, if any, and from its audit log; `audits` is the whole of it.
    constructor (c: Config, seasonInterval: nat, audits: seq<Audit>, season: Option<Season>, quietToFire: int,
                 maxInterventions: int)
      requires seasonInterval > 0
      ensures this.c == c && this.seasonInterval == seasonInterval
      ensures season.None? ==> Mem() == Restored(audits, quietToFire, maxInterventions) && theme == None
      ensures season.Some? ==> && Mem() == Restored(audits, season.value.quietToFire, season.value.maxInterventions)
                               && theme == Some(season.value.theme)
      ensures lastSeasonDay == LastPlanDay(Last(audits, RESTORE_TAIL), seasonInterval)
    {
      this.c, this.seasonInterval := c, seasonInterval;
      recentTicks, recentTools, seen, drama, currentSum, quietTicks := [], [], {}, [], 0.0, 0;
      this.quietToFire, this.maxInterventions := quietToFire, maxInterventions;
      theme, lastSeasonDay := None, -1;
      new;
      hide Restored, Ticks, Tools, Last;
      RestoreFromHistory(audits, season);
    }

    method Observe(contribution: real)
      modifies this`currentSum
      ensures Mem() == Observed(old(Mem()), contribution)
    {
      currentSum := currentSum + contribution;
    }

    method CloseTick()
      requires c.dramaWindow > 0
      modifies this`drama, this`currentSum, this`quietTicks
      ensures Mem() == Closed(c, old(Mem()))
    {
      hide Average;
      drama := drama + [currentSum];
      if |drama| > c.dramaWindow {
        drama := drama[|drama| - c.dramaWindow..];
      }
      currentSum := 0.0;
      if Average(drama) < c.threshold {
        quietTicks := quietTicks + 1;
      } else {
        quietTicks := 0;
      }
    }

    // Pops what has left the window, then counts what is left of the budget.
    method BudgetRemaining(tick: int) returns (left: nat)
      modifies this`recentTicks
      ensures Mem() == Evicted(c, old(Mem()), tick)
      ensures left == DirectorGate.Remaining(c, old(Mem()), tick)
    {
      while |recentTicks| > 0 && recentTicks[0] <= tick - c.budgetWindow
        invariant Evict(recentTicks, tick - c.budgetWindow) == Evict(old(recentTicks), tick - c.budgetWindow)
        decreases |recentTicks|
      {
        recentTicks := recentTicks[1..];
      }
      left := Max(0, maxInterventions - |recentTicks|);
    }

    method StreakCappedTool() returns (tool: Option<string>)
      ensures tool == StreakCapped(recentTools)
    {
      if |recentTools| < TOOL_STREAK_LIMIT {
        return None;
      }
      var tail := recentTools[|recentTools| - TOOL_STREAK_LIMIT..];
      var kinds := set t | t in tail;
      OneKind(tail);
      tool := if |kinds| == 1 then Some(tail[|tail| - 1]) else None;
    }

    method Record(tick: int, tool: string)
      modifies this`recentTicks, this`recentTools
      ensures Mem() == Recorded(old(Mem()), tick, tool)
    {
      recentTicks := recentTicks + [tick];
      recentTools := recentTools + [tool];
      if |recentTools| > RECENT_TOOLS {
        recentTools := recentTools[|recentTools| - RECENT_TOOLS..];
      }
    }

    method Select(tick: int, llm: Option<string>, rule: string) returns (choice: Option<(string, bool)>)
      modifies this`recentTicks
      ensures Mem() == if quietTicks >= quietToFire then Evicted(c, old(Mem()), tick) else old(Mem())
      ensures choice == if Fires(c, old(Mem()), tick) then Some(Chosen(old(Mem()), llm, rule)) else None
    {
      var capped := StreakCappedTool();
      if quietTicks < quietToFire {
        return None;
      }
      var left := BudgetRemaining(tick);
      if left == 0 {
        return None;
      }
      if llm.Some? && llm != capped {
        return Some((llm.value, true));
      }
      choice := Some((rule, false));
    }

    // A tick is completed: the window closes, and the gate decides whether to intervene. `log` and `closed`
    // are the audits and the averages so far.
    method TickCompleted(tick: int, llm: Option<string>, rule: string, ghost log: seq<Audit>, ghost lastTick: int,
                         ghost closed: seq<real>, auditId: nat, closing: nat)
      returns (fired: Option<Audit>)
      requires c.dramaWindow > 0 && auditId == |log| && closing == |closed| + 1
      modifies this
      ensures var w := CloseStep(c, World(log, old(Mem()), lastTick, closed), tick, llm, rule);
              Mem() == w.mem && w.log == log + if fired.Some? then [fired.value] else []
    {
      hide Average, StreakCapped, Evict, Last;
      CloseTick();
      ghost var m := Mem();
      var choice := Select(tick, llm, rule);
      if choice.None? {
        return None;
      }
      EvictTwice(recentTicks, m.recentTicks, tick - c.budgetWindow);
      var left := BudgetRemaining(tick);
      var (tool, byModel) := choice.value;
      fired := Some(Fire(tick, tool, byModel, left - 1, closing, maxInterventions, quietToFire));
      seen := seen + {auditId};
      Record(tick, tool);
      quietTicks := 0;
    }

    // One of the Director's own audits comes back.
    method RestoreBudget(id: nat, audit: Audit)
      modifies this`recentTicks, this`recentTools
      ensures Mem() == if id in seen || audit.Plan? then old(Mem()) else Recorded(old(Mem()), audit.tick, audit.tool)
    {
      if id !in seen && audit.Fire? {
        Record(audit.tick, audit.tool);
      }
    }

    method RestoreFromHistory(audits: seq<Audit>, season: Option<Season>)
      requires recentTicks == [] && recentTools == [] && seen == {} && drama == [] && currentSum == 0.0 && quietTicks == 0
      requires seasonInterval > 0 && lastSeasonDay == -1
      modifies this`recentTicks, this`recentTools, this`quietToFire, this`maxInterventions, this`theme, this`lastSeasonDay
      ensures season.None? ==> Mem() == Restored(audits, old(quietToFire), old(maxInterventions)) && theme == old(theme)
      ensures season.Some? ==> && Mem() == Restored(audits, season.value.quietToFire, season.value.maxInterventions)
                               && theme == Some(season.value.theme)
      ensures lastSeasonDay == LastPlanDay(Last(audits, RESTORE_TAIL), seasonInterval)
    {
      hide Restored, LastPlanDay, Last;
      if season.Some? {
        ApplySeason(season.value);
      }
      RestoreAudits(audits);
    }

    // The audits of the tail count once more, and the plans among them say which days are planned.
    method RestoreAudits(audits: seq<Audit>)
      requires recentTicks == [] && recentTools == [] && seen == {} && drama == [] && currentSum == 0.0 && quietTicks == 0
      requires seasonInterval > 0 && lastSeasonDay == -1
      modifies this`recentTicks, this`recentTools, this`lastSeasonDay
      ensures Mem() == Restored(audits, quietToFire, maxInterventions)
      ensures lastSeasonDay == LastPlanDay(Last(audits, RESTORE_TAIL), seasonInterval)
    {
      hide LastPlanDay, ReadBack, Recorded, Restored, DayOf, Last;
      var tail := if |audits| > RESTORE_TAIL then audits[|audits| - RESTORE_TAIL..] else audits;
      var i := 0;
      assert tail[..0] == [];
      NothingReadYet(quietToFire, maxInterventions, seasonInterval);
      while i < |tail|
        invariant 0 <= i <= |tail| && seen == {}
        invariant Mem() == ReadBack(tail[..i], quietToFire, maxInterventions)
        invariant lastSeasonDay == LastPlanDay(tail[..i], seasonInterval)
      {
        ReadOneMore(tail, i, quietToFire, maxInterventions, seasonInterval);
        if tail[i].Plan? {
          lastSeasonDay := Max(lastSeasonDay, DayOf(tail[i].tick, seasonInterval));
        }
        RestoreBudget(i, tail[i]);
        i := i + 1;
      }
      assert tail[..|tail|] == tail;
      RestoredIsReadBack(audits, quietToFire, maxInterventions);
    }

    method ApplySeason(season: Season)
      modifies this`quietToFire, this`maxInterventions, this`theme
      ensures Mem() == old(Mem()).(quietToFire := season.quietToFire, maxInterventions := season.maxInterventions)
      ensures theme == Some(season.theme)
    {
      theme := Some(season.theme);
      quietToFire := season.quietToFire;
      maxInterventions := season.maxInterventions;
    }

    // Whether this tick opens a season day that is still to be planned; then it is taken as planned.
    method OpensDay(tick: int) returns (opens: bool)
      requires seasonInterval > 0
      modifies this`lastSeasonDay
      ensures opens == (DayOf(tick, seasonInterval) > old(lastSeasonDay))
      ensures lastSeasonDay == Max(old(lastSeasonDay), DayOf(tick, seasonInterval))
    {
      var day := DayOf(tick, seasonInterval);
      opens := day > lastSeasonDay;
      if opens {
        lastSeasonDay := day;
      }
    }
  }

  // No day that has a plan in the log is planned again, and no day without one is skipped.
  lemma {:induction false} PlannedDaysAreBehind(log: seq<Audit>, interval: nat)
    requires interval > 0
    ensures forall i :: 0 <= i < |log| && log[i].Plan? ==> DayOf(log[i].tick, interval) <= LastPlanDay(log, interval)
    ensures LastPlanDay(log, interval) == -1
            || exists i :: 0 <= i < |log| && log[i].Plan? && DayOf(log[i].tick, interval) == LastPlanDay(log, interval)
  {
    hide DayOf;
    if log != [] {
      var init := log[..|log| - 1];
      PlannedDaysAreBehind(init, interval);
      assert forall i :: 0 <= i < |init| ==> init[i] == log[i];
    }
  }

  // What reading these audits back leaves in memory.
  ghost function ReadBack(log: seq<Audit>, q: int, n: int): Memory {
    Memory(Ticks(log), Last(Tools(log), RECENT_TOOLS), {}, [], 0.0, 0, q, n)
  }

  lemma NothingReadYet(q: int, n: int, interval: nat)
    requires interval > 0
    ensures LastPlanDay([], interval) == -1 && ReadBack([], q, n) == Memory([], [], {}, [], 0.0, 0, q, n)
  {
  }

  lemma RestoredIsReadBack(audits: seq<Audit>, q: int, n: int)
    ensures Restored(audits, q, n) == ReadBack(Last(audits, RESTORE_TAIL), q, n)
    ensures Last(audits, RESTORE_TAIL) == if |audits| > RESTORE_TAIL then audits[|audits| - RESTORE_TAIL..] else audits
  {
  }

  lemma ReadOneMore(log: seq<Audit>, i: nat, q: int, n: int, interval: nat)
    requires interval > 0 && i < |log|
    ensures var before, a, after := log[..i], log[i], log[..i + 1];
            && ReadBack(after, q, n)
               == (if a.Fire? then Recorded(ReadBack(before, q, n), a.tick, a.tool) else ReadBack(before, q, n))
            && LastPlanDay(after, interval)
               == if a.Plan? then Max(LastPlanDay(before, interval), DayOf(a.tick, interval)) else LastPlanDay(before, interval)
  {
    hide Ticks, Tools, Last, DayOf;
    assert log[..i + 1] == log[..i] + [log[i]] && log[..i + 1][..i] == log[..i];
    TicksOfOneMore(log[..i], log[i]);
    if log[i].Fire? { LastOfLast(Tools(log[..i]), log[i].tool); }
  }

  lemma OneKind(tail: seq<string>)
    requires |tail| == 3
    ensures |set t | t in tail| == 1 <==> tail[0] == tail[1] == tail[2]
  {
    var kinds := set t | t in tail;
    assert tail[0] in kinds && tail[1] in kinds && tail[2] in kinds;
    if tail[0] == tail[1] == tail[2] {
      assert kinds == {tail[0]};
    } else {
      var x := if tail[0] != tail[1] then tail[1] else tail[2];
      SubsetCardinality({tail[0], x}, kinds);
    }
  }

  lemma {:induction false} EvictTwice(ys: seq<int>, xs: seq<int>, b: int)
    requires ys == Evict(xs, b)
    ensures Evict(ys, b) == ys
  {
    if xs != [] && xs[0] <= b { EvictTwice(ys, xs[1..], b); }
  }

  lemma LastOfLast(tools: seq<string>, tool: string)
    ensures Last(Last(tools, RECENT_TOOLS) + [tool], RECENT_TOOLS) == Last(tools + [tool], RECENT_TOOLS)
  {
  }
}
