// The worker that keeps the decay accounts of its actors.
module DecayPhases {
  import opened Prelude
  import opened DecayAccount

  // It has maps in memory, a store, and loops over the roster. Every method does to each single account what
  // DecayAccount says.

  function Lookup(m: map<string, int>, k: string): Option<int> {
    if k in m then Some(m[k]) else None
  }

  // How many ticks an account has to pay now.
  function DueTicks(a: Account, tick: int, asleep: bool): Option<int> {
    var last := Touch(a, tick - 1).last.value;
    if !asleep && tick > last then Some(tick - last) else None
  }

  class ActorPhases {
    var personas: seq<string>           // the roster, in a fixed order
    var lastDecay: map<string, int>     // the ledger in memory
    var dirty: set<string>              // accounts touched since the last write
    var loaded: bool
    var store: map<string, int>         // the persisted ledger
    var decayed: map<string, int>       // units of decay applied to each actor's state

    ghost predicate Valid()
      reads this
    {
      Distinct(personas) && dirty <= lastDecay.Keys <= Elements(personas) && forall a :: a in personas ==> a in decayed
    }

    ghost function AccountOf(a: string): Account
      reads this
    {
      Account(a in personas, loaded, Lookup(lastDecay, a), a in dirty, Lookup(store, a), Lookup(decayed, a).GetOr(0))
    }

    constructor (personas: seq<string>, store: map<string, int>)
      requires Distinct(personas)
      ensures Valid() && this.personas == personas && this.store == store
      ensures forall a :: AccountOf(a) == Account(a in personas, false, None, false, Lookup(store, a), 0)
    {
      this.personas, this.store := personas, store;
      lastDecay, dirty, loaded := map[], {}, false;
      decayed := map a | a in Elements(personas) :: 0;
    }

    method HydrateLedger()
      requires Valid() && !loaded
      modifies `lastDecay, `loaded
      ensures Valid() && forall a :: AccountOf(a) == Hydrate(old(AccountOf(a)))
    {
      for i := 0 to |personas|
        invariant dirty <= lastDecay.Keys <= Elements(personas) && !loaded
        invariant forall a :: Lookup(lastDecay, a) ==
                    if a in personas[..i] && a !in old(lastDecay) then Lookup(store, a) else Lookup(old(lastDecay), a)
      {
        var actor := personas[i];
        if actor in store && actor !in lastDecay {
          lastDecay := lastDecay[actor := store[actor]];
        }
      }
      assert personas[..|personas|] == personas;
      loaded := true;
    }

    method LedgerGet(actor: string, default: int) returns (tick: int)
      requires Valid() && actor in personas
      modifies `lastDecay, `dirty
      ensures Valid() && AccountOf(actor) == Touch(old(AccountOf(actor)), default)
      ensures AccountOf(actor).last == Some(tick)
      ensures forall a :: a != actor ==> AccountOf(a) == old(AccountOf(a))
    {
      if actor !in lastDecay {
        lastDecay := lastDecay[actor := default];
        dirty := dirty + {actor};
      }
      tick := lastDecay[actor];
    }

    method LedgerSet(actor: string, tick: int)
      requires Valid() && actor in personas
      modifies `lastDecay, `dirty
      ensures Valid() && AccountOf(actor) == old(AccountOf(actor)).(last := Some(tick), dirty := true)
      ensures forall a :: a != actor ==> AccountOf(a) == old(AccountOf(a))
    {
      lastDecay := lastDecay[actor := tick];
      dirty := dirty + {actor};
    }

    method DecayTicks(actor: string, ticks: nat)
      requires Valid() && actor in personas
      modifies `decayed
      ensures Valid() && AccountOf(actor) == old(AccountOf(actor)).(decayed := old(AccountOf(actor)).decayed + ticks)
      ensures forall a :: a != actor ==> AccountOf(a) == old(AccountOf(a))
    {
      decayed := decayed[actor := decayed[actor] + ticks];
    }

    // Applies the missing decay and moves the account up to the given tick.
    method SettleActor(actor: string, ticks: nat, tick: int)
      requires Valid() && actor in personas && actor in lastDecay && ticks == tick - lastDecay[actor] > 0
      modifies this
      ensures Valid() && personas == old(personas) && AccountOf(actor) == SettleTo(old(AccountOf(actor)), tick)
      ensures forall a :: a != actor ==> AccountOf(a) == old(AccountOf(a))
    {
      DecayTicks(actor, ticks);
      LedgerSet(actor, tick);
    }

    method CatchUpActor(tick: int, actor: string)
      requires Valid() && actor in personas
      modifies this
      ensures Valid() && AccountOf(actor) == CatchUp(old(AccountOf(actor)), tick)
      ensures forall a :: a != actor ==> AccountOf(a) == old(AccountOf(a))
      ensures personas == old(personas)
    {
      var settled := LedgerGet(actor, tick - 1);
      var behind := tick - 1 - settled;
      if behind > 0 {
        SettleActor(actor, behind, tick - 1);
      }
    }

    method CatchUpWoken(tick: int, woken: set<string>)
      requires Valid()
      modifies this
      ensures Valid() && personas == old(personas)
      ensures forall a :: AccountOf(a) ==
                if a in personas && a in woken then CatchUp(old(AccountOf(a)), tick) else old(AccountOf(a))
    {
      hide Distinct, CatchUp;
      for i := 0 to |personas|
        invariant Valid() && personas == old(personas)
        invariant forall a :: AccountOf(a) ==
                    if a in personas[..i] && a in woken then CatchUp(old(AccountOf(a)), tick) else old(AccountOf(a))
      {
        var actor := personas[i];
        NotRepeated(personas, i, |personas|);
        if actor in woken {
          CatchUpActor(tick, actor);
        }
      }
      assert personas[..|personas|] == personas;
    }

    // Every actor with something to perceive is settled first.
    method PerceiveTick(tick: int, woken: set<string>)
      requires Valid()
      modifies this
      ensures Valid() && personas == old(personas)
      ensures forall a :: AccountOf(a) == Perceive(old(AccountOf(a)), tick, a in woken)
    {
      hide Distinct, CatchUp;
      if !loaded {
        HydrateLedger();
      }
      CatchUpWoken(tick, woken);
    }

    // Which accounts to settle this tick, and by how much: sleepers are skipped but start counting.
    method DecayPlan(tick: int, asleep: set<string>) returns (plan: map<string, int>)
      requires Valid()
      modifies `lastDecay, `dirty
      ensures Valid() && personas == old(personas)
      ensures forall a :: AccountOf(a) == if a in personas then Touch(old(AccountOf(a)), tick - 1) else old(AccountOf(a))
      ensures forall a :: Lookup(plan, a) == if a in personas then DueTicks(old(AccountOf(a)), tick, a in asleep) else None
    {
      hide Distinct;
      plan := map[];
      for i := 0 to |personas|
        invariant Valid() && personas == old(personas)
        invariant forall a :: AccountOf(a) == if a in personas[..i] then Touch(old(AccountOf(a)), tick - 1) else old(AccountOf(a))
        invariant forall a :: Lookup(plan, a) == if a in personas[..i] then DueTicks(old(AccountOf(a)), tick, a in asleep) else None
      {
        var actor := personas[i];
        NotRepeated(personas, i, |personas|);
        var last := LedgerGet(actor, tick - 1);
        if actor !in asleep && tick - last > 0 {
          plan := plan[actor := tick - last];
        }
      }
      assert personas[..|personas|] == personas;
    }

    // Writes the touched accounts to the store in one batch.
    method Mark()
      requires Valid()
      modifies `store, `dirty
      ensures Valid() && forall a :: AccountOf(a) == Flush(old(AccountOf(a)))
    {
      store := store + map a | a in dirty :: lastDecay[a];
      dirty := {};
    }

    // Settles everyone in the plan up to this tick.
    method SettlePlan(plan: map<string, int>, tick: int)
      requires Valid() && plan.Keys <= Elements(personas) && plan.Keys <= lastDecay.Keys
      requires forall a :: a in plan ==> plan[a] == tick - lastDecay[a] > 0
      modifies this
      ensures Valid() && personas == old(personas)
      ensures forall a :: AccountOf(a) == if a in plan then SettleTo(old(AccountOf(a)), tick) else old(AccountOf(a))
    {
      hide Distinct;
      for i := 0 to |personas|
        invariant Valid() && personas == old(personas)
        invariant forall a :: AccountOf(a) ==
                    if a in plan && a in personas[..i] then SettleTo(old(AccountOf(a)), tick) else old(AccountOf(a))
      {
        var actor := personas[i];
        NotRepeated(personas, i, |personas|);
        assert AccountOf(actor) == old(AccountOf(actor));
        if actor in plan {
          SettleActor(actor, plan[actor], tick);
        }
      }
      assert personas[..|personas|] == personas;
    }

    method ConsolidateTick(tick: int, asleep: set<string>)
      requires Valid()
      modifies this
      ensures Valid() && personas == old(personas)
      ensures forall a :: AccountOf(a) == Consolidate(old(AccountOf(a)), tick, a in asleep)
    {
      var plan := DecayPlan(tick, asleep);
      forall a | a in plan ensures a in personas && a in lastDecay && plan[a] == tick - lastDecay[a] > 0 {
        assert Lookup(plan, a).Some? && AccountOf(a).last == Touch(old(AccountOf(a)), tick - 1).last;
      }
      SettlePlan(plan, tick);
      Mark();
    }

    // One whole tick is one Tick event on every account.
    method RunTick(tick: int, woken: set<string>, asleep: set<string>)
      requires Valid()
      modifies this
      ensures Valid() && personas == old(personas)
      ensures forall a :: AccountOf(a) == Apply(old(AccountOf(a)), Tick(tick, a in woken, a in asleep))
    {
      PerceiveTick(tick, woken);
      ConsolidateTick(tick, asleep);
    }

    // A new process: memory is gone, the store and the actors' state are not.
    method RestartProcess()
      requires Valid()
      modifies `lastDecay, `dirty, `loaded
      ensures Valid() && forall a :: AccountOf(a) == Apply(old(AccountOf(a)), Restart)
    {
      lastDecay, dirty, loaded := map[], {}, false;
    }

    // A reloaded roster at a tick boundary.
    method RefreshPersonas(incoming: seq<string>)
      requires Valid() && Distinct(incoming)
      modifies this
      ensures Valid() && personas == incoming
      ensures forall a :: AccountOf(a) ==
                if a in incoming then Apply(old(AccountOf(a)), Join) else Apply(old(AccountOf(a)), Leave)
    {
      var gone := Elements(personas) - Elements(incoming);
      lastDecay := lastDecay - gone;
      dirty := dirty - gone;
      decayed := decayed + map a | a in Elements(incoming) && a !in decayed :: 0;
      personas := incoming;
    }
  }
}
