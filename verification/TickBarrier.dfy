// The leader and the follower of the tick barrier as methods on shared lists.
module TickBarrier {
  import opened Prelude
  import opened ShardBarrier

  // Every pop and every push is one step of the step system in ShardBarrier, and between two of them the other
  // side may act.

  ghost predicate Sound(c: Config, s: State)
    ensures Sound(c, s) ==> WellFormed(c)
  {
    WellFormed(c) && Aligned(c) && Inv(c, s) && Claimed(c, s) && Reachable(c, s)
  }

  lemma SoundIsOrdered(c: Config, s: State)
    requires Sound(c, s)
    ensures NonDecreasing(s.returned)
  {
  }

  // The lists have only been pushed to.
  ghost predicate Grown(before: map<nat, seq<int>>, now: map<nat, seq<int>>) {
    before.Keys == now.Keys && forall k :: k in before ==> before[k] <= now[k]
  }

  ghost predicate SomethingWaits(keys: seq<nat>, lists: map<nat, seq<int>>) {
    exists k :: k in keys && k in lists && lists[k] != []
  }

  // Whatever waited at the start is no newer than `tick`, or still waits on a list not drained yet.
  ghost predicate Pending(keys: seq<nat>, start: map<nat, seq<int>>, at: nat, lists: map<nat, seq<int>>, tick: int) {
    forall i, v :: 0 <= i < |keys| && keys[i] in start && v in start[keys[i]] ==>
      tick >= v || (i >= at && keys[i] in lists && v in lists[keys[i]])
  }

  lemma NothingFound(keys: seq<nat>, start: map<nat, seq<int>>, lists: map<nat, seq<int>>)
    requires Grown(start, lists) && (forall k :: k in keys ==> k in lists) && FirstNonempty(keys, lists) == |keys|
    ensures !SomethingWaits(keys, start)
  {
    forall k | k in keys && k in start ensures start[k] == [] {
      var i :| 0 <= i < |keys| && keys[i] == k;
      assert lists[keys[i]] == [];
    }
  }

  lemma TakenOrPending(keys: seq<nat>, start: map<nat, seq<int>>, before: map<nat, seq<int>>, i: nat, now: map<nat, seq<int>>)
    requires Grown(start, before) && i < |keys| && keys[i] in before && before[keys[i]] != []
    requires now == before[keys[i] := before[keys[i]][1..]]
    ensures Pending(keys, start, 0, now, before[keys[i]][0])
  {
    var k := keys[i];
    assert before[k] == [before[k][0]] + before[k][1..];
    forall j, v | 0 <= j < |keys| && keys[j] in start && v in start[keys[j]] ensures v in before[keys[j]] {
      assert start[keys[j]] <= before[keys[j]];
    }
  }

  lemma StillPending(keys: seq<nat>, start: map<nat, seq<int>>, at: nat, before: map<nat, seq<int>>, best: int,
                     now: map<nat, seq<int>>, tick: int)
    requires at < |keys| && keys[at] in before && before[keys[at]] != []
    requires Pending(keys, start, at, before, best) && tick == Max(best, before[keys[at]][0])
    requires now == before[keys[at] := before[keys[at]][1..]]
    ensures Pending(keys, start, at, now, tick)
  {
    var k := keys[at];
    assert before[k] == [before[k][0]] + before[k][1..];
  }

  lemma NextList(keys: seq<nat>, start: map<nat, seq<int>>, at: nat, lists: map<nat, seq<int>>, tick: int)
    requires at < |keys| && keys[at] in lists && lists[keys[at]] == [] && Pending(keys, start, at, lists, tick)
    ensures Pending(keys, start, at + 1, lists, tick)
  {
  }

  lemma NothingMissed(keys: seq<nat>, start: map<nat, seq<int>>, middle: map<nat, seq<int>>, first: int,
                      lists: map<nat, seq<int>>, tick: int)
    requires Pending(keys, start, 0, middle, first) && Pending(keys, middle, |keys|, lists, tick) && tick >= first
    ensures forall k, v :: k in keys && k in start && v in start[k] ==> tick >= v
  {
    forall k, v | k in keys && k in start && v in start[k] ensures tick >= v {
      var i :| 0 <= i < |keys| && keys[i] == k;
      assert v in start[keys[i]];
    }
  }

  class Barrier {
    const c: Config
    var lists: map<nat, seq<int>>
    ghost var s: State

    ghost predicate Valid()
      reads this
    {
      Sound(c, s) && Shaped(c, s) && s.lists == lists
    }

    constructor (walk: seq<nat>, keys: seq<nat>)
      requires Increasing(walk) && Increasing(keys) && keys != []
      requires forall k :: k in keys ==> k in walk
      ensures Valid() && s == Init(Config(walk, keys)) && c == Config(walk, keys)
    {
      c := Config(walk, keys);
      lists := map k | k in Elements(walk) :: [];
      s := Init(Config(walk, keys));
      new;
      assert Distinct(walk) && Distinct(keys) && WellFormed(c);
      forall i, j | 0 <= i < j < |c.walk| && c.walk[j] == c.keys[0] ensures c.walk[i] !in c.keys {
        assert forall n :: 0 <= n < |c.keys| ==> c.keys[0] <= c.keys[n];
      }
      InitInv(c);
      assert Leads(c, s, [], s);
    }

    ghost method Take(step: Step)
      requires Sound(c, s) && Shaped(c, s) && Enabled(c, s, step)
      modifies `s
      ensures s == Apply(c, old(s), step)
      ensures Sound(c, s) && Shaped(c, s)
    {
      StepKeepsInv(c, s, step);
      StepKeepsClaimed(c, s, step);
      ReachableStep(c, s, step);
      s := Apply(c, s, step);
    }

    // The leader's turn, as the follower sees it: any pushes may have happened, so the lists may have grown, and the
    // follower's own part is untouched. It acts at most `turns` times while one call of the follower lasts.
    method LeaderActs(turns: nat) returns (left: nat)
      requires Valid()
      modifies this
      ensures Valid() && left <= turns
      ensures left == turns ==> s == old(s)
      ensures s.follower == old(s.follower) && s.returned == old(s.returned)
      ensures Grown(old(lists), lists)
    {
      left := turns;
    }

    // The follower's turn, as the leader sees it.
    method FollowerActs()
      requires Valid()
      modifies this
      ensures Valid() && s.tick == old(s.tick) && s.pushed == old(s.pushed)
    {
    }

    // One push after the other, in walking order; the follower may act in between.
    method Signal(tick: nat)
      requires Valid() && tick > s.tick
      modifies this
      ensures Valid() && s.tick == tick && s.pushed == |c.walk|
    {
      hide Sound, Distinct;
      Take(Begin(tick));
      for i := 0 to |c.walk|
        invariant Valid() && s.tick == tick && s.pushed == i
      {
        var k := c.walk[i];
        lists := lists[k := lists[k] + [tick]];
        Take(Push);
        FollowerActs();
      }
    }

    // The first nonempty list, as a blocking pop over all keys picks it.
    method FindFirst() returns (i: nat)
      requires Valid()
      ensures i == FirstNonempty(c.keys, lists)
    {
      hide Sound, Distinct;
      i := 0;
      assert c.keys[0..] == c.keys;
      while i < |c.keys| && lists[c.keys[i]] == []
        invariant i <= |c.keys|
        invariant FirstNonempty(c.keys, lists) == i + FirstNonempty(c.keys[i..], lists)
      {
        assert c.keys[i..][1..] == c.keys[i + 1..];
        i := i + 1;
      }
    }

    // Takes one number off list k, as the drain loop does.
    method DrainPop(k: nat, tick: int) returns (tick': int)
      requires Valid() && s.follower.Draining? && s.follower.at < |c.keys| && c.keys[s.follower.at] == k
      requires s.follower.best == tick && k in lists && lists[k] != []
      modifies this
      ensures Valid() && s.returned == old(s.returned) && lists == old(lists)[k := old(lists)[k][1..]]
      ensures s.follower.Draining? && s.follower.at == old(s.follower.at) && s.follower.best == tick'
      ensures tick' == Max(tick, old(lists)[k][0])
    {
      hide Sound, Distinct;
      var nxt := lists[k][0];
      lists := lists[k := lists[k][1..]];
      Take(Pop);
      tick' := Max(tick, nxt);
    }

    // Waits for a number on any of its lists, at most `polls` times.
    method Await(polls: nat, turns: nat) returns (first: Option<int>, left: nat)
      requires Valid() && s.follower.Idle?
      modifies this
      ensures Valid() && s.returned == old(s.returned)
      ensures first.None? ==> s.follower.Idle?
      ensures first.Some? ==> s.follower.Draining? && s.follower.at == 0 && s.follower.best == first.value
      ensures polls > 0 && SomethingWaits(c.keys, old(lists)) ==> first.Some?
      ensures first.Some? ==> Pending(c.keys, old(lists), 0, lists, first.value)
    {
      hide Sound, Distinct;
      left, first := turns, None;
      for poll := 0 to polls
        invariant Valid() && s.follower.Idle? && s.returned == old(s.returned)
        invariant Grown(old(lists), lists) && (poll > 0 ==> !SomethingWaits(c.keys, old(lists)))
      {
        left := LeaderActs(left);
        var i := FindFirst();
        if i < |c.keys| {
          var k := c.keys[i];
          first := Some(lists[k][0]);
          ghost var before := lists;
          lists := lists[k := lists[k][1..]];
          TakenOrPending(c.keys, old(lists), before, i, lists);
          Take(BlockingPop);
          return;
        }
        NothingFound(c.keys, old(lists), lists);
      }
    }

    // Empties every list in turn and keeps the newest tick.
    method DrainAll(first: int, turns: nat) returns (tick: int)
      requires Valid() && s.follower.Draining? && s.follower.at == 0 && s.follower.best == first
      modifies this
      ensures Valid() && s.returned == old(s.returned)
      ensures s.follower.Draining? && s.follower.at == |c.keys| && s.follower.best == tick >= first
      ensures Pending(c.keys, old(lists), |c.keys|, lists, tick)
    {
      hide Sound, Distinct;
      tick := first;
      var left := turns;
      for at := 0 to |c.keys|
        invariant Valid() && s.returned == old(s.returned)
        invariant s.follower.Draining? && s.follower.at == at && s.follower.best == tick >= first
        invariant Pending(c.keys, old(lists), at, lists, tick)
      {
        hide Pending, Grown;
        left := GoOn(left, at, tick, old(lists));
        while lists[c.keys[at]] != []
          invariant Valid() && s.returned == old(s.returned)
          invariant s.follower.Draining? && s.follower.at == at && s.follower.best == tick >= first
          invariant Pending(c.keys, old(lists), at, lists, tick)
          decreases left, |lists[c.keys[at]]|
        {
          ghost var before, best := lists, tick;
          tick := DrainPop(c.keys[at], tick);
          StillPending(c.keys, old(lists), at, before, best, lists, tick);
          left := GoOn(left, at, tick, old(lists));
        }
        NextList(c.keys, old(lists), at, lists, tick);
        Take(Skip);
      }
    }

    // The leader's turn leaves pending what was pending.
    method GoOn(turns: nat, at: nat, tick: int, ghost start: map<nat, seq<int>>) returns (left: nat)
      requires Valid() && Pending(c.keys, start, at, lists, tick)
      modifies this
      ensures Valid() && left <= turns
      ensures left == turns ==> s == old(s)
      ensures s.follower == old(s.follower) && s.returned == old(s.returned)
      ensures Pending(c.keys, start, at, lists, tick)
    {
      hide Sound, Distinct;
      left := LeaderActs(turns);
    }

    // Waits for the next signal, then skips to the newest one waiting. A number waiting at the call is never missed,
    // nothing older than what waited is returned, and the ticks that successive calls return never decrease.
    method NextSignal(polls: nat, turns: nat) returns (result: Option<int>)
      requires Valid() && s.follower.Idle?
      modifies this
      ensures Valid() && s.follower.Idle?
      ensures result.None? ==> s.returned == old(s.returned)
      ensures result.Some? ==> s.returned == old(s.returned) + [result.value]
      ensures NonDecreasing(s.returned)
      ensures polls > 0 && (exists k :: k in c.keys && k in old(lists) && old(lists)[k] != []) ==> result.Some?
      ensures result.Some? ==>
                forall k, v :: k in c.keys && k in old(lists) && v in old(lists)[k] ==> result.value >= v
    {
      hide Sound, Distinct, NonDecreasing;
      var left;
      ghost var first;
      result, left := Await(polls, turns);
      first := lists;
      if result.Some? {
        ghost var best := result.value;
        var tick := DrainAll(result.value, left);
        NothingMissed(c.keys, old(lists), first, best, lists, tick);
        Take(Return);
        result := Some(tick);
      }
      SoundIsOrdered(c, s);
    }
  }
}
