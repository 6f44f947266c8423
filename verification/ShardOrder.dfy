// Why both sides of the tick barrier walk the shards in the same order.
module ShardOrder {
  import opened Prelude
  import opened ShardBarrier

  // The alignment of the two walks is not only sufficient for the follower's ticks to be ordered, it is necessary.

  ghost predicate CanReach(c: Config, s: State, t: State)
    requires WellFormed(c)
  {
    exists steps :: Leads(c, s, steps, t)
  }

  lemma ReachTrans(c: Config, s: State, t: State, u: State)
    requires WellFormed(c) && CanReach(c, s, t) && CanReach(c, t, u)
    ensures CanReach(c, s, u)
  {
    var a :| Leads(c, s, a, t);
    var b :| Leads(c, t, b, u);
    LeadsConcat(c, s, a, t, b, u);
  }

  lemma ReachRefl(c: Config, s: State)
    requires WellFormed(c) && Shaped(c, s)
    ensures CanReach(c, s, s)
  {
    assert Leads(c, s, [], s);
  }

  lemma ReachStep(c: Config, s: State, step: Step)
    requires WellFormed(c) && Shaped(c, s) && Enabled(c, s, step)
    ensures CanReach(c, s, Apply(c, s, step))
  {
    var t := Apply(c, s, step);
    assert Leads(c, t, [], t);
    assert [step][1..] == [];
    assert Leads(c, s, [step], t);
  }

  lemma PushOne(c: Config, s: State) returns (u: State)
    requires WellFormed(c) && Shaped(c, s) && s.pushed < |c.walk|
    ensures Shaped(c, u) && CanReach(c, s, u)
    ensures u.pushed == s.pushed + 1 && u.tick == s.tick && u.follower == s.follower && u.returned == s.returned
    ensures c.walk[s.pushed] in s.lists
    ensures u.lists == s.lists[c.walk[s.pushed] := s.lists[c.walk[s.pushed]] + [s.tick]]
  {
    hide CanReach, Leads;
    u := Apply(c, s, Push);
    ReachStep(c, s, Push);
  }

  // The leader pushes the current tick on, up to position n of its walk.
  lemma {:induction false} PushUpTo(c: Config, s: State, n: nat) returns (t: State)
    requires WellFormed(c) && Shaped(c, s) && s.pushed <= n <= |c.walk|
    ensures Shaped(c, t) && CanReach(c, s, t)
    ensures t.pushed == n && t.tick == s.tick && t.follower == s.follower && t.returned == s.returned
    ensures forall k :: k in s.lists ==>
              t.lists[k] == if k in c.walk[s.pushed..n] then s.lists[k] + [s.tick] else s.lists[k]
    decreases n - s.pushed
  {
    hide CanReach, Leads, Apply, Enabled, Distinct;
    if s.pushed == n {
      t := s;
      ReachRefl(c, s);
    } else {
      var k := c.walk[s.pushed];
      var u := PushOne(c, s);
      t := PushUpTo(c, u, n);
      ReachTrans(c, s, u, t);
      NotRepeated(c.walk, s.pushed, n);
    }
  }

  // One step of draining: a number is taken off the current list, or the walk moves on.
  lemma DrainOne(c: Config, s: State, bound: int) returns (u: State)
    requires WellFormed(c) && Shaped(c, s) && s.follower.Draining? && s.follower.best <= bound
    requires s.follower.at < |c.keys|
    requires forall k, v :: k in c.keys && v in s.lists[k] ==> v <= bound
    ensures Shaped(c, u) && CanReach(c, s, u)
    ensures u.pushed == s.pushed && u.tick == s.tick && u.returned == s.returned
    ensures u.follower.Draining? && s.follower.best <= u.follower.best <= bound
    ensures forall k, v :: k in c.keys && v in u.lists[k] ==> v <= bound
    ensures var k := c.keys[s.follower.at];
            if s.lists[k] == [] then u.lists == s.lists && u.follower.at == s.follower.at + 1
            else u.lists == s.lists[k := s.lists[k][1..]] && u.follower.at == s.follower.at
                 && s.lists[k][0] <= u.follower.best
  {
    hide CanReach, Leads;
    var k := c.keys[s.follower.at];
    assert k in c.keys;
    var step := if s.lists[k] == [] then Skip else Pop;
    u := Apply(c, s, step);
    ReachStep(c, s, step);
    if step.Pop? { assert s.lists[k][0] in s.lists[k]; }
    assert forall x, v :: x in c.keys && v in u.lists[x] ==> v in s.lists[x];
  }

  // A bound on what is left after one step of draining bounds what was there before it.
  lemma LargestOfRest(rest: seq<nat>, before: map<nat, seq<int>>, after: map<nat, seq<int>>, k: nat, best: int, left: seq<nat>)
    requires k in before && forall x :: x in rest ==> x in before
    requires after == if before[k] == [] then before else before[k := before[k][1..]]
    requires k !in rest && left == (if before[k] == [] then rest else [k] + rest)
    requires before[k] != [] ==> before[k][0] <= best
    requires forall x, v :: x in left && v in after[x] ==> v <= best
    ensures forall x, v :: x in [k] + rest && v in before[x] ==> v <= best
  {
    forall x, v | x in [k] + rest && v in before[x] ensures v <= best {
      if x == k {
        if v != before[k][0] {
          assert before[k] == [before[k][0]] + before[k][1..];
          assert k in left && v in after[k];
        }
      } else {
        assert x in rest;
        assert x in left && after[x] == before[x];
      }
    }
  }

  // Left alone, the follower empties the rest of its lists and keeps the largest number.
  lemma {:induction false} DrainRest(c: Config, s: State, bound: int) returns (t: State)
    requires WellFormed(c) && Shaped(c, s) && s.follower.Draining? && s.follower.best <= bound
    requires forall k, v :: k in c.keys && v in s.lists[k] ==> v <= bound
    ensures Shaped(c, t) && CanReach(c, s, t)
    ensures t.pushed == s.pushed && t.tick == s.tick && t.returned == s.returned
    ensures t.follower.Draining? && t.follower.at == |c.keys| && s.follower.best <= t.follower.best <= bound
    ensures forall k, v :: k in c.keys[s.follower.at..] && v in s.lists[k] ==> v <= t.follower.best
    ensures forall k :: k in s.lists ==> t.lists[k] == if k in c.keys[s.follower.at..] then [] else s.lists[k]
    decreases |c.keys| - s.follower.at, if s.follower.at < |c.keys| then |s.lists[c.keys[s.follower.at]]| else 0
  {
    hide CanReach, Leads, Apply, Enabled, Distinct;
    var at := s.follower.at;
    if at == |c.keys| {
      t := s;
      ReachRefl(c, s);
    } else {
      var k := c.keys[at];
      NotRepeated(c.keys, at, |c.keys|);
      assert c.keys[at..] == c.keys[at..|c.keys|] && c.keys[at + 1..] == c.keys[at + 1..|c.keys|];
      var u := DrainOne(c, s, bound);
      t := DrainRest(c, u, bound);
      ReachTrans(c, s, u, t);
      LargestOfRest(c.keys[at + 1..], s.lists, u.lists, k, t.follower.best, c.keys[u.follower.at..]);
    }
  }

  lemma FirstSignalBegins(c: Config) returns (t: State)
    requires WellFormed(c)
    ensures Shaped(c, t) && CanReach(c, Init(c), t)
    ensures t.pushed == 0 && t.tick == 1 && t.returned == [] && t.follower.Idle?
    ensures forall k :: k in t.lists ==> t.lists[k] == []
  {
    hide CanReach, Leads;
    t := Apply(c, Init(c), Begin(1));
    ReachStep(c, Init(c), Begin(1));
  }

  // Step 1: the leader signals tick 1 as far as list f = keys[0], which does not have it yet.
  lemma SignalCutShort(c: Config, i: nat, j: nat) returns (t: State)
    requires WellFormed(c) && i < j < |c.walk| && c.walk[j] == c.keys[0] && c.walk[i] in c.keys
    ensures Shaped(c, t) && CanReach(c, Init(c), t)
    ensures t.pushed == j && t.tick == 1 && t.returned == [] && t.follower.Idle?
    ensures t.lists[c.keys[0]] == [] && t.lists[c.walk[i]] == [1]
    ensures forall k :: k in c.keys ==> t.lists[k] == [1] || t.lists[k] == []
  {
    hide CanReach, Leads, Apply, Enabled, Init;
    var s := FirstSignalBegins(c);
    t := PushUpTo(c, s, j);
    ReachTrans(c, Init(c), s, t);
    assert c.keys[0] !in c.walk[0..j] && c.walk[0..j][i] == c.walk[i];
  }

  // Step 2: the follower takes a 1 elsewhere and walks past its empty first list.
  lemma FollowerPassesEarly(c: Config, g: nat, s: State) returns (t: State)
    requires WellFormed(c) && Shaped(c, s) && s.follower.Idle? && g in c.keys
    requires s.lists[c.keys[0]] == [] && s.lists[g] == [1]
    requires forall k :: k in c.keys ==> s.lists[k] == [1] || s.lists[k] == []
    ensures Shaped(c, t) && CanReach(c, s, t)
    ensures t.pushed == s.pushed && t.tick == s.tick && t.returned == s.returned
    ensures t.follower.Draining? && t.follower.at == 1 && t.follower.best == 1
    ensures t.lists[c.keys[0]] == []
    ensures forall k :: k in c.keys ==> t.lists[k] == [1] || t.lists[k] == []
  {
    hide CanReach, Leads;
    var n := FirstNonempty(c.keys, s.lists);
    assert n < |c.keys|;
    assert c.keys[n] in c.keys && n > 0;
    var u := Apply(c, s, BlockingPop);
    ReachStep(c, s, BlockingPop);
    t := Apply(c, u, Skip);
    ReachStep(c, u, Skip);
    ReachTrans(c, s, u, t);
  }

  // Step 3: the leader finishes tick 1 ...
  lemma LeaderFinishes(c: Config, j: nat, s: State) returns (t: State)
    requires WellFormed(c) && j < |c.walk| && c.walk[j] == c.keys[0]
    requires Shaped(c, s) && s.pushed == j && s.tick == 1
    requires s.lists[c.keys[0]] == [] && forall k :: k in c.keys ==> s.lists[k] == [1] || s.lists[k] == []
    ensures Shaped(c, t) && CanReach(c, s, t) && t.follower == s.follower && t.returned == s.returned
    ensures t.tick == 1 && t.pushed == |c.walk|
    ensures t.lists[c.keys[0]] == [1] && forall k, v :: k in c.keys && v in t.lists[k] ==> v == 1
  {
    hide CanReach, Leads, Apply, Enabled, Distinct;
    t := PushUpTo(c, s, |c.walk|);
    assert c.walk[j..|c.walk|][0] == c.keys[0];
    forall k, v | k in c.keys && v in t.lists[k] ensures v == 1 {
      assert t.lists[k] == s.lists[k] || t.lists[k] == s.lists[k] + [1];
    }
  }

  // ... and signals tick 2 as far as list g = walk[i].
  lemma LeaderMovesOn(c: Config, i: nat, j: nat, s: State) returns (t: State)
    requires WellFormed(c) && i < j < |c.walk| && c.walk[j] == c.keys[0] && c.walk[i] in c.keys
    requires Shaped(c, s) && s.tick == 1
    requires s.lists[c.keys[0]] == [1] && forall k, v :: k in c.keys && v in s.lists[k] ==> v == 1
    ensures Shaped(c, t) && CanReach(c, s, t) && t.follower == s.follower && t.returned == s.returned
    ensures t.lists[c.keys[0]] == [1] && 2 in t.lists[c.walk[i]]
    ensures forall k, v :: k in c.keys && v in t.lists[k] ==> v <= 2
  {
    hide CanReach, Leads;
    var g, u := c.walk[i], Apply(c, s, Begin(2));
    ReachStep(c, s, Begin(2));
    t := PushUpTo(c, u, i + 1);
    ReachTrans(c, s, u, t);
    assert c.keys[0] !in c.walk[0..i + 1] && c.walk[0..i + 1][i] == g;
    assert t.lists[g] == s.lists[g] + [2];
    assert t.lists[g][|s.lists[g]|] == 2;
  }

  // Step 4: the follower picks the 2 up and returns it.
  lemma NewTickOvertakes(c: Config, g: nat, s: State) returns (t: State)
    requires WellFormed(c) && Shaped(c, s) && g in c.keys && s.returned == []
    requires s.follower.Draining? && s.follower.at == 1 && s.follower.best == 1
    requires s.lists[c.keys[0]] == [1] && 2 in s.lists[g]
    requires forall k, v :: k in c.keys && v in s.lists[k] ==> v <= 2
    ensures Shaped(c, t) && CanReach(c, s, t)
    ensures t.follower.Idle? && t.returned == [2]
    ensures t.lists[c.keys[0]] == [1] && forall k :: k in c.keys[1..] ==> t.lists[k] == []
  {
    hide CanReach, Leads;
    assert g in c.keys[1..] by {
      assert c.keys == [c.keys[0]] + c.keys[1..];
    }
    var u := DrainRest(c, s, 2);
    assert c.keys[0] !in c.keys[1..];
    t := Apply(c, u, Return);
    ReachStep(c, u, Return);
    ReachTrans(c, s, u, t);
  }

  // Step 5: the 1 left behind on f is all the next call finds.
  lemma StaleTickComesBack(c: Config, s: State) returns (t: State)
    requires WellFormed(c) && Shaped(c, s) && s.follower.Idle? && s.returned == [2]
    requires s.lists[c.keys[0]] == [1] && forall k :: k in c.keys[1..] ==> s.lists[k] == []
    ensures Shaped(c, t) && CanReach(c, s, t) && t.returned == [2, 1]
  {
    hide CanReach, Leads;
    var s1 := Apply(c, s, BlockingPop);
    ReachStep(c, s, BlockingPop);
    assert c.keys == [c.keys[0]] + c.keys[1..];
    assert forall k :: k in c.keys ==> s1.lists[k] == [];
    var s2 := DrainRest(c, s1, 1);
    ReachTrans(c, s, s1, s2);
    t := Apply(c, s2, Return);
    ReachStep(c, s2, Return);
    ReachTrans(c, s, s2, t);
  }

  lemma ReachableFromInit(c: Config, s: State)
    requires WellFormed(c) && CanReach(c, Init(c), s)
    ensures Reachable(c, s)
  {
  }

  lemma MisalignedWalksGoBack(c: Config)
    requires WellFormed(c) && !Aligned(c)
    ensures exists s :: Reachable(c, s) && !NonDecreasing(s.returned)
  {
    hide CanReach, Leads, Reachable, Shaped;
    var i, j :| 0 <= i < j < |c.walk| && c.walk[j] == c.keys[0] && c.walk[i] in c.keys;
    var s1 := SignalCutShort(c, i, j);
    var s2 := FollowerPassesEarly(c, c.walk[i], s1);
    ReachTrans(c, Init(c), s1, s2);
    var s2' := LeaderFinishes(c, j, s2);
    ReachTrans(c, Init(c), s2, s2');
    var s3 := LeaderMovesOn(c, i, j, s2');
    ReachTrans(c, Init(c), s2', s3);
    var s4 := NewTickOvertakes(c, c.walk[i], s3);
    ReachTrans(c, Init(c), s3, s4);
    var s5 := StaleTickComesBack(c, s4);
    ReachTrans(c, Init(c), s4, s5);
    assert Reachable(c, s5) by { ReachableFromInit(c, s5); }
    assert s5.returned[0] > s5.returned[1];
  }

  // The exact condition: both sides walk so that the follower looks first where the leader pushes first.
  lemma OrderedExactlyWhenAligned(c: Config)
    requires WellFormed(c)
    ensures (forall s :: Reachable(c, s) ==> NonDecreasing(s.returned)) <==> Aligned(c)
  {
    if Aligned(c) {
      forall s | Reachable(c, s) ensures NonDecreasing(s.returned) {
        ReturnedTicksNeverDecrease(c, s);
      }
    } else {
      MisalignedWalksGoBack(c);
    }
  }

  // Walking both sides in ascending shard order, as the program does, is aligned.
  lemma AscendingWalksAreAligned(c: Config)
    requires WellFormed(c) && Increasing(c.walk) && Increasing(c.keys)
    ensures Aligned(c)
  {
    forall i, j | 0 <= i < j < |c.walk| && c.walk[j] == c.keys[0] ensures c.walk[i] !in c.keys {
      assert forall n :: 0 <= n < |c.keys| ==> c.keys[0] <= c.keys[n];
    }
  }
}
