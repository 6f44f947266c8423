// The tick barrier between a leader and a follower that owns several shards.
module ShardBarrier {
  import opened Prelude

  // The leader signals a tick by pushing its number onto one list per shard, one push at a time; the
  // follower takes one number with a blocking pop over its lists, then drains every list and keeps the
  // largest number it saw. Neither loop is atomic, so the two are modelled as steps that interleave
  // freely. `walk` is the order in which the leader pushes, `keys` the order in which the follower
  // pops. Both are ascending in the program; the model keeps them apart, because the result depends
  // on one relation between them only.
  datatype Config = Config(walk: seq<nat>, keys: seq<nat>)

  ghost predicate WellFormed(c: Config) {
    && Distinct(c.walk) && Distinct(c.keys) && c.keys != []
    && forall k :: k in c.keys ==> k in c.walk
  }

  // The follower starts its walk at the list the leader reaches first among the follower's lists.
  ghost predicate Aligned(c: Config)
    requires WellFormed(c)
  {
    forall i, j :: 0 <= i < j < |c.walk| && c.walk[j] == c.keys[0] ==> c.walk[i] !in c.keys
  }

  datatype Follower =
    | Idle
    | Draining(at: nat, best: int, source: nat)  // walking keys[at..]; `best` came from list `source`

  datatype State = State(
    lists: map<nat, seq<int>>,
    tick: int,             // the tick the leader is signalling, -1 before the first
    pushed: nat,           // how many lists of the walk already hold it
    newest: int,           // the newest tick pushed to one of the follower's lists, -1 if none
    follower: Follower,
    returned: seq<int>,    // what the follower's calls returned so far
    sources: seq<nat>)     // for each of them, the list it was popped from

  datatype Step =
    | Begin(t: nat)        // the leader starts signalling t; a previous signal may have been cut short
    | Push                 // ... and pushes it onto the next list
    | BlockingPop          // the follower takes the head of its first nonempty list
    | Pop                  // it drains one more number from the current list
    | Skip                 // it finds the current list empty and moves on
    | Return

  function Init(c: Config): State {
    State(map k | k in Elements(c.walk) :: [], -1, |c.walk|, -1, Idle, [], [])
  }

  ghost predicate Shaped(c: Config, s: State) {
    && s.lists.Keys == Elements(c.walk)
    && s.pushed <= |c.walk|
    && (s.follower.Draining? ==> s.follower.at <= |c.keys|)
  }

  // Index in `keys` of the first nonempty list, |keys| if all are empty.
  function FirstNonempty(keys: seq<nat>, lists: map<nat, seq<int>>): (i: nat)
    requires forall k :: k in keys ==> k in lists
    ensures i <= |keys|
    ensures i < |keys| ==> lists[keys[i]] != []
    ensures forall j :: 0 <= j < i ==> lists[keys[j]] == []
  {
    if keys == [] || lists[keys[0]] != [] then 0 else 1 + FirstNonempty(keys[1..], lists)
  }

  ghost predicate Enabled(c: Config, s: State, step: Step)
    requires WellFormed(c) && Shaped(c, s)
  {
    match step
    case Begin(t) => t > s.tick
    case Push => s.pushed < |c.walk|
    case BlockingPop => s.follower.Idle? && FirstNonempty(c.keys, s.lists) < |c.keys|
    case Pop => s.follower.Draining? && s.follower.at < |c.keys| && s.lists[c.keys[s.follower.at]] != []
    case Skip => s.follower.Draining? && s.follower.at < |c.keys| && s.lists[c.keys[s.follower.at]] == []
    case Return => s.follower.Draining? && s.follower.at == |c.keys|
  }

  ghost function Apply(c: Config, s: State, step: Step): (r: State)
    requires WellFormed(c) && Shaped(c, s) && Enabled(c, s, step)
    ensures Shaped(c, r)
  {
    match step
    case Begin(t) => s.(tick := t, pushed := 0)
    case Push =>
      var k := c.walk[s.pushed];
      s.(lists := s.lists[k := s.lists[k] + [s.tick]], pushed := s.pushed + 1,
         newest := if k in c.keys then s.tick else s.newest)
    case BlockingPop =>
      var k := c.keys[FirstNonempty(c.keys, s.lists)];
      s.(lists := s.lists[k := s.lists[k][1..]], follower := Draining(0, s.lists[k][0], k))
    case Pop =>
      var k, f := c.keys[s.follower.at], s.follower;
      var v := s.lists[k][0];
      s.(lists := s.lists[k := s.lists[k][1..]],
         follower := if v > f.best then Draining(f.at, v, k) else f)
    case Skip => s.(follower := s.follower.(at := s.follower.at + 1))
    case Return =>
      s.(follower := Idle, returned := s.returned + [s.follower.best], sources := s.sources + [s.follower.source])
  }

  // `steps` can be taken one after the other from s, and leads to t.
  ghost predicate Leads(c: Config, s: State, steps: seq<Step>, t: State)
    requires WellFormed(c)
    decreases |steps|
  {
    Shaped(c, s) &&
    if steps == [] then s == t
    else
      Enabled(c, s, steps[0]) && Leads(c, Apply(c, s, steps[0]), steps[1..], t)
  }

  ghost predicate Reachable(c: Config, s: State)
    requires WellFormed(c)
  {
    exists steps :: Leads(c, Init(c), steps, s)
  }

  lemma {:induction false} LeadsConcat(c: Config, s: State, a: seq<Step>, t: State, b: seq<Step>, u: State)
    requires WellFormed(c) && Leads(c, s, a, t) && Leads(c, t, b, u)
    ensures Leads(c, s, a + b, u)
    decreases |a|
  {
    if a == [] {
      assert a + b == b;
    } else {
      assert (a + b)[0] == a[0] && (a + b)[1..] == a[1..] + b;
      LeadsConcat(c, Apply(c, s, a[0]), a[1..], t, b, u);
    }
  }

  lemma ReachableStep(c: Config, s: State, step: Step)
    requires WellFormed(c) && Shaped(c, s) && Reachable(c, s) && Enabled(c, s, step)
    ensures Reachable(c, Apply(c, s, step))
  {
    var t := Apply(c, s, step);
    var steps :| Leads(c, Init(c), steps, s);
    assert Leads(c, t, [], t);
    assert [step][1..] == [];
    assert Leads(c, s, [step], t);
    LeadsConcat(c, Init(c), steps, s, [step], t);
  }

  // ---------------------------------------------------------------- the inductive invariant

  ghost function LastReturned(s: State): int {
    if s.returned == [] then -1 else s.returned[|s.returned| - 1]
  }

  // The largest number the follower ever popped.
  ghost function Seen(s: State): int {
    if s.follower.Idle? then LastReturned(s) else Max(LastReturned(s), s.follower.best)
  }

  ghost predicate Ordered(c: Config, s: State)
    requires Shaped(c, s)
  {
    && s.tick >= -1 && (s.tick == -1 ==> s.pushed == |c.walk|)
    && forall k :: k in s.lists ==>
         && Increasing(s.lists[k])
         && forall v :: v in s.lists[k] ==> 0 <= v <= s.tick && (v < s.tick || k in c.walk[..s.pushed])
  }

  // Everything pushed to one of the follower's lists is still on its first list or was already seen.
  ghost predicate FirstListLeads(c: Config, s: State)
    requires WellFormed(c) && Shaped(c, s)
  {
    var first := s.lists[c.keys[0]];
    && (forall k, v :: k in c.keys && v in s.lists[k] ==> v in first || v <= Seen(s))
    && (c.keys[0] in c.walk[..s.pushed] ==> s.newest == s.tick)
    && (s.newest >= 0 ==> s.newest in first || s.newest <= Seen(s))
    && -1 <= Seen(s) <= s.newest <= s.tick
    && (forall k, v :: k in c.keys && v in s.lists[k] ==> v <= s.newest)
  }

  // The numbers still waiting on the first `upTo` lists cannot make the next call return less than v.
  ghost predicate NothingStale(c: Config, s: State, upTo: nat, v: int)
    requires WellFormed(c) && Shaped(c, s) && upTo <= |c.keys|
  {
    var first := s.lists[c.keys[0]];
    || (first != [] && first[|first| - 1] >= v)
    || forall i, w :: 0 <= i < upTo && w in s.lists[c.keys[i]] ==> w >= v
  }

  ghost predicate Progress(c: Config, s: State)
    requires WellFormed(c) && Shaped(c, s)
  {
    var first := s.lists[c.keys[0]];
    match s.follower
    case Idle => NothingStale(c, s, |c.keys|, LastReturned(s))
    case Draining(at, best, _) =>
      && NothingStale(c, s, at, best)
      && (best >= LastReturned(s) || (at == 0 && first != [] && first[|first| - 1] >= LastReturned(s)))
  }

  // A number popped from list k stays behind everything on k and everything still to be pushed there.
  ghost predicate Behind(c: Config, s: State, k: nat, v: int)
    requires Shaped(c, s)
  {
    && k in c.keys && k in s.lists
    && v <= s.tick && (v < s.tick || k in c.walk[..s.pushed])
    && forall w :: w in s.lists[k] ==> v < w
  }

  ghost predicate Claimed(c: Config, s: State) {
    && Shaped(c, s) && Ordered(c, s)
    && |s.sources| == |s.returned|
    && (forall i :: 0 <= i < |s.returned| ==> Behind(c, s, s.sources[i], s.returned[i]))
    && (forall i, j :: 0 <= i < j < |s.returned| && s.returned[i] == s.returned[j] ==> s.sources[i] != s.sources[j])
    && (s.follower.Draining? ==>
          && Behind(c, s, s.follower.source, s.follower.best)
          && forall i :: 0 <= i < |s.returned| && s.returned[i] == s.follower.best ==> s.sources[i] != s.follower.source)
  }

  ghost predicate Inv(c: Config, s: State)
    requires WellFormed(c)
  {
    && Shaped(c, s) && Ordered(c, s) && FirstListLeads(c, s) && Progress(c, s)
    && NonDecreasing(s.returned)
  }

  lemma InitInv(c: Config)
    requires WellFormed(c)
    ensures Inv(c, Init(c)) && Claimed(c, Init(c))
  {
  }

  lemma PushKeepsOrdered(c: Config, s: State)
    requires WellFormed(c) && Shaped(c, s) && Ordered(c, s) && Enabled(c, s, Push)
    ensures Ordered(c, Apply(c, s, Push))
  {
    var r, k := Apply(c, s, Push), c.walk[s.pushed];
    assert c.walk[..r.pushed] == c.walk[..s.pushed] + [k];
    assert k !in c.walk[..s.pushed];
    forall x | x in r.lists
      ensures Increasing(r.lists[x])
      ensures forall v :: v in r.lists[x] ==> 0 <= v <= r.tick && (v < r.tick || x in c.walk[..r.pushed])
    {
      if x == k {
        assert r.lists[x] == s.lists[k] + [s.tick];
        assert forall i :: 0 <= i < |s.lists[k]| ==> s.lists[k][i] in s.lists[k];
      } else {
        assert r.lists[x] == s.lists[x];
      }
    }
  }

  lemma PushKeepsProgress(c: Config, s: State)
    requires WellFormed(c) && Shaped(c, s) && Ordered(c, s) && FirstListLeads(c, s) && Progress(c, s) && Enabled(c, s, Push)
    ensures Progress(c, Apply(c, s, Push))
  {
    hide Distinct, Increasing;
    var r, k, f := Apply(c, s, Push), c.walk[s.pushed], c.keys[0];
    var first, first' := s.lists[f], r.lists[f];
    assert first' == first || first' == first + [s.tick];
    assert forall x, w :: x in c.keys && w in r.lists[x] ==> w in s.lists[x] || w == s.tick;
  }

  lemma PushKeepsInv(c: Config, s: State)
    requires WellFormed(c) && Aligned(c) && Inv(c, s) && Enabled(c, s, Push)
    ensures Inv(c, Apply(c, s, Push))
  {
    PushKeepsOrdered(c, s);
    PushKeepsProgress(c, s);
  }

  ghost function HeadTaken(s: State, k: nat): State
    requires k in s.lists && s.lists[k] != []
  {
    s.(lists := s.lists[k := s.lists[k][1..]])
  }

  lemma TakingKeepsOrdered(c: Config, s: State, k: nat)
    requires Shaped(c, s) && Ordered(c, s) && k in s.lists && s.lists[k] != []
    ensures Shaped(c, HeadTaken(s, k)) && Ordered(c, HeadTaken(s, k))
    ensures forall v :: v in s.lists[k] <==> v == s.lists[k][0] || v in s.lists[k][1..]
    ensures forall v :: v in s.lists[k][1..] ==> s.lists[k][0] < v
    ensures s.lists[k][1..] != [] ==> s.lists[k][1..][|s.lists[k]| - 2] == s.lists[k][|s.lists[k]| - 1]
  {
    var xs, r := s.lists[k], HeadTaken(s, k);
    assert xs == [xs[0]] + xs[1..];
    forall x | x in r.lists
      ensures Increasing(r.lists[x])
      ensures forall v :: v in r.lists[x] ==> 0 <= v <= r.tick && (v < r.tick || x in c.walk[..r.pushed])
    {
      assert forall v :: v in r.lists[x] ==> v in s.lists[x];
    }
  }

  lemma BlockingPopKeepsFirstListLeads(c: Config, s: State)
    requires WellFormed(c) && Shaped(c, s) && Ordered(c, s) && FirstListLeads(c, s) && Enabled(c, s, BlockingPop)
    ensures FirstListLeads(c, Apply(c, s, BlockingPop))
  {
    hide Distinct, Increasing;
    var i := FirstNonempty(c.keys, s.lists);
    var k, f, r := c.keys[i], c.keys[0], Apply(c, s, BlockingPop);
    assert k in c.keys && f in c.keys;
    TakingKeepsOrdered(c, s, k);
    assert s.lists[k][0] in s.lists[k];
    assert forall x, w :: x in c.keys && w in r.lists[x] ==> w in s.lists[x];
    assert forall w :: w in s.lists[f] ==> w in r.lists[f] || w <= Seen(r);
  }

  lemma BlockingPopKeepsInv(c: Config, s: State)
    requires WellFormed(c) && Inv(c, s) && Enabled(c, s, BlockingPop)
    ensures Inv(c, Apply(c, s, BlockingPop))
  {
    hide Distinct, Increasing;
    var i := FirstNonempty(c.keys, s.lists);
    var k := c.keys[i];
    TakingKeepsOrdered(c, s, k);
    BlockingPopKeepsFirstListLeads(c, s);
    assert s.lists[k][0] in s.lists[c.keys[i]];
  }

  lemma PopKeepsFirstListLeads(c: Config, s: State)
    requires WellFormed(c) && Inv(c, s) && Enabled(c, s, Pop)
    ensures FirstListLeads(c, Apply(c, s, Pop))
  {
    hide Distinct, Increasing;
    var k, f, r := c.keys[s.follower.at], c.keys[0], Apply(c, s, Pop);
    assert k in c.keys && f in c.keys;
    TakingKeepsOrdered(c, s, k);
    assert s.lists[k][0] in s.lists[k];
    assert forall x, w :: x in c.keys && w in r.lists[x] ==> w in s.lists[x];
    assert forall w :: w in s.lists[f] ==> w in r.lists[f] || w <= Seen(r);
  }

  lemma PopFromLaterKeepsProgress(c: Config, s: State)
    requires WellFormed(c) && Shaped(c, s) && Ordered(c, s) && FirstListLeads(c, s) && Progress(c, s) && Enabled(c, s, Pop)
    requires s.follower.at > 0
    ensures Progress(c, Apply(c, s, Pop))
  {
    var at, best := s.follower.at, s.follower.best;
    var k, f, r := c.keys[at], c.keys[0], Apply(c, s, Pop);
    assert k in c.keys && k != f && r.lists[f] == s.lists[f];
    var v := s.lists[k][0];
    assert v in s.lists[k];
    if v > best {
      // v reached list f first, and nothing as large was popped before: it is still there
      assert v in s.lists[f];
      assert s.lists[f][|s.lists[f]| - 1] >= v;
    } else {
      assert forall j :: 0 <= j < at ==> r.lists[c.keys[j]] == s.lists[c.keys[j]];
    }
  }

  lemma PopKeepsInv(c: Config, s: State)
    requires WellFormed(c) && Inv(c, s) && Enabled(c, s, Pop)
    ensures Inv(c, Apply(c, s, Pop))
  {
    TakingKeepsOrdered(c, s, c.keys[s.follower.at]);
    PopKeepsFirstListLeads(c, s);
    if s.follower.at != 0 { PopFromLaterKeepsProgress(c, s); }
  }

  lemma SkipKeepsInv(c: Config, s: State)
    requires WellFormed(c) && Inv(c, s) && Enabled(c, s, Skip)
    ensures Inv(c, Apply(c, s, Skip))
  {
  }

  lemma ReturnKeepsInv(c: Config, s: State)
    requires WellFormed(c) && Inv(c, s) && Enabled(c, s, Return)
    ensures Inv(c, Apply(c, s, Return))
  {
    assert forall r :: r in s.returned ==> r <= LastReturned(s);
  }

  lemma StepKeepsInv(c: Config, s: State, step: Step)
    requires WellFormed(c) && Aligned(c) && Inv(c, s) && Enabled(c, s, step)
    ensures Inv(c, Apply(c, s, step))
  {
    match step
    case Begin(t) =>
    case Push => PushKeepsInv(c, s);
    case BlockingPop => BlockingPopKeepsInv(c, s);
    case Pop => PopKeepsInv(c, s);
    case Skip => SkipKeepsInv(c, s);
    case Return => ReturnKeepsInv(c, s);
  }

  lemma StepKeepsOrdered(c: Config, s: State, step: Step)
    requires WellFormed(c) && Shaped(c, s) && Ordered(c, s) && Enabled(c, s, step)
    ensures Ordered(c, Apply(c, s, step))
  {
    match step
    case Begin(t) =>
    case Push => PushKeepsOrdered(c, s);
    case BlockingPop => TakingKeepsOrdered(c, s, c.keys[FirstNonempty(c.keys, s.lists)]);
    case Pop => TakingKeepsOrdered(c, s, c.keys[s.follower.at]);
    case Skip =>
    case Return =>
  }

  lemma BehindPersists(c: Config, s: State, step: Step, k: nat, v: int)
    requires WellFormed(c) && Shaped(c, s) && Ordered(c, s) && Enabled(c, s, step)
    requires Behind(c, s, k, v)
    ensures Behind(c, Apply(c, s, step), k, v)
  {
    var r := Apply(c, s, step);
    match step {
      case Begin(t) =>
      case Push =>
        assert c.walk[..r.pushed] == c.walk[..s.pushed] + [c.walk[s.pushed]];
        assert c.walk[s.pushed] !in c.walk[..s.pushed];
      case BlockingPop => TakingKeepsOrdered(c, s, c.keys[FirstNonempty(c.keys, s.lists)]);
      case Pop => TakingKeepsOrdered(c, s, c.keys[s.follower.at]);
      case Skip =>
      case Return =>
    }
  }

  // What a pop takes is not yet claimed, and stays behind the list it came from.
  lemma HeadIsUnclaimed(c: Config, s: State, step: Step, k: nat)
    requires WellFormed(c) && Claimed(c, s) && Enabled(c, s, step) && (step.BlockingPop? || step.Pop?)
    requires k == if step.BlockingPop? then c.keys[FirstNonempty(c.keys, s.lists)] else c.keys[s.follower.at]
    ensures Behind(c, Apply(c, s, step), k, s.lists[k][0])
    ensures forall i :: 0 <= i < |s.returned| && s.returned[i] == s.lists[k][0] ==> s.sources[i] != k
  {
    TakingKeepsOrdered(c, s, k);
    assert s.lists[k][0] in s.lists[k];
  }

  lemma StepKeepsClaimed(c: Config, s: State, step: Step)
    requires WellFormed(c) && Claimed(c, s) && Enabled(c, s, step)
    ensures Claimed(c, Apply(c, s, step))
  {
    var r := Apply(c, s, step);
    StepKeepsOrdered(c, s, step);
    forall i | 0 <= i < |s.returned| ensures Behind(c, r, s.sources[i], s.returned[i]) {
      BehindPersists(c, s, step, s.sources[i], s.returned[i]);
    }
    if s.follower.Draining? {
      BehindPersists(c, s, step, s.follower.source, s.follower.best);
    }
    match step {
      case BlockingPop => HeadIsUnclaimed(c, s, step, c.keys[FirstNonempty(c.keys, s.lists)]);
      case Pop => HeadIsUnclaimed(c, s, step, c.keys[s.follower.at]);
      case Begin(t) =>
      case Push =>
      case Skip =>
      case Return =>
    }
  }

  lemma {:induction false} RunsKeepInv(c: Config, s: State, steps: seq<Step>, t: State)
    requires WellFormed(c) && Claimed(c, s) && Leads(c, s, steps, t)
    requires Aligned(c) ==> Inv(c, s)
    ensures Claimed(c, t)
    ensures Aligned(c) ==> Inv(c, t)
    decreases |steps|
  {
    if steps != [] {
      StepKeepsClaimed(c, s, steps[0]);
      if Aligned(c) { StepKeepsInv(c, s, steps[0]); }
      RunsKeepInv(c, Apply(c, s, steps[0]), steps[1..], t);
    }
  }

  lemma ReachableStatesAreSound(c: Config, s: State)
    requires WellFormed(c) && Reachable(c, s)
    ensures Claimed(c, s) && (Aligned(c) ==> Inv(c, s))
  {
    var steps :| Leads(c, Init(c), steps, s);
    InitInv(c);
    RunsKeepInv(c, Init(c), steps, s);
  }

  // ---------------------------------------------------------------- what every run guarantees

  // Whatever the interleaving, the follower never goes back to an older tick.
  lemma ReturnedTicksNeverDecrease(c: Config, s: State)
    requires WellFormed(c) && Aligned(c) && Reachable(c, s)
    ensures NonDecreasing(s.returned)
  {
    ReachableStatesAreSound(c, s);
  }

  ghost function ClaimsOf(returned: seq<int>, sources: seq<nat>, t: int): set<nat>
    requires |returned| == |sources|
  {
    set i | 0 <= i < |returned| && returned[i] == t :: sources[i]
  }

  lemma {:induction false} ClaimsCounted(returned: seq<int>, sources: seq<nat>, t: int)
    requires |returned| == |sources|
    requires forall i, j :: 0 <= i < j < |returned| && returned[i] == returned[j] ==> sources[i] != sources[j]
    ensures Count(returned, t) == |ClaimsOf(returned, sources, t)|
  {
    if returned == [] {
      assert ClaimsOf(returned, sources, t) == {};
    } else {
      var n := |returned| - 1;
      ClaimsCounted(returned[..n], sources[..n], t);
      LastClaim(returned, sources, t);
    }
  }

  lemma LastClaim(returned: seq<int>, sources: seq<nat>, t: int)
    requires |returned| == |sources| > 0
    requires forall i, j :: 0 <= i < j < |returned| && returned[i] == returned[j] ==> sources[i] != sources[j]
    ensures var n := |returned| - 1;
            var before := ClaimsOf(returned[..n], sources[..n], t);
            if returned[n] == t then
              sources[n] !in before && ClaimsOf(returned, sources, t) == before + {sources[n]}
            else
              ClaimsOf(returned, sources, t) == before
  {
  }

  // A tick is returned at most once per shard the follower owns, in whatever order it walks them.
  lemma EachTickReturnedAtMostOncePerShard(c: Config, s: State, t: int)
    requires WellFormed(c) && Reachable(c, s)
    ensures Count(s.returned, t) <= |c.keys|
  {
    ReachableStatesAreSound(c, s);
    ClaimsCounted(s.returned, s.sources, t);
    forall k | k in ClaimsOf(s.returned, s.sources, t) ensures k in Elements(c.keys) {
      var i :| 0 <= i < |s.returned| && s.returned[i] == t && s.sources[i] == k;
      assert Behind(c, s, s.sources[i], s.returned[i]);
    }
    SubsetCardinality(ClaimsOf(s.returned, s.sources, t), Elements(c.keys));
    DistinctCardinality(c.keys);
  }

  // A follower with one shard never runs a tick twice.
  lemma OneShardRunsEachTickOnce(c: Config, s: State)
    requires WellFormed(c) && Aligned(c) && |c.keys| == 1 && Reachable(c, s)
    ensures Increasing(s.returned)
  {
    hide Inv, Reachable;
    ReachableStatesAreSound(c, s);
    ReturnedTicksNeverDecrease(c, s);
    forall i, j | 0 <= i < j < |s.returned| ensures s.returned[i] < s.returned[j] {
      assert Behind(c, s, s.sources[i], s.returned[i]) && Behind(c, s, s.sources[j], s.returned[j]);
      assert s.sources[i] == c.keys[0] == s.sources[j];
    }
  }

  // Once the signal is complete and the lists are empty, the follower has reached the signalled tick.
  lemma DrainedFollowerIsUpToDate(c: Config, s: State)
    requires WellFormed(c) && Aligned(c) && Reachable(c, s)
    requires s.follower.Idle? && forall k :: k in c.keys ==> k in s.lists && s.lists[k] == []
    ensures LastReturned(s) == s.newest
    ensures s.pushed == |c.walk| ==> LastReturned(s) == s.tick
  {
    ReachableStatesAreSound(c, s);
    assert c.keys[0] in c.keys && c.walk[..|c.walk|] == c.walk;
  }
}
