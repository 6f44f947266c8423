// When in the day an actor wants to post: hashed moments among the slots outside working hours.
module Rhythm {
  import opened Prelude

  const SECONDS_PER_SLOT: nat := 240
  const SLOTS_PER_DAY: nat := 360
  const SLOTS_PER_HOUR: nat := 15

  // Working hours from start to end; when start is after end they run over midnight.
  datatype Busy = Busy(start: int, end: int)

  // The checksum of (actor, day, k), left uninterpreted.
  type Hash = nat -> nat

  predicate Suppressed(busy: Option<Busy>, hour: int) {
    match busy
    case None => false
    case Some(Busy(start, end)) => if start <= end then start <= hour < end else hour >= start || hour < end
  }

  function OpenUpTo(busy: Option<Busy>, n: nat): (r: seq<nat>)
    ensures Increasing(r)
    ensures forall s: nat :: s in r <==> s < n && !Suppressed(busy, s / SLOTS_PER_HOUR)
  {
    if n == 0 then []
    else
      var before := OpenUpTo(busy, n - 1);
      assert forall i :: 0 <= i < |before| ==> before[i] in before;
      if Suppressed(busy, (n - 1) / SLOTS_PER_HOUR) then before else before + [n - 1]
  }

  function OpenSlots(busy: Option<Busy>): seq<nat> { OpenUpTo(busy, SLOTS_PER_DAY) }

  function Neighbour(idx: nat, n: nat): (r: nat)
    requires idx < n
    ensures r == if idx + 1 == n then 0 else idx + 1
  {
    (idx + 1) % n
  }

  // Where one is after going `ahead` places round.
  ghost function Round(idx: nat, ahead: nat, n: nat): nat
    requires idx < n && ahead < n
  {
    if idx + ahead < n then idx + ahead else idx + ahead - n
  }

  // The first index from idx on, going round, whose slot is not taken, looking at most `more` places further.
  function Probe(open: seq<nat>, taken: set<nat>, idx: nat, more: nat): (r: nat)
    requires idx < |open|
    ensures r < |open|
    decreases more
  {
    if open[idx] !in taken || more == 0 then idx else Probe(open, taken, Neighbour(idx, |open|), more - 1)
  }

  // The slots taken after n moments.
  function Moments(hash: Hash, open: seq<nat>, n: nat): set<nat>
    requires n <= |open|
  {
    if n == 0 then {}
    else
      var taken := Moments(hash, open, n - 1);
      taken + {open[Probe(open, taken, hash(n - 1) % |open|, |open|)]}
  }

  function Wanted(open: seq<nat>, target: int): (n: nat)
    ensures n <= |open|
  {
    if target < 0 then 0 else Min(target, |open|)
  }

  function MomentSlots(hash: Hash, open: seq<nat>, target: int): set<nat> { Moments(hash, open, Wanted(open, target)) }

  // ---------------------------------------------------------------- probing finds a free slot

  lemma {:induction false} ProbeFindsFree(open: seq<nat>, taken: set<nat>, idx: nat, more: nat, ahead: nat)
    requires idx < |open| && ahead <= more && ahead < |open| && open[Round(idx, ahead, |open|)] !in taken
    ensures open[Probe(open, taken, idx, more)] !in taken
    decreases more
  {
    if open[idx] in taken {
      ProbeFindsFree(open, taken, Neighbour(idx, |open|), more - 1, ahead - 1);
    }
  }

  // Going round reaches every place.
  ghost function Distance(idx: nat, goal: nat, n: nat): (ahead: nat)
    requires idx < n && goal < n
    ensures ahead < n && Round(idx, ahead, n) == goal
  {
    if goal >= idx then goal - idx else n - idx + goal
  }

  lemma FreeSlotExists(open: seq<nat>, taken: set<nat>) returns (goal: nat)
    requires Increasing(open) && |taken| < |open|
    ensures goal < |open| && open[goal] !in taken
  {
    DistinctCardinality(open);
    if forall k :: 0 <= k < |open| ==> open[k] in taken {
      assert Elements(open) <= taken;
      SubsetCardinality(Elements(open), taken);
      assert false;
    }
    goal :| 0 <= goal < |open| && open[goal] !in taken;
  }

  // Whatever the hash, n moments take n different slots, all of them open.
  lemma {:induction false} MomentsAreDistinctAndOpen(hash: Hash, open: seq<nat>, n: nat)
    requires Increasing(open) && n <= |open|
    ensures |Moments(hash, open, n)| == n && Moments(hash, open, n) <= Elements(open)
  {
    hide Probe, Increasing;
    if n > 0 {
      MomentsAreDistinctAndOpen(hash, open, n - 1);
      var taken := Moments(hash, open, n - 1);
      var idx := hash(n - 1) % |open|;
      var goal := FreeSlotExists(open, taken);
      ProbeFindsFree(open, taken, idx, |open|, Distance(idx, goal, |open|));
      assert open[Probe(open, taken, idx, |open|)] in open;
    }
  }

  // Raising the target only adds moments.
  lemma {:induction false} MoreMomentsKeepTheOld(hash: Hash, open: seq<nat>, m: nat, n: nat)
    requires m <= n <= |open|
    ensures Moments(hash, open, m) <= Moments(hash, open, n)
    decreases n
  {
    if m < n { MoreMomentsKeepTheOld(hash, open, m, n - 1); }
  }

  lemma HigherTargetKeepsTheMoments(hash: Hash, open: seq<nat>, target: int, higher: int)
    requires target <= higher
    ensures MomentSlots(hash, open, target) <= MomentSlots(hash, open, higher)
  {
    MoreMomentsKeepTheOld(hash, open, Wanted(open, target), Wanted(open, higher));
  }

  // ---------------------------------------------------------------- over a day

  datatype Clock = Clock(hour: nat, minute: nat, second: nat)

  predicate OnDial(t: Clock) { t.hour < 24 && t.minute < 60 && t.second < 60 }

  function SlotOf(t: Clock): nat { (t.hour * 3600 + t.minute * 60 + t.second) / SECONDS_PER_SLOT }

  datatype Profile = Profile(busy: Option<Busy>, weekdayPosts: int, weekendPosts: int)

  // Free days have no working hours and their own number of posts.
  function BusyOn(p: Profile, freeDay: bool): Option<Busy> { if freeDay then None else p.busy }

  function TargetOn(p: Profile, freeDay: bool): int { if freeDay then p.weekendPosts else p.weekdayPosts }

  predicate PostingMoment(hash: Hash, p: Profile, freeDay: bool, t: Clock) {
    SlotOf(t) in MomentSlots(hash, OpenSlots(BusyOn(p, freeDay)), TargetOn(p, freeDay))
  }

  // An actor never posts inside working hours on a working day, whether they end the same day or run over midnight.
  lemma NeverWhileBusy(hash: Hash, p: Profile, t: Clock, start: int, end: int)
    requires OnDial(t) && PostingMoment(hash, p, false, t) && p.busy == Some(Busy(start, end))
    ensures if start <= end then t.hour < start || end <= t.hour else end <= t.hour < start
  {
    hide OpenUpTo;
    var open := OpenSlots(p.busy);
    MomentsAreDistinctAndOpen(hash, open, Wanted(open, p.weekdayPosts));
    assert SlotOf(t) in Elements(open);
  }

  // The day sampled once in every slot, at any moments within the slots.
  ghost predicate DailySample(day: seq<Clock>) {
    |day| == SLOTS_PER_DAY && forall s :: 0 <= s < SLOTS_PER_DAY ==> OnDial(day[s]) && SlotOf(day[s]) == s
  }

  function Hits(hash: Hash, p: Profile, freeDay: bool, day: seq<Clock>): nat {
    if day == [] then 0
    else Hits(hash, p, freeDay, day[..|day| - 1]) + if PostingMoment(hash, p, freeDay, day[|day| - 1]) then 1 else 0
  }

  function Below(moments: set<nat>, n: nat): set<nat> { set s | s in moments && s < n }

  lemma {:induction false} HitsCountSlots(hash: Hash, p: Profile, freeDay: bool, day: seq<Clock>, moments: set<nat>)
    requires moments == MomentSlots(hash, OpenSlots(BusyOn(p, freeDay)), TargetOn(p, freeDay))
    requires forall s :: 0 <= s < |day| ==> SlotOf(day[s]) == s
    ensures Hits(hash, p, freeDay, day) == |Below(moments, |day|)|
  {
    hide MomentSlots, SlotOf, OpenSlots;
    if day == [] {
      assert Below(moments, 0) == {};
    } else {
      var n := |day| - 1;
      HitsCountSlots(hash, p, freeDay, day[..n], moments);
      var before := Below(moments, n);
      assert SlotOf(day[n]) == n;
      assert Below(moments, n + 1) == if n in moments then before + {n} else before;
    }
  }

  // The slots of a day outside working hours: an hour is 15 slots.
  ghost function FreeSlots(p: Profile, freeDay: bool): set<nat> {
    set s: nat | s < 360 && (freeDay || p.busy.None? || OffWork(p.busy.value.start, p.busy.value.end, s / 15))
  }

  predicate OffWork(start: int, end: int, hour: int) {
    if start <= end then hour < start || end <= hour else end <= hour < start
  }

  lemma OpenAreFree(p: Profile, freeDay: bool)
    ensures |OpenSlots(BusyOn(p, freeDay))| == |FreeSlots(p, freeDay)|
  {
    hide OpenUpTo;
    var open := OpenSlots(BusyOn(p, freeDay));
    DistinctCardinality(open);
    assert Elements(open) == FreeSlots(p, freeDay) by {
      assert forall s: nat :: s in open <==> s < SLOTS_PER_DAY && !Suppressed(BusyOn(p, freeDay), s / SLOTS_PER_HOUR);
    }
  }

  // Over a day an actor posts exactly as often as it wants to, or in every slot outside its working hours if there are
  // fewer. Free days have no working hours, and their own number of posts.
  lemma ExactlyAsOftenAsWanted(hash: Hash, p: Profile, freeDay: bool, day: seq<Clock>)
    requires DailySample(day)
    ensures Hits(hash, p, freeDay, day)
            == Max(0, Min(if freeDay then p.weekendPosts else p.weekdayPosts, |FreeSlots(p, freeDay)|))
  {
    hide OpenUpTo, PostingMoment, OpenSlots, FreeSlots;
    var open := OpenSlots(BusyOn(p, freeDay));
    var moments := MomentSlots(hash, open, TargetOn(p, freeDay));
    OpenInOrder(BusyOn(p, freeDay));
    MomentsAreDistinctAndOpen(hash, open, Wanted(open, TargetOn(p, freeDay)));
    HitsCountSlots(hash, p, freeDay, day, moments);
    assert moments == Below(moments, |day|) by {
      assert forall s :: s in moments ==> s in Elements(open);
    }
    OpenAreFree(p, freeDay);
  }

  lemma OpenInOrder(busy: Option<Busy>)
    ensures Increasing(OpenSlots(busy)) && forall s :: s in OpenSlots(busy) ==> s < SLOTS_PER_DAY
  {
    hide OpenUpTo;
  }

  // ---------------------------------------------------------------- which moments

  lemma {:induction false} ProbeIsFirst(open: seq<nat>, taken: set<nat>, idx: nat, more: nat) returns (ahead: nat)
    requires idx < |open| && more < |open|
    ensures ahead <= more && Probe(open, taken, idx, more) == Round(idx, ahead, |open|)
    ensures forall e :: 0 <= e < ahead ==> open[Round(idx, e, |open|)] in taken
    ensures open[Round(idx, ahead, |open|)] !in taken || ahead == more
    decreases more
  {
    if open[idx] !in taken || more == 0 {
      ahead := 0;
    } else {
      var next := Neighbour(idx, |open|);
      var d := ProbeIsFirst(open, taken, next, more - 1);
      ahead := d + 1;
      assert forall e :: 0 <= e <= d ==> Round(next, e, |open|) == Round(idx, e + 1, |open|);
      forall e | 0 <= e < ahead ensures open[Round(idx, e, |open|)] in taken {
        if e > 0 { assert open[Round(next, e - 1, |open|)] in taken; }
      }
    }
  }

  // Going round once more than there are slots makes no difference when one of them is free.
  lemma {:induction false} ProbeStops(open: seq<nat>, taken: set<nat>, idx: nat, more: nat)
    requires idx < |open| && open[Probe(open, taken, idx, more)] !in taken
    ensures Probe(open, taken, idx, more + 1) == Probe(open, taken, idx, more)
    decreases more
  {
    if open[idx] in taken && more > 0 { ProbeStops(open, taken, Neighbour(idx, |open|), more - 1); }
  }

  // The k-th moment is in the first slot not yet taken, going round from where its hash points.
  lemma EachMomentIsTheFirstFree(hash: Hash, open: seq<nat>, k: nat)
    requires Increasing(open) && k < |open|
    ensures exists ahead: nat :: NextMoment(hash, open, k, ahead)
  {
    hide Increasing, Moments, Probe;
    var taken, idx, n := Moments(hash, open, k), hash(k) % |open|, |open|;
    MomentsAreDistinctAndOpen(hash, open, k);
    var goal := FreeSlotExists(open, taken);
    ProbeFindsFree(open, taken, idx, n - 1, Distance(idx, goal, n));
    ProbeStops(open, taken, idx, n - 1);
    var ahead := ProbeIsFirst(open, taken, idx, n - 1);
    assert Moments(hash, open, k + 1) == taken + {open[Probe(open, taken, idx, n)]} by { OneMoreMoment(hash, open, k); }
    assert NextMoment(hash, open, k, ahead);
  }

  lemma OneMoreMoment(hash: Hash, open: seq<nat>, k: nat)
    requires k < |open|
    ensures Moments(hash, open, k + 1)
            == Moments(hash, open, k) + {open[Probe(open, Moments(hash, open, k), hash(k) % |open|, |open|)]}
  {
  }

  // The next moment takes the slot so many places ahead of where its hash points, all those before it being taken.
  ghost predicate NextMoment(hash: Hash, open: seq<nat>, k: nat, ahead: nat) {
    k < |open| && ahead < |open|
    && var taken, n, idx := Moments(hash, open, k), |open|, hash(k) % |open|;
       && open[Round(idx, ahead, n)] !in taken && Moments(hash, open, k + 1) == taken + {open[Round(idx, ahead, n)]}
       && forall e :: 0 <= e < ahead ==> open[Round(idx, e, n)] in taken
  }

  // ---------------------------------------------------------------- the probing loop

  // The inner loop: step to the neighbour until the slot is free.
  method ProbeFrom(open: seq<nat>, chosen: set<nat>, start: nat, ghost goal: nat) returns (idx: nat)
    requires start < |open| && goal < |open| && open[goal] !in chosen
    ensures idx == Probe(open, chosen, start, |open|)
  {
    idx := start;
    ghost var left := |open|;
    while open[idx] in chosen
      invariant idx < |open| && Distance(idx, goal, |open|) <= left
      invariant Probe(open, chosen, idx, left) == Probe(open, chosen, start, |open|)
      decreases Distance(idx, goal, |open|)
    {
      idx := Neighbour(idx, |open|);
      left := left - 1;
    }
  }

  method ChooseMoments(hash: Hash, open: seq<nat>, target: int) returns (chosen: set<nat>)
    requires Increasing(open)
    ensures chosen == MomentSlots(hash, open, target)
  {
    hide Probe, Increasing;
    chosen := {};
    var n := if target < 0 then 0 else Min(target, |open|);
    for k := 0 to n
      invariant chosen == Moments(hash, open, k)
    {
      MomentsAreDistinctAndOpen(hash, open, k);
      ghost var goal := FreeSlotExists(open, chosen);
      var idx := ProbeFrom(open, chosen, hash(k) % |open|, goal);
      chosen := chosen + {open[idx]};
    }
  }
}
