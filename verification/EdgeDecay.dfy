// How a relationship cools.
//
// One batch of many ticks is compared with one tick at a time: first in exact arithmetic, then with the rounding
// of the stored form and with what is published on the way.
module EdgeDecay {
  import opened Prelude

  // Numbers are millionths.
  const INTIMACY_RATE := 300
  const RESENTMENT_RATE := 2
  const SALIENCE_RATE := 600
  const ONE := 1_000_000
  const STORED_UNIT := 100

  // A dimension's value, and the change not yet published.
  datatype Scalar = Scalar(value: int, pending: int)

  datatype Edge = Edge(trust: Scalar, intimacy: Scalar, respect: Scalar, attraction: Scalar, resentment: Scalar, salience: int)

  function Fade(s: Scalar, rate: nat, ticks: nat): Scalar {
    var value := Min(ONE, Max(0, s.value - rate * ticks));
    Scalar(value, s.pending + (value - s.value))
  }

  // Only intimacy, resentment and salience decay.
  function Decay(e: Edge, ticks: int): Edge {
    if ticks <= 0 then e
    else e.(intimacy := Fade(e.intimacy, INTIMACY_RATE, ticks), resentment := Fade(e.resentment, RESENTMENT_RATE, ticks),
            salience := Max(0, e.salience - SALIENCE_RATE * ticks))
  }

  ghost predicate Bounded(e: Edge) {
    0 <= e.intimacy.value <= ONE && 0 <= e.resentment.value <= ONE && 0 <= e.salience <= ONE
  }

  // ---------------------------------------------------------------- in exact arithmetic

  // A batch of m + n ticks is a batch of m and then a batch of n.
  lemma DecayComposes(e: Edge, m: nat, n: nat)
    requires Bounded(e)
    ensures Decay(Decay(e, m), n) == Decay(e, m + n) && Bounded(Decay(e, m))
  {
  }

  function TickByTick(e: Edge, ticks: nat): Edge { if ticks == 0 then e else Decay(TickByTick(e, ticks - 1), 1) }

  // After any number of ticks intimacy has lost 300 millionths a tick, resentment two and salience 600, none of them
  // below zero; what intimacy and resentment lost waits to be told, and nothing else has changed.
  lemma {:induction false} WhatTicksTake(e: Edge, ticks: nat)
    requires Bounded(e)
    ensures var r := TickByTick(e, ticks);
            && r.intimacy.value == Max(0, e.intimacy.value - 300 * ticks)
            && r.resentment.value == Max(0, e.resentment.value - 2 * ticks)
            && r.salience == Max(0, e.salience - 600 * ticks)
            && r.intimacy.pending - e.intimacy.pending == r.intimacy.value - e.intimacy.value
            && r.resentment.pending - e.resentment.pending == r.resentment.value - e.resentment.value
            && r.trust == e.trust && r.respect == e.respect && r.attraction == e.attraction
  {
    if ticks > 0 { WhatTicksTake(e, ticks - 1); }
  }

  function Abs(x: int): nat { if x < 0 then -x else x }

  function Pending(e: Edge): nat {
    Abs(e.trust.pending) + Abs(e.intimacy.pending) + Abs(e.respect.pending) + Abs(e.attraction.pending) + Abs(e.resentment.pending)
  }

  function Cleared(e: Edge): Edge {
    e.(trust := e.trust.(pending := 0), intimacy := e.intimacy.(pending := 0), respect := e.respect.(pending := 0),
       attraction := e.attraction.(pending := 0), resentment := e.resentment.(pending := 0))
  }

  datatype Deltas = Deltas(trust: int, intimacy: int, respect: int, attraction: int, resentment: int)

  function Pendings(e: Edge): Deltas {
    Deltas(e.trust.pending, e.intimacy.pending, e.respect.pending, e.attraction.pending, e.resentment.pending)
  }

  function Plus(c: Deltas, d: Deltas): Deltas {
    Deltas(c.trust + d.trust, c.intimacy + d.intimacy, c.respect + d.respect, c.attraction + d.attraction,
           c.resentment + d.resentment)
  }

  function Sum(ds: seq<Deltas>): Deltas {
    if ds == [] then Deltas(0, 0, 0, 0, 0) else Plus(Sum(ds[..|ds| - 1]), ds[|ds| - 1])
  }

  // The edge, and the changes published about it so far.
  datatype Told = Told(edge: Edge, published: seq<Deltas>)

  // What has been told, and what is waiting to be told.
  function Whole(t: Told): Deltas { Plus(Sum(t.published), Pendings(t.edge)) }

  // Time passes, and a change that has grown large enough is published.
  function Pass(t: Told, ticks: int, threshold: nat): Told {
    var e := Decay(t.edge, ticks);
    if Pending(e) >= threshold then Told(Cleared(e), t.published + [Pendings(e)]) else t.(edge := e)
  }

  function PassEach(t: Told, ticks: nat, threshold: nat): Told {
    if ticks == 0 then t else Pass(PassEach(t, ticks - 1, threshold), 1, threshold)
  }

  // The same relationship, and the same change told or waiting to be told.
  predicate SameStory(t: Told, u: Told) { Cleared(t.edge) == Cleared(u.edge) && Whole(t) == Whole(u) }

  lemma SumOfOneMore(ds: seq<Deltas>, d: Deltas)
    ensures Sum(ds + [d]) == Plus(Sum(ds), d)
  {
    assert (ds + [d])[..|ds|] == ds;
  }

  lemma SameStoryAsItself(t: Told)
    ensures SameStory(t, t)
  {
  }

  // Publishing what waits, or not, tells the same story.
  lemma PublishingTellsNoMore(e: Edge, published: seq<Deltas>)
    ensures SameStory(Told(Cleared(e), published + [Pendings(e)]), Told(e, published))
  {
    SumOfOneMore(published, Pendings(e));
  }

  lemma PassTellsOfDecay(t: Told, ticks: int, threshold: nat)
    ensures SameStory(Pass(t, ticks, threshold), t.(edge := Decay(t.edge, ticks)))
  {
    hide Decay, SameStory;
    var e := Decay(t.edge, ticks);
    PublishingTellsNoMore(e, t.published);
    SameStoryAsItself(Told(e, t.published));
  }

  lemma DecayContinuesTheStory(t: Told, u: Told, ticks: int)
    requires SameStory(t, u)
    ensures SameStory(t.(edge := Decay(t.edge, ticks)), u.(edge := Decay(u.edge, ticks)))
  {
    hide Sum;
  }

  // Whatever is published on the way, many single ticks end in the same relationship as one batch, and tell in
  // all of the same change.
  lemma {:induction false} BatchTellsTheSameStory(t: Told, ticks: nat, threshold: nat)
    requires Bounded(t.edge)
    ensures SameStory(PassEach(t, ticks, threshold), Pass(t, ticks, threshold))
  {
    EachTellsOfDecay(t, ticks, threshold);
    PassTellsOfDecay(t, ticks, threshold);
  }

  lemma {:induction false} EachTellsOfDecay(t: Told, ticks: nat, threshold: nat)
    requires Bounded(t.edge)
    ensures SameStory(PassEach(t, ticks, threshold), t.(edge := Decay(t.edge, ticks)))
  {
    hide Decay, Pass, Fade;
    if ticks == 0 {
      assert Decay(t.edge, 0) == t.edge by { NoTime(t.edge); }
    } else {
      var before := PassEach(t, ticks - 1, threshold);
      var u := t.(edge := Decay(t.edge, ticks - 1));
      EachTellsOfDecay(t, ticks - 1, threshold);
      PassTellsOfDecay(before, 1, threshold);
      DecayContinuesTheStory(before, u, 1);
      DecayComposes(t.edge, ticks - 1, 1);
    }
  }

  // How much a set of changes comes to.
  function Size(d: Deltas): nat { Abs(d.trust) + Abs(d.intimacy) + Abs(d.respect) + Abs(d.attraction) + Abs(d.resentment) }

  // Tick by tick, everything told is at least as large as the threshold, and what waits is always smaller.
  lemma {:induction false} NothingLargeWaits(t: Told, ticks: nat, threshold: nat)
    requires threshold > 0 && Size(Pendings(t.edge)) < threshold
    ensures var u := PassEach(t, ticks, threshold);
            && Size(Pendings(u.edge)) < threshold
            && |u.published| >= |t.published| && u.published[..|t.published|] == t.published
            && forall i :: |t.published| <= i < |u.published| ==> Size(u.published[i]) >= threshold
  {
    hide Pass, Pendings, Size;
    if ticks > 0 {
      NothingLargeWaits(t, ticks - 1, threshold);
      PassLeavesLittle(PassEach(t, ticks - 1, threshold), 1, threshold);
    }
  }

  lemma PassLeavesLittle(t: Told, ticks: int, threshold: nat)
    requires threshold > 0
    ensures var u := Pass(t, ticks, threshold);
            && Size(Pendings(u.edge)) < threshold
            && (u.published == t.published
                || (|u.published| == |t.published| + 1 && u.published[..|t.published|] == t.published
                    && Size(u.published[|t.published|]) >= threshold))
  {
    hide Decay;
  }

  lemma NoTime(e: Edge)
    ensures Decay(e, 0) == e
  {
  }

  // ---------------------------------------------------------------- as stored

  // Rounding to the stored unit. An exact half is decided by the binary fraction that stands for the number.
  function Rounded(x: int, up: int -> bool): int {
    var low := x / STORED_UNIT * STORED_UNIT;
    if x - low > STORED_UNIT / 2 || (x - low == STORED_UNIT / 2 && up(x)) then low + STORED_UNIT else low
  }

  function RoundedScalar(s: Scalar, up: int -> bool): Scalar { Scalar(Rounded(s.value, up), Rounded(s.pending, up)) }

  // What reading a saved edge gives back.
  function Stored(e: Edge, up: int -> bool): Edge {
    Edge(RoundedScalar(e.trust, up), RoundedScalar(e.intimacy, up), RoundedScalar(e.respect, up), RoundedScalar(e.attraction, up),
         RoundedScalar(e.resentment, up), Rounded(e.salience, up))
  }

  // Time passes, a change that has grown large enough is published, and the edge is saved. Publishing rounds too.
  function StoredPass(t: Told, ticks: int, threshold: nat, up: int -> bool): Told {
    var e := Decay(t.edge, ticks);
    if Pending(e) >= threshold
    then Told(Stored(Cleared(e), up), t.published + [Pendings(Stored(e, up))])
    else t.(edge := Stored(e, up))
  }

  function StoredPassEach(t: Told, ticks: nat, threshold: nat, up: int -> bool): Told {
    if ticks == 0 then t else StoredPass(StoredPassEach(t, ticks - 1, threshold, up), 1, threshold, up)
  }

  // An edge read from the store.
  ghost predicate FromStore(e: Edge) {
    && Bounded(e) && InUnits(e.salience)
    && forall s :: s in {e.trust, e.intimacy, e.respect, e.attraction, e.resentment} ==> InUnits(s.value) && InUnits(s.pending)
  }

  predicate InUnits(x: int) { x % STORED_UNIT == 0 }

  lemma RoundedInUnits(x: int, up: int -> bool)
    ensures InUnits(Rounded(x, up)) && Abs(Rounded(x, up) - x) <= 50
    ensures InUnits(x) ==> Rounded(x, up) == x
  {
  }

  // Nothing is published or stored in finer steps than the stored unit, or further than half a unit from its value.
  lemma PublishedAndStoredInUnits(t: Told, ticks: int, threshold: nat, up: int -> bool)
    ensures var u, e := StoredPass(t, ticks, threshold, up), Decay(t.edge, ticks);
            && InUnits(u.edge.resentment.value) && InUnits(u.edge.intimacy.value) && InUnits(u.edge.salience)
            && Abs(u.edge.resentment.value - e.resentment.value) <= 50 && Abs(u.edge.intimacy.value - e.intimacy.value) <= 50
            && Abs(u.edge.salience - e.salience) <= 50
            && (|u.published| > |t.published| <==> Size(Pendings(e)) >= threshold)
            && (|u.published| > |t.published| ==>
                  var d := u.published[|t.published|];
                  && u.published == t.published + [d] && u.edge.intimacy.pending == 0 == u.edge.resentment.pending
                  && InUnits(d.intimacy) && InUnits(d.resentment)
                  && Abs(d.intimacy - e.intimacy.pending) <= 50 && Abs(d.resentment - e.resentment.pending) <= 50)
  {
    hide Decay, Rounded, InUnits, Abs;
    var e := Decay(t.edge, ticks);
    RoundedInUnits(e.resentment.value, up);
    RoundedInUnits(e.intimacy.value, up);
    RoundedInUnits(e.salience, up);
    RoundedInUnits(e.resentment.pending, up);
    RoundedInUnits(e.intimacy.pending, up);
    assert InUnits(0) by { ZeroInUnits(); }
    RoundedInUnits(0, up);
  }

  lemma ZeroInUnits()
    ensures InUnits(0)
  {
  }

  lemma UnitsDiffer(x: int, y: int)
    requires InUnits(x) && InUnits(y)
    ensures InUnits(x - y)
  {
  }

  lemma UnitsAdd(x: int, y: int)
    requires InUnits(x) && InUnits(y)
    ensures InUnits(x + y)
  {
  }

  lemma RoundUnits()
    ensures InUnits(0) && InUnits(ONE)
  {
  }

  // What decays by whole stored units is stored exactly.
  lemma UnitFadeIsStored(s: Scalar, rate: nat, ticks: nat, up: int -> bool)
    requires InUnits(s.value) && InUnits(s.pending) && InUnits(rate) && 0 <= s.value <= ONE
    ensures var f := Fade(s, rate, ticks); RoundedScalar(f, up) == f && InUnits(f.value) && InUnits(f.pending)
  {
    InUnitsTimes(rate, ticks);
    hide InUnits, Rounded, Abs;
    var off := rate * ticks;
    var value := Fade(s, rate, ticks).value;
    UnitsDiffer(s.value, off);
    assert value == s.value - off || value == 0;
    assert InUnits(0) && InUnits(ONE) by { RoundUnits(); }
    UnitsDiffer(value, s.value);
    UnitsAdd(s.pending, value - s.value);
    RoundedInUnits(Fade(s, rate, ticks).value, up);
    RoundedInUnits(Fade(s, rate, ticks).pending, up);
  }

  lemma {:induction false} InUnitsTimes(rate: nat, ticks: nat)
    requires InUnits(rate)
    ensures InUnits(rate * ticks)
  {
    hide InUnits;
    if ticks == 0 {
      RoundUnits();
    } else {
      InUnitsTimes(rate, ticks - 1);
      assert rate * ticks == rate * (ticks - 1) + rate;
      UnitsAdd(rate * (ticks - 1), rate);
    }
  }

  // One tick takes less than half a unit off resentment, and storing puts it back.
  lemma OneTickOfResentmentIsLost(s: Scalar, up: int -> bool)
    requires InUnits(s.value) && InUnits(s.pending) && 0 <= s.value <= ONE
    ensures RoundedScalar(Fade(s, RESENTMENT_RATE, 1), up) == s
  {
  }

  // The edge after so many single ticks, published or not: resentment stays where it was.
  function Ticked(e: Edge, ticks: nat): Edge { Decay(e, ticks).(resentment := e.resentment) }

  // Stored after every tick, the story goes on as if only intimacy and salience cooled: whatever is published on
  // the way, resentment never fades.
  lemma {:induction false} ResentmentNeverFadesTickByTick(t: Told, ticks: nat, threshold: nat, up: int -> bool)
    requires FromStore(t.edge)
    ensures var each := StoredPassEach(t, ticks, threshold, up);
            && FromStore(each.edge) && each.edge.resentment.value == t.edge.resentment.value
            && SameStory(each, t.(edge := Ticked(t.edge, ticks)))
  {
    hide Decay, StoredPass, FromStore, Whole;
    if ticks == 0 {
      assert Decay(t.edge, 0) == t.edge by { NoTime(t.edge); }
    } else {
      var before := StoredPassEach(t, ticks - 1, threshold, up);
      var u := t.(edge := Ticked(t.edge, ticks - 1));
      ResentmentNeverFadesTickByTick(t, ticks - 1, threshold, up);
      StoredTick(before, threshold, up);
      TickContinuesTheStory(before, u);
      assert Bounded(t.edge) by { StoredIsBounded(t.edge); }
      TickedOnceMore(t.edge, ticks - 1);
    }
  }

  lemma TickedOnceMore(e: Edge, ticks: nat)
    requires Bounded(e)
    ensures Ticked(Ticked(e, ticks), 1) == Ticked(e, ticks + 1)
  {
  }

  lemma TickContinuesTheStory(t: Told, u: Told)
    requires SameStory(t, u)
    ensures SameStory(t.(edge := Ticked(t.edge, 1)), u.(edge := Ticked(u.edge, 1)))
  {
    hide Sum;
  }

  lemma StoredIsBounded(e: Edge)
    requires FromStore(e)
    ensures Bounded(e)
  {
  }

  // One stored tick: exactly a tick that leaves resentment alone, published if its exact change is large enough.
  lemma StoredTick(t: Told, threshold: nat, up: int -> bool)
    requires FromStore(t.edge)
    ensures var e := Ticked(t.edge, 1);
            && FromStore(e) && FromStore(Cleared(e)) && e.resentment == t.edge.resentment
            && StoredPass(t, 1, threshold, up) == PublishedIf(Pending(Decay(t.edge, 1)) >= threshold, e, t.published)
            && SameStory(StoredPass(t, 1, threshold, up), t.(edge := e))
  {
    hide FromStore, Decay, Pending, SameStory, Stored, Cleared, Pendings;
    var e := Ticked(t.edge, 1);
    TickIsStored(t.edge, up);
    ClearedIsStored(Decay(t.edge, 1), up);
    ClearedIsStored(e, up);
    PublishingTellsNoMore(e, t.published);
    SameStoryAsItself(Told(e, t.published));
  }

  function PublishedIf(loud: bool, e: Edge, published: seq<Deltas>): Told {
    if loud then Told(Cleared(e), published + [Pendings(e)]) else Told(e, published)
  }

  lemma ClearedIsStored(e: Edge, up: int -> bool)
    ensures Stored(Cleared(e), up) == Cleared(Stored(e, up))
    ensures FromStore(e) ==> FromStore(Cleared(e))
  {
  }

  lemma TickIsStored(e: Edge, up: int -> bool)
    requires FromStore(e)
    ensures Stored(Decay(e, 1), up) == Ticked(e, 1) && FromStore(Ticked(e, 1))
  {
    hide Fade;
    var all := {e.trust, e.intimacy, e.respect, e.attraction, e.resentment};
    forall s | s in all ensures RoundedScalar(s, up) == s {
      RoundedInUnits(s.value, up);
      RoundedInUnits(s.pending, up);
    }
    assert e.trust in all && e.respect in all && e.attraction in all && e.intimacy in all && e.resentment in all;
    UnitFadeIsStored(e.intimacy, INTIMACY_RATE, 1, up);
    OneTickOfResentmentIsLost(e.resentment, up);
    FadeStaysBounded(e.intimacy, INTIMACY_RATE, 1);
    RoundedInUnits(Max(0, e.salience - SALIENCE_RATE), up);
  }

  lemma FadeStaysBounded(s: Scalar, rate: nat, ticks: nat)
    requires 0 <= s.value <= ONE
    ensures 0 <= Fade(s, rate, ticks).value <= ONE
  {
  }

  // Whether rounding undoes what a batch takes off resentment.
  predicate Lossless(e: Edge, ticks: nat, up: int -> bool) {
    || e.resentment.value == 0
    || ticks < 25
    || (ticks == 25 && up(e.resentment.value - 50) && up(e.resentment.pending - 50))
  }

  lemma NothingToLose(e: Edge, ticks: nat, up: int -> bool)
    requires e.resentment.value == 0
    ensures Lossless(e, ticks, up)
  {
  }

  // So a stored batch tells the story of the stored single ticks exactly when there is no resentment to fade, or
  // the batch is too short to move it by half a unit.
  lemma BatchTellsTheStoredStoryExactlyWhen(t: Told, ticks: nat, threshold: nat, up: int -> bool)
    requires FromStore(t.edge)
    ensures SameStory(StoredPass(t, ticks, threshold, up), StoredPassEach(t, ticks, threshold, up))
            <==> Lossless(t.edge, ticks, up)
  {
    hide Decay, Stored, FromStore, StoredPassEach, Lossless, Whole, StoredPass, Cleared;
    var e := Decay(t.edge, ticks);
    ResentmentNeverFadesTickByTick(t, ticks, threshold, up);
    BatchTellsOfStored(t, ticks, threshold, up);
    SameStoryOfOneLog(Stored(e, up), Ticked(t.edge, ticks), t.published);
    StoredBatch(t.edge, ticks, up);
  }

  // A grudge of 0.3 loses 0.0002 over a hundred ticks asleep, and nothing over a hundred ticks awake.
  lemma AwakeTheGrudgeStays(up: int -> bool)
    ensures var t := Told(Grudge(), []);
            && FromStore(t.edge)
            && StoredPass(t, 100, 80_000, up).edge.resentment.value == 299_800
            && StoredPassEach(t, 100, 80_000, up).edge.resentment.value == 300_000
  {
    hide StoredPass, StoredPassEach, FromStore, Stored, Decay, Fade, Pending, Grudge, SameStory;
    GrudgeFades(up);
    ResentmentNeverFadesTickByTick(Told(Grudge(), []), 100, 80_000, up);
    BatchTellsOfStored(Told(Grudge(), []), 100, 80_000, up);
    BatchOfUnits(Grudge(), 100, up);
  }

  function Grudge(): Edge { Edge(Scalar(0, 0), Scalar(0, 0), Scalar(0, 0), Scalar(0, 0), Scalar(300_000, 0), 0) }

  lemma GrudgeFades(up: int -> bool)
    ensures var e := Grudge();
            FromStore(e) && e.resentment.value == 300_000
            && RoundedScalar(Fade(e.resentment, RESENTMENT_RATE, 100), up).value == 299_800
  {
  }

  lemma BatchTellsOfStored(t: Told, ticks: nat, threshold: nat, up: int -> bool)
    ensures StoredPass(t, ticks, threshold, up)
            == PublishedIf(Pending(Decay(t.edge, ticks)) >= threshold, Stored(Decay(t.edge, ticks), up), t.published)
    ensures SameStory(StoredPass(t, ticks, threshold, up), t.(edge := Stored(Decay(t.edge, ticks), up)))
  {
    hide Decay, Stored, Pending, SameStory, Cleared, Pendings;
    var e := Decay(t.edge, ticks);
    ClearedIsStored(e, up);
    PublishingTellsNoMore(Stored(e, up), t.published);
    SameStoryAsItself(Told(Stored(e, up), t.published));
  }

  lemma SameStoryOfOneLog(e: Edge, f: Edge, published: seq<Deltas>)
    ensures SameStory(Told(e, published), Told(f, published)) <==> e == f
  {
    hide Sum;
  }

  lemma StoredBatch(e: Edge, ticks: nat, up: int -> bool)
    requires FromStore(e)
    ensures Stored(Decay(e, ticks), up) == Ticked(e, ticks) <==> Lossless(e, ticks, up)
  {
    hide Decay, Stored, FromStore;
    BatchOfUnits(e, ticks, up);
    ResentmentBatch(e, ticks, up);
  }

  lemma BatchOfUnits(e: Edge, ticks: nat, up: int -> bool)
    requires FromStore(e)
    ensures Stored(Decay(e, ticks), up)
            == Decay(e, ticks).(resentment := RoundedScalar(Fade(e.resentment, RESENTMENT_RATE, ticks), up))
  {
    hide Fade;
    var all := {e.trust, e.intimacy, e.respect, e.attraction, e.resentment};
    forall s | s in all ensures RoundedScalar(s, up) == s {
      RoundedInUnits(s.value, up);
      RoundedInUnits(s.pending, up);
    }
    assert e.trust in all && e.respect in all && e.attraction in all && e.intimacy in all && e.resentment in all;
    UnitFadeIsStored(e.intimacy, INTIMACY_RATE, ticks, up);
    InUnitsTimes(SALIENCE_RATE, ticks);
    RoundedInUnits(Max(0, e.salience - SALIENCE_RATE * ticks), up);
    if ticks == 0 {
      assert Fade(e.resentment, RESENTMENT_RATE, 0) == e.resentment by { NoFade(e.resentment); }
    }
  }

  lemma NoFade(s: Scalar)
    requires 0 <= s.value <= ONE
    ensures Fade(s, RESENTMENT_RATE, 0) == s
  {
  }

  // Rounding undoes a loss of less than half a unit, and one of exactly half a unit if that is rounded up.
  lemma RoundedBack(x: int, loss: nat, up: int -> bool)
    requires InUnits(x)
    ensures Rounded(x - loss, up) == x <==> loss < 50 || (loss == 50 && up(x - 50))
  {
    if loss > 50 {
      RoundedInUnits(x - loss, up);
    } else if loss > 0 {
      assert (x - loss) / STORED_UNIT * STORED_UNIT == x - STORED_UNIT;
    } else {
      RoundedInUnits(x, up);
    }
  }

  lemma ResentmentBatch(e: Edge, ticks: nat, up: int -> bool)
    requires FromStore(e)
    ensures RoundedScalar(Fade(e.resentment, RESENTMENT_RATE, ticks), up) == e.resentment <==> Lossless(e, ticks, up)
  {
    hide Rounded;
    assert e.resentment in {e.trust, e.intimacy, e.respect, e.attraction, e.resentment};
    var value, pending := e.resentment.value, e.resentment.pending;
    var loss := Min(value, RESENTMENT_RATE * ticks);
    assert Fade(e.resentment, RESENTMENT_RATE, ticks) == Scalar(value - loss, pending - loss);
    RoundedBack(value, loss, up);
    RoundedBack(pending, loss, up);
    assert value > 0 ==> value >= STORED_UNIT;
  }

  // ---------------------------------------------------------------- down to what is published when

  // Whether the last of so many single ticks publishes, if none before it did.
  predicate Loud(e: Edge, ticks: nat, threshold: nat) {
    Pending(Decay(e, ticks).(resentment := Fade(e.resentment, RESENTMENT_RATE, 1))) >= threshold
  }

  // No single tick publishes too early: before the last one, only an edge that has cooled down for good is published.
  predicate NoneTellsTooEarly(e: Edge, ticks: nat, threshold: nat) {
    forall k | 1 <= k < ticks && Loud(e, k, threshold) :: Cold(e, k)
  }

  predicate Cold(e: Edge, ticks: nat) { e.intimacy.value <= INTIMACY_RATE * ticks }

  // The stored batch leaves the same edge and publishes the same changes as the stored single ticks exactly when
  // it loses no resentment, no single tick publishes too early, and the batch publishes when the last tick does.
  lemma BatchEqualsTicksExactlyWhen(t: Told, ticks: nat, threshold: nat, up: int -> bool)
    requires FromStore(t.edge) && threshold > RESENTMENT_RATE
    ensures StoredPass(t, ticks, threshold, up) == StoredPassEach(t, ticks, threshold, up)
            <==> && Lossless(t.edge, ticks, up)
                 && NoneTellsTooEarly(t.edge, ticks, threshold)
                 && (Pending(Decay(t.edge, ticks)) >= threshold <==> ticks > 0 && Loud(t.edge, ticks, threshold))
  {
    hide Decay, Stored, FromStore, StoredPassEach, Lossless, StoredPass, Cleared, SameStory, Pending, Loud, Ticked, Cold, Pendings;
    var e, published := t.edge, t.published;
    var batch, each := StoredPass(t, ticks, threshold, up), StoredPassEach(t, ticks, threshold, up);
    BatchTellsTheStoredStoryExactlyWhen(t, ticks, threshold, up);
    SameStoryAsItself(batch);
    BatchTellsOfStored(t, ticks, threshold, up);
    StoredBatch(e, ticks, up);
    if Lossless(e, ticks, up) {
      assert batch == PublishedIf(Pending(Decay(e, ticks)) >= threshold, Ticked(e, ticks), published);
      if k :| 1 <= k < ticks && Loud(e, k, threshold) {
        var first := FirstLoud(e, k, threshold);
        FirstTelling(t, first, threshold, up);
        LogGrows(t, first, ticks, threshold, up);
        StoredIsBounded(e);
        if Cold(e, first) {
          ColdStaysSilent(t, first, ticks, threshold, up);
          ColdIsAsLoud(e, first, ticks, threshold);
          forall j | 1 <= j < ticks && Loud(e, j, threshold) ensures Cold(e, j) { ColdIsAsLoud(e, first, j, threshold); }
        } else {
          StillCooling(e, first, ticks);
          LogsPart(Ticked(e, first), Ticked(e, ticks), published, each.published);
        }
      } else if ticks > 0 {
        FirstTelling(t, ticks, threshold, up);
        LogsDiffer(Ticked(e, ticks), published);
      } else {
        NoTicks(t, threshold, up);
        LogsDiffer(Ticked(e, ticks), published);
      }
    }
  }

  lemma NoTicks(t: Told, threshold: nat, up: int -> bool)
    ensures StoredPassEach(t, 0, threshold, up) == Told(Ticked(t.edge, 0), t.published)
  {
  }

  lemma LogsDiffer(e: Edge, published: seq<Deltas>)
    ensures PublishedIf(true, e, published) != PublishedIf(false, e, published)
  {
    assert |published + [Pendings(e)]| != |published|;
  }

  lemma LogsPart(e: Edge, f: Edge, published: seq<Deltas>, log: seq<Deltas>)
    requires published + [Pendings(e)] <= log && Pendings(e) != Pendings(f)
    ensures forall loud :: PublishedIf(loud, f, published).published != log
  {
    hide Pendings;
    assert log[|published|] == (published + [Pendings(e)])[|published|];
    assert (published + [Pendings(f)])[|published|] == Pendings(f);
  }

  lemma {:induction false} FirstLoud(e: Edge, k: nat, threshold: nat) returns (first: nat)
    requires 1 <= k && Loud(e, k, threshold)
    ensures 1 <= first <= k && Loud(e, first, threshold) && forall j :: 1 <= j < first ==> !Loud(e, j, threshold)
  {
    hide Loud;
    if j :| 1 <= j < k && Loud(e, j, threshold) {
      first := FirstLoud(e, j, threshold);
    } else {
      first := k;
    }
  }

  // As long as nothing is published the single ticks only cool the edge.
  lemma {:induction false} FirstTelling(t: Told, ticks: nat, threshold: nat, up: int -> bool)
    requires FromStore(t.edge) && ticks > 0 && forall j :: 1 <= j < ticks ==> !Loud(t.edge, j, threshold)
    ensures StoredPassEach(t, ticks, threshold, up)
            == PublishedIf(Loud(t.edge, ticks, threshold), Ticked(t.edge, ticks), t.published)
  {
    hide Decay, FromStore, StoredPass, Cleared, Pending, Loud, Ticked, Pendings;
    var before := StoredPassEach(t, ticks - 1, threshold, up);
    if ticks == 1 {
      NoTicks(t, threshold, up);
    } else {
      FirstTelling(t, ticks - 1, threshold, up);
    }
    assert before == Told(Ticked(t.edge, ticks - 1), t.published);
    ResentmentNeverFadesTickByTick(t, ticks - 1, threshold, up);
    StoredTick(before, threshold, up);
    StoredIsBounded(t.edge);
    TickedOnceMore(t.edge, ticks - 1);
    LoudNext(t.edge, ticks, threshold);
  }

  lemma LoudNext(e: Edge, ticks: nat, threshold: nat)
    requires Bounded(e) && ticks > 0
    ensures Loud(e, ticks, threshold) <==> Pending(Decay(Ticked(e, ticks - 1), 1)) >= threshold
  {
  }

  lemma {:induction false} LogGrows(t: Told, m: nat, n: nat, threshold: nat, up: int -> bool)
    requires m <= n
    ensures StoredPassEach(t, m, threshold, up).published <= StoredPassEach(t, n, threshold, up).published
  {
    hide Decay, Stored, Pending;
    if m < n { LogGrows(t, m, n - 1, threshold, up); }
  }

  // An edge that is told and has nothing left to cool stays silent.
  lemma {:induction false} ColdStaysSilent(t: Told, k: nat, ticks: nat, threshold: nat, up: int -> bool)
    requires FromStore(t.edge) && threshold > RESENTMENT_RATE && k <= ticks && Cold(t.edge, k)
    requires StoredPassEach(t, k, threshold, up).edge == Cleared(Ticked(t.edge, k))
    ensures StoredPassEach(t, ticks, threshold, up)
            == Told(Cleared(Ticked(t.edge, ticks)), StoredPassEach(t, k, threshold, up).published)
  {
    hide Decay, FromStore, StoredPass, Cleared, Pending, Ticked, Pendings;
    if k < ticks {
      var before := StoredPassEach(t, ticks - 1, threshold, up);
      ColdStaysSilent(t, k, ticks - 1, threshold, up);
      ResentmentNeverFadesTickByTick(t, ticks - 1, threshold, up);
      StoredTick(before, threshold, up);
      StoredIsBounded(t.edge);
      SilentWhenCold(t.edge, ticks - 1);
    }
  }

  lemma SilentWhenCold(e: Edge, ticks: nat)
    requires Bounded(e) && Cold(e, ticks)
    ensures Pending(Decay(Cleared(Ticked(e, ticks)), 1)) <= RESENTMENT_RATE
    ensures Ticked(Cleared(Ticked(e, ticks)), 1) == Cleared(Ticked(e, ticks + 1))
  {
  }

  lemma ColdIsAsLoud(e: Edge, k: nat, ticks: nat, threshold: nat)
    requires Bounded(e) && k <= ticks && Cold(e, k)
    ensures Cold(e, ticks) && (Loud(e, ticks, threshold) <==> Loud(e, k, threshold))
    ensures Pendings(Ticked(e, ticks)) == Pendings(Ticked(e, k))
  {
  }

  lemma StillCooling(e: Edge, k: nat, ticks: nat)
    requires Bounded(e) && k < ticks && !Cold(e, k)
    ensures Pendings(Ticked(e, ticks)) != Pendings(Ticked(e, k))
  {
  }

  // A warm edge with a loss of 0.075 to tell: one batch of twenty ticks publishes all of its cooling, while single
  // ticks publish at the seventeenth and leave the rest to wait.
  lemma PublishedTooEarly(up: int -> bool)
    ensures var t := Told(WarmEdge(), []);
            && FromStore(t.edge) && Lossless(t.edge, 20, up)
            && StoredPass(t, 20, 80_000, up).edge.intimacy == Scalar(494_000, 0)
            && StoredPassEach(t, 20, 80_000, up).edge.intimacy == Scalar(494_000, -900)
  {
    hide *;
    var t := Told(WarmEdge(), []);
    WarmBatch(up);
    assert StoredPassEach(t, 20, 80_000, up).edge.intimacy == Scalar(494_000, -900) by {
      WarmEdgeCools();
      TwoTellings(t, 17, 3, 80_000, up);
    }
  }

  lemma WarmBatch(up: int -> bool)
    ensures var t := Told(WarmEdge(), []);
            FromStore(t.edge) && Lossless(t.edge, 20, up) && StoredPass(t, 20, 80_000, up).edge.intimacy == Scalar(494_000, 0)
  {
    hide StoredPass, FromStore, Stored, Decay, Fade, Pending, Cleared, Ticked, Pendings, WarmEdge, Lossless, Loud;
    var e := WarmEdge();
    WarmEdgeCools();
    NothingToLose(e, 20, up);
    BatchTellsOfStored(Told(e, []), 20, 80_000, up);
    StoredBatch(e, 20, up);
  }

  // Told once, and then silent.
  lemma TwoTellings(t: Told, m: nat, n: nat, threshold: nat, up: int -> bool)
    requires FromStore(t.edge) && m > 0 && n > 0
    requires (forall j :: 1 <= j < m ==> !Loud(t.edge, j, threshold)) && Loud(t.edge, m, threshold)
    requires var f := Cleared(Ticked(t.edge, m)); FromStore(f) && forall j :: 1 <= j <= n ==> !Loud(f, j, threshold)
    ensures StoredPassEach(t, m + n, threshold, up).edge == Ticked(Cleared(Ticked(t.edge, m)), n)
  {
    hide StoredPass, FromStore, StoredPassEach, Cleared, Ticked, Pendings, Loud;
    FirstTelling(t, m, threshold, up);
    var told := StoredPassEach(t, m, threshold, up);
    FirstTelling(told, n, threshold, up);
    EachOfEach(t, m, n, threshold, up);
  }

  function WarmEdge(): Edge {
    Edge(Scalar(0, 0), Scalar(500_000, -75_000), Scalar(0, 0), Scalar(0, 0), Scalar(0, 0), 0)
  }

  lemma WarmEdgeCools()
    ensures var e := WarmEdge(); var f := Cleared(Ticked(e, 17));
            && FromStore(e) && FromStore(f) && e.resentment.value == 0
            && Pending(Decay(e, 20)) >= 80_000 && Cleared(Ticked(e, 20)).intimacy == Scalar(494_000, 0)
            && (forall j :: 1 <= j < 17 ==> !Loud(e, j, 80_000)) && Loud(e, 17, 80_000)
            && (forall j :: 1 <= j <= 3 ==> !Loud(f, j, 80_000)) && Ticked(f, 3).intimacy == Scalar(494_000, -900)
  {
  }

  lemma {:induction false} EachOfEach(t: Told, m: nat, n: nat, threshold: nat, up: int -> bool)
    ensures StoredPassEach(StoredPassEach(t, m, threshold, up), n, threshold, up) == StoredPassEach(t, m + n, threshold, up)
  {
    hide StoredPass;
    if n > 0 { EachOfEach(t, m, n - 1, threshold, up); }
  }
}
