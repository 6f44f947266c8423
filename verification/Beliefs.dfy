// Beliefs derived from emotional and relational state, and the ledger of what was published.
module Beliefs {
  import opened Prelude
  import opened Orders
  import LineMatch

  // Confidences are counted in ten-thousandths. A belief is published again only when it moved by at
  // least `delta` since it was last published; a published belief that can no longer be derived is
  // published once more with an ember of confidence.

  const RESTATE_DELTA := 1500
  const RETRACTED := 500
  const FLOOR := 2000        // no derivation rule yields less

  const SUPPORTER := "supporter"
  const THREAT := "threat"
  const FELT_SUPPORT := "felt_support"
  const SELF_IMAGE := "self_image"
  const WORLD_VIEW := "world_view"
  const PERSON_INSIGHT := "person_insight"

  predicate RuleKind(kind: string) { kind == SUPPORTER || kind == THREAT || kind == FELT_SUPPORT }

  predicate InsightKind(kind: string) { kind == SELF_IMAGE || kind == WORLD_VIEW || kind == PERSON_INSIGHT }

  datatype Belief = Belief(kind: string, confidence: int, about: Option<string>)
  datatype Dimensions = Dimensions(trust: real, intimacy: real, resentment: real)
  datatype Emotion = Emotion(kind: string, intensity: real, target: Option<string>)

  // ---------------------------------------------------------------- slots

  function AboutText(about: Option<string>): string {
    if about.None? || about.value == "" then "-" else about.value
  }

  function Slot(b: Belief): string { b.kind + "|" + AboutText(b.about) }

  // Splits at the first bar; without one everything is the kind.
  function Partition(s: string): (r: (string, string)) {
    if s == "" then ("", "")
    else if s[0] == '|' then ("", s[1..])
    else
      var (kind, about) := Partition(s[1..]);
      ([s[0]] + kind, about)
  }

  lemma {:induction false} PartitionAtFirstBar(kind: string, about: string)
    requires '|' !in kind
    ensures Partition(kind + "|" + about) == (kind, about)
  {
    var s := kind + "|" + about;
    if kind == "" {
      assert s[1..] == about;
    } else {
      assert s[0] == kind[0] && s[1..] == kind[1..] + "|" + about;
      PartitionAtFirstBar(kind[1..], about);
      assert kind == [kind[0]] + kind[1..];
    }
  }

  predicate RuleSlot(slot: string) { RuleKind(Partition(slot).0) }

  lemma KindsAreApart(kind: string)
    ensures RuleKind(kind) ==> !InsightKind(kind)
  {
    if RuleKind(kind) { assert |kind| == 9 || |kind| == 6 || |kind| == 12; }
    if InsightKind(kind) { assert |kind| == 10 || |kind| == 14; }
  }

  lemma KindsHaveNoBar(kind: string)
    requires RuleKind(kind) || InsightKind(kind)
    ensures '|' !in kind
  {
  }

  lemma SlotKinds(b: Belief)
    ensures RuleKind(b.kind) ==> Partition(Slot(b)) == (b.kind, AboutText(b.about)) && RuleSlot(Slot(b))
    ensures InsightKind(b.kind) ==> Partition(Slot(b)).0 == b.kind && !RuleSlot(Slot(b))
  {
    hide RuleKind, InsightKind, AboutText, Partition;
    if RuleKind(b.kind) || InsightKind(b.kind) {
      KindsHaveNoBar(b.kind);
      KindsAreApart(b.kind);
      PartitionAtFirstBar(b.kind, AboutText(b.about));
    }
  }

  // ---------------------------------------------------------------- derivation

  // Nearest ten-thousandth.
  function Round4(x: real): int { (x * 10000.0 + 0.5).Floor }

  function MinReal(a: real, b: real): real { if a <= b then a else b }

  function FromEdge(id: string, d: Dimensions): seq<Belief> {
    (if d.trust >= 0.25 && d.intimacy >= 0.15
     then [Belief(SUPPORTER, Round4(MinReal(1.0, 0.5 * d.trust + 0.5 * d.intimacy)), Some(id))] else [])
    + (if d.resentment >= 0.3 then [Belief(THREAT, Round4(MinReal(1.0, d.resentment)), Some(id))] else [])
  }

  function FromEmotion(e: Emotion): seq<Belief> {
    if e.kind == "gratitude" && e.intensity >= 0.7 && e.target.Some? && e.target.value != ""
    then [Belief(FELT_SUPPORT, Round4(e.intensity), e.target)] else []
  }

  function FromEdges(ids: seq<string>, edges: map<string, Dimensions>): seq<Belief>
    requires forall id :: id in ids ==> id in edges
  {
    if ids == [] then [] else FromEdge(ids[0], edges[ids[0]]) + FromEdges(ids[1..], edges)
  }

  function FromEmotions(top: seq<Emotion>): seq<Belief> {
    if top == [] then [] else FromEmotion(top[0]) + FromEmotions(top[1..])
  }

  // What the current state supports: edges in id order, then the strongest emotions.
  ghost function DeriveBeliefs(edges: map<string, Dimensions>, top: seq<Emotion>): seq<Belief> {
    SortedSetElements(edges.Keys);
    assert forall id :: id in SortedSet(edges.Keys) ==> id in Elements(SortedSet(edges.Keys));
    FromEdges(SortedSet(edges.Keys), edges) + FromEmotions(top)
  }

  ghost predicate RuleBeliefs(bs: seq<Belief>) {
    forall b :: b in bs ==> RuleKind(b.kind) && b.confidence >= FLOOR
  }

  lemma {:induction false} FromEdgesAboveFloor(ids: seq<string>, edges: map<string, Dimensions>)
    requires forall id :: id in ids ==> id in edges
    ensures RuleBeliefs(FromEdges(ids, edges))
  {
    if ids != [] {
      FromEdgesAboveFloor(ids[1..], edges);
    }
  }

  lemma {:induction false} FromEmotionsAboveFloor(top: seq<Emotion>)
    ensures RuleBeliefs(FromEmotions(top))
  {
    if top != [] {
      FromEmotionsAboveFloor(top[1..]);
    }
  }

  // Every derivable belief is a rule belief of at least the floor confidence.
  lemma DerivedAboveFloor(edges: map<string, Dimensions>, top: seq<Emotion>)
    ensures RuleBeliefs(DeriveBeliefs(edges, top))
  {
    SortedSetElements(edges.Keys);
    assert forall id :: id in SortedSet(edges.Keys) ==> id in Elements(SortedSet(edges.Keys));
    FromEdgesAboveFloor(SortedSet(edges.Keys), edges);
    FromEmotionsAboveFloor(top);
  }

  // ---------------------------------------------------------------- one reflection

  type Ledger = map<string, int>

  function Abs(x: int): int { if x >= 0 then x else -x }

  predicate Changed(ledger: Ledger, b: Belief, delta: int) {
    Slot(b) !in ledger || Abs(b.confidence - ledger[Slot(b)]) >= delta
  }

  function Publish(ledger: Ledger, b: Belief, delta: int): Ledger {
    if Changed(ledger, b, delta) then ledger[Slot(b) := b.confidence] else ledger
  }

  function PublishAll(ledger: Ledger, bs: seq<Belief>, delta: int): Ledger {
    if bs == [] then ledger else Publish(PublishAll(ledger, bs[..|bs| - 1], delta), bs[|bs| - 1], delta)
  }

  ghost predicate Derivable(derived: seq<Belief>, slot: string) {
    exists b :: b in derived && Slot(b) == slot
  }

  function SlotsOf(bs: seq<Belief>): set<string> { set b | b in bs :: Slot(b) }

  function Retraction(slot: string): Belief {
    var (kind, about) := Partition(slot);
    Belief(kind, RETRACTED, if about == "-" then None else Some(about))
  }

  // Embers for the published rule slots that are not alive any more.
  function RetractStale(slots: seq<string>, alive: set<string>): seq<Belief> {
    if slots == [] then []
    else
      (if RuleSlot(slots[0]) && slots[0] !in alive then [Retraction(slots[0])] else [])
      + RetractStale(slots[1..], alive)
  }

  // Rule beliefs first, then the embers, then at most one insight.
  ghost function Pairs(ledger: Ledger, derived: seq<Belief>, insight: Option<Belief>): seq<Belief> {
    derived + RetractStale(SortedSet(ledger.Keys), SlotsOf(derived))
    + if insight.Some? then [insight.value] else []
  }

  ghost function Reflect(ledger: Ledger, derived: seq<Belief>, insight: Option<Belief>, delta: int): Ledger {
    PublishAll(ledger, Pairs(ledger, derived, insight), delta)
  }

  // The beliefs that were worth an event, in order.
  function PublishedOf(ledger: Ledger, bs: seq<Belief>, delta: int): seq<Belief> {
    if bs == [] then []
    else
      var init, last := bs[..|bs| - 1], bs[|bs| - 1];
      PublishedOf(ledger, init, delta) + if Changed(PublishAll(ledger, init, delta), last, delta) then [last] else []
  }

  function RecordAll(ledger: Ledger, events: seq<Belief>): Ledger {
    if events == [] then ledger
    else RecordAll(ledger, events[..|events| - 1])[Slot(events[|events| - 1]) := events[|events| - 1].confidence]
  }

  // The ledger is nothing but the last published value of every slot: replaying the events rebuilds it.
  lemma {:induction false} LedgerIsTheReplayOfItsEvents(ledger: Ledger, bs: seq<Belief>, delta: int)
    ensures RecordAll(ledger, PublishedOf(ledger, bs, delta)) == PublishAll(ledger, bs, delta)
  {
    if bs != [] {
      var init, last := bs[..|bs| - 1], bs[|bs| - 1];
      LedgerIsTheReplayOfItsEvents(ledger, init, delta);
      var before := PublishedOf(ledger, init, delta);
      if Changed(PublishAll(ledger, init, delta), last, delta) {
        assert (before + [last])[..|before|] == before;
      } else {
        assert before + [] == before;
      }
    }
  }

  // ---------------------------------------------------------------- the status of the ledger

  // Every rule slot is readable, and holds a live value or an ember.
  ghost predicate Readable(ledger: Ledger) {
    forall slot :: slot in ledger && RuleSlot(slot) ==>
      Slot(Retraction(slot)) == slot && (ledger[slot] >= FLOOR || ledger[slot] == RETRACTED)
  }

  ghost function LastConfidence(derived: seq<Belief>, slot: string): int
    requires Derivable(derived, slot)
  {
    if Slot(derived[|derived| - 1]) == slot then derived[|derived| - 1].confidence
    else
      assert forall b :: b in derived && Slot(b) == slot ==> b in derived[..|derived| - 1];
      LastConfidence(derived[..|derived| - 1], slot)
  }

  // A derivable slot is live and less than one restatement away from its latest confidence. Distances are decimal;
  // the source's, in binary fractions, may fall short of an exact restatement and leave the slot that far behind.
  ghost predicate Current(ledger: Ledger, derived: seq<Belief>, slot: string, delta: int)
    requires Derivable(derived, slot)
  {
    slot in ledger && ledger[slot] >= FLOOR && Abs(ledger[slot] - LastConfidence(derived, slot)) < Max(delta, 1)
  }

  ghost predicate Quiet(ledger: Ledger, slot: string) { slot !in ledger || ledger[slot] == RETRACTED }

  // The ledger says exactly what can be derived.
  ghost predicate Exact(ledger: Ledger, derived: seq<Belief>, delta: int) {
    forall slot :: RuleSlot(slot) ==> if Derivable(derived, slot) then Current(ledger, derived, slot, delta) else Quiet(ledger, slot)
  }

  lemma RetractionSlot(b: Belief)
    requires RuleKind(b.kind)
    ensures Slot(Retraction(Slot(b))) == Slot(b)
  {
    SlotKinds(b);
  }

  lemma {:induction false} PublishLeavesOthers(ledger: Ledger, bs: seq<Belief>, delta: int, slot: string)
    requires forall b :: b in bs ==> Slot(b) != slot
    ensures slot in PublishAll(ledger, bs, delta) <==> slot in ledger
    ensures slot in ledger ==> PublishAll(ledger, bs, delta)[slot] == ledger[slot]
  {
    if bs != [] {
      PublishLeavesOthers(ledger, bs[..|bs| - 1], delta, slot);
      assert bs[|bs| - 1] in bs;
    }
  }

  lemma {:induction false} PublishAllConcat(ledger: Ledger, a: seq<Belief>, b: seq<Belief>, delta: int)
    ensures PublishAll(ledger, a + b, delta) == PublishAll(PublishAll(ledger, a, delta), b, delta)
  {
    if b == [] {
      assert a + b == a;
    } else {
      assert (a + b)[..|a + b| - 1] == a + b[..|b| - 1];
      PublishAllConcat(ledger, a, b[..|b| - 1], delta);
    }
  }

  // Publishing the derived beliefs makes every one of their slots live and current.
  lemma {:induction false} DerivedBecomeLive(ledger: Ledger, derived: seq<Belief>, slot: string, delta: int)
    requires delta <= FLOOR - RETRACTED
    requires RuleBeliefs(derived) && Derivable(derived, slot)
    requires slot in ledger ==> ledger[slot] >= FLOOR || ledger[slot] == RETRACTED
    ensures var l := PublishAll(ledger, derived, delta);
            Current(l, derived, slot, delta)
    decreases |derived|
  {
    var init, last := derived[..|derived| - 1], derived[|derived| - 1];
    assert last in derived && forall b :: b in init ==> b in derived;
    if Derivable(init, slot) {
      DerivedBecomeLive(ledger, init, slot, delta);
    } else {
      PublishLeavesOthers(ledger, init, delta, slot);
      assert Slot(last) == slot;
    }
  }

  lemma {:induction false} RetractStaleContents(slots: seq<string>, alive: set<string>)
    ensures forall b :: b in RetractStale(slots, alive) ==>
              exists slot :: slot in slots && RuleSlot(slot) && slot !in alive && b == Retraction(slot)
    ensures forall slot :: slot in slots && RuleSlot(slot) && slot !in alive ==> Retraction(slot) in RetractStale(slots, alive)
  {
    if slots != [] {
      RetractStaleContents(slots[1..], alive);
      assert slots == [slots[0]] + slots[1..];
    }
  }

  // Embers reach exactly the stale slots.
  lemma {:induction false} EmbersSettle(ledger: Ledger, embers: seq<Belief>, slot: string, delta: int)
    requires delta <= FLOOR - RETRACTED
    requires forall b :: b in embers ==> b.confidence == RETRACTED
    requires slot in ledger && (ledger[slot] >= FLOOR || ledger[slot] == RETRACTED)
    requires exists b :: b in embers && Slot(b) == slot
    ensures slot in PublishAll(ledger, embers, delta) && PublishAll(ledger, embers, delta)[slot] == RETRACTED
    decreases |embers|
  {
    var init, last := embers[..|embers| - 1], embers[|embers| - 1];
    assert last in embers;
    if exists b :: b in init && Slot(b) == slot {
      EmbersSettle(ledger, init, slot, delta);
    } else {
      PublishLeavesOthers(ledger, init, delta, slot);
      assert Slot(last) == slot;
    }
  }

  // The slots that can no longer be derived end up absent or at the ember, whatever came before.
  lemma StaleAreRetracted(ledger: Ledger, derived: seq<Belief>, slot: string, delta: int)
    requires delta <= FLOOR - RETRACTED
    requires Readable(ledger) && RuleSlot(slot) && !Derivable(derived, slot)
    ensures var embers := RetractStale(SortedSet(ledger.Keys), SlotsOf(derived));
            var l := PublishAll(PublishAll(ledger, derived, delta), embers, delta);
            slot !in l || l[slot] == RETRACTED
  {
    hide Partition, Slot;
    var slots, alive := SortedSet(ledger.Keys), SlotsOf(derived);
    var embers := RetractStale(slots, alive);
    PublishLeavesOthers(ledger, derived, delta, slot);
    SortedSetElements(ledger.Keys);
    RetractStaleContents(slots, alive);
    if slot in ledger {
      assert slot in Elements(slots);
      assert Slot(Retraction(slot)) == slot;
      EmbersSettle(PublishAll(ledger, derived, delta), embers, slot, delta);
    } else {
      forall b | b in embers ensures Slot(b) != slot {
        var other :| other in slots && RuleSlot(other) && other !in alive && b == Retraction(other);
        assert other in Elements(slots);
      }
      PublishLeavesOthers(PublishAll(ledger, derived, delta), embers, delta, slot);
    }
  }

  // Retractions leave alone what was just derived.
  lemma EmbersSpareTheLiving(ledger: Ledger, derived: seq<Belief>, slot: string)
    requires Readable(ledger) && Derivable(derived, slot)
    ensures forall b :: b in RetractStale(SortedSet(ledger.Keys), SlotsOf(derived)) ==> Slot(b) != slot
  {
    hide Partition, Slot;
    var slots, alive := SortedSet(ledger.Keys), SlotsOf(derived);
    SortedSetElements(ledger.Keys);
    RetractStaleContents(slots, alive);
    forall b | b in RetractStale(slots, alive) ensures Slot(b) != slot {
      var other :| other in slots && RuleSlot(other) && other !in alive && b == Retraction(other);
      assert other in Elements(slots);
    }
  }

  lemma InsightsTouchNoRuleSlot(ledger: Ledger, insight: Option<Belief>, delta: int, slot: string)
    requires RuleSlot(slot) && (insight.Some? ==> InsightKind(insight.value.kind))
    ensures var l := PublishAll(ledger, if insight.Some? then [insight.value] else [], delta);
            (slot in l <==> slot in ledger) && (slot in ledger ==> l[slot] == ledger[slot])
  {
    hide Partition, Slot, InsightKind;
    if insight.Some? { SlotKinds(insight.value); }
    PublishLeavesOthers(ledger, if insight.Some? then [insight.value] else [], delta, slot);
  }

  lemma ReflectionInThreeParts(ledger: Ledger, derived: seq<Belief>, insight: Option<Belief>, delta: int)
    ensures Reflect(ledger, derived, insight, delta)
            == PublishAll(PublishAll(PublishAll(ledger, derived, delta),
                                     RetractStale(SortedSet(ledger.Keys), SlotsOf(derived)), delta),
                          if insight.Some? then [insight.value] else [], delta)
  {
    var embers := RetractStale(SortedSet(ledger.Keys), SlotsOf(derived));
    PublishAllConcat(ledger, derived + embers, if insight.Some? then [insight.value] else [], delta);
    PublishAllConcat(ledger, derived, embers, delta);
  }

  // One reflection makes the ledger exact, and leaves it readable for the next one.
  lemma ReflectionIsExact(ledger: Ledger, derived: seq<Belief>, insight: Option<Belief>, delta: int)
    requires delta <= FLOOR - RETRACTED
    requires Readable(ledger) && RuleBeliefs(derived)
    requires insight.Some? ==> InsightKind(insight.value.kind)
    ensures Exact(Reflect(ledger, derived, insight, delta), derived, delta)
    ensures Readable(Reflect(ledger, derived, insight, delta))
  {
    hide Partition, Slot, RuleKind, InsightKind, Retraction, PublishAll, RuleSlot, Reflect;
    var result := Reflect(ledger, derived, insight, delta);
    var embers := RetractStale(SortedSet(ledger.Keys), SlotsOf(derived));
    var l1 := PublishAll(ledger, derived, delta);
    var l2 := PublishAll(l1, embers, delta);
    ReflectionInThreeParts(ledger, derived, insight, delta);
    forall slot | RuleSlot(slot)
      ensures if Derivable(derived, slot) then Current(result, derived, slot, delta) else Quiet(result, slot)
      ensures slot in result ==> Slot(Retraction(slot)) == slot
    {
      InsightsTouchNoRuleSlot(l2, insight, delta, slot);
      if Derivable(derived, slot) {
        DerivedBecomeLive(ledger, derived, slot, delta);
        EmbersSpareTheLiving(ledger, derived, slot);
        PublishLeavesOthers(l1, embers, delta, slot);
        var b :| b in derived && Slot(b) == slot;
        RetractionSlot(b);
      } else {
        StaleAreRetracted(ledger, derived, slot, delta);
        PublishedWasThere(ledger, derived, embers, slot, delta);
      }
    }
  }

  // An insight ends up in its slot, less than a restatement away from what it says, and exactly as it says if it is new
  // or has moved enough. No other slot that is not a rule's changes.
  lemma InsightIsTold(ledger: Ledger, derived: seq<Belief>, insight: Belief, delta: int)
    requires RuleBeliefs(derived) && InsightKind(insight.kind)
    ensures var l, slot := Reflect(ledger, derived, Some(insight), delta), Slot(insight);
            && slot in l && Abs(l[slot] - insight.confidence) < Max(delta, 1)
            && (slot !in ledger || Abs(insight.confidence - ledger[slot]) >= delta ==> l[slot] == insight.confidence)
            && (slot in ledger && Abs(insight.confidence - ledger[slot]) < delta ==> l[slot] == ledger[slot])
            && forall other :: !RuleSlot(other) && other != slot ==>
                 (other in l <==> other in ledger) && (other in ledger ==> l[other] == ledger[other])
  {
    hide Partition, Slot, RuleKind, InsightKind, Retraction, RuleSlot, Reflect, PublishAll;
    var slots, alive, slot := SortedSet(ledger.Keys), SlotsOf(derived), Slot(insight);
    var embers := RetractStale(slots, alive);
    ReflectionInThreeParts(ledger, derived, Some(insight), delta);
    SlotKinds(insight);
    var l1 := PublishAll(ledger, derived, delta);
    var l2 := PublishAll(l1, embers, delta);
    forall other | !RuleSlot(other)
      ensures (other in l2 <==> other in ledger) && (other in ledger ==> l2[other] == ledger[other])
    {
      RulesTouchRuleSlots(ledger, derived, other);
      PublishLeavesOthers(ledger, derived, delta, other);
      PublishLeavesOthers(l1, embers, delta, other);
    }
    LastPublished(l2, insight, delta);
    forall other | other != slot
      ensures var l := PublishAll(l2, [insight], delta); (other in l <==> other in l2) && (other in l2 ==> l[other] == l2[other])
    {
      PublishLeavesOthers(l2, [insight], delta, other);
    }
  }

  lemma LastPublished(ledger: Ledger, b: Belief, delta: int)
    ensures PublishAll(ledger, [b], delta) == Publish(ledger, b, delta)
  {
    assert [b][..0] == [];
  }

  lemma RulesTouchRuleSlots(ledger: Ledger, derived: seq<Belief>, slot: string)
    requires RuleBeliefs(derived) && !RuleSlot(slot)
    ensures forall b :: b in derived ==> Slot(b) != slot
    ensures forall b :: b in RetractStale(SortedSet(ledger.Keys), SlotsOf(derived)) ==> Slot(b) != slot
  {
    hide Partition, Slot, RuleKind, InsightKind, Retraction;
    forall b | b in derived ensures Slot(b) != slot { SlotKinds(b); }
    RetractStaleContents(SortedSet(ledger.Keys), SlotsOf(derived));
    forall b | b in RetractStale(SortedSet(ledger.Keys), SlotsOf(derived)) ensures Slot(b) != slot {
      var other :| other in SortedSet(ledger.Keys) && RuleSlot(other) && b == Retraction(other);
      RetractedSlot(other);
    }
  }

  lemma RetractedSlot(slot: string)
    requires RuleSlot(slot)
    ensures RuleSlot(Slot(Retraction(slot)))
  {
    hide Partition;
    SlotKinds(Retraction(slot));
  }

  // A slot that is not derivable is only in the ledger if it was there before.
  lemma PublishedWasThere(ledger: Ledger, derived: seq<Belief>, embers: seq<Belief>, slot: string, delta: int)
    requires delta <= FLOOR - RETRACTED
    requires Readable(ledger) && RuleSlot(slot) && !Derivable(derived, slot)
    requires embers == RetractStale(SortedSet(ledger.Keys), SlotsOf(derived))
    ensures slot in PublishAll(PublishAll(ledger, derived, delta), embers, delta) ==> slot in ledger
  {
    hide Partition, Slot;
    PublishLeavesOthers(ledger, derived, delta, slot);
    if slot !in ledger {
      SortedSetElements(ledger.Keys);
      RetractStaleContents(SortedSet(ledger.Keys), SlotsOf(derived));
      forall b | b in embers ensures Slot(b) != slot {
        var other :| other in SortedSet(ledger.Keys) && RuleSlot(other) && b == Retraction(other);
        assert other in Elements(SortedSet(ledger.Keys));
      }
      PublishLeavesOthers(PublishAll(ledger, derived, delta), embers, delta, slot);
    }
  }

  // ---------------------------------------------------------------- whole histories

  datatype Reflection = Reflection(edges: map<string, Dimensions>, top: seq<Emotion>, insight: Option<Belief>)

  ghost predicate ValidHistory(history: seq<Reflection>) {
    forall r :: r in history && r.insight.Some? ==> InsightKind(r.insight.value.kind)
  }

  ghost function After(history: seq<Reflection>, delta: int): Ledger {
    if history == [] then map[]
    else
      var r := history[|history| - 1];
      Reflect(After(history[..|history| - 1], delta), DeriveBeliefs(r.edges, r.top), r.insight, delta)
  }

  lemma NothingIsReadable()
    ensures Readable(map[])
  {
  }

  lemma {:induction false} HistoryKeepsReadable(history: seq<Reflection>, delta: int)
    requires delta <= FLOOR - RETRACTED && ValidHistory(history)
    ensures Readable(After(history, delta))
  {
    hide Readable, Exact, Reflect, DeriveBeliefs;
    if history == [] {
      NothingIsReadable();
    } else {
      var r := history[|history| - 1];
      HistoryKeepsReadable(history[..|history| - 1], delta);
      DerivedAboveFloor(r.edges, r.top);
      assert r in history;
      ReflectionIsExact(After(history[..|history| - 1], delta), DeriveBeliefs(r.edges, r.top), r.insight, delta);
    }
  }

  ghost function DerivedLast(history: seq<Reflection>): seq<Belief>
    requires history != []
  {
    DeriveBeliefs(history[|history| - 1].edges, history[|history| - 1].top)
  }

  // After every reflection of every history, the ledger is exact about the state just reflected on.
  lemma LedgerIsExactAfter(history: seq<Reflection>, delta: int)
    requires delta <= FLOOR - RETRACTED && ValidHistory(history) && history != []
    ensures Exact(After(history, delta), DerivedLast(history), delta)
  {
    hide Readable, Exact, Reflect, DeriveBeliefs;
    var r := history[|history| - 1];
    HistoryKeepsReadable(history[..|history| - 1], delta);
    DerivedAboveFloor(r.edges, r.top);
    assert r in history;
    ReflectionIsExact(After(history[..|history| - 1], delta), DeriveBeliefs(r.edges, r.top), r.insight, delta);
  }

  // With the program's constants: live means derivable, and live values are within 0.15 of the last one.
  lemma LedgerIsAlwaysExact(history: seq<Reflection>)
    requires ValidHistory(history) && history != []
    ensures Exact(After(history, RESTATE_DELTA), DerivedLast(history), RESTATE_DELTA)
  {
    hide Exact, After;
    LedgerIsExactAfter(history, RESTATE_DELTA);
  }

  // ---------------------------------------------------------------- the constants are tight

  lemma {:induction false} SmallMovesAreSilent(ledger: Ledger, bs: seq<Belief>, delta: int, slot: string)
    requires slot in ledger && forall b :: b in bs && Slot(b) == slot ==> Abs(b.confidence - ledger[slot]) < delta
    ensures slot in PublishAll(ledger, bs, delta) && PublishAll(ledger, bs, delta)[slot] == ledger[slot]
  {
    if bs != [] {
      SmallMovesAreSilent(ledger, bs[..|bs| - 1], delta, slot);
      assert bs[|bs| - 1] in bs;
    }
  }

  const FaintFriend := Dimensions(0.25, 0.15, 0.0)

  // The weakest supporter there can be, met once and then gone.
  const Fading := [Reflection(map["a" := FaintFriend], [], None), Reflection(map[], [], None)]

  lemma NothingDerivedFromNothing()
    ensures DeriveBeliefs(map[], []) == []
  {
    SortedSetEmpty();
    var none: map<string, Dimensions> := map[];
    assert none.Keys == {};
  }

  lemma OnlyTheFriendDerived()
    ensures DeriveBeliefs(map["a" := FaintFriend], []) == [Belief(SUPPORTER, FLOOR, Some("a"))]
  {
    var ids := SortedSet({"a"});
    SortedSetElements({"a"});
    assert "a" in Elements(ids);
    assert ids == ["a"] by {
      assert forall id :: id in ids ==> id in Elements(ids);
    }
    assert map["a" := FaintFriend].Keys == {"a"};
    assert Round4(MinReal(1.0, 0.5 * 0.25 + 0.5 * 0.15)) == FLOOR;
    assert FromEdge("a", FaintFriend) == [Belief(SUPPORTER, FLOOR, Some("a"))];
    assert ids[1..] == [] && FromEdges([], map["a" := FaintFriend]) == [];
  }

  lemma FriendIsPublished(delta: int)
    ensures var slot := Slot(Belief(SUPPORTER, FLOOR, Some("a")));
            slot in After(Fading[..1], delta) && After(Fading[..1], delta)[slot] == FLOOR
  {
    hide Slot, Partition, DeriveBeliefs;
    var b := Belief(SUPPORTER, FLOOR, Some("a"));
    OnlyTheFriendDerived();
    assert Fading[..1][..0] == [] && After([], delta) == map[];
    ReflectionInThreeParts(map[], [b], None, delta);
    var embers := RetractStale(SortedSet({}), SlotsOf([b]));
    SortedSetEmpty();
    var empty: Ledger := map[];
    assert embers == [] && empty.Keys == {};
    assert [b][..0] == [];
    assert PublishAll(map[], [b], delta) == map[Slot(b) := FLOOR];
  }

  lemma WiderDeltaLeavesItLive(delta: int)
    requires delta > FLOOR - RETRACTED
    ensures !Exact(After(Fading, delta), DerivedLast(Fading), delta)
  {
    hide Slot, Partition, DeriveBeliefs;
    var b := Belief(SUPPORTER, FLOOR, Some("a"));
    var slot, ledger := Slot(b), After(Fading[..1], delta);
    FriendIsPublished(delta);
    NothingDerivedFromNothing();
    SlotKinds(b);
    var embers := RetractStale(SortedSet(ledger.Keys), SlotsOf([]));
    RetractStaleContents(SortedSet(ledger.Keys), SlotsOf([]));
    ReflectionInThreeParts(ledger, [], None, delta);
    SmallMovesAreSilent(ledger, embers, delta, slot);
    assert After(Fading, delta) == Reflect(ledger, [], None, delta);
    assert !Derivable([], slot);
  }

  // The floor, the ember and the restatement threshold fit exactly: any threshold up to their distance
  // keeps every ledger exact, and no larger one does.
  lemma ExactExactlyUpToTheGap(delta: int)
    ensures (forall h :: ValidHistory(h) && h != [] ==> Exact(After(h, delta), DerivedLast(h), delta))
            <==> delta <= FLOOR - RETRACTED
  {
    hide Exact, After, DerivedLast;
    if delta <= FLOOR - RETRACTED {
      forall h | ValidHistory(h) && h != [] ensures Exact(After(h, delta), DerivedLast(h), delta) {
        LedgerIsExactAfter(h, delta);
      }
    } else {
      WiderDeltaLeavesItLive(delta);
    }
  }

  // ---------------------------------------------------------------- insights

  datatype Insight = Insight(statement: string, kind: string, about: Option<string>, confidence: Option<real>)

  predicate Blank(s: string) { forall i :: 0 <= i < |s| ==> LineMatch.Blank(s[i]) }

  // A model's answer, cut down to what the world knows; anything invalid is dropped.
  function InsightToBelief(output: Insight, known: set<string>): (r: Option<Belief>)
    ensures r.Some? ==> InsightKind(r.value.kind) && 0 < r.value.confidence <= 10000
    ensures r.Some? ==> (r.value.about.Some? <==> r.value.kind == PERSON_INSIGHT)
    ensures r.Some? && r.value.about.Some? ==> r.value.about.value in known
    ensures r.Some? ==> r.value.kind == output.kind && (r.value.about.Some? ==> r.value.about == output.about)
    ensures r.Some? <==> && (exists i :: 0 <= i < |output.statement| && !LineMatch.Blank(output.statement[i]))
                         && InsightKind(output.kind)
                         && (output.kind == PERSON_INSIGHT ==> output.about.Some? && output.about.value in known)
                         && output.confidence.Some? && output.confidence.value >= 0.00005
    ensures r.Some? ==> if output.confidence.value >= 1.0 then r.value.confidence == 10000
                        else -1.0 <= 2.0 * (r.value.confidence as real - 10000.0 * output.confidence.value) <= 1.0
  {
    if Blank(output.statement) || !InsightKind(output.kind) then None
    else
      var about := if output.about.Some? && output.about.value !in known then None else output.about;
      if output.kind == PERSON_INSIGHT && about.None? then None
      else if output.confidence.None? then None
      else
        var confidence := Max(0, Min(10000, Round4(output.confidence.value)));
        if confidence <= 0 then None
        else Some(Belief(output.kind, confidence, if output.kind == PERSON_INSIGHT then about else None))
  }

  // ---------------------------------------------------------------- the stored ledger

  class BeliefLedger {
    var slots: Ledger

    constructor ()
      ensures slots == map[]
    {
      slots := map[];
    }

    method HasChanged(b: Belief) returns (changed: bool)
      ensures changed <==> Changed(slots, b, RESTATE_DELTA)
    {
      var field := Slot(b);
      if field !in slots {
        return true;
      }
      var previous := slots[field];
      changed := Abs(b.confidence - previous) >= RESTATE_DELTA;
    }

    method Record(b: Belief)
      modifies this
      ensures slots == old(slots)[Slot(b) := b.confidence]
    {
      slots := slots[Slot(b) := b.confidence];
    }

    // The belief slots of one actor after one reflection. Returns what was published, in order.
    method ReflectOnce(edges: map<string, Dimensions>, top: seq<Emotion>, insight: Option<Belief>)
      returns (published: seq<Belief>)
      requires insight.Some? ==> InsightKind(insight.value.kind)
      requires Readable(slots)
      modifies this
      ensures slots == Reflect(old(slots), DeriveBeliefs(edges, top), insight, RESTATE_DELTA)
      ensures Exact(slots, DeriveBeliefs(edges, top), RESTATE_DELTA) && Readable(slots)
      ensures published == PublishedOf(old(slots), Pairs(old(slots), DeriveBeliefs(edges, top), insight), RESTATE_DELTA)
    {
      var ids := SortKeys(edges.Keys);
      SortedSetElements(edges.Keys);
      assert forall id :: id in ids ==> id in Elements(ids);
      var beliefs := FromEdges(ids, edges) + FromEmotions(top);
      ghost var derived := DeriveBeliefs(edges, top);
      assert beliefs == derived;
      var fields := SortKeys(slots.Keys);
      var pairs := beliefs + RetractStale(fields, SlotsOf(beliefs)) + if insight.Some? then [insight.value] else [];
      published := [];
      for i := 0 to |pairs|
        invariant slots == PublishAll(old(slots), pairs[..i], RESTATE_DELTA)
        invariant published == PublishedOf(old(slots), pairs[..i], RESTATE_DELTA)
      {
        assert pairs[..i + 1][..i] == pairs[..i];
        var changed := HasChanged(pairs[i]);
        if changed {
          Record(pairs[i]);
          published := published + [pairs[i]];
        }
      }
      assert pairs[..|pairs|] == pairs;
      DerivedAboveFloor(edges, top);
      ReflectionIsExact(old(slots), derived, insight, RESTATE_DELTA);
    }
  }
}
