// What every belief an actor derives rests on.
module BeliefGrounds {
  import opened Prelude
  import opened Orders
  import opened Beliefs

  // Said on the edges and emotions alone: which slot each of them supports, from which value on, and how firmly.
  // A slot is a kind and a person, written with a bar between them.

  // The person of an edge that is missing or nameless is written as a dash.
  ghost predicate Named(edges: map<string, Dimensions>, id: string, x: string) {
    id in edges && x == if id == "" then "-" else id
  }

  // No other edge has a name that is written the same.
  ghost predicate Alone(edges: map<string, Dimensions>, id: string, x: string) {
    Named(edges, id, x) && forall other :: Named(edges, other, x) ==> other == id
  }

  ghost predicate ThreatTo(edges: map<string, Dimensions>, id: string, x: string) {
    Named(edges, id, x) && edges[id].resentment >= 0.3
  }

  ghost predicate SupportedBy(edges: map<string, Dimensions>, id: string, x: string) {
    Named(edges, id, x) && edges[id].trust >= 0.25 && edges[id].intimacy >= 0.15
  }

  ghost predicate GratefulTo(e: Emotion, x: string) {
    e.kind == "gratitude" && e.intensity >= 0.7 && e.target == Some(x) && x != ""
  }

  // The nearest number of ten-thousandths.
  ghost predicate Nearest(n: int, value: real) { -1.0 <= 2.0 * (n as real - 10000.0 * value) <= 1.0 }

  ghost function AtMostOne(value: real): real { if value > 1.0 then 1.0 else value }

  // ---------------------------------------------------------------- slots and their beliefs

  lemma KindOfSlot(b: Belief, kind: string, x: string)
    requires RuleKind(b.kind) && RuleKind(kind)
    ensures Slot(b) == kind + "|" + x <==> b.kind == kind && AboutText(b.about) == x
  {
    hide Partition, AboutText;
    KindsHaveNoBar(kind);
    PartitionAtFirstBar(kind, x);
    SlotKinds(b);
  }

  lemma {:induction false} FromEdgesHolds(ids: seq<string>, edges: map<string, Dimensions>, b: Belief)
    requires forall id :: id in ids ==> id in edges
    ensures b in FromEdges(ids, edges) <==> exists id :: id in ids && b in FromEdge(id, edges[id])
  {
    hide FromEdge;
    if ids != [] {
      FromEdgesHolds(ids[1..], edges, b);
      assert ids == [ids[0]] + ids[1..];
    }
  }

  lemma {:induction false} FromEmotionsHolds(top: seq<Emotion>, b: Belief)
    ensures b in FromEmotions(top) <==> exists e :: e in top && b in FromEmotion(e)
  {
    hide FromEmotion;
    if top != [] {
      FromEmotionsHolds(top[1..], b);
      assert top == [top[0]] + top[1..];
    }
  }

  lemma DerivedHolds(edges: map<string, Dimensions>, top: seq<Emotion>, b: Belief)
    ensures b in DeriveBeliefs(edges, top)
            <==> (exists id :: id in edges && b in FromEdge(id, edges[id])) || (exists e :: e in top && b in FromEmotion(e))
  {
    hide FromEdge, FromEmotion;
    var ids := SortedSet(edges.Keys);
    SortedSetElements(edges.Keys);
    assert forall id :: id in ids <==> id in Elements(ids);
    FromEdgesHolds(ids, edges, b);
    FromEmotionsHolds(top, b);
  }

  lemma {:induction false} LastIsOne(derived: seq<Belief>, slot: string)
    requires Derivable(derived, slot)
    ensures exists b :: b in derived && Slot(b) == slot && b.confidence == LastConfidence(derived, slot)
  {
    hide Slot;
    var last := derived[|derived| - 1];
    if Slot(last) == slot {
      assert last in derived;
    } else {
      var init := derived[..|derived| - 1];
      LastIsOne(init, slot);
      var b :| b in init && Slot(b) == slot && b.confidence == LastConfidence(init, slot);
      assert b in derived;
    }
  }

  lemma RoundedIsNearest(value: real)
    ensures Nearest(Round4(value), value)
  {
  }

  // ---------------------------------------------------------------- threats

  lemma ThreatBelief(id: string, d: Dimensions, b: Belief)
    ensures b in FromEdge(id, d) && b.kind == THREAT
            <==> d.resentment >= 0.3 && b == Belief(THREAT, Round4(AtMostOne(d.resentment)), Some(id))
    ensures b in FromEdge(id, d) && b.kind == SUPPORTER
            <==> d.trust >= 0.25 && d.intimacy >= 0.15
                 && b == Belief(SUPPORTER, Round4(AtMostOne((d.trust + d.intimacy) / 2.0)), Some(id))
    ensures b in FromEdge(id, d) ==> b.kind == THREAT || b.kind == SUPPORTER
  {
    hide Round4;
    assert |THREAT| == 6 && |SUPPORTER| == 9;
    assert (d.trust + d.intimacy) / 2.0 == 0.5 * d.trust + 0.5 * d.intimacy;
  }

  lemma EmotionBelief(e: Emotion, b: Belief)
    ensures b in FromEmotion(e) <==> exists x :: GratefulTo(e, x) && b == Belief(FELT_SUPPORT, Round4(e.intensity), Some(x))
  {
    hide Round4;
    if b in FromEmotion(e) { assert GratefulTo(e, e.target.value); }
  }

  // The slots of three kinds, and what holds a belief in each of them.
  lemma HeldBy(edges: map<string, Dimensions>, top: seq<Emotion>, b: Belief)
    requires b in DeriveBeliefs(edges, top)
    ensures RuleKind(b.kind)
    ensures b.kind == THREAT ==> exists id :: ThreatTo(edges, id, AboutText(b.about))
                                           && b.confidence == Round4(AtMostOne(edges[id].resentment))
    ensures b.kind == SUPPORTER ==>
              exists id :: SupportedBy(edges, id, AboutText(b.about))
                           && b.confidence == Round4(AtMostOne((edges[id].trust + edges[id].intimacy) / 2.0))
    ensures b.kind == FELT_SUPPORT ==> exists e :: e in top && GratefulTo(e, AboutText(b.about))
  {
    hide Round4, DeriveBeliefs, FromEdge, FromEmotion;
    assert |THREAT| == 6 && |SUPPORTER| == 9 && |FELT_SUPPORT| == 12;
    DerivedHolds(edges, top, b);
    if id :| id in edges && b in FromEdge(id, edges[id]) {
      ThreatBelief(id, edges[id], b);
      if b.kind == THREAT {
        assert ThreatTo(edges, id, AboutText(b.about));
      } else {
        assert SupportedBy(edges, id, AboutText(b.about));
      }
    } else {
      var e :| e in top && b in FromEmotion(e);
      EmotionBelief(e, b);
    }
  }

  // A threat slot is derived from the resentment toward its person alone.
  lemma ThreatsAreResented(edges: map<string, Dimensions>, top: seq<Emotion>, x: string)
    ensures Derivable(DeriveBeliefs(edges, top), "threat|" + x) <==> exists id :: ThreatTo(edges, id, x)
  {
    hide Round4, DeriveBeliefs, FromEdge, FromEmotion, Slot, AboutText;
    var derived := DeriveBeliefs(edges, top);
    if Derivable(derived, "threat|" + x) {
      var b :| b in derived && Slot(b) == "threat|" + x;
      HeldBy(edges, top, b);
      KindOfSlot(b, THREAT, x);
    } else if id :| ThreatTo(edges, id, x) {
      var b := Belief(THREAT, Round4(AtMostOne(edges[id].resentment)), Some(id));
      ThreatBelief(id, edges[id], b);
      DerivedHolds(edges, top, b);
      SlotNamed(THREAT, b.confidence, id);
    }
  }

  lemma SlotNamed(kind: string, confidence: int, id: string)
    ensures Slot(Belief(kind, confidence, Some(id))) == kind + "|" + if id == "" then "-" else id
  {
  }

  // A supporter slot is derived from trust and intimacy alone.
  lemma SupportersAreTrusted(edges: map<string, Dimensions>, top: seq<Emotion>, x: string)
    ensures Derivable(DeriveBeliefs(edges, top), "supporter|" + x) <==> exists id :: SupportedBy(edges, id, x)
  {
    hide Round4, DeriveBeliefs, FromEdge, FromEmotion, Slot, AboutText;
    var derived := DeriveBeliefs(edges, top);
    if Derivable(derived, "supporter|" + x) {
      var b :| b in derived && Slot(b) == "supporter|" + x;
      HeldBy(edges, top, b);
      KindOfSlot(b, SUPPORTER, x);
    } else if id :| SupportedBy(edges, id, x) {
      var b := Belief(SUPPORTER, Round4(AtMostOne((edges[id].trust + edges[id].intimacy) / 2.0)), Some(id));
      ThreatBelief(id, edges[id], b);
      DerivedHolds(edges, top, b);
      SlotNamed(SUPPORTER, b.confidence, id);
    }
  }

  // A slot of felt support is derived from strong gratitude to its person alone.
  lemma FeltSupportIsGratitude(edges: map<string, Dimensions>, top: seq<Emotion>, x: string)
    ensures Derivable(DeriveBeliefs(edges, top), "felt_support|" + x) <==> exists e :: e in top && GratefulTo(e, x)
  {
    hide Round4, DeriveBeliefs, FromEdge, FromEmotion, Slot, AboutText;
    var derived := DeriveBeliefs(edges, top);
    if Derivable(derived, "felt_support|" + x) {
      var b :| b in derived && Slot(b) == "felt_support|" + x;
      HeldBy(edges, top, b);
      KindOfSlot(b, FELT_SUPPORT, x);
    } else if e :| e in top && GratefulTo(e, x) {
      var b := Belief(FELT_SUPPORT, Round4(e.intensity), Some(x));
      EmotionBelief(e, b);
      DerivedHolds(edges, top, b);
      SlotNamed(FELT_SUPPORT, b.confidence, x);
    }
  }

  // Nothing else is derived.
  lemma OnlyThreeKinds(edges: map<string, Dimensions>, top: seq<Emotion>, slot: string)
    requires Derivable(DeriveBeliefs(edges, top), slot)
    ensures exists x :: slot == "threat|" + x || slot == "supporter|" + x || slot == "felt_support|" + x
  {
    hide DeriveBeliefs, AboutText;
    var b :| b in DeriveBeliefs(edges, top) && Slot(b) == slot;
    HeldBy(edges, top, b);
    var x := AboutText(b.about);
    assert slot == b.kind + "|" + x;
    assert THREAT + "|" == "threat|" && SUPPORTER + "|" == "supporter|" && FELT_SUPPORT + "|" == "felt_support|";
    assert slot == "threat|" + x || slot == "supporter|" + x || slot == "felt_support|" + x;
  }

  // ---------------------------------------------------------------- how firmly

  lemma ThreatConfidence(edges: map<string, Dimensions>, top: seq<Emotion>, id: string, x: string)
    requires Alone(edges, id, x) && edges[id].resentment >= 0.3
    ensures Derivable(DeriveBeliefs(edges, top), "threat|" + x)
    ensures LastConfidence(DeriveBeliefs(edges, top), "threat|" + x) == Round4(AtMostOne(edges[id].resentment))
  {
    hide Round4, DeriveBeliefs, Slot, AboutText, LastConfidence;
    var derived, slot := DeriveBeliefs(edges, top), "threat|" + x;
    assert ThreatTo(edges, id, x);
    ThreatsAreResented(edges, top, x);
    LastIsOne(derived, slot);
    var b :| b in derived && Slot(b) == slot && b.confidence == LastConfidence(derived, slot);
    HeldBy(edges, top, b);
    KindOfSlot(b, THREAT, x);
  }

  // The confidence of a threat is the resentment itself, up to one.
  lemma ThreatIsAsFirmAsResentment(edges: map<string, Dimensions>, top: seq<Emotion>, id: string, x: string)
    requires Alone(edges, id, x) && edges[id].resentment >= 0.3
    ensures Derivable(DeriveBeliefs(edges, top), "threat|" + x)
    ensures Nearest(LastConfidence(DeriveBeliefs(edges, top), "threat|" + x), AtMostOne(edges[id].resentment))
  {
    var value := AtMostOne(edges[id].resentment);
    hide *;
    ThreatConfidence(edges, top, id, x);
    RoundedIsNearest(value);
  }

  lemma SupportConfidence(edges: map<string, Dimensions>, top: seq<Emotion>, id: string, x: string)
    requires Alone(edges, id, x) && edges[id].trust >= 0.25 && edges[id].intimacy >= 0.15
    ensures Derivable(DeriveBeliefs(edges, top), "supporter|" + x)
    ensures LastConfidence(DeriveBeliefs(edges, top), "supporter|" + x)
            == Round4(AtMostOne((edges[id].trust + edges[id].intimacy) / 2.0))
  {
    hide Round4, DeriveBeliefs, Slot, AboutText, LastConfidence;
    var derived, slot := DeriveBeliefs(edges, top), "supporter|" + x;
    assert SupportedBy(edges, id, x);
    SupportersAreTrusted(edges, top, x);
    LastIsOne(derived, slot);
    var b :| b in derived && Slot(b) == slot && b.confidence == LastConfidence(derived, slot);
    HeldBy(edges, top, b);
    KindOfSlot(b, SUPPORTER, x);
  }

  // The confidence of a supporter is half of trust and intimacy together, up to one.
  lemma SupportIsAsFirmAsTrust(edges: map<string, Dimensions>, top: seq<Emotion>, id: string, x: string)
    requires Alone(edges, id, x) && edges[id].trust >= 0.25 && edges[id].intimacy >= 0.15
    ensures Derivable(DeriveBeliefs(edges, top), "supporter|" + x)
    ensures Nearest(LastConfidence(DeriveBeliefs(edges, top), "supporter|" + x), AtMostOne((edges[id].trust + edges[id].intimacy) / 2.0))
  {
    var value := AtMostOne((edges[id].trust + edges[id].intimacy) / 2.0);
    hide *;
    SupportConfidence(edges, top, id, x);
    RoundedIsNearest(value);
  }

  lemma FirmerIsFirmer(v: real, v': real)
    requires v <= v'
    ensures Round4(AtMostOne(v)) <= Round4(AtMostOne(v'))
  {
  }

  // Whatever else of the edge, the other edges and the emotions changes: more resentment never loses a threat and
  // never makes one less firm. With as much resentment on both sides, the threat is the same.
  lemma ThreatsGrowWithResentment(edges: map<string, Dimensions>, top: seq<Emotion>, edges': map<string, Dimensions>, top': seq<Emotion>,
                                  id: string, x: string)
    requires Alone(edges, id, x) && Alone(edges', id, x) && edges[id].resentment <= edges'[id].resentment
    requires Derivable(DeriveBeliefs(edges, top), "threat|" + x)
    ensures Derivable(DeriveBeliefs(edges', top'), "threat|" + x)
    ensures LastConfidence(DeriveBeliefs(edges, top), "threat|" + x) <= LastConfidence(DeriveBeliefs(edges', top'), "threat|" + x)
  {
    hide Round4, DeriveBeliefs, LastConfidence, Derivable, AtMostOne;
    ThreatsAreResented(edges, top, x);
    ThreatConfidence(edges, top, id, x);
    ThreatConfidence(edges', top', id, x);
    FirmerIsFirmer(edges[id].resentment, edges'[id].resentment);
  }

  // Likewise for trust and intimacy and the supporter, which resentment never touches.
  lemma SupportGrowsWithTrust(edges: map<string, Dimensions>, top: seq<Emotion>, edges': map<string, Dimensions>, top': seq<Emotion>,
                              id: string, x: string)
    requires Alone(edges, id, x) && Alone(edges', id, x)
    requires edges[id].trust <= edges'[id].trust && edges[id].intimacy <= edges'[id].intimacy
    requires Derivable(DeriveBeliefs(edges, top), "supporter|" + x)
    ensures Derivable(DeriveBeliefs(edges', top'), "supporter|" + x)
    ensures LastConfidence(DeriveBeliefs(edges, top), "supporter|" + x) <= LastConfidence(DeriveBeliefs(edges', top'), "supporter|" + x)
  {
    hide Round4, DeriveBeliefs, LastConfidence, Derivable, AtMostOne;
    SupportersAreTrusted(edges, top, x);
    SupportConfidence(edges, top, id, x);
    SupportConfidence(edges', top', id, x);
    FirmerIsFirmer((edges[id].trust + edges[id].intimacy) / 2.0, (edges'[id].trust + edges'[id].intimacy) / 2.0);
  }

  lemma {:induction false} LastOfConcat(a: seq<Belief>, b: seq<Belief>, slot: string)
    requires Derivable(a + b, slot)
    ensures Derivable(b, slot) ==> LastConfidence(a + b, slot) == LastConfidence(b, slot)
    ensures !Derivable(b, slot) ==> Derivable(a, slot) && LastConfidence(a + b, slot) == LastConfidence(a, slot)
    decreases |b|
  {
    hide Slot;
    if b == [] {
      assert a + b == a;
    } else {
      var init := b[..|b| - 1];
      assert (a + b)[..|a + b| - 1] == a + init;
      assert (a + b)[|a + b| - 1] == b[|b| - 1] && b[|b| - 1] in b;
      if Slot(b[|b| - 1]) != slot {
        var held :| held in a + b && Slot(held) == slot;
        assert held in a + init;
        LastOfConcat(a, init, slot);
        assert Derivable(b, slot) <==> Derivable(init, slot) by { assert b == init + [b[|b| - 1]]; }
      }
    }
  }

  lemma FeltIn(top: seq<Emotion>, x: string)
    ensures Derivable(FromEmotions(top), "felt_support|" + x) <==> exists e :: e in top && GratefulTo(e, x)
  {
    hide FromEmotions, FromEdge, FromEmotion, FromEdges, Derivable, SortedSet;
    var none: map<string, Dimensions> := map[];
    FeltSupportIsGratitude(none, top, x);
    NoEdges(top);
  }

  lemma NoEdges(top: seq<Emotion>)
    ensures DeriveBeliefs(map[], top) == FromEmotions(top)
  {
    SortedSetEmpty();
    var none: map<string, Dimensions> := map[];
    assert none.Keys == {};
  }

  lemma {:induction false} LatestGratitude(top: seq<Emotion>, i: nat, x: string)
    requires i < |top| && GratefulTo(top[i], x) && forall k :: i < k < |top| ==> !GratefulTo(top[k], x)
    ensures Derivable(FromEmotions(top), "felt_support|" + x)
    ensures LastConfidence(FromEmotions(top), "felt_support|" + x) == Round4(top[i].intensity)
  {
    hide Slot, Derivable, LastConfidence, Round4;
    var slot := "felt_support|" + x;
    FeltIn(top, x);
    LastOfConcat(FromEmotion(top[0]), FromEmotions(top[1..]), slot);
    if i == 0 {
      FeltIn(top[1..], x);
      OnlyOne(Belief(FELT_SUPPORT, Round4(top[0].intensity), Some(x)), slot) by { SlotNamed(FELT_SUPPORT, Round4(top[0].intensity), x); }
    } else {
      assert forall k :: i - 1 < k < |top[1..]| ==> top[1..][k] == top[k + 1];
      LatestGratitude(top[1..], i - 1, x);
    }
  }

  lemma OnlyOne(b: Belief, slot: string)
    requires Slot(b) == slot
    ensures Derivable([b], slot) && LastConfidence([b], slot) == b.confidence
  {
    assert b in [b];
  }

  // Felt support is as firm as the latest of the strongest emotions that gives it.
  lemma FeltSupportIsAsFirmAsGratitude(edges: map<string, Dimensions>, top: seq<Emotion>, i: nat, x: string)
    requires i < |top| && GratefulTo(top[i], x) && forall k :: i < k < |top| ==> !GratefulTo(top[k], x)
    ensures Derivable(DeriveBeliefs(edges, top), "felt_support|" + x)
    ensures Nearest(LastConfidence(DeriveBeliefs(edges, top), "felt_support|" + x), top[i].intensity)
  {
    hide Slot, Derivable, LastConfidence, Round4, FromEdges, FromEmotions, Nearest;
    FeltSupportIsGratitude(edges, top, x);
    SortedSetElements(edges.Keys);
    assert forall id :: id in SortedSet(edges.Keys) ==> id in Elements(SortedSet(edges.Keys));
    LatestGratitude(top, i, x);
    LastOfConcat(FromEdges(SortedSet(edges.Keys), edges), FromEmotions(top), "felt_support|" + x);
    RoundedIsNearest(top[i].intensity);
  }

  // ---------------------------------------------------------------- what the ledger says

  // Live, and less than a restatement away from what it is worth.
  ghost predicate Says(ledger: Ledger, slot: string, value: real) {
    slot in ledger && ledger[slot] >= FLOOR && -1500.0 < ledger[slot] as real - 10000.0 * AtMostOne(value) < 1500.0
  }

  lemma SlotsOfRules(x: string)
    ensures RuleSlot("threat|" + x) && RuleSlot("supporter|" + x)
  {
    hide Partition;
    KindsHaveNoBar(THREAT);
    KindsHaveNoBar(SUPPORTER);
    PartitionAtFirstBar(THREAT, x);
    PartitionAtFirstBar(SUPPORTER, x);
    assert THREAT + "|" == "threat|" && SUPPORTER + "|" == "supporter|";
  }

  lemma ExactlySays(ledger: Ledger, derived: seq<Belief>, slot: string, value: real)
    requires Exact(ledger, derived, RESTATE_DELTA) && RuleSlot(slot)
    requires Derivable(derived, slot) ==> LastConfidence(derived, slot) == Round4(AtMostOne(value))
    ensures if Derivable(derived, slot) then Says(ledger, slot, value) else Quiet(ledger, slot)
  {
    hide Derivable, LastConfidence, RuleSlot;
    RoundedIsNearest(AtMostOne(value));
  }

  lemma SaysThreat(ledger: Ledger, edges: map<string, Dimensions>, top: seq<Emotion>, id: string, x: string)
    requires Exact(ledger, DeriveBeliefs(edges, top), RESTATE_DELTA) && Alone(edges, id, x)
    ensures if edges[id].resentment >= 0.3 then Says(ledger, "threat|" + x, edges[id].resentment) else Quiet(ledger, "threat|" + x)
  {
    hide DeriveBeliefs, LastConfidence, Exact, Quiet, Says, Derivable, RuleSlot, AtMostOne, Round4;
    SlotsOfRules(x);
    ThreatsAreResented(edges, top, x);
    if edges[id].resentment >= 0.3 { ThreatConfidence(edges, top, id, x); }
    ExactlySays(ledger, DeriveBeliefs(edges, top), "threat|" + x, edges[id].resentment);
  }

  lemma SaysSupporter(ledger: Ledger, edges: map<string, Dimensions>, top: seq<Emotion>, id: string, x: string)
    requires Exact(ledger, DeriveBeliefs(edges, top), RESTATE_DELTA) && Alone(edges, id, x)
    ensures var d := edges[id];
            if d.trust >= 0.25 && d.intimacy >= 0.15 then Says(ledger, "supporter|" + x, (d.trust + d.intimacy) / 2.0)
            else Quiet(ledger, "supporter|" + x)
  {
    hide DeriveBeliefs, LastConfidence, Exact, Quiet, Says, Derivable, RuleSlot, AtMostOne, Round4;
    var d := edges[id];
    SlotsOfRules(x);
    SupportersAreTrusted(edges, top, x);
    if d.trust >= 0.25 && d.intimacy >= 0.15 { SupportConfidence(edges, top, id, x); }
    ExactlySays(ledger, DeriveBeliefs(edges, top), "supporter|" + x, (d.trust + d.intimacy) / 2.0);
  }

  // After every reflection of every history, the ledger calls a person a threat exactly when resentment has reached
  // 0.3, and a supporter exactly when trust and intimacy have reached 0.25 and 0.15, each about as firmly as they
  // stand; anyone else is absent from the slot, or an ember in it.
  lemma LedgerAnswersToTheEdge(history: seq<Reflection>, id: string, x: string)
    requires ValidHistory(history) && history != [] && Alone(history[|history| - 1].edges, id, x)
    ensures var ledger, d := After(history, RESTATE_DELTA), history[|history| - 1].edges[id];
            && (if d.resentment >= 0.3 then Says(ledger, "threat|" + x, d.resentment) else Quiet(ledger, "threat|" + x))
            && (if d.trust >= 0.25 && d.intimacy >= 0.15 then Says(ledger, "supporter|" + x, (d.trust + d.intimacy) / 2.0)
                else Quiet(ledger, "supporter|" + x))
  {
    hide *;
    var edges, top := history[|history| - 1].edges, history[|history| - 1].top;
    var ledger := After(history, RESTATE_DELTA);
    LedgerIsAlwaysExact(history);
    assert Exact(ledger, DeriveBeliefs(edges, top), RESTATE_DELTA) by { ReflectedLast(history); }
    SaysThreat(ledger, edges, top, id, x);
    SaysSupporter(ledger, edges, top, id, x);
  }

  lemma ReflectedLast(history: seq<Reflection>)
    requires history != []
    ensures DerivedLast(history) == DeriveBeliefs(history[|history| - 1].edges, history[|history| - 1].top)
  {
    hide DeriveBeliefs;
  }
}
