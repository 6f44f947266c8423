// What one operation on the relationship edges stores, loses and tells.
module EdgeEffects {
  import opened Prelude
  import opened Orders
  import opened EdgeStore

  // Said on the stored edges alone: the value of every edge afterwards, and which edge had to go.

  // The state an operation starts from: the stored edge, or a fresh acquaintance.
  ghost function Before(s: Store, from: string, to: string): Edge {
    if (from, to) in s.edges then s.edges[(from, to)] else Edge(0, "acquaintance", 0)
  }

  // A new edge of a full actor costs the edge with the least salience, the first by id among equals.
  ghost predicate MakesRoom(s: Store, cap: nat, from: string, to: string, v: string) {
    && (from, to) !in s.edges && |Index(s, from)| >= cap && v != to && (from, v) in s.edges
    && forall c :: c != v && (from, c) in s.edges ==>
         var mine, other := s.edges[(from, v)].salience, s.edges[(from, c)].salience;
         mine < other || (mine == other && !StringLess(c, v))
  }

  // Nothing outside the touched edges is changed or made, and what is lost goes dormant.
  ghost predicate OnlyTouches(s: Store, s': Store, touched: set<(string, string)>, events: seq<Event>) {
    && (forall k :: k in s'.edges && k !in touched ==> k in s.edges && s'.edges[k] == s.edges[k])
    && (forall k :: k in s.edges && k !in s'.edges <==> Dormant(k.0, k.1) in events)
  }

  // ---------------------------------------------------------------- making sure of an edge

  ghost predicate MadeSure(s: Store, s1: Store, cap: nat, from: string, to: string, events: seq<Event>) {
    && OnlyTouches(s, s1, {}, events)
    && ((from, to) in s1.edges <==> (from, to) in s.edges)
    && (forall x :: x in events ==> x == Met(from, to) || (x.Dormant? && x.from == from && MakesRoom(s, cap, from, to, x.to)))
  }

  lemma WeakestMakesRoom(s: Store, cap: nat, from: string, to: string, v: string)
    requires InvAt(s, cap, from) && IsWeakest(s, from, v) && (from, to) !in s.edges && |Index(s, from)| >= cap && v != to
    ensures MakesRoom(s, cap, from, to, v)
  {
    hide StringLess;
    forall c | c != v && (from, c) in s.edges
      ensures var mine, other := s.edges[(from, v)].salience, s.edges[(from, c)].salience;
              mine < other || (mine == other && !StringLess(c, v))
    {
      assert c in Index(s, from);
    }
  }

  lemma SwappedMakesSure(s: Store, s1: Store, cap: nat, from: string, to: string, v: string, events: seq<Event>)
    requires InvAt(s, cap, from) && Swapped(s, s1, cap, from, to, v, events)
    ensures MadeSure(s, s1, cap, from, to, events)
  {
    hide IsWeakest, MakesRoom;
    WeakestMakesRoom(s, cap, from, to, v);
    WeakestIsIn(s, from, v);
  }

  lemma EnsuredMakesSure(s: Store, cap: nat, from: string, to: string)
    requires InvAt(s, cap, from) && cap >= 1
    ensures var (s1, e, events) := Ensured(s, cap, from, to);
            && MadeSure(s, s1, cap, from, to, events) && e == Before(s, from, to)
            && (forall a :: a != from ==> SameAt(s, s1, a))
  {
    hide Ensured, IsWeakest, MakesRoom, InvAt;
    EnsuredOutcome(s, cap, from, to);
    var (s1, e, events) := Ensured(s, cap, from, to);
    if v :| Swapped(s, s1, cap, from, to, v, events) {
      SwappedMakesSure(s, s1, cap, from, to, v, events);
    }
  }

  // ---------------------------------------------------------------- one edge changed

  // An interaction leaves the edge as the rule makes it from what was there, cleared if it is published, and tells
  // of the change exactly then. Every other edge stays, or makes room.
  lemma InteractionChangesOneEdge(s: Store, cap: nat, clear: Clear, from: string, to: string, rule: Edge -> Update)
    requires Inv(s, cap) && cap >= 1
    ensures var (s', events) := Interacted(s, cap, clear, from, to, rule);
            var u := rule(Before(s, from, to));
            && (from, to) in s'.edges && s'.edges[(from, to)] == (if u.publish then clear(u.edge) else u.edge)
            && OnlyTouches(s, s', {(from, to)}, events)
            && (forall v :: Dormant(from, v) in events ==> MakesRoom(s, cap, from, to, v))
            && (forall x :: x in events && x.Changed? <==> u.publish && x == Changed(from, to, clear(u.edge)))
  {
    hide Ensured, MakesRoom, InvAt, SameAt;
    assert InvAt(s, cap, from);
    EnsuredMakesSure(s, cap, from, to);
  }

  // An insight changes an edge that exists, and nothing else.
  lemma InsightChangesOneEdge(s: Store, from: string, to: string, rule: Edge -> Edge)
    ensures var s' := Insight(s, from, to, rule);
            && s'.edges.Keys == s.edges.Keys && s'.index == s.index
            && (forall k :: k in s.edges ==> s'.edges[k] == if k == (from, to) then rule(s.edges[k]) else s.edges[k])
  {
  }

  // ---------------------------------------------------------------- both directions changed

  lemma RoomInBoth(s: Store, s1: Store, cap: nat, from: string, to: string, v: string)
    requires SameAt(s, s1, from) && MakesRoom(s1, cap, from, to, v)
    ensures MakesRoom(s, cap, from, to, v)
  {
    hide StringLess;
  }

  lemma TwiceMadeSure(s: Store, s1: Store, s2: Store, cap: nat, a: string, b: string, met: seq<Event>, back: seq<Event>)
    requires a != b && MadeSure(s, s1, cap, a, b, met) && MadeSure(s1, s2, cap, b, a, back)
    requires SameAt(s, s1, b)
    ensures OnlyTouches(s, s2, {}, met + back)
    ensures forall x :: x in met + back ==> x.Met? || x.Dormant?
    ensures forall v :: Dormant(a, v) in met + back ==> MakesRoom(s, cap, a, b, v)
    ensures forall v :: Dormant(b, v) in met + back ==> MakesRoom(s, cap, b, a, v)
  {
    hide MakesRoom;
    forall k ensures k in s.edges && k !in s2.edges <==> Dormant(k.0, k.1) in met + back {
      if k in s2.edges {
        assert k in s1.edges && k in s.edges;
        assert Dormant(k.0, k.1) !in back && Dormant(k.0, k.1) !in met;
      }
      if Dormant(k.0, k.1) in back { assert k in s1.edges; }
    }
    forall v | Dormant(b, v) in met + back ensures MakesRoom(s, cap, b, a, v) {
      assert Dormant(b, v) in back;
      RoomInBoth(s, s1, cap, b, a, v);
    }
  }

  // A confession or a break leaves either direction's edge as it was, or fresh, with exactly its own side's new
  // stage, if any; every other edge stays, or makes room; a milestone is told exactly when there is a transition.
  lemma StageActionChangesTwoStages(s: Store, cap: nat, actor: string, target: string, decide: (Edge, Edge) -> Option<Transition>)
    requires Inv(s, cap) && cap >= 1 && actor != target
    ensures var (s', events) := StageActed(s, cap, actor, target, decide);
            var mine, theirs := Before(s, actor, target), Before(s, target, actor);
            var t := decide(mine, theirs);
            var own := if t.Some? && t.value.actorStage.Some? then t.value.actorStage.value else mine.stage;
            var other := if t.Some? && t.value.targetStage.Some? then t.value.targetStage.value else theirs.stage;
            && (actor, target) in s'.edges && s'.edges[(actor, target)] == Edge(mine.salience, own, mine.body)
            && (target, actor) in s'.edges && s'.edges[(target, actor)] == Edge(theirs.salience, other, theirs.body)
            && OnlyTouches(s, s', {(actor, target), (target, actor)}, events)
            && (forall v :: Dormant(actor, v) in events ==> MakesRoom(s, cap, actor, target, v))
            && (forall v :: Dormant(target, v) in events ==> MakesRoom(s, cap, target, actor, v))
            && (forall x :: x in events && x.Milestone? <==> t.Some? && x == Milestone(actor, target, own))
  {
    hide Ensured, MakesRoom, InvAt, MadeSure, SameAt;
    var (s1, mine, met) := Ensured(s, cap, actor, target);
    var (s2, theirs, back) := Ensured(s1, cap, target, actor);
    assert InvAt(s, cap, actor) && InvAt(s, cap, target);
    EnsuredMakesSure(s, cap, actor, target);
    assert SameAt(s, s1, target);
    SameIsInv(s, s1, cap, target);
    EnsuredMakesSure(s1, cap, target, actor);
    assert Before(s1, target, actor) == Before(s, target, actor) by { SameBefore(s, s1, target, actor); }
    TwiceMadeSure(s, s1, s2, cap, actor, target, met, back);
    MadeSureOf(s, s1, cap, actor, target, met);
    MadeSureOf(s1, s2, cap, target, actor, back);
  }

  lemma SameBefore(s: Store, s1: Store, from: string, to: string)
    requires SameAt(s, s1, from)
    ensures Before(s1, from, to) == Before(s, from, to)
  {
  }

  lemma MadeSureOf(s: Store, s1: Store, cap: nat, from: string, to: string, events: seq<Event>)
    requires MadeSure(s, s1, cap, from, to, events)
    ensures Dormant(from, to) !in events
    ensures forall a, v :: a != from ==> Dormant(a, v) !in events
  {
  }
}
