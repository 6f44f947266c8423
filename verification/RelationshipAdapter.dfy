// The adapter over the stored edges: it adds, removes and overwrites keys one by one, and ends where EdgeStore says.
module RelationshipAdapter {
  import opened Prelude
  import opened Orders
  import opened EdgeStore

  class Adapter {
    const cap: nat
    const clear: Clear
    var edges: map<(string, string), Edge>
    var index: map<string, set<string>>

    ghost function Now(): Store
      reads this
    {
      Store(edges, index)
    }

    constructor (cap: nat, clear: Clear)
      ensures Now() == Store(map[], map[]) && this.cap == cap && this.clear == clear
    {
      this.cap, this.clear, edges, index := cap, clear, map[], map[];
    }

    method Load(from: string, to: string) returns (e: Option<Edge>)
      ensures e == if (from, to) in edges then Some(edges[(from, to)]) else None
    {
      e := if (from, to) in edges then Some(edges[(from, to)]) else None;
    }

    method Save(from: string, to: string, e: Edge)
      modifies this`edges
      ensures Now() == Saved(old(Now()), from, to, e)
    {
      edges := edges[(from, to) := e];
    }

    method Counterparts(from: string) returns (ids: seq<string>)
      ensures ids == SortedSet(Index(Now(), from))
    {
      ids := SortKeys(if from in index then index[from] else {});
    }

    method RegisterEdge(from: string, to: string) returns (ghost dormant: seq<Event>)
      modifies this
      ensures (Now(), dormant) == Registered(old(Now()), cap, from, to)
    {
      hide SortedSet;
      dormant := [];
      index := index[from := (if from in index then index[from] else {}) + {to}];
      ghost var s1 := Now();
      assert s1 == Indexed(old(Now()), from, to);
      if |index[from]| <= cap {
        return;
      }
      var candidates := Counterparts(from);
      var weakest: Option<string>, least := None, 0;
      for i := 0 to |candidates|
        invariant Now() == s1
        invariant weakest == Weakest(s1, from, to, candidates[..i])
        invariant weakest.Some? ==> least == Salience(s1, from, weakest.value)
      {
        var c := candidates[i];
        assert candidates[..i + 1][..i] == candidates[..i];
        if c == to {
          continue;
        }
        var e := Load(from, c);
        var salience := if e.Some? then e.value.salience else 0;
        if weakest.None? || salience < least {
          weakest, least := Some(c), salience;
        }
      }
      assert candidates[..|candidates|] == candidates;
      if weakest.Some? {
        index := index[from := index[from] - {weakest.value}];
        edges := edges - {(from, weakest.value)};
        dormant := [Dormant(from, weakest.value)];
      }
    }

    method EnsureEdge(from: string, to: string) returns (e: Edge, met: bool, ghost events: seq<Event>)
      modifies this
      ensures (Now(), e, events) == Ensured(old(Now()), cap, from, to)
      ensures met <==> (from, to) !in old(edges)
      ensures forall x :: x in events ==> x.Met? || x.Dormant?
    {
      var stored := Load(from, to);
      if stored.Some? {
        return stored.value, false, [];
      }
      e := NewEdge();
      events := RegisterEdge(from, to);
      events := events + [Met(from, to)];
      met := true;
    }

    method RecordInteraction(from: string, to: string, rule: Edge -> Update)
      returns (met: bool, published: Option<Edge>, ghost events: seq<Event>)
      modifies this
      ensures (Now(), events) == Interacted(old(Now()), cap, clear, from, to, rule)
      ensures met <==> (from, to) !in old(edges)
      ensures forall e :: Changed(from, to, e) in events <==> published == Some(e)
    {
      hide Ensured;
      var e;
      e, met, events := EnsureEdge(from, to);
      var u := rule(e);
      published := None;
      var final := u.edge;
      if u.publish {
        final := clear(u.edge);
        published := Some(final);
        events := events + [Changed(from, to, final)];
        assert events[|events| - 1] == Changed(from, to, final);
      }
      Save(from, to, final);
    }

    method RecordStageAction(actor: string, target: string, decide: (Edge, Edge) -> Option<Transition>)
      returns (stage: Option<string>, ghost events: seq<Event>)
      modifies this
      ensures (Now(), events) == StageActed(old(Now()), cap, actor, target, decide)
      ensures forall st :: Milestone(actor, target, st) in events <==> stage == Some(st)
    {
      hide Ensured;
      var mine, theirs;
      var m0, m1;
      ghost var met, back;
      mine, m0, met := EnsureEdge(actor, target);
      theirs, m1, back := EnsureEdge(target, actor);
      events := met + back;
      stage := None;
      var t := decide(mine, theirs);
      if t.Some? {
        if t.value.actorStage.Some? {
          mine := mine.(stage := t.value.actorStage.value);
        }
        if t.value.targetStage.Some? {
          theirs := theirs.(stage := t.value.targetStage.value);
        }
        stage := Some(mine.stage);
        events := events + [Milestone(actor, target, mine.stage)];
        assert events[|events| - 1] == Milestone(actor, target, mine.stage);
      } else {
        assert met + back + [] == met + back;
      }
      Save(actor, target, mine);
      Save(target, actor, theirs);
    }

    method RecordInsight(from: string, to: string, rule: Edge -> Edge)
      modifies this`edges
      ensures Now() == Insight(old(Now()), from, to, rule)
    {
      var e := Load(from, to);
      if e.Some? {
        Save(from, to, rule(e.value));
      }
    }

    method DecayAll(from: string, rule: Edge -> Update) returns (events: seq<Event>)
      modifies this`edges
      ensures (Now(), events) == DecayedEdges(old(Now()), clear, from, rule, SortedSet(Index(old(Now()), from)))
    {
      events := [];
      var order := Counterparts(from);
      for i := 0 to |order|
        invariant (Now(), events) == DecayedEdges(old(Now()), clear, from, rule, order[..i])
      {
        hide SortedSet;
        assert order[..i + 1][..i] == order[..i];
        var e := Load(from, order[i]);
        if e.None? {
          continue;
        }
        var u := rule(e.value);
        var decayed := u.edge;
        if u.publish {
          decayed := clear(u.edge);
          events := events + [Changed(from, order[i], decayed)];
        }
        Save(from, order[i], decayed);
      }
      assert order[..|order|] == order;
    }
  }
}
