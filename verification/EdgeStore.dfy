// Relationship edges of actors: a capped index per actor over saved edge states, lowest salience evicted first.
module EdgeStore {
  import opened Prelude
  import opened Orders

  // Edge states are opaque apart from their salience and stage; `body` stands for the rest.
  datatype Edge = Edge(salience: int, stage: string, body: int)

  // An update rule yields the new state and whether its pending change is large enough to publish.
  datatype Update = Update(edge: Edge, publish: bool)

  // What stage_after_action decides: a milestone, and the stages of either side that change.
  datatype Transition = Transition(actorStage: Option<string>, targetStage: Option<string>)

  datatype Event =
    | Met(from: string, to: string)
    | Changed(from: string, to: string, edge: Edge)
    | Milestone(from: string, to: string, stage: string)
    | Dormant(from: string, to: string)

  // The stored keys: edge states, and the index of counterparts of every actor.
  datatype Store = Store(edges: map<(string, string), Edge>, index: map<string, set<string>>)

  function Index(s: Store, from: string): set<string> { if from in s.index then s.index[from] else {} }

  function NewEdge(): Edge { Edge(0, "acquaintance", 0) }

  // A published change leaves nothing pending.
  type Clear = Edge -> Edge

  function Salience(s: Store, from: string, to: string): int {
    if (from, to) in s.edges then s.edges[(from, to)].salience else 0
  }

  // The first of the candidates, other than `to`, with the least salience.
  function Weakest(s: Store, from: string, to: string, candidates: seq<string>): Option<string> {
    if candidates == [] then None
    else
      var best := Weakest(s, from, to, candidates[..|candidates| - 1]);
      var c := candidates[|candidates| - 1];
      if c == to then best
      else if best.None? || Salience(s, from, c) < Salience(s, from, best.value) then Some(c) else best
  }

  function Indexed(s: Store, from: string, to: string): Store {
    s.(index := s.index[from := Index(s, from) + {to}])
  }

  function Removed(s: Store, from: string, to: string): Store {
    Store(s.edges - {(from, to)}, s.index[from := Index(s, from) - {to}])
  }

  // Adds a counterpart, and drops the weakest other one when there are too many.
  ghost function Registered(s: Store, cap: nat, from: string, to: string): (Store, seq<Event>) {
    var s1 := Indexed(s, from, to);
    var weakest := Weakest(s1, from, to, SortedSet(Index(s1, from)));
    if |Index(s1, from)| <= cap || weakest.None? then (s1, [])
    else (Removed(s1, from, weakest.value), [Dormant(from, weakest.value)])
  }

  ghost function Ensured(s: Store, cap: nat, from: string, to: string): (Store, Edge, seq<Event>) {
    if (from, to) in s.edges then (s, s.edges[(from, to)], [])
    else
      var (s1, events) := Registered(s, cap, from, to);
      (s1, NewEdge(), events + [Met(from, to)])
  }

  function Saved(s: Store, from: string, to: string, e: Edge): Store { s.(edges := s.edges[(from, to) := e]) }

  // An interaction or an emotion changes one edge, creating it if need be.
  ghost function Interacted(s: Store, cap: nat, clear: Clear, from: string, to: string, rule: Edge -> Update): (Store, seq<Event>) {
    var (s1, e, events) := Ensured(s, cap, from, to);
    var u := rule(e);
    if u.publish then (Saved(s1, from, to, clear(u.edge)), events + [Changed(from, to, clear(u.edge))])
    else (Saved(s1, from, to, u.edge), events)
  }

  function Staged(e: Edge, stage: Option<string>): Edge { if stage.Some? then e.(stage := stage.value) else e }

  // A confession or a break changes the stages of both directions.
  ghost function StageActed(s: Store, cap: nat, actor: string, target: string, decide: (Edge, Edge) -> Option<Transition>)
    : (Store, seq<Event>)
  {
    var (s1, mine, met) := Ensured(s, cap, actor, target);
    var (s2, theirs, metBack) := Ensured(s1, cap, target, actor);
    var t := decide(mine, theirs);
    var mine' := if t.Some? then Staged(mine, t.value.actorStage) else mine;
    var theirs' := if t.Some? then Staged(theirs, t.value.targetStage) else theirs;
    (Saved(Saved(s2, actor, target, mine'), target, actor, theirs'),
     met + metBack + if t.Some? then [Milestone(actor, target, mine'.stage)] else [])
  }

  // An insight about someone changes an edge that exists, and never makes one.
  function Insight(s: Store, from: string, to: string, rule: Edge -> Edge): Store {
    if (from, to) in s.edges then Saved(s, from, to, rule(s.edges[(from, to)])) else s
  }

  // Time passes for the edges of one actor, in the given order.
  function DecayedEdges(s: Store, clear: Clear, from: string, rule: Edge -> Update, order: seq<string>): (Store, seq<Event>) {
    if order == [] then (s, [])
    else
      var (s1, events) := DecayedEdges(s, clear, from, rule, order[..|order| - 1]);
      var to := order[|order| - 1];
      if (from, to) !in s1.edges then (s1, events)
      else
        var u := rule(s1.edges[(from, to)]);
        if u.publish then (Saved(s1, from, to, clear(u.edge)), events + [Changed(from, to, clear(u.edge))])
        else (Saved(s1, from, to, u.edge), events)
  }

  // ---------------------------------------------------------------- runs of operations

  datatype Step =
    | Interact(from: string, to: string, rule: Edge -> Update)
    | StageAct(actor: string, target: string, decide: (Edge, Edge) -> Option<Transition>)
    | Reflect(from: string, to: string, insight: Edge -> Edge)
    | Decay(from: string, rule: Edge -> Update)

  // Actions never target their own actor.
  predicate Sensible(step: Step) { step.StageAct? ==> step.actor != step.target }

  ghost function Apply(s: Store, cap: nat, clear: Clear, step: Step): (Store, seq<Event>) {
    match step
    case Interact(from, to, rule) => Interacted(s, cap, clear, from, to, rule)
    case StageAct(actor, target, decide) => StageActed(s, cap, actor, target, decide)
    case Reflect(from, to, rule) => (Insight(s, from, to, rule), [])
    case Decay(from, rule) => DecayedEdges(s, clear, from, rule, SortedSet(Index(s, from)))
  }

  ghost function Run(cap: nat, clear: Clear, steps: seq<Step>): (Store, seq<Event>) {
    if steps == [] then (Store(map[], map[]), [])
    else
      var (s, events) := Run(cap, clear, steps[..|steps| - 1]);
      var (s', more) := Apply(s, cap, clear, steps[|steps| - 1]);
      (s', events + more)
  }

  // ---------------------------------------------------------------- the invariant

  // The index of an actor is the set of counterparts with a saved edge, and never exceeds the cap.
  ghost predicate InvAt(s: Store, cap: nat, a: string) {
    (forall b :: b in Index(s, a) <==> (a, b) in s.edges) && |Index(s, a)| <= cap
  }

  ghost predicate Inv(s: Store, cap: nat) { forall a :: InvAt(s, cap, a) }

  // The edges of an actor are the same in both stores.
  ghost predicate SameAt(s: Store, s': Store, a: string) {
    && Index(s', a) == Index(s, a)
    && forall b :: ((a, b) in s'.edges <==> (a, b) in s.edges) && ((a, b) in s.edges ==> s'.edges[(a, b)] == s.edges[(a, b)])
  }

  lemma {:induction false} WeakestIsLeast(s: Store, from: string, to: string, candidates: seq<string>)
    ensures var w := Weakest(s, from, to, candidates);
            && (w.None? <==> forall c :: c in candidates ==> c == to)
            && (w.Some? ==> w.value in candidates && w.value != to
                            && forall c :: c in candidates && c != to ==> Salience(s, from, w.value) <= Salience(s, from, c))
  {
    if candidates != [] {
      var init, c := candidates[..|candidates| - 1], candidates[|candidates| - 1];
      WeakestIsLeast(s, from, to, init);
      assert forall x :: x in candidates <==> x in init || x == c;
      assert c in candidates && forall x :: x in init ==> x in candidates;
    }
  }

  // Among equally weak counterparts the first id goes.
  lemma {:induction false} WeakestIsFirst(s: Store, from: string, to: string, candidates: seq<string>)
    requires StrictTotal(StringLess) && SortedBy(candidates, StringLess)
    ensures var w := Weakest(s, from, to, candidates);
            w.Some? ==> forall c :: c in candidates && c != to && StringLess(c, w.value) ==>
                          Salience(s, from, w.value) < Salience(s, from, c)
  {
    hide StringLess;
    if candidates != [] {
      var init, c := candidates[..|candidates| - 1], candidates[|candidates| - 1];
      WeakestIsFirst(s, from, to, init);
      WeakestIsLeast(s, from, to, init);
      assert forall x :: x in candidates <==> x in init || x == c;
      forall x | x in init ensures !StringLess(c, x) {
        var k :| 0 <= k < |init| && init[k] == x;
        assert candidates[k] == x;
      }
    }
  }

  // The counterpart that makes room for a new one.
  ghost predicate IsWeakest(s: Store, from: string, v: string) {
    && v in Index(s, from)
    && forall c :: c in Index(s, from) && c != v ==>
         Salience(s, from, v) < Salience(s, from, c) || (Salience(s, from, v) == Salience(s, from, c) && !StringLess(c, v))
  }

  // Registering a new counterpart drops at most one other: the weakest, and only when the index is full.
  lemma RegisteredMakesRoom(s: Store, cap: nat, from: string, to: string)
    requires InvAt(s, cap, from) && cap >= 1 && (from, to) !in s.edges
    ensures var (s', events) := Registered(s, cap, from, to);
            && (forall a :: a != from ==> SameAt(s, s', a))
            && if |Index(s, from)| < cap then events == [] && s'.edges == s.edges && Index(s', from) == Index(s, from) + {to}
               else exists v :: && IsWeakest(s, from, v) && v != to && events == [Dormant(from, v)]
                                && Index(s', from) == Index(s, from) + {to} - {v} && s'.edges == s.edges - {(from, v)}
  {
    hide SortedSet, StringLess, StrictTotal, SortedBy;
    var s1 := Indexed(s, from, to);
    var all := Index(s1, from);
    assert to !in Index(s, from) && |all| == |Index(s, from)| + 1;
    if |all| > cap {
      WeakestOfSet(s1, from, to, all);
      SomeoneElse(all, to);
      var v := Weakest(s1, from, to, SortedSet(all)).value;
      assert IsWeakest(s, from, v) by {
        assert forall c :: Salience(s1, from, c) == Salience(s, from, c);
      }
    }
  }

  lemma WeakestOfSet(s: Store, from: string, to: string, all: set<string>)
    ensures var w := Weakest(s, from, to, SortedSet(all));
            && (w.None? <==> forall c :: c in all ==> c == to)
            && (w.Some? ==> w.value in all && w.value != to)
            && (w.Some? ==> forall c :: c in all && c != to ==>
                  Salience(s, from, w.value) < Salience(s, from, c)
                  || (Salience(s, from, w.value) == Salience(s, from, c) && !StringLess(c, w.value)))
  {
    StringLessIsStrictTotal();
    SortedSetElements(all);
    SortSorts(Orders.Listed(all), StringLess);
    WeakestIsLeast(s, from, to, SortedSet(all));
    WeakestIsFirst(s, from, to, SortedSet(all));
    assert forall c :: c in SortedSet(all) <==> c in Elements(SortedSet(all));
  }

  lemma SomeoneElse(all: set<string>, to: string)
    requires to in all && |all| > 1
    ensures exists c :: c in all && c != to
  {
    assert |all - {to}| >= 1;
    var c :| c in all - {to};
  }

  // ---------------------------------------------------------------- one operation

  // Present edges of one actor, and what the events say about them.
  ghost predicate Balanced(s: Store, s': Store, events: seq<Event>) {
    forall a, b :: Balance(events, a, b) == Present(s', a, b) - Present(s, a, b)
  }

  ghost function Balance(events: seq<Event>, a: string, b: string): int {
    Count(events, Met(a, b)) - Count(events, Dormant(a, b))
  }

  ghost function Present(s: Store, a: string, b: string): int { if (a, b) in s.edges then 1 else 0 }

  lemma CountConcat<T>(xs: seq<T>, ys: seq<T>, x: T)
    ensures Count(xs + ys, x) == Count(xs, x) + Count(ys, x)
  {
    if ys == [] {
      assert xs + ys == xs;
    } else {
      assert (xs + ys)[..|xs + ys| - 1] == xs + ys[..|ys| - 1];
      CountConcat(xs, ys[..|ys| - 1], x);
    }
  }

  lemma CountOne<T>(x: T, y: T)
    ensures Count([y], x) == if x == y then 1 else 0
  {
    assert Count([y][..0], x) == 0;
  }

  lemma BalanceConcat(xs: seq<Event>, ys: seq<Event>)
    ensures forall a, b :: Balance(xs + ys, a, b) == Balance(xs, a, b) + Balance(ys, a, b)
  {
    forall a, b ensures Balance(xs + ys, a, b) == Balance(xs, a, b) + Balance(ys, a, b) {
      CountConcat(xs, ys, Met(a, b));
      CountConcat(xs, ys, Dormant(a, b));
    }
  }

  lemma BalanceOne(e: Event)
    ensures forall a, b :: Balance([e], a, b) == if e == Met(a, b) then 1 else if e == Dormant(a, b) then -1 else 0
  {
    forall a, b ensures Balance([e], a, b) == if e == Met(a, b) then 1 else if e == Dormant(a, b) then -1 else 0 {
      CountOne(Met(a, b), e);
      CountOne(Dormant(a, b), e);
    }
  }

  // The three outcomes of making sure of an edge.
  ghost predicate Kept(s: Store, s1: Store, from: string, to: string, events: seq<Event>) {
    (from, to) in s.edges && s1 == s && events == []
  }

  ghost predicate Added(s: Store, s1: Store, cap: nat, from: string, to: string, events: seq<Event>) {
    && (from, to) !in s.edges && |Index(s, from)| < cap && events == [Met(from, to)]
    && s1.edges == s.edges && Index(s1, from) == Index(s, from) + {to}
  }

  ghost predicate Swapped(s: Store, s1: Store, cap: nat, from: string, to: string, v: string, events: seq<Event>) {
    && (from, to) !in s.edges && |Index(s, from)| == cap && IsWeakest(s, from, v) && v != to
    && events == [Dormant(from, v), Met(from, to)]
    && s1.edges == s.edges - {(from, v)} && Index(s1, from) == Index(s, from) + {to} - {v}
  }

  lemma EnsuredOutcome(s: Store, cap: nat, from: string, to: string)
    requires InvAt(s, cap, from) && cap >= 1
    ensures var (s1, e, events) := Ensured(s, cap, from, to);
            && (forall a :: a != from ==> SameAt(s, s1, a))
            && e == (if (from, to) in s.edges then s.edges[(from, to)] else NewEdge())
            && (Kept(s, s1, from, to, events) || Added(s, s1, cap, from, to, events)
                || exists v :: Swapped(s, s1, cap, from, to, v, events))
  {
    hide Registered, IsWeakest;
    if (from, to) !in s.edges {
      RegisteredMakesRoom(s, cap, from, to);
      var (s1, events) := Registered(s, cap, from, to);
      if |Index(s, from)| >= cap {
        var v :| IsWeakest(s, from, v) && v != to && events == [Dormant(from, v)]
                 && Index(s1, from) == Index(s, from) + {to} - {v} && s1.edges == s.edges - {(from, v)};
        assert Swapped(s, s1, cap, from, to, v, events + [Met(from, to)]);
      }
    }
  }

  lemma SwapKeepsInv(s: Store, s1: Store, cap: nat, from: string, to: string, v: string, events: seq<Event>, e: Edge)
    requires InvAt(s, cap, from) && Swapped(s, s1, cap, from, to, v, events)
    ensures InvAt(Saved(s1, from, to, e), cap, from)
  {
    hide IsWeakest;
    assert v in Index(s, from) by { WeakestIsIn(s, from, v); }
    assert Index(s1, from) == Index(s, from) - {v} + {to};
  }

  lemma WeakestIsIn(s: Store, from: string, v: string)
    requires IsWeakest(s, from, v)
    ensures v in Index(s, from)
  {
  }

  lemma SwapBalances(s: Store, s1: Store, cap: nat, from: string, to: string, v: string, events: seq<Event>, e: Edge)
    requires InvAt(s, cap, from) && Swapped(s, s1, cap, from, to, v, events)
    ensures Balanced(s, Saved(s1, from, to, e), events)
  {
    hide IsWeakest, Balance;
    WeakestIsIn(s, from, v);
    BalanceConcat([Dormant(from, v)], [Met(from, to)]);
    BalanceOne(Dormant(from, v));
    BalanceOne(Met(from, to));
    assert events == [Dormant(from, v)] + [Met(from, to)];
  }

  lemma AddKeepsInv(s: Store, s1: Store, cap: nat, from: string, to: string, events: seq<Event>, e: Edge)
    requires InvAt(s, cap, from) && Added(s, s1, cap, from, to, events)
    ensures InvAt(Saved(s1, from, to, e), cap, from) && Balanced(s, Saved(s1, from, to, e), events)
  {
    BalanceOne(Met(from, to));
  }

  // Making sure of an edge and saving it keeps the invariant, tells of it exactly when it is new, and leaves
  // the edges of other actors alone.
  lemma EnsuredAndSaved(s: Store, cap: nat, from: string, to: string, e: Edge)
    requires InvAt(s, cap, from) && cap >= 1
    ensures var (s1, e0, events) := Ensured(s, cap, from, to); var s2 := Saved(s1, from, to, e);
            && InvAt(s2, cap, from) && (forall a :: a != from ==> SameAt(s, s1, a) && SameAt(s1, s2, a))
            && (Met(from, to) in events <==> (from, to) !in s.edges)
            && (forall x :: x in events ==> x.Met? || x.Dormant?)
            && Balanced(s, s2, events)
  {
    hide Ensured, InvAt, Balanced, IsWeakest;
    EnsuredOutcome(s, cap, from, to);
    var (s1, e0, events) := Ensured(s, cap, from, to);
    if Added(s, s1, cap, from, to, events) {
      AddKeepsInv(s, s1, cap, from, to, events, e);
    } else if Kept(s, s1, from, to, events) {
      KeepKeepsInv(s, cap, from, to, e);
    } else {
      var v :| Swapped(s, s1, cap, from, to, v, events);
      SwapKeepsInv(s, s1, cap, from, to, v, events, e);
      SwapBalances(s, s1, cap, from, to, v, events, e);
    }
  }

  lemma KeepKeepsInv(s: Store, cap: nat, from: string, to: string, e: Edge)
    requires InvAt(s, cap, from) && (from, to) in s.edges
    ensures InvAt(Saved(s, from, to, e), cap, from) && Balanced(s, Saved(s, from, to, e), [])
  {
  }

  lemma SameIsInv(s: Store, s': Store, cap: nat, a: string)
    requires SameAt(s, s', a) && InvAt(s, cap, a)
    ensures InvAt(s', cap, a)
  {
  }

  lemma NoBalance(events: seq<Event>, e: Event)
    requires !e.Met? && !e.Dormant?
    ensures forall a, b :: Balance(events + [e], a, b) == Balance(events, a, b)
  {
    BalanceConcat(events, [e]);
    BalanceOne(e);
  }

  lemma InteractedKeeps(s: Store, cap: nat, clear: Clear, from: string, to: string, rule: Edge -> Update)
    requires Inv(s, cap) && cap >= 1
    ensures var (s', events) := Interacted(s, cap, clear, from, to, rule);
            Inv(s', cap) && Balanced(s, s', events) && (Met(from, to) in events <==> (from, to) !in s.edges)
  {
    hide Ensured, InvAt, SameAt, Balance;
    var (s1, e0, events) := Ensured(s, cap, from, to);
    var u := rule(e0);
    var e := if u.publish then clear(u.edge) else u.edge;
    assert InvAt(s, cap, from);
    EnsuredAndSaved(s, cap, from, to, e);
    NoBalance(events, Changed(from, to, e));
    var s2 := Saved(s1, from, to, e);
    forall a ensures InvAt(s2, cap, a) {
      assert InvAt(s, cap, a);
      if a != from { SameIsInv(s, s1, cap, a); SameIsInv(s1, s2, cap, a); }
    }
  }

  lemma SavedElsewhere(s: Store, from: string, to: string, e: Edge)
    ensures forall a :: a != from ==> SameAt(s, Saved(s, from, to, e), a)
  {
  }

  lemma BothSaved(s2: Store, a: string, b: string, e: Edge, f: Edge)
    requires a != b
    ensures Saved(Saved(s2, a, b, e), b, a, f) == Saved(Saved(s2, b, a, f), a, b, e)
  {
    assert Saved(Saved(s2, a, b, e), b, a, f).edges == Saved(Saved(s2, b, a, f), a, b, e).edges;
  }

  lemma SavedSame(s1: Store, s2: Store, from: string, to: string, e: Edge)
    requires SameAt(s1, s2, from)
    ensures SameAt(Saved(s1, from, to, e), Saved(s2, from, to, e), from)
  {
  }

  // Two saved edges, of two actors, each as after its own operation.
  lemma TwoActors(s: Store, s1: Store, s2: Store, cap: nat, a: string, b: string, e: Edge, f: Edge)
    requires Inv(s, cap) && a != b
    requires InvAt(Saved(s1, a, b, e), cap, a) && (forall x :: x != a ==> SameAt(s, s1, x))
    requires InvAt(Saved(s2, b, a, f), cap, b) && (forall x :: x != b ==> SameAt(s1, s2, x))
    ensures Inv(Saved(Saved(s2, a, b, e), b, a, f), cap)
  {
    hide InvAt, SameAt;
    var r := Saved(Saved(s2, a, b, e), b, a, f);
    BothSaved(s2, a, b, e, f);
    SavedElsewhere(Saved(s2, a, b, e), b, a, f);
    SavedElsewhere(s2, a, b, e);
    SavedElsewhere(Saved(s2, b, a, f), a, b, e);
    forall x ensures InvAt(r, cap, x) {
      assert InvAt(s, cap, x);
      if x == a {
        SavedSame(s1, s2, a, b, e);
        SameIsInv(Saved(s1, a, b, e), Saved(s2, a, b, e), cap, a);
        SameIsInv(Saved(s2, a, b, e), r, cap, a);
      } else if x == b {
        SameIsInv(Saved(s2, b, a, f), r, cap, b);
      } else {
        SameIsInv(s, s1, cap, x);
        SameIsInv(s1, s2, cap, x);
        SameIsInv(s2, Saved(s2, a, b, e), cap, x);
        SameIsInv(Saved(s2, a, b, e), r, cap, x);
      }
    }
  }

  lemma TwoBalances(s: Store, s1: Store, s2: Store, a: string, b: string, e: Edge, f: Edge, met: seq<Event>, back: seq<Event>)
    requires a != b && Balanced(s, Saved(s1, a, b, e), met) && Balanced(s1, Saved(s2, b, a, f), back)
    requires (forall x :: x != a ==> SameAt(s, s1, x)) && (forall x :: x != b ==> SameAt(s1, s2, x))
    ensures Balanced(s, Saved(Saved(s2, a, b, e), b, a, f), met + back)
  {
    hide Balance;
    BalanceConcat(met, back);
    var r := Saved(Saved(s2, a, b, e), b, a, f);
    forall x, y ensures Balance(met + back, x, y) == Present(r, x, y) - Present(s, x, y) {
      assert Present(Saved(s1, a, b, e), x, y) == if x == a && y == b then 1 else Present(s1, x, y);
      assert Present(Saved(s2, b, a, f), x, y) == if x == b && y == a then 1 else Present(s2, x, y);
      assert Present(r, x, y) == if (x == a && y == b) || (x == b && y == a) then 1 else Present(s2, x, y);
      assert SameAt(s, s1, x) || x == a;
      assert SameAt(s1, s2, x) || x == b;
    }
  }

  lemma StageActedKeeps(s: Store, cap: nat, actor: string, target: string, decide: (Edge, Edge) -> Option<Transition>)
    requires Inv(s, cap) && cap >= 1 && actor != target
    ensures var (s', events) := StageActed(s, cap, actor, target, decide);
            && Inv(s', cap) && Balanced(s, s', events)
            && (Met(actor, target) in events <==> (actor, target) !in s.edges)
            && (Met(target, actor) in events <==> (target, actor) !in s.edges)
  {
    hide Ensured, InvAt, Balance;
    var (s1, mine, met) := Ensured(s, cap, actor, target);
    var (s2, theirs, back) := Ensured(s1, cap, target, actor);
    var t := decide(mine, theirs);
    var e := if t.Some? then Staged(mine, t.value.actorStage) else mine;
    var f := if t.Some? then Staged(theirs, t.value.targetStage) else theirs;
    assert InvAt(s, cap, actor) && InvAt(s, cap, target);
    EnsuredAndSaved(s, cap, actor, target, e);
    assert SameAt(s, s1, target);
    SameIsInv(s, s1, cap, target);
    EnsuredAndSaved(s1, cap, target, actor, f);
    hide SameAt, Balanced;
    TwoActors(s, s1, s2, cap, actor, target, e, f);
    TwoBalances(s, s1, s2, actor, target, e, f, met, back);
    MilestoneIsNeutral(s, Saved(Saved(s2, actor, target, e), target, actor, f), met + back, Milestone(actor, target, e.stage));
    assert met + back + [] == met + back;
    OnlyItsOwn(s, cap, actor, target);
    OnlyItsOwn(s1, cap, target, actor);
  }

  lemma MilestoneIsNeutral(s: Store, s': Store, events: seq<Event>, e: Event)
    requires Balanced(s, s', events) && !e.Met? && !e.Dormant?
    ensures Balanced(s, s', events + [e])
  {
    NoBalance(events, e);
  }

  lemma OnlyItsOwn(s: Store, cap: nat, from: string, to: string)
    ensures forall x :: x in Ensured(s, cap, from, to).2 && x.Met? ==> x == Met(from, to)
  {
  }

  function Settled(clear: Clear, u: Update): Edge { if u.publish then clear(u.edge) else u.edge }

  // Decay goes over every listed edge once, changes nothing else, and tells of exactly what it publishes.
  lemma {:induction false} DecayTouchesEachEdgeOnce(s: Store, clear: Clear, from: string, rule: Edge -> Update, order: seq<string>)
    requires Distinct(order)
    ensures var (s', events) := DecayedEdges(s, clear, from, rule, order);
            && s'.index == s.index && s'.edges.Keys == s.edges.Keys
            && (forall k :: k in s.edges ==>
                  s'.edges[k] == if k.0 == from && k.1 in order then Settled(clear, rule(s.edges[k])) else s.edges[k])
            && (forall x :: x in events ==> x.Changed? && x.from == from && x.to in order)
            && (forall to :: to in order && (from, to) in s.edges ==>
                  (rule(s.edges[(from, to)]).publish <==> Changed(from, to, clear(rule(s.edges[(from, to)]).edge)) in events))
  {
    if order != [] {
      var init, to := order[..|order| - 1], order[|order| - 1];
      assert Distinct(init) && to !in init;
      DecayTouchesEachEdgeOnce(s, clear, from, rule, init);
      assert forall x :: x in order <==> x in init || x == to;
    }
  }

  lemma {:induction false} OnlyChangesBalance(events: seq<Event>)
    requires forall x :: x in events ==> x.Changed?
    ensures forall a, b :: Balance(events, a, b) == 0
  {
    if events != [] {
      var init, last := events[..|events| - 1], events[|events| - 1];
      assert last in events && forall x :: x in init ==> x in events;
      OnlyChangesBalance(init);
      assert events == init + [last];
      NoBalance(init, last);
    }
  }

  lemma DecayKeeps(s: Store, cap: nat, clear: Clear, from: string, rule: Edge -> Update)
    requires Inv(s, cap)
    ensures var (s', events) := DecayedEdges(s, clear, from, rule, SortedSet(Index(s, from)));
            Inv(s', cap) && Balanced(s, s', events)
  {
    hide Balance, SortedSet, DecayedEdges;
    SortedSetElements(Index(s, from));
    var order := SortedSet(Index(s, from));
    DecayTouchesEachEdgeOnce(s, clear, from, rule, order);
    var (s', events) := DecayedEdges(s, clear, from, rule, order);
    OnlyChangesBalance(events);
    forall a ensures InvAt(s', cap, a) {
      assert InvAt(s, cap, a);
    }
  }

  lemma StepKeeps(s: Store, cap: nat, clear: Clear, step: Step)
    requires Inv(s, cap) && cap >= 1 && Sensible(step)
    ensures var (s', events) := Apply(s, cap, clear, step); Inv(s', cap) && Balanced(s, s', events)
  {
    hide Interacted, StageActed, DecayedEdges, Balance, Balanced, SortedSet;
    match step
    case Interact(from, to, rule) => InteractedKeeps(s, cap, clear, from, to, rule);
    case StageAct(actor, target, decide) => StageActedKeeps(s, cap, actor, target, decide);
    case Reflect(from, to, rule) =>
      assert InvAt(s, cap, from);
      if (from, to) in s.edges { InsightKeeps(s, cap, from, to, rule); } else { NothingHappened(s); }
    case Decay(from, rule) => DecayKeeps(s, cap, clear, from, rule);
  }

  lemma NothingHappened(s: Store)
    ensures Balanced(s, s, [])
  {
  }

  lemma InsightKeeps(s: Store, cap: nat, from: string, to: string, rule: Edge -> Edge)
    requires Inv(s, cap) && (from, to) in s.edges
    ensures Inv(Insight(s, from, to, rule), cap) && Balanced(s, Insight(s, from, to, rule), [])
  {
    var s' := Insight(s, from, to, rule);
    forall a ensures InvAt(s', cap, a) {
      assert InvAt(s, cap, a);
    }
  }

  ghost predicate AllSensible(steps: seq<Step>) { forall i :: 0 <= i < |steps| ==> Sensible(steps[i]) }

  // In every run of operations the index of every actor is the set of counterparts with a saved edge, and never
  // exceeds the cap.
  lemma {:induction false} IndexIsExactAndCapped(cap: nat, clear: Clear, steps: seq<Step>)
    requires cap >= 1 && AllSensible(steps)
    ensures Inv(Run(cap, clear, steps).0, cap)
  {
    hide Apply;
    if steps == [] {
      assert forall a :: Index(Store(map[], map[]), a) == {};
    } else {
      var init := steps[..|steps| - 1];
      IndexIsExactAndCapped(cap, clear, init);
      StepKeeps(Run(cap, clear, init).0, cap, clear, steps[|steps| - 1]);
    }
  }

  // Over a whole run, two actors first meet once more than their edge went dormant if they have an edge now,
  // and as often as it went dormant if they have none.
  lemma {:induction false} MeetingsBalanceDormancies(cap: nat, clear: Clear, steps: seq<Step>, a: string, b: string)
    requires cap >= 1 && AllSensible(steps)
    ensures var (s, events) := Run(cap, clear, steps);
            Count(events, Met(a, b)) == Count(events, Dormant(a, b)) + if (a, b) in s.edges then 1 else 0
  {
    hide Apply, Inv, Count;
    if steps == [] {
      NoEvents(a, b);
    } else {
      var init := steps[..|steps| - 1];
      var (s, events) := Run(cap, clear, init);
      MeetingsBalanceDormancies(cap, clear, init, a, b);
      IndexIsExactAndCapped(cap, clear, init);
      StepKeeps(s, cap, clear, steps[|steps| - 1]);
      var (s', more) := Apply(s, cap, clear, steps[|steps| - 1]);
      assert Balance(more, a, b) == Present(s', a, b) - Present(s, a, b);
      CountConcat(events, more, Met(a, b));
      CountConcat(events, more, Dormant(a, b));
    }
  }

  lemma NoEvents(a: string, b: string)
    ensures Count([], Met(a, b)) == 0 == Count([], Dormant(a, b))
  {
  }

  // A new edge always survives its own registration. If the index was full, exactly one other counterpart goes:
  // the one with least salience, the first by id among equals.
  lemma NewEdgeDisplacesTheWeakest(s: Store, cap: nat, clear: Clear, from: string, to: string, rule: Edge -> Update)
    requires Inv(s, cap) && cap >= 1 && (from, to) !in s.edges
    ensures var (s', events) := Interacted(s, cap, clear, from, to, rule);
            && (from, to) in s'.edges && s'.edges[(from, to)] == Settled(clear, rule(NewEdge()))
            && if |Index(s, from)| < cap then Index(s', from) == Index(s, from) + {to}
               else exists v :: IsWeakest(s, from, v) && v != to && Dormant(from, v) in events
                                && Index(s', from) == Index(s, from) - {v} + {to}
                                && s'.edges.Keys == s.edges.Keys - {(from, v)} + {(from, to)}
  {
    hide Ensured, IsWeakest, SameAt, Index, InvAt;
    assert InvAt(s, cap, from);
    EnsuredOutcome(s, cap, from, to);
    var (s1, e, events) := Ensured(s, cap, from, to);
    SavedIndex(s1, from, to, Settled(clear, rule(e)));
    if |Index(s, from)| >= cap {
      var v :| Swapped(s, s1, cap, from, to, v, events);
    } else {
      assert Added(s, s1, cap, from, to, events);
    }
  }

  lemma SavedIndex(s: Store, from: string, to: string, e: Edge)
    ensures Index(Saved(s, from, to, e), from) == Index(s, from)
    ensures Saved(s, from, to, e).edges.Keys == s.edges.Keys + {(from, to)}
  {
  }

  // An actor acting on itself would meet itself twice, which is why actions never target their own actor.
  lemma SelfActionMeetsTwice(clear: Clear, a: string)
    ensures var (s, events) := StageActed(Store(map[], map[]), 150, a, a, (x, y) => None);
            Count(events, Met(a, a)) == 2 && (a, a) in s.edges
  {
    var s0: Store := Store(map[], map[]);
    var (s1, e, met) := Ensured(s0, 150, a, a);
    assert Index(Indexed(s0, a, a), a) == {a};
    assert met == [Met(a, a)];
    assert Index(Indexed(s1, a, a), a) == {a};
    var (s2, e', back) := Ensured(s1, 150, a, a);
    assert back == [Met(a, a)];
    CountConcat(met, back, Met(a, a));
    CountOne(Met(a, a), Met(a, a));
    assert met + back + [] == met + back;
  }
}
