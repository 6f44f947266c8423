// Whether the working memory that a replay rebuilds from the log is the one the actor had.
//
// A tick writes down what arrived, then the mood, then what the actor did; the log keeps the events of each.
module WorkingReplay {
  import opened Prelude
  import Orders
  import OwnMemos

  // Something that reached the actor, and the line it leaves; posts reach it by circulation.
  datatype Item = Item(id: string, post: bool, line: string)

  // A stored change of emotion, with what it makes of the mood in words.
  datatype Shift = Shift(tick: int, cause: Option<string>, mood: string)

  // A memo rebuilt from a stored event of the actor's own.
  datatype Note = Note(tick: int, memo: string)

  // ---------------------------------------------------------------- as it happened

  // A perception, the mood after it, and whether it moved the actor enough to be stored.
  datatype Felt = Felt(item: Item, mood: string, stored: bool)

  datatype Goal = Goal(cause: Option<string>, mood: string)

  // One tick of one actor: the mailbox in the order of arrival, the goals' effect on its emotions, its own memos.
  datatype Moment = Moment(tick: int, felt: seq<Felt>, goals: seq<Goal>, memos: seq<string>)

  function Drained(felt: seq<Felt>): (items: seq<Item>)
    ensures |items| == |felt| && forall i :: 0 <= i < |felt| ==> items[i] == felt[i].item
  {
    if felt == [] then [] else Drained(felt[..|felt| - 1]) + [felt[|felt| - 1].item]
  }

  function LinesOf(items: seq<Item>): (lines: seq<string>)
    ensures |lines| == |items|
  {
    if items == [] then [] else LinesOf(items[..|items| - 1]) + [items[|items| - 1].line]
  }

  // Perceptions first, then the mood in one line, then what the actor did.
  function WrittenIn(m: Moment): seq<string> {
    LinesOf(Drained(m.felt)) + (if m.felt == [] then [] else [m.felt[|m.felt| - 1].mood]) + m.memos
  }

  function Blocks(history: seq<Moment>): (blocks: seq<seq<string>>)
    ensures |blocks| == |history| && forall i :: 0 <= i < |history| ==> blocks[i] == WrittenIn(history[i])
  {
    if history == [] then [] else Blocks(history[..|history| - 1]) + [WrittenIn(history[|history| - 1])]
  }

  function Flat(blocks: seq<seq<string>>): seq<string> {
    if blocks == [] then [] else Flat(blocks[..|blocks| - 1]) + blocks[|blocks| - 1]
  }

  function Written(history: seq<Moment>): seq<string> { Flat(Blocks(history)) }

  // What the log has of it.
  function FeltShifts(tick: int, felt: seq<Felt>): seq<Shift> {
    if felt == [] then []
    else
      var f := felt[|felt| - 1];
      FeltShifts(tick, felt[..|felt| - 1]) + if f.stored then [Shift(tick, Some(f.item.id), f.mood)] else []
  }

  function GoalShifts(tick: int, goals: seq<Goal>): seq<Shift> {
    if goals == [] then []
    else GoalShifts(tick, goals[..|goals| - 1]) + [Shift(tick, goals[|goals| - 1].cause, goals[|goals| - 1].mood)]
  }

  function ShiftsIn(m: Moment): seq<Shift> { FeltShifts(m.tick, m.felt) + GoalShifts(m.tick, m.goals) }

  function Shifts(history: seq<Moment>): seq<Shift> {
    if history == [] then [] else Shifts(history[..|history| - 1]) + ShiftsIn(history[|history| - 1])
  }

  function NotesIn(tick: int, memos: seq<string>): seq<Note> {
    if memos == [] then [] else NotesIn(tick, memos[..|memos| - 1]) + [Note(tick, memos[|memos| - 1])]
  }

  function Notes(history: seq<Moment>): seq<Note> {
    if history == [] then []
    else Notes(history[..|history| - 1]) + NotesIn(history[|history| - 1].tick, history[|history| - 1].memos)
  }

  // ---------------------------------------------------------------- as rebuilt

  function Causes(shifts: seq<Shift>): set<string> {
    if shifts == [] then {}
    else Causes(shifts[..|shifts| - 1]) + if shifts[|shifts| - 1].cause.Some? then {shifts[|shifts| - 1].cause.value} else {}
  }

  function Ids(items: seq<Item>): set<string> {
    if items == [] then {} else Ids(items[..|items| - 1]) + {items[|items| - 1].id}
  }

  // The replay claims nothing unless every perception, and nothing else, is known to have moved the actor.
  predicate Provable(items: seq<Item>, shifts: seq<Shift>) { items != [] ==> Causes(shifts) == Ids(items) }

  // The tick of the last shift with this cause.
  function TickOf(shifts: seq<Shift>, id: string): Option<int> {
    if shifts == [] then None
    else if shifts[|shifts| - 1].cause == Some(id) then Some(shifts[|shifts| - 1].tick)
    else TickOf(shifts[..|shifts| - 1], id)
  }

  // The mood of the last shift of the tick that has a cause.
  function MoodAt(shifts: seq<Shift>, tick: int): Option<string> {
    if shifts == [] then None
    else if shifts[|shifts| - 1].tick == tick && shifts[|shifts| - 1].cause.Some? then Some(shifts[|shifts| - 1].mood)
    else MoodAt(shifts[..|shifts| - 1], tick)
  }

  function ItemsAt(items: seq<Item>, shifts: seq<Shift>, tick: int): seq<Item> {
    if items == [] then []
    else
      var last := items[|items| - 1];
      ItemsAt(items[..|items| - 1], shifts, tick) + if TickOf(shifts, last.id) == Some(tick) then [last] else []
  }

  function NotesAt(notes: seq<Note>, tick: int): seq<string> {
    if notes == [] then []
    else NotesAt(notes[..|notes| - 1], tick) + if notes[|notes| - 1].tick == tick then [notes[|notes| - 1].memo] else []
  }

  function AsSeq(o: Option<string>): seq<string> { if o.Some? then [o.value] else [] }

  function RebuiltIn(items: seq<Item>, shifts: seq<Shift>, notes: seq<Note>, tick: int): seq<string> {
    LinesOf(ItemsAt(items, shifts, tick)) + AsSeq(MoodAt(shifts, tick)) + NotesAt(notes, tick)
  }

  // Only ticks with a perception or a memo are looked at.
  predicate Looked(items: seq<Item>, shifts: seq<Shift>, notes: seq<Note>, tick: int) {
    ItemsAt(items, shifts, tick) != [] || NotesAt(notes, tick) != []
  }

  // The rebuilt lines of these ticks, in their order.
  function RebuiltOver(items: seq<Item>, shifts: seq<Shift>, notes: seq<Note>, ticks: seq<int>): seq<string> {
    if ticks == [] then []
    else RebuiltOver(items, shifts, notes, ticks[..|ticks| - 1]) + RebuiltIn(items, shifts, notes, ticks[|ticks| - 1])
  }

  // These are the ticks looked at, in ascending order.
  ghost predicate LookedAt(items: seq<Item>, shifts: seq<Shift>, notes: seq<Note>, ticks: seq<int>) {
    Increasing(ticks) && forall t :: t in ticks <==> Looked(items, shifts, notes, t)
  }

  // ---------------------------------------------------------------- the replay's loops

  method RebuildWorking(direct: seq<Item>, posts: seq<Item>, shifts: seq<Shift>, notes: seq<Note>)
    returns (lines: Option<seq<string>>, ghost ticks: seq<int>)
    ensures lines.Some? <==> Provable(direct + posts, shifts)
    ensures lines.Some? ==> LookedAt(direct + posts, shifts, notes, ticks)
    ensures lines.Some? ==>
              lines.value == Take(Reversed(RebuiltOver(direct + posts, shifts, notes, ticks)), 50)
  {
    hide Reversed, Take, LookedAt, RebuiltOver, Causes, Ids, TickOf, MoodAt, ItemsAt, NotesAt;
    var perceived := direct + posts;
    var caused, tickOf, moodAt := GatherShifts(shifts);
    var ids := GatherIds(perceived);
    if perceived != [] && caused != ids {
      return None, [];
    }
    var byTick := GatherItems(perceived, shifts, tickOf);
    var own := GatherNotes(notes);
    var entries;
    entries, ticks := Assemble(perceived, shifts, notes, byTick, moodAt, own);
    lines := Some(Take(Reversed(entries), OwnMemos.MAX_ENTRIES));
  }

  function Entry<T>(m: map<int, seq<T>>, t: int): seq<T> { if t in m then m[t] else [] }

  // Tick by tick in ascending order.
  method Assemble(items: seq<Item>, shifts: seq<Shift>, notes: seq<Note>, byTick: map<int, seq<Item>>,
                  moodAt: map<int, string>, own: map<int, seq<string>>)
    returns (entries: seq<string>, ghost ticks: seq<int>)
    requires forall t :: ItemsAt(items, shifts, t) == Entry(byTick, t)
    requires forall t :: MoodAt(shifts, t) == if t in moodAt then Some(moodAt[t]) else None
    requires forall t :: NotesAt(notes, t) == Entry(own, t)
    requires (forall t :: t in byTick ==> byTick[t] != []) && forall t :: t in own ==> own[t] != []
    ensures LookedAt(items, shifts, notes, ticks) && entries == RebuiltOver(items, shifts, notes, ticks)
  {
    hide ItemsAt, NotesAt, MoodAt, LinesOf, Looked, Increasing, Below, RebuiltIn, RebuiltOver, Entry, IsLeast, AsSeq;
    var rest := byTick.Keys + own.Keys;
    ghost var all := rest;
    entries, ticks := [], [];
    KeysAreLooked(items, shifts, notes, byTick, own, rest);
    NoTicks(items, shifts, notes, rest);
    while rest != {}
      invariant Increasing(ticks) && Below(ticks, rest) && forall t :: t in all <==> t in ticks || t in rest
      invariant entries == RebuiltOver(items, shifts, notes, ticks)
      decreases |rest|
    {
      LeastExists(rest);
      var t :| IsLeast(t, rest);
      var linesAt := GatherLines(Entry(byTick, t));
      entries := entries + (linesAt + (if t in moodAt then [moodAt[t]] else []) + Entry(own, t));
      LinesOfTick(items, shifts, notes, ticks, t);
      NextTick(ticks, rest, t);
      rest, ticks := rest - {t}, ticks + [t];
    }
  }

  lemma KeysAreLooked(items: seq<Item>, shifts: seq<Shift>, notes: seq<Note>, byTick: map<int, seq<Item>>,
                      own: map<int, seq<string>>, keys: set<int>)
    requires forall t :: ItemsAt(items, shifts, t) == Entry(byTick, t)
    requires forall t :: NotesAt(notes, t) == Entry(own, t)
    requires (forall t :: t in byTick ==> byTick[t] != []) && forall t :: t in own ==> own[t] != []
    requires keys == byTick.Keys + own.Keys
    ensures forall t :: t in keys <==> Looked(items, shifts, notes, t)
  {
    hide ItemsAt, NotesAt;
  }

  lemma LinesOfTick(items: seq<Item>, shifts: seq<Shift>, notes: seq<Note>, ticks: seq<int>, t: int)
    ensures RebuiltOver(items, shifts, notes, ticks + [t])
            == RebuiltOver(items, shifts, notes, ticks)
               + (LinesOf(ItemsAt(items, shifts, t))
                  + (if MoodAt(shifts, t).Some? then [MoodAt(shifts, t).value] else []) + NotesAt(notes, t))
  {
    assert (ticks + [t])[..|ticks|] == ticks;
  }

  ghost predicate Below(ticks: seq<int>, rest: set<int>) { forall t, u :: t in ticks && u in rest ==> t < u }

  lemma NoTicks(items: seq<Item>, shifts: seq<Shift>, notes: seq<Note>, rest: set<int>)
    ensures Increasing([]) && Below([], rest) && RebuiltOver(items, shifts, notes, []) == []
  {
  }

  lemma NextTick(ticks: seq<int>, rest: set<int>, t: int)
    requires Increasing(ticks) && Below(ticks, rest) && IsLeast(t, rest)
    ensures Increasing(ticks + [t]) && Below(ticks + [t], rest - {t})
    ensures t in rest && forall u :: u in ticks || u in rest <==> u in ticks + [t] || u in rest - {t}
  {
    assert forall i :: 0 <= i < |ticks| ==> ticks[i] in ticks;
  }

  predicate IsLeast(t: int, s: set<int>) { t in s && forall u :: u in s ==> t <= u }

  lemma LeastExists(s: set<int>)
    requires s != {}
    ensures exists t :: IsLeast(t, s)
  {
    var t := LeastOf(Orders.Listed(s));
    assert IsLeast(t, s);
  }

  lemma {:induction false} LeastOf(ticks: seq<int>) returns (t: int)
    requires Elements(ticks) != {}
    ensures IsLeast(t, Elements(ticks))
  {
    assert ticks != [];
    var init, last := ticks[..|ticks| - 1], ticks[|ticks| - 1];
    assert ticks == init + [last];
    ElementsConcat(init, [last]);
    ElementsOne(last);
    t := last;
    if Elements(init) != {} {
      var m := LeastOf(init);
      t := Min(m, last);
    }
  }

  method GatherShifts(shifts: seq<Shift>) returns (caused: set<string>, tickOf: map<string, int>, moodAt: map<int, string>)
    ensures caused == Causes(shifts)
    ensures forall id :: TickOf(shifts, id) == if id in tickOf then Some(tickOf[id]) else None
    ensures forall t :: MoodAt(shifts, t) == if t in moodAt then Some(moodAt[t]) else None
  {
    caused, tickOf, moodAt := {}, map[], map[];
    for i := 0 to |shifts|
      invariant caused == Causes(shifts[..i])
      invariant forall id :: TickOf(shifts[..i], id) == if id in tickOf then Some(tickOf[id]) else None
      invariant forall t :: MoodAt(shifts[..i], t) == if t in moodAt then Some(moodAt[t]) else None
    {
      assert shifts[..i + 1][..i] == shifts[..i];
      if shifts[i].cause.Some? {
        caused := caused + {shifts[i].cause.value};
        tickOf := tickOf[shifts[i].cause.value := shifts[i].tick];
        moodAt := moodAt[shifts[i].tick := shifts[i].mood];
      }
    }
    assert shifts[..|shifts|] == shifts;
  }

  method GatherIds(items: seq<Item>) returns (ids: set<string>)
    ensures ids == Ids(items)
  {
    ids := {};
    for i := 0 to |items|
      invariant ids == Ids(items[..i])
    {
      assert items[..i + 1][..i] == items[..i];
      ids := ids + {items[i].id};
    }
    assert items[..|items|] == items;
  }

  method GatherItems(items: seq<Item>, shifts: seq<Shift>, tickOf: map<string, int>) returns (byTick: map<int, seq<Item>>)
    requires forall id :: TickOf(shifts, id) == if id in tickOf then Some(tickOf[id]) else None
    ensures forall t :: ItemsAt(items, shifts, t) == Entry(byTick, t)
    ensures forall t :: t in byTick ==> byTick[t] != []
  {
    byTick := map[];
    for i := 0 to |items|
      invariant forall t :: ItemsAt(items[..i], shifts, t) == Entry(byTick, t)
      invariant forall t :: t in byTick ==> byTick[t] != []
    {
      assert items[..i + 1][..i] == items[..i];
      if items[i].id in tickOf {
        var t := tickOf[items[i].id];
        byTick := byTick[t := Entry(byTick, t) + [items[i]]];
      }
    }
    assert items[..|items|] == items;
  }

  method GatherNotes(notes: seq<Note>) returns (own: map<int, seq<string>>)
    ensures forall t :: NotesAt(notes, t) == Entry(own, t)
    ensures forall t :: t in own ==> own[t] != []
  {
    own := map[];
    for i := 0 to |notes|
      invariant forall t :: NotesAt(notes[..i], t) == Entry(own, t)
      invariant forall t :: t in own ==> own[t] != []
    {
      assert notes[..i + 1][..i] == notes[..i];
      var t := notes[i].tick;
      own := own[t := Entry(own, t) + [notes[i].memo]];
    }
    assert notes[..|notes|] == notes;
  }

  method GatherLines(items: seq<Item>) returns (lines: seq<string>)
    ensures lines == LinesOf(items)
  {
    lines := [];
    for i := 0 to |items|
      invariant lines == LinesOf(items[..i])
    {
      assert items[..i + 1][..i] == items[..i];
      lines := lines + [items[i].line];
    }
    assert items[..|items|] == items;
  }

  // ---------------------------------------------------------------- what the log says of a history

  ghost predicate DistinctIds(items: seq<Item>) { forall i, j :: 0 <= i < j < |items| ==> items[i].id != items[j].id }

  ghost predicate FeltIn(m: Moment, id: string) { id in Ids(Drained(m.felt)) }

  ghost predicate GoalOf(m: Moment, id: string) { exists k :: 0 <= k < |m.goals| && m.goals[k].cause == Some(id) }

  // `items` is what the queries say reached the actor: everything it felt, once, and nothing of its goals.
  ghost predicate Recorded(history: seq<Moment>, items: seq<Item>) {
    && (forall i, j :: 0 <= i < j < |history| ==> history[i].tick < history[j].tick)
    && DistinctIds(items)
    && (forall i :: 0 <= i < |history| ==> DistinctIds(Drained(history[i].felt)))
    && (forall i, j, id :: 0 <= i < |history| && 0 <= j < |history| && FeltIn(history[i], id) && FeltIn(history[j], id) ==> i == j)
    && (forall i, x :: 0 <= i < |history| && x in Drained(history[i].felt) ==> x in items)
    && (forall i, id :: 0 <= i < |history| && GoalOf(history[i], id) ==> id !in Ids(items))
  }

  lemma {:induction false} IdsOf(items: seq<Item>, id: string)
    ensures id in Ids(items) <==> exists i :: 0 <= i < |items| && items[i].id == id
  {
    if items != [] {
      var init := items[..|items| - 1];
      IdsOf(init, id);
      assert forall i :: 0 <= i < |init| ==> init[i] == items[i];
    }
  }

  // Where a stored shift comes from.
  ghost predicate FromFelt(m: Moment, id: string, mood: string) {
    exists k :: 0 <= k < |m.felt| && m.felt[k].stored && m.felt[k].item.id == id && m.felt[k].mood == mood
  }

  ghost predicate From(m: Moment, x: Shift) {
    x.tick == m.tick && (x.cause.Some? ==> FromFelt(m, x.cause.value, x.mood) || GoalOf(m, x.cause.value))
  }

  lemma {:induction false} FeltShiftsFrom(tick: int, felt: seq<Felt>, x: Shift)
    requires x in FeltShifts(tick, felt)
    ensures x.tick == tick && x.cause.Some?
    ensures exists k :: 0 <= k < |felt| && felt[k].stored && felt[k].item.id == x.cause.value && felt[k].mood == x.mood
  {
    var f := felt[|felt| - 1];
    if f.stored && x == Shift(tick, Some(f.item.id), f.mood) {
      assert felt[|felt| - 1].stored;
    } else {
      FeltShiftsFrom(tick, felt[..|felt| - 1], x);
    }
  }

  lemma {:induction false} GoalShiftsFrom(tick: int, goals: seq<Goal>, x: Shift)
    requires x in GoalShifts(tick, goals)
    ensures x.tick == tick && exists k :: 0 <= k < |goals| && goals[k].cause == x.cause
  {
    if x != Shift(tick, goals[|goals| - 1].cause, goals[|goals| - 1].mood) {
      GoalShiftsFrom(tick, goals[..|goals| - 1], x);
    }
  }

  lemma ShiftsInFrom(m: Moment, x: Shift)
    requires x in ShiftsIn(m)
    ensures From(m, x)
  {
    if x in FeltShifts(m.tick, m.felt) {
      FeltShiftsFrom(m.tick, m.felt, x);
    } else {
      GoalShiftsFrom(m.tick, m.goals, x);
    }
  }

  lemma {:induction false} ShiftsFrom(history: seq<Moment>, x: Shift) returns (i: nat)
    requires x in Shifts(history)
    ensures i < |history| && From(history[i], x)
  {
    hide From, ShiftsIn;
    if x in ShiftsIn(history[|history| - 1]) {
      i := |history| - 1;
      ShiftsInFrom(history[i], x);
    } else {
      i := ShiftsFrom(history[..|history| - 1], x);
    }
  }

  lemma {:induction false} CausesOf(shifts: seq<Shift>, id: string)
    ensures id in Causes(shifts) <==> TickOf(shifts, id).Some?
    ensures TickOf(shifts, id).Some? ==> exists x :: x in shifts && x.cause == Some(id) && x.tick == TickOf(shifts, id).value
  {
    if shifts != [] {
      var init, last := shifts[..|shifts| - 1], shifts[|shifts| - 1];
      CausesOf(init, id);
      assert last in shifts && forall x :: x in init ==> x in shifts;
    }
  }

  // ---------------------------------------------------------------- ticks are found again

  lemma {:induction false} NotesConcat(xs: seq<Note>, ys: seq<Note>, tick: int)
    ensures NotesAt(xs + ys, tick) == NotesAt(xs, tick) + NotesAt(ys, tick)
  {
    if ys == [] {
      assert xs + ys == xs;
    } else {
      assert (xs + ys)[..|xs + ys| - 1] == xs + ys[..|ys| - 1];
      NotesConcat(xs, ys[..|ys| - 1], tick);
    }
  }

  lemma {:induction false} NotesInAt(tick: int, memos: seq<string>, t: int)
    ensures NotesAt(NotesIn(tick, memos), t) == if t == tick then memos else []
  {
    if memos != [] {
      NotesInAt(tick, memos[..|memos| - 1], t);
      NotesConcat(NotesIn(tick, memos[..|memos| - 1]), [Note(tick, memos[|memos| - 1])], t);
      assert [Note(tick, memos[|memos| - 1])][..0] == [];
    }
  }

  ghost predicate TickAmong(history: seq<Moment>, t: int) { exists i :: 0 <= i < |history| && history[i].tick == t }

  lemma {:induction false} NotesOutside(history: seq<Moment>, t: int)
    requires !TickAmong(history, t)
    ensures NotesAt(Notes(history), t) == []
  {
    hide NotesAt, NotesIn;
    if history != [] {
      var init, m := history[..|history| - 1], history[|history| - 1];
      assert forall i :: 0 <= i < |init| ==> init[i] == history[i];
      NotesOutside(init, t);
      NotesConcat(Notes(init), NotesIn(m.tick, m.memos), t);
      NotesInAt(m.tick, m.memos, t);
    } else {
      NoNotes(t);
    }
  }

  lemma NoNotes(t: int)
    ensures NotesAt([], t) == []
  {
  }

  lemma {:induction false} NotesOfMoment(history: seq<Moment>, i: nat)
    requires i < |history| && forall j, k :: 0 <= j < k < |history| ==> history[j].tick < history[k].tick
    ensures NotesAt(Notes(history), history[i].tick) == history[i].memos
  {
    hide NotesAt, NotesIn;
    var init, m := history[..|history| - 1], history[|history| - 1];
    var t := history[i].tick;
    NotesConcat(Notes(init), NotesIn(m.tick, m.memos), t);
    NotesInAt(m.tick, m.memos, t);
    if i < |history| - 1 {
      NotesOfMoment(init, i);
    } else {
      NotesOutside(init, t);
    }
  }

  lemma {:induction false} MoodConcat(xs: seq<Shift>, ys: seq<Shift>, tick: int)
    ensures MoodAt(xs + ys, tick) == if MoodAt(ys, tick).Some? then MoodAt(ys, tick) else MoodAt(xs, tick)
  {
    if ys == [] {
      assert xs + ys == xs;
    } else {
      assert (xs + ys)[..|xs + ys| - 1] == xs + ys[..|ys| - 1];
      MoodConcat(xs, ys[..|ys| - 1], tick);
    }
  }

  lemma {:induction false} NoMood(shifts: seq<Shift>, tick: int)
    requires forall x :: x in shifts ==> x.tick != tick || x.cause.None?
    ensures MoodAt(shifts, tick) == None
  {
    if shifts != [] {
      assert shifts[|shifts| - 1] in shifts && forall x :: x in shifts[..|shifts| - 1] ==> x in shifts;
      NoMood(shifts[..|shifts| - 1], tick);
    }
  }

  lemma {:induction false} MoodOfMoment(history: seq<Moment>, i: nat)
    requires i < |history| && forall j, k :: 0 <= j < k < |history| ==> history[j].tick < history[k].tick
    ensures MoodAt(Shifts(history), history[i].tick) == MoodAt(ShiftsIn(history[i]), history[i].tick)
  {
    hide MoodAt, ShiftsIn, From;
    var init, m := history[..|history| - 1], history[|history| - 1];
    var t := history[i].tick;
    MoodConcat(Shifts(init), ShiftsIn(m), t);
    if i < |history| - 1 {
      MoodOfMoment(init, i);
      forall x | x in ShiftsIn(m) ensures x.tick != t { ShiftsInFrom(m, x); FromTick(m, x); }
      NoMood(ShiftsIn(m), t);
    } else {
      forall x | x in Shifts(init) ensures x.tick != t {
        var j := ShiftsFrom(init, x);
        FromTick(init[j], x);
      }
      NoMood(Shifts(init), t);
    }
  }

  lemma FromTick(m: Moment, x: Shift)
    requires From(m, x)
    ensures x.tick == m.tick
  {
  }

  // A perception is put into the tick in which it was felt.
  lemma FoundAgain(history: seq<Moment>, items: seq<Item>, i: nat, id: string)
    requires Recorded(history, items) && Provable(items, Shifts(history)) && i < |history| && id in Ids(items)
    ensures TickOf(Shifts(history), id) == Some(history[i].tick) <==> FeltIn(history[i], id)
  {
    hide TickOf, Causes, Shifts, FeltIn, Provable, FromFelt;
    var j, x := CauseFound(history, items, id);
    FeltIsFelt(history[j], id, x.mood);
  }

  lemma CauseFound(history: seq<Moment>, items: seq<Item>, id: string) returns (j: nat, x: Shift)
    requires Recorded(history, items) && Provable(items, Shifts(history)) && id in Ids(items)
    ensures j < |history| && FromFelt(history[j], id, x.mood) && TickOf(Shifts(history), id) == Some(history[j].tick)
  {
    hide TickOf, Causes, Shifts, FeltIn, FromFelt;
    CausesOf(Shifts(history), id);
    IdsOf(items, id);
    x :| x in Shifts(history) && x.cause == Some(id) && x.tick == TickOf(Shifts(history), id).value;
    j := ShiftsFrom(history, x);
  }

  lemma FeltIsFelt(m: Moment, id: string, mood: string)
    requires FromFelt(m, id, mood)
    ensures FeltIn(m, id)
  {
    var k :| 0 <= k < |m.felt| && m.felt[k].stored && m.felt[k].item.id == id && m.felt[k].mood == mood;
    IdsOf(Drained(m.felt), id);
    assert Drained(m.felt)[k].id == id;
  }

  // ---------------------------------------------------------------- a tick's perceptions, in the order of the log

  function Among(items: seq<Item>, ids: set<string>): seq<Item> {
    if items == [] then []
    else Among(items[..|items| - 1], ids) + if items[|items| - 1].id in ids then [items[|items| - 1]] else []
  }

  lemma {:induction false} ItemsAreAmong(items: seq<Item>, shifts: seq<Shift>, tick: int, ids: set<string>)
    requires forall x :: x in items ==> (TickOf(shifts, x.id) == Some(tick) <==> x.id in ids)
    ensures ItemsAt(items, shifts, tick) == Among(items, ids)
  {
    hide TickOf;
    if items != [] {
      assert items[|items| - 1] in items && forall x :: x in items[..|items| - 1] ==> x in items;
      ItemsAreAmong(items[..|items| - 1], shifts, tick, ids);
    }
  }

  lemma {:induction false} AmongIds(items: seq<Item>, ids: set<string>)
    ensures Ids(Among(items, ids)) == Ids(items) * ids
  {
    if items != [] {
      var init, last := items[..|items| - 1], items[|items| - 1];
      var among := Among(init, ids);
      AmongIds(init, ids);
      assert (among + [last])[..|among|] == among;
      if last.id in ids {
        assert Ids(items) * ids == Ids(init) * ids + {last.id};
      } else {
        assert among + [] == among && Ids(items) * ids == Ids(init) * ids;
      }
    }
  }

  lemma {:induction false} AmongDistinct(items: seq<Item>, ids: set<string>)
    requires DistinctIds(items)
    ensures DistinctIds(Among(items, ids)) && forall x :: x in Among(items, ids) ==> x in items
  {
    if items != [] {
      var init, last := items[..|items| - 1], items[|items| - 1];
      var among := Among(init, ids);
      AmongDistinct(init, ids);
      forall k | 0 <= k < |among| ensures among[k].id != last.id {
        assert among[k] in init;
      }
    }
  }

  lemma {:induction false} IdsSize(items: seq<Item>)
    requires DistinctIds(items)
    ensures |Ids(items)| == |items|
  {
    if items != [] {
      var init, last := items[..|items| - 1], items[|items| - 1];
      IdsSize(init);
      IdsOf(init, last.id);
      assert forall k :: 0 <= k < |init| ==> init[k] == items[k];
    }
  }

  lemma AmongSize(items: seq<Item>, drained: seq<Item>)
    requires DistinctIds(items) && DistinctIds(drained) && forall x :: x in drained ==> x in items
    ensures |Among(items, Ids(drained))| == |drained|
  {
    hide Ids, Among;
    AmongIds(items, Ids(drained));
    AmongDistinct(items, Ids(drained));
    IdsSize(Among(items, Ids(drained)));
    IdsSize(drained);
    forall id | id in Ids(drained) ensures id in Ids(items) {
      IdsOf(drained, id);
      var k :| 0 <= k < |drained| && drained[k].id == id;
      assert drained[k] in drained;
      IdsOf(items, id);
    }
    assert Ids(items) * Ids(drained) == Ids(drained);
  }

  lemma PerceptionsOfMoment(history: seq<Moment>, items: seq<Item>, i: nat)
    requires Recorded(history, items) && Provable(items, Shifts(history)) && i < |history|
    ensures var drained := Drained(history[i].felt);
            && ItemsAt(items, Shifts(history), history[i].tick) == Among(items, Ids(drained))
            && |Among(items, Ids(drained))| == |drained|
  {
    hide ItemsAt, Among, Shifts, Provable, TickOf;
    forall x | x in items
      ensures TickOf(Shifts(history), x.id) == Some(history[i].tick) <==> x.id in Ids(Drained(history[i].felt))
    {
      IdsOf(items, x.id);
      FoundAgain(history, items, i, x.id);
    }
    ItemsAreAmong(items, Shifts(history), history[i].tick, Ids(Drained(history[i].felt)));
    AmongSize(items, Drained(history[i].felt));
  }

  // ---------------------------------------------------------------- the mood of a tick

  // No goal with a cause has been stored as a change of emotion.
  ghost predicate Unmoved(m: Moment) { forall k :: 0 <= k < |m.goals| ==> m.goals[k].cause.None? }

  lemma {:induction false} GoalMood(tick: int, goals: seq<Goal>)
    ensures MoodAt(GoalShifts(tick, goals), tick).Some? <==> exists k :: 0 <= k < |goals| && goals[k].cause.Some?
  {
    if goals != [] {
      var init := goals[..|goals| - 1];
      GoalMood(tick, init);
      assert forall k :: 0 <= k < |init| ==> init[k] == goals[k];
    }
  }

  lemma FeltMood(tick: int, felt: seq<Felt>)
    requires felt != [] ==> felt[|felt| - 1].stored
    ensures MoodAt(FeltShifts(tick, felt), tick) == if felt == [] then None else Some(felt[|felt| - 1].mood)
  {
  }

  lemma MoodInMoment(m: Moment)
    requires m.felt != [] ==> m.felt[|m.felt| - 1].stored && Unmoved(m)
    ensures m.felt != [] ==> MoodAt(ShiftsIn(m), m.tick) == Some(m.felt[|m.felt| - 1].mood)
    ensures m.felt == [] ==> (MoodAt(ShiftsIn(m), m.tick) == None <==> Unmoved(m))
  {
    hide MoodAt, FeltShifts, GoalShifts;
    MoodConcat(FeltShifts(m.tick, m.felt), GoalShifts(m.tick, m.goals), m.tick);
    GoalMood(m.tick, m.goals);
    FeltMood(m.tick, m.felt);
  }

  // If anything was perceived, a provable log has all of it stored, and nothing of the goals.
  lemma AllStored(history: seq<Moment>, items: seq<Item>, i: nat)
    requires Recorded(history, items) && Provable(items, Shifts(history)) && items != [] && i < |history|
    ensures Unmoved(history[i])
    ensures history[i].felt != [] ==> history[i].felt[|history[i].felt| - 1].stored
  {
    hide TickOf, Causes, Shifts, Recorded, Ids;
    var m := history[i];
    forall k | 0 <= k < |m.goals| ensures m.goals[k].cause.None? {
      if m.goals[k].cause.Some? { GoalsExcluded(history, items, i, k); }
    }
    if m.felt != [] { LastIsStored(history, items, i); }
  }

  lemma GoalsExcluded(history: seq<Moment>, items: seq<Item>, i: nat, k: nat)
    requires Recorded(history, items) && i < |history| && k < |history[i].goals| && history[i].goals[k].cause.Some?
    ensures Causes(Shifts(history)) != Ids(items)
  {
    hide Causes, Shifts, Ids;
    GoalCauses(history, i, k);
    assert GoalOf(history[i], history[i].goals[k].cause.value);
  }

  lemma LastIsStored(history: seq<Moment>, items: seq<Item>, i: nat)
    requires Recorded(history, items) && Provable(items, Shifts(history)) && i < |history| && history[i].felt != []
    ensures history[i].felt[|history[i].felt| - 1].stored
  {
    hide TickOf, Causes, Shifts, Ids, Provable, FeltIn;
    var m := history[i];
    var n, drained := |m.felt| - 1, Drained(m.felt);
    var id := drained[n].id;
    assert drained[n] in Drained(history[i].felt);
    assert drained[n] in items;
    var at :| 0 <= at < |items| && items[at] == drained[n];
    IdsOf(items, id);
    var j, x := CauseFound(history, items, id);
    FeltIsFelt(history[j], id, x.mood);
    assert FeltIn(m, id) by { FeltAt(m, n); }
    var k :| 0 <= k < |history[j].felt| && history[j].felt[k].stored && history[j].felt[k].item.id == id;
    assert drained[k].id == id == drained[n].id;
  }

  lemma FeltAt(m: Moment, k: nat)
    requires k < |m.felt|
    ensures FeltIn(m, Drained(m.felt)[k].id)
  {
    IdsOf(Drained(m.felt), Drained(m.felt)[k].id);
  }

  lemma {:induction false} GoalCauses(history: seq<Moment>, i: nat, k: nat)
    requires i < |history| && k < |history[i].goals| && history[i].goals[k].cause.Some?
    ensures history[i].goals[k].cause.value in Causes(Shifts(history))
  {
    hide Causes, ShiftsIn;
    var init, m := history[..|history| - 1], history[|history| - 1];
    CausesConcat(Shifts(init), ShiftsIn(m));
    if i < |history| - 1 {
      GoalCauses(init, i, k);
    } else {
      GoalCausesIn(m, k);
    }
  }

  lemma {:induction false} CausesConcat(xs: seq<Shift>, ys: seq<Shift>)
    ensures Causes(xs + ys) == Causes(xs) + Causes(ys)
  {
    if ys == [] {
      assert xs + ys == xs;
    } else {
      assert (xs + ys)[..|xs + ys| - 1] == xs + ys[..|ys| - 1];
      CausesConcat(xs, ys[..|ys| - 1]);
    }
  }

  lemma GoalCausesIn(m: Moment, k: nat)
    requires k < |m.goals| && m.goals[k].cause.Some?
    ensures m.goals[k].cause.value in Causes(ShiftsIn(m))
  {
    CausesConcat(FeltShifts(m.tick, m.felt), GoalShifts(m.tick, m.goals));
    GoalShiftCauses(m.tick, m.goals, k);
  }

  lemma {:induction false} GoalShiftCauses(tick: int, goals: seq<Goal>, k: nat)
    requires k < |goals| && goals[k].cause.Some?
    ensures goals[k].cause.value in Causes(GoalShifts(tick, goals))
  {
    if k < |goals| - 1 { GoalShiftCauses(tick, goals[..|goals| - 1], k); }
  }

  // ---------------------------------------------------------------- tick by tick

  // The rebuilt lines of a tick, none if it is not looked at.
  function RebuiltBlock(items: seq<Item>, shifts: seq<Shift>, notes: seq<Note>, tick: int): seq<string> {
    if Looked(items, shifts, notes, tick) then RebuiltIn(items, shifts, notes, tick) else []
  }

  function RebuiltBlocks(items: seq<Item>, shifts: seq<Shift>, notes: seq<Note>, history: seq<Moment>)
    : (blocks: seq<seq<string>>)
    ensures |blocks| == |history|
    ensures forall i :: 0 <= i < |history| ==> blocks[i] == RebuiltBlock(items, shifts, notes, history[i].tick)
  {
    if history == [] then []
    else RebuiltBlocks(items, shifts, notes, history[..|history| - 1])
         + [RebuiltBlock(items, shifts, notes, history[|history| - 1].tick)]
  }

  ghost predicate TicksRise(history: seq<Moment>) {
    forall i, j :: 0 <= i < j < |history| ==> history[i].tick < history[j].tick
  }

  // Going over the ticks looked at is going over the history.
  lemma {:induction false} OverTheHistory(items: seq<Item>, shifts: seq<Shift>, notes: seq<Note>, history: seq<Moment>,
                                         ticks: seq<int>)
    requires TicksRise(history) && Increasing(ticks)
    requires forall t :: t in ticks <==> TickAmong(history, t) && Looked(items, shifts, notes, t)
    ensures RebuiltOver(items, shifts, notes, ticks) == Flat(RebuiltBlocks(items, shifts, notes, history))
  {
    hide Looked, RebuiltIn;
    if history == [] {
      assert forall i :: 0 <= i < |ticks| ==> ticks[i] in ticks;
    } else {
      var init, last := history[..|history| - 1], history[|history| - 1];
      assert TickAmong(history, last.tick);
      forall t ensures TickAmong(history, t) <==> TickAmong(init, t) || t == last.tick { AmongOneMore(history, t); }
      if Looked(items, shifts, notes, last.tick) {
        LastTick(history, ticks);
        OverTheHistory(items, shifts, notes, init, ticks[..|ticks| - 1]);
      } else {
        OverTheHistory(items, shifts, notes, init, ticks);
      }
    }
  }

  lemma AmongOneMore(history: seq<Moment>, t: int)
    requires history != []
    ensures var init := history[..|history| - 1];
            TickAmong(history, t) <==> TickAmong(init, t) || t == history[|history| - 1].tick
  {
    var init := history[..|history| - 1];
    assert forall i :: 0 <= i < |init| ==> init[i] == history[i];
  }

  lemma LastTick(history: seq<Moment>, ticks: seq<int>)
    requires history != [] && TicksRise(history) && Increasing(ticks)
    requires history[|history| - 1].tick in ticks && forall t :: t in ticks ==> TickAmong(history, t)
    ensures ticks[|ticks| - 1] == history[|history| - 1].tick
    ensures forall t :: t in ticks[..|ticks| - 1] <==> t in ticks && t != history[|history| - 1].tick
  {
    var last := history[|history| - 1].tick;
    assert ticks[|ticks| - 1] in ticks;
    assert TickAmong(history, ticks[|ticks| - 1]);
    assert ticks == ticks[..|ticks| - 1] + [ticks[|ticks| - 1]];
  }

  lemma FlatOneMore(blocks: seq<seq<string>>, block: seq<string>)
    ensures Flat(blocks + [block]) == Flat(blocks) + block
  {
    assert (blocks + [block])[..|blocks|] == blocks;
  }

  lemma {:induction false} FlatLength(xs: seq<seq<string>>, ys: seq<seq<string>>)
    requires |xs| == |ys| && forall i :: 0 <= i < |xs| ==> |xs[i]| >= |ys[i]|
    ensures |Flat(xs)| >= |Flat(ys)|
  {
    if xs != [] { FlatLength(xs[..|xs| - 1], ys[..|ys| - 1]); }
  }

  // Blocks of which none is shorter make the same text only if they are the same.
  lemma {:induction false} SameBlocks(xs: seq<seq<string>>, ys: seq<seq<string>>)
    requires |xs| == |ys| && forall i :: 0 <= i < |xs| ==> |xs[i]| >= |ys[i]|
    ensures Flat(xs) == Flat(ys) <==> xs == ys
  {
    if xs != [] {
      var xs', ys' := xs[..|xs| - 1], ys[..|ys| - 1];
      var x, y := xs[|xs| - 1], ys[|ys| - 1];
      assert xs == xs' + [x] && ys == ys' + [y];
      FlatLength(xs', ys');
      SameBlocks(xs', ys');
      if Flat(xs) == Flat(ys) {
        assert Flat(xs') == Flat(xs)[..|Flat(xs')|] && Flat(ys') == Flat(ys)[..|Flat(ys')|];
        assert x == Flat(xs)[|Flat(xs')|..] && y == Flat(ys)[|Flat(ys')|..];
      }
    }
  }

  // ---------------------------------------------------------------- exactly when

  // The order of arrival in the mailbox is that of the log, direct events first, as far as the lines tell.
  ghost predicate InLogOrder(m: Moment, items: seq<Item>) {
    LinesOf(Among(items, Ids(Drained(m.felt)))) == LinesOf(Drained(m.felt))
  }

  // Where nothing at all was perceived, no tick with a memo also has a goal that moved the actor.
  ghost predicate NoStrayMood(m: Moment, items: seq<Item>) { items == [] && m.memos != [] ==> Unmoved(m) }

  lemma BlockOfMoment(history: seq<Moment>, items: seq<Item>, i: nat)
    requires Recorded(history, items) && Provable(items, Shifts(history)) && i < |history|
    ensures var block := RebuiltBlock(items, Shifts(history), Notes(history), history[i].tick);
            && |block| >= |WrittenIn(history[i])|
            && (block == WrittenIn(history[i]) <==> InLogOrder(history[i], items) && NoStrayMood(history[i], items))
  {
    hide ItemsAt, NotesAt, MoodAt, Shifts, Notes, Among, LinesOf, Unmoved, Drained, Ids, ShiftsIn, Provable, Recorded;
    var m := history[i];
    RecordedTicks(history, items);
    PerceptionsOfMoment(history, items, i);
    NotesOfMoment(history, i);
    MoodOfMoment(history, i);
    if items != [] {
      AllStored(history, items, i);
    } else {
      NothingAmong(Ids(Drained(m.felt)));
    }
    MoodInMoment(m);
    SameMiddle(LinesOf(Among(items, Ids(Drained(m.felt)))), LinesOf(Drained(m.felt)),
               AsSeq(MoodAt(Shifts(history), m.tick)), if m.felt == [] then [] else [m.felt[|m.felt| - 1].mood], m.memos);
  }

  lemma NothingAmong(ids: set<string>)
    ensures Among([], ids) == []
  {
  }

  lemma RecordedTicks(history: seq<Moment>, items: seq<Item>)
    requires Recorded(history, items)
    ensures TicksRise(history)
  {
  }

  lemma SameMiddle(xs: seq<string>, ys: seq<string>, x: seq<string>, y: seq<string>, rest: seq<string>)
    requires |xs| == |ys|
    ensures |x| >= |y| ==> (xs + x + rest == ys + y + rest <==> xs == ys && x == y)
  {
    if |x| >= |y| && xs + x + rest == ys + y + rest {
      assert xs == (xs + x + rest)[..|xs|] && ys == (ys + y + rest)[..|ys|];
      assert x == (xs + x + rest)[|xs|..|xs + x|] && y == (ys + y + rest)[|ys|..|ys + y|];
    }
  }

  // Where the replay claims to know, it rebuilds the whole history of lines exactly when in every tick the actor's
  // mail had arrived in the order of the log, direct events before posts, and no goal has moved an actor that
  // perceived nothing.
  lemma RebuiltExactlyWhenInLogOrder(history: seq<Moment>, items: seq<Item>, ticks: seq<int>)
    requires Recorded(history, items) && Provable(items, Shifts(history))
    requires LookedAt(items, Shifts(history), Notes(history), ticks)
    ensures RebuiltOver(items, Shifts(history), Notes(history), ticks) == Written(history)
            <==> forall m :: m in history ==> InLogOrder(m, items) && NoStrayMood(m, items)
  {
    hide Shifts, Notes, Provable, RebuiltOver, RebuiltBlock, WrittenIn, Flat, InLogOrder, NoStrayMood, Looked, Recorded;
    var shifts, notes := Shifts(history), Notes(history);
    RecordedTicks(history, items);
    forall t | Looked(items, shifts, notes, t) ensures TickAmong(history, t) { LookedIsAmong(history, items, t); }
    OverTheHistory(items, shifts, notes, history, ticks);
    var rebuilt, written := RebuiltBlocks(items, shifts, notes, history), Blocks(history);
    forall i | 0 <= i < |history|
      ensures |rebuilt[i]| >= |written[i]|
      ensures rebuilt[i] == written[i] <==> InLogOrder(history[i], items) && NoStrayMood(history[i], items)
    {
      BlockOfMoment(history, items, i);
    }
    SameBlocks(rebuilt, written);
    assert rebuilt == written <==> forall i :: 0 <= i < |history| ==> rebuilt[i] == written[i];
  }

  lemma LookedIsAmong(history: seq<Moment>, items: seq<Item>, t: int)
    requires Recorded(history, items) && Provable(items, Shifts(history)) && Looked(items, Shifts(history), Notes(history), t)
    ensures TickAmong(history, t)
  {
    hide Shifts, Notes, Provable, Recorded;
    if NotesAt(Notes(history), t) != [] {
      if !TickAmong(history, t) { NotesOutside(history, t); }
    } else {
      var x := ItemAtTick(items, Shifts(history), t);
      IdsOf(items, x.id);
      var at :| 0 <= at < |items| && items[at] == x;
      var j, shift := CauseFound(history, items, x.id);
    }
  }

  lemma {:induction false} ItemAtTick(items: seq<Item>, shifts: seq<Shift>, t: int) returns (x: Item)
    requires ItemsAt(items, shifts, t) != []
    ensures x in items && TickOf(shifts, x.id) == Some(t)
  {
    var last := items[|items| - 1];
    if TickOf(shifts, last.id) == Some(t) {
      x := last;
    } else {
      x := ItemAtTick(items[..|items| - 1], shifts, t);
    }
  }

  // Then what the replay reads is what the actor's memory held, line by line.
  lemma RebuiltIsTheBuffer(history: seq<Moment>, items: seq<Item>, ticks: seq<int>)
    requires Recorded(history, items) && Provable(items, Shifts(history))
    requires LookedAt(items, Shifts(history), Notes(history), ticks)
    requires forall m :: m in history ==> InLogOrder(m, items) && NoStrayMood(m, items)
    ensures Take(Reversed(RebuiltOver(items, Shifts(history), Notes(history), ticks)), 50) == OwnMemos.PushedAll(Written(history), 50)
  {
    hide *;
    RebuiltExactlyWhenInLogOrder(history, items, ticks);
    OwnMemos.BufferIsTheNewest(Written(history), 50);
  }

  // ---------------------------------------------------------------- when the replay claims to know

  // A perception with this id moved the actor enough to be stored.
  ghost predicate StoredIn(m: Moment, id: string) { exists k :: 0 <= k < |m.felt| && m.felt[k].stored && m.felt[k].item.id == id }

  lemma {:induction false} CausesFelt(tick: int, felt: seq<Felt>, id: string)
    ensures id in Causes(FeltShifts(tick, felt)) <==> exists k :: 0 <= k < |felt| && felt[k].stored && felt[k].item.id == id
  {
    if felt != [] {
      var init, f := felt[..|felt| - 1], felt[|felt| - 1];
      CausesFelt(tick, init, id);
      assert forall k :: 0 <= k < |init| ==> init[k] == felt[k];
      assert felt[|init|] == f;
      var shifts := FeltShifts(tick, init);
      if f.stored {
        assert (shifts + [Shift(tick, Some(f.item.id), f.mood)])[..|shifts|] == shifts;
      } else {
        assert shifts + [] == shifts;
      }
    }
  }

  lemma {:induction false} CausesOfGoals(tick: int, goals: seq<Goal>, id: string)
    ensures id in Causes(GoalShifts(tick, goals)) <==> exists k :: 0 <= k < |goals| && goals[k].cause == Some(id)
  {
    if goals != [] {
      var init, g := goals[..|goals| - 1], goals[|goals| - 1];
      CausesOfGoals(tick, init, id);
      assert forall k :: 0 <= k < |init| ==> init[k] == goals[k];
      var shifts := GoalShifts(tick, init);
      assert (shifts + [Shift(tick, g.cause, g.mood)])[..|shifts|] == shifts;
    }
  }

  ghost predicate MovedIn(history: seq<Moment>, id: string) {
    exists i :: 0 <= i < |history| && (StoredIn(history[i], id) || GoalOf(history[i], id))
  }

  lemma {:induction false} CausesAre(history: seq<Moment>, id: string)
    ensures id in Causes(Shifts(history)) <==> MovedIn(history, id)
  {
    hide StoredIn, GoalOf, Causes;
    if history == [] {
      NoCauses();
    } else {
      var init, m := history[..|history| - 1], history[|history| - 1];
      CausesAre(init, id);
      CausesConcat(Shifts(init), ShiftsIn(m));
      CausesOfMoment(m, id);
      assert forall i :: 0 <= i < |init| ==> init[i] == history[i];
    }
  }

  lemma NoCauses()
    ensures Causes([]) == {}
  {
  }

  lemma CausesOfMoment(m: Moment, id: string)
    ensures id in Causes(ShiftsIn(m)) <==> StoredIn(m, id) || GoalOf(m, id)
  {
    hide Causes, FeltShifts, GoalShifts;
    CausesConcat(FeltShifts(m.tick, m.felt), GoalShifts(m.tick, m.goals));
    CausesFelt(m.tick, m.felt, id);
    CausesOfGoals(m.tick, m.goals, id);
  }

  // The replay claims to know exactly when nothing reached the actor, or everything that did moved it enough to be
  // stored and no goal with a cause of its own moved it.
  lemma KnowsExactlyWhenAllWasStored(history: seq<Moment>, items: seq<Item>)
    requires Recorded(history, items)
    ensures Provable(items, Shifts(history))
            <==> items == [] || ((forall x :: x in items ==> exists m :: m in history && StoredIn(m, x.id))
                                 && forall m, id :: m in history ==> !GoalOf(m, id))
  {
    hide Causes, Shifts, StoredIn, GoalOf, Ids;
    var caused, ids := Causes(Shifts(history)), Ids(items);
    forall id ensures id in caused <==> MovedIn(history, id) { CausesAre(history, id); }
    forall id ensures id in ids <==> exists i :: 0 <= i < |items| && items[i].id == id { IdsOf(items, id); }
    if items != [] && caused == ids {
      forall x | x in items ensures exists m :: m in history && StoredIn(m, x.id) {
        var at :| 0 <= at < |items| && items[at] == x;
        assert x.id in caused;
        var i :| 0 <= i < |history| && (StoredIn(history[i], x.id) || GoalOf(history[i], x.id));
        assert history[i] in history;
      }
      forall m, id | m in history ensures !GoalOf(m, id) {
        var i :| 0 <= i < |history| && history[i] == m;
        GoalMoves(history, i, id);
      }
    }
    if (forall x :: x in items ==> exists m :: m in history && StoredIn(m, x.id)) && forall m, id :: m in history ==> !GoalOf(m, id) {
      forall id: string ensures id in caused <==> id in ids {
        EachWasStored(history, items, id);
      }
    }
  }

  lemma GoalMoves(history: seq<Moment>, i: nat, id: string)
    requires i < |history|
    ensures GoalOf(history[i], id) ==> MovedIn(history, id)
  {
    hide GoalOf, StoredIn;
  }

  lemma EachWasStored(history: seq<Moment>, items: seq<Item>, id: string)
    requires Recorded(history, items)
    requires forall x :: x in items ==> exists m :: m in history && StoredIn(m, x.id)
    requires forall m, id :: m in history ==> !GoalOf(m, id)
    ensures MovedIn(history, id) <==> id in Ids(items)
  {
    hide GoalOf, Ids, StoredIn, Recorded;
    IdsOf(items, id);
    if id in Ids(items) {
      var at :| 0 <= at < |items| && items[at].id == id;
      assert items[at] in items;
      var m :| m in history && StoredIn(m, id);
      var i :| 0 <= i < |history| && history[i] == m;
    }
    if MovedIn(history, id) {
      var i :| 0 <= i < |history| && (StoredIn(history[i], id) || GoalOf(history[i], id));
      assert history[i] in history;
      StoredIsRecorded(history, items, i, id);
    }
  }

  lemma StoredIsRecorded(history: seq<Moment>, items: seq<Item>, i: nat, id: string)
    requires Recorded(history, items) && i < |history| && StoredIn(history[i], id)
    ensures id in Ids(items)
  {
    hide GoalOf, Ids, FeltIn, DistinctIds;
    IdsOf(items, id);
    var k :| 0 <= k < |history[i].felt| && history[i].felt[k].stored && history[i].felt[k].item.id == id;
    var x := Drained(history[i].felt)[k];
    assert x in Drained(history[i].felt) && x in items;
    var at :| 0 <= at < |items| && items[at] == x;
  }

  // A post that arrived before a comment is put behind it.
  lemma APostBeforeAComment(tick: int, post: Item, comment: Item, moods: (string, string), ticks: seq<int>)
    requires post.id != comment.id && post.line != comment.line
    requires var history := [Moment(tick, [Felt(post, moods.0, true), Felt(comment, moods.1, true)], [], [])];
             LookedAt([comment] + [post], Shifts(history), Notes(history), ticks)
    ensures var history := [Moment(tick, [Felt(post, moods.0, true), Felt(comment, moods.1, true)], [], [])];
            var items := [comment] + [post];
            && Recorded(history, items) && Provable(items, Shifts(history))
            && RebuiltOver(items, Shifts(history), Notes(history), ticks) != Written(history)
  {
    hide RebuiltOver, LookedAt, Written, Looked, WrittenIn, Shifts, Notes, Among, LinesOf, Drained;
    var felt := [Felt(post, moods.0, true), Felt(comment, moods.1, true)];
    var m := Moment(tick, felt, [], []);
    var items := [comment] + [post];
    hide Ids, Causes, Recorded;
    assert Drained(felt) == [post, comment];
    TwoItems(post, comment);
    TwoItems(comment, post);
    assert items == [comment, post];
    AllAmong(items, Ids([post, comment]));
    CausesOfTwo(tick, felt[0], felt[1]);
    OnlyMoment(m, items);
    assert !InLogOrder(m, items) && m in [m];
    RebuiltExactlyWhenInLogOrder([m], items, ticks);
  }

  lemma TwoItems(x: Item, y: Item)
    ensures Ids([x, y]) == {x.id, y.id} && LinesOf([x, y]) == [x.line, y.line]
  {
    assert [x, y][..1] == [x] && [x][..0] == [];
    assert Ids([x]) == {x.id} && LinesOf([x]) == [x.line];
  }

  lemma {:induction false} AllAmong(items: seq<Item>, ids: set<string>)
    requires Ids(items) <= ids
    ensures Among(items, ids) == items
  {
    if items != [] {
      AllAmong(items[..|items| - 1], ids);
      assert items == items[..|items| - 1] + [items[|items| - 1]];
    }
  }

  lemma OnlyMoment(m: Moment, items: seq<Item>)
    requires DistinctIds(items) && DistinctIds(Drained(m.felt)) && (forall x :: x in Drained(m.felt) ==> x in items)
    requires forall k :: 0 <= k < |m.goals| && m.goals[k].cause.Some? ==> m.goals[k].cause.value !in Ids(items)
    ensures Recorded([m], items)
  {
    hide Drained, Ids, DistinctIds;
  }

  lemma CausesOfTwo(tick: int, x: Felt, y: Felt)
    requires x.stored && y.stored
    ensures Causes(Shifts([Moment(tick, [x, y], [], [])])) == {x.item.id, y.item.id}
  {
    var m := Moment(tick, [x, y], [], []);
    OneMoment(m);
    assert [x, y][..1] == [x] && [x][..0] == [];
    var sx, sy := Shift(tick, Some(x.item.id), x.mood), Shift(tick, Some(y.item.id), y.mood);
    assert FeltShifts(tick, [x]) == [sx];
    assert FeltShifts(tick, [x, y]) == [sx] + [sy];
    CausesConcat([sx], [sy]);
    assert [sx][..0] == [] && [sy][..0] == [];
    assert ShiftsIn(m) == [sx] + [sy];
  }

  lemma OneMoment(m: Moment)
    ensures Shifts([m]) == ShiftsIn(m)
  {
    hide ShiftsIn;
    assert [m][..0] == [];
    assert Shifts([m][..0]) == [];
  }

  // An actor that perceived nothing, and that a reached goal moved: the replay gives it a mood it never wrote down.
  lemma AStrayMood(tick: int, goal: string, mood: string, memo: string, ticks: seq<int>)
    requires var history := [Moment(tick, [], [Goal(Some(goal), mood)], [memo])];
             LookedAt([], Shifts(history), Notes(history), ticks)
    ensures var history := [Moment(tick, [], [Goal(Some(goal), mood)], [memo])];
            && Recorded(history, []) && Provable([], Shifts(history))
            && RebuiltOver([], Shifts(history), Notes(history), ticks) != Written(history)
  {
    hide RebuiltOver, LookedAt, Written, Looked, WrittenIn, Shifts, Notes, Among, LinesOf;
    var m := Moment(tick, [], [Goal(Some(goal), mood)], [memo]);
    OnlyMoment(m, []);
    assert m.goals[0].cause.Some?;
    assert !NoStrayMood(m, []) && m in [m];
    RebuiltExactlyWhenInLogOrder([m], [], ticks);
  }
}
