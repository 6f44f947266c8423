// What an actor writes down about its own doings, and how a replay rebuilds it from the stored events.
module OwnMemos {
  import opened Prelude
  import opened Envelopes
  import Conversation

  type Names = map<string, string>

  function NameOf(names: Names, id: string): string { if id in names then names[id] else id }

  function ActionLabel(kind: string): string {
    var labels := map["work" := "일", "rest" := "쉼", "observe" := "관찰", "move" := "이동", "reflect_quietly" := "혼자 생각",
                      "speak" := "대화", "confront" := "대면", "help" := "도움", "confess" := "고백", "sever" := "절연"];
    if kind in labels then labels[kind] else kind
  }

  // ---------------------------------------------------------------- the wording

  function ActionMemo(tick: nat, kind: string, intent: string): string {
    Conversation.TickPrefix(tick) + "나는 " + ActionLabel(kind) + " — " + intent
  }

  function ToActorMemo(tick: nat, who: string, text: string): string {
    Conversation.TickPrefix(tick) + "나는 " + who + "의 댓글에 답했다 — \"" + text + "\""
  }

  function ToPlayerMemo(tick: nat, player: string, text: string): string {
    Conversation.Line(Conversation.Replied(tick, player, text))
  }

  function OutreachMemo(tick: nat, player: string, text: string): string {
    Conversation.Line(Conversation.ReachedOut(tick, player, text))
  }

  function RemarkMemo(tick: nat, name: string, text: string): string {
    Conversation.TickPrefix(tick) + "나는 " + name + "의 글에 댓글을 남겼다 — \"" + text + "\""
  }

  // A conclusion about a while, which carries no tick.
  function BeliefMemo(statement: string): string { "곱씹은 생각: " + statement }

  // ---------------------------------------------------------------- as written in the tick

  function ReplyMemo(tick: nat, names: Names, r: Reply): string {
    match r.source
    case ActorComment(_, commenter, _) => ToActorMemo(tick, NameOf(names, commenter), r.text)
    case _ => ToPlayerMemo(tick, r.source.player, r.text)
  }

  // ---------------------------------------------------------------- as rebuilt from an event

  predicate Given(o: Option<string>) { o.Some? && o.value != "" }

  function MemoForOwnEvent(names: Names, e: Event): Option<string> {
    match e.payload
    case Action(kind, intent) => Some(ActionMemo(e.tick, kind, intent))
    case Belief(statement) => Some(BeliefMemo(statement))
    case Message(_, player, target, text, post, inReplyTo) =>
      if Given(player) then
        if inReplyTo.None? then Some(OutreachMemo(e.tick, player.value, text)) else Some(ToPlayerMemo(e.tick, player.value, text))
      else if !Given(target) then None
      else if Given(post) && inReplyTo == post then Some(RemarkMemo(e.tick, NameOf(names, target.value), text))
      else Some(ToActorMemo(e.tick, NameOf(names, target.value), text))
    case _ => None
  }

  function Rebuilt(names: Names, events: seq<Event>): seq<string> {
    if events == [] then []
    else
      var memo := MemoForOwnEvent(names, events[|events| - 1]);
      Rebuilt(names, events[..|events| - 1]) + if memo.Some? then [memo.value] else []
  }

  // ---------------------------------------------------------------- a tick's doings

  datatype Doing =
    | Decided(actor: string, purpose: string)
    | Replied(reply: Reply)
    | ReachedOut(outreach: Outreach)
    | Remarked(remark: Remark)
    | Acted(intent: Intent)
    | Concluded(actor: string, statement: string, source: Option<string>)

  function Doer(d: Doing): string {
    match d
    case Decided(actor, _) => actor
    case Replied(r) => r.actor
    case ReachedOut(o) => o.actor
    case Remarked(m) => m.actor
    case Acted(i) => i.actor
    case Concluded(actor, _, _) => actor
  }

  function EventOf(tick: nat, d: Doing): Event {
    match d
    case Decided(actor, purpose) => DecisionEvent(tick, actor, purpose)
    case Replied(r) => ReplyEvent(tick, r)
    case ReachedOut(o) => OutreachEvent(tick, o)
    case Remarked(m) => RemarkEvent(tick, m)
    case Acted(i) => IntentEvent(tick, i)
    case Concluded(actor, statement, source) => BeliefEvent(tick, actor, statement, source)
  }

  function WrittenMemo(tick: nat, names: Names, d: Doing): Option<string> {
    match d
    case Decided(_, _) => None
    case Replied(r) => Some(ReplyMemo(tick, names, r))
    case ReachedOut(o) => Some(OutreachMemo(tick, o.player, o.text))
    case Remarked(m) => Some(RemarkMemo(tick, NameOf(names, m.author), m.text))
    case Acted(i) => Some(ActionMemo(tick, i.kind, i.intent))
    case Concluded(_, statement, _) => Some(BeliefMemo(statement))
  }

  // What one actor stores and writes down, given the doings in the order they are resolved.
  function EventsOf(tick: nat, doings: seq<Doing>, actor: string): seq<Event> {
    if doings == [] then []
    else
      var d := doings[|doings| - 1];
      EventsOf(tick, doings[..|doings| - 1], actor) + if Doer(d) == actor then [EventOf(tick, d)] else []
  }

  function MemosOf(tick: nat, names: Names, doings: seq<Doing>, actor: string): seq<string> {
    if doings == [] then []
    else
      var d := doings[|doings| - 1];
      var memo := WrittenMemo(tick, names, d);
      MemosOf(tick, names, doings[..|doings| - 1], actor) + if Doer(d) == actor && memo.Some? then [memo.value] else []
  }

  // Ids are given, and an event is not the post it is about.
  predicate Named(d: Doing) {
    match d
    case Replied(r) =>
      (match r.source
       case ActorComment(id, commenter, post) => commenter != "" && id != post
       case _ => r.source.player != "")
    case ReachedOut(o) => o.player != ""
    case Remarked(m) => m.author != "" && m.post != ""
    case _ => true
  }

  predicate Short(d: Doing) {
    match d
    case Replied(r) => |r.text| <= TEXT_MAX
    case ReachedOut(o) => |o.text| <= TEXT_MAX
    case Remarked(m) => |m.text| <= TEXT_MAX
    case _ => true
  }

  // ---------------------------------------------------------------- rebuilt exactly

  lemma TextTakenIsWhole(text: string)
    ensures Take(text, TEXT_MAX) == text <==> |text| <= TEXT_MAX
    ensures |Take(text, TEXT_MAX)| == |text| <==> |text| <= TEXT_MAX
  {
  }

  // A memo is longer the longer its text.
  lemma MemoLengths(tick: nat, who: string, text: string)
    ensures |ToActorMemo(tick, who, text)| == |ToActorMemo(tick, who, "")| + |text|
    ensures |RemarkMemo(tick, who, text)| == |RemarkMemo(tick, who, "")| + |text|
    ensures |ToPlayerMemo(tick, who, text)| == |ToPlayerMemo(tick, who, "")| + |text|
    ensures |OutreachMemo(tick, who, text)| == |OutreachMemo(tick, who, "")| + |text|
  {
  }

  lemma ReplyRebuiltExactlyWhenShort(tick: nat, names: Names, r: Reply)
    requires Named(Replied(r))
    ensures MemoForOwnEvent(names, ReplyEvent(tick, r)).Some?
    ensures MemoForOwnEvent(names, ReplyEvent(tick, r)) == Some(ReplyMemo(tick, names, r)) <==> |r.text| <= TEXT_MAX
  {
    TextTakenIsWhole(r.text);
    hide Take, Conversation.TickPrefix;
    var memo := MemoForOwnEvent(names, ReplyEvent(tick, r));
    match r.source
    case ActorComment(id, commenter, post) =>
      assert memo == Some(ToActorMemo(tick, NameOf(names, commenter), Take(r.text, TEXT_MAX)));
      MemoLengths(tick, NameOf(names, commenter), r.text);
      MemoLengths(tick, NameOf(names, commenter), Take(r.text, TEXT_MAX));
    case _ =>
      assert memo == Some(ToPlayerMemo(tick, r.source.player, Take(r.text, TEXT_MAX)));
      MemoLengths(tick, r.source.player, r.text);
      MemoLengths(tick, r.source.player, Take(r.text, TEXT_MAX));
  }

  // A memo rebuilt from the stored event is the memo written exactly when the text was stored whole.
  lemma MemoRebuiltExactlyWhenShort(tick: nat, names: Names, d: Doing)
    requires Named(d)
    ensures MemoForOwnEvent(names, EventOf(tick, d)).Some? <==> WrittenMemo(tick, names, d).Some?
    ensures MemoForOwnEvent(names, EventOf(tick, d)) == WrittenMemo(tick, names, d) <==> Short(d)
  {
    hide Take, ReplyEvent, ReplyMemo, Conversation.TickPrefix;
    match d
    case Replied(r) => ReplyRebuiltExactlyWhenShort(tick, names, r);
    case ReachedOut(o) =>
      TextTakenIsWhole(o.text);
      MemoLengths(tick, o.player, o.text);
      MemoLengths(tick, o.player, Take(o.text, TEXT_MAX));
    case Remarked(m) =>
      TextTakenIsWhole(m.text);
      MemoLengths(tick, NameOf(names, m.author), m.text);
      MemoLengths(tick, NameOf(names, m.author), Take(m.text, TEXT_MAX));
    case _ =>
  }

  // For every actor, the replay's memory of the tick is what the tick wrote, line by line, exactly when all its
  // texts were stored whole.
  lemma {:induction false} TickRebuiltExactlyWhenShort(tick: nat, names: Names, doings: seq<Doing>, actor: string)
    requires forall d :: d in doings ==> Named(d)
    ensures |Rebuilt(names, EventsOf(tick, doings, actor))| == |MemosOf(tick, names, doings, actor)|
    ensures Rebuilt(names, EventsOf(tick, doings, actor)) == MemosOf(tick, names, doings, actor)
            <==> forall d :: d in doings && Doer(d) == actor ==> Short(d)
  {
    hide MemoForOwnEvent, WrittenMemo, EventOf, Short, Named, Doer;
    if doings != [] {
      var init, d := doings[..|doings| - 1], doings[|doings| - 1];
      assert forall x :: x in doings <==> x in init || x == d;
      TickRebuiltExactlyWhenShort(tick, names, init, actor);
      if Doer(d) == actor {
        MemoRebuiltExactlyWhenShort(tick, names, d);
        var events := EventsOf(tick, init, actor);
        var e := EventOf(tick, d);
        assert (events + [e])[..|events|] == events;
        LastDiffers(Rebuilt(names, events), MemosOf(tick, names, init, actor), MemoForOwnEvent(names, e), WrittenMemo(tick, names, d));
      } else {
        assert EventsOf(tick, init, actor) + [] == EventsOf(tick, init, actor);
      }
    }
  }

  lemma WordingsDiffer(tick: nat, who: string, text: string)
    ensures |RemarkMemo(tick, who, text)| > |ToActorMemo(tick, who, text)|
    ensures |OutreachMemo(tick, who, text)| > |ToPlayerMemo(tick, who, text)|
  {
    hide Conversation.TickPrefix;
  }

  // The same words to the same person read differently when they answer and when they come of one's own accord, both
  // as written and as rebuilt.
  lemma AnswersReadDifferently(tick: nat, names: Names, answer: Doing, own: Doing)
    requires Named(answer) && Named(own) && Short(answer) && Short(own) && answer.Replied?
    requires match answer.reply.source
             case ActorComment(_, commenter, _) => own.Remarked? && own.remark.author == commenter && own.remark.text == answer.reply.text
             case _ => own.ReachedOut? && own.outreach.player == answer.reply.source.player && own.outreach.text == answer.reply.text
    ensures WrittenMemo(tick, names, answer) != WrittenMemo(tick, names, own)
    ensures MemoForOwnEvent(names, EventOf(tick, answer)) != MemoForOwnEvent(names, EventOf(tick, own))
  {
    hide MemoForOwnEvent, EventOf, ToActorMemo, RemarkMemo, ToPlayerMemo, OutreachMemo;
    MemoRebuiltExactlyWhenShort(tick, names, answer);
    MemoRebuiltExactlyWhenShort(tick, names, own);
    match answer.reply.source
    case ActorComment(_, commenter, _) => WordingsDiffer(tick, NameOf(names, commenter), answer.reply.text);
    case _ => WordingsDiffer(tick, answer.reply.source.player, answer.reply.text);
  }

  // What is stored for an actor are its own events of the tick, and every doing is stored for somebody.
  lemma {:induction false} EventsAreOnesOwn(tick: nat, doings: seq<Doing>, actor: string)
    ensures forall e :: e in EventsOf(tick, doings, actor) ==> e.actor == Some(actor) && e.tick == tick
    ensures forall d :: d in doings && EventOf(tick, d).actor == Some(actor) ==> EventOf(tick, d) in EventsOf(tick, doings, actor)
  {
    hide EventOf, Doer;
    if doings != [] {
      var init, d := doings[..|doings| - 1], doings[|doings| - 1];
      EventsAreOnesOwn(tick, init, actor);
      EventOfDoer(tick, d);
      assert doings == init + [d];
    }
  }

  lemma EventOfDoer(tick: nat, d: Doing)
    ensures EventOf(tick, d).actor == Some(Doer(d)) && EventOf(tick, d).tick == tick
  {
  }

  // The longest texts the schemas of the model's answers allow; the rules' own sentences are shorter.
  const REPLY_MAX: nat := 600
  const COMMENT_MAX: nat := 500

  predicate WithinSchemas(d: Doing) {
    match d
    case Replied(r) => |r.text| <= REPLY_MAX
    case ReachedOut(o) => |o.text| <= REPLY_MAX
    case Remarked(m) => |m.text| <= COMMENT_MAX
    case _ => true
  }

  // So every tick whose texts keep to the schemas is rebuilt exactly, for every actor.
  lemma SchemasKeepTicksWhole(tick: nat, names: Names, doings: seq<Doing>)
    requires forall d :: d in doings ==> Named(d) && WithinSchemas(d)
    ensures forall actor :: Rebuilt(names, EventsOf(tick, doings, actor)) == MemosOf(tick, names, doings, actor)
  {
    hide EventsOf, MemosOf, Rebuilt, Named;
    forall actor ensures Rebuilt(names, EventsOf(tick, doings, actor)) == MemosOf(tick, names, doings, actor) {
      TickRebuiltExactlyWhenShort(tick, names, doings, actor);
    }
  }

  function AsSeq(o: Option<string>): seq<string> { if o.Some? then [o.value] else [] }

  lemma LastDiffers(xs: seq<string>, ys: seq<string>, x: Option<string>, y: Option<string>)
    requires |xs| == |ys| && (x.Some? <==> y.Some?)
    ensures xs + AsSeq(x) == ys + AsSeq(y) <==> xs == ys && x == y
  {
    if xs + AsSeq(x) == ys + AsSeq(y) {
      assert xs == (xs + AsSeq(x))[..|xs|] == (ys + AsSeq(y))[..|ys|] == ys;
      assert AsSeq(x) == (xs + AsSeq(x))[|xs|..] == (ys + AsSeq(y))[|ys|..] == AsSeq(y);
    }
  }

  // ---------------------------------------------------------------- resolving a tick

  function At<T>(m: map<string, seq<T>>, actor: string): seq<T> { if actor in m then m[actor] else [] }

  function Doings(decided: seq<(string, string)>, replies: seq<Reply>, outreach: seq<Outreach>, remarks: seq<Remark>,
                  intents: seq<Intent>): seq<Doing>
  {
    seq(|decided|, i requires 0 <= i < |decided| => Decided(decided[i].0, decided[i].1))
    + seq(|replies|, i requires 0 <= i < |replies| => Replied(replies[i]))
    + seq(|outreach|, i requires 0 <= i < |outreach| => ReachedOut(outreach[i]))
    + seq(|remarks|, i requires 0 <= i < |remarks| => Remarked(remarks[i]))
    + seq(|intents|, i requires 0 <= i < |intents| => Acted(intents[i]))
  }

  function Conclusions(beliefs: seq<(string, string, Option<string>)>): seq<Doing> {
    seq(|beliefs|, i requires 0 <= i < |beliefs| => Concluded(beliefs[i].0, beliefs[i].1, beliefs[i].2))
  }

  lemma OneMore(tick: nat, names: Names, doings: seq<Doing>, d: Doing, actor: string)
    ensures EventsOf(tick, doings + [d], actor)
            == if Doer(d) == actor then EventsOf(tick, doings, actor) + [EventOf(tick, d)] else EventsOf(tick, doings, actor)
    ensures MemosOf(tick, names, doings + [d], actor)
            == if Doer(d) == actor && WrittenMemo(tick, names, d).Some?
               then MemosOf(tick, names, doings, actor) + [WrittenMemo(tick, names, d).value] else MemosOf(tick, names, doings, actor)
  {
    hide WrittenMemo, EventOf;
    assert (doings + [d])[..|doings|] == doings;
  }

  // The queues of one tick, resolved queue by queue.
  class Resolution {
    const tick: nat
    const names: Names
    var eventsByActor: map<string, seq<Event>>
    var memos: map<string, seq<string>>

    // The doings so far are those stored and written down.
    ghost predicate Holds(doings: seq<Doing>)
      reads this
    {
      forall a :: At(eventsByActor, a) == EventsOf(tick, doings, a) && At(memos, a) == MemosOf(tick, names, doings, a)
    }

    constructor (tick: nat, names: Names)
      ensures this.tick == tick && this.names == names && Holds([])
    {
      this.tick, this.names, eventsByActor, memos := tick, names, map[], map[];
    }

    method Add(d: Doing, ghost before: seq<Doing>)
      requires Holds(before)
      modifies this
      ensures Holds(before + [d])
    {
      hide WrittenMemo, EventOf, EventsOf, MemosOf, Doer;
      var actor := Doer(d);
      eventsByActor := eventsByActor[actor := At(eventsByActor, actor) + [EventOf(tick, d)]];
      var memo := WrittenMemo(tick, names, d);
      if memo.Some? {
        memos := memos[actor := At(memos, actor) + [memo.value]];
      }
      forall a ensures At(eventsByActor, a) == EventsOf(tick, before + [d], a)
               ensures At(memos, a) == MemosOf(tick, names, before + [d], a)
      {
        OneMore(tick, names, before, d, a);
      }
    }

    method Resolve(decided: seq<(string, string)>, replies: seq<Reply>, outreach: seq<Outreach>, remarks: seq<Remark>,
                   intents: seq<Intent>)
      requires Holds([])
      modifies this
      ensures Holds(Doings(decided, replies, outreach, remarks, intents))
    {
      hide Holds;
      ghost var all := Doings(decided, replies, outreach, remarks, intents);
      ghost var n := 0;
      assert all[..0] == [];
      for i := 0 to |decided|
        invariant n == i && Holds(all[..n])
      {
        assert all[..n + 1] == all[..n] + [all[n]] && all[n] == Decided(decided[i].0, decided[i].1);
        Add(Decided(decided[i].0, decided[i].1), all[..n]);
        n := n + 1;
      }
      for i := 0 to |replies|
        invariant n == |decided| + i && Holds(all[..n])
      {
        assert all[..n + 1] == all[..n] + [all[n]] && all[n] == Replied(replies[i]);
        Add(Replied(replies[i]), all[..n]);
        n := n + 1;
      }
      for i := 0 to |outreach|
        invariant n == |decided| + |replies| + i && Holds(all[..n])
      {
        assert all[..n + 1] == all[..n] + [all[n]] && all[n] == ReachedOut(outreach[i]);
        Add(ReachedOut(outreach[i]), all[..n]);
        n := n + 1;
      }
      for i := 0 to |remarks|
        invariant n == |decided| + |replies| + |outreach| + i && Holds(all[..n])
      {
        assert all[..n + 1] == all[..n] + [all[n]] && all[n] == Remarked(remarks[i]);
        Add(Remarked(remarks[i]), all[..n]);
        n := n + 1;
      }
      for i := 0 to |intents|
        invariant n == |decided| + |replies| + |outreach| + |remarks| + i && Holds(all[..n])
      {
        assert all[..n + 1] == all[..n] + [all[n]] && all[n] == Acted(intents[i]);
        Add(Acted(intents[i]), all[..n]);
        n := n + 1;
      }
      assert all[..n] == all;
    }

    // At the end of the tick the beliefs worth telling are stored and written down, one by one.
    method Reflect(beliefs: seq<(string, string, Option<string>)>, ghost before: seq<Doing>)
      requires Holds(before)
      modifies this
      ensures Holds(before + Conclusions(beliefs))
    {
      hide Holds;
      ghost var all := Conclusions(beliefs);
      assert before + all[..0] == before;
      for i := 0 to |beliefs|
        invariant Holds(before + all[..i])
      {
        assert before + all[..i + 1] == (before + all[..i]) + [all[i]];
        Add(Concluded(beliefs[i].0, beliefs[i].1, beliefs[i].2), before + all[..i]);
      }
      assert all[..|beliefs|] == all;
    }
  }

  // ---------------------------------------------------------------- the buffer

  const MAX_ENTRIES: nat := 50

  // Pushed at the front and trimmed after every entry.
  function Pushed(buffer: seq<string>, entry: string, max: nat): seq<string> { Take([entry] + buffer, max) }

  function PushedAll(entries: seq<string>, max: nat): seq<string> {
    if entries == [] then [] else Pushed(PushedAll(entries[..|entries| - 1], max), entries[|entries| - 1], max)
  }

  lemma {:induction false} ReversedOneMore(entries: seq<string>, entry: string)
    ensures Reversed(entries + [entry]) == [entry] + Reversed(entries)
  {
  }

  // Trimming after every entry keeps the newest entries of the whole history, newest first.
  lemma {:induction false} BufferIsTheNewest(entries: seq<string>, max: nat)
    ensures PushedAll(entries, max) == Take(Reversed(entries), max)
  {
    if entries != [] {
      var init, entry := entries[..|entries| - 1], entries[|entries| - 1];
      BufferIsTheNewest(init, max);
      ReversedOneMore(init, entry);
      assert init + [entry] == entries;
      assert Take([entry] + Take(Reversed(init), max), max) == Take([entry] + Reversed(init), max);
    }
  }

  // What a decision reads of the buffer is what it would read of the whole history.
  lemma ReadingIsTheNewest(entries: seq<string>, limit: nat)
    requires limit <= 50
    ensures MAX_ENTRIES == 50 && Take(PushedAll(entries, MAX_ENTRIES), limit) == Take(Reversed(entries), limit)
  {
    BufferIsTheNewest(entries, MAX_ENTRIES);
  }

  class WorkingMemory {
    const max: nat
    var buffer: seq<string>

    constructor (max: nat)
      ensures this.max == max && buffer == []
    {
      this.max, buffer := max, [];
    }

    method Add(entry: string, ghost history: seq<string>)
      requires buffer == Take(Reversed(history), max)
      modifies this
      ensures buffer == Take(Reversed(history + [entry]), max)
    {
      buffer := [entry] + buffer;
      if |buffer| > max {
        buffer := buffer[..max];
      }
      BufferIsTheNewest(history, max);
      BufferIsTheNewest(history + [entry], max);
      assert (history + [entry])[..|history|] == history;
    }

    // Reads the newest lines of the history, as far as the buffer goes back.
    method Recent(limit: nat, ghost history: seq<string>) returns (lines: seq<string>)
      requires buffer == Take(Reversed(history), max)
      ensures lines == Take(Reversed(history), Min(limit, max))
    {
      lines := if |buffer| <= limit then buffer else buffer[..limit];
    }
  }
}
