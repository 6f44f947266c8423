// Working-memory lines about players, and the parser that reads a conversation back out of them.
module Conversation {
  import opened Prelude
  import opened LineMatch

  // ---------------------------------------------------------------- what is printed

  datatype Interaction =
    | Dm(player: string, text: string)
    | Comment(player: string, text: string)
    | Reaction(player: string)
    | Incident(description: string)
    | Observation(observation: string)
    | FeedPost(name: string, title: string, body: string)
    | ActorComment(name: string, text: string)
    | OtherKind(kind: string)

  // One line of working memory: something perceived, one of the two memos about a player, or any other memo.
  datatype Entry =
    | Perceived(interaction: Interaction)
    | Replied(tick: nat, player: string, text: string)
    | ReachedOut(tick: nat, player: string, text: string)
    | Note(line: string)

  function PlayerLead(): string { "플레이어 " }
  function Mark(): string { "나는 플레이어 " }
  function DmTail(): string { "의 DM: \"" }
  function CommentTail(): string { "가 내 글에 댓글을 남겼다: \"" }
  function ReactionTail(): string { "가 내 글에 좋아요를 눌렀다" }
  function ReplyTail(): string { "에게 답했다 — \"" }
  function OutreachTail(): string { "에게 먼저 안부를 건넸다 — \"" }

  function Digit(d: nat): char
    requires d < 10
  {
    ['0', '1', '2', '3', '4', '5', '6', '7', '8', '9'][d]
  }

  function Decimal(n: nat): (s: string)
    ensures forall c :: c in s ==> '0' <= c <= '9'
  {
    if n < 10 then [Digit(n)] else Decimal(n / 10) + [Digit(n % 10)]
  }

  function TickPrefix(tick: nat): string { "tick " + Decimal(tick) + ": " }

  // How a perceived envelope is put into words.
  function Describe(i: Interaction): string {
    match i
    case Dm(p, text) => PlayerLead() + (p + DmTail() + (text + "\""))
    case Comment(p, text) => PlayerLead() + (p + CommentTail() + (text + "\""))
    case Reaction(p) => PlayerLead() + (p + ReactionTail() + "")
    case Incident(d) => "세계 사건: " + d
    case Observation(o) => "문득 알아차렸다: " + o
    case FeedPost(name, title, body) => "피드에서 " + name + "의 글을 봤다 — " + title + ": \"" + Take(body, 80) + "\""
    case ActorComment(name, text) => name + "이(가) 내 글에 댓글을 남겼다: \"" + text + "\""
    case OtherKind(kind) => PlayerLead() + ("상호작용" + ": " + kind)
  }

  function Line(e: Entry): string {
    match e
    case Perceived(i) => Describe(i)
    case Replied(t, p, text) => TickPrefix(t) + (Mark() + (p + ReplyTail() + (text + "\"")))
    case ReachedOut(t, p, text) => TickPrefix(t) + (Mark() + (p + OutreachTail() + (text + "\"")))
    case Note(line) => line
  }

  // ---------------------------------------------------------------- what is read

  datatype Speaker = Player | Me
  datatype Turn = Turn(speaker: Speaker, text: string)

  function DmIn(): Pattern { Pattern(PlayerLead(), DmTail()) }
  function CommentIn(): Pattern { Pattern(PlayerLead(), CommentTail()) }
  function ReplyOut(): Pattern { Pattern(Mark(), ReplyTail()) }
  function OutreachOut(): Pattern { Pattern(Mark(), OutreachTail()) }

  predicate Names(m: Option<Found>, q: string) { m.Some? && m.value.id == q }

  // The first pattern whose match names the player decides.
  function ReadTurn(line: string, q: string): Option<Turn> {
    if Names(Match(DmIn(), line), q) then Some(Turn(Player, Match(DmIn(), line).value.text))
    else if Names(Match(CommentIn(), line), q) then Some(Turn(Player, Match(CommentIn(), line).value.text))
    else if Names(Search(ReplyOut(), line), q) then Some(Turn(Me, Search(ReplyOut(), line).value.text))
    else if Names(Search(OutreachOut(), line), q) then Some(Turn(Me, Search(OutreachOut(), line).value.text))
    else None
  }

  function AsSeq(t: Option<Turn>): seq<Turn> { if t.Some? then [t.value] else [] }

  function ReadTurns(lines: seq<string>, q: string): seq<Turn> {
    if lines == [] then [] else AsSeq(ReadTurn(lines[0], q)) + ReadTurns(lines[1..], q)
  }

  // ---------------------------------------------------------------- what should be read

  function SaidBy(p: string, q: string, t: Turn): Option<Turn> { if p == q then Some(t) else None }

  function Meant(e: Entry, q: string): Option<Turn> {
    match e
    case Perceived(Dm(p, text)) => SaidBy(p, q, Turn(Player, text))
    case Perceived(Comment(p, text)) => SaidBy(p, q, Turn(Player, text))
    case Replied(_, p, text) => SaidBy(p, q, Turn(Me, text))
    case ReachedOut(_, p, text) => SaidBy(p, q, Turn(Me, text))
    case _ => None
  }

  function MeantTurns(log: seq<Entry>, q: string): seq<Turn> {
    if log == [] then [] else AsSeq(Meant(log[0], q)) + MeantTurns(log[1..], q)
  }

  function Lines(log: seq<Entry>): (r: seq<string>)
    ensures |r| == |log| && forall i :: 0 <= i < |log| ==> r[i] == Line(log[i])
  {
    if log == [] then [] else [Line(log[0])] + Lines(log[1..])
  }

  // Player ids are non-empty and free of blanks; no other line begins like a player's.
  ghost predicate Id(p: string) { p != "" && NonBlank(p) }

  ghost predicate Proper(e: Entry) {
    match e
    case Perceived(Dm(p, _)) => Id(p)
    case Perceived(Comment(p, _)) => Id(p)
    case Perceived(Reaction(p)) => Id(p)
    case Perceived(ActorComment(name, _)) => !StartsWith(name, PlayerLead())
    case Replied(_, p, _) => Id(p)
    case ReachedOut(_, p, _) => Id(p)
    case Note(line) => !StartsWith(line, PlayerLead())
    case _ => true
  }

  // ---------------------------------------------------------------- forged turns

  // A text that, read on its own, contains a memo of the actor's about this player.
  predicate Forges(p: Pattern, text: string, q: string) { Names(Search(p, text), q) }

  predicate ForgesEither(text: string, q: string) { Forges(ReplyOut(), text, q) || Forges(OutreachOut(), text, q) }

  // The entries whose free text misleads the reader about a player's conversation.
  predicate Misleading(e: Entry, q: string) {
    match e
    case Perceived(Dm(p, text)) => p != q && ForgesEither(text + "\"", q)
    case Perceived(Comment(p, text)) => p != q && ForgesEither(text + "\"", q)
    case Perceived(Reaction(_)) => false
    case Perceived(OtherKind(kind)) => ForgesEither(kind, q)
    case Replied(_, p, text) => p != q && Forges(OutreachOut(), text + "\"", q)
    case ReachedOut(_, p, text) => Forges(ReplyOut(), text + "\"", q)
    case Perceived(Incident(d)) => ForgesEither(d, q)
    case Perceived(Observation(o)) => ForgesEither(o, q)
    case Perceived(FeedPost(name, title, body)) => ForgesEither(name + SawPost(title, body), q)
    case Perceived(ActorComment(name, text)) => ForgesEither(name + GotComment(text), q)
    case Note(line) => ForgesEither(line, q)
  }

  // A name, a title or a text may hold the mark of a memo, and what follows it may complete one.
  function SawPost(title: string, body: string): string { "의 글을 봤다 — " + title + ": \"" + Take(body, 80) + "\"" }

  function GotComment(text: string): string { "이(가) 내 글에 댓글을 남겼다: \"" + text + "\"" }

  // ---------------------------------------------------------------- facts about the wording

  lemma TailsAreWords()
    ensures WordFirst(DmTail(), 1) && WordFirst(CommentTail(), 1) && WordFirst(ReactionTail(), 1) && WordFirst(": ", 1)
  {
  }

  lemma ReplyTailIsWord()
    ensures WordFirst(ReplyTail(), 2)
  {
    assert forall c :: c in ReplyTail()[..2] ==> c == '에' || c == '게';
  }

  lemma OutreachTailIsWord()
    ensures WordFirst(OutreachTail(), 2)
  {
    assert forall c :: c in OutreachTail()[..2] ==> c == '에' || c == '게';
  }

  lemma MarkIsWord()
    ensures WordFirst(Mark(), 2) && Mark()[0] == '나' && Mark()[1] == '는' && '나' !in Mark()[1..] && '나' !in PlayerLead()
  {
    assert forall c :: c in Mark()[..2] ==> c == '나' || c == '는';
  }

  // Where a player's mark stands in a string.
  lemma MarkPlace(s: string, j: nat)
    requires j <= |s|
    ensures StartsWith(s[j..], Mark()) ==>
              j + 1 < |s| && s[j] == '나' && s[j + 1] == '는' && (j <= Run(s) ==> j + 2 == Run(s))
  {
    MarkIsWord();
    if StartsWith(s[j..], Mark()) {
      assert s[j] == s[j..][0] && s[j + 1] == s[j..][1];
      hide Mark, Run;
      if j <= Run(s) { TailPosition(s, Mark(), 2, j); }
    }
  }

  // It cannot begin inside an identifier followed by a tail that begins with a word other than the mark's.
  lemma NoMarkInside(id: string, tail: string, w: nat, rest: string)
    requires NonBlank(id) && WordFirst(tail, w) && '나' !in tail && tail[w - 1] != '는'
    ensures forall j :: 0 <= j < |id + tail| ==> !StartsWith((id + tail + rest)[j..], Mark())
  {
    hide Mark, NonBlank, Run, StartsWith;
    var s := id + tail + rest;
    RunThroughWord(id, tail, w, rest);
    assert forall i :: |id| <= i < |id + tail| ==> s[i] == tail[i - |id|] && tail[i - |id|] in tail;
    assert s[|id| + w - 1] == tail[w - 1];
    forall j | 0 <= j < |id + tail| ensures !StartsWith(s[j..], Mark()) {
      MarkPlace(s, j);
    }
  }

  // Searching for a memo about a player passes over everything up to the free text of such a line.
  lemma MarkSkips(p: Pattern, head: string, id: string, tail: string, w: nat, rest: string)
    requires p.lead == Mark() && '나' !in head
    requires NonBlank(id) && WordFirst(tail, w) && '나' !in tail && tail[w - 1] != '는'
    ensures Search(p, head + (id + tail + rest)) == Search(p, rest)
  {
    hide Mark, Search, WordFirst, NonBlank, StartsWith;
    MarkIsWord();
    NoMarkInside(id, tail, w, rest);
    LeadNeedsItsFirst(Mark(), head, id + tail + rest);
    SearchSkips(p, id + tail, rest);
    SearchSkips(p, head, id + tail + rest);
  }

  // The same when the line has a mark of its own that some other memo follows.
  lemma OtherMemoSkips(p: Pattern, head: string, id: string, tail: string, rest: string)
    requires p.lead == Mark() && WordFirst(p.tail, 2) && '나' !in head
    requires NonBlank(id) && WordFirst(tail, 2) && '나' !in tail && tail[1] != '는' && !StartsWith(tail + rest, p.tail)
    ensures Search(p, head + (Mark() + (id + tail + rest))) == Search(p, rest)
  {
    hide Mark, WordFirst, NonBlank, StartsWith, Match;
    MarkIsWord();
    var s := Mark() + (id + tail + rest);
    LeadNeedsItsFirst(Mark(), head, s);
    SearchSkips(p, head, s);
    assert tail[2 - 2..] == tail;
    OtherTailIsNotRead(p, 2, id, tail, 2, rest);
    assert s[1..] == Mark()[1..] + (id + tail + rest);
    MarkSkips(p, Mark()[1..], id, tail, 2, rest);
  }

  // A memo of the kind searched for is found where it was printed.
  lemma MemoIsFound(p: Pattern, head: string, id: string, text: string)
    requires p.lead == Mark() && WordFirst(p.tail, 2) && '나' !in head && Id(id)
    ensures Search(p, head + (Mark() + (id + p.tail + (text + "\"")))) == Some(Found(id, text))
  {
    hide Mark, WordFirst, NonBlank, StartsWith, Match;
    MarkIsWord();
    var s := Mark() + (id + p.tail + (text + "\""));
    LeadNeedsItsFirst(Mark(), head, s);
    SearchSkips(p, head, s);
    PrintedIsRead(p, 2, id, text);
  }

  lemma TickPrefixIsPlain(tick: nat)
    ensures '나' !in TickPrefix(tick)
    ensures forall s :: !StartsWith(TickPrefix(tick) + s, PlayerLead())
  {
    var d := Decimal(tick);
    assert forall c :: c in TickPrefix(tick) ==> c in "tick " || c in d || c in ": ";
    forall s ensures !StartsWith(TickPrefix(tick) + s, PlayerLead()) {
      assert (TickPrefix(tick) + s)[0] == 't';
    }
  }

  // Lines that do not begin like a player's line say nothing to the anchored patterns.
  lemma OnlyMemos(line: string, q: string)
    requires !StartsWith(line, PlayerLead())
    ensures ReadTurn(line, q).Some? <==> ForgesEither(line, q)
  {
  }

  lemma TailsArePlain()
    ensures '나' !in DmTail() && '나' !in CommentTail() && '나' !in ReactionTail()
    ensures DmTail()[0] != '는' && CommentTail()[0] != '는' && ReactionTail()[0] != '는'
    ensures '나' !in ReplyTail() && '나' !in OutreachTail() && ReplyTail()[1] != '는' && OutreachTail()[1] != '는'
  {
  }

  lemma TailsDiffer(rest: string)
    ensures !StartsWith(DmTail() + rest, CommentTail()) && !StartsWith(CommentTail() + rest, DmTail())
    ensures !StartsWith(ReactionTail() + rest, DmTail()) && !StartsWith(ReactionTail() + rest, CommentTail())
    ensures !StartsWith(": " + rest, DmTail()) && !StartsWith(": " + rest, CommentTail())
    ensures !StartsWith(ReplyTail() + rest, OutreachTail()) && !StartsWith(OutreachTail() + rest, ReplyTail())
  {
    assert (DmTail() + rest)[0] == '의' && (CommentTail() + rest)[0] == '가' && (": " + rest)[0] == ':';
    assert (ReactionTail() + rest)[0] == '가' && (ReactionTail() + rest)[7] == '좋' && CommentTail()[7] == '댓';
    assert (ReplyTail() + rest)[3] == '답' && (OutreachTail() + rest)[3] == '먼';
  }

  lemma NoMatchInNothing(p: Pattern)
    requires p.lead != ""
    ensures Search(p, "").None?
  {
  }

  lemma NoAnchored(line: string)
    requires !StartsWith(line, PlayerLead())
    ensures Match(DmIn(), line).None? && Match(CommentIn(), line).None?
  {
  }

  // ---------------------------------------------------------------- one line, read back

  // The line is read as what it means unless it misleads, and a turn it means is never lost without a trace.
  ghost predicate ReadAsSaid(e: Entry, q: string) {
    && (ReadTurn(Line(e), q) == Meant(e, q) <==> !Misleading(e, q))
    && (Meant(e, q).Some? ==> ReadTurn(Line(e), q).Some?)
  }

  lemma DmIsRead(p: string, text: string, q: string)
    requires Id(p)
    ensures ReadAsSaid(Perceived(Dm(p, text)), q)
  {
    hide Match, Search, WordFirst, NonBlank, StartsWith, PlayerLead, Mark, DmTail, CommentTail, ReplyTail, OutreachTail;
    TailsAreWords();
    TailsArePlain();
    TailsDiffer(text + "\"");
    MarkIsWord();
    PrintedIsRead(DmIn(), 1, p, text);
    assert DmTail()[1 - 1..] == DmTail();
    OtherTailIsNotRead(CommentIn(), 1, p, DmTail(), 1, text + "\"");
    MarkSkips(ReplyOut(), PlayerLead(), p, DmTail(), 1, text + "\"");
    MarkSkips(OutreachOut(), PlayerLead(), p, DmTail(), 1, text + "\"");
  }

  lemma CommentIsRead(p: string, text: string, q: string)
    requires Id(p)
    ensures ReadAsSaid(Perceived(Comment(p, text)), q)
  {
    hide Match, Search, WordFirst, NonBlank, StartsWith, PlayerLead, Mark, DmTail, CommentTail, ReplyTail, OutreachTail;
    TailsAreWords();
    TailsArePlain();
    TailsDiffer(text + "\"");
    MarkIsWord();
    PrintedIsRead(CommentIn(), 1, p, text);
    assert CommentTail()[1 - 1..] == CommentTail();
    OtherTailIsNotRead(DmIn(), 1, p, CommentTail(), 1, text + "\"");
    MarkSkips(ReplyOut(), PlayerLead(), p, CommentTail(), 1, text + "\"");
    MarkSkips(OutreachOut(), PlayerLead(), p, CommentTail(), 1, text + "\"");
  }

  // A player's line without a quoted text, ending in `rest`.
  lemma QuotelessIsRead(p: string, tail: string, rest: string, q: string)
    requires NonBlank(p) && WordFirst(tail, 1) && tail[0] != '는' && '나' !in tail
    requires !StartsWith(tail + rest, DmTail()) && !StartsWith(tail + rest, CommentTail())
    ensures ReadTurn(PlayerLead() + (p + tail + rest), q).Some? <==> ForgesEither(rest, q)
  {
    hide Match, Search, WordFirst, NonBlank, StartsWith, PlayerLead, Mark, DmTail, CommentTail, ReplyTail, OutreachTail;
    TailsAreWords();
    MarkIsWord();
    assert tail[1 - 1..] == tail;
    OtherTailIsNotRead(DmIn(), 1, p, tail, 1, rest);
    OtherTailIsNotRead(CommentIn(), 1, p, tail, 1, rest);
    MarkSkips(ReplyOut(), PlayerLead(), p, tail, 1, rest);
    MarkSkips(OutreachOut(), PlayerLead(), p, tail, 1, rest);
  }

  lemma ReactionIsRead(p: string, q: string)
    requires Id(p)
    ensures ReadAsSaid(Perceived(Reaction(p)), q)
  {
    hide Match, WordFirst, NonBlank, StartsWith, PlayerLead, Mark, DmTail, CommentTail, ReplyTail, OutreachTail, ReactionTail;
    TailsAreWords();
    TailsArePlain();
    TailsDiffer("");
    QuotelessIsRead(p, ReactionTail(), "", q);
    MarkIsWord();
    NoMatchInNothing(ReplyOut());
    NoMatchInNothing(OutreachOut());
  }

  lemma OtherKindIsRead(kind: string, q: string)
    ensures ReadAsSaid(Perceived(OtherKind(kind)), q)
  {
    hide Match, WordFirst, StartsWith, PlayerLead, Mark, DmTail, CommentTail, ReplyTail, OutreachTail;
    TailsAreWords();
    TailsDiffer(kind);
    assert NonBlank("상호작용");
    QuotelessIsRead("상호작용", ": ", kind, q);
  }

  lemma ReplyIsRead(tick: nat, p: string, text: string, q: string)
    requires Id(p)
    ensures ReadAsSaid(Replied(tick, p, text), q)
  {
    hide Match, Search, WordFirst, NonBlank, StartsWith, PlayerLead, Mark, ReplyTail, OutreachTail, TickPrefix;
    ReplyTailIsWord();
    OutreachTailIsWord();
    TailsArePlain();
    TailsDiffer(text + "\"");
    TickPrefixIsPlain(tick);
    OnlyMemos(Line(Replied(tick, p, text)), q);
    MemoIsFound(ReplyOut(), TickPrefix(tick), p, text);
    OtherMemoSkips(OutreachOut(), TickPrefix(tick), p, ReplyTail(), text + "\"");
    NoAnchored(Line(Replied(tick, p, text)));
  }

  lemma OutreachIsRead(tick: nat, p: string, text: string, q: string)
    requires Id(p)
    ensures ReadAsSaid(ReachedOut(tick, p, text), q)
  {
    hide Match, Search, WordFirst, NonBlank, StartsWith, PlayerLead, Mark, ReplyTail, OutreachTail, TickPrefix;
    ReplyTailIsWord();
    OutreachTailIsWord();
    TailsArePlain();
    TailsDiffer(text + "\"");
    TickPrefixIsPlain(tick);
    MemoIsFound(OutreachOut(), TickPrefix(tick), p, text);
    OtherMemoSkips(ReplyOut(), TickPrefix(tick), p, OutreachTail(), text + "\"");
    NoAnchored(Line(ReachedOut(tick, p, text)));
    FoundIsShorter(ReplyOut(), text + "\"");
  }

  lemma NamedApart(name: string, rest: string)
    requires !StartsWith(name, PlayerLead()) && |rest| > 1 && rest[0] == '이' && rest[1] == '('
    ensures !StartsWith(name + rest, PlayerLead())
  {
    var line := name + rest;
    assert |line| >= 5 ==> forall k :: 0 <= k < 5 ==> line[..5][k] == line[k];
    assert line[|name|] == '이' && line[|name| + 1] == '(';
    assert |name| >= 5 ==> line[..5] == name[..5];
  }

  // Perceptions that name no player begin with words of their own.
  lemma WordedApart(i: Interaction)
    requires i.Incident? || i.Observation? || i.FeedPost? || (i.ActorComment? && !StartsWith(i.name, PlayerLead()))
    ensures !StartsWith(Describe(i), PlayerLead())
  {
    var line := Describe(i);
    match i
    case Incident(d) => assert line[0] == '세';
    case Observation(o) => assert line[0] == '문';
    case FeedPost(name, title, body) => assert line[0] == '피';
    case ActorComment(name, text) =>
      assert line == name + GotComment(text);
      NamedApart(name, GotComment(text));
  }

  lemma NoteIsRead(line: string, q: string)
    requires !StartsWith(line, PlayerLead())
    ensures ReadAsSaid(Note(line), q)
  {
    hide Match, Search, StartsWith, PlayerLead, Mark;
    OnlyMemos(line, q);
  }

  lemma ActorCommentIsRead(name: string, text: string, q: string)
    requires !StartsWith(name, PlayerLead())
    ensures ReadAsSaid(Perceived(ActorComment(name, text)), q)
  {
    hide Match, Search, StartsWith, PlayerLead, Mark;
    WordedApart(ActorComment(name, text));
    assert Describe(ActorComment(name, text)) == name + GotComment(text);
    OnlyMemos(name + GotComment(text), q);
  }

  lemma FeedPostIsRead(name: string, title: string, body: string, q: string)
    ensures ReadAsSaid(Perceived(FeedPost(name, title, body)), q)
  {
    hide Match, Search, StartsWith, PlayerLead, Mark, Take;
    var rest := name + SawPost(title, body);
    MarkIsWord();
    WordedApart(FeedPost(name, title, body));
    assert Describe(FeedPost(name, title, body)) == "피드에서 " + rest;
    OnlyMemos("피드에서 " + rest, q);
    LeadNeedsItsFirst(Mark(), "피드에서 ", rest);
    SearchSkips(ReplyOut(), "피드에서 ", rest);
    SearchSkips(OutreachOut(), "피드에서 ", rest);
  }

  lemma IncidentIsRead(d: string, q: string)
    ensures ReadAsSaid(Perceived(Incident(d)), q)
  {
    hide Match, Search, StartsWith, PlayerLead, Mark;
    MarkIsWord();
    WordedApart(Incident(d));
    OnlyMemos(Describe(Incident(d)), q);
    LeadNeedsItsFirst(Mark(), "세계 사건: ", d);
    SearchSkips(ReplyOut(), "세계 사건: ", d);
    SearchSkips(OutreachOut(), "세계 사건: ", d);
  }

  lemma ObservationIsRead(o: string, q: string)
    ensures ReadAsSaid(Perceived(Observation(o)), q)
  {
    hide Match, Search, StartsWith, PlayerLead, Mark;
    MarkIsWord();
    WordedApart(Observation(o));
    OnlyMemos(Describe(Observation(o)), q);
    LeadNeedsItsFirst(Mark(), "문득 알아차렸다: ", o);
    SearchSkips(ReplyOut(), "문득 알아차렸다: ", o);
    SearchSkips(OutreachOut(), "문득 알아차렸다: ", o);
  }

  // One line is read as what it says exactly when its free text forges no memo about the player.
  lemma LineReadRightExactlyWhenNotMisleading(e: Entry, q: string)
    requires Proper(e)
    ensures ReadTurn(Line(e), q) == Meant(e, q) <==> !Misleading(e, q)
    ensures Meant(e, q).Some? ==> ReadTurn(Line(e), q).Some?
  {
    hide Match, Search, StartsWith, NonBlank, Misleading, Meant, Line, ReadTurn;
    match e
    case Perceived(Dm(p, text)) => DmIsRead(p, text, q);
    case Perceived(Comment(p, text)) => CommentIsRead(p, text, q);
    case Perceived(Reaction(p)) => ReactionIsRead(p, q);
    case Perceived(OtherKind(kind)) => OtherKindIsRead(kind, q);
    case Perceived(Incident(d)) => IncidentIsRead(d, q);
    case Perceived(Observation(o)) => ObservationIsRead(o, q);
    case Replied(t, p, text) => ReplyIsRead(t, p, text, q);
    case ReachedOut(t, p, text) => OutreachIsRead(t, p, text, q);
    case Perceived(FeedPost(name, title, body)) => FeedPostIsRead(name, title, body, q);
    case Perceived(ActorComment(name, text)) => ActorCommentIsRead(name, text, q);
    case Note(line) => NoteIsRead(line, q);
  }

  // ---------------------------------------------------------------- a whole memory

  // A memory is read back as the conversation it records, oldest first, exactly when no line of it misleads.
  lemma {:induction false} MemoryReadRightExactlyWhenNothingMisleads(log: seq<Entry>, q: string)
    requires forall e :: e in log ==> Proper(e)
    ensures ReadTurns(Lines(log), q) == MeantTurns(log, q) <==> forall e :: e in log ==> !Misleading(e, q)
    ensures |ReadTurns(Lines(log), q)| >= |MeantTurns(log, q)|
  {
    hide Misleading, Meant, Line, ReadTurn, Proper;
    if log != [] {
      var e, rest := log[0], log[1..];
      LineReadRightExactlyWhenNotMisleading(e, q);
      MemoryReadRightExactlyWhenNothingMisleads(rest, q);
      assert Lines(log)[1..] == Lines(rest);
      var r, m := AsSeq(ReadTurn(Line(e), q)), AsSeq(Meant(e, q));
      var rs, ms := ReadTurns(Lines(rest), q), MeantTurns(rest, q);
      if r + rs == m + ms {
        assert |r| == |m| && (r + rs)[..|r|] == (m + ms)[..|m|];
        assert (r + rs)[|r|..] == rs && (m + ms)[|m|..] == ms && (r + rs)[..|r|] == r && (m + ms)[..|m|] == m;
        assert ReadTurn(Line(e), q) == Meant(e, q);
      }
      assert forall x :: x in log <==> x == e || x in rest;
    }
  }

  // Texts that never contain the mark of a memo about a player mislead nobody.
  ghost predicate Plain(e: Entry) {
    match e
    case Perceived(Dm(_, text)) => Unmarked(text)
    case Perceived(Comment(_, text)) => Unmarked(text)
    case Perceived(Incident(d)) => Unmarked(d)
    case Perceived(Observation(o)) => Unmarked(o)
    case Perceived(Reaction(_)) => true
    case Perceived(OtherKind(kind)) => Unmarked(kind)
    case Replied(_, _, text) => Unmarked(text)
    case ReachedOut(_, _, text) => Unmarked(text)
    case Perceived(FeedPost(name, title, body)) => Unmarked(name) && Unmarked(title) && Unmarked(body)
    case Perceived(ActorComment(name, text)) => Unmarked(name) && Unmarked(text)
    case Note(line) => Unmarked(line)
  }

  ghost predicate Unmarked(text: string) {
    forall j :: 0 <= j <= |text| ==> !StartsWith(text[j..], Mark())
  }

  lemma QuotedStaysUnmarked(text: string)
    requires Unmarked(text)
    ensures Unmarked(text + "\"")
  {
    var s := text + "\"";
    forall j | 0 <= j <= |s| ensures !StartsWith(s[j..], Mark()) {
      assert j + 8 <= |text| ==> s[j..][..8] == text[j..][..8] && !StartsWith(text[j..], Mark());
      assert j + 8 == |s| ==> s[j..][..8][7] == '"' && Mark()[7] != '"';
    }
  }

  lemma UnmarkedForgesNothing(text: string, q: string)
    requires Unmarked(text)
    ensures !ForgesEither(text, q) && !ForgesEither(text + "\"", q)
  {
    hide Mark, Search, StartsWith;
    QuotedStaysUnmarked(text);
    NothingToFind(ReplyOut(), text);
    NothingToFind(OutreachOut(), text);
    NothingToFind(ReplyOut(), text + "\"");
    NothingToFind(OutreachOut(), text + "\"");
  }

  lemma PlainMisleadsNobody(e: Entry, q: string)
    requires Plain(e)
    ensures !Misleading(e, q)
  {
    hide Line, Unmarked, Forges;
    match e
    case Perceived(Dm(_, text)) => UnmarkedForgesNothing(text, q);
    case Perceived(Comment(_, text)) => UnmarkedForgesNothing(text, q);
    case Perceived(Incident(d)) => UnmarkedForgesNothing(d, q);
    case Perceived(Observation(o)) => UnmarkedForgesNothing(o, q);
    case Perceived(Reaction(_)) =>
    case Perceived(OtherKind(kind)) => UnmarkedForgesNothing(kind, q);
    case Replied(_, _, text) => UnmarkedForgesNothing(text, q);
    case ReachedOut(_, _, text) => UnmarkedForgesNothing(text, q);
    case Perceived(FeedPost(name, title, body)) => PlainPostForgesNothing(name, title, body, q);
    case Perceived(ActorComment(name, text)) => PlainCommentForgesNothing(name, text, q);
    case Note(line) => UnmarkedForgesNothing(line, q);
  }

  // No mark arises where two unmarked texts are joined by words that cannot continue one or begin one.
  lemma JoinedUnmarked(a: string, sep: string, b: string)
    requires Unmarked(a) && Unmarked(b) && '나' !in sep && |sep| >= 2
    requires sep[0] !in Mark() || (sep[0] != ' ' && sep[1] !in Mark())
    ensures Unmarked(a + (sep + b))
  {
    var s := a + (sep + b);
    forall j | 0 <= j <= |s| ensures !StartsWith(s[j..], Mark()) {
      MarkAt(s, j);
      assert s[|a|] == sep[0] && s[|a| + 1] == sep[1];
      assert |a| <= j < |a + sep| ==> s[j] == sep[j - |a|];
      assert j >= |a + sep| ==> s[j..] == b[j - |a + sep|..];
      assert j + 8 <= |a| ==> s[j..][..8] == a[j..][..8] && !StartsWith(a[j..], Mark());
    }
  }

  lemma MarkAt(s: string, j: nat)
    requires j <= |s|
    ensures StartsWith(s[j..], Mark()) ==>
              j + 8 <= |s| && s[j] == '나' && s[j + 7] == ' ' && forall k :: j <= k < j + 8 ==> s[k] in Mark()
  {
    assert j + 8 <= |s| ==> forall k :: j <= k < j + 8 ==> s[k] == s[j..][..8][k - j];
  }

  lemma PlainPostForgesNothing(name: string, title: string, body: string, q: string)
    requires Unmarked(name) && Unmarked(title) && Unmarked(body)
    ensures !ForgesEither(name + SawPost(title, body), q)
  {
    hide Unmarked, ForgesEither;
    BeginningUnmarked(body, 80);
    var shown := Take(body, 80);
    SeparatorsAreApart();
    JoinedUnmarked(title, ": \"", shown);
    JoinedUnmarked(name, "의 글을 봤다 — ", title + (": \"" + shown));
    assert name + SawPost(title, body) == name + ("의 글을 봤다 — " + (title + (": \"" + shown))) + "\"";
    UnmarkedForgesNothing(name + ("의 글을 봤다 — " + (title + (": \"" + shown))), q);
  }

  lemma PlainCommentForgesNothing(name: string, text: string, q: string)
    requires Unmarked(name) && Unmarked(text)
    ensures !ForgesEither(name + GotComment(text), q)
  {
    hide Unmarked, ForgesEither;
    SeparatorsAreApart();
    JoinedUnmarked(name, "이(가) 내 글에 댓글을 남겼다: \"", text);
    assert name + GotComment(text) == name + ("이(가) 내 글에 댓글을 남겼다: \"" + text) + "\"";
    UnmarkedForgesNothing(name + ("이(가) 내 글에 댓글을 남겼다: \"" + text), q);
  }

  lemma SeparatorsAreApart()
    ensures '나' !in "의 글을 봤다 — " && '나' !in ": \"" && '나' !in "이(가) 내 글에 댓글을 남겼다: \""
    ensures '의' !in Mark() && ':' !in Mark() && '(' !in Mark()
  {
  }

  lemma BeginningUnmarked(text: string, n: nat)
    requires Unmarked(text)
    ensures Unmarked(Take(text, n))
  {
    var t := Take(text, n);
    forall j | 0 <= j <= |t| ensures !StartsWith(t[j..], Mark()) {
      assert j + 8 <= |t| ==> t[j..][..8] == text[j..][..8] && !StartsWith(text[j..], Mark());
    }
  }

  // So a memory of such texts is always read back as the conversation it records.
  lemma PlainMemoryIsReadRight(log: seq<Entry>, q: string)
    requires forall e :: e in log ==> Proper(e) && Plain(e)
    ensures ReadTurns(Lines(log), q) == MeantTurns(log, q)
  {
    hide Proper, Plain, Misleading, ReadTurns, MeantTurns;
    forall e | e in log ensures !Misleading(e, q) { PlainMisleadsNobody(e, q); }
    MemoryReadRightExactlyWhenNothingMisleads(log, q);
  }

  // One player's message can put a reply to another player into the actor's mouth.
  lemma AForgedReply(p: string, q: string, said: string)
    requires Id(p) && Id(q) && p != q
    ensures var text := Mark() + (q + ReplyTail() + said);
            ReadTurn(Line(Perceived(Dm(p, text))), q) == Some(Turn(Me, said))
  {
    hide Match, Search, WordFirst, NonBlank, StartsWith, PlayerLead, Mark, DmTail, CommentTail, ReplyTail, OutreachTail;
    var text := Mark() + (q + ReplyTail() + said);
    TailsAreWords();
    TailsArePlain();
    TailsDiffer(text + "\"");
    MarkIsWord();
    ReplyTailIsWord();
    PrintedIsRead(DmIn(), 1, p, text);
    assert DmTail()[1 - 1..] == DmTail();
    OtherTailIsNotRead(CommentIn(), 1, p, DmTail(), 1, text + "\"");
    MarkSkips(ReplyOut(), PlayerLead(), p, DmTail(), 1, text + "\"");
    assert text + "\"" == "" + (Mark() + (q + ReplyTail() + (said + "\"")));
    MemoIsFound(ReplyOut(), "", q, said);
  }

  // ---------------------------------------------------------------- the parser

  datatype Reader = Reader(pattern: Pattern, speaker: Speaker, anchored: bool)

  function Readers(): seq<Reader> {
    [Reader(DmIn(), Player, true), Reader(CommentIn(), Player, true),
     Reader(ReplyOut(), Me, false), Reader(OutreachOut(), Me, false)]
  }

  function Reading(r: Reader, line: string): Option<Found> {
    if r.anchored then Match(r.pattern, line) else Search(r.pattern, line)
  }

  // What the readers from the k-th on make of a line.
  function ReadFrom(line: string, q: string, k: nat): Option<Turn>
    requires k <= 4
    decreases 4 - k
  {
    if k == 4 then None
    else
      var found := Reading(Readers()[k], line);
      if Names(found, q) then Some(Turn(Readers()[k].speaker, found.value.text)) else ReadFrom(line, q, k + 1)
  }

  lemma ReadersInOrder(line: string, q: string)
    ensures ReadFrom(line, q, 0) == ReadTurn(line, q)
  {
    hide Match, Search, DmIn, CommentIn, ReplyOut, OutreachOut;
    assert ReadFrom(line, q, 4) == None;
    assert ReadFrom(line, q, 2) == if Names(Search(ReplyOut(), line), q) then Some(Turn(Me, Search(ReplyOut(), line).value.text))
                                   else ReadFrom(line, q, 3);
  }

  lemma ReadTurnsFrom(lines: seq<string>, n: nat, q: string)
    requires n < |lines|
    ensures ReadTurns(lines[n..], q) == AsSeq(ReadTurn(lines[n], q)) + ReadTurns(lines[n + 1..], q)
  {
    assert lines[n..][1..] == lines[n + 1..];
  }

  // Walks the newest-first memory backwards and tries the patterns in order on every line.
  method ConversationTurns(workingNewestFirst: seq<string>, playerId: string) returns (turns: seq<Turn>)
    ensures turns == ReadTurns(Reversed(workingNewestFirst), playerId)
  {
    hide Match, Search, ReadTurn, ReadTurns, DmIn, CommentIn, ReplyOut, OutreachOut;
    turns := [];
    ghost var lines := Reversed(workingNewestFirst);
    assert lines[0..] == lines;
    var i := |workingNewestFirst|;
    while i > 0
      invariant 0 <= i <= |workingNewestFirst|
      invariant turns + ReadTurns(lines[|lines| - i..], playerId) == ReadTurns(lines, playerId)
    {
      ReadTurnsFrom(lines, |lines| - i, playerId);
      i := i - 1;
      var line := workingNewestFirst[i];
      ghost var before := turns;
      ReadersInOrder(line, playerId);
      var k := 0;
      while k < |Readers()|
        invariant 0 <= k <= 4 && turns == before
        invariant ReadFrom(line, playerId, k) == ReadTurn(line, playerId)
      {
        var found := Reading(Readers()[k], line);
        if Names(found, playerId) {
          turns := turns + [Turn(Readers()[k].speaker, found.value.text)];
          break;
        }
        k := k + 1;
      }
      assert turns == before + AsSeq(ReadTurn(line, playerId));
    }
    assert lines[|lines|..] == [] && ReadTurns([], playerId) == [] by { NoLines(playerId); }
  }

  lemma NoLines(q: string)
    ensures ReadTurns([], q) == []
  {
  }
}
