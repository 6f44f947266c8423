// Why conversations between actors end: a comment is answered once, and the answer reaches nobody's mailbox.
module SocialLoop {
  import opened Prelude
  import opened Envelopes
  import opened LineMatch

  type Fanout = Envelope -> seq<string>

  // What can be appended to the log next.
  datatype Step =
    | World(id: string, event: Event)
    | Answer(id: string, tick: nat, source: nat, actor: string, text: string)
    | Comment(id: string, tick: nat, post: nat, actor: string, text: string)
    | ReachOut(id: string, tick: nat, actor: string, player: string, text: string)
    | Act(id: string, tick: nat, intent: Intent)

  // What a delivered event is to the actor who answers it.
  function SourceOf(e: Envelope): Option<Source> {
    match e.event.payload
    case PlayerDm(player, _) => Some(Source.Dm(e.id, player))
    case PlayerComment(player, _, post) => Some(Source.Comment(e.id, player, post))
    case PlayerReaction(player, _, post) => Some(Source.Like(e.id, player, post))
    case Message(_, _, _, _, post, _) =>
      if e.event.actor.Some? && post.Some? then Some(Source.ActorComment(e.id, e.event.actor.value, post.value)) else None
    case _ => None
  }

  ghost predicate Ids(log: seq<Envelope>, id: string) { exists e :: e in log && e.id == id }

  // Ids are fresh; actors answer and comment on what the router delivered to them, and everything else is the
  // world's doing, which sends no messages of actors.
  ghost predicate Enabled(log: seq<Envelope>, fanout: Fanout, step: Step) {
    && !Ids(log, step.id) && step.id != ""
    && match step
       case World(_, event) => !event.payload.Message?
       case Answer(_, _, source, actor, _) =>
         source < |log| && SourceOf(log[source]).Some? && actor in RouteTargets(log[source], fanout)
       case Comment(_, _, post, actor, _) =>
         post < |log| && log[post].event.payload.FeedPost? && log[post].event.actor.Some? && log[post].event.actor != Some("")
         && actor in RouteTargets(log[post], fanout)
       case _ => true
  }

  function Appended(log: seq<Envelope>, step: Step): Event
    requires step.Answer? ==> step.source < |log| && SourceOf(log[step.source]).Some?
    requires step.Comment? ==> step.post < |log| && log[step.post].event.actor.Some?
  {
    match step
    case World(_, event) => event
    case Answer(_, tick, source, actor, text) => ReplyEvent(tick, Reply(actor, SourceOf(log[source]).value, text))
    case Comment(_, tick, post, actor, text) =>
      RemarkEvent(tick, Remark(actor, log[post].id, log[post].event.actor.value, text))
    case ReachOut(_, tick, actor, player, text) => OutreachEvent(tick, Outreach(actor, player, text))
    case Act(_, tick, intent) => IntentEvent(tick, intent)
  }

  ghost predicate Grows(log: seq<Envelope>, fanout: Fanout, step: Step, log': seq<Envelope>) {
    Enabled(log, fanout, step) && log' == log + [Envelope(step.id, Appended(log, step))]
  }

  // A log all of whose entries were appended by possible steps.
  ghost predicate Grown(log: seq<Envelope>, fanout: Fanout, steps: seq<Step>) {
    |steps| == |log| && forall i :: 0 <= i < |log| ==> Grows(log[..i], fanout, steps[i], log[..i + 1])
  }

  // No reader of a post is its own author.
  ghost predicate NeverTheAuthor(fanout: Fanout) {
    forall e, a :: a in fanout(e) ==> Some(a) != e.event.actor
  }

  ghost predicate Reachable(log: seq<Envelope>, fanout: Fanout) {
    NeverTheAuthor(fanout) && exists steps :: Grown(log, fanout, steps)
  }

  // A comment an actor left under a post of its own accord.
  ghost predicate TopLevel(log: seq<Envelope>, e: Event) {
    && e.payload.Message? && e.payload.post.Some? && e.payload.inReplyTo == e.payload.post && e.payload.targetActor.Some?
    && exists p :: p in log && p.event.payload.FeedPost? && Some(p.id) == e.payload.post == e.causation
                   && p.event.actor == e.payload.targetActor != e.actor
  }

  lemma {:induction false} IdsAreDistinct(log: seq<Envelope>, fanout: Fanout, steps: seq<Step>)
    requires Grown(log, fanout, steps)
    ensures forall i, j :: 0 <= i < j < |log| ==> log[i].id != log[j].id
  {
    forall i, j | 0 <= i < j < |log| ensures log[i].id != log[j].id {
      assert Grows(log[..j], fanout, steps[j], log[..j + 1]);
      assert log[..j + 1][j] == log[j] && log[..j][i] == log[i];
      assert log[i] in log[..j];
    }
  }

  // An answer to such a comment, which answers the comment and not the post.
  ghost predicate Answering(log: seq<Envelope>, e: Event) {
    && e.payload.Message? && e.payload.targetActor.Some? && e.payload.inReplyTo != e.payload.post
    && exists c, n :: 0 <= n < |log| && log[n] == c && Some(c.id) == e.causation && TopLevel(log[..n], c.event)
  }

  lemma AppendedBy(log: seq<Envelope>, fanout: Fanout, steps: seq<Step>, j: nat)
    requires Grown(log, fanout, steps) && j < |log|
    ensures Enabled(log[..j], fanout, steps[j]) && log[j].id == steps[j].id && log[j].event == Appended(log[..j], steps[j])
  {
    assert Grows(log[..j], fanout, steps[j], log[..j + 1]);
    assert log[..j + 1][j] == log[j];
  }

  // A message to an actor is either a comment under somebody else's post, or the answer to such a comment.
  lemma {:induction false} MessageKinds(log: seq<Envelope>, fanout: Fanout, steps: seq<Step>, j: nat)
    requires NeverTheAuthor(fanout) && Grown(log, fanout, steps) && j < |log|
    requires log[j].event.payload.Message? && log[j].event.payload.targetActor.Some?
    ensures TopLevel(log[..j], log[j].event) || Answering(log[..j], log[j].event)
  {
    hide TopLevel;
    var e, before := log[j].event, log[..j];
    AppendedBy(log, fanout, steps, j);
    match steps[j]
    case World(_, _) =>
    case Answer(_, tick, source, actor, text) =>
      assert before[source] == log[source];
      MessageKinds(log, fanout, steps, source);
      assert before[..source] == log[..source];
      AnswerIsNoComment(log, fanout, steps, source, j);
    case Comment(_, tick, post, actor, text) =>
      assert before[post] in before;
      CommentIsTopLevel(before, fanout, post, e);
    case ReachOut(_, _, _, _, _) =>
    case Act(_, _, _) =>
  }

  lemma CommentIsTopLevel(log: seq<Envelope>, fanout: Fanout, post: nat, e: Event)
    requires NeverTheAuthor(fanout) && post < |log| && log[post].event.payload.FeedPost? && log[post].event.actor.Some?
    requires e.payload.Message? && e.payload.post == e.payload.inReplyTo == e.causation == Some(log[post].id)
    requires e.payload.targetActor == log[post].event.actor && e.actor.Some? && e.actor.value in fanout(log[post])
    ensures TopLevel(log, e)
  {
    assert log[post] in log;
  }

  // The comment that is answered was routed, so it answered the post itself; the answer does not.
  lemma AnswerIsNoComment(log: seq<Envelope>, fanout: Fanout, steps: seq<Step>, source: nat, j: nat)
    requires Grown(log, fanout, steps) && source < j < |log|
    requires log[source].event.payload.Message? && CommentTargets(log[source].event) != []
    requires TopLevel(log[..source], log[source].event) || Answering(log[..source], log[source].event)
    requires log[j].event.payload.Message? && log[j].event.payload.targetActor.Some?
    requires log[j].event.payload.inReplyTo == log[j].event.causation == Some(log[source].id)
    requires log[j].event.payload.post == log[source].event.payload.post
    ensures Answering(log[..j], log[j].event)
  {
    var before := log[..j];
    assert TopLevel(log[..source], log[source].event);
    assert before[source] == log[source] && before[..source] == log[..source];
    IdsAreDistinct(log, fanout, steps);
    var p :| p in log[..source] && Some(p.id) == log[source].event.payload.post;
    var k :| 0 <= k < source && log[..source][k] == p;
    assert log[k].id != log[source].id;
  }

  // In every log, a message of an actor is delivered to at most one mailbox, that of another actor, and exactly when
  // it is a comment under that actor's post.
  lemma OnlyCommentsAreDelivered(log: seq<Envelope>, fanout: Fanout, j: nat)
    requires Reachable(log, fanout) && j < |log| && log[j].event.payload.Message?
    ensures var e := log[j].event; var targets := RouteTargets(log[j], fanout);
            && |targets| <= 1 && (targets != [] ==> Some(targets[0]) == e.payload.targetActor != e.actor)
            && (targets != [] ==> TopLevel(log[..j], e))
            && (TopLevel(log[..j], e) && e.payload.channel == "comment" && e.payload.targetActor != Some("") ==> targets != [])
  {
    hide Grown;
    var steps :| Grown(log, fanout, steps);
    if log[j].event.payload.targetActor.Some? { MessageKinds(log, fanout, steps, j); }
  }

  // No message of an actor is caused by a message that was itself caused by one.
  lemma ChainsEndAfterTwo(log: seq<Envelope>, fanout: Fanout, i: nat, j: nat)
    requires Reachable(log, fanout) && i < j < |log|
    requires log[i].event.payload.Message? && log[j].event.payload.Message? && log[j].event.causation == Some(log[i].id)
    ensures RouteTargets(log[j], fanout) == []
    ensures forall h :: 0 <= h < |log| && log[i].event.causation == Some(log[h].id) ==> log[h].event.payload.FeedPost?
    ensures forall k :: j < k < |log| && log[k].event.payload.Message? ==> log[k].event.causation != Some(log[j].id)
  {
    hide Grown, TopLevel, Answering;
    var steps :| Grown(log, fanout, steps);
    CausedByMessage(log, fanout, steps, i, j);
    forall k | j < k < |log| && log[k].event.payload.Message? ensures log[k].event.causation != Some(log[j].id) {
      if log[k].event.causation == Some(log[j].id) {
        CausedByMessage(log, fanout, steps, j, k);
      }
    }
  }

  // A message caused by a message answers it, so the cause was delivered and is caused by a post.
  lemma CausedByMessage(log: seq<Envelope>, fanout: Fanout, steps: seq<Step>, i: nat, j: nat)
    requires NeverTheAuthor(fanout) && Grown(log, fanout, steps) && i < j < |log|
    requires log[i].event.payload.Message? && log[j].event.payload.Message? && log[j].event.causation == Some(log[i].id)
    ensures RouteTargets(log[j], fanout) == [] && RouteTargets(log[i], fanout) != []
    ensures forall h :: 0 <= h < |log| && log[i].event.causation == Some(log[h].id) ==> log[h].event.payload.FeedPost?
  {
    AppendedBy(log, fanout, steps, j);
    IdsAreDistinct(log, fanout, steps);
    assert forall n :: 0 <= n < j ==> log[..j][n] == log[n];
    match steps[j] {
      case Answer(_, tick, source, actor, text) =>
        assert log[..j][source] == log[source] && source == i;
        MessageKinds(log, fanout, steps, i);
        AnswerIsNoComment(log, fanout, steps, i, j);
        PostsCauseComments(log, fanout, steps, i);
      case _ =>
    }
  }

  lemma PostsCauseComments(log: seq<Envelope>, fanout: Fanout, steps: seq<Step>, i: nat)
    requires Grown(log, fanout, steps) && i < |log| && TopLevel(log[..i], log[i].event)
    ensures forall h :: 0 <= h < |log| && log[i].event.causation == Some(log[h].id) ==> log[h].event.payload.FeedPost?
  {
    IdsAreDistinct(log, fanout, steps);
    var p :| p in log[..i] && p.event.payload.FeedPost? && Some(p.id) == log[i].event.causation;
    var k :| 0 <= k < i && log[..i][k] == p;
    assert log[k] == p;
  }

  // A player's event is for the actor it names, an incident for everybody it affects, a post for the readers picked for
  // it, a top-level comment for the author of the post, and nothing else is for anybody.
  ghost predicate IsFor(e: Envelope, fanout: Fanout, actor: string) {
    var p := e.event.payload;
    || ((p.PlayerDm? || p.PlayerComment? || p.PlayerReaction? || p.ToOne?) && p.target == actor)
    || (p.Incident? && actor in p.affected)
    || (p.FeedPost? && actor in fanout(e))
    || (p.Message? && p.channel == "comment" && p.inReplyTo == p.post && p.targetActor == Some(actor) && actor != ""
        && e.event.actor != Some(actor))
  }

  lemma RoutedExactlyToWhomItIsFor(e: Envelope, fanout: Fanout, actor: string)
    ensures actor in RouteTargets(e, fanout) <==> IsFor(e, fanout, actor)
  {
  }

  // The answer of somebody spoken to goes back to whoever spoke, about the same post, and names what it answers.
  ghost predicate GoesBack(source: Envelope, e: Event) {
    && e.payload.Message? && e.causation == e.payload.inReplyTo == Some(source.id)
    && match source.event.payload
       case PlayerDm(player, target) =>
         e.actor == Some(target) && e.payload.channel == "dm" && e.payload.targetPlayer == Some(player)
         && e.payload.targetActor == None && e.payload.post == None
       case PlayerComment(player, target, post) =>
         e.actor == Some(target) && e.payload.channel == "comment" && e.payload.targetPlayer == Some(player)
         && e.payload.targetActor == None && e.payload.post == Some(post)
       case PlayerReaction(player, target, post) =>
         e.actor == Some(target) && e.payload.channel == "comment" && e.payload.targetPlayer == Some(player)
         && e.payload.targetActor == None && e.payload.post == Some(post)
       case Message(_, _, target, _, post, _) =>
         e.actor == target && e.payload.channel == "comment" && e.payload.targetPlayer == None
         && e.payload.targetActor == source.event.actor && e.payload.post == post
       case _ => false
  }

  // In every log, whatever is appended as an answer is one by the actor who was addressed, to the one who addressed it.
  lemma AnswersGoBack(log: seq<Envelope>, fanout: Fanout, steps: seq<Step>, j: nat)
    requires Grown(log, fanout, steps) && j < |log| && steps[j].Answer?
    ensures steps[j].source < j && GoesBack(log[steps[j].source], log[j].event)
    ensures log[j].event.payload.text == Take(steps[j].text, 1000)
  {
    hide Take;
    AppendedBy(log, fanout, steps, j);
    var source := steps[j].source;
    assert log[..j][source] == log[source];
  }

  // ---------------------------------------------------------------- comments proposed by the language model

  predicate AllBlank(s: string) { forall i :: 0 <= i < |s| ==> Blank(s[i]) }

  // Text without the blanks around it.
  function StripLeft(s: string): (r: string)
    ensures |r| <= |s| && r == s[|s| - |r|..] && AllBlank(s[..|s| - |r|]) && (r != "" ==> !Blank(r[0]))
  {
    if s == "" || !Blank(s[0]) then s
    else
      var r := StripLeft(s[1..]);
      assert s[..|s| - |r|] == [s[0]] + s[1..][..|s| - 1 - |r|];
      r
  }

  function StripRight(s: string): (r: string)
    ensures |r| <= |s| && r == s[..|r|] && AllBlank(s[|r|..]) && (r != "" ==> !Blank(r[|r| - 1]))
  {
    if s == "" || !Blank(s[|s| - 1]) then s
    else
      var r := StripRight(s[..|s| - 1]);
      assert s[|r|..] == s[..|s| - 1][|r|..] + [s[|s| - 1]];
      r
  }

  function FirstWith(posts: seq<Envelope>, id: string): (p: Option<Envelope>)
    ensures p.Some? ==> p.value in posts && p.value.id == id
    ensures p.None? ==> forall e :: e in posts ==> e.id != id
  {
    if posts == [] then None else if posts[0].id == id then Some(posts[0]) else FirstWith(posts[1..], id)
  }

  predicate Authored(e: Envelope) { e.event.actor.Some? && e.event.actor != Some("") }

  // A comment is kept only if it says something, and is under a post the actor saw whose author is known.
  function ExtractComment(proposed: Option<(string, string)>, seen: seq<Envelope>): (r: Option<(Envelope, string)>)
    ensures r.Some? ==> proposed.Some? && r.value.0 in seen && r.value.0.id == proposed.value.0
    ensures r.Some? ==> r.value.0.event.actor.Some? && r.value.0.event.actor.value != ""
    ensures r.Some? ==> r.value.1 == StripRight(StripLeft(proposed.value.1)) != ""
    ensures r.None? && proposed.Some? && !AllBlank(proposed.value.1) ==>
              (forall e :: e in seen ==> e.id != proposed.value.0)
              || exists e :: e in seen && e.id == proposed.value.0 && (e.event.actor.None? || e.event.actor.value == "")
  {
    if proposed.None? then None
    else
      StrippedOfAll(proposed.value.1);
      var text := StripRight(StripLeft(proposed.value.1));
      var post := FirstWith(seen, proposed.value.0);
      if text == "" || post.None? || !Authored(post.value) then None else Some((post.value, text))
  }

  lemma StrippedOfAll(s: string)
    ensures StripRight(StripLeft(s)) == "" ==> AllBlank(s)
  {
    hide StripLeft, StripRight, AllBlank, Blank;
    var left := StripLeft(s);
    if StripRight(left) == "" {
      assert left[0..] == left;
      BlankIsEmpty(left);
      assert s[..|s|] == s;
    }
  }

  lemma BlankIsEmpty(s: string)
    requires AllBlank(s) && (s != "" ==> !Blank(s[0]))
    ensures s == ""
  {
    hide Blank;
  }
}
