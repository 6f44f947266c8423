// The events an actor's tick produces, and where the router delivers them.
module Envelopes {
  import opened Prelude

  const TEXT_MAX: nat := 1000

  datatype Payload =
    | Action(kind: string, intent: string)
    | Message(channel: string, targetPlayer: Option<string>, targetActor: Option<string>, text: string,
              post: Option<string>, inReplyTo: Option<string>)
    | Decision(purpose: string)
    | Belief(statement: string)
    | FeedPost(visible: bool)
    | PlayerDm(player: string, target: string)
    | PlayerComment(player: string, target: string, commented: string)
    | PlayerReaction(player: string, target: string, liked: string)
    | Incident(affected: seq<string>)
    | ToOne(target: string)

  // An event as proposed, and as stored under an id. World news has no actor.
  datatype Event = Event(actor: Option<string>, tick: nat, causation: Option<string>, payload: Payload)
  datatype Envelope = Envelope(id: string, event: Event)

  // ---------------------------------------------------------------- what an actor says

  // What a reply answers.
  datatype Source =
    | Dm(id: string, player: string)
    | Comment(id: string, player: string, post: string)
    | Like(id: string, player: string, post: string)
    | ActorComment(id: string, commenter: string, post: string)

  datatype Reply = Reply(actor: string, source: Source, text: string)
  datatype Outreach = Outreach(actor: string, player: string, text: string)
  datatype Remark = Remark(actor: string, post: string, author: string, text: string)
  datatype Intent = Intent(actor: string, kind: string, intent: string, causation: Option<string>)

  function ReplyPayload(s: Source, text: string): Payload {
    match s
    case ActorComment(id, commenter, post) => Message("comment", None, Some(commenter), Take(text, TEXT_MAX), Some(post), Some(id))
    case Like(id, player, post) => Message("comment", Some(player), None, Take(text, TEXT_MAX), Some(post), Some(id))
    case Comment(id, player, post) => Message("comment", Some(player), None, Take(text, TEXT_MAX), Some(post), Some(id))
    case Dm(id, player) => Message("dm", Some(player), None, Take(text, TEXT_MAX), None, Some(id))
  }

  function ReplyEvent(tick: nat, r: Reply): Event { Event(Some(r.actor), tick, Some(r.source.id), ReplyPayload(r.source, r.text)) }

  function OutreachEvent(tick: nat, o: Outreach): Event {
    Event(Some(o.actor), tick, None, Message("dm", Some(o.player), None, Take(o.text, TEXT_MAX), None, None))
  }

  // A comment on a post of its own accord answers the post itself.
  function RemarkEvent(tick: nat, m: Remark): Event {
    Event(Some(m.actor), tick, Some(m.post),
          Message("comment", None, Some(m.author), Take(m.text, TEXT_MAX), Some(m.post), Some(m.post)))
  }

  function IntentEvent(tick: nat, i: Intent): Event { Event(Some(i.actor), tick, i.causation, Action(i.kind, i.intent)) }

  // A belief that was worth telling names one of the events it rests on, if any.
  function BeliefEvent(tick: nat, actor: string, statement: string, source: Option<string>): Event {
    Event(Some(actor), tick, source, Belief(statement))
  }

  function DecisionEvent(tick: nat, actor: string, purpose: string): Event { Event(Some(actor), tick, None, Decision(purpose)) }

  // ---------------------------------------------------------------- the router

  // Comments of actors go to the author of the post, and nowhere else.
  function CommentTargets(e: Event): seq<string> {
    if !e.payload.Message? || e.payload.channel != "comment" then []
    else
      var target := e.payload.targetActor;
      if target == None || target == Some("") || target == e.actor then []
      else if e.payload.inReplyTo != e.payload.post then []
      else [target.value]
  }

  // `fanout` picks the readers of a post.
  function RouteTargets(e: Envelope, fanout: Envelope -> seq<string>): seq<string> {
    match e.event.payload
    case FeedPost(_) => fanout(e)
    case Message(_, _, _, _, _, _) => CommentTargets(e.event)
    case Incident(affected) => affected
    case PlayerDm(_, target) => [target]
    case PlayerComment(_, target, _) => [target]
    case PlayerReaction(_, target, _) => [target]
    case ToOne(target) => [target]
    case _ => []
  }
}
