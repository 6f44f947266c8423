# Verified model of Living Feed

Living Feed is an event-sourced simulation: actors perceive, decide and post in ticks, a director watches for
dullness and intervenes, and players look on through a web client. Most of its promises rest on small state machines
whose state is kept in shared lists, stored keys, in-memory queues and append-only logs. This project models those
machines in Dafny and proves what they keep over every run.

| file | what it models |
|---|---|
| `ShardBarrier`, `ShardOrder`, `TickBarrier` | a leader signalling ticks over one list per shard, followers draining them, interleaved step by step |
| `DecayAccount`, `DecayPhases` | the per-actor account of decay: eager, batched, caught up on waking, persisted |
| `Beliefs`, `BeliefGrounds` | the ledger of published beliefs, with restatement threshold and retraction, and what each belief rests on |
| `Fanout` | which readers a post reaches, and the value-free choice a replay makes |
| `LineMatch`, `Conversation` | memory lines, and the regular expressions that read a conversation back out of them |
| `Envelopes`, `OwnMemos`, `SocialLoop` | the events of a tick, the memos rebuilt from them, the depth-one rule of messages between actors |
| `WorkingReplay` | working memory rebuilt from the log: perceptions, moods and memos, tick by tick |
| `DirectorGate`, `DirectorQuiet`, `Director` | the director's budget, quiet counter, tool streak cap, and restart from its own audits; what an intervention answers to |
| `DirectorStreaks`, `DirectorCoverage` | how long the streak cap lasts after restarts and redeliveries, and when restarts keep the budget |
| `Attention` | the director's rolling window of players' interest |
| `EdgeStore`, `EdgeEffects`, `RelationshipAdapter`, `EdgeDecay` | capped relationship edges with eviction, and their decay as stored |
| `Resonance` | conversations that stay on an actor's mind and burst once |
| `Threads`, `ThreadLinks`, `LiveFeed` | comment threading and the bounded feed of the web client |
| `Rhythm` | posting moments by linear probing |
| `Playback` | replay on recorded model calls, and the comparison of decisions |
| `LoopHealth`, `LoopReport` | the loop-health report, and what its numbers count |
| `Prelude`, `Orders` | shared vocabulary: options, sequences, sorting by an order |

Where the source changes state step by step the model does too: classes with the source's fields, whose methods are
proved against a specification function, and state machines over whose runs the theorems quantify. Check everything
with `dafny verify dfyconfig.toml --resource-limit 2000000`.

Some promises of the code or its documentation do not hold on all inputs. Each of these has its exact condition:

- **The order of walking shards matters** (`ShardOrder.OrderedExactlyWhenAligned`): the barrier is monotone only
  because both sides walk shards in ascending order.
- **Forged turns** (`Conversation.LineReadRightExactlyWhenNotMisleading`): a message that quotes the actor's own memo
  format is read back as something the actor said to another player.
- **Edges read too late** (`Fanout.LateEdgesAreHarmlessExactlyWhen`): the replay reads every edge known at the decision
  (replay_l1.py:284-295), the router those alive at the post. An edge made in between can change the readers it picks
  (`Fanout.AnEdgeInBetween`). So can one that went dormant before the post: the live index has dropped it, the replay's
  query never forgets one.
- **Resentment never fades while awake** (`EdgeDecay.BatchTellsTheStoredStoryExactlyWhen`): a tick takes two millionths
  off resentment, and saving rounds to four decimals. Only batches of at least 25 ticks can move it, although the batch
  path is documented as equivalent and the rate as 0.003 a day (`EdgeDecay.AwakeTheGrudgeStays`).
- **Single ticks publish earlier than a batch** (`EdgeDecay.BatchEqualsTicksExactlyWhen`): a batch may publish in one
  event what single ticks publish in part and keep pending for the rest (`EdgeDecay.PublishedTooEarly`).
- **Attention ends after the first day** (`Attention.ScoreIsInterestExactlyInTheFirstWindow`): players' events carry
  tick 0, and the attention window evicts by that stamp.
- **Streak cap and redelivery** (`DirectorStreaks.CapLastsExactlyWhenRemembered`): after a restart, a redelivered audit
  enters the tool history a second time. The rate limit survives this, the streak cap does not, unless the audit is of
  the last intervention's tool (`DirectorStreaks.RedeliveryIsHarmlessExactlyWhen`,
  `DirectorStreaks.RestartIsHarmlessExactlyWhen`, `DirectorStreaks.RedeliveryLetsTheModelExtendAStreak`).
- **Posts rebuilt last** (`WorkingReplay.RebuiltExactlyWhenInLogOrder`): a replay puts circulated posts behind the other
  perceptions of their tick, whatever came first (`WorkingReplay.APostBeforeAComment`), and it skips its check of moods
  for an actor that perceived nothing (`WorkingReplay.AStrayMood`).

Assumptions common to all modules: keys stored in Redis do not expire, a single worker owns its actors, and a process
stops only between ticks. Checksums, saliences, decay rules of emotions and goals, the language model's answers and the
moments at which messages arrive are arbitrary inputs.

## Model

| member | source | states |
|---|---|---|
| ShardBarrier.ReturnedTicksNeverDecrease | engine/actor/src/lf_actor/shard_barrier.py:82-112 | under every interleaving of the leader's per-shard pushes with a follower's pops, the ticks returned by successive calls never decrease |
| ShardBarrier.EachTickReturnedAtMostOncePerShard | engine/actor/src/lf_actor/shard_barrier.py:82-112 | no tick is returned more often than the follower owns shards |
| ShardBarrier.OneShardRunsEachTickOnce | engine/actor/src/lf_actor/shard_barrier.py:82-112 | a follower with one shard gets strictly increasing ticks |
| ShardBarrier.DrainedFollowerIsUpToDate | engine/actor/src/lf_actor/shard_barrier.py:105-112 | once a signal is complete and all lists are empty, the last tick returned is the newest signalled |
| ShardBarrier.StepKeepsInv | engine/actor/src/lf_actor/shard_barrier.py:52-112 | every push, pop, skip and return keeps the ordering invariant of the lists |
| ShardOrder.OrderedExactlyWhenAligned | engine/actor/src/lf_actor/shard_barrier.py:52-56 | over all runs the returned ticks are ordered if and only if the follower looks first at the list the leader reaches first among its own |
| ShardOrder.MisalignedWalksGoBack | engine/actor/src/lf_actor/shard_barrier.py:92-112 | for every other pair of walks, a run in which the follower goes back to an older tick |
| ShardOrder.AscendingWalksAreAligned | engine/actor/src/lf_actor/shard_barrier.py:53-53 | walking both sides in ascending order meets the condition |
| TickBarrier.Barrier.Signal | engine/actor/src/lf_actor/shard_barrier.py:52-56 | pushes the tick onto every list of the walk, one push at a time with the follower acting in between, as steps of the state machine |
| TickBarrier.Barrier.Await | engine/actor/src/lf_actor/shard_barrier.py:92-104 | polls the lists in walking order and takes the first number found; with at least one poll, a number waiting at the call on one of the lists is never missed |
| TickBarrier.Barrier.DrainAll | engine/actor/src/lf_actor/shard_barrier.py:105-112 | empties every list in turn while the leader keeps pushing, and keeps the newest tick |
| TickBarrier.Barrier.NextSignal | engine/actor/src/lf_actor/shard_barrier.py:82-112 | the whole call stays a run of the state machine; its result is at least every tick returned before, and if any number waits on its lists at the call it returns one, at least as new as all of them |
| DecayAccount.DecayAppliedExactlyOnce | engine/actor/src/lf_actor/phases.py:1248-1285 | over any run of ticks, sleeps, wake-ups and restarts, the units of decay applied equal the distance the account has moved |
| DecayAccount.StoreEqualsMemoryAfterTick | engine/actor/src/lf_actor/phases.py:1569-1600 | after every tick the stored account equals the one in memory |
| DecayAccount.SettledBeforeAppraisal | engine/actor/src/lf_actor/phases.py:510-512 | an actor that perceives something in tick T is settled through T-1 first, by exactly what was missing |
| DecayAccount.RerunningATickAddsNothing | engine/actor/src/lf_actor/phases.py:1270-1285 | running a tick again changes nothing |
| DecayAccount.RestartsAreInvisible | engine/actor/src/lf_actor/phases.py:1226-1235 | a run with restarts at tick boundaries ends like the same run without them |
| DecayAccount.LagIsBounded | engine/tick/src/lf_tick/lod.py:36-49 | a sleeping actor is never a full cold interval behind, and not behind at all in its own tick |
| DecayAccount.NeverDecayedTwice | engine/actor/src/lf_actor/phases.py:371-406 | even when actors leave the roster and come back, every unit of decay applied is charged to a tick, and no tick is charged twice, before the first or after the last settled one |
| DecayAccount.TimeAwayForgivenOrCharged | engine/actor/src/lf_actor/phases.py:371-406 | time away is forgiven if one process saw both ends, and charged if a restart lies between |
| DecayPhases.ActorPhases.HydrateLedger | engine/actor/src/lf_actor/phases.py:1226-1235 | reads the stored accounts of roster members without overwriting what memory has |
| DecayPhases.ActorPhases.LedgerGet | engine/actor/src/lf_actor/phases.py:1237-1242 | starts an unknown account at the default and marks it for the store |
| DecayPhases.ActorPhases.CatchUpActor | engine/actor/src/lf_actor/phases.py:1248-1268 | settles one account through the tick before and leaves the others alone |
| DecayPhases.ActorPhases.PerceiveTick | engine/actor/src/lf_actor/phases.py:462-512 | hydrates on the first tick and catches up exactly the woken members |
| DecayPhases.ActorPhases.DecayPlan | engine/actor/src/lf_actor/phases.py:1270-1285 | plans for every member that is not asleep exactly the ticks its account is behind, and starts the accounts of sleepers |
| DecayPhases.ActorPhases.Mark | engine/actor/src/lf_actor/ledger.py:37-45 | writes the touched accounts to the store in one batch |
| DecayPhases.ActorPhases.ConsolidateTick | engine/actor/src/lf_actor/phases.py:1569-1600 | settles everyone in the plan and persists: one Consolidate on every account |
| DecayPhases.ActorPhases.RunTick | engine/actor/src/lf_actor/phases.py:462-1600 | one whole tick of the worker is one Tick event on the account of every actor |
| DecayPhases.ActorPhases.RestartProcess | engine/actor/src/lf_actor/phases.py:1226-1235 | a new process is a Restart event on every account |
| DecayPhases.ActorPhases.RefreshPersonas | engine/actor/src/lf_actor/phases.py:371-406 | a reloaded roster is a Join or Leave event on the accounts that change |
| BeliefGrounds.ThreatsAreResented | engine/actor/src/lf_actor/reflection.py:85-99 | a person is derivable as a threat if and only if resentment toward them is at least 0.3; trust, intimacy, other edges and emotions do not matter |
| BeliefGrounds.SupportersAreTrusted | engine/actor/src/lf_actor/reflection.py:69-84 | a person is derivable as a supporter if and only if trust is at least 0.25 and intimacy at least 0.15; resentment does not matter |
| BeliefGrounds.FeltSupportIsGratitude | engine/actor/src/lf_actor/reflection.py:101-116 | felt support of a person is derivable if and only if one of the strongest emotions is gratitude to them of at least 0.7 |
| BeliefGrounds.OnlyThreeKinds | engine/actor/src/lf_actor/reflection.py:52-116 | nothing else is derivable |
| BeliefGrounds.ThreatIsAsFirmAsResentment | engine/actor/src/lf_actor/reflection.py:95-95 | the confidence of a threat is the nearest ten-thousandth to the resentment, up to one |
| BeliefGrounds.SupportIsAsFirmAsTrust | engine/actor/src/lf_actor/reflection.py:73-73 | the confidence of a supporter is the nearest ten-thousandth to the mean of trust and intimacy, up to one |
| BeliefGrounds.FeltSupportIsAsFirmAsGratitude | engine/actor/src/lf_actor/reflection.py:101-116 | the confidence of felt support is the intensity of the last such gratitude |
| BeliefGrounds.ThreatsGrowWithResentment | engine/actor/src/lf_actor/reflection.py:85-99 | whatever else changes, more resentment never loses a threat and never makes it less firm |
| BeliefGrounds.SupportGrowsWithTrust | engine/actor/src/lf_actor/reflection.py:69-84 | whatever else changes, more trust and intimacy never lose a supporter and never make one less firm |
| BeliefGrounds.LedgerAnswersToTheEdge | engine/actor/src/lf_actor/phases.py:1731-1753 | after every reflection of every history, the ledger calls a person a threat or a supporter exactly when the edge to them has reached the thresholds, within 0.15 of what the edge is worth, and holds nothing or an ember otherwise |
| Beliefs.DerivedAboveFloor | engine/actor/src/lf_actor/reflection.py:52-115 | every derivable belief is a rule belief of at least confidence 0.2 |
| Beliefs.LedgerIsTheReplayOfItsEvents | engine/actor/src/lf_actor/reflection.py:208-221 | the ledger is nothing but the last published value of each slot |
| Beliefs.DerivedBecomeLive | engine/actor/src/lf_actor/reflection.py:208-214 | after publishing, every derivable slot is live and within the restatement threshold of its last confidence |
| Beliefs.StaleAreRetracted | engine/actor/src/lf_actor/reflection.py:117-150 | every slot that can no longer be derived ends absent or at 0.05 |
| Beliefs.InsightsTouchNoRuleSlot | engine/actor/src/lf_actor/reflection.py:168-195 | insights of the language model never touch a rule slot |
| Beliefs.InsightIsTold | engine/actor/src/lf_actor/phases.py:1731-1753 | an insight ends up in its slot, exactly as it says if it is new or has moved by the threshold, and the slot stays as it was if not; no other slot that is not a rule's changes |
| Beliefs.SmallMovesAreSilent | engine/actor/src/lf_actor/reflection.py:208-214 | a slot whose beliefs all stay within the threshold of what was published keeps its value |
| Beliefs.ReflectionIsExact | engine/actor/src/lf_actor/phases.py:1731-1753 | one reflection makes the ledger exact about the state reflected on |
| Beliefs.LedgerIsAlwaysExact | engine/actor/src/lf_actor/phases.py:1717-1753 | after every reflection of every history a rule slot is live exactly when its belief is derivable, otherwise absent or exactly 0.05, and live values are within 0.15 of the last derived confidence |
| Beliefs.ExactExactlyUpToTheGap | engine/actor/src/lf_actor/reflection.py:22-36 | a restatement threshold keeps every ledger exact if and only if it is at most the distance between the floor and the ember |
| Beliefs.InsightToBelief | engine/actor/src/lf_actor/reflection.py:168-195 | an insight becomes a belief exactly when it says something, is of an insight kind, is about a known person if it must be about one, and has a confidence that rounds above 0; the confidence is the nearest ten-thousandth, up to one |
| Beliefs.BeliefLedger.HasChanged | engine/actor/src/lf_actor/reflection.py:208-214 | says whether a belief is new or has moved by the threshold |
| Beliefs.BeliefLedger.ReflectOnce | engine/actor/src/lf_actor/phases.py:1731-1753 | runs one reflection in the source's order and leaves the ledger that the specification gives |
| Fanout.ValueFreeChoiceIsExact | engine/actor/src/lf_actor/replay_l1.py:284-303 | with at most `limit` related readers, every salience map over them gives the set chosen without one |
| Fanout.GivingUpIsNecessary | engine/actor/src/lf_actor/replay_l1.py:289-290 | with more, two salience maps give different sets |
| Fanout.GivesUpExactlyWhenValuesMatter | engine/actor/src/lf_actor/replay_l1.py:264-277 | the replay gives up if and only if the choice depends on values it cannot know |
| Fanout.ReplayedIsRouted | engine/actor/src/lf_actor/replay_l1.py:261-303 | over a whole log the replay gives every reader exactly the posts the router delivered |
| Fanout.FeedDeliveries | engine/actor/src/lf_actor/replay_l1.py:261-303 | gives up exactly when a post is undecidable, and otherwise lists for every reader the replayed posts in order |
| Fanout.LateEdgesAreHarmlessExactlyWhen | engine/actor/src/lf_actor/replay_l1.py:284-295 | reading the edges known at the decision instead of those alive at the post picks the right readers if and only if no candidate is related now that was not then (or the newly related ones are the hashed ones) |
| Fanout.AnEdgeInBetween | engine/actor/src/lf_actor/replay_l1.py:284-303 | whatever the hash: with nobody related at the post and a limit of two or more, one edge made in between to any candidate changes the readers picked; with a limit of one, to any candidate but the hashed one |
| Fanout.AuthorIsNoReader | engine/actor/src/lf_actor/social.py:27-49 | a post reaches at most `limit` members of the roster and never its author |
| Fanout.StrongestFirst | engine/actor/src/lf_actor/social.py:27-44 | with any related reader, the post goes to those with the greatest salience, by id among equals, in that order, and leaves one out only when the limit is reached by stronger ones |
| Fanout.LeastHashesFirst | engine/actor/src/lf_actor/social.py:44-49 | with none, it goes to the readers with the least hash of post and reader, in that order |
| Fanout.OnlyPublicPostsAreRouted | engine/actor/src/lf_actor/social.py:146-166 | over a whole log a reader gets exactly the posts of the world feed with an author that chose that reader |
| Fanout.FeedFanout.Targets | engine/actor/src/lf_actor/social.py:146-166 | collects the saliences of the roster's edges and chooses by them; private and authorless posts go nowhere |
| LineMatch.PrintedIsRead | engine/actor/src/lf_actor/conversation.py:17-22 | a pattern reads back identifier and text of the line it prints, whatever the text |
| LineMatch.OtherTailIsNotRead | engine/actor/src/lf_actor/conversation.py:17-26 | and reads nothing off a line with the same lead and another tail |
| Conversation.LineReadRightExactlyWhenNotMisleading | engine/actor/src/lf_actor/conversation.py:31-51 | one printed line is read as the turn it means if and only if its free text forges no memo about that player |
| Conversation.MemoryReadRightExactlyWhenNothingMisleads | engine/actor/src/lf_actor/conversation.py:31-51 | a whole memory is read back as the conversation it records, oldest first, if and only if no line of it misleads |
| Conversation.PlainMemoryIsReadRight | engine/actor/src/lf_actor/conversation.py:8-9 | in particular whenever no text contains the mark of a memo about a player |
| Conversation.AForgedReply | engine/actor/src/lf_actor/conversation.py:21-22 | a player's message quoting such a memo puts a reply to another player into the actor's mouth |
| Conversation.ConversationTurns | engine/actor/src/lf_actor/conversation.py:31-51 | the nested loops with break return exactly the turns read off the reversed lines |
| OwnMemos.MemoRebuiltExactlyWhenShort | engine/actor/src/lf_actor/memo.py:49-85 | the memo rebuilt from a stored event is the memo written if and only if the text has at most 1000 characters |
| OwnMemos.TickRebuiltExactlyWhenShort | engine/actor/src/lf_actor/phases.py:1386-1557 | for every actor, mapping the stored events of a tick gives its memo lines in order if and only if all its texts were stored whole |
| OwnMemos.EventsAreOnesOwn | engine/actor/src/lf_actor/phases.py:1386-1557 | what is stored under an actor in a tick are exactly the events of its own doings |
| OwnMemos.AnswersReadDifferently | engine/actor/src/lf_actor/memo.py:25-42 | the same words to the same person read differently when they answer and when they come of one's own accord, both as written and as rebuilt |
| OwnMemos.SchemasKeepTicksWhole | engine/actor/src/lf_actor/client.py:62-68 | with replies of at most 600 and comments of at most 500 characters, as the output schemas demand, every tick of every actor is rebuilt exactly |
| OwnMemos.Resolution.Resolve | engine/actor/src/lf_actor/phases.py:1402-1510 | queues decisions, replies, outreach, comments and actions per actor, events and memos in the same order |
| OwnMemos.Resolution.Reflect | engine/actor/src/lf_actor/phases.py:1798-1837 | stores the beliefs worth telling and writes them down, one by one |
| OwnMemos.BufferIsTheNewest | engine/actor/src/lf_actor/memory.py:33-39 | pushing and trimming after every line keeps the first lines of the reversed whole history |
| OwnMemos.ReadingIsTheNewest | engine/actor/src/lf_actor/replay_l1.py:358-374 | reading any number of lines up to the buffer size gives what the whole history would give |
| OwnMemos.WorkingMemory.Add | engine/actor/src/lf_actor/memory.py:33-39 | one push and trim extends the history by one line |
| OwnMemos.WorkingMemory.Recent | engine/actor/src/lf_actor/memory.py:41-44 | reads the newest lines of the history, as far as the buffer goes back |
| WorkingReplay.RebuildWorking | engine/actor/src/lf_actor/replay_l1.py:306-374 | the loops over shifts, perceptions and own events give up exactly when not every perception, and nothing else, is known to have moved the actor, and otherwise join the rebuilt lines of the ticks in ascending order, newest first and cut |
| WorkingReplay.RebuiltExactlyWhenInLogOrder | engine/actor/src/lf_actor/replay_l1.py:306-374 | over a whole history, the rebuilt lines are the lines written if and only if in every tick the mail had arrived in the order of the log with posts last, as far as the lines tell, and an actor that perceived nothing had no goal move it in a tick with a memo |
| WorkingReplay.KnowsExactlyWhenAllWasStored | engine/actor/src/lf_actor/replay_l1.py:335-345 | over a whole history, the replay claims to know if and only if nothing reached the actor, or everything that did moved it enough to be stored and no goal with a cause did |
| WorkingReplay.RebuiltIsTheBuffer | engine/actor/src/lf_actor/replay_l1.py:373-374 | then what the replay reads is the buffer of 50 lines as it was pushed and trimmed |
| WorkingReplay.APostBeforeAComment | engine/actor/src/lf_actor/replay_l1.py:326-332 | a post that arrived before a comment is put behind it |
| WorkingReplay.AStrayMood | engine/actor/src/lf_actor/replay_l1.py:335-370 | an actor that perceived nothing and was moved by a reached goal is given a mood line it never wrote |
| SocialLoop.OnlyCommentsAreDelivered | engine/actor/src/lf_actor/social.py:52-68 | in every reachable log a message of an actor reaches at most one mailbox, another actor's, and exactly when it is a comment under that actor's post |
| SocialLoop.ChainsEndAfterTwo | engine/actor/src/lf_actor/mailbox.py:93-109 | a message caused by a message is delivered to nobody and causes no further message, and its cause was caused by a post |
| SocialLoop.AnswersGoBack | engine/actor/src/lf_actor/phases.py:1287-1355 | in every log an answer is by the actor who was addressed, goes back to whoever addressed it about the same post, names what it answers, and keeps at most 1000 characters |
| SocialLoop.MessageKinds | engine/actor/src/lf_actor/phases.py:1287-1384 | every message to an actor in a reachable log is a comment under somebody else's post or the answer to one |
| SocialLoop.ExtractComment | engine/actor/src/lf_actor/social.py:100-119 | a proposed comment survives only with text, under a post that was seen and has an author, and one with text is dropped only for want of such a post |
| DirectorGate.RateLimit | engine/director/src/lf_director/rules.py:81-101 | in every run, with restarts whose tail covers the window and with any redelivered audits, the interventions in the window that ends at an intervention are at most the cap then in force |
| DirectorQuiet.ClosingsAverageTheirWindow | engine/director/src/lf_director/signals.py:65-79 | over every run, the average a closing is judged by is the sum of all contributions observed in the last ticks of the window since the last restart, divided by the number of those ticks; contributions and ticks are read off the steps of the run |
| DirectorQuiet.InterventionsFollowQuiet | engine/director/src/lf_director/signals.py:69-84 | every intervention of a run belongs to one closing of it: at that step as many closings as were then needed had an average below the threshold, with no restart and no other intervention since the first of them |
| DirectorQuiet.IntervenesExactlyWhen | engine/director/src/lf_director/director.py:109-160 | in a faithful run a closing intervenes if and only if it ends such a quiet spell and the log has fewer interventions in the window than the cap last set; the tool is the model's unless the last three interventions used it, and otherwise the rule's |
| DirectorQuiet.OwnAuditsComeBackUnnoticed | engine/director/src/lf_director/director.py:347-366 | an audit that comes back changes nothing exactly when it is a plan or was stored since the last restart; otherwise its tick counts again |
| DirectorGate.ModelNeverExtendsAStreak | engine/director/src/lf_director/director.py:109-153 | a tool chosen by the language model never makes a streak longer than three |
| DirectorGate.RemainingCountsTheWholeLog | engine/director/src/lf_director/rules.py:81-86 | front eviction counts exactly the interventions of the whole log inside the window |
| DirectorGate.RestartIsInvisible | engine/director/src/lf_director/director.py:367-392 | rebuilding from the last 50 audits gives the same budget at every later tick and the same capped tool, if they cover the window and the last three interventions |
| DirectorGate.RestartCountsAllExactlyWhenTheTailCoversTheWindow | engine/director/src/lf_director/director.py:66-67 | the rebuilt count is right at every later tick if and only if no intervention older than the tail lies in the window |
| DirectorStreaks.CapLastsExactlyWhenRemembered | engine/director/src/lf_director/director.py:109-153 | from any world that any restarts and redeliveries lead to, no faithful continuation lets the model extend a streak if and only if the remembered tools end in the run of one tool that the log ends in, up to three |
| DirectorStreaks.RedeliveryIsHarmlessExactlyWhen | engine/director/src/lf_director/director.py:347-365 | after one unseen redelivered audit no faithful continuation lets the model extend a streak if and only if it is of the tool of the last intervention |
| DirectorStreaks.RestartIsHarmlessExactlyWhen | engine/director/src/lf_director/director.py:367-392 | after a restart no faithful continuation lets the model extend a streak if and only if the tail holds the last three interventions, or the last ones of the log, one more than the tail holds, are not all of one tool |
| DirectorStreaks.RedeliveryLetsTheModelExtendAStreak | engine/director/src/lf_director/director.py:109-153 | in every configuration whose gate can open there is a run in which, after a restart and one redelivery, the language model brings a tool a fourth time in a row |
| DirectorGate.OnlyTheRuleExtendsAStreak | engine/director/src/lf_director/director.py:120-158 | in a faithful run an intervention makes a streak longer than three if and only if the rule chose it and its tool is the capped one |
| DirectorStreaks.RuleStreaksAreUnbounded | engine/director/src/lf_director/director.py:154-158 | the rule path is not capped: in every configuration whose gate can open, and for every n, a faithful run with n interventions in a row of one tool |
| DirectorCoverage.RateLimitWithoutAsking | engine/director/src/lf_director/director.py:367-392 | in every run, with any restarts and redeliveries, the budget holds at every intervention, if a season day brings at most two plans and the caps leave room in the tail of 50 audits, as the shipped parameters do |
| DirectorCoverage.FewAuditsAreCovered | engine/director/src/lf_director/director.py:66-67 | a tail covers the budget window whenever the window holds no more audits than the tail |
| DirectorCoverage.UncoveredRestartBreaksTheLimit | engine/director/src/lf_director/director.py:348-352 | without coverage the budget can be exceeded: in every configuration whose required quiet is shorter than the window, a run in which 50 plans bury an intervention, a restart forgets it, and a cap of one is broken |
| DirectorProcess.Director.constructor | engine/director/src/lf_director/director.py:367-392 | a process starts as restored from its last season and the tail of its audit log |
| DirectorProcess.Director.CloseTick | engine/director/src/lf_director/signals.py:69-80 | closes the bucket, averages the window and counts quiet closings |
| DirectorProcess.Director.BudgetRemaining | engine/director/src/lf_director/rules.py:81-86 | pops what left the window and returns what is left of the cap |
| DirectorProcess.Director.StreakCappedTool | engine/director/src/lf_director/director.py:109-118 | names the tool used by all of the last three interventions, if there is one |
| DirectorProcess.Director.Select | engine/director/src/lf_director/director.py:120-158 | the model's choice behind the gate unless it is capped, otherwise the rule's |
| DirectorProcess.Director.TickCompleted | engine/director/src/lf_director/director.py:218-255 | closing and evaluating a tick is one Close step of the state machine, with the audit it appends |
| DirectorProcess.Director.RestoreBudget | engine/director/src/lf_director/director.py:347-365 | an own audit counts once more unless this process wrote it or it is a plan |
| DirectorProcess.Director.RestoreFromHistory | engine/director/src/lf_director/director.py:367-392 | takes over the last season, reads the tail audit by audit and ends in the restored memory and at the latest planned season day |
| DirectorProcess.PlannedDaysAreBehind | engine/director/src/lf_director/director.py:380-385 | the restored season day is the latest a plan in the tail belongs to, so no such day is planned again |
| DirectorProcess.Director.OpensDay | engine/director/src/lf_director/director.py:464-467 | a tick opens a season day if and only if its day is later than the last one, which it then becomes |
| DirectorProcess.Director.ApplySeason | engine/director/src/lf_director/director.py:394-408 | a season replaces the theme, the quiet requirement and the cap and nothing else |
| Attention.ScoreCountsStamps | engine/director/src/lf_director/signals.py:110-117 | with stamps in order, however often scores were asked for, a score is the number of hits whose stamps lie in the window |
| Attention.CountsRightExactlyWhenInOrder | engine/director/src/lf_director/signals.py:110-117 | front eviction counts right at every later tick if and only if no hit still in the window is followed by one with an older stamp |
| Attention.ScoreIsInterestIfStampedOnArrival | engine/director/src/lf_director/signals.py:91-97 | events stamped when they arrive would be counted for as long as the window lasts |
| Attention.ScoreIsInterestExactlyInTheFirstWindow | services/gateway/src/lf_gateway/session.py:76-80 | stamped zero, as players' events are, a score is right if and only if the world is younger than the window or nobody was interested |
| Attention.AttentionTracker.Scores | engine/director/src/lf_director/signals.py:110-117 | evicts from the front and tallies the rest per actor |
| EdgeStore.IndexIsExactAndCapped | engine/actor/src/lf_actor/relationship.py:132-150 | over every run of operations the index of an actor is the set of counterparts with a saved edge, and never exceeds the cap |
| EdgeStore.NewEdgeDisplacesTheWeakest | engine/actor/src/lf_actor/relationship.py:132-150 | a new edge survives its registration; from a full index exactly one other goes, of least salience and first by id among equals |
| EdgeStore.MeetingsBalanceDormancies | engine/actor/src/lf_actor/relationship.py:102-130 | over a whole run two actors first meet once more than their edge went dormant if they have an edge, and as often if they have none |
| EdgeStore.InteractedKeeps | engine/actor/src/lf_actor/relationship.py:178-209 | an interaction keeps the invariant and tells of a first meeting exactly when there was no edge |
| EdgeStore.StageActedKeeps | engine/actor/src/lf_actor/relationship.py:211-255 | so does a confession or a break, for both directions, each of which is told as a first meeting exactly when it had no edge |
| EdgeStore.DecayTouchesEachEdgeOnce | engine/actor/src/lf_actor/relationship.py:285-307 | decay applies the rule to every edge of the actor once, changes no other, and publishes exactly the changes that are large enough |
| EdgeStore.SelfActionMeetsTwice | engine/actor/src/lf_actor/phases.py:134-146 | an actor acting on itself would first meet itself twice, which is why targets are cut to others |
| EdgeEffects.StageActionChangesTwoStages | engine/actor/src/lf_actor/relationship.py:211-255 | after a confession or a break each direction has the edge that was there, or a fresh acquaintance, with exactly its own side's new stage if any; every other edge is unchanged or has made room as the weakest of a full index; a milestone is told exactly when there is a transition |
| EdgeEffects.InteractionChangesOneEdge | engine/actor/src/lf_actor/relationship.py:178-209 | after an interaction the edge is what the rule makes of the one that was there, or of a fresh one, cleared exactly if published; every other edge is unchanged or has made room |
| EdgeEffects.InsightChangesOneEdge | engine/actor/src/lf_actor/relationship.py:271-283 | an insight changes exactly the edge it is about, if there is one |
| RelationshipAdapter.Adapter.RegisterEdge | engine/actor/src/lf_actor/relationship.py:132-150 | adds to the index, scans the others for the least salience and removes one |
| RelationshipAdapter.Adapter.EnsureEdge | engine/actor/src/lf_actor/relationship.py:102-130 | loads the edge, or registers a new one and reports it |
| RelationshipAdapter.Adapter.RecordInteraction | engine/actor/src/lf_actor/relationship.py:178-209 | changes and saves one edge, and returns it exactly if the change is published |
| RelationshipAdapter.Adapter.RecordStageAction | engine/actor/src/lf_actor/relationship.py:211-255 | makes sure of both edges, decides, saves both, and returns the new stage exactly if there is a milestone |
| RelationshipAdapter.Adapter.RecordInsight | engine/actor/src/lf_actor/relationship.py:271-283 | changes an edge that exists and never makes one |
| RelationshipAdapter.Adapter.DecayAll | engine/actor/src/lf_actor/relationship.py:285-307 | walks the counterparts in id order and overwrites each edge once |
| EdgeDecay.DecayComposes | engine/relationship/src/lf_relationship/engine.py:188-211 | in exact arithmetic a batch of m + n ticks is a batch of m and then of n |
| EdgeDecay.WhatTicksTake | engine/relationship/src/lf_relationship/engine.py:188-211 | over any number of single ticks intimacy loses 300 millionths a tick, resentment 2 and salience 600, down to zero; the loss of the first two waits to be told, and nothing else changes |
| EdgeDecay.NothingLargeWaits | engine/actor/src/lf_actor/relationship.py:285-307 | tick by tick, every change told is at least as large as the threshold, and what waits to be told is always smaller |
| EdgeDecay.BatchTellsTheSameStory | engine/relationship/src/lf_relationship/engine.py:188-223 | in exact arithmetic, without the rounding of the stored form, single ticks with publishing on the way end in the same relationship as one batch and tell in all of the same change |
| EdgeDecay.PublishedAndStoredInUnits | engine/actor/src/lf_actor/relationship.py:285-307 | a stored pass publishes exactly when what waits reaches the threshold, and then nothing waits; what it stores and publishes is rounded to four decimals, within half a unit of its value |
| EdgeDecay.ResentmentNeverFadesTickByTick | engine/actor/src/lf_actor/relationship.py:285-307 | decayed, published if due and stored with four decimals, tick by tick, intimacy and salience cool as in one batch and resentment keeps its value, whatever is published on the way |
| EdgeDecay.BatchTellsTheStoredStoryExactlyWhen | engine/actor/src/lf_actor/relationship.py:285-307 | a stored batch ends in the same relationship as the stored single ticks and tells in all of the same change if and only if there is no resentment, or the batch has fewer than 25 ticks, or exactly 25 and the two ties round up |
| EdgeDecay.BatchEqualsTicksExactlyWhen | engine/actor/src/lf_actor/relationship.py:285-307 | it also leaves the same pending change and publishes the same events if and only if, besides, no single tick before the last publishes an edge that still cools, and the batch publishes exactly when the last tick does |
| EdgeDecay.AwakeTheGrudgeStays | engine/relationship/src/lf_relationship/params.yaml:56-59 | a resentment of 0.3 is 0.2998 after a hundred ticks in one batch, and 0.3 after a hundred single ticks |
| EdgeDecay.PublishedTooEarly | engine/actor/src/lf_actor/relationship.py:297-305 | a warm edge without resentment that a batch of twenty ticks stores with nothing pending, and twenty single ticks with 0.0009 pending |
| Resonance.BurstsAreRare | engine/actor/src/lf_actor/phases.py:876-935 | in every run no correlation bursts twice for an actor, and bursts of an actor are a cooldown apart |
| Resonance.BurstsAreFresh | engine/actor/src/lf_actor/phases.py:876-935 | every burst of every run comes within the lifetime of its memory |
| Resonance.TheStrongestStays | engine/actor/src/lf_actor/resonance.py:76-94 | what is kept is the newest of the strongest unspent memories offered since the slot was last empty |
| Resonance.BurstsExactlyWhenRipe | engine/actor/src/lf_actor/phases.py:876-935 | in every run a moment bursts what is on an actor's mind if and only if it is within its lifetime and every burst of that actor is a cooldown ago; a faded memory goes, one that has to wait stays |
| Resonance.SpentExactlyByBursting | engine/actor/src/lf_actor/resonance.py:100-108 | a correlation is refused for good exactly when it has burst |
| Resonance.OffersAreTheMovingReplies | engine/actor/src/lf_actor/phases.py:937-977 | a tick offers, in order, exactly the replies to comments whose strongest shift reaches the threshold, each with that strength and both texts cut to 120 characters |
| Resonance.ResonanceStore.Record | engine/actor/src/lf_actor/resonance.py:76-94 | refuses spent correlations and weaker memories, otherwise replaces |
| Resonance.ResonanceStore.Spend | engine/actor/src/lf_actor/resonance.py:100-108 | empties the slot, marks the correlation and the tick |
| Resonance.ResonanceStore.BurstResonance | engine/actor/src/lf_actor/phases.py:876-935 | clears a faded memory, waits out the cooldown, or bursts with the source and correlation of the conversation |
| Resonance.ResonanceStore.RecordResonances | engine/actor/src/lf_actor/phases.py:937-977 | offers, in order, the comment exchanges whose strongest shift reaches the threshold |
| Threads.LeftOutExactlyTheCycles | apps/web/components/LivePosts.tsx:118-153 | every comment is shown at most once, and those left out are exactly the ones whose chain of replies runs into a cycle of several comments |
| ThreadLinks.LeftOutExactlyTheCircles | apps/web/components/LivePosts.tsx:118-153 | in terms of event ids and reply links alone: the comments left out are exactly those whose links lead round a circle of several comments |
| ThreadLinks.ThreadsFollowTheLinks | apps/web/components/LivePosts.tsx:123-152 | every row stands in the block of the comment its links lead to, and is a top exactly when its link is empty, the post, or of no other comment of the list |
| ThreadLinks.RepliesAreShownWithWhatTheyAnswer | apps/web/components/LivePosts.tsx:123-152 | a comment whose link names another one, its links not going round in a circle, is shown at depth one in the block that holds the comment it names |
| ThreadLinks.RowsKeepTheOrder | apps/web/components/LivePosts.tsx:134-152 | tops stand in the order of the list, and so do the replies of one block |
| Threads.NothingLostWithoutCycles | apps/web/components/LivePosts.tsx:118-153 | without such cycles the output is a permutation of the input |
| Threads.RepliesFollowTheirRoot | apps/web/components/LivePosts.tsx:146-152 | rows come in blocks: a top, then its replies in original order, tops in order |
| Threads.SettlesOrCycles | apps/web/components/LivePosts.tsx:123-133 | every chain either ends or enters a cycle of several comments, never both |
| Threads.FindRoot | apps/web/components/LivePosts.tsx:123-133 | the climb terminates on every input and finds the root, to which the links lead (ThreadLinks.LinksLeadToTheRoot) |
| Threads.ThreadList | apps/web/components/LivePosts.tsx:134-152 | the loops over maps and lists build exactly the rows that the theorems above place |
| Rhythm.ExactlyAsOftenAsWanted | engine/actor/src/lf_actor/rhythm.py:32-55 | over a day sampled once per slot an actor posts exactly as often as its weekday or weekend target says, or in every slot outside its working hours if there are fewer |
| Rhythm.NeverWhileBusy | engine/actor/src/lf_actor/rhythm.py:58-70 | never in working hours on a working day, also when they run over midnight |
| Rhythm.MomentsAreDistinctAndOpen | engine/actor/src/lf_actor/rhythm.py:73-84 | whatever the hash, n moments take n different open slots |
| Rhythm.HigherTargetKeepsTheMoments | engine/actor/src/lf_actor/rhythm.py:73-84 | raising the target only adds slots |
| Rhythm.EachMomentIsTheFirstFree | engine/actor/src/lf_actor/rhythm.py:73-84 | the k-th moment takes the first slot not yet taken, going round from where its hash points |
| Rhythm.ProbeFrom | engine/actor/src/lf_actor/rhythm.py:81-82 | the probing loop terminates and finds the next free slot going round |
| Rhythm.ChooseMoments | engine/actor/src/lf_actor/rhythm.py:73-84 | the loop chooses exactly the specified slots |
| Playback.EveryOrderGetsTheRecord | engine/actor/src/lf_actor/replay_ai.py:116-124 | whatever order the calls come in, every key gets its recorded outputs in the recorded order |
| Playback.AnsweredExactlyWhenRecorded | engine/actor/src/lf_actor/replay_ai.py:116-124 | a replay gets through if and only if it calls no key more often than was recorded |
| Playback.NothingLeftExactlyWhenSameCalls | engine/actor/src/lf_actor/replay_ai.py:126-129 | nothing is left over if and only if every key was called as often as recorded |
| Playback.RecordPlaysBack | engine/actor/src/lf_actor/replay_ai.py:94-124 | made again in the recorded order, the calls get back the whole record call by call, except those that acted on an output that was not retained |
| Playback.QueueUp | engine/actor/src/lf_actor/replay_ai.py:94-114 | queues the playable records per key in recorded order and skips those whose output was not retained |
| Playback.TracePlayback.constructor | engine/actor/src/lf_actor/replay_ai.py:90-91 | a playback starts with nothing taken from any queue |
| Playback.TracePlayback.TakeNext | engine/actor/src/lf_actor/replay_ai.py:116-124 | hands out the next record of the key, or fails when there is none |
| Playback.TracePlayback.Remaining | engine/actor/src/lf_actor/replay_ai.py:126-129 | sums the queues: recorded calls minus calls taken |
| Playback.OkExactlyWhenSameDecisions | engine/actor/src/lf_actor/replay_world.py:221-257 | the comparison is passed if and only if the schedule is exact, nothing is left over and the decisions are equal entry by entry |
| Playback.OkExactlyWhenVerifiableAndNothingMismatched | engine/actor/src/lf_actor/replay_world.py:204-211 | that is, if and only if it is verifiable and reports no mismatch |
| Playback.ReportsExactlyTheDifferences | engine/actor/src/lf_actor/replay_world.py:204-257 | the reasons for not holding up are the ones there are, and a comparison that holds up reports exactly the places where the worlds decided differently |
| Playback.ExternalSchedules | engine/actor/src/lf_actor/replay_world.py:83-105 | every outside event is scheduled at the tick it was perceived, in order, or listed as unscheduled |
| Playback.ScheduledWhereLastPerceived | engine/actor/src/lf_actor/replay_world.py:83-105 | an outside event is scheduled at the tick of the last record of its being perceived, and listed as unscheduled exactly if there is none |
| Playback.ExactExactlyWhenAllPerceived | engine/actor/src/lf_actor/replay_world.py:78-80 | the schedule is exact if and only if every outside event was perceived |
| LiveFeed.FeedShowsTheLatest | apps/web/lib/live-feed.ts:96-101 | after any batches the feed shows the fifty greatest ids of everything ever received, descending, each once, in the version that came last |
| LiveFeed.FeedIsTheFiftyGreatestIds | apps/web/lib/live-feed.ts:96-101 | post by post: every post shown is the last version received, ids descend, and a post is missing only when fifty with greater ids are shown |
| LiveFeed.ArrivalOrderDoesNotMatter | apps/web/lib/live-feed.ts:143-177 | when posts never change, the feed depends only on which posts arrived |
| LiveFeed.CutThenMerge | apps/web/lib/live-feed.ts:100-100 | cutting before merging loses nothing that merging before cutting would show |
| LiveFeed.Merge | apps/web/lib/live-feed.ts:96-101 | fills the map, sorts, cuts: exactly the specified feed |
| LoopHealth.FoldIgnoresOrder | engine/director/src/lf_director/loop_health.py:85-87 | envelopes with distinct ids give the same report in every order |
| LoopHealth.TypesAddUp | engine/director/src/lf_director/loop_health.py:88-96 | the counts by type are those of the interventions of each type, and add up to the total |
| LoopHealth.RatesAreProportions | engine/director/src/lf_director/loop_health.py:118-160 | responded interventions are among the eligible, re-engaged players among the responded, so both rates lie between 0 and 1 |
| LoopHealth.ReengagedMeansCameBack | engine/director/src/lf_director/loop_health.py:125-137 | a player counts as re-engaged if and only if some intervention of theirs is later than some response to them |
| LoopReport.ReportCounts | engine/director/src/lf_director/loop_health.py:85-140 | the counts of the report are the sizes of sets of envelopes: interventions, those that can be answered, those answered, responses, players, and posts on a chain an intervention started |
| LoopReport.LatenciesAreFirstWaits | engine/director/src/lf_director/loop_health.py:112-124 | the latencies are, one each, the waits of the answered interventions for their earliest answers |
| LoopReport.ReengagedExactlyWhenBack | engine/director/src/lf_director/loop_health.py:125-137 | the players re-engaged are those with an intervention later than a response to them, said on the envelopes alone |
| LoopHealth.RatesAreShares | engine/director/src/lf_director/loop_health.py:118-160 | the rates are the shares of answered in eligible interventions and of re-engaged in answered players, and absent when there are none |
| LoopHealth.FirstIsEarliest | engine/director/src/lf_director/loop_health.py:112-116 | the response kept per key is no later than any other with that key |
| LoopHealth.PercentileIsNearestRank | engine/director/src/lf_director/loop_health.py:75-78 | the percentile is a sample that at least that share of the samples does not exceed, and the least such value |
| LoopHealth.PercentilesGrow | engine/director/src/lf_director/loop_health.py:145-149 | a higher percentile is no lower: p50 never exceeds p95 |
| LoopHealth.EarliestBy | engine/director/src/lf_director/loop_health.py:112-132 | the loop over responses keeps the earliest per key |
| LoopHealth.FoldLoopHealth | engine/director/src/lf_director/loop_health.py:85-164 | the loops over sets and maps build exactly the specified report |

## Left out

- ShardBarrier: does not model `ack` and `wait_acks` (shard_barrier.py:58-80, 114-118), a polling loop over a clock that
  may give up at any time and so promises nothing about order; the expiry of the lists is not modelled either.
- TickBarrier.Barrier.NextSignal: bounds how often the leader acts and the follower polls during one call, because the
  source bounds them by a clock; the bound is an arbitrary parameter.
- DecayPhases: emotion, goal and relationship decay are one counter per actor; what a unit of decay does to each of them
  is modelled only for relationships (EdgeDecay).
- Beliefs.DeriveBeliefs: leaves out the wording of statements; confidences are ten-thousandths rounded half up, which
  differs from the source's rounding only in exact ties.
- Beliefs.LedgerIsAlwaysExact: distances between confidences are decimal. Where two are exactly a restatement apart, the
  source's binary fractions can fall short of it (0.35 after 0.2) and the slot is not restated.
- Beliefs.BeliefLedger.ReflectOnce: does not model the stored memory point and the salience an insight adds to an edge;
  the latter is RelationshipAdapter.Adapter.RecordInsight.
- Fanout: the salience of an edge is an arbitrary real; a roster has no repetitions.
- Conversation: only the four patterns and the lines printed by `describe_interaction`, `reply_to_player_memo` and
  `proactive_dm_memo`; all other memos are arbitrary lines that do not begin like a player's.
- OwnMemos.Resolution.Resolve: emotional shifts are appended before the events modelled here and leave no memo;
  provenance and correlation ids are not modelled.
- SocialLoop: an answer may come any time after delivery and any number of times, which allows more logs than the
  source produces.
- DirectorGate: an append that fails halfway (audit stored, product not) is not modelled; neither are the kinds of
  incidents and `interventions_total`, which a restart does not rebuild.
- DirectorProcess: what a plan for a season or a life arc says, and the review of the day before.
- DirectorGate.RateLimit: asks that the tail covers the window at every restart; DirectorCoverage.RateLimitWithoutAsking
  derives it from bounds on plans and caps, which are facts about a log and not derived from the planner.
- WorkingReplay.RebuildWorking: the emotion engine is present; the mood put into words from a stored shift is the mood
  after that perception; a memo is the one rebuilt in OwnMemos, and a goal's cause is never something perceived.
- Attention.AttentionTracker.Scores: `top`, the three most watched actors in a fixed order, adds nothing to the window.
- EdgeStore: dimensions of an edge are opaque to the store; the update rules are arbitrary functions.
- EdgeDecay: numbers are exact millionths, so sums are compared with the publishing threshold without binary rounding;
  which way a rounding tie goes is an arbitrary function of the number. A published event is its deltas.
- EdgeDecay.BatchTellsTheSameStory: leaves out the rounding of the stored form; with it the statement is
  EdgeDecay.BatchTellsTheStoredStoryExactlyWhen.
- Resonance: the text of the follow-up post and its fallback; that a burst always carries the conversation's correlation
  is modelled.
- Rhythm.ExactlyAsOftenAsWanted: calendars and holidays are one flag, a free day.
- Playback: parsing of recorded outputs, and running the engine itself on them.
- LiveFeed: ids are compared character by character, as the source's comparison does on the ids in use; the range
  selector is one more merge.
- LoopHealth.FoldLoopHealth: rates and latencies are not rounded to decimals, and a percentile's rank is computed
  exactly; envelopes have distinct ids, as in the event store.
- Mailboxes (capped lists drained in order), episodes, goals, context budgets, personas, the game clock, world forks,
  every network and database protocol: not part of this model.
