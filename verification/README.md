# Shadowroller: a verified model

Shadowroller lets players of one game roll dice together. A Go server keeps one history of events for
each game and announces changes over Redis channels; a TypeScript client keeps the list each player sees.
This project models four parts of it and proves what they are for.

**The event-visibility protocol** (`Events`, `Filter`, `Channels`, `Packets`, `EventStore`,
`EditRoutes`, `Subscription`, `EventList`, `ClientReducer`, `Tables`, `Convergence`, `Divergence`, `Tracking`,
`Operations`, `ReducerEffects`, `Draining`, `Replay`, `Following`, `Codes`, `Paging`, `Migration`). Every event
has an owner and is shared with the game, with the GMs or with nobody. A post, delete, share change or
edit is stored and announced with packets in game, player and GM channels, some framed with a filter. A
connection listens to two or three channels, drops the packets that exclude it and streams the rest to a
client, which turns each text into reducer actions on a list kept newest first. `Convergence` makes this
one step system: histories, and for each subscriber an inbox, a stream and a client state. Its invariant is
that what a client holds, after everything on its way to it, is exactly what `PlayerCanSeeEvent` lets it
see. Two kinds of edit break it. An edit of an event shared with GMs is announced in the GM channel only, so
an owner who is no GM never hears of it. And the roll route stores a glitchiness as an integer but announces
the number it was sent, so 1.5 is stored as 1 and shown as 1.5. The invariant is therefore stated with its
exact condition, for one step and for whole runs, and two concrete steps show the losses (`Divergence`).
`Operations` and `ReducerEffects` state what each operation of the server and each action of a client does.
`Tracking` states what holds in spite of the losses, and of a client that has loaded only part of a history;
`Draining` shows that deliveries alone bring every client there; `Following` lets clients load older events
while the game goes on, and finds the one case in which loading skips events.
`Paging` and `Migration` read whole histories page by page.

**The expression input** (`Expressions`, `Tokenizer`, `Parser`, `Grammar`, `Chains`, `Printing`,
`Decimals`, `Characters`, `Acceptance`). The tokenizer and
the Pratt parser are classes with the position and the lookahead of the source. Their state stands for
"the lexemes left to read"; the parser is proved to be exactly a declarative grammar, in both directions,
and to undo the printer. `Chains` parses and evaluates
chains of any length as a calculator with two registers would. `Acceptance` says which texts
an input accepts by comparing the parser's position with the end of the text.

**The dice** (`Dice`, `Roller`, `Generator`, `RollStats`). Random bytes are filtered into fair rolls and
sent over a bounded channel; the roller reads them for plain rolls, Exploding Sixes and Second Chance; the
client derives hits and glitches from the result.

**Two counters** (`RateLimit`, `Shutdown`). The fixed-window limiter and the wait-group accounting of
the shutdown task.

Methods and classes stand where the source changes state; each is tied to a function of the old state, and
the lemmas are about these functions. JSON is a parameter (`Codec`) of which only "parsing undoes
marshalling of what it carries" and "the text does not start with a dash" are used; runs announce only updates
it carries, which for JSON are those whose numbers are doubles. `Codes` shows that there is such a codec. Where the code does not do what it promises
for all inputs, the lemma is an if and only if: `StepKeepsSyncIff`, `SyncedThroughoutIff`, `PagingCompleteIff`,
`RewritesOnceIff`, `MergeStaysDescendingIff`, `FramingIsExactIff`, `RoundTripIff`, `AcceptedIff`, `RerollHitsAgreeIff`.
Comments in `server/game/eventManager.go` call the share change and the edit a MULTI transaction; the code
uses a plain pipeline there. The model takes each as one step.

## Model

| member | source | states |
|---|---|---|
| UpdateFilter.ParseExclude | server/update/filter.go:78-101 | The parsing loop finds the last player listed, whether GMs are listed, and the text behind the frame; anything unframed comes back as it is. |
| UpdateFilter.FramingRoundTrip | server/update/filter.go:67-101 | Reading a frame that was written gives back the role flag, the last player listed and the inner text unchanged. |
| UpdateFilter.FramingIsExactIff | server/update/filter.go:93-100 | A frame excludes exactly the players it lists if and only if it lists at most one. |
| UpdateFilter.LastPlayerIsLast | server/update/filter.go:93-99 | Of the players a frame lists, it excludes the last. |
| UpdateFilter.UnendedFramePassesThrough | server/update/filter.go:83-87 | Text without a blank is no frame, whatever it starts with. |
| UpdateFilter.UnframedPassesThrough | server/update/filter.go:80-82 | Text that does not start with a dash is unfiltered and unchanged. |
| Channels.Subscribe | server/game/subscribe.go:23-28 | Joins the game and own player channel, and the GM channel for GMs. |
| Channels.ChannelSeparation | server/game/eventShare.go:33-46 | A seat hears a game, player or GM channel if and only if it is of that game, is that player, or is a GM of that game: no two of these names coincide. |
| Packets.SharePacketsPanicIff | server/game/eventShare.go:136-187 | A share change panics if and only if the share would not change. |
| Subscription.PublishedPacketsRelayed | server/game/eventShare.go:82-109 | Framing, channels and exclusion together: a connection relays exactly the updates addressed to its seat, in order. |
| Packets.CreateOrDeleteExactness | server/game/eventShare.go:113-131 | A post or delete reaches each player who can see the event exactly once and nobody else. |
| Packets.PrivateShareExactness | server/game/eventShare.go:145-162 | The same as ShareChangeExactness, for changes to and from private. |
| Packets.GMsToGameExactness | server/game/eventShare.go:163-173 | The same, from GMs to the game. |
| Packets.GameToGMsExactness | server/game/eventShare.go:174-185 | The same, from the game to GMs. |
| Packets.ShareChangeExactness | server/game/eventShare.go:133-187 | Each seat gets at most one update: delete iff it saw the event before and not after, create iff after and not before, modify iff both; other games get none. |
| Packets.EditReachesViewersIff | server/game/eventManager.go:128-162 | An edit reaches every player who can see the event, except exactly the owner of a GM-shared event who is no GM. |
| Packets.EditStaysInGame | server/game/eventManager.go:128-162 | An edit reaches no other game. |
| Subscription.ShouldSend | server/routes/gameSubscription.go:29-60 | Relays the unframed text unless the frame excludes the subscriber's id or role. |
| Subscription.Connection.HandleNext | server/routes/gameSubscription.go:189-203 | A turn of the delivery loop moves the front of the inbox to the end of the stream; what has been and will be written does not change. |
| EventStore.Store.PostEvent | server/game/eventManager.go:16-46 | Adds the event to one game's history and publishes its create packets. |
| EventStore.Store.DeleteEvent | server/game/eventManager.go:49-76 | Removes the event by id and publishes its delete packets. |
| EventStore.Store.UpdateEventShare | server/game/eventManager.go:79-125 | Fails, changing nothing, if and only if the share matches; else replaces the event and publishes the share packets, never panicking. |
| EventStore.Store.UpdateEvent | server/game/eventManager.go:128-172 | Replaces the event and publishes one packet in the channel of its share. |
| EventStore.InsertIndex | server/game/eventManager.go:28-30 | Adding an event with a new id keeps the history ordered and adds exactly that entry to its table. |
| EventStore.RemoveIndex | server/game/eventManager.go:58-61 | Removing by id keeps the order and removes exactly that entry. |
| EventStore.ReplaceIndex | server/game/eventManager.go:102-107 | Remove and add replace exactly that entry, with no duplicate id. |
| EventList.AppendEvents | web/src/event/index.ts:181-226 | The two-index merge loop computes the recursive merge, for any two lists. |
| EventList.MergeMembers | web/src/event/index.ts:181-226 | A merge holds the new events and the old ones whose ids are not among the new, newest first. |
| EventList.MergeRefinesOverride | web/src/event/index.ts:181-226 | As a table from id to event, the merge is the old list overridden by the new. |
| EventList.MergeStaysDescendingIff | web/src/event/index.ts:205-219 | For non-negative ids the merge stays strictly descending if and only if the lists do not both hold id 0, which is never compared for equality. |
| EventList.MergeIdempotent | web/src/event/index.ts:181-226 | Merging a page a second time changes nothing. |
| EventList.MergePagesCommute | web/src/event/index.ts:181-226 | Overlapping pages of one history merge to the same list in either order. |
| ClientReducer.ReduceKeepsOrder | web/src/event/index.ts:229-301 | An action that leaves ids alone keeps the list strictly newest first. |
| ClientReducer.RunsKeepOrder | web/src/event/index.ts:229-301 | So does every run of such actions. |
| ClientReducer.Client.Dispatch | web/src/event/index.ts:229-301 | The stored state becomes the reduced one; merging actions run the merge loop. |
| ClientReducer.Client.HandleUpdate | web/src/sseStream/index.ts:39-90 | One text of the stream becomes its actions in order: share first, then the rest of the diff if any; unparseable text changes nothing. |
| ReducerEffects.ActionsAreSeparate | web/src/event/index.ts:229-301 | Each action leaves the parts of the state it is not about alone. |
| ReducerEffects.ClearingForgets | web/src/event/index.ts:243-245 | After clearing the list is empty. |
| ReducerEffects.LoginAfterClearing | web/src/server/auth.ts:74-86 | Logging in after clearing shows what a fresh client would show, whatever was shown before. |
| ReducerEffects.Selections | web/src/event/index.ts:290-293 | Selecting an event to edit and clearing the selection. |
| ReducerEffects.FetchStates | web/src/event/index.ts:231-232 | The fetch state becomes that of the action. |
| ReducerEffects.SeizeEffect | web/src/event/index.ts:265-271 | Seizing sets seized and the edit time on exactly the initiative roll with the id. |
| ReducerEffects.RerollEffect | web/src/event/index.ts:272-288 | A reroll makes of exactly the roll with the id a second chance with the reroll and then the dice rolled first. |
| ReducerEffects.ModifyEffect | web/src/event/index.ts:250-257 | A modification changes exactly the event with the id: its fields by the diff, its edit time to the action's. |
| ReducerEffects.ModifyOverrides | web/src/event/index.ts:254 | An id or edit time in the diff itself wins. |
| ReducerEffects.IdInDiffBreaksOrder | web/src/event/index.ts:254 | So a diff with an id can break the order of the list. |
| ReducerEffects.ShareEffect | web/src/event/index.ts:258-264 | A share modification changes exactly the share of the event with the id. |
| ReducerEffects.DeleteEffect | web/src/event/index.ts:247-249 | A delete keeps exactly the events with other ids. |
| ReducerEffects.AddEffect | web/src/event/index.ts:233-240 | A new event is added, with the current id when it has none, in place of one with its id. |
| ReducerEffects.ShareNumbers | server/update/eventUpdate.go:92-96 | Share numbers survive being sent. |
| ReducerEffects.CreateEffect | web/src/sseStream/index.ts:63-73 | A create update puts its event in the list as it was sent. |
| ReducerEffects.DiffEffect | web/src/sseStream/index.ts:78-90 | A diff with more than a share sets the edit time of exactly its event; one with only a share sets none. |
| ReducerEffects.UnparseableTextIsIgnored | web/src/sseStream/index.ts:41-48 | A text that does not parse changes nothing. |
| Tables.NewRefines | web/src/event/index.ts:233-240 | A create update puts its event in the client's table. |
| Tables.DeleteRefines | web/src/event/index.ts:247-249 | A delete update removes its id from the client's table. |
| Tables.DiffRefines | web/src/sseStream/index.ts:78-90 | A diff, dispatched as up to two actions, patches the client's table at its id as one. |
| Tables.HandleRefinesApply | web/src/sseStream/index.ts:62-90 | Handling the text of any update keeps the list ordered and does to it, as a table, what the update means. |
| Operations.PostEffect | server/game/eventManager.go:16-46 | A post adds its event to the history and nothing else, and each seat of the game that sees it is addressed the create exactly once. |
| Operations.DeleteEffect | server/game/eventManager.go:49-76 | A delete removes its event and nothing else, and each seat of the game that saw it is addressed the delete once. |
| Operations.ReshareEffect | server/game/eventManager.go:79-125 | A share change stores the event with the new share, and addresses each seat a delete, a create, the share, or nothing. |
| Operations.EditEffect | server/game/eventManager.go:128-172 | An edit stores fields and edit time, and addresses the diff as sent to each seat that hears of it. |
| Operations.RefusedIff | server/routes/game.go:54-113 | A request is refused exactly when it names no event or a player join, would not change a share, or has a diff that is not accepted. |
| Operations.EditableIff | server/routes/game.go:142-150 | An event may be changed if and only if the history has it under that id and it is no player join. |
| Operations.StepTables | server/game/eventManager.go:16-172 | Each step leaves exactly its change in the table of its game, and every other game alone. |
| Operations.RefusedChangesNothing | server/routes/event.go:42-53 | Deliveries leave every history alone, and a refused request changes nothing at all. |
| Operations.StepNews | server/game/eventManager.go:16-172 | A step puts the news of a seat behind everything on its way to it, and touches nothing else of the subscriber. |
| Operations.PostIsOnItsWay | server/game/eventManager.go:27-37 | After a post the create is on its way to exactly the subscribers of the game that see the event. |
| Convergence.PostAnnounced | server/game/eventManager.go:16-46 | The packets of a post turn what each seat sees of the old history into what it sees of the new. |
| Convergence.DeleteAnnounced | server/game/eventManager.go:49-76 | The same for a delete. |
| Convergence.ReshareAnnounced | server/game/eventManager.go:79-125 | The same for a share change. |
| Convergence.EditAnnouncedIff | server/game/eventManager.go:128-172 | The same for an edit if and only if it does not mislead the seat: one that hears of it is misled if the glitchiness announced is not a whole number that fits, and the owner, without the GM role, of a GM-shared event if it changes a field. |
| Convergence.OtherGamesUntouched | server/game/eventShare.go:33-46 | A server step of one game addresses nothing to a seat of another. |
| Convergence.StepAnnouncedIff | server/game/eventManager.go:16-172 | Every server operation is faithfully announced to a seat of its game if and only if it is not an edit that misleads the seat. |
| Convergence.RelayKeepsPending | server/routes/gameSubscription.go:189-203 | Relaying changes nothing of what is on its way to the client. |
| Convergence.ReceiveKeepsSync | web/src/sseStream/index.ts:39-90 | A client in sync stays so when it handles the front of its stream. |
| Convergence.StepKeepsWellFormed | server/game/eventManager.go:16-172 | Every step keeps histories ordered, with unique positive ids and valid owners. |
| Convergence.StepKeepsSyncIff | server/game/eventShare.go:19-187 | One step of any kind, server or delivery, keeps a subscriber in sync if and only if it is not an edit that misleads it. |
| Convergence.SyncedThroughoutIff | server/game/eventShare.go:19-187 | Over every run, operations in any games interleaved with deliveries in any order, a subscriber stays in sync throughout if and only if no edit misleads it. |
| Convergence.Convergence | server/game/eventShare.go:19-187 | So after any run that never misleads it a subscriber is in sync. |
| Convergence.MisleadingIff | server/routes/game.go:69-113 | An edit misleads some seat if and only if its glitchiness is not a whole number that fits, or it changes a field of a GM-shared event. |
| Convergence.NobodyMisledIff | server/routes/game.go:69-113 | A run misleads nobody if and only if it has no such edit. |
| Convergence.GMsNeverMisled | server/game/eventManager.go:128-162 | A run of edits stored as they are announced misleads no GM. |
| EditRoutes.StoredAsAnnouncedIff | server/routes/game.go:89-99 | An accepted diff is stored as it is announced if and only if its glitchiness, if any, is a whole number that fits in 64 bits. |
| EditRoutes.TruncationDropsFraction | server/routes/game.go:98 | Storing a glitchiness drops what is behind the point, towards zero. |
| EditRoutes.Int64Range | server/routes/game.go:98 | Exactly the whole numbers of 64 bits are stored as they are sent. |
| EditRoutes.OthersStoredAsSent | server/routes/game.go:71-105 | Everything else is stored as it is sent. |
| EditRoutes.AcceptedNumbers | server/routes/initiative.go:132-136 | A base is accepted of initiative rolls from -2 to 50, a glitchiness of the other rolls, a share of none. |
| EditRoutes.AcceptedOthers | server/routes/initiative.go:122-149 | A title is accepted of everything that may be edited, a seizing of initiative rolls. |
| EditRoutes.AcceptedAll | server/routes/game.go:73-105 | A diff is accepted if and only if each of its keys is. |
| Convergence.DrainedAgrees | server/game/eventShare.go:19-31 | A drained client in sync shows the history filtered by what its player can see, event by event. |
| Convergence.DrainedRunAgrees | server/game/eventManager.go:16-172 | After any run that never misleads it, a drained client agrees exactly with the server. |
| Tracking.StepKeepsTrack | server/game/eventShare.go:19-187 | One step of any kind, misleading edits too, keeps a subscriber tracking: it will have only what its player may see, from its cursor on all of it, with equal events but for fields, and equal events wherever none misled it since the event was last announced anew. |
| Tracking.RunKeepsTrack | server/game/eventShare.go:19-187 | So does every run, with no condition on its edits. |
| Tracking.DrainedRunTracks | server/game/eventManager.go:16-172 | After any run at all, a drained client shows only what its player may see, from the cursor on all of it, but for the fields of events an edit misled it about. |
| Tracking.NeverMisledNothingStale | server/game/eventManager.go:128-172 | For a seat that is never misled there are no such events. |
| Tracking.LoggedInTracksRun | web/src/server/auth.ts:74-86 | A client that has logged in and paged any number of times, its first page not blind, tracks its game over every run from the oldest event it held on. |
| Draining.DrainDrains | server/routes/gameSubscription.go:182-203 | From every world, as many relays as the inbox holds and one receipt for each text leave a subscriber drained, and change nothing else. |
| Draining.EventuallyAgrees | server/game/eventManager.go:16-172 | After any run that never misled it, deliveries alone bring a client to show exactly what its player may see. |
| Draining.EventuallyTracks | server/game/eventManager.go:16-172 | After any run at all, deliveries alone bring it to show that, from its cursor on and but for the fields of stale events. |
| Replay.ReplayChangesNothing | web/src/event/index.ts:229-264 | Applying any series of updates to a table they were applied to changes nothing. |
| Following.PageShows | server/event/event.go:60-74 | A page, asked for from any id, shows only what is visible of the history, and all of that down to where it ends. |
| Following.BoundedResponse | server/routes/game.go:336-413 | A response holds exactly the visible events within both bounds that fewer than a page are newer than; its last id is that of the oldest of them, or 0. |
| Following.LoadMoreAtEffect | web/src/history/LoadingEventList.tsx:103-131 | Loading at a row merges what the page from the event above it shows, and does nothing unless the client is ready and there is such an event. |
| Following.LoadKeepsFollowing | web/src/history/LoadingEventList.tsx:103-131 | A load puts a page of the history as it is now under updates still on their way, and the client still tracks; its cursor moves down to where the page ends, if the load starts at or above it. |
| Following.RunKeepsFollowing | web/src/history/LoadingEventList.tsx:103-131 | So it does over every run, with loads by any clients among server steps and deliveries in any order. |
| Following.LoggedInFollows | web/src/server/auth.ts:74-86 | A player who has logged in follows the game from the oldest event shown. |
| Following.FollowedToTheEnd | web/src/history/LoadingEventList.tsx:103-131 | A client whose cursor has reached the end, with nothing stale, is in sync. |
| Following.LoadsNothingNewer | web/src/history/LoadingEventList.tsx:107-113 | Loading brings no event newer than the oldest the client has. |
| Following.AnnouncedOldEventHidesBetween | web/src/history/LoadingEventList.tsx:107-113 | When a share change announces an event older than all a client has loaded, whatever lies between is never loaded, however often it loads more. |
| Codes.FaithfulCodecExists | server/update/eventUpdate.go:34-37 | There is a codec that reads back every update it writes, so no run is excluded for want of one. |
| Convergence.PagedClientInSync | web/src/history/LoadingEventList.tsx:103-131 | A client that pages through a history without gaps ends up in sync, so that convergence holds from there on. |
| Divergence.RetitledGMsRollIsMissed | server/game/eventManager.go:131-157 | An edit not heard of: an owner who is no GM retitles a roll shared with GMs, and its own client falls out of sync. |
| Divergence.FractionalGlitchMisleads | server/routes/game.go:89-99 | An edit heard of wrongly: a glitchiness of 1.5 puts every client that sees the roll out of sync, a GM's too. |
| Paging.HandleEvents | server/routes/game.go:362-413 | The response is the visible part of one page, and asks for more only if the page was full and showed something. |
| Paging.LoadMoreItems | web/src/history/LoadingEventList.tsx:103-131 | Fetches from the event above the row unless fetching, finished or without one; sets the fetch state and merges the answer. |
| Paging.PageFrom | server/event/event.go:60-74 | A page from an event of the history is the stretch of the history that starts at it. |
| Paging.FirstLoadReaches | web/src/server/auth.ts:74-86 | Logging in loads everything visible of the first page. |
| Paging.LoadMoreReaches | web/src/history/LoadingEventList.tsx:103-131 | One more load extends what is loaded to everything visible down to the end of the page from the last loaded event. |
| Paging.LoadingFinishes | web/src/history/LoadingEventList.tsx:103-131 | Without gaps, loading more ends in "finished" with exactly the visible events; the index of the last loaded event grows each time. |
| Paging.GapIsNeverPassed | server/routes/game.go:392-413 | A full page that shows only the cursor is never got past, however often it is loaded. |
| Paging.BlindPaging | server/routes/game.go:392-398 | When the newest page shows nothing, loading ends at once, and is complete if and only if nothing is visible at all. |
| Paging.PagingCompleteIff | server/routes/game.go:369-413 | For every page size above 0, paging ends in "finished" with exactly the visible events if and only if there are none, or the newest page shows one and there is no gap. |
| Migration.BulkUpdate | server/event/event.go:77-116 | The loop of removals and additions, as a fold over the events. |
| Migration.BulkUpdateOverwrites | server/event/event.go:92-102 | Updating events with the ids of a stretch of the history overwrites exactly that stretch. |
| Migration.ReadPage | server/event/event.go:55-74 | Each page of the stream is the stretch of 200 from the index reached. |
| Migration.StreamReadEvents | server/task/eventTask.go:18-51 | With a callback that rewrites and stores each page: panics if and only if the history is empty, always ends, visits every event if and only if there are at least two, never changes an id, and rewrites every event once, those where pages meet (every 199th, but for the first and the last event) twice. |
| Migration.SeamsAre | server/task/eventTask.go:14 | Pages of 200 meet at every 199th event. |
| Migration.RewritesOnceIff | server/task/eventTask.go:18-51 | The result is that of rewriting every event once if and only if rewriting again changes none of the events where pages meet. |
| Migration.RewritesOnce | server/task/eventTask.go:14-51 | It is for every idempotent rewrite, and for every rewrite of a history of up to one page. |
| Expressions.FoldedIsFixed | web/src/math/parse.ts:24-43 | Folding signs into literals leaves an expression as it is if and only if no sign stands directly over a non-negative literal. |
| Expressions.FoldKeepsValue | web/src/math/index.ts:109-138 | Folding signs does not change what an expression evaluates to. |
| Expressions.SumLaws | web/src/math/index.ts:124-125 | Sums commute and associate, with unit 0. |
| Expressions.ProductCommutes | web/src/math/index.ts:128-129 | Products commute, with unit 1. |
| Expressions.ProductAssociates | web/src/math/index.ts:128-129 | Products associate. |
| Expressions.ProductDistributes | web/src/math/index.ts:124-129 | Products distribute over sums. |
| Expressions.DifferenceLaw | web/src/math/index.ts:113-127 | A difference plus its right operand is its left one, a negation plus what it negates is 0, and a plus sign changes nothing. |
| Expressions.QuotientLaw | web/src/math/index.ts:130-131 | A quotient times its divisor is the dividend; there is none exactly when an operand has no value or the divisor is 0. |
| Expressions.OthersAreTotal | web/src/math/index.ts:122-129 | Every other operation has a value exactly when its operands have. |
| Expressions.PowersOrdered | web/src/math/index.ts:62-79 | Parens bind tighter than * and /, these than + and -, and these than any other symbol. |
| Tokenizing.Tokenizer.SkipBlanks | web/src/math/tokenize.ts:21-27 | Takes the first character that is no blank; blanks at the end run one past the text. |
| Tokenizing.Tokenizer.TakeNumber | web/src/math/tokenize.ts:29-53 | Takes the whole run of digits, spaces and points, leaving separators out. |
| Tokenizing.Tokenizer.Next | web/src/math/tokenize.ts:17-71 | Produces the front of the lexemes left, null for a bad one, and leaves the others; the position only moves forward, never more than one past the end. |
| Characters.SymbolsStandAlone | web/src/math/tokenize.ts:62-67 | The seven symbols are lexemes by themselves. |
| Characters.OthersAreBad | web/src/math/tokenize.ts:68-69 | Characters that are no symbols, digits, points or spaces are bad, one by one. |
| Characters.BlanksAreSkipped | web/src/math/tokenize.ts:24-27 | Blanks and tabs in front of another character are skipped. |
| Characters.SpacesAreNumberChars | web/src/math/tokenize.ts:29-42 | Spaces, tabs and line ends count as characters of numbers. |
| Characters.SpacedDigits | web/src/math/tokenize.ts:53-57 | A space before or behind digits does not change the number. |
| Characters.PointAloneIsBad | web/src/math/tokenize.ts:54-60 | A point without a digit is a bad lexeme. |
| Decimals.PointIsLexed | web/src/math/tokenize.ts:29-57 | Digits, a point and digits are one lexeme, with a blank behind it: the number that all the digits spell when its point is moved behind them. |
| Decimals.DecimalIsLexed | web/src/math/tokenize.ts:29-57 | The same however the digits are separated. |
| Decimals.SeparatedIsLexed | web/src/math/tokenize.ts:45-47 | Digits, an underscore or comma, and digits are one lexeme: the number that the digits spell together. |
| Decimals.WholeIsLexed | web/src/math/tokenize.ts:29-57 | Any run of digits and separators that starts with a digit is the number of its digits. |
| Parsing.Parser.Peek | web/src/math/parse.ts:91-98 | Shows the next token without taking it; a bad one is dropped. |
| Parsing.Parser.Take | web/src/math/parse.ts:100-109 | Takes the next token, held or not. |
| Parsing.Parser.Operand | web/src/math/parse.ts:113-133 | Reads a number or a prefix expression. |
| Parsing.Parser.Prefix | web/src/math/parse.ts:9-44 | The prefix parsers: parens, and signs that fold into a literal or stand over an operand. |
| Parsing.Parser.Infix | web/src/math/parse.ts:59-80 | The right-hand side of an operator or of a paren that multiplies. |
| Parsing.Parser.Expression | web/src/math/parse.ts:111-152 | On every text it ends, never moves back or past one after the end, a result that is not null has consumed a token and holds the next unless that is bad, and it computes the recursive parse. |
| Parsing.Parser.Extend | web/src/math/parse.ts:134-151 | The infix loop: extends what was read while the next token binds tighter. |
| Grammar.DerivedIsParsed | web/src/math/parse.ts:59-152 | Completeness: a tree of the grammar, followed by something that stops it, is parsed to what it stands for. |
| Grammar.ExpressionDerived | web/src/math/parse.ts:111-152 | Soundness: what a parse consumes is the yield of a tree of the grammar that stands for the result, and what is left stops it. |
| Grammar.TurnDerived | web/src/math/parse.ts:134-150 | One turn of the loop makes a larger tree, grouped to the left, over more lexemes. |
| Grammar.ParserMeetsGrammar | web/src/math/parse.ts:59-162 | At every power, the parser returns an expression and a rest if and only if what it consumed derives the expression and the rest stops it. |
| Grammar.Unambiguous | web/src/math/parse.ts:59-162 | No stream of tokens derives two expressions. |
| Grammar.NumberBehindIsNull | web/src/math/parse.ts:140 | A number right behind an expression makes it null. |
| Chains.ChainsParse | web/src/math/parse.ts:59-76 | A chain of any length, of literals with literals in parens behind them, parses to the left fold over + and - of left folds over * and / of left folds of the parens. |
| Chains.ParensBindTightest | web/src/math/parse.ts:61-70 | A paren behind a literal binds tighter than any operator before it: 8/2(4) is 8/(2*4). |
| Chains.ChainsEvaluate | web/src/math/index.ts:109-138 | Parsed and evaluated, a chain comes to what a calculator with a total and a term register shows, and to nothing exactly when it divides by 0. |
| Chains.SymbolsMean | web/src/math/parse.ts:59-80 | What + - * / and a juxtaposed paren compute, symbol by symbol. |
| Chains.SignsMean | web/src/math/parse.ts:24-43 | What the two signs compute, before a literal and before a paren. |
| Printing.TextyLooks | web/src/math/index.ts:95-106 | Binary expressions are printed in parens with a blank on both sides of the operator, signs right before what they sign. |
| Printing.LexReads | web/src/math/tokenize.ts:17-71 | Symbols stand alone, a blank is skipped, a run of digits reads as the number it spells and takes a blank after it along. |
| Printing.TextyRead | web/src/math/index.ts:95-106 | Wherever an expression's text stands, it is read as the lexemes of its tree. |
| Printing.ParsingUndoesPrinting | web/src/math/parse.ts:9-152 | Parsing a printed expression gives it back with signs over literals folded in, and leaves nothing to read. |
| Printing.RoundTripIff | web/src/math/parse.ts:24-43 | It gives back exactly the expression if and only if no sign stands directly over a non-negative literal. |
| Decimals.DecimalReads | web/src/math/tokenize.ts:53-57 | A decimal literal reads as the number that, with its point moved behind its last digit, all its digits spell. |
| Printing.ParseText | web/src/component/NumericInput.tsx:125-126 | Parses a whole text with a fresh parser. |
| Acceptance.ReadInput | web/src/component/NumericInput.tsx:125-139 | For every text: it is accepted if and only if reading does not run past its end and it has an expression that leaves nothing but the token held. |
| Acceptance.PositionAtEnd | web/src/component/NumericInput.tsx:127-135 | A parser that got to the end of the text is one past it if and only if reading runs over, which takes blanks at the end that belong to no number. |
| Acceptance.AcceptedIff | web/src/component/NumericInput.tsx:124-139 | Without bad lexemes, a text is accepted if and only if it derives an expression, or all of it but one last symbol that starts no infix does. |
| Acceptance.StrayIsNotRead | web/src/component/NumericInput.tsx:134-139 | Such a symbol is accepted without being read: the whole text derives nothing. |
| Acceptance.StrayParenIsAccepted | web/src/component/NumericInput.tsx:134-139 | "1)" is accepted as 1. |
| Acceptance.GoodLexemesAreHeld | web/src/math/parse.ts:91-98 | Without bad lexemes a parse that succeeds always holds a token or the end. |
| Acceptance.NumberThenBad | web/src/math/parse.ts:91-98 | A bad lexeme is dropped, not held, so "1$" is accepted as 1 and "1$)" is refused. |
| Acceptance.BlankBehindSymbolOverruns | web/src/math/tokenize.ts:24-27 | A blank behind a last symbol runs over, so "(1) " is refused. |
| Printing.Reenter | web/src/math/index.ts:95-138 | What an expression evaluates to survives printing and parsing. |
| Rolling.Roller.Fill | server/roll/roller.go:29-41 | Fills the buffer with the next dice and counts its hits; too few dice are an error that leaves the rest of the buffer. |
| Rolling.Roller.Roll | server/roll/roller.go:22-26 | The next dice, as many as asked for, and their hits. |
| Rolling.Roller.RollRound | server/roll/roller.go:51-64 | One round: as many dice as the pool, with their hits and sixes. |
| Rolling.Roller.ExplodingSixes | server/roll/roller.go:49-70 | Consumes exactly the rounds of the explosion, counts their hits, and reports the completed rounds when the dice run out; ends on every stream. |
| Rolling.Roller.RerollMisses | server/roll/roller.go:75-86 | Rolls as many dice as missed and adds the hits kept. |
| Rolling.ExplodeIsLeast | server/roll/roller.go:49-70 | The dice rolled are the shortest prefix of the stream with as many dice as the pool and its sixes; they run out if and only if there is none. |
| Rolling.ExplodeChains | server/roll/roller.go:65-67 | Each round has as many dice as the one before has sixes, and a roll is complete if and only if it ends without a six. |
| RollStats.SecondChanceGlitchIff | web/src/roll/stats.tsx:25-36 | A reroll of exactly the misses is glitched if and only if the original was, or the hits kept and the dice rerolled are. |
| RollStats.SecondChanceHits | web/src/roll/stats.tsx:77-81 | Its hits are those of that pool. |
| RollStats.SecondChanceKeepsGlitch | web/src/roll/stats.tsx:30-35 | A second chance never takes back a glitch; it is critical if and only if glitched with no hits in either roll. |
| RollStats.EdgeGlitchIff | web/src/roll/stats.tsx:37-42 | A complete roll of Exploding Sixes is glitched if and only if its ones and the glitchiness are more than half of the pool and its sixes. |
| RollStats.DisplayedIff | web/src/roll/stats.tsx:79-98 | A plain roll is displayed if and only if it is glitched, has more than 12 dice or more than 4 hits; edged rolls always are. |
| RollStats.RoundsShown | web/src/roll/stats.tsx:85-92 | The rounds of a complete edge roll are one more than those with a six; every other roll has one. |
| RollStats.DiceShown | web/src/roll/stats.tsx:78 | The dice shown of a complete edge roll are a prefix of the stream, as many as the pool and its sixes. |
| Dice.DieCounts | server/roll/roller.go:36-38 | What each die counts as: a one, a six, a hit or a miss. |
| Dice.CountsAddUp | web/src/roll/stats.tsx:3-11 | Counts of rolls add up. |
| RollStats.RerollHitsAgreeIff | server/roll/roller.go:75-86 | The server's hits for a reroll are the client's if and only if no die of it is above six. |
| RollStats.EdgeHitsAgreeIff | server/roll/roller.go:58-60 | The same for Exploding Sixes. |
| Generating.PreimageCount | server/roll/generator.go:54-60 | How many bytes below any bound give a face, for any number of faces. |
| Generating.FairIff | server/roll/generator.go:28-29 | Keeping the bytes below a bound is fair if and only if the bound is a multiple of the number of faces. |
| Generating.RejectionIsUniform | server/roll/generator.go:28-29 | With the cut of the source every face comes from the same number of bytes, for all numbers of faces up to the largest byte. |
| Generating.FortyTwoEach | server/roll/generator.go:28-60 | For six faces: bytes 0 to 251 are kept, 42 for each face. |
| Generating.StepKeepsAccount | server/roll/generator.go:43-68 | Each step of generator or roller keeps: received, on the channel and still in the buffer are all the rolls of the bytes read, in order. |
| Generating.NothingLostOrDuplicated | server/roll/generator.go:34-69 | In every interleaving the rolls received and on the channel are a prefix of the rolls of the bytes read, all are faces, and the channel keeps to its capacity. |
| Generating.ClosedDrains | server/roll/roller.go:29-41 | After the close the roller receives exactly what is on the channel, in order, and only then finds it closed. |
| Generating.ClosedIff | server/roll/generator.go:34-41 | The channel is closed after a run if and only if it was canceled, at the start or when sending, or the source failed; an uncanceled start runs. |
| Generating.ClosedReadsNothing | server/roll/generator.go:34-53 | After the close nothing more is read. |
| Generating.ReadsItsSource | server/roll/generator.go:44-47 | What is read is what the source gave, in order. |
| Generating.NeverStuck | server/roll/generator.go:61-67 | Some step is always possible; a running generator that can only wait waits for a full channel, and can send after one receive. |
| RateLimit.Limiter.Handle | server/http/middleware.go:100-135 | Serves while the window's stored count is at most the limit, and counts the request either way. |
| RateLimit.Limiter.HandleAll | server/http/middleware.go:100-135 | Requests one after the other are served as the run function says. |
| RateLimit.CounterExpires | server/http/middleware.go:123-128 | A counted request is remembered for 15 seconds; other counters are left alone. |
| RateLimit.CurrentCountsWindow | server/http/middleware.go:104-128 | Within its window a counter has counted every request, and has not expired. |
| RateLimit.WindowServesFirst | server/http/middleware.go:116-133 | In each window exactly the first limit + 1 requests of an address are served. |
| RateLimit.SpanBound | server/http/middleware.go:100-135 | Any ten seconds, wherever in a second they start, serve an address at most 2 (limit + 1) requests. |
| RateLimit.SpanBoundIsMet | server/http/middleware.go:100-135 | For every limit some run reaches that number. |
| Shutdowns.Task.Handle | server/shutdown/shutdown.go:67-103 | The event loop's turn: track, release or terminate; late clients are canceled at once. |
| Shutdowns.Task.CancelClients | server/shutdown/shutdown.go:99-102 | Cancels every tracked client and nobody else. |
| Shutdowns.EventKeepsAccountIff | server/shutdown/shutdown.go:67-103 | An event keeps the count right if and only if it adds a client not tracked, releases a tracked one, or is the first shutdown. |
| Shutdowns.RunKeepsAccount | server/shutdown/shutdown.go:51-126 | Over every such run the count is that of the clients and the task, never negative, zero if and only if terminating with no clients, and every tracked client is canceled once terminating. |
| Shutdowns.CanceledExactly | server/shutdown/shutdown.go:69-103 | Over a run with one shutdown exactly the clients tracked then and those added after it are canceled, nobody before it, and the cause is its reason. |
| Shutdowns.TrackedIff | server/shutdown/shutdown.go:81-86 | A client is tracked if and only if it was added and not removed since. |
| Shutdowns.StopsWithLastRelease | server/shutdown/shutdown.go:85-87 | After the shutdown, releases in any order bring the count to zero with the last of them and not before. |

## Left out

- Redis, HTTP, server-sent events, telemetry and logging: a sorted set is a list by descending id, a channel delivers to every listener in order.
- Network errors (`onAnyError`), reconnects and the time between subscribing and the first fetch: subscribers start in sync.
- Atomicity: each history-and-publish operation, and each read and write of a route, is one step; `UpdateEventShare` and `UpdateEvent` are plain pipelines in the source.
- `HasGM` and `AddGM`: a seat's role is fixed and given.
- Local events of the client (`source: "local"`): `clearEvents` clears all, and every modelled event came from the server.
- The wire form of JSON, including the type and source keys of a diff. The edit routes change `title`, `glitchy`, `base` and `seized`; keys that the roll route ignores and the initiative route refuses are not part of an edit, nor is the check that the player owns the event.
- EditRoutes.StoredAsAnnouncedIff: a glitchiness out of 64-bit range is stored as the least integer, as on amd64; Go leaves the number open, and the condition does not depend on it. The sign of a zero is not modelled.
- Updates `^roll`, which no route publishes, and players' updates: the reroll is a reducer action only, proved to keep the list ordered.
- Codes.FaithfulCodecExists: JSON itself is not modelled. A whole number that is no double, such as 2^53 + 1 posted as a glitchiness, is announced in full and parsed as another; such updates are not carried, and pages that hold them are not modelled either.
- Following.RunKeepsFollowing: a load fetches and merges in one step.
- Edit times: views are compared without them, as a share change does not carry its own to the client.
- Paging.LoadMoreItems: an event without an id is asked for by its id 0, not by the current time; ids are positive wherever paging is proved complete.
- EventStore.Store.PostEvent: ids are taken to be new, as they are times in milliseconds.
- Paging.PagingCompleteIff: a page size of 0 is modelled as empty pages, where the Redis client may take it as no limit.
- Migration.StreamReadEvents: the callback's rewrite is a function of the event, where the migration's asks its operator and remembers the answers.
- Acceptance.ReadInput: the empty text, which an input treats apart, is read as refused; what an input does with the value is not modelled.
- Packets.ShareChangeExactness: the source sets the share on the event it is given; here the changed event is a second result.
- Printing.ParsingUndoesPrinting: literals are whole numbers printed in full, as JavaScript prints those up to 2^53; the printing of fractions and of numbers with an exponent is not modelled.
- Expressions.FoldKeepsValue: values are exact reals and dividing by zero has no value; floating point rounding, infinities and negative zero are not modelled.
- Grammar.ParserMeetsGrammar: streams without bad tokens, like those of the repository's token generator; Parser.Expression covers every text.
- Tokenizing.Tokenizer.Next: text is a sequence of characters, not of UTF-16 units; a decimal literal is read exactly, and exponents and infinities can not reach `parseFloat` there.
- Grammar for `^`: the tokenizer knows the symbol, no parser takes it.
- Rolling.Roller.ExplodingSixes: the channel is a finite stream that is closed after its last die; waiting is not modelled there but in Generating.
- Generating.NothingLostOrDuplicated: the source fills its buffer as a whole; a short read, whose length the code ignores, is not modelled.
- RateLimit.SpanBound: handlers are atomic, the clock does not go back, and the limit is not negative.
- Shutdowns.RunKeepsAccount: client ids do not wrap around, and signals come once. A release also cancels its own client; here only what the task cancels counts.
- `roll.FlatMap`, `buffer_roller.go` and `web/src/roll/index.ts` repeat what the roller does; `lispy` prints for debugging.
- Components, styling, sessions, configuration, TUIDs and static files.
