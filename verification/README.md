# Verified model of Open Lagrange's stateful algorithms

This project models the small algorithms and state machines of Open Lagrange on which the rest relies, and
proves what they promise for every input, every run or every history:

- the **event stream**: an incremental Server-Sent Events framer, the client that reconnects and drops
  duplicates, and the route that replays and pushes (`SseFrames`, `SseFields`, `SsePrinting`,
  `EventStream`, `EventDelivery`, `EventReports`, `EventServer`, `EventPipeline`);
- **canonical JSON, digests and the pack registry** (`CanonicalJson`, `Descriptors`, `CanonicalText`,
  `PackRegistry`, `PackHistories`, `PackListings`);
- the **rate limiter** with its capped map in insertion order, and **base64url** (`RateLimiter`,
  `RateWindows`, `WebTokens`);
- the **transcript window**, a greedy layout filled backwards, and the lines that its cards draw
  (`TranscriptWindow`, `TranscriptDrawing`);
- the **artifact and run indexes**: upserting, stable sorting, pruning, the latest run and the list of
  recent artifacts (`TimeIndex`, `ArtifactIndex`, `RunIndex`);
- the **editor command tokenizer**, the **redirect loop**, the **retry loop** and the **usage summary**
  (`EditorCommand`, `HttpFetch`, `HttpRequests`, `Retry`, `ModelUsage`).

Code that changes state is a method or a class with the source's fields, proved against a function of the
old state; the lemmas are about those functions. `SseFields`, `EventReports`, `CanonicalText`, `PackListings`,
`HttpRequests` and `TranscriptDrawing` say what they mean on characters, calls, fields and rows alone.
`Wrappers`, `Sequences`, `JsString`, `JsMap` and `StableSort` hold the parts of the language that the source
uses: strings, `Map`, `sort`; `Numbers` holds shared arithmetic.

Time, randomness, the network, DNS, callbacks, the hash and `localeCompare` are parameters, so a statement
holds whatever they answer. Text of the canonical JSON is a sequence of UTF-16 code units, elsewhere a
sequence of characters. Timestamps are integers: they stand for texts in the one format the writers use.

Some of what the documentation leads one to expect is not what the code does. Then the code is modelled as
it is, and a lemma says exactly when the expectation holds:

- An event can be lost on the way to the client: one published between the replay and the subscription, those
  of a replay over the limit, or one stored by another process before the next one is pushed.
  One connection of the route never skips ahead if and only if its pushes are in step
  (`EventServer.ServerNeverSkipsIff`); a client whose connections all are gets exactly the stored events, in
  order (`EventPipeline.RouteDeliversContiguousSlice`), and one that reads a whole connection undisturbed gets
  a slice only if it was (`EventPipeline.SliceIffPushesInStep`). docs/run-event-streaming.md leaves recovery to
  the persisted replay, but a replay starts after the cursor, and the push has moved that past the lost event.
- Of the three line ends that the standard allows, the framer reads line feeds and no others
  (`SsePrinting.ReadBackIffLineFeeds`).
- The sliding bound of the limiter is one less than twice the maximum, and the maximum for a window of one
  millisecond; for every window it is reached (`RateWindows.BoundIsReached`).
- A run registered under the id "latest" is not what `showRun("latest")` returns (`RunIndex.ShowLatestIff`).
- Pruning removes a payload that a kept artifact shares (`ArtifactIndex.KeptPayloadSurvivesIff`).
- A capability id may be defined twice in one registration; the last definition wins
  (`PackHistories.DefinitionResolvesIff`).
- The summary's total is input plus output. It agrees with the records' totals throughout a list if and only
  if every record adds up; deviations of several records can cancel (`ModelUsage.TotalsAgreeThroughoutIff`).
  When a record read from a provider adds up is `ModelUsage.NormalizedIsConsistentIff`.
- `stableStringify` confuses NaN and the infinities with null, and `[undefined]` with `[]`, and nothing else
  (`CanonicalJson.SameTextIffSameNorm`).
- The transcript pane reserves two rows, but draws three lines of its own when older and newer cards are both
  hidden; it then draws a line more than it has (`TranscriptDrawing.PaneOverflowsIff`).
- An empty quoted argument of the editor command disappears (`EditorCommand.QuotingRoundTripsIff`).

`dafny verify dfyconfig.toml` checks the whole project.

## Model

| member | source | states |
|---|---|---|
| JsString.SplitExtends | packages/platform-client/src/client.ts:273-275 | splitting what is buffered and keeping the last part for later gives the same parts and the same rest as splitting all the text at once |
| SseFrames.ParseSseFrame | packages/platform-client/src/client.ts:286-302 | the line loop gives the last event and id, all data joined by line feeds, and nothing for a block of comments and blank lines |
| SseFrames.ParseBlocks | packages/platform-client/src/client.ts:276-279 | the blocks of one read yield, in order, the frames of those that hold one |
| SseFrames.ReadSseFrames | packages/platform-client/src/client.ts:264-284 | however the text arrives in chunks, the frames are those of the whole text cut at blank lines without its unfinished tail |
| SseFrames.CutStreamYieldsPrefix | packages/platform-client/src/client.ts:269-280 | a stream that breaks off anywhere has yielded the first frames of the complete one |
| SseFields.NoFrameIff | packages/platform-client/src/client.ts:287-288 | a block yields no frame if and only if each of its lines is empty, starts with a colon or holds spaces only |
| SseFields.ReadIffSpelled | packages/platform-client/src/client.ts:293-299 | a line gives a field a value exactly when it is the name alone, or the name, a colon, at most one space and the value |
| SseFields.ValuesIffSpelled | packages/platform-client/src/client.ts:292-299 | the values read for a field are, in order, those of all the lines that spell it |
| SseFields.FrameIsSpelled | packages/platform-client/src/client.ts:289-301 | the frame of any other block: the last event name or "message", all data joined by line feeds, the last id unless that is empty |
| SseFields.NoEventFieldIsMessage | packages/platform-client/src/client.ts:289-297 | a block in which no line is `event` or starts with `event:` is a plain message |
| SsePrinting.BlockIsRead | packages/platform-client/src/client.ts:286-302 | a frame with any data, printed as in section 9.2.6 of the HTML Standard, is parsed back |
| SsePrinting.ReadBackIffPrintable | packages/platform-client/src/client.ts:286-302 | a frame survives printing and parsing if and only if its id is not empty and neither id nor event name holds a line feed |
| SsePrinting.PrintedStreamIsReadBack | packages/platform-client/src/client.ts:264-302 | a list of printable frames, printed and cut into chunks in any way, is read back exactly |
| SsePrinting.ServerFrameIsBlock | apps/web/app/api/runs/[runId]/events/stream/route.ts:106-114 | for data on one line the server's array of lines is the standard's print of the frame and its blank line |
| SsePrinting.NoPairNoFrame | packages/platform-client/src/client.ts:274-274 | a text in which no line feed follows another yields no frame |
| SsePrinting.ReadBackIffLineFeeds | packages/platform-client/src/client.ts:264-302 | printed frames, with the lines ended in any of the three ways of section 9.2.5 of the HTML Standard, are read back if and only if those are line feeds or there is no frame |
| EventStream.Consume | packages/platform-client/src/client.ts:136-149 | the loop over one body does to the client what its frames do one after the other, up to a throw, an abort or the end |
| EventStream.HandleFailure | packages/platform-client/src/client.ts:150-156 | the catch block counts the failure, tells both callbacks and waits, unless one of them throws |
| EventStream.StreamRunEvents | packages/platform-client/src/client.ts:116-158 | the outer loop is the run of the connection script: connect, consume, recover, until aborted or a callback escapes |
| EventDelivery.CursorNamesLastEvent | packages/platform-client/src/client.ts:121-155 | in every run each request and each report of a reconnect name the last event handed out before it, also after a handler threw; reports count the failures since a connection last opened, and each wait is their backoff |
| EventDelivery.NoEventTwice | packages/platform-client/src/client.ts:145-148 | against any server, no event is handed out twice |
| EventDelivery.BackoffGrows | packages/platform-client/src/client.ts:155-155 | the wait lies in [1000, 10000] ms and does not shrink with more failures |
| EventDelivery.WaitsNeverShrink | packages/platform-client/src/client.ts:135-155 | between two openings of a connection the waits of any run never shrink and stay in [1000, 10000] ms |
| EventDelivery.FramesExtendSlice | packages/platform-client/src/client.ts:136-149 | against a body that never skips ahead, what was handed out stays a contiguous slice of the log and grows by all of the body unless something throws or aborts |
| EventDelivery.SkippingBreaksSlice | packages/platform-client/src/client.ts:136-149 | against a body that skips ahead, an undisturbed client hands out something that is no slice |
| EventDelivery.SliceIffNoSkip | packages/platform-client/src/client.ts:136-149 | undisturbed, the client's events are a slice if and only if the body never skips ahead |
| EventDelivery.ConnectExtendsSlice | packages/platform-client/src/client.ts:121-156 | one whole connection, opened or refused, keeps the slice and the cursor |
| EventDelivery.RunExtendsSlice | packages/platform-client/src/client.ts:120-157 | so does any number of drops, malformed frames, replays and reconnects |
| EventDelivery.DeliversContiguousSlice | packages/platform-client/src/client.ts:116-158 | from the caller's start, the events of every run are exactly log[start..reached), without gap or repeat |
| EventDelivery.StretchNeverSkips | docs/run-event-streaming.md:41-45 | a server that streams a contiguous stretch starting no earlier than the client's start and no later than the entry after the cursor never skips ahead |
| EventReports.RefusalIsReported | packages/platform-client/src/client.ts:120-156 | after any run and for all answers of the callbacks, a refused connection adds exactly its request, the two reports and the wait, until a callback throws, and it says when the client goes on; a refusal by an abort adds the request alone |
| EventReports.RefusalAddsFourCalls | packages/platform-client/src/client.ts:120-156 | with callbacks that return: `Fetch`, `OnError`, `OnReconnect` with the number of failures in a row and the cursor, and a `Sleep` of 1000, 2000, 4000, 8000 or 10000 ms |
| EventReports.BodyIsHeard | packages/platform-client/src/client.ts:135-156 | a body adds its opening and, frame by frame, a report per error frame with data and an event per new envelope, until one is malformed or a callback throws or aborts; a failure is then reported and waited for as the first in a row, and nothing follows an abort |
| EventReports.EveryErrorIsReported | packages/platform-client/src/client.ts:138-142 | with callbacks that return, the calls of a body hold exactly one report per error frame with data |
| EventReports.NothingAfterStop | packages/platform-client/src/client.ts:120-151 | once the signal is aborted or a callback has thrown out of the catch block, no further connection is opened and nothing is called |
| EventReports.ServerDown | packages/platform-client/src/client.ts:120-156 | a server that stays down: the whole trace of any number of refusals in a row |
| EventReports.RequestsAreSpaced | packages/platform-client/src/client.ts:120-157 | no tight loop: in every run, between two requests a connection opened or the client waited |
| EventServer.AcceptedIsGood | apps/web/app/api/runs/[runId]/events/stream/route.ts:20-24 | a request is accepted in good order whether the log holds its cursor, which is then where the replay starts, or not, and it starts at the beginning |
| EventServer.ServerNeverSkipsIff | apps/web/app/api/runs/[runId]/events/stream/route.ts:55-84 | one connection of the route, in which other processes may store events too, never skips ahead if and only if nothing unsent is stored before an event when it is pushed |
| EventServer.SkippedStays | apps/web/app/api/runs/[runId]/events/stream/route.ts:55-84 | once it has skipped ahead, no later replay or push repairs the stream |
| EventServer.PublishBeforeSubscribeSkips | apps/web/app/api/runs/[runId]/events/stream/route.ts:72-79 | after the replay of any log within the limit, an event published before the subscription is lost when the next one is pushed |
| EventServer.StoreElsewhereSkips | apps/web/app/api/runs/[runId]/events/stream/route.ts:72-84 | so is an event that another process stores, when the next one is pushed before a poll |
| EventServer.LateCursorMovesTheStart | apps/web/app/api/runs/[runId]/events/stream/route.ts:75-79 | a cursor that is stored only after the request counts as seen, so the stream starts after it |
| EventServer.OverflowSkips | apps/web/app/api/runs/[runId]/events/stream/route.ts:60-79 | after a replay over the limit the next published event is pushed although nothing before it was sent |
| EventServer.ReplaySendsTheRest | apps/web/app/api/runs/[runId]/events/stream/route.ts:60-71 | a replay sends exactly what the store holds after the cursor, all of it for a cursor that it does not hold, and nothing of more than 500 events |
| EventServer.PublishPushes | apps/web/app/api/runs/[runId]/events/stream/route.ts:75-79 | a published event is stored once, and a subscribed connection sends it unless it is the one sent last |
| EventPipeline.ClientReadsPrefix | apps/web/app/api/runs/[runId]/events/stream/route.ts:52-59 | through printing, any chunking and any break-off, the client reads the first of the events the server wrote |
| EventPipeline.ClientReadsFrames | apps/web/app/api/runs/[runId]/events/stream/route.ts:52-87 | and its frames: one per event and per error, a message without data for the retry hint, none for a heartbeat |
| EventPipeline.RouteInStepNeverSkips | apps/web/app/api/runs/[runId]/events/stream/route.ts:14-104 | a connection whose pushes are in step keeps the server's side of the contract, whatever the cuts, whether the log holds the cursor or not |
| EventPipeline.SliceIffPushesInStep | apps/web/app/api/runs/[runId]/events/stream/route.ts:14-104 | for a connection that arrives whole and undisturbed, the client's events stay a slice of the log if and only if the pushes were in step |
| EventPipeline.RouteDeliversContiguousSlice | packages/platform-client/src/client.ts:116-158 | end to end: a client of the route, over every run of refusals, connections over a growing store, cuts and throwing callbacks, with pushes in step, is handed exactly the stored events from where it started |
| CanonicalJson.QuotedIsRead | packages/capability-sdk/src/descriptor.ts:53-56 | a quoted string of any code units, lone surrogates included, is read back, whatever text follows |
| CanonicalJson.SameValueSameText | packages/capability-sdk/src/descriptor.ts:52-57 | values equal up to the order of object keys at any depth have one text |
| CanonicalJson.TextsAreUnique | packages/capability-sdk/src/descriptor.ts:52-57 | unique decoding: two values, undefined fields and items included, whose texts agree up to where a value can end are equal up to key order, and so is what follows |
| CanonicalJson.SameTextIffSameValue | packages/capability-sdk/src/descriptor.ts:52-57 | over JSON values, equal texts if and only if equal values up to key order |
| CanonicalJson.NormKeepsText | packages/capability-sdk/src/descriptor.ts:53-54 | NaN and the infinities print as null, and `[undefined]` prints as `[]`, at any depth |
| CanonicalJson.SameTextIffSameNorm | packages/capability-sdk/src/descriptor.ts:52-57 | over all values, equal texts if and only if equal values up to key order after just those replacements |
| CanonicalText.ObjectIsWritten | packages/capability-sdk/src/descriptor.ts:55-56 | the text of an object, whatever the order of insertion: its members `key:value` by increasing key, smaller at the first code unit that differs or a proper prefix, with commas inside braces |
| CanonicalText.SortedFieldsExist | packages/capability-sdk/src/descriptor.ts:56-56 | every object has such an arrangement of its fields |
| CanonicalText.ArrayIsWritten | packages/capability-sdk/src/descriptor.ts:54-54 | the text of an array: its items in order with commas inside brackets, and nothing for an undefined one |
| CanonicalText.LiteralsAreWritten | packages/capability-sdk/src/descriptor.ts:53-53 | null, true, false and the numerals as they are spelled, NaN and the infinities as null |
| CanonicalText.StringIsWritten | packages/capability-sdk/src/descriptor.ts:53-53 | the text of a string unit by unit: surrogate pairs copied, the short escapes, `\u` escapes in small letters for other controls and lone surrogates |
| CanonicalText.TwoMembers | packages/capability-sdk/src/descriptor.ts:56-56 | the object with b and then a inserted is written with a first |
| Descriptors.FieldsEquiv | packages/capability-sdk/src/descriptor.ts:5-21 | two hashed records are equal up to key order exactly when their fifteen values are |
| Descriptors.DescriptorIsJson | packages/capability-sdk/src/descriptor.ts:4-22 | the hashed record of a descriptor with JSON schemas and examples is a JSON value |
| Descriptors.SameDigestIffAgree | packages/capability-sdk/src/descriptor.ts:4-50 | with a collision-free hash, digests are equal if and only if all fifteen hashed fields agree |
| CanonicalText.DigestedText | packages/capability-sdk/src/descriptor.ts:4-22 | the digest is the hash of the fifteen members in the order of their keys, inside braces |
| PackRegistry.Registry.Check | packages/capability-sdk/src/registry.ts:35-44 | the checks give the first failure in the order of the definitions, or all entries, and store nothing |
| PackRegistry.Registry.RegisterPack | packages/capability-sdk/src/registry.ts:30-50 | all or nothing: a failure leaves both maps as they were, a success puts the pack and all its entries |
| PackHistories.RegisterIff | packages/capability-sdk/src/registry.ts:30-50 | registration succeeds if and only if the pack is sound and its id and capability ids are new; then both maps grow at the end |
| PackHistories.HistoryKeepsInv | packages/capability-sdk/src/registry.ts:26-50 | after any history both maps have distinct keys, every capability is under its own id with its own digest, and its pack is registered under the descriptor's pack id |
| PackHistories.LastDefinitionWins | packages/capability-sdk/src/registry.ts:35-48 | an id that a pack defines several times resolves to the last definition |
| PackHistories.DefinitionResolvesIff | packages/capability-sdk/src/registry.ts:40-48 | a definition of a registered pack resolves to itself if and only if no later one of the pack redefines its id |
| PackHistories.ResolutionStays | packages/capability-sdk/src/registry.ts:67-81 | no later attempt, failed or not, changes what a reference resolves to |
| PackHistories.VerifiedDigestPins | packages/capability-sdk/src/registry.ts:83-87 | after any history a digest verifies if and only if the resolved descriptor agrees with the digested one on all fifteen fields |
| PackHistories.AllSucceedIff | packages/capability-sdk/src/registry.ts:30-50 | a list of packs all register if and only if each is sound and no two share a pack id or a capability id, in whatever order |
| PackHistories.OrderIsInvisible | packages/capability-sdk/src/registry.ts:60-81 | the same packs registered in another order give the same listing for every filter, and the same snapshot and hash |
| PackListings.RegisteredIff | packages/capability-sdk/src/registry.ts:30-50 | after any history, registered are exactly the definitions of the packs whose attempt succeeded, the last one per id, with their digests |
| PackListings.ListedIff | packages/capability-sdk/src/registry.ts:60-121 | a descriptor is listed after any history if and only if it is registered and passes the five tests, on the fields of descriptor, pack and filter |
| PackListings.ListingIsById | packages/capability-sdk/src/registry.ts:64-64 | a listing runs by capability id in the given order and lists no id twice |
| PackListings.ListingIsSafe | packages/capability-sdk/src/registry.ts:111-119 | a limit of read lists reads only, no limit below destructive lists a destructive capability, and no denied scope is ever listed |
| PackListings.IdResolvesIff | packages/capability-sdk/src/registry.ts:68-68 | a reference with an id resolves to a descriptor if and only if that is registered under the id, whatever else the reference says |
| PackListings.NameResolvesToFirst | packages/capability-sdk/src/registry.ts:69-71 | a reference without one resolves to the first registered capability with its pack and its name |
| PackListings.NameResolvesToNothing | packages/capability-sdk/src/registry.ts:69-71 | or to nothing, when there is none |
| PackListings.RefusalIs | packages/capability-sdk/src/registry.ts:31-43 | why a pack is refused: the manifest, then the pack id, then the first definition that fails the schema, names another pack or has an id that is taken |
| PackListings.SnapshotHashPinsList | packages/capability-sdk/src/registry.ts:74-82 | with a collision-free hash, two snapshots share their hash if and only if their lists agree descriptor by descriptor |
| PackListings.SnapshotIdIs | packages/capability-sdk/src/registry.ts:78-78 | the snapshot id is the prefix and 24 units of the hash of the list hash and the time |
| RateLimiter.Limiter.PruneBuckets | apps/web/middleware.ts:59-68 | the two deletion loops leave the live buckets, without the first ones while there are more than the cap |
| RateLimiter.Limiter.RateLimit | apps/web/middleware.ts:36-50 | one request changes the map and is refused as the function of the old map says |
| RateLimiter.ApiLimiter.EnforceRateLimit | apps/web/app/api/http.ts:41-57 | the same, once per request object |
| RateLimiter.RateLimitKey | apps/web/middleware.ts:52-57 | the key is never empty, so the deletion of the oldest buckets never stops early |
| RateLimiter.FirstAddressIsTheKey | apps/web/middleware.ts:53-53 | the first forwarded address names the client, and addresses that proxies append do not change the key |
| RateLimiter.KeyFallsBack | apps/web/middleware.ts:52-57 | when the forwarded header names nobody the second header gives the key, then the third, and without a name all clients share one |
| RateWindows.HitKeepsInv | apps/web/middleware.ts:41-48 | one request keeps the map live, within the cap, under distinct keys and ordered by reset time |
| RateWindows.HistoryKeepsInv | apps/web/middleware.ts:36-68 | so does every history with a clock that does not go back |
| RateWindows.KeyActsAlone | apps/web/middleware.ts:36-50 | refinement: the shared capped map acts on a key that is not evicted as a counter that sees only that key's requests |
| RateWindows.WindowAdmitsTheFirst | apps/web/middleware.ts:43-49 | the window that a request opens admits exactly its first `max` requests |
| RateWindows.CountIsRequestsSince | apps/web/middleware.ts:44-48 | every count is the number of requests of its key since the one that created the bucket |
| RateWindows.SlidingWindowBound | apps/web/middleware.ts:43-49 | any interval of the window's length admits at most 2 * max - 1 requests of a counter |
| RateWindows.IntervalBound | apps/web/middleware.ts:43-49 | and at most `max` when the window is one millisecond |
| RateWindows.BoundIsReached | apps/web/middleware.ts:43-49 | for every maximum and every window some sequence of requests is admitted exactly that often |
| RateWindows.PassedIsAdmitted | apps/web/middleware.ts:36-50 | what the shared limiter lets pass of a key is what that key's own counter admits |
| RateWindows.LimiterBound | apps/web/middleware.ts:36-50 | so the shared limiter, too, lets no more than that pass of a key that is not evicted in any interval of the window's length |
| RateWindows.FewKeysAreNeverEvicted | apps/web/middleware.ts:63-67 | nothing is evicted as long as no stretch of the window's length brings more keys than the map may hold |
| RateWindows.FewKeysAreBounded | apps/web/middleware.ts:36-68 | so under that condition, which a caller can see, every key is bounded |
| RateWindows.EvictionTakesClosestToReset | apps/web/middleware.ts:63-67 | an eviction happens only in a full map and takes the live bucket closest to reset, never the new one |
| RateWindows.ApiCountsRequestsOnce | apps/web/app/api/http.ts:42-55 | the API limiter after any calls is the limiter after the first call of each request object |
| WebTokens.Base64UrlEncode | apps/web/middleware.ts:137-141 | the accumulator loop and the replacements give the unpadded text of section 5 of RFC 4648 |
| WebTokens.DecodedIsBytes | apps/web/middleware.ts:143-146 | padding comes back as removed, and the text of any sextets decodes to their bytes unless one sextet is left over |
| WebTokens.DecodeUndoesEncode | apps/web/middleware.ts:137-146 | for every byte sequence, decoding the encoding returns it |
| WebTokens.UrlTextDecodes | apps/web/middleware.ts:143-146 | a text over the url alphabet decodes if and only if it leaves no lone sextet, and encoding gives it back if and only if its spare bits are zero |
| WebTokens.EncodeUndoesDecodeIff | apps/web/middleware.ts:137-146 | of all texts, one decodes to bytes whose encoding it is if and only if it is base64url text without padding, without a lone sextet and with spare bits of zero |
| WebTokens.GroupsAreNumbers | apps/web/middleware.ts:137-141 | each group of three bytes is written as its 24-bit number in four digits of the url alphabet |
| WebTokens.LastGroupIsANumber | apps/web/middleware.ts:137-141 | and one or two bytes at the end as two or three digits, filled up with zero bits |
| WebTokens.DecodedIsReadable | apps/web/middleware.ts:143-146 | a text with a character outside the two alphabets, the padding and the spaces is not decoded |
| WebTokens.SessionValueSplits | apps/web/middleware.ts:108-114 | an encoded payload and signature joined by a dot split into exactly the two |
| WebTokens.TokenMatches | apps/web/middleware.ts:70-78 | the loop over all positions decides equality, also for tokens of different lengths |
| TranscriptWindow.FitBody | apps/tui/src/components/ConversationPane.tsx:51-61 | the inner loop finds the largest body that fits, or one line |
| TranscriptWindow.TranscriptWindow | apps/tui/src/components/ConversationPane.tsx:44-75 | the nested loops with their three exits compute the greedy layout |
| TranscriptWindow.FillIsGood | apps/tui/src/components/ConversationPane.tsx:49-67 | the layout fits the rows unless a single card is shown, each card has the largest body that fits, and the next older turn would not fit with one line |
| TranscriptWindow.GoodLayoutIsUnique | apps/tui/src/components/ConversationPane.tsx:49-67 | no other layout keeps these promises |
| TranscriptWindow.WindowIsTheGoodLayout | apps/tui/src/components/ConversationPane.tsx:44-75 | a list of cards is the window's if and only if it keeps the promises |
| TranscriptWindow.WindowIsASlice | apps/tui/src/components/ConversationPane.tsx:44-75 | the cards are turns[start..end) in order, hidden older, shown and hidden newer add up to all turns, and nothing is shown only when everything is scrolled off |
| TranscriptWindow.SlackMeansLargest | apps/tui/src/components/ConversationPane.tsx:55-61 | a card that leaves a row free has its largest body: one more line costs at most one row |
| TranscriptWindow.FillGrows | apps/tui/src/components/ConversationPane.tsx:49-67 | with more rows, every card is kept and none gets a shorter body |
| TranscriptWindow.TallerPaneKeepsCards | apps/tui/src/components/ConversationPane.tsx:44-75 | for the same turns and scroll offset a taller pane drops no card that a shorter one showed |
| TranscriptDrawing.LinesAreSplit | apps/tui/src/components/ConversationPane.tsx:77-80 | the lines that a card splits are those of the text, or of its first 2400 characters and a note |
| TranscriptDrawing.EstimateIsDrawnIff | apps/tui/src/components/ConversationPane.tsx:77-93 | the estimated rows are the rows that the card draws if and only if it is given no more body lines than it has |
| TranscriptDrawing.WindowFitsDrawn | apps/tui/src/components/ConversationPane.tsx:44-93 | the window in drawn rows: useful bodies of at most 8 lines, 28 for help, within the height less two unless one card with one line is more, none of which could show another line, and no room for the next older turn |
| TranscriptDrawing.PaneOverflowsIff | apps/tui/src/components/ConversationPane.tsx:16-28 | the pane draws a line more than it has if and only if the cards fill all rows but two and both hints are drawn |
| TranscriptDrawing.PaneCanOverflow | apps/tui/src/components/ConversationPane.tsx:16-28 | which happens with three turns of one line |
| TimeIndex.UpsertIsOrdered | packages/core/src/artifacts/artifact-viewer.ts:16-22 | whatever the index file held, the new index has distinct ids in order of time |
| TimeIndex.UpsertIsIdempotent | packages/core/src/artifacts/artifact-viewer.ts:16-22 | the same items again leave the very same index, order of ties included |
| TimeIndex.DisjointUpsertsAgree | packages/core/src/artifacts/artifact-viewer.ts:16-22 | batches without a common id leave the same items in either order of the calls |
| ArtifactIndex.DurationIsRead | packages/core/src/artifacts/artifact-viewer.ts:283-292 | spaces, digits, a unit and spaces are read as that many milliseconds, an amount of zero is refused |
| ArtifactIndex.DurationForm | packages/core/src/artifacts/artifact-viewer.ts:284-285 | a text that is not refused as no duration has that form |
| ArtifactIndex.WrittenDurationIsRead | packages/core/src/artifacts/artifact-viewer.ts:283-292 | a number as it is written, and a unit, are read back |
| ArtifactIndex.ArtifactStore.RegisterArtifacts | packages/core/src/artifacts/artifact-viewer.ts:8-26 | the loop of `set` and the sort replace the index by the upsert of the stamped batch, and the payload files stay |
| ArtifactIndex.OnlyTheDemoGoes | packages/core/src/artifacts/artifact-viewer.ts:41-57 | after removing a demo's artifacts, one is listed if and only if it was and is of no such demo, and the others keep their order |
| ArtifactIndex.ArtifactStore.Prune | packages/core/src/artifacts/artifact-viewer.ts:111-123 | the loop keeps the recent artifacts and removes the managed files of the others, each once |
| ArtifactIndex.ArtifactStore.PruneArtifacts | packages/core/src/artifacts/artifact-viewer.ts:96-137 | it fails exactly on a bad duration or a cutoff out of the date range, changing nothing; otherwise index, files and report are as stated |
| ArtifactIndex.RegisterIsOrdered | packages/core/src/artifacts/artifact-viewer.ts:17-22 | ids are distinct and creation times in order after every registration |
| ArtifactIndex.LastGivenWins | packages/core/src/artifacts/artifact-viewer.ts:17-18 | the last artifact given for an id is stored with the new stamp, every unmentioned artifact is unchanged |
| ArtifactIndex.RegisterIsIdempotent | packages/core/src/artifacts/artifact-viewer.ts:8-26 | repeating a call with the same time gives an identical index |
| ArtifactIndex.DisjointBatchesCommute | packages/core/src/artifacts/artifact-viewer.ts:8-26 | batches without a common id commute when no two creation times are equal |
| ArtifactIndex.NewTiesAreListedLast | packages/core/src/artifacts/artifact-viewer.ts:17-22 | new artifacts of one creation time come after those there are, in the order given |
| ArtifactIndex.TiedBatchesDoNotCommute | packages/core/src/artifacts/artifact-viewer.ts:20-20 | two artifacts with one creation time show the order of the calls |
| ArtifactIndex.RefreshKeepsPlaces | packages/core/src/artifacts/artifact-viewer.ts:17-22 | registering known artifacts with their creation times leaves each at its place, ties included |
| ArtifactIndex.HistoryIsExpected | packages/core/src/artifacts/artifact-viewer.ts:8-137 | after any history the index is in order and holds of each id exactly its last registration, unless a later step dropped it |
| ArtifactIndex.SweepRemovesDroppedPayloads | packages/core/src/artifacts/artifact-viewer.ts:113-123 | a file survives pruning if and only if it was there and is no dropped artifact's managed payload |
| ArtifactIndex.SweepReportsWhatIsGone | packages/core/src/artifacts/artifact-viewer.ts:118-122 | the report lists exactly the files that are gone, each once |
| ArtifactIndex.NamesIff | packages/core/src/artifacts/artifact-viewer.ts:212-216 | the path that an artifact names: what follows `file://`, nothing for another scheme of small letters, else the text from the caller's directory |
| ArtifactIndex.PayloadGoesIff | packages/core/src/artifacts/artifact-viewer.ts:113-123 | a file goes if and only if it was there, is the directory .open-lagrange or lies under it, and some artifact older than the cutoff names it by a path that is not empty |
| ArtifactIndex.PruningStaysInside | packages/core/src/artifacts/artifact-viewer.ts:118-121 | nothing outside that directory is removed or reported |
| ArtifactIndex.PruneKeepsATail | packages/core/src/artifacts/artifact-viewer.ts:113-117 | in an ordered index pruning keeps exactly a tail |
| ArtifactIndex.KeptPayloadSurvivesIff | packages/core/src/artifacts/artifact-viewer.ts:113-123 | a kept artifact's payload survives if and only if no dropped artifact names the same managed file |
| ArtifactIndex.SharedPayloadIsLost | packages/core/src/artifacts/artifact-viewer.ts:113-123 | an old and a recent artifact of one managed file: the recent one is kept without its payload |
| RunIndex.RunStore.RegisterRun | packages/core/src/artifacts/run-index.ts:10-34 | index, latest id and latest file after registering; an unreadable index throws and changes nothing |
| RunIndex.RunStore.RemoveRunsByDemo | packages/core/src/artifacts/run-index.ts:40-63 | index, latest id and latest file after removing a demo's runs |
| RunIndex.HistoryKeepsInv | packages/core/src/artifacts/run-index.ts:10-63 | after any history run ids are distinct and in starting order, there is a latest id exactly when there is a run, and it and the latest file name one indexed run |
| RunIndex.LatestAfterStep | packages/core/src/artifacts/run-index.ts:26-60 | the latest run is the one just registered, or after a removal a run that no other started after |
| RunIndex.HistoryLookup | packages/core/src/artifacts/run-index.ts:10-63 | the index holds of each id exactly its last registration until its demo is removed |
| RunIndex.ShowRunIsExpected | packages/core/src/artifacts/run-index.ts:65-70 | `showRun` of any id but "latest" returns that registration |
| RunIndex.ShowLatestIff | packages/core/src/artifacts/run-index.ts:67-69 | a run with the id "latest" is shown if and only if the latest id is "latest" |
| RunIndex.RunCalledLatestIsHidden | packages/core/src/artifacts/run-index.ts:65-70 | registering any other run hides it |
| RunIndex.LatestIsShown | packages/core/src/artifacts/run-index.ts:65-70 | after any history `showRun("latest")` returns the run that the latest-run file names, unless its id is empty |
| RunIndex.RunArtifactsAre | packages/core/src/artifacts/run-index.ts:72-87 | the artifacts of a run by role after any history: those of its last registration, supporting ones also for the intermediate role, none for superseded |
| RunIndex.AddRefs | packages/core/src/artifacts/run-index.ts:105-109 | the inner loop collects one run's artifacts up to the limit and tells whether it was reached |
| RunIndex.RecentArtifacts | packages/core/src/artifacts/run-index.ts:89-116 | the early-return loops give the first `limit` resolvable references, newest run first, else the newest artifacts; for a limit below 1 at most the first reference counts |
| RunIndex.ResolvedConcat | packages/core/src/artifacts/run-index.ts:99-111 | resolving all references is resolving run by run |
| RunIndex.NamedIs | packages/core/src/artifacts/run-index.ts:85-86 | a reference names the last artifact with its id, or none |
| RunIndex.RecentIsMentioned | packages/core/src/artifacts/run-index.ts:95-111 | the recent artifacts are the first ones that the runs name: the last run first, of each its primary, supporting and, only if asked for, debug references |
| RunIndex.LowLimitsReturnTheFirst | packages/core/src/artifacts/run-index.ts:99-110 | a limit below 1 is noticed after the first reference |
| RunIndex.RecentUsesRunLists | packages/core/src/artifacts/run-index.ts:72-87 | with debug references, one run's part is what `listRunArtifacts` returns for that run |
| RunIndex.RecentRespectsLimit | packages/core/src/artifacts/run-index.ts:89-116 | never more than the limit, and nothing only when neither a reference resolves nor an artifact may be shown |
| RunIndex.FallbackIsNewest | packages/core/src/artifacts/run-index.ts:112-115 | the fallback leaves out no artifact newer than one it returns, and shows debug logs only on request |
| RunIndex.FallbackIsOrdered | packages/core/src/artifacts/run-index.ts:111-115 | and when the runs name nothing, the fallback is returned, newest first |
| EditorCommand.ParseEditorCommand | apps/cli/src/editor-command.ts:1-41 | the character loop is the state machine that the lemmas are about |
| EditorCommand.CommandIsRead | apps/cli/src/editor-command.ts:8-40 | every text of the token grammar is parsed to the words it spells, or fails when it ends inside a quote |
| EditorCommand.EveryInputDerives | apps/cli/src/editor-command.ts:8-35 | every text has tokens and an ending in that grammar |
| EditorCommand.ParseIsSpelled | apps/cli/src/editor-command.ts:1-41 | so parsing is exactly what the grammar spells, for every value |
| EditorCommand.ThrowsIff | apps/cli/src/editor-command.ts:37-38 | it throws if and only if the input ends inside an open quote |
| EditorCommand.ArgsAreNonEmpty | apps/cli/src/editor-command.ts:29-40 | otherwise it returns at least one argument and no empty one |
| EditorCommand.NoEditorIsVi | apps/cli/src/editor-command.ts:2-2 | no value, or one of spaces only, gives the fallback editor |
| EditorCommand.SpacesAroundAreDropped | apps/cli/src/editor-command.ts:2-2 | spaces around a command do not matter |
| EditorCommand.ParseUndoesQuoting | apps/cli/src/editor-command.ts:1-41 | any arguments in double quotes with backslash and quote escaped, joined by spaces, come back without the empty ones |
| EditorCommand.QuotingRoundTripsIff | apps/cli/src/editor-command.ts:1-41 | they come back unchanged if and only if there is one and none is empty |
| HttpFetch.HeaderRecord.StripSensitiveHeaders | packages/capability-sdk/src/primitives/http.ts:260-267 | deleting in place removes exactly the four names in any letter case and keeps the order of the rest |
| HttpFetch.HeaderRecord.DropCookies | packages/capability-sdk/src/primitives/http.ts:62-66 | deleting in place removes exactly the cookie headers |
| HttpFetch.FetchWithRedirects | packages/capability-sdk/src/primitives/http.ts:170-222 | the loop with its exits sends the requests and ends as the recursive run says |
| HttpFetch.HttpFetch | packages/capability-sdk/src/primitives/http.ts:48-76 | checks, headers and redirect loop in the source's order |
| HttpFetch.EveryRequestIsSafe | packages/capability-sdk/src/primitives/http.ts:183-211 | for every sequence of answers each request goes to an http(s) URL that the policy allows and DNS does not deny, with the given method and body |
| HttpFetch.RequestsAreBounded | packages/capability-sdk/src/primitives/http.ts:185-221 | at most the redirect limit and one more requests, exactly so many when the limit is exceeded, none for a negative limit |
| HttpFetch.ReturnedIsNoRedirect | packages/capability-sdk/src/primitives/http.ts:198-211 | the response returned answers the last request and is no 3xx with a Location |
| HttpFetch.HeadersOfEachRequest | packages/capability-sdk/src/primitives/http.ts:184-207 | each request carries the first headers until another origin is reached, and from then on those without the four names |
| HttpFetch.NothingSensitiveAfterCrossing | packages/capability-sdk/src/primitives/http.ts:207-267 | after a cross-origin hop no sensitive name is sent in any letter case, also back on the first origin |
| HttpFetch.FetchIsSafe | packages/capability-sdk/src/primitives/http.ts:48-222 | the whole call keeps the promises on requests, their number and the response |
| HttpFetch.NoCookieUnlessAllowed | packages/capability-sdk/src/primitives/http.ts:62-66 | unless cookies are allowed no request carries one, not even as the auth header |
| HttpRequests.EveryRequestIsAllowed | packages/capability-sdk/src/primitives/http.ts:48-258 | each request of a call, on the fields: an http(s) URL, a host not denied, allowed if there is a list, public or private with leave, looked-up addresses that are public, the method given or GET and among those allowed |
| HttpRequests.NothingSentIff | packages/capability-sdk/src/primitives/http.ts:48-76 | a call sends nothing if and only if a check refuses it, and the reason is the first check that does |
| HttpRequests.CallIsAsAnswered | packages/capability-sdk/src/primitives/http.ts:183-221 | a call starts at the given URL, goes from each answer to the URL its Location names, and ends as the last answer says, at the limit, or where the next host is refused |
| HttpRequests.HeadersAre | packages/capability-sdk/src/primitives/http.ts:57-208 | a header is sent with a request if and only if it is given, or is the secret under the name and scheme asked for, is no cookie unless allowed, and is none of the four names once another origin was reached |
| HttpRequests.SensitiveIff | packages/capability-sdk/src/primitives/http.ts:260-267 | the four names, letter by letter in either case |
| Retry.WithBackoff | packages/capability-sdk/src/primitives/retry.ts:29-56 | the loop calls, reports and ends as the recursive run says, also when a sleep fails inside the try block |
| Retry.DelayIsBounded | packages/capability-sdk/src/primitives/retry.ts:79-83 | a delay is between 0 and the longest one, and jitter takes off at most half, up to rounding |
| Retry.DelaysGrow | packages/capability-sdk/src/primitives/retry.ts:79-81 | without jitter the delays never shrink |
| Retry.BackoffPromises | packages/capability-sdk/src/primitives/retry.ts:29-56 | at most `max_attempts` calls, all but the last with a retryable outcome, the last one final or the last allowed and its outcome returned; a report per earlier call, and a total wait of at most the longest delay per earlier call |
| Retry.CallsOfWholeRun | packages/capability-sdk/src/primitives/retry.ts:36-55 | also with failing sleeps never more than `max_attempts` calls, and none exactly when that is below 1 |
| Retry.DelaysDouble | packages/capability-sdk/src/primitives/retry.ts:79-81 | the delay before jitter is the first one, then twice the one before, never above the longest |
| Retry.RetryableIff | packages/capability-sdk/src/primitives/retry.ts:33-40 | tried again are thrown errors and the codes given, by default 408, 409, 425, 429, 500, 502, 503 and 504 |
| Retry.AttemptIs | packages/capability-sdk/src/primitives/retry.ts:36-55 | one attempt in full, whatever sleeping does: what is reported with which delay and reason, what ends the run and how |
| Retry.ReportsAre | packages/capability-sdk/src/primitives/retry.ts:36-54 | with sleeps that do not fail, the k-th report is on the k-th attempt, with the wait the server asks for within the longest delay, or else the computed one |
| ModelUsage.NormalizedIsConsistentIff | packages/core/src/evals/provider-usage.ts:107-134 | input and output of a normalised record add up to its total exactly when the provider's fields fit, and how they must fit |
| ModelUsage.NormalizedIs | packages/core/src/evals/provider-usage.ts:104-134 | the tokens of a record, case by case, from what the first given spelling of each field says, rounded to the nearest whole number not below zero |
| ModelUsage.TallyByRole | packages/core/src/evals/provider-usage.ts:157-165 | the loop leaves in each of the three objects, under each role, the fold of the records in their order |
| ModelUsage.SummarizeModelUsage | packages/core/src/evals/provider-usage.ts:147-182 | loops and sums give the summary that the conservation and merging lemmas are about |
| ModelUsage.UsageIsConserved | packages/core/src/evals/provider-usage.ts:147-182 | per-role calls add up to the number of records, tokens and costs to the sums over the records |
| ModelUsage.TotalsAgreeThroughoutIff | packages/core/src/evals/provider-usage.ts:171-171 | the top-level total agrees with the roles' totals throughout a list, record by record, if and only if every record adds up |
| ModelUsage.DeviationsCancel | packages/core/src/evals/provider-usage.ts:171-171 | two records that deviate by opposite amounts have totals that agree |
| ModelUsage.TotalsOfOneRecord | packages/core/src/evals/provider-usage.ts:171-171 | for one record the two totals agree if and only if it adds up |
| ModelUsage.RoleIsItsSum | packages/core/src/evals/provider-usage.ts:157-165 | a role is present exactly when a record has it, with the sum over that role's records |
| ModelUsage.RolesMerge | packages/core/src/evals/provider-usage.ts:157-165 | the per-role figures of a concatenation are the sums of the two summaries' figures |
| ModelUsage.TotalsMerge | packages/core/src/evals/provider-usage.ts:147-182 | and so are the totals; the models of the second list that are new follow those of the first |
| ModelUsage.OptionalTotalsMerge | packages/core/src/evals/provider-usage.ts:150-176 | the four sums that a summary leaves out at zero add up as well |
| ModelUsage.SummaryOfOne | packages/core/src/evals/provider-usage.ts:147-182 | one record is its own summary; its cost is the reported one, else the estimate, else zero |
| ModelUsage.SummaryOfNothing | packages/core/src/evals/provider-usage.ts:147-182 | and without records the provider is unknown and everything is zero |
| ModelUsage.ModelsAreDistinct | packages/core/src/evals/provider-usage.ts:168-168 | every model that a record names is listed once, and no other |

## Left out

- UTF-8 decoding in `TextDecoder`: the stream starts from decoded characters.
- The schemas: what they guarantee is a precondition (`IsWellFormed`, non-empty ids) or a field such as `manifest_valid`.
- SHA-256 and HMAC: the hash is a parameter, injective where a lemma says so; signing is not part of this model.
- Locale-aware comparison: a total order given as a parameter (capability ids) or integers (timestamps in one format). Timestamps with different numbers of fraction digits, which the schema also accepts, are not modelled.
- Files, directories and JSON on disk: fields of `ArtifactStore` and `RunStore`. A managed path that names a directory, where removal throws, is not modelled; nor is the text of the latest summary.
- Floating point: delays and costs are reals, so overflow to Infinity is not modelled.
- `Number.parseInt` of the environment's window and maximum: they are parameters, and NaN is not modelled.
- Lone surrogates in the editor command and the transcript: their texts are characters, and lengths count characters. Truncation counts UTF-16 code units in the source.
- EventServer.ServerNeverSkipsIff: one connection at a time, overlapping replays are answered in the order they were asked, and a cursor that the log does not hold is not stored later (`EventServer.LateCursorMovesTheStart`); what a closed connection drops is covered by cutting the text anywhere.
- EventDelivery.DeliversContiguousSlice: an append-only log with distinct ids, as the SQLite store keeps it. The in-memory store sorts its events by timestamp and id, so that one which arrives late can land before others; that is not part of this model.
- Role labels that name members of `Object.prototype`: the per-role objects of the source inherit those, the model's maps do not. Keys that look like array indexes, which objects list first, keep their place here.
- `isLocalOrPrivateHost`, URL parsing, `Retry-After` parsing and the redaction of headers: oracles or not part of this model; the loops are about what their answers lead to, whatever they are.
- HttpFetch.EveryRequestIsSafe: that a URL written out and parsed again is the same URL is assumed of the parser, as the URL Standard promises.
- HttpFetch.HttpFetch: ends at the response; content type, size limit and capturing the body follow it.
- Retry.BackoffPromises: assumes non-negative delays, random numbers in [0, 1) and sleeps that do not fail, as the caller must provide them.
- Other React components and the expanded card, command wiring, routing tables, profiles and secrets, `reindexArtifacts` with its file names, and the approval store are not part of this model: they have no state that one step hands to the next.
