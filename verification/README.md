# Verified model of the OpenClaw Enterprise plugins

This project models the stateful and algorithmic parts of the plugin suite in Dafny and proves what they
guarantee over every input and every run. `dafny verify dfyconfig.toml` checks all of it.

| module | what it models |
|---|---|
| `DependencyGraph` | the blocking graph of a set of work items and its critical path (worklist with longest-path relaxation) |
| `OcipEnvelope`, `OcipFilter` | envelopes of the interchange protocol: building, encoding, parsing; filtering of outgoing data |
| `OcipHooks`, `OcipRuns` | the two message hooks with round counter, commitment gate, cross-org check and audit; runs of one agent and of two |
| `OcipInterleaving` | sends of one agent that overlap while they wait for the log of withheld data |
| `Retention` | the archive and purge sweep over the item store |
| `AuditCsv`, `AuditQuery` | the CSV export with a reader of section 2 of RFC 4180, and the filtered, paged query under it |
| `PolicyText`, `PolicyParser`, `PolicyHierarchy` | the policy text parser, the restrictive merge over scopes, the validator |
| `FreeTime` | the free-time blocks of the daily briefing |
| `Correlation` | the confidence of two discovered items and the greedy clustering by it |
| `Connector` | the gate every connector call passes, its disable latch and the classifier behind it |
| `Common`, `Gateway`, `Picking`, `Levels` | optional values and results; how outside calls end; positions in a list; classification levels |

Code that updates state is imperative here too: classes with fields (`Hooks`, `ExchangeRoundCounter`,
`TaskRetentionService`, `ConnectorBase`) and methods with loops. Each such method is proved equal to a
function of its inputs and the old state, and the theorems are lemmas about that function.

Calls into the outside world are parameters: the clock, the policy decision, whether an audit call returns,
what an API or the AI classifier answers. Theorems quantify over all of them.

## What the code does not promise

Several promises of the documentation hold only in part; the code is modelled as it is. The lemmas named say
exactly when it meets them and, after the semicolon, give an input on which it does not.

- `maxRounds` bounds the messages of each agent, not of a conversation, of which the protocol contract speaks: a
  receipt on a tracked exchange counts no round. Two agents exchange at most 2M - 1 messages under limit M
  (`PairBound`), and more than M are possible exactly from M = 2 on (`LimitBoundsConversationIff`; `PairBoundIsSharp`).
- A send that waits for the log of withheld data can be overtaken by another on the exchange: envelopes still keep to
  the limit, with different rounds (`OverlappingSendsKeepBounds`), but the audit entry names its envelope's round
  exactly when no other send began meanwhile (`LoggedRound`; `SecondSendOvertakes`).
- Not both sides of every exchange produce an audit entry: a receipt that is blocked, whose policy call fails or
  that is refused for needing a human leaves none, the last although a comment says it is logged
  (`ReceiptIsLoggedIff`, `BothSidesLog`; `RefusedCommitmentGoesUnlogged`).
- A lower scope does loosen a policy key when it changes the key's kind, raises a level or replaces some other text
  (`NeverLoosensIff`; `TextReplacesALimit`, `LevelIsLoosened`).
- The validator checks a policy against the first active policy of the scope above, of whatever domain, organisation
  or team. Its verdict is that of the policy's own parent exactly when the two put the same bound on every key
  (`OwnParentDecidesIff`; `ForeignParentDecides`).
- The validator looks one scope up, so a key that skips a scope is not checked (`AdjacentChecksSufficeIff`;
  `SkippedScopeIsOverlooked`).
- Suggested free blocks overlap meetings when a meeting lies inside a longer one (`BlocksAreFreeIff`;
  `NestedEventIsOverlooked`), leave the working day when meetings do (`BlocksAreInWorkingHoursIff`;
  `EarlyAndLateEvents`), and a day without events gets no block (`FreeTimeIsCoveredIff`; `EmptyDayGetsNoBlock`).
- The CSV export holds at most the first 1000 matching entries (`ExportIsCompleteIff`; `LastEntryIsLeftOut`) and ten
  columns of each (`ExportsAlikeIff`; `ReasonIsNotExported`).
- A connector call does not always leave an audit entry, although the connector contract asks for one an invocation: a
  denied read or one that finds the API unavailable leaves none, and neither does a write whose audit call throws after
  the write itself was performed (`ReadIsAuditedIff`, `WriteIsAuditedIff`; `DeniedReadGoesUnaudited`,
  `PerformedWriteGoesUnaudited`).
- A decision `require_approval` does not hold a connector call back (`CallReachesApiIff`; `ApprovalIsNotAwaited`).
- Two items of one system that agree in everything score 0.3 + 0.4 + 0.1, the very threshold for merging, so rounding
  decides (`EqualItemsMergeIff`): in IEEE arithmetic the sum is just below 0.8, and the two are not merged.

## Model

| member | source | states |
|---|---|---|
| `DependencyGraph.ComputeCriticalPathLength` | plugins/visualization/src/graphs/dependency.ts:132-191 | the worklist terminates on every list of items, returning the length of some chain (0 for no items); with unique ids, or as long as no unblocked id is given twice, it shifts each id at most once, shifts exactly the ids no cycle reaches, and returns the exact length of the longest chain whose vertices, except possibly the last, no cycle reaches |
| `DependencyGraph.CriticalPathOfAcyclic` | plugins/visualization/src/graphs/dependency.ts:128-190 | on an acyclic set the result is attained by some chain of blocking links and no chain is longer |
| `DependencyGraph.CriticalPathIsSimple` | plugins/visualization/src/graphs/dependency.ts:167-190 | the result is attained by a chain without repetition and lies between 1 and the number of ids, cycles or not |
| `DependencyGraph.CyclesAreTainted` | plugins/visualization/src/graphs/dependency.ts:169-188 | every vertex of a cycle is among those never shifted off the queue |
| `DependencyGraph.TaintNeedsACycle` | plugins/visualization/src/graphs/dependency.ts:169-188 | conversely, an id that is never shifted exists only in a cyclic graph |
| `DependencyGraph.LinksAreBlocks` | plugins/visualization/src/graphs/dependency.ts:147-154 | the links are exactly the blocking relationships between members of the set; ids outside it are dropped |
| `DependencyGraph.LinksAreListed` | plugins/visualization/src/graphs/dependency.ts:74-90 | there is one link for each position at which an item names a member of the set, in the order of items and positions |
| `DependencyGraph.LinkOccurs` | plugins/visualization/src/graphs/dependency.ts:74-90 | so a link occurs as often as its source lists its target |
| `DependencyGraph.BuildAdjacency` | plugins/visualization/src/graphs/dependency.ts:138-154 | adjacency lists and in-degrees describe the link list, with repeated links counted |
| `DependencyGraph.InitialWork` | plugins/visualization/src/graphs/dependency.ts:156-165 | the queue starts with exactly the ids nobody blocks, each once exactly when no such id is given to two items; all distances are 1 |
| `DependencyGraph.RelaxNeighbors` | plugins/visualization/src/graphs/dependency.ts:170-187 | one turn of the worklist keeps the whole invariant (pending in-degrees, queue membership, topological order, attained and relaxed distances, best distance) and never lets the ids queued or waiting grow in number |
| `DependencyGraph.RelaxOne` | plugins/visualization/src/graphs/dependency.ts:173-187 | relaxing one neighbour keeps the same invariant |
| `DependencyGraph.FinishedIsClear` | plugins/visualization/src/graphs/dependency.ts:169-188 | an id in a topological order is reached by no cycle |
| `DependencyGraph.UnfinishedIsTainted` | plugins/visualization/src/graphs/dependency.ts:169-188 | an id left over when the queue runs dry is reached by a cycle |
| `DependencyGraph.Generate` | plugins/visualization/src/graphs/dependency.ts:60-116 | links, totals and the critical path of the reported graph, and for every item its node: what is copied, the number of links into it, the number of ids it blocks (of items that share an id the last one's), and the group of its score |
| `DependencyGraph.UniqueIsLast` | plugins/visualization/src/graphs/dependency.ts:70-72 | so the blocking count of an item whose id is its own is the length of its own list |
| `OcipEnvelope.EnvelopeRoundTrip` | plugins/ocip-protocol/src/envelope/parser.ts:37-176 | an envelope survives encoding and parsing exactly when its text fields are all non-empty; otherwise it is rejected as malformed |
| `OcipEnvelope.BuiltEnvelopeRoundTrip` | plugins/ocip-protocol/src/envelope/builder.ts:58-131 | every envelope built from non-empty identity, conversation id and expiry parses back to itself |
| `OcipEnvelope.ParsingIsANormalForm` | plugins/ocip-protocol/src/envelope/parser.ts:65-159 | whatever raw object an accepted envelope came from, re-encoding it and parsing again gives the same envelope |
| `OcipEnvelope.LevelsRoundTrip` | plugins/ocip-protocol/src/envelope/parser.ts:119-126 | filtering the names of valid levels gives the levels back, in order |
| `OcipEnvelope.CanShareIsDownwardClosed` | plugins/ocip-protocol/src/envelope/builder.ts:120-131 | the levels offered are exactly those up to the agent's maximum |
| `OcipEnvelope.BuiltEnvelope` | plugins/ocip-protocol/src/envelope/builder.ts:58-131 | every field of a built envelope: never a commitment by the agent, the levels it may share in ascending order, who may reply and what needs a commitment by exchange type, the defaults |
| `OcipEnvelope.ParsedIff` | plugins/ocip-protocol/src/envelope/parser.ts:37-159 | metadata is accepted exactly when it is an object with all required fields of the right kinds, whatever else it holds |
| `OcipEnvelope.ParsedFields` | plugins/ocip-protocol/src/envelope/parser.ts:65-159 | what an accepted envelope says is what its raw fields say, flags counting only when they are true |
| `OcipEnvelope.LevelsInOrder` | plugins/ocip-protocol/src/envelope/parser.ts:119-126 | the levels read from an array are its elements that name one, in order |
| `OcipFilter.Filter` | plugins/ocip-protocol/src/classification/filter.ts:45-80 | the loop yields the specified partition, and every allowed item is within the ceiling and accepted by the receiver |
| `OcipFilter.FilterIsExact` | plugins/ocip-protocol/src/classification/filter.ts:45-80 | permitted items pass with their multiplicity, every other one leaves one record |
| `OcipFilter.FilterDistributes` | plugins/ocip-protocol/src/classification/filter.ts:55-77 | both lists keep the order of the items |
| `OcipFilter.AllowedInOrder` | plugins/ocip-protocol/src/classification/filter.ts:55-77 | the allowed items are those the ceiling covers and the receiver accepts, in order |
| `OcipFilter.WithheldInOrder` | plugins/ocip-protocol/src/classification/filter.ts:55-77 | each of the others leaves a record with the reason and its description, in order |
| `OcipHooks.ExchangeRoundCounter.InitExchange` | plugins/ocip-protocol/src/loop-prevention/counter.ts:43-57 | a new exchange starts at round 0 with the given or the default limit; no other exchange changes |
| `OcipHooks.ExchangeRoundCounter.IncrementRound` | plugins/ocip-protocol/src/loop-prevention/counter.ts:66-88 | counts and records one round, fails past the limit with the round still counted, and fails on an unknown exchange without effect |
| `OcipHooks.ExchangeRoundCounter.SetCurrentRound` | plugins/ocip-protocol/src/hooks.ts:249-250 | a first received envelope sets the round of its exchange and nothing else |
| `OcipHooks.Hooks.HandleOutgoing` | plugins/ocip-protocol/src/hooks.ts:74-182 | the new agent state, the fields left on the message and the error thrown are those of the step `Outgoing`, for every outcome of the audit calls |
| `OcipHooks.Hooks.Dispatch` | plugins/ocip-protocol/src/hooks.ts:127-181 | within the limit: filtering, logging of withheld data, attaching and logging, in that order, stopping at the first audit failure |
| `OcipHooks.SendCounts` | plugins/ocip-protocol/src/loop-prevention/counter.ts:43-88 | a send adds one round and one transcript entry, with sender and content, to its exchange, opening it if need be with the given limit or 3, and changes no other |
| `OcipHooks.SendEnds` | plugins/ocip-protocol/src/hooks.ts:81-181 | for every outcome of the audit calls: which error a send ends with, exactly when it attaches an envelope and data, and what it escalates |
| `OcipHooks.SentEnvelope` | plugins/ocip-protocol/src/hooks.ts:127-135 | every field of the attached envelope, from the agent, the message and the exchange |
| `OcipHooks.SentDataIsExact` | plugins/ocip-protocol/src/hooks.ts:136-155 | the attached data are exactly the items that may be sent, as often as given |
| `OcipHooks.SentDataInOrder` | plugins/ocip-protocol/src/hooks.ts:136-155 | and in the order given |
| `OcipHooks.EscalationIsLogged` | plugins/ocip-protocol/src/hooks.ts:95-125 | a send over the limit logs the escalated exchange with its transcript and no data, if the audit call returns |
| `OcipHooks.DispatchIsLogged` | plugins/ocip-protocol/src/hooks.ts:136-181 | a send within the limit logs first the withheld items with their reasons, if there are any, then the exchange with its counterparty, round, limit and transcript and the data sent and withheld |
| `OcipHooks.Hooks.HandleIncoming` | plugins/ocip-protocol/src/hooks.ts:188-287 | likewise for the step `Incoming`, for every policy reply and audit outcome |
| `OcipHooks.ReceiptEnds` | plugins/ocip-protocol/src/hooks.ts:188-287 | for every message, policy reply and audit outcome: a receipt is blocked exactly when the envelope comes from another tenant, asks for a human exactly when it is accepted and needs one, and fails exactly when a gateway call it needs does |
| `OcipHooks.ReceiptTracks` | plugins/ocip-protocol/src/hooks.ts:240-251 | an accepted envelope of an untracked exchange starts tracking it at its round and limit; nothing else changes any exchange |
| `OcipHooks.DetectsEveryKeyword` | plugins/ocip-protocol/src/envelope/commitment.ts:120-125 | detection is empty exactly when no keyword occurs in the text |
| `OcipHooks.DeliveredIff` | plugins/ocip-protocol/src/hooks.ts:188-287 | an envelope reaches the downstream context exactly when it parses, tenants match, org units match or policy allows, no commitment is detected and the receipt was logged |
| `OcipHooks.CommitmentsNeverDelivered` | plugins/ocip-protocol/src/envelope/commitment.ts:57-111 | no envelope built for a commitment request or meeting scheduling is delivered, whatever its content; whenever the org check lets a complete one pass, the hook asks for a human and logs nothing |
| `OcipHooks.BuiltEnvelopeDeliveredIff` | plugins/ocip-protocol/src/hooks.ts:188-287 | from builder to receiver: an envelope is delivered as built exactly for an information query from the same tenant and an accepted org unit, with no commitment word and a logged receipt |
| `OcipHooks.SentDataIsPermitted` | plugins/ocip-protocol/src/hooks.ts:136-155 | data on a sent message is at or below the level on its envelope and accepted by the receiver |
| `OcipHooks.ReceiptIsLoggedIff` | plugins/ocip-protocol/src/hooks.ts:188-287 | exactly when a receipt leaves an audit entry, and what is in it: for every message, policy reply and audit outcome |
| `OcipHooks.RefusedCommitmentGoesUnlogged` | plugins/ocip-protocol/src/hooks.ts:253-260 | a commitment request between colleagues that the sender's log has and the receiver's has not |
| `OcipHooks.SendIsLoggedIff` | plugins/ocip-protocol/src/hooks.ts:81-181 | exactly when a send leaves an entry of the exchange, escalated or in progress |
| `OcipHooks.BothSidesLog` | plugins/ocip-protocol/src/exchange-log/logger.ts:61-104 | for every successful send that no other overlaps, and the receipt of its envelope, delivered, denied, refused or blocked: exactly when the receiver has an entry too, and that both then are of the same exchange, round, limit and classification, each in its own role |
| `OcipRuns.TrackedStep` | plugins/ocip-protocol/src/hooks.ts:241-251 | on a tracked exchange only a send changes anything, by one round; a receipt changes nothing |
| `OcipRuns.FreshRoundsIncrease` | plugins/ocip-protocol/src/hooks.ts:81-135 | over any run that begins before the exchange is tracked, every run of a fresh agent among them, attached envelopes carry one limit and strictly increasing rounds within it |
| `OcipRuns.RoundsIncrease` | plugins/ocip-protocol/src/hooks.ts:127-135 | over any run on a tracked exchange, attached envelopes carry its limit and strictly increasing rounds above its current round and within the limit |
| `OcipRuns.SendsAreBounded` | plugins/ocip-protocol/src/loop-prevention/counter.ts:66-88 | from round r and limit M an agent attaches at most max(0, M - r) envelopes on the exchange |
| `OcipRuns.FreshSendsAreBounded` | plugins/ocip-protocol/src/hooks.ts:81-125 | the same from before the exchange is tracked, whoever opens it |
| `OcipRuns.ReachableIsWellFormed` | plugins/ocip-protocol/src/loop-prevention/counter.ts:76-81 | in every reachable state each transcript carries consecutive rounds ending at the current round |
| `OcipRuns.ExchangeIsMonotone` | plugins/ocip-protocol/src/loop-prevention/counter.ts:66-88 | over any run limit and conversation never change, transcripts only grow, rounds advance by one an entry |
| `OcipRuns.LimitIff` | plugins/ocip-protocol/src/hooks.ts:95-125 | a send escalates exactly when the exchange is used up or opened with a limit below one, and then throws, attaches nothing and is logged as escalated |
| `OcipRuns.EscalationAbsorbs` | plugins/ocip-protocol/src/hooks.ts:88-125 | after the limit is met every later send on the exchange is refused in that way, over any run |
| `OcipRuns.PairBound` | plugins/ocip-protocol/src/hooks.ts:241-251 | a fresh initiator and a responder exchange at most 2M - 1 messages, M rounded down, under every interleaving of sends, of delayed, reordered, repeated or lost deliveries, and of any messages from others that do not open the exchange |
| `OcipRuns.PairBoundIsSharp` | plugins/ocip-protocol/src/hooks.ts:241-251 | for every M, whole or not, some run reaches 2M - 1 |
| `OcipRuns.LimitBoundsConversationIff` | plugins/ocip-protocol/src/hooks.ts:241-251 | for every limit, whole or not: all conversations keep within it exactly when it is below two |
| `OcipInterleaving.ResumedAtOnce` | plugins/ocip-protocol/src/hooks.ts:136-181 | a send that is not overtaken does what the hook does run in one go |
| `OcipInterleaving.ExchangesInOneGo` | plugins/ocip-protocol/src/hooks.ts:81-93 | however sends overlap, the exchange states are those of the run in which each send is done as it begins |
| `OcipInterleaving.OverlappingSendsKeepBounds` | plugins/ocip-protocol/src/hooks.ts:81-155 | over any interleaving: in the order of their sends envelopes carry one limit and strictly increasing rounds within it, their number keeps to the bound, and none is attached twice |
| `OcipInterleaving.FreshInterleaving` | plugins/ocip-protocol/src/hooks.ts:81-155 | so any two envelopes attached on an exchange differ in their rounds, the later send having the higher |
| `OcipInterleaving.LoggedRound` | plugins/ocip-protocol/src/hooks.ts:142-181 | the round a waiting send logs is its envelope's plus the number of sends on the exchange that began meanwhile |
| `OcipInterleaving.SecondSendOvertakes` | plugins/ocip-protocol/src/hooks.ts:142-181 | two sends of which the second attaches first, and the entry of the first names round 2 |
| `Retention.TaskStore.FindByStatus` | plugins/task-intelligence/src/discovery/retention.ts:15-19 | the listing holds exactly the ids with the status, each once |
| `Retention.TaskRetentionService.Start` | plugins/task-intelligence/src/discovery/retention.ts:40-50 | starting sweeps once and only when not already running |
| `Retention.TaskRetentionService.ProcessRetention` | plugins/task-intelligence/src/discovery/retention.ts:64-118 | a pass turns the store into the swept store, its counters are the numbers archived and purged, and records before = records after + both purge counts |
| `Retention.TaskRetentionService.ArchiveCompleted` | plugins/task-intelligence/src/discovery/retention.ts:74-88 | exactly the completed records of 30 days or more are archived and counted |
| `Retention.TaskRetentionService.PurgeDue` | plugins/task-intelligence/src/discovery/retention.ts:90-115 | exactly the due records of one status are deleted and counted |
| `Retention.SweptOne` | plugins/task-intelligence/src/discovery/retention.ts:64-118 | what a pass does to each record by itself: deletion after 90 days in the archive or open, archiving after 30 days completed with the stamp and a purge date 90 days ahead, else nothing; never both |
| `Retention.PassCounts` | plugins/task-intelligence/src/discovery/retention.ts:64-118 | the counters count exactly those records, archived, purged from the archive and purged as stale |
| `Retention.SweepIsIdempotent` | plugins/task-intelligence/src/discovery/retention.ts:64-118 | a second pass at the same time changes nothing |
| `Retention.NeverPurgedEarly` | plugins/task-intelligence/src/discovery/retention.ts:74-101 | over any run of passes a record completed at t is deleted only by a pass at or after t + 120 days and at or after its own recorded purge date |
| `Retention.NeverPurgedLate` | plugins/task-intelligence/src/discovery/retention.ts:74-101 | with passes at most g apart, each stamping within d of its start, it is gone after any pass at or after t + 120 days + g + d |
| `Retention.PurgedWithinTwoGaps` | plugins/task-intelligence/src/discovery/retention.ts:74-101 | so it is gone after a pass before t + 120 days + 2g + d |
| `Retention.OpenTaskLives` | plugins/task-intelligence/src/discovery/retention.ts:103-115 | a record never completed stays unchanged exactly until a pass 90 days or more after its discovery |
| `AuditCsv.CsvRoundTrip` | plugins/audit-enterprise/src/routes.ts:91-124 | for any rows of any strings, a quoted-field reader recovers exactly the header and the rows |
| `AuditCsv.ExportRoundTrip` | plugins/audit-enterprise/src/routes.ts:104-120 | the same for exported entries and their ten columns |
| `AuditCsv.ValuesUnderHeaders` | plugins/audit-enterprise/src/routes.ts:91-116 | each value stands in the column of its name |
| `AuditCsv.LineIsWritten` | plugins/audit-enterprise/src/routes.ts:104-120 | every value is written in quotes, commas in between, with every quote in it doubled |
| `AuditCsv.TextIsWritten` | plugins/audit-enterprise/src/routes.ts:120-121 | the text is the unquoted header line and, after a line feed each, the lines of the rows |
| `AuditCsv.ExportsAlikeIff` | plugins/audit-enterprise/src/routes.ts:104-120 | two lists of entries export to the same text exactly when they agree, entry by entry, in the ten exported columns; the other five fields are lost |
| `AuditCsv.ReasonIsNotExported` | plugins/audit-enterprise/src/routes.ts:104-120 | two entries that differ in the policy's reason and export alike |
| `AuditQuery.BuildWhere` | plugins/audit-enterprise/src/query/query-method.ts:83-124 | placeholders line up with values, and the clause selects exactly the tenant's rows satisfying each given filter |
| `AuditQuery.Query` | plugins/audit-enterprise/src/query/query-method.ts:73-151 | the SQL with its placeholders answers with total, page, clamped page size, entries and `has_more` of the declared meaning `Answer`, which knows only the matching rows |
| `AuditQuery.MatchingInOrder` | plugins/audit-enterprise/src/query/query-method.ts:83-135 | the matching entries are those of the tenant's rows that satisfy every given filter, bounds inclusive, empty filters not counting, in the table's order |
| `AuditQuery.AnswerHolds` | plugins/audit-enterprise/src/query/query-method.ts:76-150 | the total, the entries from the offset on, and whether more follow; a given offset overrides the page |
| `AuditQuery.PageIs` | plugins/audit-enterprise/src/query/query-method.ts:76-81 | a page or page size within range is taken as asked, any other at the nearest bound; `limit` overrides `page_size` |
| `AuditQuery.PagesTile` | plugins/audit-enterprise/src/query/query-method.ts:76-150 | for any requested page size, fetching pages 1, 2, ... until `has_more` is false terminates and yields every matching row exactly once, in order |
| `AuditQuery.MoreMeansAFullPage` | plugins/audit-enterprise/src/query/query-method.ts:76-81 | page sizes are clamped to 1..1000; a page that is not the last is full, the next beginning where it ends, and the last holds the rest |
| `AuditQuery.ExportCsv` | plugins/audit-enterprise/src/routes.ts:79-124 | reading the export gives the header and the first 1000 matching entries |
| `AuditQuery.ExportIsCompleteIff` | plugins/audit-enterprise/src/routes.ts:79-89 | the export is complete exactly when at most 1000 entries match |
| `AuditQuery.LastEntryIsLeftOut` | plugins/audit-enterprise/src/routes.ts:79-89 | 1001 matching entries of which one is not exported |
| `PolicyParser.ParsePolicyContent` | plugins/policy-engine/src/hierarchy/resolver.ts:67-117 | the loop over lines computes the fold `Parse` |
| `PolicyParser.NoiseIff` | plugins/policy-engine/src/hierarchy/resolver.ts:75-76 | a line is skipped as noise exactly when it is blank or its first character other than white space is a hash |
| `PolicyParser.FieldReads` | plugins/policy-engine/src/hierarchy/resolver.ts:85-110 | a line is split at its first colon; with a value it settles its key, without it opens a list unless the key is empty, and either way it settles the list that was open |
| `PolicyParser.ColonlessReads` | plugins/policy-engine/src/hierarchy/resolver.ts:85-92 | a line without a colon only closes the open list |
| `PolicyParser.ItemReads` | plugins/policy-engine/src/hierarchy/resolver.ts:78-83 | an item is added to the open list and ignored if there is none |
| `PolicyParser.ScalarReadsAs` | plugins/policy-engine/src/hierarchy/resolver.ts:104-109 | which values are read as flags, which as numbers, leading zeros aside, and which as text |
| `PolicyParser.PolicyRoundTrip` | plugins/policy-engine/src/hierarchy/resolver.ts:67-117 | every policy of well-formed keys and values, printed in any key order, is read back unchanged |
| `PolicyParser.PrintRoundTrip` | plugins/policy-engine/src/hierarchy/resolver.ts:67-117 | the same for entry lists, a repeated key taking its last value |
| `PolicyParser.LayoutDoesNotMatter` | plugins/policy-engine/src/hierarchy/resolver.ts:74-76 | two texts with the same trimmed significant lines mean the same policy |
| `PolicyParser.NoiseInserted` | plugins/policy-engine/src/hierarchy/resolver.ts:74-76 | a blank or comment line inserted between any two lines changes nothing |
| `PolicyParser.NoiseAround` | plugins/policy-engine/src/hierarchy/resolver.ts:74-76 | nor does one before the first line or after the last |
| `PolicyParser.LineReindented` | plugins/policy-engine/src/hierarchy/resolver.ts:75 | changing the indentation or trailing white space of a line changes nothing, be it the only one, the first, the last or between others |
| `PolicyHierarchy.MergeRestrictive` | plugins/policy-engine/src/hierarchy/resolver.ts:126-157 | the loop over the child's keys computes `Merge` |
| `PolicyHierarchy.Resolve` | plugins/policy-engine/src/hierarchy/resolver.ts:29-65 | resolving is the plain fold of the merge over the parsed policies in force, from the enterprise down: those of scopes the chain names by a non-empty id at which the store has an active policy; the report gives their ids and none for the other scopes |
| `PolicyHierarchy.OnlyActiveCounts` | plugins/policy-engine/src/hierarchy/resolver.ts:45-48 | two stores that agree on what is in force resolve alike |
| `PolicyHierarchy.FlagsMeet` | plugins/policy-engine/src/hierarchy/resolver.ts:144-146 | over any number of layers a flag is the conjunction of all layers that define it |
| `PolicyHierarchy.LimitsMeet` | plugins/policy-engine/src/hierarchy/resolver.ts:147-149 | a limit is the minimum, and some layer sets it |
| `PolicyHierarchy.ListsMeet` | plugins/policy-engine/src/hierarchy/resolver.ts:141-143 | a list is the last defining layer's, filtered to the values every defining layer lists |
| `PolicyHierarchy.EffectiveKeys` | plugins/policy-engine/src/hierarchy/resolver.ts:126-157 | the effective policy has exactly the keys some layer defines |
| `PolicyHierarchy.NeverLoosensIff` | plugins/policy-engine/src/hierarchy/resolver.ts:119-157 | a further layer leaves a defined key no looser, level names being ordered, exactly when it keeps the key's kind and replaces no text except a level by one that the validator's check accepts |
| `PolicyHierarchy.TextReplacesALimit` | plugins/policy-engine/src/hierarchy/resolver.ts:150-153 | an input on which a lower scope removes the enterprise's limit |
| `PolicyHierarchy.LevelIsLoosened` | plugins/policy-engine/src/hierarchy/validator.ts:88-101 | an input on which a team raises the enterprise's level: the merge takes it, the validator's check rejects it |
| `PolicyHierarchy.ValidateFields` | plugins/policy-engine/src/hierarchy/validator.ts:53-105 | the errors are exactly those of the fields parent and child both define |
| `PolicyHierarchy.FieldErrorsAre` | plugins/policy-engine/src/hierarchy/validator.ts:57-103 | which error a field raises, exactly when, and with which data |
| `PolicyHierarchy.Validate` | plugins/policy-engine/src/hierarchy/validator.ts:23-108 | valid exactly without errors; always for the enterprise scope or without an active policy in the scope above; otherwise the errors are those against the first such policy in the store, whosever it is |
| `PolicyHierarchy.OwnParentDecidesIff` | plugins/policy-engine/src/hierarchy/validator.ts:38-51 | the verdict on every child is that of its own parent exactly when the first active policy of the scope above puts the same bound on every key |
| `PolicyHierarchy.SameVerdictIff` | plugins/policy-engine/src/hierarchy/validator.ts:53-105 | two parents have the same verdict on every child exactly when they bound every key alike: the values listed, a flag that is off, a limit, a level below the highest |
| `PolicyHierarchy.ForeignParentDecides` | plugins/policy-engine/src/hierarchy/validator.ts:38-51 | a store in which a team's limit is accepted by another organisation's policy and exceeds its own |
| `PolicyHierarchy.ValidatorAgreesWithMerge` | plugins/policy-engine/src/hierarchy/validator.ts:50-107 | no list, flag or limit error is raised exactly when merging is plain overwriting by the child's keys |
| `PolicyHierarchy.ChainAgreesWithResolve` | plugins/policy-engine/src/hierarchy/resolver.ts:29-65 | over any chain of layers, checking each against what is effective above it raises no such error exactly when resolving is plain overwriting at every scope |
| `PolicyHierarchy.NearestDecides` | plugins/policy-engine/src/hierarchy/resolver.ts:29-65 | the same holds of checking each key against the nearest layer above that defines it |
| `PolicyHierarchy.AdjacentChecksSufficeIff` | plugins/policy-engine/src/hierarchy/validator.ts:35-51 | checks against the scope directly above suffice exactly when every key that skips that scope passes the check against the nearest one that defines it |
| `PolicyHierarchy.SkippedScopeIsOverlooked` | plugins/policy-engine/src/hierarchy/validator.ts:35-51 | a chain whose every adjacent check passes though a limit is held back |
| `FreeTime.FindFreeBlocks` | plugins/task-intelligence/src/briefing/generator.ts:70-129 | the sweep computes the blocks of the gaps of the sorted calendar |
| `FreeTime.SortedIsPermutation` | plugins/task-intelligence/src/briefing/generator.ts:76-79 | sorting orders by start and loses nothing |
| `FreeTime.SortedIsStable` | plugins/task-intelligence/src/briefing/generator.ts:76-79 | events that start at the same time keep their order |
| `FreeTime.BlocksAre` | plugins/task-intelligence/src/briefing/generator.ts:90-126 | exactly which blocks there are: one for every gap of half an hour or more before an event, and one, however short, from the last event to 17:00 |
| `FreeTime.BlockShape` | plugins/task-intelligence/src/briefing/generator.ts:94-126 | block k is offered the k-th ranked item, under its title, or none; it is not empty, and lasts half an hour or more unless it is the last, running to the end of the day |
| `FreeTime.BlocksAreOrderedIff` | plugins/task-intelligence/src/briefing/generator.ts:90-126 | blocks are ordered and pairwise disjoint exactly when, of two gaps that yield blocks, the later begins no earlier than the other ends |
| `FreeTime.BlocksAreOrdered` | plugins/task-intelligence/src/briefing/generator.ts:90-126 | in particular when no event ends before it starts |
| `FreeTime.BlocksAreFreeIff` | plugins/task-intelligence/src/briefing/generator.ts:90-126 | for any events, no block shares an instant with one exactly when, at each gap that yields a block, no earlier event outlasts the one just before the gap |
| `FreeTime.BlocksAreFree` | plugins/task-intelligence/src/briefing/generator.ts:90-126 | in particular when event ends are nondecreasing in start order |
| `FreeTime.NestedEventIsOverlooked` | plugins/task-intelligence/src/briefing/generator.ts:109 | a calendar with a nested meeting for which the one suggested block overlaps a meeting |
| `FreeTime.BlocksAreInWorkingHoursIff` | plugins/task-intelligence/src/briefing/generator.ts:82-126 | the blocks lie between 9:00 and 17:00 exactly when no event that ends before 9:00 is followed by half an hour or more without a start, and none that starts after 17:00 comes half an hour or more after the one before it |
| `FreeTime.BlocksAreInWorkingHours` | plugins/task-intelligence/src/briefing/generator.ts:82-126 | in particular when no event ends before 9:00 or starts after 17:00 |
| `FreeTime.EarlyAndLateEvents` | plugins/task-intelligence/src/briefing/generator.ts:82-126 | a calendar whose one block begins before 9:00 and ends after 17:00 |
| `FreeTime.FreeTimeIsCoveredIff` | plugins/task-intelligence/src/briefing/generator.ts:70-126 | every free interval of half an hour inside the working day lies within one block, overlapping events or not, exactly when there is an event (or the day is shorter than that) |
| `FreeTime.EmptyDayGetsNoBlock` | plugins/task-intelligence/src/briefing/generator.ts:74 | a day without events, all of it free, for which nothing is suggested |
| `Correlation.ConfidenceIsSymmetric` | plugins/task-intelligence/src/correlation/correlator.ts:70-149 | confidence is symmetric and lies in [0, 1] |
| `Correlation.ConfidenceIsWeighted` | plugins/task-intelligence/src/correlation/correlator.ts:70-149 | confidence is the plain sum of its four weighted signals: the cap at 1 never bites |
| `Correlation.ReferencesDecide` | plugins/task-intelligence/src/correlation/correlator.ts:70-120 | without a shared reference confidence is at most 0.6, with one at least 0.41 |
| `Correlation.MergingNeeds` | plugins/task-intelligence/src/correlation/correlator.ts:70-148 | how alike titles must be for two items from different systems to merge, by their distance in time; items from one system never exceed the threshold |
| `Correlation.Correlate` | plugins/task-intelligence/src/correlation/correlator.ts:31-68 | whatever measure of confidence it calls, the nested loops with the `assigned` set produce exactly the first-fit groups by it, in order |
| `Correlation.RoundedIsSound` | plugins/task-intelligence/src/correlation/correlator.ts:70-100 | any rounding of confidence by at most a tenth, capped at 1, meets what the group properties below ask of a measure |
| `Correlation.EqualItemsMergeIff` | plugins/task-intelligence/src/correlation/correlator.ts:50-55 | two items of one system that agree in everything score exactly the threshold, and make one group exactly when the measure does not fall below it |
| `Correlation.OwnerIsFirstFit` | plugins/task-intelligence/src/correlation/correlator.ts:37-62 | an item is primary exactly when no earlier primary merges it, and otherwise is taken by the first that does |
| `Correlation.GroupIsFirstFit` | plugins/task-intelligence/src/correlation/correlator.ts:40-65 | for every reported group: which item is its primary, which it merged, which it lists as possibly related, and the bounds of its confidence |
| `Correlation.GroupsInOrder` | plugins/task-intelligence/src/correlation/correlator.ts:37-65 | there is one group for each primary, in the order of the input |
| `Correlation.MergedInOrder` | plugins/task-intelligence/src/correlation/correlator.ts:47-58 | a group's merged items are exactly those its primary takes, in order |
| `Correlation.RelatedInOrder` | plugins/task-intelligence/src/correlation/correlator.ts:59-61 | and so are its possibly related ones |
| `Correlation.GroupRelated` | plugins/task-intelligence/src/correlation/correlator.ts:59-61 | an item is possibly related to a primary exactly when it comes later, confidence is in [0.5, 0.8) and no earlier primary merges it |
| `Correlation.ConfidenceIsMinimum` | plugins/task-intelligence/src/correlation/correlator.ts:55-58 | a group's confidence is the minimum over its merged members, 1 for none |
| `Correlation.MergedTasksShareAReference` | plugins/task-intelligence/src/correlation/correlator.ts:112-138 | whatever is merged shares an entity reference with its primary |
| `Correlation.GroupsPartitionTasks` | plugins/task-intelligence/src/correlation/correlator.ts:31-68 | primaries and merged items together are the input, each as often as it occurs there |
| `Connector.ConnectorBase.ExecuteRead` | plugins/shared/src/connector-base.ts:51-135 | disabling, the trace of outside calls and the outcome are those of the step function, for every answer of policy, API, classifier and audit |
| `Connector.ConnectorBase.FinishRead` | plugins/shared/src/connector-base.ts:86-118 | classification item by item, stopping at the first error, then the audit entry with the highest level |
| `Connector.ConnectorBase.ExecuteWrite` | plugins/shared/src/connector-base.ts:140-202 | likewise for writes |
| `Connector.ReadEnds` | plugins/shared/src/connector-base.ts:51-135 | how a read ends for every answer of policy, API, classifier and audit: the first error it meets decides whether it disables the connector (a revoked one, always and alone), returns nothing or is passed on |
| `Connector.WriteEnds` | plugins/shared/src/connector-base.ts:140-202 | how a write ends likewise; no error of it disables the connector |
| `Connector.ConnectorBase.GetHighestClassification` | plugins/shared/src/connector-base.ts:222-234 | the loop computes `Highest` |
| `Connector.HighestIsMaximum` | plugins/shared/src/connector-base.ts:222-234 | that is the maximum level of the items, public for none |
| `Connector.ClassifyOnlyUpgrades` | plugins/policy-engine/src/classification/classify.ts:28-62 | the level is the higher of the connector default and what the AI says of a non-empty summary; the original level is recorded exactly when it changed |
| `Connector.RunReachesApiIff` | plugins/shared/src/connector-base.ts:57-81 | over any sequence of calls nothing is fetched or written before a non-deny decision in the same call, and something is exactly when there is such a decision and no earlier read met a revoked error |
| `Connector.CallReachesApiIff` | plugins/shared/src/connector-base.ts:71-81 | a call reaches the API exactly when the connector is not disabled and the policy answers otherwise than to deny |
| `Connector.ApprovalIsNotAwaited` | plugins/shared/src/connector-base.ts:159-201 | a write that requires approval is performed and logged as a success |
| `Connector.RefusedIffRevokedBefore` | plugins/shared/src/connector-base.ts:119-123 | a call is refused, without reaching policy or API, exactly when the connector began disabled or an earlier call was a read, let through by the policy, whose first error was a revoked one |
| `Connector.ReturningWriteIsAudited` | plugins/shared/src/connector-base.ts:159-201 | a write that returns has logged exactly one entry, denied exactly when unsuccessful, reached the API exactly when successful, and returns the ids of entry and source |
| `Connector.ReadItemsAreClassified` | plugins/shared/src/connector-base.ts:86-118 | returned items are the fetched ones in order, changed only in level: what the AI says of a non-empty summary if above the default, else the default; the one entry, logged last, has the maximum of their levels |
| `Connector.ReadIsAuditedIff` | plugins/shared/src/connector-base.ts:51-135 | for every read, returning or throwing: it leaves an audit entry exactly when the policy does not deny it and fetch, extraction, every classification and the audit call return |
| `Connector.DeniedReadGoesUnaudited` | plugins/shared/src/connector-base.ts:71-131 | a denied read and one that finds the API unavailable return without an entry |
| `Connector.WriteIsAuditedIff` | plugins/shared/src/connector-base.ts:140-202 | for every write, returning or throwing: it leaves an audit entry exactly when the policy answers, the write returns unless denied, and the audit call returns |
| `Connector.PerformedWriteGoesUnaudited` | plugins/shared/src/connector-base.ts:181-193 | a write that is performed and leaves no entry, its audit call throwing |

## Left out

- ComputeCriticalPathLength: for items of which two share an id that nobody blocks, only termination and that the result is the length of some chain are stated. Ids are primary keys in the database; a source given twice is queued twice and its links are counted off twice.
- Generate: the timestamp is not modelled.
- Rounds and limits: exact reals, as the parser accepts any finite number; the loss of precision beyond 2^53 is not modelled.
- ExchangeState: a value in the counter's map, not an object; a caller that keeps an alias to it is not modelled. `removeExchange` is never called by the hooks and is not part of this model.
- Escalation: carries the transcript itself; the human-readable summary and reason strings are not modelled.
- PairBound: a send puts its packet on the wire at once; one that waits for the log of withheld data does so later, which the delay of deliveries covers.
- DetectKeywords: lower-casing is a parameter; the keyword search itself is exact.
- ParsePolicyContent: limits are unbounded naturals (the original rounds beyond 2^53), and the key `__proto__`, which JavaScript objects treat specially, behaves like any other.
- Validate: the wording of the errors is not modelled, only their data; keys are visited in any order. The store answers in the order of its rows.
- Query: page, page size and offset are integers; NaN, fractions and the negative offsets the database refuses are not modelled. The table comes in the database's answer order, ties included.
- Confidence: exact rational arithmetic. The clustering is stated for any measure, so it holds of the rounded one too; no number rounded to double precision lies between 0.8 and the nearest such number, so comparing with 0.8 is exact. Word and reference sets are given; their regular expressions are not part of this model.
- Correlate: the random correlation id is not modelled.
- FindFreeBlocks: 9:00 and 17:00 are given as instants, so a day with a clock change needs no special case; times are numbers, not strings.
- ProcessRetention: no other writer acts during a pass, and store calls do not fail. The timer that repeats passes is not modelled; runs are sequences of passes.
- ExecuteRead: calls run one after another; a call under way while another ends in revocation goes on, and is not modelled. The error tests on message texts are two given properties of an error, as subclasses may override them.
- The connectors' own API clients, the OPA client, database drivers, token and session handling, the Kubernetes operator and the scoring tables: plumbing, or easy bounds and case splits.
