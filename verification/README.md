# A verified model of the footprint pipeline

This project models how the agentic-footprint tools turn collector facts into numbers and pictures, and
proves what those parts promise. `dafny verify dfyconfig.toml` checks everything.

| module | what it models |
|---|---|
| `Attribution`, `AttributionRules`, `AttributionLaws` | dividing each energy sample's joules between tool-call spans, an orphan bucket and the idle baseline, with a trace of every decision; the rules told from the inputs, and the laws that follow |
| `Joins` | correlating a session's events, measuring energy coverage, and assembling one impact record per session, tool call and task, in unit-key order |
| `DebugLog` | the debug server's numbered frame log: bounded ring, per-client queues, replay from a cursor, snapshot, and the session-keyed maps it feeds |
| `EventStore` | the console's fact ring with its span map, 2-second bucket index, open-span queue and counters |
| `Timeline`, `TimelineOrphans`, `TimelineRuns`, `TimelineOverlaps` | sticky track assignment in the timeline's span lane: one recomputation, orphans and their tails, what whole runs keep, and exactly when two spans on a track overlap |
| `Spool`, `RawStore`, `Ingest`, `IngestLaws`, `IngestRuns` | reading append-only spool files from an offset, inserting what they yield, and why crashes and retries leave no trace |
| `EstimatorWorker` | the estimator thread and its owner, as interleaved atomic steps over two one-slot channels and a shared completion |
| `Sampler`, `SamplerLoop`, `SamplerRules`, `SamplerRuns` | the sampling sidecar: CPU deltas, energy slices, control ops, the window loop, and what a run reports of a pid |

Code that changes things step by step is a class or a loop here too, proved against specification
functions; the properties are then lemmas about those functions. Joules, seconds and shares are exact
`real` numbers, timestamps are already-parsed integer milliseconds, and what the outside world answers
(clocks, the process table, the tracker, the line parser, the estimator) is a parameter, so every result
holds for every answer.

## Where the code does not do what is said of it

Each of these has a lemma with a concrete input, or the exact condition, or both.

- A trace's rows are said to add up to its sample (`attribution.rs:266-271`). Rows look joules up by span
  id, so two active spans with one id show the merged amount twice (`RepeatedIdExample`). Told from the
  spans, windows and sample alone, the sum is right if and only if the sample has no length or no energy, or
  cpu time divides it and gave every id that active spans share none (`TraceConservesIff`); in particular
  whenever the active ids are distinct (`DistinctIdsConserve`, and `RunTracesConserve` for the traces `Run`
  returns). The aggregate never needs a condition.
- The bucket index is said to hold each span in exactly its own buckets. Closing a known span rewrites its
  first bucket without moving entries (`eventStore.svelte.ts:277-311`), so the index stays exact if and only
  if the closing fact starts in the bucket the record already starts in (`IngestFact`, `IndexReplaces`,
  `MovedStartExample`). A span id that keeps one start does (`SameStartKeepsBucket`), so a run in which every
  id keeps one start keeps the index exact and each of its queries complete (`Run`, `RunOne`).
- Two spans on one track are said never to overlap. A span that closes out of sight, because the view was
  paused for longer than the window, keeps its track at a stale end, and a new span can be packed on top of
  it (`PausedCloseOverlaps`, from one second to five minutes). The exact conditions, for any number of missed
  closes:
  - over a run, two spans on a track overlap if and only if one took the track of the other, which had closed
    unseen by then, although it starts before the other ends (`OverlapIff`, `AllApartIff`);
  - at one recomputation, told from the packing before it, all pairs stay apart if and only if they were
    apart and no newcomer takes a missed span's track before that span's end (`StaysApartIff`), and recorded
    ends stay high enough if and only if every missed span's track is kept busy (`CoveredIff`, `FirstMissIff`);
  - told from the times of recomputation alone, no feed whatever can make two spans on a track overlap if and
    only if no two recomputations are further apart than the window (`SafeIffNoPause`, `PauseOverlaps`).

  Spans the window shows are never affected (`VisibleNeverMissed`).
- Folding report frames is said to reproduce the server's report keys. At most 256 evictions wait to be
  announced, and beyond that the oldest are forgotten, exactly as many as exceed the cap (`HintsCount`,
  `OldestForgotten`). Right after a report frame a client's fold is right if and only if every session it
  holds that was evicted since the last report and forgotten, or held wrongly before, is announced or named
  by this frame (`Publish`); so it stays right while at most 256 sessions are evicted between reports.
  `ReportAfter` runs a server through one report, `n` silent sessions and one more report: the fold is right
  exactly when at most 256 sessions were evicted in between, and otherwise the client still holds the
  first session, which the server has dropped.
- The comment on `ingestOpenSpan` says an existing record is replaced; the code ignores the second open, and
  so does the model.

## Model

| member | source | states |
|---|---|---|
| Attribution.SampleEnergyJ | crates/af-core/src/attribution.rs:216-232 | a sample reports its own `total` components when it has any, otherwise the sum of all its parts |
| AttributionRules.TotalAlone | crates/af-core/src/attribution.rs:216-232 | a sample with a total reports its totals alone, one without all its parts |
| Attribution.PidTableMeaning | crates/af-core/src/attribution.rs:661-667 | deduplication keeps exactly the pids observed, each with its longest delta and whether any of its rows was orphan-tagged |
| Attribution.DeduplicateByPid | crates/af-core/src/attribution.rs:661-667 | the loop over process rows computes that table |
| AttributionRules.OverlapIsCount | crates/af-core/src/attribution.rs:718-721 | the overlap of two intervals is the number of instants they share |
| AttributionRules.ActiveIff | crates/af-core/src/attribution.rs:416-509 | a sample's active spans are the local ones with a duration that are open during it |
| AttributionRules.CoveringIff | crates/af-core/src/attribution.rs:510-513 | the process windows covering a sample are those that share an instant with it |
| AttributionRules.UsableIff | crates/af-core/src/attribution.rs:391-414 | the process windows are the samples whose bounds parsed and have a length, as they are, and the others are counted |
| AttributionRules.CountedIff | crates/af-core/src/attribution.rs:417-440 | the unmeasured and degenerate counters count the distinct remote spans, and the distinct local ones without a duration other than the bootstrap span, that some parsed sample overlaps |
| AttributionRules.ClaimRule | crates/af-core/src/attribution.rs:697-716 | a pid's claimants are the active spans that list it or, listing none, inherit it from the root tree: for each id as many entries as there are such spans |
| AttributionRules.PidSplit | crates/af-core/src/attribution.rs:669-687 | told from the spans: a pid's cpu time in the window is divided equally between the spans that own it, with one part for the orphans when it was orphan-tagged or nobody owns it, and counts as root time when it is a root pid |
| AttributionRules.RootTreeInherited | crates/af-core/src/attribution.rs:697-709 | a root pid no active span lists is split between exactly the active spans that list none, and is wholly orphaned when there is no such span |
| AttributionRules.InheritedWeights | crates/af-core/src/attribution.rs:642-691 | windows that see nothing but such pids give every pid-less active span an equal part of all the cpu time and orphan nothing; without such a span they orphan all of it |
| AttributionRules.InheritedPay | crates/af-core/src/attribution.rs:529-558 | the same for the joules a sample pays |
| Attribution.SharesAddUp | crates/af-core/src/attribution.rs:669-687 | what a pid's claimants and the orphan bucket receive is its whole delta inside the window, duplicate span ids included |
| Attribution.CpuWeights | crates/af-core/src/attribution.rs:648-691 | every span's weight, the orphan weight and the root weight are the sums of their equal shares, and together they are the observed cpu time: overlap fraction times longest delta per distinct pid |
| Attribution.CappedShare | crates/af-core/src/attribution.rs:543-557 | capping the active energy and then dividing it by weight is paying every weight at the one rate energy / max(W, C) |
| Attribution.PayByCpuTime | crates/af-core/src/attribution.rs:543-557 | each id is paid its weight at that rate, in the aggregate and in the sample's own map alike |
| Attribution.PayByWallClock | crates/af-core/src/attribution.rs:560-583 | each id is paid its wall-clock share at energy / max(1, sum of shares), so concurrent spans never over-attribute |
| Attribution.PlaceSample | crates/af-core/src/attribution.rs:505-591 | one sample's payments, orphaned part and baseline follow the policy its window calls for, and add up to its energy in both the aggregate and the sample's map |
| AttributionRules.JudgeIff | crates/af-core/src/attribution.rs:505-591 | wall clock divides a sample when no process window overlaps it and some span is open; cpu time when one does, unless no span is open and no cpu time was observed; else nothing does |
| AttributionRules.UnobservedIff | crates/af-core/src/attribution.rs:514-522 | a sample counts as unobserved when process windows overlap it and none of them lists a process |
| AttributionRules.CpuPay | crates/af-core/src/attribution.rs:529-558 | by cpu time the busy part of the sample, at most all of it, is divided in proportion to the weights and the rest is baseline |
| AttributionRules.WallPay | crates/af-core/src/attribution.rs:560-583 | by wall clock each id is paid for the instants its spans were open, scaled down when together they exceed the window |
| Attribution.ActiveRows | crates/af-core/src/attribution.rs:592-614 | trace rows show what was paid for their id, the cpu weight and the unscaled wall-clock shadow |
| Attribution.RowTotals | crates/af-core/src/attribution.rs:592-614 | rows read from a map add up to the ids they show, plus what repeated ids show again |
| AttributionRules.RowsTell | crates/af-core/src/attribution.rs:478-614 | a trace's rows: first the remote spans open during the sample, with nothing, then the active spans, each with the instants it was open, its cpu weight, what it was paid and its wall-clock part |
| AttributionRules.TraceTells | crates/af-core/src/attribution.rs:434-620 | the rest of a trace: the sample, the window's length, the policy that divided it, what was orphaned and left, the wall-clock parts in all and the root tree's cpu time |
| Attribution.ApportionSample | crates/af-core/src/attribution.rs:434-615 | one sample moves the aggregate by its own energy and leaves the trace the policy determines, which balances up to repeated rows |
| Attribution.Run | crates/af-core/src/attribution.rs:383-620 | conservation: spans + orphaned + baseline equal the energy of the samples whose timestamps parsed; every id, counter and trace is pinned to what the samples, windows and tree determine, and every trace balances up to repeated rows |
| AttributionLaws.PaymentBounds | crates/af-core/src/attribution.rs:543-591 | for non-negative energy every payment, the orphaned part and the baseline lie between zero and the sample's energy |
| AttributionLaws.WeightBounds | crates/af-core/src/attribution.rs:648-691 | no weight is negative or exceeds the cpu time observed |
| AttributionLaws.InactiveUnpaid | crates/af-core/src/attribution.rs:505-558 | only ids of attributable spans open during a sample are paid out of it |
| AttributionLaws.NeverPaid | crates/af-core/src/attribution.rs:416-558 | an id carried only by remote or zero-length spans receives no joules from any run |
| AttributionLaws.ShownIsPaid | crates/af-core/src/attribution.rs:592-614 | counting each id once, a trace shows exactly what its sample paid that id |
| AttributionLaws.TracesAgree | crates/af-core/src/attribution.rs:434-615 | summed over traces, rows per id, orphaned and baseline equal the aggregate's |
| AttributionLaws.OneTraceEach | crates/af-core/src/attribution.rs:434-438 | one trace per sample whose timestamps parsed |
| AttributionLaws.TableIgnoresOrder | crates/af-core/src/attribution.rs:661-667 | permuting process rows changes nothing |
| AttributionLaws.TableIgnoresShorterRow | crates/af-core/src/attribution.rs:661-667 | repeating a row, or adding a shorter one that tags nothing new, changes nothing |
| AttributionLaws.DependsOnTablesOnly | crates/af-core/src/attribution.rs:648-691 | two runs whose process windows agree up to those tables give every id, the orphans and the baseline the same joules |
| AttributionLaws.UnpaidIff | crates/af-core/src/attribution.rs:529-583 | an active span of a sample with energy goes unpaid exactly when cpu time divided the sample and it had none |
| AttributionLaws.TraceConservesIff | crates/af-core/src/attribution.rs:266-271 | told from spans, windows and sample alone: a trace adds up to its sample if and only if the sample is degenerate, has no energy, or gives every id that two active spans share no cpu time in a cpu-time window |
| AttributionLaws.RepeatedIdExample | crates/af-core/src/attribution.rs:592-611 | two active spans with one id make a trace exceed its sample |
| AttributionLaws.DistinctIdsConserve | crates/af-core/src/attribution.rs:266-271 | when no two spans active in the sample share an id, the rows, orphans and baseline of its trace are exactly its total |
| AttributionLaws.RunTracesConserve | crates/af-core/src/attribution.rs:266-271 | each trace of a run is one of its samples', adds up to it exactly under that condition, and always when its active ids are distinct |
| Joins.Correlate | crates/af-core/src/correlate.rs:83-116 | every action span whose times parsed, in order; root pids sorted without repeats and exactly those of bootstrap spans; the rest counted |
| Joins.SpansShow | crates/af-core/src/correlate.rs:86-112 | a span is collected exactly when some action span whose times parsed reports it, field by field |
| Joins.SpansInOrder | crates/af-core/src/correlate.rs:86-112 | spans keep the order of their events |
| Joins.SamplesShow | crates/af-core/src/replay.rs:268-310 | the energy and process samples are those the events carry |
| Joins.EnergyCoverageWindows | crates/af-core/src/join.rs:830-853 | the merged windows are sorted, strictly separated, and cover exactly the instants some sample covers |
| Joins.CoveredIsCount | crates/af-core/src/join.rs:859-868 | over separated windows the summed overlaps are the number of covered milliseconds |
| Joins.CoverageIsExact | crates/af-core/src/join.rs:859-868 | the coverage fraction is exactly covered milliseconds over length, so the clamp never acts |
| Joins.BuildJoins | crates/af-core/src/join.rs:199-340 | one record for the session, one per attributable span id, one per task id, none twice and in unit-key order; tool-call joules add up to the attributed breakdown even when events share a span id |
| Joins.SortKeeps | crates/af-core/src/join.rs:342-342 | sorting by unit key orders the records and loses, repeats or changes none |
| Joins.KeysSort | crates/af-core/src/join.rs:286-342 | in unit-key order the tasks precede the tool calls, and each of the two follows the order of its ids |
| Joins.SessionComesFirst | crates/af-core/src/join.rs:283-342 | in unit-key order the session's record is first |
| Joins.SessionIsWhole | crates/af-core/src/join.rs:230-255 | the session unit is charged exactly the energy of the parsed samples |
| Joins.UnpayableHasNoUnit | crates/af-core/src/join.rs:214-217 | an id carried only by remote or zero-length spans gets no tool-call unit |
| Joins.CoverageIsOf | crates/af-core/src/join.rs:822-868 | the fraction over the merged windows is the fraction of milliseconds some sample covers, for every interval |
| Joins.ExtremesAre | crates/af-core/src/join.rs:376-377 | the extent of a group of spans starts at its earliest start and ends at its latest end |
| Joins.GroupIs | crates/af-core/src/join.rs:290-340 | the group behind a tool call or task is exactly the local spans with a duration that carry its id or task, with their ids and their extent |
| Joins.UnitsAre | crates/af-core/src/join.rs:283-340 | the units are the session and each id and task such a span carries |
| Joins.JoinIsRecord | crates/af-core/src/join.rs:230-410 | told from the spans: a unit's record says what the ids of its spans were paid and how much of the time from their earliest start to their latest end was sampled, or nothing when nothing was measured |
| Joins.RecordsDerive | crates/af-core/src/join.rs:230-340 | records assembled over an apportionment that accounts for the samples carry the session's whole energy, split exactly, with exact coverage, for exactly the units the spans give |
| Joins.DeriveSession | crates/af-core/src/replay.rs:268-310 | the whole derivation from events: exactly one record per unit the spans give, in key order, each with the exact coverage from its spans' earliest start to their latest end; when energy was measured the session record is all of it, tool calls and tasks what their ids were paid and tool calls together the attributed part, when not no record carries any; no unpayable id is ever paid |
| DebugLog.Client.TrySend | crates/af-cli/src/cmd/debug_server.rs:294-301 | a non-blocking send is refused exactly when the reader is gone or its queue full, and otherwise continues that client's log without a gap |
| DebugLog.ReadsTheLog | crates/af-cli/src/cmd/debug_server.rs:296-379 | after its prelude, what a client has read is the log itself from its starting frame: no gap, duplicate or reorder, replay and live alike, and each frame under its own number, kind and data |
| DebugLog.DebugState.constructor | crates/af-cli/src/cmd/debug_server.rs:220-236 | an empty log with capacities of at least one keeps every invariant |
| DebugLog.DebugState.StoreAlloc | crates/af-cli/src/cmd/debug_server.rs:244-259 | a known allocation keeps its place, a new one goes last, and the oldest beyond the capacity leave map and order together |
| DebugLog.DebugState.StoreSessionPayload | crates/af-cli/src/cmd/debug_server.rs:385-410 | sessions and reports share one first-publication order of at most 256, and the evicted session leaves both maps |
| DebugLog.DebugState.QueueReportEviction | crates/af-cli/src/cmd/debug_server.rs:424-431 | pending evictions stay duplicate-free and bounded, forgetting the oldest |
| DebugLog.HintsCount | crates/af-cli/src/cmd/debug_server.rs:424-431 | of the different sessions evicted since the last report, exactly as many are forgotten as exceed 256 |
| DebugLog.OldestForgotten | crates/af-cli/src/cmd/debug_server.rs:424-431 | of sessions evicted once each, an eviction is forgotten exactly when 256 newer ones follow it |
| DebugLog.DebugState.RecordReport | crates/af-cli/src/cmd/debug_server.rs:261-275 | a report frame announces the newest 256 sessions evicted since the last one, its own eviction included; exactly the surplus over 256 is forgotten |
| DebugLog.DebugState.Publish | crates/af-cli/src/cmd/debug_server.rs:239-312 | one frame is appended, every invariant kept, and right after a report frame a client folding the log holds exactly the server's report keys if and only if every session it held whose eviction was forgotten, or that it held wrongly, is announced or named; always so from a right fold within the cap |
| DebugLog.ReportAfter | crates/af-cli/src/cmd/debug_server.rs:261-275 | a run: one report, n sessions without a report, one more report; the client's fold is right if and only if at most 256 sessions were evicted in between, and beyond that it keeps a session the server dropped |
| DebugLog.FoldAtReport | crates/af-cli/src/cmd/debug_server.rs:261-275 | dropping the announced evictions and adding the report's own session leaves the report keys plus only stale ones |
| DebugLog.DebugState.RingIsSuffix | crates/af-cli/src/cmd/debug_server.rs:303-311 | the ring is the newest part of the log, numbered without a gap and ending at next_seq - 1 |
| DebugLog.DebugState.Subscribe | crates/af-cli/src/cmd/debug_server.rs:327-379 | a cursor gets every later frame, in order, before going live; reset is sent exactly when the frame after the cursor has left the ring |
| DebugLog.DebugState.Resume | crates/af-cli/src/cmd/debug_server.rs:313-346 | a client that subscribes again with the id it read last is reset exactly when the next frame has left the ring, and otherwise reads exactly the frames after that one, each under its number |
| DebugLog.FreshTellsAll | crates/af-cli/src/cmd/debug_server.rs:349-377 | a client without a cursor is told of every session, every report and the latest health, once each; a report's notice has its session and version and announces nothing |
| DebugLog.NotificationShows | crates/af-cli/src/cmd/debug_server.rs:412-422 | a report notification carries the report's session, its level or "session", the version and the evictions announced |
| DebugLog.DebugState.Drain | crates/af-cli/src/cmd/debug_server.rs:859-876 | reading takes the oldest queued frame and changes no other client |
| DebugLog.DebugState.Snapshot | crates/af-cli/src/cmd/debug_server.rs:768-801 | the payloads in the window, and a cursor that is the newest number (-1 if none) if and only if the window is not negative or lets nothing through |
| DebugLog.PayloadsInOrder | crates/af-cli/src/cmd/debug_server.rs:784-791 | a snapshot lists payloads in frame order |
| DebugLog.PayloadOf | crates/af-cli/src/cmd/debug_server.rs:784-791 | a frame contributes its payload when it is of the kind listed and recently enough recorded |
| DebugLog.ParseWindowMs | crates/af-cli/src/cmd/debug_server.rs:1017-1025 | whatever a client asks for, the window is positive |
| DebugLog.DebugState.SnapshotRoute | crates/af-cli/src/cmd/debug_server.rs:677-680 | for every window a client can ask for, the cursor is the newest frame's number, -1 on an empty log |
| DebugLog.LastPassingIff | crates/af-cli/src/cmd/debug_server.rs:774-791 | over contiguously numbered frames the last one let through is the newest exactly when the newest passes or none does |
| EventStore.EventStore.constructor | console/src/lib/stores/eventStore.svelte.ts:152-157 | an empty store keeps every invariant |
| EventStore.IndexReplaces | console/src/lib/stores/eventStore.svelte.ts:285-311 | reconciling only the last bucket keeps the index exact if and only if the first bucket is unchanged |
| EventStore.MovedStartExample | console/src/lib/stores/eventStore.svelte.ts:285-311 | a span closed from a later bucket leaves its old bucket entry behind |
| EventStore.EvictMatches | console/src/lib/stores/eventStore.svelte.ts:228-243 | evicting the oldest fact removes its span's record exactly when no newer fact backs it |
| EventStore.PushMatches | console/src/lib/stores/eventStore.svelte.ts:277-330 | a new closed span's record points at the latest fact of its id |
| EventStore.RecordsShow | console/src/lib/stores/eventStore.svelte.ts:277-330 | the closed records are exactly the spans of the retained facts, each with the interval and detail its newest fact reports |
| EventStore.BucketIs | console/src/lib/stores/eventStore.svelte.ts:83-92 | a bucket is the two seconds from the store's origin that contain the time |
| EventStore.LastBucketIs | console/src/lib/stores/eventStore.svelte.ts:83-92 | an interval's last bucket is that of its last millisecond, or of its start when it has none |
| EventStore.WithoutKeepsOrder | console/src/lib/stores/eventStore.svelte.ts:333-336 | a span that closes leaves the other open spans in their order |
| EventStore.CountersTell | console/src/lib/stores/eventStore.svelte.ts:202-216 | the counters are the number of retained span facts, of facts of each other type, and of facts from each collector |
| EventStore.CountsDrop | console/src/lib/stores/eventStore.svelte.ts:202-211 | decrementing keeps a counter map equal to the counts over the window, with no zero entries |
| EventStore.CountsPush | console/src/lib/stores/eventStore.svelte.ts:213-216 | incrementing keeps a counter map equal to the counts over the window |
| EventStore.EventStore.EvictSlotAt | console/src/lib/stores/eventStore.svelte.ts:228-243 | evicting a slot keeps counters, span map, open queue and index consistent |
| EventStore.EventStore.IngestClosedSpan | console/src/lib/stores/eventStore.svelte.ts:277-330 | the record is replaced in place by one that shows the fact's interval and detail, and freed from the open queue; the index stays exact if and only if the start bucket does not move |
| EventStore.EventStore.IngestFact | console/src/lib/stores/eventStore.svelte.ts:252-275 | ring, counters, span map and open queue stay consistent with the history, the span map is the old one less the evicted record plus one that shows the fact, and the index stays exact if and only if the fact keeps its span's bucket |
| EventStore.EventStore.SameStartKeepsBucket | console/src/lib/stores/eventStore.svelte.ts:277-311 | a fact that gives its span the start already recorded keeps it in its bucket |
| EventStore.EventStore.IngestOpenSpan | console/src/lib/stores/eventStore.svelte.ts:356-395 | a known id is ignored; a new one joins a duplicate-free queue, displacing the oldest open span at the cap |
| EventStore.OverlapSharesBucket | console/src/lib/stores/eventStore.svelte.ts:430-456 | a record that overlaps an interval occupies one of the interval's buckets |
| EventStore.EventStore.SpansOverlapping | console/src/lib/stores/eventStore.svelte.ts:430-456 | on an exact index the result is, without duplicates, exactly the records a full scan would find: the span of every newest retained fact whose interval overlaps the query, as that fact reports it, and every open span that has started |
| EventStore.EventStore.RunOne | console/src/lib/stores/eventStore.svelte.ts:252-456 | while each span id keeps one start, any ingest, open, query or flush keeps every invariant and an exact index, and a query finds exactly the retained facts' spans and open spans that overlap it |
| EventStore.EventStore.Run | console/src/lib/stores/eventStore.svelte.ts:252-456 | the same for every run of such steps |
| EventStore.EventStore.RingFacts | console/src/lib/stores/eventStore.svelte.ts:476-488 | walking the ring from its oldest slot yields the last min(capacity, total) facts in order |
| EventStore.EventStore.Facts | console/src/lib/stores/eventStore.svelte.ts:476-488 | the cached list is that window whenever the store is not dirty |
| EventStore.EventStore.Flush | console/src/lib/stores/eventStore.svelte.ts:166-172 | one revision per flush that has something to publish, and no stale cache |
| Timeline.TrackPacker.AssignTrack | console/src/lib/selectors/timeline.ts:78-99 | a tracked span refreshes its own track; a new one takes the lowest track whose recorded end is not after its start, or none |
| Timeline.TrackPacker.Tick | console/src/lib/selectors/timeline.ts:244-282 | one recomputation prunes, refreshes spans that hold tracks in start order, then places new ones |
| Timeline.SortByStart | console/src/lib/selectors/timeline.ts:278-278 | sorting by start keeps every span once |
| TimelineOrphans.TrackableIff | console/src/lib/selectors/timeline.ts:243-256 | a recomputation looks at the spans that overlap the window and at every retained orphan that does not |
| TimelineOrphans.FirstPassEnds | console/src/lib/selectors/timeline.ts:270-281 | after the first pass a track is busy until its last-starting trackable span ends, or until now if that span is open or orphaned |
| TimelineOrphans.OrphanTailIsFree | console/src/lib/selectors/timeline.ts:270-282 | while the last-starting spans on a track are orphaned or open, no new span that starts before now is put on it |
| TimelineOrphans.OrphanRefreshed | console/src/lib/selectors/timeline.ts:244-281 | a retained orphan that holds a track is refreshed even when the window no longer shows it |
| TimelineRuns.CarryOver | console/src/lib/selectors/timeline.ts:261-270 | before refreshing, spans whose ends were seen are still apart and those out of sight still covered |
| TimelineRuns.AfterRefresh | console/src/lib/selectors/timeline.ts:279-281 | the first pass leaves every seen span's track recorded as busy at least until its end |
| TimelineRuns.PlaceNew | console/src/lib/selectors/timeline.ts:280-282 | placing new spans first-fit keeps spans on one track apart and covered |
| TimelineRuns.RunSound | console/src/lib/selectors/timeline.ts:254-282 | over every run these facts hold between recomputations |
| TimelineRuns.TracksNeverOverlap | console/src/lib/selectors/timeline.ts:44-77 | over every run, two retained spans on one track do not overlap and the track's recorded end is not before theirs, unless one closed unseen; TimelineOverlaps.OverlapIff says when they do overlap |
| TimelineRuns.VisibleNeverMissed | console/src/lib/selectors/timeline.ts:298-320 | no span the window shows is ever among the ones that closed unseen |
| TimelineRuns.TrackIsSticky | console/src/lib/selectors/timeline.ts:66-75 | a span keeps its track for as long as the store retains it |
| TimelineOverlaps.OverlapIff | console/src/lib/selectors/timeline.ts:44-99 | over every run, whatever was missed, two retained spans on one track overlap if and only if at some recomputation one took the track of the other, which had closed unseen, although it starts before the other ends |
| TimelineOverlaps.AllApartIff | console/src/lib/selectors/timeline.ts:44-99 | all pairs are apart after a run if and only if no pair ever clashed and stayed |
| TimelineOverlaps.StaysApartIff | console/src/lib/selectors/timeline.ts:254-282 | told from the packing before it, a recomputation leaves all pairs apart if and only if it finds them apart and no newcomer takes a missed span's track too early |
| TimelineOverlaps.CoveredIff | console/src/lib/selectors/timeline.ts:76-99 | told from the packing before it, after any misses, recorded ends are high enough if and only if each missed span's track stays covered |
| TimelineOverlaps.FirstMissIff | console/src/lib/selectors/timeline.ts:76-99 | when no close was missed before, that is if and only if each missed span's track is taken by a newcomer |
| TimelineOverlaps.SafeIffNoPause | console/src/lib/selectors/timeline.ts:254-282 | for a schedule of recomputations: no feed can make two spans on a track overlap if and only if no pause is longer than the window |
| TimelineOverlaps.PauseOverlaps | console/src/lib/selectors/timeline.ts:76-99 | every schedule with a longer pause has a feed that ends with two retained spans overlapping on track 0 |
| TimelineOverlaps.PausedCloseOverlaps | console/src/lib/selectors/timeline.ts:76-99 | a view recomputed at one second and again at five minutes packs two retained spans over each other |
| Spool.CountLinesBefore | crates/af-spool/src/tail.rs:159-174 | counting in chunks, with reads as short as the system likes, gives the number of newlines before the offset |
| Spool.Tail | crates/af-spool/src/tail.rs:79-151 | events, opaque events and rejects of the complete lines from the offset, or of the whole file after a truncation; the offset just past the last newline, and the counts of bytes and lines |
| Spool.AppendResumes | crates/af-spool/src/tail.rs:64-78 | reading a longer file is reading the shorter one, then resuming at its new offset |
| Spool.IncrementalIsBatch | crates/af-spool/src/tail.rs:64-151 | however a file grows between calls, the calls together return what one call over the final file would, and never see a truncation |
| Spool.RejectsLocate | crates/af-spool/src/tail.rs:44-63 | a reject is reported exactly when a whole record is refused, with the byte offset that finds it and line number one plus the newlines before it |
| Spool.EventsComplete | crates/af-spool/src/tail.rs:104-131 | an event is delivered, known or opaque, exactly when some whole, non-empty record parses to it that way |
| Spool.DeliversInOrder | crates/af-spool/src/tail.rs:104-131 | events, opaque events and rejects are those of the whole records, each once and in file order |
| Spool.PlacesList | crates/af-spool/src/tail.rs:104-131 | every file has such a list: all of its whole records, nothing else, in order |
| Spool.NothingLeft | crates/af-spool/src/tail.rs:64-78 | at the returned offset there is nothing more to read |
| Spool.ParsedNamePrints | crates/af-spool/src/lib.rs:62-82 | a spool file name that parses is its collector, a dot, its session and the extension, and printing it gives it back |
| Spool.PrintedNameParsesIff | crates/af-spool/src/lib.rs:62-82 | a printed key reads back as itself if and only if neither part is empty and the collector has no dot |
| Spool.KeysNameFiles | crates/af-spool/src/lib.rs:72-82 | two file names with one key are the same file |
| RawStore.InsertAllMeaning | crates/af-store/src/raw.rs:65-102 | an insert adds every missing id, changes no row, and adds nothing else |
| RawStore.FirstWriterWins | crates/af-store/src/raw.rs:61-102 | of two new events with one id the first is stored |
| RawStore.InsertTwice | crates/af-store/src/raw.rs:61-102 | delivering a batch twice is delivering it once |
| RawStore.Store.InsertEvents | crates/af-store/src/raw.rs:65-102 | the table gains the batch, first writer winning, and the count is of new rows |
| RawStore.Store.InsertOpaqueEvents | crates/af-store/src/raw.rs:26-52 | the same for opaque events |
| RawStore.Store.SetOffset | crates/af-store/src/raw.rs:175-184 | reading the offset back gives what was set; every other key's offset, and both tables, stay |
| Ingest.IngestFile | crates/af-cli/src/cmd/ingest.rs:181-245 | one file's events and opaque events are inserted before its offset moves, and the summary grows by exactly what was new |
| Ingest.IngestFiles | crates/af-cli/src/cmd/ingest.rs:165-259 | the store ends where a pass over the readable files leaves it, and the summary reports that pass; a missing file stops it with the earlier files done |
| IngestLaws.FileRetry | crates/af-cli/src/cmd/ingest.rs:181-245 | retrying a file after a crash inside it ends as if there had been none |
| IngestLaws.CrashLeavesNoTrace | crates/af-cli/src/cmd/ingest.rs:165-259 | a pass stopped after any store step and run again leaves the same rows and offsets |
| IngestLaws.SecondPassIsIdle | crates/af-cli/src/cmd/ingest.rs:5-8 | a second pass on an unchanged spool inserts and rejects nothing |
| IngestLaws.StatesAreStored | crates/af-cli/src/cmd/ingest.rs:181-245 | the offset a pass reports for a file is the one it leaves stored |
| IngestLaws.RejectsAreFound | crates/af-cli/src/cmd/ingest.rs:181-245 | every reject a pass reports names a file and an offset at which the refused line stands, and its line number |
| IngestLaws.UnchangedFilesMayBeSkipped | crates/af-cli/src/cmd/ingest.rs:139-164 | a targeted pass over any set containing every file with something left matches a full scan |
| IngestRuns.PassKeepsSound | crates/af-cli/src/cmd/ingest.rs:165-259 | after any store step, everything before a stored offset is stored and every row comes from the spool |
| IngestRuns.RunIsSound | crates/af-cli/src/cmd/ingest.rs:165-259 | the same after any history of appends, interrupted passes and retries |
| IngestRuns.IngestConverges | crates/af-cli/src/cmd/ingest.rs:114-164 | after any history, one pass over the files with anything left stores an id exactly when a complete line of the spool carries it and puts every offset just past the last newline |
| IngestRuns.CompleteIsUnique | crates/af-store/src/raw.rs:65-102 | two stores complete for one spool agree on ids and offsets, and on rows when an id determines its event |
| EstimatorWorker.EstimatePass | crates/af-cli/src/cmd/estimator_worker.rs:90-127 | a failed query hides a failed zone lookup, either prevents estimation, and the zone is remembered as soon as its factors arrive |
| EstimatorWorker.PassReports | crates/af-cli/src/cmd/estimator_worker.rs:90-127 | an update is free of errors exactly when the query, any lookup needed and any estimation attempted succeeded; it names the zone when it looked it up, the sessions found, and an outcome only then |
| EstimatorWorker.ZoneRetried | crates/af-cli/src/cmd/estimator_worker.rs:93-106 | a zone is resolved once its factors have arrived and not before, so a failed lookup is made again by the next pass |
| EstimatorWorker.MergedAllMeaning | crates/af-cli/src/cmd/estimator_worker.rs:192-209 | coalescing updates adds the five counters, unites the sessions, keeps the last pending count and loses no error or zone |
| EstimatorWorker.NewestWins | crates/af-cli/src/cmd/estimator_worker.rs:192-209 | coalescing keeps the newest error and the newest zone |
| EstimatorWorker.CountersAddUp | crates/af-cli/src/cmd/estimator_worker.rs:200-204 | each of the five counters adds up on its own |
| EstimatorWorker.InvStep | crates/af-cli/src/cmd/estimator_worker.rs:82-141 | every step of either thread keeps the protocol's invariant |
| EstimatorWorker.AlwaysInv | crates/af-cli/src/cmd/estimator_worker.rs:82-190 | the invariant holds after every schedule |
| EstimatorWorker.RunGoesOn | crates/af-cli/src/cmd/estimator_worker.rs:82-190 | schedules start idle and may go on with any step that is enabled |
| EstimatorWorker.UpdatesDeliveredOnce | crates/af-cli/src/cmd/estimator_worker.rs:129-172 | the completions taken, then the slot, are the merged updates in order, each exactly once |
| EstimatorWorker.OutcomesConserved | crates/af-cli/src/cmd/estimator_worker.rs:129-224 | outcomes merged equal outcomes taken plus outcomes in the slot, and health counts each update once |
| EstimatorWorker.UnreadIsAnnounced | crates/af-cli/src/cmd/estimator_worker.rs:129-131 | an unread update always has a token, a worker about to send one, or an owner about to take |
| EstimatorWorker.QuietSlotIsTakeable | crates/af-cli/src/cmd/estimator_worker.rs:168-172 | with the worker blocked, one take returns everything unread |
| EstimatorWorker.RequestsAreHeard | crates/af-cli/src/cmd/estimator_worker.rs:154-166 | no wakeup is lost: until a setting is read, a token or a step in progress leads the worker to it |
| EstimatorWorker.SettingsAreRead | crates/af-cli/src/cmd/estimator_worker.rs:84-166 | over every schedule the latest setting requested is the one configured, and a pass runs under the setting the worker read last |
| EstimatorWorker.BlockedMeansFinished | crates/af-cli/src/cmd/estimator_worker.rs:84-138 | a worker blocked without a token has read the latest setting, and had no request, an error, nothing pending, or a stop; the missing-configuration branch never runs |
| EstimatorWorker.RewakesOnlyForMore | crates/af-cli/src/cmd/estimator_worker.rs:133-138 | over every schedule the worker only wakes itself when its last pass succeeded and left something pending |
| EstimatorWorker.HealthTellsLast | crates/af-cli/src/cmd/estimator_worker.rs:211-225 | over every schedule, between a pass reported and the next begun, health shows the last update: its pending count, its error, and degraded or idle |
| EstimatorWorker.DropReturns | crates/af-cli/src/cmd/estimator_worker.rs:182-190 | after a stop at most 13 steps remain in any schedule, and none can end before the join has returned |
| Sampler.SampleWatch | python/af_sampler/__main__.py:519-545 | each live pid gets one entry with the rounded non-negative delta from its last reading, dead and failed ones none |
| SamplerRules.EntryOf | python/af_sampler/__main__.py:519-545 | each live pid of a watch has an entry with the milliseconds since its last reading, never below zero, its memory and its orphan tag |
| SamplerRules.EntriesOnly | python/af_sampler/__main__.py:519-545 | every entry is such a live pid's |
| SamplerRules.EntriesOnce | python/af_sampler/__main__.py:519-545 | each live pid has one entry, the others none |
| SamplerRules.ReadingOf | python/af_sampler/__main__.py:519-545 | a live pid leaves its reading behind, a dead or unreadable one its last |
| Sampler.WindowTelescopes | python/af_sampler/__main__.py:519-545 | within one window, a pid's reported milliseconds track its readings to half a millisecond per report |
| Sampler.CpuIsReported | python/af_sampler/__main__.py:487-505 | the cpu time a session's energy is shared out by is the total its process sample reports |
| Sampler.SharesAreWhole | python/af_sampler/__main__.py:469-477 | the sessions' shares add up to one, with or without cpu time |
| Sampler.EnergyConserved | python/af_sampler/__main__.py:465-485 | one energy event per session, and the slices of each component add up to the tracker's reading |
| SamplerRules.ComponentsShow | python/af_sampler/__main__.py:427-463 | cpu, dram and total are always reported and gpu when known or used, each from its own field in joules, with its method, the total with the cpu's |
| SamplerRules.ShareIs | python/af_sampler/__main__.py:469-477 | a session's share is its part of all the cpu time, or an equal part when there was none |
| SamplerRules.EnergyShows | python/af_sampler/__main__.py:478-485 | each session's event covers the window and carries its share of every component |
| SamplerLoop.Sampler.OpWatch | python/af_sampler/__main__.py:332-354 | a watch gets its session's spool first, then baselines, then its place; a failure in between adds no watch |
| SamplerLoop.WatchTakesEffect | python/af_sampler/__main__.py:346-354 | a usable watch op replaces the watch of its own span and no other, with baselines read then and there; an unusable one adds none |
| SamplerRules.AskedIff | python/af_sampler/__main__.py:332-354 | a watch op takes effect when it names a session and a span, lists pids, has or gets a spool, and every pid can be read |
| SamplerRules.UnwatchOrphans | python/af_sampler/__main__.py:356-365 | an unwatch op orphans the one watch it names from the moment given, and touches nothing else |
| SamplerRules.RemoveDrops | python/af_sampler/__main__.py:252-260 | removing a session drops its spool and its watches, and no others |
| SamplerRules.SurvivesIff | python/af_sampler/__main__.py:487-505 | a watch outlives a window while it is not orphaned, or was orphaned under 60 seconds ago and has a live process |
| SamplerRules.ResampledKeeps | python/af_sampler/__main__.py:519-545 | a watch that outlives a window keeps its span, pids and orphan mark |
| SamplerLoop.Sampler.ApplyOp | python/af_sampler/__main__.py:303-363 | every op, usable or not, keeps the sampler valid |
| SamplerLoop.KeptIff | python/af_sampler/__main__.py:487-505 | a window keeps exactly the open watches and the orphans that are both under 60 seconds old and alive |
| SamplerLoop.WindowEmits | python/af_sampler/__main__.py:381-412 | a closing window writes one energy sample per session only when there was a reading, then one process sample per session always |
| SamplerLoop.Sampler.CloseWindow | python/af_sampler/__main__.py:381-425 | energy events only when the tracker had a reading, process events always, and a tracker that failed is replaced unless this is the last window |
| SamplerLoop.Sampler.Tick | python/af_sampler/__main__.py:213-216 | the open window is closed and the next one opened |
| SamplerRules.TickOpens | python/af_sampler/__main__.py:367-425 | a boundary opens the next window, measured only with a tracker that could be started; a tracker is kept after a reading and replaced after a window without one |
| SamplerLoop.Sampler.Finish | python/af_sampler/__main__.py:218-240 | each session's last window is written exactly once, energy only from a reading and its processes always; without a window nothing is written; afterwards nothing is open |
| SamplerLoop.RunLoop | python/af_sampler/__main__.py:656-696 | the loop is the fold of its arrivals: ops queue, a due window ticks and then applies them, a shutdown returns |
| SamplerLoop.OpsNeverReachTheirWindow | python/af_sampler/__main__.py:660-666 | whatever ops arrive during a window, the events written when it closes are the same |
| SamplerLoop.ShutdownIsImmediate | python/af_sampler/__main__.py:667-672 | a shutdown leaves the window in flight as it is and applies no waiting op |
| SamplerRules.PingsAnswered | python/af_sampler/__main__.py:667-690 | until the shutdown every ping is answered, once and in order |
| SamplerRules.OpsApplyAtTheTick | python/af_sampler/__main__.py:677-685 | the ops that arrive during a window are applied in order right after it has closed and the next has opened |
| SamplerLoop.RunStaysValid | python/af_sampler/__main__.py:252-260 | from any valid state, at every moment of every run, each watch's session has an output and each watched pid a baseline |
| SamplerRuns.WindowWrites | python/af_sampler/__main__.py:381-412 | what a closing window writes for a session is exactly the entries it collected for it |
| SamplerRuns.OneReports | python/af_sampler/__main__.py:487-505 | a session's entries report of a pid at least what one of its watches does, and exactly that when no other watch of the session holds the pid |
| SamplerRuns.RunTelescopes | python/af_sampler/__main__.py:519-545 | over any run that keeps a watch, the milliseconds the spool's process samples report of a pid are the cpu time between its first reading and its last: never more than half a millisecond a report below, and as little above when no reading falls and no other watch of the session holds the pid |

## Left out

- IEEE-754 rounding of joules and shares, `i64`/`u64` overflow and saturation: values are exact, as the code's own claims are.
- RFC 3339 parsing and formatting, JSON, SQLite, HTTP and SSE framing, CORS and the file system: timestamps arrive parsed, tables are maps, frames are values.
- Lossy UTF-8 decoding of a spool line: a rejected line is kept as its bytes.
- The quarantine archive, which a retried pass writes to again, and the ingest timing metrics.
- A spool file growing in the middle of one read: each read sees one length.
- TailResult.validation_duration and the order in which a directory scan lists files: the lemmas hold for every order.
- The remote and combined halves of an impact record, llm-call matching, and zone factors.
- Span fields that no decision reads (tool kind, attribution other than the task id).
- DebugLog.DebugState.Subscribe: the order of the sessions and reports sent to a client without a cursor is the map's walking order, whichever that is, not the sorted one.
- DebugLog.ParseWindowMs: the query string is an already-parsed optional integer, and seconds times 1000 never overflows.
- DebugLog.DebugState.Snapshot: the constant `open_spans` list and the lookups of single sessions, reports and allocations are not modelled.
- Cursors below -1 or past the newest frame come from no server; the contract of Subscribe still says what they get.
- EventStore lists of decisions, rejects, gaps and watchdog entries, and per-collector last-seen times: independent bounded lists.
- Aliasing of span records: a record handed out by a query is the value at that moment.
- TimelineRuns.TracksNeverOverlap: runs without orphaned entries and with positive-length closed spans, which is where the packing is meant to hold; an orphan's tail or a zero-length span can end before a span packed after it.
- Bars, lanes other than spans, and all other selectors of the console.
- EstimatorWorker.AlwaysInv: atomic steps are sequentially consistent and locks never poisoned; the thread loop is a state machine over those steps rather than a running loop.
- What an estimation writes to the store.
- SamplerLoop.RunLoop: when a window falls due is decided by the queue's timeout, here an arbitrary arrival; deadlines and intervals are not computed.
- SamplerLoop.RunStaysValid: holds until the final close, which releases every output while watches remain.
- Spool paths, id sanitising, method detection, the tracker and process-table implementations, and event ids and timestamps of emitted lines.
