# Projection store, availability history and sessions: verified model

This project models, in Dafny, three parts of the control panel's API and proves what they keep.

**The Sinc / Roteador projection store.** Event batches and supplement batches arrive any number of
times, in any order, at any number of API replicas. `JsValues`, `Canonical`, `Envelope`, `Descriptors`
and `Records` cover what happens before a table is touched: the bounded traversal of an untrusted
value, the copy of it, and the sorted-key printer whose text is hashed; `HashedMembers` is what the
hashed objects hold, `Instants` what their timestamps mean. `ProjectionStore` and `ProjectionHistory`
are the event tables with their head index; `SupplementRecords`, `SupplementStore` and
`SupplementLinks` the supplements linked to stored events, `SupplementHistory` whole runs of deliveries
to them; `Interleaving` runs both endpoints statement by statement. `RevisionGaps`, `ModelTree` and
`ExperimentPairs` are the aggregates of the Roteador dashboard, `DashboardChecks` the checks it makes
of the rows it reads.

**Observation, event log, rollup.** `ContainerTrack` is what a tick remembers and emits for one
container, `AbortedTicks` runs of ticks some of which abort there, `AbortedAlerts` and
`AbortedDowntime` what becomes of alerts and downtime over them, `MetricsScheduler` the tick itself
over its maps, including ticks that are skipped or abort. `Availability` and `AvailabilityRollup` sweep
the written events into downtime per bucket, `ObservedAvailability` sets the rows they store against
what the scheduler saw; `Reliability` is the second downtime computation. `Percentile`, `MetricRollup`
and `DailyAgainstHourly` are the sample rollups, `Retention` and `EventRetention` what the purge jobs
do to them.

**Sessions.** `Sessions` is refresh-token rotation and consumption of one-time codes as interleaved
statements over shared rows.

Conventions. Times are integer milliseconds. Texts are sequences of UTF-16 code units. Floating-point
values are exact reals; for sample sizes that fit in memory `n * 0.95` needs no special care, because
the float product is exact where it is whole (multiples of 20) and crosses no integer elsewhere.
SHA-256 and HMAC are represented by the text they are applied to, that is, taken to be injective. All
clocks of one run (application and database) are one clock that does not run backwards, except that the
scheduler keeps the tick's clock and the row's timestamp apart; there the timestamps of one tick are
later than those of all earlier ticks (`MetricsScheduler.Stamped`). A container's presence is what the
ticks saw of it since it was last absent from a completed one; results that say exactly when of a
presence take its observations to have different timestamps, at least the first. A quoted string
follows section 7 of RFC 8259. For safe integers the printer's output is the form of section 3.2.3 of
RFC 8785; negative zero is printed as 0, which is why the relation `Same` ignores the sign of zeros.

Lemmas are written with explicit induction throughout, and `hide` statements keep definitions out of
proofs that do not need them.

## What the proofs found

- A tick writes the row of a change before it remembers the observation, and between the two awaits
  the alerts that are due. When such a dispatch fails, the log and the memory part, and a recovery by the
  next tick is lost until the next change: the log stays "exited" while the container runs, and rollup
  rows say it was down all the time. `AbortedTicks.LogIsRightIff` gives the exact condition over every
  run, `AbortedTicks.LossNeedsAFailedAlert` and `AbortedTicks.LostUntilNextChange` cause and duration,
  `AbortedTicks.FlappingAbortLosesRecovery` a run in which it happens. Ticks that abort elsewhere do the
  log no harm.
- The same failed dispatch, if it is that of the unhealthy alert, is not made up for: the streak stays
  at 2, the next observation makes it 3, and nobody is told for the rest of the stretch
  (`AbortedAlerts.StretchGetsItsAlertIff`). And the next tick counts the same restarts and the same
  transition a second time (`AbortedAlerts.PushesAddUp`, `AbortedAlerts.PushedOnceIff`).
  `AbortedAlerts.FailedDispatchMisleads` is a run with all of it: two restarts and two transitions are
  reported as a crash loop of four and as flapping.
- With aborts anywhere, rollup rows report the observed downtime exactly when no failed attempt wrote a
  row that disagrees on running with what stayed remembered, besides the condition below
  (`AbortedDowntime.RunDowntimeExactlyWhen`; for incidents `AbortedDowntime.RunIncidentsExactlyWhen`).
- The rollup takes the latest row before a bucket from all rows of the container, also from those of an
  earlier presence, and assumes "running" if there is none. The observed downtime is therefore
  recovered in all buckets after the older rows exactly when that row and the first observation agree
  on running or not (`ContainerTrack.LosslessExactlyWhenStatesAgree`, for incidents
  `ContainerTrack.IncidentsExactlyWhen`). A container that was stopped, absent for one completed tick and
  created again counts as down while it runs (`ContainerTrack.StaleRowCountsAsDown`).
- Deleting state events after 180 days turns an outage longer than that into full availability.
  `EventRetention.DowntimeSurvives` and `EventRetention.IncidentsSurvive` give the exact conditions,
  `EventRetention.LongOutageVanishes` an instance. The sample rollups are not affected by purging.
- The two downtime computations differ for a container that is not running at the window's start
  (`Reliability.FoldMeasures` for exactly when).

## Model

| member | source | states |
|---|---|---|
| Canonical.RoundTrip | apps/api/src/sinc/sinc.schema.ts:77-89 | parsing the printer's output with an independent JSON parser consumes all of it and gives the value back with object keys sorted at every depth (which order that is: `Canonical.HashedKeysRise`) |
| Canonical.CharsRoundTrip | apps/api/src/sinc/sinc.schema.ts:79 | quoting loses nothing: pairs, lone surrogates, control characters, quotes and backslashes read back unit by unit |
| Canonical.HashedKeysRise | apps/api/src/sinc/sinc.schema.ts:84 | the hashed text parses to a value in which, at every depth, each key comes before the next by its first different code unit, a prefix before what it is a prefix of |
| Canonical.EscapeLengths | apps/api/src/sinc/sinc.schema.ts:79 | how many letters each escape takes: with the round trip, texts are written in the one shortest way, control characters and lone surrogates escaped |
| Canonical.QuotedLength | apps/api/src/sinc/sinc.schema.ts:79 | how long a quoted text is: pairs of surrogates are written as they are, also at its end |
| Canonical.Punctuation | apps/api/src/sinc/sinc.schema.ts:81-86 | brackets, commas and colons, and the key that comes first printed first |
| Canonical.WordsAndBrackets | apps/api/src/sinc/sinc.schema.ts:79-86 | the words of JSON, empty containers, the sign of numbers |
| Canonical.SameNormal | apps/api/src/sinc/sinc.schema.ts:84 | sorting keys at every depth makes two values equal exactly when they differ only in key order (and the sign of zeros) |
| Canonical.HashIdentifies | apps/api/src/sinc/sinc.schema.ts:77-89 | two values share a hash if and only if they differ only in key order; unhashable values share none |
| Envelope.HashableMeans | apps/api/src/sinc/sinc.schema.ts:80-88 | a value can be hashed exactly when on every path into it there is plain data, and numbers are whole and of at most 53 bits |
| Envelope.AssertSafe | apps/api/src/sinc/sinc.schema.ts:45-67 | the explicit-stack traversal terminates and accepts exactly the values of an order-free recursive predicate: node count, depth, entries per node, key and text limits, total bytes |
| Envelope.CheckNode | apps/api/src/sinc/sinc.schema.ts:52-64 | one node: its own limits, its key bytes, and the stack with exactly its children pushed |
| Envelope.ByteLengthIsEncodedLength | apps/api/src/sinc/sinc.schema.ts:52 | the byte length that is added up is that of the UTF-8 encoding, lone surrogates replaced |
| Envelope.Utf8Decodes | apps/api/src/sinc/sinc.schema.ts:52 | the encoding is UTF-8: bytes in its ranges from which the code point can be read back |
| Envelope.EncodedAreBytes | apps/api/src/sinc/sinc.schema.ts:52 | every text is encoded in bytes, pairs and lone surrogates included |
| Envelope.SafeMeans | apps/api/src/sinc/sinc.schema.ts:45-67 | acceptance over paths into the value, with the numbers: depth 8, 100 entries, keys of 64 and texts of 128 code units, 8000 nodes, 65536 bytes |
| Descriptors.CloneDescriptorData | apps/api/src/roteador/roteador.schema.ts:23-57 | copies exactly the clean values and refuses all others; the copy equals the value with zeros for negative zeros, keys in the same order |
| Descriptors.CloneFields | apps/api/src/roteador/roteador.schema.ts:48-56 | the loop that fills the output key by key |
| Descriptors.CopyKeepsTheHash | apps/api/src/roteador/roteador.schema.ts:129-138 | the hash checks made on the copy are checks of what was received, and cannot throw |
| Descriptors.CleanIsPrintable | apps/api/src/roteador/roteador.schema.ts:23-34 | without text inspection the copy refuses exactly what the printer refuses; with it, never less |
| Descriptors.CopyTwice | apps/api/src/roteador/roteador.schema.ts:23-57 | copying a copy is accepted and changes nothing |
| Records.ContentHashInjective | apps/api/src/sinc/sinc.service.ts:84 | events with equal content hashes are the same event, field by field |
| Records.BodyHashInjective | apps/api/src/sinc/sinc.schema.ts:73-74 | batches that declare the same true hash are the same batch |
| Records.DaysAreCounted | apps/api/src/sinc/sinc.service.ts:96 | the calendar arithmetic behind `Date.parse` counts days: 1970-01-01 is day 0 and the day after any valid date has the next number, leap years included |
| Instants.EpochOfFields | apps/api/src/sinc/sinc.schema.ts:8-16 | parsing an admissible instant gives the milliseconds its fields name |
| Instants.InstantsMove | apps/api/src/sinc/sinc.service.ts:96 | the same local time west of Greenwich is later and east of it earlier, by hours and minutes of the offset; one second, minute, hour or day more is that much later; 1970-01-01T00:00:00Z is 0 |
| HashedMembers.EventIdentity | apps/api/src/sinc/sinc.schema.ts:21-24 | the object hashed for an event has twelve members; the version and the two identifiers are under their names |
| HashedMembers.EventSubject | apps/api/src/sinc/sinc.schema.ts:23-24 | so are project, entity, revision and instant |
| HashedMembers.EventParts | apps/api/src/sinc/sinc.schema.ts:25-29 | so are source, state, route, policy and metrics |
| HashedMembers.SourceMembers | apps/api/src/sinc/sinc.schema.ts:25 | the members of the source |
| HashedMembers.RouteMembers | apps/api/src/sinc/sinc.schema.ts:27 | the members of a route |
| HashedMembers.PolicyMembers | apps/api/src/sinc/sinc.schema.ts:28 | the members of the policy |
| HashedMembers.MetricsMembers | apps/api/src/sinc/sinc.schema.ts:29 | the members of the metrics, null where a number is missing |
| HashedMembers.BatchIdentity | apps/api/src/sinc/sinc.schema.ts:37-38 | the object a batch declares the hash of has six members, version and identifiers under their names |
| HashedMembers.BatchContents | apps/api/src/sinc/sinc.schema.ts:37-41 | the object a batch declares the hash of holds its events whole and in order |
| HashedMembers.SupplementIdentity | apps/api/src/roteador/roteador.schema.ts:79-83 | the object whose hash is the key of a supplement has thirteen members, the identifying ones under their names |
| HashedMembers.SupplementLink | apps/api/src/roteador/roteador.schema.ts:84-87 | so are entity, revision, decision hash and instant |
| HashedMembers.SupplementModels | apps/api/src/roteador/roteador.schema.ts:88-90 | so are the matched rules in order and both model identifiers |
| HashedMembers.SupplementExperiment | apps/api/src/roteador/roteador.schema.ts:91-104 | so are the experiment and both of its hashes |
| HashedMembers.ExperimentIdentity | apps/api/src/roteador/roteador.schema.ts:91-95 | the experiment has nine members, the identifying ones, arm and state under their names |
| HashedMembers.ExperimentResults | apps/api/src/roteador/roteador.schema.ts:96-97 | so are its results, null where missing |
| HashedMembers.ExperimentNumbers | apps/api/src/roteador/roteador.schema.ts:98-100 | so are its costs and its score |
| HashedMembers.SupplementWithKey | apps/api/src/roteador/roteador.schema.ts:106-109 | its content hash is of the same object with the key added |
| HashedMembers.SupplementHashes | apps/api/src/roteador/roteador.schema.ts:108-109 | these two objects are what the two hashes of a supplement are taken of |
| HashedMembers.SupplementBatchIdentity | apps/api/src/roteador/roteador.schema.ts:113-117 | the object whose hash is the key of a supplement batch has five members, the identifying ones under their names |
| HashedMembers.SupplementBatchContents | apps/api/src/roteador/roteador.schema.ts:117-118 | so are its instant and its supplements |
| HashedMembers.SupplementBatchWithKey | apps/api/src/roteador/roteador.schema.ts:136-137 | the batch hash is of the batch with its key, which is the hash of the batch without either |
| SupplementRecords.BodyHashInjective | apps/api/src/roteador/roteador.schema.ts:108-109 | the hash a supplement must carry as its idempotency key identifies everything else in it |
| SupplementRecords.ContentHashInjective | apps/api/src/roteador/roteador-dashboard.service.ts:179 | supplements with equal content hashes are the same supplement |
| SupplementRecords.KeyedHashInjective | apps/api/src/roteador/roteador.schema.ts:136-137 | batches that declare the same true batch hash are the same batch |
| ProjectionStore.SincService.Ingest | apps/api/src/sinc/sinc.service.ts:69-107 | tables and reply after one call, in every case, are those of the specification `Ingested` |
| ProjectionStore.InsertEvents | apps/api/src/sinc/sinc.service.ts:82-104 | the insertion loop computes the specification's fold, stopping at the first clash |
| ProjectionHistory.IngestMeaning | apps/api/src/sinc/sinc.service.ts:77-106 | a batch is accepted if and only if stored and new records pairwise are identical or share no identity key; the tables then hold exactly the old and new records with agreeing heads, the counters add up to the batch; refusal changes nothing |
| ProjectionHistory.FirstDelivery | apps/api/src/sinc/sinc.service.ts:71-106 | on empty tables exactly a batch is accepted that has 1 to 100 events of project roteador with different identifiers, keys and revisions of entities and declares its true hash; all its events are then inserted |
| ProjectionHistory.MalformedIsBadRequest | apps/api/src/sinc/sinc.service.ts:71-73 | exactly a batch that breaks one of the rules on itself, spelled out, is a bad request; every other is accepted or in conflict |
| ProjectionHistory.ProcessMeaning | apps/api/src/sinc/sinc.service.ts:83-104 | a sequence of events goes through exactly when nothing clashes, wherever in the sequence the clash is |
| ProjectionHistory.Reachable | apps/api/src/sinc/sinc.service.ts:69-107 | every reachable state holds exactly the accepted batches, their events and agreeing heads |
| ProjectionHistory.AllAcceptedMeaning | apps/api/src/sinc/sinc.service.ts:77-105 | a whole delivery list is accepted if and only if the set of its batches is free of clashes |
| ProjectionHistory.Confluence | apps/api/src/sinc/sinc.service.ts:77-105 | any permutation with any repetitions of an accepted delivery list is accepted too and yields the same event, head and batch tables |
| ProjectionHistory.HeadsInEveryRun | apps/api/src/sinc/sinc.service.ts:94-103 | in every reachable state an entity has a head exactly when it has events, and the head is its event of highest revision |
| ProjectionHistory.HeadsOnlyRise | apps/api/src/sinc/sinc.service.ts:99-102 | no delivery removes a head or lowers its revision |
| ProjectionHistory.Redelivery | apps/api/src/sinc/sinc.service.ts:77-81 | delivering an accepted batch again, after anything else, changes no table and reports a batch replay of its length |
| ProjectionHistory.IngestConserves | apps/api/src/sinc/sinc.service.ts:78-106 | on acceptance inserted plus replayed is the batch length and the event table grows by exactly inserted; otherwise no table changes, whatever was inserted before the conflict |
| ProjectionHistory.InsertedAreTheNew | apps/api/src/sinc/sinc.service.ts:82-104 | for a batch not seen before, inserted counts its events that are new and replayed those already stored |
| ProjectionHistory.RowsMirrorEvents | apps/api/src/sinc/sinc.service.ts:94-98 | in every reachable state a row's columns, hash and instant are those of the event it stores, and that event was in an accepted batch |
| ProjectionHistory.BatchRowsMirrorBatches | apps/api/src/sinc/sinc.service.ts:104-106 | so are the columns of a batch row those of an accepted batch |
| SupplementStore.RoteadorDashboardService.IngestSupplements | apps/api/src/roteador/roteador-dashboard.service.ts:161-207 | tables and reply after one call are those of the specification `Linkage` over the event table it reads |
| SupplementStore.LinkSupplements | apps/api/src/roteador/roteador-dashboard.service.ts:174-196 | the linking loop computes the specification's fold, with its two kinds of refusal |
| SupplementHistory.DeliveryMeaning | apps/api/src/roteador/roteador-dashboard.service.ts:167-202 | a batch is accepted if and only if each of its supplements names a stored event that agrees and stored and new records pairwise are identical or share no identity key; inserted plus replayed is then its length and the table grows by inserted; it is reported as a batch replay if and only if it was accepted before; refusal and replay change nothing |
| SupplementHistory.FirstDelivery | apps/api/src/roteador/roteador-dashboard.service.ts:161-202 | where no supplement is stored, exactly a batch is accepted that has 1 to 100 supplements of project roteador with different identifiers, keys and links and true hashes, each naming a stored event with the same decision and instant; all are then inserted |
| SupplementHistory.MalformedIsBadRequest | apps/api/src/roteador/roteador-dashboard.service.ts:161-177 | a batch of supplements that breaks one of the rules on itself is a bad request and changes nothing; one that breaks none and whose events are all stored never is |
| Instants.InstantDecides | apps/api/src/roteador/roteador-dashboard.service.ts:175-178 | a single new supplement whose event is stored with the same decision hash is linked if the two instants are the same, however they are written, and refused as divergent if not |
| SupplementHistory.LinkAllMeaning | apps/api/src/roteador/roteador-dashboard.service.ts:174-196 | the loop goes through exactly when every supplement is linked and nothing clashes, wherever in the sequence; it counts the new ones as inserted and all others as replayed |
| SupplementHistory.SerialSupplements | apps/api/src/roteador/roteador-dashboard.service.ts:167-202 | after any sequence of deliveries to both endpoints the supplement tables hold exactly the accepted batches and their supplements, consistent with the stored events |
| SupplementHistory.SupplementsConserve | apps/api/src/roteador/roteador-dashboard.service.ts:167-202 | after any sequence of deliveries: acceptance, counts, growth of the table and replay report of the next batch, in terms of the batches accepted so far |
| SupplementHistory.SupplementRedelivery | apps/api/src/roteador/roteador-dashboard.service.ts:168-172 | an accepted batch delivered again, after anything else, changes no table and is reported as a replay of its length |
| SupplementHistory.AcceptedStaysKnown | apps/api/src/roteador/roteador-dashboard.service.ts:197-200 | an accepted batch keeps its one row, whatever is delivered later |
| SupplementHistory.BatchRowsMirrorBatches | apps/api/src/roteador/roteador-dashboard.service.ts:197-200 | the columns of a supplement batch row are those of an accepted batch |
| SupplementHistory.SupplementsInEveryInterleaving | apps/api/src/roteador/roteador-dashboard.service.ts:167-203 | the same in every state the two endpoints can reach with their statements interleaved: the table holds the supplements of the accepted batches, each once |
| SupplementHistory.AllAcceptedMeaning | apps/api/src/roteador/roteador-dashboard.service.ts:167-202 | a whole list of supplement deliveries is accepted against the stored events if and only if the set of its batches is consistent, and then leaves their tables |
| SupplementHistory.SupplementConfluence | apps/api/src/roteador/roteador-dashboard.service.ts:167-202 | any rearrangement of an accepted list, with any repetitions, is accepted too and yields the same tables |
| SupplementHistory.SameAcceptedSameTables | apps/api/src/roteador/roteador-dashboard.service.ts:167-202 | after any two sequences of deliveries to both endpoints that accepted the same batches, all tables are the same |
| SupplementLinks.LinkageStable | apps/api/src/roteador/roteador-dashboard.service.ts:175-178 | an accepted supplement batch is accepted with the same result whatever further events are stored meanwhile |
| SupplementLinks.AcceptedAreStored | apps/api/src/roteador/roteador-dashboard.service.ts:174-196 | after acceptance every supplement of the batch is stored under its own content hash, linked to the event it names: replayed means identical |
| SupplementLinks.AcceptedIsKnown | apps/api/src/roteador/roteador-dashboard.service.ts:197-200 | an accepted batch leaves the one batch row with its identifiers |
| SupplementLinks.KnownStaysKnown | apps/api/src/roteador/roteador-dashboard.service.ts:168-201 | whatever is delivered later, that stays so |
| SupplementLinks.KnownIsReplayed | apps/api/src/roteador/roteador-dashboard.service.ts:168-172 | such a batch delivered again changes nothing and is reported as a replay of its length |
| Interleaving.InterleavingIsSerial | apps/api/src/sinc/sinc.service.ts:74-107 | over every interleaving of both endpoints' statements at READ COMMITTED, with rollbacks anywhere, the committed tables are those of running the decided transactions one by one, and each was answered what it is answered there |
| Interleaving.NoInterference | apps/api/src/sinc/sinc.service.ts:76 | while an event transaction holds the lock the committed event tables stay as it found them, and no other event transaction is under way |
| Interleaving.LinksStayValid | apps/api/src/roteador/roteador-dashboard.service.ts:167-203 | although the endpoints hold different locks, in every reachable state each supplement points to a stored event with the same project, entity, revision, decision hash and instant, and no two supplements share an identifier, a key or a link |
| DashboardChecks.EveryStoreIsAccepted | apps/api/src/roteador/roteador-dashboard.service.ts:48-70 | in every state the endpoints can reach, under any interleaving, all rows of a snapshot pass the checks of the builder, whatever the selection and order, and it works on the very records delivered |
| DashboardChecks.HeadsJoinOnce | apps/api/src/roteador/roteador-dashboard.service.ts:65-73 | every head is joined with exactly one event, and no two heads refer to the same one |
| DashboardChecks.OneSupplementPerEvent | apps/api/src/roteador/roteador-dashboard.service.ts:71 | the map of supplements by event loses none |
| DashboardChecks.HeadSupplementIsCurrent | apps/api/src/roteador/roteador-dashboard.service.ts:99-103 | a supplement counted in a pair explains the latest stored revision of its entity and carries the hash of that decision |
| DashboardChecks.AlteredEventIff | apps/api/src/roteador/roteador-dashboard.service.ts:48-53 | a stored event passes if and only if it is the one its hash was taken of |
| DashboardChecks.AlteredSupplementIff | apps/api/src/roteador/roteador-dashboard.service.ts:55-60 | so does a stored supplement |
| DashboardChecks.AlteredStoreIsRefused | apps/api/src/roteador/roteador-dashboard.service.ts:63-64 | one altered event among the rows refuses the whole dashboard |
| RevisionGaps.DetectedRevisionGaps | apps/api/src/roteador/roteador-dashboard.service.ts:89-95 | the reported number is the number of pairs of an entity and a revision that is missing between two stored ones |
| RevisionGaps.GapCountsHoles | apps/api/src/roteador/roteador-dashboard.service.ts:93-94 | the sum over sorted neighbours is the number of missing revisions of one entity |
| RevisionGaps.GapIsSpread | apps/api/src/roteador/roteador-dashboard.service.ts:93-94 | it is largest minus smallest plus one minus the number of distinct revisions |
| RevisionGaps.NoneDetectedIffContiguous | apps/api/src/roteador/roteador-dashboard.service.ts:89-95 | no gap is detected exactly when every entity's revisions are contiguous |
| ModelTree.BuildModelMap | apps/api/src/roteador/roteador-dashboard.service.ts:75-83 | each group counts exactly the events routed to its model and effort, by data class, and no routed event lacks a group |
| ModelTree.CountIs | apps/api/src/roteador/roteador-dashboard.service.ts:75-83 | what a group counts, from the routes and data classes of the events |
| ModelTree.FamilyByPrefix | apps/api/src/roteador/roteador-dashboard.service.ts:14-19 | the family is told by how the identifier begins, in either case: gpt- or openai., claude- or anthropic., else the third |
| ModelTree.TreeCountsRoutedEvents | apps/api/src/roteador/roteador-dashboard.service.ts:75-87 | over the three families the totals add up to the routed events |
| ExperimentPairs.BuildPairs | apps/api/src/roteador/roteador-dashboard.service.ts:99-104 | each pair holds, in order, the supplements with its key whose event is a current head |
| ExperimentPairs.MembersBelong | apps/api/src/roteador/roteador-dashboard.service.ts:100-103 | a supplement is in a pair, as often as it was read, exactly when its event is a head and experiment, pair, contract, criteria and data class all agree |
| ExperimentPairs.BothArms | apps/api/src/roteador/roteador-dashboard.service.ts:105-106 | a pair counts as executed exactly when both arms have started, and as evaluated exactly when both have been evaluated |
| ExperimentPairs.PairsNest | apps/api/src/roteador/roteador-dashboard.service.ts:105-106 | evaluated pairs are executed pairs and executed pairs are planned pairs, as sets and in number |
| ExperimentPairs.StatusIsConsistent | apps/api/src/roteador/roteador-dashboard.service.ts:107-143 | the reported status against the three numbers: "prepared" exactly when supplements were transported and none has started |
| ContainerTrack.LogIsChained | apps/api/src/realtime/metrics.scheduler.ts:302-311 | within one presence each event starts in the state the previous one ended in, the first in the first observed state, and the last ends in the last observed state |
| ContainerTrack.LogIsLossless | apps/api/src/realtime/metrics.scheduler.ts:292-341 | although only changes are written, the log read from the first observed state gives the observed state at every instant |
| ContainerTrack.SweepOfLogIsObserved | apps/api/src/analytics/rollup.service.ts:273-313 | after whatever older rows the table holds of the container, the downtime swept from the written events is the time of every later bucket in which it was observed not running, provided the last older row and the first observation agree |
| ContainerTrack.IncidentsOfLogAreObserved | apps/api/src/analytics/rollup.service.ts:273-313 | so is the number of incidents in every such bucket |
| ContainerTrack.LosslessExactlyWhenStatesAgree | apps/api/src/analytics/rollup.service.ts:273-282 | the downtime is recovered in all those buckets if and only if the last older row ("running" if there is none) and the first observation are both running or both not |
| ContainerTrack.IncidentsExactlyWhen | apps/api/src/analytics/rollup.service.ts:273-309 | the incidents are recovered in all those buckets if and only if these agree, or the first observation is running and so is the first row written for the presence, if any |
| ContainerTrack.StaleRowCountsAsDown | apps/api/src/analytics/rollup.service.ts:273-282 | a container stopped under an earlier presence and running ever since it was recreated is reported down for a whole bucket |
| ContainerTrack.RowsAreTheChanges | apps/api/src/realtime/metrics.scheduler.ts:295-311 | each row records one change between neighbouring observations, and there are as many rows as changes |
| ContainerTrack.RowWrittenIff | apps/api/src/realtime/metrics.scheduler.ts:295-302 | an observation adds a row exactly when state or health differ from the one before or the restart counter rose |
| ContainerTrack.HealthAndRestartsAreLogged | apps/api/src/realtime/metrics.scheduler.ts:296-311 | the log also tells the health observed last, and its restart counts add up to all restarts seen |
| ContainerTrack.RecentIsYounger | apps/api/src/realtime/metrics.scheduler.ts:313 | pruning keeps exactly the times younger than the window |
| ContainerTrack.RestartWindow | apps/api/src/realtime/metrics.scheduler.ts:326-328 | the pruned restart window is, at any later time, as good as the full record of restarts |
| ContainerTrack.TransitionWindow | apps/api/src/realtime/metrics.scheduler.ts:313-315 | the same for the transition window |
| ContainerTrack.CrashLoopIsRecount | apps/api/src/realtime/metrics.scheduler.ts:325-332 | the crash-loop alert fires at a restart exactly when all restarts seen within the last 24 hours exceed 3, and reports their number |
| ContainerTrack.FlappingIsRecount | apps/api/src/realtime/metrics.scheduler.ts:312-318 | the flapping alert fires at a transition exactly when at least 3 transitions were seen within the last hour, and reports their number |
| ContainerTrack.OomAtTransition | apps/api/src/realtime/metrics.scheduler.ts:320-323 | the out-of-memory alert fires exactly where the flag turns from false to true between two observations |
| ContainerTrack.OneAlertPerRun | apps/api/src/realtime/metrics.scheduler.ts:334-339 | in a maximal run of unhealthy observations the alert fires at the second one and at no other |
| ContainerTrack.UnhealthyAlertIff | apps/api/src/realtime/metrics.scheduler.ts:334-339 | over every history the alert fires at an observation if and only if it is unhealthy, the one before is, and the one before that is not |
| AbortedTicks.CompletedRun | apps/api/src/realtime/metrics.scheduler.ts:215-341 | a run in which no tick aborts has the memory and the rows of its observations, so all results above apply to it |
| AbortedTicks.LogIsRightIff | apps/api/src/realtime/metrics.scheduler.ts:302-341 | over every run of completed and aborted ticks the log ends in the remembered state if and only if its newest row was not left by an abort that had seen another state |
| AbortedTicks.LossNeedsAFailedAlert | apps/api/src/realtime/metrics.scheduler.ts:302-339 | over every possible run, when log and memory part, the dispatch of an alert due for an observation failed, and the log still ends in the state of that observation; aborts before the row leave the two together |
| AbortedTicks.LostUntilNextChange | apps/api/src/realtime/metrics.scheduler.ts:292-341 | from then on, while no tick sees a change against what is remembered, nothing is written and the log keeps ending in the wrong state |
| AbortedTicks.NextChangeHeals | apps/api/src/realtime/metrics.scheduler.ts:292-341 | the next change seen by a tick that gets through puts the log right |
| AbortedTicks.LostRecoveryCountsAsDown | apps/api/src/analytics/rollup.service.ts:301-313 | meanwhile the swept downtime of every bucket is its whole length, although every tick observes the container running |
| AbortedTicks.FlappingAbortLosesRecovery | apps/api/src/realtime/metrics.scheduler.ts:316-318 | a possible run in which this happens: the third transition within an hour is a stop, the dispatch of the flapping alert fails, and the next tick sees the container running |
| AbortedAlerts.StreakOfCounted | apps/api/src/realtime/metrics.scheduler.ts:335-336 | over every run the streak is that of the observations that updated it, as if there had been no others |
| AbortedAlerts.UnhealthySentIff | apps/api/src/realtime/metrics.scheduler.ts:334-339 | over every run an attempt sends the unhealthy alert if and only if it gets through and its observation is the second of an unhealthy stretch of those |
| AbortedAlerts.StretchGetsItsAlertIff | apps/api/src/realtime/metrics.scheduler.ts:334-341 | a maximal unhealthy stretch gets its alert if and only if the attempt that brings the streak to 2 gets through; no other attempt of the stretch sends it |
| AbortedAlerts.WindowOfRun | apps/api/src/realtime/metrics.scheduler.ts:313-328 | over every run either pruned window is, at any later time, as good as the full record of pushes, those of failed attempts included |
| AbortedAlerts.PushesAddUp | apps/api/src/realtime/metrics.scheduler.ts:294-341 | the pushes are as many as the observations that got through call for, plus those of failed attempts |
| AbortedAlerts.PushedOnceIff | apps/api/src/realtime/metrics.scheduler.ts:294-341 | the two records are the same if and only if no failed attempt pushed |
| AbortedAlerts.RowsArePushes | apps/api/src/realtime/metrics.scheduler.ts:302-315 | there are as many rows as pushed transitions, so the change of a failed attempt is written again |
| AbortedAlerts.CrashLoopCountsPushes | apps/api/src/realtime/metrics.scheduler.ts:325-332 | over every run the crash-loop alert is sent exactly where restarts were pushed and the pushes of 24 hours exceed 3, and reports their number |
| AbortedAlerts.FlappingCountsPushes | apps/api/src/realtime/metrics.scheduler.ts:312-318 | the same for flapping, with 3 pushes within the hour |
| AbortedAlerts.FailedDispatchMisleads | apps/api/src/realtime/metrics.scheduler.ts:302-341 | a possible run in which one failed dispatch suppresses the unhealthy alert for good and makes the next tick report four restarts and three transitions where two of each were seen |
| AbortedDowntime.AlwaysAlikeIff | apps/api/src/realtime/metrics.scheduler.ts:302-341 | table and observations agree on running after every attempt of a run if and only if they start alike and no failed attempt wrote a row that disagrees on it with what stayed remembered |
| AbortedDowntime.RunDowntimeExactlyWhen | apps/api/src/analytics/rollup.service.ts:273-313 | over every run, with aborts anywhere and after any older rows, the downtime swept from the table is the observed one in all later buckets if and only if that holds |
| AbortedDowntime.HarmlessRunIsRecovered | apps/api/src/analytics/rollup.service.ts:273-313 | one direction without the assumption that all attempts have different timestamps |
| AbortedDowntime.RunIncidentsExactlyWhen | apps/api/src/analytics/rollup.service.ts:273-309 | the incidents of all later buckets are the observed ones if and only if table and observations leave running at the same attempts |
| AbortedDowntime.HarmlessIncidentsRecovered | apps/api/src/analytics/rollup.service.ts:273-309 | which they do under the condition on downtime |
| AbortedDowntime.NeverLostIsHarmless | apps/api/src/realtime/metrics.scheduler.ts:302-341 | that condition holds of every run after no prefix of which log and memory part |
| MetricsScheduler.MetricsScheduler.ContainerMetricsTick | apps/api/src/realtime/metrics.scheduler.ts:215-356 | skipped, completed and aborted ticks: it completes if and only if it is not skipped and none of its awaited calls fails; exactly the rows and alerts of the attempts made, in order; each container's memory after them, also where the tick aborted; memory and newest rows of every container stay those of its presence whatever the outcome; names of all maps stay within the counter map |
| MetricsScheduler.MetricsScheduler.Observe | apps/api/src/realtime/metrics.scheduler.ts:240-341 | one container: memory, rows and alerts when it gets through; when an awaited call throws, how far each window, the rows and the alerts got, a row only where an alert was due, and the previous observation kept |
| MetricsScheduler.MetricsScheduler.Compare | apps/api/src/realtime/metrics.scheduler.ts:292-333 | the part that needs a previous observation, alerts in the order flapping, out of memory, crash loop, and what is left where one of them throws |
| MetricsScheduler.MetricsScheduler.Hygiene | apps/api/src/realtime/metrics.scheduler.ts:347-356 | forgets exactly the containers not seen, in every map |
| MetricsScheduler.CompletedTells | apps/api/src/realtime/metrics.scheduler.ts:215-356 | a completed tick continues the presences it sees and ends all others |
| MetricsScheduler.AbortedTells | apps/api/src/realtime/metrics.scheduler.ts:215-341 | an aborted tick keeps memory and newest rows those of the attempts of each presence, also for the container it failed at, and ends no presence |
| MetricsScheduler.AbortElsewhere | apps/api/src/realtime/metrics.scheduler.ts:232-341 | a container the aborts did not happen at has a presence of observations only, extended by those of this tick |
| MetricsScheduler.TellsObservations | apps/api/src/realtime/metrics.scheduler.ts:232-341 | and its memory and newest rows are those of its observations |
| MetricsScheduler.TickKeepsDates | apps/api/src/realtime/metrics.scheduler.ts:302-311 | rows and presences stay in the order of the clock over every tick, and rows older than a presence are dated before it |
| MetricsScheduler.AlertsTell | apps/api/src/realtime/metrics.scheduler.ts:312-339 | the alerts sent for an attempt are those its container's whole presence calls for, up to where it failed |
| Availability.Sweep | apps/api/src/analytics/rollup.service.ts:302-313 | the loop over a bucket's events computes the swept downtime and incidents |
| Availability.SweepMeasures | apps/api/src/analytics/rollup.service.ts:302-313 | what is swept is the number of milliseconds of the bucket in which the container is not running |
| Availability.BucketMeasures | apps/api/src/analytics/rollup.service.ts:270-313 | with the carried initial state, a bucket's downtime is the measure of non-running time according to the whole log |
| Availability.BucketCountsIncidents | apps/api/src/analytics/rollup.service.ts:309 | the incidents of a bucket are the log's changes from running to something else inside it |
| Availability.Additive | apps/api/src/analytics/rollup.service.ts:270-313 | before rounding, downtime and incidents of a bucket are the sums over any equal parts of it |
| Availability.DayAgainstHours | apps/api/src/analytics/rollup.service.ts:314 | after rounding, a day's downtime is within 12 seconds of the sum over its 24 hours; incidents agree exactly |
| Availability.RoundsToNearest | apps/api/src/analytics/rollup.service.ts:314 | the rounded downtime is the nearest second |
| Availability.ClampsNeverBind | apps/api/src/analytics/rollup.service.ts:314 | the clamps around the rounded downtime never change it |
| AvailabilityRollup.RollupService.ContainerRow | apps/api/src/analytics/rollup.service.ts:298-328 | a row says how long and how often the container left running according to its whole log, counts its checks in the bucket and the healthy ones among them, and has a percentage between 0 and 100 |
| AvailabilityRollup.RollupService.RollupAvailability | apps/api/src/analytics/rollup.service.ts:252-345 | one such row for every container with a name that has a sample or a state event in the bucket; every other row stays |
| AvailabilityRollup.SelectionsCommute | apps/api/src/analytics/rollup.service.ts:256-289 | selecting the bucket and then the container is selecting the container and then the bucket |
| AvailabilityRollup.LatestIsInitial | apps/api/src/analytics/rollup.service.ts:273-282 | the query for the latest earlier event finds the state the whole log carries into the bucket |
| ObservedAvailability.TableOfPresence | apps/api/src/realtime/metrics.scheduler.ts:302-311 | what the table holds of a container whose presence saw no abort is some older rows, dated before it, followed by the rows of its observations |
| ObservedAvailability.StoredRowReportsObservations | apps/api/src/analytics/rollup.service.ts:256-328 | a stored row reports the downtime and the incidents the scheduler observed, under the condition above |
| ObservedAvailability.StoredRowReportsRun | apps/api/src/analytics/rollup.service.ts:256-328 | the same for a presence with aborts anywhere, under the condition on downtime |
| ObservedAvailability.StoredRowReportsLostRecovery | apps/api/src/analytics/rollup.service.ts:256-328 | after a lost recovery a stored row reports the whole bucket as downtime and 0 percent, while every tick observes the container running |
| Reliability.Tallies | apps/api/src/analytics/analytics.service.ts:494-514 | the single pass over all containers gives each container the fold of its own events, open outages closed at the end |
| Reliability.FoldAgainstSweep | apps/api/src/analytics/analytics.service.ts:494-513 | fold and sweep agree for a container running at the window's start; otherwise downtime differs by the time before the first event and incidents by one exactly when that event is not running; with no event the fold misses everything |
| Reliability.FoldMeasures | apps/api/src/analytics/analytics.service.ts:494-513 | the fold's downtime is the true one if and only if the container runs at the window's start or has an event there |
| Percentile.PercentileIsNearestRank | apps/api/src/analytics/rollup.service.ts:25-29 | the computed value is the one and only member of the sample that meets the nearest-rank definition |
| Percentile.ClampsNeverBind | apps/api/src/analytics/rollup.service.ts:27 | for a sample that is not empty the index is in range without the clamps |
| Percentile.WholeWithinParts | apps/api/src/analytics/rollup.service.ts:156-191 | a percentile of the whole lies between the smallest and the largest of its non-empty parts, for every split and every order |
| MetricRollup.RollupService.RollupContainers | apps/api/src/analytics/rollup.service.ts:132-192 | the rows of a bucket are written for exactly the containers with samples in it; all others stay |
| MetricRollup.RollupService.GroupByContainer | apps/api/src/analytics/rollup.service.ts:149-154 | each group is the container's samples in order |
| MetricRollup.RestartsDeltaIsSpread | apps/api/src/analytics/rollup.service.ts:160-162 | the restart delta is the largest difference between any two counters of the bucket, and its clamp never binds |
| MetricRollup.SummaryMeans | apps/api/src/analytics/rollup.service.ts:156-182 | every column from the samples themselves: count, totals behind both averages, both maxima attained, nearest-rank p95 of the CPU, largest difference of known restart counters, rounded share of the unhealthy |
| MetricRollup.RowFitsTogether | apps/api/src/analytics/rollup.service.ts:158-182 | averages are at most maxima, the p95 is the nearest-rank member and at most the maximum, unhealthy seconds lie within the bucket and are the unhealthy share of it, rounded |
| Retention.PurgeNeverChangesARollup | apps/api/src/analytics/purge.service.ts:33-41 | over every interleaving of inserts, purges, cleanups and rollup passes under two days, each stored row is the summary of all samples its closed bucket ever had |
| Retention.StoredRowMeans | apps/api/src/analytics/rollup.service.ts:156-187 | so in every reachable state, column by column |
| Retention.SamplesAre | apps/api/src/analytics/rollup.service.ts:133-154 | these samples are the inserted ones of the container within the hour or day, each as often as inserted |
| Retention.DeletionIsExact | apps/api/src/analytics/purge.service.ts:39-41 | a deletion removes exactly the samples before its cutoff |
| Retention.DeletableIff | apps/api/src/analytics/purge.service.ts:33-41 | a sample can be deleted once it is more than ten days old, and never before |
| Retention.BucketIsExact | apps/api/src/analytics/rollup.service.ts:134 | a bucket holds exactly the samples of its half-open interval |
| Retention.ReadIsComplete | apps/api/src/analytics/rollup.service.ts:133-146 | a read made in time sees the bucket as if nothing had ever been deleted |
| Retention.ReprocessingChangesNothing | apps/api/src/analytics/rollup.service.ts:183-187 | writing a row that is there already changes nothing |
| Retention.UpsertsCommute | apps/api/src/analytics/rollup.service.ts:183-187 | the order of two writes does not matter |
| Retention.StepKeeps | apps/api/src/realtime/metrics.scheduler.ts:541-563 | every step keeps the invariant: recent samples all kept, reads complete, rows complete |
| Retention.MissingBuckets | apps/api/src/analytics/rollup.service.ts:83-117 | a catch-up starts exactly the closed buckets of its lookback that are missing, oldest first |
| Retention.DueMeans | apps/api/src/analytics/rollup.service.ts:83-117 | a bucket is due when it is a closed whole hour of the last 48 or a closed whole UTC day of the last 7 |
| Retention.TickIsDue | apps/api/src/analytics/rollup.service.ts:60-78 | the bucket of either cron is one a catch-up could start |
| DailyAgainstHourly.DailyP95WithinHourly | apps/api/src/analytics/rollup.service.ts:156-191 | in every reachable state a stored daily p95 lies between two stored hourly ones of that day |
| DailyAgainstHourly.DailyAverageFromHourly | apps/api/src/analytics/rollup.service.ts:169-172 | sample counts add up over the stored hours of a day, and the stored daily average is their weighted average |
| DailyAgainstHourly.DailyMaxFromHourly | apps/api/src/analytics/rollup.service.ts:172 | the stored daily maximum is the largest stored hourly maximum |
| EventRetention.DowntimeSurvives | apps/api/src/realtime/metrics.scheduler.ts:566 | a bucket's downtime survives the deletion of old events if and only if an earlier event is still stored, or the container runs at the bucket's start, or the bucket starts with an event |
| EventRetention.KeptExactly | apps/api/src/realtime/metrics.scheduler.ts:566 | the deletion removes exactly the events before its cutoff |
| EventRetention.IncidentsSurvive | apps/api/src/realtime/metrics.scheduler.ts:566 | the same for the incident count |
| EventRetention.LongOutageVanishes | apps/api/src/realtime/metrics.scheduler.ts:566 | a container stopped for more than 180 days is reported fully up |
| Sessions.ExchangedOnce | apps/api/src/auth/auth.service.ts:281-305 | over every interleaving no refresh token is exchanged twice |
| Sessions.OnlyTheLatestIsExchanged | apps/api/src/auth/auth.service.ts:294-303 | an exchange spends the token its session was given last and hands out one never spent before |
| Sessions.RotationSucceedsIff | apps/api/src/auth/auth.service.ts:294-303 | a rotation goes through if and only if the session is still active, was last given the very token found, and no other session holds the new access token |
| Sessions.RaceHasOneWinner | apps/api/src/auth/auth.service.ts:283-303 | of two requests that both found the same token at most one gets through |
| Sessions.LogoutEndsAll | apps/api/src/auth/auth.service.ts:308-314 | afterwards the user's active sessions are logged out, with nothing else about them changed, and no other row has changed |
| Sessions.LoginReplacesSessions | apps/api/src/auth/auth.service.ts:186-210 | revoking ends exactly the user's active sessions; creating adds one session the guard admits and touches no other |
| Sessions.LoginNeedsAFreeToken | apps/api/src/auth/auth.service.ts:200-211 | a login whose access token another session holds creates nothing |
| Sessions.SessionLivesItsTerm | apps/api/src/auth/auth.service.ts:197-211 | over every further run that does not end the sessions of the user, the tokens handed out last are good until the expiry set at login and no longer: the access token for the guard, the refresh token for a refresh; only then may the session be deleted |
| Sessions.LoginTokensLast | apps/api/src/auth/auth.service.ts:197-211 | until the session is rotated these are the tokens of the login |
| Sessions.RotationKeepsTheTerm | apps/api/src/auth/auth.service.ts:294-303 | a rotation hands out new tokens for the rest of the same term |
| Sessions.ExpiredStaysExpired | apps/api/src/auth/auth.service.ts:283-303 | rotation does not prolong a session: once expired it is never found for a refresh or admitted again, over any further run |
| Sessions.EndedStaysEnded | apps/api/src/auth/auth.service.ts:283-303 | a session that left "active" stays so and is never refreshed again, over any further run |
| Sessions.GuardAdmitsTheLatest | apps/api/src/auth/jwt-auth.guard.ts:22-27 | an access token passes the guard if and only if it is the one given last to an active, unexpired session, and then to one session only |
| Sessions.NoCodeTwice | apps/api/src/auth/auth.service.ts:163-168 | for every user and purpose, codes accepted plus codes still unused never exceed codes issued |
| Sessions.CodeLivesItsTerm | apps/api/src/auth/auth.service.ts:131-140 | an issued code is accepted at every moment before its expiry, over every further run that neither uses it up nor requests a new one, and its row at none from then on |
| Sessions.LoginsArePaid | apps/api/src/auth/auth.service.ts:163-210 | over every run a user's logins never exceed the login codes accepted, nor these the login codes issued |
| Sessions.AcceptanceSpends | apps/api/src/auth/auth.service.ts:163-168 | accepting a code spends every row it could be accepted from and no other row |
| Sessions.InvalidatedIsRefused | apps/api/src/auth/auth.service.ts:126-130 | right after codes were invalidated no earlier code of the user is accepted |
| Sessions.RefusedStaysRefused | apps/api/src/auth/auth.service.ts:163-168 | a code that is refused, because it was used, invalidated or has expired, is refused over every further run unless the same digits are issued to that user again |
| Sessions.UsedStaysUsed | apps/api/src/auth/auth.service.ts:246-255 | over every further run a used code row stays as it is or is deleted |

## Left out

- Validation of field formats: the regular expressions for identifiers, instants, forbidden keys and forbidden texts are parameters or are assumed of validated records; the size check on `JSON.stringify` of a whole batch is not modelled. Nor are these checks where the dashboard repeats them on stored rows.
- Values a JSON body cannot contain beyond accessors and foreign prototypes: symbols, sparse arrays, extra array properties and cycles.
- `receivedAt` and other receive times of stored rows.
- Transaction timeouts and lock wait limits, except that a transaction may be rolled back at any statement.
- `buildSincDashboard`, the cost sums, routes, lag and sample-limit fields of the Roteador dashboard, and the sorting of models inside a family: presentation or one-line sums.
- Network and disk rates, pids, uptime, the legacy snapshot rows and the gateway broadcast of a container tick; `lastSeenRunning` with its started and stopped notices, which runs after hygiene.
- The host, process and systemd ticks of the scheduler.
- State changes across an API restart or a container's absence: the in-memory observation is lost there, so the lossless-log results are about one presence, whatever rows earlier ones left.
- Alert delivery: an alert counts as sent when its dispatch returned; one that throws may have delivered its message before.
- A failed lookup of the latest earlier row, which the rollup then takes as "running".
- Events of one container with equal timestamps are taken in table order, in the rollup and in the reliability fold alike.
- Display rounding with `toFixed`: rows keep the exact value. Rounding is monotone, so the order results carry over.
- `rollupHost`, and the averages of network and disk rates in `rollupContainers`: same shape as the averages that are modelled.
- Errors caught per container inside a rollup loop; in `Retention` they are upserts that do not happen.
- Rollup rows hidden from a catch-up because the host row of their bucket exists: `have` is a parameter of `MissingBuckets`.
- The filter, percentage and top ten that `reliability` applies to its tallies, and `diskDaysToFull`.
- Methods of `AuthService` as methods: `Sessions` models their database statements as steps on values, since what matters is how the statements of different requests interleave.
- Rate limits, delivery of codes, the lookup of users by phone, signature and lifetime of access tokens, `lastActivity`.
- Single active session and single unused login code: these do not hold under concurrency, because separate statements revoke and create.
- Deletion of sessions and codes is allowed to be more eager than `cleanup` is; nothing proved depends on its delays.
