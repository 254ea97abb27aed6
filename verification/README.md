# Confidence resolver: models and proofs

A Dafny model of the resolver and of the code that logs, deduplicates, batches and reports what it resolved, with
proofs of the laws these parts are there for. `dafny verify dfyconfig.toml` checks all of it.

**Resolving.** `Segments`, `Flags` and `Protocol` specify targeting, the rule loop and a request; `Resolver` holds the
same code as it runs, over a context whose `to_read` and `to_write` it updates, proved against them. A run without
records evaluates in three truth values and notes what it would have looked up (`SegmentLaws`, `FlagLaws`);
`AssignmentLaws` reads off the rules what a flag is assigned, and `RequestLaws` off the catalog what a response holds.
`ProtocolLaws` shows when suspending and resuming is the one run with all records, and `SideConditions` has, for each
side condition, a request that fails it alone and is answered otherwise. `Sticky` shows that stored assignments stick,
and `KvStore` that the key-value store answers as the records do, so that the whole loop from deferral to the next
resolve is covered. `ConfigurationLaws` has the conditions that an author of a configuration can check.

**Logging.** `LogBuffer` and `BufferLaws` are the in-isolate log buffer as a state machine over the sections between two
awaits, and `AdmissionLaws` says what each of them decides at which bounds. Comments in `flag_log/buffer.rs` (650-652)
take one chunk to bring the buffer below its byte ceiling; `CeilingLaws` has the exact record lengths for which that is
so. `ResolveLogger` and `LoggerLaws` are the shared counters with their swap-and-take checkpoints under any schedule;
`BoundedSet` the sampled set under concurrent inserts, reference counts included; `BoundedFlush` the byte-bounded flush
of the event and assign loggers, with pushes at every pop. `FlagLogger` aggregates messages.

**Deduplication.** `DedupKey` is the word stream and the mixing of an apply's key, `ApplyDedup` and `ApplyDedupLaws` the
cache over whole runs.

**Telemetry.** `Counters` has the growing vectors and sorted lists of counters; `Telemetry` and `TelemetryLaws` the
deltas and their telescoping; `MergeTelemetry`, `BatchLaws` and `SnapshotLaws` merging deltas and snapshots.

**Context.** `ManagedContext` is the managed evaluation context merged into a request.

Code that updates state is a class or a loop proved against a function, and the laws are about the function. Shared
state with real concurrency is a state machine whose steps are the atomic operations. Integer widths, wrap-around,
saturation and truncation are written out where they matter. The hash, bloom filters, attribute criteria and the
targeting key of a request are uninterpreted total functions; a resolve's evaluation context is fixed by them.

Side conditions of the resume theorem (`ProtocolLaws.Wellformed`): segment references are acyclic; flag names are
unique, as the keys of the map that holds the flags are; rules that read a record have a name; and each requested flag's
discovery is clean, that is, no segment fails after a lookup, and no bad targeting key or fault comes after an undecided
rule.

## Model

| member | source | states |
|---|---|---|
| ProtocolLaws.SuspendResume | confidence-resolver/src/lib.rs:818-988 | for every catalog, record store and fetched records that answer `to_read` as the store does: a rejected discovery is rejected by the one run with all records, and a suspended one, resumed, yields the same multiset of assignments and of writes exactly when no flag left pending had already written a record (or the one run is rejected too) |
| ProtocolLaws.RecordsNeverSuspend | confidence-resolver/src/lib.rs:818-988 | a static or resumed request is never answered by a suspension, so "still suspended after resume" cannot occur; without side conditions |
| ProtocolLaws.ResolvedAtOnce | confidence-resolver/src/lib.rs:889-907 | a deferred request that looks nothing up has the answer of the run with any record store; without side conditions |
| ProtocolLaws.RunSeparates | confidence-resolver/src/lib.rs:889-907 | running all flags with records is, up to order, running those discovery finished and then the pending ones after what was written so far; the pending ones ask only what discovery asked |
| ProtocolLaws.ResumeRuns | confidence-resolver/src/lib.rs:856-907 | a resume selects exactly the flags discovery left pending, and resolves them after the writes made before suspending |
| ProtocolLaws.EarlyWritesFail | confidence-resolver/src/lib.rs:856-865 | a write made before suspending by a flag that then suspends collides with itself on resume: the resume is rejected |
| ProtocolLaws.AnswersAgree | confidence-resolver/src/lib.rs:778-791 | answers to every key of `to_read` are answers to every lookup of a run that discovery covers |
| ProtocolLaws.CompleteRunResolvesAll | confidence-resolver/src/lib.rs:889-899 | a run with records leaves no flag unresolved unless it fails |
| ProtocolLaws.RunIsItsFlags | confidence-resolver/src/lib.rs:889-899 | a run that goes on from distinct writes succeeds exactly when each of its flags does on its own and no key is written twice; then it has their values, lookups and writes in order |
| RequestLaws.StaticAnswers | confidence-resolver/src/lib.rs:818-988 | a request with its records is rejected if more than 5000 flags are due; otherwise, unless one of these fails or a key is written twice, it has one value for each flag of the catalog that is active, lists the client, and is named or no names are given, and none for any other, in catalog order, each the value of its flag on its own |
| RequestLaws.ResumeAnswers | confidence-resolver/src/lib.rs:856-907 | a resume has the values it carries, and then one for each such flag that has none of these, none for any other, in catalog order |
| RequestLaws.WithoutAnswers | confidence-resolver/src/lib.rs:842-849 | the same for a request without support for records |
| RequestLaws.ResumedResolvesEach | confidence-resolver/src/lib.rs:818-988 | whatever records are fetched: a request that suspends and is resumed ends with exactly one value for each flag that was due at first |
| RequestLaws.SelectionIsRead | confidence-resolver/src/lib.rs:876-899 | the flags to resolve are those that are due, at their places in the catalog |
| SideConditions.KeyErrorAfterUnknown | confidence-resolver/src/lib.rs:1147-1162 | a request whose only flaw is a bad targeting key after an undecided rule, and whose resumed answer differs from that of the one run |
| SideConditions.FailureAfterLookup | confidence-resolver/src/lib.rs:1236-1245 | the same for a request whose only flaw is a criterion that fails after a lookup |
| SideConditions.FaultAfterUnknown | confidence-resolver/src/lib.rs:1236-1245 | a request whose only flaw is a fault after an undecided rule, which is rejected where the one run succeeds |
| SideConditions.WriteBeforeUnknown | confidence-resolver/src/lib.rs:1308-1322 | a request that meets all side conditions and writes a fallthrough before it suspends, and whose resume differs from the one run |
| SideConditions.CyclicSegment | confidence-resolver/src/lib.rs:1197-1213 | a request that fails acyclicity alone: the fetched records answer all of `to_read` and the resumed answer still differs |
| SideConditions.UnnamedReader | confidence-cloudflare-resolver/src/materialization.rs:22-50 | a request that fails only in that a rule that reads a record has no name: records that answer `to_read` give another answer than the store |
| SideConditions.WrittenMembership | confidence-resolver/src/lib.rs:1513-1527 | a request with distinct writers, one of which writes a materialization that a segment refers to: repeated after its own write, it is assigned otherwise |
| SideConditions.SharedRuleName | confidence-resolver/src/lib.rs:702-748 | a request two rules of which share a name and one writes what the other reads: repeated after its own write, it is assigned otherwise |
| ConfigurationLaws.ResumeByConfiguration | confidence-resolver/src/lib.rs:1308-1322 | if no requested flag has a rule that has a materialization and an assignment that falls through, a resume with the answers asked for always gives the answer of the one run |
| ConfigurationLaws.NothingEarly | confidence-resolver/src/lib.rs:1308-1322 | without such rules no flag that discovery leaves pending has written a record |
| FlagLaws.RulesAgree | confidence-resolver/src/lib.rs:1102-1354 | a clean discovery of a flag ends as every run with records does, with the same writes, or misses a record; either way it has asked all the complete run asks |
| FlagLaws.RulesAreLocal | confidence-resolver/src/lib.rs:1102-1354 | a flag depends on the records only through the answers to its own lookups |
| FlagLaws.CompleteRules | confidence-resolver/src/lib.rs:1102-1354 | a flag never misses a record when records are given |
| FlagLaws.WritesAreFramed | confidence-resolver/src/lib.rs:750-776 | records already in `to_write` neither change what a flag does nor are changed by it, unless it writes the key of one of them: then it fails |
| AssignmentLaws.FlagAnswer | confidence-resolver/src/lib.rs:1087-1354 | with records, or without support for them, a flag is what its first deciding rule says, with the attributions and records of the rules in front: a match, a key error or a failure; it has no segment match exactly when no rule decides, and fails when a key is written twice |
| AssignmentLaws.SomeRuleDecides | confidence-resolver/src/lib.rs:1116-1354 | there always is a first deciding rule, or none decides, so that the answer is given for every flag |
| AssignmentLaws.RuleIsRead | confidence-resolver/src/lib.rs:1116-1297 | what one rule does, by its own conditions: it assigns exactly if it is enabled, in its environment, has a usable key, its segment holds or its stored variant is gone, and the unit's bucket lies in `lower <= b < upper` of some range, and then the first such assignment; it sticks exactly if the unit's first record holds and its variant stands for an assignment; it fails exactly without support for records, in its segment, or for want of a bucket |
| AssignmentLaws.SelectionIsRead | confidence-resolver/src/lib.rs:702-748 | a stored variant stands for its only assignment, or for the first of several whose range has the unit's bucket |
| AssignmentLaws.BucketIsRead | confidence-resolver/src/lib.rs:1272-1277 | the unit's bucket is the residue of the hash of the second part of the segment's name and the unit, modulo the bucket count as 64 bits, and then as a signed 32-bit number; there is none exactly without such a part or without buckets |
| AssignmentLaws.BucketFinds | confidence-resolver/src/lib.rs:1279-1290 | the assignment found is the first with a range around the bucket |
| AssignmentLaws.SharesAreWidths | confidence-resolver/src/lib.rs:1279-1290 | ranges of the buckets that do not overlap give each assignment exactly as many buckets as they are wide |
| SegmentLaws.EvaluateCovers | confidence-resolver/src/lib.rs:1561-1596 | a known answer of a discovery evaluation is the answer under every record set, and discovery has made every lookup of the complete evaluation, short-circuiting included |
| SegmentLaws.SegmentCovers | confidence-resolver/src/lib.rs:1411-1452 | the same for a segment, with its bitset and its nested segments |
| SegmentLaws.EvaluateIsLocal | confidence-resolver/src/lib.rs:1561-1596 | equal answers to the lookups an evaluation makes give an equal evaluation |
| SegmentLaws.SegmentIgnoresVisited | confidence-resolver/src/lib.rs:1411-1452 | on acyclic graphs, diamonds included, the visited set does not decide anything |
| SegmentLaws.EvaluateTells | confidence-resolver/src/lib.rs:1561-1596 | for any records, or none yet: evaluation is known to be true, or false, exactly when the boolean reading of the expression is even if the memberships not known turn out the other way, and fails exactly with the error of the first operand it comes to that fails |
| SegmentLaws.SegmentTells | confidence-resolver/src/lib.rs:1411-1452 | the same for a segment with its bit, nested segments and their bits, by a definition without a visited set |
| SegmentLaws.TargetingTells | confidence-resolver/src/lib.rs:1454-1534 | the same for the targeting alone |
| SegmentLaws.MatchIsTargetingAndBit | confidence-resolver/src/lib.rs:1411-1452 | for every world, cyclic references included: a segment with a bitset answers what its targeting does if bit `b` is set, where `b` is the residue modulo 1,000,000 of the 64-bit hash, without its low four bits, of `MegaSalt-`, the account id, a bar and the unit, or without a unit if every bit is; otherwise, also when the bitset is too short, it excludes the unit; it fails without an account id |
| Strings.SecondPartTells | confidence-resolver/src/lib.rs:110-127 | the second part of a name is what stands between its first separator and the next |
| Segments.Bucket | confidence-resolver/src/lib.rs:1852-1862 | the bucket is the residue of the hash without its low four bits, below the bucket count; it fails for no buckets only |
| Segments.BucketsTakeTurns | confidence-resolver/src/lib.rs:1852-1862 | hashes with the same high 60 bits have the same bucket, and going up by one there goes to the next bucket, from the last to the first |
| Materializations.NotedIsTheLookups | confidence-resolver/src/lib.rs:778-791 | `to_read` is the set of keys looked up, each once |
| Materializations.First | confidence-resolver/src/lib.rs:643-700 | a record is found exactly when one matches the query |
| Materializations.FoundIsFirst | confidence-resolver/src/lib.rs:702-720 | and the one found is the first |
| Materializations.MaterializationContext.Consult | confidence-resolver/src/lib.rs:643-700 | a lookup answers from the records, and is noted when there are none |
| Materializations.MaterializationContext.AddToWrite | confidence-resolver/src/lib.rs:750-776 | a second write of a key is refused and leaves the writes as they are |
| Materializations.MaterializationContext.RecordMissing | confidence-resolver/src/lib.rs:778-791 | a key is noted unless it is there |
| Resolver.AccountResolver.EvaluateExpression | confidence-resolver/src/lib.rs:1561-1596 | the recursive evaluation over the shared context, lookups noted as it goes, meets the specification the laws are about |
| Resolver.AccountResolver.SegmentMatchInternal | confidence-resolver/src/lib.rs:1411-1452 | the same for segments and the visited set |
| Resolver.AccountResolver.TryRule | confidence-resolver/src/lib.rs:1116-1297 | one turn of the rule loop |
| Resolver.AccountResolver.ResolveFlagInternal | confidence-resolver/src/lib.rs:1102-1354 | the rule loop with its sticky missing mark and its fallthroughs |
| Resolver.AccountResolver.ResolveFlags | confidence-resolver/src/lib.rs:818-988 | the request: selection, flag loop, suspension or response |
| Sticky.StickyFixpoint | confidence-resolver/src/lib.rs:702-748 | repeating a run with its own writes in the store gives every flag the same assignment and writes nothing else, as long as the writes change no membership the run asked for |
| Sticky.StoredVariantSelects | confidence-resolver/src/lib.rs:702-748 | the stored variant leads back to the assignment that was chosen, also when several assignments share it |
| Sticky.ChosenIsFound | confidence-resolver/src/lib.rs:702-748 | among the assignments of a variant the bucket finds the one it found among all |
| KvStore.ReadsAnswer | confidence-cloudflare-resolver/src/materialization.rs:22-80 | after any history of writes and expiries, what is read for `to_read` answers each of its keys as the last-write-wins records do |
| KvStore.StickyOverStore | confidence-cloudflare-resolver/src/lib.rs:289-314 | deferring, reading the store and resuming never stays suspended, and is the one run with the latest records exactly as far as the resume theorem says |
| KvStore.WritesAreStored | confidence-cloudflare-resolver/src/materialization.rs:58-80 | after a response is written, its records replace those of their keys and the others are as before |
| KvStore.StickyAcrossResolves | confidence-cloudflare-resolver/src/lib.rs:289-314 | a resolve repeated after its own writes reached the store assigns as before, if they change no membership it asked for |
| ConfigurationLaws.StickyByConfiguration | confidence-cloudflare-resolver/src/lib.rs:289-314 | if no segment refers to a materialization that a requested rule writes, a request repeated after its own writes reached the store is assigned as before and writes nothing new, after any history |
| ConfigurationLaws.RunAsks | confidence-resolver/src/lib.rs:1513-1527 | every membership a run looks up is one that some segment has a criterion on |
| ProtocolLaws.RunWrites | confidence-resolver/src/lib.rs:1300-1318 | every record a run writes is of a requested rule, under its own name and materialization |
| KvStore.WritesAreDistinct | confidence-resolver/src/lib.rs:750-776 | a response never writes a key twice |
| KvStore.KeysTell | confidence-cloudflare-resolver/src/materialization.rs:9-14 | keys are equal exactly for equal unit, materialization and rule |
| KvStore.PrefixIsExact | confidence-cloudflare-resolver/src/materialization.rs:16-20 | a prefix matches exactly the keys of its unit and materialization |
| KvStore.ComponentRoundTrip | confidence-cloudflare-resolver/src/materialization.rs:5-7 | an encoded component is read back as it was and holds no separator |
| KvStore.EncodesByCharacter | confidence-cloudflare-resolver/src/materialization.rs:5-7 | the two successive replacements escape each character on its own |
| BufferLaws.EveryRunIsSafe | confidence-cloudflare-resolver/src/flag_log/buffer.rs:213-698 | in every interleaving of offers, the waiter, drains, deliveries that end and cancellations: every offered entry is in exactly one of buffer, delivery, delivered, cut off, shed; the buffer is the latest arrivals under consecutive numbers; bytes are exact; slots and the waiter role are counted exactly and bounded; the record ceiling holds, and the byte ceiling for record lengths that cannot exceed it |
| BufferLaws.StepKeeps | confidence-cloudflare-resolver/src/flag_log/buffer.rs:213-698 | each undisturbed section keeps all of that |
| BufferLaws.SoftLimitHolds | confidence-cloudflare-resolver/src/flag_log/buffer.rs:392-400 | deliveries pass MAX_IN_FLIGHT only by an admission that saw the buffer at a ceiling |
| AdmissionLaws.ShedsOnlyWhenStuck | confidence-cloudflare-resolver/src/flag_log/buffer.rs:392-400 | in every run, entries are shed only while eight deliveries are out and the buffer, the new entry included, is at 12 MiB or 20,000 records |
| AdmissionLaws.OfferDecides | confidence-cloudflare-resolver/src/flag_log/buffer.rs:412-445 | an offer that makes the buffer due (768 KiB or 1,250 records) hands out one flush exactly if fewer than four deliveries are out, or fewer than eight and the buffer is at a ceiling; it sheds one exactly if eight are out and it is at a ceiling; otherwise all stays |
| AdmissionLaws.LookDecides | confidence-cloudflare-resolver/src/flag_log/buffer.rs:587-681 | a waiter with less than six seconds left, or nothing to wait for, gives up its role; otherwise its look hands out one nonempty flush exactly if the newest entry is a second old or the oldest ten, under the same bounds on deliveries; it sheds exactly if entries are that old, eight are out and the buffer is at a ceiling, and stops at the first flush behind which none is due; otherwise all stays |
| AdmissionLaws.DrainDecides | confidence-cloudflare-resolver/src/flag_log/buffer.rs:531-556 | a drain takes one flush of what arrived before, under the same bounds, or ends; it sheds nothing |
| AdmissionLaws.OthersKeepTheBuffer | confidence-cloudflare-resolver/src/flag_log/buffer.rs:331-390 | claiming the role, the end of a delivery and a cancellation leave the buffer as it is, give back what the task held, and shed nothing |
| BufferLaws.DrainTakesOnlyEarlier | confidence-cloudflare-resolver/src/flag_log/buffer.rs:285-303 | a retired drain takes only what had arrived when it retired, whatever else took from the buffer meanwhile |
| BufferLaws.RetiringFixesBoundary | confidence-cloudflare-resolver/src/flag_log/buffer.rs:512-521 | the boundary of a drain is the number of arrivals when the waiter retired, and the role is free again |
| BufferLaws.ChunkIsMaximal | confidence-cloudflare-resolver/src/flag_log/buffer.rs:285-329 | a chunk is a prefix within the bounds of one flush and before the boundary, and as long as these allow |
| BufferLaws.ChunksPartition | confidence-cloudflare-resolver/src/flag_log/buffer.rs:311-329 | chunk after chunk gives the buffer back in order, each within FLUSH_RECORDS and either within FLUSH_BYTES or a single record |
| BufferLaws.TakenIsRest | confidence-cloudflare-resolver/src/flag_log/buffer.rs:285-329 | taking a chunk leaves the rest, with an exact byte count |
| BufferLaws.ChunkFrees | confidence-cloudflare-resolver/src/flag_log/buffer.rs:311-329 | a chunk that leaves something behind is FLUSH_RECORDS records, or within one longest record of a full flush |
| BufferLaws.ShedDownRemoves | confidence-cloudflare-resolver/src/flag_log/buffer.rs:650-672 | shedding on the timer path discards from the front until no flush is due |
| CeilingLaws.CeilingHoldsExactly | confidence-cloudflare-resolver/src/flag_log/buffer.rs:413-445 | for every range of record lengths: all runs with lengths in it stay below MAX_BUFFER_BYTES, as the comment in lines 650-652 takes one chunk to ensure, exactly when two things hold: no length is over half a flush, or the fewest longest records that reach the ceiling would reach it with the shortest length too; and FLUSH_RECORDS of the shortest are as long as one of the longest, or the longest cannot reach the ceiling behind them |
| CeilingLaws.Overfill | confidence-cloudflare-resolver/src/flag_log/buffer.rs:413-445 | the run behind the converse: four deliveries held open, a buffer filled to just below its ceiling, and an offer whose chunk frees less than it brought |
| CeilingLaws.EvenRecordsStayUnder | confidence-cloudflare-resolver/src/flag_log/buffer.rs:94-105 | lengths up to half a flush and within a factor FLUSH_RECORDS, or all too short for MAX_BUFFER_RECORDS of them to matter, or all equal, never reach the ceiling |
| CeilingLaws.TelemetryLogsBeside | confidence-cloudflare-resolver/src/flag_log/buffer.rs:94-105 | beside telemetry-only logs of 14 bytes the ceiling can be reached exactly with records of more than 17,500 bytes |
| BufferLaws.HugeRecordExceedsCeiling | confidence-cloudflare-resolver/src/flag_log/buffer.rs:242-244 | for instance: a record as long as the ceiling behind one shorter than a flush is left in the buffer |
| LogBuffer.FlagLogBuffer.TakeChunk | confidence-cloudflare-resolver/src/flag_log/buffer.rs:285-329 | the counting loop and the removal meet the chunk the laws are about |
| LogBuffer.FlagLogBuffer.OfferAt | confidence-cloudflare-resolver/src/flag_log/buffer.rs:412-445 | an offer holds, delivers with its slot reserved, or sheds |
| LogBuffer.FlagLogBuffer.PollAt | confidence-cloudflare-resolver/src/flag_log/buffer.rs:611-681 | the waiter's look, with the shedding loop |
| LogBuffer.FlagLogBuffer.DrainAt | confidence-cloudflare-resolver/src/flag_log/buffer.rs:531-547 | one turn of the drain before standing down |
| LogBuffer.FlagLogBuffer.PushLog | confidence-cloudflare-resolver/src/flag_log/buffer.rs:213-224 | a push numbers, times and counts its record |
| LoggerLaws.EveryRunIsSound | confidence-resolver/src/resolve_logger.rs:45-146 | for any schedule of loggers and checkpointers: each cell is swapped out and taken by its own checkpoint, and each counter of each cell, live or taken, is the number of increments that landed there, modulo 2^32 |
| LoggerLaws.CheckpointsAreWhole | confidence-resolver/src/resolve_logger.rs:119-145 | a checkpoint reports whole resolves and no part of any other, with the totals of their single-request logs |
| LoggerLaws.NothingIsLost | confidence-resolver/src/resolve_logger.rs:81-145 | all checkpoints and the live cell together hold every increment made, once |
| LoggerLaws.RulesMatchAssignments | confidence-resolver/src/resolve_logger.rs:81-145 | in every checkpoint a rule's count is the sum of its assignment counts |
| LoggerLaws.RetriesAreCharged | confidence-resolver/src/resolve_logger.rs:45-63 | each retry of a thread gives up a cell of its own, swapped out by a checkpoint since the thread began |
| LoggerLaws.CurrentCellIsFree | confidence-resolver/src/resolve_logger.rs:45-63 | the current cell never turns a thread away |
| LoggerLaws.LoggersGoOn | confidence-resolver/src/resolve_logger.rs:45-63 | in every state a thread that is not done has a next step: a try goes through unless the cell's checkpointer has its lock, and may fail from the swap to the release |
| LoggerLaws.CheckpointersGoOn | confidence-resolver/src/resolve_logger.rs:119-145 | a checkpointer waits for nothing but the threads that read its own cell |
| ResolveLogger.LogTotalsAreTheIncrements | confidence-resolver/src/resolve_logger.rs:148-212 | the log of a single request adds up to the increments the shared logger makes for it |
| ResolveLogger.EventsPair | confidence-resolver/src/resolve_logger.rs:81-115 | a resolve increments a rule as often as assignments of that rule |
| ResolveLogger.BumpAllCounts | confidence-resolver/src/resolve_logger.rs:81-115 | a counter ends up at the number of its increments, modulo 2^32 |
| ResolveLogger.ResolveInfoState.LogResolve | confidence-resolver/src/resolve_logger.rs:81-115 | the nested loops make exactly these increments, and the schema goes to the sample of its credential and no other |
| BoundedSet.EveryRunIsSound | confidence-resolver/src/bounded_set.rs:71-123 | for any interleaving of inserts: the set is the disjoint union of the slots and of what inserts under way carry, every reference is counted, slots fill in order, and nothing is evicted before the slots are full |
| BoundedSet.StepKeeps | confidence-resolver/src/bounded_set.rs:71-123 | each atomic operation keeps all of that |
| BoundedSet.RemovesItself | confidence-resolver/src/bounded_set.rs:113-122 | removing an evicted item by its value removes that item |
| BoundedSet.NothingDangles | confidence-resolver/src/bounded_set.rs:71-123 | a reference count is zero exactly when nothing holds the item |
| BoundedSet.AtRest | confidence-resolver/src/bounded_set.rs:125-170 | with no insert under way an iteration yields each item of the set once, and `len` of them |
| BoundedSet.FilledInOrder | confidence-resolver/src/bounded_set.rs:125-170 | no empty slot comes before a filled one |
| BoundedSet.NothingSampledAway | confidence-resolver/src/bounded_set.rs:94-103 | while no more new values than slots came in, the set is everything inserted |
| BoundedSet.DropFreesEverything | confidence-resolver/src/bounded_set.rs:172-188 | after the drop loop only the map's own references are left |
| BoundedSet.ReclaimSlots | confidence-resolver/src/bounded_set.rs:172-188 | the drop loop gives back the references up to the first empty slot |
| BoundedSet.AloneSamples | confidence-resolver/src/bounded_set.rs:71-123 | a lone insert ignores a value that is there, adds while there is room, and then replaces the drawn item or leaves itself out |
| BoundedSet.SampleSet.Insert | confidence-resolver/src/bounded_set.rs:71-123 | the insert as it runs is the sequence of its atomic operations |
| DedupKey.KeyWordsTell | confidence-resolver/src/apply_dedup.rs:166-185 | distinct applies have distinct word streams, and no stream continues another |
| DedupKey.FieldRoundTrip | confidence-resolver/src/apply_dedup.rs:59-75 | a field is read back whole from the front of any stream |
| DedupKey.LengthRoundTrip | confidence-resolver/src/apply_dedup.rs:59-75 | a length is read back from its word |
| DedupKey.MixIsBijective | confidence-resolver/src/apply_dedup.rs:47-52 | for a fixed word mixing permutes the 64-bit states, for a fixed state the words, with explicit inverses |
| DedupKey.FinishIsBijective | confidence-resolver/src/apply_dedup.rs:77-85 | the final avalanche permutes the states |
| DedupKey.OneWordApart | confidence-resolver/src/apply_dedup.rs:46-85 | streams that differ in exactly one word never share a hash |
| DedupKey.ReasonsApart | confidence-resolver/src/apply_dedup.rs:166-185 | applies that differ only in their reason never share a hash |
| DedupKey.EventKeepsKey | confidence-resolver/src/apply_dedup.rs:120-156 | the identity rebuilt from a logged event has the key of the apply exactly for matches with a variant and for defaults without a segment whose reason the event can name |
| DedupKey.DedupHasher.Write | confidence-resolver/src/apply_dedup.rs:59-75 | the chunked loop mixes exactly the words of the field |
| DedupKey.ComputeDedupHash | confidence-resolver/src/apply_dedup.rs:166-185 | the hash as it is computed is the hash of the word stream |
| ApplyDedupLaws.SuppressedExactly | confidence-resolver/src/apply_dedup.rs:321-386 | over any run an apply is suppressed exactly when an equal hash was kept before it and not swept since |
| ApplyDedupLaws.RemembersTheLiving | confidence-resolver/src/apply_dedup.rs:321-386 | the map holds exactly those, each at the time it was kept |
| ApplyDedupLaws.CountersCount | confidence-resolver/src/apply_dedup.rs:321-386 | the map never outgrows `max_entries`, and each counter counts its verdict |
| ApplyDedupLaws.VerdictsAddUp | confidence-resolver/src/apply_dedup.rs:321-334 | every apply is suppressed, kept or overflow |
| ApplyDedupLaws.ClockNeverGoesBack | confidence-resolver/src/apply_dedup.rs:376-385 | the sweep clock never goes back |
| ApplyDedupLaws.NothingPreExpired | confidence-resolver/src/apply_dedup.rs:346-350 | no entry is ever so old at the last sweep that it would have dropped it |
| ApplyDedupLaws.SweepsAreApart | confidence-resolver/src/apply_dedup.rs:376-385 | over any run the sweeps are those flushes that come ten seconds after the last sweep, and are counted |
| ApplyDedupLaws.BatchIsSequential | confidence-resolver/src/apply_dedup.rs:341-369 | a batch leaves the cache and marks its applies as if checked one by one |
| ApplyDedup.DedupResult.Collect | confidence-resolver/src/apply_dedup.rs:441-453 | for any batch length the marked applies come back in order |
| ApplyDedup.DedupResult.Mark | confidence-resolver/src/apply_dedup.rs:412-421 | marking sets one bit and no other, inline or in the word it belongs to |
| ApplyDedup.ApplyDedup.FilterDuplicates | confidence-resolver/src/apply_dedup.rs:341-369 | the loop over a batch meets the sequential checks |
| ApplyDedup.ApplyDedup.Check | confidence-resolver/src/apply_dedup.rs:321-334 | one check counts, keeps or overflows |
| ApplyDedup.ApplyDedup.SweepAt | confidence-resolver/src/apply_dedup.rs:376-385 | a sweep is throttled and drops by age |
| TelemetryLaws.RunTransfers | confidence-resolver/src/telemetry.rs:892-941 | over any run of observations and flushes with less than 2^32 a counter between flushes the receiver ends with the sender's sum, count, buckets and rates |
| TelemetryLaws.ReceiverCounts | confidence-resolver/src/telemetry.rs:892-941 | so, under any flush schedule, a new receiver ends with the number of all observations, their sum, the number in each bucket and of each reason, modulo 2^64 |
| TelemetryLaws.SenderCounts | confidence-resolver/src/telemetry.rs:847-860 | the sender counts each observation in its sum, its count and its bucket, and each resolve under its reason |
| TelemetryLaws.RatesAre | confidence-resolver/src/telemetry.rs:925-941 | a delta has a rate for exactly the reasons that came up, each with its count |
| TelemetryLaws.FlushTransfers | confidence-resolver/src/telemetry.rs:892-965 | one flush brings an up-to-date receiver up to date |
| TelemetryLaws.SumArrivesExactly | confidence-resolver/src/telemetry.rs:896-898 | the sum arrives exactly when its delta fits 32 bits |
| Telemetry.SpansRoundTrip | confidence-resolver/src/telemetry.rs:84-104 | accumulating the spans of a histogram adds to each bucket what it has there |
| Telemetry.BucketSpans | confidence-resolver/src/telemetry.rs:84-104 | the loop that collects runs of non-zero buckets meets their specification |
| Telemetry.TelemetrySnapshot.AccumulateDelta | confidence-resolver/src/telemetry.rs:221-331 | accumulating in place meets the specification, malformed spans and unknown reasons skipped |
| TelemetryLaws.ReportsTransfer | confidence-resolver/src/apply_dedup.rs:225-275 | over any run of reports with less than 2^32 a counter between them the receiver ends with every counter and the latest gauges |
| TelemetryLaws.SilentMeansUnchanged | confidence-resolver/src/apply_dedup.rs:261-275 | nothing is reported exactly when nothing changed |
| TelemetryLaws.ReportAddsWhatFits | confidence-resolver/src/apply_dedup.rs:225-275 | of one report the receiver gets each counter in full if it moved by less than 2^32, and 2^32 - 1 of it otherwise |
| TelemetryLaws.DedupReporter.Next | confidence-cloudflare-resolver/src/lib.rs:59-76 | the baseline moves with a report only, and is the current snapshot afterwards |
| TelemetryLaws.WriteBuckets | confidence-resolver/src/telemetry.rs:400-421 | the strided loop writes the cumulative count at every full stride once there is one |
| TelemetryLaws.LinesAre | confidence-resolver/src/telemetry.rs:400-421 | there is a line exactly for each full stride with observations in or before it, and it has their number, modulo 2^64 |
| TelemetryLaws.StrideOf | confidence-resolver/src/telemetry.rs:376-389 | the stride is the least that leaves at most the configured buckets of each 18 |
| TelemetryLaws.LinesGrow | confidence-resolver/src/telemetry.rs:400-421 | without wrap-around the lines grow in bucket and count |
| BatchLaws.BatchingKeepsMetrics | confidence-resolver/src/flag_logger.rs:129-235 | accumulating a merged batch is accumulating its deltas one by one, in every field, exactly when for no counter the total over the batch overflows 32 bits |
| BatchLaws.MergeThenAccumulate | confidence-resolver/src/flag_logger.rs:129-235 | the same for two deltas |
| BatchLaws.AmountMerges | confidence-resolver/src/flag_logger.rs:129-235 | a merged delta has of every counter the sum of the two, to within 32 bits |
| BatchLaws.ReadingAdds | confidence-resolver/src/telemetry.rs:221-331 | accumulating a delta adds its amount of every counter, to within 64 bits |
| BatchLaws.MergeReshapes | confidence-resolver/src/flag_logger.rs:129-235 | buckets, gauges, the reasons and the label sets come out of a merged delta as of the two, whatever overflows |
| BatchLaws.MergeRatesAdds | confidence-resolver/src/flag_logger.rs:148-158 | rates merged by reason have each reason once, with its total to within 32 bits |
| BatchLaws.InitMerges | confidence-resolver/src/flag_logger.rs:160-177 | provider counts merged by label set stay sorted, and have the total of each label set to within 32 bits |
| SnapshotLaws.BuiltBatchKeepsMetrics | confidence-cloudflare-resolver/src/lib.rs:881-971 | a batch built into a snapshot and merged leaves the metrics its deltas leave one by one |
| SnapshotLaws.FrozenAnywhere | confidence-cloudflare-resolver/src/lib.rs:881-991 | wherever the frozen source comes in the order, the merged snapshot is the same |
| SnapshotLaws.GaugesAreLive | confidence-cloudflare-resolver/src/lib.rs:881-991 | gauges are those of the live source; a frozen one leaves them as they are, and none of its own come through |
| BatchLaws.SumSurvivesMergeExactly | confidence-resolver/src/flag_logger.rs:133-146 | the merged latency sum arrives exactly when it does not overflow 32 bits |
| BatchLaws.OverflowLosesCounts | confidence-resolver/src/flag_logger.rs:133-146 | two deltas whose merge loses everything they counted |
| MergeTelemetry.PushAndSort | confidence-cloudflare-resolver/src/lib.rs:957-968 | appending and sorting gives the list that sorted insertion keeps |
| MergeTelemetry.MergeSnapshotInto | confidence-cloudflare-resolver/src/lib.rs:881-971 | the merge as it runs meets its specification |
| Counters.AddSlots | confidence-cloudflare-resolver/src/lib.rs:889-902 | the slot-by-slot loop is index-wise addition |
| Counters.AddAllSums | confidence-resolver/src/telemetry.rs:227-263 | additions leave in each counter the sum of what was added, and reach as far as they must |
| Counters.EntriesEqual | confidence-resolver/src/telemetry.rs:306-330 | a sorted list is determined by its lookups |
| FlagLogger.CountsAreConserved | confidence-resolver/src/flag_logger.rs:266-313 | rule and variant counts of the aggregate are the sums over all entries, capped at the range of the counter |
| FlagLogger.AssignmentsConservedExactly | confidence-resolver/src/flag_logger.rs:266-313 | the aggregate's count of an assignment is the sum over all entries, capped at the range of the counter, exactly when each entry of the rule behind one that counted the id mentions it, and none counts it twice, or when the count is at the cap anyway |
| FlagLogger.SchemasAreUnited | confidence-resolver/src/flag_logger.rs:28-46 | each credential ends with the union of its schemas, under the client that first came with it |
| FlagLogger.AggregateBatch | confidence-resolver/src/flag_logger.rs:11-123 | the loops over the batch meet their specification: flags, schemas, apply events in their order, merged telemetry and the first SDK named |
| FlagLogger.TelemetryIsConserved | confidence-resolver/src/flag_logger.rs:11-66 | a receiver that accumulates the aggregate counts what it would from the messages, exactly when no total overflows 32 bits |
| FlagLogger.UpdateRuleVariantInfo | confidence-resolver/src/flag_logger.rs:266-313 | the update of one flag meets its specification |
| ManagedContext.ManagedWins | confidence-resolver/src/managed_context.rs:15-83 | a managed scalar is what the merged context holds under its path, exactly unless another managed path extends it |
| ManagedContext.OthersPassThrough | confidence-resolver/src/managed_context.rs:60-83 | a path incomparable with all managed paths is looked up as in the request |
| ManagedContext.MergeTwiceIsOnce | confidence-resolver/src/managed_context.rs:15-21 | merging again changes nothing |
| ManagedContext.UnflattenedHolds | confidence-resolver/src/managed_context.rs:23-58 | what the nested form holds under a managed path |
| ManagedContext.SortedPutsShorterFirst | confidence-resolver/src/managed_context.rs:23-30 | in sorted order a path comes before its extensions |
| ManagedContext.PartsAreDotted | confidence-resolver/src/managed_context.rs:23-30 | a path is divided at its dots and nowhere else |
| ManagedContext.MergeStructs | confidence-resolver/src/managed_context.rs:60-83 | the recursive merge as it runs meets its specification |
| ManagedContext.Unflatten | confidence-resolver/src/managed_context.rs:23-30 | the loop over the entries meets its specification |
| ManagedContext.GetAttributeValue | confidence-resolver/src/lib.rs:1359-1385 | the loop down the path meets the lookup the laws are about |
| BoundedFlush.RunsConserve | confidence-event-engine/src/event_logger.rs:27-78 | over any run of pushes and flushes, pushes during a flush included: outputs, then what waits, then the queue are what was pushed, in order, and the byte count is exact |
| BoundedFlush.FlushKeeps | confidence-event-engine/src/event_logger.rs:37-78 | one flush loses nothing, keeps the order and the exact count, and exceeds its limit only by a single event in an empty request |
| BoundedFlush.EmittingKeeps | confidence-event-engine/src/event_logger.rs:60-76 | what a flush puts out is a prefix that could not be longer |
| BoundedFlush.SizeIsEncoded | confidence-event-engine/src/event_logger.rs:80-84 | an event counts as long as its field in the encoded request: a tag, the varint of its length, and its bytes |
| BoundedFlush.VarintRoundTrip | confidence-event-engine/src/event_logger.rs:80-84 | the varint is read back, and is as long as it is taken to be |
| BoundedFlush.FullFlushWaits | confidence-event-engine/src/event_logger.rs:60-76 | a flush that must be full puts something out only when the limit is reached; when enough was there, it does exactly if the request is empty or its first event fits |
| BoundedFlush.FlushesDrain | confidence-resolver/src/assign_logger.rs:67-104 | repeated flushes drain everything in order, each within its limit, exactly when: into empty requests, the limit is not zero or nothing is queued; into requests that hold data, every event fits behind it |
| BoundedFlush.FlushesDrainBehind | confidence-resolver/src/assign_logger.rs:67-104 | into requests that hold data, repeated flushes put out exactly the events in front of the first that does not fit; it and all behind it stay |
| BoundedFlush.NonFullFlushProgresses | confidence-resolver/src/assign_logger.rs:67-104 | a flush that need not be full puts something out exactly when: into an empty request, something waits, or is queued and the limit is not zero; into one that holds data, the first event fits behind it |
| BoundedFlush.EventLogger.FlushFill | confidence-event-engine/src/event_logger.rs:37-78 | the two loops over the deque meet their specification |
| BoundedFlush.EventLogger.Track | confidence-event-engine/src/event_logger.rs:27-29 | an event is queued last |

## Left out

- ProtocolLaws.SuspendResume: the early-write condition is exact in both directions; the other side conditions are sufficient. For each of them but the uniqueness of flag names, which the map of flags ensures, `SideConditions` has a request that fails it alone and is answered otherwise; there is no equivalence for these, because an answer that goes wrong in one flag can be masked by another error of the request.
- Sticky.StickyFixpoint: assumes that the writes change no membership answer the run asked for. `ConfigurationLaws.StickyByConfiguration` has the condition on the configuration that ensures it, and `SideConditions.WrittenMembership` shows that it is needed.
- KvStore.StickyAcrossResolves: the same.
- SegmentLaws.EvaluateTells: is about acyclic segment references, as are the other readings of targeting; on cyclic ones the visited set decides, and `SegmentLaws.MatchIsTargetingAndBit` holds for them too.
- RequestLaws.ResumeAnswers: assumes that no key is carried twice, as in every continuation of a suspended request.
- Resolver.AccountResolver.ResolveFlags: ends at the assignments and records; the response built from them (values, schemas, resolve token), apply and logging are not in it.
- LogBuffer.FlagLogBuffer: `f64` times are reals; the waiter's claim, retirement and cancellation are steps of the state machine in `BufferLaws` only.
- BufferLaws.EveryRunIsSafe: a delivery is a step that ends or is cut off; how it splits and retries a batch is `flag_log/mod.rs`, which is not part of this model. FLUSH_BYTES is PROTO_CHUNK_BYTES from that file.
- CeilingLaws.CeilingHoldsExactly: lengths are those a 32-bit `usize` can hold.
- BufferLaws.DrainTakesOnlyEarlier: assumes fewer than 2^64 arrivals, since the sequence number wraps.
- LoggerLaws.EveryRunIsSound: memory orderings below sequential consistency are not modelled; the schemas each cell samples are in `BoundedSet`; a listing of the maps in any order is the same report.
- BoundedSet.EveryRunIsSound: the counter is unbounded (its wrap at the machine word is not modelled), and the concurrent set drops its reference at removal, where the library may defer it.
- BoundedSet.AtRest: iteration is modelled with no insert under way, which is how a taken cell is read.
- DedupKey.OneWordApart: nothing is claimed of streams that differ in several words, where a 64-bit hash can collide.
- ApplyDedup.DedupResult: a mask word is given by its 64 bits.
- ApplyDedup.ApplyDedup: the map is keyed by the hash as a number; the capacity of the hash table is not modelled.
- TelemetryLaws.RunTransfers: one flusher, and snapshots taken while no observation runs; the bucket of an observation, a logarithm in `f64`, is given with it; the memory gauge is read once a flush.
- BatchLaws.BatchingKeepsMetrics: state age, resolver version and the bucket ratio are carried along by the code and do not reach a snapshot.
- FlagLogger.CountsAreConserved: is about counts that are not negative, as the loggers produce them; so is `FlagLogger.AssignmentsConservedExactly`, which says when the code conserves counts per assignment.
- KvStore.ReadsAnswer: listing and reading are taken to be consistent and not to fail; failed calls read as absent records in the code.
- ManagedContext.ManagedWins: is about scalar managed values; a managed struct is merged with the request's. A list is a leaf.
- BoundedFlush.RunsConserve: assumes that everything pushed can be counted in a `usize`, beyond which the byte count saturates; lock poisoning is ignored.
- Errors of the resolver are the three kinds its callers tell apart; their messages are not modelled.
- The conversion of assignments to the response (schemas, values, resolve tokens), `apply_flags` and exposure logging.
- Operators of attribute criteria, schema derivation, bloom filter bits, hashing, encryption, compression and the codecs.
- HTTP routing, queues, shard selection, timers and the text format of metrics apart from its strided buckets.
