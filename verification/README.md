# ngx-otel-rust: a verified model of the telemetry pipeline

This project models, in Dafny 4.11, the part of ngx-otel-rust that carries telemetry from the nginx
worker processes to the exporter process and on to the collector, and proves what it promises.

The workers append access and error records to byte rings in shared memory and fold repeated error
lines into an open-addressed table. The exporter pops the rings, sweeps the table, joins the two, and
sends batches through one bounded retry lane per signal. On a reload the master announces a successor
exporter by a generation counter; a crash counter keeps a failing exporter from being restarted for
ever; a heartbeat lets a worker notice that the exporter is gone.

Code that works on shared or local state step by step is modelled as classes and methods over arrays,
sequences and fields, each proved equal to a function of the old state. Code that runs in more than one
process at a time is modelled as a step system: every atomic load, store, read-modify-write or byte copy
that another process can come between is an action of its own, a schedule is any sequence of actions,
and the theorems quantify over all schedules. The outside world is a parameter: the clock, the transport's answers
(any function from the attempt number to a verdict, a transport error or a missed deadline), the result
of a fork, the order of steps. Fixed-width arithmetic is written out where it can wrap or saturate.

| file | what it holds |
|---|---|
| `Bytes.dfy` | bytes, 16/32/64-bit integers, big-endian form, powers of two |
| `RingBytes.dfy`, `Ring.dfy` | the length-prefixed byte ring over an array, refining a queue of records |
| `RingSteps.dfy`, `RingConsumers.dfy` | the same ring as interleaved single steps of a producer and a consumer, and with any number of consumers |
| `StableCore.dfy` | the log-line normaliser, the FNV-1a key and what the key separates |
| `CoalesceTable.dfy` | the probe table refining a bounded map, and its sweep |
| `CoalesceRace.dfy`, `CoalesceLoss.dfy`, `CoalesceWitness.dfy`, `CoalesceSweeps.dfy` | writer and sweep interleaved store by store; how much can be lost; runs that show it; several sweeps at once |
| `DrainAccounting.dfy`, `ErrorContents.dfy`, `ErrorLane.dfy`, `Intervals.dfy` | joining counts with samples; what is pushed and reported, record by record; conservation over one interval and over any number of them |
| `Collisions.dfy`, `CollidingLines.dfy` | exactly when conservation holds, and two messages for which it does not |
| `Handoff.dfy` | generations, gates, forks and respawns across reloads; the control zone |
| `Backoff.dfy`, `RetryLane.dfy` | the delivery policy, the retry queues, the retry pass, the flush |
| `AccessCodec.dfy`, `AccessCuts.dfy`, `TraceParent.dfy`, `ConfigParse.dfy` | record codec and its truncated records, `traceparent`, directive values |
| `CrashGate.dfy`, `Liveness.dfy`, `Routes.dfy` | restart breaker, dead-exporter alert, route table |

`dafny verify dfyconfig.toml` checks everything.

## Where the code and its documentation differ

The model follows the code. These are the places where a comment or a name says something else.

- The sweep of the coalescer is said to lose at most one observation per boundary
  (`src/logs/coalesce.rs:355-358`). What is lost is bounded by the number of calls that overlap the window between
  swap and clear (`CoalesceLoss.LossBounded`), and any number can overlap and be lost in one sweep
  (`CoalesceWitness.AnyNumberLost`). One template can be reported with another template's leftovers
  (`CoalesceWitness.MisattributedCount`). The total is never over-reported, and nothing is lost, key by key, when no call
  overlaps. Severity by severity that needs the wider window to the clearing of the severity
  (`CoalesceWitness.SeverityWiped`), and while a sweep runs one entry can occupy two slots whatever the windows
  (`CoalesceWitness.EntryInTwoSlots`).
- The sweep is said never to write `key_hash` and `severity` (`src/logs/coalesce.rs:59-63`); the code clears both.
- The initialiser's comment says the old exporter reads the generation only after it has been told to
  quit (`src/lib.rs:373-375`). The periodic path reads it on every tick, so a fork that fails leaves an exporter
  that read the gate in between latched for good (`Handoff.FailedForkHarmlessIff`).
- One more pass at most after a reload holds exactly for an exporter whose generation is not ahead of the
  counter (`Handoff.OverlapBoundedIff`); a snapshot taken inside a failing fork's window puts it ahead
  (`Handoff.SnapshotInsideFailedFork`).
- A new exporter is said to make the ring's consumer single again (`src/drain/graceful.rs:226-228`). For one more pass it does not:
  both can stand past an open gate (`Handoff.BothPop`). While no pop loads a read offset ahead of its write offset, the ring
  stays a queue exactly as long as none commits from a read offset that has moved since, which a compare-and-swap would
  refuse (`RingConsumers.NoStaleCommitIff`); otherwise any record can be delivered twice
  (`RingConsumers.OverlappingPopsDuplicate`). A pop that does load ahead sees almost 2^64 bytes available and takes whatever
  length lies there (`RingConsumers.AheadPassesWriter`); `RingConsumers.QueueKeptIff` covers both. Two sweeps of one coalescer table still never over-report, but can report a count under
  key zero (`CoalesceSweeps.CrossedSweepsMisname`). And an exporter respawned between the announcement and its quit command takes its
  successor's generation, so both gates stay open (`Handoff.LateRespawnShares`).
- Five restarts in sixty seconds is a bound on sixty seconds that begin with a window's first start. Any
  other sixty seconds can see up to nine, and no more (`CrashGate.RestartsBounded`). Nine take at least 4.4 seconds
  (`CrashGate.NineTakeLong`, met by `CrashGate.NineInFiveSeconds`) unless starts are killed from outside while they
  pause; then two seconds are enough (`CrashGate.NineInTwoSeconds`). The first
  restart pauses 200 ms, as the formula says, not 100 ms as the comment beside it says (`src/exporter/mod.rs:73-75`).
- One alert per generation holds exactly while no generation is seen again after another
  (`Liveness.OnceIff`); a failed fork takes a generation back and allows a second alert.
- `backoff_ms` equals the unbounded doubling for all inputs exactly when the cap is at most 2^63.
- A truncated access record is said simply to omit what is missing (`src/drain/mod.rs:1988-1990`). It does so exactly when the
  bytes left of the field it is cut in read as nothing (`AccessCuts.CleanCutIff`). For text that means fewer than 13
  bytes of a cut address, 10 of a cut path or 8 of a cut agent (`AccessCuts.TextCleanCutIff`); beyond that they are reported as a
  duration that was never sent (`AccessCuts.AddressReadAsDuration`).
- In a graceful flush the batch whose send failed is credited to no counter, and any verdict counts as
  delivered. In a retry pass a 4xx transport error drops the batch; on a fresh send it queues it.
- Two severities with one 64-bit hash share a line in the join. The weights add up, for all messages of a
  pool, exactly when no two of the pool collide like that (`Collisions.ConservationIff`); three messages then weigh two
  or four (`Collisions.CollisionMiscounts`). Such messages exist: "vksAAswrkswcn" as an error and "BhalFioqzfgaa" as a warning, with
  any common text behind (`CollidingLines.ShareHash`). The same message at two severities collides only through the
  replacement of hash 0 by 1 (`StableCore.SeveritiesKeyApart`).
- A sample left in the ring by the drain's cap is said to arrive in the next interval without a count
  (`src/drain/mod.rs:1704-1711`). It is joined with the count of the interval it is popped in; when that interval's own sample is
  popped too, the count is reported twice (`Intervals.CapBreaksConservation`). Over any number of intervals the law holds
  exactly when that never happens (`Intervals.IntervalsConserveIff`).
- A ring of capacity zero refuses every push without counting a drop.

## Model

| member | source | states |
|---|---|---|
| Bytes.DecodeEncode | src/logs/access.rs:161-175 | big-endian reading undoes big-endian writing for every value that fits the width |
| Bytes.EncodeDecode | src/drain/mod.rs:1937-1938 | big-endian writing undoes reading for every byte string |
| Bytes.HighFirst | src/logs/access.rs:161-175 | the bytes of a number are those of its high part, then those of its low part |
| RingBytes.FrameLength | src/logs/ring.rs:143-179 | the 4-byte prefix read back is the record's length whenever it fits in 32 bits |
| RingBytes.ReadWritten | src/logs/ring.rs:205-254 | bytes laid down from any offset are read back unchanged, wherever they wrapped |
| RingBytes.LiveWindowUntouched | src/logs/ring.rs:136-147 | a write behind the live window within one lap changes no byte of it |
| RingBytes.PushedWindow | src/logs/ring.rs:142-149 | length then payload extends the live window by exactly one framed record |
| RingBytes.HeadOfWindow | src/logs/ring.rs:174-189 | the head of a live window that spells a queue is that queue's first record, length and bytes |
| RingBytes.WindowPieces | src/logs/ring.rs:231-254 | a window of the ring is one slice of the payload or two when it crosses the end |
| Ring.SignalRing.constructor | src/logs/ring.rs:94-110 | a zeroed ring is valid and empty |
| Ring.SignalRing.WriteWrap | src/logs/ring.rs:205-228 | the two-piece copy lays the data down modulo the capacity and touches nothing else |
| Ring.SignalRing.ReadWrap | src/logs/ring.rs:231-254 | the two-piece copy returns the window of the ring |
| Ring.SignalRing.Push | src/logs/ring.rs:121-151 | accepted exactly when the bytes between the offsets + 4 + len fit the capacity; then the queue gains the record at its end, otherwise only the drop counter moves, by one (not even that at capacity zero) |
| Ring.SignalRing.PopInto | src/logs/ring.rs:157-191 | succeeds exactly when a record is queued; appends the oldest one byte for byte and removes it |
| Ring.SignalRing.DropCount | src/logs/ring.rs:195-199 | the number of refused pushes |
| Ring.PopRecord | src/drain/mod.rs:1772-1791 | popping into a cleared buffer splits the queue into its head and the rest |
| Ring.ApplyConserves | src/logs/ring.rs:121-191 | one push or pop keeps: accepted = popped + queued, attempts = accepted + dropped, queue within capacity |
| Ring.HistoryConserves | src/logs/ring.rs:121-191 | the same over every sequence of pushes and pops |
| RingSteps.CopyMissesUnread | src/logs/ring.rs:136-147 | no byte copied for a record being pushed falls on a byte of an unread record |
| RingSteps.WholeRecordAvailable | src/logs/ring.rs:166-172 | at a record boundary four available bytes mean a whole record is available |
| RingSteps.LengthIsTrue | src/logs/ring.rs:174-183 | a completely read length is the oldest unread record's, which lies wholly in the loaded window |
| RingSteps.ProducerKeepsInv | src/logs/ring.rs:121-151 | every step of a push, and its abandonment, keeps the invariant of both processes |
| RingSteps.ConsumerKeepsInv | src/logs/ring.rs:157-191 | every step of a pop, and the consumer's replacement, keeps it |
| RingSteps.EveryInterleavingIsFifo | src/logs/ring.rs:121-191 | in every interleaving: r ≤ w ≤ r + cap, committed pops are a prefix of accepted pushes, the unread bytes spell the rest, attempts are accounted for |
| RingSteps.ProducerNeverTouchesUnread | src/logs/ring.rs:133-149 | in every interleaving no step of the producer changes a byte of an unread record |
| RingSteps.LengthCheckNeverRefuses | src/logs/ring.rs:178-183 | in every interleaving the second availability test of a pop never fails |
| RingConsumers.QueueKeptIff | src/logs/ring.rs:121-191 | for every schedule of a producer and any number of consumers, the ring is a queue at every point of the run (committed a prefix of accepted, offsets within a lap, the unread bytes the rest) if and only if no commit is from a read offset that has moved and none of a pop that loaded ahead takes anything but the next record |
| RingConsumers.NoStaleCommitIff | src/logs/ring.rs:157-191 | while no pop finds the read offset ahead of the write offset it loaded, that is exactly the absence of commits from a moved offset |
| RingConsumers.DisjointPopsAreFifo | src/logs/ring.rs:157-191 | pops that do not overlap, whichever consumer makes them, keep the queue at every point of the run |
| RingConsumers.DeliveredTwice | src/logs/ring.rs:157-191 | from every sound state with an unread record and two idle consumers, a run that delivers that record twice and moves the read offset once |
| RingConsumers.OverlappingPopsDuplicate | src/logs/ring.rs:157-191 | for every record that fits: pushed once, delivered twice |
| RingConsumers.AheadPassesWriter | src/drain/graceful.rs:223-228 | for every buffer and record, a run without a commit from a moved offset in which the read offset ends past the write offset by whatever 32-bit length lay there |
| StableCore.SkipPair | src/logs/coalesce.rs:141-157 | the scan for a two-byte pair, as a loop, stops where its specification does |
| StableCore.AfterFirstPair | src/logs/coalesce.rs:141-157 | that place is just past the first occurrence of the pair |
| StableCore.RanOutOnSecond | src/logs/coalesce.rs:141-157 | a scan that ends at the end of the line found the pair's second byte there |
| StableCore.SkipConnection | src/logs/coalesce.rs:159-169 | skips exactly an optional star, digits and space |
| StableCore.CutContext | src/logs/coalesce.rs:173-193 | stops at the first handler or client marker, or at the trimmed end |
| StableCore.StartBeforeEnd | src/logs/coalesce.rs:138-195 | on every byte string the start found by the prefix scans is at most the trimmed end, so the slice never fails |
| StableCore.StableCore | src/logs/coalesce.rs:137-202 | total on every byte string; the four loops compute the specified slice, empty only for the empty line |
| StableCore.CoreOfWellShaped | src/logs/coalesce.rs:108-202 | for every line of the documented shape the result is exactly the message |
| StableCore.ContextText | src/logs/coalesce.rs:173-193 | a context begins exactly where one of the two marker texts does |
| StableCore.ConnectionText | src/logs/coalesce.rs:159-171 | a connection is a star, decimal digits and a space; the trimmed byte is a line feed |
| StableCore.CoreOfMessageless | src/logs/coalesce.rs:195-202 | a line of that shape with an empty message is its own core, whole |
| StableCore.CoalesceKey | src/logs/coalesce.rs:210-226 | the loop computes the 64-bit FNV-1a of severity and message, zero replaced by one |
| StableCore.KeyIgnoresPrefixAndContext | src/logs/coalesce.rs:137-226 | two lines with one message and severity share a key whatever their time, process, connection and client |
| StableCore.FnvInjective | src/logs/coalesce.rs:210-226 | hashing any fixed suffix is injective in the running hash |
| StableCore.SeveritiesHashApart | src/logs/coalesce.rs:210-226 | one message at two severities never has one raw hash |
| StableCore.SeveritiesKeyApart | src/logs/coalesce.rs:210-226 | its two keys coincide exactly when the raw hashes are 0 and 1 |
| CoalesceTable.IdOnPath | src/logs/coalesce.rs:276-330 | an entry of a hole-free table sits on its probe path before any empty slot |
| CoalesceTable.AbsentAtHole | src/logs/coalesce.rs:286-301 | an empty slot reached over other entries proves the entry absent |
| CoalesceTable.FullIffCapacity | src/logs/coalesce.rs:316-329 | all 256 slots are occupied exactly when the map has 256 entries |
| CoalesceTable.FillKeepsNoHoles | src/logs/coalesce.rs:289-301 | filling the first empty slot of a path keeps every path free of holes |
| CoalesceTable.BumpKeepsNoHoles | src/logs/coalesce.rs:303-314 | rewriting count and flag moves no entry |
| CoalesceTable.Table.constructor | src/logs/coalesce.rs:333-337 | a zeroed table refines the empty map |
| CoalesceTable.Table.Probe | src/logs/coalesce.rs:276-330 | the probe loop stops at the first match or hole of the path, or after a whole lap over other entries |
| CoalesceTable.Table.ProbeDecides | src/logs/coalesce.rs:276-331 | a match is found exactly when the map has the entry; a whole lap means the map is full |
| CoalesceTable.Table.Insert | src/logs/coalesce.rs:289-301 | adds one entry with count one, sampled |
| CoalesceTable.Table.Bump | src/logs/coalesce.rs:303-314 | adds one to one entry, modulo 2^32, and answers whether it had been sampled |
| CoalesceTable.Table.CoalesceKeyed | src/logs/coalesce.rs:272-331 | for every non-zero key the table answers and changes as the bounded map does |
| CoalesceTable.Table.Coalesce | src/logs/coalesce.rs:254-331 | with coalescing off, or at severity 3 and below, the line is emitted with hash zero and the table left alone; otherwise an entry is bumped modulo 2^32 and suppressed once its sample is out, a new one is remembered and emitted with its key while fewer than 256 are there, and emitted with hash zero when they are |
| CoalesceTable.Table.EvictAll | src/logs/coalesce.rs:371-402 | every slot ends empty; the output lists the slots with a count in slot order |
| CoalesceTable.SweepReports | src/logs/coalesce.rs:371-402 | that list has exactly one line per counted entry of the map, with its count |
| CoalesceTable.Table.Drain | src/logs/coalesce.rs:371-402 | the sweep reports exactly the map and leaves the empty map |
| CoalesceRace.NeverOverReported | src/logs/coalesce.rs:286-402 | in every interleaving: reported + in slots + in the sweep's hand + lost = counting calls, so never more is reported than was called |
| CoalesceRace.ExactWithoutOverlap | src/logs/coalesce.rs:286-402 | when no call overlaps the swap-to-clear window of its slot and fewer than 2^32 calls count, nothing is lost, in total and per key; when none overlaps the wider window to the clearing of the severity, per key and severity |
| CoalesceLoss.LossBounded | src/logs/coalesce.rs:355-402 | in every interleaving with fewer than 2^32 counting calls, what is lost and what lies in slots without a key is at most the number of calls that stood on a slot inside its swap-to-clear window |
| CoalesceWitness.AnyNumberLost | src/logs/coalesce.rs:355-402 | for every key and every n there is a run with one sweep and n overlapping calls that loses n observations, so the bound is met |
| CoalesceWitness.MisattributedCount | src/logs/coalesce.rs:286-402 | for every two keys with one home slot and every n ≥ 2 there is a run in which the second, called once, is reported n times |
| CoalesceWitness.SeverityWiped | src/logs/coalesce.rs:384-395 | for every two such keys a run with no call in the swap-to-clear window in which the only call of the second at severity 4 is counted, not lost, and stands nowhere under that severity |
| CoalesceWitness.EntryInTwoSlots | src/logs/coalesce.rs:371-402 | for every two such keys a run with no call in either window in which the second occupies two slots at one severity |
| CoalesceSweeps.SweepsNeverOverReport | src/logs/coalesce.rs:286-402 | in every interleaving of a writer and any number of sweeps, with exporters dying at any step: handed over + listed + taken + died + in slots + overwritten = counting calls |
| CoalesceSweeps.SweepsExact | src/logs/coalesce.rs:286-402 | when no call stands in any sweep's window nothing is overwritten and the total is exact; when also no two sweeps stand in the windows of one slot, every key's account is; with wide windows, every key's at every severity |
| CoalesceSweeps.CrossedSweepsMisname | src/logs/coalesce.rs:371-402 | for every key a run with no call in a window in which two sweeps cross and its one observation is held under key zero |
| DrainAccounting.ParseEncoded | src/logs/error_writer.rs:339-360 | what the writer pushes parses back: every field, the body cut to its cap |
| DrainAccounting.TalliedStep | src/logs/error_writer.rs:259-292 | one logged message keeps the agreement of table counts, queued samples and drop counter with the messages so far |
| DrainAccounting.TalliedAlways | src/logs/error_writer.rs:259-292 | the agreement holds after every sequence of fewer than 2^32 messages without a cross-severity collision |
| DrainAccounting.SampleWeights | src/drain/mod.rs:1755-1792 | the samples of any queue weigh one each, what their counts add once, and what joining a count again adds |
| DrainAccounting.RepeatsZeroIff | src/drain/mod.rs:1755-1792 | nothing is added again exactly when no two records share a hash counted more than once |
| DrainAccounting.SyntheticWeights | src/drain/mod.rs:1794-1826 | the synthetic records weigh exactly the counts no sample consumed |
| DrainAccounting.ReportCounts | src/drain/mod.rs:1746-1759 | the swept counts add up to the counted messages |
| DrainAccounting.Conservation | src/drain/mod.rs:1742-1842 | messages logged = weights of samples and synthetics + ring drops − synthetics + records still queued, for every cut of the queue |
| ErrorLane.LogError | src/logs/error_writer.rs:259-292 | coalesce, then push exactly on an emit |
| ErrorContents.OptedOutRun | src/logs/coalesce.rs:262-270 | any number of messages with coalescing off, or of level 3 and below, leave the table as it was and attempt one push each, with hash zero; with room they are queued one for one in order |
| ErrorContents.TableIgnoresOptedOut | src/logs/coalesce.rs:262-270 | in any mixture the table is that of the tracked messages alone |
| ErrorContents.FatesAre | src/logs/coalesce.rs:272-331 | with at most 256 distinct templates every tracked message is counted in the entry of its key and level |
| ErrorContents.QueueCarries | src/logs/error_writer.rs:259-292 | from an empty table and ring the queue is, in order, the records of messages that are in no entry or the first in theirs; all of them when nothing was dropped |
| ErrorContents.ParsesExactly | src/drain/mod.rs:2084-2115 | a buffer parses to a record exactly when it begins with that record laid out in the wire format |
| ErrorContents.SamplesReport | src/drain/mod.rs:2104-2149 | one sample for each popped record that parses, in ring order, with exactly what it parses to and the count of the last swept line of its hash, if that exceeds one |
| ErrorContents.OrphansAre | src/drain/mod.rs:1794-1826 | one synthetic record with severity, hash and count for each counted line that no popped record names, and no other |
| ErrorContents.LoggedAre | src/drain/mod.rs:1742-1842 | from logging to collection the samples are the time, level, 512-byte-capped line and hash of the messages pushed, in order; with nothing dropped and at most 256 templates every untracked message and the first of every template is among those pushed |
| ErrorLane.PopSamples | src/drain/mod.rs:1761-1792 | pops the oldest records up to the cap; reports each that parses, field by field, with the count of its hash; hashes are consumed only by records that parsed |
| ErrorLane.BuildCounts | src/drain/mod.rs:1755-1759 | the join map, the last line of a hash winning |
| ErrorLane.EmitOrphans | src/drain/mod.rs:1794-1826 | one synthetic record per unconsumed line; the orphaned total is the sum of their counts |
| ErrorLane.CollectErrors | src/drain/mod.rs:1742-1842 | the error half of the collection of one worker: the samples are exactly what the popped records parse to, in ring order, the synthetics exactly one per counted line that no popped record names; the orphaned total is their weight |
| ErrorLane.FewEnoughRecords | src/drain/mod.rs:1711-1711 | error records cost at least 24 ring bytes each |
| ErrorLane.SmallRing | src/drain/mod.rs:1701-1711 | a ring of at most 1 200 000 bytes never queues more than one drain pops |
| ErrorLane.QuiescentInterval | src/drain/mod.rs:1742-1842 | the conservation law on the table and ring objects themselves, from logging to collection; the samples are the messages pushed, field by field, in order; a small ring ends empty; the orphaned counter is exactly the synthetic weight |
| Collisions.CollisionMiscounts | src/drain/mod.rs:1755-1792 | for any two tracked messages that collide, three of them logged into an empty table and a ring with room are reported with weight two or four, whatever the slot order |
| Collisions.ConservationIff | src/drain/mod.rs:1742-1842 | for every pool of messages and every ring with room for two of them, the conservation law holds for all sequences from the pool, all slot orders and all cuts of the queue if and only if no two tracked messages of different severity share a hash |
| CollidingLines.XorIsBitwise | src/logs/coalesce.rs:210-226 | the arithmetic exclusive or of the hash is the machine's on bytes |
| CollidingLines.ShareHash | src/logs/coalesce.rs:210-226 | two named messages, with any common text behind, have one hash at severities 4 and 5 |
| CollidingLines.LinesCollide | src/logs/coalesce.rs:137-226 | any two lines of the documented shape with these messages collide, whatever their time, process, connection and client |
| CollidingLines.LinesBreakConservation | src/drain/mod.rs:1742-1842 | logged once and twice they break the conservation law |
| Intervals.IntervalLaw | src/drain/mod.rs:1742-1842 | one interval on top of any queue: messages + repeated joins = weights − synthetics + drops + growth of the queue |
| Intervals.IntervalsConserveIff | src/drain/mod.rs:1742-1842 | the same over every sequence of intervals and every cut of the queue in each; the conservation law holds if and only if no interval pops two records of one hash it counted more than once |
| Intervals.DrainedIntervalsConserve | src/drain/mod.rs:1711-1842 | so it holds over all intervals when every drain empties the ring |
| Intervals.CapBreaksConservation | src/drain/mod.rs:1701-1792 | for every cap from two, every tracked and every untracked message, two intervals that pop up to the cap and break the law |
| Handoff.GenCountsSuccessfulForks | src/lib.rs:352-413 | in every run, outside the initialiser the generation is the number of successful reload forks; the exporters are these, the first and the respawned |
| Handoff.ClosedSpends | src/drain/mod.rs:913-1094 | while an exporter's gate is closed each step spends at most the pass it had already been allowed |
| Handoff.ReloadKeepsGateClosed | src/lib.rs:352-413 | after a reload whose fork succeeds the counter never falls back, whatever follows |
| Handoff.AtMostOneMorePass | src/drain/mod.rs:913-1094 | after the announcement every older exporter starts at most one more log pass and one more span pass, periodic and graceful paths together |
| Handoff.NoPassAfterSeeing | src/drain/graceful.rs:145-455 | and none after a gate read on either path that saw the successor |
| Handoff.ShutdownDrainsIff | src/drain/graceful.rs:240-455 | a shutdown from anywhere in a tick, others in between, takes the final log pass and the final span pass, one each, exactly when no successor had been announced when the graceful path read the gate, whether or not the periodic path had abdicated |
| Handoff.PassAfterQuitIff | src/drain/graceful.rs:145-154 | after the graceful gate is read a pass can still be started if and only if no successor had been announced |
| Handoff.TickPassesIff | src/drain/mod.rs:909-1094 | a tick of an exporter that has not abdicated passes the lanes that are not skipped exactly when no successor had been announced; otherwise it abdicates |
| Handoff.OverlapBoundedIff | src/drain/mod.rs:648-651 | the bound holds for all continuations, for log passes and for span passes, exactly when the exporter's snapshot is not ahead of the counter |
| Handoff.SnapshotInsideFailedFork | src/drain/mod.rs:648-651 | a reachable state in which it is ahead |
| Handoff.AtMostOneOpenGate | src/drain/mod.rs:648-651 | if every snapshot precedes the next announcement and exporters are respawned only for the generation in force: live generations are distinct, at most one live exporter would find its gate open or has yet to snapshot, and every live one of an older generation has at most one log pass and one span pass left whatever follows |
| Handoff.LateRespawnShares | src/lib.rs:120-139 | an exporter that crashes after the announcement and is respawned before it is told to quit shares its successor's generation, every snapshot in time, both gates open |
| Handoff.ToldIsNotRespawned | src/lib.rs:120-139 | an exporter told to quit is not respawned, whatever follows |
| Handoff.CrashIsRespawned | src/lib.rs:120-139 | one that dies untold is, once, for the same generation |
| Handoff.BothPop | src/drain/mod.rs:909-1094 | a run with every snapshot in time in which two exporters both stand past a gate they found open |
| Handoff.LateSnapshotShares | src/drain/mod.rs:648-651 | without that premise two exporters can share a generation with both gates open |
| Handoff.ClosedReads | src/drain/graceful.rs:145-154 | with the gate closed a read is exactly what latches an exporter |
| Handoff.FailedForkHarmlessIff | src/lib.rs:360-413 | a failed fork restores the counter and leaves a running exporter unlatched exactly when it did not read the gate in between |
| Handoff.AbdicationIsForever | src/drain/mod.rs:909-921 | the latch is one-way: no later pass on the periodic path, whatever the counter does |
| ControlShm.Control.AnnounceSuccessor | src/exporter/control_shm.rs:119-121 | adds one modulo 2^64 |
| ControlShm.Control.RollbackSuccessor | src/exporter/control_shm.rs:132-134 | subtracts one modulo 2^64 |
| ControlShm.Control.ReloadReset | src/exporter/control_shm.rs:157-179 | a reload clears crash count and window and keeps the generation |
| ControlShm.Control.InitModule | src/lib.rs:352-413 | the initialiser adds exactly one for a reload whose fork succeeds and nothing otherwise |
| Backoff.ShiftWithinHeadroom | src/drain/backoff.rs:117-130 | below the leading zeros the shift loses nothing; from there on the true product is at least 2^63 |
| Backoff.BackoffIsIdeal | src/drain/backoff.rs:117-130 | for every count, base and cap up to 2^63 the guarded shift is min(base·2^(n−1), cap) over unbounded integers |
| Backoff.BackoffExactIff | src/drain/backoff.rs:117-130 | a cap is exact for all counts and bases if and only if it is at most 2^63 |
| Backoff.DoublingDeferral | src/drain/backoff.rs:117-130 | with the lane's constants the deferral doubles from 250 ms to 30 s |
| Backoff.DeferredUntil | src/drain/backoff.rs:91-93 | after a retryable verdict the lane is deferred until exactly the hint (at least one millisecond) or min(250·2^(n−1), 30000) ms after the verdict, clipped to 64 bits |
| Backoff.PolicyOf | src/drain/backoff.rs:184-243 | by the verdict alone: accepted and partly rejected release and clear the deferral, permanent and unauthorized drop and leave it, retryable requeues, counts one more and defers |
| Backoff.CounterIsStreak | src/drain/backoff.rs:184-243 | in every run of verdicts the counter is the saturating number of retryables since the last release |
| Backoff.DeferralNeverShrinks | src/drain/backoff.rs:184-243 | in every run the unhinted deferral never shrinks before a release and never exceeds the cap |
| Backoff.DeferralInForce | src/drain/backoff.rs:91-243 | in every run the lane is deferred at a time exactly when a retryable verdict came since the last release and the time is before what the latest of them asked for |
| RetryLane.Remove | src/drain/graceful.rs:92-111 | taking one batch out of a queue, anywhere, keeps the age order and takes exactly its records |
| RetryLane.EnqueueHolds | src/drain/graceful.rs:92-111 | enqueueing loses no record, keeps the order and the depth |
| RetryLane.FreshSound | src/drain/mod.rs:402-460 | a fresh send keeps conservation, order and depth whatever the transport answers |
| RetryLane.PassFromSound | src/drain/mod.rs:1367-1447 | so does a retry pass from any of its turns |
| RetryLane.FlushSound | src/drain/graceful.rs:267-301 | so does a flush, which empties the queue |
| RetryLane.LaneAlwaysSound | src/drain/mod.rs:402-1448 | over every sequence of sends, passes and flushes: records offered = delivered + refused + credited as dropped + lost in hand + queued; the queue is in age order and at most max(depth, 1) long |
| RetryLane.PassLeavesSuffix | src/drain/mod.rs:1367-1447 | at every depth a pass leaves the youngest of the batches from the first transient failure on, or past the first permanent rejection, up to the depth, and drops the records of the others; within the depth it drops nothing |
| RetryLane.FailedSendsKeepLast | src/drain/graceful.rs:92-111 | after any sequence of sends that fail the queue is exactly the youngest batches queued before and offered since, up to max(depth, 1); the others are credited as dropped, nothing is delivered or refused |
| RetryLane.PassAccounts | src/drain/mod.rs:1367-1447 | at any depth a pass counts as delivered exactly the batches accepted or partly rejected before it stopped, as refused those with a permanent or unauthorized verdict and the one a permanent rejection stopped it on, and one failure if it stopped |
| RetryLane.FlushCreditsBehind | src/drain/graceful.rs:123-132 | an aborted flush credits exactly the batches behind the failing one; the failing one is credited nowhere |
| RetryLane.SignalLane.constructor | src/drain/backoff.rs:72-85 | an empty lane, not deferred |
| RetryLane.SignalLane.EnqueueWithEviction | src/drain/graceful.rs:92-111 | the queue ends in the batch; what is before it is the old queue, or at depth the old queue without its oldest batch, whose records are credited and returned |
| RetryLane.SignalLane.ApplyDeliveryOutcome | src/drain/backoff.rs:184-243 | retryable requeues and defers until the hinted or doubled time, permanent and unauthorized drop and leave the deferral, the others release and clear it |
| RetryLane.SignalLane.ApplySendOutcome | src/drain/backoff.rs:263-297 | the policy on a batch in hand, by the verdict: delivered; put back as the youngest with a failure counted; or refused |
| RetryLane.SignalLane.SendFreshBatch | src/drain/mod.rs:402-460 | an empty batch is not sent; otherwise the answer decides, a transport error of any status and a missed deadline putting the batch back with a failure counted; the lane stays sound |
| RetryLane.SignalLane.RetryBatch | src/drain/mod.rs:1376-1446 | one queued batch tried again: a transport error with status 400 to 499 refuses it, any other puts it back; the pass stops on everything but a verdict other than retryable |
| RetryLane.SignalLane.DrainWithTimer | src/drain/mod.rs:1352-1448 | the whole loop is the specified pass, and the deferral ends as the run of the verdicts heard |
| RetryLane.SignalLane.DrainRetryQueueOnce | src/drain/mod.rs:1312-1448 | the same, with soundness and the remaining youngest batches stated on the queue itself |
| RetryLane.SignalLane.AccountDropsAndClear | src/drain/graceful.rs:123-132 | credits the sum of the queued records and empties the queue |
| RetryLane.SignalLane.FlushQueue | src/drain/graceful.rs:267-366 | the shutdown loop of one lane is the specified flush and leaves the queue empty |
| AccessCodec.RoundTrip | src/drain/mod.rs:1918-2063 | for every request, parsing the emitted record returns every field under its own name, byte fields cut to 16, 46, 64 and 128 bytes |
| AccessCodec.LegacyRecord | src/drain/mod.rs:1988-2015 | a record whose writer stopped after any number of trailing groups parses to exactly the fields it carries |
| AccessCuts.TruncatedRecord | src/drain/mod.rs:1918-2015 | a record cut at any byte: nothing before the address length is complete, and from there exactly the whole fields with the left-over bytes of the cut field taken for the fields behind it |
| AccessCuts.CleanCutIff | src/drain/mod.rs:1988-2015 | for every request and cut past the address length, exactly the whole fields are reported and nothing else if and only if the left-over bytes read as no field and no duration |
| AccessCuts.TextCleanCutIff | src/drain/mod.rs:1988-2015 | for text fields, traced or not, that is exactly fewer than 13 bytes of a cut address, 10 of a cut path or 8 of a cut agent, and inside the ids exactly when those left are quiet |
| AccessCuts.AddressReadAsDuration | src/drain/mod.rs:1974-2015 | every text address of at least 14 bytes cut after 13 is reported as the duration its bytes 5 to 12 spell |
| AccessCodec.PutPrefixed | src/logs/access.rs:176-183 | writes the capped field with its 16-bit length and nothing else before it changes |
| AccessCodec.FormatAccessRecord | src/logs/access.rs:151-221 | every write stays inside the 336-byte buffer; the result is the encoding and at most 323 bytes |
| AccessCodec.EmitAccessRecord | src/logs/access.rs:151-223 | the ring gains exactly the encoding, or counts a drop |
| AccessCodec.ReadU16Prefixed | src/drain/mod.rs:2181-2193 | on every buffer and position: the run, or empty with the position left before a partial header or after a partial body's header |
| AccessCodec.ReadTail | src/drain/mod.rs:1988-2015 | trace ids, path, agent and duration as the consuming reader gives them, every read in bounds |
| AccessCodec.ParseAccessRecord | src/drain/mod.rs:1918-2063 | on every buffer whatsoever the position-advancing parser stays in bounds and agrees with the consuming reader |
| AccessCodec.CollectAccess | src/drain/mod.rs:1713-1736 | takes the oldest records up to 2 500 and keeps those that parse, in order |
| AccessCodec.ReportedInOrder | src/drain/mod.rs:1713-1736 | requests that went through the ring are reported one for one, in order |
| TraceParent.HexNibble | src/logs/access.rs:328-334 | accepts exactly the lower-case digits, inverse to the digit printer |
| TraceParent.HexInjective | src/lib.rs:531-537 | the hexadecimal printer is injective |
| TraceParent.HexIsNumber | src/lib.rs:531-537 | the text read as a hexadecimal number is the number the bytes spell, most significant first |
| TraceParent.DecodeHex | src/logs/access.rs:290-319 | accepts exactly the text that is the lower-case hexadecimal of some bytes, and returns them |
| TraceParent.FormatText | src/metric_source/span_start.rs:439-450 | the header spelled out: version 00, the ids and the flags with dashes between |
| TraceParent.FormatInjective | src/metric_source/span_start.rs:439-450 | a header has one reading |
| TraceParent.ParseTraceparentFull | src/logs/access.rs:243-287 | accepts exactly the 55-byte version-00 headers with lower-case hexadecimal and neither id all zero (section 3.2.2 of W3C Trace Context); re-encoding what it returns gives the header back |
| TraceParent.HexEncodeInto | src/lib.rs:531-537 | writes the hexadecimal of the source at its place and leaves the rest of the buffer alone |
| TraceParent.BuildTraceparentValue | src/metric_source/span_start.rs:439-450 | the 55-byte buffer ends as the header of the context |
| TraceParent.Forward | src/metric_source/span_start.rs:439-450 | what one hop writes the next hop reads back, for every non-zero id pair and flags octet |
| ConfigParse.ParseU64Ascii | src/config/parse.rs:67-79 | a value exactly for non-empty digit strings whose number fits in 64 bits; no prefix overflow refuses a representable one |
| ConfigParse.ValueOfPrinted | src/config/parse.rs:67-79 | reading a number printed in decimal gives it back |
| ConfigParse.PrintedOfValue | src/config/parse.rs:67-79 | printing undoes reading for every digit string without a leading zero |
| ConfigParse.SplitUnique | src/config/parse.rs:14-32 | a string splits into number and unit in one way only |
| ConfigParse.MeaningUnique | src/config/parse.rs:14-56 | so it denotes at most one value |
| ConfigParse.DurationUnits | src/config/parse.rs:14-32 | milliseconds mean themselves; a second, also a bare number, is a thousand, a minute sixty seconds, an hour sixty minutes, a day 24 hours |
| ConfigParse.UnitTexts | src/config/parse.rs:14-56 | no other suffix is a unit |
| ConfigParse.SizeUnits | src/config/parse.rs:34-56 | a bare number is bytes; k, m and g, in either case, are each 1024 of the one before |
| ConfigParse.ParseDurationMs | src/config/parse.rs:14-32 | a value exactly when the string is digits and an allowed unit whose unbounded product fits in 64 bits, and that product |
| ConfigParse.ParseSizeBytes | src/config/parse.rs:34-56 | the same for sizes, units in either case |
| CrashGate.CrashBackoffIsIdeal | src/exporter/mod.rs:76-82 | the pause is min(100·2^(count−1), 5000) ms over unbounded integers for every count from 2 |
| CrashGate.StepKeepsInv | src/exporter/mod.rs:189-235 | every start, crash, kill, tick and passing of time keeps the spacing of windows and the count of starts |
| CrashGate.RestartsBounded | src/exporter/mod.rs:189-235 | over every run between reloads: any two windows are sixty seconds apart and six starts span two; six within sixty seconds never begin with a window's first; no ten fall within sixty seconds |
| CrashGate.PausesKept | src/exporter/mod.rs:215-228 | over every run without a kill from outside: starts are numbered within their window and the n-th is followed by the next no sooner than min(100·2^(n−1), 5000) ms later, the first at once |
| CrashGate.NineTakeLong | src/exporter/mod.rs:189-235 | over every such run nine starts take at least 4.4 seconds |
| CrashGate.NineInFiveSeconds | src/exporter/mod.rs:189-235 | a run without a kill in which nine starts take exactly 4.4 seconds |
| CrashGate.NineInTwoSeconds | src/exporter/mod.rs:189-235 | with starts killed from outside during their pause, nine fall within two seconds |
| CrashGate.RefusedIff | src/exporter/mod.rs:195-213 | a start is refused exactly when its window is open and five starts were counted in it |
| CrashGate.HealthyStartsOver | src/drain/mod.rs:1159-1180 | after sixty seconds up the next start is the first of a new window, without a pause, whatever came before |
| CrashGate.DisabledForGood | src/exporter/mod.rs:202-213 | after a refusal no start goes through |
| CrashGate.CrashCounter.Admit | src/exporter/mod.rs:189-228 | the gate on the shared counters: a new window when none is open or it is more than sixty seconds old, the count modulo 2^64, refusal exactly above five, and the pause |
| CrashGate.CrashCounter.HealthyReset | src/drain/mod.rs:1159-1180 | clears the counters once, exactly when the loop has been up for sixty seconds |
| Liveness.StaleIff | src/liveness.rs:62-65 | stale means the exporter has beaten and its last beat is more than five seconds behind the clock |
| Liveness.AliveNeverAlerts | src/liveness.rs:54-65 | over every history an exporter that has not beaten yet or is within five seconds of its last beat is never alerted |
| Liveness.FirstDeadAlerts | src/liveness.rs:92-136 | the first drop that finds it dead alerts |
| Liveness.AlertIff | src/liveness.rs:62-136 | over every history of drops an alert is raised exactly at a stale drop whose predecessor among the stale ones saw another generation, or which has none and does not see the sentinel |
| Liveness.AlertBehind | src/liveness.rs:92-136 | every stale drop, a run of sentinels at the start aside, has had an alert for its generation, and none for another since |
| Liveness.OnceIff | src/liveness.rs:67-73 | at most one alert per generation exactly when no generation is revisited, for every history |
| Liveness.GrowingIsOnce | src/liveness.rs:67-73 | growing generations are never revisited |
| Liveness.RollbackAlertsAgain | src/liveness.rs:67-73 | a generation taken back is alerted twice |
| Liveness.Worker.CheckExporterLiveness | src/liveness.rs:92-136 | the hook alerts as the history says and latches first |
| Routes.TableIsFirstDistinct | src/config/mod.rs:1195-1225 | registration keeps exactly the first 64 distinct pointers in order of first appearance |
| Routes.DistinctIsSet | src/config/mod.rs:1195-1225 | first appearances list every pointer once |
| Routes.DistinctInOrder | src/config/mod.rs:1195-1225 | in the order in which they first appeared |
| Routes.WalkIsTree | src/config/mod.rs:1161-1190 | the walk of a tree visits exactly its non-null confs |
| Routes.WalkKeepsOrder | src/config/mod.rs:1161-1190 | for any two nodes, a node before those under it, below before left before right: all confs of the first stand before those of the second, exact before inclusive |
| Routes.ForestIsTrees | src/config/mod.rs:1101-1155 | the walk over the servers visits exactly the confs of their trees |
| Routes.ForestKeepsOrder | src/config/mod.rs:1101-1155 | server by server |
| Routes.RouteTable.TryRegisterRoute | src/config/mod.rs:1195-1225 | appends unless present or full |
| Routes.RouteTable.WalkLocationTree | src/config/mod.rs:1161-1190 | registers the confs of any tree in walk order: exact, inclusive when different, then tree, left, right |
| Routes.RouteTable.BuildRouteTable | src/config/mod.rs:1101-1155 | after any forest of servers the table is the first 64 distinct confs of the walk |
| Routes.RouteTable.RouteIdxForClcf | src/config/mod.rs:1041-1051 | the slot of a registered pointer, 64 for null and every other |
| Routes.SlotsSeparate | src/config/mod.rs:1041-1051 | two confs share a slot only in the overflow slot, and never when at most 64 exist |

## Left out

- Weak memory: atomic operations are interleaved sequentially consistently; acquire and release orderings are not modelled.
- Overflow of the ring's 64-bit offsets: offsets are unbounded; the step system takes a capacity between 1 and 2^32 − 1.
- More than one producer on a ring at a time: a replacement takes over, it does not run beside.
- CoalesceRace.ExactWithoutOverlap: an overlap can also be harmless, so no converse; CoalesceLoss.LossBounded bounds what it can cost instead.
- DrainAccounting.Conservation: assumes no cross-severity collision, which Collisions.ConservationIff shows to be necessary for a pool; DrainAccounting.TalliedAlways, ErrorLane.QuiescentInterval and the results of Intervals carry the same premise.
- RingConsumers.DisjointPopsAreFifo: one direction; RingConsumers.QueueKeptIff has the exact condition.
- RingConsumers.AheadPassesWriter: a body longer than the ring is read modulo the capacity; what the code's copy reads past the payload is not modelled.
- RingSteps: the sum in the acceptance test wraps at 64 bits, as in a release build; a debug build would stop there.
- CoalesceSweeps.SweepsExact: an overlap or a crossing can also be harmless, so no converse.
- ErrorLane.CollectErrors: one worker and one interval; the sum over workers is a sum of these. Intervals.IntervalsConserveIff follows the ring through any number of intervals, on values.
- Handoff.AtMostOneMorePass: an exporter that has not taken its snapshot when the announcement is made is not older and is not covered.
- Handoff.AtMostOneOpenGate: the two premises are sufficient; a late snapshot or respawn can also be harmless.
- Handoff: the generation counter does not wrap.
- ErrorContents.LoggedAre: which hash a sample carries and that no novelty is missing is stated for at most 256 templates in an interval; beyond that ErrorContents.QueueCarries says it in terms of the entry each message was counted in.
- RetryLane: `send` answers by attempt number, so which bytes go out is not modelled.
- Ring.SignalRing.PopInto: appending to the caller's vector is a returned sequence, so aliasing of the buffer is not captured.
- RetryLane.SignalLane.FlushQueue: one lane; the final fresh batch of a graceful drain and the order of the lanes are not modelled.
- CrashGate.RestartsBounded: a non-decreasing clock past its first second, one live exporter, no reload in between; the exit of the process and its respawn delay are environment steps.
- Routes: copying and truncating route names, and the upstream table, which is filled and searched in the same way.
- ConfigParse.ParseSizeBytes: a 64-bit `usize`.
- The `Unauthorized` log limiter, the `is_deferred` test that lets a tick skip a lane, and the counters that only mirror others.
- nginx FFI, pools, signals, timers and process management; HTTP, gRPC, TLS and DNS; they are parameters or environment steps.
- Protobuf encoding, the data model, severity names, UTF-8 conversion and seconds as floating point: records stay bytes and integers.
- Metrics shared memory, exemplar reservoirs, histograms, spans and certificate tables: not part of this model.
- Directive handlers, command tables, endpoint validation and logging.
