# Distributed training flight recorder: a verified model

Training across many GPUs stalls when one rank straggles. The flight recorder collects per-rank events
(collectives, GPU samples, link bandwidth), finds the rank that is persistently late, and names a likely
cause. This project models that pipeline in Dafny and proves what the design promises of it.

| files | what they model |
|---|---|
| `events`, `sequences`, `stats`, `bags`, `statistics` | the events; counting and subsequences; sorting, median, MAD and their counting laws; `ComputeStats` |
| `detection`, `groups` | the detector as a relation: groups to a time-ordered list, blocks, block medians, z scores, persistence, report |
| `scan`, `judge`, `modekey`, `store`, `correlator` | the `Correlator` class and the loops of `DetectAnomalies`, proved against that relation |
| `scores`, `noise`, `blame`, `hiding`, `wellformed`, `evidence`, `floors`, `exact`, `order`, `units`, `skew` | the theorems about every report the detector can return |
| `attribution`, `engine`, `causes`, `firing` | the nine rules and their ranking, how causes exclude and precede each other, and when each rule fires |
| `ringbuffer`, `tail`, `agent` | the buffer, the incremental line parser, and the agent's goroutines as a state machine |
| `coordinator` | `Analyze`, `Live`, and the agreement of the distributed run with offline replay |
| `trace` | from a fault in a recorded trace to its attribution |

How it is modelled:

- Objects that change in place are classes: `Correlator`, `RingBuffer`, `TailState`, `Live`. Each carries a
  ghost log of its calls, and `Valid()` says that the fields are what the log determines.
- A Go map is visited in an arbitrary order (a `:|` choice from the keys still to visit). `IsDetection`
  therefore relates the groups to every slice that `DetectAnomalies` can return, and each theorem about it
  holds of all of them.
- `float64` is `real`, integers are unbounded. The exceptions are modelled: a z score with a zero standard
  error is `Infinite` if the excess is positive (Go's +Inf) and absent otherwise (NaN or -Inf, neither of
  which exceeds a threshold); the ring buffer's counter wraps at 2^64.
- `math.Sqrt` is a parameter `root`, known to be positive on positive counts and monotone. JSON decoding
  of one line is a parameter too. File contents, read errors and cancellation are arguments of `Drain`.
- The agent's channels, relays and stream are one state; a run is any sequence of enabled steps, which
  is any schedule. That the stream opens, that it fails, that a collector closes early and that the context is
  done are steps of the environment. A collector emits its events and then closes its channel; a stream that is
  open and does not fail takes what it is given and acknowledges its end.

Where the code and its documentation differ, the model follows the code:

- `internal/agent/agent.go:37-38` says that `Run` blocks until the context is done or every collector has
  finished. It waits for its stream to the coordinator as well: for ever while the stream cannot be opened,
  which is retried without end, and for ever if the stream has failed and the outgoing channel, which nobody
  empties any more, fills up. `ReturnsExactly` gives the exact condition for returning in every uncancelled
  reachable state; `WaitsForCoordinator` and `BlocksForGood` are states that never return. `CancelledReturns`
  confirms the other half of the sentence: once the context is done `Run` always returns.
- `internal/attribution/engine.go:175-177`, `README.md:87` and `docs/design.md:31` say that explicit throttle
  evidence outranks an inferred clock drop. `ThrottleBeforeClock` says, in the samples counted and the two
  median clocks, exactly when a thermal or a power throttle does; `ClockCanOutrankThrottle` gives samples for
  which neither does.
- `internal/buffer/ringbuffer.go:55-60` judges fullness by the wrapped counter, so for a while after 2^64
  pushes a full buffer returns fewer events, at first none (`WrapLosesAll`). `KeepsAllItCan` says exactly
  when it keeps all it can.
- `internal/correlator/correlator.go:145-147` speaks of a median of BlockSize lags; line 233 divides by the
  square root of the lags that the rank has in the block, which can be fewer.
- The jitter floor is a fraction of the median over every retained group with enough ranks, inside the
  window or not (`internal/correlator/correlator.go:175-179`).

## Model

| member | source | states |
|---|---|---|
| `Traces.FaultFound` | internal/coordinator/coordinator.go:29-57 | In numbers, from the events on: with the default options, if rank s runs d below its peers on collectives covering two whole blocks of thirty, wherever in the trace, with jitter w <= 0.0457 of the shortest duration and d - w above 0.9153 of the larger of 1.4826 w and 0.05 of the longest, whatever the analysis may return has exactly one attribution, for s, made from its events over a window of 5 s unless another is set |
| `Traces.WholeTrace` | internal/coordinator/coordinator.go:49-50 | Of events with timestamps below 2^62 an analysis scores every collective with enough ranks, however long before the last event |
| `Exact.ExactDetectionOfFault` | internal/correlator/correlator.go:186-265 | If peers and healthy phases jitter by at most w (under the floor) and rank s, where it is recorded, runs d below every peer on collectives [from,to) covering at least MinHits whole blocks, of each of which s has m records and s and some peer have half, d being decisive for m records, then exactly one anomaly is returned, for s; its flagged blocks are exactly first..last; both ends lie less than one block from the fault's. Any other record may be missing; m = BlockSize is the complete case |
| `Exact.ExactDetection` | internal/correlator/correlator.go:204-265 | The same on the detector's own list of scored collectives |
| `Exact.InsideFlagged` | internal/correlator/correlator.go:214-235 | In a block of quiet peers, whoever is missing, a straggler with a record of half of the collectives that lags by a decisive d wherever it is recorded is flagged, on the standard error of the lags it has |
| `Scores.AbsentNotFlagged` | internal/correlator/correlator.go:214-219 | A rank with a record of fewer than half of a block is never flagged there |
| `Scores.FlaggedExactly` | internal/correlator/correlator.go:214-236 | A rank is flagged if and only if it and another have a record of half of the block and excess * sqrt(records) > threshold * 1.2533 * max(1.4826 * MAD of the peers' lags, floor) |
| `Evidence.ReportedExactly` | internal/correlator/correlator.go:240-265 | A rank is reported if and only if some block flags it, at least MinHits do, and these are MinHitFraction of the blocks from the first to the last of them; then Hits, Groups, StartNs, EndNs and DetectedAt are those of the flagged blocks and their span |
| `Evidence.ReportEvidence` | internal/correlator/correlator.go:247-259 | Sigma, and LagNs before truncation, are in the middle of the scores and excess lags of the flagged blocks, counted; the op is the commonest of their middle collectives, the smallest on a tie |
| `Evidence.MedianSigmaByCount` | internal/correlator/correlator.go:259 | The median of scores, some of them infinite, exceeds t if more than half do and only if at least half do |
| `Evidence.TruncExactly` | internal/correlator/correlator.go:258 | The reported lag is the lag truncated toward zero |
| `Noise.NoiseFloor` | internal/correlator/correlator.go:196-236 | If the members of every scored group in the window agree to w, with w under the floor that threshold, block size and jitter fraction set, nothing is reported, for any ranks, missing members and window |
| `Noise.DefaultNoiseFloor` | internal/correlator/correlator.go:42-52 | With the defaults that covers every spread up to 0.0457 of the median duration |
| `Floors.FloorExactly` | internal/correlator/correlator.go:161-196 | The floor is JitterFloor times a duration in the middle of those of all records of all groups with at least MinRanks ranks, inside the window or not, counted from below and above |
| `Floors.FewRanksIgnored` | internal/correlator/correlator.go:162-164 | A collective that fewer than MinRanks ranks have recorded changes nothing the detector may return |
| `Noise.BurstImmunity` | internal/correlator/correlator.go:204-246 | With complete groups, fewer than MinHits * BlockSize / 2 corrupted collectives, wherever they stand and whatever durations they hold, report nobody; with MinHits = 2 that is every burst shorter than a block |
| `Hiding.StragglerCannotHide` | internal/correlator/correlator.go:220-235 | A rank flagged in a block whose duration there is never above its peers' stays flagged when its durations are lowered, there or anywhere: for every list the detector may make of the lowered groups, which is shown to hold the same collectives in the same order, given no ties |
| `Blame.MinorityOfBlame` | internal/correlator/correlator.go:214-237 | In a block at most half of the eligible ranks, rounded up, are flagged, and each of them has a larger median lag than some eligible rank, so a rank of least median lag never is |
| `WellFormed.ReportWellFormed` | internal/correlator/correlator.go:240-267 | One anomaly per rank, descending sigma; Hits and Groups are multiples of the block size with MinHits*bs <= Hits <= Groups <= collectives and Hits >= MinHitFraction*Groups; StartNs <= EndNs = DetectedAt; sigma above the threshold; LagNs >= 0 for a non-negative threshold |
| `Order.MapOrderIndependence` | internal/correlator/correlator.go:154-268 | Without ties in (newest ts, seq) and with agreeing ops, any two results of DetectAnomalies on the same groups hold the same anomalies |
| `Order.ListingUnique` | internal/correlator/correlator.go:190-195 | Then the sorted list of collectives is the same whatever order the map was visited in |
| `Units.UnitIndependence` | internal/correlator/correlator.go:180-236 | Multiplying every duration by c > 0 keeps every reported rank, sigma, Hits, Groups and time, both ways; every rank's median excess lag is multiplied by c, and each report holds that lag truncated |
| `Skew.SkewInvariance` | internal/correlator/correlator.go:161-237 | With complete groups seen in the same order by every rank's clock and the whole history in the window, adding a constant to each rank's timestamps keeps the reported ranks, sigma, lag, Hits and Groups; both ways |
| `Skew.SkewKeepsFlags` | internal/correlator/correlator.go:204-237 | Then the blocks hold the same collectives, and every rank is flagged in the same blocks with the same z and lag, whether it is reported or not |
| `Correlators.Correlator.IngestEvent` | internal/correlator/correlator.go:82-110 | Appends one event to the log and keeps the store what the log determines: every rank's list the stable time sort of what the lookback keeps, the table and the newest time those of the log; nil changes nothing |
| `Correlators.StoreStep` | internal/correlator/correlator.go:89-121 | Inserting behind all events that are not newer, then trimming at the new cutoff, gives the stable sort of the batch: the incremental store refines it, in any arrival order |
| `Store.PutLookup` | internal/correlator/correlator.go:97-105 | A collective event sets its rank's entry under its own key, replacing an earlier one, and changes no other entry; other events change none |
| `Store.TableExactly` | internal/correlator/correlator.go:97-105 | Without a lookback rank r has an entry under key k exactly if it ingested such a collective, and the entry is the last of them |
| `Correlators.Correlator.TrimLocked` | internal/correlator/correlator.go:112-134 | With a lookback every list keeps exactly its events not older than the cutoff and groups wholly older are dropped; without one nothing changes |
| `Correlators.Correlator.TrimRanks` | internal/correlator/correlator.go:117-122 | The lists after the trim |
| `Correlators.Correlator.TrimTable` | internal/correlator/correlator.go:123-133 | The table after the trim |
| `Correlators.Correlator.EventsForRank` | internal/correlator/correlator.go:281-287 | Exactly the stored events with timestamp >= since, in stable time order |
| `Correlators.FirstNewer` | internal/correlator/correlator.go:91 | The binary search finds the border between not newer and newer |
| `Correlators.FirstSince` | internal/correlator/correlator.go:118 | What the binary search cuts off is exactly what is older than the cutoff |
| `Store.StableSortUnique` | internal/correlator/correlator.go:89-95 | There is one stable time sort of a list |
| `Store.GroupsInvariant` | internal/correlator/correlator.go:97-133 | Every stored group has a member, holds only its own collective and, under a lookback, is not wholly older than the cutoff |
| `Store.RecentKept` | internal/correlator/correlator.go:112-134 | Under any lookback a rank's last record of a collective is in the table while it is not older than the cutoff |
| `Store.LatestIs` | internal/correlator/correlator.go:106-108 | The newest time is the largest timestamp ingested, or zero if none is above it |
| `Correlators.Correlator.DetectAnomalies` | internal/correlator/correlator.go:154-268 | Returns a slice that IsDetection allows for the stored groups and newestNs - window; the theorems above are about all such slices |
| `Scan.ScanGroup` | internal/correlator/correlator.go:165-176 | Newest time and longest duration of a group, starting from 0, an op of one of its members, and the bag of its durations, in any visiting order |
| `Scan.LagsOfGroup` | internal/correlator/correlator.go:180-183 | Lag of each rank: longest duration less its own |
| `Scan.CollectGroups` | internal/correlator/correlator.go:159-185 | Lists each group of enough ranks inside the window once, and collects the durations of all groups of enough ranks, outside the window too |
| `Scan.SortGroups` | internal/correlator/correlator.go:190-195 | A permutation of the list in (newest ts, seq) order, each collective still once |
| `Correlators.FloorOf` | internal/correlator/correlator.go:196 | The floor of those durations does not depend on the order they were collected in |
| `Judge.BlockColumns` | internal/correlator/correlator.go:208-213 | Each rank's lags in block order |
| `Judge.BlockMedians` | internal/correlator/correlator.go:214-219 | A median for exactly the ranks with a record of half of the block (`Scores.EligibleExactly` counts the records) |
| `Scores.EligibleExactly` | internal/correlator/correlator.go:216 | Those are the ranks with a record of at least half, rounded down, of the block's collectives |
| `Judge.GatherPeers` | internal/correlator/correlator.go:221-227 | The medians and the pooled lags of exactly the other ranks with a median |
| `Judge.JudgeRank` | internal/correlator/correlator.go:228-234 | The z score of a rank against its peers, and its excess lag |
| `Judge.JudgeBlock` | internal/correlator/correlator.go:206-238 | A block appends one flag to exactly the ranks it flags, in any visiting order |
| `Judge.CollectFlags` | internal/correlator/correlator.go:204-238 | After all whole blocks, each rank's flags are exactly those of the blocks that flag it, in order |
| `Judge.ReportRank` | internal/correlator/correlator.go:242-264 | The anomaly made of a rank's flags |
| `Judge.CollectReports` | internal/correlator/correlator.go:240-265 | One anomaly for exactly the ranks that meet the persistence rule |
| `Judge.SortReports` | internal/correlator/correlator.go:266 | A permutation by descending sigma, +Inf first |
| `Correlators.CollectedIsReport` | internal/correlator/correlator.go:240-267 | The sorted slice is the report of the list: each persistent rank once and nobody else |
| `ModeKeys.ModeKey` | internal/correlator/correlator.go:270-278 | A key of largest count, the smallest on a tie, in any visiting order |
| `ModeKeys.ModeUnique` | internal/correlator/correlator.go:270-278 | There is only one such key |
| `Statistics.ComputeStats` | internal/correlator/detector.go:26-51 | Median, mean, MAD, count and bounds of the values; zeros for none |
| `Stats.MedianByCount` | internal/correlator/detector.go:57-63 | More than half of the values below w put the median below w, and a median below w needs half of them, strictly or not |
| `Stats.MedianExactly` | internal/correlator/detector.go:57-63 | The median is halfway between the value of rank (n+1)/2 and that of rank n/2+1, which are one value for an odd n |
| `Stats.MadByCount` | internal/correlator/detector.go:44-49 | The MAD is below w if more than half of the values are nearer than w to the median, and only if at least half are |
| `Stats.MeanExactly` | internal/correlator/detector.go:34-38 | The mean times the count is the sum |
| `Stats.SumAppend` | internal/correlator/detector.go:34-37 | Sums of parts add up |
| `Stats.MedianPermutation` | internal/correlator/detector.go:57-63 | The median does not depend on the order of the values |
| `Stats.MedianMonotone` | internal/correlator/detector.go:57-63 | Values dominated in every count have the smaller median |
| `Stats.MedianScale` | internal/correlator/detector.go:57-63 | The median of scaled values is the scaled median |
| `Stats.MadPermutation` | internal/correlator/detector.go:44-49 | The MAD does not depend on the order of the values |
| `Stats.MadInRange` | internal/correlator/detector.go:44-49 | Values in [0, w] have a MAD of at most w |
| `Stats.MadScale` | internal/correlator/detector.go:44-49 | The MAD of scaled values is the scaled MAD |
| `Coordinators.DistributedEqualsOffline` | internal/coordinator/coordinator.go:29-89 | Agents fan in and stream to a live coordinator in any interleaving, each rank read by one collector; a trace holds each rank's events in its collector's order in any other. While the live log has not overflowed, both analyses count the same events, list the same ranks and give the same attributions |
| `Coordinators.SameReport` | internal/coordinator/coordinator.go:29-57 | Two analyses of event sequences with the same stream for every rank agree, given no ties and agreeing ops |
| `Coordinators.InterleavingsAgree` | internal/correlator/correlator.go:82-110 | Logs with the same stream for every rank, however interleaved and duplicates included, hold the same ingests and leave the same table and newest time |
| `Coordinators.SameStore` | internal/correlator/correlator.go:82-110 | Two correlators without a lookback that took the same streams are in the same state |
| `Coordinators.PutCommutes` | internal/correlator/correlator.go:97-105 | Ingests under different ranks commute in the table |
| `Coordinators.ArrivalOfRank` | internal/agent/agent.go:53-91 | Through fan-in, forwarding and the merge at the coordinator each rank's events arrive as its collector read them |
| `Coordinators.Analyze` | internal/coordinator/coordinator.go:29-57 | Every event ingested under its rank without trimming; the ranks seen, sorted; one attribution for each anomaly of a detection over the whole span (`Traces.WholeTrace`), explained from its rank's events; zero options mean 4 sigma and 5 s (`Traces.FaultFound`) |
| `Coordinators.Live.constructor` | internal/coordinator/coordinator.go:68-73 | Empty, with 2,000,000 events as the bound when none is given |
| `Coordinators.Live.Ingest` | internal/coordinator/coordinator.go:75-82 | Holds the newest maxEvents of everything ingested, oldest first |
| `Coordinators.Live.Report` | internal/coordinator/coordinator.go:84-89 | The attributions of an analysis of the events held |
| `Agents.FanInConservation` | internal/agent/agent.go:53-96 | In every run, cancelled or not, what was recorded of each collector is a beginning of its stream in its order, what was forwarded is recorded and in that order, and it is delivered first in, first out |
| `Agents.CompleteRun` | internal/agent/agent.go:83-103 | A run that ends uncancelled records every event of every collector once, in the collector's order, and forwards exactly what it recorded |
| `Agents.InvRun` | internal/agent/agent.go:53-91 | The invariant behind both holds in every state of every run |
| `Agents.WorkStep` | internal/agent/agent.go:53-103 | Each of the agent's own steps uses up work, as does the end of its stream; uncancelled, none loses or invents an event |
| `Agents.Progress` | internal/agent/agent.go:53-103 | An uncancelled agent that has not returned, has a collector, and has no coordinator, a stream that opened and did not fail, or room in the channel for all that is left, can take a step |
| `Agents.AlwaysReturns` | internal/agent/agent.go:53-103 | Left to itself such an agent returns: no run of its own steps is longer than the work left, and any that has not returned goes on |
| `Agents.ReturnsExactly` | internal/agent/agent.go:37-103 | In every uncancelled reachable state some run of the agent's own steps returns if and only if there is a collector, and no coordinator, or a stream that opened and did not fail, or a failed one and room in the outgoing channel for everything not yet in it |
| `Agents.CancelledReturns` | internal/agent/agent.go:37-103 | Once the context is done, from every reachable state: no run is longer than the work left, and any that has not returned goes on |
| `Agents.WaitsForCoordinator` | internal/transport/grpc.go:139-155 | With a coordinator that cannot be reached no run of the agent's own steps returns, whatever its collectors hold |
| `Agents.BlocksForGood` | internal/agent/agent.go:83-91 | A stream that opens and fails at once: a reachable state from which no run of the agent's own steps returns, exactly if the collector has more than 1024 events |
| `RingBuffers.RingBuffer.constructor` | internal/buffer/ringbuffer.go:22-28 | An empty buffer whose capacity is the request rounded up |
| `RingBuffers.CapacityLeast` | internal/buffer/ringbuffer.go:22-28 | That is the least power of two that is at least max(1, requested) |
| `RingBuffers.RingBuffer.Push` | internal/buffer/ringbuffer.go:34-39 | Appends to the log of pushes, across the wrap of the counter too; the slots hold its last capacity events |
| `RingBuffers.RingBuffer.Snapshot` | internal/buffer/ringbuffer.go:63-73 | Exactly the last events pushed, oldest first: as many as Len gives |
| `RingBuffers.RingBuffer.Len` | internal/buffer/ringbuffer.go:42-60 | The smaller of the wrapped number of pushes and the capacity |
| `RingBuffers.RingBuffer.Dropped` | internal/buffer/ringbuffer.go:49-53 | With Len it adds up to the wrapped number of pushes |
| `RingBuffers.MaskIsMod` | internal/buffer/ringbuffer.go:36 | Masking with k ones is the remainder modulo 2^k |
| `RingBuffers.WrapKeepsMask` | internal/buffer/ringbuffer.go:36-37 | The mask sees no difference between the number of pushes and the wrapped counter |
| `RingBuffers.KeepsAllItCan` | internal/buffer/ringbuffer.go:55-60 | The buffer holds min(pushes, capacity) events if and only if fewer than 2^64 were pushed or the wrapped counter has reached the capacity again |
| `RingBuffers.WrapLosesAll` | internal/buffer/ringbuffer.go:55-60 | After exactly 2^64 pushes it holds none, whatever its capacity |
| `Tails.TailState.Drain` | internal/collector/tail.go:79-120 | One poll: sends the events of the complete lines of partial and new bytes; off and partial stay those of all bytes read; while the file is only appended to, the bytes read are all that is on disk; a truncated file starts over; a cancelled poll has sent a beginning of that |
| `Tails.PartialLine` | internal/collector/tail.go:118 | What is held back is exactly the bytes after the last newline read |
| `Tails.TailState.SendLines` | internal/collector/tail.go:97-117 | The loop over complete lines sends exactly the decodable non-blank ones in order and leaves the bytes after the last newline |
| `Tails.EmitAppend` | internal/collector/tail.go:96-118 | Parsing a then b is parsing a, then b behind what a left over |
| `Tails.ChunkInvariance` | internal/collector/tail.go:79-120 | However polls split the bytes, the events and the remainder are those of the whole |
| `Tails.SameBytesSameEvents` | internal/collector/tail.go:79-120 | Two ways to split the same bytes give the same events |
| `Tails.TailMatchesRead` | internal/trace/trace.go:63-83 | On newline-terminated content that trace.Read accepts, tailing emits what it reads and nothing is left over |
| `Tails.TrimExactly` | internal/collector/tail.go:102 | What is decoded is the line without the white space around it |
| `Engines.Attribute` | internal/attribution/engine.go:68-105 | Runs the rules in order on the window and the baseline, ranks what fired, lists what is ruled out, and puts unknown in an empty chain |
| `Firing.PhasesExactly` | internal/attribution/engine.go:69-79 | The window holds exactly the events with StartNs - window <= ts <= EndNs and the baseline exactly those with ts < StartNs - window, each as often as given and in the order given |
| `Firing.ThermalExactly` | internal/attribution/engine.go:124-151 | Thermal throttling is in the chain if and only if some event of the rank between StartNs - window and EndNs has bit 0x08, 0x20 or 0x40 or is an active thermal event; its confidence is their share of the samples there, at most 0.95 |
| `Firing.PowerExactly` | internal/attribution/engine.go:153-173 | The same of bits 0x04 and 0x80 among the GPU samples |
| `Firing.ThrottleEvidence` | internal/attribution/engine.go:133-139 | The evidence of both is the last throttled sample of the window |
| `Engines.RuleThermal` | internal/attribution/engine.go:124-151 | Counts the samples and the throttled ones, by mask or thermal event, and answers with their share and the last of them |
| `Engines.RulePower` | internal/attribution/engine.go:153-173 | The same for the power mask |
| `Firing.ClockFires` | internal/attribution/engine.go:178-199 | The clock rule fires if and only if both phases report clocks and the median of the window's is below three quarters of the baseline's; confidence 0.4 plus half the fall, at most 0.7; evidence the last sample with a clock |
| `Firing.ClockByReadings` | internal/attribution/engine.go:192-195 | So a window wholly below three quarters of what the baseline nowhere falls below fires it, and one nowhere below three quarters of what the baseline nowhere exceeds is ruled out |
| `Engines.RuleClock` | internal/attribution/engine.go:178-199 | Compares the median clocks of window and baseline |
| `Engines.BaselinePositive` | internal/attribution/engine.go:181-196 | The baseline clock divided by is never zero |
| `Firing.ContentionFires` | internal/attribution/engine.go:204-224 | Contention fires if and only if both phases have positive process counts and the median of the window's is above the baseline's, at 0.7, with the window's last count as evidence |
| `Firing.ContentionByCounts` | internal/attribution/engine.go:217-221 | So counts all above a number, over a baseline not above it, fire it, and counts not above a number the baseline is nowhere below rule it out |
| `Engines.RuleContention` | internal/attribution/engine.go:204-224 | The loops over both phases answer as that says |
| `Firing.EccFires` | internal/attribution/engine.go:227-253 | From the last GPU sample of the baseline, or the first of the window if it has none, to the last of the window: fires if and only if a counter rose; 0.9 if the double-bit counter did, else 0.6; the later sample is the evidence |
| `Engines.RuleECC` | internal/attribution/engine.go:227-253 | The loop finds those two samples, starting from the last one before the window |
| `Engines.FinalGpu` | internal/attribution/engine.go:352-359 | The last GPU sample, if any |
| `Causes.DropFires` | internal/attribution/engine.go:291-302 | The bandwidth rule is silent exactly when a phase lacks samples, fires exactly when the median fell below half of a positive baseline, then with confidence in (0.75, 0.95], and 0.95 exactly from a fall to a tenth |
| `Firing.PCIeByTraffic` | internal/attribution/engine.go:255-270 | Read plus write traffic of the window all below half of what the baseline nowhere falls below fires the rule, nowhere below half of what the baseline nowhere exceeds does not |
| `Engines.RulePCIe` | internal/attribution/engine.go:255-270 | The drop rule on PCIe read plus write, gathered by the loops |
| `Firing.NVLinkByThroughput` | internal/attribution/engine.go:272-287 | The same of NVLink throughput |
| `Engines.RuleNVLink` | internal/attribution/engine.go:272-287 | The drop rule on NVLink throughput, gathered by the loops |
| `Firing.MemoryFires` | internal/attribution/engine.go:304-322 | Memory pressure fires if and only if the window has GPU samples whose memory use sums to 90 each or more, at 0.5 with the last of them as evidence |
| `Firing.MemoryByReadings` | internal/attribution/engine.go:316-319 | Samples all at 90 or more fire it, all below rule it out |
| `Engines.RuleMemory` | internal/attribution/engine.go:304-322 | The loop answers as that says |
| `Firing.HostStallFires` | internal/attribution/engine.go:327-348 | A host stall fires if and only if the window has GPU samples, none of them throttled, whose utilisation sums to less than 40 each; with the confidence and evidence stated |
| `Firing.HostStallByReadings` | internal/attribution/engine.go:332-345 | Unthrottled samples all below 40 fire it, samples all at 40 or more rule it out |
| `Engines.RuleHostStall` | internal/attribution/engine.go:327-348 | The loop answers as that says, leaving at the first throttled sample |
| `Causes.Partition` | internal/attribution/engine.go:81-95 | Each of the nine causes is in exactly one of chain, ruled out and no data, and without data exactly when its rule lacks its samples or baseline |
| `Causes.NoDataExactly` | internal/attribution/engine.go:64-67 | A rule neither fires nor rules out if and only if it lacks its samples or baseline |
| `Causes.ChainShape` | internal/attribution/engine.go:96-102 | The chain is non-empty and non-increasing in confidence, unknown stands only alone, every other confidence lies in (0, 0.95] |
| `Causes.FiredConfidence` | internal/attribution/engine.go:361-362 | A fired link names its own rule, with positive confidence and never certainty |
| `Causes.RankedOrder` | internal/attribution/engine.go:96-98 | Of two fired links the more confident comes first, on a tie the earlier rule's |
| `Causes.HostStallExclusive` | internal/attribution/engine.go:324-348 | host_stall never stands beside power, and beside thermal only if a thermal event reported it |
| `Causes.ClockImpliesThermal` | internal/attribution/engine.go:124-199 | If every sample reports a clock, there is no thermal event and every clock below 75% of the baseline carries a thermal bit, a fired clock rule means that thermal fired with confidence at least 0.5 |
| `Causes.ThrottleBeforeClock` | internal/attribution/engine.go:96-98 | When a thermal or power throttle and clock_reduced both fire, the throttle comes first if and only if 10*hit >= 7*n or 10*hit*bm >= n*(9*bm - 5*dm), for hit of n samples throttled and a median clock fallen from bm to dm; otherwise clock_reduced comes first |
| `Causes.ClockCanOutrankThrottle` | internal/attribution/engine.go:175-177 | Events that meet the assumptions of `ClockImpliesThermal`, throttled for heat and for power, and still put clock_reduced before either throttle |

## Left out

- gRPC, protobuf and the wire: a first-in first-out step of the agent's state machine. Events that cannot be converted, which the pump skips, and a stream that is open but stops taking events without failing are not modelled.
- JSON decoding: a parameter from a line to an event or failure; for `TailMatchesRead` it must ignore white space around a value.
- The shim, bench, cmd and deploy directories and the simulator's random generation: foreign calls, subprocesses and unbounded noise.
- `summarize` and the Detail strings: formatting.
- `ComputeStats`: does not give the standard deviation, which neither detection nor attribution reads.
- `RobustZ` and `IsOutlier`: detection does not use them.
- Event fields that neither detection nor attribution reads.
- Float rounding, NaN inputs and int64 overflow: floats are reals and integers unbounded, apart from the zero standard error and the ring buffer's counter.
- math.Sqrt: only positivity and monotonicity are used; `DefaultNoiseFloor` also takes root(30) squared to be 30.
- Mutexes: each method of a class is one atomic step, as the locks make it.
- `TailCollector.Start`: the polling loop over several files; `Drain` is one file's poll, for any contents and errors.
- The errors of starting and stopping collectors in `Agent.Run`, and a collector that goes idle without closing its channel.
- White space outside ASCII in `bytes.TrimSpace`, and the 16 MB line limit of `trace.Read`.
- `Range` of the ring buffer: a loop over `Snapshot`.
- The order in which equal confidences or sigmas, or collectives with equal time and number, are left by an unstable sort: any order the comparison allows is covered.
- Arrival-order independence of the table under a lookback: false, since a late member can re-create a group that was trimmed.
- `DistributedEqualsOffline`: compares the attributions as sets, because the order of anomalies with equal sigma is not determined.
