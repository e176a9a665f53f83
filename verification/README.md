# Scaleplex, modelled and proved in Dafny

Scaleplex runs Plex transcodes on a pool of worker pods. Plex Media Server (PMS)
starts a *shim* in place of its transcoder; the shim posts the ffmpeg argv to an
*orchestrator*, which streams one worker's output back and, when a worker dies,
carries the same stream on with another worker from the last finished segment. The
*worker agent* rewrites the argv for its hardware and patches the Matroska chunks
ffmpeg writes. A small TLS front (*clientfix*) routes connections by server name,
and *argv-extract* reads argvs back out of logs.

The project has one module per concern. Code that changes things step by step is
modelled by classes, arrays and loops, each proved against a specification function;
the promises are lemmas about those functions.

| files | what they model |
|---|---|
| `SessionLog`, `Resumed`, `Dispatch` | one PMS session: dispatch, streaming, recovery, as a machine whose environment picks probe answers, refusals, broken reads, clock ticks, disconnects and polled checkpoints; every run is judged by a monitor over its event log, which also holds the argv each request carries |
| `Worker`, `Load`, `Ledger` | dispatch tickets and the in-flight count: the objects, all interleavings of their steps, and the objects driven through a run |
| `Pool`, `PoolRuns` | the pool map with its source bits, refining three plain sets |
| `Schedule` | tiers, strategies, the stable sort, the round-robin cursor |
| `Resume`, `ResumeProps`, `CheckpointCache` | the checkpoint cache and the resume rewrite of the argv |
| `Seam`, `Shim` | lines across worker swaps, and the shim's demultiplexer |
| `Ebml`, `Matroska`, `MatroskaChunk`, `MatroskaOverflow` | the cluster patcher: EBML integers, one cluster body, whole files |
| `Text`, `Args` | decimal option text; splices, removals, well-formed argvs |
| `StreamSpec`, `HwStrip` | stream specifiers and ids; the downgrade to a CPU pipeline |
| `AudioClean`, `Bail`, `BailOut` | the cleaning passes, the bail they make up, and the URL scrub before it |
| `FormatToken`, `Observed`, `TailPasses`, `Main10`, `TailEffects` | the Main10 pin, every pass that runs after it, and what an argv has lost, kept and gained after all of them |
| `ComposeBurn`, `Reshape` | the composer of scale and subtitle-burn graphs, for every backend, and the graphs carried over from a foreign one |
| `Scrub` | the inlineass scrub of a filtergraph |
| `Sni`, `QuotedSlice` | the ClientHello parser and the quoted-slice parser |
| `Prelude`, `Search` | shared types, search in sequences |

## What turned out not to hold

Each of these is stated in the model as an exact condition, or with a run that shows it.

- **Size field overflow.** A patched cluster whose new body does not fit the width of
  its size field is written with a size that has lost its top bit. Reading the file
  back is right if and only if every rewritten body fits
  (`MatroskaChunk.PatchedFileParses`). For patching twice, fitting is sufficient but not
  necessary (`MatroskaOverflow.FittingNotNeeded`). A cluster whose new body
  takes 2^(7w) + k bytes on a field of width w, k being at most seven, is read back as a
  cluster of the first k of them, and the scan goes on inside its body
  (`MatroskaOverflow.OutgrownReads`). So patching twice is patching once if and only if
  what follows those k bytes of the first outgrown cluster, the rest of the written file
  included, shows no patchable cluster (`MatroskaOverflow.OverflowTwice`, for any file);
  `MatroskaOverflow.OverflowBreaksPatching` is a file that breaks it.
- **Seam newline after a carriage return.** The orchestrator ends an unfinished line
  with a newline unless the last byte is a newline. When a worker dies right after a
  carriage return the shim has already ended that line, so one extra empty line
  reaches stderr, exactly then (`Seam.ExactLines`). Stdout and the exit code are not
  affected (`Shim.SessionOutcome`).
- **Second move.** Recovery compares the seek of the *injected* argv with the hint
  polled for the *original* one. On a second move the newer hint is therefore dropped
  and the session goes back to its first resume point, unless the first resume point is
  within the tolerance of the original seek (`CheckpointCache.SecondMove`). The comment on
  `recover` says that each move resumes from the checkpoint cache.
- **Refused before recovery.** The comment on `healthySince` (orchestrator/main.go:197-199)
  promises that recovery reuses a worker that failed earlier in the session only once it
  has demonstrably come back. A worker that answers 503 in the first round keeps its
  health and is not recorded, so recovery may go back to it with no probe in between
  (`SessionLog.FirstRefusalIsNoBar`). A refusal bars a worker exactly when it was made
  during recovery and no probe that started later has found the worker healthy since
  (`Dispatch.Session.EligibleMeans`, `SessionLog.VouchedMeans`).
- **Round robin across the wrap.** Over n consecutive dispatches to the same n workers
  each leads once, if and only if the 64-bit cursor does not wrap on the way or n divides
  2^64 (`Schedule.RoundRobinFair`).
- **Client gone.** One ticket is begun after the client has left exactly when it was gone
  as the attempt began (`Dispatch.Session.StreamFrom`,
  `Dispatch.Session.HangUpThenStream`); no request leaves for a worker, and over a whole
  run there is at most one such ticket (`Dispatch.Session.DispatchTask`,
  `SessionLog.SafeMeans`).
- **Accept window.** Between the two halves of `accept()` a running session can be
  counted by neither the pending counter nor the accepted map (`Load.WindowMisses`).
- **Load read in steps.** The load sums three reads made one after another. A probe that
  ends between two of them can make the sum miss a session accepted long before, in
  either gap (`Load.ReadsMiss`); with no probe ending in between none is missed
  (`Load.ReadsMissNone`).
- **Lone `-eae_prefix`.** The removal loop reads past the end of the argv, and panics,
  exactly when an odd number of `-eae_prefix*` flags ends it
  (`AudioClean.DropPrefixesMeans`). No well-formed argv does (`Bail.BailMeans`).
- **Stubborn codec names.** A value that is just `_eae`, or whose base name ends in
  `_eae` again, keeps that ending in an input decoder slot (`Bail.CleanedHasNoEae`), and
  the bail is idempotent exactly when no decoder name can be cut twice (`Bail.BailTwice`).
- **Ordinals on the move.** On a well-formed argv, stripping hardware flags keeps every
  stream ordinal and removes just the intended pairs if and only if a token that stays
  mentions the video id before any other id appears, or no id is mentioned
  (`HwStrip.StripExact`); `HwStrip.OrdinalsMove` is a family without such a token.
- **Tonemapping inside the burn node.** On AMD a composed HDR graph still names p010
  last, because its burn node does the tonemapping, so the Main10 test reads it as
  ten-bit; on Intel and NVIDIA a tonemapped graph is never read so
  (`ComposeBurn.BurnDepth`, `Reshape.RecomposedDepth`).
- **Raw newlines.** A quoted string with a raw newline is skipped without an error, so
  escaping only quotes and backslashes round-trips exactly without them
  (`QuotedSlice.QuotedRoundTrip`). Every other way Go spells a character is read back
  (`QuotedSlice.SpelledRoundTrip`).

## Model

| member | source | states |
|---|---|---|
| `Ebml.ReadEBMLSize` | worker/agent/matroska.go:224-249 | the loop over the size field: width, value and success as the format defines them, for any bytes, with 64-bit shifts |
| `Ebml.EncodeEBMLSizeFixedWidth` | worker/agent/matroska.go:254-262 | the buffer filled from its last byte holds the low bytes of the value under the marker bit |
| `Ebml.ReadUintBEBytes` | worker/agent/matroska.go:265-271 | a big-endian integer modulo 2^64 |
| `Ebml.Wrap64IsMod` | worker/agent/matroska.go:265-271 | what a 64-bit word keeps of a number is the number modulo 2^64 |
| `Ebml.SizeRoundTrip` | worker/agent/matroska.go:222-262 | for widths 1..8 and any trailing bytes, encode then read gives back width and value exactly when the value is below 2^(7w) (RFC 8794 sections 4 and 6) |
| `Ebml.SizeReencode` | worker/agent/matroska.go:222-262 | any size read successfully, re-encoded at its own width, gives the original bytes |
| `Matroska.PatchClusterBody` | worker/agent/matroska.go:181-220 | the byte loop computes the specified new body, or says there is nothing to patch |
| `Matroska.PatchedBodyParses` | worker/agent/matroska.go:181-220 | a rewritten body reads back as: no CRC-32, the old timestamp plus the offset modulo 2^64, the old rest |
| `Matroska.PatchedBodyGrowth` | worker/agent/matroska.go:181-220 | a rewritten body is at most 8 bytes longer |
| `Matroska.GuardIsMarked` | worker/agent/matroska.go:181-220 | the guard on the timestamp's size byte accepts exactly the one-byte size field of value 8 |
| `Matroska.PatchesPlain` | worker/agent/matroska.go:181-220 | for any timestamp element up front, of any size field and value but the patcher's own, the new body is E7 88, the old value plus the offset modulo 2^64 on eight bytes, and the rest |
| `Matroska.PatchesCrc` | worker/agent/matroska.go:184-191 | the same behind a CRC-32 element of any size, which goes |
| `Matroska.PatchesNoOther` | worker/agent/matroska.go:181-220 | a body of neither form is not touched |
| `MatroskaChunk.PatchMatroskaClusterTimecode` | worker/agent/matroska.go:127-176 | the scan-and-rewrite loop writes the specified file, for any bytes |
| `MatroskaChunk.ScanBytes` | worker/agent/matroska.go:127-176 | the gaps, clusters and tail the scan finds are the file, nothing lost |
| `MatroskaChunk.ScansLaid` | worker/agent/matroska.go:127-176 | clusters of any widths and bodies, laid out behind gaps in which no cluster id begins, are scanned as just those clusters |
| `MatroskaChunk.PatchesLaid` | worker/agent/matroska.go:127-176 | and such a file is written back with each body rewritten, all else in place |
| `MatroskaChunk.PatchedFileParses` | worker/agent/matroska.go:127-176 | the patched file parses as the same gaps, rewritten bodies and tail, if and only if every rewritten body fits its size field |
| `MatroskaChunk.PatchTwice` | worker/agent/matroska.go:127-176 | patching twice, with any two offsets, is patching once when rewritten clusters fit; otherwise exactly when the written bytes show no patchable cluster |
| `MatroskaChunk.PatchIsNoOp` | worker/agent/matroska.go:127-176 | the file is unchanged exactly when it holds no patchable cluster |
| `MatroskaChunk.RoomSuffices` | worker/agent/matroska.go:127-176 | declared sizes of at most 2^(7w) - 9 always fit after patching |
| `MatroskaOverflow.OverflowBreaksPatching` | worker/agent/matroska.go:127-176 | a file on which an overflowing size makes a second patch, with any offset, change the payload |
| `MatroskaOverflow.OutgrownReads` | worker/agent/matroska.go:127-176 | a cluster of any width, gap and body that outgrows its field is read back as the first k bytes of its new body, k the excess and at most seven, never patchable, and the scan goes on in the rest of that body |
| `MatroskaOverflow.OverflowTwice` | worker/agent/matroska.go:127-176 | for any file and any two offsets, a second patch changes nothing if and only if no cluster outgrows its field, or what the first that does leaves behind shows no patchable cluster |
| `MatroskaOverflow.OneCluster` | worker/agent/matroska.go:127-176 | for a file of one cluster of any width that outgrows its field, and nothing after it, that is the rest of its own new body after the excess |
| `MatroskaOverflow.FittingNotNeeded` | worker/agent/matroska.go:127-176 | a file that does not fit and is still left alone by a second patch |
| `SessionLog.SafeMeans` | orchestrator/failover.go:143-311 | a safe log shows no use of a worker after it broke, no request after the client left, and no retry of a worker that refused during recovery without a healthy probe started after each such refusal |
| `SessionLog.ReusedMeans` | orchestrator/failover.go:144-222 | the monitor's reuse flag says exactly that a broken worker was begun again |
| `SessionLog.LateRequestMeans` | orchestrator/failover.go:144-222 | the monitor's late flag says exactly that a request left after the client was gone |
| `SessionLog.LateBeginsMean` | orchestrator/failover.go:144-222 | the count of late tickets is the number of begins on the log after the client left |
| `SessionLog.FirstRoundMeans` | orchestrator/failover.go:240-265 | the monitor's first round is the log's: who was begun before recovery and who turned the session down |
| `SessionLog.SpunMeans` | orchestrator/failover.go:267-347 | the spin flag says exactly that recovery took a ticket for a worker that had refused during recovery and had not been probed healthy since by a probe started later |
| `SessionLog.FirstRefusalIsNoBar` | orchestrator/failover.go:240-275 | a safe log without any probe in which recovery retries a worker that refused in the first round |
| `SessionLog.VouchedMeans` | orchestrator/main.go:186-204 | a worker is vouched for exactly when it refused during recovery and a probe that started after the last such refusal found it healthy since |
| `Dispatch.Session.EligibleMeans` | orchestrator/failover.go:317-347 | recovery may pick exactly the healthy workers that have not broken and whose last refusal during recovery, if any, is older than the start of their last probe; refusals before recovery do not count |
| `Dispatch.Session.FinishProbe` | orchestrator/main.go:458-508 | a probe answer of any age keeps the session invariant |
| `Dispatch.Session.Forward` | orchestrator/failover.go:131-141 | a successful write extends both what PMS got and the current worker's output; a failed one means the client is gone |
| `Dispatch.Session.OpenStream` | orchestrator/failover.go:184-222 | headers are written only for the first worker, and a seam ends the unfinished line |
| `Dispatch.Session.Relay` | orchestrator/failover.go:202-222 | every read of a worker's stream reaches PMS in order, unless PMS is gone |
| `Dispatch.Session.StreamFrom` | orchestrator/failover.go:144-222 | one attempt, told from the worker's reply: no answer or a 503 is a refusal, a stream that ends is done, one that breaks off is broken, with all it carried forwarded; an unreachable or broken worker is marked down; a ticket is begun late exactly when the client was gone at entry; a worker is marked down only for being unreachable or breaking off, never because the client left |
| `Dispatch.Session.HangUpThenStream` | orchestrator/failover.go:144-222 | a client that hangs up between the pick of a worker and its ticket makes exactly one late ticket |
| `Dispatch.Session.WithResume` | orchestrator/failover.go:350-365 | the argv sent next is the one the checkpoint cache resumes, and the cache is left as that says |
| `Dispatch.Session.Rediscover` | orchestrator/failover.go:337-337 | afterwards a healthy worker is one whose probe started since |
| `Dispatch.Session.WaitForRecoveryWorker` | orchestrator/failover.go:317-347 | returns only a healthy worker that has not broken and, if refused, was probed since; returns none only when the client is gone, or the deadline is over and nobody is eligible; terminates; it never sleeps without having rediscovered, and then whoever is healthy was probed since |
| `Dispatch.Session.TryWorker` | orchestrator/failover.go:291-292 | each attempt of a move sends the argv the checkpoint cache resumes at that moment, and nothing when the client is gone |
| `Dispatch.Session.Attempt` | orchestrator/failover.go:277-307 | one turn of a move: over, for a reason that then holds, or refused with either time or background budget spent, or one eligible worker less |
| `Dispatch.Session.Move` | orchestrator/failover.go:269-311 | ends with another worker's stream broken, the stream ended, the client gone, or the deadline over with nobody eligible; terminates under a lexicographic measure; with no fresh probes makes at most one attempt per eligible worker; requests are counted by the attempts |
| `Dispatch.Session.Recover` | orchestrator/failover.go:269-311 | gives up only when the last stream ended, the client is gone, as many workers as allowed accepted and broke, or the recovery wait since the last break is over with nobody eligible; accepting workers pairwise distinct, at most one late begin, and each request carries the session's own argv resumed some number of times |
| `Dispatch.Session.DispatchTask` | orchestrator/failover.go:226-265 | every run is safe: headers at most once, the 503 only when nothing reached PMS, accepted workers distinct and at most 1 + the recovery bound, broken workers never reused, what PMS got is the seam-joined output, the first request carries the argv as posted and every request that argv resumed some number of times; and it ends only as Recover does, or with the 503, which is sent exactly when every worker of the first schedule was begun and refused, those being all that were healthy |
| `Resumed.CarriesMeans` | orchestrator/failover.go:226-365 | an argv resumed at any number of checkpoint hints names the same Plex session, keeps all other tokens in order, and starts where the last of them says |
| `Resumed.HintsMean` | orchestrator/failover.go:226-365 | the same for a given list of hints: seek and start number are those of the last one |
| `Worker.Ticket.Accept` | orchestrator/failover.go:60-72 | moves a pending ticket into the accepted map, once, and never after the end |
| `Worker.Ticket.End` | orchestrator/failover.go:74-86 | takes the ticket out of whichever count holds it; a second call changes nothing |
| `Worker.Upstream.Begin` | orchestrator/failover.go:55-58 | a new pending ticket, counted |
| `Worker.Upstream.InFlight` | orchestrator/main.go:174-184 | pending tickets plus those accepted since the last probe started |
| `Worker.Upstream.FinishProbe` | orchestrator/main.go:458-508 | the probe's start, count and health replace the old ones, tickets untouched |
| `Worker.Upstream.AllEnded` | orchestrator/failover.go:46-86 | when every ticket has ended the pending counter is zero and the accepted map empty |
| `Ledger.Drive` | orchestrator/failover.go:46-86 | the objects driven through any run of the state machine below end in its state, their in-flight count is its count, and with the sessions last reported it covers every running session outside the accept window |
| `Load.NoSessionMissed` | orchestrator/main.go:168-184 | over all interleavings with out-of-order probes, at any instant, running sessions outside the accept window never outnumber activeSessions + inFlight, even joined with the last report and every pending ticket; counting those inside it, they never outnumber that sum plus the tickets inside it |
| `Load.ReadsMissNone` | orchestrator/main.go:149-184 | read in three steps, with any steps of the world in between but the end of a probe, the sum misses no running session begun before the second read |
| `Load.ReadsMiss` | orchestrator/main.go:168-225 | a run in which the end of a probe, in the first gap or in the second, makes the sum zero with an accepted session running |
| `Load.LiveTickets` | orchestrator/failover.go:46-97 | pending + mid-accept + accepted is the number of live tickets, and both counts are zero when all have ended |
| `Load.EndIdempotent` | orchestrator/failover.go:74-86 | ending a ticket again changes nothing, whatever its phase was outside the accept window |
| `Load.WindowMisses` | orchestrator/failover.go:60-72 | a run in which a session inside the accept window is missed |
| `Pool.WorkerPool.Refresh` | orchestrator/main.go:335-376 | after a DNS answer the map refines the sets with DNS replaced; after a failed lookup nothing changes |
| `Pool.WorkerPool.LoadList` | orchestrator/main.go:381-396 | every listed url is added to LIST, other memberships kept |
| `Pool.WorkerPool.Register` | orchestrator/main.go:403-424 | a heartbeat joins PUSH with its time, and reports whether the worker is new |
| `Pool.WorkerPool.ReapPush` | orchestrator/main.go:429-448 | only entries with heartbeats older than the timeout leave PUSH, and the pool if nothing else vouches |
| `Pool.RefinesKeys` | orchestrator/main.go:335-448 | the keys are exactly DNS with LIST with PUSH, each entry's bits are its memberships, none is zero, key equals url |
| `PoolRuns.Drive` | orchestrator/main.go:335-448 | any sequence of the four operations keeps the pool a refinement of the three sets |
| `PoolRuns.ListedStays` | orchestrator/main.go:381-396 | a listed worker is never removed |
| `PoolRuns.ListedExactly` | orchestrator/main.go:381-396 | after any run exactly the urls some list named are listed |
| `PoolRuns.DnsIsLast` | orchestrator/main.go:335-380 | the DNS set is that of the last answer, failed lookups change nothing |
| `PoolRuns.Heartbeat` | orchestrator/main.go:403-448 | after its last heartbeat a worker stays pushed, at that time, exactly as long as no reap finds it older than the timeout |
| `PoolRuns.BeatingStays` | orchestrator/main.go:403-448 | a worker whose heartbeats are never more than the timeout apart is never removed |
| `Schedule.SortCorrect` | orchestrator/main.go:602-620 | the order is sorted by the strategy's key, a permutation, and stable on ties |
| `Schedule.SortInPlace` | orchestrator/main.go:602-620 | the slice becomes the sorted order |
| `Schedule.Scheduler.OrderTier` | orchestrator/main.go:602-620 | sorted by url and rotated by the cursor, sorted by key, or shuffled, by strategy; always the same members, or in the order its random draws make |
| `Schedule.AnyOrder` | orchestrator/main.go:606-607 | every order of a tier comes up for some draws |
| `Schedule.Scheduler.Schedule` | orchestrator/main.go:573-598 | a permutation of exactly the healthy workers; without a flat pool every hardware worker comes before every software one; under round-robin the cursor advances by one, modulo 2^64 |
| `Schedule.OrderMeans` | orchestrator/main.go:573-620 | that order holds each healthy worker once and nobody else, software workers behind all others unless the pool is flat, and among peers the one that is not busier first |
| `Schedule.LoadMeans` | orchestrator/main.go:151-166 | the load is the larger of the session ratio and the GPU's, and 2^30 for an unhealthy worker |
| `Schedule.StringLeqMeans` | orchestrator/main.go:611-611 | urls go by the first byte in which they differ, a prefix first |
| `Schedule.RotationMeans` | orchestrator/main.go:608-615 | a round-robin tier is the url order begun at the cursor's place and carried on past its end |
| `Schedule.RoundRobinFair` | orchestrator/main.go:602-620 | over any n consecutive dispatches to the same n workers, listed in any order and with any load each time, each worker leads exactly one, if and only if the 64-bit cursor does not wrap on the way or n divides 2^64 |
| `Schedule.Dispatches` | orchestrator/main.go:573-620 | the same over n consecutive calls of schedule(), for the flat pool or either tier, whatever else the pool holds each time |
| `Resume.InjectResumeFlags` | orchestrator/checkpoint.go:252-309 | the loops of the resume rewrite compute the specified argv, with or without an input |
| `ResumeProps.InjectionMeans` | orchestrator/checkpoint.go:252-309 | first input-side seek is the resume point, start number is the next segment, -copyts precedes the input, all other tokens keep their order |
| `ResumeProps.CopytsBeforeInput` | orchestrator/checkpoint.go:252-309 | -copyts stands before the first -i |
| `CheckpointCache.Cache.Put` | orchestrator/checkpoint.go:103-110 | stores the hint under its session, others untouched |
| `CheckpointCache.Cache.Get` | orchestrator/checkpoint.go:112-127 | a hint within its lifetime, and an expired one is forgotten |
| `CheckpointCache.Cache.ResumeIfApplicable` | orchestrator/checkpoint.go:221-241 | injects, or drops the hint of a re-seek, exactly as specified |
| `CheckpointCache.ResumesAt` | orchestrator/checkpoint.go:221-249 | resumed exactly when the hint is this session's, within its lifetime, with a finished segment, and its seek within 0.05 of the argv's; then at the original seek plus finished segments times segment length, to the millisecond, with the next segment's number; a hint is forgotten exactly when stale or when the client went elsewhere |
| `CheckpointCache.Poll` | orchestrator/checkpoint.go:146-173 | a poll stores the argv's own seek and segment length with the segment reported |
| `CheckpointCache.PolledResumes` | orchestrator/checkpoint.go:146-249 | a session polled at a finished segment and sent again in time starts after exactly the finished segments |
| `Resume.InitialSeekFromArgs` | orchestrator/checkpoint.go:58-70 | the loop computes the argv's seek |
| `Resume.InitialSeekMeans` | orchestrator/checkpoint.go:55-70 | that of the first readable -ss before any -i, and 0 when there is none |
| `Resume.PlexSessionFromArgs` | orchestrator/checkpoint.go:43-53 | the loop computes the argv's session |
| `Resume.PlexSessionMeans` | orchestrator/checkpoint.go:39-53 | that of the first progress url that names one |
| `Resume.SegmentTimeFromArgs` | orchestrator/checkpoint.go:75-84 | the loop computes the segment length |
| `Resume.SegmentTimeMeans` | orchestrator/checkpoint.go:72-84 | the first positive one, and 1 when there is none |
| `Resume.MillisMeans` | orchestrator/checkpoint.go:267-267 | a printed seek is a whole number of milliseconds, and the nearest |
| `CheckpointCache.SessionKept` | orchestrator/checkpoint.go:43-53 | the rewrite never changes which Plex session an argv belongs to |
| `CheckpointCache.InjectTwice` | orchestrator/checkpoint.go:252-309 | injecting the same flags twice is injecting them once |
| `CheckpointCache.ResumeTwice` | orchestrator/failover.go:349-365 | resuming again with the same hint leaves the argv unchanged, whether the hint still matches, is dropped as a re-seek, or is stale |
| `CheckpointCache.SecondMove` | orchestrator/failover.go:269-311 | the second move uses a newer hint if and only if the first resume point is within the tolerance of the original seek; otherwise the first resume point stays and the hint is gone |
| `Seam.LinesSound` | shim/cmd/shim/main.go:250-260 | the split loses nothing, every complete line ends at its first terminator, the tail has none |
| `Seam.RoutedWhole` | shim/cmd/shim/main.go:158-183 | the lines routed by the end of a stream are the whole of it, the unfinished one included |
| `Seam.AllLinesAt` | shim/cmd/shim/main.go:250-260 | each complete line of such a split is a line: one terminator, at its end |
| `Seam.LinesUnique` | shim/cmd/shim/main.go:250-260 | it is the only such split |
| `Seam.LinesAppend` | shim/cmd/shim/main.go:158-183 | carrying the tail over and splitting piece by piece is splitting the whole |
| `Seam.SessionLines` | orchestrator/failover.go:184-222 | over any number of worker swaps the routed lines are each worker's lines in order, none merged across a swap |
| `Seam.ExactLines` | orchestrator/failover.go:131-141 | they are exactly each worker's own lines if and only if no replaced worker stopped right after a carriage return |
| `Shim.SplitLinesKeepDelim` | shim/cmd/shim/main.go:250-260 | the loop computes that split |
| `Shim.Demultiplexer.RouteLine` | shim/cmd/shim/main.go:188-208 | a tagged stdout, stderr or exit line goes where it belongs, anything else to stderr |
| `Shim.Demultiplexer.StreamAndDemultiplex` | shim/cmd/shim/main.go:158-183 | stdout, stderr and exit code depend only on the bytes, not on how reads cut them, and hold what the lines' tags say |
| `Shim.Delivered` | shim/cmd/shim/main.go:188-208 | stdout is the text after the stdout tag of each line that starts with it, in order; stderr is every other line, verbatim but for a stderr tag at its start |
| `Shim.DemuxDelivers` | shim/cmd/shim/main.go:158-208 | the same of a whole stream |
| `Shim.ExitCode` | shim/cmd/shim/main.go:188-208 | the exit code is what the last exit event says, failure when there is none |
| `Shim.LastExitIsLast` | shim/cmd/shim/main.go:188-208 | that event is an exit line and no exit line comes after it |
| `Shim.SessionOutcome` | shim/cmd/shim/main.go:148-208 | end to end, stdout and exit code are those of each worker's own lines; stderr too unless a replaced worker stopped after a carriage return |
| `StreamSpec.StreamIdOrdinalMap` | worker/agent/rewriter.go:256-272 | the map holds exactly the ids mentioned, each with its place in order of first occurrence |
| `StreamSpec.SpecSelectsOrdinal` | worker/agent/rewriter.go:281-295 | ordinal, id or typed index, decided in that order |
| `StreamSpec.SelectsNumber` | worker/agent/rewriter.go:281-284 | a number selects the stream of that ordinal |
| `StreamSpec.SelectsId` | worker/agent/rewriter.go:285-288 | an id selects the stream at whose ordinal it stands |
| `StreamSpec.SelectsTyped` | worker/agent/rewriter.go:289-294 | of the typed forms only v: and V: select, by their number |
| `Text.AtoiSigned` | worker/agent/rewriter.go:281-294 | numbers may be signed, down to the least of 64 bits |
| `StreamSpec.MentionsNext` | worker/agent/rewriter.go:256-272 | the ids of a token are its runs of hex digits behind the id mark, one after another |
| `StreamSpec.FirstMentionOrder` | worker/agent/rewriter.go:256-272 | ordinals go by first mention |
| `StreamSpec.StreamSpecIndex` | worker/agent/rewriter.go:305-318 | the first flag from the start position that selects the stream, or -1 |
| `StreamSpec.ResolutionAgrees` | worker/agent/rewriter.go:246-318 | the position found is the one found on the argv whose ids were replaced by their ordinals up front |
| `HwStrip.StripHardware` | worker/agent/rewriter_sw.go:128-163 | the five loops compute the specified argv, terminate, and report whether anything was removed |
| `HwStrip.RemovableMeans` | worker/agent/rewriter_sw.go:141-163 | by name, the pairs meant to go: two device flags, and three decode flags whose specifier selects the video stream |
| `HwStrip.StripKeepsOrdinals` | worker/agent/rewriter_sw.go:128-163 | when a retained token mentions the video id before any other id appears, exactly the device pairs and the video stream's decode pairs go, and no id changes its ordinal |
| `HwStrip.StripExact` | worker/agent/rewriter_sw.go:128-163 | and only then: on a well-formed argv that is exactly when the ordinals survive and just those pairs go |
| `HwStrip.OrdinalsMove` | worker/agent/rewriter_sw.go:128-163 | without such a token a flag of another stream becomes the video stream's, for any two ids and any plain values |
| `AudioClean.SwapEAEAudioDecoders` | worker/agent/rewriter.go:1672-1697 | the in-place loop computes the swapped argv; the reported swaps are distinct and empty exactly when nothing changed |
| `AudioClean.SwapMeans` | worker/agent/rewriter.go:1672-1697 | for any argv, each token is its old value unless it follows an audio codec flag and names an eae codec |
| `AudioClean.DropEAEPrefixFlags` | worker/agent/rewriter.go:1702-1719 | the loop's result, or the panic, as specified |
| `AudioClean.DropPrefixesMeans` | worker/agent/rewriter.go:1702-1719 | exactly the -eae_prefix pairs go, in one walk; it panics exactly when an odd number of such flags ends the argv |
| `AudioClean.DropFramedropBSF` | worker/agent/rewriter.go:1739-1757 | the loop's result as specified, two tokens per reported drop; terminates |
| `AudioClean.DropInputAudioDecoderHints` | worker/agent/rewriter.go:2121-2160 | both loops' result as specified, two tokens per reported change; terminates |
| `AudioClean.DropHintsMeans` | worker/agent/rewriter.go:2121-2160 | for any argv: one walk drops the hint pairs up to the first -i it meets, a hint's value possibly being one, and as long as an -i lies ahead; then one walk drops the -eae_prefix pairs, a lone last one staying |
| `Bail.RunBail` | worker/agent/rewriter.go:2333-2410 | after the URL scrub: the passes in their order, and that applied says exactly whether they changed the argv |
| `Bail.BailMeans` | worker/agent/rewriter.go:2333-2410 | on a well-formed argv the bail never panics and is one walk: private pairs go, eae names become stock codecs, all else keeps its order |
| `Bail.PairGoes` | worker/agent/rewriter.go:1702-1757 | by name, the pairs that go: private prefixes, framedrop filters, and, without a decoder, input codec hints |
| `Bail.PairSwapped` | worker/agent/rewriter.go:1614-1631 | a kept eae name becomes its base in a decoder slot, and eac3 unless it is eac3 or ac3 in an encoder slot |
| `Bail.PairStays` | worker/agent/rewriter.go:1672-1697 | any other kept value stays as it is |
| `Bail.BailLeaves` | worker/agent/rewriter.go:2333-2410 | by name, what no bailed argv holds |
| `Bail.CleanedHasNoPrivate` | worker/agent/rewriter.go:1702-1757 | no -eae_prefix flag and no framedrop pair is left |
| `Bail.SwapNames` | worker/agent/rewriter.go:1614-1631 | decoder names become their base codec, encoder names eac3 or ac3, and which names keep an eae ending |
| `Bail.CleanedHasNoEae` | worker/agent/rewriter.go:1672-1697 | no eae name follows an audio codec flag, if and only if no kept input decoder slot held a stubborn name |
| `Bail.BailTwice` | worker/agent/rewriter.go:2333-2410 | bailing on the bailed argv changes nothing, if and only if no decoder name can be cut twice |
| `BailOut.DropProgressMeans` | worker/agent/rewriter.go:2263-2270 | the loop that starts over after each removal is one walk that drops every -progressurl pair |
| `BailOut.RelayLists` | worker/agent/rewriter.go:2277-2307 | the in-place loop relays the list urls, and reports exactly whether one was a loopback url |
| `BailOut.ScrubPlexFlagsOnBail` | worker/agent/rewriter.go:2263-2332 | the scrub computes the specified argv; it reports exactly whether it found something to touch, and never changes the argv in silence |
| `BailOut.BailOut` | worker/agent/rewriter.go:2263-2410 | the whole bail from the argv as received; applied is exactly: font paths scrubbed, a URL touched, or a pass changed something, and a changed argv is never reported as not applied |
| `BailOut.BailOutMeans` | worker/agent/rewriter.go:2263-2410 | on a well-formed argv as received the whole bail never panics, is the scrub and one walk, keeps every graph and profile, and leaves no -progressurl |
| `TailEffects.ScrubReachable` | worker/agent/rewriter.go:2263-2332 | so do those of a bail's scrub, and without a relay the manifest goes |
| `FormatToken.LastFormatToken` | worker/agent/rewriter.go:1524-1546 | for a pixel format without an f, the offset of the last exact token, or -1 when there is none |
| `FormatToken.LastFromMeans` | worker/agent/rewriter.go:1524-1546 | taking occurrences end to end misses none when the needle never overlaps itself |
| `FormatToken.TokenMeans` | worker/agent/rewriter.go:1524-1546 | a name with a letter, digit or underscore behind it is another name |
| `FormatToken.GraphFeedsTenBit` | worker/agent/rewriter.go:1499-1506 | both answers as the two last offsets compare |
| `FormatToken.TenBitMeans` | worker/agent/rewriter.go:1499-1506 | ten bits if and only if the last exact p010 or nv12 token is p010 |
| `Main10.TenBitOutput` | worker/agent/rewriter.go:1479-1491 | decided by the first graph that declares a p010 or nv12 format |
| `Main10.EnsureHevcMain10` | worker/agent/rewriter.go:1450-1470 | pins exactly when the encoder slot is a hardware HEVC encoder, the output is ten-bit and no profile is set |
| `Main10.PinExactly` | worker/agent/rewriter.go:1450-1470 | for the first video codec flag after the input: the pin applies exactly to a hardware HEVC encoder fed ten bits with no profile set, and puts -profile with the encoder's own specifier and main10 right after it, changing nothing else |
| `Main10.NoEncoderNoPin` | worker/agent/rewriter.go:1450-1470 | without such a flag nothing is pinned |
| `Main10.PinReaches` | worker/agent/rewriter.go:3164-3504 | that profile is still there, with its value, at the end of the whole tail |
| `TailPasses.RewriteSegmentList` | worker/agent/rewriter.go:1909-1977 | the in-place loop computes the specified argv |
| `TailPasses.SegmentListsMeans` | worker/agent/rewriter.go:1909-1977 | for any argv, each token is its old value unless it is the value of a list flag that names the loopback and belongs to the variant, which is relayed |
| `TailPasses.StripInlineassDecodeSink` | worker/agent/rewriter.go:1571-1591 | removes the first sink unless the subtitle has a file of its own |
| `TailPasses.ManifestSame` | worker/agent/rewriter.go:1869-1893 | graphs, profiles and well-formedness survive the manifest pass |
| `TailPasses.ProgressSame` | worker/agent/rewriter.go:1991-2035 | they survive the progress-url capture |
| `TailPasses.LoglevelSame` | worker/agent/rewriter.go:2046-2054 | they survive the loglevel upgrade |
| `TailPasses.NostatsSame` | worker/agent/rewriter.go:2058-2063 | they survive the removal of -nostats |
| `TailEffects.RelayedMeans` | worker/agent/rewriter.go:1933-1947 | a loopback url keeps its path under the relay's address, and gets the token if there is one |
| `TailEffects.SegmentUrlMeans` | worker/agent/rewriter.go:1919-1960 | which list urls a pass rewrites, and that the HLS one gets the segment time |
| `TailEffects.ManifestMeans` | worker/agent/rewriter.go:1869-1893 | a loopback manifest goes to the relay, any other goes away with its flag |
| `TailEffects.ProgressMeans` | worker/agent/rewriter.go:1991-2035 | the progress url goes, and comes back in front as the throttle url unless that is off or there already |
| `TailEffects.LoglevelMeans` | worker/agent/rewriter.go:2046-2054 | quiet, panic and fatal give way to the configured level, any other level stays |
| `TailEffects.NostatsMeans` | worker/agent/rewriter.go:2058-2063 | the first -nostats goes |
| `TailEffects.NothingToDo` | worker/agent/rewriter.go:1869-2063 | without its flag each of these passes changes nothing |
| `TailEffects.SinkMeans` | worker/agent/rewriter.go:1571-1591 | the first of the seven-token sinks goes unless it is kept |
| `TailEffects.KeepsSinkMeans` | worker/agent/rewriter.go:1571-1582 | kept exactly when the subtitle is bound to another file than the first |
| `TailEffects.NotBound` | worker/agent/rewriter.go:1571-1582 | without a binding nothing goes |
| `TailEffects.SeiMeans` | worker/agent/rewriter.go:3208-3213 | the SEI flags go right before the video stream's first key-frame flag after the encoder, if they were missing |
| `TailEffects.GraphMeans` | worker/agent/rewriter.go:3187-3213 | only a hardware video session gets the SEI flags: they go into the pinned argv right before that key-frame flag, and a remux or a software session gets none |
| `TailEffects.NoKeyFrames` | worker/agent/rewriter.go:3208-3213 | without a key-frame flag after the encoder nothing is put in |
| `TailEffects.SegmentTimeMeans` | worker/agent/rewriter.go:3383-3386 | the segment time is the value of the first such flag, and empty without one |
| `TailEffects.UrlsMeans` | worker/agent/rewriter.go:3375-3432 | token by token on a well-formed argv: a session's own list url goes to the relay with the segment time, a subtitle list as it is, every other token stays |
| `Main10.RunTail` | worker/agent/rewriter.go:3164-3504 | the passes from the pin on, in their order, compute the specified argv |
| `Main10.TailShows` | worker/agent/rewriter.go:3164-3504 | over that whole tail the output pins main10 exactly when the input did or the pin applied, and the deciding graph is unchanged |
| `TailEffects.TailLeaves` | worker/agent/rewriter.go:3164-3504 | after the tail no private prefix, and no progress url or -nostats that was there once, is left; no option but the tail's own is new |
| `TailEffects.TailKeeps` | worker/agent/rewriter.go:3164-3504 | an option no pass looks for comes out exactly as often as it went in, and the SEI flags once put in come out |
| `TailEffects.SeiReaches` | worker/agent/rewriter.go:3164-3504 | the SEI flags put in for a hardware session are there at the end of the tail |
| `TailEffects.TailIsLoud` | worker/agent/rewriter.go:3164-3504 | with at most one log level, it leaves as one the media server can read |
| `TailEffects.TailReachable` | worker/agent/rewriter.go:3164-3504 | with a relay configured, the list urls of an HLS session and a single manifest url leave as addresses the worker can reach |
| `Main10.Main10Safe` | worker/agent/rewriter.go:3144-3504 | an argv that did not pin main10 and leaves with a main10 profile is fed from a graph whose last exact p010 or nv12 token is p010 |
| `Main10.BailKeepsProfiles` | worker/agent/rewriter.go:2333-2410 | a bail hands over the graphs and profiles it was given |
| `ComposeBurn.ComposeBurn` | worker/agent/rewriter.go:720-794 | the builder with its label counter prints exactly the specified chain of nodes, and returns the last label |
| `ComposeBurn.HwNodes` | worker/agent/rewriter.go:720-863 | the hardware graph's nodes: an upload unless the surface is there, the scale, the burn if any |
| `ComposeBurn.SwNodes` | worker/agent/rewriter_sw.go:61-102 | the CPU graph's nodes, written out |
| `ComposeBurn.NodeText` | worker/agent/rewriter.go:720-794 | a node prints as input labels, filter and output label |
| `ComposeBurn.PrintText` | worker/agent/rewriter.go:720-794 | each further node stands behind a semicolon |
| `ComposeBurn.ScaleText` | worker/agent/rewriter.go:740-760 | the scale node's text: the width, height and surface asked for, and the tonemap behind it |
| `ComposeBurn.StageText` | worker/agent/rewriter.go:638-648 | the tonemap's text per backend, a known algorithm honoured and any other replaced |
| `ComposeBurn.BurnText` | worker/agent/rewriter.go:761-863 | the burn node's text: the subtitle's parameters, then the knobs |
| `ComposeBurn.HwWiring` | worker/agent/rewriter.go:720-863 | labels are fresh numbers, each node reads the video stream or an earlier label, every label but the last is read exactly once |
| `ComposeBurn.SwWiring` | worker/agent/rewriter_sw.go:61-102 | the same for the CPU graph, with the bitmap subtitle's branch joining at the overlay |
| `ComposeBurn.BurnDepth` | worker/agent/rewriter.go:720-863 | on Intel and NVIDIA the composed graph reads as ten-bit if and only if ten bits were asked for without a tonemap; on AMD also when its burn node tonemaps; on the CPU only with a tonemap |
| `ComposeBurn.SelectKeepsDepth` | worker/agent/rewriter.go:803-809 | appending the seek gate leaves the last pixel format as it was |
| `Reshape.ReshapeGraph` | worker/agent/source_backend.go:248-286 | the graph step in place: recomposes the first foreign graph and retargets its map label |
| `Reshape.RetargetMeans` | worker/agent/rewriter.go:909-926 | the first -map of the old label, quoted or not, reads the new one in the same way |
| `Reshape.ReshapedMeans` | worker/agent/source_backend.go:256-284 | the foreign graph and the -map of its label change together, every other token stays |
| `Reshape.ReshapedUnlabelled` | worker/agent/source_backend.go:256-284 | the same for a graph without a label at its end, wherever it stands |
| `Reshape.NotReshaped` | worker/agent/source_backend.go:256-258 | a CPU graph, or one the source cannot read, leaves the argv alone |
| `Reshape.NoGraph` | worker/agent/source_backend.go:256-258 | so does an argv without a graph |
| `Reshape.RecomposedMeans` | worker/agent/source_backend.go:265-282 | the recomposed graph written out: scaled to the foreign graph's width and height, its tonemap and text subtitle, ten bits where it fed ten to an HEVC encoder, its seek gate last |
| `Reshape.EncodesHevcMeans` | worker/agent/rewriter.go:1512-1519 | the first video encoder after the input decides |
| `Reshape.RecomposedDepth` | worker/agent/source_backend.go:265-283 | on Intel and NVIDIA the recomposed graph feeds ten bits if and only if the foreign one did, without a tonemap and for an HEVC encoder; on AMD also when its burn node tonemaps |
| `Reshape.ReshapeKeepsDepth` | worker/agent/source_backend.go:234-286 | on Intel and NVIDIA the Main10 test on the reshaped argv says ten bits if and only if the foreign graph fed ten bits to an HEVC encoder without a tonemap |
| `Scrub.ScrubPaths` | worker/agent/rewriter.go:1782-1822 | the loop computes the scrubbed text for any text, terminates, and reports changed exactly when the text differs |
| `Scrub.ScrubReads` | worker/agent/rewriter.go:1782-1822 | the result reads as the same graph with each node cleaned: all text outside nodes in place |
| `Scrub.ScrubsNode` | worker/agent/rewriter.go:1782-1822 | from the text: what is in front of a node stays, its parameters up to a bracket or semicolon are cleaned, and so on behind it |
| `Scrub.ScrubsNothing` | worker/agent/rewriter.go:1782-1822 | a text without such a node stays |
| `Scrub.CleansPair` | worker/agent/rewriter.go:1803-1815 | parameters are cut at colons, and a pair goes or stays by its key |
| `Scrub.CleanPairs` | worker/agent/rewriter.go:1805-1815 | a cleaned node's pairs are the old ones without the two keys, in order |
| `Scrub.StrippedMeans` | worker/agent/rewriter.go:1790-1814 | a pair goes exactly when it starts with one of the two keys and an equals sign |
| `Scrub.NothingLeft` | worker/agent/rewriter.go:1782-1822 | no such pair is left in any node |
| `Scrub.ScrubTwice` | worker/agent/rewriter.go:1782-1822 | scrubbing again changes nothing |
| `Scrub.ScrubChanges` | worker/agent/rewriter.go:1782-1822 | the text differs exactly when some node held such a pair |
| `Sni.ParseSNI` | clientfix/cmd/clientfix/sni.go:122-180 | on any bytes it terminates, reads nothing out of range, and returns the specified host as a contiguous slice of the input |
| `Sni.SniRoundTrip` | clientfix/cmd/clientfix/sni.go:122-180 | for every encoded ClientHello the first host_name of the first server_name extension, or nothing when there is none (RFC 8446 section 4.1.2, RFC 6066 section 3) |
| `Sni.PeekRoundTrip` | clientfix/cmd/clientfix/sni.go:103-117 | the same through the record layer, exactly up to the record size the front accepts |
| `QuotedSlice.ParseQuotedSlice` | cmd/argv-extract/main.go:140-174 | the nested scan computes the specified list on any input, terminates, and stays in range |
| `QuotedSlice.QuotedRoundTrip` | cmd/argv-extract/main.go:140-174 | printing with escaped quotes and backslashes and parsing gives the list back if and only if no string holds a raw newline |
| `QuotedSlice.LoggedRoundTrip` | cmd/argv-extract/main.go:140-174 | escaping newlines too, every list comes back |
| `QuotedSlice.SpelledRoundTrip` | cmd/argv-extract/main.go:140-174 | however each character is written, itself, short, in two, four or eight hexadecimal digits of either case, or in octal, the list comes back |
| `QuotedSlice.CodedReads` | cmd/argv-extract/main.go:140-174 | what every number in a numeric escape reads as, surrogates and numbers too large for it refused |
| `QuotedSlice.Refuses` | cmd/argv-extract/main.go:140-174 | a backslash before any other character, or at the end, refuses the literal |
| `QuotedSlice.BadDigit` | cmd/argv-extract/main.go:140-174 | a character that is no digit of the base refuses the number |

## Left out

- HTTP clients and servers, DNS, JSON, metrics, logging, file watching, process spawning: they are the nondeterministic inputs of the state machines.
- Dispatch.Session.DispatchTask: the request body is its argv; decoding and encoding it, and the fallback to the body as it was when that fails, are not modelled. The local maps of broken and refused workers are fields here.
- Dispatch.Session.StreamFrom: that no request leaves once the client is gone rests on net/http refusing a request whose context is cancelled, which the guard before the request stands for.
- Dispatch.Session.Move: the recovery deadline is not consulted while background probes keep turning up candidates, so termination takes a finite budget of background pool updates; a synchronous rediscovery is taken to last at least one clock tick.
- Worker.Upstream.InFlight: 32-bit wrap-around of the pending counter and the mutex are not modelled; a ticket step is atomic except for the two halves of `accept()`, which `Load` takes apart.
- Load.NoSessionMissed: sessions begun by another orchestrator appear only through the worker's own report.
- Pool.WorkerPool.Refresh: workers are entries of a map, not shared objects; load and health of an entry are not part of this module, and map iteration order is any order.
- Schedule.SortInPlace: Go's stable sort is modelled by insertion; load and health of a worker are read once per dispatch, although the source reads them again while sorting. Loads are reals.
- Resume.InjectResumeFlags: tokens stand for printed words; numbers are reals and integers, printing a seek rounds to the millisecond, and infinities and NaN are not modelled.
- Shim.Demultiplexer.StreamAndDemultiplex: reads end with the stream; a read error other than the end is not modelled. Text streams hold one character per byte.
- MatroskaChunk.PatchMatroskaClusterTimecode: the file is its bytes; reading and writing it are not modelled.
- StreamSpec.ResolutionAgrees: specifiers of other forms than ordinals, `#0x` ids and typed video indices on the flag searched for are outside its scope, as the source never resolves them.
- HwStrip.StripHardware: the filter graph, decoder and encoder steps of the downgrade are not modelled.
- Bail.RunBail: change tags are counted, not named; the scrub of font paths before a bail is `Scrub`, and `BailOut.BailOut` takes as given whether it changed anything.
- Load.ReadsMissNone: the pending counter and the accepted map are read in two steps, as in the source; reading and walking the map is one step, under the worker's mutex.
- Ledger.Drive: the objects take the two halves of `accept()` as one, so it drives runs with nothing in between; it reads the time from the run.
- Main10.Main10Safe: the branches of the rewrite before the pin are any argv handed over; environment edits and change tags are left out; the relay address and log level from the environment are taken not to start with a dash.
- Sni.ParseSNI: a ClientHello split over several records is not put together, as in the source.
- QuotedSlice.ParseQuotedSlice: strings are code points, so a byte escape from 80 hex up stands for the code point of that number and invalid UTF-8 does not occur.
- ComposeBurn.BurnDepth: sizes, algorithm and stream names are taken to hold no equals sign and the subtitle's own parameters to name no pixel format, as the expressions that extract them guarantee for sizes and names; the download stage no backend asks for is not modelled.
- Extracting the facts of an incoming graph, dialect tables, backend detection and subtitle probing: per-branch facts without a property that spans them.
- Reshape.ReshapeGraph: the facts and the old label are what the source's expressions extract; the decode flags and the encoder of the reshape are single-slot overwrites and are left out.
- The relay proxy, registration limits, drain polling, GPU sampling, corpus tools and QA scripts.
