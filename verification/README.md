# Heliograph relay: a verified model

The relay holds sealed messages for stations that connect when they can. A sender puts a message
on a route (estate, station, direction); the recipient collects it, destructively or under a lease
that it later acknowledges. With a spool directory every message is on disk before its sender is
told it was accepted. The same contract is implemented twice, by a Go server and by a Worker over
Durable Object storage, and both are guarded by scoped credentials and by signed, revocable
authorisation leases.

This project models those parts in Dafny and proves what they promise, over every input, every
timed run and every moment at which a process can be killed or the power can fail.

## How it is organised

| part | modules |
|---|---|
| text, encodings, numbers | `Text`, `Utf8`, `Json`, `Base64`, `Js` |
| messages and names | `Messages`, `SpoolCodec`, `Tokens` |
| the Go store as values, and over runs | `Queues`, `Stores`, `Runs`, `LeaseSafety`, `Conservation` |
| the spool as a machine with crashes | `Disks`, `SpoolMachine`, `SpoolSafety`, `SpoolRestart`, `SpoolOrder`, `SpoolCuts` |
| runs built to show a limit | `SpoolRuns`, `SpoolCutsExact`, `SpoolCutsCounterexample` |
| the Go code as it runs | `SpoolDir` (class `Spool`), `Relay` (class `Store`) |
| the Worker | `Worker`, `DurableQueue` (class `RelayQueue`) |
| both together | `Simulation`, `SimulationCounterexample`, `Durations` |
| authority | `Scopes`, `Authorities`, `Watchers` (class `Sessions`), `RemoteCache` (class `RemoteAuth`) |

The classes are the imperative code: loops, in-place marks, file operations that may fail at any
step. Each method is proved equal to a function on values (`Stores.Apply`, `Worker.Put` and so on),
and the theorems are proved about those functions. `SpoolDir.Spool` carries a ghost trail of machine
states, one for each file operation, and every method proves its trail is a run of `SpoolMachine`:
what is proved of runs therefore holds between any two file operations of the code.
`SpoolCuts.RecoveredStoreIsSound` joins the two halves: the store a restart builds, after kills and
after power cuts that left its files in order, is one from which the theorems about process runs
start. `Watchers` treats each
locked section and each single send as one step, and lets any others run in between.

Assumptions, in one place: each store operation reads the clock once and the clock never goes back;
the mutex makes the locked sections atomic within a process; one process at a time uses a spool
directory; that directory is empty, or absent, when the first process opens it, so it holds no
message files that the relay did not write; an fsync that succeeds has made its file or directory
durable; strings are byte strings, one `char` per byte; signature verification is an arbitrary
predicate.

## What turned out not to hold

Each has a lemma with a concrete input, and beside it the exact condition under which it does hold.

- A promise can be lost with the directory: `OpenSpool` makes the directory and nothing fsyncs its
  parent, so a power cut in the first run may leave no directory at all
  (`SpoolCutsCounterexample.FirstRunCanLoseEverything`). Promises outlive every power cut exactly
  when the directory's own entry is durable (`SpoolSafety.PromisesOutliveCutsExactly`).
- An id can be used twice. A kill and a restart over a drained spool are enough: the counter is
  rebuilt from surviving files only (`SpoolCutsCounterexample.DrainedRestartRepeatsAnId`). New ids
  exceed every id ever accepted exactly when, for each of those, a message file that is still there
  holds it or a later one (`SpoolCuts.NewIdsExactly`). The statement in the repository's README
  (lines 729-733) that an id is never reused therefore holds within a process run and against every
  surviving message, not across every restart.
- Two different messages can be recovered under one id, the newer first: a removal is not followed
  by a directory fsync, so a power cut can bring a collected message back next to one accepted after
  a restart (`SpoolCutsCounterexample.PowerCutCanRepeatAnId`). The files of a run are in order at
  every moment exactly when every power cut left them so (`SpoolCuts.OrderedExactly`); what a cut at
  a moment leaves is in order, whatever it does, exactly when all it may leave is
  (`SpoolCutsExact.CutOrderKeptExactly`); and that lasts through what the process goes on to do exactly
  when its counters are ahead of every file a cut may bring back (`SpoolCutsExact.OrderLastsExactly`).
- The two implementations part on an acknowledgement that is not sent verbatim on its own route, and
  on a sequence number that JavaScript does not carry. Lease names are per process in the Go server
  and per route in the Worker; the Worker trims the id it is sent where the Go store compares it as
  it is; and the Go server reads a number into 64 bits where the Worker reads it into a double
  (`SimulationCounterexample.CrossRouteAcksDiverge`, `SimulationCounterexample.PaddedAcksDiverge`,
  `SimulationCounterexample.LargeNumbersDiverge`). They agree on a whole script exactly when every
  acknowledgement is verbatim or reaches nothing at the Worker and every number handed over is
  carried (`Simulation.OneBehaviourExactly`); every number up to 2^53 is (`Js.SmallIsCarried`).
- The two read a whole-number `lease` parameter alike except for zero with a unit, and except for a
  number so large that Go's conversion overflows into something it accepts
  (`Durations.ZeroSecondsDiverge`, `Durations.LongLeaseDiverges`; exactly when:
  `Durations.ParsesAgreeExactly`).
- A route whose name is not UTF-8 comes back from the spool as another route
  (`SpoolCodec.StrayByteMovesRoute`; exactly when: `SpoolCodec.CodecExactness`,
  `SpoolRestart.RestartExactness`).
- A credential configured for several estates gets the last estate with all the stations
  (`Scopes.LastEstateTakesAll`; exactly when: `Scopes.ConfigurationExactness`).
- The hosted rule does not reach leases: an estate-wide lease in force is admitted
  (`Authorities.EstateWideLeaseIsAdmitted`; in general: `Authorities.HostedLeavesLeasesAlone`).
- The string keys of queues, watchers and cached decisions collide when a name holds the separator
  (`Messages.KeyCollides`, `Watchers.NulMatchesAnotherEstate`, `RemoteCache.KeyCollides`; exactly
  when: `Messages.KeyUniqueExactly`, `Watchers.MatchesExactly`, `RemoteCache.KeyUniqueExactly`).

One property depends on another: dropping the too-old prefix equals filtering by age exactly when no
old message stands behind a young one (`Queues.PrefixExpiryIsFilter`). The order invariant rules
the other case out of every run.

## Model

| member | source | states |
|---|---|---|
| `SpoolSafety.PowerCutSafety` | spool.go:244-291 | for a power cut at any step of any run, with torn unsynced contents, any subset of unsynced directory changes, and names of any bytes: a restart quarantines nothing, recovers only complete submitted messages (names made UTF-8) and, unless the directory itself is lost, every message whose Put returned success and whose removal has not started |
| `SpoolSafety.PromisesOutliveCutsExactly` | spool.go:99-107 | the promises of a moment outlive every power cut at it if and only if the spool directory's own entry is durable or nothing is promised |
| `SpoolSafety.HomeStaysDurable` | spool.go:104-106 | a directory made durable beforehand, or found after a power cut, stays so |
| `SpoolCutsCounterexample.FirstRunCanLoseEverything` | spool.go:104-106 | a first run with an accepted message and a power cut that leaves no directory to recover it from |
| `SpoolSafety.StepKeeps` | spool.go:244-318 | every primitive step keeps the disk invariant behind it: message files, present or possible after a power cut, are complete, synced copies |
| `Disks.ContentsNeedSync` | spool.go:236-243 | bytes not fsynced may come back from a power cut as anything, fsynced ones come back as they are |
| `Disks.NewFileNeedsSync` | spool.go:236-243 | so may a file that was only created |
| `Disks.EntriesNeedSync` | spool.go:236-243 | a rename or an unlink may be undone until the directory is fsynced, and not after |
| `SpoolSafety.WriteNeverOverwrites` | spool.go:275-280 | the final rename never replaces a message file, after any faults and restarts |
| `SpoolRestart.RestartRebuilds` | spool.go:99-131 | when removals succeed, stopping at any moment and reopening fills each route with exactly the live messages whose names, made UTF-8, are that route's, in file order, leases cleared; live means the queue, plus at most the one complete Put in flight, minus the part of the one removal batch already done |
| `SpoolRestart.RestartExactness` | spool.go:108-126 | a route's queue comes back exactly (order, id, seq, body, arrival time; leases cleared) if and only if no message with malformed names is on it or comes to it |
| `SpoolCuts.OrderedExactly` | spool.go:144-318 | the message files are in order (number, id, arrival) at every moment of a run if and only if every power cut left them so: no kill, restart, put, removal or failing file operation disturbs it |
| `SpoolCuts.JointOrder` | spool.go:108-126 | through kills, restarts, any failing file operation, and power cuts that left the files in order: along each live queue, position, file number and id increase together and arrival times never decrease, and both counters are past everything |
| `SpoolCuts.OrderAcrossRoutes` | spool.go:168-190 | the same single order across all routes of the store |
| `SpoolCuts.RecoveredStoreIsSound` | spool.go:112-127 | the store recovered after kills, and after power cuts that left the files in order, meets the invariant from which all process-run theorems start; new ids exceed every recovered one |
| `SpoolCutsExact.CutOrderKeptExactly` | spool.go:168-190 | whatever a power cut at a moment leaves is recovered in order if and only if everything it may leave is in order |
| `SpoolCutsExact.OrderLastsExactly` | spool.go:305-318 | at an idle moment of any process of any run: everything that can follow, up to the next restart, keeps what any power cut leaves in order if and only if that is so now and the counters are ahead of every file a cut may bring back |
| `SpoolCuts.AheadRestartsKeepOrder` | spool.go:112-126 | a run whose every restart was ahead has no power cut that leaves the files out of order |
| `SpoolCuts.FlushedCutsOrdered` | spool.go:293-300 | with nothing waiting for an fsync, files in order are so whatever a power cut does |
| `SpoolCuts.PowerCutFlushes` | spool.go:293-300 | what a power cut leaves is flushed |
| `SpoolCuts.FlushedOpensAhead` | spool.go:112-126 | a restart over a flushed directory, and so one that follows a power cut, is ahead |
| `SpoolCutsCounterexample.PowerCutCanRepeatAnId` | spool.go:305-318 | a run of two collected messages, a kill, a restart, a failed put, a put in flight and a power cut, after which two messages share an id, newer first |
| `SpoolCuts.RestartedCounter` | spool.go:121-126 | the id counter a restart sets has reached n if and only if a message file still holds an id that has |
| `SpoolCuts.NewIdsExactly` | spool.go:121-126 | after a restart every new id exceeds every id ever accepted if and only if, for each, a message file that is still there holds it or a later one |
| `SpoolCutsCounterexample.DrainedRestartRepeatsAnId` | spool.go:121-126 | with no power cut: a message accepted, collected, a kill, a restart, and another message accepted under the same id |
| `SpoolCodec.CodecReads` | spool.go:206-234 | reading what `write` produced succeeds for every body, newlines included, and returns the message with its names made valid UTF-8; so it is never quarantined |
| `SpoolCodec.CodecExactness` | spool.go:245-275 | the round trip is exact if and only if the names are valid UTF-8 |
| `SpoolCodec.StrayByteMovesRoute` | spool.go:245-248 | an estate of the one byte 0xFF comes back as U+FFFD, on another route |
| `SpoolCodec.DecodeRefuses` | spool.go:206-234 | whatever the text: without a newline it is no message; what is read has a valid route, numbers in their widths, and everything after the first newline as its body |
| `SpoolCodec.NamesExactly` | spool.go:55-58 | which names are unfinished writes and which are messages |
| `SpoolMachine.LoadedExactly` | spool.go:170-189 | what is loaded is every listed file that can be read, as it is read and unleased; the others are moved aside |
| `SpoolMachine.AsideExactly` | spool.go:178-183 | a file moved aside keeps its contents under its name with ".corrupt" added, which is not read again |
| `SpoolCodec.FileName` | spool.go:275-275 | twenty digits and ".msg", read back by `spoolNumber` as the number |
| `SpoolCodec.FileNameOrder` | spool.go:168-168 | file names sort as strings exactly in the order of their numbers, for every uint64 |
| `SpoolMachine.HighestFile` | spool.go:186-188 | the largest recovered file number, 0 when there is none |
| `SpoolMachine.HighestId` | spool.go:121-126 | the largest recovered message number, 0 when there is none |
| `Json.MarshalReads` | spool.go:245-248 | the header writer emits one line, and reading it returns every member with strings made valid UTF-8 |
| `Json.EscapesExactly` | spool.go:245-248 | how each ASCII character of a string is spelled |
| `Json.HeadsExactly` | spool.go:245-248 | U+2028, U+2029 and a byte of no rune are spelled as escapes |
| `Json.MarshalExample` | spool.go:245-248 | an object written out, without white space and in order |
| `Utf8.SanitizeFixesExactlyValid` | spool.go:245-248 | replacing malformed bytes changes a string if and only if it is not UTF-8 |
| `Utf8.RuneHasForm` | spool.go:245-248 | every rune recognised is the UTF-8 form of a scalar value |
| `Utf8.FormIsRune` | spool.go:245-248 | every UTF-8 form of a scalar value is recognised |
| `Utf8.SanitizeExamples` | spool.go:245-248 | each byte of no rune becomes EF BF BD, one for one |
| `Text.TrimSpaceExactly` | lease.go:196-198 | trimming takes white space off both ends and stops at anything else |
| `Text.ParseUintExactly` | spool.go:135-141 | a text is a 64-bit number exactly when it is digits, some, and not too large |
| `Messages.MessageId` | lease.go:261-264 | an id carries its counter, and `messageNumber` reads it back |
| `Messages.LeaseIdInjective` | lease.go:250-253 | a lease id determines its process epoch and its counter |
| `Messages.LeaseIdNotBlank` | lease.go:196-198 | no lease id is one `Ack` refuses as blank |
| `Messages.BlankExactly` | lease.go:196-198 | an id is blank if and only if it is white space through and through |
| `Messages.KeyInjective` | relay.go:148-157 | valid routes with slash-free estates share a queue only if they are equal |
| `Messages.KeyUniqueExactly` | relay.go:148-157 | a valid route is the only valid one with its key if and only if its estate has no slash after its first character and its station none before its last |
| `Messages.KeyCollides` | relay.go:148-150 | with a slash in an estate two routes share a queue |
| `SpoolDir.Spool.Fill` | spool.go:252-274 | the temporary file holds the whole encoded message, fsynced, or the write is abandoned; every step is a machine step |
| `SpoolDir.Spool.Publish` | spool.go:275-290 | the final name and its durability: on success the message is promised under its file, on failure nothing is promised |
| `SpoolDir.Spool.Confirm` | spool.go:281-289 | the directory fsync after the rename, or the removal that undoes it |
| `SpoolDir.Spool.Write` | spool.go:244-291 | succeeds with the message queued and promised under its file, or fails with queues and promises unchanged; its trail is a machine run |
| `SpoolDir.Spool.Remove` | spool.go:305-318 | the files of exactly the given messages stop being promised, one unlink after another, each free to fail; messages without a file are passed over |
| `SpoolDir.Spool.List` | spool.go:144-168 | the sorted listing of exactly the message files; only names that begin "writing-" leave the directory, and when removals succeed none is left |
| `SpoolDir.Spool.Read` | spool.go:170-191 | returns every readable file's message in order, moves the others aside, and finds the highest file number |
| `SpoolDir.Spool.Open` | spool.go:99-112 | a new process whose memory is what recovery computes from the listed directory, which is the old one without unfinished writes |
| `Relay.Store.OpenSpool` | spool.go:99-131 | the fresh store becomes the recovered one, reports the number of messages and the files moved aside, and leaves the directory as it was without unfinished writes |
| `Relay.Store.Requeue` | spool.go:117-127 | each message joins its route's queue in file order, behind what is there, and the id counter becomes the highest of itself and the ids |
| `Relay.Store.Put` | relay.go:160-196 | refines the put on values; with a spool, acceptance means the message is promised on disk |
| `Relay.Store.Take` | relay.go:213-245 | refines the destructive collection, files dropped |
| `Relay.Store.TakeLeased` | lease.go:152-189 | refines the leased collection, marks made in place |
| `Relay.Store.Ack` | lease.go:192-224 | refines the acknowledgement, files dropped |
| `Relay.Store.Depth` | relay.go:271-277 | refines the count after expiry |
| `Relay.Store.Sweep` | relay.go:301-316 | expires every queue and returns exactly how many messages all queues together lost |
| `Relay.Store.ExpireLocked` | relay.go:279-298 | drops the too-old prefix of one queue and its files, and nothing else |
| `Relay.Store.ExpireLeasesLocked` | lease.go:231-240 | lifts exactly the leases whose deadline has passed, positions unchanged |
| `Relay.Store.DropDurable` | relay.go:252-257 | the spool forgets exactly the messages that leave the queue |
| `Relay.SplitTaken` | relay.go:227-234 | the loop of `Take` splits a queue into what is handed over and what stays |
| `Relay.MarkHeld` | lease.go:171-182 | the loop of `TakeLeased` marks what is handed out and stops at the limit |
| `Relay.SplitAcked` | lease.go:206-213 | the loop of `Ack` splits a queue by lease |
| `Queues.OldPrefix` | relay.go:284-288 | the longest prefix of messages past their time |
| `Queues.PrefixExpiryIsFilter` | relay.go:279-298 | prefix expiry equals filtering by age if and only if no old message stands behind a young one |
| `Queues.ArrivalOrderExpires` | relay.go:286-288 | in arrival order the two rules agree |
| `Queues.FreshForSevenDays` | relay.go:119-122 | what filtering keeps is what has been held for at most seven days |
| `Queues.TakenIsFirstAvailable` | relay.go:227-234 | a collector gets the first available messages, as many as its limit allows |
| `Queues.HeldIsTakenMarked` | lease.go:171-182 | a leased collection hands out what a destructive one would, marked |
| `Queues.TakeMerges` | relay.go:227-234 | what is taken and what is kept are the queue dealt in two, in order, nothing lost or added |
| `Queues.AckMerges` | lease.go:206-213 | the same for an acknowledgement |
| `Stores.OneQueue` | relay.go:160-277 | an operation changes no other route's queue |
| `Stores.Counters` | lease.go:250-264 | ids move only on a put and by one; leases by one on each leased collection; the epoch never |
| `Runs.ApplyOk` | relay.go:160-316 | every operation keeps each queue in order of id and arrival, its messages its own route's, numbered below the counter, under leases this run issued |
| `Runs.RunOk` | relay.go:160-316 | so does every run |
| `Runs.SweepLeavesFresh` | relay.go:301-316 | after a sweep each queue is its old self filtered by age: all the fresh and only the fresh |
| `LeaseSafety.LeaseExclusion` | lease.go:152-189 | in every run, a message handed out under a lease ending at u is handed out by no later operation on any route before u |
| `LeaseSafety.NeverAgain` | relay.go:213-245 | once taken destructively or acknowledged, a message is never handed out again in the run, on any route |
| `LeaseSafety.ApartStep` | lease.go:255-264 | no operation brings one id onto two routes |
| `LeaseSafety.IdsNeverReused` | lease.go:261-264 | an accepted message's id exceeds every id accepted before it in the run and every id in the store |
| `LeaseSafety.PutPrecision` | relay.go:160-196 | a put is accepted exactly when its route is valid, its body is at most 8 MiB, fewer than 256 young messages wait and it is durable; it then stands last behind them under the next id, and each refusal has its own reason and leaves just them; the id counter moves even when the message is not durable |
| `LeaseSafety.DepthCountsYoung` | relay.go:271-277 | the depth counts the young messages, held ones included |
| `LeaseSafety.RefusalsExactly` | relay.go:152-166 | a put, collection or acknowledgement is refused for its route if and only if the estate or the station is empty or the direction is neither "c2s" nor "s2c"; then a body over 8 MiB, a lease of no time or of more than five minutes, a blank id, each for its own reason; none of these changes the store |
| `LeaseSafety.CollectionPrecision` | lease.go:152-189 | a collection hands over exactly the first messages that are young and held by no live lease, up to its limit, in order; a leased one marks each, and names a lease only if it hands something over |
| `LeaseSafety.LeaseHoldsWhatItHanded` | lease.go:171-182 | what a leased collection leaves under its lease is exactly what it handed out |
| `LeaseSafety.AckPrecision` | lease.go:192-224 | an acknowledgement deletes exactly what the unexpired lease still holds on the route, answers that number, leaves every other message in place, and is refused when that is nothing |
| `LeaseSafety.StaleAckIsRefused` | lease.go:242-253 | a lease id from another process run is refused and deletes nothing, whatever later collectors hold |
| `LeaseSafety.EpochStays` | relay.go:141-144 | the epoch is fixed for the run |
| `Conservation.Conservation` | relay.go:160-316 | at every moment of every run and for every route, each accepted message is in the queue or in exactly one of collected, acknowledged and expired, and the queue is the accepted messages without those, in put order |
| `Conservation.OutlivedIsPrefix` | relay.go:284-292 | what expiry drops is exactly what has outlived the store |
| `Conservation.HeldByIsUnder` | lease.go:206-213 | what an acknowledgement finds is exactly what its lease still holds |
| `DurableQueue.RelayQueue.Load` | edge/src/worker.ts:896-938 | upgrades, expires by age and releases; reports a change exactly for a legacy record or when what it returns is not what is stored |
| `DurableQueue.RelayQueue.UpgradeLoop` | edge/src/worker.ts:907-915 | numbers a legacy queue in order and sets the counter past it |
| `DurableQueue.RelayQueue.Put` | edge/src/worker.ts:952-988 | refines the put on values, the number stored as the nearest double; a refusal stores nothing |
| `DurableQueue.RelayQueue.Take` | edge/src/worker.ts:1023-1078 | refines both collections; a request that waits parks with expiry stored, and starts over on whatever others have left |
| `DurableQueue.RelayQueue.HandOut` | edge/src/worker.ts:1040-1078 | the collection itself, on the record that was loaded |
| `DurableQueue.RelayQueue.Ack` | edge/src/worker.ts:1081-1102 | refines the acknowledgement |
| `DurableQueue.Positions` | edge/src/worker.ts:1009-1017 | the loop of `available` finds the places of exactly the available messages |
| `DurableQueue.MarkAt` | edge/src/worker.ts:1053-1056 | marks exactly the messages handed out, in the queue itself |
| `Worker.ViewNumbered` | edge/src/worker.ts:901-918 | an absent or legacy record is read with increasing ids below its counter; the current shape is read as it is, and `Worker.LifeNumbered` shows what is ever stored in it |
| `Worker.UpgradeKeeps` | edge/src/worker.ts:903-915 | an upgraded queue has the legacy length, and its i-th message the legacy number, body and time, no lease, and the id m<i> |
| `Worker.LegacySurvives` | edge/src/worker.ts:903-926 | loading a legacy record, and collecting it for the first time, gives its messages of at most seven days, in order, as they were stored |
| `Worker.RefusalsExactly` | edge/src/worker.ts:952-975 | which puts and durations the Worker refuses and why; a refused one stores nothing |
| `Worker.LeaseNaming` | edge/src/worker.ts:1042-1063 | a leased collection takes the next lease number if it hands anything over, and none otherwise |
| `Worker.OperationsNumbered` | edge/src/worker.ts:952-1102 | every operation keeps that, and never moves the counter back |
| `Worker.LifeNumbered` | edge/src/worker.ts:940-950 | so does every history: through emptying, eviction and upgrade |
| `Worker.IdsNeverReused` | edge/src/worker.ts:976-982 | over every history, an accepted message's id is larger than that of every message accepted before it |
| `Worker.DeletesExactlyTaken` | edge/src/worker.ts:1070-1073 | deletion by id set leaves exactly what the collection did not hand over |
| `Simulation.OneBehaviour` | edge/src/worker.ts:896-1102 | for every timed script on any routes, from empty, whose acknowledgements are sent verbatim on their own routes or reach nothing at the Worker and whose numbers handed over JavaScript carries: both implementations accept and refuse the same puts, deliver the same messages in the same order, delete the same number, under renamings that are one to one on messages and on leases |
| `Simulation.InStep` | relay.go:160-298 | whatever the numbers, the two systems stay in step while every acknowledgement is proper |
| `Simulation.OneBehaviourExactly` | edge/src/worker.ts:952-1102 | for every script, with white space around acknowledged ids and acknowledgements on any route: all answers agree under some one-to-one renaming if and only if every acknowledgement is verbatim on its own route or reaches nothing at the Worker, and every number handed over is one that JavaScript carries |
| `Simulation.SmallNumbersAgree` | edge/src/worker.ts:976-981 | with numbers up to 2^53, only acknowledgements can part the two |
| `Simulation.CarriedPutsCarry` | edge/src/worker.ts:976-981 | if JavaScript carries every number put, it carries every number handed over |
| `Js.SmallIsCarried` | edge/src/worker.ts:955-978 | every number up to 2^53 is read from the Worker's text as it was sent |
| `Js.FirstLost` | edge/src/worker.ts:955-978 | 2^53 + 1 is read as 2^53 |
| `Js.NearestExactly` | edge/src/worker.ts:955-978 | the double a number is read into is a nearest one, the even one of two |
| `Js.ShortestReadsBack` | edge/src/worker.ts:1019-1021 | what is written for a double is read as that double |
| `Js.HugeIsLost` | edge/src/worker.ts:1019-1021 | 2^63 is a double and is written 9223372036854776000 |
| `Simulation.Parts` | lease.go:192-216 | at the first acknowledgement that is neither, the Go store refuses and the Worker deletes what it reached |
| `Simulation.RequestSim` | relay.go:160-298 | one request keeps two related queues related and gets agreeing answers |
| `SimulationCounterexample.CrossRouteAcksDiverge` | lease.go:250-253 | a lease acknowledged on another route: the Go store refuses and the Worker deletes a message |
| `SimulationCounterexample.PaddedAcksDiverge` | edge/src/worker.ts:1088-1090 | a lease acknowledged with a space before its id: the Go store refuses and the Worker deletes the message |
| `SimulationCounterexample.LargeNumbersDiverge` | edge/src/worker.ts:976-981 | one put and one collection: the Go server delivers 9007199254740993 and the Worker 9007199254740992 |
| `Durations.ParsesAgreeExactly` | lease.go:108-143 | for every whole number with or without a unit, both read the same lease, or neither, or both refuse, if and only if there is no number or it is "0", or it is not zero and Go's conversion fits 63 bits, overflows to something refused, or is never made |
| `Durations.ParsesExactly` | edge/src/worker.ts:207-229 | a lease both read is exactly the one written, in milliseconds, seconds, minutes or hours, whatever doubles it was multiplied in |
| `Durations.OverflowReads` | lease.go:130-142 | what becomes of a number past 63 bits of nanoseconds |
| `Durations.ZeroSecondsDiverge` | edge/src/worker.ts:226-228 | `0s`: the Go server collects without a lease, the Worker refuses |
| `Durations.LongLeaseDiverges` | lease.go:130-142 | `9999999h` where an overflowing conversion is negative: the Go server collects without a lease, the Worker refuses |
| `Scopes.ParseStationScopes` | scope.go:202-260 | the parsing loop computes the configuration the specification text means, or refuses it |
| `Scopes.BuildMeaning` | scope.go:234-253 | a configuration is refused for roles exactly when some credential has two; otherwise each scope is what the credential's entries describe |
| `Scopes.GrantsExactly` | scope.go:224-232 | a station entry grants exactly read c2s and write s2c, a control entry exactly read s2c and write c2s |
| `Scopes.EntryReadsExactly` | scope.go:216-232 | an entry is read from a text if and only if the text is its four parts between colons, none empty, none with a colon, the role "control" or "station" |
| `Scopes.AcceptedExactly` | scope.go:210-260 | a specification is accepted if and only if each piece is blank or an entry, some piece is an entry, and no credential has two roles |
| `Scopes.PermitsMeaning` | scope.go:68-85 | what the built scopes permit, for every accepted configuration, in terms of its entries |
| `Scopes.ConfigurationExactness` | scope.go:246-253 | a credential is permitted exactly what its entries grant if and only if they all name one estate |
| `Scopes.SpecificationExactness` | scope.go:202-260 | the same from the text of the specification |
| `Scopes.LastEstateTakesAll` | scope.go:246-253 | the specification `a:s:station:k,b:t:station:k` lets k read station s of estate b and not of estate a |
| `Scopes.NeverBothWays` | scope.go:224-244 | no accepted configuration lets a credential both read and write one direction |
| `Base64.RoundTrip` | authlease.go:127-129 | unpadded base64url decodes its own encoding for every byte string |
| `Base64.EncodeAlphabet` | authlease.go:127-129 | it never emits the separator |
| `Base64.Examples` | authlease.go:127-129 | the digits of section 5 of RFC 4648 |
| `Tokens.TokenReads` | authlease.go:116-171 | for every authority and signature, parsing the minted token returns the exact signed text, the signature and the fields, in whole seconds and valid UTF-8; without bounds it is refused |
| `Tokens.TokenExactness` | authlease.go:139-171 | the round trip is exact if and only if the bounds are whole non-zero seconds and the text is UTF-8 |
| `Tokens.ReadingsExactly` | authlease.go:139-156 | a credential is no lease exactly when it is not three parts after "hl1"; what is read gives back the very text that was signed |
| `Authorities.ConsultsExactly` | authlease.go:331-346 | a readable lease reaches the authoriser behind exactly when it is verified, for this relay, in its window, not overlong, not revoked, and out of scope |
| `Authorities.ReasonsExactly` | authlease.go:295-329 | why a lease is refused here, the first reason that applies |
| `Authorities.HostedGrantsAreScoped` | cmd/heliograph-relay/main.go:136-170 | in hosted mode every allowed request has a station-scoped grant or was allowed by a lease in force whose scope permits it |
| `Authorities.HostedExactly` | scope.go:171-181 | of what the authoriser behind says, hosted mode passes on refusals and grants narrowed to named stations unchanged, and refuses every other grant as estate-wide |
| `Authorities.HostedLeavesLeasesAlone` | scope.go:171-181 | a lease in force that permits a request is allowed in hosted mode whatever its breadth |
| `Authorities.EstateWideLeaseIsAdmitted` | cmd/heliograph-relay/main.go:136-170 | a minted estate-wide lease, read back from its token, is admitted in hosted mode |
| `Authorities.FloorIsMaximum` | authlease.go:257-264 | over every history, an estate's floor is the maximum of 0 and the epochs revoked for it |
| `Authorities.LeaseHonouredExactly` | authlease.go:295-346 | over every history of clock advances, revocations and requests, a lease's request is allowed if and only if the lease is verified, addressed here, in its window and below no revocation heard, and it or the authoriser behind permits the request |
| `Authorities.RevokedStaysRevoked` | authlease.go:319-321 | after a revocation is heard, no lease below it allows anything, whatever the authoriser behind says |
| `Authorities.RevocationIsBounded` | authlease.go:42-56 | a lease revoked at r, once begun, allows nothing from r + 15 minutes on, even if the relay never hears of it |
| `Authorities.RevocationBoundIsExact` | authlease.go:156-167 | because a lease is read in whole non-zero seconds, nothing begun by r is allowed from the end of the longest lease that can have begun by r, which is never later than r + 15 minutes |
| `Authorities.RevocationBoundIsMet` | authlease.go:306-318 | that longest lease, minted and sent as a token, is admitted at every moment before |
| `Watchers.RevocationReachesItsPolls` | authlease.go:257-280 | over every interleaving of registrations, revocations, single sends, timers, clean-ups and receipts: once a Revoke has made its last send, every poll registered for its estate when it took the lock has had a reason in its slot, and everything it put anywhere was the reason "revoked" to a poll registered then whose key it matches, for NUL-free names a poll of that estate |
| `Watchers.RunKeeps` | authlease.go:359-405 | over every interleaving the map lists each channel at most once, under its own key, and keeps no empty entry |
| `Watchers.StaysRegistered` | authlease.go:359-405 | a channel leaves the map only by its own clean-up or by a revocation that matches its key, and joins it by registering |
| `Watchers.SlotExactly` | authlease.go:274-279 | what a send, a timer and a receipt do to the one slot |
| `Watchers.Sessions.Detach` | authlease.go:258-272 | the locked half of Revoke: raises the floor and takes exactly the matching entries off the map |
| `Watchers.Sessions.Send` | authlease.go:274-279 | one send that does not wait, to the next channel of the call |
| `Watchers.Sessions.Revoke` | authlease.go:257-280 | both halves with nothing in between: every matching poll has had a reason, every other channel is untouched |
| `Watchers.Sessions.Register` | authlease.go:368-375 | a new channel joins the list of its estate, station and direction |
| `Watchers.Sessions.Fire` | authlease.go:384-388 | the timer offers expiry, lost if the slot is taken |
| `Watchers.Sessions.CleanUp` | authlease.go:391-402 | removes this channel only, and leaves no empty entry |
| `Watchers.MatchesExactly` | authlease.go:348-352 | the prefix test matches exactly the revoked estate's polls, those of an estate that continues its name after a NUL, and those whose key continues into it |
| `Watchers.MatchesOwnEstate` | authlease.go:348-352 | for NUL-free estates the prefix test matches exactly the revoked estate's polls |
| `Watchers.NulMatchesAnotherEstate` | authlease.go:348-352 | a NUL inside a name breaks that |
| `RemoteCache.RemoteAuth.Keep` | remote.go:157-182 | keeps what was heard, a yes for one time and a no for another, and never the lack of an answer; touches no other entry |
| `RemoteCache.RemoteAuth.Admit` | remote.go:137-183 | no credential: refused without asking; a live entry: served unchanged; otherwise what was heard, allow, scope and reason, with "bad-credential" for a refusal that gave none, kept and answered |
| `RemoteCache.KeyInjective` | remote.go:132-134 | with separator-free parts a key names one question |
| `RemoteCache.KeyUniqueExactly` | remote.go:132-134 | a request shares its key with no other if and only if its parts are free of the separator |
| `RemoteCache.KeyCollides` | remote.go:132-134 | with a separator inside, two questions share a key |
| `RemoteCache.ServedExactly` | remote.go:148-155 | in every interleaving, a separator-free question is served g at t if and only if g has the allow, the scope and the reason ("bad-credential" for a refusal that gave none) of the last decision worth keeping heard for that question, less than its lifetime before t, one lifetime for a yes and one for a no |
| `RemoteCache.CacheIsSound` | remote.go:137-183 | so what is served was heard for the very same question less than its lifetime ago, whatever else was asked |
| `RemoteCache.OutageIsForgotten` | remote.go:158-168 | after an outage of any length the next question is asked again |

## Left out

- HTTP handlers, JSON responses, logging, startup, `/health`, landing page: plumbing around the modelled core.
- Long-poll liveness (`hold`, `wake`): the empty collection and the registration are separate steps in the source, so nothing is claimed about being woken; a waiting Worker request is modelled by what it finds when it goes on.
- Fractions in the `lease` parameter, and text that is no number: whole numbers are modelled, with the double arithmetic both sides use on them.
- Bodies as text: they are compared as the bytes they encode, so base64 that Go refuses to decode and the Worker stores as it came is not compared; the two measure sizes differently, so the Worker's check is a parameter and the simulation takes bodies both accept.
- Sequence numbers that are not whole or do not fit 64 bits: the Go server refuses them, the Worker stores any JSON number.
- 64-bit wrap-around of the id, lease and file counters: the counters are unbounded; a durable put asks that they are below 2^64.
- Settlement and accounting, `StaticAuth`, `Add` and `Remove` of `ScopedAuth`, and the Worker's own admission code: easy members or copies of what is modelled.
- Ed25519 and SHA-256: verification is an arbitrary predicate, and scopes are keyed by the credential itself.
- JSON beyond the objects the code writes (white space, nesting, floats, `null`, case-insensitive names, surrogate pairs), and Unicode white space in `TrimSpace`: the reader accepts less text than the source's, and nothing proved concerns the rest.
- Grants' `Detail`, `MaxBytes` and `Ref` fields: carried unchanged in the source and not consulted by what is modelled.
- `Watch` as one step: its check and its registration are two locked sections in the source, so no claim is made that a poll cannot register after a revocation it should lose to; timers and contexts appear as calls of `Fire` and `CleanUp`.
- Opening errors of `OpenSpool` (blank directory name, `MkdirAll` or `ReadDir` failing) and the byte count of its report.
- Relay.Store.OpenSpool: asks for a store that has served nothing, as the source's documentation of it does.
- SpoolDir.Spool.Read: the quarantine rename succeeds, and a file that is listed can be read; a file left in place by a failing rename is not modelled.
- Simulation.OneBehaviour: runs on a clock of whole milliseconds, the Worker's unit, without restarts.
- Relay.Store.Put: over a spool it asks that the counters, the sequence number and the clock fit their 64 bits, and that the clock has not gone back.
- SpoolCutsExact.OrderLastsExactly: asks for room for two more puts before the 64-bit counters and clock end.
- Simulation.OneBehaviourExactly: acknowledged ids are those the servers gave, with white space around them; ids a client invents are not compared.
