# Verified model of the Synology FileStation mount

A Dafny model of the parts of the mount that keep promises over many calls, and
proofs of those promises. One module or two per component:

- **The transport chain** (`ChainSteps`, `Chain`, `ChainCalls`, `ChainRuns`). `ChainSteps`
  says what one call of the chain does to its three remembered things: the
  decision, the refusal and the time of the tunnel's last failure. The class
  `Chain` does it field by field, with a ghost trace of probes and opens.
  `ChainCalls` says what one call answers, asks and remembers without naming its
  steps, and `ChainRuns` what runs of calls add up to. What the probe, the tunnel
  and the clock answer during a call is a parameter of the call (`Replies`), so
  every theorem holds for every behaviour of the network.
- **The leg watcher** (`LegSteps`, `Legs`, `LegRuns`): a session, the chain, and
  looks for a better leg, mixed with sessions dying or coming back and with any
  other use of the chain.
- **The rotating log** (`LogFile`, `LogRotation`, `LogOrder`, `LogKept`,
  `LogCost`, `LogCrash`): a small file system with names, files, an open handle and what a
  power cut leaves, in which every operation of a rotation and of a write can
  fail, the look for a generation included.
- **The mount caches** (`Paths`, `InodeCache`, `InodeRace`, `DirCache`,
  `ReadCache`, `BlockWaiters`): eviction may happen at any moment, and the two
  protocols that depend on locks are state machines over lock-sized steps.
- **The redactor** (`Redact`, `Secrets`): the cursor loop against a reference
  that only ever sees the unread text.
- **Smaller protocols**: the shared tunnel (`SharedTunnel`), the circuit breaker
  (`Breaker`), the walker watch (`WalkerWatch`) and the download loop
  (`Download`). `Arithmetic` holds the few facts about products that the bounds
  of the chain and the breaker share.

Every method that changes state is proved equal to a specification function, or
to a statement about its history, and the promises are lemmas about those.

## What the code does that its documentation does not say

- `raise_tunnel` is documented as the one place the tunnel is asked
  (`rust/synology-filestation-connect/src/lib.rs:535-540`). Lines 631 and 655 of
  the same file open it directly. The model follows the code. An open has a
  reason (`Rationed`, `Remembered` or `Extra`), and only `Rationed` ones keep to
  the interval and the refusal. `ChainRuns.FailingOpensAreRationed` and
  `ChainRuns.RefusalIsFinal` say what that leaves: a remembered tunnel can fail
  outside the ration, once for each decision that remembered it.
- `DirCache::invalidate_prefix` is documented as drawing the same distinction as
  `InodeCache::invalidate_prefix` (`rust/synology-filestation-fuse/src/cache.rs:229-233`).
  It does not: the inode cache sweeps a bare string prefix, so without a
  trailing separator siblings go too (`Paths.BarePrefixTakesSiblings`), and
  `rust/synology-filestation-fuse/src/fs/callbacks.rs:540` passes none. With the
  separator, as in `rust/synology-filestation-fuse/src/fs/transfer.rs:425-429`,
  the two caches forget the same paths (`Paths.PathAndPrefixSweepSubtree`).
- A direct decision settled without a host is not free: `route` keeps it for
  ever, but `reach_smb` probes again on each call
  (`ChainCalls.ReachDecidesWithoutAHost`). `settle` is only ever called with
  a host.
- A log whose active name cannot be reopened after the renames goes on writing
  to the renamed file, and a later rotation can unlink that file
  (`LogOrder.ReopenFailureLosesTheLog`), after which nothing can be read ever
  again. `LogOrder.NamedExactlyUnlessLetGo` says exactly which runs do it.
- `rotate` asks whether a generation exists before it moves it
  (`rust/synology-filestation-fuse/src/logfile.rs:374`), and that question answers
  no on any error. A generation missed in this way is renamed over by the next
  newer one while older ones stay, and the log has lost its middle
  (`LogOrder.MissedGenerationBreaksTheOrder`). `LogOrder.RecordKeepsOrderUnless`
  says exactly when.
- A connection that fails through a running tunnel is documented as leaving the
  tunnel alone (`rust/synology-filestation-connect/src/openvpn.rs:243-247`). The
  failing call raises no other, but a tunnel is kept by its connections only: if
  the failed one was alone, the next caller logs in again
  (`SharedTunnel.LoneFailureRaisesAgain`), and exactly then
  (`SharedTunnel.FailureCostsALoginExactlyWhenAlone`).
- A circuit breaker with a threshold of zero is closed on no failures, so
  "closed exactly below the threshold" holds if and only if the threshold is at
  least one (`Breaker.ClosedIsTrustOnlyWithAThreshold`).
- A download whose announced size is too small stops early without an error; it
  is complete exactly when the size was unknown or the chunks covering it cover
  the file (`Download.WholeFileExactlyWhen`).

## Model

Accessors and one-line setters have contracts of the same kind, and no row.

| member | source | states |
|---|---|---|
| `ChainCalls.DecideTakesTheBestLeg` | rust/synology-filestation-connect/src/lib.rs:772-829 | The ladder answers with the highest-ranked leg that policy, probe, refusal, interval and tunnel answer allow, at that leg's host and with the tunnel's own connection; it fails if and only if no leg is available; it probes exactly when SMB is allowed and asks the tunnel exactly when nothing direct answers and nothing forbids it. |
| `ChainCalls.RouteIsARememberedLadder` | rust/synology-filestation-connect/src/lib.rs:597-607 | `route` is a memo over the ladder: a live decision is returned with no probe, no open and no change; otherwise the best available leg is, and the chain remembers it exactly until the recheck interval has passed, or without end if it is direct. |
| `ChainCalls.ReachTakesTheBestLeg` | rust/synology-filestation-connect/src/lib.rs:683-691 | With nothing live remembered, `reach_smb` names the best available leg: direct at the public host, tunnelled with the connection just opened, unavailable if the best is HTTPS, and an error only if there is none. |
| `ChainCalls.ReachFallsBackOnce` | rust/synology-filestation-connect/src/lib.rs:653-678 | With a live tunnel decision, the tunnel is opened exactly once; if it opens nothing changes, and if not the answer is the best of the other legs and never the tunnel. |
| `ChainCalls.BetterIsBetter` | rust/synology-filestation-connect/src/lib.rs:489-508 | `better_than` finds a leg if and only if an SMB leg ranked above the current one is available, then the best such; it is free on the direct leg, opens nothing from the tunnel, and decides nothing. |
| `ChainCalls.AnotherConnectionStaysOnTheLeg` | rust/synology-filestation-connect/src/lib.rs:620-636 | One more connection never probes or settles; it is unavailable exactly when no SMB leg with a host is decided, fails exactly when that leg is the tunnel and the tunnel did not open, and is otherwise on that leg, at that host, with the connection just opened. |
| `ChainCalls.ReachAgreesWithRoute` | rust/synology-filestation-connect/src/lib.rs:644-692 | Unless a tunnel or a direct leg without a host is live, `reach_smb` and `route` leave the same state, cost the same and fail alike, and the SMB answer names the route's leg and host with the connection just opened. |
| `ChainCalls.ReachDecidesWithoutAHost` | rust/synology-filestation-connect/src/lib.rs:645-681 | With an SMB decision that has no host live, `reach_smb` answers and asks as if nothing were remembered, on every call, while `route` is free. |
| `ChainCalls.RefusalIsLatched` | rust/synology-filestation-connect/src/lib.rs:574-579 | Over every call but `reconsider`: a refusal is latched, with its reason, by the call whose open was refused, and by no other; nothing clears it. |
| `ChainCalls.FailureIsTimed` | rust/synology-filestation-connect/src/lib.rs:559-590 | Over every call but `reconsider`: the failure time is that of the last transient failure or empty tunnel, cleared exactly by an open that works on its own account. |
| `ChainCalls.DecisionIsRecorded` | rust/synology-filestation-connect/src/lib.rs:751-758 | Over every call but `reconsider`: the decision changes exactly when one is recorded, with no expiry if direct and the recheck interval otherwise, or when the tunnel it is for failed. |
| `ChainCalls.SettledIsRemembered` | rust/synology-filestation-connect/src/lib.rs:740-758 | A settled route is the free answer of `route` exactly until it expires, for ever if direct. |
| `ChainCalls.QuietEndsWithItsInterval` | rust/synology-filestation-connect/src/lib.rs:553-558 | After a transient failure or an empty tunnel, with no refusal, the tunnel is asked again exactly from the end of the interval. |
| `ChainCalls.ForgettingSparesOthers` | rust/synology-filestation-connect/src/lib.rs:723-728 | Forgetting a route drops the decision exactly when it is for that route. |
| `ChainRuns.DirectLegIsFree` | rust/synology-filestation-connect/src/lib.rs:740-757 | From a direct decision with a host, over any run of calls a resting caller makes, every call does nothing to the network and the decision stays. |
| `ChainRuns.QuietIsKept` | rust/synology-filestation-connect/src/lib.rs:541-591 | Any call but `reconsider` keeps a failure's quiet, and opens the tunnel on its own account only once the interval since it has passed. |
| `ChainRuns.FailureStartsQuiet` | rust/synology-filestation-connect/src/lib.rs:574-591 | Every failing open the chain hears of, and every tunnel that carried no session, starts a quiet. |
| `ChainRuns.QuietOverARun` | rust/synology-filestation-connect/src/lib.rs:541-591 | A quiet that starts with one call of a run outlasts every later stretch of it without `reconsider`. |
| `ChainRuns.OpensAreSpaced` | rust/synology-filestation-connect/src/lib.rs:550-568 | Of any two calls of one run, if the first failed to open the tunnel or carried nothing, the second raises it no earlier than the interval after that failure. |
| `ChainRuns.FailureConsumesTheDecision` | rust/synology-filestation-connect/src/lib.rs:655-671 | A failing open of a remembered tunnel costs the decision for it: failures plus decisions still held never exceed those held before plus those recorded. |
| `ChainRuns.RememberedFailuresAreConsumed` | rust/synology-filestation-connect/src/lib.rs:644-692 | Over any run without `reconsider`, failing opens of a remembered tunnel are at most the tunnel decisions recorded, plus one if one was held at the start. |
| `ChainRuns.RationedFailuresAreSpaced` | rust/synology-filestation-connect/src/lib.rs:541-569 | Over any run from any state, all rationed failures but the first have each waited a whole interval within the run. |
| `ChainRuns.FailingOpensAreRationed` | rust/synology-filestation-connect/src/lib.rs:541-757 | Over any run without `reconsider`, from any state and so in any window of a longer run: failing opens, less one and less the tunnel decisions held or recorded, times the interval, fit in the length of the run. |
| `ChainRuns.RefusalStands` | rust/synology-filestation-connect/src/lib.rs:549-552 | With a refusal latched, any call but `reconsider` keeps it, makes no rationed open, and decides on the tunnel only if a caller settles on it. |
| `ChainRuns.RefusalIsFinal` | rust/synology-filestation-connect/src/lib.rs:405-411 | Over any run without `reconsider` from a refusal that is latched, `route` and `better_than` never open the tunnel, and unless somebody settles on the tunnel there is at most one more failing open, of a tunnel still remembered. |
| `ChainRuns.RefusedOnceIsFinal` | rust/synology-filestation-connect/src/lib.rs:549-579 | The same over any run that follows the very call that was refused, which is what latches it. |
| `ChainSteps.FromFlags` | rust/synology-filestation-connect/src/lib.rs:130-143 | A policy exists unless both SMB and HTTPS are disabled; it allows exactly what is not disabled, but the tunnel only with SMB, so SMB or HTTPS is always left. |
| `Chain.Chain.BetterThan` | rust/synology-filestation-connect/src/lib.rs:489-508 | The method's new state, answer and effects are those the lemmas about `BetterThan` speak of. |
| `Chain.Chain.RaiseTunnel` | rust/synology-filestation-connect/src/lib.rs:541-570 | A connection, a refusal or a failure time as the policy, refusal, interval and tunnel say, with the open recorded exactly when the tunnel was asked. |
| `Chain.Chain.AskRoute` | rust/synology-filestation-connect/src/lib.rs:597-607 | The method's new state, answer and effects are those the lemmas about `AskRoute` speak of. |
| `Chain.Chain.AnotherSmbConnection` | rust/synology-filestation-connect/src/lib.rs:620-636 | The chain's state is untouched whatever the tunnel answers. |
| `Chain.Chain.ReachSmb` | rust/synology-filestation-connect/src/lib.rs:644-692 | The method's new state, answer and effects are those the lemmas about `ReachSmb` speak of. |
| `Chain.Chain.Decide` | rust/synology-filestation-connect/src/lib.rs:772-829 | The method's new state and choice are those `DecideTakesTheBestLeg` speaks of. |
| `LegRuns.StepOnlyClimbs` | rust/synology-filestation-fuse/src/legs.rs:156-192 | A look ends on a strictly better leg exactly when a session was built on one, and on the leg it started from otherwise; it never takes a session away, and on the direct leg it does nothing. |
| `LegRuns.StepFindsTheBest` | rust/synology-filestation-fuse/src/legs.rs:156-166 | If sessions can be built, one look leaves the mount on a leg no available SMB leg outranks. |
| `LegRuns.ReportIsHonest` | rust/synology-filestation-fuse/src/legs.rs:138-149 | The log names HTTPS exactly when HTTPS is the leg, and an SMB leg only while the session is live. |
| `LegRuns.RefusedLoginIsFinal` | rust/synology-filestation-fuse/src/legs.rs:152-160 | Once a login was refused, no look in any later run probes, opens, hands over or changes anything. |
| `LegRuns.StepSettlesWhatItTook` | rust/synology-filestation-fuse/src/legs.rs:168-192 | After a look that took a route the chain's decision is for that very leg and host, and otherwise what it was; it hears of a failed tunnel exactly when a session on it failed without a refused login; the session is up if it was or was built, and refused exactly if its login was. |
| `LegRuns.ReportTellsLegsApart` | rust/synology-filestation-fuse/src/legs.rs:195-217 | Two reports are equal if and only if the legs are, and for SMB the hosts: so a change of leg or host is what gets logged. |
| `LegRuns.QuietIsKept` | rust/synology-filestation-fuse/src/legs.rs:156-192 | No event ends a failure's quiet early, and a look opens the tunnel only after it. |
| `LegRuns.FailureStartsQuiet` | rust/synology-filestation-fuse/src/legs.rs:183-186 | A failed open, or a session the tunnel would not carry, starts the quiet at that moment, or ends all looks. |
| `LegRuns.LooksAreRationed` | rust/synology-filestation-fuse/src/legs.rs:156-192 | Of any two events of one run, if the first showed the tunnel not to open or to carry no session, no later look opens it before its interval has passed, whatever the session and the chain's other callers do in between. |
| `Legs.Legs.Step` | rust/synology-filestation-fuse/src/legs.rs:156-166 | Chain, session, trace and routes handed over are those of `LegSteps.Step`; the leg returned is the current one, is what is reported, and is logged exactly when the report changed. |
| `Legs.Legs.MoveTo` | rust/synology-filestation-fuse/src/legs.rs:168-192 | Chain, session, trace and routes handed over are those of `LegSteps.MoveTo`. |
| `LogOrder.RecordKeepsOrderUnless` | rust/synology-filestation-fuse/src/logfile.rs:310-386 | With every fault allowed, one record: the open file keeps a name if and only if the rotation does not let go of it, and otherwise nothing can be read; a file is gone although an older one is still read if and only if a generation that is there is missed, the next newer one moves over it, and an older one stays; without either, the files read as the end of what they were with the record after it. |
| `LogOrder.RunKeepsOrderUnless` | rust/synology-filestation-fuse/src/logfile.rs:310-386 | Over any run in which no record loses the log or skips a generation in the state it finds: the files read oldest generation to active are a suffix of everything written, newest record included. |
| `LogOrder.NamedExactlyUnlessLetGo` | rust/synology-filestation-fuse/src/logfile.rs:357-386 | Over any run with every fault allowed, the open file can be read by a name if and only if no record so far has lost it; once lost, nothing can be read. |
| `LogOrder.LostForGood` | rust/synology-filestation-fuse/src/logfile.rs:372-385 | A log with no name left stays so: no later record, faults or none, makes one. |
| `LogOrder.LogReadsInOrder` | rust/synology-filestation-fuse/src/logfile.rs:310-386 | Assuming that every generation is found and the active name can be reopened, over any run from any disk the log is opened on, whatever sync, remove, rename or write fails: the files read as a suffix of what was there and everything written since, ending with the newest record, whole unless its own write was torn. |
| `LogOrder.OpeningKeepsTheLog` | rust/synology-filestation-fuse/src/logfile.rs:166-192 | Opening a log changes no file and no name, but for an empty active file where there was none; it reads as before and is open on its active name. |
| `LogKept.RecordLosesTheOldestAtMost` | rust/synology-filestation-fuse/src/logfile.rs:357-386 | With generations found and the oldest removable, one record costs the reading the oldest generation if a rotation gets past its sync, and nothing otherwise, however far the renames get. |
| `LogKept.GenerationsAreBounded` | rust/synology-filestation-fuse/src/logfile.rs:371-378 | Over any run with every fault allowed, there are never more generations than are kept. |
| `LogKept.OutcomeIsTheWrites` | rust/synology-filestation-fuse/src/logfile.rs:310-355 | A record succeeds if and only if its own write, flush and sync do, whatever its rotation did; each durable success syncs once and each due rotation is attempted once. |
| `LogOrder.ReopenFailureLosesTheLog` | rust/synology-filestation-fuse/src/logfile.rs:378-385 | With one generation kept, a failed reopen followed by one untroubled rotation loses every record. |
| `LogOrder.MissedGenerationBreaksTheOrder` | rust/synology-filestation-fuse/src/logfile.rs:372-378 | With three generations kept, missing the newest of two leaves the oldest and the active file with the middle gone, which is no suffix, though nothing else fails. |
| `LogRotation.RolledMoves` | rust/synology-filestation-fuse/src/logfile.rs:372-378 | The renames in closed form: after them every name holds what the next newer one held, if that moved, and what it held otherwise; which ones move is said of the state before. |
| `LogRotation.RolledReads` | rust/synology-filestation-fuse/src/logfile.rs:372-378 | The renames, stopped anywhere and missing any generation, keep the reading order and drop only from the old end, unless they skip. |
| `LogRotation.SkipLeavesGap` | rust/synology-filestation-fuse/src/logfile.rs:373-377 | A skip always leaves an older file to be read and a newer one gone. |
| `LogRotation.GapIsASkip` | rust/synology-filestation-fuse/src/logfile.rs:373-377 | And nothing but a skip does. |
| `LogRotation.RotatedGap` | rust/synology-filestation-fuse/src/logfile.rs:357-386 | A whole rotation, with every fault allowed, leaves a gap if and only if it skips. |
| `LogRotation.RotatedReads` | rust/synology-filestation-fuse/src/logfile.rs:357-386 | A whole rotation that does not skip keeps the reading order and drops only from the old end. |
| `LogCost.RotationsAreAmortised` | rust/synology-filestation-fuse/src/logfile.rs:310-331 | For every run and every pattern of failures, attempts times the budget are at most twice the initial size plus the bytes offered. |
| `LogCost.RecordPays` | rust/synology-filestation-fuse/src/logfile.rs:313-330 | The potential behind it: one record raises attempts times budget plus what the current budget has seen by at most twice its length. |
| `LogCost.ActiveFileIsCapped` | rust/synology-filestation-fuse/src/logfile.rs:311-316 | Over any run in which nothing goes wrong, the active file is within the budget after every record, or that record alone is all of it. |
| `LogCost.SizeIsCountedUnlessTorn` | rust/synology-filestation-fuse/src/logfile.rs:342-344 | Through rotations that work or fail, the counted size stays the size of the open file if and only if the write was whole or left nothing; a torn one is not counted. |
| `LogCrash.StartsSafe` | rust/synology-filestation-fuse/src/logfile.rs:166-192 | A log opens with only earlier generations not this run's to lose. |
| `LogCrash.RecordStaysSafe` | rust/synology-filestation-fuse/src/logfile.rs:310-386 | Every record keeps all files but the open one on disk, and a durable one that succeeds puts the open one there too. |
| `LogCrash.AcknowledgedMeansOnDisk` | rust/synology-filestation-fuse/src/logfile.rs:342-386 | Over any run with any faults: when a durable record returns success, all that this run wrote and the files still hold is on disk. |
| `LogFile.Start` | rust/synology-filestation-fuse/src/logfile.rs:166-192 | The opened log is well formed and counts the file's size; what it keeps is `LogOrder.OpeningKeepsTheLog`. |
| `LogFile.Rotating.constructor` | rust/synology-filestation-fuse/src/logfile.rs:166-192 | The opened state is `Start`'s, of which `LogOrder.OpeningKeepsTheLog` says that an existing file is kept. |
| `LogFile.Rotating.Record` | rust/synology-filestation-fuse/src/logfile.rs:310-338 | The new state and outcome are those the run theorems speak of. |
| `LogFile.Rotating.Rotate` | rust/synology-filestation-fuse/src/logfile.rs:357-386 | The new state and outcome are those the lemmas speak of, for every fault. |
| `LogFile.Rotating.ShiftGenerations` | rust/synology-filestation-fuse/src/logfile.rs:372-377 | The loop moves what it finds as the recursive shift does, stopping at the same rename and missing the same generations. |
| `Paths.UnderIsComponentPrefix` | rust/synology-filestation-fuse/src/cache.rs:234-242 | "Equal, or starts with the folder and a separator" is exactly "the components extend the folder's". |
| `Paths.FoldedComponents` | rust/synology-filestation-fuse/src/cache.rs:234-236 | Lowercasing a path lowercases its components and moves no boundary between them. |
| `Paths.FoldsAlike` | rust/synology-filestation-fuse/src/cache.rs:45-46 | Two paths have one key if and only if they agree character by character after lowercasing. |
| `Paths.ComponentsRoundTrip` | rust/synology-filestation-fuse/src/cache.rs:234-242 | Components hold no separator, and joined by separators they are the path. |
| `Paths.PathAndPrefixSweepSubtree` | rust/synology-filestation-fuse/src/cache.rs:115-142 | Forgetting a path and then the prefix with a separator sweeps exactly the keys whose components extend the path's. |
| `Paths.BarePrefixTakesSiblings` | rust/synology-filestation-fuse/src/cache.rs:115-131 | Without the separator, some key that is not under the folder is swept too. |
| `DirCache.DirCache.InvalidatePrefix` | rust/synology-filestation-fuse/src/cache.rs:234-242 | Exactly the listings whose components extend the folder's are forgotten. |
| `InodeCache.InodeCache.GetOrAllocIno` | rust/synology-filestation-fuse/src/cache.rs:44-62 | A known path keeps its inode; a new one gets an inode never handed out before; every allocation ever made stands and the maps stay consistent. |
| `InodeCache.InodeCache.Insert` | rust/synology-filestation-fuse/src/cache.rs:65-76 | Metadata and both maps name the same path; consistency is kept if the inode was allocated for that path. |
| `InodeCache.InodeCache.SeedRoot` | rust/synology-filestation-fuse/src/cache.rs:79-90 | The root takes inode 1 in all three maps and disturbs no allocation. |
| `InodeCache.InodeCache.Evict` | rust/synology-filestation-fuse/src/cache.rs:31-34 | Any set of metadata may vanish at any moment, and the invariant survives. |
| `InodeCache.InodeCache.GetPathForIno` | rust/synology-filestation-fuse/src/cache.rs:105-112 | The answer is the permanent map's, so no eviction can be seen in it. |
| `InodeCache.InodeCache.InvalidatePrefix` | rust/synology-filestation-fuse/src/cache.rs:115-131 | Exactly the paths with the prefix go, with their inodes' paths and metadata; consistency is kept. |
| `InodeCache.InodeCache.InvalidatePath` | rust/synology-filestation-fuse/src/cache.rs:134-142 | Exactly that path goes, with its inode's path and metadata; consistency is kept. |
| `InodeCache.InodeCache.PathsHaveTheirOwnInode` | rust/synology-filestation-fuse/src/cache.rs:23-26 | The map from paths to inodes is injective. |
| `InodeCache.InodeCache.InodeLeadsBack` | rust/synology-filestation-fuse/src/cache.rs:23-26 | The path of a path's inode is that path, up to case. |
| `InodeRace.RunKeepsInv` | rust/synology-filestation-fuse/src/cache.rs:44-62 | Through any interleaving of first looks, second looks and inserts, what callers got is what the map holds, and the map stays injective. |
| `InodeRace.RacersAgree` | rust/synology-filestation-fuse/src/cache.rs:44-62 | Racing callers get one inode if and only if they asked for one lowercase path. |
| `ReadCache.ReadCache.Get` | rust/synology-filestation-fuse/src/cache.rs:333-335 | Nothing, or the bytes last inserted since that block or inode was last invalidated. |
| `ReadCache.ReadCache.Evict` | rust/synology-filestation-fuse/src/cache.rs:315-318 | Any set of blocks may vanish at any moment, and the invariant survives. |
| `ReadCache.ReadCache.Insert` | rust/synology-filestation-fuse/src/cache.rs:337-346 | The bytes become the latest, the claim is gone and its slot resolved. |
| `ReadCache.ReadCache.ClaimInflight` | rust/synology-filestation-fuse/src/cache.rs:355-362 | A claim wins exactly when there is none, with a slot of its own. |
| `ReadCache.ReadCache.Resolve` | rust/synology-filestation-fuse/src/cache.rs:365-371 | The claim leaves the map and its slot is resolved; no other claim is touched. |
| `ReadCache.ReadCache.InvalidateBlock` | rust/synology-filestation-fuse/src/cache.rs:433-438 | The block is gone until inserted again; claims stay. |
| `ReadCache.ReadCache.InvalidateIno` | rust/synology-filestation-fuse/src/cache.rs:441-463 | No block and no claim of the inode remains, every such claim's slot is resolved, and no other inode loses anything. |
| `ReadCache.ReadCache.DropArrived` | rust/synology-filestation-fuse/src/cache.rs:442-448 | The first loop drops every block of the inode, because every cached block is tracked. |
| `ReadCache.ReadCache.ReleaseClaims` | rust/synology-filestation-fuse/src/cache.rs:452-462 | The second loop resolves every claim of the inode that is left, and unresolves nothing. |
| `BlockWaiters.StepKeepsInv` | rust/synology-filestation-fuse/src/cache.rs:337-430 | Every lock-sized step of every thread keeps each waiter's slot in the map, resolved, or in the hands of a thread about to wake it; a slot in the map in nobody's hands; and published bytes there unless dropped. |
| `BlockWaiters.NoWaiterIsStranded` | rust/synology-filestation-fuse/src/cache.rs:364-371 | In every reachable state a waiter's block is still claimed, or it can leave, or some thread's next step lets it. |
| `BlockWaiters.OnlyAResolveFreesAClaim` | rust/synology-filestation-fuse/src/cache.rs:411-424 | A claim ends at a resolve of its block and at no other step, a waiter giving up included. |
| `BlockWaiters.ClaimsAreSeparatedByAResolve` | rust/synology-filestation-fuse/src/cache.rs:355-371 | Between two claims of one block that win, somebody resolved it. |
| `BlockWaiters.WokenByAnInsertFindsTheBytes` | rust/synology-filestation-fuse/src/cache.rs:276-278 | In every reachable state, a waiter whose slot an insert resolved finds its block in the cache if and only if the cache has not dropped it since it was last put in: publishing comes before waking. |
| `BlockWaiters.WaitsForItsBlock` | rust/synology-filestation-fuse/src/cache.rs:394-407 | Whatever is claimed, resolved and claimed again meanwhile, a waiter's slot stays one made for the block it asked for. |
| `Redact.RedactWith` | rust/synology-filestation-core/src/redact.rs:64-106 | The cursor loop computes the reference redaction, which only sees unread text. |
| `Redact.NameScanNeverCrossesCursor` | rust/synology-filestation-core/src/redact.rs:80-86 | The backward scan over the whole text finds the name a scan of the unread part would. |
| `Redact.TakeParameter` | rust/synology-filestation-core/src/redact.rs:73-102 | One turn copies out exactly what the reference has for one parameter, and leaves the cursor where no scan can cross it. |
| `Redact.FindName` | rust/synology-filestation-core/src/redact.rs:80-86 | The identifier run that ends at the equals sign. |
| `Redact.FindEq` | rust/synology-filestation-core/src/redact.rs:69-73 | The first equals sign from the cursor, or none. |
| `Redact.FindValueEnd` | rust/synology-filestation-core/src/redact.rs:92-95 | The first terminator of a value, or the end. |
| `Redact.ReadsOneWay` | rust/synology-filestation-core/src/redact.rs:64-106 | A text reads as a head, a value and a rest in one way only, so the reference is a function of the text. |
| `Redact.OnlySecretsChange` | rust/synology-filestation-core/src/redact.rs:61-64 | A text and its redaction agree on everything but secret values, and on which of those were empty. |
| `Redact.RedactedTellsApart` | rust/synology-filestation-core/src/redact.rs:61-106 | Noninterference, exactly: two texts redact alike if and only if they agree on everything but non-empty secret values. |
| `Redact.RedactingTwiceIsRedactingOnce` | rust/synology-filestation-core/src/redact.rs:64-106 | Redaction is idempotent. |
| `Redact.ValueIsGone` | rust/synology-filestation-core/src/redact.rs:91-102 | Whatever precedes a secret parameter, an earlier secret that swallows it included, the redacted text is a function of everything but its value. |
| `Redact.SecretNeverSurvives` | rust/synology-filestation-core/src/redact.rs:24-28 | Texts that differ only in the value of one secret parameter redact to the same string, in every context. |
| `Redact.SecretInAnySpelling` | rust/synology-filestation-core/src/redact.rs:46-50 | A name is secret if and only if it is a listed one character by character, each as listed or as the capital 32 below it. |
| `Redact.CharactersAre` | rust/synology-filestation-core/src/redact.rs:54-59 | Exactly ten characters, the ampersand first, end a value; exactly letters, digits, underscore and hyphen make a name. |
| `Redact.SecretIsReplaced` | rust/synology-filestation-core/src/redact.rs:88-102 | The first parameter of a text, if secret in any spelling and followed by one of those ten or by nothing, comes out as its name and the placeholder, with the rest redacted after it. |
| `Redact.OthersStay` | rust/synology-filestation-core/src/redact.rs:88-91 | The first parameter of a text, if its whole name is no spelling of a listed one, comes out as it is. |
| `Secrets.SecretNamesAre` | rust/synology-filestation-core/src/redact.rs:29-38 | Secret are all spellings of the eight names, written out, and nothing else. |
| `Secrets.RedactsTheFirstSecret` | rust/synology-filestation-core/src/redact.rs:64-106 | A password or session id in any spelling, before an ampersand or at the end, comes out as `<redacted>`. |
| `Redact.NameStart` | rust/synology-filestation-core/src/redact.rs:80-85 | The longest run of identifier characters that ends a text. |
| `Redact.ValueEnd` | rust/synology-filestation-core/src/redact.rs:54-59 | The first terminator in a text, or its end. |
| `Secrets.RulesAreValid` | rust/synology-filestation-core/src/redact.rs:29-43 | The real names are identifiers and the real placeholder holds no terminator, which is what the theorems rest on. |
| `Secrets.RedactSecrets` | rust/synology-filestation-core/src/redact.rs:64-106 | With the real names, the loop's result is the reference's and redacts to itself. |
| `SharedTunnel.StepKeepsInv` | rust/synology-filestation-connect/src/openvpn.rs:217-237 | Every step of every caller keeps: whatever runs and is referenced is what the weak handle names, and nothing is during a raise. |
| `SharedTunnel.AtMostOneTunnel` | rust/synology-filestation-connect/src/openvpn.rs:217-261 | In every interleaving of callers, dropped connections, dying links and cancelled raises, at most one running tunnel is referenced. |
| `SharedTunnel.RaisesExactlyWhenNoneIsLive` | rust/synology-filestation-connect/src/openvpn.rs:226-237 | A caller raises a tunnel if and only if none is live, and otherwise is given the live one. |
| `SharedTunnel.RaisedOnlyWhenNoneIsLive` | rust/synology-filestation-connect/src/openvpn.rs:219-222 | A login completes only while no tunnel is in use. |
| `SharedTunnel.NoLoginWhileInUse` | rust/synology-filestation-connect/src/openvpn.rs:240-261 | While one connection lasts through a running tunnel, no run of other callers, failing connections included, raises another. |
| `SharedTunnel.FailureCostsALoginExactlyWhenAlone` | rust/synology-filestation-connect/src/openvpn.rs:240-261 | In every reachable state, once a connection through a running tunnel has failed or closed, the next caller raises a tunnel if and only if no other caller had that one; otherwise it is given it. |
| `SharedTunnel.LoneFailureRaisesAgain` | rust/synology-filestation-connect/src/openvpn.rs:226-261 | The run in which it costs a login: a first connection fails through a tunnel that came up, and the next caller raises another. |
| `Breaker.CircuitBreaker.Allows` | rust/synology-filestation-core/src/transport.rs:295-308 | An attempt is allowed as the state and cooldown say, and a trial lets nothing else out until its verdict. |
| `Breaker.CircuitBreaker.OnSuccess` | rust/synology-filestation-core/src/transport.rs:317-320 | The backend is trusted again, whenever that was. |
| `Breaker.CircuitBreaker.OnFailure` | rust/synology-filestation-core/src/transport.rs:324-336 | A failed trial reopens; other failures count towards the threshold. |
| `Breaker.ClosedExactlyBelowThreshold` | rust/synology-filestation-core/src/transport.rs:284-337 | Over any run with a threshold of at least one, the breaker is closed if and only if there were fewer failures since the last success than the threshold. |
| `Breaker.ClosedBelowThreshold` | rust/synology-filestation-core/src/transport.rs:284-337 | Over any run with a threshold of at least one, closed is exactly fewer consecutive failures counted than the threshold. |
| `Breaker.AsksAreGrantedExactly` | rust/synology-filestation-core/src/transport.rs:295-308 | From any history: an ask below the threshold is granted; the next ask after a failure that reached it is granted if and only if the cooldown has passed since; what is granted so is granted once until its verdict; a refused ask changes nothing. |
| `Breaker.SuccessForgives` | rust/synology-filestation-core/src/transport.rs:317-320 | A success puts the breaker back to what it was when made. |
| `Breaker.ClosedIsTrustOnlyWithAThreshold` | rust/synology-filestation-core/src/transport.rs:324-336 | That holds for all runs if and only if the threshold is at least one. |
| `Breaker.TrialsAreSpaced` | rust/synology-filestation-core/src/transport.rs:295-308 | While the backend stays down, every attempt since the first opening has cost a whole cooldown. |
| `Breaker.AttemptsBeforeOpening` | rust/synology-filestation-core/src/transport.rs:329-333 | Attempts are at most the threshold and the trials after it. |
| `Breaker.AttemptBound` | rust/synology-filestation-core/src/transport.rs:284-337 | While the backend stays down and each attempt fails before the next is asked for: attempts beyond the threshold, times the cooldown, fit in the time since the first opening. |
| `WalkerWatch.WalkerWatch.Poll` | SynologyFuse.Gui/Services/WalkerWatch.cs:41-59 | Over any history: announced, once each, are exactly the pids this good read lists and the previous good read since a reset did not; shown are the last read's walkers not hidden; a failed read changes nothing. |
| `WalkerWatch.WalkerWatch.Dismiss` | SynologyFuse.Gui/Services/WalkerWatch.cs:65 | The pid is hidden from now until a good read does not list it. |
| `WalkerWatch.WalkerWatch.Reset` | SynologyFuse.Gui/Services/WalkerWatch.cs:69-74 | As if nothing had been read or dismissed. |
| `WalkerWatch.WalkerWatch.Announce` | SynologyFuse.Gui/Services/WalkerWatch.cs:56 | The filtering that adds as it goes yields the news, each pid once. |
| `WalkerWatch.NewsIsNews` | SynologyFuse.Gui/Services/WalkerWatch.cs:56 | News lists exactly the pids listed and not known, none twice. |
| `WalkerWatch.ListedLastAfter` | SynologyFuse.Gui/Services/WalkerWatch.cs:53 | How one more event changes which pids the last good read listed. |
| `WalkerWatch.HiddenAfter` | SynologyFuse.Gui/Services/WalkerWatch.cs:54 | How one more event changes which pids stay hidden. |
| `WalkerWatch.ShownExactly` | SynologyFuse.Gui/Services/WalkerWatch.cs:61-62 | Shown are exactly the walkers not dismissed. |
| `WalkerWatch.ShownInPlace` | SynologyFuse.Gui/Services/WalkerWatch.cs:61-62 | And in the order and number they are listed: the filter works part by part, down to one walker. |
| `WalkerWatch.NewsInOrder` | SynologyFuse.Gui/Services/WalkerWatch.cs:56 | The news is in the order of the list, each walker as it is first listed. |
| `Download.DownloadTo` | rust/synology-filestation-ffi/src/lib.rs:933-954 | The loop ends; it fails if and only if the server refuses one of the offsets it asks for, the chunk starts up to the announced size, and otherwise the file is exactly the remote bytes up to its reach. |
| `Download.WholeFileExactlyWhen` | rust/synology-filestation-ffi/src/lib.rs:946-954 | The local file is the remote one if and only if the size was unknown or the chunks covering it cover the file. |

## Left out

- Real sockets, OpenVPN, SMB, HTTP, FUSE, WinFsp and WebDAV: what they answer is a parameter of the call, or a step of the environment.
- Callers that run inside each other's calls of the chain: runs are sequential, so the comparison in `Chain.Chain.Forget` is modelled but never has a rival to protect.
- The logging of the chain and the watcher, except when a leg is reported; the timer of `Legs::watch`; `Legs::start`.
- `Legs.Session`: that a failed take leaves the old session in use is the environment's promise here, not proved of the SMB transport.
- Full Unicode lowercasing: paths are lowercased character by character, by any map that keeps separators where that matters.
- Byte offsets in UTF-8 text: the redactor works on characters, and its byte arithmetic is not modelled.
- Machine integers: the breaker's failure count, inode numbers, times and offsets do not overflow here; the log's size is a `u64` whose saturating addition is modelled, and a record is assumed not to overflow it.
- ReadCache.ReadCache.Insert: one call at a time; the steps inside it are interleaved in `BlockWaiters`, which follows whether a block is cached but not its bytes or the per-inode index.
- A download that claimed a block before `invalidate_ino` and publishes it afterwards: the cache is proved to hold the latest insertion, not the file.
- The condition variable and deadline of `wait_for_block`: a waiter leaves once its slot is resolved, or times out at any moment.
- InodeCache.InodeCache.GetOrAllocIno: one look, since nothing can come between two in one call; the double-checked lock is `InodeRace`, which has no invalidations.
- The order in which a moka iteration meets concurrent insertions: a sweep sees the keys there when it starts.
- The shared tunnel is a state machine on values rather than a class, because its callers interleave inside `get_or_raise`.
- Log files hold records rather than bytes: a torn write is a shorter record, and two records are not joined into one line.
- The directory's own durability: a rename is taken to survive a power cut, and a failed sync leaves what was on disk there.
- A file that another process renames or truncates under the log.
- Progress reports, relogin, the part file and its final rename in a download.
- The error tables, presenters, argument parsing, settings, views, bindings and installers: each is settled by reading one branch.
