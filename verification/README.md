# Zallet chain synchronisation: a verified model

This project models the part of the Zallet wallet that follows the Zcash chain, together with the lock
on its keys, and proves what they keep over every run. `dafny verify dfyconfig.toml` checks all of it.

| module | what it models |
|---|---|
| `Chain` | blocks identified by what their hashes commit to, chains, and the wallet's height-to-hash record |
| `Locator` | block locators: sampled heights, construction, and the fork-point contract |
| `ForkSearch` | locating the block to resume from: the locator first, then the walk back in steps of ten |
| `SteadyState` | the steady-state task: one pass, stale-view retries, recovery from block conflicts, whole runs |
| `SyncSafety` | what passes, recoveries and runs keep, and exactly when a run-time assertion fails |
| `SyncOutcomes` | how streams, turns, recoveries and runs end, on the answers they get |
| `ChainView` | the pinned view of the Zebra backend: resolving heights through a memo map, and block streams |
| `SharedResolve` | every interleaving of resolve calls from clones that share one memo map |
| `Scanning`, `Scanner` | clamping, batch and single-block scanning, and the two scanning steps over a wallet |
| `BlockStep` | the steady-state task's abstraction of scanned blocks, refined to the scanning step over whole passes; the state it starts from |
| `RecoverHistory` | history recovery: splitting a range, the batch loop, and the boundary between the tasks |
| `Keystore` | unlocking, locking and timed relocking of the identity cache, in every interleaving |

Operations that change state step by step (the sync engine, the wallet, the memo map, the keystore, the
walk, the locator builder and the batch loop) are methods of classes or methods with loops. Each is proved
equal to a function of its old state and inputs, and the properties are proved about those functions.
What the outside world answers (views, reads, decryption, the database, deadlines) is a parameter that is
quantified over, so every result is about all answers.

## Assumptions about the environment

- A block hash determines its block and its parent. A header read by hash may stop being served, but never
  changes.
- `find_fork_point` meets its documented contract (`zallet/src/components/chain.rs:140-146`): it answers
  with the first entry of the locator that is on the view's chain. The Zebra view forwards the call to a
  live reader, so this is assumed rather than derived.
- Truncating the wallet to a height removes exactly what is recorded above it, or fails and changes nothing.
  Storing blocks is atomic, and fails on a different hash at an occupied height.
- No reorg reaches deeper than `MAX_REORG_DEPTH` below a captured tip, so the finalized region served by
  height is the captured chain's (`FinalizedIsStable`; needed for block streams only).
- Subtracting from a block height saturates at 0. `split_at(p)` succeeds exactly when `start < p < end`.
  `truncate_end(h)` cuts a range at `h`, and gives nothing when the range starts there or above.
- Scanning a block fails unless it directly follows the given prior block. The tracked nullifiers are those
  of received notes not known to be spent; `update_with` drops the spent ones and adds the received ones.
- Recorded blocks are at their own heights (`WellFormed`). Results about runs start from a wallet whose
  recorded hash at its own position, if there is one, is that position's hash (`Sound`); nothing in the code
  compares the two, and `StartOfSteadyState` and `StartAtShutdown` say when it holds. What more is assumed is said in each
  statement.

## Where the code and its comments differ

The model follows the code. The differences found are stated as lemmas.

- The assertion that the fork point lies below `prev_tip` is said to be ensured by `find_fork_point`
  (`zallet-core/src/components/sync.rs:592-593`), but the fallback walk clamps its first probe up to the
  birthday, and a wallet can have another block recorded at `prev_tip`'s height. `AssertionsExact` gives the
  exact conditions under which each assertion fails; `LaterBirthdayPanics`, `DisagreementPanics` and
  `UnrecordedWalletPanics` give wallets on which two of them do.
- A wallet with an empty locator is meant to sync forward from `prev_tip` (`sync.rs:351-353`). When it stands
  as high as the view's tip but on another block, it stays there and reports that it has caught up:
  `SiblingTipIsMissed` is an instance, and `PassAsHighAsTip` says that this is the only exception.
- A tip that initialization could not scan is meant to be filled in by the steady-state task
  (`sync.rs:254-258`). A wallet with nothing recorded at or below that height never stores it:
  `UnscannedTipStaysUnscanned`.
- Reaching the birthday without a match is meant to be a genuine divergence (`sync.rs:362-368`). A probe also
  fails to match when the view no longer has its header; `WalkDivergesExactly` has the exact condition.
- A view gone stale is meant to be retried, not fatal (`sync.rs:343-348`). While recovering from a block
  conflict it is fatal; `StaleViewIsFatalInRecovery` says exactly when, and `StaleRecoveryExample` gives a
  turn on which it is.
- `unlock` waits for the old timer so that there is no possibility of the new identities being cleared
  (`zallet-core/src/components/keystore.rs:345-353`). `lock` does not wait, and a timer it aborts too late
  can clear a later unlock; `LateLockExactly` gives the exact condition, `LateLockExample` a run.
- `is_locked` is documented to return `true` for identities that are not encrypted
  (`keystore.rs:263-264`). The code returns whether the cache is empty, so it returns `false` unless there
  are no identities at all; see `PlainKeystoreNeverLocks`.
- A block stream over the empty range `0..0` yields the genesis block, because `range.end - 1` saturates
  (`backends/zebra/src/chain.rs:422-427`); see `StreamRange`.
- A batch can report a spend that single-block scanning does not, when a note already known to be spent is
  scanned again. The wallets still end up equal; `DetectionsAgree` gives the exact condition.

## Model

| member | source | states |
|---|---|---|
| `Locator.LocatorLayout` | zallet/src/components/sync/locator.rs:22-35 | the iterator pipeline over 32-bit steps samples the tip, one height per doubling above the floor, and the floor; a genesis tip samples only itself |
| `Locator.LocatorShape` | zallet/src/components/sync/locator.rs:18-35 | for every tip the heights strictly decrease from the tip to max(tip - 1000, 0) and number at most 12 |
| `Locator.LocatorOvershoot` | zallet/src/components/sync/locator.rs:22-35 | for every fork depth d in the window, the first sample at or below the fork is less than 2d deep, and exactly d deep when d is a power of two |
| `Locator.RecordedDescends` | zallet/src/components/sync/locator.rs:37-41 | leaving out any heights the wallet lacks keeps a list strictly decreasing |
| `Locator.FromBlocks` | zallet/src/components/chain.rs:259-275 | panics exactly when the heights do not strictly decrease; otherwise keeps the hashes in order |
| `Locator.BuildBlockLocator` | zallet/src/components/sync/locator.rs:42-53 | never panics, for any wallet and tip, and lists the recorded hashes at the sampled heights, highest first |
| `Locator.FirstShared` | zallet/src/components/chain.rs:140-146 | the assumed contract: an entry that is on the chain, and none exactly when no entry is |
| `Locator.FirstSharedIsHighest` | zallet/src/components/chain.rs:251-258 | on a decreasing list the first shared entry is the highest shared one |
| `Locator.ForkPointIsHighestShared` | zallet/src/components/sync/locator.rs:37-53 | the answer to the wallet's locator is the highest sampled block it recorded that the view shares; no answer means it shares none |
| `ForkSearch.StepBackToBestChain` | zallet-core/src/components/sync.rs:421-449 | the loop computes the walk's specification, read failures included |
| `ForkSearch.ProbeHeights` | zallet-core/src/components/sync.rs:407-412 | the i-th probe is max(height - 10(i + 1), birthday), and the probes are as few as cover the distance |
| `ForkSearch.WalkReachesBirthday` | zallet-core/src/components/sync.rs:407-448 | probes strictly decrease, end on the birthday, and number ceil((height - birthday) / 10) |
| `ForkSearch.WalkIsComplete` | zallet-core/src/components/sync.rs:414-449 | with successful reads the walk answers its highest shared probe, and reports divergence exactly when no probe is shared |
| `ForkSearch.WalkFindsShared` | zallet-core/src/components/sync.rs:421-449 | whatever the reads do, a found block was recorded by the wallet and is on the view's chain |
| `ForkSearch.WalkOvershoot` | zallet-core/src/components/sync.rs:421-449 | on a gap-free, linked record the walk resumes at most nine blocks below the highest shared one |
| `ForkSearch.Locate` | zallet-core/src/components/sync.rs:370-403 | the two searches together compute the specification, for every wallet and view |
| `ForkSearch.ForkPointOrigin` | zallet-core/src/components/sync.rs:370-403 | every answer is recorded and shared, or is the wallet's own position when the locator is empty; it lies above that position only at a later birthday |
| `ForkSearch.ForkPointOvershoot` | zallet-core/src/components/sync.rs:354-403 | over the whole search, on a record that is gap-free from the birthday or lower on: less than 2d deep for a fork d deep, or at most nine blocks below the highest shared one; which of the two, and when nothing is lost |
| `ForkSearch.WalkDivergesExactly` | zallet-core/src/components/sync.rs:421-449 | whatever the reads do, the walk reports divergence exactly when every probe is read and none is found on the view, missing headers included |
| `ForkSearch.SearchDivergesExactly` | zallet-core/src/components/sync.rs:370-403 | the whole search reports it exactly when, besides, the locator is not empty and shares nothing |
| `ForkSearch.NoBirthdayIsGenesis` | zallet-core/src/components/sync.rs:377-379 | a wallet without a birthday is searched as if it were the genesis block, which the walk probes last |
| `ForkSearch.WalkFailsExactly` | zallet-core/src/components/sync.rs:421-449 | the walk fails on a read exactly when one of its probes does, all before it being off the view |
| `ForkSearch.SearchFailsExactly` | zallet-core/src/components/sync.rs:370-403 | the whole search fails on a read exactly when the fork-point search does, or nothing in the locator is shared and the walk does |
| `SteadyState.SyncEngine.ApplyStream` | zallet-core/src/components/sync.rs:607-635 | the block loop computes its specification, with every early exit |
| `SteadyState.SyncEngine.SteadyStateIteration` | zallet-core/src/components/sync.rs:549-675 | one pass computes its specification, assertions included |
| `SteadyState.SyncEngine.RecoverFromConflict` | zallet-core/src/components/sync.rs:517-538 | recovery computes its specification, and changes nothing when it fails |
| `SteadyState.SyncEngine.SteadyState` | zallet-core/src/components/sync.rs:454-543 | the task's loop computes a run: retry, recover, stop or shut down |
| `SyncSafety.StreamExtends` | zallet-core/src/components/sync.rs:607-635 | a stream adds exactly the view's blocks above the position up to where the wallet comes to stand, one ahead only if recording the tip failed |
| `SyncSafety.StreamStops` | zallet-core/src/components/sync.rs:607-635 | why a stream stopped; never out of order, and a conflict is with the next block |
| `SyncSafety.ExtendingKeepsLinked` | zallet-core/src/components/sync.rs:607-635 | adding a view's blocks above a shared position keeps the record parent-linked |
| `SyncSafety.SearchLands` | zallet-core/src/components/sync.rs:583-584 | where the search lands for a wallet that meets the invariant |
| `SyncSafety.SearchLandsTooHigh` | zallet-core/src/components/sync.rs:583-584 | the fork point is above the view's tip exactly for an empty locator above that tip |
| `SyncSafety.SearchStays` | zallet-core/src/components/sync.rs:583-590 | the search finds nothing to rewind exactly when the locator is empty or the wallet's position is recorded and on the view |
| `SyncSafety.SearchLandsUpward` | zallet-core/src/components/sync.rs:590-593 | the fork point is elsewhere and not below prev_tip exactly when the walk is sent up to a shared later birthday, or another block is recorded at prev_tip's height and on the view |
| `SyncSafety.AssertionsExact` | zallet-core/src/components/sync.rs:583-610 | for every wallet with its blocks at their own heights, if and only if conditions for the first two assertions to fail; the third never does |
| `SyncSafety.UnrecordedWalletPanics` | zallet-core/src/components/sync.rs:584 | a wallet with no record above the view's tip fails the first assertion |
| `SyncSafety.LaterBirthdayPanics` | zallet-core/src/components/sync.rs:592-593 | a wallet that meets the invariant, with a gap below its birthday and a shared block there, fails the second |
| `SyncSafety.DisagreementPanics` | zallet-core/src/components/sync.rs:592-593 | a wallet that recorded another block where it stands fails the second exactly on the views with that block, when the search does not fail: the invariant is needed |
| `SyncSafety.PassShape` | zallet-core/src/components/sync.rs:549-635 | every pass leaves the record alone, or keeps it up to the fork point and adds the view's blocks above |
| `SyncSafety.StreamDrains` | zallet-core/src/components/sync.rs:607-635 | with every block served and none in the way the stream runs to the tip |
| `SyncSafety.PassReachesTip` | zallet-core/src/components/sync.rs:549-635 | such a pass ends on the view's tip unless the wallet has an empty locator and stands as high on another block; it keeps the record up to the fork point and has the view's blocks above |
| `SyncSafety.PassAsHighAsTip` | zallet-core/src/components/sync.rs:549-635 | any pass that touches the record and ends as high as the view's tip, however it ended and whatever was recorded: it is on the tip exactly unless the locator was empty and it began as high |
| `SyncSafety.SiblingTipIsMissed` | zallet-core/src/components/sync.rs:351-353 | a wallet with no record on which that exception happens, reported as caught up |
| `SyncSafety.RecordIsOneChain` | zallet-core/src/components/sync.rs:630-634 | the recorded blocks joined to the wallet's position are its ancestors |
| `SyncSafety.PassKeepsInvariant` | zallet-core/src/components/sync.rs:549-675 | every pass keeps the invariant, an anchored position, a linked record and the shutdown height |
| `SyncSafety.ShutsDownAtDivergence` | zallet-core/src/components/sync.rs:619-644 | a pass shuts down only on a view that reaches the shutdown height, and never carries on from one |
| `SyncSafety.RecoveryCutsBack` | zallet-core/src/components/sync.rs:517-538 | for a reorg of any depth, success cuts the wallet back to a block it recorded that is on the fresh view, keeps all up to it and nothing above |
| `SyncSafety.RecoveryDepth` | zallet-core/src/components/sync.rs:508-538 | how far below the true fork recovery can cut, on a record that is gap-free from the birthday or lower on |
| `SyncSafety.StaleViewKeepsProgress` | zallet-core/src/components/sync.rs:498-506 | a pass that met a stale view leaves the record as it was, or rewound to the fork point and extended up to where the wallet stands; the next pass goes on from there, rewinding nothing, while its view has that block |
| `SyncSafety.PassConflictsExactly` | zallet-core/src/components/sync.rs:607-635 | a pass meets a conflict at a height exactly when it rewinds nothing, the wallet has another block recorded there, and every block below it is served and stored |
| `SyncSafety.ConflictLeaves` | zallet-core/src/components/sync.rs:607-635 | the pass has then stored the view's blocks up to there and stands on the last one |
| `SyncSafety.StaleViewIsFatalInRecovery` | zallet-core/src/components/sync.rs:498-541 | the task stops on a stale view exactly when a pass meets a conflict and then the snapshot, the fork-point search or a header the walk reads is unavailable |
| `SyncSafety.StaleRecoveryExample` | zallet-core/src/components/sync.rs:517-536 | a wallet and a turn on which it does |
| `SyncSafety.RunKeepsInvariant` | zallet-core/src/components/sync.rs:454-543 | over every run the hash recorded where the wallet stands is absent or its own; nothing is stored at the shutdown height |
| `SyncSafety.PassKeepsLocator` | zallet-core/src/components/sync.rs:549-635 | a pass never leaves a wallet that has a locator without one, nor moves it below all it had recorded |
| `SyncSafety.RunNeverPanics` | zallet-core/src/components/sync.rs:583-610 | no assertion fails in a run of a wallet with a locator, with birthdays not above where it stands at each pass |
| `SyncSafety.RunFromBirthdayNeverPanics` | zallet-core/src/components/sync.rs:583-610 | nor, from conditions on the start alone, in any run of a wallet with a locator that neither stands nor recorded anything below its birthday |
| `SyncSafety.ClearRun` | zallet-core/src/components/sync.rs:454-543 | from a position with nothing recorded above it, runs never meet a conflict, and keep a linked record linked; with a locator they never panic either, whatever the birthdays |
| `SyncSafety.RunStaysAbove` | zallet-core/src/components/sync.rs:454-543 | no run stores anything at or below a height that the wallet starts at or above with nothing recorded there or below |
| `SyncSafety.ConflictThenCaughtUp` | zallet-core/src/components/sync.rs:508-538 | after a conflict is recovered from, one pass with every block served brings the wallet to its view's tip |
| `SyncSafety.PassMovesBoundary` | zallet-core/src/components/sync.rs:563-580 | a pass moves the boundary exactly when it sees a changed tip |
| `SyncSafety.BoundaryRatchets` | zallet-core/src/components/sync.rs:190-192 | after any run the boundary is the greatest of its start and every changed tip less 100 |
| `SyncOutcomes.StreamComesTo` | zallet-core/src/components/sync.rs:607-635 | a stream whose blocks all pass up to a height stands just below it, with nothing changed from there on |
| `SyncOutcomes.StreamEnds` | zallet-core/src/components/sync.rs:607-635 | how a stream ends at its first block that does not pass: missing, unread, at the shutdown height, not scanned for each reason, in conflict, or its tip not recorded |
| `SyncOutcomes.SearchEndsTurn` | zallet-core/src/components/sync.rs:583 | a turn whose search fails or diverges leaves the record alone, and is retried exactly if the view was unavailable |
| `SyncOutcomes.RewindEndsTurn` | zallet-core/src/components/sync.rs:603 | a reorg that cannot be rewound stops the task with the record as it was |
| `SyncOutcomes.StreamEndsTurn` | zallet-core/src/components/sync.rs:485-541 | how a turn ends for each way its stream can, and once caught up: by shutting down at the shutdown height, else as the mempool stream does |
| `SyncOutcomes.ShutsDownAtHeight` | zallet-core/src/components/sync.rs:487-495 | a view that reaches the shutdown height, with nothing else in the way, shuts the wallet down standing just below it |
| `SyncOutcomes.RecoveryEnds` | zallet-core/src/components/sync.rs:517-538 | with which error a recovery fails, for each cause, and that it succeeds otherwise |
| `SyncOutcomes.ConflictEndsTurn` | zallet-core/src/components/sync.rs:498-541 | a turn that meets a conflict goes on exactly if recovery succeeds, and stops on its failure |
| `SyncOutcomes.RunGoesOn` | zallet-core/src/components/sync.rs:470-543 | a run goes on after every turn that does not end it, from where that left the wallet |
| `SyncOutcomes.RunEndsWithTurn` | zallet-core/src/components/sync.rs:470-543 | a turn that does not end running ends the run, whatever would come after |
| `SyncOutcomes.MissingViewInRun` | zallet-core/src/components/sync.rs:498-541 | a view that is unavailable does not show in a run; any other failure to capture one ends it |
| `SyncOutcomes.CaughtUpInRun` | zallet-core/src/components/sync.rs:637-675 | nor does a view that ends where the wallet stands, unless it reaches the shutdown height or its mempool stream fails for good |
| `SyncOutcomes.EndedRun` | zallet-core/src/components/sync.rs:470-543 | a run that has ended has ended with one of its turns, all before it having gone on |
| `ChainView.ZebraChainView.Snapshot` | backends/zebra/src/chain.rs:205-223 | a fresh view has only its tip memoized, and is valid |
| `ChainView.ZebraChainView.Clone` | backends/zebra/src/chain.rs:235-248 | a clone shares the memo map |
| `ChainView.ZebraChainView.Resolve` | backends/zebra/src/chain.rs:251-285 | answers with the tip's ancestor, with how far the memo map is filled and which failure a walk reports; the map stays a gap-free run of ancestors, each read once |
| `ChainView.ZebraChainView.GetBlock` | backends/zebra/src/chain.rs:408-416 | exactly when it fails, and with what; exactly when there is no block; otherwise the tip's ancestor at that height |
| `ChainView.ZebraChainView.StreamBlocks` | backends/zebra/src/chain.rs:287-306 | what is emitted is a gap-free, parent-linked run of ancestors from start, within end and tip, across the finalized floor; it ends past its range, for lack of the next block, or with the failure of reading it |
| `ChainView.ZebraChainView.StreamRange` | backends/zebra/src/chain.rs:422-427 | a half-open range is kept to, except that 0..0 yields the genesis block; it ends as such a stream does |
| `ChainView.WalkCost` | backends/zebra/src/chain.rs:270-283 | a walk reads as many headers as it adds entries, even when it fails part-way |
| `ChainView.CallsCost` | backends/zebra/src/chain.rs:263-284 | over any sequence of calls the headers read total the tip's height less the lowest memoized height |
| `ChainView.ViewLifetimeCost` | backends/zebra/src/chain.rs:263-284 | at most 999 headers are read in a view's life |
| `SharedResolve.AdvancingStaysOnTrack` | backends/zebra/src/chain.rs:251-285 | every step of a call keeps the memo map a run of ancestors and the call on it |
| `SharedResolve.InterleavingKeepsInvariant` | backends/zebra/src/chain.rs:251-285 | so does every interleaving of calls, and the map only grows |
| `SharedResolve.AnswersArePinned` | backends/zebra/src/chain.rs:225-285 | in every interleaving two successful resolves of a height agree on the tip's ancestor, no call crashes, and reorgs alone can only make one unavailable |
| `SharedResolve.NewCall` | backends/zebra/src/chain.rs:251-270 | what a new call answers above the tip, at a finalized height and at a memoized one, and that it starts from the lowest memoized block above otherwise |
| `SharedResolve.ServedWalkSucceeds` | backends/zebra/src/chain.rs:270-285 | from any reachable point a call succeeds once the headers it still needs are served |
| `Scanning.ClampExact` | zallet-core/src/components/sync/steps.rs:99-111 | a non-empty range is scanned exactly at its heights below the shutdown height, and a stop is signalled exactly when some are left out |
| `Scanning.CarryingStep` | zallet-core/src/components/sync/steps.rs:191-193 | carried nullifiers that cover the wallet's store the same block and go on covering it |
| `Scanning.BatchIsOneByOne` | zallet-core/src/components/sync/steps.rs:160-197 | for every wallet and contiguous run, batch scanning and block-by-block scanning end in the same wallet, or both fail on the same clash |
| `Scanning.ConflictsExactly` | zallet-core/src/components/sync/steps.rs:160-197 | a run fails exactly on its first block in conflict |
| `Scanning.OneByOneStores` | zallet-core/src/components/sync/steps.rs:216-281 | what a run stores: each block and tree size at its height, everything else as it was |
| `Scanning.OneByOneNotes` | zallet-core/src/components/sync/steps.rs:216-281 | exactly which notes are known received and spent after a run, those received earlier in the same run included |
| `Scanning.BatchReports` | zallet-core/src/components/sync/steps.rs:174-194 | the spends the batch loop reports, notes received and spent within the batch included |
| `Scanning.DetectionsAgree` | zallet-core/src/components/sync/steps.rs:160-194 | batch and single scanning report the same spends exactly unless a run revisits a note already known spent |
| `Scanning.RevisitedSpendIsReportedTwice` | zallet-core/src/components/sync/steps.rs:160-194 | two blocks on which they differ when a wallet scans them for a second time |
| `Scanner.Wallet.Store` | zallet-core/src/components/sync/steps.rs:196 | storing scanned blocks is all or nothing |
| `Scanner.Wallet.Queue` | zallet-core/src/components/sync/steps.rs:143-152 | the queueing loop takes exactly the streamed blocks, or fails as the stream or decryptor does |
| `Scanner.Wallet.ScanEach` | zallet-core/src/components/sync/steps.rs:160-194 | the scanning loop threads nullifiers and metadata as specified |
| `Scanner.Wallet.ScanBlocksInto` | zallet-core/src/components/sync/steps.rs:114-213 | scan_blocks computes its specification, with every failure |
| `Scanner.Wallet.ScanBlockInto` | zallet-core/src/components/sync/steps.rs:216-281 | scan_block computes its specification, with every failure |
| `Scanner.QueuedIsARun` | zallet-core/src/components/sync/steps.rs:143-152 | what is queued is a gap-free, linked run of the view's chain within the range |
| `Scanner.QueueFailsExactly` | zallet-core/src/components/sync/steps.rs:143-152 | queueing fails on the chain exactly when the first unsuccessful read of the range fails, and with its error |
| `Scanner.QueueLacksDecryptorExactly` | zallet-core/src/components/sync/steps.rs:147-150 | and for want of the decryptor exactly when it is down and there is a block to queue |
| `Scanner.ScanBlocksIsOneByOne` | zallet-core/src/components/sync/steps.rs:114-213 | scan_blocks, clamping included, leaves the wallet that scanning its streamed blocks one by one leaves, or, if the tree state, the queue, a block or the database fails, the wallet as it was, with that error |
| `Scanner.ScanBlocksFailsExactly` | zallet-core/src/components/sync/steps.rs:114-213 | end to end, when scan_blocks fails on the chain, with which error, and when for want of the decryptor |
| `Scanner.BlockAheadOfView` | zallet-core/src/components/sync/steps.rs:233-242 | scan_block on a block ahead of the view fails for want of a tree state |
| `Scanner.ScanBlocksIsAllOrNothing` | zallet-core/src/components/sync/steps.rs:122-212 | a failed range scan changes nothing, a range past the tip is passed over, and a scan breaks off only at the shutdown height |
| `Scanner.NothingStoredAtShutdown` | zallet-core/src/components/sync/steps.rs:86-98 | over every interleaving of range scans, single scans and rewinds nothing is stored at or above the shutdown height |
| `BlockStep.ScanBlockComesDownTo` | zallet-core/src/components/sync/steps.rs:216-281 | on a view's own block scan_block stores it, refuses it at the shutdown height, meets a conflict, or fails from outside; it never fails of itself |
| `BlockStep.SteadyStateStoresWhatScanningStores` | zallet-core/src/components/sync.rs:616-634 | a step of the steady-state model is scan_block over the full wallet |
| `BlockStep.StreamIsScanning` | zallet-core/src/components/sync.rs:607-635 | a whole stream of the steady-state model is the block loop over the full wallet: same blocks stored, same reason to stop |
| `BlockStep.StreamIsOneByOne` | zallet-core/src/components/sync.rs:607-635 | that loop has scanned a run of the view's blocks one by one, all of them up to the tip when it drains |
| `BlockStep.PassScansTheView` | zallet-core/src/components/sync.rs:549-635 | so after a pass it is exactly known which notes the wallet has received and seen spent since it was rewound to the fork point |
| `BlockStep.StartOfSteadyState` | zallet-core/src/components/sync.rs:260-295 | the tip scan that ends initialization leaves a start that meets the invariant exactly if no other block is recorded at the tip's height, and a recorded position exactly if the tip was recorded or could be scanned |
| `BlockStep.StartAtShutdown` | zallet-core/src/components/sync.rs:306-316 | the same for initialization that ends on a range scan reaching the shutdown height, with no tip scan |
| `BlockStep.UnscannedTipStaysUnscanned` | zallet-core/src/components/sync.rs:254-258 | a tip left unscanned by a wallet with nothing recorded at or below it is never stored in any run |
| `RecoverHistory.ChunksTile` | zallet-core/src/components/sync.rs:718-730 | batches are consecutive, non-empty, within the batch size, and span the range |
| `RecoverHistory.ChunksCount` | zallet-core/src/components/sync.rs:718-730 | they number ceil(length / batch size) |
| `RecoverHistory.ChunksConserve` | zallet-core/src/components/sync.rs:718-730 | for any batch size they concatenate to the range, height by height |
| `RecoverHistory.ZeroBatchSize` | zallet-core/src/components/sync.rs:718-730 | a batch size of zero takes the range whole instead of looping |
| `RecoverHistory.RecoverRange` | zallet-core/src/components/sync.rs:717-759 | the batch loop terminates and computes its specification |
| `RecoverHistory.OffersAPrefix` | zallet-core/src/components/sync.rs:717-759 | what is offered is a prefix of the split, and all of it unless the last batch offered fails, meets the shutdown height or is superseded |
| `RecoverHistory.RecoversStepByStep` | zallet-core/src/components/sync.rs:717-759 | the loop goes on past a batch exactly if it neither fails nor reaches the shutdown height and nothing more urgent is suggested, and ends with the failure of its last batch, if any |
| `RecoverHistory.RecoveringScansRuns` | zallet-core/src/components/sync.rs:717-759 | whatever happens, a recovery has scanned, one by one, a run from the start of each batch offered, on that round's view and below the shutdown height, and nothing else |
| `RecoverHistory.RecoveringIsOneByOne` | zallet-core/src/components/sync.rs:717-759 | batches of any size, each on a fresh view, leave the wallet that scanning the range's blocks below the shutdown height one by one leaves, when nothing fails |
| `RecoverHistory.NextRange` | zallet-core/src/components/sync.rs:700-714 | the first suggested range that starts below the loaded boundary, cut off there; none exactly when no range does |
| `RecoverHistory.RangesStayBelowBoundary` | zallet-core/src/components/sync.rs:563-580 | no range taken with a boundary loaded at any earlier time reaches the boundary as it is later |
| `Keystore.StepKeepsInvariant` | zallet-core/src/components/keystore.rs:312-386 | every step of a caller, timer or the clock keeps the stored timer the only one in force |
| `Keystore.HeldOnlyUnderATimer` | zallet-core/src/components/keystore.rs:259-281 | in every interleaving, with the mutex free, identities are held only under a stored unfinished timer of the unlock that wrote them |
| `Keystore.PlainIdentitiesStay` | zallet-core/src/components/keystore.rs:259-269 | identities that are not encrypted stay cached in every interleaving |
| `Keystore.PlainKeystoreNeverLocks` | zallet-core/src/components/keystore.rs:259-269 | such a keystore counts as locked, at any time, exactly when it has no identities |
| `Keystore.LockedUntilUnlocked` | zallet-core/src/components/keystore.rs:372-386 | after a lock the cache stays empty until the next successful unlock |
| `Keystore.NoStaleClears` | zallet-core/src/components/keystore.rs:343-366 | no superseded timer clears a later unlock's identities unless a lock came too late |
| `Keystore.LockFreeIsNeverTooLate` | zallet-core/src/components/keystore.rs:343-366 | runs of unlocks with no lock meet that condition |
| `Keystore.UnlockCallCompletes` | zallet-core/src/components/keystore.rs:343-369 | a completed unlock has one outcome, however the timer it waits for ends |
| `Keystore.AwaitedTimerFinishes` | zallet-core/src/components/keystore.rs:345-351 | the timer an unlock waits for can always finish on its own |
| `Keystore.ClearsStaleExactly` | zallet-core/src/components/keystore.rs:343-386 | unlocks and timers alone can lead to a stale clear exactly when an aborted timer past its sleep is about |
| `Keystore.LateLockExactly` | zallet-core/src/components/keystore.rs:379-385 | a lock makes that possible exactly when the timer it aborts is past its sleep |
| `Keystore.LateLockExample` | zallet-core/src/components/keystore.rs:379-385 | a run in which it happens: locked while a deadline is still reported |
| `Keystore.HeldUntilDeadline` | zallet-core/src/components/keystore.rs:308-311 | without another call, identities stay until the unlock's deadline |
| `Keystore.DueTimerRelocks` | zallet-core/src/components/keystore.rs:271-281 | from the deadline on the timer can clear the cache without waiting for a call; the deadline is reported until the timer has finished, and none after |
| `Keystore.KeyStore.Unlock` | zallet-core/src/components/keystore.rs:312-370 | succeeds exactly for encrypted identities and the right passphrase; is the machine's unlock, reports the new deadline, and is not locked if there are identities |
| `Keystore.KeyStore.Lock` | zallet-core/src/components/keystore.rs:373-386 | is the machine's lock; leaves plain identities alone |
| `Keystore.KeyStore.UnlockedUntilNow` | zallet-core/src/components/keystore.rs:276-281 | reports the stored deadline until the timer has finished; none means locked |
| `Keystore.KeyStore.TimerFires` | zallet-core/src/components/keystore.rs:362-365 | a timer that runs out clears the cache and finishes; if it was the stored one no deadline is reported any more |

## Left out

- SQLite, the connection pool and `WalletDb`: the wallet is a record of hashes, tree sizes and note
  nullifiers. A failure to read a block hash or the birthday during a search is not modelled; the failures
  to truncate, to store and to record the tip are.
- 32-bit overflow of `height + 1` and of `start + batch_size`: heights are unbounded, except in the locator,
  where the overflow of the doubling step is what ends the list.
- `initialize` but for how it ends (`StartOfSteadyState`, `StartAtShutdown`): its loop over suggested ranges is
  not modelled. Its writes are range scans and single scans, which `NothingStoredAtShutdown` covers.
- Concurrent writes by history recovery during a steady-state pass: the tasks are proved separately and
  joined by the shared boundary.
- Trial decryption, note commitments, tree states and the batch decryptor's threads: a block has the
  nullifiers it creates and spends and the number of its outputs; three pools are one.
- Mempool contents, transaction data requests, address checks, notifications, backoff and polling delays.
- Cancellation of a call half-way, and unavailable system time.
- Passphrase checking and age encryption: whether a passphrase opens the identities is a parameter.
- The readers of the identity cache, which only delay a writer.
- The Zaino backend, other reads of a view (tree states, transactions, headers by height), and the fork
  point search inside the backends.
- ChainView.ViewLifetimeCost: counts calls made one at a time, because calls that run together may read the
  same header twice; `SharedResolve` covers their answers, not their cost.
- RecoverHistory.RecoveringIsOneByOne: speaks of recoveries in which every view includes the range and
  nothing fails or takes precedence; `RecoveringScansRuns` covers the others, which may leave heights out.
- Keystore.KeyStore.Unlock: runs a call to completion; the interleavings are covered by the state machine.
