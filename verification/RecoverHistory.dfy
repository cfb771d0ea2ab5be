/** The history-recovery task: take the first suggested range below the boundary, split it into batches
    of bounded size, and scan each batch against a fresh view. */
module RecoverHistory {
  import opened Chain
  import opened Scanning
  import opened Scanner
  import SyncSafety
  import SteadyState

  /** The heights `start`, ..., `end - 1`, to be scanned with some priority. */
  datatype ScanRange = ScanRange(start: nat, end: nat, priority: nat)

  function SplitAt(r: ScanRange, p: nat): Option<(ScanRange, ScanRange)> {
    if r.start < p < r.end then Some((r.(end := p), r.(start := p))) else None
  }

  function TruncateEnd(r: ScanRange, boundary: nat): Option<ScanRange> {
    if boundary <= r.start then None else Some(r.(end := Min(r.end, boundary)))
  }

  // ----- Splitting a range into batches -----

  function Chunks(r: ScanRange, batchSize: nat): seq<ScanRange>
    decreases r.end - r.start
  {
    match SplitAt(r, r.start + batchSize)
    case None => [r]
    case Some((cur, next)) => [cur] + Chunks(next, batchSize)
  }

  function Heights(r: ScanRange): seq<nat> {
    seq(Max(r.end - r.start, 0), i requires 0 <= i => r.start + i)
  }

  function AllHeights(rs: seq<ScanRange>): seq<nat> {
    if rs == [] then [] else Heights(rs[0]) + AllHeights(rs[1..])
  }

  /** The batches are consecutive from end to end of the range, non-empty and no longer than the batch
      size, and all but the last are exactly as long. */
  lemma {:induction false} ChunksTile(r: ScanRange, batchSize: nat)
    requires r.start < r.end && 1 <= batchSize
    ensures var c := Chunks(r, batchSize);
            && c != [] && c[0].start == r.start && c[|c| - 1].end == r.end
            && (forall i :: 0 <= i < |c| ==> c[i].start < c[i].end <= c[i].start + batchSize && c[i].priority == r.priority)
            && (forall i, j :: 0 <= i && j == i + 1 < |c| ==> c[i].end == c[j].start == c[i].start + batchSize)
    decreases r.end - r.start
  {
    if r.start + batchSize < r.end {
      ChunksTile(r.(start := r.start + batchSize), batchSize);
    }
  }

  /** There are as many batches as the length over the batch size, rounded up. */
  lemma {:induction false} ChunksCount(r: ScanRange, batchSize: nat)
    requires r.start < r.end && 1 <= batchSize
    ensures (|Chunks(r, batchSize)| - 1) * batchSize < r.end - r.start <= |Chunks(r, batchSize)| * batchSize
    decreases r.end - r.start
  {
    if r.start + batchSize < r.end {
      var rest := Chunks(r.(start := r.start + batchSize), batchSize);
      ChunksCount(r.(start := r.start + batchSize), batchSize);
      assert (|rest| + 1) * batchSize == |rest| * batchSize + batchSize;
      assert (|rest| - 1) * batchSize == |rest| * batchSize - batchSize;
    }
  }

  /** Together the batches are the range, height by height. */
  lemma {:induction false} ChunksConserve(r: ScanRange, batchSize: nat)
    ensures AllHeights(Chunks(r, batchSize)) == Heights(r)
    decreases r.end - r.start
  {
    var c := Chunks(r, batchSize);
    if SplitAt(r, r.start + batchSize).Some? {
      var (cur, next) := SplitAt(r, r.start + batchSize).value;
      ChunksConserve(next, batchSize);
      assert c == [cur] + Chunks(next, batchSize) && c[1..] == Chunks(next, batchSize);
      assert Heights(r) == Heights(cur) + Heights(next);
    } else {
      assert c == [r] && c[1..] == [] && Heights(r) + [] == Heights(r);
    }
  }

  /** A batch size of zero does not loop: it leaves the range whole. */
  lemma ZeroBatchSize(r: ScanRange)
    ensures Chunks(r, 0) == [r]
  {}

  // ----- The batch loop -----

  /** How one round of the loop goes: the view it scans against, and the highest priority that is
      suggested afterwards. */
  datatype Round = Round(world: World, latestPriority: Option<nat>)

  datatype Recovered = Recovered(wallet: WalletState, offered: seq<ScanRange>, fault: Option<SyncError>)

  /** Something more urgent than a range of this priority is suggested after the batch. */
  predicate Superseded(priority: nat, round: Round) {
    round.latestPriority.Some? && priority < round.latestPriority.value
  }

  datatype Verdict = GoOn | StopHere(fault: Option<SyncError>)

  function ScanBatch(w: WalletState, cur: ScanRange, round: Round, shutdownHeight: Option<nat>): (WalletState, Verdict) {
    var (w', r) := ScanBlocks(w, cur.start, cur.end, shutdownHeight, round.world);
    (w', if r.Err? then StopHere(Some(r.error))
         else if r.value.Break? || Superseded(cur.priority, round) then StopHere(None)
         else GoOn)
  }

  /** The next batch: what is split off the range, or all that is left. */
  function CutFrom(remaining: ScanRange, batchSize: nat): ScanRange {
    var split := SplitAt(remaining, remaining.start + batchSize);
    if split.Some? then split.value.0 else remaining
  }

  /** The loop from its round `n` on, with `remaining` left of the range. */
  function Recover(w: WalletState, remaining: ScanRange, batchSize: nat, rounds: nat -> Round, n: nat,
                   shutdownHeight: Option<nat>): Recovered
    decreases remaining.end - remaining.start
  {
    var split := SplitAt(remaining, remaining.start + batchSize);
    var cur := CutFrom(remaining, batchSize);
    var (w', verdict) := ScanBatch(w, cur, rounds(n), shutdownHeight);
    if verdict.StopHere? then Recovered(w', [cur], verdict.fault)
    else if split.None? then Recovered(w', [cur], None)
    else
      var rest := Recover(w', split.value.1, batchSize, rounds, n + 1, shutdownHeight);
      Recovered(rest.wallet, [cur] + rest.offered, rest.fault)
  }

  lemma RecoverUnfolds(w: WalletState, remaining: ScanRange, batchSize: nat, rounds: nat -> Round, n: nat,
                       shutdownHeight: Option<nat>)
    ensures var split := SplitAt(remaining, remaining.start + batchSize);
            var cur := CutFrom(remaining, batchSize);
            var step := ScanBatch(w, cur, rounds(n), shutdownHeight);
            var all := Recover(w, remaining, batchSize, rounds, n, shutdownHeight);
            if step.1.StopHere? then all == Recovered(step.0, [cur], step.1.fault)
            else if split.None? then all == Recovered(step.0, [cur], None)
            else
              var rest := Recover(step.0, split.value.1, batchSize, rounds, n + 1, shutdownHeight);
              all == Recovered(rest.wallet, [cur] + rest.offered, rest.fault)
  {}

  method RunBatch(wallet: Wallet, cur: ScanRange, round: Round, shutdownHeight: Option<nat>) returns (verdict: Verdict)
    modifies wallet
    ensures (wallet.State(), verdict) == ScanBatch(old(wallet.State()), cur, round, shutdownHeight)
  {
    var r := wallet.ScanBlocksInto(cur.start, cur.end, shutdownHeight, round.world);
    if r.Err? {
      return StopHere(Some(r.error));
    }
    if r.value.Break? || Superseded(cur.priority, round) {
      return StopHere(None);
    }
    return GoOn;
  }

  method RecoverRange(wallet: Wallet, range: ScanRange, batchSize: nat, rounds: nat -> Round, shutdownHeight: Option<nat>)
    returns (ghost offered: seq<ScanRange>, fault: Option<SyncError>)
    modifies wallet
    ensures var all := Recover(old(wallet.State()), range, batchSize, rounds, 0, shutdownHeight);
            wallet.State() == all.wallet && offered == all.offered && fault == all.fault
  {
    hide ScanBatch, Recover;
    ghost var all := Recover(wallet.State(), range, batchSize, rounds, 0, shutdownHeight);
    var remaining, n := range, 0;
    offered := [];
    while true
      invariant var rest := Recover(wallet.State(), remaining, batchSize, rounds, n, shutdownHeight);
                && all.wallet == rest.wallet && all.fault == rest.fault
                && all.offered == offered + rest.offered
      decreases remaining.end - remaining.start
    {
      var split := SplitAt(remaining, remaining.start + batchSize);
      var cur := CutFrom(remaining, batchSize);
      RecoverUnfolds(wallet.State(), remaining, batchSize, rounds, n, shutdownHeight);
      var verdict := RunBatch(wallet, cur, rounds(n), shutdownHeight);
      offered := offered + [cur];
      if verdict.StopHere? {
        return offered, verdict.fault;
      }
      if split.None? {
        return offered, None;
      }
      remaining, n := split.value.1, n + 1;
    }
  }

  lemma StopsForAReason(w: WalletState, cur: ScanRange, round: Round, shutdownHeight: Option<nat>)
    requires cur.start < cur.end
    ensures ScanBatch(w, cur, round, shutdownHeight).1 == StopHere(None)
            ==> Superseded(cur.priority, round) || (shutdownHeight.Some? && shutdownHeight.value < cur.end)
  {}

  /** What the loop offers to the scanner is a prefix of the split, and all of it unless the last batch
      offered fails, reaches the shutdown height, or turns up something more urgent. */
  lemma {:induction false} OffersAPrefix(w: WalletState, r: ScanRange, batchSize: nat, rounds: nat -> Round, n: nat,
                                         shutdownHeight: Option<nat>)
    requires r.start < r.end
    ensures var result := Recover(w, r, batchSize, rounds, n, shutdownHeight);
            && result.offered != [] && result.offered <= Chunks(r, batchSize)
            && var last := |result.offered| - 1;
            || result.offered == Chunks(r, batchSize)
            || result.fault.Some?
            || Superseded(r.priority, rounds(n + last))
            || (shutdownHeight.Some? && shutdownHeight.value < result.offered[last].end)
    decreases r.end - r.start
  {
    hide ScanBatch, Recover, Superseded;
    var split := SplitAt(r, r.start + batchSize);
    var cur := CutFrom(r, batchSize);
    StopsForAReason(w, cur, rounds(n), shutdownHeight);
    RecoverUnfolds(w, r, batchSize, rounds, n, shutdownHeight);
    var step := ScanBatch(w, cur, rounds(n), shutdownHeight);
    if step.1.GoOn? && split.Some? {
      OffersAPrefix(step.0, split.value.1, batchSize, rounds, n + 1, shutdownHeight);
      assert Chunks(r, batchSize) == [cur] + Chunks(split.value.1, batchSize);
    }
  }

  /** Scanning the batch neither fails nor reaches the shutdown height, and no range of a higher priority
      is suggested after it. */
  predicate GoesOn(w: WalletState, batch: ScanRange, priority: nat, shutdownHeight: Option<nat>, round: Round) {
    && ScanBlocks(w, batch.start, batch.end, shutdownHeight, round.world).1 == Ok(Flow.Continue)
    && (round.latestPriority.Some? ==> round.latestPriority.value <= priority)
  }

  /** Scanning the batch takes the wallet from `w` to `w'`. */
  predicate Takes(w: WalletState, w': WalletState, batch: ScanRange, shutdownHeight: Option<nat>, round: Round) {
    ScanBlocks(w, batch.start, batch.end, shutdownHeight, round.world).0 == w'
  }

  /** Scanning the batch fails with `fault`, or does not fail. */
  predicate EndsWith(w: WalletState, batch: ScanRange, shutdownHeight: Option<nat>, round: Round, fault: Option<SyncError>) {
    match ScanBlocks(w, batch.start, batch.end, shutdownHeight, round.world).1
    case Ok(_) => fault.None?
    case Err(e) => fault == Some(e)
  }

  lemma OneBatch(w: WalletState, batch: ScanRange, round: Round, shutdownHeight: Option<nat>)
    ensures var (w', verdict) := ScanBatch(w, batch, round, shutdownHeight);
            && Takes(w, w', batch, shutdownHeight, round)
            && (GoesOn(w, batch, batch.priority, shutdownHeight, round) <==> verdict.GoOn?)
            && EndsWith(w, batch, shutdownHeight, round, if verdict.GoOn? then None else verdict.fault)
  {
    hide ScanBlocks;
  }

  /** The wallets `ws` before each of the batches and after the last, scanned in turn from round `n` on,
      each going on but for the last. */
  ghost predicate Steps(ws: seq<WalletState>, offered: seq<ScanRange>, rounds: nat -> Round, n: nat, priority: nat,
                        shutdownHeight: Option<nat>)
  {
    && |ws| == |offered| + 1
    && (forall i :: 0 <= i < |offered| ==> Takes(ws[i], ws[i + 1], offered[i], shutdownHeight, rounds(n + i)))
    && (forall i :: 0 <= i < |offered| - 1 ==> GoesOn(ws[i], offered[i], priority, shutdownHeight, rounds(n + i)))
  }

  lemma OnlyStep(w: WalletState, w': WalletState, cur: ScanRange, rounds: nat -> Round, n: nat, priority: nat,
                 shutdownHeight: Option<nat>)
    requires Takes(w, w', cur, shutdownHeight, rounds(n))
    ensures Steps([w, w'], [cur], rounds, n, priority, shutdownHeight)
  {
    hide Takes, GoesOn;
  }

  lemma OneStepMore(w: WalletState, cur: ScanRange, ws: seq<WalletState>, offered: seq<ScanRange>, rounds: nat -> Round, n: nat,
                    priority: nat, shutdownHeight: Option<nat>)
    requires offered != [] && Steps(ws, offered, rounds, n + 1, priority, shutdownHeight)
    requires Takes(w, ws[0], cur, shutdownHeight, rounds(n)) && GoesOn(w, cur, priority, shutdownHeight, rounds(n))
    ensures Steps([w] + ws, [cur] + offered, rounds, n, priority, shutdownHeight)
  {
    hide Takes, GoesOn;
    var ws', offered' := [w] + ws, [cur] + offered;
    forall i | 0 <= i < |offered'| ensures Takes(ws'[i], ws'[i + 1], offered'[i], shutdownHeight, rounds(n + i)) {
      if i > 0 {
        assert Takes(ws[i - 1], ws[i], offered[i - 1], shutdownHeight, rounds((n + 1) + (i - 1)));
      }
    }
    forall i | 0 <= i < |offered'| - 1 ensures GoesOn(ws'[i], offered'[i], priority, shutdownHeight, rounds(n + i)) {
      if i > 0 {
        assert GoesOn(ws[i - 1], offered[i - 1], priority, shutdownHeight, rounds((n + 1) + (i - 1)));
      }
    }
  }

  /** The loop step by step. It goes on past a batch exactly if scanning it neither fails nor reaches the
      shutdown height and nothing more urgent is suggested then; and it ends with the failure of its last
      batch, if that fails. */
  lemma {:induction false} RecoversStepByStep(w: WalletState, r: ScanRange, batchSize: nat, rounds: nat -> Round, n: nat,
                                              shutdownHeight: Option<nat>)
    returns (ws: seq<WalletState>)
    ensures var result := Recover(w, r, batchSize, rounds, n, shutdownHeight);
            var last := |result.offered| - 1;
            && 0 <= last && |ws| == last + 2 && result.offered <= Chunks(r, batchSize)
            && Steps(ws, result.offered, rounds, n, r.priority, shutdownHeight)
            && ws[0] == w && ws[last + 1] == result.wallet
            && (result.offered != Chunks(r, batchSize) ==>
                  !GoesOn(ws[last], result.offered[last], r.priority, shutdownHeight, rounds(n + last)))
            && EndsWith(ws[last], result.offered[last], shutdownHeight, rounds(n + last), result.fault)
    decreases r.end - r.start
  {
    hide Recover, ScanBatch, GoesOn, Takes, EndsWith, Steps;
    var split := SplitAt(r, r.start + batchSize);
    var cur := CutFrom(r, batchSize);
    RecoverUnfolds(w, r, batchSize, rounds, n, shutdownHeight);
    OneBatch(w, cur, rounds(n), shutdownHeight);
    var step := ScanBatch(w, cur, rounds(n), shutdownHeight);
    if step.1.GoOn? && split.Some? {
      var next := split.value.1;
      var rest := RecoversStepByStep(step.0, next, batchSize, rounds, n + 1, shutdownHeight);
      var after := Recover(step.0, next, batchSize, rounds, n + 1, shutdownHeight);
      ws := [w] + rest;
      assert Chunks(r, batchSize) == [cur] + Chunks(next, batchSize);
      OneStepMore(w, cur, rest, after.offered, rounds, n, r.priority, shutdownHeight);
      assert rounds(n + |after.offered|) == rounds((n + 1) + (|after.offered| - 1));
    } else {
      ws := [w, step.0];
      OnlyStep(w, step.0, cur, rounds, n, r.priority, shutdownHeight);
    }
  }

  // ----- Batches do not show -----

  /** The blocks of the chain ending in `top` at the heights `start`, ..., `end - 1`. */
  function RunOf(top: BlockHash, start: nat, end: nat): seq<BlockHash>
    requires start <= end <= top.Height() + 1
  {
    seq(end - start, i requires 0 <= i < end - start => Ancestor(top, start + i))
  }

  /** A round against a view that includes `top`, on which nothing goes wrong or takes precedence. */
  ghost predicate Clean(round: Round, top: BlockHash, priority: nat) {
    && OnChain(round.world.tip, top) && round.world.treeFault.None?
    && round.world.decryptorUp && round.world.stores
    && (forall h :: round.world.blockReads(h) == Served)
    && (round.latestPriority.Some? ==> round.latestPriority.value <= priority)
  }

  ghost predicate AllClean(rounds: nat -> Round, top: BlockHash, priority: nat) {
    forall k: nat :: Clean(rounds(k), top, priority)
  }

  lemma {:induction false} QueuesTheRun(world: World, top: BlockHash, start: nat, end: nat)
    requires OnChain(world.tip, top) && world.decryptorUp && forall h :: world.blockReads(h) == Served
    requires start <= end <= top.Height() + 1 && 1 <= end
    ensures Queued(world, start, end - 1) == Ok(RunOf(top, start, end))
    decreases end - start
  {
    if start < end {
      QueuesTheRun(world, top, start + 1, end);
      SharedBelow(world.tip, top, start);
      assert RunOf(top, start, end) == [Ancestor(top, start)] + RunOf(top, start + 1, end);
    } else {
      assert RunOf(top, start, end) == [];
    }
  }

  lemma {:induction false} OneByOneInTwo(w: WalletState, front: seq<BlockHash>, back: seq<BlockHash>)
    ensures ScanOneByOne(w, front + back)
         == var (w', fault) := ScanOneByOne(w, front); if fault.Some? then (w', fault) else ScanOneByOne(w', back)
    decreases |front|
  {
    if front == [] {
      assert front + back == back;
    } else {
      assert (front + back)[1..] == front[1..] + back;
      var b := front[0];
      var r := ScanSingly(w, b, MetadataOf(if b.Mined? then b.parent else Genesis));
      if r.Ok? {
        OneByOneInTwo(r.value, front[1..], back);
      }
    }
  }

  // ----- What a recovery scans, whatever happens -----

  /** Blocks of the chain ending in `tip` at consecutive heights from `start` on, below `end` and below
      the shutdown height. */
  predicate StartsRun(tip: BlockHash, start: nat, end: nat, blocks: seq<BlockHash>, shutdownHeight: Option<nat>) {
    blocks != [] ==>
      var last := start + |blocks| - 1;
      && last < end && Below(last, shutdownHeight) && last <= tip.Height()
      && forall i :: 0 <= i < |blocks| ==> blocks[i] == Ancestor(tip, start + i)
  }

  lemma ScansARun(w: WalletState, start: nat, end: nat, shutdownHeight: Option<nat>, world: World) returns (blocks: seq<BlockHash>)
    requires start < end
    ensures ScanOneByOne(w, blocks) == (ScanBlocks(w, start, end, shutdownHeight, world).0, None)
    ensures StartsRun(world.tip, start, end, blocks, shutdownHeight)
  {
    hide Queued, RunOn, ScanAsBatch, ScanOneByOne;
    var w' := ScanBlocks(w, start, end, shutdownHeight, world).0;
    var stop := ClampedEnd(end, shutdownHeight);
    NothingToScan(w, MetadataOf(Genesis));
    blocks := [];
    if start == 0 {
      NothingScannedFromGenesis(w, end, shutdownHeight, world);
    } else if w' != w {
      blocks := Queued(world, start, stop - 1).value;
      QueuedIsARun(world, start, stop - 1);
      BatchIsOneByOne(w, Ancestor(world.tip, start - 1), blocks);
    }
  }

  lemma NothingScannedFromGenesis(w: WalletState, end: nat, shutdownHeight: Option<nat>, world: World)
    ensures ScanBlocks(w, 0, end, shutdownHeight, world).0 == w
  {
    hide Ancestor, Queued, ScanAsBatch;
    var last := SaturatingSub(ClampedEnd(end, shutdownHeight), 1);
    if Queued(world, 0, last).Ok? {
      GenesisIsNotScanned(w, last, world);
      NothingToScan(w, MetadataOf(Genesis));
      var blocks := Queued(world, 0, last).value;
      assert blocks == [] || ScanAsBatch(w, blocks, MetadataOf(Genesis)) == Err(ScanFailure);
    }
  }

  function Flatten(runs: seq<seq<BlockHash>>): seq<BlockHash> {
    if runs == [] then [] else runs[0] + Flatten(runs[1..])
  }

  /** Whatever fails, is clamped, reorganised or superseded on the way, a recovery has scanned, one by
      one, a run of blocks from the start of each batch it offered, on that round's view and below the
      shutdown height, and nothing else. */
  lemma {:induction false} RecoveringScansRuns(w: WalletState, r: ScanRange, batchSize: nat, rounds: nat -> Round, n: nat,
                                               shutdownHeight: Option<nat>)
    returns (scanned: seq<seq<BlockHash>>)
    requires r.start < r.end
    ensures var result := Recover(w, r, batchSize, rounds, n, shutdownHeight);
            && |scanned| == |result.offered|
            && (forall i :: 0 <= i < |scanned| ==>
                  StartsRun(rounds(n + i).world.tip, result.offered[i].start, result.offered[i].end, scanned[i],
                            shutdownHeight))
            && ScanOneByOne(w, Flatten(scanned)) == (result.wallet, None)
    decreases r.end - r.start
  {
    hide Recover, ScanBlocks, ScanOneByOne, StartsRun;
    var split := SplitAt(r, r.start + batchSize);
    var cur := CutFrom(r, batchSize);
    RecoverUnfolds(w, r, batchSize, rounds, n, shutdownHeight);
    var step := ScanBatch(w, cur, rounds(n), shutdownHeight);
    var blocks := ScansARun(w, cur.start, cur.end, shutdownHeight, rounds(n).world);
    if step.1.GoOn? && split.Some? {
      var rest := RecoveringScansRuns(step.0, split.value.1, batchSize, rounds, n + 1, shutdownHeight);
      scanned := [blocks] + rest;
      assert scanned[1..] == rest;
      OneByOneInTwo(w, blocks, Flatten(rest));
      var offered := Recover(w, r, batchSize, rounds, n, shutdownHeight).offered;
      forall i | 0 <= i < |scanned|
        ensures StartsRun(rounds(n + i).world.tip, offered[i].start, offered[i].end, scanned[i], shutdownHeight)
      {
        if i > 0 {
          assert offered[i] == offered[1..][i - 1] && scanned[i] == rest[i - 1];
          assert rounds(n + i) == rounds((n + 1) + (i - 1));
        }
      }
    } else {
      scanned := [blocks];
      assert scanned[1..] == [] && blocks + [] == blocks;
    }
  }

  // ----- Recovering all of a range -----

  /** Where a scan of `r` stops: at its end, or at the shutdown height. */
  function Reach(r: ScanRange, shutdownHeight: Option<nat>): (h: nat)
    requires r.start <= r.end
    ensures r.start <= h <= r.end
  {
    Max(r.start, ClampedEnd(r.end, shutdownHeight))
  }

  lemma QueuedRunScans(w: WalletState, r: ScanRange, world: World, blocks: seq<BlockHash>, shutdownHeight: Option<nat>)
    requires r.start < r.end && r.start <= world.tip.Height() + 1
    requires r.start < Reach(r, shutdownHeight) ==> Queued(world, r.start, Reach(r, shutdownHeight) - 1) == Ok(blocks)
    requires r.start == Reach(r, shutdownHeight) ==> blocks == []
    requires world.treeFault.None? && world.decryptorUp && world.stores
    requires ScanOneByOne(w, blocks).1.None?
    ensures ScanBlocks(w, r.start, r.end, shutdownHeight, world).0 == ScanOneByOne(w, blocks).0
    ensures var result := ScanBlocks(w, r.start, r.end, shutdownHeight, world).1;
            result.Ok? && (result.value == Flow.Continue <==> Reach(r, shutdownHeight) == r.end)
  {
    hide ScanOneByOne, Queued, ScanQueued, Ancestor;
    NothingToScan(w, MetadataOf(Genesis));
    if r.start < Reach(r, shutdownHeight) {
      ScanBlocksIsOneByOne(w, r.start, r.end, shutdownHeight, world);
    }
  }

  lemma CleanBatch(w: WalletState, cur: ScanRange, round: Round, top: BlockHash, shutdownHeight: Option<nat>)
    requires 1 <= cur.start < cur.end <= top.Height() + 1 && Clean(round, top, cur.priority)
    requires ScanOneByOne(w, RunOf(top, cur.start, Reach(cur, shutdownHeight))).1.None?
    ensures ScanBatch(w, cur, round, shutdownHeight)
         == (ScanOneByOne(w, RunOf(top, cur.start, Reach(cur, shutdownHeight))).0,
             if Reach(cur, shutdownHeight) == cur.end then GoOn else StopHere(None))
  {
    hide Ancestor, ScanOneByOne, ScanBlocks, Queued;
    var reach := Reach(cur, shutdownHeight);
    if cur.start < reach {
      QueuesTheRun(round.world, top, cur.start, reach);
    } else {
      assert RunOf(top, cur.start, reach) == [];
    }
    QueuedRunScans(w, cur, round.world, RunOf(top, cur.start, reach), shutdownHeight);
  }

  lemma RunInTwo(top: BlockHash, start: nat, mid: nat, end: nat)
    requires start <= mid <= end <= top.Height() + 1
    ensures RunOf(top, start, end) == RunOf(top, start, mid) + RunOf(top, mid, end)
  {
    hide Ancestor;
  }

  /** One batch of a clean recovery: the scan goes on where scanning its blocks one by one would be. */
  lemma CleanStep(w: WalletState, r: ScanRange, batchSize: nat, rounds: nat -> Round, n: nat,
                  shutdownHeight: Option<nat>, top: BlockHash)
    requires 1 <= r.start < r.end <= top.Height() + 1
    requires AllClean(rounds, top, r.priority)
    requires ScanOneByOne(w, RunOf(top, r.start, Reach(r, shutdownHeight))).1.None?
    ensures var cur := CutFrom(r, batchSize);
            && r.start < cur.end <= r.end
            && var mid, end := Reach(cur, shutdownHeight), Reach(r, shutdownHeight);
            && mid <= end && (mid != cur.end ==> mid == end)
            && var w' := ScanOneByOne(w, RunOf(top, r.start, mid)).0;
            && ScanBatch(w, cur, rounds(n), shutdownHeight) == (w', if mid == cur.end then GoOn else StopHere(None))
            && ScanOneByOne(w, RunOf(top, r.start, end)) == ScanOneByOne(w', RunOf(top, mid, end))
  {
    hide Ancestor, OnChain, RunOf, ScanOneByOne, ScanBatch, Clean;
    var cur := CutFrom(r, batchSize);
    var mid, end := Reach(cur, shutdownHeight), Reach(r, shutdownHeight);
    assert Clean(rounds(n), top, cur.priority);
    RunInTwo(top, r.start, mid, end);
    OneByOneInTwo(w, RunOf(top, r.start, mid), RunOf(top, mid, end));
    CleanBatch(w, cur, rounds(n), top, shutdownHeight);
  }

  /** Recovering a range in batches of any size, each against a fresh view, leaves the wallet that
      scanning the range's blocks below the shutdown height one by one would leave, as long as every
      view includes the range and nothing goes wrong. All of the range is then offered, unless the
      shutdown height cuts it short. */
  lemma {:induction false} RecoveringIsOneByOne(w: WalletState, r: ScanRange, batchSize: nat, rounds: nat -> Round, n: nat,
                                                shutdownHeight: Option<nat>, top: BlockHash)
    requires 1 <= r.start < r.end <= top.Height() + 1
    requires AllClean(rounds, top, r.priority)
    requires ScanOneByOne(w, RunOf(top, r.start, Reach(r, shutdownHeight))).1.None?
    ensures var result := Recover(w, r, batchSize, rounds, n, shutdownHeight);
            && result.wallet == ScanOneByOne(w, RunOf(top, r.start, Reach(r, shutdownHeight))).0
            && result.fault.None?
            && (Reach(r, shutdownHeight) == r.end ==> result.offered == Chunks(r, batchSize))
    decreases r.end - r.start
  {
    hide Ancestor, RunOf, ScanOneByOne, ScanBatch, AllClean, Recover;
    var split := SplitAt(r, r.start + batchSize);
    var cur := CutFrom(r, batchSize);
    var mid, end := Reach(cur, shutdownHeight), Reach(r, shutdownHeight);
    CleanStep(w, r, batchSize, rounds, n, shutdownHeight, top);
    RecoverUnfolds(w, r, batchSize, rounds, n, shutdownHeight);
    var w' := ScanOneByOne(w, RunOf(top, r.start, mid)).0;
    if mid == cur.end && split.Some? {
      RecoveringIsOneByOne(w', split.value.1, batchSize, rounds, n + 1, shutdownHeight, top);
    } else {
      EmptyRun(w', top, mid);
    }
  }

  lemma EmptyRun(w: WalletState, top: BlockHash, h: nat)
    requires h <= top.Height() + 1
    ensures ScanOneByOne(w, RunOf(top, h, h)) == (w, None)
  {
    assert RunOf(top, h, h) == [];
  }

  // ----- The boundary -----

  /** `r` covers exactly the heights of `q` below the boundary, of which there are some. */
  predicate TakenFrom(q: ScanRange, boundary: nat, r: ScanRange) {
    q.start < boundary && r == ScanRange(q.start, Min(q.end, boundary), q.priority)
  }

  /** The range the task takes next: the first of the suggested ones that reaches below the boundary,
      cut off there. */
  function NextRange(suggested: seq<ScanRange>, boundary: nat): (r: Option<ScanRange>)
    ensures r.None? <==> forall q :: q in suggested ==> boundary <= q.start
    ensures r.Some? ==>
              exists i :: 0 <= i < |suggested| && TakenFrom(suggested[i], boundary, r.value)
                          && forall j :: 0 <= j < i ==> boundary <= suggested[j].start
  {
    if suggested == [] then None
    else
      var first := TruncateEnd(suggested[0], boundary);
      if first.Some? then first else NextRange(suggested[1..], boundary)
  }

  /** The boundary is loaded once and may move on while the range is scanned, but it only moves up: no
      range taken with a value loaded earlier in the steady-state task's life reaches the boundary as
      it is at any later time, so the two tasks never meet. */
  lemma RangesStayBelowBoundary(s: SteadyState.SyncState, earlier: seq<SteadyState.Turn>, later: seq<SteadyState.Turn>,
                                shutdownHeight: Option<nat>, suggested: seq<ScanRange>)
    ensures var loaded := SteadyState.Run(s, earlier, shutdownHeight).0;
            var now := SteadyState.Run(loaded, later, shutdownHeight).0;
            var range := NextRange(suggested, loaded.boundary);
            range.Some? ==> forall h :: h in Heights(range.value) ==> h < now.boundary
  {
    SyncSafety.BoundaryRatchets(SteadyState.Run(s, earlier, shutdownHeight).0, later, shutdownHeight);
  }
}
