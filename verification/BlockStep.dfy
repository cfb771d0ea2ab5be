/** The steady-state task sees the scanning of one block only as a stored block or a failure. This is
    what the scanning step, with its tree states, nullifiers and transactions, comes down to. */
module BlockStep {
  import opened Chain
  import opened Scanning
  import opened Scanner
  import ForkSearch
  import SteadyState
  import SyncSafety

  /** How scanning one of the view's own blocks fails before anything is stored, if it does. */
  function FaultOf(w: WalletState, block: BlockHash, world: World): Option<SteadyState.ScanFault> {
    if world.treeFault.Some? then Some(SteadyState.TreeState(world.treeFault.value))
    else if !world.decryptorUp then Some(SteadyState.Decryptor)
    else if !Conflicts(w.blocks, block) && !world.stores then Some(SteadyState.Store)
    else None
  }

  /** The scanning step itself never fails on a block of the view it is given: its parent's tree state
      is there and it follows from it. */
  lemma ScanBlockComesDownTo(w: WalletState, next: nat, shutdownHeight: Option<nat>, world: World)
    requires 1 <= next <= world.tip.Height()
    ensures var block := Ancestor(world.tip, next);
            var fault := FaultOf(w, block, world);
            var (w', r) := ScanBlock(w, block, shutdownHeight, world);
            && block.Mined?
            && (w'.blocks == if r == Ok(Continue) then w.blocks[next := block] else w.blocks)
            && r == if !Below(next, shutdownHeight) then Ok(Break(next))
                    else if fault.Some? then Err(SteadyState.ScanError(fault.value))
                    else if Conflicts(w.blocks, block) then Err(BlockConflict(next))
                    else Ok(Continue)
  {
    AncestorParent(world.tip, next - 1);
    var block := Ancestor(world.tip, next);
    assert RunOn(block.parent, [block]) by {
      assert [block][1..] == [];
    }
    SingleScan(w, block.parent, [block]);
    hide Ancestor, ScanSingly;
  }

  /** So a step of the steady-state task over a wallet's record is the scanning step over the wallet. */
  lemma SteadyStateStoresWhatScanningStores(w: WalletState, s: SteadyState.SyncState, next: nat, view: ForkSearch.View,
                                            blocks: nat -> SteadyState.BlockAnswer, shutdownHeight: Option<nat>, world: World)
    requires world.tip == view.tip && next == s.prevTip.height + 1 <= view.tip.Height() && s.wallet == w.blocks
    requires blocks(next) == SteadyState.BlockAnswer(Served, FaultOf(w, Ancestor(view.tip, next), world), true)
    ensures var block := Ancestor(view.tip, next);
            var (w', r) := ScanBlock(w, block, shutdownHeight, world);
            SteadyState.ApplyBlocks(s, next, view, blocks, shutdownHeight)
            == match r
               case Err(e) => (s, Some(SteadyState.Failed(e)))
               case Ok(Break(h)) => (s, Some(SteadyState.Outcome.Break(h)))
               case Ok(Continue) =>
                 SteadyState.ApplyBlocks(s.(wallet := w'.blocks, prevTip := ChainBlock(next, block)), next + 1, view,
                                         blocks, shutdownHeight)
  {
    hide Ancestor, ScanBlock;
    ScanBlockComesDownTo(w, next, shutdownHeight, world);
  }

  // ----- Whole streams -----

  /** What the task meets at one height of a stream: the read, the world in which the block is scanned,
      and whether the new tip is recorded afterwards. */
  datatype Answer = Answer(read: Read, world: World, tipUpdates: bool)

  /** The task's block loop over the full wallet, from height `next` on. */
  function ScanStream(w: WalletState, next: nat, tip: BlockHash, answers: nat -> Answer, shutdownHeight: Option<nat>)
    : (WalletState, Option<SteadyState.Outcome>)
    decreases tip.Height() + 1 - next
  {
    if tip.Height() < next then (w, None)
    else match answers(next).read
      case Fails(e) => (w, Some(SteadyState.Failed(ChainFailure(e))))
      case Missing => (w, None)
      case Served =>
        var (w', r) := ScanBlock(w, Ancestor(tip, next), shutdownHeight, answers(next).world);
        match r
        case Err(e) => (w', Some(SteadyState.Failed(e)))
        case Ok(Break(h)) => (w', Some(SteadyState.Outcome.Break(h)))
        case Ok(Continue) =>
          if !answers(next).tipUpdates then (w', Some(SteadyState.Failed(Database)))
          else ScanStream(w', next + 1, tip, answers, shutdownHeight)
  }

  /** `blocks` is what the steady-state model sees of `answers`, from height `next` on. */
  ghost predicate Abstracts(blocks: nat -> SteadyState.BlockAnswer, answers: nat -> Answer, w: WalletState, next: nat,
                            tip: BlockHash)
  {
    forall k :: next <= k <= tip.Height() ==>
      && answers(k).world.tip == tip
      && blocks(k) == SteadyState.BlockAnswer(answers(k).read, FaultOf(w, Ancestor(tip, k), answers(k).world),
                                              answers(k).tipUpdates)
  }

  /** Scanning a block changes nothing about those above it. */
  lemma AbstractsOn(blocks: nat -> SteadyState.BlockAnswer, answers: nat -> Answer, w: WalletState, next: nat, tip: BlockHash,
                    shutdownHeight: Option<nat>)
    requires 1 <= next <= tip.Height() && Abstracts(blocks, answers, w, next, tip)
    ensures Abstracts(blocks, answers, ScanBlock(w, Ancestor(tip, next), shutdownHeight, answers(next).world).0, next + 1, tip)
  {
    hide Ancestor, ScanBlock;
    ScanBlockComesDownTo(w, next, shutdownHeight, answers(next).world);
  }

  /** The steady-state model's stream over a wallet's record is this stream over the wallet: the same
      blocks end up stored, and it stops for the same reason. */
  lemma {:induction false} StreamIsScanning(w: WalletState, s: SteadyState.SyncState, next: nat, view: ForkSearch.View,
                                            blocks: nat -> SteadyState.BlockAnswer, answers: nat -> Answer,
                                            shutdownHeight: Option<nat>)
    requires next == s.prevTip.height + 1 && s.wallet == w.blocks && Abstracts(blocks, answers, w, next, view.tip)
    ensures var (s', stop) := SteadyState.ApplyBlocks(s, next, view, blocks, shutdownHeight);
            var (w', stop') := ScanStream(w, next, view.tip, answers, shutdownHeight);
            s'.wallet == w'.blocks && stop == stop'
    decreases view.tip.Height() + 1 - next
  {
    hide Ancestor, ScanBlock, FaultOf;
    if next <= view.tip.Height() && answers(next).read == Served {
      var block := Ancestor(view.tip, next);
      ScanBlockComesDownTo(w, next, shutdownHeight, answers(next).world);
      AbstractsOn(blocks, answers, w, next, view.tip, shutdownHeight);
      var (w', r) := ScanBlock(w, block, shutdownHeight, answers(next).world);
      if r == Ok(Continue) && answers(next).tipUpdates {
        var onto := s.(wallet := w'.blocks, prevTip := ChainBlock(next, block));
        StreamIsScanning(w', onto, next + 1, view, blocks, answers, shutdownHeight);
      }
    }
  }

  /** What a stream has scanned: the view's blocks from height `next` on, one by one. All of them up to
      the tip, if nothing stops it and every read is served. */
  lemma {:induction false} StreamIsOneByOne(w: WalletState, next: nat, tip: BlockHash, answers: nat -> Answer,
                                            shutdownHeight: Option<nat>)
    returns (run: seq<BlockHash>)
    requires 1 <= next <= tip.Height() + 1 && forall k :: next <= k <= tip.Height() ==> answers(k).world.tip == tip
    ensures var (w', stop) := ScanStream(w, next, tip, answers, shutdownHeight);
            && next + |run| <= tip.Height() + 1
            && (forall i :: 0 <= i < |run| ==> run[i] == Ancestor(tip, next + i))
            && RunOn(Ancestor(tip, next - 1), run)
            && ScanOneByOne(w, run) == (w', None)
            && (stop.None? && (forall k :: next <= k <= tip.Height() ==> answers(k).read == Served)
                ==> next + |run| == tip.Height() + 1)
    decreases tip.Height() + 1 - next
  {
    hide Ancestor, ScanBlock, RunOn, ScanOneByOne;
    EmptyRun(w, Ancestor(tip, next - 1));
    run := [];
    if next <= tip.Height() && answers(next).read == Served {
      var block := Ancestor(tip, next);
      AncestorParent(tip, next - 1);
      OneScanned(w, next, tip, shutdownHeight, answers(next).world);
      var (w', r) := ScanBlock(w, block, shutdownHeight, answers(next).world);
      if r == Ok(Continue) {
        var rest := [];
        EmptyRun(w', block);
        if answers(next).tipUpdates {
          rest := StreamIsOneByOne(w', next + 1, tip, answers, shutdownHeight);
        }
        run := [block] + rest;
        LongerRun(w, w', block, rest);
      }
    }
  }

  lemma EmptyRun(w: WalletState, prior: BlockHash)
    ensures RunOn(prior, []) && ScanOneByOne(w, []) == (w, None)
  {}

  lemma LongerRun(w: WalletState, w': WalletState, block: BlockHash, rest: seq<BlockHash>)
    requires block.Mined? && ScanSingly(w, block, MetadataOf(block.parent)) == Ok(w') && RunOn(block, rest)
    ensures RunOn(block.parent, [block] + rest) && ScanOneByOne(w, [block] + rest) == ScanOneByOne(w', rest)
  {
    hide ScanSingly;
    assert ([block] + rest)[1..] == rest;
  }

  lemma OneScanned(w: WalletState, next: nat, tip: BlockHash, shutdownHeight: Option<nat>, world: World)
    requires 1 <= next <= tip.Height() && world.tip == tip
    ensures var block := Ancestor(tip, next);
            var (w', r) := ScanBlock(w, block, shutdownHeight, world);
            && block.Mined? && block.parent == Ancestor(tip, next - 1)
            && (r == Ok(Continue) ==> ScanSingly(w, block, MetadataOf(block.parent)) == Ok(w'))
            && (r != Ok(Continue) ==> w' == w)
  {
    AncestorParent(tip, next - 1);
    hide Ancestor, ScanSingly;
  }

  /** So a pass leaves the full wallet that scanning the view's blocks above the fork point one by one
      leaves, from the wallet `w` rewound to there: which blocks and which notes it has received and
      seen spent is then exactly known. */
  lemma PassScansTheView(s: SteadyState.SyncState, pass: SteadyState.Pass, shutdownHeight: Option<nat>,
                         view: ForkSearch.View, forkPoint: ChainBlock, w: WalletState, answers: nat -> Answer)
    returns (run: seq<BlockHash>, w': WalletState)
    requires pass.repin.snapshot == Ok(view) && SteadyState.TipOf(view) != s.prevTip
    requires SyncSafety.Located(s, view, pass.repin.birthday) == Ok(forkPoint) && forkPoint.height <= view.tip.Height()
    requires forkPoint == s.prevTip || (forkPoint.height < s.prevTip.height && pass.repin.truncates)
    requires w.blocks == SyncSafety.Rewound(s, forkPoint, view).wallet
    requires Abstracts(pass.blocks, answers, w, forkPoint.height + 1, view.tip)
    ensures SteadyState.Iterate(s, pass, shutdownHeight).0.wallet == w'.blocks
    ensures RunOn(Ancestor(view.tip, forkPoint.height), run) && ScanOneByOne(w, run) == (w', None)
    ensures forkPoint.height + |run| <= view.tip.Height()
    ensures forall b :: b in run ==> b.Mined?
    ensures forall n :: n in w'.received <==> n in w.received || exists b :: b in run && n in b.body.creates
    ensures forall n :: n in w'.spent <==> n in w.spent || exists i :: SpendsKnown(n, w.received, run, i)
  {
    hide Ancestor, ScanStream, SteadyState.Iterate, SyncSafety.Rewound, SyncSafety.Located, RunOn, ScanOneByOne,
      Abstracts, SpendsKnown;
    var next := forkPoint.height + 1;
    PassIsStream(s, pass, shutdownHeight, view, forkPoint, w, answers);
    WorldsPinned(pass.blocks, answers, w, next, view.tip);
    w' := ScanStream(w, next, view.tip, answers, shutdownHeight).0;
    run := StreamIsOneByOne(w, next, view.tip, answers, shutdownHeight);
    NoFaultNoConflict(w, Ancestor(view.tip, forkPoint.height), run);
    OneByOneNotes(w, Ancestor(view.tip, forkPoint.height), run);
  }

  lemma PassIsStream(s: SteadyState.SyncState, pass: SteadyState.Pass, shutdownHeight: Option<nat>,
                     view: ForkSearch.View, forkPoint: ChainBlock, w: WalletState, answers: nat -> Answer)
    requires pass.repin.snapshot == Ok(view) && SteadyState.TipOf(view) != s.prevTip
    requires SyncSafety.Located(s, view, pass.repin.birthday) == Ok(forkPoint) && forkPoint.height <= view.tip.Height()
    requires forkPoint == s.prevTip || (forkPoint.height < s.prevTip.height && pass.repin.truncates)
    requires w.blocks == SyncSafety.Rewound(s, forkPoint, view).wallet
    requires Abstracts(pass.blocks, answers, w, forkPoint.height + 1, view.tip)
    ensures SteadyState.Iterate(s, pass, shutdownHeight).0.wallet
         == ScanStream(w, forkPoint.height + 1, view.tip, answers, shutdownHeight).0.blocks
  {
    hide Ancestor, ScanStream, SteadyState.ApplyBlocks, SteadyState.Iterate, ForkSearch.LocateForkPoint, Abstracts;
    SyncSafety.PassUnfolds(s, pass, shutdownHeight);
    StreamIsScanning(w, SyncSafety.Rewound(s, forkPoint, view), forkPoint.height + 1, view, pass.blocks, answers, shutdownHeight);
  }

  lemma WorldsPinned(blocks: nat -> SteadyState.BlockAnswer, answers: nat -> Answer, w: WalletState, next: nat, tip: BlockHash)
    requires Abstracts(blocks, answers, w, next, tip)
    ensures forall k :: next <= k <= tip.Height() ==> answers(k).world.tip == tip
  {
    hide FaultOf;
  }

  // ----- The start of the task -----

  /** What initialization does last, once no range is left to scan: its best effort to scan the tip it
      hands over as the wallet's position. */
  function TipScan(w: WalletState, shutdownHeight: Option<nat>, world: World): WalletState {
    var height := world.tip.Height();
    if height == 0 || height in w.blocks || world.blockReads(height) != Served then w
    else ScanBlock(w, world.tip, shutdownHeight, world).0
  }

  /** The state that the steady-state task starts from, on the view's tip. */
  function StartOn(w: WalletState, boundary: nat, world: World): SteadyState.SyncState {
    SteadyState.SyncState(w.blocks, ChainBlock(world.tip.Height(), world.tip), boundary)
  }

  /** So the task starts from a wallet that meets its invariant exactly if the ranges scanned before left
      no other block at the tip's height, and from a recorded position exactly if the tip was recorded
      before or nothing kept it from being scanned. */
  lemma StartOfSteadyState(w: WalletState, boundary: nat, shutdownHeight: Option<nat>, world: World)
    requires Faithful(w.blocks)
    ensures var height := world.tip.Height();
            var s := StartOn(TipScan(w, shutdownHeight, world), boundary, world);
            && SyncSafety.WellFormed(s)
            && (SyncSafety.Sound(s) <==> !Conflicts(w.blocks, world.tip))
            && (SyncSafety.Anchored(s)
                <==> || (height in w.blocks && w.blocks[height] == world.tip)
                     || (&& 0 < height && height !in w.blocks && world.blockReads(height) == Served
                         && Below(height, shutdownHeight) && FaultOf(w, world.tip, world).None?))
  {
    hide ScanBlock;
    if 0 < world.tip.Height() {
      ScanBlockComesDownTo(w, world.tip.Height(), shutdownHeight, world);
    }
  }

  lemma {:induction false} QueueReaches(world: World, height: nat, last: nat, k: nat)
    requires Queued(world, height, last).Ok? && height <= k
    ensures k < height + |Queued(world, height, last).value|
        <==> k <= Min(last, world.tip.Height()) && forall j :: height <= j <= k ==> world.blockReads(j) == Served
    decreases k - height
  {
    if Queued(world, height, last).value != [] && height < k {
      QueueReaches(world, height + 1, last, k);
    }
  }

  /** Initialization also ends, with no tip scan, when scanning a range reaches the shutdown height. The
      start then meets the invariant on the same condition, and the position is recorded exactly if the
      tip was recorded before or is among the blocks that this last scan was served. */
  lemma StartAtShutdown(w: WalletState, boundary: nat, start: nat, end: nat, shutdownHeight: Option<nat>, world: World)
    requires Faithful(w.blocks)
    requires start < end && ScanBlocks(w, start, end, shutdownHeight, world).1.Ok?
    requires ScanBlocks(w, start, end, shutdownHeight, world).1.value.Break?
    ensures var height := world.tip.Height();
            var s := StartOn(ScanBlocks(w, start, end, shutdownHeight, world).0, boundary, world);
            && SyncSafety.WellFormed(s)
            && (SyncSafety.Sound(s) <==> !Conflicts(w.blocks, world.tip))
            && (SyncSafety.Anchored(s)
                <==> || (height in w.blocks && w.blocks[height] == world.tip)
                     || (&& 1 <= start <= height && Below(height, shutdownHeight)
                         && forall k :: start <= k <= height ==> world.blockReads(k) == Served))
  {
    hide Ancestor, Queued, RunOn, ScanAsBatch, ScanOneByOne;
    var w' := ScanBlocks(w, start, end, shutdownHeight, world).0;
    var stop := shutdownHeight.value;
    if start < stop {
      var blocks := Queued(world, start, stop - 1).value;
      if start == 0 {
        GenesisIsNotScanned(w, stop - 1, world);
        NothingToScan(w, MetadataOf(Genesis));
        assert blocks == [];
      } else {
        var prior := Ancestor(world.tip, start - 1);
        QueuedIsARun(world, start, stop - 1);
        BatchIsOneByOne(w, prior, blocks);
        NoFaultNoConflict(w, prior, blocks);
        OneByOneStores(w, prior, blocks);
        if start <= world.tip.Height() {
          QueueReaches(world, start, stop - 1, world.tip.Height());
        }
        forall i | 0 <= i < |blocks| ensures RecordedAt(w'.blocks, start + i, blocks[i]) {
          assert blocks[i].Height() == start + i;
        }
        TipAfterScan(w, w', world.tip, start, blocks);
      }
    }
  }

  predicate RecordedAt(m: BlockMap, h: nat, b: BlockHash) {
    h in m && m[h] == b
  }

  /** Storing blocks of the view's chain, none of them in conflict, leaves conflicts with its tip as they
      were, and the tip recorded if it was or is one of them. */
  lemma TipAfterScan(w: WalletState, w': WalletState, tip: BlockHash, start: nat, blocks: seq<BlockHash>)
    requires Faithful(w.blocks) && 1 <= start && (blocks == [] || start + |blocks| - 1 <= tip.Height())
    requires forall i :: 0 <= i < |blocks| ==> blocks[i] == Ancestor(tip, start + i) && !Conflicts(w.blocks, blocks[i])
    requires forall i :: 0 <= i < |blocks| ==> RecordedAt(w'.blocks, start + i, blocks[i])
    requires forall h :: h in w'.blocks ==> start <= h < start + |blocks| || (h in w.blocks && w'.blocks[h] == w.blocks[h])
    requires forall h :: h in w.blocks ==> h in w'.blocks && w'.blocks[h] == w.blocks[h]
    ensures Faithful(w'.blocks)
    ensures Conflicts(w'.blocks, tip) <==> Conflicts(w.blocks, tip)
    ensures var height := tip.Height();
            (height in w'.blocks && w'.blocks[height] == tip)
            <==> (height in w.blocks && w.blocks[height] == tip) || start <= height < start + |blocks|
  {
    forall h | h in w'.blocks ensures w'.blocks[h].Height() == h {
      if start <= h < start + |blocks| {
        assert RecordedAt(w'.blocks, start + (h - start), blocks[h - start]);
      }
    }
    if start <= tip.Height() < start + |blocks| {
      var i := tip.Height() - start;
      assert blocks[i] == tip && start + i == tip.Height();
    }
  }

  /** A tip left unscanned, by a wallet with nothing recorded below it either, is never stored later: the
      task only goes on above it. */
  lemma UnscannedTipStaysUnscanned(w: WalletState, boundary: nat, world: World, turns: seq<SteadyState.Turn>,
                                   shutdownHeight: Option<nat>)
    requires Faithful(w.blocks) && forall k :: k in w.blocks ==> world.tip.Height() < k
    ensures world.tip.Height() !in SteadyState.Run(StartOn(w, boundary, world), turns, shutdownHeight).0.wallet
  {
    SyncSafety.RunStaysAbove(StartOn(w, boundary, world), turns, shutdownHeight, world.tip.Height());
  }
}
