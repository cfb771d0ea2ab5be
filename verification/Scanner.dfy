/** The two scanning steps of the sync tasks, as they run against a chain view and the wallet. */
module Scanner {
  import opened Chain
  import opened Scanning

  /** What one scanning step meets outside the wallet: the view, the failure to read its tree state,
      how each block read goes, whether the batch decryptor is up, and whether the database stores. */
  datatype World = World(tip: BlockHash, treeFault: Option<ChainError>, blockReads: nat -> Read, decryptorUp: bool, stores: bool)

  /** The view's tree state as of a height; none above its tip. */
  function TreeStateAsOf(world: World, h: nat): Result<Option<BlockMetadata>, ChainError> {
    if world.treeFault.Some? then Err(world.treeFault.value)
    else Ok(if h <= world.tip.Height() then Some(MetadataOf(Ancestor(world.tip, h))) else None)
  }

  /** The blocks that a stream over the heights from `height` to `last` yields, each handed to the
      batch decryptor as it comes. */
  function Queued(world: World, height: nat, last: nat): Result<seq<BlockHash>, SyncError>
    decreases last + 1 - height
  {
    if last < height || world.tip.Height() < height then Ok([])
    else match world.blockReads(height)
      case Fails(e) => Err(ChainFailure(e))
      case Missing => Ok([])
      case Served =>
        if !world.decryptorUp then Err(BatchDecryptorUnavailable)
        else match Queued(world, height + 1, last)
          case Err(e) => Err(e)
          case Ok(rest) => Ok([Ancestor(world.tip, height)] + rest)
  }

  /** Scanning an unclamped run and storing it. */
  function ScanQueued(w: WalletState, start: nat, end: nat, from: BlockMetadata, world: World): Result<WalletState, SyncError> {
    match Queued(world, start, SaturatingSub(end, 1))
    case Err(e) => Err(e)
    case Ok(blocks) =>
      match ScanAsBatch(w, blocks, from)
      case Err(e) => Err(e)
      case Ok(w') => if world.stores then Ok(w') else Err(Database)
  }

  function ScanBlocks(w: WalletState, start: nat, end: nat, shutdownHeight: Option<nat>, world: World)
    : (WalletState, Result<Flow, SyncError>)
  {
    match ClampToBoundary(start, end, shutdownHeight)
    case Stop(h) => (w, Ok(Break(h)))
    case Scan(boundary) =>
      match TreeStateAsOf(world, SaturatingSub(start, 1))
      case Err(e) => (w, Err(ChainFailure(e)))
      case Ok(None) => (w, Ok(Continue))
      case Ok(Some(from)) =>
        match ScanQueued(w, start, if boundary.Some? then boundary.value else end, from, world)
        case Err(e) => (w, Err(e))
        case Ok(w') => (w', Ok(if boundary.Some? then Break(boundary.value) else Continue))
  }

  function ScanBlock(w: WalletState, block: BlockHash, shutdownHeight: Option<nat>, world: World)
    : (WalletState, Result<Flow, SyncError>)
  {
    var height := block.Height();
    if !Below(height, shutdownHeight) then (w, Ok(Break(height)))
    else match TreeStateAsOf(world, SaturatingSub(height, 1))
      case Err(e) => (w, Err(ChainFailure(e)))
      case Ok(None) => (w, Err(ChainFailure(Backend)))
      case Ok(Some(from)) =>
        if !world.decryptorUp then (w, Err(BatchDecryptorUnavailable))
        else match ScanSingly(w, block, from)
          case Err(e) => (w, Err(e))
          case Ok(w') => if world.stores then (w', Ok(Continue)) else (w, Err(Database))
  }

  // ----- The steps as they run -----

  class Wallet {
    var blocks: BlockMap
    var sizes: map<nat, nat>
    var received: set<Nullifier>
    var spent: set<Nullifier>

    constructor ()
      ensures State() == WalletState(map[], map[], {}, {})
    {
      blocks, sizes, received, spent := map[], map[], {}, {};
    }

    function State(): WalletState
      reads this
    {
      WalletState(blocks, sizes, received, spent)
    }

    /** Storing is one database transaction. */
    method Store(scanned: seq<ScannedBlock>, stores: bool) returns (fault: Option<SyncError>)
      modifies this
      ensures match PutBlocks(old(State()), scanned)
              case Err(e) => fault == Some(e) && State() == old(State())
              case Ok(w') => if stores then fault.None? && State() == w' else fault == Some(Database) && State() == old(State())
    {
      var w := State();
      for i := 0 to |scanned|
        invariant PutBlocks(old(State()), scanned) == PutBlocks(w, scanned[i..])
        invariant State() == old(State())
      {
        var m := scanned[i].metadata;
        if m.height in w.blocks && w.blocks[m.height] != m.hash {
          return Some(BlockConflict(m.height));
        }
        assert scanned[i..][1..] == scanned[i + 1..];
        w := PutBlock(w, scanned[i]);
      }
      if !stores {
        return Some(Database);
      }
      blocks, sizes, received, spent := w.blocks, w.sizes, w.received, w.spent;
      return None;
    }

    /** Reads the blocks and queues them for batch decryption. */
    method Queue(start: nat, last: nat, world: World) returns (r: Result<seq<BlockHash>, SyncError>)
      ensures r == Queued(world, start, last)
    {
      hide Ancestor;
      var batch: seq<BlockHash> := [];
      var height := start;
      while height <= last && height <= world.tip.Height() && world.blockReads(height) != Missing
        invariant var all := Queued(world, start, last);
                  match Queued(world, height, last)
                  case Err(e) => all == Err(e)
                  case Ok(rest) => all.Ok? && all.value == batch + rest
        decreases last + 1 - height
      {
        if world.blockReads(height).Fails? {
          return Err(ChainFailure(world.blockReads(height).error));
        }
        if !world.decryptorUp {
          return Err(BatchDecryptorUnavailable);
        }
        batch := batch + [Ancestor(world.tip, height)];
        height := height + 1;
      }
      assert batch + [] == batch;
      return Ok(batch);
    }

    /** Scans each block of a batch on top of the one before, storing nothing yet. */
    method ScanEach(batch: seq<BlockHash>, fromState: BlockMetadata) returns (r: Option<seq<ScannedBlock>>)
      ensures r == ScanRun(batch, Unspent(State()), fromState)
    {
      var nullifiers := Unspent(State());
      var priorBlockMetadata := fromState;
      var scannedBlocks: seq<ScannedBlock> := [];
      for i := 0 to |batch|
        invariant var all := ScanRun(batch, Unspent(State()), fromState);
                  match ScanRun(batch[i..], nullifiers, priorBlockMetadata)
                  case None => all.None?
                  case Some(rest) => all.Some? && all.value == scannedBlocks + rest
      {
        assert batch[i..][1..] == batch[i + 1..];
        var scanned := ScanOnTop(batch[i], nullifiers, priorBlockMetadata);
        if scanned.None? {
          return None;
        }
        nullifiers := UpdatedWith(nullifiers, scanned.value);
        priorBlockMetadata := scanned.value.metadata;
        scannedBlocks := scannedBlocks + [scanned.value];
      }
      assert scannedBlocks + [] == scannedBlocks;
      return Some(scannedBlocks);
    }

    method ScanBlocksInto(start: nat, end: nat, shutdownHeight: Option<nat>, world: World) returns (r: Result<Flow, SyncError>)
      modifies this
      ensures (State(), r) == ScanBlocks(old(State()), start, end, shutdownHeight, world)
    {
      var clamp := ClampToBoundary(start, end, shutdownHeight);
      if clamp.Stop? {
        return Ok(Break(clamp.height));
      }
      var stop := if clamp.boundary.Some? then clamp.boundary.value else end;
      var treeState := TreeStateAsOf(world, SaturatingSub(start, 1));
      if treeState.Err? {
        return Err(ChainFailure(treeState.error));
      }
      if treeState.value.None? {
        return Ok(Continue);
      }
      var batch := Queue(start, SaturatingSub(stop, 1), world);
      if batch.Err? {
        return Err(batch.error);
      }
      var scannedBlocks := ScanEach(batch.value, treeState.value.value);
      if scannedBlocks.None? {
        return Err(ScanFailure);
      }
      var fault := Store(scannedBlocks.value, world.stores);
      if fault.Some? {
        return Err(fault.value);
      }
      return Ok(if clamp.boundary.Some? then Break(clamp.boundary.value) else Continue);
    }

    method ScanBlockInto(block: BlockHash, shutdownHeight: Option<nat>, world: World) returns (r: Result<Flow, SyncError>)
      modifies this
      ensures (State(), r) == ScanBlock(old(State()), block, shutdownHeight, world)
    {
      var height := block.Height();
      if shutdownHeight.Some? && shutdownHeight.value <= height {
        return Ok(Break(height));
      }
      var treeState := TreeStateAsOf(world, SaturatingSub(height, 1));
      if treeState.Err? {
        return Err(ChainFailure(treeState.error));
      }
      if treeState.value.None? {
        return Err(ChainFailure(Backend));
      }
      if !world.decryptorUp {
        return Err(BatchDecryptorUnavailable);
      }
      var scanned := ScanOnTop(block, Unspent(State()), treeState.value.value);
      if scanned.None? {
        return Err(ScanFailure);
      }
      var fault := Store([scanned.value], world.stores);
      if fault.Some? {
        return Err(fault.value);
      }
      return Ok(Continue);
    }
  }

  // ----- What the steps guarantee -----

  /** A stream yields a gap-free run of the view's chain, within the heights asked for. */
  lemma {:induction false} QueuedIsARun(world: World, height: nat, last: nat)
    requires 1 <= height <= world.tip.Height() + 1 && Queued(world, height, last).Ok?
    ensures var blocks := Queued(world, height, last).value;
            && RunOn(Ancestor(world.tip, height - 1), blocks)
            && (blocks == [] || height + |blocks| - 1 <= Min(last, world.tip.Height()))
            && (forall i :: 0 <= i < |blocks| ==> blocks[i] == Ancestor(world.tip, height + i))
    decreases last + 1 - height
  {
    if Queued(world, height, last).value != [] {
      QueuedIsARun(world, height + 1, last);
      AncestorParent(world.tip, height - 1);
      var rest := Queued(world, height + 1, last).value;
      assert ([Ancestor(world.tip, height)] + rest)[1..] == rest;
    }
  }

  function ClampedEnd(end: nat, shutdownHeight: Option<nat>): nat {
    if shutdownHeight.Some? then Min(shutdownHeight.value, end) else end
  }

  /** The genesis block follows nothing, so a range that starts with it is never scanned. */
  lemma GenesisIsNotScanned(w: WalletState, last: nat, world: World)
    requires Queued(world, 0, last).Ok?
    ensures var blocks := Queued(world, 0, last).value;
            && MetadataOf(Ancestor(world.tip, 0)) == MetadataOf(Genesis)
            && (blocks != [] ==> ScanAsBatch(w, blocks, MetadataOf(Genesis)) == Err(ScanFailure)
                                 && ScanOneByOne(w, blocks) == (w, Some(ScanFailure)))
  {
    hide Ancestor;
    assert Ancestor(world.tip, 0) == Genesis;
  }

  lemma NothingToScan(w: WalletState, from: BlockMetadata)
    ensures ScanAsBatch(w, [], from) == Ok(w) && ScanOneByOne(w, []) == (w, None)
  {}

  /** When queueing fails on a read: it is the first one that does not succeed, on a block of the range
      and the view, and the decryptor has taken every block before. */
  ghost predicate ReadFails(world: World, height: nat, last: nat, e: ChainError) {
    exists k :: ReadFailsAt(world, height, last, k, e)
  }

  predicate ReadFailsAt(world: World, height: nat, last: nat, k: nat, e: ChainError) {
    && height <= k <= Min(last, world.tip.Height()) && world.blockReads(k) == Fails(e)
    && (height < k ==> world.decryptorUp)
    && forall j :: height <= j < k ==> world.blockReads(j) == Served
  }

  lemma {:induction false} QueueFailsExactly(world: World, height: nat, last: nat, e: ChainError)
    ensures Queued(world, height, last) == Err(ChainFailure(e)) <==> ReadFails(world, height, last, e)
    decreases last + 1 - height
  {
    hide Ancestor;
    assert ReadFailsAt(world, height, last, height, e)
      <==> height <= Min(last, world.tip.Height()) && world.blockReads(height) == Fails(e);
    if height <= last && height <= world.tip.Height() && world.blockReads(height) == Served && world.decryptorUp {
      var next := height + 1;
      QueueFailsExactly(world, next, last, e);
      if k: nat :| ReadFailsAt(world, height, last, k, e) {
        assert ReadFailsAt(world, next, last, k, e);
      }
      if k: nat :| ReadFailsAt(world, next, last, k, e) {
        assert ReadFailsAt(world, height, last, k, e);
      }
    }
  }

  /** Queueing fails for want of the decryptor exactly when it is down and the first block is there; and
      there is no third way to fail. */
  lemma {:induction false} QueueLacksDecryptorExactly(world: World, height: nat, last: nat)
    ensures Queued(world, height, last) == Err(BatchDecryptorUnavailable)
        <==> !world.decryptorUp && height <= Min(last, world.tip.Height()) && world.blockReads(height) == Served
    ensures var r := Queued(world, height, last);
            r.Ok? || r.error == BatchDecryptorUnavailable || (r.error.ChainFailure? && ReadFails(world, height, last, r.error.error))
    decreases last + 1 - height
  {
    var r := Queued(world, height, last);
    if height <= last && height <= world.tip.Height() && world.blockReads(height) == Served && world.decryptorUp {
      QueueLacksDecryptorExactly(world, height + 1, last);
    }
    if r.Err? && r.error.ChainFailure? {
      QueueFailsExactly(world, height, last, r.error.error);
    }
  }

  /** Scanning a range does what scanning each of its streamed blocks in turn does, clamped below the
      shutdown height, except that a clash leaves the wallet as it was; so does a failure of the tree
      state, the queue or the database, which is passed on. */
  lemma ScanBlocksIsOneByOne(w: WalletState, start: nat, end: nat, shutdownHeight: Option<nat>, world: World)
    requires start < end && Below(start, shutdownHeight)
    ensures var stop := ClampedEnd(end, shutdownHeight);
            var queued := Queued(world, start, stop - 1);
            var after := ScanBlocks(w, start, end, shutdownHeight, world);
            if world.treeFault.Some? then after == (w, Err(ChainFailure(world.treeFault.value)))
            else if world.tip.Height() + 1 < start then after == (w, Ok(Continue))
            else if queued.Err? then after == (w, Err(queued.error))
            else
              var singly := ScanOneByOne(w, queued.value);
              if singly.1.Some? then after == (w, Err(singly.1.value))
              else if !world.stores then after == (w, Err(Database))
              else after == (singly.0, Ok(if stop < end then Break(stop) else Continue))
  {
    hide Ancestor, Queued, RunOn, ScanAsBatch, ScanOneByOne;
    var stop := ClampedEnd(end, shutdownHeight);
    if start <= world.tip.Height() + 1 && Queued(world, start, stop - 1).Ok? {
      if start == 0 {
        GenesisIsNotScanned(w, stop - 1, world);
        NothingToScan(w, MetadataOf(Genesis));
      } else {
        QueuedIsARun(world, start, stop - 1);
        BatchIsOneByOne(w, Ancestor(world.tip, start - 1), Queued(world, start, stop - 1).value);
      }
    }
  }

  /** So a range scan fails on the chain exactly when the tree state or the first unsuccessful read does,
      and for want of the decryptor exactly when it is down and there is a block to scan. */
  lemma ScanBlocksFailsExactly(w: WalletState, start: nat, end: nat, shutdownHeight: Option<nat>, world: World, e: ChainError)
    requires start < end && Below(start, shutdownHeight)
    ensures var last := ClampedEnd(end, shutdownHeight) - 1;
            var r := ScanBlocks(w, start, end, shutdownHeight, world).1;
            && (r == Err(ChainFailure(e))
                <==> || world.treeFault == Some(e)
                     || (world.treeFault.None? && start <= world.tip.Height() + 1 && ReadFails(world, start, last, e)))
            && (r == Err(BatchDecryptorUnavailable)
                <==> && world.treeFault.None? && !world.decryptorUp
                     && start <= Min(last, world.tip.Height()) && world.blockReads(start) == Served)
  {
    hide Queued, ScanBlocks, ScanOneByOne, ReadFails;
    var last := ClampedEnd(end, shutdownHeight) - 1;
    ScanBlocksIsOneByOne(w, start, end, shutdownHeight, world);
    QueueFailsExactly(world, start, last, e);
    QueueLacksDecryptorExactly(world, start, last);
    if Queued(world, start, last).Ok? {
      ScanningFaults(w, Queued(world, start, last).value);
    }
  }

  lemma {:induction false} ScanningFaults(w: WalletState, blocks: seq<BlockHash>)
    ensures var fault := ScanOneByOne(w, blocks).1;
            fault.Some? ==> fault.value == ScanFailure || fault.value.BlockConflict?
    decreases |blocks|
  {
    if blocks != [] {
      var r := ScanSingly(w, blocks[0], MetadataOf(if blocks[0].Mined? then blocks[0].parent else Genesis));
      var scanned := ScanOnTop(blocks[0], Unspent(w), MetadataOf(if blocks[0].Mined? then blocks[0].parent else Genesis));
      if r.Ok? {
        ScanningFaults(r.value, blocks[1..]);
      } else if scanned.Some? {
        StoringFaults(w, [scanned.value]);
      }
    }
  }

  lemma {:induction false} StoringFaults(w: WalletState, scanned: seq<ScannedBlock>)
    ensures var r := PutBlocks(w, scanned); r.Err? ==> r.error.BlockConflict?
    decreases |scanned|
  {
    if scanned != [] {
      StoringFaults(PutBlock(w, scanned[0]), scanned[1..]);
    }
  }

  /** A single scan fails for want of a tree state when the block is not directly above the view's chain. */
  lemma BlockAheadOfView(w: WalletState, block: BlockHash, shutdownHeight: Option<nat>, world: World)
    requires Below(block.Height(), shutdownHeight)
    ensures world.tip.Height() + 1 < block.Height() ==>
              ScanBlock(w, block, shutdownHeight, world)
              == (w, Err(ChainFailure(if world.treeFault.Some? then world.treeFault.value else Backend)))
  {}

  /** A range scan that fails leaves the wallet as it was; so does one past the view's tip, which is
      passed over rather than failed; and it only ever breaks off at the shutdown height. */
  lemma ScanBlocksIsAllOrNothing(w: WalletState, start: nat, end: nat, shutdownHeight: Option<nat>, world: World)
    requires start < end
    ensures var (w', r) := ScanBlocks(w, start, end, shutdownHeight, world);
            && (r.Err? ==> w' == w)
            && (r.Ok? && r.value.Break? ==> shutdownHeight == Some(r.value.height) && r.value.height < end)
            && (r == Ok(Continue) ==> shutdownHeight.Some? && world.treeFault.None? ==>
                  end <= shutdownHeight.value || world.tip.Height() + 1 < start)
            && (world.tip.Height() + 1 < start && world.treeFault.None? && Below(start, shutdownHeight) ==>
                  w' == w && r == Ok(Continue))
  {
    hide Ancestor, Queued, ScanAsBatch;
  }

  lemma {:induction false} StoringStaysBelow(w: WalletState, scanned: seq<ScannedBlock>, shutdownHeight: Option<nat>)
    requires StaysBelow(w.blocks, shutdownHeight) && PutBlocks(w, scanned).Ok?
    requires forall s :: s in scanned ==> Below(s.metadata.height, shutdownHeight)
    ensures StaysBelow(PutBlocks(w, scanned).value.blocks, shutdownHeight)
    decreases |scanned|
  {
    if scanned != [] {
      assert scanned[0] in scanned;
      StoringStaysBelow(PutBlock(w, scanned[0]), scanned[1..], shutdownHeight);
    }
  }

  /** A run scans to blocks at its own heights. */
  lemma {:induction false} ScannedHeights(blocks: seq<BlockHash>, nullifiers: set<Nullifier>, prior: BlockMetadata)
    requires ScanRun(blocks, nullifiers, prior).Some?
    ensures var scanned := ScanRun(blocks, nullifiers, prior).value;
            |scanned| == |blocks| && forall i :: 0 <= i < |scanned| ==> scanned[i].metadata.height == blocks[i].Height()
    decreases |blocks|
  {
    if blocks != [] {
      var s := ScanOnTop(blocks[0], nullifiers, prior).value;
      ScannedHeights(blocks[1..], UpdatedWith(nullifiers, s), s.metadata);
    }
  }

  lemma {:induction false} QueuedHeights(world: World, height: nat, last: nat)
    requires Queued(world, height, last).Ok?
    ensures forall b :: b in Queued(world, height, last).value ==> height <= b.Height() <= last
    decreases last + 1 - height
  {
    if Queued(world, height, last).value != [] {
      QueuedHeights(world, height + 1, last);
    }
  }

  /** Everything the three sync tasks do to the wallet's blocks: scan a range, scan one block, and
      rewind (what a rewind does to notes is left open). */
  datatype Op =
    | Range(start: nat, end: nat, world: World)
    | Single(block: BlockHash, world: World)
    | Rewind(height: nat, received: set<Nullifier>, spent: set<Nullifier>)

  function Perform(w: WalletState, op: Op, shutdownHeight: Option<nat>): WalletState {
    match op
    case Range(start, end, world) => ScanBlocks(w, start, end, shutdownHeight, world).0
    case Single(block, world) => ScanBlock(w, block, shutdownHeight, world).0
    case Rewind(h, received, spent) => WalletState(TruncateTo(w.blocks, h), TruncateSizes(w.sizes, h), received, spent)
  }

  function TruncateSizes(m: map<nat, nat>, h: nat): map<nat, nat> {
    map k | k in m && k <= h :: m[k]
  }

  function PerformAll(w: WalletState, ops: seq<Op>, shutdownHeight: Option<nat>): WalletState
    decreases |ops|
  {
    if ops == [] then w else PerformAll(Perform(w, ops[0], shutdownHeight), ops[1..], shutdownHeight)
  }

  lemma PerformingStaysBelow(w: WalletState, op: Op, shutdownHeight: Option<nat>)
    requires StaysBelow(w.blocks, shutdownHeight)
    ensures StaysBelow(Perform(w, op, shutdownHeight).blocks, shutdownHeight)
  {
    match op {
      case Range(start, end, world) =>
        var clamp := ClampToBoundary(start, end, shutdownHeight);
        var from := TreeStateAsOf(world, SaturatingSub(start, 1));
        if clamp.Scan? && from.Ok? && from.value.Some? {
          var stop := if clamp.boundary.Some? then clamp.boundary.value else end;
          var queued := Queued(world, start, SaturatingSub(stop, 1));
          if queued.Ok? && ScanRun(queued.value, Unspent(w), from.value.value).Some? {
            var scanned := ScanRun(queued.value, Unspent(w), from.value.value).value;
            QueuedHeights(world, start, SaturatingSub(stop, 1));
            ScannedHeights(queued.value, Unspent(w), from.value.value);
            forall s | s in scanned ensures Below(s.metadata.height, shutdownHeight) {
              var i :| 0 <= i < |scanned| && scanned[i] == s;
              assert queued.value[i] in queued.value;
            }
            if PutBlocks(w, scanned).Ok? {
              StoringStaysBelow(w, scanned, shutdownHeight);
            }
          }
        }
      case Single(block, world) =>
        var from := TreeStateAsOf(world, SaturatingSub(block.Height(), 1));
        if from.Ok? && from.value.Some? && Below(block.Height(), shutdownHeight) {
          var scanned := ScanOnTop(block, Unspent(w), from.value.value);
          if scanned.Some? && PutBlocks(w, [scanned.value]).Ok? {
            StoringStaysBelow(w, [scanned.value], shutdownHeight);
          }
        }
      case Rewind(_, _, _) =>
    }
  }

  /** However the tasks interleave, on whatever views and ranges, no block at or above the shutdown
      height is ever stored. */
  lemma {:induction false} NothingStoredAtShutdown(w: WalletState, ops: seq<Op>, shutdownHeight: Option<nat>)
    requires StaysBelow(w.blocks, shutdownHeight)
    ensures StaysBelow(PerformAll(w, ops, shutdownHeight).blocks, shutdownHeight)
    decreases |ops|
  {
    if ops != [] {
      PerformingStaysBelow(w, ops[0], shutdownHeight);
      NothingStoredAtShutdown(Perform(w, ops[0], shutdownHeight), ops[1..], shutdownHeight);
    }
  }
}
