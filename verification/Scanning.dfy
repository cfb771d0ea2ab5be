/** Scanning blocks into the wallet, one at a time or in batches, below the height at which this
    build no longer follows the consensus rules. */
module Scanning {
  import opened Chain

  datatype Flow = Continue | Break(height: nat)

  // ----- Clamping a range -----

  datatype Clamp = Stop(height: nat) | Scan(boundary: Option<nat>)

  function ClampToBoundary(start: nat, end: nat, shutdownHeight: Option<nat>): Clamp {
    var stop := if shutdownHeight.Some? then Min(shutdownHeight.value, end) else end;
    if stop <= start then Stop(stop) else if stop < end then Scan(Some(stop)) else Scan(None)
  }

  /** A non-empty range is scanned exactly at its heights below the shutdown height, and a stop is
      signalled, at that height, exactly when some height was left out. */
  lemma ClampExact(start: nat, end: nat, shutdownHeight: Option<nat>)
    requires start < end
    ensures var r := ClampToBoundary(start, end, shutdownHeight);
            match r
            case Stop(h) => shutdownHeight == Some(h) && forall k :: start <= k < end ==> !Below(k, shutdownHeight)
            case Scan(b) =>
              && (forall k: nat :: start <= k < (if b.Some? then b.value else end)
                                   <==> start <= k < end && Below(k, shutdownHeight))
              && (b.Some? ==> b == shutdownHeight)
              && (b.Some? <==> exists k: nat :: start <= k < end && !Below(k, shutdownHeight))
  {
    if shutdownHeight.Some? && shutdownHeight.value < end {
      assert !Below(Max(start, shutdownHeight.value), shutdownHeight);
    }
  }

  // ----- The wallet, and what scanning a block finds -----

  /** What the wallet stores: for each scanned height the block and the size of its note commitment
      tree; the nullifiers of the notes it received; and those it has seen spent. */
  datatype WalletState = WalletState(blocks: BlockMap, sizes: map<nat, nat>, received: set<Nullifier>, spent: set<Nullifier>)

  function Unspent(w: WalletState): set<Nullifier> {
    w.received - w.spent
  }

  datatype BlockMetadata = BlockMetadata(height: nat, hash: BlockHash, treeSize: nat)

  function MetadataOf(b: BlockHash): BlockMetadata {
    BlockMetadata(b.Height(), b, TreeSize(b))
  }

  datatype ScannedBlock = ScannedBlock(metadata: BlockMetadata, received: set<Nullifier>, detected: set<Nullifier>)

  /** Scanning one block on top of `prior`, looking for spends of `nullifiers`. Fails unless the block
      follows `prior`. */
  function ScanOnTop(b: BlockHash, nullifiers: set<Nullifier>, prior: BlockMetadata): Option<ScannedBlock> {
    if !b.Mined? || b.Height() != prior.height + 1 || b.parent != prior.hash then None
    else Some(ScannedBlock(BlockMetadata(b.Height(), b, prior.treeSize + b.body.outputs),
                           b.body.creates, b.body.spends * nullifiers))
  }

  /** The nullifiers still to be looked for after a block. */
  function UpdatedWith(nullifiers: set<Nullifier>, scanned: ScannedBlock): set<Nullifier> {
    (nullifiers - scanned.detected) + scanned.received
  }

  function PutBlock(w: WalletState, s: ScannedBlock): WalletState {
    WalletState(w.blocks[s.metadata.height := s.metadata.hash], w.sizes[s.metadata.height := s.metadata.treeSize],
                w.received + s.received, w.spent + s.detected)
  }

  /** Storing a run of scanned blocks is all or nothing. */
  function PutBlocks(w: WalletState, scanned: seq<ScannedBlock>): Result<WalletState, SyncError>
    decreases |scanned|
  {
    if scanned == [] then Ok(w)
    else
      var m := scanned[0].metadata;
      if m.height in w.blocks && w.blocks[m.height] != m.hash then Err(BlockConflict(m.height))
      else PutBlocks(PutBlock(w, scanned[0]), scanned[1..])
  }

  // ----- The two ways to scan a run of blocks -----

  /** Scanning a run without storing anything in between: nullifiers and metadata are carried along. */
  function ScanRun(blocks: seq<BlockHash>, nullifiers: set<Nullifier>, prior: BlockMetadata): Option<seq<ScannedBlock>>
    decreases |blocks|
  {
    if blocks == [] then Some([])
    else match ScanOnTop(blocks[0], nullifiers, prior)
      case None => None
      case Some(s) =>
        match ScanRun(blocks[1..], UpdatedWith(nullifiers, s), s.metadata)
        case None => None
        case Some(rest) => Some([s] + rest)
  }

  /** Scanning and storing a run in one go. */
  function ScanAsBatch(w: WalletState, blocks: seq<BlockHash>, from: BlockMetadata): Result<WalletState, SyncError> {
    match ScanRun(blocks, Unspent(w), from)
    case None => Err(ScanFailure)
    case Some(scanned) => PutBlocks(w, scanned)
  }

  /** Scanning and storing one block, against what the wallet and the chain hold now. */
  function ScanSingly(w: WalletState, b: BlockHash, from: BlockMetadata): Result<WalletState, SyncError> {
    match ScanOnTop(b, Unspent(w), from)
    case None => Err(ScanFailure)
    case Some(s) => PutBlocks(w, [s])
  }

  /** The same run, one block after another: the state reached, and the failure that ended it, if any. */
  function ScanOneByOne(w: WalletState, blocks: seq<BlockHash>): (WalletState, Option<SyncError>)
    decreases |blocks|
  {
    if blocks == [] then (w, None)
    else
      match ScanSingly(w, blocks[0], MetadataOf(if blocks[0].Mined? then blocks[0].parent else Genesis))
      case Err(e) => (w, Some(e))
      case Ok(w') => ScanOneByOne(w', blocks[1..])
  }

  /** A parent-linked run of blocks on top of `prior`. */
  predicate RunOn(prior: BlockHash, blocks: seq<BlockHash>)
    decreases |blocks|
  {
    blocks == [] || (blocks[0].Mined? && blocks[0].parent == prior && RunOn(blocks[0], blocks[1..]))
  }

  /** What is carried along covers what the wallet would still be looking for, and beyond that only
      what it has already seen spent. */
  predicate Carries(nullifiers: set<Nullifier>, w: WalletState) {
    Unspent(w) <= nullifiers <= Unspent(w) + w.spent
  }

  lemma CarryingStep(w: WalletState, nullifiers: set<Nullifier>, b: BlockHash, prior: BlockMetadata)
    requires Carries(nullifiers, w) && ScanOnTop(b, nullifiers, prior).Some?
    ensures var s, t := ScanOnTop(b, nullifiers, prior).value, ScanOnTop(b, Unspent(w), prior).value;
            && PutBlock(w, s) == PutBlock(w, t)
            && Carries(UpdatedWith(nullifiers, s), PutBlock(w, s))
  {
    var s, t := ScanOnTop(b, nullifiers, prior).value, ScanOnTop(b, Unspent(w), prior).value;
    assert w.spent + s.detected == w.spent + t.detected;
  }

  /** The first block of a run scans on top of what precedes it, and the rest is a run on top of it. */
  lemma FirstOfRun(prior: BlockHash, blocks: seq<BlockHash>, nullifiers: set<Nullifier>)
    requires RunOn(prior, blocks) && blocks != []
    ensures var b := blocks[0];
            && b.Mined? && b.parent == prior && RunOn(b, blocks[1..])
            && ScanOnTop(b, nullifiers, MetadataOf(prior))
               == Some(ScannedBlock(MetadataOf(b), b.body.creates, b.body.spends * nullifiers))
  {}

  /** The wallet after one block that does not clash. */
  function After(w: WalletState, b: BlockHash): WalletState
    requires b.Mined?
  {
    PutBlock(w, ScannedBlock(MetadataOf(b), b.body.creates, b.body.spends * Unspent(w)))
  }

  lemma SingleScan(w: WalletState, prior: BlockHash, blocks: seq<BlockHash>)
    requires RunOn(prior, blocks) && blocks != []
    ensures blocks[0].Mined?
    ensures ScanSingly(w, blocks[0], MetadataOf(prior))
         == if Conflicts(w.blocks, blocks[0]) then Err(BlockConflict(blocks[0].Height())) else Ok(After(w, blocks[0]))
  {
    FirstOfRun(prior, blocks, Unspent(w));
    var s := ScanOnTop(blocks[0], Unspent(w), MetadataOf(prior)).value;
    assert [s][1..] == [];
    assert PutBlocks(PutBlock(w, s), []) == Ok(PutBlock(w, s));
  }

  lemma {:induction false} CarriedRunIsOneByOne(w: WalletState, nullifiers: set<Nullifier>, prior: BlockHash, blocks: seq<BlockHash>)
    requires Carries(nullifiers, w) && RunOn(prior, blocks)
    ensures var scanned := ScanRun(blocks, nullifiers, MetadataOf(prior));
            var (w', fault) := ScanOneByOne(w, blocks);
            && scanned.Some? && |scanned.value| == |blocks|
            && PutBlocks(w, scanned.value) == (if fault.Some? then Err(fault.value) else Ok(w'))
            && (fault.Some? ==> fault.value.BlockConflict?)
    decreases |blocks|
  {
    if blocks != [] {
      FirstOfRun(prior, blocks, nullifiers);
      FirstOfRun(prior, blocks, Unspent(w));
      CarryingStep(w, nullifiers, blocks[0], MetadataOf(prior));
      var s := ScanOnTop(blocks[0], nullifiers, MetadataOf(prior)).value;
      CarriedRunIsOneByOne(PutBlock(w, s), UpdatedWith(nullifiers, s), blocks[0], blocks[1..]);
      var rest := ScanRun(blocks[1..], UpdatedWith(nullifiers, s), s.metadata).value;
      assert ([s] + rest)[1..] == rest;
      SingleScan(w, prior, blocks);
    }
  }

  /** Whatever the wallet holds, scanning a run as one batch and scanning it block by block agree: if no
      block clashes with one already stored, they end in the same wallet; if one does, both fail on it,
      and only the batch leaves the wallet as it was. */
  lemma BatchIsOneByOne(w: WalletState, prior: BlockHash, blocks: seq<BlockHash>)
    requires RunOn(prior, blocks)
    ensures var (w', fault) := ScanOneByOne(w, blocks);
            && ScanAsBatch(w, blocks, MetadataOf(prior)) == (if fault.Some? then Err(fault.value) else Ok(w'))
            && (fault.Some? ==> fault.value.BlockConflict?)
  {
    CarriedRunIsOneByOne(w, Unspent(w), prior, blocks);
  }

  lemma {:induction false} HeightsInRun(prior: BlockHash, blocks: seq<BlockHash>, i: nat)
    requires RunOn(prior, blocks) && i < |blocks|
    ensures blocks[i].Height() == prior.Height() + 1 + i
    decreases i
  {
    if i > 0 {
      HeightsInRun(blocks[0], blocks[1..], i - 1);
    }
  }

  lemma RestDoesNotClash(w: WalletState, prior: BlockHash, blocks: seq<BlockHash>)
    requires RunOn(prior, blocks) && blocks != [] && forall i :: 0 <= i < |blocks| ==> !Conflicts(w.blocks, blocks[i])
    ensures blocks[0].Mined? && forall i :: 0 <= i < |blocks| - 1 ==> !Conflicts(After(w, blocks[0]).blocks, blocks[1..][i])
  {
    var tail := blocks[1..];
    forall i | 0 <= i < |tail| ensures !Conflicts(After(w, blocks[0]).blocks, tail[i]) {
      assert tail[i] == blocks[i + 1];
      HeightsInRun(blocks[0], tail, i);
    }
  }

  /** Scanning a run to its end means that none of its blocks was in conflict. */
  lemma {:induction false} NoFaultNoConflict(w: WalletState, prior: BlockHash, blocks: seq<BlockHash>)
    requires RunOn(prior, blocks) && ScanOneByOne(w, blocks).1.None?
    ensures forall i :: 0 <= i < |blocks| ==> !Conflicts(w.blocks, blocks[i])
    decreases |blocks|
  {
    hide Conflicts;
    if blocks != [] {
      FirstOfRun(prior, blocks, Unspent(w));
      SingleScan(w, prior, blocks);
      NoFaultNoConflict(After(w, blocks[0]), blocks[0], blocks[1..]);
      forall i | 0 <= i < |blocks| ensures !Conflicts(w.blocks, blocks[i]) {
        if i > 0 {
          assert blocks[i] == blocks[1..][i - 1];
          HeightsInRun(prior, blocks, i);
          StoringElsewhere(w, blocks[0], blocks[i]);
        }
      }
    }
  }

  /** And it fails exactly on the first block in conflict, if there is one. */
  lemma {:induction false} ConflictsExactly(w: WalletState, prior: BlockHash, blocks: seq<BlockHash>, i: nat)
    requires RunOn(prior, blocks) && i < |blocks|
    requires Conflicts(w.blocks, blocks[i]) && forall j :: 0 <= j < i ==> !Conflicts(w.blocks, blocks[j])
    ensures ScanOneByOne(w, blocks).1 == Some(BlockConflict(blocks[i].Height()))
    decreases i
  {
    hide Conflicts;
    FirstOfRun(prior, blocks, Unspent(w));
    SingleScan(w, prior, blocks);
    if i > 0 {
      var tail, next := blocks[1..], After(w, blocks[0]);
      forall j | 0 <= j <= i - 1 ensures Conflicts(next.blocks, tail[j]) <==> Conflicts(w.blocks, blocks[j + 1]) {
        assert tail[j] == blocks[j + 1];
        HeightsInRun(blocks[0], tail, j);
        StoringElsewhere(w, blocks[0], tail[j]);
      }
      ConflictsExactly(next, blocks[0], tail, i - 1);
    }
  }

  lemma StoringElsewhere(w: WalletState, b: BlockHash, other: BlockHash)
    requires b.Mined? && b.Height() != other.Height()
    ensures Conflicts(After(w, b).blocks, other) <==> Conflicts(w.blocks, other)
  {}

  /** What block-by-block scanning stores: each block of the run, with its tree size, on top of what
      was there. */
  lemma {:induction false} OneByOneStores(w: WalletState, prior: BlockHash, blocks: seq<BlockHash>)
    requires RunOn(prior, blocks) && forall i :: 0 <= i < |blocks| ==> !Conflicts(w.blocks, blocks[i])
    ensures var (w', fault) := ScanOneByOne(w, blocks);
            && fault.None?
            && (forall i :: 0 <= i < |blocks| ==> var h := blocks[i].Height();
                  && h == prior.Height() + 1 + i
                  && h in w'.blocks && w'.blocks[h] == blocks[i]
                  && h in w'.sizes && w'.sizes[h] == TreeSize(blocks[i]))
            && (forall h :: h in w'.blocks ==> prior.Height() < h <= prior.Height() + |blocks|
                                               || (h in w.blocks && w'.blocks[h] == w.blocks[h]))
            && (forall h :: h in w.blocks ==> h in w'.blocks && w'.blocks[h] == w.blocks[h])
            && (forall h :: h in w.sizes && h <= prior.Height() ==> h in w'.sizes && w'.sizes[h] == w.sizes[h])
    decreases |blocks|
  {
    if blocks != [] {
      FirstOfRun(prior, blocks, Unspent(w));
      SingleScan(w, prior, blocks);
      var tail, next := blocks[1..], After(w, blocks[0]);
      RestDoesNotClash(w, prior, blocks);
      OneByOneStores(next, blocks[0], tail);
      forall i | 0 <= i < |blocks| ensures blocks[i] == if i == 0 then blocks[0] else tail[i - 1] {}
    }
  }

  /** Block `i` of the run spends a note that was received before the run or in an earlier block of it. */
  predicate SpendsKnown(n: Nullifier, received: set<Nullifier>, blocks: seq<BlockHash>, i: nat)
    requires forall b :: b in blocks ==> b.Mined?
  {
    && i < |blocks| && n in blocks[i].body.spends
    && (n in received || exists j :: 0 <= j < i && n in blocks[j].body.creates)
  }

  lemma KnownSpends(n: Nullifier, received: set<Nullifier>, blocks: seq<BlockHash>)
    requires blocks != [] && forall b :: b in blocks ==> b.Mined?
    ensures blocks[0].Mined?
    ensures (exists i :: SpendsKnown(n, received, blocks, i))
        <==> (n in received && n in blocks[0].body.spends)
             || exists i :: SpendsKnown(n, received + blocks[0].body.creates, blocks[1..], i)
  {
    var rest, received' := blocks[1..], received + blocks[0].body.creates;
    assert blocks[0] in blocks;
    assert forall i :: 0 <= i < |rest| ==> rest[i] == blocks[i + 1];
    if i: nat :| SpendsKnown(n, received, blocks, i) {
      if i > 0 {
        if n !in received {
          var j :| 0 <= j < i && n in blocks[j].body.creates;
          assert j > 0 ==> n in rest[j - 1].body.creates;
        }
        assert SpendsKnown(n, received', rest, i - 1);
      }
    }
    if n in received && n in blocks[0].body.spends {
      assert SpendsKnown(n, received, blocks, 0);
    }
    if i: nat :| SpendsKnown(n, received', rest, i) {
      if n !in received' {
        var j :| 0 <= j < i && n in rest[j].body.creates;
        assert n in blocks[j + 1].body.creates;
      }
      assert SpendsKnown(n, received, blocks, i + 1);
    }
  }

  /** What block-by-block scanning, and so a batch, knows about notes afterwards: it has received
      exactly what the run creates besides, and seen spent exactly what the run spends of the notes
      received before, be it earlier in the same run. */
  lemma {:induction false} OneByOneNotes(w: WalletState, prior: BlockHash, blocks: seq<BlockHash>)
    requires RunOn(prior, blocks) && forall i :: 0 <= i < |blocks| ==> !Conflicts(w.blocks, blocks[i])
    ensures forall b :: b in blocks ==> b.Mined?
    ensures var (w', fault) := ScanOneByOne(w, blocks);
            && fault.None?
            && (forall n :: n in w'.received <==> n in w.received || exists b :: b in blocks && n in b.body.creates)
            && (forall n :: n in w'.spent <==> n in w.spent || exists i :: SpendsKnown(n, w.received, blocks, i))
    decreases |blocks|
  {
    hide Conflicts;
    if blocks != [] {
      SingleScan(w, prior, blocks);
      FirstOfRun(prior, blocks, Unspent(w));
      var tail, next := blocks[1..], After(w, blocks[0]);
      RestDoesNotClash(w, prior, blocks);
      OneByOneNotes(next, blocks[0], tail);
      assert blocks == [blocks[0]] + tail;
      forall n ensures n in ScanOneByOne(w, blocks).0.spent
                 <==> n in w.spent || exists i :: SpendsKnown(n, w.received, blocks, i)
      {
        KnownSpends(n, w.received, blocks);
      }
    }
  }

  // ----- Detecting spends -----

  /** The spends a batch reports, block by block. */
  function BatchDetections(blocks: seq<BlockHash>, nullifiers: set<Nullifier>): seq<set<Nullifier>>
    requires forall b :: b in blocks ==> b.Mined?
    decreases |blocks|
  {
    if blocks == [] then []
    else
      var found := blocks[0].body.spends * nullifiers;
      [found] + BatchDetections(blocks[1..], (nullifiers - found) + blocks[0].body.creates)
  }

  /** The spends reported one block at a time. */
  function SingleDetections(w: WalletState, blocks: seq<BlockHash>): seq<set<Nullifier>>
    requires forall b :: b in blocks ==> b.Mined?
    decreases |blocks|
  {
    if blocks == [] then []
    else [blocks[0].body.spends * Unspent(w)] + SingleDetections(After(w, blocks[0]), blocks[1..])
  }

  predicate SpentLater(nullifiers: set<Nullifier>, blocks: seq<BlockHash>)
    requires forall b :: b in blocks ==> b.Mined?
  {
    exists i :: 0 <= i < |blocks| && blocks[i].body.spends * nullifiers != {}
  }

  /** Some block of the run creates a note that the wallet already knows to be spent by the time the
      block is scanned, and a later block of the run spends it: a run scanned for the second time. */
  predicate RevisitsSpentNote(w: WalletState, blocks: seq<BlockHash>)
    requires forall b :: b in blocks ==> b.Mined?
    decreases |blocks|
  {
    blocks != [] &&
    var w' := After(w, blocks[0]);
    SpentLater(blocks[0].body.creates * w'.spent, blocks[1..]) || RevisitsSpentNote(w', blocks[1..])
  }

  lemma {:induction false} DetectionsDiffer(w: WalletState, nullifiers: set<Nullifier>, blocks: seq<BlockHash>)
    requires Carries(nullifiers, w) && forall b :: b in blocks ==> b.Mined?
    ensures BatchDetections(blocks, nullifiers) == SingleDetections(w, blocks)
        <==> !SpentLater(nullifiers * w.spent, blocks) && !RevisitsSpentNote(w, blocks)
    decreases |blocks|
  {
    if blocks != [] {
      var b, rest := blocks[0], blocks[1..];
      var stale := nullifiers * w.spent;
      var found := b.body.spends * nullifiers;
      var w' := After(w, b);
      var carried := (nullifiers - found) + b.body.creates;
      var batch, single := BatchDetections(rest, carried), SingleDetections(w', rest);
      assert SpentLater(stale, blocks) <==> b.body.spends * stale != {} || SpentLater(stale, rest) by {
        assert forall i :: 0 <= i < |rest| ==> rest[i] == blocks[i + 1];
        if i :| 0 <= i < |rest| && rest[i].body.spends * stale != {} {
          assert blocks[i + 1].body.spends * stale != {};
        }
      }
      var all, each := [found] + batch, [b.body.spends * Unspent(w)] + single;
      assert all[0] == found && each[0] == b.body.spends * Unspent(w) && all[1..] == batch && each[1..] == single;
      if b.body.spends * stale == {} {
        assert forall n :: n in found && n !in Unspent(w) ==> n in b.body.spends * stale;
        assert found == b.body.spends * Unspent(w);
        DetectionsDiffer(w', carried, rest);
        var revived := b.body.creates * w'.spent;
        assert carried * w'.spent == stale + revived;
        assert SpentLater(stale + revived, rest) <==> SpentLater(stale, rest) || SpentLater(revived, rest) by {
          forall i | 0 <= i < |rest|
            ensures rest[i].body.spends * (stale + revived) != {}
                <==> rest[i].body.spends * stale != {} || rest[i].body.spends * revived != {}
          {
            assert rest[i].body.spends * (stale + revived) == rest[i].body.spends * stale + rest[i].body.spends * revived;
          }
        }
      } else {
        var n :| n in b.body.spends * stale;
        assert n in found && n !in Unspent(w);
      }
    }
  }

  /** These are the spends a batch reports; a single scan of a block on its parent reports, by
      `SingleScan`, what `After` adds to the spent notes. */
  lemma {:induction false} BatchReports(nullifiers: set<Nullifier>, prior: BlockHash, blocks: seq<BlockHash>)
    requires RunOn(prior, blocks)
    ensures forall b :: b in blocks ==> b.Mined?
    ensures var scanned := ScanRun(blocks, nullifiers, MetadataOf(prior));
            && scanned.Some? && |scanned.value| == |blocks| == |BatchDetections(blocks, nullifiers)|
            && forall i :: 0 <= i < |blocks| ==> scanned.value[i].detected == BatchDetections(blocks, nullifiers)[i]
    decreases |blocks|
  {
    if blocks != [] {
      FirstOfRun(prior, blocks, nullifiers);
      var s := ScanOnTop(blocks[0], nullifiers, MetadataOf(prior)).value;
      BatchReports(UpdatedWith(nullifiers, s), blocks[0], blocks[1..]);
      assert blocks == [blocks[0]] + blocks[1..];
    }
  }

  /** A batch reports the same spends as block-by-block scanning exactly unless it revisits a note that
      was already spent. Either way the wallets end up the same. */
  lemma DetectionsAgree(w: WalletState, blocks: seq<BlockHash>)
    requires forall b :: b in blocks ==> b.Mined?
    ensures BatchDetections(blocks, Unspent(w)) == SingleDetections(w, blocks) <==> !RevisitsSpentNote(w, blocks)
  {
    assert Unspent(w) * w.spent == {};
    DetectionsDiffer(w, Unspent(w), blocks);
  }

  /** The exception does happen: a batch that scans for a second time a block in which a note was
      received and the next one, in which it was spent, reports the spend again; scanned one by one the
      blocks report nothing new. */
  lemma RevisitedSpendIsReportedTwice(prior: BlockHash)
    ensures var received := Mined(prior, Body(0, 1, {7}, {}));
            var blocks := [received, Mined(received, Body(0, 0, {}, {7}))];
            var w := ScanOneByOne(WalletState(map[], map[], {}, {}), blocks).0;
            && RunOn(prior, blocks)
            && BatchDetections(blocks, Unspent(w)) == [{}, {7}]
            && SingleDetections(w, blocks) == [{}, {}]
  {
    var received := Mined(prior, Body(0, 1, {7}, {}));
    var spending := Mined(received, Body(0, 0, {}, {7}));
    var blocks := [received, spending];
    assert blocks[1..] == [spending] && [spending][1..] == [];
    var w := ScanOneByOne(WalletState(map[], map[], {}, {}), blocks).0;
    assert w.received == {7} && w.spent == {7} by {
      ScannedOnce(prior);
    }
    assert spending.body.spends * {7} == {7};
    assert BatchDetections([spending], {7}) == [{7}] + BatchDetections([], ({7} - {7}) + {});
    assert received.body.spends * Unspent(w) == {} && (Unspent(w) - {}) + {7} == {7};
    var next := After(w, received);
    assert spending.body.spends * Unspent(next) == {};
    assert SingleDetections(next, [spending]) == [{}];
  }

  lemma ScannedOnce(prior: BlockHash)
    ensures var received := Mined(prior, Body(0, 1, {7}, {}));
            var blocks := [received, Mined(received, Body(0, 0, {}, {7}))];
            var w := ScanOneByOne(WalletState(map[], map[], {}, {}), blocks).0;
            w.received == {7} && w.spent == {7}
  {
    var received := Mined(prior, Body(0, 1, {7}, {}));
    var blocks := [received, Mined(received, Body(0, 0, {}, {7}))];
    var empty := WalletState(map[], map[], {}, {});
    assert blocks[1..] == [blocks[1]] && [blocks[1]][1..] == [];
    assert RunOn(prior, blocks);
    OneByOneNotes(empty, prior, blocks);
    var w := ScanOneByOne(empty, blocks).0;
    assert blocks[0] in blocks && 7 in blocks[0].body.creates;
    assert forall b :: b in blocks ==> b == blocks[0] || b == blocks[1];
    assert SpendsKnown(7, {}, blocks, 1);
  }
}
