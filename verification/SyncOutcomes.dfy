/** How passes, recoveries, turns and runs of the steady-state task end, on the answers they get. */
module SyncOutcomes {
  import opened Chain
  import opened Locator
  import opened ForkSearch
  import opened SteadyState
  import opened SyncSafety

  // ----- Streams -----

  /** The block at height `k` is read, scanned, stored, and recorded as the wallet's tip. */
  predicate Passes(m: BlockMap, k: nat, tip: BlockHash, blocks: nat -> BlockAnswer, shutdownHeight: Option<nat>)
    requires k <= tip.Height()
  {
    blocks(k) == BlockAnswer(Served, None, true) && Below(k, shutdownHeight) && !Conflicts(m, Ancestor(tip, k))
  }

  ghost predicate AllPass(m: BlockMap, from: nat, to: nat, tip: BlockHash, blocks: nat -> BlockAnswer, shutdownHeight: Option<nat>)
    requires to <= tip.Height() + 1
  {
    forall k :: from <= k < to ==> Passes(m, k, tip, blocks, shutdownHeight)
  }

  /** A block that passes does not matter to those above it. */
  lemma PassingOn(m: BlockMap, k: nat, to: nat, tip: BlockHash, blocks: nat -> BlockAnswer, shutdownHeight: Option<nat>)
    requires k < to <= tip.Height() + 1
    ensures AllPass(m, k, to, tip, blocks, shutdownHeight)
        <==> Passes(m, k, tip, blocks, shutdownHeight)
             && AllPass(m[k := Ancestor(tip, k)], k + 1, to, tip, blocks, shutdownHeight)
  {
    hide Ancestor;
    var m' := m[k := Ancestor(tip, k)];
    forall j | k < j < to ensures Passes(m, j, tip, blocks, shutdownHeight) <==> Passes(m', j, tip, blocks, shutdownHeight) {}
  }

  /** A stream in which everything passes up to height `k` comes that far; one in which everything
      passes up to the tip drains. */
  lemma {:induction false} StreamComesTo(s: SyncState, next: nat, k: nat, view: View, blocks: nat -> BlockAnswer,
                                         shutdownHeight: Option<nat>)
    returns (t: SyncState)
    requires next == s.prevTip.height + 1 && next <= k <= view.tip.Height() + 1
    requires AllPass(s.wallet, next, k, view.tip, blocks, shutdownHeight)
    ensures ApplyBlocks(s, next, view, blocks, shutdownHeight) == ApplyBlocks(t, k, view, blocks, shutdownHeight)
    ensures t.prevTip.height == k - 1 && t.boundary == s.boundary
    ensures t.prevTip == if k == next then s.prevTip else ChainBlock(k - 1, Ancestor(view.tip, k - 1))
    ensures forall h :: h in t.wallet && k <= h ==> h in s.wallet && t.wallet[h] == s.wallet[h]
    ensures forall h :: h in s.wallet && k <= h ==> h in t.wallet
    decreases k - next
  {
    hide Ancestor;
    t := s;
    if next < k {
      PassingOn(s.wallet, next, k, view.tip, blocks, shutdownHeight);
      assert Passes(s.wallet, next, view.tip, blocks, shutdownHeight);
      t := StreamComesTo(Onto(s, next, view.tip), next + 1, k, view, blocks, shutdownHeight);
    }
  }

  /** How a stream ends at the first block that does not pass: each thing that can go wrong, in the
      order in which the task would notice. */
  lemma StreamEnds(s: SyncState, next: nat, k: nat, view: View, blocks: nat -> BlockAnswer, shutdownHeight: Option<nat>)
    requires next == s.prevTip.height + 1 && next <= k <= view.tip.Height() + 1
    requires AllPass(s.wallet, next, k, view.tip, blocks, shutdownHeight)
    ensures var (t, stop) := ApplyBlocks(s, next, view, blocks, shutdownHeight);
            && (k == view.tip.Height() + 1 ==> stop.None? && t.prevTip.height == k - 1)
            && (k <= view.tip.Height() ==>
                  var a := blocks(k);
                  && (a.read == Missing ==> stop.None? && t.prevTip.height == k - 1)
                  && (a.read.Fails? ==> stop == Some(Failed(ChainFailure(a.read.error))) && t.prevTip.height == k - 1)
                  && (a.read == Served && !Below(k, shutdownHeight) ==> stop == Some(Break(k)) && t.prevTip.height == k - 1)
                  && (a.read == Served && Below(k, shutdownHeight) ==>
                        && (a.scanFault == Some(Scan) ==> stop == Some(Failed(ScanFailure)))
                        && (a.scanFault == Some(Decryptor) ==> stop == Some(Failed(BatchDecryptorUnavailable)))
                        && (a.scanFault == Some(Store) ==> stop == Some(Failed(Database)))
                        && (a.scanFault.Some? && a.scanFault.value.TreeState? ==>
                              stop == Some(Failed(ChainFailure(a.scanFault.value.error))))
                        && (a.scanFault.None? && Conflicts(s.wallet, Ancestor(view.tip, k)) ==>
                              stop == Some(Failed(BlockConflict(k))))
                        && (a.scanFault.None? && !Conflicts(s.wallet, Ancestor(view.tip, k)) && !a.tipUpdates ==>
                              stop == Some(Failed(Database)))))
  {
    hide Ancestor, AllPass;
    var t := StreamComesTo(s, next, k, view, blocks, shutdownHeight);
    assert k <= view.tip.Height() ==> (Conflicts(t.wallet, Ancestor(view.tip, k)) <==> Conflicts(s.wallet, Ancestor(view.tip, k)));
  }

  // ----- Turns -----

  /** A chain failure ends the task unless it is that the view has gone stale. */
  function OnChainFailure(e: ChainError): Status {
    match e
    case Unavailable => Running
    case InvalidData => Stopped(ChainFailure(InvalidData))
    case Backend => Stopped(ChainFailure(Backend))
  }

  /** How a turn ends whose pass has failed with `e`, other than by a conflict. */
  ghost predicate EndsOn(status: Status, e: SyncError) {
    && (e.ChainFailure? ==> status == OnChainFailure(e.error))
    && (!e.ChainFailure? && !e.BlockConflict? ==> status == Stopped(e))
  }

  /** How a turn ends once its pass has caught up with its view: by shutting down if the view reaches
      the shutdown height, and otherwise as its mempool stream does. */
  ghost predicate EndsCaughtUp(status: Status, view: View, pass: Pass, shutdownHeight: Option<nat>) {
    && (shutdownHeight.Some? && shutdownHeight.value <= view.tip.Height() ==> status == ShutDown(shutdownHeight.value))
    && (Below(view.tip.Height(), shutdownHeight) ==>
          && (pass.mempool == TipMoved ==> status == Running)
          && (pass.mempool == StoreFault ==> status == Stopped(Database))
          && (pass.mempool.StreamFault? ==> status == OnChainFailure(pass.mempool.error)))
  }

  /** A turn that cannot capture a view does nothing, and ends on that failure. */
  lemma NoView(s: SyncState, turn: Turn, shutdownHeight: Option<nat>, e: ChainError)
    requires turn.pass.repin.snapshot == Err(e)
    ensures TakeTurn(s, turn, shutdownHeight) == (s, OnChainFailure(e))
  {}

  /** On a view that ends where the wallet stands there is nothing to apply. */
  lemma NothingNew(s: SyncState, turn: Turn, shutdownHeight: Option<nat>, view: View)
    requires turn.pass.repin.snapshot == Ok(view) && TipOf(view) == s.prevTip
    ensures TakeTurn(s, turn, shutdownHeight).0 == s
    ensures EndsCaughtUp(TakeTurn(s, turn, shutdownHeight).1, view, turn.pass, shutdownHeight)
  {}

  /** A changed view on which the search fails, or finds too little, leaves the record as it was. */
  lemma SearchEndsTurn(s: SyncState, turn: Turn, shutdownHeight: Option<nat>, view: View, e: ChainError)
    requires turn.pass.repin.snapshot == Ok(view) && TipOf(view) != s.prevTip
    ensures var p := turn.pass.repin;
            var (s', status) := TakeTurn(s, turn, shutdownHeight);
            && (SearchFails(s.wallet, s.prevTip, p.birthday, view, e) ==>
                  s'.wallet == s.wallet && s'.prevTip == s.prevTip && status == OnChainFailure(e))
            && (SearchDiverges(s.wallet, s.prevTip, p.birthday, view) ==>
                  s'.wallet == s.wallet && s'.prevTip == s.prevTip
                  && status == Stopped(WalletDivergedBelowBirthday(BirthdayOf(p.birthday))))
  {
    hide Iterate, LocateForkPoint, SearchFails, SearchDiverges;
    PassUnfolds(s, turn.pass, shutdownHeight);
    SearchFailsExactly(s.wallet, s.prevTip, turn.pass.repin.birthday, view, e);
    SearchDivergesExactly(s.wallet, s.prevTip, turn.pass.repin.birthday, view);
  }

  /** A reorg that cannot be rewound stops the task. */
  lemma RewindEndsTurn(s: SyncState, turn: Turn, shutdownHeight: Option<nat>, view: View, forkPoint: ChainBlock)
    requires turn.pass.repin.snapshot == Ok(view) && TipOf(view) != s.prevTip
    requires Located(s, view, turn.pass.repin.birthday) == Ok(forkPoint)
    requires forkPoint.height <= view.tip.Height() && forkPoint.height < s.prevTip.height && !turn.pass.repin.truncates
    ensures var (s', status) := TakeTurn(s, turn, shutdownHeight);
            s'.wallet == s.wallet && s'.prevTip == s.prevTip && status == Stopped(Database)
  {
    hide Iterate, LocateForkPoint, ApplyBlocks;
    PassUnfolds(s, turn.pass, shutdownHeight);
  }

  /** Otherwise the turn ends as its stream does at the first block, at height `k`, that does not pass,
      and as a pass that has caught up if there is none or the stream just ends. */
  lemma StreamEndsTurn(s: SyncState, turn: Turn, shutdownHeight: Option<nat>, view: View, forkPoint: ChainBlock, k: nat)
    requires turn.pass.repin.snapshot == Ok(view) && TipOf(view) != s.prevTip
    requires Located(s, view, turn.pass.repin.birthday) == Ok(forkPoint) && forkPoint.height <= view.tip.Height()
    requires forkPoint == s.prevTip || (forkPoint.height < s.prevTip.height && turn.pass.repin.truncates)
    requires forkPoint.height < k <= view.tip.Height() + 1
    requires AllPass(Rewound(s, forkPoint, view).wallet, forkPoint.height + 1, k, view.tip, turn.pass.blocks, shutdownHeight)
    ensures var m := Rewound(s, forkPoint, view).wallet;
            var (s', status) := TakeTurn(s, turn, shutdownHeight);
            && (k == view.tip.Height() + 1 ==>
                  s'.prevTip.height == k - 1 && EndsCaughtUp(status, view, turn.pass, shutdownHeight))
            && (k <= view.tip.Height() ==>
                  var a := turn.pass.blocks(k);
                  && (a.read == Missing ==>
                        s'.prevTip.height == k - 1 && EndsCaughtUp(status, view, turn.pass, shutdownHeight))
                  && (a.read.Fails? ==> s'.prevTip.height == k - 1 && status == OnChainFailure(a.read.error))
                  && (a.read == Served && !Below(k, shutdownHeight) ==> s'.prevTip.height == k - 1 && status == ShutDown(k))
                  && (a.read == Served && Below(k, shutdownHeight) ==>
                        && (a.scanFault == Some(Scan) ==> status == Stopped(ScanFailure))
                        && (a.scanFault == Some(Decryptor) ==> status == Stopped(BatchDecryptorUnavailable))
                        && (a.scanFault == Some(Store) ==> status == Stopped(Database))
                        && (a.scanFault.Some? && a.scanFault.value.TreeState? ==>
                              status == OnChainFailure(a.scanFault.value.error))
                        && (a.scanFault.None? && !Conflicts(m, Ancestor(view.tip, k)) && !a.tipUpdates ==>
                              status == Stopped(Database))))
  {
    hide Iterate, LocateForkPoint, ApplyBlocks, AllPass, Ancestor, Conflicts;
    PassUnfolds(s, turn.pass, shutdownHeight);
    StreamEnds(Rewound(s, forkPoint, view), forkPoint.height + 1, k, view, turn.pass.blocks, shutdownHeight);
  }

  /** A wallet whose view reaches the shutdown height, and that nothing else stops, shuts down, standing
      just below that height, or on the fork point if that is no lower. */
  lemma ShutsDownAtHeight(s: SyncState, turn: Turn, h: nat, view: View, forkPoint: ChainBlock)
    requires WellFormed(s) && turn.pass.repin.snapshot == Ok(view) && TipOf(view) != s.prevTip
    requires Located(s, view, turn.pass.repin.birthday) == Ok(forkPoint) && forkPoint.height <= view.tip.Height()
    requires forkPoint == s.prevTip || (forkPoint.height < s.prevTip.height && turn.pass.repin.truncates)
    requires ServesAll(turn.pass.blocks) && h <= view.tip.Height()
    requires forkPoint == s.prevTip ==>
               forall k :: k in s.wallet && s.prevTip.height < k < h ==> s.wallet[k] == Ancestor(view.tip, k)
    ensures var (s', status) := TakeTurn(s, turn, Some(h));
            && s'.prevTip.height == Max(h - 1, forkPoint.height)
            && status == ShutDown(if forkPoint.height == view.tip.Height() then h else Max(h, forkPoint.height + 1))
  {
    var k := Max(h, forkPoint.height + 1);
    var m := Rewound(s, forkPoint, view).wallet;
    forall j | forkPoint.height < j < k ensures Passes(m, j, view.tip, turn.pass.blocks, Some(h)) {}
    hide Iterate, LocateForkPoint, Passes, Ancestor;
    StreamEndsTurn(s, turn, Some(h), view, forkPoint, k);
  }

  // ----- Recovery -----

  /** Why a recovery fails, and that it succeeds otherwise. */
  lemma RecoveryEnds(s: SyncState, h: nat, repin: Repin, e: ChainError)
    ensures var last := SaturatingSub(h, 1);
            var r := Recover(s, h, repin);
            && (last !in s.wallet ==> r == Err(WalletDivergedBelowBirthday(last)))
            && (last in s.wallet && repin.snapshot.Err? ==> r == Err(ChainFailure(repin.snapshot.error)))
            && (last in s.wallet && repin.snapshot.Ok? ==>
                  var view, p := repin.snapshot.value, ChainBlock(last, s.wallet[last]);
                  && (SearchFails(s.wallet, p, repin.birthday, view, e) ==> r == Err(ChainFailure(e)))
                  && (SearchDiverges(s.wallet, p, repin.birthday, view) ==>
                        r == Err(WalletDivergedBelowBirthday(BirthdayOf(repin.birthday))))
                  && (LocateForkPoint(s.wallet, p, repin.birthday, view).Ok? ==>
                        if repin.truncates then r.Ok? else r == Err(Database)))
  {
    hide LocateForkPoint, SearchFails, SearchDiverges;
    var last := SaturatingSub(h, 1);
    if last in s.wallet && repin.snapshot.Ok? {
      var view, p := repin.snapshot.value, ChainBlock(last, s.wallet[last]);
      SearchFailsExactly(s.wallet, p, repin.birthday, view, e);
      SearchDivergesExactly(s.wallet, p, repin.birthday, view);
    }
  }

  /** A turn whose pass meets a conflict goes on exactly if recovery succeeds, and otherwise stops on
      its failure, stale views included. */
  lemma ConflictEndsTurn(s: SyncState, turn: Turn, shutdownHeight: Option<nat>, h: nat)
    requires WellFormed(s) && Conflicted(s, turn.pass, shutdownHeight, h)
    ensures var s' := Iterate(s, turn.pass, shutdownHeight).0;
            TakeTurn(s, turn, shutdownHeight)
            == match Recover(s', h, turn.recovery)
               case Ok(t) => (t, Running)
               case Err(e) => (s', Stopped(e))
  {
    hide Iterate, Recover, Conflicted;
    PassConflictsExactly(s, turn.pass, shutdownHeight, h);
  }

  // ----- Runs -----

  /** A run goes on with each turn that ends running ... */
  lemma {:induction false} RunGoesOn(s: SyncState, front: seq<Turn>, back: seq<Turn>, shutdownHeight: Option<nat>)
    requires Run(s, front, shutdownHeight).1 == Running
    ensures Run(s, front + back, shutdownHeight) == Run(Run(s, front, shutdownHeight).0, back, shutdownHeight)
    decreases |front|
  {
    hide TakeTurn;
    if front == [] {
      assert front + back == back;
    } else {
      assert (front + back)[1..] == front[1..] + back;
      RunGoesOn(TakeTurn(s, front[0], shutdownHeight).0, front[1..], back, shutdownHeight);
    }
  }

  /** ... and ends with the first that does not, whatever would come after. */
  lemma RunEndsWithTurn(s: SyncState, front: seq<Turn>, turn: Turn, back: seq<Turn>, shutdownHeight: Option<nat>)
    requires Run(s, front, shutdownHeight).1 == Running
    requires TakeTurn(Run(s, front, shutdownHeight).0, turn, shutdownHeight).1 != Running
    ensures Run(s, front + ([turn] + back), shutdownHeight)
         == TakeTurn(Run(s, front, shutdownHeight).0, turn, shutdownHeight)
  {
    hide TakeTurn;
    RunGoesOn(s, front, [turn] + back, shutdownHeight);
    assert ([turn] + back)[1..] == back;
  }

  /** What turn comes to that leaves the state as it was: nothing, if it goes on, and the end otherwise. */
  lemma IdleTurn(s: SyncState, front: seq<Turn>, turn: Turn, back: seq<Turn>, shutdownHeight: Option<nat>)
    requires Run(s, front, shutdownHeight).1 == Running
    requires TakeTurn(Run(s, front, shutdownHeight).0, turn, shutdownHeight).0 == Run(s, front, shutdownHeight).0
    ensures var (t, _) := Run(s, front, shutdownHeight);
            var status := TakeTurn(t, turn, shutdownHeight).1;
            Run(s, front + ([turn] + back), shutdownHeight)
            == if status == Running then Run(s, front + back, shutdownHeight) else (t, status)
  {
    hide TakeTurn;
    var t := Run(s, front, shutdownHeight).0;
    RunGoesOn(s, front, back, shutdownHeight);
    RunGoesOn(s, front, [turn] + back, shutdownHeight);
    assert ([turn] + back)[1..] == back;
  }

  /** Failing to capture a view does not show in a run, however often it happens, if the view was only
      unavailable; any other failure is the end of the run. */
  lemma MissingViewInRun(s: SyncState, front: seq<Turn>, turn: Turn, back: seq<Turn>, shutdownHeight: Option<nat>, e: ChainError)
    requires Run(s, front, shutdownHeight).1 == Running && turn.pass.repin.snapshot == Err(e)
    ensures Run(s, front + ([turn] + back), shutdownHeight)
         == if e == Unavailable then Run(s, front + back, shutdownHeight)
            else (Run(s, front, shutdownHeight).0, Stopped(ChainFailure(e)))
  {
    hide Run, TakeTurn;
    NoView(Run(s, front, shutdownHeight).0, turn, shutdownHeight, e);
    IdleTurn(s, front, turn, back, shutdownHeight);
  }

  /** A view that ends where the wallet stands does not show either, unless it is at or above the
      shutdown height, or its mempool stream fails for good. */
  lemma CaughtUpInRun(s: SyncState, front: seq<Turn>, turn: Turn, back: seq<Turn>, shutdownHeight: Option<nat>, view: View)
    requires Run(s, front, shutdownHeight).1 == Running
    requires turn.pass.repin.snapshot == Ok(view) && TipOf(view) == Run(s, front, shutdownHeight).0.prevTip
    ensures var t := Run(s, front, shutdownHeight).0;
            var all := Run(s, front + ([turn] + back), shutdownHeight);
            && (!Below(view.tip.Height(), shutdownHeight) ==> all == (t, ShutDown(shutdownHeight.value)))
            && (Below(view.tip.Height(), shutdownHeight) ==>
                  match turn.pass.mempool
                  case TipMoved => all == Run(s, front + back, shutdownHeight)
                  case StoreFault => all == (t, Stopped(Database))
                  case StreamFault(e) =>
                    all == if e == Unavailable then Run(s, front + back, shutdownHeight) else (t, Stopped(ChainFailure(e))))
  {
    hide Run, TakeTurn;
    NothingNew(Run(s, front, shutdownHeight).0, turn, shutdownHeight, view);
    IdleTurn(s, front, turn, back, shutdownHeight);
  }

  /** A run that has ended has ended with one of its turns. */
  lemma {:induction false} EndedRun(s: SyncState, turns: seq<Turn>, shutdownHeight: Option<nat>) returns (i: nat)
    requires Run(s, turns, shutdownHeight).1 != Running
    ensures i < |turns| && Run(s, turns[..i], shutdownHeight).1 == Running
    ensures TakeTurn(Run(s, turns[..i], shutdownHeight).0, turns[i], shutdownHeight) == Run(s, turns, shutdownHeight)
    decreases |turns|
  {
    hide TakeTurn;
    var (s', status) := TakeTurn(s, turns[0], shutdownHeight);
    i := 0;
    if status == Running {
      var j := EndedRun(s', turns[1..], shutdownHeight);
      i := j + 1;
      assert turns[..i][1..] == turns[1..][..j];
    }
  }
}
