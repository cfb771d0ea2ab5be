/** The steady-state task: each pass re-pins a view of the backend, finds where the wallet's record
    rejoins it, rewinds, and applies the view's blocks one by one. */
module SteadyState {
  import opened Chain
  import opened Locator
  import opened ForkSearch

  /** The failures of scanning one block that come before anything is stored. */
  datatype ScanFault = TreeState(error: ChainError) | Decryptor | Scan | Store

  function ScanError(f: ScanFault): SyncError {
    match f
    case TreeState(e) => ChainFailure(e)
    case Decryptor => BatchDecryptorUnavailable
    case Scan => ScanFailure
    case Store => Database
  }

  /** How the block at one height goes: reading it from the stream, scanning it, and recording the
      new chain tip after it is stored. */
  datatype BlockAnswer = BlockAnswer(read: Read, scanFault: Option<ScanFault>, tipUpdates: bool)

  datatype MempoolEnd = TipMoved | StreamFault(error: ChainError) | StoreFault

  /** What re-pinning the chain meets: a view or a failure to capture one, the wallet's birthday,
      and whether the wallet can be truncated. */
  datatype Repin = Repin(snapshot: Result<View, ChainError>, birthday: Option<nat>, truncates: bool)

  /** Everything one pass is answered by the world outside it. */
  datatype Pass = Pass(repin: Repin, blocks: nat -> BlockAnswer, mempool: MempoolEnd)

  datatype SyncState = SyncState(wallet: BlockMap, prevTip: ChainBlock, boundary: nat)

  /** The run-time assertions of a pass. */
  datatype Assertion = ForkPointAtMostTip | ForkPointBelowPrevTip | BlockFollowsPrevTip

  datatype Outcome = Continue | Break(height: nat) | Failed(error: SyncError) | Panicked(assertion: Assertion)

  function TipOf(view: View): (r: ChainBlock)
    ensures r.Genuine()
  {
    ChainBlock(view.tip.Height(), view.tip)
  }

  function UpdateBoundary(currentBoundary: nat, tipHeight: nat): nat {
    Max(currentBoundary, SaturatingSub(tipHeight, 100))
  }

  /** Applying the blocks that the stream yields from height `next` on; `None` when it just ends. */
  function ApplyBlocks(s: SyncState, next: nat, view: View, blocks: nat -> BlockAnswer, shutdownHeight: Option<nat>)
    : (SyncState, Option<Outcome>)
    decreases view.tip.Height() + 1 - next
  {
    if view.tip.Height() < next then (s, None)
    else match blocks(next).read
      case Fails(e) => (s, Some(Failed(ChainFailure(e))))
      case Missing => (s, None)
      case Served =>
        var b := Ancestor(view.tip, next);
        if next != s.prevTip.height + 1 then (s, Some(Panicked(BlockFollowsPrevTip)))
        else if !Below(next, shutdownHeight) then (s, Some(Break(next)))
        else if blocks(next).scanFault.Some? then (s, Some(Failed(ScanError(blocks(next).scanFault.value))))
        else if Conflicts(s.wallet, b) then (s, Some(Failed(BlockConflict(next))))
        else
          var stored := s.(wallet := s.wallet[next := b]);
          if !blocks(next).tipUpdates then (stored, Some(Failed(Database)))
          else ApplyBlocks(stored.(prevTip := ChainBlock(next, b)), next + 1, view, blocks, shutdownHeight)
  }

  /** From the fork point on: rewind if it is not where the wallet stands, then apply. */
  function ResumeFrom(s: SyncState, forkPoint: ChainBlock, view: View, pass: Pass, shutdownHeight: Option<nat>)
    : (SyncState, Option<Outcome>)
  {
    if view.tip.Height() < forkPoint.height then (s, Some(Panicked(ForkPointAtMostTip)))
    else if forkPoint == s.prevTip then
      ApplyBlocks(s, forkPoint.height + 1, view, pass.blocks, shutdownHeight)
    else if s.prevTip.height <= forkPoint.height then (s, Some(Panicked(ForkPointBelowPrevTip)))
    else if !pass.repin.truncates then (s, Some(Failed(Database)))
    else
      var rewound := s.(wallet := TruncateTo(s.wallet, forkPoint.height), prevTip := forkPoint);
      ApplyBlocks(rewound, forkPoint.height + 1, view, pass.blocks, shutdownHeight)
  }

  function CatchUp(s: SyncState, view: View, pass: Pass, shutdownHeight: Option<nat>): (SyncState, Option<Outcome>) {
    var s := s.(boundary := UpdateBoundary(s.boundary, view.tip.Height()));
    match LocateForkPoint(s.wallet, s.prevTip, pass.repin.birthday, view)
    case Err(e) => (s, Some(Failed(e)))
    case Ok(forkPoint) => ResumeFrom(s, forkPoint, view, pass, shutdownHeight)
  }

  /** What a pass reports once it has caught up with its view. */
  function FinishPass(view: View, pass: Pass, shutdownHeight: Option<nat>): Outcome {
    if !Below(view.tip.Height(), shutdownHeight) then Break(shutdownHeight.value)
    else match pass.mempool
      case TipMoved => Continue
      case StreamFault(e) => Failed(ChainFailure(e))
      case StoreFault => Failed(Database)
  }

  function Iterate(s: SyncState, pass: Pass, shutdownHeight: Option<nat>): (SyncState, Outcome) {
    match pass.repin.snapshot
    case Err(e) => (s, Failed(ChainFailure(e)))
    case Ok(view) =>
      var (s', stop) := if TipOf(view) == s.prevTip then (s, None) else CatchUp(s, view, pass, shutdownHeight);
      (s', if stop.Some? then stop.value else FinishPass(view, pass, shutdownHeight))
  }

  /** Recovery from a block conflict at `height`. */
  function Recover(s: SyncState, height: nat, repin: Repin): Result<SyncState, SyncError> {
    var rewindHeight := SaturatingSub(height, 1);
    if rewindHeight !in s.wallet then Err(WalletDivergedBelowBirthday(rewindHeight))
    else match repin.snapshot
      case Err(e) => Err(ChainFailure(e))
      case Ok(view) =>
        var candidate := ChainBlock(rewindHeight, s.wallet[rewindHeight]);
        match LocateForkPoint(s.wallet, candidate, repin.birthday, view)
        case Err(e) => Err(e)
        case Ok(forkPoint) =>
          if !repin.truncates then Err(Database)
          else Ok(s.(wallet := TruncateTo(s.wallet, forkPoint.height), prevTip := forkPoint))
  }

  /** One turn of the task: a pass, and what a recovery after it would be answered. */
  datatype Turn = Turn(pass: Pass, recovery: Repin)

  datatype Status = Running | ShutDown(height: nat) | Stopped(error: SyncError) | Crashed(assertion: Assertion)

  predicate IsRetryable(e: SyncError) {
    e == ChainFailure(Unavailable)
  }

  function TakeTurn(s: SyncState, turn: Turn, shutdownHeight: Option<nat>): (SyncState, Status) {
    var (s', outcome) := Iterate(s, turn.pass, shutdownHeight);
    match outcome
    case Continue => (s', Running)
    case Break(h) => (s', ShutDown(h))
    case Panicked(a) => (s', Crashed(a))
    case Failed(e) =>
      if IsRetryable(e) then (s', Running)
      else if e.BlockConflict? then
        match Recover(s', e.height, turn.recovery)
        case Ok(recovered) => (recovered, Running)
        case Err(e) => (s', Stopped(e))
      else (s', Stopped(e))
  }

  /** Any finite stretch of the task's life. */
  function Run(s: SyncState, turns: seq<Turn>, shutdownHeight: Option<nat>): (SyncState, Status)
    decreases |turns|
  {
    if turns == [] then (s, Running)
    else
      var (s', status) := TakeTurn(s, turns[0], shutdownHeight);
      if status == Running then Run(s', turns[1..], shutdownHeight) else (s', status)
  }

  // ----- The task as it runs -----

  class SyncEngine {
    var wallet: BlockMap
    var prevTip: ChainBlock
    var boundary: nat
    const shutdownHeight: Option<nat>

    constructor (wallet: BlockMap, startingTip: ChainBlock, startingBoundary: nat, shutdownHeight: Option<nat>)
      ensures State() == SyncState(wallet, startingTip, startingBoundary)
      ensures this.shutdownHeight == shutdownHeight
    {
      this.wallet, this.prevTip, this.boundary := wallet, startingTip, startingBoundary;
      this.shutdownHeight := shutdownHeight;
    }

    function State(): SyncState
      reads this
    {
      SyncState(wallet, prevTip, boundary)
    }

    method ApplyStream(start: nat, view: View, blocks: nat -> BlockAnswer) returns (stop: Option<Outcome>)
      modifies this
      ensures (State(), stop) == ApplyBlocks(old(State()), start, view, blocks, shutdownHeight)
    {
      var next := start;
      while next <= view.tip.Height() && blocks(next).read != Missing
        invariant ApplyBlocks(old(State()), start, view, blocks, shutdownHeight)
               == ApplyBlocks(State(), next, view, blocks, shutdownHeight)
        decreases view.tip.Height() + 1 - next
      {
        if blocks(next).read.Fails? {
          return Some(Failed(ChainFailure(blocks(next).read.error)));
        }
        var block := Ancestor(view.tip, next);
        if next != prevTip.height + 1 {
          return Some(Panicked(BlockFollowsPrevTip));
        }
        if !Below(next, shutdownHeight) {
          return Some(Break(next));
        }
        if blocks(next).scanFault.Some? {
          return Some(Failed(ScanError(blocks(next).scanFault.value)));
        }
        if Conflicts(wallet, block) {
          return Some(Failed(BlockConflict(next)));
        }
        wallet := wallet[next := block];
        if !blocks(next).tipUpdates {
          return Some(Failed(Database));
        }
        prevTip := ChainBlock(next, block);
        next := next + 1;
      }
      return None;
    }

    method SteadyStateIteration(pass: Pass) returns (r: Outcome)
      modifies this
      ensures (State(), r) == Iterate(old(State()), pass, shutdownHeight)
    {
      if pass.repin.snapshot.Err? {
        return Failed(ChainFailure(pass.repin.snapshot.error));
      }
      var view := pass.repin.snapshot.value;
      if TipOf(view) != prevTip {
        boundary := UpdateBoundary(boundary, view.tip.Height());
        var located := Locate(wallet, prevTip, pass.repin.birthday, view);
        if located.Err? {
          return Failed(located.error);
        }
        var forkPoint := located.value;
        if !(forkPoint.height <= view.tip.Height()) {
          return Panicked(ForkPointAtMostTip);
        }
        if forkPoint != prevTip {
          if !(forkPoint.height < prevTip.height) {
            return Panicked(ForkPointBelowPrevTip);
          }
          if !pass.repin.truncates {
            return Failed(Database);
          }
          wallet := TruncateTo(wallet, forkPoint.height);
          prevTip := forkPoint;
        }
        var stop := ApplyStream(forkPoint.height + 1, view, pass.blocks);
        if stop.Some? {
          return stop.value;
        }
      }
      r := FinishPass(view, pass, shutdownHeight);
    }

    method RecoverFromConflict(height: nat, repin: Repin) returns (r: Option<SyncError>)
      modifies this
      ensures r.None? ==> Recover(old(State()), height, repin) == Ok(State())
      ensures r.Some? ==> Recover(old(State()), height, repin) == Err(r.value) && State() == old(State())
    {
      var rewindHeight := SaturatingSub(height, 1);
      if rewindHeight !in wallet {
        return Some(WalletDivergedBelowBirthday(rewindHeight));
      }
      var candidateTip := ChainBlock(rewindHeight, wallet[rewindHeight]);
      if repin.snapshot.Err? {
        return Some(ChainFailure(repin.snapshot.error));
      }
      var forkPoint := Locate(wallet, candidateTip, repin.birthday, repin.snapshot.value);
      if forkPoint.Err? {
        return Some(forkPoint.error);
      }
      if !repin.truncates {
        return Some(Database);
      }
      wallet := TruncateTo(wallet, forkPoint.value.height);
      prevTip := forkPoint.value;
      return None;
    }

    /** The task's loop, for as many turns as it is given. */
    method SteadyState(turns: seq<Turn>) returns (status: Status)
      modifies this
      ensures (State(), status) == Run(old(State()), turns, shutdownHeight)
    {
      for i := 0 to |turns|
        invariant Run(old(State()), turns, shutdownHeight) == Run(State(), turns[i..], shutdownHeight)
      {
        assert turns[i..][1..] == turns[i + 1..];
        var outcome := SteadyStateIteration(turns[i].pass);
        match outcome {
          case Continue =>
          case Break(height) => return ShutDown(height);
          case Panicked(assertion) => return Crashed(assertion);
          case Failed(error) =>
            if IsRetryable(error) {
              continue;
            }
            if error.BlockConflict? {
              var failure := RecoverFromConflict(error.height, turns[i].recovery);
              if failure.Some? {
                return Stopped(failure.value);
              }
              continue;
            }
            return Stopped(error);
        }
      }
      return Running;
    }
  }
}
