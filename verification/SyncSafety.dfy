/** What the steady-state task keeps, over single passes and over whole runs. */
module SyncSafety {
  import opened Chain
  import opened Locator
  import opened ForkSearch
  import opened SteadyState

  // ----- The invariant -----

  /** Blocks are at their own heights. */
  predicate WellFormed(s: SyncState) {
    Faithful(s.wallet) && s.prevTip.Genuine()
  }

  /** And where the wallet has a block at the height it stands on, that is the block it stands on. */
  predicate Sound(s: SyncState) {
    && WellFormed(s)
    && (s.prevTip.height in s.wallet ==> s.wallet[s.prevTip.height] == s.prevTip.hash)
  }

  /** The wallet has recorded the block it stands on. */
  predicate Anchored(s: SyncState) {
    Stands(s.wallet, s.prevTip)
  }

  /** The wallet has a block at some height that a locator from where it stands samples. */
  predicate HasLocator(s: SyncState) {
    LocatorFor(s.wallet, s.prevTip.height) != []
  }

  /** Nothing is recorded above the block the wallet stands on. */
  predicate Clear(s: SyncState) {
    forall k :: k in s.wallet ==> k <= s.prevTip.height
  }

  predicate Linked(s: SyncState) {
    LinkedUpTo(s.wallet, s.prevTip.height)
  }

  // ----- Applying a stream of blocks -----

  /** `s'` is `s` with the view's blocks stored from above the one `s` stands on up to height `top`,
      where `s'` stands, unless a failure to record the new tip left it one block behind. */
  ghost predicate Extends(s: SyncState, s': SyncState, tip: BlockHash, stop: Option<Outcome>, top: nat) {
    && s.prevTip.height <= s'.prevTip.height <= top <= Max(s.prevTip.height, tip.Height())
    && (top != s'.prevTip.height ==> top == s'.prevTip.height + 1 && stop == Some(Failed(Database)))
    && s'.boundary == s.boundary
    && s'.prevTip == (if s'.prevTip.height == s.prevTip.height then s.prevTip
                      else ChainBlock(s'.prevTip.height, Ancestor(tip, s'.prevTip.height)))
    && Filled(s.wallet, s'.wallet, tip, s.prevTip.height, top)
  }

  /** Why a stream stopped. The out-of-order assertion is not among the reasons. */
  predicate StopExplained(s': SyncState, tip: BlockHash, blocks: nat -> BlockAnswer, shutdownHeight: Option<nat>,
                          stop: Option<Outcome>)
  {
    var next := s'.prevTip.height + 1;
    match stop
    case None => tip.Height() < next || blocks(next).read == Missing
    case Some(Continue) => false
    case Some(Panicked(_)) => false
    case Some(Break(h)) => h == next && next <= tip.Height() && !Below(next, shutdownHeight)
    case Some(Failed(e)) =>
      && next <= tip.Height()
      && (e.BlockConflict? ==> e.height == next && Conflicts(s'.wallet, Ancestor(tip, next)))
      && (!e.BlockConflict? ==> blocks(next) != BlockAnswer(Served, None, true))
  }

  /** `s` after storing, and stepping onto, the view's block at height `next`. */
  function Onto(s: SyncState, next: nat, tip: BlockHash): SyncState
    requires next <= tip.Height()
  {
    s.(wallet := s.wallet[next := Ancestor(tip, next)], prevTip := ChainBlock(next, Ancestor(tip, next)))
  }

  lemma {:induction false} StreamExtends(s: SyncState, next: nat, view: View, blocks: nat -> BlockAnswer,
                                         shutdownHeight: Option<nat>)
    returns (top: nat)
    requires next == s.prevTip.height + 1
    ensures var (s', stop) := ApplyBlocks(s, next, view, blocks, shutdownHeight);
            Extends(s, s', view.tip, stop, top)
    decreases view.tip.Height() + 1 - next
  {
    hide Ancestor, Filled;
    var (s', stop) := ApplyBlocks(s, next, view, blocks, shutdownHeight);
    FilledNothing(s.wallet, view.tip, s.prevTip.height);
    if s' == s {
      top := s.prevTip.height;
    } else if blocks(next).tipUpdates {
      top := StreamExtends(Onto(s, next, view.tip), next + 1, view, blocks, shutdownHeight);
      FilledFurther(s.wallet, s'.wallet, view.tip, s.prevTip.height, top);
    } else {
      FilledNothing(Onto(s, next, view.tip).wallet, view.tip, next);
      FilledFurther(s.wallet, s'.wallet, view.tip, s.prevTip.height, next);
      top := next;
    }
  }

  lemma {:induction false} StreamStops(s: SyncState, next: nat, view: View, blocks: nat -> BlockAnswer,
                                       shutdownHeight: Option<nat>)
    requires next == s.prevTip.height + 1
    ensures var (s', stop) := ApplyBlocks(s, next, view, blocks, shutdownHeight);
            && StopExplained(s', view.tip, blocks, shutdownHeight, stop)
            && (StaysBelow(s.wallet, shutdownHeight) ==> StaysBelow(s'.wallet, shutdownHeight))
    decreases view.tip.Height() + 1 - next
  {
    if next <= view.tip.Height() && blocks(next) == BlockAnswer(Served, None, true)
       && Below(next, shutdownHeight) && !Conflicts(s.wallet, Ancestor(view.tip, next))
    {
      StreamStops(Onto(s, next, view.tip), next + 1, view, blocks, shutdownHeight);
    }
  }

  /** Extending keeps the invariant. */
  lemma ExtendingKeepsSound(s: SyncState, s': SyncState, tip: BlockHash, stop: Option<Outcome>, top: nat)
    requires Sound(s) && Extends(s, s', tip, stop, top)
    ensures Sound(s')
    ensures Anchored(s) ==> Anchored(s')
    ensures stop != Some(Failed(Database)) && Clear(s) ==> Clear(s')
  {}

  /** From a block on the view's chain, or one the wallet has not recorded, the record stays linked. */
  lemma ExtendingKeepsLinked(s: SyncState, s': SyncState, tip: BlockHash, stop: Option<Outcome>, top: nat)
    requires Sound(s) && Extends(s, s', tip, stop, top) && Linked(s)
    requires s.prevTip.height in s.wallet ==> OnChain(tip, s.prevTip.hash)
    ensures Linked(s')
  {
    forall k | k in s'.wallet && k + 1 in s'.wallet && k < s'.prevTip.height
      ensures s'.wallet[k + 1].Mined? && s'.wallet[k + 1].parent == s'.wallet[k]
    {
      if s.prevTip.height <= k {
        AncestorParent(tip, k);
      }
    }
  }

  // ----- One pass -----

  /** The search for the fork point, as a pass makes it. */
  function Located(s: SyncState, view: View, birthday: Option<nat>): Result<ChainBlock, SyncError> {
    LocateForkPoint(s.wallet, s.prevTip, birthday, view)
  }

  /** The state from which a pass applies blocks. */
  function Rewound(s: SyncState, forkPoint: ChainBlock, view: View): SyncState {
    SyncState(if forkPoint == s.prevTip then s.wallet else TruncateTo(s.wallet, forkPoint.height), forkPoint,
              UpdateBoundary(s.boundary, view.tip.Height()))
  }

  /** One way a search can land at or above where the wallet stands without being there: sent up to a
      birthday above it, where the wallet happens to have a block of the view's chain. */
  predicate LandsOnHigherBirthday(s: SyncState, view: View, birthday: Option<nat>) {
    && view.searchFault.None?
    && HasLocator(s)
    && FirstShared(LocatorFor(s.wallet, s.prevTip.height), view.tip).None?
    && s.prevTip.height < BirthdayOf(birthday)
    && Shared(s.wallet, BirthdayOf(birthday), view.tip)
    && view.headers(BirthdayOf(birthday)) == Served
  }

  /** The other: the wallet has recorded another block where it stands, and the view has that one. */
  predicate LandsBeside(s: SyncState, view: View) {
    && view.searchFault.None?
    && s.prevTip.height in s.wallet && s.wallet[s.prevTip.height] != s.prevTip.hash
    && OnChain(view.tip, s.wallet[s.prevTip.height])
  }

  /** Where the search lands for a wallet that meets the invariant. */
  lemma SearchLands(s: SyncState, view: View, birthday: Option<nat>)
    requires Sound(s)
    ensures var r := Located(s, view, birthday);
            match r
            case Ok(b) => && b.Genuine()
                          && (b == s.prevTip || Stands(s.wallet, b))
                          && (OnChain(view.tip, b.hash) || (b == s.prevTip && b.height !in s.wallet))
                          && (Anchored(s) ==> Stands(s.wallet, b) && OnChain(view.tip, b.hash))
            case Err(e) => !e.BlockConflict?
  {
    ForkPointOrigin(s.wallet, s.prevTip, birthday, view);
    if s.prevTip.height in s.wallet {
      StandingWalletHasALocator(s.wallet, s.prevTip.height);
    }
  }

  lemma SearchLandsTooHigh(s: SyncState, view: View, birthday: Option<nat>)
    requires WellFormed(s)
    ensures var r := Located(s, view, birthday);
            (r.Ok? && view.tip.Height() < r.value.height)
            <==> view.searchFault.None? && !HasLocator(s) && view.tip.Height() < s.prevTip.height
  {
    ForkPointOrigin(s.wallet, s.prevTip, birthday, view);
  }

  /** When the search finds nothing to rewind. */
  lemma SearchStays(s: SyncState, view: View, birthday: Option<nat>)
    requires WellFormed(s)
    ensures Located(s, view, birthday) == Ok(s.prevTip)
        <==> view.searchFault.None? && (HasLocator(s) ==> Anchored(s) && OnChain(view.tip, s.prevTip.hash))
  {
    ForkPointOrigin(s.wallet, s.prevTip, birthday, view);
    if view.searchFault.None? && HasLocator(s) && Anchored(s) && OnChain(view.tip, s.prevTip.hash) {
      hide FirstShared, LocatorFor, LocatorHeights, StepBack, OnChain;
      ForkPointIsHighestShared(s.wallet, s.prevTip.height, view.tip);
      LocatorShape(s.prevTip.height);
    }
  }

  lemma WalkSentUp(m: BlockMap, height: nat, birthday: nat, view: View)
    requires height < birthday
    ensures StepBack(m, height, birthday, view).Ok?
        <==> Shared(m, birthday, view.tip) && view.headers(birthday) == Served
    ensures StepBack(m, height, birthday, view).Ok? ==> StepBack(m, height, birthday, view).value.height == birthday
  {}

  lemma SearchLandsUpward(s: SyncState, view: View, birthday: Option<nat>)
    requires WellFormed(s)
    ensures var r := Located(s, view, birthday);
            (r.Ok? && r.value != s.prevTip && s.prevTip.height <= r.value.height)
            <==> LandsOnHigherBirthday(s, view, birthday) || LandsBeside(s, view)
  {
    hide FirstShared, LocatorFor, LocatorHeights, StepBack, Ancestor;
    var floor := BirthdayOf(birthday);
    ForkPointIsHighestShared(s.wallet, s.prevTip.height, view.tip);
    LocatorShape(s.prevTip.height);
    if s.prevTip.height in s.wallet {
      StandingWalletHasALocator(s.wallet, s.prevTip.height);
    }
    if s.prevTip.height < floor {
      WalkSentUp(s.wallet, s.prevTip.height, floor, view);
    } else {
      WalkFindsShared(s.wallet, s.prevTip.height, floor, view);
    }
  }

  /** What a pass over a changed tip comes down to. */
  lemma PassUnfolds(s: SyncState, pass: Pass, shutdownHeight: Option<nat>)
    requires pass.repin.snapshot.Ok? && TipOf(pass.repin.snapshot.value) != s.prevTip
    ensures var view := pass.repin.snapshot.value;
            var (s', r) := Iterate(s, pass, shutdownHeight);
            var unmoved := s.(boundary := UpdateBoundary(s.boundary, view.tip.Height()));
            match Located(s, view, pass.repin.birthday)
            case Err(e) => s' == unmoved && r == Failed(e)
            case Ok(f) =>
              if view.tip.Height() < f.height then s' == unmoved && r == Panicked(ForkPointAtMostTip)
              else if f != s.prevTip && s.prevTip.height <= f.height then
                s' == unmoved && r == Panicked(ForkPointBelowPrevTip)
              else if f != s.prevTip && !pass.repin.truncates then s' == unmoved && r == Failed(Database)
              else
                var (t, stop) := ApplyBlocks(Rewound(s, f, view), f.height + 1, view, pass.blocks, shutdownHeight);
                s' == t && r == if stop.Some? then stop.value else FinishPass(view, pass, shutdownHeight)
  {}

  lemma UnchangedTip(s: SyncState, pass: Pass, shutdownHeight: Option<nat>)
    requires pass.repin.snapshot.Ok? ==> TipOf(pass.repin.snapshot.value) == s.prevTip
    ensures var (s', r) := Iterate(s, pass, shutdownHeight);
            && s' == s
            && r == match pass.repin.snapshot
                    case Err(e) => Failed(ChainFailure(e))
                    case Ok(view) => FinishPass(view, pass, shutdownHeight)
  {}

  /** Exactly when a pass panics, whatever the wallet has recorded. The fork point is above the tip only
      for a wallet with an empty locator that stands above the view's tip; it is not below the wallet's
      position only through a later birthday, or through another block recorded at that position;
      blocks never arrive out of order. */
  lemma AssertionsExact(s: SyncState, pass: Pass, shutdownHeight: Option<nat>)
    requires WellFormed(s) && pass.repin.snapshot.Ok? && TipOf(pass.repin.snapshot.value) != s.prevTip
    ensures var view := pass.repin.snapshot.value;
            var r := Iterate(s, pass, shutdownHeight).1;
            && (r == Panicked(ForkPointAtMostTip)
                <==> view.searchFault.None? && !HasLocator(s) && view.tip.Height() < s.prevTip.height)
            && (r == Panicked(ForkPointBelowPrevTip)
                <==> LandsOnHigherBirthday(s, view, pass.repin.birthday) || LandsBeside(s, view))
            && (r.Panicked? ==> r == Panicked(ForkPointAtMostTip) || r == Panicked(ForkPointBelowPrevTip))
  {
    hide ApplyBlocks, LocateForkPoint, LandsOnHigherBirthday, LandsBeside, HasLocator, Iterate;
    var view := pass.repin.snapshot.value;
    PassUnfolds(s, pass, shutdownHeight);
    SearchLandsTooHigh(s, view, pass.repin.birthday);
    SearchLandsUpward(s, view, pass.repin.birthday);
    UpwardHasALocator(s, view, pass.repin.birthday);
    var located := Located(s, view, pass.repin.birthday);
    if located.Ok? && located.value.height <= view.tip.Height()
       && (located.value == s.prevTip || located.value.height < s.prevTip.height)
    {
      StreamStops(Rewound(s, located.value, view), located.value.height + 1, view, pass.blocks, shutdownHeight);
    }
  }

  lemma UpwardHasALocator(s: SyncState, view: View, birthday: Option<nat>)
    ensures LandsOnHigherBirthday(s, view, birthday) || LandsBeside(s, view) ==> HasLocator(s)
  {
    if s.prevTip.height in s.wallet {
      StandingWalletHasALocator(s.wallet, s.prevTip.height);
    }
  }

  const PLAIN := Body(0, 0, {}, {})

  /** Both kinds of panic do happen: a wallet with no record that stands above the view's tip ... */
  lemma UnrecordedWalletPanics(pass: Pass, shutdownHeight: Option<nat>)
    requires pass.repin.snapshot == Ok(View(Genesis, _ => Served, None))
    ensures Iterate(SyncState(map[], ChainBlock(1, Mined(Genesis, PLAIN)), 0), pass, shutdownHeight).1
         == Panicked(ForkPointAtMostTip)
  {
    var s := SyncState(map[], ChainBlock(1, Mined(Genesis, PLAIN)), 0);
    hide Iterate, LocatorHeights;
    NothingRecorded(LocatorHeights(1));
    AssertionsExact(s, pass, shutdownHeight);
  }

  /** ... and a wallet with a gap below its birthday, which is above where it stands, at a block of
      another branch. */
  lemma LaterBirthdayPanics(pass: Pass, shutdownHeight: Option<nat>, branch: BlockHash)
    requires branch == Mined(Mined(Mined(Genesis, PLAIN.(nonce := 1)), PLAIN), PLAIN)
    requires pass.repin.snapshot == Ok(View(branch, _ => Served, None)) && pass.repin.birthday == Some(3)
    ensures var here := Mined(Genesis, PLAIN);
            var s := SyncState(map[1 := here, 3 := branch], ChainBlock(1, here), 0);
            && Sound(s) && Anchored(s) && Linked(s)
            && Iterate(s, pass, shutdownHeight).1 == Panicked(ForkPointBelowPrevTip)
  {
    hide Iterate, LocateForkPoint, LocatorFor, LocatorHeights, FirstShared;
    var s := SyncState(map[1 := Mined(Genesis, PLAIN), 3 := branch], ChainBlock(1, Mined(Genesis, PLAIN)), 0);
    var view := pass.repin.snapshot.value;
    assert Ancestor(branch.parent, 1) == branch.parent.parent;
    assert !OnChain(branch, s.wallet[1]);
    assert branch.Height() == 3;
    LocatorShape(1);
    StandingWalletHasALocator(s.wallet, 1);
    ForkPointIsHighestShared(s.wallet, 1, view.tip);
    AssertionsExact(s, pass, shutdownHeight);
  }

  /** So a wallet that has recorded another block where it stands panics on every view with that block,
      from a search that does not fail: the invariant is no stronger than it need be. */
  lemma DisagreementPanics(s: SyncState, pass: Pass, shutdownHeight: Option<nat>)
    requires WellFormed(s) && pass.repin.snapshot.Ok?
    requires s.prevTip.height in s.wallet && s.wallet[s.prevTip.height] != s.prevTip.hash
    requires BirthdayOf(pass.repin.birthday) <= s.prevTip.height
    ensures var view := pass.repin.snapshot.value;
            Iterate(s, pass, shutdownHeight).1 == Panicked(ForkPointBelowPrevTip)
            <==> view.searchFault.None? && OnChain(view.tip, s.wallet[s.prevTip.height])
  {
    hide ApplyBlocks, LocateForkPoint, LocatorFor, FirstShared;
    var view := pass.repin.snapshot.value;
    if TipOf(view) == s.prevTip {
      UnchangedTip(s, pass, shutdownHeight);
      assert Ancestor(view.tip, s.prevTip.height) == s.prevTip.hash;
    } else {
      AssertionsExact(s, pass, shutdownHeight);
    }
  }

  /** What a pass over a changed tip does to the record. Unless it stops before touching anything, it
      keeps exactly what was recorded up to the fork point (and, if it does not rewind, above it),
      and adds the view's blocks above the fork point up to `top`, where it comes to stand. */
  ghost predicate PassRecords(s: SyncState, s': SyncState, view: View, r: Outcome, forkPoint: ChainBlock, top: nat) {
    && forkPoint.height <= view.tip.Height()
    && (forkPoint == s.prevTip || forkPoint.height < s.prevTip.height)
    && Extends(Rewound(s, forkPoint, view), s', view.tip, Some(r), top)
  }

  lemma PassShape(s: SyncState, pass: Pass, shutdownHeight: Option<nat>) returns (forkPoint: ChainBlock, top: nat)
    requires pass.repin.snapshot.Ok? && TipOf(pass.repin.snapshot.value) != s.prevTip
    ensures var view := pass.repin.snapshot.value;
            var (s', r) := Iterate(s, pass, shutdownHeight);
            && s'.boundary == UpdateBoundary(s.boundary, view.tip.Height())
            && ((s'.wallet == s.wallet && s'.prevTip == s.prevTip && (r.Failed? || r.Panicked?))
                || (Located(s, view, pass.repin.birthday) == Ok(forkPoint)
                    && PassRecords(s, s', view, r, forkPoint, top)))
  {
    hide ApplyBlocks, LocateForkPoint, Iterate;
    var view := pass.repin.snapshot.value;
    PassUnfolds(s, pass, shutdownHeight);
    forkPoint, top := s.prevTip, 0;
    var located := Located(s, view, pass.repin.birthday);
    if located.Ok? {
      forkPoint := located.value;
      var rewound := Rewound(s, forkPoint, view);
      top := StreamExtends(rewound, forkPoint.height + 1, view, pass.blocks, shutdownHeight);
    }
  }

  ghost predicate ServesAll(blocks: nat -> BlockAnswer) {
    forall h :: blocks(h) == BlockAnswer(Served, None, true)
  }

  /** No block recorded above the fork point stands in the way of the view's. */
  ghost predicate NothingInTheWay(s: SyncState, forkPoint: ChainBlock, tip: BlockHash) {
    forkPoint == s.prevTip ==>
      forall k :: k in s.wallet && s.prevTip.height < k <= tip.Height() ==> s.wallet[k] == Ancestor(tip, k)
  }

  /** With every block served and none in the way, the stream runs to the tip. */
  lemma StreamDrains(s: SyncState, view: View, blocks: nat -> BlockAnswer, shutdownHeight: Option<nat>)
    requires WellFormed(s) && s.prevTip.height <= view.tip.Height()
    requires ServesAll(blocks) && Below(view.tip.Height(), shutdownHeight)
    requires NothingInTheWay(s, s.prevTip, view.tip)
    ensures var (s', stop) := ApplyBlocks(s, s.prevTip.height + 1, view, blocks, shutdownHeight);
            && stop.None? && s'.boundary == s.boundary
            && s'.prevTip == (if s.prevTip.height == view.tip.Height() then s.prevTip else TipOf(view))
            && Filled(s.wallet, s'.wallet, view.tip, s.prevTip.height, view.tip.Height())
  {
    hide ApplyBlocks;
    StreamStops(s, s.prevTip.height + 1, view, blocks, shutdownHeight);
    var top := StreamExtends(s, s.prevTip.height + 1, view, blocks, shutdownHeight);
    var (s', stop) := ApplyBlocks(s, s.prevTip.height + 1, view, blocks, shutdownHeight);
    assert blocks(s'.prevTip.height + 1) == BlockAnswer(Served, None, true);
  }

  /** The wallet stands as high as the view's tip, on another block, with no locator to find that out. */
  predicate MissesSibling(s: SyncState, view: View) {
    !HasLocator(s) && s.prevTip.height == view.tip.Height()
  }

  /** A pass that nothing stops takes the wallet onto the view's tip, unless the wallet misses that its
      position is not on the view. It keeps the record up to the fork point, which is shared if there
      was a locator and the wallet's own position if not, and adds the view's blocks above. */
  lemma PassReachesTip(s: SyncState, pass: Pass, shutdownHeight: Option<nat>, view: View, forkPoint: ChainBlock)
    requires WellFormed(s) && pass.repin.snapshot == Ok(view) && TipOf(view) != s.prevTip
    requires Located(s, view, pass.repin.birthday) == Ok(forkPoint)
    requires !Iterate(s, pass, shutdownHeight).1.Panicked?
    requires ServesAll(pass.blocks) && pass.repin.truncates && Below(view.tip.Height(), shutdownHeight)
    requires NothingInTheWay(s, forkPoint, view.tip)
    ensures var (s', r) := Iterate(s, pass, shutdownHeight);
            && r == FinishPass(view, pass, shutdownHeight)
            && s'.prevTip == (if MissesSibling(s, view) then s.prevTip else TipOf(view))
            && (if HasLocator(s) then Stands(s.wallet, forkPoint) && OnChain(view.tip, forkPoint.hash)
                else forkPoint == s.prevTip)
            && forkPoint.height <= s.prevTip.height
            && Filled(if forkPoint == s.prevTip then s.wallet else TruncateTo(s.wallet, forkPoint.height), s'.wallet,
                      view.tip, forkPoint.height, view.tip.Height())
            && (forkPoint != s.prevTip ==> Clear(s'))
  {
    hide ApplyBlocks, LocateForkPoint, LocatorFor, Iterate;
    PassUnfolds(s, pass, shutdownHeight);
    ForkPointOrigin(s.wallet, s.prevTip, pass.repin.birthday, view);
    StreamDrains(Rewound(s, forkPoint, view), view, pass.blocks, shutdownHeight);
  }

  /** And a pass that touches the record and ends as high as the view's tip has done just that, however
      it ends and whatever was recorded: it stands on the tip exactly unless it missed a sibling. */
  lemma PassAsHighAsTip(s: SyncState, pass: Pass, shutdownHeight: Option<nat>, view: View) returns (forkPoint: ChainBlock)
    requires WellFormed(s) && pass.repin.snapshot == Ok(view) && TipOf(view) != s.prevTip
    requires Iterate(s, pass, shutdownHeight).0.prevTip.height == view.tip.Height()
    ensures var (s', r) := Iterate(s, pass, shutdownHeight);
            || (s'.wallet == s.wallet && s'.prevTip == s.prevTip && (r.Failed? || r.Panicked?))
            || (&& (s'.prevTip == TipOf(view) <==> !MissesSibling(s, view))
                && (if HasLocator(s) then Stands(s.wallet, forkPoint) && OnChain(view.tip, forkPoint.hash)
                    else forkPoint == s.prevTip)
                && forkPoint.height <= s.prevTip.height
                && Filled(if forkPoint == s.prevTip then s.wallet else TruncateTo(s.wallet, forkPoint.height), s'.wallet,
                          view.tip, forkPoint.height, view.tip.Height()))
  {
    hide ApplyBlocks, LocateForkPoint, LocatorFor, Iterate, TruncateTo;
    var top;
    forkPoint, top := PassShape(s, pass, shutdownHeight);
    ForkPointOrigin(s.wallet, s.prevTip, pass.repin.birthday, view);
  }

  /** The exception does happen: a wallet with no record stays on a block of another branch, and reports
      that it has caught up. */
  lemma SiblingTipIsMissed(pass: Pass, view: View)
    requires view == View(Mined(Genesis, PLAIN.(nonce := 1)), _ => Served, None)
    requires pass.repin.snapshot == Ok(view) && pass.mempool == TipMoved
    ensures var s := SyncState(map[], ChainBlock(1, Mined(Genesis, PLAIN)), 0);
            && Sound(s) && !OnChain(view.tip, s.prevTip.hash)
            && Iterate(s, pass, None) == (s, Continue)
  {
    hide LocatorHeights;
    var s := SyncState(map[], ChainBlock(1, Mined(Genesis, PLAIN)), 0);
    NothingRecorded(LocatorHeights(1));
    PassUnfolds(s, pass, None);
    assert ApplyBlocks(s, 2, view, pass.blocks, None) == (s, None);
  }

  /** Wherever a wallet with a linked record comes to stand, every block joined to that position by
      recorded blocks is an ancestor of it: what it holds is one chain. */
  lemma RecordIsOneChain(s: SyncState, k: nat)
    requires Sound(s) && Linked(s) && k <= s.prevTip.height && Contiguous(s.wallet, k, s.prevTip.height)
    ensures s.wallet[k] == Ancestor(s.prevTip.hash, k)
  {
    RecordIsAChain(s.wallet, k, s.prevTip.height);
  }

  lemma StreamKeepsInvariant(s: SyncState, view: View, blocks: nat -> BlockAnswer, shutdownHeight: Option<nat>)
    requires Sound(s) && (s.prevTip.height in s.wallet ==> OnChain(view.tip, s.prevTip.hash))
    ensures var (s', stop) := ApplyBlocks(s, s.prevTip.height + 1, view, blocks, shutdownHeight);
            && Sound(s')
            && (Anchored(s) ==> Anchored(s'))
            && (Linked(s) ==> Linked(s'))
            && (Clear(s) && stop != Some(Failed(Database)) ==> Clear(s'))
            && (StaysBelow(s.wallet, shutdownHeight) ==> StaysBelow(s'.wallet, shutdownHeight))
            && (stop.Some? && stop.value.Failed? && stop.value.error.BlockConflict?
                ==> stop.value.error.height == s'.prevTip.height + 1 && !Clear(s'))
  {
    StreamStops(s, s.prevTip.height + 1, view, blocks, shutdownHeight);
    var top := StreamExtends(s, s.prevTip.height + 1, view, blocks, shutdownHeight);
    var (s', stop) := ApplyBlocks(s, s.prevTip.height + 1, view, blocks, shutdownHeight);
    ExtendingKeepsSound(s, s', view.tip, stop, top);
    if Linked(s) {
      ExtendingKeepsLinked(s, s', view.tip, stop, top);
    }
  }

  lemma RewindingKeepsInvariant(s: SyncState, forkPoint: ChainBlock, view: View, shutdownHeight: Option<nat>)
    requires Sound(s)
    requires forkPoint == s.prevTip || (Stands(s.wallet, forkPoint) && forkPoint.height < s.prevTip.height)
    ensures var t := Rewound(s, forkPoint, view);
            && Sound(t)
            && (Anchored(s) || forkPoint != s.prevTip ==> Anchored(t))
            && (Linked(s) ==> Linked(t))
            && (Clear(s) || forkPoint != s.prevTip ==> Clear(t))
            && (StaysBelow(s.wallet, shutdownHeight) ==> StaysBelow(t.wallet, shutdownHeight))
  {}

  /** Every pass keeps the invariant, a linked record, an anchored position and the shutdown height;
      a conflict is always with the block just above the wallet's position. */
  lemma PassKeepsInvariant(s: SyncState, pass: Pass, shutdownHeight: Option<nat>)
    requires Sound(s)
    ensures var (s', r) := Iterate(s, pass, shutdownHeight);
            && Sound(s')
            && (Anchored(s) ==> Anchored(s'))
            && (Linked(s) ==> Linked(s'))
            && (Clear(s) && r != Failed(Database) ==> Clear(s'))
            && (StaysBelow(s.wallet, shutdownHeight) ==> StaysBelow(s'.wallet, shutdownHeight))
            && (r.Failed? && r.error.BlockConflict? ==> r.error.height == s'.prevTip.height + 1 && !Clear(s'))
  {
    hide ApplyBlocks, LocateForkPoint, Iterate, StaysBelow, OnChain, Faithful, LinkedUpTo, TruncateTo;
    if pass.repin.snapshot.Err? || TipOf(pass.repin.snapshot.value) == s.prevTip {
      UnchangedTip(s, pass, shutdownHeight);
    } else {
      var view := pass.repin.snapshot.value;
      PassUnfolds(s, pass, shutdownHeight);
      SearchLands(s, view, pass.repin.birthday);
      var located := Located(s, view, pass.repin.birthday);
      if located.Ok? && (located.value == s.prevTip || located.value.height < s.prevTip.height) {
        RewindingKeepsInvariant(s, located.value, view, shutdownHeight);
        StreamKeepsInvariant(Rewound(s, located.value, view), view, pass.blocks, shutdownHeight);
      }
    }
  }

  /** A pass shuts the wallet down only on a view that reaches the shutdown height, at a height in
      between, and never carries on from such a view. */
  lemma ShutsDownAtDivergence(s: SyncState, pass: Pass, shutdownHeight: Option<nat>)
    requires Sound(s)
    ensures var r := Iterate(s, pass, shutdownHeight).1;
            && (r.Break? ==> && pass.repin.snapshot.Ok? && shutdownHeight.Some?
                             && shutdownHeight.value <= r.height <= pass.repin.snapshot.value.tip.Height())
            && (r == Continue ==> pass.repin.snapshot.Ok?
                                  && Below(pass.repin.snapshot.value.tip.Height(), shutdownHeight))
  {
    hide ApplyBlocks, LocateForkPoint, Iterate;
    if pass.repin.snapshot.Err? || TipOf(pass.repin.snapshot.value) == s.prevTip {
      UnchangedTip(s, pass, shutdownHeight);
    } else {
      var view := pass.repin.snapshot.value;
      PassUnfolds(s, pass, shutdownHeight);
      var located := Located(s, view, pass.repin.birthday);
      if located.Ok? {
        StreamStops(Rewound(s, located.value, view), located.value.height + 1, view, pass.blocks, shutdownHeight);
      }
    }
  }

  // ----- When a pass meets a conflict -----

  /** The view's block at height `h` is the first one above the wallet's position, from height `next`
      on, that cannot be stored, everything before it being served and stored. */
  ghost predicate ConflictAt(m: BlockMap, next: nat, h: nat, tip: BlockHash, blocks: nat -> BlockAnswer,
                             shutdownHeight: Option<nat>)
  {
    && next <= h <= tip.Height() && Below(h, shutdownHeight)
    && blocks(h).read == Served && blocks(h).scanFault.None? && Conflicts(m, Ancestor(tip, h))
    && forall k :: next <= k < h ==> blocks(k) == BlockAnswer(Served, None, true) && !Conflicts(m, Ancestor(tip, k))
  }

  lemma {:induction false} StreamConflictsExactly(s: SyncState, next: nat, view: View, blocks: nat -> BlockAnswer,
                                                  shutdownHeight: Option<nat>, h: nat)
    requires next == s.prevTip.height + 1
    ensures ApplyBlocks(s, next, view, blocks, shutdownHeight).1 == Some(Failed(BlockConflict(h)))
        <==> ConflictAt(s.wallet, next, h, view.tip, blocks, shutdownHeight)
    decreases view.tip.Height() + 1 - next
  {
    hide Ancestor;
    if next <= view.tip.Height() && blocks(next) == BlockAnswer(Served, None, true)
       && Below(next, shutdownHeight) && !Conflicts(s.wallet, Ancestor(view.tip, next))
    {
      var onto := Onto(s, next, view.tip);
      StreamConflictsExactly(onto, next + 1, view, blocks, shutdownHeight, h);
      assert forall k :: next < k <= view.tip.Height() ==>
        (Conflicts(onto.wallet, Ancestor(view.tip, k)) <==> Conflicts(s.wallet, Ancestor(view.tip, k)));
    }
  }

  /** A pass meets a conflict at height `h` exactly when it finds nothing to rewind and the wallet has
      another block recorded there, above its position, than the view it goes on to follow. */
  ghost predicate Conflicted(s: SyncState, pass: Pass, shutdownHeight: Option<nat>, h: nat) {
    && pass.repin.snapshot.Ok?
    && var view := pass.repin.snapshot.value;
    && view.searchFault.None? && (HasLocator(s) ==> Anchored(s) && OnChain(view.tip, s.prevTip.hash))
    && ConflictAt(s.wallet, s.prevTip.height + 1, h, view.tip, pass.blocks, shutdownHeight)
  }

  lemma PassConflictsExactly(s: SyncState, pass: Pass, shutdownHeight: Option<nat>, h: nat)
    requires WellFormed(s)
    ensures Iterate(s, pass, shutdownHeight).1 == Failed(BlockConflict(h)) <==> Conflicted(s, pass, shutdownHeight, h)
  {
    hide ApplyBlocks, LocateForkPoint, LocatorFor, Iterate, Ancestor;
    if pass.repin.snapshot.Err? || TipOf(pass.repin.snapshot.value) == s.prevTip {
      UnchangedTip(s, pass, shutdownHeight);
    } else {
      var view := pass.repin.snapshot.value;
      PassUnfolds(s, pass, shutdownHeight);
      SearchStays(s, view, pass.repin.birthday);
      ForkPointOrigin(s.wallet, s.prevTip, pass.repin.birthday, view);
      var located := Located(s, view, pass.repin.birthday);
      if located.Ok? {
        StreamConflictsExactly(Rewound(s, located.value, view), located.value.height + 1, view, pass.blocks,
                               shutdownHeight, h);
      }
    }
  }

  /** Up to there the pass has stored the view's blocks, and stands on the last of them. */
  lemma ConflictLeaves(s: SyncState, pass: Pass, shutdownHeight: Option<nat>, h: nat)
    requires WellFormed(s) && Conflicted(s, pass, shutdownHeight, h)
    ensures var s' := Iterate(s, pass, shutdownHeight).0;
            && s'.prevTip.height == h - 1
            && Filled(s.wallet, s'.wallet, pass.repin.snapshot.value.tip, s.prevTip.height, h - 1)
  {
    hide ApplyBlocks, LocateForkPoint, LocatorFor, Iterate, Ancestor, Filled;
    var view := pass.repin.snapshot.value;
    PassConflictsExactly(s, pass, shutdownHeight, h);
    PassUnfolds(s, pass, shutdownHeight);
    SearchStays(s, view, pass.repin.birthday);
    var rewound := Rewound(s, s.prevTip, view);
    StreamStops(rewound, s.prevTip.height + 1, view, pass.blocks, shutdownHeight);
    var top := StreamExtends(rewound, s.prevTip.height + 1, view, pass.blocks, shutdownHeight);
  }

  // ----- Recovery from a block conflict -----

  /** After a conflict the wallet's last good block is where it already stands, so recovery is the
      ordinary search from there on a fresh view. However deep the reorg, on success the wallet is
      cut back to a block it recorded itself that lies on the fresh view's chain, and stands there:
      nothing above it survives and everything up to it is kept. */
  lemma RecoveryCutsBack(s: SyncState, repin: Repin)
    requires Sound(s)
    ensures var here := s.prevTip.height;
            match Recover(s, here + 1, repin)
            case Err(e) => here !in s.wallet ==> e == WalletDivergedBelowBirthday(here)
            case Ok(t) =>
              && Anchored(s)
              && repin.snapshot.Ok? && Located(s, repin.snapshot.value, repin.birthday) == Ok(t.prevTip)
              && Stands(s.wallet, t.prevTip) && OnChain(repin.snapshot.value.tip, t.prevTip.hash)
              && (forall k :: k in t.wallet <==> k in s.wallet && k <= t.prevTip.height)
              && (forall k :: k in t.wallet ==> t.wallet[k] == s.wallet[k])
              && t.boundary == s.boundary
              && Sound(t) && Anchored(t) && Clear(t)
              && (Linked(s) && t.prevTip.height <= here ==> Linked(t))
              && (BirthdayOf(repin.birthday) <= here ==> t.prevTip.height <= here)
  {
    hide LocateForkPoint, LocatorFor, FirstShared, OnChain, Ancestor;
    if s.prevTip.height in s.wallet && repin.snapshot.Ok? {
      SearchLands(s, repin.snapshot.value, repin.birthday);
      SearchLandsUpward(s, repin.snapshot.value, repin.birthday);
    }
  }

  /** How deep recovery cuts, on a gap-free, linked record from the birthday or lower on: no deeper than the
      search overshoots. */
  lemma RecoveryDepth(s: SyncState, repin: Repin, view: View, low: nat, birthday: nat, common: nat)
    requires Sound(s) && Anchored(s) && Linked(s) && repin == Repin(Ok(view), Some(birthday), true)
    requires low <= birthday && forall h :: h in LocatorHeights(s.prevTip.height) && h in s.wallet ==> low <= h
    requires Contiguous(s.wallet, low, s.prevTip.height) && ReadsSucceed(view) && view.searchFault.None?
    requires birthday <= common <= s.prevTip.height && Shared(s.wallet, common, view.tip)
    requires forall h :: common < h <= s.prevTip.height ==> !Shared(s.wallet, h, view.tip)
    ensures var d := s.prevTip.height - common;
            var r := Recover(s, s.prevTip.height + 1, repin);
            && r.Ok? && r.value.prevTip.height <= common
            && (s.prevTip.height - r.value.prevTip.height < Max(2 * d, 1) || common - r.value.prevTip.height <= 9)
            && (d > MAX_LOCATOR_DEPTH ==> common - r.value.prevTip.height <= 9)
  {
    hide LocateForkPoint, LocatorHeights;
    ForkPointOvershoot(s.wallet, s.prevTip, low, birthday, common, view);
  }

  // ----- Stale views -----

  /** A stale view costs nothing that was stored. The task goes on from where the pass had come, with
      what it had stored up to there, and as long as the next view still has that block there is
      nothing to rewind. */
  lemma StaleViewKeepsProgress(s: SyncState, turn: Turn, shutdownHeight: Option<nat>, next: View, birthday: Option<nat>)
    returns (forkPoint: ChainBlock, top: nat)
    requires Sound(s) && Anchored(s)
    requires Iterate(s, turn.pass, shutdownHeight).1 == Failed(ChainFailure(Unavailable))
    requires next.searchFault.None? && OnChain(next.tip, TakeTurn(s, turn, shutdownHeight).0.prevTip.hash)
    ensures var (s', status) := TakeTurn(s, turn, shutdownHeight);
            && status == Running && Sound(s') && Anchored(s')
            && Located(s', next, birthday) == Ok(s'.prevTip)
            && ((s'.wallet == s.wallet && s'.prevTip == s.prevTip)
                || (&& turn.pass.repin.snapshot.Ok?
                    && top == s'.prevTip.height
                    && PassRecords(s, s', turn.pass.repin.snapshot.value, Failed(ChainFailure(Unavailable)), forkPoint, top)))
  {
    hide Iterate, LocateForkPoint, LocatorFor, Ancestor;
    var s' := Iterate(s, turn.pass, shutdownHeight).0;
    forkPoint, top := s.prevTip, 0;
    PassKeepsInvariant(s, turn.pass, shutdownHeight);
    if turn.pass.repin.snapshot.Err? || TipOf(turn.pass.repin.snapshot.value) == s.prevTip {
      UnchangedTip(s, turn.pass, shutdownHeight);
    } else {
      forkPoint, top := PassShape(s, turn.pass, shutdownHeight);
    }
    SearchStays(s', next, birthday);
  }

  /** What makes recovery from a conflict at height `h` run into a stale view: capturing the view, the
      fork-point search, or a header that the walk reads before it finds a shared block. */
  ghost predicate RecoveryGoesStale(m: BlockMap, h: nat, repin: Repin) {
    var last := SaturatingSub(h, 1);
    && last in m
    && match repin.snapshot
       case Err(e) => e == Unavailable
       case Ok(view) => SearchFails(m, ChainBlock(last, m[last]), repin.birthday, view, Unavailable)
  }

  /** The pass meets a conflict at height `h`, having filled the record up to there into `m`. */
  ghost predicate ConflictedWith(s: SyncState, pass: Pass, shutdownHeight: Option<nat>, h: nat, m: BlockMap) {
    && Conflicted(s, pass, shutdownHeight, h) && s.prevTip.height < h
    && Filled(s.wallet, m, pass.repin.snapshot.value.tip, s.prevTip.height, h - 1)
  }

  lemma ConflictedWithExactly(s: SyncState, pass: Pass, shutdownHeight: Option<nat>, h: nat, m: BlockMap)
    requires WellFormed(s)
    ensures var (s', r) := Iterate(s, pass, shutdownHeight);
            ConflictedWith(s, pass, shutdownHeight, h, m) <==> r == Failed(BlockConflict(h)) && m == s'.wallet
  {
    hide Iterate, Filled, Ancestor, HasLocator;
    PassConflictsExactly(s, pass, shutdownHeight, h);
    if Conflicted(s, pass, shutdownHeight, h) {
      ConflictLeaves(s, pass, shutdownHeight, h);
      if ConflictedWith(s, pass, shutdownHeight, h, m) {
        FilledOneWay(s.wallet, m, Iterate(s, pass, shutdownHeight).0.wallet, pass.repin.snapshot.value.tip,
                     s.prevTip.height, h - 1);
      }
    }
  }

  /** A pass that meets a stale view is retried, but a stale view is fatal while recovering. The task
      stops on one exactly when the pass meets a conflict and recovery, from the record filled up to
      there, goes stale. */
  lemma StaleViewIsFatalInRecovery(s: SyncState, turn: Turn, shutdownHeight: Option<nat>)
    requires WellFormed(s)
    ensures TakeTurn(s, turn, shutdownHeight).1 == Stopped(ChainFailure(Unavailable))
        <==> exists h, m :: ConflictedWith(s, turn.pass, shutdownHeight, h, m) && RecoveryGoesStale(m, h, turn.recovery)
  {
    hide Iterate, Recover, ConflictedWith, RecoveryGoesStale;
    var (s', r) := Iterate(s, turn.pass, shutdownHeight);
    forall h, m ensures ConflictedWith(s, turn.pass, shutdownHeight, h, m) <==> r == Failed(BlockConflict(h)) && m == s'.wallet {
      ConflictedWithExactly(s, turn.pass, shutdownHeight, h, m);
    }
    if r.Failed? && r.error.BlockConflict? {
      assert ConflictedWith(s, turn.pass, shutdownHeight, r.error.height, s'.wallet);
      RecoveryStopsStale(s', r.error.height, turn.recovery);
    }
  }

  lemma RecoveryStopsStale(s: SyncState, h: nat, repin: Repin)
    ensures Recover(s, h, repin) == Err(ChainFailure(Unavailable)) <==> RecoveryGoesStale(s.wallet, h, repin)
  {
    hide LocateForkPoint, SearchFails;
    var last := SaturatingSub(h, 1);
    if last in s.wallet && repin.snapshot.Ok? {
      SearchFailsExactly(s.wallet, ChainBlock(last, s.wallet[last]), repin.birthday, repin.snapshot.value, Unavailable);
    }
  }

  /** It does happen: the wallet has a block recorded above its position, the view has a sibling of it,
      and the node cannot be reached at the moment that recovery captures its view. */
  lemma StaleRecoveryExample(turn: Turn)
    requires turn.pass.repin.snapshot == Ok(View(Mined(Mined(Genesis, PLAIN), PLAIN.(nonce := 1)), _ => Served, None))
    requires turn.pass.blocks(2) == BlockAnswer(Served, None, true) && turn.recovery.snapshot == Err(Unavailable)
    ensures var here := Mined(Genesis, PLAIN);
            var s := SyncState(map[1 := here, 2 := Mined(here, PLAIN)], ChainBlock(1, here), 0);
            Sound(s) && Anchored(s) && TakeTurn(s, turn, None).1 == Stopped(ChainFailure(Unavailable))
  {
    hide Iterate, LocatorFor;
    var here := Mined(Genesis, PLAIN);
    var s := SyncState(map[1 := here, 2 := Mined(here, PLAIN)], ChainBlock(1, here), 0);
    assert OnChain(turn.pass.repin.snapshot.value.tip, here);
    assert Conflicted(s, turn.pass, None, 2);
    PassConflictsExactly(s, turn.pass, None, 2);
    PassKeepsInvariant(s, turn.pass, None);
    assert Recover(Iterate(s, turn.pass, None).0, 2, turn.recovery) == Err(ChainFailure(Unavailable));
  }

  // ----- Whole runs -----

  lemma TurnKeepsInvariant(s: SyncState, turn: Turn, shutdownHeight: Option<nat>)
    requires Sound(s)
    ensures var (s', status) := TakeTurn(s, turn, shutdownHeight);
            && Sound(s')
            && (Anchored(s) ==> Anchored(s'))
            && (StaysBelow(s.wallet, shutdownHeight) ==> StaysBelow(s'.wallet, shutdownHeight))
  {
    hide Iterate, Recover, Stands, OnChain, Faithful, LinkedUpTo;
    PassKeepsInvariant(s, turn.pass, shutdownHeight);
    RecoveryCutsBack(Iterate(s, turn.pass, shutdownHeight).0, turn.recovery);
  }

  /** Over every run, through reorgs, stale views and conflict recoveries, the wallet's hash where it
      stands is absent or the hash of the block it stands on. A wallet that has recorded the block
      it stands on always has, and nothing is ever stored at or above the shutdown height. */
  lemma {:induction false} RunKeepsInvariant(s: SyncState, turns: seq<Turn>, shutdownHeight: Option<nat>)
    requires Sound(s)
    ensures var s' := Run(s, turns, shutdownHeight).0;
            && Sound(s')
            && (Anchored(s) ==> Anchored(s'))
            && (StaysBelow(s.wallet, shutdownHeight) ==> StaysBelow(s'.wallet, shutdownHeight))
    decreases |turns|
  {
    if turns != [] {
      TurnKeepsInvariant(s, turns[0], shutdownHeight);
      RunKeepsInvariant(TakeTurn(s, turns[0], shutdownHeight).0, turns[1..], shutdownHeight);
    }
  }

  /** Each pass of a run searches with a birthday at or below where the wallet then stands. */
  ghost predicate BirthdaysBelow(s: SyncState, turns: seq<Turn>, shutdownHeight: Option<nat>)
    decreases |turns|
  {
    turns != [] ==>
      && BirthdayOf(turns[0].pass.repin.birthday) <= s.prevTip.height
      && var (s', status) := TakeTurn(s, turns[0], shutdownHeight);
         status == Running ==> BirthdaysBelow(s', turns[1..], shutdownHeight)
  }

  predicate MeetsConflict(s: SyncState, pass: Pass, shutdownHeight: Option<nat>) {
    var r := Iterate(s, pass, shutdownHeight).1;
    r.Failed? && r.error.BlockConflict?
  }

  /** No pass of a run fails on a block conflict. */
  ghost predicate ConflictFree(s: SyncState, turns: seq<Turn>, shutdownHeight: Option<nat>)
    decreases |turns|
  {
    turns != [] ==>
      && !MeetsConflict(s, turns[0].pass, shutdownHeight)
      && var (s', status) := TakeTurn(s, turns[0], shutdownHeight);
         status == Running ==> ConflictFree(s', turns[1..], shutdownHeight)
  }

  lemma PassNeverPanics(s: SyncState, pass: Pass, shutdownHeight: Option<nat>)
    requires Sound(s) && HasLocator(s)
    requires Clear(s) || BirthdayOf(pass.repin.birthday) <= s.prevTip.height
    ensures !Iterate(s, pass, shutdownHeight).1.Panicked?
  {
    hide Iterate, LocatorFor, FirstShared;
    if pass.repin.snapshot.Ok? && TipOf(pass.repin.snapshot.value) != s.prevTip {
      AssertionsExact(s, pass, shutdownHeight);
    } else {
      UnchangedTip(s, pass, shutdownHeight);
    }
  }

  /** The wallet stands, and has recorded blocks, only from height `b` on. */
  predicate RecordedFrom(s: SyncState, b: nat) {
    b <= s.prevTip.height && forall k :: k in s.wallet ==> b <= k
  }

  /** A wallet with a locator is never left without one, nor moved below everything it had recorded. */
  lemma PassKeepsLocator(s: SyncState, pass: Pass, shutdownHeight: Option<nat>, b: nat)
    requires Sound(s) && HasLocator(s)
    ensures var s' := Iterate(s, pass, shutdownHeight).0;
            HasLocator(s') && (RecordedFrom(s, b) ==> RecordedFrom(s', b))
  {
    hide Iterate, LocateForkPoint, LocatorFor, LocatorHeights, ApplyBlocks, Ancestor;
    if pass.repin.snapshot.Err? || TipOf(pass.repin.snapshot.value) == s.prevTip {
      UnchangedTip(s, pass, shutdownHeight);
    } else {
      var view := pass.repin.snapshot.value;
      var (s', r) := Iterate(s, pass, shutdownHeight);
      var forkPoint, top := PassShape(s, pass, shutdownHeight);
      if !(s'.wallet == s.wallet && s'.prevTip == s.prevTip) {
        ForkPointOrigin(s.wallet, s.prevTip, pass.repin.birthday, view);
        RewindingKeepsInvariant(s, forkPoint, view, shutdownHeight);
        ExtendingKeepsSound(Rewound(s, forkPoint, view), s', view.tip, Some(r), top);
        StandingWalletHasALocator(s'.wallet, s'.prevTip.height);
      }
    }
  }

  /** The wallet stands at height `h` or above, and has recorded blocks only above it. */
  predicate RecordedAbove(s: SyncState, h: nat) {
    h <= s.prevTip.height && forall k :: k in s.wallet ==> h < k
  }

  lemma PassStaysAbove(s: SyncState, pass: Pass, shutdownHeight: Option<nat>, h: nat)
    requires Sound(s) && RecordedAbove(s, h)
    ensures RecordedAbove(Iterate(s, pass, shutdownHeight).0, h)
  {
    hide Iterate, LocateForkPoint, LocatorFor, LocatorHeights, ApplyBlocks, Ancestor;
    if pass.repin.snapshot.Err? || TipOf(pass.repin.snapshot.value) == s.prevTip {
      UnchangedTip(s, pass, shutdownHeight);
    } else {
      var forkPoint, top := PassShape(s, pass, shutdownHeight);
      ForkPointOrigin(s.wallet, s.prevTip, pass.repin.birthday, pass.repin.snapshot.value);
    }
  }

  /** No run ever stores a block at or below a height that it starts above with nothing recorded. */
  lemma {:induction false} RunStaysAbove(s: SyncState, turns: seq<Turn>, shutdownHeight: Option<nat>, h: nat)
    requires Sound(s) && RecordedAbove(s, h)
    ensures RecordedAbove(Run(s, turns, shutdownHeight).0, h)
    decreases |turns|
  {
    hide Iterate, Recover, LocatorFor, LocateForkPoint, OnChain;
    if turns != [] {
      PassStaysAbove(s, turns[0].pass, shutdownHeight, h);
      PassKeepsInvariant(s, turns[0].pass, shutdownHeight);
      RecoveryCutsBack(Iterate(s, turns[0].pass, shutdownHeight).0, turns[0].recovery);
      TurnKeepsInvariant(s, turns[0], shutdownHeight);
      RunStaysAbove(TakeTurn(s, turns[0], shutdownHeight).0, turns[1..], shutdownHeight, h);
    }
  }

  lemma TurnKeepsLocator(s: SyncState, turn: Turn, shutdownHeight: Option<nat>, b: nat)
    requires Sound(s) && HasLocator(s)
    ensures var s' := TakeTurn(s, turn, shutdownHeight).0;
            HasLocator(s') && (RecordedFrom(s, b) ==> RecordedFrom(s', b))
  {
    hide Iterate, Recover, LocatorFor, LocateForkPoint, OnChain;
    PassKeepsLocator(s, turn.pass, shutdownHeight, b);
    PassKeepsInvariant(s, turn.pass, shutdownHeight);
    RecoveryCutsBack(Iterate(s, turn.pass, shutdownHeight).0, turn.recovery);
    var s' := TakeTurn(s, turn, shutdownHeight).0;
    if Anchored(s') {
      StandingWalletHasALocator(s'.wallet, s'.prevTip.height);
    }
  }

  /** So no assertion fails in any run of a wallet with a locator, while searches are made with
      birthdays that are not above it. */
  lemma {:induction false} RunNeverPanics(s: SyncState, turns: seq<Turn>, shutdownHeight: Option<nat>)
    requires Sound(s) && HasLocator(s) && BirthdaysBelow(s, turns, shutdownHeight)
    ensures !Run(s, turns, shutdownHeight).1.Crashed?
    decreases |turns|
  {
    if turns != [] {
      PassNeverPanics(s, turns[0].pass, shutdownHeight);
      TurnKeepsInvariant(s, turns[0], shutdownHeight);
      TurnKeepsLocator(s, turns[0], shutdownHeight, 0);
      if TakeTurn(s, turns[0], shutdownHeight).1 == Running {
        RunNeverPanics(TakeTurn(s, turns[0], shutdownHeight).0, turns[1..], shutdownHeight);
      }
    }
  }

  lemma {:induction false} BirthdaysStayBelow(s: SyncState, turns: seq<Turn>, shutdownHeight: Option<nat>, b: nat)
    requires Sound(s) && HasLocator(s) && RecordedFrom(s, b)
    requires forall t :: t in turns ==> BirthdayOf(t.pass.repin.birthday) <= b
    ensures BirthdaysBelow(s, turns, shutdownHeight)
    decreases |turns|
  {
    if turns != [] {
      assert turns[0] in turns;
      TurnKeepsInvariant(s, turns[0], shutdownHeight);
      TurnKeepsLocator(s, turns[0], shutdownHeight, b);
      BirthdaysStayBelow(TakeTurn(s, turns[0], shutdownHeight).0, turns[1..], shutdownHeight, b);
    }
  }

  /** That holds of every run, from conditions on the start alone: the wallet has a locator, and neither
      stands nor has anything recorded below its birthday. */
  lemma RunFromBirthdayNeverPanics(s: SyncState, turns: seq<Turn>, shutdownHeight: Option<nat>, birthday: nat)
    requires Sound(s) && HasLocator(s) && RecordedFrom(s, birthday)
    requires forall t :: t in turns ==> BirthdayOf(t.pass.repin.birthday) <= birthday
    ensures !Run(s, turns, shutdownHeight).1.Crashed?
  {
    BirthdaysStayBelow(s, turns, shutdownHeight, birthday);
    RunNeverPanics(s, turns, shutdownHeight);
  }

  /** A wallet that starts with nothing recorded above its position never meets a conflict, whatever the
      backend does, and keeps nothing above it for as long as it runs. If it has a locator it never
      panics either, whatever the birthdays; a linked record stays linked. */
  lemma {:induction false} ClearRun(s: SyncState, turns: seq<Turn>, shutdownHeight: Option<nat>)
    requires Sound(s) && Clear(s)
    ensures var (s', status) := Run(s, turns, shutdownHeight);
            && Sound(s')
            && (Linked(s) ==> Linked(s'))
            && (HasLocator(s) ==> !status.Crashed? && HasLocator(s'))
            && (status == Running ==> Clear(s'))
            && ConflictFree(s, turns, shutdownHeight)
    decreases |turns|
  {
    hide Iterate, LocatorFor, Linked, Clear;
    if turns != [] {
      PassKeepsInvariant(s, turns[0].pass, shutdownHeight);
      if HasLocator(s) {
        PassNeverPanics(s, turns[0].pass, shutdownHeight);
        PassKeepsLocator(s, turns[0].pass, shutdownHeight, 0);
      }
      var (s', status) := TakeTurn(s, turns[0], shutdownHeight);
      if status == Running {
        ClearRun(s', turns[1..], shutdownHeight);
      }
    }
  }

  /** A conflict costs one turn. A wallet stopped by one is, after recovery on a view it shares a block
      with, clear to follow any view: one pass with every block served brings it to that view's tip. */
  lemma ConflictThenCaughtUp(s: SyncState, turn: Turn, next: Pass, shutdownHeight: Option<nat>, view: View)
    requires Sound(s) && MeetsConflict(s, turn.pass, shutdownHeight)
    requires TakeTurn(s, turn, shutdownHeight).1 == Running
    requires next.repin.snapshot == Ok(view) && next.repin.truncates && ServesAll(next.blocks)
    requires Below(view.tip.Height(), shutdownHeight)
    requires Located(TakeTurn(s, turn, shutdownHeight).0, view, next.repin.birthday).Ok?
    ensures var recovered := TakeTurn(s, turn, shutdownHeight).0;
            var (t, r) := Iterate(recovered, next, shutdownHeight);
            && Clear(recovered) && t.prevTip == TipOf(view) && Sound(t) && Anchored(t)
            && r == FinishPass(view, next, shutdownHeight)
  {
    hide Iterate, LocateForkPoint, LocatorFor, Recover, FinishPass;
    PassKeepsInvariant(s, turn.pass, shutdownHeight);
    RecoveryCutsBack(Iterate(s, turn.pass, shutdownHeight).0, turn.recovery);
    var recovered := TakeTurn(s, turn, shutdownHeight).0;
    PassKeepsInvariant(recovered, next, shutdownHeight);
    StandingWalletHasALocator(recovered.wallet, recovered.prevTip.height);
    if TipOf(view) != recovered.prevTip {
      PassNeverPanics(recovered, next, shutdownHeight);
      PassReachesTip(recovered, next, shutdownHeight, view, Located(recovered, view, next.repin.birthday).value);
    } else {
      UnchangedTip(recovered, next, shutdownHeight);
    }
  }

  // ----- The recovery boundary -----

  /** The tips a run observed to have changed. */
  function ObservedTips(s: SyncState, turns: seq<Turn>, shutdownHeight: Option<nat>): seq<nat>
    decreases |turns|
  {
    if turns == [] then []
    else
      var snapshot := turns[0].pass.repin.snapshot;
      var (s', status) := TakeTurn(s, turns[0], shutdownHeight);
      (if snapshot.Ok? && TipOf(snapshot.value) != s.prevTip then [snapshot.value.tip.Height()] else [])
      + if status == Running then ObservedTips(s', turns[1..], shutdownHeight) else []
  }

  lemma {:induction false} StreamKeepsBoundary(s: SyncState, next: nat, view: View, blocks: nat -> BlockAnswer,
                                               shutdownHeight: Option<nat>)
    ensures ApplyBlocks(s, next, view, blocks, shutdownHeight).0.boundary == s.boundary
    decreases view.tip.Height() + 1 - next
  {
    if next <= view.tip.Height() {
      StreamKeepsBoundary(Onto(s, next, view.tip), next + 1, view, blocks, shutdownHeight);
    }
  }

  lemma PassMovesBoundary(s: SyncState, pass: Pass, shutdownHeight: Option<nat>)
    ensures var snapshot := pass.repin.snapshot;
            Iterate(s, pass, shutdownHeight).0.boundary
            == if snapshot.Ok? && TipOf(snapshot.value) != s.prevTip
               then UpdateBoundary(s.boundary, snapshot.value.tip.Height()) else s.boundary
  {
    hide Iterate, ApplyBlocks, LocateForkPoint;
    if pass.repin.snapshot.Err? || TipOf(pass.repin.snapshot.value) == s.prevTip {
      UnchangedTip(s, pass, shutdownHeight);
    } else {
      var view := pass.repin.snapshot.value;
      PassUnfolds(s, pass, shutdownHeight);
      var located := Located(s, view, pass.repin.birthday);
      if located.Ok? {
        StreamKeepsBoundary(Rewound(s, located.value, view), located.value.height + 1, view, pass.blocks, shutdownHeight);
      }
    }
  }

  lemma TurnMovesBoundary(s: SyncState, turn: Turn, shutdownHeight: Option<nat>)
    ensures var snapshot := turn.pass.repin.snapshot;
            TakeTurn(s, turn, shutdownHeight).0.boundary
            == if snapshot.Ok? && TipOf(snapshot.value) != s.prevTip
               then UpdateBoundary(s.boundary, snapshot.value.tip.Height()) else s.boundary
  {
    hide Iterate;
    PassMovesBoundary(s, turn.pass, shutdownHeight);
  }

  /** The boundary only ratchets forward: after any run it is the greatest of where it started and
      a hundred below each tip observed to change, rising or falling. */
  lemma {:induction false} BoundaryRatchets(s: SyncState, turns: seq<Turn>, shutdownHeight: Option<nat>)
    ensures var b := Run(s, turns, shutdownHeight).0.boundary;
            var tips := ObservedTips(s, turns, shutdownHeight);
            && s.boundary <= b
            && (forall t :: t in tips ==> t - 100 <= b)
            && (b == s.boundary || exists t :: t in tips && b == t - 100)
    decreases |turns|
  {
    if turns != [] {
      hide TakeTurn;
      TurnMovesBoundary(s, turns[0], shutdownHeight);
      var (s', status) := TakeTurn(s, turns[0], shutdownHeight);
      var tips := ObservedTips(s, turns, shutdownHeight);
      if s'.boundary != s.boundary {
        assert tips[0] in tips && s'.boundary == tips[0] - 100;
      }
      if status == Running {
        BoundaryRatchets(s', turns[1..], shutdownHeight);
        assert forall t :: t in ObservedTips(s', turns[1..], shutdownHeight) ==> t in tips;
        assert forall t :: t in tips ==> t == tips[0] || t in ObservedTips(s', turns[1..], shutdownHeight);
      }
    }
  }
}
