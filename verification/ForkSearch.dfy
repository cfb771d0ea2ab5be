/** Finding the block to resume from: the locator answers within the reorg window, and the
    fixed-step walk along the wallet's own record answers below it. */
module ForkSearch {
  import opened Chain
  import opened Locator

  const FORK_SEARCH_STEP: nat := 10

  /** One pinned view of a backend: the chain ending in `tip`, how each header read by height goes,
      and the failure of the fork-point search, if it fails. */
  datatype View = View(tip: BlockHash, headers: nat -> Read, searchFault: Option<ChainError>)

  /** The next height to probe, and whether it is the last one. */
  function RewindStep(height: nat, birthday: nat): (nat, bool) {
    var next := Max(SaturatingSub(height, FORK_SEARCH_STEP), birthday);
    (next, next <= birthday)
  }

  /** Whether the view's header at height `h` is the wallet's block there. The header is read only
      if the wallet has a block; above the view's tip there is none. */
  function Probe(m: BlockMap, h: nat, view: View): Result<bool, SyncError> {
    if h !in m then Ok(false)
    else match view.headers(h)
      case Served => Ok(h <= view.tip.Height() && Ancestor(view.tip, h) == m[h])
      case Missing => Ok(false)
      case Fails(e) => Err(ChainFailure(e))
  }

  function StepBack(m: BlockMap, height: nat, birthday: nat, view: View): Result<ChainBlock, SyncError>
    decreases height
  {
    var (next, last) := RewindStep(height, birthday);
    match Probe(m, next, view)
    case Err(e) => Err(e)
    case Ok(found) =>
      if found then Ok(ChainBlock(next, m[next]))
      else if last then Err(WalletDivergedBelowBirthday(birthday))
      else StepBack(m, next, birthday, view)
  }

  method StepBackToBestChain(m: BlockMap, prevTip: ChainBlock, birthday: nat, view: View)
    returns (r: Result<ChainBlock, SyncError>)
    ensures r == StepBack(m, prevTip.height, birthday, view)
  {
    var height := prevTip.height;
    while true
      invariant StepBack(m, prevTip.height, birthday, view) == StepBack(m, height, birthday, view)
      decreases height
    {
      var (next, reachedBirthday) := RewindStep(height, birthday);
      if next in m {
        var read := view.headers(next);
        if read.Fails? {
          return Err(ChainFailure(read.error));
        }
        if read.Served? && next <= view.tip.Height() && Ancestor(view.tip, next) == m[next] {
          return Ok(ChainBlock(next, m[next]));
        }
      }
      if reachedBirthday {
        return Err(WalletDivergedBelowBirthday(birthday));
      }
      height := next;
    }
  }

  // ----- Termination and completeness of the walk -----

  /** The heights a walk probes before it gives up, in order. */
  function Probes(height: nat, birthday: nat): (r: seq<nat>)
    decreases height
    ensures r != [] && forall q :: q in r ==> birthday <= q <= r[0]
  {
    var (next, last) := RewindStep(height, birthday);
    [next] + if last then [] else Probes(next, birthday)
  }

  lemma {:induction false} ProbeHeights(height: nat, birthday: nat)
    requires birthday < height
    ensures var p := Probes(height, birthday);
            && 10 * (|p| - 1) < height - birthday <= 10 * |p|
            && forall i :: 0 <= i < |p| ==> p[i] == Max(height - 10 * (i + 1), birthday)
    decreases height
  {
    var (next, last) := RewindStep(height, birthday);
    if !last {
      ProbeHeights(next, birthday);
      var p, q := Probes(height, birthday), Probes(next, birthday);
      assert p == [next] + q;
      forall i | 0 <= i < |p| ensures p[i] == Max(height - 10 * (i + 1), birthday) {
        if i > 0 {
          assert p[i] == q[i - 1];
        }
      }
    }
  }

  /** A walk from above the birthday goes strictly down to the birthday, which it probes last, and
      takes exactly one probe for every ten blocks or part of ten. */
  lemma WalkReachesBirthday(height: nat, birthday: nat)
    requires birthday < height
    ensures var p := Probes(height, birthday);
            && StrictlyDecreasing([height] + p)
            && p[|p| - 1] == birthday
            && |p| == (height - birthday + 9) / 10
  {
    ProbeHeights(height, birthday);
  }

  ghost predicate ReadsSucceed(view: View) {
    forall h :: view.headers(h) == Served
  }

  /** The wallet has a block at `h`, and the view has the same one. */
  predicate Shared(m: BlockMap, h: nat, tip: BlockHash) {
    h in m && h <= tip.Height() && Ancestor(tip, h) == m[h]
  }

  lemma SharedIsOnChain(m: BlockMap, h: nat, tip: BlockHash)
    requires Faithful(m) && h in m
    ensures Shared(m, h, tip) <==> OnChain(tip, m[h])
  {}

  /** When every read succeeds, the walk's answer is the highest shared probe, and it reports
      divergence exactly when no probe is shared. */
  lemma {:induction false} WalkIsComplete(m: BlockMap, height: nat, birthday: nat, view: View)
    requires ReadsSucceed(view)
    ensures var p := Probes(height, birthday);
            match StepBack(m, height, birthday, view)
            case Ok(b) => && b.height in p && Shared(m, b.height, view.tip) && b.hash == m[b.height]
                          && forall q :: q in p && b.height < q ==> !Shared(m, q, view.tip)
            case Err(e) => && e == WalletDivergedBelowBirthday(birthday)
                           && forall q :: q in p ==> !Shared(m, q, view.tip)
    decreases height
  {
    var (next, last) := RewindStep(height, birthday);
    assert Probes(height, birthday)[0] == next;
    if !last && !Shared(m, next, view.tip) {
      WalkIsComplete(m, next, birthday, view);
    }
  }

  /** Whatever the reads do, a found block is one the wallet recorded and the view shares. */
  lemma {:induction false} WalkFindsShared(m: BlockMap, height: nat, birthday: nat, view: View)
    ensures var r := StepBack(m, height, birthday, view);
            match r
            case Ok(b) => && Shared(m, b.height, view.tip) && b.hash == m[b.height]
                          && birthday <= b.height
                          && (birthday < height ==> b.height < height)
                          && (height <= birthday ==> b.height == birthday)
            case Err(e) => e.ChainFailure? || e == WalletDivergedBelowBirthday(birthday)
  {
    var (next, last) := RewindStep(height, birthday);
    if Probe(m, next, view) == Ok(false) && !last {
      WalkFindsShared(m, next, birthday, view);
    }
  }

  /** The walk gets as far as probe `i`, where the header of a recorded block cannot be read. */
  predicate FailsAtProbe(m: BlockMap, height: nat, birthday: nat, view: View, i: nat, e: ChainError) {
    var p := Probes(height, birthday);
    && i < |p| && p[i] in m && view.headers(p[i]) == Fails(e)
    && forall j :: 0 <= j < i ==> Probe(m, p[j], view) == Ok(false)
  }

  ghost predicate WalkFails(m: BlockMap, height: nat, birthday: nat, view: View, e: ChainError) {
    exists i :: FailsAtProbe(m, height, birthday, view, i, e)
  }

  lemma FirstProbe(m: BlockMap, height: nat, birthday: nat, view: View, e: ChainError)
    ensures FailsAtProbe(m, height, birthday, view, 0, e)
        <==> Probe(m, RewindStep(height, birthday).0, view) == Err(ChainFailure(e))
  {
    assert Probes(height, birthday)[0] == RewindStep(height, birthday).0;
  }

  lemma LaterProbe(m: BlockMap, height: nat, birthday: nat, view: View, i: nat, e: ChainError)
    ensures var (next, last) := RewindStep(height, birthday);
            FailsAtProbe(m, height, birthday, view, i + 1, e)
            <==> !last && Probe(m, next, view) == Ok(false) && FailsAtProbe(m, next, birthday, view, i, e)
  {
    hide Probe;
    var (next, last) := RewindStep(height, birthday);
    var p := Probes(height, birthday);
    if !last {
      var q := Probes(next, birthday);
      assert p == [next] + q && p[0] == next && |p| == |q| + 1;
      assert forall j :: 0 < j < |p| ==> p[j] == q[j - 1];
      if FailsAtProbe(m, height, birthday, view, i + 1, e) {
        assert forall j :: 0 <= j < i ==> q[j] == p[j + 1];
        assert p[i + 1] == q[i];
      }
    }
  }

  /** The walk fails on a read exactly when one of its probes does, before any is found shared. */
  lemma {:induction false} WalkFailsExactly(m: BlockMap, height: nat, birthday: nat, view: View, e: ChainError)
    ensures StepBack(m, height, birthday, view) == Err(ChainFailure(e))
        <==> WalkFails(m, height, birthday, view, e)
    decreases height
  {
    hide FailsAtProbe, Probe;
    var (next, last) := RewindStep(height, birthday);
    FirstProbe(m, height, birthday, view, e);
    forall i: nat ensures FailsAtProbe(m, height, birthday, view, i, e)
                     <==> if i == 0 then Probe(m, next, view) == Err(ChainFailure(e))
                          else !last && Probe(m, next, view) == Ok(false) && FailsAtProbe(m, next, birthday, view, i - 1, e)
    {
      if i > 0 {
        LaterProbe(m, height, birthday, view, i - 1, e);
      }
    }
    if Probe(m, next, view) == Ok(false) && !last {
      WalkFailsExactly(m, next, birthday, view, e);
      if i: nat :| FailsAtProbe(m, next, birthday, view, i, e) {
        assert FailsAtProbe(m, height, birthday, view, i + 1, e);
      }
    } else {
      assert FailsAtProbe(m, height, birthday, view, 0, e) <==> Probe(m, next, view) == Err(ChainFailure(e));
    }
  }

  /** And it reports divergence exactly when every probe is read and none is found on the view: so also
      when a block that the wallet shares with the view has gone missing there. */
  lemma {:induction false} WalkDivergesExactly(m: BlockMap, height: nat, birthday: nat, view: View)
    ensures StepBack(m, height, birthday, view) == Err(WalletDivergedBelowBirthday(birthday))
        <==> forall q :: q in Probes(height, birthday) ==> Probe(m, q, view) == Ok(false)
    decreases height
  {
    var (next, last) := RewindStep(height, birthday);
    assert Probes(height, birthday)[0] == next;
    if !last {
      assert Probes(height, birthday) == [next] + Probes(next, birthday);
      WalkDivergesExactly(m, next, birthday, view);
    }
  }

  /** On a gap-free, linked record whose highest shared block is at `common`, the walk resumes from
      a shared block at most nine below it. */
  lemma {:induction false} WalkOvershoot(m: BlockMap, top: nat, height: nat, birthday: nat, common: nat, view: View)
    requires Faithful(m) && Contiguous(m, birthday, top) && LinkedUpTo(m, top) && ReadsSucceed(view)
    requires birthday <= common < height <= top
    requires Shared(m, common, view.tip)
    requires forall h :: common < h <= top ==> !Shared(m, h, view.tip)
    ensures var r := StepBack(m, height, birthday, view);
            && r.Ok? && Shared(m, r.value.height, view.tip) && r.value.hash == m[r.value.height]
            && common - (FORK_SEARCH_STEP - 1) <= r.value.height <= common
    decreases height
  {
    var (next, last) := RewindStep(height, birthday);
    if next <= common {
      SharedIsDownwardClosed(m, next, common, view.tip);
    } else {
      assert !Shared(m, next, view.tip) && view.headers(next) == Served;
      WalkOvershoot(m, top, next, birthday, common, view);
    }
  }

  // ----- The two searches together -----

  function BirthdayOf(birthday: Option<nat>): nat {
    if birthday.Some? then birthday.value else 0
  }

  function LocateForkPoint(m: BlockMap, prevTip: ChainBlock, birthday: Option<nat>, view: View)
    : Result<ChainBlock, SyncError>
  {
    var locator := LocatorFor(m, prevTip.height);
    if view.searchFault.Some? then Err(ChainFailure(view.searchFault.value))
    else match FirstShared(locator, view.tip)
      case Some(forkPoint) => Ok(forkPoint)
      case None =>
        if locator == [] then Ok(prevTip)
        else StepBack(m, prevTip.height, BirthdayOf(birthday), view)
  }

  /** Fails outright only by the locator's panic, which cannot happen. */
  method Locate(m: BlockMap, prevTip: ChainBlock, birthday: Option<nat>, view: View)
    returns (r: Result<ChainBlock, SyncError>)
    ensures r == LocateForkPoint(m, prevTip, birthday, view)
  {
    var floor := BirthdayOf(birthday);
    var locator := BuildBlockLocator(m, prevTip.height);
    if view.searchFault.Some? {
      return Err(ChainFailure(view.searchFault.value));
    }
    var forkPoint := FirstShared(locator.value.hashes, view.tip);
    if forkPoint.Some? {
      return Ok(forkPoint.value);
    }
    if locator.value.hashes == [] {
      return Ok(prevTip);
    }
    r := StepBackToBestChain(m, prevTip, floor, view);
  }

  /** A wallet that has recorded the block it stands on. */
  predicate Stands(m: BlockMap, p: ChainBlock) {
    p.height in m && m[p.height] == p.hash
  }

  lemma StandingWalletHasALocator(m: BlockMap, top: nat)
    requires top in m
    ensures LocatorFor(m, top) != []
  {
    LocatorShape(top);
    RecordedComplete(m, LocatorHeights(top), top);
  }

  /** Where the search can land. Every answer is a block the wallet recorded and the view shares,
      except that an empty locator answers with the wallet's own position. The answer lies at or
      below that position unless the walk was sent up to a later birthday. */
  lemma ForkPointOrigin(m: BlockMap, p: ChainBlock, birthday: Option<nat>, view: View)
    requires Faithful(m) && p.Genuine()
    ensures var r := LocateForkPoint(m, p, birthday, view);
            var floor := BirthdayOf(birthday);
            match r
            case Ok(b) => && b.Genuine()
                          && (LocatorFor(m, p.height) == [] ==> b == p)
                          && (LocatorFor(m, p.height) != [] ==> Stands(m, b) && OnChain(view.tip, b.hash))
                          && (b.height <= p.height
                              || (b.height == floor && FirstShared(LocatorFor(m, p.height), view.tip).None?))
            case Err(e) => e.ChainFailure? || e == WalletDivergedBelowBirthday(floor)
  {
    ForkPointIsHighestShared(m, p.height, view.tip);
    LocatorShape(p.height);
    WalkFindsShared(m, p.height, BirthdayOf(birthday), view);
  }

  /** When the whole search fails on a read: the fork-point search itself does, or the walk it falls
      back to does. */
  ghost predicate SearchFails(m: BlockMap, p: ChainBlock, birthday: Option<nat>, view: View, e: ChainError) {
    || view.searchFault == Some(e)
    || (&& view.searchFault.None?
        && LocatorFor(m, p.height) != [] && (forall b :: b in LocatorFor(m, p.height) ==> !OnChain(view.tip, b))
        && WalkFails(m, p.height, BirthdayOf(birthday), view, e))
  }

  lemma SearchFailsExactly(m: BlockMap, p: ChainBlock, birthday: Option<nat>, view: View, e: ChainError)
    ensures LocateForkPoint(m, p, birthday, view) == Err(ChainFailure(e)) <==> SearchFails(m, p, birthday, view, e)
  {
    hide WalkFails, StepBack, LocatorFor, OnChain;
    WalkFailsExactly(m, p.height, BirthdayOf(birthday), view, e);
  }

  /** When the whole search reports divergence: nothing in the locator is shared, and every probe is read
      without being found on the view. */
  ghost predicate SearchDiverges(m: BlockMap, p: ChainBlock, birthday: Option<nat>, view: View) {
    && view.searchFault.None?
    && LocatorFor(m, p.height) != [] && (forall b :: b in LocatorFor(m, p.height) ==> !OnChain(view.tip, b))
    && (forall q :: q in Probes(p.height, BirthdayOf(birthday)) ==> Probe(m, q, view) == Ok(false))
  }

  lemma SearchDivergesExactly(m: BlockMap, p: ChainBlock, birthday: Option<nat>, view: View)
    ensures LocateForkPoint(m, p, birthday, view) == Err(WalletDivergedBelowBirthday(BirthdayOf(birthday)))
        <==> SearchDiverges(m, p, birthday, view)
  {
    hide StepBack, Probe, Probes, LocatorFor, OnChain;
    WalkDivergesExactly(m, p.height, BirthdayOf(birthday), view);
  }

  /** A wallet without a birthday is searched down to the genesis block. */
  lemma NoBirthdayIsGenesis(m: BlockMap, p: ChainBlock, view: View)
    ensures LocateForkPoint(m, p, None, view) == LocateForkPoint(m, p, Some(0), view)
    ensures p.height > 0 ==> var q := Probes(p.height, BirthdayOf(None)); q[|q| - 1] == 0
  {
    if p.height > 0 {
      WalkReachesBirthday(p.height, 0);
    }
  }

  /** How far the whole search can overshoot. On a gap-free, linked record from height `low` on, at or
      below the birthday, if the highest shared block lies `d` blocks down, the search resumes less than `2 * d` down, or at most
      nine blocks below that block. It loses nothing when the depth is zero or a power of two within the
      window; the first bound holds when the record reaches twice as deep or spans the window; the
      second when the block lies below the window. */
  lemma ForkPointOvershoot(m: BlockMap, p: ChainBlock, low: nat, birthday: nat, common: nat, view: View)
    requires Faithful(m) && low <= birthday && Contiguous(m, low, p.height) && LinkedUpTo(m, p.height)
    requires forall h :: h in LocatorHeights(p.height) && h in m ==> low <= h
    requires ReadsSucceed(view) && view.searchFault.None?
    requires birthday <= common <= p.height && Shared(m, common, view.tip)
    requires forall h :: common < h <= p.height ==> !Shared(m, h, view.tip)
    ensures var r := LocateForkPoint(m, p, Some(birthday), view);
            var d := p.height - common;
            && r.Ok? && Stands(m, r.value) && OnChain(view.tip, r.value.hash) && r.value.height <= common
            && (p.height - r.value.height < Max(2 * d, 1) || common - r.value.height <= 9)
            && (d == 0 || (PowerOfTwo(d) && d <= MAX_LOCATOR_DEPTH) ==> r.value.height == common)
            && (d <= MAX_LOCATOR_DEPTH && low <= Max(p.height - 2 * d + 1, p.height - MAX_LOCATOR_DEPTH)
                ==> p.height - r.value.height < Max(2 * d, 1))
            && (d > MAX_LOCATOR_DEPTH ==> common - r.value.height <= 9)
  {
    hide LocatorHeights, LocatorFor, FirstShared, StepBack, PowerOfTwo, OnChain, LinkedUpTo, Faithful;
    var d := p.height - common;
    var hs := LocatorHeights(p.height);
    ForkPointIsHighestShared(m, p.height, view.tip);
    LocatorShape(p.height);
    StandingWalletHasALocator(m, p.height);
    SharedSamples(m, p.height, low, common, view.tip);
    if d == 0 {
      assert hs[0] in hs;
    } else {
      if d <= MAX_LOCATOR_DEPTH {
        LocatorOvershoot(p.height, d);
      }
      WalkOvershoot(m, p.height, p.height, birthday, common, view);
      var walked := StepBack(m, p.height, birthday, view).value.height;
      SharedIsOnChain(m, walked, view.tip);
    }
  }

  /** The samples that are recorded and shared are those up to the highest shared block. */
  lemma SharedSamples(m: BlockMap, top: nat, low: nat, common: nat, tip: BlockHash)
    requires Faithful(m) && Contiguous(m, low, top) && LinkedUpTo(m, top)
    requires forall h :: h in LocatorHeights(top) && h in m ==> low <= h
    requires low <= common <= top && Shared(m, common, tip)
    requires forall h :: common < h <= top ==> !Shared(m, h, tip)
    ensures forall h :: h in LocatorHeights(top) && h in m ==> (OnChain(tip, m[h]) <==> h <= common)
  {
    hide LocatorHeights;
    LocatorShape(top);
    forall h | h in LocatorHeights(top) && h in m ensures OnChain(tip, m[h]) <==> h <= common {
      SharedIsOnChain(m, h, tip);
      if h <= common {
        SharedIsDownwardClosed(m, h, common, tip);
      }
    }
  }
}
