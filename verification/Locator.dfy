/** Block locators: which heights a locator samples, how it is built from the wallet's record, and
    how far below the true fork point the highest shared sample can lie. */
module Locator {
  import opened Chain

  /** How far below the tip a locator reaches: the window in which reorgs can happen. */
  const MAX_LOCATOR_DEPTH: nat := 1000

  /** One more than the largest 32-bit step. */
  const STEP_LIMIT: nat := 0x1_0000_0000

  /** `tip - step`, `tip - 2 * step`, `tip - 4 * step`, ... until the step overflows 32 bits; a
      step past the genesis block contributes nothing. */
  function Exponential(tip: nat, step: nat): seq<nat>
    requires 0 < step
    decreases STEP_LIMIT - step
  {
    if step >= STEP_LIMIT then []
    else (if step <= tip then [tip - step] else []) + Exponential(tip, 2 * step)
  }

  /** The longest prefix of `heights` that stays above `floor`. */
  function TakeAbove(heights: seq<nat>, floor: nat): seq<nat> {
    if heights == [] || heights[0] <= floor then [] else [heights[0]] + TakeAbove(heights[1..], floor)
  }

  function LocatorHeights(tip: nat): seq<nat> {
    var floor := SaturatingSub(tip, MAX_LOCATOR_DEPTH);
    TakeAbove([tip] + Exponential(tip, 1), floor) + [floor]
  }

  // ----- The shape of the sampled heights -----

  predicate StrictlyDecreasing(s: seq<nat>) {
    forall i, j :: 0 <= i < j < |s| ==> s[j] < s[i]
  }

  /** The sampled heights once the steps reach `step`: one sample for each doubling that stays
      above the floor. */
  function Ladder(tip: nat, step: nat): (r: seq<nat>)
    requires 0 < step
    decreases MAX_LOCATOR_DEPTH - step
    ensures StrictlyDecreasing(r)
    ensures forall i :: 0 <= i < |r| ==> SaturatingSub(tip, MAX_LOCATOR_DEPTH) < r[i] <= tip - step
  {
    if step < Min(tip, MAX_LOCATOR_DEPTH) then [tip - step] + Ladder(tip, 2 * step) else []
  }

  lemma {:induction false} NothingBelowGenesis(tip: nat, step: nat)
    requires tip < step
    ensures Exponential(tip, step) == []
    decreases STEP_LIMIT - step
  {
    if step < STEP_LIMIT {
      NothingBelowGenesis(tip, 2 * step);
    }
  }

  lemma {:induction false} ExponentialIsLadder(tip: nat, step: nat)
    requires 0 < step
    ensures TakeAbove(Exponential(tip, step), SaturatingSub(tip, MAX_LOCATOR_DEPTH))
         == if step < STEP_LIMIT then Ladder(tip, step) else []
    decreases STEP_LIMIT - step
  {
    var floor := SaturatingSub(tip, MAX_LOCATOR_DEPTH);
    if tip < step {
      NothingBelowGenesis(tip, step);
    } else if step < STEP_LIMIT {
      var rest := Exponential(tip, 2 * step);
      assert Exponential(tip, step) == [tip - step] + rest;
      assert ([tip - step] + rest)[1..] == rest;
      if step < Min(tip, MAX_LOCATOR_DEPTH) {
        ExponentialIsLadder(tip, 2 * step);
      }
    }
  }

  /** The heights are the tip, the ladder and the floor; the genesis tip has only itself. */
  lemma LocatorLayout(tip: nat)
    ensures LocatorHeights(tip)
         == if tip == 0 then [0] else [tip] + Ladder(tip, 1) + [SaturatingSub(tip, MAX_LOCATOR_DEPTH)]
  {
    var floor := SaturatingSub(tip, MAX_LOCATOR_DEPTH);
    ExponentialIsLadder(tip, 1);
    assert ([tip] + Exponential(tip, 1))[1..] == Exponential(tip, 1);
    if tip == 0 {
      assert TakeAbove([tip] + Exponential(tip, 1), floor) == [];
    }
  }

  function Doubled(step: nat, n: nat): nat
    decreases n
  {
    if n == 0 then step else Doubled(2 * step, n - 1)
  }

  /** At most `n` doublings of `step` stay below the window's depth. */
  lemma {:induction false} LadderLength(tip: nat, step: nat, n: nat)
    requires 0 < step && MAX_LOCATOR_DEPTH <= Doubled(step, n)
    ensures |Ladder(tip, step)| <= n
    decreases n
  {
    if step < Min(tip, MAX_LOCATOR_DEPTH) {
      LadderLength(tip, 2 * step, n - 1);
    }
  }

  lemma LocatorShape(tip: nat)
    ensures StrictlyDecreasing(LocatorHeights(tip))
    ensures 1 <= |LocatorHeights(tip)| <= 12
    ensures LocatorHeights(tip)[0] == tip
    ensures LocatorHeights(tip)[|LocatorHeights(tip)| - 1] == Max(tip - 1000, 0)
  {
    LocatorLayout(tip);
    assert Doubled(1, 10) == Doubled(32, 5) == 1024;
    LadderLength(tip, 1, 10);
  }

  // ----- Overshoot -----

  /** The first of `heights` that does not lie above `fork`. */
  function ShallowestAtOrBelow(heights: seq<nat>, fork: nat): (r: nat)
    requires heights != [] && heights[|heights| - 1] <= fork
    ensures r <= fork && r in heights
  {
    if heights[0] <= fork then heights[0] else ShallowestAtOrBelow(heights[1..], fork)
  }

  ghost predicate PowerOfTwo(d: nat) {
    exists n: nat :: d == Doubled(1, n)
  }

  lemma {:induction false} DoubledAgain(step: nat, n: nat)
    ensures Doubled(step, n) >= step && Doubled(2 * step, n) == 2 * Doubled(step, n)
    decreases n
  {
    if n > 0 {
      DoubledAgain(2 * step, n - 1);
    }
  }

  /** From a rung less than twice as deep as the fork, the first sample at or below the fork is
      less than twice as deep too, and exactly as deep if the rungs hit that depth. */
  lemma {:induction false} LadderOvershoot(tip: nat, step: nat, d: nat)
    requires 0 < step < 2 * d && d <= Min(tip, MAX_LOCATOR_DEPTH)
    ensures var s := ShallowestAtOrBelow(Ladder(tip, step) + [SaturatingSub(tip, MAX_LOCATOR_DEPTH)], tip - d);
            tip - 2 * d < s && forall n: nat :: d == Doubled(step, n) ==> s == tip - d
    decreases MAX_LOCATOR_DEPTH - step
  {
    var floor := SaturatingSub(tip, MAX_LOCATOR_DEPTH);
    forall n: nat ensures Doubled(step, n) >= step {
      DoubledAgain(step, n);
    }
    if step < Min(tip, MAX_LOCATOR_DEPTH) {
      var rest := Ladder(tip, 2 * step) + [floor];
      assert Ladder(tip, step) + [floor] == [tip - step] + rest;
      assert ([tip - step] + rest)[1..] == rest;
      if step < d {
        LadderOvershoot(tip, 2 * step, d);
        assert forall n: nat :: d == Doubled(step, n) ==> n > 0 && d == Doubled(2 * step, n - 1);
      }
    } else {
      assert Ladder(tip, step) + [floor] == [floor];
    }
  }

  /** A fork `d` blocks deep is answered by a sample less than `2 * d` deep. */
  lemma LocatorOvershoot(tip: nat, d: nat)
    requires 1 <= d <= Min(tip, MAX_LOCATOR_DEPTH)
    ensures var hs := LocatorHeights(tip);
            && hs != [] && hs[|hs| - 1] <= tip - d
            && tip - ShallowestAtOrBelow(hs, tip - d) < 2 * d
            && (PowerOfTwo(d) ==> ShallowestAtOrBelow(hs, tip - d) == tip - d)
  {
    hide LocatorHeights, Ladder;
    LocatorLayout(tip);
    var tail := Ladder(tip, 1) + [SaturatingSub(tip, MAX_LOCATOR_DEPTH)];
    assert LocatorHeights(tip) == [tip] + tail;
    assert LocatorHeights(tip)[1..] == tail;
    LadderOvershoot(tip, 1, d);
  }

  // ----- Building a locator -----

  predicate Descending(blocks: seq<ChainBlock>) {
    forall i, j :: 0 <= i < j < |blocks| ==> blocks[j].height < blocks[i].height
  }

  function Hashes(blocks: seq<ChainBlock>): (r: seq<BlockHash>)
    ensures |r| == |blocks| && forall i :: 0 <= i < |r| ==> r[i] == blocks[i].hash
  {
    seq(|blocks|, i requires 0 <= i < |blocks| => blocks[i].hash)
  }

  /** The wallet's blocks at `heights`, in that order, leaving out the heights it has none for. */
  function Recorded(m: BlockMap, heights: seq<nat>): (r: seq<ChainBlock>)
    ensures forall b :: b in r ==> b.height in heights && b.height in m && b.hash == m[b.height]
  {
    if heights == [] then []
    else (if heights[0] in m then [ChainBlock(heights[0], m[heights[0]])] else []) + Recorded(m, heights[1..])
  }

  /** The locator for a wallet that last stood at height `tip`. */
  function LocatorFor(m: BlockMap, tip: nat): seq<BlockHash> {
    Hashes(Recorded(m, LocatorHeights(tip)))
  }

  lemma {:induction false} RecordedComplete(m: BlockMap, heights: seq<nat>, h: nat)
    requires h in heights && h in m
    ensures ChainBlock(h, m[h]) in Recorded(m, heights)
  {
    if heights[0] != h {
      RecordedComplete(m, heights[1..], h);
    }
  }

  lemma NothingRecorded(heights: seq<nat>)
    ensures Recorded(map[], heights) == []
  {
    if Recorded(map[], heights) != [] {
      assert Recorded(map[], heights)[0] in Recorded(map[], heights);
    }
  }

  /** Leaving heights out keeps the rest strictly decreasing. */
  lemma {:induction false} RecordedDescends(m: BlockMap, heights: seq<nat>)
    requires StrictlyDecreasing(heights)
    ensures Descending(Recorded(m, heights))
  {
    if heights != [] {
      var rest := Recorded(m, heights[1..]);
      RecordedDescends(m, heights[1..]);
      assert forall i :: 0 <= i < |rest| ==> rest[i] in rest && rest[i].height in heights[1..];
    }
  }

  /** A list of the caller's block hashes, highest first. */
  datatype BlockLocator = BlockLocator(hashes: seq<BlockHash>)

  /** `None` stands for the panic on a list whose heights do not strictly decrease. */
  method FromBlocks(blocks: seq<ChainBlock>) returns (r: Option<BlockLocator>)
    ensures r.Some? <==> Descending(blocks)
    ensures r.Some? ==> r.value.hashes == Hashes(blocks)
  {
    var hashes: seq<BlockHash> := [];
    var prevHeight: Option<nat> := None;
    for i := 0 to |blocks|
      invariant Descending(blocks[..i])
      invariant prevHeight == if i == 0 then None else Some(blocks[i - 1].height)
      invariant hashes == Hashes(blocks[..i])
    {
      if prevHeight.Some? && !(blocks[i].height < prevHeight.value) {
        return None;
      }
      prevHeight := Some(blocks[i].height);
      hashes := hashes + [blocks[i].hash];
      assert blocks[..i + 1] == blocks[..i] + [blocks[i]];
    }
    assert blocks[..|blocks|] == blocks;
    return Some(BlockLocator(hashes));
  }

  /** Building a locator never hits that panic. */
  method BuildBlockLocator(m: BlockMap, tip: nat) returns (r: Option<BlockLocator>)
    ensures r == Some(BlockLocator(LocatorFor(m, tip)))
  {
    var heights := LocatorHeights(tip);
    var blocks: seq<ChainBlock> := [];
    for i := 0 to |heights|
      invariant blocks + Recorded(m, heights[i..]) == Recorded(m, heights)
    {
      if heights[i] in m {
        blocks := blocks + [ChainBlock(heights[i], m[heights[i]])];
      }
    }
    assert heights[|heights|..] == [] && blocks == Recorded(m, heights);
    LocatorShape(tip);
    RecordedDescends(m, heights);
    r := FromBlocks(blocks);
  }

  // ----- Searching for the fork point -----

  /** The contract of a backend's fork-point search: the first of the hashes on its chain. */
  function FirstShared(hashes: seq<BlockHash>, tip: BlockHash): (r: Option<ChainBlock>)
    ensures r.Some? ==> r.value.Genuine() && r.value.hash in hashes && OnChain(tip, r.value.hash)
    ensures r.None? <==> forall b :: b in hashes ==> !OnChain(tip, b)
  {
    if hashes == [] then None
    else if OnChain(tip, hashes[0]) then Some(ChainBlock(hashes[0].Height(), hashes[0]))
    else FirstShared(hashes[1..], tip)
  }

  lemma {:induction false} FirstSharedIsHighest(blocks: seq<ChainBlock>, tip: BlockHash, b: ChainBlock)
    requires Descending(blocks) && (forall c :: c in blocks ==> c.Genuine())
    requires b in blocks && OnChain(tip, b.hash)
    ensures FirstShared(Hashes(blocks), tip).Some?
    ensures FirstShared(Hashes(blocks), tip).value in blocks
    ensures b.height <= FirstShared(Hashes(blocks), tip).value.height
  {
    assert blocks[0] in blocks;
    assert Hashes(blocks)[1..] == Hashes(blocks[1..]);
    if !OnChain(tip, blocks[0].hash) {
      FirstSharedIsHighest(blocks[1..], tip, b);
    }
  }

  /** Under that contract the answer to the wallet's locator is its highest sampled block that the
      view shares, and there is none exactly when the view shares none of them. */
  lemma ForkPointIsHighestShared(m: BlockMap, top: nat, tip: BlockHash)
    requires Faithful(m)
    ensures var r := FirstShared(LocatorFor(m, top), tip);
            var hs := LocatorHeights(top);
            && (r.Some? ==> && r.value.height in hs && r.value.height in m && r.value.hash == m[r.value.height]
                            && OnChain(tip, r.value.hash)
                            && forall h :: h in hs && h in m && OnChain(tip, m[h]) ==> h <= r.value.height)
            && (r.None? ==> forall h :: h in hs && h in m ==> !OnChain(tip, m[h]))
  {
    var hs := LocatorHeights(top);
    var blocks := Recorded(m, hs);
    var r := FirstShared(Hashes(blocks), tip);
    LocatorShape(top);
    RecordedDescends(m, hs);
    if r.Some? {
      var i :| 0 <= i < |blocks| && Hashes(blocks)[i] == r.value.hash;
      assert blocks[i] in blocks;
    }
    forall h | h in hs && h in m && OnChain(tip, m[h])
      ensures r.Some? && h <= r.value.height
    {
      RecordedComplete(m, hs, h);
      FirstSharedIsHighest(blocks, tip, ChainBlock(h, m[h]));
    }
  }
}
