/** The pinned view of a backend that reads a node's own state: heights resolve to hashes by walking
    parent pointers down from the captured tip, memoized in a map that all clones of the view share. */
module ChainView {
  import opened Chain

  /** How far the chain of a view can still be replaced; what lies lower is read by height. */
  const MAX_REORG_DEPTH: nat := 1000

  /** The memo map, held by every clone of a view. `lowest` and `lookups` record how far down it has
      been filled, and how many headers have been read to fill it. */
  class Cache {
    var entries: map<nat, BlockHash>
    ghost var lowest: nat
    ghost var lookups: nat

    constructor (tip: ChainBlock)
      ensures entries == map[tip.height := tip.hash]
      ensures lowest == tip.height && lookups == 0
    {
      entries := map[tip.height := tip.hash];
      lowest := tip.height;
      lookups := 0;
    }
  }

  /** How the backend answers while one call runs. What it serves for a hash is what the hash commits
      to; whether it serves it can change from call to call. */
  datatype Backend = Backend(headers: nat -> Read, finalized: nat -> Result<Option<BlockHash>, ChainError>,
                             bodies: nat -> Read)

  /** In the finalized region the live best chain is the captured one: no reorg reaches it. */
  ghost predicate FinalizedIsStable(backend: Backend, tip: BlockHash, floor: nat) {
    forall h: nat :: h <= floor && h <= tip.Height() ==>
      match backend.finalized(h)
      case Ok(Some(hash)) => hash == Ancestor(tip, h)
      case _ => true
  }

  /** The lowest height at or above `h` that `entries` has. */
  function LowestFrom(entries: map<nat, BlockHash>, h: nat, top: nat): (r: nat)
    requires h <= top && top in entries
    ensures h <= r <= top && r in entries && forall k :: h <= k < r ==> k !in entries
    decreases top - h
  {
    if h in entries then h else LowestFrom(entries, h + 1, top)
  }

  /** How far down the memo map reaches after a walk from `lowest` toward `target`, with the headers
      that the backend serves. */
  function LowestAfter(lowest: nat, target: nat, headers: nat -> Read): (r: nat)
    ensures r <= lowest && (lowest <= target ==> r == lowest) && (target <= lowest ==> target <= r)
    decreases lowest
  {
    if lowest <= target || headers(lowest) != Served then lowest else LowestAfter(lowest - 1, target, headers)
  }

  /** What a walk fails with at a header it is not served. */
  function WalkFault(read: Read): ChainError {
    if read.Fails? then read.error else Unavailable
  }

  // ----- What the walks cost -----

  /** The headers one walk reads successfully. */
  function HeadersRead(lowest: nat, target: nat, headers: nat -> Read): nat
    decreases lowest
  {
    if lowest <= target || headers(lowest) != Served then 0 else 1 + HeadersRead(lowest - 1, target, headers)
  }

  datatype Call = Call(target: nat, headers: nat -> Read)

  /** The calls that walk at all, one after another, over one memo map. */
  function LowestAfterAll(lowest: nat, calls: seq<Call>): nat
    decreases |calls|
  {
    if calls == [] then lowest
    else LowestAfterAll(LowestAfter(lowest, calls[0].target, calls[0].headers), calls[1..])
  }

  function TotalHeadersRead(lowest: nat, calls: seq<Call>): nat
    decreases |calls|
  {
    if calls == [] then 0
    else HeadersRead(lowest, calls[0].target, calls[0].headers)
         + TotalHeadersRead(LowestAfter(lowest, calls[0].target, calls[0].headers), calls[1..])
  }

  lemma {:induction false} WalkCost(lowest: nat, target: nat, headers: nat -> Read)
    ensures HeadersRead(lowest, target, headers) == lowest - LowestAfter(lowest, target, headers)
    decreases lowest
  {
    if target < lowest && headers(lowest) == Served {
      WalkCost(lowest - 1, target, headers);
    }
  }

  /** Over all the calls made on a view and its clones, one at a time, every header is read at most
      once, even when walks fail part-way: together they read as many as the map has been filled
      with below its starting point. */
  lemma {:induction false} CallsCost(lowest: nat, calls: seq<Call>)
    ensures LowestAfterAll(lowest, calls) <= lowest
    ensures TotalHeadersRead(lowest, calls) == lowest - LowestAfterAll(lowest, calls)
    decreases |calls|
  {
    if calls != [] {
      WalkCost(lowest, calls[0].target, calls[0].headers);
      CallsCost(LowestAfter(lowest, calls[0].target, calls[0].headers), calls[1..]);
    }
  }

  lemma {:induction false} CallsStayAbove(lowest: nat, calls: seq<Call>, floor: nat)
    requires floor < lowest && forall c :: c in calls ==> floor < c.target
    ensures floor < LowestAfterAll(lowest, calls)
    decreases |calls|
  {
    if calls != [] {
      CallsStayAbove(LowestAfter(lowest, calls[0].target, calls[0].headers), calls[1..], floor);
    }
  }

  /** So a view costs fewer header reads in its life than the deepest reorg has blocks. */
  lemma ViewLifetimeCost(tipHeight: nat, calls: seq<Call>)
    requires forall c :: c in calls ==> tipHeight - 1000 < c.target && 0 < c.target
    ensures TotalHeadersRead(tipHeight, calls) <= 999
  {
    CallsCost(tipHeight, calls);
    if tipHeight > 0 {
      CallsStayAbove(tipHeight, calls, SaturatingSub(tipHeight, MAX_REORG_DEPTH));
    }
  }

  lemma {:induction false} ServedWalk(lowest: nat, target: nat, headers: nat -> Read)
    requires forall h :: headers(h) == Served
    ensures LowestAfter(lowest, target, headers) == Min(lowest, target)
    decreases lowest
  {
    if target < lowest {
      ServedWalk(lowest - 1, target, headers);
    }
  }

  ghost predicate ServesEverything(backend: Backend, tip: BlockHash, floor: nat) {
    && (forall h :: backend.headers(h) == Served && backend.bodies(h) == Served)
    && (forall h: nat :: h <= floor && h <= tip.Height() ==> backend.finalized(h) == Ok(Some(Ancestor(tip, h))))
  }

  class ZebraChainView {
    const tip: ChainBlock
    const finalizedFloor: nat
    const cache: Cache

    ghost predicate Valid()
      reads cache
    {
      && tip.Genuine()
      && finalizedFloor == SaturatingSub(tip.height, MAX_REORG_DEPTH)
      && cache.lowest <= tip.height && (cache.lowest == tip.height || finalizedFloor < cache.lowest)
      && (forall h :: h in cache.entries <==> cache.lowest <= h <= tip.height)
      && (forall h :: h in cache.entries ==> cache.entries[h] == Ancestor(tip.hash, h))
      && cache.lookups == tip.height - cache.lowest
    }

    constructor Snapshot(tip: ChainBlock)
      requires tip.Genuine()
      ensures Valid() && fresh(cache) && this.tip == tip
      ensures cache.lowest == tip.height && finalizedFloor == Max(tip.height - 1000, 0)
    {
      this.tip := tip;
      this.finalizedFloor := SaturatingSub(tip.height, MAX_REORG_DEPTH);
      var cache := new Cache(tip);
      this.cache := cache;
    }

    /** A clone shares the memo map. */
    constructor Clone(view: ZebraChainView)
      requires view.Valid()
      ensures Valid() && tip == view.tip && cache == view.cache && finalizedFloor == view.finalizedFloor
    {
      this.tip, this.finalizedFloor, this.cache := view.tip, view.finalizedFloor, view.cache;
    }

    /** Enters the parent of the lowest block in the memo map, once its header has been read. */
    method Memoize(height: nat, hash: BlockHash)
      requires Valid() && finalizedFloor < height && height + 1 == cache.lowest
      requires hash == Ancestor(tip.hash, height)
      modifies cache
      ensures Valid() && cache.lowest == height
    {
      cache.entries := cache.entries[height := hash];
      cache.lowest := height;
      cache.lookups := cache.lookups + 1;
    }

    method Resolve(height: nat, backend: Backend) returns (r: Result<Option<BlockHash>, ChainError>)
      requires Valid()
      modifies cache
      ensures Valid()
      ensures tip.height < height ==> r == Ok(None)
      ensures height <= tip.height && height <= finalizedFloor ==> r == backend.finalized(height)
      ensures !(finalizedFloor < height <= tip.height) ==>
                cache.lowest == old(cache.lowest) && cache.entries == old(cache.entries)
      ensures finalizedFloor < height <= tip.height ==>
                && cache.lowest == LowestAfter(old(cache.lowest), height, backend.headers)
                && r == if cache.lowest <= height then Ok(Some(Ancestor(tip.hash, height)))
                        else Err(WalkFault(backend.headers(cache.lowest)))
      ensures finalizedFloor < height <= tip.height && r.Err? ==>
                match backend.headers(cache.lowest)
                case Served => false
                case Missing => r.error == Unavailable
                case Fails(e) => r.error == e
    {
      if tip.height < height {
        return Ok(None);
      }
      if height <= finalizedFloor {
        return backend.finalized(height);
      }
      if height in cache.entries {
        return Ok(Some(cache.entries[height]));
      }
      hide Ancestor, LowestFrom;
      var curHeight := LowestFrom(cache.entries, height, tip.height);
      var curHash := cache.entries[curHeight];
      assert cache.lowest in cache.entries;
      while height < curHeight
        invariant Valid() && height <= curHeight == cache.lowest
        invariant curHash == Ancestor(tip.hash, curHeight)
        invariant LowestAfter(cache.lowest, height, backend.headers)
               == LowestAfter(old(cache.lowest), height, backend.headers)
      {
        match backend.headers(curHeight) {
          case Fails(e) => return Err(e);
          case Missing => return Err(Unavailable);
          case Served =>
        }
        AncestorParent(tip.hash, curHeight - 1);
        curHash := curHash.parent;
        curHeight := curHeight - 1;
        Memoize(curHeight, curHash);
      }
      return Ok(Some(curHash));
    }

    /** How reading the block at `height` fails: the finalized read or the walk does, or the body's read
        once the hash is known. */
    ghost predicate BlockFails(height: nat, backend: Backend, e: ChainError)
      reads cache
    {
      && height <= tip.height
      && if height <= finalizedFloor then
           || backend.finalized(height) == Err(e)
           || (backend.finalized(height).Ok? && backend.finalized(height).value.Some? && backend.bodies(height) == Fails(e))
         else if height < cache.lowest then e == WalkFault(backend.headers(cache.lowest))
         else backend.bodies(height) == Fails(e)
    }

    /** When there is no block at `height`, although nothing fails. */
    ghost predicate BlockMissing(height: nat, backend: Backend)
      reads cache
    {
      || tip.height < height
      || (if height <= finalizedFloor then
            || backend.finalized(height) == Ok(None)
            || (backend.finalized(height).Ok? && backend.bodies(height) == Missing)
          else cache.lowest <= height && backend.bodies(height) == Missing)
    }

    method GetBlock(height: nat, backend: Backend) returns (r: Result<Option<BlockHash>, ChainError>)
      requires Valid() && FinalizedIsStable(backend, tip.hash, finalizedFloor)
      modifies cache
      ensures Valid()
      ensures cache.lowest == if finalizedFloor < height <= tip.height
                              then LowestAfter(old(cache.lowest), height, backend.headers) else old(cache.lowest)
      ensures forall e :: r == Err(e) <==> BlockFails(height, backend, e)
      ensures r == Ok(None) <==> BlockMissing(height, backend)
      ensures r.Ok? && r.value.Some? ==> height <= tip.height && r.value.value == Ancestor(tip.hash, height)
      ensures ServesEverything(backend, tip.hash, finalizedFloor) ==>
                r == Ok(if height <= tip.height then Some(Ancestor(tip.hash, height)) else None)
    {
      if ServesEverything(backend, tip.hash, finalizedFloor) {
        ServedWalk(cache.lowest, height, backend.headers);
      }
      var hash := Resolve(height, backend);
      if hash.Err? || hash.value.None? {
        return hash;
      }
      match backend.bodies(height) {
        case Served => return hash;
        case Missing => return Ok(None);
        case Fails(e) => return Err(e);
      }
    }

    /** How a stream ends that would yield the block at `next`: past its range, or for lack of the block,
        or with the failure of reading it. */
    ghost predicate StreamEnds(next: nat, end: nat, backend: Backend, fault: Option<ChainError>)
      reads cache
    {
      match fault
      case None => end < next || BlockMissing(next, backend)
      case Some(e) => next <= end && BlockFails(next, backend, e)
    }

    /** The blocks a stream over `start ..= end` yields before it ends or fails: a gap-free run of the
        captured chain from `start`, never past `end` or the tip, and all of it if nothing goes wrong. */
    method StreamBlocks(start: nat, end: nat, backends: nat -> Backend)
      returns (blocks: seq<BlockHash>, fault: Option<ChainError>)
      requires Valid() && forall h :: FinalizedIsStable(backends(h), tip.hash, finalizedFloor)
      modifies cache
      ensures Valid()
      ensures StreamEnds(start + |blocks|, end, backends(start + |blocks|), fault)
      ensures |blocks| == 0 || start + |blocks| - 1 <= Min(end, tip.height)
      ensures (forall h :: ServesEverything(backends(h), tip.hash, finalizedFloor)) ==>
                fault.None? && |blocks| == Max(Min(end, tip.height) + 1 - start, 0)
      ensures forall i :: 0 <= i < |blocks| ==> blocks[i] == Ancestor(tip.hash, start + i)
      ensures forall i :: 0 < i < |blocks| ==> blocks[i].Mined? && blocks[i].parent == blocks[i - 1]
    {
      hide Ancestor, BlockFails, BlockMissing, LowestAfter;
      blocks := [];
      var height := start;
      while height <= end
        invariant Valid() && height == start + |blocks|
        invariant |blocks| == 0 || height - 1 <= Min(end, tip.height)
        invariant forall i :: 0 <= i < |blocks| ==> blocks[i] == Ancestor(tip.hash, start + i)
        invariant forall i :: 0 < i < |blocks| ==> blocks[i].Mined? && blocks[i].parent == blocks[i - 1]
        decreases end + 1 - height
      {
        var block := GetBlock(height, backends(height));
        if block.Err? {
          return blocks, Some(block.error);
        }
        if block.value.None? {
          return blocks, None;
        }
        if start < height {
          AncestorParent(tip.hash, height - 1);
        }
        blocks := blocks + [block.value.value];
        height := height + 1;
      }
      return blocks, None;
    }

    /** A stream over `start .. end` stays within that range unless it is empty at height 0, where the
        saturating `end - 1` is not below `start`: it then yields the genesis block all the same. */
    method StreamRange(start: nat, end: nat, backends: nat -> Backend)
      returns (blocks: seq<BlockHash>, fault: Option<ChainError>)
      requires Valid() && forall h :: FinalizedIsStable(backends(h), tip.hash, finalizedFloor)
      modifies cache
      ensures Valid()
      ensures StreamEnds(start + |blocks|, SaturatingSub(end, 1), backends(start + |blocks|), fault)
      ensures forall i :: 0 <= i < |blocks| ==> start + i <= tip.height && blocks[i] == Ancestor(tip.hash, start + i)
      ensures start + |blocks| <= Max(start, end) || (start == end == 0 && blocks == [Ancestor(tip.hash, 0)])
      ensures (forall h :: ServesEverything(backends(h), tip.hash, finalizedFloor)) && (start, end) == (0, 0) ==>
                blocks == [Ancestor(tip.hash, 0)]
    {
      hide Ancestor;
      blocks, fault := StreamBlocks(start, SaturatingSub(end, 1), backends);
    }
  }
}
