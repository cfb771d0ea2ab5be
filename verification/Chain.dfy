/** Blocks, the chains they form, and the wallet's record of them.

    A block hash is identified with everything the hash commits to, the parent included: that is
    what it means for the backend to be content-addressed. A header read by hash can therefore
    only ever name one parent, two different blocks never share a hash, and a chain is determined
    by its tip alone. */
module Chain {

  datatype Option<+T> = None | Some(value: T)

  datatype Result<+T, +E> = Ok(value: T) | Err(error: E)

  /** The failures a chain backend reports. Only `Unavailable` is worth retrying. */
  datatype ChainError = Unavailable | InvalidData | Backend

  /** How one read of the pinned chain goes: the data the view promises, nothing, or a failure. */
  datatype Read = Served | Missing | Fails(error: ChainError)

  /** How a sync task fails; `Database` is any wallet-database failure but a block conflict. */
  datatype SyncError =
    | BatchDecryptorUnavailable
    | ChainFailure(error: ChainError)
    | ScanFailure
    | BlockConflict(height: nat)
    | Database
    | WalletDivergedBelowBirthday(birthday: nat)

  type Nullifier = nat

  /** What a block holds, as far as the wallet's viewing keys can tell. */
  datatype Body = Body(nonce: nat, outputs: nat, creates: set<Nullifier>, spends: set<Nullifier>)

  datatype BlockHash = Genesis | Mined(parent: BlockHash, body: Body) {

    function Height(): nat {
      match this
      case Genesis => 0
      case Mined(parent, _) => parent.Height() + 1
    }
  }

  datatype ChainBlock = ChainBlock(height: nat, hash: BlockHash) {

    /** The height is the one the hash commits to. */
    predicate Genuine() {
      hash.Height() == height
    }
  }

  /** `a - b`, as block heights subtract: never below zero. */
  function SaturatingSub(a: nat, b: nat): nat {
    if a < b then 0 else a - b
  }

  function Min(a: int, b: int): int {
    if a < b then a else b
  }

  function Max(a: int, b: int): int {
    if a < b then b else a
  }

  /** The block at height `h` of the chain that ends in `tip`. */
  function Ancestor(tip: BlockHash, h: nat): (r: BlockHash)
    requires h <= tip.Height()
    ensures r.Height() == h
  {
    if tip.Height() == h then tip else Ancestor(tip.parent, h)
  }

  predicate OnChain(tip: BlockHash, b: BlockHash) {
    b.Height() <= tip.Height() && Ancestor(tip, b.Height()) == b
  }

  lemma {:induction false} AncestorParent(tip: BlockHash, h: nat)
    requires h < tip.Height()
    ensures Ancestor(tip, h + 1).Mined? && Ancestor(tip, h + 1).parent == Ancestor(tip, h)
  {
    if h + 1 < tip.Height() {
      AncestorParent(tip.parent, h);
    }
  }

  lemma {:induction false} ParentOnChain(tip: BlockHash, b: BlockHash)
    requires OnChain(tip, b) && b.Mined?
    ensures OnChain(tip, b.parent)
  {
    AncestorParent(tip, b.parent.Height());
  }

  /** Chains that share a block share everything below it. */
  lemma {:induction false} SharedBelow(tip: BlockHash, b: BlockHash, h: nat)
    requires OnChain(tip, b) && h <= b.Height()
    ensures Ancestor(tip, h) == Ancestor(b, h)
    decreases tip
  {
    if b.Height() < tip.Height() && h < tip.Height() {
      SharedBelow(tip.parent, b, h);
    }
  }

  /** The size of the note commitment tree after `b`. */
  function TreeSize(b: BlockHash): nat {
    match b
    case Genesis => 0
    case Mined(parent, body) => TreeSize(parent) + body.outputs
  }

  // ----- The wallet's record of the chain -----

  /** The hash the wallet has recorded at each height it knows. */
  type BlockMap = map<nat, BlockHash>

  function TruncateTo(m: BlockMap, h: nat): BlockMap {
    map k | k in m && k <= h :: m[k]
  }

  /** `m'` is `m` with the blocks of the chain ending in `tip` at the heights above `low`, up to
      `high`, and with nothing else changed. */
  ghost predicate Filled(m: BlockMap, m': BlockMap, tip: BlockHash, low: nat, high: nat) {
    && (forall k :: k in m' <==> k in m || low < k <= high)
    && (forall k :: k in m' && low < k <= high ==> k <= tip.Height() && m'[k] == Ancestor(tip, k))
    && (forall k :: k in m' && !(low < k <= high) ==> m'[k] == m[k])
  }

  lemma FilledNothing(m: BlockMap, tip: BlockHash, low: nat)
    ensures Filled(m, m, tip, low, low)
  {}

  lemma FilledOneWay(m: BlockMap, m': BlockMap, m'': BlockMap, tip: BlockHash, low: nat, high: nat)
    requires Filled(m, m', tip, low, high) && Filled(m, m'', tip, low, high)
    ensures m' == m''
  {}

  lemma FilledFurther(m: BlockMap, m': BlockMap, tip: BlockHash, low: nat, high: nat)
    requires low < high && low < tip.Height()
    requires Filled(m[low + 1 := Ancestor(tip, low + 1)], m', tip, low + 1, high)
    ensures Filled(m, m', tip, low, high)
  {}

  /** A block cannot be stored where a different one already is. */
  predicate Conflicts(m: BlockMap, b: BlockHash) {
    b.Height() in m && m[b.Height()] != b
  }

  /** Below the height, if there is one, at which the wallet must shut down. */
  predicate Below(h: nat, shutdownHeight: Option<nat>) {
    shutdownHeight.Some? ==> h < shutdownHeight.value
  }

  predicate StaysBelow(m: BlockMap, shutdownHeight: Option<nat>) {
    forall h :: h in m ==> Below(h, shutdownHeight)
  }

  /** Each block is recorded at its own height. */
  predicate Faithful(m: BlockMap) {
    forall k :: k in m ==> m[k].Height() == k
  }

  /** Blocks recorded at adjacent heights, up to `top`, are parent and child. */
  predicate LinkedUpTo(m: BlockMap, top: nat) {
    forall k :: k in m && k + 1 in m && k < top ==> m[k + 1].Mined? && m[k + 1].parent == m[k]
  }

  predicate Contiguous(m: BlockMap, low: nat, high: nat) {
    forall k :: low <= k <= high ==> k in m
  }

  /** On such a record the blocks shared with any chain are exactly those up to the highest one. */
  lemma {:induction false} SharedIsDownwardClosed(m: BlockMap, low: nat, high: nat, tip: BlockHash)
    requires Faithful(m) && low <= high && Contiguous(m, low, high) && LinkedUpTo(m, high)
    requires OnChain(tip, m[high])
    ensures OnChain(tip, m[low])
    decreases high - low
  {
    if low < high {
      SharedIsDownwardClosed(m, low + 1, high, tip);
      assert low in m && low + 1 in m;
      ParentOnChain(tip, m[low + 1]);
    }
  }

  /** A linked, gap-free record is the chain of its highest block. */
  lemma RecordIsAChain(m: BlockMap, low: nat, high: nat)
    requires Faithful(m) && low <= high && Contiguous(m, low, high) && LinkedUpTo(m, high)
    ensures OnChain(m[high], m[low])
  {
    SharedIsDownwardClosed(m, low, high, m[high]);
  }
}
