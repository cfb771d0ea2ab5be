/** Many resolve calls at once, from clones of one view that share its memo map: every interleaving
    of their steps, against a backend that may stop serving any header at any time. */
module SharedResolve {
  import opened Chain
  import opened ChainView

  type Answer = Result<Option<BlockHash>, ChainError>

  /** Where one call stands between the points at which another may run. */
  datatype Walker =
    | Missed(target: nat)                                     // not memoized; about to look for a start
    | Walking(target: nat, height: nat, hash: BlockHash)      // at a memoized block
    | Fetched(target: nat, height: nat, hash: BlockHash)      // its parent is read but not memoized yet
    | Done(target: nat, answer: Answer)
    | Crashed                                                 // found no memoized block to start from

  datatype Event =
    | Begin(id: nat, target: nat, finalized: Answer)
    | Pick(id: nat)
    | ReadHeader(id: nat, read: Read)
    | Memoize(id: nat)
    | Finish(id: nat)

  datatype State = State(entries: map<nat, BlockHash>, walkers: map<nat, Walker>)

  function Start(tip: ChainBlock): State {
    State(map[tip.height := tip.hash], map[])
  }

  function Floor(tip: ChainBlock): nat {
    SaturatingSub(tip.height, MAX_REORG_DEPTH)
  }

  predicate Pinned(tip: ChainBlock, h: nat) {
    Floor(tip) < h <= tip.height
  }

  function Entered(tip: ChainBlock, entries: map<nat, BlockHash>, target: nat, finalized: Answer): Walker {
    if tip.height < target then Done(target, Ok(None))
    else if target <= Floor(tip) then Done(target, finalized)
    else if target in entries then Done(target, Ok(Some(entries[target])))
    else Missed(target)
  }

  /** What event `e` does to the call it is about, and to the memo map. An event that is not the
      call's next step changes nothing. */
  function Advance(tip: ChainBlock, entries: map<nat, BlockHash>, w: Walker, e: Event): (map<nat, BlockHash>, Walker) {
    match (e, w)
    case (Begin(_, target, finalized), Done(_, _)) => (entries, Entered(tip, entries, target, finalized))
    case (Pick(_), Missed(t)) =>
      if tip.height < t || tip.height !in entries then (entries, Crashed)
      else
        var h := LowestFrom(entries, t, tip.height);
        (entries, Walking(t, h, entries[h]))
    case (ReadHeader(_, read), Walking(t, h, hash)) =>
      if h <= t || hash.Genesis? then (entries, w)
      else (entries, match read
                     case Served => Fetched(t, h - 1, hash.parent)
                     case Missing => Done(t, Err(Unavailable))
                     case Fails(error) => Done(t, Err(error)))
    case (Memoize(_), Fetched(t, h, hash)) => (entries[h := hash], Walking(t, h, hash))
    case (Finish(_), Walking(t, h, hash)) => (entries, if t < h then w else Done(t, Ok(Some(hash))))
    case _ => (entries, w)
  }

  function Step(tip: ChainBlock, s: State, e: Event): State {
    if e.id in s.walkers then
      var (entries, w) := Advance(tip, s.entries, s.walkers[e.id], e);
      State(entries, s.walkers[e.id := w])
    else if e.Begin? then
      s.(walkers := s.walkers[e.id := Entered(tip, s.entries, e.target, e.finalized)])
    else s
  }

  function Interleave(tip: ChainBlock, s: State, events: seq<Event>): State
    decreases |events|
  {
    if events == [] then s else Interleave(tip, Step(tip, s, events[0]), events[1..])
  }

  // ----- The invariant -----

  /** The memo map holds a gap-free run of the captured chain that ends at the tip. */
  ghost predicate Memo(tip: ChainBlock, entries: map<nat, BlockHash>)
    requires tip.Genuine()
  {
    && tip.height in entries
    && (forall h :: h in entries ==> h == tip.height || Pinned(tip, h))
    && (forall h :: h in entries ==> h <= tip.height && entries[h] == Ancestor(tip.hash, h))
    && (forall h, k :: h in entries && h <= k <= tip.height ==> k in entries)
  }

  /** Every call is on the captured chain, and a finished one answers with it, or not at all. */
  predicate OnTrack(tip: ChainBlock, entries: map<nat, BlockHash>, w: Walker, reorgsOnly: bool)
    requires tip.Genuine()
  {
    match w
    case Missed(t) => Pinned(tip, t)
    case Walking(t, h, hash) => Pinned(tip, t) && t <= h <= tip.height && h in entries && hash == Ancestor(tip.hash, h)
    case Fetched(t, h, hash) => Pinned(tip, t) && t <= h < tip.height && h + 1 in entries && hash == Ancestor(tip.hash, h)
    case Done(t, answer) =>
      && (tip.height < t ==> answer == Ok(None))
      && (Pinned(tip, t) ==> answer == Ok(Some(Ancestor(tip.hash, t)))
                             || (answer.Err? && (reorgsOnly ==> answer.error == Unavailable)))
    case Crashed => false
  }

  ghost predicate Invariant(tip: ChainBlock, s: State, reorgsOnly: bool) {
    && tip.Genuine()
    && Memo(tip, s.entries)
    && forall id :: id in s.walkers ==> OnTrack(tip, s.entries, s.walkers[id], reorgsOnly)
  }

  /** No read fails other than by its block no longer being there. */
  predicate ReorgsOnly(e: Event) {
    e.ReadHeader? ==> !e.read.Fails?
  }

  /** The memo map stays a run when a call enters the block below one it started from, however much
      of the map other calls have filled in since. */
  lemma MemoGrows(tip: ChainBlock, entries: map<nat, BlockHash>, h: nat)
    requires tip.Genuine() && Memo(tip, entries) && Pinned(tip, h) && h < tip.height && h + 1 in entries
    ensures Memo(tip, entries[h := Ancestor(tip.hash, h)])
  {}

  lemma ReadingStaysOnTrack(tip: ChainBlock, entries: map<nat, BlockHash>, w: Walker, e: Event, reorgsOnly: bool)
    requires tip.Genuine() && OnTrack(tip, entries, w, reorgsOnly)
    requires e.ReadHeader? && (reorgsOnly ==> ReorgsOnly(e))
    ensures var (entries', w') := Advance(tip, entries, w, e);
            entries' == entries && OnTrack(tip, entries, w', reorgsOnly)
  {
    hide Ancestor, LowestFrom;
    if w.Walking? && w.target < w.height {
      AncestorParent(tip.hash, w.height - 1);
    }
  }

  lemma MemoizingStaysOnTrack(tip: ChainBlock, entries: map<nat, BlockHash>, w: Walker, e: Event, reorgsOnly: bool)
    requires tip.Genuine() && Memo(tip, entries) && OnTrack(tip, entries, w, reorgsOnly) && e.Memoize?
    ensures var (entries', w') := Advance(tip, entries, w, e);
            && Memo(tip, entries') && OnTrack(tip, entries', w', reorgsOnly)
            && entries.Keys <= entries'.Keys
  {
    hide Ancestor, LowestFrom;
    if w.Fetched? {
      MemoGrows(tip, entries, w.height);
    }
  }

  lemma AdvancingStaysOnTrack(tip: ChainBlock, entries: map<nat, BlockHash>, w: Walker, e: Event, reorgsOnly: bool)
    requires tip.Genuine() && Memo(tip, entries) && OnTrack(tip, entries, w, reorgsOnly)
    requires reorgsOnly ==> ReorgsOnly(e)
    ensures var (entries', w') := Advance(tip, entries, w, e);
            && Memo(tip, entries') && OnTrack(tip, entries', w', reorgsOnly)
            && entries.Keys <= entries'.Keys
  {
    hide Ancestor, LowestFrom;
    match e {
      case ReadHeader(_, _) => ReadingStaysOnTrack(tip, entries, w, e, reorgsOnly);
      case Memoize(_) => MemoizingStaysOnTrack(tip, entries, w, e, reorgsOnly);
      case _ =>
    }
  }

  lemma StepKeepsInvariant(tip: ChainBlock, s: State, e: Event, reorgsOnly: bool)
    requires Invariant(tip, s, reorgsOnly) && (reorgsOnly ==> ReorgsOnly(e))
    ensures Invariant(tip, Step(tip, s, e), reorgsOnly)
    ensures s.entries.Keys <= Step(tip, s, e).entries.Keys
  {
    hide Ancestor, Advance;
    if e.id in s.walkers {
      AdvancingStaysOnTrack(tip, s.entries, s.walkers[e.id], e, reorgsOnly);
    }
  }

  lemma {:induction false} InterleavingKeepsInvariant(tip: ChainBlock, s: State, events: seq<Event>, reorgsOnly: bool)
    requires Invariant(tip, s, reorgsOnly) && (reorgsOnly ==> forall e :: e in events ==> ReorgsOnly(e))
    ensures var s' := Interleave(tip, s, events);
            Invariant(tip, s', reorgsOnly) && s.entries.Keys <= s'.entries.Keys
    decreases |events|
  {
    if events != [] {
      StepKeepsInvariant(tip, s, events[0], reorgsOnly);
      InterleavingKeepsInvariant(tip, Step(tip, s, events[0]), events[1..], reorgsOnly);
    }
  }

  /** In every interleaving: the memo map stays a gap-free run of the captured chain and only grows;
      no call crashes; any two calls that succeed at one pinned height, at whatever times, answer the
      same hash, the tip's ancestor there; and a reorg can make a call fail as unavailable, but never
      change its answer. */
  lemma AnswersArePinned(tip: ChainBlock, earlier: seq<Event>, later: seq<Event>, i: nat, j: nat, h: nat)
    requires tip.Genuine() && Pinned(tip, h)
    requires i in Interleave(tip, Start(tip), earlier).walkers
    requires j in Interleave(tip, Interleave(tip, Start(tip), earlier), later).walkers
    ensures var s := Interleave(tip, Start(tip), earlier);
            var s' := Interleave(tip, s, later);
            && Memo(tip, s.entries) && Memo(tip, s'.entries) && s.entries.Keys <= s'.entries.Keys
            && !s.walkers[i].Crashed?
            && (s.walkers[i].Done? && s.walkers[i].target == h && s.walkers[i].answer.Ok?
                ==> s.walkers[i].answer == Ok(Some(Ancestor(tip.hash, h))))
            && (s.walkers[i].Done? && s'.walkers[j].Done? && s.walkers[i].target == s'.walkers[j].target == h
                && s.walkers[i].answer.Ok? && s'.walkers[j].answer.Ok?
                ==> s.walkers[i].answer == s'.walkers[j].answer)
            && ((forall e :: e in earlier ==> ReorgsOnly(e)) && s.walkers[i].Done? && s.walkers[i].target == h
                && s.walkers[i].answer.Err?
                ==> s.walkers[i].answer == Err(Unavailable))
  {
    var s := Interleave(tip, Start(tip), earlier);
    InterleavingKeepsInvariant(tip, Start(tip), earlier, false);
    InterleavingKeepsInvariant(tip, s, later, false);
    if forall e :: e in earlier ==> ReorgsOnly(e) {
      InterleavingKeepsInvariant(tip, Start(tip), earlier, true);
    }
  }

  // ----- A call that is served -----

  /** The steps of a call from a block `n` above its target, with every header served. */
  function ServedSteps(id: nat, n: nat): seq<Event> {
    if n == 0 then [Finish(id)] else [ReadHeader(id, Served), Memoize(id)] + ServedSteps(id, n - 1)
  }

  /** However a call has come to stand somewhere, and however the memo map has been filled, it succeeds
      once the headers that it still needs are served. */
  lemma {:induction false} ServedWalkSucceeds(tip: ChainBlock, s: State, id: nat)
    requires Invariant(tip, s, false) && id in s.walkers && s.walkers[id].Walking?
    ensures var t := s.walkers[id].target;
            var s' := Interleave(tip, s, ServedSteps(id, s.walkers[id].height - t));
            id in s'.walkers && s'.walkers[id] == Done(t, Ok(Some(Ancestor(tip.hash, t))))
    decreases s.walkers[id].height
  {
    hide Ancestor;
    var w := s.walkers[id];
    var n := w.height - w.target;
    if n == 0 {
      assert ServedSteps(id, 0)[1..] == [];
    } else {
      AncestorParent(tip.hash, w.height - 1);
      var read, entered, rest := ReadHeader(id, Served), Memoize(id), ServedSteps(id, n - 1);
      var s1 := Step(tip, s, read);
      var s2 := Step(tip, s1, entered);
      StepKeepsInvariant(tip, s, read, false);
      StepKeepsInvariant(tip, s1, entered, false);
      assert ServedSteps(id, n)[1..] == [entered] + rest && ([entered] + rest)[1..] == rest;
      ServedWalkSucceeds(tip, s2, id);
    }
  }

  /** A new call answers at once above the tip, at a finalized height (with the live read) and at a
      memoized one; at any other height it starts from the lowest memoized block above, and succeeds
      once it is served. */
  lemma NewCall(tip: ChainBlock, s: State, id: nat, h: nat, finalized: Answer)
    requires Invariant(tip, s, false) && (id in s.walkers ==> s.walkers[id].Done?)
    ensures var s' := Step(tip, s, Begin(id, h, finalized));
            && id in s'.walkers
            && (tip.height < h ==> s'.walkers[id] == Done(h, Ok(None)))
            && (h <= tip.height - 1000 || (h == 0 && 0 < tip.height) ==> s'.walkers[id] == Done(h, finalized))
            && (Pinned(tip, h) && h in s.entries ==> s'.walkers[id] == Done(h, Ok(Some(Ancestor(tip.hash, h)))))
            && (Pinned(tip, h) && h !in s.entries ==>
                  var picked := Step(tip, s', Pick(id));
                  && picked.walkers[id].Walking? && picked.walkers[id].target == h
                  && Invariant(tip, picked, false)
                  && forall k :: h <= k < picked.walkers[id].height ==> k !in s.entries)
  {
    hide Ancestor;
    var s' := Step(tip, s, Begin(id, h, finalized));
    StepKeepsInvariant(tip, s, Begin(id, h, finalized), false);
    StepKeepsInvariant(tip, s', Pick(id), false);
  }
}
