/** Locking, unlocking and timed relocking of the in-memory identity cache: every interleaving of the
    steps of callers and relock timers, and the calls run one at a time. */
module Keystore {
  import opened Chain

  type Identity = nat

  type TimerId = nat

  /** Where a relock timer stands. A `Polling` one is past its sleep and about to clear the cache;
      aborting it then has no effect unless it has to wait for the cache. */
  datatype Phase = Sleeping | Polling | Cleared | Finished

  datatype Timer = Timer(deadline: nat, phase: Phase, aborted: bool)

  /** What the call that holds the relock mutex still has to do. */
  datatype Section =
    | Unlocking(identities: seq<Identity>, timeout: nat, awaits: Option<TimerId>)
    | Written(timeout: nat)
    | Locking

  /** `writer` is the timer of the unlock that last wrote the cache. */
  datatype State = State(encrypted: bool, cache: seq<Identity>, writer: TimerId, slot: Option<TimerId>,
                         timers: seq<Timer>, section: Option<Section>, now: nat)

  datatype Event =
    | EnterUnlock(decrypted: Option<seq<Identity>>, timeout: nat)
    | WriteIdentities
    | StoreTimer
    | EnterLock
    | ClearIdentities
    | Wake(id: TimerId)
    | Relock(id: TimerId)
    | Complete(id: TimerId)
    | Cancel(id: TimerId)
    | Tick(seconds: nat)

  function Start(encrypted: bool, plain: seq<Identity>): State {
    State(encrypted, if encrypted then [] else plain, 0, None, [], None, 0)
  }

  /** Takes the stored timer out of the slot and aborts it. */
  function TakeAndAbort(s: State): State {
    if s.slot.Some? && s.slot.value < |s.timers| then
      s.(slot := None, timers := s.timers[s.slot.value := s.timers[s.slot.value].(aborted := true)])
    else s.(slot := None)
  }

  function SetPhase(s: State, id: TimerId, phase: Phase): State
    requires id < |s.timers|
  {
    s.(timers := s.timers[id := s.timers[id].(phase := phase)])
  }

  predicate InPhase(s: State, id: TimerId, phase: Phase) {
    id < |s.timers| && s.timers[id].phase == phase
  }

  predicate Aborted(s: State, id: TimerId) {
    id < |s.timers| && s.timers[id].aborted
  }

  /** One step of a caller, a timer or the clock; a step that is not due changes nothing. */
  function Step(s: State, e: Event): State {
    match e
    case EnterUnlock(decrypted, timeout) =>
      if s.encrypted && s.section.None? && decrypted.Some? then
        TakeAndAbort(s).(section := Some(Unlocking(decrypted.value, timeout, s.slot)))
      else s
    case WriteIdentities =>
      if s.section.Some? && s.section.value.Unlocking?
         && (s.section.value.awaits.Some? ==> InPhase(s, s.section.value.awaits.value, Finished))
      then s.(cache := s.section.value.identities, writer := |s.timers|, section := Some(Written(s.section.value.timeout)))
      else s
    case StoreTimer =>
      if s.section.Some? && s.section.value.Written? then
        s.(slot := Some(|s.timers|), section := None,
           timers := s.timers + [Timer(s.now + s.section.value.timeout, Sleeping, false)])
      else s
    case EnterLock =>
      if s.encrypted && s.section.None? then TakeAndAbort(s).(section := Some(Locking)) else s
    case ClearIdentities =>
      if s.section == Some(Locking) then s.(cache := [], section := None) else s
    case Wake(id) =>
      if InPhase(s, id, Sleeping) && !Aborted(s, id) && s.timers[id].deadline <= s.now then SetPhase(s, id, Polling) else s
    case Relock(id) =>
      if InPhase(s, id, Polling) then SetPhase(s, id, Cleared).(cache := []) else s
    case Complete(id) =>
      if InPhase(s, id, Cleared) then SetPhase(s, id, Finished) else s
    case Cancel(id) =>
      if Aborted(s, id) && (InPhase(s, id, Sleeping) || InPhase(s, id, Polling)) then SetPhase(s, id, Finished) else s
    case Tick(seconds) => s.(now := s.now + seconds)
  }

  function Interleave(s: State, events: seq<Event>): State
    decreases |events|
  {
    if events == [] then s else Interleave(Step(s, events[0]), events[1..])
  }

  lemma {:induction false} InterleaveInTwo(s: State, front: seq<Event>, back: seq<Event>)
    ensures Interleave(s, front + back) == Interleave(Interleave(s, front), back)
    decreases |front|
  {
    if front == [] {
      assert front + back == back;
    } else {
      assert (front + back)[1..] == front[1..] + back;
      InterleaveInTwo(Step(s, front[0]), front[1..], back);
    }
  }

  // ----- What every interleaving keeps -----

  /** The timers in force are exactly the stored one, and identities outside of a call's critical
      section are there only as long as it has not cleared them. */
  predicate Invariant(s: State) {
    && (s.section.Some? ==> s.slot.None? && s.encrypted)
    && (s.slot.Some? ==> s.slot.value < |s.timers|)
    && (forall id :: 0 <= id < |s.timers| ==> (s.timers[id].aborted <==> s.slot != Some(id)))
    && (forall id :: 0 <= id < |s.timers| && s.timers[id].phase == Polling ==> s.timers[id].deadline <= s.now)
    && (s.encrypted && s.section.None? && s.cache != [] ==>
          s.slot == Some(s.writer) && s.timers[s.writer].phase in {Sleeping, Polling})
    && (s.section.Some? && s.section.value.Unlocking? ==>
          && (s.section.value.awaits.Some? ==> s.section.value.awaits.value < |s.timers|)
          && (s.cache != [] ==> s.section.value.awaits == Some(s.writer)))
    && (s.section.Some? && s.section.value.Written? ==> s.writer == |s.timers|)
    && (s.section.None? || !s.section.value.Written? ==> s.writer < |s.timers| || s.timers == [])
    && (!s.encrypted ==> s.timers == [])
  }

  lemma EnteringKeepsInvariant(s: State, e: Event)
    requires Invariant(s) && (e.EnterUnlock? || e.EnterLock?)
    ensures Invariant(Step(s, e)) && Step(s, e).encrypted == s.encrypted
  {}

  lemma LeavingKeepsInvariant(s: State, e: Event)
    requires Invariant(s) && (e.WriteIdentities? || e.StoreTimer? || e.ClearIdentities?)
    ensures Invariant(Step(s, e)) && Step(s, e).encrypted == s.encrypted
  {}

  lemma TimerKeepsInvariant(s: State, e: Event)
    requires Invariant(s) && (e.Wake? || e.Relock? || e.Complete? || e.Cancel? || e.Tick?)
    ensures Invariant(Step(s, e)) && Step(s, e).encrypted == s.encrypted
  {}

  lemma StepKeepsInvariant(s: State, e: Event)
    requires Invariant(s)
    ensures Invariant(Step(s, e)) && Step(s, e).encrypted == s.encrypted
  {
    hide Step, Invariant;
    if e.EnterUnlock? || e.EnterLock? {
      EnteringKeepsInvariant(s, e);
    } else if e.WriteIdentities? || e.StoreTimer? || e.ClearIdentities? {
      LeavingKeepsInvariant(s, e);
    } else {
      TimerKeepsInvariant(s, e);
    }
  }

  lemma {:induction false} InterleavingKeepsInvariant(s: State, events: seq<Event>)
    requires Invariant(s)
    ensures Invariant(Interleave(s, events)) && Interleave(s, events).encrypted == s.encrypted
    decreases |events|
  {
    if events != [] {
      StepKeepsInvariant(s, events[0]);
      InterleavingKeepsInvariant(Step(s, events[0]), events[1..]);
    }
  }

  predicate IsLocked(s: State) {
    s.cache == []
  }

  /** When the cache will be cleared: the deadline of the stored timer, until that timer has finished. */
  function UnlockedUntil(s: State): Option<nat> {
    if s.slot.Some? && s.slot.value < |s.timers| && s.timers[s.slot.value].phase != Finished then
      Some(s.timers[s.slot.value].deadline)
    else None
  }

  lemma StartsInvariant(encrypted: bool, plain: seq<Identity>)
    ensures Invariant(Start(encrypted, plain))
  {}

  /** In every interleaving, whenever no call is inside its critical section, identities are held only
      under a stored timer that can still clear them, started by the unlock that put them there. */
  lemma HeldOnlyUnderATimer(events: seq<Event>)
    ensures var s := Interleave(Start(true, []), events);
            s.section.None? ==>
              && (UnlockedUntil(s).None? ==> IsLocked(s))
              && (!IsLocked(s) ==> s.slot == Some(s.writer) && !Aborted(s, s.writer)
                                   && (InPhase(s, s.writer, Sleeping) || InPhase(s, s.writer, Polling)))
  {
    StartsInvariant(true, []);
    InterleavingKeepsInvariant(Start(true, []), events);
  }

  /** Identities that are not encrypted stay in the cache through every interleaving, so the keystore
      counts as unlocked. */
  lemma {:induction false} PlainIdentitiesStay(s: State, events: seq<Event>)
    requires Invariant(s) && !s.encrypted
    ensures Interleave(s, events).cache == s.cache
    decreases |events|
  {
    if events != [] {
      StepKeepsInvariant(s, events[0]);
      PlainIdentitiesStay(Step(s, events[0]), events[1..]);
    }
  }

  /** So a keystore of plain identities counts as locked exactly when it has none at all. */
  lemma PlainKeystoreNeverLocks(plain: seq<Identity>, events: seq<Event>)
    ensures IsLocked(Interleave(Start(false, plain), events)) <==> plain == []
  {
    StartsInvariant(false, plain);
    PlainIdentitiesStay(Start(false, plain), events);
  }

  // ----- Locking -----

  predicate Unlocks(e: Event) {
    e.EnterUnlock? && e.decrypted.Some?
  }

  /** Once a lock has cleared the cache it stays empty, whatever timers and other calls do, until the
      next successful unlock. */
  lemma {:induction false} LockedUntilUnlocked(s: State, events: seq<Event>)
    requires s.cache == [] && (s.section.None? || s.section == Some(Locking))
    requires forall e :: e in events ==> !Unlocks(e)
    ensures var s' := Interleave(s, events);
            s'.cache == [] && (s'.section.None? || s'.section == Some(Locking))
    decreases |events|
  {
    if events != [] {
      assert events[0] in events;
      LockedUntilUnlocked(Step(s, events[0]), events[1..]);
    }
  }

  // ----- Superseded timers -----

  /** An aborted timer that will go on to clear the cache, with no unlock waiting for it. */
  predicate Loose(s: State, id: TimerId) {
    && InPhase(s, id, Polling) && Aborted(s, id)
    && !(s.section.Some? && s.section.value.Unlocking? && s.section.value.awaits == Some(id))
  }

  ghost predicate NoneLoose(s: State) {
    forall id :: 0 <= id < |s.timers| ==> !Loose(s, id)
  }

  /** A timer clears identities that a later unlock wrote. */
  predicate ClearsStale(s: State, e: Event) {
    e.Relock? && InPhase(s, e.id, Polling) && s.cache != [] && e.id != s.writer
  }

  predicate EverClearsStale(s: State, events: seq<Event>)
    decreases |events|
  {
    events != [] && (ClearsStale(s, events[0]) || EverClearsStale(Step(s, events[0]), events[1..]))
  }

  /** A lock aborts a timer that is already past its sleep. */
  predicate LocksTooLate(s: State, e: Event) {
    e.EnterLock? && s.encrypted && s.section.None? && s.slot.Some? && InPhase(s, s.slot.value, Polling)
  }

  predicate EverLocksTooLate(s: State, events: seq<Event>)
    decreases |events|
  {
    events != [] && (LocksTooLate(s, events[0]) || EverLocksTooLate(Step(s, events[0]), events[1..]))
  }

  predicate LockFree(events: seq<Event>) {
    forall e :: e in events ==> !e.EnterLock?
  }

  lemma StepLeavesNoneLoose(s: State, e: Event)
    requires Invariant(s) && NoneLoose(s) && !LocksTooLate(s, e)
    ensures NoneLoose(Step(s, e)) && !ClearsStale(s, e)
  {
    var t := Step(s, e);
    forall id | 0 <= id < |t.timers| ensures !Loose(t, id) {
      if id < |s.timers| {
        assert !Loose(s, id);
      }
    }
    if e.Relock? && e.id < |s.timers| {
      assert !Loose(s, e.id);
    }
  }

  /** No superseded timer ever clears the identities of a later unlock in a run in which no lock comes
      too late; in particular, in a run of unlocks with no lock between them. */
  lemma {:induction false} NoStaleClears(s: State, events: seq<Event>)
    requires Invariant(s) && NoneLoose(s) && !EverLocksTooLate(s, events)
    ensures !EverClearsStale(s, events) && NoneLoose(Interleave(s, events))
    decreases |events|
  {
    if events != [] {
      StepKeepsInvariant(s, events[0]);
      StepLeavesNoneLoose(s, events[0]);
      NoStaleClears(Step(s, events[0]), events[1..]);
    }
  }

  lemma {:induction false} LockFreeIsNeverTooLate(s: State, events: seq<Event>)
    requires LockFree(events)
    ensures !EverLocksTooLate(s, events)
    decreases |events|
  {
    if events != [] {
      assert events[0] in events;
      LockFreeIsNeverTooLate(Step(s, events[0]), events[1..]);
    }
  }

  lemma {:induction false} StaleLater(s: State, front: seq<Event>, back: seq<Event>)
    requires EverClearsStale(Interleave(s, front), back)
    ensures EverClearsStale(s, front + back)
    decreases |front|
  {
    if front == [] {
      assert front + back == back;
    } else {
      assert (front + back)[1..] == front[1..] + back;
      StaleLater(Step(s, front[0]), front[1..], back);
    }
  }

  // ----- Whole calls -----

  const WRITE_AND_STORE := [WriteIdentities, StoreTimer]

  /** How the aborted timer that an unlock waits for ends: one too far along to abort may clear the
      cache before it finishes. */
  function WaitForTimer(slot: Option<TimerId>, clearsFirst: bool): seq<Event> {
    if slot.None? then []
    else (if clearsFirst then [Relock(slot.value)] else []) + [Cancel(slot.value), Complete(slot.value)]
  }

  /** The steps of one unlock that finds `slot` stored. */
  function UnlockCall(slot: Option<TimerId>, identities: seq<Identity>, timeout: nat, clearsFirst: bool): seq<Event> {
    [EnterUnlock(Some(identities), timeout)] + (WaitForTimer(slot, clearsFirst) + WRITE_AND_STORE)
  }

  const LOCK_CALL := [EnterLock, ClearIdentities]

  /** `timers` once the stored one has been aborted and, if it is waited for, has finished. */
  function Retired(timers: seq<Timer>, slot: Option<TimerId>, waitedFor: bool): (r: seq<Timer>)
    ensures |r| == |timers|
  {
    if slot.None? || |timers| <= slot.value then timers
    else
      var t := timers[slot.value].(aborted := true);
      timers[slot.value := if waitedFor then t.(phase := Finished) else t]
  }

  function Unlocked(s: State, identities: seq<Identity>, timeout: nat): State {
    s.(cache := identities, writer := |s.timers|, slot := Some(|s.timers|),
       timers := Retired(s.timers, s.slot, true) + [Timer(s.now + timeout, Sleeping, false)])
  }

  function Locked(s: State): State {
    s.(cache := [], slot := None, timers := Retired(s.timers, s.slot, false))
  }

  lemma OneStep(s: State, e: Event, rest: seq<Event>)
    ensures Interleave(s, [e] + rest) == Interleave(Step(s, e), rest)
  {
    hide Step;
    assert ([e] + rest)[1..] == rest;
  }

  lemma TwoSteps(s: State, e: Event, f: Event)
    ensures Interleave(s, [e, f]) == Step(Step(s, e), f)
  {
    hide Step;
    assert [e, f][1..] == [f] && [f][1..] == [];
    assert Interleave(Step(Step(s, e), f), []) == Step(Step(s, e), f);
  }

  /** An aborted timer can always finish on its own, so an unlock that waits for one is never stuck. */
  lemma AwaitedTimerFinishes(s: State, id: TimerId)
    requires Aborted(s, id)
    ensures Interleave(s, [Cancel(id), Complete(id)]) == SetPhase(s, id, Finished)
  {
    hide Interleave;
    TwoSteps(s, Cancel(id), Complete(id));
  }

  lemma WaitEnds(s: State, slot: Option<TimerId>, clearsFirst: bool)
    requires slot.Some? ==> Aborted(s, slot.value)
    ensures var t := Interleave(s, WaitForTimer(slot, clearsFirst));
            t == if slot.None? then s else SetPhase(s, slot.value, Finished).(cache := t.cache)
  {
    if slot.Some? {
      hide Interleave;
      var end := [Cancel(slot.value), Complete(slot.value)];
      if clearsFirst {
        OneStep(s, Relock(slot.value), end);
        AwaitedTimerFinishes(Step(s, Relock(slot.value)), slot.value);
      } else {
        assert WaitForTimer(slot, clearsFirst) == end;
        AwaitedTimerFinishes(s, slot.value);
      }
    }
  }

  lemma EntersUnlock(s: State, identities: seq<Identity>, timeout: nat)
    requires Invariant(s) && s.encrypted && s.section.None?
    ensures Step(s, EnterUnlock(Some(identities), timeout))
         == s.(slot := None, timers := Retired(s.timers, s.slot, false),
               section := Some(Unlocking(identities, timeout, s.slot)))
    ensures s.slot.Some? ==> Aborted(Step(s, EnterUnlock(Some(identities), timeout)), s.slot.value)
  {}

  lemma WritesAndStores(s: State)
    requires s.section.Some? && s.section.value.Unlocking?
    requires s.section.value.awaits.Some? ==> InPhase(s, s.section.value.awaits.value, Finished)
    ensures Interleave(s, WRITE_AND_STORE)
         == s.(cache := s.section.value.identities, writer := |s.timers|, slot := Some(|s.timers|), section := None,
               timers := s.timers + [Timer(s.now + s.section.value.timeout, Sleeping, false)])
  {
    hide Interleave;
    TwoSteps(s, WriteIdentities, StoreTimer);
  }

  /** With the mutex free a completed unlock has one outcome, however the old timer ends: the new
      identities are held under a fresh timer, and the old timer can do no more. */
  lemma UnlockCallCompletes(s: State, identities: seq<Identity>, timeout: nat, clearsFirst: bool)
    requires Invariant(s) && s.encrypted && s.section.None?
    ensures Interleave(s, UnlockCall(s.slot, identities, timeout, clearsFirst)) == Unlocked(s, identities, timeout)
  {
    hide Interleave, WaitForTimer, Step, Invariant;
    var enter := EnterUnlock(Some(identities), timeout);
    var entered := Step(s, enter);
    var waited := Interleave(entered, WaitForTimer(s.slot, clearsFirst));
    OneStep(s, enter, WaitForTimer(s.slot, clearsFirst) + WRITE_AND_STORE);
    InterleaveInTwo(entered, WaitForTimer(s.slot, clearsFirst), WRITE_AND_STORE);
    EntersUnlock(s, identities, timeout);
    WaitEnds(entered, s.slot, clearsFirst);
    assert waited.timers == Retired(s.timers, s.slot, true);
    WritesAndStores(waited);
  }

  lemma LockCallCompletes(s: State)
    requires Invariant(s) && s.encrypted && s.section.None?
    ensures Interleave(s, LOCK_CALL) == Locked(s)
  {
    TwoSteps(s, EnterLock, ClearIdentities);
  }

  // ----- When a superseded timer can clear a later unlock -----

  ghost predicate CanClearStale(s: State) {
    exists events :: LockFree(events) && EverClearsStale(s, events)
  }

  lemma LooseTimerClearsStale(s: State, id: TimerId)
    requires Invariant(s) && s.encrypted && s.section.None? && Loose(s, id)
    ensures CanClearStale(s)
  {
    var call := UnlockCall(s.slot, [0], 0, false);
    UnlockCallCompletes(s, [0], 0, false);
    assert ClearsStale(Unlocked(s, [0], 0), Relock(id));
    assert EverClearsStale(Unlocked(s, [0], 0), [Relock(id)]);
    StaleLater(s, call, [Relock(id)]);
    assert LockFree(call + [Relock(id)]);
  }

  /** With the mutex free, some run of unlocks and timers in which no lock takes part lets a superseded
      timer clear a later unlock's identities exactly if there is a loose timer. */
  lemma ClearsStaleExactly(s: State)
    requires Invariant(s) && s.encrypted && s.section.None?
    ensures CanClearStale(s) <==> !NoneLoose(s)
  {
    if NoneLoose(s) {
      forall events | LockFree(events) ensures !EverClearsStale(s, events) {
        LockFreeIsNeverTooLate(s, events);
        NoStaleClears(s, events);
      }
    } else {
      var id: TimerId :| id < |s.timers| && Loose(s, id);
      LooseTimerClearsStale(s, id);
    }
  }

  /** A lock opens the way to that exactly if the timer it aborts is already past its sleep. */
  lemma LateLockExactly(s: State)
    requires Invariant(s) && s.encrypted && s.section.None? && NoneLoose(s)
    ensures CanClearStale(Interleave(s, LOCK_CALL)) <==> s.slot.Some? && InPhase(s, s.slot.value, Polling)
  {
    var t := Locked(s);
    LockCallCompletes(s);
    TwoSteps(s, EnterLock, ClearIdentities);
    InterleavingKeepsInvariant(s, LOCK_CALL);
    ClearsStaleExactly(t);
    if s.slot.Some? && InPhase(s, s.slot.value, Polling) {
      assert Loose(t, s.slot.value);
    } else {
      forall id | 0 <= id < |t.timers| ensures !Loose(t, id) {
        assert !Loose(s, id);
      }
    }
  }

  /** It does happen: a lock that meets a timer past its sleep, then an unlock for a minute, and the
      old timer empties the cache while the new one is still counting down. */
  lemma LateLockExample()
    ensures var unlocked := Interleave(Start(true, []), UnlockCall(None, [1], 5, false));
            var relocked := Interleave(Interleave(unlocked, [Tick(5), Wake(0)]), LOCK_CALL);
            var again := Interleave(relocked, UnlockCall(None, [2], 60, false));
            && again.cache == [2] && ClearsStale(again, Relock(0))
            && IsLocked(Step(again, Relock(0))) && UnlockedUntil(Step(again, Relock(0))) == Some(65)
  {
    hide Interleave, UnlockCall;
    var start := Start(true, []);
    var unlocked := Unlocked(start, [1], 5);
    UnlockCallCompletes(start, [1], 5, false);
    TwoSteps(unlocked, Tick(5), Wake(0));
    var due := Interleave(unlocked, [Tick(5), Wake(0)]);
    assert due == unlocked.(now := 5, timers := [Timer(5, Polling, false)]);
    LockCallCompletes(due);
    UnlockCallCompletes(Locked(due), [2], 60, false);
  }

  // ----- Timing -----

  lemma {:induction false} TimeGoesOn(s: State, events: seq<Event>)
    ensures s.now <= Interleave(s, events).now
    decreases |events|
  {
    if events != [] {
      TimeGoesOn(Step(s, events[0]), events[1..]);
    }
  }

  /** Without another call, the identities of an unlock stay until its deadline, unless a loose timer
      is about. */
  lemma {:induction false} HeldUntilDeadline(s: State, events: seq<Event>)
    requires Invariant(s) && NoneLoose(s) && s.encrypted && s.section.None? && s.cache != []
    requires forall e :: e in events ==> !Unlocks(e) && !e.EnterLock?
    requires Interleave(s, events).now < s.timers[s.writer].deadline
    ensures Interleave(s, events).cache == s.cache
    decreases |events|
  {
    if events != [] {
      var e := events[0];
      assert e in events;
      TimeGoesOn(s, events);
      if e.Relock? && e.id < |s.timers| {
        assert !Loose(s, e.id);
      }
      StepKeepsInvariant(s, e);
      StepLeavesNoneLoose(s, e);
      HeldUntilDeadline(Step(s, e), events[1..]);
    }
  }

  /** From its deadline on, the stored timer can clear the cache without waiting for any call. Until then
      its deadline is reported, and while it finishes; once it has, no deadline is. */
  lemma DueTimerRelocks(s: State)
    requires Invariant(s) && s.encrypted && s.section.None? && s.cache != []
    requires s.timers[s.writer].deadline <= s.now
    ensures UnlockedUntil(s) == Some(s.timers[s.writer].deadline)
    ensures var cleared := Interleave(s, [Wake(s.writer), Relock(s.writer)]);
            && IsLocked(cleared) && UnlockedUntil(cleared) == UnlockedUntil(s)
            && var finished := Interleave(cleared, [Complete(s.writer)]);
            IsLocked(finished) && UnlockedUntil(finished).None?
  {
    hide Interleave;
    TwoSteps(s, Wake(s.writer), Relock(s.writer));
    var cleared := Interleave(s, [Wake(s.writer), Relock(s.writer)]);
    SingleStep(cleared, Complete(s.writer));
  }

  lemma SingleStep(s: State, e: Event)
    ensures Interleave(s, [e]) == Step(s, e)
  {
    hide Step;
    assert [e][1..] == [];
  }

  // ----- The keystore as it runs, one call at a time -----

  class KeyStore {
    const encrypted: bool
    var identities: seq<Identity>
    var relockTask: Option<(nat, TimerId)>

    // The runtime that the timers run on.
    var timers: seq<Timer>
    var now: nat
    ghost var writer: TimerId

    ghost function Snapshot(): State
      reads this
    {
      State(encrypted, identities, writer, if relockTask.Some? then Some(relockTask.value.1) else None, timers, None, now)
    }

    ghost predicate Valid()
      reads this
    {
      && Invariant(Snapshot())
      && (relockTask.Some? ==> relockTask.value.0 == timers[relockTask.value.1].deadline)
    }

    constructor (encrypted: bool, plain: seq<Identity>)
      ensures Valid() && Snapshot() == Start(encrypted, plain)
    {
      this.encrypted, this.identities := encrypted, if encrypted then [] else plain;
      this.relockTask, this.timers, this.now, this.writer := None, [], 0, 0;
    }

    /** Aborts the stored timer, if any, and waits for it if asked to. */
    method TakeRelockTask(waits: bool)
      requires Valid()
      modifies `relockTask, `timers
      ensures relockTask.None?
      ensures timers == Retired(old(timers), old(Snapshot()).slot, waits)
    {
      if relockTask.Some? {
        var id := relockTask.value.1;
        relockTask := None;
        timers := timers[id := timers[id].(aborted := true)];
        if waits {
          timers := timers[id := timers[id].(phase := Finished)];
        }
      }
    }

    /** `decrypted` is what the passphrase opens, if it is the right one. */
    method Unlock(decrypted: Option<seq<Identity>>, timeout: nat) returns (r: bool)
      requires Valid()
      modifies `identities, `relockTask, `timers, `writer
      ensures Valid()
      ensures r <==> encrypted && decrypted.Some?
      ensures !r ==> Snapshot() == old(Snapshot())
      ensures r ==> forall clearsFirst ::
                Snapshot() == Interleave(old(Snapshot()), UnlockCall(old(Snapshot()).slot, decrypted.value, timeout, clearsFirst))
      ensures r ==> identities == decrypted.value && UnlockedUntil(Snapshot()) == Some(now + timeout)
      ensures r ==> (IsLocked(Snapshot()) <==> decrypted.value == [])
    {
      if !encrypted || decrypted.None? {
        return false;
      }
      ghost var before := Snapshot();
      TakeRelockTask(true);
      identities := decrypted.value;
      writer := |timers|;
      relockTask := Some((now + timeout, |timers|));
      timers := timers + [Timer(now + timeout, Sleeping, false)];
      assert Snapshot() == Unlocked(before, decrypted.value, timeout);
      forall clearsFirst
        ensures Snapshot() == Interleave(before, UnlockCall(before.slot, decrypted.value, timeout, clearsFirst))
      {
        UnlockCallCompletes(before, decrypted.value, timeout, clearsFirst);
      }
      InterleavingKeepsInvariant(before, UnlockCall(before.slot, decrypted.value, timeout, true));
      return true;
    }

    method Lock()
      requires Valid()
      modifies `identities, `relockTask, `timers
      ensures Valid()
      ensures !encrypted ==> Snapshot() == old(Snapshot())
      ensures encrypted ==> Snapshot() == Interleave(old(Snapshot()), LOCK_CALL)
      ensures encrypted ==> IsLocked(Snapshot()) && UnlockedUntil(Snapshot()).None?
    {
      if !encrypted {
        return;
      }
      ghost var before := Snapshot();
      TakeRelockTask(false);
      identities := [];
      LockCallCompletes(before);
      InterleavingKeepsInvariant(before, LOCK_CALL);
    }

    method IsLockedNow() returns (r: bool)
      requires Valid()
      ensures r == IsLocked(Snapshot())
    {
      return identities == [];
    }

    /** Nothing is unlocked when there is no deadline to report. */
    method UnlockedUntilNow() returns (r: Option<nat>)
      requires Valid()
      ensures r == UnlockedUntil(Snapshot())
      ensures r.Some? <==> relockTask.Some? && timers[relockTask.value.1].phase != Finished
      ensures encrypted && r.None? ==> IsLocked(Snapshot())
    {
      if relockTask.Some? && timers[relockTask.value.1].phase != Finished {
        return Some(relockTask.value.0);
      }
      return None;
    }

    /** What a relock timer does when its sleep ends, if nothing has aborted it. */
    method TimerFires(id: TimerId)
      requires Valid() && id < |timers| && timers[id].phase == Sleeping && !timers[id].aborted && timers[id].deadline <= now
      modifies `identities, `timers
      ensures Valid() && identities == [] && timers[id].phase == Finished
      ensures relockTask == old(relockTask) && (relockTask.Some? && relockTask.value.1 == id ==> UnlockedUntil(Snapshot()).None?)
      ensures Snapshot() == Interleave(old(Snapshot()), [Wake(id)] + [Relock(id), Complete(id)])
    {
      hide Interleave;
      ghost var before := Snapshot();
      timers := timers[id := timers[id].(phase := Polling)];
      identities := [];
      timers := timers[id := timers[id].(phase := Finished)];
      OneStep(before, Wake(id), [Relock(id), Complete(id)]);
      TwoSteps(Step(before, Wake(id)), Relock(id), Complete(id));
      InterleavingKeepsInvariant(before, [Wake(id)] + [Relock(id), Complete(id)]);
    }
  }
}
