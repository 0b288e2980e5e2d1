/**
  The dark-resume controller. When the system wakes in dark resume it keeps
  the power daemon's readiness callback and starts a short check timer. When
  that timer expires, the controller observes the app-suspension wake lock
  and starts a hard timer. The callback runs, telling the daemon to suspend
  again, when the wake lock is released or the hard timer expires. A full
  resume drops everything.

  Timers are flags and their expiry is an event. The mojo binding is a
  flag. The power daemon's callbacks are tokens that this controller hands
  out in increasing order.
*/
module DarkResumeController {
  import opened Wrappers

  /**
    Where a dark resume stands. The last phase is reached when a second dark
    suspend arrives while the wake lock is observed: the check timer runs
    again beside the observer, and the earlier callback has been dropped.
  */
  datatype Phase = Idle | WaitingForCheck | ObservingWakeLock | ObservingAndWaitingForCheck

  class DarkResumeController {
    /** The pending readiness callback. */
    var readinessCallback: Option<nat>
    var wakeLockCheckTimerRunning: bool
    var hardTimeoutTimerRunning: bool
    var observerBound: bool
    /** Whether weak pointers to this controller were handed out and not yet invalidated. */
    var hasWeakPtrs: bool
    /** Readiness callbacks run, in order. */
    var ran: seq<nat>
    /** Token for the next readiness callback the daemon hands out. */
    var nextCallback: nat
    /** Wake-lock deactivation notifications requested. */
    var notificationsRequested: nat

    /** `IsDarkResumeStateSetForTesting`: a callback is pending and the observer is bound. */
    predicate IsDarkResumeStateSet()
      reads this
    {
      readinessCallback.Some? && observerBound
    }

    /** `IsDarkResumeStateClearedForTesting`: nothing pending, bound or running. */
    predicate IsDarkResumeStateCleared()
      reads this
    {
      && !hasWeakPtrs
      && !wakeLockCheckTimerRunning
      && !hardTimeoutTimerRunning
      && readinessCallback.None?
      && !observerBound
    }

    /**
      The hard timer runs exactly while the observer is bound; a callback is
      pending, and weak pointers are out, exactly while a timer or the
      observer is live. Callbacks already run are all older than the next,
      run at most once each, and the pending one has not run.
    */
    ghost predicate Valid()
      reads this
    {
      && hardTimeoutTimerRunning == observerBound
      && (readinessCallback.Some? <==> wakeLockCheckTimerRunning || observerBound)
      && (hasWeakPtrs <==> wakeLockCheckTimerRunning || observerBound)
      && (forall i :: 0 <= i < |ran| ==> ran[i] < nextCallback)
      && (forall i, j :: 0 <= i < j < |ran| ==> ran[i] != ran[j])
      && (readinessCallback.Some? ==> readinessCallback.value < nextCallback && readinessCallback.value !in ran)
    }

    /** The phase of the state machine; every state the invariant admits is in one of the four. */
    function PhaseOf(): (p: Phase)
      requires Valid()
      reads this
      ensures p == Idle <==> IsDarkResumeStateCleared()
      ensures p == Idle <==> readinessCallback.None?
      ensures p == WaitingForCheck <==> readinessCallback.Some? && wakeLockCheckTimerRunning && !IsDarkResumeStateSet()
      ensures p == ObservingWakeLock <==> IsDarkResumeStateSet() && !wakeLockCheckTimerRunning
      ensures p == ObservingAndWaitingForCheck <==> IsDarkResumeStateSet() && wakeLockCheckTimerRunning
    {
      if readinessCallback.None? then Idle
      else if !observerBound then WaitingForCheck
      else if !wakeLockCheckTimerRunning then ObservingWakeLock
      else ObservingAndWaitingForCheck
    }

    constructor()
      ensures Valid() && IsDarkResumeStateCleared()
      ensures ran == [] && nextCallback == 0 && notificationsRequested == 0
    {
      readinessCallback := None;
      wakeLockCheckTimerRunning := false;
      hardTimeoutTimerRunning := false;
      observerBound := false;
      hasWeakPtrs := false;
      ran := [];
      nextCallback := 0;
      notificationsRequested := 0;
    }

    /** Takes a fresh readiness callback and starts the wake-lock check timer. */
    method DarkSuspendImminent()
      requires Valid() && !wakeLockCheckTimerRunning
      modifies this
      ensures Valid()
      ensures readinessCallback == Some(old(nextCallback)) && nextCallback == old(nextCallback) + 1
      ensures wakeLockCheckTimerRunning && hasWeakPtrs
      ensures hardTimeoutTimerRunning == old(hardTimeoutTimerRunning) && observerBound == old(observerBound)
      ensures ran == old(ran) && notificationsRequested == old(notificationsRequested)
      ensures old(PhaseOf()) == Idle ==> PhaseOf() == WaitingForCheck
      ensures old(PhaseOf()) == ObservingWakeLock ==> PhaseOf() == ObservingAndWaitingForCheck
    {
      readinessCallback := Some(nextCallback);
      nextCallback := nextCallback + 1;
      wakeLockCheckTimerRunning := true;
      hasWeakPtrs := true;
    }

    /** A full resume: clears all dark-resume state without running the callback. */
    method SuspendDone()
      requires Valid()
      modifies this
      ensures Valid() && IsDarkResumeStateCleared() && PhaseOf() == Idle
      ensures ran == old(ran) && nextCallback == old(nextCallback)
      ensures notificationsRequested == old(notificationsRequested)
    {
      ClearDarkResumeState();
    }

    /** The wake lock is not held (any more): run the callback once and clear. Only a bound observer is notified. */
    method OnWakeLockDeactivated()
      requires Valid() && observerBound
      modifies this
      ensures Valid() && IsDarkResumeStateCleared()
      ensures ran == old(ran) + [old(readinessCallback).value]
      ensures nextCallback == old(nextCallback) && notificationsRequested == old(notificationsRequested)
    {
      RunReadinessCallback();
      ClearDarkResumeState();
    }

    /** The check timer expired: observe the wake lock and start the hard timer. */
    method HandleDarkResumeWakeLockCheckTimeout()
      requires Valid() && wakeLockCheckTimerRunning && !hardTimeoutTimerRunning
      modifies this
      ensures Valid()
      ensures !wakeLockCheckTimerRunning && observerBound && hardTimeoutTimerRunning && hasWeakPtrs
      ensures notificationsRequested == old(notificationsRequested) + 1
      ensures readinessCallback == old(readinessCallback) && ran == old(ran) && nextCallback == old(nextCallback)
      ensures PhaseOf() == ObservingWakeLock
    {
      wakeLockCheckTimerRunning := false;
      observerBound := true;
      notificationsRequested := notificationsRequested + 1;
      hardTimeoutTimerRunning := true;
      hasWeakPtrs := true;
    }

    /** The hard timer expired: stop it, run the callback once and clear. */
    method HandleDarkResumeHardTimeout()
      requires Valid() && hardTimeoutTimerRunning
      modifies this
      ensures Valid() && IsDarkResumeStateCleared()
      ensures ran == old(ran) + [old(readinessCallback).value]
      ensures nextCallback == old(nextCallback) && notificationsRequested == old(notificationsRequested)
    {
      hardTimeoutTimerRunning := false;
      RunReadinessCallback();
      ClearDarkResumeState();
    }

    /** Moves the pending callback out and runs it. */
    method RunReadinessCallback()
      requires readinessCallback.Some?
      modifies this
      ensures ran == old(ran) + [old(readinessCallback).value] && readinessCallback.None?
      ensures wakeLockCheckTimerRunning == old(wakeLockCheckTimerRunning)
      ensures hardTimeoutTimerRunning == old(hardTimeoutTimerRunning)
      ensures observerBound == old(observerBound) && hasWeakPtrs == old(hasWeakPtrs)
      ensures nextCallback == old(nextCallback) && notificationsRequested == old(notificationsRequested)
    {
      ran := ran + [readinessCallback.value];
      readinessCallback := None;
    }

    /** Drops the callback, closes the binding, stops both timers and invalidates weak pointers. */
    method ClearDarkResumeState()
      requires (forall i :: 0 <= i < |ran| ==> ran[i] < nextCallback)
      requires (forall i, j :: 0 <= i < j < |ran| ==> ran[i] != ran[j])
      modifies this
      ensures Valid() && IsDarkResumeStateCleared()
      ensures ran == old(ran) && nextCallback == old(nextCallback)
      ensures notificationsRequested == old(notificationsRequested)
    {
      readinessCallback := None;
      observerBound := false;
      wakeLockCheckTimerRunning := false;
      hardTimeoutTimerRunning := false;
      hasWeakPtrs := false;
    }
  }

  /**
    Under the controller's invariant, the cleared test is the same as having
    no pending callback and no weak pointers out.
  */
  lemma ClearedIffNoCallback(c: DarkResumeController)
    requires c.Valid()
    ensures c.IsDarkResumeStateCleared() <==> c.readinessCallback.None? && !c.hasWeakPtrs
  {
  }

  /** A whole dark resume ending in a wake-lock release runs one callback and ends cleared. */
  method DarkResumeCycle() returns (c: DarkResumeController)
    ensures c.ran == [0] && c.IsDarkResumeStateCleared()
  {
    c := new DarkResumeController();
    c.DarkSuspendImminent();
    c.HandleDarkResumeWakeLockCheckTimeout();
    assert c.IsDarkResumeStateSet();
    c.OnWakeLockDeactivated();
  }

  /** Two dark resumes run two distinct callbacks, one each. */
  method TwoDarkResumes() returns (c: DarkResumeController)
    ensures c.ran == [0, 1] && c.IsDarkResumeStateCleared()
  {
    c := new DarkResumeController();
    c.DarkSuspendImminent();
    c.HandleDarkResumeWakeLockCheckTimeout();
    c.HandleDarkResumeHardTimeout();
    c.DarkSuspendImminent();
    c.HandleDarkResumeWakeLockCheckTimeout();
    c.OnWakeLockDeactivated();
  }

  /**
    A second dark suspend while the wake lock is observed replaces the
    pending callback: the first is dropped without ever running, and only
    the second runs when the wake lock is released.
  */
  method RearmDropsCallback() returns (c: DarkResumeController)
    ensures c.ran == [1] && c.IsDarkResumeStateCleared()
  {
    c := new DarkResumeController();
    c.DarkSuspendImminent();
    c.HandleDarkResumeWakeLockCheckTimeout();
    c.DarkSuspendImminent();
    assert c.PhaseOf() == ObservingAndWaitingForCheck && c.ran == [] && c.readinessCallback == Some(1);
    c.OnWakeLockDeactivated();
  }
}
