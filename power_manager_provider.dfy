/**
  The Assistant's power-manager provider: a wake-lock reference count whose
  first acquire requests the platform wake lock and whose last release
  cancels it, and a table of wake alarms keyed by ids handed out in
  increasing order, each of whose callbacks runs at most once.

  Tasks posted to the main thread are kept in a queue and run one at a time.
  The platform wake lock, the native timers and the clock are not modelled:
  calls to the wake lock are recorded, a timer's start result is an event,
  and expiry times are not kept.
*/
module PowerManagerProvider {
  import opened Strings

  /** A call made on the platform wake-lock service. */
  datatype PlatformCall = BindWakeLock | RequestWakeLock | CancelWakeLock

  /** The wake-lock part of the provider's state. */
  datatype LockState = LockState(count: nat, bound: bool, calls: seq<PlatformCall>)

  /** The last request or cancel made, if any. */
  function LastLockCall(calls: seq<PlatformCall>): (c: PlatformCall)
    ensures c != BindWakeLock ==> c in calls
  {
    if |calls| == 0 then BindWakeLock
    else if calls[|calls| - 1] != BindWakeLock then calls[|calls| - 1]
    else LastLockCall(calls[..|calls| - 1])
  }

  function BindCount(calls: seq<PlatformCall>): nat {
    if |calls| == 0 then 0
    else BindCount(calls[..|calls| - 1]) + (if calls[|calls| - 1] == BindWakeLock then 1 else 0)
  }

  /**
    The platform lock is held (requested more recently than cancelled)
    exactly when the count is positive, and it is bound once, before use.
  */
  predicate Consistent(s: LockState) {
    && (s.count > 0 <==> LastLockCall(s.calls) == RequestWakeLock)
    && (s.bound <==> BindCount(s.calls) == 1)
    && BindCount(s.calls) <= 1
  }

  const InitialLock := LockState(0, false, [])

  /** One acquire: the count goes up; only the first acquire binds (once) and requests. */
  function Acquired(s: LockState): (t: LockState)
    ensures t.count == s.count + 1 && t.bound == (s.bound || s.count == 0)
    ensures s.count > 0 ==> t.calls == s.calls
    ensures s.count == 0 ==> |t.calls| > 0 && t.calls[|t.calls| - 1] == RequestWakeLock
  {
    if s.count > 0 then LockState(s.count + 1, s.bound, s.calls)
    else if s.bound then LockState(1, true, s.calls + [RequestWakeLock])
    else LockState(1, true, s.calls + [BindWakeLock, RequestWakeLock])
  }

  /** One release: nothing at zero; otherwise the count goes down and only the last release cancels. */
  function Released(s: LockState): (t: LockState)
    ensures s.count == 0 ==> t == s
    ensures s.count > 0 ==> t.count == s.count - 1 && t.bound == s.bound
    ensures s.count != 1 ==> t.calls == s.calls
    ensures s.count == 1 ==> t.calls == s.calls + [CancelWakeLock]
  {
    if s.count == 0 then s
    else if s.count > 1 then LockState(s.count - 1, s.bound, s.calls)
    else LockState(0, s.bound, s.calls + [CancelWakeLock])
  }

  lemma AcquirePreservesConsistency(s: LockState)
    requires Consistent(s)
    ensures Consistent(Acquired(s))
  {
    var t := Acquired(s);
    if s.count == 0 {
      if s.bound {
        assert t.calls[..|t.calls| - 1] == s.calls;
      } else {
        assert (s.calls + [BindWakeLock, RequestWakeLock])[..|s.calls| + 1] == s.calls + [BindWakeLock];
        assert (s.calls + [BindWakeLock])[..|s.calls|] == s.calls;
      }
    }
  }

  lemma ReleasePreservesConsistency(s: LockState)
    requires Consistent(s)
    ensures Consistent(Released(s))
  {
    var t := Released(s);
    if s.count == 1 {
      assert t.calls[..|t.calls| - 1] == s.calls;
    }
  }

  /** An acquire or a release request, as posted. */
  datatype LockOp = Acquire | Release

  function ApplyAll(s: LockState, ops: seq<LockOp>): LockState
    decreases |ops|
  {
    if |ops| == 0 then s
    else ApplyAll(if ops[0] == Acquire then Acquired(s) else Released(s), ops[1..])
  }

  /**
    Over any sequence of acquires and releases from the start, the count
    never goes negative and the platform lock is held exactly when the
    count is positive.
  */
  lemma {:induction false} AnyOpsKeepLockConsistent(s: LockState, ops: seq<LockOp>)
    requires Consistent(s)
    ensures Consistent(ApplyAll(s, ops))
    decreases |ops|
  {
    if |ops| > 0 {
      if ops[0] == Acquire {
        AcquirePreservesConsistency(s);
        AnyOpsKeepLockConsistent(Acquired(s), ops[1..]);
      } else {
        ReleasePreservesConsistency(s);
        AnyOpsKeepLockConsistent(Released(s), ops[1..]);
      }
    }
  }

  // ---------------------------------------------------------------------------
  // Alarm ids.

  /** The name of an alarm's native timer: "Assistant" and the id. */
  function TimerName(id: nat): string {
    "Assistant" + NatToString(id)
  }

  predicate StrictlyIncreasing(s: seq<nat>) {
    forall i, j :: 0 <= i < j < |s| ==> s[i] < s[j]
  }

  /** A stored alarm: its callback (an opaque token) and its timer's name. */
  datatype Alarm = Alarm(callback: nat, timerName: string)

  /** A task posted to the main thread. */
  datatype Task = AddAlarmTask(id: nat, callback: nat) | FireTask(id: nat) | AcquireTask | ReleaseTask

  class PowerManagerProviderImpl {
    /** Whether `DCHECK`s are compiled in: their expressions are not evaluated otherwise. */
    const dchecksOn: bool

    var nextId: nat
    var wakeLockCount: nat
    var wakeLockBound: bool
    var platformCalls: seq<PlatformCall>
    var timers: map<nat, Alarm>
    /** Tasks posted to the main thread and not yet run, oldest first. */
    var posted: seq<Task>
    /** The callbacks run, in order. */
    var fired: seq<nat>
    /** The ids handed out, in order. */
    ghost var issued: seq<nat>

    function Lock(): LockState
      reads this
    {
      LockState(wakeLockCount, wakeLockBound, platformCalls)
    }

    /** Ids are handed out in increasing order, below the next one; the wake lock is consistent. */
    ghost predicate Valid()
      reads this
    {
      && StrictlyIncreasing(issued)
      && (forall i :: 0 <= i < |issued| ==> issued[i] < nextId)
      && Consistent(Lock())
    }

    constructor(dchecksOn: bool, firstId: nat)
      ensures Valid() && this.dchecksOn == dchecksOn
      ensures nextId == firstId && Lock() == InitialLock
      ensures timers == map[] && posted == [] && fired == [] && issued == []
    {
      this.dchecksOn := dchecksOn;
      nextId := firstId;
      wakeLockCount := 0;
      wakeLockBound := false;
      platformCalls := [];
      timers := map[];
      posted := [];
      fired := [];
      issued := [];
    }

    /** Hands out the next id and posts the alarm's creation to the main thread. */
    method AddWakeAlarm(callback: nat) returns (id: nat)
      requires Valid()
      modifies this
      ensures Valid()
      ensures id == old(nextId) && nextId == id + 1
      ensures issued == old(issued) + [id]
      ensures forall x :: x in old(issued) ==> x < id
      ensures posted == old(posted) + [AddAlarmTask(id, callback)]
      ensures timers == old(timers) && fired == old(fired) && Lock() == old(Lock())
    {
      id := nextId;
      nextId := nextId + 1;
      issued := issued + [id];
      posted := posted + [AddAlarmTask(id, callback)];
    }

    /** Posts the firing of an alarm, as if its timer had expired. */
    method ExpireWakeAlarmNow(id: nat)
      modifies this
      ensures posted == old(posted) + [FireTask(id)]
      ensures timers == old(timers) && fired == old(fired) && Lock() == old(Lock())
      ensures nextId == old(nextId) && issued == old(issued)
    {
      posted := posted + [FireTask(id)];
    }

    method AcquireWakeLock()
      modifies this
      ensures posted == old(posted) + [AcquireTask]
      ensures timers == old(timers) && fired == old(fired) && Lock() == old(Lock())
      ensures nextId == old(nextId) && issued == old(issued)
    {
      posted := posted + [AcquireTask];
    }

    method ReleaseWakeLock()
      modifies this
      ensures posted == old(posted) + [ReleaseTask]
      ensures timers == old(timers) && fired == old(fired) && Lock() == old(Lock())
      ensures nextId == old(nextId) && issued == old(issued)
    {
      posted := posted + [ReleaseTask];
    }

    /** Stores the alarm's callback and its timer under its id. */
    method AddWakeAlarmOnMainThread(id: nat, callback: nat)
      modifies this
      ensures timers == old(timers)[id := Alarm(callback, TimerName(id))]
      ensures fired == old(fired) && Lock() == old(Lock()) && posted == old(posted)
      ensures nextId == old(nextId) && issued == old(issued)
    {
      timers := timers[id := Alarm(callback, TimerName(id))];
    }

    /** The first acquire binds the platform lock if needed and requests it. */
    method AcquireWakeLockOnMainThread()
      requires Valid()
      modifies this
      ensures Valid()
      ensures Lock() == Acquired(old(Lock()))
      ensures timers == old(timers) && fired == old(fired) && posted == old(posted)
      ensures nextId == old(nextId) && issued == old(issued)
    {
      var count, bound, calls := wakeLockCount + 1, wakeLockBound, platformCalls;
      if count == 1 {
        if !bound {
          calls := calls + [BindWakeLock];
          bound := true;
        }
        calls := calls + [RequestWakeLock];
      }
      assert LockState(count, bound, calls) == Acquired(Lock());
      AcquirePreservesConsistency(Lock());
      wakeLockCount, wakeLockBound, platformCalls := count, bound, calls;
    }

    /** A release without an acquire only warns; the last release cancels the platform lock. */
    method ReleaseWakeLockOnMainThread()
      requires Valid()
      modifies this
      ensures Valid()
      ensures Lock() == Released(old(Lock()))
      ensures timers == old(timers) && fired == old(fired) && posted == old(posted)
      ensures nextId == old(nextId) && issued == old(issued)
    {
      ReleasePreservesConsistency(Lock());
      if wakeLockCount == 0 {
        return;
      }
      wakeLockCount := wakeLockCount - 1;
      if wakeLockCount >= 1 {
        return;
      }
      platformCalls := platformCalls + [CancelWakeLock];
    }

    /**
      The timer's start result, as written: a failed start erases the alarm
      only where `DCHECK`s are compiled in, since the erase is the checked
      expression.
    */
    method OnStartTimerCallback(id: nat, result: bool)
      modifies this
      ensures timers == if !result && dchecksOn then old(timers) - {id} else old(timers)
      ensures fired == old(fired) && Lock() == old(Lock()) && posted == old(posted)
      ensures nextId == old(nextId) && issued == old(issued)
    {
      if !result {
        if dchecksOn {
          timers := timers - {id};
        }
      }
    }

    /** The timer's start result, erasing the alarm on failure in every build. */
    method OnStartTimerCallbackErasing(id: nat, result: bool)
      modifies this
      ensures timers == if result then old(timers) else old(timers) - {id}
      ensures !result ==> id !in timers
      ensures fired == old(fired) && Lock() == old(Lock()) && posted == old(posted)
      ensures nextId == old(nextId) && issued == old(issued)
    {
      if !result {
        timers := timers - {id};
      }
    }

    /** An unknown id does nothing; a known one runs its callback once and is forgotten. */
    method OnTimerFiredOnMainThread(id: nat)
      modifies this
      ensures id !in old(timers) ==> timers == old(timers) && fired == old(fired)
      ensures id in old(timers) ==>
        timers == old(timers) - {id} && fired == old(fired) + [old(timers)[id].callback]
      ensures id !in timers
      ensures Lock() == old(Lock()) && posted == old(posted)
      ensures nextId == old(nextId) && issued == old(issued)
    {
      if id !in timers {
        return;
      }
      fired := fired + [timers[id].callback];
      timers := timers - {id};
    }

    /** Runs the oldest posted task on the main thread. */
    method RunNextTask()
      requires Valid() && |posted| > 0
      modifies this
      ensures Valid()
      ensures posted == old(posted)[1..]
      ensures nextId == old(nextId) && issued == old(issued)
      ensures match old(posted)[0]
        case AddAlarmTask(id, cb) =>
          timers == old(timers)[id := Alarm(cb, TimerName(id))] && fired == old(fired) && Lock() == old(Lock())
        case FireTask(id) =>
          && timers == old(timers) - {id}
          && fired == old(fired) + (if id in old(timers) then [old(timers)[id].callback] else [])
          && Lock() == old(Lock())
        case AcquireTask => Lock() == Acquired(old(Lock())) && timers == old(timers) && fired == old(fired)
        case ReleaseTask => Lock() == Released(old(Lock())) && timers == old(timers) && fired == old(fired)
    {
      var task := posted[0];
      posted := posted[1..];
      match task
      case AddAlarmTask(id, cb) => AddWakeAlarmOnMainThread(id, cb);
      case FireTask(id) => OnTimerFiredOnMainThread(id);
      case AcquireTask => AcquireWakeLockOnMainThread();
      case ReleaseTask => ReleaseWakeLockOnMainThread();
    }
  }

  /**
    Expiring an alarm by hand and then letting its timer fire runs its
    callback once.
  */
  method ExpireThenFireRunsOnce() returns (p: PowerManagerProviderImpl)
    ensures p.fired == [7] && p.timers == map[]
  {
    p := new PowerManagerProviderImpl(true, 0);
    var id := p.AddWakeAlarm(7);
    p.RunNextTask();
    assert p.timers == map[0 := Alarm(7, TimerName(0))];
    p.ExpireWakeAlarmNow(id);
    p.RunNextTask();
    p.OnTimerFiredOnMainThread(id);
  }

  /**
    Where `DCHECK`s are compiled out, an alarm whose timer failed to start
    stays in the table, and expiring it by hand still runs its callback.
  */
  method FailedStartKeepsAlarmWithoutDchecks() returns (p: PowerManagerProviderImpl)
    ensures p.fired == [7] && p.timers == map[]
  {
    p := new PowerManagerProviderImpl(false, 0);
    var id := p.AddWakeAlarm(7);
    p.RunNextTask();
    p.OnStartTimerCallback(id, false);
    assert 0 in p.timers && p.timers[0].callback == 7;
    p.ExpireWakeAlarmNow(id);
    p.RunNextTask();
  }

  /** With the erase done in every build, an alarm whose timer failed to start is gone, and expiring it runs nothing. */
  method FailedStartForgetsAlarm() returns (p: PowerManagerProviderImpl)
    ensures p.timers == map[] && p.fired == []
  {
    p := new PowerManagerProviderImpl(false, 0);
    var id := p.AddWakeAlarm(7);
    p.RunNextTask();
    p.OnStartTimerCallbackErasing(id, false);
    p.ExpireWakeAlarmNow(id);
    p.RunNextTask();
  }

  /** Two alarms get distinct, increasing ids. */
  method TwoAlarmsGetIncreasingIds() returns (first: nat, second: nat)
    ensures first < second
  {
    var p := new PowerManagerProviderImpl(true, 5);
    first := p.AddWakeAlarm(1);
    second := p.AddWakeAlarm(2);
  }
}
