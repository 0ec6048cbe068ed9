/** The status object that the condition and execution-time functions edit in place, each
    method proved to be the function of Conditions or ExecutionClock it stands for. */
module UnitStatus {
  import opened Amounts
  import opened QueueUnits
  import opened Conditions
  import opened ExecutionClock

  lemma {:induction false} SetSplit(cs: seq<Condition>, i: nat, u: Update, now: int)
    requires i <= |cs| && forall k :: 0 <= k < i ==> cs[k].kind != u.kind
    ensures Set(cs, u, now) == cs[..i] + Set(cs[i..], u, now)
    ensures Find(cs, u.kind) == Find(cs[i..], u.kind)
  {
    if i == 0 {
      assert cs[0..] == cs;
    } else {
      assert cs[1..][i - 1..] == cs[i..] && [cs[0]] + cs[1..][..i - 1] == cs[..i];
      SetSplit(cs[1..], i - 1, u, now);
    }
  }

  lemma SetAt(cs: seq<Condition>, i: nat, u: Update, now: int)
    requires i < |cs| && cs[i].kind == u.kind && forall k :: 0 <= k < i ==> cs[k].kind != u.kind
    ensures Set(cs, u, now) == cs[i := Overwritten(cs[i], u, now)]
    ensures Find(cs, u.kind) == Some(cs[i])
  {
    SetSplit(cs, i, u, now);
    assert cs[i..][1..] == cs[i + 1..];
  }

  lemma SetAbsent(cs: seq<Condition>, u: Update, now: int)
    requires forall k :: 0 <= k < |cs| ==> cs[k].kind != u.kind
    ensures Set(cs, u, now) == cs + if u.creates then [Condition(u.kind, u.holds, u.reason, u.message, Stored(now))] else []
  {
    SetSplit(cs, |cs|, u, now);
  }

  class StatusObject {
    var phase: Phase
    var message: string
    var conditions: seq<Condition>
    var accumulated: Option<int>
    var requeue: Option<Requeue>

    constructor (s: Status)
      ensures View() == s
    {
      phase, message, conditions, accumulated, requeue := s.phase, s.message, s.conditions, s.accumulated, s.requeue;
    }

    ghost function View(): Status
      reads this
    {
      Status(phase, message, conditions, accumulated, requeue)
    }

    /** setCondition, for an update that may create the condition. */
    method SetCondition(u: Update, now: int) returns (changed: bool)
      requires u.creates
      modifies this`conditions
      ensures conditions == Set(old(conditions), u, now)
      ensures changed == (conditions != old(conditions))
    {
      ghost var cs := conditions;
      SetIdleIff(cs, u, now);
      var i := 0;
      while i < |conditions|
        invariant 0 <= i <= |conditions| && conditions == cs
        invariant forall k :: 0 <= k < i ==> cs[k].kind != u.kind
      {
        if conditions[i].kind != u.kind {
          i := i + 1;
          continue;
        }
        SetAt(cs, i, u, now);
        var c := conditions[i];
        if c.holds == u.holds && c.reason == u.reason && c.message == u.message {
          return false;
        }
        if c.holds != u.holds {
          c := c.(since := Stored(now));
        }
        c := c.(holds := u.holds, reason := u.reason, message := u.message);
        conditions := conditions[i := c];
        return true;
      }
      SetAbsent(cs, u, now);
      conditions := conditions + [Condition(u.kind, u.holds, u.reason, u.message, Stored(now))];
      return true;
    }

    method SetConditionIfPresent(u: Update, now: int) returns (changed: bool)
      requires !u.creates
      modifies this`conditions
      ensures conditions == Set(old(conditions), u, now)
      ensures changed == (conditions != old(conditions))
    {
      ghost var cs := conditions;
      var i := 0;
      while i < |conditions|
        invariant 0 <= i <= |conditions| && conditions == cs
        invariant forall k :: 0 <= k < i ==> cs[k].kind != u.kind
      {
        if conditions[i].kind == u.kind {
          SetAt(cs, i, u, now);
          SetAt(cs, i, u.(creates := true), now);
          changed := SetCondition(u.(creates := true), now);
          return;
        }
        i := i + 1;
      }
      SetAbsent(cs, u, now);
      return false;
    }

    /** Consecutive calls of setCondition and setConditionIfPresent. */
    method SetEach(us: seq<Update>, now: int) returns (changed: bool)
      requires Separate(us)
      modifies this`conditions
      ensures conditions == SetAll(old(conditions), us, now)
      ensures changed == (conditions != old(conditions))
    {
      ghost var cs := conditions;
      changed := false;
      assert us[..0] == [];
      for i := 0 to |us|
        invariant conditions == SetAll(cs, us[..i], now)
        invariant changed <==> exists k :: 0 <= k < i && !Holds(cs, us[k])
      {
        assert us[..i + 1][..i] == us[..i];
        StillToDo(cs, us, i, now);
        var one;
        if us[i].creates {
          one := SetCondition(us[i], now);
        } else {
          one := SetConditionIfPresent(us[i], now);
        }
        changed := one || changed;
      }
      assert us[..|us|] == us;
      AnyChange(cs, us, now);
    }

    /** An update is still to be made exactly if it was at the start. */
    static lemma StillToDo(cs: seq<Condition>, us: seq<Update>, i: nat, now: int)
      requires Separate(us) && i < |us|
      ensures SetAll(cs, us[..i + 1], now) != SetAll(cs, us[..i], now) <==> !Holds(cs, us[i])
    {
      assert us[..i + 1][..i] == us[..i];
      SetIdleIff(SetAll(cs, us[..i], now), us[i], now);
      TimesMoveOnFlips(cs, us[..i], now, us[i].kind);
    }

    static lemma AnyChange(cs: seq<Condition>, us: seq<Update>, now: int)
      requires Separate(us)
      ensures SetAll(cs, us, now) != cs <==> exists k :: 0 <= k < |us| && !Holds(cs, us[k])
    {
      if forall k :: 0 <= k < |us| ==> Holds(cs, us[k]) {
        SetAllIdle(cs, us, now);
      } else {
        var k :| 0 <= k < |us| && !Holds(cs, us[k]);
        SetAllHolds(cs, us, now, k);
      }
    }

    /** SyncQueueUnitConditions reports a change exactly when it makes one. */
    method SyncQueueUnitConditions(g: Gates, now: int) returns (changed: bool)
      modifies this`conditions, this`requeue
      ensures View() == Sync(old(View()), g, now)
      ensures changed == (View() != old(View()))
    {
      if !g.conditions {
        return false;
      }
      UpdatesSeparate(phase, message);
      changed := SetEach(Updates(phase, message), now);
      if phase == Running {
        changed := requeue.Some? || changed;
        requeue := None;
      }
    }

    method SetQueueUnitEvictedCondition(g: Gates, reason: string, now: int) returns (changed: bool)
      modifies this`conditions
      ensures View() == Evict(old(View()), g, reason, now)
      ensures changed == (View() != old(View()))
    {
      if !g.conditions {
        return false;
      }
      changed := SetEach(EvictedUpdates(reason, message), now);
    }

    method AccumulateExecutionTime(g: Gates, now: int)
      modifies this`accumulated
      ensures View() == Accumulate(old(View()), g, now)
    {
      if !g.executionTime {
        return;
      }
      var podsReady := Find(conditions, PODS_READY);
      if podsReady.None? || !podsReady.value.holds {
        return;
      }
      var ticks := now - podsReady.value.since;
      var elapsed := if ticks < 0 then -(-ticks / SECOND) else ticks / SECOND;
      if elapsed <= 0 {
        return;
      }
      accumulated := Some((if accumulated.Some? then accumulated.value else 0) + elapsed);
    }

    /** reconcileDeactivation; `applies` is that the feature is on, the unit inactive and
        its job type can be requeued. The job is suspended before the status changes. */
    method ReconcileDeactivation(applies: bool, g: Gates, ads: seq<Admission>, now: int) returns (handled: bool)
      modifies this
      ensures handled == (applies && old(phase) !in {Succeed, Failed})
      ensures View() == if !handled || (exists i :: 0 <= i < |ads| && ads[i].reclaim.Some? && 0 < ads[i].reclaim.value) ||
                           (old(phase) == Enqueued && !HoldsAny(ads))
                        then old(View()) else Deactivated(old(View()), g, now)
    {
      if !applies || phase == Succeed || phase == Failed {
        return false;
      }
      if BeingReclaimed(ads) {
        return true;
      }
      if !HoldsAny(ads) && phase == Enqueued {
        return true;
      }
      AccumulateExecutionTime(g, now);
      phase, message := Enqueued, "Evicted because the queue unit is deactivated";
      var synced := SyncQueueUnitConditions(g, now);
      var evicted := SetQueueUnitEvictedCondition(g, BY_DEACTIVATION, now);
      return true;
    }

    /** reconcileMaxExecutionTime for an active unit with a budget in seconds; `expired`
        makes the caller set the unit inactive. */
    method ReconcileMaxExecutionTime(g: Gates, budget: int, now: int) returns (requeueAfter: int, expired: bool)
      modifies this
      ensures expired == old(Exceeded(View(), g, budget, now))
      ensures View() == if expired then Expired(old(View()), g, now) else old(View())
      ensures requeueAfter == if !expired && g.executionTime && IsTrue(conditions, PODS_READY)
                              then budget * SECOND - Banked(View()) * SECOND - Interval(View(), now) else 0
    {
      if !g.executionTime {
        return 0, false;
      }
      var podsReady := Find(conditions, PODS_READY);
      if podsReady.None? || !podsReady.value.holds {
        return 0, false;
      }
      var spent := (if accumulated.Some? then accumulated.value else 0) * SECOND;
      var remaining := budget * SECOND - spent - (now - podsReady.value.since);
      if remaining > 0 {
        return remaining, false;
      }
      accumulated := None;
      message := "Evicted because the maximum execution time was exceeded";
      var stopped := SetConditionIfPresent(StopUpdate(), now);
      var evicted := SetQueueUnitEvictedCondition(g, BY_EXECUTION_TIME, now);
      return 0, true;
    }
  }

  /** isBeingReclaimed: a preemption still waits for replicas. */
  predicate BeingReclaimed(ads: seq<Admission>) {
    exists i :: 0 <= i < |ads| && PendingReclaim(ads[i]) > 0
  }
}
