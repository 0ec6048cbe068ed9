/** status.conditions as a mirror of the phase: the updates each phase asks for, and the
    effect of applying them to the slice of conditions. */
module Conditions {
  import opened Amounts
  import opened QueueUnits

  const QUOTA_RESERVED := "QuotaReserved"
  const ADMITTED := "Admitted"
  const PODS_READY := "PodsReady"
  const FINISHED := "Finished"
  const EVICTED := "Evicted"

  const BY_DEACTIVATION := "Deactivated"
  const BY_BACKOFF := "BackoffTimeout"
  const BY_EXECUTION_TIME := "MaximumExecutionTimeExceeded"

  /** Times are ticks; a second has many of them. */
  const SECOND := 1_000_000_000

  /** The API keeps a time in whole seconds, and that is what is read back. */
  function Stored(now: int): int {
    now - now % SECOND
  }

  /** `since` is LastTransitionTime as it is stored. */
  datatype Condition = Condition(kind: string, holds: bool, reason: string, message: string, since: int)

  /** A condition to be set; `creates` is false for those that are only flipped if present. */
  datatype Update = Update(kind: string, holds: bool, reason: string, message: string, creates: bool)

  ghost predicate UniqueKinds(cs: seq<Condition>) {
    forall i, j :: 0 <= i < j < |cs| ==> cs[i].kind != cs[j].kind
  }

  /** FindQueueUnitCondition: the first condition of that type. */
  function Find(cs: seq<Condition>, kind: string): Option<Condition> {
    if cs == [] then None else if cs[0].kind == kind then Some(cs[0]) else Find(cs[1..], kind)
  }

  predicate IsTrue(cs: seq<Condition>, kind: string) {
    Find(cs, kind).Some? && Find(cs, kind).value.holds
  }

  /** What an existing condition becomes: its time moves only when the status flips. */
  function Overwritten(c: Condition, u: Update, now: int): Condition {
    Condition(c.kind, u.holds, u.reason, u.message, if c.holds == u.holds then c.since else Stored(now))
  }

  /** setCondition and setConditionIfPresent. */
  function Set(cs: seq<Condition>, u: Update, now: int): seq<Condition> {
    if cs == [] then if u.creates then [Condition(u.kind, u.holds, u.reason, u.message, Stored(now))] else []
    else if cs[0].kind == u.kind then [Overwritten(cs[0], u, now)] + cs[1..]
    else [cs[0]] + Set(cs[1..], u, now)
  }

  function SetAll(cs: seq<Condition>, us: seq<Update>, now: int): seq<Condition> {
    if us == [] then cs else Set(SetAll(cs, us[..|us| - 1], now), us[|us| - 1], now)
  }

  /** The updates that SyncQueueUnitConditions makes in a phase. */
  function Updates(phase: Phase, message: string): seq<Update> {
    match phase
    case Enqueued => [
      Update(QUOTA_RESERVED, false, "Pending", "The queue unit is waiting in its queue", true),
      Update(ADMITTED, false, "Pending", "The queue unit is not admitted yet", true),
      Update(PODS_READY, false, "Pending", "The pods of the job are not running", false),
      Update(EVICTED, false, "Requeued", "The queue unit is queued again", false)]
    case Reserved => [
      Update(QUOTA_RESERVED, true, "QuotaReserved", "Quota is reserved in the queue", true),
      Update(ADMITTED, false, "WaitingForAdmissionChecks", "Waiting for all admission checks to be ready", true)]
    case Dequeued => AdmittedUpdates()
    case SchedReady => AdmittedUpdates()
    case SchedSucceed => AdmittedUpdates()
    case Running => AdmittedUpdates() + [Update(PODS_READY, true, "PodsRunning", "The pods of the job are running", true)]
    case Succeed => [Update(FINISHED, true, "Succeeded", "The job succeeded", true)]
    case Failed => [Update(FINISHED, true, "Failed", "The job failed", true)]
    case Backoff => [
      Update(QUOTA_RESERVED, false, BY_BACKOFF, "The reservation is released while backing off", true),
      Update(ADMITTED, false, BY_BACKOFF, "The queue unit is no longer admitted", true),
      Update(PODS_READY, false, BY_BACKOFF, "The pods of the job are not running", false),
      Update(EVICTED, true, BY_BACKOFF, message, true)]
    case SchedFailed => [Update(ADMITTED, false, "SchedulingFailed", message, true)]
    case NoPhase => []
    case Preempted => []
  }

  function AdmittedUpdates(): seq<Update> {
    [Update(QUOTA_RESERVED, true, "QuotaReserved", "Quota is reserved in the queue", true),
     Update(ADMITTED, true, "Admitted", "The queue unit is admitted and the job is released", true)]
  }

  /** SetQueueUnitEvictedCondition and StopQueueUnitExecutionClock. */
  function EvictedUpdates(reason: string, message: string): seq<Update> {
    [Update(EVICTED, true, reason, message, true), Update(ADMITTED, false, reason, message, true)]
  }

  function StopUpdate(): Update {
    Update(PODS_READY, false, "Pending", "The pods of the job are not running", false)
  }

  // ---------- One update ----------

  /** The condition of a type after an update. */
  lemma {:induction false} FindSet(cs: seq<Condition>, u: Update, now: int, kind: string)
    ensures Find(Set(cs, u, now), kind) ==
      if kind != u.kind then Find(cs, kind)
      else match Find(cs, kind)
        case Some(c) => Some(Overwritten(c, u, now))
        case None => if u.creates then Some(Condition(u.kind, u.holds, u.reason, u.message, Stored(now))) else None
  {
    if cs != [] {
      FindSet(cs[1..], u, now, kind);
    }
  }

  lemma {:induction false} FindKind(cs: seq<Condition>, kind: string)
    ensures Find(cs, kind).Some? ==> Find(cs, kind).value in cs && Find(cs, kind).value.kind == kind
    ensures Find(cs, kind).None? <==> forall i :: 0 <= i < |cs| ==> cs[i].kind != kind
  {
    if cs != [] {
      FindKind(cs[1..], kind);
      assert forall i :: 1 <= i < |cs| ==> cs[i] == cs[1..][i - 1];
      if cs[0].kind != kind && Find(cs, kind).None? {
        forall i | 0 <= i < |cs| ensures cs[i].kind != kind {
          assert i > 0 ==> cs[1..][i - 1].kind != kind;
        }
      }
    }
  }

  lemma {:induction false} SetKeepsUnique(cs: seq<Condition>, u: Update, now: int)
    requires UniqueKinds(cs)
    ensures UniqueKinds(Set(cs, u, now))
    ensures forall c :: c in Set(cs, u, now) ==> c.kind == u.kind || c in cs
  {
    if cs != [] && cs[0].kind != u.kind {
      SetKeepsUnique(cs[1..], u, now);
      var rest := Set(cs[1..], u, now);
      assert forall c :: c in rest ==> c.kind != cs[0].kind;
    }
  }

  /** The update has been made. */
  predicate Holds(cs: seq<Condition>, u: Update) {
    match Find(cs, u.kind)
    case Some(c) => c.holds == u.holds && c.reason == u.reason && c.message == u.message
    case None => !u.creates
  }

  /** setCondition reports no change exactly when there is none to make. */
  lemma {:induction false} SetIdleIff(cs: seq<Condition>, u: Update, now: int)
    ensures Set(cs, u, now) == cs <==> Holds(cs, u)
  {
    if cs != [] && cs[0].kind != u.kind {
      SetIdleIff(cs[1..], u, now);
      assert Set(cs, u, now)[1..] == Set(cs[1..], u, now);
      assert cs == [cs[0]] + cs[1..];
    } else if cs != [] {
      assert Set(cs, u, now)[0] == Overwritten(cs[0], u, now);
      assert cs == [cs[0]] + cs[1..];
    }
  }

  // ---------- A list of updates ----------

  ghost predicate Separate(us: seq<Update>) {
    forall i, j :: 0 <= i < j < |us| ==> us[i].kind != us[j].kind
  }

  lemma {:induction false} SetAllHolds(cs: seq<Condition>, us: seq<Update>, now: int, i: nat)
    requires Separate(us) && i < |us|
    ensures Holds(SetAll(cs, us, now), us[i])
  {
    var n := |us| - 1;
    FindSet(SetAll(cs, us[..n], now), us[n], now, us[i].kind);
    if i < n {
      SetAllHolds(cs, us[..n], now, i);
    }
  }

  lemma {:induction false} SetAllIdle(cs: seq<Condition>, us: seq<Update>, now: int)
    requires forall i :: 0 <= i < |us| ==> Holds(cs, us[i])
    ensures SetAll(cs, us, now) == cs
  {
    if us != [] {
      var n := |us| - 1;
      assert forall i :: 0 <= i < n ==> us[..n][i] == us[i];
      SetAllIdle(cs, us[..n], now);
      SetIdleIff(cs, us[n], now);
    }
  }

  lemma {:induction false} SetAllKeepsUnique(cs: seq<Condition>, us: seq<Update>, now: int)
    requires UniqueKinds(cs)
    ensures UniqueKinds(SetAll(cs, us, now))
  {
    if us != [] {
      SetAllKeepsUnique(cs, us[..|us| - 1], now);
      SetKeepsUnique(SetAll(cs, us[..|us| - 1], now), us[|us| - 1], now);
    }
  }

  /** No condition disappears, and its time moves, to the current second, exactly when its
      status flips. */
  lemma {:induction false} TimesMoveOnFlips(cs: seq<Condition>, us: seq<Update>, now: int, kind: string)
    requires Separate(us)
    ensures Find(cs, kind).Some? ==>
      && Find(SetAll(cs, us, now), kind).Some?
      && var c, d := Find(cs, kind).value, Find(SetAll(cs, us, now), kind).value;
         d.since == if c.holds == d.holds then c.since else Stored(now)
    ensures Find(cs, kind).None? && Find(SetAll(cs, us, now), kind).Some? ==> Find(SetAll(cs, us, now), kind).value.since == Stored(now)
    ensures (forall i :: 0 <= i < |us| ==> us[i].kind != kind) ==> Find(SetAll(cs, us, now), kind) == Find(cs, kind)
  {
    if us != [] {
      var n := |us| - 1;
      assert forall i :: 0 <= i < n ==> us[..n][i] == us[i];
      TimesMoveOnFlips(cs, us[..n], now, kind);
      FindSet(SetAll(cs, us[..n], now), us[n], now, kind);
    }
  }

  /** What the phase asks for concerns each type once. */
  lemma UpdatesSeparate(phase: Phase, message: string)
    ensures Separate(Updates(phase, message))
  {}

  /** A repeated sync changes nothing, however much later. */
  lemma SyncIsIdempotent(cs: seq<Condition>, phase: Phase, message: string, now: int, later: int)
    ensures var once := SetAll(cs, Updates(phase, message), now);
      SetAll(once, Updates(phase, message), later) == once
  {
    var us := Updates(phase, message);
    var once := SetAll(cs, us, now);
    UpdatesSeparate(phase, message);
    forall i | 0 <= i < |us| ensures Holds(once, us[i]) {
      SetAllHolds(cs, us, now, i);
    }
    SetAllIdle(once, us, later);
  }
}
