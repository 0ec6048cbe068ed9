/** The PodsReady condition as an execution clock: time spent in it is banked when a unit
    is evicted and compared with a budget. Transition times are stored in whole seconds, so
    a start may be charged up to a second too much; banking drops what is below a second;
    some stops are not banked, and PodsReady outlasts phase Running. Bounds over every run
    and the exact conditions for a charge that is neither too high nor too low. */
module ExecutionClock {
  import opened Amounts
  import opened QueueUnits
  import opened Conditions

  datatype Requeue = Requeue(count: int, at: int)

  /** `accumulated` counts seconds. */
  datatype Status = Status(phase: Phase, message: string, conditions: seq<Condition>,
                           accumulated: Option<int>, requeue: Option<Requeue>)

  /** The feature gates that matter here. */
  datatype Gates = Gates(conditions: bool, executionTime: bool)

  function Banked(s: Status): int {
    if s.accumulated.Some? then s.accumulated.value else 0
  }

  function Sync(s: Status, g: Gates, now: int): Status {
    if !g.conditions then s
    else s.(conditions := SetAll(s.conditions, Updates(s.phase, s.message), now),
            requeue := if s.phase == Running then None else s.requeue)
  }

  function Evict(s: Status, g: Gates, reason: string, now: int): Status {
    if !g.conditions then s else s.(conditions := SetAll(s.conditions, EvictedUpdates(reason, s.message), now))
  }

  function StopClock(s: Status, now: int): Status {
    s.(conditions := Set(s.conditions, StopUpdate(), now))
  }

  /** The time since PodsReady became true, 0 if it is not. */
  function Interval(s: Status, now: int): int {
    if IsTrue(s.conditions, PODS_READY) then now - Find(s.conditions, PODS_READY).value.since else 0
  }

  /** accumulateExecutionTime: whole seconds of the current interval are banked. */
  function Accumulate(s: Status, g: Gates, now: int): Status {
    if g.executionTime && SECOND <= Interval(s, now)
    then s.(accumulated := Some(Banked(s) + Interval(s, now) / SECOND)) else s
  }

  /** UpdateQueueUnitStatus and its like. */
  function EnterPhase(s: Status, g: Gates, phase: Phase, message: string, now: int): Status {
    Sync(s.(phase := phase, message := message), g, now)
  }

  /** The eviction paths that keep the unit active, and the one of a deactivated unit. */
  function Requeued(s: Status, g: Gates, phase: Phase, message: string, now: int): Status {
    EnterPhase(Accumulate(s, g, now), g, phase, message, now)
  }

  function Deactivated(s: Status, g: Gates, now: int): Status {
    Evict(Requeued(s, g, Enqueued, "Evicted because the queue unit is deactivated", now), g, BY_DEACTIVATION, now)
  }

  /** reconcileMaxExecutionTime finds the budget used up. */
  predicate Exceeded(s: Status, g: Gates, budget: int, now: int) {
    g.executionTime && IsTrue(s.conditions, PODS_READY) && budget * SECOND - Banked(s) * SECOND - Interval(s, now) <= 0
  }

  function Expired(s: Status, g: Gates, now: int): Status {
    Evict(StopClock(s.(accumulated := None, message := "Evicted because the maximum execution time was exceeded"), now),
          g, BY_EXECUTION_TIME, now)
  }

  // ---------- Runs ----------

  /** The history since the last reset: `ready` is the time PodsReady has been true,
      `running` the time in phase Running, `starts` how often PodsReady became true, `banks`
      how often it ended by an eviction. */
  datatype State = State(status: Status, now: int, ready: int, running: int, starts: nat, banks: nat)

  datatype Event =
    | Tick(ticks: nat)
    | Enter(phase: Phase, message: string)
    | Bank(phase: Phase, message: string)
    | Deactivate
    | Check(budget: int)

  predicate Ready(s: Status) {
    IsTrue(s.conditions, PODS_READY)
  }

  /** The state with a new status; a start of the clock is counted. */
  function Moved(x: State, s: Status): State {
    x.(status := s, starts := x.starts + if !Ready(x.status) && Ready(s) then 1 else 0)
  }

  function BankCounted(x: State): State {
    x.(banks := x.banks + if Ready(x.status) then 1 else 0)
  }

  function Step(x: State, g: Gates, e: Event): State {
    match e
    case Tick(n) =>
      x.(now := x.now + n, ready := x.ready + if Ready(x.status) then n else 0,
         running := x.running + if x.status.phase == Running then n else 0)
    case Enter(p, m) => Moved(x, EnterPhase(x.status, g, p, m, x.now))
    case Bank(p, m) => Moved(BankCounted(x), Requeued(x.status, g, p, m, x.now))
    case Deactivate => Moved(BankCounted(x), Deactivated(x.status, g, x.now))
    case Check(budget) =>
      if Exceeded(x.status, g, budget, x.now) then State(Expired(x.status, g, x.now), x.now, 0, 0, 0, 0) else x
  }

  /** Time is banked only on the way to Enqueued or Backoff. */
  predicate Meant(e: Event) {
    e.Bank? ==> e.phase in {Enqueued, Backoff}
  }

  function Run(x: State, g: Gates, es: seq<Event>): State {
    if es == [] then x else Step(Run(x, g, es[..|es| - 1]), g, es[|es| - 1])
  }

  /** What counts against the budget: banked time and the running interval. */
  function Charged(x: State): int {
    Banked(x.status) * SECOND + Interval(x.status, x.now)
  }

  /** Not more is charged than the time PodsReady was true. */
  ghost predicate NotOvercharged(x: State) {
    Charged(x) <= x.ready
  }

  /** Less than a second too much is charged per start. */
  ghost predicate Bounded(x: State) {
    && 0 <= Banked(x.status)
    && 0 <= Interval(x.status, x.now)
    && Charged(x) <= x.ready + (SECOND - 1) * x.starts
  }

  ghost predicate AdmittedHasQuota(cs: seq<Condition>) {
    IsTrue(cs, ADMITTED) ==> IsTrue(cs, QUOTA_RESERVED)
  }

  ghost predicate Sound(x: State) {
    UniqueKinds(x.status.conditions) && AdmittedHasQuota(x.status.conditions) && Bounded(x)
  }

  // ---------- What the updates do to the clock ----------

  /** The interval goes on if PodsReady stays true, starts with the fraction of the second
      that has passed, and is 0 otherwise. */
  lemma IntervalAfter(cs: seq<Condition>, us: seq<Update>, now: int, s: Status, t: Status)
    requires Separate(us) && s.conditions == cs && t.conditions == SetAll(cs, us, now)
    ensures Interval(t, now) == if !Ready(t) then 0 else if Ready(s) then Interval(s, now) else now % SECOND
  {
    TimesMoveOnFlips(cs, us, now, PODS_READY);
  }

  /** An update of a type settles whether it is true. */
  lemma TruthAfter(cs: seq<Condition>, us: seq<Update>, now: int, i: nat)
    requires Separate(us) && i < |us|
    ensures IsTrue(SetAll(cs, us, now), us[i].kind) ==> us[i].holds
    ensures us[i].holds && us[i].creates ==> IsTrue(SetAll(cs, us, now), us[i].kind)
  {
    SetAllHolds(cs, us, now, i);
  }

  lemma TruthKept(cs: seq<Condition>, us: seq<Update>, now: int, kind: string)
    requires Separate(us) && forall i :: 0 <= i < |us| ==> us[i].kind != kind
    ensures IsTrue(SetAll(cs, us, now), kind) == IsTrue(cs, kind)
  {
    TimesMoveOnFlips(cs, us, now, kind);
  }

  /** The phases that make a condition true, and those that withdraw it. */
  predicate Asserts(phase: Phase, kind: string) {
    || (kind == QUOTA_RESERVED && phase in {Reserved, Dequeued, SchedReady, SchedSucceed, Running})
    || (kind == ADMITTED && phase in {Dequeued, SchedReady, SchedSucceed, Running})
    || (kind == PODS_READY && phase == Running)
    || (kind == FINISHED && phase in {Succeed, Failed})
    || (kind == EVICTED && phase == Backoff)
  }

  predicate Withdraws(phase: Phase, kind: string) {
    || (kind == QUOTA_RESERVED && phase in {Enqueued, Backoff})
    || (kind == ADMITTED && phase in {Enqueued, Reserved, Backoff, SchedFailed})
    || (kind == PODS_READY && phase in {Enqueued, Backoff})
    || (kind == EVICTED && phase == Enqueued)
  }

  /** The updates of a phase name a type exactly if the phase decides it, and say which way. */
  lemma UpdatesDecide(phase: Phase, message: string, kind: string)
    ensures (exists i :: 0 <= i < |Updates(phase, message)| && Updates(phase, message)[i].kind == kind) <==>
            Asserts(phase, kind) || Withdraws(phase, kind)
    ensures forall i :: 0 <= i < |Updates(phase, message)| && Updates(phase, message)[i].kind == kind ==>
      && (Updates(phase, message)[i].holds <==> Asserts(phase, kind))
      && (Asserts(phase, kind) ==> Updates(phase, message)[i].creates)
  {
    var us := Updates(phase, message);
    match phase
    case Enqueued => assert us[0].kind == QUOTA_RESERVED && us[1].kind == ADMITTED && us[2].kind == PODS_READY && us[3].kind == EVICTED;
    case Reserved => assert us[0].kind == QUOTA_RESERVED && us[1].kind == ADMITTED;
    case Backoff => assert us[0].kind == QUOTA_RESERVED && us[1].kind == ADMITTED && us[2].kind == PODS_READY && us[3].kind == EVICTED;
    case Running => assert us[0].kind == QUOTA_RESERVED && us[1].kind == ADMITTED && us[2].kind == PODS_READY;
    case Dequeued => assert us[0].kind == QUOTA_RESERVED && us[1].kind == ADMITTED;
    case SchedReady => assert us[0].kind == QUOTA_RESERVED && us[1].kind == ADMITTED;
    case SchedSucceed => assert us[0].kind == QUOTA_RESERVED && us[1].kind == ADMITTED;
    case SchedFailed => assert us[0].kind == ADMITTED;
    case Succeed => assert us[0].kind == FINISHED;
    case Failed => assert us[0].kind == FINISHED;
    case _ =>
  }

  /** After entering a phase a condition is true exactly if the phase makes it so, or it was
      true and the phase does not withdraw it. */
  lemma PhaseDecides(cs: seq<Condition>, phase: Phase, message: string, now: int, kind: string)
    ensures IsTrue(SetAll(cs, Updates(phase, message), now), kind) <==>
            Asserts(phase, kind) || (IsTrue(cs, kind) && !Withdraws(phase, kind))
  {
    var us := Updates(phase, message);
    UpdatesSeparate(phase, message);
    UpdatesDecide(phase, message, kind);
    if i :| 0 <= i < |us| && us[i].kind == kind {
      TruthAfter(cs, us, now, i);
    } else {
      TruthKept(cs, us, now, kind);
    }
  }

  /** The conditions after entering some phases one after the other. */
  function Entered(cs: seq<Condition>, ps: seq<(Phase, string, int)>): seq<Condition> {
    if ps == [] then cs
    else
      var (phase, message, now) := ps[|ps| - 1];
      SetAll(Entered(cs, ps[..|ps| - 1]), Updates(phase, message), now)
  }

  /** From position `n` on no phase withdraws the condition. */
  predicate Lasting(ps: seq<(Phase, string, int)>, n: nat, kind: string) {
    forall m :: n <= m < |ps| ==> !Withdraws(ps[m].0, kind)
  }

  /** Some phase makes the condition true and none after it withdraws it. */
  predicate Stands(ps: seq<(Phase, string, int)>, kind: string) {
    exists n :: 0 <= n < |ps| && Asserts(ps[n].0, kind) && Lasting(ps, n + 1, kind)
  }

  lemma LastingMore(ps: seq<(Phase, string, int)>, n: nat, kind: string)
    requires n < |ps|
    ensures var k := |ps| - 1;
      Lasting(ps, n, kind) <==> Lasting(ps[..k], n, kind) && !Withdraws(ps[k].0, kind)
  {
    var k := |ps| - 1;
    assert forall m :: n <= m < k ==> ps[..k][m] == ps[m];
  }

  lemma StandsMore(ps: seq<(Phase, string, int)>, kind: string)
    requires ps != []
    ensures var k := |ps| - 1;
      Stands(ps, kind) <==> Asserts(ps[k].0, kind) || (Stands(ps[..k], kind) && !Withdraws(ps[k].0, kind))
  {
    var k := |ps| - 1;
    if Asserts(ps[k].0, kind) {
      assert Lasting(ps, k + 1, kind);
    }
    if n :| 0 <= n < k && Asserts(ps[n].0, kind) && Lasting(ps, n + 1, kind) {
      LastingMore(ps, n + 1, kind);
      assert ps[..k][n] == ps[n];
    }
    if n :| 0 <= n < k && Asserts(ps[..k][n].0, kind) && Lasting(ps[..k], n + 1, kind) {
      LastingMore(ps, n + 1, kind);
    }
  }

  /** Over every run of phases a condition is true exactly if some phase made it so, or it was
      true to begin with, and no phase after that has withdrawn it. */
  lemma {:induction false} PhasesDecide(cs: seq<Condition>, ps: seq<(Phase, string, int)>, kind: string)
    ensures IsTrue(Entered(cs, ps), kind) <==> Stands(ps, kind) || (IsTrue(cs, kind) && Lasting(ps, 0, kind))
  {
    if ps != [] {
      var k := |ps| - 1;
      PhasesDecide(cs, ps[..k], kind);
      PhaseDecides(Entered(cs, ps[..k]), ps[k].0, ps[k].1, ps[k].2, kind);
      StandsMore(ps, kind);
      LastingMore(ps, 0, kind);
    }
  }

  /** Entering a phase keeps what is banked, and what is known of earlier retries unless the
      pods run. */
  lemma EnterKeeps(s: Status, g: Gates, phase: Phase, message: string, now: int)
    ensures var t := EnterPhase(s, g, phase, message, now);
      && t.phase == phase && t.message == message && t.accumulated == s.accumulated
      && (t.requeue != s.requeue ==> g.conditions && phase == Running)
      && (g.conditions && phase == Running ==> t.requeue == None)
  {
  }

  /** A deactivated unit waits in the queue again, evicted for that reason, with neither quota
      nor admission. */
  lemma DeactivatedIs(s: Status, g: Gates, now: int)
    requires g.conditions
    ensures var t := Deactivated(s, g, now);
      && t.phase == Enqueued && IsTrue(t.conditions, EVICTED) && Find(t.conditions, EVICTED).value.reason == BY_DEACTIVATION
      && !IsTrue(t.conditions, ADMITTED) && !IsTrue(t.conditions, QUOTA_RESERVED)
  {
    var m := "Evicted because the queue unit is deactivated";
    var r := Requeued(s, g, Enqueued, m, now);
    PhaseDecides(Accumulate(s, g, now).conditions, Enqueued, m, now, QUOTA_RESERVED);
    EvictedIs(r, g, BY_DEACTIVATION, now);
  }

  lemma EvictedIs(s: Status, g: Gates, reason: string, now: int)
    requires g.conditions
    ensures var t := Evict(s, g, reason, now);
      && t.phase == s.phase && IsTrue(t.conditions, EVICTED) && Find(t.conditions, EVICTED).value.reason == reason
      && !IsTrue(t.conditions, ADMITTED) && IsTrue(t.conditions, QUOTA_RESERVED) == IsTrue(s.conditions, QUOTA_RESERVED)
  {
    var us := EvictedUpdates(reason, s.message);
    SetAllHolds(s.conditions, us, now, 0);
    SetAllHolds(s.conditions, us, now, 1);
    TruthKept(s.conditions, us, now, QUOTA_RESERVED);
  }

  /** A unit whose execution time is up is evicted for that reason and not admitted, in the
      phase it was in; nothing is banked and the clock stands still. */
  lemma ExpiredIs(s: Status, g: Gates, now: int)
    requires g.conditions
    ensures var t := Expired(s, g, now);
      && t.phase == s.phase && IsTrue(t.conditions, EVICTED) && Find(t.conditions, EVICTED).value.reason == BY_EXECUTION_TIME
      && !IsTrue(t.conditions, ADMITTED) && Banked(t) == 0 && !Ready(t)
  {
    var stopped := StopClock(s.(accumulated := None, message := "Evicted because the maximum execution time was exceeded"), now);
    EvictedIs(stopped, g, BY_EXECUTION_TIME, now);
    FindSet(s.conditions, StopUpdate(), now, PODS_READY);
    TruthKept(stopped.conditions, EvictedUpdates(BY_EXECUTION_TIME, stopped.message), now, PODS_READY);
  }

  lemma SyncKeepsAdmitted(cs: seq<Condition>, phase: Phase, message: string, now: int)
    requires AdmittedHasQuota(cs)
    ensures AdmittedHasQuota(SetAll(cs, Updates(phase, message), now))
  {
    PhaseDecides(cs, phase, message, now, ADMITTED);
    PhaseDecides(cs, phase, message, now, QUOTA_RESERVED);
  }

  lemma EvictKeepsAdmitted(cs: seq<Condition>, reason: string, message: string, now: int)
    ensures AdmittedHasQuota(SetAll(cs, EvictedUpdates(reason, message), now))
  {
    TruthAfter(cs, EvictedUpdates(reason, message), now, 1);
  }

  /** Entering Enqueued or Backoff stops the clock. */
  lemma RequeueStopsClock(s: Status, g: Gates, phase: Phase, message: string, now: int)
    requires g.conditions && phase in {Enqueued, Backoff}
    ensures !Ready(EnterPhase(s, g, phase, message, now))
  {
    PhaseDecides(s.conditions, phase, message, now, PODS_READY);
  }

  /** Entering a phase keeps what is banked and restarts no running clock. */
  lemma EnterInterval(s: Status, g: Gates, phase: Phase, message: string, now: int)
    requires g.conditions
    ensures var t := EnterPhase(s, g, phase, message, now);
      && Banked(t) == Banked(s)
      && Interval(t, now) == if !Ready(t) then 0 else if Ready(s) then Interval(s, now) else now % SECOND
  {
    UpdatesSeparate(phase, message);
    IntervalAfter(s.conditions, Updates(phase, message), now, s, EnterPhase(s, g, phase, message, now));
  }

  /** Banking drops less than a second. */
  lemma BankedInterval(s: Status, g: Gates, now: int)
    requires 0 <= Interval(s, now)
    ensures var t := Accumulate(s, g, now);
      && t.conditions == s.conditions && Banked(s) <= Banked(t)
      && Banked(t) * SECOND <= Banked(s) * SECOND + Interval(s, now)
      && (g.executionTime ==> Banked(s) * SECOND + Interval(s, now) <= Banked(t) * SECOND + SECOND - 1)
  {
    var n := Interval(s, now);
    assert n == n / SECOND * SECOND + n % SECOND;
  }

  /** An eviction stamps no clock. */
  lemma EvictInterval(s: Status, g: Gates, reason: string, now: int)
    ensures var t := Evict(s, g, reason, now); Ready(t) == Ready(s) && Interval(t, now) == Interval(s, now) && Banked(t) == Banked(s)
  {
    if g.conditions {
      TimesMoveOnFlips(s.conditions, EvictedUpdates(reason, s.message), now, PODS_READY);
    }
  }

  // ---------- Every step is sound ----------

  ghost predicate Consistent(s: Status) {
    UniqueKinds(s.conditions) && AdmittedHasQuota(s.conditions)
  }

  lemma EnterConsistent(s: Status, g: Gates, phase: Phase, message: string, now: int)
    requires Consistent(s)
    ensures Consistent(EnterPhase(s, g, phase, message, now))
  {
    if g.conditions {
      SetAllKeepsUnique(s.conditions, Updates(phase, message), now);
      SyncKeepsAdmitted(s.conditions, phase, message, now);
    }
  }

  lemma EvictConsistent(s: Status, g: Gates, reason: string, now: int)
    requires Consistent(s)
    ensures Consistent(Evict(s, g, reason, now))
  {
    if g.conditions {
      SetAllKeepsUnique(s.conditions, EvictedUpdates(reason, s.message), now);
      EvictKeepsAdmitted(s.conditions, reason, s.message, now);
    }
  }

  lemma StopConsistent(s: Status, now: int)
    requires Consistent(s)
    ensures Consistent(StopClock(s, now)) && !Ready(StopClock(s, now))
  {
    var cs := s.conditions;
    SetKeepsUnique(cs, StopUpdate(), now);
    FindSet(cs, StopUpdate(), now, PODS_READY);
    FindSet(cs, StopUpdate(), now, ADMITTED);
    FindSet(cs, StopUpdate(), now, QUOTA_RESERVED);
  }

  /** The status after a bank on the way to Enqueued or Backoff: the clock is stopped. */
  lemma RequeuedClock(s: Status, g: Gates, phase: Phase, message: string, now: int)
    requires g.conditions && phase in {Enqueued, Backoff} && Consistent(s)
    ensures var t := Requeued(s, g, phase, message, now);
      Consistent(t) && !Ready(t) && Interval(t, now) == 0 && Banked(t) == Banked(Accumulate(s, g, now))
  {
    var a := Accumulate(s, g, now);
    EnterConsistent(a, g, phase, message, now);
    RequeueStopsClock(a, g, phase, message, now);
    EnterInterval(a, g, phase, message, now);
  }

  lemma DeactivatedClock(s: Status, g: Gates, now: int)
    requires g.conditions && Consistent(s)
    ensures var t := Deactivated(s, g, now);
      Consistent(t) && !Ready(t) && Interval(t, now) == 0 && Banked(t) == Banked(Accumulate(s, g, now))
  {
    var m := "Evicted because the queue unit is deactivated";
    RequeuedClock(s, g, Enqueued, m, now);
    EvictConsistent(Requeued(s, g, Enqueued, m, now), g, BY_DEACTIVATION, now);
    EvictInterval(Requeued(s, g, Enqueued, m, now), g, BY_DEACTIVATION, now);
  }

  lemma ExpiredClock(s: Status, g: Gates, now: int)
    requires Consistent(s)
    ensures var t := Expired(s, g, now); Consistent(t) && !Ready(t) && Interval(t, now) == 0 && Banked(t) == 0
  {
    var reset := s.(accumulated := None, message := "Evicted because the maximum execution time was exceeded");
    StopConsistent(reset, now);
    EvictConsistent(StopClock(reset, now), g, BY_EXECUTION_TIME, now);
    EvictInterval(StopClock(reset, now), g, BY_EXECUTION_TIME, now);
  }

  /** Only Running sets PodsReady, and only Enqueued and Backoff withdraw it. */
  lemma ReadyAfter(s: Status, g: Gates, phase: Phase, message: string, now: int)
    requires g.conditions
    ensures Ready(EnterPhase(s, g, phase, message, now)) <==>
            phase == Running || (phase !in {Enqueued, Backoff} && Ready(s))
  {
    PhaseDecides(s.conditions, phase, message, now, PODS_READY);
  }

  /** The event starts the clock. */
  predicate Starts(x: State, e: Event) {
    !Ready(x.status) && e.Enter? && e.phase == Running
  }

  /** The event stops the clock without banking. */
  predicate StopsUnbanked(x: State, e: Event) {
    Ready(x.status) && e.Enter? && e.phase in {Enqueued, Backoff}
  }

  /** These are the events that flip PodsReady, evictions and expiry aside. */
  lemma FlipsIff(x: State, g: Gates, e: Event)
    requires Sound(x) && g.conditions && Meant(e)
    ensures !Ready(x.status) && Ready(Step(x, g, e).status) <==> Starts(x, e)
    ensures e.Enter? && Ready(x.status) && !Ready(Step(x, g, e).status) <==> StopsUnbanked(x, e)
  {
    match e
    case Tick(n) =>
    case Enter(p, m) => ReadyAfter(x.status, g, p, m, x.now);
    case Bank(p, m) => RequeuedClock(x.status, g, p, m, x.now);
    case Deactivate => DeactivatedClock(x.status, g, x.now);
    case Check(budget) =>
      if Exceeded(x.status, g, budget, x.now) {
        ExpiredClock(x.status, g, x.now);
      }
  }

  /** What a step does to the charge: only a start can add what was not run. */
  lemma StepCharge(x: State, g: Gates, e: Event)
    requires Sound(x) && g.conditions && Meant(e)
    ensures var y := Step(x, g, e);
      && Consistent(y.status) && 0 <= Banked(y.status) && 0 <= Interval(y.status, y.now)
      && (Starts(x, e) ==> Charged(y) == Charged(x) + x.now % SECOND && y.ready == x.ready && y.starts == x.starts + 1)
      && (!Starts(x, e) ==> y.ready == y.starts == Charged(y) == 0 ||
                               (Charged(y) - Charged(x) <= y.ready - x.ready && y.starts == x.starts))
  {
    FlipsIff(x, g, e);
    match e
    case Tick(n) =>
    case Enter(p, m) =>
      EnterConsistent(x.status, g, p, m, x.now);
      EnterInterval(x.status, g, p, m, x.now);
    case Bank(p, m) =>
      BankedInterval(x.status, g, x.now);
      RequeuedClock(x.status, g, p, m, x.now);
    case Deactivate =>
      BankedInterval(x.status, g, x.now);
      DeactivatedClock(x.status, g, x.now);
    case Check(budget) =>
      if Exceeded(x.status, g, budget, x.now) {
        ExpiredClock(x.status, g, x.now);
      }
  }

  lemma StepIsSound(x: State, g: Gates, e: Event)
    requires Sound(x) && g.conditions && Meant(e)
    ensures Sound(Step(x, g, e))
  {
    StepCharge(x, g, e);
  }

  ghost predicate AllMeant(es: seq<Event>) {
    forall i :: 0 <= i < |es| ==> Meant(es[i])
  }

  /** With the conditions gate on, or with no execution time at all, every run keeps
      conditions unique, admission backed by a quota reservation, and the charge below
      the time PodsReady was true plus a second per start. */
  lemma {:induction false} RunsAreSound(x: State, g: Gates, es: seq<Event>)
    requires Sound(x) && AllMeant(es) && (g.conditions || !g.executionTime)
    ensures Sound(Run(x, g, es))
  {
    if es != [] {
      RunsAreSound(x, g, es[..|es| - 1]);
      if g.conditions {
        StepIsSound(Run(x, g, es[..|es| - 1]), g, es[|es| - 1]);
      }
    }
  }

  /** A unit is deactivated less than a second per start before PodsReady was true for
      its whole budget. */
  lemma NeverDeactivatedEarly(x: State, g: Gates, es: seq<Event>, budget: int)
    requires Sound(x) && AllMeant(es) && g.conditions
    requires Exceeded(Run(x, g, es).status, g, budget, Run(x, g, es).now)
    ensures budget * SECOND <= Run(x, g, es).ready + (SECOND - 1) * Run(x, g, es).starts
  {
    RunsAreSound(x, g, es);
  }

  // ---------- Exactly when nothing is overcharged ----------

  /** A start in the middle of a second is charged that part of the second as well. */
  ghost predicate StartFits(x: State, e: Event) {
    Starts(x, e) ==> Banked(x.status) * SECOND + x.now % SECOND <= x.ready
  }

  /** Only a start can overcharge, and it does exactly if the part of the second that had
      passed does not fit beside what is banked. */
  lemma StepHonestIff(x: State, g: Gates, e: Event)
    requires Sound(x) && NotOvercharged(x) && g.conditions && Meant(e)
    ensures NotOvercharged(Step(x, g, e)) <==> StartFits(x, e)
  {
    StepCharge(x, g, e);
  }

  ghost predicate AlwaysHonest(x: State, g: Gates, es: seq<Event>) {
    forall n :: 0 <= n <= |es| ==> NotOvercharged(Run(x, g, es[..n]))
  }

  ghost predicate StartsFit(x: State, g: Gates, es: seq<Event>) {
    forall n :: 0 <= n < |es| ==> StartFits(Run(x, g, es[..n]), es[n])
  }

  lemma RunOne(x: State, g: Gates, es: seq<Event>, n: nat)
    requires n < |es|
    ensures Run(x, g, es[..n + 1]) == Step(Run(x, g, es[..n]), g, es[n])
  {
    assert es[..n + 1][..n] == es[..n];
  }

  lemma {:induction false} HonestAfter(x: State, g: Gates, es: seq<Event>, n: nat)
    requires Sound(x) && NotOvercharged(x) && g.conditions && AllMeant(es) && StartsFit(x, g, es) && n <= |es|
    ensures NotOvercharged(Run(x, g, es[..n]))
  {
    if n > 0 {
      HonestAfter(x, g, es, n - 1);
      RunsAreSound(x, g, es[..n - 1]);
      RunOne(x, g, es, n - 1);
      StepHonestIff(Run(x, g, es[..n - 1]), g, es[n - 1]);
    }
  }

  /** Over every run nothing is overcharged exactly when every start fits. */
  lemma HonestRunsIff(x: State, g: Gates, es: seq<Event>)
    requires Sound(x) && NotOvercharged(x) && g.conditions && AllMeant(es)
    ensures AlwaysHonest(x, g, es) <==> StartsFit(x, g, es)
  {
    if StartsFit(x, g, es) {
      forall n | 0 <= n <= |es| ensures NotOvercharged(Run(x, g, es[..n])) {
        HonestAfter(x, g, es, n);
      }
    }
    if AlwaysHonest(x, g, es) {
      forall n | 0 <= n < |es| ensures StartFits(Run(x, g, es[..n]), es[n]) {
        RunsAreSound(x, g, es[..n]);
        RunOne(x, g, es, n);
        assert NotOvercharged(Run(x, g, es[..n])) && NotOvercharged(Run(x, g, es[..n + 1]));
        StepHonestIff(Run(x, g, es[..n]), g, es[n]);
      }
    }
  }

  /** A job that runs for `d` ticks up to the full second and is then evicted. */
  function Cycle(d: nat): seq<Event>
    requires d <= SECOND
  {
    [Tick(SECOND - d), Enter(Running, ""), Tick(d), Bank(Enqueued, "")]
  }

  function Cycles(d: nat, n: nat): seq<Event>
    requires d <= SECOND
  {
    if n == 0 then [] else Cycles(d, n - 1) + Cycle(d)
  }

  lemma {:induction false} RunConcat(x: State, g: Gates, a: seq<Event>, b: seq<Event>)
    ensures Run(x, g, a + b) == Run(Run(x, g, a), g, b)
    decreases |b|
  {
    if b == [] {
      assert a + b == a;
    } else {
      assert (a + b)[..|a + b| - 1] == a + b[..|b| - 1];
      RunConcat(x, g, a, b[..|b| - 1]);
    }
  }

  const ALL_GATES := Gates(true, true)

  /** A unit that has just been queued. */
  const START := State(Status(Enqueued, "", [], None, None), 0, 0, 0, 0, 0)

  /** Entering Running starts a stopped clock at the full second. */
  lemma StartClock(s: Status, now: int)
    requires !Ready(s)
    ensures var t := EnterPhase(s, ALL_GATES, Running, "", now);
      Ready(t) && Interval(t, now) == now % SECOND && Banked(t) == Banked(s)
  {
    UpdatesSeparate(Running, "");
    TruthAfter(s.conditions, Updates(Running, ""), now, 2);
    EnterInterval(s, ALL_GATES, Running, "", now);
  }

  lemma StopAndBank(s: Status, now: int)
    requires Interval(s, now) == SECOND
    ensures var t := Requeued(s, ALL_GATES, Enqueued, "", now); !Ready(t) && Banked(t) == Banked(s) + 1
  {
    var a := Accumulate(s, ALL_GATES, now);
    RequeueStopsClock(a, ALL_GATES, Enqueued, "", now);
    EnterInterval(a, ALL_GATES, Enqueued, "", now);
  }

  /** A cycle of `d` ticks is charged a whole second. */
  lemma CycleBanksSecond(x: State, d: nat)
    requires !Ready(x.status) && x.now % SECOND == 0 && 0 < d <= SECOND
    ensures var y := Run(x, ALL_GATES, Cycle(d));
      && !Ready(y.status) && y.now == x.now + SECOND && Banked(y.status) == Banked(x.status) + 1
      && y.ready == x.ready + d && y.starts == x.starts + 1
  {
    var es := Cycle(d);
    assert es[..3][..2][..1][..0] == [] && es[..3][..2][..1] == es[..1] && es[..3][..2] == es[..2];
    var x1 := Step(x, ALL_GATES, es[0]);
    StartClock(x1.status, x1.now);
    var x2 := Step(x1, ALL_GATES, es[1]);
    var x3 := Step(x2, ALL_GATES, es[2]);
    assert x1.now % SECOND == (SECOND - d) % SECOND;
    if d < SECOND {
      assert Interval(x3.status, x3.now) == SECOND;
    } else {
      assert Interval(x3.status, x3.now) == SECOND;
    }
    StopAndBank(x3.status, x3.now);
    assert Run(x, ALL_GATES, es[..1]) == x1 && Run(x, ALL_GATES, es[..2]) == x2 && Run(x, ALL_GATES, es[..3]) == x3;
  }

  /** `n` cycles of `d` ticks lead from `x` to `y`, and each was charged a second. */
  ghost predicate Cycled(x: State, y: State, d: nat, n: nat) {
    && !Ready(y.status) && y.now == x.now + n * SECOND && Banked(y.status) == Banked(x.status) + n
    && y.ready == x.ready + n * d && y.starts == x.starts + n
  }

  lemma CycledMore(x: State, y: State, z: State, d: nat, n: nat)
    requires Cycled(x, y, d, n) && Cycled(y, z, d, 1) && x.now % SECOND == 0
    ensures Cycled(x, z, d, n + 1) && y.now % SECOND == 0
  {
    assert (n + 1) * d == n * d + d;
  }

  /** However short the runs, each one is charged a second: after any number of cycles the
      bound on the overcharge is met exactly for runs of a single tick. */
  lemma {:induction false} CyclesBankSeconds(x: State, d: nat, n: nat)
    requires !Ready(x.status) && x.now % SECOND == 0 && 0 < d <= SECOND
    ensures Cycled(x, Run(x, ALL_GATES, Cycles(d, n)), d, n)
  {
    if n > 0 {
      CyclesBankSeconds(x, d, n - 1);
      RunConcat(x, ALL_GATES, Cycles(d, n - 1), Cycle(d));
      var y := Run(x, ALL_GATES, Cycles(d, n - 1));
      assert y.now % SECOND == 0;
      CycleBanksSecond(y, d);
      CycledMore(x, y, Run(y, ALL_GATES, Cycle(d)), d, n - 1);
    }
  }

  /** A budget of ten seconds is used up after PodsReady was true for one. */
  lemma BudgetGoneEarly()
    ensures var x := START;
      var y := Run(x, ALL_GATES, Cycles(SECOND / 10, 10) + [Enter(Running, "")]);
      Sound(x) && Exceeded(y.status, ALL_GATES, 10, y.now) && y.ready == SECOND
  {
    var x := START;
    var es := Cycles(SECOND / 10, 10);
    CyclesBankSeconds(x, SECOND / 10, 10);
    var y := Run(x, ALL_GATES, es);
    RunConcat(x, ALL_GATES, es, [Enter(Running, "")]);
    assert [Enter(Running, "")][..0] == [];
    assert Run(y, ALL_GATES, [Enter(Running, "")]) == Step(y, ALL_GATES, Enter(Running, ""));
    StartClock(y.status, y.now);
  }

  // ---------- The gates ----------

  /** Without the execution time gate nothing is ever banked, and no unit expires. */
  lemma {:induction false} GateOffBanksNothing(x: State, g: Gates, es: seq<Event>)
    requires !g.executionTime
    ensures Run(x, g, es).status.accumulated == x.status.accumulated
    ensures x.now <= Run(x, g, es).now && x.ready <= Run(x, g, es).ready
  {
    if es != [] {
      GateOffBanksNothing(x, g, es[..|es| - 1]);
    }
  }

  /** With only the execution time gate on, the clock is not stopped on eviction, and
      evicting twice charges the same interval twice. */
  lemma EvictingTwiceOvercharges(x: State)
    requires x.status.conditions == [Condition(PODS_READY, true, "PodsRunning", "", 0)] && x.status.accumulated == None
    requires x.now == 10 * SECOND && x.ready == 10 * SECOND && x.starts == 1
    ensures Sound(x) && !Sound(Run(x, Gates(false, true), [Deactivate, Deactivate]))
  {
    var g, es := Gates(false, true), [Deactivate, Deactivate];
    assert es[..1] == [Deactivate] && es[..1][..0] == [];
    assert Run(x, g, es[..1][..0]) == x;
    var y := Run(x, g, es[..1]);
    assert Find(x.status.conditions, ADMITTED) == None;
    assert Interval(x.status, x.now) == 10 * SECOND;
    assert y == Step(x, g, Deactivate);
    assert Banked(y.status) == 10;
  }

  /** These are exactly the gates under which the bound holds. */
  lemma ClockSoundIff(g: Gates)
    ensures g.conditions || !g.executionTime <==>
            forall x: State, es: seq<Event> :: Sound(x) && AllMeant(es) ==> Sound(Run(x, g, es))
  {
    forall x: State, es: seq<Event> | Sound(x) && AllMeant(es) && (g.conditions || !g.executionTime)
      ensures Sound(Run(x, g, es))
    {
      RunsAreSound(x, g, es);
    }
    var s := Status(Running, "", [Condition(PODS_READY, true, "PodsRunning", "", 0)], None, None);
    var x := State(s, 10 * SECOND, 10 * SECOND, 10 * SECOND, 1, 0);
    EvictingTwiceOvercharges(x);
    assert AllMeant([Deactivate, Deactivate]);
  }

  // ---------- Exactly when the budget is not dodged ----------

  /** Less than a second is lost per eviction. */
  ghost predicate NotDodged(x: State) {
    x.ready <= Charged(x) + (SECOND - 1) * x.banks
  }

  /** A stop that is not banked loses the running interval. */
  ghost predicate StopFits(x: State, e: Event) {
    StopsUnbanked(x, e) ==> x.ready <= Banked(x.status) * SECOND + (SECOND - 1) * x.banks
  }

  /** A step loses more than a second exactly if it stops the clock without banking, and
      what is banked does not cover the time. */
  lemma StepNotDodgedIff(x: State, e: Event)
    requires Sound(x) && NotDodged(x) && Meant(e)
    ensures NotDodged(Step(x, ALL_GATES, e)) <==> StopFits(x, e)
  {
    FlipsIff(x, ALL_GATES, e);
    match e
    case Tick(n) =>
    case Enter(p, m) => EnterInterval(x.status, ALL_GATES, p, m, x.now);
    case Bank(p, m) =>
      BankedInterval(x.status, ALL_GATES, x.now);
      RequeuedClock(x.status, ALL_GATES, p, m, x.now);
    case Deactivate =>
      BankedInterval(x.status, ALL_GATES, x.now);
      DeactivatedClock(x.status, ALL_GATES, x.now);
    case Check(budget) =>
      if Exceeded(x.status, ALL_GATES, budget, x.now) {
        ExpiredClock(x.status, ALL_GATES, x.now);
      }
  }

  ghost predicate NeverDodged(x: State, es: seq<Event>) {
    forall n :: 0 <= n <= |es| ==> NotDodged(Run(x, ALL_GATES, es[..n]))
  }

  ghost predicate StopsFit(x: State, es: seq<Event>) {
    forall n :: 0 <= n < |es| ==> StopFits(Run(x, ALL_GATES, es[..n]), es[n])
  }

  lemma {:induction false} NotDodgedAfter(x: State, es: seq<Event>, n: nat)
    requires Sound(x) && NotDodged(x) && AllMeant(es) && StopsFit(x, es) && n <= |es|
    ensures NotDodged(Run(x, ALL_GATES, es[..n]))
  {
    if n > 0 {
      NotDodgedAfter(x, es, n - 1);
      RunsAreSound(x, ALL_GATES, es[..n - 1]);
      RunOne(x, ALL_GATES, es, n - 1);
      StepNotDodgedIff(Run(x, ALL_GATES, es[..n - 1]), es[n - 1]);
    }
  }

  /** Over every run the budget is not dodged, up to a second per eviction, exactly when
      every stop is banked or covered by what is banked. */
  lemma NotDodgedRunsIff(x: State, es: seq<Event>)
    requires Sound(x) && NotDodged(x) && AllMeant(es)
    ensures NeverDodged(x, es) <==> StopsFit(x, es)
  {
    if StopsFit(x, es) {
      forall n | 0 <= n <= |es| ensures NotDodged(Run(x, ALL_GATES, es[..n])) {
        NotDodgedAfter(x, es, n);
      }
    }
    if NeverDodged(x, es) {
      forall n | 0 <= n < |es| ensures StopFits(Run(x, ALL_GATES, es[..n]), es[n]) {
        RunsAreSound(x, ALL_GATES, es[..n]);
        RunOne(x, ALL_GATES, es, n);
        assert NotDodged(Run(x, ALL_GATES, es[..n])) && NotDodged(Run(x, ALL_GATES, es[..n + 1]));
        StepNotDodgedIff(Run(x, ALL_GATES, es[..n]), es[n]);
      }
    }
  }

  lemma RunTwo(x: State, g: Gates, a: Event, b: Event)
    ensures Run(x, g, [a, b]) == Step(Step(x, g, a), g, b)
  {
    assert [a, b][..1] == [a] && [a][..0] == [];
    assert Run(x, g, [a]) == Step(Run(x, g, []), g, a);
  }

  /** A unit that has just been started and has run for a while. */
  lemma RunsFor(t: nat)
    ensures var y := Run(START, ALL_GATES, [Enter(Running, ""), Tick(t)]);
      && Ready(y.status) && Banked(y.status) == 0 && Interval(y.status, y.now) == t && y.status.phase == Running
      && y.ready == t && y.running == t && y.banks == 0 && y.starts == 1 && Sound(y)
  {
    RunTwo(START, ALL_GATES, Enter(Running, ""), Tick(t));
    StartClock(START.status, 0);
    assert AllMeant([Enter(Running, ""), Tick(t)]);
    RunsAreSound(START, ALL_GATES, [Enter(Running, ""), Tick(t)]);
  }

  /** A running job whose count grows is reserved once more; a rejected admission check puts
      it into Backoff without banking, and a hundred seconds are free. */
  lemma RejectedCheckDodges()
    ensures var es := [Enter(Running, ""), Tick(100 * SECOND)] + [Enter(Reserved, ""), Enter(Backoff, "admission check failed")];
      var y := Run(START, ALL_GATES, es);
      Sound(START) && NotDodged(START) && AllMeant(es) && Charged(y) == 0 && y.ready == 100 * SECOND && !NotDodged(y)
  {
    var a, b, t := Enter(Reserved, ""), Enter(Backoff, "admission check failed"), 100 * SECOND;
    RunsFor(t);
    var y := Run(START, ALL_GATES, [Enter(Running, ""), Tick(t)]);
    RunConcat(START, ALL_GATES, [Enter(Running, ""), Tick(t)], [a, b]);
    RunTwo(y, ALL_GATES, a, b);
    var z := Step(y, ALL_GATES, a);
    ReadyAfter(y.status, ALL_GATES, Reserved, "", y.now);
    EnterInterval(y.status, ALL_GATES, Reserved, "", y.now);
    ReadyAfter(z.status, ALL_GATES, Backoff, "admission check failed", z.now);
    EnterInterval(z.status, ALL_GATES, Backoff, "admission check failed", z.now);
  }

  // ---------- Exactly when only running is charged ----------

  /** PodsReady was true no longer than the unit was in phase Running. */
  ghost predicate OnlyRunning(x: State) {
    x.ready <= x.running
  }

  /** Time that passes with PodsReady true in another phase fits beside the time in phase
      Running without it. */
  ghost predicate WaitFits(x: State, e: Event) {
    e.Tick? && Ready(x.status) && x.status.phase != Running ==> x.ready + e.ticks <= x.running
  }

  lemma StepOnlyRunningIff(x: State, g: Gates, e: Event)
    requires OnlyRunning(x)
    ensures OnlyRunning(Step(x, g, e)) <==> WaitFits(x, e)
  {}

  ghost predicate AlwaysOnlyRunning(x: State, g: Gates, es: seq<Event>) {
    forall n :: 0 <= n <= |es| ==> OnlyRunning(Run(x, g, es[..n]))
  }

  ghost predicate WaitsFit(x: State, g: Gates, es: seq<Event>) {
    forall n :: 0 <= n < |es| ==> WaitFits(Run(x, g, es[..n]), es[n])
  }

  lemma {:induction false} OnlyRunningAfter(x: State, g: Gates, es: seq<Event>, n: nat)
    requires OnlyRunning(x) && WaitsFit(x, g, es) && n <= |es|
    ensures OnlyRunning(Run(x, g, es[..n]))
  {
    if n > 0 {
      OnlyRunningAfter(x, g, es, n - 1);
      RunOne(x, g, es, n - 1);
      StepOnlyRunningIff(Run(x, g, es[..n - 1]), g, es[n - 1]);
    }
  }

  /** Over every run PodsReady covers no more than phase Running exactly when all such waits
      fit, and then no more than that is charged, up to a second per start. */
  lemma OnlyRunningIsCharged(x: State, g: Gates, es: seq<Event>)
    requires Sound(x) && OnlyRunning(x) && g.conditions && AllMeant(es)
    ensures AlwaysOnlyRunning(x, g, es) <==> WaitsFit(x, g, es)
    ensures WaitsFit(x, g, es) ==> var y := Run(x, g, es); Charged(y) <= y.running + (SECOND - 1) * y.starts
  {
    RunsAreSound(x, g, es);
    assert es[..|es|] == es;
    if WaitsFit(x, g, es) {
      forall n | 0 <= n <= |es| ensures OnlyRunning(Run(x, g, es[..n])) {
        OnlyRunningAfter(x, g, es, n);
      }
    }
    if AlwaysOnlyRunning(x, g, es) {
      forall n | 0 <= n < |es| ensures WaitFits(Run(x, g, es[..n]), es[n]) {
        RunOne(x, g, es, n);
        assert OnlyRunning(Run(x, g, es[..n])) && OnlyRunning(Run(x, g, es[..n + 1]));
        StepOnlyRunningIff(Run(x, g, es[..n]), g, es[n]);
      }
    }
  }

  /** A running job that goes back to Dequeued is charged for waiting: five seconds in phase
      Running and a hundred after it. */
  lemma DequeuedIsCharged()
    ensures var es := [Enter(Running, ""), Tick(5 * SECOND)] + [Enter(Dequeued, ""), Tick(100 * SECOND)];
      var y := Run(START, ALL_GATES, es);
      OnlyRunning(START) && AllMeant(es) && Charged(y) == 105 * SECOND && y.running == 5 * SECOND
  {
    var a, b, t := Enter(Dequeued, ""), Tick(100 * SECOND), 5 * SECOND;
    RunsFor(t);
    var y := Run(START, ALL_GATES, [Enter(Running, ""), Tick(t)]);
    RunConcat(START, ALL_GATES, [Enter(Running, ""), Tick(t)], [a, b]);
    RunTwo(y, ALL_GATES, a, b);
    ReadyAfter(y.status, ALL_GATES, Dequeued, "", y.now);
    EnterInterval(y.status, ALL_GATES, Dequeued, "", y.now);
  }
}
