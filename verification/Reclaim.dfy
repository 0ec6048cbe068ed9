/** Preempting, reclaiming and shrinking: several controllers lower the replica counter
    of the same admissions. Here each of them is a function on admissions, and the floor
    they must not break, the replicas that are running, is proved over every run. */
module Reclaim {
  import opened Amounts
  import opened QueueUnits
  import D = PodDeletion
  import Preemption

  /** A pod: `finished` is phase Failed or Succeeded, `scheduled` a set node name. */
  datatype Pod = Pod(name: string, finished: bool, scheduled: bool)

  type PodsBySet = map<string, seq<Pod>>

  function PodsOf(pods: PodsBySet, name: string): seq<Pod> {
    if name in pods then pods[name] else []
  }

  function Live(pods: seq<Pod>): (n: nat) {
    if pods == [] then 0 else Live(pods[..|pods| - 1]) + if pods[|pods| - 1].finished then 0 else 1
  }

  function Scheduled(pods: seq<Pod>): (n: nat) {
    if pods == [] then 0
    else Scheduled(pods[..|pods| - 1]) + if !pods[|pods| - 1].finished && pods[|pods| - 1].scheduled then 1 else 0
  }

  /** The live pods that no node has been found for, in order. */
  function Waiting(pods: seq<Pod>): (w: seq<Pod>)
    ensures forall p :: p in w ==> p in pods && !p.finished && !p.scheduled
  {
    if pods == [] then []
    else
      var p := pods[|pods| - 1];
      Waiting(pods[..|pods| - 1]) + if p.finished || p.scheduled then [] else [p]
  }

  lemma {:induction false} LiveIsScheduledOrWaiting(pods: seq<Pod>)
    ensures Live(pods) == Scheduled(pods) + |Waiting(pods)|
  {
    if pods != [] {
      LiveIsScheduledOrWaiting(pods[..|pods| - 1]);
    }
  }

  /** A pod that waits has as many before it in the list as wait before it among the pods. */
  lemma {:induction false} WaitingAt(pods: seq<Pod>, j: nat)
    requires j < |pods| && !pods[j].finished && !pods[j].scheduled
    ensures |Waiting(pods[..j])| < |Waiting(pods)| && Waiting(pods)[|Waiting(pods[..j])|] == pods[j]
  {
    var n := |pods| - 1;
    assert Waiting(pods[..n]) <= Waiting(pods);
    if j < n {
      assert pods[..n][..j] == pods[..j];
      WaitingAt(pods[..n], j);
    } else {
      assert Waiting(pods) == Waiting(pods[..n]) + [pods[n]];
    }
  }

  function LiveAt(pods: seq<Pod>): set<int> {
    set i | 0 <= i < |pods| && !pods[i].finished
  }

  function ScheduledAt(pods: seq<Pod>): set<int> {
    set i | 0 <= i < |pods| && !pods[i].finished && pods[i].scheduled
  }

  lemma LastPod(pods: seq<Pod>)
    requires pods != []
    ensures var n := |pods| - 1;
      && LiveAt(pods) == LiveAt(pods[..n]) + (if pods[n].finished then {} else {n})
      && ScheduledAt(pods) == ScheduledAt(pods[..n]) + (if !pods[n].finished && pods[n].scheduled then {n} else {})
  {
  }

  /** They count the pods that are not finished, and those of them that have a node. */
  lemma {:induction false} LiveIsCount(pods: seq<Pod>)
    ensures Live(pods) == |LiveAt(pods)|
    ensures Scheduled(pods) == |ScheduledAt(pods)|
  {
    if pods != [] {
      LiveIsCount(pods[..|pods| - 1]);
      LastPod(pods);
    }
  }

  // ---------- One admission ----------

  /** How many pods reconcileReclaim picks, and which. */
  function PickCount(a: Admission, pods: seq<Pod>): nat {
    Min(PendingReclaim(a), |Waiting(pods)|)
  }

  function Picked(a: Admission, pods: seq<Pod>): seq<Pod> {
    Waiting(pods)[..PickCount(a, pods)]
  }

  /** What Reconcile makes of an admission when pods have been picked for it. */
  function Taken(a: Admission, picked: nat): Admission {
    a.(replicas := if a.replicas < picked then 0 else a.replicas - picked, reclaim := None)
  }

  /** reconcileOveradmission: down to what is requested or live, whichever is more, and
      what is released also settles that much of a pending reclaim. */
  function Shrunk(a: Admission, requested: int, live: nat): Admission {
    var replicas := Min(a.replicas, Max(live, requested));
    var released := a.replicas - replicas;
    a.(replicas := replicas,
       reclaim := if released > 0 && a.reclaim.Some? then
                    if a.reclaim.value <= released then None else Some(a.reclaim.value - released)
                  else a.reclaim)
  }

  /** preemptQueueUnits: `amount` replicas are to be given back. */
  function Marked(a: Admission, amount: int): Admission {
    if amount > 0 then a.(reclaim := Some(amount)) else a
  }

  /** The scheduled pods of a set, and what they request where that is taken over, which is
      in phase Running. */
  datatype Count = Count(running: nat, resources: Option<Amount>)

  /** syncInFlightWorkers. */
  function Synced(a: Admission, c: Count): Admission {
    a.(running := c.running, replicas := Max(a.replicas, c.running),
       resources := if c.resources.Some? then c.resources.value else a.resources)
  }

  /** reconcilePodDeletion: `gone` pods that were observed have disappeared. */
  function Deleted(a: Admission, gone: nat): Admission {
    if a.reclaim.Some? then a else a.(replicas := D.Reduced(a.replicas, gone))
  }

  /** reconcilePartialRunningTimeout: replicas that have not run for too long are released. */
  function TimedOut(a: Admission, expired: bool): Admission {
    if expired && a.running < a.replicas then a.(replicas := a.running) else a
  }

  /** The replicas that stay after every pending reclaim cover the running ones. */
  predicate FloorOne(a: Admission) {
    a.running <= a.replicas - PendingReclaim(a)
  }

  lemma TakenKeepsFloor(a: Admission, pods: seq<Pod>, picked: nat)
    requires FloorOne(a) && 0 <= a.running && picked == PickCount(a, pods)
    ensures FloorOne(Taken(a, picked))
  {}

  lemma ShrunkFloorIff(a: Admission, requested: int, live: nat)
    requires FloorOne(a)
    ensures FloorOne(Shrunk(a, requested, live)) <==> a.running <= Max(live, requested)
  {}

  lemma MarkedFloorIff(a: Admission, amount: int)
    requires FloorOne(a)
    ensures FloorOne(Marked(a, amount)) <==> amount <= Max(0, a.replicas - a.running)
  {}

  lemma SyncedFloorIff(a: Admission, c: Count)
    requires FloorOne(a)
    ensures FloorOne(Synced(a, c)) <==> PendingReclaim(a) == 0 || c.running <= a.replicas - PendingReclaim(a)
  {}

  /** What is gone leaves a replica for every pod that counts as running. */
  predicate LeavesRunning(a: Admission, gone: nat) {
    a.reclaim.Some? || a.running <= Max(0, a.replicas - gone)
  }

  lemma DeletedFloorIff(a: Admission, gone: nat)
    requires FloorOne(a) && 0 <= a.running
    ensures FloorOne(Deleted(a, gone)) <==> LeavesRunning(a, gone)
  {}

  lemma TimedOutFloorIff(a: Admission, expired: bool)
    requires FloorOne(a)
    ensures FloorOne(TimedOut(a, expired)) <==> expired ==> PendingReclaim(a) == 0
  {}

  /** Whatever has been marked, a reclaim takes no scheduled pod's replica as long as no
      more pods are live than admitted. */
  lemma ReclaimSparesScheduled(a: Admission, pods: seq<Pod>)
    requires Live(pods) <= a.replicas
    ensures Scheduled(pods) <= Taken(a, PickCount(a, pods)).replicas
    ensures forall p :: p in Picked(a, pods) ==> p in pods && !p.finished && !p.scheduled
  {
    LiveIsScheduledOrWaiting(pods);
  }

  // ---------- The admissions of a unit ----------

  function AmountFor(amounts: map<string, int>, name: string): int {
    if name in amounts then amounts[name] else 0
  }

  /** Some admission that is to be marked still waits for an earlier reclaim. */
  predicate Collides(ads: seq<Admission>, amounts: map<string, int>) {
    exists i :: 0 <= i < |ads| && AmountFor(amounts, ads[i].name) > 0 && ads[i].reclaim.Some?
  }

  function Mark(u: UnitRecord, amounts: map<string, int>): UnitRecord {
    if IsDequeued(u) || !IsReservedAny(u) || Collides(u.admissions, amounts) then u
    else u.(admissions := seq(|u.admissions|, i requires 0 <= i < |u.admissions| =>
                                Marked(u.admissions[i], AmountFor(amounts, u.admissions[i].name))))
  }

  /** The status change of preemptQueueUnits for one victim. */
  method MarkVictim(u: UnitRecord, amounts: map<string, int>) returns (v: UnitRecord, failed: bool)
    ensures v == Mark(u, amounts)
    ensures failed <==> !IsDequeued(u) && IsReservedAny(u) && Collides(u.admissions, amounts)
  {
    if IsDequeued(u) || !IsReservedAny(u) {
      return u, false;
    }
    var copy := u.admissions;
    for i := 0 to |u.admissions|
      invariant |copy| == |u.admissions|
      invariant forall k :: 0 <= k < i ==> copy[k] == Marked(u.admissions[k], AmountFor(amounts, u.admissions[k].name))
      invariant forall k :: i <= k < |copy| ==> copy[k] == u.admissions[k]
      invariant forall k :: 0 <= k < i ==> !(AmountFor(amounts, u.admissions[k].name) > 0 && u.admissions[k].reclaim.Some?)
    {
      var replica := AmountFor(amounts, u.admissions[i].name);
      if replica > 0 {
        if copy[i].reclaim.Some? {
          return u, true;
        }
        copy := copy[i := copy[i].(reclaim := Some(replica))];
      }
    }
    v, failed := u.(admissions := copy), false;
    assert copy == Mark(u, amounts).admissions;
  }

  predicate PicksAny(ads: seq<Admission>, pods: PodsBySet) {
    exists i :: 0 <= i < |ads| && PickCount(ads[i], PodsOf(pods, ads[i].name)) > 0
  }

  /** reconcileReclaim and its application: once any pod is picked, the ReclaimState of
      every admission is cleared. */
  function TakeBack(ads: seq<Admission>, pods: PodsBySet): seq<Admission> {
    if PicksAny(ads, pods) then
      seq(|ads|, i requires 0 <= i < |ads| => Taken(ads[i], PickCount(ads[i], PodsOf(pods, ads[i].name))))
    else ads
  }

  function Requested(podSets: seq<PodSet>, name: string): int {
    AmountFor(PodSetCounts(podSets), name)
  }

  function Shrink(ads: seq<Admission>, podSets: seq<PodSet>, pods: PodsBySet): seq<Admission> {
    seq(|ads|, i requires 0 <= i < |ads| => Shrunk(ads[i], Requested(podSets, ads[i].name), Live(PodsOf(pods, ads[i].name))))
  }

  function LiveNames(pods: seq<Pod>): set<string> {
    set p | p in pods && !p.finished :: p.name
  }

  /** The pods of a set that were observed, by the name of the set. */
  type Observed = map<string, set<string>>

  function Gone(seen: Observed, pods: PodsBySet, name: string): nat {
    |(if name in seen then seen[name] else {}) - LiveNames(PodsOf(pods, name))|
  }

  function DeleteGone(ads: seq<Admission>, seen: Observed, pods: PodsBySet): seq<Admission> {
    seq(|ads|, i requires 0 <= i < |ads| => Deleted(ads[i], Gone(seen, pods, ads[i].name)))
  }

  /** `expired` are the admissions whose timer has run out. */
  function TimeOut(ads: seq<Admission>, expired: set<string>): seq<Admission> {
    seq(|ads|, i requires 0 <= i < |ads| => TimedOut(ads[i], ads[i].name in expired))
  }

  /** The counts of scheduled pods, in the order a map is walked. */
  function Sync(ads: seq<Admission>, counts: seq<(string, Count)>): seq<Admission>
    decreases |counts|
  {
    if counts == [] then ads else Sync(SyncOne(ads, counts[0].0, counts[0].1), counts[1..])
  }

  function SyncOne(ads: seq<Admission>, name: string, c: Count): seq<Admission> {
    if ads == [] then [Synced(Admission(name, 0, 0, map[], None), c)]
    else if ads[0].name == name then [Synced(ads[0], c)] + ads[1..]
    else [ads[0]] + SyncOne(ads[1..], name, c)
  }

  /** Scheduler.Dequeue admits more replicas. */
  function AdmitMore(ads: seq<Admission>, name: string, more: int): seq<Admission> {
    if ads == [] then [Admission(name, more, 0, map[], None)]
    else if ads[0].name == name then [ads[0].(replicas := ads[0].replicas + more)] + ads[1..]
    else [ads[0]] + AdmitMore(ads[1..], name, more)
  }

  datatype Step =
    | MarkStep(amounts: map<string, int>)
    | TakeBackStep(pods: PodsBySet)
    | DeletionStep(seen: Observed, pods: PodsBySet)
    | TimeoutStep(expired: set<string>)
    | ShrinkStep(pods: PodsBySet)
    | SyncStep(name: string, count: Count)
    | AdmitStep(name: string, more: nat)
    | PodSetsStep(podSets: seq<PodSet>)

  function Next(u: UnitRecord, s: Step): UnitRecord {
    match s
    case MarkStep(amounts) => Mark(u, amounts)
    case TakeBackStep(pods) => u.(admissions := TakeBack(u.admissions, pods))
    case DeletionStep(seen, pods) =>
      if u.phase == Dequeued then u.(admissions := DeleteGone(u.admissions, seen, pods)) else u
    case TimeoutStep(expired) =>
      if u.phase in {Running, Dequeued} then u.(admissions := TimeOut(u.admissions, expired)) else u
    case ShrinkStep(pods) => u.(admissions := Shrink(u.admissions, u.podSets, pods))
    case SyncStep(name, c) => u.(admissions := SyncOne(u.admissions, name, c))
    case AdmitStep(name, more) => u.(admissions := AdmitMore(u.admissions, name, more))
    case PodSetsStep(podSets) => u.(podSets := podSets)
  }

  predicate Floor(ads: seq<Admission>) {
    forall i :: 0 <= i < |ads| ==> 0 <= ads[i].running && FloorOne(ads[i])
  }

  /** What a step has to meet: a mark asks for no running replica, the pods that are gone
      leave replicas for those counted as running, a timeout meets no pending reclaim, a
      shrink sees the running pods among those live or requested, and newly scheduled pods
      fit beside what is to be given back. */
  predicate Allowed(u: UnitRecord, s: Step) {
    match s
    case MarkStep(amounts) =>
      IsDequeued(u) || !IsReservedAny(u) || Collides(u.admissions, amounts) ||
      forall i :: 0 <= i < |u.admissions| ==>
        AmountFor(amounts, u.admissions[i].name) <= Max(0, u.admissions[i].replicas - u.admissions[i].running)
    case DeletionStep(seen, pods) =>
      u.phase == Dequeued ==>
        forall i :: 0 <= i < |u.admissions| ==> LeavesRunning(u.admissions[i], Gone(seen, pods, u.admissions[i].name))
    case TimeoutStep(expired) =>
      u.phase in {Running, Dequeued} ==>
        forall i :: 0 <= i < |u.admissions| && u.admissions[i].name in expired ==> PendingReclaim(u.admissions[i]) == 0
    case ShrinkStep(pods) =>
      forall i :: 0 <= i < |u.admissions| ==>
        var a := u.admissions[i];
        a.running <= Max(Live(PodsOf(pods, a.name)), Requested(u.podSets, a.name))
    case SyncStep(name, c) => FitsBeside(u.admissions, name, c.running)
    case _ => true
  }

  /** For the first admission of that name. */
  predicate FitsBeside(ads: seq<Admission>, name: string, running: nat) {
    if ads == [] then true
    else if ads[0].name == name then PendingReclaim(ads[0]) == 0 || running <= ads[0].replicas - PendingReclaim(ads[0])
    else FitsBeside(ads[1..], name, running)
  }

  lemma FloorCons(a: Admission, ads: seq<Admission>)
    ensures Floor([a] + ads) <==> 0 <= a.running && FloorOne(a) && Floor(ads)
  {
    var all := [a] + ads;
    if Floor(all) {
      assert all[0] == a;
      forall i | 0 <= i < |ads| ensures 0 <= ads[i].running && FloorOne(ads[i]) { assert all[i + 1] == ads[i]; }
    }
  }

  lemma {:induction false} SyncOneFloorIff(ads: seq<Admission>, name: string, c: Count)
    requires Floor(ads)
    ensures Floor(SyncOne(ads, name, c)) <==> FitsBeside(ads, name, c.running)
  {
    if ads != [] {
      FloorCons(ads[0], ads[1..]);
      assert ads == [ads[0]] + ads[1..];
      if ads[0].name == name {
        SyncedFloorIff(ads[0], c);
        FloorCons(Synced(ads[0], c), ads[1..]);
      } else {
        SyncOneFloorIff(ads[1..], name, c);
        FloorCons(ads[0], SyncOne(ads[1..], name, c));
      }
    }
  }

  lemma {:induction false} AdmitMoreFloor(ads: seq<Admission>, name: string, more: nat)
    requires Floor(ads)
    ensures Floor(AdmitMore(ads, name, more))
  {
    if ads != [] {
      FloorCons(ads[0], ads[1..]);
      assert ads == [ads[0]] + ads[1..];
      if ads[0].name == name {
        FloorCons(ads[0].(replicas := ads[0].replicas + more), ads[1..]);
      } else {
        AdmitMoreFloor(ads[1..], name, more);
        FloorCons(ads[0], AdmitMore(ads[1..], name, more));
      }
    }
  }

  lemma MarkFloorIff(u: UnitRecord, amounts: map<string, int>)
    requires Floor(u.admissions)
    ensures Floor(Mark(u, amounts).admissions) <==> Allowed(u, MarkStep(amounts))
  {
    if !(IsDequeued(u) || !IsReservedAny(u) || Collides(u.admissions, amounts)) {
      var ads, after := u.admissions, Mark(u, amounts).admissions;
      forall i | 0 <= i < |ads|
        ensures 0 <= after[i].running
        ensures FloorOne(after[i]) <==> AmountFor(amounts, ads[i].name) <= Max(0, ads[i].replicas - ads[i].running)
      {
        MarkedFloorIff(ads[i], AmountFor(amounts, ads[i].name));
      }
    }
  }

  lemma ShrinkFloorIff(u: UnitRecord, pods: PodsBySet)
    requires Floor(u.admissions)
    ensures Floor(Shrink(u.admissions, u.podSets, pods)) <==> Allowed(u, ShrinkStep(pods))
  {
    var ads, after := u.admissions, Shrink(u.admissions, u.podSets, pods);
    forall i | 0 <= i < |ads|
      ensures 0 <= after[i].running
      ensures FloorOne(after[i]) <==> ads[i].running <= Max(Live(PodsOf(pods, ads[i].name)), Requested(u.podSets, ads[i].name))
    {
      ShrunkFloorIff(ads[i], Requested(u.podSets, ads[i].name), Live(PodsOf(pods, ads[i].name)));
    }
  }

  lemma DeleteGoneFloorIff(ads: seq<Admission>, seen: Observed, pods: PodsBySet)
    requires Floor(ads)
    ensures Floor(DeleteGone(ads, seen, pods)) <==>
            forall i :: 0 <= i < |ads| ==> LeavesRunning(ads[i], Gone(seen, pods, ads[i].name))
  {
    var after := DeleteGone(ads, seen, pods);
    forall i | 0 <= i < |ads|
      ensures after[i].running == ads[i].running
      ensures FloorOne(after[i]) <==> LeavesRunning(ads[i], Gone(seen, pods, ads[i].name))
    {
      DeletedFloorIff(ads[i], Gone(seen, pods, ads[i].name));
    }
  }

  lemma DeletionFloorIff(u: UnitRecord, seen: Observed, pods: PodsBySet)
    requires Floor(u.admissions)
    ensures Floor(Next(u, DeletionStep(seen, pods)).admissions) <==> Allowed(u, DeletionStep(seen, pods))
  {
    DeleteGoneFloorIff(u.admissions, seen, pods);
  }

  lemma TimeoutFloorIff(u: UnitRecord, expired: set<string>)
    requires Floor(u.admissions)
    ensures Floor(Next(u, TimeoutStep(expired)).admissions) <==> Allowed(u, TimeoutStep(expired))
  {
    var ads, after := u.admissions, TimeOut(u.admissions, expired);
    forall i | 0 <= i < |ads|
      ensures after[i].running == ads[i].running
      ensures FloorOne(after[i]) <==> ads[i].name in expired ==> PendingReclaim(ads[i]) == 0
    {
      TimedOutFloorIff(ads[i], ads[i].name in expired);
    }
  }

  lemma TakeBackFloor(ads: seq<Admission>, pods: PodsBySet)
    requires Floor(ads)
    ensures Floor(TakeBack(ads, pods))
  {
    if PicksAny(ads, pods) {
      forall i | 0 <= i < |ads| ensures 0 <= TakeBack(ads, pods)[i].running && FloorOne(TakeBack(ads, pods)[i]) {
        TakenKeepsFloor(ads[i], PodsOf(pods, ads[i].name), PickCount(ads[i], PodsOf(pods, ads[i].name)));
      }
    }
  }

  /** A step keeps the floor exactly when it is allowed. */
  lemma StepKeepsFloorIff(u: UnitRecord, s: Step)
    requires Floor(u.admissions)
    ensures Floor(Next(u, s).admissions) <==> Allowed(u, s)
  {
    match s
    case MarkStep(amounts) => MarkFloorIff(u, amounts);
    case TakeBackStep(pods) => TakeBackFloor(u.admissions, pods);
    case DeletionStep(seen, pods) => DeletionFloorIff(u, seen, pods);
    case TimeoutStep(expired) => TimeoutFloorIff(u, expired);
    case ShrinkStep(pods) => ShrinkFloorIff(u, pods);
    case SyncStep(name, c) => SyncOneFloorIff(u.admissions, name, c);
    case AdmitStep(name, more) => AdmitMoreFloor(u.admissions, name, more);
    case PodSetsStep(podSets) =>
  }

  // ---------- Runs ----------

  function Run(u: UnitRecord, steps: seq<Step>): UnitRecord {
    if steps == [] then u else Next(Run(u, steps[..|steps| - 1]), steps[|steps| - 1])
  }

  /** Every step is allowed in the state it meets. */
  ghost predicate AllAllowed(u: UnitRecord, steps: seq<Step>) {
    forall n :: 0 <= n < |steps| ==> Allowed(Run(u, steps[..n]), steps[n])
  }

  ghost predicate AlwaysFloor(u: UnitRecord, steps: seq<Step>) {
    forall n :: 0 <= n <= |steps| ==> Floor(Run(u, steps[..n]).admissions)
  }

  /** Over every interleaving of the controllers, the running replicas are never taken
      exactly when no step asks for what it must not. */
  lemma {:induction false} FloorOverRunsIff(u: UnitRecord, steps: seq<Step>)
    requires Floor(u.admissions)
    ensures AlwaysFloor(u, steps) <==> AllAllowed(u, steps)
  {
    if AllAllowed(u, steps) {
      forall n | 0 <= n <= |steps| ensures Floor(Run(u, steps[..n]).admissions) {
        FloorAt(u, steps, n);
      }
    }
    if AlwaysFloor(u, steps) {
      forall n | 0 <= n < |steps| ensures Allowed(Run(u, steps[..n]), steps[n]) {
        RunOne(u, steps, n);
        assert Floor(Run(u, steps[..n]).admissions) && Floor(Run(u, steps[..n + 1]).admissions);
        StepKeepsFloorIff(Run(u, steps[..n]), steps[n]);
      }
    }
  }

  lemma RunOne(u: UnitRecord, steps: seq<Step>, n: nat)
    requires n < |steps|
    ensures Run(u, steps[..n + 1]) == Next(Run(u, steps[..n]), steps[n])
  {
    assert steps[..n + 1][..n] == steps[..n];
  }

  lemma {:induction false} FloorAt(u: UnitRecord, steps: seq<Step>, n: nat)
    requires Floor(u.admissions) && AllAllowed(u, steps) && n <= |steps|
    ensures Floor(Run(u, steps[..n]).admissions)
  {
    if n > 0 {
      FloorAt(u, steps, n - 1);
      RunOne(u, steps, n - 1);
      StepKeepsFloorIff(Run(u, steps[..n - 1]), steps[n - 1]);
    }
  }

  // ---------- What the steps do to one admission ----------

  /** A reclaim picks the first pods that wait: those with fewer than the number to pick waiting
      before them. */
  lemma PicksFirst(a: Admission, pods: seq<Pod>, j: nat)
    requires j < |pods| && !pods[j].finished && !pods[j].scheduled
    requires forall i, k :: 0 <= i < k < |pods| ==> pods[i].name != pods[k].name
    ensures pods[j] in Picked(a, pods) <==> |Waiting(pods[..j])| < PickCount(a, pods)
  {
    WaitingAt(pods, j);
    if pods[j] in Picked(a, pods) {
      var m :| 0 <= m < PickCount(a, pods) && Waiting(pods)[m] == pods[j];
      WaitingOnce(pods, m, |Waiting(pods[..j])|);
    }
  }

  lemma {:induction false} WaitingOnce(pods: seq<Pod>, m: nat, k: nat)
    requires forall i, k :: 0 <= i < k < |pods| ==> pods[i].name != pods[k].name
    requires m < |Waiting(pods)| && k < |Waiting(pods)| && Waiting(pods)[m] == Waiting(pods)[k]
    ensures m == k
  {
    if pods != [] {
      var n := |pods| - 1;
      var rest := Waiting(pods[..n]);
      if m < |rest| && k < |rest| {
        WaitingOnce(pods[..n], m, k);
      }
    }
  }

  /** Every pod of that name is finished, or there is none. */
  predicate NoneLives(pods: seq<Pod>, name: string) {
    forall i :: 0 <= i < |pods| && pods[i].name == name ==> pods[i].finished
  }

  /** Gone are the pods seen before that no live pod has the name of. */
  lemma GoneIs(seen: Observed, pods: PodsBySet, name: string)
    requires name in seen
    ensures Gone(seen, pods, name) == |set n | n in seen[name] && NoneLives(PodsOf(pods, name), n)|
  {
    var ps := PodsOf(pods, name);
    forall n ensures n in LiveNames(ps) <==> !NoneLives(ps, n) {
      if i :| 0 <= i < |ps| && ps[i].name == n && !ps[i].finished {
        assert ps[i] in ps;
      }
    }
    assert seen[name] - LiveNames(ps) == set n | n in seen[name] && NoneLives(ps, n);
  }

  /** Shrinking leaves what is admitted, or what the live pods or the pod set of the name ask
      for if that is less, and takes what it releases off a pending reclaim. */
  lemma ShrinkAt(ads: seq<Admission>, podSets: seq<PodSet>, pods: PodsBySet, i: nat, j: nat)
    requires i < |ads| && j < |podSets| && podSets[j].name == ads[i].name && UniquePodSets(podSets)
    ensures |Shrink(ads, podSets, pods)| == |ads|
    ensures var a, b, live := ads[i], Shrink(ads, podSets, pods)[i], |LiveAt(PodsOf(pods, ads[i].name))|;
      && b.replicas == Min(a.replicas, Max(live, podSets[j].count))
      && b.name == a.name && b.running == a.running && b.resources == a.resources
      && PendingReclaim(b) == Max(0, PendingReclaim(a) - (a.replicas - b.replicas))
  {
    LiveIsCount(PodsOf(pods, ads[i].name));
    LastCountWins(podSets, j);
  }

  /** A mark changes only what is to be given back, and only where an amount is asked for. */
  lemma MarkAt(u: UnitRecord, amounts: map<string, int>, i: nat)
    requires i < |u.admissions| && !IsDequeued(u) && IsReservedAny(u) && !Collides(u.admissions, amounts)
    ensures var a, b := u.admissions[i], Mark(u, amounts).admissions[i];
      if a.name in amounts && 0 < amounts[a.name]
      then b == Admission(a.name, a.replicas, a.running, a.resources, Some(amounts[a.name])) && a.reclaim == None
      else b == a
  {
  }

  /** The timeout takes the replicas that do not run, and never adds any. */
  lemma TimeOutAt(ads: seq<Admission>, expired: set<string>, i: nat)
    requires i < |ads|
    ensures |TimeOut(ads, expired)| == |ads|
    ensures var a := ads[i];
      TimeOut(ads, expired)[i] ==
      Admission(a.name, if a.name in expired then Min(a.replicas, a.running) else a.replicas, a.running, a.resources, a.reclaim)
  {
  }

  lemma {:induction false} SyncOneLength(ads: seq<Admission>, name: string, c: Count)
    ensures |SyncOne(ads, name, c)| == |ads| + if exists i :: 0 <= i < |ads| && ads[i].name == name then 0 else 1
  {
    if ads != [] && ads[0].name != name {
      SyncOneLength(ads[1..], name, c);
      assert forall i :: 0 < i < |ads| ==> ads[i] == ads[1..][i - 1];
    }
  }

  /** A count replaces what is known of its name: the running replicas, and the resources if
      they were counted. The replicas are raised to those that run, never lowered, and no other
      admission changes. */
  lemma {:induction false} SyncOneAt(ads: seq<Admission>, name: string, c: Count, i: nat)
    requires UniqueNames(ads) && i < |ads|
    ensures |ads| <= |SyncOne(ads, name, c)|
    ensures var a, b := ads[i], SyncOne(ads, name, c)[i];
      if a.name == name
      then b == Admission(name, Max(a.replicas, c.running), c.running, if c.resources.Some? then c.resources.value else a.resources, a.reclaim)
      else b == a
  {
    SyncOneLength(ads, name, c);
    if ads[0].name != name && i > 0 {
      assert forall j, k :: 0 <= j < k < |ads[1..]| ==> ads[1..][j] == ads[j + 1] && ads[1..][k] == ads[k + 1];
      SyncOneAt(ads[1..], name, c, i - 1);
    }
  }

  // ---------- What reclaims give back ----------

  /** The pods of a set that wait for a node, and how many of them a reclaim picks. */
  function PickedOf(a: Admission, pods: PodsBySet): int {
    Min(PendingReclaim(a), Live(PodsOf(pods, a.name)) - Scheduled(PodsOf(pods, a.name)))
  }

  lemma PickedIsCount(a: Admission, pods: PodsBySet)
    ensures PickedOf(a, pods) == PickCount(a, PodsOf(pods, a.name)) == |Picked(a, PodsOf(pods, a.name))|
  {
    LiveIsScheduledOrWaiting(PodsOf(pods, a.name));
  }

  function ReplicasOf(ads: seq<Admission>): (f: map<int, int>)
    ensures f.Keys == Indices(|ads|)
  {
    map i | i in Indices(|ads|) :: ads[i].replicas
  }

  function PicksOf(ads: seq<Admission>, pods: PodsBySet): (f: map<int, int>)
    ensures f.Keys == Indices(|ads|)
  {
    map i | i in Indices(|ads|) :: PickedOf(ads[i], pods)
  }

  function GivenOf(ads: seq<Admission>, after: seq<Admission>): (f: map<int, int>)
    requires |ads| == |after|
    ensures f.Keys == Indices(|ads|)
  {
    map i | i in Indices(|ads|) :: ads[i].replicas - after[i].replicas
  }

  /** No more pods are picked than replicas are admitted. */
  ghost predicate Suffices(ads: seq<Admission>, pods: PodsBySet) {
    forall i :: 0 <= i < |ads| ==> PickedOf(ads[i], pods) <= ads[i].replicas
  }

  ghost predicate ReplicasNonNegative(ads: seq<Admission>) {
    forall i :: 0 <= i < |ads| ==> 0 <= ads[i].replicas
  }

  /** A reclaim that picks nothing changes nothing; otherwise every admission loses a replica
      per pod picked, not below zero, and no admission is to give back anything any more. */
  lemma TakeBackAt(ads: seq<Admission>, pods: PodsBySet, i: nat)
    requires i < |ads|
    ensures |TakeBack(ads, pods)| == |ads|
    ensures var a, b := ads[i], TakeBack(ads, pods)[i];
      if exists j :: 0 <= j < |ads| && PickedOf(ads[j], pods) > 0
      then b == Admission(a.name, Max(0, a.replicas - PickedOf(a, pods)), a.running, a.resources, None)
      else b == a
  {
    forall j | 0 <= j < |ads| ensures PickedOf(ads[j], pods) == PickCount(ads[j], PodsOf(pods, ads[j].name)) {
      PickedIsCount(ads[j], pods);
    }
  }

  ghost function Given(ads: seq<Admission>, pods: PodsBySet): int {
    Sum(Indices(|ads|), ReplicasOf(ads)) - Sum(Indices(|ads|), ReplicasOf(TakeBack(ads, pods)))
  }

  ghost function PickedTotal(ads: seq<Admission>, pods: PodsBySet): int {
    Sum(Indices(|ads|), PicksOf(ads, pods))
  }

  lemma GivenAt(ads: seq<Admission>, pods: PodsBySet, i: nat)
    requires i < |ads| && 0 <= ads[i].replicas
    ensures GivenOf(ads, TakeBack(ads, pods))[i] == Min(PickedOf(ads[i], pods), ads[i].replicas)
  {
    assert i in Indices(|ads|);
    TakeBackAt(ads, pods, i);
    PickedIsCount(ads[i], pods);
  }

  lemma GivenSum(ads: seq<Admission>, after: seq<Admission>, p: map<int, int>)
    requires |after| == |ads| && p.Keys == Indices(|ads|)
    requires forall i :: 0 <= i < |ads| ==> GivenOf(ads, after)[i] == Min(p[i], ads[i].replicas)
    ensures Sum(Indices(|ads|), ReplicasOf(ads)) - Sum(Indices(|ads|), ReplicasOf(after)) <= Sum(Indices(|ads|), p)
    ensures Sum(Indices(|ads|), ReplicasOf(ads)) - Sum(Indices(|ads|), ReplicasOf(after)) == Sum(Indices(|ads|), p) <==>
            forall i :: 0 <= i < |ads| ==> p[i] <= ads[i].replicas
  {
    SumDifference(Indices(|ads|), ReplicasOf(ads), ReplicasOf(after), GivenOf(ads, after));
    SumBelow(Indices(|ads|), GivenOf(ads, after), p);
  }

  /** A reclaim gives back at most a replica for every pod picked, and exactly that many when
      and only when the replicas suffice. */
  lemma GivenIff(ads: seq<Admission>, pods: PodsBySet)
    requires ReplicasNonNegative(ads)
    ensures Given(ads, pods) <= PickedTotal(ads, pods)
    ensures Given(ads, pods) == PickedTotal(ads, pods) <==> Suffices(ads, pods)
  {
    var after, p := TakeBack(ads, pods), PicksOf(ads, pods);
    forall i | 0 <= i < |ads| ensures GivenOf(ads, after)[i] == Min(p[i], ads[i].replicas) {
      GivenAt(ads, pods, i);
    }
    GivenSum(ads, after, p);
  }

  /** What the reclaims of a run give back, and the pods they pick. */
  ghost function GivenOver(u: UnitRecord, steps: seq<Step>): int {
    if steps == [] then 0
    else
      var n := |steps| - 1;
      GivenOver(u, steps[..n]) + if steps[n].TakeBackStep? then Given(Run(u, steps[..n]).admissions, steps[n].pods) else 0
  }

  ghost function PickedOver(u: UnitRecord, steps: seq<Step>): int {
    if steps == [] then 0
    else
      var n := |steps| - 1;
      PickedOver(u, steps[..n]) + if steps[n].TakeBackStep? then PickedTotal(Run(u, steps[..n]).admissions, steps[n].pods) else 0
  }

  ghost predicate NeverNegative(u: UnitRecord, steps: seq<Step>) {
    forall n :: 0 <= n < |steps| ==> ReplicasNonNegative(Run(u, steps[..n]).admissions)
  }

  ghost predicate AlwaysSuffices(u: UnitRecord, steps: seq<Step>) {
    forall n :: 0 <= n < |steps| && steps[n].TakeBackStep? ==> Suffices(Run(u, steps[..n]).admissions, steps[n].pods)
  }

  /** Over every interleaving of the controllers, the reclaims give back a replica for every pod
      picked exactly when the replicas suffice each time, and never more. */
  lemma {:induction false} ReclaimsGiveIff(u: UnitRecord, steps: seq<Step>)
    requires NeverNegative(u, steps)
    ensures GivenOver(u, steps) <= PickedOver(u, steps)
    ensures GivenOver(u, steps) == PickedOver(u, steps) <==> AlwaysSuffices(u, steps)
  {
    if steps != [] {
      var n := |steps| - 1;
      assert forall i :: 0 <= i < n ==> steps[..n][i] == steps[i] && steps[..n][..i] == steps[..i];
      SufficesSoFar(u, steps);
      ReclaimsGiveIff(u, steps[..n]);
      if steps[n].TakeBackStep? {
        GivenIff(Run(u, steps[..n]).admissions, steps[n].pods);
      }
    }
  }

  lemma {:induction false} SufficesSoFar(u: UnitRecord, steps: seq<Step>)
    requires steps != []
    ensures var n := |steps| - 1;
      AlwaysSuffices(u, steps) <==>
      AlwaysSuffices(u, steps[..n]) && (steps[n].TakeBackStep? ==> Suffices(Run(u, steps[..n]).admissions, steps[n].pods))
  {
    var n := |steps| - 1;
    assert forall i :: 0 <= i < n ==> steps[..n][i] == steps[i] && steps[..n][..i] == steps[..i];
  }

  /** Two of three waiting pods are picked: five replicas become three. */
  lemma TwoOfFive()
    ensures
      var pods := [Pod("a", false, true), Pod("b", false, false), Pod("c", false, false), Pod("d", false, false)];
      TakeBack([Admission("w", 5, 1, map[], Some(2))], map["w" := pods]) == [Admission("w", 3, 1, map[], None)]
  {
    var pods := [Pod("a", false, true), Pod("b", false, false), Pod("c", false, false), Pod("d", false, false)];
    var ads := [Admission("w", 5, 1, map[], Some(2))];
    assert LiveAt(pods) == {0, 1, 2, 3} && ScheduledAt(pods) == {0};
    LiveIsCount(pods);
    assert PickedOf(ads[0], map["w" := pods]) == 2;
    TakeBackAt(ads, map["w" := pods], 0);
  }

  // ---------- Marks from a cached copy ----------

  lemma {:induction false} ReclaimableIsIdle(ads: seq<Admission>, name: string) returns (i: nat)
    requires name in Preemption.ReclaimableOf(ads)
    ensures i < |ads| && ads[i].name == name && ads[i].reclaim.None?
    ensures Preemption.ReclaimableOf(ads)[name] == ads[i].replicas - ads[i].running
  {
    var n := |ads| - 1;
    var a := ads[n];
    if a.name == name && !(a.replicas == a.running || a.reclaim.Some?) {
      i := n;
    } else {
      i := ReclaimableIsIdle(ads[..n], name);
    }
  }

  /** Marking what the current copy can give back asks for no running replica. */
  lemma CurrentMarkIsAllowed(u: UnitRecord, now: int, protectTime: int)
    requires Floor(u.admissions) && UniqueNames(u.admissions)
    ensures Allowed(u, MarkStep(Preemption.CanReclaim(u, now, protectTime)))
  {
    var ads, amounts := u.admissions, Preemption.CanReclaim(u, now, protectTime);
    forall i | 0 <= i < |ads| ensures AmountFor(amounts, ads[i].name) <= Max(0, ads[i].replicas - ads[i].running) {
      if ads[i].name in amounts {
        var j := ReclaimableIsIdle(ads, ads[i].name);
      }
    }
  }

  /** A stale copy can ask for a running replica: two replicas were idle when the victim
      was chosen, one of them has started since. */
  lemma StaleMarkBreaksFloor(cached: UnitRecord, u: UnitRecord)
    requires cached.admissions == [Admission("w", 2, 0, map[], None)] && cached.podSets == [PodSet("w", 2, map[])]
    requires cached.phase == Dequeued && cached.lastAllocate == None
    requires u == cached.(admissions := [Admission("w", 2, 1, map[], None)])
    ensures Floor(u.admissions) && !Floor(Mark(u, Preemption.CanReclaim(cached, 0, 0)).admissions)
  {
    var amounts := Preemption.CanReclaim(cached, 0, 0);
    assert cached.admissions[..0] == [];
    assert Preemption.ReclaimableOf(cached.admissions[..0]) == map[];
    assert amounts == map["w" := 2];
    assert u.admissions[0].running < u.admissions[0].replicas;
    assert !IsAllRunning(u) && u.podSets != [];
    assert IsReservedAny(u) by { assert 0 < u.admissions[0].replicas - PendingReclaim(u.admissions[0]); }
    MarkFloorIff(u, amounts);
    assert AmountFor(amounts, u.admissions[0].name) == 2;
  }

  /** Deletions are seen before the running pods are counted again: two replicas run, one
      pod disappears, and the replicas fall below what still counts as running. */
  lemma DeletionBreaksFloor(u: UnitRecord)
    requires u.admissions == [Admission("w", 2, 2, map[], None)] && u.phase == Dequeued
    ensures var seen, pods := map["w" := {"p", "q"}], map["w" := [Pod("p", false, true)]];
      Floor(u.admissions) && !Floor(Next(u, DeletionStep(seen, pods)).admissions)
  {
    var seen, pods := map["w" := {"p", "q"}], map["w" := [Pod("p", false, true)]];
    assert LiveNames([Pod("p", false, true)]) == {"p"} by {
      assert Pod("p", false, true) in [Pod("p", false, true)];
    }
    assert {"p", "q"} - {"p"} == {"q"};
    assert Gone(seen, pods, "w") == 1;
    DeletionFloorIff(u, seen, pods);
    assert u.admissions[0].reclaim.None?;
  }

  /** A timeout forgets what is already to be given back: of two replicas one runs and one
      is reclaimed, both controllers release the idle one, and the running one has none. */
  lemma TimeoutBreaksFloor(u: UnitRecord)
    requires u.admissions == [Admission("w", 2, 1, map[], Some(1))] && u.phase == Running
    ensures var pods := map["w" := [Pod("p", false, true), Pod("q", false, false)]];
      && Floor(u.admissions) && !Floor(Next(u, TimeoutStep({"w"})).admissions)
      && Run(u, [TimeoutStep({"w"}), TakeBackStep(pods)]).admissions == [Admission("w", 0, 1, map[], None)]
  {
    var p, q := Pod("p", false, true), Pod("q", false, false);
    var pods := map["w" := [p, q]];
    var steps := [TimeoutStep({"w"}), TakeBackStep(pods)];
    var v := Next(u, steps[0]);
    assert v.admissions == [Admission("w", 1, 1, map[], Some(1))];
    assert [p, q][..1] == [p] && [p][..0] == [];
    assert Waiting([p][..0]) == [] && Waiting([p]) == [];
    assert Waiting([p, q]) == Waiting([p, q][..1]) + [q];
    assert PickCount(v.admissions[0], PodsOf(pods, "w")) == 1;
    assert steps[..1] == [steps[0]] && steps[..1][..0] == [] && Run(u, steps[..1][..0]) == u;
    assert Run(u, steps[..1]) == v && Run(u, steps) == Next(v, steps[1]);
  }
}
