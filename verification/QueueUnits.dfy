/** The queue unit record and the status predicates of pkg/utils/util.go. */
module QueueUnits {
  import opened Amounts

  const DEFAULT_REQUIREMENT := "koord-queue/default-requirement"

  datatype Phase =
    | NoPhase | Enqueued | Reserved | Dequeued | Running | Succeed | Failed
    | SchedReady | SchedSucceed | SchedFailed | Backoff | Preempted

  /** A pod set: its name, its pod count and the request of one pod. */
  datatype PodSet = PodSet(name: string, count: int, perPod: Amount)

  /** An admitted pod set. `reclaim` is the replica count of ReclaimState. */
  datatype Admission = Admission(name: string, replicas: int, running: int, resources: Amount, reclaim: Option<int>)

  datatype UnitRecord = UnitRecord(
    uid: string, key: string, quota: string, priority: Option<int>, created: int, version: int,
    podSets: seq<PodSet>, resource: Amount, request: Amount, active: Option<bool>,
    phase: Phase, admissions: seq<Admission>, lastAllocate: Option<int>)

  predicate IsV1Dequeued(u: UnitRecord) {
    u.admissions == [] && u.phase in {Dequeued, Reserved, Running, SchedReady, SchedSucceed}
  }

  predicate HasPodSet(podSets: seq<PodSet>, name: string) {
    exists i :: 0 <= i < |podSets| && podSets[i].name == name
  }

  /** The first pod set of that name, as the inner loops with `break` pick it. */
  function FindPodSet(podSets: seq<PodSet>, name: string): (p: PodSet)
    requires HasPodSet(podSets, name)
    ensures p in podSets && p.name == name
  {
    if podSets[0].name == name then podSets[0] else FindPodSet(podSets[1..], name)
  }

  lemma {:induction false} FirstOfName(podSets: seq<PodSet>, name: string) returns (j: nat)
    requires HasPodSet(podSets, name)
    ensures j < |podSets| && podSets[j] == FindPodSet(podSets, name) && podSets[j].name == name
    ensures forall i :: 0 <= i < j ==> podSets[i].name != name
  {
    if podSets[0].name == name {
      j := 0;
    } else {
      var k := FirstOfName(podSets[1..], name);
      j := k + 1;
      assert forall i :: 0 < i < j ==> podSets[i] == podSets[1..][i - 1];
    }
  }

  predicate OnlyDefaultAdmission(u: UnitRecord) {
    |u.admissions| == 1 && u.admissions[0].name == DEFAULT_REQUIREMENT
  }

  /** The conversion of admissions to resources dereferences the pod set of every
      admission, so it is defined only when each admission names a pod set. */
  predicate Chargeable(u: UnitRecord) {
    IsV1Dequeued(u) || OnlyDefaultAdmission(u) ||
    forall i :: 0 <= i < |u.admissions| ==> HasPodSet(u.podSets, u.admissions[i].name)
  }

  predicate ValidAmounts(u: UnitRecord) {
    && NonNegative(u.resource) && NonNegative(u.request)
    && (forall i :: 0 <= i < |u.podSets| ==> NonNegative(u.podSets[i].perPod))
    && (forall i :: 0 <= i < |u.admissions| ==> 0 <= u.admissions[i].replicas && NonNegative(u.admissions[i].resources))
  }

  type QueueUnit = u: UnitRecord | Chargeable(u) && ValidAmounts(u)
    witness UnitRecord("", "", "", None, 0, 0, [], map[], map[], None, NoPhase, [], None)

  function AdmissionsResource(podSets: seq<PodSet>, ads: seq<Admission>): Amount
    requires forall i :: 0 <= i < |ads| ==> HasPodSet(podSets, ads[i].name)
  {
    if ads == [] then map[]
    else
      var last := ads[|ads| - 1];
      Plus(AdmissionsResource(podSets, ads[..|ads| - 1]),
           MaxAmount(Scale(FindPodSet(podSets, last.name).perPod, last.replicas), last.resources))
  }

  /** GetReservedResource: what the quota ledger charges for a unit. */
  function ReservedResource(u: QueueUnit): Amount {
    if IsV1Dequeued(u) then AddResource(map[], u.resource)
    else if OnlyDefaultAdmission(u) then AddResource(map[], u.request)
    else AdmissionsResource(u.podSets, u.admissions)
  }

  /** What an admission costs of a resource: its replicas by the request of a pod of the first
      pod set of its name, or what it says to use, whichever is more. */
  function CostOf(podSets: seq<PodSet>, a: Admission, k: string): int
    requires HasPodSet(podSets, a.name)
  {
    Max(a.replicas * At(FindPodSet(podSets, a.name).perPod, k), At(a.resources, k))
  }

  function AdmissionCosts(podSets: seq<PodSet>, ads: seq<Admission>, k: string): (f: map<int, int>)
    requires forall i :: 0 <= i < |ads| ==> HasPodSet(podSets, ads[i].name)
    ensures f.Keys == Indices(|ads|)
  {
    map i | i in Indices(|ads|) :: CostOf(podSets, ads[i], k)
  }

  lemma {:induction false} AdmissionsSum(podSets: seq<PodSet>, ads: seq<Admission>, k: string)
    requires forall i :: 0 <= i < |ads| ==> HasPodSet(podSets, ads[i].name)
    ensures At(AdmissionsResource(podSets, ads), k) == Sum(Indices(|ads|), AdmissionCosts(podSets, ads, k))
  {
    if ads != [] {
      var n := |ads| - 1;
      AdmissionsSum(podSets, ads[..n], k);
      CostsLast(podSets, ads, k);
      LastAdmission(podSets, ads, k);
    }
  }

  lemma {:induction false} CostsLast(podSets: seq<PodSet>, ads: seq<Admission>, k: string)
    requires ads != [] && forall i :: 0 <= i < |ads| ==> HasPodSet(podSets, ads[i].name)
    ensures var n := |ads| - 1;
      Sum(Indices(|ads|), AdmissionCosts(podSets, ads, k)) ==
      Sum(Indices(n), AdmissionCosts(podSets, ads[..n], k)) + CostOf(podSets, ads[n], k)
  {
    var n := |ads| - 1;
    SumLast(n, AdmissionCosts(podSets, ads[..n], k), AdmissionCosts(podSets, ads, k));
  }

  lemma {:induction false} LastAdmission(podSets: seq<PodSet>, ads: seq<Admission>, k: string)
    requires ads != [] && forall i :: 0 <= i < |ads| ==> HasPodSet(podSets, ads[i].name)
    ensures var n := |ads| - 1;
      At(AdmissionsResource(podSets, ads), k) ==
      At(AdmissionsResource(podSets, ads[..n]), k) + CostOf(podSets, ads[n], k)
  {
    var n := |ads| - 1;
    var cost := MaxAmount(Scale(FindPodSet(podSets, ads[n].name).perPod, ads[n].replicas), ads[n].resources);
    PlusAt(AdmissionsResource(podSets, ads[..n]), cost, k);
    CostAt(FindPodSet(podSets, ads[n].name).perPod, ads[n].replicas, ads[n].resources, k);
  }

  lemma {:induction false} CostAt(perPod: Amount, replicas: int, resources: Amount, k: string)
    ensures At(MaxAmount(Scale(perPod, replicas), resources), k) == Max(replicas * At(perPod, k), At(resources, k))
  {}

  /** What a unit is charged of each resource: spec.resource in the phases after admission if
      nothing is admitted by name, spec.request for the default admission alone, and the sum
      of what its admissions cost otherwise. */
  lemma ChargeIsSum(u: QueueUnit, k: string)
    ensures At(ReservedResource(u), k) ==
      if u.admissions == [] && u.phase in {Dequeued, Reserved, Running, SchedReady, SchedSucceed} then At(u.resource, k)
      else if |u.admissions| == 1 && u.admissions[0].name == DEFAULT_REQUIREMENT then At(u.request, k)
      else Sum(Indices(|u.admissions|), AdmissionCosts(u.podSets, u.admissions, k))
  {
    if !IsV1Dequeued(u) && !OnlyDefaultAdmission(u) {
      AdmissionsSum(u.podSets, u.admissions, k);
    }
  }

  /** For example: three replicas of two. */
  lemma ThreeOfTwo(u: QueueUnit)
    requires u.podSets == [PodSet("w", 3, map["cpu" := 2])] && u.admissions == [Admission("w", 3, 0, map[], None)]
    ensures At(ReservedResource(u), "cpu") == 6
  {
    ChargeIsSum(u, "cpu");
    var f := AdmissionCosts(u.podSets, u.admissions, "cpu");
    assert Indices(1) == Indices(0) + {0};
    SumInsert(Indices(0), f, 0);
    assert "w" != DEFAULT_REQUIREMENT by { assert "w"[0] != DEFAULT_REQUIREMENT[0]; }
  }

  lemma ChargeNonNegative(perPod: Amount, replicas: int, resources: Amount, rest: Amount)
    requires NonNegative(perPod) && 0 <= replicas && NonNegative(resources) && NonNegative(rest)
    ensures NonNegative(Plus(rest, MaxAmount(Scale(perPod, replicas), resources)))
  {
    forall k | k in perPod ensures 0 <= Scale(perPod, replicas)[k] {
      assert 0 <= perPod[k] * replicas;
    }
  }

  lemma {:induction false} AdmissionsResourceNonNegative(podSets: seq<PodSet>, ads: seq<Admission>)
    requires forall i :: 0 <= i < |ads| ==> HasPodSet(podSets, ads[i].name)
    requires forall i :: 0 <= i < |podSets| ==> NonNegative(podSets[i].perPod)
    requires forall i :: 0 <= i < |ads| ==> 0 <= ads[i].replicas && NonNegative(ads[i].resources)
    ensures NonNegative(AdmissionsResource(podSets, ads))
  {
    if ads != [] {
      var rest, last := ads[..|ads| - 1], ads[|ads| - 1];
      AdmissionsResourceNonNegative(podSets, rest);
      var perPod := FindPodSet(podSets, last.name).perPod;
      assert NonNegative(perPod);
      ChargeNonNegative(perPod, last.replicas, last.resources, AdmissionsResource(podSets, rest));
    }
  }

  lemma ReservedResourceNonNegative(u: QueueUnit)
    ensures NonNegative(ReservedResource(u))
  {
    if !IsV1Dequeued(u) && !OnlyDefaultAdmission(u) {
      AdmissionsResourceNonNegative(u.podSets, u.admissions);
    }
  }

  /** A unit just moved to Dequeued with nothing admitted yet is charged exactly
      the amount that admission checks, its spec.resource. */
  lemma FreshChargeIsSpecResource(u: QueueUnit, k: string)
    requires u.admissions == [] && u.phase == Dequeued
    ensures At(ReservedResource(u), k) == At(u.resource, k)
  {}

  // ---------- Requirements and satisfaction ----------

  /** GetQueueUnitResourceRequirementAds: replicas required per pod set name.
      A later pod set of the same name overwrites an earlier one. */
  function Requirements(u: UnitRecord): map<string, int> {
    if u.podSets == [] && u.request != map[] then map[DEFAULT_REQUIREMENT := 1]
    else PodSetCounts(u.podSets)
  }

  function PodSetCounts(podSets: seq<PodSet>): map<string, int> {
    if podSets == [] then map[]
    else PodSetCounts(podSets[..|podSets| - 1])[podSets[|podSets| - 1].name := podSets[|podSets| - 1].count]
  }

  /** GetAdmissionMap: replicas admitted per name; the last entry of a name wins. */
  function Admitted(ads: seq<Admission>): map<string, int> {
    if ads == [] then map[]
    else Admitted(ads[..|ads| - 1])[ads[|ads| - 1].name := ads[|ads| - 1].replicas]
  }

  /** The last pod set of a name says how many replicas that name requires. */
  lemma {:induction false} LastCountWins(podSets: seq<PodSet>, i: nat)
    requires i < |podSets| && forall j :: i < j < |podSets| ==> podSets[j].name != podSets[i].name
    ensures podSets[i].name in PodSetCounts(podSets) && PodSetCounts(podSets)[podSets[i].name] == podSets[i].count
  {
    var n := |podSets| - 1;
    if i < n {
      LastCountWins(podSets[..n], i);
    }
  }

  lemma {:induction false} CountedNames(podSets: seq<PodSet>, name: string) returns (i: nat)
    requires name in PodSetCounts(podSets)
    ensures i < |podSets| && podSets[i].name == name && forall j :: i < j < |podSets| ==> podSets[j].name != name
  {
    var n := |podSets| - 1;
    if podSets[n].name == name {
      i := n;
    } else {
      i := CountedNames(podSets[..n], name);
    }
  }

  /** The last admission of a name says how many replicas of it are admitted. */
  lemma {:induction false} LastAdmissionWins(ads: seq<Admission>, i: nat)
    requires i < |ads| && forall j :: i < j < |ads| ==> ads[j].name != ads[i].name
    ensures ads[i].name in Admitted(ads) && Admitted(ads)[ads[i].name] == ads[i].replicas
  {
    var n := |ads| - 1;
    if i < n {
      LastAdmissionWins(ads[..n], i);
    }
  }

  lemma {:induction false} AdmittedNames(ads: seq<Admission>, name: string) returns (i: nat)
    requires name in Admitted(ads)
    ensures i < |ads| && ads[i].name == name && forall j :: i < j < |ads| ==> ads[j].name != name
  {
    var n := |ads| - 1;
    if ads[n].name == name {
      i := n;
    } else {
      i := AdmittedNames(ads[..n], name);
    }
  }

  predicate IsSatisfied(u: UnitRecord) {
    var have := Admitted(u.admissions);
    forall n :: n in Requirements(u) ==> n in have && Requirements(u)[n] <= have[n]
  }

  lemma OnePodSet(u: UnitRecord, p: PodSet)
    requires u.podSets == [p]
    ensures Requirements(u) == map[p.name := p.count]
  {
    assert u.podSets[..0] == [];
    assert PodSetCounts(u.podSets[..0]) == map[];
  }

  lemma OneAdmission(u: UnitRecord, a: Admission)
    requires u.admissions == [a]
    ensures Admitted(u.admissions) == map[a.name := a.replicas]
  {
    assert u.admissions[..0] == [];
    assert Admitted(u.admissions[..0]) == map[];
  }

  /** Pod set names are unique, as the list-map key of the API demands. */
  predicate UniquePodSets(podSets: seq<PodSet>) {
    forall i, j :: 0 <= i < j < |podSets| ==> podSets[i].name != podSets[j].name
  }

  /** Some admission has the replicas of a pod set. */
  predicate Admits(ads: seq<Admission>, p: PodSet) {
    exists j :: 0 <= j < |ads| && ads[j].name == p.name && p.count <= ads[j].replicas
  }

  /** A unit with pod sets is satisfied exactly when each of them is admitted with at least its
      count; one with a request alone when the default is admitted. */
  lemma SatisfiedIff(u: UnitRecord)
    requires UniquePodSets(u.podSets) && UniqueNames(u.admissions)
    ensures u.podSets != [] ==> (IsSatisfied(u) <==> forall i :: 0 <= i < |u.podSets| ==> Admits(u.admissions, u.podSets[i]))
    ensures u.podSets == [] ==>
      (IsSatisfied(u) <==> u.request == map[] || Admits(u.admissions, PodSet(DEFAULT_REQUIREMENT, 1, u.request)))
  {
    if u.podSets != [] {
      forall i | 0 <= i < |u.podSets|
        ensures u.podSets[i].name in Requirements(u) && Requirements(u)[u.podSets[i].name] == u.podSets[i].count
        ensures Admits(u.admissions, u.podSets[i]) <==> Met(u, u.podSets[i].name)
      {
        LastCountWins(u.podSets, i);
        MetIff(u, u.podSets[i]);
      }
      forall n | n in Requirements(u) ensures exists i :: 0 <= i < |u.podSets| && u.podSets[i].name == n {
        var i := CountedNames(u.podSets, n);
      }
    } else if u.request != map[] {
      MetIff(u, PodSet(DEFAULT_REQUIREMENT, 1, u.request));
    }
    assert IsSatisfied(u) <==> forall n :: n in Requirements(u) ==> Met(u, n);
  }

  predicate Met(u: UnitRecord, n: string)
    requires n in Requirements(u)
  {
    n in Admitted(u.admissions) && Requirements(u)[n] <= Admitted(u.admissions)[n]
  }

  lemma MetIff(u: UnitRecord, p: PodSet)
    requires UniqueNames(u.admissions) && p.name in Requirements(u) && Requirements(u)[p.name] == p.count
    ensures Met(u, p.name) <==> Admits(u.admissions, p)
  {
    AdmittedName(u.admissions, p.name);
    forall j | 0 <= j < |u.admissions|
      ensures u.admissions[j].name in Admitted(u.admissions) && Admitted(u.admissions)[u.admissions[j].name] == u.admissions[j].replicas
    {
      LastAdmissionWins(u.admissions, j);
    }
  }

  lemma AdmittedName(ads: seq<Admission>, n: string)
    requires UniqueNames(ads)
    ensures n in Admitted(ads) <==> exists j :: 0 <= j < |ads| && ads[j].name == n
  {
    if n in Admitted(ads) {
      var i := AdmittedNames(ads, n);
    }
    if j :| 0 <= j < |ads| && ads[j].name == n {
      LastAdmissionWins(ads, j);
    }
  }

  predicate IsAllRunning(u: UnitRecord) {
    u.admissions != [] &&
    forall i :: 0 <= i < |u.admissions| ==> u.admissions[i].replicas <= u.admissions[i].running
  }

  predicate IsReservedNotRun(u: UnitRecord) {
    u.admissions != [] && !IsAllRunning(u)
  }

  function PendingReclaim(a: Admission): int {
    if a.reclaim.Some? && 0 < a.reclaim.value then a.reclaim.value else 0
  }

  predicate IsReservedAny(u: UnitRecord) {
    HoldsAny(u.admissions)
  }

  /** Some admission keeps a replica after what is to be given back, or uses resources. */
  predicate HoldsAny(ads: seq<Admission>) {
    exists i :: 0 <= i < |ads| &&
      (0 < ads[i].replicas - PendingReclaim(ads[i]) || exists k :: k in ads[i].resources && 0 < ads[i].resources[k])
  }

  predicate IsDequeued(u: UnitRecord) {
    IsV1Dequeued(u) || u.phase in {Succeed, Failed} ||
    (IsSatisfied(u) && (IsAllRunning(u) || u.podSets == []))
  }

  predicate IsActive(u: UnitRecord) {
    u.active.None? || u.active.value
  }

  function Priority(u: UnitRecord): int {
    if u.priority.Some? then u.priority.value else 0
  }

  /** Within the protection time after its last allocation nothing is reclaimed from a unit. */
  predicate Protected(u: UnitRecord, now: int, protectTime: int) {
    0 < protectTime && u.lastAllocate.Some? && now - u.lastAllocate.value < protectTime
  }

  /** IsResourceReleased: admissions were dropped, added or shrunk. */
  predicate IsResourceReleased(old_: UnitRecord, new_: UnitRecord) {
    var a, b := Admitted(old_.admissions), Admitted(new_.admissions);
    |a| != |b| || exists n :: n in a && (if n in b then b[n] else 0) < a[n]
  }

  /** What the unit needs of that name has grown, or an empty admission is gone. */
  predicate NeedsMore(old_: UnitRecord, new_: UnitRecord, n: string) {
    n in Requirements(new_) &&
    var a := Admitted(old_.admissions);
    || n !in Requirements(old_) || Requirements(old_)[n] < Requirements(new_)[n]
    || (n in a && a[n] <= 0 && n !in Admitted(new_.admissions))
  }

  // ---------- What the verdicts say ----------

  /** Something is left of an admission: replicas that are not to be given back, or resources. */
  ghost predicate HasLeft(a: Admission) {
    || 0 < a.replicas - (if a.reclaim.Some? then Max(0, a.reclaim.value) else 0)
    || exists k :: k in a.resources && 0 < a.resources[k]
  }

  ghost predicate AnyLeft(ads: seq<Admission>) {
    exists i :: 0 <= i < |ads| && HasLeft(ads[i])
  }

  /** Some admitted replica does not run. */
  ghost predicate AnyIdle(ads: seq<Admission>) {
    exists i :: 0 <= i < |ads| && ads[i].running < ads[i].replicas
  }

  lemma ReservedIff(u: UnitRecord)
    ensures IsReservedAny(u) <==> AnyLeft(u.admissions)
    ensures IsAllRunning(u) <==> u.admissions != [] && !AnyIdle(u.admissions)
    ensures IsReservedNotRun(u) <==> AnyIdle(u.admissions)
  {
    forall i | 0 <= i < |u.admissions|
      ensures HasLeft(u.admissions[i]) <==> 0 < u.admissions[i].replicas - PendingReclaim(u.admissions[i]) ||
                                            exists k :: k in u.admissions[i].resources && 0 < u.admissions[i].resources[k]
    {
    }
  }

  /** A unit is through with the queue once its job ended, once it is past the queue without
      admissions, or once every pod set is admitted in full and all that is admitted runs. */
  lemma DequeuedIff(u: UnitRecord)
    requires UniquePodSets(u.podSets) && UniqueNames(u.admissions) && u.podSets != []
    ensures IsDequeued(u) <==>
      || u.phase in {Succeed, Failed}
      || (u.admissions == [] && u.phase in {Dequeued, Reserved, Running, SchedReady, SchedSucceed})
      || ((forall i :: 0 <= i < |u.podSets| ==> Admits(u.admissions, u.podSets[i])) && u.admissions != [] && !AnyIdle(u.admissions))
  {
    SatisfiedIff(u);
    ReservedIff(u);
  }

  /** The names with their running and admitted replicas. */
  ghost function Shapes(ads: seq<Admission>): set<(string, int, int)> {
    set i | 0 <= i < |ads| :: (ads[i].name, ads[i].running, ads[i].replicas)
  }

  lemma {:induction false} ShapesCount(ads: seq<Admission>)
    requires UniqueNames(ads)
    ensures |Shapes(ads)| == |ads|
  {
    if ads != [] {
      var n := |ads| - 1;
      ShapesCount(ads[..n]);
      ShapesLast(ads);
    }
  }

  lemma ShapesLast(ads: seq<Admission>)
    requires UniqueNames(ads) && ads != []
    ensures var n := |ads| - 1;
      var t := (ads[n].name, ads[n].running, ads[n].replicas);
      UniqueNames(ads[..n]) && Shapes(ads) == Shapes(ads[..n]) + {t} && t !in Shapes(ads[..n])
  {
    var n := |ads| - 1;
    assert forall i :: 0 <= i < n ==> ads[..n][i] == ads[i];
    forall t | t in Shapes(ads) ensures t in Shapes(ads[..n]) || t == (ads[n].name, ads[n].running, ads[n].replicas) {
      var i :| 0 <= i < |ads| && t == (ads[i].name, ads[i].running, ads[i].replicas);
      assert i < n ==> ads[..n][i] == ads[i];
    }
  }

  lemma IdleByShape(ads: seq<Admission>)
    ensures AnyIdle(ads) <==> exists t :: t in Shapes(ads) && t.1 < t.2
  {
    if i :| 0 <= i < |ads| && ads[i].running < ads[i].replicas {
      assert (ads[i].name, ads[i].running, ads[i].replicas) in Shapes(ads);
    }
  }

  lemma {:induction false} AdmittedCount(ads: seq<Admission>)
    requires UniqueNames(ads)
    ensures |Admitted(ads)| == |ads|
  {
    if ads != [] {
      var n := |ads| - 1;
      AdmittedCount(ads[..n]);
      if ads[n].name in Admitted(ads[..n]) {
        var i := AdmittedNames(ads[..n], ads[n].name);
        assert false;
      }
      assert Admitted(ads).Keys == Admitted(ads[..n]).Keys + {ads[n].name};
    }
  }

  lemma LoweredIff(a: Admission, ads: seq<Admission>)
    requires UniqueNames(ads)
    ensures Lowered(a, ads) <==> (if a.name in Admitted(ads) then Admitted(ads)[a.name] else 0) < a.replicas
  {
    AdmittedName(ads, a.name);
    if j :| 0 <= j < |ads| && ads[j].name == a.name {
      LastAdmissionWins(ads, j);
    }
  }

  /** Something was released: there is another number of admissions, or fewer replicas are
      admitted under some name. */
  lemma ReleasedIff(before: UnitRecord, after: UnitRecord)
    requires UniqueNames(before.admissions) && UniqueNames(after.admissions)
    ensures IsResourceReleased(before, after) <==>
      || |before.admissions| != |after.admissions|
      || exists i :: 0 <= i < |before.admissions| && Lowered(before.admissions[i], after.admissions)
  {
    AdmittedCount(before.admissions);
    AdmittedCount(after.admissions);
    var a, b := Admitted(before.admissions), Admitted(after.admissions);
    forall i | 0 <= i < |before.admissions|
      ensures before.admissions[i].name in a && a[before.admissions[i].name] == before.admissions[i].replicas
      ensures Lowered(before.admissions[i], after.admissions) <==>
        (if before.admissions[i].name in b then b[before.admissions[i].name] else 0) < before.admissions[i].replicas
    {
      LastAdmissionWins(before.admissions, i);
      LoweredIff(before.admissions[i], after.admissions);
    }
    forall n | n in a ensures exists i :: 0 <= i < |before.admissions| && before.admissions[i].name == n {
      var i := AdmittedNames(before.admissions, n);
    }
  }

  /** The admission of that name, if there is one, has fewer replicas. */
  ghost predicate Lowered(a: Admission, ads: seq<Admission>) {
    if exists j :: 0 <= j < |ads| && ads[j].name == a.name
    then exists j :: 0 <= j < |ads| && ads[j].name == a.name && ads[j].replicas < a.replicas
    else 0 < a.replicas
  }

  /** Without a release a satisfied unit becomes unsatisfied only by needing more. */
  lemma SilentOpening(old_: UnitRecord, new_: UnitRecord)
    requires IsSatisfied(old_) && !IsSatisfied(new_) && !IsResourceReleased(old_, new_)
    ensures exists n :: NeedsMore(old_, new_, n)
  {
    var a, b := Admitted(old_.admissions), Admitted(new_.admissions);
    var n :| n in Requirements(new_) && !(n in b && Requirements(new_)[n] <= b[n]);
    assert n in a ==> a[n] <= if n in b then b[n] else 0;
    assert NeedsMore(old_, new_, n);
  }

  /** Names of the admissions are unique, as the list-map key of the API demands. */
  predicate UniqueNames(ads: seq<Admission>) {
    forall i, j :: 0 <= i < j < |ads| ==> ads[i].name != ads[j].name
  }
}
