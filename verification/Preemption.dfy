/** dryRunPreemption: which assumed units a preemptor pushes out, from the last in the
    order upwards, until the resources they release cover its requirement. */
module Preemption {
  import opened Amounts
  import opened QueueUnits
  import opened UnitOrder
  import opened SortedSlots
  import opened UnitInfos

  // ---------- What a unit can give back ----------

  function ReclaimableOf(ads: seq<Admission>): map<string, int> {
    if ads == [] then map[]
    else
      var rest, a := ReclaimableOf(ads[..|ads| - 1]), ads[|ads| - 1];
      if a.replicas == a.running || a.reclaim.Some? then rest else rest[a.name := a.replicas - a.running]
  }

  /** GetResourcesCanReclaim: replicas that are admitted but not running, per pod set;
      nothing while the unit is protected. */
  function CanReclaim(u: UnitRecord, now: int, protectTime: int): map<string, int> {
    if Protected(u, now, protectTime) then map[] else ReclaimableOf(u.admissions)
  }

  /** ConvertFromAdmissionToResource: the first pod set of each name, scaled. */
  function Resources(u: UnitRecord, ads: map<string, int>): Amount {
    if DEFAULT_REQUIREMENT in ads then AddResource(map[], u.request)
    else PodSetResources(u.podSets, ads)
  }

  function PodSetResources(podSets: seq<PodSet>, ads: map<string, int>): Amount {
    if podSets == [] then map[]
    else if podSets[0].name in ads then
      Plus(Scale(podSets[0].perPod, ads[podSets[0].name]), PodSetResources(podSets[1..], ads - {podSets[0].name}))
    else PodSetResources(podSets[1..], ads)
  }

  /** What a list of victims releases together. */
  function Released(victims: seq<UnitRecord>, now: int, protectTime: int): Amount {
    if victims == [] then map[]
    else
      var v := victims[|victims| - 1];
      AddResource(Released(victims[..|victims| - 1], now, protectTime), Resources(v, CanReclaim(v, now, protectTime)))
  }

  // ---------- How much that is ----------

  /** The names that are asked for and have a pod set. */
  ghost function Named(podSets: seq<PodSet>, ads: map<string, int>): set<string> {
    set n | n in ads && HasPodSet(podSets, n)
  }

  /** For each such name, the replicas by the request of a pod of its first pod set. */
  ghost function NamedCosts(podSets: seq<PodSet>, ads: map<string, int>, k: string): (f: map<string, int>)
    ensures f.Keys == Named(podSets, ads)
  {
    map n | n in Named(podSets, ads) :: ads[n] * At(FindPodSet(podSets, n).perPod, k)
  }

  lemma {:induction false} PodSetsSum(podSets: seq<PodSet>, ads: map<string, int>, k: string)
    ensures At(PodSetResources(podSets, ads), k) == Sum(Named(podSets, ads), NamedCosts(podSets, ads, k))
    decreases podSets
  {
    if podSets == [] {
      assert Named(podSets, ads) == {};
    } else {
      var p, rest := podSets[0], podSets[1..];
      var ads' := ads - {p.name};
      if p.name in ads {
        PodSetsSum(rest, ads', k);
        FirstTakesName(podSets, ads, k);
        PlusAt(Scale(p.perPod, ads[p.name]), PodSetResources(rest, ads'), k);
        ScaleAt(p.perPod, ads[p.name], k);
      } else {
        PodSetsSum(rest, ads, k);
        FirstIsSkipped(podSets, ads, k);
      }
    }
  }

  lemma {:induction false} FirstTakesName(podSets: seq<PodSet>, ads: map<string, int>, k: string)
    requires podSets != [] && podSets[0].name in ads
    ensures var p, rest, ads' := podSets[0], podSets[1..], ads - {podSets[0].name};
      Sum(Named(podSets, ads), NamedCosts(podSets, ads, k)) ==
      ads[p.name] * At(p.perPod, k) + Sum(Named(rest, ads'), NamedCosts(rest, ads', k))
  {
    var p, rest, ads' := podSets[0], podSets[1..], ads - {podSets[0].name};
    NamedRest(podSets, ads, k);
    SumRemove(Named(podSets, ads), NamedCosts(podSets, ads, k), p.name);
    SumAgrees(Named(rest, ads'), NamedCosts(rest, ads', k), NamedCosts(podSets, ads, k));
  }

  lemma {:induction false} FirstIsSkipped(podSets: seq<PodSet>, ads: map<string, int>, k: string)
    requires podSets != [] && podSets[0].name !in ads
    ensures Sum(Named(podSets, ads), NamedCosts(podSets, ads, k)) == Sum(Named(podSets[1..], ads), NamedCosts(podSets[1..], ads, k))
  {
    var rest, ads' := podSets[1..], ads - {podSets[0].name};
    assert ads' == ads;
    NamedRest(podSets, ads, k);
    var s := Named(podSets, ads);
    assert s - {podSets[0].name} == s == Named(rest, ads);
    SumAgrees(s, NamedCosts(rest, ads, k), NamedCosts(podSets, ads, k));
  }

  /** The first pod set takes its name, and the others are those of the rest. */
  lemma {:induction false} NamedRest(podSets: seq<PodSet>, ads: map<string, int>, k: string)
    requires podSets != []
    ensures var p, rest, ads' := podSets[0], podSets[1..], ads - {podSets[0].name};
      && Named(podSets, ads) - {p.name} == Named(rest, ads')
      && (p.name in ads ==> p.name in Named(podSets, ads) && NamedCosts(podSets, ads, k)[p.name] == ads[p.name] * At(p.perPod, k))
      && (p.name !in ads ==> p.name !in Named(podSets, ads))
      && forall n :: n in Named(rest, ads') ==> NamedCosts(rest, ads', k)[n] == NamedCosts(podSets, ads, k)[n]
  {
    var p, rest := podSets[0], podSets[1..];
    forall n | n != p.name ensures HasPodSet(podSets, n) <==> HasPodSet(rest, n) {
      if HasPodSet(podSets, n) {
        var i :| 0 <= i < |podSets| && podSets[i].name == n;
        assert rest[i - 1] == podSets[i];
      }
      if HasPodSet(rest, n) {
        var i :| 0 <= i < |rest| && rest[i].name == n;
        assert podSets[i + 1] == rest[i];
      }
    }
    assert podSets[0].name == p.name;
  }

  /** What a list of replicas by name amounts to: the sum over the names with a pod set, or the
      request of the unit for the default name. */
  lemma ResourcesAreSum(u: UnitRecord, ads: map<string, int>, k: string)
    ensures At(Resources(u, ads), k) ==
      if DEFAULT_REQUIREMENT in ads then At(u.request, k)
      else Sum(Named(u.podSets, ads), NamedCosts(u.podSets, ads, k))
  {
    PodSetsSum(u.podSets, ads, k);
  }

  /** The admissions with replicas that neither run nor are to be given back already. */
  ghost function Idle(ads: seq<Admission>): set<string> {
    set i | 0 <= i < |ads| && ads[i].replicas != ads[i].running && ads[i].reclaim.None? :: ads[i].name
  }

  lemma {:induction false} ReclaimableIff(ads: seq<Admission>)
    requires UniqueNames(ads)
    ensures ReclaimableOf(ads).Keys == Idle(ads)
    ensures forall i :: 0 <= i < |ads| && ads[i].name in Idle(ads) ==> ReclaimableOf(ads)[ads[i].name] == ads[i].replicas - ads[i].running
  {
    if ads != [] {
      var n := |ads| - 1;
      assert UniqueNames(ads[..n]);
      ReclaimableIff(ads[..n]);
      assert Idle(ads) == Idle(ads[..n]) + if ads[n].replicas == ads[n].running || ads[n].reclaim.Some? then {} else {ads[n].name};
      assert forall i :: 0 <= i < n ==> ads[..n][i] == ads[i] && ads[i].name != ads[n].name;
    }
  }

  /** What a victim gives back of a resource: nothing while it is protected; its request if the
      default admission is idle; otherwise the idle replicas of each admission with a pod set,
      by the request of a pod. */
  /** A victim can give back the idle replicas of its admissions, once its last allocation is
      long enough ago. */
  lemma CanReclaimIff(v: UnitRecord, now: int, protectTime: int)
    requires UniqueNames(v.admissions)
    ensures CanReclaim(v, now, protectTime).Keys ==
      if 0 < protectTime && v.lastAllocate.Some? && now < v.lastAllocate.value + protectTime then {} else Idle(v.admissions)
    ensures forall i :: 0 <= i < |v.admissions| && v.admissions[i].name in CanReclaim(v, now, protectTime) ==>
      CanReclaim(v, now, protectTime)[v.admissions[i].name] == v.admissions[i].replicas - v.admissions[i].running
  {
    ReclaimableIff(v.admissions);
  }

  ghost function Gives(v: UnitRecord, now: int, protectTime: int, k: string): int
    requires UniqueNames(v.admissions)
  {
    if 0 < protectTime && v.lastAllocate.Some? && now - v.lastAllocate.value < protectTime then 0
    else if DEFAULT_REQUIREMENT in Idle(v.admissions) then At(v.request, k)
    else Sum(Indices(|v.admissions|), IdleCosts(v, v.admissions, k))
  }

  ghost function IdleCosts(v: UnitRecord, ads: seq<Admission>, k: string): (f: map<int, int>)
    ensures f.Keys == Indices(|ads|)
  {
    map i | i in Indices(|ads|) :: IdleCost(v, ads[i], k)
  }

  function IdleCost(v: UnitRecord, a: Admission, k: string): int {
    if a.reclaim.Some? || !HasPodSet(v.podSets, a.name) then 0
    else (a.replicas - a.running) * At(FindPodSet(v.podSets, a.name).perPod, k)
  }

  /** The sum over the idle names is the sum over the admissions. */
  lemma {:induction false} SumByAdmission(v: UnitRecord, ads: seq<Admission>, k: string)
    requires UniqueNames(ads)
    ensures Sum(Named(v.podSets, ReclaimableOf(ads)), NamedCosts(v.podSets, ReclaimableOf(ads), k)) ==
            Sum(Indices(|ads|), IdleCosts(v, ads, k))
  {
    if ads == [] {
      assert Named(v.podSets, ReclaimableOf(ads)) == {};
    } else {
      var n := |ads| - 1;
      assert UniqueNames(ads[..n]);
      SumByAdmission(v, ads[..n], k);
      IdleLast(v, ads, k);
      OneMoreIdle(v, ads, k);
    }
  }

  lemma {:induction false} IdleLast(v: UnitRecord, ads: seq<Admission>, k: string)
    requires ads != []
    ensures var n := |ads| - 1;
      Sum(Indices(|ads|), IdleCosts(v, ads, k)) == Sum(Indices(n), IdleCosts(v, ads[..n], k)) + IdleCost(v, ads[n], k)
  {
    var n := |ads| - 1;
    SumLast(n, IdleCosts(v, ads[..n], k), IdleCosts(v, ads, k));
  }

  lemma {:induction false} OneMoreIdle(v: UnitRecord, ads: seq<Admission>, k: string)
    requires UniqueNames(ads) && ads != []
    ensures var n := |ads| - 1;
      Sum(Named(v.podSets, ReclaimableOf(ads)), NamedCosts(v.podSets, ReclaimableOf(ads), k)) ==
      Sum(Named(v.podSets, ReclaimableOf(ads[..n])), NamedCosts(v.podSets, ReclaimableOf(ads[..n]), k)) + IdleCost(v, ads[n], k)
  {
    var n := |ads| - 1;
    var a, r, r' := ads[n], ReclaimableOf(ads[..n]), ReclaimableOf(ads);
    assert UniqueNames(ads[..n]);
    ReclaimableIff(ads[..n]);
    assert a.name !in r;
    var s, s' := Named(v.podSets, r), Named(v.podSets, r');
    SumAgrees(s, NamedCosts(v.podSets, r, k), NamedCosts(v.podSets, r', k));
    if a.replicas != a.running && a.reclaim.None? && HasPodSet(v.podSets, a.name) {
      assert s' == s + {a.name};
      SumInsert(s, NamedCosts(v.podSets, r', k), a.name);
    } else {
      assert s' == s;
    }
  }

  lemma GivesIsReclaimable(v: UnitRecord, now: int, protectTime: int, k: string)
    requires UniqueNames(v.admissions)
    ensures At(Resources(v, CanReclaim(v, now, protectTime)), k) == Gives(v, now, protectTime, k)
  {
    var ads := CanReclaim(v, now, protectTime);
    ResourcesAreSum(v, ads, k);
    if Protected(v, now, protectTime) {
      assert Named(v.podSets, ads) == {};
    } else {
      ReclaimableIff(v.admissions);
      SumByAdmission(v, v.admissions, k);
    }
  }

  ghost function GivesOf(victims: seq<UnitRecord>, now: int, protectTime: int, k: string): (f: map<int, int>)
    requires forall i :: 0 <= i < |victims| ==> UniqueNames(victims[i].admissions)
    ensures f.Keys == Indices(|victims|)
  {
    map i | i in Indices(|victims|) :: Gives(victims[i], now, protectTime, k)
  }

  /** The victims release together what each of them gives back. */
  lemma {:induction false} ReleasedIsSum(victims: seq<UnitRecord>, now: int, protectTime: int, k: string)
    requires forall i :: 0 <= i < |victims| ==> UniqueNames(victims[i].admissions)
    ensures At(Released(victims, now, protectTime), k) == Sum(Indices(|victims|), GivesOf(victims, now, protectTime, k))
  {
    if victims != [] {
      var n := |victims| - 1;
      ReleasedIsSum(victims[..n], now, protectTime, k);
      SumLast(n, GivesOf(victims[..n], now, protectTime, k), GivesOf(victims, now, protectTime, k));
      GivesIsReclaimable(victims[n], now, protectTime, k);
      AddResourceAt(Released(victims[..n], now, protectTime), Resources(victims[n], CanReclaim(victims[n], now, protectTime)), k);
    }
  }

  /** What a preemptor needs of a resource: the counts of its pod sets by the request of a pod,
      or its request if it has no pod sets. */
  lemma NeedIsSum(u: UnitRecord, k: string)
    requires UniquePodSets(u.podSets) && forall i :: 0 <= i < |u.podSets| ==> u.podSets[i].name != DEFAULT_REQUIREMENT
    ensures At(Resources(u, Requirements(u)), k) == if u.podSets == [] then At(u.request, k) else Sum(Indices(|u.podSets|), CountCosts(u.podSets, k))
  {
    ResourcesAreSum(u, Requirements(u), k);
    if u.podSets == [] {
      assert u.request == map[] ==> Named(u.podSets, Requirements(u)) == {};
    } else {
      if DEFAULT_REQUIREMENT in Requirements(u) {
        var i := CountedNames(u.podSets, DEFAULT_REQUIREMENT);
      }
      SumByPodSet(u.podSets, u.podSets, k);
    }
  }

  ghost function CountCosts(podSets: seq<PodSet>, k: string): (f: map<int, int>)
    ensures f.Keys == Indices(|podSets|)
  {
    map i | i in Indices(|podSets|) :: podSets[i].count * At(podSets[i].perPod, k)
  }

  lemma {:induction false} SumByPodSet(all: seq<PodSet>, podSets: seq<PodSet>, k: string)
    requires UniquePodSets(all) && podSets <= all
    ensures Sum(Named(all, PodSetCounts(podSets)), NamedCosts(all, PodSetCounts(podSets), k)) ==
            Sum(Indices(|podSets|), CountCosts(podSets, k))
    decreases |podSets|
  {
    if podSets == [] {
      assert Named(all, PodSetCounts(podSets)) == {};
    } else {
      var n := |podSets| - 1;
      SumByPodSet(all, podSets[..n], k);
      SumLast(n, CountCosts(podSets[..n], k), CountCosts(podSets, k));
      OneMorePodSet(all, podSets, k);
    }
  }

  lemma {:induction false} OneMorePodSet(all: seq<PodSet>, podSets: seq<PodSet>, k: string)
    requires UniquePodSets(all) && podSets <= all && podSets != []
    ensures var n := |podSets| - 1;
      Sum(Named(all, PodSetCounts(podSets)), NamedCosts(all, PodSetCounts(podSets), k)) ==
      Sum(Named(all, PodSetCounts(podSets[..n])), NamedCosts(all, PodSetCounts(podSets[..n]), k)) +
      podSets[n].count * At(podSets[n].perPod, k)
  {
    var n := |podSets| - 1;
    var p, r, r' := podSets[n], PodSetCounts(podSets[..n]), PodSetCounts(podSets);
    assert all[n] == p;
    if p.name in r {
      var i := CountedNames(podSets[..n], p.name);
    }
    var j := FirstOfName(all, p.name);
    assert j == n;
    var s, s' := Named(all, r), Named(all, r');
    assert s' == s + {p.name};
    SumAgrees(s, NamedCosts(all, r, k), NamedCosts(all, r', k));
    SumInsert(s, NamedCosts(all, r', k), p.name);
  }

  /** A victim as the API admits it: amounts are not negative and no more replicas
      run than are admitted. */
  predicate Giving(v: UnitRecord) {
    && NonNegative(v.request)
    && (forall i :: 0 <= i < |v.podSets| ==> NonNegative(v.podSets[i].perPod))
    && (forall i :: 0 <= i < |v.admissions| ==> v.admissions[i].running <= v.admissions[i].replicas)
  }

  lemma GivesNonNegative(v: UnitRecord, now: int, protectTime: int, k: string)
    requires Giving(v) && UniqueNames(v.admissions)
    ensures 0 <= Gives(v, now, protectTime, k)
  {
    var f := IdleCosts(v, v.admissions, k);
    forall i | i in Indices(|v.admissions|) ensures 0 <= f[i] {
      var a := v.admissions[i];
      if HasPodSet(v.podSets, a.name) {
        assert NonNegative(FindPodSet(v.podSets, a.name).perPod);
        assert 0 <= (a.replicas - a.running) * At(FindPodSet(v.podSets, a.name).perPod, k);
      }
    }
    SumNonNegative(Indices(|v.admissions|), f);
  }

  lemma {:induction false} ReleasedNonNegative(victims: seq<UnitRecord>, now: int, protectTime: int)
    requires forall i :: 0 <= i < |victims| ==> Giving(victims[i]) && UniqueNames(victims[i].admissions)
    ensures NonNegative(Released(victims, now, protectTime))
  {
    forall k | k in Released(victims, now, protectTime) ensures 0 <= Released(victims, now, protectTime)[k] {
      ReleasedIsSum(victims, now, protectTime, k);
      forall i | i in Indices(|victims|) ensures 0 <= GivesOf(victims, now, protectTime, k)[i] {
        GivesNonNegative(victims[i], now, protectTime, k);
      }
      SumNonNegative(Indices(|victims|), GivesOf(victims, now, protectTime, k));
    }
  }

  /** The need is covered exactly when the victims give back enough of every resource. */
  lemma CoveredIff(victims: seq<UnitRecord>, need: Amount, now: int, protectTime: int)
    requires forall i :: 0 <= i < |victims| ==> Giving(victims[i]) && UniqueNames(victims[i].admissions)
    ensures Covers(Released(victims, now, protectTime), need) <==>
            forall k :: At(need, k) <= Sum(Indices(|victims|), GivesOf(victims, now, protectTime, k))
  {
    ReleasedNonNegative(victims, now, protectTime);
    CoversIff(Released(victims, now, protectTime), need);
    forall k ensures At(Released(victims, now, protectTime), k) == Sum(Indices(|victims|), GivesOf(victims, now, protectTime, k)) {
      ReleasedIsSum(victims, now, protectTime, k);
    }
  }

  // ---------- The greedy choice ----------

  /** The units of a tail of the sorted slice that have something to give back, last first. */
  function VictimsOf(tail: seq<Slot<UnitRecord>>, now: int, protectTime: int): seq<UnitRecord> {
    if tail == [] then []
    else
      VictimsOf(tail[1..], now, protectTime) +
      if CanReclaim(tail[0].item, now, protectTime) == map[] then [] else [tail[0].item]
  }

  function SlotsOfUnits(us: seq<UnitRecord>): seq<Slot<UnitRecord>> {
    seq(|us|, i requires 0 <= i < |us| => Slot(RankOf(us[i]), us[i]))
  }

  /** The slice is cut at `kept`: everything behind the cut comes strictly after the
      preemptor and is a victim if it has anything to give back, and the last victim was
      needed. */
  ghost predicate Cut(sorted: seq<Slot<UnitRecord>>, p: Rank, need: Amount, kept: nat, victims: seq<UnitRecord>,
                      now: int, protectTime: int) {
    && kept <= |sorted|
    && victims == VictimsOf(sorted[kept..], now, protectTime)
    && (forall i :: kept <= i < |sorted| ==> Less(p, sorted[i].rank) < 0)
    && (victims != [] ==> !Covers(Released(victims[..|victims| - 1], now, protectTime), need))
  }

  /** The cut is deep enough: the requirement is covered or only units remain that do not
      come after the preemptor. */
  ghost predicate DeepEnough(sorted: seq<Slot<UnitRecord>>, p: Rank, need: Amount, kept: nat, victims: seq<UnitRecord>,
                             now: int, protectTime: int)
    requires kept <= |sorted|
  {
    Covers(Released(victims, now, protectTime), need) || kept == 0 || Less(p, sorted[kept - 1].rank) >= 0
  }

  /** The replicas recorded for the victims are those they can give back. */
  ghost predicate Records(replicas: map<string, map<string, int>>, victims: seq<UnitRecord>, now: int, protectTime: int) {
    && (forall i :: 0 <= i < |victims| ==> victims[i].key in replicas)
    && (forall k {:trigger IsRecord(replicas, victims, k, now, protectTime)} :: k in replicas ==> IsRecord(replicas, victims, k, now, protectTime))
  }

  ghost predicate IsRecord(replicas: map<string, map<string, int>>, victims: seq<UnitRecord>, k: string, now: int, protectTime: int)
    requires k in replicas
  {
    exists i :: 0 <= i < |victims| && victims[i].key == k && replicas[k] == CanReclaim(victims[i], now, protectTime)
  }

  lemma RecordMore(replicas: map<string, map<string, int>>, victims: seq<UnitRecord>, v: UnitRecord, now: int, protectTime: int)
    requires Records(replicas, victims, now, protectTime)
    ensures Records(replicas[v.key := CanReclaim(v, now, protectTime)], victims + [v], now, protectTime)
  {
    var r, vs := replicas[v.key := CanReclaim(v, now, protectTime)], victims + [v];
    forall k | k in r ensures IsRecord(r, vs, k, now, protectTime) {
      if k == v.key {
        assert vs[|victims|] == v;
      } else {
        assert IsRecord(replicas, victims, k, now, protectTime);
        var i :| 0 <= i < |victims| && victims[i].key == k && replicas[k] == CanReclaim(victims[i], now, protectTime);
        assert vs[i] == victims[i];
      }
    }
  }

  /** Popping the last unit that is left. */
  lemma CutOneMore(sorted: seq<Slot<UnitRecord>>, p: Rank, need: Amount, kept: nat, victims: seq<UnitRecord>, now: int, protectTime: int)
    requires kept < |sorted| && Cut(sorted, p, need, kept + 1, victims, now, protectTime)
    requires Less(p, sorted[kept].rank) < 0 && !Covers(Released(victims, now, protectTime), need)
    ensures var u := sorted[kept].item;
      Cut(sorted, p, need, kept, victims + if CanReclaim(u, now, protectTime) == map[] then [] else [u], now, protectTime)
  {
    assert sorted[kept..][1..] == sorted[kept + 1..];
    var u := sorted[kept].item;
    if CanReclaim(u, now, protectTime) == map[] {
      assert victims + [] == victims;
    } else {
      assert (victims + [u])[..|victims|] == victims;
    }
  }

  lemma ReleasedMore(victims: seq<UnitRecord>, u: UnitRecord, now: int, protectTime: int)
    ensures Released(victims + [u], now, protectTime) ==
            AddResource(Released(victims, now, protectTime), Resources(u, CanReclaim(u, now, protectTime)))
  {
    assert (victims + [u])[..|victims|] == victims;
  }

  /** The state of the loop: the cut so far, what it releases and the records. */
  ghost predicate Progress(sorted: seq<Slot<UnitRecord>>, p: Rank, need: Amount, kept: nat, victims: seq<UnitRecord>, released: Amount,
                           replicas: map<string, map<string, int>>, now: int, protectTime: int) {
    && Cut(sorted, p, need, kept, victims, now, protectTime)
    && released == Released(victims, now, protectTime)
    && Records(replicas, victims, now, protectTime)
  }

  lemma ProgressStart(sorted: seq<Slot<UnitRecord>>, p: Rank, need: Amount, now: int, protectTime: int)
    ensures Progress(sorted, p, need, |sorted|, [], map[], map[], now, protectTime)
  {
    assert sorted[|sorted|..] == [];
  }

  lemma ProgressMore(sorted: seq<Slot<UnitRecord>>, p: Rank, need: Amount, kept: nat, victims: seq<UnitRecord>, released: Amount,
                     replicas: map<string, map<string, int>>, now: int, protectTime: int)
    requires kept < |sorted| && Progress(sorted, p, need, kept + 1, victims, released, replicas, now, protectTime)
    requires Less(p, sorted[kept].rank) < 0 && !Covers(released, need)
    ensures var last := sorted[kept].item;
      var ps := CanReclaim(last, now, protectTime);
      if ps == map[] then Progress(sorted, p, need, kept, victims, released, replicas, now, protectTime)
      else Progress(sorted, p, need, kept, victims + [last], AddResource(released, Resources(last, ps)), replicas[last.key := ps], now, protectTime)
  {
    var last := sorted[kept].item;
    CutOneMore(sorted, p, need, kept, victims, now, protectTime);
    if CanReclaim(last, now, protectTime) == map[] {
      assert victims + [] == victims;
    } else {
      RecordMore(replicas, victims, last, now, protectTime);
      ReleasedMore(victims, last, now, protectTime);
    }
  }

  /** The loop of dryRunPreemption over the sorted candidates. */
  method PopVictims(sorted: seq<Slot<UnitRecord>>, p: Rank, need: Amount, now: int, protectTime: int)
      returns (victims: seq<UnitRecord>, replicas: map<string, map<string, int>>, ghost kept: nat)
    ensures Cut(sorted, p, need, kept, victims, now, protectTime) && DeepEnough(sorted, p, need, kept, victims, now, protectTime)
    ensures Records(replicas, victims, now, protectTime)
  {
    victims, replicas, kept := [], map[], |sorted|;
    var rest := sorted;
    var released: Amount := map[];
    ProgressStart(sorted, p, need, now, protectTime);
    while |rest| > 0 && Less(p, rest[|rest| - 1].rank) < 0 && !Covers(released, need)
      invariant kept == |rest| <= |sorted| && rest == sorted[..kept]
      invariant Progress(sorted, p, need, kept, victims, released, replicas, now, protectTime)
    {
      var last := rest[|rest| - 1].item;
      rest := rest[..|rest| - 1];
      kept := kept - 1;
      ProgressMore(sorted, p, need, kept, victims, released, replicas, now, protectTime);
      var ps := CanReclaim(last, now, protectTime);
      if ps == map[] {
        continue;
      }
      victims := victims + [last];
      replicas := replicas[last.key := ps];
      released := AddResource(released, Resources(last, ps));
    }
  }

  /** The chosen victims are a greedy cut of the sorted candidates. */
  method DryRunPreemption(preemptor: UnitRecord, quota: Option<string>, assumed: seq<UnitRecord>, now: int, protectTime: int)
      returns (victims: seq<UnitRecord>, replicas: map<string, map<string, int>>, ghost kept: nat)
    ensures quota.None? ==> victims == []
    ensures quota.Some? ==>
      var sorted, need := SortFunc(SlotsOfUnits(assumed)), Resources(preemptor, Requirements(preemptor));
      && Cut(sorted, RankOf(preemptor), need, kept, victims, now, protectTime)
      && DeepEnough(sorted, RankOf(preemptor), need, kept, victims, now, protectTime)
    ensures Records(replicas, victims, now, protectTime)
  {
    victims, replicas, kept := [], map[], 0;
    if quota.None? {
      return;
    }
    var sorted := SortFunc(SlotsOfUnits(assumed));
    var need := Resources(preemptor, Requirements(preemptor));
    victims, replicas, kept := PopVictims(sorted, RankOf(preemptor), need, now, protectTime);
  }

  // ---------- What the cut means ----------

  /** Copies of one unit agree among the assumed units and the preemptor. */
  ghost predicate Consistent(assumed: seq<UnitRecord>, preemptor: UnitRecord) {
    forall u, v :: (u in assumed || u == preemptor) && (v in assumed || v == preemptor) ==> Compatible(RankOf(u), RankOf(v))
  }

  /** `u` is served before `v`: a higher priority, or the same and created earlier, or as early
      and its key ascends to the other's. */
  ghost predicate UnitBefore(u: UnitRecord, v: UnitRecord) {
    Precedes(Priority(u), u.created, u.key, Priority(v), v.created, v.key)
  }

  /** Sorting the candidates of a consistent set: same units, in order. */
  lemma SortedCandidates(assumed: seq<UnitRecord>, preemptor: UnitRecord)
    requires Consistent(assumed, preemptor)
    ensures var sorted := SortFunc(SlotsOfUnits(assumed));
      && InOrder(sorted)
      && (forall i :: 0 <= i < |sorted| ==> sorted[i].item in assumed && sorted[i].rank == RankOf(sorted[i].item))
  {
    var slots := SlotsOfUnits(assumed);
    var rs := set u | u in assumed :: RankOf(u);
    assert AgreeOn(slots, rs);
    SortSorts(slots, rs);
    SortPermutes(slots);
    var sorted := SortFunc(slots);
    forall i | 0 <= i < |sorted| ensures sorted[i].item in assumed && sorted[i].rank == RankOf(sorted[i].item) {
      assert sorted[i] in multiset(sorted);
      assert sorted[i] in multiset(slots);
      var j :| 0 <= j < |slots| && slots[j] == sorted[i];
      assert assumed[j] in assumed;
    }
  }

  lemma {:induction false} VictimIsBehindCut(sorted: seq<Slot<UnitRecord>>, kept: nat, v: UnitRecord, now: int, protectTime: int)
      returns (i: nat)
    requires kept <= |sorted| && v in VictimsOf(sorted[kept..], now, protectTime)
    ensures kept <= i < |sorted| && sorted[i].item == v && CanReclaim(v, now, protectTime) != map[]
    decreases |sorted| - kept
  {
    assert kept < |sorted|;
    assert sorted[kept..][1..] == sorted[kept + 1..];
    if v in VictimsOf(sorted[kept + 1..], now, protectTime) {
      i := VictimIsBehindCut(sorted, kept + 1, v, now, protectTime);
    } else {
      i := kept;
    }
  }

  lemma {:induction false} BehindCutIsVictim(sorted: seq<Slot<UnitRecord>>, kept: nat, i: nat, now: int, protectTime: int)
    requires kept <= i < |sorted| && CanReclaim(sorted[i].item, now, protectTime) != map[]
    ensures sorted[i].item in VictimsOf(sorted[kept..], now, protectTime)
    decreases i - kept
  {
    assert sorted[kept..][1..] == sorted[kept + 1..];
    if kept < i {
      BehindCutIsVictim(sorted, kept + 1, i, now, protectTime);
    }
  }

  /** Preemption is ordered: every victim is an assumed unit strictly after the preemptor,
      no unit left untouched comes after a victim, and a unit that was passed over had
      nothing to give back. */
  lemma PreemptionIsOrdered(preemptor: UnitRecord, assumed: seq<UnitRecord>, need: Amount, kept: nat, victims: seq<UnitRecord>,
                            now: int, protectTime: int)
    requires Consistent(assumed, preemptor)
    requires Cut(SortFunc(SlotsOfUnits(assumed)), RankOf(preemptor), need, kept, victims, now, protectTime)
    ensures forall v :: v in victims ==> v in assumed && Less(RankOf(preemptor), RankOf(v)) < 0
    ensures forall v :: v in victims ==> UnitBefore(preemptor, v) && v.uid != preemptor.uid && CanReclaim(v, now, protectTime) != map[]
    ensures var sorted := SortFunc(SlotsOfUnits(assumed));
      && (forall i, v :: 0 <= i < kept && v in victims ==> Less(sorted[i].rank, RankOf(v)) <= 0)
      && (forall i :: kept <= i < |sorted| && sorted[i].item !in victims ==> CanReclaim(sorted[i].item, now, protectTime) == map[])
  {
    var sorted := SortFunc(SlotsOfUnits(assumed));
    SortedCandidates(assumed, preemptor);
    forall v | v in victims
      ensures v in assumed && Less(RankOf(preemptor), RankOf(v)) < 0 && UnitBefore(preemptor, v) && v.uid != preemptor.uid
      ensures CanReclaim(v, now, protectTime) != map[]
      ensures forall i :: 0 <= i < kept ==> Less(sorted[i].rank, RankOf(v)) <= 0
    {
      var j := VictimIsBehindCut(sorted, kept, v, now, protectTime);
      LessIff(RankOf(preemptor), RankOf(v));
    }
    forall i | kept <= i < |sorted| && CanReclaim(sorted[i].item, now, protectTime) != map[] ensures sorted[i].item in victims {
      BehindCutIsVictim(sorted, kept, i, now, protectTime);
    }
  }

  /** If the requirement is not covered in the end, no unit after the preemptor is left:
      the preemption took everything it was allowed to take. */
  lemma ExhaustedOrCovered(preemptor: UnitRecord, assumed: seq<UnitRecord>, need: Amount, kept: nat, victims: seq<UnitRecord>,
                           now: int, protectTime: int, i: nat)
    requires Consistent(assumed, preemptor)
    requires Cut(SortFunc(SlotsOfUnits(assumed)), RankOf(preemptor), need, kept, victims, now, protectTime)
    requires DeepEnough(SortFunc(SlotsOfUnits(assumed)), RankOf(preemptor), need, kept, victims, now, protectTime)
    requires !Covers(Released(victims, now, protectTime), need) && i < kept
    ensures Less(RankOf(preemptor), SortFunc(SlotsOfUnits(assumed))[i].rank) >= 0
  {
    var sorted, p := SortFunc(SlotsOfUnits(assumed)), RankOf(preemptor);
    SortedCandidates(assumed, preemptor);
    if Less(p, sorted[i].rank) < 0 && i < kept - 1 {
      LessTransitive(p, sorted[i].rank, sorted[kept - 1].rank);
    }
  }

  /** The choice of dryRunPreemption for `preemptor`: `kept` units stay, `victims` go. */
  ghost predicate Chosen(preemptor: UnitRecord, assumed: seq<UnitRecord>, kept: nat, victims: seq<UnitRecord>, now: int, protectTime: int) {
    var sorted, need := SortFunc(SlotsOfUnits(assumed)), Resources(preemptor, Requirements(preemptor));
    && Cut(sorted, RankOf(preemptor), need, kept, victims, now, protectTime)
    && DeepEnough(sorted, RankOf(preemptor), need, kept, victims, now, protectTime)
  }

  lemma VictimsAreAssumed(preemptor: UnitRecord, assumed: seq<UnitRecord>, kept: nat, victims: seq<UnitRecord>, now: int, protectTime: int)
    requires Consistent(assumed, preemptor) && Chosen(preemptor, assumed, kept, victims, now, protectTime)
    ensures forall i :: 0 <= i < |victims| ==> victims[i] in assumed
  {
    PreemptionIsOrdered(preemptor, assumed, Resources(preemptor, Requirements(preemptor)), kept, victims, now, protectTime);
    assert forall i :: 0 <= i < |victims| ==> victims[i] in victims;
  }

  lemma ShortOfSome(victims: seq<UnitRecord>, need: Amount, now: int, protectTime: int)
    requires forall i :: 0 <= i < |victims| ==> Giving(victims[i]) && UniqueNames(victims[i].admissions)
    requires !Covers(Released(victims, now, protectTime), need)
    ensures exists k :: At(need, k) > Sum(Indices(|victims|), GivesOf(victims, now, protectTime, k))
  {
    CoveredIff(victims, need, now, protectTime);
  }

  /** Without its last victim the choice leaves the preemptor short of some resource. */
  lemma LastVictimIsNeeded(preemptor: UnitRecord, assumed: seq<UnitRecord>, kept: nat, victims: seq<UnitRecord>, now: int, protectTime: int)
    requires Consistent(assumed, preemptor) && Chosen(preemptor, assumed, kept, victims, now, protectTime)
    requires victims != [] && forall i :: 0 <= i < |victims| ==> Giving(victims[i]) && UniqueNames(victims[i].admissions)
    ensures exists k :: At(Resources(preemptor, Requirements(preemptor)), k) >
                        Sum(Indices(|victims| - 1), GivesOf(victims[..|victims| - 1], now, protectTime, k))
  {
    var rest, need := victims[..|victims| - 1], Resources(preemptor, Requirements(preemptor));
    assert !Covers(Released(rest, now, protectTime), need);
    ShortOfSome(rest, need, now, protectTime);
  }

  /** With all of them it has enough of every resource, unless no unit that comes after the
      preemptor is left. */
  lemma VictimsSuffice(preemptor: UnitRecord, assumed: seq<UnitRecord>, kept: nat, victims: seq<UnitRecord>, now: int, protectTime: int)
    requires Consistent(assumed, preemptor) && Chosen(preemptor, assumed, kept, victims, now, protectTime)
    requires forall i :: 0 <= i < |victims| ==> Giving(victims[i]) && UniqueNames(victims[i].admissions)
    requires exists k :: At(Resources(preemptor, Requirements(preemptor)), k) >
                         Sum(Indices(|victims|), GivesOf(victims, now, protectTime, k))
    ensures forall i :: 0 <= i < kept ==>
      var u := SortFunc(SlotsOfUnits(assumed))[i].item; !UnitBefore(preemptor, u) || u.uid == preemptor.uid
  {
    var need := Resources(preemptor, Requirements(preemptor));
    CoveredIff(victims, need, now, protectTime);
    forall i | 0 <= i < kept
      ensures var u := SortFunc(SlotsOfUnits(assumed))[i].item; !UnitBefore(preemptor, u) || u.uid == preemptor.uid
    {
      SortedCandidates(assumed, preemptor);
      ExhaustedOrCovered(preemptor, assumed, need, kept, victims, now, protectTime, i);
      LessIff(RankOf(preemptor), RankOf(SortFunc(SlotsOfUnits(assumed))[i].item));
    }
  }
}
