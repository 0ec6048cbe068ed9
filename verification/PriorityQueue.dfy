/** PriorityQueue (schedulingqueuev2): a sorted slice of units beside a map of the same
    units, with the scan that hands out the next unit. Condition variables, timers,
    logging and the session counter are not modelled; the clock is a parameter. */
module PriorityQueue {
  import opened Amounts
  import opened QueueUnits
  import opened UnitOrder
  import opened SortedSlots
  import opened UnitInfos

  /** podSetsChanged: pod set counts by name differ. */
  predicate PodSetsChanged(a: UnitRecord, b: UnitRecord) {
    var x, y := PodSetCounts(a.podSets), PodSetCounts(b.podSets);
    |x| != |y| || exists n :: n in x && (if n in y then y[n] else 0) != x[n]
  }

  /** isAdmissionChanged: some admission of `b` has no equal counterpart in `a`. */
  predicate AdmissionsChanged(a: UnitRecord, b: UnitRecord) {
    |a.admissions| != |b.admissions| ||
    exists i :: 0 <= i < |b.admissions| &&
      var x := b.admissions[i];
      !LastHas(a.admissions, x.name, x.running, x.replicas)
  }

  /** The last admission of that name has these counts. */
  predicate LastHas(ads: seq<Admission>, name: string, running: int, replicas: int) {
    ads != [] &&
    var x := ads[|ads| - 1];
    if x.name == name then x.running == running && x.replicas == replicas
    else LastHas(ads[..|ads| - 1], name, running, replicas)
  }

  /** podSetsChanged sees that the counts differ, unless the only names dropped had a count of
      zero and as many others were added. */
  lemma PodSetsChangedIff(a: UnitRecord, b: UnitRecord)
    ensures var x, y := PodSetCounts(a.podSets), PodSetCounts(b.podSets);
      PodSetsChanged(a, b) <==> x != y && !(|x| == |y| && forall n :: n in x ==> if n in y then y[n] == x[n] else x[n] == 0)
  {
    var x, y := PodSetCounts(a.podSets), PodSetCounts(b.podSets);
    if PodSetsChanged(a, b) && |x| == |y| {
      var n :| n in x && (if n in y then y[n] else 0) != x[n];
      assert x != y;
    }
  }

  /** The input: a pod set without pods gives way to one with five. */
  lemma ZeroSetHidesChange(u: UnitRecord)
    requires u.podSets == [PodSet("a", 0, map[])]
    ensures !PodSetsChanged(u, u.(podSets := [PodSet("b", 5, map[])]))
  {
    var v := u.(podSets := [PodSet("b", 5, map[])]);
    assert u.podSets[..0] == [] && v.podSets[..0] == [];
    assert PodSetCounts(u.podSets) == map["a" := 0];
    assert PodSetCounts(v.podSets) == map["b" := 5];
  }

  lemma {:induction false} LastHasIff(ads: seq<Admission>, name: string, running: int, replicas: int)
    requires UniqueNames(ads)
    ensures LastHas(ads, name, running, replicas) <==> (name, running, replicas) in Shapes(ads)
  {
    if ads != [] {
      ShapesLast(ads);
      LastHasIff(ads[..|ads| - 1], name, running, replicas);
    }
  }

  /** isAdmissionChanged compares names, running and admitted replicas, in any order; it does
      not see what is to be given back, nor resources. */
  lemma AdmissionsChangedIff(a: UnitRecord, b: UnitRecord)
    requires UniqueNames(a.admissions) && UniqueNames(b.admissions)
    ensures AdmissionsChanged(a, b) <==> Shapes(a.admissions) != Shapes(b.admissions)
  {
    ShapesCount(a.admissions);
    ShapesCount(b.admissions);
    forall i | 0 <= i < |b.admissions|
      ensures var x := b.admissions[i];
        LastHas(a.admissions, x.name, x.running, x.replicas) <==> (x.name, x.running, x.replicas) in Shapes(a.admissions)
    {
      var x := b.admissions[i];
      LastHasIff(a.admissions, x.name, x.running, x.replicas);
    }
    if !AdmissionsChanged(a, b) {
      assert Shapes(b.admissions) <= Shapes(a.admissions);
      SubsetEqual(Shapes(b.admissions), Shapes(a.admissions));
    }
    forall i | 0 <= i < |b.admissions|
      ensures var x := b.admissions[i]; (x.name, x.running, x.replicas) in Shapes(b.admissions)
    {
    }
  }

  /** Same names with the same running and admitted replicas give the same verdicts. */
  lemma SameShapes(a: UnitRecord, b: UnitRecord)
    requires UniqueNames(a.admissions) && UniqueNames(b.admissions) && Shapes(a.admissions) == Shapes(b.admissions)
    ensures Admitted(a.admissions) == Admitted(b.admissions)
    ensures IsAllRunning(a) <==> IsAllRunning(b)
    ensures a.admissions == [] <==> b.admissions == []
  {
    ShapesCount(a.admissions);
    ShapesCount(b.admissions);
    ReservedIff(a);
    ReservedIff(b);
    IdleByShape(a.admissions);
    IdleByShape(b.admissions);
    AdmittedWithin(a.admissions, b.admissions);
    AdmittedWithin(b.admissions, a.admissions);
  }

  lemma AdmittedWithin(a: seq<Admission>, b: seq<Admission>)
    requires UniqueNames(a) && UniqueNames(b) && Shapes(a) == Shapes(b)
    ensures forall n :: n in Admitted(a) ==> n in Admitted(b) && Admitted(b)[n] == Admitted(a)[n]
  {
    forall n | n in Admitted(a) ensures n in Admitted(b) && Admitted(b)[n] == Admitted(a)[n] {
      var i := AdmittedNames(a, n);
      LastAdmissionWins(a, i);
      var t := (a[i].name, a[i].running, a[i].replicas);
      assert t in Shapes(a);
      var j :| 0 <= j < |b| && t == (b[j].name, b[j].running, b[j].replicas);
      LastAdmissionWins(b, j);
    }
  }

  /** Every pod set has pods. */
  predicate NoneIsEmpty(u: UnitRecord) {
    forall n :: n in PodSetCounts(u.podSets) ==> PodSetCounts(u.podSets)[n] != 0
  }

  lemma SameCounts(before: UnitRecord, after: UnitRecord)
    requires !PodSetsChanged(before, after) && NoneIsEmpty(before)
    ensures PodSetCounts(before.podSets) == PodSetCounts(after.podSets)
    ensures before.podSets == [] <==> after.podSets == []
  {
    var x, y := PodSetCounts(before.podSets), PodSetCounts(after.podSets);
    assert forall n :: n in x ==> n in y && y[n] == x[n];
    assert |x.Keys| == |y.Keys|;
    SubsetEqual(x.Keys, y.Keys);
    assert before.podSets != [] ==> before.podSets[|before.podSets| - 1].name in x;
    assert after.podSets != [] ==> after.podSets[|after.podSets| - 1].name in y;
  }

  lemma UnseenAgree(before: UnitRecord, after: UnitRecord)
    requires before.phase == after.phase && !PodSetsChanged(before, after) && !AdmissionsChanged(before, after)
    requires before.request == after.request
    requires UniqueNames(before.admissions) && UniqueNames(after.admissions) && NoneIsEmpty(before)
    ensures IsDequeued(before) <==> IsDequeued(after)
    ensures IsSatisfied(before) <==> IsSatisfied(after)
    ensures IsAllRunning(before) <==> IsAllRunning(after)
  {
    AdmissionsChangedIff(before, after);
    SameShapes(before, after);
    SameCounts(before, after);
  }

  class PriorityQueue {
    const name: string
    const quotaOf: UnitRecord -> Option<string>
    const activeFeature: bool

    var queue: seq<QueueUnitInfo>
    var queueUnits: map<string, QueueUnitInfo>
    var assumed: set<string>
    var updating: set<string>
    var blockedQuota: set<string>
    var resetNextIdxFlag: bool
    var nextIdx: nat
    var maxDepth: int
    var blocked: bool
    var waitPodsRunning: bool

    constructor (name: string, quotaOf: UnitRecord -> Option<string>, activeFeature: bool,
                 maxDepth: int, blocked: bool, waitPodsRunning: bool)
      ensures Valid() && queueUnits == map[] && assumed == {} && updating == {}
      ensures this.name == name && this.quotaOf == quotaOf && this.activeFeature == activeFeature
    {
      this.name, this.quotaOf, this.activeFeature := name, quotaOf, activeFeature;
      this.maxDepth, this.blocked, this.waitPodsRunning := maxDepth, blocked, waitPodsRunning;
      queue, queueUnits, assumed, updating, blockedQuota := [], map[], {}, {}, {};
      resetNextIdxFlag, nextIdx := false, 0;
    }

    /** A queue: strictly sorted, each UID once, and exactly the units of the map. */
    ghost predicate Valid()
      reads this`queue, this`queueUnits, queue
    {
      QueueOf(queue, queueUnits)
    }

    /** The same without the order, which the scheduler disturbs when it replaces a record
        in place. */
    ghost predicate Members()
      reads this`queue, this`queueUnits, queue
    {
      SameMembers(queue, queueUnits)
    }

    lemma ValidIff()
      ensures Valid() <==> Members() && Ordered(queue)
    {
      QueueIff(queue, queueUnits);
    }

    function QuotaSet(u: UnitRecord): set<string> {
      match quotaOf(u) case Some(q) => {q} case None => {}
    }

    method Store(q: seq<QueueUnitInfo>, m: map<string, QueueUnitInfo>)
      modifies this`queue, this`queueUnits
      ensures queue == q && queueUnits == m
      ensures (Valid() <==> old(QueueOf(q, m))) && (Members() <==> old(SameMembers(q, m)))
    {
      queue, queueUnits := q, m;
    }

    // ---------- Adding and deleting ----------

    ghost predicate OwnsUid(key: string, uid: string)
      reads this`queue, queue
    {
      OwnsUidIn(queue, key, uid)
    }

    /** The slice with a unit inserted, unless the search calls another unit equal to it. */
    function Entered(x: QueueUnitInfo): seq<QueueUnitInfo>
      reads this`queue, queue, x
    {
      if FoundIn(queue, x.Place()) then queue else InsertAt(queue, IndexIn(queue, x.Place()), x)
    }

    lemma EnterCases(x: QueueUnitInfo)
      requires Members() && x.unit.key == x.name && x.name !in queueUnits
      ensures SameMembers(Entered(x), queueUnits[x.name := x]) <==> OwnsUid(x.name, x.unit.uid)
      ensures QueueOf(Entered(x), queueUnits[x.name := x]) <==> OwnsUid(x.name, x.unit.uid) && Ordered(queue)
    {
      if OwnsUid(x.name, x.unit.uid) {
        EnterIff(queue, queueUnits, x);
      } else {
        DoubleUid(queue, queueUnits, IndexIn(queue, x.Place()), x);
        QueueIff(Entered(x), queueUnits[x.name := x]);
      }
    }

    /** The unit goes into the map, and into the slice unless the search calls another unit
        equal to it. The members survive exactly if no other key holds its UID. */
    /** The slice stays as it is if the place is taken, and else grows by the unit alone. */
    lemma EnteredIs(x: QueueUnitInfo)
      ensures FoundIn(queue, x.Place()) ==> Entered(x) == queue
      ensures !FoundIn(queue, x.Place()) ==>
        multiset(Entered(x)) == multiset(queue) + multiset{x} && Entered(x)[IndexIn(queue, x.Place())] == x
    {
      var i := IndexIn(queue, x.Place());
      assert queue == queue[..i] + queue[i..];
    }

    method InsertUnit(x: QueueUnitInfo) returns (inserted: bool)
      requires x.unit.key == x.name && x.name !in queueUnits
      modifies this`queue, this`queueUnits
      ensures queueUnits == old(queueUnits)[x.name := x] && queue == old(Entered(x))
      ensures inserted == !old(FoundIn(queue, x.Place()))
      ensures old(Members()) ==> (Members() <==> old(OwnsUid(x.name, x.unit.uid)))
      ensures old(Members()) ==> (Valid() <==> old(OwnsUid(x.name, x.unit.uid) && Ordered(queue)))
    {
      if Members() {
        EnterCases(x);
      }
      inserted := !FoundIn(queue, x.Place());
      Store(if inserted then InsertAt(queue, IndexIn(queue, x.Place()), x) else queue, queueUnits[x.name := x]);
    }

    /** A unit is queued unless it is dequeued or its key is taken. */
    method AddQueueUnitInfo(x: QueueUnitInfo) returns (added: bool, failed: bool)
      requires x.unit.key == x.name
      modifies this`queue, this`queueUnits, this`assumed, this`resetNextIdxFlag, this`blockedQuota
      ensures old(Members()) ==> (Members() <==> !added || old(OwnsUid(x.name, x.unit.uid)))
      ensures old(Members()) ==> (Valid() <==> (!added || old(OwnsUid(x.name, x.unit.uid))) && old(Ordered(queue)))
      ensures added == (!IsDequeued(x.unit) && x.name !in old(queueUnits))
      ensures failed == (!IsDequeued(x.unit) && x.name in old(queueUnits))
      ensures queueUnits == if added then old(queueUnits)[x.name := x] else old(queueUnits)
      ensures queue == if added then old(Entered(x)) else old(queue)
      ensures assumed == old(assumed) + if !IsDequeued(x.unit) && IsReservedNotRun(x.unit) then {x.name} else {}
      ensures blockedQuota == old(blockedQuota) - if added && !old(FoundIn(queue, x.Place())) then QuotaSet(x.unit) else {}
      ensures resetNextIdxFlag == (old(resetNextIdxFlag) || (added && !old(FoundIn(queue, x.Place()))))
    {
      ValidIff();
      if IsDequeued(x.unit) {
        return false, false;
      }
      Assume(x);
      if x.name in queueUnits {
        return false, true;
      }
      Enlist(x);
      return true, false;
    }

    method Assume(x: QueueUnitInfo)
      modifies this`assumed
      ensures assumed == old(assumed) + if IsReservedNotRun(x.unit) then {x.name} else {}
    {
      if IsReservedNotRun(x.unit) {
        assumed := assumed + {x.name};
      }
    }

    method Enlist(x: QueueUnitInfo)
      requires x.unit.key == x.name && x.name !in queueUnits
      modifies this`queue, this`queueUnits, this`resetNextIdxFlag, this`blockedQuota
      ensures queueUnits == old(queueUnits)[x.name := x] && queue == old(Entered(x))
      ensures old(Members()) ==> (Members() <==> old(OwnsUid(x.name, x.unit.uid)))
      ensures old(Members()) ==> (Valid() <==> old(OwnsUid(x.name, x.unit.uid) && Ordered(queue)))
      ensures blockedQuota == old(blockedQuota) - if old(FoundIn(queue, x.Place())) then {} else QuotaSet(x.unit)
      ensures resetNextIdxFlag == (old(resetNextIdxFlag) || !old(FoundIn(queue, x.Place())))
    {
      var inserted := InsertUnit(x);
      if inserted {
        Announce(x);
      }
    }

    method Announce(x: QueueUnitInfo)
      modifies this`resetNextIdxFlag, this`blockedQuota
      ensures resetNextIdxFlag && blockedQuota == old(blockedQuota) - QuotaSet(x.unit)
    {
      resetNextIdxFlag := true;
      blockedQuota := blockedQuota - QuotaSet(x.unit);
    }

    /** The rank deleteWithoutLock searches with: that of the cached copy if there is one. */
    function TargetOf(u: UnitRecord): Rank
      reads this`queueUnits, queueUnits.Values
    {
      if u.key in queueUnits then queueUnits[u.key].Place() else RankOf(u)
    }

    /** The search hits exactly if there is a cached copy. */
    predicate Hits(u: UnitRecord)
      reads this`queue, this`queueUnits, queue, queueUnits.Values
    {
      u.key in queueUnits <==> FoundIn(queue, TargetOf(u))
    }

    lemma DeleteCases(u: UnitRecord)
      requires Members()
      ensures SameMembers(Dropped(queue, TargetOf(u)), queueUnits - {u.key}) <==> Hits(u)
      ensures QueueOf(Dropped(queue, TargetOf(u)), queueUnits - {u.key}) <==> Hits(u) && OrderedWithout(queue, u.key)
    {
      if u.key in queueUnits {
        SameObjects(queue, queueUnits);
        OwnUid(queue, queueUnits, queueUnits[u.key]);
        DropIff(queue, queueUnits, TargetOf(u));
      } else {
        Absent(queue, queueUnits, u.key);
        if FoundIn(queue, TargetOf(u)) {
          StrayHit(queue, queueUnits, TargetOf(u));
        }
        QueueIff(Dropped(queue, TargetOf(u)), queueUnits);
      }
    }

    /** In a queue a cached copy is found by its rank. */
    lemma CachedIsHit(u: UnitRecord)
      requires Valid() && u.key in queueUnits
      ensures Hits(u) && OrderedWithout(queue, u.key)
    {
      ValidIff();
      SameObjects(queue, queueUnits);
      OwnUid(queue, queueUnits, queueUnits[u.key]);
      RemoveKeeps(queue, queueUnits, TargetOf(u));
    }

    /** An unknown unit is not found unless another key holds its UID. */
    lemma OwnUidDoesNotStray(u: UnitRecord)
      requires Members() && u.key !in queueUnits && OwnsUid(u.key, u.uid)
      ensures Hits(u)
    {
      if FoundIn(queue, RankOf(u)) {
        SameObjects(queue, queueUnits);
        assert Paired(queue, RankOf(u));
        FoundIsNamed(SlotsOf(queue), RankOf(u));
      }
    }

    /** The unit leaves map and sets, and what the search hits leaves the slice. The members
        survive exactly if the search hits where there is a cached copy, and then the rest is
        a queue if it is in order. */
    method DeleteWithoutLock(u: UnitRecord)
      modifies this`queue, this`queueUnits, this`assumed, this`updating, this`blockedQuota
      ensures queue == old(Dropped(queue, TargetOf(u))) && queueUnits == old(queueUnits) - {u.key}
      ensures old(Members()) ==> (Members() <==> old(Hits(u)))
      ensures old(Members()) ==> (Valid() <==> old(Hits(u) && OrderedWithout(queue, u.key)))
      ensures assumed == old(assumed) - {u.key} && updating == old(updating) - {u.key}
      ensures blockedQuota == old(blockedQuota) - if blocked then QuotaSet(u) else {}
    {
      TakeOut(u);
      ghost var members, valid := Members(), Valid();
      Forget(u);
      assert Members() == members && Valid() == valid;
    }

    method Forget(u: UnitRecord)
      modifies this`assumed, this`updating, this`blockedQuota
      ensures assumed == old(assumed) - {u.key} && updating == old(updating) - {u.key}
      ensures blockedQuota == old(blockedQuota) - if blocked then QuotaSet(u) else {}
    {
      assumed := assumed - {u.key};
      updating := updating - {u.key};
      if blocked {
        blockedQuota := blockedQuota - QuotaSet(u);
      }
    }

    method TakeOut(u: UnitRecord)
      modifies this`queue, this`queueUnits
      ensures queue == old(Dropped(queue, TargetOf(u))) && queueUnits == old(queueUnits) - {u.key}
      ensures old(Members()) ==> (Members() <==> old(Hits(u)))
      ensures old(Members()) ==> (Valid() <==> old(Hits(u) && OrderedWithout(queue, u.key)))
    {
      if Members() {
        DeleteCases(u);
      }
      var t := TargetOf(u);
      Store(if FoundIn(queue, t) then RemoveAt(queue, IndexIn(queue, t)) else queue, queueUnits - {u.key});
    }

    method Delete(u: UnitRecord)
      modifies this`queue, this`queueUnits, this`assumed, this`updating, this`resetNextIdxFlag, this`blockedQuota
      ensures queue == old(Dropped(queue, TargetOf(u))) && queueUnits == old(queueUnits) - {u.key} && resetNextIdxFlag
      ensures old(Members()) ==> (Members() <==> old(Hits(u)))
      ensures old(Members()) ==> (Valid() <==> old(Hits(u) && OrderedWithout(queue, u.key)))
      ensures assumed == old(assumed) - {u.key} && updating == old(updating) - {u.key}
      ensures blockedQuota == old(blockedQuota) - if blocked then QuotaSet(u) else {}
    {
      resetNextIdxFlag := true;
      DeleteWithoutLock(u);
    }

    // ---------- Update ----------

    /** What an update event says of the queue. */
    ghost predicate Describes(before: UnitRecord, after: UnitRecord)
      reads this`queue, queue
    {
      DescribesIn(queue, before, after)
    }

    predicate Skips(before: UnitRecord, after: UnitRecord, samePointer: bool) {
      before.phase == after.phase && samePointer && !PodSetsChanged(before, after) && !AdmissionsChanged(before, after)
    }

    predicate ActivationChanged(before: UnitRecord, after: UnitRecord) {
      activeFeature && IsActive(before) != IsActive(after)
    }

    predicate Moves(before: UnitRecord, after: UnitRecord, samePointer: bool)
      reads this`queueUnits
    {
      after.key !in queueUnits || !samePointer || ActivationChanged(before, after)
    }

    /** The search for a unit that is reported dequeued uses the reported rank; it loses
        track of the unit when that search misses the queued copy. */
    predicate Loses(after: UnitRecord)
      reads this`queue, this`queueUnits, queue
    {
      IsDequeued(after) && after.key in queueUnits && !FoundIn(queue, RankOf(after))
    }

    function AssumedAfter(after: UnitRecord): set<string>
      reads this`assumed, this`updating
    {
      if IsDequeued(after) || !IsReservedAny(after) then assumed - {after.key}
      else if after.key !in updating && IsAllRunning(after) then assumed - {after.key}
      else if !IsAllRunning(after) then assumed + {after.key}
      else assumed
    }

    function UpdatingAfter(after: UnitRecord): set<string>
      reads this`updating
    {
      if IsDequeued(after) || (!IsReservedAny(after) && !IsSatisfied(after)) then updating - {after.key} else updating
    }

    /** A unit that leaves while assumed unblocks everything in a queue that waits for pods. */
    function BlockedAfterLeaving(before: UnitRecord, after: UnitRecord): set<string>
      reads this`blockedQuota, this`assumed, this`waitPodsRunning
    {
      if after.key in assumed && !IsDequeued(before) && waitPodsRunning then {} else blockedQuota
    }

    /** A unit that gives something back unblocks its quota in a blocking queue. */
    function Unblocked(before: UnitRecord, after: UnitRecord): set<string>
      reads this`blocked
    {
      if IsResourceReleased(before, after) && blocked then QuotaSet(after) else {}
    }

    /** The cursor starts over. */
    predicate Rewinds(before: UnitRecord, after: UnitRecord)
      reads this`updating
    {
      || ActivationChanged(before, after)
      || (IsReservedAny(after) && after.key !in updating && IsAllRunning(after))
      || (IsResourceReleased(before, after) && after.phase != SchedFailed)
    }

    /** The event is about one unit of a queue with these members. */
    ghost predicate Pending(before: UnitRecord, after: UnitRecord)
      reads this`queue, this`queueUnits, queue
    {
      Members() && Describes(before, after)
    }

    method DequeueUnit(ghost before: UnitRecord, after: UnitRecord)
      requires IsDequeued(after)
      modifies this`queue, this`queueUnits
      ensures queueUnits == old(queueUnits) - {after.key}
      ensures old(Pending(before, after)) ==> (Members() <==> !old(Loses(after)))
      ensures old(Pending(before, after)) ==> (Valid() <==> old(!Loses(after) && OrderedWithout(queue, after.key)))
    {
      if Pending(before, after) {
        DescribesPairs(queue, before, after);
        DropIff(queue, queueUnits, RankOf(after));
      }
      var t := RankOf(after);
      Store(if FoundIn(queue, t) then RemoveAt(queue, IndexIn(queue, t)) else queue, queueUnits - {after.key});
    }

    /** A unit counts as in flight after an update exactly if it is not through, holds
        something, and either has a replica that does not run or was reserved here. */
    lemma AssumedIff(after: UnitRecord, k: string)
      ensures k in AssumedAfter(after) <==>
        if k != after.key then k in assumed
        else !IsDequeued(after) && AnyLeft(after.admissions) && (AnyIdle(after.admissions) || (k in assumed && k in updating))
    {
      ReservedIff(after);
    }

    /** A reserved unit is out of the scan until it is through, or holds nothing and needs
        more. */
    lemma UpdatingIff(after: UnitRecord, k: string)
      ensures k in UpdatingAfter(after) <==>
        k in updating && (k == after.key ==> !IsDequeued(after) && (AnyLeft(after.admissions) || IsSatisfied(after)))
    {
      ReservedIff(after);
    }

    /** The cursor starts over when the unit was switched on or off, when all it holds runs, or
        when it released something without having failed. */
    lemma RewindsIff(before: UnitRecord, after: UnitRecord)
      requires UniqueNames(before.admissions) && UniqueNames(after.admissions)
      ensures Rewinds(before, after) <==>
        || (activeFeature && (before.active == Some(false) <==> after.active != Some(false)))
        || (after.key !in updating && AnyLeft(after.admissions) && !AnyIdle(after.admissions))
        || (after.phase != SchedFailed &&
            (|before.admissions| != |after.admissions| ||
             exists i :: 0 <= i < |before.admissions| && Lowered(before.admissions[i], after.admissions)))
      ensures Sorts(before, after) <==>
        after.phase != SchedFailed &&
        (|before.admissions| != |after.admissions| ||
         exists i :: 0 <= i < |before.admissions| && Lowered(before.admissions[i], after.admissions))
    {
      ReservedIff(after);
      ReleasedIff(before, after);
    }

    /** In a blocking queue a release lets the units of the same quota pass again, and no
        others. */
    lemma UnblockedIff(before: UnitRecord, after: UnitRecord, x: UnitRecord)
      ensures QuotaSet(x) !! blockedQuota - Unblocked(before, after) <==>
        || QuotaSet(x) !! blockedQuota
        || (blocked && IsResourceReleased(before, after) && quotaOf(x) == quotaOf(after))
    {
    }

    /** When the unit in flight is through, a queue that waits for it lets all units pass. */
    lemma LeavingUnblocksIff(before: UnitRecord, after: UnitRecord, x: UnitRecord)
      ensures QuotaSet(x) !! BlockedAfterLeaving(before, after) <==>
        || QuotaSet(x) !! blockedQuota
        || (after.key in assumed && waitPodsRunning && !IsDequeued(before))
    {
    }

    /** An update that is skipped changes none of the verdicts, as long as the request stays and
        no pod set without pods hides a change of others. */
    lemma SkippedAgree(before: UnitRecord, after: UnitRecord, samePointer: bool)
      requires Skips(before, after, samePointer) && before.request == after.request
      requires UniqueNames(before.admissions) && UniqueNames(after.admissions) && NoneIsEmpty(before)
      ensures IsDequeued(before) <==> IsDequeued(after)
      ensures IsSatisfied(before) <==> IsSatisfied(after)
      ensures IsAllRunning(before) <==> IsAllRunning(after)
      ensures (AnyLeft(before.admissions) <==> AnyLeft(after.admissions)) && before.key == after.key ==>
              AssumedAfter(before) == AssumedAfter(after)
    {
      UnseenAgree(before, after);
      ReservedIff(before);
      ReservedIff(after);
    }

    /** But it may hide that all replicas are to be given back: then the unit stays in flight,
        although it would be dropped if the update were looked at. */
    lemma HiddenReclaim(u: UnitRecord)
      requires u.podSets == [PodSet("w", 3, map[])] && u.admissions == [Admission("w", 2, 0, map[], None)]
      requires u.phase !in {Succeed, Failed}
      ensures var v := u.(admissions := [Admission("w", 2, 0, map[], Some(2))]);
        Skips(u, v, true) && u.key in AssumedAfter(u) && v.key !in AssumedAfter(v)
    {
      var v := u.(admissions := [Admission("w", 2, 0, map[], Some(2))]);
      assert u.admissions[0] == Admission("w", 2, 0, map[], None) && LastHas(u.admissions, "w", 0, 2);
      DequeuedIff(u);
      assert !Admits(u.admissions, u.podSets[0]);
      assert HasLeft(u.admissions[0]) && u.admissions[0].running < u.admissions[0].replicas;
      AssumedIff(u, u.key);
      AssumedIff(v, v.key);
    }

    /** Two of five replicas are taken back from a reserved unit, and the other three run: it
        is not scheduled again and stays in flight, so a queue that waits admits nobody. */
    lemma PartlyReclaimedBlocks(u: UnitRecord)
      requires u.podSets == [PodSet("w", 5, map[])] && u.admissions == [Admission("w", 3, 3, map[], None)]
      requires u.phase !in {Succeed, Failed} && u.key in assumed && u.key in updating
      ensures !IsSatisfied(u) && u.key in UpdatingAfter(u) && u.key in AssumedAfter(u)
    {
      SatisfiedIff(u);
      assert !Admits(u.admissions, u.podSets[0]);
      DequeuedIff(u);
      assert HasLeft(u.admissions[0]);
      AssumedIff(u, u.key);
      UpdatingIff(u, u.key);
    }

    /** An update that switches a unit on or off makes a new copy, and the scan start over,
        unless nothing else is seen to change; then it starts over only after a release. */
    lemma ActivationRewindsIff(before: UnitRecord, after: UnitRecord, samePointer: bool)
      requires activeFeature && IsActive(before) != IsActive(after) && !IsDequeued(after)
      ensures (if Skips(before, after, samePointer) then Sorts(before, after) else Rewinds(before, after)) <==>
        || before.phase != after.phase || !samePointer || PodSetsChanged(before, after) || AdmissionsChanged(before, after)
        || Sorts(before, after)
      ensures InPlace(before, after, samePointer) <==>
        before.phase == after.phase && samePointer && !PodSetsChanged(before, after) && !AdmissionsChanged(before, after)
    {
    }

    /** The search with the old record hits the queued copy, if there is one. */
    predicate FindsOld(before: UnitRecord)
      reads this`queue, this`queueUnits, queue
    {
      FindsOldIn(queue, queueUnits, before)
    }

    /** The slice is in order with the newer record in place of the queued one. */
    ghost predicate RefreshFits(after: UnitRecord)
      reads this`queue, this`queueUnits, queue, queueUnits.Values
    {
      if after.key in queueUnits && queueUnits[after.key].unit.version != after.version
      then OrderedAs(queue, queueUnits[after.key], after)
      else Ordered(queue)
    }

    /** The unit leaves the slice by its old rank and enters it by its new one. A copy that
        is missed stays behind as a second place of the unit. */
    method MoveUnit(before: UnitRecord, after: UnitRecord)
      modifies this`queue, this`queueUnits
      ensures after.key in queueUnits && fresh(queueUnits[after.key]) && queueUnits[after.key].unit == after
      ensures queueUnits == old(queueUnits)[after.key := queueUnits[after.key]]
      ensures old(Pending(before, after)) ==> (Members() <==> old(FindsOld(before)))
      ensures old(Pending(before, after)) ==> (Valid() <==> old(FindsOld(before) && OrderedWithout(queue, after.key)))
      ensures old(Pending(before, after)) ==> Members() || |queue| != |queueUnits|
    {
      var x := new QueueUnitInfo(after);
      if Pending(before, after) {
        MoveIff(queue, queueUnits, before, x);
      }
      var rest := if FoundIn(queue, RankOf(before)) then RemoveAt(queue, IndexIn(queue, RankOf(before))) else queue;
      Store(InsertAt(rest, IndexIn(rest, x.Place()), x), queueUnits[after.key := x]);
    }

    /** `u` is another record of the queued object `x`. */
    ghost predicate Replaces(x: QueueUnitInfo, u: UnitRecord)
      reads this`queue, this`queueUnits, queue, x
    {
      Members() && x in queue && u.uid == x.unit.uid && u.key == x.name
    }

    /** Replacing the record of a queued object keeps the members, and makes a queue exactly
        if the slice is in order with it. The scheduler does so with the object it was handed,
        outside of any queue operation. */
    method ReplaceUnit(x: QueueUnitInfo, u: UnitRecord)
      modifies x
      ensures x.unit == u
      ensures old(Replaces(x, u)) ==> Members() && (Valid() <==> old(OrderedAs(queue, x, u)))
      ensures old(Replaces(x, u)) ==> (OrderedAs(queue, x, old(x.unit)) <==> old(Ordered(queue)))
    {
      ghost var k, was, s := 0, x.unit, SlotsOf(queue);
      ghost var fits := Replaces(x, u);
      if fits {
        k := ReplacedSlots(queue, queueUnits, x, u);
      }
      ghost var r := if fits then s[k := Slot(PlaceWith(x, u), x)] else s;
      x.unit := u;
      if fits {
        assert SlotsOf(queue) == r;
        BackInPlace(x, was, k, s);
      }
    }

    /** With its old record the object has its old rank. */
    lemma BackInPlace(x: QueueUnitInfo, was: UnitRecord, k: nat, s: seq<Slot<QueueUnitInfo>>)
      requires k < |queue| && queue[k] == x && (forall i :: 0 <= i < |queue| && i != k ==> queue[i] != x)
      requires |s| == |queue| && s[k].rank == PlaceWith(x, was)
      requires forall i :: 0 <= i < |s| && i != k ==> s[i] == SlotsOf(queue)[i]
      ensures OrderedAs(queue, x, was) <==> InOrder(s)
    {
      assert forall i :: 0 <= i < |s| ==> s[i].rank == PlaceAs(queue[i], x, was);
    }

    method Refresh(after: UnitRecord)
      requires after.key in queueUnits
      modifies queueUnits[after.key]
      ensures queueUnits[after.key].unit == Newer(old(queueUnits[after.key].unit), after)
      ensures old(Members() && queueUnits[after.key].unit.uid == after.uid) ==>
                Members() && (Valid() <==> old(RefreshFits(after)))
    {
      ValidIff();
      if Members() {
        SameObjects(queue, queueUnits);
      }
      var x := queueUnits[after.key];
      if x.unit.version != after.version {
        ReplaceUnit(x, after);
      }
    }

    /** Sorting anew repairs a slice of which only the order is wrong, and leaves a queue
        as it is. */
    method Resort()
      modifies this`queue, this`queueUnits
      ensures queueUnits == old(queueUnits) && |queue| == |old(queue)|
      ensures old(Valid()) ==> queue == old(queue)
      ensures old(Members()) ==> Valid() && Members()
    {
      SortInfosSize(queue);
      if Members() {
        SortRestores(queue, queueUnits);
        QueueIff(SortInfos(queue), queueUnits);
      }
      if Valid() {
        SortKeepsQueue(queue, queueUnits);
      }
      Store(SortInfos(queue), queueUnits);
    }

    /** A unit gives something back: the slice is sorted anew. */
    method Release(after: UnitRecord)
      modifies this`queue, this`queueUnits, this`resetNextIdxFlag, this`blockedQuota
      ensures queueUnits == old(queueUnits)
      ensures |queue| == |old(queue)| && (old(Members()) ==> Members())
      ensures old(Members()) ==> (Valid() <==> old(Valid()) || after.phase != SchedFailed)
      ensures blockedQuota == old(blockedQuota) - if blocked then QuotaSet(after) else {}
      ensures resetNextIdxFlag == (old(resetNextIdxFlag) || after.phase != SchedFailed)
    {
      if after.phase != SchedFailed {
        Resort();
        resetNextIdxFlag := true;
      }
      if blocked {
        blockedQuota := blockedQuota - QuotaSet(after);
      }
    }

    predicate Sorts(before: UnitRecord, after: UnitRecord) {
      IsResourceReleased(before, after) && after.phase != SchedFailed
    }

    /** The deferred part of Update where a queued copy is replaced. */
    method FinishInPlace(before: UnitRecord, after: UnitRecord)
      requires after.key in queueUnits
      modifies this`queue, this`queueUnits, this`resetNextIdxFlag, this`blockedQuota, queueUnits[after.key]
      ensures queueUnits == old(queueUnits)
      ensures old(Pending(before, after)) ==> Members() && (Valid() <==> old(RefreshFits(after)) || Sorts(before, after))
      ensures queueUnits[after.key].unit == Newer(old(queueUnits[after.key].unit), after)
      ensures blockedQuota == old(blockedQuota) - Unblocked(before, after)
      ensures resetNextIdxFlag == (old(resetNextIdxFlag) || Sorts(before, after))
    {
      if Pending(before, after) {
        CachedUid(before, after);
      }
      Refresh(after);
      if IsResourceReleased(before, after) {
        Release(after);
      }
    }

    lemma CachedUid(before: UnitRecord, after: UnitRecord)
      requires Pending(before, after) && after.key in queueUnits
      ensures queueUnits[after.key].unit.uid == after.uid && queueUnits[after.key] in queue && queueUnits[after.key].name == after.key
    {
      SameObjects(queue, queueUnits);
    }

    /** The deferred part where the copy has just been made. */
    method FinishMoved(before: UnitRecord, after: UnitRecord)
      modifies this`queue, this`queueUnits, this`resetNextIdxFlag, this`blockedQuota
      ensures queueUnits == old(queueUnits)
      ensures old(Members() || |queue| != |queueUnits|) ==> (Members() <==> old(Members()))
      ensures old(Members() || |queue| != |queueUnits|) ==> (Valid() <==> old(Valid()) || (old(Members()) && Sorts(before, after)))
      ensures blockedQuota == old(blockedQuota) - Unblocked(before, after)
      ensures resetNextIdxFlag == (old(resetNextIdxFlag) || Sorts(before, after))
    {
      ValidIff();
      if IsResourceReleased(before, after) {
        Release(after);
      }
      Mismatch();
    }

    /** Slice and map of different size have different members. */
    lemma Mismatch()
      ensures |queue| != |queueUnits| ==> !Members() && !Valid()
    {
      ValidIff();
      if Members() {
        MembersSize(queue, queueUnits);
      }
    }

    method LeaveQueue(before: UnitRecord, after: UnitRecord)
      requires IsDequeued(after)
      modifies this`queue, this`queueUnits, this`assumed, this`updating, this`resetNextIdxFlag, this`blockedQuota
      ensures queueUnits == old(queueUnits) - {after.key}
      ensures old(Pending(before, after)) ==> (Members() <==> !old(Loses(after)))
      ensures old(Pending(before, after)) ==> (Valid() <==> old(!Loses(after) && OrderedWithout(queue, after.key)))
      ensures assumed == old(assumed) - {after.key} && updating == old(updating) - {after.key}
      ensures resetNextIdxFlag == (old(resetNextIdxFlag) || after.key in old(assumed))
      ensures blockedQuota == old(BlockedAfterLeaving(before, after))
    {
      DequeueUnit(before, after);
      ReleaseAssumed(before, after);
    }

    method ReleaseAssumed(before: UnitRecord, after: UnitRecord)
      modifies this`assumed, this`updating, this`resetNextIdxFlag, this`blockedQuota
      ensures assumed == old(assumed) - {after.key} && updating == old(updating) - {after.key}
      ensures resetNextIdxFlag == (old(resetNextIdxFlag) || after.key in old(assumed))
      ensures blockedQuota == old(BlockedAfterLeaving(before, after))
    {
      if after.key in assumed {
        assumed := assumed - {after.key};
        resetNextIdxFlag := true;
        if !IsDequeued(before) && waitPodsRunning {
          blockedQuota := {};
        }
      }
      updating := updating - {after.key};
    }

    method Track(before: UnitRecord, after: UnitRecord)
      requires !IsDequeued(after)
      modifies this`assumed, this`updating, this`resetNextIdxFlag
      ensures assumed == old(AssumedAfter(after)) && updating == old(UpdatingAfter(after))
      ensures resetNextIdxFlag == (old(resetNextIdxFlag) || ActivationChanged(before, after) ||
              (IsReservedAny(after) && after.key !in old(updating) && IsAllRunning(after)))
    {
      if ActivationChanged(before, after) {
        resetNextIdxFlag := true;
      }
      var isUpdating := after.key in updating;
      if !IsReservedAny(after) {
        assumed := assumed - {after.key};
        if !IsSatisfied(after) {
          updating := updating - {after.key};
        }
      } else if !isUpdating && IsAllRunning(after) {
        resetNextIdxFlag := true;
        assumed := assumed - {after.key};
      } else if !IsAllRunning(after) {
        assumed := assumed + {after.key};
      }
    }

    predicate InPlace(before: UnitRecord, after: UnitRecord, samePointer: bool)
      reads this`queueUnits
    {
      Skips(before, after, samePointer) || (!IsDequeued(after) && !Moves(before, after, samePointer))
    }

    /** The search that an update makes for a queued copy, by the reported rank if it reports
        the unit dequeued and by the old one if the unit moves, hits it. */
    predicate UpdateFinds(before: UnitRecord, after: UnitRecord, samePointer: bool)
      reads this`queue, this`queueUnits, queue
    {
      if InPlace(before, after, samePointer) then true
      else if IsDequeued(after) then !Loses(after)
      else FindsOld(before)
    }

    /** What else it takes for a queue to come out: the slice is sorted anew, or it is in
        order with the new record in place, or the other units are. */
    ghost predicate UpdateFits(before: UnitRecord, after: UnitRecord, samePointer: bool)
      reads this`queue, this`queueUnits, queue, queueUnits.Values
    {
      if InPlace(before, after, samePointer) then RefreshFits(after) || (after.key in queueUnits && Sorts(before, after))
      else if IsDequeued(after) then OrderedWithout(queue, after.key)
      else OrderedWithout(queue, after.key) || Sorts(before, after)
    }

    /** An update keeps the members exactly when its search hits, whatever the order, and
        makes a queue exactly when that condition is met too. */
    method Update(before: UnitRecord, after: UnitRecord, samePointer: bool)
      modifies this`queue, this`queueUnits, this`assumed, this`updating, this`resetNextIdxFlag, this`blockedQuota
      modifies if after.key in queueUnits then {queueUnits[after.key]} else {}
      ensures old(Pending(before, after)) ==> (Members() <==> old(UpdateFinds(before, after, samePointer)))
      ensures old(Pending(before, after)) ==>
                (Valid() <==> old(UpdateFinds(before, after, samePointer) && UpdateFits(before, after, samePointer)))
      ensures if old(InPlace(before, after, samePointer)) then queueUnits == old(queueUnits)
              else if IsDequeued(after) then queueUnits == old(queueUnits) - {after.key}
              else
                && after.key in queueUnits && fresh(queueUnits[after.key])
                && queueUnits == old(queueUnits)[after.key := queueUnits[after.key]]
      ensures after.key in queueUnits ==>
                queueUnits[after.key].unit ==
                if old(InPlace(before, after, samePointer)) then Newer(old(queueUnits[after.key].unit), after) else after
      ensures after.key in queueUnits && queueUnits[after.key].unit != after ==>
                && after.key in old(queueUnits) && old(queueUnits[after.key].unit.version) == after.version
                && queueUnits[after.key].unit == old(queueUnits[after.key].unit)
      ensures assumed == if Skips(before, after, samePointer) then old(assumed) else old(AssumedAfter(after))
      ensures updating == if Skips(before, after, samePointer) then old(updating) else old(UpdatingAfter(after))
      ensures blockedQuota ==
              if !Skips(before, after, samePointer) && IsDequeued(after) then old(BlockedAfterLeaving(before, after))
              else old(blockedQuota) - if after.key in queueUnits then Unblocked(before, after) else {}
      ensures resetNextIdxFlag == (old(resetNextIdxFlag) ||
              if Skips(before, after, samePointer) then after.key in queueUnits && Sorts(before, after)
              else if IsDequeued(after) then after.key in old(assumed)
              else old(Rewinds(before, after)))
    {
      ValidIff();
      if Skips(before, after, samePointer) {
        if after.key in queueUnits {
          FinishInPlace(before, after);
        }
        return;
      }
      if IsDequeued(after) {
        LeaveQueue(before, after);
        return;
      }
      if Moves(before, after, samePointer) {
        Reposition(before, after);
      } else {
        Settle(before, after);
      }
    }

    method Reposition(before: UnitRecord, after: UnitRecord)
      requires !IsDequeued(after)
      modifies this`queue, this`queueUnits, this`assumed, this`updating, this`resetNextIdxFlag, this`blockedQuota
      ensures old(Pending(before, after)) ==> (Members() <==> old(FindsOld(before)))
      ensures old(Pending(before, after)) ==>
                (Valid() <==> old(FindsOld(before)) && (old(OrderedWithout(queue, after.key)) || Sorts(before, after)))
      ensures after.key in queueUnits && fresh(queueUnits[after.key]) && queueUnits[after.key].unit == after
      ensures queueUnits == old(queueUnits)[after.key := queueUnits[after.key]]
      ensures assumed == old(AssumedAfter(after)) && updating == old(UpdatingAfter(after))
      ensures blockedQuota == old(blockedQuota) - Unblocked(before, after)
      ensures resetNextIdxFlag == (old(resetNextIdxFlag) || old(Rewinds(before, after)))
    {
      MoveAndFinish(before, after);
      Track(before, after);
    }

    method MoveAndFinish(before: UnitRecord, after: UnitRecord)
      modifies this`queue, this`queueUnits, this`resetNextIdxFlag, this`blockedQuota
      ensures after.key in queueUnits && fresh(queueUnits[after.key]) && queueUnits[after.key].unit == after
      ensures queueUnits == old(queueUnits)[after.key := queueUnits[after.key]]
      ensures old(Pending(before, after)) ==> (Members() <==> old(FindsOld(before)))
      ensures old(Pending(before, after)) ==>
                (Valid() <==> old(FindsOld(before)) && (old(OrderedWithout(queue, after.key)) || Sorts(before, after)))
      ensures blockedQuota == old(blockedQuota) - Unblocked(before, after)
      ensures resetNextIdxFlag == (old(resetNextIdxFlag) || Sorts(before, after))
    {
      MoveUnit(before, after);
      FinishMoved(before, after);
    }

    method Settle(before: UnitRecord, after: UnitRecord)
      requires after.key in queueUnits && !IsDequeued(after)
      modifies this`queue, this`queueUnits, this`assumed, this`updating, this`resetNextIdxFlag, this`blockedQuota, queueUnits[after.key]
      ensures queueUnits == old(queueUnits)
      ensures old(Pending(before, after)) ==> Members() && (Valid() <==> old(RefreshFits(after)) || Sorts(before, after))
      ensures queueUnits[after.key].unit == Newer(old(queueUnits[after.key].unit), after)
      ensures assumed == old(AssumedAfter(after)) && updating == old(UpdatingAfter(after))
      ensures blockedQuota == old(blockedQuota) - Unblocked(before, after)
      ensures resetNextIdxFlag == (old(resetNextIdxFlag) || old(Rewinds(before, after)))
    {
      Track(before, after);
      FinishInPlace(before, after);
    }

    // ---------- Updates of a queue, and of one with a replaced record ----------

    /** In a queue the other units are in order, and a new record fits in place exactly if
        the unit stays between its neighbours. */
    lemma QueueFits(before: UnitRecord, after: UnitRecord, samePointer: bool)
      requires Valid()
      ensures UpdateFits(before, after, samePointer) <==>
              (InPlace(before, after, samePointer) && after.key in queueUnits && queueUnits[after.key].unit.version != after.version ==>
                 StaysPut(queue, queueUnits[after.key], after) || Sorts(before, after))
    {
      ValidIff();
      if after.key in queueUnits {
        SameObjects(queue, queueUnits);
        OrderedAsIff(queue, queueUnits, queueUnits[after.key], after);
      }
    }

    /** If the old record has the priority the queued copy was sorted by, the only update
        that harms a queue is one that reports the unit dequeued with another priority. */
    lemma CurrentUpdateKeeps(before: UnitRecord, after: UnitRecord, samePointer: bool)
      requires Valid() && Pending(before, after) && QueuedAs(queue, before) && PointersFit(before, after, samePointer)
      requires IsDequeued(after) && !samePointer ==> Priority(before) == Priority(after)
      ensures UpdateFinds(before, after, samePointer) && UpdateFits(before, after, samePointer)
    {
      ValidIff();
      DescribesPairs(queue, before, after);
      RemoveKeeps(queue, queueUnits, RankOf(before));
      if after.key in queueUnits {
        SameObjects(queue, queueUnits);
        if samePointer {
          SameRankOrdered(queue, queueUnits[after.key], after);
        }
      }
    }

    /** A unit reported dequeued with the priority it was queued by is not lost. */
    lemma SamePriorityIsNotLost(before: UnitRecord, after: UnitRecord)
      requires Valid() && Pending(before, after) && QueuedAs(queue, before) && Priority(before) == Priority(after)
      ensures !Loses(after)
    {
      DescribesPairs(queue, before, after);
      RemoveKeeps(queue, queueUnits, RankOf(before));
    }

    /** A queue but for one replaced record: with its old record the slice is in order. */
    ghost predicate QueueBut(x: QueueUnitInfo, was: UnitRecord)
      reads this`queue, this`queueUnits, queue, x
    {
      Members() && x in queue && OrderedAs(queue, x, was)
    }

    /** The update that reports the replacement, still pending, finds the unit by its old
        record and makes a queue again. */
    lemma PendingUpdateRepairs(x: QueueUnitInfo, before: UnitRecord, after: UnitRecord, samePointer: bool)
      requires QueueBut(x, before) && Pending(before, after) && before.key == x.name && before.created == x.created
      requires !InPlace(before, after, samePointer) && !IsDequeued(after)
      ensures UpdateFinds(before, after, samePointer) && UpdateFits(before, after, samePointer)
    {
      assert PlaceWith(x, before) == RankOf(before);
      OldRecordFinds(queue, queueUnits, x, before);
    }

    /** A delete finds it by the rank of the replaced record. That misses once the rank
        comes before the predecessor, and the unit stays in the slice for good. */
    lemma RaisedUnitIsLeft(x: QueueUnitInfo, was: UnitRecord, u: UnitRecord)
      requires QueueBut(x, was) && RaisedPast(queue, x) && u.key == x.name
      ensures !Hits(u)
    {
      SameObjects(queue, queueUnits);
      RaisedIsMissed(queue, queueUnits, x, was);
    }

    // ---------- Repair ----------

    /** `after` permutes `before`, is sorted if the copies in `before` agree, is `before`
        if that is sorted, and is a queue over `m` if only the order of `before` was wrong. */
    static ghost predicate RepairOf(before: seq<QueueUnitInfo>, after: seq<QueueUnitInfo>, m: map<string, QueueUnitInfo>)
      reads before, after
    {
      && multiset(after) == multiset(before)
      && (Agree(before) ==> InOrder(SlotsOf(after)))
      && (InOrder(SlotsOf(before)) ==> after == before)
      && (SameMembers(before, m) ==> QueueOf(after, m))
    }

    /** fixQueue: sorts the slice when two neighbours are out of order. */
    method FixQueue()
      modifies this`queue
      ensures RepairOf(old(queue), queue, queueUnits) && (old(Members()) ==> Valid())
    {
      var needReset := NeedsReset();
      FixCases(needReset);
      if needReset {
        Put(SortInfos(queue), queue);
      }
    }

    method Put(q: seq<QueueUnitInfo>, ghost before: seq<QueueUnitInfo>)
      modifies this`queue
      ensures queue == q && (Valid() <==> old(QueueOf(q, queueUnits)))
      ensures RepairOf(before, queue, queueUnits) <==> old(RepairOf(before, q, queueUnits))
    {
      queue := q;
    }

    /** After the scheduler has replaced a record in place, fixQueue restores the queue. */
    method ReplaceThenFix(x: QueueUnitInfo, u: UnitRecord)
      requires Replaces(x, u)
      modifies x, this`queue
      ensures Valid() && x.unit == u && multiset(queue) == multiset(old(queue))
    {
      ReplaceUnit(x, u);
      FixQueue();
    }

    /** The update that reports the replacement restores it too, as long as it comes first. */
    method ReplaceThenUpdate(x: QueueUnitInfo, u: UnitRecord)
      requires Valid() && x in queue && x.created == x.unit.created == u.created
      requires u.uid == x.unit.uid && u.key == x.name && !IsDequeued(u)
      modifies this`queue, this`queueUnits, this`assumed, this`updating, this`resetNextIdxFlag, this`blockedQuota, x
      ensures Valid() && queueUnits.Keys == old(queueUnits.Keys)
    {
      var before := x.unit;
      ghost var keys := queueUnits.Keys;
      ReplaceQueued(x, u);
      PendingUpdateRepairs(x, before, u, false);
      Update(before, u, false);
    }

    method ReplaceQueued(x: QueueUnitInfo, u: UnitRecord)
      requires Valid() && x in queue && x.created == x.unit.created == u.created && u.uid == x.unit.uid && u.key == x.name
      modifies x
      ensures x.unit == u && QueueBut(x, old(x.unit)) && Pending(old(x.unit), u) && old(x.unit).key == x.name
      ensures u.key in queueUnits && queueUnits[u.key] == x
    {
      ghost var was := x.unit;
      ValidIff();
      OwnKey(x);
      ReplaceUnit(x, u);
      StillPending(x, was, u);
    }

    lemma OwnKey(x: QueueUnitInfo)
      requires Members() && x in queue
      ensures x.unit.key == x.name
    {}

    lemma StillPending(x: QueueUnitInfo, was: UnitRecord, u: UnitRecord)
      requires Members() && x in queue && x.unit == u && was.uid == u.uid && was.key == u.key == x.name
      requires was.created == u.created == x.created
      ensures Pending(was, u) && u.key in queueUnits && queueUnits[u.key] == x
    {
      SameObjects(queue, queueUnits);
      OwnUid(queue, queueUnits, x);
    }

    /** Three units of falling priority, the second of which gets a record of higher priority
        than the first. */
    ghost predicate Raises(a: QueueUnitInfo, x: QueueUnitInfo, b: QueueUnitInfo, u: UnitRecord)
      reads this`queue, this`queueUnits, queue, a, x, b
    {
      && Valid() && queue == [a, x, b] && x.created == x.unit.created == u.created && u.uid == x.unit.uid && u.key == x.name
      && Priority(u) > Priority(a.unit) > Priority(x.unit) > Priority(b.unit)
    }

    /** A delete that comes before the update leaves the unit in the slice. */
    method ReplaceThenDelete(a: QueueUnitInfo, x: QueueUnitInfo, b: QueueUnitInfo, u: UnitRecord)
      requires Raises(a, x, b, u)
      modifies this`queue, this`queueUnits, this`assumed, this`updating, this`resetNextIdxFlag, this`blockedQuota, x
      ensures !Members() && queue == [a, x, b] && x.name !in queueUnits
    {
      ghost var was := x.unit;
      ValidIff();
      OnePlaceEach(0, 1);
      OnePlaceEach(1, 2);
      SameUidApart(0, 1);
      assert queue[1] == x;
      ReplaceQueued(x, u);
      assert RaisedPast(queue, x);
      RaisedUnitIsLeft(x, was, u);
      Delete(u);
    }

    lemma SameUidApart(i: nat, j: nat)
      requires Members() && i < j < |queue|
      ensures queue[i].unit.uid != queue[j].unit.uid && queue[i].name != queue[j].name
    {
      assert Differ(SlotsOf(queue)[i], SlotsOf(queue)[j]);
    }

    /** Once the slice is sorted, the update misses the unit, and it gets a second place. */
    method ReplaceSortUpdate(a: QueueUnitInfo, x: QueueUnitInfo, b: QueueUnitInfo, u: UnitRecord)
      requires Raises(a, x, b, u) && !IsDequeued(u)
      modifies this`queue, this`queueUnits, this`assumed, this`updating, this`resetNextIdxFlag, this`blockedQuota, x
      ensures !Members()
    {
      var before := x.unit;
      ReplaceAndSort(a, x, b, u);
      RaisedAndSortedIsMissed(a.Place(), RankOf(before), b.Place(), Priority(u));
      assert Ranks(SlotsOf(queue)) == [RankOf(before).(priority := Priority(u)), a.Place(), b.Place()];
      Update(before, u, false);
    }

    method ReplaceAndSort(a: QueueUnitInfo, x: QueueUnitInfo, b: QueueUnitInfo, u: UnitRecord)
      requires Raises(a, x, b, u)
      modifies this`queue, x
      ensures queue == [x, a, b] && x.unit == u && a.unit == old(a.unit) && b.unit == old(b.unit)
      ensures Pending(old(x.unit), u) && u.key in queueUnits && queueUnits[u.key] == x && old(x.unit).key == u.key
      ensures a.unit.uid != u.uid && b.unit.uid != u.uid
    {
      ghost var was := x.unit;
      ValidIff();
      SameUidApart(0, 1);
      SameUidApart(1, 2);
      SameUidApart(0, 2);
      assert queue[1] == x;
      ReplaceQueued(x, u);
      SortThree(a, x, b);
      StillPending(x, was, u);
    }

    method SortThree(a: QueueUnitInfo, x: QueueUnitInfo, b: QueueUnitInfo)
      requires Members() && queue == [a, x, b]
      requires a.unit.uid != x.unit.uid && x.unit.uid != b.unit.uid && a.unit.uid != b.unit.uid
      requires Priority(x.unit) > Priority(a.unit) > Priority(b.unit)
      modifies this`queue
      ensures queue == [x, a, b] && Members()
    {
      ghost var q := queue;
      FixQueue();
      ValidIff();
      InPriorityOrder(q, a, x, b);
    }

    /** Three units stand in the order of their priorities. */
    lemma InPriorityOrder(q: seq<QueueUnitInfo>, a: QueueUnitInfo, x: QueueUnitInfo, b: QueueUnitInfo)
      requires q == [a, x, b] && multiset(queue) == multiset(q) && Valid()
      requires a.unit.uid != x.unit.uid && x.unit.uid != b.unit.uid && a.unit.uid != b.unit.uid
      requires Priority(x.unit) > Priority(a.unit) > Priority(b.unit)
      ensures queue == [x, a, b]
    {
      assert |queue| == |multiset(queue)| == |multiset(q)| == 3;
      forall i | 0 <= i < 3 ensures queue[i] in {a, x, b} { assert queue[i] in multiset(queue); }
      forall i, j | 0 <= i < j < 3 ensures Less(queue[i].Place(), queue[j].Place()) < 0 {
        assert Less(Ranks(SlotsOf(queue))[i], Ranks(SlotsOf(queue))[j]) < 0;
      }
      assert Less(queue[0].Place(), queue[1].Place()) < 0 && Less(queue[1].Place(), queue[2].Place()) < 0;
      assert Less(queue[0].Place(), queue[2].Place()) < 0;
    }

    method NeedsReset() returns (needReset: bool)
      ensures !needReset <==> forall k :: 0 < k < |queue| ==> Less(queue[k - 1].Place(), queue[k].Place()) != 1
    {
      needReset := false;
      if |queue| == 0 {
        return;
      }
      var last := queue[0];
      var i := 1;
      while i < |queue|
        invariant 1 <= i <= |queue| && last == queue[i - 1]
        invariant !needReset <==> forall k :: 0 < k < i ==> Less(queue[k - 1].Place(), queue[k].Place()) != 1
      {
        if Less(last.Place(), queue[i].Place()) == 1 {
          needReset := true;
        }
        last := queue[i];
        i := i + 1;
      }
    }

    lemma FixCases(needReset: bool)
      requires !needReset <==> forall k :: 0 < k < |queue| ==> Less(queue[k - 1].Place(), queue[k].Place()) != 1
      ensures RepairOf(queue, if needReset then SortInfos(queue) else queue, queueUnits)
    {
      SortInfosPermutes(queue);
      if Agree(queue) {
        if needReset { SortInfosSorts(queue); } else { NeighboursInOrder(queue); }
      }
      if InOrder(SlotsOf(queue)) {
        InOrderNeighbours(queue);
      }
      if SameMembers(queue, queueUnits) {
        RepairedMembers(queue, queueUnits, needReset);
      }
    }

    function Misplaced(g: UnitRecord -> string): set<string>
      reads this`queueUnits, queueUnits.Values
    {
      MisplacedIn(queueUnits, g, name)
    }

    /** The first `i` units have left the map, which has `n` left: the members are still the
        same exactly if each of them was found, and otherwise the slice is longer. */
    ghost predicate Fixing(s: seq<Slot<QueueUnitInfo>>, ts: seq<Rank>, i: nat, n: int)
      reads this`queue, this`queueUnits, queue
    {
      && i <= |ts|
      && DropSlots(s, ts) == DropSlots(SlotsOf(queue), ts[i..])
      && (AllFound(s, ts) <==> Members() && AllFound(SlotsOf(queue), ts[i..]))
      && |queue| >= n && (Members() <==> |queue| == n)
    }

    /** Fix: the units that another queue should hold leave the map, and the slice too as
        long as each is found by its rank when its turn comes. */
    method Fix(g: UnitRecord -> string) returns (moved: seq<QueueUnitInfo>)
      requires Members()
      modifies this`queue, this`queueUnits, this`assumed, this`updating, this`blockedQuota
      ensures Collected(moved, old(queueUnits)) && Names(moved) == old(Misplaced(g))
      ensures queueUnits == old(queueUnits) - old(Misplaced(g))
      ensures forall k :: k in old(queueUnits) ==> (k in queueUnits <==> old(g(queueUnits[k].unit) == name))
      ensures SlotsOf(queue) == DropSlots(old(SlotsOf(queue)), Places(moved))
      ensures Members() <==> AllFound(old(SlotsOf(queue)), Places(moved))
      ensures old(Valid()) ==> Valid()
      ensures assumed == old(assumed) - old(Misplaced(g)) && updating == old(updating) - old(Misplaced(g))
    {
      moved := CollectMoved(queue, queueUnits, g, name);
      StrippedIsRest(queueUnits, assumed, moved);
      StrippedIsRest(queueUnits, updating, moved);
      RemoveAll(moved);
    }

    method RemoveAll(moved: seq<QueueUnitInfo>)
      requires Members() && Collected(moved, queueUnits)
      modifies this`queue, this`queueUnits, this`assumed, this`updating, this`blockedQuota
      ensures SlotsOf(queue) == DropSlots(old(SlotsOf(queue)), Places(moved))
      ensures Members() <==> AllFound(old(SlotsOf(queue)), Places(moved))
      ensures queueUnits == old(Stripped(queueUnits, moved)) && (old(Valid()) ==> Valid())
      ensures assumed == old(StrippedKeys(assumed, moved)) && updating == old(StrippedKeys(updating, moved))
    {
      ghost var s, ts := SlotsOf(queue), Places(moved);
      StartFixing(s, ts);
      SameObjects(queue, queueUnits);
      RemoveEach(moved, s, ts);
      EndFixing(s, ts, |queueUnits|);
      assert Places(moved) == ts;
    }

    method RemoveEach(moved: seq<QueueUnitInfo>, ghost s: seq<Slot<QueueUnitInfo>>, ghost ts: seq<Rank>)
      requires Collected(moved, queueUnits) && Fixing(s, ts, 0, |queueUnits|) && Places(moved) == ts
      requires forall j :: 0 <= j < |moved| ==> moved[j].unit.key == moved[j].name
      modifies this`queue, this`queueUnits, this`assumed, this`updating, this`blockedQuota
      ensures Fixing(s, ts, |moved|, |queueUnits|)
      ensures queueUnits == old(Stripped(queueUnits, moved)) && (old(Valid()) ==> Valid())
      ensures assumed == old(StrippedKeys(assumed, moved)) && updating == old(StrippedKeys(updating, moved))
    {
      ghost var m, valid, n := queueUnits, Valid(), |queueUnits|;
      var i := 0;
      assert moved[..0] == [];
      while i < |moved|
        invariant i <= |moved| && Fixing(s, ts, i, n) && |queueUnits| == n
        invariant forall j :: 0 <= j < |moved| ==> moved[j].unit == old(moved[j].unit)
        invariant queueUnits == Stripped(m, moved[..i]) && (valid ==> Valid())
        invariant assumed == StrippedKeys(old(assumed), moved[..i]) && updating == StrippedKeys(old(updating), moved[..i])
      {
        StrippedStep(m, old(assumed), moved, i);
        StrippedStep(m, old(updating), moved, i);
        assert moved[i].unit.key == moved[i].name;
        assert ts[i] == moved[i].Place();
        RemoveMoved(moved[i], s, ts, i, n);
        i, n := i + 1, n - 1;
      }
      assert moved[..|moved|] == moved;
    }

    lemma EndFixing(s: seq<Slot<QueueUnitInfo>>, ts: seq<Rank>, n: int)
      requires Fixing(s, ts, |ts|, n)
      ensures SlotsOf(queue) == DropSlots(s, ts) && (Members() <==> AllFound(s, ts))
    {
      assert ts[|ts|..] == [];
    }

    lemma StartFixing(s: seq<Slot<QueueUnitInfo>>, ts: seq<Rank>)
      requires Members() && s == SlotsOf(queue)
      ensures Fixing(s, ts, 0, |queueUnits|)
    {
      MembersSize(queue, queueUnits);
      assert ts[0..] == ts;
    }

    method RemoveMoved(x: QueueUnitInfo, ghost s: seq<Slot<QueueUnitInfo>>, ghost ts: seq<Rank>, ghost i: nat, ghost n: int)
      requires x.name in queueUnits && queueUnits[x.name] == x && x.unit.key == x.name
      requires i < |ts| && ts[i] == x.Place() && Fixing(s, ts, i, n) && |queueUnits| == n
      modifies this`queue, this`queueUnits, this`assumed, this`updating, this`blockedQuota
      ensures Fixing(s, ts, i + 1, n - 1) && |queueUnits| == n - 1 && queueUnits == old(queueUnits) - {x.name} && (old(Valid()) ==> Valid())
      ensures assumed == old(assumed) - {x.name} && updating == old(updating) - {x.name}
    {
      DropSlotsStep(SlotsOf(queue), ts, i);
      RemoveOne(x);
    }

    /** One deletion of Fix, of a unit that the map still holds. */
    method RemoveOne(x: QueueUnitInfo)
      requires x.name in queueUnits && queueUnits[x.name] == x && x.unit.key == x.name
      requires |queue| >= |queueUnits| && (Members() <==> |queue| == |queueUnits|)
      modifies this`queue, this`queueUnits, this`assumed, this`updating, this`blockedQuota
      ensures queueUnits == old(queueUnits) - {x.name}
      ensures SlotsOf(queue) == DropSlot(old(SlotsOf(queue)), x.Place())
      ensures |queue| >= |queueUnits| && (Members() <==> |queue| == |queueUnits|)
      ensures Members() <==> old(Members() && FoundIn(queue, x.Place()))
      ensures old(Valid()) ==> Valid()
      ensures assumed == old(assumed) - {x.name} && updating == old(updating) - {x.name}
    {
      DroppedSlots(queue, x.Place());
      if Valid() {
        CachedIsHit(x.unit);
        ValidIff();
      }
      DeleteWithoutLock(x.unit);
      Mismatch();
    }

    // ---------- The scan ----------

    predicate Eligible(x: QueueUnitInfo)
      reads this`updating, this`blockedQuota, x
    {
      && x.unit.key !in updating
      && (activeFeature ==> IsActive(x.unit))
      && !IsSatisfied(x.unit)
      && QuotaSet(x.unit) !! blockedQuota
    }

    /** A unit is eligible exactly if it is not being updated nor switched off, some pod set
        is not admitted in full, and its quota is not blocked. */
    lemma EligibleIff(x: QueueUnitInfo)
      requires x.unit.podSets != [] && UniquePodSets(x.unit.podSets) && UniqueNames(x.unit.admissions)
      ensures Eligible(x) <==>
        && x.unit.key !in updating
        && !(activeFeature && x.unit.active == Some(false))
        && (exists i :: 0 <= i < |x.unit.podSets| && !Admits(x.unit.admissions, x.unit.podSets[i]))
        && (quotaOf(x.unit).Some? ==> quotaOf(x.unit).value !in blockedQuota)
    {
      SatisfiedIff(x.unit);
    }

    /** The scan looks at no unit from this position on. */
    function Depth(): (d: nat)
      reads this`queue, this`maxDepth
      ensures d <= |queue| && (maxDepth > 0 ==> d <= maxDepth) && (d == |queue| || d == maxDepth)
    {
      if maxDepth > 0 then Min(|queue|, maxDepth) else |queue|
    }

    /** findNextQueueUnit: the first eligible unit from the cursor on, which starts over
        when it was reset or when the last reset is too long ago. */
    method FindNextQueueUnit(expired: bool) returns (found: Option<QueueUnitInfo>)
      modifies this`nextIdx, this`resetNextIdxFlag
      ensures var start := if old(resetNextIdxFlag) || expired then 0 else old(nextIdx);
        && start <= nextIdx
        && (forall j :: start <= j < nextIdx && j < Depth() ==> !Eligible(queue[j]))
        && match found
           case Some(x) => nextIdx < Depth() && x == queue[nextIdx] && Eligible(x)
           case None => Depth() <= nextIdx
      ensures !resetNextIdxFlag
    {
      if resetNextIdxFlag || expired {
        nextIdx := 0;
        resetNextIdxFlag := false;
      }
      ghost var start := nextIdx;
      while true
        invariant start <= nextIdx && !resetNextIdxFlag
        invariant forall j :: start <= j < nextIdx && j < Depth() ==> !Eligible(queue[j])
        decreases |queue| - nextIdx
      {
        if nextIdx >= |queue| || (maxDepth > 0 && nextIdx >= maxDepth) {
          return None;
        }
        var x := queue[nextIdx];
        if x.unit.key in updating {
          nextIdx := nextIdx + 1;
          continue;
        }
        if activeFeature && !IsActive(x.unit) {
          nextIdx := nextIdx + 1;
          continue;
        }
        if IsSatisfied(x.unit) {
          nextIdx := nextIdx + 1;
          continue;
        }
        if quotaOf(x.unit).Some? && quotaOf(x.unit).value in blockedQuota {
          nextIdx := nextIdx + 1;
          continue;
        }
        return Some(x);
      }
    }

    /** The queue is served by priority, then by age, then by name. */
    lemma ServiceOrder(i: nat, j: nat)
      requires Valid() && i < j < |queue|
      ensures Priority(queue[i].unit) >= Priority(queue[j].unit)
      ensures Priority(queue[i].unit) == Priority(queue[j].unit) ==> queue[i].created <= queue[j].created
      ensures Before(queue[i], queue[j])
      ensures queue[i].unit.priority.None? ==> queue[j].unit.priority.None? || queue[j].unit.priority.value <= 0
      ensures queue[j].unit.priority.None? ==> queue[i].unit.priority.None? || queue[i].unit.priority.value >= 0
    {
      QueueOrder(queue, queueUnits, i, j);
    }

    /** From a reset cursor the scan returns the unit that comes first in the order among
        all eligible units within the depth: it has the highest priority of them and is the
        oldest of those. */
    lemma FirstIsLeast(k: nat, j: nat)
      requires Valid() && k < Depth() && Eligible(queue[k])
      requires forall i :: 0 <= i < k ==> !Eligible(queue[i])
      requires j < Depth() && Eligible(queue[j]) && j != k
      ensures Less(queue[k].Place(), queue[j].Place()) < 0
      ensures Priority(queue[k].unit) >= Priority(queue[j].unit)
      ensures Priority(queue[k].unit) == Priority(queue[j].unit) ==> queue[k].created <= queue[j].created
      ensures Before(queue[k], queue[j])
    {
      assert Less(Ranks(SlotsOf(queue))[k], Ranks(SlotsOf(queue))[j]) < 0;
      ServiceOrder(k, j);
    }

    /** The unit handed out from a reset cursor is served before every other eligible one, and
        if none is handed out none is eligible. */
    method BestFirst(expired: bool) returns (found: Option<QueueUnitInfo>)
      requires Valid() && (resetNextIdxFlag || expired)
      modifies this`nextIdx, this`resetNextIdxFlag
      ensures match found
        case Some(x) => Eligible(x) && x in queue[..Depth()] &&
                        forall y :: y in queue[..Depth()] && Eligible(y) && y != x ==> Before(x, y)
        case None => forall y :: y in queue[..Depth()] ==> !Eligible(y)
    {
      found := FindNextQueueUnit(expired);
      ghost var k := nextIdx;
      if found.Some? {
        assert queue[..Depth()][k] == found.value;
        forall y | y in queue[..Depth()] && Eligible(y) && y != found.value ensures Before(found.value, y) {
          var j :| 0 <= j < Depth() && queue[j] == y;
          ServiceOrder(k, j);
        }
      }
    }

    /** The run: a unit without a priority is passed while it is switched off. When it is
        switched on again nothing else changes, so the scan does not start over and hands out
        nothing, although the unit could be. */
    method ReactivatedIsMissed(x: QueueUnitInfo, version: int) returns (first: Option<QueueUnitInfo>, second: Option<QueueUnitInfo>)
      requires Valid() && queue == [x] && nextIdx == 0 && activeFeature && maxDepth <= 0 && x.created == x.unit.created
      requires x.unit.active == Some(false) && x.unit.priority == None && x.unit.version != version
      requires x.unit.podSets == [PodSet("w", 2, map[])] && x.unit.admissions == [] && x.unit.phase == Enqueued
      requires x.unit.key !in updating && QuotaSet(x.unit.(active := None, version := version)) !! blockedQuota
      modifies this, x
      ensures first == None && second == None && queue == [x] && Eligible(x)
    {
      first := FindNextQueueUnit(false);
      assert nextIdx > 0;
      SwitchOn(x, version);
      second := FindNextQueueUnit(false);
    }

    method SwitchOn(x: QueueUnitInfo, version: int)
      requires Valid() && queue == [x] && !resetNextIdxFlag && x.created == x.unit.created && x.unit.version != version
      requires x.unit.podSets == [PodSet("w", 2, map[])] && x.unit.admissions == [] && x.unit.phase == Enqueued
      modifies this`queue, this`queueUnits, this`assumed, this`updating, this`resetNextIdxFlag, this`blockedQuota, x
      ensures queue == [x] && x.unit == old(x.unit).(active := None, version := version) && !resetNextIdxFlag
      ensures updating == old(updating) && blockedQuota == old(blockedQuota) && !IsSatisfied(x.unit)
    {
      var u := x.unit;
      var v := u.(active := None, version := version);
      OnlyUnit(x, v);
      NothingElseChanges(u, v);
      Update(u, v, true);
      OnlyMember(x);
    }

    lemma OnlyUnit(x: QueueUnitInfo, v: UnitRecord)
      requires Valid() && queue == [x] && x.created == x.unit.created
      requires v.key == x.unit.key && v.uid == x.unit.uid && v.created == x.unit.created
      ensures Pending(x.unit, v) && x.name == v.key && queueUnits == map[v.key := x]
    {
      ValidIff();
      assert queue[0].unit.key == queue[0].name;
      SameObjects(queue, queueUnits);
    }

    lemma NothingElseChanges(u: UnitRecord, v: UnitRecord)
      requires u.podSets == [PodSet("w", 2, map[])] && u.admissions == [] && u.phase == Enqueued
      requires v == u.(active := None, version := v.version)
      ensures Skips(u, v, true) && !IsResourceReleased(u, v) && !IsSatisfied(v)
    {
      AdmissionsChangedIff(u, v);
      SatisfiedIff(v);
      assert !Admits(v.admissions, v.podSets[0]);
    }

    lemma OnlyMember(x: QueueUnitInfo)
      requires Members() && queueUnits == map[x.name := x]
      ensures queue == [x]
    {
      SameObjects(queue, queueUnits);
      MembersSize(queue, queueUnits);
    }

    // ---------- Reserve and unschedulable units ----------

    /** The assumed units that a preemptor ranked `t` may push out. */
    function Preemptible(t: Rank, now: int, protectTime: int): set<string>
      reads this`assumed, this`queueUnits, queueUnits.Values
    {
      set k | k in assumed && k in queueUnits &&
        Less(t, queueUnits[k].Place()) < 0 && !Protected(queueUnits[k].unit, now, protectTime)
    }

    /** They are the queued ones that come after the preemptor by priority, age and name, and
        whose last allocation is long enough ago. */
    lemma PreemptibleIff(x: QueueUnitInfo, k: string, now: int, protectTime: int)
      requires Valid() && k in queueUnits
      ensures k in Preemptible(x.Place(), now, protectTime) <==>
        && k in assumed && queueUnits[k].unit.uid != x.unit.uid && Before(x, queueUnits[k])
        && (protectTime <= 0 || queueUnits[k].unit.lastAllocate.None? || queueUnits[k].unit.lastAllocate.value + protectTime <= now)
    {
      LessIff(x.Place(), queueUnits[k].Place());
    }

    /** Reserve: at most one unit is in flight in a queue that waits for pods to run; a
        second one is refused and names the later-ranked units to preempt. */
    method Reserve(x: QueueUnitInfo, now: int, protectTime: int, preempting: bool)
        returns (ok: bool, preempted: bool, victims: set<string>)
      modifies this`nextIdx, this`resetNextIdxFlag, this`assumed, this`updating
      ensures ok == !(waitPodsRunning && old(assumed) != {})
      ensures ok ==> assumed == old(assumed) + {x.unit.key} && updating == old(updating) + {x.unit.key}
      ensures ok ==> if blocked then resetNextIdxFlag && nextIdx == old(nextIdx)
                     else nextIdx == old(nextIdx) + 1 && resetNextIdxFlag == old(resetNextIdxFlag)
      ensures !ok ==> updating == old(updating) && nextIdx == old(nextIdx) && resetNextIdxFlag == old(resetNextIdxFlag)
      ensures !ok && preempting ==> preempted && victims == {} && assumed == old(assumed)
      ensures !ok && !preempting ==>
                && assumed == old(assumed) * queueUnits.Keys
                && victims == old(Preemptible(x.Place(), now, protectTime)) && preempted == (victims != {})
    {
      if waitPodsRunning && assumed != {} {
        if preempting {
          return false, true, {};
        }
        victims := {};
        var todo := assumed;
        while todo != {}
          invariant todo <= old(assumed)
          invariant assumed == old(assumed) * queueUnits.Keys + todo
          invariant victims == old(Preemptible(x.Place(), now, protectTime)) - todo
          invariant updating == old(updating) && nextIdx == old(nextIdx) && resetNextIdxFlag == old(resetNextIdxFlag)
        {
          var k :| k in todo;
          todo := todo - {k};
          if k !in queueUnits {
            assumed := assumed - {k};
          } else if Less(x.Place(), queueUnits[k].Place()) < 0 {
            if !Protected(queueUnits[k].unit, now, protectTime) {
              victims := victims + {k};
            }
          }
        }
        return false, victims != {}, victims;
      }
      if !blocked {
        nextIdx := nextIdx + 1;
      } else {
        resetNextIdxFlag := true;
      }
      assumed := assumed + {x.unit.key};
      updating := updating + {x.unit.key};
      return true, false, {};
    }

    method AddUnschedulableIfNotPresent(x: QueueUnitInfo, allocatableChanged: bool)
      modifies this`nextIdx, this`resetNextIdxFlag, this`assumed, this`updating, this`blockedQuota
      ensures assumed == old(assumed) - {x.unit.key} && updating == old(updating) - {x.unit.key}
      ensures if !allocatableChanged && !blocked
              then nextIdx == old(nextIdx) + 1 && resetNextIdxFlag == old(resetNextIdxFlag)
              else nextIdx == old(nextIdx) && resetNextIdxFlag
      ensures blockedQuota == old(blockedQuota) + if blocked && !allocatableChanged then QuotaSet(x.unit) else {}
    {
      if !allocatableChanged && !blocked {
        nextIdx := nextIdx + 1;
      } else {
        resetNextIdxFlag := true;
      }
      if blocked && !allocatableChanged {
        blockedQuota := blockedQuota + QuotaSet(x.unit);
      }
      assumed := assumed - {x.unit.key};
      updating := updating - {x.unit.key};
    }

    // ---------- Attempts without other events ----------

    /** The next unit is handed out and turns out to be unschedulable. `k` is its place. */
    method Attempt() returns (x: Option<QueueUnitInfo>, ghost k: nat)
      modifies this`nextIdx, this`resetNextIdxFlag, this`assumed, this`updating, this`blockedQuota
      ensures x.Some? ==> (if old(resetNextIdxFlag) then 0 else old(nextIdx)) <= k < Depth() && x.value == queue[k]
      ensures x.Some? ==> old(Eligible(queue[k]))
      ensures forall j :: (if old(resetNextIdxFlag) then 0 else old(nextIdx)) <= j < Depth() && (x.None? || j < k) ==>
                !old(Eligible(queue[j]))
      ensures x.Some? ==> updating == old(updating) - {x.value.unit.key}
      ensures x.Some? && !blocked ==> nextIdx == k + 1 && !resetNextIdxFlag && blockedQuota == old(blockedQuota)
      ensures x.Some? && blocked ==> resetNextIdxFlag && blockedQuota == old(blockedQuota) + QuotaSet(x.value.unit)
    {
      x := FindNextQueueUnit(false);
      k := nextIdx;
      if x.Some? {
        AddUnschedulableIfNotPresent(x.value, false);
      }
    }

    /** With the cursor reset, a blocking queue hands out the same unit again exactly if the
        unit has no quota that could be blocked; a queue that does not block goes on. */
    method AttemptTwice() returns (a: Option<QueueUnitInfo>, b: Option<QueueUnitInfo>)
      requires Members() && resetNextIdxFlag
      modifies this`nextIdx, this`resetNextIdxFlag, this`assumed, this`updating, this`blockedQuota
      ensures blocked && a.Some? ==> (b == a <==> QuotaSet(a.value.unit) == {})
      ensures !blocked && a.Some? ==> b != a
    {
      ghost var k, l;
      a, k := Attempt();
      if a.None? {
        return a, None;
      }
      b, l := Attempt();
      if b.Some? {
        OnePlaceEach(k, l);
      }
    }

    lemma OnePlaceEach(i: nat, j: nat)
      requires Members() && i < |queue| && j < |queue|
      ensures queue[i] == queue[j] <==> i == j
    {
      if queue[i] == queue[j] {
        SameUidSamePlace(queue, queueUnits, i, j);
      }
    }

    /** Everything handed out has been passed: it lies before the cursor, or its quota is
        blocked. */
    ghost predicate Passed(handed: seq<QueueUnitInfo>, places: seq<nat>)
      reads this`queue, this`blocked, this`nextIdx, this`resetNextIdxFlag, this`blockedQuota, queue, handed
    {
      && |places| == |handed|
      && (forall i :: 0 <= i < |handed| ==> places[i] < |queue| && handed[i] == queue[places[i]])
      && (forall i :: 0 <= i < |handed| ==>
            if blocked then !(QuotaSet(handed[i].unit) !! blockedQuota)
            else !resetNextIdxFlag && places[i] < nextIdx)
    }

    /** Over any number of attempts without other events no unit is handed out twice, in a
        blocking queue provided that every unit has a quota. */
    method Round(n: nat) returns (handed: seq<QueueUnitInfo>)
      requires Members() && (blocked ==> forall i :: 0 <= i < |queue| ==> QuotaSet(queue[i].unit) != {})
      modifies this`nextIdx, this`resetNextIdxFlag, this`assumed, this`updating, this`blockedQuota
      ensures forall i, j :: 0 <= i < j < |handed| ==> handed[i] != handed[j]
      ensures forall i :: 0 <= i < |handed| ==> handed[i] in queue
    {
      handed := [];
      ghost var places: seq<nat> := [];
      for t := 0 to n
        invariant Passed(handed, places)
        invariant forall i, j :: 0 <= i < j < |handed| ==> handed[i] != handed[j]
      {
        var x;
        ghost var k;
        x, k := Attempt();
        if x.None? {
          return;
        }
        forall i | 0 <= i < |handed| ensures handed[i] != x.value {
          if !blocked { OnePlaceEach(places[i], k); }
        }
        handed := handed + [x.value];
        places := places + [k];
      }
    }

    /** In a blocking queue the first eligible unit, if it has no quota, is handed out any
        number of times. */
    method SameAgain(n: nat, ghost k: nat) returns (handed: seq<QueueUnitInfo>)
      requires blocked && resetNextIdxFlag && k < Depth() && Eligible(queue[k]) && QuotaSet(queue[k].unit) == {}
      requires forall j :: 0 <= j < k ==> !Eligible(queue[j])
      modifies this`nextIdx, this`resetNextIdxFlag, this`assumed, this`updating, this`blockedQuota
      ensures |handed| == n && forall i :: 0 <= i < n ==> handed[i] == queue[k]
    {
      handed := [];
      for t := 0 to n
        invariant |handed| == t && (forall i :: 0 <= i < t ==> handed[i] == queue[k])
        invariant resetNextIdxFlag && updating == old(updating) && blockedQuota == old(blockedQuota)
      {
        var x;
        ghost var l;
        x, l := Attempt();
        assert x.Some? && l == k;
        handed := handed + [x.value];
      }
    }

    /** For example: the only unit of a blocking queue, without a quota. */
    method OnlyUnitAgain(x: QueueUnitInfo, n: nat) returns (handed: seq<QueueUnitInfo>)
      requires blocked && resetNextIdxFlag && queue == [x] && maxDepth <= 0 && Eligible(x) && quotaOf(x.unit) == None
      modifies this`nextIdx, this`resetNextIdxFlag, this`assumed, this`updating, this`blockedQuota
      ensures handed == seq(n, i => x)
    {
      assert queue[0] == x;
      handed := SameAgain(n, 0);
    }

    /** A unit in flight is not handed out again. */
    method NextReserveNext(now: int, protectTime: int) returns (a: Option<QueueUnitInfo>, ok: bool, b: Option<QueueUnitInfo>)
      modifies this`nextIdx, this`resetNextIdxFlag, this`assumed, this`updating
      ensures a.Some? && ok ==> a.value.unit.key in updating && b != a
    {
      a := FindNextQueueUnit(false);
      if a.None? {
        return a, false, None;
      }
      var preempted, victims;
      ok, preempted, victims := Reserve(a.value, now, protectTime, false);
      b := FindNextQueueUnit(false);
    }
  }
}
