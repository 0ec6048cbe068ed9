/** Queue unit infos: the shared objects that the slice and the map of a queue point to. */
module UnitInfos {
  import opened Amounts
  import opened QueueUnits
  import opened UnitOrder
  import opened SortedSlots

  /** framework.QueueUnitInfo. `created` is InitialAttemptTimestamp, which every copy of
      a unit takes from the creation time; `unit` is replaced in place by updates. */
  class QueueUnitInfo {
    const name: string
    const created: int
    var unit: UnitRecord

    constructor (u: UnitRecord)
      ensures name == u.key && created == u.created && unit == u
    {
      name, created, unit := u.key, u.created, u;
    }

    function Place(): Rank
      reads this
    {
      Rank(unit.uid, Priority(unit), created, name)
    }
  }

  /** The rank NewQueueUnitInfo gives a unit. */
  function RankOf(u: UnitRecord): Rank {
    Rank(u.uid, Priority(u), u.created, u.key)
  }

  function SlotOf(x: QueueUnitInfo): Slot<QueueUnitInfo>
    reads x
  {
    Slot(x.Place(), x)
  }

  function SlotsOf(q: seq<QueueUnitInfo>): (s: seq<Slot<QueueUnitInfo>>)
    reads q
    ensures |s| == |q| && forall i :: 0 <= i < |q| ==> s[i] == SlotOf(q[i])
  {
    seq(|q|, i requires 0 <= i < |q| reads q => SlotOf(q[i]))
  }

  function Places(xs: seq<QueueUnitInfo>): (r: seq<Rank>)
    reads xs
    ensures |r| == |xs| && forall i :: 0 <= i < |xs| ==> r[i] == xs[i].Place()
  {
    Ranks(SlotsOf(xs))
  }

  function Items(s: seq<Slot<QueueUnitInfo>>): (q: seq<QueueUnitInfo>)
    ensures |q| == |s| && forall i :: 0 <= i < |s| ==> q[i] == s[i].item
  {
    seq(|s|, i requires 0 <= i < |s| => s[i].item)
  }

  lemma SlotsInsert(q: seq<QueueUnitInfo>, k: nat, x: QueueUnitInfo)
    requires k <= |q|
    ensures SlotsOf(InsertAt(q, k, x)) == InsertAt(SlotsOf(q), k, SlotOf(x))
  {}

  lemma SlotsRemove(q: seq<QueueUnitInfo>, k: nat)
    requires k < |q|
    ensures SlotsOf(RemoveAt(q, k)) == RemoveAt(SlotsOf(q), k)
  {}

  /** The slice after slices.SortFunc. */
  function SortInfos(q: seq<QueueUnitInfo>): seq<QueueUnitInfo>
    reads q
  {
    Items(SortFunc(SlotsOf(q)))
  }

  lemma {:induction false} ItemsOfInsert(s: seq<Slot<QueueUnitInfo>>, x: Slot<QueueUnitInfo>)
    ensures multiset(Items(InsertBy(s, x))) == multiset(Items(s)) + multiset{x.item}
  {
    if s == [] || Less(s[|s| - 1].rank, x.rank) <= 0 {
      assert Items(s + [x]) == Items(s) + [x.item];
    } else {
      var n := |s| - 1;
      ItemsOfInsert(s[..n], x);
      assert Items(s) == Items(s[..n]) + [s[n].item];
      assert Items(InsertBy(s[..n], x) + [s[n]]) == Items(InsertBy(s[..n], x)) + [s[n].item];
    }
  }

  lemma {:induction false} ItemsOfSort(s: seq<Slot<QueueUnitInfo>>)
    ensures multiset(Items(SortFunc(s))) == multiset(Items(s))
  {
    if s != [] {
      var n := |s| - 1;
      ItemsOfSort(s[..n]);
      ItemsOfInsert(SortFunc(s[..n]), s[n]);
      assert Items(s) == Items(s[..n]) + [s[n].item];
    }
  }

  /** Slots taken from a slice point to objects with those ranks, in any order. */
  lemma ItemsSlots(s: seq<Slot<QueueUnitInfo>>, q: seq<QueueUnitInfo>)
    requires multiset(s) == multiset(SlotsOf(q))
    ensures SlotsOf(Items(s)) == s
  {
    forall i | 0 <= i < |s| ensures SlotOf(s[i].item) == s[i] {
      assert s[i] in multiset(s);
      var k :| 0 <= k < |q| && SlotsOf(q)[k] == s[i];
    }
  }

  lemma SortInfosPermutes(q: seq<QueueUnitInfo>)
    ensures multiset(SortInfos(q)) == multiset(q)
    ensures SlotsOf(SortInfos(q)) == SortFunc(SlotsOf(q))
  {
    SortPermutes(SlotsOf(q));
    ItemsOfSort(SlotsOf(q));
    assert Items(SlotsOf(q)) == q;
    ItemsSlots(SortFunc(SlotsOf(q)), q);
  }

  lemma SortInfosSize(q: seq<QueueUnitInfo>)
    ensures |SortInfos(q)| == |q|
  {
    SortInfosPermutes(q);
    assert |multiset(SortInfos(q))| == |multiset(q)|;
  }

  // ---------- A queue: slice and map together ----------

  /** The slice is strictly sorted, holds each UID once and exactly the units of the
      map, each under its own key. */
  ghost predicate QueueOf(q: seq<QueueUnitInfo>, m: map<string, QueueUnitInfo>)
    reads q
  {
    Queued(SlotsOf(q), m) && forall i :: 0 <= i < |q| ==> q[i].unit.key == q[i].name
  }

  /** The slice holds exactly the units of the map, each once, in any order. */
  ghost predicate SameMembers(q: seq<QueueUnitInfo>, m: map<string, QueueUnitInfo>)
    reads q
  {
    Holds(SlotsOf(q), m) && forall i :: 0 <= i < |q| ==> q[i].unit.key == q[i].name
  }

  ghost predicate Ordered(q: seq<QueueUnitInfo>)
    reads q
  {
    InOrder(SlotsOf(q))
  }

  /** The units but one are in order. */
  ghost predicate OrderedWithout(q: seq<QueueUnitInfo>, key: string)
    reads q
  {
    OrderedBut(SlotsOf(q), key)
  }

  /** A queue is its members in order. */
  lemma QueueIff(q: seq<QueueUnitInfo>, m: map<string, QueueUnitInfo>)
    ensures QueueOf(q, m) <==> SameMembers(q, m) && Ordered(q)
  {
    QueuedIff(SlotsOf(q), m);
  }

  /** `x` is served before `y`: it has a higher priority, or the same and is older, or it is as
      old and its name ascends to the other's. */
  ghost predicate Before(x: QueueUnitInfo, y: QueueUnitInfo)
    reads x, y
  {
    Precedes(Priority(x.unit), x.created, x.name, Priority(y.unit), y.created, y.name)
  }

  lemma PlacesBefore(x: QueueUnitInfo, y: QueueUnitInfo)
    ensures Less(x.Place(), y.Place()) < 0 <==> x.unit.uid != y.unit.uid && Before(x, y)
  {
    LessIff(x.Place(), y.Place());
  }

  /** A queue serves its units in that order. */
  lemma QueueOrder(q: seq<QueueUnitInfo>, m: map<string, QueueUnitInfo>, i: nat, j: nat)
    requires QueueOf(q, m) && i < j < |q|
    ensures Before(q[i], q[j]) && q[i].unit.uid != q[j].unit.uid
  {
    assert Less(Ranks(SlotsOf(q))[i], Ranks(SlotsOf(q))[j]) < 0;
    PlacesBefore(q[i], q[j]);
  }

  /** UID and name of `t` belong together in the slice. */
  ghost predicate Paired(q: seq<QueueUnitInfo>, t: Rank)
    reads q
  {
    forall i :: 0 <= i < |q| ==> (q[i].unit.uid == t.uid <==> q[i].name == t.name)
  }

  /** Every queued copy of the unit has rank `t`. */
  ghost predicate RankedAs(q: seq<QueueUnitInfo>, t: Rank)
    reads q
  {
    Paired(q, t) && forall i :: 0 <= i < |q| && q[i].name == t.name ==> q[i].Place() == t
  }

  /** UIDs and keys correspond: no unit queued under another key has this UID. */
  ghost predicate OwnsUidIn(q: seq<QueueUnitInfo>, key: string, uid: string)
    reads q
  {
    forall i :: 0 <= i < |q| && q[i].name != key ==> q[i].unit.uid != uid
  }

  /** One unit before and after an update: its UID belongs to its key and to no other, as
      does its creation time. What priority the queued copy has is left open. */
  ghost predicate DescribesIn(q: seq<QueueUnitInfo>, before: UnitRecord, after: UnitRecord)
    reads q
  {
    && before.uid == after.uid && before.key == after.key && before.created == after.created
    && OwnsUidIn(q, after.key, after.uid)
    && forall i :: 0 <= i < |q| && q[i].name == after.key ==> q[i].unit.uid == after.uid && q[i].created == after.created
  }

  lemma DescribesPairs(q: seq<QueueUnitInfo>, before: UnitRecord, after: UnitRecord)
    requires DescribesIn(q, before, after)
    ensures Paired(q, RankOf(after)) && Paired(q, RankOf(before))
  {}

  /** The queued copy has the rank of this record. */
  ghost predicate QueuedAs(q: seq<QueueUnitInfo>, u: UnitRecord)
    reads q
  {
    forall i :: 0 <= i < |q| && q[i].name == u.key ==> q[i].Place() == RankOf(u)
  }

  function Newer(cached: UnitRecord, after: UnitRecord): UnitRecord {
    if cached.version != after.version then after else cached
  }

  /** Priorities are compared by pointer: `samePointer` implies equal values, and two
      unset priorities are the same pointer. */
  predicate PointersFit(before: UnitRecord, after: UnitRecord, samePointer: bool) {
    && (samePointer ==> before.priority == after.priority)
    && (before.priority == after.priority == None ==> samePointer)
  }

  /** At most one element has been taken out. */
  predicate Reduced<T(==)>(before: seq<T>, after: seq<T>) {
    after == before || exists k :: 0 <= k < |before| && after == RemoveAt(before, k)
  }

  function IndexIn(q: seq<QueueUnitInfo>, t: Rank): (i: nat)
    reads q
    ensures i <= |q|
  {
    SearchIndex(Ranks(SlotsOf(q)), t)
  }

  predicate FoundIn(q: seq<QueueUnitInfo>, t: Rank)
    reads q
    ensures FoundIn(q, t) ==> IndexIn(q, t) < |q|
  {
    Found(Ranks(SlotsOf(q)), t)
  }

  /** Deleting what a search with the queued rank hits drops exactly that unit. */
  lemma RemoveKeeps(q: seq<QueueUnitInfo>, m: map<string, QueueUnitInfo>, t: Rank)
    requires QueueOf(q, m) && RankedAs(q, t)
    ensures FoundIn(q, t) <==> t.name in m
    ensures FoundIn(q, t) ==> QueueOf(RemoveAt(q, IndexIn(q, t)), m - {t.name})
  {
    var s := SlotsOf(q);
    assert OneToOne(s, t);
    FindQueued(s, m, t);
    SearchAndRemove(s, m, t);
    if FoundIn(q, t) {
      SlotsRemove(q, IndexIn(q, t));
    }
  }

  /** Inserting a new unit where the search points keeps the queue. */
  lemma InsertKeeps(q: seq<QueueUnitInfo>, m: map<string, QueueUnitInfo>, x: QueueUnitInfo)
    requires QueueOf(q, m) && x.name !in m && x.unit.key == x.name
    requires forall i :: 0 <= i < |q| ==> q[i].unit.uid != x.unit.uid
    ensures !FoundIn(q, x.Place())
    ensures QueueOf(InsertAt(q, IndexIn(q, x.Place()), x), m[x.name := x])
  {
    InsertQueued(SlotsOf(q), m, SlotOf(x));
    SlotsInsert(q, IndexIn(q, x.Place()), x);
  }

  /** The slice after a search and the deletion of what it hits. */
  function Dropped(q: seq<QueueUnitInfo>, t: Rank): seq<QueueUnitInfo>
    reads q
  {
    if FoundIn(q, t) then RemoveAt(q, IndexIn(q, t)) else q
  }

  /** Whatever a search for a unit hits is its slot. So the members survive its removal from
      the map exactly when the search hits it, and the rest is a queue if it is in order,
      whatever place the unit itself had. */
  lemma DropIff(q: seq<QueueUnitInfo>, m: map<string, QueueUnitInfo>, t: Rank)
    requires SameMembers(q, m) && Paired(q, t)
    ensures t.name !in m ==> !FoundIn(q, t) && m - {t.name} == m
    ensures SameMembers(Dropped(q, t), m - {t.name}) <==> (t.name in m ==> FoundIn(q, t))
    ensures QueueOf(Dropped(q, t), m - {t.name}) <==> (t.name in m ==> FoundIn(q, t)) && OrderedWithout(q, t.name)
  {
    if FoundIn(q, t) {
      DropHit(q, m, t);
    } else if t.name in m {
      LeftBehind(q, m, t.name);
    } else {
      Absent(q, m, t.name);
    }
    QueueIff(Dropped(q, t), m - {t.name});
  }

  lemma DropHit(q: seq<QueueUnitInfo>, m: map<string, QueueUnitInfo>, t: Rank)
    requires SameMembers(q, m) && Paired(q, t) && FoundIn(q, t)
    ensures t.name in m && SameMembers(Dropped(q, t), m - {t.name})
    ensures Ordered(Dropped(q, t)) <==> OrderedWithout(q, t.name)
  {
    var s, k := SlotsOf(q), IndexIn(q, t);
    assert OneToOne(s, t);
    FoundIsNamed(s, t);
    HoldsRemove(s, m, k);
    OrderedButRemove(s, k);
    SlotsRemove(q, k);
  }

  /** The slice still holds a unit that the map has lost. */
  lemma LeftBehind(q: seq<QueueUnitInfo>, m: map<string, QueueUnitInfo>, k: string)
    requires SameMembers(q, m) && k in m
    ensures !SameMembers(q, m - {k})
  {
    MembersSize(q, m);
    if SameMembers(q, m - {k}) {
      MembersSize(q, m - {k});
    }
  }

  lemma Absent(q: seq<QueueUnitInfo>, m: map<string, QueueUnitInfo>, k: string)
    requires SameMembers(q, m) && k !in m
    ensures m - {k} == m && (OrderedWithout(q, k) <==> Ordered(q))
  {
    SameObjects(q, m);
    OrderedButAbsent(SlotsOf(q), k);
  }

  /** A hit of a search for a unit that is not in the map takes another one out. */
  lemma StrayHit(q: seq<QueueUnitInfo>, m: map<string, QueueUnitInfo>, t: Rank)
    requires SameMembers(q, m) && FoundIn(q, t)
    ensures !SameMembers(Dropped(q, t), m)
  {
    MembersSize(q, m);
    if SameMembers(Dropped(q, t), m) {
      MembersSize(Dropped(q, t), m);
    }
  }

  /** A new unit that enters where the search points keeps the members, and the order if
      there was one. */
  lemma EnterIff(q: seq<QueueUnitInfo>, m: map<string, QueueUnitInfo>, x: QueueUnitInfo)
    requires SameMembers(q, m) && x.name !in m && x.unit.key == x.name && OwnsUidIn(q, x.name, x.unit.uid)
    ensures !FoundIn(q, x.Place())
    ensures SameMembers(InsertAt(q, IndexIn(q, x.Place()), x), m[x.name := x])
    ensures QueueOf(InsertAt(q, IndexIn(q, x.Place()), x), m[x.name := x]) <==> Ordered(q)
  {
    var k := IndexIn(q, x.Place());
    NewToRest(q, m, x);
    NewIsNotFound(SlotsOf(q), m, SlotOf(x));
    HoldsInsert(SlotsOf(q), m, k, SlotOf(x));
    InsertOrderIff(SlotsOf(q), m, SlotOf(x));
    SlotsInsert(q, k, x);
    QueueIff(InsertAt(q, k, x), m[x.name := x]);
  }

  /** A unit whose UID another key holds cannot enter: the map gets ahead of the slice, or
      the slice gets two places for the UID. */
  lemma DoubleUid(q: seq<QueueUnitInfo>, m: map<string, QueueUnitInfo>, k: nat, x: QueueUnitInfo)
    requires SameMembers(q, m) && x.name !in m && !OwnsUidIn(q, x.name, x.unit.uid) && k <= |q|
    ensures !SameMembers(q, m[x.name := x]) && !SameMembers(InsertAt(q, k, x), m[x.name := x])
  {
    MembersSize(q, m);
    var m', r := m[x.name := x], InsertAt(q, k, x);
    if SameMembers(q, m') {
      MembersSize(q, m');
    }
    var j :| 0 <= j < |q| && q[j].name != x.name && q[j].unit.uid == x.unit.uid;
    assert r[k] == x && r[if j < k then j else j + 1] == q[j];
    if SameMembers(r, m') {
      SameUidSamePlace(r, m', k, if j < k then j else j + 1);
    }
  }

  /** The slice after a unit has left it by its old record and entered it by a new one. */
  function Moved(q: seq<QueueUnitInfo>, before: UnitRecord, x: QueueUnitInfo): seq<QueueUnitInfo>
    reads q, x
  {
    InsertAt(Dropped(q, RankOf(before)), IndexIn(Dropped(q, RankOf(before)), x.Place()), x)
  }

  /** The old record finds the queued copy, if there is one. */
  predicate FindsOldIn(q: seq<QueueUnitInfo>, m: map<string, QueueUnitInfo>, before: UnitRecord)
    reads q
  {
    before.key in m ==> FoundIn(q, RankOf(before))
  }

  /** Moving keeps the members exactly if the old record finds the copy, and makes a queue
      if the others are one. A copy that is missed stays as a second place of the unit. */
  lemma MoveIff(q: seq<QueueUnitInfo>, m: map<string, QueueUnitInfo>, before: UnitRecord, x: QueueUnitInfo)
    requires SameMembers(q, m) && DescribesIn(q, before, x.unit) && x.name == x.unit.key
    ensures SameMembers(Moved(q, before, x), m[x.name := x]) <==> FindsOldIn(q, m, before)
    ensures QueueOf(Moved(q, before, x), m[x.name := x]) <==> FindsOldIn(q, m, before) && OrderedWithout(q, x.name)
    ensures FindsOldIn(q, m, before) || |Moved(q, before, x)| != |m[x.name := x]|
  {
    DescribesPairs(q, before, x.unit);
    DropIff(q, m, RankOf(before));
    var d, m0, m1 := Dropped(q, RankOf(before)), m - {x.name}, m[x.name := x];
    assert m0[x.name := x] == m1;
    if FindsOldIn(q, m, before) {
      StillOwnsUid(q, d, x.name, x.unit.uid);
      EnterIff(d, m0, x);
      QueueIff(d, m0);
    } else {
      MembersSize(q, m);
      QueueIff(Moved(q, before, x), m1);
      if SameMembers(Moved(q, before, x), m1) {
        MembersSize(Moved(q, before, x), m1);
      }
    }
  }

  /** Members of the slice and of the map are the same objects. */
  lemma SameObjects(q: seq<QueueUnitInfo>, m: map<string, QueueUnitInfo>)
    requires SameMembers(q, m)
    ensures forall i :: 0 <= i < |q| ==> q[i].name in m && m[q[i].name] == q[i]
    ensures forall k :: k in m ==> m[k] in q && m[k].name == k
  {
    var s := SlotsOf(q);
    forall i | 0 <= i < |q| ensures q[i].name in m && m[q[i].name] == q[i] {
      assert s[i].rank.name in m;
    }
    forall k | k in m ensures m[k] in q && m[k].name == k {
      assert HasName(s, k);
      var i :| 0 <= i < |s| && s[i].rank.name == k;
      assert q[i] == m[k];
    }
  }

  lemma SortKeepsQueue(q: seq<QueueUnitInfo>, m: map<string, QueueUnitInfo>)
    requires QueueOf(q, m)
    ensures SortInfos(q) == q
  {
    var s := SlotsOf(q);
    forall i, j | 0 <= i < j < |s| ensures Less(s[i].rank, s[j].rank) <= 0 {
      assert Less(Ranks(s)[i], Ranks(s)[j]) < 0;
    }
    SortIsIdentity(s);
  }

  /** Sorting repairs a slice of which only the order is wrong. */
  lemma SortRestores(q: seq<QueueUnitInfo>, m: map<string, QueueUnitInfo>)
    requires SameMembers(q, m)
    ensures QueueOf(SortInfos(q), m)
  {
    SortInfosPermutes(q);
    SortMakesQueue(SlotsOf(q), m);
    var r := SortInfos(q);
    forall i | 0 <= i < |r| ensures r[i].unit.key == r[i].name {
      assert r[i] in multiset(r);
      assert r[i] in multiset(q);
    }
  }

  /** No two copies in the slice contradict each other. */
  ghost predicate Agree(q: seq<QueueUnitInfo>)
    reads q
  {
    AgreeOn(SlotsOf(q), set x | x in Ranks(SlotsOf(q)))
  }

  lemma SortInfosSorts(q: seq<QueueUnitInfo>)
    requires Agree(q)
    ensures InOrder(SlotsOf(SortInfos(q)))
  {
    SortInfosPermutes(q);
    SortSorts(SlotsOf(q), set x | x in Ranks(SlotsOf(q)));
  }

  lemma NeighboursInOrder(q: seq<QueueUnitInfo>)
    requires Agree(q)
    requires forall k :: 0 < k < |q| ==> Less(q[k - 1].Place(), q[k].Place()) <= 0
    ensures InOrder(SlotsOf(q))
  {
    var s := SlotsOf(q);
    forall k | 0 < k < |s| ensures Less(s[k - 1].rank, s[k].rank) <= 0 {
      assert s[k - 1].rank == q[k - 1].Place() && s[k].rank == q[k].Place();
    }
    forall i, j | 0 <= i < j < |s| ensures Less(s[i].rank, s[j].rank) <= 0 {
      NeighboursSorted(s, (set x | x in Ranks(s)), i, j);
    }
  }

  lemma MembersAgree(q: seq<QueueUnitInfo>, m: map<string, QueueUnitInfo>)
    requires SameMembers(q, m)
    ensures Agree(q)
  {
    RanksAgree(SlotsOf(q));
  }

  lemma InOrderMembers(q: seq<QueueUnitInfo>, m: map<string, QueueUnitInfo>)
    requires SameMembers(q, m) && InOrder(SlotsOf(q))
    ensures QueueOf(q, m)
  {
    QueueIff(q, m);
  }

  lemma InOrderNeighbours(q: seq<QueueUnitInfo>)
    requires InOrder(SlotsOf(q))
    ensures forall k :: 0 < k < |q| ==> Less(q[k - 1].Place(), q[k].Place()) != 1
  {
    forall k | 0 < k < |q| ensures Less(q[k - 1].Place(), q[k].Place()) != 1 {
      assert Less(SlotsOf(q)[k - 1].rank, SlotsOf(q)[k].rank) <= 0;
    }
  }

  /** Only the order was wrong, if anything. */
  lemma RepairedMembers(q: seq<QueueUnitInfo>, m: map<string, QueueUnitInfo>, needReset: bool)
    requires SameMembers(q, m)
    requires !needReset <==> forall k :: 0 < k < |q| ==> Less(q[k - 1].Place(), q[k].Place()) != 1
    ensures QueueOf(if needReset then SortInfos(q) else q, m)
  {
    if needReset {
      SortRestores(q, m);
    } else {
      MembersAgree(q, m);
      NeighboursInOrder(q);
      InOrderMembers(q, m);
    }
  }

  lemma MembersSize(q: seq<QueueUnitInfo>, m: map<string, QueueUnitInfo>)
    requires SameMembers(q, m)
    ensures |q| == |m|
  {
    HoldsSize(SlotsOf(q), m);
  }

  /** A UID stands for one place. */
  lemma SameUidSamePlace(q: seq<QueueUnitInfo>, m: map<string, QueueUnitInfo>, i: nat, j: nat)
    requires SameMembers(q, m) && i < |q| && j < |q| && q[i].unit.uid == q[j].unit.uid
    ensures i == j
  {
    DifferOnce(SlotsOf(q), i, j);
  }

  lemma NewToRest(q: seq<QueueUnitInfo>, m: map<string, QueueUnitInfo>, x: QueueUnitInfo)
    requires SameMembers(q, m) && x.name !in m && OwnsUidIn(q, x.name, x.unit.uid)
    ensures forall i :: 0 <= i < |q| ==> q[i].unit.uid != x.unit.uid
  {
    SameObjects(q, m);
  }

  lemma StillOwnsUid(q: seq<QueueUnitInfo>, r: seq<QueueUnitInfo>, key: string, uid: string)
    requires OwnsUidIn(q, key, uid) && Reduced(q, r)
    ensures OwnsUidIn(r, key, uid)
  {
    assert forall i :: 0 <= i < |r| ==> r[i] in q;
  }

  // ---------- Replacing a unit in place ----------

  /** The rank an object gets with another record of its unit. */
  function PlaceWith(x: QueueUnitInfo, u: UnitRecord): Rank
    reads x
  {
    x.Place().(priority := Priority(u))
  }

  function PlaceAs(y: QueueUnitInfo, x: QueueUnitInfo, u: UnitRecord): Rank
    reads x, y
  {
    if y == x then PlaceWith(x, u) else y.Place()
  }

  function PlacesAs(q: seq<QueueUnitInfo>, x: QueueUnitInfo, u: UnitRecord): (r: seq<Rank>)
    reads q, x
    ensures |r| == |q| && forall i :: 0 <= i < |q| ==> r[i] == PlaceAs(q[i], x, u)
  {
    seq(|q|, i requires 0 <= i < |q| reads q, x => PlaceAs(q[i], x, u))
  }

  /** With that record of `x` the slice would be in order. */
  ghost predicate OrderedAs(q: seq<QueueUnitInfo>, x: QueueUnitInfo, u: UnitRecord)
    reads q, x
  {
    forall i, j :: 0 <= i < j < |q| ==> Less(PlaceAs(q[i], x, u), PlaceAs(q[j], x, u)) <= 0
  }

  /** With that record the object would stay between its neighbours. */
  ghost predicate StaysPut(q: seq<QueueUnitInfo>, x: QueueUnitInfo, u: UnitRecord)
    reads q, x
  {
    forall k :: 0 <= k < |q| && q[k] == x ==> Between(Ranks(SlotsOf(q)), k, PlaceWith(x, u))
  }

  /** What the slots become when the record of `x` is replaced. */
  lemma ReplacedSlots(q: seq<QueueUnitInfo>, m: map<string, QueueUnitInfo>, x: QueueUnitInfo, u: UnitRecord) returns (k: nat)
    requires SameMembers(q, m) && x in q
    ensures k < |q| && q[k] == x && forall i :: 0 <= i < |q| && i != k ==> q[i] != x
    ensures var r := SlotsOf(q)[k := Slot(PlaceWith(x, u), x)];
      Holds(r, m) && (InOrder(r) <==> OrderedAs(q, x, u)) && (Queued(r, m) <==> OrderedAs(q, x, u))
  {
    k :| 0 <= k < |q| && q[k] == x;
    var s := SlotsOf(q);
    var r := s[k := Slot(PlaceWith(x, u), x)];
    forall i | 0 <= i < |q| && i != k ensures q[i] != x {
      if q[i] == x { DifferOnce(s, i, k); }
    }
    HoldsRerank(s, m, k, PlaceWith(x, u));
    assert forall i :: 0 <= i < |q| ==> r[i].rank == PlaceAs(q[i], x, u);
    QueuedIff(r, m);
  }

  /** In a queue this is to stay between the neighbours. */
  lemma OrderedAsIff(q: seq<QueueUnitInfo>, m: map<string, QueueUnitInfo>, x: QueueUnitInfo, u: UnitRecord)
    requires QueueOf(q, m) && x in q
    ensures OrderedAs(q, x, u) <==> StaysPut(q, x, u)
  {
    QueueIff(q, m);
    var k := ReplacedSlots(q, m, x, u);
    RerankQueued(SlotsOf(q), m, k, PlaceWith(x, u));
  }

  /** A record of the same rank changes nothing. */
  lemma SameRankOrdered(q: seq<QueueUnitInfo>, x: QueueUnitInfo, u: UnitRecord)
    requires Priority(u) == Priority(x.unit)
    ensures OrderedAs(q, x, u) <==> Ordered(q)
  {
    assert PlaceWith(x, u) == x.Place();
    assert forall i :: 0 <= i < |q| ==> PlaceAs(q[i], x, u) == SlotsOf(q)[i].rank;
  }

  /** A queue but for one replaced record: with `was` in its place the slice would be in
      order. The old rank finds the unit, and the others are in order. */
  lemma OldRecordFinds(q: seq<QueueUnitInfo>, m: map<string, QueueUnitInfo>, x: QueueUnitInfo, was: UnitRecord)
    requires SameMembers(q, m) && x in q && OrderedAs(q, x, was)
    ensures FoundIn(q, PlaceWith(x, was)) && OrderedWithout(q, x.name)
  {
    var k := ReplacedSlots(q, m, x, was);
    var s := SlotsOf(q);
    var r := s[k := Slot(PlaceWith(x, was), x)];
    assert Ranks(r)[k := x.Place()] == Ranks(s);
    OldRankFindsReplaced(Ranks(r), k, x.Place());
    forall i, j | 0 <= i < j < |s| && s[i].rank.name != x.name && s[j].rank.name != x.name
      ensures Less(s[i].rank, s[j].rank) <= 0
    {
      assert r[i] == s[i] && r[j] == s[j];
    }
  }

  /** The same of part of a slice. */
  lemma OldRecordFindsIn(q: seq<QueueUnitInfo>, x: QueueUnitInfo, was: UnitRecord)
    requires AllDiffer(SlotsOf(q)) && x in q && OrderedAs(q, x, was)
    ensures FoundIn(q, PlaceWith(x, was))
  {
    var k :| 0 <= k < |q| && q[k] == x;
    var s := SlotsOf(q);
    var r := s[k := Slot(PlaceWith(x, was), x)];
    forall i | 0 <= i < |q| && i != k ensures q[i] != x {
      if q[i] == x { DifferOnce(s, i, k); }
    }
    assert forall i :: 0 <= i < |q| ==> r[i].rank == PlaceAs(q[i], x, was);
    forall i, j | 0 <= i < j < |r| ensures Differ(r[i], r[j]) {
      assert Differ(s[i], s[j]);
    }
    StrictFromDiffers(r);
    assert Ranks(r)[k := x.Place()] == Ranks(s);
    OldRankFindsReplaced(Ranks(r), k, x.Place());
  }

  lemma PartsDiffer(h: seq<QueueUnitInfo>, l: seq<QueueUnitInfo>)
    requires AllDiffer(SlotsOf(h + l))
    ensures AllDiffer(SlotsOf(h)) && AllDiffer(SlotsOf(l))
  {
    var s := SlotsOf(h + l);
    forall i, j | 0 <= i < j < |h| ensures Differ(SlotsOf(h)[i], SlotsOf(h)[j]) { assert Differ(s[i], s[j]); }
    forall i, j | 0 <= i < j < |l| ensures Differ(SlotsOf(l)[i], SlotsOf(l)[j]) { assert Differ(s[|h| + i], s[|h| + j]); }
  }

  /** The record in its place has a rank before the predecessor. */
  ghost predicate RaisedPast(q: seq<QueueUnitInfo>, x: QueueUnitInfo)
    reads q, x
  {
    exists k :: 0 < k < |q| && q[k] == x && Less(x.Place(), q[k - 1].Place()) < 0
  }

  /** Then its own rank misses it. */
  lemma RaisedIsMissed(q: seq<QueueUnitInfo>, m: map<string, QueueUnitInfo>, x: QueueUnitInfo, was: UnitRecord)
    requires SameMembers(q, m) && x in q && OrderedAs(q, x, was) && RaisedPast(q, x)
    ensures !FoundIn(q, x.Place())
  {
    var k := ReplacedSlots(q, m, x, was);
    var s := SlotsOf(q);
    var r := s[k := Slot(PlaceWith(x, was), x)];
    assert Ranks(r)[k := x.Place()] == Ranks(s);
    ReplacedUpIsMissed(Ranks(r), k, x.Place());
  }

  // ---------- Units that belong to another queue ----------

  function Names(xs: seq<QueueUnitInfo>): set<string> {
    set x | x in xs :: x.name
  }

  lemma NamesStep(xs: seq<QueueUnitInfo>, i: nat)
    requires i < |xs|
    ensures Names(xs[..i + 1]) == Names(xs[..i]) + {xs[i].name}
  {
    assert xs[..i + 1] == xs[..i] + [xs[i]];
  }

  /** The keys of the units that `g` maps to another queue than `name`. */
  function MisplacedIn(m: map<string, QueueUnitInfo>, g: UnitRecord -> string, name: string): set<string>
    reads m.Values
  {
    set k | k in m && g(m[k].unit) != name
  }

  /** Different units of the map, each under its own name. */
  ghost predicate Collected(moved: seq<QueueUnitInfo>, m: map<string, QueueUnitInfo>) {
    && (forall i :: 0 <= i < |moved| ==> moved[i].name in m && m[moved[i].name] == moved[i])
    && (forall i, j :: 0 <= i < j < |moved| ==> moved[i] != moved[j])
  }

  method CollectMoved(ghost q: seq<QueueUnitInfo>, m: map<string, QueueUnitInfo>, g: UnitRecord -> string, name: string)
      returns (moved: seq<QueueUnitInfo>)
    requires SameMembers(q, m)
    ensures Collected(moved, m) && Names(moved) == MisplacedIn(m, g, name)
  {
    SameObjects(q, m);
    moved := [];
    var todo := m.Keys;
    while todo != {}
      invariant todo <= m.Keys
      invariant Collected(moved, m) && Names(moved) == MisplacedIn(m, g, name) - todo
    {
      var k :| k in todo;
      if g(m[k].unit) != name {
        assert forall i :: 0 <= i < |moved| ==> moved[i].name in Names(moved);
        assert Names(moved + [m[k]]) == Names(moved) + {k};
        moved := moved + [m[k]];
      }
      todo := todo - {k};
    }
  }

  lemma OwnUid(q: seq<QueueUnitInfo>, m: map<string, QueueUnitInfo>, x: QueueUnitInfo)
    requires SameMembers(q, m) && x.name in m && m[x.name] == x
    ensures x.unit.key == x.name && OwnsUidIn(q, x.name, x.unit.uid) && Paired(q, x.Place())
  {
    SameObjects(q, m);
    var k :| 0 <= k < |q| && q[k] == x;
    forall i | 0 <= i < |q| && q[i].name != x.name ensures q[i].unit.uid != x.unit.uid {
      if q[i].unit.uid == x.unit.uid {
        DifferOnce(SlotsOf(q), i, k);
      }
    }
  }

  /** The map, or the keys, after the units have left one by one. */
  function Stripped(m: map<string, QueueUnitInfo>, xs: seq<QueueUnitInfo>): map<string, QueueUnitInfo> {
    if xs == [] then m else Stripped(m, xs[..|xs| - 1]) - {xs[|xs| - 1].name}
  }

  function StrippedKeys(ks: set<string>, xs: seq<QueueUnitInfo>): set<string> {
    if xs == [] then ks else StrippedKeys(ks, xs[..|xs| - 1]) - {xs[|xs| - 1].name}
  }

  lemma {:induction false} StrippedIsRest(m: map<string, QueueUnitInfo>, ks: set<string>, xs: seq<QueueUnitInfo>)
    ensures Stripped(m, xs) == m - Names(xs) && StrippedKeys(ks, xs) == ks - Names(xs)
  {
    if xs != [] {
      var n := |xs| - 1;
      StrippedIsRest(m, ks, xs[..n]);
      NamesStep(xs, n);
      assert xs[..n + 1] == xs;
    }
  }

  /** The next unit to leave is still in the map. */
  lemma StrippedStep(m: map<string, QueueUnitInfo>, ks: set<string>, xs: seq<QueueUnitInfo>, i: nat)
    requires i < |xs| && Collected(xs, m)
    ensures Stripped(m, xs[..i + 1]) == Stripped(m, xs[..i]) - {xs[i].name}
    ensures StrippedKeys(ks, xs[..i + 1]) == StrippedKeys(ks, xs[..i]) - {xs[i].name}
    ensures xs[i].name in Stripped(m, xs[..i]) && Stripped(m, xs[..i])[xs[i].name] == xs[i]
  {
    assert xs[..i + 1][..i] == xs[..i];
    StrippedIsRest(m, ks, xs[..i]);
    forall j | 0 <= j < i ensures xs[j].name != xs[i].name {
      assert m[xs[j].name] == xs[j];
    }
  }

  lemma DroppedSlots(q: seq<QueueUnitInfo>, t: Rank)
    ensures SlotsOf(Dropped(q, t)) == DropSlot(SlotsOf(q), t)
  {
    if FoundIn(q, t) {
      SlotsRemove(q, IndexIn(q, t));
    }
  }
}
