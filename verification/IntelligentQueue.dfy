/** IntelligentQueue: the sorted slice split at a priority threshold into a high and a
    low one. Everything is proved of their concatenation, which the threshold does not
    influence. Condition variables, timers, logging and the session counter are not
    modelled. */
module IntelligentQueue {
  import opened Amounts
  import opened QueueUnits
  import opened UnitOrder
  import opened SortedSlots
  import opened UnitInfos
  import P = PriorityQueue

  const DEFAULT_PRIORITY_THRESHOLD := 4

  // ---------- Searching one half is searching the whole ----------

  predicate SplitAt(h: seq<Rank>, l: seq<Rank>, threshold: int) {
    && (forall i :: 0 <= i < |h| ==> h[i].priority >= threshold)
    && (forall i :: 0 <= i < |l| ==> l[i].priority < threshold)
  }

  lemma HalvesSorted(h: seq<Rank>, l: seq<Rank>)
    requires StrictlySorted(h + l)
    ensures StrictlySorted(h) && StrictlySorted(l)
  {
    var s := h + l;
    forall i, j | 0 <= i < |h| && 0 <= j < |h| ensures Compatible(h[i], h[j]) && (i < j ==> Less(h[i], h[j]) < 0) {
      assert s[i] == h[i] && s[j] == h[j];
      assert Compatible(s[i], s[j]);
      assert i < j ==> Less(s[i], s[j]) < 0;
    }
    forall i, j | 0 <= i < |l| && 0 <= j < |l| ensures Compatible(l[i], l[j]) && (i < j ==> Less(l[i], l[j]) < 0) {
      assert s[|h| + i] == l[i] && s[|h| + j] == l[j];
      assert Compatible(s[|h| + i], s[|h| + j]);
      assert i < j ==> Less(s[|h| + i], s[|h| + j]) < 0;
    }
  }

  lemma SearchHigh(h: seq<Rank>, l: seq<Rank>, t: Rank, threshold: int)
    requires StrictlySorted(h + l) && CompatibleWith(h + l, t) && SplitAt(h, l, threshold) && t.priority >= threshold
    ensures SearchIndex(h, t) == SearchIndex(h + l, t) && (Found(h, t) <==> Found(h + l, t))
  {
    HalvesSorted(h, l);
    assert CompatibleWith(h, t) by {
      forall i | 0 <= i < |h| ensures Compatible(h[i], t) { assert (h + l)[i] == h[i]; }
    }
    SearchSorted(h, t);
    var k := SearchIndex(h, t);
    assert Splits(h + l, t, k) by {
      forall i | |h| <= i < |h + l| ensures Less((h + l)[i], t) > 0 {
        assert (h + l)[i] == l[i - |h|] && Compatible((h + l)[i], t);
      }
    }
    LowerBoundSplits(h + l, t, k, 0, |h + l|);
  }

  lemma SearchLow(h: seq<Rank>, l: seq<Rank>, t: Rank, threshold: int)
    requires StrictlySorted(h + l) && CompatibleWith(h + l, t) && SplitAt(h, l, threshold) && t.priority < threshold
    ensures |h| + SearchIndex(l, t) == SearchIndex(h + l, t) && (Found(l, t) <==> Found(h + l, t))
  {
    HalvesSorted(h, l);
    assert CompatibleWith(l, t) by {
      forall i | 0 <= i < |l| ensures Compatible(l[i], t) { assert (h + l)[|h| + i] == l[i]; }
    }
    SearchSorted(l, t);
    var k := |h| + SearchIndex(l, t);
    assert Splits(h + l, t, k) by {
      forall i | 0 <= i < |h| ensures Less((h + l)[i], t) < 0 {
        assert (h + l)[i] == h[i] && Compatible((h + l)[i], t);
      }
      forall i | |h| <= i < |h + l| ensures (h + l)[i] == l[i - |h|] {}
    }
    LowerBoundSplits(h + l, t, k, 0, |h + l|);
  }

  /** Two halves of a queue over a map, split at the threshold. */
  ghost predicate Halves(h: seq<QueueUnitInfo>, l: seq<QueueUnitInfo>, m: map<string, QueueUnitInfo>, threshold: int)
    reads h, l
  {
    QueueOf(h + l, m) && AllHigh(h, threshold) && AllLow(l, threshold)
  }

  ghost predicate AllHigh(q: seq<QueueUnitInfo>, threshold: int)
    reads q
  {
    forall i :: 0 <= i < |q| ==> Priority(q[i].unit) >= threshold
  }

  ghost predicate AllLow(q: seq<QueueUnitInfo>, threshold: int)
    reads q
  {
    forall i :: 0 <= i < |q| ==> Priority(q[i].unit) < threshold
  }

  lemma AllHighInsert(q: seq<QueueUnitInfo>, threshold: int, k: nat, x: QueueUnitInfo)
    requires AllHigh(q, threshold) && k <= |q| && Priority(x.unit) >= threshold
    ensures AllHigh(InsertAt(q, k, x), threshold)
  {}

  lemma AllLowInsert(q: seq<QueueUnitInfo>, threshold: int, k: nat, x: QueueUnitInfo)
    requires AllLow(q, threshold) && k <= |q| && Priority(x.unit) < threshold
    ensures AllLow(InsertAt(q, k, x), threshold)
  {}

  lemma InsertPrefix<T>(h: seq<T>, l: seq<T>, k: nat, x: T)
    requires k <= |h|
    ensures InsertAt(h, k, x) + l == InsertAt(h + l, k, x)
  {
    assert (h + l)[..k] == h[..k] && (h + l)[k..] == h[k..] + l;
  }

  lemma InsertSuffix<T>(h: seq<T>, l: seq<T>, k: nat, x: T)
    requires k <= |l|
    ensures h + InsertAt(l, k, x) == InsertAt(h + l, |h| + k, x)
  {
    assert (h + l)[..|h| + k] == h + l[..k] && (h + l)[|h| + k..] == l[k..];
  }

  lemma RemovePrefix<T>(h: seq<T>, l: seq<T>, k: nat)
    requires k < |h|
    ensures RemoveAt(h, k) + l == RemoveAt(h + l, k)
  {
    assert (h + l)[..k] == h[..k] && (h + l)[k + 1..] == h[k + 1..] + l;
  }

  lemma RemoveSuffix<T>(h: seq<T>, l: seq<T>, k: nat)
    requires k < |l|
    ensures h + RemoveAt(l, k) == RemoveAt(h + l, |h| + k)
  {
    assert (h + l)[..|h| + k] == h + l[..k] && (h + l)[|h| + k + 1..] == l[k + 1..];
  }

  ghost predicate Fits(q: seq<QueueUnitInfo>, t: Rank)
    reads q
  {
    CompatibleWith(Ranks(SlotsOf(q)), t)
  }

  lemma SearchHalf(h: seq<QueueUnitInfo>, l: seq<QueueUnitInfo>, m: map<string, QueueUnitInfo>, threshold: int, t: Rank)
    requires Halves(h, l, m, threshold) && Fits(h + l, t)
    ensures t.priority >= threshold ==> IndexIn(h, t) == IndexIn(h + l, t) && (FoundIn(h, t) <==> FoundIn(h + l, t))
    ensures t.priority < threshold ==> |h| + IndexIn(l, t) == IndexIn(h + l, t) && (FoundIn(l, t) <==> FoundIn(h + l, t))
  {
    var rh, rl := Ranks(SlotsOf(h)), Ranks(SlotsOf(l));
    assert Ranks(SlotsOf(h + l)) == rh + rl;
    assert SplitAt(rh, rl, threshold);
    if t.priority >= threshold {
      SearchHigh(rh, rl, t, threshold);
    } else {
      SearchLow(rh, rl, t, threshold);
    }
  }

  lemma RankedFits(q: seq<QueueUnitInfo>, m: map<string, QueueUnitInfo>, t: Rank)
    requires QueueOf(q, m) && RankedAs(q, t)
    ensures Fits(q, t)
  {
    forall i | 0 <= i < |q| ensures Compatible(Ranks(SlotsOf(q))[i], t) {
      assert Ranks(SlotsOf(q))[i] == q[i].Place();
    }
  }

  /** A unit that is new to the queue. */
  ghost predicate NewTo(q: seq<QueueUnitInfo>, m: map<string, QueueUnitInfo>, x: QueueUnitInfo)
    reads q, x
  {
    x.name !in m && x.unit.key == x.name && forall i :: 0 <= i < |q| ==> q[i].unit.uid != x.unit.uid
  }

  lemma NewFits(q: seq<QueueUnitInfo>, m: map<string, QueueUnitInfo>, x: QueueUnitInfo)
    requires SameMembers(q, m) && NewTo(q, m, x)
    ensures Fits(q, x.Place())
  {
    SameObjects(q, m);
    forall i | 0 <= i < |q| ensures Compatible(Ranks(SlotsOf(q))[i], x.Place()) {
      assert Ranks(SlotsOf(q))[i] == q[i].Place();
    }
  }

  /** Inserting into the half of its priority inserts into the whole. */
  lemma InsertHigh(h: seq<QueueUnitInfo>, l: seq<QueueUnitInfo>, m: map<string, QueueUnitInfo>, threshold: int, x: QueueUnitInfo)
    requires Halves(h, l, m, threshold) && NewTo(h + l, m, x) && Priority(x.unit) >= threshold
    ensures !FoundIn(h, x.Place()) && IndexIn(h, x.Place()) == IndexIn(h + l, x.Place())
    ensures InsertAt(h, IndexIn(h, x.Place()), x) + l == InsertAt(h + l, IndexIn(h, x.Place()), x)
    ensures Halves(InsertAt(h, IndexIn(h, x.Place()), x), l, m[x.name := x], threshold)
  {
    QueueIff(h + l, m);
    NewFits(h + l, m, x);
    SearchHalf(h, l, m, threshold, x.Place());
    InsertKeeps(h + l, m, x);
    var k := IndexIn(h, x.Place());
    InsertPrefix(h, l, k, x);
    AllHighInsert(h, threshold, k, x);
  }

  lemma InsertLow(h: seq<QueueUnitInfo>, l: seq<QueueUnitInfo>, m: map<string, QueueUnitInfo>, threshold: int, x: QueueUnitInfo)
    requires Halves(h, l, m, threshold) && NewTo(h + l, m, x) && Priority(x.unit) < threshold
    ensures !FoundIn(l, x.Place()) && |h| + IndexIn(l, x.Place()) == IndexIn(h + l, x.Place())
    ensures Halves(h, InsertAt(l, IndexIn(l, x.Place()), x), m[x.name := x], threshold)
  {
    QueueIff(h + l, m);
    NewFits(h + l, m, x);
    SearchHalf(h, l, m, threshold, x.Place());
    InsertKeeps(h + l, m, x);
    var k := IndexIn(l, x.Place());
    InsertSuffix(h, l, k, x);
    AllLowInsert(l, threshold, k, x);
  }

  /** The concatenation is the same for every threshold. */
  lemma ThresholdDoesNotMatter(h: seq<QueueUnitInfo>, l: seq<QueueUnitInfo>, threshold: int,
                               h': seq<QueueUnitInfo>, l': seq<QueueUnitInfo>, threshold': int, m: map<string, QueueUnitInfo>)
    requires Halves(h, l, m, threshold) && Halves(h', l', m, threshold')
    ensures h + l == h' + l'
  {
    var q, r := h + l, h' + l';
    QueueIff(q, m);
    QueueIff(r, m);
    SameObjects(q, m);
    SameObjects(r, m);
    forall i, j | 0 <= i < |q| && 0 <= j < |r| && q[i].name == r[j].name ensures SlotsOf(q)[i].rank == SlotsOf(r)[j].rank {
      assert q[i] == m[q[i].name] == r[j];
    }
    QueueIsDetermined(SlotsOf(q), SlotsOf(r), m);
    forall i | 0 <= i < |q| ensures q[i] == r[i] {
      assert SlotsOf(q)[i] == SlotsOf(r)[i];
    }
  }

  // ---------- Searching with any rank ----------

  /** The search of the half that the priority belongs to. */
  predicate FoundHalf(h: seq<QueueUnitInfo>, l: seq<QueueUnitInfo>, threshold: int, t: Rank)
    reads h, l
  {
    if t.priority >= threshold then FoundIn(h, t) else FoundIn(l, t)
  }

  lemma PairedHalves(h: seq<QueueUnitInfo>, l: seq<QueueUnitInfo>, t: Rank)
    requires Paired(h + l, t)
    ensures Paired(h, t) && Paired(l, t)
  {
    forall i | 0 <= i < |h| ensures h[i].unit.uid == t.uid <==> h[i].name == t.name { assert (h + l)[i] == h[i]; }
    forall i | 0 <= i < |l| ensures l[i].unit.uid == t.uid <==> l[i].name == t.name { assert (h + l)[|h| + i] == l[i]; }
  }

  /** What a search hits in a half is the unit itself, wherever its rank would belong. */
  lemma HitIsUnit(q: seq<QueueUnitInfo>, t: Rank)
    requires Paired(q, t) && FoundIn(q, t)
    ensures q[IndexIn(q, t)].name == t.name
  {
    assert OneToOne(SlotsOf(q), t);
    FoundIsNamed(SlotsOf(q), t);
  }

  /** What is left when the search of the half takes out what it hits. */
  function OutOf(h: seq<QueueUnitInfo>, l: seq<QueueUnitInfo>, threshold: int, t: Rank)
    : (r: (seq<QueueUnitInfo>, seq<QueueUnitInfo>))
    reads h, l
  {
    if t.priority >= threshold then (Dropped(h, t), l) else (h, Dropped(l, t))
  }

  /** All units but one are in order and on their side of the threshold. */
  ghost predicate HalvesWithout(h: seq<QueueUnitInfo>, l: seq<QueueUnitInfo>, threshold: int, key: string)
    reads h, l
  {
    && OrderedWithout(h + l, key)
    && (forall i :: 0 <= i < |h| && h[i].name != key ==> Priority(h[i].unit) >= threshold)
    && (forall i :: 0 <= i < |l| && l[i].name != key ==> Priority(l[i].unit) < threshold)
  }

  lemma HalvesIff(h: seq<QueueUnitInfo>, l: seq<QueueUnitInfo>, m: map<string, QueueUnitInfo>, threshold: int)
    ensures Halves(h, l, m, threshold) <==>
            SameMembers(h + l, m) && Ordered(h + l) && AllHigh(h, threshold) && AllLow(l, threshold)
  {
    QueueIff(h + l, m);
  }

  /** The unit at `k` leaves the concatenation. */
  lemma RemovePlace(q: seq<QueueUnitInfo>, m: map<string, QueueUnitInfo>, k: nat)
    requires SameMembers(q, m) && k < |q|
    ensures SameMembers(RemoveAt(q, k), m - {q[k].name})
    ensures Ordered(RemoveAt(q, k)) <==> OrderedWithout(q, q[k].name)
    ensures forall i :: 0 <= i < |q| && i != k ==> q[i].name != q[k].name
  {
    HoldsRemove(SlotsOf(q), m, k);
    OrderedButRemove(SlotsOf(q), k);
    SlotsRemove(q, k);
    forall i | 0 <= i < |q| && i != k ensures q[i].name != q[k].name {
      if q[i].name == q[k].name { DifferOnce(SlotsOf(q), i, k); }
    }
  }

  lemma RemoveHitHigh(h: seq<QueueUnitInfo>, l: seq<QueueUnitInfo>, m: map<string, QueueUnitInfo>, threshold: int, k: nat)
    requires SameMembers(h + l, m) && k < |h|
    ensures SameMembers(RemoveAt(h, k) + l, m - {h[k].name})
    ensures Halves(RemoveAt(h, k), l, m - {h[k].name}, threshold) <==> HalvesWithout(h, l, threshold, h[k].name)
  {
    var name, r := h[k].name, RemoveAt(h, k);
    assert (h + l)[k] == h[k];
    RemovePlace(h + l, m, k);
    RemovePrefix(h, l, k);
    assert forall i :: 0 <= i < |h| && i != k ==> (h + l)[i] == h[i];
    assert forall i :: 0 <= i < |l| ==> (h + l)[|h| + i] == l[i];
    AllHighBut(h, threshold, k);
    HalvesIff(r, l, m - {name}, threshold);
  }

  lemma AllHighBut(h: seq<QueueUnitInfo>, threshold: int, k: nat)
    requires k < |h| && forall i :: 0 <= i < |h| && i != k ==> h[i].name != h[k].name
    ensures AllHigh(RemoveAt(h, k), threshold) <==>
            forall i :: 0 <= i < |h| && h[i].name != h[k].name ==> Priority(h[i].unit) >= threshold
  {
    var r := RemoveAt(h, k);
    assert forall i :: 0 <= i < |r| ==> r[i] == h[if i < k then i else i + 1];
    if AllHigh(r, threshold) {
      forall i | 0 <= i < |h| && i != k ensures Priority(h[i].unit) >= threshold {
        assert r[if i < k then i else i - 1] == h[i];
      }
    }
  }

  lemma AllLowBut(l: seq<QueueUnitInfo>, threshold: int, k: nat)
    requires k < |l| && forall i :: 0 <= i < |l| && i != k ==> l[i].name != l[k].name
    ensures AllLow(RemoveAt(l, k), threshold) <==>
            forall i :: 0 <= i < |l| && l[i].name != l[k].name ==> Priority(l[i].unit) < threshold
  {
    var r := RemoveAt(l, k);
    assert forall i :: 0 <= i < |r| ==> r[i] == l[if i < k then i else i + 1];
    if AllLow(r, threshold) {
      forall i | 0 <= i < |l| && i != k ensures Priority(l[i].unit) < threshold {
        assert r[if i < k then i else i - 1] == l[i];
      }
    }
  }

  lemma RemoveHitLow(h: seq<QueueUnitInfo>, l: seq<QueueUnitInfo>, m: map<string, QueueUnitInfo>, threshold: int, k: nat)
    requires SameMembers(h + l, m) && k < |l|
    ensures SameMembers(h + RemoveAt(l, k), m - {l[k].name})
    ensures Halves(h, RemoveAt(l, k), m - {l[k].name}, threshold) <==> HalvesWithout(h, l, threshold, l[k].name)
  {
    var name, r := l[k].name, RemoveAt(l, k);
    assert (h + l)[|h| + k] == l[k];
    RemovePlace(h + l, m, |h| + k);
    RemoveSuffix(h, l, k);
    assert forall i :: 0 <= i < |h| ==> (h + l)[i] == h[i];
    assert forall i :: 0 <= i < |l| && i != k ==> (h + l)[|h| + i] == l[i];
    AllLowBut(l, threshold, k);
    HalvesIff(h, r, m - {name}, threshold);
  }

  /** Whatever the search of a half for a unit hits is the unit. So the members survive its
      removal from the map exactly when the search hits it, and the rest are two halves if
      they are in order and on their sides, wherever the unit itself was. */
  lemma OutIff(h: seq<QueueUnitInfo>, l: seq<QueueUnitInfo>, m: map<string, QueueUnitInfo>, threshold: int, t: Rank)
    requires SameMembers(h + l, m) && Paired(h + l, t)
    ensures t.name !in m ==> !FoundHalf(h, l, threshold, t) && m - {t.name} == m
    ensures var r := OutOf(h, l, threshold, t); var hit := t.name in m ==> FoundHalf(h, l, threshold, t);
            && (SameMembers(r.0 + r.1, m - {t.name}) <==> hit)
            && (Halves(r.0, r.1, m - {t.name}, threshold) <==> hit && HalvesWithout(h, l, threshold, t.name))
  {
    if FoundHalf(h, l, threshold, t) {
      OutHit(h, l, m, threshold, t);
    } else if t.name in m {
      LeftBehind(h + l, m, t.name);
      HalvesIff(h, l, m - {t.name}, threshold);
    } else {
      AllOthers(h, l, m, threshold, t.name);
    }
  }

  lemma OutHit(h: seq<QueueUnitInfo>, l: seq<QueueUnitInfo>, m: map<string, QueueUnitInfo>, threshold: int, t: Rank)
    requires SameMembers(h + l, m) && Paired(h + l, t) && FoundHalf(h, l, threshold, t)
    ensures var r := OutOf(h, l, threshold, t);
            && t.name in m && SameMembers(r.0 + r.1, m - {t.name})
            && (Halves(r.0, r.1, m - {t.name}, threshold) <==> HalvesWithout(h, l, threshold, t.name))
  {
    PairedHalves(h, l, t);
    SameObjects(h + l, m);
    if t.priority >= threshold {
      HitIsUnit(h, t);
      assert (h + l)[IndexIn(h, t)] == h[IndexIn(h, t)];
      RemoveHitHigh(h, l, m, threshold, IndexIn(h, t));
    } else {
      HitIsUnit(l, t);
      assert (h + l)[|h| + IndexIn(l, t)] == l[IndexIn(l, t)];
      RemoveHitLow(h, l, m, threshold, IndexIn(l, t));
    }
  }

  /** Without a unit of that name, the others are all units. */
  lemma AllOthers(h: seq<QueueUnitInfo>, l: seq<QueueUnitInfo>, m: map<string, QueueUnitInfo>, threshold: int, key: string)
    requires SameMembers(h + l, m) && key !in m
    ensures m - {key} == m && (Halves(h, l, m, threshold) <==> HalvesWithout(h, l, threshold, key))
  {
    SameObjects(h + l, m);
    assert forall i :: 0 <= i < |h| ==> (h + l)[i] == h[i];
    assert forall i :: 0 <= i < |l| ==> (h + l)[|h| + i] == l[i];
    Absent(h + l, m, key);
    HalvesIff(h, l, m, threshold);
  }

  /** The place in the concatenation that the half of its priority has for a unit. */
  function PositionOf(h: seq<QueueUnitInfo>, l: seq<QueueUnitInfo>, threshold: int, x: QueueUnitInfo): (i: nat)
    reads h, l, x
    ensures i <= |h + l|
  {
    if Priority(x.unit) >= threshold then IndexIn(h, x.Place()) else |h| + IndexIn(l, x.Place())
  }

  function Into(h: seq<QueueUnitInfo>, l: seq<QueueUnitInfo>, threshold: int, x: QueueUnitInfo)
    : (r: (seq<QueueUnitInfo>, seq<QueueUnitInfo>))
    reads h, l, x
  {
    var t := x.Place();
    if FoundHalf(h, l, threshold, t) then (h, l)
    else if Priority(x.unit) >= threshold then (InsertAt(h, IndexIn(h, t), x), l)
    else (h, InsertAt(l, IndexIn(l, t), x))
  }

  lemma IntoShape(h: seq<QueueUnitInfo>, l: seq<QueueUnitInfo>, threshold: int, x: QueueUnitInfo)
    ensures var r := Into(h, l, threshold, x);
            r == (h, l) || r.0 + r.1 == InsertAt(h + l, PositionOf(h, l, threshold, x), x)
  {
    if Priority(x.unit) >= threshold {
      InsertPrefix(h, l, IndexIn(h, x.Place()), x);
    } else {
      InsertSuffix(h, l, IndexIn(l, x.Place()), x);
    }
  }

  /** A new unit enters the half of its priority at its place in the concatenation. */
  lemma IntoKeeps(h: seq<QueueUnitInfo>, l: seq<QueueUnitInfo>, m: map<string, QueueUnitInfo>, threshold: int, x: QueueUnitInfo)
    requires Halves(h, l, m, threshold) && NewTo(h + l, m, x)
    ensures var r := Into(h, l, threshold, x);
            Halves(r.0, r.1, m[x.name := x], threshold) && PositionOf(h, l, threshold, x) == IndexIn(h + l, x.Place())
  {
    if Priority(x.unit) >= threshold {
      InsertHigh(h, l, m, threshold, x);
    } else {
      InsertLow(h, l, m, threshold, x);
    }
  }

  /** The members survive a new unit, and the halves are halves exactly if they were. */
  lemma IntoIff(h: seq<QueueUnitInfo>, l: seq<QueueUnitInfo>, m: map<string, QueueUnitInfo>, threshold: int, x: QueueUnitInfo)
    requires SameMembers(h + l, m) && NewTo(h + l, m, x)
    ensures var r := Into(h, l, threshold, x);
            && SameMembers(r.0 + r.1, m[x.name := x])
            && (Halves(r.0, r.1, m[x.name := x], threshold) <==> Halves(h, l, m, threshold))
  {
    NewIsNotFoundIn(h, l, m, threshold, x);
    IntoShape(h, l, threshold, x);
    var k, r := PositionOf(h, l, threshold, x), Into(h, l, threshold, x);
    HoldsInsert(SlotsOf(h + l), m, k, SlotOf(x));
    SlotsInsert(h + l, k, x);
    if Halves(h, l, m, threshold) {
      IntoKeeps(h, l, m, threshold, x);
    }
    if Halves(r.0, r.1, m[x.name := x], threshold) {
      QueueIff(r.0 + r.1, m[x.name := x]);
      RestInOrder(SlotsOf(h + l), k, SlotOf(x));
      RestOfHalves(h, l, threshold, x);
      HalvesIff(h, l, m, threshold);
    }
  }

  lemma NewIsNotFoundIn(h: seq<QueueUnitInfo>, l: seq<QueueUnitInfo>, m: map<string, QueueUnitInfo>, threshold: int, x: QueueUnitInfo)
    requires SameMembers(h + l, m) && NewTo(h + l, m, x)
    ensures !FoundHalf(h, l, threshold, x.Place())
  {
    SameObjects(h + l, m);
    assert forall i :: 0 <= i < |h| ==> (h + l)[i] == h[i];
    assert forall i :: 0 <= i < |l| ==> (h + l)[|h| + i] == l[i];
    assert Paired(h, x.Place()) && Paired(l, x.Place());
    if FoundIn(h, x.Place()) {
      HitIsUnit(h, x.Place());
    }
    if FoundIn(l, x.Place()) {
      HitIsUnit(l, x.Place());
    }
  }

  lemma RestOfHalves(h: seq<QueueUnitInfo>, l: seq<QueueUnitInfo>, threshold: int, x: QueueUnitInfo)
    requires !FoundHalf(h, l, threshold, x.Place())
    requires var r := Into(h, l, threshold, x); AllHigh(r.0, threshold) && AllLow(r.1, threshold)
    ensures AllHigh(h, threshold) && AllLow(l, threshold)
  {
    var r := Into(h, l, threshold, x);
    var k := if Priority(x.unit) >= threshold then IndexIn(h, x.Place()) else IndexIn(l, x.Place());
    forall i | 0 <= i < |h| ensures Priority(h[i].unit) >= threshold {
      assert r.0[if r.0 == h || i < k then i else i + 1] == h[i];
    }
    forall i | 0 <= i < |l| ensures Priority(l[i].unit) < threshold {
      assert r.1[if r.1 == l || i < k then i else i + 1] == l[i];
    }
  }

  /** The old record finds the queued copy, if there is one. */
  predicate FindsOldHalf(h: seq<QueueUnitInfo>, l: seq<QueueUnitInfo>, m: map<string, QueueUnitInfo>, threshold: int, before: UnitRecord)
    reads h, l
  {
    before.key in m ==> FoundHalf(h, l, threshold, RankOf(before))
  }

  lemma OutOwnsUid(h: seq<QueueUnitInfo>, l: seq<QueueUnitInfo>, threshold: int, t: Rank, key: string, uid: string)
    requires OwnsUidIn(h + l, key, uid)
    ensures var d := OutOf(h, l, threshold, t); OwnsUidIn(d.0 + d.1, key, uid)
  {
    if t.priority >= threshold && FoundIn(h, t) {
      RemovePrefix(h, l, IndexIn(h, t));
    }
    if t.priority < threshold && FoundIn(l, t) {
      RemoveSuffix(h, l, IndexIn(l, t));
    }
    var d := OutOf(h, l, threshold, t);
    assert Reduced(h + l, d.0 + d.1);
    StillOwnsUid(h + l, d.0 + d.1, key, uid);
  }

  lemma MissedCopy(h: seq<QueueUnitInfo>, l: seq<QueueUnitInfo>, m: map<string, QueueUnitInfo>, threshold: int, x: QueueUnitInfo)
    requires SameMembers(h + l, m) && x.name in m && x !in h + l
    ensures var r, m1 := Into(h, l, threshold, x), m[x.name := x];
            !SameMembers(r.0 + r.1, m1) && !Halves(r.0, r.1, m1, threshold)
  {
    var r, m1 := Into(h, l, threshold, x), m[x.name := x];
    IntoShape(h, l, threshold, x);
    MembersSize(h + l, m);
    HalvesIff(r.0, r.1, m1, threshold);
    assert m1.Keys == m.Keys && |m1| == |m1.Keys| == |m.Keys| == |m| && m1[x.name] == x;
    assert r == (h, l) ==> x !in r.0 + r.1;
    if SameMembers(r.0 + r.1, m1) {
      MembersSize(r.0 + r.1, m1);
      SameObjects(r.0 + r.1, m1);
    }
  }

  ghost predicate Within(m: map<string, QueueUnitInfo>, all: map<string, QueueUnitInfo>) {
    forall k :: k in m ==> k in all && m[k] == all[k]
  }

  /** A unit of a queue is new to any queue over some of the other units. */
  lemma NewToSome(q: seq<QueueUnitInfo>, all: map<string, QueueUnitInfo>,
                  r: seq<QueueUnitInfo>, m: map<string, QueueUnitInfo>, k: string)
    requires SameMembers(q, all) && SameMembers(r, m) && Within(m, all) && k in all && k !in m
    ensures all[k].name == k && NewTo(r, m, all[k])
  {
    SameObjects(q, all);
    SameObjects(r, m);
    var x := all[k];
    OwnUid(q, all, x);
    forall i | 0 <= i < |r| ensures r[i].unit.uid != x.unit.uid {
      assert r[i] == all[r[i].name] && r[i] in q;
    }
  }

  /** The ranks of two halves: in order, and cut at the threshold. */
  ghost predicate RanksFit(h: seq<Rank>, l: seq<Rank>, threshold: int) {
    RanksInOrder(h + l) && SplitAt(h, l, threshold)
  }

  ghost predicate RanksInOrder(s: seq<Rank>) {
    forall i, j :: 0 <= i < j < |s| ==> Less(s[i], s[j]) <= 0
  }

  lemma SameParts(a: seq<Rank>, b: seq<Rank>, c: seq<Rank>, d: seq<Rank>)
    requires a + b == c + d && |a| == |c|
    ensures a == c && b == d
  {
    assert a == (a + b)[..|a|] && b == (a + b)[|a|..] && c == (c + d)[..|c|] && d == (c + d)[|c|..];
  }

  lemma OrderIff<T>(r: seq<Rank>, s: seq<Slot<T>>)
    requires |r| == |s| && forall i :: 0 <= i < |s| ==> r[i] == s[i].rank
    ensures RanksInOrder(r) <==> InOrder(s)
  {}

  // ---------- Taking units out one by one ----------

  function DropIn(h: seq<Slot<QueueUnitInfo>>, l: seq<Slot<QueueUnitInfo>>, threshold: int, t: Rank)
    : (seq<Slot<QueueUnitInfo>>, seq<Slot<QueueUnitInfo>>)
  {
    if t.priority >= threshold then (DropSlot(h, t), l) else (h, DropSlot(l, t))
  }

  /** Every one of the searches, each in the half of its priority, hits. */
  predicate AllFoundIn(h: seq<Slot<QueueUnitInfo>>, l: seq<Slot<QueueUnitInfo>>, threshold: int, ts: seq<Rank>)
    decreases |ts|
  {
    ts == [] ||
    (Found(Ranks(if ts[0].priority >= threshold then h else l), ts[0]) &&
     var d := DropIn(h, l, threshold, ts[0]); AllFoundIn(d.0, d.1, threshold, ts[1..]))
  }

  lemma AllFoundStep(h: seq<Slot<QueueUnitInfo>>, l: seq<Slot<QueueUnitInfo>>, threshold: int, ts: seq<Rank>, i: nat)
    requires i < |ts|
    ensures var d := DropIn(h, l, threshold, ts[i]);
            AllFoundIn(h, l, threshold, ts[i..]) <==>
            Found(Ranks(if ts[i].priority >= threshold then h else l), ts[i]) && AllFoundIn(d.0, d.1, threshold, ts[i + 1..])
  {
    assert ts[i..][1..] == ts[i + 1..];
  }

  lemma OutSlots(h: seq<QueueUnitInfo>, l: seq<QueueUnitInfo>, threshold: int, t: Rank)
    ensures var r := OutOf(h, l, threshold, t);
            (SlotsOf(r.0), SlotsOf(r.1)) == DropIn(SlotsOf(h), SlotsOf(l), threshold, t) &&
            |r.0 + r.1| == |h + l| - if FoundHalf(h, l, threshold, t) then 1 else 0
  {
    DroppedSlots(h, t);
    DroppedSlots(l, t);
  }

  /** A part of a slice that is in order with an old record is so too. */
  lemma OrderedPart(q: seq<QueueUnitInfo>, p: seq<QueueUnitInfo>, k: nat, x: QueueUnitInfo, was: UnitRecord)
    requires OrderedAs(q, x, was) && k + |p| <= |q| && q[k..k + |p|] == p
    ensures OrderedAs(p, x, was)
  {
    forall i, j | 0 <= i < j < |p| ensures Less(PlaceAs(p[i], x, was), PlaceAs(p[j], x, was)) <= 0 {
      assert q[k + i] == p[i] && q[k + j] == p[j];
    }
  }

  class IntelligentQueue {
    const name: string
    const quotaOf: UnitRecord -> Option<string>
    const activeFeature: bool

    var priorityThreshold: int
    var high: seq<QueueUnitInfo>
    var low: seq<QueueUnitInfo>
    var queueUnits: map<string, QueueUnitInfo>
    var assumed: set<string>
    var updating: set<string>
    var blockedQuota: set<string>
    var resetNextIdxFlag: bool
    var highNextIdx: nat
    var lowNextIdx: nat
    var maxDepth: int
    var waitPodsRunning: bool

    constructor (name: string, quotaOf: UnitRecord -> Option<string>, activeFeature: bool,
                 threshold: Option<int>, maxDepth: int, waitPodsRunning: bool)
      ensures Valid() && queueUnits == map[] && assumed == {} && updating == {}
    {
      this.name, this.quotaOf, this.activeFeature := name, quotaOf, activeFeature;
      priorityThreshold := if threshold.Some? then threshold.value else DEFAULT_PRIORITY_THRESHOLD;
      this.maxDepth, this.waitPodsRunning := maxDepth, waitPodsRunning;
      high, low, queueUnits, assumed, updating, blockedQuota := [], [], map[], {}, {}, {};
      resetNextIdxFlag, highNextIdx, lowNextIdx := false, 0, 0;
    }

    /** high ++ low is strictly sorted, holds exactly the units of the map, and is cut
        exactly at the threshold. */
    ghost predicate Valid()
      reads this`high, this`low, this`queueUnits, this`priorityThreshold, high, low
    {
      Halves(high, low, queueUnits, priorityThreshold)
    }

    /** high ++ low holds exactly the units of the map. The order, and the side of the
        threshold, are disturbed when the scheduler replaces a record in place. */
    ghost predicate Members()
      reads this`high, this`low, this`queueUnits, high, low
    {
      SameMembers(high + low, queueUnits)
    }

    ghost predicate InPlaces()
      reads this`high, this`low, this`priorityThreshold, high, low
    {
      RanksFit(Places(high), Places(low), priorityThreshold)
    }

    lemma InPlacesIff()
      ensures InPlaces() <==> Ordered(high + low) && AllHigh(high, priorityThreshold) && AllLow(low, priorityThreshold)
    {
      assert forall i :: 0 <= i < |high| ==> Places(high)[i].priority == Priority(high[i].unit);
      assert forall i :: 0 <= i < |low| ==> Places(low)[i].priority == Priority(low[i].unit);
      OrderIff(Places(high) + Places(low), SlotsOf(high + low));
    }

    /** The units but one are in order and on their sides. */
    ghost predicate OthersInPlaces(key: string)
      reads this`high, this`low, this`priorityThreshold, high, low
    {
      HalvesWithout(high, low, priorityThreshold, key)
    }

    lemma ValidIff()
      ensures Valid() <==> Members() && InPlaces()
    {
      InPlacesIff();
      HalvesIff(high, low, queueUnits, priorityThreshold);
    }

    lemma ValidWithout(key: string)
      requires Valid()
      ensures OthersInPlaces(key)
    {
      ValidIff();
      InPlacesIff();
    }

    function QuotaSet(u: UnitRecord): set<string> {
      match quotaOf(u) case Some(q) => {q} case None => {}
    }

    ghost predicate OwnsUid(key: string, uid: string)
      reads this`high, this`low, high, low
    {
      OwnsUidIn(high + low, key, uid)
    }

    method SetHigh(h: seq<QueueUnitInfo>, ghost m: map<string, QueueUnitInfo>)
      modifies this`high
      ensures high == h && (Halves(high, low, m, priorityThreshold) <==> old(Halves(h, low, m, priorityThreshold)))
      ensures SameMembers(high + low, m) <==> old(SameMembers(h + low, m))
    {
      high := h;
    }

    method SetLow(l: seq<QueueUnitInfo>, ghost m: map<string, QueueUnitInfo>)
      modifies this`low
      ensures low == l && (Halves(high, low, m, priorityThreshold) <==> old(Halves(high, l, m, priorityThreshold)))
      ensures SameMembers(high + low, m) <==> old(SameMembers(high + l, m))
    {
      low := l;
    }

    method SetUnits(m: map<string, QueueUnitInfo>)
      modifies this`queueUnits
      ensures queueUnits == m && (Valid() <==> old(Halves(high, low, m, priorityThreshold)))
      ensures Members() <==> old(SameMembers(high + low, m))
    {
      queueUnits := m;
    }

    /** distributeToQueue: the unit goes into the half of its priority, unless the search
        there calls another unit equal; the answer is its position in high ++ low. `m` is
        what the halves are to hold. */
    method DistributeToQueue(x: QueueUnitInfo, ghost m: map<string, QueueUnitInfo>) returns (index: nat)
      modifies this`high, this`low
      ensures index == old(PositionOf(high, low, priorityThreshold, x))
      ensures var r := old(Into(high, low, priorityThreshold, x));
              && high == r.0 && low == r.1
              && (Halves(high, low, m, priorityThreshold) <==> old(Halves(r.0, r.1, m, priorityThreshold)))
              && (SameMembers(high + low, m) <==> old(SameMembers(r.0 + r.1, m)))
    {
      if Priority(x.unit) >= priorityThreshold {
        index := IndexIn(high, x.Place());
        if !FoundIn(high, x.Place()) {
          SetHigh(InsertAt(high, index, x), m);
        }
      } else {
        var k := IndexIn(low, x.Place());
        if !FoundIn(low, x.Place()) {
          SetLow(InsertAt(low, k, x), m);
        }
        index := |high| + k;
      }
    }

    /** removeFromQueue: the half of the priority is searched; whatever is hit leaves it. */
    method RemoveFromQueue(t: Rank, ghost m: map<string, QueueUnitInfo>)
      modifies this`high, this`low
      ensures var r := old(OutOf(high, low, priorityThreshold, t));
              && high == r.0 && low == r.1
              && (Halves(high, low, m, priorityThreshold) <==> old(Halves(r.0, r.1, m, priorityThreshold)))
              && (SameMembers(high + low, m) <==> old(SameMembers(r.0 + r.1, m)))
    {
      if t.priority >= priorityThreshold {
        if FoundIn(high, t) {
          SetHigh(RemoveAt(high, IndexIn(high, t)), m);
        }
      } else {
        if FoundIn(low, t) {
          SetLow(RemoveAt(low, IndexIn(low, t)), m);
        }
      }
    }

    // ---------- Adding and deleting ----------

    lemma EnterCases(x: QueueUnitInfo)
      requires Members() && x.unit.key == x.name && x.name !in queueUnits
      ensures var r, m := Into(high, low, priorityThreshold, x), queueUnits[x.name := x];
              && (SameMembers(r.0 + r.1, m) <==> OwnsUid(x.name, x.unit.uid))
              && (Halves(r.0, r.1, m, priorityThreshold) <==> OwnsUid(x.name, x.unit.uid) && Valid())
    {
      var r, m := Into(high, low, priorityThreshold, x), queueUnits[x.name := x];
      if OwnsUid(x.name, x.unit.uid) {
        NewToRest(high + low, queueUnits, x);
        IntoIff(high, low, queueUnits, priorityThreshold, x);
      } else {
        IntoShape(high, low, priorityThreshold, x);
        DoubleUid(high + low, queueUnits, PositionOf(high, low, priorityThreshold, x), x);
        HalvesIff(r.0, r.1, m, priorityThreshold);
      }
    }

    /** The members survive a new unit exactly if no other key holds its UID. */
    method InsertUnit(x: QueueUnitInfo) returns (index: nat)
      requires x.unit.key == x.name && x.name !in queueUnits
      modifies this`high, this`low, this`queueUnits
      ensures queueUnits == old(queueUnits)[x.name := x] && index == old(PositionOf(high, low, priorityThreshold, x))
      ensures old(Members()) ==> (Members() <==> old(OwnsUid(x.name, x.unit.uid)))
      ensures old(Members()) ==> (Valid() <==> old(OwnsUid(x.name, x.unit.uid) && Valid()))
    {
      if Members() {
        EnterCases(x);
      }
      index := DistributeToQueue(x, queueUnits[x.name := x]);
      SetUnits(queueUnits[x.name := x]);
    }

    /** Inserts, and has the cursors reset unless the unit lands behind them. */
    method InsertAndReset(x: QueueUnitInfo)
      requires x.unit.key == x.name && x.name !in queueUnits
      modifies this`high, this`low, this`queueUnits, this`resetNextIdxFlag
      ensures queueUnits == old(queueUnits)[x.name := x]
      ensures old(Members()) ==> (Members() <==> old(OwnsUid(x.name, x.unit.uid)))
      ensures old(Members()) ==> (Valid() <==> old(OwnsUid(x.name, x.unit.uid) && Valid()))
      ensures resetNextIdxFlag == (old(resetNextIdxFlag) ||
              high != [] || old(PositionOf(high, low, priorityThreshold, x)) <= lowNextIdx + |high|)
    {
      var index := InsertUnit(x);
      ghost var members, valid := Members(), Valid();
      resetNextIdxFlag := resetNextIdxFlag || |high| > 0 || index <= lowNextIdx + |high|;
      assert Members() == members && Valid() == valid;
    }

    method AddQueueUnitInfo(x: QueueUnitInfo) returns (added: bool, failed: bool)
      requires x.unit.key == x.name
      modifies this`high, this`low, this`queueUnits, this`assumed, this`resetNextIdxFlag
      ensures old(Members()) ==> (Members() <==> !added || old(OwnsUid(x.name, x.unit.uid)))
      ensures old(Members()) ==> (Valid() <==> (!added || old(OwnsUid(x.name, x.unit.uid))) && old(Valid()))
      ensures added == (!IsDequeued(x.unit) && x.name !in old(queueUnits))
      ensures failed == (!IsDequeued(x.unit) && x.name in old(queueUnits))
      ensures queueUnits == if added then old(queueUnits)[x.name := x] else old(queueUnits)
      ensures assumed == old(assumed) + if !IsDequeued(x.unit) && IsReservedNotRun(x.unit) then {x.name} else {}
      ensures resetNextIdxFlag == (old(resetNextIdxFlag) ||
              (added && (high != [] || old(PositionOf(high, low, priorityThreshold, x)) <= lowNextIdx + |high|)))
    {
      if IsDequeued(x.unit) {
        return false, false;
      }
      Assume(x);
      if x.name in queueUnits {
        return false, true;
      }
      InsertAndReset(x);
      return true, false;
    }

    method Assume(x: QueueUnitInfo)
      modifies this`assumed
      ensures assumed == old(assumed) + if IsReservedNotRun(x.unit) then {x.name} else {}
    {
      if IsReservedNotRun(x.unit) {
        assumed := assumed + {x.name};
      }
    }

    function TargetOf(u: UnitRecord): Rank
      reads this`queueUnits, queueUnits.Values
    {
      if u.key in queueUnits then queueUnits[u.key].Place() else RankOf(u)
    }

    /** The search hits exactly if there is a cached copy. */
    predicate Hits(u: UnitRecord)
      reads this`high, this`low, this`queueUnits, this`priorityThreshold, high, low, queueUnits.Values
    {
      u.key in queueUnits <==> FoundHalf(high, low, priorityThreshold, TargetOf(u))
    }

    lemma DeleteCases(u: UnitRecord)
      requires Members()
      ensures var r := OutOf(high, low, priorityThreshold, TargetOf(u));
              && (SameMembers(r.0 + r.1, queueUnits - {u.key}) <==> Hits(u))
              && (Halves(r.0, r.1, queueUnits - {u.key}, priorityThreshold) <==> Hits(u) && OthersInPlaces(u.key))
    {
      if u.key in queueUnits {
        SameObjects(high + low, queueUnits);
        OwnUid(high + low, queueUnits, queueUnits[u.key]);
        OutIff(high, low, queueUnits, priorityThreshold, TargetOf(u));
      } else {
        StrayCases(u);
      }
    }

    lemma StrayCases(u: UnitRecord)
      requires Members() && u.key !in queueUnits
      ensures var r := OutOf(high, low, priorityThreshold, RankOf(u));
              && queueUnits - {u.key} == queueUnits
              && (SameMembers(r.0 + r.1, queueUnits) <==> Hits(u))
              && (Halves(r.0, r.1, queueUnits, priorityThreshold) <==> Hits(u) && OthersInPlaces(u.key))
    {
      var r := OutOf(high, low, priorityThreshold, RankOf(u));
      AllOthers(high, low, queueUnits, priorityThreshold, u.key);
      if FoundHalf(high, low, priorityThreshold, RankOf(u)) {
        HalvesIff(r.0, r.1, queueUnits, priorityThreshold);
        OutSlots(high, low, priorityThreshold, RankOf(u));
        MembersSize(high + low, queueUnits);
        if SameMembers(r.0 + r.1, queueUnits) {
          MembersSize(r.0 + r.1, queueUnits);
        }
      }
    }

    /** In a queue a cached copy is found by its rank. */
    lemma CachedIsHit(u: UnitRecord)
      requires Valid() && u.key in queueUnits
      ensures Hits(u) && OthersInPlaces(u.key)
    {
      ValidIff();
      ValidWithout(u.key);
      SameObjects(high + low, queueUnits);
      OwnUid(high + low, queueUnits, queueUnits[u.key]);
      RankIsFound(TargetOf(u));
    }

    lemma RankIsFound(t: Rank)
      requires Valid() && t.name in queueUnits && RankedAs(high + low, t)
      ensures FoundHalf(high, low, priorityThreshold, t)
    {
      RankedFits(high + low, queueUnits, t);
      SearchHalf(high, low, queueUnits, priorityThreshold, t);
      RemoveKeeps(high + low, queueUnits, t);
    }

    /** What the search hits leaves the halves, and the unit leaves the map. */
    method TakeOut(u: UnitRecord)
      modifies this`high, this`low, this`queueUnits
      ensures queueUnits == old(queueUnits) - {u.key}
      ensures var r := old(OutOf(high, low, priorityThreshold, TargetOf(u))); high == r.0 && low == r.1
      ensures old(Members()) ==> (Members() <==> old(Hits(u))) && (Valid() <==> old(Hits(u) && OthersInPlaces(u.key)))
    {
      if Members() {
        DeleteCases(u);
      }
      RemoveFromQueue(TargetOf(u), queueUnits - {u.key});
      SetUnits(queueUnits - {u.key});
    }

    /** The members survive exactly if the search hits where there is a cached copy, and then
        the rest are two halves if they are in order and on their sides. */
    method Delete(u: UnitRecord)
      modifies this`high, this`low, this`queueUnits, this`assumed, this`updating, this`blockedQuota, this`resetNextIdxFlag
      ensures old(Members()) ==> (Members() <==> old(Hits(u))) && (Valid() <==> old(Hits(u) && OthersInPlaces(u.key)))
      ensures queueUnits == old(queueUnits) - {u.key} && resetNextIdxFlag
      ensures old(!FoundHalf(high, low, priorityThreshold, TargetOf(u))) ==> high == old(high) && low == old(low)
      ensures assumed == old(assumed) - {u.key} && updating == old(updating) - {u.key}
      ensures blockedQuota == old(blockedQuota) - QuotaSet(u)
    {
      ghost var members, hits, others := Members(), Hits(u), OthersInPlaces(u.key);
      Forget(u);
      assert Members() == members && Hits(u) == hits && OthersInPlaces(u.key) == others;
      TakeOut(u);
    }

    method Forget(u: UnitRecord)
      modifies this`assumed, this`updating, this`blockedQuota, this`resetNextIdxFlag
      ensures assumed == old(assumed) - {u.key} && updating == old(updating) - {u.key}
      ensures blockedQuota == old(blockedQuota) - QuotaSet(u) && resetNextIdxFlag
    {
      assumed := assumed - {u.key};
      updating := updating - {u.key};
      blockedQuota := blockedQuota - QuotaSet(u);
      resetNextIdxFlag := true;
    }

    // ---------- Update ----------

    /** What an update event says of the queue. */
    ghost predicate Describes(before: UnitRecord, after: UnitRecord)
      reads this`high, this`low, high, low
    {
      DescribesIn(high + low, before, after)
    }

    /** The event is about one unit of a queue with these members. */
    ghost predicate Pending(before: UnitRecord, after: UnitRecord)
      reads this`high, this`low, this`queueUnits, high, low
    {
      Members() && Describes(before, after)
    }

    predicate ActivationChanged(before: UnitRecord, after: UnitRecord) {
      activeFeature && IsActive(before) != IsActive(after)
    }

    predicate Skips(before: UnitRecord, after: UnitRecord, samePointer: bool) {
      before.phase == after.phase && samePointer && !P.PodSetsChanged(before, after) && !P.AdmissionsChanged(before, after) &&
      !ActivationChanged(before, after)
    }

    /** The search with the old record hits the queued copy, if there is one. */
    predicate FindsOld(before: UnitRecord)
      reads this`high, this`low, this`queueUnits, this`priorityThreshold, high, low
    {
      FindsOldHalf(high, low, queueUnits, priorityThreshold, before)
    }

    /** With the newer record in place of the queued one, the units are in order and on
        their sides. */
    ghost predicate RefreshFits(after: UnitRecord)
      reads this`high, this`low, this`queueUnits, this`priorityThreshold, high, low, queueUnits.Values
    {
      if after.key in queueUnits && queueUnits[after.key].unit.version != after.version
      then FitsAs(queueUnits[after.key], after)
      else InPlaces()
    }

    ghost predicate FitsAs(x: QueueUnitInfo, u: UnitRecord)
      reads this`high, this`low, this`priorityThreshold, high, low, x
    {
      RanksFit(PlacesAs(high, x, u), PlacesAs(low, x, u), priorityThreshold)
    }

    lemma FitsAsOrdered(x: QueueUnitInfo, u: UnitRecord)
      requires FitsAs(x, u)
      ensures OrderedAs(high + low, x, u)
    {
      var s := PlacesAs(high, x, u) + PlacesAs(low, x, u);
      assert forall i :: 0 <= i < |s| ==> s[i] == PlaceAs((high + low)[i], x, u);
    }

    /** The old copy leaves its half, if the search hits it. */
    method DropOld(before: UnitRecord, ghost after: UnitRecord)
      modifies this`high, this`low
      ensures old(Pending(before, after) && FindsOld(before)) ==>
                && SameMembers(high + low, queueUnits - {after.key}) && OwnsUid(after.key, after.uid)
                && (Halves(high, low, queueUnits - {after.key}, priorityThreshold) <==> old(OthersInPlaces(after.key)))
      ensures old(Pending(before, after) && !FindsOld(before)) ==> Members() && after.key in queueUnits
    {
      if Pending(before, after) {
        DescribesPairs(high + low, before, after);
        OutIff(high, low, queueUnits, priorityThreshold, RankOf(before));
        OutOwnsUid(high, low, priorityThreshold, RankOf(before), after.key, after.uid);
      }
      ghost var pending, found := Pending(before, after), FindsOld(before);
      RemoveFromQueue(RankOf(before), if found then queueUnits - {after.key} else queueUnits);
    }

    lemma CopyCases(x: QueueUnitInfo)
      requires x.name == x.unit.key && x !in high + low
      ensures var r, m := Into(high, low, priorityThreshold, x), queueUnits[x.name := x];
              && (SameMembers(high + low, queueUnits - {x.name}) && OwnsUid(x.name, x.unit.uid) ==>
                    && SameMembers(r.0 + r.1, m)
                    && (Halves(r.0, r.1, m, priorityThreshold) <==> Halves(high, low, queueUnits - {x.name}, priorityThreshold)))
              && (Members() && x.name in queueUnits ==> !SameMembers(r.0 + r.1, m) && !Halves(r.0, r.1, m, priorityThreshold))
    {
      var m0 := queueUnits - {x.name};
      assert m0[x.name := x] == queueUnits[x.name := x];
      if SameMembers(high + low, m0) && OwnsUid(x.name, x.unit.uid) {
        NewToRest(high + low, m0, x);
        IntoIff(high, low, m0, priorityThreshold, x);
      }
      if Members() && x.name in queueUnits {
        MissedCopy(high, low, queueUnits, priorityThreshold, x);
      }
    }

    method PutCopy(x: QueueUnitInfo)
      modifies this`high, this`low, this`queueUnits
      ensures queueUnits == old(queueUnits)[x.name := x]
      ensures var r := old(Into(high, low, priorityThreshold, x));
              && (Valid() <==> old(Halves(r.0, r.1, queueUnits[x.name := x], priorityThreshold)))
              && (Members() <==> old(SameMembers(r.0 + r.1, queueUnits[x.name := x])))
    {
      var m := queueUnits[x.name := x];
      var index := DistributeToQueue(x, m);
      SetUnits(m);
    }

    method PlaceCopy(x: QueueUnitInfo)
      requires x.name == x.unit.key && x !in high + low
      modifies this`high, this`low, this`queueUnits
      ensures queueUnits == old(queueUnits)[x.name := x]
      ensures old(SameMembers(high + low, queueUnits - {x.name}) && OwnsUid(x.name, x.unit.uid)) ==>
                Members() && (Valid() <==> old(Halves(high, low, queueUnits - {x.name}, priorityThreshold)))
      ensures old(Members() && x.name in queueUnits) ==> !Members() && !Valid()
    {
      CopyCases(x);
      PutCopy(x);
    }

    /** The new copy takes the place of the old one. */
    method InsertCopy(after: UnitRecord)
      modifies this`high, this`low, this`queueUnits
      ensures after.key in queueUnits && fresh(queueUnits[after.key]) && queueUnits[after.key].unit == after && queueUnits[after.key].created == after.created
      ensures queueUnits == old(queueUnits)[after.key := queueUnits[after.key]]
      ensures old(SameMembers(high + low, queueUnits - {after.key}) && OwnsUid(after.key, after.uid)) ==>
                Members() && (Valid() <==> old(Halves(high, low, queueUnits - {after.key}, priorityThreshold)))
      ensures old(Members() && after.key in queueUnits) ==> !Members() && !Valid()
    {
      var x := new QueueUnitInfo(after);
      PlaceCopy(x);
    }

    /** The unit leaves its half by its old rank and enters one by its new rank. */
    method MoveUnit(before: UnitRecord, after: UnitRecord)
      modifies this`high, this`low, this`queueUnits
      ensures after.key in queueUnits && fresh(queueUnits[after.key]) && queueUnits[after.key].unit == after && queueUnits[after.key].created == after.created
      ensures queueUnits == old(queueUnits)[after.key := queueUnits[after.key]]
      ensures old(Pending(before, after)) ==> (Members() <==> old(FindsOld(before)))
      ensures old(Pending(before, after)) ==> (Valid() <==> old(FindsOld(before) && OthersInPlaces(after.key)))
    {
      DropOld(before, after);
      InsertCopy(after);
    }

    lemma CachedUid(before: UnitRecord, after: UnitRecord)
      requires Pending(before, after) && after.key in queueUnits
      ensures queueUnits[after.key].unit.uid == after.uid && queueUnits[after.key] in high + low && queueUnits[after.key].name == after.key
    {
      SameObjects(high + low, queueUnits);
    }

    /** `u` is another record of the queued object `x`. */
    ghost predicate Replaces(x: QueueUnitInfo, u: UnitRecord)
      reads this`high, this`low, this`queueUnits, high, low, x
    {
      Members() && x in high + low && u.uid == x.unit.uid && u.key == x.name
    }

    /** Replacing the record of a queued object keeps the members, and makes two halves
        exactly if all units are in their places with it. */
    method ReplaceUnit(x: QueueUnitInfo, u: UnitRecord)
      modifies x
      ensures x.unit == u
      ensures old(Replaces(x, u)) ==> Members() && (Valid() <==> old(FitsAs(x, u)))
      ensures old(Replaces(x, u)) ==> (FitsAs(x, old(x.unit)) <==> old(InPlaces()))
    {
      ghost var fits, was, s, k := Replaces(x, u), x.unit, SlotsOf(high + low), 0;
      ghost var h, l, h', l' := Places(high), Places(low), PlacesAs(high, x, u), PlacesAs(low, x, u);
      if fits {
        k := ReplacedSlots(high + low, queueUnits, x, u);
        RanksWith(x, u, k);
      }
      ghost var r := if fits then s[k := Slot(PlaceWith(x, u), x)] else s;
      x.unit := u;
      if fits {
        assert SlotsOf(high + low) == r;
        RanksWith(x, was, k);
        assert r[k := Slot(PlaceWith(x, was), x)] == s;
        SameParts(Places(high), Places(low), h', l');
        SameParts(PlacesAs(high, x, was), PlacesAs(low, x, was), h, l);
        StillMembers(r);
        ValidIff();
      }
    }

    lemma StillMembers(r: seq<Slot<QueueUnitInfo>>)
      requires SlotsOf(high + low) == r && Holds(r, queueUnits)
      requires forall i :: 0 <= i < |high + low| ==> (high + low)[i].unit.key == (high + low)[i].name
      ensures Members()
    {}

    /** The ranks of the concatenation, as they are and with another record of `x`. */
    lemma RanksWith(x: QueueUnitInfo, u: UnitRecord, k: nat)
      requires k < |high + low| && (high + low)[k] == x && forall i :: 0 <= i < |high + low| && i != k ==> (high + low)[i] != x
      ensures Ranks(SlotsOf(high + low)) == Places(high) + Places(low)
      ensures Ranks(SlotsOf(high + low)[k := Slot(PlaceWith(x, u), x)]) == PlacesAs(high, x, u) + PlacesAs(low, x, u)
    {}

    method Refresh(after: UnitRecord)
      requires after.key in queueUnits
      modifies queueUnits[after.key]
      ensures queueUnits[after.key].unit == Newer(old(queueUnits[after.key].unit), after)
      ensures old(Members() && queueUnits[after.key].unit.uid == after.uid) ==>
                Members() && (Valid() <==> old(RefreshFits(after)))
    {
      ValidIff();
      if Members() {
        SameObjects(high + low, queueUnits);
      }
      var x := queueUnits[after.key];
      if x.unit.version != after.version {
        ReplaceUnit(x, after);
      }
    }

    /** The deferred part of Update. */
    method Finish(before: UnitRecord, after: UnitRecord)
      requires after.key in queueUnits
      modifies this`resetNextIdxFlag, this`blockedQuota, queueUnits[after.key]
      ensures old(Pending(before, after)) ==> Members() && (Valid() <==> old(RefreshFits(after)))
      ensures queueUnits[after.key].unit == Newer(old(queueUnits[after.key].unit), after)
      ensures resetNextIdxFlag == (old(resetNextIdxFlag) || (IsResourceReleased(before, after) && after.phase != SchedFailed))
      ensures blockedQuota == old(blockedQuota) - Unblocked(before, after)
    {
      if Pending(before, after) {
        CachedUid(before, after);
      }
      Refresh(after);
      ghost var members, valid := Members(), Valid();
      Release(before, after);
      assert Members() == members && Valid() == valid;
    }

    method Release(before: UnitRecord, after: UnitRecord)
      modifies this`resetNextIdxFlag, this`blockedQuota
      ensures resetNextIdxFlag == (old(resetNextIdxFlag) || (IsResourceReleased(before, after) && after.phase != SchedFailed))
      ensures blockedQuota == old(blockedQuota) - Unblocked(before, after)
    {
      if IsResourceReleased(before, after) {
        if after.phase != SchedFailed {
          resetNextIdxFlag := true;
        }
        blockedQuota := blockedQuota - QuotaSet(after);
      }
    }

    function AssumedAfter(after: UnitRecord): set<string>
      reads this`assumed, this`updating
    {
      if IsDequeued(after) || !IsReservedAny(after) then assumed - {after.key}
      else if after.key !in updating && IsAllRunning(after) then assumed - {after.key}
      else if !IsAllRunning(after) then assumed + {after.key}
      else assumed
    }

    method Track(after: UnitRecord)
      requires !IsDequeued(after)
      modifies this`assumed, this`resetNextIdxFlag
      ensures assumed == old(AssumedAfter(after))
      ensures resetNextIdxFlag == (old(resetNextIdxFlag) ||
              (IsReservedAny(after) && after.key !in updating && IsAllRunning(after)))
    {
      var isUpdating := after.key in updating;
      if !IsReservedAny(after) {
        assumed := assumed - {after.key};
      } else if !isUpdating && IsAllRunning(after) {
        resetNextIdxFlag := true;
        assumed := assumed - {after.key};
      } else if !IsAllRunning(after) {
        assumed := assumed + {after.key};
      }
    }

    method ReleaseAssumed(before: UnitRecord, after: UnitRecord)
      modifies this`assumed, this`resetNextIdxFlag, this`blockedQuota
      ensures assumed == old(assumed) - {after.key}
      ensures resetNextIdxFlag == (old(resetNextIdxFlag) || after.key in old(assumed))
      ensures blockedQuota == old(BlockedAfterLeaving(before, after))
    {
      if after.key in assumed {
        assumed := assumed - {after.key};
        resetNextIdxFlag := true;
        if !IsDequeued(before) && waitPodsRunning {
          blockedQuota := {};
        }
      }
    }

    /** A unit that leaves while assumed unblocks everything in a queue that waits for pods. */
    function BlockedAfterLeaving(before: UnitRecord, after: UnitRecord): set<string>
      reads this`blockedQuota, this`assumed, this`waitPodsRunning
    {
      if after.key in assumed && !IsDequeued(before) && waitPodsRunning then {} else blockedQuota
    }

    /** A unit that gives something back unblocks its quota. */
    function Unblocked(before: UnitRecord, after: UnitRecord): set<string> {
      if IsResourceReleased(before, after) then QuotaSet(after) else {}
    }

    /** The cursors start over. */
    predicate Rewinds(before: UnitRecord, after: UnitRecord)
      reads this`updating
    {
      || (IsReservedAny(after) && after.key !in updating && IsAllRunning(after))
      || (IsResourceReleased(before, after) && after.phase != SchedFailed)
    }

    /** A unit counts as in flight after an update exactly if it is not through, holds
        something, and either has a replica that does not run or was reserved here. */
    lemma AssumedIff(after: UnitRecord, k: string)
      ensures k in AssumedAfter(after) <==>
        if k != after.key then k in assumed
        else !IsDequeued(after) && AnyLeft(after.admissions) && (AnyIdle(after.admissions) || (k in assumed && k in updating))
    {
      ReservedIff(after);
    }

    /** The cursors start over when all the unit holds runs, or when it released something
        without having failed. */
    lemma RewindsIff(before: UnitRecord, after: UnitRecord)
      requires UniqueNames(before.admissions) && UniqueNames(after.admissions)
      ensures Rewinds(before, after) <==>
        || (after.key !in updating && AnyLeft(after.admissions) && !AnyIdle(after.admissions))
        || (after.phase != SchedFailed &&
            (|before.admissions| != |after.admissions| ||
             exists i :: 0 <= i < |before.admissions| && Lowered(before.admissions[i], after.admissions)))
    {
      ReservedIff(after);
      ReleasedIff(before, after);
    }

    /** A release lets the units of the same quota pass again, and no others; when the unit in
        flight is through, a queue that waits for it lets all pass. */
    lemma UnblockedIff(before: UnitRecord, after: UnitRecord, x: UnitRecord)
      ensures QuotaSet(x) !! blockedQuota - Unblocked(before, after) <==>
        QuotaSet(x) !! blockedQuota || (IsResourceReleased(before, after) && quotaOf(x) == quotaOf(after))
      ensures QuotaSet(x) !! BlockedAfterLeaving(before, after) <==>
        QuotaSet(x) !! blockedQuota || (after.key in assumed && waitPodsRunning && !IsDequeued(before))
    {
    }

    /** An update that is skipped changes none of the verdicts, whether the unit is active
        included, as long as the request stays and no pod set without pods hides a change. */
    lemma SkippedAgree(before: UnitRecord, after: UnitRecord, samePointer: bool)
      requires Skips(before, after, samePointer) && before.request == after.request
      requires UniqueNames(before.admissions) && UniqueNames(after.admissions) && P.NoneIsEmpty(before)
      ensures IsDequeued(before) <==> IsDequeued(after)
      ensures IsSatisfied(before) <==> IsSatisfied(after)
      ensures IsAllRunning(before) <==> IsAllRunning(after)
      ensures activeFeature ==> (IsActive(before) <==> IsActive(after))
    {
      P.UnseenAgree(before, after);
    }

    method LeaveQueue(before: UnitRecord, after: UnitRecord)
      modifies this`high, this`low, this`queueUnits, this`assumed, this`resetNextIdxFlag, this`blockedQuota
      ensures queueUnits == old(queueUnits) - {after.key} && blockedQuota == old(BlockedAfterLeaving(before, after))
      ensures old(Pending(before, after)) ==> (Members() <==> old(FindsOld(before)))
      ensures old(Pending(before, after)) ==> (Valid() <==> old(FindsOld(before) && OthersInPlaces(after.key)))
      ensures assumed == old(assumed) - {after.key}
      ensures resetNextIdxFlag == (old(resetNextIdxFlag) || after.key in old(assumed))
    {
      LeaveHalves(before, after);
      ghost var members, valid := Members(), Valid();
      ReleaseAssumed(before, after);
      assert Members() == members && Valid() == valid;
    }

    method LeaveHalves(before: UnitRecord, after: UnitRecord)
      modifies this`high, this`low, this`queueUnits
      ensures queueUnits == old(queueUnits) - {after.key}
      ensures old(Pending(before, after)) ==> (Members() <==> old(FindsOld(before)))
      ensures old(Pending(before, after)) ==> (Valid() <==> old(FindsOld(before) && OthersInPlaces(after.key)))
    {
      if Pending(before, after) {
        DescribesPairs(high + low, before, after);
        OutIff(high, low, queueUnits, priorityThreshold, RankOf(before));
      }
      RemoveFromQueue(RankOf(before), queueUnits - {after.key});
      SetUnits(queueUnits - {after.key});
    }

    method Reposition(before: UnitRecord, after: UnitRecord)
      requires !IsDequeued(after)
      modifies this`high, this`low, this`queueUnits, this`assumed, this`resetNextIdxFlag, this`blockedQuota
      ensures old(Pending(before, after)) ==> (Members() <==> old(FindsOld(before)))
      ensures old(Pending(before, after)) ==> (Valid() <==> old(FindsOld(before) && OthersInPlaces(after.key)))
      ensures after.key in queueUnits && fresh(queueUnits[after.key]) && queueUnits[after.key].unit == after && queueUnits[after.key].created == after.created
      ensures queueUnits == old(queueUnits)[after.key := queueUnits[after.key]]
      ensures assumed == old(AssumedAfter(after))
      ensures blockedQuota == old(blockedQuota) - Unblocked(before, after)
      ensures resetNextIdxFlag == (old(resetNextIdxFlag) || old(Rewinds(before, after)))
    {
      MoveUnit(before, after);
      ghost var members, valid := Members(), Valid();
      Settle(before, after);
      assert Members() == members && Valid() == valid;
    }

    method Settle(before: UnitRecord, after: UnitRecord)
      requires !IsDequeued(after)
      modifies this`assumed, this`resetNextIdxFlag, this`blockedQuota
      ensures assumed == old(AssumedAfter(after))
      ensures blockedQuota == old(blockedQuota) - Unblocked(before, after)
      ensures resetNextIdxFlag == (old(resetNextIdxFlag) || old(Rewinds(before, after)))
    {
      Track(after);
      Release(before, after);
    }

    /** The search that an update makes for a queued copy, by the old record, hits it. */
    predicate UpdateFinds(before: UnitRecord, after: UnitRecord, samePointer: bool)
      reads this`high, this`low, this`queueUnits, this`priorityThreshold, high, low
    {
      Skips(before, after, samePointer) || FindsOld(before)
    }

    /** What else it takes for a queue to come out: all units are in their places with the
        new record, or the other units are. */
    ghost predicate UpdateFits(before: UnitRecord, after: UnitRecord, samePointer: bool)
      reads this`high, this`low, this`queueUnits, this`priorityThreshold, high, low, queueUnits.Values
    {
      if Skips(before, after, samePointer) then RefreshFits(after) else OthersInPlaces(after.key)
    }

    /** An update keeps the members exactly when its search hits, whatever the order, and
        makes two sorted halves cut at the threshold exactly when that condition is met too. */
    method Update(before: UnitRecord, after: UnitRecord, samePointer: bool)
      modifies this`high, this`low, this`queueUnits, this`assumed, this`resetNextIdxFlag, this`blockedQuota
      modifies if after.key in queueUnits then {queueUnits[after.key]} else {}
      ensures old(Pending(before, after)) ==> (Members() <==> old(UpdateFinds(before, after, samePointer)))
      ensures old(Pending(before, after)) ==>
                (Valid() <==> old(UpdateFinds(before, after, samePointer) && UpdateFits(before, after, samePointer)))
      ensures if Skips(before, after, samePointer) then queueUnits == old(queueUnits)
              else if IsDequeued(after) then queueUnits == old(queueUnits) - {after.key}
              else
                && after.key in queueUnits && fresh(queueUnits[after.key]) && queueUnits[after.key].created == after.created
                && queueUnits == old(queueUnits)[after.key := queueUnits[after.key]]
      ensures after.key in queueUnits ==>
                queueUnits[after.key].unit ==
                if Skips(before, after, samePointer) then Newer(old(queueUnits[after.key].unit), after) else after
      ensures after.key in queueUnits && queueUnits[after.key].unit != after ==>
                && after.key in old(queueUnits) && old(queueUnits[after.key].unit.version) == after.version
                && queueUnits[after.key].unit == old(queueUnits[after.key].unit)
      ensures assumed == if Skips(before, after, samePointer) then old(assumed) else old(AssumedAfter(after))
      ensures blockedQuota ==
              if !Skips(before, after, samePointer) && IsDequeued(after) then old(BlockedAfterLeaving(before, after))
              else old(blockedQuota) - if after.key in queueUnits then Unblocked(before, after) else {}
      ensures resetNextIdxFlag == (old(resetNextIdxFlag) || ActivationChanged(before, after) ||
              if Skips(before, after, samePointer) then
                after.key in queueUnits && IsResourceReleased(before, after) && after.phase != SchedFailed
              else if IsDequeued(after) then after.key in old(assumed)
              else old(Rewinds(before, after)))
    {
      ValidIff();
      if Skips(before, after, samePointer) {
        if after.key in queueUnits {
          Finish(before, after);
        }
        return;
      }
      ApplyUpdate(before, after);
    }

    method ApplyUpdate(before: UnitRecord, after: UnitRecord)
      modifies this`high, this`low, this`queueUnits, this`assumed, this`resetNextIdxFlag, this`blockedQuota
      ensures old(Pending(before, after)) ==> (Members() <==> old(FindsOld(before)))
      ensures old(Pending(before, after)) ==> (Valid() <==> old(FindsOld(before) && OthersInPlaces(after.key)))
      ensures if IsDequeued(after) then queueUnits == old(queueUnits) - {after.key}
              else
                && after.key in queueUnits && fresh(queueUnits[after.key]) && queueUnits[after.key].unit == after && queueUnits[after.key].created == after.created
                && queueUnits == old(queueUnits)[after.key := queueUnits[after.key]]
      ensures assumed == old(AssumedAfter(after))
      ensures blockedQuota == if IsDequeued(after) then old(BlockedAfterLeaving(before, after))
                              else old(blockedQuota) - Unblocked(before, after)
      ensures resetNextIdxFlag == (old(resetNextIdxFlag) || ActivationChanged(before, after) ||
              if IsDequeued(after) then after.key in old(assumed) else old(Rewinds(before, after)))
    {
      if IsDequeued(after) {
        LeaveQueue(before, after);
      } else {
        Reposition(before, after);
      }
      ghost var members, valid := Members(), Valid();
      NoteActivation(before, after);
      assert Members() == members && Valid() == valid;
    }

    method NoteActivation(before: UnitRecord, after: UnitRecord)
      modifies this`resetNextIdxFlag
      ensures resetNextIdxFlag == (old(resetNextIdxFlag) || ActivationChanged(before, after))
    {
      if ActivationChanged(before, after) {
        resetNextIdxFlag := true;
      }
    }

    // ---------- Updates of a queue, and of one with a replaced record ----------

    /** If the old record has the priority the queued copy was sorted by, every update
        keeps a queue. */
    lemma CurrentUpdateKeeps(before: UnitRecord, after: UnitRecord, samePointer: bool)
      requires Valid() && Pending(before, after) && QueuedAs(high + low, before) && PointersFit(before, after, samePointer)
      ensures UpdateFinds(before, after, samePointer) && UpdateFits(before, after, samePointer)
    {
      ValidIff();
      ValidWithout(after.key);
      DescribesPairs(high + low, before, after);
      if after.key in queueUnits {
        SameObjects(high + low, queueUnits);
        RankIsFound(RankOf(before));
        if samePointer {
          SameRankFits(queueUnits[after.key], after);
        }
      }
    }

    lemma SameRankFits(x: QueueUnitInfo, u: UnitRecord)
      requires Priority(u) == Priority(x.unit)
      ensures FitsAs(x, u) <==> InPlaces()
    {
      assert PlacesAs(high, x, u) == Places(high) && PlacesAs(low, x, u) == Places(low);
    }

    /** A queue but for one replaced record: with its old record all units are in place. */
    ghost predicate QueueBut(x: QueueUnitInfo, was: UnitRecord)
      reads this`high, this`low, this`queueUnits, this`priorityThreshold, high, low, x
    {
      Members() && x in high + low && FitsAs(x, was)
    }

    /** The update that reports the replacement, still pending, finds the unit by its old
        record and makes a queue again. */
    lemma PendingUpdateRepairs(x: QueueUnitInfo, before: UnitRecord, after: UnitRecord, samePointer: bool)
      requires QueueBut(x, before) && Pending(before, after) && before.key == x.name && before.created == x.created
      requires !Skips(before, after, samePointer)
      ensures UpdateFinds(before, after, samePointer) && UpdateFits(before, after, samePointer)
    {
      OldRecordFindsHalf(x, before);
      assert PlaceWith(x, before) == RankOf(before);
    }

    lemma OldRecordFindsHalf(x: QueueUnitInfo, was: UnitRecord)
      requires QueueBut(x, was)
      ensures FoundHalf(high, low, priorityThreshold, PlaceWith(x, was)) && OthersInPlaces(x.name)
    {
      FitsAsOrdered(x, was);
      OldRecordFinds(high + low, queueUnits, x, was);
      OthersFit(x, was);
      PartsDiffer(high, low);
      if x in high {
        FindsInHigh(x, was);
      } else {
        FindsInLow(x, was);
      }
    }

    lemma FindsInHigh(x: QueueUnitInfo, was: UnitRecord)
      requires OrderedAs(high + low, x, was) && FitsAs(x, was) && AllDiffer(SlotsOf(high)) && x in high
      ensures PlaceWith(x, was).priority >= priorityThreshold && FoundIn(high, PlaceWith(x, was))
    {
      var i :| 0 <= i < |high| && high[i] == x;
      assert PlacesAs(high, x, was)[i] == PlaceWith(x, was);
      assert (high + low)[0..0 + |high|] == high;
      OrderedPart(high + low, high, 0, x, was);
      OldRecordFindsIn(high, x, was);
    }

    lemma FindsInLow(x: QueueUnitInfo, was: UnitRecord)
      requires OrderedAs(high + low, x, was) && FitsAs(x, was) && AllDiffer(SlotsOf(low)) && x in low
      ensures PlaceWith(x, was).priority < priorityThreshold && FoundIn(low, PlaceWith(x, was))
    {
      var i :| 0 <= i < |low| && low[i] == x;
      assert PlacesAs(low, x, was)[i] == PlaceWith(x, was);
      assert (high + low)[|high|..|high| + |low|] == low;
      OrderedPart(high + low, low, |high|, x, was);
      OldRecordFindsIn(low, x, was);
    }

    lemma OthersFit(x: QueueUnitInfo, was: UnitRecord)
      requires QueueBut(x, was) && OrderedWithout(high + low, x.name)
      ensures OthersInPlaces(x.name)
    {
      forall i | 0 <= i < |high| && high[i].name != x.name ensures Priority(high[i].unit) >= priorityThreshold {
        assert PlacesAs(high, x, was)[i] == high[i].Place();
      }
      forall i | 0 <= i < |low| && low[i].name != x.name ensures Priority(low[i].unit) < priorityThreshold {
        assert PlacesAs(low, x, was)[i] == low[i].Place();
      }
    }

    /** After the scheduler has replaced a record in place, the update that reports it
        restores the halves, as long as it comes first. */
    method ReplaceThenUpdate(x: QueueUnitInfo, u: UnitRecord)
      requires Valid() && x in high + low && x.created == x.unit.created == u.created
      requires u.uid == x.unit.uid && u.key == x.name
      modifies this`high, this`low, this`queueUnits, this`assumed, this`resetNextIdxFlag, this`blockedQuota, x
      ensures Valid()
    {
      var before := x.unit;
      ReplaceQueued(x, u);
      PendingUpdateRepairs(x, before, u, false);
      Update(before, u, false);
    }

    method ReplaceQueued(x: QueueUnitInfo, u: UnitRecord)
      requires Valid() && x in high + low && x.created == x.unit.created == u.created && u.uid == x.unit.uid && u.key == x.name
      modifies x
      ensures x.unit == u && QueueBut(x, old(x.unit)) && Pending(old(x.unit), u) && old(x.unit).key == x.name
      ensures u.key in queueUnits && queueUnits[u.key] == x
    {
      ghost var was := x.unit;
      ValidIff();
      OwnKey(x);
      ReplaceUnit(x, u);
      StillPending(x, was, u);
    }

    lemma OwnKey(x: QueueUnitInfo)
      requires Members() && x in high + low
      ensures x.unit.key == x.name
    {}

    lemma StillPending(x: QueueUnitInfo, was: UnitRecord, u: UnitRecord)
      requires Members() && x in high + low && x.unit == u && was.uid == u.uid && was.key == u.key == x.name
      requires was.created == u.created == x.created
      ensures Pending(was, u) && u.key in queueUnits && queueUnits[u.key] == x
    {
      SameObjects(high + low, queueUnits);
      OwnUid(high + low, queueUnits, x);
    }

    /** A single high unit gets a record of low priority. */
    ghost predicate Sinks(x: QueueUnitInfo, u: UnitRecord)
      reads this`high, this`low, this`queueUnits, this`priorityThreshold, high, low, x
    {
      && Valid() && high == [x] && low == [] && x.created == x.unit.created == u.created
      && u.uid == x.unit.uid && u.key == x.name && Priority(u) < priorityThreshold
    }

    /** A delete that comes before the update searches the other half and leaves the unit. */
    method ReplaceThenDelete(x: QueueUnitInfo, u: UnitRecord)
      requires Sinks(x, u)
      modifies this`high, this`low, this`queueUnits, this`assumed, this`updating, this`blockedQuota, this`resetNextIdxFlag, x
      ensures !Members() && high == [x] && x.name !in queueUnits
    {
      assert (high + low)[0] == x;
      ReplaceQueued(x, u);
      assert !FoundHalf(high, low, priorityThreshold, TargetOf(u));
      Delete(u);
    }

    /** A new threshold distributes the unit anew. Then the update misses it, and it gets a
        second place. */
    method ReplaceRedistributeUpdate(x: QueueUnitInfo, u: UnitRecord, newThreshold: int)
      requires Sinks(x, u) && Priority(u) < newThreshold <= Priority(x.unit) && newThreshold != priorityThreshold
      modifies this`high, this`low, this`queueUnits, this`priorityThreshold, this`assumed, this`resetNextIdxFlag, this`blockedQuota, x
      ensures !Members()
    {
      var before := x.unit;
      assert (high + low)[0] == x;
      ReplaceQueued(x, u);
      MembersSize(high + low, queueUnits);
      Redistributed(x, newThreshold);
      StillPending(x, before, u);
      assert !FoundHalf(high, low, priorityThreshold, RankOf(before));
      Update(before, u, false);
    }

    method Redistributed(x: QueueUnitInfo, newThreshold: int)
      requires Members() && |queueUnits| == 1 && x in high + low && Priority(x.unit) < newThreshold != priorityThreshold
      modifies this`high, this`low, this`priorityThreshold, this`resetNextIdxFlag
      ensures Members() && high == [] && low == [x] && priorityThreshold == newThreshold
    {
      MembersSize(high + low, queueUnits);
      SameObjects(high + low, queueUnits);
      assert x in queueUnits.Values by { assert queueUnits[x.name] == x; }
      UpdateThreshold(newThreshold);
      OnlyLow(x);
    }

    lemma OnlyLow(x: QueueUnitInfo)
      requires Valid() && x in queueUnits.Values && |queueUnits| == 1 && Priority(x.unit) < priorityThreshold
      ensures Members() && high == [] && low == [x]
    {
      ValidIff();
      MembersSize(high + low, queueUnits);
      InQueue(x);
      InHalf(x);
    }

    // ---------- Repair and a new threshold ----------

    function Misplaced(g: UnitRecord -> string): set<string>
      reads this`queueUnits, queueUnits.Values
    {
      MisplacedIn(queueUnits, g, name)
    }

    /** Fix: the units that another queue should hold leave the map, and the halves too as
        long as each is found by its rank when its turn comes; unlike in PriorityQueue they
        stay assumed and updating. */
    method Fix(g: UnitRecord -> string) returns (moved: seq<QueueUnitInfo>)
      requires Members()
      modifies this`high, this`low, this`queueUnits
      ensures Collected(moved, old(queueUnits)) && Names(moved) == old(Misplaced(g))
      ensures queueUnits == old(queueUnits) - old(Misplaced(g))
      ensures forall k :: k in old(queueUnits) ==> (k in queueUnits <==> old(g(queueUnits[k].unit) == name))
      ensures Members() <==> AllFoundIn(old(SlotsOf(high)), old(SlotsOf(low)), priorityThreshold, Places(moved))
      ensures old(Valid()) ==> Valid()
    {
      moved := CollectMoved(high + low, queueUnits, g, name);
      StrippedIsRest(queueUnits, {}, moved);
      RemoveAll(moved);
    }

    method RemoveAll(moved: seq<QueueUnitInfo>)
      requires Members() && Collected(moved, queueUnits)
      modifies this`high, this`low, this`queueUnits
      ensures Members() <==> AllFoundIn(old(SlotsOf(high)), old(SlotsOf(low)), priorityThreshold, Places(moved))
      ensures queueUnits == old(Stripped(queueUnits, moved)) && (old(Valid()) ==> Valid())
    {
      ghost var hs, ls, ts := SlotsOf(high), SlotsOf(low), Places(moved);
      StartFixing(ts);
      SameObjects(high + low, queueUnits);
      RemoveEach(moved, hs, ls, ts);
      EndFixing(hs, ls, ts, |queueUnits|);
      assert Places(moved) == ts;
    }

    lemma EndFixing(hs: seq<Slot<QueueUnitInfo>>, ls: seq<Slot<QueueUnitInfo>>, ts: seq<Rank>, n: int)
      requires Fixing(hs, ls, ts, |ts|, n)
      ensures Members() <==> AllFoundIn(hs, ls, priorityThreshold, ts)
    {
      assert ts[|ts|..] == [];
    }

    lemma StartFixing(ts: seq<Rank>)
      requires Members()
      ensures Fixing(SlotsOf(high), SlotsOf(low), ts, 0, |queueUnits|)
    {
      MembersSize(high + low, queueUnits);
      assert ts[0..] == ts;
    }

    /** The first `i` units have left the map, which has `n` left: the members are still the
        same exactly if each of them was found, and otherwise the halves are longer. */
    ghost predicate Fixing(hs: seq<Slot<QueueUnitInfo>>, ls: seq<Slot<QueueUnitInfo>>, ts: seq<Rank>, i: nat, n: int)
      reads this`high, this`low, this`queueUnits, this`priorityThreshold, high, low
    {
      && i <= |ts|
      && (AllFoundIn(hs, ls, priorityThreshold, ts) <==>
            Members() && AllFoundIn(SlotsOf(high), SlotsOf(low), priorityThreshold, ts[i..]))
      && |high + low| >= n && (Members() <==> |high + low| == n)
    }

    method RemoveEach(moved: seq<QueueUnitInfo>, ghost hs: seq<Slot<QueueUnitInfo>>, ghost ls: seq<Slot<QueueUnitInfo>>, ghost ts: seq<Rank>)
      requires Collected(moved, queueUnits) && Fixing(hs, ls, ts, 0, |queueUnits|) && Places(moved) == ts
      requires forall j :: 0 <= j < |moved| ==> moved[j].unit.key == moved[j].name
      modifies this`high, this`low, this`queueUnits
      ensures Fixing(hs, ls, ts, |moved|, |queueUnits|)
      ensures queueUnits == old(Stripped(queueUnits, moved)) && (old(Valid()) ==> Valid())
    {
      ghost var m, valid, n := queueUnits, Valid(), |queueUnits|;
      var i := 0;
      assert moved[..0] == [];
      while i < |moved|
        invariant i <= |moved| && Fixing(hs, ls, ts, i, n) && |queueUnits| == n
        invariant forall j :: 0 <= j < |moved| ==> moved[j].unit == old(moved[j].unit)
        invariant queueUnits == Stripped(m, moved[..i]) && (valid ==> Valid())
      {
        StrippedStep(m, {}, moved, i);
        assert moved[i].unit.key == moved[i].name;
        assert ts[i] == moved[i].Place();
        RemoveMoved(moved[i], hs, ls, ts, i, n);
        i, n := i + 1, n - 1;
      }
      assert moved[..|moved|] == moved;
    }

    method RemoveMoved(x: QueueUnitInfo, ghost hs: seq<Slot<QueueUnitInfo>>, ghost ls: seq<Slot<QueueUnitInfo>>,
                       ghost ts: seq<Rank>, ghost i: nat, ghost n: int)
      requires x.name in queueUnits && queueUnits[x.name] == x && x.unit.key == x.name
      requires i < |ts| && ts[i] == x.Place() && Fixing(hs, ls, ts, i, n) && |queueUnits| == n
      modifies this`high, this`low, this`queueUnits
      ensures Fixing(hs, ls, ts, i + 1, n - 1) && |queueUnits| == n - 1
      ensures queueUnits == old(queueUnits) - {x.name} && (old(Valid()) ==> Valid())
    {
      AllFoundStep(SlotsOf(high), SlotsOf(low), priorityThreshold, ts, i);
      RemoveOne(x);
    }

    /** One deletion of Fix, of a unit that the map still holds. */
    method RemoveOne(x: QueueUnitInfo)
      requires x.name in queueUnits && queueUnits[x.name] == x && x.unit.key == x.name
      requires |high + low| >= |queueUnits| && (Members() <==> |high + low| == |queueUnits|)
      modifies this`high, this`low, this`queueUnits
      ensures queueUnits == old(queueUnits) - {x.name} && |queueUnits| == old(|queueUnits|) - 1
      ensures (SlotsOf(high), SlotsOf(low)) == DropIn(old(SlotsOf(high)), old(SlotsOf(low)), priorityThreshold, x.Place())
      ensures |high + low| >= |queueUnits| && (Members() <==> |high + low| == |queueUnits|)
      ensures Members() <==> old(Members() && FoundHalf(high, low, priorityThreshold, x.Place()))
      ensures old(Valid()) ==> Valid()
    {
      OutSlots(high, low, priorityThreshold, x.Place());
      ghost var found, members, valid := FoundHalf(high, low, priorityThreshold, x.Place()), Members(), Valid();
      ghost var size := |high + low| - if found then 1 else 0;
      ValidIff();
      if valid {
        CachedIsHit(x.unit);
      }
      TakeOut(x.unit);
      assert |high + low| == size;
      Mismatch();
    }

    /** Halves and map of different size have different members. */
    lemma Mismatch()
      ensures |high + low| != |queueUnits| ==> !Members() && !Valid()
    {
      ValidIff();
      if Members() {
        MembersSize(high + low, queueUnits);
      }
    }

    /** The part of UpdateQueueCr about the threshold: all units are distributed anew, in the
        arbitrary order of the map. They end up where they were, and in their places even if
        they were not. */
    method UpdateThreshold(newThreshold: int)
      requires Members()
      modifies this`high, this`low, this`priorityThreshold, this`resetNextIdxFlag
      ensures Members() && priorityThreshold == newThreshold
      ensures Valid() <==> old(Valid()) || newThreshold != old(priorityThreshold)
      ensures old(Valid()) ==> high + low == old(high + low)
      ensures resetNextIdxFlag == (old(resetNextIdxFlag) || newThreshold != old(priorityThreshold))
    {
      if newThreshold == priorityThreshold {
        return;
      }
      DistributeAnew(newThreshold);
    }

    method DistributeAnew(newThreshold: int)
      requires Members()
      modifies this`high, this`low, this`priorityThreshold, this`resetNextIdxFlag
      ensures Members() && Valid() && priorityThreshold == newThreshold && resetNextIdxFlag
      ensures old(Valid()) ==> high + low == old(high + low)
    {
      ghost var h, l, t, valid := high, low, priorityThreshold, Valid();
      SetThreshold(newThreshold);
      assert valid ==> Halves(h, l, queueUnits, t);
      Redistribute(h + l);
      assert valid ==> Halves(h, l, queueUnits, t);
      ValidIff();
      if valid {
        ThresholdDoesNotMatter(h, l, t, high, low, newThreshold, queueUnits);
      }
    }

    method SetThreshold(newThreshold: int)
      modifies this`priorityThreshold, this`resetNextIdxFlag
      ensures priorityThreshold == newThreshold && resetNextIdxFlag
    {
      priorityThreshold, resetNextIdxFlag := newThreshold, true;
    }

    method Redistribute(ghost q: seq<QueueUnitInfo>)
      requires SameMembers(q, queueUnits)
      modifies this`high, this`low
      ensures Valid()
    {
      high, low := [], [];
      var todo := queueUnits.Keys;
      ghost var done: map<string, QueueUnitInfo> := map[];
      while todo != {}
        invariant todo <= queueUnits.Keys
        invariant done.Keys == queueUnits.Keys - todo && Within(done, queueUnits)
        invariant Halves(high, low, done, priorityThreshold)
      {
        var k :| k in todo;
        DistributeOne(q, k, done);
        done := done[k := queueUnits[k]];
        todo := todo - {k};
      }
      assert done == queueUnits;
    }

    method DistributeOne(ghost q: seq<QueueUnitInfo>, k: string, ghost done: map<string, QueueUnitInfo>)
      requires SameMembers(q, queueUnits) && k in queueUnits && k !in done
      requires Within(done, queueUnits) && Halves(high, low, done, priorityThreshold)
      modifies this`high, this`low
      ensures Halves(high, low, done[k := queueUnits[k]], priorityThreshold)
    {
      var x := queueUnits[k];
      QueueIff(high + low, done);
      NewToSome(q, queueUnits, high + low, done, k);
      IntoKeeps(high, low, done, priorityThreshold, x);
      var index := DistributeToQueue(x, done[k := x]);
    }

    // ---------- The scan ----------

    /** Neither satisfied nor deactivated. */
    predicate Open(x: QueueUnitInfo)
      reads x
    {
      !IsSatisfied(x.unit) && (activeFeature ==> IsActive(x.unit))
    }

    lemma OpenIff(x: QueueUnitInfo)
      requires x.unit.podSets != [] && UniquePodSets(x.unit.podSets) && UniqueNames(x.unit.admissions)
      ensures Open(x) <==>
        && !(activeFeature && x.unit.active == Some(false))
        && exists i :: 0 <= i < |x.unit.podSets| && !Admits(x.unit.admissions, x.unit.podSets[i])
      ensures Blocked(x) <==> quotaOf(x.unit).Some? && quotaOf(x.unit).value in blockedQuota
    {
      SatisfiedIff(x.unit);
    }

    predicate Blocked(x: QueueUnitInfo)
      reads this`blockedQuota, x
    {
      !(QuotaSet(x.unit) !! blockedQuota)
    }

    /** The scan of the high half looks at no unit from this position on. */
    function HighDepth(): (d: nat)
      reads this`high, this`maxDepth
      ensures d <= |high| && (maxDepth > 0 ==> d <= maxDepth) && (d == |high| || d == maxDepth)
    {
      if maxDepth > 0 then Min(|high|, maxDepth) else |high|
    }

    /** A high unit keeps the low half waiting: it is open, or lies beyond the depth. */
    ghost predicate HoldsLow(start: nat)
      reads this`high, this`maxDepth, high
    {
      (exists j :: start <= j < HighDepth() && Open(high[j])) || (maxDepth > 0 && Max(start, HighDepth()) >= maxDepth)
    }

    /** The first loop of findNextQueueUnit. */
    method ScanHigh() returns (found: Option<QueueUnitInfo>, available: nat)
      modifies this`highNextIdx
      ensures old(highNextIdx) <= highNextIdx
      ensures forall j :: old(highNextIdx) <= j < highNextIdx && j < |high| ==> !Open(high[j]) || Blocked(high[j])
      ensures match found
              case Some(x) => highNextIdx < HighDepth() && x == high[highNextIdx] && Open(x) && !Blocked(x)
              case None => highNextIdx == Max(old(highNextIdx), HighDepth())
      ensures available > 0 <==> exists j :: old(highNextIdx) <= j < HighDepth() && j <= highNextIdx && Open(high[j])
    {
      available := 0;
      while highNextIdx < |high| && (maxDepth <= 0 || highNextIdx < maxDepth)
        invariant old(highNextIdx) <= highNextIdx <= Max(old(highNextIdx), HighDepth())
        invariant forall j :: old(highNextIdx) <= j < highNextIdx && j < |high| ==> !Open(high[j]) || Blocked(high[j])
        invariant available > 0 <==> exists j :: old(highNextIdx) <= j < highNextIdx && j < HighDepth() && Open(high[j])
        decreases |high| - highNextIdx
      {
        var x := high[highNextIdx];
        if IsSatisfied(x.unit) {
          highNextIdx := highNextIdx + 1;
          continue;
        }
        if activeFeature && !IsActive(x.unit) {
          highNextIdx := highNextIdx + 1;
          continue;
        }
        assert Open(high[highNextIdx]);
        available := available + 1;
        if quotaOf(x.unit).Some? && quotaOf(x.unit).value in blockedQuota {
          highNextIdx := highNextIdx + 1;
          continue;
        }
        return Some(x), available;
      }
      return None, available;
    }

    /** The second loop: blocked quotas are not looked at. */
    method ScanLow() returns (found: Option<QueueUnitInfo>)
      modifies this`lowNextIdx
      ensures old(lowNextIdx) <= lowNextIdx
      ensures forall j :: old(lowNextIdx) <= j < lowNextIdx && j < |low| ==> !Open(low[j])
      ensures match found
              case Some(x) => lowNextIdx < |low| && x == low[lowNextIdx] && Open(x) &&
                              (maxDepth > 0 ==> highNextIdx + lowNextIdx < maxDepth)
              case None => |low| <= lowNextIdx || (maxDepth > 0 && maxDepth <= highNextIdx + lowNextIdx)
    {
      while lowNextIdx < |low| && (maxDepth <= 0 || highNextIdx + lowNextIdx < maxDepth)
        invariant old(lowNextIdx) <= lowNextIdx
        invariant forall j :: old(lowNextIdx) <= j < lowNextIdx && j < |low| ==> !Open(low[j])
        decreases |low| - lowNextIdx
      {
        var x := low[lowNextIdx];
        if IsSatisfied(x.unit) {
          lowNextIdx := lowNextIdx + 1;
          continue;
        }
        if activeFeature && !IsActive(x.unit) {
          lowNextIdx := lowNextIdx + 1;
          continue;
        }
        return Some(x);
      }
      return None;
    }

    /** findNextQueueUnit: a low unit is handed out only when no high unit from the
        cursor on is open or out of reach, blocked ones included. */
    method FindNextQueueUnit() returns (found: Option<QueueUnitInfo>, index: int, fromHigh: bool)
      modifies this`highNextIdx, this`lowNextIdx
      ensures (found.Some? <==> index >= 0) && index >= -2
      ensures old(highNextIdx) <= highNextIdx && old(lowNextIdx) <= lowNextIdx
      ensures fromHigh || index == -1 ==> lowNextIdx == old(lowNextIdx)
      ensures !fromHigh ==> highNextIdx == Max(old(highNextIdx), HighDepth())
      ensures fromHigh ==> found.Some? && index == highNextIdx < HighDepth() && found.value == high[index]
      ensures fromHigh ==> Open(high[index]) && !Blocked(high[index])
      ensures fromHigh ==> forall j :: old(highNextIdx) <= j < index ==> !Open(high[j]) || Blocked(high[j])
      ensures !fromHigh ==> forall j :: old(highNextIdx) <= j < HighDepth() ==> !Open(high[j]) || Blocked(high[j])
      ensures index == -1 ==> HoldsLow(old(highNextIdx))
      ensures (index >= 0 && !fromHigh) || index == -2 ==> !HoldsLow(old(highNextIdx))
      ensures index >= 0 && !fromHigh ==> lowNextIdx < |low| && found.value == low[lowNextIdx] && Open(low[lowNextIdx])
      ensures index >= 0 && !fromHigh ==> index == highNextIdx + lowNextIdx && (maxDepth > 0 ==> index < maxDepth)
      ensures index == -2 ==> |low| <= lowNextIdx || (maxDepth > 0 && maxDepth <= highNextIdx + lowNextIdx)
      ensures (index >= 0 && !fromHigh) || index == -2 ==>
                forall j :: old(lowNextIdx) <= j < lowNextIdx && j < |low| ==> !Open(low[j])
    {
      var x, available := ScanHigh();
      if x.Some? {
        return x, highNextIdx, true;
      }
      if available > 0 || (maxDepth > 0 && highNextIdx >= maxDepth) {
        return None, -1, false;
      }
      found := ScanLow();
      if found.Some? {
        return found, highNextIdx + lowNextIdx, false;
      }
      return None, -2, false;
    }

    // ---------- A low unit before an open high one ----------

    ghost predicate HighOpen()
      reads this`high, high
    {
      exists j :: 0 <= j < |high| && Open(high[j])
    }

    /** An open high unit that a scan from this position does not look at. */
    ghost predicate OpenBehind(start: nat)
      reads this`high, high
    {
      exists j :: 0 <= j < start && j < |high| && Open(high[j])
    }

    function Start(): nat
      reads this`highNextIdx, this`resetNextIdxFlag
    {
      if resetNextIdxFlag then 0 else highNextIdx
    }

    function LowStart(): nat
      reads this`lowNextIdx, this`resetNextIdxFlag
    {
      if resetNextIdxFlag then 0 else lowNextIdx
    }

    lemma LowDespiteHigh(start: nat)
      requires !HoldsLow(start)
      ensures HighOpen() <==> OpenBehind(start)
    {
      if HighOpen() {
        var j :| 0 <= j < |high| && Open(high[j]);
        assert j < HighDepth();
      }
    }

    /** One turn of the loop in Next, waiting aside; `idle` is the condition under which all
        quotas are unblocked. A low unit is handed out in spite of an open high one exactly
        if that one lies before the cursor. */
    method TryNext(idle: bool) returns (found: Option<QueueUnitInfo>, fromHigh: bool)
      modifies this`highNextIdx, this`lowNextIdx, this`resetNextIdxFlag, this`blockedQuota
      ensures resetNextIdxFlag <==> found.None?
      ensures found.Some? ==> blockedQuota == old(blockedQuota)
      ensures found.None? ==> !fromHigh && blockedQuota == if idle then {} else old(blockedQuota)
      ensures found.Some? && fromHigh ==> old(Start()) <= highNextIdx < HighDepth() && found.value == high[highNextIdx]
      ensures found.Some? && fromHigh ==> Open(found.value) && !old(Blocked(found.value))
      ensures fromHigh ==> lowNextIdx == old(LowStart())
      ensures forall j :: old(Start()) <= j < HighDepth() && (!fromHigh || j < highNextIdx) ==>
                !Open(high[j]) || old(Blocked(high[j]))
      ensures found.Some? && !fromHigh ==>
                && old(LowStart()) <= lowNextIdx < |low|
                && found.value == low[lowNextIdx] && Open(found.value)
      ensures found.Some? && !fromHigh ==>
                !HoldsLow(old(Start())) && (maxDepth > 0 ==> highNextIdx + lowNextIdx < maxDepth)
      ensures !fromHigh ==> highNextIdx == Max(old(Start()), HighDepth())
      ensures !fromHigh && !HoldsLow(old(Start())) ==>
                && (forall j :: old(LowStart()) <= j < lowNextIdx && j < |low| ==> !Open(low[j]))
                && (found.None? ==> |low| <= lowNextIdx || (maxDepth > 0 && maxDepth <= highNextIdx + lowNextIdx))
      ensures found.Some? && !fromHigh ==> (HighOpen() <==> OpenBehind(old(Start())))
    {
      Rewind();
      ghost var start := highNextIdx;
      var index;
      found, index, fromHigh := FindNextQueueUnit();
      if found.None? {
        GiveUp(idle);
      } else if !fromHigh {
        LowDespiteHigh(start);
      }
    }

    method Rewind()
      modifies this`highNextIdx, this`lowNextIdx, this`resetNextIdxFlag
      ensures highNextIdx == old(Start()) && lowNextIdx == old(LowStart())
      ensures !resetNextIdxFlag
    {
      if resetNextIdxFlag {
        highNextIdx, lowNextIdx, resetNextIdxFlag := 0, 0, false;
      }
    }

    method GiveUp(idle: bool)
      modifies this`resetNextIdxFlag, this`blockedQuota
      ensures resetNextIdxFlag && blockedQuota == if idle then {} else old(blockedQuota)
    {
      resetNextIdxFlag := true;
      if idle && blockedQuota != {} {
        blockedQuota := {};
      }
    }

    /** Two of three replicas of a high unit, one of them running, after two were asked for:
        the update that raises the count does not have the cursors reset. */
    lemma GrownCountIsSilent(u: UnitRecord, samePointer: bool)
      requires u.podSets == [PodSet("w", 2, map[])] && u.admissions == [Admission("w", 2, 1, map[], None)]
      requires u.phase !in {Succeed, Failed}
      ensures var v := u.(podSets := [PodSet("w", 3, map[])]);
              && IsSatisfied(u) && !IsSatisfied(v) && !IsDequeued(v)
              && !Skips(u, v, samePointer) && !Rewinds(u, v) && !ActivationChanged(u, v)
    {
      var v := u.(podSets := [PodSet("w", 3, map[])]);
      OnePodSet(u, PodSet("w", 2, map[]));
      OnePodSet(v, PodSet("w", 3, map[]));
      OneAdmission(u, Admission("w", 2, 1, map[], None));
      assert "w" in Requirements(v);
      assert u.podSets[..0] == v.podSets[..0] == [] && PodSetCounts(u.podSets[..0]) == map[];
      assert "w" in PodSetCounts(u.podSets);
      assert u.admissions[0].running < u.admissions[0].replicas;
    }

    lemma InHalf(x: QueueUnitInfo)
      requires Valid() && x in high + low
      ensures if Priority(x.unit) >= priorityThreshold then x in high else x in low
    {}

    /** One high and one low unit lie in the halves, each on its own. */
    lemma OneEach(k: string, l: QueueUnitInfo)
      requires Valid() && k != l.name && queueUnits.Keys == {k, l.name} && queueUnits[l.name] == l
      requires Priority(l.unit) < priorityThreshold <= Priority(queueUnits[k].unit)
      ensures high == [queueUnits[k]] && low == [l]
    {
      Alone(queueUnits[k], l);
    }

    lemma Alone(x: QueueUnitInfo, l: QueueUnitInfo)
      requires Valid() && x in queueUnits.Values && l in queueUnits.Values && |queueUnits| == 2
      requires Priority(l.unit) < priorityThreshold <= Priority(x.unit)
      ensures high == [x] && low == [l]
    {
      ValidIff();
      MembersSize(high + low, queueUnits);
      InQueue(x);
      InQueue(l);
      InHalf(x);
      InHalf(l);
    }

    lemma InQueue(x: QueueUnitInfo)
      requires Members() && x in queueUnits.Values
      ensures x in high + low
    {
      SameObjects(high + low, queueUnits);
    }

    /** The run: that high unit has been passed, its count grows, and the low unit is
        handed out in spite of it. */
    method GrownUnitIsMissed(x: QueueUnitInfo, l: QueueUnitInfo) returns (found: Option<QueueUnitInfo>, fromHigh: bool)
      requires Valid() && high == [x] && low == [l] && highNextIdx == 1 && lowNextIdx == 0 && !resetNextIdxFlag && maxDepth <= 0
      requires x.unit.podSets == [PodSet("w", 2, map[])] && x.unit.admissions == [Admission("w", 2, 1, map[], None)]
      requires x.unit.phase !in {Succeed, Failed} && IsActive(x.unit) && x.created == x.unit.created && Open(l)
      modifies this, x
      ensures found == Some(l) && !fromHigh && HighOpen()
    {
      GrowUnit(x, l);
      assert Open(high[0]) && Open(low[0]) && !HoldsLow(1);
      found, fromHigh := TryNext(false);
    }

    method GrowUnit(x: QueueUnitInfo, l: QueueUnitInfo)
      requires Valid() && high == [x] && low == [l] && !resetNextIdxFlag
      requires x.unit.podSets == [PodSet("w", 2, map[])] && x.unit.admissions == [Admission("w", 2, 1, map[], None)]
      requires x.unit.phase !in {Succeed, Failed} && IsActive(x.unit) && x.created == x.unit.created
      modifies this`high, this`low, this`queueUnits, this`assumed, this`resetNextIdxFlag, this`blockedQuota, x
      ensures |high| == 1 && Open(high[0]) && low == [l] && !resetNextIdxFlag && l.unit == old(l.unit)
    {
      var v := x.unit.(podSets := [PodSet("w", 3, map[])]);
      GrowthIsKept(x, l, v);
      MoveQuietly(x.unit, v);
      OneEach(v.key, l);
    }

    method MoveQuietly(u: UnitRecord, v: UnitRecord)
      requires Valid() && Pending(u, v) && UpdateFinds(u, v, true) && UpdateFits(u, v, true) && !Skips(u, v, true) && !IsDequeued(v)
      requires !Rewinds(u, v) && !ActivationChanged(u, v)
      modifies this`high, this`low, this`queueUnits, this`assumed, this`resetNextIdxFlag, this`blockedQuota
      modifies if v.key in queueUnits then {queueUnits[v.key]} else {}
      ensures Valid() && resetNextIdxFlag == old(resetNextIdxFlag)
      ensures v.key in queueUnits && queueUnits[v.key].unit == v && queueUnits[v.key].created == v.created && queueUnits == old(queueUnits)[v.key := queueUnits[v.key]]
    {
      Update(u, v, true);
    }

    lemma GrowthIsKept(x: QueueUnitInfo, l: QueueUnitInfo, v: UnitRecord)
      requires Valid() && high == [x] && low == [l] && x.created == x.unit.created
      requires x.unit.podSets == [PodSet("w", 2, map[])] && x.unit.admissions == [Admission("w", 2, 1, map[], None)]
      requires x.unit.phase !in {Succeed, Failed} && v == x.unit.(podSets := [PodSet("w", 3, map[])])
      ensures Pending(x.unit, v) && UpdateFinds(x.unit, v, true) && UpdateFits(x.unit, v, true) && !Skips(x.unit, v, true) && !IsDequeued(v)
      ensures !Rewinds(x.unit, v) && !ActivationChanged(x.unit, v) && !IsSatisfied(v)
      ensures v.key in queueUnits && queueUnits[v.key] == x && x != l && v.key != l.name
      ensures queueUnits.Keys == {v.key, l.name} && queueUnits[l.name] == l
      ensures Priority(l.unit) < priorityThreshold <= Priority(v)
    {
      GrownCountIsSilent(x.unit, true);
      TwoUnits(x, l);
      assert (high + low)[0] == x;
      QueuedOwn(x);
      CurrentUpdateKeeps(x.unit, v, true);
      assert Priority(high[0].unit) >= priorityThreshold && Priority(low[0].unit) < priorityThreshold;
    }

    lemma TwoUnits(x: QueueUnitInfo, l: QueueUnitInfo)
      requires Valid() && high == [x] && low == [l]
      ensures x.name != l.name && queueUnits == map[x.name := x, l.name := l]
    {
      ValidIff();
      SameObjects(high + low, queueUnits);
      assert high + low == [x, l];
      Distinct(0, 1);
    }

    /** The run: the scan passes an open unit whose quota is blocked and hands out the next
        one. An admission satisfies that one, and the low unit is handed out in spite of the
        blocked one. */
    method BlockedUnitIsPassed(x: QueueUnitInfo, y: QueueUnitInfo, l: QueueUnitInfo)
      returns (first: Option<QueueUnitInfo>, next: Option<QueueUnitInfo>, fromHigh: bool)
      requires Valid() && high == [x, y] && low == [l] && resetNextIdxFlag && maxDepth <= 0
      requires Open(x) && Blocked(x) && !Blocked(y) && Open(l) && IsActive(y.unit) && y.created == y.unit.created
      requires y.unit.podSets == [PodSet("w", 2, map[])] && y.unit.admissions == [Admission("w", 1, 0, map[], None)]
      requires y.unit.phase !in {Succeed, Failed}
      modifies this, y
      ensures first == Some(y) && next == Some(l) && !fromHigh && HighOpen()
    {
      HalfAdmitted(y.unit);
      first := PassBlocked(x, y);
      assert Valid();
      next, fromHigh := RestThenLow(x, y, l);
    }

    method RestThenLow(x: QueueUnitInfo, y: QueueUnitInfo, l: QueueUnitInfo) returns (next: Option<QueueUnitInfo>, fromHigh: bool)
      requires Valid() && high == [x, y] && low == [l] && !resetNextIdxFlag && y.created == y.unit.created
      requires y.unit.podSets == [PodSet("w", 2, map[])] && y.unit.admissions == [Admission("w", 1, 0, map[], None)]
      requires y.unit.phase !in {Succeed, Failed} && highNextIdx == 1 && lowNextIdx == 0 && maxDepth <= 0 && Open(x) && Open(l)
      modifies this, y
      ensures next == Some(l) && !fromHigh && HighOpen()
    {
      GetsTheRest(x, y, l);
      next, fromHigh := HandsOutLow(x, l);
    }

    method PassBlocked(x: QueueUnitInfo, y: QueueUnitInfo) returns (found: Option<QueueUnitInfo>)
      requires high == [x, y] && resetNextIdxFlag && maxDepth <= 0 && Blocked(x) && Open(y) && !Blocked(y)
      modifies this`highNextIdx, this`lowNextIdx, this`resetNextIdxFlag, this`blockedQuota
      ensures found == Some(y) && highNextIdx == 1 && lowNextIdx == 0 && !resetNextIdxFlag
    {
      var fromHigh;
      assert high[0] == x && high[1] == y;
      found, fromHigh := TryNext(false);
    }

    method HandsOutLow(x: QueueUnitInfo, l: QueueUnitInfo) returns (found: Option<QueueUnitInfo>, fromHigh: bool)
      requires |high| == 2 && high[0] == x && Open(x) && IsSatisfied(high[1].unit) && low == [l] && Open(l)
      requires highNextIdx == 1 && lowNextIdx == 0 && !resetNextIdxFlag && maxDepth <= 0
      modifies this`highNextIdx, this`lowNextIdx, this`resetNextIdxFlag, this`blockedQuota
      ensures found == Some(l) && !fromHigh && HighOpen()
    {
      assert !Open(high[1]) && Open(low[0]) && !HoldsLow(1);
      found, fromHigh := TryNext(false);
      assert Open(high[0]);
    }

    lemma HalfAdmitted(u: UnitRecord)
      requires u.podSets == [PodSet("w", 2, map[])] && u.admissions == [Admission("w", 1, 0, map[], None)]
      requires u.phase !in {Succeed, Failed}
      ensures var v := u.(admissions := [Admission("w", 2, 0, map[], None)]);
              && !IsSatisfied(u) && IsSatisfied(v) && !IsDequeued(v)
              && !Skips(u, v, true) && !Rewinds(u, v) && !ActivationChanged(u, v)
    {
      var v := u.(admissions := [Admission("w", 2, 0, map[], None)]);
      OnePodSet(u, PodSet("w", 2, map[]));
      OnePodSet(v, PodSet("w", 2, map[]));
      OneAdmission(u, Admission("w", 1, 0, map[], None));
      OneAdmission(v, Admission("w", 2, 0, map[], None));
      assert "w" in Requirements(u);
      assert v.admissions[0].running < v.admissions[0].replicas;
      assert !P.LastHas(u.admissions, v.admissions[0].name, v.admissions[0].running, v.admissions[0].replicas);
    }

    method GetsTheRest(x: QueueUnitInfo, y: QueueUnitInfo, l: QueueUnitInfo)
      requires Valid() && high == [x, y] && low == [l] && !resetNextIdxFlag && y.created == y.unit.created
      requires y.unit.podSets == [PodSet("w", 2, map[])] && y.unit.admissions == [Admission("w", 1, 0, map[], None)]
      requires y.unit.phase !in {Succeed, Failed}
      modifies this`high, this`low, this`queueUnits, this`assumed, this`resetNextIdxFlag, this`blockedQuota, y
      ensures |high| == 2 && high[0] == x && IsSatisfied(high[1].unit) && low == [l] && !resetNextIdxFlag
      ensures x.unit == old(x.unit) && l.unit == old(l.unit)
    {
      var v := y.unit.(admissions := [Admission("w", 2, 0, map[], None)]);
      TakesRest(x, y, l, v);
      TwoHigh(x, v.key, l);
    }

    method TakesRest(x: QueueUnitInfo, y: QueueUnitInfo, l: QueueUnitInfo, v: UnitRecord)
      requires Valid() && high == [x, y] && low == [l] && !resetNextIdxFlag && y.created == y.unit.created
      requires y.unit.podSets == [PodSet("w", 2, map[])] && y.unit.admissions == [Admission("w", 1, 0, map[], None)]
      requires y.unit.phase !in {Succeed, Failed} && v == y.unit.(admissions := [Admission("w", 2, 0, map[], None)])
      modifies this`high, this`low, this`queueUnits, this`assumed, this`resetNextIdxFlag, this`blockedQuota, y
      ensures Valid() && !resetNextIdxFlag && x.unit == old(x.unit) && l.unit == old(l.unit)
      ensures x.name != v.key && l.name != v.key && x.name != l.name && queueUnits.Keys == {x.name, v.key, l.name}
      ensures queueUnits[x.name] == x && queueUnits[l.name] == l && Less(x.Place(), RankOf(v)) < 0 && x.unit.uid != v.uid
      ensures queueUnits[v.key].unit == v && queueUnits[v.key].created == v.created && IsSatisfied(v)
      ensures Priority(l.unit) < priorityThreshold <= Priority(v) && Priority(x.unit) >= priorityThreshold
    {
      RestIsKept(x, y, l, v);
      MoveQuietly(y.unit, v);
    }

    lemma RestIsKept(x: QueueUnitInfo, y: QueueUnitInfo, l: QueueUnitInfo, v: UnitRecord)
      requires Valid() && high == [x, y] && low == [l] && y.created == y.unit.created
      requires y.unit.podSets == [PodSet("w", 2, map[])] && y.unit.admissions == [Admission("w", 1, 0, map[], None)]
      requires y.unit.phase !in {Succeed, Failed} && v == y.unit.(admissions := [Admission("w", 2, 0, map[], None)])
      ensures Pending(y.unit, v) && UpdateFinds(y.unit, v, true) && UpdateFits(y.unit, v, true) && !Skips(y.unit, v, true)
      ensures !IsDequeued(v) && !Rewinds(y.unit, v) && !ActivationChanged(y.unit, v) && IsSatisfied(v)
      ensures v.key in queueUnits && queueUnits[v.key] == y && x != y && l != y
      ensures x.name != v.key && l.name != v.key && x.name != l.name
      ensures queueUnits.Keys == {x.name, v.key, l.name} && queueUnits[x.name] == x && queueUnits[l.name] == l
      ensures Priority(l.unit) < priorityThreshold <= Priority(v) && Priority(x.unit) >= priorityThreshold
      ensures Less(x.Place(), RankOf(v)) < 0
    {
      ValidIff();
      ThreeUnits(x, y, l);
      HalfAdmitted(y.unit);
      assert (high + low)[1] == y && (high + low)[0] == x;
      QueuedOwn(y);
      CurrentUpdateKeeps(y.unit, v, true);
      assert Priority(high[0].unit) >= priorityThreshold;
      assert Less(Ranks(SlotsOf(high + low))[0], Ranks(SlotsOf(high + low))[1]) < 0;
    }

    /** Two high units and a low one, the high ones in the order of their ranks. */
    lemma TwoHigh(x: QueueUnitInfo, k: string, l: QueueUnitInfo)
      requires Valid() && x.name != k && l.name != k && x.name != l.name && queueUnits.Keys == {x.name, k, l.name}
      requires queueUnits[x.name] == x && queueUnits[l.name] == l && Less(x.Place(), RankOf(queueUnits[k].unit)) < 0
      requires queueUnits[k].unit.key == k && queueUnits[k].unit.created == queueUnits[k].created
      requires Priority(l.unit) < priorityThreshold <= Priority(queueUnits[k].unit) && Priority(x.unit) >= priorityThreshold
      requires x.unit.uid != queueUnits[k].unit.uid
      ensures high == [x, queueUnits[k]] && low == [l]
    {
      var y := queueUnits[k];
      ValidIff();
      SameObjects(high + low, queueUnits);
      MembersSize(high + low, queueUnits);
      assert |queueUnits| == 3;
      InHalf(x);
      InHalf(y);
      InHalf(l);
      SidesOfThree(x, y, l);
      HighOrder();
      assert y.Place() == RankOf(y.unit);
      LessAsymmetric(x.Place(), y.Place());
    }

    lemma SidesOfThree(x: QueueUnitInfo, y: QueueUnitInfo, l: QueueUnitInfo)
      requires x in high && y in high && l in low && x != y && |high + low| == 3
      ensures |high| == 2 && low == [l] && (high == [x, y] || high == [y, x])
    {
      var i :| 0 <= i < |high| && high[i] == x;
      var j :| 0 <= j < |high| && high[j] == y;
      assert |high| == 2 && |low| == 1;
    }

    lemma HighOrder()
      requires Valid() && |high| == 2
      ensures Less(high[0].Place(), high[1].Place()) < 0
    {
      assert Less(Ranks(SlotsOf(high + low))[0], Ranks(SlotsOf(high + low))[1]) < 0;
    }

    lemma LessAsymmetric(a: Rank, b: Rank)
      requires Less(a, b) < 0
      ensures Less(b, a) > 0
    {
      LexAsymmetric(a.name, b.name);
    }

    ghost predicate OpenBefore(q: seq<QueueUnitInfo>, c: nat)
      reads q
    {
      exists j :: 0 <= j < c && j < |q| && Open(q[j])
    }

    /** A unit that leaves from before the cursor puts the one at the cursor behind it;
        nothing else gets there. */
    lemma RemovalBehind(q: seq<QueueUnitInfo>, k: nat, c: nat)
      requires k < |q|
      ensures OpenBefore(RemoveAt(q, k), c) <==>
              exists j :: 0 <= j < |q| && j != k && Open(q[j]) && (j < c || (j == c && k < c))
    {
      var r := RemoveAt(q, k);
      if OpenBefore(r, c) {
        var j :| 0 <= j < c && j < |r| && Open(r[j]);
        assert r[j] == q[if j < k then j else j + 1];
      }
      if j :| 0 <= j < |q| && j != k && Open(q[j]) && (j < c || (j == c && k < c)) {
        assert r[if j < k then j else j - 1] == q[j];
      }
    }

    /** A unit that enters gets behind the cursor only itself. */
    lemma InsertionBehind(q: seq<QueueUnitInfo>, k: nat, x: QueueUnitInfo, c: nat)
      requires k <= |q|
      ensures OpenBefore(InsertAt(q, k, x), c) <==>
              (k < c && Open(x)) || exists j :: 0 <= j < |q| && Open(q[j]) && (j + 1 < c || (j + 1 == c && j < k))
    {
      var r := InsertAt(q, k, x);
      if OpenBefore(r, c) {
        var j :| 0 <= j < c && j < |r| && Open(r[j]);
        assert r[j] == if j < k then q[j] else if j == k then x else q[j - 1];
      }
      assert r[k] == x;
      if j :| 0 <= j < |q| && Open(q[j]) && (j + 1 < c || (j + 1 == c && j < k)) {
        assert r[if j < k then j else j + 1] == q[j];
      }
    }

    /** The run: the high unit before the cursor succeeds, the one at the cursor moves
        behind it, and the low unit is handed out in spite of that one. */
    method LeavingUnitHidesNext(x: QueueUnitInfo, y: QueueUnitInfo, l: QueueUnitInfo)
      returns (found: Option<QueueUnitInfo>, fromHigh: bool)
      requires Valid() && high == [x, y] && low == [l] && highNextIdx == 1 && lowNextIdx == 0 && !resetNextIdxFlag && maxDepth <= 0
      requires x.unit.phase != Succeed && x.unit.key !in assumed && x.created == x.unit.created && Open(y) && Open(l)
      modifies this, x
      ensures found == Some(l) && !fromHigh && HighOpen()
    {
      Succeeds(x, y, l);
      assert Open(high[0]) && Open(low[0]) && !HoldsLow(1);
      found, fromHigh := TryNext(false);
    }

    method Succeeds(x: QueueUnitInfo, y: QueueUnitInfo, l: QueueUnitInfo)
      requires Valid() && high == [x, y] && low == [l] && !resetNextIdxFlag
      requires x.unit.phase != Succeed && x.unit.key !in assumed && x.created == x.unit.created
      modifies this`high, this`low, this`queueUnits, this`assumed, this`resetNextIdxFlag, this`blockedQuota, x
      ensures high == [y] && low == [l] && !resetNextIdxFlag && y.unit == old(y.unit) && l.unit == old(l.unit)
    {
      var v := x.unit.(phase := Succeed);
      SuccessIsKept(x, y, l, v);
      LeaveQuietly(x.unit, v);
      assert queueUnits[y.name] == y;
      OneEach(y.name, l);
    }

    method LeaveQuietly(u: UnitRecord, v: UnitRecord)
      requires Valid() && Pending(u, v) && UpdateFinds(u, v, true) && UpdateFits(u, v, true) && !Skips(u, v, true) && IsDequeued(v)
      requires !ActivationChanged(u, v) && v.key !in assumed
      modifies this`high, this`low, this`queueUnits, this`assumed, this`resetNextIdxFlag, this`blockedQuota
      modifies if v.key in queueUnits then {queueUnits[v.key]} else {}
      ensures Valid() && resetNextIdxFlag == old(resetNextIdxFlag) && queueUnits == old(queueUnits) - {v.key}
    {
      Update(u, v, true);
    }

    lemma SuccessIsKept(x: QueueUnitInfo, y: QueueUnitInfo, l: QueueUnitInfo, v: UnitRecord)
      requires Valid() && high == [x, y] && low == [l] && x.created == x.unit.created
      requires x.unit.phase != Succeed && v == x.unit.(phase := Succeed)
      ensures Pending(x.unit, v) && UpdateFinds(x.unit, v, true) && UpdateFits(x.unit, v, true)
      ensures v.key in queueUnits && queueUnits[v.key] == x
      ensures y.name != l.name && queueUnits - {v.key} == map[y.name := y, l.name := l]
      ensures y != x && l != x && Priority(l.unit) < priorityThreshold <= Priority(y.unit)
    {
      ValidIff();
      ThreeUnits(x, y, l);
      assert (high + low)[0] == x;
      QueuedOwn(x);
      CurrentUpdateKeeps(x.unit, v, true);
    }

    lemma ThreeUnits(x: QueueUnitInfo, y: QueueUnitInfo, l: QueueUnitInfo)
      requires Valid() && high == [x, y] && low == [l]
      ensures x.name != y.name && x.name != l.name && y.name != l.name
      ensures queueUnits == map[x.name := x, y.name := y, l.name := l]
      ensures Priority(l.unit) < priorityThreshold <= Priority(y.unit)
    {
      ValidIff();
      assert high + low == [x, y, l];
      Distinct(0, 1);
      Distinct(0, 2);
      Distinct(1, 2);
      MapOfThree(x, y, l);
      assert Priority(high[1].unit) >= priorityThreshold && Priority(low[0].unit) < priorityThreshold;
    }

    lemma MapOfThree(x: QueueUnitInfo, y: QueueUnitInfo, l: QueueUnitInfo)
      requires Members() && high + low == [x, y, l] && x.name != y.name && x.name != l.name && y.name != l.name
      ensures queueUnits == map[x.name := x, y.name := y, l.name := l]
    {
      var q := high + low;
      SameObjects(q, queueUnits);
      assert q[0] == x && q[1] == y && q[2] == l;
      forall k | k in queueUnits ensures k in {x.name, y.name, l.name} {
        assert queueUnits[k] in q;
      }
    }

    lemma Distinct(i: nat, j: nat)
      requires Valid() && i < j < |high + low|
      ensures (high + low)[i].name != (high + low)[j].name
    {
      ValidIff();
      SameObjects(high + low, queueUnits);
      OnePlaceEach(i, j);
    }

    lemma QueuedOwn(x: QueueUnitInfo)
      requires Valid() && x in high + low && x.created == x.unit.created
      ensures x.unit.key == x.name && OwnsUid(x.name, x.unit.uid) && QueuedAs(high + low, x.unit)
      ensures forall i :: 0 <= i < |high + low| && (high + low)[i].name == x.name ==> (high + low)[i] == x
    {
      ValidIff();
      SameObjects(high + low, queueUnits);
      OwnUid(high + low, queueUnits, x);
    }

    /** Both halves together are served by priority, then by age, then by name. */
    lemma ServiceOrder(i: nat, j: nat)
      requires Valid() && i < j < |high + low|
      ensures Priority((high + low)[i].unit) >= Priority((high + low)[j].unit)
      ensures Priority((high + low)[i].unit) == Priority((high + low)[j].unit) ==> (high + low)[i].created <= (high + low)[j].created
      ensures Before((high + low)[i], (high + low)[j])
      ensures (high + low)[i].unit.priority.None? ==> (high + low)[j].unit.priority.None? || (high + low)[j].unit.priority.value <= 0
      ensures (high + low)[j].unit.priority.None? ==> (high + low)[i].unit.priority.None? || (high + low)[i].unit.priority.value >= 0
    {
      QueueOrder(high + low, queueUnits, i, j);
    }

    /** With both cursors reset, the unit handed out comes first in the order: a low one
        before every other open unit, a high one before every other unblocked open unit. It
        has the highest priority of them and is the oldest of those. */
    lemma HandedOutIsLeast(k: nat, j: nat)
      requires Valid() && k < |high + low| && j < |high + low| && j != k
      requires Open((high + low)[j]) && (k < |high| ==> !Blocked((high + low)[j]))
      requires k < |high| ==> forall i :: 0 <= i < k ==> !Open(high[i]) || Blocked(high[i])
      requires k >= |high| ==> !HoldsLow(0) && forall i :: 0 <= i < k - |high| ==> !Open(low[i])
      ensures Less((high + low)[k].Place(), (high + low)[j].Place()) < 0
      ensures Priority((high + low)[k].unit) >= Priority((high + low)[j].unit)
      ensures Priority((high + low)[k].unit) == Priority((high + low)[j].unit) ==> (high + low)[k].created <= (high + low)[j].created
      ensures Before((high + low)[k], (high + low)[j])
    {
      var q := high + low;
      assert forall i :: 0 <= i < |high| ==> q[i] == high[i];
      assert forall i :: |high| <= i < |q| ==> q[i] == low[i - |high|];
      assert k < j;
      assert Less(Ranks(SlotsOf(q))[k], Ranks(SlotsOf(q))[j]) < 0;
      ServiceOrder(k, j);
    }

    /** AddUnschedulableIfNotPresent: a high unit is tried again, a low one is passed. */
    method AddUnschedulableIfNotPresent(x: QueueUnitInfo, allocatableChanged: bool)
      modifies this`lowNextIdx, this`resetNextIdxFlag, this`assumed, this`updating, this`blockedQuota
      ensures assumed == old(assumed) - {x.unit.key} && updating == old(updating) - {x.unit.key}
      ensures lowNextIdx == old(lowNextIdx) + if !allocatableChanged && Priority(x.unit) < priorityThreshold then 1 else 0
      ensures resetNextIdxFlag == (old(resetNextIdxFlag) || allocatableChanged)
      ensures blockedQuota == old(blockedQuota) + if allocatableChanged then {} else QuotaSet(x.unit)
    {
      if !allocatableChanged {
        if Priority(x.unit) < priorityThreshold {
          lowNextIdx := lowNextIdx + 1;
        }
        blockedQuota := blockedQuota + QuotaSet(x.unit);
      } else {
        resetNextIdxFlag := true;
      }
      assumed := assumed - {x.unit.key};
      updating := updating - {x.unit.key};
    }

    // ---------- Attempts without other events ----------

    /** The next unit is handed out and turns out to be unschedulable. `k` is its place in
        high ++ low. */
    method Attempt(idle: bool) returns (x: Option<QueueUnitInfo>, ghost k: nat)
      requires Valid()
      modifies this`highNextIdx, this`lowNextIdx, this`resetNextIdxFlag, this`blockedQuota, this`assumed, this`updating
      ensures x.Some? ==> !resetNextIdxFlag && k < |high + low| && x.value == (high + low)[k]
      ensures x.Some? ==> blockedQuota == old(blockedQuota) + QuotaSet(x.value.unit)
      ensures x.Some? && k < |high| ==> !old(Blocked(x.value)) && k < HighDepth() && Open(x.value)
      ensures x.Some? && k < |high| ==> old(Start()) <= k == highNextIdx
      ensures x.Some? && |high| <= k ==> lowNextIdx == k - |high| + 1
      ensures x.Some? && |high| <= k ==> old(resetNextIdxFlag) || |high| + old(lowNextIdx) <= k
      ensures x.Some? && k < |high| && !old(resetNextIdxFlag) ==> lowNextIdx == old(lowNextIdx)
      ensures forall j :: old(Start()) <= j < HighDepth() && Open(high[j]) && !old(Blocked(high[j])) ==> x.Some? && k <= j
    {
      k := 0;
      var fromHigh;
      x, fromHigh := TryNext(idle);
      if x.Some? {
        k := if fromHigh then highNextIdx else |high| + lowNextIdx;
        AddUnschedulableIfNotPresent(x.value, false);
      }
    }

    /** A unit that could not be scheduled is handed out again at once exactly if it is a
        high one without a quota that could be blocked. */
    method AttemptTwice(idle: bool) returns (a: Option<QueueUnitInfo>, b: Option<QueueUnitInfo>)
      requires Valid()
      modifies this`highNextIdx, this`lowNextIdx, this`resetNextIdxFlag, this`blockedQuota, this`assumed, this`updating
      ensures a.Some? ==> (b == a <==> Priority(a.value.unit) >= priorityThreshold && QuotaSet(a.value.unit) == {})
    {
      ghost var k, l;
      a, k := Attempt(idle);
      if a.None? {
        return a, None;
      }
      b, l := Attempt(idle);
      SideOf(a.value, k);
      ValidIff();
      if b.Some? {
        OnePlaceEach(k, l);
      }
      assert k < |high| && QuotaSet(a.value.unit) == {} ==> b.Some? && l <= k && l < |high|;
    }

    lemma SideOf(x: QueueUnitInfo, k: nat)
      requires Valid() && k < |high + low| && (high + low)[k] == x
      ensures Priority(x.unit) >= priorityThreshold <==> k < |high|
    {}

    lemma OnePlaceEach(i: nat, j: nat)
      requires Members() && i < |high + low| && j < |high + low|
      ensures (high + low)[i] == (high + low)[j] <==> i == j
    {
      if (high + low)[i] == (high + low)[j] {
        SameUidSamePlace(high + low, queueUnits, i, j);
      }
    }

    /** Everything handed out has been passed: a low unit lies before the cursor, the quota
        of a high one is blocked. */
    ghost predicate Passed(handed: seq<QueueUnitInfo>, places: seq<nat>)
      reads this`high, this`low, this`lowNextIdx, this`resetNextIdxFlag, this`blockedQuota, high, low, handed
    {
      && |places| == |handed|
      && (handed != [] ==> !resetNextIdxFlag)
      && (forall i :: 0 <= i < |handed| ==> places[i] < |high + low| && handed[i] == (high + low)[places[i]])
      && (forall i :: 0 <= i < |handed| ==> if places[i] < |high| then Blocked(handed[i]) else places[i] < |high| + lowNextIdx)
    }

    ghost predicate AllHaveQuota()
      reads this`high, high
    {
      forall i :: 0 <= i < |high| ==> QuotaSet(high[i].unit) != {}
    }

    /** After what has been handed out, an attempt hands out something else. */
    method AttemptMore(ghost handed: seq<QueueUnitInfo>, ghost places: seq<nat>) returns (x: Option<QueueUnitInfo>, ghost k: nat)
      requires Valid() && AllHaveQuota() && Passed(handed, places)
      modifies this`highNextIdx, this`lowNextIdx, this`resetNextIdxFlag, this`blockedQuota, this`assumed, this`updating
      ensures x.Some? ==> x.value !in handed && Passed(handed + [x.value], places + [k])
    {
      ValidIff();
      x, k := Attempt(false);
      assert Members();
      if x.Some? {
        forall i | 0 <= i < |handed| ensures handed[i] != x.value {
          OnePlaceEach(places[i], k);
        }
      }
    }

    /** Over any number of attempts without other events no unit is handed out twice,
        provided that every high unit has a quota. */
    method Round(n: nat) returns (handed: seq<QueueUnitInfo>)
      requires Valid() && AllHaveQuota()
      modifies this`highNextIdx, this`lowNextIdx, this`resetNextIdxFlag, this`blockedQuota, this`assumed, this`updating
      ensures forall i, j :: 0 <= i < j < |handed| ==> handed[i] != handed[j]
      ensures forall i :: 0 <= i < |handed| ==> handed[i] in high + low
    {
      handed := [];
      ghost var places: seq<nat> := [];
      for t := 0 to n
        invariant Passed(handed, places)
        invariant forall i, j :: 0 <= i < j < |handed| ==> handed[i] != handed[j]
      {
        var x;
        ghost var k;
        x, k := AttemptMore(handed, places);
        if x.None? {
          return;
        }
        handed := handed + [x.value];
        places := places + [k];
      }
    }

    /** It is then handed out any number of times. */
    method SameAgain(n: nat, ghost k: nat) returns (handed: seq<QueueUnitInfo>)
      requires Valid() && !resetNextIdxFlag && k == highNextIdx < HighDepth()
      requires Open(high[k]) && !Blocked(high[k]) && QuotaSet(high[k].unit) == {}
      modifies this`highNextIdx, this`lowNextIdx, this`resetNextIdxFlag, this`blockedQuota, this`assumed, this`updating
      ensures |handed| == n && forall i :: 0 <= i < n ==> handed[i] == high[k]
    {
      handed := [];
      for t := 0 to n
        invariant |handed| == t && (forall i :: 0 <= i < t ==> handed[i] == high[k])
        invariant !resetNextIdxFlag && k == highNextIdx && blockedQuota == old(blockedQuota)
      {
        var x;
        ghost var l;
        x, l := Attempt(false);
        handed := handed + [x.value];
      }
    }

    /** For example: the only unit of a queue, of high priority and without a quota. */
    method OnlyUnitAgain(x: QueueUnitInfo, n: nat) returns (handed: seq<QueueUnitInfo>)
      requires Valid() && high == [x] && low == [] && highNextIdx == 0 && !resetNextIdxFlag && maxDepth <= 0
      requires Open(x) && quotaOf(x.unit) == None
      modifies this`highNextIdx, this`lowNextIdx, this`resetNextIdxFlag, this`blockedQuota, this`assumed, this`updating
      ensures handed == seq(n, i => x)
    {
      handed := SameAgain(n, 0);
    }

    // ---------- Units in flight ----------

    /** Reserve: a queue that waits for pods to run holds at most one unit in flight. The
        cursors stay where they are. */
    method Reserve(x: QueueUnitInfo) returns (ok: bool)
      modifies this`assumed, this`updating
      ensures ok == !(waitPodsRunning && old(assumed) != {})
      ensures assumed == old(assumed) + if ok then {x.unit.key} else {}
      ensures updating == old(updating) + if ok then {x.unit.key} else {}
    {
      if waitPodsRunning && assumed != {} {
        return false;
      }
      assumed := assumed + {x.unit.key};
      updating := updating + {x.unit.key};
      return true;
    }

    /** The scan does not look at the units in flight: whatever has been handed out and
        reserved is handed out again, as long as no event comes in between. */
    method NextReserveNext(idle: bool) returns (a: Option<QueueUnitInfo>, ok: bool, b: Option<QueueUnitInfo>)
      modifies this`highNextIdx, this`lowNextIdx, this`resetNextIdxFlag, this`blockedQuota, this`assumed, this`updating
      ensures a.Some? && ok ==> b == a && a.value.unit.key in updating
    {
      var fromHigh, again;
      ghost var start := Start();
      a, fromHigh := TryNext(idle);
      if a.None? {
        return a, false, None;
      }
      if !fromHigh {
        LowStaysFree(start, highNextIdx);
      }
      ok := Reserve(a.value);
      ghost var c, d := highNextIdx, lowNextIdx;
      b, again := TryNext(idle);
      assert fromHigh ==> again && highNextIdx == c;
      assert !fromHigh ==> !again && lowNextIdx == d;
    }

    lemma LowStaysFree(start: nat, c: nat)
      requires !HoldsLow(start) && c == Max(start, HighDepth())
      ensures !HoldsLow(c)
    {}

    /** The positions SortedList reports: those in high ++ low, counted from one. */
    method SortedList() returns (items: seq<(string, int, int)>)
      ensures |items| == |high + low|
      ensures forall i :: 0 <= i < |items| ==>
                items[i] == ((high + low)[i].unit.key, i + 1, Priority((high + low)[i].unit))
    {
      items := [];
      for i := 0 to |high|
        invariant |items| == i
        invariant forall j :: 0 <= j < i ==> items[j] == (high[j].unit.key, j + 1, Priority(high[j].unit))
      {
        items := items + [(high[i].unit.key, i + 1, Priority(high[i].unit))];
      }
      var offset := |high|;
      for i := 0 to |low|
        invariant |items| == offset + i
        invariant forall j :: 0 <= j < offset + i ==>
                    items[j] == ((high + low)[j].unit.key, j + 1, Priority((high + low)[j].unit))
      {
        items := items + [(low[i].unit.key, offset + i + 1, Priority(low[i].unit))];
      }
    }
  }
}
