/** What undoes a reservation, and exactly when the ledger survives a release under the
    wrong label or a change of the quota tree. */
module QuotaReversal {
  import opened Amounts
  import opened QuotaTree
  import opened QuotaLedger

  // ---------- Reserve, resize, unreserve ----------

  ghost predicate SameAt(a: Counters, b: Counters, k: string) {
    At(a.used, k) == At(b.used, k) && At(a.self, k) == At(b.self, k) && At(a.children, k) == At(b.children, k)
  }

  /** Two quotas hold the same units and agree on every counter, resource by resource. */
  ghost predicate SameState(i: Info, j: Info) {
    i.reserved == j.reserved && forall k :: SameAt(i.usage, j.usage, k) && SameAt(i.guaranteed, j.guaranteed, k)
  }

  ghost predicate SameLedger(l: Ledger, m: Ledger) {
    && l.reserved == m.reserved && l.infos.Keys == m.infos.Keys
    && forall q :: q in l.infos ==> SameState(l.infos[q], m.infos[q])
  }

  /** The book determines the ledger. */
  lemma BookDeterminesLedger(l: Ledger, m: Ledger, b: Book)
    requires Represents(l, b) && Represents(m, b)
    requires l.infos.Keys == m.infos.Keys && l.parent == m.parent
    ensures SameLedger(l, m)
  {
    forall q | q in l.infos ensures SameState(l.infos[q], m.infos[q]) {
      var i, j := l.infos[q], m.infos[q];
      assert QuotaRepresents(i, q, b.units, l.infos.Keys, l.parent);
      assert QuotaRepresents(j, q, b.units, m.infos.Keys, m.parent);
      forall k ensures SameAt(i.usage, j.usage, k) && SameAt(i.guaranteed, j.guaranteed, k) {
        assert CountersAt(i.usage, q, i.reserved, k) && CountersAt(j.usage, q, j.reserved, k);
        assert CountersAt(i.guaranteed, q, i.reserved, k) && CountersAt(j.guaranteed, q, j.reserved, k);
      }
    }
  }

  function ResizeAll(l: Ledger, vs: seq<Unit>): Ledger {
    if vs == [] then l
    else ResizeInPlace(ResizeAll(l, vs[..|vs| - 1]), vs[|vs| - 1].quota, vs[|vs| - 1]).0
  }

  predicate SameUnit(u: Unit, vs: seq<Unit>) {
    forall i :: 0 <= i < |vs| ==> vs[i].uid == u.uid && vs[i].quota == u.quota
  }

  lemma {:induction false} ResizeAllRepresents(l: Ledger, b: Book, u: Unit, vs: seq<Unit>) returns (b': Book)
    requires Represents(l, b) && SameUnit(u, vs)
    requires u.uid in b.units ==> b.units[u.uid].quota == u.quota
    ensures Represents(ResizeAll(l, vs), b') && b'.units - {u.uid} == b.units - {u.uid} && b'.scheduling == b.scheduling
    ensures u.uid in b'.units <==> u.uid in b.units
    ensures u.uid in b'.units ==> b'.units[u.uid].quota == u.quota
    ensures ResizeAll(l, vs).infos.Keys == l.infos.Keys && ResizeAll(l, vs).parent == l.parent
    decreases |vs|
  {
    b' := b;
    if vs != [] {
      var n := |vs| - 1;
      b' := ResizeAllRepresents(l, b, u, vs[..n]);
      ResizeInPlaceRepresents(ResizeAll(l, vs[..n]), b', vs[n]);
      b' := Rebooked(b', vs[n]);
    }
  }

  /** On every parent map, cyclic or not: reserving a unit, resizing it any number of
      times and unreserving it leaves every counter of every quota as it was. */
  lemma ReservationIsReversible(l: Ledger, b: Book, u: Unit, vs: seq<Unit>, w: Unit)
    requires Represents(l, b) && u.uid !in b.units
    requires SameUnit(u, vs) && SameUnit(u, [w])
    ensures SameLedger(l, Unreserve(ResizeAll(Reserve(l, u.quota, u).0, vs), w.quota, w).0)
  {
    assert [w][0] == w;
    ReserveRepresents(l, b, u);
    var b1 := Booked(b, l.infos.Keys, u);
    var l1 := Reserve(l, u.quota, u).0;
    StableTree(l, OnAddAssignedJob(u));
    var b2 := ResizeAllRepresents(l1, b1, u, vs);
    var l2 := ResizeAll(l1, vs);
    UnreserveRepresents(l2, b2, w);
    StableTree(l2, OnUnreserve(w));
    BookIsReversible(b, l.infos.Keys, u, b2, w);
    BookDeterminesLedger(l, Unreserve(l2, w.quota, w).0, b);
  }

  lemma BookIsReversible(b: Book, dom: set<string>, u: Unit, b2: Book, w: Unit)
    requires u.uid !in b.units && w.uid == u.uid && w.quota == u.quota
    requires b2.scheduling == b.scheduling && b2.units - {u.uid} == Booked(b, dom, u).units - {u.uid}
    requires u.uid in b2.units <==> u.uid in Booked(b, dom, u).units
    ensures Unbooked(b2, dom, w) == b
  {
    assert b.units - {u.uid} == b.units && b.units[u.uid := u] - {u.uid} == b.units;
    if u.uid !in b2.units {
      assert b2.units - {u.uid} == b2.units;
    }
  }

  // ---------- A release under another label ----------

  lemma DeleteElsewhereIsVoid(l: Ledger, b: Book, uid: string, q: string)
    requires Represents(l, b) && uid in b.units && b.units[uid].quota in ChainOf(l, q)
    ensures DeleteOnChain(l.infos, l.parent, q, uid) == DeleteOnChain(l.infos, l.parent, b.units[uid].quota, uid)
  {
    ChainTransitive(l.infos.Keys, l.parent, q, b.units[uid].quota);
    forall p | p in l.infos && p !in ChainOf(l, b.units[uid].quota)
      ensures DeleteUnit(l.infos[p], p, uid) == l.infos[p]
    {
      assert QuotaRepresents(l.infos[p], p, b.units, l.infos.Keys, l.parent);
    }
  }

  /** Releasing a reserved unit under label `u.quota` instead of the one it was booked
      with leaves a ledger that still represents some book if and only if the booked
      quota is the given one or one above it; otherwise the charge is left behind. */
  lemma MislabelledReleaseIff(l: Ledger, b: Book, u: Unit)
    requires Represents(l, b) && u.uid in b.units && u.quota in l.infos
    ensures (exists b' :: Represents(Unreserve(l, u.quota, u).0, b')) <==> b.units[u.uid].quota in ChainOf(l, u.quota)
  {
    var booked := b.units[u.uid];
    var l' := Unreserve(l, u.quota, u).0;
    if booked.quota in ChainOf(l, u.quota) {
      DeleteElsewhereIsVoid(l, b, u.uid, u.quota);
      UnreserveRepresents(l, b, booked);
      assert l' == Unreserve(l, booked.quota, booked).0;
    } else if b' :| Represents(l', b') {
      ChainIsLeastClosed(l.infos.Keys, l.parent, booked.quota);
      assert QuotaRepresents(l.infos[booked.quota], booked.quota, b.units, l.infos.Keys, l.parent);
      assert u.uid in l'.infos[booked.quota].reserved;
      OnlyBookedUnits(l', b', booked.quota);
    }
  }

  lemma OnlyBookedUnits(l: Ledger, b: Book, q: string)
    requires Represents(l, b) && q in l.infos
    ensures l.infos[q].reserved.Keys <= l.reserved.Keys
  {
    assert QuotaRepresents(l.infos[q], q, b.units, l.infos.Keys, l.parent);
  }

  // ---------- Changes of the quota tree ----------

  /** AddOrUpdateQuota: a known quota keeps its counters and gets new limits. */
  function AddOrUpdateQuota(l: Ledger, q: string, min: Amount, max: Amount, parentName: string): Ledger {
    l.(infos := l.infos[q := if q in l.infos then l.infos[q].(min := min, max := max) else NewInfo(min, max)],
       parent := l.parent[q := parentName])
  }

  /** An update of a quota takes over limits and parent and keeps the counters and the reserved
      units; a new quota starts empty. No other quota changes. */
  lemma QuotaTakesOver(l: Ledger, q: string, min: Amount, max: Amount, parentName: string, p: string)
    ensures var l' := AddOrUpdateQuota(l, q, min, max, parentName);
      && l'.reserved == l.reserved && l'.scheduling == l.scheduling
      && q in l'.infos && l'.infos[q].min == min && l'.infos[q].max == max && q in l'.parent && l'.parent[q] == parentName
      && (q in l.infos ==> && l'.infos[q].reserved == l.infos[q].reserved && l'.infos[q].usage == l.infos[q].usage
                           && l'.infos[q].guaranteed == l.infos[q].guaranteed)
      && (q !in l.infos ==> l'.infos[q].reserved == map[])
      && (p != q ==> && (p in l'.infos <==> p in l.infos) && (p in l.infos ==> l'.infos[p] == l.infos[p])
                     && (p in l'.parent <==> p in l.parent) && (p in l.parent ==> l'.parent[p] == l.parent[p]))
  {
  }

  function DeleteQuota(l: Ledger, q: string): Ledger {
    l.(infos := l.infos - {q}, parent := l.parent - {q})
  }

  lemma NewInfoAccurate(min: Amount, max: Amount, q: string)
    ensures Accurate(NewInfo(min, max), q)
  {
    forall k ensures CountersAt(NO_USAGE, q, map[], k) {
      assert Own(map[], q) == {} && Others(map[], q) == {};
    }
  }

  /** The units a quota is charged with stay the same under both trees. */
  predicate SameCharges(units: map<string, Unit>, dom: set<string>, parent: map<string, string>,
                        dom': set<string>, parent': map<string, string>, q: string) {
    ChargedTo(units, dom, parent, q) == ChargedTo(units, dom', parent', q)
  }

  predicate SameChains(units: map<string, Unit>, l: Ledger, m: Ledger) {
    forall uid :: uid in units ==> ChainOf(l, units[uid].quota) == ChainOf(m, units[uid].quota)
  }

  lemma SameChainsIff(units: map<string, Unit>, l: Ledger, m: Ledger)
    requires l.infos.Keys <= m.infos.Keys
    ensures SameChains(units, l, m) <==>
            forall q :: q in m.infos ==> SameCharges(units, l.infos.Keys, l.parent, m.infos.Keys, m.parent, q)
  {
    if forall q :: q in m.infos ==> SameCharges(units, l.infos.Keys, l.parent, m.infos.Keys, m.parent, q) {
      forall uid | uid in units ensures ChainOf(l, units[uid].quota) == ChainOf(m, units[uid].quota) {
        SameChargesSameChain(units, l, m, uid);
      }
    }
  }

  lemma SameChargesSameChain(units: map<string, Unit>, l: Ledger, m: Ledger, uid: string)
    requires l.infos.Keys <= m.infos.Keys && uid in units
    requires forall q :: q in m.infos ==> SameCharges(units, l.infos.Keys, l.parent, m.infos.Keys, m.parent, q)
    ensures ChainOf(l, units[uid].quota) == ChainOf(m, units[uid].quota)
  {
    var c, d := ChainOf(l, units[uid].quota), ChainOf(m, units[uid].quota);
    ChainIsLeastClosed(l.infos.Keys, l.parent, units[uid].quota);
    ChainIsLeastClosed(m.infos.Keys, m.parent, units[uid].quota);
    forall q | q in m.infos ensures q in c <==> q in d {
      assert SameCharges(units, l.infos.Keys, l.parent, m.infos.Keys, m.parent, q);
      assert q in c <==> uid in ChargedTo(units, l.infos.Keys, l.parent, q);
    }
  }

  /** Adding a quota, changing its limits or moving it under another parent keeps the
      ledger accurate if and only if no reserved unit changes the chain it is charged to:
      the code does not move existing charges. */
  lemma QuotaUpdateIff(l: Ledger, b: Book, q: string, min: Amount, max: Amount, parentName: string)
    requires Represents(l, b)
    ensures var m := AddOrUpdateQuota(l, q, min, max, parentName);
      Represents(m, b) <==> SameChains(b.units, l, m)
  {
    var m := AddOrUpdateQuota(l, q, min, max, parentName);
    NewInfoAccurate(min, max, q);
    SameChainsIff(b.units, l, m);
    forall p | p in m.infos
      ensures QuotaRepresents(m.infos[p], p, b.units, m.infos.Keys, m.parent) <==>
              SameCharges(b.units, l.infos.Keys, l.parent, m.infos.Keys, m.parent, p)
    {
      UpdatedQuota(l, b, q, min, max, parentName, p);
    }
    assert m.infos.Keys == l.infos.Keys + {q};
    assert KeysRepresent(m.reserved, b.units, m.infos.Keys);
  }

  lemma UpdatedQuota(l: Ledger, b: Book, q: string, min: Amount, max: Amount, parentName: string, p: string)
    requires Represents(l, b) && p in AddOrUpdateQuota(l, q, min, max, parentName).infos
    ensures var m := AddOrUpdateQuota(l, q, min, max, parentName);
      QuotaRepresents(m.infos[p], p, b.units, m.infos.Keys, m.parent) <==>
      SameCharges(b.units, l.infos.Keys, l.parent, m.infos.Keys, m.parent, p)
  {
    var m := AddOrUpdateQuota(l, q, min, max, parentName);
    if p in l.infos {
      assert QuotaRepresents(l.infos[p], p, b.units, l.infos.Keys, l.parent);
    } else {
      NewInfoAccurate(min, max, p);
      assert ChargedTo(b.units, l.infos.Keys, l.parent, p) == map[] by {
        forall uid | uid in b.units { ChainIsLeastClosed(l.infos.Keys, l.parent, b.units[uid].quota); }
      }
    }
  }

  /** Deleting a quota keeps the ledger accurate if and only if no reserved unit is
      labelled with it and every reserved unit's chain merely loses it. */
  lemma QuotaDeletionIff(l: Ledger, b: Book, q: string)
    requires Represents(l, b)
    ensures var m := DeleteQuota(l, q);
      Represents(m, b) <==>
      forall uid :: uid in b.units ==>
        b.units[uid].quota != q && ChainOf(m, b.units[uid].quota) == ChainOf(l, b.units[uid].quota) - {q}
  {
    var m := DeleteQuota(l, q);
    assert m.infos.Keys == l.infos.Keys - {q};
    if Represents(m, b) {
      forall uid | uid in b.units
        ensures b.units[uid].quota != q && ChainOf(m, b.units[uid].quota) == ChainOf(l, b.units[uid].quota) - {q}
      {
        SurvivorChain(l, b, q, uid);
      }
    }
    if forall uid :: uid in b.units ==>
        b.units[uid].quota != q && ChainOf(m, b.units[uid].quota) == ChainOf(l, b.units[uid].quota) - {q}
    {
      SurvivorsRepresented(l, b, q);
    }
  }

  lemma SurvivorsRepresented(l: Ledger, b: Book, q: string)
    requires Represents(l, b)
    requires forall uid :: uid in b.units ==>
        b.units[uid].quota != q && ChainOf(DeleteQuota(l, q), b.units[uid].quota) == ChainOf(l, b.units[uid].quota) - {q}
    ensures Represents(DeleteQuota(l, q), b)
  {
    var m := DeleteQuota(l, q);
    assert m.infos.Keys == l.infos.Keys - {q};
    forall p | p in m.infos ensures QuotaRepresents(m.infos[p], p, b.units, m.infos.Keys, m.parent) {
      assert QuotaRepresents(l.infos[p], p, b.units, l.infos.Keys, l.parent);
      assert ChargedTo(b.units, m.infos.Keys, m.parent, p) == ChargedTo(b.units, l.infos.Keys, l.parent, p);
    }
  }

  lemma SurvivorChain(l: Ledger, b: Book, q: string, uid: string)
    requires Represents(l, b) && Represents(DeleteQuota(l, q), b) && uid in b.units
    ensures b.units[uid].quota != q
    ensures ChainOf(DeleteQuota(l, q), b.units[uid].quota) == ChainOf(l, b.units[uid].quota) - {q}
  {
    var m := DeleteQuota(l, q);
    var c, d := ChainOf(l, b.units[uid].quota), ChainOf(m, b.units[uid].quota);
    ChainIsLeastClosed(l.infos.Keys, l.parent, b.units[uid].quota);
    ChainIsLeastClosed(m.infos.Keys, m.parent, b.units[uid].quota);
    forall p | p in m.infos ensures p in c <==> p in d {
      assert QuotaRepresents(l.infos[p], p, b.units, l.infos.Keys, l.parent);
      assert QuotaRepresents(m.infos[p], p, b.units, m.infos.Keys, m.parent);
      assert uid in m.infos[p].reserved <==> p in d;
    }
  }
}
