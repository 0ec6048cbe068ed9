/** Admission against the quota tree: when CheckUsage succeeds, and the proof that
    runs which only admit checked units never push a quota over its limit. */
module QuotaSafety {
  import opened Amounts
  import opened QueueUnits
  import opened QuotaTree
  import opened QuotaLedger

  const ROOT_QUOTA := "koordinator-root-quota"

  /** checkResource: every requested resource that the quota limits still fits. */
  predicate Fits(limit: Amount, used: Amount, req: Amount, rate: real) {
    forall k :: k in req && k in limit ==> limit[k] as real * rate - At(used, k) as real >= req[k] as real
  }

  predicate PassesQuota(i: Info, u: Unit, rate: real) {
    (i.max == map[] ==> u.resource == map[]) && Fits(i.max, i.usage.used, u.resource, rate)
  }

  /** CheckUsage from `q` on, with `visited` behind it: it fails on a cycle, on an
      unknown quota and on a quota that is too full, and stops at the root quota. */
  predicate CheckFrom(infos: map<string, Info>, parent: map<string, string>, q: string, visited: set<string>, u: Unit, rate: real)
    decreases infos.Keys - visited
  {
    q == ROOT_QUOTA ||
    (q !in visited && q in infos && PassesQuota(infos[q], u, rate) &&
     (q in parent ==> CheckFrom(infos, parent, parent[q], visited + {q}, u, rate)))
  }

  predicate CheckUsage(l: Ledger, q: string, u: Unit, rate: real) {
    CheckFrom(l.infos, l.parent, q, {}, u, rate)
  }

  // ---------- When the check succeeds ----------

  /** `path` leads from `q` to the root quota through existing quotas. */
  predicate RootPath(dom: set<string>, parent: map<string, string>, q: string, path: seq<string>)
    decreases |path|
  {
    if q == ROOT_QUOTA then path == []
    else path != [] && path[0] == q && q in dom && q in parent && RootPath(dom, parent, parent[q], path[1..])
  }

  lemma {:induction false} RootPathUnique(dom: set<string>, parent: map<string, string>, q: string, a: seq<string>, b: seq<string>)
    requires RootPath(dom, parent, q, a) && RootPath(dom, parent, q, b)
    ensures a == b
    decreases |a|
  {
    if q != ROOT_QUOTA {
      RootPathUnique(dom, parent, parent[q], a[1..], b[1..]);
      assert a == [a[0]] + a[1..] && b == [b[0]] + b[1..];
    }
  }

  lemma {:induction false} RootPathSuffix(dom: set<string>, parent: map<string, string>, q: string, path: seq<string>, i: nat)
    requires RootPath(dom, parent, q, path) && i < |path|
    ensures RootPath(dom, parent, path[i], path[i..])
    decreases i
  {
    if i > 0 {
      RootPathSuffix(dom, parent, parent[q], path[1..], i - 1);
      assert path[1..][i - 1..] == path[i..];
    } else {
      assert path[0..] == path;
    }
  }

  /** A path to the root never returns to where it started. */
  lemma RootPathFresh(dom: set<string>, parent: map<string, string>, q: string, path: seq<string>)
    requires RootPath(dom, parent, q, path) && path != []
    ensures q !in path[1..]
  {
    if q in path[1..] {
      var i :| 0 <= i < |path[1..]| && path[1..][i] == q;
      RootPathSuffix(dom, parent, q, path, i + 1);
      RootPathUnique(dom, parent, q, path, path[i + 1..]);
    }
  }

  predicate AllPass(infos: map<string, Info>, path: seq<string>, u: Unit, rate: real) {
    forall i :: 0 <= i < |path| ==> path[i] in infos && PassesQuota(infos[path[i]], u, rate)
  }

  lemma {:induction false} CheckFromPath(infos: map<string, Info>, parent: map<string, string>, q: string, visited: set<string>, u: Unit, rate: real)
      returns (path: seq<string>)
    requires infos.Keys <= parent.Keys && CheckFrom(infos, parent, q, visited, u, rate)
    ensures RootPath(infos.Keys, parent, q, path) && AllPass(infos, path, u, rate)
    decreases infos.Keys - visited
  {
    if q == ROOT_QUOTA {
      path := [];
    } else {
      var rest := CheckFromPath(infos, parent, parent[q], visited + {q}, u, rate);
      path := [q] + rest;
      assert path[1..] == rest;
    }
  }

  lemma {:induction false} PathChecks(infos: map<string, Info>, parent: map<string, string>, q: string, visited: set<string>, u: Unit, rate: real, path: seq<string>)
    requires RootPath(infos.Keys, parent, q, path) && AllPass(infos, path, u, rate)
    requires forall i :: 0 <= i < |path| ==> path[i] !in visited
    ensures CheckFrom(infos, parent, q, visited, u, rate)
    decreases |path|
  {
    if q != ROOT_QUOTA {
      RootPathFresh(infos.Keys, parent, q, path);
      assert path[0] == q;
      PathChecks(infos, parent, parent[q], visited + {q}, u, rate, path[1..]);
    }
  }

  /** On every parent map, cyclic or not, CheckUsage succeeds exactly when the quota
      reaches the root through existing quotas and each of them has room. */
  lemma CheckUsageIff(l: Ledger, q: string, u: Unit, rate: real)
    requires l.infos.Keys == l.parent.Keys
    ensures CheckUsage(l, q, u, rate) <==>
            exists path :: RootPath(l.infos.Keys, l.parent, q, path) && AllPass(l.infos, path, u, rate)
  {
    if CheckUsage(l, q, u, rate) {
      var path := CheckFromPath(l.infos, l.parent, q, {}, u, rate);
    }
    if path :| RootPath(l.infos.Keys, l.parent, q, path) && AllPass(l.infos, path, u, rate) {
      PathChecks(l.infos, l.parent, q, {}, u, rate, path);
    }
  }

  // ---------- Limits over runs ----------

  /** The root quota has no parent among the quotas. */
  predicate RootIsTop(dom: set<string>, parent: map<string, string>) {
    ROOT_QUOTA in parent ==> parent[ROOT_QUOTA] !in dom
  }

  predicate WithinAt(used: int, max: int, rate: real) {
    used as real <= max as real * rate
  }

  predicate WithinLimit(i: Info, rate: real) {
    forall k :: k in i.max ==> WithinAt(At(i.usage.used, k), i.max[k], rate)
  }

  predicate WithinLimits(infos: map<string, Info>, rate: real) {
    forall q :: q in infos && q != ROOT_QUOTA ==> WithinLimit(infos[q], rate)
  }

  /** A reservation is only made for a unit that passed CheckUsage in the same state and
      that is charged what was checked; otherwise reservations only shrink or end. */
  ghost predicate Guarded(l: Ledger, b: Book, e: Event, rate: real) {
    match e
    case OnReserve(u) =>
      u.uid in b.units || (CheckUsage(l, u.quota, u, rate) && SameAmount(u.charge, u.resource))
    case OnDequeueComplete(u) => u.uid in b.units
    case OnAddAssignedJob(u) => u.uid in b.units
    case OnResize(before, after) =>
      before.quota == after.quota && (after.uid in b.units ==> AtMost(after.charge, b.units[after.uid].charge))
    case _ => true
  }

  ghost predicate SameAmount(a: Amount, b: Amount) {
    forall k :: At(a, k) == At(b, k)
  }

  ghost predicate AtMost(a: Amount, b: Amount) {
    forall k :: At(a, k) <= At(b, k)
  }

  predicate NonNegativeBook(b: Book) {
    forall uid :: uid in b.units ==> NonNegative(b.units[uid].charge)
  }

  /** Everything a reservation under `q` charges, the root aside, has been checked. */
  lemma CheckedChain(l: Ledger, q: string, u: Unit, rate: real)
    requires l.infos.Keys == l.parent.Keys && RootIsTop(l.infos.Keys, l.parent) && CheckUsage(l, q, u, rate)
    ensures forall p :: p in ChainOf(l, q) && p != ROOT_QUOTA ==> p in l.infos && PassesQuota(l.infos[p], u, rate)
  {
    var path := CheckFromPath(l.infos, l.parent, q, {}, u, rate);
    var s := (set x | x in path) + {ROOT_QUOTA};
    assert ClosedUp(l.infos.Keys, l.parent, s) by {
      forall x | x in path ensures l.parent[x] in s {
        var i :| 0 <= i < |path| && path[i] == x;
        RootPathNext(l.infos.Keys, l.parent, q, path, i);
      }
    }
    assert q in s by { if q != ROOT_QUOTA { assert path[0] == q; } }
    ChainIsLeastClosed(l.infos.Keys, l.parent, q);
  }

  lemma RootPathNext(dom: set<string>, parent: map<string, string>, q: string, path: seq<string>, i: nat)
    requires RootPath(dom, parent, q, path) && i < |path|
    ensures path[i] in parent && (parent[path[i]] == ROOT_QUOTA || (i + 1 < |path| && parent[path[i]] == path[i + 1]))
  {
    RootPathSuffix(dom, parent, q, path, i);
    var rest := path[i..][1..];
    assert RootPath(dom, parent, parent[path[i]], rest);
    if parent[path[i]] != ROOT_QUOTA {
      assert rest[0] == path[i + 1];
    }
  }

  lemma LessIsWithin(used: int, used': int, max: int, rate: real)
    requires used' <= used && WithinAt(used, max, rate)
    ensures WithinAt(used', max, rate)
  {}

  lemma UsedAfterAdd(i: Info, q: string, u: Unit, k: string)
    ensures At(AddUnit(i, q, u).usage.used, k) == At(i.usage.used, k) + (if u.uid in i.reserved then 0 else At(u.charge, k))
  {}

  lemma UsedAfterDelete(i: Info, q: string, uid: string, k: string)
    ensures At(DeleteUnit(i, q, uid).usage.used, k) ==
            At(i.usage.used, k) - (if uid in i.reserved then At(i.reserved[uid].charge, k) else 0)
  {}

  lemma UsedAfterResize(i: Info, q: string, u: Unit, k: string)
    requires u.uid in i.reserved ==> i.reserved[u.uid].uid == u.uid
    ensures At(ResizeUnit(i, q, u).usage.used, k) ==
            At(i.usage.used, k) + (if u.uid in i.reserved then At(u.charge, k) - At(i.reserved[u.uid].charge, k) else 0)
  {
    if u.uid in i.reserved {
      UsedAfterDelete(i, q, u.uid, k);
      UsedAfterAdd(DeleteUnit(i, q, u.uid), q, u, k);
    }
  }

  // ---------- Exactly when a step stays within the limits ----------

  /** The charge fits every quota below the root that a reservation under `q` charges. */
  predicate FitsOn(l: Ledger, q: string, charge: Amount, rate: real) {
    forall p :: p in ChainOf(l, q) && p != ROOT_QUOTA && p in l.infos ==> Fits(l.infos[p].max, l.infos[p].usage.used, charge, rate)
  }

  lemma FitsAt(used: int, more: int, max: int, rate: real)
    ensures max as real * rate - used as real >= more as real <==> WithinAt(used + more, max, rate)
  {}

  /** Adding a unit to a quota keeps its limit exactly when checkResource passes its charge. */
  lemma AddWithinIff(i: Info, q: string, u: Unit, rate: real)
    requires WithinLimit(i, rate) && u.uid !in i.reserved
    ensures WithinLimit(AddUnit(i, q, u), rate) <==> Fits(i.max, i.usage.used, u.charge, rate)
  {
    var used' := AddUnit(i, q, u).usage.used;
    forall k | k in i.max
      ensures WithinAt(At(used', k), i.max[k], rate) <==>
              (k in u.charge ==> i.max[k] as real * rate - At(i.usage.used, k) as real >= u.charge[k] as real)
    {
      UsedAfterAdd(i, q, u, k);
      assert WithinAt(At(i.usage.used, k), i.max[k], rate);
      FitsAt(At(i.usage.used, k), At(u.charge, k), i.max[k], rate);
    }
  }

  lemma DeleteWithin(i: Info, q: string, uid: string, rate: real)
    requires WithinLimit(i, rate) && (uid in i.reserved ==> NonNegative(i.reserved[uid].charge))
    ensures WithinLimit(DeleteUnit(i, q, uid), rate)
  {
    var used' := DeleteUnit(i, q, uid).usage.used;
    forall k | k in i.max ensures WithinAt(At(used', k), i.max[k], rate) {
      UsedAfterDelete(i, q, uid, k);
      LessIsWithin(At(i.usage.used, k), At(used', k), i.max[k], rate);
    }
  }

  /** Resizing uses what giving back and reserving anew would use. */
  lemma ResizeIsReplace(i: Info, q: string, u: Unit, rate: real)
    requires u.uid in i.reserved && i.reserved[u.uid].uid == u.uid
    ensures WithinLimit(ResizeUnit(i, q, u), rate) <==> WithinLimit(AddUnit(DeleteUnit(i, q, u.uid), q, u), rate)
  {
    var r, s := ResizeUnit(i, q, u), AddUnit(DeleteUnit(i, q, u.uid), q, u);
    assert r.max == s.max == i.max;
    forall k ensures At(r.usage.used, k) == At(s.usage.used, k) {
      UsedAfterResize(i, q, u, k);
      UsedAfterDelete(i, q, u.uid, k);
      UsedAfterAdd(DeleteUnit(i, q, u.uid), q, u, k);
    }
  }

  lemma ReserveOnIff(l: Ledger, b: Book, u: Unit, rate: real)
    requires Represents(l, b) && WithinLimits(l.infos, rate) && u.uid !in b.units
    ensures WithinLimits(AddOnChain(l.infos, l.parent, u.quota, u), rate) <==> FitsOn(l, u.quota, u.charge, rate)
  {
    var after := AddOnChain(l.infos, l.parent, u.quota, u);
    forall p | p in l.infos && p != ROOT_QUOTA
      ensures WithinLimit(after[p], rate) <==>
              (p in ChainOf(l, u.quota) ==> Fits(l.infos[p].max, l.infos[p].usage.used, u.charge, rate))
    {
      assert QuotaRepresents(l.infos[p], p, b.units, l.infos.Keys, l.parent);
      AddWithinIff(l.infos[p], p, u, rate);
    }
    assert after.Keys == l.infos.Keys;
  }

  lemma SameFits(i: Info, a: Amount, b: Amount, rate: real)
    requires WithinLimit(i, rate) && SameAmount(a, b)
    ensures Fits(i.max, i.usage.used, a, rate) <==> Fits(i.max, i.usage.used, b, rate)
  {
    forall k | k in i.max
      ensures (k in a ==> i.max[k] as real * rate - At(i.usage.used, k) as real >= a[k] as real) <==>
              (k in b ==> i.max[k] as real * rate - At(i.usage.used, k) as real >= b[k] as real)
    {
      assert At(a, k) == At(b, k);
      assert WithinAt(At(i.usage.used, k), i.max[k], rate);
    }
  }

  /** A reservation that is charged what was checked stays within the limits exactly when
      the check of resources passes in the state it is made in, however old the check is. */
  lemma ReserveWithinIff(l: Ledger, b: Book, u: Unit, rate: real)
    requires Represents(l, b) && WithinLimits(l.infos, rate) && SameAmount(u.charge, u.resource)
    requires u.uid !in b.units && u.quota in l.infos
    ensures WithinLimits(Step(l, OnReserve(u)).infos, rate) <==> FitsOn(l, u.quota, u.resource, rate)
  {
    ReserveOnIff(l, b, u, rate);
    forall p | p in l.infos && p != ROOT_QUOTA
      ensures Fits(l.infos[p].max, l.infos[p].usage.used, u.charge, rate) <==>
              Fits(l.infos[p].max, l.infos[p].usage.used, u.resource, rate)
    {
      SameFits(l.infos[p], u.charge, u.resource, rate);
    }
  }

  // ---------- The check is neither too lax nor too strict ----------

  /** A quota passes a unit exactly when it has a limit at all, or nothing is requested, and
      a reservation would leave every requested resource with a limit within it. */
  lemma PassesIff(i: Info, q: string, u: Unit, rate: real)
    requires u.uid !in i.reserved && SameAmount(u.charge, u.resource)
    ensures PassesQuota(i, u, rate) <==>
      && (i.max == map[] ==> u.resource == map[])
      && forall k :: k in u.resource && k in i.max ==> WithinAt(At(AddUnit(i, q, u).usage.used, k), i.max[k], rate)
  {
    forall k | k in u.resource && k in i.max
      ensures i.max[k] as real * rate - At(i.usage.used, k) as real >= u.resource[k] as real <==>
              WithinAt(At(AddUnit(i, q, u).usage.used, k), i.max[k], rate)
    {
      assert At(u.charge, k) == At(u.resource, k);
      UsedAfterAdd(i, q, u, k);
      FitsAt(At(i.usage.used, k), At(u.resource, k), i.max[k], rate);
    }
  }

  /** What is checked of a queue unit is its spec resource, whatever its admissions are charged. */
  lemma SpecIsChecked(i: Info, u: QueueUnit, rate: real)
    ensures PassesQuota(i, UnitOf(u), rate) <==>
      && (i.max == map[] ==> u.resource == map[])
      && forall k :: k in u.resource && k in i.max ==> At(i.usage.used, k) as real + u.resource[k] as real <= i.max[k] as real * rate
  {
    forall k | k in u.resource && k in i.max
      ensures i.max[k] as real * rate - At(i.usage.used, k) as real >= u.resource[k] as real <==>
              At(i.usage.used, k) as real + u.resource[k] as real <= i.max[k] as real * rate
    {
    }
  }

  /** Within its limit it passes exactly what leaves it so. */
  lemma PassesWithinIff(i: Info, q: string, u: Unit, rate: real)
    requires WithinLimit(i, rate) && u.uid !in i.reserved && SameAmount(u.charge, u.resource)
    ensures PassesQuota(i, u, rate) <==> (i.max == map[] ==> u.resource == map[]) && WithinLimit(AddUnit(i, q, u), rate)
  {
    AddWithinIff(i, q, u, rate);
    SameFits(i, u.charge, u.resource, rate);
  }

  /** No quota on the path without any limit meets a request. */
  predicate NoneIsClosed(infos: map<string, Info>, path: seq<string>, u: Unit) {
    forall i :: 0 <= i < |path| && path[i] in infos && infos[path[i]].max == map[] ==> u.resource == map[]
  }

  /** A path to the root holds exactly the quotas below the root that a reservation charges. */
  lemma PathIsChain(l: Ledger, q: string, path: seq<string>, p: string)
    requires l.infos.Keys == l.parent.Keys && RootIsTop(l.infos.Keys, l.parent) && RootPath(l.infos.Keys, l.parent, q, path)
    ensures p in path <==> p in ChainOf(l, q) && p != ROOT_QUOTA
  {
    var dom, s := l.infos.Keys, (set x | x in path) + {ROOT_QUOTA};
    assert ClosedUp(dom, l.parent, s) by {
      forall x | x in path ensures x in l.parent && l.parent[x] in s {
        var i :| 0 <= i < |path| && path[i] == x;
        RootPathNext(dom, l.parent, q, path, i);
      }
    }
    assert q in s by { if q != ROOT_QUOTA { assert path[0] == q; } }
    ChainIsLeastClosed(dom, l.parent, q);
    if p in path {
      var i :| 0 <= i < |path| && path[i] == p;
      OnPath(l, q, path, i);
    }
  }

  lemma {:induction false} OnPath(l: Ledger, q: string, path: seq<string>, i: nat)
    requires RootPath(l.infos.Keys, l.parent, q, path) && i < |path|
    ensures path[i] in ChainOf(l, q) && path[i] != ROOT_QUOTA
  {
    var dom := l.infos.Keys;
    RootPathSuffix(dom, l.parent, q, path, i);
    ChainIsLeastClosed(dom, l.parent, q);
    if i > 0 {
      OnPath(l, q, path, i - 1);
      RootPathNext(dom, l.parent, q, path, i - 1);
      RootPathSuffix(dom, l.parent, q, path, i - 1);
    }
  }

  /** CheckUsage succeeds exactly when the quota reaches the root, no quota on the way is
      without any limit while something is requested, and the reservation made in that state
      keeps every limit. */
  lemma CheckIsExact(l: Ledger, b: Book, u: Unit, rate: real)
    requires l.infos.Keys == l.parent.Keys && RootIsTop(l.infos.Keys, l.parent)
    requires Represents(l, b) && WithinLimits(l.infos, rate) && SameAmount(u.charge, u.resource) && u.uid !in b.units
    ensures CheckUsage(l, u.quota, u, rate) <==>
      exists path :: RootPath(l.infos.Keys, l.parent, u.quota, path) && NoneIsClosed(l.infos, path, u) &&
                     WithinLimits(Step(l, OnReserve(u)).infos, rate)
  {
    CheckUsageIff(l, u.quota, u, rate);
    if path :| RootPath(l.infos.Keys, l.parent, u.quota, path) {
      PathPassesIff(l, b, u, path, rate);
      forall other | RootPath(l.infos.Keys, l.parent, u.quota, other) ensures other == path {
        RootPathUnique(l.infos.Keys, l.parent, u.quota, other, path);
      }
    }
  }

  lemma PathPassesIff(l: Ledger, b: Book, u: Unit, path: seq<string>, rate: real)
    requires l.infos.Keys == l.parent.Keys && RootIsTop(l.infos.Keys, l.parent) && RootPath(l.infos.Keys, l.parent, u.quota, path)
    requires Represents(l, b) && WithinLimits(l.infos, rate) && SameAmount(u.charge, u.resource) && u.uid !in b.units
    ensures AllPass(l.infos, path, u, rate) <==>
            NoneIsClosed(l.infos, path, u) && WithinLimits(Step(l, OnReserve(u)).infos, rate)
  {
    forall p ensures p in path <==> p in ChainOf(l, u.quota) && p != ROOT_QUOTA {
      PathIsChain(l, u.quota, path, p);
    }
    forall i | 0 <= i < |path| ensures path[i] in l.infos {
      RootPathSuffix(l.infos.Keys, l.parent, u.quota, path, i);
    }
    if u.quota in l.infos {
      ReserveWithinIff(l, b, u, rate);
      FitsOnPath(l, u, path, rate);
    } else {
      assert path == [];
    }
  }

  lemma FitsOnPath(l: Ledger, u: Unit, path: seq<string>, rate: real)
    requires forall p :: p in path <==> p in ChainOf(l, u.quota) && p != ROOT_QUOTA
    requires forall i :: 0 <= i < |path| ==> path[i] in l.infos
    ensures FitsOn(l, u.quota, u.resource, rate) <==>
            forall i :: 0 <= i < |path| ==> Fits(l.infos[path[i]].max, l.infos[path[i]].usage.used, u.resource, rate)
  {
    if FitsOn(l, u.quota, u.resource, rate) {
      forall i | 0 <= i < |path| ensures Fits(l.infos[path[i]].max, l.infos[path[i]].usage.used, u.resource, rate) {
        assert path[i] in path;
      }
    }
  }

  lemma UnreserveWithin(l: Ledger, b: Book, q0: string, uid: string, rate: real)
    requires Represents(l, b) && NonNegativeBook(b) && WithinLimits(l.infos, rate)
    ensures WithinLimits(DeleteOnChain(l.infos, l.parent, q0, uid), rate)
  {
    var infos' := DeleteOnChain(l.infos, l.parent, q0, uid);
    forall q | q in infos' && q != ROOT_QUOTA ensures WithinLimit(infos'[q], rate) {
      assert QuotaRepresents(l.infos[q], q, b.units, l.infos.Keys, l.parent);
      DeleteWithin(l.infos[q], q, uid, rate);
    }
  }

  lemma ResizeOnReplaces(l: Ledger, b: Book, u: Unit, rate: real)
    requires Represents(l, b) && u.uid in b.units && b.units[u.uid].quota == u.quota
    ensures var gone := DeleteOnChain(l.infos, l.parent, u.quota, u.uid);
      WithinLimits(ResizeOnChain(l.infos, l.parent, u.quota, u), rate) <==>
      WithinLimits(AddOnChain(gone, l.parent, u.quota, u), rate)
  {
    var gone := DeleteOnChain(l.infos, l.parent, u.quota, u.uid);
    assert gone.Keys == l.infos.Keys;
    var r, s := ResizeOnChain(l.infos, l.parent, u.quota, u), AddOnChain(gone, l.parent, u.quota, u);
    assert r.Keys == s.Keys;
    forall p | p in l.infos ensures WithinLimit(r[p], rate) <==> WithinLimit(s[p], rate) {
      assert QuotaRepresents(l.infos[p], p, b.units, l.infos.Keys, l.parent);
      if p in ChainOf(l, u.quota) {
        ResizeIsReplace(l.infos[p], p, u, rate);
      }
    }
  }

  /** What a growing step has to find: room for the charge of a new reservation, or for
      the new charge of a unit whose old one has been given back. */
  ghost predicate StepFits(l: Ledger, b: Book, e: Event, rate: real) {
    match e
    case OnReserve(u) => u.uid in b.units || u.quota !in l.infos || FitsOn(l, u.quota, u.charge, rate)
    case OnDequeueComplete(u) => u.uid in b.units || u.quota !in l.infos || FitsOn(l, u.quota, u.charge, rate)
    case OnAddAssignedJob(u) => u.uid in b.units || u.quota !in l.infos || FitsOn(l, u.quota, u.charge, rate)
    case OnUnreserve(u) => true
    case OnRemove(u) => true
    case OnResize(before, after) =>
      || after.uid in b.scheduling
      || after.quota !in l.infos
      || (before.quota == after.quota && after.uid !in b.units)
      || FitsOn(Unreserve(l, before.quota, before).0, after.quota, after.charge, rate)
  }

  lemma ReserveStepIff(l: Ledger, b: Book, u: Unit, rate: real)
    requires Represents(l, b) && WithinLimits(l.infos, rate)
    ensures WithinLimits(Reserve(l, u.quota, u).0.infos, rate) <==>
            u.uid in b.units || u.quota !in l.infos || FitsOn(l, u.quota, u.charge, rate)
  {
    if u.uid !in b.units && u.quota in l.infos {
      ReserveOnIff(l, b, u, rate);
    }
  }

  lemma ResizeStepIff(l: Ledger, b: Book, before: Unit, after: Unit, rate: real)
    requires Represents(l, b) && NonNegativeBook(b) && WithinLimits(l.infos, rate)
    requires Coherent(b, OnResize(before, after)) && after.uid !in b.scheduling
    ensures WithinLimits(Resize(l, before, after).0.infos, rate) <==> StepFits(l, b, OnResize(before, after), rate)
  {
    var l1, b1 := Unreserve(l, before.quota, before).0, Unbooked(b, l.infos.Keys, before);
    UnreserveRepresents(l, b, before);
    StableTree(l, OnUnreserve(before));
    UnreserveWithin(l, b, before.quota, before.uid, rate);
    if before.quota != after.quota {
      ReserveStepIff(l1, b1, after, rate);
    } else if after.uid in b.units {
      ReserveOnIff(l1, b1, after, rate);
      ResizeOnReplaces(l, b, after, rate);
    }
  }

  /** A step keeps all limits exactly when what it adds fits where it happens. */
  lemma StepWithinIff(l: Ledger, b: Book, e: Event, rate: real)
    requires Represents(l, b) && NonNegativeBook(b) && WithinLimits(l.infos, rate) && Coherent(b, e)
    ensures WithinLimits(Step(l, e).infos, rate) <==> StepFits(l, b, e, rate)
  {
    match e
    case OnReserve(u) =>
      var l0, b0 := l.(scheduling := l.scheduling + {u.uid}), b.(scheduling := b.scheduling + {u.uid});
      ReserveStepIff(l0, b0, u, rate);
    case OnDequeueComplete(u) => ReserveStepIff(l, b, u, rate);
    case OnAddAssignedJob(u) => ReserveStepIff(l, b, u, rate);
    case OnUnreserve(u) => UnreserveWithin(l, b, u.quota, u.uid, rate);
    case OnRemove(u) => UnreserveWithin(l, b, u.quota, u.uid, rate);
    case OnResize(before, after) => if after.uid !in b.scheduling { ResizeStepIff(l, b, before, after, rate); }
  }

  // ---------- Runs ----------

  predicate NonNegativeEvent(e: Event) {
    match e
    case OnReserve(u) => NonNegative(u.charge)
    case OnDequeueComplete(u) => NonNegative(u.charge)
    case OnAddAssignedJob(u) => NonNegative(u.charge)
    case OnResize(before, after) => NonNegative(after.charge)
    case _ => true
  }

  ghost predicate NonNegativeRun(es: seq<Event>) {
    forall i :: 0 <= i < |es| ==> NonNegativeEvent(es[i])
  }

  lemma StepNonNegative(b: Book, dom: set<string>, e: Event)
    requires NonNegativeBook(b) && NonNegativeEvent(e)
    ensures NonNegativeBook(BookStep(b, dom, e))
  {}

  lemma {:induction false} RunNonNegative(b: Book, dom: set<string>, es: seq<Event>)
    requires NonNegativeBook(b) && NonNegativeRun(es)
    ensures NonNegativeBook(BookRun(b, dom, es))
    decreases |es|
  {
    if es != [] {
      RunNonNegative(b, dom, es[..|es| - 1]);
      StepNonNegative(BookRun(b, dom, es[..|es| - 1]), dom, es[|es| - 1]);
    }
  }

  ghost predicate AlwaysWithin(l: Ledger, es: seq<Event>, rate: real) {
    forall n :: 0 <= n <= |es| ==> WithinLimits(Run(l, es[..n]).infos, rate)
  }

  /** Every step fits in the state it meets. */
  ghost predicate AllFit(l: Ledger, b: Book, es: seq<Event>, rate: real) {
    forall n :: 0 <= n < |es| ==> StepFits(Run(l, es[..n]), BookRun(b, l.infos.Keys, es[..n]), es[n], rate)
  }

  lemma RunOne(l: Ledger, es: seq<Event>, n: nat)
    requires n < |es|
    ensures Run(l, es[..n + 1]) == Step(Run(l, es[..n]), es[n])
  {
    assert es[..n + 1][..n] == es[..n];
  }

  lemma CoherentPrefix(b: Book, dom: set<string>, es: seq<Event>, n: nat)
    requires CoherentRun(b, dom, es) && n <= |es|
    ensures CoherentRun(b, dom, es[..n])
  {
    forall i | 0 <= i < n ensures Coherent(BookRun(b, dom, es[..n][..i]), es[..n][i]) {
      assert es[..n][..i] == es[..i];
    }
  }

  /** The step condition at one point of a run. */
  lemma WithinNextIff(l: Ledger, b: Book, es: seq<Event>, n: nat, rate: real)
    requires Represents(l, b) && NonNegativeBook(b) && CoherentRun(b, l.infos.Keys, es) && NonNegativeRun(es)
    requires n < |es| && WithinLimits(Run(l, es[..n]).infos, rate)
    ensures WithinLimits(Run(l, es[..n + 1]).infos, rate) <==>
            StepFits(Run(l, es[..n]), BookRun(b, l.infos.Keys, es[..n]), es[n], rate)
  {
    CoherentPrefix(b, l.infos.Keys, es, n);
    LedgerRefinesBook(l, b, es[..n]);
    RunNonNegative(b, l.infos.Keys, es[..n]);
    RunOne(l, es, n);
    StepWithinIff(Run(l, es[..n]), BookRun(b, l.infos.Keys, es[..n]), es[n], rate);
  }

  lemma {:induction false} WithinAfter(l: Ledger, b: Book, es: seq<Event>, n: nat, rate: real)
    requires Represents(l, b) && NonNegativeBook(b) && CoherentRun(b, l.infos.Keys, es) && NonNegativeRun(es)
    requires WithinLimits(l.infos, rate) && AllFit(l, b, es, rate) && n <= |es|
    ensures WithinLimits(Run(l, es[..n]).infos, rate)
  {
    if n > 0 {
      WithinAfter(l, b, es, n - 1, rate);
      WithinNextIff(l, b, es, n - 1, rate);
    }
  }

  /** Over every run of plugin events the limits hold after every prefix exactly when
      every growing step fits where it happens. */
  lemma LimitsHoldIff(l: Ledger, b: Book, es: seq<Event>, rate: real)
    requires Represents(l, b) && NonNegativeBook(b) && WithinLimits(l.infos, rate)
    requires CoherentRun(b, l.infos.Keys, es) && NonNegativeRun(es)
    ensures AlwaysWithin(l, es, rate) <==> AllFit(l, b, es, rate)
  {
    if AllFit(l, b, es, rate) {
      forall n | 0 <= n <= |es| ensures WithinLimits(Run(l, es[..n]).infos, rate) {
        WithinAfter(l, b, es, n, rate);
      }
    }
    if AlwaysWithin(l, es, rate) {
      forall n | 0 <= n < |es| ensures StepFits(Run(l, es[..n]), BookRun(b, l.infos.Keys, es[..n]), es[n], rate) {
        assert WithinLimits(Run(l, es[..n]).infos, rate) && WithinLimits(Run(l, es[..n + 1]).infos, rate);
        WithinNextIff(l, b, es, n, rate);
      }
    }
  }

  // ---------- Admission that checks and reserves in one step ----------

  ghost predicate GuardedRun(l: Ledger, b: Book, es: seq<Event>, rate: real) {
    forall i :: 0 <= i < |es| ==> Guarded(Run(l, es[..i]), BookRun(b, l.infos.Keys, es[..i]), es[i], rate)
  }

  lemma CheckedFits(l: Ledger, u: Unit, rate: real)
    requires l.infos.Keys == l.parent.Keys && RootIsTop(l.infos.Keys, l.parent) && WithinLimits(l.infos, rate)
    requires CheckUsage(l, u.quota, u, rate) && SameAmount(u.charge, u.resource)
    ensures FitsOn(l, u.quota, u.charge, rate)
  {
    CheckedChain(l, u.quota, u, rate);
    forall p | p in ChainOf(l, u.quota) && p != ROOT_QUOTA && p in l.infos
      ensures Fits(l.infos[p].max, l.infos[p].usage.used, u.charge, rate)
    {
      SameFits(l.infos[p], u.resource, u.charge, rate);
    }
  }

  /** A charge that does not grow fits where the old one was. */
  lemma ShrunkFits(l: Ledger, b: Book, before: Unit, after: Unit, rate: real)
    requires Represents(l, b) && WithinLimits(l.infos, rate)
    requires before.quota == after.quota && before.uid == after.uid && after.uid in b.units
    requires b.units[after.uid].quota == after.quota && AtMost(after.charge, b.units[after.uid].charge)
    ensures FitsOn(Unreserve(l, before.quota, before).0, after.quota, after.charge, rate)
  {
    var l1 := Unreserve(l, before.quota, before).0;
    assert l1.infos.Keys == l.infos.Keys;
    forall p | p in ChainOf(l1, after.quota) && p != ROOT_QUOTA && p in l1.infos
      ensures Fits(l1.infos[p].max, l1.infos[p].usage.used, after.charge, rate)
    {
      assert QuotaRepresents(l.infos[p], p, b.units, l.infos.Keys, l.parent);
      GivenBackFits(l.infos[p], p, after, rate);
    }
  }

  lemma GivenBackFits(i: Info, q: string, u: Unit, rate: real)
    requires WithinLimit(i, rate) && u.uid in i.reserved && AtMost(u.charge, i.reserved[u.uid].charge)
    ensures Fits(i.max, DeleteUnit(i, q, u.uid).usage.used, u.charge, rate)
  {
    var used' := DeleteUnit(i, q, u.uid).usage.used;
    forall k | k in u.charge && k in i.max ensures i.max[k] as real * rate - At(used', k) as real >= u.charge[k] as real {
      UsedAfterDelete(i, q, u.uid, k);
      assert At(u.charge, k) <= At(i.reserved[u.uid].charge, k);
      assert WithinAt(At(i.usage.used, k), i.max[k], rate);
      LessIsWithin(At(i.usage.used, k), At(used', k) + u.charge[k], i.max[k], rate);
      FitsAt(At(used', k), u.charge[k], i.max[k], rate);
    }
  }

  lemma GuardedFits(l: Ledger, b: Book, e: Event, rate: real)
    requires l.infos.Keys == l.parent.Keys && RootIsTop(l.infos.Keys, l.parent)
    requires Represents(l, b) && WithinLimits(l.infos, rate) && Coherent(b, e) && Guarded(l, b, e, rate)
    ensures StepFits(l, b, e, rate)
  {
    match e
    case OnReserve(u) => if u.uid !in b.units { CheckedFits(l, u, rate); }
    case OnResize(before, after) => if after.uid in b.units { ShrunkFits(l, b, before, after, rate); }
    case _ =>
  }

  /** Quota safety: over every run whose reservations are checked and made in one step,
      no quota below the root uses more of a limited resource than its oversold limit. */
  lemma {:induction false} LimitsHoldOverRuns(l: Ledger, b: Book, es: seq<Event>, rate: real)
    requires l.infos.Keys == l.parent.Keys && RootIsTop(l.infos.Keys, l.parent)
    requires Represents(l, b) && NonNegativeBook(b) && WithinLimits(l.infos, rate)
    requires CoherentRun(b, l.infos.Keys, es) && NonNegativeRun(es) && GuardedRun(l, b, es, rate)
    ensures WithinLimits(Run(l, es).infos, rate)
    decreases |es|
  {
    if es != [] {
      var n := |es| - 1;
      assert forall i :: 0 <= i < n ==> es[..n][..i] == es[..i];
      CoherentPrefix(b, l.infos.Keys, es, n);
      LimitsHoldOverRuns(l, b, es[..n], rate);
      LedgerRefinesBook(l, b, es[..n]);
      GuardedFits(Run(l, es[..n]), BookRun(b, l.infos.Keys, es[..n]), es[n], rate);
      WithinNextIff(l, b, es, n, rate);
      assert es[..n + 1] == es;
    }
  }

  // ---------- The same for queue units ----------

  /** The plugin's events with the queue units they carry. */
  datatype UnitEvent =
    | ReserveUnit(unit: QueueUnit)
    | CompleteUnit(unit: QueueUnit)
    | AssignUnit(unit: QueueUnit)
    | UnreserveUnit(unit: QueueUnit)
    | RemoveUnit(unit: QueueUnit)
    | ResizeUnitTo(before: QueueUnit, after: QueueUnit)

  function EventOf(e: UnitEvent): Event {
    match e
    case ReserveUnit(u) => OnReserve(UnitOf(u))
    case CompleteUnit(u) => OnDequeueComplete(UnitOf(u))
    case AssignUnit(u) => OnAddAssignedJob(UnitOf(u))
    case UnreserveUnit(u) => OnUnreserve(UnitOf(u))
    case RemoveUnit(u) => OnRemove(UnitOf(u))
    case ResizeUnitTo(before, after) => OnResize(UnitOf(before), UnitOf(after))
  }

  function EventsOf(es: seq<UnitEvent>): seq<Event> {
    seq(|es|, i requires 0 <= i < |es| => EventOf(es[i]))
  }

  /** The scheduler reserves a unit it has just moved to Dequeued, with nothing admitted
      yet, and has checked in the same state; otherwise reservations only shrink or end. */
  ghost predicate UnitGuarded(l: Ledger, b: Book, e: UnitEvent, rate: real) {
    match e
    case ReserveUnit(u) =>
      u.uid in b.units || (u.admissions == [] && u.phase == Dequeued && CheckUsage(l, u.quota, UnitOf(u), rate))
    case CompleteUnit(u) => u.uid in b.units
    case AssignUnit(u) => u.uid in b.units
    case ResizeUnitTo(before, after) =>
      before.quota == after.quota && (after.uid in b.units ==> AtMost(ReservedResource(after), b.units[after.uid].charge))
    case _ => true
  }

  ghost predicate UnitGuardedRun(l: Ledger, b: Book, es: seq<UnitEvent>, rate: real) {
    forall i :: 0 <= i < |es| ==>
      UnitGuarded(Run(l, EventsOf(es)[..i]), BookRun(b, l.infos.Keys, EventsOf(es)[..i]), es[i], rate)
  }

  /** What is charged for a fresh unit is what CheckUsage looked at. */
  lemma FreshIsGuarded(l: Ledger, b: Book, u: QueueUnit, rate: real)
    requires u.admissions == [] && u.phase == Dequeued && CheckUsage(l, u.quota, UnitOf(u), rate)
    ensures Guarded(l, b, OnReserve(UnitOf(u)), rate) && NonNegativeEvent(OnReserve(UnitOf(u)))
  {
    ReservedResourceNonNegative(u);
    forall k ensures At(ReservedResource(u), k) == At(u.resource, k) {
      FreshChargeIsSpecResource(u, k);
    }
  }

  lemma UnitEventGuarded(l: Ledger, b: Book, e: UnitEvent, rate: real)
    requires UnitGuarded(l, b, e, rate)
    ensures Guarded(l, b, EventOf(e), rate) && NonNegativeEvent(EventOf(e))
  {
    match e
    case ReserveUnit(u) =>
      ReservedResourceNonNegative(u);
      if u.uid !in b.units { FreshIsGuarded(l, b, u, rate); }
    case CompleteUnit(u) => ReservedResourceNonNegative(u);
    case AssignUnit(u) => ReservedResourceNonNegative(u);
    case ResizeUnitTo(before, after) => ReservedResourceNonNegative(after);
    case _ =>
  }

  /** Every booked unit is a queue unit at some time. */
  ghost predicate UnitBook(b: Book) {
    forall uid :: uid in b.units ==> exists u: QueueUnit :: b.units[uid] == UnitOf(u)
  }

  lemma UnitBookNonNegative(b: Book)
    requires UnitBook(b)
    ensures NonNegativeBook(b)
  {
    forall uid | uid in b.units ensures NonNegative(b.units[uid].charge) {
      var u: QueueUnit :| b.units[uid] == UnitOf(u);
      ReservedResourceNonNegative(u);
    }
  }

  /** Quota safety for queue units: the amounts are those the code computes from specs
      and admissions, and the amount checked is the amount charged. */
  lemma UnitLimitsHoldOverRuns(l: Ledger, b: Book, es: seq<UnitEvent>, rate: real)
    requires l.infos.Keys == l.parent.Keys && RootIsTop(l.infos.Keys, l.parent)
    requires Represents(l, b) && UnitBook(b) && WithinLimits(l.infos, rate)
    requires CoherentRun(b, l.infos.Keys, EventsOf(es)) && UnitGuardedRun(l, b, es, rate)
    ensures WithinLimits(Run(l, EventsOf(es)).infos, rate)
  {
    var evs := EventsOf(es);
    UnitBookNonNegative(b);
    forall i | 0 <= i < |evs|
      ensures Guarded(Run(l, evs[..i]), BookRun(b, l.infos.Keys, evs[..i]), evs[i], rate) && NonNegativeEvent(evs[i])
    {
      UnitEventGuarded(Run(l, evs[..i]), BookRun(b, l.infos.Keys, evs[..i]), es[i], rate);
    }
    LimitsHoldOverRuns(l, b, evs, rate);
  }

  /** Check and reserve have to be one step: two units that both pass against the same
      ledger can together exceed the limit. */
  lemma StaleCheckOversells()
    ensures exists l: Ledger, u: Unit, v: Unit, rate: real ::
      && l.infos.Keys == l.parent.Keys && RootIsTop(l.infos.Keys, l.parent) && WithinLimits(l.infos, rate)
      && CheckUsage(l, u.quota, u, rate) && CheckUsage(l, v.quota, v, rate)
      && SameAmount(u.charge, u.resource) && SameAmount(v.charge, v.resource)
      && !WithinLimits(Step(Step(l, OnReserve(u)), OnReserve(v)).infos, rate)
  {
    var info := NewInfo(map[], map["cpu" := 10]);
    var l := Ledger(map[], {}, map["a" := info], map["a" := ROOT_QUOTA]);
    var u, v := Unit("u", "a", map["cpu" := 6], map["cpu" := 6]), Unit("v", "a", map["cpu" := 6], map["cpu" := 6]);
    assert CheckUsage(l, "a", u, 1.0) && CheckUsage(l, "a", v, 1.0);
    var l1 := Step(l, OnReserve(u));
    var l2 := Step(l1, OnReserve(v));
    assert l1.infos["a"] == AddUnit(info, "a", u);
    UsedAfterAdd(info, "a", u, "cpu");
    assert l2.infos["a"] == AddUnit(l1.infos["a"], "a", v);
    UsedAfterAdd(l1.infos["a"], "a", v, "cpu");
    assert !WithinAt(12, 10, 1.0);
    assert !WithinLimit(l2.infos["a"], 1.0);
  }
}
