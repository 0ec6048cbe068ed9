/** The quota cache and its quotas as the objects they are: counters updated in place
    by loops that walk the parent map. Each method is proved to do to the object what
    the corresponding operation of the ledger does to its value. */
module QuotaCache {
  import opened Amounts
  import opened QuotaTree
  import opened L = QuotaLedger
  import S = QuotaSafety
  import R = QuotaReversal

  method ChargeCounters(used: Amount, self: Amount, children: Amount, sameQuota: bool, res: Amount)
      returns (used': Amount, self': Amount, children': Amount)
    ensures Counters(used', self', children') == Charge(Counters(used, self, children), sameQuota, res)
  {
    used', self', children' := used, self, children;
    used' := UpdateUsage(used, res, 1);
    if sameQuota {
      self' := UpdateUsage(self, res, 1);
    } else {
      children' := UpdateUsage(children, res, 1);
    }
  }

  method RefundCounters(used: Amount, self: Amount, children: Amount, sameQuota: bool, res: Amount)
      returns (used': Amount, self': Amount, children': Amount)
    ensures Counters(used', self', children') == Refund(Counters(used, self, children), sameQuota, res)
  {
    used', self', children' := used, self, children;
    used' := UpdateUsage(used, res, -1);
    if sameQuota {
      self' := UpdateUsage(self, res, -1);
    } else {
      children' := UpdateUsage(children, res, -1);
    }
  }

  class ElasticQuotaInfo {
    const name: string
    var min: Amount
    var max: Amount
    var used: Amount
    var selfUsed: Amount
    var childrenUsed: Amount
    var guaranteedUsed: Amount
    var selfGuaranteedUsed: Amount
    var childrenGuaranteedUsed: Amount
    var reserved: map<string, Unit>

    function View(): Info
      reads this
    {
      Info(min, max, Counters(used, selfUsed, childrenUsed),
           Counters(guaranteedUsed, selfGuaranteedUsed, childrenGuaranteedUsed), reserved)
    }

    constructor (name: string, min: Amount, max: Amount)
      ensures this.name == name && View() == NewInfo(min, max)
    {
      this.name, this.min, this.max := name, min, max;
      used, selfUsed, childrenUsed := map[], map[], map[];
      guaranteedUsed, selfGuaranteedUsed, childrenGuaranteedUsed := map[], map[], map[];
      reserved := map[];
    }

    method AddQueueUnit(currentQuota: string, u: Unit)
      modifies this
      ensures View() == AddUnit(old(View()), currentQuota, u)
    {
      if u.uid in reserved {
        return;
      }
      reserved := reserved[u.uid := u];
      var sameQuota := u.quota == currentQuota;
      used, selfUsed, childrenUsed := ChargeCounters(used, selfUsed, childrenUsed, sameQuota, u.charge);
      guaranteedUsed, selfGuaranteedUsed, childrenGuaranteedUsed :=
        ChargeCounters(guaranteedUsed, selfGuaranteedUsed, childrenGuaranteedUsed, sameQuota, u.charge);
    }

    /** The refund is computed from the stored unit, not from the one passed in. */
    method DeleteQueueUnit(currentQuota: string, u: Unit)
      modifies this
      ensures View() == DeleteUnit(old(View()), currentQuota, u.uid)
    {
      if u.uid !in reserved {
        return;
      }
      var stored := reserved[u.uid];
      reserved := reserved - {stored.uid};
      var sameQuota := stored.quota == currentQuota;
      used, selfUsed, childrenUsed := RefundCounters(used, selfUsed, childrenUsed, sameQuota, stored.charge);
      guaranteedUsed, selfGuaranteedUsed, childrenGuaranteedUsed :=
        RefundCounters(guaranteedUsed, selfGuaranteedUsed, childrenGuaranteedUsed, sameQuota, stored.charge);
    }

    method ResizeQueueUnit(currentQuota: string, u: Unit)
      modifies this
      ensures View() == ResizeUnit(old(View()), currentQuota, u)
    {
      if u.uid !in reserved {
        return;
      }
      if reserved[u.uid].charge == u.charge {
        reserved := reserved[u.uid := u];
        return;
      }
      DeleteQueueUnit(currentQuota, u);
      AddQueueUnit(currentQuota, u);
    }

    method CheckUsage(u: Unit, rate: real) returns (ok: bool)
      ensures ok == S.PassesQuota(View(), u, rate)
    {
      if max == map[] && u.resource != map[] {
        return false;
      }
      var todo := u.resource.Keys;
      while todo != {}
        invariant todo <= u.resource.Keys
        invariant forall k :: k in u.resource.Keys - todo && k in max ==>
                    max[k] as real * rate - At(used, k) as real >= u.resource[k] as real
      {
        var k :| k in todo;
        if k in max && max[k] as real * rate - At(used, k) as real < u.resource[k] as real {
          return false;
        }
        todo := todo - {k};
      }
      return true;
    }
  }

  class Cache {
    var reserved: map<string, string>
    var scheduling: set<string>
    var quotas: map<string, ElasticQuotaInfo>
    var quotaParent: map<string, string>

    /** Every quota is known under its own name. */
    ghost predicate Named()
      reads this`quotas, quotas.Values
    {
      forall q :: q in quotas ==> quotas[q].name == q
    }

    /** And exactly the known quotas have a parent entry. */
    ghost predicate Valid()
      reads this`quotas, this`quotaParent, quotas.Values
    {
      Named() && quotas.Keys == quotaParent.Keys
    }

    ghost function Infos(): map<string, Info>
      reads this`quotas, quotas.Values
    {
      map q | q in quotas :: quotas[q].View()
    }

    ghost function View(): Ledger
      reads this, quotas.Values
    {
      Ledger(reserved, scheduling, Infos(), quotaParent)
    }

    constructor ()
      ensures Valid() && View() == Ledger(map[], {}, map[], map[])
    {
      reserved, scheduling, quotas, quotaParent := map[], {}, map[], map[];
    }

    ghost predicate Holds(cur: ElasticQuotaInfo?)
      reads this`quotas, quotas.Values
    {
      Named() && (cur != null ==> cur.name in quotas && quotas[cur.name] == cur)
    }

    /** The quotas a walk has visited and those it still visits from `cur`. */
    ghost function Covered(cur: ElasticQuotaInfo?, visited: set<string>): set<string>
      reads this`quotas, this`quotaParent
    {
      visited + if cur == null then {} else Ahead(quotas.Keys, quotaParent, cur.name, visited)
    }

    function ParentOf(info: ElasticQuotaInfo): ElasticQuotaInfo?
      reads this`quotas, this`quotaParent
    {
      if info.name in quotaParent && quotaParent[info.name] in quotas then quotas[quotaParent[info.name]] else null
    }

    /** One step of a walk: what is behind and ahead of it stays the chain. */
    lemma CoveredStep(cur: ElasticQuotaInfo, visited: set<string>)
      requires Holds(cur) && cur.name !in visited
      ensures Covered(cur, visited) == Covered(ParentOf(cur), visited + {cur.name})
    {
      if cur.name in quotaParent {
        var rest := Ahead(quotas.Keys, quotaParent, quotaParent[cur.name], visited + {cur.name});
        assert Ahead(quotas.Keys, quotaParent, cur.name, visited) == {cur.name} + rest;
        assert visited + ({cur.name} + rest) == visited + {cur.name} + rest;
      }
    }

    lemma CoveredStart(start: ElasticQuotaInfo)
      requires Holds(start)
      ensures Covered(start, {}) == Chain(quotas.Keys, quotaParent, start.name)
      ensures Infos().Keys == quotas.Keys
    {}

    /** Writing one quota's object changes one entry of the ledger. */
    lemma OneQuotaChanged(cur: ElasticQuotaInfo, before: map<string, Info>)
      requires Holds(cur) && quotas.Keys == before.Keys
      requires forall p :: p in quotas && p != cur.name ==> quotas[p].View() == before[p]
      ensures Infos() == before[cur.name := cur.View()]
    {}

    /** One step of a walk: the current quota is charged and the walk moves to its parent. */
    method AddStep(cur: ElasticQuotaInfo, ghost visited: set<string>, u: Unit) returns (next: ElasticQuotaInfo?)
      requires Holds(cur) && cur.name !in visited
      modifies cur
      ensures Holds(next) && Covered(next, visited + {cur.name}) == old(Covered(cur, visited))
      ensures Infos() == old(Infos())[cur.name := AddUnit(old(Infos())[cur.name], cur.name, u)]
    {
      CoveredStep(cur, visited);
      cur.AddQueueUnit(cur.name, u);
      OneQuotaChanged(cur, old(Infos()));
      next := ParentOf(cur);
    }

    method DeleteStep(cur: ElasticQuotaInfo, ghost visited: set<string>, u: Unit) returns (next: ElasticQuotaInfo?)
      requires Holds(cur) && cur.name !in visited
      modifies cur
      ensures Holds(next) && Covered(next, visited + {cur.name}) == old(Covered(cur, visited))
      ensures Infos() == old(Infos())[cur.name := DeleteUnit(old(Infos())[cur.name], cur.name, u.uid)]
    {
      CoveredStep(cur, visited);
      cur.DeleteQueueUnit(cur.name, u);
      OneQuotaChanged(cur, old(Infos()));
      next := ParentOf(cur);
    }

    method ResizeStep(cur: ElasticQuotaInfo, ghost visited: set<string>, u: Unit) returns (next: ElasticQuotaInfo?)
      requires Holds(cur) && cur.name !in visited
      modifies cur
      ensures Holds(next) && Covered(next, visited + {cur.name}) == old(Covered(cur, visited))
      ensures Infos() == old(Infos())[cur.name := ResizeUnit(old(Infos())[cur.name], cur.name, u)]
    {
      CoveredStep(cur, visited);
      cur.ResizeQueueUnit(cur.name, u);
      OneQuotaChanged(cur, old(Infos()));
      next := ParentOf(cur);
    }

    method Reserve(q: string, u: Unit) returns (o: Outcome)
      requires Valid()
      modifies this`reserved, quotas.Values
      ensures Valid()
      ensures (View(), o) == L.Reserve(old(View()), q, u)
    {
      if u.uid in reserved {
        return if reserved[u.uid] == q then Done else Failure;
      }
      if q !in quotas {
        return Failure;
      }
      ghost var infos := Infos();
      reserved := reserved[u.uid := q];
      assert Infos() == infos;
      AddWalk(quotas[q], u);
      return Done;
    }

    method AddWalk(start: ElasticQuotaInfo, u: Unit)
      requires Holds(start)
      modifies quotas.Values
      ensures Named() && Infos() == AddOnChain(old(Infos()), quotaParent, start.name, u)
    {
      ghost var before := Infos();
      var cur: ElasticQuotaInfo? := start;
      var visited := {};
      assert Infos() == AddOn(before, visited, u);
      CoveredStart(start);
      while cur != null && cur.name !in visited
        invariant Holds(cur)
        invariant Covered(cur, visited) == Chain(quotas.Keys, quotaParent, start.name)
        invariant Infos() == AddOn(before, visited, u)
        decreases quotas.Keys - visited
      {
        AddOnMore(before, visited, cur.name, u);
        var next := AddStep(cur, visited, u);
        visited := visited + {cur.name};
        cur := next;
      }
    }

    method Unreserve(q: string, u: Unit) returns (o: Outcome)
      requires Valid()
      modifies this`reserved, quotas.Values
      ensures Valid()
      ensures (View(), o) == L.Unreserve(old(View()), q, u)
    {
      if u.uid !in reserved {
        return Done;
      }
      if q !in quotas {
        return Failure;
      }
      reserved := reserved - {u.uid};
      DeleteWalk(quotas[q], u);
      return Done;
    }

    method DeleteWalk(start: ElasticQuotaInfo, u: Unit)
      requires Holds(start)
      modifies quotas.Values
      ensures Named() && Infos() == DeleteOnChain(old(Infos()), quotaParent, start.name, u.uid)
    {
      ghost var before := Infos();
      var cur: ElasticQuotaInfo? := start;
      var visited := {};
      assert Infos() == DeleteOn(before, visited, u.uid);
      CoveredStart(start);
      while cur != null && cur.name !in visited
        invariant Holds(cur)
        invariant Covered(cur, visited) == Chain(quotas.Keys, quotaParent, start.name)
        invariant Infos() == DeleteOn(before, visited, u.uid)
        decreases quotas.Keys - visited
      {
        DeleteOnMore(before, visited, cur.name, u.uid);
        var next := DeleteStep(cur, visited, u);
        visited := visited + {cur.name};
        cur := next;
      }
    }

    method ResizeInPlace(q: string, u: Unit) returns (o: Outcome)
      requires Valid()
      modifies quotas.Values
      ensures Valid()
      ensures (View(), o) == L.ResizeInPlace(old(View()), q, u)
    {
      if u.uid !in reserved {
        return Done;
      }
      if q !in quotas {
        return Failure;
      }
      ResizeWalk(quotas[q], u);
      return Done;
    }

    method ResizeWalk(start: ElasticQuotaInfo, u: Unit)
      requires Holds(start)
      modifies quotas.Values
      ensures Named() && Infos() == ResizeOnChain(old(Infos()), quotaParent, start.name, u)
    {
      ghost var before := Infos();
      var cur: ElasticQuotaInfo? := start;
      var visited := {};
      CoveredStart(start);
      assert Infos() == ResizeOn(before, visited, u);
      while cur != null && cur.name !in visited
        invariant Holds(cur)
        invariant Covered(cur, visited) == Chain(quotas.Keys, quotaParent, start.name)
        invariant Infos() == ResizeOn(before, visited, u)
        decreases quotas.Keys - visited
      {
        ResizeOnMore(before, visited, cur.name, u);
        var next := ResizeStep(cur, visited, u);
        visited := visited + {cur.name};
        cur := next;
      }
    }

    method Resize(before: Unit, after: Unit) returns (o: Outcome)
      requires Valid()
      modifies this`reserved, quotas.Values
      ensures Valid()
      ensures (View(), o) == L.Resize(old(View()), before, after)
    {
      if before.quota != after.quota {
        o := Unreserve(before.quota, before);
        if o == Failure {
          return;
        }
        o := Reserve(after.quota, after);
      } else {
        o := ResizeInPlace(after.quota, after);
      }
    }

    method CheckUsage(q: string, u: Unit, rate: real) returns (ok: bool)
      requires Valid()
      ensures ok == S.CheckUsage(View(), q, u, rate)
    {
      ghost var infos := View().infos;
      var cur := q;
      var visited := {};
      while cur != S.ROOT_QUOTA
        invariant visited <= quotas.Keys
        invariant S.CheckFrom(infos, quotaParent, q, {}, u, rate) == S.CheckFrom(infos, quotaParent, cur, visited, u, rate)
        decreases quotas.Keys - visited
      {
        if cur in visited {
          return false;
        }
        if cur !in quotas {
          return false;
        }
        var pass := quotas[cur].CheckUsage(u, rate);
        if !pass {
          return false;
        }
        if cur !in quotaParent {
          return true;
        }
        visited := visited + {cur};
        cur := quotaParent[cur];
      }
      return true;
    }

    method AddOrUpdateQuota(q: string, min: Amount, max: Amount, parentName: string)
      requires Valid()
      modifies this`quotas, this`quotaParent, quotas.Values
      ensures Valid()
      ensures View() == R.AddOrUpdateQuota(old(View()), q, min, max, parentName)
    {
      KnowQuota(q, min, max);
      SetParent(q, parentName);
    }

    method SetParent(q: string, parentName: string)
      requires Named()
      modifies this`quotaParent
      ensures quotaParent == old(quotaParent)[q := parentName]
      ensures Named() && Infos() == old(Infos())
    {
      ghost var infos := Infos();
      quotaParent := quotaParent[q := parentName];
      assert Infos() == infos;
    }

    method DropParent(q: string)
      requires Named()
      modifies this`quotaParent
      ensures quotaParent == old(quotaParent) - {q}
      ensures Named() && Infos() == old(Infos())
    {
      ghost var infos := Infos();
      quotaParent := quotaParent - {q};
      assert Infos() == infos;
    }

    method KnowQuota(q: string, min: Amount, max: Amount)
      requires Named()
      modifies this`quotas, quotas.Values
      ensures Named() && quotas.Keys == old(quotas.Keys) + {q}
      ensures Infos() == old(Infos())[q := if q in old(Infos()) then old(Infos())[q].(min := min, max := max) else NewInfo(min, max)]
    {
      if q !in quotas {
        InsertQuota(q, min, max);
      } else {
        SetLimits(q, min, max);
      }
    }

    method InsertQuota(q: string, min: Amount, max: Amount)
      requires Named() && q !in quotas
      modifies this`quotas
      ensures Named() && quotas.Keys == old(quotas.Keys) + {q} && Infos() == old(Infos())[q := NewInfo(min, max)]
    {
      var info := new ElasticQuotaInfo(q, min, max);
      quotas := quotas[q := info];
    }

    method SetLimits(q: string, min: Amount, max: Amount)
      requires Named() && q in quotas
      modifies quotas[q]
      ensures Named() && Infos() == old(Infos())[q := old(Infos())[q].(min := min, max := max)]
    {
      quotas[q].max := max;
      quotas[q].min := min;
      OneQuotaChanged(quotas[q], old(Infos()));
    }

    method DeleteQuota(q: string)
      requires Valid()
      modifies this`quotas, this`quotaParent
      ensures Valid()
      ensures View() == R.DeleteQuota(old(View()), q)
    {
      DropQuota(q);
      DropParent(q);
    }

    method DropQuota(q: string)
      requires Named()
      modifies this`quotas
      ensures Named() && quotas.Keys == old(quotas.Keys) - {q} && Infos() == old(Infos()) - {q}
    {
      quotas := quotas - {q};
    }

    // ---------- The plugin's events ----------

    method OnReserve(u: Unit) returns (o: Outcome)
      requires Valid()
      modifies this`reserved, this`scheduling, quotas.Values
      ensures Valid() && View() == Step(old(View()), Event.OnReserve(u))
    {
      ghost var infos := Infos();
      scheduling := scheduling + {u.uid};
      assert Infos() == infos;
      o := Reserve(u.quota, u);
    }

    method OnDequeueComplete(u: Unit)
      requires Valid()
      modifies this`reserved, this`scheduling, quotas.Values
      ensures Valid() && View() == Step(old(View()), Event.OnDequeueComplete(u))
    {
      var o := Reserve(u.quota, u);
      scheduling := scheduling - {u.uid};
    }

    method OnAddAssignedJob(u: Unit)
      requires Valid()
      modifies this`reserved, quotas.Values
      ensures Valid() && View() == Step(old(View()), Event.OnAddAssignedJob(u))
    {
      var o := Reserve(u.quota, u);
    }

    /** Unreserve and Remove do the same to the ledger. */
    method OnRelease(u: Unit)
      requires Valid()
      modifies this`reserved, quotas.Values
      ensures Valid() && View() == Step(old(View()), OnUnreserve(u)) == Step(old(View()), OnRemove(u))
    {
      var o := Unreserve(u.quota, u);
    }

    method OnResize(before: Unit, after: Unit)
      requires Valid()
      modifies this`reserved, quotas.Values
      ensures Valid() && View() == Step(old(View()), Event.OnResize(before, after))
    {
      if after.uid in scheduling {
        return;
      }
      var o := Resize(before, after);
    }
  }
}
