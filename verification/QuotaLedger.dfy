/** The quota ledger as a value: what each cache operation does to the counters of the
    quotas it walks, and the proof that these incrementally kept counters always equal
    a recomputation from the set of reserved units. */
module QuotaLedger {
  import opened Amounts
  import opened QueueUnits
  import opened QuotaTree

  /** What the ledger reads of a queue unit: its UID, its quota label, its
      spec.resource (the amount checked) and its reserved resource (the amount charged). */
  datatype Unit = Unit(uid: string, quota: string, resource: Amount, charge: Amount)

  function UnitOf(u: QueueUnit): Unit {
    Unit(u.uid, u.quota, u.resource, ReservedResource(u))
  }

  /** Used, SelfUsed and ChildrenUsed, or their guaranteed counterparts. */
  datatype Counters = Counters(used: Amount, self: Amount, children: Amount)

  /** The state of one quota (ElasticQuotaInfo). */
  datatype Info = Info(min: Amount, max: Amount, usage: Counters, guaranteed: Counters, reserved: map<string, Unit>)

  const NO_USAGE := Counters(map[], map[], map[])

  function NewInfo(min: Amount, max: Amount): Info {
    Info(min, max, NO_USAGE, NO_USAGE, map[])
  }

  /** Adds `res` to the used counter and to the self or the children counter. */
  function Charge(c: Counters, same: bool, res: Amount): Counters {
    if same then Counters(Plus(c.used, res), Plus(c.self, res), c.children)
    else Counters(Plus(c.used, res), c.self, Plus(c.children, res))
  }

  function Refund(c: Counters, same: bool, res: Amount): Counters {
    if same then Counters(Minus(c.used, res), Minus(c.self, res), c.children)
    else Counters(Minus(c.used, res), c.self, Minus(c.children, res))
  }

  function AddUnit(i: Info, q: string, u: Unit): Info {
    if u.uid in i.reserved then i
    else i.(reserved := i.reserved[u.uid := u],
            usage := Charge(i.usage, u.quota == q, u.charge),
            guaranteed := Charge(i.guaranteed, u.quota == q, u.charge))
  }

  function DeleteUnit(i: Info, q: string, uid: string): Info {
    if uid !in i.reserved then i
    else
      var stored := i.reserved[uid];
      i.(reserved := i.reserved - {stored.uid},
         usage := Refund(i.usage, stored.quota == q, stored.charge),
         guaranteed := Refund(i.guaranteed, stored.quota == q, stored.charge))
  }

  function ResizeUnit(i: Info, q: string, u: Unit): Info {
    if u.uid !in i.reserved then i
    else if i.reserved[u.uid].charge == u.charge then i.(reserved := i.reserved[u.uid := u])
    else AddUnit(DeleteUnit(i, q, u.uid), q, u)
  }

  // ---------- One quota against its recomputation ----------

  ghost function ChargesOf(units: map<string, Unit>, k: string): map<string, int> {
    map uid | uid in units :: At(units[uid].charge, k)
  }

  /** The total charge of the units `ids` for one resource. */
  ghost function Total(units: map<string, Unit>, ids: set<string>, k: string): int
    requires ids <= units.Keys
  {
    Sum(ids, ChargesOf(units, k))
  }

  function Own(units: map<string, Unit>, q: string): set<string> {
    set uid | uid in units && units[uid].quota == q
  }

  function Others(units: map<string, Unit>, q: string): set<string> {
    set uid | uid in units && units[uid].quota != q
  }

  ghost predicate CountersAt(c: Counters, q: string, units: map<string, Unit>, k: string) {
    && At(c.used, k) == Total(units, units.Keys, k)
    && At(c.self, k) == Total(units, Own(units, q), k)
    && At(c.children, k) == Total(units, Others(units, q), k)
  }

  ghost predicate CountersAre(c: Counters, q: string, units: map<string, Unit>) {
    forall k :: CountersAt(c, q, units, k)
  }

  /** Every counter of the quota equals a sum over its reserved units made from scratch. */
  ghost predicate Accurate(i: Info, q: string) {
    && (forall uid :: uid in i.reserved ==> i.reserved[uid].uid == uid)
    && CountersAre(i.usage, q, i.reserved)
    && CountersAre(i.guaranteed, q, i.reserved)
  }

  /** A unit charged on top of the units `ids`, and a unit outside them. */
  lemma TotalInsert(units: map<string, Unit>, u: Unit, ids: set<string>, k: string)
    requires u.uid !in units && ids <= units.Keys
    ensures Total(units[u.uid := u], ids, k) == Total(units, ids, k)
    ensures Total(units[u.uid := u], ids + {u.uid}, k) == Total(units, ids, k) + At(u.charge, k)
  {
    var f := ChargesOf(units[u.uid := u], k);
    SumAgrees(ids, f, ChargesOf(units, k));
    SumInsert(ids, f, u.uid);
  }

  lemma PartsOfInsert(units: map<string, Unit>, u: Unit, q: string)
    requires u.uid !in units
    ensures units[u.uid := u].Keys == units.Keys + {u.uid}
    ensures Own(units[u.uid := u], q) == if u.quota == q then Own(units, q) + {u.uid} else Own(units, q)
    ensures Others(units[u.uid := u], q) == if u.quota == q then Others(units, q) else Others(units, q) + {u.uid}
  {}

  /** The totals of a quota with one more unit. */
  lemma PartsInsert(units: map<string, Unit>, u: Unit, q: string, k: string)
    requires u.uid !in units
    ensures var more := units[u.uid := u];
      && Total(more, more.Keys, k) == Total(units, units.Keys, k) + At(u.charge, k)
      && Total(more, Own(more, q), k) == Total(units, Own(units, q), k) + (if u.quota == q then At(u.charge, k) else 0)
      && Total(more, Others(more, q), k) == Total(units, Others(units, q), k) + (if u.quota == q then 0 else At(u.charge, k))
  {
    PartsOfInsert(units, u, q);
    TotalInsert(units, u, units.Keys, k);
    TotalInsert(units, u, Own(units, q), k);
    TotalInsert(units, u, Others(units, q), k);
  }

  lemma ChargeAddsAt(c: Counters, q: string, units: map<string, Unit>, u: Unit, k: string)
    requires u.uid !in units && CountersAt(c, q, units, k)
    ensures CountersAt(Charge(c, u.quota == q, u.charge), q, units[u.uid := u], k)
  {
    PartsInsert(units, u, q, k);
  }

  lemma RefundRemovesAt(c: Counters, q: string, units: map<string, Unit>, u: Unit, k: string)
    requires u.uid !in units && CountersAt(c, q, units[u.uid := u], k)
    ensures CountersAt(Refund(c, u.quota == q, u.charge), q, units, k)
  {
    PartsInsert(units, u, q, k);
  }

  lemma ChargeAdds(c: Counters, q: string, units: map<string, Unit>, u: Unit)
    requires u.uid !in units && CountersAre(c, q, units)
    ensures CountersAre(Charge(c, u.quota == q, u.charge), q, units[u.uid := u])
  {
    var c', more := Charge(c, u.quota == q, u.charge), units[u.uid := u];
    forall k ensures CountersAt(c', q, more, k) {
      assert CountersAt(c, q, units, k);
      ChargeAddsAt(c, q, units, u, k);
    }
  }

  lemma RefundRemoves(c: Counters, q: string, units: map<string, Unit>, u: Unit)
    requires u.uid !in units && CountersAre(c, q, units[u.uid := u])
    ensures CountersAre(Refund(c, u.quota == q, u.charge), q, units)
  {
    var c', more := Refund(c, u.quota == q, u.charge), units[u.uid := u];
    forall k ensures CountersAt(c', q, units, k) {
      assert CountersAt(c, q, more, k);
      RefundRemovesAt(c, q, units, u, k);
    }
  }

  lemma SwapKeeps(c: Counters, q: string, units: map<string, Unit>, u: Unit, v: Unit)
    requires u.uid !in units && u.uid == v.uid && u.quota == v.quota && u.charge == v.charge
    requires CountersAre(c, q, units[u.uid := u])
    ensures CountersAre(c, q, units[v.uid := v])
  {
    var before, after := units[u.uid := u], units[v.uid := v];
    forall k ensures CountersAt(c, q, after, k) {
      assert CountersAt(c, q, before, k);
      PartsInsert(units, u, q, k);
      PartsInsert(units, v, q, k);
    }
  }

  lemma AddAccurate(i: Info, q: string, u: Unit)
    requires Accurate(i, q)
    ensures Accurate(AddUnit(i, q, u), q)
  {
    if u.uid !in i.reserved {
      ChargeAdds(i.usage, q, i.reserved, u);
      ChargeAdds(i.guaranteed, q, i.reserved, u);
    }
  }

  lemma DeleteAccurate(i: Info, q: string, uid: string)
    requires Accurate(i, q)
    ensures Accurate(DeleteUnit(i, q, uid), q)
    ensures DeleteUnit(i, q, uid).reserved == i.reserved - {uid}
  {
    if uid in i.reserved {
      var u, rest := i.reserved[uid], i.reserved - {uid};
      assert i.reserved == rest[u.uid := u];
      RefundRemoves(i.usage, q, rest, u);
      RefundRemoves(i.guaranteed, q, rest, u);
    }
  }

  lemma ResizeAccurate(i: Info, q: string, u: Unit)
    requires Accurate(i, q)
    requires u.uid in i.reserved ==> i.reserved[u.uid].quota == u.quota
    ensures Accurate(ResizeUnit(i, q, u), q)
    ensures ResizeUnit(i, q, u).reserved == if u.uid in i.reserved then i.reserved[u.uid := u] else i.reserved
  {
    if u.uid in i.reserved {
      var stored, rest := i.reserved[u.uid], i.reserved - {u.uid};
      assert i.reserved == rest[stored.uid := stored] && i.reserved[u.uid := u] == rest[u.uid := u];
      if stored.charge == u.charge {
        SwapKeeps(i.usage, q, rest, stored, u);
        SwapKeeps(i.guaranteed, q, rest, stored, u);
      } else {
        DeleteAccurate(i, q, u.uid);
        AddAccurate(DeleteUnit(i, q, u.uid), q, u);
      }
    }
  }

  // ---------- The cache as a value ----------

  datatype Ledger = Ledger(
    reserved: map<string, string>, scheduling: set<string>,
    infos: map<string, Info>, parent: map<string, string>)

  function ChainOf(l: Ledger, q: string): set<string> {
    Chain(l.infos.Keys, l.parent, q)
  }

  datatype Outcome = Done | Failure

  /** The quotas `on` with the unit added, deleted or resized. */
  function AddOn(infos: map<string, Info>, on: set<string>, u: Unit): map<string, Info> {
    map p | p in infos :: if p in on then AddUnit(infos[p], p, u) else infos[p]
  }

  function DeleteOn(infos: map<string, Info>, on: set<string>, uid: string): map<string, Info> {
    map p | p in infos :: if p in on then DeleteUnit(infos[p], p, uid) else infos[p]
  }

  function ResizeOn(infos: map<string, Info>, on: set<string>, u: Unit): map<string, Info> {
    map p | p in infos :: if p in on then ResizeUnit(infos[p], p, u) else infos[p]
  }

  /** Walking one quota further. */
  lemma AddOnMore(infos: map<string, Info>, on: set<string>, p: string, u: Unit)
    requires p in infos && p !in on
    ensures AddOn(infos, on, u)[p := AddUnit(AddOn(infos, on, u)[p], p, u)] == AddOn(infos, on + {p}, u)
  {}

  lemma DeleteOnMore(infos: map<string, Info>, on: set<string>, p: string, uid: string)
    requires p in infos && p !in on
    ensures DeleteOn(infos, on, uid)[p := DeleteUnit(DeleteOn(infos, on, uid)[p], p, uid)] == DeleteOn(infos, on + {p}, uid)
  {}

  lemma ResizeOnMore(infos: map<string, Info>, on: set<string>, p: string, u: Unit)
    requires p in infos && p !in on
    ensures ResizeOn(infos, on, u)[p := ResizeUnit(ResizeOn(infos, on, u)[p], p, u)] == ResizeOn(infos, on + {p}, u)
  {}

  /** The same for the quotas a walk from `q` visits. */
  function AddOnChain(infos: map<string, Info>, parent: map<string, string>, q: string, u: Unit): map<string, Info> {
    AddOn(infos, Chain(infos.Keys, parent, q), u)
  }

  function DeleteOnChain(infos: map<string, Info>, parent: map<string, string>, q: string, uid: string): map<string, Info> {
    DeleteOn(infos, Chain(infos.Keys, parent, q), uid)
  }

  function ResizeOnChain(infos: map<string, Info>, parent: map<string, string>, q: string, u: Unit): map<string, Info> {
    ResizeOn(infos, Chain(infos.Keys, parent, q), u)
  }

  function Reserve(l: Ledger, q: string, u: Unit): (Ledger, Outcome) {
    if u.uid in l.reserved then (l, if l.reserved[u.uid] == q then Done else Failure)
    else if q !in l.infos then (l, Failure)
    else (l.(reserved := l.reserved[u.uid := q], infos := AddOnChain(l.infos, l.parent, q, u)), Done)
  }

  function Unreserve(l: Ledger, q: string, u: Unit): (Ledger, Outcome) {
    if u.uid !in l.reserved then (l, Done)
    else if q !in l.infos then (l, Failure)
    else (l.(reserved := l.reserved - {u.uid}, infos := DeleteOnChain(l.infos, l.parent, q, u.uid)), Done)
  }

  function ResizeInPlace(l: Ledger, q: string, u: Unit): (Ledger, Outcome) {
    if u.uid !in l.reserved then (l, Done)
    else if q !in l.infos then (l, Failure)
    else (l.(infos := ResizeOnChain(l.infos, l.parent, q, u)), Done)
  }

  function Resize(l: Ledger, before: Unit, after: Unit): (Ledger, Outcome) {
    if before.quota != after.quota then
      var (l1, o) := Unreserve(l, before.quota, before);
      if o.Failure? then (l1, o) else Reserve(l1, after.quota, after)
    else ResizeInPlace(l, after.quota, after)
  }

  /** The quota plugin's events (elasticquota.go), each with the label of its unit. */
  datatype Event =
    | OnReserve(unit: Unit)
    | OnDequeueComplete(unit: Unit)
    | OnAddAssignedJob(unit: Unit)
    | OnUnreserve(unit: Unit)
    | OnRemove(unit: Unit)
    | OnResize(before: Unit, after: Unit)

  function Step(l: Ledger, e: Event): Ledger {
    match e
    case OnReserve(u) => Reserve(l.(scheduling := l.scheduling + {u.uid}), u.quota, u).0
    case OnDequeueComplete(u) => var l1 := Reserve(l, u.quota, u).0; l1.(scheduling := l1.scheduling - {u.uid})
    case OnAddAssignedJob(u) => Reserve(l, u.quota, u).0
    case OnUnreserve(u) => Unreserve(l, u.quota, u).0
    case OnRemove(u) => Unreserve(l, u.quota, u).0
    case OnResize(before, after) => if after.uid in l.scheduling then l else Resize(l, before, after).0
  }

  // ---------- The simple form: a book of reserved units ----------

  /** What the ledger stands for: the unit each reservation was last booked with. */
  datatype Book = Book(units: map<string, Unit>, scheduling: set<string>)

  function Booked(b: Book, dom: set<string>, u: Unit): Book {
    if u.uid in b.units || u.quota !in dom then b else b.(units := b.units[u.uid := u])
  }

  function Unbooked(b: Book, dom: set<string>, u: Unit): Book {
    if u.uid in b.units && u.quota in dom then b.(units := b.units - {u.uid}) else b
  }

  function Rebooked(b: Book, u: Unit): Book {
    if u.uid in b.units then b.(units := b.units[u.uid := u]) else b
  }

  function BookStep(b: Book, dom: set<string>, e: Event): Book {
    match e
    case OnReserve(u) => Booked(b.(scheduling := b.scheduling + {u.uid}), dom, u)
    case OnDequeueComplete(u) => var b1 := Booked(b, dom, u); b1.(scheduling := b1.scheduling - {u.uid})
    case OnAddAssignedJob(u) => Booked(b, dom, u)
    case OnUnreserve(u) => Unbooked(b, dom, u)
    case OnRemove(u) => Unbooked(b, dom, u)
    case OnResize(before, after) =>
      if after.uid in b.scheduling then b
      else if before.quota == after.quota then Rebooked(b, after)
      else Booked(Unbooked(b, dom, before), dom, after)
  }

  /** The units charged to quota `q`: those labelled with it or with a quota below it. */
  function ChargedTo(units: map<string, Unit>, dom: set<string>, parent: map<string, string>, q: string): map<string, Unit> {
    map uid | uid in units && q in Chain(dom, parent, units[uid].quota) :: units[uid]
  }

  /** Quota `q` holds exactly the units charged to it, each once, and its counters are
      their sums. */
  ghost predicate QuotaRepresents(i: Info, q: string, units: map<string, Unit>, dom: set<string>, parent: map<string, string>) {
    i.reserved == ChargedTo(units, dom, parent, q) && Accurate(i, q)
  }

  ghost predicate KeysRepresent(reserved: map<string, string>, units: map<string, Unit>, dom: set<string>) {
    && reserved.Keys == units.Keys
    && forall uid :: uid in units ==>
         units[uid].uid == uid && reserved[uid] == units[uid].quota && units[uid].quota in dom
  }

  ghost predicate InfosRepresent(infos: map<string, Info>, parent: map<string, string>, units: map<string, Unit>) {
    forall q {:trigger QuotaRepresents(infos[q], q, units, infos.Keys, parent)} ::
      q in infos ==> QuotaRepresents(infos[q], q, units, infos.Keys, parent)
  }

  /** The ledger is the book, on cyclic parent maps too. */
  ghost predicate Represents(l: Ledger, b: Book) {
    && l.scheduling == b.scheduling
    && KeysRepresent(l.reserved, b.units, l.infos.Keys)
    && InfosRepresent(l.infos, l.parent, b.units)
  }

  /** An event that releases or relabels a reserved unit carries the label the unit
      was reserved under. Reservations are unrestricted. */
  predicate Coherent(b: Book, e: Event) {
    match e
    case OnUnreserve(u) => u.uid in b.units ==> u.quota == b.units[u.uid].quota
    case OnRemove(u) => u.uid in b.units ==> u.quota == b.units[u.uid].quota
    case OnResize(before, after) =>
      before.uid == after.uid && (before.uid in b.units ==> before.quota == b.units[before.uid].quota)
    case _ => true
  }

  lemma ChargedToInsert(units: map<string, Unit>, dom: set<string>, parent: map<string, string>, u: Unit, q: string)
    ensures ChargedTo(units[u.uid := u], dom, parent, q) ==
      if q in Chain(dom, parent, u.quota) then ChargedTo(units, dom, parent, q)[u.uid := u]
      else ChargedTo(units, dom, parent, q) - {u.uid}
  {}

  lemma AddRepresents(i: Info, q: string, units: map<string, Unit>, dom: set<string>, parent: map<string, string>, u: Unit)
    requires QuotaRepresents(i, q, units, dom, parent) && u.uid !in units
    ensures QuotaRepresents(if q in Chain(dom, parent, u.quota) then AddUnit(i, q, u) else i, q, units[u.uid := u], dom, parent)
  {
    ChargedToInsert(units, dom, parent, u, q);
    assert u.uid !in i.reserved && i.reserved - {u.uid} == i.reserved;
    AddAccurate(i, q, u);
  }

  lemma DeleteRepresents(i: Info, q: string, units: map<string, Unit>, dom: set<string>, parent: map<string, string>, uid: string)
    requires QuotaRepresents(i, q, units, dom, parent) && uid in units
    ensures QuotaRepresents(if q in Chain(dom, parent, units[uid].quota) then DeleteUnit(i, q, uid) else i, q, units - {uid}, dom, parent)
  {
    DeleteAccurate(i, q, uid);
    assert ChargedTo(units - {uid}, dom, parent, q) == ChargedTo(units, dom, parent, q) - {uid};
  }

  lemma ResizeRepresents(i: Info, q: string, units: map<string, Unit>, dom: set<string>, parent: map<string, string>, u: Unit)
    requires QuotaRepresents(i, q, units, dom, parent) && u.uid in units && units[u.uid].quota == u.quota
    ensures QuotaRepresents(if q in Chain(dom, parent, u.quota) then ResizeUnit(i, q, u) else i, q, units[u.uid := u], dom, parent)
  {
    ChargedToInsert(units, dom, parent, u, q);
    ResizeAccurate(i, q, u);
    if u.uid !in i.reserved {
      assert i.reserved - {u.uid} == i.reserved;
    }
  }

  lemma AddOnChainRepresents(infos: map<string, Info>, parent: map<string, string>, units: map<string, Unit>, u: Unit)
    requires InfosRepresent(infos, parent, units) && u.uid !in units
    ensures InfosRepresent(AddOnChain(infos, parent, u.quota, u), parent, units[u.uid := u])
  {
    var infos' := AddOnChain(infos, parent, u.quota, u);
    assert infos'.Keys == infos.Keys;
    forall q | q in infos' ensures QuotaRepresents(infos'[q], q, units[u.uid := u], infos'.Keys, parent) {
      AddRepresents(infos[q], q, units, infos.Keys, parent, u);
    }
  }

  lemma DeleteOnChainRepresents(infos: map<string, Info>, parent: map<string, string>, units: map<string, Unit>, uid: string)
    requires InfosRepresent(infos, parent, units) && uid in units
    ensures InfosRepresent(DeleteOnChain(infos, parent, units[uid].quota, uid), parent, units - {uid})
  {
    var infos' := DeleteOnChain(infos, parent, units[uid].quota, uid);
    assert infos'.Keys == infos.Keys;
    forall q | q in infos' ensures QuotaRepresents(infos'[q], q, units - {uid}, infos'.Keys, parent) {
      DeleteRepresents(infos[q], q, units, infos.Keys, parent, uid);
    }
  }

  lemma ResizeOnChainRepresents(infos: map<string, Info>, parent: map<string, string>, units: map<string, Unit>, u: Unit)
    requires InfosRepresent(infos, parent, units) && u.uid in units && units[u.uid].quota == u.quota
    ensures InfosRepresent(ResizeOnChain(infos, parent, u.quota, u), parent, units[u.uid := u])
  {
    var infos' := ResizeOnChain(infos, parent, u.quota, u);
    assert infos'.Keys == infos.Keys;
    forall q | q in infos' ensures QuotaRepresents(infos'[q], q, units[u.uid := u], infos'.Keys, parent) {
      ResizeRepresents(infos[q], q, units, infos.Keys, parent, u);
    }
  }

  lemma ReserveRepresents(l: Ledger, b: Book, u: Unit)
    requires Represents(l, b)
    ensures Represents(Reserve(l, u.quota, u).0, Booked(b, l.infos.Keys, u))
  {
    if u.uid !in b.units && u.quota in l.infos {
      AddOnChainRepresents(l.infos, l.parent, b.units, u);
      var l', b' := Reserve(l, u.quota, u).0, Booked(b, l.infos.Keys, u);
      assert InfosRepresent(l'.infos, l'.parent, b'.units);
      assert l'.infos.Keys == l.infos.Keys;
      assert KeysRepresent(l'.reserved, b'.units, l'.infos.Keys);
    }
  }

  lemma UnreserveRepresents(l: Ledger, b: Book, u: Unit)
    requires Represents(l, b)
    requires u.uid in b.units ==> u.quota == b.units[u.uid].quota
    ensures Represents(Unreserve(l, u.quota, u).0, Unbooked(b, l.infos.Keys, u))
  {
    if u.uid in b.units {
      DeleteOnChainRepresents(l.infos, l.parent, b.units, u.uid);
      assert DeleteOnChain(l.infos, l.parent, u.quota, u.uid).Keys == l.infos.Keys;
    }
  }

  lemma ResizeInPlaceRepresents(l: Ledger, b: Book, u: Unit)
    requires Represents(l, b)
    requires u.uid in b.units ==> u.quota == b.units[u.uid].quota
    ensures Represents(ResizeInPlace(l, u.quota, u).0, Rebooked(b, u))
  {
    if u.uid in b.units {
      ResizeOnChainRepresents(l.infos, l.parent, b.units, u);
      var l', b' := ResizeInPlace(l, u.quota, u).0, Rebooked(b, u);
      assert InfosRepresent(l'.infos, l'.parent, b'.units);
      assert l'.infos.Keys == l.infos.Keys;
      assert KeysRepresent(l'.reserved, b'.units, l'.infos.Keys);
    }
  }

  lemma ResizeOpRepresents(l: Ledger, b: Book, before: Unit, after: Unit)
    requires Represents(l, b)
    requires before.uid == after.uid && (before.uid in b.units ==> before.quota == b.units[before.uid].quota)
    ensures Represents(Resize(l, before, after).0,
                       if before.quota == after.quota then Rebooked(b, after)
                       else Booked(Unbooked(b, l.infos.Keys, before), l.infos.Keys, after))
  {
    if before.quota == after.quota {
      ResizeInPlaceRepresents(l, b, after);
    } else {
      UnreserveRepresents(l, b, before);
      var l1 := Unreserve(l, before.quota, before).0;
      StableTree(l, OnUnreserve(before));
      ReserveRepresents(l1, Unbooked(b, l.infos.Keys, before), after);
    }
  }

  lemma StableTree(l: Ledger, e: Event)
    ensures Step(l, e).infos.Keys == l.infos.Keys && Step(l, e).parent == l.parent
  {}

  lemma StepRepresents(l: Ledger, b: Book, e: Event)
    requires Represents(l, b) && Coherent(b, e)
    ensures Represents(Step(l, e), BookStep(b, l.infos.Keys, e))
  {
    match e
    case OnReserve(u) =>
      ReserveRepresents(l.(scheduling := l.scheduling + {u.uid}), b.(scheduling := b.scheduling + {u.uid}), u);
    case OnDequeueComplete(u) => ReserveRepresents(l, b, u);
    case OnAddAssignedJob(u) => ReserveRepresents(l, b, u);
    case OnUnreserve(u) => UnreserveRepresents(l, b, u);
    case OnRemove(u) => UnreserveRepresents(l, b, u);
    case OnResize(before, after) => ResizeOpRepresents(l, b, before, after);
  }

  // ---------- Runs ----------

  function Run(l: Ledger, es: seq<Event>): Ledger {
    if es == [] then l else Step(Run(l, es[..|es| - 1]), es[|es| - 1])
  }

  function BookRun(b: Book, dom: set<string>, es: seq<Event>): Book {
    if es == [] then b else BookStep(BookRun(b, dom, es[..|es| - 1]), dom, es[|es| - 1])
  }

  predicate CoherentRun(b: Book, dom: set<string>, es: seq<Event>) {
    forall i :: 0 <= i < |es| ==> Coherent(BookRun(b, dom, es[..i]), es[i])
  }

  /** Over every run of plugin events on a fixed parent map, the ledger represents the
      book obtained by only remembering the reserved units. */
  lemma {:induction false} LedgerRefinesBook(l: Ledger, b: Book, es: seq<Event>)
    requires Represents(l, b) && CoherentRun(b, l.infos.Keys, es)
    ensures Represents(Run(l, es), BookRun(b, l.infos.Keys, es))
    ensures Run(l, es).infos.Keys == l.infos.Keys && Run(l, es).parent == l.parent
    decreases |es|
  {
    if es != [] {
      var n := |es| - 1;
      assert forall i :: 0 <= i < n ==> es[..n][..i] == es[..i];
      LedgerRefinesBook(l, b, es[..n]);
      StepRepresents(Run(l, es[..n]), BookRun(b, l.infos.Keys, es[..n]), es[n]);
      StableTree(Run(l, es[..n]), es[n]);
    }
  }

  /** The units charged to quota `q`, by UID. */
  function ChargedIds(units: map<string, Unit>, dom: set<string>, parent: map<string, string>, q: string): set<string> {
    set uid | uid in units && q in Chain(dom, parent, units[uid].quota)
  }

  /** The quota's used amount is the total of the units labelled with it or below it,
      and splits into its self and children parts. */
  lemma UsedIsRecomputed(l: Ledger, b: Book, q: string, k: string)
    requires Represents(l, b) && q in l.infos
    ensures At(l.infos[q].usage.used, k) == Total(b.units, ChargedIds(b.units, l.infos.Keys, l.parent, q), k)
    ensures At(l.infos[q].usage.used, k) == At(l.infos[q].usage.self, k) + At(l.infos[q].usage.children, k)
  {
    var i := l.infos[q];
    assert QuotaRepresents(i, q, b.units, l.infos.Keys, l.parent);
    assert CountersAt(i.usage, q, i.reserved, k);
    assert i.reserved.Keys == ChargedIds(b.units, l.infos.Keys, l.parent, q);
    SumAgrees(i.reserved.Keys, ChargesOf(i.reserved, k), ChargesOf(b.units, k));
    SumDisjoint(Own(i.reserved, q), Others(i.reserved, q), ChargesOf(i.reserved, k));
    assert Own(i.reserved, q) + Others(i.reserved, q) == i.reserved.Keys;
  }

  lemma AddUnitUsed(i: Info, q: string, u: Unit, k: string)
    requires u.uid !in i.reserved
    ensures At(AddUnit(i, q, u).usage.used, k) == At(i.usage.used, k) + At(u.charge, k)
  {
  }

  /** A reservation of a queue unit adds what the unit is charged to every quota on the chain
      of its label, and nothing to the others. */
  lemma ReserveChargesUnit(l: Ledger, b: Book, u: QueueUnit, q: string, k: string)
    requires Represents(l, b) && u.uid !in b.units && u.quota in l.infos && q in l.infos
    ensures var l' := Step(l, OnReserve(UnitOf(u)));
      && u.uid in l'.reserved && l'.reserved[u.uid] == u.quota && q in l'.infos
      && At(l'.infos[q].usage.used, k) == At(l.infos[q].usage.used, k) +
         if q in Chain(l.infos.Keys, l.parent, u.quota) then At(ReservedResource(u), k) else 0
  {
    assert u.uid !in l.infos[q].reserved by {
      assert QuotaRepresents(l.infos[q], q, b.units, l.infos.Keys, l.parent);
    }
    AddUnitUsed(l.infos[q], q, UnitOf(u), k);
  }

  // ---------- Parents and children ----------

  predicate ChargedToOne(dom: set<string>, parent: map<string, string>, cs: set<string>, q: string) {
    exists c :: c in cs && c in Chain(dom, parent, q)
  }

  /** Units charged to one of the quotas `cs`. */
  function ChargedToAny(units: map<string, Unit>, dom: set<string>, parent: map<string, string>, cs: set<string>): set<string> {
    set uid | uid in units && ChargedToOne(dom, parent, cs, units[uid].quota)
  }

  function Children(dom: set<string>, parent: map<string, string>, p: string): set<string> {
    set c | c in dom && IsChild(dom, parent, c, p)
  }

  ghost function UsedOf(infos: map<string, Info>, k: string): map<string, int> {
    map q | q in infos :: At(infos[q].usage.used, k)
  }

  /** Among siblings no unit is charged twice. */
  lemma SiblingsDisjoint(units: map<string, Unit>, dom: set<string>, parent: map<string, string>, p: string, cs: set<string>, c: string)
    requires Acyclic(dom, parent) && p in dom && cs <= Children(dom, parent, p) && c in cs
    ensures ChargedToAny(units, dom, parent, cs - {c}) !! ChargedIds(units, dom, parent, c)
    ensures ChargedToAny(units, dom, parent, cs) == ChargedToAny(units, dom, parent, cs - {c}) + ChargedIds(units, dom, parent, c)
  {
    forall uid | uid in units
      ensures !(ChargedToOne(dom, parent, cs - {c}, units[uid].quota) && c in Chain(dom, parent, units[uid].quota))
      ensures ChargedToOne(dom, parent, cs, units[uid].quota) <==>
              ChargedToOne(dom, parent, cs - {c}, units[uid].quota) || c in Chain(dom, parent, units[uid].quota)
    {
      SiblingUnique(dom, parent, p, cs, c, units[uid].quota);
    }
  }

  lemma SiblingUnique(dom: set<string>, parent: map<string, string>, p: string, cs: set<string>, c: string, q: string)
    requires Acyclic(dom, parent) && p in dom && cs <= Children(dom, parent, p) && c in cs
    ensures !(ChargedToOne(dom, parent, cs - {c}, q) && c in Chain(dom, parent, q))
    ensures ChargedToOne(dom, parent, cs, q) <==> ChargedToOne(dom, parent, cs - {c}, q) || c in Chain(dom, parent, q)
  {
    if ChargedToOne(dom, parent, cs - {c}, q) && c in Chain(dom, parent, q) {
      var d :| d in cs - {c} && d in Chain(dom, parent, q);
      ChildOnChainIsUnique(dom, parent, q, p, c, d);
    }
    if ChargedToOne(dom, parent, cs, q) {
      var d :| d in cs && d in Chain(dom, parent, q);
      assert d == c || d in cs - {c};
    }
  }

  lemma {:induction false} SiblingsAddUp(l: Ledger, b: Book, p: string, cs: set<string>, k: string)
    requires Represents(l, b) && Acyclic(l.infos.Keys, l.parent) && p in l.infos
    requires cs <= Children(l.infos.Keys, l.parent, p)
    ensures Total(b.units, ChargedToAny(b.units, l.infos.Keys, l.parent, cs), k) == Sum(cs, UsedOf(l.infos, k))
  {
    var dom := l.infos.Keys;
    if cs == {} {
      assert ChargedToAny(b.units, dom, l.parent, cs) == {};
    } else {
      var c :| c in cs;
      SiblingsAddUp(l, b, p, cs - {c}, k);
      SiblingsDisjoint(b.units, dom, l.parent, p, cs, c);
      SumDisjoint(ChargedToAny(b.units, dom, l.parent, cs - {c}), ChargedIds(b.units, dom, l.parent, c), ChargesOf(b.units, k));
      UsedIsRecomputed(l, b, c, k);
      SumRemove(cs, UsedOf(l.infos, k), c);
    }
  }

  lemma BelowIsChildren(dom: set<string>, parent: map<string, string>, p: string, q: string)
    requires Acyclic(dom, parent) && p in dom
    ensures p in Chain(dom, parent, q) && q != p <==> ChargedToOne(dom, parent, Children(dom, parent, p), q)
  {
    var cs := Children(dom, parent, p);
    ChainIsLeastClosed(dom, parent, q);
    if p in Chain(dom, parent, q) && q != p {
      var c := ReachedThroughChild(dom, parent, q, p);
      assert c in cs;
    }
    if ChargedToOne(dom, parent, cs, q) {
      var c :| c in cs && c in Chain(dom, parent, q);
      assert parent[c] == p;
    }
  }

  /** On an acyclic tree a parent's children counter is the sum of its children's used. */
  lemma ChildrenUsedIsSumOfChildren(l: Ledger, b: Book, p: string, k: string)
    requires Represents(l, b) && Acyclic(l.infos.Keys, l.parent) && p in l.infos
    ensures At(l.infos[p].usage.children, k) == Sum(Children(l.infos.Keys, l.parent, p), UsedOf(l.infos, k))
  {
    var i := l.infos[p];
    assert QuotaRepresents(i, p, b.units, l.infos.Keys, l.parent);
    assert CountersAt(i.usage, p, i.reserved, k);
    assert Others(i.reserved, p) == ChargedToAny(b.units, l.infos.Keys, l.parent, Children(l.infos.Keys, l.parent, p)) by {
      forall uid | uid in b.units {
        BelowIsChildren(l.infos.Keys, l.parent, p, b.units[uid].quota);
      }
    }
    SumAgrees(Others(i.reserved, p), ChargesOf(i.reserved, k), ChargesOf(b.units, k));
    SiblingsAddUp(l, b, p, Children(l.infos.Keys, l.parent, p), k);
  }
}
