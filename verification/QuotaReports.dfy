/** Whether the quota ledger is current: is every reserved unit charged what its last
    reported record asks for? Reservations of a unit that is already reserved are ignored,
    and resizes are dropped while it is marked as scheduling. */
module QuotaReports {
  import opened Amounts
  import opened QuotaLedger

  function Reported(e: Event): Unit {
    match e
    case OnReserve(u) => u
    case OnDequeueComplete(u) => u
    case OnAddAssignedJob(u) => u
    case OnUnreserve(u) => u
    case OnRemove(u) => u
    case OnResize(before, after) => after
  }

  /** The last record that was reported of each unit. */
  function Heard(last: map<string, Unit>, e: Event): map<string, Unit> {
    last[Reported(e).uid := Reported(e)]
  }

  function HeardAll(last: map<string, Unit>, es: seq<Event>): map<string, Unit> {
    if es == [] then last else Heard(HeardAll(last, es[..|es| - 1]), es[|es| - 1])
  }

  /** Every reserved unit is charged by its last reported record. */
  ghost predicate Current(b: Book, last: map<string, Unit>) {
    forall uid :: uid in b.units ==> uid in last && b.units[uid].charge == last[uid].charge
  }

  /** Units are booked under their UIDs and known quotas. */
  ghost predicate Keyed(b: Book, dom: set<string>) {
    forall uid :: uid in b.units ==> b.units[uid].uid == uid && b.units[uid].quota in dom
  }

  /** The book takes the report: the unit is not reserved, or the report changes nothing, or
      it is a resize of a unit that is not marked. */
  predicate Takes(b: Book, e: Event) {
    match e
    case OnReserve(u) => Unchanged(b, u)
    case OnDequeueComplete(u) => Unchanged(b, u)
    case OnAddAssignedJob(u) => Unchanged(b, u)
    case OnResize(before, after) => after.uid in b.scheduling ==> Unchanged(b, after)
    case _ => true
  }

  predicate Unchanged(b: Book, u: Unit) {
    u.uid in b.units ==> b.units[u.uid].charge == u.charge
  }

  lemma StepKeyed(b: Book, dom: set<string>, e: Event)
    requires Keyed(b, dom) && Coherent(b, e)
    ensures Keyed(BookStep(b, dom, e), dom)
  {}

  /** Only the reported unit is booked anew. */
  lemma OthersStay(b: Book, dom: set<string>, e: Event, uid: string)
    requires Coherent(b, e) && uid != Reported(e).uid
    ensures var b' := BookStep(b, dom, e); (uid in b'.units <==> uid in b.units) && (uid in b.units ==> b'.units[uid] == b.units[uid])
  {}

  /** The reported unit is reserved by that record exactly when the report is taken. */
  lemma ReportedIff(b: Book, dom: set<string>, e: Event)
    requires Keyed(b, dom) && Coherent(b, e)
    ensures var b', u := BookStep(b, dom, e), Reported(e); Unchanged(b', u) <==> Takes(b, e)
  {}

  /** A step keeps the book current exactly when it takes the report. */
  lemma StepCurrentIff(b: Book, dom: set<string>, last: map<string, Unit>, e: Event)
    requires Keyed(b, dom) && Current(b, last) && Coherent(b, e)
    ensures Current(BookStep(b, dom, e), Heard(last, e)) <==> Takes(b, e)
  {
    var b' := BookStep(b, dom, e);
    ReportedIff(b, dom, e);
    forall uid | uid in b'.units && uid != Reported(e).uid
      ensures uid in Heard(last, e) && b'.units[uid].charge == Heard(last, e)[uid].charge
    {
      OthersStay(b, dom, e, uid);
    }
  }

  // ---------- Runs ----------

  ghost predicate AlwaysCurrent(b: Book, dom: set<string>, last: map<string, Unit>, es: seq<Event>) {
    forall n :: 0 <= n <= |es| ==> Current(BookRun(b, dom, es[..n]), HeardAll(last, es[..n]))
  }

  ghost predicate AllTaken(b: Book, dom: set<string>, es: seq<Event>) {
    forall n :: 0 <= n < |es| ==> Takes(BookRun(b, dom, es[..n]), es[n])
  }

  lemma RunOne(b: Book, dom: set<string>, last: map<string, Unit>, es: seq<Event>, n: nat)
    requires n < |es|
    ensures BookRun(b, dom, es[..n + 1]) == BookStep(BookRun(b, dom, es[..n]), dom, es[n])
    ensures HeardAll(last, es[..n + 1]) == Heard(HeardAll(last, es[..n]), es[n])
  {
    assert es[..n + 1][..n] == es[..n];
  }

  lemma CoherentAt(b: Book, dom: set<string>, es: seq<Event>, n: nat)
    requires CoherentRun(b, dom, es) && n < |es|
    ensures Coherent(BookRun(b, dom, es[..n]), es[n])
  {}

  lemma {:induction false} RunKeyed(b: Book, dom: set<string>, last: map<string, Unit>, es: seq<Event>, n: nat)
    requires Keyed(b, dom) && CoherentRun(b, dom, es) && n <= |es|
    ensures Keyed(BookRun(b, dom, es[..n]), dom)
  {
    if n > 0 {
      RunKeyed(b, dom, last, es, n - 1);
      CoherentAt(b, dom, es, n - 1);
      RunOne(b, dom, last, es, n - 1);
      StepKeyed(BookRun(b, dom, es[..n - 1]), dom, es[n - 1]);
    }
  }

  lemma {:induction false} CurrentAfter(b: Book, dom: set<string>, last: map<string, Unit>, es: seq<Event>, n: nat)
    requires Keyed(b, dom) && Current(b, last) && CoherentRun(b, dom, es) && AllTaken(b, dom, es) && n <= |es|
    ensures Current(BookRun(b, dom, es[..n]), HeardAll(last, es[..n]))
  {
    if n > 0 {
      CurrentAfter(b, dom, last, es, n - 1);
      RunKeyed(b, dom, last, es, n - 1);
      CoherentAt(b, dom, es, n - 1);
      RunOne(b, dom, last, es, n - 1);
      StepCurrentIff(BookRun(b, dom, es[..n - 1]), dom, HeardAll(last, es[..n - 1]), es[n - 1]);
    }
  }

  /** Over every run each reserved unit is charged by its last reported record exactly when
      the book takes every report. */
  lemma CurrentRunsIff(b: Book, dom: set<string>, last: map<string, Unit>, es: seq<Event>)
    requires Keyed(b, dom) && Current(b, last) && CoherentRun(b, dom, es)
    ensures AlwaysCurrent(b, dom, last, es) <==> AllTaken(b, dom, es)
  {
    if AllTaken(b, dom, es) {
      forall n | 0 <= n <= |es| ensures Current(BookRun(b, dom, es[..n]), HeardAll(last, es[..n])) {
        CurrentAfter(b, dom, last, es, n);
      }
    }
    if AlwaysCurrent(b, dom, last, es) {
      forall n | 0 <= n < |es| ensures Takes(BookRun(b, dom, es[..n]), es[n]) {
        RunKeyed(b, dom, last, es, n);
        CoherentAt(b, dom, es, n);
        RunOne(b, dom, last, es, n);
        assert Current(BookRun(b, dom, es[..n]), HeardAll(last, es[..n]));
        assert Current(BookRun(b, dom, es[..n + 1]), HeardAll(last, es[..n + 1]));
        StepCurrentIff(BookRun(b, dom, es[..n]), dom, HeardAll(last, es[..n]), es[n]);
      }
    }
  }

  // ---------- Units whose resizes are lost ----------

  /** Resizes of that unit. */
  ghost predicate Resizes(uid: string, es: seq<Event>) {
    forall i :: 0 <= i < |es| ==> es[i].OnResize? && es[i].before.uid == es[i].after.uid == uid
  }

  /** While a unit is marked all its resizes are lost, however many come. */
  lemma {:induction false} MarkedIsStuck(b: Book, dom: set<string>, uid: string, es: seq<Event>)
    requires uid in b.scheduling && Resizes(uid, es)
    ensures BookRun(b, dom, es) == b
  {
    if es != [] {
      MarkedIsStuck(b, dom, uid, es[..|es| - 1]);
    }
  }

  const EMPTY := Book(map[], {})

  /** At a restart every admitted unit is loaded by Reserve, which marks it, and no
      DequeueComplete follows: none of its later resizes reaches the ledger. */
  lemma LoadedUnitIsStuck(u: Unit, v: Unit, es: seq<Event>)
    requires u.uid == v.uid && u.quota == v.quota && u.charge != v.charge && Resizes(u.uid, es)
    ensures var b := BookRun(EMPTY, {u.quota}, [OnReserve(u)]);
      && BookRun(b, {u.quota}, es + [OnResize(u, v)]) == b && b.units == map[u.uid := u]
      && !Current(b, HeardAll(map[], [OnReserve(u), OnResize(u, v)]))
  {
    var dom := {u.quota};
    assert [OnReserve(u)][..0] == [] && BookRun(EMPTY, dom, []) == EMPTY;
    var b := BookRun(EMPTY, dom, [OnReserve(u)]);
    assert b == Book(map[u.uid := u], {u.uid});
    MarkedIsStuck(b, dom, u.uid, es + [OnResize(u, v)]);
    var two := [OnReserve(u), OnResize(u, v)];
    assert two[..1] == [OnReserve(u)] && HeardAll(map[], two) == Heard(HeardAll(map[], two[..1]), two[1]);
  }

  /** A release leaves the mark, so a unit that is assigned again is stuck as well. */
  lemma MarkOutlivesRelease(u: Unit, v: Unit)
    requires u.uid == v.uid && u.quota == v.quota && u.charge != v.charge
    ensures var es := [OnReserve(u), OnUnreserve(u), OnAddAssignedJob(u), OnResize(u, v)];
      CoherentRun(EMPTY, {u.quota}, es) && !Current(BookRun(EMPTY, {u.quota}, es), HeardAll(map[], es))
  {
    var dom := {u.quota};
    var es := [OnReserve(u), OnUnreserve(u), OnAddAssignedJob(u), OnResize(u, v)];
    assert es[..0] == [] && BookRun(EMPTY, dom, es[..0]) == EMPTY;
    RunOne(EMPTY, dom, map[], es, 0);
    RunOne(EMPTY, dom, map[], es, 1);
    RunOne(EMPTY, dom, map[], es, 2);
    RunOne(EMPTY, dom, map[], es, 3);
    assert es[..4] == es;
  }
}
