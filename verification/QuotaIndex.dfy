/** The index of queue units by quota that the framework keeps from unit events, against
    the forward mapping it inverts. */
module QuotaIndex {
  import opened Amounts

  /** The quotas last recorded for a UID, and which names are listed under which quota. */
  datatype Index = Index(mapping: map<string, set<string>>, listed: set<(string, string)>)

  datatype Event = Put(uid: string, name: string, quotas: set<string>) | Gone(uid: string, name: string)

  function Recorded(x: Index, uid: string): set<string> {
    if uid in x.mapping then x.mapping[uid] else {}
  }

  function Elements(quotas: seq<string>): set<string> {
    set q | q in quotas
  }

  function Under(quotas: set<string>, name: string): set<(string, string)> {
    set q | q in quotas :: (q, name)
  }

  function Step(x: Index, e: Event): Index {
    var rest := x.listed - Under(Recorded(x, e.uid), e.name);
    match e
    case Put(uid, name, quotas) => Index(x.mapping[uid := quotas], rest + Under(quotas, name))
    case Gone(uid, name) => Index(x.mapping - {uid}, rest)
  }

  // ---------- What the index should hold ----------

  datatype Unit = Unit(uid: string, quotas: set<string>)

  /** The live units by name, each with its last mapping. */
  type World = map<string, Unit>

  function WorldStep(w: World, e: Event): World {
    match e
    case Put(uid, name, quotas) => w[name := Unit(uid, quotas)]
    case Gone(uid, name) => w - {name}
  }

  /** A name is listed under a quota exactly when the last mapping of its unit says so. */
  ghost predicate Inverts(x: Index, w: World) {
    forall q, n :: (q, n) in x.listed <==> n in w && q in w[n].quotas
  }

  function Mapped(w: World, name: string): set<string> {
    if name in w then w[name].quotas else {}
  }

  function NewQuotas(e: Event): set<string> {
    if e.Put? then e.quotas else {}
  }

  /** One event keeps the index exact if and only if whatever the name is listed under is
      recorded for the UID of the event, or listed anew. */
  lemma StepInvertsIff(x: Index, w: World, e: Event)
    requires Inverts(x, w)
    ensures Inverts(Step(x, e), WorldStep(w, e)) <==> Mapped(w, e.name) <= Recorded(x, e.uid) + NewQuotas(e)
  {
    var y, v := Step(x, e), WorldStep(w, e);
    forall q, n ensures (q, n) in y.listed <==>
      if n == e.name then q in NewQuotas(e) || (q in Mapped(w, n) && q !in Recorded(x, e.uid))
      else n in w && q in w[n].quotas
    {
      assert (q, n) in x.listed <==> n in w && q in w[n].quotas;
    }
    if Inverts(y, v) {
      forall q | q in Mapped(w, e.name) ensures q in Recorded(x, e.uid) + NewQuotas(e) {
        assert (q, e.name) in y.listed <==> e.name in v && q in v[e.name].quotas;
      }
    }
  }

  /** Names and UIDs belong together when the event arrives. */
  predicate OneUid(w: World, e: Event) {
    (e.name in w ==> w[e.name].uid == e.uid) && forall n :: n in w && w[n].uid == e.uid ==> n == e.name
  }

  ghost predicate Agrees(x: Index, w: World) {
    Inverts(x, w) && forall n :: n in w ==> w[n].uid in x.mapping && x.mapping[w[n].uid] == w[n].quotas
  }

  lemma StepAgrees(x: Index, w: World, e: Event)
    requires Agrees(x, w) && OneUid(w, e)
    ensures Agrees(Step(x, e), WorldStep(w, e))
  {
    StepInvertsIff(x, w, e);
  }

  function Run(x: Index, es: seq<Event>): Index {
    if es == [] then x else Step(Run(x, es[..|es| - 1]), es[|es| - 1])
  }

  function WorldRun(w: World, es: seq<Event>): World {
    if es == [] then w else WorldStep(WorldRun(w, es[..|es| - 1]), es[|es| - 1])
  }

  ghost predicate OneUidThroughout(w: World, es: seq<Event>) {
    forall i :: 0 <= i < |es| ==> OneUid(WorldRun(w, es[..i]), es[i])
  }

  /** Over every run in which a name belongs to one UID at a time, the index is exact. */
  lemma {:induction false} RunsAgree(x: Index, w: World, es: seq<Event>)
    requires Agrees(x, w) && OneUidThroughout(w, es)
    ensures Agrees(Run(x, es), WorldRun(w, es))
  {
    if es != [] {
      var n := |es| - 1;
      assert forall i :: 0 <= i < n ==> es[..n][..i] == es[..i];
      assert OneUid(WorldRun(w, es[..n]), es[n]);
      RunsAgree(x, w, es[..n]);
      StepAgrees(Run(x, es[..n]), WorldRun(w, es[..n]), es[n]);
    }
  }

  /** Exactly the UIDs of live units are recorded. */
  ghost predicate Tracks(x: Index, w: World) {
    forall uid :: uid in x.mapping <==> exists n :: n in w && w[n].uid == uid
  }

  lemma StepTracks(x: Index, w: World, e: Event)
    requires Tracks(x, w) && OneUid(w, e)
    ensures Tracks(Step(x, e), WorldStep(w, e))
  {
    var y, v := Step(x, e), WorldStep(w, e);
    forall uid ensures uid in y.mapping <==> exists n :: n in v && v[n].uid == uid {
      if e.Put? && uid == e.uid {
        assert v[e.name].uid == uid;
      }
      if n :| n in w && w[n].uid == uid && uid != e.uid {
        assert n in v && v[n].uid == uid;
      }
    }
  }

  /** Over every run with one UID per name nothing stays recorded of units that are gone. */
  lemma {:induction false} RunsTrack(x: Index, w: World, es: seq<Event>)
    requires Tracks(x, w) && OneUidThroughout(w, es)
    ensures Tracks(Run(x, es), WorldRun(w, es))
  {
    if es != [] {
      var n := |es| - 1;
      assert forall i :: 0 <= i < n ==> es[..n][..i] == es[..i];
      assert OneUid(WorldRun(w, es[..n]), es[n]);
      RunsTrack(x, w, es[..n]);
      StepTracks(Run(x, es[..n]), WorldRun(w, es[..n]), es[n]);
    }
  }

  /** A name that passes to another UID without a deletion stays listed where it was. */
  lemma ReusedNameStaysListed()
    ensures var es := [Put("u", "n", {"a"}), Put("v", "n", {"b"})];
      ("a", "n") in Run(Index(map[], {}), es).listed && "a" !in WorldRun(map[], es)["n"].quotas
  {
    var es := [Put("u", "n", {"a"}), Put("v", "n", {"b"})];
    assert es[..1] == [Put("u", "n", {"a"})] && es[..1][..0] == [];
    var none := Index(map[], {});
    assert Run(none, es[..1][..0]) == none;
    var x := Run(none, es[..1]);
    assert x == Step(none, es[0]);
    assert ("a", "n") in Under({"a"}, "n");
    assert Recorded(x, "v") == {};
    assert Run(none, es) == Step(x, es[1]);
    assert WorldRun(map[], es)["n"] == Unit("v", {"b"});
  }

  // ---------- The handlers ----------

  /** The unit as it is listed. */
  datatype Entry = Entry(name: string, quota: string)

  function Lookup(x: Index, quota: string): set<Entry> {
    set p | p in x.listed && p.0 == quota :: Entry(p.1, quota)
  }

  /** The lookup is the filter over all live units. */
  lemma LookupIsFilter(x: Index, w: World, quota: string)
    requires Inverts(x, w)
    ensures Lookup(x, quota) == set n | n in w && quota in w[n].quotas :: Entry(n, quota)
  {
    var filtered := set n | n in w && quota in w[n].quotas :: Entry(n, quota);
    forall e | e in filtered ensures e in Lookup(x, quota) {
      assert (quota, e.name) in x.listed;
    }
    forall e | e in Lookup(x, quota) ensures e in filtered {
      assert (e.quota, e.name) in x.listed;
    }
  }

  class Framework {
    var queueUnitQuotaMapping: map<string, seq<string>>
    var queueUnitsByQuota: map<string, map<string, Entry>>

    constructor ()
      ensures View() == Index(map[], {}) && Faithful()
    {
      queueUnitQuotaMapping, queueUnitsByQuota := map[], map[];
    }

    ghost function View(): Index
      reads this
    {
      Index(map u | u in queueUnitQuotaMapping :: Elements(queueUnitQuotaMapping[u]), ListedIn(queueUnitsByQuota))
    }

    /** Entries name the unit and the quota they are stored under. */
    ghost predicate Faithful()
      reads this
    {
      forall q, n :: q in queueUnitsByQuota && n in queueUnitsByQuota[q] ==> queueUnitsByQuota[q][n] == Entry(n, q)
    }

    method Unlist(quotas: seq<string>, name: string)
      requires Faithful()
      modifies this`queueUnitsByQuota
      ensures Faithful()
      ensures ListedIn(queueUnitsByQuota) == ListedIn(old(queueUnitsByQuota)) - Under(Elements(quotas), name)
    {
      ghost var before := queueUnitsByQuota;
      for i := 0 to |quotas|
        invariant Faithful()
        invariant ListedIn(queueUnitsByQuota) == ListedIn(before) - Under(Elements(quotas[..i]), name)
      {
        var q := quotas[i];
        assert quotas[..i + 1] == quotas[..i] + [q];
        ghost var b := queueUnitsByQuota;
        if q in queueUnitsByQuota {
          queueUnitsByQuota := queueUnitsByQuota[q := queueUnitsByQuota[q] - {name}];
        }
        assert ListedIn(queueUnitsByQuota) == ListedIn(b) - {(q, name)};
      }
      assert quotas[..|quotas|] == quotas;
    }

    method List(quotas: seq<string>, name: string)
      requires Faithful()
      modifies this`queueUnitsByQuota
      ensures Faithful()
      ensures ListedIn(queueUnitsByQuota) == ListedIn(old(queueUnitsByQuota)) + Under(Elements(quotas), name)
    {
      ghost var before := queueUnitsByQuota;
      for i := 0 to |quotas|
        invariant Faithful()
        invariant ListedIn(queueUnitsByQuota) == ListedIn(before) + Under(Elements(quotas[..i]), name)
      {
        var q := quotas[i];
        assert quotas[..i + 1] == quotas[..i] + [q];
        ghost var b := queueUnitsByQuota;
        ListOne(b, q, name);
        if q !in queueUnitsByQuota {
          queueUnitsByQuota := queueUnitsByQuota[q := map[]];
        }
        queueUnitsByQuota := queueUnitsByQuota[q := queueUnitsByQuota[q][name := Entry(name, q)]];
        assert queueUnitsByQuota == WithEntry(b, q, name);
      }
      assert quotas[..|quotas|] == quotas;
    }

    /** onQueueUnitAddOrUpdate; `quotas` is None when the provider fails. */
    method OnQueueUnitAddOrUpdate(uid: string, name: string, quotas: Option<seq<string>>)
      requires Faithful()
      modifies this
      ensures Faithful()
      ensures View() == if quotas.None? then old(View()) else Step(old(View()), Put(uid, name, Elements(quotas.value)))
    {
      if quotas.None? {
        return;
      }
      if uid in queueUnitQuotaMapping {
        Unlist(queueUnitQuotaMapping[uid], name);
      }
      queueUnitQuotaMapping := queueUnitQuotaMapping[uid := quotas.value];
      List(quotas.value, name);
    }

    method OnQueueUnitDelete(uid: string, name: string)
      requires Faithful()
      modifies this
      ensures Faithful() && View() == Step(old(View()), Gone(uid, name))
    {
      if uid in queueUnitQuotaMapping {
        Unlist(queueUnitQuotaMapping[uid], name);
        queueUnitQuotaMapping := queueUnitQuotaMapping - {uid};
      }
    }

    /** The lookup returns the listed units, each once. */
    method GetQueueUnitInfoByQuota(quota: string) returns (units: seq<Entry>)
      requires Faithful()
      ensures multiset(units) == multiset(Lookup(View(), quota))
    {
      units := [];
      if quota !in queueUnitsByQuota {
        assert forall n :: (quota, n) !in View().listed;
        return;
      }
      var m := queueUnitsByQuota[quota];
      var todo := m.Keys;
      while todo != {}
        invariant todo <= m.Keys
        invariant multiset(units) == multiset(set n | n in m.Keys - todo :: m[n])
      {
        var n :| n in todo;
        assert (set k | k in m.Keys - (todo - {n}) :: m[k]) == (set k | k in m.Keys - todo :: m[k]) + {m[n]};
        assert m[n] !in set k | k in m.Keys - todo :: m[k];
        todo := todo - {n};
        units := units + [m[n]];
      }
      forall n | n in m ensures m[n] in Lookup(View(), quota) {
        assert (quota, n) in View().listed;
      }
      assert (set n | n in m.Keys :: m[n]) == Lookup(View(), quota);
    }
  }

  function WithEntry(b: map<string, map<string, Entry>>, q: string, name: string): map<string, map<string, Entry>> {
    b[q := (if q in b then b[q] else map[])[name := Entry(name, q)]]
  }

  lemma ListOne(b: map<string, map<string, Entry>>, q: string, name: string)
    ensures ListedIn(WithEntry(b, q, name)) == ListedIn(b) + {(q, name)}
  {
    var c := WithEntry(b, q, name);
    forall p | p in ListedIn(b) ensures p in ListedIn(c) {
      assert p.0 in c && p.1 in c[p.0];
    }
  }

  ghost function ListedIn(b: map<string, map<string, Entry>>): set<(string, string)> {
    set q, n | q in b && n in b[q] :: (q, n)
  }
}
