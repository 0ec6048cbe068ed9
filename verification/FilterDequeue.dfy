/** What filter plugins grant and what Dequeue then adds to the admissions. A plugin is a
    function of the unit and the request; its failure is an answer. */
module FilterDequeue {
  import opened Amounts
  import opened QueueUnits
  import Reclaim

  const MAX_REPLICAS := 0x7fff_ffff_ffff_ffff

  datatype Answer = Denied(message: string) | Granted(admissions: map<string, int>)

  type Plugin = (UnitRecord, map<string, int>) -> Answer

  function Have(u: UnitRecord, name: string): int {
    var have := Admitted(u.admissions);
    if name in have then have[name] else 0
  }

  predicate OverAdmitted(u: UnitRecord, name: string)
    requires name in Requirements(u)
  {
    Requirements(u)[name] < Have(u, name)
  }

  /** The request handed to the plugins: what is missing, but all of an over-admitted
      pod set again. */
  function Request(u: UnitRecord): map<string, int> {
    map n | n in Requirements(u) && Requirements(u)[n] != Have(u, n) ::
      if OverAdmitted(u, n) then Requirements(u)[n] else Requirements(u)[n] - Have(u, n)
  }

  /** The smallest answer for a name, the maximum if no plugin mentions it. */
  function Least(answers: seq<Answer>, name: string): int {
    if answers == [] then MAX_REPLICAS
    else
      var rest, a := Least(answers[..|answers| - 1], name), answers[|answers| - 1];
      if a.Granted? && name in a.admissions then Min(rest, a.admissions[name]) else rest
  }

  /** What is granted when every plugin grants something. */
  function Agreed(request: map<string, int>, answers: seq<Answer>): map<string, int> {
    map n | n in request && Least(answers, n) != 0 && Least(answers, n) != MAX_REPLICAS :: Least(answers, n)
  }

  predicate AllGranted(answers: seq<Answer>) {
    forall a :: a in answers ==> a.Granted?
  }

  function Answers(u: UnitRecord, plugins: seq<Plugin>): seq<Answer> {
    seq(|plugins|, i requires 0 <= i < |plugins| => plugins[i](u, Request(u)))
  }

  // ---------- The loops of RunFilterPlugins ----------

  method BuildRequest(u: UnitRecord) returns (request: map<string, int>)
    ensures request == Request(u)
  {
    request := Requirements(u);
    var todo := request.Keys;
    while todo != {}
      invariant todo <= Requirements(u).Keys
      invariant request == (map n | n in Requirements(u) && (n in todo || n in Request(u)) ::
                              if n in todo then Requirements(u)[n] else Request(u)[n])
    {
      var n :| n in todo;
      todo := todo - {n};
      if request[n] > Have(u, n) {
        request := request[n := request[n] - Have(u, n)];
      } else if request[n] == Have(u, n) {
        request := request - {n};
      }
    }
  }

  /** One plugin's answer lowers the result. */
  method Lower(result: map<string, int>, answer: map<string, int>) returns (lower: map<string, int>)
    ensures lower == map n | n in result :: if n in answer then Min(result[n], answer[n]) else result[n]
  {
    lower := result;
    var todo := answer.Keys;
    while todo != {}
      invariant todo <= answer.Keys
      invariant lower == map n | n in result :: if n in answer.Keys - todo then Min(result[n], answer[n]) else result[n]
    {
      var n :| n in todo;
      todo := todo - {n};
      if n in lower {
        if lower[n] > answer[n] {
          lower := lower[n := answer[n]];
        }
      }
    }
  }

  /** The last loop: names nobody answered for, or got nothing for, are dropped. */
  method Drop(result: map<string, int>) returns (kept: map<string, int>)
    ensures kept == map n | n in result && result[n] != 0 && result[n] != MAX_REPLICAS :: result[n]
  {
    kept := result;
    var todo := result.Keys;
    while todo != {}
      invariant todo <= result.Keys
      invariant kept == map n | n in result && (n in todo || (result[n] != 0 && result[n] != MAX_REPLICAS)) :: result[n]
    {
      var n :| n in todo;
      todo := todo - {n};
      if kept[n] == 0 || kept[n] == MAX_REPLICAS {
        kept := kept - {n};
      }
    }
  }

  function LeastOf(request: map<string, int>, answers: seq<Answer>): map<string, int> {
    map n | n in request :: Least(answers, n)
  }

  /** The loop over the plugins, which stops at the first denial. */
  method AskPlugins(u: UnitRecord, request: map<string, int>, plugins: seq<Plugin>) returns (r: Answer)
    requires request == Request(u)
    ensures r.Granted? <==> AllGranted(Answers(u, plugins))
    ensures r.Granted? ==> r.admissions == LeastOf(request, Answers(u, plugins))
    ensures r.Denied? ==> r in Answers(u, plugins)
  {
    var result := map n | n in request :: MAX_REPLICAS;
    ghost var answers := Answers(u, plugins);
    for i := 0 to |plugins|
      invariant AllGranted(answers[..i]) && result == LeastOf(request, answers[..i])
    {
      var a := plugins[i](u, request);
      assert a == answers[i];
      if a.Denied? {
        return a;
      }
      LeastMore(answers, i);
      result := Lower(result, a.admissions);
    }
    assert answers[..|plugins|] == answers;
    r := Granted(result);
  }

  method RunFilterPlugins(u: UnitRecord, plugins: seq<Plugin>) returns (r: Answer)
    ensures r.Granted? <==> AllGranted(Answers(u, plugins))
    ensures r.Granted? ==> r.admissions == Agreed(Request(u), Answers(u, plugins))
    ensures r.Denied? ==> r in Answers(u, plugins)
  {
    var request := BuildRequest(u);
    r := AskPlugins(u, request, plugins);
    if r.Granted? {
      var kept := Drop(r.admissions);
      r := Granted(kept);
    }
  }

  /** `m` asks for what pod set `p` lacks beside `has` replicas: nothing if they are just
      enough, and all of them again if they are too many. */
  ghost predicate AsksFor(m: map<string, int>, p: PodSet, has: int) {
    && (p.name in m <==> has != p.count)
    && (p.name in m ==> m[p.name] == if p.count < has then p.count else p.count - has)
  }

  /** What a pod set has: the replicas of the admission of its name, or none. */
  ghost predicate HasReplicas(ads: seq<Admission>, p: PodSet, has: int) {
    || (exists k :: 0 <= k < |ads| && ads[k].name == p.name && ads[k].replicas == has)
    || (has == 0 && forall k :: 0 <= k < |ads| ==> ads[k].name != p.name)
  }

  /** Every plugin is asked for what the pod sets lack. */
  lemma AskedFor(u: UnitRecord, plugins: seq<Plugin>, i: nat) returns (m: map<string, int>)
    requires i < |plugins| && u.podSets != [] && UniquePodSets(u.podSets) && UniqueNames(u.admissions)
    ensures |Answers(u, plugins)| == |plugins| && Answers(u, plugins)[i] == plugins[i](u, m)
    ensures forall j, has :: 0 <= j < |u.podSets| && HasReplicas(u.admissions, u.podSets[j], has) ==> AsksFor(m, u.podSets[j], has)
  {
    m := Request(u);
    forall j, has | 0 <= j < |u.podSets| && HasReplicas(u.admissions, u.podSets[j], has) ensures AsksFor(m, u.podSets[j], has) {
      LastCountWins(u.podSets, j);
      AdmittedName(u.admissions, u.podSets[j].name);
      if k :| 0 <= k < |u.admissions| && u.admissions[k].name == u.podSets[j].name && u.admissions[k].replicas == has {
        LastAdmissionWins(u.admissions, k);
      }
    }
  }

  lemma LeastMore(answers: seq<Answer>, i: nat)
    requires i < |answers| && answers[i].Granted?
    ensures forall n :: Least(answers[..i + 1], n) ==
              if n in answers[i].admissions then Min(Least(answers[..i], n), answers[i].admissions[n]) else Least(answers[..i], n)
  {
    assert answers[..i + 1][..i] == answers[..i];
  }

  // ---------- The order of the plugins ----------

  /** A lower bound that is met: what Least is, without an order. */
  ghost predicate IsLeast(answers: seq<Answer>, name: string, x: int) {
    && x <= MAX_REPLICAS
    && (forall a :: a in answers && a.Granted? && name in a.admissions ==> x <= a.admissions[name])
    && (x == MAX_REPLICAS || exists a :: a in answers && a.Granted? && name in a.admissions && x == a.admissions[name])
  }

  lemma {:induction false} LeastIsLeast(answers: seq<Answer>, name: string)
    ensures IsLeast(answers, name, Least(answers, name))
  {
    if answers != [] {
      var rest, a := answers[..|answers| - 1], answers[|answers| - 1];
      LeastIsLeast(rest, name);
      assert forall b :: b in answers <==> b in rest || b == a;
    }
  }

  /** A result that is granted does not depend on the order of the plugins. */
  lemma OrderDoesNotMatter(request: map<string, int>, a: seq<Answer>, b: seq<Answer>)
    requires multiset(a) == multiset(b)
    ensures AllGranted(a) <==> AllGranted(b)
    ensures Agreed(request, a) == Agreed(request, b)
  {
    assert forall x :: x in a <==> x in multiset(a);
    assert forall x :: x in b <==> x in multiset(b);
    forall n ensures Least(a, n) == Least(b, n) {
      LeastIsLeast(a, n);
      LeastIsLeast(b, n);
    }
  }

  // ---------- What the plugins answer ----------

  /** Every plugin grants exactly the request, and there is one. */
  ghost predicate Echo(request: map<string, int>, answers: seq<Answer>) {
    answers != [] && forall i :: 0 <= i < |answers| ==> answers[i] == Granted(request)
  }

  /** Every plugin grants at most the request, and nothing negative. */
  ghost predicate Modest(request: map<string, int>, answers: seq<Answer>) {
    forall a :: a in answers ==> a.Granted? && forall n :: n in a.admissions && n in request ==> 0 <= a.admissions[n] <= request[n]
  }

  /** Pod set counts are 32-bit and not negative. */
  predicate CountsFit(u: UnitRecord) {
    forall n :: n in Requirements(u) ==> 0 <= Requirements(u)[n] < MAX_REPLICAS
  }

  lemma EchoAgrees(u: UnitRecord, answers: seq<Answer>)
    requires Echo(Request(u), answers) && CountsFit(u) && HaveNonNegative(u)
    ensures AllGranted(answers)
    ensures Agreed(Request(u), answers) == map n | n in Request(u) && Request(u)[n] != 0 :: Request(u)[n]
  {
    forall n | n in Request(u) ensures Least(answers, n) == Request(u)[n] {
      LeastIsLeast(answers, n);
      assert answers[0] in answers;
    }
  }

  ghost predicate HaveNonNegative(u: UnitRecord) {
    forall n :: n in Admitted(u.admissions) ==> 0 <= Admitted(u.admissions)[n]
  }

  lemma ModestAgrees(request: map<string, int>, answers: seq<Answer>, n: string)
    requires Modest(request, answers) && n in Agreed(request, answers)
    ensures 0 < Agreed(request, answers)[n] <= request[n]
  {
    LeastIsLeast(answers, n);
  }

  // ---------- Dequeue ----------

  /** The admissions after the granted ones were added, in the order a map is walked. */
  function Merge(ads: seq<Admission>, granted: seq<(string, int)>): seq<Admission> {
    if granted == [] then ads
    else
      var rest, g := granted[..|granted| - 1], granted[|granted| - 1];
      Reclaim.AdmitMore(Merge(ads, rest), g.0, g.1)
  }

  lemma AdmitMoreHead(ads: seq<Admission>, name: string, more: int)
    requires ads != [] && ads[0].name != name
    ensures Reclaim.AdmitMore(ads, name, more) == [ads[0]] + Reclaim.AdmitMore(ads[1..], name, more)
  {
  }

  lemma {:induction false} AdmitMoreSplit(ads: seq<Admission>, i: nat, name: string, more: int)
    requires i <= |ads| && forall k :: 0 <= k < i ==> ads[k].name != name
    ensures Reclaim.AdmitMore(ads, name, more) == ads[..i] + Reclaim.AdmitMore(ads[i..], name, more)
  {
    if i == 0 {
      assert ads[0..] == ads;
    } else {
      var rest, tail := ads[1..], Reclaim.AdmitMore(ads[i..], name, more);
      AdmitMoreHead(ads, name, more);
      AdmitMoreSplit(rest, i - 1, name, more);
      assert rest[i - 1..] == ads[i..] && [ads[0]] + rest[..i - 1] == ads[..i];
      assert [ads[0]] + (rest[..i - 1] + tail) == [ads[0]] + rest[..i - 1] + tail;
    }
  }

  /** The inner loop of Dequeue. */
  method AddGranted(ads: seq<Admission>, name: string, more: int) returns (after: seq<Admission>)
    ensures after == Reclaim.AdmitMore(ads, name, more)
  {
    var i := 0;
    while i < |ads|
      invariant 0 <= i <= |ads|
      invariant forall k :: 0 <= k < i ==> ads[k].name != name
    {
      if ads[i].name == name {
        AdmitMoreSplit(ads, i, name, more);
        assert ads[i..][1..] == ads[i + 1..];
        return ads[i := ads[i].(replicas := ads[i].replicas + more)];
      }
      i := i + 1;
    }
    AdmitMoreSplit(ads, |ads|, name, more);
    after := ads + [Admission(name, more, 0, map[], None)];
  }

  /** How much is granted to a name, and to which names anything. */
  function Added(granted: seq<(string, int)>, name: string): int {
    if granted == [] then 0
    else
      var g := granted[|granted| - 1];
      Added(granted[..|granted| - 1], name) + if g.0 == name then g.1 else 0
  }

  function NamesOf(granted: seq<(string, int)>): set<string> {
    if granted == [] then {} else NamesOf(granted[..|granted| - 1]) + {granted[|granted| - 1].0}
  }

  /** The order lists exactly the granted replicas. */
  ghost predicate Lists(order: seq<(string, int)>, granted: map<string, int>) {
    NamesOf(order) == granted.Keys && forall n :: Added(order, n) == if n in granted then granted[n] else 0
  }

  /** The unit with the granted replicas merged in, in some order. */
  ghost predicate Merged(u: UnitRecord, granted: map<string, int>, after: UnitRecord) {
    exists order :: Lists(order, granted) && after == u.(admissions := Merge(u.admissions, order))
  }

  method Dequeue(u: UnitRecord, granted: map<string, int>) returns (ads: seq<Admission>)
    ensures Merged(u, granted, u.(admissions := ads))
  {
    ads := u.admissions;
    ghost var order: seq<(string, int)> := [];
    var todo := granted.Keys;
    while todo != {}
      invariant todo <= granted.Keys
      invariant ads == Merge(u.admissions, order)
      invariant NamesOf(order) == granted.Keys - todo
      invariant forall n :: Added(order, n) == if n in granted.Keys - todo then granted[n] else 0
    {
      var n :| n in todo;
      todo := todo - {n};
      assert (order + [(n, granted[n])])[..|order|] == order;
      order := order + [(n, granted[n])];
      ads := AddGranted(ads, n, granted[n]);
    }
    assert Lists(order, granted);
  }

  lemma {:induction false} AdmittedUpdate(ads: seq<Admission>, i: nat, r: int)
    requires UniqueNames(ads) && i < |ads|
    ensures ads[i].name in Admitted(ads) && Admitted(ads)[ads[i].name] == ads[i].replicas
    ensures Admitted(ads[i := ads[i].(replicas := r)]) == Admitted(ads)[ads[i].name := r]
  {
    var n, after := |ads| - 1, ads[i := ads[i].(replicas := r)];
    if i == n {
      assert after[..n] == ads[..n];
    } else {
      AdmittedUpdate(ads[..n], i, r);
      assert after[..n] == ads[..n][i := ads[i].(replicas := r)];
      assert ads[n].name != ads[i].name;
    }
  }

  lemma {:induction false} AdmittedNames(ads: seq<Admission>, n: string)
    requires n in Admitted(ads)
    ensures exists i :: 0 <= i < |ads| && ads[i].name == n
  {
    var k := |ads| - 1;
    if ads[k].name != n {
      AdmittedNames(ads[..k], n);
      var i :| 0 <= i < k && ads[..k][i].name == n;
      assert ads[i].name == n;
    }
  }

  function HaveIn(ads: seq<Admission>, name: string): int {
    if name in Admitted(ads) then Admitted(ads)[name] else 0
  }

  lemma AdmitMoreAt(ads: seq<Admission>, i: nat, more: int)
    requires UniqueNames(ads) && i < |ads|
    ensures Reclaim.AdmitMore(ads, ads[i].name, more) == ads[i := ads[i].(replicas := ads[i].replicas + more)]
  {
    AdmitMoreSplit(ads, i, ads[i].name, more);
    assert ads[i..][1..] == ads[i + 1..];
  }

  lemma AdmitMoreNew(ads: seq<Admission>, name: string, more: int)
    requires forall i :: 0 <= i < |ads| ==> ads[i].name != name
    ensures Reclaim.AdmitMore(ads, name, more) == ads + [Admission(name, more, 0, map[], None)]
  {
    AdmitMoreSplit(ads, |ads|, name, more);
  }

  lemma AdmittedAppend(ads: seq<Admission>, a: Admission)
    requires UniqueNames(ads) && forall i :: 0 <= i < |ads| ==> ads[i].name != a.name
    ensures UniqueNames(ads + [a]) && a.name !in Admitted(ads)
    ensures Admitted(ads + [a]) == Admitted(ads)[a.name := a.replicas]
  {
    assert (ads + [a])[..|ads|] == ads;
    if a.name in Admitted(ads) {
      AdmittedNames(ads, a.name);
    }
  }

  lemma AdmitMoreAdmitted(ads: seq<Admission>, name: string, more: int)
    requires UniqueNames(ads)
    ensures UniqueNames(Reclaim.AdmitMore(ads, name, more))
    ensures Admitted(Reclaim.AdmitMore(ads, name, more)) == Admitted(ads)[name := HaveIn(ads, name) + more]
  {
    var after := Reclaim.AdmitMore(ads, name, more);
    if i :| 0 <= i < |ads| && ads[i].name == name {
      var r := ads[i].replicas + more;
      assert after == ads[i := ads[i].(replicas := r)] by { AdmitMoreAt(ads, i, more); }
      AdmittedUpdate(ads, i, r);
    } else {
      var a := Admission(name, more, 0, map[], None);
      assert after == ads + [a] by { AdmitMoreNew(ads, name, more); }
      AdmittedAppend(ads, a);
    }
  }

  /** What is granted adds to what was admitted. */
  lemma {:induction false} MergeAdds(ads: seq<Admission>, order: seq<(string, int)>)
    requires UniqueNames(ads)
    ensures UniqueNames(Merge(ads, order))
    ensures Admitted(Merge(ads, order)).Keys == Admitted(ads).Keys + NamesOf(order)
    ensures forall n :: HaveIn(Merge(ads, order), n) == HaveIn(ads, n) + Added(order, n)
  {
    if order != [] {
      var k := |order| - 1;
      MergeAdds(ads, order[..k]);
      AdmitMoreAdmitted(Merge(ads, order[..k]), order[k].0, order[k].1);
    }
  }

  // ---------- Filter, then Dequeue ----------

  lemma MergedAdds(u: UnitRecord, granted: map<string, int>, after: UnitRecord)
    requires UniqueNames(u.admissions) && Merged(u, granted, after)
    ensures Requirements(after) == Requirements(u)
    ensures Admitted(after.admissions).Keys == Admitted(u.admissions).Keys + granted.Keys
    ensures forall n :: Have(after, n) == Have(u, n) + if n in granted then granted[n] else 0
  {
    var order :| Lists(order, granted) && after == u.(admissions := Merge(u.admissions, order));
    MergeAdds(u.admissions, order);
    forall n ensures Have(after, n) == Have(u, n) + if n in granted then granted[n] else 0 {
      assert HaveIn(Merge(u.admissions, order), n) == HaveIn(u.admissions, n) + Added(order, n);
    }
  }

  /** When every plugin echoes the request, the admissions become exactly what is
      required, except that an over-admitted pod set gets its whole count once more. */
  lemma EchoAdmitsShortfall(u: UnitRecord, answers: seq<Answer>, after: UnitRecord, n: string)
    requires UniqueNames(u.admissions) && CountsFit(u) && HaveNonNegative(u)
    requires Echo(Request(u), answers) && Merged(u, Agreed(Request(u), answers), after)
    requires n in Requirements(u)
    ensures Have(after, n) == Requirements(u)[n] + if OverAdmitted(u, n) then Have(u, n) else 0
    ensures n in Admitted(after.admissions) <==> n in Admitted(u.admissions) || Requirements(u)[n] > 0
  {
    EchoAgrees(u, answers);
    MergedAdds(u, Agreed(Request(u), answers), after);
  }

  /** So the unit is satisfied exactly when no pod set of count zero lacks an admission. */
  lemma EchoSatisfiesIff(u: UnitRecord, answers: seq<Answer>, after: UnitRecord)
    requires UniqueNames(u.admissions) && CountsFit(u) && HaveNonNegative(u)
    requires Echo(Request(u), answers) && Merged(u, Agreed(Request(u), answers), after)
    ensures IsSatisfied(after) <==> forall n :: n in Requirements(u) ==> Requirements(u)[n] > 0 || n in Admitted(u.admissions)
  {
    MergedAdds(u, Agreed(Request(u), answers), after);
    forall n | n in Requirements(u)
      ensures n in Admitted(after.admissions) <==> Requirements(u)[n] > 0 || n in Admitted(u.admissions)
      ensures n in Admitted(after.admissions) ==> Requirements(u)[n] <= Admitted(after.admissions)[n]
    {
      EchoAdmitsShortfall(u, answers, after, n);
    }
  }

  /** When plugins grant at most what is asked for, no pod set that was not over-admitted
      becomes so, and nothing admitted is lost. */
  lemma ModestNeverExceeds(u: UnitRecord, answers: seq<Answer>, after: UnitRecord, n: string)
    requires UniqueNames(u.admissions) && Modest(Request(u), answers)
    requires Merged(u, Agreed(Request(u), answers), after) && n in Requirements(u)
    ensures Have(u, n) <= Have(after, n)
    ensures !OverAdmitted(u, n) ==> Have(after, n) <= Requirements(u)[n]
  {
    MergedAdds(u, Agreed(Request(u), answers), after);
    if n in Agreed(Request(u), answers) {
      ModestAgrees(Request(u), answers, n);
    }
  }

  /** A pod set ends up within its count exactly when it was not over-admitted before. */
  lemma OverAdmittedGrows(u: UnitRecord, answers: seq<Answer>, after: UnitRecord, n: string)
    requires UniqueNames(u.admissions) && Modest(Request(u), answers)
    requires Merged(u, Agreed(Request(u), answers), after) && n in Requirements(u)
    ensures Have(after, n) <= Requirements(u)[n] <==> !OverAdmitted(u, n)
  {
    ModestNeverExceeds(u, answers, after, n);
  }

  // ---------- Where satisfaction fails ----------

  /** A pod set of count zero: nothing is requested, nothing is granted, and the unit
      still lacks its admission. */
  lemma ZeroCountStaysUnsatisfied(u: UnitRecord)
    requires u.podSets == [PodSet("w", 0, map[])] && u.admissions == []
    ensures var answers := [Granted(map[])];
      Echo(Request(u), answers) && Merged(u, Agreed(Request(u), answers), u) && !IsSatisfied(u)
  {
    OnePodSet(u, PodSet("w", 0, map[]));
    assert Admitted(u.admissions) == map[];
    assert Request(u) == map[];
    var order: seq<(string, int)> := [];
    assert Agreed(Request(u), [Granted(map[])]) == map[];
    assert Lists(order, map[]) && Merge(u.admissions, order) == u.admissions;
    assert "w" in Requirements(u);
  }

  /** An over-admitted pod set: three of two replicas are admitted, two are requested once
      more, and five are admitted in the end. */
  lemma OverAdmittedGetsMore(u: UnitRecord)
    requires u.podSets == [PodSet("w", 2, map[])] && u.admissions == [Admission("w", 3, 3, map[], None)]
    ensures var answers, after := [Granted(map["w" := 2])], u.(admissions := [Admission("w", 5, 3, map[], None)]);
      && Echo(Request(u), answers) && Merged(u, Agreed(Request(u), answers), after)
      && Have(after, "w") == 5 > Requirements(u)["w"] == 2
  {
    var answers, after := [Granted(map["w" := 2])], u.(admissions := [Admission("w", 5, 3, map[], None)]);
    OnePodSet(u, PodSet("w", 2, map[]));
    assert u.admissions[..0] == [] && after.admissions[..0] == [];
    assert Admitted(u.admissions[..0]) == map[] && Admitted(after.admissions[..0]) == map[];
    assert Admitted(u.admissions) == map["w" := 3] && Admitted(after.admissions) == map["w" := 5];
    assert Request(u) == map["w" := 2];
    assert answers[..0] == [] && Least(answers[..0], "w") == MAX_REPLICAS && Least(answers, "w") == 2;
    assert Agreed(Request(u), answers) == map["w" := 2];
    var order := [("w", 2)];
    assert order[..0] == [] && NamesOf(order[..0]) == {} && NamesOf(order) == {"w"};
    forall n ensures Added(order, n) == if n in map["w" := 2] then map["w" := 2][n] else 0 {
      assert Added(order[..0], n) == 0;
    }
    assert Lists(order, map["w" := 2]);
    assert Merge(u.admissions, order[..0]) == u.admissions;
    assert Merge(u.admissions, order) == after.admissions;
  }
}
