/** The pod admission controller: which pods' admission label is flipped so that as many
    pods of each pod set are admitted as it has admitted replicas. */
module PodAdmission {
  import opened Amounts
  import opened QueueUnits

  /** `gated` is the label that keeps the scheduler from looking at the pod. */
  datatype Pod = Pod(name: string, podSet: string, finished: bool, scheduled: bool, gated: bool)

  function Flip(p: Pod): Pod {
    p.(gated := !p.gated)
  }

  // ---------- The kinds of pods of a pod set ----------

  predicate Of(p: Pod, ps: string) {
    p.podSet == ps && ps != "" && !p.finished
  }

  function IsScheduled(ps: string): Pod -> bool {
    (p: Pod) => Of(p, ps) && p.scheduled
  }

  function IsOpen(ps: string): Pod -> bool {
    (p: Pod) => Of(p, ps) && !p.scheduled && !p.gated
  }

  function IsGated(ps: string): Pod -> bool {
    (p: Pod) => Of(p, ps) && !p.scheduled && p.gated
  }

  function IsAdmitted(ps: string): Pod -> bool {
    (p: Pod) => Of(p, ps) && (p.scheduled || !p.gated)
  }

  function Filter(pods: seq<Pod>, f: Pod -> bool): seq<Pod> {
    if pods == [] then []
    else Filter(pods[..|pods| - 1], f) + if f(pods[|pods| - 1]) then [pods[|pods| - 1]] else []
  }

  lemma {:induction false} FilterMembers(pods: seq<Pod>, f: Pod -> bool)
    ensures forall p :: p in Filter(pods, f) <==> p in pods && f(p)
  {
    if pods != [] {
      FilterMembers(pods[..|pods| - 1], f);
    }
  }

  lemma {:induction false} AdmittedIsScheduledOrOpen(pods: seq<Pod>, ps: string)
    ensures |Filter(pods, IsAdmitted(ps))| == |Filter(pods, IsScheduled(ps))| + |Filter(pods, IsOpen(ps))|
  {
    if pods != [] {
      AdmittedIsScheduledOrOpen(pods[..|pods| - 1], ps);
    }
  }

  lemma {:induction false} FilterTwice(pods: seq<Pod>, f: Pod -> bool, g: Pod -> bool, h: Pod -> bool)
    requires forall p :: p in pods ==> h(p) == (f(p) && g(p))
    ensures Filter(Filter(pods, f), g) == Filter(pods, h)
  {
    if pods != [] {
      var rest, p := pods[..|pods| - 1], pods[|pods| - 1];
      FilterTwice(rest, f, g, h);
      FilterMore(Filter(rest, f), p, g);
      assert Filter(rest, f) + [] == Filter(rest, f);
    }
  }

  /** Filtering the admitted pods for unscheduled ones gives the open ones. */
  lemma OpenAmongAdmitted(pods: seq<Pod>, ps: string)
    ensures Filter(Filter(pods, IsAdmitted(ps)), Unscheduled) == Filter(pods, IsOpen(ps))
    ensures Filter(Filter(pods, IsGated(ps)), Unscheduled) == Filter(pods, IsGated(ps))
  {
    FilterTwice(pods, IsAdmitted(ps), Unscheduled, IsOpen(ps));
    FilterTwice(pods, IsGated(ps), Unscheduled, IsGated(ps));
  }

  lemma FilterMore(pods: seq<Pod>, p: Pod, f: Pod -> bool)
    ensures Filter(pods + [p], f) == Filter(pods, f) + if f(p) then [p] else []
  {
    assert (pods + [p])[..|pods|] == pods;
  }

  predicate Unscheduled(p: Pod) {
    !p.scheduled
  }

  // ---------- What is flipped ----------

  /** For one admission: the first unscheduled gated pods while too few are admitted, the
      first unscheduled admitted ones while too many are. */
  function Flips(replicas: int, admitted: seq<Pod>, unadmitted: seq<Pod>): seq<Pod> {
    if |admitted| < replicas then
      Filter(unadmitted, Unscheduled)[..Min(replicas - |admitted|, |Filter(unadmitted, Unscheduled)|)]
    else if |admitted| > replicas then
      Filter(admitted, Unscheduled)[..Min(|admitted| - replicas, |Filter(admitted, Unscheduled)|)]
    else []
  }

  function FlipsOf(a: Admission, pods: seq<Pod>): seq<Pod> {
    Flips(a.replicas, Filter(pods, IsAdmitted(a.name)), Filter(pods, IsGated(a.name)))
  }

  function NamesOf(pods: seq<Pod>): set<string> {
    set p | p in pods :: p.name
  }

  /** Pods have distinct names within a namespace. */
  ghost predicate Distinct(pods: seq<Pod>) {
    forall i, j :: 0 <= i < j < |pods| ==> pods[i].name != pods[j].name
  }

  function FlippedNames(ads: seq<Admission>, pods: seq<Pod>): set<string> {
    if ads == [] then {} else FlippedNames(ads[..|ads| - 1], pods) + NamesOf(FlipsOf(ads[|ads| - 1], pods))
  }

  /** The pods after the labels of the named ones have been flipped. */
  function Flipped(pods: seq<Pod>, names: set<string>): seq<Pod> {
    seq(|pods|, i requires 0 <= i < |pods| => if pods[i].name in names then Flip(pods[i]) else pods[i])
  }

  function CountIn(pods: seq<Pod>, f: Pod -> bool, names: set<string>): nat {
    if pods == [] then 0
    else CountIn(pods[..|pods| - 1], f, names) + if f(pods[|pods| - 1]) && pods[|pods| - 1].name in names then 1 else 0
  }

  lemma FlippedMore(pods: seq<Pod>, names: set<string>)
    requires pods != []
    ensures var n := |pods| - 1;
      Flipped(pods, names) == Flipped(pods[..n], names) + [if pods[n].name in names then Flip(pods[n]) else pods[n]]
  {}

  /** Flipping pods of kind `f` and none of kind `g` moves them from `f` to `g`. */
  lemma {:induction false} FlipMoves(pods: seq<Pod>, names: set<string>, f: Pod -> bool, g: Pod -> bool)
    requires forall p {:trigger Flip(p)} :: f(Flip(p)) == g(p) && g(Flip(p)) == f(p)
    requires forall p :: p in pods && p.name in names ==> !g(p)
    ensures |Filter(Flipped(pods, names), f)| == |Filter(pods, f)| - CountIn(pods, f, names)
    ensures |Filter(Flipped(pods, names), g)| == |Filter(pods, g)| + CountIn(pods, f, names)
  {
    if pods != [] {
      var n := |pods| - 1;
      var p := if pods[n].name in names then Flip(pods[n]) else pods[n];
      FlipMoves(pods[..n], names, f, g);
      FlippedMore(pods, names);
      FilterMore(Flipped(pods[..n], names), p, f);
      FilterMore(Flipped(pods[..n], names), p, g);
    }
  }

  lemma {:induction false} FlipKeeps(pods: seq<Pod>, names: set<string>, f: Pod -> bool)
    requires forall p :: f(Flip(p)) == f(p)
    ensures |Filter(Flipped(pods, names), f)| == |Filter(pods, f)|
  {
    if pods != [] {
      var n := |pods| - 1;
      FlipKeeps(pods[..n], names, f);
      FlippedMore(pods, names);
      FilterMore(Flipped(pods[..n], names), if pods[n].name in names then Flip(pods[n]) else pods[n], f);
    }
  }

  lemma {:induction false} CountAgrees(pods: seq<Pod>, f: Pod -> bool, a: set<string>, b: set<string>)
    requires forall p :: p in pods && f(p) ==> (p.name in a <==> p.name in b)
    ensures CountIn(pods, f, a) == CountIn(pods, f, b)
  {
    if pods != [] {
      CountAgrees(pods[..|pods| - 1], f, a, b);
    }
  }

  /** The first `k` pods of a kind are `k` pods. */
  lemma {:induction false} PrefixCounts(pods: seq<Pod>, f: Pod -> bool, k: nat)
    requires Distinct(pods) && k <= |Filter(pods, f)|
    ensures CountIn(pods, f, NamesOf(Filter(pods, f)[..k])) == k
  {
    if pods != [] {
      var n := |pods| - 1;
      var rest, p := pods[..n], pods[n];
      var w := Filter(rest, f);
      assert forall q :: q in rest ==> q.name != p.name;
      FilterMembers(rest, f);
      if k <= |w| {
        assert Filter(pods, f)[..k] == w[..k];
        PrefixCounts(rest, f, k);
        assert forall q :: q in w[..k] ==> q in w;
      } else {
        assert Filter(pods, f)[..k] == w + [p];
        assert w[..|w|] == w;
        PrefixCounts(rest, f, |w|);
        assert NamesOf(w + [p]) == NamesOf(w) + {p.name};
        CountAgrees(rest, f, NamesOf(w), NamesOf(w + [p]));
      }
    }
  }

  // ---------- One round settles every pod set ----------

  lemma FlipsMember(a: Admission, pods: seq<Pod>)
    ensures forall p :: p in FlipsOf(a, pods) ==> p in pods && Of(p, a.name) && !p.scheduled
    ensures forall p :: p in FlipsOf(a, pods) ==> (p.gated <==> |Filter(pods, IsAdmitted(a.name))| < a.replicas)
  {
    OpenAmongAdmitted(pods, a.name);
    FilterMembers(pods, IsOpen(a.name));
    FilterMembers(pods, IsGated(a.name));
    var some, all := FlipsOf(a, pods), if |Filter(pods, IsAdmitted(a.name))| < a.replicas
                                       then Filter(pods, IsGated(a.name)) else Filter(pods, IsOpen(a.name));
    assert forall p :: p in some ==> p in all;
  }

  lemma {:induction false} FlippedBy(ads: seq<Admission>, pods: seq<Pod>, name: string)
    ensures name in FlippedNames(ads, pods) <==> exists j :: 0 <= j < |ads| && name in NamesOf(FlipsOf(ads[j], pods))
  {
    if ads != [] {
      var n := |ads| - 1;
      FlippedBy(ads[..n], pods, name);
      if name in FlippedNames(ads[..n], pods) {
        var j :| 0 <= j < n && name in NamesOf(FlipsOf(ads[..n][j], pods));
        assert ads[j] == ads[..n][j];
      }
      if exists j :: 0 <= j < |ads| && name in NamesOf(FlipsOf(ads[j], pods)) {
        var j :| 0 <= j < |ads| && name in NamesOf(FlipsOf(ads[j], pods));
        assert j < n ==> ads[..n][j] == ads[j];
      }
    }
  }

  /** A pod is flipped only on account of its own pod set. */
  lemma OwnFlips(ads: seq<Admission>, pods: seq<Pod>, i: nat, p: Pod)
    requires UniqueNames(ads) && Distinct(pods) && i < |ads| && p in pods && Of(p, ads[i].name)
    ensures p.name in FlippedNames(ads, pods) <==> p.name in NamesOf(FlipsOf(ads[i], pods))
  {
    FlippedBy(ads, pods, p.name);
    if p.name in FlippedNames(ads, pods) {
      var j :| 0 <= j < |ads| && p.name in NamesOf(FlipsOf(ads[j], pods));
      var q :| q in FlipsOf(ads[j], pods) && q.name == p.name;
      FlipsMember(ads[j], pods);
      assert q == p;
    }
  }

  lemma OwnFlipsAll(ads: seq<Admission>, pods: seq<Pod>, i: nat)
    requires UniqueNames(ads) && Distinct(pods) && i < |ads|
    ensures forall p :: p in pods && Of(p, ads[i].name) ==>
              (p.name in FlippedNames(ads, pods) <==> p.name in NamesOf(FlipsOf(ads[i], pods)))
  {
    forall p | p in pods && Of(p, ads[i].name)
      ensures p.name in FlippedNames(ads, pods) <==> p.name in NamesOf(FlipsOf(ads[i], pods))
    {
      OwnFlips(ads, pods, i, p);
    }
  }

  /** How many pods of the set end up admitted. */
  function Target(replicas: int, scheduled: nat, open: nat, gated: nat): int {
    if scheduled + open < replicas then Min(replicas, scheduled + open + gated) else Max(replicas, scheduled)
  }

  /** Flipping `names`, of which in this pod set exactly the first `k` of kind `f`. */
  lemma MoveFirst(pods: seq<Pod>, names: set<string>, ps: string, f: Pod -> bool, g: Pod -> bool, k: nat)
    requires Distinct(pods) && k <= |Filter(pods, f)|
    requires (f == IsOpen(ps) && g == IsGated(ps)) || (f == IsGated(ps) && g == IsOpen(ps))
    requires forall p :: p in pods && Of(p, ps) ==> (p.name in names <==> p.name in NamesOf(Filter(pods, f)[..k]))
    ensures |Filter(Flipped(pods, names), f)| == |Filter(pods, f)| - k
    ensures |Filter(Flipped(pods, names), g)| == |Filter(pods, g)| + k
  {
    var mine := NamesOf(Filter(pods, f)[..k]);
    FilterMembers(pods, f);
    forall p | p in pods && p.name in names ensures !g(p) {
      if Of(p, ps) {
        var q :| q in Filter(pods, f)[..k] && q.name == p.name;
        assert q in Filter(pods, f);
        assert q == p;
      }
    }
    FlipMoves(pods, names, f, g);
    CountAgrees(pods, f, names, mine);
    PrefixCounts(pods, f, k);
  }

  lemma FlipKeepsScheduled(pods: seq<Pod>, names: set<string>, ps: string)
    ensures |Filter(Flipped(pods, names), IsScheduled(ps))| == |Filter(pods, IsScheduled(ps))|
  {
    FlipKeeps(pods, names, IsScheduled(ps));
  }

  /** `after` has as many pods moved between open and gated as were missing or too many. */
  lemma CountsSettle(a: Admission, pods: seq<Pod>, after: seq<Pod>)
    requires |Filter(after, IsScheduled(a.name))| == |Filter(pods, IsScheduled(a.name))|
    requires var admitted, open, gated := |Filter(pods, IsAdmitted(a.name))|, |Filter(pods, IsOpen(a.name))|, |Filter(pods, IsGated(a.name))|;
      var k := if admitted < a.replicas then Min(a.replicas - admitted, gated) else -Min(admitted - a.replicas, open);
      |Filter(after, IsOpen(a.name))| == open + k && |Filter(after, IsGated(a.name))| == gated - k
    ensures |Filter(after, IsAdmitted(a.name))| ==
            Target(a.replicas, |Filter(pods, IsScheduled(a.name))|, |Filter(pods, IsOpen(a.name))|, |Filter(pods, IsGated(a.name))|)
    ensures FlipsOf(a, after) == []
  {
    AdmittedIsScheduledOrOpen(pods, a.name);
    AdmittedIsScheduledOrOpen(after, a.name);
    OpenAmongAdmitted(after, a.name);
  }

  /** After one round a pod set has as many admitted pods as replicas, unless it has too
      few pods or too many scheduled ones, and nothing is left to flip. */
  lemma OneRoundSettles(ads: seq<Admission>, pods: seq<Pod>, i: nat)
    requires UniqueNames(ads) && Distinct(pods) && i < |ads|
    ensures var ps, after := ads[i].name, Flipped(pods, FlippedNames(ads, pods));
      && |Filter(after, IsAdmitted(ps))| ==
         Target(ads[i].replicas, |Filter(pods, IsScheduled(ps))|, |Filter(pods, IsOpen(ps))|, |Filter(pods, IsGated(ps))|)
      && FlipsOf(ads[i], after) == []
  {
    var a, ps, names := ads[i], ads[i].name, FlippedNames(ads, pods);
    FlipKeepsScheduled(pods, names, ps);
    OpenAmongAdmitted(pods, ps);
    OwnFlipsAll(ads, pods, i);
    var admitted := |Filter(pods, IsAdmitted(ps))|;
    if admitted < a.replicas {
      MoveFirst(pods, names, ps, IsGated(ps), IsOpen(ps), Min(a.replicas - admitted, |Filter(pods, IsGated(ps))|));
    } else {
      var k := Min(admitted - a.replicas, |Filter(pods, IsOpen(ps))|);
      assert FlipsOf(a, pods) == Filter(pods, IsOpen(ps))[..k];
      MoveFirst(pods, names, ps, IsOpen(ps), IsGated(ps), k);
    }
    CountsSettle(a, pods, Flipped(pods, names));
  }

  /** So a second round flips no pod at all. */
  lemma SecondRoundIsIdle(ads: seq<Admission>, pods: seq<Pod>)
    requires UniqueNames(ads) && Distinct(pods)
    ensures FlippedNames(ads, Flipped(pods, FlippedNames(ads, pods))) == {}
  {
    var after := Flipped(pods, FlippedNames(ads, pods));
    forall name ensures name !in FlippedNames(ads, after) {
      FlippedBy(ads, after, name);
      forall j | 0 <= j < |ads| ensures name !in NamesOf(FlipsOf(ads[j], after)) {
        OneRoundSettles(ads, pods, j);
      }
    }
  }

  /** A pod that is kept has as many before it as are kept of the pods before it. */
  lemma {:induction false} FilterAt(pods: seq<Pod>, f: Pod -> bool, j: nat)
    requires j < |pods| && f(pods[j])
    ensures |Filter(pods[..j], f)| < |Filter(pods, f)| && Filter(pods, f)[|Filter(pods[..j], f)|] == pods[j]
  {
    var n := |pods| - 1;
    if j < n {
      FilterAt(pods[..n], f, j);
      assert pods[..n][..j] == pods[..j];
    }
  }

  ghost function Where(pods: seq<Pod>, f: Pod -> bool): set<int> {
    set i | 0 <= i < |pods| && f(pods[i])
  }

  lemma {:induction false} FilterIsCount(pods: seq<Pod>, f: Pod -> bool)
    ensures |Filter(pods, f)| == |Where(pods, f)|
  {
    if pods != [] {
      var n := |pods| - 1;
      FilterIsCount(pods[..n], f);
      assert forall i :: 0 <= i < n ==> pods[..n][i] == pods[i];
      assert Where(pods, f) == Where(pods[..n], f) + if f(pods[n]) then {n} else {};
    }
  }

  /** The pods counted for a pod set carry its name and are not finished. Admitted are those
      with a node and those that may get one, gated the others. */
  lemma PodsCounted(pods: seq<Pod>, ps: string)
    ensures |Filter(pods, IsAdmitted(ps))| ==
      |set i | 0 <= i < |pods| && ps != "" && pods[i].podSet == ps && !pods[i].finished && (pods[i].scheduled || !pods[i].gated)|
    ensures |Filter(pods, IsGated(ps))| ==
      |set i | 0 <= i < |pods| && ps != "" && pods[i].podSet == ps && !pods[i].finished && !pods[i].scheduled && pods[i].gated|
  {
    FilterIsCount(pods, IsAdmitted(ps));
    FilterIsCount(pods, IsGated(ps));
    assert Where(pods, IsAdmitted(ps)) ==
           set i | 0 <= i < |pods| && ps != "" && pods[i].podSet == ps && !pods[i].finished && (pods[i].scheduled || !pods[i].gated);
    assert Where(pods, IsGated(ps)) ==
           set i | 0 <= i < |pods| && ps != "" && pods[i].podSet == ps && !pods[i].finished && !pods[i].scheduled && pods[i].gated;
  }

  // ---------- The loops ----------

  type PodsBySet = map<string, seq<Pod>>

  function PodsOf(pods: PodsBySet, name: string): seq<Pod> {
    if name in pods then pods[name] else []
  }

  function Put(m: PodsBySet, p: Pod): PodsBySet {
    m[p.podSet := PodsOf(m, p.podSet) + [p]]
  }

  /** The map holds, for every pod set, the pods of its kind in order. */
  ghost predicate Groups(m: PodsBySet, pods: seq<Pod>, kind: string -> (Pod -> bool)) {
    forall ps {:trigger PodsOf(m, ps)} :: PodsOf(m, ps) == Filter(pods, kind(ps))
  }

  lemma GroupMore(m: PodsBySet, pods: seq<Pod>, kind: string -> (Pod -> bool), p: Pod, has: bool)
    requires Groups(m, pods, kind)
    requires forall ps :: kind(ps)(p) <==> has && ps == p.podSet
    ensures Groups(if has then Put(m, p) else m, pods + [p], kind)
  {
    var r := if has then Put(m, p) else m;
    forall ps ensures PodsOf(r, ps) == Filter(pods + [p], kind(ps)) {
      FilterMore(pods, p, kind(ps));
      assert PodsOf(m, ps) == Filter(pods, kind(ps));
    }
  }

  /** updatePodStates: admitted and unadmitted pods by pod set. */
  method UpdatePodStates(pods: seq<Pod>) returns (admitted: PodsBySet, unadmitted: PodsBySet)
    ensures Groups(admitted, pods, IsAdmitted) && Groups(unadmitted, pods, IsGated)
  {
    admitted, unadmitted := map[], map[];
    for j := 0 to |pods|
      invariant Groups(admitted, pods[..j], IsAdmitted) && Groups(unadmitted, pods[..j], IsGated)
    {
      var p := pods[j];
      assert pods[..j + 1] == pods[..j] + [p];
      ghost var counted := p.podSet != "" && !p.finished;
      GroupMore(admitted, pods[..j], IsAdmitted, p, counted && (p.scheduled || !p.gated));
      GroupMore(unadmitted, pods[..j], IsGated, p, counted && !p.scheduled && p.gated);
      if p.podSet == "" || p.finished {
        continue;
      }
      if p.scheduled {
        admitted := Put(admitted, p);
        continue;
      }
      if p.gated {
        unadmitted := Put(unadmitted, p);
      } else {
        admitted := Put(admitted, p);
      }
    }
    assert pods[..|pods|] == pods;
  }

  /** The inner loops of buildXorAdmit: the first `most` unscheduled pods. */
  method TakeUnscheduled(pods: seq<Pod>, most: nat) returns (taken: seq<Pod>)
    ensures taken == Filter(pods, Unscheduled)[..Min(most, |Filter(pods, Unscheduled)|)]
  {
    taken := [];
    var rest := pods;
    ghost var j := 0;
    while |taken| < most && |rest| > 0
      invariant 0 <= j <= |pods| && rest == pods[j..]
      invariant taken == Filter(pods[..j], Unscheduled) && |taken| <= most
      decreases |rest|
    {
      assert pods[..j + 1] == pods[..j] + [pods[j]];
      FilterMore(pods[..j], pods[j], Unscheduled);
      j := j + 1;
      if rest[0].scheduled {
        rest := rest[1..];
        continue;
      }
      taken := taken + [rest[0]];
      rest := rest[1..];
    }
    FilterPrefix(pods, j, Unscheduled);
    assert rest == [] ==> pods[..j] == pods;
  }

  lemma {:induction false} FilterPrefix(pods: seq<Pod>, j: nat, f: Pod -> bool)
    requires j <= |pods|
    ensures Filter(pods[..j], f) <= Filter(pods, f)
    decreases |pods| - j
  {
    if j < |pods| {
      assert pods[..j + 1] == pods[..j] + [pods[j]];
      FilterMore(pods[..j], pods[j], f);
      FilterPrefix(pods, j + 1, f);
    } else {
      assert pods[..j] == pods;
    }
  }

  method FlipsFor(replicas: int, admitted: seq<Pod>, unadmitted: seq<Pod>) returns (flips: seq<Pod>)
    ensures flips == Flips(replicas, admitted, unadmitted)
  {
    flips := [];
    if |admitted| < replicas {
      flips := TakeUnscheduled(unadmitted, replicas - |admitted|);
    } else if |admitted| > replicas {
      flips := TakeUnscheduled(admitted, |admitted| - replicas);
    }
  }

  method BuildXorAdmit(ads: seq<Admission>, admitted: PodsBySet, unadmitted: PodsBySet) returns (flips: PodsBySet)
    requires UniqueNames(ads)
    ensures forall i :: 0 <= i < |ads| ==>
              PodsOf(flips, ads[i].name) == Flips(ads[i].replicas, PodsOf(admitted, ads[i].name), PodsOf(unadmitted, ads[i].name))
    ensures forall n :: n in flips ==> exists i :: 0 <= i < |ads| && ads[i].name == n
  {
    flips := map[];
    var i := 0;
    while i < |ads|
      invariant 0 <= i <= |ads|
      invariant forall k :: 0 <= k < i ==>
                  PodsOf(flips, ads[k].name) == Flips(ads[k].replicas, PodsOf(admitted, ads[k].name), PodsOf(unadmitted, ads[k].name))
      invariant forall n :: n in flips ==> exists k :: 0 <= k < i && ads[k].name == n
    {
      var a := ads[i];
      var some := FlipsFor(a.replicas, PodsOf(admitted, a.name), PodsOf(unadmitted, a.name));
      flips := if some == [] then flips else flips[a.name := some];
      i := i + 1;
    }
  }

  // ---------- The parallel chunks ----------

  function Concat(chunks: seq<seq<Pod>>): seq<Pod> {
    if chunks == [] then [] else Concat(chunks[..|chunks| - 1]) + chunks[|chunks| - 1]
  }

  lemma ChunksFit(n: nat, parallel: nat, size: nat, i: nat)
    requires 0 < parallel && size == n / parallel && i < parallel
    ensures 0 <= i * size <= n && (i + 1) * size == i * size + size
  {
    var r := n % parallel;
    assert n == parallel * size + r;
    assert parallel * size == i * size + (parallel - i) * size;
    assert (parallel - i) * size >= 0;
  }

  /** The chunks handed to the workers are, put together, all pods in order. */
  method Chunks(all: seq<Pod>) returns (chunks: seq<seq<Pod>>)
    ensures Concat(chunks) == all
    ensures |chunks| == Min(10, |all|)
  {
    chunks := [];
    if |all| == 0 {
      return;
    }
    var parallel := 10;
    if |all| < parallel {
      parallel := |all|;
    }
    var size := |all| / parallel;
    ChunksFit(|all|, parallel, size, 0);
    var i, start := 0, 0;
    while i < parallel - 1
      invariant 0 <= i <= parallel - 1 && |chunks| == i
      invariant start == i * size <= |all|
      invariant Concat(chunks) == all[..start]
    {
      ChunksFit(|all|, parallel, size, i);
      ChunksFit(|all|, parallel, size, i + 1);
      assert (chunks + [all[start..start + size]])[..i] == chunks;
      chunks := chunks + [all[start..start + size]];
      assert all[..start] + all[start..start + size] == all[..start + size];
      i, start := i + 1, start + size;
    }
    assert (chunks + [all[start..]])[..i] == chunks;
    chunks := chunks + [all[start..]];
  }

  // ---------- Reconcile ----------

  /** Patching the label of one pod, opposite to the label it was listed with. */
  function Patched(pods: seq<Pod>, p: Pod): seq<Pod> {
    seq(|pods|, i requires 0 <= i < |pods| => if pods[i].name == p.name then pods[i].(gated := !p.gated) else pods[i])
  }

  lemma PatchOneMore(pods: seq<Pod>, done: seq<Pod>, p: Pod)
    requires Distinct(pods) && p in pods
    ensures Patched(Flipped(pods, NamesOf(done)), p) == Flipped(pods, NamesOf(done + [p]))
  {
    assert NamesOf(done + [p]) == NamesOf(done) + {p.name};
  }

  /** One worker: its pods are patched one after the other. */
  method PatchChunk(listed: seq<Pod>, pods: seq<Pod>, ghost done: seq<Pod>, chunk: seq<Pod>) returns (after: seq<Pod>)
    requires Distinct(listed) && pods == Flipped(listed, NamesOf(done))
    requires forall p :: p in chunk ==> p in listed
    ensures after == Flipped(listed, NamesOf(done + chunk))
  {
    after := pods;
    assert done + chunk[..0] == done;
    for j := 0 to |chunk|
      invariant after == Flipped(listed, NamesOf(done + chunk[..j]))
    {
      PatchOneMore(listed, done + chunk[..j], chunk[j]);
      assert done + chunk[..j] + [chunk[j]] == done + chunk[..j + 1];
      after := Patched(after, chunk[j]);
    }
    assert chunk[..|chunk|] == chunk;
  }

  /** The flips of all pod sets in one list, in the order the map is walked. */
  method Gather(flips: PodsBySet) returns (all: seq<Pod>)
    ensures forall p :: p in all <==> exists n :: n in flips && p in flips[n]
  {
    all := [];
    var todo := flips.Keys;
    while todo != {}
      invariant todo <= flips.Keys
      invariant forall p :: p in all <==> exists n :: n in flips.Keys - todo && p in flips[n]
    {
      var n :| n in todo;
      todo := todo - {n};
      all := all + flips[n];
    }
  }

  lemma GatheredAreFlipped(ads: seq<Admission>, pods: seq<Pod>, flips: PodsBySet, all: seq<Pod>)
    requires forall i :: 0 <= i < |ads| ==> PodsOf(flips, ads[i].name) == FlipsOf(ads[i], pods)
    requires forall n :: n in flips ==> exists i :: 0 <= i < |ads| && ads[i].name == n
    requires forall p :: p in all <==> exists n :: n in flips && p in flips[n]
    ensures NamesOf(all) == FlippedNames(ads, pods)
    ensures forall p :: p in all ==> p in pods
  {
    forall p | p in all ensures p in pods && p.name in FlippedNames(ads, pods) {
      var n :| n in flips && p in flips[n];
      var i :| 0 <= i < |ads| && ads[i].name == n;
      assert p in FlipsOf(ads[i], pods);
      FlipsMember(ads[i], pods);
      FlippedBy(ads, pods, p.name);
    }
    forall name | name in FlippedNames(ads, pods) ensures name in NamesOf(all) {
      FlippedBy(ads, pods, name);
      var i :| 0 <= i < |ads| && name in NamesOf(FlipsOf(ads[i], pods));
      var p :| p in FlipsOf(ads[i], pods) && p.name == name;
      assert p in flips[ads[i].name];
    }
  }

  /** Reconcile flips exactly the pods that the admissions call for. */
  method Reconcile(ads: seq<Admission>, pods: seq<Pod>) returns (after: seq<Pod>)
    requires UniqueNames(ads) && Distinct(pods)
    ensures after == Flipped(pods, FlippedNames(ads, pods))
  {
    var admitted, unadmitted := UpdatePodStates(pods);
    var flips := BuildXorAdmit(ads, admitted, unadmitted);
    var all := Gather(flips);
    GatheredAreFlipped(ads, pods, flips, all);
    after := FlipAll(pods, all);
  }

  method FlipAll(pods: seq<Pod>, all: seq<Pod>) returns (after: seq<Pod>)
    requires Distinct(pods) && forall p :: p in all ==> p in pods
    ensures after == Flipped(pods, NamesOf(all))
  {
    var chunks := Chunks(all);
    after := pods;
    assert after == Flipped(pods, NamesOf([]));
    for c := 0 to |chunks|
      invariant after == Flipped(pods, NamesOf(Concat(chunks[..c])))
    {
      ChunkWithin(chunks, c);
      assert chunks[..c + 1][..c] == chunks[..c];
      after := PatchChunk(pods, after, Concat(chunks[..c]), chunks[c]);
    }
    assert chunks[..|chunks|] == chunks;
  }

  lemma {:induction false} ChunkWithin(chunks: seq<seq<Pod>>, c: nat)
    requires c < |chunks|
    ensures forall p :: p in chunks[c] ==> p in Concat(chunks)
  {
    if c < |chunks| - 1 {
      ChunkWithin(chunks[..|chunks| - 1], c);
    }
  }
}
