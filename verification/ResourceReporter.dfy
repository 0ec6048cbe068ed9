/** The reconcile loops that rewrite the admissions of a queue unit, each proved to be the
    function of Reclaim or PodDeletion that states what it does. */
module ResourceReporter {
  import opened Amounts
  import opened QueueUnits
  import opened Reclaim
  import D = PodDeletion

  /** The queue unit object a reconcile works on. */
  class Reported {
    const key: string
    var podSets: seq<PodSet>
    var phase: Phase
    var admissions: seq<Admission>

    constructor (u: UnitRecord)
      ensures key == u.key && podSets == u.podSets && phase == u.phase && admissions == u.admissions
    {
      key, podSets, phase, admissions := u.key, u.podSets, u.phase, u.admissions;
    }
  }

  // ---------- Reclaiming ----------

  lemma WaitingMore(pods: seq<Pod>, j: nat)
    requires j < |pods|
    ensures Waiting(pods[..j + 1]) == Waiting(pods[..j]) + if pods[j].finished || pods[j].scheduled then [] else [pods[j]]
  {
    assert pods[..j + 1][..j] == pods[..j];
  }

  lemma {:induction false} WaitingPrefix(pods: seq<Pod>, j: nat)
    requires j <= |pods|
    ensures Waiting(pods[..j]) <= Waiting(pods)
    decreases |pods| - j
  {
    if j < |pods| {
      WaitingMore(pods, j);
      WaitingPrefix(pods, j + 1);
    } else {
      assert pods[..j] == pods;
    }
  }

  /** The inner loop of reconcileReclaim. */
  method Pick(reclaim: int, pods: seq<Pod>) returns (picked: seq<Pod>)
    ensures picked == Waiting(pods)[..Min(Max(0, reclaim), |Waiting(pods)|)]
  {
    picked := [];
    var remain := reclaim;
    ghost var w: seq<Pod> := [];
    var j := 0;
    while j < |pods|
      invariant 0 <= j <= |pods| && w == Waiting(pods[..j])
      invariant reclaim > 0 ==> picked == w && remain == reclaim - |w| > 0
      invariant reclaim <= 0 ==> picked == [] && remain == reclaim
    {
      WaitingMore(pods, j);
      if pods[j].finished || pods[j].scheduled {
        j := j + 1;
        continue;
      }
      w := w + [pods[j]];
      if remain > 0 {
        picked := picked + [pods[j]];
        remain := remain - 1;
      }
      if remain == 0 {
        WaitingPrefix(pods, j + 1);
        FirstOnes(w, Waiting(pods), reclaim);
        return;
      }
      j := j + 1;
    }
    assert pods[..j] == pods;
    FirstOnes(w, w, reclaim);
  }

  lemma FirstOnes(w: seq<Pod>, all: seq<Pod>, n: int)
    requires w <= all
    ensures |w| == n ==> w == all[..Min(Max(0, n), |all|)]
    ensures n <= 0 ==> all[..Min(Max(0, n), |all|)] == []
    ensures w == all && |w| < n ==> all[..Min(Max(0, n), |all|)] == w
  {}

  /** Which pods are to go, by pod set. */
  method ReconcileReclaim(ads: seq<Admission>, pods: PodsBySet) returns (picked: PodsBySet)
    requires UniqueNames(ads)
    ensures forall i :: 0 <= i < |ads| ==> PodsOf(picked, ads[i].name) == Picked(ads[i], PodsOf(pods, ads[i].name))
    ensures picked == map[] <==> !PicksAny(ads, pods)
  {
    picked := map[];
    var i := 0;
    while i < |ads|
      invariant 0 <= i <= |ads|
      invariant forall k :: 0 <= k < i ==> PodsOf(picked, ads[k].name) == Picked(ads[k], PodsOf(pods, ads[k].name))
      invariant forall n :: n in picked ==> picked[n] != [] && exists k :: 0 <= k < i && ads[k].name == n
    {
      var a := ads[i];
      if a.reclaim.Some? {
        var some := Pick(a.reclaim.value, PodsOf(pods, a.name));
        if some != [] {
          picked := picked[a.name := some];
        }
      }
      i := i + 1;
    }
    AnyPicked(ads, pods, picked);
  }

  lemma AnyPicked(ads: seq<Admission>, pods: PodsBySet, picked: PodsBySet)
    requires forall i :: 0 <= i < |ads| ==> PodsOf(picked, ads[i].name) == Picked(ads[i], PodsOf(pods, ads[i].name))
    requires forall n :: n in picked ==> picked[n] != [] && exists k :: 0 <= k < |ads| && ads[k].name == n
    ensures picked == map[] <==> !PicksAny(ads, pods)
  {
    if PicksAny(ads, pods) {
      var i :| 0 <= i < |ads| && PickCount(ads[i], PodsOf(pods, ads[i].name)) > 0;
      assert PodsOf(picked, ads[i].name) != [];
    }
  }

  /** The part of Reconcile that applies what reconcileReclaim picked. */
  method TakePicked(q: Reported, pods: PodsBySet) returns (updated: bool)
    requires UniqueNames(q.admissions)
    modifies q`admissions
    ensures q.admissions == TakeBack(old(q.admissions), pods)
    ensures updated <==> exists i :: 0 <= i < |old(q.admissions)| && PickedOf(old(q.admissions)[i], pods) > 0
    ensures !updated ==> q.admissions == old(q.admissions)
    ensures updated ==> |q.admissions| == |old(q.admissions)| && forall i :: 0 <= i < |q.admissions| ==>
      && q.admissions[i] == old(q.admissions)[i].(replicas := q.admissions[i].replicas, reclaim := None)
      && q.admissions[i].replicas == Max(0, old(q.admissions)[i].replicas - PickedOf(old(q.admissions)[i], pods))
  {
    ghost var ads := q.admissions;
    forall i | 0 <= i < |ads| ensures PickedOf(ads[i], pods) == PickCount(ads[i], PodsOf(pods, ads[i].name)) {
      PickedIsCount(ads[i], pods);
    }
    var picked := ReconcileReclaim(q.admissions, pods);
    if picked == map[] {
      return false;
    }
    var i := 0;
    while i < |q.admissions|
      invariant 0 <= i <= |q.admissions| == |ads|
      invariant forall k :: 0 <= k < i ==> q.admissions[k] == Taken(ads[k], PickCount(ads[k], PodsOf(pods, ads[k].name)))
      invariant forall k :: i <= k < |ads| ==> q.admissions[k] == ads[k]
    {
      var a := q.admissions[i];
      var reclaimed := |PodsOf(picked, a.name)|;
      if a.replicas < reclaimed {
        a := a.(replicas := 0);
      } else {
        a := a.(replicas := a.replicas - reclaimed);
      }
      a := a.(reclaim := None);
      q.admissions := q.admissions[i := a];
      i := i + 1;
    }
    return true;
  }

  // ---------- Shrinking ----------

  method CountLive(pods: seq<Pod>) returns (n: nat)
    ensures n == Live(pods)
  {
    n := 0;
    for j := 0 to |pods|
      invariant n == Live(pods[..j])
    {
      assert pods[..j + 1][..j] == pods[..j];
      if pods[j].finished {
        continue;
      }
      n := n + 1;
    }
    assert pods[..|pods|] == pods;
  }

  method CountPodSets(podSets: seq<PodSet>) returns (m: map<string, int>)
    ensures m == PodSetCounts(podSets)
  {
    m := map[];
    for j := 0 to |podSets|
      invariant m == PodSetCounts(podSets[..j])
    {
      assert podSets[..j + 1][..j] == podSets[..j];
      m := m[podSets[j].name := podSets[j].count];
    }
    assert podSets[..|podSets|] == podSets;
  }

  /** One admission of reconcileOveradmission. */
  method ShrinkAdmission(a: Admission, requested: int, pods: seq<Pod>) returns (b: Admission, changed: bool)
    ensures b == Shrunk(a, requested, Live(pods)) && changed == (b != a)
  {
    b, changed := a, false;
    if requested < a.replicas {
      var live := CountLive(pods);
      if live >= requested && live < a.replicas {
        changed := true;
        b := b.(replicas := live);
      } else if live < requested && requested < a.replicas {
        changed := true;
        b := b.(replicas := requested);
      }
      var released := a.replicas - b.replicas;
      if released > 0 && a.reclaim.Some? {
        var remaining := a.reclaim.value - released;
        if remaining <= 0 {
          b := b.(reclaim := None);
        } else {
          b := b.(reclaim := Some(remaining));
        }
      }
    }
  }

  method ReconcileOveradmission(q: Reported, pods: PodsBySet) returns (needRequeue: bool)
    modifies q`admissions
    ensures q.admissions == Shrink(old(q.admissions), q.podSets, pods)
    ensures needRequeue == (q.admissions != old(q.admissions))
  {
    ghost var ads := q.admissions;
    var counts := CountPodSets(q.podSets);
    needRequeue := false;
    var i := 0;
    while i < |q.admissions|
      invariant 0 <= i <= |q.admissions| == |ads|
      invariant forall k :: 0 <= k < i ==> q.admissions[k] == Shrink(ads, q.podSets, pods)[k]
      invariant forall k :: i <= k < |ads| ==> q.admissions[k] == ads[k]
      invariant needRequeue <==> exists k :: 0 <= k < i && q.admissions[k] != ads[k]
    {
      var a := q.admissions[i];
      var b, changed := ShrinkAdmission(a, AmountFor(counts, a.name), PodsOf(pods, a.name));
      q.admissions := q.admissions[i := b];
      if changed {
        needRequeue := true;
      }
      i := i + 1;
    }
  }

  // ---------- Counting scheduled pods ----------

  lemma SyncSplit(ads: seq<Admission>, i: nat, name: string, c: Count)
    requires i <= |ads| && forall k :: 0 <= k < i ==> ads[k].name != name
    ensures SyncOne(ads, name, c) == ads[..i] + SyncOne(ads[i..], name, c)
  {
    if i == 0 {
      assert ads[0..] == ads;
    } else {
      assert ads[1..][i - 1..] == ads[i..] && [ads[0]] + ads[1..][..i - 1] == ads[..i];
      SyncSplit(ads[1..], i - 1, name, c);
    }
  }

  /** The inner loop of syncInFlightWorkers over the admissions. */
  method SyncName(q: Reported, name: string, c: Count) returns (updated: bool)
    modifies q`admissions
    ensures q.admissions == SyncOne(old(q.admissions), name, c)
    ensures updated == (q.admissions != old(q.admissions))
  {
    ghost var ads := q.admissions;
    var i := 0;
    while i < |q.admissions|
      invariant 0 <= i <= |ads| && q.admissions == ads
      invariant forall k :: 0 <= k < i ==> ads[k].name != name
    {
      if q.admissions[i].name == name {
        SyncSplit(ads, i, name, c);
        assert ads == ads[..i] + [ads[i]] + ads[i..][1..];
        updated := false;
        var a := q.admissions[i];
        if c.running != a.running {
          a, updated := a.(running := c.running), true;
        }
        if a.replicas < c.running {
          a, updated := a.(replicas := c.running), true;
        }
        if c.resources.Some? && a.resources != c.resources.value {
          a, updated := a.(resources := c.resources.value), true;
        }
        q.admissions := q.admissions[i := a];
        assert q.admissions[i] == Synced(ads[i], c);
        return;
      }
      i := i + 1;
    }
    SyncSplit(ads, |ads|, name, c);
    q.admissions := q.admissions + [Admission(name, c.running, c.running, if c.resources.Some? then c.resources.value else map[], None)];
    return true;
  }

  /** The loop over the counted pod sets, in the order the map is walked. */
  method SyncRunning(q: Reported, counts: map<string, Count>) returns (updated: bool, ghost order: seq<(string, Count)>)
    modifies q`admissions
    ensures q.admissions == Sync(old(q.admissions), order)
    ensures !updated ==> q.admissions == old(q.admissions)
    ensures multiset(order) == multiset(counts.Items)
  {
    ghost var ads := q.admissions;
    updated, order := false, [];
    var todo := counts.Items;
    while todo != {}
      invariant q.admissions == Sync(ads, order)
      invariant !updated ==> q.admissions == ads
      invariant multiset(order) + multiset(todo) == multiset(counts.Items)
    {
      var c :| c in todo;
      todo := todo - {c};
      SyncMore(ads, order, c.0, c.1);
      var changed := SyncName(q, c.0, c.1);
      order := order + [c];
      updated := updated || changed;
    }
  }

  lemma {:induction false} SyncMore(ads: seq<Admission>, order: seq<(string, Count)>, name: string, c: Count)
    ensures Sync(ads, order + [(name, c)]) == SyncOne(Sync(ads, order), name, c)
    decreases |order|
  {
    if order != [] {
      assert (order + [(name, c)])[1..] == order[1..] + [(name, c)];
      SyncMore(SyncOne(ads, order[0].0, order[0].1), order[1..], name, c);
    } else {
      assert (order + [(name, c)])[1..] == [];
    }
  }

  // ---------- Pods that disappear ----------

  method CollectLive(pods: seq<Pod>) returns (live: set<string>)
    ensures live == LiveNames(pods)
  {
    live := {};
    for j := 0 to |pods|
      invariant live == LiveNames(pods[..j])
    {
      assert pods[..j + 1] == pods[..j] + [pods[j]];
      if !pods[j].finished {
        live := live + {pods[j].name};
      }
    }
    assert pods[..|pods|] == pods;
  }

  type Memory = map<string, set<string>>

  function Key(unit: string, name: string): string {
    unit + "/" + name
  }

  lemma KeysDiffer(unit: string, a: string, b: string)
    requires Key(unit, a) == Key(unit, b)
    ensures a == b
  {
    assert Key(unit, a)[|unit| + 1..] == a && Key(unit, b)[|unit| + 1..] == b;
  }

  function Seen(memory: Memory, key: string): set<string> {
    if key in memory then memory[key] else {}
  }

  /** The memory and an admission after reconcilePodDeletion has looked at it. */
  function Remembered(memory: Memory, unit: string, a: Admission, pods: PodsBySet): Memory {
    if a.reclaim.Some? then memory else memory[Key(unit, a.name) := LiveNames(PodsOf(pods, a.name))]
  }

  function Reduced(memory: Memory, unit: string, a: Admission, pods: PodsBySet): Admission {
    if a.reclaim.Some? then a
    else a.(replicas := D.Reduced(a.replicas, |Seen(memory, Key(unit, a.name)) - LiveNames(PodsOf(pods, a.name))|))
  }

  function RememberAll(memory: Memory, unit: string, ads: seq<Admission>, pods: PodsBySet): Memory {
    if ads == [] then memory
    else Remembered(RememberAll(memory, unit, ads[..|ads| - 1], pods), unit, ads[|ads| - 1], pods)
  }

  function ReduceAll(memory: Memory, unit: string, ads: seq<Admission>, pods: PodsBySet): seq<Admission> {
    seq(|ads|, i requires 0 <= i < |ads| => Reduced(memory, unit, ads[i], pods))
  }

  /** The memory of other admissions, and of other units, is not touched. */
  lemma {:induction false} OthersKept(memory: Memory, unit: string, ads: seq<Admission>, pods: PodsBySet, key: string)
    requires forall i :: 0 <= i < |ads| ==> key != Key(unit, ads[i].name)
    ensures Seen(RememberAll(memory, unit, ads, pods), key) == Seen(memory, key)
  {
    if ads != [] {
      OthersKept(memory, unit, ads[..|ads| - 1], pods, key);
    }
  }

  lemma UnseenYet(memory: Memory, unit: string, ads: seq<Admission>, pods: PodsBySet, i: nat)
    requires UniqueNames(ads) && i < |ads|
    ensures Seen(RememberAll(memory, unit, ads[..i], pods), Key(unit, ads[i].name)) == Seen(memory, Key(unit, ads[i].name))
  {
    forall k | 0 <= k < i ensures Key(unit, ads[i].name) != Key(unit, ads[k].name) {
      if Key(unit, ads[i].name) == Key(unit, ads[k].name) { KeysDiffer(unit, ads[i].name, ads[k].name); }
    }
    OthersKept(memory, unit, ads[..i], pods, Key(unit, ads[i].name));
  }

  lemma {:induction false} RememberedLive(memory: Memory, unit: string, ads: seq<Admission>, pods: PodsBySet, i: nat)
    requires UniqueNames(ads) && i < |ads| && ads[i].reclaim.None?
    ensures Seen(RememberAll(memory, unit, ads, pods), Key(unit, ads[i].name)) == LiveNames(PodsOf(pods, ads[i].name))
  {
    var n := |ads| - 1;
    if i < n {
      RememberedLive(memory, unit, ads[..n], pods, i);
      if Key(unit, ads[i].name) == Key(unit, ads[n].name) { KeysDiffer(unit, ads[i].name, ads[n].name); }
    }
  }

  /** The memory for the admissions of one unit. */
  function SeenBy(memory: Memory, unit: string, ads: seq<Admission>): Observed {
    map n | n in (set a | a in ads :: a.name) :: Seen(memory, Key(unit, n))
  }

  /** A call is the deletion step of the protocol in Reclaim. */
  lemma CallIsDeletionStep(memory: Memory, u: UnitRecord, pods: PodsBySet)
    requires u.phase == Dequeued
    ensures ReduceAll(memory, u.key, u.admissions, pods) ==
            Next(u, DeletionStep(SeenBy(memory, u.key, u.admissions), pods)).admissions
  {
    var ads, seen := u.admissions, SeenBy(memory, u.key, u.admissions);
    forall i | 0 <= i < |ads| ensures Reduced(memory, u.key, ads[i], pods) == Deleted(ads[i], Gone(seen, pods, ads[i].name)) {
      assert ads[i] in ads;
      assert ads[i].name in seen;
    }
  }

  class ResourceReporter {
    var observedPods: Memory

    constructor ()
      ensures observedPods == map[]
    {
      observedPods := map[];
    }

    /** The loop body of reconcilePodDeletion. */
    method CountGone(unit: string, a: Admission, pods: PodsBySet) returns (b: Admission, updated: bool)
      modifies this
      ensures observedPods == Remembered(old(observedPods), unit, a, pods)
      ensures b == Reduced(old(observedPods), unit, a, pods)
      ensures !updated ==> b == a
    {
      if a.reclaim.Some? {
        return a, false;
      }
      var key := Key(unit, a.name);
      var live := CollectLive(PodsOf(pods, a.name));
      var observed := Seen(observedPods, key);
      ghost var before := observed;
      observed := observed + live;
      var gone := observed - live;
      assert gone == before - live;
      if |gone| == 0 {
        assert observed == live;
        observedPods := observedPods[key := observed];
        return a, false;
      }
      var reduceBy := |gone|;
      if reduceBy > a.replicas {
        reduceBy := a.replicas;
      }
      observed := observed - gone;
      assert observed == live;
      observedPods := observedPods[key := observed];
      return a.(replicas := a.replicas - reduceBy), true;
    }

    method ReconcilePodDeletion(q: Reported, pods: PodsBySet) returns (updated: bool)
      requires UniqueNames(q.admissions)
      modifies this, q`admissions
      ensures q.phase != Dequeued ==> !updated && observedPods == old(observedPods)
      ensures !updated ==> q.admissions == old(q.admissions)
      ensures q.phase == Dequeued ==> observedPods == RememberAll(old(observedPods), q.key, old(q.admissions), pods)
      ensures q.phase == Dequeued ==> q.admissions == ReduceAll(old(observedPods), q.key, old(q.admissions), pods)
    {
      updated := false;
      if q.phase != Dequeued {
        return;
      }
      ghost var memory, ads := observedPods, q.admissions;
      var i := 0;
      while i < |q.admissions|
        invariant 0 <= i <= |q.admissions| == |ads|
        invariant observedPods == RememberAll(memory, q.key, ads[..i], pods)
        invariant forall k :: 0 <= k < i ==> q.admissions[k] == Reduced(memory, q.key, ads[k], pods)
        invariant forall k :: i <= k < |ads| ==> q.admissions[k] == ads[k]
        invariant !updated ==> q.admissions == ads
      {
        UnseenYet(memory, q.key, ads, pods, i);
        assert ads[..i + 1][..i] == ads[..i];
        var b, fewer := CountGone(q.key, q.admissions[i], pods);
        q.admissions := q.admissions[i := b];
        updated := updated || fewer;
        i := i + 1;
      }
      assert ads[..|ads|] == ads;
    }
  }

  // ---------- Runs of reconcilePodDeletion on a Dequeued unit ----------

  datatype Tracked = Tracked(memory: Memory, admissions: seq<Admission>)

  function Call(t: Tracked, unit: string, pods: PodsBySet): Tracked {
    Tracked(RememberAll(t.memory, unit, t.admissions, pods), ReduceAll(t.memory, unit, t.admissions, pods))
  }

  function Calls(t: Tracked, unit: string, seen: seq<PodsBySet>): Tracked {
    if seen == [] then t else Call(Calls(t, unit, seen[..|seen| - 1]), unit, seen[|seen| - 1])
  }

  function LivesOf(seen: seq<PodsBySet>, name: string): seq<set<string>> {
    seq(|seen|, i requires 0 <= i < |seen| => LiveNames(PodsOf(seen[i], name)))
  }

  ghost predicate Plain(ads: seq<Admission>) {
    UniqueNames(ads) && forall i :: 0 <= i < |ads| ==> ads[i].reclaim.None? && 0 <= ads[i].replicas
  }

  function AccountOf(t: Tracked, unit: string, i: nat): D.Account
    requires i < |t.admissions| && 0 <= t.admissions[i].replicas
  {
    D.Account(Seen(t.memory, Key(unit, t.admissions[i].name)), t.admissions[i].replicas)
  }

  lemma CallStepsAccount(t: Tracked, unit: string, pods: PodsBySet, i: nat)
    requires Plain(t.admissions) && i < |t.admissions|
    ensures var r := Call(t, unit, pods).admissions[i]; 0 <= r.replicas && r == t.admissions[i].(replicas := r.replicas)
    ensures AccountOf(Call(t, unit, pods), unit, i) ==
            D.Step(AccountOf(t, unit, i), D.Call(LiveNames(PodsOf(pods, t.admissions[i].name))))
  {
    RememberedLive(t.memory, unit, t.admissions, pods, i);
  }

  /** Over any sequence of calls every admission keeps its own account, which is the one
      PodDeletion reasons about; nothing else of it changes. */
  lemma {:induction false} CallsKeepAccounts(t: Tracked, unit: string, seen: seq<PodsBySet>, i: nat)
    requires Plain(t.admissions) && i < |t.admissions|
    ensures var r := Calls(t, unit, seen);
      && Plain(r.admissions) && |r.admissions| == |t.admissions|
      && r.admissions[i] == t.admissions[i].(replicas := r.admissions[i].replicas)
      && AccountOf(r, unit, i) == D.Run(AccountOf(t, unit, i), LivesOf(seen, t.admissions[i].name))
  {
    CallKeepsPlain(t, unit, seen);
    if seen != [] {
      var n := |seen| - 1;
      CallsKeepAccounts(t, unit, seen[..n], i);
      CallStepsAccount(Calls(t, unit, seen[..n]), unit, seen[n], i);
      assert LivesOf(seen, t.admissions[i].name)[..n] == LivesOf(seen[..n], t.admissions[i].name);
    }
  }

  lemma {:induction false} ReclaimedKept(memory: Memory, unit: string, ads: seq<Admission>, pods: PodsBySet, i: nat)
    requires UniqueNames(ads) && i < |ads| && ads[i].reclaim.Some?
    ensures Seen(RememberAll(memory, unit, ads, pods), Key(unit, ads[i].name)) == Seen(memory, Key(unit, ads[i].name))
  {
    var n := |ads| - 1;
    if i < n {
      ReclaimedKept(memory, unit, ads[..n], pods, i);
      if Key(unit, ads[i].name) == Key(unit, ads[n].name) { KeysDiffer(unit, ads[i].name, ads[n].name); }
    } else {
      UnseenYet(memory, unit, ads, pods, i);
    }
  }

  /** As long as an admission is to give something back, calls change neither it nor the
      memory of its pods, so what disappears meanwhile is found afterwards. */
  lemma {:induction false} FrozenWhileReclaimed(t: Tracked, unit: string, seen: seq<PodsBySet>, i: nat)
    requires UniqueNames(t.admissions) && i < |t.admissions| && t.admissions[i].reclaim.Some?
    ensures var r, key := Calls(t, unit, seen), Key(unit, t.admissions[i].name);
      && |r.admissions| == |t.admissions| && UniqueNames(r.admissions)
      && r.admissions[i] == t.admissions[i] && Seen(r.memory, key) == Seen(t.memory, key)
  {
    if seen != [] {
      var n := |seen| - 1;
      FrozenWhileReclaimed(t, unit, seen[..n], i);
      var r := Calls(t, unit, seen[..n]);
      ReclaimedKept(r.memory, unit, r.admissions, seen[n], i);
    }
  }

  lemma {:induction false} CallKeepsPlain(t: Tracked, unit: string, seen: seq<PodsBySet>)
    requires Plain(t.admissions)
    ensures Plain(Calls(t, unit, seen).admissions) && |Calls(t, unit, seen).admissions| == |t.admissions|
  {
    if seen != [] {
      var n := |seen| - 1;
      CallKeepsPlain(t, unit, seen[..n]);
      OneCallKeepsPlain(Calls(t, unit, seen[..n]), unit, seen[n]);
    }
  }

  lemma OneCallKeepsPlain(t: Tracked, unit: string, pods: PodsBySet)
    requires Plain(t.admissions)
    ensures Plain(Call(t, unit, pods).admissions) && |Call(t, unit, pods).admissions| == |t.admissions|
  {
    var ads, r := t.admissions, Call(t, unit, pods).admissions;
    forall i | 0 <= i < |ads| ensures r[i].name == ads[i].name && r[i].reclaim.None? && 0 <= r[i].replicas {
      assert r[i] == Reduced(t.memory, unit, ads[i], pods);
    }
    forall i, j | 0 <= i < j < |r| ensures r[i].name != r[j].name {
      assert ads[i].name != ads[j].name;
    }
  }
}
