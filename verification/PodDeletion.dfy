/** Accounting for pods that disappear: an admission loses a replica for each pod that was
    observed and is gone. `observed` is the memory of the controller for one admission. */
module PodDeletion {
  import opened Amounts

  /** What one call makes of the replicas when these pods are live. */
  function Reduced(replicas: int, gone: nat): int {
    if gone == 0 then replicas else replicas - Min(gone, replicas)
  }

  datatype Account = Account(observed: set<string>, replicas: nat)

  datatype Event = Call(live: set<string>) | Restart

  function Step(a: Account, e: Event): Account {
    match e
    case Call(live) => Account(live, Reduced(a.replicas, |a.observed - live|))
    case Restart => a.(observed := {})
  }

  // ---------- Calls without a restart ----------

  /** After the calls with these live sets, in order. */
  function Run(a: Account, lives: seq<set<string>>): Account {
    if lives == [] then a else Step(Run(a, lives[..|lives| - 1]), Call(lives[|lives| - 1]))
  }

  /** The pods seen last. */
  function Last(observed: set<string>, lives: seq<set<string>>): set<string> {
    if lives == [] then observed else lives[|lives| - 1]
  }

  /** How often a pod was seen that the call before did not see. */
  function Appearances(observed: set<string>, lives: seq<set<string>>): nat {
    if lives == [] then 0
    else
      var rest := lives[..|lives| - 1];
      Appearances(observed, rest) + |lives[|lives| - 1] - Last(observed, rest)|
  }

  /** How often a pod was missed that the call before saw. */
  function Disappearances(observed: set<string>, lives: seq<set<string>>): nat {
    if lives == [] then 0
    else
      var rest := lives[..|lives| - 1];
      Disappearances(observed, rest) + |Last(observed, rest) - lives[|lives| - 1]|
  }

  lemma SetBalance(before: set<string>, after: set<string>)
    ensures |after| == |before| + |after - before| - |before - after|
  {
    assert before == (before - after) + before * after;
    assert after == (after - before) + before * after;
    assert |before| == |before - after| + |before * after|;
    assert |after| == |after - before| + |before * after|;
  }

  /** The memory holds the live pods of the last call, and the replicas are the initial
      ones less every observed disappearance, not below zero. */
  lemma {:induction false} Telescopes(a: Account, lives: seq<set<string>>)
    ensures Run(a, lives).observed == Last(a.observed, lives)
    ensures Run(a, lives).replicas == Max(0, a.replicas - Disappearances(a.observed, lives))
    ensures |Last(a.observed, lives)| == |a.observed| + Appearances(a.observed, lives) - Disappearances(a.observed, lives)
  {
    if lives != [] {
      var rest := lives[..|lives| - 1];
      Telescopes(a, rest);
      SetBalance(Last(a.observed, rest), lives[|lives| - 1]);
    }
  }

  /** No more pods are live than admitted, at the start and after every call. */
  ghost predicate NeverShort(a: Account, lives: seq<set<string>>) {
    forall n :: 0 <= n <= |lives| ==> |Last(a.observed, lives[..n])| <= Run(a, lives[..n]).replicas
  }

  lemma {:induction false} AppearancesGrow(observed: set<string>, lives: seq<set<string>>, n: nat)
    requires n <= |lives|
    ensures Appearances(observed, lives[..n]) <= Appearances(observed, lives)
    decreases |lives| - n
  {
    if n < |lives| {
      assert lives[..n + 1][..n] == lives[..n];
      AppearancesGrow(observed, lives, n + 1);
    } else {
      assert lives[..n] == lives;
    }
  }

  /** The replicas cover the live pods throughout exactly when the pods observed at the
      start and all appearances, counted each time, fit into the initial replicas. */
  lemma NeverShortIff(a: Account, lives: seq<set<string>>)
    ensures NeverShort(a, lives) <==> |a.observed| + Appearances(a.observed, lives) <= a.replicas
  {
    if |a.observed| + Appearances(a.observed, lives) <= a.replicas {
      forall n | 0 <= n <= |lives| ensures |Last(a.observed, lives[..n])| <= Run(a, lives[..n]).replicas {
        AppearancesGrow(a.observed, lives, n);
        Telescopes(a, lives[..n]);
      }
    } else if NeverShort(a, lives) {
      assert lives[..0] == [];
      ShortSomewhere(a, lives);
      assert false;
    }
  }

  lemma {:induction false} ShortSomewhere(a: Account, lives: seq<set<string>>)
    requires |a.observed| + Appearances(a.observed, lives) > a.replicas
    ensures !NeverShort(a, lives)
  {
    if lives == [] {
      assert lives[..0] == lives;
      assert |Last(a.observed, lives[..0])| > Run(a, lives[..0]).replicas;
    } else {
      var n := |lives| - 1;
      if |a.observed| + Appearances(a.observed, lives[..n]) > a.replicas {
        ShortSomewhere(a, lives[..n]);
        ShortLonger(a, lives, n);
      } else {
        assert lives[..n + 1] == lives;
        Telescopes(a, lives);
        assert lives[n] - Last(a.observed, lives[..n]) <= lives[n];
        SubsetSize(lives[n] - Last(a.observed, lives[..n]), lives[n]);
        assert |Last(a.observed, lives[..n + 1])| > Run(a, lives[..n + 1]).replicas;
      }
    }
  }

  lemma ShortLonger(a: Account, lives: seq<set<string>>, n: nat)
    requires n <= |lives| && !NeverShort(a, lives[..n])
    ensures !NeverShort(a, lives)
  {
    var k :| 0 <= k <= n && |Last(a.observed, lives[..n][..k])| > Run(a, lives[..n][..k]).replicas;
    assert lives[..n][..k] == lives[..k];
  }

  // ---------- Distinct pods are not enough ----------

  /** All pods ever seen. */
  function Ever(observed: set<string>, lives: seq<set<string>>): set<string> {
    if lives == [] then observed else Ever(observed, lives[..|lives| - 1]) + lives[|lives| - 1]
  }

  /** A pod that is seen again was seen by the call before. */
  ghost predicate NoReturn(observed: set<string>, lives: seq<set<string>>) {
    forall n :: 0 <= n < |lives| ==> lives[n] * Ever(observed, lives[..n]) <= Last(observed, lives[..n])
  }

  lemma {:induction false} LastIsSeen(observed: set<string>, lives: seq<set<string>>)
    ensures Last(observed, lives) <= Ever(observed, lives)
  {}

  lemma {:induction false} EverCounts(observed: set<string>, lives: seq<set<string>>)
    requires NoReturn(observed, lives)
    ensures |Ever(observed, lives)| == |observed| + Appearances(observed, lives)
  {
    if lives != [] {
      var n := |lives| - 1;
      var rest, live := lives[..n], lives[n];
      forall k | 0 <= k < |rest| ensures rest[k] * Ever(observed, rest[..k]) <= Last(observed, rest[..k]) {
        assert rest[..k] == lives[..k] && rest[k] == lives[k];
      }
      EverCounts(observed, rest);
      LastIsSeen(observed, rest);
      assert live * Ever(observed, lives[..n]) <= Last(observed, lives[..n]);
      assert Ever(observed, lives) == Ever(observed, rest) + (live - Last(observed, rest));
      assert Ever(observed, rest) !! live - Last(observed, rest);
    }
  }

  /** If no pod name returns, it is enough that the pods that ever appeared number at
      most the initial replicas. */
  lemma DistinctPodsFit(a: Account, lives: seq<set<string>>)
    requires NoReturn(a.observed, lives)
    ensures NeverShort(a, lives) <==> |Ever(a.observed, lives)| <= a.replicas
  {
    EverCounts(a.observed, lives);
    NeverShortIff(a, lives);
  }

  /** If a name does return it is not: one pod, one replica, and the pod comes back. */
  lemma ReturningPodIsShort()
    ensures var a, lives := Account({}, 1), [{"x"}, {}, {"x"}];
      |Ever(a.observed, lives)| <= a.replicas && !NeverShort(a, lives)
  {
    var a, lives := Account({}, 1), [{"x"}, {}, {"x"}];
    assert lives[..2] == [{"x"}, {}] && lives[..2][..1] == [{"x"}] && lives[..2][..1][..0] == [];
    assert Ever({}, lives[..2][..1]) == {"x"};
    assert Ever({}, lives[..2]) == {"x"};
    assert Ever({}, lives) == {"x"};
    assert {"x"} - {} == {"x"} && {} - {"x"} == {};
    assert Appearances({}, lives[..2][..1]) == 1;
    assert Appearances({}, lives[..2]) == 1;
    assert Appearances({}, lives) == 2;
    NeverShortIff(a, lives);
  }

  // ---------- Restarts ----------

  function RunEvents(a: Account, es: seq<Event>): Account {
    if es == [] then a else Step(RunEvents(a, es[..|es| - 1]), es[|es| - 1])
  }

  function Calls(es: seq<Event>): seq<set<string>> {
    if es == [] then []
    else Calls(es[..|es| - 1]) + match es[|es| - 1] case Call(live) => [live] case Restart => []
  }

  /** Losing the memory, any number of times and anywhere, can only leave the replicas
      higher. */
  lemma {:induction false} RestartsOnlyRaise(a: Account, es: seq<Event>)
    ensures RunEvents(a, es).observed <= Run(a, Calls(es)).observed
    ensures Run(a, Calls(es)).replicas <= RunEvents(a, es).replicas
  {
    if es != [] {
      var rest := es[..|es| - 1];
      RestartsOnlyRaise(a, rest);
      match es[|es| - 1]
      case Restart => assert Calls(es) == Calls(rest);
      case Call(live) =>
        assert Calls(es)[..|Calls(es)| - 1] == Calls(rest);
        var forgetful, x := RunEvents(a, rest), Run(a, Calls(rest));
        SubsetSize(forgetful.observed - live, x.observed - live);
    }
  }
}
