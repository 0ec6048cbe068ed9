/** Walks up the parent map of the quota cache. The map may be cyclic and may name
    parents that do not exist; a walk stops at the first quota that is unknown or
    that it has visited before. */
module QuotaTree {
  import opened Amounts

  /** The quotas a walk charges, in order, starting at `q` with `visited` behind it. */
  function Walk(dom: set<string>, parent: map<string, string>, q: string, visited: set<string>): seq<string>
    decreases dom - visited
  {
    if q !in dom || q in visited then []
    else [q] + if q in parent then Walk(dom, parent, parent[q], visited + {q}) else []
  }

  /** The same quotas as a set. */
  function Ahead(dom: set<string>, parent: map<string, string>, q: string, visited: set<string>): set<string>
    decreases dom - visited
  {
    if q !in dom || q in visited then {}
    else {q} + if q in parent then Ahead(dom, parent, parent[q], visited + {q}) else {}
  }

  function Chain(dom: set<string>, parent: map<string, string>, q: string): set<string> {
    Ahead(dom, parent, q, {})
  }

  lemma {:induction false} AheadIsWalk(dom: set<string>, parent: map<string, string>, q: string, visited: set<string>)
    ensures forall x :: x in Ahead(dom, parent, q, visited) <==> x in Walk(dom, parent, q, visited)
    decreases dom - visited
  {
    if q in dom && q !in visited && q in parent {
      AheadIsWalk(dom, parent, parent[q], visited + {q});
    }
  }

  /** Every quota on a walk exists, is new and occurs once, so no walk is longer than
      the number of unvisited quotas. */
  lemma {:induction false} WalkVisitsOnce(dom: set<string>, parent: map<string, string>, q: string, visited: set<string>)
    ensures var w := Walk(dom, parent, q, visited);
      && (forall i :: 0 <= i < |w| ==> w[i] in dom - visited)
      && (forall i, j :: 0 <= i < j < |w| ==> w[i] != w[j])
      && |w| <= |dom - visited|
    decreases dom - visited
  {
    if q in dom && q !in visited && q in parent {
      WalkVisitsOnce(dom, parent, parent[q], visited + {q});
      assert dom - visited == (dom - (visited + {q})) + {q};
    } else if q in dom && q !in visited {
      assert {q} <= dom - visited;
      SubsetSize({q}, dom - visited);
    }
  }

  /** Consecutive quotas of a walk are child and parent. */
  lemma {:induction false} WalkStep(dom: set<string>, parent: map<string, string>, q: string, visited: set<string>)
    ensures var w := Walk(dom, parent, q, visited);
      && (w != [] ==> w[0] == q)
      && forall i :: 0 <= i < |w| - 1 ==> w[i] in parent && w[i + 1] == parent[w[i]]
    decreases dom - visited
  {
    if q in dom && q !in visited && q in parent {
      WalkStep(dom, parent, parent[q], visited + {q});
    }
  }

  /** What a walk leaves behind it is closed: the parent of a visited quota is visited
      too, unless it does not exist. */
  lemma {:induction false} WalkClosed(dom: set<string>, parent: map<string, string>, q: string, visited: set<string>)
    ensures var w := Walk(dom, parent, q, visited);
      forall x :: x in w && x in parent && parent[x] in dom ==> parent[x] in w || parent[x] in visited
    decreases dom - visited
  {
    if q in dom && q !in visited && q in parent {
      WalkClosed(dom, parent, parent[q], visited + {q});
    }
  }

  /** A set is closed when it contains the existing parents of its members. */
  predicate ClosedUp(dom: set<string>, parent: map<string, string>, s: set<string>) {
    forall x :: x in s && x in parent && parent[x] in dom ==> parent[x] in s
  }

  lemma {:induction false} WalkLeast(dom: set<string>, parent: map<string, string>, q: string, visited: set<string>, s: set<string>)
    requires q in s || q !in dom
    requires ClosedUp(dom, parent, s)
    ensures forall x :: x in Walk(dom, parent, q, visited) ==> x in s
    decreases dom - visited
  {
    if q in dom && q !in visited && q in parent {
      WalkLeast(dom, parent, parent[q], visited + {q}, s);
    }
  }

  /** On every parent map, cyclic or not, the quotas charged for `q` are the least
      set that holds `q` and is closed under existing parents. */
  lemma ChainIsLeastClosed(dom: set<string>, parent: map<string, string>, q: string)
    ensures Chain(dom, parent, q) <= dom
    ensures q in dom <==> q in Chain(dom, parent, q)
    ensures ClosedUp(dom, parent, Chain(dom, parent, q))
    ensures forall s :: ClosedUp(dom, parent, s) && q in s ==> Chain(dom, parent, q) <= s
  {
    AheadIsWalk(dom, parent, q, {});
    WalkVisitsOnce(dom, parent, q, {});
    WalkClosed(dom, parent, q, {});
    WalkStep(dom, parent, q, {});
    forall s | ClosedUp(dom, parent, s) && q in s ensures Chain(dom, parent, q) <= s {
      WalkLeast(dom, parent, q, {}, s);
    }
  }

  lemma ChainTransitive(dom: set<string>, parent: map<string, string>, q: string, x: string)
    requires x in Chain(dom, parent, q)
    ensures Chain(dom, parent, x) <= Chain(dom, parent, q)
  {
    ChainIsLeastClosed(dom, parent, q);
    ChainIsLeastClosed(dom, parent, x);
  }

  /** No quota is charged again through its own parent. */
  predicate Acyclic(dom: set<string>, parent: map<string, string>) {
    forall q :: q in dom && q in parent ==> q !in Chain(dom, parent, parent[q])
  }

  predicate IsChild(dom: set<string>, parent: map<string, string>, c: string, p: string) {
    c in dom && c in parent && parent[c] == p
  }

  /** A proper ancestor is reached through one of its children. */
  lemma ReachedThroughChild(dom: set<string>, parent: map<string, string>, q: string, p: string) returns (c: string)
    requires p in Chain(dom, parent, q) && p != q
    ensures IsChild(dom, parent, c, p) && c in Chain(dom, parent, q)
  {
    var w := Walk(dom, parent, q, {});
    AheadIsWalk(dom, parent, q, {});
    WalkStep(dom, parent, q, {});
    WalkVisitsOnce(dom, parent, q, {});
    var k :| 0 <= k < |w| && w[k] == p;
    c := w[k - 1];
    assert w[k - 1 + 1] == parent[w[k - 1]];
  }

  /** On an acyclic map that child is unique. */
  lemma ChildOnChainIsUnique(dom: set<string>, parent: map<string, string>, q: string, p: string, c: string, d: string)
    requires Acyclic(dom, parent) && p in dom
    requires IsChild(dom, parent, c, p) && c in Chain(dom, parent, q)
    requires IsChild(dom, parent, d, p) && d in Chain(dom, parent, q)
    ensures c == d
  {
    var w := Walk(dom, parent, q, {});
    AheadIsWalk(dom, parent, q, {});
    WalkStep(dom, parent, q, {});
    WalkVisitsOnce(dom, parent, q, {});
    var i :| 0 <= i < |w| && w[i] == c;
    var j :| 0 <= j < |w| && w[j] == d;
    NextOnAcyclicWalk(dom, parent, q, i);
    NextOnAcyclicWalk(dom, parent, q, j);
  }

  lemma NextOnAcyclicWalk(dom: set<string>, parent: map<string, string>, q: string, i: nat)
    requires Acyclic(dom, parent)
    requires i < |Walk(dom, parent, q, {})|
    requires var x := Walk(dom, parent, q, {})[i]; x in parent && parent[x] in dom
    ensures var w := Walk(dom, parent, q, {}); i + 1 < |w| && w[i + 1] == parent[w[i]]
  {
    var w := Walk(dom, parent, q, {});
    AheadIsWalk(dom, parent, q, {});
    WalkStep(dom, parent, q, {});
    WalkVisitsOnce(dom, parent, q, {});
    WalkClosed(dom, parent, q, {});
    var x := w[i];
    var k :| 0 <= k < |w| && w[k] == parent[x];
    if k <= i {
      LaterIsReachable(dom, parent, q, k, i);
      assert false;
    } else if i + 1 < |w| {
      assert w[i + 1] == parent[w[i]];
    }
  }

  /** A quota later on a walk is charged by every walk from an earlier one. */
  lemma {:induction false} LaterIsReachable(dom: set<string>, parent: map<string, string>, q: string, k: nat, i: nat)
    requires k <= i < |Walk(dom, parent, q, {})|
    ensures var w := Walk(dom, parent, q, {}); w[i] in Chain(dom, parent, w[k])
    decreases i - k
  {
    var w := Walk(dom, parent, q, {});
    WalkStep(dom, parent, q, {});
    WalkVisitsOnce(dom, parent, q, {});
    ChainIsLeastClosed(dom, parent, w[k]);
    if k < i {
      assert w[k + 1] == parent[w[k]];
      LaterIsReachable(dom, parent, q, k + 1, i);
      ChainTransitive(dom, parent, w[k], w[k + 1]);
    }
  }
}
