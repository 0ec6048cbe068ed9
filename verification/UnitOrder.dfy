/** The order of the scheduling queues and the binary search and sort over it.
    The comparator answers 0 on equal UIDs before it looks at the priority, so it is a
    total order only on units of which no two copies with one UID disagree. */
module UnitOrder {

  /** What the comparator reads of a queued unit. */
  datatype Rank = Rank(uid: string, priority: int, created: int, name: string)

  /** Go's string comparison. */
  predicate LexLess(a: string, b: string) {
    if b == [] then false
    else if a == [] then true
    else a[0] < b[0] || (a[0] == b[0] && LexLess(a[1..], b[1..]))
  }

  lemma {:induction false} LexTotal(a: string, b: string)
    ensures LexLess(a, b) || a == b || LexLess(b, a)
    decreases |a|
  {
    if a != [] && b != [] {
      LexTotal(a[1..], b[1..]);
      assert a == [a[0]] + a[1..] && b == [b[0]] + b[1..];
    }
  }

  lemma {:induction false} LexAsymmetric(a: string, b: string)
    ensures !(LexLess(a, b) && LexLess(b, a))
    decreases |a|
  {
    if a != [] && b != [] {
      LexAsymmetric(a[1..], b[1..]);
    }
  }

  lemma {:induction false} LexTransitive(a: string, b: string, c: string)
    requires LexLess(a, b) && LexLess(b, c)
    ensures LexLess(a, c)
    decreases |a|
  {
    if a != [] && a[0] == b[0] == c[0] {
      LexTransitive(a[1..], b[1..], c[1..]);
    }
  }

  /** schedulingqueuev2 less and intelligentqueue priorityLess, branch by branch. */
  function Less(a: Rank, b: Rank): int {
    if a.uid == b.uid then 0
    else if a.priority < b.priority then 1
    else if a.priority > b.priority then -1
    else if a.created > b.created then 1
    else if a.created < b.created then -1
    else if LexLess(a.name, b.name) then -1
    else if LexLess(b.name, a.name) then 1
    else 0
  }

  // ---------- When the comparator is an order ----------

  /** Two ranks of one unit agree, and different units have different names. */
  predicate Compatible(a: Rank, b: Rank) {
    (a.uid == b.uid || a.name == b.name) ==> a == b
  }

  lemma LessTotal(a: Rank, b: Rank)
    requires Compatible(a, b)
    ensures Less(a, b) == -Less(b, a) && (Less(a, b) == 0 <==> a == b) && Less(a, b) in {-1, 0, 1}
  {
    LexTotal(a.name, b.name);
    LexAsymmetric(a.name, b.name);
  }

  lemma LessTransitive(a: Rank, b: Rank, c: Rank)
    requires Compatible(a, c) && Less(a, b) <= 0 && Less(b, c) <= 0 && Compatible(a, b) && Compatible(b, c)
    ensures Less(a, c) <= 0 && (Less(a, b) < 0 || Less(b, c) < 0 ==> Less(a, c) < 0)
  {
    LessTotal(a, b);
    LessTotal(b, c);
    LexAsymmetric(a.name, b.name);
    LexAsymmetric(b.name, c.name);
    LexAsymmetric(a.name, c.name);
    if LexLess(a.name, b.name) && LexLess(b.name, c.name) {
      LexTransitive(a.name, b.name, c.name);
    }
  }

  // ---------- What the order is ----------

  /** The first character in which two strings differ is smaller in `a`, or `a` ends there. */
  ghost predicate Ascends(a: string, b: string) {
    exists d :: DiffersAt(a, b, d)
  }

  ghost predicate DiffersAt(a: string, b: string, d: int) {
    && 0 <= d <= |a| && d < |b|
    && (forall i :: 0 <= i < d ==> a[i] == b[i])
    && (d == |a| || a[d] < b[d])
  }

  lemma {:induction false} LexIff(a: string, b: string)
    ensures LexLess(a, b) <==> Ascends(a, b)
    decreases |a|
  {
    if a != [] && b != [] {
      LexIff(a[1..], b[1..]);
      if d :| DiffersAt(a[1..], b[1..], d) {
        assert a[0] == b[0] ==> DiffersAt(a, b, d + 1);
      }
      if d :| DiffersAt(a, b, d) {
        assert d > 0 ==> DiffersAt(a[1..], b[1..], d - 1);
      }
      assert a[0] < b[0] ==> DiffersAt(a, b, 0);
    } else if b != [] {
      assert DiffersAt(a, b, 0);
    }
  }

  /** One unit comes before another: a higher priority, at equal priority an earlier creation,
      and at equal both an ascending name. */
  ghost predicate Precedes(priority: int, created: int, name: string, priority': int, created': int, name': string) {
    || priority > priority'
    || (priority == priority' && created < created')
    || (priority == priority' && created == created' && Ascends(name, name'))
  }

  /** The comparator puts different units in this order and calls copies of one unit equal. */
  lemma LessIff(a: Rank, b: Rank)
    ensures Less(a, b) < 0 <==> a.uid != b.uid && Precedes(a.priority, a.created, a.name, b.priority, b.created, b.name)
    ensures a.uid == b.uid ==> Less(a, b) == 0
  {
    LexIff(a.name, b.name);
  }

  /** In a sorted slice priorities do not rise, at equal priority creation times do not fall,
      and at equal both names ascend. */
  lemma SortedOrder(s: seq<Rank>, i: nat, j: nat)
    requires StrictlySorted(s) && i < j < |s|
    ensures s[i].priority >= s[j].priority
    ensures s[i].priority == s[j].priority ==> s[i].created <= s[j].created
    ensures s[i].priority == s[j].priority && s[i].created == s[j].created ==> Ascends(s[i].name, s[j].name)
  {
    assert Less(s[i], s[j]) < 0;
    LessIff(s[i], s[j]);
  }

  // ---------- Sorted sequences ----------

  predicate AllCompatible(s: seq<Rank>) {
    forall i, j {:trigger Compatible(s[i], s[j])} :: 0 <= i < |s| && 0 <= j < |s| ==> Compatible(s[i], s[j])
  }

  predicate CompatibleWith(s: seq<Rank>, t: Rank) {
    forall i :: 0 <= i < |s| ==> Compatible(s[i], t)
  }

  predicate StrictlySorted(s: seq<Rank>) {
    AllCompatible(s) && forall i, j {:trigger Less(s[i], s[j])} :: 0 <= i < j < |s| ==> Less(s[i], s[j]) < 0
  }

  /** slices.BinarySearchFunc on s[lo..hi]. */
  function LowerBound(s: seq<Rank>, t: Rank, lo: nat, hi: nat): (i: nat)
    requires lo <= hi <= |s|
    ensures lo <= i <= hi
    decreases hi - lo
  {
    if lo == hi then lo
    else
      var h := (lo + hi) / 2;
      if Less(s[h], t) < 0 then LowerBound(s, t, h + 1, hi) else LowerBound(s, t, lo, h)
  }

  function SearchIndex(s: seq<Rank>, t: Rank): (i: nat)
    ensures i <= |s|
  {
    LowerBound(s, t, 0, |s|)
  }

  predicate Found(s: seq<Rank>, t: Rank) {
    SearchIndex(s, t) < |s| && Less(s[SearchIndex(s, t)], t) == 0
  }

  /** `k` splits `s` into the ranks before `t` and the others. */
  predicate Splits(s: seq<Rank>, t: Rank, k: nat) {
    && k <= |s|
    && (forall i :: 0 <= i < k ==> Less(s[i], t) < 0)
    && (forall i :: k <= i < |s| ==> Less(s[i], t) >= 0)
  }

  lemma {:induction false} LowerBoundSplits(s: seq<Rank>, t: Rank, k: nat, lo: nat, hi: nat)
    requires Splits(s, t, k) && lo <= k <= hi <= |s|
    ensures LowerBound(s, t, lo, hi) == k
    decreases hi - lo
  {
    if lo < hi {
      var h := (lo + hi) / 2;
      if h < k {
        LowerBoundSplits(s, t, k, h + 1, hi);
      } else {
        LowerBoundSplits(s, t, k, lo, h);
      }
    }
  }

  /** A split point of a sorted sequence exists. */
  lemma {:induction false} SplitExists(s: seq<Rank>, t: Rank, n: nat) returns (k: nat)
    requires StrictlySorted(s) && CompatibleWith(s, t) && n <= |s|
    ensures Splits(s[..n], t, k)
    decreases n
  {
    if n == 0 {
      k := 0;
    } else {
      k := SplitExists(s, t, n - 1);
      if k == n - 1 {
        if Less(s[n - 1], t) < 0 { k := n; }
      } else {
        var x := s[k];
        assert s[..n - 1][k] == x;
        if Less(s[n - 1], t) < 0 {
          LessTransitive(x, s[n - 1], t);
          assert false;
        }
        assert forall i :: k <= i < n ==> i == n - 1 || s[..n - 1][i] == s[i];
      }
    }
  }

  lemma AtSplit(s: seq<Rank>, t: Rank, k: nat, i: nat)
    requires StrictlySorted(s) && CompatibleWith(s, t) && Splits(s, t, k) && i < |s| && s[i] == t
    ensures k == i
  {
    if k < i {
      InOrderAt(s, k, i);
    }
  }

  lemma InOrderAt(s: seq<Rank>, i: nat, j: nat)
    requires StrictlySorted(s) && i < j < |s|
    ensures Less(s[i], s[j]) < 0
  {}

  /** Searching a strictly sorted sequence for a rank that no copy in it contradicts
      finds the rank exactly when it is there, and else the place to insert it. */
  lemma SearchSorted(s: seq<Rank>, t: Rank)
    requires StrictlySorted(s) && CompatibleWith(s, t)
    ensures Splits(s, t, SearchIndex(s, t))
    ensures Found(s, t) <==> t in s
    ensures Found(s, t) ==> s[SearchIndex(s, t)] == t
  {
    var k := SplitExists(s, t, |s|);
    assert s[..|s|] == s;
    LowerBoundSplits(s, t, k, 0, |s|);
    if t in s {
      var i :| 0 <= i < |s| && s[i] == t;
      AtSplit(s, t, k, i);
    }
    if k < |s| {
      LessTotal(s[k], t);
    }
  }

  function InsertAt<T>(s: seq<T>, i: nat, t: T): seq<T>
    requires i <= |s|
  {
    s[..i] + [t] + s[i..]
  }

  function RemoveAt<T>(s: seq<T>, i: nat): seq<T>
    requires i < |s|
  {
    s[..i] + s[i + 1..]
  }

  /** Inserting at the found place keeps the order. */
  lemma InsertSorted(s: seq<Rank>, t: Rank, k: nat)
    requires StrictlySorted(s) && CompatibleWith(s, t) && t !in s && Splits(s, t, k)
    ensures StrictlySorted(InsertAt(s, k, t))
  {
    var r := InsertAt(s, k, t);
    forall i, j | 0 <= i < |r| && 0 <= j < |r| ensures Compatible(r[i], r[j]) && (i < j ==> Less(r[i], r[j]) < 0) {
      var a := if i < k then i else i - 1;
      var b := if j < k then j else j - 1;
      if i == k && j > k {
        LessTotal(s[b], t);
      }
    }
  }

  lemma RemoveSorted(s: seq<Rank>, k: nat)
    requires StrictlySorted(s) && k < |s|
    ensures StrictlySorted(RemoveAt(s, k)) && s[k] !in RemoveAt(s, k)
  {
    var r := RemoveAt(s, k);
    forall i, j | 0 <= i < |r| && 0 <= j < |r| ensures Compatible(r[i], r[j]) && (i < j ==> Less(r[i], r[j]) < 0) {
      var a := if i < k then i else i + 1;
      var b := if j < k then j else j + 1;
      assert r[i] == s[a] && r[j] == s[b];
    }
    forall i | 0 <= i < |r| ensures r[i] != s[k] {
      var a := if i < k then i else i + 1;
      assert r[i] == s[a];
      assert Less(s[a], s[k]) < 0 || Less(s[k], s[a]) < 0;
    }
  }

  /** A strictly sorted sequence is determined by the set of its ranks. */
  lemma {:induction false} SortedUnique(s: seq<Rank>, t: seq<Rank>)
    requires StrictlySorted(s) && StrictlySorted(t)
    requires forall x :: x in s <==> x in t
    ensures s == t
    decreases |s|
  {
    if s == [] {
      if t != [] {
        HeadIsMember(t);
        assert false;
      }
    } else {
      assert s[0] in t;
      assert t[0] in s;
      SameHead(s, t);
      HeadFresh(s);
      HeadFresh(t);
      assert s == [s[0]] + s[1..] && t == [t[0]] + t[1..];
      forall x ensures x in s[1..] <==> x in t[1..] {
        assert x in s <==> x == s[0] || x in s[1..];
        assert x in t <==> x == t[0] || x in t[1..];
      }
      SortedUnique(s[1..], t[1..]);
    }
  }

  lemma HeadIsMember(s: seq<Rank>)
    requires s != []
    ensures s[0] in s
  {}

  lemma HeadFresh(s: seq<Rank>)
    requires StrictlySorted(s) && s != []
    ensures s[0] !in s[1..]
  {
    forall i | 0 <= i < |s[1..]| ensures s[1..][i] != s[0] {
      assert Less(s[0], s[i + 1]) < 0;
    }
  }

  lemma SameHead(s: seq<Rank>, t: seq<Rank>)
    requires StrictlySorted(s) && StrictlySorted(t) && s != [] && t != []
    requires s[0] in t && t[0] in s
    ensures s[0] == t[0]
  {
    var i :| 0 <= i < |t| && t[i] == s[0];
    var j :| 0 <= j < |s| && s[j] == t[0];
    if i > 0 && j > 0 {
      assert Less(t[0], s[0]) < 0 && Less(s[0], t[0]) < 0;
      LessTotal(s[0], s[j]);
    }
  }

  // ---------- Searching with another copy of a queued unit ----------

  /** Another copy of the unit at `k`. */
  predicate CopyOf(s: seq<Rank>, k: nat, t: Rank) {
    k < |s| && t.uid == s[k].uid && t.name == s[k].name
  }

  /** The copy would stand where the unit stands. */
  predicate Between(s: seq<Rank>, k: nat, t: Rank)
    requires k < |s|
  {
    (k > 0 ==> Less(s[k - 1], t) < 0) && (k + 1 < |s| ==> Less(t, s[k + 1]) < 0)
  }

  lemma OthersCompatible(s: seq<Rank>, k: nat, t: Rank, i: nat)
    requires StrictlySorted(s) && CopyOf(s, k, t) && i < |s| && i != k
    ensures s[i].uid != t.uid && s[i].name != t.name && Compatible(s[i], t) && Compatible(t, s[i])
  {
    assert Compatible(s[i], s[k]);
    LessTotal(s[i], s[k]);
    if i < k { InOrderAt(s, i, k); } else { InOrderAt(s, k, i); }
  }

  /** Everything before the unit comes before the copy, if its predecessor does. */
  lemma BeforeCopy(s: seq<Rank>, k: nat, t: Rank, i: nat)
    requires StrictlySorted(s) && CopyOf(s, k, t) && i < k && Less(s[k - 1], t) < 0
    ensures Less(s[i], t) < 0
  {
    OthersCompatible(s, k, t, i);
    OthersCompatible(s, k, t, k - 1);
    if i < k - 1 {
      InOrderAt(s, i, k - 1);
      assert Compatible(s[i], s[k - 1]);
      LessTransitive(s[i], s[k - 1], t);
    }
  }

  /** What comes before some unit comes before all that follow it. */
  lemma CopyBefore(s: seq<Rank>, k: nat, t: Rank, j: nat, i: nat)
    requires StrictlySorted(s) && CopyOf(s, k, t) && j <= i < |s| && j != k && i != k && Less(t, s[j]) < 0
    ensures Less(t, s[i]) < 0 && Less(s[i], t) > 0
  {
    OthersCompatible(s, k, t, i);
    OthersCompatible(s, k, t, j);
    if j < i {
      InOrderAt(s, j, i);
      assert Compatible(s[j], s[i]);
      LessTransitive(t, s[j], s[i]);
    }
    LessTotal(s[i], t);
  }

  /** A copy that stands where the unit stands finds it. */
  lemma StayingIsFound(s: seq<Rank>, k: nat, t: Rank)
    requires StrictlySorted(s) && CopyOf(s, k, t) && Between(s, k, t)
    ensures Found(s, t) && SearchIndex(s, t) == k
  {
    assert Splits(s, t, k) by {
      forall i | 0 <= i < k ensures Less(s[i], t) < 0 { BeforeCopy(s, k, t, i); }
      forall i | k < i < |s| ensures Less(s[i], t) >= 0 { CopyBefore(s, k, t, k + 1, i); }
    }
    LowerBoundSplits(s, t, k, 0, |s|);
  }

  lemma MovedUpSplits(s: seq<Rank>, k: nat, t: Rank)
    requires StrictlySorted(s) && CopyOf(s, k, t) && k > 0 && Less(t, s[k - 1]) < 0
    ensures SearchIndex(s, t) < k && Splits(s, t, SearchIndex(s, t))
  {
    var p := s[..k];
    forall i, j | 0 <= i < |p| && 0 <= j < |p| ensures Compatible(p[i], p[j]) && (i < j ==> Less(p[i], p[j]) < 0) {
      assert Compatible(s[i], s[j]);
      if i < j { InOrderAt(s, i, j); }
    }
    assert CompatibleWith(p, t) by {
      forall i | 0 <= i < k ensures Compatible(p[i], t) { OthersCompatible(s, k, t, i); }
    }
    var m := SplitExists(p, t, k);
    assert p[..k] == p;
    CopyBefore(s, k, t, k - 1, k - 1);
    assert p[k - 1] == s[k - 1];
    assert m < k;
    assert Splits(s, t, m) by {
      forall i | 0 <= i < m ensures Less(s[i], t) < 0 { assert p[i] == s[i]; }
      forall i | m <= i < |s| ensures Less(s[i], t) >= 0 {
        if i < k { assert p[i] == s[i]; } else if i > k { CopyBefore(s, k, t, k - 1, i); }
      }
    }
    LowerBoundSplits(s, t, m, 0, |s|);
  }

  /** A copy that has moved before the predecessor of the unit never finds it: the search
      stops at the new place, although it would call the unit equal. */
  lemma MovedUpIsMissed(s: seq<Rank>, k: nat, t: Rank)
    requires StrictlySorted(s) && CopyOf(s, k, t) && k > 0 && Less(t, s[k - 1]) < 0
    ensures !Found(s, t) && SearchIndex(s, t) < k
  {
    MovedUpSplits(s, k, t);
    var m := SearchIndex(s, t);
    OthersCompatible(s, k, t, m);
    LessTotal(s[m], t);
  }

  /** For example: a unit in the middle whose priority rises above the first one's. */
  lemma ChangedPriorityIsMissed(a: Rank, x: Rank, b: Rank, p: int)
    requires Compatible(a, x) && Compatible(a, b) && Compatible(x, b) && a.uid != x.uid && x.uid != b.uid && a.uid != b.uid
    requires p > a.priority > x.priority > b.priority
    ensures StrictlySorted([a, x, b]) && Found([a, x, b], x) && !Found([a, x, b], x.(priority := p))
  {
    var s := [a, x, b];
    forall i, j | 0 <= i < |s| && 0 <= j < |s| ensures Compatible(s[i], s[j]) && (i < j ==> Less(s[i], s[j]) < 0) {
      LessTotal(a, x);
    }
    assert Less(s[0], x) < 0 && Less(x, s[2]) < 0;
    StayingIsFound(s, 1, x);
    MovedUpIsMissed(s, 1, x.(priority := p));
  }

  // ---------- A unit whose rank is replaced where it stands ----------

  /** A search with the rank it was sorted by still finds it. */
  lemma OldRankFindsReplaced(s: seq<Rank>, k: nat, t: Rank)
    requires StrictlySorted(s) && CopyOf(s, k, t)
    ensures SearchIndex(s[k := t], s[k]) == k && Found(s[k := t], s[k])
  {
    var r := s[k := t];
    assert Splits(r, s[k], k) by {
      forall i | 0 <= i < k ensures Less(r[i], s[k]) < 0 { InOrderAt(s, i, k); }
      forall i | k < i < |r| ensures Less(r[i], s[k]) >= 0 {
        InOrderAt(s, k, i);
        assert Compatible(s[k], s[i]);
        LessTotal(s[k], s[i]);
      }
    }
    LowerBoundSplits(r, s[k], k, 0, |r|);
  }

  /** A search with its own new rank misses it once that comes before its predecessor. */
  lemma ReplacedUpIsMissed(s: seq<Rank>, k: nat, t: Rank)
    requires StrictlySorted(s) && CopyOf(s, k, t) && k > 0 && Less(t, s[k - 1]) < 0
    ensures !Found(s[k := t], t)
  {
    var r := s[k := t];
    var m := SearchIndex(s, t);
    MovedUpSplits(s, k, t);
    assert Splits(r, t, m) by {
      forall i | 0 <= i < m ensures Less(r[i], t) < 0 { assert r[i] == s[i]; }
      forall i | m <= i < |r| ensures Less(r[i], t) >= 0 { assert i != k ==> r[i] == s[i]; }
    }
    LowerBoundSplits(r, t, m, 0, |r|);
    OthersCompatible(s, k, t, m);
    LessTotal(s[m], t);
  }

  /** For example: three units of falling priority. The second is raised above the first;
      once the slice is sorted, a search with its old rank misses it. */
  lemma RaisedAndSortedIsMissed(a: Rank, x: Rank, b: Rank, p: int)
    requires a.uid != x.uid && x.uid != b.uid && p > a.priority > x.priority > b.priority
    ensures !Found([x.(priority := p), a, b], x)
  {
    var r := [x.(priority := p), a, b];
    assert LowerBound(r, x, 2, 2) == 2;
    assert LowerBound(r, x, 2, 3) == 2;
    assert SearchIndex(r, x) == 2;
  }

  /** Giving the unit at `k` the rank of a copy keeps the order exactly if it stays between
      its neighbours. */
  lemma RerankIff(s: seq<Rank>, k: nat, t: Rank)
    requires StrictlySorted(s) && CopyOf(s, k, t)
    ensures StrictlySorted(s[k := t]) <==> Between(s, k, t)
  {
    var r := s[k := t];
    if StrictlySorted(r) {
      if k > 0 { InOrderAt(r, k - 1, k); }
      if k + 1 < |s| { InOrderAt(r, k, k + 1); }
    }
    if Between(s, k, t) {
      forall i, j | 0 <= i < |r| && 0 <= j < |r| ensures Compatible(r[i], r[j]) && (i < j ==> Less(r[i], r[j]) < 0) {
        RerankPair(s, k, t, i, j);
      }
    }
  }

  lemma RerankPair(s: seq<Rank>, k: nat, t: Rank, i: nat, j: nat)
    requires StrictlySorted(s) && CopyOf(s, k, t) && Between(s, k, t) && i < |s| && j < |s|
    ensures Compatible(s[k := t][i], s[k := t][j]) && (i < j ==> Less(s[k := t][i], s[k := t][j]) < 0)
  {
    if i != k { OthersCompatible(s, k, t, i); }
    if j != k { OthersCompatible(s, k, t, j); }
    if i != k && j != k {
      assert Compatible(s[i], s[j]);
      if i < j { InOrderAt(s, i, j); }
    } else if i < j && j == k {
      BeforeCopy(s, k, t, i);
    } else if i < j {
      CopyBefore(s, k, t, k + 1, j);
    }
  }
}
