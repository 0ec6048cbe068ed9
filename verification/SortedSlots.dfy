/** A sorted slice of ranked items beside a map of the same items by name: how the
    scheduling queues store their units. */
module SortedSlots {
  import opened UnitOrder

  /** An entry of the slice: the rank it is compared by and the object it points to. */
  datatype Slot<T> = Slot(rank: Rank, item: T)

  function Ranks<T>(s: seq<Slot<T>>): (r: seq<Rank>)
    ensures |r| == |s| && forall i :: 0 <= i < |s| ==> r[i] == s[i].rank
  {
    seq(|s|, i requires 0 <= i < |s| => s[i].rank)
  }

  /** Every slot points to the item the map holds under its name, and every item of the
      map has a slot. */
  ghost predicate Matches<T>(s: seq<Slot<T>>, m: map<string, T>) {
    && (forall i :: 0 <= i < |s| ==> s[i].rank.name in m && m[s[i].rank.name] == s[i].item)
    && (forall k {:trigger HasName(s, k)} :: k in m ==> HasName(s, k))
  }

  ghost predicate HasName<T>(s: seq<Slot<T>>, k: string) {
    exists i :: 0 <= i < |s| && s[i].rank.name == k
  }

  /** The slice is strictly sorted and holds exactly the units of the map, each once. */
  ghost predicate Queued<T>(s: seq<Slot<T>>, m: map<string, T>) {
    Matches(s, m) && StrictlySorted(Ranks(s))
  }

  /** No two slots of a queue share a UID or a name. */
  lemma QueuedOnce<T>(s: seq<Slot<T>>, m: map<string, T>, i: nat, j: nat)
    requires Queued(s, m) && i < |s| && j < |s|
    requires s[i].rank.uid == s[j].rank.uid || s[i].rank.name == s[j].rank.name
    ensures i == j
  {
    var r := Ranks(s);
    assert Compatible(r[i], r[j]);
    LessTotal(r[i], r[j]);
    LessTotal(r[j], r[i]);
  }

  lemma RanksInsert<T>(s: seq<Slot<T>>, k: nat, x: Slot<T>)
    requires k <= |s|
    ensures Ranks(InsertAt(s, k, x)) == InsertAt(Ranks(s), k, x.rank)
  {}

  lemma RanksRemove<T>(s: seq<Slot<T>>, k: nat)
    requires k < |s|
    ensures Ranks(RemoveAt(s, k)) == RemoveAt(Ranks(s), k)
  {}

  lemma MatchesInsert<T>(s: seq<Slot<T>>, m: map<string, T>, k: nat, x: Slot<T>)
    requires Matches(s, m) && x.rank.name !in m && k <= |s|
    ensures Matches(InsertAt(s, k, x), m[x.rank.name := x.item])
  {
    var s' := InsertAt(s, k, x);
    assert s'[k] == x;
    forall n | n in m ensures HasName(s', n) {
      assert HasName(s, n);
      var i :| 0 <= i < |s| && s[i].rank.name == n;
      assert s'[if i < k then i else i + 1] == s[i];
    }
  }

  lemma MatchesRemove<T>(s: seq<Slot<T>>, m: map<string, T>, k: nat)
    requires Matches(s, m) && k < |s|
    requires forall i :: 0 <= i < |s| && i != k ==> s[i].rank.name != s[k].rank.name
    ensures Matches(RemoveAt(s, k), m - {s[k].rank.name})
  {
    var s' := RemoveAt(s, k);
    forall i | 0 <= i < |s'| ensures s'[i].rank.name in m - {s[k].rank.name} && m[s'[i].rank.name] == s'[i].item {
      assert s'[i] == s[if i < k then i else i + 1];
    }
    forall n | n in m - {s[k].rank.name} ensures HasName(s', n) {
      assert HasName(s, n);
      var i :| 0 <= i < |s| && s[i].rank.name == n;
      assert s'[if i < k then i else i - 1] == s[i];
    }
  }

  /** A unit under a new name and a new UID is not found and goes to its place. */
  lemma InsertQueued<T>(s: seq<Slot<T>>, m: map<string, T>, x: Slot<T>)
    requires Queued(s, m) && x.rank.name !in m
    requires forall i :: 0 <= i < |s| ==> s[i].rank.uid != x.rank.uid
    ensures !Found(Ranks(s), x.rank)
    ensures Queued(InsertAt(s, SearchIndex(Ranks(s), x.rank), x), m[x.rank.name := x.item])
  {
    var r, t := Ranks(s), x.rank;
    SearchSorted(r, t);
    var k := SearchIndex(r, t);
    InsertSorted(r, t, k);
    RanksInsert(s, k, x);
    MatchesInsert(s, m, k, x);
  }

  lemma RemoveQueued<T>(s: seq<Slot<T>>, m: map<string, T>, k: nat)
    requires Queued(s, m) && k < |s|
    ensures Queued(RemoveAt(s, k), m - {s[k].rank.name})
  {
    RemoveSorted(Ranks(s), k);
    RanksRemove(s, k);
    forall i | 0 <= i < |s| && i != k ensures s[i].rank.name != s[k].rank.name {
      if s[i].rank.name == s[k].rank.name { QueuedOnce(s, m, i, k); }
    }
    MatchesRemove(s, m, k);
  }

  /** In a queue, UID `t.uid` belongs to name `t.name` and to no other. */
  ghost predicate OneToOne<T>(s: seq<Slot<T>>, t: Rank) {
    forall i :: 0 <= i < |s| ==> (s[i].rank.uid == t.uid <==> s[i].rank.name == t.name)
  }

  /** Whatever a search hits is the slot of that unit. */
  lemma FoundIsNamed<T>(s: seq<Slot<T>>, t: Rank)
    requires OneToOne(s, t) && Found(Ranks(s), t)
    ensures s[SearchIndex(Ranks(s), t)].rank.name == t.name
  {
    var x := s[SearchIndex(Ranks(s), t)].rank;
    LexTotal(x.name, t.name);
  }

  /** A search with the rank of the queued copy finds it; a unit that is not queued is
      not found. */
  lemma FindQueued<T>(s: seq<Slot<T>>, m: map<string, T>, t: Rank)
    requires Queued(s, m) && OneToOne(s, t)
    requires forall i :: 0 <= i < |s| && s[i].rank.name == t.name ==> s[i].rank == t
    ensures Found(Ranks(s), t) <==> t.name in m
    ensures t.name in m ==> s[SearchIndex(Ranks(s), t)].rank == t
  {
    SearchSorted(Ranks(s), t);
    if t.name in m {
      assert HasName(s, t.name);
      var i :| 0 <= i < |s| && s[i].rank.name == t.name;
      assert Ranks(s)[i] == t;
    }
  }

  /** Search and delete: what is left is the queue without that unit. */
  lemma SearchAndRemove<T>(s: seq<Slot<T>>, m: map<string, T>, t: Rank)
    requires Queued(s, m) && OneToOne(s, t)
    requires forall i :: 0 <= i < |s| && s[i].rank.name == t.name ==> s[i].rank == t
    ensures Found(Ranks(s), t) ==> Queued(RemoveAt(s, SearchIndex(Ranks(s), t)), m - {t.name})
    ensures !Found(Ranks(s), t) ==> m - {t.name} == m
  {
    FindQueued(s, m, t);
    if Found(Ranks(s), t) {
      RemoveQueued(s, m, SearchIndex(Ranks(s), t));
    }
  }

  /** The map and the ranks of its items determine the slice. */
  lemma QueueIsDetermined<T>(s: seq<Slot<T>>, s': seq<Slot<T>>, m: map<string, T>)
    requires Queued(s, m) && Queued(s', m)
    requires forall i, j :: 0 <= i < |s| && 0 <= j < |s'| && s[i].rank.name == s'[j].rank.name ==> s[i].rank == s'[j].rank
    ensures s == s'
  {
    forall x ensures x in Ranks(s) <==> x in Ranks(s') {
      if x in Ranks(s) { MemberCarries(s, s', m, x); }
      if x in Ranks(s') { MemberCarries(s', s, m, x); }
    }
    SortedUnique(Ranks(s), Ranks(s'));
    forall i | 0 <= i < |s| ensures s[i] == s'[i] {
      assert Ranks(s)[i] == Ranks(s')[i];
    }
  }

  lemma MemberCarries<T>(s: seq<Slot<T>>, s': seq<Slot<T>>, m: map<string, T>, x: Rank)
    requires Matches(s, m) && Matches(s', m) && x in Ranks(s)
    requires forall i, j :: 0 <= i < |s| && 0 <= j < |s'| && s[i].rank.name == s'[j].rank.name ==> s[i].rank == s'[j].rank
    ensures x in Ranks(s')
  {
    var i :| 0 <= i < |s| && s[i].rank == x;
    assert HasName(s', x.name);
    var j :| 0 <= j < |s'| && s'[j].rank.name == x.name;
    assert Ranks(s')[j] == x;
  }

  // ---------- slices.SortFunc ----------

  function InsertBy<T>(s: seq<Slot<T>>, x: Slot<T>): seq<Slot<T>> {
    if s == [] || Less(s[|s| - 1].rank, x.rank) <= 0 then s + [x]
    else InsertBy(s[..|s| - 1], x) + [s[|s| - 1]]
  }

  /** A sort by the comparator. */
  function SortFunc<T>(s: seq<Slot<T>>): seq<Slot<T>> {
    if s == [] then [] else InsertBy(SortFunc(s[..|s| - 1]), s[|s| - 1])
  }

  lemma {:induction false} InsertByPermutes<T>(s: seq<Slot<T>>, x: Slot<T>)
    ensures multiset(InsertBy(s, x)) == multiset(s) + multiset{x}
  {
    if s != [] {
      InsertByPermutes(s[..|s| - 1], x);
      assert s == s[..|s| - 1] + [s[|s| - 1]];
    }
  }

  lemma {:induction false} SortPermutes<T>(s: seq<Slot<T>>)
    ensures multiset(SortFunc(s)) == multiset(s)
  {
    if s != [] {
      SortPermutes(s[..|s| - 1]);
      InsertByPermutes(SortFunc(s[..|s| - 1]), s[|s| - 1]);
      assert s == s[..|s| - 1] + [s[|s| - 1]];
    }
  }

  /** Slots whose copies of one unit agree. */
  ghost predicate AgreeOn<T>(s: seq<Slot<T>>, rs: set<Rank>) {
    && (forall a, b :: a in rs && b in rs ==> Compatible(a, b))
    && (forall i :: 0 <= i < |s| ==> s[i].rank in rs)
  }

  ghost predicate InOrder<T>(s: seq<Slot<T>>) {
    forall i, j :: 0 <= i < j < |s| ==> Less(s[i].rank, s[j].rank) <= 0
  }

  lemma {:induction false} InsertBySorted<T>(s: seq<Slot<T>>, x: Slot<T>, rs: set<Rank>)
    requires AgreeOn(s, rs) && x.rank in rs && InOrder(s)
    ensures InOrder(InsertBy(s, x)) && AgreeOn(InsertBy(s, x), rs)
    ensures forall y: Slot<T> :: y in InsertBy(s, x) ==> y == x || y in s
  {
    if s != [] {
      var n := |s| - 1;
      if Less(s[n].rank, x.rank) <= 0 {
        forall i | 0 <= i < n ensures Less(s[i].rank, x.rank) <= 0 {
          LessTransitive(s[i].rank, s[n].rank, x.rank);
        }
      } else {
        InsertBySorted(s[..n], x, rs);
        var r := InsertBy(s[..n], x);
        LessTotal(s[n].rank, x.rank);
        forall i | 0 <= i < |r| ensures Less(r[i].rank, s[n].rank) <= 0 {
          assert r[i] in r;
          if r[i] != x {
            var j :| 0 <= j < n && s[..n][j] == r[i];
          }
        }
      }
    }
  }

  /** The sort of any slice whose copies agree is a sorted permutation of it. */
  lemma {:induction false} SortSorts<T>(s: seq<Slot<T>>, rs: set<Rank>)
    requires AgreeOn(s, rs)
    ensures InOrder(SortFunc(s)) && AgreeOn(SortFunc(s), rs)
    decreases |s|
  {
    if s != [] {
      var n := |s| - 1;
      SortSorts(s[..n], rs);
      InsertBySorted(SortFunc(s[..n]), s[n], rs);
    }
  }

  /** Sorting a sorted slice changes nothing. */
  lemma {:induction false} SortIsIdentity<T>(s: seq<Slot<T>>)
    requires InOrder(s)
    ensures SortFunc(s) == s
  {
    if s != [] {
      var n := |s| - 1;
      SortIsIdentity(s[..n]);
      assert s == s[..n] + [s[n]];
    }
  }

  /** Neighbours in order make the whole slice sorted. */
  lemma {:induction false} NeighboursSorted<T>(s: seq<Slot<T>>, rs: set<Rank>, i: nat, j: nat)
    requires AgreeOn(s, rs) && i < j < |s|
    requires forall k :: 0 < k < |s| ==> Less(s[k - 1].rank, s[k].rank) <= 0
    ensures Less(s[i].rank, s[j].rank) <= 0
    decreases j - i
  {
    if i + 1 < j {
      NeighboursSorted(s, rs, i, j - 1);
      LessTransitive(s[i].rank, s[j - 1].rank, s[j].rank);
    }
  }

  ghost predicate Differ<T>(x: Slot<T>, y: Slot<T>) {
    x.rank.name != y.rank.name && x.rank.uid != y.rank.uid
  }

  ghost predicate AllDiffer<T>(s: seq<Slot<T>>) {
    forall i, j {:trigger Differ(s[i], s[j])} :: 0 <= i < j < |s| ==> Differ(s[i], s[j])
  }

  lemma {:induction false} InsertByDiffers<T>(s: seq<Slot<T>>, x: Slot<T>)
    requires AllDiffer(s) && forall i :: 0 <= i < |s| ==> Differ(s[i], x)
    ensures AllDiffer(InsertBy(s, x))
    ensures forall y: Slot<T> :: y in InsertBy(s, x) ==> y == x || y in s
    ensures x in InsertBy(s, x) && forall y: Slot<T> :: y in s ==> y in InsertBy(s, x)
  {
    if s != [] && Less(s[|s| - 1].rank, x.rank) > 0 {
      var n := |s| - 1;
      InsertByDiffers(s[..n], x);
      var r := InsertBy(s[..n], x);
      forall i | 0 <= i < |r| ensures Differ(r[i], s[n]) {
        var y := r[i];
        assert y in InsertBy(s[..n], x);
        if y != x {
          assert y in s[..n];
          var j :| 0 <= j < n && s[..n][j] == y;
          assert Differ(s[j], s[n]);
        }
      }
      assert s == s[..n] + [s[n]];
    }
  }

  lemma {:induction false} SortDiffers<T>(s: seq<Slot<T>>)
    requires AllDiffer(s)
    ensures AllDiffer(SortFunc(s))
    ensures forall y: Slot<T> :: y in SortFunc(s) ==> y in s
    ensures forall y: Slot<T> :: y in s ==> y in SortFunc(s)
  {
    if s != [] {
      var n := |s| - 1;
      SortDiffers(s[..n]);
      var r := SortFunc(s[..n]);
      forall i | 0 <= i < |r| ensures Differ(r[i], s[n]) {
        var y := r[i];
        assert y in SortFunc(s[..n]);
        var j :| 0 <= j < n && s[..n][j] == y;
        assert Differ(s[j], s[n]);
      }
      InsertByDiffers(r, s[n]);
      assert s == s[..n] + [s[n]];
    }
  }

  /** A slice with the members of the map in any order becomes a queue by sorting. */
  lemma SortMakesQueue<T>(s: seq<Slot<T>>, m: map<string, T>)
    requires Matches(s, m) && AllDiffer(s)
    ensures Queued(SortFunc(s), m)
  {
    var t := SortFunc(s);
    SortDiffers(s);
    var rs := set x | x in Ranks(s);
    assert AgreeOn(s, rs) by { RanksAgree(s); }
    SortSorts(s, rs);
    MatchesSameMembers(s, t, m);
    StrictFromDiffers(t);
  }

  lemma RanksAgree<T>(s: seq<Slot<T>>)
    requires AllDiffer(s)
    ensures AgreeOn(s, set x | x in Ranks(s))
  {
    var r := Ranks(s);
    forall a, b | a in r && b in r ensures Compatible(a, b) {
      var i :| 0 <= i < |s| && r[i] == a;
      var j :| 0 <= j < |s| && r[j] == b;
      assert i < j ==> Differ(s[i], s[j]);
      assert j < i ==> Differ(s[j], s[i]);
    }
    forall i | 0 <= i < |s| ensures s[i].rank in r { assert r[i] in r; }
  }

  lemma MatchesSameMembers<T>(s: seq<Slot<T>>, t: seq<Slot<T>>, m: map<string, T>)
    requires Matches(s, m) && (forall y: Slot<T> :: y in t ==> y in s) && (forall y: Slot<T> :: y in s ==> y in t)
    ensures Matches(t, m)
  {
    forall i | 0 <= i < |t| ensures t[i].rank.name in m && m[t[i].rank.name] == t[i].item {
      assert t[i] in s;
      var j :| 0 <= j < |s| && s[j] == t[i];
    }
    forall k | k in m ensures HasName(t, k) {
      assert HasName(s, k);
      var i :| 0 <= i < |s| && s[i].rank.name == k;
      assert s[i] in t;
      var j :| 0 <= j < |t| && t[j] == s[i];
    }
  }

  lemma StrictFromDiffers<T>(t: seq<Slot<T>>)
    requires AllDiffer(t) && InOrder(t)
    ensures StrictlySorted(Ranks(t))
  {
    var r := Ranks(t);
    forall i, j | 0 <= i < |r| && 0 <= j < |r| ensures Compatible(r[i], r[j]) && (i < j ==> Less(r[i], r[j]) < 0) {
      assert i < j ==> Differ(t[i], t[j]);
      assert j < i ==> Differ(t[j], t[i]);
      if i < j {
        LessTotal(t[i].rank, t[j].rank);
      }
    }
  }

  // ---------- The members, whatever their order ----------

  /** The slots are those of the map, each unit once, in any order. */
  ghost predicate Holds<T>(s: seq<Slot<T>>, m: map<string, T>) {
    Matches(s, m) && AllDiffer(s)
  }

  lemma QueuedDiffer<T>(s: seq<Slot<T>>, m: map<string, T>)
    requires Queued(s, m)
    ensures AllDiffer(s)
  {
    forall i, j | 0 <= i < j < |s| ensures Differ(s[i], s[j]) {
      if s[i].rank.name == s[j].rank.name || s[i].rank.uid == s[j].rank.uid {
        QueuedOnce(s, m, i, j);
      }
    }
  }

  /** A queue is its members in order. */
  lemma QueuedIff<T>(s: seq<Slot<T>>, m: map<string, T>)
    ensures Queued(s, m) <==> Holds(s, m) && InOrder(s)
  {
    if Queued(s, m) {
      QueuedDiffer(s, m);
      forall i, j | 0 <= i < j < |s| ensures Less(s[i].rank, s[j].rank) <= 0 {
        assert Less(Ranks(s)[i], Ranks(s)[j]) < 0;
      }
    }
    if Holds(s, m) && InOrder(s) {
      StrictFromDiffers(s);
    }
  }

  lemma DifferOnce<T>(s: seq<Slot<T>>, i: nat, j: nat)
    requires AllDiffer(s) && i < |s| && j < |s|
    requires s[i].rank.uid == s[j].rank.uid || s[i].rank.name == s[j].rank.name
    ensures i == j
  {
    assert i < j ==> Differ(s[i], s[j]);
    assert j < i ==> Differ(s[j], s[i]);
  }

  lemma HoldsRemove<T>(s: seq<Slot<T>>, m: map<string, T>, k: nat)
    requires Holds(s, m) && k < |s|
    ensures Holds(RemoveAt(s, k), m - {s[k].rank.name})
  {
    var r := RemoveAt(s, k);
    forall i | 0 <= i < |s| && i != k ensures s[i].rank.name != s[k].rank.name {
      if s[i].rank.name == s[k].rank.name { DifferOnce(s, i, k); }
    }
    MatchesRemove(s, m, k);
    forall i, j | 0 <= i < j < |r| ensures Differ(r[i], r[j]) {
      assert Differ(s[if i < k then i else i + 1], s[if j < k then j else j + 1]);
    }
  }

  lemma HoldsInsert<T>(s: seq<Slot<T>>, m: map<string, T>, k: nat, x: Slot<T>)
    requires Holds(s, m) && k <= |s| && x.rank.name !in m && forall i :: 0 <= i < |s| ==> s[i].rank.uid != x.rank.uid
    ensures Holds(InsertAt(s, k, x), m[x.rank.name := x.item])
  {
    var r := InsertAt(s, k, x);
    MatchesInsert(s, m, k, x);
    forall i, j | 0 <= i < j < |r| ensures Differ(r[i], r[j]) {
      if i != k && j != k {
        assert Differ(s[if i < k then i else i - 1], s[if j < k then j else j - 1]);
      } else {
        assert r[k] == x && s[if i == k then j - 1 else i].rank.name in m;
      }
    }
  }

  /** The slots but those of one name are in order. */
  ghost predicate OrderedBut<T>(s: seq<Slot<T>>, name: string) {
    forall i, j :: 0 <= i < j < |s| && s[i].rank.name != name && s[j].rank.name != name ==> Less(s[i].rank, s[j].rank) <= 0
  }

  lemma OrderedButRemove<T>(s: seq<Slot<T>>, k: nat)
    requires AllDiffer(s) && k < |s|
    ensures OrderedBut(s, s[k].rank.name) <==> InOrder(RemoveAt(s, k))
  {
    var r := RemoveAt(s, k);
    forall i | 0 <= i < |s| && s[i].rank.name == s[k].rank.name ensures i == k { DifferOnce(s, i, k); }
    if OrderedBut(s, s[k].rank.name) {
      forall i, j | 0 <= i < j < |r| ensures Less(r[i].rank, r[j].rank) <= 0 {
        assert r[i] == s[if i < k then i else i + 1] && r[j] == s[if j < k then j else j + 1];
      }
    }
    if InOrder(r) {
      forall i, j | 0 <= i < j < |s| && i != k && j != k ensures Less(s[i].rank, s[j].rank) <= 0 {
        assert r[if i < k then i else i - 1] == s[i] && r[if j < k then j else j - 1] == s[j];
      }
    }
  }

  lemma OrderedButAbsent<T>(s: seq<Slot<T>>, name: string)
    requires forall i :: 0 <= i < |s| ==> s[i].rank.name != name
    ensures OrderedBut(s, name) <==> InOrder(s)
  {}

  /** What a search by a new name and UID hits is nothing. */
  lemma NewIsNotFound<T>(s: seq<Slot<T>>, m: map<string, T>, x: Slot<T>)
    requires Holds(s, m) && x.rank.name !in m && forall i :: 0 <= i < |s| ==> s[i].rank.uid != x.rank.uid
    ensures !Found(Ranks(s), x.rank)
  {
    if Found(Ranks(s), x.rank) {
      LexTotal(s[SearchIndex(Ranks(s), x.rank)].rank.name, x.rank.name);
    }
  }

  /** Inserted where the search points, a new unit leaves the members in order exactly if
      they were. */
  lemma InsertOrderIff<T>(s: seq<Slot<T>>, m: map<string, T>, x: Slot<T>)
    requires Holds(s, m) && x.rank.name !in m && forall i :: 0 <= i < |s| ==> s[i].rank.uid != x.rank.uid
    ensures InOrder(InsertAt(s, SearchIndex(Ranks(s), x.rank), x)) <==> InOrder(s)
  {
    var k := SearchIndex(Ranks(s), x.rank);
    var r := InsertAt(s, k, x);
    if InOrder(s) {
      QueuedIff(s, m);
      InsertQueued(s, m, x);
      QueuedIff(r, m[x.rank.name := x.item]);
    }
    if InOrder(r) {
      RestInOrder(s, k, x);
    }
  }

  lemma RestInOrder<T>(s: seq<Slot<T>>, k: nat, x: Slot<T>)
    requires k <= |s| && InOrder(InsertAt(s, k, x))
    ensures InOrder(s)
  {
    var r := InsertAt(s, k, x);
    forall i, j | 0 <= i < j < |s| ensures Less(s[i].rank, s[j].rank) <= 0 {
      assert r[if i < k then i else i + 1] == s[i] && r[if j < k then j else j + 1] == s[j];
    }
  }

  // ---------- Taking units out one by one ----------

  /** Search, and delete what is hit. */
  function DropSlot<T>(s: seq<Slot<T>>, t: Rank): seq<Slot<T>> {
    if Found(Ranks(s), t) then RemoveAt(s, SearchIndex(Ranks(s), t)) else s
  }

  function DropSlots<T>(s: seq<Slot<T>>, ts: seq<Rank>): seq<Slot<T>> {
    if ts == [] then s else DropSlots(DropSlot(s, ts[0]), ts[1..])
  }

  /** Every one of the searches hits. */
  predicate AllFound<T>(s: seq<Slot<T>>, ts: seq<Rank>) {
    ts == [] || (Found(Ranks(s), ts[0]) && AllFound(DropSlot(s, ts[0]), ts[1..]))
  }

  lemma DropSlotsStep<T>(s: seq<Slot<T>>, ts: seq<Rank>, i: nat)
    requires i < |ts|
    ensures DropSlots(s, ts[i..]) == DropSlots(DropSlot(s, ts[i]), ts[i + 1..])
    ensures AllFound(s, ts[i..]) <==> Found(Ranks(s), ts[i]) && AllFound(DropSlot(s, ts[i]), ts[i + 1..])
  {
    assert ts[i..][1..] == ts[i + 1..];
  }

  // ---------- Replacing a unit where it stands ----------

  /** A slot that gets another rank of its unit keeps the members. */
  lemma HoldsRerank<T>(s: seq<Slot<T>>, m: map<string, T>, k: nat, t: Rank)
    requires Holds(s, m) && CopyOf(Ranks(s), k, t)
    ensures Holds(s[k := Slot(t, s[k].item)], m)
  {
    var r := s[k := Slot(t, s[k].item)];
    forall i, j | 0 <= i < j < |r| ensures Differ(r[i], r[j]) {
      assert Differ(s[i], s[j]);
    }
    forall n | n in m ensures HasName(r, n) {
      assert HasName(s, n);
      var i :| 0 <= i < |s| && s[i].rank.name == n;
      assert r[i].rank.name == n;
    }
  }

  /** In a queue it keeps the order exactly if it stays between its neighbours. */
  lemma RerankQueued<T>(s: seq<Slot<T>>, m: map<string, T>, k: nat, t: Rank)
    requires Queued(s, m) && CopyOf(Ranks(s), k, t)
    ensures InOrder(s[k := Slot(t, s[k].item)]) <==> Between(Ranks(s), k, t)
  {
    var r := s[k := Slot(t, s[k].item)];
    assert Ranks(r) == Ranks(s)[k := t];
    RerankIff(Ranks(s), k, t);
    QueuedIff(s, m);
    HoldsRerank(s, m, k, t);
    QueuedIff(r, m);
  }

  /** There are as many slots as the map has items. */
  lemma HoldsSize<T>(s: seq<Slot<T>>, m: map<string, T>)
    requires Holds(s, m)
    ensures |s| == |m|
  {
    SlotNamesCount(s);
    assert SlotNames(s) == m.Keys by {
      forall n | n in m ensures n in SlotNames(s) {
        assert HasName(s, n);
        var i :| 0 <= i < |s| && s[i].rank.name == n;
        assert s[i] in s;
      }
    }
  }

  ghost function SlotNames<T>(s: seq<Slot<T>>): set<string> {
    set x: Slot<T> | x in s :: x.rank.name
  }

  lemma {:induction false} SlotNamesCount<T>(s: seq<Slot<T>>)
    requires AllDiffer(s)
    ensures |SlotNames(s)| == |s|
  {
    if s != [] {
      var n := |s| - 1;
      assert AllDiffer(s[..n]) by {
        forall i, j | 0 <= i < j < n ensures Differ(s[..n][i], s[..n][j]) { assert Differ(s[i], s[j]); }
      }
      SlotNamesCount(s[..n]);
      assert s == s[..n] + [s[n]];
      assert SlotNames(s) == SlotNames(s[..n]) + {s[n].rank.name};
      forall i | 0 <= i < n ensures s[i].rank.name != s[n].rank.name { assert Differ(s[i], s[n]); }
    }
  }
}
