/** The keyed heap: a binary heap of keys beside a map from keys to objects and their
    positions. The sifting of container/heap is part of the model; locks and metrics are
    not. */
module KeyedHeap {
  import opened Amounts

  // ---------- Binary heaps ----------

  function Parent(i: int): int
    requires 0 < i
  {
    (i - 1) / 2
  }

  ghost predicate Transitive<T(!new)>(less: (T, T) -> bool, a: T, b: T, c: T) {
    !less(b, a) && !less(c, b) ==> !less(c, a)
  }

  /** A strict weak order: asymmetric, and not being less is transitive. */
  ghost predicate WeakOrder<T(!new)>(less: (T, T) -> bool) {
    && (forall a, b :: less(a, b) ==> !less(b, a))
    && (forall a, b, c {:trigger Transitive(less, a, b, c)} :: Transitive(less, a, b, c))
  }

  /** The element is not less than its parent. */
  predicate Edge<T>(v: seq<T>, less: (T, T) -> bool, i: int)
    requires 0 < i < |v|
  {
    !less(v[i], v[Parent(i)])
  }

  ghost predicate Ordered<T>(v: seq<T>, less: (T, T) -> bool) {
    forall i {:trigger Edge(v, less, i)} :: 0 < i < |v| ==> Edge(v, less, i)
  }

  /** The children of `h` are not less than its parent. */
  ghost predicate Bridged<T>(v: seq<T>, less: (T, T) -> bool, h: int)
    requires 0 <= h < |v|
  {
    0 < h ==> forall c {:trigger v[c]} :: 0 < c < |v| && Parent(c) == h ==> !less(v[c], v[Parent(h)])
  }

  /** In order but for what concerns the element at `h`. */
  ghost predicate OrderedBut<T>(v: seq<T>, less: (T, T) -> bool, h: int)
    requires 0 <= h < |v|
  {
    && (forall i {:trigger Edge(v, less, i)} :: 0 < i < |v| && i != h && Parent(i) != h ==> Edge(v, less, i))
    && Bridged(v, less, h)
  }

  /** In order but for the edge above `h`. */
  ghost predicate OrderedBelow<T>(v: seq<T>, less: (T, T) -> bool, h: int)
    requires 0 <= h < |v|
  {
    && (forall i {:trigger Edge(v, less, i)} :: 0 < i < |v| && i != h ==> Edge(v, less, i))
    && Bridged(v, less, h)
  }

  function Swapped<T>(v: seq<T>, i: int, j: int): seq<T>
    requires 0 <= i < |v| && 0 <= j < |v|
  {
    v[i := v[j]][j := v[i]]
  }

  /** Moving an element up keeps everything below the new place in order. */
  lemma UpStep<T(!new)>(v: seq<T>, less: (T, T) -> bool, j: int)
    requires WeakOrder(less) && 0 < j < |v| && OrderedBelow(v, less, j) && less(v[j], v[Parent(j)])
    ensures OrderedBelow(Swapped(v, Parent(j), j), less, Parent(j))
  {
    var p, w := Parent(j), Swapped(v, Parent(j), j);
    forall i | 0 < i < |w| && i != p ensures Edge(w, less, i) {
      if Parent(i) == j {
        assert !less(v[i], v[p]);
      } else if Parent(i) == p && i != j {
        assert Edge(v, less, i);
        assert Transitive(less, v[j], v[p], v[i]);
      } else if i != j {
        assert Edge(v, less, i);
      }
    }
    if 0 < p {
      assert Edge(v, less, p);
      forall c | 0 < c < |w| && Parent(c) == p ensures !less(w[c], w[Parent(p)]) {
        if c != j {
          assert Edge(v, less, c);
          assert Transitive(less, v[Parent(p)], v[p], v[c]);
        }
      }
    }
  }

  /** The child of `i` that comes first. */
  ghost predicate FirstChild<T>(v: seq<T>, less: (T, T) -> bool, i: int, c: int)
    requires 0 <= i < |v|
  {
    0 < c < |v| && Parent(c) == i && forall d {:trigger v[d]} :: 0 < d < |v| && Parent(d) == i ==> !less(v[d], v[c])
  }

  /** Moving an element down: the new place has the edge above it in order. */
  lemma DownStep<T(!new)>(v: seq<T>, less: (T, T) -> bool, i: int, c: int)
    requires WeakOrder(less) && 0 <= i < |v| && OrderedBut(v, less, i) && FirstChild(v, less, i, c) && less(v[c], v[i])
    ensures var w := Swapped(v, i, c); OrderedBut(w, less, c) && Edge(w, less, c) && (0 < i ==> Edge(w, less, i))
  {
    var w := Swapped(v, i, c);
    forall k | 0 < k < |w| && k != c && Parent(k) != c ensures Edge(w, less, k) {
      if Parent(k) == i {
        assert !less(v[k], v[c]);
      } else if k == i {
        assert !less(v[c], v[Parent(i)]);
      } else {
        assert Edge(v, less, k);
      }
    }
    if 0 < i {
      assert !less(v[c], v[Parent(i)]);
    }
    forall d | 0 < d < |w| && Parent(d) == c ensures !less(w[d], w[Parent(c)]) {
      assert Edge(v, less, d);
    }
  }

  /** The root of a heap comes first. */
  lemma {:induction false} RootIsFirst<T(!new)>(v: seq<T>, less: (T, T) -> bool, i: nat)
    requires WeakOrder(less) && Ordered(v, less) && i < |v|
    ensures !less(v[i], v[0])
    decreases i
  {
    if i > 0 {
      RootIsFirst(v, less, Parent(i));
      assert Edge(v, less, i);
      assert Transitive(less, v[0], v[Parent(i)], v[i]);
    }
  }

  /** Replacing one element of a heap disturbs only what concerns it. */
  lemma ReplaceOne<T(!new)>(v: seq<T>, less: (T, T) -> bool, h: int, x: T)
    requires WeakOrder(less) && Ordered(v, less) && 0 <= h < |v|
    ensures OrderedBut(v[h := x], less, h)
  {
    var w := v[h := x];
    forall i | 0 < i < |w| && i != h && Parent(i) != h ensures Edge(w, less, i) {
      assert Edge(v, less, i);
    }
    if 0 < h {
      forall c | 0 < c < |w| && Parent(c) == h ensures !less(w[c], w[Parent(h)]) {
        assert Edge(v, less, c) && Edge(v, less, h);
        assert Transitive(less, v[Parent(h)], v[h], v[c]);
      }
    }
  }

  lemma Shorter<T>(v: seq<T>, less: (T, T) -> bool)
    requires Ordered(v, less) && |v| > 0
    ensures Ordered(v[..|v| - 1], less)
  {
    var w := v[..|v| - 1];
    forall i | 0 < i < |w| ensures Edge(w, less, i) {
      assert Edge(v, less, i);
    }
  }

  lemma Appended<T>(v: seq<T>, less: (T, T) -> bool, x: T)
    requires Ordered(v, less)
    ensures OrderedBelow(v + [x], less, |v|)
  {
    var w := v + [x];
    forall i | 0 < i < |w| && i != |v| ensures Edge(w, less, i) {
      assert Edge(v, less, i);
    }
  }

  // ---------- Keys, objects and positions ----------

  datatype Item<T> = Item(obj: T, index: int)

  /** Each key of the queue is in the map with its position, and there is no other. */
  ghost predicate Linked<T>(queue: seq<string>, items: map<string, Item<T>>) {
    && (forall i :: 0 <= i < |queue| ==> queue[i] in items && items[queue[i]].index == i)
    && (forall k :: k in items ==> 0 <= items[k].index < |queue| && queue[items[k].index] == k)
  }

  /** The objects in the order of the queue. */
  ghost function Values<T>(queue: seq<string>, items: map<string, Item<T>>): (v: seq<T>)
    requires Linked(queue, items)
    ensures |v| == |queue| && forall i :: 0 <= i < |queue| ==> v[i] == items[queue[i]].obj
  {
    seq(|queue|, i requires 0 <= i < |queue| => items[queue[i]].obj)
  }

  /** What the heap holds, without the order. */
  ghost function Objects<T>(items: map<string, Item<T>>): map<string, T> {
    map k | k in items :: items[k].obj
  }

  function Exchange<T>(queue: seq<string>, items: map<string, Item<T>>, i: int, j: int): map<string, Item<T>>
    requires 0 <= i < |queue| && 0 <= j < |queue| && queue[i] in items && queue[j] in items
  {
    items[queue[j] := items[queue[j]].(index := i)][queue[i] := items[queue[i]].(index := j)]
  }

  lemma ExchangeLinks<T>(queue: seq<string>, items: map<string, Item<T>>, i: int, j: int)
    requires Linked(queue, items) && 0 <= i < |queue| && 0 <= j < |queue|
    ensures var q, m := Swapped(queue, i, j), Exchange(queue, items, i, j);
      Linked(q, m) && Values(q, m) == Swapped(Values(queue, items), i, j) && Objects(m) == Objects(items)
  {
    var q, m := Swapped(queue, i, j), Exchange(queue, items, i, j);
    forall k | 0 <= k < |q| ensures q[k] in m && m[q[k]].index == k {
      assert queue[k] in items && items[queue[k]].index == k;
    }
    assert Linked(q, m);
    assert Objects(m).Keys == Objects(items).Keys;
    forall k | k in items ensures Objects(m)[k] == Objects(items)[k] {
      assert m[k].obj == items[k].obj;
    }
  }

  lemma PushLinks<T>(queue: seq<string>, items: map<string, Item<T>>, key: string, obj: T)
    requires Linked(queue, items) && key !in items
    ensures var q, m := queue + [key], items[key := Item(obj, |queue|)];
      Linked(q, m) && Values(q, m) == Values(queue, items) + [obj] && Objects(m) == Objects(items)[key := obj]
  {
    var q, m := queue + [key], items[key := Item(obj, |queue|)];
    assert Linked(q, m);
  }

  class Heap<T(!new)> {
    const keyOf: T -> Option<string>
    const less: (T, T) -> bool
    var items: map<string, Item<T>>
    var queue: seq<string>

    constructor (keyOf: T -> Option<string>, less: (T, T) -> bool)
      requires WeakOrder(less)
      ensures Valid() && items == map[] && this.keyOf == keyOf && this.less == less
    {
      this.keyOf, this.less, items, queue := keyOf, less, map[], [];
    }

    ghost predicate Valid()
      reads this
    {
      WeakOrder(less) && Linked(queue, items) && Ordered(Values(queue, items), less)
    }

    predicate LessAt(i: int, j: int)
      requires 0 <= i < |queue| && 0 <= j < |queue| && queue[i] in items && queue[j] in items
      reads this
    {
      less(items[queue[i]].obj, items[queue[j]].obj)
    }

    method Swap(i: int, j: int)
      requires Linked(queue, items) && 0 <= i < |queue| && 0 <= j < |queue|
      modifies this
      ensures Linked(queue, items) && Values(queue, items) == Swapped(old(Values(queue, items)), i, j)
      ensures queue == Swapped(old(queue), i, j) && Objects(items) == old(Objects(items))
    {
      ExchangeLinks(queue, items, i, j);
      var a, b := queue[i], queue[j];
      queue := queue[i := b][j := a];
      items := items[b := items[b].(index := i)];
      items := items[a := items[a].(index := j)];
    }

    /** container/heap up, from among the first `n` elements. */
    method Up(from: int, n: int)
      requires WeakOrder(less) && Linked(queue, items) && 0 <= from < n <= |queue|
      requires OrderedBelow(Values(queue, items)[..n], less, from)
      modifies this
      ensures Linked(queue, items) && Objects(items) == old(Objects(items))
      ensures |queue| == |old(queue)| && queue[n..] == old(queue)[n..]
      ensures Ordered(Values(queue, items)[..n], less)
    {
      var j := from;
      while j > 0 && LessAt(j, Parent(j))
        invariant 0 <= j < n <= |queue| == |old(queue)| && queue[n..] == old(queue)[n..]
        invariant Linked(queue, items) && Objects(items) == old(Objects(items))
        invariant OrderedBelow(Values(queue, items)[..n], less, j)
        decreases j
      {
        UpStep(Values(queue, items)[..n], less, j);
        SwapPrefix(Values(queue, items), n, Parent(j), j);
        SwapPrefix(queue, n, Parent(j), j);
        Swap(Parent(j), j);
        j := Parent(j);
      }
      Settled(Values(queue, items)[..n], less, j);
    }

    /** container/heap down, on the first `n` elements. */
    method Down(from: int, n: int) returns (moved: bool)
      requires WeakOrder(less) && Linked(queue, items) && 0 <= from < n <= |queue|
      requires OrderedBut(Values(queue, items)[..n], less, from)
      modifies this
      ensures Linked(queue, items) && Objects(items) == old(Objects(items))
      ensures |queue| == |old(queue)| && queue[n..] == old(queue)[n..]
      ensures if moved then Ordered(Values(queue, items)[..n], less) else OrderedBelow(Values(queue, items)[..n], less, from)
    {
      var i := from;
      while true
        invariant from <= i < n <= |queue| == |old(queue)| && queue[n..] == old(queue)[n..]
        invariant Linked(queue, items) && Objects(items) == old(Objects(items))
        invariant OrderedBut(Values(queue, items)[..n], less, i)
        invariant from < i ==> Edge(Values(queue, items)[..n], less, i)
        decreases n - i
      {
        var j := SmallerChild(i, n);
        if j < 0 || !LessAt(j, i) {
          Rested(Values(queue, items)[..n], less, i, j);
          break;
        }
        DownStep(Values(queue, items)[..n], less, i, j);
        SwapPrefix(Values(queue, items), n, i, j);
        SwapPrefix(queue, n, i, j);
        Swap(i, j);
        i := j;
      }
      moved := i > from;
    }

    /** The child that is compared with the element at `i`, or -1. */
    method SmallerChild(i: int, n: int) returns (j: int)
      requires WeakOrder(less) && Linked(queue, items) && 0 <= i <= n <= |queue|
      ensures j < 0 ==> forall c :: 0 < c < n ==> Parent(c) != i
      ensures 0 <= j ==> i < n && FirstChild(Values(queue, items)[..n], less, i, j)
    {
      j := 2 * i + 1;
      if j >= n {
        return -1;
      }
      if j + 1 < n && LessAt(j + 1, j) {
        j := j + 1;
      }
      OnlyChildren(i);
    }

    // ---------- container/heap ----------

    method Fix(i: int)
      requires WeakOrder(less) && Linked(queue, items) && 0 <= i < |queue| && OrderedBut(Values(queue, items), less, i)
      modifies this
      ensures Valid() && Objects(items) == old(Objects(items))
    {
      var n := |queue|;
      assert Values(queue, items)[..n] == Values(queue, items);
      var moved := Down(i, n);
      if !moved {
        Up(i, n);
      }
      assert Values(queue, items)[..n] == Values(queue, items);
    }

    method Push(key: string, obj: T)
      requires Valid() && key !in items
      modifies this
      ensures Valid() && Objects(items) == old(Objects(items))[key := obj]
    {
      var n := |queue|;
      Appended(Values(queue, items), less, obj);
      PushLinks(queue, items, key, obj);
      items := items[key := Item(obj, n)];
      queue := queue + [key];
      assert Values(queue, items)[..n + 1] == Values(queue, items);
      Up(n, n + 1);
      assert Values(queue, items)[..n + 1] == Values(queue, items);
    }

    /** Drops the last key. */
    method DropLast() returns (obj: T)
      requires WeakOrder(less) && Linked(queue, items) && queue != [] && Ordered(Values(queue, items)[..|queue| - 1], less)
      modifies this
      ensures Valid() && old(queue[|queue| - 1] in Objects(items)) && obj == old(Objects(items)[queue[|queue| - 1]])
      ensures Objects(items) == old(Objects(items)) - {old(queue[|queue| - 1])}
    {
      var n := |queue| - 1;
      var key := queue[n];
      obj := items[key].obj;
      ghost var v := Values(queue, items);
      queue := queue[..n];
      items := items - {key};
      assert Values(queue, items) == v[..n];
    }

    /** container/heap Pop. */
    method PopRoot() returns (obj: T)
      requires Valid() && queue != []
      modifies this
      ensures Valid() && old(queue[0] in Objects(items)) && obj == old(Objects(items)[queue[0]])
      ensures Objects(items) == old(Objects(items)) - {old(queue[0])}
    {
      var n := |queue| - 1;
      ghost var v := Values(queue, items);
      Shorter(v, less);
      if n > 0 {
        ReplaceOne(v[..n], less, 0, v[n]);
      }
      Swap(0, n);
      if n > 0 {
        assert Values(queue, items)[..n] == v[..n][0 := v[n]];
        var moved := Down(0, n);
      }
      obj := DropLast();
    }

    /** Takes out the element at `i`. */
    method Remove(i: int) returns (obj: T)
      requires Valid() && 0 <= i < |queue|
      modifies this
      ensures Valid() && old(queue[i] in Objects(items)) && obj == old(Objects(items)[queue[i]])
      ensures Objects(items) == old(Objects(items)) - {old(queue[i])}
    {
      var n := |queue| - 1;
      ghost var v := Values(queue, items);
      Shorter(v, less);
      if n != i {
        ReplaceOne(v[..n], less, i, v[n]);
        Swap(i, n);
        assert Values(queue, items)[..n] == v[..n][i := v[n]];
        SiftAt(i, n);
      }
      obj := DropLast();
    }

    /** The sifting of Remove, which leaves the last element alone. */
    method SiftAt(i: int, n: int)
      requires WeakOrder(less) && Linked(queue, items) && 0 <= i < n == |queue| - 1
      requires OrderedBut(Values(queue, items)[..n], less, i)
      modifies this
      ensures Linked(queue, items) && |queue| == n + 1 && Objects(items) == old(Objects(items))
      ensures Ordered(Values(queue, items)[..n], less) && queue[n] == old(queue[n])
    {
      var moved := Down(i, n);
      if !moved {
        Up(i, n);
      }
    }

    // ---------- Heap ----------

    /** Add and Update: the object is stored under its key, replacing one that is there. */
    method Add(obj: T) returns (failed: bool)
      requires Valid()
      modifies this
      ensures Valid() && failed == keyOf(obj).None?
      ensures Objects(items) == if failed then old(Objects(items)) else old(Objects(items))[keyOf(obj).value := obj]
    {
      if keyOf(obj).None? {
        return true;
      }
      var key := keyOf(obj).value;
      if key in items {
        ReplaceObject(key, obj);
      } else {
        Push(key, obj);
      }
      return false;
    }

    method ReplaceObject(key: string, obj: T)
      requires Valid() && key in items
      modifies this
      ensures Valid() && Objects(items) == old(Objects(items))[key := obj]
    {
      var i := items[key].index;
      ghost var v := Values(queue, items);
      ReplaceOne(v, less, i, obj);
      items := items[key := items[key].(obj := obj)];
      assert Values(queue, items) == v[i := obj];
      Fix(i);
    }

    method AddIfNotPresent(obj: T) returns (failed: bool)
      requires Valid()
      modifies this
      ensures Valid() && failed == keyOf(obj).None?
      ensures Objects(items) ==
              if failed || keyOf(obj).value in old(Objects(items)) then old(Objects(items))
              else old(Objects(items))[keyOf(obj).value := obj]
    {
      if keyOf(obj).None? {
        return true;
      }
      if keyOf(obj).value !in items {
        Push(keyOf(obj).value, obj);
      }
      return false;
    }

    method Delete(obj: T) returns (failed: bool)
      requires Valid()
      modifies this
      ensures Valid() && failed == (keyOf(obj).None? || keyOf(obj).value !in old(Objects(items)))
      ensures Objects(items) == if failed then old(Objects(items)) else old(Objects(items)) - {keyOf(obj).value}
    {
      if keyOf(obj).None? || keyOf(obj).value !in items {
        return true;
      }
      var gone := Remove(items[keyOf(obj).value].index);
      return false;
    }

    /** No object that is held comes before this one. */
    ghost predicate Least(obj: T)
      reads this
    {
      obj in Objects(items).Values && forall k :: k in items ==> !less(items[k].obj, obj)
    }

    lemma RootIsLeast()
      requires Valid() && queue != []
      ensures queue[0] in items && Least(items[queue[0]].obj)
    {
      var v := Values(queue, items);
      assert v[0] == items[queue[0]].obj == Objects(items)[queue[0]];
      forall k | k in items ensures !less(items[k].obj, items[queue[0]].obj) {
        RootIsFirst(v, less, items[k].index);
      }
    }

    method Peek() returns (obj: Option<T>)
      requires Valid()
      ensures obj == None <==> items == map[]
      ensures obj.Some? ==> Least(obj.value)
    {
      if |queue| > 0 {
        RootIsLeast();
        return Some(items[queue[0]].obj);
      }
      return None;
    }

    /** Pop takes out an object that no other comes before. */
    method Pop() returns (obj: Option<T>)
      requires Valid()
      modifies this
      ensures Valid() && (obj == None <==> old(items) == map[])
      ensures obj.None? ==> items == old(items)
      ensures obj.Some? ==> old(Least(obj.value))
      ensures obj.Some? ==> exists k :: k in old(Objects(items)) && old(Objects(items))[k] == obj.value &&
                                        Objects(items) == old(Objects(items)) - {k}
    {
      if |queue| == 0 {
        return None;
      }
      RootIsLeast();
      ghost var k := queue[0];
      var x := PopRoot();
      assert old(Objects(items))[k] == x;
      return Some(x);
    }
  }

  lemma OnlyChildren(i: int)
    requires 0 <= i
    ensures forall c :: 0 < c && Parent(c) == i ==> c == 2 * i + 1 || c == 2 * i + 2
    ensures Parent(2 * i + 1) == i && Parent(2 * i + 2) == i
  {}

  /** Nothing is left to move down: no child, or the first one is not less. */
  lemma Rested<T(!new)>(v: seq<T>, less: (T, T) -> bool, i: int, j: int)
    requires WeakOrder(less) && 0 <= i < |v| && OrderedBut(v, less, i)
    requires if j < 0 then forall c :: 0 < c < |v| ==> Parent(c) != i else FirstChild(v, less, i, j) && !less(v[j], v[i])
    ensures OrderedBelow(v, less, i) && (0 < i && Edge(v, less, i) ==> Ordered(v, less))
  {
    forall k | 0 < k < |v| && k != i ensures Edge(v, less, k) {
      if Parent(k) == i {
        assert Transitive(less, v[i], v[j], v[k]);
      }
    }
  }

  /** Nothing is left to move up. */
  lemma Settled<T>(v: seq<T>, less: (T, T) -> bool, j: int)
    requires 0 <= j < |v| && OrderedBelow(v, less, j) && (j == 0 || !less(v[j], v[Parent(j)]))
    ensures Ordered(v, less)
  {
    forall i | 0 < i < |v| ensures Edge(v, less, i) {}
  }

  lemma SwapPrefix<T>(v: seq<T>, n: int, i: int, j: int)
    requires 0 <= i < n <= |v| && 0 <= j < n
    ensures Swapped(v, i, j)[..n] == Swapped(v[..n], i, j) && Swapped(v, i, j)[n..] == v[n..]
  {}
}
