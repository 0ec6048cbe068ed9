/** Resource amounts and finite sums.
    An amount maps resource names to integers; a missing resource counts as 0. */
module Amounts {

  datatype Option<+T> = None | Some(value: T)

  type Amount = map<string, int>

  function At(a: Amount, k: string): int {
    if k in a then a[k] else 0
  }

  predicate NonNegative(a: Amount) {
    forall k :: k in a ==> 0 <= a[k]
  }

  function Max(x: int, y: int): int {
    if x < y then y else x
  }

  function Min(x: int, y: int): int {
    if x < y then x else y
  }

  function Plus(a: Amount, b: Amount): Amount {
    map k | k in a.Keys + b.Keys :: At(a, k) + At(b, k)
  }

  function Minus(a: Amount, b: Amount): Amount {
    map k | k in a.Keys + b.Keys :: At(a, k) - At(b, k)
  }

  /** pkg/utils/util.go UpdateUsage: one pass over the resources of `b`. */
  method UpdateUsage(a: Amount, b: Amount, m: int) returns (r: Amount)
    ensures r == map k | k in a.Keys + b.Keys :: At(a, k) + At(b, k) * m
  {
    r := a;
    var todo := b.Keys;
    while todo != {}
      invariant todo <= b.Keys
      invariant r.Keys == a.Keys + (b.Keys - todo)
      invariant forall k :: k in r ==> r[k] == if k in b.Keys - todo then At(a, k) + At(b, k) * m else At(a, k)
    {
      var k :| k in todo;
      r := r[k := if k in r then r[k] + b[k] * m else b[k] * m];
      todo := todo - {k};
    }
  }

  /** Resource.Zero: no resource of the amount differs from 0. */
  predicate IsZero(a: Amount) {
    forall k :: k in a ==> a[k] == 0
  }

  /** Resource.AddResource: an all-zero argument adds no keys. */
  function AddResource(a: Amount, b: Amount): Amount {
    if IsZero(b) then a else Plus(a, b)
  }

  function Scale(a: Amount, f: int): Amount {
    map k | k in a :: a[k] * f
  }

  /** Resource max: the left amount, raised to the right one where that is larger. */
  function MaxAmount(l: Amount, r: Amount): Amount {
    map k | k in l.Keys + r.Keys && (k in l || 0 < r[k]) :: Max(At(l, k), At(r, k))
  }

  /** preempt.go IsResLargeThan: `a` covers every resource of `b`. */
  predicate Covers(a: Amount, b: Amount) {
    forall k :: k in b ==> b[k] <= At(a, k)
  }

  lemma CoversIff(a: Amount, b: Amount)
    requires NonNegative(a)
    ensures Covers(a, b) <==> forall k :: At(b, k) <= At(a, k)
  {
    if Covers(a, b) {
      forall k ensures At(b, k) <= At(a, k) {
        assert k in b ==> b[k] <= At(a, k);
      }
    }
    if forall k :: At(b, k) <= At(a, k) {
      forall k | k in b ensures b[k] <= At(a, k) {
        assert At(b, k) <= At(a, k);
      }
    }
  }

  lemma PlusAt(a: Amount, b: Amount, k: string)
    ensures At(Plus(a, b), k) == At(a, k) + At(b, k)
  {}

  lemma ScaleAt(a: Amount, f: int, k: string)
    ensures At(Scale(a, f), k) == f * At(a, k)
  {}

  lemma AddResourceAt(a: Amount, b: Amount, k: string)
    ensures At(AddResource(a, b), k) == At(a, k) + At(b, k)
  {}

  // ---------- Finite sums ----------

  /** The sum of `f` over the finite set `s`. */
  ghost function Sum<K(!new)>(s: set<K>, f: map<K, int>): int
    requires s <= f.Keys
  {
    if s == {} then 0
    else
      var k :| k in s;
      f[k] + Sum(s - {k}, f)
  }

  lemma {:induction false} SumRemove<K(!new)>(s: set<K>, f: map<K, int>, k: K)
    requires s <= f.Keys && k in s
    ensures Sum(s, f) == f[k] + Sum(s - {k}, f)
  {
    var j :| j in s && Sum(s, f) == f[j] + Sum(s - {j}, f);
    if j != k {
      SumRemove(s - {j}, f, k);
      SumRemove(s - {k}, f, j);
      assert s - {j} - {k} == s - {k} - {j};
    }
  }

  lemma SumInsert<K(!new)>(s: set<K>, f: map<K, int>, k: K)
    requires s <= f.Keys && k in f && k !in s
    ensures Sum(s + {k}, f) == f[k] + Sum(s, f)
  {
    SumRemove(s + {k}, f, k);
    assert s + {k} - {k} == s;
  }

  lemma {:induction false} SumDisjoint<K(!new)>(s: set<K>, t: set<K>, f: map<K, int>)
    requires s + t <= f.Keys && s !! t
    ensures Sum(s + t, f) == Sum(s, f) + Sum(t, f)
    decreases t
  {
    if t == {} {
      assert s + t == s;
    } else {
      var k :| k in t;
      SumDisjoint(s, t - {k}, f);
      SumRemove(t, f, k);
      SumInsert(s + (t - {k}), f, k);
      assert s + (t - {k}) + {k} == s + t;
    }
  }

  lemma {:induction false} SumAgrees<K(!new)>(s: set<K>, f: map<K, int>, g: map<K, int>)
    requires s <= f.Keys && s <= g.Keys
    requires forall k :: k in s ==> f[k] == g[k]
    ensures Sum(s, f) == Sum(s, g)
  {
    if s != {} {
      var k :| k in s;
      SumAgrees(s - {k}, f, g);
      SumRemove(s, f, k);
      SumRemove(s, g, k);
    }
  }

  lemma {:induction false} SumNonNegative<K(!new)>(s: set<K>, f: map<K, int>)
    requires s <= f.Keys && forall k :: k in s ==> 0 <= f[k]
    ensures 0 <= Sum(s, f)
  {
    if s != {} {
      var k :| k in s;
      SumNonNegative(s - {k}, f);
      SumRemove(s, f, k);
    }
  }

  lemma {:induction false} SumDifference<K(!new)>(s: set<K>, f: map<K, int>, g: map<K, int>, h: map<K, int>)
    requires s <= f.Keys && s <= g.Keys && s <= h.Keys && forall k :: k in s ==> h[k] == f[k] - g[k]
    ensures Sum(s, h) == Sum(s, f) - Sum(s, g)
  {
    if s != {} {
      var k :| k in s;
      SumDifference(s - {k}, f, g, h);
      SumRemove(s, f, k);
      SumRemove(s, g, k);
      SumRemove(s, h, k);
    }
  }

  /** Smaller terms have a smaller sum, and the same one only when no term is smaller. */
  lemma {:induction false} SumBelow<K(!new)>(s: set<K>, f: map<K, int>, g: map<K, int>)
    requires s <= f.Keys && s <= g.Keys && forall k :: k in s ==> f[k] <= g[k]
    ensures Sum(s, f) <= Sum(s, g)
    ensures Sum(s, f) == Sum(s, g) <==> forall k :: k in s ==> f[k] == g[k]
  {
    if s != {} {
      var k :| k in s;
      SumBelow(s - {k}, f, g);
      SumRemove(s, f, k);
      SumRemove(s, g, k);
    }
  }

  /** The indices of a list of `n` entries. */
  function Indices(n: nat): (s: set<int>)
    ensures forall i :: i in s <==> 0 <= i < n
  {
    if n == 0 then {} else Indices(n - 1) + {n - 1}
  }

  /** The sum over one more index. */
  lemma SumLast(n: nat, f: map<int, int>, g: map<int, int>)
    requires f.Keys == Indices(n) && g.Keys == Indices(n + 1) && forall i :: 0 <= i < n ==> f[i] == g[i]
    ensures Sum(Indices(n + 1), g) == Sum(Indices(n), f) + g[n]
  {
    assert Indices(n + 1) == Indices(n) + {n};
    SumInsert(Indices(n), g, n);
    SumAgrees(Indices(n), f, g);
  }

  lemma {:induction false} SubsetSize<T>(a: set<T>, b: set<T>)
    requires a <= b
    ensures |a| <= |b|
  {
    if a != {} {
      var x :| x in a;
      SubsetSize(a - {x}, b - {x});
    }
  }

  lemma {:induction false} SubsetEqual<T>(a: set<T>, b: set<T>)
    requires a <= b && |a| == |b|
    ensures a == b
  {
    if x :| x in b && x !in a {
      SubsetSize(a, b - {x});
    }
  }
}
