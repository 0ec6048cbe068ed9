/** Counting the failed indexes of an indexed job from their printed form, such as
    "1,3-5,7", and the pod count that follows from it. */
module FailedIndexes {
  import opened Amounts

  const MAX_INT := 0x7fff_ffff_ffff_ffff

  // ---------- strings.Split, strings.Cut and strconv.Atoi ----------

  function Split(s: string, c: char): (parts: seq<string>)
    ensures parts != []
  {
    if s == [] then [""]
    else
      var rest := Split(s[1..], c);
      if s[0] == c then [""] + rest else [[s[0]] + rest[0]] + rest[1..]
  }

  function Join(parts: seq<string>, c: char): string {
    if parts == [] then "" else if |parts| == 1 then parts[0] else parts[0] + [c] + Join(parts[1..], c)
  }

  /** The first `c` splits the string; without one the second part is empty. */
  function Cut(s: string, c: char): (string, string, bool) {
    if s == [] then ("", "", false)
    else if s[0] == c then ("", s[1..], true)
    else var (a, b, found) := Cut(s[1..], c); ([s[0]] + a, b, found)
  }

  predicate IsDigit(c: char) {
    '0' <= c <= '9'
  }

  predicate AllDigits(s: string) {
    forall i :: 0 <= i < |s| ==> IsDigit(s[i])
  }

  function Value(s: string): nat
    requires AllDigits(s)
  {
    if s == [] then 0 else 10 * Value(s[..|s| - 1]) + (s[|s| - 1] - '0') as int
  }

  /** An optional sign and digits, within 64 bits. */
  function Atoi(s: string): Option<int> {
    var signed := s != [] && s[0] in {'+', '-'};
    var digits := if signed then s[1..] else s;
    if digits == [] || !AllDigits(digits) then None
    else
      var n: int := Value(digits);
      var v := if signed && s[0] == '-' then -n else n;
      if -MAX_INT - 1 <= v <= MAX_INT then Some(v) else None
  }

  /** A plus changes nothing and a minus the sign; the least number has no opposite. */
  lemma AtoiSigns(digits: string)
    requires digits != [] && AllDigits(digits)
    ensures Atoi("+" + digits) == Atoi(digits) == if Value(digits) <= MAX_INT then Some(Value(digits)) else None
    ensures var n: int := Value(digits);
      Atoi("-" + digits) == if n <= MAX_INT + 1 then Some(-n) else None
    ensures Atoi("+") == Atoi("-") == Atoi("") == None
  {
    assert ("+" + digits)[1..] == digits && ("-" + digits)[1..] == digits;
    assert digits[0] !in {'+', '-'};
  }

  // ---------- What a string denotes ----------

  /** First and last index of an interval. */
  function Interval(s: string): Option<(int, int)> {
    var (first, last, isRange) := Cut(s, '-');
    match (Atoi(first), if isRange then Atoi(last) else Atoi(first))
    case (Some(a), Some(b)) => Some((a, b))
    case _ => None
  }

  function Range(a: int, b: int): (r: set<int>)
    ensures forall i :: i in r <==> a <= i <= b
    decreases b - a
  {
    if b < a then {} else Range(a, b - 1) + {b}
  }

  type Parsed = Option<(int, int)>

  function Parse(parts: seq<string>): seq<Parsed> {
    seq(|parts|, i requires 0 <= i < |parts| => Interval(parts[i]))
  }

  /** The indexes that well-formed intervals stand for. */
  function Denoted(ps: seq<Parsed>): set<int> {
    if ps == [] then {}
    else
      var rest, x := Denoted(ps[..|ps| - 1]), ps[|ps| - 1];
      if x.Some? then rest + Range(x.value.0, x.value.1) else rest
  }

  /** The last index of the intervals, -1 without any. */
  function LastEnd(ps: seq<Parsed>): int {
    if ps == [] || ps[|ps| - 1].None? then -1 else ps[|ps| - 1].value.1
  }

  /** Every interval is well formed, in range and behind the one before. */
  predicate Accepted(ps: seq<Parsed>, completions: int) {
    ps == [] ||
    var rest, x := ps[..|ps| - 1], ps[|ps| - 1];
    Accepted(rest, completions) && x.Some? && LastEnd(rest) < x.value.0 <= x.value.1 < completions
  }

  lemma {:induction false} RangeSize(a: int, b: int)
    requires a <= b + 1
    ensures |Range(a, b)| == b - a + 1
    decreases b - a + 1
  {
    if a <= b {
      RangeSize(a, b - 1);
    }
  }

  lemma {:induction false} DenotedWithin(ps: seq<Parsed>, completions: int)
    requires Accepted(ps, completions)
    ensures forall i :: i in Denoted(ps) ==> 0 <= i < completions && i <= LastEnd(ps)
    ensures -1 <= LastEnd(ps)
  {
    if ps != [] {
      DenotedWithin(ps[..|ps| - 1], completions);
    }
  }

  lemma DenotedMore(ps: seq<Parsed>, completions: int)
    requires ps != [] && Accepted(ps, completions)
    ensures var x := ps[|ps| - 1].value; |Denoted(ps)| == |Denoted(ps[..|ps| - 1])| + x.1 - x.0 + 1
  {
    var rest, x := ps[..|ps| - 1], ps[|ps| - 1].value;
    DenotedWithin(rest, completions);
    RangeSize(x.0, x.1);
    assert Denoted(rest) !! Range(x.0, x.1);
  }

  /** The lengths of the intervals together. */
  function Size(ps: seq<Parsed>): int {
    if ps == [] then 0
    else Size(ps[..|ps| - 1]) + if ps[|ps| - 1].Some? then ps[|ps| - 1].value.1 - ps[|ps| - 1].value.0 + 1 else 0
  }

  lemma {:induction false} DenotedSize(ps: seq<Parsed>, completions: int)
    requires Accepted(ps, completions)
    ensures |Denoted(ps)| == Size(ps)
  {
    if ps != [] {
      DenotedSize(ps[..|ps| - 1], completions);
      DenotedMore(ps, completions);
    }
  }

  function ParseAll(indexes: string): seq<Parsed> {
    if indexes == "" then [] else Parse(Split(indexes, ','))
  }

  lemma {:induction false} AcceptedPrefix(ps: seq<Parsed>, completions: int, n: nat)
    requires n <= |ps| && Accepted(ps, completions)
    ensures Accepted(ps[..n], completions)
    decreases |ps| - n
  {
    if n < |ps| {
      AcceptedPrefix(ps, completions, n + 1);
      assert ps[..n + 1][..n] == ps[..n];
    } else {
      assert ps[..n] == ps;
    }
  }

  /** The part of the loop body that reads one interval. */
  method ReadInterval(interval: string) returns (x: Parsed)
    ensures x == Interval(interval)
  {
    var (first, last, isRange) := Cut(interval, '-');
    var start := Atoi(first);
    if start.None? {
      return None;
    }
    var end := start;
    if isRange {
      end := Atoi(last);
    }
    if end.None? {
      return None;
    }
    x := Some((start.value, end.value));
  }

  /** The count is the number of denoted indexes, all of them below the completions. */
  method CountFailedIndexes(indexes: string, completions: int) returns (count: Option<int>)
    ensures count.Some? <==> Accepted(ParseAll(indexes), completions)
    ensures count.Some? ==> count.value == |Denoted(ParseAll(indexes))|
    ensures count.Some? ==> forall i :: i in Denoted(ParseAll(indexes)) ==> 0 <= i < completions
  {
    if indexes == "" {
      return Some(0);
    }
    var n, previousEnd := 0, -1;
    var parts := Split(indexes, ',');
    ghost var ps := Parse(parts);
    for i := 0 to |parts|
      invariant Accepted(ps[..i], completions)
      invariant n == Size(ps[..i]) && previousEnd == LastEnd(ps[..i])
    {
      assert ps[..i + 1][..i] == ps[..i];
      var x := ReadInterval(parts[i]);
      assert x == ps[i];
      if x.None? || x.value.0 <= previousEnd || x.value.1 < x.value.0 || x.value.1 >= completions {
        Rejected(ps, completions, i);
        return None;
      }
      n := n + x.value.1 - x.value.0 + 1;
      previousEnd := x.value.1;
    }
    assert ps[..|parts|] == ps;
    DenotedSize(ps, completions);
    DenotedWithin(ps, completions);
    count := Some(n);
  }

  lemma Rejected(ps: seq<Parsed>, completions: int, i: nat)
    requires i < |ps| && !Accepted(ps[..i + 1], completions)
    ensures !Accepted(ps, completions)
  {
    if Accepted(ps, completions) {
      AcceptedPrefix(ps, completions, i + 1);
    }
  }

  /** How many indexes have failed for good; an unreadable string counts as none. */
  function FailedCount(indexed: bool, indexes: Option<string>, completions: int): nat {
    if indexed && indexes.Some? && Accepted(ParseAll(indexes.value), completions) then |Denoted(ParseAll(indexes.value))| else 0
  }

  method CountFailed(indexed: bool, indexes: Option<string>, completions: int) returns (failed: int)
    ensures failed == FailedCount(indexed, indexes, completions)
  {
    failed := 0;
    if indexed && indexes.Some? {
      var count := CountFailedIndexes(indexes.value, completions);
      if count.Some? {
        failed := count.value;
      }
    }
  }

  /** The pod count of PodSet; None stands for an unset field. */
  method PodSetCount(parallelism: Option<int>, completions: Option<int>, succeeded: int, indexed: bool,
                     failedIndexes: Option<string>) returns (count: int)
    ensures var p := if parallelism.Some? then parallelism.value else 1;
      var c := if completions.Some? then completions.value else p;
      && count == Min(p, Max(0, c - succeeded - FailedCount(indexed, failedIndexes, c)))
      && (0 <= p ==> 0 <= count <= p)
  {
    var p := if parallelism.Some? then parallelism.value else 1;
    var c := if completions.Some? then completions.value else p;
    var failed := CountFailed(indexed, failedIndexes, c);
    var remaining := c - succeeded - failed;
    count := Min(p, Max(0, remaining));
  }

  // ---------- Printing and parsing ----------

  function Decimal(n: nat): string {
    var digit := ('0' as int + n % 10) as char;
    if n < 10 then [digit] else Decimal(n / 10) + [digit]
  }

  function Show(x: (nat, nat)): string {
    if x.0 == x.1 then Decimal(x.0) else Decimal(x.0) + "-" + Decimal(x.1)
  }

  function ShowAll(xs: seq<(nat, nat)>): seq<string> {
    seq(|xs|, i requires 0 <= i < |xs| => Show(xs[i]))
  }

  function Print(xs: seq<(nat, nat)>): string {
    Join(ShowAll(xs), ',')
  }

  /** Ascending and disjoint, below the completions. */
  predicate Ascending(xs: seq<(nat, nat)>, completions: int) {
    && (forall i :: 0 <= i < |xs| ==> xs[i].0 <= xs[i].1 < completions)
    && (forall i :: 0 < i < |xs| ==> xs[i - 1].1 < xs[i].0)
  }

  lemma {:induction false} DecimalValue(n: nat)
    ensures Decimal(n) != [] && AllDigits(Decimal(n)) && Value(Decimal(n)) == n
  {
    var digit := ('0' as int + n % 10) as char;
    if n >= 10 {
      DecimalValue(n / 10);
      assert Decimal(n)[..|Decimal(n)| - 1] == Decimal(n / 10);
    } else {
      assert [digit][..0] == [];
    }
  }

  lemma AtoiDecimal(n: nat)
    requires n <= MAX_INT
    ensures Atoi(Decimal(n)) == Some(n)
  {
    DecimalValue(n);
    assert IsDigit(Decimal(n)[0]);
  }

  lemma {:induction false} CutAt(a: string, b: string, c: char)
    requires c !in a
    ensures Cut(a + [c] + b, c) == (a, b, true)
    ensures Cut(a, c) == (a, "", false)
  {
    var s := a + [c] + b;
    if a == [] {
      assert s[0] == c && s[1..] == b;
    } else {
      assert s[0] == a[0] && s[1..] == a[1..] + [c] + b && a == [a[0]] + a[1..];
      CutAt(a[1..], b, c);
    }
  }

  lemma IntervalShow(x: (nat, nat))
    requires x.0 <= MAX_INT && x.1 <= MAX_INT
    ensures Interval(Show(x)) == Some((x.0 as int, x.1 as int)) && ',' !in Show(x)
  {
    AtoiDecimal(x.0);
    AtoiDecimal(x.1);
    DecimalValue(x.0);
    DecimalValue(x.1);
    assert '-' !in Decimal(x.0);
    CutAt(Decimal(x.0), Decimal(x.1), '-');
  }

  lemma {:induction false} SplitJoin(parts: seq<string>, c: char)
    requires parts != [] && forall i :: 0 <= i < |parts| ==> c !in parts[i]
    ensures Split(Join(parts, c), c) == parts
  {
    var rest := parts[1..];
    if rest == [] {
      SplitNone(parts[0], c);
    } else {
      SplitJoin(rest, c);
      SplitFirst(parts[0], Join(rest, c), c);
      assert parts[0] + [c] + Join(rest, c) == Join(parts, c);
    }
  }

  lemma {:induction false} SplitNone(s: string, c: char)
    requires c !in s
    ensures Split(s, c) == [s]
  {
    if s != [] {
      SplitNone(s[1..], c);
      assert s == [s[0]] + s[1..];
    }
  }

  lemma {:induction false} SplitFirst(a: string, b: string, c: char)
    requires c !in a
    ensures Split(a + [c] + b, c) == [a] + Split(b, c)
  {
    var s := a + [c] + b;
    if a == [] {
      assert s[1..] == b;
    } else {
      assert s[0] == a[0] && s[1..] == a[1..] + [c] + b && a == [a[0]] + a[1..];
      SplitFirst(a[1..], b, c);
    }
  }

  function Intervals(xs: seq<(nat, nat)>): seq<Parsed> {
    seq(|xs|, i requires 0 <= i < |xs| => Some((xs[i].0 as int, xs[i].1 as int)))
  }

  /** Parsing what was printed gives the intervals back. */
  lemma ParsePrint(xs: seq<(nat, nat)>)
    requires forall i :: 0 <= i < |xs| ==> xs[i].0 <= MAX_INT && xs[i].1 <= MAX_INT
    ensures ParseAll(Print(xs)) == Intervals(xs)
  {
    if xs != [] {
      var parts := ShowAll(xs);
      forall i | 0 <= i < |xs| ensures ',' !in parts[i] && Interval(parts[i]) == Intervals(xs)[i] {
        IntervalShow(xs[i]);
      }
      SplitJoin(parts, ',');
      DecimalValue(xs[0].0);
      assert Print(xs) != "";
      assert Parse(parts) == Intervals(xs);
    }
  }

  lemma {:induction false} AscendingAccepted(xs: seq<(nat, nat)>, completions: int)
    requires Ascending(xs, completions)
    ensures Accepted(Intervals(xs), completions)
    ensures LastEnd(Intervals(xs)) == if xs == [] then -1 else xs[|xs| - 1].1
  {
    if xs != [] {
      var n := |xs| - 1;
      AscendingAccepted(xs[..n], completions);
      assert Intervals(xs)[..n] == Intervals(xs[..n]);
      assert n > 0 ==> xs[..n][n - 1] == xs[n - 1];
    }
  }

  /** What is printed of an ascending list of intervals is accepted, and as many indexes
      are counted as the intervals have. */
  lemma PrintedIsCounted(xs: seq<(nat, nat)>, completions: int)
    requires Ascending(xs, completions) && completions <= MAX_INT
    ensures Accepted(ParseAll(Print(xs)), completions) && |Denoted(ParseAll(Print(xs)))| == Size(Intervals(xs))
  {
    ParsePrint(xs);
    AscendingAccepted(xs, completions);
    DenotedSize(Intervals(xs), completions);
  }
}
