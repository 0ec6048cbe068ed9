/** The exponential backoff of requeued units. Delays are ticks; the random jitter is a
    parameter of at most a tenth of the delay. */
module Backoff {
  import opened Amounts
  import opened Conditions
  import opened ExecutionClock

  const DEFAULT_BASE := 10 * SECOND
  const MAX_DELAY := 15 * 60 * SECOND

  function Pow2(n: nat): nat {
    if n == 0 then 1 else 2 * Pow2(n - 1)
  }

  function BaseOf(base: int): int {
    if base <= 0 then DEFAULT_BASE else base
  }

  /** The delay before jitter: doubled with each attempt after the first, and capped. */
  function Delay(base: int, attempt: int): int {
    Min(MAX_DELAY, BaseOf(base) * Pow2(Max(0, attempt - 1)))
  }

  lemma {:induction false} DoublingGrows(b: int, n: nat, m: nat)
    requires 0 < b && n <= m
    ensures b * Pow2(n) <= b * Pow2(m)
    decreases m
  {
    if n < m {
      DoublingGrows(b, n, m - 1);
      assert b * Pow2(m) == 2 * (b * Pow2(m - 1));
    }
  }

  lemma DelayPositive(base: int, attempt: int)
    ensures 0 < Delay(base, attempt) <= MAX_DELAY
  {
    DoublingGrows(BaseOf(base), 0, Max(0, attempt - 1));
    assert BaseOf(base) * Pow2(0) == BaseOf(base);
  }

  /** A later attempt never waits less, before jitter. */
  lemma DelayMonotone(base: int, a: int, b: int)
    requires a <= b
    ensures Delay(base, a) <= Delay(base, b)
  {
    DoublingGrows(BaseOf(base), Max(0, a - 1), Max(0, b - 1));
  }

  // ---------- 64-bit durations ----------

  const TWO_62 := 0x4000_0000_0000_0000
  const TWO_64 := 4 * TWO_62

  /** Two's complement. */
  function Wrap(x: int): int {
    if x % TWO_64 < 2 * TWO_62 then x % TWO_64 else x % TWO_64 - TWO_64
  }

  /** The loop, with `left` doublings to go. */
  function Doubled(delay: int, left: nat): int
    decreases left
  {
    if left == 0 then delay
    else
      var d := Wrap(2 * delay);
      if MAX_DELAY <= d then d else Doubled(d, left - 1)
  }

  function Capped(base: int, attempt: int): int {
    Min(MAX_DELAY, Doubled(BaseOf(base), Max(0, attempt - 1)))
  }

  /** At most a tenth of the delay, which is negative after an overflow. */
  predicate Jitter(base: int, attempt: int, jitter: int) {
    var w := Capped(base, attempt);
    -Max(w, -w) <= 10 * jitter <= Max(w, -w)
  }

  /** The jitter of a delay is anything from minus to plus a tenth of it. */
  lemma JitterIff(base: int, attempt: int, jitter: int)
    ensures Jitter(base, attempt, jitter) <==> Jitter(base, attempt, -jitter)
    ensures 0 <= jitter && 0 <= Capped(base, attempt) ==> (Jitter(base, attempt, jitter) <==> 10 * jitter <= Capped(base, attempt))
    ensures 0 <= jitter && Capped(base, attempt) < 0 ==> (Jitter(base, attempt, jitter) <==> 10 * jitter <= -Capped(base, attempt))
  {
  }

  function Wait(base: int, attempt: int, jitter: int): int {
    var delay := Capped(base, attempt) + jitter;
    if delay <= 0 then BaseOf(base) else delay
  }

  lemma {:induction false} DoublesExactly(b: int, n: nat)
    requires 0 < b < TWO_62
    ensures Min(MAX_DELAY, Doubled(b, n)) == Min(MAX_DELAY, b * Pow2(n))
    decreases n
  {
    if n == 0 {
      assert b * Pow2(0) == b;
    } else {
      assert Wrap(2 * b) == 2 * b;
      assert b * Pow2(n) == 2 * b * Pow2(n - 1);
      if MAX_DELAY <= 2 * b {
        DoublingGrows(2 * b, 0, n - 1);
        assert 2 * b * Pow2(0) == 2 * b;
      } else {
        DoublesExactly(2 * b, n - 1);
      }
    }
  }

  /** Without an overflow the wait is the capped, doubled base, within a tenth. */
  lemma WaitIsBounded(base: int, attempt: int, jitter: int)
    requires base < TWO_62 && Jitter(base, attempt, jitter)
    ensures Capped(base, attempt) == Delay(base, attempt)
    ensures Wait(base, attempt, jitter) == Delay(base, attempt) + jitter
    ensures 0 < 9 * Delay(base, attempt) <= 10 * Wait(base, attempt, jitter) <= 11 * Delay(base, attempt) <= 11 * MAX_DELAY
  {
    DoublesExactly(BaseOf(base), Max(0, attempt - 1));
    DelayPositive(base, attempt);
  }

  /** The cap holds exactly as long as the doubled base has not become negative or zero;
      if it has, the unit waits for the base, and that is beyond the cap. */
  lemma CapIff(base: int, attempt: int, jitter: int)
    requires base < 2 * TWO_62 && Jitter(base, attempt, jitter)
    ensures 10 * Wait(base, attempt, jitter) <= 11 * MAX_DELAY <==> 0 < Capped(base, attempt)
    ensures 0 >= Capped(base, attempt) ==> Wait(base, attempt, jitter) == base && TWO_62 <= base
  {
    if base < TWO_62 {
      WaitIsBounded(base, attempt, jitter);
    }
  }

  /** The second attempt with such a base waits for the base, more than 146 years. */
  lemma OverflowWaitsForBase(base: int, jitter: int)
    requires TWO_62 <= base < 2 * TWO_62 && Jitter(base, 2, jitter)
    ensures Wait(base, 2, jitter) == base
  {
    assert Wrap(2 * base) == 2 * base - TWO_64;
    assert Doubled(base, 1) == Wrap(2 * base);
  }

  method BackoffDelay(base: int, attempt: int, jitter: int) returns (delay: int)
    requires Jitter(base, attempt, jitter)
    ensures delay == Wait(base, attempt, jitter) && 0 < delay
  {
    var b := base;
    if b <= 0 {
      b := DEFAULT_BASE;
    }
    delay := b;
    var i := 1;
    while i < attempt
      invariant 1 <= i <= Max(1, attempt)
      invariant Doubled(b, Max(0, attempt - 1)) == Doubled(delay, Max(0, attempt - i))
    {
      delay := Wrap(2 * delay);
      if delay >= MAX_DELAY {
        break;
      }
      i := i + 1;
    }
    if delay > MAX_DELAY {
      delay := MAX_DELAY;
    }
    delay := delay + jitter;
    if delay <= 0 {
      delay := b;
    }
  }

  // ---------- The recorded state ----------

  datatype Event = Record(base: int, jitter: int, now: int) | Clear

  function Attempt(r: Option<Requeue>): int {
    if r.Some? then r.value.count + 1 else 1
  }

  /** RecordQueueUnitRequeueState and ClearQueueUnitRequeueState with the feature on. The due
      time is stored in whole seconds. */
  function Step(r: Option<Requeue>, e: Event): Option<Requeue> {
    match e
    case Record(base, jitter, now) =>
      Some(Requeue(Attempt(r), Stored(now + Wait(base, Attempt(r), jitter))))
    case Clear => None
  }

  method RecordQueueUnitRequeueState(r: Option<Requeue>, enabled: bool, base: int, jitter: int, now: int)
      returns (next: Option<Requeue>, delay: int)
    requires Jitter(base, Attempt(r), jitter)
    ensures next == if enabled then Step(r, Record(base, jitter, now)) else r
    ensures enabled ==> 0 < delay && next.value.at == Stored(now + delay)
    ensures !enabled ==> delay == 0
  {
    if !enabled {
      return r, 0;
    }
    var attempt := 1;
    if r.Some? {
      attempt := r.value.count + 1;
    }
    delay := BackoffDelay(base, attempt, jitter);
    next := Some(Requeue(attempt, Stored(now + delay)));
  }

  /** Elapsed exactly from the recorded time on, or after the flat time without a record;
      the remaining wait is exact. */
  method BackoffElapsed(r: Option<Requeue>, enabled: bool, flat: int, lastUpdate: int, now: int)
      returns (elapsed: bool, remaining: int)
    ensures var due := if enabled && r.Some? then r.value.at else lastUpdate + flat;
      elapsed == (due <= now) && remaining == if elapsed then 0 else due - now
  {
    if !enabled || r.None? {
      var waited := now - lastUpdate;
      if waited >= flat {
        return true, 0;
      }
      return false, flat - waited;
    }
    if now < r.value.at {
      return false, r.value.at - now;
    }
    return true, 0;
  }

  /** A recorded wait is over exactly from the whole second on in which it ends, so it is
      shorter than computed by the part of that second. */
  method RecordThenElapsed(r: Option<Requeue>, base: int, jitter: int, now: int, flat: int, lastUpdate: int, later: int)
      returns (elapsed: bool, remaining: int)
    requires Jitter(base, Attempt(r), jitter)
    ensures var end := now + Wait(base, Attempt(r), jitter);
      elapsed == (end - end % SECOND <= later) && remaining == if elapsed then 0 else end - end % SECOND - later
  {
    var next, delay := RecordQueueUnitRequeueState(r, true, base, jitter, now);
    elapsed, remaining := BackoffElapsed(next, true, flat, lastUpdate, later);
  }

  /** How long a recorded wait lasts. */
  function Lasts(base: int, attempt: int, jitter: int, now: int): int {
    Stored(now + Wait(base, attempt, jitter)) - now
  }

  /** It lasts nine tenths of the delay exactly if the part of the second fits beside what
      the jitter leaves of the tenth, and never eleven tenths of it. */
  lemma LowerTenthIff(base: int, attempt: int, jitter: int, now: int)
    requires base < TWO_62 && Jitter(base, attempt, jitter)
    ensures 9 * Delay(base, attempt) <= 10 * Lasts(base, attempt, jitter, now) <==>
            10 * ((now + Wait(base, attempt, jitter)) % SECOND) <= Delay(base, attempt) + 10 * jitter
    ensures 10 * Lasts(base, attempt, jitter, now) <= 11 * Delay(base, attempt)
  {
    WaitIsBounded(base, attempt, jitter);
  }

  /** For example: the first attempt with the default base, half a second past the full one
      and with the least jitter, waits for eight and a half of ten seconds. */
  lemma WaitsTooShort()
    ensures var jitter, now := -SECOND, SECOND / 2;
      && Jitter(0, 1, jitter) && Delay(0, 1) == 10 * SECOND
      && 2 * Lasts(0, 1, jitter, now) == 17 * SECOND && 10 * Lasts(0, 1, jitter, now) < 9 * Delay(0, 1)
  {
    assert Pow2(0) == 1;
    assert Delay(0, 1) == 10 * SECOND && Capped(0, 1) == 10 * SECOND;
  }

  function Run(r: Option<Requeue>, es: seq<Event>): Option<Requeue> {
    if es == [] then r else Step(Run(r, es[..|es| - 1]), es[|es| - 1])
  }

  /** Records since the last clear. */
  function SinceClear(es: seq<Event>): nat {
    if es == [] || es[|es| - 1].Clear? then 0 else 1 + SinceClear(es[..|es| - 1])
  }

  /** The count is the number of records since the last clear, and there is a record
      exactly if that is not zero. */
  lemma {:induction false} CountsSinceClear(es: seq<Event>)
    ensures Run(None, es).Some? <==> SinceClear(es) > 0
    ensures Run(None, es).Some? ==> Run(None, es).value.count == SinceClear(es)
  {
    if es != [] {
      CountsSinceClear(es[..|es| - 1]);
    }
  }
}
