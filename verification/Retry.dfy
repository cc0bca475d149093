/** retry/retry.go: retry strategies and the loop that follows one. */
module Retries {

  const MAX_DURATION := 0x7FFF_FFFF_FFFF_FFFF

  // A time.Duration, an int64 number of nanoseconds.
  type Duration = d: int | -0x8000_0000_0000_0000 <= d <= MAX_DURATION

  datatype Strategy =
    | Limit(limit: nat)
    | Exponential(min: Duration, max: Duration)
    | Sequential(every: Duration)
    | Combined(first: Strategy, others: seq<Strategy>)

  // What a strategy says of the count-th retry.
  datatype Advice = Advice(sleep: Duration, stop: bool)

  function Power2(n: nat): nat {
    if n == 0 then 1 else 2 * Power2(n - 1)
  }

  lemma {:induction false} Power2Positive(n: nat)
    ensures Power2(n) > 0
  {
    if n > 0 { Power2Positive(n - 1); }
  }

  function Least(a: int, b: int): int {
    if a < b then a else b
  }

  // The exact backoff, in unbounded arithmetic: min doubled for each retry after the first, up
  // to max; a min of zero or less is not doubled.
  function Backoff(min: int, max: int, count: nat): int {
    if min <= 0 || count <= 1 then Least(min, max) else Least(min * Power2(count - 1), max)
  }

  // The first sleep is min and each one after is twice the last, up to max; a min or a max of zero
  // or less stays.
  lemma BackoffDoubles(min: int, max: int, count: nat)
    requires count >= 1
    ensures Backoff(min, max, 1) == if min < max then min else max
    ensures Backoff(min, max, count + 1)
              == if min <= 0 then Backoff(min, max, 1)
                 else if 0 < Backoff(min, max, count) && 2 * Backoff(min, max, count) < max
                 then 2 * Backoff(min, max, count) else max
  {
    Power2Positive(count - 1);
    assert Power2(count) == 2 * Power2(count - 1);
    if min > 0 {
      BackoffStep(min, max, count);
      assert min * Power2(count - 1) > 0;
      assert Power2(0) == 1;
    }
  }

  lemma {:induction false} Power2Grows(k: nat, n: nat)
    requires k <= n
    ensures Power2(k) <= Power2(n)
  {
    Power2Positive(n);
    if k < n {
      Power2Grows(k, n - 1);
      Power2Positive(n - 1);
    }
  }

  lemma BackoffReached(min: int, max: int, k: nat, count: nat)
    requires min > 0 && 1 <= k <= count && min * Power2(k - 1) >= max
    ensures Backoff(min, max, count) == max
  {
    Power2Grows(k - 1, count - 1);
    assert min * (Power2(count - 1) - Power2(k - 1)) >= 0;
    assert min * Power2(count - 1) >= min * Power2(k - 1) by {
      assert min * (Power2(count - 1) - Power2(k - 1)) == min * Power2(count - 1) - min * Power2(k - 1);
    }
  }

  // A step of the doubling loop: past half of max, doubling reaches it.
  lemma BackoffStep(min: int, max: int, i: nat)
    requires min > 0 && i >= 1
    ensures min * Power2(i) == 2 * (min * Power2(i - 1))
  {
    assert min * (2 * Power2(i - 1)) == 2 * (min * Power2(i - 1));
  }

  /** ExponentialStrategy: every intermediate value is a Duration, so that nothing overflows. */
  method ExponentialSleep(min: Duration, max: Duration, count: nat) returns (sleep: Duration)
    ensures sleep == Backoff(min, max, count)
  {
    sleep := min;
    var i := 1;
    while i < count && sleep > 0 && sleep < max
      invariant 1 <= i && (i <= count || i == 1)
      invariant min <= 0 ==> sleep == min
      invariant min > 0 ==> sleep == min * Power2(i - 1) && sleep > 0
      decreases count - i
    {
      // max / 2 truncates, and max is positive here.
      if sleep > max / 2 {
        BackoffStep(min, max, i);
        BackoffReached(min, max, i + 1, count);
        sleep := max;
        return;
      }
      BackoffStep(min, max, i);
      sleep := sleep * 2;
      i := i + 1;
    }
    if min > 0 && count >= 1 && sleep >= max {
      BackoffReached(min, max, i, count);
    }
    if sleep > max {
      sleep := max;
    }
  }

  // The advice of a strategy. The first part of a combination to say stop decides; otherwise
  // the longest sleep does, and none is shorter than zero.
  function AdviceOf(s: Strategy, count: nat): Advice
    decreases s, 0
  {
    match s
    case Limit(n) => Advice(0, count >= n)
    case Exponential(min, max) => BackoffIsDuration(min, max, count); Advice(Backoff(min, max, count), false)
    case Sequential(every) => Advice(every, false)
    case Combined(first, others) =>
      var a := AdviceOf(first, count);
      if a.stop then a else Combine(s, others, count, if a.sleep > 0 then a.sleep else 0)
  }

  function Combine(whole: Strategy, parts: seq<Strategy>, count: nat, longest: Duration): Advice
    requires forall p | p in parts :: p < whole
    decreases whole, 0, |parts|
  {
    if parts == [] then Advice(longest, false)
    else
      assert parts[0] in parts && forall p | p in parts[1..] :: p in parts;
      var a := AdviceOf(parts[0], count);
      if a.stop then a
      else Combine(whole, parts[1..], count, if a.sleep > longest then a.sleep else longest)
  }

  lemma BackoffIsDuration(min: Duration, max: Duration, count: nat)
    ensures -0x8000_0000_0000_0000 <= Backoff(min, max, count) <= MAX_DURATION
  {
    if min > 0 && count > 1 {
      Power2Positive(count - 1);
      assert min * Power2(count - 1) > 0;
    }
  }

  // A limit stops from its count on and does not sleep; the others sleep and never stop.
  lemma {:induction false} PartsAdvise(limit: nat, min: Duration, max: Duration, every: Duration, count: nat)
    ensures AdviceOf(Limit(limit), count).sleep == 0 && (AdviceOf(Limit(limit), count).stop <==> limit <= count)
    ensures AdviceOf(Exponential(min, max), count).sleep == Backoff(min, max, count)
    ensures AdviceOf(Sequential(every), count).sleep == every
    ensures !AdviceOf(Exponential(min, max), count).stop && !AdviceOf(Sequential(every), count).stop
  {
  }

  // Some part of the strategy stops the count-th retry.
  predicate Stops(s: Strategy, count: nat) {
    match s
    case Limit(n) => count >= n
    case Exponential(_, _) => false
    case Sequential(_) => false
    case Combined(first, others) => Stops(first, count) || exists p | p in others :: Stops(p, count)
  }

  // The sleeps that the parts advise.
  predicate Advises(s: Strategy, count: nat, sleep: int) {
    match s
    case Combined(first, others) =>
      Advises(first, count, sleep) || exists p | p in others :: Advises(p, count, sleep)
    case _ => AdviceOf(s, count).sleep == sleep
  }

  // A combination stops exactly when some part stops; if none does, it sleeps for the longest
  // of what its parts advise, or not at all.
  lemma {:induction false} CombinationMeans(s: Strategy, count: nat)
    ensures AdviceOf(s, count).stop <==> Stops(s, count)
    ensures s.Combined? && !Stops(s, count) ==>
              var sleep := AdviceOf(s, count).sleep;
              && sleep >= 0 && (sleep > 0 ==> Advises(s, count, sleep))
              && AdviceOf(s.first, count).sleep <= sleep
              && forall p | p in s.others :: AdviceOf(p, count).sleep <= sleep
    ensures !s.Combined? ==> Advises(s, count, AdviceOf(s, count).sleep)
    decreases s, 0
  {
    if s.Combined? {
      CombinationMeans(s.first, count);
      var a := AdviceOf(s.first, count);
      if !a.stop {
        CombineMeans(s, s.others, count, if a.sleep > 0 then a.sleep else 0);
      }
    }
  }

  lemma {:induction false} CombineMeans(whole: Strategy, parts: seq<Strategy>, count: nat, longest: Duration)
    requires forall p | p in parts :: p < whole
    requires longest >= 0
    ensures Combine(whole, parts, count, longest).stop <==> exists p | p in parts :: Stops(p, count)
    ensures !Combine(whole, parts, count, longest).stop ==>
              var sleep := Combine(whole, parts, count, longest).sleep;
              && sleep >= longest && (sleep == longest || exists p | p in parts :: Advises(p, count, sleep))
              && forall p | p in parts :: AdviceOf(p, count).sleep <= sleep
    decreases whole, 0, |parts|
  {
    if parts != [] {
      assert parts[0] in parts && forall p | p in parts :: p == parts[0] || p in parts[1..];
      assert forall p | p in parts[1..] :: p in parts;
      CombinationMeans(parts[0], count);
      var a := AdviceOf(parts[0], count);
      if !a.stop {
        CombineMeans(whole, parts[1..], count, if a.sleep > longest then a.sleep else longest);
      }
    }
  }

  // ----- the loop

  // What a call of the function returns, and whether the context is done after it.
  datatype Call = Call(failed: bool, retry: bool, done: bool)

  // Whether the loop ends with the k-th call, counted from one.
  predicate Ends(s: Strategy, call: Call, k: nat) {
    !call.failed || call.done || !call.retry || Stops(s, k)
  }

  // A strategy that some limit bounds: it stops the n-th and every later retry.
  predicate BoundedBy(s: Strategy, n: nat) {
    match s
    case Limit(limit) => limit <= n
    case Exponential(_, _) => false
    case Sequential(_) => false
    case Combined(first, others) => BoundedBy(first, n) || exists p | p in others :: BoundedBy(p, n)
  }

  lemma {:induction false} BoundStops(s: Strategy, n: nat, count: nat)
    requires BoundedBy(s, n) && count >= n
    ensures Stops(s, count)
  {
    if s.Combined? {
      if BoundedBy(s.first, n) {
        BoundStops(s.first, n, count);
      } else {
        var p :| p in s.others && BoundedBy(p, n);
        BoundStops(p, n, count);
      }
    }
  }

  // Call `made` is the first after which the loop ends.
  ghost predicate IsLastCall(s: Strategy, calls: nat -> Call, cancelled: nat -> bool, made: nat) {
    && (Ends(s, calls(made), made) || cancelled(made))
    && forall k | 1 <= k < made :: !Ends(s, calls(k), k) && !cancelled(k)
  }

  // A function that always fails and asks to be retried is called max(1, n) times under a limit
  // of n, and no fewer.
  lemma LimitIsReached(n: nat, calls: nat -> Call, cancelled: nat -> bool, made: nat)
    requires forall k :: calls(k) == Call(true, true, false) && !cancelled(k)
    requires 1 <= made && IsLastCall(Limit(n), calls, cancelled, made)
    ensures made == if n > 1 then n else 1
  {
    var last := if n > 1 then n else 1;
    assert made < last ==> !Ends(Limit(n), calls(made), made);
    assert last < made ==> Ends(Limit(n), calls(last), last);
  }

  // The loop ends with a call that succeeds, with one that is not to be retried or finds the
  // context done, and under a limit at the limit; not otherwise.
  lemma EndsUnderLimit(n: nat, call: Call, k: nat)
    ensures Ends(Limit(n), call, k) <==> (call.failed && call.retry && !call.done ==> n <= k)
  {
  }

  /** Retry, under a strategy that contains a limit of n: `calls(k)` is what the k-th call
      returns, and `cancelled(k)` whether the context is done before its sleep is over. It calls
      until the first call that ends the loop, and max(1, n) times at most. */
  method Retry(s: Strategy, ghost n: nat, calls: nat -> Call, cancelled: nat -> bool)
    returns (made: nat, succeeded: bool)
    requires BoundedBy(s, n)
    ensures 1 <= made <= if n > 1 then n else 1
    ensures IsLastCall(s, calls, cancelled, made)
    ensures succeeded <==> !calls(made).failed
  {
    made := 0;
    while true
      invariant made < if n > 1 then n else 1
      invariant forall k | 1 <= k <= made :: !Ends(s, calls(k), k) && !cancelled(k)
      decreases n - made
    {
      made := made + 1;
      var call := calls(made);
      if !call.failed {
        return made, true;
      }
      if call.done || !call.retry {
        return made, false;
      }
      CombinationMeans(s, made);
      if made >= n {
        BoundStops(s, n, made);
      }
      var advice := AdviceOf(s, made);
      if advice.stop || cancelled(made) {
        return made, false;
      }
    }
  }
}
