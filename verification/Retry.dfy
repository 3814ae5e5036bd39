/** Retry with exponential backoff. The callback and the context are represented by what they answer:
    `fn(i)` is the error of attempt i, if any, and `ctx(i)` is the cancellation that the select after
    attempt i sees, if it sees that rather than the timer. Durations are integer nanoseconds and
    multipliers exact reals. */
module Retry {
  import opened Wrappers
  import opened GoNumbers

  type Duration = int

  /** The context's error, and how far into the wait it came. */
  datatype Cancellation<+E> = Cancellation(error: E, after: Duration)

  datatype Policy = Policy(maxAttempts: int, initialWait: Duration, maxWait: Duration, multiplier: real)

  function Multiplier(p: Policy): real {
    if p.multiplier <= 0.0 then 2.0 else p.multiplier
  }

  /** A wait times a multiplier, truncated as the conversion back to a duration does. */
  function Scaled(wait: Duration, multiplier: real): Duration {
    Trunc(wait as real * multiplier)
  }

  function NextWait(p: Policy, wait: Duration): Duration {
    var w := Scaled(wait, Multiplier(p));
    if p.maxWait > 0 && w > p.maxWait then p.maxWait else w
  }

  /** The wait after attempt `i`, counting from zero. */
  function Wait(p: Policy, i: nat): Duration {
    if i == 0 then p.initialWait else NextWait(p, Wait(p, i - 1))
  }

  /** The waits are the first ones of the policy, in order. */
  predicate Backoff(p: Policy, waits: seq<Duration>) {
    forall i :: 0 <= i < |waits| ==> waits[i] == Wait(p, i)
  }

  /** How a run from attempt `i` on ends: its error, if any, and the number of attempts made by then. */
  function Outcome<E>(p: Policy, fn: nat -> Option<E>, ctx: nat -> Option<Cancellation<E>>, i: nat): (Option<E>, nat)
    requires i < p.maxAttempts
    decreases p.maxAttempts - i
  {
    if fn(i).None? then (None, i + 1)
    else if i == p.maxAttempts - 1 then (fn(i), i + 1)
    else if ctx(i).Some? then (Some(ctx(i).value.error), i + 1)
    else Outcome(p, fn, ctx, i + 1)
  }

  function Sum(waits: seq<Duration>): Duration {
    if waits == [] then 0 else Sum(waits[..|waits| - 1]) + waits[|waits| - 1]
  }

  /** A cancellation comes before the timer would have fired. */
  ghost predicate Timely<E(!new)>(p: Policy, ctx: nat -> Option<Cancellation<E>>) {
    forall i: nat :: ctx(i).Some? ==> ctx(i).value.after <= Wait(p, i)
  }

  /** `calls` counts the attempts, `slept` lists the waits whose timer fired, and `cut` is the part that was
      slept of a wait cut short by a cancellation. Whatever the callback and the context do, a capped policy
      with at least two attempts sleeps at most InitialWait + (MaxAttempts - 2) * MaxWait in all. */
  method Do<E(!new)>(p: Policy, fn: nat -> Option<E>, ctx: nat -> Option<Cancellation<E>>)
    returns (err: Option<E>, calls: nat, slept: seq<Duration>, cut: Duration)
    ensures p.maxAttempts <= 0 ==> err.None? && calls == 0 && slept == [] && cut == 0
    ensures p.maxAttempts > 0 ==> (err, calls) == Outcome(p, fn, ctx, 0)
    ensures |slept| == if calls == 0 then 0 else calls - 1
    ensures Backoff(p, slept)
    ensures cut == if 0 < calls < p.maxAttempts && err.Some? && ctx(calls - 1).Some? then ctx(calls - 1).value.after
                   else 0
    ensures p.maxAttempts >= 2 && p.maxWait > 0 && p.initialWait >= 0 && Timely(p, ctx) ==>
              Sum(slept) + cut <= p.initialWait + (p.maxAttempts - 2) * p.maxWait
  {
    var multiplier := if p.multiplier <= 0.0 then 2.0 else p.multiplier;
    var wait := p.initialWait;
    var lastErr: Option<E> := None;
    calls, slept, cut := 0, [], 0;
    var attempt := 0;
    while attempt < p.maxAttempts
      invariant 0 <= attempt && (p.maxAttempts > 0 ==> attempt < p.maxAttempts)
      invariant calls == attempt == |slept| && cut == 0
      invariant wait == Wait(p, attempt) && multiplier == Multiplier(p)
      invariant p.maxAttempts <= 0 ==> attempt == 0
      invariant p.maxAttempts > 0 ==> Outcome(p, fn, ctx, 0) == Outcome(p, fn, ctx, attempt)
      invariant attempt == 0 ==> lastErr.None?
      invariant Backoff(p, slept)
    {
      TotalSleep(p, slept, 0);
      calls := calls + 1;
      var e := fn(attempt);
      if e.Some? {
        lastErr := e;
      } else {
        return None, calls, slept, 0;
      }
      if attempt == p.maxAttempts - 1 {
        break;
      }
      var cancelled := ctx(attempt);
      if cancelled.Some? {
        TotalSleep(p, slept, cancelled.value.after);
        return Some(cancelled.value.error), calls, slept, cancelled.value.after;
      }
      slept := slept + [wait];
      wait := Scaled(wait, multiplier);
      if p.maxWait > 0 && wait > p.maxWait {
        wait := p.maxWait;
      }
      attempt := attempt + 1;
    }
    return lastErr, calls, slept, 0;
  }

  /** Attempts are made in order, stopping at the first success, the first cancellation after a failure,
      or the last permitted attempt, whose error is the one returned. */
  lemma {:induction false} OutcomeMeans<E>(p: Policy, fn: nat -> Option<E>, ctx: nat -> Option<Cancellation<E>>, i: nat)
    requires i < p.maxAttempts
    ensures
      var (err, calls) := Outcome(p, fn, ctx, i);
      && i < calls <= p.maxAttempts
      && (forall k :: i <= k < calls - 1 ==> fn(k).Some? && ctx(k).None?)
      && (err.None? <==> fn(calls - 1).None?)
      && (err.Some? ==>
            if calls == p.maxAttempts then err == fn(calls - 1)
            else ctx(calls - 1).Some? && err == Some(ctx(calls - 1).value.error))
    decreases p.maxAttempts - i
  {
    if fn(i).Some? && i < p.maxAttempts - 1 && ctx(i).None? {
      OutcomeMeans(p, fn, ctx, i + 1);
    }
  }

  // Backoff arithmetic.

  /** x * m^i */
  function Compound(x: real, m: real, i: nat): real {
    if i == 0 then x else Compound(x, m, i - 1) * m
  }

  /** 1 + m + ... + m^(i-1) */
  function Powers(m: real, i: nat): real {
    if i == 0 then 0.0 else Powers(m, i - 1) + Compound(1.0, m, i - 1)
  }

  lemma PowersStep(m: real, below: real, last: real, sum: real, power: real)
    requires sum == below * m + 1.0 && power == last * m
    ensures sum + power == (below + last) * m + 1.0
  {
  }

  lemma {:induction false} PowersTimes(m: real, i: nat)
    ensures Powers(m, i + 1) == Powers(m, i) * m + 1.0
  {
    if i > 0 {
      PowersTimes(m, i - 1);
      PowersStep(m, Powers(m, i - 1), Compound(1.0, m, i - 1), Powers(m, i), Compound(1.0, m, i));
    }
  }

  lemma Unfolded(x: real, m: real, i: nat) returns (top: real, below: real)
    requires i > 0
    ensures top == Compound(x, m, i - 1) && Compound(x, m, i) == top * m
    ensures below == Powers(m, i - 1) && Powers(m, i) == below * m + 1.0
  {
    top, below := Compound(x, m, i - 1), Powers(m, i - 1);
    PowersTimes(m, i - 1);
  }

  lemma ScaleMonotone(a: real, b: real, m: real)
    requires a <= b && m >= 0.0
    ensures a * m <= b * m
  {
  }

  lemma UncappedStep(m: real, w: int, w': int, top: real, top': real, below: real, below': real)
    requires m > 0.0 && w >= 0 && top - below <= w as real <= top
    requires w' == Scaled(w, m) && top' == top * m && below' == below * m + 1.0
    ensures 0 <= w' && top' - below' <= w' as real <= top'
  {
    ScaleMonotone(0.0, w as real, m);
    ScaleMonotone(w as real, top, m);
    ScaleMonotone(top - below, w as real, m);
    assert (top - below) * m == top * m - below * m;
  }

  /** Without a cap, truncation costs the i-th wait less than one unit at each step: for every multiplier m it
      lies within 1 + m + ... + m^(i-1) below InitialWait * m^i and never above it. */
  lemma {:induction false} UncappedWait(p: Policy, i: nat)
    requires p.maxWait <= 0 && p.multiplier > 0.0 && p.initialWait >= 0
    ensures Wait(p, i) >= 0
    ensures Compound(p.initialWait as real, p.multiplier, i) - Powers(p.multiplier, i)
            <= Wait(p, i) as real
            <= Compound(p.initialWait as real, p.multiplier, i)
  {
    if i > 0 {
      UncappedWait(p, i - 1);
      var m, x := p.multiplier, p.initialWait as real;
      var top, below := Unfolded(x, m, i);
      UncappedStep(m, Wait(p, i - 1), Wait(p, i), top, Compound(x, m, i), below, Powers(m, i));
    }
  }

  /** A policy without a positive multiplier waits as one that doubles. */
  lemma {:induction false} DefaultDoubles(p: Policy, i: nat)
    requires p.multiplier <= 0.0
    ensures Wait(p, i) == Wait(p.(multiplier := 2.0), i)
  {
    if i > 0 {
      DefaultDoubles(p, i - 1);
    }
  }

  function Min(a: int, b: int): int {
    if a <= b then a else b
  }

  lemma ScaleUp(a: real, m: real)
    requires a >= 0.0 && m >= 1.0
    ensures a * m >= a
  {
  }

  lemma ScaledMonotone(a: Duration, b: Duration, m: real)
    requires 0 <= a <= b && m >= 1.0
    ensures a <= Scaled(a, m) <= Scaled(b, m)
  {
    ScaleUp(a as real, m);
    ScaleMonotone(a as real, b as real, m);
  }

  /** Capping before a step that does not shrink changes nothing that capping after it leaves. */
  lemma CapCommutes(cap: Duration, w: Duration, m: real)
    requires cap > 0 && w >= 0 && m >= 1.0
    ensures Min(cap, Scaled(Min(cap, w), m)) == Min(cap, Scaled(w, m)) && Scaled(w, m) >= 0
  {
    ScaledMonotone(w, w, m);
    if cap < w {
      ScaledMonotone(cap, w, m);
    }
  }

  /** A multiplier of at least one, whole or not: every wait but the first is the smaller of MaxWait and what the
      policy would wait without a cap, which UncappedWait bounds. */
  lemma {:induction false} CappedGrows(p: Policy, i: nat)
    requires p.maxWait > 0 && p.multiplier >= 1.0 && p.initialWait >= 0
    ensures Wait(p.(maxWait := 0), i) >= 0
    ensures Wait(p, i) == if i == 0 then p.initialWait else Min(p.maxWait, Wait(p.(maxWait := 0), i))
  {
    if i > 0 {
      CappedGrows(p, i - 1);
      CapCommutes(p.maxWait, Wait(p.(maxWait := 0), i - 1), p.multiplier);
    }
  }

  lemma ScaleDown(a: real, m: real)
    requires a >= 0.0 && 0.0 < m <= 1.0
    ensures 0.0 <= a * m <= a
  {
  }

  lemma NotGrown(w: Duration, m: real)
    requires w >= 0 && 0.0 < m <= 1.0
    ensures 0 <= Scaled(w, m) <= w
  {
    ScaleDown(w as real, m);
  }

  lemma ShrinkStep(p: Policy, w: Duration)
    requires p.maxWait > 0 && 0.0 < p.multiplier <= 1.0 && 0 <= w <= p.maxWait
    ensures NextWait(p, w) == Scaled(w, p.multiplier) && 0 <= NextWait(p, w) <= p.maxWait
  {
    NotGrown(w, p.multiplier);
  }

  /** A multiplier of at most one never needs the cap after the second wait: the waits are those of an uncapped
      policy that begins with the second one, which is InitialWait * m or MaxWait, whichever is less. */
  lemma {:induction false} CappedShrinks(p: Policy, i: nat)
    requires p.maxWait > 0 && 0.0 < p.multiplier <= 1.0 && p.initialWait >= 0
    ensures Wait(p, 1) == Min(p.maxWait, Trunc(p.initialWait as real * p.multiplier))
    ensures Wait(p, i + 1) == Wait(p.(initialWait := Wait(p, 1), maxWait := 0), i)
    ensures 0 <= Wait(p, i + 1) <= p.maxWait
  {
    if i == 0 {
      NotGrown(p.initialWait, p.multiplier);
      assert Wait(p, 1) == NextWait(p, Wait(p, 0));
    } else {
      CappedShrinks(p, i - 1);
      ShrinkStep(p, Wait(p, i));
    }
  }

  /** x * m^i over the integers. */
  function CompoundInt(x: int, m: int, i: nat): int {
    if i == 0 then x else CompoundInt(x, m, i - 1) * m
  }

  lemma CapThenScale(cap: int, x: int, m: int)
    requires cap > 0 && x >= 0 && m >= 1
    ensures Min(cap, Min(cap, x) * m) == Min(cap, x * m) && x * m >= 0
  {
    if x > cap {
      assert (m - 1) * cap >= 0;
      assert (x - cap) * m >= 0;
    }
  }

  lemma ScaledExactly(w: int, m: int)
    requires w >= 0 && m >= 1
    ensures Scaled(w, m as real) == w * m
  {
    assert w as real * m as real == (w * m) as real;
    assert w * m >= 0;
  }

  lemma UnfoldedInt(x: int, m: int, i: nat) returns (before: int)
    requires i > 0
    ensures before == CompoundInt(x, m, i - 1) && CompoundInt(x, m, i) == before * m
  {
    before := CompoundInt(x, m, i - 1);
  }

  lemma WholeStep(p: Policy, m: int, w: Duration, c: int, c': int)
    requires m >= 1 && Multiplier(p) == m as real && c >= 0 && c' == c * m
    requires w == c || (p.maxWait > 0 && w == Min(p.maxWait, c))
    ensures c' >= 0 && NextWait(p, w) == if p.maxWait <= 0 then c' else Min(p.maxWait, c')
  {
    ScaledExactly(w, m);
    assert c * m >= 0;
    if p.maxWait > 0 && w != c {
      CapThenScale(p.maxWait, c, m);
    }
  }

  /** With a whole-number multiplier the waits are exact: InitialWait * m^i, and with a cap the smaller of
      that and MaxWait for every wait but the first, which is InitialWait itself even above the cap. */
  lemma {:induction false} WholeWait(p: Policy, m: int, i: nat)
    requires m >= 1 && p.initialWait >= 0
    requires p.multiplier == m as real || (p.multiplier <= 0.0 && m == 2)
    ensures CompoundInt(p.initialWait, m, i) >= 0
    ensures Wait(p, i)
            == if i == 0 || p.maxWait <= 0 then CompoundInt(p.initialWait, m, i)
               else Min(p.maxWait, CompoundInt(p.initialWait, m, i))
  {
    if i > 0 {
      WholeWait(p, m, i - 1);
      var before := UnfoldedInt(p.initialWait, m, i);
      WholeStep(p, m, Wait(p, i - 1), before, CompoundInt(p.initialWait, m, i));
    }
  }

  function Repeated(n: nat, d: Duration): Duration {
    if n == 0 then 0 else Repeated(n - 1, d) + d
  }

  lemma RepeatedIsProduct(n: nat, d: Duration)
    ensures Repeated(n, d) == n * d
  {
  }

  lemma {:induction false} SleepBound(p: Policy, slept: seq<Duration>, n: nat)
    requires p.maxWait > 0 && p.initialWait >= 0 && |slept| <= n + 1
    requires Backoff(p, slept)
    ensures Sum(slept) <= p.initialWait + Repeated(n, p.maxWait) && Repeated(n, p.maxWait) >= 0
    decreases n
  {
    if n > 0 {
      if |slept| == n + 1 {
        SleepBound(p, slept[..n], n - 1);
        assert slept[n] <= p.maxWait;
      } else {
        SleepBound(p, slept, n - 1);
      }
    } else if |slept| == 1 {
      assert slept[..0] == [];
    }
  }

  /** Full waits and, if the last attempt is still to come, part of one more. */
  lemma TotalSleep(p: Policy, slept: seq<Duration>, cut: Duration)
    requires |slept| < p.maxAttempts && Backoff(p, slept)
    ensures p.maxAttempts >= 2 && p.maxWait > 0 && p.initialWait >= 0
            && (cut <= 0 || (cut <= Wait(p, |slept|) && |slept| < p.maxAttempts - 1)) ==>
              Sum(slept) + cut <= p.initialWait + (p.maxAttempts - 2) * p.maxWait
  {
    if p.maxAttempts >= 2 && p.maxWait > 0 && p.initialWait >= 0 {
      SleepBound(p, slept, p.maxAttempts - 2);
      RepeatedIsProduct(p.maxAttempts - 2, p.maxWait);
      if |slept| < p.maxAttempts - 1 {
        var longer := slept + [Wait(p, |slept|)];
        SleepBound(p, longer, p.maxAttempts - 2);
        assert longer[..|slept|] == slept;
      }
    }
  }
}
