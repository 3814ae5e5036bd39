/** One `retry.Do` whose callback calls a breaker around a dependency that always fails. */
module RetryBreaker {
  import opened Wrappers
  import opened Circuit
  import CircuitProtocol
  import Retry

  /** When an attempt enters the breaker, and when its `fn`, if started, returns. */
  datatype Span = Span(start: Time, finish: Time)

  predicate InOrder(spans: seq<Span>) {
    && (forall i :: 0 <= i < |spans| ==> spans[i].start <= spans[i].finish)
    && (forall i, j :: 0 <= i < j < |spans| ==> spans[i].finish <= spans[j].start)
  }

  /** The breaker after the first `k` attempts. */
  function CoreAfter(c: Core, spans: seq<Span>, k: nat): Core
    requires k <= |spans|
  {
    if k == 0 then c
    else DoAlone(CoreAfter(c, spans, k - 1), spans[k - 1].start, true, spans[k - 1].finish).0
  }

  function AttemptOutcome(c: Core, spans: seq<Span>, k: nat): Outcome
    requires k < |spans|
  {
    DoAlone(CoreAfter(c, spans, k), spans[k].start, true, spans[k].finish).1
  }

  /** How many of the first `k` attempts started `fn`. */
  function Starts(c: Core, spans: seq<Span>, k: nat): nat
    requires k <= |spans|
  {
    if k == 0 then 0
    else Starts(c, spans, k - 1) + if AttemptOutcome(c, spans, k - 1).FnReturned? then 1 else 0
  }

  /** The callback that `retry.Do` sees: every outcome here is an error. */
  function Callback(c: Core, spans: seq<Span>): nat -> Option<Outcome> {
    (i: nat) => Some(if i < |spans| then AttemptOutcome(c, spans, i) else ErrOpen)
  }

  lemma {:induction false} BeforeTrip(threshold: int, cooldown: Time, spans: seq<Span>, k: nat)
    requires k <= |spans| && k <= TripLevel(threshold)
    ensures
      var c := CoreAfter(Fresh(threshold, cooldown), spans, k);
      && c.failures == k && c.threshold == threshold && c.cooldown == cooldown
      && (k < TripLevel(threshold) ==> c.state == Closed)
      && (k == TripLevel(threshold) ==> c.state == Open && c.lastFailTime == spans[k - 1].finish)
    ensures Starts(Fresh(threshold, cooldown), spans, k) == k
    ensures k > 0 ==> AttemptOutcome(Fresh(threshold, cooldown), spans, k - 1) == FnReturned(true)
  {
    if k > 0 {
      BeforeTrip(threshold, cooldown, spans, k - 1);
    }
  }

  /** An attempt on an open breaker is refused, or is a probe after a whole cooldown that fails. */
  lemma OpenAttempt(c: Core, start: Time, finish: Time)
    requires c.state == Open
    ensures
      var (d, outcome) := DoAlone(c, start, true, finish);
      && d.state == Open && d.cooldown == c.cooldown
      && (outcome == ErrOpen ==> d == c && start - c.lastFailTime < c.cooldown)
      && (outcome != ErrOpen ==>
            outcome == FnReturned(true) && d.lastFailTime == finish && c.lastFailTime + c.cooldown <= start)
  {
  }

  lemma {:induction false} TimesGrows(n: nat, d: Time)
    requires d > 0
    ensures CircuitProtocol.Times(n, d) >= if n > 0 then d else 0
  {
    if n > 0 {
      TimesGrows(n - 1, d);
    }
  }

  /** From the trip on the breaker rests in Open; the `probes` it has admitted since are a cooldown
      apart; and while less than a cooldown has passed there have been none. */
  lemma {:induction false} AfterTrip(threshold: int, cooldown: Time, spans: seq<Span>, k: nat) returns (probes: nat)
    requires cooldown > 0 && InOrder(spans) && TripLevel(threshold) <= k <= |spans|
    ensures
      var m := TripLevel(threshold);
      var c := CoreAfter(Fresh(threshold, cooldown), spans, k);
      var trip := spans[m - 1].finish;
      && c.state == Open && c.cooldown == cooldown
      && Starts(Fresh(threshold, cooldown), spans, k) == m + probes
      && trip + CircuitProtocol.Times(probes, cooldown) <= c.lastFailTime <= spans[k - 1].finish
      && (probes > 0 ==> trip + CircuitProtocol.Times(probes, cooldown) <= spans[k - 1].start)
      && (probes == 0 ==> c.lastFailTime == trip)
      && (k > m && spans[k - 1].start - trip < cooldown ==>
            probes == 0 && AttemptOutcome(Fresh(threshold, cooldown), spans, k - 1) == ErrOpen)
    decreases k
  {
    var m := TripLevel(threshold);
    if k == m {
      BeforeTrip(threshold, cooldown, spans, k);
      probes := 0;
    } else {
      var before := AfterTrip(threshold, cooldown, spans, k - 1);
      var c := CoreAfter(Fresh(threshold, cooldown), spans, k - 1);
      OpenAttempt(c, spans[k - 1].start, spans[k - 1].finish);
      probes := if AttemptOutcome(Fresh(threshold, cooldown), spans, k - 1).FnReturned? then before + 1 else before;
      assert spans[k - 2].finish <= spans[k - 1].start;
      TimesGrows(before, cooldown);
      TimesGrows(probes, cooldown);
    }
  }

  type Context = nat -> Option<Retry.Cancellation<Outcome>>

  lemma {:induction false} NeverSucceeds(p: Retry.Policy, c: Core, spans: seq<Span>, ctx: Context, i: nat)
    requires i < p.maxAttempts && |spans| == p.maxAttempts
    requires forall j: nat :: ctx(j).None?
    ensures Retry.Outcome(p, Callback(c, spans), ctx, i)
            == (Some(AttemptOutcome(c, spans, p.maxAttempts - 1)), p.maxAttempts)
    decreases p.maxAttempts - i
  {
    if i < p.maxAttempts - 1 {
      NeverSucceeds(p, c, spans, ctx, i + 1);
    }
  }

  lemma StartsAtMost(c: Core, spans: seq<Span>, k: nat)
    requires k <= |spans|
    ensures Starts(c, spans, k) <= k
  {
  }

  /** With an always-failing `fn`, an uncancelled context and a new breaker, one `retry.Do` makes all its
      attempts. `fn` is started by each of the first max(threshold, 1) of them, and by no more than
      (elapsed since the trip) / cooldown of the rest; while that elapsed time is below the cooldown, by
      none of the rest, and the error returned is ErrOpen. */
  lemma RetryAroundBreaker(p: Retry.Policy, threshold: int, cooldown: Time, spans: seq<Span>, ctx: Context)
    requires p.maxAttempts >= 1 && |spans| == p.maxAttempts && cooldown > 0 && InOrder(spans)
    requires forall j: nat :: ctx(j).None?
    ensures
      var c := Fresh(threshold, cooldown);
      var (err, calls) := Retry.Outcome(p, Callback(c, spans), ctx, 0);
      var n, m, starts := p.maxAttempts, TripLevel(threshold), Starts(c, spans, p.maxAttempts);
      && calls == n && starts <= n
      && (n <= m ==> starts == n && err == Some(FnReturned(true)))
      && (n > m ==>
            var elapsed := spans[n - 1].start - spans[m - 1].finish;
            && m <= starts <= m + elapsed / cooldown
            && (elapsed < cooldown ==> starts == m && err == Some(ErrOpen)))
  {
    var c, n, m := Fresh(threshold, cooldown), p.maxAttempts, TripLevel(threshold);
    NeverSucceeds(p, c, spans, ctx, 0);
    StartsAtMost(c, spans, n);
    if n <= m {
      BeforeTrip(threshold, cooldown, spans, n);
    } else {
      var probes := AfterTrip(threshold, cooldown, spans, n);
      var elapsed := spans[n - 1].start - spans[m - 1].finish;
      CircuitProtocol.QuotientBound(probes, cooldown, elapsed);
    }
  }

  /** Every wait of the policy was slept in full. */
  predicate Slept(p: Retry.Policy, spans: seq<Span>) {
    forall i :: 0 < i < |spans| ==> spans[i - 1].finish + Retry.Wait(p, i - 1) <= spans[i].start
  }

  /** From the trip on the policy waits at least a cooldown each time. */
  predicate Outwaits(p: Retry.Policy, threshold: int, cooldown: Time) {
    forall i: nat :: TripLevel(threshold) - 1 <= i < p.maxAttempts - 1 ==> cooldown <= Retry.Wait(p, i)
  }

  lemma {:induction false} EveryAttemptProbes(p: Retry.Policy, threshold: int, cooldown: Time, spans: seq<Span>, k: nat)
    requires |spans| == p.maxAttempts && Slept(p, spans) && Outwaits(p, threshold, cooldown)
    requires TripLevel(threshold) <= k <= |spans|
    ensures
      var c := CoreAfter(Fresh(threshold, cooldown), spans, k);
      c.state == Open && c.cooldown == cooldown && c.lastFailTime == spans[k - 1].finish
    ensures Starts(Fresh(threshold, cooldown), spans, k) == k
    ensures AttemptOutcome(Fresh(threshold, cooldown), spans, k - 1) == FnReturned(true)
    decreases k
  {
    if k == TripLevel(threshold) {
      BeforeTrip(threshold, cooldown, spans, k);
    } else {
      EveryAttemptProbes(p, threshold, cooldown, spans, k - 1);
      OpenAttempt(CoreAfter(Fresh(threshold, cooldown), spans, k - 1), spans[k - 1].start, spans[k - 1].finish);
    }
  }

  /** The counterpart: a policy that waits out the cooldown after each failure is never refused. Every attempt
      starts `fn`, and the error returned is the last one of `fn`. */
  lemma PatientRetryAlwaysStarts(p: Retry.Policy, threshold: int, cooldown: Time, spans: seq<Span>, ctx: Context)
    requires p.maxAttempts >= 1 && |spans| == p.maxAttempts && Slept(p, spans) && Outwaits(p, threshold, cooldown)
    requires forall j: nat :: ctx(j).None?
    ensures Starts(Fresh(threshold, cooldown), spans, p.maxAttempts) == p.maxAttempts
    ensures Retry.Outcome(p, Callback(Fresh(threshold, cooldown), spans), ctx, 0)
            == (Some(FnReturned(true)), p.maxAttempts)
  {
    NeverSucceeds(p, Fresh(threshold, cooldown), spans, ctx, 0);
    if p.maxAttempts < TripLevel(threshold) {
      BeforeTrip(threshold, cooldown, spans, p.maxAttempts);
    } else {
      EveryAttemptProbes(p, threshold, cooldown, spans, p.maxAttempts);
    }
  }
}
