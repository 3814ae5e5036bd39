/** The breaker moves Open to HalfOpen only when somebody calls it. Here it is compared with a breaker
    that has a timer and moves at the very instant the cooldown ends. The eager breaker keeps no stale
    flag and no stale timestamp: those exist only in the phase that uses them. */
module CircuitEager {
  import opened Circuit
  import opened CircuitProtocol

  datatype Phase = Normal | Tripped(due: Time) | Trial(probing: bool)

  datatype Eager = Eager(phase: Phase, failures: int, threshold: int, cooldown: Time)

  /** The timer: what time passing up to `now` does, with nobody calling. */
  function Elapse(e: Eager, now: Time): Eager {
    if e.phase.Tripped? && now >= e.phase.due then e.(phase := Trial(false)) else e
  }

  function EagerAdmit(e: Eager): (Eager, Admission) {
    match e.phase
    case Normal => (e, AdmitClosed)
    case Tripped(_) => (e, RejectOpen)
    case Trial(probing) => if probing then (e, RejectHalfOpen) else (e.(phase := Trial(true)), AdmitProbe)
  }

  function EagerComplete(e: Eager, mode: Mode, failed: bool, now: Time): Eager {
    match (mode, failed)
    case (ProbeCall, true) => e.(phase := Tripped(now + e.cooldown))
    case (ProbeCall, false) => e.(phase := Normal, failures := 0)
    case (ClosedCall, false) => e.(failures := 0)
    case (ClosedCall, true) =>
      if e.failures + 1 >= e.threshold then e.(phase := Tripped(now + e.cooldown), failures := e.failures + 1)
      else e.(failures := e.failures + 1)
  }

  function EagerState(e: Eager): State {
    match e.phase
    case Normal => Closed
    case Tripped(_) => Open
    case Trial(_) => HalfOpen
  }

  /** What the caller of an event sees. */
  datatype Seen = Decision(admission: Admission) | Returned | Cleared | Observed(state: State)

  datatype EagerSys = EagerSys(core: Eager, calls: map<nat, Mode>)

  /** Time passes to the event's instant, firing the timer if it is due; then the event happens.
      `State()` only looks. */
  function EagerStep(s: EagerSys, e: Event): (EagerSys, Seen)
    requires e.End? ==> e.id in s.calls
  {
    var c := Elapse(s.core, e.at);
    match e
    case Begin(id, at) =>
      var (d, a) := EagerAdmit(c);
      (EagerSys(d, StartCall(s.calls, id, a)), Decision(a))
    case End(id, failed, at) => (EagerSys(EagerComplete(c, s.calls[id], failed, at), s.calls - {id}), Returned)
    case Reset(_) => (EagerSys(c.(phase := Normal, failures := 0), s.calls), Cleared)
    case Query(_) => (EagerSys(c, s.calls), Observed(EagerState(c)))
  }

  function LazySeen(s: Sys, e: Event): Seen
    requires Enabled(s, e)
  {
    match e
    case Begin(id, at) => Decision(Admit(s.core, at).1)
    case End(_, _, _) => Returned
    case Reset(_) => Cleared
    case Query(at) => Observed(Poll(s.core, at).state)
  }

  /** Forget the probe flag outside HalfOpen and the timestamp outside Open. */
  function Abstract(c: Core): Eager {
    var phase := match c.state
      case Closed => Normal
      case Open => Tripped(c.lastFailTime + c.cooldown)
      case HalfOpen => Trial(c.probeInFlight);
    Eager(phase, c.failures, c.threshold, c.cooldown)
  }

  /** The two breakers agree at every instant from the lazy one's clock on. */
  predicate Matches(s: Sys, e: EagerSys) {
    && s.calls == e.calls
    && Elapse(Abstract(s.core), s.clock) == Elapse(e.core, s.clock)
  }

  /** A possible interleaving, as far as identifiers and clock go. */
  predicate Feasible(s: Sys, es: seq<Event>)
    decreases |es|
  {
    es == [] || (Enabled(s, es[0]) && Feasible(Step(s, es[0]), es[1..]))
  }

  function After(s: Sys, es: seq<Event>): Sys
    requires Feasible(s, es)
    decreases |es|
  {
    if es == [] then s else After(Step(s, es[0]), es[1..])
  }

  function LazyTrace(s: Sys, es: seq<Event>): (seen: seq<Seen>)
    requires Feasible(s, es)
    ensures |seen| == |es|
    decreases |es|
  {
    if es == [] then [] else [LazySeen(s, es[0])] + LazyTrace(Step(s, es[0]), es[1..])
  }

  /** Events that end an unknown call are ignored; feasible runs have none. */
  function EagerTrace(s: EagerSys, es: seq<Event>): seq<Seen>
    decreases |es|
  {
    if es == [] then []
    else if es[0].End? && es[0].id !in s.calls then EagerTrace(s, es[1..])
    else [EagerStep(s, es[0]).1] + EagerTrace(EagerStep(s, es[0]).0, es[1..])
  }

  lemma StepMatches(s: Sys, g: EagerSys, e: Event)
    requires Matches(s, g) && Enabled(s, e)
    ensures Matches(Step(s, e), EagerStep(g, e).0)
    ensures LazySeen(s, e) == EagerStep(g, e).1
  {
    assert Elapse(Abstract(s.core), e.at) == Elapse(g.core, e.at);
    assert Abstract(Poll(s.core, e.at)) == Elapse(Abstract(s.core), e.at);
  }

  /** Lazy equals eager: from matching states every admission and every observed state is the same. */
  lemma {:induction false} LazyIsEager(s: Sys, g: EagerSys, es: seq<Event>)
    requires Matches(s, g) && Feasible(s, es)
    ensures LazyTrace(s, es) == EagerTrace(g, es)
    decreases |es|
  {
    if es != [] {
      StepMatches(s, g, es[0]);
      LazyIsEager(Step(s, es[0]), EagerStep(g, es[0]).0, es[1..]);
    }
  }

  function EagerAfter(s: EagerSys, es: seq<Event>): EagerSys
    decreases |es|
  {
    if es == [] then s
    else if es[0].End? && es[0].id !in s.calls then EagerAfter(s, es[1..])
    else EagerAfter(EagerStep(s, es[0]).0, es[1..])
  }

  /** And at every instant after the run the state that a `State()` call would report is the one the
      eager breaker has already moved to by itself. */
  lemma {:induction false} AgreeAtEveryInstant(s: Sys, g: EagerSys, es: seq<Event>, t: Time)
    requires Matches(s, g) && Feasible(s, es) && After(s, es).clock <= t
    ensures Matches(After(s, es), EagerAfter(g, es))
    ensures Poll(After(s, es).core, t).state == EagerState(Elapse(EagerAfter(g, es).core, t))
    decreases |es|
  {
    if es == [] {
      assert Elapse(Abstract(s.core), t) == Elapse(g.core, t);
    } else {
      StepMatches(s, g, es[0]);
      AgreeAtEveryInstant(Step(s, es[0]), EagerStep(g, es[0]).0, es[1..], t);
    }
  }

  function NewEager(threshold: int, cooldown: Time): EagerSys {
    EagerSys(Eager(Normal, 0, threshold, cooldown), map[])
  }

  lemma NewBreakersMatch(threshold: int, cooldown: Time, start: Time)
    ensures Matches(Init(threshold, cooldown, start).sys, NewEager(threshold, cooldown))
  {
  }

  /** From creation on: in every run of a new breaker each call sees what it would see of one with a timer, and
      so does whoever looks at any instant after the run. */
  lemma NewBreakerIsEager(threshold: int, cooldown: Time, start: Time, es: seq<Event>, t: Time)
    requires Feasible(Init(threshold, cooldown, start).sys, es)
    requires After(Init(threshold, cooldown, start).sys, es).clock <= t
    ensures
      var s, g := Init(threshold, cooldown, start).sys, NewEager(threshold, cooldown);
      && LazyTrace(s, es) == EagerTrace(g, es)
      && Poll(After(s, es).core, t).state == EagerState(Elapse(EagerAfter(g, es).core, t))
  {
    var s, g := Init(threshold, cooldown, start).sys, NewEager(threshold, cooldown);
    NewBreakersMatch(threshold, cooldown, start);
    LazyIsEager(s, g, es);
    AgreeAtEveryInstant(s, g, es, t);
  }

  /** What a sequential `Do` returns: a sentinel exactly when the breaker decides to refuse, which is when one
      with a timer is open or has its probe running; otherwise what `fn` returned. */
  lemma DoAloneReturns(s: Sys, g: EagerSys, id: nat, start: Time, failed: bool, finish: Time)
    requires Matches(s, g) && Enabled(s, Begin(id, start))
    ensures
      var r := DoAlone(s.core, start, failed, finish).1;
      var seen := LazySeen(s, Begin(id, start));
      var phase := Elapse(g.core, start).phase;
      && (r == ErrOpen <==> seen == Decision(RejectOpen)) && (r == ErrOpen <==> phase.Tripped?)
      && (r == ErrHalfOpen <==> seen == Decision(RejectHalfOpen)) && (r == ErrHalfOpen <==> phase == Trial(true))
      && (r.FnReturned? ==> r.failed == failed)
  {
    StepMatches(s, g, Begin(id, start));
  }

  // State() calls can be erased or inserted anywhere without changing what anybody else sees.

  /** The elements at the kept positions. */
  function Kept<T>(xs: seq<T>, keep: seq<bool>): seq<T>
    requires |xs| == |keep|
  {
    if xs == [] then [] else (if keep[0] then [xs[0]] else []) + Kept(xs[1..], keep[1..])
  }

  /** A query leaves the lazy breaker in agreement with where the eager one was. */
  lemma QueryOnlyPolls(s: Sys, g: EagerSys, q: Event)
    requires q.Query? && Enabled(s, q) && Matches(s, g)
    ensures Matches(Step(s, q), g) && s.clock <= Step(s, q).clock
  {
    var t := Step(s, q);
    assert Abstract(t.core) == Elapse(Abstract(s.core), t.clock);
  }

  lemma {:induction false} ErasedFrom(s: Sys, r: Sys, g: EagerSys, es: seq<Event>, keep: seq<bool>)
    requires Feasible(r, es) && Matches(s, g) && Matches(r, g) && s.clock <= r.clock
    requires |es| == |keep| && forall i :: 0 <= i < |es| && !keep[i] ==> es[i].Query?
    ensures Feasible(s, Kept(es, keep))
    ensures LazyTrace(s, Kept(es, keep)) == Kept(LazyTrace(r, es), keep)
    decreases |es|
  {
    if es != [] {
      var e, rest := es[0], Kept(es[1..], keep[1..]);
      if keep[0] {
        StepMatches(s, g, e);
        StepMatches(r, g, e);
        ErasedFrom(Step(s, e), Step(r, e), EagerStep(g, e).0, es[1..], keep[1..]);
        assert ([e] + rest)[1..] == rest;
      } else {
        QueryOnlyPolls(r, g, e);
        ErasedFrom(s, Step(r, e), g, es[1..], keep[1..]);
        assert [] + rest == rest;
      }
    }
  }

  /** Erasing any of the `State()` calls of a run, wherever they are, leaves a run in which every other call,
      the remaining `State()` calls included, sees what it saw. So inserting them anywhere changes nothing. */
  lemma QueriesInvisible(s: Sys, es: seq<Event>, keep: seq<bool>)
    requires Feasible(s, es)
    requires |es| == |keep| && forall i :: 0 <= i < |es| && !keep[i] ==> es[i].Query?
    ensures Feasible(s, Kept(es, keep))
    ensures LazyTrace(s, Kept(es, keep)) == Kept(LazyTrace(s, es), keep)
  {
    ErasedFrom(s, s, EagerSys(Abstract(s.core), s.calls), es, keep);
  }
}
