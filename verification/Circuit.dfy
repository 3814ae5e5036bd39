/** The circuit breaker: its fields as a value, the critical sections of its methods as functions
    on that value, and the mutable object whose methods are proved to perform those sections.
    Instants and durations are unbounded integers of nanoseconds. */
module Circuit {
  type Time = int

  datatype State = Closed | Open | HalfOpen

  datatype Core = Core(
    state: State,
    failures: int,
    threshold: int,
    cooldown: Time,
    lastFailTime: Time,
    probeInFlight: bool)

  /** What the first critical section of `Do` decides. */
  datatype Admission = AdmitClosed | AdmitProbe | RejectOpen | RejectHalfOpen

  /** How a running call was admitted; it decides which bookkeeping follows `fn`. */
  datatype Mode = ClosedCall | ProbeCall

  /** What `Do` returns: one of the two sentinel errors, or whatever `fn` returned. */
  datatype Outcome = ErrOpen | ErrHalfOpen | FnReturned(failed: bool)

  function Fresh(threshold: int, cooldown: Time): Core {
    Core(Closed, 0, threshold, cooldown, 0, false)
  }

  /** Failures in a row that trip a closed breaker; a threshold below one acts as one. */
  function TripLevel(threshold: int): int {
    if threshold < 1 then 1 else threshold
  }

  predicate Due(c: Core, now: Time) {
    c.state == Open && now - c.lastFailTime >= c.cooldown
  }

  function Poll(c: Core, now: Time): Core {
    if Due(c, now) then c.(state := HalfOpen, probeInFlight := false) else c
  }

  function Admit(c: Core, now: Time): (Core, Admission) {
    var p := Poll(c, now);
    match p.state
    case Open => (p, RejectOpen)
    case HalfOpen => if p.probeInFlight then (p, RejectHalfOpen) else (p.(probeInFlight := true), AdmitProbe)
    case Closed => (p, AdmitClosed)
  }

  function Tripped(c: Core, now: Time): Core {
    c.(state := Open, lastFailTime := now)
  }

  function Complete(c: Core, mode: Mode, failed: bool, now: Time): Core {
    match mode
    case ProbeCall =>
      var d := c.(probeInFlight := false);
      if failed then Tripped(d, now) else d.(state := Closed, failures := 0)
    case ClosedCall =>
      if failed then
        var d := c.(failures := c.failures + 1);
        if d.failures >= d.threshold then Tripped(d, now) else d
      else
        c.(failures := 0)
  }

  function Cleared(c: Core): Core {
    c.(state := Closed, failures := 0, probeInFlight := false)
  }

  /** A whole `Do` that no other call interleaves with. */
  function DoAlone(c: Core, start: Time, failed: bool, finish: Time): (Core, Outcome) {
    var (d, a) := Admit(c, start);
    match a
    case RejectOpen => (d, ErrOpen)
    case RejectHalfOpen => (d, ErrHalfOpen)
    case AdmitClosed => (Complete(d, ClosedCall, failed, finish), FnReturned(failed))
    case AdmitProbe => (Complete(d, ProbeCall, failed, finish), FnReturned(failed))
  }

  class Breaker {
    var state: State
    var failures: int
    const threshold: int
    const cooldown: Time
    var lastFailTime: Time
    var probeInFlight: bool

    ghost function View(): Core
      reads this
    {
      Core(state, failures, threshold, cooldown, lastFailTime, probeInFlight)
    }

    constructor (threshold: int, cooldown: Time)
      ensures View() == Fresh(threshold, cooldown)
    {
      this.threshold, this.cooldown := threshold, cooldown;
      state, failures, lastFailTime, probeInFlight := Closed, 0, 0, false;
    }

    method CurrentState(now: Time) returns (s: State)
      modifies this
      ensures View() == Poll(old(View()), now)
      ensures s == View().state
    {
      if state == Open && now - lastFailTime >= cooldown {
        state := HalfOpen;
        probeInFlight := false;
      }
      return state;
    }

    /** The critical section before `fn`. */
    method Enter(now: Time) returns (a: Admission)
      modifies this
      ensures (View(), a) == Admit(old(View()), now)
    {
      if state == Open && now - lastFailTime >= cooldown {
        state := HalfOpen;
        probeInFlight := false;
      }
      match state {
        case Open =>
          return RejectOpen;
        case HalfOpen =>
          if probeInFlight {
            return RejectHalfOpen;
          }
          probeInFlight := true;
          return AdmitProbe;
        case Closed =>
          return AdmitClosed;
      }
    }

    /** The critical section after `fn`, for a call admitted in `mode`. */
    method Leave(mode: Mode, failed: bool, now: Time)
      modifies this
      ensures View() == Complete(old(View()), mode, failed, now)
    {
      match mode {
        case ProbeCall =>
          probeInFlight := false;
          if failed {
            Trip(now);
          } else {
            state := Closed;
            failures := 0;
          }
        case ClosedCall =>
          if failed {
            failures := failures + 1;
            if failures >= threshold {
              Trip(now);
            }
          } else {
            failures := 0;
          }
      }
    }

    /** `fn` is represented by its verdict and by the instants at which it starts and returns. */
    method Do(start: Time, failed: bool, finish: Time) returns (r: Outcome)
      modifies this
      ensures (View(), r) == DoAlone(old(View()), start, failed, finish)
    {
      var a := Enter(start);
      match a {
        case RejectOpen =>
          return ErrOpen;
        case RejectHalfOpen =>
          return ErrHalfOpen;
        case AdmitProbe =>
          Leave(ProbeCall, failed, finish);
          return FnReturned(failed);
        case AdmitClosed =>
          Leave(ClosedCall, failed, finish);
          return FnReturned(failed);
      }
    }

    method Reset()
      modifies this
      ensures View() == Cleared(old(View()))
    {
      state := Closed;
      failures := 0;
      probeInFlight := false;
    }

    method Trip(now: Time)
      modifies this
      ensures View() == Tripped(old(View()), now)
    {
      state := Open;
      lastFailTime := now;
    }
  }
}
