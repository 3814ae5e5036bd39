/** Many goroutines sharing one breaker. `fn` runs outside the lock, so a run is an interleaving of
    critical sections: the one before `fn`, the one after it, `Reset` and `State`. A history that no
    step reads records what the theorems are about. */
module CircuitProtocol {
  import opened Wrappers
  import opened Circuit

  datatype Event =
    | Begin(id: nat, at: Time)
    | End(id: nat, failed: bool, at: Time)
    | Reset(at: Time)
    | Query(at: Time)

  /** The breaker, the latest instant seen, and the calls inside `fn` with the mode that admitted them. */
  datatype Sys = Sys(core: Core, clock: Time, calls: map<nat, Mode>)

  predicate Enabled(s: Sys, e: Event) {
    && s.clock <= e.at
    && (e.Begin? ==> e.id !in s.calls)
    && (e.End? ==> e.id in s.calls)
  }

  function StartCall(calls: map<nat, Mode>, id: nat, a: Admission): map<nat, Mode> {
    match a
    case AdmitClosed => calls[id := ClosedCall]
    case AdmitProbe => calls[id := ProbeCall]
    case _ => calls
  }

  function Step(s: Sys, e: Event): Sys
    requires Enabled(s, e)
  {
    match e
    case Begin(id, at) =>
      var (c, a) := Admit(s.core, at);
      Sys(c, at, StartCall(s.calls, id, a))
    case End(id, failed, at) => Sys(Complete(s.core, s.calls[id], failed, at), at, s.calls - {id})
    case Reset(at) => Sys(Cleared(s.core), at, s.calls)
    case Query(at) => Sys(Poll(s.core, at), at, s.calls)
  }

  /** A probe admission: which call, when, and in which half-open episode, counting from one. */
  datatype Probe = Probe(id: nat, at: Time, episode: nat)

  /** The events that bear on the failure counter, in lock order. */
  datatype Mark = ClosedDone(failed: bool) | ProbeDone(failed: bool) | WasReset

  datatype History = History(
    firstTrip: Option<Time>, // the first instant at which the breaker was left Open
    entries: seq<Time>,      // instants of the Open-to-HalfOpen moves
    probes: seq<Probe>,      // probe admissions
    closedStarts: nat,       // calls admitted in Closed mode
    lateStarts: nat,         // calls of either mode admitted after the first trip
    marks: seq<Mark>)

  datatype World = World(sys: Sys, hist: History)

  /** The history is read off the states before and after a step, not off the step's branches. */
  function Track(h: History, s: Sys, e: Event, t: Sys): History
    requires e.End? ==> e.id in s.calls
  {
    var entered := s.core.state == Open && t.core.state == HalfOpen;
    var entries := if entered then h.entries + [t.clock] else h.entries;
    var started := e.Begin? && e.id in t.calls;
    var probing := started && t.calls[e.id] == ProbeCall;
    History(
      if h.firstTrip.None? && t.core.state == Open then Some(t.clock) else h.firstTrip,
      entries,
      if probing then h.probes + [Probe(e.id, t.clock, |entries|)] else h.probes,
      if started && !probing then h.closedStarts + 1 else h.closedStarts,
      if started && h.firstTrip.Some? then h.lateStarts + 1 else h.lateStarts,
      match e
      case End(id, failed, _) => h.marks + [if s.calls[id] == ProbeCall then ProbeDone(failed) else ClosedDone(failed)]
      case Reset(_) => h.marks + [WasReset]
      case _ => h.marks)
  }

  function Next(w: World, e: Event): World
    requires Enabled(w.sys, e)
  {
    var t := Step(w.sys, e);
    World(t, Track(w.hist, w.sys, e, t))
  }

  function Init(threshold: int, cooldown: Time, now: Time): World {
    World(Sys(Fresh(threshold, cooldown), now, map[]), History(None, [], [], 0, 0, []))
  }

  /** `es` is a possible interleaving from `w`, and `p` holds of every step taken. */
  predicate Along(w: World, es: seq<Event>, p: (World, Event) -> bool)
    decreases |es|
  {
    es == [] || (Enabled(w.sys, es[0]) && p(w, es[0]) && Along(Next(w, es[0]), es[1..], p))
  }

  function Run(w: World, es: seq<Event>, p: (World, Event) -> bool): World
    requires Along(w, es, p)
    decreases |es|
  {
    if es == [] then w else Run(Next(w, es[0]), es[1..], p)
  }

  predicate AnyStep(w: World, e: Event) { true }

  /** `w` is what the interleaving `es` makes of a new breaker, with `p` holding of every step. */
  predicate Reaches(threshold: int, cooldown: Time, start: Time, es: seq<Event>, p: (World, Event) -> bool, w: World) {
    Along(Init(threshold, cooldown, start), es, p) && Run(Init(threshold, cooldown, start), es, p) == w
  }

  // Time: the half-open entries are a cooldown apart.

  function Times(n: nat, d: Time): Time {
    if n == 0 then 0 else Times(n - 1, d) + d
  }

  ghost predicate Timing(w: World) {
    var c, h := w.sys.core, w.hist;
    var n := |h.entries|;
    && (h.firstTrip.Some? ==> h.firstTrip.value <= w.sys.clock)
    && (c.state == HalfOpen ==> n > 0)
    && (c.state == Open ==> h.firstTrip.Some? && h.firstTrip.value <= c.lastFailTime <= w.sys.clock)
    && (c.state == Open && n > 0 ==> h.entries[n - 1] <= c.lastFailTime)
    && (n > 0 ==> h.firstTrip.Some? && h.firstTrip.value + Times(n, c.cooldown) <= h.entries[n - 1] <= w.sys.clock)
    && Spaced(h.entries, c.cooldown)
  }

  predicate Spaced(entries: seq<Time>, gap: Time) {
    forall i {:trigger entries[i]} :: 0 < i < |entries| ==> entries[i - 1] + gap <= entries[i]
  }

  lemma OneMoreSpaced(entries: seq<Time>, gap: Time, t: Time)
    requires Spaced(entries, gap) && (entries != [] ==> entries[|entries| - 1] + gap <= t)
    ensures Spaced(entries + [t], gap)
  {
  }

  /** What a step may do to the breaker's state and timer. */
  predicate Moves(c: Core, at: Time, d: Core) {
    && d.cooldown == c.cooldown
    && (d.state == Open ==> d.lastFailTime == at || (c.state == Open && d.lastFailTime == c.lastFailTime))
    && (d.state == HalfOpen ==> c.state == HalfOpen || (c.state == Open && at - c.lastFailTime >= c.cooldown))
  }

  lemma TimingKept(w: World, n: World)
    requires Timing(w) && w.sys.clock <= n.sys.clock && Moves(w.sys.core, n.sys.clock, n.sys.core)
    requires n.hist.firstTrip ==
             if w.hist.firstTrip.None? && n.sys.core.state == Open then Some(n.sys.clock) else w.hist.firstTrip
    requires n.hist.entries ==
             w.hist.entries + if w.sys.core.state == Open && n.sys.core.state == HalfOpen then [n.sys.clock] else []
    ensures Timing(n)
  {
    var k, gap := |w.hist.entries|, w.sys.core.cooldown;
    if w.sys.core.state == Open && n.sys.core.state == HalfOpen {
      assert Times(k + 1, gap) == Times(k, gap) + gap;
      OneMoreSpaced(w.hist.entries, gap, n.sys.clock);
    } else {
      assert n.hist.entries == w.hist.entries;
    }
  }

  lemma TimingStep(w: World, e: Event)
    requires Timing(w) && Enabled(w.sys, e)
    ensures Timing(Next(w, e)) && Next(w, e).sys.core.cooldown == w.sys.core.cooldown
  {
    assert Moves(w.sys.core, e.at, Step(w.sys, e).core);
    TimingKept(w, Next(w, e));
  }

  // Episodes: each admits one probe, and a set flag means that probe is running.

  ghost predicate ProbesOrdered(h: History) {
    var n, k := |h.entries|, |h.probes|;
    && (k > 0 ==> k <= h.probes[k - 1].episode <= n)
    && (forall i, j :: 0 <= i < j < k ==> h.probes[i].episode < h.probes[j].episode)
    && (forall i :: 0 <= i < k ==> 1 <= h.probes[i].episode <= n)
  }

  ghost predicate Episodes(w: World) {
    var c, h := w.sys.core, w.hist;
    var n, k := |h.entries|, |h.probes|;
    && ProbesOrdered(h)
    && (c.state == HalfOpen ==> n > 0)
    && (c.state == HalfOpen && !c.probeInFlight && k > 0 ==> h.probes[k - 1].episode < n)
    && (c.state == HalfOpen && c.probeInFlight ==>
          && k > 0
          && h.probes[k - 1].episode == n
          && h.probes[k - 1].id in w.sys.calls
          && w.sys.calls[h.probes[k - 1].id] == ProbeCall)
  }

  lemma ProbesOrderedKept(h: History, n: History)
    requires ProbesOrdered(h) && |h.entries| <= |n.entries|
    requires |n.probes| > |h.probes| ==>
               && n.probes[..|h.probes|] == h.probes
               && |n.probes| == |h.probes| + 1
               && n.probes[|h.probes|].episode == |n.entries| > 0
               && (h.probes != [] ==> h.probes[|h.probes| - 1].episode < |n.entries|)
    requires |n.probes| <= |h.probes| ==> n.probes == h.probes
    ensures ProbesOrdered(n)
  {
  }

  lemma EpisodesStep(w: World, e: Event)
    requires Episodes(w) && Enabled(w.sys, e)
    ensures Episodes(Next(w, e))
  {
    ProbesOrderedKept(w.hist, Next(w, e).hist);
  }

  lemma {:induction false} InvariantsRun(w: World, es: seq<Event>, p: (World, Event) -> bool)
    requires Timing(w) && Episodes(w) && Along(w, es, p)
    ensures Timing(Run(w, es, p)) && Episodes(Run(w, es, p))
    ensures Run(w, es, p).sys.core.cooldown == w.sys.core.cooldown
    decreases |es|
  {
    if es != [] {
      TimingStep(w, es[0]);
      EpisodesStep(w, es[0]);
      InvariantsRun(Next(w, es[0]), es[1..], p);
    }
  }

  lemma TimesIsProduct(n: nat, d: Time)
    ensures Times(n, d) == n * d
  {
  }

  lemma PositiveFactor(k: int, c: int)
    requires c > 0 && k * c > 0
    ensures k > 0
  {
  }

  lemma QuotientBound(n: nat, c: int, d: int)
    requires c > 0 && Times(n, c) <= d
    ensures n <= d / c
  {
    TimesIsProduct(n, c);
    var k := d / c + 1 - n;
    assert k * c == (d / c) * c + c - n * c;
    PositiveFactor(k, c);
  }

  lemma EntriesWithin(w: World, t: Time)
    requires Timing(w) && w.sys.clock <= t && w.sys.core.cooldown > 0 && w.hist.firstTrip.Some?
    ensures |w.hist.entries| <= (t - w.hist.firstTrip.value) / w.sys.core.cooldown
  {
    QuotientBound(|w.hist.entries|, w.sys.core.cooldown, t - w.hist.firstTrip.value);
  }

  lemma ProbesWithin(w: World, t: Time)
    requires Timing(w) && Episodes(w) && w.sys.clock <= t && w.sys.core.cooldown > 0 && w.hist.firstTrip.Some?
    ensures |w.hist.probes| <= |w.hist.entries|
    ensures |w.hist.probes| <= (t - w.hist.firstTrip.value) / w.sys.core.cooldown
  {
    EntriesWithin(w, t);
  }

  lemma ReachesInvariants(threshold: int, cooldown: Time, start: Time,
                          es: seq<Event>, p: (World, Event) -> bool, w: World)
    requires Reaches(threshold, cooldown, start, es, p, w)
    ensures Timing(w) && Episodes(w) && w.sys.core.cooldown == cooldown
  {
    InvariantsRun(Init(threshold, cooldown, start), es, p);
  }

  /** Probe budget, for every interleaving with stale completions and Resets: entries to HalfOpen are
      a cooldown apart, no two probes share an episode, and so with a positive cooldown there have been
      at most (t - first trip) / cooldown probes by any instant `t`. */
  lemma ProbeBudget(threshold: int, cooldown: Time, start: Time, es: seq<Event>, w: World, t: Time)
    requires Reaches(threshold, cooldown, start, es, AnyStep, w) && w.sys.clock <= t
    ensures forall i :: 0 < i < |w.hist.entries| ==> w.hist.entries[i - 1] + cooldown <= w.hist.entries[i]
    ensures forall i, j :: 0 <= i < j < |w.hist.probes| ==> w.hist.probes[i].episode < w.hist.probes[j].episode
    ensures |w.hist.probes| <= |w.hist.entries|
    ensures w.hist.firstTrip.None? ==> w.hist.entries == []
    ensures cooldown > 0 && w.hist.firstTrip.Some? ==> |w.hist.probes| <= (t - w.hist.firstTrip.value) / cooldown
  {
    ReachesInvariants(threshold, cooldown, start, es, AnyStep, w);
    if cooldown > 0 && w.hist.firstTrip.Some? {
      ProbesWithin(w, t);
    }
  }

  /** No wedging: a half-open breaker refusing calls has its own episode's probe inside `fn`. */
  lemma NoWedging(threshold: int, cooldown: Time, start: Time, es: seq<Event>, w: World)
    requires Reaches(threshold, cooldown, start, es, AnyStep, w)
    requires w.sys.core.state == HalfOpen && w.sys.core.probeInFlight
    ensures exists p :: p in w.hist.probes && p.episode == |w.hist.entries|
                        && p.id in w.sys.calls && w.sys.calls[p.id] == ProbeCall
  {
    ReachesInvariants(threshold, cooldown, start, es, AnyStep, w);
    assert w.hist.probes[|w.hist.probes| - 1] in w.hist.probes;
  }

  /** The flag is set only by a probe that is still inside `fn`, and never on a closed breaker. */
  ghost predicate FlagHeld(w: World) {
    var k := |w.hist.probes|;
    w.sys.core.probeInFlight ==>
      && w.sys.core.state != Closed
      && k > 0 && w.hist.probes[k - 1].id in w.sys.calls && w.sys.calls[w.hist.probes[k - 1].id] == ProbeCall
  }

  lemma FlagStep(w: World, e: Event)
    requires FlagHeld(w) && Enabled(w.sys, e)
    ensures FlagHeld(Next(w, e))
  {
  }

  lemma {:induction false} FlagRun(w: World, es: seq<Event>, p: (World, Event) -> bool)
    requires FlagHeld(w) && Along(w, es, p)
    ensures FlagHeld(Run(w, es, p))
    decreases |es|
  {
    if es != [] {
      FlagStep(w, es[0]);
      FlagRun(Next(w, es[0]), es[1..], p);
    }
  }

  /** In every interleaving: a set flag belongs to the latest probe, which is still inside `fn`, and a closed
      breaker has none. So every completion of a probe and every Reset gives the flag back. */
  lemma FlagIsLatestProbe(threshold: int, cooldown: Time, start: Time, es: seq<Event>, w: World)
    requires Reaches(threshold, cooldown, start, es, AnyStep, w)
    requires w.sys.core.probeInFlight
    ensures w.sys.core.state != Closed
    ensures w.hist.probes != [] && w.hist.probes[|w.hist.probes| - 1].id in w.sys.calls
    ensures w.sys.calls[w.hist.probes[|w.hist.probes| - 1].id] == ProbeCall
  {
    FlagRun(Init(threshold, cooldown, start), es, AnyStep);
  }

  // Exclusivity: conditional, because a stale Closed-mode failure or a Reset can free the flag early.

  predicate OneProbe(s: Sys) {
    forall i, j :: i in s.calls && j in s.calls && s.calls[i] == ProbeCall && s.calls[j] == ProbeCall ==> i == j
  }

  /** No Reset, and no Closed-mode call inside `fn` when the breaker turns half-open. */
  predicate CleanEntry(w: World, e: Event) {
    && !e.Reset?
    && ((e.Begin? || e.Query?) && Due(w.sys.core, e.at) ==>
          forall i :: i in w.sys.calls ==> w.sys.calls[i] == ProbeCall)
  }

  ghost predicate Exclusive(s: Sys) {
    && OneProbe(s)
    && (s.core.state == HalfOpen ==>
          forall i :: i in s.calls ==> s.calls[i] == ProbeCall && s.core.probeInFlight)
    && (s.core.state != HalfOpen ==> forall i :: i in s.calls ==> s.calls[i] == ClosedCall)
  }

  lemma ExclusiveStep(w: World, e: Event)
    requires Exclusive(w.sys) && Enabled(w.sys, e) && CleanEntry(w, e)
    ensures Exclusive(Next(w, e).sys)
  {
  }

  lemma {:induction false} ExclusiveRun(w: World, es: seq<Event>)
    requires Exclusive(w.sys) && Along(w, es, CleanEntry)
    ensures Exclusive(Run(w, es, CleanEntry).sys)
    decreases |es|
  {
    if es != [] {
      ExclusiveStep(w, es[0]);
      ExclusiveRun(Next(w, es[0]), es[1..]);
    }
  }

  lemma SingleProbe(threshold: int, cooldown: Time, start: Time, es: seq<Event>, w: World)
    requires Reaches(threshold, cooldown, start, es, CleanEntry, w)
    ensures OneProbe(w.sys)
  {
    ExclusiveRun(Init(threshold, cooldown, start), es);
  }

  /** The exact step at which exclusivity is lost: a Begin that finds the half-open gate free while a
      probe of an earlier episode is still inside `fn`. */
  lemma ExclusivityLostIff(s: Sys, e: Event)
    requires Enabled(s, e) && OneProbe(s)
    ensures OneProbe(Step(s, e)) <==>
            !(&& e.Begin?
              && (Due(s.core, e.at) || (s.core.state == HalfOpen && !s.core.probeInFlight))
              && exists i :: i in s.calls && s.calls[i] == ProbeCall)
  {
    var t := Step(s, e);
    if e.Begin? && (Due(s.core, e.at) || (s.core.state == HalfOpen && !s.core.probeInFlight)) {
      assert t.calls[e.id] == ProbeCall;
      if i :| i in s.calls && s.calls[i] == ProbeCall {
        assert t.calls[i] == ProbeCall && i != e.id;
      }
    }
  }

  /** Exclusivity does fail: a slow Closed-mode call trips the breaker while a probe is running, and
      the next episode admits a second probe beside it. */
  lemma TwoProbesPossible(cooldown: Time)
    requires cooldown > 0
    ensures
      var es := [Begin(0, 0), Begin(1, 0), End(1, true, 0), Begin(2, cooldown), End(0, true, cooldown),
                 Begin(3, 2 * cooldown)];
      var w := Init(1, cooldown, 0);
      Along(w, es, AnyStep) && !OneProbe(Run(w, es, AnyStep).sys)
  {
    var es := [Begin(0, 0), Begin(1, 0), End(1, true, 0), Begin(2, cooldown), End(0, true, cooldown),
               Begin(3, 2 * cooldown)];
    var w := Init(1, cooldown, 0);
    var w1 := Next(w, es[0]);
    var w2 := Next(w1, es[1]);
    var w3 := Next(w2, es[2]);
    var w4 := Next(w3, es[3]);
    var w5 := Next(w4, es[4]);
    var w6 := Next(w5, es[5]);
    assert w6.sys.calls[2] == ProbeCall && w6.sys.calls[3] == ProbeCall;
    assert es[1..][1..][1..][1..][1..][1..] == [];
    assert Along(w5, es[1..][1..][1..][1..][1..], AnyStep) && Run(w5, es[1..][1..][1..][1..][1..], AnyStep) == w6;
    assert Along(w4, es[1..][1..][1..][1..], AnyStep) && Run(w4, es[1..][1..][1..][1..], AnyStep) == w6;
    assert Along(w3, es[1..][1..][1..], AnyStep) && Run(w3, es[1..][1..][1..], AnyStep) == w6;
    assert Along(w2, es[1..][1..], AnyStep) && Run(w2, es[1..][1..], AnyStep) == w6;
    assert Along(w1, es[1..], AnyStep) && Run(w1, es[1..], AnyStep) == w6;
  }

  // Load shedding on a dead dependency.

  /** Every `fn` fails and nobody resets the breaker. */
  predicate DeadDependency(w: World, e: Event) {
    !e.Reset? && (e.End? ==> e.failed)
  }

  /** As above, and no call overlaps another. */
  predicate DeadAndSequential(w: World, e: Event) {
    DeadDependency(w, e) && (e.Begin? ==> w.sys.calls == map[])
  }

  ghost predicate Shedding(w: World) {
    var c, h := w.sys.core, w.hist;
    && (h.firstTrip.None? ==> c.state == Closed && h.lateStarts == 0 && h.probes == [])
    && (h.firstTrip.Some? ==> c.state != Closed && h.lateStarts == |h.probes|)
  }

  lemma {:induction false} SheddingRun(w: World, es: seq<Event>, p: (World, Event) -> bool)
    requires Shedding(w) && Along(w, es, p)
    requires forall v, e :: p(v, e) ==> DeadDependency(v, e)
    ensures Shedding(Run(w, es, p))
    decreases |es|
  {
    if es != [] {
      assert DeadDependency(w, es[0]);
      SheddingRun(Next(w, es[0]), es[1..], p);
    }
  }

  /** Under any interleaving, calls that start `fn` after the first trip number at most
      (t - first trip) / cooldown. */
  lemma LoadShed(threshold: int, cooldown: Time, start: Time, es: seq<Event>, w: World, t: Time)
    requires Reaches(threshold, cooldown, start, es, DeadDependency, w)
    requires cooldown > 0 && w.sys.clock <= t && w.hist.firstTrip.Some?
    ensures w.hist.lateStarts <= (t - w.hist.firstTrip.value) / cooldown
  {
    ReachesInvariants(threshold, cooldown, start, es, DeadDependency, w);
    SheddingRun(Init(threshold, cooldown, start), es, DeadDependency);
    EntriesWithin(w, t);
  }

  ghost predicate Thrifty(w: World) {
    var c, h := w.sys.core, w.hist;
    && (forall i, j :: i in w.sys.calls && j in w.sys.calls ==> i == j)
    && h.closedStarts <= TripLevel(c.threshold)
    && (h.firstTrip.None? ==> c.state == Closed && 0 <= c.failures < TripLevel(c.threshold))
    && (h.firstTrip.None? && w.sys.calls == map[] ==> h.closedStarts == c.failures)
    && (h.firstTrip.None? && w.sys.calls != map[] ==> h.closedStarts == c.failures + 1)
    && (h.firstTrip.Some? ==> c.state != Closed)
  }

  lemma ThriftyStep(w: World, e: Event)
    requires Thrifty(w) && Enabled(w.sys, e) && DeadAndSequential(w, e)
    ensures Thrifty(Next(w, e))
  {
  }

  lemma {:induction false} ThriftyRun(w: World, es: seq<Event>)
    requires Thrifty(w) && Along(w, es, DeadAndSequential)
    ensures Thrifty(Run(w, es, DeadAndSequential))
    ensures Run(w, es, DeadAndSequential).sys.core.threshold == w.sys.core.threshold
    decreases |es|
  {
    if es != [] {
      ThriftyStep(w, es[0]);
      ThriftyRun(Next(w, es[0]), es[1..]);
    }
  }

  /** In sequential runs all calls that ever start `fn` number at most max(threshold, 1) plus that. */
  lemma SequentialLoadShed(threshold: int, cooldown: Time, start: Time, es: seq<Event>, w: World, t: Time)
    requires Reaches(threshold, cooldown, start, es, DeadAndSequential, w)
    requires cooldown > 0 && w.sys.clock <= t
    ensures w.hist.firstTrip.None? ==> w.hist.closedStarts + |w.hist.probes| <= TripLevel(threshold)
    ensures w.hist.firstTrip.Some? ==>
              w.hist.closedStarts + |w.hist.probes| <= TripLevel(threshold) + (t - w.hist.firstTrip.value) / cooldown
  {
    ReachesInvariants(threshold, cooldown, start, es, DeadAndSequential, w);
    SheddingRun(Init(threshold, cooldown, start), es, DeadAndSequential);
    ThriftyRun(Init(threshold, cooldown, start), es);
    if w.hist.firstTrip.Some? {
      ProbesWithin(w, t);
    }
  }

  // The failure counter as a function of history.

  predicate Clears(m: Mark) {
    m == ClosedDone(false) || m == ProbeDone(false) || m == WasReset
  }

  /** Failed Closed-mode completions among the marks from position `from` on. */
  function CountFailed(marks: seq<Mark>, from: nat): nat {
    if |marks| <= from then 0
    else CountFailed(marks[..|marks| - 1], from) + if marks[|marks| - 1] == ClosedDone(true) then 1 else 0
  }

  /** Where the current run of failures starts: just after the last clearing event. */
  function LastClear(marks: seq<Mark>): (s: nat)
    ensures s <= |marks|
    ensures s > 0 ==> Clears(marks[s - 1])
    ensures forall i :: s <= i < |marks| ==> !Clears(marks[i])
  {
    if marks == [] then 0
    else if Clears(marks[|marks| - 1]) then |marks|
    else LastClear(marks[..|marks| - 1])
  }

  /** `n` failures in a row are on record and the breaker agrees. */
  ghost predicate Agrees(c: Core, n: nat) {
    && c.failures == n
    && (c.state == Closed ==> n < TripLevel(c.threshold))
  }

  ghost predicate Counted(w: World) {
    Agrees(w.sys.core, CountFailed(w.hist.marks, LastClear(w.hist.marks)))
  }

  lemma MarkAppended(marks: seq<Mark>, m: Mark)
    ensures LastClear(marks + [m]) == if Clears(m) then |marks| + 1 else LastClear(marks)
    ensures CountFailed(marks + [m], LastClear(marks + [m]))
            == if Clears(m) then 0 else CountFailed(marks, LastClear(marks)) + if m == ClosedDone(true) then 1 else 0
  {
  }

  lemma LastClearUnique(marks: seq<Mark>, s: nat)
    requires s <= |marks|
    requires s > 0 ==> Clears(marks[s - 1])
    requires forall i :: s <= i < |marks| ==> !Clears(marks[i])
    ensures LastClear(marks) == s
  {
  }

  /** The mark an event leaves, if any. */
  function MarkOf(s: Sys, e: Event): seq<Mark>
    requires Enabled(s, e)
  {
    match e
    case End(id, failed, _) => [if s.calls[id] == ProbeCall then ProbeDone(failed) else ClosedDone(failed)]
    case Reset(_) => [WasReset]
    case _ => []
  }

  lemma AgreesStep(s: Sys, e: Event, n: nat)
    requires Enabled(s, e) && Agrees(s.core, n)
    ensures MarkOf(s, e) == [] ==> Agrees(Step(s, e).core, n)
    ensures MarkOf(s, e) != [] ==>
              var m := MarkOf(s, e)[0];
              Agrees(Step(s, e).core, if Clears(m) then 0 else n + if m == ClosedDone(true) then 1 else 0)
    ensures Step(s, e).core.threshold == s.core.threshold
  {
  }

  lemma CountedStep(w: World, e: Event)
    requires Counted(w) && Enabled(w.sys, e)
    ensures Counted(Next(w, e)) && Next(w, e).sys.core.threshold == w.sys.core.threshold
  {
    AgreesStep(w.sys, e, CountFailed(w.hist.marks, LastClear(w.hist.marks)));
    var ms := MarkOf(w.sys, e);
    assert Next(w, e).hist.marks == w.hist.marks + ms;
    if ms == [] {
      assert w.hist.marks + ms == w.hist.marks;
    } else {
      assert ms == [ms[0]];
      MarkAppended(w.hist.marks, ms[0]);
    }
  }

  lemma {:induction false} CountedRun(w: World, es: seq<Event>)
    requires Counted(w) && Along(w, es, AnyStep)
    ensures Counted(Run(w, es, AnyStep)) && Run(w, es, AnyStep).sys.core.threshold == w.sys.core.threshold
    decreases |es|
  {
    if es != [] {
      CountedStep(w, es[0]);
      CountedRun(Next(w, es[0]), es[1..]);
    }
  }

  /** In every interleaving `failures` counts the failed Closed-mode completions since the last
      Closed-mode success, probe success or Reset; a Closed breaker is below its trip level; and a
      Closed-mode completion leaves the breaker tripped at its own instant exactly when it extends that
      run to the threshold. */
  lemma FailuresAreHistory(threshold: int, cooldown: Time, start: Time, es: seq<Event>, w: World, s: nat)
    requires Reaches(threshold, cooldown, start, es, AnyStep, w)
    requires s <= |w.hist.marks|
    requires s > 0 ==> Clears(w.hist.marks[s - 1])
    requires forall i :: s <= i < |w.hist.marks| ==> !Clears(w.hist.marks[i])
    ensures w.sys.core.failures == CountFailed(w.hist.marks, s)
    ensures w.sys.core.state == Closed ==> CountFailed(w.hist.marks, s) < TripLevel(threshold)
    ensures forall id, failed, at | Enabled(w.sys, End(id, failed, at)) && w.sys.calls[id] == ClosedCall ::
              var c := Step(w.sys, End(id, failed, at)).core;
              if failed && CountFailed(w.hist.marks, s) + 1 >= threshold then c.state == Open && c.lastFailTime == at
              else c.state == w.sys.core.state && c.lastFailTime == w.sys.core.lastFailTime
  {
    CountedRun(Init(threshold, cooldown, start), es);
    LastClearUnique(w.hist.marks, s);
  }

  /** A call nobody interleaves with is two adjacent steps, or one if it is refused. */
  lemma DoAloneIsSteps(s: Sys, id: nat, start: Time, failed: bool, finish: Time)
    requires Enabled(s, Begin(id, start)) && start <= finish
    ensures
      var b := Step(s, Begin(id, start));
      var (c, r) := DoAlone(s.core, start, failed, finish);
      if r.FnReturned? then
        Enabled(b, End(id, failed, finish)) && Step(b, End(id, failed, finish)) == Sys(c, finish, s.calls)
      else
        b == Sys(c, start, s.calls)
  {
  }
}
