/** The bulkhead: a buffered channel used as a counting semaphore. */
module Bulkhead {
  import opened Wrappers

  datatype Error = ErrFull | ContextDone

  // What each operation does to the slots and to the clients that hold them.

  type Id = nat

  /** `holders` have acquired and not released; `strays` counts releases by clients that held nothing.
      Neither is part of the program's state. An id stands for one attempt to acquire. */
  datatype State = State(capacity: nat, used: nat, holders: set<Id>, strays: nat)

  /** The first four are what one call of the object does. The last is two calls at once. */
  datatype Event =
    | Acquired(id: Id)                     // the send of Acquire or TryAcquire goes through
    | Cancelled(id: Id)                    // Acquire returns the context's error
    | Refused(id: Id)                      // TryAcquire returns ErrFull
    | Released(who: Option<Id>)             // by a holder, or by a client that holds nothing
    | HandedOver(id: Id, who: Option<Id>)   // a send meets a receive that waits on the empty channel

  predicate Enabled(s: State, e: Event) {
    match e
    case Acquired(id) => s.used < s.capacity && id !in s.holders
    case Cancelled(id) => id !in s.holders
    case Refused(id) => s.used == s.capacity && id !in s.holders
    case Released(who) => s.used > 0 && (who.Some? ==> who.value in s.holders)
    case HandedOver(id, who) => s.used == 0 && id !in s.holders && (who.Some? ==> who.value in s.holders)
  }

  function Without(holders: set<Id>, who: Option<Id>): set<Id> {
    if who.Some? then holders - {who.value} else holders
  }

  function Stray(who: Option<Id>): nat {
    if who.Some? then 0 else 1
  }

  function Step(s: State, e: Event): State
    requires Enabled(s, e)
  {
    match e
    case Acquired(id) => s.(used := s.used + 1, holders := s.holders + {id})
    case Cancelled(_) => s
    case Refused(_) => s
    case Released(who) => s.(used := s.used - 1, holders := Without(s.holders, who), strays := s.strays + Stray(who))
    case HandedOver(id, who) => s.(holders := Without(s.holders, who) + {id}, strays := s.strays + Stray(who))
  }

  function New(capacity: nat): State {
    State(capacity, 0, {}, 0)
  }

  function Free(s: State): int {
    s.capacity - s.used
  }

  ghost predicate Balanced(s: State) {
    s.used <= s.capacity && |s.holders| == s.used + s.strays
  }

  predicate Possible(s: State, es: seq<Event>)
    decreases |es|
  {
    es == [] || (Enabled(s, es[0]) && Possible(Step(s, es[0]), es[1..]))
  }

  function Run(s: State, es: seq<Event>): State
    requires Possible(s, es)
    decreases |es|
  {
    if es == [] then s else Run(Step(s, es[0]), es[1..])
  }

  /** The steps of an uninterrupted `Do`. */
  function DoSteps(id: Id, ran: bool): seq<Event> {
    if ran then [Acquired(id), Released(Some(id))] else [Cancelled(id)]
  }

  lemma DoIsSteps(s: State, id: Id, ran: bool)
    requires id !in s.holders && (ran ==> s.used < s.capacity)
    ensures Possible(s, DoSteps(id, ran)) && Run(s, DoSteps(id, ran)) == s
  {
    var es := DoSteps(id, ran);
    if ran {
      var t := Step(s, Acquired(id));
      assert es[1..] == [Released(Some(id))] && es[1..][1..] == [];
      assert s.holders + {id} - {id} == s.holders;
      assert Step(t, Released(Some(id))) == s;
      assert Run(t, es[1..]) == s;
    } else {
      assert es[1..] == [];
    }
  }

  class Bulkhead {
    const capacity: nat
    var used: nat // values buffered in the channel
    ghost var holders: set<Id>
    ghost var strays: nat

    ghost function View(): State
      reads this
    {
      State(capacity, used, holders, strays)
    }

    ghost predicate Valid()
      reads this
    {
      Balanced(View())
    }

    /** The channel cannot be made with a negative capacity. */
    constructor (maxConcurrent: int)
      requires maxConcurrent >= 0
      ensures Valid() && View() == New(maxConcurrent)
    {
      capacity, used, holders, strays := maxConcurrent, 0, {}, 0;
    }

    /** A select of the send and of the context. The method is called at the instant it returns, so one of
        them is ready; if both are, `preferSlot` is the choice the runtime makes. */
    method Acquire(done: bool, preferSlot: bool, ghost id: Id) returns (err: Option<Error>)
      requires Valid() && id !in holders && (used < capacity || done)
      modifies this
      ensures Valid()
      ensures err == if old(used) < capacity && (preferSlot || !done) then None else Some(ContextDone)
      ensures Enabled(old(View()), if err.None? then Acquired(id) else Cancelled(id))
      ensures View() == Step(old(View()), if err.None? then Acquired(id) else Cancelled(id))
    {
      if used < capacity && (preferSlot || !done) {
        used := used + 1;
        holders := holders + {id};
        return None;
      }
      return Some(ContextDone);
    }

    method TryAcquire(ghost id: Id) returns (err: Option<Error>)
      requires Valid() && id !in holders
      modifies this
      ensures Valid()
      ensures err == if old(used) < capacity then None else Some(ErrFull)
      ensures Enabled(old(View()), if err.None? then Acquired(id) else Refused(id))
      ensures View() == Step(old(View()), if err.None? then Acquired(id) else Refused(id))
    {
      if used < capacity {
        used := used + 1;
        holders := holders + {id};
        return None;
      }
      return Some(ErrFull);
    }

    /** A receive, called at the instant it goes through; on an empty channel it would block. */
    method Release(ghost who: Option<Id>)
      requires Valid() && used > 0 && (who.Some? ==> who.value in holders)
      modifies this
      ensures Valid()
      ensures Enabled(old(View()), Released(who)) && View() == Step(old(View()), Released(who))
    {
      used := used - 1;
      holders, strays := Without(holders, who), strays + Stray(who);
    }

    /** A `Do` that no other call comes between. `fn` is represented by the error it returns, and the slot is
        given back whatever that is. */
    method Do<E>(done: bool, preferSlot: bool, fn: Option<E>, refused: E, ghost id: Id)
      returns (err: Option<E>, ran: bool)
      requires Valid() && id !in holders && (used < capacity || done)
      modifies this
      ensures Valid() && View() == old(View())
      ensures ran == (old(used) < capacity && (preferSlot || !done))
      ensures err == if ran then fn else Some(refused)
      ensures Possible(old(View()), DoSteps(id, ran)) && View() == Run(old(View()), DoSteps(id, ran))
    {
      ghost var before := holders;
      var e := Acquire(done, preferSlot, id);
      if e.Some? {
        DoIsSteps(old(View()), id, false);
        return Some(refused), false;
      }
      Release(Some(id));
      assert before + {id} - {id} == before;
      DoIsSteps(old(View()), id, true);
      return fn, true;
    }

    method Available() returns (n: nat)
      requires Valid()
      ensures n == Free(View())
    {
      return capacity - used;
    }
  }

  // Interleavings of many clients.

  lemma BalancedStep(s: State, e: Event)
    requires Balanced(s) && Enabled(s, e)
    ensures Balanced(Step(s, e)) && Step(s, e).capacity == s.capacity
  {
  }

  lemma {:induction false} BalancedRun(s: State, es: seq<Event>)
    requires Balanced(s) && Possible(s, es)
    ensures Balanced(Run(s, es)) && Run(s, es).capacity == s.capacity
    decreases |es|
  {
    if es != [] {
      BalancedStep(s, es[0]);
      BalancedRun(Step(s, es[0]), es[1..]);
    }
  }

  /** Conservation in every interleaving, disciplined or not: holders and free slots add up to the
      capacity plus the releases nobody was entitled to. */
  lemma SlotsConserved(capacity: nat, es: seq<Event>)
    requires Possible(New(capacity), es)
    ensures
      var s := Run(New(capacity), es);
      && |s.holders| + Free(s) == capacity + s.strays
      && 0 <= Free(s) <= capacity
  {
    BalancedRun(New(capacity), es);
  }

  /** Every release is matched by an earlier successful acquire of the same client. */
  predicate Disciplined(es: seq<Event>) {
    forall i :: 0 <= i < |es| ==>
      (es[i].Released? ==> es[i].who.Some?) && (es[i].HandedOver? ==> es[i].who.Some?)
  }

  /** Strays are counted exactly: there are new ones if and only if some release was not a holder's. */
  lemma {:induction false} StraysCounted(s: State, es: seq<Event>)
    requires Possible(s, es)
    ensures Run(s, es).strays >= s.strays
    ensures Disciplined(es) <==> Run(s, es).strays == s.strays
    decreases |es|
  {
    if es != [] {
      StraysCounted(Step(s, es[0]), es[1..]);
      assert Disciplined(es) <==> Disciplined([es[0]]) && Disciplined(es[1..]) by {
        assert es == [es[0]] + es[1..];
      }
    }
  }

  lemma {:induction false} Contained(a: set<Id>, b: set<Id>)
    requires a <= b
    ensures |a| <= |b|
  {
    assert b == a + (b - a);
  }

  lemma HoldersUse(s: State, id: Id)
    requires Balanced(s) && s.strays == 0 && id in s.holders
    ensures Enabled(s, Released(Some(id)))
  {
    Contained({id}, s.holders);
  }

  /** Never more than the capacity inside, every slot accounted for, a holder's release never blocks, only a
      full bulkhead refuses, and a cancelled attempt takes nothing. */
  ghost predicate Orderly(s: State, id: Id) {
    && |s.holders| <= s.capacity
    && |s.holders| + Free(s) == s.capacity
    && (id in s.holders ==> Enabled(s, Released(Some(id))))
    && (id !in s.holders ==> (Enabled(s, Acquired(id)) <==> |s.holders| < s.capacity))
    && (id !in s.holders ==> Step(s, Cancelled(id)) == s)
  }

  lemma NoStraysOrderly(s: State, id: Id)
    requires Balanced(s) && s.strays == 0
    ensures Orderly(s, id)
  {
    if id in s.holders {
      HoldersUse(s, id);
    }
  }

  /** So it is after every run of clients that release once per successful acquire. */
  lemma BulkheadHolds(capacity: nat, es: seq<Event>, id: Id)
    requires Possible(New(capacity), es) && Disciplined(es)
    ensures Run(New(capacity), es).capacity == capacity && Orderly(Run(New(capacity), es), id)
  {
    BalancedRun(New(capacity), es);
    StraysCounted(New(capacity), es);
    NoStraysOrderly(Run(New(capacity), es), id);
  }

  /** A run and its cancelled and refused attempts: dropping them changes nothing. */
  function Effective(es: seq<Event>): seq<Event> {
    if es == [] then []
    else (if es[0].Cancelled? || es[0].Refused? then [] else [es[0]]) + Effective(es[1..])
  }

  /** A cancelled Acquire or a refused TryAcquire leaks no slot: the run without them ends the same. */
  lemma {:induction false} FailedAttemptsLeaveNoTrace(s: State, es: seq<Event>)
    requires Possible(s, es)
    ensures Possible(s, Effective(es)) && Run(s, Effective(es)) == Run(s, es)
    decreases |es|
  {
    if es != [] {
      FailedAttemptsLeaveNoTrace(Step(s, es[0]), es[1..]);
      if es[0].Cancelled? || es[0].Refused? {
        assert [] + Effective(es[1..]) == Effective(es[1..]);
      } else {
        assert ([es[0]] + Effective(es[1..]))[1..] == Effective(es[1..]);
      }
    }
  }

  // When the limit holds.

  lemma {:induction false} Above(ids: set<Id>) returns (n: Id)
    ensures forall id :: id in ids ==> id < n
    decreases |ids|
  {
    if ids == {} {
      n := 0;
    } else {
      var x :| x in ids;
      var m := Above(ids - {x});
      n := if m <= x then x + 1 else m;
      assert forall id :: id in ids ==> id == x || id in ids - {x};
    }
  }

  /** New clients can come until no slot is free. */
  lemma {:induction false} FillUp(s: State) returns (more: seq<Event>)
    requires Balanced(s)
    ensures Possible(s, more) && Disciplined(more) && Run(s, more).used == s.capacity
    decreases s.capacity - s.used
  {
    if s.used == s.capacity {
      more := [];
    } else {
      var id := Above(s.holders);
      var rest := FillUp(Step(s, Acquired(id)));
      more := [Acquired(id)] + rest;
      assert more[1..] == rest;
    }
  }

  /** No more clients inside than maxConcurrent. */
  ghost predicate WithinLimit(s: State) {
    |s.holders| <= s.capacity
  }

  /** Whatever disciplined clients do from here on stays within the limit. */
  ghost predicate LimitKept(s: State) {
    forall more :: Possible(s, more) && Disciplined(more) ==> WithinLimit(Run(s, more))
  }

  /** Exactly when the limit holds: after a run the bulkhead keeps disciplined clients to maxConcurrent from
      then on if and only if every release so far was by a client that held a slot. One stray release is
      never made good. */
  lemma LimitKeptIff(capacity: nat, es: seq<Event>)
    requires Possible(New(capacity), es)
    ensures LimitKept(Run(New(capacity), es)) <==> Disciplined(es)
  {
    var s := Run(New(capacity), es);
    BalancedRun(New(capacity), es);
    StraysCounted(New(capacity), es);
    if Disciplined(es) {
      forall more | Possible(s, more) && Disciplined(more) ensures WithinLimit(Run(s, more)) {
        BalancedRun(s, more);
        StraysCounted(s, more);
      }
    } else {
      var more := FillUp(s);
      BalancedRun(s, more);
      StraysCounted(s, more);
      assert !WithinLimit(Run(s, more));
    }
  }

  /** A new client can take the bulkhead over its limit. */
  ghost predicate CanExceed(s: State) {
    exists id :: Enabled(s, Acquired(id)) && !WithinLimit(Step(s, Acquired(id)))
  }

  lemma CanExceedIff(s: State)
    requires Balanced(s) && WithinLimit(s)
    ensures CanExceed(s) <==> |s.holders| == s.capacity && s.strays > 0
  {
    if |s.holders| == s.capacity && s.strays > 0 {
      var id := Above(s.holders);
      BalancedStep(s, Acquired(id));
      assert Enabled(s, Acquired(id)) && !WithinLimit(Step(s, Acquired(id)));
    }
    if id :| Enabled(s, Acquired(id)) && !WithinLimit(Step(s, Acquired(id))) {
      BalancedStep(s, Acquired(id));
    }
  }

  /** Exactly when an Acquire breaks the limit: in a run that has kept it so far, the next one can go through
      and be one too many if and only if maxConcurrent clients are inside and some release was not a holder's. */
  lemma LimitBrokenIff(capacity: nat, es: seq<Event>)
    requires Possible(New(capacity), es) && WithinLimit(Run(New(capacity), es))
    ensures CanExceed(Run(New(capacity), es)) <==> |Run(New(capacity), es).holders| == capacity && !Disciplined(es)
  {
    BalancedRun(New(capacity), es);
    StraysCounted(New(capacity), es);
    CanExceedIff(Run(New(capacity), es));
  }

  /** Without that discipline the limit is not kept: one stray release lets one client too many inside. */
  lemma StrayReleaseBreaksLimit()
    ensures
      var es := [Acquired(0), Released(None), Acquired(1)];
      Possible(New(1), es) && |Run(New(1), es).holders| > 1
  {
  }
}
