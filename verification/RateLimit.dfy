/** The token bucket. Instants are integer nanoseconds; tokens are exact reals, so floating-point
    rounding is not modelled. */
module RateLimit {
  import opened GoNumbers

  type Time = int

  datatype Bucket = Bucket(tokens: real, max: real, rate: real, lastTime: Time)

  /** The wait `Reserve` returns, in milliseconds. Without a rate the source divides by zero and
      converts the result to an integer, which its language leaves unspecified. */
  datatype Wait = Millis(ms: int) | Unspecified

  /** Tokens that accrue at `rate` per second between two instants. */
  function Earned(rate: real, from: Time, to: Time): real {
    (to - from) as real / 1000000000.0 * rate
  }

  function New(rate: real, max: real, now: Time): Bucket {
    Bucket(max, max, rate, now)
  }

  function Refill(b: Bucket, now: Time): Bucket {
    var level := b.tokens + Earned(b.rate, b.lastTime, now);
    b.(tokens := if level > b.max then b.max else level, lastTime := now)
  }

  datatype Op = Allow(at: Time, n: real) | Reserve(at: Time, n: real)

  datatype Seen = Verdict(ok: bool) | Waited(wait: Wait)

  function Deficit(b: Bucket, now: Time, n: real): real {
    n - Refill(b, now).tokens
  }

  function WaitFor(deficit: real, rate: real): Wait {
    if rate == 0.0 then Unspecified else Millis(Trunc(deficit / rate * 1000.0))
  }

  /** One call: its result and the bucket it leaves. A reservation that finds too little empties the
      bucket and forgives the rest. */
  function Step(b: Bucket, op: Op): (Bucket, Seen) {
    var r := Refill(b, op.at);
    var enough := r.tokens >= op.n;
    var paid := r.(tokens := r.tokens - op.n);
    match op
    case Allow(_, _) => (if enough then paid else r, Verdict(enough))
    case Reserve(_, _) =>
      if enough then (paid, Waited(Millis(0)))
      else (r.(tokens := 0.0), Waited(WaitFor(op.n - r.tokens, b.rate)))
  }

  class Limiter {
    var tokens: real
    const max: real
    const rate: real
    var lastTime: Time

    ghost function View(): Bucket
      reads this
    {
      Bucket(tokens, max, rate, lastTime)
    }

    constructor (rate: real, max: real, now: Time)
      ensures View() == New(rate, max, now)
    {
      this.tokens, this.max, this.rate, this.lastTime := max, max, rate, now;
    }

    method Allow(now: Time) returns (ok: bool)
      modifies this
      ensures (View(), Verdict(ok)) == Step(old(View()), Op.Allow(now, 1.0))
    {
      ok := AllowN(1.0, now);
    }

    method AllowN(n: real, now: Time) returns (ok: bool)
      modifies this
      ensures (View(), Verdict(ok)) == Step(old(View()), Op.Allow(now, n))
    {
      RefillTo(now);
      if tokens >= n {
        tokens := tokens - n;
        return true;
      }
      return false;
    }

    method Reserve(n: real, now: Time) returns (w: Wait)
      modifies this
      ensures (View(), Waited(w)) == Step(old(View()), Op.Reserve(now, n))
    {
      RefillTo(now);
      if tokens >= n {
        tokens := tokens - n;
        return Millis(0);
      }
      var deficit := n - tokens;
      w := if rate == 0.0 then Unspecified else Millis(Trunc(deficit / rate * 1000.0));
      tokens := 0.0;
    }

    method RefillTo(now: Time)
      modifies this
      ensures View() == Refill(old(View()), now)
    {
      var elapsed := (now - lastTime) as real / 1000000000.0;
      lastTime := now;
      tokens := tokens + elapsed * rate;
      if tokens > max {
        tokens := max;
      }
    }
  }

  // Runs.

  /** Instants do not go back and amounts are not negative. */
  predicate Ordered(from: Time, ops: seq<Op>) {
    && (forall i :: 0 <= i < |ops| ==> ops[i].n >= 0.0 && from <= ops[i].at)
    && (forall i, j :: 0 <= i < j < |ops| ==> ops[i].at <= ops[j].at)
  }

  function After(b: Bucket, ops: seq<Op>): Bucket {
    if ops == [] then b else Step(After(b, ops[..|ops| - 1]), ops[|ops| - 1]).0
  }

  /** What call `k` of a run sees. */
  function Result(b: Bucket, ops: seq<Op>, k: nat): Seen
    requires k < |ops|
  {
    Step(After(b, ops[..k]), ops[k]).1
  }

  lemma EarnedSum(rate: real, s: Time, t: Time, u: Time)
    ensures Earned(rate, s, t) + Earned(rate, t, u) == Earned(rate, s, u)
  {
    var x, y := (t - s) as real / 1000000000.0, (u - t) as real / 1000000000.0;
    assert (u - s) as real / 1000000000.0 == x + y;
    assert (x + y) * rate == x * rate + y * rate;
  }

  lemma EarnedMonotone(rate: real, s: Time, t: Time, u: Time)
    requires rate >= 0.0 && t <= u
    ensures Earned(rate, s, t) <= Earned(rate, s, u)
    ensures Earned(rate, t, t) == 0.0
  {
    EarnedSum(rate, s, t, u);
    var y := (u - t) as real / 1000000000.0;
    assert y >= 0.0;
    assert y * rate >= 0.0;
  }

  /** The bucket is never negative and never over its maximum, whatever mix of calls. */
  lemma {:induction false} TokensInRange(rate: real, max: real, start: Time, ops: seq<Op>)
    requires rate >= 0.0 && max >= 0.0 && Ordered(start, ops)
    ensures
      var b := After(New(rate, max, start), ops);
      && 0.0 <= b.tokens <= b.max
      && b.max == max && b.rate == rate
      && b.lastTime == if ops == [] then start else ops[|ops| - 1].at
  {
    if ops != [] {
      var k := |ops| - 1;
      TokensInRange(rate, max, start, ops[..k]);
      var b := After(New(rate, max, start), ops[..k]);
      EarnedMonotone(rate, b.lastTime, b.lastTime, ops[k].at);
    }
  }

  // Exactness.

  /** Tokens taken out of the bucket by call `k`. */
  function Taken(b: Bucket, ops: seq<Op>, k: nat): real
    requires k < |ops|
  {
    Refill(After(b, ops[..k]), ops[k].at).tokens - After(b, ops[..k + 1]).tokens
  }

  /** Tokens taken by calls `i` up to but not including `k`. */
  function TakenIn(b: Bucket, ops: seq<Op>, i: nat, k: nat): real
    requires i <= k <= |ops|
    decreases k
  {
    if i == k then 0.0 else TakenIn(b, ops, i, k - 1) + Taken(b, ops, k - 1)
  }

  /** Windows are numbered so that window 0 opens at creation and window i + 1 at call i. */
  function Opens(start: Time, ops: seq<Op>, i: nat): Time
    requires i <= |ops|
  {
    if i == 0 then start else ops[i - 1].at
  }

  function FirstCall(i: nat): nat {
    if i == 0 then 0 else i - 1
  }

  /** What window `i` leaves for call `k`: everything it could hold, less what has been taken in it. */
  function Room(rate: real, max: real, start: Time, ops: seq<Op>, i: nat, k: nat): real
    requires i <= k + 1 <= |ops|
  {
    max + Earned(rate, Opens(start, ops, i), ops[k].at) - TakenIn(New(rate, max, start), ops, FirstCall(i), k)
  }

  /** In every run, whatever mix of calls, the level call `k` finds is the least room any window leaves: no
      window leaves less, and the returned one leaves exactly that. */
  lemma {:induction false} LevelIsLeastRoom(rate: real, max: real, start: Time, ops: seq<Op>, k: nat)
    returns (least: nat)
    requires rate >= 0.0 && max >= 0.0 && Ordered(start, ops) && k < |ops|
    ensures least <= k + 1
    ensures
      var level := Refill(After(New(rate, max, start), ops[..k]), ops[k].at).tokens;
      && level == Room(rate, max, start, ops, least, k)
      && forall i :: 0 <= i <= k + 1 ==> level <= Room(rate, max, start, ops, i, k)
  {
    var b := New(rate, max, start);
    TokensInRange(rate, max, start, ops[..k]);
    var now := ops[k].at;
    EarnedMonotone(rate, start, now, now);
    if k == 0 {
      EarnedMonotone(rate, start, start, now);
      least := 1;
    } else {
      var prev := ops[k - 1].at;
      var l := LevelIsLeastRoom(rate, max, start, ops, k - 1);
      forall i | 0 <= i <= k
        ensures Room(rate, max, start, ops, i, k)
                == Room(rate, max, start, ops, i, k - 1) - Taken(b, ops, k - 1) + Earned(rate, prev, now)
      {
        EarnedSum(rate, Opens(start, ops, i), prev, now);
      }
      least := if Refill(After(b, ops[..k]), now).tokens == max then k + 1 else l;
    }
  }

  /** In window `i` the tokens taken before call `k` plus its own stay within max + rate * length. */
  predicate FitsWindow(rate: real, max: real, start: Time, ops: seq<Op>, i: nat, k: nat)
    requires i <= k + 1 <= |ops|
  {
    TakenIn(New(rate, max, start), ops, FirstCall(i), k) + ops[k].n
    <= max + Earned(rate, Opens(start, ops, i), ops[k].at)
  }

  /** So in every window that ends with call `k`, from creation or from any call up to itself. */
  predicate Fits(rate: real, max: real, start: Time, ops: seq<Op>, k: nat)
    requires k < |ops|
  {
    forall i :: 0 <= i <= k + 1 ==> FitsWindow(rate, max, start, ops, i, k)
  }

  lemma FitsIffEnough(rate: real, max: real, start: Time, ops: seq<Op>, k: nat)
    requires rate >= 0.0 && max >= 0.0 && Ordered(start, ops) && k < |ops|
    ensures Fits(rate, max, start, ops, k) <==>
            ops[k].n <= Refill(After(New(rate, max, start), ops[..k]), ops[k].at).tokens
  {
    var least := LevelIsLeastRoom(rate, max, start, ops, k);
    forall i | 0 <= i <= k + 1
      ensures FitsWindow(rate, max, start, ops, i, k) <==> ops[k].n <= Room(rate, max, start, ops, i, k)
    {
    }
  }

  /** A call's share: its amount if there is enough, otherwise nothing for AllowN and everything for Reserve. */
  lemma CallTakes(b: Bucket, ops: seq<Op>, k: nat)
    requires k < |ops|
    ensures
      var level := Refill(After(b, ops[..k]), ops[k].at).tokens;
      Taken(b, ops, k) == if ops[k].n <= level then ops[k].n else if ops[k].Allow? then 0.0 else level
  {
    assert ops[..k + 1][..k] == ops[..k];
  }

  /** In every run, whatever mix of calls, AllowN grants and Reserve takes its whole amount if and only if the
      amount fits every window. Nothing is over-granted in any window and nothing denied needlessly. */
  lemma AllowExactly(rate: real, max: real, start: Time, ops: seq<Op>, k: nat)
    requires rate >= 0.0 && max >= 0.0 && Ordered(start, ops) && k < |ops|
    ensures Taken(New(rate, max, start), ops, k) == ops[k].n <==> Fits(rate, max, start, ops, k)
    ensures ops[k].Allow? ==>
              (Result(New(rate, max, start), ops, k) == Verdict(true) <==> Fits(rate, max, start, ops, k))
  {
    var b := New(rate, max, start);
    FitsIffEnough(rate, max, start, ops, k);
    CallTakes(b, ops, k);
    TokensInRange(rate, max, start, ops[..k]);
    EarnedMonotone(rate, After(b, ops[..k]).lastTime, After(b, ops[..k]).lastTime, ops[k].at);
  }

  /** Tokens granted by calls `i` up to but not including `k`. */
  function Granted(b: Bucket, ops: seq<Op>, i: nat, k: nat): real
    requires i <= k <= |ops|
    decreases k
  {
    if i == k then 0.0
    else Granted(b, ops, i, k - 1) + if Result(b, ops, k - 1) == Verdict(true) then ops[k - 1].n else 0.0
  }

  /** Among AllowN calls, the tokens taken are the tokens granted. */
  lemma {:induction false} GrantedIsTaken(b: Bucket, ops: seq<Op>, i: nat, k: nat)
    requires i <= k <= |ops| && forall j :: i <= j < k ==> ops[j].Allow?
    ensures TakenIn(b, ops, i, k) == Granted(b, ops, i, k)
    decreases k
  {
    if i < k {
      GrantedIsTaken(b, ops, i, k - 1);
      CallTakes(b, ops, k - 1);
    }
  }

  // What is deducted in a window.

  /** Over any mix of calls, what calls i..k deduct plus what they leave is at most max + rate * length. */
  lemma {:induction false} WindowBound(rate: real, max: real, start: Time, ops: seq<Op>, i: nat, k: nat)
    requires rate >= 0.0 && max >= 0.0 && Ordered(start, ops) && i <= k < |ops|
    ensures
      var b := New(rate, max, start);
      TakenIn(b, ops, i, k + 1) + After(b, ops[..k + 1]).tokens <= max + Earned(rate, ops[i].at, ops[k].at)
    ensures TakenIn(New(rate, max, start), ops, i, k + 1) <= max + Earned(rate, ops[i].at, ops[k].at)
    decreases k
  {
    var b := New(rate, max, start);
    TokensInRange(rate, max, start, ops[..k + 1]);
    TokensInRange(rate, max, start, ops[..k]);
    EarnedMonotone(rate, ops[i].at, ops[i].at, ops[k].at);
    if i < k {
      WindowBound(rate, max, start, ops, i, k - 1);
      EarnedSum(rate, ops[i].at, ops[k - 1].at, ops[k].at);
    }
  }

  /** Where AllowN grants, Reserve takes the same tokens and asks for no wait; where AllowN denies, Reserve
      takes what there is. */
  lemma ReserveTakes(b: Bucket, now: Time, n: real)
    requires n >= 0.0 && Refill(b, now).tokens >= 0.0
    ensures
      var level := Refill(b, now).tokens;
      var (after, seen) := Step(b, Reserve(now, n));
      && level - after.tokens == (if n <= level then n else level)
      && (Step(b, Allow(now, n)).1 == Verdict(true) ==> after == Step(b, Allow(now, n)).0 && seen == Waited(Millis(0)))
      && (Step(b, Allow(now, n)).1 == Verdict(false) ==> after.tokens == 0.0 && after.lastTime == now)
  {
  }

  // Denied requests leave no trace.

  /** Refilling twice is refilling once, at the later instant. */
  lemma RefillTwice(b: Bucket, t: Time, u: Time)
    requires b.rate >= 0.0 && t <= u
    ensures Refill(Refill(b, t), u) == Refill(b, u)
  {
    EarnedSum(b.rate, b.lastTime, t, u);
    EarnedMonotone(b.rate, t, t, u);
  }

  function Trace(b: Bucket, ops: seq<Op>): seq<Seen>
    decreases |ops|
  {
    if ops == [] then [] else [Step(b, ops[0]).1] + Trace(Step(b, ops[0]).0, ops[1..])
  }

  /** The run without its denied `AllowN` calls. */
  function Kept(b: Bucket, ops: seq<Op>): seq<Op>
    decreases |ops|
  {
    if ops == [] then []
    else
      var (c, seen) := Step(b, ops[0]);
      (if seen == Verdict(false) then [] else [ops[0]]) + Kept(c, ops[1..])
  }

  function WithoutDenials(seen: seq<Seen>): seq<Seen> {
    if seen == [] then []
    else (if seen[0] == Verdict(false) then [] else [seen[0]]) + WithoutDenials(seen[1..])
  }

  /** `a` has missed only refills that `b` has had. */
  predicate Behind(a: Bucket, b: Bucket) {
    a.lastTime <= b.lastTime && Refill(a, b.lastTime) == b
  }

  lemma {:induction false} DenialsFromBehind(a: Bucket, b: Bucket, ops: seq<Op>)
    requires a.rate >= 0.0 && a.max >= 0.0 && Behind(a, b) && Ordered(b.lastTime, ops)
    ensures Trace(a, Kept(b, ops)) == WithoutDenials(Trace(b, ops))
    decreases |ops|
  {
    if ops != [] {
      var op := ops[0];
      RefillTwice(a, b.lastTime, op.at);
      var (c, seen) := Step(b, op);
      var rest := Kept(c, ops[1..]);
      var d := if seen == Verdict(false) then a else Step(a, op).0;
      assert Behind(d, c) by {
        EarnedMonotone(a.rate, op.at, op.at, op.at);
      }
      DenialsFromBehind(d, c, ops[1..]);
      assert Trace(b, ops)[1..] == Trace(c, ops[1..]);
      if seen == Verdict(false) {
        assert [] + rest == rest;
      } else {
        assert ([op] + rest)[1..] == rest;
      }
    }
  }

  /** Deleting every denied `AllowN` from a run leaves all other results as they were. */
  lemma DenialsInvisible(rate: real, max: real, start: Time, ops: seq<Op>)
    requires rate >= 0.0 && max >= 0.0 && Ordered(start, ops)
    ensures Trace(New(rate, max, start), Kept(New(rate, max, start), ops))
            == WithoutDenials(Trace(New(rate, max, start), ops))
  {
    var b := New(rate, max, start);
    EarnedMonotone(rate, start, start, start);
    DenialsFromBehind(b, b, ops);
  }

  // The wait that Reserve returns.

  lemma MulPositive(r: real, x: real)
    requires r > 0.0
    ensures x > 0.0 ==> r * x > 0.0
    ensures x >= 0.0 ==> r * x >= 0.0
  {
  }

  lemma MulMonotone(r: real, x: real, y: real)
    requires r > 0.0
    ensures x <= y ==> r * x <= r * y
    ensures x < y ==> r * x < r * y
  {
    MulPositive(r, y - x);
    assert r * (y - x) == r * y - r * x;
  }

  lemma TruncBetween(x: real)
    requires x >= 0.0
    ensures 0 <= Trunc(x) && Trunc(x) as real <= x < (Trunc(x) + 1) as real
  {
  }

  lemma DeficitOverRate(rate: real, d: real) returns (x: real)
    requires rate > 0.0 && d > 0.0
    ensures x == d / rate * 1000.0 && x >= 0.0 && rate * x == 1000.0 * d
  {
    var q := d / rate;
    assert rate * q == d;
    x := q * 1000.0;
    assert rate * x == 1000.0 * (rate * q);
  }

  lemma MillisBetween(rate: real, d: real, lo: real, x: real, hi: real)
    requires rate > 0.0 && rate * x == 1000.0 * d && lo <= x < hi
    ensures rate * lo <= 1000.0 * d
    ensures 1000.0 * d < rate * hi
  {
    MulMonotone(rate, lo, x);
    MulMonotone(rate, x, hi);
  }

  /** The wait is the deficit's refill time, rounded down to a millisecond. */
  lemma WaitIsTight(b: Bucket, now: Time, n: real)
    requires b.rate > 0.0 && Deficit(b, now, n) > 0.0
    ensures Step(b, Reserve(now, n)).1.wait.Millis?
    ensures
      var w := Step(b, Reserve(now, n)).1.wait.ms;
      && 0 <= w
      && b.rate * w as real <= 1000.0 * Deficit(b, now, n) < b.rate * (w + 1) as real
  {
    var d := Deficit(b, now, n);
    var x := DeficitOverRate(b.rate, d);
    TruncBetween(x);
    MillisBetween(b.rate, d, Trunc(x) as real, x, (Trunc(x) + 1) as real);
  }

  lemma EarnedByMillis(rate: real, now: Time, later: Time, ms: int)
    requires rate > 0.0
    ensures later < now + ms * 1000000 ==> 1000.0 * Earned(rate, now, later) < rate * ms as real
    ensures later >= now + ms * 1000000 ==> 1000.0 * Earned(rate, now, later) >= rate * ms as real
  {
    var x := (later - now) as real / 1000000000.0 * 1000.0;
    assert 1000.0 * Earned(rate, now, later) == rate * x;
    MulMonotone(rate, x, ms as real);
    MulMonotone(rate, ms as real, x);
  }

  /** With no calls in between, the deficit is available exactly when it has been earned: not before the wait is
      over, and always from one millisecond after it on. */
  lemma WaitIsRight(b: Bucket, now: Time, n: real, later: Time)
    requires b.rate > 0.0 && 0.0 < Deficit(b, now, n) <= b.max && now <= later
    ensures Step(b, Reserve(now, n)).1.wait.Millis?
    ensures
      var (after, seen) := Step(b, Reserve(now, n));
      var ok := Step(after, Allow(later, Deficit(b, now, n))).1;
      && (ok == Verdict(true) <==> Earned(b.rate, now, later) >= Deficit(b, now, n))
      && (later < now + seen.wait.ms * 1000000 ==> ok == Verdict(false))
      && (later >= now + (seen.wait.ms + 1) * 1000000 ==> ok == Verdict(true))
  {
    WaitIsTight(b, now, n);
    var (after, seen) := Step(b, Reserve(now, n));
    EarnedByMillis(b.rate, now, later, seen.wait.ms);
    EarnedByMillis(b.rate, now, later, seen.wait.ms + 1);
  }
}
