/** The distributed rate limiter: the Lua script that Redis runs atomically on one bucket, the
    key's expiry, and the handler that fails open. Arithmetic is exact; time is Redis TIME in
    milliseconds and does not go back. */
module TokenBucket {
  import opened Basics

  /** A rate policy with its window in milliseconds. `lapsesAtLimit` says whether a key whose
      time to live has just run out is already gone in that millisecond. */
  datatype Policy = Policy(requests: nat, burst: nat, window: nat, lapsesAtLimit: bool) {
    predicate Valid() {
      requests >= 1 && window >= 1
    }

    function Capacity(): nat {
      requests + burst
    }

    /** The shortest silence after which the key is gone. */
    function LapseGap(): nat {
      if lapsesAtLimit then 2 * window else 2 * window + 1
    }

    /** Tokens that flow back in `gap` milliseconds, one millisecond after the other. */
    function Refill(gap: nat): real
      requires Valid()
    {
      if gap == 0 then 0.0 else Refill(gap - 1) + requests as real / window as real
    }
  }

  /** The Redis hash, whose PEXPIRE always counts from `updated`. */
  datatype Bucket = Absent | Present(tokens: real, updated: nat)

  datatype Verdict = Verdict(bucket: Bucket, allowed: bool)

  function Min(a: real, b: real): real {
    if b < a then b else a
  }

  /** What HMGET finds at `now`. A bucket with `expires` false never loses its key. */
  function Visible(p: Policy, b: Bucket, now: nat, expires: bool): Bucket
    requires b.Present? ==> b.updated <= now
  {
    if b.Present? && expires && now - b.updated >= p.LapseGap() then Absent else b
  }

  ghost predicate InRange(p: Policy, b: Bucket) {
    b.Present? ==> 0.0 <= b.tokens <= p.Capacity() as real
  }

  /** The tokens available to a call before it takes one. */
  function Level(p: Policy, b: Bucket, now: nat, expires: bool): real
    requires p.Valid() && (b.Present? ==> b.updated <= now)
  {
    var seen := Visible(p, b, now, expires);
    var tokens := if seen.Present? then seen.tokens else p.Capacity() as real;
    var updated := if seen.Present? then seen.updated else now;
    Min(p.Capacity() as real, tokens + p.Refill(now - updated))
  }

  function Take(level: real, now: nat): Verdict {
    if level >= 1.0 then Verdict(Present(level - 1.0, now), true) else Verdict(Present(level, now), false)
  }

  function Eval(p: Policy, b: Bucket, now: nat, expires: bool): Verdict
    requires p.Valid() && (b.Present? ==> b.updated <= now)
  {
    Take(Level(p, b, now, expires), now)
  }

  // ---------------------------------------------------------------------------
  // The refill

  /** The script's formula for the refill. */
  lemma {:induction false} RefillFormula(p: Policy, gap: nat)
    requires p.Valid()
    ensures p.Refill(gap) == gap as real * p.requests as real / p.window as real
  {
    var r, w := p.requests as real, p.window as real;
    if gap != 0 {
      RefillFormula(p, gap - 1);
      assert (gap - 1) as real * r + r == gap as real * r;
    }
  }

  lemma RefillAdds(p: Policy, a: nat, b: nat)
    requires p.Valid()
    ensures p.Refill(a + b) == p.Refill(a) + p.Refill(b)
  {
    RefillFormula(p, a);
    RefillFormula(p, b);
    RefillFormula(p, a + b);
    var r, w := p.requests as real, p.window as real;
    assert (a + b) as real * r == a as real * r + b as real * r;
  }

  lemma RefillAtLeast(p: Policy, gap: nat, n: nat)
    requires p.Valid() && gap * p.requests >= n * p.window
    ensures p.Refill(gap) >= n as real
  {
    var w, x := p.window as real, gap as real * p.requests as real;
    assert x == (gap * p.requests) as real;
    assert n as real * w == (n * p.window) as real;
    RefillFormula(p, gap);
    DivideBounds(x, n as real, w);
  }

  lemma RefillBelow(p: Policy, gap: nat, n: nat)
    requires p.Valid() && gap * p.requests < n * p.window
    ensures p.Refill(gap) < n as real
  {
    var w, x := p.window as real, gap as real * p.requests as real;
    assert x == (gap * p.requests) as real;
    assert n as real * w == (n * p.window) as real;
    RefillFormula(p, gap);
    DivideBounds(x, n as real, w);
  }

  lemma DivideBounds(x: real, n: real, w: real)
    requires w > 0.0
    ensures x >= n * w ==> x / w >= n
    ensures x < n * w ==> x / w < n
  {
    assert (x / w) * w == x;
  }

  ghost predicate NonNegative(b: Bucket) {
    b.Present? ==> b.tokens >= 0.0
  }

  /** A call leaves between zero and the capacity, also in a bucket that another policy left with
      more. */
  lemma TokensStayInRange(p: Policy, b: Bucket, now: nat, expires: bool)
    requires p.Valid() && NonNegative(b) && (b.Present? ==> b.updated <= now)
    ensures InRange(p, Eval(p, b, now, expires).bucket)
    ensures 0.0 <= Level(p, b, now, expires) <= p.Capacity() as real
  {
    var seen := Visible(p, b, now, expires);
    RefillAtLeast(p, now - if seen.Present? then seen.updated else now, 0);
  }

  // ---------------------------------------------------------------------------
  // Runs

  function Clock(b: Bucket): nat {
    if b.Present? then b.updated else 0
  }

  /** Calls at nondecreasing times, the first no earlier than `from`. */
  predicate Ordered(from: nat, times: seq<nat>)
    decreases |times|
  {
    times == [] || (from <= times[0] && Ordered(times[0], times[1..]))
  }

  /** The bucket after a run of calls. */
  function After(p: Policy, b: Bucket, times: seq<nat>, expires: bool): Bucket
    requires p.Valid() && Ordered(Clock(b), times)
    decreases |times|
  {
    if times == [] then b else After(p, Eval(p, b, times[0], expires).bucket, times[1..], expires)
  }

  /** So does a run. */
  lemma {:induction false} RunStaysInRange(p: Policy, b: Bucket, times: seq<nat>, expires: bool)
    requires p.Valid() && NonNegative(b) && Ordered(Clock(b), times)
    ensures times != [] || InRange(p, b) ==> InRange(p, After(p, b, times, expires))
    decreases |times|
  {
    if times != [] {
      TokensStayInRange(p, b, times[0], expires);
      RunStaysInRange(p, Eval(p, b, times[0], expires).bucket, times[1..], expires);
    }
  }

  /** The decisions the calls of a run get. */
  function Decisions(p: Policy, b: Bucket, times: seq<nat>, expires: bool): (r: seq<bool>)
    requires p.Valid() && Ordered(Clock(b), times)
    ensures |r| == |times|
    decreases |times|
  {
    if times == [] then [] else
    var v := Eval(p, b, times[0], expires);
    [v.allowed] + Decisions(p, v.bucket, times[1..], expires)
  }

  lemma {:induction false} RunAppend(p: Policy, b: Bucket, xs: seq<nat>, ys: seq<nat>, expires: bool)
    requires p.Valid() && Ordered(Clock(b), xs + ys)
    ensures Ordered(Clock(b), xs) && Ordered(Clock(After(p, b, xs, expires)), ys)
    ensures Decisions(p, b, xs + ys, expires) ==
            Decisions(p, b, xs, expires) + Decisions(p, After(p, b, xs, expires), ys, expires)
    decreases |xs|
  {
    hide Level, Visible;
    if xs == [] {
      assert xs + ys == ys;
    } else {
      assert (xs + ys)[1..] == xs[1..] + ys;
      var v := Eval(p, b, xs[0], expires);
      RunAppend(p, v.bucket, xs[1..], ys, expires);
    }
  }

  // ---------------------------------------------------------------------------
  // Expiry

  /** The shortest lapse refills the whole bucket. */
  predicate LapseRefills(p: Policy) {
    p.LapseGap() * p.requests >= p.Capacity() * p.window
  }

  /** Then losing the key changes nothing: the forgotten bucket was full. */
  lemma LapseIsInvisible(p: Policy, b: Bucket, now: nat)
    requires p.Valid() && LapseRefills(p) && NonNegative(b) && Clock(b) <= now
    ensures Level(p, b, now, true) == Level(p, b, now, false)
  {
    if b.Present? && now - b.updated >= p.LapseGap() {
      var gap, r := now - b.updated, p.requests;
      assert gap * r >= p.LapseGap() * r;
      RefillAtLeast(p, gap, p.Capacity());
    }
  }

  lemma {:induction false} ExpiryRefines(p: Policy, b: Bucket, times: seq<nat>)
    requires p.Valid() && LapseRefills(p) && NonNegative(b) && Ordered(Clock(b), times)
    ensures Decisions(p, b, times, true) == Decisions(p, b, times, false)
    decreases |times|
  {
    if times != [] {
      LapseIsInvisible(p, b, times[0]);
      TokensStayInRange(p, b, times[0], true);
      ExpiryRefines(p, Eval(p, b, times[0], true).bucket, times[1..]);
    }
  }

  /** In particular when the burst does not exceed the steady rate. */
  lemma SmallBurstRefills(p: Policy)
    requires p.Valid() && p.burst <= p.requests
    ensures LapseRefills(p)
  {
    var twice := 2 * p.window;
    MultiplyMonotone(p.Capacity(), 2 * p.requests, p.window);
    MultiplyMonotone(twice, p.LapseGap(), p.requests);
    assert twice * p.requests == (2 * p.requests) * p.window;
  }

  function Repeat(t: nat, n: nat): (r: seq<nat>)
    ensures |r| == n
  {
    if n == 0 then [] else [t] + Repeat(t, n - 1)
  }

  function AllTrue(n: nat): (r: seq<bool>)
    ensures |r| == n
  {
    if n == 0 then [] else [true] + AllTrue(n - 1)
  }

  lemma {:induction false} AllTrueAdds(m: nat, n: nat)
    ensures AllTrue(m) + AllTrue(n) == AllTrue(m + n)
  {
    if m == 0 {
      assert AllTrue(0) + AllTrue(n) == AllTrue(n);
    } else {
      AllTrueAdds(m - 1, n);
      assert AllTrue(m) + AllTrue(n) == [true] + (AllTrue(m - 1) + AllTrue(n));
    }
  }

  lemma {:induction false} RepeatOrdered(from: nat, t: nat, n: nat, more: seq<nat>)
    requires from <= t && Ordered(t, more)
    ensures Ordered(from, Repeat(t, n)) && Ordered(from, Repeat(t, n) + more)
    decreases n
  {
    if n == 0 {
      assert Repeat(t, 0) + more == more;
    } else {
      RepeatOrdered(t, t, n - 1, more);
      assert (Repeat(t, n) + more)[1..] == Repeat(t, n - 1) + more;
    }
  }

  /** A second call in the same millisecond finds what the first one left. */
  lemma SameInstant(p: Policy, b: Bucket, expires: bool)
    requires p.Valid() && InRange(p, b) && b.Present?
    ensures Level(p, b, b.updated, expires) == b.tokens
  {
  }

  lemma PrependTrue(x: bool, a: seq<bool>, n: nat)
    requires |a| == n
    ensures [x] + a == AllTrue(n + 1) <==> x && a == AllTrue(n)
  {
    assert AllTrue(n + 1) == [true] + AllTrue(n);
    if [x] + a == AllTrue(n + 1) {
      assert a == ([x] + a)[1..] == AllTrue(n + 1)[1..];
      assert x == ([x] + a)[0];
    }
  }

  /** Several calls in one millisecond are all admitted exactly when the level covers them. */
  lemma {:induction false} Drain(p: Policy, b: Bucket, now: nat, n: nat, expires: bool)
    requires p.Valid() && InRange(p, b) && Clock(b) <= now && n >= 1
    requires Ordered(Clock(b), Repeat(now, n))
    ensures var level := Level(p, b, now, expires);
            && (Decisions(p, b, Repeat(now, n), expires) == AllTrue(n) <==> level >= n as real)
            && (level >= n as real ==> After(p, b, Repeat(now, n), expires) == Present(level - n as real, now))
    decreases n
  {
    var times, v := Repeat(now, n), Eval(p, b, now, expires);
    assert times[0] == now && times[1..] == Repeat(now, n - 1);
    TokensStayInRange(p, b, now, expires);
    PrependTrue(v.allowed, Decisions(p, v.bucket, times[1..], expires), n - 1);
    if n > 1 {
      Drain(p, v.bucket, now, n - 1, expires);
      SameInstant(p, v.bucket, expires);
    }
  }

  /** Spend the whole bucket, wait just long enough for the key to lapse, and spend again. */
  function SpendTwice(p: Policy): seq<nat> {
    Repeat(0, p.Capacity()) + Repeat(p.LapseGap(), p.Capacity())
  }

  lemma SpendTwiceOrdered(p: Policy)
    ensures Ordered(0, SpendTwice(p)) && Ordered(0, Repeat(0, p.Capacity()))
    ensures Ordered(0, Repeat(p.LapseGap(), p.Capacity()))
  {
    RepeatOrdered(0, p.LapseGap(), p.Capacity(), []);
    RepeatOrdered(0, 0, p.Capacity(), Repeat(p.LapseGap(), p.Capacity()));
  }

  /** That run is granted in full exactly when the silence filled the bucket again. */
  lemma SpendTwiceGranted(p: Policy, expires: bool)
    requires p.Valid()
    ensures Ordered(0, SpendTwice(p))
    ensures Decisions(p, Absent, SpendTwice(p), expires) == AllTrue(2 * p.Capacity()) <==>
            Level(p, Present(0.0, 0), p.LapseGap(), expires) >= p.Capacity() as real
  {
    var c, g := p.Capacity(), p.LapseGap();
    SpendTwiceOrdered(p);
    Drain(p, Absent, 0, c, expires);
    Drain(p, Present(0.0, 0), g, c, expires);
    RunAppend(p, Absent, Repeat(0, c), Repeat(g, c), expires);
    AllTrueAdds(c, c);
    var second := Decisions(p, Present(0.0, 0), Repeat(g, c), expires);
    assert (AllTrue(c) + second)[c..] == second && (AllTrue(c) + AllTrue(c))[c..] == AllTrue(c);
  }

  /** When the shortest lapse does not refill the bucket, losing the key grants more: all calls
      of the run above are admitted, which the bucket that keeps its key would not do, and
      their number exceeds capacity plus refill. */
  lemma ExpiryGrantsMore(p: Policy)
    requires p.Valid() && !LapseRefills(p)
    ensures Ordered(0, SpendTwice(p))
    ensures Decisions(p, Absent, SpendTwice(p), true) == AllTrue(2 * p.Capacity())
    ensures Decisions(p, Absent, SpendTwice(p), false) != AllTrue(2 * p.Capacity())
    ensures (2 * p.Capacity()) as real > p.Capacity() as real + p.Refill(p.LapseGap())
  {
    SpendTwiceGranted(p, true);
    SpendTwiceGranted(p, false);
    RefillBelow(p, p.LapseGap(), p.Capacity());
    assert Level(p, Present(0.0, 0), p.LapseGap(), true) == p.Capacity() as real;
  }

  ghost predicate ExpiryInvisible(p: Policy)
    requires p.Valid()
  {
    forall times: seq<nat> :: Ordered(0, times) ==>
      Decisions(p, Absent, times, true) == Decisions(p, Absent, times, false)
  }

  /** The expiring bucket decides every call of every run like one that never expires exactly
      when the shortest lapse refills it. */
  lemma ExpiryInvisibleExactly(p: Policy)
    requires p.Valid()
    ensures ExpiryInvisible(p) <==> LapseRefills(p)
  {
    if LapseRefills(p) {
      forall times: seq<nat> | Ordered(0, times)
        ensures Decisions(p, Absent, times, true) == Decisions(p, Absent, times, false)
      {
        ExpiryRefines(p, Absent, times);
      }
    } else {
      ExpiryGrantsMore(p);
    }
  }

  // ---------------------------------------------------------------------------
  // No starvation

  /** Calls at least window/requests apart, the first that long after `from`. */
  predicate Patient(p: Policy, from: nat, times: seq<nat>)
    decreases |times|
  {
    times == [] || (from <= times[0] && (times[0] - from) * p.requests >= p.window && Patient(p, times[0], times[1..]))
  }

  lemma PatientCall(p: Policy, b: Bucket, now: nat, expires: bool)
    requires p.Valid() && NonNegative(b)
    requires b.Present? ==> b.updated <= now && (now - b.updated) * p.requests >= p.window
    ensures Level(p, b, now, expires) >= 1.0
  {
    if b.Present? {
      RefillAtLeast(p, now - b.updated, 1);
    }
  }

  lemma {:induction false} PatientRunGranted(p: Policy, b: Bucket, times: seq<nat>, expires: bool)
    requires p.Valid() && NonNegative(b) && b.Present? && Patient(p, b.updated, times)
    ensures Ordered(b.updated, times) && Decisions(p, b, times, expires) == AllTrue(|times|)
    decreases |times|
  {
    if times != [] {
      PatientCall(p, b, times[0], expires);
      TokensStayInRange(p, b, times[0], expires);
      PatientRunGranted(p, Eval(p, b, times[0], expires).bucket, times[1..], expires);
    }
  }

  /** A caller alone on its bucket whose calls are at least window/requests apart is never
      refused, on runs of any length and across lapses. */
  lemma PatientCallerNeverRefused(p: Policy, times: seq<nat>, expires: bool)
    requires p.Valid() && (times != [] ==> Patient(p, times[0], times[1..]))
    ensures Ordered(0, times) && Decisions(p, Absent, times, expires) == AllTrue(|times|)
  {
    if times != [] {
      PatientCall(p, Absent, times[0], expires);
      TokensStayInRange(p, Absent, times[0], expires);
      PatientRunGranted(p, Eval(p, Absent, times[0], expires).bucket, times[1..], expires);
    }
  }

  // ---------------------------------------------------------------------------
  // Admission

  /** What happened to one rate-limited request: no Redis configured, an error (after the script
      ran, or without it), or an answer. */
  datatype Attempt = NoRedis | Failed(ran: Option<nat>) | Answered(at: nat)

  function TimeOf(a: Attempt): Option<nat> {
    match a
    case NoRedis => None
    case Failed(ran) => ran
    case Answered(at) => Some(at)
  }

  /** The times at which the script ran. */
  function Times(attempts: seq<Attempt>): seq<nat> {
    if attempts == [] then [] else
    var t := TimeOf(attempts[0]);
    (if t.Some? then [t.value] else []) + Times(attempts[1..])
  }

  function FailOpens(attempts: seq<Attempt>): nat {
    if attempts == [] then 0 else (if attempts[0].Answered? then 0 else 1) + FailOpens(attempts[1..])
  }

  /** The bucket after one attempt. */
  function AfterAttempt(p: Policy, b: Bucket, a: Attempt): Bucket
    requires p.Valid() && (TimeOf(a).Some? ==> Clock(b) <= TimeOf(a).value)
  {
    if TimeOf(a).Some? then Eval(p, b, TimeOf(a).value, true).bucket else b
  }

  /** Whether the request goes through. */
  predicate Passes(p: Policy, b: Bucket, a: Attempt)
    requires p.Valid() && (TimeOf(a).Some? ==> Clock(b) <= TimeOf(a).value)
  {
    a.Answered? ==> Eval(p, b, a.at, true).allowed
  }

  lemma TimesOrdered(b: Bucket, attempts: seq<Attempt>)
    requires attempts != [] && Ordered(Clock(b), Times(attempts))
    ensures var t := TimeOf(attempts[0]);
            && (t.Some? ==> Clock(b) <= t.value && Ordered(t.value, Times(attempts[1..])))
            && (t.None? ==> Ordered(Clock(b), Times(attempts[1..])))
  {
    var t, rest := TimeOf(attempts[0]), Times(attempts[1..]);
    if t.Some? {
      assert Times(attempts) == [t.value] + rest;
      assert Times(attempts)[1..] == rest;
    } else {
      assert Times(attempts) == [] + rest == rest;
    }
  }

  /** The number of requests of a run that go through. */
  function Admitted(p: Policy, b: Bucket, attempts: seq<Attempt>): nat
    requires p.Valid() && Ordered(Clock(b), Times(attempts))
    decreases |attempts|
  {
    if attempts == [] then 0 else
    TimesOrdered(b, attempts);
    (if Passes(p, b, attempts[0]) then 1 else 0) + Admitted(p, AfterAttempt(p, b, attempts[0]), attempts[1..])
  }

  function Last(from: nat, times: seq<nat>): nat {
    if times == [] then from else times[|times| - 1]
  }

  /** `n` times `x`. */
  function Copies(n: nat, x: nat): nat {
    if n == 0 then 0 else Copies(n - 1, x) + x
  }

  lemma {:induction false} CopiesMultiply(n: nat, x: nat)
    ensures Copies(n, x) == n * x
  {
    if n != 0 {
      CopiesMultiply(n - 1, x);
      assert n * x == (n - 1) * x + x;
    }
  }

  /** What one lapse can add over a bucket that kept its key. */
  function LapseGain(p: Policy): nat {
    if p.burst > p.requests then p.burst - p.requests else 0
  }

  lemma LevelBudget(p: Policy, b: Bucket, now: nat)
    requires p.Valid() && NonNegative(b) && b.Present? && b.updated <= now
    ensures Level(p, b, now, true) <=
            b.tokens + p.Refill(now - b.updated) + (if now - b.updated >= p.LapseGap() then LapseGain(p) as real else 0.0)
  {
    if now - b.updated >= p.LapseGap() {
      assert (now - b.updated) * p.requests >= (2 * p.window) * p.requests;
      RefillAtLeast(p, now - b.updated, 2 * p.requests);
    }
  }

  /** A request that passes costs a token or a fail-open. */
  lemma PassIsPaid(p: Policy, b: Bucket, a: Attempt)
    requires p.Valid() && NonNegative(b) && TimeOf(a).Some? && Clock(b) <= TimeOf(a).value
    ensures var after := AfterAttempt(p, b, a);
            && after.Present? && after.updated == TimeOf(a).value && InRange(p, after)
            && (if Passes(p, b, a) then 1.0 else 0.0) + after.tokens <=
               Level(p, b, TimeOf(a).value, true) + (if a.Answered? then 0.0 else 1.0)
  {
    TokensStayInRange(p, b, TimeOf(a).value, true);
  }

  /** A run that begins with a call of the script. */
  lemma FirstCall(p: Policy, b: Bucket, attempts: seq<Attempt>)
    requires p.Valid() && NonNegative(b) && attempts != [] && Ordered(Clock(b), Times(attempts))
    requires TimeOf(attempts[0]).Some?
    ensures var now, rest := TimeOf(attempts[0]).value, attempts[1..];
            var after := AfterAttempt(p, b, attempts[0]);
            && Clock(b) <= now && Times(attempts) == [now] + Times(rest)
            && after.Present? && after.updated == now && InRange(p, after) && Ordered(now, Times(rest))
            && (Admitted(p, b, attempts) as real - FailOpens(attempts) as real + after.tokens <=
                Level(p, b, now, true) + (Admitted(p, after, rest) as real - FailOpens(rest) as real))
  {
    hide Level, Eval;
    TimesOrdered(b, attempts);
    PassIsPaid(p, b, attempts[0]);
  }

  /** A run that begins with an attempt that never reached the script. */
  lemma FirstMiss(p: Policy, b: Bucket, attempts: seq<Attempt>)
    requires p.Valid() && attempts != [] && Ordered(Clock(b), Times(attempts))
    requires TimeOf(attempts[0]).None?
    ensures var rest := attempts[1..];
            && Times(attempts) == Times(rest) && Ordered(Clock(b), Times(rest))
            && Admitted(p, b, attempts) - FailOpens(attempts) == Admitted(p, b, rest) - FailOpens(rest)
  {
    TimesOrdered(b, attempts);
    assert [] + Times(attempts[1..]) == Times(attempts[1..]);
  }

  /** From a bucket in use: the requests admitted beyond the fail-open ones are paid for by the
      tokens present, the refill, and the gain of each lapse, and lapses need long silences. */
  lemma {:induction false} Budget(p: Policy, b: Bucket, attempts: seq<Attempt>) returns (lapses: nat)
    requires p.Valid() && NonNegative(b) && b.Present? && Ordered(b.updated, Times(attempts))
    ensures b.updated <= Last(b.updated, Times(attempts))
    ensures Copies(lapses, 2 * p.window) <= Last(b.updated, Times(attempts)) - b.updated
    ensures Admitted(p, b, attempts) as real - FailOpens(attempts) as real <=
            b.tokens + p.Refill(Last(b.updated, Times(attempts)) - b.updated) + Copies(lapses, LapseGain(p)) as real
    decreases |attempts|
  {
    hide Level, Eval;
    if attempts == [] {
      lapses := 0;
    } else if TimeOf(attempts[0]).None? {
      FirstMiss(p, b, attempts);
      lapses := Budget(p, b, attempts[1..]);
    } else {
      var now, rest := TimeOf(attempts[0]).value, attempts[1..];
      FirstCall(p, b, attempts);
      var more := Budget(p, AfterAttempt(p, b, attempts[0]), rest);
      lapses := BudgetStep(p, b, now, Last(now, Times(rest)), more);
    }
  }

  lemma BudgetStep(p: Policy, b: Bucket, now: nat, end: nat, more: nat) returns (lapses: nat)
    requires p.Valid() && NonNegative(b) && b.Present? && b.updated <= now <= end
    requires Copies(more, 2 * p.window) <= end - now
    ensures Copies(lapses, 2 * p.window) <= end - b.updated
    ensures Level(p, b, now, true) + p.Refill(end - now) + Copies(more, LapseGain(p)) as real <=
            b.tokens + p.Refill(end - b.updated) + Copies(lapses, LapseGain(p)) as real
  {
    LevelBudget(p, b, now);
    assert end - b.updated == (now - b.updated) + (end - now);
    RefillAdds(p, now - b.updated, end - now);
    lapses := if now - b.updated >= p.LapseGap() then more + 1 else more;
  }

  lemma QuotientBound(n: nat, w: nat, span: nat)
    requires w >= 1 && n * w <= span
    ensures n <= span / w
  {
    assert span < (span / w + 1) * w;
  }

  lemma MultiplyMonotone(a: nat, b: nat, x: nat)
    requires a <= b
    ensures a * x <= b * x
  {
  }

  lemma LapsesFit(window: nat, lapses: nat, span: nat, gain: nat)
    requires window >= 1 && Copies(lapses, 2 * window) <= span
    ensures Copies(lapses, gain) <= (span / (2 * window)) * gain
  {
    CopiesMultiply(lapses, 2 * window);
    QuotientBound(lapses, 2 * window, span);
    CopiesMultiply(lapses, gain);
    MultiplyMonotone(lapses, span / (2 * window), gain);
  }

  /** The time from the first to the last call of an ordered run. */
  function Span(times: seq<nat>): int {
    if times == [] then 0 else times[|times| - 1] as int - times[0] as int
  }

  /** The admission bound. However the requests fall, in a run whose script calls span D
      milliseconds at most capacity + D*requests/window + floor(D/(2*window))*max(0, burst -
      requests) go through, plus one for each increment of the fail-open counter. */
  lemma {:induction false} AdmissionBound(p: Policy, b: Bucket, attempts: seq<Attempt>)
    requires p.Valid() && NonNegative(b) && Ordered(Clock(b), Times(attempts))
    ensures Span(Times(attempts)) >= 0
    ensures var d := Span(Times(attempts));
            Admitted(p, b, attempts) as real <=
              p.Capacity() as real + p.Refill(d) + ((d / (2 * p.window)) * LapseGain(p)) as real
              + FailOpens(attempts) as real
    decreases |attempts|
  {
    hide Level, Eval;
    if attempts == [] {
      LapsesFit(p.window, 0, 0, LapseGain(p));
    } else if TimeOf(attempts[0]).None? {
      FirstMiss(p, b, attempts);
      AdmissionBound(p, b, attempts[1..]);
    } else {
      var now, rest := TimeOf(attempts[0]).value, attempts[1..];
      FirstCall(p, b, attempts);
      TokensStayInRange(p, b, now, true);
      var lapses := Budget(p, AfterAttempt(p, b, attempts[0]), rest);
      LapsesFit(p.window, lapses, Last(now, Times(rest)) - now, LapseGain(p));
    }
  }

  // ---------------------------------------------------------------------------
  // The script and the handler

  /** One bucket in Redis, and the counter of the gateway that uses it. */
  class RateLimiter {
    const policy: Policy
    var stored: bool
    var tokens: real
    var updated: nat
    var expiresAt: nat
    var rateFailOpen: nat

    ghost predicate Valid()
      reads this
    {
      policy.Valid() && (stored ==> expiresAt == updated + 2 * policy.window)
    }

    ghost function Contents(): Bucket
      reads this
    {
      if stored then Present(tokens, updated) else Absent
    }

    constructor (policy: Policy)
      requires policy.Valid()
      ensures Valid() && this.policy == policy && Contents() == Absent && rateFailOpen == 0
    {
      this.policy := policy;
      stored, tokens, updated, expiresAt, rateFailOpen := false, 0.0, 0, 0, 0;
    }

    /** The reading half of tokenBucketScript: the tokens available at `now`. */
    method Available(now: nat) returns (level: real)
      requires Valid() && Clock(Contents()) <= now
      ensures level == Level(policy, Contents(), now, true)
    {
      var capacity := policy.Capacity() as real;
      var found := stored && now <= expiresAt && !(policy.lapsesAtLimit && now == expiresAt);
      level := if found then tokens else capacity;
      var since := if found then updated else now;
      assert found == Visible(policy, Contents(), now, true).Present?;
      var refill := (now - since) as real * policy.requests as real / policy.window as real;
      assert refill == policy.Refill(now - since) by { RefillFormula(policy, now - since); }
      level := Min(capacity, level + refill);
    }

    /** tokenBucketScript, which Redis runs without interruption. */
    method Script(now: nat) returns (allowed: bool)
      requires Valid() && Clock(Contents()) <= now
      modifies this
      ensures Valid() && rateFailOpen == old(rateFailOpen)
      ensures Verdict(Contents(), allowed) == Eval(policy, old(Contents()), now, true)
    {
      var level := Available(now);
      allowed := false;
      if level >= 1.0 {
        level := level - 1.0;
        allowed := true;
      }
      stored, tokens, updated := true, level, now;
      expiresAt := now + policy.window * 2;
    }

    /** allowRequest on a route with a rate policy: the counter grows by one exactly when the
        request passes because Redis did not answer. */
    method AllowRequest(attempt: Attempt) returns (allowed: bool)
      requires Valid() && (TimeOf(attempt).Some? ==> Clock(Contents()) <= TimeOf(attempt).value)
      modifies this
      ensures Valid()
      ensures allowed == Passes(policy, old(Contents()), attempt)
      ensures Contents() == AfterAttempt(policy, old(Contents()), attempt)
      ensures rateFailOpen == old(rateFailOpen) + FailOpens([attempt])
    {
      match attempt
      case NoRedis =>
        rateFailOpen := rateFailOpen + 1;
        allowed := true;
      case Failed(ran) =>
        if ran.Some? {
          var unseen := Script(ran.value);
        }
        rateFailOpen := rateFailOpen + 1;
        allowed := true;
      case Answered(at) =>
        allowed := Script(at);
    }
  }
}
