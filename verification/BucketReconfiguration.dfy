/** A bucket whose policy changes while it is in use. The Redis key names the route and the caller
    and nothing of the policy, so a reconfiguration takes over the tokens and the time to live that
    the former policy left. */
module BucketReconfiguration {
  import opened Basics
  import opened TokenBucket

  /** The hash, and the shortest silence after which it is gone, set by the last call's policy. */
  datatype Held = Held(bucket: Bucket, gap: nat)

  /** A request under the policy its route has at that time. */
  datatype Call = Call(policy: Policy, attempt: Attempt)

  predicate Lapsed(h: Held, now: nat)
    requires Clock(h.bucket) <= now
  {
    h.bucket.Present? && now - h.bucket.updated >= h.gap
  }

  function Found(h: Held, now: nat): Bucket
    requires Clock(h.bucket) <= now
  {
    if Lapsed(h, now) then Absent else h.bucket
  }

  /** The script does not see the expiry: it finds the hash or it does not. */
  function LevelUnder(p: Policy, h: Held, now: nat): real
    requires p.Valid() && Clock(h.bucket) <= now
  {
    Level(p, Found(h, now), now, false)
  }

  function EvalUnder(p: Policy, h: Held, now: nat): Verdict
    requires p.Valid() && Clock(h.bucket) <= now
  {
    Take(LevelUnder(p, h, now), now)
  }

  predicate Timely(h: Held, c: Call) {
    c.policy.Valid() && (TimeOf(c.attempt).Some? ==> Clock(h.bucket) <= TimeOf(c.attempt).value)
  }

  function AfterCall(h: Held, c: Call): Held
    requires Timely(h, c)
  {
    if TimeOf(c.attempt).None? then h
    else Held(EvalUnder(c.policy, h, TimeOf(c.attempt).value).bucket, c.policy.LapseGap())
  }

  predicate PassesUnder(h: Held, c: Call)
    requires Timely(h, c)
  {
    c.attempt.Answered? ==> EvalUnder(c.policy, h, c.attempt.at).allowed
  }

  /** Calls at nondecreasing times, under valid policies. */
  predicate TimelyRun(h: Held, calls: seq<Call>)
    decreases |calls|
  {
    calls == [] || (Timely(h, calls[0]) && TimelyRun(AfterCall(h, calls[0]), calls[1..]))
  }

  function AfterCalls(h: Held, calls: seq<Call>): Held
    requires TimelyRun(h, calls)
    decreases |calls|
  {
    if calls == [] then h else AfterCalls(AfterCall(h, calls[0]), calls[1..])
  }

  function AdmittedUnder(h: Held, calls: seq<Call>): nat
    requires TimelyRun(h, calls)
    decreases |calls|
  {
    if calls == [] then 0 else
    (if PassesUnder(h, calls[0]) then 1 else 0) + AdmittedUnder(AfterCall(h, calls[0]), calls[1..])
  }

  /** With one policy throughout, and a bucket of its own, this is the bucket of TokenBucket. */
  lemma SamePolicy(p: Policy, b: Bucket, now: nat)
    requires p.Valid() && Clock(b) <= now
    ensures EvalUnder(p, Held(b, p.LapseGap()), now) == Eval(p, b, now, true)
  {
  }

  // ---------------------------------------------------------------------------
  // The range

  /** After every call that reached the script the tokens are between zero and the capacity of that
      call's policy, whatever the former ones were. */
  lemma {:induction false} ReconfiguredStaysInRange(h: Held, calls: seq<Call>)
    requires TimelyRun(h, calls) && NonNegative(h.bucket)
    ensures NonNegative(AfterCalls(h, calls).bucket)
    ensures calls != [] && TimeOf(calls[|calls| - 1].attempt).Some? ==>
              InRange(calls[|calls| - 1].policy, AfterCalls(h, calls).bucket)
    decreases |calls|
  {
    hide Level;
    if calls != [] {
      CallInRange(h, calls[0]);
      ReconfiguredStaysInRange(AfterCall(h, calls[0]), calls[1..]);
    }
  }

  lemma CallInRange(h: Held, c: Call)
    requires Timely(h, c) && NonNegative(h.bucket)
    ensures NonNegative(AfterCall(h, c).bucket)
    ensures TimeOf(c.attempt).Some? ==> InRange(c.policy, AfterCall(h, c).bucket)
  {
    if TimeOf(c.attempt).Some? {
      var now := TimeOf(c.attempt).value;
      TokensStayInRange(c.policy, Found(h, now), now, false);
    }
  }

  // ---------------------------------------------------------------------------
  // Conservation

  function Tokens(b: Bucket): real {
    if b.Present? then b.tokens else 0.0
  }

  function Max(a: real, b: real): real {
    if a < b then b else a
  }

  /** What a call can add to the tokens it finds: the refill at its own policy's rate, for the whole
      time since the last call, and a full bucket if there is none. */
  function Credit(h: Held, c: Call): real
    requires Timely(h, c)
  {
    if TimeOf(c.attempt).None? then 0.0 else
    var now, full := TimeOf(c.attempt).value, c.policy.Capacity() as real;
    if h.bucket.Absent? then full
    else if Lapsed(h, now) then Max(full, c.policy.Refill(now - h.bucket.updated))
    else c.policy.Refill(now - h.bucket.updated)
  }

  function Credits(h: Held, calls: seq<Call>): real
    requires TimelyRun(h, calls)
    decreases |calls|
  {
    if calls == [] then 0.0 else Credit(h, calls[0]) + Credits(AfterCall(h, calls[0]), calls[1..])
  }

  function FailOpen(c: Call): nat {
    if c.attempt.Answered? then 0 else 1
  }

  function FailOpensUnder(calls: seq<Call>): nat {
    if calls == [] then 0 else FailOpen(calls[0]) + FailOpensUnder(calls[1..])
  }

  lemma LevelWithinCredit(h: Held, c: Call)
    requires Timely(h, c) && NonNegative(h.bucket) && TimeOf(c.attempt).Some?
    ensures LevelUnder(c.policy, h, TimeOf(c.attempt).value) <= Tokens(h.bucket) + Credit(h, c)
  {
  }

  /** A request that passes costs a token or a fail-open. */
  lemma CallIsPaid(h: Held, c: Call)
    requires Timely(h, c) && NonNegative(h.bucket)
    ensures (if PassesUnder(h, c) then 1.0 else 0.0) + Tokens(AfterCall(h, c).bucket) <=
            Tokens(h.bucket) + Credit(h, c) + FailOpen(c) as real
  {
    if TimeOf(c.attempt).Some? {
      LevelWithinCredit(h, c);
      hide LevelUnder, Credit;
    }
  }

  /** Conservation: whatever policies a bucket goes through, what passes beyond the fail-opens and
      what is left in the end is covered by the tokens at the start and the credit of each call. */
  lemma {:induction false} ReconfiguredConserves(h: Held, calls: seq<Call>)
    requires TimelyRun(h, calls) && NonNegative(h.bucket)
    ensures AdmittedUnder(h, calls) as real + Tokens(AfterCalls(h, calls).bucket) <=
            Tokens(h.bucket) + Credits(h, calls) + FailOpensUnder(calls) as real
    decreases |calls|
  {
    hide Level, Credit, PassesUnder, AfterCall, FailOpen;
    if calls != [] {
      CallIsPaid(h, calls[0]);
      CallInRange(h, calls[0]);
      ReconfiguredConserves(AfterCall(h, calls[0]), calls[1..]);
    }
  }

  // ---------------------------------------------------------------------------
  // A bound by what all policies have in common

  /** What the policies of a run have in common: no capacity above `most`, no rate above `rate` a
      millisecond, no window below `least`, and no bucket that two such windows leave more than
      `gain` short of full. */
  datatype Limits = Limits(most: nat, rate: real, least: nat, gain: nat)

  ghost predicate Within(p: Policy, l: Limits) {
    && p.Valid() && p.Capacity() <= l.most && p.window >= l.least
    && p.requests as real / p.window as real <= l.rate
    && p.Capacity() as real - p.Refill(2 * l.least) <= l.gain as real
  }

  ghost predicate AllWithin(calls: seq<Call>, l: Limits) {
    forall i :: 0 <= i < |calls| ==> Within(calls[i].policy, l)
  }

  /** `gap` milliseconds at this rate, one after the other. */
  function Flow(rate: real, gap: nat): real {
    if gap == 0 then 0.0 else Flow(rate, gap - 1) + rate
  }

  lemma {:induction false} FlowMultiplies(rate: real, gap: nat)
    ensures Flow(rate, gap) == rate * gap as real
  {
    if gap > 0 {
      FlowMultiplies(rate, gap - 1);
      assert rate * gap as real == rate * (gap - 1) as real + rate;
    }
  }

  lemma {:induction false} FlowAdds(rate: real, a: nat, b: nat)
    ensures Flow(rate, a + b) == Flow(rate, a) + Flow(rate, b)
  {
    if b > 0 {
      FlowAdds(rate, a, b - 1);
      assert a + b - 1 == a + (b - 1);
    }
  }

  lemma {:induction false} RefillWithin(p: Policy, l: Limits, gap: nat)
    requires Within(p, l)
    ensures 0.0 <= p.Refill(gap) <= Flow(l.rate, gap)
  {
    if gap > 0 {
      RefillWithin(p, l, gap - 1);
      assert p.requests as real / p.window as real >= 0.0;
    }
  }

  /** When the last of the calls that reached the script did so. */
  function LastAt(from: nat, calls: seq<Call>): nat
    decreases |calls|
  {
    if calls == [] then from else
    var t := TimeOf(calls[0].attempt);
    LastAt(if t.Some? then t.value else from, calls[1..])
  }

  lemma {:induction false} CreditsWithin(h: Held, calls: seq<Call>, l: Limits) returns (lapses: nat)
    requires TimelyRun(h, calls) && AllWithin(calls, l)
    requires h.bucket.Present? && h.gap >= 2 * l.least
    ensures h.bucket.updated <= LastAt(h.bucket.updated, calls)
    ensures Copies(lapses, 2 * l.least) <= LastAt(h.bucket.updated, calls) - h.bucket.updated
    ensures Credits(h, calls) <=
            Flow(l.rate, LastAt(h.bucket.updated, calls) - h.bucket.updated) + Copies(lapses, l.gain) as real
    decreases |calls|
  {
    hide Level, Credit, Copies, Flow, EvalUnder;
    if calls == [] {
      lapses := 0;
      NothingFlows(l);
    } else {
      assert Within(calls[0].policy, l);
      var after := AfterCall(h, calls[0]);
      if TimeOf(calls[0].attempt).None? {
        NoCredit(h, calls[0]);
        lapses := CreditsWithin(h, calls[1..], l);
      } else {
        AfterScript(h, calls[0]);
        var more := CreditsWithin(after, calls[1..], l);
        lapses := CreditStep(h, calls[0], l, LastAt(h.bucket.updated, calls), more);
      }
    }
  }

  lemma NothingFlows(l: Limits)
    ensures Flow(l.rate, 0) == 0.0 && Copies(0, l.gain) == 0 && Copies(0, 2 * l.least) == 0
  {
  }

  lemma AfterScript(h: Held, c: Call)
    requires Timely(h, c) && TimeOf(c.attempt).Some?
    ensures AfterCall(h, c).bucket.Present? && AfterCall(h, c).bucket.updated == TimeOf(c.attempt).value
    ensures AfterCall(h, c).gap == c.policy.LapseGap() >= 2 * c.policy.window
  {
  }

  lemma NoCredit(h: Held, c: Call)
    requires Timely(h, c) && TimeOf(c.attempt).None?
    ensures Credit(h, c) == 0.0 && AfterCall(h, c) == h
  {
  }

  lemma CreditStep(h: Held, c: Call, l: Limits, end: nat, more: nat) returns (lapses: nat)
    requires Timely(h, c) && TimeOf(c.attempt).Some? && Within(c.policy, l)
    requires h.bucket.Present? && h.gap >= 2 * l.least && TimeOf(c.attempt).value <= end
    requires Copies(more, 2 * l.least) <= end - TimeOf(c.attempt).value
    ensures Copies(lapses, 2 * l.least) <= end - h.bucket.updated
    ensures Credit(h, c) + Flow(l.rate, end - TimeOf(c.attempt).value) + Copies(more, l.gain) as real <=
            Flow(l.rate, end - h.bucket.updated) + Copies(lapses, l.gain) as real
  {
    var now := TimeOf(c.attempt).value;
    var gap := now - h.bucket.updated;
    RefillWithin(c.policy, l, gap);
    if Lapsed(h, now) {
      RefillAfterLapse(c.policy, l, gap);
    }
    FlowAdds(l.rate, end - now, gap);
    assert end - h.bucket.updated == (end - now) + gap;
    hide Flow, Level;
    lapses := if Lapsed(h, now) then more + 1 else more;
    CopiesOneMore(more, 2 * l.least);
    CopiesOneMore(more, l.gain);
  }

  /** A bucket that lapsed was no more than `gain` short of full. */
  lemma RefillAfterLapse(p: Policy, l: Limits, gap: nat)
    requires Within(p, l) && gap >= 2 * l.least
    ensures p.Capacity() as real <= p.Refill(gap) + l.gain as real
  {
    RefillAdds(p, 2 * l.least, gap - 2 * l.least);
    RefillWithin(p, l, gap - 2 * l.least);
    assert 2 * l.least + (gap - 2 * l.least) == gap;
  }

  lemma CopiesOneMore(n: nat, x: nat)
    ensures Copies(n + 1, x) == Copies(n, x) + x
  {
  }

  /** When the first call that reached the script did so. */
  function FirstAt(calls: seq<Call>): Option<nat> {
    if calls == [] then None
    else if TimeOf(calls[0].attempt).Some? then TimeOf(calls[0].attempt)
    else FirstAt(calls[1..])
  }

  /** What policies within these limits can admit over `span` milliseconds. */
  function Bound(l: Limits, span: nat): real
    requires l.least >= 1
  {
    l.most as real + l.rate * span as real + ((span / (2 * l.least)) * l.gain) as real
  }

  lemma BoundCovers(l: Limits, span: nat, lapses: nat)
    requires l.least >= 1 && Copies(lapses, 2 * l.least) <= span
    ensures l.most as real + Flow(l.rate, span) + Copies(lapses, l.gain) as real <= Bound(l, span)
  {
    LapsesFit(l.least, lapses, span, l.gain);
    FlowMultiplies(l.rate, span);
  }

  /** The admission bound under reconfiguration. From any bucket, also one a former policy left, a
      run whose calls span D milliseconds and whose policies are within the limits passes at most
      most + rate*D + floor(D/(2*least))*gain requests, plus one
      for each fail-open. */
  lemma {:induction false} ReconfiguredBound(h: Held, calls: seq<Call>, l: Limits)
    requires TimelyRun(h, calls) && NonNegative(h.bucket) && AllWithin(calls, l) && l.least >= 1
    ensures FirstAt(calls).None? ==> AdmittedUnder(h, calls) == FailOpensUnder(calls)
    ensures FirstAt(calls).Some? ==>
              var span := LastAt(FirstAt(calls).value, calls) - FirstAt(calls).value;
              span >= 0 && AdmittedUnder(h, calls) as real <= Bound(l, span) + FailOpensUnder(calls) as real
    decreases |calls|
  {
    hide Bound, Level, Credit, LevelUnder, EvalUnder;
    if calls != [] {
      assert Within(calls[0].policy, l);
      if TimeOf(calls[0].attempt).None? {
        NoCredit(h, calls[0]);
        ReconfiguredBound(h, calls[1..], l);
        SkipMiss(calls);
      } else {
        BoundFromFirst(h, calls, l);
      }
    }
  }

  lemma SkipMiss(calls: seq<Call>)
    requires calls != [] && TimeOf(calls[0].attempt).None?
    ensures FirstAt(calls) == FirstAt(calls[1..])
    ensures forall t: nat :: LastAt(t, calls) == LastAt(t, calls[1..])
  {
  }

  /** The case of a run that begins with a call of the script. */
  lemma BoundFromFirst(h: Held, calls: seq<Call>, l: Limits)
    requires TimelyRun(h, calls) && NonNegative(h.bucket) && AllWithin(calls, l) && l.least >= 1
    requires calls != [] && TimeOf(calls[0].attempt).Some?
    ensures var now := TimeOf(calls[0].attempt).value;
            var span := LastAt(now, calls) - now;
            span >= 0 && AdmittedUnder(h, calls) as real <= Bound(l, span) + FailOpensUnder(calls) as real
  {
    hide Bound, Credit, Level, Copies, Flow, EvalUnder, PassesUnder, FailOpen;
    var c, rest := calls[0], calls[1..];
    var now, after := TimeOf(c.attempt).value, AfterCall(h, c);
    assert Within(c.policy, l);
    FirstIsPaid(h, c);
    CallInRange(h, c);
    ReconfiguredConserves(after, rest);
    CallInRangeRun(after, rest);
    var lapses := CreditsWithin(after, rest, l);
    BoundCovers(l, LastAt(now, rest) - now, lapses);
  }

  lemma CallInRangeRun(h: Held, calls: seq<Call>)
    requires TimelyRun(h, calls) && NonNegative(h.bucket)
    ensures Tokens(AfterCalls(h, calls).bucket) >= 0.0
  {
    ReconfiguredStaysInRange(h, calls);
  }

  /** The first call finds at most its own capacity. */
  lemma FirstIsPaid(h: Held, c: Call)
    requires Timely(h, c) && NonNegative(h.bucket) && TimeOf(c.attempt).Some?
    ensures (if PassesUnder(h, c) then 1.0 else 0.0) + Tokens(AfterCall(h, c).bucket) <=
            c.policy.Capacity() as real + FailOpen(c) as real
    ensures AfterCall(h, c).bucket == Present(Tokens(AfterCall(h, c).bucket), TimeOf(c.attempt).value)
    ensures AfterCall(h, c).gap == c.policy.LapseGap()
  {
    var now := TimeOf(c.attempt).value;
    TokensStayInRange(c.policy, Found(h, now), now, false);
  }

  /** One policy alone is within limits that give the bound of TokenBucket.AdmissionBound. */
  lemma OwnLimits(p: Policy)
    requires p.Valid()
    ensures Within(p, Limits(p.Capacity(), p.requests as real / p.window as real, p.window, LapseGain(p)))
  {
    assert (2 * p.window) * p.requests == (2 * p.requests) * p.window;
    RefillAtLeast(p, 2 * p.window, 2 * p.requests);
  }
}
