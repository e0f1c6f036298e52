/** What a refused call costs its caller, and what a bucket admits at least. */
module BucketRefusals {
  import opened Basics
  import opened TokenBucket

  // ---------------------------------------------------------------------------
  // A refused call takes nothing

  /** A refused call is forgotten: on a bucket that keeps its key, whoever asks later finds what it
      would have found without that call. */
  lemma RefusalTakesNothing(p: Policy, b: Bucket, t: nat, later: nat)
    requires p.Valid() && NonNegative(b) && Clock(b) <= t <= later && !Eval(p, b, t, false).allowed
    ensures Level(p, Eval(p, b, t, false).bucket, later, false) == Level(p, b, later, false)
  {
    if b.Present? {
      RefillAdds(p, t - b.updated, later - t);
      assert (t - b.updated) + (later - t) == later - b.updated;
    }
  }

  /** Two buckets that nobody can tell apart from `from` on. */
  ghost predicate Alike(p: Policy, a: Bucket, b: Bucket, from: nat)
    requires p.Valid() && Clock(a) <= from && Clock(b) <= from
  {
    forall t: nat :: t >= from ==> Level(p, a, t, false) == Level(p, b, t, false)
  }

  lemma AlikeAfterRefusal(p: Policy, a: Bucket, b: Bucket, from: nat, t: nat)
    requires p.Valid() && NonNegative(a) && Clock(a) <= from && Clock(b) <= from <= t && Alike(p, a, b, from)
    requires !Eval(p, a, t, false).allowed
    ensures Clock(Eval(p, a, t, false).bucket) <= t && Alike(p, Eval(p, a, t, false).bucket, b, t)
  {
    var after := Eval(p, a, t, false).bucket;
    forall later: nat | later >= t ensures Level(p, after, later, false) == Level(p, b, later, false) {
      RefusalTakesNothing(p, a, t, later);
    }
  }

  // ---------------------------------------------------------------------------
  // Leaving refused calls out

  /** The elements to keep. */
  function Select<T>(xs: seq<T>, keep: seq<bool>): (r: seq<T>)
    requires |keep| == |xs|
  {
    if xs == [] then [] else (if keep[0] then [xs[0]] else []) + Select(xs[1..], keep[1..])
  }

  ghost predicate KeepsGranted(decisions: seq<bool>, keep: seq<bool>) {
    |keep| == |decisions| && forall i :: 0 <= i < |keep| && decisions[i] ==> keep[i]
  }

  lemma OrderedEarlier(c: nat, from: nat, times: seq<nat>)
    requires c <= from && Ordered(from, times)
    ensures Ordered(c, times)
  {
  }

  lemma {:induction false} SelectOrdered(from: nat, times: seq<nat>, keep: seq<bool>)
    requires Ordered(from, times) && |keep| == |times|
    ensures Ordered(from, Select(times, keep))
    decreases |times|
  {
    if times != [] {
      var rest := Select(times[1..], keep[1..]);
      SelectOrdered(times[0], times[1..], keep[1..]);
      if keep[0] {
        assert ([times[0]] + rest)[1..] == rest;
      } else {
        assert [] + rest == rest;
        OrderedEarlier(from, times[0], rest);
      }
    }
  }

  lemma DecisionsCons(p: Policy, b: Bucket, t: nat, rest: seq<nat>, expires: bool)
    requires p.Valid() && Clock(b) <= t && Ordered(t, rest)
    ensures Ordered(Clock(b), [t] + rest)
    ensures var v := Eval(p, b, t, expires);
            Clock(v.bucket) == t && Decisions(p, b, [t] + rest, expires) == [v.allowed] + Decisions(p, v.bucket, rest, expires)
  {
    assert ([t] + rest)[1..] == rest;
  }

  lemma SelectCons<T>(x: T, xs: seq<T>, k: bool, ks: seq<bool>)
    requires |xs| == |ks|
    ensures Select([x] + xs, [k] + ks) == (if k then [x] else []) + Select(xs, ks)
  {
    assert ([x] + xs)[1..] == xs && ([k] + ks)[1..] == ks;
  }

  lemma KeptTail(d: bool, ds: seq<bool>, keep: seq<bool>)
    requires KeepsGranted([d] + ds, keep)
    ensures keep == [keep[0]] + keep[1..] && KeepsGranted(ds, keep[1..]) && (d ==> keep[0])
  {
    forall i | 0 <= i < |ds| && ds[i] ensures keep[1..][i] {
      assert ([d] + ds)[i + 1] == ds[i];
    }
    assert ([d] + ds)[0] == d;
  }

  /** The first call is made in both runs, with the same decision. */
  lemma MadeInBoth(p: Policy, a: Bucket, b: Bucket, t: nat, rest: seq<nat>, keep: seq<bool>, expires: bool)
    requires p.Valid() && Clock(a) <= t && Clock(b) <= t && Ordered(t, rest) && |keep| == 1 + |rest| && keep[0]
    requires Eval(p, b, t, expires) == Eval(p, a, t, expires)
    requires var c := Eval(p, a, t, expires).bucket; var kept := Select(rest, keep[1..]);
             && Clock(c) == t && Ordered(t, kept)
             && Decisions(p, c, kept, expires) == Select(Decisions(p, c, rest, expires), keep[1..])
    ensures Ordered(Clock(a), [t] + rest) && Ordered(Clock(b), Select([t] + rest, keep))
    ensures Decisions(p, b, Select([t] + rest, keep), expires) == Select(Decisions(p, a, [t] + rest, expires), keep)
  {
    hide Eval, Level, Decisions, Select, Ordered;
    var v := Eval(p, a, t, expires);
    assert keep == [true] + keep[1..];
    DecisionsCons(p, a, t, rest, expires);
    DecisionsCons(p, b, t, Select(rest, keep[1..]), expires);
    SelectCons(t, rest, true, keep[1..]);
    SelectCons(v.allowed, Decisions(p, v.bucket, rest, expires), true, keep[1..]);
  }

  /** The first call is left out of the second run. */
  lemma LeftOutOfOne(p: Policy, a: Bucket, b: Bucket, t: nat, rest: seq<nat>, keep: seq<bool>, expires: bool)
    requires p.Valid() && Clock(a) <= t && Clock(b) <= t && Ordered(t, rest) && |keep| == 1 + |rest| && !keep[0]
    requires var c := Eval(p, a, t, expires).bucket; var kept := Select(rest, keep[1..]);
             && Clock(c) == t && Ordered(Clock(b), kept)
             && Decisions(p, b, kept, expires) == Select(Decisions(p, c, rest, expires), keep[1..])
    ensures Ordered(Clock(a), [t] + rest) && Ordered(Clock(b), Select([t] + rest, keep))
    ensures Decisions(p, b, Select([t] + rest, keep), expires) == Select(Decisions(p, a, [t] + rest, expires), keep)
  {
    hide Eval, Level, Decisions, Select, Ordered;
    var v := Eval(p, a, t, expires);
    var kept, ds := Select(rest, keep[1..]), Decisions(p, v.bucket, rest, expires);
    assert keep == [false] + keep[1..];
    DecisionsCons(p, a, t, rest, expires);
    SelectCons(t, rest, false, keep[1..]);
    SelectCons(v.allowed, ds, false, keep[1..]);
    assert [] + kept == kept && [] + Select(ds, keep[1..]) == Select(ds, keep[1..]);
  }

  lemma {:induction false} LeaveOutAlike(p: Policy, a: Bucket, b: Bucket, from: nat, times: seq<nat>, keep: seq<bool>)
    requires p.Valid() && NonNegative(a) && Clock(a) <= from && Clock(b) <= from && Alike(p, a, b, from)
    requires Ordered(from, times) && Ordered(Clock(a), times) && KeepsGranted(Decisions(p, a, times, false), keep)
    ensures Ordered(Clock(b), Select(times, keep))
    ensures Decisions(p, b, Select(times, keep), false) == Select(Decisions(p, a, times, false), keep)
    decreases |times|
  {
    hide Level;
    if times != [] {
      var t, rest := times[0], times[1..];
      assert times == [t] + rest;
      var v := Eval(p, a, t, false);
      DecisionsCons(p, a, t, rest, false);
      KeptTail(v.allowed, Decisions(p, v.bucket, rest, false), keep);
      TokensStayInRange(p, a, t, false);
      SelectOrdered(t, rest, keep[1..]);
      if keep[0] {
        assert Level(p, a, t, false) == Level(p, b, t, false);
        LeaveOutAlike(p, v.bucket, v.bucket, t, rest, keep[1..]);
        MadeInBoth(p, a, b, t, rest, keep, false);
      } else {
        AlikeAfterRefusal(p, a, b, from, t);
        LeaveOutAlike(p, v.bucket, b, t, rest, keep[1..]);
        LeftOutOfOne(p, a, b, t, rest, keep, false);
      }
    }
  }

  /** On a bucket that keeps its key, leaving out any of the refused calls of a run changes no
      decision of the remaining ones. */
  lemma RefusalsCanBeLeftOut(p: Policy, b: Bucket, times: seq<nat>, keep: seq<bool>)
    requires p.Valid() && NonNegative(b) && Ordered(Clock(b), times) && KeepsGranted(Decisions(p, b, times, false), keep)
    ensures Ordered(Clock(b), Select(times, keep))
    ensures Decisions(p, b, Select(times, keep), false) == Select(Decisions(p, b, times, false), keep)
  {
    LeaveOutAlike(p, b, b, Clock(b), times, keep);
  }

  // ---------------------------------------------------------------------------
  // With expiry

  /** At one token a millisecond or more, a call is refused only in the millisecond of another, and
      then leaves the bucket as it is. */
  lemma FastRefusalIsIdle(p: Policy, b: Bucket, t: nat)
    requires p.Valid() && p.requests >= p.window && NonNegative(b) && Clock(b) <= t && !Eval(p, b, t, true).allowed
    ensures Eval(p, b, t, true).bucket == b
  {
    if b.Present? && b.updated < t {
      var gap := t - b.updated;
      MultiplyMonotone(1, gap, p.requests);
      RefillAtLeast(p, gap, 1);
    }
  }

  lemma {:induction false} FastLeaveOut(p: Policy, b: Bucket, times: seq<nat>, keep: seq<bool>)
    requires p.Valid() && p.requests >= p.window && NonNegative(b)
    requires Ordered(Clock(b), times) && KeepsGranted(Decisions(p, b, times, true), keep)
    ensures Ordered(Clock(b), Select(times, keep))
    ensures Decisions(p, b, Select(times, keep), true) == Select(Decisions(p, b, times, true), keep)
    decreases |times|
  {
    hide Level;
    if times != [] {
      var t, rest := times[0], times[1..];
      assert times == [t] + rest;
      var v := Eval(p, b, t, true);
      DecisionsCons(p, b, t, rest, true);
      KeptTail(v.allowed, Decisions(p, v.bucket, rest, true), keep);
      TokensStayInRange(p, b, t, true);
      SelectOrdered(t, rest, keep[1..]);
      FastLeaveOut(p, v.bucket, rest, keep[1..]);
      if keep[0] {
        MadeInBoth(p, b, b, t, rest, keep, true);
      } else {
        FastRefusalIsIdle(p, b, t);
        LeftOutOfOne(p, b, b, t, rest, keep, true);
      }
    }
  }

  /** Leaving these calls out of this run of a fresh bucket changes no decision of the others. */
  ghost predicate FreeIn(p: Policy, times: seq<nat>, keep: seq<bool>)
    requires p.Valid() && Ordered(0, times) && |keep| == |times|
  {
    Ordered(0, Select(times, keep)) && Decisions(p, Absent, Select(times, keep), true) == Select(Decisions(p, Absent, times, true), keep)
  }

  ghost predicate RefusalsAreFree(p: Policy)
    requires p.Valid()
  {
    forall times: seq<nat>, keep: seq<bool> ::
      Ordered(0, times) && KeepsGranted(Decisions(p, Absent, times, true), keep) ==> FreeIn(p, times, keep)
  }

  lemma SelectAll<T>(xs: seq<T>)
    ensures Select(xs, AllTrue(|xs|)) == xs
  {
    if xs != [] {
      SelectAll(xs[1..]);
      assert AllTrue(|xs|)[1..] == AllTrue(|xs| - 1);
      assert xs == [xs[0]] + xs[1..];
    }
  }

  lemma {:induction false} SelectAppend<T>(xs: seq<T>, ys: seq<T>, ks: seq<bool>, ls: seq<bool>)
    requires |xs| == |ks| && |ys| == |ls|
    ensures Select(xs + ys, ks + ls) == Select(xs, ks) + Select(ys, ls)
    decreases |xs|
  {
    if xs == [] {
      assert xs + ys == ys && ks + ls == ls;
    } else {
      SelectAppend(xs[1..], ys, ks[1..], ls);
      assert (xs + ys)[1..] == xs[1..] + ys && (ks + ls)[1..] == ks[1..] + ls;
    }
  }

  /** Spend all, ask once in vain, and spend all again when the key would have lapsed. */
  function AskTooEarly(p: Policy): seq<nat> {
    Repeat(0, p.Capacity()) + ([1] + Repeat(p.LapseGap(), p.Capacity()))
  }

  function AllButThat(p: Policy): (r: seq<bool>)
    ensures |r| == 2 * p.Capacity() + 1
  {
    AllTrue(p.Capacity()) + ([false] + AllTrue(p.Capacity()))
  }

  lemma AskTooEarlySelects<T>(p: Policy, xs: seq<T>, y: T, zs: seq<T>)
    requires |xs| == |zs| == p.Capacity()
    ensures Select(xs + ([y] + zs), AllButThat(p)) == xs + zs
  {
    SelectAppend(xs, [y] + zs, AllTrue(|xs|), [false] + AllTrue(|zs|));
    SelectCons(y, zs, false, AllTrue(|zs|));
    SelectAll(xs);
    SelectAll(zs);
    assert [] + zs == zs;
  }

  /** The call in vain renews the key: what follows finds no full bucket. */
  lemma EarlyCallRenews(p: Policy)
    requires p.Valid() && !LapseRefills(p) && p.requests < p.window
    ensures !Eval(p, Present(0.0, 0), 1, true).allowed
    ensures var b := Eval(p, Present(0.0, 0), 1, true).bucket;
            b.Present? && b.updated == 1 && InRange(p, b) && Level(p, b, p.LapseGap(), true) < p.Capacity() as real
  {
    RefillBelow(p, 1, 1);
    RefillBelow(p, p.LapseGap(), p.Capacity());
    RefillAdds(p, 1, p.LapseGap() - 1);
    RefillAtLeast(p, 1, 0);
    TokensStayInRange(p, Present(0.0, 0), 1, true);
  }

  lemma AskTooEarlyDecided(p: Policy) returns (rest: seq<bool>)
    requires p.Valid() && !LapseRefills(p) && p.requests < p.window
    ensures Ordered(0, AskTooEarly(p)) && |rest| == p.Capacity() && rest != AllTrue(p.Capacity())
    ensures Decisions(p, Absent, AskTooEarly(p), true) == AllTrue(p.Capacity()) + ([false] + rest)
  {
    hide Level;
    var c, g := p.Capacity(), p.LapseGap();
    var tail := Repeat(g, c);
    RepeatOrdered(1, g, c, []);
    assert Ordered(0, [1] + tail) by { assert ([1] + tail)[1..] == tail; }
    RepeatOrdered(0, 0, c, [1] + tail);
    FullLevel(p);
    Drain(p, Absent, 0, c, true);
    RunAppend(p, Absent, Repeat(0, c), [1] + tail, true);
    EarlyCallRenews(p);
    var b := Eval(p, Present(0.0, 0), 1, true).bucket;
    DecisionsCons(p, Present(0.0, 0), 1, tail, true);
    Drain(p, b, g, c, true);
    rest := Decisions(p, b, tail, true);
  }

  lemma FullLevel(p: Policy)
    requires p.Valid()
    ensures Level(p, Absent, 0, true) == p.Capacity() as real
  {
  }

  lemma EarlyCallCounts(p: Policy)
    requires p.Valid() && !LapseRefills(p) && p.requests < p.window
    ensures !RefusalsAreFree(p)
  {
    hide Level, Select, Decisions;
    var c := p.Capacity();
    var rest := AskTooEarlyDecided(p);
    var times, keep := AskTooEarly(p), AllButThat(p);
    AskTooEarlySelects(p, Repeat(0, c), 1, Repeat(p.LapseGap(), c));
    AskTooEarlySelects(p, AllTrue(c), false, rest);
    ExpiryGrantsMore(p);
    AllTrueAdds(c, c);
    assert (AllTrue(c) + rest)[c..] == rest && (AllTrue(c) + AllTrue(c))[c..] == AllTrue(c);
    assert !FreeIn(p, times, keep);
    KeepsAllButThat(p, rest);
  }

  lemma KeepsAllButThat(p: Policy, rest: seq<bool>)
    requires |rest| == p.Capacity()
    ensures KeepsGranted(AllTrue(p.Capacity()) + ([false] + rest), AllButThat(p))
  {
    var c := p.Capacity();
    AllTrueAt(c);
    var keep := AllButThat(p);
    assert forall i :: 0 <= i < c ==> keep[i] == AllTrue(c)[i];
    assert forall i :: c < i < 2 * c + 1 ==> keep[i] == AllTrue(c)[i - c - 1];
  }

  lemma {:induction false} AllTrueAt(n: nat)
    ensures forall i :: 0 <= i < n ==> AllTrue(n)[i]
  {
    if n > 0 {
      AllTrueAt(n - 1);
    }
  }

  /** With expiry, refused calls can be left out of every run exactly when the shortest lapse refills
      the bucket, or it gains a token a millisecond; otherwise a call in vain can keep the key
      from lapsing and cost its caller a full bucket. */
  lemma RefusalsAreFreeExactly(p: Policy)
    requires p.Valid()
    ensures RefusalsAreFree(p) <==> LapseRefills(p) || p.requests >= p.window
  {
    hide Level, Select, Decisions;
    if LapseRefills(p) || p.requests >= p.window {
      forall times: seq<nat>, keep: seq<bool> | Ordered(0, times) && KeepsGranted(Decisions(p, Absent, times, true), keep)
        ensures FreeIn(p, times, keep)
      {
        if LapseRefills(p) {
          ExpiryRefines(p, Absent, times);
          RefusalsCanBeLeftOut(p, Absent, times, keep);
          ExpiryRefines(p, Absent, Select(times, keep));
        } else {
          FastLeaveOut(p, Absent, times, keep);
        }
      }
    } else {
      EarlyCallCounts(p);
    }
  }

  // ---------------------------------------------------------------------------
  // What is admitted at least

  function Granted(decisions: seq<bool>): nat {
    if decisions == [] then 0 else (if decisions[0] then 1 else 0) + Granted(decisions[1..])
  }

  /** What a call finds beyond the capacity is lost. */
  function Overflow(p: Policy, b: Bucket, now: nat): real
    requires p.Valid() && Clock(b) <= now
  {
    if b.Absent? then 0.0 else
    var all := b.tokens + p.Refill(now - b.updated);
    if all > p.Capacity() as real then all - p.Capacity() as real else 0.0
  }

  function Lost(p: Policy, b: Bucket, times: seq<nat>, expires: bool): real
    requires p.Valid() && Ordered(Clock(b), times)
    decreases |times|
  {
    if times == [] then 0.0
    else Overflow(p, b, times[0]) + Lost(p, Eval(p, b, times[0], expires).bucket, times[1..], expires)
  }

  lemma CallLosesOnlyOverflow(p: Policy, b: Bucket, now: nat, expires: bool)
    requires p.Valid() && NonNegative(b) && b.Present? && b.updated <= now
    ensures var v := Eval(p, b, now, expires);
            && v.bucket.Present? && v.bucket.updated == now
            && (if v.allowed then 1.0 else 0.0) + v.bucket.tokens >= b.tokens + p.Refill(now - b.updated) - Overflow(p, b, now)
            && (!v.allowed ==> v.bucket.tokens < 1.0)
  {
  }

  /** The lower bound that goes with the admission bound: tokens leave a bucket only through admitted
      calls and over the brim. */
  lemma {:induction false} AdmissionFloor(p: Policy, b: Bucket, times: seq<nat>, expires: bool)
    requires p.Valid() && NonNegative(b) && b.Present? && Ordered(b.updated, times)
    ensures After(p, b, times, expires).Present? && b.updated <= Last(b.updated, times)
    ensures Granted(Decisions(p, b, times, expires)) as real + After(p, b, times, expires).tokens >=
            b.tokens + p.Refill(Last(b.updated, times) - b.updated) - Lost(p, b, times, expires)
    decreases |times|
  {
    hide Level, Overflow;
    if times != [] {
      var now, rest := times[0], times[1..];
      var v := Eval(p, b, now, expires);
      CallLosesOnlyOverflow(p, b, now, expires);
      TokensStayInRange(p, b, now, expires);
      AdmissionFloor(p, v.bucket, rest, expires);
      assert Last(b.updated, times) == Last(now, rest);
      RefillAdds(p, now - b.updated, Last(now, rest) - now);
      assert (now - b.updated) + (Last(now, rest) - now) == Last(now, rest) - b.updated;
      var ds := Decisions(p, v.bucket, rest, expires);
      assert ([v.allowed] + ds)[1..] == ds;
    }
  }

  lemma {:induction false} LastRefused(p: Policy, b: Bucket, times: seq<nat>, expires: bool)
    requires p.Valid() && NonNegative(b) && b.Present? && Ordered(b.updated, times) && times != []
    requires !Decisions(p, b, times, expires)[|times| - 1]
    ensures After(p, b, times, expires).Present? && After(p, b, times, expires).tokens < 1.0
    decreases |times|
  {
    hide Level;
    var v := Eval(p, b, times[0], expires);
    CallLosesOnlyOverflow(p, b, times[0], expires);
    TokensStayInRange(p, b, times[0], expires);
    if |times| > 1 {
      LastRefused(p, v.bucket, times[1..], expires);
    }
  }

  /** So a caller who is refused has had all there was but a fraction of a token, less what ran over
      while it was not asking. */
  lemma RefusedMeansServed(p: Policy, b: Bucket, times: seq<nat>, expires: bool)
    requires p.Valid() && NonNegative(b) && b.Present? && Ordered(b.updated, times) && times != []
    requires !Decisions(p, b, times, expires)[|times| - 1]
    ensures b.updated <= Last(b.updated, times)
    ensures Granted(Decisions(p, b, times, expires)) as real >
            b.tokens + p.Refill(Last(b.updated, times) - b.updated) - Lost(p, b, times, expires) - 1.0
  {
    AdmissionFloor(p, b, times, expires);
    LastRefused(p, b, times, expires);
  }

  // ---------------------------------------------------------------------------
  // The numbers

  /** A bucket nobody used admits exactly requests + burst calls at one instant. */
  lemma FreshBucketAdmits(p: Policy, now: nat, n: nat, expires: bool)
    requires p.Valid() && n >= 1
    ensures Ordered(0, Repeat(now, n))
    ensures Decisions(p, Absent, Repeat(now, n), expires) == AllTrue(n) <==> n <= p.requests + p.burst
  {
    RepeatOrdered(0, now, n, []);
    Drain(p, Absent, now, n, expires);
  }

  /** The key lives for two windows after the last call, and no longer. */
  lemma KeyLivesTwoWindows(p: Policy, b: Bucket, now: nat)
    requires p.Valid() && b.Present? && b.updated <= now
    ensures now - b.updated < 2 * p.window ==> Visible(p, b, now, true) == b
    ensures now - b.updated > 2 * p.window ==> Visible(p, b, now, true) == Absent
  {
  }
}
