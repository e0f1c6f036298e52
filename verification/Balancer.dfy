/** Round-robin selection over the healthy endpoints of a pool, with the ticket counter and the
    probe index in uint64 arithmetic. */
module Balancer {
  import opened Basics

  /** The endpoint probed at `offset` by a pick that drew ticket `start`. */
  function Probe(start: nat, offset: nat, count: nat): (i: nat)
    requires count > 0
    ensures i < count
  {
    ((start + offset) % TWO_TO_64) % count
  }

  /** What a pick finds, from a given offset on. */
  function FirstFrom(healthy: seq<bool>, start: nat, offset: nat): (r: Option<nat>)
    requires offset <= |healthy|
    ensures r.Some? ==> r.value < |healthy| && healthy[r.value]
    decreases |healthy| - offset
  {
    if offset == |healthy| then None
    else if healthy[Probe(start, offset, |healthy|)] then Some(Probe(start, offset, |healthy|))
    else FirstFrom(healthy, start, offset + 1)
  }

  function Chosen(healthy: seq<bool>, start: nat): Option<nat> {
    FirstFrom(healthy, start, 0)
  }

  ghost predicate SomeHealthy(healthy: seq<bool>) {
    exists i :: 0 <= i < |healthy| && healthy[i]
  }

  /** The upstream endpoints of one route, of which only the health is modelled. */
  class UpstreamPool {
    var healthy: seq<bool>
    var next: nat

    ghost predicate Valid()
      reads this
    {
      next < TWO_TO_64
    }

    constructor (count: nat)
      ensures Valid() && next == 0 && healthy == seq(count, i => true)
    {
      healthy, next := seq(count, i => true), 0;
    }

    method Pick() returns (endpoint: Option<nat>)
      requires Valid()
      modifies this`next
      ensures Valid() && next == (old(next) + 1) % TWO_TO_64
      ensures endpoint == Chosen(healthy, old(next))
    {
      var start := next;
      next := (next + 1) % TWO_TO_64;
      endpoint := None;
      var offset := 0;
      while offset < |healthy|
        invariant 0 <= offset <= |healthy|
        invariant Chosen(healthy, start) == FirstFrom(healthy, start, offset)
      {
        var index := Probe(start, offset, |healthy|);
        if healthy[index] {
          return Some(index);
        }
        offset := offset + 1;
      }
    }

    method HasHealthy() returns (found: bool)
      ensures found <==> SomeHealthy(healthy)
    {
      var i := 0;
      while i < |healthy|
        invariant 0 <= i <= |healthy|
        invariant forall j :: 0 <= j < i ==> !healthy[j]
      {
        if healthy[i] {
          return true;
        }
        i := i + 1;
      }
      found := false;
    }
  }

  /** readiness: the first pool of the snapshot without a healthy endpoint, if any. */
  method Readiness(pools: seq<UpstreamPool>) returns (unready: Option<nat>)
    ensures unready.None? <==> forall k :: 0 <= k < |pools| ==> SomeHealthy(pools[k].healthy)
    ensures unready.Some? ==> unready.value < |pools| && !SomeHealthy(pools[unready.value].healthy)
  {
    var k := 0;
    while k < |pools|
      invariant 0 <= k <= |pools|
      invariant forall j :: 0 <= j < k ==> SomeHealthy(pools[j].healthy)
    {
      var found := pools[k].HasHealthy();
      if !found {
        return Some(k);
      }
      k := k + 1;
    }
    unready := None;
  }

  // ---------------------------------------------------------------------------
  // Remainders

  /** The only multiple of `n` strictly between -n and n is zero. */
  lemma SmallMultiple(k: int, n: int)
    requires -n < k * n < n
    ensures k == 0
  {
  }

  lemma Remainder(a: int, n: nat, q: int, r: int)
    requires n > 0 && a == q * n + r && 0 <= r < n
    ensures a % n == r
  {
    var q', r' := a / n, a % n;
    assert a == q' * n + r';
    assert (q - q') * n == r' - r;
    SmallMultiple(q - q', n);
  }

  lemma RemainderShift(a: int, n: nat, k: int)
    requires n > 0
    ensures (a + k * n) % n == a % n
  {
    var q := a / n;
    assert a == q * n + a % n;
    assert (q + k) * n == q * n + k * n;
    Remainder(a + k * n, n, q + k, a % n);
  }

  /** The offset at which a pick with ticket `t` reaches endpoint `e`. */
  function Ahead(t: nat, e: nat, n: nat): (o: nat)
    requires e < n
    ensures o < n
  {
    (e + n - t % n) % n
  }

  lemma AheadReaches(t: nat, e: nat, n: nat)
    requires e < n
    ensures (t + Ahead(t, e, n)) % n == e
  {
    var r, q := t % n, t / n;
    assert t == q * n + r;
    if r <= e {
      Remainder(e + n - r, n, 1, e - r);
      assert t + Ahead(t, e, n) == q * n + e;
      Remainder(t + Ahead(t, e, n), n, q, e);
    } else {
      Remainder(e + n - r, n, 0, e + n - r);
      assert t + Ahead(t, e, n) == (q + 1) * n + e;
      Remainder(t + Ahead(t, e, n), n, q + 1, e);
    }
  }

  lemma AheadUnique(t: nat, e: nat, n: nat, o: nat)
    requires e < n && o < n && (t + o) % n == e
    ensures o == Ahead(t, e, n)
  {
    var a := Ahead(t, e, n);
    AheadReaches(t, e, n);
    var qa, qo := (t + a) / n, (t + o) / n;
    assert t + a == qa * n + e && t + o == qo * n + e;
    assert a - o == (qa - qo) * n;
    SmallMultiple(qa - qo, n);
  }

  // ---------------------------------------------------------------------------
  // Every endpoint is probed

  /** No wrap-around during the pick, or a wrap-around that does no harm. */
  predicate ProbesAll(count: nat, start: nat)
    requires count > 0
  {
    start + count <= TWO_TO_64 || TWO_TO_64 % count == 0
  }

  lemma HarmlessWrap(start: nat, offset: nat, count: nat)
    requires start < TWO_TO_64 && 0 < count < TWO_TO_64 && offset < count && ProbesAll(count, start)
    ensures Probe(start, offset, count) == (start + offset) % count
  {
    var x := start + offset;
    if x >= TWO_TO_64 {
      var k := TWO_TO_64 / count;
      assert TWO_TO_64 == k * count;
      assert x % TWO_TO_64 == x - TWO_TO_64;
      RemainderShift(x - TWO_TO_64, count, k);
    }
  }

  /** Then each endpoint is reached at exactly one offset. */
  lemma ProbedOnce(start: nat, count: nat, e: nat)
    requires start < TWO_TO_64 && count < TWO_TO_64 && e < count && ProbesAll(count, start)
    ensures forall o :: 0 <= o < count ==> (Probe(start, o, count) == e <==> o == Ahead(start, e, count))
  {
    forall o | 0 <= o < count
      ensures Probe(start, o, count) == e <==> o == Ahead(start, e, count)
    {
      HarmlessWrap(start, o, count);
      AheadReaches(start, e, count);
      if (start + o) % count == e {
        AheadUnique(start, e, count, o);
      }
    }
  }

  /** Endpoint `e` is healthy, is probed at offset `o`, and the probes before it are unhealthy. */
  ghost predicate Selects(healthy: seq<bool>, start: nat, from: nat, o: nat, e: nat)
    requires from <= o < |healthy|
  {
    && e == Probe(start, o, |healthy|) && healthy[e]
    && forall k :: from <= k < o ==> !healthy[Probe(start, k, |healthy|)]
  }

  /** What a pick returns: the first healthy endpoint in its probing order. */
  lemma {:induction false} FirstFromMeaning(healthy: seq<bool>, start: nat, offset: nat)
    requires offset <= |healthy|
    ensures var r := FirstFrom(healthy, start, offset);
            && (r.None? <==> forall o :: offset <= o < |healthy| ==> !healthy[Probe(start, o, |healthy|)])
            && (r.Some? ==> exists o :: offset <= o < |healthy| && Selects(healthy, start, offset, o, r.value))
    decreases |healthy| - offset
  {
    if offset < |healthy| {
      FirstFromMeaning(healthy, start, offset + 1);
      if healthy[Probe(start, offset, |healthy|)] {
        assert Selects(healthy, start, offset, offset, Probe(start, offset, |healthy|));
      } else if FirstFrom(healthy, start, offset + 1).Some? {
        var e := FirstFrom(healthy, start, offset + 1).value;
        var o :| offset + 1 <= o < |healthy| && Selects(healthy, start, offset + 1, o, e);
        assert Selects(healthy, start, offset, o, e);
      }
    }
  }

  /** The endpoint that a harmful wrap-around at `m` leaves out. */
  function Skipped(m: nat, count: nat, start: nat): (e: nat)
    requires 0 < count < m && start < m < start + count
    ensures e < count
  {
    if m % count >= count - (m - start) then m % count else count - (m - start)
  }

  lemma MissedBeforeWrap(m: nat, count: nat, k: nat, o: nat, e: nat)
    requires 0 < k < count && o < k <= m && e < count
    requires 0 < e - m % count + (k - o) < count
    ensures (m - k + o) % count != e
  {
    var x := m - k + o;
    var q, p := m / count, x / count;
    if x % count == e {
      assert x == p * count + e && m == q * count + m % count;
      assert (q - p) * count == e - m % count + (k - o);
      SmallMultiple(q - p, count);
      assert false;
    }
  }

  lemma MissedAfterWrap(m: nat, count: nat, start: nat, o: nat)
    requires 0 < count < m && start < m <= start + o && o < count
    ensures ((start + o) % m) % count == start + o - m
  {
    Remainder(start + o, m, 1, start + o - m);
    Remainder(start + o - m, count, 0, start + o - m);
  }

  lemma SkippedIsNotProbed(m: nat, count: nat, start: nat, o: nat)
    requires 0 < count < m && start < m < start + count && m % count != 0 && o < count
    ensures ((start + o) % m) % count != Skipped(m, count, start)
  {
    var k, e := m - start, Skipped(m, count, start);
    if o < k {
      Remainder(start + o, m, 0, start + o);
      MissedBeforeWrap(m, count, k, o, e);
    } else {
      MissedAfterWrap(m, count, start, o);
    }
  }

  /** A pick with ticket `start` finds nothing exactly when no endpoint is healthy. */
  ghost predicate FindsHealthy(count: nat, start: nat) {
    forall healthy: seq<bool> :: |healthy| == count ==>
      (Chosen(healthy, start).None? <==> !SomeHealthy(healthy))
  }

  /** On every pool of `count` endpoints a pick agrees with hasHealthy, and so with readiness,
      exactly when its probes do not wrap around 2^64 or `count` divides 2^64. */
  lemma PickAgreesExactly(count: nat, start: nat)
    requires 0 < count < TWO_TO_64 && start < TWO_TO_64
    ensures FindsHealthy(count, start) <==> ProbesAll(count, start)
  {
    if ProbesAll(count, start) {
      forall healthy: seq<bool> | |healthy| == count
        ensures Chosen(healthy, start).None? <==> !SomeHealthy(healthy)
      {
        FirstFromMeaning(healthy, start, 0);
        if SomeHealthy(healthy) {
          var e :| 0 <= e < count && healthy[e];
          ProbedOnce(start, count, e);
          assert Probe(start, Ahead(start, e, count), count) == e;
        }
      }
    } else {
      var e := Skipped(TWO_TO_64, count, start);
      var healthy := seq(count, i => i == e);
      assert healthy[e];
      FirstFromMeaning(healthy, start, 0);
      forall o | 0 <= o < count ensures !healthy[Probe(start, o, count)] {
        SkippedIsNotProbed(TWO_TO_64, count, start, o);
      }
    }
  }

  // ---------------------------------------------------------------------------
  // Fair shares

  /** The endpoint `d` places before `e` on the circle. */
  function Back(e: nat, d: nat, n: nat): (i: nat)
    requires e < n && d <= n
    ensures i < n
  {
    (e + n - d) % n
  }

  /** How far back the previous healthy endpoint is, at most a full circle. */
  function Distance(healthy: seq<bool>, e: nat, d: nat): (r: nat)
    requires e < |healthy| && 1 <= d <= |healthy|
    ensures d <= r <= |healthy|
    ensures forall k :: d <= k < r ==> !healthy[Back(e, k, |healthy|)]
    ensures r < |healthy| ==> healthy[Back(e, r, |healthy|)]
    decreases |healthy| - d
  {
    if d == |healthy| || healthy[Back(e, d, |healthy|)] then d else Distance(healthy, e, d + 1)
  }

  lemma ProbeBeforeIsBack(t: nat, e: nat, n: nat, o: nat)
    requires e < n && o < Ahead(t, e, n)
    ensures (t + o) % n == Back(e, Ahead(t, e, n) - o, n)
  {
    var a := Ahead(t, e, n);
    var d := a - o;
    AheadReaches(t, e, n);
    var q := (t + a) / n;
    assert t + a == q * n + e;
    assert t + o == (q - 1) * n + (e + n - d);
    RemainderShift(e + n - d, n, q - 1);
  }

  /** A ticket selects a healthy endpoint exactly when it starts less than the distance to the
      previous healthy one before it. */
  lemma TicketSelects(healthy: seq<bool>, t: nat, e: nat)
    requires e < |healthy| < TWO_TO_64 && healthy[e] && t < TWO_TO_64 && ProbesAll(|healthy|, t)
    ensures Chosen(healthy, t) == Some(e) <==> Ahead(t, e, |healthy|) < Distance(healthy, e, 1)
  {
    var n := |healthy|;
    var a, d := Ahead(t, e, n), Distance(healthy, e, 1);
    FirstFromMeaning(healthy, t, 0);
    ProbedOnce(t, n, e);
    if a < d {
      forall o | 0 <= o < a ensures !healthy[Probe(t, o, n)] {
        ProbeBeforeIsBack(t, e, n, o);
        HarmlessWrap(t, o, n);
      }
      assert Probe(t, a, n) == e;
      var r := Chosen(healthy, t);
      assert r.Some?;
      var o :| 0 <= o < n && Selects(healthy, t, 0, o, r.value);
      assert !(a < o);
      assert !(o < a);
    } else {
      var o := a - d;
      ProbeBeforeIsBack(t, e, n, o);
      HarmlessWrap(t, o, n);
      assert healthy[Probe(t, o, n)];
    }
  }

  /** How many of `len` consecutive tickets from `s` on select `e`; the counter wraps around. */
  function Share(healthy: seq<bool>, s: nat, len: nat, e: nat): nat {
    if len == 0 then 0 else
    Share(healthy, s, len - 1, e) + if Chosen(healthy, (s + len - 1) % TWO_TO_64) == Some(e) then 1 else 0
  }

  /** How many of `len` consecutive tickets start less than `d` before `e`. */
  function Near(s: nat, len: nat, e: nat, n: nat, d: nat): nat
    requires e < n
  {
    if len == 0 then 0 else Near(s, len - 1, e, n, d) + if Ahead(s + len - 1, e, n) < d then 1 else 0
  }

  /** The numbers below `d` among the `len` numbers from `lo` on. */
  function Below(lo: nat, len: nat, d: nat): nat {
    if d <= lo then 0 else if d - lo <= len then d - lo else len
  }

  lemma AheadLater(t: nat, e: nat, n: nat, j: nat)
    requires e < n && j < n
    ensures Ahead(t + j, e, n) == if j <= Ahead(t, e, n) then Ahead(t, e, n) - j else Ahead(t, e, n) + n - j
  {
    var a := Ahead(t, e, n);
    AheadReaches(t, e, n);
    if j <= a {
      assert (t + j) + (a - j) == t + a;
      AheadUnique(t + j, e, n, a - j);
    } else {
      assert (t + j) + (a + n - j) == (t + a) + 1 * n;
      RemainderShift(t + a, n, 1);
      AheadUnique(t + j, e, n, a + n - j);
    }
  }

  lemma {:induction false} NearCount(s: nat, len: nat, e: nat, n: nat, d: nat)
    requires e < n && len <= n && d <= n
    ensures var a := Ahead(s, e, n);
            Near(s, len, e, n, d) ==
              if len <= a + 1 then Below(a + 1 - len, len, d)
              else Below(0, a + 1, d) + Below(a + n + 1 - len, len - a - 1, d)
  {
    if len > 0 {
      NearCount(s, len - 1, e, n, d);
      AheadLater(s, e, n, len - 1);
    }
  }

  /** None of the picks of `len` consecutive tickets wraps around, or all wraps are harmless. */
  predicate NoHarm(count: nat, s: nat, len: nat)
    requires count > 0
  {
    s + len + count <= TWO_TO_64 + 1 || TWO_TO_64 % count == 0
  }

  lemma WrappedTicket(t: nat, e: nat, n: nat)
    requires e < n < TWO_TO_64 && (t < TWO_TO_64 || TWO_TO_64 % n == 0)
    ensures Ahead(t % TWO_TO_64, e, n) == Ahead(t, e, n)
  {
    if t >= TWO_TO_64 {
      var q, k := t / TWO_TO_64, TWO_TO_64 / n;
      assert t == t % TWO_TO_64 + q * TWO_TO_64;
      assert TWO_TO_64 == k * n;
      assert q * TWO_TO_64 == (q * k) * n;
      RemainderShift(t % TWO_TO_64, n, q * k);
    }
  }

  lemma TicketHarmless(count: nat, t: nat)
    requires 0 < count < TWO_TO_64 && (t + count <= TWO_TO_64 || TWO_TO_64 % count == 0)
    ensures ProbesAll(count, t % TWO_TO_64)
  {
  }

  lemma {:induction false} ShareIsNear(healthy: seq<bool>, s: nat, len: nat, e: nat)
    requires e < |healthy| < TWO_TO_64 && healthy[e] && NoHarm(|healthy|, s, len)
    ensures Share(healthy, s, len, e) == Near(s, len, e, |healthy|, Distance(healthy, e, 1))
  {
    hide Chosen, Distance, Ahead;
    if len > 0 {
      var t := s + len - 1;
      ShareIsNear(healthy, s, len - 1, e);
      WrappedTicket(t, e, |healthy|);
      TicketHarmless(|healthy|, t);
      TicketSelects(healthy, t % TWO_TO_64, e);
    }
  }

  /** Exact shares: over any |healthy| consecutive tickets a healthy endpoint is selected as
      often as its distance on the circle from the previous healthy one, others never; also
      across a wrap of the counter, if the pool's size divides 2^64. */
  lemma ExactShares(healthy: seq<bool>, s: nat, e: nat)
    requires e < |healthy| < TWO_TO_64 && NoHarm(|healthy|, s, |healthy|)
    ensures Share(healthy, s, |healthy|, e) == if healthy[e] then Distance(healthy, e, 1) else 0
  {
    var n := |healthy|;
    if healthy[e] {
      ShareIsNear(healthy, s, n, e);
      NearCount(s, n, e, n, Distance(healthy, e, 1));
    } else {
      UnhealthyNeverChosen(healthy, s, n, e);
    }
  }

  lemma {:induction false} UnhealthyNeverChosen(healthy: seq<bool>, s: nat, len: nat, e: nat)
    requires e < |healthy| && !healthy[e]
    ensures Share(healthy, s, len, e) == 0
  {
    if len > 0 {
      UnhealthyNeverChosen(healthy, s, len - 1, e);
    }
  }
}
