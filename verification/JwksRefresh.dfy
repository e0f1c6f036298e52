/** The double-checked refresh of a route's JWT key set, with any number of verifiers running
    at once under a clock that does not go back. */
module JwksRefresh {
  import opened Basics

  type Pid = nat
  type KeySet = nat

  /** Five minutes, in milliseconds. */
  const MAX_AGE: nat := 300_000

  /** A key set and when it was fetched. */
  datatype Keys = Keys(keys: KeySet, at: nat)

  /** A verifier, by what it does next. `Fast` reads and checks without the refresh mutex,
      `Slow` with it; between reading and checking, time may pass. */
  datatype Phase =
    | FastRead
    | FastCheck(seen: Option<Keys>)
    | Waiting
    | SlowRead
    | SlowCheck(seen: Option<Keys>)
    | Fetching
    | Writing(fetched: KeySet)
    | Unlocking(use: Option<Use>)

  /** The set a verification uses: one found in place, with the time of its check, or one the
      verifier fetched itself. */
  datatype Use = Found(keys: Keys, checkedAt: nat) | Fetched(keys: Keys)

  datatype State = State(
    now: nat,
    jwks: Option<Keys>,
    mutex: Option<Pid>,
    verifiers: map<Pid, Phase>,
    replacements: seq<Keys>,
    uses: seq<Use>)

  /** `reply` is what a fetch returns, if the verifier is fetching. */
  datatype Event =
    | Begin(pid: Pid)
    | Step(pid: Pid, reply: Option<KeySet>)
    | Tick(ms: nat)

  predicate Stale(seen: Option<Keys>, now: nat) {
    seen.None? || now > seen.value.at + MAX_AGE
  }

  function Move(s: State, p: Pid, phase: Phase): State {
    s.(verifiers := s.verifiers[p := phase])
  }

  function Finish(s: State, p: Pid, use: Option<Use>): State {
    s.(verifiers := s.verifiers - {p}, uses := if use.Some? then s.uses + [use.value] else s.uses)
  }

  function StepOf(s: State, p: Pid, phase: Phase, reply: Option<KeySet>): State {
    match phase
    case FastRead => Move(s, p, FastCheck(s.jwks))
    case FastCheck(seen) =>
      if Stale(seen, s.now) then Move(s, p, Waiting) else Finish(s, p, Some(Found(seen.value, s.now)))
    case Waiting => if s.mutex.Some? then s else Move(s.(mutex := Some(p)), p, SlowRead)
    case SlowRead => Move(s, p, SlowCheck(s.jwks))
    case SlowCheck(seen) =>
      if Stale(seen, s.now) then Move(s, p, Fetching)
      else Move(s, p, Unlocking(Some(Found(seen.value, s.now))))
    case Fetching => Move(s, p, if reply.Some? then Writing(reply.value) else Unlocking(None))
    case Writing(fetched) =>
      var keys := Keys(fetched, s.now);
      Move(s.(jwks := Some(keys), replacements := s.replacements + [keys]), p, Unlocking(Some(Fetched(keys))))
    case Unlocking(use) => Finish(s.(mutex := None), p, use)
  }

  function Apply(s: State, e: Event): State {
    match e
    case Begin(p) => if p in s.verifiers then s else Move(s, p, FastRead)
    case Step(p, reply) => if p in s.verifiers then StepOf(s, p, s.verifiers[p], reply) else s
    case Tick(ms) => s.(now := s.now + ms)
  }

  function Run(s: State, es: seq<Event>): State
    decreases |es|
  {
    if es == [] then s else Apply(Run(s, es[..|es| - 1]), es[|es| - 1])
  }

  function Init(now: nat): State {
    State(now, None, None, map[], [], [])
  }

  // ---------------------------------------------------------------------------

  predicate HoldsMutex(phase: Phase) {
    phase.SlowRead? || phase.SlowCheck? || phase.Fetching? || phase.Writing? || phase.Unlocking?
  }

  /** A key set that was in place at some time. */
  ghost predicate Known(s: State, seen: Option<Keys>) {
    seen.Some? ==> seen.value in s.replacements
  }

  ghost predicate UseOk(s: State, use: Use) {
    && use.keys in s.replacements
    && (use.Found? ==> use.checkedAt <= use.keys.at + MAX_AGE)
  }

  /** What a verifier in a phase may rely on. */
  ghost predicate PhaseOk(s: State, p: Pid, phase: Phase) {
    && (HoldsMutex(phase) ==> s.mutex == Some(p))
    && (phase.FastCheck? ==> Known(s, phase.seen))
    && (phase.SlowCheck? ==> phase.seen == s.jwks)
    && (phase.Fetching? || phase.Writing? ==> Stale(s.jwks, s.now))
    && (phase.Unlocking? && phase.use.Some? ==> UseOk(s, phase.use.value))
  }

  /** The key set in place is the last replacement, and replacements are more than five minutes
      apart. */
  ghost predicate Spaced(s: State) {
    && s.jwks == (if s.replacements == [] then None else Some(s.replacements[|s.replacements| - 1]))
    && (forall i :: 0 < i < |s.replacements| ==> s.replacements[i].at > s.replacements[i - 1].at + MAX_AGE)
  }

  predicate FetchInFlight(s: State, p: Pid) {
    p in s.verifiers && s.verifiers[p].Fetching?
  }

  /** The mutex is held by a verifier that will release it. */
  ghost predicate MutexOwned(s: State) {
    s.mutex.Some? ==> s.mutex.value in s.verifiers && HoldsMutex(s.verifiers[s.mutex.value])
  }

  ghost predicate Inv(s: State) {
    && Spaced(s) && MutexOwned(s)
    && (forall p :: p in s.verifiers ==> PhaseOk(s, p, s.verifiers[p]))
    && (forall i :: 0 <= i < |s.uses| ==> UseOk(s, s.uses[i]))
  }

  lemma StepKeepsSpaced(s: State, e: Event)
    requires Inv(s)
    ensures Spaced(Apply(s, e)) && MutexOwned(Apply(s, e))
    ensures forall k :: k in s.replacements ==> k in Apply(s, e).replacements
  {
    if e.Step? && e.pid in s.verifiers {
      assert PhaseOk(s, e.pid, s.verifiers[e.pid]);
    }
  }

  lemma StepKeepsUses(s: State, e: Event)
    requires Inv(s)
    ensures var t := Apply(s, e); forall i :: 0 <= i < |t.uses| ==> UseOk(t, t.uses[i])
  {
    StepKeepsSpaced(s, e);
    if e.Step? && e.pid in s.verifiers {
      assert PhaseOk(s, e.pid, s.verifiers[e.pid]);
    }
  }

  /** A verifier that does not move keeps what it relies on. */
  lemma OthersKeepPhase(s: State, e: Event, q: Pid)
    requires Inv(s) && q in s.verifiers && !(e.Step? && e.pid == q)
    ensures q in Apply(s, e).verifiers && PhaseOk(Apply(s, e), q, Apply(s, e).verifiers[q])
  {
    StepKeepsSpaced(s, e);
    assert PhaseOk(s, q, s.verifiers[q]);
    if e.Step? && e.pid in s.verifiers {
      assert PhaseOk(s, e.pid, s.verifiers[e.pid]);
    }
  }

  lemma StepKeepsPhases(s: State, e: Event, q: Pid)
    requires Inv(s) && q in Apply(s, e).verifiers
    ensures PhaseOk(Apply(s, e), q, Apply(s, e).verifiers[q])
  {
    if q in s.verifiers && !(e.Step? && e.pid == q) {
      OthersKeepPhase(s, e, q);
    } else if q in s.verifiers {
      assert PhaseOk(s, q, s.verifiers[q]);
    }
  }

  lemma StepKeepsInv(s: State, e: Event)
    requires Inv(s)
    ensures Inv(Apply(s, e))
  {
    StepKeepsSpaced(s, e);
    StepKeepsUses(s, e);
    forall q | q in Apply(s, e).verifiers ensures PhaseOk(Apply(s, e), q, Apply(s, e).verifiers[q]) {
      StepKeepsPhases(s, e, q);
    }
  }

  lemma {:induction false} RunKeepsInv(now: nat, es: seq<Event>)
    ensures Inv(Run(Init(now), es))
    decreases |es|
  {
    if es != [] {
      RunKeepsInv(now, es[..|es| - 1]);
      StepKeepsInv(Run(Init(now), es[..|es| - 1]), es[|es| - 1]);
    }
  }

  /** In every interleaving: at most one fetch is in flight, the mutex is taken exactly while a
      verifier is inside (so a failed fetch releases it), key sets are replaced more than
      five minutes apart, and every verification uses a set that was at most five minutes old
      when checked, or one it just fetched itself. */
  lemma RefreshIsDisciplined(now: nat, es: seq<Event>)
    ensures var s := Run(Init(now), es);
            && (forall p, q :: FetchInFlight(s, p) && FetchInFlight(s, q) ==> p == q)
            && (s.mutex.Some? <==> exists p :: p in s.verifiers && HoldsMutex(s.verifiers[p]))
            && (forall i :: 0 < i < |s.replacements| ==> s.replacements[i].at > s.replacements[i - 1].at + MAX_AGE)
            && (forall i :: 0 <= i < |s.uses| ==>
                  && s.uses[i].keys in s.replacements
                  && (s.uses[i].Found? ==> s.uses[i].checkedAt <= s.uses[i].keys.at + MAX_AGE))
  {
    RunKeepsInv(now, es);
    var s := Run(Init(now), es);
    forall p, q | FetchInFlight(s, p) && FetchInFlight(s, q) ensures p == q
    {
      assert PhaseOk(s, p, s.verifiers[p]) && PhaseOk(s, q, s.verifiers[q]);
    }
    if p :| p in s.verifiers && HoldsMutex(s.verifiers[p]) {
      assert PhaseOk(s, p, s.verifiers[p]);
    }
  }

  // ---------------------------------------------------------------------------
  // What a refresh does

  /** Some fetch of the run was answered with this key set. */
  ghost predicate Answered(es: seq<Event>, keys: KeySet) {
    exists j :: 0 <= j < |es| && es[j].Step? && es[j].reply == Some(keys)
  }

  ghost predicate OnlyAnswers(es: seq<Event>, s: State) {
    && (forall p :: p in s.verifiers && s.verifiers[p].Writing? ==> Answered(es, s.verifiers[p].fetched))
    && (forall i :: 0 <= i < |s.replacements| ==> Answered(es, s.replacements[i].keys))
  }

  lemma AnsweredStays(es: seq<Event>, e: Event, keys: KeySet)
    requires Answered(es, keys) || (e.Step? && e.reply == Some(keys))
    ensures Answered(es + [e], keys)
  {
    if Answered(es, keys) {
      var j :| 0 <= j < |es| && es[j].Step? && es[j].reply == Some(keys);
      assert (es + [e])[j] == es[j];
    } else {
      assert (es + [e])[|es|] == e;
    }
  }

  lemma StepOnlyAnswers(es: seq<Event>, s: State, e: Event)
    requires OnlyAnswers(es, s)
    ensures OnlyAnswers(es + [e], Apply(s, e))
  {
    hide Answered;
    var t := Apply(s, e);
    forall p | p in t.verifiers && t.verifiers[p].Writing? ensures Answered(es + [e], t.verifiers[p].fetched) {
      AnsweredStays(es, e, t.verifiers[p].fetched);
    }
    forall i | 0 <= i < |t.replacements| ensures Answered(es + [e], t.replacements[i].keys) {
      AnsweredStays(es, e, t.replacements[i].keys);
    }
  }

  /** In every run, every key set ever put in place is one that a fetch returned. */
  lemma {:induction false} KeysWereFetched(now: nat, es: seq<Event>)
    ensures OnlyAnswers(es, Run(Init(now), es))
    decreases |es|
  {
    if es != [] {
      KeysWereFetched(now, es[..|es| - 1]);
      StepOnlyAnswers(es[..|es| - 1], Run(Init(now), es[..|es| - 1]), es[|es| - 1]);
      assert es == es[..|es| - 1] + [es[|es| - 1]];
    }
  }

  /** The same event `n` times. */
  function Times(s: State, e: Event, n: nat): State {
    if n == 0 then s else Apply(Times(s, e, n - 1), e)
  }

  lemma Twice(s: State, e: Event, n: nat)
    ensures Times(s, e, n + 2) == Apply(Apply(Times(s, e, n), e), e)
  {
  }

  /** A verifier that finds the key set stale and is not disturbed puts the fetched one in place and
      uses it. */
  lemma RefreshAlone(s: State, p: Pid, fetched: KeySet)
    requires p !in s.verifiers && s.mutex.None? && Stale(s.jwks, s.now)
    ensures var keys := Keys(fetched, s.now);
            Times(Apply(s, Begin(p)), Step(p, Some(fetched)), 8) ==
            s.(jwks := Some(keys), replacements := s.replacements + [keys], uses := s.uses + [Fetched(keys)])
  {
    hide Apply, Times;
    var begun, e := Apply(s, Begin(p)), Step(p, Some(fetched));
    Nothing(begun, e);
    Twice(begun, e, 0);
    Twice(begun, e, 2);
    Twice(begun, e, 4);
    Twice(begun, e, 6);
    RefreshBegins(s, p, e);
    RefreshFetches(s, p, fetched);
    RefreshFinishes(s, p, fetched);
  }

  lemma Nothing(s: State, e: Event)
    ensures Times(s, e, 0) == s
  {
  }

  lemma RefreshBegins(s: State, p: Pid, e: Event)
    requires p !in s.verifiers && s.mutex.None? && Stale(s.jwks, s.now) && e.Step? && e.pid == p
    ensures var s2 := Apply(Apply(Apply(s, Begin(p)), e), e);
            Apply(Apply(s2, e), e) == s.(mutex := Some(p), verifiers := s.verifiers[p := SlowCheck(s.jwks)])
  {
    var s2 := Apply(Apply(Apply(s, Begin(p)), e), e);
    assert s2 == s.(verifiers := s.verifiers[p := Waiting]);
  }

  lemma RefreshFetches(s: State, p: Pid, fetched: KeySet)
    requires Stale(s.jwks, s.now)
    ensures var e := Step(p, Some(fetched));
            Apply(Apply(s.(mutex := Some(p), verifiers := s.verifiers[p := SlowCheck(s.jwks)]), e), e) ==
            s.(mutex := Some(p), verifiers := s.verifiers[p := Writing(fetched)])
  {
    var s4 := s.(mutex := Some(p), verifiers := s.verifiers[p := SlowCheck(s.jwks)]);
    assert Apply(s4, Step(p, Some(fetched))) == s.(mutex := Some(p), verifiers := s.verifiers[p := Fetching]);
  }

  lemma RefreshFinishes(s: State, p: Pid, fetched: KeySet)
    requires p !in s.verifiers && s.mutex.None?
    ensures var e, keys := Step(p, Some(fetched)), Keys(fetched, s.now);
            Apply(Apply(s.(mutex := Some(p), verifiers := s.verifiers[p := Writing(fetched)]), e), e) ==
            s.(jwks := Some(keys), replacements := s.replacements + [keys], uses := s.uses + [Fetched(keys)])
  {
    var s7 := Apply(s.(mutex := Some(p), verifiers := s.verifiers[p := Writing(fetched)]), Step(p, Some(fetched)));
    assert s7.verifiers - {p} == s.verifiers;
  }

  /** One that finds it young uses it without locking or fetching. */
  lemma YoungSetIsUsed(s: State, p: Pid, reply: Option<KeySet>)
    requires p !in s.verifiers && !Stale(s.jwks, s.now)
    ensures Apply(Apply(Apply(s, Begin(p)), Step(p, reply)), Step(p, reply)) == s.(uses := s.uses + [Found(s.jwks.value, s.now)])
  {
    var s1 := Apply(Apply(s, Begin(p)), Step(p, reply));
    assert s1 == s.(verifiers := s.verifiers[p := FastCheck(s.jwks)]);
    assert s1.verifiers - {p} == s.verifiers;
  }
}
