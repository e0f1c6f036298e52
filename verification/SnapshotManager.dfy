/** The router manager: concurrent Activate and Validate calls, each compiling a snapshot with
    its own cancellable context, publish by an atomic swap. Contexts are numbered as they are
    created. */
module SnapshotManager {
  import opened Basics

  type Pid = nat
  type Context = nat

  datatype Kind = Activate | Validate

  /** A call, by what it does next: validate the configuration, compile the routes under a new
      context, publish or discard the compiled snapshot, cancel what the swap displaced. */
  datatype Call =
    | Checking(kind: Kind)
    | Compiling(kind: Kind, ctx: Context)
    | Compiled(kind: Kind, ctx: Context)
    | Displaced(previous: Option<Context>)

  /** `cancels` lists the calls of cancel in order; `compiled` are the contexts of snapshots that
      compiled without error or panic. */
  datatype Manager = Manager(
    created: nat,
    current: Option<Context>,
    calls: map<Pid, Call>,
    cancels: seq<Context>,
    compiled: set<Context>)

  /** `ok` is false when validation rejects, compilation fails, or a panic is recovered. */
  datatype Event = Begin(pid: Pid, kind: Kind) | Step(pid: Pid, ok: bool)

  function Done(m: Manager, p: Pid): Manager {
    m.(calls := m.calls - {p})
  }

  function Cancel(m: Manager, ctx: Context): Manager {
    m.(cancels := m.cancels + [ctx])
  }

  function StepOf(m: Manager, p: Pid, call: Call, ok: bool): Manager {
    match call
    case Checking(kind) =>
      if !ok then Done(m, p)
      else m.(created := m.created + 1, calls := m.calls[p := Compiling(kind, m.created)])
    case Compiling(kind, ctx) =>
      if !ok then Done(Cancel(m, ctx), p)
      else m.(compiled := m.compiled + {ctx}, calls := m.calls[p := Compiled(kind, ctx)])
    case Compiled(kind, ctx) =>
      if kind.Validate? then Done(Cancel(m, ctx), p)
      else m.(current := Some(ctx), calls := m.calls[p := Displaced(m.current)])
    case Displaced(previous) =>
      if previous.Some? then Done(Cancel(m, previous.value), p) else Done(m, p)
  }

  function Apply(m: Manager, e: Event): Manager {
    match e
    case Begin(p, kind) => if p in m.calls then m else m.(calls := m.calls[p := Checking(kind)])
    case Step(p, ok) => if p in m.calls then StepOf(m, p, m.calls[p], ok) else m
  }

  function Run(m: Manager, es: seq<Event>): Manager
    decreases |es|
  {
    if es == [] then m else Apply(Run(m, es[..|es| - 1]), es[|es| - 1])
  }

  const INITIAL := Manager(0, None, map[], [], {})

  // ---------------------------------------------------------------------------

  /** The context a call is responsible for. */
  function Owned(call: Call): Option<Context> {
    match call
    case Checking(_) => None
    case Compiling(_, ctx) => Some(ctx)
    case Compiled(_, ctx) => Some(ctx)
    case Displaced(previous) => previous
  }

  ghost predicate Owns(m: Manager, p: Pid, c: Context) {
    p in m.calls && Owned(m.calls[p]) == Some(c)
  }

  /** The three ways a context can be accounted for exclude each other. */
  ghost predicate Exclusive(m: Manager) {
    && (forall p, q, c: Context :: Owns(m, p, c) && Owns(m, q, c) ==> p == q)
    && (forall p, c: Context :: Owns(m, p, c) ==> m.current != Some(c) && c !in m.cancels && c < m.created)
    && (m.current.Some? ==> m.current.value !in m.cancels && m.current.value < m.created)
    && (forall i, j :: 0 <= i < j < |m.cancels| ==> m.cancels[i] != m.cancels[j])
    && (forall c :: c in m.cancels ==> c < m.created)
  }

  /** No context is lost. */
  ghost predicate Accounted(m: Manager) {
    forall c :: 0 <= c < m.created ==> m.current == Some(c) || c in m.cancels || exists p :: Owns(m, p, c)
  }

  /** What is published compiled, and so did every snapshot about to be published. */
  ghost predicate OnlyCompiled(m: Manager) {
    && (m.current.Some? ==> m.current.value in m.compiled)
    && (forall p :: p in m.calls && m.calls[p].Compiled? ==> m.calls[p].ctx in m.compiled)
  }

  lemma StepKeepsExclusive(m: Manager, e: Event)
    requires Exclusive(m)
    ensures Exclusive(Apply(m, e))
  {
    var t := Apply(m, e);
    if e.pid in m.calls && Owned(m.calls[e.pid]).Some? {
      assert Owns(m, e.pid, Owned(m.calls[e.pid]).value);
    }
    forall p, c: Context | Owns(t, p, c)
      ensures t.current != Some(c) && c !in t.cancels && c < t.created
    {
      if p != e.pid {
        assert Owns(m, p, c);
      }
    }
    forall p, q, c: Context | Owns(t, p, c) && Owns(t, q, c) ensures p == q {
      if p != e.pid {
        assert Owns(m, p, c);
      }
      if q != e.pid {
        assert Owns(m, q, c);
      }
    }
  }

  lemma StepKeepsAccounted(m: Manager, e: Event)
    requires Accounted(m)
    ensures Accounted(Apply(m, e))
  {
    var t := Apply(m, e);
    forall c | 0 <= c < t.created
      ensures t.current == Some(c) || c in t.cancels || exists p :: Owns(t, p, c)
    {
      if c < m.created {
        if p :| Owns(m, p, c) {
          if p != e.pid {
            assert Owns(t, p, c);
          } else if e.Step? && m.calls[p].Compiling? && e.ok {
            assert Owns(t, p, c);
          } else if e.Begin? {
            assert Owns(t, p, c);
          }
        } else if m.current == Some(c) && t.current != Some(c) {
          assert Owns(t, e.pid, c);
        }
      } else {
        assert Owns(t, e.pid, c);
      }
    }
  }

  lemma {:induction false} RunKeeps(es: seq<Event>)
    ensures var m := Run(INITIAL, es); Exclusive(m) && Accounted(m) && OnlyCompiled(m)
    decreases |es|
  {
    if es != [] {
      var m, e := Run(INITIAL, es[..|es| - 1]), es[|es| - 1];
      RunKeeps(es[..|es| - 1]);
      StepKeepsExclusive(m, e);
      StepKeepsAccounted(m, e);
    }
  }

  /** Snapshot ownership. In every interleaving each context created is the current one, or owned
      by exactly one call in flight, or cancelled, and only one of these; none is cancelled
      twice; and only snapshots that compiled are ever current. */
  lemma ContextsAreOwned(es: seq<Event>)
    ensures var m := Run(INITIAL, es);
            && (forall c :: 0 <= c < m.created ==>
                  && (m.current == Some(c) || c in m.cancels || exists p :: Owns(m, p, c))
                  && !(m.current == Some(c) && c in m.cancels)
                  && (forall p :: Owns(m, p, c) ==> m.current != Some(c) && c !in m.cancels)
                  && (forall p, q :: Owns(m, p, c) && Owns(m, q, c) ==> p == q))
            && (forall i, j :: 0 <= i < j < |m.cancels| ==> m.cancels[i] != m.cancels[j])
            && (m.current.Some? ==> m.current.value in m.compiled)
  {
    RunKeeps(es);
  }

  /** When no call is in flight, exactly the current context is live, and all but it have been
      cancelled. */
  lemma QuietManagerLeaksNothing(es: seq<Event>)
    requires Run(INITIAL, es).calls == map[]
    ensures var m := Run(INITIAL, es);
            && (forall c :: 0 <= c < m.created ==> (c !in m.cancels <==> m.current == Some(c)))
            && |m.cancels| + (if m.current.Some? then 1 else 0) == m.created
  {
    RunKeeps(es);
    var m := Run(INITIAL, es);
    assert forall p, c: Context :: !Owns(m, p, c);
    var all := m.cancels + if m.current.Some? then [m.current.value] else [];
    forall c | 0 <= c < m.created ensures c in all {
      if m.current == Some(c) {
        assert all[|m.cancels|] == c;
      } else {
        assert c in m.cancels;
      }
    }
    forall i | 0 <= i < |all| ensures all[i] < m.created {
      assert i < |m.cancels| ==> all[i] in m.cancels;
    }
    Count(all, m.created);
  }

  /** A list of distinct numbers below `n` that misses none has `n` elements. */
  lemma {:induction false} Count(s: seq<nat>, n: nat)
    requires forall i, j :: 0 <= i < j < |s| ==> s[i] != s[j]
    requires forall i :: 0 <= i < |s| ==> s[i] < n
    requires forall c :: 0 <= c < n ==> c in s
    ensures |s| == n
  {
    if n > 0 {
      assert (n - 1) in s;
      var k :| 0 <= k < |s| && s[k] == n - 1;
      var rest := s[..k] + s[k + 1..];
      forall c | 0 <= c < n - 1 ensures c in rest {
        assert c in s;
        var i :| 0 <= i < |s| && s[i] == c;
        assert c == rest[if i < k then i else i - 1];
      }
      Count(rest, n - 1);
    }
  }

  /** A step replaces the current snapshot only by one that compiled; rejected configurations,
      compile errors and panics leave it in place, and it is never taken away. */
  lemma LastGoodStays(es: seq<Event>, e: Event)
    ensures var m, t := Run(INITIAL, es), Apply(Run(INITIAL, es), e);
            t.current != m.current ==>
              && e.Step? && e.pid in m.calls && m.calls[e.pid].Compiled? && m.calls[e.pid].kind.Activate?
              && t.current.Some? && t.current.value in m.compiled
  {
    RunKeeps(es);
  }

  // ---------------------------------------------------------------------------
  // Publication

  /** In every run, the step after a compiled Activate publishes its snapshot, whatever is current,
      and no other step changes what is current. */
  lemma PublishesExactly(es: seq<Event>, e: Event)
    ensures var m, t := Run(INITIAL, es), Apply(Run(INITIAL, es), e);
            if Publishes(m, e) then t.current == Some(m.calls[e.pid].ctx) && m.calls[e.pid].ctx in m.compiled
            else t.current == m.current
  {
    RunKeeps(es);
  }

  /** The event is the swap of an Activate. */
  predicate Publishes(m: Manager, e: Event) {
    e.Step? && e.pid in m.calls && m.calls[e.pid].Compiled? && m.calls[e.pid].kind.Activate?
  }

  /** The context of the last swap of a run. */
  function LastPublished(es: seq<Event>): Option<Context>
    decreases |es|
  {
    if es == [] then None else
    var m, e := Run(INITIAL, es[..|es| - 1]), es[|es| - 1];
    if Publishes(m, e) then Some(m.calls[e.pid].ctx) else LastPublished(es[..|es| - 1])
  }

  lemma {:induction false} CurrentIsTheLastPublished(es: seq<Event>)
    ensures Run(INITIAL, es).current == LastPublished(es)
    decreases |es|
  {
    if es != [] {
      CurrentIsTheLastPublished(es[..|es| - 1]);
      PublishesExactly(es[..|es| - 1], es[|es| - 1]);
    }
  }

  /** What cancelling the displaced context adds. */
  function Displacing(current: Option<Context>): seq<Context> {
    if current.Some? then [current.value] else []
  }

  /** An undisturbed Activate that validates and compiles ends with its own new context current and
      the previous one cancelled, and changes nothing else. */
  lemma ActivateSucceedsAlone(m: Manager, p: Pid)
    requires p !in m.calls
    ensures var ctx := m.created;
            Apply(Apply(Apply(Apply(Apply(m, Begin(p, Activate)), Step(p, true)), Step(p, true)), Step(p, true)), Step(p, true)) ==
            m.(created := ctx + 1, current := Some(ctx), compiled := m.compiled + {ctx},
               cancels := m.cancels + Displacing(m.current))
  {
    var m1 := Apply(m, Begin(p, Activate));
    var m2 := Apply(m1, Step(p, true));
    var m3 := Apply(m2, Step(p, true));
    var m4 := Apply(m3, Step(p, true));
    assert m4.current == Some(m.created) && m4.calls[p] == Displaced(m.current);
    assert m4.calls - {p} == m.calls;
  }

  /** An undisturbed Validate of the same configuration cancels its own context and publishes
      nothing. */
  lemma ValidateLeavesNothing(m: Manager, p: Pid)
    requires p !in m.calls
    ensures Apply(Apply(Apply(Apply(m, Begin(p, Validate)), Step(p, true)), Step(p, true)), Step(p, true)) ==
            m.(created := m.created + 1, compiled := m.compiled + {m.created}, cancels := m.cancels + [m.created])
  {
    var m3 := Apply(Apply(Apply(m, Begin(p, Validate)), Step(p, true)), Step(p, true));
    assert m3.calls - {p} == m.calls;
  }

  /** A call whose configuration is rejected, or does not compile, leaves at most a cancelled
      context. */
  lemma RejectionLeavesNothing(m: Manager, p: Pid, kind: Kind)
    requires p !in m.calls
    ensures Apply(Apply(m, Begin(p, kind)), Step(p, false)) == m
    ensures Apply(Apply(Apply(m, Begin(p, kind)), Step(p, true)), Step(p, false)) ==
            m.(created := m.created + 1, cancels := m.cancels + [m.created])
  {
    assert m.calls[p := Checking(kind)] - {p} == m.calls;
    assert m.calls[p := Checking(kind)][p := Compiling(kind, m.created)] - {p} == m.calls;
  }
}
