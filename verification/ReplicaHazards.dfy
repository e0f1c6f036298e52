/** A gateway process that also serves the admin API has two writers of its live snapshot and
    its redisVersion, the watch loop and the activation handler, and no lock around the pair. */
module ReplicaHazards {
  import opened Basics
  import opened Text
  import opened ConfigProtocol
  import opened ConfigHazards
  import opened Replica

  function Lift(es: seq<Event>): (r: seq<SystemEvent>)
    ensures |r| == |es|
  {
    if es == [] then [] else Lift(es[..|es| - 1]) + [Control(es[|es| - 1])]
  }

  lemma RunAllSnoc(s: System, es: seq<SystemEvent>, e: SystemEvent)
    ensures RunAll(s, es + [e]) == Next(RunAll(s, es), e)
  {
    assert (es + [e])[..|es|] == es;
  }

  lemma {:induction false} RunAllAppend(s: System, es: seq<SystemEvent>, fs: seq<SystemEvent>)
    ensures RunAll(s, es + fs) == RunAll(RunAll(s, es), fs)
    decreases |fs|
  {
    if fs == [] {
      assert es + fs == es;
    } else {
      var init := fs[..|fs| - 1];
      assert es + fs == (es + init) + [fs[|fs| - 1]];
      RunAllSnoc(s, es + init, fs[|fs| - 1]);
      RunAllAppend(s, es, init);
    }
  }

  lemma {:induction false} RunLifted(s: System, es: seq<Event>)
    ensures RunAll(s, Lift(es)) == s.(control := Run(s.control, es))
    decreases |es|
  {
    if es != [] {
      RunLifted(s, es[..|es| - 1]);
      RunAllSnoc(s, Lift(es[..|es| - 1]), Control(es[|es| - 1]));
    }
  }

  predicate CompilesAnything(body: string) {
    true
  }

  const SHELVES := Store(map[1 := "a", 2 := "b", 3 := "c"], Some(1), map[], 0)

  /** The handler of process 0 commits version 2; elsewhere version 3 is activated next. */
  lemma TwoActivations(s: State) returns (es: seq<Event>, t: State)
    requires s == Init(SHELVES)
    ensures t == Run(s, es)
    ensures 0 in t.procs && t.procs[0] == Committed(2, "b")
    ensures t.store.active == Some(3) && t.store.configs == SHELVES.configs && !t.rewritten
  {
    hide Run, Apply, FormatInt;
    var m := FormatInt(1);
    ActivationPathQuiet(s.store, 2, None);
    var first := Alone(0, ActivateConfig(2, m), 4);
    RunAlone(s, 0, ActivateConfig(2, m), ActivationPath(2, m, None, "b", WatchNow(s.store, 2)));
    ExecCommits(s, 0, 2, m, None, "b");
    var mid := With(Perform(s, MovePointer(2, m, None, "b")), 0, Committed(2, "b"));
    ActivationSucceedsAlone(mid, 1, 3);
    var second := Alone(1, ActivateConfig(3, FormatInt(2)), 4) + [Drop(1)];
    t := Perform(mid, MovePointer(3, FormatInt(2), None, "c"));
    es := first + second;
    Then(s, first, mid, second, t);
  }

  /** The steps of gateway 0 that interleave badly: the loop swaps version 3 in, the handler
      swaps version 2 in and records 2, then the loop records 3. */
  const RACE := [Loop(0, true), Loop(0, true), Loop(0, true), Install(0, 0), Record(0, 0), Loop(0, true)]

  /** The loop's three steps: it has the active pointer, has the content, swaps it in. */
  lemma RaceLoads(s: System)
    requires s.control.store.active == Some(3) && 3 in s.control.store.configs
    requires 0 in s.gateways && s.gateways[0] == Gateway("a", 0, CompilesAnything, Waiting)
    ensures var t := Next(Next(Next(s, RACE[0]), RACE[1]), RACE[2]);
            t.control == s.control && 0 in t.gateways
            && t.gateways[0] == s.gateways[0].(live := s.control.store.configs[3], phase := Swapped(3))
  {
  }

  /** The handler's two steps fall before the loop's last one. */
  lemma RaceOverlaps(s: System, body: string)
    requires 0 in s.control.procs && s.control.procs[0] == Committed(2, "b")
    requires 0 in s.gateways && s.gateways[0] == Gateway(body, 0, CompilesAnything, Swapped(3))
    ensures var t := Next(Next(Next(s, RACE[3]), RACE[4]), RACE[5]);
            && t.control.store == s.control.store && t.control.rewritten == s.control.rewritten
            && 0 in t.gateways && t.gateways[0] == Gateway("b", 3, CompilesAnything, Waiting)
  {
  }

  lemma RaceMixes(s: System)
    requires 0 in s.control.procs && s.control.procs[0] == Committed(2, "b")
    requires s.control.store.active == Some(3) && 3 in s.control.store.configs
    requires 0 in s.gateways && s.gateways[0] == Gateway("a", 0, CompilesAnything, Waiting)
    ensures var t := RunAll(s, RACE);
            && t.control.store == s.control.store && t.control.rewritten == s.control.rewritten
            && 0 in t.gateways && t.gateways[0].live == "b"
            && t.gateways[0].redisVersion == 3 && t.gateways[0].phase == Waiting
  {
    hide RunAll, Next;
    var s3 := Next(Next(Next(s, RACE[0]), RACE[1]), RACE[2]);
    RaceLoads(s);
    RaceOverlaps(s3, s.control.store.configs[3]);
    RunAllNothing(s);
    assert RACE[..0] == [] && RACE[..6] == RACE;
    RaceTail(s, s, 0); RaceTail(s, RunAll(s, RACE[..1]), 1); RaceTail(s, RunAll(s, RACE[..2]), 2);
    RaceTail(s, s3, 3); RaceTail(s, RunAll(s, RACE[..4]), 4); RaceTail(s, RunAll(s, RACE[..5]), 5);
  }

  lemma RunAllNothing(s: System)
    ensures RunAll(s, []) == s
  {
  }

  lemma RaceTail(s: System, t: System, k: nat)
    requires k < |RACE| && t == RunAll(s, RACE[..k])
    ensures RunAll(s, RACE[..k + 1]) == Next(t, RACE[k])
  {
    assert RACE[..k + 1] == RACE[..k] + [RACE[k]];
    RunAllSnoc(s, RACE[..k], RACE[k]);
  }

  /** A gateway whose redisVersion is the active pointer never looks at its live snapshot again. */
  lemma {:induction false} NeverReloads(s: System, es: seq<SystemEvent>, r: Rid, v: Version)
    requires WatchOnly(es, r) && Settled(s, es, v)
    requires r in s.gateways && s.gateways[r].redisVersion == v
    requires s.gateways[r].phase == Waiting || s.gateways[r].phase == GotPointer(v)
    ensures var t := RunAll(s, es);
            && r in t.gateways && t.gateways[r].live == s.gateways[r].live && t.gateways[r].redisVersion == v
            && (t.gateways[r].phase == Waiting || t.gateways[r].phase == GotPointer(v))
    decreases |es|
  {
    hide Apply;
    if es != [] {
      var init, e := es[..|es| - 1], es[|es| - 1];
      NeverReloads(s, init, r, v);
      SettledNow(s, init, v);
      assert RunAll(s, init).control.store.active == Some(v) by {
        if init != [] { assert Settled(s, init, v); }
      }
    }
  }

  /** The interleaving above leaves a gateway serving version 2 while the active pointer and its own
      redisVersion say 3, and no amount of polling repairs it. */
  lemma AdminGatewayCanStick() returns (s: System, es: seq<SystemEvent>, t: System)
    ensures Initial(s) && t == RunAll(s, es) && !t.control.rewritten
    ensures t.control.store.active == Some(3) && 0 in t.gateways && t.gateways[0].redisVersion == 3
    ensures t.control.store.ActiveBody() == Some("c") && t.gateways[0].live == "b"
    ensures forall later: seq<SystemEvent> :: WatchOnly(later, 0) && Settled(t, later, 3) ==>
              0 in RunAll(t, later).gateways && RunAll(t, later).gateways[0].live == "b"
  {
    s := System(Init(SHELVES), map[0 := Gateway("a", 0, CompilesAnything, Waiting)]);
    var control, c := TwoActivations(s.control);
    RunLifted(s, control);
    var mid := s.(control := c);
    RaceMixes(mid);
    es, t := Lift(control) + RACE, RunAll(mid, RACE);
    RunAllAppend(s, Lift(control), RACE);
    forall later: seq<SystemEvent> | WatchOnly(later, 0) && Settled(t, later, 3)
      ensures 0 in RunAll(t, later).gateways && RunAll(t, later).gateways[0].live == "b"
    {
      NeverReloads(t, later, 0, 3);
    }
  }

  // ---------------------------------------------------------------------------
  // Exactly when a gateway recovers

  /** The active pointer is on `v`, stored with content `body`, which gateway `r` compiles. */
  ghost predicate PointsAt(s: System, r: Rid, v: Version, body: string) {
    && AllInformed(s.control)
    && s.control.store.active == Some(v) && s.control.store.Body(v) == Some(body)
    && r in s.gateways && s.gateways[r].accepts(body)
  }

  /** Whether the gateway will serve `body` once its loop has nothing left to do, judged by what the
      loop holds. */
  ghost predicate WillBeRight(g: Gateway, v: Version, body: string) {
    var rightNow := g.redisVersion == v ==> g.live == body;
    match g.phase
    case Waiting => rightNow
    case GotPointer(_) => rightNow
    case GotBody(u, b) => if g.accepts(b) then u == v ==> b == body else rightNow
    case Swapped(u) => u == v ==> g.live == body
  }

  /** What becomes of the gateway depends on a read still to come: the loop is about to read another
      version, and `v` is already recorded. */
  predicate Undecided(g: Gateway, v: Version) {
    g.phase.GotPointer? && g.phase.version != v && g.redisVersion == v
  }

  /** How many successful steps of the loop may still be needed. */
  function Remaining(g: Gateway, v: Version): (n: nat)
    ensures n <= 7
  {
    match g.phase
    case Waiting => if g.redisVersion == v then 0 else 4
    case GotPointer(u) => if u == v then (if g.redisVersion == v then 0 else 3) else 7
    case GotBody(u, b) => if u == v && g.accepts(b) then 2 else 6
    case Swapped(u) => if u == v then 1 else 5
  }

  lemma LoopDecides(st: Store, g: Gateway, v: Version, body: string, ok: bool)
    requires st.active == Some(v) && st.Body(v) == Some(body) && g.accepts(body) && !Undecided(g, v)
    ensures var h := LoopStep(st, g, ok);
            && h.accepts == g.accepts && !Undecided(h, v)
            && (WillBeRight(h, v, body) <==> WillBeRight(g, v, body))
            && (ok && Remaining(g, v) > 0 ==> Remaining(h, v) < Remaining(g, v))
            && (Remaining(g, v) == 0 ==> Remaining(h, v) == 0)
  {
  }

  /** While the active pointer stays on `v`, its content cannot change. */
  lemma NextPointsAt(s: System, e: SystemEvent, r: Rid, v: Version, body: string)
    requires PointsAt(s, r, v, body) && WatchOnly([e], r) && Next(s, e).control.store.active == Some(v)
    ensures PointsAt(Next(s, e), r, v, body)
    ensures Next(s, e).gateways[r] ==
            if e.Loop? && e.rid == r then LoopStep(s.control.store, s.gateways[r], e.ok) else s.gateways[r]
  {
    assert !(([e][0].Install? || [e][0].Record?) && [e][0].rid == r);
    if e.Control? {
      StepKeepsInformed(s.control, e.e);
      ResponseJustified(s.control.store, Lookup(s.control.procs, e.e.pid), e.e);
    }
  }

  lemma DecidedStep(t: System, e: SystemEvent, r: Rid, v: Version, body: string)
    requires PointsAt(t, r, v, body) && !Undecided(t.gateways[r], v)
    requires WatchOnly([e], r) && NoFailures([e], r) && Next(t, e).control.store.active == Some(v)
    ensures PointsAt(Next(t, e), r, v, body)
    ensures var g, h := t.gateways[r], Next(t, e).gateways[r];
            && !Undecided(h, v)
            && (WillBeRight(h, v, body) <==> WillBeRight(g, v, body))
            && (Remaining(g, v) == 0 ==> Remaining(h, v) == 0)
            && (e.Loop? && e.rid == r && Remaining(g, v) > 0 ==> Remaining(h, v) < Remaining(g, v))
            && (!(e.Loop? && e.rid == r) ==> h == g)
  {
    hide Next, WillBeRight, Undecided, Remaining;
    NextPointsAt(t, e, r, v, body);
    if e.Loop? && e.rid == r {
      assert [e][0].ok;
      LoopDecides(t.control.store, t.gateways[r], v, body, e.ok);
    }
  }

  lemma {:induction false} RunDecided(s: System, es: seq<SystemEvent>, r: Rid, v: Version, body: string)
    requires PointsAt(s, r, v, body) && !Undecided(s.gateways[r], v)
    requires WatchOnly(es, r) && NoFailures(es, r) && Settled(s, es, v)
    ensures PointsAt(RunAll(s, es), r, v, body)
    ensures var g, h := s.gateways[r], RunAll(s, es).gateways[r];
            && !Undecided(h, v)
            && (WillBeRight(h, v, body) <==> WillBeRight(g, v, body))
            && (Remaining(h, v) == 0 || Remaining(h, v) + StepsOf(es, r) <= Remaining(g, v))
    decreases |es|
  {
    hide Next, WillBeRight, Undecided, Remaining, PointsAt;
    if es != [] {
      var init, e := es[..|es| - 1], es[|es| - 1];
      RunDecided(s, init, r, v, body);
      DecidedStep(RunAll(s, init), e, r, v, body);
    }
  }

  /** Exactly when a gateway recovers, whatever its handlers did before and whatever load is in
      flight. Let no handler run in it any more and the active pointer be on a stored version it
      compiles. After the successful steps its loop still needs, at most seven, it has that
      version recorded, and it serves it if and only if what the loop held at the start was
      right. Nothing is assumed about deleted versions. */
  lemma RecoversExactly(s: System, es: seq<SystemEvent>, r: Rid, v: Version, body: string)
    requires PointsAt(s, r, v, body) && !Undecided(s.gateways[r], v)
    requires WatchOnly(es, r) && NoFailures(es, r) && Settled(s, es, v) && StepsOf(es, r) >= Remaining(s.gateways[r], v)
    ensures var t := RunAll(s, es);
            && r in t.gateways && t.gateways[r].redisVersion == v && t.control.store.ActiveBody() == Some(body)
            && (t.gateways[r].live == body <==> WillBeRight(s.gateways[r], v, body))
  {
    hide Next, RunAll;
    RunDecided(s, es, r, v, body);
  }

  /** The case left: the next step of the loop reads the other version. The gateway recovers exactly
      when that read finds a content it compiles, which it then replaces, or when it was right
      before. */
  lemma UndecidedRecoversExactly(
    s: System, idle: seq<SystemEvent>, rest: seq<SystemEvent>, r: Rid, v: Version, body: string)
    requires PointsAt(s, r, v, body) && Undecided(s.gateways[r], v)
    requires WatchOnly(idle, r) && StepsOf(idle, r) == 0 && Settled(s, idle, v)
    requires var t := Next(RunAll(s, idle), Loop(r, true));
             WatchOnly(rest, r) && NoFailures(rest, r) && Settled(t, rest, v) && StepsOf(rest, r) >= 7
    ensures var other := RunAll(s, idle).control.store.Body(s.gateways[r].phase.version);
            var t := RunAll(s, idle + [Loop(r, true)] + rest);
            && r in t.gateways && t.gateways[r].redisVersion == v
            && (t.gateways[r].live == body <==>
                  (other.Some? && s.gateways[r].accepts(other.value)) || s.gateways[r].live == body)
  {
    hide RunAll, Settled;
    RunIdle(s, idle, r, v, body);
    var mid := RunAll(s, idle);
    var t := Next(mid, Loop(r, true));
    RunAllSnoc(s, idle, Loop(r, true));
    RunAllAppend(s, idle + [Loop(r, true)], rest);
    NextPointsAt(mid, Loop(r, true), r, v, body);
    RecoversExactly(t, rest, r, v, body);
  }

  /** While the loop does not move, its gateway does not change. */
  lemma {:induction false} RunIdle(s: System, es: seq<SystemEvent>, r: Rid, v: Version, body: string)
    requires PointsAt(s, r, v, body) && WatchOnly(es, r) && Settled(s, es, v) && StepsOf(es, r) == 0
    ensures PointsAt(RunAll(s, es), r, v, body) && RunAll(s, es).gateways[r] == s.gateways[r]
    decreases |es|
  {
    hide Next, PointsAt;
    if es != [] {
      var init, e := es[..|es| - 1], es[|es| - 1];
      RunIdle(s, init, r, v, body);
      RunIdleStep(RunAll(s, init), e, r, v, body);
    }
  }

  lemma RunIdleStep(t: System, e: SystemEvent, r: Rid, v: Version, body: string)
    requires PointsAt(t, r, v, body) && WatchOnly([e], r) && !(e.Loop? && e.rid == r)
    requires Next(t, e).control.store.active == Some(v)
    ensures PointsAt(Next(t, e), r, v, body) && Next(t, e).gateways[r] == t.gateways[r]
  {
    hide Next;
    NextPointsAt(t, e, r, v, body);
  }
}
