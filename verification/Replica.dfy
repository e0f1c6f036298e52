/** The gateway replicas that follow the active pointer: the `load` closure of the watch loop,
    command by command, beside everything ConfigProtocol allows on the store. */
module Replica {
  import opened Basics
  import opened ConfigProtocol

  type Rid = nat

  /** Where the watch loop is: between two loads, or after the GET of the active pointer, after the
      GET of the configuration, or after the swap of the live snapshot. */
  datatype Phase =
    | Waiting
    | GotPointer(version: Version)
    | GotBody(version: Version, body: string)
    | Swapped(version: Version)

  /** A gateway process: the content of its live snapshot, its redisVersion (0 until the first
      load succeeds), whether it compiles a content, and its watch loop. */
  datatype Gateway = Gateway(live: string, redisVersion: nat, accepts: string -> bool, phase: Phase)

  datatype System = System(control: State, gateways: map<Rid, Gateway>)

  /** `Loop` is the next step of a watch loop, whose read fails when `ok` is false; it needs no
      trigger, since the loop polls. `Install` and `Record` are the local half of an activation
      handler served by the gateway process itself. */
  datatype SystemEvent =
    | Control(e: Event)
    | Loop(rid: Rid, ok: bool)
    | Install(rid: Rid, pid: Pid)
    | Record(rid: Rid, pid: Pid)

  /** One step of `load`. */
  function LoopStep(st: Store, g: Gateway, ok: bool): Gateway {
    match g.phase
    case Waiting =>
      if !ok || st.active.None? then g else g.(phase := GotPointer(st.active.value))
    case GotPointer(v) =>
      if g.redisVersion == v || !ok || v !in st.configs then g.(phase := Waiting)
      else g.(phase := GotBody(v, st.configs[v]))
    case GotBody(v, body) =>
      if g.accepts(body) then g.(live := body, phase := Swapped(v)) else g.(phase := Waiting)
    case Swapped(v) =>
      g.(redisVersion := v, phase := Waiting)
  }

  function SetProcs(s: System, procs: map<Pid, Proc>): System {
    s.(control := s.control.(procs := procs))
  }

  function Next(s: System, e: SystemEvent): System {
    match e
    case Control(c) => s.(control := Apply(s.control, c))
    case Loop(r, ok) =>
      if r !in s.gateways then s
      else s.(gateways := s.gateways[r := LoopStep(s.control.store, s.gateways[r], ok)])
    case Install(r, p) =>
      if r !in s.gateways || p !in s.control.procs || !s.control.procs[p].Committed? then s else
      var proc, g := s.control.procs[p], s.gateways[r];
      if g.accepts(proc.loaded)
      then SetProcs(s, s.control.procs[p := Installed(proc.version)]).(
             gateways := s.gateways[r := g.(live := proc.loaded)])
      else SetProcs(s, s.control.procs - {p})
    case Record(r, p) =>
      if r !in s.gateways || p !in s.control.procs || !s.control.procs[p].Installed? then s else
      SetProcs(s, s.control.procs - {p}).(
        gateways := s.gateways[r := s.gateways[r].(redisVersion := s.control.procs[p].version)])
  }

  function RunAll(s: System, es: seq<SystemEvent>): System
    decreases |es|
  {
    if es == [] then s else Next(RunAll(s, es[..|es| - 1]), es[|es| - 1])
  }

  /** Any store, and gateways that have just started from their bootstrap files. */
  ghost predicate Initial(s: System) {
    && s.control == Init(s.control.store)
    && forall r :: r in s.gateways ==>
         s.gateways[r].redisVersion == 0 && s.gateways[r].phase == Waiting && s.gateways[r].accepts(s.gateways[r].live)
  }

  /** No activation handler runs inside gateway `r`. */
  predicate WatchOnly(es: seq<SystemEvent>, r: Rid) {
    forall i :: 0 <= i < |es| ==> !((es[i].Install? || es[i].Record?) && es[i].rid == r)
  }

  // ---------------------------------------------------------------------------
  // Agreement

  /** The control plane stays within what ConfigProtocol proves, local handler steps included. */
  ghost predicate ControlOk(c: State) {
    AllInformed(c) && AllBased(c) && Sound(c)
  }

  lemma NextKeepsControl(s: System, e: SystemEvent)
    requires ControlOk(s.control)
    ensures ControlOk(Next(s, e).control)
  {
    if e.Control? {
      StepKeepsInformed(s.control, e.e);
      StepKeepsBased(s.control, e.e);
      StepKeepsSound(s.control, e.e);
    }
  }

  /** What a gateway's fields say of the contents ever written. Between the swap and the store
      of redisVersion, the live content is already that of the version being installed. */
  ghost predicate Agrees(c: State, g: Gateway) {
    && (g.phase.GotBody? ==> g.phase.version in c.written && c.written[g.phase.version] == g.phase.body)
    && (if g.phase.Swapped? then g.phase.version in c.written && c.written[g.phase.version] == g.live
        else g.redisVersion != 0 ==> g.redisVersion in c.written && c.written[g.redisVersion] == g.live)
  }

  lemma LoopKeepsAgreement(c: State, g: Gateway, ok: bool)
    requires Immutable(c) && Agrees(c, g)
    ensures Agrees(c, LoopStep(c.store, g, ok))
  {
  }

  lemma ControlKeepsAgreement(c: State, g: Gateway, e: Event)
    requires ControlOk(c) && !Apply(c, e).rewritten && Agrees(c, g)
    ensures Agrees(Apply(c, e), g)
  {
    ResponseJustified(c.store, Lookup(c.procs, e.pid), e);
    EffectKeepsImmutable(c, MoveOf(c, e).effect);
  }

  /** Everything that holds along a run for a gateway changed only by its watch loop. */
  ghost predicate Follows(s: System, r: Rid) {
    && ControlOk(s.control)
    && (r in s.gateways ==>
          && s.gateways[r].accepts(s.gateways[r].live)
          && (!s.control.rewritten ==> Agrees(s.control, s.gateways[r])))
  }

  lemma NextKeepsFollowing(s: System, e: SystemEvent, r: Rid)
    requires Follows(s, r) && WatchOnly([e], r)
    ensures Follows(Next(s, e), r)
  {
    NextKeepsControl(s, e);
    assert !(([e][0].Install? || [e][0].Record?) && [e][0].rid == r);
    if r in s.gateways && !Next(s, e).control.rewritten {
      match e
      case Control(c) => ControlKeepsAgreement(s.control, s.gateways[r], c);
      case Loop(q, ok) => if q == r { LoopKeepsAgreement(s.control, s.gateways[r], ok); }
      case Install(_, _) =>
      case Record(_, _) =>
    }
  }

  lemma {:induction false} RunKeepsFollowing(s: System, es: seq<SystemEvent>, r: Rid)
    requires Follows(s, r) && WatchOnly(es, r)
    ensures Follows(RunAll(s, es), r)
    decreases |es|
  {
    if es != [] {
      var init, e := es[..|es| - 1], es[|es| - 1];
      RunKeepsFollowing(s, init, r);
      NextKeepsFollowing(RunAll(s, init), e, r);
    }
  }

  /** Replica agreement. For a gateway changed only by its watch loop, in a run that never
      stores a deleted version again with other content, a nonzero redisVersion names the live
      content whenever the loop is not between its swap and its store; in that window the live
      content is the one of the version about to be recorded. The live content is always one the gateway
      compiled: failed reads and rejected versions leave the last good snapshot. */
  lemma ReplicaAgrees(s: System, es: seq<SystemEvent>, r: Rid)
    requires Initial(s) && WatchOnly(es, r) && r in RunAll(s, es).gateways
    ensures var t := RunAll(s, es); var g := t.gateways[r];
            && g.accepts(g.live)
            && (!t.control.rewritten && !g.phase.Swapped? && g.redisVersion != 0 && g.redisVersion in t.control.store.configs
                ==> t.control.store.configs[g.redisVersion] == g.live)
            && (!t.control.rewritten && g.phase.Swapped? && g.phase.version in t.control.store.configs
                ==> t.control.store.configs[g.phase.version] == g.live)
  {
    RunKeepsFollowing(s, es, r);
    assert Follows(RunAll(s, es), r);
  }

  // ---------------------------------------------------------------------------
  // Convergence

  /** Along the whole run the active pointer names `v`. */
  ghost predicate Settled(s: System, es: seq<SystemEvent>, v: Version)
    decreases |es|
  {
    && s.control.store.active == Some(v)
    && (es != [] ==> Settled(s, es[..|es| - 1], v) && RunAll(s, es).control.store.active == Some(v))
  }

  /** The number of steps of gateway `r` in a run, failed ones included. */
  function StepsOf(es: seq<SystemEvent>, r: Rid): nat {
    if es == [] then 0 else
    StepsOf(es[..|es| - 1], r) + if es[|es| - 1].Loop? && es[|es| - 1].rid == r then 1 else 0
  }

  predicate NoFailures(es: seq<SystemEvent>, r: Rid) {
    forall i :: 0 <= i < |es| ==> !(es[i].Loop? && es[i].rid == r && !es[i].ok)
  }

  /** How many steps of the loop may still be needed: finish the load in flight, then do one
      full load of `v`. */
  function Distance(g: Gateway, v: Version): nat {
    match g.phase
    case Waiting => if g.redisVersion == v then 0 else 4
    case GotPointer(u) => if u == v then (if g.redisVersion == v then 0 else 3) else 7
    case GotBody(u, _) => if u == v then 2 else 6
    case Swapped(u) => if u == v then 1 else 5
  }

  /** The active pointer names `v`, which is stored with content `body`, and gateway `r` compiles it. */
  ghost predicate Tracking(s: System, r: Rid, v: Version, body: string) {
    && Follows(s, r) && !s.control.rewritten
    && s.control.store.active == Some(v) && s.control.store.Body(v) == Some(body)
    && r in s.gateways && s.gateways[r].accepts(body)
  }

  lemma LoopApproaches(c: State, g: Gateway, v: Version, ok: bool)
    requires ControlOk(c) && !c.rewritten && Agrees(c, g)
    requires c.store.active == Some(v) && v in c.store.configs && g.accepts(c.store.configs[v])
    ensures var h := LoopStep(c.store, g, ok);
            && (ok && Distance(g, v) > 0 ==> Distance(h, v) < Distance(g, v))
            && (Distance(g, v) == 0 ==> Distance(h, v) == 0 && h.live == g.live)
  {
  }

  lemma NextTracks(s: System, e: SystemEvent, r: Rid, v: Version, body: string)
    requires Tracking(s, r, v, body) && WatchOnly([e], r)
    requires Next(s, e).control.store.active == Some(v) && !Next(s, e).control.rewritten
    ensures Tracking(Next(s, e), r, v, body)
    ensures e.Loop? && e.rid == r ==>
      Next(s, e).gateways[r] == LoopStep(s.control.store, s.gateways[r], e.ok)
    ensures !(e.Loop? && e.rid == r) ==> Next(s, e).gateways[r] == s.gateways[r]
  {
    assert !(([e][0].Install? || [e][0].Record?) && [e][0].rid == r);
    NextKeepsFollowing(s, e, r);
    if e.Control? {
      ResponseJustified(s.control.store, Lookup(s.control.procs, e.e.pid), e.e);
      EffectKeepsImmutable(s.control, MoveOf(s.control, e.e).effect);
    }
  }

  lemma RecreationIsRemembered(s: System, e: SystemEvent)
    ensures s.control.rewritten ==> Next(s, e).control.rewritten
  {
  }

  /** Once installed, a version the active pointer keeps naming stays installed, whatever else
      happens: other activations in flight, lost notifications, failed reads. */
  lemma {:induction false} InstalledStays(s: System, es: seq<SystemEvent>, r: Rid, v: Version, body: string)
    requires Tracking(s, r, v, body) && WatchOnly(es, r) && Settled(s, es, v)
    requires !RunAll(s, es).control.rewritten && Distance(s.gateways[r], v) == 0
    ensures var t := RunAll(s, es); Tracking(t, r, v, body) && Distance(t.gateways[r], v) == 0
    decreases |es|
  {
    if es != [] {
      var init, e := es[..|es| - 1], es[|es| - 1];
      var t := RunAll(s, init);
      RecreationIsRemembered(t, e);
      InstalledStays(s, init, r, v, body);
      NextTracks(t, e, r, v, body);
      if e.Loop? && e.rid == r {
        LoopApproaches(t.control, t.gateways[r], v, e.ok);
      }
    }
  }

  /** While the active pointer names `v` and the gateway's reads succeed, every step of its loop
      brings it closer, and nobody else can set it back. */
  lemma {:induction false} DistanceFalls(s: System, es: seq<SystemEvent>, r: Rid, v: Version, body: string)
    requires Tracking(s, r, v, body) && WatchOnly(es, r) && NoFailures(es, r) && Settled(s, es, v)
    requires !RunAll(s, es).control.rewritten
    ensures var t := RunAll(s, es);
            && Tracking(t, r, v, body)
            && (Distance(t.gateways[r], v) == 0 || Distance(t.gateways[r], v) + StepsOf(es, r) <= Distance(s.gateways[r], v))
    decreases |es|
  {
    if es != [] {
      var init, e := es[..|es| - 1], es[|es| - 1];
      var t := RunAll(s, init);
      RecreationIsRemembered(t, e);
      DistanceFalls(s, init, r, v, body);
      NextTracks(t, e, r, v, body);
      if e.Loop? && e.rid == r {
        LoopApproaches(t.control, t.gateways[r], v, e.ok);
      }
    }
  }

  /** Convergence. After any history, let the active pointer settle on a version the gateway compiles.
      Seven successful steps of its watch loop, the most that finishing the load in flight and
      doing one more can take, install that version, and it stays installed for as long as the
      pointer does, even when later reads fail. */
  lemma ReplicaConverges(
    s: System, past: seq<SystemEvent>, catchUp: seq<SystemEvent>, later: seq<SystemEvent>, r: Rid, v: Version)
    requires Initial(s) && WatchOnly(past, r) && WatchOnly(catchUp, r) && WatchOnly(later, r)
    requires var now := RunAll(s, past);
             && r in now.gateways && Settled(now, catchUp, v)
             && v in now.control.store.configs && now.gateways[r].accepts(now.control.store.configs[v])
             && Settled(RunAll(now, catchUp), later, v)
             && !RunAll(RunAll(now, catchUp), later).control.rewritten
    requires NoFailures(catchUp, r) && StepsOf(catchUp, r) >= 7
    ensures var t := RunAll(RunAll(RunAll(s, past), catchUp), later);
            && r in t.gateways && t.gateways[r].redisVersion == v
            && Some(t.gateways[r].live) == t.control.store.ActiveBody()
            && t.gateways[r].live == RunAll(s, past).control.store.configs[v]
  {
    hide RunAll, Next, Apply;
    RunKeepsFollowing(s, past, r);
    var now := RunAll(s, past);
    SettledNow(now, catchUp, v);
    var body := now.control.store.configs[v];
    var mid := RunAll(now, catchUp);
    NeverRecreatedEarlier(mid, later);
    NeverRecreatedEarlier(now, catchUp);
    DistanceFalls(now, catchUp, r, v, body);
    InstalledStays(mid, later, r, v, body);
  }

  lemma {:induction false} NeverRecreatedEarlier(s: System, es: seq<SystemEvent>)
    requires !RunAll(s, es).control.rewritten
    ensures !s.control.rewritten
    decreases |es|
  {
    if es != [] {
      RecreationIsRemembered(RunAll(s, es[..|es| - 1]), es[|es| - 1]);
      NeverRecreatedEarlier(s, es[..|es| - 1]);
    }
  }

  lemma SettledNow(s: System, es: seq<SystemEvent>, v: Version)
    requires Settled(s, es, v)
    ensures s.control.store.active == Some(v)
  {
  }

  // ---------------------------------------------------------------------------
  // The handler's own gateway

  /** The local half of an undisturbed activation installs the content it loaded and records its
      version in its own gateway, if that compiles it, and changes no other; otherwise it leaves
      all gateways as they are. */
  lemma HandlerInstalls(s: System, r: Rid, p: Pid)
    requires r in s.gateways && p in s.control.procs && s.control.procs[p].Committed?
    ensures var proc, g := s.control.procs[p], s.gateways[r];
            var t := Next(Next(s, Install(r, p)), Record(r, p));
            && t.control == s.control.(procs := s.control.procs - {p})
            && t.gateways == if g.accepts(proc.loaded)
                             then s.gateways[r := g.(live := proc.loaded, redisVersion := proc.version)] else s.gateways
  {
    var proc, g := s.control.procs[p], s.gateways[r];
    if g.accepts(proc.loaded) {
      var mid := Next(s, Install(r, p));
      assert mid.control.procs - {p} == s.control.procs - {p};
    } else {
      assert Next(s, Install(r, p)).control.procs == s.control.procs - {p};
    }
  }
}
