/** Where commits come from, and what requests and starts achieve when nothing disturbs them. */
module ConfigDeployment {
  import opened Basics
  import opened Text
  import opened ConfigProtocol
  import opened ConfigHazards

  // ---------------------------------------------------------------------------
  // Edits come from requests

  /** Some event of the run began this edit. */
  ghost predicate Asked(es: seq<Event>, expected: string, change: Change) {
    exists j :: 0 <= j < |es| && es[j].Begin? && es[j].op == DeployConfigChange(expected, change)
  }

  ghost predicate EditAsked(es: seq<Event>, edit: Option<Edit>) {
    edit.Some? ==> Asked(es, edit.value.expected, edit.value.change)
  }

  ghost predicate ProcAsked(es: seq<Event>, proc: Proc) {
    match proc
    case DeployList(expected, change) => Asked(es, expected, change)
    case DeployScan(expected, change, _) => Asked(es, expected, change)
    case DeployFetch(expected, change, _, _) => Asked(es, expected, change)
    case DeployCreate(draft, _, _) => Asked(es, draft.expected, draft.change)
    case ActivateGet(_, _, edit) => EditAsked(es, edit)
    case ActivateWatch(_, _, edit, _) => EditAsked(es, edit)
    case ActivateRead(_, _, edit, _, _) => EditAsked(es, edit)
    case ActivateExists(_, _, edit, _, _) => EditAsked(es, edit)
    case ActivateExec(_, _, edit, _, _) => EditAsked(es, edit)
    case _ => true
  }

  ghost predicate AllAsked(es: seq<Event>, s: State) {
    && (forall p :: p in s.procs ==> ProcAsked(es, s.procs[p]))
    && (forall i :: 0 <= i < |s.history| ==> EditAsked(es, s.history[i].edit))
  }

  lemma AskedStays(es: seq<Event>, e: Event, expected: string, change: Change)
    requires Asked(es, expected, change)
    ensures Asked(es + [e], expected, change)
  {
    var j :| 0 <= j < |es| && es[j].Begin? && es[j].op == DeployConfigChange(expected, change);
    assert (es + [e])[j] == es[j];
  }

  lemma EditAskedStays(es: seq<Event>, e: Event, edit: Option<Edit>)
    requires EditAsked(es, edit)
    ensures EditAsked(es + [e], edit)
  {
    if edit.Some? {
      AskedStays(es, e, edit.value.expected, edit.value.change);
    }
  }

  lemma ProcAskedStays(es: seq<Event>, e: Event, proc: Proc)
    requires ProcAsked(es, proc)
    ensures ProcAsked(es + [e], proc)
  {
    hide Asked;
    match proc
    case DeployList(expected, change) => AskedStays(es, e, expected, change);
    case DeployScan(expected, change, _) => AskedStays(es, e, expected, change);
    case DeployFetch(expected, change, _, _) => AskedStays(es, e, expected, change);
    case DeployCreate(draft, _, _) => AskedStays(es, e, draft.expected, draft.change);
    case ActivateGet(_, _, edit) => EditAskedStays(es, e, edit);
    case ActivateWatch(_, _, edit, _) => EditAskedStays(es, e, edit);
    case ActivateRead(_, _, edit, _, _) => EditAskedStays(es, e, edit);
    case ActivateExists(_, _, edit, _, _) => EditAskedStays(es, e, edit);
    case ActivateExec(_, _, edit, _, _) => EditAskedStays(es, e, edit);
    case _ =>
  }

  lemma BeginAsks(es: seq<Event>, e: Event)
    requires e.Begin? && Start(e.op).Some?
    ensures ProcAsked(es + [e], Start(e.op).value)
  {
    assert (es + [e])[|es|] == e;
  }

  lemma ResponseAsked(es: seq<Event>, st: Store, proc: Option<Proc>, e: Event)
    requires proc.Some? ==> ProcAsked(es, proc.value)
    requires e.Begin? && proc.None? && Start(e.op).Some? ==> ProcAsked(es, Start(e.op).value)
    ensures var move := Respond(st, proc, e);
            && (move.next.Some? ==> ProcAsked(es, move.next.value))
            && (move.effect.MovePointer? ==> EditAsked(es, move.effect.edit))
  {
    hide Asked, FormatInt, Max;
  }

  lemma {:induction false} RunAsked(st: Store, es: seq<Event>)
    ensures AllAsked(es, Run(Init(st), es))
    decreases |es|
  {
    hide Respond, ProcAsked, EditAsked;
    if es != [] {
      var init, e := es[..|es| - 1], es[|es| - 1];
      var s := Run(Init(st), init);
      RunAsked(st, init);
      assert es == init + [e];
      StepAsked(init, s, e);
    }
  }

  lemma StepAsked(es: seq<Event>, s: State, e: Event)
    requires AllAsked(es, s)
    ensures AllAsked(es + [e], Apply(s, e))
  {
    hide Respond, ProcAsked, EditAsked;
    var t, proc := Apply(s, e), Lookup(s.procs, e.pid);
    forall p | p in s.procs ensures ProcAsked(es + [e], s.procs[p]) {
      ProcAskedStays(es, e, s.procs[p]);
    }
    forall i | 0 <= i < |s.history| ensures EditAsked(es + [e], s.history[i].edit) {
      EditAskedStays(es, e, s.history[i].edit);
    }
    if e.Begin? && Start(e.op).Some? {
      BeginAsks(es, e);
    }
    ResponseAsked(es + [e], s.store, proc, e);
  }

  /** In every interleaving from any store, each committed edit was asked for by a request, with the
      very change it applied, and a request that named the version it expected was committed
      only while that version was active. */
  lemma EditsComeFromRequests(st: Store, es: seq<Event>, i: nat)
    requires i < |Run(Init(st), es).history| && Run(Init(st), es).history[i].edit.Some?
    ensures var c := Run(Init(st), es).history[i];
            && Asked(es, c.edit.value.expected, c.edit.value.change)
            && (c.edit.value.expected != "" ==> c.prev.Some? && FormatInt(c.prev.value) == c.edit.value.expected)
  {
    hide Run, Asked, FormatInt;
    RunAsked(st, es);
    RunKeepsBased(st, es);
    var c := Run(Init(st), es).history[i];
    assert EditAsked(es, c.edit) && BasedCommit(c);
  }

  // ---------------------------------------------------------------------------
  // An undisturbed edit

  lemma SeenStep(s: State, p: Pid, a: Proc, b: Proc, seen: seq<Version>)
    requires Command(s.store, a, true, seen) == Quiet(b)
    ensures Apply(With(s, p, a), Step(p, true, seen)) == With(s, p, b)
  {
    hide Command;
    assert With(s, p, a).procs[p := b] == With(s, p, b).procs;
  }

  /** The first half: read the active pointer and the versions, read and change the configuration,
      store the result. */
  function DraftRun(p: Pid, expected: string, change: Change, seen: seq<Version>): seq<Event> {
    [Begin(p, DeployConfigChange(expected, change)), Step(p, true, seen), Step(p, true, seen), Step(p, true, seen),
     Step(p, true, seen)]
  }

  lemma {:induction false} RunFive(s: State, es: seq<Event>)
    requires |es| == 5
    ensures Run(s, es) == Apply(Apply(Apply(Apply(Apply(s, es[0]), es[1]), es[2]), es[3]), es[4])
  {
    hide Apply;
    assert es[..4] == es[..3] + [es[3]] && es == es[..4] + [es[4]];
    assert es[..3] == es[..2] + [es[2]] && es[..2] == es[..1] + [es[1]] && es[..1] == es[..0] + [es[0]];
    RunSnoc(s, es[..4], es[4]);
    RunSnoc(s, es[..3], es[3]);
    RunSnoc(s, es[..2], es[2]);
    RunSnoc(s, es[..1], es[1]);
    RunSnoc(s, es[..0], es[0]);
  }

  lemma StoresDraft(s: State, p: Pid, draft: Edit, v: Version, body: string, seen: seq<Version>)
    requires v !in s.store.configs
    ensures Apply(With(s, p, DeployCreate(draft, v, body)), Step(p, true, seen)) ==
            With(Perform(s, PutConfig(v, body)), p, ActivateGet(v, FormatInt(draft.base), Some(draft)))
  {
    hide FormatInt;
    var last, next := DeployCreate(draft, v, body), ActivateGet(v, FormatInt(draft.base), Some(draft));
    assert With(s, p, last).procs[p := next] == With(s, p, next).procs;
  }

  /** An edit can succeed: its caller expects the active version or none in particular, that version
      is stored, and the change applies to it. */
  ghost predicate Editable(st: Store, expected: string, change: Change)
    requires st.PointerStored()
  {
    AsExpected(expected, st.active.value) && change(st.configs[st.active.value]).Some?
  }

  function DraftOf(st: Store, expected: string, change: Change): Edit
    requires st.PointerStored()
  {
    Edit(expected, change, st.active.value, st.configs[st.active.value])
  }

  lemma DraftPath(st: Store, expected: string, change: Change, seen: seq<Version>)
    requires st.PointerStored() && Editable(st, expected, change)
    ensures var base, body := st.active.value, st.configs[st.active.value];
            && Command(st, DeployList(expected, change), true, seen) == Quiet(DeployScan(expected, change, base))
            && Command(st, DeployScan(expected, change, base), true, seen) ==
               Quiet(DeployFetch(expected, change, base, Max(seen, base) + 1))
            && Command(st, DeployFetch(expected, change, base, Max(seen, base) + 1), true, seen) ==
               Quiet(DeployCreate(DraftOf(st, expected, change), Max(seen, base) + 1, change(body).value))
  {
    hide FormatInt, Max;
  }

  lemma DraftStored(s: State, p: Pid, expected: string, change: Change, seen: seq<Version>)
    requires p !in s.procs && s.store.PointerStored() && Editable(s.store, expected, change)
    requires Max(seen, s.store.active.value) + 1 !in s.store.configs
    ensures var base := s.store.active.value; var v := Max(seen, base) + 1;
            Run(s, DraftRun(p, expected, change, seen)) ==
            With(Perform(s, PutConfig(v, change(s.store.configs[base]).value)), p,
                 ActivateGet(v, FormatInt(base), Some(DraftOf(s.store, expected, change))))
  {
    hide Run, Apply, Command, Perform, FormatInt, Max;
    var base := s.store.active.value;
    var v, body := Max(seen, base) + 1, change(s.store.configs[base]).value;
    var draft := DraftOf(s.store, expected, change);
    RunFive(s, DraftRun(p, expected, change, seen));
    BeginStarts(s, p, DeployConfigChange(expected, change));
    DraftPath(s.store, expected, change, seen);
    SeenStep(s, p, DeployList(expected, change), DeployScan(expected, change, base), seen);
    SeenStep(s, p, DeployScan(expected, change, base), DeployFetch(expected, change, base, v), seen);
    SeenStep(s, p, DeployFetch(expected, change, base, v), DeployCreate(draft, v, body), seen);
    StoresDraft(s, p, draft, v, body, seen);
  }

  /** The second half: the activation, less the local steps of its gateway. */
  function ActivationRun(p: Pid): seq<Event> {
    Steps(p, 4) + [Go(p)] + [Drop(p)]
  }

  lemma ActivatesDraft(s: State, p: Pid, v: Version, draft: Edit)
    requires p !in s.procs && s.store.active == Some(draft.base) && v in s.store.configs
    ensures var m := FormatInt(draft.base);
            Run(With(s, p, ActivateGet(v, m, Some(draft))), ActivationRun(p)) ==
            Perform(s, MovePointer(v, m, Some(draft), s.store.configs[v]))
  {
    hide Run, Apply, Perform, QuietPath, FormatInt;
    var m, body := FormatInt(draft.base), s.store.configs[v];
    var path := ActivationPath(v, m, Some(draft), body, WatchNow(s.store, v));
    ActivationPathQuiet(s.store, v, Some(draft));
    Proceed(s, p, path);
    var start := With(s, p, path[0]);
    RunSnoc(start, Steps(p, 4), Go(p));
    ExecCommits(s, p, v, m, Some(draft), body);
    RunSnoc(start, Steps(p, 4) + [Go(p)], Drop(p));
    PerformKeepsProcs(s, MovePointer(v, m, Some(draft), body));
    DropLeaves(Perform(s, MovePointer(v, m, Some(draft), body)), p, Committed(v, body));
  }

  /** An undisturbed edit that its caller may make always commits: its change of the active content
      is stored under a number above every version the SCAN reported, and active. */
  lemma DeploySucceedsAlone(s: State, p: Pid, expected: string, change: Change, seen: seq<Version>)
    requires p !in s.procs && s.store.PointerStored() && Editable(s.store, expected, change)
    requires Max(seen, s.store.active.value) + 1 !in s.store.configs
    ensures var base := s.store.active.value;
            var v, body := Max(seen, base) + 1, change(s.store.configs[base]).value;
            && v > base && (forall i :: 0 <= i < |seen| ==> v > seen[i])
            && Run(s, DraftRun(p, expected, change, seen) + ActivationRun(p)) ==
               Perform(Perform(s, PutConfig(v, body)),
                       MovePointer(v, FormatInt(base), Some(DraftOf(s.store, expected, change)), body))
  {
    hide Run, Apply, Command, FormatInt, Perform, AsExpected, DraftRun, ActivationRun, With, DraftOf;
    var base := s.store.active.value;
    var v, body := Max(seen, base) + 1, change(s.store.configs[base]).value;
    var draft, stored := DraftOf(s.store, expected, change), Perform(s, PutConfig(v, body));
    var middle := With(stored, p, ActivateGet(v, FormatInt(base), Some(draft)));
    DraftHasBase(s.store, expected, change);
    DraftStored(s, p, expected, change, seen);
    PutLeaves(s, v, body);
    ActivatesDraft(stored, p, v, draft);
    Then(s, DraftRun(p, expected, change, seen), middle, ActivationRun(p),
         Perform(stored, MovePointer(v, FormatInt(base), Some(draft), body)));
  }

  lemma DraftHasBase(st: Store, expected: string, change: Change)
    requires st.PointerStored()
    ensures DraftOf(st, expected, change).base == st.active.value
  {
  }

  lemma PutLeaves(s: State, v: Version, body: string)
    ensures var t := Perform(s, PutConfig(v, body));
            t.procs == s.procs && t.store.active == s.store.active && v in t.store.configs && t.store.configs[v] == body
  {
  }

  /** When the SCAN reports every stored version, the number is free. */
  lemma FullScanFindsAFreeNumber(st: Store, seen: seq<Version>, base: Version)
    requires forall v :: v in st.configs ==> v in seen
    ensures Max(seen, base) + 1 !in st.configs
  {
    forall v | v in st.configs ensures v <= Max(seen, base) {
      var i :| 0 <= i < |seen| && seen[i] == v;
    }
  }

  /** An edit whose caller expects another version, or whose change throws, leaves everything as it
      was: the first at once, the second before it stores anything. */
  lemma DeployRefusedAlone(s: State, p: Pid, expected: string, change: Change, ok: bool, seen: seq<Version>)
    requires p !in s.procs && s.store.active.Some? && !AsExpected(expected, s.store.active.value)
    ensures Run(s, [Begin(p, DeployConfigChange(expected, change)), Step(p, ok, seen)]) == s
  {
    hide FormatInt, Max;
    var begin := Begin(p, DeployConfigChange(expected, change));
    assert [begin, Step(p, ok, seen)] == [begin] + [Step(p, ok, seen)] && [begin] == [] + [begin];
    RunSnoc(s, [begin], Step(p, ok, seen));
    RunSnoc(s, [], begin);
    RunNothing(s);
    BeginStarts(s, p, DeployConfigChange(expected, change));
    assert With(s, p, DeployList(expected, change)).procs - {p} == s.procs;
  }

  lemma ThrowingChangeStoresNothing(s: State, p: Pid, expected: string, change: Change, v: Version, ok: bool, seen: seq<Version>)
    requires p !in s.procs && s.store.PointerStored() && change(s.store.configs[s.store.active.value]).None?
    ensures Apply(With(s, p, DeployFetch(expected, change, s.store.active.value, v)), Step(p, ok, seen)) == s
  {
    assert With(s, p, DeployFetch(expected, change, s.store.active.value, v)).procs - {p} == s.procs;
  }

  // ---------------------------------------------------------------------------
  // Rejections and starts

  /** A configuration that validation rejects is neither stored nor activated: the request ends and
      changes nothing. */
  lemma RejectedChangesNothing(s: State, p: Pid, proc: Proc, seen: seq<Version>)
    requires p !in s.procs && (proc.Create? || proc.ActivateGet? || proc.DeployCreate?)
    ensures Apply(With(s, p, proc), Step(p, false, seen)) == s
  {
    assert With(s, p, proc).procs - {p} == s.procs;
  }

  /** An undisturbed start stores its configuration unless that version is there, sets the active
      pointer unless there is one, and nothing else. */
  lemma StartSucceedsAlone(s: State, p: Pid, v: Version, body: string)
    requires p !in s.procs
    ensures var stored := if v in s.store.configs then s else Perform(s, PutConfig(v, body));
            Run(s, Alone(p, Bootstrap(v, body), 0) + [Go(p)]) ==
            if s.store.active.Some? then stored else Perform(stored, PointFirst(v))
  {
    hide Run;
    var stored := if v in s.store.configs then s else Perform(s, PutConfig(v, body));
    RunAlone(s, p, Bootstrap(v, body), [BootConfig(v, body)]);
    StartStores(s, p, v, body);
    RunSnoc(s, Alone(p, Bootstrap(v, body), 0), Go(p));
    StartPoints(stored, p, v);
  }

  lemma StartStores(s: State, p: Pid, v: Version, body: string)
    ensures Apply(With(s, p, BootConfig(v, body)), Go(p)) ==
            With(if v in s.store.configs then s else Perform(s, PutConfig(v, body)), p, BootActive(v))
  {
    assert With(s, p, BootConfig(v, body)).procs[p := BootActive(v)] == With(s, p, BootActive(v)).procs;
  }

  lemma StartPoints(s: State, p: Pid, v: Version)
    requires p !in s.procs
    ensures Apply(With(s, p, BootActive(v)), Go(p)) == if s.store.active.Some? then s else Perform(s, PointFirst(v))
  {
    assert With(s, p, BootActive(v)).procs - {p} == s.procs;
  }
}
