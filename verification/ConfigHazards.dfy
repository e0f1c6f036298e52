/** Where the configuration protocol gives no guarantee, with the runs that show it, and what
    an uncontended request achieves. */
module ConfigHazards {
  import opened Basics
  import opened Text
  import opened ConfigProtocol

  function Go(p: Pid): Event {
    Step(p, true, [])
  }

  function Steps(p: Pid, n: nat): seq<Event> {
    if n == 0 then [] else Steps(p, n - 1) + [Go(p)]
  }

  function With(s: State, p: Pid, proc: Proc): State {
    s.(procs := s.procs[p := proc])
  }

  lemma RunSnoc(s: State, es: seq<Event>, e: Event)
    ensures Run(s, es + [e]) == Apply(Run(s, es), e)
  {
    assert (es + [e])[..|es|] == es;
  }

  // ---------------------------------------------------------------------------
  // Uncontended requests

  /** The processes `path` follow each other by commands that leave the store alone. */
  ghost predicate QuietPath(st: Store, path: seq<Proc>) {
    path != [] && forall i :: 0 <= i < |path| - 1 ==> Command(st, path[i], true, []) == Quiet(path[i + 1])
  }

  lemma RunNothing(s: State)
    ensures Run(s, []) == s
  {
  }

  lemma QuietStep(s: State, p: Pid, a: Proc, b: Proc)
    requires Command(s.store, a, true, []) == Quiet(b)
    ensures Apply(With(s, p, a), Go(p)) == With(s, p, b)
  {
    hide Command;
    assert With(s, p, a).procs[p := b] == With(s, p, b).procs;
  }

  lemma {:induction false} Proceed(s: State, p: Pid, path: seq<Proc>)
    requires QuietPath(s.store, path)
    ensures Run(With(s, p, path[0]), Steps(p, |path| - 1)) == With(s, p, path[|path| - 1])
    decreases |path|
  {
    hide Run, Apply;
    RunNothing(With(s, p, path[0]));
    if |path| > 1 {
      var n := |path| - 1;
      Proceed(s, p, path[..n]);
      RunSnoc(With(s, p, path[0]), Steps(p, n - 1), Go(p));
      QuietStep(s, p, path[n - 1], path[n]);
    }
  }

  /** The request starts, reads, and issues its last command. */
  function Alone(p: Pid, op: Op, quiet: nat): seq<Event> {
    [Begin(p, op)] + Steps(p, quiet) + [Go(p)]
  }

  lemma BeginStarts(s: State, p: Pid, op: Op)
    requires p !in s.procs && Start(op).Some?
    ensures Apply(s, Begin(p, op)) == With(s, p, Start(op).value)
  {
  }

  lemma RunAlone(s: State, p: Pid, op: Op, path: seq<Proc>)
    requires p !in s.procs && QuietPath(s.store, path) && Start(op) == Some(path[0])
    ensures Run(s, Alone(p, op, |path| - 1)) == Apply(With(s, p, path[|path| - 1]), Go(p))
  {
    hide Run, Apply;
    var begin := [Begin(p, op)];
    RunNothing(s);
    RunSnoc(s, [], Begin(p, op));
    BeginStarts(s, p, op);
    assert [] + begin == begin;
    RunAppend(s, begin, Steps(p, |path| - 1));
    Proceed(s, p, path);
    RunSnoc(s, begin + Steps(p, |path| - 1), Go(p));
  }

  function ActivationPath(v: Version, m: string, edit: Option<Edit>, body: string, w: Watch): seq<Proc> {
    [ActivateGet(v, m, edit), ActivateWatch(v, m, edit, body), ActivateRead(v, m, edit, body, w),
     ActivateExists(v, m, edit, body, w), ActivateExec(v, m, edit, body, w)]
  }

  lemma ActivationPathQuiet(st: Store, v: Version, edit: Option<Edit>)
    requires st.active.Some? && v in st.configs
    ensures QuietPath(st, ActivationPath(v, FormatInt(st.active.value), edit, st.configs[v], WatchNow(st, v)))
  {
  }

  /** The last command of an undisturbed activation. */
  lemma ExecCommits(s: State, p: Pid, v: Version, m: string, edit: Option<Edit>, body: string)
    ensures Apply(With(s, p, ActivateExec(v, m, edit, body, WatchNow(s.store, v))), Go(p)) ==
            With(Perform(s, MovePointer(v, m, edit, body)), p, Committed(v, body))
  {
    var last := ActivateExec(v, m, edit, body, WatchNow(s.store, v));
    assert With(s, p, last).procs[p := Committed(v, body)] == With(s, p, Committed(v, body)).procs;
  }

  lemma PerformKeepsProcs(s: State, effect: Effect)
    ensures Perform(s, effect).procs == s.procs
  {
  }

  lemma DropLeaves(s: State, p: Pid, proc: Proc)
    requires p !in s.procs
    ensures Apply(With(s, p, proc), Drop(p)) == s
  {
    assert With(s, p, proc).procs - {p} == s.procs;
  }

  /** An activation that nothing interrupts, with the right If-Match, always commits. */
  lemma ActivationSucceedsAlone(s: State, p: Pid, v: Version)
    requires p !in s.procs && s.store.active.Some? && v in s.store.configs
    ensures var m := FormatInt(s.store.active.value);
            Run(s, Alone(p, ActivateConfig(v, m), 4) + [Drop(p)]) ==
            Perform(s, MovePointer(v, m, None, s.store.configs[v]))
  {
    hide Run, Apply, Perform, QuietPath, FormatInt;
    var m, body := FormatInt(s.store.active.value), s.store.configs[v];
    ActivationPathQuiet(s.store, v, None);
    RunAlone(s, p, ActivateConfig(v, m), ActivationPath(v, m, None, body, WatchNow(s.store, v)));
    ExecCommits(s, p, v, m, None, body);
    RunSnoc(s, Alone(p, ActivateConfig(v, m), 4), Drop(p));
    PerformKeepsProcs(s, MovePointer(v, m, None, body));
    DropLeaves(Perform(s, MovePointer(v, m, None, body)), p, Committed(v, body));
  }

  /** A deletion of a stored version that is not active, which nothing interrupts, succeeds. */
  lemma DeletionSucceedsAlone(s: State, p: Pid, v: Version)
    requires p !in s.procs && s.store.active != Some(v) && v in s.store.configs
    ensures Run(s, Alone(p, DeleteConfig(v), 3)) == Perform(s, RemoveConfig(v))
  {
    hide Run;
    var w := WatchNow(s.store, v);
    var last := DeleteExec(v, w);
    RunAlone(s, p, DeleteConfig(v), [DeleteWatch(v), DeleteRead(v, w), DeleteExists(v, w), last]);
    assert Command(s.store, last, true, []) == Move(RemoveConfig(v), None);
    assert With(s, p, last).procs - {p} == s.procs;
  }

  /** So does a creation under a new number. */
  lemma CreationSucceedsAlone(s: State, p: Pid, v: Version, body: string)
    requires p !in s.procs && v !in s.store.configs
    ensures Run(s, Alone(p, CreateConfig(v, body), 0)) == Perform(s, PutConfig(v, body))
  {
    hide Run;
    RunAlone(s, p, CreateConfig(v, body), [Create(v, body)]);
    assert With(s, p, Create(v, body)).procs - {p} == s.procs;
  }

  /** Requests one after the other. */
  lemma Then(s: State, es: seq<Event>, t: State, fs: seq<Event>, u: State)
    requires t == Run(s, es) && u == Run(t, fs)
    ensures u == Run(s, es + fs)
  {
    hide Run;
    RunAppend(s, es, fs);
  }

  // ---------------------------------------------------------------------------
  // A fresh store

  /** On a store without a pointer, a deletion between the two SETNX of a start leaves the
      pointer naming a version that is gone. */
  lemma BootstrapCanDangle() returns (es: seq<Event>, t: State)
    ensures t == Run(Init(Store(map[], None, map[], 0)), es)
    ensures t.store.active.Some? && !t.store.PointerStored()
  {
    var s0 := Init(Store(map[], None, map[], 0));
    var before, s2 := DeletedHalfway(s0);
    es, t := before + [Go(0)], Apply(s2, Go(0));
    RunSnoc(s0, before, Go(0));
    SecondHalfOfStart(s2);
  }

  lemma DeletedHalfway(s: State) returns (es: seq<Event>, t: State)
    requires s == Init(Store(map[], None, map[], 0))
    ensures t == Run(s, es)
    ensures 0 in t.procs && t.procs[0] == BootActive(1) && t.store.active.None? && t.store.configs == map[]
  {
    hide Run, Apply;
    var boot, delete := Alone(0, Bootstrap(1, ""), 0), Alone(1, DeleteConfig(1), 3);
    var s1 := With(Perform(s, PutConfig(1, "")), 0, BootActive(1));
    FirstHalfOfStart(s);
    t := Perform(s1, RemoveConfig(1));
    DeletionSucceedsAlone(s1, 1, 1);
    es := boot + delete;
    Then(s, boot, s1, delete, t);
  }

  lemma FirstHalfOfStart(s: State)
    requires 0 !in s.procs && 1 !in s.store.configs
    ensures Run(s, Alone(0, Bootstrap(1, ""), 0)) == With(Perform(s, PutConfig(1, "")), 0, BootActive(1))
  {
    hide Run, Apply, Command, Perform;
    RunAlone(s, 0, Bootstrap(1, ""), [BootConfig(1, "")]);
    StoresBootstrap(s, 0, 1, "");
  }

  lemma StoresBootstrap(s: State, p: Pid, v: Version, body: string)
    requires v !in s.store.configs
    ensures Apply(With(s, p, BootConfig(v, body)), Go(p)) == With(Perform(s, PutConfig(v, body)), p, BootActive(v))
  {
    assert With(s, p, BootConfig(v, body)).procs[p := BootActive(v)] == With(s, p, BootActive(v)).procs;
  }

  lemma SecondHalfOfStart(s: State)
    requires 0 in s.procs && s.procs[0] == BootActive(1) && s.store.active.None?
    ensures Apply(s, Go(0)).store == Update(s.store, PointFirst(1))
  {
  }

  /** The active pointer names a version that is not stored. */
  predicate Dangles(st: Store) {
    st.active.Some? && !st.PointerStored()
  }

  /** The event is the second SETNX of a start, it finds no active pointer, and the configuration
      of that start is not stored. */
  predicate PointsAtNothing(s: State, e: Event) {
    && e.Step? && e.pid in s.procs && s.procs[e.pid].BootActive?
    && s.store.active.None? && s.procs[e.pid].version !in s.store.configs
  }

  /** That guard is the only way for a single command to make the active pointer dangle. */
  lemma StepDanglesExactly(s: State, e: Event)
    requires AllInformed(s) && !Dangles(s.store)
    ensures Dangles(Apply(s, e).store) <==> PointsAtNothing(s, e)
  {
    ResponseJustified(s.store, Lookup(s.procs, e.pid), e);
  }

  ghost predicate EverDangles(st: Store, es: seq<Event>) {
    exists k :: 0 <= k <= |es| && Dangles(Run(Init(st), es[..k]).store)
  }

  ghost predicate EverPointsAtNothing(st: Store, es: seq<Event>) {
    exists k :: 0 <= k < |es| && PointsAtNothing(Run(Init(st), es[..k]), es[k])
  }

  lemma RunPrefixNext(st: Store, es: seq<Event>, k: nat)
    requires k < |es|
    ensures Run(Init(st), es[..k + 1]) == Apply(Run(Init(st), es[..k]), es[k])
  {
    hide Run, Apply;
    assert es[..k + 1] == es[..k] + [es[k]];
    RunSnoc(Init(st), es[..k], es[k]);
  }

  /** If it dangles after `k` events, one of them met the guard. */
  lemma {:induction false} DanglingHasACause(st: Store, es: seq<Event>, k: nat)
    requires !Dangles(st) && k <= |es| && Dangles(Run(Init(st), es[..k]).store)
    ensures EverPointsAtNothing(st, es)
  {
    hide Apply;
    if k > 0 {
      var s := Run(Init(st), es[..k - 1]);
      RunPrefixNext(st, es, k - 1);
      if Dangles(s.store) {
        DanglingHasACause(st, es, k - 1);
      } else {
        RunKeepsInformed(Init(st), es[..k - 1]);
        StepDanglesExactly(s, es[k - 1]);
      }
    }
  }

  /** Exactly when a start goes wrong: from a store whose active pointer does not dangle, an
      interleaving makes it dangle at some time if and only if some second SETNX of a start finds
      neither an active pointer nor its own configuration. */
  lemma RunDanglesExactly(st: Store, es: seq<Event>)
    requires !Dangles(st)
    ensures EverDangles(st, es) <==> EverPointsAtNothing(st, es)
  {
    hide Run, Apply;
    if EverDangles(st, es) {
      var k :| 0 <= k <= |es| && Dangles(Run(Init(st), es[..k]).store);
      DanglingHasACause(st, es, k);
    }
    if EverPointsAtNothing(st, es) {
      var k :| 0 <= k < |es| && PointsAtNothing(Run(Init(st), es[..k]), es[k]);
      RunKeepsInformed(Init(st), es[..k]);
      RunPrefixNext(st, es, k);
      StepDanglesExactly(Run(Init(st), es[..k]), es[k]);
      assert Dangles(Run(Init(st), es[..k + 1]).store);
    }
  }

  /** Every start in progress has its configuration stored. */
  ghost predicate StartsBacked(s: State) {
    && (s.store.active.Some? ==> s.store.PointerStored())
    && (forall p :: p in s.procs ==>
          && !Deletes(s.procs[p])
          && (s.procs[p].BootActive? ==> s.procs[p].version in s.store.configs))
  }

  lemma ResponseBacked(s: State, proc: Option<Proc>, e: Event)
    requires AllInformed(s) && StartsBacked(s) && proc == Lookup(s.procs, e.pid)
    requires !(e.Begin? && e.op.DeleteConfig?) && !e.BootFails?
    ensures var move := Respond(s.store, proc, e);
            && !move.effect.RemoveConfig?
            && (move.effect.PointFirst? ==> move.effect.version in s.store.configs)
            && (move.effect.MovePointer? ==> move.effect.version in s.store.configs)
            && (move.next.Some? ==> !Deletes(move.next.value))
            && (move.next.Some? && move.next.value.BootActive? ==>
                  move.next.value.version in Update(s.store, move.effect).configs)
  {
    ResponseDeleteFree(s.store, proc, e);
    ResponseJustified(s.store, proc, e);
  }

  /** Only deletions and failed first SETNX commands bring that about: without them the active
      pointer is never set before what it names. */
  lemma {:induction false} FreshStartIsSafe(st: Store, es: seq<Event>)
    requires st.active.Some? ==> st.PointerStored()
    requires forall i :: 0 <= i < |es| ==> !(es[i].Begin? && es[i].op.DeleteConfig?) && !es[i].BootFails?
    ensures StartsBacked(Run(Init(st), es))
    decreases |es|
  {
    if es != [] {
      var init, e := es[..|es| - 1], es[|es| - 1];
      FreshStartIsSafe(st, init);
      RunKeepsInformed(Init(st), init);
      var s := Run(Init(st), init);
      ResponseBacked(s, Lookup(s.procs, e.pid), e);
    }
  }

  // ---------------------------------------------------------------------------
  // Re-creating a deleted version

  function Exclaim(body: string): Option<string> {
    Some(body + "!")
  }

  /** The store of the example: version 1 is active, version 5 is stored too. */
  const SHELF := Store(map[1 := "a", 5 := "b"], Some(1), map[], 0)

  const DRAFT := Edit("", Exclaim, 1, "a")

  lemma EditorPathQuiet(st: Store, path: seq<Proc>)
    requires st == SHELF
    requires path == [DeployList("", Exclaim), DeployScan("", Exclaim, 1), DeployFetch("", Exclaim, 1, 2), DeployCreate(DRAFT, 2, "a!")]
    ensures QuietPath(st, path)
  {
    assert "a" + "!" == "a!";
  }

  /** The editor reads version 1 and stores its draft as version 2. */
  lemma EditorStoresDraft(s: State, p: Pid)
    requires s == Init(SHELF)
    ensures Run(s, Alone(p, DeployConfigChange("", Exclaim), 3)) ==
            With(Perform(s, PutConfig(2, "a!")), p, ActivateGet(2, FormatInt(1), Some(DRAFT)))
  {
    hide Run;
    var last := DeployCreate(DRAFT, 2, "a!");
    var path := [DeployList("", Exclaim), DeployScan("", Exclaim, 1), DeployFetch("", Exclaim, 1, 2), last];
    EditorPathQuiet(s.store, path);
    RunAlone(s, p, DeployConfigChange("", Exclaim), path);
    assert Command(s.store, last, true, []) == Move(PutConfig(2, "a!"), Some(ActivateGet(2, FormatInt(1), Some(DRAFT))));
    assert With(s, p, last).procs[p := ActivateGet(2, FormatInt(1), Some(DRAFT))] ==
           With(s, p, ActivateGet(2, FormatInt(1), Some(DRAFT))).procs;
  }

  /** Meanwhile version 5 is activated, version 1 deleted, stored anew and activated again. */
  lemma PointerMovesAwayAndBack(s: State, p: Pid) returns (es: seq<Event>, t: State)
    requires p !in s.procs && s.store.active == Some(1) && 1 in s.store.configs && 5 in s.store.configs
    ensures t == Run(s, es)
    ensures t.procs == s.procs
    ensures t.store.active == Some(1) && t.store.configs == s.store.configs[1 := "z"]
  {
    hide Run, Apply, FormatInt;
    var away, t1 := MovesAway(s, p);
    var swap, t2 := Replaces(t1, p);
    Then(s, away, t1, swap, t2);
    ActivationSucceedsAlone(t2, p, 1);
    var back := Alone(p, ActivateConfig(1, FormatInt(5)), 4) + [Drop(p)];
    t := Perform(t2, MovePointer(1, FormatInt(5), None, t2.store.configs[1]));
    es := away + swap + back;
    Then(s, away + swap, t2, back, t);
  }

  lemma MovesAway(s: State, p: Pid) returns (es: seq<Event>, t: State)
    requires p !in s.procs && s.store.active == Some(1) && 5 in s.store.configs
    ensures t == Run(s, es)
    ensures t.procs == s.procs && t.store.active == Some(5) && t.store.configs == s.store.configs
  {
    ActivationSucceedsAlone(s, p, 5);
    es := Alone(p, ActivateConfig(5, FormatInt(1)), 4) + [Drop(p)];
    t := Perform(s, MovePointer(5, FormatInt(1), None, s.store.configs[5]));
  }

  lemma Replaces(s: State, p: Pid) returns (es: seq<Event>, t: State)
    requires p !in s.procs && s.store.active == Some(5) && 1 in s.store.configs
    ensures t == Run(s, es)
    ensures t.procs == s.procs && t.store.active == Some(5) && t.store.configs == s.store.configs[1 := "z"]
  {
    hide Run, Apply;
    var gone := Perform(s, RemoveConfig(1));
    DeletionSucceedsAlone(s, p, 1);
    t := Perform(gone, PutConfig(1, "z"));
    CreationSucceedsAlone(gone, p, 1, "z");
    es := Alone(p, DeleteConfig(1), 3) + Alone(p, CreateConfig(1, "z"), 0);
    Then(s, Alone(p, DeleteConfig(1), 3), gone, Alone(p, CreateConfig(1, "z"), 0), t);
  }

  /** With version 1 active again, the editor's activation goes through. */
  lemma EditorCommits(s: State, p: Pid) returns (es: seq<Event>, t: State)
    requires p in s.procs && s.procs[p] == ActivateGet(2, FormatInt(1), Some(DRAFT))
    requires s.store.active == Some(1) && 2 in s.store.configs
    ensures t == Run(s, es)
    ensures t.history == s.history +
      [Commit(Some(1), 2, FormatInt(1), Some(DRAFT), s.store.Body(1), s.store.Body(2), s.store.configs[2])]
  {
    hide Run, Apply, FormatInt;
    var m, body := FormatInt(1), s.store.configs[2];
    var last := ActivateExec(2, m, Some(DRAFT), body, WatchNow(s.store, 2));
    EditorReaches(s, p, last);
    es, t := Steps(p, 4) + [Go(p)], Apply(With(s, p, last), Go(p));
    RunSnoc(s, Steps(p, 4), Go(p));
    ExecCommits(s, p, 2, m, Some(DRAFT), body);
  }

  lemma EditorReaches(s: State, p: Pid, last: Proc)
    requires p in s.procs && s.procs[p] == ActivateGet(2, FormatInt(1), Some(DRAFT))
    requires s.store.active == Some(1) && 2 in s.store.configs
    requires last == ActivateExec(2, FormatInt(1), Some(DRAFT), s.store.configs[2], WatchNow(s.store, 2))
    ensures Run(s, Steps(p, 4)) == With(s, p, last)
  {
    var path := ActivationPath(2, FormatInt(1), Some(DRAFT), s.store.configs[2], WatchNow(s.store, 2));
    ActivationPathQuiet(s.store, 2, Some(DRAFT));
    Proceed(s, p, path);
    assert path[0] == s.procs[p] && path[|path| - 1] == last;
    assert s.procs[p := path[0]] == s.procs;
  }

  /** With a deletion and a re-creation, an edit can overwrite content it never read: the
      pointer has moved away and back, and If-Match cannot tell. */
  lemma RecreationLosesAnUpdate() returns (es: seq<Event>, c: Commit)
    ensures c in Run(Init(SHELF), es).history && c.edit.Some? && c.before.Some?
    ensures c.after != c.edit.value.change(c.before.value)
  {
    var s0, open := Init(SHELF), Alone(0, DeployConfigChange("", Exclaim), 3);
    var s1 := With(Perform(s0, PutConfig(2, "a!")), 0, ActivateGet(2, FormatInt(1), Some(DRAFT)));
    EditorStoresDraft(s0, 0);
    var meanwhile, s2 := PointerMovesAwayAndBack(s1, 1);
    Then(s0, open, s1, meanwhile, s2);
    var close, s3 := EditorCommits(s2, 0);
    Then(s0, open + meanwhile, s2, close, s3);
    es := open + meanwhile + close;
    c := s3.history[|s2.history|];
    assert c in s3.history;
    assert c.before == Some("z") && c.after == Some("a!");
    assert c.edit.value.change("z") == Exclaim("z") == Some("z" + "!");
    assert ("z" + "!")[0] != "a!"[0];
  }

  // ---------------------------------------------------------------------------
  // Exactly when a commit is honest

  /** Whatever the change was that made `loaded` of what the editor read, the commit is honest. */
  ghost predicate SurelyHonest(c: Commit)
    requires c.edit.Some?
  {
    forall change: Change :: change(c.edit.value.baseBody) == Some(c.loaded) ==>
      Honest(c.(edit := Some(c.edit.value.(change := change))))
  }

  /** A commit that matched its base is honest for every such change exactly when at EXEC the
      base still had the content the editor read and the version the content it loaded. */
  lemma HonestExactly(c: Commit)
    requires c.edit.Some? && c.prev == Some(c.edit.value.base) && c.before.Some? && c.after.Some?
    ensures SurelyHonest(c) <==> c.before == Some(c.edit.value.baseBody) && c.after == Some(c.loaded)
  {
    var only: Change := body => if body == c.edit.value.baseBody then Some(c.loaded) else None;
    if SurelyHonest(c) {
      assert only(c.edit.value.baseBody) == Some(c.loaded);
      assert Honest(c.(edit := Some(c.edit.value.(change := only))));
    }
  }

  /** No hypothesis on the store or the interleaving: every edit that ever commits found the active pointer on
      the version it edited, and its update is sure to be kept exactly when neither that version
      nor its own was stored anew with other content since it read them. */
  lemma EditsHonestExactly(st: Store, es: seq<Event>, i: nat)
    requires i < |Run(Init(st), es).history| && Run(Init(st), es).history[i].edit.Some?
    ensures var c := Run(Init(st), es).history[i];
            && c.prev == Some(c.edit.value.base)
            && (SurelyHonest(c) <==> c.before == Some(c.edit.value.baseBody) && c.after == Some(c.loaded))
  {
    hide Run, FormatInt, SurelyHonest;
    var c := Run(Init(st), es).history[i];
    CommitsMatchThePointer(st, es);
    RunKeepsBased(st, es);
    assert BasedCommit(c);
    HonestExactly(c);
  }

  /** The same before the EXEC, on the store: with the active pointer on the base and the version
      stored, the commit is sure to be honest exactly when both have the content that was read. */
  lemma ExecHonestExactly(s: State, v: Version, draft: Edit, loaded: string)
    requires s.store.active == Some(draft.base) && s.store.PointerStored() && v in s.store.configs
    ensures var h := Perform(s, MovePointer(v, FormatInt(draft.base), Some(draft), loaded)).history;
            SurelyHonest(h[|h| - 1]) <==>
            s.store.configs[draft.base] == draft.baseBody && s.store.configs[v] == loaded
  {
    hide FormatInt, SurelyHonest;
    var h := Perform(s, MovePointer(v, FormatInt(draft.base), Some(draft), loaded)).history;
    HonestExactly(h[|h| - 1]);
  }
}
