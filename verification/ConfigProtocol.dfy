/** The versioned configuration protocol of the control plane, one Redis command at a time.

    Any number of request handlers and starting gateways interleave their commands on one
    store. An event names the process that moves next, so a sequence of events is an
    interleaving and `Run` gives the state it leads to; every theorem is about all of them. */
module ConfigProtocol {
  import opened Basics
  import opened Text

  type Version = v: int | v >= 1 witness 1
  type Pid = nat

  /** An administrator's edit; `None` is an edit that throws. */
  type Change = string -> Option<string>

  /** The keys of the protocol. A key's revision counts the commands that modified it, which
      is what WATCH observes. `active` is the active pointer stored under activeConfigKey. */
  datatype Store = Store(
    configs: map<Version, string>,
    active: Option<Version>,
    configRev: map<Version, nat>,
    activeRev: nat)
  {
    function Rev(v: Version): nat {
      if v in configRev then configRev[v] else 0
    }

    function Body(v: Version): Option<string> {
      if v in configs then Some(configs[v]) else None
    }

    function ActiveBody(): Option<string> {
      if active.Some? then Body(active.value) else None
    }

    predicate PointerStored() {
      active.Some? && active.value in configs
    }
  }

  /** What deployConfigChange remembers: the version its caller expected to be active ("" for any),
      and the configuration it edits. */
  datatype Edit = Edit(expected: string, change: Change, base: Version, baseBody: string)

  /** The revisions seen by a WATCH on the active pointer and one configuration. */
  datatype Watch = Watch(activeRev: nat, configRev: nat)

  /** A process, by the command it issues next. */
  datatype Proc =
    | Create(version: Version, body: string)                                // SETNX config
    | ActivateGet(version: Version, ifMatch: string, edit: Option<Edit>)    // GET config
    | ActivateWatch(version: Version, ifMatch: string, edit: Option<Edit>, loaded: string)
    | ActivateRead(version: Version, ifMatch: string, edit: Option<Edit>, loaded: string, watch: Watch)
    | ActivateExists(version: Version, ifMatch: string, edit: Option<Edit>, loaded: string, watch: Watch)
    | ActivateExec(version: Version, ifMatch: string, edit: Option<Edit>, loaded: string, watch: Watch)
    | Committed(version: Version, loaded: string)                           // install locally
    | Installed(version: Version)                                           // record the version locally
    | DeleteWatch(version: Version)
    | DeleteRead(version: Version, watch: Watch)
    | DeleteExists(version: Version, watch: Watch)
    | DeleteExec(version: Version, watch: Watch)
    | BootConfig(version: Version, body: string)                            // SETNX config
    | BootActive(version: Version)                                          // SETNX active
    | DeployList(expected: string, change: Change)                          // GET active
    | DeployScan(expected: string, change: Change, base: Version)           // SCAN
    | DeployFetch(expected: string, change: Change, base: Version, version: Version)   // GET config
    | DeployCreate(draft: Edit, version: Version, body: string)              // SETNX config

  /** A request, or a gateway start. */
  datatype Op =
    | CreateConfig(version: Version, body: string)
    | ActivateConfig(version: Version, ifMatch: string)
    | DeleteConfig(version: Version)
    | Bootstrap(version: Version, body: string)
    | DeployConfigChange(expected: string, change: Change)

  /** A committed activation, with the active pointer and the contents at the instant of EXEC. */
  datatype Commit = Commit(
    prev: Option<Version>, next: Version, ifMatch: string, edit: Option<Edit>,
    before: Option<string>, after: Option<string>, loaded: string)

  /** The store, the processes, and a history for stating properties: the first content of
      every version, the deleted versions, whether one was stored again with other content, and all
      commits. */
  datatype State = State(
    store: Store,
    procs: map<Pid, Proc>,
    written: map<Version, string>,
    retired: set<Version>,
    rewritten: bool,
    history: seq<Commit>)

  /** `ok` is the verdict of configuration validation where the next command needs one, and
      `seen` the versions a SCAN reported; both are arbitrary. `Drop` ends a process early: a
      failed command, a lost reply, a client that went away. `BootFails` is the failed first
      SETNX of a start, which is only logged. */
  datatype Event =
    | Begin(pid: Pid, op: Op)
    | Step(pid: Pid, ok: bool, seen: seq<Version>)
    | Drop(pid: Pid)
    | BootFails(pid: Pid)

  function Start(op: Op): Option<Proc> {
    match op
    case CreateConfig(v, body) => Some(Create(v, body))
    case ActivateConfig(v, ifMatch) => if ifMatch == "" then None else Some(ActivateGet(v, ifMatch, None))
    case DeleteConfig(v) => Some(DeleteWatch(v))
    case Bootstrap(v, body) => Some(BootConfig(v, body))
    case DeployConfigChange(expected, change) => Some(DeployList(expected, change))
  }

  /** What a command does to the store. */
  datatype Effect =
    | Nothing
    | PutConfig(version: Version, body: string)                    // SETNX that stores
    | RemoveConfig(version: Version)                               // EXEC with DEL
    | MovePointer(version: Version, ifMatch: string, edit: Option<Edit>, loaded: string)   // EXEC with SET
    | PointFirst(version: Version)                                 // SETNX that stores

  /** The effect of a command and what the process does next, `None` once it is done. */
  datatype Move = Move(effect: Effect, next: Option<Proc>)

  function Quiet(next: Proc): Move {
    Move(Nothing, Some(next))
  }

  const STOP := Move(Nothing, None)

  function WatchNow(st: Store, v: Version): Watch {
    Watch(st.activeRev, st.Rev(v))
  }

  /** Above every version a SCAN reported, and above the one being edited. */
  function Max(seen: seq<Version>, least: Version): (m: Version)
    ensures m >= least && (forall i :: 0 <= i < |seen| ==> m >= seen[i]) && (m == least || m in seen)
  {
    if seen == [] then least else
    var rest := Max(seen[1..], least);
    if seen[0] > rest then seen[0] else rest
  }

  /** The commands of an activation. */
  function ActivateCommand(st: Store, proc: Proc, ok: bool): Move {
    match proc
    case ActivateGet(v, ifMatch, edit) =>
      if !ok || v !in st.configs then STOP else Quiet(ActivateWatch(v, ifMatch, edit, st.configs[v]))
    case ActivateWatch(v, ifMatch, edit, loaded) =>
      Quiet(ActivateRead(v, ifMatch, edit, loaded, WatchNow(st, v)))
    case ActivateRead(v, ifMatch, edit, loaded, w) =>
      if st.active.None? || FormatInt(st.active.value) != ifMatch then STOP
      else Quiet(ActivateExists(v, ifMatch, edit, loaded, w))
    case ActivateExists(v, ifMatch, edit, loaded, w) =>
      if v !in st.configs then STOP else Quiet(ActivateExec(v, ifMatch, edit, loaded, w))
    case ActivateExec(v, ifMatch, edit, loaded, w) =>
      if w != WatchNow(st, v) then STOP
      else Move(MovePointer(v, ifMatch, edit, loaded), Some(Committed(v, loaded)))
    case _ => Quiet(proc)
  }

  /** The commands of a deletion. */
  function DeleteCommand(st: Store, proc: Proc): Move {
    match proc
    case DeleteWatch(v) => Quiet(DeleteRead(v, WatchNow(st, v)))
    case DeleteRead(v, w) => if st.active == Some(v) then STOP else Quiet(DeleteExists(v, w))
    case DeleteExists(v, w) => if v !in st.configs then STOP else Quiet(DeleteExec(v, w))
    case DeleteExec(v, w) => if w != WatchNow(st, v) then STOP else Move(RemoveConfig(v), None)
    case _ => Quiet(proc)
  }

  /** The commands behind deployConfigChange, up to the creation of its version. */
  function DeployCommand(st: Store, proc: Proc, ok: bool, seen: seq<Version>): Move {
    match proc
    case DeployList(expected, change) =>
      if st.active.None? || (expected != "" && expected != FormatInt(st.active.value)) then STOP
      else Quiet(DeployScan(expected, change, st.active.value))
    case DeployScan(expected, change, base) =>
      Quiet(DeployFetch(expected, change, base, Max(seen, base) + 1))
    case DeployFetch(expected, change, base, v) =>
      if base !in st.configs || change(st.configs[base]).None? then STOP
      else Quiet(DeployCreate(Edit(expected, change, base, st.configs[base]), v, change(st.configs[base]).value))
    case DeployCreate(draft, v, body) =>
      if !ok || v in st.configs then STOP
      else Move(PutConfig(v, body), Some(ActivateGet(v, FormatInt(draft.base), Some(draft))))
    case _ => Quiet(proc)
  }

  /** The next command of a process. */
  function Command(st: Store, proc: Proc, ok: bool, seen: seq<Version>): Move {
    match proc
    case Create(v, body) => if !ok || v in st.configs then STOP else Move(PutConfig(v, body), None)
    case BootConfig(v, body) =>
      Move(if v in st.configs then Nothing else PutConfig(v, body), Some(BootActive(v)))
    case BootActive(v) => if st.active.Some? then STOP else Move(PointFirst(v), None)
    case _ =>
      if Deletes(proc) then DeleteCommand(st, proc)
      else if proc.DeployList? || proc.DeployScan? || proc.DeployFetch? || proc.DeployCreate? then DeployCommand(st, proc, ok, seen)
      else ActivateCommand(st, proc, ok)
  }

  /** What an event makes of a process that is running (`Some`) or not. */
  function Respond(st: Store, proc: Option<Proc>, e: Event): Move {
    match e
    case Begin(_, op) => Move(Nothing, if proc.Some? then proc else Start(op))
    case Step(_, ok, seen) => if proc.Some? then Command(st, proc.value, ok, seen) else STOP
    case Drop(_) => STOP
    case BootFails(_) =>
      if proc.Some? && proc.value.BootConfig? then Quiet(BootActive(proc.value.version)) else Move(Nothing, proc)
  }

  function Update(st: Store, effect: Effect): Store {
    match effect
    case Nothing => st
    case PutConfig(v, body) => st.(configs := st.configs[v := body], configRev := st.configRev[v := st.Rev(v) + 1])
    case RemoveConfig(v) => st.(configs := st.configs - {v}, configRev := st.configRev[v := st.Rev(v) + 1])
    case MovePointer(v, _, _, _) => st.(active := Some(v), activeRev := st.activeRev + 1)
    case PointFirst(v) => st.(active := Some(v), activeRev := st.activeRev + 1)
  }

  function Perform(s: State, effect: Effect): State {
    var t := s.(store := Update(s.store, effect));
    match effect
    case PutConfig(v, body) =>
      t.(written := if v in s.retired then s.written else s.written[v := body],
         rewritten := s.rewritten || (v in s.retired && (v !in s.written || s.written[v] != body)))
    case RemoveConfig(v) => t.(retired := s.retired + {v})
    case MovePointer(v, ifMatch, edit, loaded) =>
      t.(history := s.history + [Commit(s.store.active, v, ifMatch, edit, s.store.ActiveBody(), s.store.Body(v), loaded)])
    case _ => t
  }

  function Lookup(procs: map<Pid, Proc>, p: Pid): Option<Proc> {
    if p in procs then Some(procs[p]) else None
  }

  function SetProc(procs: map<Pid, Proc>, p: Pid, proc: Option<Proc>): map<Pid, Proc> {
    if proc.Some? then procs[p := proc.value] else procs - {p}
  }

  function MoveOf(s: State, e: Event): Move {
    Respond(s.store, Lookup(s.procs, e.pid), e)
  }

  function Apply(s: State, e: Event): State {
    var move := MoveOf(s, e);
    Perform(s, move.effect).(procs := SetProc(s.procs, e.pid, move.next))
  }

  function Run(s: State, es: seq<Event>): State
    decreases |es|
  {
    if es == [] then s else Apply(Run(s, es[..|es| - 1]), es[|es| - 1])
  }

  /** A store before any process has started. */
  function Init(st: Store): State {
    State(st, map[], st.configs, {}, false, [])
  }

  // ---------------------------------------------------------------------------
  // What an in-flight transaction knows of the store

  /** While the watched revisions stand, what the process read is still so. */
  ghost predicate Informed(st: Store, proc: Proc) {
    match proc
    case ActivateRead(v, _, _, _, w) => w.activeRev <= st.activeRev && w.configRev <= st.Rev(v)
    case ActivateExists(v, ifMatch, _, _, w) =>
      && w.activeRev <= st.activeRev && w.configRev <= st.Rev(v)
      && (w.activeRev == st.activeRev ==> st.active.Some? && FormatInt(st.active.value) == ifMatch)
    case ActivateExec(v, ifMatch, _, _, w) =>
      && w.activeRev <= st.activeRev && w.configRev <= st.Rev(v)
      && (w.activeRev == st.activeRev ==> st.active.Some? && FormatInt(st.active.value) == ifMatch)
      && (w.configRev == st.Rev(v) ==> v in st.configs)
    case DeleteRead(v, w) => w.activeRev <= st.activeRev && w.configRev <= st.Rev(v)
    case DeleteExists(v, w) =>
      && w.activeRev <= st.activeRev && w.configRev <= st.Rev(v)
      && (w.activeRev == st.activeRev ==> st.active != Some(v))
    case DeleteExec(v, w) =>
      && w.activeRev <= st.activeRev && w.configRev <= st.Rev(v)
      && (w.activeRev == st.activeRev ==> st.active != Some(v))
      && (w.configRev == st.Rev(v) ==> v in st.configs)
    case _ => true
  }

  ghost predicate AllInformed(s: State) {
    forall p :: p in s.procs ==> Informed(s.store, s.procs[p])
  }

  /** How one command may change the store: a key whose revision stands has not changed. */
  ghost predicate Advances(a: Store, b: Store) {
    && a.activeRev <= b.activeRev
    && (a.activeRev == b.activeRev ==> a.active == b.active)
    && (forall v: Version :: a.Rev(v) <= b.Rev(v))
    && (forall v: Version :: a.Rev(v) == b.Rev(v) ==> a.Body(v) == b.Body(v))
  }

  lemma InformedSurvives(a: Store, b: Store, proc: Proc)
    requires Advances(a, b) && Informed(a, proc)
    ensures Informed(b, proc)
  {
    if proc.ActivateExec? || proc.DeleteExec? {
      assert a.Rev(proc.version) <= b.Rev(proc.version);
      assert a.Rev(proc.version) == b.Rev(proc.version) ==> a.Body(proc.version) == b.Body(proc.version);
    }
  }

  lemma UpdateAdvances(st: Store, effect: Effect)
    ensures Advances(st, Update(st, effect))
  {
  }

  /** An effect is only issued when it is justified by what the process knows. */
  ghost predicate Justified(st: Store, effect: Effect) {
    match effect
    case Nothing => true
    case PutConfig(v, _) => v !in st.configs
    case RemoveConfig(v) => v in st.configs && st.active != Some(v)
    case MovePointer(v, ifMatch, _, _) => v in st.configs && st.active.Some? && ifMatch == FormatInt(st.active.value)
    case PointFirst(_) => st.active.None?
  }

  lemma ResponseJustified(st: Store, proc: Option<Proc>, e: Event)
    requires proc.Some? ==> Informed(st, proc.value)
    ensures Justified(st, Respond(st, proc, e).effect)
  {
  }

  /** The process that moved is informed about the store it leaves. */
  lemma ResponseInformed(st: Store, proc: Option<Proc>, e: Event)
    requires proc.Some? ==> Informed(st, proc.value)
    ensures var move := Respond(st, proc, e);
            move.next.Some? ==> Informed(Update(st, move.effect), move.next.value)
  {
  }

  lemma StepKeepsInformed(s: State, e: Event)
    requires AllInformed(s)
    ensures AllInformed(Apply(s, e))
  {
    var t, move := Apply(s, e), MoveOf(s, e);
    UpdateAdvances(s.store, move.effect);
    ResponseInformed(s.store, Lookup(s.procs, e.pid), e);
    forall q | q in t.procs ensures Informed(t.store, t.procs[q]) {
      if q != e.pid {
        InformedSurvives(s.store, t.store, s.procs[q]);
      }
    }
  }

  lemma {:induction false} RunKeepsInformed(s: State, es: seq<Event>)
    requires AllInformed(s)
    ensures AllInformed(Run(s, es))
    decreases |es|
  {
    if es != [] {
      RunKeepsInformed(s, es[..|es| - 1]);
      StepKeepsInformed(Run(s, es[..|es| - 1]), es[|es| - 1]);
    }
  }

  // ---------------------------------------------------------------------------
  // The active pointer and the chain of commits

  /** Every commit matched its If-Match and found its configuration stored; each but the first
      starts from the version and the content the previous one made active. */
  ghost predicate Linked(history: seq<Commit>) {
    && (forall i :: 0 <= i < |history| ==>
          var c := history[i];
          c.prev.Some? && c.ifMatch == FormatInt(c.prev.value) && c.after.Some?)
    && (forall i :: 0 < i < |history| ==>
          history[i].prev == Some(history[i - 1].next) && history[i].before == history[i - 1].after)
  }

  /** After a commit the active configuration is the one the last commit installed, and stored. */
  ghost predicate Chained(s: State) {
    && Linked(s.history)
    && (s.history != [] ==>
          var last := s.history[|s.history| - 1];
          s.store.PointerStored() && s.store.active == Some(last.next) && s.store.ActiveBody() == last.after)
  }

  lemma EffectKeepsChain(s: State, effect: Effect)
    requires Justified(s.store, effect) && Chained(s)
    ensures Chained(Perform(s, effect))
  {
    hide FormatInt;
    if effect.MovePointer? {
      CommitKeepsChain(s, effect);
    }
  }

  lemma CommitKeepsChain(s: State, effect: Effect)
    requires effect.MovePointer? && Justified(s.store, effect) && Chained(s)
    ensures Chained(Perform(s, effect))
  {
    hide FormatInt, Linked;
    var h := Perform(s, effect).history;
    LinkedNext(s.history, h[|s.history|]);
  }

  lemma LinkedNext(history: seq<Commit>, c: Commit)
    requires Linked(history) && c.prev.Some? && c.ifMatch == FormatInt(c.prev.value) && c.after.Some?
    requires history != [] ==> c.prev == Some(history[|history| - 1].next) && c.before == history[|history| - 1].after
    ensures Linked(history + [c])
  {
    hide FormatInt;
    var all := history + [c];
    assert all[|history|] == c && forall i :: 0 <= i < |history| ==> all[i] == history[i];
  }

  lemma StepKeepsChain(s: State, e: Event)
    requires AllInformed(s) && Chained(s)
    ensures Chained(Apply(s, e))
  {
    ResponseJustified(s.store, Lookup(s.procs, e.pid), e);
    EffectKeepsChain(s, MoveOf(s, e).effect);
  }

  /** From any store, empty ones included: every activation that ever commits carried the active
      pointer's value at the instant of its EXEC as If-Match, and the commits form one chain to
      the active configuration. */
  lemma {:induction false} CommitsMatchThePointer(st: Store, es: seq<Event>)
    ensures Chained(Run(Init(st), es))
    decreases |es|
  {
    if es != [] {
      CommitsMatchThePointer(st, es[..|es| - 1]);
      RunKeepsInformed(Init(st), es[..|es| - 1]);
      StepKeepsChain(Run(Init(st), es[..|es| - 1]), es[|es| - 1]);
    }
  }

  /** The chain begins with version `v0` and content `b0`. */
  ghost predicate Rooted(s: State, v0: Version, b0: string) {
    if s.history == [] then s.store.active == Some(v0) && s.store.ActiveBody() == Some(b0)
    else s.history[0].prev == Some(v0) && s.history[0].before == Some(b0)
  }

  /** Where the store has a stored active configuration to begin with, the chain begins there. */
  lemma {:induction false} ChainBeginsAtTheStore(st: Store, es: seq<Event>)
    requires st.PointerStored()
    ensures Rooted(Run(Init(st), es), st.active.value, st.configs[st.active.value])
    decreases |es|
  {
    hide FormatInt, Respond;
    if es != [] {
      var s, e := Run(Init(st), es[..|es| - 1]), es[|es| - 1];
      ChainBeginsAtTheStore(st, es[..|es| - 1]);
      RunKeepsInformed(Init(st), es[..|es| - 1]);
      ResponseJustified(s.store, Lookup(s.procs, e.pid), e);
    }
  }

  lemma {:induction false} RunAppend(s: State, es: seq<Event>, fs: seq<Event>)
    ensures Run(s, es + fs) == Run(Run(s, es), fs)
    decreases |fs|
  {
    if fs == [] {
      assert es + fs == es;
    } else {
      var all := es + fs;
      assert all[..|all| - 1] == es + fs[..|fs| - 1];
      assert all[|all| - 1] == fs[|fs| - 1];
      RunAppend(s, es, fs[..|fs| - 1]);
    }
  }

  lemma StepKeepsPointer(s: State, e: Event)
    requires AllInformed(s) && s.store.PointerStored()
    ensures Apply(s, e).store.PointerStored()
  {
    ResponseJustified(s.store, Lookup(s.procs, e.pid), e);
  }

  lemma {:induction false} RunKeepsPointer(s: State, es: seq<Event>)
    requires AllInformed(s) && s.store.PointerStored()
    ensures Run(s, es).store.PointerStored()
    decreases |es|
  {
    if es != [] {
      RunKeepsPointer(s, es[..|es| - 1]);
      RunKeepsInformed(s, es[..|es| - 1]);
      StepKeepsPointer(Run(s, es[..|es| - 1]), es[|es| - 1]);
    }
  }

  /** Once the active pointer names a stored version it always will, whatever is in flight at that
      moment. */
  lemma PointerStaysStored(st: Store, es: seq<Event>, later: seq<Event>)
    requires Run(Init(st), es).store.PointerStored()
    ensures Run(Init(st), es + later).store.PointerStored()
  {
    RunKeepsInformed(Init(st), es);
    RunAppend(Init(st), es, later);
    RunKeepsPointer(Run(Init(st), es), later);
  }

  // ---------------------------------------------------------------------------
  // What an edit knows of its base

  /** There is an active pointer, and it does not name this version in vain. */
  ghost predicate NotDangling(st: Store, v: Version) {
    st.active.Some? && (st.active == Some(v) ==> v in st.configs)
  }

  /** The caller did not ask for another version than this. */
  predicate AsExpected(expected: string, v: Version) {
    expected == "" || expected == FormatInt(v)
  }

  /** An edit edits what its caller expected, and its activation carries that as If-Match. */
  ghost predicate CarriesBase(st: Store, ifMatch: string, edit: Option<Edit>) {
    edit.Some? ==>
      && ifMatch == FormatInt(edit.value.base) && NotDangling(st, edit.value.base)
      && AsExpected(edit.value.expected, edit.value.base)
  }

  /** What an edit in progress may rely on, whoever set the active pointer it read. */
  ghost predicate Based(st: Store, proc: Proc) {
    match proc
    case DeployScan(expected, _, base) => st.active.Some? && AsExpected(expected, base)
    case DeployFetch(expected, _, base, _) => st.active.Some? && AsExpected(expected, base)
    case DeployCreate(draft, _, _) => NotDangling(st, draft.base) && AsExpected(draft.expected, draft.base)
    case ActivateGet(_, ifMatch, edit) => CarriesBase(st, ifMatch, edit)
    case ActivateWatch(_, ifMatch, edit, _) => CarriesBase(st, ifMatch, edit)
    case ActivateRead(_, ifMatch, edit, _, _) => CarriesBase(st, ifMatch, edit)
    case ActivateExists(_, ifMatch, edit, _, _) => CarriesBase(st, ifMatch, edit)
    case ActivateExec(_, ifMatch, edit, _, _) => CarriesBase(st, ifMatch, edit)
    case _ => true
  }

  /** A committed edit found the active pointer on the version it edited, which was stored and the
      one its caller expected. */
  ghost predicate BasedCommit(c: Commit) {
    c.edit.Some? ==>
      && c.prev == Some(c.edit.value.base) && c.before.Some?
      && (c.edit.value.expected != "" ==> c.edit.value.expected == FormatInt(c.prev.value))
  }

  ghost predicate AllBased(s: State) {
    && (forall p :: p in s.procs ==> Based(s.store, s.procs[p]))
    && (forall i :: 0 <= i < |s.history| ==> BasedCommit(s.history[i]))
  }

  lemma BasedSurvives(st: Store, effect: Effect, proc: Proc)
    requires Justified(st, effect) && Based(st, proc)
    ensures Based(Update(st, effect), proc)
  {
    hide FormatInt;
  }

  ghost predicate MoveBased(st: Store, move: Move) {
    && (move.next.Some? ==> Based(Update(st, move.effect), move.next.value))
    && (move.effect.MovePointer? ==> CarriesBase(st, move.effect.ifMatch, move.effect.edit))
  }

  lemma ActivateBased(st: Store, proc: Proc, ok: bool)
    requires Based(st, proc)
    ensures MoveBased(st, ActivateCommand(st, proc, ok))
  {
    hide FormatInt, AsExpected;
  }

  lemma DeployBased(st: Store, proc: Proc, ok: bool, seen: seq<Version>)
    requires Based(st, proc)
    ensures MoveBased(st, DeployCommand(st, proc, ok, seen))
  {
    hide FormatInt, Max;
  }

  lemma ResponseBased(st: Store, proc: Option<Proc>, e: Event)
    requires proc.Some? ==> Based(st, proc.value)
    ensures MoveBased(st, Respond(st, proc, e))
  {
    hide FormatInt, AsExpected, NotDangling, ActivateCommand, DeployCommand;
    if e.Step? && proc.Some? {
      ActivateBased(st, proc.value, e.ok);
      DeployBased(st, proc.value, e.ok, e.seen);
    }
  }

  lemma CommitBased(s: State, effect: Effect)
    requires effect.MovePointer? && Justified(s.store, effect) && CarriesBase(s.store, effect.ifMatch, effect.edit)
    ensures var h := Perform(s, effect).history; BasedCommit(h[|h| - 1])
  {
    hide FormatInt;
    if effect.edit.Some? {
      FormatIntInjective(s.store.active.value, effect.edit.value.base);
    }
  }

  lemma StepKeepsBased(s: State, e: Event)
    requires AllInformed(s) && AllBased(s)
    ensures AllBased(Apply(s, e))
  {
    hide Respond, FormatInt;
    var t, move, proc := Apply(s, e), MoveOf(s, e), Lookup(s.procs, e.pid);
    ResponseJustified(s.store, proc, e);
    ResponseBased(s.store, proc, e);
    forall q | q in t.procs ensures Based(t.store, t.procs[q]) {
      if q != e.pid {
        BasedSurvives(s.store, move.effect, s.procs[q]);
      }
    }
    if move.effect.MovePointer? {
      CommitBased(s, move.effect);
    }
  }

  lemma {:induction false} RunKeepsBased(st: Store, es: seq<Event>)
    ensures AllBased(Run(Init(st), es))
    decreases |es|
  {
    if es != [] {
      RunKeepsBased(st, es[..|es| - 1]);
      RunKeepsInformed(Init(st), es[..|es| - 1]);
      StepKeepsBased(Run(Init(st), es[..|es| - 1]), es[|es| - 1]);
    }
  }

  // ---------------------------------------------------------------------------
  // No lost updates

  /** Unless a deleted version was stored again with other content, a version has one content for
      ever. */
  ghost predicate Immutable(s: State) {
    && s.retired <= s.written.Keys && s.store.configs.Keys <= s.written.Keys
    && s.written.Keys <= s.retired + s.store.configs.Keys
    && (forall v :: v in s.store.configs ==> s.store.configs[v] == s.written[v])
  }

  ghost predicate EditFaithful(written: map<Version, string>, edit: Edit, body: string) {
    edit.base in written && written[edit.base] == edit.baseBody && edit.change(edit.baseBody) == Some(body)
  }

  ghost predicate LoadFaithful(
    written: map<Version, string>, v: Version, ifMatch: string, edit: Option<Edit>, loaded: string)
  {
    && v in written && written[v] == loaded
    && (edit.Some? ==> ifMatch == FormatInt(edit.value.base) && EditFaithful(written, edit.value, loaded))
  }

  /** What a process remembers agrees with the contents ever written. */
  ghost predicate Faithful(written: map<Version, string>, proc: Proc) {
    match proc
    case DeployCreate(edit, _, body) => EditFaithful(written, edit, body)
    case ActivateGet(v, ifMatch, edit) =>
      edit.Some? ==> v in written && LoadFaithful(written, v, ifMatch, edit, written[v])
    case ActivateWatch(v, ifMatch, edit, loaded) => LoadFaithful(written, v, ifMatch, edit, loaded)
    case ActivateRead(v, ifMatch, edit, loaded, _) => LoadFaithful(written, v, ifMatch, edit, loaded)
    case ActivateExists(v, ifMatch, edit, loaded, _) => LoadFaithful(written, v, ifMatch, edit, loaded)
    case ActivateExec(v, ifMatch, edit, loaded, _) => LoadFaithful(written, v, ifMatch, edit, loaded)
    case Committed(v, loaded) => v in written && written[v] == loaded
    case _ => true
  }

  ghost predicate AllFaithful(s: State) {
    forall p :: p in s.procs ==> Faithful(s.written, s.procs[p])
  }

  /** A commit installed the content its handler validated and, when it came from an edit,
      that content is the change applied to what was active immediately before. */
  ghost predicate Honest(c: Commit) {
    && c.after == Some(c.loaded)
    && (c.edit.Some? ==>
          && c.prev == Some(c.edit.value.base)
          && c.before.Some? && c.after == c.edit.value.change(c.before.value))
  }

  ghost predicate AllHonest(s: State) {
    forall i :: 0 <= i < |s.history| ==> Honest(s.history[i])
  }

  ghost predicate Sound(s: State) {
    !s.rewritten ==> Immutable(s) && AllFaithful(s) && AllHonest(s)
  }

  lemma EffectKeepsImmutable(s: State, effect: Effect)
    requires Immutable(s) && Justified(s.store, effect) && !Perform(s, effect).rewritten
    ensures var t := Perform(s, effect);
            && Immutable(t)
            && forall v :: v in s.written ==> v in t.written && t.written[v] == s.written[v]
  {
  }

  /** A process that has begun, or moved, remembers only contents that were written. */
  ghost predicate MoveFaithful(s: State, move: Move) {
    move.next.Some? ==> Faithful(Perform(s, move.effect).written, move.next.value)
  }

  lemma ActivateFaithful(s: State, proc: Proc, ok: bool)
    requires Immutable(s) && Faithful(s.written, proc)
    ensures MoveFaithful(s, ActivateCommand(s.store, proc, ok))
  {
    hide FormatInt, EditFaithful;
  }

  lemma DeployFaithful(s: State, proc: Proc, ok: bool, seen: seq<Version>)
    requires Immutable(s) && Faithful(s.written, proc)
    requires !Perform(s, DeployCommand(s.store, proc, ok, seen).effect).rewritten
    ensures MoveFaithful(s, DeployCommand(s.store, proc, ok, seen))
  {
    hide FormatInt, Max;
  }

  lemma ResponseFaithful(s: State, proc: Option<Proc>, e: Event)
    requires Immutable(s) && (proc.Some? ==> Informed(s.store, proc.value) && Faithful(s.written, proc.value))
    requires !Perform(s, Respond(s.store, proc, e).effect).rewritten
    ensures MoveFaithful(s, Respond(s.store, proc, e))
  {
    hide FormatInt, EditFaithful, LoadFaithful, Informed, Immutable, ActivateCommand, DeployCommand;
    if e.Step? && proc.Some? {
      ActivateFaithful(s, proc.value, e.ok);
      if proc.value.DeployList? || proc.value.DeployScan? || proc.value.DeployFetch? || proc.value.DeployCreate? {
        DeployFaithful(s, proc.value, e.ok, e.seen);
      }
    }
  }

  lemma FaithfulSurvives(a: map<Version, string>, b: map<Version, string>, proc: Proc)
    requires forall v :: v in a ==> v in b && b[v] == a[v]
    requires Faithful(a, proc)
    ensures Faithful(b, proc)
  {
  }

  /** The commit a process makes is honest. */
  lemma CommitHonest(s: State, proc: Option<Proc>, e: Event)
    requires Immutable(s)
    requires proc.Some? ==> Informed(s.store, proc.value) && Based(s.store, proc.value) && Faithful(s.written, proc.value)
    requires Respond(s.store, proc, e).effect.MovePointer?
    ensures var h := Perform(s, Respond(s.store, proc, e).effect).history; Honest(h[|h| - 1])
  {
    hide FormatInt;
    ResponseJustified(s.store, proc, e);
    if proc.value.edit.Some? {
      FormatIntInjective(s.store.active.value, proc.value.edit.value.base);
    }
  }

  lemma StepKeepsSound(s: State, e: Event)
    requires Sound(s) && AllInformed(s) && AllBased(s)
    ensures Sound(Apply(s, e))
  {
    var t, move, proc := Apply(s, e), MoveOf(s, e), Lookup(s.procs, e.pid);
    if !t.rewritten {
      ResponseJustified(s.store, proc, e);
      EffectKeepsImmutable(s, move.effect);
      ResponseFaithful(s, proc, e);
      forall q | q in t.procs ensures Faithful(t.written, t.procs[q]) {
        if q != e.pid {
          FaithfulSurvives(s.written, t.written, s.procs[q]);
        }
      }
      if move.effect.MovePointer? {
        CommitHonest(s, proc, e);
      }
    }
  }

  lemma {:induction false} RunKeepsSound(st: Store, es: seq<Event>)
    ensures Sound(Run(Init(st), es))
    decreases |es|
  {
    if es != [] {
      var init := es[..|es| - 1];
      RunKeepsSound(st, init);
      RunKeepsInformed(Init(st), init);
      RunKeepsBased(st, init);
      StepKeepsSound(Run(Init(st), init), es[|es| - 1]);
    }
  }

  /** The contents made active by a run of commits: an edit applies its change to the current
      content, a plain activation or rollback replaces it. */
  ghost function Replay(b0: string, history: seq<Commit>): string {
    if history == [] then b0 else
    var current := Replay(b0, history[..|history| - 1]);
    var c := history[|history| - 1];
    if c.edit.Some? && c.edit.value.change(current).Some? then c.edit.value.change(current).value else c.loaded
  }

  lemma {:induction false} ReplayFollowsTheChain(history: seq<Commit>, b0: string)
    requires Linked(history) && forall i :: 0 <= i < |history| ==> Honest(history[i])
    requires history != [] && history[0].before.Some? ==> history[0].before == Some(b0)
    ensures Some(Replay(b0, history)) == if history == [] then Some(b0) else history[|history| - 1].after
  {
    hide FormatInt;
    if history != [] {
      var init, c := history[..|history| - 1], history[|history| - 1];
      ReplayFollowsTheChain(init, b0);
      assert Honest(c);
      assert c.before.Some? ==> c.before == Some(Replay(b0, init));
    }
  }

  /** What was active just before the first commit; a commit that repairs a dangling active pointer
      is no edit, and then nothing depends on it. */
  ghost function Origin(history: seq<Commit>): string {
    if history != [] && history[0].before.Some? then history[0].before.value else ""
  }

  /** No lost updates. From any store, empty ones included, in every interleaving that never stores a
      deleted version again with other content (a restart that stores its bootstrap configuration
      again does no harm): each successful edit installs its change applied to the content active
      immediately before its commit, and the active content is the fold of all commits, in commit
      order, over what was active before the first. */
  lemma NoLostUpdates(st: Store, es: seq<Event>)
    requires !Run(Init(st), es).rewritten
    ensures var s := Run(Init(st), es);
            && AllHonest(s)
            && (s.history != [] ==> s.store.ActiveBody() == Some(Replay(Origin(s.history), s.history)))
  {
    RunKeepsSound(st, es);
    CommitsMatchThePointer(st, es);
    var history := Run(Init(st), es).history;
    ReplayFollowsTheChain(history, Origin(history));
  }

  /** Where the store has a stored active configuration to begin with, the fold starts from it. */
  lemma NoLostUpdatesFrom(st: Store, es: seq<Event>)
    requires st.PointerStored() && !Run(Init(st), es).rewritten
    ensures var s := Run(Init(st), es);
            s.store.ActiveBody() == Some(Replay(st.configs[st.active.value], s.history))
  {
    NoLostUpdates(st, es);
    ChainBeginsAtTheStore(st, es);
  }

  predicate Deletes(proc: Proc) {
    proc.DeleteWatch? || proc.DeleteRead? || proc.DeleteExists? || proc.DeleteExec?
  }

  ghost predicate DeleteFree(s: State) {
    s.retired == {} && !s.rewritten && forall p :: p in s.procs ==> !Deletes(s.procs[p])
  }

  lemma ResponseDeleteFree(st: Store, proc: Option<Proc>, e: Event)
    requires proc.Some? ==> !Deletes(proc.value)
    requires !(e.Begin? && e.op.DeleteConfig?)
    ensures var move := Respond(st, proc, e);
            !move.effect.RemoveConfig? && (move.next.Some? ==> !Deletes(move.next.value))
  {
  }

  /** Deletion is the only way to retire a version, so delete-free runs qualify. */
  lemma {:induction false} DeleteFreeRunsNeverRecreate(st: Store, es: seq<Event>)
    requires forall i :: 0 <= i < |es| ==> !(es[i].Begin? && es[i].op.DeleteConfig?)
    ensures DeleteFree(Run(Init(st), es))
    decreases |es|
  {
    if es != [] {
      DeleteFreeRunsNeverRecreate(st, es[..|es| - 1]);
      var s, e := Run(Init(st), es[..|es| - 1]), es[|es| - 1];
      ResponseDeleteFree(s.store, Lookup(s.procs, e.pid), e);
    }
  }
}
