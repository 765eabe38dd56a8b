/** Activation and deactivation of VPN profiles on one router, as steps of any number
    of concurrent requests. A request first reads what it needs without the router's
    apply lock, then runs its body while holding that lock. Between any two steps of a
    request, other requests may take theirs, and the catalog's profile metadata may be
    changed by anyone (requests for other routers, imports, catalog removal). */
module VpnProtocol {
  import opened Prelude
  import opened TunnelStore

  type Tid = nat

  datatype Request =
    | Activate(role: string, profile: string, explicitWg: Option<string>)
    | Deactivate(role: string, wg: string)

  datatype Outcome = Rejected | Activated | ActivateFailed | Deactivated | DeactivateFailed

  /** What the bodies do to the device and to the assignment table, in order. */
  datatype Event =
    | Torn(role: string, wg: string)
    | Applied(role: string, profile: string, wg: string)
    | Cleared(role: string)
    | ClearFailed(role: string, torn: Option<string>)
    | Retired(role: string)
    | Written(role: string, row: Row)

  /** Local state of an activation. `mark` is the length of the log when the lock was
      taken; `prior` and `priorWg` are what the body read about the assignment in force. */
  datatype Activation = Activation(
    role: string, profile: string, target: string,
    mark: nat, prior: Option<Row>, priorWg: Option<string>)

  datatype ActPhase = ReadPrior | TeardownPrior | ClearPrior | ApplyNew | RetireRows | InsertRow | MergeMetadata

  /** Local state of a deactivation. `seen` is the length of the log when the unlocked
      snapshot `outside` was read. */
  datatype Deactivation = Deactivation(
    role: string, wg: string,
    seen: nat, outside: Option<Row>, outsideMeta: Option<string>)

  datatype DePhase = Validate | Teardown | Recheck | ClearRows

  datatype Pc =
    | Begin(req: Request)
    | ActWait(role: string, profile: string, target: string)
    | DeSnapshot(d: Deactivation)
    | DeWait(d: Deactivation)
    | Activating(a: Activation, act: ActPhase)
    | Deactivating(d: Deactivation, de: DePhase)
    | Done(outcome: Outcome)

  /** `profiles` maps each profile of the catalog to the interface in its metadata. */
  datatype State = State(
    rows: seq<Row>,
    profiles: map<string, Option<string>>,
    log: seq<Event>,
    lock: Option<Tid>,
    threads: map<Tid, Pc>)

  /** `ok` is the outcome of the one external call a step makes, where it makes one. */
  datatype Action =
    | Arrive(t: Tid, req: Request)
    | Move(t: Tid, ok: bool)
    | Catalog(profiles: map<string, Option<string>>)

  predicate InBody(pc: Pc) {
    pc.Activating? || pc.Deactivating?
  }

  predicate Enabled(s: State, a: Action) {
    match a
    case Arrive(t, _) => t !in s.threads
    case Move(t, _) =>
      && t in s.threads
      && !s.threads[t].Done?
      && (s.threads[t].ActWait? || s.threads[t].DeWait? ==> s.lock == None)
    case Catalog(_) => true
  }

  function MetadataWg(profiles: map<string, Option<string>>, profile: string): Option<string> {
    if profile in profiles then profiles[profile] else None
  }

  function NewRow(a: Activation): Row {
    Row(a.role, a.profile, Some(a.target), Some(a.target), true, false)
  }

  /** What an event does to the assignment table. */
  function Effect(rows: seq<Row>, e: Event): seq<Row> {
    if e.Cleared? || e.Retired? then Clear(rows, e.role)
    else if e.Written? then rows + [e.row]
    else rows
  }

  /** The result of one step of a request: where it goes next, the event it causes if
      any, and the catalog it leaves. */
  datatype Delta = Delta(pc: Pc, event: Option<Event>, profiles: map<string, Option<string>>)

  function BeginStep(s: State, req: Request, ok: bool): Delta {
    match req
    case Activate(role, profile, explicitWg) =>
      if !ok || profile !in s.profiles then Delta(Done(Rejected), None, s.profiles)
      else
        var target := if explicitWg.Some? then explicitWg else s.profiles[profile];
        if target.None? then Delta(Done(Rejected), None, s.profiles)
        else Delta(ActWait(role, profile, target.value), None, s.profiles)
    case Deactivate(role, wg) =>
      if !ok then Delta(Done(Rejected), None, s.profiles)
      else Delta(DeSnapshot(Deactivation(role, wg, |s.log|, Active(s.rows, role), None)), None, s.profiles)
  }

  /** Second half of the unlocked snapshot: profile metadata, then the first refusals. */
  function SnapshotStep(profiles: map<string, Option<string>>, d: Deactivation): Delta {
    if d.outside.None? then Delta(DeWait(d), None, profiles)
    else
      var meta := MetadataWg(profiles, d.outside.value.profile);
      if Resolve(d.outside.value, meta) == Some(d.wg)
      then Delta(DeWait(d.(outsideMeta := meta)), None, profiles)
      else Delta(Done(Rejected), None, profiles)
  }

  /** Reads the assignment in force and decides what must go before the new tunnel. */
  function ReadPriorStep(active: Option<Row>, profiles: map<string, Option<string>>, a: Activation): Pc {
    if active.None? then Activating(a, ApplyNew)
    else
      var wg := Resolve(active.value, MetadataWg(profiles, active.value.profile));
      var same := active.value.profile == a.profile;
      var a' := a.(prior := active, priorWg := wg);
      if same && wg == Some(a.target) then Activating(a', ApplyNew)
      else if wg.Some? then Activating(a', TeardownPrior)
      else if same then Activating(a', ClearPrior)
      else Done(ActivateFailed)
  }

  /** One step of the activation body. `active` and `live` are the role's assignment and
      its unretired rows at this moment. */
  function ActivateStep(
    active: Option<Row>, live: seq<Row>, profiles: map<string, Option<string>>,
    a: Activation, phase: ActPhase, ok: bool): Delta
  {
    var failed := Delta(Done(ActivateFailed), None, profiles);
    match phase
    case ReadPrior => Delta(ReadPriorStep(active, profiles, a), None, profiles)
    case TeardownPrior =>
      if ok && a.priorWg.Some?
      then Delta(Activating(a, ClearPrior), Some(Torn(a.role, a.priorWg.value)), profiles)
      else failed
    case ClearPrior =>
      if ok && |live| > 0
      then Delta(Activating(a, ApplyNew), Some(Cleared(a.role)), profiles)
      else failed.(event := Some(ClearFailed(a.role, a.priorWg)))
    case ApplyNew =>
      if ok
      then Delta(Activating(a, RetireRows), Some(Applied(a.role, a.profile, a.target)), profiles)
      else failed
    case RetireRows =>
      if ok && a.profile in profiles
      then Delta(Activating(a, InsertRow), Some(Retired(a.role)), profiles)
      else failed
    case InsertRow =>
      if ok
      then Delta(Activating(a, MergeMetadata), Some(Written(a.role, NewRow(a))), profiles)
      else failed
    case MergeMetadata =>
      if ok && a.profile in profiles
      then Delta(Done(Activated), None, profiles[a.profile := Some(a.target)])
      else failed
  }

  /** The assignment is the snapshotted profile on the requested interface. */
  predicate StillSnapshotted(d: Deactivation, row: Row) {
    && Resolve(row, d.outsideMeta) == Some(d.wg)
    && d.outside.Some?
    && d.outside.value.profile == row.profile
  }

  /** One step of the deactivation body. */
  function DeactivateStep(
    active: Option<Row>, live: seq<Row>, profiles: map<string, Option<string>>,
    d: Deactivation, phase: DePhase, ok: bool): Delta
  {
    var failed := Delta(Done(DeactivateFailed), None, profiles);
    match phase
    case Validate =>
      if active.None? || StillSnapshotted(d, active.value)
      then Delta(Deactivating(d, Teardown), None, profiles)
      else failed
    case Teardown =>
      if ok then Delta(Deactivating(d, Recheck), Some(Torn(d.role, d.wg)), profiles)
      else failed
    case Recheck =>
      if d.outside.None? || active.None? then Delta(Done(Deactivated), None, profiles)
      else if StillSnapshotted(d, active.value) then Delta(Deactivating(d, ClearRows), None, profiles)
      else failed
    case ClearRows =>
      if ok && |live| > 0
      then Delta(Done(Deactivated), Some(Cleared(d.role)), profiles)
      else failed.(event := Some(ClearFailed(d.role, Some(d.wg))))
  }

  function MoveStep(s: State, t: Tid, ok: bool): Delta
    requires Enabled(s, Move(t, ok))
  {
    match s.threads[t]
    case Begin(req) => BeginStep(s, req, ok)
    case ActWait(role, profile, target) =>
      Delta(Activating(Activation(role, profile, target, |s.log|, None, None), ReadPrior), None, s.profiles)
    case DeSnapshot(d) => SnapshotStep(s.profiles, d)
    case DeWait(d) => Delta(Deactivating(d, Validate), None, s.profiles)
    case Activating(a, phase) =>
      ActivateStep(Active(s.rows, a.role), LiveRows(s.rows, a.role), s.profiles, a, phase, ok)
    case Deactivating(d, phase) =>
      DeactivateStep(Active(s.rows, d.role), LiveRows(s.rows, d.role), s.profiles, d, phase, ok)
  }

  /** Entering a body takes the lock; leaving it, normally or by an exception, gives it up. */
  function Commit(s: State, t: Tid, delta: Delta): State {
    State(
      if delta.event.None? then s.rows else Effect(s.rows, delta.event.value),
      delta.profiles,
      if delta.event.None? then s.log else s.log + [delta.event.value],
      if InBody(delta.pc) then Some(t) else if s.lock == Some(t) then None else s.lock,
      s.threads[t := delta.pc])
  }

  function Exec(s: State, a: Action): State {
    if !Enabled(s, a) then s
    else match a
      case Arrive(t, req) => s.(threads := s.threads[t := Begin(req)])
      case Move(t, ok) => Commit(s, t, MoveStep(s, t, ok))
      case Catalog(profiles) => s.(profiles := profiles)
  }

  function Run(s: State, actions: seq<Action>): State {
    if actions == [] then s
    else Exec(Run(s, actions[..|actions| - 1]), actions[|actions| - 1])
  }

  /** Any assignment table and catalog, no request in flight, nothing logged yet. */
  predicate Initial(s: State) {
    s.log == [] && s.lock == None && s.threads == map[]
  }
}
