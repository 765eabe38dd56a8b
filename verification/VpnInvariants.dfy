/** What every step of the activate/deactivate protocol keeps. */
module VpnInvariants {
  import opened Prelude
  import opened TunnelStore
  import opened VpnProtocol

  /** The assignment table that a log of events produces from an initial one. */
  function Replay(rows: seq<Row>, log: seq<Event>): seq<Row> {
    if log == [] then rows
    else Effect(Replay(rows, log[..|log| - 1]), log[|log| - 1])
  }

  /** Whether an event replaces or removes the assignment of a role. */
  predicate Resets(e: Event, role: string) {
    (e.Cleared? || e.Retired? || e.Written?) && e.role == role
  }

  /** Interfaces that requests for `role` tore down since its assignment last changed. */
  function TornSince(log: seq<Event>, role: string): set<string> {
    if log == [] then {}
    else
      var e := log[|log| - 1];
      var before := TornSince(log[..|log| - 1], role);
      if Resets(e, role) then {}
      else if e.Torn? && e.role == role then before + {e.wg}
      else before
  }

  /** Interfaces that requests for other roles tore down since the role's assignment last
      changed. */
  function TornByOthers(log: seq<Event>, role: string): set<string> {
    if log == [] then {}
    else
      var e := log[|log| - 1];
      var before := TornByOthers(log[..|log| - 1], role);
      if Resets(e, role) then {}
      else if e.Torn? && e.role != role then before + {e.wg}
      else before
  }

  /** A clear that should have followed a successful teardown failed, and the
      assignment has not changed since. */
  predicate ClearFailedSince(log: seq<Event>, role: string) {
    log != [] &&
    var e := log[|log| - 1];
    !Resets(e, role) &&
    ((e.ClearFailed? && e.role == role && e.torn.Some?)
     || ClearFailedSince(log[..|log| - 1], role))
  }

  /** What an activation must have done before it applies the new tunnel. */
  function BeforeApply(a: Activation): seq<Event> {
    if a.prior.None? || Kept(a) then []
    else (if a.priorWg.Some? then [Torn(a.role, a.priorWg.value)] else []) + [Cleared(a.role)]
  }

  /** The assignment in force is already this profile on this interface. */
  predicate Kept(a: Activation) {
    a.prior.Some? && a.prior.value.profile == a.profile && a.priorWg == Some(a.target)
  }

  /** Everything a completed activation does, in order. */
  function ActivationTrace(a: Activation): seq<Event> {
    BeforeApply(a) + [Applied(a.role, a.profile, a.target), Retired(a.role), Written(a.role, NewRow(a))]
  }

  /** What the body knows about the assignment it read. */
  predicate PriorRead(a: Activation) {
    a.prior.Some? ==>
      && (OwnWg(a.prior.value).Some? ==> a.priorWg == OwnWg(a.prior.value))
      && (a.priorWg.None? ==> a.prior.value.profile == a.profile)
  }

  predicate ActOk(rows0: seq<Row>, s: State, a: Activation, phase: ActPhase) {
    && a.mark <= |s.log|
    && (phase.ReadPrior? ==> a.prior == None && a.priorWg == None)
    && (!phase.ReadPrior? ==> PriorRead(a) && a.prior == Active(Replay(rows0, s.log[..a.mark]), a.role))
    && PhaseOk(s.log[a.mark..], Active(s.rows, a.role), LiveRows(s.rows, a.role), a, phase)
  }

  /** `mine` is what this body has logged so far. */
  predicate PhaseOk(mine: seq<Event>, active: Option<Row>, live: seq<Row>, a: Activation, phase: ActPhase) {
    match phase
    case ReadPrior => mine == []
    case TeardownPrior => mine == [] && active == a.prior && a.prior.Some? && a.priorWg.Some? && !Kept(a)
    case ClearPrior =>
      && mine == (if a.priorWg.Some? then [Torn(a.role, a.priorWg.value)] else [])
      && active == a.prior && a.prior.Some? && !Kept(a)
    case ApplyNew => mine == BeforeApply(a) && active == (if Kept(a) then a.prior else None)
    case RetireRows =>
      && mine == BeforeApply(a) + [Applied(a.role, a.profile, a.target)]
      && active == (if Kept(a) then a.prior else None)
    case InsertRow =>
      && mine == BeforeApply(a) + [Applied(a.role, a.profile, a.target), Retired(a.role)]
      && live == []
    case MergeMetadata => mine == ActivationTrace(a) && live == [NewRow(a)] && active == Some(NewRow(a))
  }

  /** `outside` is the assignment that was in force when the snapshot was taken. */
  predicate SnapshotOk(rows0: seq<Row>, s: State, d: Deactivation) {
    d.seen <= |s.log| && d.outside == Active(Replay(rows0, s.log[..d.seen]), d.role)
  }

  predicate DeOk(rows0: seq<Row>, s: State, d: Deactivation, phase: DePhase) {
    var active := Active(s.rows, d.role);
    && SnapshotOk(rows0, s, d)
    && (!phase.Validate? && active.Some? ==> StillSnapshotted(d, active.value))
    && (phase.Recheck? || phase.ClearRows? ==> s.log != [] && s.log[|s.log| - 1] == Torn(d.role, d.wg))
    && (phase.ClearRows? ==> active.Some?)
  }

  predicate PcOk(rows0: seq<Row>, s: State, pc: Pc) {
    match pc
    case Begin(_) => true
    case ActWait(_, _, _) => true
    case DeSnapshot(d) => SnapshotOk(rows0, s, d)
    case DeWait(d) => SnapshotOk(rows0, s, d)
    case Activating(a, phase) => ActOk(rows0, s, a, phase)
    case Deactivating(d, phase) => DeOk(rows0, s, d, phase)
    case Done(_) => true
  }

  /** A body for `role` stands between a successful teardown and the clear that follows it. */
  predicate MidClear(pc: Pc, role: string) {
    || (pc.Activating? && pc.act.ClearPrior? && pc.a.role == role && pc.a.priorWg.Some?)
    || (pc.Deactivating? && (pc.de.Recheck? || pc.de.ClearRows?) && pc.d.role == role)
  }

  predicate MidClearNow(s: State, role: string) {
    s.lock.Some? && s.lock.value in s.threads && MidClear(s.threads[s.lock.value], role)
  }

  /** An active assignment has torn-down interfaces behind it exactly when a clear failed
      or is still to come; and then they are its own interface, if it names one. */
  predicate RoleFact(active: Option<Row>, torn: set<string>, failed: bool, mid: bool) {
    active.Some? ==>
      && (torn != {} <==> failed || mid)
      && (OwnWg(active.value).Some? ==> torn <= {OwnWg(active.value).value})
  }

  predicate RoleOk(s: State, role: string) {
    RoleFact(Active(s.rows, role), TornSince(s.log, role), ClearFailedSince(s.log, role), MidClearNow(s, role))
  }

  predicate LockOk(s: State) {
    && (s.lock.Some? ==> s.lock.value in s.threads)
    && forall t :: t in s.threads ==> (InBody(s.threads[t]) <==> s.lock == Some(t))
  }

  ghost predicate Inv(rows0: seq<Row>, s: State) {
    && s.rows == Replay(rows0, s.log)
    && LockOk(s)
    && (forall t :: t in s.threads ==> PcOk(rows0, s, s.threads[t]))
    && (forall role :: RoleOk(s, role))
  }

  // ---- one event at a time ----

  function NextActive(active: Option<Row>, e: Event, role: string): Option<Row> {
    if (e.Cleared? || e.Retired?) && e.role == role then None
    else if e.Written? && Live(e.row, role) && e.row.desired then Some(e.row)
    else active
  }

  function NextLive(live: seq<Row>, e: Event, role: string): seq<Row> {
    if (e.Cleared? || e.Retired?) && e.role == role then []
    else if e.Written? && Live(e.row, role) then live + [e.row]
    else live
  }

  function NextTorn(torn: set<string>, e: Event, role: string): set<string> {
    if Resets(e, role) then {}
    else if e.Torn? && e.role == role then torn + {e.wg}
    else torn
  }

  predicate NextFailed(failed: bool, e: Event, role: string) {
    !Resets(e, role) && ((e.ClearFailed? && e.role == role && e.torn.Some?) || failed)
  }

  /** How one event changes the assignment of a role. */
  lemma RowsStep(rows: seq<Row>, e: Event, role: string)
    ensures Active(Effect(rows, e), role) == NextActive(Active(rows, role), e, role)
    ensures LiveRows(Effect(rows, e), role) == NextLive(LiveRows(rows, role), e, role)
  {
    if e.Cleared? || e.Retired? {
      if e.role == role { ClearEmpties(rows, role); } else { ClearKeepsOthers(rows, e.role, role); }
    } else if e.Written? {
      AppendRow(rows, e.row, role);
    }
  }

  /** How one event changes what the log says about a role. */
  lemma LogStep(rows0: seq<Row>, log: seq<Event>, e: Event, role: string)
    ensures Replay(rows0, log + [e]) == Effect(Replay(rows0, log), e)
    ensures TornSince(log + [e], role) == NextTorn(TornSince(log, role), e, role)
    ensures ClearFailedSince(log + [e], role) == NextFailed(ClearFailedSince(log, role), e, role)
  {
    assert (log + [e])[..|log|] == log;
  }

  // ---- the activation body ----

  lemma ActivatePhase(
    mine: seq<Event>, active: Option<Row>, live: seq<Row>, profiles: map<string, Option<string>>,
    a: Activation, phase: ActPhase, ok: bool)
    requires PhaseOk(mine, active, live, a, phase) && (active.Some? ==> |live| > 0)
    ensures var delta := ActivateStep(active, live, profiles, a, phase, ok);
      delta.pc.Activating? && delta.event.Some? ==>
        && delta.pc.a == a
        && PhaseOk(mine + [delta.event.value], NextActive(active, delta.event.value, a.role),
                   NextLive(live, delta.event.value, a.role), a, delta.pc.act)
    ensures var delta := ActivateStep(active, live, profiles, a, phase, ok);
      delta.pc.Activating? && delta.event.None? && a.prior == None && a.priorWg == None ==>
        PhaseOk(mine, active, live, delta.pc.a, delta.pc.act)
  {
  }

  lemma ActivateRole(
    mine: seq<Event>, activeHere: Option<Row>, liveHere: seq<Row>, profiles: map<string, Option<string>>,
    a: Activation, phase: ActPhase, ok: bool,
    role: string, active: Option<Row>, torn: set<string>, failed: bool)
    requires PhaseOk(mine, activeHere, liveHere, a, phase) && (!phase.ReadPrior? ==> PriorRead(a))
    requires activeHere.Some? ==> |liveHere| > 0
    requires role == a.role ==> active == activeHere
    requires RoleFact(active, torn, failed, MidClear(Activating(a, phase), role))
    ensures var delta := ActivateStep(activeHere, liveHere, profiles, a, phase, ok);
      var mid := MidClear(delta.pc, role);
      if delta.event.None? then RoleFact(active, torn, failed, mid)
      else var e := delta.event.value;
        RoleFact(NextActive(active, e, role), NextTorn(torn, e, role), NextFailed(failed, e, role), mid)
  {
  }

  // ---- the deactivation body ----

  lemma DeactivateRole(
    activeHere: Option<Row>, liveHere: seq<Row>, profiles: map<string, Option<string>>,
    d: Deactivation, phase: DePhase, ok: bool,
    role: string, active: Option<Row>, torn: set<string>, failed: bool)
    requires !phase.Validate? && activeHere.Some? ==> StillSnapshotted(d, activeHere.value)
    requires activeHere.Some? ==> |liveHere| > 0
    requires role == d.role ==> active == activeHere
    requires RoleFact(active, torn, failed, MidClear(Deactivating(d, phase), role))
    ensures var delta := DeactivateStep(activeHere, liveHere, profiles, d, phase, ok);
      var mid := MidClear(delta.pc, role);
      if delta.event.None? then RoleFact(active, torn, failed, mid)
      else var e := delta.event.value;
        RoleFact(NextActive(active, e, role), NextTorn(torn, e, role), NextFailed(failed, e, role), mid)
  {
  }

  // ---- preservation ----

  lemma LockKept(s: State, t: Tid, delta: Delta)
    requires LockOk(s) && t in s.threads
    requires InBody(delta.pc) ==> s.lock == None || s.lock == Some(t)
    ensures LockOk(Commit(s, t, delta))
  {
  }

  lemma SnapshotKept(rows0: seq<Row>, s: State, s': State, d: Deactivation)
    requires SnapshotOk(rows0, s, d) && s.log <= s'.log
    ensures SnapshotOk(rows0, s', d)
  {
    assert s'.log[..d.seen] == s.log[..d.seen];
  }

  /** Threads outside a body rely only on the part of the log they have seen. */
  lemma WaitingKept(rows0: seq<Row>, s: State, s': State, pc: Pc)
    requires PcOk(rows0, s, pc) && !InBody(pc) && s.log <= s'.log
    ensures PcOk(rows0, s', pc)
  {
    if pc.DeSnapshot? || pc.DeWait? { SnapshotKept(rows0, s, s', pc.d); }
  }

  lemma ActAfterEvent(rows0: seq<Row>, s: State, s': State, a: Activation, next: ActPhase, e: Event)
    requires a.mark <= |s.log| && !next.ReadPrior?
    requires PriorRead(a) && a.prior == Active(Replay(rows0, s.log[..a.mark]), a.role)
    requires s'.rows == Effect(s.rows, e) && s'.log == s.log + [e]
    requires PhaseOk(s.log[a.mark..] + [e], NextActive(Active(s.rows, a.role), e, a.role),
                     NextLive(LiveRows(s.rows, a.role), e, a.role), a, next)
    ensures ActOk(rows0, s', a, next)
  {
    LogSplit(s.log, e, a.mark);
    RowsStep(s.rows, e, a.role);
    ActOkFrom(rows0, s', a, next, s.log[a.mark..] + [e], NextActive(Active(s.rows, a.role), e, a.role),
              NextLive(LiveRows(s.rows, a.role), e, a.role));
  }

  lemma LogSplit(log: seq<Event>, e: Event, mark: nat)
    requires mark <= |log|
    ensures (log + [e])[..mark] == log[..mark] && (log + [e])[mark..] == log[mark..] + [e]
  {
  }

  lemma ActOkFrom(
    rows0: seq<Row>, s: State, a: Activation, phase: ActPhase, mine: seq<Event>, active: Option<Row>, live: seq<Row>)
    requires a.mark <= |s.log| && mine == s.log[a.mark..] && !phase.ReadPrior?
    requires active == Active(s.rows, a.role) && live == LiveRows(s.rows, a.role)
    requires PriorRead(a) && a.prior == Active(Replay(rows0, s.log[..a.mark]), a.role)
    requires PhaseOk(mine, active, live, a, phase)
    ensures ActOk(rows0, s, a, phase)
  {
  }

  lemma ActAfterRead(rows0: seq<Row>, s: State, s': State, a: Activation, a': Activation, next: ActPhase)
    requires ActOk(rows0, s, a, ReadPrior) && s.rows == Replay(rows0, s.log)
    requires s'.rows == s.rows && s'.log == s.log
    requires ReadPriorStep(Active(s.rows, a.role), s.profiles, a) == Activating(a', next)
    requires PhaseOk(s.log[a.mark..], Active(s.rows, a.role), LiveRows(s.rows, a.role), a', next)
    ensures ActOk(rows0, s', a', next)
  {
    assert s.log[..a.mark] == s.log;
  }

  lemma ActivatePc(rows0: seq<Row>, s: State, t: Tid, a: Activation, phase: ActPhase, ok: bool)
    requires s.rows == Replay(rows0, s.log) && ActOk(rows0, s, a, phase)
    ensures var delta := ActivateStep(Active(s.rows, a.role), LiveRows(s.rows, a.role), s.profiles, a, phase, ok);
      PcOk(rows0, Commit(s, t, delta), delta.pc)
  {
    var active, live := Active(s.rows, a.role), LiveRows(s.rows, a.role);
    var delta := ActivateStep(active, live, s.profiles, a, phase, ok);
    ActiveIsLive(s.rows, a.role);
    ActivatePhase(s.log[a.mark..], active, live, s.profiles, a, phase, ok);
    if delta.pc.Activating? {
      if delta.event.Some? {
        ActAfterEvent(rows0, s, Commit(s, t, delta), a, delta.pc.act, delta.event.value);
      } else {
        ActAfterRead(rows0, s, Commit(s, t, delta), a, delta.pc.a, delta.pc.act);
      }
    }
  }

  lemma DeactivatePc(rows0: seq<Row>, s: State, t: Tid, d: Deactivation, phase: DePhase, ok: bool)
    requires DeOk(rows0, s, d, phase)
    ensures var delta := DeactivateStep(Active(s.rows, d.role), LiveRows(s.rows, d.role), s.profiles, d, phase, ok);
      PcOk(rows0, Commit(s, t, delta), delta.pc)
  {
    var delta := DeactivateStep(Active(s.rows, d.role), LiveRows(s.rows, d.role), s.profiles, d, phase, ok);
    SnapshotKept(rows0, s, Commit(s, t, delta), d);
  }

  lemma MovePc(rows0: seq<Row>, s: State, t: Tid, ok: bool)
    requires s.rows == Replay(rows0, s.log)
    requires Enabled(s, Move(t, ok)) && PcOk(rows0, s, s.threads[t])
    ensures var delta := MoveStep(s, t, ok); PcOk(rows0, Commit(s, t, delta), delta.pc)
  {
    var pc := s.threads[t];
    if pc.Activating? {
      ActivatePc(rows0, s, t, pc.a, pc.act, ok);
    } else if pc.Deactivating? {
      DeactivatePc(rows0, s, t, pc.d, pc.de, ok);
    } else {
      assert s.log[..|s.log|] == s.log;
      assert s.log[|s.log|..] == [];
    }
  }

  lemma BodyRole(rows0: seq<Row>, s: State, t: Tid, ok: bool, role: string)
    requires LockOk(s) && RoleOk(s, role)
    requires t in s.threads && InBody(s.threads[t]) && PcOk(rows0, s, s.threads[t])
    ensures RoleOk(Commit(s, t, MoveStep(s, t, ok)), role)
  {
    var delta := MoveStep(s, t, ok);
    var active, torn, failed := Active(s.rows, role), TornSince(s.log, role), ClearFailedSince(s.log, role);
    match s.threads[t] {
      case Activating(a, phase) =>
        ActiveIsLive(s.rows, a.role);
        ActivateRole(s.log[a.mark..], Active(s.rows, a.role), LiveRows(s.rows, a.role), s.profiles,
                     a, phase, ok, role, active, torn, failed);
      case Deactivating(d, phase) =>
        ActiveIsLive(s.rows, d.role);
        DeactivateRole(Active(s.rows, d.role), LiveRows(s.rows, d.role), s.profiles,
                       d, phase, ok, role, active, torn, failed);
    }
    CommitRole(s, t, delta, role);
  }

  /** Reading a role's facts off the state after a body step. */
  lemma CommitRole(s: State, t: Tid, delta: Delta, role: string)
    requires s.lock == Some(t)
    ensures var s' := Commit(s, t, delta);
      && MidClearNow(s', role) == MidClear(delta.pc, role)
      && (delta.event.None? ==> s'.rows == s.rows && s'.log == s.log)
      && (delta.event.Some? ==>
          var e := delta.event.value;
          && Active(s'.rows, role) == NextActive(Active(s.rows, role), e, role)
          && TornSince(s'.log, role) == NextTorn(TornSince(s.log, role), e, role)
          && ClearFailedSince(s'.log, role) == NextFailed(ClearFailedSince(s.log, role), e, role))
  {
    if delta.event.Some? {
      RowsStep(s.rows, delta.event.value, role);
      LogStep([], s.log, delta.event.value, role);
    }
  }

  /** A request outside its body changes no role's facts. */
  lemma WaitingRole(s: State, t: Tid, ok: bool, role: string)
    requires LockOk(s) && RoleOk(s, role)
    requires Enabled(s, Move(t, ok)) && !InBody(s.threads[t])
    ensures RoleOk(Commit(s, t, MoveStep(s, t, ok)), role)
  {
    var delta := MoveStep(s, t, ok);
    assert delta.event.None?;
    assert !MidClear(delta.pc, role);
    assert s.lock != Some(t);
  }

  lemma KeepMove(rows0: seq<Row>, s: State, t: Tid, ok: bool)
    requires Inv(rows0, s) && Enabled(s, Move(t, ok))
    ensures Inv(rows0, Exec(s, Move(t, ok)))
  {
    var delta := MoveStep(s, t, ok);
    var s' := Commit(s, t, delta);
    LockKept(s, t, delta);
    RowsReplayed(rows0, s, t, delta);
    forall u | u in s'.threads ensures PcOk(rows0, s', s'.threads[u]) { MoveThread(rows0, s, t, ok, u); }
    forall role ensures RoleOk(s', role) { MoveRole(rows0, s, t, ok, role); }
  }

  lemma RowsReplayed(rows0: seq<Row>, s: State, t: Tid, delta: Delta)
    requires s.rows == Replay(rows0, s.log)
    ensures var s' := Commit(s, t, delta); s'.rows == Replay(rows0, s'.log)
  {
    if delta.event.Some? { LogStep(rows0, s.log, delta.event.value, ""); }
  }

  lemma MoveThread(rows0: seq<Row>, s: State, t: Tid, ok: bool, u: Tid)
    requires s.rows == Replay(rows0, s.log) && LockOk(s) && Enabled(s, Move(t, ok))
    requires PcOk(rows0, s, s.threads[t]) && u in s.threads && PcOk(rows0, s, s.threads[u])
    ensures var s' := Commit(s, t, MoveStep(s, t, ok)); PcOk(rows0, s', s'.threads[u])
  {
    if u == t {
      MovePc(rows0, s, t, ok);
    } else {
      WaitingOthers(rows0, s, Commit(s, t, MoveStep(s, t, ok)), t, ok, u);
    }
  }

  lemma MoveRole(rows0: seq<Row>, s: State, t: Tid, ok: bool, role: string)
    requires LockOk(s) && RoleOk(s, role) && Enabled(s, Move(t, ok)) && PcOk(rows0, s, s.threads[t])
    ensures RoleOk(Commit(s, t, MoveStep(s, t, ok)), role)
  {
    if InBody(s.threads[t]) { BodyRole(rows0, s, t, ok, role); } else { WaitingRole(s, t, ok, role); }
  }

  /** While one thread moves, a thread in its body sees no change: only one is in a body. */
  lemma WaitingOthers(rows0: seq<Row>, s: State, s': State, t: Tid, ok: bool, u: Tid)
    requires LockOk(s) && Enabled(s, Move(t, ok)) && s' == Commit(s, t, MoveStep(s, t, ok))
    requires u in s.threads && u != t && PcOk(rows0, s, s.threads[u])
    ensures PcOk(rows0, s', s.threads[u])
  {
    if InBody(s.threads[u]) {
      assert !InBody(s.threads[t]);
      assert s'.rows == s.rows && s'.log == s.log;
      PcFrame(rows0, s, s', s.threads[u]);
    } else {
      WaitingKept(rows0, s, s', s.threads[u]);
    }
  }

  lemma PcFrame(rows0: seq<Row>, s: State, s': State, pc: Pc)
    requires s'.rows == s.rows && s'.log == s.log && PcOk(rows0, s, pc)
    ensures PcOk(rows0, s', pc)
  {
  }

  lemma KeepArrival(rows0: seq<Row>, s: State, t: Tid, req: Request)
    requires Inv(rows0, s) && Enabled(s, Arrive(t, req))
    ensures Inv(rows0, Exec(s, Arrive(t, req)))
  {
    var s' := Exec(s, Arrive(t, req));
    forall u | u in s'.threads ensures PcOk(rows0, s', s'.threads[u]) {
      if u != t { PcFrame(rows0, s, s', s.threads[u]); }
    }
    forall role ensures RoleOk(s', role) { assert RoleOk(s, role); }
  }

  lemma KeepCatalog(rows0: seq<Row>, s: State, profiles: map<string, Option<string>>)
    requires Inv(rows0, s)
    ensures Inv(rows0, Exec(s, Catalog(profiles)))
  {
    var s' := Exec(s, Catalog(profiles));
    forall u | u in s'.threads ensures PcOk(rows0, s', s'.threads[u]) { PcFrame(rows0, s, s', s.threads[u]); }
    forall role ensures RoleOk(s', role) { assert RoleOk(s, role); }
  }

  lemma KeepStep(rows0: seq<Row>, s: State, a: Action)
    requires Inv(rows0, s)
    ensures Inv(rows0, Exec(s, a))
  {
    if Enabled(s, a) {
      match a
      case Move(t, ok) => KeepMove(rows0, s, t, ok);
      case Arrive(t, req) => KeepArrival(rows0, s, t, req);
      case Catalog(profiles) => KeepCatalog(rows0, s, profiles);
    }
  }

  /** Every reachable state satisfies the invariant. */
  lemma {:induction false} Reachable(s0: State, actions: seq<Action>)
    requires Initial(s0)
    ensures Inv(s0.rows, Run(s0, actions))
  {
    if actions != [] {
      Reachable(s0, actions[..|actions| - 1]);
      KeepStep(s0.rows, Run(s0, actions[..|actions| - 1]), actions[|actions| - 1]);
    }
  }
}
