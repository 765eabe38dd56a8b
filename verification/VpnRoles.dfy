/** Roles of one router share its interfaces. When a teardown for one role can hit the
    interface that another role is assigned to, and when it cannot. */
module VpnRoles {
  import opened Prelude
  import opened TunnelStore
  import opened VpnProtocol
  import opened VpnInvariants
  import opened VpnHistory
  import opened VpnRuns
  import opened VpnTheorems

  /** No active assignment is on an interface, by its own naming or by profile metadata, that a
      request for another role has torn down since the assignment was written. */
  ghost predicate SafeAcross(s: State) {
    forall role :: SafeFor(s, role)
  }

  predicate SafeFor(s: State, role: string) {
    var wg := ResolvedIn(Active(s.rows, role), s.profiles);
    wg.Some? ==> wg.value !in TornByOthers(s.log, role)
  }

  /** The guard of a teardown is per role: a deactivation for a role without an assignment
      accepts any interface, so it can tear down the interface another role is assigned to,
      report success, and leave that other assignment active. */
  lemma OtherRoleCanBeTornDown(s0: State, t: Tid, role: string, idle: string, wg: string)
    requires Initial(s0) && Active(s0.rows, role).Some? && Active(s0.rows, idle) == None
    requires ResolvedIn(Active(s0.rows, role), s0.profiles) == Some(wg)
    ensures var s := Run(s0, BlindRun(t, idle, wg));
      && s.threads == map[t := Done(Deactivated)] && s.lock == None
      && Active(s.rows, role) == Active(s0.rows, role)
      && ResolvedIn(Active(s.rows, role), s.profiles) == Some(wg)
      && s.log == [Torn(idle, wg)]
      && (role != idle ==> wg in TornByOthers(s.log, role) && !ClearFailedSince(s.log, role))
  {
    BlindRunEnds(s0, t, idle, wg);
    OneTeardown(idle, wg, role);
  }

  lemma OneTeardown(tearing: string, wg: string, role: string)
    ensures role != tearing ==> TornByOthers([Torn(tearing, wg)], role) == {wg}
    ensures !ClearFailedSince([Torn(tearing, wg)], role)
  {
    assert [Torn(tearing, wg)][..0] == [];
  }

  /** An activation does it too, when it replaces its role's assignment to an interface that
      another role is assigned to. */
  lemma ActivationTearsOtherRole(s0: State, t: Tid, role: string, other: string, profile: string, wg: string, target: string)
    requires Initial(s0) && role != other && profile in s0.profiles
    requires Active(s0.rows, role).Some? && OwnWg(Active(s0.rows, role).value) == Some(wg)
    requires Active(s0.rows, other).Some? && OwnWg(Active(s0.rows, other).value) == Some(wg)
    requires Active(s0.rows, other).value.profile != profile
    ensures var s := Run(s0, [Arrive(t, Activate(other, profile, Some(target))),
                              Move(t, true), Move(t, true), Move(t, true), Move(t, true), Move(t, false)]);
      && s.lock == None && Active(s.rows, role) == Active(s0.rows, role)
      && wg in TornByOthers(s.log, role)
  {
    var a := Activation(other, profile, target, 0, None, None);
    FailingRun(s0, t, a, a.(prior := Active(s0.rows, other), priorWg := Some(wg)), target);
    TeardownWithoutClear(other, wg, role);
  }

  lemma TeardownWithoutClear(tearing: string, wg: string, role: string)
    requires role != tearing
    ensures wg in TornByOthers([Torn(tearing, wg), ClearFailed(tearing, Some(wg))], role)
  {
    OneTeardown(tearing, wg, role);
    assert [Torn(tearing, wg), ClearFailed(tearing, Some(wg))][..1] == [Torn(tearing, wg)];
  }

  // ---- who may name which interface ----

  /** Which interfaces the clients use for which role. */
  type Names = (string, string) -> bool

  ghost predicate NoSharing(names: Names) {
    forall r, q, wg :: names(r, wg) && names(q, wg) ==> r == q
  }

  predicate RowNamed(names: Names, role: string, row: Option<Row>) {
    row.Some? && OwnWg(row.value).Some? ==> names(role, OwnWg(row.value).value)
  }

  ghost predicate RowsNamed(names: Names, rows: seq<Row>) {
    forall role :: RowNamed(names, role, Active(rows, role))
  }

  predicate RequestNamed(names: Names, req: Request) {
    match req
    case Activate(role, _, explicitWg) => explicitWg.Some? ==> names(role, explicitWg.value)
    case Deactivate(role, wg) => names(role, wg)
  }

  /** An interface that the next step of `t` takes from profile metadata, for its role. */
  function FromMetadata(s: State, t: Tid): Option<(string, string)>
    requires t in s.threads
  {
    match s.threads[t]
    case Begin(Activate(role, profile, None)) =>
      if MetadataWg(s.profiles, profile).Some? then Some((role, MetadataWg(s.profiles, profile).value)) else None
    case Activating(a, ReadPrior) =>
      var wg := ResolvedIn(Active(s.rows, a.role), s.profiles);
      if wg.Some? then Some((a.role, wg.value)) else None
    case _ => None
  }

  /** Requests name only interfaces of their role, whether they spell them out or leave them
      to profile metadata. */
  predicate Respects(names: Names, s: State, a: Action) {
    match a
    case Arrive(_, req) => RequestNamed(names, req)
    case Move(t, _) =>
      t in s.threads && FromMetadata(s, t).Some? ==> names(FromMetadata(s, t).value.0, FromMetadata(s, t).value.1)
    case Catalog(_) => true
  }

  ghost predicate RespectfulRun(names: Names, s0: State, actions: seq<Action>) {
    && Initial(s0) && RowsNamed(names, s0.rows)
    && forall i :: 0 <= i < |actions| ==> Respects(names, At(s0, actions, i), actions[i])
  }

  // ---- what a respectful run keeps ----

  predicate PcNamed(names: Names, pc: Pc) {
    match pc
    case Begin(req) => RequestNamed(names, req)
    case ActWait(role, _, target) => names(role, target)
    case DeSnapshot(d) => names(d.role, d.wg)
    case DeWait(d) => names(d.role, d.wg)
    case Activating(a, _) => names(a.role, a.target) && (a.priorWg.Some? ==> names(a.role, a.priorWg.value))
    case Deactivating(d, _) => names(d.role, d.wg)
    case Done(_) => true
  }

  predicate EventNamed(names: Names, e: Event) {
    && (e.Torn? ==> names(e.role, e.wg))
    && (e.Written? ==> RowNamed(names, e.row.role, Some(e.row)))
  }

  ghost predicate Named(names: Names, s: State) {
    && RowsNamed(names, s.rows)
    && (forall i :: 0 <= i < |s.log| ==> EventNamed(names, s.log[i]))
    && (forall t :: t in s.threads ==> PcNamed(names, s.threads[t]))
  }

  lemma BeginNamed(names: Names, s: State, t: Tid, ok: bool)
    requires Enabled(s, Move(t, ok)) && s.threads[t].Begin?
    requires PcNamed(names, s.threads[t]) && Respects(names, s, Move(t, ok))
    ensures PcNamed(names, MoveStep(s, t, ok).pc)
  {
  }

  lemma ActivateNamed(names: Names, active: Option<Row>, live: seq<Row>, profiles: map<string, Option<string>>,
                      a: Activation, phase: ActPhase, ok: bool)
    requires PcNamed(names, Activating(a, phase))
    requires phase.ReadPrior? && ResolvedIn(active, profiles).Some? ==> names(a.role, ResolvedIn(active, profiles).value)
    ensures var delta := ActivateStep(active, live, profiles, a, phase, ok);
      PcNamed(names, delta.pc) && (delta.event.Some? ==> EventNamed(names, delta.event.value))
  {
  }

  lemma DeactivateNamed(names: Names, active: Option<Row>, live: seq<Row>, profiles: map<string, Option<string>>,
                        d: Deactivation, phase: DePhase, ok: bool)
    requires names(d.role, d.wg)
    ensures var delta := DeactivateStep(active, live, profiles, d, phase, ok);
      PcNamed(names, delta.pc) && (delta.event.Some? ==> EventNamed(names, delta.event.value))
  {
  }

  lemma MoveNamed(names: Names, s: State, t: Tid, ok: bool)
    requires Enabled(s, Move(t, ok))
    requires PcNamed(names, s.threads[t]) && Respects(names, s, Move(t, ok))
    ensures var delta := MoveStep(s, t, ok);
      PcNamed(names, delta.pc) && (delta.event.Some? ==> EventNamed(names, delta.event.value))
  {
    var pc := s.threads[t];
    if pc.Begin? {
      BeginNamed(names, s, t, ok);
    } else if pc.Activating? {
      ActivateNamed(names, Active(s.rows, pc.a.role), LiveRows(s.rows, pc.a.role), s.profiles, pc.a, pc.act, ok);
    } else if pc.Deactivating? {
      DeactivateNamed(names, Active(s.rows, pc.d.role), LiveRows(s.rows, pc.d.role), s.profiles, pc.d, pc.de, ok);
    }
  }

  lemma CommitNamed(names: Names, s: State, t: Tid, delta: Delta)
    requires Named(names, s) && PcNamed(names, delta.pc)
    requires delta.event.Some? ==> EventNamed(names, delta.event.value)
    ensures Named(names, Commit(s, t, delta))
  {
    forall role ensures RowNamed(names, role, Active(Commit(s, t, delta).rows, role)) {
      assert RowNamed(names, role, Active(s.rows, role));
      if delta.event.Some? { RowsStep(s.rows, delta.event.value, role); }
    }
  }

  lemma {:induction false} RunNamed(names: Names, s0: State, actions: seq<Action>)
    requires RespectfulRun(names, s0, actions)
    ensures Named(names, Run(s0, actions))
  {
    if actions != [] {
      var n := |actions| - 1;
      var before, last := actions[..n], actions[n];
      forall i | 0 <= i < n ensures Respects(names, At(s0, before, i), before[i]) { Earlier(s0, actions, i); }
      RunNamed(names, s0, before);
      var s := Run(s0, before);
      assert Respects(names, At(s0, actions, n), actions[n]);
      if last.Move? && Enabled(s, last) {
        MoveNamed(names, s, last.t, last.ok);
        CommitNamed(names, s, last.t, MoveStep(s, last.t, last.ok));
      }
    }
  }

  /** Every active assignment names its own interface. */
  ghost predicate AllNamed(rows: seq<Row>) {
    forall role :: Active(rows, role).Some? ==> OwnWg(Active(rows, role).value).Some?
  }

  /** Assignments written in a run name their interface, so this is kept. */
  lemma RunAllNamed(s0: State, actions: seq<Action>)
    requires AllNamed(s0.rows)
    ensures AllNamed(Run(s0, actions).rows)
  {
    forall role | Active(Run(s0, actions).rows, role).Some?
      ensures OwnWg(Active(Run(s0, actions).rows, role).value).Some?
    {
      ActiveOrigin(s0, actions, role);
    }
  }

  lemma NamedIsSafe(names: Names, s: State, role: string)
    requires NoSharing(names) && Named(names, s) && AllNamed(s.rows)
    ensures SafeFor(s, role)
  {
    var active := Active(s.rows, role);
    if active.Some? {
      var wg := OwnWg(active.value).value;
      assert RowNamed(names, role, active);
      TornByOthersMeans(s.log, role, wg);
      forall i | Unreset(s.log, role, i) && s.log[i].Torn? && s.log[i].wg == wg ensures s.log[i].role == role {
        assert EventNamed(names, s.log[i]);
      }
    }
  }

  // ---- the exact conditions ----

  /** From states whose active assignments name their own interface: every respectful run, by
      requests of every kind, keeps the roles apart exactly if no interface is named for two
      roles. */
  lemma SafeAcrossIff(names: Names)
    ensures (forall s0, actions :: RespectfulRun(names, s0, actions) && AllNamed(s0.rows) ==> SafeAcross(Run(s0, actions)))
      <==> NoSharing(names)
  {
    if NoSharing(names) {
      forall s0, actions | RespectfulRun(names, s0, actions) && AllNamed(s0.rows) ensures SafeAcross(Run(s0, actions)) {
        RunNamed(names, s0, actions);
        RunAllNamed(s0, actions);
        forall role ensures SafeFor(Run(s0, actions), role) { NamedIsSafe(names, Run(s0, actions), role); }
      }
    } else {
      var r, q, wg :| names(r, wg) && names(q, wg) && r != q;
      var s0, actions := SharedIsUnsafe(names, r, q, wg);
    }
  }

  /** From all states, with assignments that rely on profile metadata among them, not sharing is
      not enough: then every respectful run keeps the roles apart exactly if the clients name
      no interface at all. */
  lemma SafeFromAnyStateIff(names: Names)
    ensures (forall s0, actions :: RespectfulRun(names, s0, actions) ==> SafeAcross(Run(s0, actions)))
      <==> forall role, wg :: !names(role, wg)
  {
    if forall role, wg :: !names(role, wg) {
      forall s0, actions | RespectfulRun(names, s0, actions) ensures SafeAcross(Run(s0, actions)) {
        RunNamed(names, s0, actions);
        forall role ensures SafeFor(Run(s0, actions), role) { NothingTorn(names, Run(s0, actions), role); }
      }
    } else {
      var q, wg :| names(q, wg);
      var s0, actions := MetadataIsUnsafe(names, q + "'", q, wg);
    }
  }

  lemma NothingTorn(names: Names, s: State, role: string)
    requires Named(names, s) && forall r, wg :: !names(r, wg)
    ensures SafeFor(s, role)
  {
    var wg := ResolvedIn(Active(s.rows, role), s.profiles);
    if wg.Some? {
      TornByOthersMeans(s.log, role, wg.value);
      forall i | 0 <= i < |s.log| ensures !s.log[i].Torn? { assert EventNamed(names, s.log[i]); }
    }
  }

  /** An assignment of `r` that names no interface, on a profile whose metadata says `wg`, while
      requests for `q` alone name `wg`. */
  lemma MetadataIsUnsafe(names: Names, r: string, q: string, wg: string) returns (s0: State, actions: seq<Action>)
    requires names(q, wg) && r != q
    ensures RespectfulRun(names, s0, actions) && !SafeAcross(Run(s0, actions))
  {
    var row := Row(r, "", None, None, true, false);
    s0 := State([row], map["" := Some(wg)], [], None, map[]);
    actions := OneRowIsUnsafe(names, s0, row, q, wg);
  }

  lemma OneRowIsUnsafe(names: Names, s0: State, row: Row, q: string, wg: string) returns (actions: seq<Action>)
    requires Initial(s0) && s0.rows == [row] && row.desired && !row.retired
    requires ResolvedIn(Some(row), s0.profiles) == Some(wg) && RowNamed(names, row.role, Some(row))
    requires names(q, wg) && row.role != q
    ensures RespectfulRun(names, s0, actions) && !SafeAcross(Run(s0, actions))
  {
    actions := BlindRun(0, q, wg);
    OneRow(row);
    OtherRoleCanBeTornDown(s0, 0, row.role, q, wg);
    DeactivationsRespect(names, s0, actions);
    assert !SafeFor(Run(s0, actions), row.role);
  }

  lemma OneRow(row: Row)
    requires row.desired && !row.retired
    ensures forall role :: Active([row], role) == if role == row.role then Some(row) else None
  {
    forall role ensures Active([row], role) == if role == row.role then Some(row) else None {
      assert [row][..0] == [];
    }
  }

  predicate Deactivates(pc: Pc) {
    match pc
    case Begin(req) => req.Deactivate?
    case ActWait(_, _, _) => false
    case Activating(_, _) => false
    case _ => true
  }

  /** Without activations nothing is taken from metadata. */
  lemma {:induction false} OnlyDeactivations(s0: State, actions: seq<Action>, t: Tid)
    requires Initial(s0) && forall i :: 0 <= i < |actions| && actions[i].Arrive? ==> actions[i].req.Deactivate?
    requires t in Run(s0, actions).threads
    ensures Deactivates(Run(s0, actions).threads[t])
  {
    if actions != [] {
      var n := |actions| - 1;
      var s, last := Run(s0, actions[..n]), actions[n];
      if t in s.threads { OnlyDeactivations(s0, actions[..n], t); }
      if last.Move? && last.t == t && Enabled(s, last) { StillDeactivates(s, t, last.ok); }
    }
  }

  lemma StillDeactivates(s: State, t: Tid, ok: bool)
    requires Enabled(s, Move(t, ok)) && Deactivates(s.threads[t])
    ensures Deactivates(MoveStep(s, t, ok).pc)
  {
  }

  lemma DeactivationsRespect(names: Names, s0: State, actions: seq<Action>)
    requires Initial(s0) && RowsNamed(names, s0.rows)
    requires forall i :: 0 <= i < |actions| && actions[i].Arrive? ==>
      actions[i].req.Deactivate? && names(actions[i].req.role, actions[i].req.wg)
    ensures RespectfulRun(names, s0, actions)
  {
    forall i | 0 <= i < |actions| ensures Respects(names, At(s0, actions, i), actions[i]) {
      if actions[i].Move? && actions[i].t in At(s0, actions, i).threads {
        OnlyDeactivations(s0, actions[..i], actions[i].t);
      }
    }
  }

  lemma SharedIsUnsafe(names: Names, r: string, q: string, wg: string) returns (s0: State, actions: seq<Action>)
    requires names(r, wg) && names(q, wg) && r != q
    ensures RespectfulRun(names, s0, actions) && AllNamed(s0.rows) && !SafeAcross(Run(s0, actions))
  {
    var row := Row(r, "", Some(wg), Some(wg), true, false);
    s0 := State([row], map[], [], None, map[]);
    OneRow(row);
    actions := OneRowIsUnsafe(names, s0, row, q, wg);
  }
}
