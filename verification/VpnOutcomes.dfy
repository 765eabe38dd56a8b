/** What the outcome of a device or store call decides: which events it lets into the log, when a
    request fails, and that a request all of whose calls succeed gets to its end. */
module VpnOutcomes {
  import opened Prelude
  import opened TunnelStore
  import opened VpnProtocol
  import opened VpnInvariants
  import opened VpnHistory

  // ---- where events come from ----

  /** The step behind an event of the log: the call it stands for succeeded, or for a failed
      clear did not, and the event names what the request was about to do. */
  predicate CausedBy(live: seq<Row>, profiles: map<string, Option<string>>, pc: Pc, ok: bool, e: Event) {
    match e
    case Torn(role, wg) =>
      ok && ((pc.Activating? && pc.act == TeardownPrior && pc.a.role == role && pc.a.priorWg == Some(wg))
             || (pc.Deactivating? && pc.de == Teardown && pc.d.role == role && pc.d.wg == wg))
    case Applied(role, profile, wg) =>
      ok && pc.Activating? && pc.act == ApplyNew && pc.a.role == role && pc.a.profile == profile && pc.a.target == wg
    case Cleared(role) =>
      ok && live != [] && ((pc.Activating? && pc.act == ClearPrior && pc.a.role == role)
                           || (pc.Deactivating? && pc.de == ClearRows && pc.d.role == role))
    case ClearFailed(role, torn) =>
      (!ok || live == []) && ((pc.Activating? && pc.act == ClearPrior && pc.a.role == role && pc.a.priorWg == torn)
                              || (pc.Deactivating? && pc.de == ClearRows && pc.d.role == role && torn == Some(pc.d.wg)))
    case Retired(role) =>
      ok && pc.Activating? && pc.act == RetireRows && pc.a.role == role && pc.a.profile in profiles
    case Written(role, row) =>
      && ok && pc.Activating? && pc.act == InsertRow && pc.a.role == role
      && row == Row(role, pc.a.profile, Some(pc.a.target), Some(pc.a.target), true, false)
  }

  /** Event `j` of a run's log entered it with action `i`, a step of the event's own request. */
  ghost predicate EnteredAt(s0: State, actions: seq<Action>, i: nat, j: nat, e: Event) {
    i < |actions| && actions[i].Move? &&
    var m := At(s0, actions, i);
    && |m.log| == j && Enabled(m, actions[i])
    && CausedBy(LiveRows(m.rows, e.role), m.profiles, m.threads[actions[i].t], actions[i].ok, e)
  }

  lemma ActivateCauses(active: Option<Row>, live: seq<Row>, profiles: map<string, Option<string>>,
                       a: Activation, phase: ActPhase, ok: bool)
    ensures var event := ActivateStep(active, live, profiles, a, phase, ok).event;
      event.Some? ==> event.value.role == a.role && CausedBy(live, profiles, Activating(a, phase), ok, event.value)
  {
  }

  lemma DeactivateCauses(active: Option<Row>, live: seq<Row>, profiles: map<string, Option<string>>,
                         d: Deactivation, phase: DePhase, ok: bool)
    ensures var event := DeactivateStep(active, live, profiles, d, phase, ok).event;
      event.Some? ==> event.value.role == d.role && CausedBy(live, profiles, Deactivating(d, phase), ok, event.value)
  {
  }

  lemma StepCauses(s: State, t: Tid, ok: bool)
    requires Enabled(s, Move(t, ok))
    ensures var event := MoveStep(s, t, ok).event;
      event.Some? ==> CausedBy(LiveRows(s.rows, event.value.role), s.profiles, s.threads[t], ok, event.value)
  {
    var pc := s.threads[t];
    if pc.Activating? {
      ActivateCauses(Active(s.rows, pc.a.role), LiveRows(s.rows, pc.a.role), s.profiles, pc.a, pc.act, ok);
    } else if pc.Deactivating? {
      DeactivateCauses(Active(s.rows, pc.d.role), LiveRows(s.rows, pc.d.role), s.profiles, pc.d, pc.de, ok);
    }
  }

  /** In every run, every event of the log entered it by one step of the request it belongs to,
      and that step's call had the outcome the event stands for. */
  lemma {:induction false} EveryEventHasItsCause(s0: State, actions: seq<Action>, j: nat) returns (i: nat)
    requires Initial(s0) && j < |Run(s0, actions).log|
    ensures EnteredAt(s0, actions, i, j, Run(s0, actions).log[j])
  {
    var n := |actions| - 1;
    var before, last := actions[..n], actions[n];
    var p := Run(s0, before);
    if j < |p.log| {
      i := EveryEventHasItsCause(s0, before, j);
      Earlier(s0, actions, i);
      LogGrows(p, last);
    } else {
      i := n;
      StepCauses(p, last.t, last.ok);
    }
  }

  lemma LogGrows(s: State, a: Action)
    ensures s.log <= Exec(s, a).log
  {
  }

  // ---- failing calls ----

  /** A failing call ends the request: an activation past its read, a deactivation at its
      teardown or its clear. So does a profile that has left the catalog when its assignment or
      its metadata is to be written. */
  lemma FailingCallFails(s: State, t: Tid, ok: bool)
    requires Enabled(s, Move(t, ok)) && InBody(s.threads[t])
    ensures var pc, next := s.threads[t], Exec(s, Move(t, ok)).threads[t];
      && (pc.Activating? && pc.act != ReadPrior && !ok ==> next == Done(ActivateFailed))
      && (pc.Activating? && (pc.act == RetireRows || pc.act == MergeMetadata) && pc.a.profile !in s.profiles ==>
            next == Done(ActivateFailed))
      && (pc.Deactivating? && (pc.de == Teardown || pc.de == ClearRows) && !ok ==> next == Done(DeactivateFailed))
  {
  }

  // ---- refusals before the lock ----

  /** What a request does first, by its outcome and the catalog of that moment. */
  lemma FirstStep(s: State, t: Tid, ok: bool)
    requires Enabled(s, Move(t, ok)) && s.threads[t].Begin?
    ensures var req, next := s.threads[t].req, Exec(s, Move(t, ok)).threads[t];
      match req
      case Activate(role, profile, explicitWg) =>
        if ok && profile in s.profiles && (explicitWg.Some? || s.profiles[profile].Some?)
        then next == ActWait(role, profile, if explicitWg.Some? then explicitWg.value else s.profiles[profile].value)
        else next == Done(Rejected)
      case Deactivate(role, wg) =>
        if ok then next.DeSnapshot? && next.d.role == role && next.d.wg == wg && next.d.outside == Active(s.rows, role)
        else next == Done(Rejected)
  {
  }

  /** What a request is about, once it is past its first step. */
  datatype Purpose = ToActivate(role: string, profile: string, target: string) | ToDeactivate(role: string, wg: string)

  function PurposeOf(pc: Pc): Option<Purpose> {
    match pc
    case ActWait(role, profile, target) => Some(ToActivate(role, profile, target))
    case Activating(a, _) => Some(ToActivate(a.role, a.profile, a.target))
    case DeSnapshot(d) => Some(ToDeactivate(d.role, d.wg))
    case DeWait(d) => Some(ToDeactivate(d.role, d.wg))
    case Deactivating(d, _) => Some(ToDeactivate(d.role, d.wg))
    case _ => None
  }

  /** The interface of an activation is the one its request spells out, or else that of the
      profile's metadata at that moment. */
  predicate Fits(profiles: map<string, Option<string>>, req: Request, purpose: Purpose) {
    match purpose
    case ToActivate(role, profile, target) =>
      && req.Activate? && req.role == role && req.profile == profile && profile in profiles
      && Some(target) == if req.explicitWg.Some? then req.explicitWg else profiles[profile]
    case ToDeactivate(role, wg) => req == Deactivate(role, wg)
  }

  /** With action `i`, its first step, thread `t` took up a request for this purpose. */
  ghost predicate AskedAt(s0: State, actions: seq<Action>, i: nat, t: Tid, purpose: Purpose) {
    i < |actions| && actions[i] == Move(t, true) &&
    var m := At(s0, actions, i);
    t in m.threads && m.threads[t].Begin? && Fits(m.profiles, m.threads[t].req, purpose)
  }

  lemma PurposeStep(s: State, t: Tid, ok: bool)
    requires Enabled(s, Move(t, ok)) && PurposeOf(MoveStep(s, t, ok).pc).Some?
    ensures var purpose := PurposeOf(MoveStep(s, t, ok).pc);
      || PurposeOf(s.threads[t]) == purpose
      || (ok && s.threads[t].Begin? && Fits(s.profiles, s.threads[t].req, purpose.value))
  {
  }

  /** In every run a request does what it was asked for: role, profile and interface of its
      body are those of the request it took up. */
  lemma {:induction false} PurposeIsAsked(s0: State, actions: seq<Action>, t: Tid) returns (i: nat)
    requires Initial(s0)
    requires t in Run(s0, actions).threads && PurposeOf(Run(s0, actions).threads[t]).Some?
    ensures AskedAt(s0, actions, i, t, PurposeOf(Run(s0, actions).threads[t]).value)
  {
    var n := |actions| - 1;
    var before, last := actions[..n], actions[n];
    var p := Run(s0, before);
    if last.Move? && last.t == t && Enabled(p, last) {
      PurposeStep(p, t, last.ok);
      if PurposeOf(p.threads[t]) == PurposeOf(Run(s0, actions).threads[t]) {
        i := PurposeIsAsked(s0, before, t);
        Earlier(s0, actions, i);
      } else {
        i := n;
      }
    } else {
      OthersStay(p, last, t);
      i := PurposeIsAsked(s0, before, t);
      Earlier(s0, actions, i);
    }
  }

  // ---- succeeding calls ----

  /** One request alone, all of whose calls succeed. */
  ghost predicate GoesTo(s: State, t: Tid, actions: seq<Action>, outcome: Outcome) {
    && (forall i :: 0 <= i < |actions| ==> actions[i] == Move(t, true))
    && var s' := Run(s, actions);
       s'.threads == map[t := Done(outcome)] && s'.lock == None
  }

  lemma RunFirst(s: State, a: Action, actions: seq<Action>)
    ensures Run(s, [a] + actions) == Run(Exec(s, a), actions)
    decreases |actions|
  {
    var all := [a] + actions;
    if actions == [] {
      assert all == [a] && all[..0] == [];
    } else {
      var n := |actions| - 1;
      assert all[..n + 1] == [a] + actions[..n];
      RunFirst(s, a, actions[..n]);
    }
  }

  lemma OneMoreGo(s: State, t: Tid, rest: seq<Action>, outcome: Outcome) returns (actions: seq<Action>)
    requires GoesTo(Exec(s, Move(t, true)), t, rest, outcome)
    ensures GoesTo(s, t, actions, outcome)
  {
    actions := [Move(t, true)] + rest;
    RunFirst(s, Move(t, true), rest);
  }

  function ActRank(phase: ActPhase): nat {
    match phase
    case ReadPrior => 7
    case TeardownPrior => 6
    case ClearPrior => 5
    case ApplyNew => 4
    case RetireRows => 3
    case InsertRow => 2
    case MergeMetadata => 1
  }

  predicate Replaceable(active: Option<Row>, profiles: map<string, Option<string>>, profile: string) {
    active.None? || ResolvedIn(active, profiles).Some? || active.value.profile == profile
  }

  predicate CanActivate(s: State, t: Tid, a: Activation, phase: ActPhase) {
    && s.threads == map[t := Activating(a, phase)] && s.lock == Some(t) && a.profile in s.profiles
    && (phase == ReadPrior ==> Replaceable(Active(s.rows, a.role), s.profiles, a.profile))
    && (phase == TeardownPrior ==> a.priorWg.Some?)
    && (phase == TeardownPrior || phase == ClearPrior ==> |LiveRows(s.rows, a.role)| > 0)
  }

  lemma ActivationGoesOn(s: State, t: Tid, a: Activation, phase: ActPhase)
    requires CanActivate(s, t, a, phase)
    ensures var s' := Exec(s, Move(t, true));
      if phase == MergeMetadata then s'.threads == map[t := Done(Activated)] && s'.lock == None
      else s'.threads[t].Activating? && ActRank(s'.threads[t].act) < ActRank(phase)
           && CanActivate(s', t, s'.threads[t].a, s'.threads[t].act)
  {
    ActiveIsLive(s.rows, a.role);
    var active, live := Active(s.rows, a.role), LiveRows(s.rows, a.role);
    var delta := ActivateStep(active, live, s.profiles, a, phase, true);
    GoodStep(active, live, s.profiles, a, phase);
    assert MoveStep(s, t, true) == delta;
    assert s.threads[t := delta.pc] == map[t := delta.pc];
  }

  lemma GoodStep(active: Option<Row>, live: seq<Row>, profiles: map<string, Option<string>>, a: Activation, phase: ActPhase)
    requires a.profile in profiles && (active.Some? ==> |live| > 0)
    requires phase == ReadPrior ==> Replaceable(active, profiles, a.profile)
    requires phase == TeardownPrior ==> a.priorWg.Some?
    requires phase == TeardownPrior || phase == ClearPrior ==> |live| > 0
    ensures var delta := ActivateStep(active, live, profiles, a, phase, true);
      if phase == MergeMetadata then delta.pc == Done(Activated) && delta.event.None?
      else
        && delta.pc.Activating? && ActRank(delta.pc.act) < ActRank(phase)
        && delta.pc.a.role == a.role && delta.pc.a.profile == a.profile && delta.profiles == profiles
        && (delta.pc.act == TeardownPrior ==> delta.pc.a.priorWg.Some?)
        && (delta.pc.act == TeardownPrior || delta.pc.act == ClearPrior ==>
              |live| > 0 && (delta.event.None? || delta.event.value.Torn?))
        && delta.pc.act != ReadPrior
  {
  }

  lemma {:induction false} ActivationFinishes(s: State, t: Tid, a: Activation, phase: ActPhase) returns (actions: seq<Action>)
    requires CanActivate(s, t, a, phase)
    ensures GoesTo(s, t, actions, Activated)
    decreases ActRank(phase)
  {
    ActivationGoesOn(s, t, a, phase);
    var s' := Exec(s, Move(t, true));
    var rest: seq<Action> := [];
    if phase != MergeMetadata {
      rest := ActivationFinishes(s', t, s'.threads[t].a, s'.threads[t].act);
    }
    actions := OneMoreGo(s, t, rest, Activated);
  }

  /** From any state an activation on its own, all of whose calls succeed, reports success,
      provided its profile is in the catalog, there is an interface to use, and the assignment
      in force is absent, resolvable, or of the same profile. */
  lemma ActivationSucceeds(s0: State, t: Tid, role: string, profile: string, explicitWg: Option<string>)
    returns (actions: seq<Action>)
    requires Initial(s0) && profile in s0.profiles && (explicitWg.Some? || s0.profiles[profile].Some?)
    requires Replaceable(Active(s0.rows, role), s0.profiles, profile)
    ensures GoesTo(Exec(s0, Arrive(t, Activate(role, profile, explicitWg))), t, actions, Activated)
  {
    var s1 := Exec(s0, Arrive(t, Activate(role, profile, explicitWg)));
    var s2 := Exec(s1, Move(t, true));
    FirstStep(s1, t, true);
    var target := if explicitWg.Some? then explicitWg.value else s0.profiles[profile].value;
    assert s2.threads == map[t := ActWait(role, profile, target)];
    var a := Activation(role, profile, target, 0, None, None);
    var s3 := Exec(s2, Move(t, true));
    assert s3.threads == map[t := Activating(a, ReadPrior)];
    var rest := ActivationFinishes(s3, t, a, ReadPrior);
    rest := OneMoreGo(s2, t, rest, Activated);
    actions := OneMoreGo(s1, t, rest, Activated);
  }

  function DeRank(phase: DePhase): nat {
    match phase
    case Validate => 4
    case Teardown => 3
    case Recheck => 2
    case ClearRows => 1
  }

  predicate CanDeactivate(s: State, t: Tid, d: Deactivation, phase: DePhase) {
    var active := Active(s.rows, d.role);
    && s.threads == map[t := Deactivating(d, phase)] && s.lock == Some(t)
    && (active.Some? ==> StillSnapshotted(d, active.value))
    && (phase == ClearRows ==> active.Some?)
  }

  lemma DeactivationGoesOn(s: State, t: Tid, d: Deactivation, phase: DePhase)
    requires CanDeactivate(s, t, d, phase)
    ensures var s' := Exec(s, Move(t, true));
      || (s'.threads == map[t := Done(Deactivated)] && s'.lock == None)
      || (s'.threads[t].Deactivating? && s'.threads[t].d == d && DeRank(s'.threads[t].de) < DeRank(phase)
          && CanDeactivate(s', t, d, s'.threads[t].de))
  {
    ActiveIsLive(s.rows, d.role);
    var delta := DeactivateStep(Active(s.rows, d.role), LiveRows(s.rows, d.role), s.profiles, d, phase, true);
    assert MoveStep(s, t, true) == delta;
    assert s.threads[t := delta.pc] == map[t := delta.pc];
  }

  lemma {:induction false} DeactivationFinishes(s: State, t: Tid, d: Deactivation, phase: DePhase) returns (actions: seq<Action>)
    requires CanDeactivate(s, t, d, phase)
    ensures GoesTo(s, t, actions, Deactivated)
    decreases DeRank(phase)
  {
    DeactivationGoesOn(s, t, d, phase);
    var s' := Exec(s, Move(t, true));
    var rest: seq<Action> := [];
    if s'.threads[t].Deactivating? {
      rest := DeactivationFinishes(s', t, d, s'.threads[t].de);
    }
    actions := OneMoreGo(s, t, rest, Deactivated);
  }

  /** From any state a deactivation on its own, all of whose calls succeed, reports success,
      provided its role has no assignment or one that resolves to the interface it names. */
  lemma DeactivationSucceeds(s0: State, t: Tid, role: string, wg: string) returns (actions: seq<Action>)
    requires Initial(s0) && (Active(s0.rows, role).Some? ==> ResolvedIn(Active(s0.rows, role), s0.profiles) == Some(wg))
    ensures GoesTo(Exec(s0, Arrive(t, Deactivate(role, wg))), t, actions, Deactivated)
  {
    var active := Active(s0.rows, role);
    var d0 := Deactivation(role, wg, 0, active, None);
    var d := if active.None? then d0 else d0.(outsideMeta := MetadataWg(s0.profiles, active.value.profile));
    var s1 := Exec(s0, Arrive(t, Deactivate(role, wg)));
    var s2 := Exec(s1, Move(t, true));
    assert s2.threads == map[t := DeSnapshot(d0)];
    var s3 := Exec(s2, Move(t, true));
    assert s3.threads == map[t := DeWait(d)];
    var s4 := Exec(s3, Move(t, true));
    assert s4.threads == map[t := Deactivating(d, Validate)];
    var rest := DeactivationFinishes(s4, t, d, Validate);
    rest := OneMoreGo(s3, t, rest, Deactivated);
    rest := OneMoreGo(s2, t, rest, Deactivated);
    actions := OneMoreGo(s1, t, rest, Deactivated);
  }
}
