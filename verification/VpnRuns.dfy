/** Particular runs of a single request, step by step. */
module VpnRuns {
  import opened Prelude
  import opened TunnelStore
  import opened VpnProtocol
  import opened VpnInvariants

  /** A state in which `t` is the only request there has been and the table is untouched. */
  function Solo(s0: State, t: Tid, pc: Pc, log: seq<Event>, lock: Option<Tid>): State {
    State(s0.rows, s0.profiles, log, lock, map[t := pc])
  }

  lemma SoloStep(s0: State, t: Tid, pc: Pc, log: seq<Event>, lock: Option<Tid>, ok: bool, delta: Delta)
    requires Enabled(Solo(s0, t, pc, log, lock), Move(t, ok))
    requires delta == MoveStep(Solo(s0, t, pc, log, lock), t, ok) && delta.profiles == s0.profiles
    requires delta.event.Some? ==> delta.event.value.Torn? || delta.event.value.ClearFailed?
    requires lock == None || lock == Some(t)
    ensures Exec(Solo(s0, t, pc, log, lock), Move(t, ok)) ==
      Solo(s0, t, delta.pc, if delta.event.None? then log else log + [delta.event.value],
           if InBody(delta.pc) then Some(t) else None)
  {
    assert map[t := pc][t := delta.pc] == map[t := delta.pc];
  }

  /** A run is given by its actions and the states it passes through. */
  lemma {:induction false} RunOf(acts: seq<Action>, states: seq<State>)
    requires |states| == |acts| + 1
    requires forall i :: 0 <= i < |acts| ==> states[i + 1] == Exec(states[i], acts[i])
    ensures Run(states[0], acts) == states[|acts|]
  {
    if acts != [] {
      RunOf(acts[..|acts| - 1], states[..|acts|]);
    }
  }

  lemma Arrival(s0: State, t: Tid, req: Request)
    requires Initial(s0)
    ensures Exec(s0, Arrive(t, req)) == Solo(s0, t, Begin(req), [], None)
  {
  }

  lemma EnterActivation(s0: State, t: Tid, a: Activation, wg: string)
    requires a.profile in s0.profiles && wg == a.target
    requires a == Activation(a.role, a.profile, a.target, 0, None, None)
    ensures var req := Activate(a.role, a.profile, Some(wg));
      var wait := ActWait(a.role, a.profile, a.target);
      && Exec(Solo(s0, t, Begin(req), [], None), Move(t, true)) == Solo(s0, t, wait, [], None)
      && Exec(Solo(s0, t, wait, [], None), Move(t, true)) == Solo(s0, t, Activating(a, ReadPrior), [], Some(t))
  {
    SoloStep(s0, t, Begin(Activate(a.role, a.profile, Some(wg))), [], None, true,
             Delta(ActWait(a.role, a.profile, a.target), None, s0.profiles));
    SoloStep(s0, t, ActWait(a.role, a.profile, a.target), [], None, true,
             Delta(Activating(a, ReadPrior), None, s0.profiles));
  }

  lemma ReadOther(s0: State, t: Tid, a: Activation, a': Activation)
    requires Active(s0.rows, a.role).Some? && Active(s0.rows, a.role).value.profile != a.profile
    requires OwnWg(Active(s0.rows, a.role).value).Some?
    requires a' == a.(prior := Active(s0.rows, a.role), priorWg := OwnWg(Active(s0.rows, a.role).value))
    ensures Exec(Solo(s0, t, Activating(a, ReadPrior), [], Some(t)), Move(t, true))
         == Solo(s0, t, Activating(a', TeardownPrior), [], Some(t))
  {
    var row := Active(s0.rows, a.role).value;
    assert Resolve(row, MetadataWg(s0.profiles, row.profile)) == OwnWg(row);
    assert ReadPriorStep(Some(row), s0.profiles, a) == Activating(a', TeardownPrior);
    SoloStep(s0, t, Activating(a, ReadPrior), [], Some(t), true,
             Delta(Activating(a', TeardownPrior), None, s0.profiles));
  }

  lemma FailActivation(s0: State, t: Tid, a: Activation)
    requires a.priorWg.Some?
    ensures var torn := Torn(a.role, a.priorWg.value);
      && Exec(Solo(s0, t, Activating(a, TeardownPrior), [], Some(t)), Move(t, true))
         == Solo(s0, t, Activating(a, ClearPrior), [torn], Some(t))
      && Exec(Solo(s0, t, Activating(a, ClearPrior), [torn], Some(t)), Move(t, false))
         == Solo(s0, t, Done(ActivateFailed), [torn, ClearFailed(a.role, a.priorWg)], None)
  {
    var torn := Torn(a.role, a.priorWg.value);
    SoloStep(s0, t, Activating(a, TeardownPrior), [], Some(t), true,
             Delta(Activating(a, ClearPrior), Some(torn), s0.profiles));
    SoloStep(s0, t, Activating(a, ClearPrior), [torn], Some(t), false,
             Delta(Done(ActivateFailed), Some(ClearFailed(a.role, a.priorWg)), s0.profiles));
  }

  lemma TornThenFailed(role: string, wg: string)
    ensures wg in TornSince([Torn(role, wg), ClearFailed(role, Some(wg))], role)
  {
    var torn, failed := Torn(role, wg), ClearFailed(role, Some(wg));
    LogStep([], [], torn, role);
    LogStep([], [torn], failed, role);
    assert [] + [torn] == [torn] && [torn] + [failed] == [torn, failed];
  }

  lemma EnterDeactivation(s0: State, t: Tid, d: Deactivation, wg: string)
    requires Active(s0.rows, d.role) == None && wg == d.wg
    requires d == Deactivation(d.role, d.wg, 0, None, None)
    ensures Exec(Solo(s0, t, Begin(Deactivate(d.role, wg)), [], None), Move(t, true)) == Solo(s0, t, DeSnapshot(d), [], None)
  {
    SoloStep(s0, t, Begin(Deactivate(d.role, wg)), [], None, true, Delta(DeSnapshot(d), None, s0.profiles));
  }

  lemma LockDeactivation(s0: State, t: Tid, d: Deactivation)
    requires d.outside == None
    ensures
      && Exec(Solo(s0, t, DeSnapshot(d), [], None), Move(t, true)) == Solo(s0, t, DeWait(d), [], None)
      && Exec(Solo(s0, t, DeWait(d), [], None), Move(t, true)) == Solo(s0, t, Deactivating(d, Validate), [], Some(t))
  {
    SoloStep(s0, t, DeSnapshot(d), [], None, true, Delta(DeWait(d), None, s0.profiles));
    SoloStep(s0, t, DeWait(d), [], None, true, Delta(Deactivating(d, Validate), None, s0.profiles));
  }

  lemma RunBlindTeardown(s0: State, t: Tid, d: Deactivation)
    requires Active(s0.rows, d.role) == None && d.outside == None
    ensures var torn := Torn(d.role, d.wg);
      && Exec(Solo(s0, t, Deactivating(d, Validate), [], Some(t)), Move(t, true))
         == Solo(s0, t, Deactivating(d, Teardown), [], Some(t))
      && Exec(Solo(s0, t, Deactivating(d, Teardown), [], Some(t)), Move(t, true))
         == Solo(s0, t, Deactivating(d, Recheck), [torn], Some(t))
      && Exec(Solo(s0, t, Deactivating(d, Recheck), [torn], Some(t)), Move(t, true))
         == Solo(s0, t, Done(Deactivated), [torn], None)
  {
    var torn := Torn(d.role, d.wg);
    SoloStep(s0, t, Deactivating(d, Validate), [], Some(t), true, Delta(Deactivating(d, Teardown), None, s0.profiles));
    SoloStep(s0, t, Deactivating(d, Teardown), [], Some(t), true,
             Delta(Deactivating(d, Recheck), Some(torn), s0.profiles));
    SoloStep(s0, t, Deactivating(d, Recheck), [torn], Some(t), true, Delta(Done(Deactivated), None, s0.profiles));
  }

  lemma FailingRun(s0: State, t: Tid, a: Activation, a': Activation, wg: string)
    requires Initial(s0) && Active(s0.rows, a.role).Some? && OwnWg(Active(s0.rows, a.role).value).Some?
    requires Active(s0.rows, a.role).value.profile != a.profile && a.profile in s0.profiles
    requires wg == a.target && a == Activation(a.role, a.profile, a.target, 0, None, None)
    requires a' == a.(prior := Active(s0.rows, a.role), priorWg := OwnWg(Active(s0.rows, a.role).value))
    ensures Run(s0, [Arrive(t, Activate(a.role, a.profile, Some(wg))),
                     Move(t, true), Move(t, true), Move(t, true), Move(t, true), Move(t, false)])
         == Solo(s0, t, Done(ActivateFailed), [Torn(a.role, a'.priorWg.value), ClearFailed(a.role, a'.priorWg)], None)
  {
    var req := Activate(a.role, a.profile, Some(wg));
    var torn := Torn(a.role, a'.priorWg.value);
    Arrival(s0, t, req);
    EnterActivation(s0, t, a, wg);
    ReadOther(s0, t, a, a');
    FailActivation(s0, t, a');
    var go := Move(t, true);
    RunOf([Arrive(t, req), go, go, go, go, Move(t, false)],
          [s0, Solo(s0, t, Begin(req), [], None), Solo(s0, t, ActWait(a.role, a.profile, a.target), [], None),
           Solo(s0, t, Activating(a, ReadPrior), [], Some(t)), Solo(s0, t, Activating(a', TeardownPrior), [], Some(t)),
           Solo(s0, t, Activating(a', ClearPrior), [torn], Some(t)),
           Solo(s0, t, Done(ActivateFailed), [torn, ClearFailed(a.role, a'.priorWg)], None)]);
  }

  /** A catalog change with one request in flight. */
  lemma SoloCatalog(s0: State, t: Tid, pc: Pc, log: seq<Event>, lock: Option<Tid>, profiles: map<string, Option<string>>)
    ensures Exec(Solo(s0, t, pc, log, lock), Catalog(profiles)) == Solo(s0.(profiles := profiles), t, pc, log, lock)
  {
  }

  /** A deactivation takes its snapshot while the catalog says `d.wg`, and reaches its teardown
      after the catalog has moved on to `moved`. */
  lemma MovedRun(s0: State, t: Tid, d: Deactivation, moved: string) returns (actions: seq<Action>)
    requires Initial(s0) && Active(s0.rows, d.role).Some? && OwnWg(Active(s0.rows, d.role).value).None?
    requires d == Deactivation(d.role, d.wg, 0, Active(s0.rows, d.role), Some(d.wg))
    ensures Run(s0, actions) ==
      Solo(s0.(profiles := map[d.outside.value.profile := Some(moved)]), t, Deactivating(d, Teardown), [], Some(t))
  {
    var profile := d.outside.value.profile;
    var was, now := map[profile := Some(d.wg)], map[profile := Some(moved)];
    var s1, s2 := s0.(profiles := was), s0.(profiles := now);
    var req, go, d0 := Deactivate(d.role, d.wg), Move(t, true), d.(outsideMeta := None);
    Arrival(s1, t, req);
    SoloStep(s1, t, Begin(req), [], None, true, Delta(DeSnapshot(d0), None, was));
    SoloStep(s1, t, DeSnapshot(d0), [], None, true, Delta(DeWait(d), None, was));
    SoloCatalog(s1, t, DeWait(d), [], None, now);
    SoloStep(s2, t, DeWait(d), [], None, true, Delta(Deactivating(d, Validate), None, now));
    SoloStep(s2, t, Deactivating(d, Validate), [], Some(t), true, Delta(Deactivating(d, Teardown), None, now));
    actions := [Catalog(was), Arrive(t, req), go, go, Catalog(now), go, go];
    RunOf(actions, [s0, s1, Solo(s1, t, Begin(req), [], None), Solo(s1, t, DeSnapshot(d0), [], None),
                    Solo(s1, t, DeWait(d), [], None), Solo(s2, t, DeWait(d), [], None),
                    Solo(s2, t, Deactivating(d, Validate), [], Some(t)),
                    Solo(s2, t, Deactivating(d, Teardown), [], Some(t))]);
  }

  /** A deactivation, every call of which succeeds. */
  function BlindRun(t: Tid, role: string, wg: string): seq<Action> {
    var go := Move(t, true);
    [Arrive(t, Deactivate(role, wg)), go, go, go, go, go, go]
  }

  lemma BlindRunEnds(s0: State, t: Tid, idle: string, wg: string)
    requires Initial(s0) && Active(s0.rows, idle) == None
    ensures Run(s0, BlindRun(t, idle, wg)) == Solo(s0, t, Done(Deactivated), [Torn(idle, wg)], None)
  {
    var req := Deactivate(idle, wg);
    var d := Deactivation(idle, wg, 0, None, None);
    Arrival(s0, t, req);
    EnterDeactivation(s0, t, d, wg);
    LockDeactivation(s0, t, d);
    RunBlindTeardown(s0, t, d);
    RunOf(BlindRun(t, idle, wg),
          [s0, Solo(s0, t, Begin(req), [], None), Solo(s0, t, DeSnapshot(d), [], None),
           Solo(s0, t, DeWait(d), [], None), Solo(s0, t, Deactivating(d, Validate), [], Some(t)),
           Solo(s0, t, Deactivating(d, Teardown), [], Some(t)),
           Solo(s0, t, Deactivating(d, Recheck), [Torn(idle, wg)], Some(t)),
           Solo(s0, t, Done(Deactivated), [Torn(idle, wg)], None)]);
  }
}
