/** What the activate/deactivate protocol guarantees in every run, under every
    interleaving and every mix of failing device and store calls. */
module VpnTheorems {
  import opened Prelude
  import opened TunnelStore
  import opened VpnProtocol
  import opened VpnInvariants
  import opened VpnHistory
  import opened VpnRuns

  /** Event `i` of the log still concerns the assignment now in force. */
  predicate Unreset(log: seq<Event>, role: string, i: int) {
    0 <= i < |log| && forall j :: i <= j < |log| ==> !Resets(log[j], role)
  }

  /** `TornSince` holds exactly the interfaces torn down after the last change of the
      role's assignment, read directly off the log. */
  lemma {:induction false} TornSinceMeans(log: seq<Event>, role: string, wg: string)
    ensures wg in TornSince(log, role) <==> exists i :: Unreset(log, role, i) && log[i] == Torn(role, wg)
  {
    if log != [] {
      var n := |log| - 1;
      var before := log[..n];
      TornSinceMeans(before, role, wg);
      if wg in TornSince(log, role) {
        if log[n] == Torn(role, wg) {
          assert Unreset(log, role, n);
        } else {
          var i :| Unreset(before, role, i) && before[i] == Torn(role, wg);
          assert Unreset(log, role, i);
        }
      }
      forall i | Unreset(log, role, i) && log[i] == Torn(role, wg)
        ensures wg in TornSince(log, role)
      {
        assert !Resets(log[n], role);
        if i < n {
          assert Unreset(before, role, i) && before[i] == Torn(role, wg);
        }
      }
    }
  }

  /** A teardown of an interface by a request of another role. */
  predicate TornByAnother(e: Event, role: string, wg: string) {
    e.Torn? && e.role != role && e.wg == wg
  }

  /** The same for teardowns by requests of other roles. */
  lemma {:induction false} TornByOthersMeans(log: seq<Event>, role: string, wg: string)
    ensures wg in TornByOthers(log, role) <==>
      exists i :: Unreset(log, role, i) && TornByAnother(log[i], role, wg)
  {
    if log != [] {
      var n := |log| - 1;
      var before := log[..n];
      TornByOthersMeans(before, role, wg);
      if wg in TornByOthers(log, role) {
        if TornByAnother(log[n], role, wg) {
          assert Unreset(log, role, n);
        } else {
          var i :| Unreset(before, role, i) && TornByAnother(before[i], role, wg);
          assert Unreset(log, role, i);
        }
      }
      forall i | Unreset(log, role, i) && TornByAnother(log[i], role, wg)
        ensures wg in TornByOthers(log, role)
      {
        assert !Resets(log[n], role);
        if i < n {
          assert Unreset(before, role, i) && before[i] == log[i];
        }
      }
    }
  }

  /** Likewise for the clear that failed after a successful teardown. */
  lemma {:induction false} ClearFailedSinceMeans(log: seq<Event>, role: string)
    ensures ClearFailedSince(log, role) <==>
      exists i :: Unreset(log, role, i) && log[i].ClearFailed? && log[i].role == role && log[i].torn.Some?
  {
    if log != [] {
      var n := |log| - 1;
      var before := log[..n];
      ClearFailedSinceMeans(before, role);
      if ClearFailedSince(log, role) {
        if ClearFailedSince(before, role) {
          var i :| Unreset(before, role, i) && before[i].ClearFailed? && before[i].role == role && before[i].torn.Some?;
          assert Unreset(log, role, i);
        } else {
          assert Unreset(log, role, n);
        }
      }
      forall i | Unreset(log, role, i) && log[i].ClearFailed? && log[i].role == role && log[i].torn.Some?
        ensures ClearFailedSince(log, role)
      {
        assert !Resets(log[n], role);
        if i < n {
          assert Unreset(before, role, i) && before[i] == log[i];
        }
      }
    }
  }

  /** At most one request is inside its body. */
  lemma OneBodyAtATime(s0: State, actions: seq<Action>, t: Tid, u: Tid)
    requires Initial(s0)
    requires var s := Run(s0, actions);
      t in s.threads && u in s.threads && InBody(s.threads[t]) && InBody(s.threads[u])
    ensures t == u
  {
    Reachable(s0, actions);
  }

  /** Thread `t`, a deactivation, tears its interface down with its next step. */
  predicate TearsDown(s: State, t: Tid, ok: bool) {
    && t in s.threads && s.threads[t].Deactivating?
    && |Exec(s, Move(t, ok)).log| > |s.log| && Exec(s, Move(t, ok)).log[|s.log|].Torn?
  }

  /** A deactivation tears an interface down only while its role has no active assignment, or
      while the active one is of the snapshotted profile and resolves to the requested
      interface under the metadata of the snapshot. The snapshot is the assignment that was in
      force when it was taken, and its metadata is what the catalog said at a later moment of
      the run, before the lock was taken. Under the catalog of the moment of the teardown the
      active assignment resolves to the requested interface exactly if it names its own or the
      metadata is still that of the snapshot. */
  lemma TeardownIsGuarded(s0: State, actions: seq<Action>, t: Tid, ok: bool)
    requires Initial(s0) && TearsDown(Run(s0, actions), t, ok)
    ensures var s := Run(s0, actions);
      var d := s.threads[t].d;
      var active := Active(s.rows, d.role);
      && Exec(s, Move(t, ok)).log == s.log + [Torn(d.role, d.wg)]
      && d.seen <= |s.log|
      && d.outside == Active(Replay(s0.rows, s.log[..d.seen]), d.role)
      && (exists i :: SnapshotReadAt(s0, actions, i, t, d))
      && (active.Some? ==>
            && d.outside.Some?
            && d.outside.value.profile == active.value.profile
            && Resolve(active.value, d.outsideMeta) == Some(d.wg)
            && (ResolvedIn(active, s.profiles) == Some(d.wg) <==>
                  || OwnWg(active.value).Some?
                  || MetadataWg(s.profiles, active.value.profile) == d.outsideMeta))
  {
    Reachable(s0, actions);
    var s := Run(s0, actions);
    assert PcOk(s0.rows, s, s.threads[t]);
    var i := SnapshotSomewhere(s0, actions, t);
  }

  /** The active assignment, if any, is on the requested interface by the current catalog. */
  predicate OnRequested(s: State, d: Deactivation) {
    var active := Active(s.rows, d.role);
    active.None? || ResolvedIn(active, s.profiles) == Some(d.wg)
  }

  /** The guard holds by the current catalog in every run from a given state exactly if the
      role's assignment in that state, if it has one, names its own interface: assignments
      written later always do. */
  lemma GuardIsCurrentIff(s0: State, role: string)
    requires Initial(s0)
    ensures (forall actions, t, ok :: TearsDown(Run(s0, actions), t, ok) && Run(s0, actions).threads[t].d.role == role
               ==> OnRequested(Run(s0, actions), Run(s0, actions).threads[t].d))
      <==> (Active(s0.rows, role).None? || OwnWg(Active(s0.rows, role).value).Some?)
  {
    var initial := Active(s0.rows, role);
    if initial.None? || OwnWg(initial.value).Some? {
      forall actions, t, ok | TearsDown(Run(s0, actions), t, ok) && Run(s0, actions).threads[t].d.role == role
        ensures OnRequested(Run(s0, actions), Run(s0, actions).threads[t].d)
      {
        TeardownIsGuarded(s0, actions, t, ok);
        ActiveOrigin(s0, actions, role);
      }
    } else {
      var actions := MetadataMovesOn(s0, 0, role, "0", "1");
      assert TearsDown(Run(s0, actions), 0, true);
    }
  }

  /** The run behind it: the catalog changes between the snapshot and the lock, and the
      interface that the assignment resolved to then is torn down, while the assignment now
      resolves to another. */
  lemma MetadataMovesOn(s0: State, t: Tid, role: string, w0: string, w1: string) returns (actions: seq<Action>)
    requires Initial(s0) && Active(s0.rows, role).Some? && OwnWg(Active(s0.rows, role).value).None? && w0 != w1
    ensures var s := Run(s0, actions);
      && TearsDown(s, t, true) && s.threads[t].d.role == role && s.threads[t].d.wg == w0
      && Active(s.rows, role) == Active(s0.rows, role)
      && ResolvedIn(Active(s.rows, role), s.profiles) == Some(w1)
  {
    var row := Active(s0.rows, role);
    var d := Deactivation(role, w0, 0, row, Some(w0));
    actions := MovedRun(s0, t, d, w1);
    var s := Run(s0, actions);
    assert Exec(s, Move(t, true)).log == [Torn(role, w0)];
  }

  /** When a deactivation reports success, its interface was torn down by it and its role
      has no active assignment left. */
  lemma {:induction false} DeactivatedLeavesNone(s0: State, actions: seq<Action>, t: Tid, ok: bool)
    requires Initial(s0)
    requires var s := Run(s0, actions); var s' := Exec(s, Move(t, ok));
      t in s.threads && s.threads[t].Deactivating? && s'.threads[t] == Done(Deactivated)
    ensures var s := Run(s0, actions); var s' := Exec(s, Move(t, ok));
      var d := s.threads[t].d;
      && Active(s'.rows, d.role) == None
      && (s'.log == s.log || s'.log == s.log + [Cleared(d.role)])
      && s.log != [] && s.log[|s.log| - 1] == Torn(d.role, d.wg)
      && s'.lock == None
  {
    Reachable(s0, actions);
    var s := Run(s0, actions);
    var d := s.threads[t].d;
    assert PcOk(s0.rows, s, s.threads[t]);
    RowsStep(s.rows, Cleared(d.role), d.role);
  }

  /** Whenever the lock is free, an active assignment names an interface that requests for
      its role tore down since it was written if, and only if, the clear that should have
      followed a successful teardown failed and nothing has replaced it since. An assignment
      that names no interface itself has any teardown behind it under the same condition.
      The log shows a teardown of its interface by anyone, since it was written, if and only
      if that holds or the log shows one by a request of another role. */
  lemma StaleExactlyWhenClearFailed(s0: State, actions: seq<Action>, role: string)
    requires Initial(s0)
    requires var s := Run(s0, actions); s.lock == None && Active(s.rows, role).Some?
    ensures var s := Run(s0, actions);
      var own := OwnWg(Active(s.rows, role).value);
      && (TornSince(s.log, role) != {} <==> ClearFailedSince(s.log, role))
      && (own.Some? ==>
            && (own.value in TornSince(s.log, role) <==> ClearFailedSince(s.log, role))
            && ((exists i :: Unreset(s.log, role, i) && s.log[i].Torn? && s.log[i].wg == own.value) <==>
                  || ClearFailedSince(s.log, role)
                  || exists i :: Unreset(s.log, role, i) && TornByAnother(s.log[i], role, own.value)))
  {
    Reachable(s0, actions);
    var s := Run(s0, actions);
    assert RoleOk(s, role);
    var own := OwnWg(Active(s.rows, role).value);
    if own.Some? { TornSinceMeans(s.log, role, own.value); }
  }

  /** The exception is real: from any state whose active assignment names an interface, an
      activation of another profile whose clear fails leaves the assignment active with its
      interface torn down. */
  lemma FailedClearLeavesStale(s0: State, t: Tid, role: string, profile: string, wg: string)
    requires Initial(s0) && Active(s0.rows, role).Some?
    requires Active(s0.rows, role).value.profile != profile && profile in s0.profiles
    requires OwnWg(Active(s0.rows, role).value).Some?
    ensures var own := OwnWg(Active(s0.rows, role).value).value;
      var s := Run(s0, [Arrive(t, Activate(role, profile, Some(wg))),
                        Move(t, true), Move(t, true), Move(t, true), Move(t, true), Move(t, false)]);
      && s.lock == None && s.rows == s0.rows
      && s.threads == map[t := Done(ActivateFailed)]
      && own in TornSince(s.log, role)
  {
    var row := Active(s0.rows, role).value;
    var a := Activation(role, profile, wg, 0, None, None);
    FailingRun(s0, t, a, a.(prior := Some(row), priorWg := OwnWg(row)), wg);
    TornThenFailed(role, OwnWg(row).value);
  }

  /** When an activation reports success, its role has exactly one live assignment, naming
      the profile and its interface; everything logged since it took the lock is its own
      trace; and the assignment in force when it took the lock was dealt with first. What that
      assignment resolved to is by the catalog of the moment, under the lock, at which the
      body read it. */
  lemma {:induction false} ActivatedReplacesPrior(s0: State, actions: seq<Action>, t: Tid, ok: bool)
    requires Initial(s0)
    requires var s := Run(s0, actions); var s' := Exec(s, Move(t, ok));
      t in s.threads && s.threads[t].Activating? && s'.threads[t] == Done(Activated)
    ensures var s := Run(s0, actions); var s' := Exec(s, Move(t, ok));
      var a := s.threads[t].a;
      && LiveRows(s'.rows, a.role) == [NewRow(a)]
      && Active(s'.rows, a.role) == Some(NewRow(a))
      && a.profile in s'.profiles && s'.profiles[a.profile] == Some(a.target)
      && a.mark <= |s'.log|
      && a.prior == Active(Replay(s0.rows, s'.log[..a.mark]), a.role)
      && (exists i :: ReadPriorAt(s0, actions, i, t, a)
            && ReplacedCleanly(a.prior, ResolvedIn(a.prior, At(s0, actions, i).profiles),
                               a.role, a.profile, a.target, s'.log[a.mark..]))
  {
    Reachable(s0, actions);
    var s := Run(s0, actions);
    var a := s.threads[t].a;
    assert PcOk(s0.rows, s, s.threads[t]);
    assert s.threads[t].act.MergeMetadata?;
    var i := ReadPriorSomewhere(s0, actions, t);
    TraceMeaning(a);
    assert ReadPriorAt(s0, actions, i, t, a);
  }

  /** Nothing comes before the new tunnel if there was no assignment, or it was the same
      profile on the same interface. Otherwise the interface it resolved to is torn down and
      the assignment is cleared, in that order; if it resolved to none, it was of the same
      profile and is cleared. */
  predicate ReplacedCleanly(
    prior: Option<Row>, priorWg: Option<string>, role: string, profile: string, target: string, mine: seq<Event>)
  {
    var row := Row(role, profile, Some(target), Some(target), true, false);
    var applied := [Applied(role, profile, target), Retired(role), Written(role, row)];
    if prior.None? || (prior.value.profile == profile && priorWg == Some(target)) then mine == applied
    else if priorWg.Some? then mine == [Torn(role, priorWg.value), Cleared(role)] + applied
    else prior.value.profile == profile && mine == [Cleared(role)] + applied
  }

  lemma TraceMeaning(a: Activation)
    requires PriorRead(a)
    ensures ReplacedCleanly(a.prior, a.priorWg, a.role, a.profile, a.target, ActivationTrace(a))
  {
  }

  /** Every way an activation can fail: the assignment in force is untouched and its
      interface was not torn down, or the interface it resolved to when the body read it was
      torn down and its clear failed, or none is left because it was cleared or retired on the
      usual way, or the new assignment is already written and only the metadata update
      failed. */
  lemma FailedActivationExits(s0: State, actions: seq<Action>, t: Tid, ok: bool)
    requires Initial(s0)
    requires var s := Run(s0, actions); var s' := Exec(s, Move(t, ok));
      t in s.threads && s.threads[t].Activating? && s'.threads[t] == Done(ActivateFailed)
    ensures var s := Run(s0, actions); var s' := Exec(s, Move(t, ok));
      var a := s.threads[t].a;
      var active := Active(s'.rows, a.role);
      && s'.lock == None
      && a.mark <= |s'.log|
      && FailedExit(Active(Replay(s0.rows, s'.log[..a.mark]), a.role), active, a, s'.log[a.mark..])
      && (PastRead(s.threads[t]) ==> exists i :: ReadPriorAt(s0, actions, i, t, a))
  {
    if PastRead(Run(s0, actions).threads[t]) { var i := ReadPriorSomewhere(s0, actions, t); }
    Reachable(s0, actions);
    var s := Run(s0, actions);
    var a, phase := s.threads[t].a, s.threads[t].act;
    var active, live := Active(s.rows, a.role), LiveRows(s.rows, a.role);
    var delta := ActivateStep(active, live, s.profiles, a, phase, ok);
    assert PcOk(s0.rows, s, s.threads[t]);
    ActiveIsLive(s.rows, a.role);
    var prior := Active(Replay(s0.rows, s.log[..a.mark]), a.role);
    if phase.ReadPrior? { assert s.log[..a.mark] == s.log; }
    PhaseExit(prior, active, live, s.profiles, a, s.log[a.mark..], phase, ok);
    CommitFailed(s, t, delta, a.mark);
  }

  /** A failing exit gives up the lock and changes no assignment. */
  lemma CommitFailed(s: State, t: Tid, delta: Delta, mark: nat)
    requires s.lock == Some(t) && mark <= |s.log| && delta.pc == Done(ActivateFailed)
    requires delta.event.Some? ==> delta.event.value.ClearFailed?
    ensures var s' := Commit(s, t, delta);
      && s'.lock == None && s'.rows == s.rows && mark <= |s'.log|
      && s'.log[..mark] == s.log[..mark]
      && s'.log[mark..] == if delta.event.None? then s.log[mark..] else s.log[mark..] + [delta.event.value]
  {
  }

  ghost predicate FailedExit(prior: Option<Row>, active: Option<Row>, a: Activation, mine: seq<Event>) {
    || (active == prior && (mine == [] || mine == [Applied(a.role, a.profile, a.target)]))
    || (active == prior && mine == [ClearFailed(a.role, None)])
    || (active == prior == a.prior && a.priorWg.Some?
        && mine == [Torn(a.role, a.priorWg.value), ClearFailed(a.role, a.priorWg)])
    || (active == None && prior == a.prior && BeforeApply(a) <= mine < ActivationTrace(a)
        && (Kept(a) ==> Retired(a.role) in mine))
    || (active == Some(NewRow(a)) && mine == ActivationTrace(a))
  }

  lemma PhaseExit(
    prior: Option<Row>, active: Option<Row>, live: seq<Row>, profiles: map<string, Option<string>>,
    a: Activation, mine: seq<Event>, phase: ActPhase, ok: bool)
    requires PhaseOk(mine, active, live, a, phase) && (active.Some? ==> |live| > 0)
    requires if phase.ReadPrior? then active == prior else a.prior == prior
    requires live == [] ==> active == None
    requires ActivateStep(active, live, profiles, a, phase, ok).pc == Done(ActivateFailed)
    ensures var delta := ActivateStep(active, live, profiles, a, phase, ok);
      && (delta.event.Some? ==> delta.event.value.ClearFailed?)
      && FailedExit(prior, active, a, if delta.event.None? then mine else mine + [delta.event.value])
  {
    if phase.ClearPrior? && a.priorWg.Some? {
      assert mine + [ClearFailed(a.role, a.priorWg)] == [Torn(a.role, a.priorWg.value), ClearFailed(a.role, a.priorWg)];
    } else if phase.ClearPrior? {
      assert mine + [ClearFailed(a.role, a.priorWg)] == [ClearFailed(a.role, None)];
    } else if phase.RetireRows? && Kept(a) {
      assert mine == [Applied(a.role, a.profile, a.target)];
    } else if phase.InsertRow? {
      assert mine[|BeforeApply(a)| + 1] == Retired(a.role);
    }
  }
}
