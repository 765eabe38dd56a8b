/** When a request read what it acts on: the moment in the run, and the catalog of that
    moment. Profile metadata may change between a request's reads and its actions. */
module VpnHistory {
  import opened Prelude
  import opened TunnelStore
  import opened VpnProtocol
  import opened VpnInvariants

  /** The state before action `i`. */
  function At(s0: State, actions: seq<Action>, i: nat): State
    requires i <= |actions|
  {
    Run(s0, actions[..i])
  }

  /** The interface an assignment resolves to under a catalog. */
  function ResolvedIn(row: Option<Row>, profiles: map<string, Option<string>>): Option<string> {
    if row.None? then None else Resolve(row.value, MetadataWg(profiles, row.value.profile))
  }

  /** With action `i` activation `a` of thread `t`, holding the lock since the log was
      `a.mark` long, read the assignment in force and the metadata it resolves with. */
  ghost predicate ReadPriorAt(s0: State, actions: seq<Action>, i: nat, t: Tid, a: Activation) {
    i < |actions| && actions[i].Move? && actions[i].t == t &&
    var m := At(s0, actions, i);
    && t in m.threads && m.threads[t] == Activating(a.(prior := None, priorWg := None), ReadPrior)
    && a.prior == Active(m.rows, a.role)
    && a.priorWg == ResolvedIn(a.prior, m.profiles)
  }

  /** With action `i` deactivation `d` of thread `t` read the metadata of the profile it had
      found assigned, and went on because the assignment resolves to its interface. */
  ghost predicate SnapshotReadAt(s0: State, actions: seq<Action>, i: nat, t: Tid, d: Deactivation) {
    i < |actions| && actions[i].Move? && actions[i].t == t &&
    var m := At(s0, actions, i);
    && t in m.threads && m.threads[t] == DeSnapshot(d.(outsideMeta := None))
    && d.outsideMeta == (if d.outside.None? then None else MetadataWg(m.profiles, d.outside.value.profile))
    && (d.outside.Some? ==> Resolve(d.outside.value, d.outsideMeta) == Some(d.wg))
  }

  predicate PastRead(pc: Pc) {
    pc.Activating? && !pc.act.ReadPrior?
  }

  predicate PastSnapshot(pc: Pc) {
    pc.DeWait? || pc.Deactivating?
  }

  /** How a step brings a thread past its read: it reads now, or it had read before. */
  lemma ActivationStepReads(s: State, t: Tid, ok: bool)
    requires Enabled(s, Move(t, ok)) && PastRead(MoveStep(s, t, ok).pc)
    requires s.threads[t].Activating? && s.threads[t].act.ReadPrior? ==>
      s.threads[t].a.prior == None && s.threads[t].a.priorWg == None
    ensures var a := MoveStep(s, t, ok).pc.a;
      || (PastRead(s.threads[t]) && s.threads[t].a == a)
      || (&& s.threads[t] == Activating(a.(prior := None, priorWg := None), ReadPrior)
          && a.prior == Active(s.rows, a.role) && a.priorWg == ResolvedIn(a.prior, s.profiles))
  {
  }

  lemma DeactivationStepReads(s: State, t: Tid, ok: bool)
    requires Enabled(s, Move(t, ok)) && PastSnapshot(MoveStep(s, t, ok).pc)
    requires s.threads[t].DeSnapshot? ==> s.threads[t].d.outsideMeta == None
    ensures var d := MoveStep(s, t, ok).pc.d;
      || (PastSnapshot(s.threads[t]) && s.threads[t].d == d)
      || (&& s.threads[t] == DeSnapshot(d.(outsideMeta := None))
          && d.outsideMeta == (if d.outside.None? then None else MetadataWg(s.profiles, d.outside.value.profile))
          && (d.outside.Some? ==> Resolve(d.outside.value, d.outsideMeta) == Some(d.wg)))
  {
  }

  /** A step of one thread leaves the others where they are. */
  lemma OthersStay(s: State, a: Action, t: Tid)
    requires t in Exec(s, a).threads && !Exec(s, a).threads[t].Begin?
    requires !(a.Move? && a.t == t && Enabled(s, a))
    ensures t in s.threads && s.threads[t] == Exec(s, a).threads[t]
  {
  }

  lemma Earlier(s0: State, actions: seq<Action>, i: nat)
    requires actions != [] && i < |actions|
    ensures At(s0, actions, i) == At(s0, actions[..|actions| - 1], i)
  {
    assert actions[..|actions| - 1][..i] == actions[..i];
  }

  /** Every activation past its read has read at some moment of the run. */
  lemma {:induction false} ReadPriorSomewhere(s0: State, actions: seq<Action>, t: Tid) returns (i: nat)
    requires Initial(s0)
    requires t in Run(s0, actions).threads && PastRead(Run(s0, actions).threads[t])
    ensures ReadPriorAt(s0, actions, i, t, Run(s0, actions).threads[t].a)
  {
    var n := |actions| - 1;
    var before, last := actions[..n], actions[n];
    var p := Run(s0, before);
    Reachable(s0, before);
    if last.Move? && last.t == t && Enabled(p, last) {
      assert PcOk(s0.rows, p, p.threads[t]);
      ActivationStepReads(p, t, last.ok);
      if PastRead(p.threads[t]) {
        i := ReadPriorSomewhere(s0, before, t);
        Earlier(s0, actions, i);
      } else {
        i := n;
      }
    } else {
      OthersStay(p, last, t);
      i := ReadPriorSomewhere(s0, before, t);
      Earlier(s0, actions, i);
    }
  }

  lemma SnapshotBegins(s: State, t: Tid, ok: bool)
    requires Enabled(s, Move(t, ok)) && MoveStep(s, t, ok).pc.DeSnapshot?
    ensures MoveStep(s, t, ok).pc.d.outsideMeta == None
  {
  }

  /** A snapshot that is not complete has no metadata yet. */
  lemma {:induction false} NoMetadataYet(s0: State, actions: seq<Action>, t: Tid)
    requires Initial(s0)
    requires t in Run(s0, actions).threads && Run(s0, actions).threads[t].DeSnapshot?
    ensures Run(s0, actions).threads[t].d.outsideMeta == None
  {
    var n := |actions| - 1;
    var before, last := actions[..n], actions[n];
    var p := Run(s0, before);
    if last.Move? && last.t == t && Enabled(p, last) {
      SnapshotBegins(p, t, last.ok);
    } else {
      OthersStay(p, last, t);
      NoMetadataYet(s0, before, t);
    }
  }

  /** Every deactivation past its snapshot has completed it at some moment of the run. */
  lemma {:induction false} SnapshotSomewhere(s0: State, actions: seq<Action>, t: Tid) returns (i: nat)
    requires Initial(s0)
    requires t in Run(s0, actions).threads && PastSnapshot(Run(s0, actions).threads[t])
    ensures SnapshotReadAt(s0, actions, i, t, Run(s0, actions).threads[t].d)
  {
    var n := |actions| - 1;
    var before, last := actions[..n], actions[n];
    var p := Run(s0, before);
    if last.Move? && last.t == t && Enabled(p, last) {
      if p.threads[t].DeSnapshot? { NoMetadataYet(s0, before, t); }
      DeactivationStepReads(p, t, last.ok);
      if PastSnapshot(p.threads[t]) {
        i := SnapshotSomewhere(s0, before, t);
        Earlier(s0, actions, i);
      } else {
        i := n;
      }
    } else {
      OthersStay(p, last, t);
      i := SnapshotSomewhere(s0, before, t);
      Earlier(s0, actions, i);
    }
  }

  // ---- which assignments name their interface ----

  /** An assignment in force is the initial one, or was written by an activation and names
      its interface. */
  predicate Origin(initial: Option<Row>, active: Option<Row>) {
    active.None? || active == initial || OwnWg(active.value).Some?
  }

  lemma WrittenIsNamed(s: State, t: Tid, ok: bool)
    requires Enabled(s, Move(t, ok))
    ensures var e := MoveStep(s, t, ok).event; e.Some? && e.value.Written? ==> OwnWg(e.value.row).Some?
  {
  }

  lemma EventOrigin(s: State, t: Tid, ok: bool, role: string, initial: Option<Row>)
    requires Enabled(s, Move(t, ok)) && Origin(initial, Active(s.rows, role))
    ensures Origin(initial, Active(Exec(s, Move(t, ok)).rows, role))
  {
    var delta := MoveStep(s, t, ok);
    WrittenIsNamed(s, t, ok);
    CommitOrigin(s, t, delta, role, initial);
  }

  lemma CommitOrigin(s: State, t: Tid, delta: Delta, role: string, initial: Option<Row>)
    requires Origin(initial, Active(s.rows, role))
    requires delta.event.Some? && delta.event.value.Written? ==> OwnWg(delta.event.value.row).Some?
    ensures Origin(initial, Active(Commit(s, t, delta).rows, role))
  {
    if delta.event.Some? { RowsStep(s.rows, delta.event.value, role); }
  }

  lemma {:induction false} ActiveOrigin(s0: State, actions: seq<Action>, role: string)
    ensures Origin(Active(s0.rows, role), Active(Run(s0, actions).rows, role))
  {
    if actions != [] {
      var before, last := actions[..|actions| - 1], actions[|actions| - 1];
      ActiveOrigin(s0, before, role);
      if last.Move? && Enabled(Run(s0, before), last) {
        EventOrigin(Run(s0, before), last.t, last.ok, role, Active(s0.rows, role));
      }
    }
  }
}
