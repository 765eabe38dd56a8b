/** Catalog removals beside activations on any number of routers. A removal checks that its
    profile is not active, revokes the secrets that belong to it alone, checks again and retires
    it. Each store call is atomic; what may come in between depends on the apply locks. */
module CatalogRemoval {
  import opened Prelude
  import opened ApplyLocks

  /** `revoked`: a removal has revoked a secret of the profile. */
  datatype Profile = Profile(retired: bool, revoked: bool)

  /** A request waits for its locks, runs its body, and ends. `exclusive` says whether the
      profile has secrets of its own. */
  datatype Task =
    | Activation(router: string, role: string, profile: string)
    | Removal(listing: seq<string>, profile: string, exclusive: bool)

  datatype Phase = Waiting | Entered | Applied | Prepared | Revoked | Ended

  datatype Thread = Thread(task: Task, phase: Phase)

  /** `active` maps router and role to the profile of the active assignment. */
  datatype Registry = Registry(
    profiles: map<string, Profile>, active: map<(string, string), string>, threads: map<nat, Thread>)

  /** `ok` is the outcome of the device, the vault, or a gate that refuses for other reasons.
      Deactivations and prior teardowns clear assignments at any time. */
  datatype Event = Arrive(t: nat, task: Task) | Move(t: nat, ok: bool) | Clear(router: string, role: string)

  function Locks(task: Task): seq<string> {
    match task
    case Activation(router, _, _) => LockNames([router])
    case Removal(listing, _, _) => LockNames(RemovalKeys(listing))
  }

  predicate InBody(thread: Thread) {
    thread.phase != Waiting && thread.phase != Ended
  }

  predicate Share(a: Task, b: Task) {
    exists k :: k in Locks(a) && k in Locks(b)
  }

  /** Requests that share a lock are never in their bodies together; others may be. */
  ghost predicate CanEnter(s: Registry, t: nat)
    requires t in s.threads
  {
    forall u :: u in s.threads && u != t && InBody(s.threads[u]) ==> !Share(s.threads[t].task, s.threads[u].task)
  }

  predicate IsActive(s: Registry, profile: string) {
    profile in s.active.Values
  }

  /** The gates of a removal, checked before anything is revoked and again at the end. */
  predicate Removable(s: Registry, profile: string) {
    profile in s.profiles && !s.profiles[profile].retired && !IsActive(s, profile)
  }

  function Mark(s: Registry, profile: string): Registry {
    if profile in s.profiles then s.(profiles := s.profiles[profile := s.profiles[profile].(revoked := true)]) else s
  }

  function Retire(s: Registry, profile: string): Registry {
    if profile in s.profiles then s.(profiles := s.profiles[profile := s.profiles[profile].(retired := true)]) else s
  }

  function At(s: Registry, t: nat, phase: Phase): Registry
    requires t in s.threads
  {
    s.(threads := s.threads[t := s.threads[t].(phase := phase)])
  }

  ghost function Step(s: Registry, t: nat, ok: bool): Registry
    requires t in s.threads
  {
    match s.threads[t].phase
    case Waiting => if CanEnter(s, t) then At(s, t, Entered) else s
    case Entered => At(s, t, AfterEntry(s, s.threads[t].task, ok))
    case Applied => At(if ok then Upsert(s, s.threads[t].task) else s, t, Ended)
    case Prepared =>
      var marked := if s.threads[t].task.Removal? && s.threads[t].task.exclusive
                    then Mark(s, s.threads[t].task.profile) else s;
      At(marked, t, if ok then Revoked else Ended)
    case Revoked =>
      At(if ok && Removable(s, s.threads[t].task.profile) then Retire(s, s.threads[t].task.profile) else s, t, Ended)
    case Ended => s
  }

  /** Applying a tunnel needs its secrets; a removal goes on only if the gates let it. */
  function AfterEntry(s: Registry, task: Task, ok: bool): Phase {
    match task
    case Activation(_, _, profile) =>
      if ok && !(profile in s.profiles && s.profiles[profile].revoked) then Applied else Ended
    case Removal(_, profile, _) =>
      if ok && Removable(s, profile) then Prepared else Ended
  }

  /** Refused for a profile that is missing or retired; check and write are one store call. */
  function Upsert(s: Registry, task: Task): Registry {
    if task.Activation? && task.profile in s.profiles && !s.profiles[task.profile].retired
    then s.(active := s.active[(task.router, task.role) := task.profile]) else s
  }

  ghost function Exec(s: Registry, e: Event): Registry {
    match e
    case Arrive(t, task) => if t in s.threads then s else s.(threads := s.threads[t := Thread(task, Waiting)])
    case Move(t, ok) => if t in s.threads then Step(s, t, ok) else s
    case Clear(router, role) => s.(active := s.active - {(router, role)})
  }

  ghost function Run(s: Registry, events: seq<Event>): Registry {
    if events == [] then s else Exec(Run(s, events[..|events| - 1]), events[|events| - 1])
  }

  // ---- no active assignment names a retired profile ----

  ghost predicate NoneRetired(s: Registry) {
    forall key :: key in s.active ==> s.active[key] in s.profiles && !s.profiles[s.active[key]].retired
  }

  lemma StepNoneRetired(s: Registry, t: nat, ok: bool)
    requires t in s.threads && NoneRetired(s)
    ensures NoneRetired(Step(s, t, ok))
  {
  }

  /** In every run, whatever the removals lock: check and write of an assignment are one store
      call, and so are the last check and the retirement. */
  lemma {:induction false} NeverActiveAndRetired(s: Registry, events: seq<Event>)
    requires NoneRetired(s)
    ensures NoneRetired(Run(s, events))
  {
    if events != [] {
      var before, e := Run(s, events[..|events| - 1]), events[|events| - 1];
      NeverActiveAndRetired(s, events[..|events| - 1]);
      if e.Move? && e.t in before.threads { StepNoneRetired(before, e.t, e.ok); }
    }
  }

  // ---- no active assignment has lost its secrets ----

  /** No active assignment is of a profile whose secret a removal has revoked. */
  ghost predicate NoneRevoked(s: Registry) {
    forall key :: key in s.active && s.active[key] in s.profiles ==> !s.profiles[s.active[key]].revoked
  }

  predicate IsRevoked(s: Registry, profile: string) {
    profile in s.profiles && s.profiles[profile].revoked
  }

  /** Activations come from the given routers, and removals see the given listing. */
  predicate From(routers: set<string>, listing: seq<string>, task: Task) {
    match task
    case Activation(router, _, _) => router in routers
    case Removal(l, _, _) => l == listing
  }

  ghost predicate ComesFrom(routers: set<string>, listing: seq<string>, events: seq<Event>) {
    forall i :: 0 <= i < |events| && events[i].Arrive? ==> From(routers, listing, events[i].task)
  }

  /** Every router's lock is among those of the removal. */
  ghost predicate AllLocked(routers: set<string>, listing: seq<string>) {
    forall r :: r in routers ==> LockName(r) in LockNames(RemovalKeys(listing))
  }

  /** With every router locked, an activation and a removal are never in their bodies together;
      what an activation has applied is unrevoked, and what a removal has checked is inactive. */
  ghost predicate Inv(routers: set<string>, listing: seq<string>, s: Registry) {
    && NoneRevoked(s)
    && (forall t :: t in s.threads ==> From(routers, listing, s.threads[t].task) && ThreadOk(s, s.threads[t]))
    && (forall t, u :: t in s.threads && u in s.threads && InBody(s.threads[t]) && InBody(s.threads[u]) ==>
          s.threads[t].task.Activation? == s.threads[u].task.Activation?)
  }

  predicate ThreadOk(s: Registry, thread: Thread) {
    && (thread.phase == Applied ==> thread.task.Activation? && !IsRevoked(s, thread.task.profile))
    && (thread.phase == Prepared ==> thread.task.Removal? && !IsActive(s, thread.task.profile))
    && (thread.phase == Revoked ==> thread.task.Removal?)
  }

  lemma AlwaysShare(routers: set<string>, listing: seq<string>, a: Task, b: Task)
    requires AllLocked(routers, listing) && From(routers, listing, a) && From(routers, listing, b)
    requires a.Activation? && b.Removal?
    ensures Share(a, b) && Share(b, a)
  {
    var k := LockName(a.router);
    assert LockNames([a.router])[0] == k;
    assert k in Locks(a) && k in Locks(b);
  }

  lemma EnterKeeps(routers: set<string>, listing: seq<string>, s: Registry, t: nat)
    requires AllLocked(routers, listing) && Inv(routers, listing, s)
    requires t in s.threads && s.threads[t].phase == Waiting && CanEnter(s, t)
    ensures Inv(routers, listing, At(s, t, Entered))
  {
    forall u | u in s.threads && u != t && InBody(s.threads[u])
      ensures s.threads[u].task.Activation? == s.threads[t].task.Activation?
    {
      if s.threads[u].task.Activation? != s.threads[t].task.Activation? {
        if s.threads[t].task.Activation? {
          AlwaysShare(routers, listing, s.threads[t].task, s.threads[u].task);
        } else {
          AlwaysShare(routers, listing, s.threads[u].task, s.threads[t].task);
        }
      }
    }
  }

  lemma PhaseKeeps(routers: set<string>, listing: seq<string>, s: Registry, t: nat, phase: Phase)
    requires Inv(routers, listing, s) && t in s.threads && InBody(s.threads[t])
    requires ThreadOk(s, s.threads[t].(phase := phase))
    ensures Inv(routers, listing, At(s, t, phase))
  {
  }

  lemma UpsertKeeps(routers: set<string>, listing: seq<string>, s: Registry, t: nat)
    requires Inv(routers, listing, s) && t in s.threads && s.threads[t].phase == Applied
    ensures Inv(routers, listing, Upsert(s, s.threads[t].task))
  {
    var s' := Upsert(s, s.threads[t].task);
    assert ThreadOk(s, s.threads[t]);
    forall u | u in s.threads ensures ThreadOk(s', s.threads[u]) {
      assert ThreadOk(s, s.threads[u]);
      assert s.threads[u].phase != Prepared;
    }
  }

  lemma MarkKeeps(routers: set<string>, listing: seq<string>, s: Registry, t: nat)
    requires Inv(routers, listing, s) && t in s.threads && s.threads[t].phase == Prepared
    ensures Inv(routers, listing, Mark(s, s.threads[t].task.profile))
  {
    var s' := Mark(s, s.threads[t].task.profile);
    assert ThreadOk(s, s.threads[t]);
    forall u | u in s.threads ensures ThreadOk(s', s.threads[u]) {
      assert ThreadOk(s, s.threads[u]);
      assert s.threads[u].phase != Applied;
    }
  }

  lemma RetireKeeps(routers: set<string>, listing: seq<string>, s: Registry, profile: string)
    requires Inv(routers, listing, s)
    ensures Inv(routers, listing, Retire(s, profile))
  {
    forall u | u in s.threads ensures ThreadOk(Retire(s, profile), s.threads[u]) { assert ThreadOk(s, s.threads[u]); }
  }

  lemma BodyKeeps(routers: set<string>, listing: seq<string>, s: Registry, t: nat, ok: bool)
    requires Inv(routers, listing, s) && t in s.threads && InBody(s.threads[t])
    ensures Inv(routers, listing, Step(s, t, ok))
  {
    var task := s.threads[t].task;
    assert ThreadOk(s, s.threads[t]);
    match s.threads[t].phase
    case Entered => PhaseKeeps(routers, listing, s, t, AfterEntry(s, task, ok));
    case Applied =>
      UpsertKeeps(routers, listing, s, t);
      PhaseKeeps(routers, listing, if ok then Upsert(s, task) else s, t, Ended);
    case Prepared =>
      MarkKeeps(routers, listing, s, t);
      PhaseKeeps(routers, listing, if task.exclusive then Mark(s, task.profile) else s, t, if ok then Revoked else Ended);
    case Revoked =>
      RetireKeeps(routers, listing, s, task.profile);
      PhaseKeeps(routers, listing, if ok && Removable(s, task.profile) then Retire(s, task.profile) else s, t, Ended);
  }

  lemma {:induction false} RunKeepsInv(routers: set<string>, listing: seq<string>, s: Registry, events: seq<Event>)
    requires AllLocked(routers, listing) && NoneRevoked(s) && s.threads == map[] && ComesFrom(routers, listing, events)
    ensures Inv(routers, listing, Run(s, events))
  {
    if events != [] {
      var before, e := Run(s, events[..|events| - 1]), events[|events| - 1];
      RunKeepsInv(routers, listing, s, events[..|events| - 1]);
      if e.Move? && e.t in before.threads {
        if before.threads[e.t].phase == Waiting {
          if CanEnter(before, e.t) { EnterKeeps(routers, listing, before, e.t); }
        } else if InBody(before.threads[e.t]) {
          BodyKeeps(routers, listing, before, e.t, e.ok);
        }
      }
    }
  }

  /** Every run from every sound state keeps the secrets of active assignments. */
  ghost predicate SecretsKept(routers: set<string>, listing: seq<string>) {
    forall s, events | NoneRetired(s) && NoneRevoked(s) && s.threads == map[] && ComesFrom(routers, listing, events) ::
      NoneRevoked(Run(s, events))
  }

  /** In all runs an active assignment keeps its secrets exactly if the removal locks every
      router that activates. */
  lemma SecretsKeptIff(routers: set<string>, listing: seq<string>)
    ensures SecretsKept(routers, listing) <==> AllLocked(routers, listing)
  {
    if AllLocked(routers, listing) {
      forall s, events | NoneRetired(s) && NoneRevoked(s) && s.threads == map[] && ComesFrom(routers, listing, events)
        ensures NoneRevoked(Run(s, events))
      {
        RunKeepsInv(routers, listing, s, events);
      }
    } else {
      var router :| router in routers && LockName(router) !in LockNames(RemovalKeys(listing));
      var s, events := ActiveLosesSecrets(routers, listing, router);
    }
  }

  /** For generated ids that is: every router that activates is among the first fifty listed. */
  lemma SecretsKeptForListed(routers: set<string>, listing: seq<string>)
    requires CleanIds(listing) && forall r :: r in routers ==> LockName(r) == r && r != DEFAULT_KEY
    ensures SecretsKept(routers, listing) <==>
      forall r :: r in routers ==> exists i :: 0 <= i < |listing| && i < 50 && listing[i] == r
  {
    SecretsKeptIff(routers, listing);
    RemovalLocksAscending(listing);
    forall r | r in routers
      ensures LockName(r) in LockNames(RemovalKeys(listing))
        <==> exists i :: 0 <= i < |listing| && i < LISTED_ROUTERS && listing[i] == r
    {
      KeysAreListed(listing, r);
    }
  }

  // ---- the run that loses them ----

  /** The removal and the activation of one profile at the given phases. */
  function Two(removal: Task, act: Task, profile: Profile, active: map<(string, string), string>, r: Phase, a: Phase): Registry {
    Registry(map["" := profile], active, map[0 := Thread(removal, r), 1 := Thread(act, a)])
  }

  /** A run is given by its events and the states it passes through. */
  lemma {:induction false} RunOf(events: seq<Event>, states: seq<Registry>)
    requires |states| == |events| + 1
    requires forall i :: 0 <= i < |events| ==> states[i + 1] == Exec(states[i], events[i])
    ensures Run(states[0], events) == states[|events|]
  {
    if events != [] { RunOf(events[..|events| - 1], states[..|events|]); }
  }

  /** A removal has checked its profile; an activation on a router it does not lock applies the
      profile and writes its assignment; the removal revokes the secrets, and can then only
      refuse. */
  lemma ActiveLosesSecrets(routers: set<string>, listing: seq<string>, router: string)
    returns (s: Registry, events: seq<Event>)
    requires router in routers && LockName(router) !in LockNames(RemovalKeys(listing))
    ensures NoneRetired(s) && NoneRevoked(s) && s.threads == map[] && ComesFrom(routers, listing, events)
    ensures !NoneRevoked(Run(s, events))
  {
    var removal, act := Task.Removal(listing, "", true), Activation(router, "", "");
    var kept, none := Profile(false, false), map[];
    assert !Share(removal, act) && !Share(act, removal) by { assert LockNames([router])[0] == LockName(router); }
    s := Registry(map["" := kept], none, map[]);
    var s1 := s.(threads := map[0 := Thread(removal, Waiting)]);
    var s2 := Two(removal, act, kept, none, Waiting, Waiting);
    var s3 := Two(removal, act, kept, none, Entered, Waiting);
    var s4 := Two(removal, act, kept, none, Prepared, Waiting);
    var s5 := Two(removal, act, kept, none, Prepared, Entered);
    var s6 := Two(removal, act, kept, none, Prepared, Applied);
    var active := map[(router, "") := ""];
    var s7 := Two(removal, act, kept, active, Prepared, Ended);
    var s8 := Two(removal, act, Profile(false, true), active, Revoked, Ended);
    RemovalEnters(removal, act, kept);
    RemovalChecks(removal, act, kept);
    ActivationEnters(removal, act, kept);
    ActivationApplies(removal, act, kept);
    ActivationWrites(removal, act, kept, active);
    RemovalRevokes(removal, act, kept, active);
    events := [Arrive(0, removal), Arrive(1, act), Move(0, true), Move(0, true),
               Move(1, true), Move(1, true), Move(1, true), Move(0, true)];
    RunOf(events, [s, s1, s2, s3, s4, s5, s6, s7, s8]);
    assert (router, "") in s8.active;
  }

  lemma RemovalEnters(removal: Task, act: Task, kept: Profile)
    ensures Exec(Two(removal, act, kept, map[], Waiting, Waiting), Move(0, true))
         == Two(removal, act, kept, map[], Entered, Waiting)
  {
    var w := Two(removal, act, kept, map[], Waiting, Waiting);
    assert CanEnter(w, 0);
    assert At(w, 0, Entered).threads == Two(removal, act, kept, map[], Entered, Waiting).threads;
  }

  lemma RemovalChecks(removal: Task, act: Task, kept: Profile)
    requires removal.Removal? && removal.profile == "" && kept == Profile(false, false)
    ensures Exec(Two(removal, act, kept, map[], Entered, Waiting), Move(0, true))
         == Two(removal, act, kept, map[], Prepared, Waiting)
  {
    var e := Two(removal, act, kept, map[], Entered, Waiting);
    assert At(e, 0, Prepared).threads == Two(removal, act, kept, map[], Prepared, Waiting).threads;
  }

  lemma ActivationEnters(removal: Task, act: Task, kept: Profile)
    requires !Share(act, removal)
    ensures Exec(Two(removal, act, kept, map[], Prepared, Waiting), Move(1, true))
         == Two(removal, act, kept, map[], Prepared, Entered)
  {
    var w := Two(removal, act, kept, map[], Prepared, Waiting);
    assert CanEnter(w, 1);
    assert At(w, 1, Entered).threads == Two(removal, act, kept, map[], Prepared, Entered).threads;
  }

  lemma ActivationApplies(removal: Task, act: Task, kept: Profile)
    requires act.Activation? && act.profile == "" && kept == Profile(false, false)
    ensures Exec(Two(removal, act, kept, map[], Prepared, Entered), Move(1, true))
         == Two(removal, act, kept, map[], Prepared, Applied)
  {
    var e := Two(removal, act, kept, map[], Prepared, Entered);
    assert At(e, 1, Applied).threads == Two(removal, act, kept, map[], Prepared, Applied).threads;
  }

  lemma ActivationWrites(removal: Task, act: Task, kept: Profile, active: map<(string, string), string>)
    requires act.Activation? && act.profile == "" && kept == Profile(false, false)
    requires active == map[(act.router, act.role) := ""]
    ensures Exec(Two(removal, act, kept, map[], Prepared, Applied), Move(1, true))
         == Two(removal, act, kept, active, Prepared, Ended)
  {
    var a := Two(removal, act, kept, map[], Prepared, Applied);
    assert At(a, 1, Ended).threads == Two(removal, act, kept, active, Prepared, Ended).threads;
    assert a.active[(act.router, act.role) := ""] == active;
  }

  lemma RemovalRevokes(removal: Task, act: Task, kept: Profile, active: map<(string, string), string>)
    requires removal.Removal? && removal.profile == "" && removal.exclusive && kept == Profile(false, false)
    ensures Exec(Two(removal, act, kept, active, Prepared, Ended), Move(0, true))
         == Two(removal, act, Profile(false, true), active, Revoked, Ended)
  {
    var p := Two(removal, act, kept, active, Prepared, Ended);
    assert At(p, 0, Revoked).threads == Two(removal, act, kept, active, Revoked, Ended).threads;
    assert p.profiles["" := Profile(false, true)] == map["" := Profile(false, true)];
  }

  // ---- undisturbed requests ----

  /** One request alone. */
  function Alone(profiles: map<string, Profile>, active: map<(string, string), string>, t: nat, task: Task, phase: Phase): Registry {
    Registry(profiles, active, map[t := Thread(task, phase)])
  }

  lemma AloneAt(profiles: map<string, Profile>, active: map<(string, string), string>, t: nat, task: Task, was: Phase, phase: Phase)
    ensures At(Alone(profiles, active, t, task, was), t, phase) == Alone(profiles, active, t, task, phase)
  {
    assert map[t := Thread(task, was)][t := Thread(task, phase)] == map[t := Thread(task, phase)];
  }

  lemma RemovalToPrepared(profiles: map<string, Profile>, active: map<(string, string), string>, t: nat, task: Task)
    requires task.Removal? && Removable(Alone(profiles, active, t, task, Waiting), task.profile)
    ensures Exec(Alone(profiles, active, t, task, Waiting), Move(t, true)) == Alone(profiles, active, t, task, Entered)
    ensures Exec(Alone(profiles, active, t, task, Entered), Move(t, true)) == Alone(profiles, active, t, task, Prepared)
  {
    assert CanEnter(Alone(profiles, active, t, task, Waiting), t);
    AloneAt(profiles, active, t, task, Waiting, Entered);
    AloneAt(profiles, active, t, task, Entered, Prepared);
  }

  lemma RemovalToEnd(profiles: map<string, Profile>, active: map<(string, string), string>, t: nat, task: Task)
    requires task.Removal? && Removable(Alone(profiles, active, t, task, Waiting), task.profile)
    ensures var was := profiles[task.profile];
      var marked := profiles[task.profile := was.(revoked := task.exclusive || was.revoked)];
      && Exec(Alone(profiles, active, t, task, Prepared), Move(t, true)) == Alone(marked, active, t, task, Revoked)
      && Exec(Alone(marked, active, t, task, Revoked), Move(t, true))
         == Alone(marked[task.profile := marked[task.profile].(retired := true)], active, t, task, Ended)
  {
    var was := profiles[task.profile];
    var marked := profiles[task.profile := was.(revoked := task.exclusive || was.revoked)];
    assert !task.exclusive ==> was.(revoked := was.revoked) == was && marked == profiles;
    AloneAt(marked, active, t, task, Prepared, Revoked);
    AloneAt(marked[task.profile := marked[task.profile].(retired := true)], active, t, task, Revoked, Ended);
  }

  /** A removal on its own, every call of which succeeds, retires an inactive profile, with its
      secrets revoked if it has any of its own. */
  lemma RemovalRetires(s: Registry, t: nat, task: Task)
    requires s.threads == map[] && task.Removal? && Removable(s, task.profile)
    ensures var go := Move(t, true);
      var s' := Run(s, [Arrive(t, task), go, go, go, go]);
      && s'.threads == map[t := Thread(task, Ended)] && s'.active == s.active
      && s'.profiles == s.profiles[task.profile := Profile(true, task.exclusive || s.profiles[task.profile].revoked)]
  {
    var go := Move(t, true);
    var was := s.profiles[task.profile];
    var marked := s.profiles[task.profile := was.(revoked := task.exclusive || was.revoked)];
    var retired := marked[task.profile := marked[task.profile].(retired := true)];
    RemovalToPrepared(s.profiles, s.active, t, task);
    RemovalToEnd(s.profiles, s.active, t, task);
    RunOf([Arrive(t, task), go, go, go, go],
          [s, Alone(s.profiles, s.active, t, task, Waiting), Alone(s.profiles, s.active, t, task, Entered),
           Alone(s.profiles, s.active, t, task, Prepared), Alone(marked, s.active, t, task, Revoked),
           Alone(retired, s.active, t, task, Ended)]);
  }

  /** An activation on its own, every call of which succeeds, makes an unretired profile with its
      secrets active. */
  lemma ActivationWritesActive(s: Registry, t: nat, task: Task)
    requires s.threads == map[] && task.Activation? && task.profile in s.profiles
    requires s.profiles[task.profile] == Profile(false, false)
    ensures var go := Move(t, true);
      Run(s, [Arrive(t, task), go, go, go]) ==
      s.(active := s.active[(task.router, task.role) := task.profile], threads := map[t := Thread(task, Ended)])
  {
    var go := Move(t, true);
    var s1 := s.(threads := map[t := Thread(task, Waiting)]);
    var s2 := s.(threads := map[t := Thread(task, Entered)]);
    var s3 := s.(threads := map[t := Thread(task, Applied)]);
    var s4 := s.(active := s.active[(task.router, task.role) := task.profile], threads := map[t := Thread(task, Ended)]);
    assert CanEnter(s1, t);
    assert At(s1, t, Entered).threads == s2.threads && At(s2, t, Applied).threads == s3.threads;
    assert At(s3, t, Ended).threads == s4.threads;
    RunOf([Arrive(t, task), go, go, go], [s, s1, s2, s3, s4]);
  }
}
