/** The bounded pool of DNS resolver threads, with any number of callers interleaved at the
    points where the pool's lock is released. */
module DnsPool {

  const MAX_LIVE_THREADS := 32

  type Thread = nat

  /** Where a caller stands. `Added(t)`: its thread is in the pool but not started yet.
      `Waiting(t)`: started, and joined with a time limit. `Finishing(t)`: seen dead. */
  datatype Pc = Idle | Pruned | Admitted | Added(t: Thread) | Waiting(t: Thread) | Finishing(t: Thread)

  /** `created` counts the threads made so far, so `created` names the next one. `dropped`
      records the threads that a prune removed before they were started. */
  datatype Pool = Pool(
    tracked: set<Thread>,
    alive: set<Thread>,
    created: nat,
    dropped: set<Thread>,
    callers: seq<Pc>)

  /** A caller takes its next step, or a running resolver thread ends. */
  datatype Action = Step(c: nat) | Exit(t: Thread)

  function Unstarted(callers: seq<Pc>): set<Thread> {
    set c | 0 <= c < |callers| && callers[c].Added? :: callers[c].t
  }

  function CallerStep(p: Pool, c: nat): Pool
    requires c < |p.callers|
  {
    match p.callers[c]
    case Idle =>
      // A thread that has not been started yet does not count as alive.
      p.(tracked := p.tracked * p.alive,
         dropped := p.dropped + (p.tracked * Unstarted(p.callers)),
         callers := p.callers[c := Pruned])
    case Pruned =>
      p.(callers := p.callers[c := if |p.tracked| >= MAX_LIVE_THREADS then Idle else Admitted])
    case Admitted =>
      p.(tracked := p.tracked + {p.created}, created := p.created + 1, callers := p.callers[c := Added(p.created)])
    case Added(t) =>
      p.(alive := p.alive + {t}, callers := p.callers[c := Waiting(t)])
    case Waiting(t) =>
      // Still alive: the join timed out and the thread is abandoned.
      p.(callers := p.callers[c := if t in p.alive then Idle else Finishing(t)])
    case Finishing(t) =>
      p.(tracked := p.tracked - {t}, callers := p.callers[c := Idle])
  }

  function Exec(p: Pool, a: Action): Pool {
    match a
    case Step(c) => if c < |p.callers| then CallerStep(p, c) else p
    case Exit(t) => p.(alive := p.alive - {t})
  }

  function Run(p: Pool, actions: seq<Action>): Pool
    decreases |actions|
  {
    if actions == [] then p else Run(Exec(p, actions[0]), actions[1..])
  }

  function Fresh(k: nat): Pool {
    Pool({}, {}, 0, {}, seq(k, _ => Idle))
  }

  // ---- the tracked set ----

  function AdmittedCount(callers: seq<Pc>): (n: nat)
    ensures n <= |callers|
  {
    if callers == [] then 0
    else (if callers[0].Admitted? then 1 else 0) + AdmittedCount(callers[1..])
  }

  lemma {:induction false} AdmittedUpdate(callers: seq<Pc>, c: nat, pc: Pc)
    requires c < |callers|
    ensures AdmittedCount(callers[c := pc]) ==
      AdmittedCount(callers) - (if callers[c].Admitted? then 1 else 0) + (if pc.Admitted? then 1 else 0)
  {
    if c == 0 {
      assert callers[c := pc][1..] == callers[1..];
    } else {
      AdmittedUpdate(callers[1..], c - 1, pc);
      assert callers[c := pc][1..] == callers[1..][c - 1 := pc];
    }
  }

  predicate Bounded(p: Pool) {
    |p.tracked| + AdmittedCount(p.callers) <= MAX_LIVE_THREADS - 1 + |p.callers|
  }

  lemma Smaller(a: set<Thread>, b: set<Thread>)
    requires a <= b
    ensures |a| <= |b|
  {
    assert b == a + (b - a) && a !! (b - a);
    assert |b| == |a| + |b - a|;
  }

  lemma ExecKeepsBounded(p: Pool, a: Action)
    requires Bounded(p)
    ensures Bounded(Exec(p, a))
  {
    if a.Step? && a.c < |p.callers| {
      var p' := Exec(p, a);
      AdmittedUpdate(p.callers, a.c, p'.callers[a.c]);
      if !p.callers[a.c].Admitted? { Smaller(p'.tracked, p.tracked); }
    }
  }

  /** With k callers interleaved in any way, the pool never tracks more than 31 + k threads. */
  lemma {:induction false} TrackedBound(p: Pool, actions: seq<Action>)
    requires Bounded(p)
    ensures |Run(p, actions).tracked| <= 31 + |p.callers|
    decreases |actions|
  {
    if actions != [] {
      ExecKeepsBounded(p, actions[0]);
      TrackedBound(Exec(p, actions[0]), actions[1..]);
    }
  }

  lemma {:induction false} NoneAdmitted(callers: seq<Pc>)
    requires forall c :: 0 <= c < |callers| ==> callers[c] == Idle
    ensures AdmittedCount(callers) == 0
  {
    if callers != [] { NoneAdmitted(callers[1..]); }
  }

  lemma FreshIsBounded(k: nat)
    ensures Bounded(Fresh(k))
  {
    NoneAdmitted(Fresh(k).callers);
  }

  // ---- the live threads ----

  predicate Owns(pc: Pc) {
    pc.Added? || pc.Waiting? || pc.Finishing?
  }

  /** Every thread has a name already used, and callers share none. */
  ghost predicate NamesOk(p: Pool) {
    && (forall t :: t in p.tracked || t in p.alive || t in p.dropped ==> t < p.created)
    && (forall c :: 0 <= c < |p.callers| && Owns(p.callers[c]) ==> p.callers[c].t < p.created)
    && (forall c, d :: 0 <= c < d < |p.callers| && Owns(p.callers[c]) && Owns(p.callers[d]) ==>
          p.callers[c].t != p.callers[d].t)
  }

  /** A thread that is added or seen dead does not live; and one that is about to live is
      untracked exactly if it was dropped. */
  ghost predicate CallerOk(p: Pool, pc: Pc) {
    && (pc.Added? || pc.Finishing? ==> pc.t !in p.alive)
    && (pc.Added? ==> (pc.t in p.dropped <==> pc.t !in p.tracked))
  }

  ghost predicate Inv(p: Pool) {
    && NamesOk(p)
    && (forall c :: 0 <= c < |p.callers| ==> CallerOk(p, p.callers[c]))
    && (forall t :: t in p.alive ==> (t in p.dropped <==> t !in p.tracked))
  }

  lemma PruneKeepsInv(p: Pool, c: nat)
    requires Inv(p) && c < |p.callers| && p.callers[c].Idle?
    ensures Inv(CallerStep(p, c))
  {
    var p' := CallerStep(p, c);
    forall d | 0 <= d < |p'.callers| ensures CallerOk(p', p'.callers[d]) {
      assert CallerOk(p, p.callers[d]);
      if p.callers[d].Added? { assert p.callers[d].t in Unstarted(p.callers); }
    }
    forall t | t in p'.alive ensures t in p'.dropped <==> t !in p'.tracked {
      assert t !in Unstarted(p.callers);
    }
  }

  lemma StepKeepsNames(p: Pool, c: nat)
    requires NamesOk(p) && c < |p.callers|
    ensures NamesOk(CallerStep(p, c))
  {
  }

  lemma StepKeepsInv(p: Pool, c: nat)
    requires Inv(p) && c < |p.callers| && !p.callers[c].Idle?
    ensures Inv(CallerStep(p, c))
  {
    var p' := CallerStep(p, c);
    StepKeepsNames(p, c);
    assert CallerOk(p, p.callers[c]);
    forall d | 0 <= d < |p'.callers| ensures CallerOk(p', p'.callers[d]) {
      assert CallerOk(p, p.callers[d]);
      assert d != c && Owns(p.callers[d]) && Owns(p.callers[c]) ==> p.callers[d].t != p.callers[c].t;
    }
  }

  lemma ExecKeepsInv(p: Pool, a: Action)
    requires Inv(p)
    ensures Inv(Exec(p, a))
  {
    match a
    case Step(c) =>
      if c < |p.callers| {
        if p.callers[c].Idle? { PruneKeepsInv(p, c); } else { StepKeepsInv(p, c); }
      }
    case Exit(t) =>
      var p' := Exec(p, a);
      forall d | 0 <= d < |p'.callers| ensures CallerOk(p', p'.callers[d]) { assert CallerOk(p, p.callers[d]); }
  }

  lemma {:induction false} RunKeepsInv(p: Pool, actions: seq<Action>)
    requires Inv(p)
    ensures Inv(Run(p, actions))
    decreases |actions|
  {
    if actions != [] {
      ExecKeepsInv(p, actions[0]);
      RunKeepsInv(Exec(p, actions[0]), actions[1..]);
    }
  }

  /** A live thread escapes the pool exactly when some caller pruned between the moment the
      thread was added and the moment it was started. */
  lemma UntrackedExactlyIfDropped(k: nat, actions: seq<Action>, t: Thread)
    requires t in Run(Fresh(k), actions).alive
    ensures t !in Run(Fresh(k), actions).tracked <==> t in Run(Fresh(k), actions).dropped
  {
    RunKeepsInv(Fresh(k), actions);
  }

  lemma {:induction false} OneCallerDropsNone(p: Pool, actions: seq<Action>)
    requires |p.callers| == 1 && p.dropped == {}
    ensures Run(p, actions).dropped == {}
    decreases |actions|
  {
    if actions != [] {
      OneCallerDropsNone(Exec(p, actions[0]), actions[1..]);
    }
  }

  /** With calls one at a time every live thread stays tracked, abandoned or not, and at most
      32 threads live at once. */
  lemma OneCallerIsBounded(actions: seq<Action>)
    ensures var p := Run(Fresh(1), actions); p.alive <= p.tracked && |p.alive| <= 32
  {
    RunKeepsInv(Fresh(1), actions);
    OneCallerDropsNone(Fresh(1), actions);
    FreshIsBounded(1);
    TrackedBound(Fresh(1), actions);
    var p := Run(Fresh(1), actions);
    assert p.alive <= p.tracked;
    Smaller(p.alive, p.tracked);
  }

  // ---- two callers are enough to lose the bound ----

  /** Caller 1 prunes while caller 0's thread is added but not started; caller 0 then starts
      and abandons it; caller 1's own resolution ends normally. */
  function Round(n: nat): seq<Action> {
    LeakOne() + FinishOne(n)
  }

  function LeakOne(): seq<Action> {
    [Step(0), Step(0), Step(0), Step(1), Step(0), Step(0)]
  }

  function FinishOne(n: nat): seq<Action> {
    [Step(1), Step(1), Step(1), Exit(n + 1), Step(1), Step(1)]
  }

  function Leaked(n: nat, alive: set<Thread>, dropped: set<Thread>): Pool {
    Pool({}, alive, n, dropped, [Idle, Idle])
  }

  lemma {:induction false} RunConcat(p: Pool, a: seq<Action>, b: seq<Action>)
    ensures Run(p, a + b) == Run(Run(p, a), b)
    decreases |a|
  {
    if a == [] {
      assert a + b == b;
    } else {
      RunConcat(Exec(p, a[0]), a[1..], b);
      assert (a + b)[1..] == a[1..] + b;
    }
  }

  /** A run is given by its actions and the states it passes through. */
  lemma {:induction false} RunOf(actions: seq<Action>, states: seq<Pool>)
    requires |states| == |actions| + 1
    requires forall i :: 0 <= i < |actions| ==> states[i + 1] == Exec(states[i], actions[i])
    ensures Run(states[0], actions) == states[|actions|]
    decreases |actions|
  {
    if actions != [] { RunOf(actions[1..], states[1..]); }
  }

  lemma RoundLeaks(n: nat, alive: set<Thread>, dropped: set<Thread>)
    requires forall t :: t in alive ==> t < n
    ensures Run(Leaked(n, alive, dropped), Round(n)) == Leaked(n + 2, alive + {n}, dropped + {n})
  {
    RunConcat(Leaked(n, alive, dropped), LeakOne(), FinishOne(n));
    FirstHalf(n, alive, dropped);
    SecondHalf(n, alive + {n}, dropped + {n});
  }

  lemma FirstHalf(n: nat, alive: set<Thread>, dropped: set<Thread>)
    requires forall t :: t in alive ==> t < n
    ensures Run(Leaked(n, alive, dropped), LeakOne())
         == Pool({}, alive + {n}, n + 1, dropped + {n}, [Idle, Pruned])
  {
    var p := Leaked(n, alive, dropped);
    var p1 := Exec(p, Step(0));
    assert p1 == Pool({}, alive, n, dropped, [Pruned, Idle]);
    var p2 := Exec(p1, Step(0));
    assert p2 == Pool({}, alive, n, dropped, [Admitted, Idle]);
    var p3 := Exec(p2, Step(0));
    assert p3 == Pool({n}, alive, n + 1, dropped, [Added(n), Idle]);
    assert Unstarted(p3.callers) == {n} by { assert p3.callers[0].t == n; }
    var p4 := Exec(p3, Step(1));
    assert p4 == Pool({}, alive, n + 1, dropped + {n}, [Added(n), Pruned]);
    var p5 := Exec(p4, Step(0));
    assert p5 == Pool({}, alive + {n}, n + 1, dropped + {n}, [Waiting(n), Pruned]);
    var p6 := Exec(p5, Step(0));
    assert p6 == Pool({}, alive + {n}, n + 1, dropped + {n}, [Idle, Pruned]);
    RunOf([Step(0), Step(0), Step(0), Step(1), Step(0), Step(0)], [p, p1, p2, p3, p4, p5, p6]);
  }

  lemma SecondHalf(n: nat, alive: set<Thread>, dropped: set<Thread>)
    requires forall t :: t in alive ==> t <= n
    ensures Run(Pool({}, alive, n + 1, dropped, [Idle, Pruned]), FinishOne(n))
         == Leaked(n + 2, alive, dropped)
  {
    var p := Pool({}, alive, n + 1, dropped, [Idle, Pruned]);
    var p1 := Exec(p, Step(1));
    assert p1 == Pool({}, alive, n + 1, dropped, [Idle, Admitted]);
    var p2 := Exec(p1, Step(1));
    assert p2 == Pool({n + 1}, alive, n + 2, dropped, [Idle, Added(n + 1)]);
    var p3 := Exec(p2, Step(1));
    assert p3 == Pool({n + 1}, alive + {n + 1}, n + 2, dropped, [Idle, Waiting(n + 1)]);
    var p4 := Exec(p3, Exit(n + 1));
    assert p4 == Pool({n + 1}, alive, n + 2, dropped, [Idle, Waiting(n + 1)]);
    var p5 := Exec(p4, Step(1));
    assert p5 == Pool({n + 1}, alive, n + 2, dropped, [Idle, Finishing(n + 1)]);
    var p6 := Exec(p5, Step(1));
    assert p6 == Leaked(n + 2, alive, dropped);
    RunOf([Step(1), Step(1), Step(1), Exit(n + 1), Step(1), Step(1)], [p, p1, p2, p3, p4, p5, p6]);
  }

  /** With two callers the number of live threads has no bound at all: for every m there is a
      run after which m resolver threads live while the pool tracks none. */
  lemma {:induction false} TwoCallersUnbounded(m: nat) returns (actions: seq<Action>, p: Pool)
    ensures p == Run(Fresh(2), actions)
    ensures |p.alive| == m && p.tracked == {}
    ensures p == Leaked(2 * m, p.alive, p.dropped) && forall t :: t in p.alive ==> t < 2 * m
    ensures Uses(actions, 2)
  {
    if m == 0 {
      actions, p := [], Fresh(2);
      assert Fresh(2).callers == [Idle, Idle];
    } else {
      var before, q := TwoCallersUnbounded(m - 1);
      var n := 2 * (m - 1);
      actions := before + Round(n);
      RunConcat(Fresh(2), before, Round(n));
      RoundLeaks(n, q.alive, q.dropped);
      p := Leaked(n + 2, q.alive + {n}, q.dropped + {n});
    }
  }

  // ---- any number of callers ----

  /** The same pool with further callers, all idle. */
  function Widen(p: Pool, k: nat): Pool {
    p.(callers := p.callers + seq(k, _ => Idle))
  }

  lemma WidenUnstarted(p: Pool, k: nat)
    ensures Unstarted(Widen(p, k).callers) == Unstarted(p.callers)
  {
    var wide := Widen(p, k).callers;
    forall t ensures t in Unstarted(wide) <==> t in Unstarted(p.callers) {
      if c :| 0 <= c < |p.callers| && p.callers[c].Added? && p.callers[c].t == t {
        assert wide[c].Added? && wide[c].t == t;
      }
    }
  }

  lemma WidenStep(p: Pool, k: nat, a: Action)
    requires a.Step? ==> a.c < |p.callers|
    ensures Exec(Widen(p, k), a) == Widen(Exec(p, a), k)
  {
    WidenUnstarted(p, k);
    if a.Step? {
      var pc := Exec(p, a).callers[a.c];
      assert (p.callers + seq(k, _ => Idle))[a.c := pc] == p.callers[a.c := pc] + seq(k, _ => Idle);
    }
  }

  ghost predicate Uses(actions: seq<Action>, k: nat) {
    forall i :: 0 <= i < |actions| && actions[i].Step? ==> actions[i].c < k
  }

  lemma {:induction false} WidenRun(p: Pool, k: nat, actions: seq<Action>)
    requires Uses(actions, |p.callers|)
    ensures Run(Widen(p, k), actions) == Widen(Run(p, actions), k)
    decreases |actions|
  {
    if actions != [] {
      WidenStep(p, k, actions[0]);
      assert |Exec(p, actions[0]).callers| == |p.callers|;
      WidenRun(Exec(p, actions[0]), k, actions[1..]);
    }
  }

  lemma {:induction false} NoCallers(p: Pool, actions: seq<Action>)
    requires p.callers == [] && p.alive == {}
    ensures Run(p, actions).alive == {}
    decreases |actions|
  {
    if actions != [] { NoCallers(Exec(p, actions[0]), actions[1..]); }
  }

  ghost predicate LiveBound(k: nat, bound: nat) {
    forall actions :: |Run(Fresh(k), actions).alive| <= bound
  }

  /** The live threads of k callers have a bound exactly if k is at most one; and then it is
      the one the pool promises. */
  lemma BoundedIffOneCaller(k: nat)
    ensures (exists bound :: LiveBound(k, bound)) <==> k <= 1
    ensures k <= 1 ==> LiveBound(k, 32)
  {
    if k <= 1 {
      forall actions ensures |Run(Fresh(k), actions).alive| <= MAX_LIVE_THREADS {
        if k == 1 { OneCallerIsBounded(actions); } else { NoCallers(Fresh(0), actions); }
      }
      assert LiveBound(k, MAX_LIVE_THREADS);
    } else {
      forall bound ensures !LiveBound(k, bound) { ManyCallersUnbounded(k, bound); }
    }
  }

  lemma ManyCallersUnbounded(k: nat, bound: nat)
    requires k >= 2
    ensures !LiveBound(k, bound)
  {
    var actions, p := TwoCallersUnbounded(bound + 1);
    WidenRun(Fresh(2), k - 2, actions);
    assert Widen(Fresh(2), k - 2) == Fresh(k);
    assert |Run(Fresh(k), actions).alive| == bound + 1;
  }

  // ---- the bound on the tracked set is reached ----

  function Upto(n: nat): (r: set<Thread>)
    ensures forall t: Thread :: t in r <==> t < n
  {
    if n == 0 then {} else Upto(n - 1) + {n - 1}
  }

  lemma {:induction false} UptoCount(n: nat)
    ensures |Upto(n)| == n
  {
    if n > 0 { UptoCount(n - 1); }
  }

  /** `n` threads have been abandoned and still run; the callers stand at `callers`. */
  function Abandoned(n: nat, callers: seq<Pc>): Pool {
    Pool(Upto(n), Upto(n), n, {}, callers)
  }

  /** The first `j` of `k` callers have got to `now`, the others are still at `was`. */
  function Moved(k: nat, j: nat, was: Pc, now: Pc): seq<Pc> {
    seq(k, c => if c < j then now else was)
  }

  /** A caller adds one more thread to those. */
  lemma AddOne(idle: seq<Pc>, n: nat) returns (actions: seq<Action>)
    requires |idle| > 0 && (forall c :: 0 <= c < |idle| ==> idle[c] == Idle) && n < MAX_LIVE_THREADS
    ensures Run(Abandoned(n, idle), actions) == Pool(Upto(n + 1), Upto(n), n + 1, {}, idle[0 := Added(n)])
  {
    UptoCount(n);
    var p := Abandoned(n, idle);
    assert Unstarted(idle) == {};
    var p1 := Exec(p, Step(0));
    assert p1 == Abandoned(n, idle[0 := Pruned]);
    var p2 := Exec(p1, Step(0));
    assert p2 == Abandoned(n, idle[0 := Admitted]);
    var p3 := Exec(p2, Step(0));
    actions := [Step(0), Step(0), Step(0)];
    RunOf(actions, [p, p1, p2, p3]);
  }

  /** It starts the thread and abandons it. */
  lemma StartOne(idle: seq<Pc>, n: nat) returns (actions: seq<Action>)
    requires |idle| > 0 && (forall c :: 0 <= c < |idle| ==> idle[c] == Idle)
    ensures Run(Pool(Upto(n + 1), Upto(n), n + 1, {}, idle[0 := Added(n)]), actions) == Abandoned(n + 1, idle)
  {
    var p := Pool(Upto(n + 1), Upto(n), n + 1, {}, idle[0 := Added(n)]);
    var p1 := Exec(p, Step(0));
    assert p1 == Abandoned(n + 1, idle[0 := Waiting(n)]);
    var p2 := Exec(p1, Step(0));
    assert idle[0 := Waiting(n)][0 := Idle] == idle;
    actions := [Step(0), Step(0)];
    RunOf(actions, [p, p1, p2]);
  }

  lemma {:induction false} AbandonMany(k: nat, n: nat) returns (actions: seq<Action>)
    requires k > 0 && n <= MAX_LIVE_THREADS
    ensures Run(Fresh(k), actions) == Abandoned(n, Fresh(k).callers)
  {
    if n == 0 { return []; }
    var before := AbandonMany(k, n - 1);
    var add := AddOne(Fresh(k).callers, n - 1);
    var start := StartOne(Fresh(k).callers, n - 1);
    RunConcat(Fresh(k), before, add);
    RunConcat(Fresh(k), before + add, start);
    actions := before + add + start;
  }

  lemma {:induction false} RunMore(p: Pool, actions: seq<Action>, a: Action)
    ensures Run(p, actions + [a]) == Exec(Run(p, actions), a)
  {
    RunConcat(p, actions, [a]);
    assert [a][1..] == [];
  }

  /** One after the other, the first `j` callers prune. */
  lemma {:induction false} AllPrune(k: nat, n: nat, j: nat) returns (actions: seq<Action>)
    requires 0 < k && j <= k && n <= MAX_LIVE_THREADS
    ensures Run(Fresh(k), actions) == Abandoned(n, Moved(k, j, Idle, Pruned))
  {
    if j == 0 {
      actions := AbandonMany(k, n);
      assert Moved(k, 0, Idle, Pruned) == Fresh(k).callers;
    } else {
      var before := AllPrune(k, n, j - 1);
      var callers := Moved(k, j - 1, Idle, Pruned);
      assert Unstarted(callers) == {};
      assert callers[j - 1 := Pruned] == Moved(k, j, Idle, Pruned);
      RunMore(Fresh(k), before, Step(j - 1));
      actions := before + [Step(j - 1)];
    }
  }

  /** Then the first `j` find room, all in the same pool. */
  lemma {:induction false} AllAdmitted(k: nat, n: nat, j: nat) returns (actions: seq<Action>)
    requires 0 < k && j <= k && n < MAX_LIVE_THREADS
    ensures Run(Fresh(k), actions) == Abandoned(n, Moved(k, j, Pruned, Admitted))
  {
    if j == 0 {
      actions := AllPrune(k, n, k);
      assert Moved(k, k, Idle, Pruned) == Moved(k, 0, Pruned, Admitted);
    } else {
      var before := AllAdmitted(k, n, j - 1);
      var callers := Moved(k, j - 1, Pruned, Admitted);
      UptoCount(n);
      assert callers[j - 1 := Admitted] == Moved(k, j, Pruned, Admitted);
      RunMore(Fresh(k), before, Step(j - 1));
      actions := before + [Step(j - 1)];
    }
  }

  /** Then the first `j` add their threads. */
  lemma {:induction false} AllAdd(k: nat, n: nat, j: nat) returns (actions: seq<Action>)
    requires 0 < k && j <= k && n < MAX_LIVE_THREADS
    ensures var p := Run(Fresh(k), actions);
      && p.tracked == Upto(n + j) && p.created == n + j && |p.callers| == k
      && forall c :: j <= c < k ==> p.callers[c] == Admitted
  {
    if j == 0 {
      actions := AllAdmitted(k, n, k);
    } else {
      var before := AllAdd(k, n, j - 1);
      var p := Run(Fresh(k), before);
      RunMore(Fresh(k), before, Step(j - 1));
      assert Upto(n + j) == Upto(n + j - 1) + {n + j - 1};
      actions := before + [Step(j - 1)];
    }
  }

  ghost predicate TrackedAtMost(k: nat, bound: nat) {
    forall actions :: |Run(Fresh(k), actions).tracked| <= bound
  }

  /** With k callers, k positive, 31 + k is the exact bound on the tracked threads. */
  lemma TrackedBoundIsExact(k: nat, bound: nat)
    requires k > 0
    ensures TrackedAtMost(k, bound) <==> bound >= 31 + k
  {
    FreshIsBounded(k);
    forall actions ensures |Run(Fresh(k), actions).tracked| <= MAX_LIVE_THREADS - 1 + k {
      TrackedBound(Fresh(k), actions);
    }
    var actions := AllAdd(k, MAX_LIVE_THREADS - 1, k);
    UptoCount(MAX_LIVE_THREADS - 1 + k);
    assert |Run(Fresh(k), actions).tracked| == MAX_LIVE_THREADS - 1 + k;
  }
}
