/** The login failure throttle under concurrent logins. Login handlers run in parallel: each
    checks the throttle, verifies the password, then records a failure or resets; the steps
    of different logins interleave. Each throttle call is one step and reads the clock once. */
module LoginThrottle {
  import opened SlidingWindow

  const MAX_FAILURES := 10
  const WINDOW_SECONDS := 60.0

  class Throttle {
    const maxFailures: int
    const window: real
    var failures: seq<real>

    constructor (maxFailures: int, window: real)
      ensures this.maxFailures == maxFailures && this.window == window && failures == []
    {
      this.maxFailures, this.window, failures := maxFailures, window, [];
    }

    method IsBlocked(now: real) returns (blocked: bool)
      modifies this
      ensures failures == Prune(old(failures), now - window)
      ensures blocked <==> |failures| >= maxFailures
    {
      PruneOld(now);
      blocked := |failures| >= maxFailures;
    }

    method RecordFailure(now: real)
      modifies this
      ensures failures == Prune(old(failures), now - window) + [now]
    {
      PruneOld(now);
      failures := failures + [now];
    }

    method Reset()
      modifies this
      ensures failures == []
    {
      failures := [];
    }

    method PruneOld(now: real)
      modifies this
      ensures failures == Prune(old(failures), now - window)
    {
      failures := KeepNewer(failures, now - window);
    }
  }

  // ---- logins in parallel ----

  /** Whether a login in progress has passed its check. */
  datatype Login = Waiting | Passed

  /** `failures` is what the throttle keeps; `history` every failure recorded since the last
      reset; `now` the latest clock reading. */
  datatype State = State(failures: seq<real>, history: seq<real>, now: real, logins: seq<Login>)

  datatype Action = Check(c: nat, at: real) | Fail(c: nat, at: real) | Succeed(c: nat, at: real)

  predicate Enabled(s: State, a: Action) {
    && s.now <= a.at
    && a.c < |s.logins|
    && s.logins[a.c] == (if a.Check? then Waiting else Passed)
  }

  function Exec(s: State, a: Action, max: int, window: real): State
    requires Enabled(s, a)
  {
    var kept := Prune(s.failures, a.at - window);
    match a
    case Check(c, at) =>
      s.(failures := kept, now := at, logins := s.logins[c := if |kept| >= max then Waiting else Passed])
    case Fail(c, at) =>
      State(kept + [at], s.history + [at], at, s.logins[c := Waiting])
    case Succeed(c, at) =>
      State([], [], at, s.logins[c := Waiting])
  }

  ghost predicate Legal(s: State, actions: seq<Action>, max: int, window: real)
    decreases |actions|
  {
    actions == [] || (Enabled(s, actions[0]) && Legal(Exec(s, actions[0], max, window), actions[1..], max, window))
  }

  ghost function Run(s: State, actions: seq<Action>, max: int, window: real): State
    requires Legal(s, actions, max, window)
    decreases |actions|
  {
    if actions == [] then s else Run(Exec(s, actions[0], max, window), actions[1..], max, window)
  }

  function Idle(k: nat, now: real): State {
    State([], [], now, seq(k, _ => Waiting))
  }

  // ---- counting ----

  function InWindow(h: seq<real>, lo: real, hi: real): nat {
    if h == [] then 0
    else InWindow(h[..|h| - 1], lo, hi) + (if lo <= h[|h| - 1] < hi then 1 else 0)
  }

  lemma InWindowAppend(h: seq<real>, t: real, lo: real, hi: real)
    ensures InWindow(h + [t], lo, hi) == InWindow(h, lo, hi) + (if lo <= t < hi then 1 else 0)
  {
    assert (h + [t])[..|h|] == h;
  }

  lemma {:induction false} InWindowKept(h: seq<real>, lo: real, hi: real, cutoff: real)
    requires cutoff < lo
    ensures InWindow(h, lo, hi) <= |Prune(h, cutoff)|
  {
    if h != [] { InWindowKept(h[..|h| - 1], lo, hi, cutoff); }
  }

  function PassedCount(logins: seq<Login>): (n: nat)
    ensures n <= |logins|
  {
    if logins == [] then 0 else (if logins[0].Passed? then 1 else 0) + PassedCount(logins[1..])
  }

  lemma {:induction false} PassedUpdate(logins: seq<Login>, c: nat, l: Login)
    requires c < |logins|
    ensures PassedCount(logins[c := l]) ==
      PassedCount(logins) - (if logins[c].Passed? then 1 else 0) + (if l.Passed? then 1 else 0)
  {
    if c == 0 {
      assert logins[c := l][1..] == logins[1..];
    } else {
      PassedUpdate(logins[1..], c - 1, l);
      assert logins[c := l][1..] == logins[1..][c - 1 := l];
    }
  }

  // ---- the invariant ----

  function Limit(max: int, k: nat): int {
    (if max < 1 then 1 else max) - 1 + k
  }

  /** The throttle agrees with the history about all failures that can still count; and for
      the window starting at `lo`, failures so far plus logins already let through stay within
      the limit until the window is over. */
  ghost predicate Inv(s: State, max: int, window: real, lo: real) {
    && (forall c :: c >= s.now - window ==> Prune(s.failures, c) == Prune(s.history, c))
    && (forall i :: 0 <= i < |s.history| ==> s.history[i] <= s.now)
    && Room(s, max, window, lo)
  }

  predicate Room(s: State, max: int, window: real, lo: real) {
    && InWindow(s.history, lo, lo + window) <= Limit(max, |s.logins|)
    && (s.now < lo + window ==>
          InWindow(s.history, lo, lo + window) + PassedCount(s.logins) <= Limit(max, |s.logins|))
  }

  lemma {:induction false} AgreesAfter(s: State, a: Action, max: int, window: real, c: real)
    requires Enabled(s, a) && c >= a.at - window && Prune(s.failures, c) == Prune(s.history, c)
    ensures Prune(Exec(s, a, max, window).failures, c) == Prune(Exec(s, a, max, window).history, c)
  {
    var kept := Prune(s.failures, a.at - window);
    assert Prune(kept, c) == Prune(s.history, c) by { PruneTwice(s.failures, a.at - window, c); }
    if a.Fail? { BothAppend(kept, s.history, a.at, c); }
  }

  lemma BothAppend(a: seq<real>, b: seq<real>, t: real, cutoff: real)
    requires Prune(a, cutoff) == Prune(b, cutoff)
    ensures Prune(a + [t], cutoff) == Prune(b + [t], cutoff)
  {
    PruneAppend(a, t, cutoff);
    PruneAppend(b, t, cutoff);
  }

  lemma CheckLeavesRoom(s: State, at: real, max: int, window: real, lo: real)
    requires Inv(s, max, window, lo) && s.now <= at < lo + window
    requires |Prune(s.failures, at - window)| < max
    ensures InWindow(s.history, lo, lo + window) <= max - 1
  {
    assert Prune(s.failures, at - window) == Prune(s.history, at - window);
    InWindowKept(s.history, lo, lo + window, at - window);
  }

  lemma ExecKeepsInv(s: State, a: Action, max: int, window: real, lo: real)
    requires Inv(s, max, window, lo) && Enabled(s, a)
    ensures Inv(Exec(s, a, max, window), max, window, lo)
  {
    var s' := Exec(s, a, max, window);
    forall c | c >= s'.now - window ensures Prune(s'.failures, c) == Prune(s'.history, c) {
      AgreesAfter(s, a, max, window, c);
    }
    ExecKeepsRoom(s, a, max, window, lo);
  }

  lemma ExecKeepsRoom(s: State, a: Action, max: int, window: real, lo: real)
    requires Inv(s, max, window, lo) && Enabled(s, a)
    ensures Room(Exec(s, a, max, window), max, window, lo)
  {
    var s' := Exec(s, a, max, window);
    PassedUpdate(s.logins, a.c, s'.logins[a.c]);
    match a
    case Check(c, at) =>
      if s'.logins[c].Passed? && at < lo + window {
        CheckLeavesRoom(s, at, max, window, lo);
      }
    case Fail(c, at) =>
      InWindowAppend(s.history, at, lo, lo + window);
    case Succeed(_, _) =>
  }

  lemma {:induction false} RunKeepsInv(s: State, actions: seq<Action>, max: int, window: real, lo: real)
    requires Inv(s, max, window, lo) && Legal(s, actions, max, window)
    ensures Inv(Run(s, actions, max, window), max, window, lo)
    ensures |Run(s, actions, max, window).logins| == |s.logins|
    decreases |actions|
  {
    if actions != [] {
      ExecKeepsInv(s, actions[0], max, window, lo);
      RunKeepsInv(Exec(s, actions[0], max, window), actions[1..], max, window, lo);
    }
  }

  lemma {:induction false} NonePassed(logins: seq<Login>)
    requires forall i :: 0 <= i < |logins| ==> logins[i] == Waiting
    ensures PassedCount(logins) == 0
  {
    if logins != [] { NonePassed(logins[1..]); }
  }

  /** With k logins in flight at a time, any half-open interval of the window's length holds at
      most max - 1 + k failures recorded since the last reset, although every check only looks
      back from its own instant. */
  lemma FailuresBounded(k: nat, start: real, actions: seq<Action>, max: int, window: real, lo: real)
    requires Legal(Idle(k, start), actions, max, window)
    ensures InWindow(Run(Idle(k, start), actions, max, window).history, lo, lo + window) <= Limit(max, k)
  {
    NonePassed(Idle(k, start).logins);
    RunKeepsInv(Idle(k, start), actions, max, window, lo);
  }

  /** One login at a time: at most 10 recorded failures in any 60 seconds between resets. */
  lemma OneAtATimeBounded(start: real, actions: seq<Action>, lo: real)
    requires Legal(Idle(1, start), actions, MAX_FAILURES, WINDOW_SECONDS)
    ensures InWindow(Run(Idle(1, start), actions, MAX_FAILURES, WINDOW_SECONDS).history, lo, lo + 60.0) <= 10
  {
    FailuresBounded(1, start, actions, MAX_FAILURES, WINDOW_SECONDS, lo);
  }

  /** A success forgets every failure, so the next check passes for any positive limit. */
  lemma SuccessResets(s: State, c: nat, at: real, d: nat, later: real, max: int, window: real)
    requires Enabled(s, Succeed(c, at)) && max > 0
    requires d < |s.logins| && (d == c || s.logins[d] == Waiting) && at <= later
    ensures var s' := Exec(s, Succeed(c, at), max, window);
      && s'.failures == [] && s'.history == []
      && Enabled(s', Check(d, later)) && Exec(s', Check(d, later), max, window).logins[d] == Passed
  {
  }

  // ---- the bound is reached ----

  function Same(n: nat, at: real): seq<real> {
    seq(n, _ => at)
  }

  lemma SameMore(n: nat, at: real)
    ensures Same(n, at) + [at] == Same(n + 1, at)
  {
  }

  lemma {:induction false} SameCounts(n: nat, at: real, cutoff: real, hi: real)
    requires cutoff < at < hi
    ensures Prune(Same(n, at), cutoff) == Same(n, at) && InWindow(Same(n, at), at, hi) == n
  {
    if n > 0 {
      SameCounts(n - 1, at, cutoff, hi);
      SameMore(n - 1, at);
      PruneAppend(Same(n - 1, at), at, cutoff);
      InWindowAppend(Same(n - 1, at), at, at, hi);
    }
  }

  lemma {:induction false} RunMore(s: State, actions: seq<Action>, a: Action, max: int, window: real)
    requires Legal(s, actions, max, window) && Enabled(Run(s, actions, max, window), a)
    ensures Legal(s, actions + [a], max, window)
    ensures Run(s, actions + [a], max, window) == Exec(Run(s, actions, max, window), a, max, window)
    decreases |actions|
  {
    var all := actions + [a];
    if actions == [] {
      assert all == [a] && all[1..] == [];
    } else {
      var next := Exec(s, actions[0], max, window);
      RunMore(next, actions[1..], a, max, window);
      assert all[0] == actions[0] && all[1..] == actions[1..] + [a];
    }
  }

  /** `n` failures at one instant, and the logins at `logins`. */
  function At(n: nat, at: real, logins: seq<Login>): State {
    State(Same(n, at), Same(n, at), at, logins)
  }

  /** The first `j` of `k` logins have got to `now`, the others are still at `was`. */
  function Moved(k: nat, j: nat, was: Login, now: Login): seq<Login> {
    seq(k, c => if c < j then now else was)
  }

  lemma CheckPasses(n: nat, at: real, logins: seq<Login>, c: nat, max: int, window: real)
    requires n < max && window > 0.0 && c < |logins| && logins[c] == Waiting
    ensures Exec(At(n, at, logins), Check(c, at), max, window) == At(n, at, logins[c := Passed])
  {
    SameCounts(n, at, at - window, at + 1.0);
  }

  lemma FailCounts(n: nat, at: real, logins: seq<Login>, c: nat, max: int, window: real)
    requires window > 0.0 && c < |logins| && logins[c] == Passed
    ensures Exec(At(n, at, logins), Fail(c, at), max, window) == At(n + 1, at, logins[c := Waiting])
  {
    SameCounts(n, at, at - window, at + 1.0);
    SameMore(n, at);
  }

  /** One login fails `n` times. */
  lemma {:induction false} FailMany(k: nat, n: nat, at: real, max: int, window: real) returns (actions: seq<Action>)
    requires k > 0 && n < max && window > 0.0
    ensures Legal(Idle(k, at), actions, max, window)
    ensures Run(Idle(k, at), actions, max, window) == At(n, at, Idle(k, at).logins)
  {
    if n == 0 { return []; }
    var before := FailMany(k, n - 1, at, max, window);
    var waiting := Idle(k, at).logins;
    CheckPasses(n - 1, at, waiting, 0, max, window);
    RunMore(Idle(k, at), before, Check(0, at), max, window);
    FailCounts(n - 1, at, waiting[0 := Passed], 0, max, window);
    RunMore(Idle(k, at), before + [Check(0, at)], Fail(0, at), max, window);
    assert waiting[0 := Passed][0 := Waiting] == waiting;
    actions := before + [Check(0, at)] + [Fail(0, at)];
  }

  /** The first `j` logins pass their checks. */
  lemma {:induction false} AllPass(k: nat, n: nat, j: nat, at: real, max: int, window: real) returns (actions: seq<Action>)
    requires 0 < k && j <= k && n < max && window > 0.0
    ensures Legal(Idle(k, at), actions, max, window)
    ensures Run(Idle(k, at), actions, max, window) == At(n, at, Moved(k, j, Waiting, Passed))
  {
    if j == 0 {
      actions := FailMany(k, n, at, max, window);
      assert Moved(k, 0, Waiting, Passed) == Idle(k, at).logins;
    } else {
      var before := AllPass(k, n, j - 1, at, max, window);
      var logins := Moved(k, j - 1, Waiting, Passed);
      CheckPasses(n, at, logins, j - 1, max, window);
      assert logins[j - 1 := Passed] == Moved(k, j, Waiting, Passed);
      RunMore(Idle(k, at), before, Check(j - 1, at), max, window);
      actions := before + [Check(j - 1, at)];
    }
  }

  /** Then they fail, one after the other. */
  lemma {:induction false} AllFail(k: nat, n: nat, j: nat, at: real, max: int, window: real) returns (actions: seq<Action>)
    requires 0 < k && j <= k && n < max && window > 0.0
    ensures Legal(Idle(k, at), actions, max, window)
    ensures Run(Idle(k, at), actions, max, window) == At(n + j, at, Moved(k, j, Passed, Waiting))
  {
    if j == 0 {
      actions := AllPass(k, n, k, at, max, window);
      assert Moved(k, k, Waiting, Passed) == Moved(k, 0, Passed, Waiting);
    } else {
      var before := AllFail(k, n, j - 1, at, max, window);
      var logins := Moved(k, j - 1, Passed, Waiting);
      FailCounts(n + j - 1, at, logins, j - 1, max, window);
      assert logins[j - 1 := Waiting] == Moved(k, j, Passed, Waiting);
      RunMore(Idle(k, at), before, Fail(j - 1, at), max, window);
      actions := before + [Fail(j - 1, at)];
    }
  }

  ghost predicate FailuresAtMost(k: nat, start: real, max: int, window: real, bound: int) {
    forall actions, lo :: Obeys(Idle(k, start), actions, max, window, lo, bound)
  }

  ghost predicate Obeys(s: State, actions: seq<Action>, max: int, window: real, lo: real, bound: int) {
    Legal(s, actions, max, window) ==> InWindow(Run(s, actions, max, window).history, lo, lo + window) <= bound
  }

  /** For a positive limit and window and k logins in flight, k positive, max - 1 + k is the
      exact bound. */
  lemma FailureBoundIsExact(k: nat, start: real, max: int, window: real, bound: int)
    requires k > 0 && max > 0 && window > 0.0
    ensures FailuresAtMost(k, start, max, window, bound) <==> bound >= max - 1 + k
  {
    forall actions, lo | bound >= max - 1 + k ensures Obeys(Idle(k, start), actions, max, window, lo, bound) {
      if Legal(Idle(k, start), actions, max, window) { FailuresBounded(k, start, actions, max, window, lo); }
    }
    var actions := AllFail(k, max - 1, k, start, max, window);
    SameCounts(max - 1 + k, start, start - window, start + window);
    assert bound < max - 1 + k ==> !Obeys(Idle(k, start), actions, max, window, start, bound);
  }

  /** With the host's settings and one login at a time, 10 is the exact bound for 60 seconds. */
  lemma DefaultBoundIsExact(start: real, bound: int)
    ensures FailuresAtMost(1, start, MAX_FAILURES, WINDOW_SECONDS, bound) <==> bound >= 10
    ensures WINDOW_SECONDS == 60.0
  {
    FailureBoundIsExact(1, start, MAX_FAILURES, WINDOW_SECONDS, bound);
  }
}
