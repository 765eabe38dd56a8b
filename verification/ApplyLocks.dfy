/** Per-router apply locks: requests that take one lock (activate, deactivate and the other
    apply routes) next to catalog removals, which take every router's lock in sorted order.
    The locks are not reentrant. */
module ApplyLocks {
  import opened Prelude

  // ---- the order in which keys are sorted ----

  /** Code-point order on strings. */
  predicate Less(a: string, b: string) {
    b != "" && (a == "" || a[0] < b[0] || (a[0] == b[0] && Less(a[1..], b[1..])))
  }

  lemma {:induction false} LessTransitive(a: string, b: string, c: string)
    requires Less(a, b) && Less(b, c)
    ensures Less(a, c)
  {
    if a != "" && a[0] == b[0] == c[0] {
      LessTransitive(a[1..], b[1..], c[1..]);
    }
  }

  lemma {:induction false} LessIrreflexive(a: string)
    ensures !Less(a, a)
  {
    if a != "" {
      LessIrreflexive(a[1..]);
    }
  }

  lemma {:induction false} LessTotal(a: string, b: string)
    ensures Less(a, b) || Less(b, a) || a == b
  {
    if a != "" && b != "" && a[0] == b[0] {
      LessTotal(a[1..], b[1..]);
      assert a == [a[0]] + a[1..] && b == [b[0]] + b[1..];
    }
  }

  /** `a` and `b` agree before `i`, and there `a` ends or has the smaller code point. */
  predicate FirstDifference(a: string, b: string, i: nat) {
    i <= |a| && i < |b| && a[..i] == b[..i] && (i == |a| || a[i] < b[i])
  }

  lemma {:induction false} LessMeans(a: string, b: string)
    ensures Less(a, b) <==> exists i :: FirstDifference(a, b, i)
  {
    if a == "" || b == "" || a[0] != b[0] {
      if b != "" && (a == "" || a[0] < b[0]) { assert FirstDifference(a, b, 0); }
      forall i: nat | FirstDifference(a, b, i) ensures Less(a, b) {
        if i > 0 { assert a[..i][0] == b[..i][0]; }
      }
    } else {
      LessMeans(a[1..], b[1..]);
      forall i: nat | FirstDifference(a[1..], b[1..], i) ensures FirstDifference(a, b, i + 1) {
        assert a[..i + 1] == [a[0]] + a[1..][..i] && b[..i + 1] == [b[0]] + b[1..][..i];
      }
      forall i: nat | FirstDifference(a, b, i) ensures i > 0 && FirstDifference(a[1..], b[1..], i - 1) {
        assert a[1..][..i - 1] == a[..i][1..] && b[1..][..i - 1] == b[..i][1..];
      }
    }
  }

  ghost predicate Ascending(keys: seq<string>) {
    forall i, j :: 0 <= i < j < |keys| ==> Less(keys[i], keys[j])
  }

  ghost predicate Distinct(keys: seq<string>) {
    forall i, j :: 0 <= i < j < |keys| ==> keys[i] != keys[j]
  }

  lemma AscendingIsDistinct(keys: seq<string>)
    requires Ascending(keys)
    ensures Distinct(keys)
  {
    forall i, j | 0 <= i < j < |keys| ensures keys[i] != keys[j] {
      LessIrreflexive(keys[i]);
    }
  }

  // ---- the keys of a catalog removal ----

  const DEFAULT_KEY := "__default__"
  const LISTED_ROUTERS := 50

  function InsertKey(keys: seq<string>, k: string): (r: seq<string>)
    ensures forall x :: x in r <==> x in keys || x == k
  {
    if keys == [] then [k]
    else if keys[0] == k then keys
    else if Less(k, keys[0]) then [k] + keys
    else
      assert keys == [keys[0]] + keys[1..];
      [keys[0]] + InsertKey(keys[1..], k)
  }

  /** The distinct keys in ascending order. */
  function SortKeys(ids: seq<string>): (r: seq<string>)
    ensures forall x :: x in r <==> x in ids
  {
    if ids == [] then []
    else
      assert ids == [ids[0]] + ids[1..];
      InsertKey(SortKeys(ids[1..]), ids[0])
  }

  lemma {:induction false} InsertKeyAscending(keys: seq<string>, k: string)
    requires Ascending(keys)
    ensures Ascending(InsertKey(keys, k))
  {
    if keys != [] && keys[0] != k {
      if Less(k, keys[0]) {
        forall j | 0 <= j < |keys| ensures Less(k, keys[j]) {
          if j > 0 { LessTransitive(k, keys[0], keys[j]); }
        }
      } else {
        LessTotal(k, keys[0]);
        InsertKeyAscending(keys[1..], k);
        var rest := InsertKey(keys[1..], k);
        forall j | 0 <= j < |rest| ensures Less(keys[0], rest[j]) {
          assert rest[j] in rest;
          if rest[j] != k {
            var i :| 0 <= i < |keys[1..]| && keys[1..][i] == rest[j];
            assert keys[i + 1] == rest[j];
          }
        }
      }
    }
  }

  lemma {:induction false} SortKeysAscending(ids: seq<string>)
    ensures Ascending(SortKeys(ids))
  {
    if ids != [] {
      SortKeysAscending(ids[1..]);
      InsertKeyAscending(SortKeys(ids[1..]), ids[0]);
    }
  }

  /** Keys of a removal: the routers the store lists by default, and the default key. */
  function RemovalKeys(listing: seq<string>): seq<string> {
    SortKeys((if |listing| <= LISTED_ROUTERS then listing else listing[..LISTED_ROUTERS]) + [DEFAULT_KEY])
  }

  /** The lock a key stands for. */
  function LockName(key: string): string {
    if Strip(key) == "" then DEFAULT_KEY else Strip(key)
  }

  /** White space around a key does not matter, and a blank key stands for the default lock. */
  lemma LockNameMeans(key: string)
    ensures LockName(Strip(key)) == LockName(key)
    ensures Strip(key) != "" ==> LockName(key) == Strip(key)
    ensures Strip(key) == "" ==> LockName(key) == "__default__"
  {
    StripTwice(key);
  }

  function LockNames(keys: seq<string>): (r: seq<string>)
    ensures |r| == |keys| && forall i :: 0 <= i < |keys| ==> r[i] == LockName(keys[i])
  {
    seq(|keys|, i requires 0 <= i < |keys| => LockName(keys[i]))
  }

  /** Router ids that contain no surrounding white space and are not blank, as generated. */
  ghost predicate CleanIds(ids: seq<string>) {
    forall i :: 0 <= i < |ids| ==> LockName(ids[i]) == ids[i]
  }

  /** With clean router ids a removal takes its locks in strictly ascending order. */
  lemma RemovalLocksAscending(listing: seq<string>)
    requires CleanIds(listing)
    ensures LockNames(RemovalKeys(listing)) == RemovalKeys(listing)
    ensures Ascending(RemovalKeys(listing))
    ensures DEFAULT_KEY in RemovalKeys(listing)
    ensures forall i :: 0 <= i < |listing| && i < LISTED_ROUTERS ==> listing[i] in RemovalKeys(listing)
  {
    var used := (if |listing| <= LISTED_ROUTERS then listing else listing[..LISTED_ROUTERS]) + [DEFAULT_KEY];
    var keys := RemovalKeys(listing);
    SortKeysAscending(used);
    assert LockName(DEFAULT_KEY) == DEFAULT_KEY by { StripFixed(DEFAULT_KEY); }
    forall i | 0 <= i < |keys| ensures LockName(keys[i]) == keys[i] {
      assert keys[i] in keys;
      var j :| 0 <= j < |used| && used[j] == keys[i];
    }
    assert used[|used| - 1] == DEFAULT_KEY;
    forall i | 0 <= i < |listing| && i < LISTED_ROUTERS ensures listing[i] in keys {
      assert used[i] == listing[i];
    }
  }

  // ---- requests taking locks ----

  /** `Acquiring(n)`: the first n locks are held and the next is wanted. `Body`: all are
      held and the body runs. `Releasing(n)`: the first n are still held. */
  datatype Stage = Acquiring(n: nat) | Body | Releasing(n: nat)

  datatype Request = Request(locks: seq<string>, stage: Stage)

  type System = seq<Request>

  function HeldCount(r: Request): nat {
    match r.stage
    case Acquiring(n) => n
    case Body => |r.locks|
    case Releasing(n) => n
  }

  predicate WellFormed(r: Request) {
    HeldCount(r) <= |r.locks|
  }

  function Held(r: Request): set<string>
    requires WellFormed(r)
  {
    set i | 0 <= i < HeldCount(r) :: r.locks[i]
  }

  predicate Finished(r: Request) {
    r.stage == Releasing(0)
  }

  ghost predicate AllWellFormed(sys: System) {
    forall t :: 0 <= t < |sys| ==> WellFormed(sys[t])
  }

  /** A lock is free when no request holds it, the asking one included. */
  ghost predicate Free(sys: System, lock: string)
    requires AllWellFormed(sys)
  {
    forall u :: 0 <= u < |sys| ==> lock !in Held(sys[u])
  }

  ghost predicate CanStep(sys: System, t: nat)
    requires AllWellFormed(sys)
  {
    t < |sys| &&
    match sys[t].stage
    case Acquiring(n) => n < |sys[t].locks| ==> Free(sys, sys[t].locks[n])
    case Body => true
    case Releasing(n) => n > 0
  }

  function Advance(r: Request): Request {
    match r.stage
    case Acquiring(n) => r.(stage := if n < |r.locks| then Acquiring(n + 1) else Body)
    case Body => r.(stage := Releasing(|r.locks|))
    case Releasing(n) => r.(stage := Releasing(if n > 0 then n - 1 else 0))
  }

  function Step(sys: System, t: nat): System
    requires t < |sys|
  {
    sys[t := Advance(sys[t])]
  }

  /** A schedule names, step by step, the request that moves. */
  ghost predicate Schedule(sys: System, ts: seq<nat>)
    requires AllWellFormed(sys)
    decreases |ts|
  {
    ts == [] || (CanStep(sys, ts[0]) && AllWellFormed(Step(sys, ts[0])) && Schedule(Step(sys, ts[0]), ts[1..]))
  }

  ghost function After(sys: System, ts: seq<nat>): (r: System)
    requires AllWellFormed(sys) && Schedule(sys, ts)
    ensures |r| == |sys| && AllWellFormed(r)
    decreases |ts|
  {
    if ts == [] then sys else After(Step(sys, ts[0]), ts[1..])
  }

  /** Every request takes its locks in ascending order, and no lock is held twice. */
  ghost predicate Inv(sys: System) {
    && AllWellFormed(sys)
    && (forall t :: 0 <= t < |sys| ==> Ascending(sys[t].locks))
    && (forall t, u :: 0 <= t < u < |sys| ==> Held(sys[t]) !! Held(sys[u]))
  }

  lemma StepKeepsInv(sys: System, t: nat)
    requires Inv(sys) && CanStep(sys, t)
    ensures Inv(Step(sys, t))
  {
    var r, r' := sys[t], Advance(sys[t]);
    assert Held(r') <= Held(r) ||
      (r.stage.Acquiring? && r.stage.n < |r.locks| && Held(r') == Held(r) + {r.locks[r.stage.n]});
    forall a, b | 0 <= a < b < |sys| ensures Held(Step(sys, t)[a]) !! Held(Step(sys, t)[b]) {
      assert Held(sys[a]) !! Held(sys[b]);
    }
  }

  lemma {:induction false} ScheduleKeepsInv(sys: System, ts: seq<nat>)
    requires Inv(sys) && Schedule(sys, ts)
    ensures Inv(After(sys, ts))
    ensures forall t :: 0 <= t < |sys| ==> After(sys, ts)[t].locks == sys[t].locks
    decreases |ts|
  {
    if ts != [] {
      StepKeepsInv(sys, ts[0]);
      ScheduleKeepsInv(Step(sys, ts[0]), ts[1..]);
    }
  }

  // ---- progress ----

  ghost function LocksAbove(sys: System, lock: string): set<string> {
    set t, i | 0 <= t < |sys| && 0 <= i < |sys[t].locks| && Less(lock, sys[t].locks[i]) :: sys[t].locks[i]
  }

  /** As long as some request is unfinished, some request can step: follow the wait from
      request to holder; the wanted locks ascend, so it ends. */
  lemma {:induction false} SomeoneCanStep(sys: System, t: nat) returns (u: nat)
    requires Inv(sys) && t < |sys| && !Finished(sys[t])
    ensures CanStep(sys, u)
    decreases if sys[t].stage.Acquiring? && sys[t].stage.n < |sys[t].locks|
              then |LocksAbove(sys, sys[t].locks[sys[t].stage.n])| + 1 else 0
  {
    if CanStep(sys, t) { return t; }
    var n := sys[t].stage.n;
    var wanted := sys[t].locks[n];
    var h :| 0 <= h < |sys| && wanted in Held(sys[h]);
    var i :| 0 <= i < HeldCount(sys[h]) && sys[h].locks[i] == wanted;
    LessIrreflexive(wanted);
    assert h != t;
    if sys[h].stage.Acquiring? && sys[h].stage.n < |sys[h].locks| {
      var next := sys[h].locks[sys[h].stage.n];
      assert Less(wanted, next);
      forall k | k in LocksAbove(sys, next) ensures k in LocksAbove(sys, wanted) { LessTransitive(wanted, next, k); }
      LessIrreflexive(next);
      assert next in LocksAbove(sys, wanted) && next !in LocksAbove(sys, next);
      SubsetSmaller(LocksAbove(sys, next), LocksAbove(sys, wanted), next);
    }
    u := SomeoneCanStep(sys, h);
  }

  lemma SubsetSmaller(a: set<string>, b: set<string>, x: string)
    requires a <= b && x in b && x !in a
    ensures |a| < |b|
  {
    var rest := b - a;
    assert b == a + rest && a !! rest;
    assert |b| == |a| + |rest|;
    assert x in rest;
  }

  // ---- termination ----

  function StepsLeft(r: Request): int {
    match r.stage
    case Acquiring(n) => 2 * |r.locks| + 2 - n
    case Body => |r.locks| + 1
    case Releasing(n) => n
  }

  function TotalLeft(sys: System): int {
    if sys == [] then 0 else StepsLeft(sys[0]) + TotalLeft(sys[1..])
  }

  lemma {:induction false} TotalUpdate(sys: System, t: nat, r: Request)
    requires t < |sys|
    ensures TotalLeft(sys[t := r]) == TotalLeft(sys) - StepsLeft(sys[t]) + StepsLeft(r)
  {
    if t > 0 {
      TotalUpdate(sys[1..], t - 1, r);
      assert sys[t := r][1..] == sys[1..][t - 1 := r];
    } else {
      assert sys[t := r][1..] == sys[1..];
    }
  }

  lemma {:induction false} TotalNonNegative(sys: System)
    requires AllWellFormed(sys)
    ensures TotalLeft(sys) >= 0
    ensures TotalLeft(sys) == 0 <==> forall t :: 0 <= t < |sys| ==> Finished(sys[t])
  {
    if sys != [] {
      assert forall t :: 0 <= t < |sys[1..]| ==> sys[1..][t] == sys[t + 1];
      TotalNonNegative(sys[1..]);
      if TotalLeft(sys) == 0 {
        forall t | 0 <= t < |sys| ensures Finished(sys[t]) {
          if t > 0 { assert sys[t] == sys[1..][t - 1]; }
        }
      }
    }
  }

  lemma {:induction false} ScheduleLength(sys: System, ts: seq<nat>)
    requires Inv(sys) && Schedule(sys, ts)
    ensures TotalLeft(After(sys, ts)) == TotalLeft(sys) - |ts|
    decreases |ts|
  {
    if ts != [] {
      StepKeepsInv(sys, ts[0]);
      TotalUpdate(sys, ts[0], Advance(sys[ts[0]]));
      ScheduleLength(Step(sys, ts[0]), ts[1..]);
    }
  }

  /** Any number of requests, each taking its locks in ascending order, never deadlock.
      Whatever the schedule: it is never longer than the total work; while any request is
      unfinished some request can step; and a schedule that cannot be continued has
      finished every request. */
  lemma NeverDeadlocks(sys: System, ts: seq<nat>)
    requires Inv(sys) && Schedule(sys, ts)
    ensures |ts| <= TotalLeft(sys)
    ensures (forall t :: 0 <= t < |sys| ==> Finished(After(sys, ts)[t])) <==> |ts| == TotalLeft(sys)
    ensures (exists t: nat :: CanStep(After(sys, ts), t)) <==> |ts| < TotalLeft(sys)
  {
    ScheduleKeepsInv(sys, ts);
    ScheduleLength(sys, ts);
    var s := After(sys, ts);
    TotalNonNegative(s);
    if |ts| < TotalLeft(sys) {
      var t :| 0 <= t < |s| && !Finished(s[t]);
      var u := SomeoneCanStep(s, t);
    } else {
      forall t: nat ensures !CanStep(s, t) {
        if t < |s| { assert Finished(s[t]); }
      }
    }
  }

  /** A body runs only while every lock of its request is held by it and by nobody else. */
  lemma BodyHoldsAll(sys: System, ts: seq<nat>, t: nat, u: nat)
    requires Inv(sys) && Schedule(sys, ts) && t < |sys| && u < |sys| && t != u
    requires After(sys, ts)[t].stage.Body?
    ensures forall k :: k in sys[t].locks ==>
      k in Held(After(sys, ts)[t]) && k !in Held(After(sys, ts)[u])
  {
    ScheduleKeepsInv(sys, ts);
    var s := After(sys, ts);
    forall k | k in sys[t].locks ensures k in Held(s[t]) && k !in Held(s[u]) {
      var i :| 0 <= i < |s[t].locks| && s[t].locks[i] == k;
      assert Held(s[t]) !! Held(s[u]);
    }
  }

  // ---- which requests exclude each other ----

  lemma {:induction false} ScheduleConcat(sys: System, ts: seq<nat>, us: seq<nat>)
    requires AllWellFormed(sys) && Schedule(sys, ts) && Schedule(After(sys, ts), us)
    ensures Schedule(sys, ts + us) && After(sys, ts + us) == After(After(sys, ts), us)
    decreases |ts|
  {
    if ts == [] {
      assert ts + us == us;
    } else {
      ScheduleConcat(Step(sys, ts[0]), ts[1..], us);
      assert (ts + us)[1..] == ts[1..] + us;
    }
  }

  /** A request whose remaining locks are free can run to its body without anyone else. */
  lemma {:induction false} RunToBody(sys: System, t: nat) returns (ts: seq<nat>)
    requires AllWellFormed(sys) && t < |sys| && sys[t].stage.Acquiring? && Distinct(sys[t].locks)
    requires forall u, k :: 0 <= u < |sys| && u != t && k in sys[t].locks ==> k !in Held(sys[u])
    ensures Schedule(sys, ts) && After(sys, ts) == sys[t := sys[t].(stage := Body)]
    decreases |sys[t].locks| - sys[t].stage.n
  {
    var r, n := sys[t], sys[t].stage.n;
    var sys' := Step(sys, t);
    if n < |r.locks| {
      assert r.locks[n] in r.locks;
      assert CanStep(sys, t);
      var rest := RunToBody(sys', t);
      ts := [t] + rest;
      assert ts[1..] == rest;
      assert sys'[t := sys'[t].(stage := Body)] == sys[t := r.(stage := Body)];
    } else {
      ts := [t];
      assert ts[1..] == [] && sys' == sys[t := r.(stage := Body)];
    }
  }

  /** From its body a request can always run to its end. */
  lemma {:induction false} RunToEnd(sys: System, t: nat) returns (ts: seq<nat>)
    requires AllWellFormed(sys) && t < |sys| && !sys[t].stage.Acquiring?
    ensures Schedule(sys, ts) && Finished(After(sys, ts)[t])
    decreases StepsLeft(sys[t])
  {
    if Finished(sys[t]) { return []; }
    var rest := RunToEnd(Step(sys, t), t);
    ts := [t] + rest;
    assert ts[1..] == rest;
  }

  function Start(locks: seq<string>): Request {
    Request(locks, Acquiring(0))
  }

  ghost predicate CanCoexist(a: seq<string>, b: seq<string>) {
    exists ts :: Schedule([Start(a), Start(b)], ts)
      && After([Start(a), Start(b)], ts)[0].stage.Body? && After([Start(a), Start(b)], ts)[1].stage.Body?
  }

  /** Two requests can be in their bodies at the same time exactly when they share no lock. */
  lemma CoexistIffDisjoint(a: seq<string>, b: seq<string>)
    requires Ascending(a) && Ascending(b)
    ensures CanCoexist(a, b) <==> forall k :: k in a ==> k !in b
  {
    var sys := [Start(a), Start(b)];
    assert Inv(sys);
    if CanCoexist(a, b) {
      var ts :| Schedule(sys, ts) && After(sys, ts)[0].stage.Body? && After(sys, ts)[1].stage.Body?;
      BodyHoldsAll(sys, ts, 0, 1);
      BodyHoldsAll(sys, ts, 1, 0);
    }
    if forall k :: k in a ==> k !in b {
      AscendingIsDistinct(a);
      AscendingIsDistinct(b);
      var ts := RunToBody(sys, 0);
      var mid := After(sys, ts);
      forall k | k in Held(mid[0]) ensures k in a { }
      var us := RunToBody(mid, 1);
      ScheduleConcat(sys, ts, us);
    }
  }

  /** A catalog removal excludes a router's requests exactly when the router is among the
      first fifty of the listing. A router past the fiftieth is not locked. */
  lemma RemovalExcludesListed(listing: seq<string>, id: string)
    requires CleanIds(listing) && LockName(id) == id && id != DEFAULT_KEY
    ensures CanCoexist(LockNames(RemovalKeys(listing)), LockNames([id])) <==>
      forall i :: 0 <= i < |listing| && i < 50 ==> listing[i] != id
  {
    var a, b := LockNames(RemovalKeys(listing)), LockNames([id]);
    DisjointFromListed(listing, id);
    CoexistIffDisjoint(a, b);
  }

  lemma DisjointFromListed(listing: seq<string>, id: string)
    requires CleanIds(listing) && LockName(id) == id && id != DEFAULT_KEY
    ensures var a, b := LockNames(RemovalKeys(listing)), LockNames([id]);
      && Ascending(a) && Ascending(b)
      && ((forall k :: k in a ==> k !in b) <==>
          forall i :: 0 <= i < |listing| && i < LISTED_ROUTERS ==> listing[i] != id)
  {
    RemovalLocksAscending(listing);
    assert LockNames([id]) == [id];
    KeysAreListed(listing, id);
    assert id in [id];
  }

  lemma KeysAreListed(listing: seq<string>, id: string)
    requires id != DEFAULT_KEY
    ensures id in RemovalKeys(listing) <==> exists i :: 0 <= i < |listing| && i < LISTED_ROUTERS && listing[i] == id
  {
    var used := (if |listing| <= LISTED_ROUTERS then listing else listing[..LISTED_ROUTERS]) + [DEFAULT_KEY];
    if id in used {
      var j :| 0 <= j < |used| && used[j] == id;
      assert used[|used| - 1] == DEFAULT_KEY;
      assert listing[j] == id;
    }
    forall i | 0 <= i < |listing| && i < LISTED_ROUTERS && listing[i] == id ensures id in used {
      assert used[i] == id;
    }
  }

  /** The clients of the locks. */
  datatype Client = Removal(listing: seq<string>) | OneLock(key: string)

  function ClientLocks(c: Client): seq<string> {
    LockNames(if c.Removal? then RemovalKeys(c.listing) else [c.key])
  }

  function StartAll(clients: seq<Client>): (sys: System)
    ensures |sys| == |clients|
    ensures forall t :: 0 <= t < |sys| ==> sys[t] == Start(ClientLocks(clients[t]))
  {
    seq(|clients|, t requires 0 <= t < |clients| => Start(ClientLocks(clients[t])))
  }

  /** Any mix of catalog removals, each with its own listing of clean router ids, and of
      requests for one router never deadlocks, and every schedule that cannot be continued
      has finished all of them. */
  lemma {:induction false} ClientsNeverDeadlock(clients: seq<Client>, ts: seq<nat>)
    requires forall t :: 0 <= t < |clients| && clients[t].Removal? ==> CleanIds(clients[t].listing)
    requires AllWellFormed(StartAll(clients)) && Schedule(StartAll(clients), ts)
    ensures (forall t :: 0 <= t < |clients| ==> Finished(After(StartAll(clients), ts)[t]))
         || (exists t: nat :: CanStep(After(StartAll(clients), ts), t))
    ensures |ts| <= TotalLeft(StartAll(clients))
  {
    var sys := StartAll(clients);
    forall t | 0 <= t < |sys| ensures Ascending(sys[t].locks) {
      if clients[t].Removal? { RemovalLocksAscending(clients[t].listing); }
    }
    assert Inv(sys);
    NeverDeadlocks(sys, ts);
  }

  // ---- when one request can block itself ----

  ghost predicate PrefixDistinct(r: Request) {
    if r.stage.Acquiring? then r.stage.n <= |r.locks| && Distinct(r.locks[..r.stage.n]) else Distinct(r.locks)
  }

  lemma {:induction false} SoloKeepsDistinct(r: Request, ts: seq<nat>)
    requires WellFormed(r) && PrefixDistinct(r) && Schedule([r], ts)
    ensures PrefixDistinct(After([r], ts)[0]) && After([r], ts)[0].locks == r.locks
    decreases |ts|
  {
    if ts != [] {
      assert ts[0] == 0 && Step([r], 0) == [Advance(r)];
      if r.stage.Acquiring? {
        if r.stage.n < |r.locks| {
          var n := r.stage.n;
          var next := r.locks[..n + 1];
          forall i | 0 <= i < n ensures r.locks[i] != r.locks[n] {
            assert [r][0] == r && r.locks[i] in Held(r);
          }
          forall i, j | 0 <= i < j < |next| ensures next[i] != next[j] {
            if j < n { assert r.locks[..n][i] != r.locks[..n][j]; }
          }
        } else {
          assert r.locks[..r.stage.n] == r.locks;
        }
      }
      SoloKeepsDistinct(Advance(r), ts[1..]);
    }
  }

  /** A request on its own can finish exactly when its keys stand for distinct locks: two
      keys that differ only in surrounding white space make it wait for itself. */
  lemma SoloFinishesIffDistinct(locks: seq<string>)
    ensures (exists ts :: Schedule([Start(locks)], ts) && Finished(After([Start(locks)], ts)[0])) <==> Distinct(locks)
  {
    var sys := [Start(locks)];
    if ts :| Schedule(sys, ts) && Finished(After(sys, ts)[0]) {
      SoloKeepsDistinct(Start(locks), ts);
    }
    if Distinct(locks) {
      var ts := RunToBody(sys, 0);
      var us := RunToEnd(After(sys, ts), 0);
      ScheduleConcat(sys, ts, us);
    }
  }
}
