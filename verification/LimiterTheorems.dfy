/** The submit limiter against a specification that forgets nothing. */
module LimiterTheorems {
  import opened SlidingWindow
  import opened SubmitLimiter

  // ---- the specification: the full history of recorded submissions ----

  /** Counts the submissions newer than the window: all of them, the slug's own, and how many
      slugs have any. */
  predicate SpecBlocked(cfg: Config, h: seq<Entry>, slug: string, now: real) {
    var recent := Recent(h, now - cfg.window);
    || |recent| >= cfg.globalMax
    || (slug !in Slugs(recent) && |Slugs(recent)| >= cfg.maxTracked)
    || (slug in Slugs(recent) && |OfSlug(recent, slug)| >= cfg.perSlugMax)
  }

  function SpecRecord(cfg: Config, h: seq<Entry>, slug: string, now: real): seq<Entry> {
    var slugs := Slugs(Recent(h, now - cfg.window));
    if slug !in slugs && |slugs| >= cfg.maxTracked then h else h + [Entry(slug, now)]
  }

  datatype Op = Check(slug: string, at: real) | Record(slug: string, at: real) | Tracked(at: real) | Reset(at: real)

  datatype Answer = Blocked(b: bool) | Count(n: nat) | Silent

  function SpecNext(cfg: Config, h: seq<Entry>, op: Op): seq<Entry> {
    match op
    case Check(_, _) => h
    case Record(slug, at) => SpecRecord(cfg, h, slug, at)
    case Tracked(_) => h
    case Reset(_) => []
  }

  function SpecAnswer(cfg: Config, h: seq<Entry>, op: Op): Answer {
    match op
    case Check(slug, at) => Blocked(SpecBlocked(cfg, h, slug, at))
    case Record(_, _) => Silent
    case Tracked(at) => Count(|Slugs(Recent(h, at - cfg.window))|)
    case Reset(_) => Silent
  }

  /** What the limiter's methods do, as their contracts state it. */
  function LimiterNext(cfg: Config, l: Contents, op: Op): Contents {
    match op
    case Check(_, at) => CheckedContents(cfg, l, at)
    case Record(slug, at) => RecordedContents(cfg, l, slug, at)
    case Tracked(at) => l.(slugs := Evicted(l.slugs, at - cfg.window))
    case Reset(_) => Contents([], map[])
  }

  function LimiterAnswer(cfg: Config, l: Contents, op: Op): Answer {
    match op
    case Check(slug, at) => Blocked(CheckAnswer(cfg, l, slug, at))
    case Record(_, _) => Silent
    case Tracked(at) => Count(|Evicted(l.slugs, at - cfg.window)|)
    case Reset(_) => Silent
  }

  function SpecAnswers(cfg: Config, h: seq<Entry>, ops: seq<Op>): seq<Answer>
    decreases |ops|
  {
    if ops == [] then []
    else [SpecAnswer(cfg, h, ops[0])] + SpecAnswers(cfg, SpecNext(cfg, h, ops[0]), ops[1..])
  }

  function LimiterAnswers(cfg: Config, l: Contents, ops: seq<Op>): seq<Answer>
    decreases |ops|
  {
    if ops == [] then []
    else [LimiterAnswer(cfg, l, ops[0])] + LimiterAnswers(cfg, LimiterNext(cfg, l, ops[0]), ops[1..])
  }

  /** The clock never goes back. */
  ghost predicate ClockFrom(ops: seq<Op>, last: real) {
    && (forall i :: 0 <= i < |ops| ==> last <= ops[i].at)
    && (forall i, j :: 0 <= i < j < |ops| ==> ops[i].at <= ops[j].at)
  }

  // ---- the coupling ----

  function Bucket(l: Contents, slug: string): seq<real> {
    if slug in l.slugs then l.slugs[slug] else []
  }

  /** From `last` on, bucket and history agree about every event that can still count. */
  ghost predicate Coupled(cfg: Config, l: Contents, h: seq<Entry>, last: real) {
    forall c :: c >= last - cfg.window ==> Agree(l, h, c)
  }

  ghost predicate Agree(l: Contents, h: seq<Entry>, c: real) {
    && Prune(l.global, c) == Prune(Stamps(h), c)
    && forall slug :: SlugAgree(l, h, c, slug)
  }

  predicate SlugAgree(l: Contents, h: seq<Entry>, c: real, slug: string) {
    Prune(Bucket(l, slug), c) == Prune(Stamps(OfSlug(h, slug)), c)
  }

  lemma RecentSlugStamps(h: seq<Entry>, c: real, slug: string)
    ensures Prune(Stamps(OfSlug(h, slug)), c) == Stamps(OfSlug(Recent(h, c), slug))
    ensures |Stamps(OfSlug(Recent(h, c), slug))| == |OfSlug(Recent(h, c), slug)|
    ensures Prune(Stamps(OfSlug(h, slug)), c) == [] <==> slug !in Slugs(Recent(h, c))
  {
    RecentStamps(OfSlug(h, slug), c);
    RecentOfSlug(h, c, slug);
    RecentStamps(OfSlug(Recent(h, c), slug), c);
    OfSlugEmpty(Recent(h, c), slug);
  }

  /** What remains after eviction is what the history calls recent. */
  lemma EvictedIsRecent(l: Contents, h: seq<Entry>, c: real)
    requires Agree(l, h, c)
    ensures Evicted(l.slugs, c).Keys == Slugs(Recent(h, c))
    ensures forall slug :: slug in Evicted(l.slugs, c) ==>
      |Evicted(l.slugs, c)[slug]| == |OfSlug(Recent(h, c), slug)|
    ensures |Prune(l.global, c)| == |Recent(h, c)|
  {
    var left := Evicted(l.slugs, c);
    forall slug
      ensures slug in left <==> slug in Slugs(Recent(h, c))
      ensures slug in left ==> |left[slug]| == |OfSlug(Recent(h, c), slug)|
    {
      assert SlugAgree(l, h, c, slug);
      RecentSlugStamps(h, c, slug);
    }
    RecentStamps(h, c);
    RecentStamps(Recent(h, c), c);
  }

  lemma PrunedAgree(l: Contents, h: seq<Entry>, a: real, c: real)
    requires a <= c && Agree(l, h, c)
    ensures Agree(Contents(Prune(l.global, a), Evicted(l.slugs, a)), h, c)
    ensures Agree(Contents(l.global, Evicted(l.slugs, a)), h, c)
  {
    PruneTwice(l.global, a, c);
    forall slug
      ensures SlugAgree(Contents(Prune(l.global, a), Evicted(l.slugs, a)), h, c, slug)
      ensures SlugAgree(Contents(l.global, Evicted(l.slugs, a)), h, c, slug)
    {
      assert SlugAgree(l, h, c, slug);
      PruneTwice(Bucket(l, slug), a, c);
    }
  }

  lemma RecordAgree(l: Contents, h: seq<Entry>, c: real, slug: string, now: real)
    requires Agree(l, h, c)
    ensures Agree(Contents(l.global + [now], l.slugs[slug := Bucket(l, slug) + [now]]), h + [Entry(slug, now)], c)
  {
    var l', e := Contents(l.global + [now], l.slugs[slug := Bucket(l, slug) + [now]]), Entry(slug, now);
    forall s ensures SlugAgree(l', h + [e], c, s) {
      assert SlugAgree(l, h, c, s);
      RecordSlugAgree(l, h, c, slug, now, s);
    }
    AppendEntry(h, e, c, slug);
    PruneAppend(l.global, now, c);
    PruneAppend(Stamps(h), now, c);
  }

  lemma RecordSlugAgree(l: Contents, h: seq<Entry>, c: real, slug: string, now: real, s: string)
    requires SlugAgree(l, h, c, s)
    ensures SlugAgree(Contents(l.global + [now], l.slugs[slug := Bucket(l, slug) + [now]]), h + [Entry(slug, now)], c, s)
  {
    var e := Entry(slug, now);
    AppendEntry(h, e, c, s);
    if s == slug {
      AppendEntry(OfSlug(h, s), e, c, s);
      PruneAppend(Bucket(l, s), now, c);
      PruneAppend(Stamps(OfSlug(h, s)), now, c);
    } else {
      assert OfSlug(h, s) + [] == OfSlug(h, s);
    }
  }

  /** One call: the answers are the same and the coupling is kept. */
  lemma StepRefines(cfg: Config, l: Contents, h: seq<Entry>, last: real, op: Op)
    requires Coupled(cfg, l, h, last) && last <= op.at
    ensures LimiterAnswer(cfg, l, op) == SpecAnswer(cfg, h, op)
    ensures Coupled(cfg, LimiterNext(cfg, l, op), SpecNext(cfg, h, op), op.at)
  {
    var a := op.at - cfg.window;
    assert Agree(l, h, a);
    SameAnswer(cfg, l, h, op);
    forall c | c >= a ensures Agree(LimiterNext(cfg, l, op), SpecNext(cfg, h, op), c) {
      assert Agree(l, h, c);
      StepAgrees(cfg, l, h, op, c);
    }
  }

  lemma SameAnswer(cfg: Config, l: Contents, h: seq<Entry>, op: Op)
    requires Agree(l, h, op.at - cfg.window)
    ensures LimiterAnswer(cfg, l, op) == SpecAnswer(cfg, h, op)
  {
    var a := op.at - cfg.window;
    EvictedIsRecent(l, h, a);
    assert |Evicted(l.slugs, a)| == |Evicted(l.slugs, a).Keys|;
  }

  lemma StepAgrees(cfg: Config, l: Contents, h: seq<Entry>, op: Op, c: real)
    requires Agree(l, h, op.at - cfg.window) && Agree(l, h, c) && c >= op.at - cfg.window
    ensures Agree(LimiterNext(cfg, l, op), SpecNext(cfg, h, op), c)
  {
    match op
    case Check(_, at) => PrunedAgree(l, h, at - cfg.window, c);
    case Record(slug, at) => RecordStepAgrees(cfg, l, h, slug, at, c);
    case Tracked(at) => PrunedAgree(l, h, at - cfg.window, c);
    case Reset(_) => NewLimiterCoupled(cfg, c + cfg.window);
  }

  lemma SameCapacity(cfg: Config, l: Contents, h: seq<Entry>, slug: string, a: real)
    requires Agree(l, h, a)
    ensures var slugs := Slugs(Recent(h, a));
      AtCapacity(cfg, Evicted(l.slugs, a), slug) <==> slug !in slugs && |slugs| >= cfg.maxTracked
  {
    EvictedIsRecent(l, h, a);
    assert |Evicted(l.slugs, a)| == |Evicted(l.slugs, a).Keys|;
  }

  lemma RecordStepAgrees(cfg: Config, l: Contents, h: seq<Entry>, slug: string, at: real, c: real)
    requires Agree(l, h, at - cfg.window) && Agree(l, h, c) && c >= at - cfg.window
    ensures Agree(RecordedContents(cfg, l, slug, at), SpecRecord(cfg, h, slug, at), c)
  {
    var a := at - cfg.window;
    PrunedAgree(l, h, a, c);
    SameCapacity(cfg, l, h, slug, a);
    if !AtCapacity(cfg, Evicted(l.slugs, a), slug) {
      RecordAgree(Contents(Prune(l.global, a), Evicted(l.slugs, a)), h, c, slug, at);
    }
  }

  /** For every sequence of calls, the limiter answers exactly as the specification that keeps
      the full history: pruning, evicting and re-creating buckets never shows. */
  lemma {:induction false} LimiterRefinesHistory(cfg: Config, l: Contents, h: seq<Entry>, last: real, ops: seq<Op>)
    requires Coupled(cfg, l, h, last) && ClockFrom(ops, last)
    ensures LimiterAnswers(cfg, l, ops) == SpecAnswers(cfg, h, ops)
    decreases |ops|
  {
    if ops != [] {
      StepRefines(cfg, l, h, last, ops[0]);
      LimiterRefinesHistory(cfg, LimiterNext(cfg, l, ops[0]), SpecNext(cfg, h, ops[0]), ops[0].at, ops[1..]);
    }
  }

  function SpecAfter(cfg: Config, ops: seq<Op>): seq<Entry> {
    if ops == [] then [] else SpecNext(cfg, SpecAfter(cfg, ops[..|ops| - 1]), ops[|ops| - 1])
  }

  function LimiterAfter(cfg: Config, ops: seq<Op>): Contents {
    if ops == [] then Contents([], map[])
    else LimiterNext(cfg, LimiterAfter(cfg, ops[..|ops| - 1]), ops[|ops| - 1])
  }

  lemma {:induction false} RunCoupled(cfg: Config, ops: seq<Op>, last: real)
    requires ClockFrom(ops, last)
    ensures Coupled(cfg, LimiterAfter(cfg, ops), SpecAfter(cfg, ops), if ops == [] then last else ops[|ops| - 1].at)
  {
    if ops == [] {
      NewLimiterCoupled(cfg, last);
    } else {
      var before := ops[..|ops| - 1];
      RunCoupled(cfg, before, last);
      StepRefines(cfg, LimiterAfter(cfg, before), SpecAfter(cfg, before),
                  if before == [] then last else before[|before| - 1].at, ops[|ops| - 1]);
    }
  }

  /** After every sequence of calls, one history explains all buckets at once: its recent
      events are the in-window events of the global bucket, and those of each slug are the
      in-window events of that slug's bucket. The global bucket is the merge of the others. */
  lemma GlobalIsMerge(cfg: Config, ops: seq<Op>, last: real, now: real, slug: string)
    requires ClockFrom(ops, last) && last <= now && (ops != [] ==> ops[|ops| - 1].at <= now)
    ensures var l, c := LimiterAfter(cfg, ops), now - cfg.window;
      var recent := Recent(SpecAfter(cfg, ops), c);
      && Prune(l.global, c) == Stamps(recent)
      && Prune(Bucket(l, slug), c) == Stamps(OfSlug(recent, slug))
  {
    var l, h, c := LimiterAfter(cfg, ops), SpecAfter(cfg, ops), now - cfg.window;
    RunCoupled(cfg, ops, last);
    assert Agree(l, h, c) && SlugAgree(l, h, c, slug);
    RecentStamps(h, c);
    RecentSlugStamps(h, c, slug);
  }

  /** The relation holds for a new limiter and the empty history. */
  lemma NewLimiterCoupled(cfg: Config, last: real)
    ensures Coupled(cfg, Contents([], map[]), [], last)
  {
    forall c | c >= last - cfg.window ensures Agree(Contents([], map[]), [], c) {
      forall slug ensures SlugAgree(Contents([], map[]), [], c, slug) { }
    }
  }

  /** The plain reading of the limits: blocked when a count has reached its limit. */
  predicate PlainBlocked(cfg: Config, h: seq<Entry>, slug: string, now: real) {
    var recent := Recent(h, now - cfg.window);
    || |recent| >= cfg.globalMax
    || (slug !in Slugs(recent) && |Slugs(recent)| >= cfg.maxTracked)
    || |OfSlug(recent, slug)| >= cfg.perSlugMax
  }

  /** An untracked slug is let through without looking at the slug limit, so the plain reading
      is met for all histories exactly when that limit is positive (or nothing ever passes). */
  lemma PlainReadingIff(cfg: Config)
    ensures (forall h, slug, now :: SpecBlocked(cfg, h, slug, now) == PlainBlocked(cfg, h, slug, now))
      <==> cfg.perSlugMax >= 1 || cfg.globalMax <= 0 || cfg.maxTracked <= 0
  {
    if cfg.perSlugMax >= 1 || cfg.globalMax <= 0 || cfg.maxTracked <= 0 {
      forall h, slug, now ensures SpecBlocked(cfg, h, slug, now) == PlainBlocked(cfg, h, slug, now) {
        OfSlugEmpty(Recent(h, now - cfg.window), slug);
      }
    } else {
      assert Slugs(Recent([], 0.0 - cfg.window)) == {};
      assert SpecBlocked(cfg, [], "", 0.0) != PlainBlocked(cfg, [], "", 0.0);
    }
  }

  // ---- whole requests: record only after an unblocked check ----

  predicate Accepts(cfg: Config, h: seq<Entry>, r: Submit) {
    !SpecBlocked(cfg, h, r.slug, r.checked) && r.valid
  }

  function Serve(cfg: Config, h: seq<Entry>, r: Submit): seq<Entry> {
    if Accepts(cfg, h, r) then SpecRecord(cfg, h, r.slug, r.recorded) else h
  }

  function ServeAll(cfg: Config, rs: seq<Submit>): seq<Entry> {
    if rs == [] then [] else Serve(cfg, ServeAll(cfg, rs[..|rs| - 1]), rs[|rs| - 1])
  }

  ghost predicate InOrder(rs: seq<Submit>) {
    && (forall i :: 0 <= i < |rs| ==> rs[i].checked <= rs[i].recorded)
    && (forall i, j :: 0 <= i < j < |rs| ==> rs[i].recorded <= rs[j].checked)
  }

  function AtLeast(a: int, b: int): int {
    if a < b then b else a
  }

  /** When a request records, the limits still have room. */
  lemma RoomToRecord(cfg: Config, h: seq<Entry>, r: Submit, c: real)
    requires Accepts(cfg, h, r) && c >= r.checked - cfg.window
    ensures |Recent(h, c)| < cfg.globalMax
    ensures |Recent(OfSlug(h, r.slug), c)| < AtLeast(cfg.perSlugMax, 1)
  {
    var a := r.checked - cfg.window;
    RecentShrinks(h, a, c);
    RecentShrinks(OfSlug(h, r.slug), a, c);
    RecentOfSlug(h, a, r.slug);
    OfSlugEmpty(Recent(h, a), r.slug);
  }

  /** In every run of one-at-a-time requests, any half-open interval of the window's length
      holds at most the global limit of accepted submissions, and at most the slug limit of
      any one slug (one, if that limit is not positive). */
  lemma {:induction false} WindowBounds(cfg: Config, rs: seq<Submit>, lo: real, slug: string)
    requires InOrder(rs)
    ensures |Within(ServeAll(cfg, rs), lo, lo + cfg.window)| <= AtLeast(cfg.globalMax, 0)
    ensures |Within(OfSlug(ServeAll(cfg, rs), slug), lo, lo + cfg.window)| <= AtLeast(cfg.perSlugMax, 1)
  {
    if rs != [] {
      WindowBounds(cfg, rs[..|rs| - 1], lo, slug);
      ServeKeepsBounds(cfg, ServeAll(cfg, rs[..|rs| - 1]), rs[|rs| - 1], lo, slug);
    }
  }

  lemma ServeKeepsBounds(cfg: Config, h: seq<Entry>, r: Submit, lo: real, slug: string)
    requires r.checked <= r.recorded
    requires |Within(h, lo, lo + cfg.window)| <= AtLeast(cfg.globalMax, 0)
    requires |Within(OfSlug(h, slug), lo, lo + cfg.window)| <= AtLeast(cfg.perSlugMax, 1)
    ensures |Within(Serve(cfg, h, r), lo, lo + cfg.window)| <= AtLeast(cfg.globalMax, 0)
    ensures |Within(OfSlug(Serve(cfg, h, r), slug), lo, lo + cfg.window)| <= AtLeast(cfg.perSlugMax, 1)
  {
    var e := Entry(r.slug, r.recorded);
    if Serve(cfg, h, r) != h {
      ServeAppends(cfg, h, r);
      if lo <= e.at < lo + cfg.window { RoomInWindow(cfg, h, r, lo, slug); }
      AppendWithinBounds(cfg, h, e, lo, slug);
    }
  }

  lemma ServeAppends(cfg: Config, h: seq<Entry>, r: Submit)
    requires Serve(cfg, h, r) != h
    ensures Accepts(cfg, h, r) && Serve(cfg, h, r) == h + [Entry(r.slug, r.recorded)]
  {
  }

  lemma AppendWithinBounds(cfg: Config, h: seq<Entry>, e: Entry, lo: real, slug: string)
    requires |Within(h, lo, lo + cfg.window)| <= AtLeast(cfg.globalMax, 0)
    requires |Within(OfSlug(h, slug), lo, lo + cfg.window)| <= AtLeast(cfg.perSlugMax, 1)
    requires lo <= e.at < lo + cfg.window ==> |Within(h, lo, lo + cfg.window)| < cfg.globalMax
    requires lo <= e.at < lo + cfg.window && e.slug == slug ==>
      |Within(OfSlug(h, slug), lo, lo + cfg.window)| < AtLeast(cfg.perSlugMax, 1)
    ensures |Within(h + [e], lo, lo + cfg.window)| <= AtLeast(cfg.globalMax, 0)
    ensures |Within(OfSlug(h + [e], slug), lo, lo + cfg.window)| <= AtLeast(cfg.perSlugMax, 1)
  {
    AppendCounts(h, e, lo, lo + cfg.window, slug);
  }

  lemma RoomInWindow(cfg: Config, h: seq<Entry>, r: Submit, lo: real, slug: string)
    requires Accepts(cfg, h, r) && r.checked <= r.recorded < lo + cfg.window
    ensures |Within(h, lo, lo + cfg.window)| < cfg.globalMax
    ensures r.slug == slug ==> |Within(OfSlug(h, slug), lo, lo + cfg.window)| < AtLeast(cfg.perSlugMax, 1)
  {
    var c := r.recorded - cfg.window;
    RoomToRecord(cfg, h, r, c);
    WithinIsRecent(h, c, lo, lo + cfg.window);
    WithinIsRecent(OfSlug(h, slug), c, lo, lo + cfg.window);
  }

  lemma AppendCounts(h: seq<Entry>, e: Entry, lo: real, hi: real, slug: string)
    ensures |Within(h + [e], lo, hi)| == |Within(h, lo, hi)| + (if lo <= e.at < hi then 1 else 0)
    ensures |Within(OfSlug(h + [e], slug), lo, hi)|
         == |Within(OfSlug(h, slug), lo, hi)| + (if lo <= e.at < hi && e.slug == slug then 1 else 0)
  {
    AppendWithin(h, e, lo, hi);
    AppendEntry(h, e, lo, slug);
    AppendWithin(OfSlug(h, slug), e, lo, hi);
    assert OfSlug(h, slug) + [] == OfSlug(h, slug);
  }

  /** In every such run the tracked slugs never outnumber the global limit. */
  lemma {:induction false} TrackedWithinGlobal(cfg: Config, rs: seq<Submit>, now: real)
    requires InOrder(rs) && (rs != [] ==> rs[|rs| - 1].recorded <= now)
    ensures |Recent(ServeAll(cfg, rs), now - cfg.window)| <= AtLeast(cfg.globalMax, 0)
    ensures |Slugs(Recent(ServeAll(cfg, rs), now - cfg.window))| <= AtLeast(cfg.globalMax, 0)
  {
    var c := now - cfg.window;
    if rs != [] {
      var r := rs[|rs| - 1];
      var before := rs[..|rs| - 1];
      EarlierInOrder(rs);
      TrackedWithinGlobal(cfg, before, now);
      ServeWithinGlobal(cfg, ServeAll(cfg, before), r, c);
    }
    FewerSlugs(Recent(ServeAll(cfg, rs), c));
  }

  lemma ServeWithinGlobal(cfg: Config, h: seq<Entry>, r: Submit, c: real)
    requires |Recent(h, c)| <= AtLeast(cfg.globalMax, 0) && r.checked - cfg.window <= c
    ensures |Recent(Serve(cfg, h, r), c)| <= AtLeast(cfg.globalMax, 0)
  {
    if Accepts(cfg, h, r) {
      RoomToRecord(cfg, h, r, c);
      AppendEntry(h, Entry(r.slug, r.recorded), c, r.slug);
    }
  }

  /** When the global limit is at most the slug capacity, the capacity test never decides:
      it changes no answer, and no accepted submission is dropped when it is recorded. */
  lemma CapacityNeverDecides(cfg: Config, h: seq<Entry>, slug: string, now: real, r: Submit)
    requires cfg.globalMax <= cfg.maxTracked
    ensures SpecBlocked(cfg, h, slug, now) ==
      (var recent := Recent(h, now - cfg.window);
       |recent| >= cfg.globalMax || (slug in Slugs(recent) && |OfSlug(recent, slug)| >= cfg.perSlugMax))
    ensures Accepts(cfg, h, r) && r.checked <= r.recorded ==>
      SpecRecord(cfg, h, r.slug, r.recorded) == h + [Entry(r.slug, r.recorded)]
  {
    FewerSlugs(Recent(h, now - cfg.window));
    FewerSlugs(Recent(h, r.recorded - cfg.window));
    if Accepts(cfg, h, r) && r.checked <= r.recorded {
      RoomToRecord(cfg, h, r, r.recorded - cfg.window);
    }
  }

  /** In every such run the tracked slugs never outnumber the capacity either. */
  lemma {:induction false} TrackedWithinCapacity(cfg: Config, rs: seq<Submit>, now: real)
    requires InOrder(rs) && (rs != [] ==> rs[|rs| - 1].recorded <= now)
    ensures |Slugs(Recent(ServeAll(cfg, rs), now - cfg.window))| <= AtLeast(cfg.maxTracked, 0)
  {
    if rs == [] {
      assert Slugs(Recent([], now - cfg.window)) == {};
    } else {
      var before, r := rs[..|rs| - 1], rs[|rs| - 1];
      EarlierInOrder(rs);
      TrackedWithinCapacity(cfg, before, now);
      TrackedWithinCapacity(cfg, before, r.recorded);
      ServeWithinCapacity(cfg, ServeAll(cfg, before), r, now - cfg.window);
    }
  }

  lemma EarlierInOrder(rs: seq<Submit>)
    requires InOrder(rs) && rs != []
    ensures var before, r := rs[..|rs| - 1], rs[|rs| - 1];
      InOrder(before) && r.checked <= r.recorded && (before != [] ==> before[|before| - 1].recorded <= r.checked)
  {
  }

  lemma ServeWithinCapacity(cfg: Config, h: seq<Entry>, r: Submit, c: real)
    requires r.recorded - cfg.window <= c
    requires |Slugs(Recent(h, c))| <= AtLeast(cfg.maxTracked, 0)
    requires |Slugs(Recent(h, r.recorded - cfg.window))| <= AtLeast(cfg.maxTracked, 0)
    ensures |Slugs(Recent(Serve(cfg, h, r), c))| <= AtLeast(cfg.maxTracked, 0)
  {
    var a := r.recorded - cfg.window;
    RecentSlugsShrink(h, a, c);
    ServedSlugs(cfg, h, r, c);
    SetsWithinCapacity(cfg, Slugs(Recent(h, c)), Slugs(Recent(h, a)), Slugs(Recent(Serve(cfg, h, r), c)), r.slug);
  }

  /** A request leaves the recent slugs as they are, or adds its own where there is room. */
  lemma ServedSlugs(cfg: Config, h: seq<Entry>, r: Submit, c: real)
    ensures var recent, after := Slugs(Recent(h, c)), Slugs(Recent(Serve(cfg, h, r), c));
      var older := Slugs(Recent(h, r.recorded - cfg.window));
      after == recent || (after == recent + {r.slug} && (r.slug in older || |older| < cfg.maxTracked))
  {
    SlugsAfter(h, Entry(r.slug, r.recorded), c);
  }

  lemma SetsWithinCapacity(cfg: Config, recent: set<string>, older: set<string>, after: set<string>, slug: string)
    requires recent <= older && |recent| <= AtLeast(cfg.maxTracked, 0) && |older| <= AtLeast(cfg.maxTracked, 0)
    requires after == recent || (after == recent + {slug} && (slug in older || |older| < cfg.maxTracked))
    ensures |after| <= AtLeast(cfg.maxTracked, 0)
  {
    SubsetCount(recent + {slug}, older + {slug});
  }

  lemma SlugsAfter(h: seq<Entry>, e: Entry, c: real)
    ensures Slugs(Recent(h + [e], c)) == Slugs(Recent(h, c)) + (if e.at > c then {e.slug} else {})
  {
    AppendEntry(h, e, c, e.slug);
    SlugsAppend(Recent(h, c), e);
  }

  lemma {:induction false} RecentSlugsShrink(h: seq<Entry>, a: real, b: real)
    requires a <= b
    ensures Slugs(Recent(h, b)) <= Slugs(Recent(h, a))
  {
    if h != [] {
      var rest, e := h[..|h| - 1], h[|h| - 1];
      RecentSlugsShrink(rest, a, b);
      SlugsAppend(Recent(rest, a), e);
      SlugsAppend(Recent(rest, b), e);
    }
  }

  lemma SubsetCount(a: set<string>, b: set<string>)
    requires a <= b
    ensures |a| <= |b|
    ensures |a| == |b| ==> a == b
  {
    assert b == a + (b - a) && a !! (b - a);
    assert |b| == |a| + |b - a|;
  }

  /** Every accepted submission is recorded, whatever the settings: the capacity test that
      guards recording never drops one that the check let through. */
  lemma {:induction false} AcceptedIsRecorded(cfg: Config, rs: seq<Submit>, r: Submit)
    requires InOrder(rs) && r.checked <= r.recorded && (rs != [] ==> rs[|rs| - 1].recorded <= r.checked)
    requires Accepts(cfg, ServeAll(cfg, rs), r)
    ensures Serve(cfg, ServeAll(cfg, rs), r) == ServeAll(cfg, rs) + [Entry(r.slug, r.recorded)]
  {
    var h := ServeAll(cfg, rs);
    var a, b := r.checked - cfg.window, r.recorded - cfg.window;
    TrackedWithinCapacity(cfg, rs, r.checked);
    RecentSlugsShrink(h, a, b);
    SubsetCount(Slugs(Recent(h, b)), Slugs(Recent(h, a)));
    if r.slug in Slugs(Recent(h, a)) && r.slug !in Slugs(Recent(h, b)) {
      assert |Slugs(Recent(h, b))| < |Slugs(Recent(h, a))|;
    }
  }

  // ---- the limiter itself, serving requests ----

  function LimiterServed(cfg: Config, rs: seq<Submit>): Contents {
    if rs == [] then Contents([], map[])
    else Handled(cfg, LimiterServed(cfg, rs[..|rs| - 1]), rs[|rs| - 1])
  }

  /** The submissions that the limiter lets through, by its own answers. */
  function Accepted(cfg: Config, rs: seq<Submit>): seq<Entry> {
    if rs == [] then []
    else
      var before, r := rs[..|rs| - 1], rs[|rs| - 1];
      Accepted(cfg, before)
      + if Admits(cfg, LimiterServed(cfg, before), r) then [Entry(r.slug, r.recorded)] else []
  }

  lemma HandledRefines(cfg: Config, l: Contents, h: seq<Entry>, last: real, r: Submit)
    requires Coupled(cfg, l, h, last) && last <= r.checked <= r.recorded
    ensures Admits(cfg, l, r) == Accepts(cfg, h, r)
    ensures Coupled(cfg, Handled(cfg, l, r), Serve(cfg, h, r), r.recorded)
  {
    StepRefines(cfg, l, h, last, Check(r.slug, r.checked));
    var checked := CheckedContents(cfg, l, r.checked);
    StepRefines(cfg, checked, h, r.checked, Record(r.slug, r.recorded));
  }

  /** When the last of the requests recorded, or would have. */
  function LastAt(rs: seq<Submit>, start: real): real {
    if rs == [] then start else rs[|rs| - 1].recorded
  }

  ghost predicate ServedFrom(rs: seq<Submit>, start: real) {
    InOrder(rs) && (rs != [] ==> start <= rs[0].checked)
  }

  /** Serving every sequence of requests, the limiter lets through exactly what the history
      specification accepts, all of it is recorded, and its buckets still stand for it. */
  lemma {:induction false} ServingRefines(cfg: Config, rs: seq<Submit>, start: real)
    requires ServedFrom(rs, start)
    ensures Coupled(cfg, LimiterServed(cfg, rs), ServeAll(cfg, rs), LastAt(rs, start))
    ensures Accepted(cfg, rs) == ServeAll(cfg, rs)
  {
    if rs == [] {
      NewLimiterCoupled(cfg, start);
    } else {
      var before, r := rs[..|rs| - 1], rs[|rs| - 1];
      EarlierInOrder(rs);
      ServingRefines(cfg, before, start);
      HandledRefines(cfg, LimiterServed(cfg, before), ServeAll(cfg, before), LastAt(before, start), r);
      if Accepts(cfg, ServeAll(cfg, before), r) {
        AcceptedIsRecorded(cfg, before, r);
      }
    }
  }

  /** Any half-open interval of the window's length holds at most the global limit of the
      submissions that the limiter let through, and at most the slug limit of any slug. */
  lemma LimiterWindowBounds(cfg: Config, rs: seq<Submit>, start: real, lo: real, slug: string)
    requires ServedFrom(rs, start)
    ensures |Within(Accepted(cfg, rs), lo, lo + cfg.window)| <= AtLeast(cfg.globalMax, 0)
    ensures |Within(OfSlug(Accepted(cfg, rs), slug), lo, lo + cfg.window)| <= AtLeast(cfg.perSlugMax, 1)
  {
    ServingRefines(cfg, rs, start);
    WindowBounds(cfg, rs, lo, slug);
  }

  /** With the settings the host uses: at most 20 in any 60 seconds, and 10 of any slug. */
  lemma LimiterDefaultBounds(rs: seq<Submit>, start: real, lo: real, slug: string)
    requires ServedFrom(rs, start)
    ensures |Within(Accepted(DEFAULTS, rs), lo, lo + 60.0)| <= 20
    ensures |Within(OfSlug(Accepted(DEFAULTS, rs), slug), lo, lo + 60.0)| <= 10
  {
    LimiterWindowBounds(DEFAULTS, rs, start, lo, slug);
  }

  /** The number of slugs the limiter reports as tracked never exceeds the global limit nor the
      slug capacity, whatever the settings. */
  lemma LimiterTrackedBounds(cfg: Config, rs: seq<Submit>, start: real, now: real)
    requires ServedFrom(rs, start) && LastAt(rs, start) <= now
    ensures var n := |Evicted(LimiterServed(cfg, rs).slugs, now - cfg.window)|;
      n <= AtLeast(cfg.globalMax, 0) && n <= AtLeast(cfg.maxTracked, 0)
  {
    ServingRefines(cfg, rs, start);
    SameCountAt(cfg, LimiterServed(cfg, rs), ServeAll(cfg, rs), LastAt(rs, start), now);
    TrackedWithinGlobal(cfg, rs, now);
    TrackedWithinCapacity(cfg, rs, now);
  }

  /** When the global limit is at most the slug capacity, the limiter's answer in every served
      run is that of the two rate limits alone, counted over what it has let through. */
  lemma LimiterIgnoresCapacity(cfg: Config, rs: seq<Submit>, start: real, slug: string, now: real)
    requires ServedFrom(rs, start) && LastAt(rs, start) <= now && cfg.globalMax <= cfg.maxTracked
    ensures CheckAnswer(cfg, LimiterServed(cfg, rs), slug, now) ==
      (var recent := Recent(Accepted(cfg, rs), now - cfg.window);
       |recent| >= cfg.globalMax || (slug in Slugs(recent) && |OfSlug(recent, slug)| >= cfg.perSlugMax))
  {
    ServingRefines(cfg, rs, start);
    SameAnswerAt(cfg, LimiterServed(cfg, rs), ServeAll(cfg, rs), LastAt(rs, start), slug, now);
    CapacityNeverDecides(cfg, ServeAll(cfg, rs), slug, now, Submit(slug, now, now, false));
  }

  lemma SameCountAt(cfg: Config, l: Contents, h: seq<Entry>, last: real, now: real)
    requires Coupled(cfg, l, h, last) && last <= now
    ensures |Evicted(l.slugs, now - cfg.window)| == |Slugs(Recent(h, now - cfg.window))|
  {
    StepRefines(cfg, l, h, last, Tracked(now));
  }

  lemma SameAnswerAt(cfg: Config, l: Contents, h: seq<Entry>, last: real, slug: string, now: real)
    requires Coupled(cfg, l, h, last) && last <= now
    ensures CheckAnswer(cfg, l, slug, now) == SpecBlocked(cfg, h, slug, now)
  {
    StepRefines(cfg, l, h, last, Check(slug, now));
  }

  // ---- closed intervals ----

  ghost predicate ObeysClosed(cfg: Config, h: seq<Entry>, lo: real, len: real, slug: string) {
    && |WithinClosed(h, lo, lo + len)| <= cfg.globalMax
    && |WithinClosed(OfSlug(h, slug), lo, lo + len)| <= cfg.perSlugMax
  }

  ghost predicate AllObeyClosed(cfg: Config, len: real) {
    forall rs, start, lo, slug | ServedFrom(rs, start) :: ObeysClosed(cfg, Accepted(cfg, rs), lo, len, slug)
  }

  /** A request at one instant. */
  function Instant(e: Entry): Submit {
    Submit(e.slug, e.at, e.at, true)
  }

  function Requests(n: nat, e: Entry): seq<Submit> {
    seq(n, _ => Instant(e))
  }

  /** As many requests at once as both limits allow are all let through. */
  lemma {:induction false} BurstServed(cfg: Config, n: nat, e: Entry)
    requires n <= cfg.globalMax && n <= cfg.perSlugMax && cfg.maxTracked >= 1 && cfg.window > 0.0
    ensures ServeAll(cfg, Requests(n, e)) == Burst(n, e)
  {
    if n > 0 {
      BurstServed(cfg, n - 1, e);
      assert Requests(n, e)[..n - 1] == Requests(n - 1, e);
      RoomInBurst(cfg, n - 1, e);
      BurstMore(n - 1, e);
    }
  }

  lemma RoomInBurst(cfg: Config, n: nat, e: Entry)
    requires n < cfg.globalMax && n < cfg.perSlugMax && cfg.maxTracked >= 1 && cfg.window > 0.0
    ensures Serve(cfg, Burst(n, e), Instant(e)) == Burst(n, e) + [e]
  {
    BurstRecent(n, e, e.at - cfg.window);
    BurstSlugs(n, e);
  }

  lemma BurstSlugs(n: nat, e: Entry)
    ensures Slugs(Burst(n, e)) == if n == 0 then {} else {e.slug}
  {
    if n > 0 { assert Burst(n, e)[0].slug == e.slug; }
  }

  /** One window later, the next one is let through. */
  lemma ServedAfterWindow(cfg: Config, n: nat, e: Entry, next: Entry)
    requires cfg.globalMax >= 1 && cfg.maxTracked >= 1 && next.slug == e.slug && next.at == e.at + cfg.window
    ensures Serve(cfg, Burst(n, e), Instant(next)) == Burst(n, e) + [next]
  {
    BurstRecent(n, e, next.at - cfg.window);
    assert Slugs([]) == {};
  }

  /** With positive settings every closed interval of a length obeys both limits, in every run
      the limiter serves, exactly if the length is less than the window: an event exactly one
      window old no longer counts. */
  lemma ClosedWindowIff(cfg: Config, len: real)
    requires cfg.globalMax >= 1 && cfg.perSlugMax >= 1 && cfg.maxTracked >= 1 && cfg.window > 0.0
    ensures AllObeyClosed(cfg, len) <==> len < cfg.window
  {
    if len < cfg.window {
      forall rs, start, lo, slug | ServedFrom(rs, start) ensures ObeysClosed(cfg, Accepted(cfg, rs), lo, len, slug) {
        ShorterObeys(cfg, rs, start, lo, len, slug);
      }
    } else {
      var rs := ClosedWindowFails(cfg, len);
      assert !ObeysClosed(cfg, Accepted(cfg, rs), 0.0, len, "");
    }
  }

  lemma ShorterObeys(cfg: Config, rs: seq<Submit>, start: real, lo: real, len: real, slug: string)
    requires cfg.globalMax >= 1 && cfg.perSlugMax >= 1 && len < cfg.window && ServedFrom(rs, start)
    ensures ObeysClosed(cfg, Accepted(cfg, rs), lo, len, slug)
  {
    LimiterWindowBounds(cfg, rs, start, lo, slug);
    ShorterThan(cfg, Accepted(cfg, rs), lo, len, slug);
  }

  lemma ShorterThan(cfg: Config, h: seq<Entry>, lo: real, len: real, slug: string)
    requires |Within(h, lo, lo + cfg.window)| <= cfg.globalMax && len < cfg.window
    requires |Within(OfSlug(h, slug), lo, lo + cfg.window)| <= cfg.perSlugMax
    ensures ObeysClosed(cfg, h, lo, len, slug)
  {
    ClosedInside(h, lo, lo + len, lo + cfg.window);
    ClosedInside(OfSlug(h, slug), lo, lo + len, lo + cfg.window);
  }

  lemma ClosedWindowFails(cfg: Config, len: real) returns (rs: seq<Submit>)
    requires cfg.globalMax >= 1 && cfg.perSlugMax >= 1 && cfg.maxTracked >= 1 && cfg.window > 0.0
    requires len >= cfg.window
    ensures ServedFrom(rs, 0.0) && !ObeysClosed(cfg, Accepted(cfg, rs), 0.0, len, "")
  {
    var n := if cfg.globalMax < cfg.perSlugMax then cfg.globalMax else cfg.perSlugMax;
    var e, next := Entry("", 0.0), Entry("", cfg.window);
    rs := Requests(n, e) + [Instant(next)];
    BurstServed(cfg, n, e);
    assert rs[..n] == Requests(n, e);
    ServedAfterWindow(cfg, n, e, next);
    ServingRefines(cfg, rs, 0.0);
    var h := Burst(n, e) + [next];
    assert Accepted(cfg, rs) == h;
    OneTooMany(n, e, next, len);
  }

  lemma OneTooMany(n: nat, e: Entry, next: Entry, len: real)
    requires e.at == 0.0 <= next.at <= len && next.slug == e.slug
    ensures var h := Burst(n, e) + [next];
      |WithinClosed(h, 0.0, 0.0 + len)| == n + 1 && |WithinClosed(OfSlug(h, e.slug), 0.0, 0.0 + len)| == n + 1
  {
    var h := Burst(n, e) + [next];
    assert h[..n] == Burst(n, e);
    BurstClosed(n, e, len);
    BurstRecent(n, e, 0.0);
    AppendEntry(Burst(n, e), next, 0.0, e.slug);
  }

  // ---- the host's settings ----

  /** The limits are reached: 10 requests for one page at once are let through, and so are 20 for
      two pages; and closed intervals obey the limits exactly if they are shorter than 60
      seconds. */
  lemma DefaultsAreExact(at: real, one: string, other: string, len: real)
    requires one != other
    ensures Accepted(DEFAULTS, Requests(10, Entry(one, at))) == Burst(10, Entry(one, at))
    ensures Accepted(DEFAULTS, Requests(10, Entry(one, at)) + Requests(10, Entry(other, at)))
         == Burst(10, Entry(one, at)) + Burst(10, Entry(other, at))
    ensures AllObeyClosed(DEFAULTS, len) <==> len < 60.0
  {
    BurstAccepted(Entry(one, at));
    BurstsAccepted(Entry(one, at), Entry(other, at));
    ClosedWindowIff(DEFAULTS, len);
  }

  lemma BurstAccepted(e: Entry)
    ensures Accepted(DEFAULTS, Requests(10, e)) == Burst(10, e)
  {
    BurstServed(DEFAULTS, 10, e);
    ServingRefines(DEFAULTS, Requests(10, e), e.at);
  }

  lemma BurstsAccepted(e: Entry, f: Entry)
    requires e.slug != f.slug && e.at == f.at
    ensures Accepted(DEFAULTS, Requests(10, e) + Requests(10, f)) == Burst(10, e) + Burst(10, f)
  {
    SecondBurst(e, f, 10);
    ServingRefines(DEFAULTS, Requests(10, e) + Requests(10, f), e.at);
  }

  lemma {:induction false} SecondBurst(e: Entry, f: Entry, n: nat)
    requires e.slug != f.slug && e.at == f.at && n <= 10
    ensures ServeAll(DEFAULTS, Requests(10, e) + Requests(n, f)) == Burst(10, e) + Burst(n, f)
  {
    if n == 0 {
      BurstServed(DEFAULTS, 10, e);
      assert Requests(10, e) + Requests(0, f) == Requests(10, e) && Burst(10, e) + Burst(0, f) == Burst(10, e);
    } else {
      SecondBurst(e, f, n - 1);
      var rs := Requests(10, e) + Requests(n, f);
      assert rs[..|rs| - 1] == Requests(10, e) + Requests(n - 1, f) && rs[|rs| - 1] == Instant(f);
      RoomForOther(e, f, n - 1);
      BurstMore(n - 1, f);
      assert Burst(10, e) + Burst(n - 1, f) + [f] == Burst(10, e) + (Burst(n - 1, f) + [f]);
    }
  }

  lemma RoomForOther(e: Entry, f: Entry, n: nat)
    requires e.slug != f.slug && e.at == f.at && n < 10
    ensures Serve(DEFAULTS, Burst(10, e) + Burst(n, f), Instant(f)) == Burst(10, e) + Burst(n, f) + [f]
  {
    var h := Burst(10, e) + Burst(n, f);
    AllRecent(h, f.at - 60.0);
    TwoBursts(e, f, n);
  }

  lemma {:induction false} AllRecent(h: seq<Entry>, cutoff: real)
    requires forall i :: 0 <= i < |h| ==> h[i].at > cutoff
    ensures Recent(h, cutoff) == h
  {
    if h != [] {
      AllRecent(h[..|h| - 1], cutoff);
      assert h == h[..|h| - 1] + [h[|h| - 1]];
    }
  }

  lemma {:induction false} TwoBursts(e: Entry, f: Entry, n: nat)
    requires e.slug != f.slug
    ensures |OfSlug(Burst(10, e) + Burst(n, f), f.slug)| == n
    ensures Slugs(Burst(10, e) + Burst(n, f)) == {e.slug} + (if n == 0 then {} else {f.slug})
  {
    var h := Burst(10, e) + Burst(n, f);
    if n == 0 {
      assert h == Burst(10, e);
      NoneOf(10, e, f.slug);
      assert h[0] == e;
    } else {
      TwoBursts(e, f, n - 1);
      BurstMore(n - 1, f);
      var before := Burst(10, e) + Burst(n - 1, f);
      assert h == before + [f];
      AppendEntry(before, f, 0.0, f.slug);
      SlugsAppend(before, f);
    }
  }

  lemma {:induction false} NoneOf(n: nat, e: Entry, slug: string)
    requires e.slug != slug
    ensures OfSlug(Burst(n, e), slug) == []
  {
    if n > 0 {
      NoneOf(n - 1, e, slug);
      BurstMore(n - 1, e);
      AppendEntry(Burst(n - 1, e), e, 0.0, slug);
    }
  }
}
