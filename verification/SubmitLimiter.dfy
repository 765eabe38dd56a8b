/** The public submit rate limiter: a global sliding window and one per page slug, with
    eviction of stale slug windows and a cap on how many slugs are tracked. Every call reads
    the clock once, and the clock never goes back. */
module SubmitLimiter {
  import opened SlidingWindow

  datatype Config = Config(globalMax: int, perSlugMax: int, window: real, maxTracked: int)

  const DEFAULTS := Config(20, 10, 60.0, 256)

  /** The limiter's contents: the stamps in the global bucket and in each slug's bucket. */
  datatype Contents = Contents(global: seq<real>, slugs: map<string, seq<real>>)

  function Evicted(slugs: map<string, seq<real>>, cutoff: real): map<string, seq<real>> {
    map s | s in slugs && Prune(slugs[s], cutoff) != [] :: Prune(slugs[s], cutoff)
  }

  predicate AtCapacity(cfg: Config, slugs: map<string, seq<real>>, slug: string) {
    slug !in slugs && |slugs| >= cfg.maxTracked
  }

  function CheckedContents(cfg: Config, l: Contents, now: real): Contents {
    Contents(Prune(l.global, now - cfg.window), Evicted(l.slugs, now - cfg.window))
  }

  predicate CheckAnswer(cfg: Config, l: Contents, slug: string, now: real) {
    var cutoff := now - cfg.window;
    var slugs := Evicted(l.slugs, cutoff);
    || |Prune(l.global, cutoff)| >= cfg.globalMax
    || AtCapacity(cfg, slugs, slug)
    || (slug in slugs && |slugs[slug]| >= cfg.perSlugMax)
  }

  function RecordedContents(cfg: Config, l: Contents, slug: string, now: real): Contents {
    var cutoff := now - cfg.window;
    var slugs := Evicted(l.slugs, cutoff);
    if AtCapacity(cfg, slugs, slug) then Contents(l.global, slugs)
    else
      var before := if slug in slugs then slugs[slug] else [];
      Contents(Prune(l.global, cutoff) + [now], slugs[slug := before + [now]])
  }

  // ---- whole requests ----

  /** A submit request checks at one clock reading and, if it is let through and valid, records
      at a later one. No other request comes in between. */
  datatype Submit = Submit(slug: string, checked: real, recorded: real, valid: bool)

  predicate Admits(cfg: Config, l: Contents, r: Submit) {
    !CheckAnswer(cfg, l, r.slug, r.checked) && r.valid
  }

  /** The limiter's contents after a request. */
  function Handled(cfg: Config, l: Contents, r: Submit): Contents {
    var checked := CheckedContents(cfg, l, r.checked);
    if Admits(cfg, l, r) then RecordedContents(cfg, checked, r.slug, r.recorded) else checked
  }

  // ---- the classes ----

  class SubmitRateBucket {
    const maxEvents: int
    const window: real
    var events: seq<real>

    constructor (maxEvents: int, window: real)
      ensures this.maxEvents == maxEvents && this.window == window && events == []
    {
      this.maxEvents, this.window, events := maxEvents, window, [];
    }

    method PruneOld(now: real)
      modifies this
      ensures events == Prune(old(events), now - window)
    {
      events := KeepNewer(events, now - window);
    }

    method IsBlocked(now: real) returns (blocked: bool)
      modifies this
      ensures events == Prune(old(events), now - window)
      ensures blocked <==> |events| >= maxEvents
    {
      PruneOld(now);
      blocked := |events| >= maxEvents;
    }

    method Record(now: real)
      modifies this
      ensures events == Prune(old(events), now - window) + [now]
    {
      PruneOld(now);
      events := events + [now];
    }

    method Reset()
      modifies this
      ensures events == []
    {
      events := [];
    }

    method IsStale(now: real) returns (stale: bool)
      modifies this
      ensures events == Prune(old(events), now - window)
      ensures stale <==> events == []
    {
      PruneOld(now);
      stale := events == [];
    }
  }

  /** The per-slug buckets are private to the limiter, so the map holds their stamps. */
  class EntrySubmitRateLimiter {
    const cfg: Config
    const global: SubmitRateBucket
    var slugs: map<string, seq<real>>

    ghost predicate Valid() {
      global.maxEvents == cfg.globalMax && global.window == cfg.window
    }

    ghost function Now(): Contents
      reads this, global
    {
      Contents(global.events, slugs)
    }

    constructor (cfg: Config)
      ensures Valid() && fresh(global) && this.cfg == cfg
      ensures Now() == Contents([], map[])
    {
      this.cfg := cfg;
      global := new SubmitRateBucket(cfg.globalMax, cfg.window);
      slugs := map[];
    }

    method EvictStale(now: real)
      modifies this
      ensures slugs == Evicted(old(slugs), now - cfg.window)
    {
      var cutoff := now - cfg.window;
      var todo, stale: set<string> := slugs.Keys, {};
      while todo != {}
        invariant todo <= slugs.Keys == old(slugs).Keys
        invariant forall s :: s in todo ==> slugs[s] == old(slugs)[s]
        invariant forall s :: s in slugs && s !in todo ==> slugs[s] == Prune(old(slugs)[s], cutoff)
        invariant stale == set s | s in slugs && s !in todo && slugs[s] == []
        decreases todo
      {
        var s :| s in todo;
        var kept := KeepNewer(slugs[s], cutoff);
        slugs := slugs[s := kept];
        if slugs[s] == [] { stale := stale + {s}; }
        todo := todo - {s};
      }
      slugs := slugs - stale;
    }

    method IsBlocked(slug: string, now: real) returns (blocked: bool)
      requires Valid()
      modifies this, global
      ensures Now() == CheckedContents(cfg, old(Now()), now)
      ensures blocked == CheckAnswer(cfg, old(Now()), slug, now)
    {
      EvictStale(now);
      blocked := global.IsBlocked(now);
      if blocked { return; }
      if slug !in slugs && |slugs| >= cfg.maxTracked { return true; }
      if slug !in slugs { return false; }
      PruneIdempotent(old(slugs), now - cfg.window, slug);
      slugs := slugs[slug := Prune(slugs[slug], now - cfg.window)];
      blocked := |slugs[slug]| >= cfg.perSlugMax;
    }

    method Record(slug: string, now: real)
      requires Valid()
      modifies this, global
      ensures Now() == RecordedContents(cfg, old(Now()), slug, now)
    {
      EvictStale(now);
      if slug !in slugs && |slugs| >= cfg.maxTracked { return; }
      global.Record(now);
      if slug in slugs { PruneIdempotent(old(slugs), now - cfg.window, slug); }
      var bucket := if slug in slugs then Prune(slugs[slug], now - cfg.window) else [];
      slugs := slugs[slug := bucket + [now]];
    }

    method Reset()
      modifies this, global
      ensures Now() == Contents([], map[])
    {
      global.Reset();
      slugs := map[];
    }

    method TrackedSlugCount(now: real) returns (n: nat)
      modifies this
      ensures Now() == old(Now()).(slugs := Evicted(old(slugs), now - cfg.window))
      ensures n == |Evicted(old(slugs), now - cfg.window)|
    {
      EvictStale(now);
      n := |slugs|;
    }
  }

  /** The order of the two limiter calls in the submit handler. */
  method HandleSubmit(limiter: EntrySubmitRateLimiter, r: Submit) returns (accepted: bool)
    requires limiter.Valid()
    modifies limiter, limiter.global
    ensures accepted == Admits(limiter.cfg, old(limiter.Now()), r)
    ensures limiter.Now() == Handled(limiter.cfg, old(limiter.Now()), r)
  {
    var blocked := limiter.IsBlocked(r.slug, r.checked);
    if blocked || !r.valid { return false; }
    limiter.Record(r.slug, r.recorded);
    return true;
  }

  lemma PruneIdempotent(slugs: map<string, seq<real>>, cutoff: real, slug: string)
    requires slug in Evicted(slugs, cutoff)
    ensures Prune(Evicted(slugs, cutoff)[slug], cutoff) == Evicted(slugs, cutoff)[slug]
  {
    PruneTwice(slugs[slug], cutoff, cutoff);
  }
}
