/** Sliding windows over recorded time stamps, and the full history they stand for. */
module SlidingWindow {

  /** Keeps the stamps newer than the cutoff, in order. */
  function Prune(stamps: seq<real>, cutoff: real): seq<real> {
    if stamps == [] then []
    else
      var rest := Prune(stamps[..|stamps| - 1], cutoff);
      var last := stamps[|stamps| - 1];
      if last > cutoff then rest + [last] else rest
  }

  lemma PruneAppend(stamps: seq<real>, t: real, cutoff: real)
    ensures Prune(stamps + [t], cutoff) == Prune(stamps, cutoff) + (if t > cutoff then [t] else [])
  {
    assert (stamps + [t])[..|stamps|] == stamps;
  }

  /** `result` lists the stamps at the ascending positions `at`, which are all the positions
      of stamps newer than the cutoff. */
  ghost predicate NewerAt(at: seq<nat>, stamps: seq<real>, cutoff: real, result: seq<real>) {
    && |at| == |result|
    && (forall i :: 0 <= i < |at| ==> at[i] < |stamps| && stamps[at[i]] == result[i])
    && (forall i, j :: 0 <= i < j < |at| ==> at[i] < at[j])
    && (forall k :: 0 <= k < |stamps| ==> (k in at <==> stamps[k] > cutoff))
  }

  ghost predicate KeptNewer(stamps: seq<real>, cutoff: real, result: seq<real>) {
    exists at :: NewerAt(at, stamps, cutoff, result)
  }

  lemma OneMoreStamp(at: seq<nat>, stamps: seq<real>, cutoff: real, result: seq<real>, t: real)
    requires NewerAt(at, stamps, cutoff, result)
    ensures t > cutoff ==> NewerAt(at + [|stamps|], stamps + [t], cutoff, result + [t])
    ensures t <= cutoff ==> NewerAt(at, stamps + [t], cutoff, result)
  {
    var n, all := |stamps|, stamps + [t];
    assert n !in at;
    if t > cutoff {
      forall k | 0 <= k < |all| ensures k in at + [n] <==> all[k] > cutoff {
        if k < n { assert k in at <==> stamps[k] > cutoff; }
      }
    }
  }

  lemma KeptOneMore(stamps: seq<real>, cutoff: real, result: seq<real>, t: real)
    requires KeptNewer(stamps, cutoff, result)
    ensures KeptNewer(stamps + [t], cutoff, if t > cutoff then result + [t] else result)
  {
    var at :| NewerAt(at, stamps, cutoff, result);
    OneMoreStamp(at, stamps, cutoff, result, t);
  }

  /** Pruning keeps exactly the stamps newer than the cutoff, each as often as it was there
      and in the order it was in. */
  lemma {:induction false} PruneKeepsNewer(stamps: seq<real>, cutoff: real)
    ensures KeptNewer(stamps, cutoff, Prune(stamps, cutoff))
  {
    if stamps == [] {
      assert NewerAt([], stamps, cutoff, []);
    } else {
      var rest, last := stamps[..|stamps| - 1], stamps[|stamps| - 1];
      PruneKeepsNewer(rest, cutoff);
      KeptOneMore(rest, cutoff, Prune(rest, cutoff), last);
      assert stamps == rest + [last];
    }
  }

  /** The pruning loop. */
  method KeepNewer(stamps: seq<real>, cutoff: real) returns (kept: seq<real>)
    ensures kept == Prune(stamps, cutoff)
  {
    kept := [];
    for i := 0 to |stamps|
      invariant kept == Prune(stamps[..i], cutoff)
    {
      PruneAppend(stamps[..i], stamps[i], cutoff);
      assert stamps[..i + 1] == stamps[..i] + [stamps[i]];
      if stamps[i] > cutoff { kept := kept + [stamps[i]]; }
    }
    assert stamps[..|stamps|] == stamps;
  }

  /** A later cutoff forgets the earlier one. */
  lemma {:induction false} PruneTwice(stamps: seq<real>, a: real, b: real)
    requires a <= b
    ensures Prune(Prune(stamps, a), b) == Prune(stamps, b)
  {
    if stamps != [] {
      var rest, last := stamps[..|stamps| - 1], stamps[|stamps| - 1];
      PruneTwice(rest, a, b);
      PruneAppend(Prune(rest, a), last, b);
    }
  }

  /** A recorded event. */
  datatype Entry = Entry(slug: string, at: real)

  function Recent(h: seq<Entry>, cutoff: real): seq<Entry> {
    if h == [] then []
    else
      var rest := Recent(h[..|h| - 1], cutoff);
      if h[|h| - 1].at > cutoff then rest + [h[|h| - 1]] else rest
  }

  /** The events in the half-open interval from `lo` up to `hi`. */
  function Within(h: seq<Entry>, lo: real, hi: real): seq<Entry> {
    if h == [] then []
    else
      var rest := Within(h[..|h| - 1], lo, hi);
      if lo <= h[|h| - 1].at < hi then rest + [h[|h| - 1]] else rest
  }

  function Stamps(h: seq<Entry>): seq<real> {
    if h == [] then [] else Stamps(h[..|h| - 1]) + [h[|h| - 1].at]
  }

  function OfSlug(h: seq<Entry>, slug: string): seq<Entry> {
    if h == [] then []
    else OfSlug(h[..|h| - 1], slug) + (if h[|h| - 1].slug == slug then [h[|h| - 1]] else [])
  }

  function Slugs(h: seq<Entry>): set<string> {
    set i | 0 <= i < |h| :: h[i].slug
  }

  // ---- appending an event ----

  lemma AppendEntry(h: seq<Entry>, e: Entry, cutoff: real, slug: string)
    ensures Recent(h + [e], cutoff) == Recent(h, cutoff) + (if e.at > cutoff then [e] else [])
    ensures Stamps(h + [e]) == Stamps(h) + [e.at]
    ensures OfSlug(h + [e], slug) == OfSlug(h, slug) + (if e.slug == slug then [e] else [])
  {
    assert (h + [e])[..|h|] == h;
  }

  lemma AppendWithin(h: seq<Entry>, e: Entry, lo: real, hi: real)
    ensures Within(h + [e], lo, hi) == Within(h, lo, hi) + (if lo <= e.at < hi then [e] else [])
  {
    assert (h + [e])[..|h|] == h;
  }

  // ---- history against pruned stamps ----

  lemma {:induction false} RecentStamps(h: seq<Entry>, cutoff: real)
    ensures Stamps(Recent(h, cutoff)) == Prune(Stamps(h), cutoff)
    ensures |Stamps(h)| == |h|
  {
    if h != [] {
      var rest, e := h[..|h| - 1], h[|h| - 1];
      RecentStamps(rest, cutoff);
      PruneAppend(Stamps(rest), e.at, cutoff);
      AppendEntry(Recent(rest, cutoff), e, cutoff, e.slug);
    }
  }

  lemma {:induction false} RecentOfSlug(h: seq<Entry>, cutoff: real, slug: string)
    ensures OfSlug(Recent(h, cutoff), slug) == Recent(OfSlug(h, slug), cutoff)
  {
    if h != [] {
      var rest, e := h[..|h| - 1], h[|h| - 1];
      RecentOfSlug(rest, cutoff, slug);
      AppendEntry(Recent(rest, cutoff), e, cutoff, slug);
      AppendEntry(OfSlug(rest, slug), e, cutoff, slug);
      assert OfSlug(rest, slug) + [] == OfSlug(rest, slug);
    }
  }

  lemma {:induction false} OfSlugEmpty(h: seq<Entry>, slug: string)
    ensures OfSlug(h, slug) == [] <==> slug !in Slugs(h)
    ensures |OfSlug(h, slug)| <= |h|
  {
    if h != [] {
      OfSlugEmpty(h[..|h| - 1], slug);
      SlugsAppend(h[..|h| - 1], h[|h| - 1]);
      assert h == h[..|h| - 1] + [h[|h| - 1]];
    }
  }

  lemma SlugsAppend(h: seq<Entry>, e: Entry)
    ensures Slugs(h + [e]) == Slugs(h) + {e.slug}
  {
    var all := h + [e];
    assert all[|h|] == e;
    forall s | s in Slugs(h) ensures s in Slugs(all) {
      var i :| 0 <= i < |h| && h[i].slug == s;
      assert all[i].slug == s;
    }
  }

  /** There are no more slugs than events. */
  lemma {:induction false} FewerSlugs(h: seq<Entry>)
    ensures |Slugs(h)| <= |h|
  {
    if h != [] {
      FewerSlugs(h[..|h| - 1]);
      SlugsAppend(h[..|h| - 1], h[|h| - 1]);
      assert h == h[..|h| - 1] + [h[|h| - 1]];
    }
  }

  /** As time goes on, fewer of the events recorded so far are recent. */
  lemma {:induction false} RecentShrinks(h: seq<Entry>, a: real, b: real)
    requires a <= b
    ensures |Recent(h, b)| <= |Recent(h, a)|
  {
    if h != [] { RecentShrinks(h[..|h| - 1], a, b); }
  }

  /** Events inside a window that starts after the cutoff are all recent. */
  lemma {:induction false} WithinIsRecent(h: seq<Entry>, cutoff: real, lo: real, hi: real)
    requires cutoff < lo
    ensures |Within(h, lo, hi)| <= |Recent(h, cutoff)|
  {
    if h != [] { WithinIsRecent(h[..|h| - 1], cutoff, lo, hi); }
  }

  // ---- closed intervals ----

  /** The events from `lo` to `hi`, both included. */
  function WithinClosed(h: seq<Entry>, lo: real, hi: real): seq<Entry> {
    if h == [] then []
    else
      var rest := WithinClosed(h[..|h| - 1], lo, hi);
      if lo <= h[|h| - 1].at <= hi then rest + [h[|h| - 1]] else rest
  }

  lemma {:induction false} ClosedInside(h: seq<Entry>, lo: real, hi: real, end: real)
    requires hi < end
    ensures |WithinClosed(h, lo, hi)| <= |Within(h, lo, end)|
  {
    if h != [] { ClosedInside(h[..|h| - 1], lo, hi, end); }
  }

  /** `n` events of one slug at one instant. */
  function Burst(n: nat, e: Entry): seq<Entry> {
    seq(n, _ => e)
  }

  lemma BurstMore(n: nat, e: Entry)
    ensures Burst(n, e) + [e] == Burst(n + 1, e)
  {
  }

  lemma {:induction false} BurstRecent(n: nat, e: Entry, cutoff: real)
    ensures Recent(Burst(n, e), cutoff) == if e.at > cutoff then Burst(n, e) else []
    ensures OfSlug(Burst(n, e), e.slug) == Burst(n, e)
  {
    if n > 0 {
      BurstRecent(n - 1, e, cutoff);
      BurstMore(n - 1, e);
      AppendEntry(Burst(n - 1, e), e, cutoff, e.slug);
    }
  }

  lemma {:induction false} BurstClosed(n: nat, e: Entry, hi: real)
    requires e.at <= hi
    ensures WithinClosed(Burst(n, e), e.at, hi) == Burst(n, e)
  {
    if n > 0 {
      BurstClosed(n - 1, e, hi);
      BurstMore(n - 1, e);
      assert Burst(n, e)[..n - 1] == Burst(n - 1, e);
    }
  }
}
