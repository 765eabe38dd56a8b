/** Path normalisation before authorisation. The input is the percent-decoded path. */
module ApiPath {
  import opened Prelude

  ghost predicate HasPair(s: string, a: char, b: char) {
    exists i :: 0 <= i < |s| - 1 && s[i] == a && s[i + 1] == b
  }

  predicate Contains(s: string, a: char, b: char)
    ensures Contains(s, a, b) <==> HasPair(s, a, b)
  {
    if |s| < 2 then false
    else if s[0] == a && s[1] == b then true
    else
      assert HasPair(s[1..], a, b) ==> HasPair(s, a, b) by {
        if i :| 0 <= i < |s[1..]| - 1 && s[1..][i] == a && s[1..][i + 1] == b {
          assert s[i + 1] == a && s[i + 2] == b;
        }
      }
      assert HasPair(s, a, b) ==> HasPair(s[1..], a, b) by {
        if i :| 0 <= i < |s| - 1 && s[i] == a && s[i + 1] == b {
          assert s[1..][i - 1] == a && s[1..][i] == b;
        }
      }
      Contains(s[1..], a, b)
  }

  /** Replaces "//" by "/" from left to right, without looking back. */
  function ReplaceDouble(s: string): string {
    if |s| < 2 then s
    else if s[0] == '/' && s[1] == '/' then "/" + ReplaceDouble(s[2..])
    else [s[0]] + ReplaceDouble(s[1..])
  }

  /** One pass that keeps a single slash of every maximal run. */
  function Collapse(s: string): (r: string)
    ensures s != "" ==> r != "" && r[0] == s[0]
    ensures |r| <= |s|
  {
    if s == "" then ""
    else if s[0] == '/' && |s| > 1 && s[1] == '/' then Collapse(s[1..])
    else [s[0]] + Collapse(s[1..])
  }

  lemma CollapseCons(c: char, s: string)
    ensures Collapse([c] + s) == if c == '/' && s != "" && s[0] == '/' then Collapse(s) else [c] + Collapse(s)
  {
    assert ([c] + s)[1..] == s;
  }

  lemma {:induction false} CollapseNoDouble(s: string)
    ensures !HasPair(Collapse(s), '/', '/')
  {
    if s != "" {
      CollapseNoDouble(s[1..]);
      var r := Collapse(s[1..]);
      if Collapse(s) != r {
        var all := Collapse(s);
        forall i | 0 <= i < |all| - 1 ensures !(all[i] == '/' && all[i + 1] == '/') {
          if i > 0 { assert all[i] == r[i - 1] && all[i + 1] == r[i]; }
        }
      }
    }
  }

  lemma {:induction false} CollapseFixed(s: string)
    requires !HasPair(s, '/', '/')
    ensures Collapse(s) == s
  {
    if s != "" {
      forall i | 0 <= i < |s[1..]| - 1 ensures !(s[1..][i] == '/' && s[1..][i + 1] == '/') {
        assert s[1..][i] == s[i + 1] && s[1..][i + 1] == s[i + 2];
      }
      CollapseFixed(s[1..]);
      assert !(|s| > 1 && s[0] == '/' && s[1] == '/');
    }
  }

  /** Replacing does not change what collapsing gives. */
  lemma {:induction false} ReplaceKeepsCollapse(s: string)
    ensures Collapse(ReplaceDouble(s)) == Collapse(s)
    ensures s != "" ==> ReplaceDouble(s) != "" && ReplaceDouble(s)[0] == s[0]
  {
    if |s| >= 2 {
      if s[0] == '/' && s[1] == '/' {
        ReplaceKeepsCollapse(s[2..]);
        CollapseCons('/', ReplaceDouble(s[2..]));
        CollapseCons('/', s[2..]);
        assert s[1..] == ['/'] + s[2..];
      } else {
        ReplaceKeepsCollapse(s[1..]);
        CollapseCons(s[0], ReplaceDouble(s[1..]));
        assert s == [s[0]] + s[1..];
      }
    }
  }

  lemma {:induction false} ReplaceShrinks(s: string)
    ensures |ReplaceDouble(s)| <= |s|
    ensures HasPair(s, '/', '/') ==> |ReplaceDouble(s)| < |s|
  {
    if |s| >= 2 {
      if s[0] == '/' && s[1] == '/' {
        ReplaceShrinks(s[2..]);
      } else {
        ReplaceShrinks(s[1..]);
        if i :| 0 <= i < |s| - 1 && s[i] == '/' && s[i + 1] == '/' {
          assert s[1..][i - 1] == '/' && s[1..][i] == '/';
        }
      }
    }
  }

  /** The authorisation path: rejected, or the collapsed path with a leading slash. */
  function Normalized(decoded: string): Option<string> {
    if '\0' in decoded || Contains(decoded, '.', '.') then None else Some(Collapse("/" + decoded))
  }

  /** A path is accepted exactly if it contains no NUL and no two dots in a row. */
  lemma AcceptedIff(decoded: string)
    ensures Normalized(decoded).Some? <==>
      (forall i :: 0 <= i < |decoded| ==> decoded[i] != '\0')
      && (forall i :: 0 <= i < |decoded| - 1 ==> !(decoded[i] == '.' && decoded[i + 1] == '.'))
  {
  }

  /** Repeated replacement terminates and equals one collapsing pass with a leading slash. */
  method NormalizeApiPath(decoded: string) returns (path: Option<string>)
    ensures path == Normalized(decoded)
  {
    if '\0' in decoded || Contains(decoded, '.', '.') { return None; }
    var normalized := decoded;
    while Contains(normalized, '/', '/')
      invariant Collapse(normalized) == Collapse(decoded)
      decreases |normalized|
    {
      ReplaceShrinks(normalized);
      ReplaceKeepsCollapse(normalized);
      normalized := ReplaceDouble(normalized);
    }
    CollapseFixed(normalized);
    CollapseCons('/', decoded);
    if normalized == "" || normalized[0] != '/' {
      normalized := "/" + normalized;
    }
    path := Some(normalized);
  }

  /** Collapsing brings no two other characters together. */
  lemma {:induction false} CollapseKeepsPairs(s: string, a: char, b: char)
    requires a != '/' || b != '/'
    ensures HasPair(Collapse(s), a, b) ==> HasPair(s, a, b)
    ensures forall c :: c in Collapse(s) ==> c in s
  {
    if s != "" {
      CollapseKeepsPairs(s[1..], a, b);
      var r := Collapse(s[1..]);
      assert s == [s[0]] + s[1..];
      if HasPair(s[1..], a, b) {
        var i :| 0 <= i < |s[1..]| - 1 && s[1..][i] == a && s[1..][i + 1] == b;
        assert s[i + 1] == a && s[i + 2] == b;
      }
      if Collapse(s) != r && HasPair(Collapse(s), a, b) {
        var i :| 0 <= i < |Collapse(s)| - 1 && Collapse(s)[i] == a && Collapse(s)[i + 1] == b;
        if i == 0 { assert s[0] == a && s[1] == b; } else { assert r[i - 1] == a && r[i] == b; }
      }
    }
  }

  /** An accepted path starts with a slash, has no empty segment, no "..", and is a fixed point
      of normalisation; in particular a second collapsing pass changes nothing. */
  lemma NormalizedIsCanonical(decoded: string)
    requires Normalized(decoded).Some?
    ensures var path := Normalized(decoded).value;
      && path != "" && path[0] == '/'
      && !HasPair(path, '/', '/') && !HasPair(path, '.', '.') && '\0' !in path
      && Normalized(path) == Some(path)
  {
    var s := "/" + decoded;
    var path := Collapse(s);
    CollapseNoDouble(s);
    CollapseKeepsPairs(s, '.', '.');
    assert !HasPair(decoded, '.', '.');
    forall i | 0 <= i < |s| - 1 ensures !(s[i] == '.' && s[i + 1] == '.') {
      if i > 0 { assert s[i] == decoded[i - 1] && s[i + 1] == decoded[i]; }
    }
    CollapseCons('/', path);
    CollapseFixed(path);
  }

  // ---- what a path means ----

  function Flush(cur: string): seq<string> {
    if cur == "" then [] else [cur]
  }

  /** The non-empty segments between slashes, `cur` being the segment read so far. */
  function Segments(s: string, cur: string): seq<string> {
    if s == "" then Flush(cur)
    else if s[0] == '/' then Flush(cur) + Segments(s[1..], "")
    else Segments(s[1..], cur + [s[0]])
  }

  function Render(segments: seq<string>, trailing: bool): string {
    if segments == [] then (if trailing then "/" else "")
    else "/" + segments[0] + Render(segments[1..], trailing)
  }

  predicate EndsInSlash(s: string) {
    s != "" && s[|s| - 1] == '/'
  }

  lemma RenderCons(cur: string, segments: seq<string>, trailing: bool)
    ensures Render([cur] + segments, trailing) == "/" + cur + Render(segments, trailing)
  {
    assert ([cur] + segments)[1..] == segments;
  }

  lemma {:induction false} RenderMiddle(s: string, cur: string)
    requires cur != ""
    ensures "/" + cur + Collapse(s) == Render(Segments(s, cur), EndsInSlash(s))
    decreases |s|, 0
  {
    if s == "" {
      RenderCons(cur, [], false);
      assert [cur] + [] == [cur];
      assert "/" + cur + "" == "/" + cur;
    } else if s[0] == '/' {
      var rest := s[1..];
      assert s == "/" + rest;
      RenderStart(rest);
      RenderCons(cur, Segments(rest, ""), EndsInSlash(s));
      if Segments(rest, "") == [] { AllSlashes(rest); }
    } else {
      RenderMiddle(s[1..], cur + [s[0]]);
      assert s == [s[0]] + s[1..];
      assert EndsInSlash(s) == EndsInSlash(s[1..]);
      assert "/" + cur + ([s[0]] + Collapse(s[1..])) == "/" + (cur + [s[0]]) + Collapse(s[1..]);
    }
  }

  lemma {:induction false} AllSlashes(s: string)
    requires Segments(s, "") == []
    ensures forall i :: 0 <= i < |s| ==> s[i] == '/'
  {
    if s != "" {
      if s[0] == '/' {
        AllSlashes(s[1..]);
        assert forall i :: 1 <= i < |s| ==> s[i] == s[1..][i - 1];
      } else {
        SegmentPending(s[1..], "" + [s[0]]);
      }
    }
  }

  lemma {:induction false} SegmentPending(s: string, cur: string)
    requires cur != ""
    ensures Segments(s, cur) != []
  {
    if s != "" && s[0] != '/' { SegmentPending(s[1..], cur + [s[0]]); }
  }

  lemma {:induction false} RenderStart(s: string)
    ensures Collapse("/" + s) ==
      if Segments(s, "") == [] then "/" else Render(Segments(s, ""), EndsInSlash(s))
    decreases |s|, 1
  {
    if s == "" {
      assert "/" + s == "/";
    } else if s[0] == '/' {
      RenderStart(s[1..]);
      DoubledSlash(s[1..]);
      assert s == "/" + s[1..];
    } else {
      RenderMiddle(s[1..], [s[0]]);
      FirstSegment(s[0], s[1..]);
      assert s == [s[0]] + s[1..];
    }
  }

  /** Reading the first character of a segment. */
  lemma {:induction false} FirstSegment(c: char, s: string)
    requires c != '/'
    ensures Collapse("/" + ([c] + s)) == "/" + [c] + Collapse(s)
    ensures Segments([c] + s, "") == Segments(s, [c]) && Segments(s, [c]) != []
    ensures EndsInSlash([c] + s) == EndsInSlash(s)
  {
    CollapseCons('/', [c] + s);
    CollapseCons(c, s);
    assert ([c] + s)[1..] == s && "" + [c] == [c];
    SegmentPending(s, [c]);
  }

  lemma DoubledSlash(t: string)
    ensures Collapse("/" + ("/" + t)) == Collapse("/" + t)
    ensures Segments("/" + t, "") == Segments(t, "")
    ensures t != "" ==> EndsInSlash("/" + t) == EndsInSlash(t)
    ensures Segments(t, "") != [] ==> t != ""
  {
    CollapseCons('/', "/" + t);
    assert ("/" + t)[1..] == t;
    assert Segments("/" + t, "") == [] + Segments(t, "");
  }

  lemma {:induction false} CollapseKeepsSegments(s: string, cur: string)
    ensures Segments(Collapse(s), cur) == Segments(s, cur)
    ensures EndsInSlash(Collapse(s)) == EndsInSlash(s)
    decreases |s|
  {
    if s != "" {
      var rest, r := s[1..], Collapse(s[1..]);
      assert ([s[0]] + r)[1..] == r;
      if s[0] == '/' && |s| > 1 && s[1] == '/' {
        CollapseKeepsSegments(rest, cur);
        assert Segments(rest, "") == Segments(rest[1..], "");
        assert Segments(rest, cur) == Flush(cur) + Segments(rest[1..], "");
      } else {
        CollapseKeepsSegments(rest, if s[0] == '/' then "" else cur + [s[0]]);
        assert rest != "" ==> r != "";
      }
    }
  }

  /** Two accepted paths are authorised as the same path exactly when they have the same
      non-empty segments in the same order and agree on the trailing slash. */
  lemma SamePathIff(a: string, b: string)
    requires Normalized(a).Some? && Normalized(b).Some?
    ensures Normalized(a) == Normalized(b) <==>
      && Segments(a, "") == Segments(b, "")
      && (Segments(a, "") == [] || EndsInSlash(a) == EndsInSlash(b))
  {
    PathMeaning(a);
    PathMeaning(b);
  }

  /** The normalised path is determined by the segments and the trailing slash, and determines
      them. */
  lemma PathMeaning(s: string)
    ensures var path := Collapse("/" + s);
      && path == (if Segments(s, "") == [] then "/" else Render(Segments(s, ""), EndsInSlash(s)))
      && Segments(path, "") == Segments(s, "")
      && (Segments(s, "") != [] ==> EndsInSlash(path) == EndsInSlash(s))
  {
    RenderStart(s);
    CollapseKeepsSegments("/" + s, "");
    assert ("/" + s)[1..] == s;
    assert Segments("/" + s, "") == [] + Segments(s, "");
  }
}
