/** Printing and parsing of integers and delimited text, as the source language does it. */
module TextCodec {
  import opened Prelude

  // ---- integers ----

  predicate IsDigit(c: char) {
    '0' <= c <= '9'
  }

  function DigitOf(n: nat): (c: char)
    requires n < 10
    ensures IsDigit(c) && DigitValue(c) == n
  {
    (n as char) + '0'
  }

  function DigitValue(c: char): nat
    requires IsDigit(c)
  {
    (c as int) - ('0' as int)
  }

  function ShowNat(n: nat): (s: string)
    ensures s != "" && forall i :: 0 <= i < |s| ==> IsDigit(s[i])
  {
    if n < 10 then [DigitOf(n)] else ShowNat(n / 10) + [DigitOf(n % 10)]
  }

  function ShowInt(n: int): string {
    if n < 0 then "-" + ShowNat(-n) else ShowNat(n)
  }

  /** Decimal digits, with single underscores allowed between them. */
  function ParseNat(s: string): Option<nat> {
    if s == "" || !IsDigit(s[|s| - 1]) then None
    else
      var rest, d := s[..|s| - 1], DigitValue(s[|s| - 1]);
      if rest == "" then Some(d)
      else
        var high := ParseNat(if rest[|rest| - 1] == '_' then rest[..|rest| - 1] else rest);
        if high.None? then None else Some(high.value * 10 + d)
  }

  /** `int(text)`: surrounding white space and one sign are accepted. */
  function ParseInt(s: string): Option<int> {
    var t := Strip(s);
    if t != "" && (t[0] == '-' || t[0] == '+') then
      var n := ParseNat(t[1..]);
      if n.None? then None else Some(if t[0] == '-' then 0 - n.value else n.value as int)
    else
      var n := ParseNat(t);
      if n.None? then None else Some(n.value)
  }

  lemma {:induction false} NatRoundTrip(n: nat)
    ensures ParseNat(ShowNat(n)) == Some(n)
  {
    if n >= 10 {
      NatRoundTrip(n / 10);
      var s := ShowNat(n);
      assert s[..|s| - 1] == ShowNat(n / 10);
    }
  }

  /** Parsing what was printed gives the number back, for every integer. */
  lemma IntRoundTrip(n: int)
    ensures ParseInt(ShowInt(n)) == Some(n)
  {
    var s := ShowInt(n);
    NatRoundTrip(if n < 0 then -n else n);
    StripFixed(s);
    if n < 0 { assert s[1..] == ShowNat(-n); }
  }

  lemma ShowIntChars(n: int, c: char)
    requires !IsDigit(c) && c != '-'
    ensures c !in ShowInt(n)
  {
  }

  // ---- delimited text ----

  /** `text.split(c)`. */
  function Split(s: string, c: char): (r: seq<string>)
    ensures |r| >= 1
  {
    if s == "" then [""]
    else
      var rest := Split(s[1..], c);
      if s[0] == c then [""] + rest else [[s[0]] + rest[0]] + rest[1..]
  }

  /** `text.rsplit(c, 1)`, when it yields two parts. */
  function SplitLast(s: string, c: char): Option<(string, string)> {
    if s == "" then None
    else
      var rest, last := s[..|s| - 1], s[|s| - 1];
      if last == c then Some((rest, ""))
      else
        var r := SplitLast(rest, c);
        if r.None? then None else Some((r.value.0, r.value.1 + [last]))
  }

  lemma {:induction false} SplitHead(a: string, c: char, b: string)
    requires c !in a
    ensures Split(a + [c] + b, c) == [a] + Split(b, c)
  {
    if a == "" {
      assert a + [c] + b == [c] + b && ([c] + b)[1..] == b;
    } else {
      var s := a + [c] + b;
      assert s[1..] == a[1..] + [c] + b;
      SplitHead(a[1..], c, b);
      assert [a[0]] + a[1..] == a;
    }
  }

  lemma {:induction false} SplitWhole(a: string, c: char)
    requires c !in a
    ensures Split(a, c) == [a]
  {
    if a != "" {
      SplitWhole(a[1..], c);
      assert [a[0]] + a[1..] == a;
    }
  }

  lemma {:induction false} SplitLastAt(a: string, c: char, b: string)
    requires c !in b
    ensures SplitLast(a + [c] + b, c) == Some((a, b))
  {
    var s := a + [c] + b;
    if b == "" {
      assert s[..|s| - 1] == a;
    } else {
      var rest := b[..|b| - 1];
      assert s[..|s| - 1] == a + [c] + rest;
      SplitLastAt(a, c, rest);
      assert rest + [b[|b| - 1]] == b;
    }
  }

  function Join(parts: seq<string>, c: char): string {
    if parts == [] then "" else if |parts| == 1 then parts[0] else parts[0] + [c] + Join(parts[1..], c)
  }

  /** Joining what was split gives the text back. */
  lemma {:induction false} JoinSplit(s: string, c: char)
    ensures Join(Split(s, c), c) == s
  {
    if s != "" {
      var rest := Split(s[1..], c);
      JoinSplit(s[1..], c);
      assert s == [s[0]] + s[1..];
      if s[0] == c {
        assert ([""] + rest)[1..] == rest;
        assert "" + [c] + s[1..] == [c] + s[1..];
      } else {
        var parts := [[s[0]] + rest[0]] + rest[1..];
        assert parts[1..] == rest[1..];
        if |rest| > 1 {
          assert [s[0]] + rest[0] + [c] + Join(rest[1..], c) == [s[0]] + (rest[0] + [c] + Join(rest[1..], c));
        }
      }
    }
  }

  lemma {:induction false} SplitLastJoins(s: string, c: char)
    ensures var r := SplitLast(s, c); r.Some? ==> s == r.value.0 + [c] + r.value.1
  {
    if s != "" {
      var rest, last := s[..|s| - 1], s[|s| - 1];
      assert s == rest + [last];
      SplitLastJoins(rest, c);
      var r := SplitLast(rest, c);
      if last != c && r.Some? {
        assert r.value.0 + [c] + (r.value.1 + [last]) == (r.value.0 + [c] + r.value.1) + [last];
      }
    }
  }

  lemma {:induction false} SplitParts(s: string, c: char)
    ensures forall i :: 0 <= i < |Split(s, c)| ==> c !in Split(s, c)[i]
  {
    if s != "" { SplitParts(s[1..], c); }
  }
}
