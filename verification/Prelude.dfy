/** Definitions shared by the models: optional values and the string operations of
    the source language that the control plane relies on. */
module Prelude {

  datatype Option<+T> = None | Some(value: T)

  /** The ASCII and Latin-1 characters that `str.strip` removes. */
  predicate IsSpace(c: char) {
    || ('\t' <= c <= '\r')
    || (0x1c as char <= c <= ' ')
    || c == 0x85 as char
    || c == 0xa0 as char
  }

  function StripLeft(s: string): (r: string)
    ensures |r| <= |s|
    ensures r != "" ==> !IsSpace(r[0])
  {
    if s != "" && IsSpace(s[0]) then StripLeft(s[1..]) else s
  }

  function StripRight(s: string): (r: string)
    ensures |r| <= |s|
    ensures r != "" ==> r[0] == s[0] && !IsSpace(r[|r| - 1])
  {
    if s != "" && IsSpace(s[|s| - 1]) then StripRight(s[..|s| - 1]) else s
  }

  /** `str.strip()`: the result neither starts nor ends with white space. */
  function Strip(s: string): (r: string)
    ensures |r| <= |s|
    ensures r != "" ==> !IsSpace(r[0]) && !IsSpace(r[|r| - 1])
  {
    StripRight(StripLeft(s))
  }

  lemma StripFixed(s: string)
    requires s == "" || (!IsSpace(s[0]) && !IsSpace(s[|s| - 1]))
    ensures Strip(s) == s
  {
  }

  /** Stripping twice is stripping once. */
  lemma StripTwice(s: string)
    ensures Strip(Strip(s)) == Strip(s)
  {
    StripFixed(Strip(s));
  }

  /** The usable content of an optional text field: absent and blank are the same. */
  function Present(s: Option<string>): (r: Option<string>)
    ensures r.Some? ==> r.value != "" && Strip(r.value) == r.value
  {
    if s.Some? && Strip(s.value) != "" then
      StripTwice(s.value);
      Some(Strip(s.value))
    else None
  }
}
