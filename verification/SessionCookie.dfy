/** The signed administrator cookie and the plan binding derived from it. The keyed hash is
    an arbitrary function that yields non-empty lower-case hexadecimal text. */
module SessionCookie {
  import opened Prelude
  import opened TextCodec

  const TOKEN_PREFIX := "hub_admin:v2"
  const SESSION_DOMAIN := "rc-proto-session:v1"
  const PLAN_DOMAIN := "rc-plan-session:v1"
  const TTL_SECONDS := 28800
  const CLOCK_SKEW := 60

  /** Key and message to digest. */
  type Hmac = (string, string) -> string

  datatype Failure =
    | MissingToken | ConfigurationBlocked | MalformedToken | InvalidTimestamps
    | NotYetValid | Expired | InvalidSignature

  predicate IsHexDigit(c: char) {
    IsDigit(c) || 'a' <= c <= 'f'
  }

  predicate IsHex(s: string) {
    s != "" && forall i :: 0 <= i < |s| ==> IsHexDigit(s[i])
  }

  ghost predicate YieldsHex(hmac: Hmac) {
    forall k, m :: IsHex(hmac(k, m))
  }

  function Sign(hmac: Hmac, key: string, payload: string): string {
    hmac(key, SESSION_DOMAIN + "|" + payload)
  }

  function Payload(issued: int, expires: int, sid: string): string {
    TOKEN_PREFIX + "|" + (ShowInt(issued) + "|" + (ShowInt(expires) + "|" + sid))
  }

  /** The cookie minted at `issued` with a random session id. */
  function Mint(hmac: Hmac, key: string, issued: int, sid: string): string {
    var payload := Payload(issued, issued + TTL_SECONDS, sid);
    payload + "." + Sign(hmac, key, payload)
  }

  predicate StartsWith(s: string, prefix: string) {
    prefix <= s
  }

  /** Why a cookie is refused at time `now`, or `None` if it is accepted. */
  function Classify(hmac: Hmac, key: string, cookie: Option<string>, now: int): Option<Failure> {
    if cookie.None? || cookie.value == "" then Some(MissingToken)
    else if key == "" then Some(ConfigurationBlocked)
    else
      var halves := SplitLast(cookie.value, '.');
      if halves.None? then Some(MalformedToken)
      else ClassifyHalves(hmac, key, halves.value.0, halves.value.1, now)
  }

  function ClassifyHalves(hmac: Hmac, key: string, payload: string, signature: string, now: int): Option<Failure> {
    if !StartsWith(payload, TOKEN_PREFIX + "|") || signature == "" then Some(MalformedToken)
    else
      var parts := Split(payload, '|');
      if |parts| != 4 || parts[0] != TOKEN_PREFIX then Some(MalformedToken)
      else
        var issued, expires := ParseInt(parts[1]), ParseInt(parts[2]);
        if issued.None? || expires.None? then Some(MalformedToken)
        else if parts[3] == "" then Some(MalformedToken)
        else if expires.value <= issued.value then Some(InvalidTimestamps)
        else if issued.value > now + CLOCK_SKEW then Some(NotYetValid)
        else if now >= expires.value then Some(Expired)
        else if Sign(hmac, key, payload) != signature then Some(InvalidSignature)
        else None
  }

  function ExtractSessionId(hmac: Hmac, key: string, cookie: Option<string>, now: int): Option<string> {
    if cookie.None? || Classify(hmac, key, cookie, now).Some? then None
    else
      var halves := SplitLast(cookie.value, '.');
      var parts := Split(if halves.Some? then halves.value.0 else cookie.value, '|');
      if |parts| != 4 || parts[0] != TOKEN_PREFIX || parts[3] == "" then None else Some(parts[3])
  }

  function PlanBinding(hmac: Hmac, key: string, sid: string): string {
    hmac(key, PLAN_DOMAIN + "|" + sid)
  }

  predicate VerifyPlanBinding(hmac: Hmac, key: string, cookie: Option<string>, expected: Option<string>, now: int) {
    expected.Some? && expected.value != "" &&
    var sid := ExtractSessionId(hmac, key, cookie, now);
    sid.Some? && PlanBinding(hmac, key, sid.value) == expected.value
  }

  // ---- round trip ----

  lemma HexHasNo(s: string, c: char)
    requires IsHex(s) && !IsHexDigit(c)
    ensures c !in s
  {
  }

  lemma PayloadParts(issued: int, expires: int, sid: string)
    requires '|' !in sid
    ensures Split(Payload(issued, expires, sid), '|') == [TOKEN_PREFIX, ShowInt(issued), ShowInt(expires), sid]
  {
    ShowIntChars(issued, '|');
    ShowIntChars(expires, '|');
    SplitWhole(sid, '|');
    SplitHead(ShowInt(expires), '|', sid);
    SplitHead(ShowInt(issued), '|', ShowInt(expires) + "|" + sid);
    SplitHead(TOKEN_PREFIX, '|', ShowInt(issued) + "|" + (ShowInt(expires) + "|" + sid));
  }

  lemma MintHalves(hmac: Hmac, key: string, issued: int, sid: string)
    requires YieldsHex(hmac)
    ensures var payload := Payload(issued, issued + TTL_SECONDS, sid);
      SplitLast(Mint(hmac, key, issued, sid), '.') == Some((payload, Sign(hmac, key, payload)))
  {
    var payload := Payload(issued, issued + TTL_SECONDS, sid);
    HexHasNo(Sign(hmac, key, payload), '.');
    SplitLastAt(payload, '.', Sign(hmac, key, payload));
  }

  lemma {:induction false} ClassifyFields(
    hmac: Hmac, key: string, payload: string, a: string, b: string, sid: string, issued: int, expires: int, now: int)
    requires StartsWith(payload, TOKEN_PREFIX + "|") && Split(payload, '|') == [TOKEN_PREFIX, a, b, sid]
    requires ParseInt(a) == Some(issued) && ParseInt(b) == Some(expires) && issued < expires && sid != ""
    requires Sign(hmac, key, payload) != ""
    ensures ClassifyHalves(hmac, key, payload, Sign(hmac, key, payload), now) ==
      if now < issued - CLOCK_SKEW then Some(NotYetValid) else if now >= expires then Some(Expired) else None
  {
  }

  lemma PayloadStarts(issued: int, expires: int, sid: string)
    ensures StartsWith(Payload(issued, expires, sid), TOKEN_PREFIX + "|")
  {
    var rest := ShowInt(issued) + "|" + (ShowInt(expires) + "|" + sid);
    assert Payload(issued, expires, sid) == (TOKEN_PREFIX + "|") + rest;
  }

  lemma SignatureNonEmpty(hmac: Hmac, key: string, payload: string)
    requires YieldsHex(hmac)
    ensures Sign(hmac, key, payload) != ""
  {
    assert IsHex(hmac(key, SESSION_DOMAIN + "|" + payload));
  }

  lemma ClassifyMinted(hmac: Hmac, key: string, issued: int, sid: string, now: int)
    requires YieldsHex(hmac) && IsHex(sid)
    ensures var payload := Payload(issued, issued + TTL_SECONDS, sid);
      ClassifyHalves(hmac, key, payload, Sign(hmac, key, payload), now) ==
      if now < issued - CLOCK_SKEW then Some(NotYetValid)
      else if now >= issued + TTL_SECONDS then Some(Expired)
      else None
  {
    var expires := issued + TTL_SECONDS;
    var payload := Payload(issued, expires, sid);
    HexHasNo(sid, '|');
    PayloadParts(issued, expires, sid);
    IntRoundTrip(issued);
    IntRoundTrip(expires);
    PayloadStarts(issued, expires, sid);
    SignatureNonEmpty(hmac, key, payload);
    ClassifyFields(hmac, key, payload, ShowInt(issued), ShowInt(expires), sid, issued, expires, now);
  }

  /** The text of a minted cookie: the token's version, the times of issue and of expiry eight
      hours later, the session id, and the keyed hash of all of that. */
  lemma MintText(hmac: Hmac, key: string, issued: int, sid: string)
    ensures var payload := Fields(ShowInt(issued), ShowInt(issued + 28800), sid);
      Mint(hmac, key, issued, sid) == payload + "." + hmac(key, "rc-proto-session:v1|" + payload)
  {
    var i, e := ShowInt(issued), ShowInt(issued + 28800);
    FieldsText(i, e, sid);
    assert SESSION_DOMAIN + "|" == "rc-proto-session:v1|";
  }

  /** The four fields of a payload, as text. */
  function Fields(issued: string, expires: string, sid: string): string {
    "hub_admin:v2|" + issued + "|" + expires + "|" + sid
  }

  lemma FieldsText(issued: string, expires: string, sid: string)
    ensures Fields(issued, expires, sid) == TOKEN_PREFIX + "|" + (issued + "|" + (expires + "|" + sid))
  {
    assert TOKEN_PREFIX + "|" == "hub_admin:v2|";
  }

  /** A minted cookie is too early, accepted or expired by the clock alone: it is accepted at
      exactly the times from 60 seconds before issue up to 28800 after it. */
  lemma MintedAcceptedExactly(hmac: Hmac, key: string, issued: int, sid: string, now: int)
    requires YieldsHex(hmac) && key != "" && IsHex(sid)
    ensures Classify(hmac, key, Some(Mint(hmac, key, issued, sid)), now) ==
      if now < issued - 60 then Some(NotYetValid) else if now >= issued + 28800 then Some(Expired) else None
  {
    MintHalves(hmac, key, issued, sid);
    ClassifyMinted(hmac, key, issued, sid, now);
  }

  /** The session id comes back, and a plan bound to it verifies, at exactly those times. */
  lemma MintedBindsPlan(hmac: Hmac, key: string, issued: int, sid: string, now: int)
    requires YieldsHex(hmac) && key != "" && IsHex(sid)
    ensures var cookie := Some(Mint(hmac, key, issued, sid));
      var valid := issued - 60 <= now < issued + 28800;
      && ExtractSessionId(hmac, key, cookie, now) == (if valid then Some(sid) else None)
      && VerifyPlanBinding(hmac, key, cookie, Some(PlanBinding(hmac, key, sid)), now) == valid
  {
    MintedAcceptedExactly(hmac, key, issued, sid, now);
    MintedSessionId(hmac, key, issued, sid, now);
    assert IsHex(PlanBinding(hmac, key, sid));
  }

  lemma MintedSessionId(hmac: Hmac, key: string, issued: int, sid: string, now: int)
    requires YieldsHex(hmac) && IsHex(sid)
    ensures var cookie := Some(Mint(hmac, key, issued, sid));
      ExtractSessionId(hmac, key, cookie, now) == if Classify(hmac, key, cookie, now).None? then Some(sid) else None
  {
    MintHalves(hmac, key, issued, sid);
    HexHasNo(sid, '|');
    PayloadParts(issued, issued + TTL_SECONDS, sid);
  }

  /** A cookie of these fields under the key's own keyed hash. */
  predicate Signed(hmac: Hmac, key: string, cookie: string, issued: string, expires: string, sid: string) {
    var payload := Fields(issued, expires, sid);
    && cookie == payload + "." + hmac(key, "rc-proto-session:v1|" + payload)
    && '|' !in issued && '|' !in expires && '|' !in sid && sid != ""
  }

  /** The times are readable, in order, and now is between them, with a minute of grace. */
  predicate InForce(issued: string, expires: string, now: int) {
    && ParseInt(issued).Some? && ParseInt(expires).Some? && ParseInt(issued).value < ParseInt(expires).value
    && ParseInt(issued).value - 60 <= now < ParseInt(expires).value
  }

  /** Every accepted cookie, minted or not, is exactly its four fields under the key's own keyed
      hash of them, is in force by the times it carries, and yields its fourth field as session
      id. */
  lemma AcceptedIsSigned(hmac: Hmac, key: string, cookie: string, now: int)
    returns (issued: string, expires: string, sid: string)
    requires Classify(hmac, key, Some(cookie), now) == None
    ensures key != "" && Signed(hmac, key, cookie, issued, expires, sid) && InForce(issued, expires, now)
    ensures ExtractSessionId(hmac, key, Some(cookie), now) == Some(sid)
  {
    SplitLastJoins(cookie, '.');
    var payload := SplitLast(cookie, '.').value.0;
    var parts := Split(payload, '|');
    JoinSplit(payload, '|');
    SplitParts(payload, '|');
    issued, expires, sid := parts[1], parts[2], parts[3];
    assert parts == [TOKEN_PREFIX, issued, expires, sid];
    JoinFour(issued, expires, sid);
    assert SESSION_DOMAIN + "|" == "rc-proto-session:v1|";
  }

  lemma JoinFour(issued: string, expires: string, sid: string)
    ensures Join([TOKEN_PREFIX, issued, expires, sid], '|') == Fields(issued, expires, sid)
  {
    var i, e := issued, expires;
    assert [TOKEN_PREFIX, i, e, sid][1..] == [i, e, sid] && [i, e, sid][1..] == [e, sid] && [e, sid][1..] == [sid];
    assert Join([sid], '|') == sid;
    assert Join([e, sid], '|') == e + "|" + sid;
    assert Join([i, e, sid], '|') == i + "|" + (e + "|" + sid);
    FieldsText(i, e, sid);
  }

  lemma SplitFour(issued: string, expires: string, sid: string)
    requires '|' !in issued && '|' !in expires && '|' !in sid
    ensures Split(Fields(issued, expires, sid), '|') == [TOKEN_PREFIX, issued, expires, sid]
    ensures StartsWith(Fields(issued, expires, sid), TOKEN_PREFIX + "|")
  {
    FieldsText(issued, expires, sid);
    SplitWhole(sid, '|');
    SplitHead(expires, '|', sid);
    SplitHead(issued, '|', expires + "|" + sid);
    SplitHead(TOKEN_PREFIX, '|', issued + "|" + (expires + "|" + sid));
  }

  /** And every such cookie is accepted; with another signature it is refused for that. */
  lemma SignedIsAccepted(hmac: Hmac, key: string, issued: string, expires: string, sid: string, signature: string, now: int)
    requires YieldsHex(hmac) && key != "" && '.' !in signature && signature != ""
    requires '|' !in issued && '|' !in expires && '|' !in sid && sid != "" && InForce(issued, expires, now)
    ensures Classify(hmac, key, Some(Fields(issued, expires, sid) + "." + signature), now) ==
      if signature == hmac(key, "rc-proto-session:v1|" + Fields(issued, expires, sid)) then None else Some(InvalidSignature)
  {
    var payload := Fields(issued, expires, sid);
    SplitLastAt(payload, '.', signature);
    SplitFour(issued, expires, sid);
    assert SESSION_DOMAIN + "|" == "rc-proto-session:v1|";
  }

  /** A cookie is accepted exactly if the key is set and the cookie is four fields under the
      key's own hash of them, in force by the times it carries. */
  lemma AcceptedIff(hmac: Hmac, key: string, cookie: string, now: int)
    requires YieldsHex(hmac)
    ensures Classify(hmac, key, Some(cookie), now) == None <==>
      key != "" && exists issued, expires, sid :: Signed(hmac, key, cookie, issued, expires, sid) && InForce(issued, expires, now)
  {
    if Classify(hmac, key, Some(cookie), now) == None {
      var issued, expires, sid := AcceptedIsSigned(hmac, key, cookie, now);
    }
    forall issued, expires, sid | key != "" && Signed(hmac, key, cookie, issued, expires, sid) && InForce(issued, expires, now)
      ensures Classify(hmac, key, Some(cookie), now) == None
    {
      var signature := hmac(key, "rc-proto-session:v1|" + Fields(issued, expires, sid));
      assert IsHex(signature);
      HexHasNo(signature, '.');
      SignedIsAccepted(hmac, key, issued, expires, sid, signature, now);
    }
  }

  /** A plan binding verifies exactly if the cookie is accepted and the binding is the key's hash
      of the cookie's own session id under the plan domain. */
  lemma BindingExactly(hmac: Hmac, key: string, cookie: string, expected: Option<string>, now: int)
    ensures Classify(hmac, key, Some(cookie), now) != None ==> !VerifyPlanBinding(hmac, key, Some(cookie), expected, now)
    ensures Classify(hmac, key, Some(cookie), now) == None ==>
      exists issued, expires, sid ::
        && Signed(hmac, key, cookie, issued, expires, sid)
        && (VerifyPlanBinding(hmac, key, Some(cookie), expected, now) <==>
              expected.Some? && expected.value != "" && expected.value == hmac(key, "rc-plan-session:v1|" + sid))
  {
    if Classify(hmac, key, Some(cookie), now) == None {
      var issued, expires, sid := AcceptedIsSigned(hmac, key, cookie, now);
      assert PLAN_DOMAIN + "|" == "rc-plan-session:v1|";
      assert Signed(hmac, key, cookie, issued, expires, sid);
    }
  }

  /** The refusals that do not depend on the fields: no cookie, no key, no signature. */
  lemma EarlyRefusals(hmac: Hmac, key: string, cookie: Option<string>, now: int)
    ensures cookie.None? || cookie.value == "" ==> Classify(hmac, key, cookie, now) == Some(MissingToken)
    ensures cookie.Some? && cookie.value != "" && key == "" ==> Classify(hmac, key, cookie, now) == Some(ConfigurationBlocked)
    ensures cookie.Some? && cookie.value != "" && key != "" && '.' !in cookie.value ==>
      Classify(hmac, key, cookie, now) == Some(MalformedToken)
  {
    if cookie.Some? && '.' !in cookie.value { NoSplit(cookie.value, '.'); }
  }

  lemma {:induction false} NoSplit(s: string, c: char)
    requires c !in s
    ensures SplitLast(s, c) == None
  {
    if s != "" { NoSplit(s[..|s| - 1], c); }
  }

  /** Four fields that are not in force are refused for the first reason that applies, whatever
      their signature. */
  lemma RefusedByTimes(hmac: Hmac, key: string, issued: string, expires: string, sid: string, signature: string, now: int)
    requires key != "" && '.' !in signature && signature != ""
    requires '|' !in issued && '|' !in expires && '|' !in sid && sid != ""
    ensures var refusal := Classify(hmac, key, Some(Fields(issued, expires, sid) + "." + signature), now);
      var i, e := ParseInt(issued), ParseInt(expires);
      && (i.None? || e.None? ==> refusal == Some(MalformedToken))
      && (i.Some? && e.Some? && e.value <= i.value ==> refusal == Some(InvalidTimestamps))
      && (i.Some? && e.Some? && i.value < e.value && now < i.value - 60 ==> refusal == Some(NotYetValid))
      && (i.Some? && e.Some? && i.value < e.value && i.value - 60 <= now && e.value <= now ==> refusal == Some(Expired))
  {
    SplitLastAt(Fields(issued, expires, sid), '.', signature);
    SplitFour(issued, expires, sid);
  }
}
