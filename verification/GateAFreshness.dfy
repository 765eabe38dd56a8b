/** Same-tuple recertification of Gate A: probe evidence refreshes the evidence pointer only
    if it shows the certified tuple; anything else leaves the certification untouched. */
module GateAFreshness {
  import opened Prelude
  import opened TextCodec

  // ---- JSON scalars ----

  datatype Json = Null | Bool(b: bool) | Num(n: int) | Text(s: string)

  /** The keys the code names; `Other` is any other key. */
  datatype Key =
    | Model | FirmwareVersion | Region | UpdateChannel | ComponentSetDigest | CertificationEligible
    | SshHostKeyAlgorithm | SshHostKeyFingerprint | IdentityComplete | NdmBuild | Build
    | DeviceFingerprintDigest | DeviceFingerprint | Transport | TransportSecurity
    | EvidenceRecordedAt | EvidenceSha256 | EvidencePath | SourceAddress | OpeningFreshnessHours
    | RecertifiedOn | RecertificationReason | RecertificationNote
    | Other(name: string)

  type Doc = map<Key, Json>

  function Get(d: Doc, k: Key): Json {
    if k in d then d[k] else Null
  }

  function NumOf(j: Json): Option<int> {
    match j
    case Num(n) => Some(n)
    case Bool(b) => Some(if b then 1 else 0)
    case _ => None
  }

  /** `==` of the source language, in which true equals 1 and false equals 0. */
  predicate PyEq(a: Json, b: Json) {
    if NumOf(a).Some? && NumOf(b).Some? then NumOf(a) == NumOf(b) else a == b
  }

  function PyStr(j: Json): string {
    match j
    case Null => "None"
    case Bool(b) => if b then "True" else "False"
    case Num(n) => ShowInt(n)
    case Text(s) => s
  }

  /** `str(value or "")`. */
  function TextOrEmpty(j: Json): string {
    if j == Null || j == Bool(false) || j == Num(0) || j == Text("") then "" else PyStr(j)
  }

  /** How instants and numbers are read from text; `None` means the reader raises. */
  datatype Readers = Readers(instant: string -> Option<real>, number: string -> Option<real>)

  /** The text of a value, none if the value counts as false. */
  lemma TextMeans(n: int, s: string)
    ensures TextOrEmpty(Text(s)) == s && TextOrEmpty(Null) == "" && TextOrEmpty(Bool(false)) == ""
    ensures TextOrEmpty(Bool(true)) == "True" && TextOrEmpty(Num(n)) == if n == 0 then "" else ShowInt(n)
    ensures PyStr(Null) == "None" && PyStr(Bool(false)) == "False" && PyStr(Num(n)) == ShowInt(n) && PyStr(Text(s)) == s
  {
  }

  // ---- the host key pin ----

  function Upper(c: char): char {
    if 'a' <= c <= 'z' then c - 'a' + 'A' else c
  }

  const PIN_PREFIX := "SHA256:"

  predicate HasPinPrefix(s: string) {
    |s| >= 7 && forall i :: 0 <= i < 7 ==> Upper(s[i]) == PIN_PREFIX[i]
  }

  function NormalizePin(v: string): string {
    var t := Strip(v);
    if HasPinPrefix(t) then PIN_PREFIX + Strip(t[7..])
    else if t == "" then "" else PIN_PREFIX + t
  }

  lemma PrefixHolds(x: string)
    ensures HasPinPrefix(PIN_PREFIX + x)
  {
    var r := PIN_PREFIX + x;
    forall i | 0 <= i < 7 ensures Upper(r[i]) == PIN_PREFIX[i] { assert r[i] == PIN_PREFIX[i]; }
  }

  lemma EndsClean(x: string)
    requires Strip(x) == x
    ensures var r := PIN_PREFIX + x; !IsSpace(r[0]) && !IsSpace(r[|r| - 1])
  {
    var r := PIN_PREFIX + x;
    assert r[0] == 'S';
    if x == "" { assert r[|r| - 1] == ':'; } else { assert r[|r| - 1] == x[|x| - 1]; }
  }

  lemma PrefixedPin(x: string)
    requires Strip(x) == x
    ensures NormalizePin(PIN_PREFIX + x) == PIN_PREFIX + x
  {
    var r := PIN_PREFIX + x;
    assert r[7..] == x;
    assert HasPinPrefix(r) by { PrefixHolds(x); }
    assert Strip(r) == r by { EndsClean(x); StripFixed(r); }
  }

  /** Normalising a pin twice is normalising it once. */
  lemma NormalizePinTwice(v: string)
    ensures NormalizePin(NormalizePin(v)) == NormalizePin(v)
  {
    var t := Strip(v);
    StripTwice(v);
    if HasPinPrefix(t) {
      StripTwice(t[7..]);
      PrefixedPin(Strip(t[7..]));
    } else if t != "" {
      PrefixedPin(t);
    }
  }

  function UpperText(s: string): string {
    seq(|s|, i requires 0 <= i < |s| => Upper(s[i]))
  }

  /** What a pin pins: its text without surrounding white space and without the algorithm's name
      before it, in any case of letters. */
  function PinBody(v: string): string {
    var t := Strip(v);
    if |t| >= 7 && UpperText(t[..7]) == "SHA256:" then Strip(t[7..]) else t
  }

  lemma PrefixIsText(t: string)
    ensures HasPinPrefix(t) <==> |t| >= 7 && UpperText(t[..7]) == "SHA256:"
  {
    if |t| >= 7 {
      var u := UpperText(t[..7]);
      assert forall i :: 0 <= i < 7 ==> u[i] == Upper(t[i]);
      if HasPinPrefix(t) { assert u == "SHA256:"; }
    }
  }

  lemma NormalizedBody(v: string)
    ensures NormalizePin(v) == if Strip(v) == "" then "" else "SHA256:" + PinBody(v)
  {
    PrefixIsText(Strip(v));
  }

  /** Two pins are the same exactly if they pin the same and neither or both of them are blank:
      the algorithm's name alone is not the same as no pin. */
  lemma SamePinIff(a: string, b: string)
    ensures NormalizePin(a) == NormalizePin(b) <==> PinBody(a) == PinBody(b) && (Strip(a) == "" <==> Strip(b) == "")
  {
    NormalizedBody(a);
    NormalizedBody(b);
    if Strip(a) != "" && Strip(b) != "" {
      assert ("SHA256:" + PinBody(a))[7..] == PinBody(a) && ("SHA256:" + PinBody(b))[7..] == PinBody(b);
    }
  }

  // ---- the certified tuple ----

  const DIRECT_FIELDS := [Model, FirmwareVersion, Region, UpdateChannel,
                          ComponentSetDigest, CertificationEligible, SshHostKeyAlgorithm]

  const TUPLE_FIELDS := DIRECT_FIELDS
    + [IdentityComplete, NdmBuild, DeviceFingerprintDigest, Transport, SshHostKeyFingerprint]

  function EvidenceValue(e: Doc, key: Key, alias: Key): Json {
    if key in e then e[key] else Get(e, alias)
  }

  /** How one field of the tuple is compared: three have an alias in the evidence, the pin is
      normalised first, and a configuration without `identity_complete` does not ask for it. */
  predicate FieldMatches(config: Doc, e: Doc, key: Key) {
    match key
    case IdentityComplete => key in config ==> PyEq(Get(config, key), Get(e, key))
    case NdmBuild => PyEq(Get(config, key), EvidenceValue(e, key, Build))
    case DeviceFingerprintDigest => PyEq(Get(config, key), EvidenceValue(e, key, DeviceFingerprint))
    case Transport => PyEq(Get(config, key), EvidenceValue(e, key, TransportSecurity))
    case SshHostKeyFingerprint =>
      NormalizePin(TextOrEmpty(Get(config, key))) == NormalizePin(TextOrEmpty(Get(e, key)))
    case _ => PyEq(Get(config, key), Get(e, key))
  }

  /** The fields that differ, in the order they are compared. */
  function Diffs(config: Doc, e: Doc, keys: seq<Key>): seq<Key> {
    if keys == [] then []
    else
      Diffs(config, e, keys[..|keys| - 1])
      + (if FieldMatches(config, e, keys[|keys| - 1]) then [] else [keys[|keys| - 1]])
  }

  lemma DiffsAppend(config: Doc, e: Doc, keys: seq<Key>, key: Key)
    ensures Diffs(config, e, keys + [key]) == Diffs(config, e, keys) + (if FieldMatches(config, e, key) then [] else [key])
  {
    assert (keys + [key])[..|keys|] == keys;
  }

  method AppendIfDifferent(config: Doc, e: Doc, keys: seq<Key>, key: Key, before: seq<Key>)
    returns (diffs: seq<Key>)
    requires before == Diffs(config, e, keys)
    ensures diffs == Diffs(config, e, keys + [key])
  {
    DiffsAppend(config, e, keys, key);
    diffs := if FieldMatches(config, e, key) then before else before + [key];
  }

  method DiffTupleFields(config: Doc, e: Doc) returns (diffs: seq<Key>)
    ensures diffs == Diffs(config, e, TUPLE_FIELDS) == Drift(config, e)
    ensures diffs == [] <==> SameTuple(config, e)
  {
    DiffsAreDrift(config, e);
    diffs := [];
    for i := 0 to |DIRECT_FIELDS|
      invariant diffs == Diffs(config, e, DIRECT_FIELDS[..i])
    {
      diffs := AppendIfDifferent(config, e, DIRECT_FIELDS[..i], DIRECT_FIELDS[i], diffs);
      assert DIRECT_FIELDS[..i + 1] == DIRECT_FIELDS[..i] + [DIRECT_FIELDS[i]];
    }
    assert DIRECT_FIELDS[..|DIRECT_FIELDS|] == DIRECT_FIELDS;
    var keys := DIRECT_FIELDS;
    diffs := AppendIfDifferent(config, e, keys, IdentityComplete, diffs);
    keys := keys + [IdentityComplete];
    diffs := AppendIfDifferent(config, e, keys, NdmBuild, diffs);
    keys := keys + [NdmBuild];
    diffs := AppendIfDifferent(config, e, keys, DeviceFingerprintDigest, diffs);
    keys := keys + [DeviceFingerprintDigest];
    diffs := AppendIfDifferent(config, e, keys, Transport, diffs);
    keys := keys + [Transport];
    diffs := AppendIfDifferent(config, e, keys, SshHostKeyFingerprint, diffs);
    keys := keys + [SshHostKeyFingerprint];
    assert keys == TUPLE_FIELDS;
    NoDiffsIff(config, e, TUPLE_FIELDS);
  }

  ghost predicate AllMatch(config: Doc, e: Doc, keys: seq<Key>) {
    forall k :: k in keys ==> FieldMatches(config, e, k)
  }

  /** The evidence shows exactly the certified tuple. */
  ghost predicate SameTuple(config: Doc, e: Doc) {
    AllMatch(config, e, TUPLE_FIELDS)
  }

  lemma {:induction false} NoDiffsIff(config: Doc, e: Doc, keys: seq<Key>)
    ensures Diffs(config, e, keys) == [] <==> AllMatch(config, e, keys)
  {
    if keys != [] {
      NoDiffsIff(config, e, keys[..|keys| - 1]);
      assert keys == keys[..|keys| - 1] + [keys[|keys| - 1]];
    }
  }

  /** Equality of values, in which true is 1 and false is 0. */
  lemma PyEqMeans(a: Json, b: Json)
    ensures PyEq(a, b) <==>
      || a == b
      || (a.Bool? && b == Num(if a.b then 1 else 0))
      || (b.Bool? && a == Num(if b.b then 1 else 0))
  {
  }

  predicate Differs(config: Doc, e: Doc, key: Key) {
    !PyEq(Get(config, key), Get(e, key))
  }

  /** The evidence may show a value under its own key or, failing that, under another. */
  predicate DiffersFrom(config: Doc, e: Doc, key: Key, other: Key) {
    !PyEq(Get(config, key), if key in e then e[key] else Get(e, other))
  }

  predicate PinDiffers(config: Doc, e: Doc) {
    var a, b := TextOrEmpty(Get(config, SshHostKeyFingerprint)), TextOrEmpty(Get(e, SshHostKeyFingerprint));
    PinBody(a) != PinBody(b) || (Strip(a) == "") != (Strip(b) == "")
  }

  /** The fields of the tuple in the order of the report, and beside each how it is compared. */
  function TupleKeys(): seq<Key> {
    [Model, FirmwareVersion, Region, UpdateChannel, ComponentSetDigest, CertificationEligible, SshHostKeyAlgorithm,
     IdentityComplete, NdmBuild, DeviceFingerprintDigest, Transport, SshHostKeyFingerprint]
  }

  function Differences(config: Doc, e: Doc): seq<bool> {
    [Differs(config, e, Model), Differs(config, e, FirmwareVersion), Differs(config, e, Region),
     Differs(config, e, UpdateChannel), Differs(config, e, ComponentSetDigest),
     Differs(config, e, CertificationEligible), Differs(config, e, SshHostKeyAlgorithm),
     IdentityComplete in config && Differs(config, e, IdentityComplete),
     DiffersFrom(config, e, NdmBuild, Build), DiffersFrom(config, e, DeviceFingerprintDigest, DeviceFingerprint),
     DiffersFrom(config, e, Transport, TransportSecurity), PinDiffers(config, e)]
  }

  function Picked(keys: seq<Key>, differs: seq<bool>): seq<Key>
    requires |keys| == |differs|
  {
    if keys == [] then []
    else
      var n := |keys| - 1;
      Picked(keys[..n], differs[..n]) + if differs[n] then [keys[n]] else []
  }

  /** The differing fields, each by its own comparison, in the order of the report. */
  function Drift(config: Doc, e: Doc): seq<Key> {
    Picked(TupleKeys(), Differences(config, e))
  }

  lemma PinMatches(config: Doc, e: Doc)
    ensures FieldMatches(config, e, SshHostKeyFingerprint) <==> !PinDiffers(config, e)
  {
    SamePinIff(TextOrEmpty(Get(config, SshHostKeyFingerprint)), TextOrEmpty(Get(e, SshHostKeyFingerprint)));
  }

  lemma MatchAt(config: Doc, e: Doc, i: nat)
    requires i < 12
    ensures FieldMatches(config, e, TupleKeys()[i]) <==> !Differences(config, e)[i]
  {
    var key, differs := TupleKeys()[i], Differences(config, e)[i];
    if i < 7 {
      assert differs == Differs(config, e, key);
    } else if i == 7 {
      assert key == IdentityComplete;
    } else if i == 8 {
      assert key == NdmBuild && differs == DiffersFrom(config, e, NdmBuild, Build);
    } else if i == 9 {
      assert key == DeviceFingerprintDigest;
    } else if i == 10 {
      assert key == Transport;
    } else {
      assert key == SshHostKeyFingerprint && differs == PinDiffers(config, e);
      PinMatches(config, e);
    }
  }

  lemma {:induction false} DiffsArePicked(config: Doc, e: Doc, keys: seq<Key>, differs: seq<bool>)
    requires |keys| == |differs| && forall i :: 0 <= i < |keys| ==> (FieldMatches(config, e, keys[i]) <==> !differs[i])
    ensures Diffs(config, e, keys) == Picked(keys, differs)
  {
    if keys != [] { DiffsArePicked(config, e, keys[..|keys| - 1], differs[..|keys| - 1]); }
  }

  /** The reported differences are the differing fields, each by its own comparison, in order. */
  lemma DiffsAreDrift(config: Doc, e: Doc)
    ensures Diffs(config, e, TUPLE_FIELDS) == Drift(config, e)
    ensures SameTuple(config, e) <==> forall i :: 0 <= i < 12 ==> !Differences(config, e)[i]
  {
    var keys, differs := TupleKeys(), Differences(config, e);
    assert TUPLE_FIELDS == keys;
    forall i | 0 <= i < 12 ensures FieldMatches(config, e, keys[i]) <==> !differs[i] { MatchAt(config, e, i); }
    DiffsArePicked(config, e, keys, differs);
    assert SameTuple(config, e) <==> forall i :: 0 <= i < 12 ==> FieldMatches(config, e, keys[i]);
  }

  // ---- recertification ----

  /** What the certification points at. */
  datatype Pointer = Pointer(recordedAt: Json, sha256: Json, path: Json)

  /** A superseded certification, kept in the history list. */
  datatype Superseded = Superseded(pointer: Pointer, componentDigest: Json, fingerprint: Json, pin: Json, source: Json)

  /** `doc` holds every key of the certification file but the history list. */
  datatype Config = Config(doc: Doc, previous: seq<Superseded>)

  datatype Probe = Probe(evidence: Doc, path: string, sha256: string, now: real)

  datatype Outcome =
    | Recertified(deadline: real, proactive: bool)
    | DriftDetected(diffs: seq<Key>)
    | Ineligible
    | Raised

  function CurrentPointer(c: Config): Pointer {
    Pointer(Get(c.doc, EvidenceRecordedAt), Get(c.doc, EvidenceSha256), Get(c.doc, EvidencePath))
  }

  function Lower(s: string): string {
    seq(|s|, i requires 0 <= i < |s| => if 'A' <= s[i] <= 'Z' then s[i] - 'A' + 'a' else s[i])
  }

  function ShaText(s: string): string {
    var t := Lower(s);
    if "sha256:" <= t then t[7..] else t
  }

  function ProbePointer(p: Probe): Pointer {
    Pointer(Get(p.evidence, EvidenceRecordedAt), Text(ShaText(p.sha256)), Text(p.path))
  }

  function Hours(r: Readers, doc: Doc): Option<real> {
    if OpeningFreshnessHours !in doc then Some(24.0)
    else match doc[OpeningFreshnessHours]
      case Num(n) => Some(n as real)
      case Bool(b) => Some(if b then 1.0 else 0.0)
      case Text(s) => r.number(s)
      case Null => None
  }

  /** Seconds; `None` if the field is missing or unreadable. */
  function Deadline(r: Readers, doc: Doc): Option<real> {
    if EvidenceRecordedAt !in doc then None
    else
      var at, hours := r.instant(PyStr(doc[EvidenceRecordedAt])), Hours(r, doc);
      if at.None? || hours.None? then None else Some(at.value + hours.value * 3600.0)
  }

  predicate RequiredPresent(doc: Doc) {
    && EvidenceRecordedAt in doc && EvidencePath in doc && EvidenceSha256 in doc
    && ComponentSetDigest in doc && DeviceFingerprintDigest in doc
    && SshHostKeyFingerprint in doc
  }

  function Supersede(c: Config): Superseded {
    Superseded(CurrentPointer(c), Get(c.doc, ComponentSetDigest), Get(c.doc, DeviceFingerprintDigest),
               Get(c.doc, SshHostKeyFingerprint), Get(c.doc, SourceAddress))
  }

  function Refreshed(c: Config, p: Probe, labels: Doc): Config {
    Config(c.doc[RecertifiedOn := Get(labels, RecertifiedOn)]
                [RecertificationReason := Get(labels, RecertificationReason)]
                [RecertificationNote := Get(labels, RecertificationNote)]
                [EvidenceRecordedAt := Get(p.evidence, EvidenceRecordedAt)]
                [EvidenceSha256 := Text(ShaText(p.sha256))]
                [EvidencePath := Text(p.path)],
           c.previous + [Supersede(c)])
  }

  /** `labels` are the dated texts written beside the pointer; they play no part. */
  function Evaluation(r: Readers, c: Config, p: Probe, labels: Doc): (Outcome, Config) {
    var diffs := Diffs(c.doc, p.evidence, TUPLE_FIELDS);
    if diffs != [] then (DriftDetected(diffs), c)
    else if Get(p.evidence, CertificationEligible) != Bool(true)
         || Get(p.evidence, IdentityComplete) != Bool(true) then (Ineligible, c)
    else if !RequiredPresent(c.doc) || Deadline(r, c.doc).None? || EvidenceRecordedAt !in p.evidence
         || Deadline(r, Refreshed(c, p, labels).doc).None? then (Raised, c)
    else
      (Recertified(Deadline(r, Refreshed(c, p, labels).doc).value, p.now < Deadline(r, c.doc).value),
       Refreshed(c, p, labels))
  }

  method EvaluateAndApply(r: Readers, c: Config, p: Probe, labels: Doc) returns (outcome: Outcome, c': Config)
    ensures (outcome, c') == Evaluation(r, c, p, labels)
  {
    var diffs := DiffTupleFields(c.doc, p.evidence);
    var eligible := Get(p.evidence, CertificationEligible) == Bool(true);
    var complete := Get(p.evidence, IdentityComplete) == Bool(true);
    if diffs != [] || !eligible || !complete {
      return if diffs != [] then DriftDetected(diffs) else Ineligible, c;
    }
    var oldDeadline := Deadline(r, c.doc);
    if !RequiredPresent(c.doc) || oldDeadline.None? || EvidenceRecordedAt !in p.evidence {
      return Raised, c;
    }
    var previous := c.previous;
    previous := previous + [Supersede(c)];
    var doc := c.doc;
    doc := doc[RecertifiedOn := Get(labels, RecertifiedOn)];
    doc := doc[RecertificationReason := Get(labels, RecertificationReason)];
    doc := doc[RecertificationNote := Get(labels, RecertificationNote)];
    doc := doc[EvidenceRecordedAt := p.evidence[EvidenceRecordedAt]];
    doc := doc[EvidenceSha256 := Text(ShaText(p.sha256))];
    doc := doc[EvidencePath := Text(p.path)];
    var deadline := Deadline(r, doc);
    if deadline.None? {
      return Raised, c;
    }
    return Recertified(deadline.value, p.now < oldDeadline.value), Config(doc, previous);
  }

  /** The evidence's digest is recorded in lower case and without the algorithm's name. */
  lemma ShaTextMeans(s: string)
    ensures ShaText(s) == (if |s| >= 7 && Lower(s[..7]) == "sha256:" then Lower(s[7..]) else Lower(s))
  {
    if |s| >= 7 {
      assert Lower(s) == Lower(s[..7]) + Lower(s[7..]);
      assert "sha256:" <= Lower(s) <==> Lower(s)[..7] == "sha256:";
    }
  }

  /** A certification lasts its freshness hours, 24 if the file does not say, from its evidence. */
  lemma DeadlineMeans(r: Readers, doc: Doc)
    requires Deadline(r, doc).Some?
    ensures EvidenceRecordedAt in doc && r.instant(PyStr(doc[EvidenceRecordedAt])).Some?
    ensures var at := r.instant(PyStr(doc[EvidenceRecordedAt])).value;
      && (OpeningFreshnessHours !in doc ==> Deadline(r, doc).value == at + 86400.0)
      && (OpeningFreshnessHours in doc && doc[OpeningFreshnessHours].Num? ==>
            Deadline(r, doc).value == at + doc[OpeningFreshnessHours].n as real * 3600.0)
  {
  }

  /** A history entry that keeps the certification `c` as it was. */
  predicate RefreshEntry(c: Config, entry: Superseded) {
    && entry.pointer.recordedAt == Get(c.doc, EvidenceRecordedAt)
    && entry.pointer.sha256 == Get(c.doc, EvidenceSha256)
    && entry.pointer.path == Get(c.doc, EvidencePath)
    && entry.componentDigest == Get(c.doc, ComponentSetDigest)
    && entry.fingerprint == Get(c.doc, DeviceFingerprintDigest)
    && entry.pin == Get(c.doc, SshHostKeyFingerprint)
    && entry.source == Get(c.doc, SourceAddress)
  }

  /** What a refresh appends to the history, and what it then points at. */
  lemma RefreshWrites(c: Config, p: Probe, labels: Doc)
    ensures var c' := Refreshed(c, p, labels);
      && |c'.previous| == |c.previous| + 1 && c'.previous[..|c.previous|] == c.previous
      && RefreshEntry(c, c'.previous[|c.previous|])
      && Get(c'.doc, EvidenceRecordedAt) == Get(p.evidence, EvidenceRecordedAt)
      && Get(c'.doc, EvidenceSha256) == Text(ShaText(p.sha256))
      && Get(c'.doc, EvidencePath) == Text(p.path)
      && forall k :: k in [RecertifiedOn, RecertificationReason, RecertificationNote] ==> Get(c'.doc, k) == Get(labels, k)
  {
  }

  // ---- every run ----

  /** Keys that a refresh writes. */
  const REFRESHED_KEYS := {RecertifiedOn, RecertificationReason, RecertificationNote,
                           EvidenceRecordedAt, EvidenceSha256, EvidencePath}

  ghost predicate SameCertification(a: Doc, b: Doc) {
    forall k :: k !in REFRESHED_KEYS ==> (k in a <==> k in b) && Get(a, k) == Get(b, k)
  }

  predicate Eligible(e: Doc) {
    Get(e, CertificationEligible) == Bool(true) && Get(e, IdentityComplete) == Bool(true)
  }

  /** Evidence a certification accepts: the tuple, the two flags, and a readable date. */
  ghost predicate Accepts(r: Readers, doc: Doc, e: Doc) {
    && SameTuple(doc, e)
    && Eligible(e)
    && EvidenceRecordedAt in e && r.instant(PyStr(e[EvidenceRecordedAt])).Some?
  }

  ghost predicate WellFormed(r: Readers, doc: Doc) {
    RequiredPresent(doc) && Deadline(r, doc).Some?
  }

  lemma TupleNotRefreshed(k: Key)
    requires k in TUPLE_FIELDS
    ensures k !in REFRESHED_KEYS
  {
  }

  lemma MatchesSame(a: Doc, b: Doc, e: Doc, k: Key)
    requires (k in a <==> k in b) && Get(a, k) == Get(b, k)
    ensures FieldMatches(a, e, k) == FieldMatches(b, e, k)
  {
  }

  /** What acceptance depends on is kept. */
  lemma AcceptsSame(r: Readers, a: Doc, b: Doc, e: Doc)
    requires SameCertification(a, b)
    ensures Accepts(r, a, e) <==> Accepts(r, b, e)
    ensures Hours(r, a) == Hours(r, b)
  {
    forall k | k in TUPLE_FIELDS ensures FieldMatches(a, e, k) == FieldMatches(b, e, k) {
      TupleNotRefreshed(k);
      MatchesSame(a, b, e, k);
    }
    assert OpeningFreshnessHours !in REFRESHED_KEYS;
  }

  lemma RefreshedDeadline(r: Readers, c: Config, p: Probe, labels: Doc)
    requires EvidenceRecordedAt in p.evidence && Hours(r, c.doc).Some?
    ensures var at := r.instant(PyStr(p.evidence[EvidenceRecordedAt]));
      Deadline(r, Refreshed(c, p, labels).doc) ==
      if at.None? then None else Some(at.value + Hours(r, c.doc).value * 3600.0)
  {
    RefreshKeeps(r, c, p, labels);
  }

  /** One evaluation: refreshed exactly when the evidence is accepted, and otherwise the
      configuration is returned as it was. */
  lemma EvaluateExactly(r: Readers, c: Config, p: Probe, labels: Doc)
    ensures var (outcome, c') := Evaluation(r, c, p, labels);
      && (outcome.Recertified? <==> WellFormed(r, c.doc) && Accepts(r, c.doc, p.evidence))
      && (outcome.DriftDetected? <==> !SameTuple(c.doc, p.evidence))
      && (outcome.DriftDetected? ==> outcome.diffs == Drift(c.doc, p.evidence))
      && (outcome.Ineligible? <==> SameTuple(c.doc, p.evidence) && !Eligible(p.evidence))
      && (!outcome.Recertified? ==> c' == c)
      && (outcome.Recertified? ==>
            && c' == Refreshed(c, p, labels)
            && WellFormed(r, c'.doc) && Deadline(r, c'.doc) == Some(outcome.deadline)
            && outcome.proactive == (p.now < Deadline(r, c.doc).value))
  {
    NoDiffsIff(c.doc, p.evidence, TUPLE_FIELDS);
    DiffsAreDrift(c.doc, p.evidence);
    if EvidenceRecordedAt in p.evidence && WellFormed(r, c.doc) {
      RefreshedDeadline(r, c, p, labels);
      RefreshKeeps(r, c, p, labels);
    }
  }

  lemma RefreshKeeps(r: Readers, c: Config, p: Probe, labels: Doc)
    ensures var c' := Refreshed(c, p, labels);
      && SameCertification(c.doc, c'.doc)
      && CurrentPointer(c') == ProbePointer(p)
      && (RequiredPresent(c.doc) ==> RequiredPresent(c'.doc))
      && Hours(r, c'.doc) == Hours(r, c.doc)
      && (EvidenceRecordedAt in p.evidence ==>
            c'.doc[EvidenceRecordedAt] == p.evidence[EvidenceRecordedAt])
  {
    var c' := Refreshed(c, p, labels);
    forall k | k !in REFRESHED_KEYS ensures (k in c.doc <==> k in c'.doc) && Get(c.doc, k) == Get(c'.doc, k) { }
    assert OpeningFreshnessHours !in REFRESHED_KEYS;
  }

  function Run(r: Readers, c: Config, probes: seq<(Probe, Doc)>): Config {
    if probes == [] then c
    else
      var last := probes[|probes| - 1];
      Evaluation(r, Run(r, c, probes[..|probes| - 1]), last.0, last.1).1
  }

  function Pointers(entries: seq<Superseded>): (ps: seq<Pointer>)
    ensures |ps| == |entries|
  {
    seq(|entries|, i requires 0 <= i < |entries| => entries[i].pointer)
  }

  /** The pointers of the probes that the given certification accepts, in order. */
  ghost function AcceptedPointers(r: Readers, doc: Doc, probes: seq<(Probe, Doc)>): seq<Pointer> {
    if probes == [] then []
    else
      var last := probes[|probes| - 1].0;
      AcceptedPointers(r, doc, probes[..|probes| - 1])
      + (if Refreshes(r, doc, last.evidence) then [ProbePointer(last)] else [])
  }

  /** Evidence that refreshes a certification. One that lacks a key it needs, or whose own
      deadline cannot be read, is never refreshed. */
  ghost predicate Refreshes(r: Readers, doc: Doc, e: Doc) {
    WellFormed(r, doc) && Accepts(r, doc, e)
  }

  /** Over any sequence of probes the certified tuple and every other key stay as they were,
      acceptance is decided by the initial certification and the evidence alone, and history
      plus current pointer is the initial history, the initial pointer, and every accepted
      pointer in order. */
  lemma {:induction false} RunIsAppendOnly(r: Readers, c: Config, probes: seq<(Probe, Doc)>)
    ensures var c' := Run(r, c, probes);
      && (WellFormed(r, c'.doc) <==> WellFormed(r, c.doc))
      && SameCertification(c.doc, c'.doc)
      && Pointers(c'.previous) + [CurrentPointer(c')]
         == Pointers(c.previous) + [CurrentPointer(c)] + AcceptedPointers(r, c.doc, probes)
      && c.previous <= c'.previous
      && forall e :: Refreshes(r, c'.doc, e) <==> Refreshes(r, c.doc, e)
  {
    if probes == [] {
      var ps := Pointers(c.previous) + [CurrentPointer(c)];
      assert ps + [] == ps;
    } else {
      var before, last := probes[..|probes| - 1], probes[|probes| - 1];
      RunIsAppendOnly(r, c, before);
      RunAppend(r, c, Run(r, c, before), last.0, last.1, AcceptedPointers(r, c.doc, before));
    }
    var c' := Run(r, c, probes);
    forall e ensures Refreshes(r, c'.doc, e) <==> Refreshes(r, c.doc, e) { AcceptsSame(r, c.doc, c'.doc, e); }
  }

  lemma RunAppend(r: Readers, c: Config, mid: Config, p: Probe, labels: Doc, accepted: seq<Pointer>)
    requires WellFormed(r, mid.doc) <==> WellFormed(r, c.doc)
    requires SameCertification(c.doc, mid.doc) && c.previous <= mid.previous
    requires Pointers(mid.previous) + [CurrentPointer(mid)]
          == Pointers(c.previous) + [CurrentPointer(c)] + accepted
    ensures var c' := Evaluation(r, mid, p, labels).1;
      && (WellFormed(r, c'.doc) <==> WellFormed(r, c.doc))
      && SameCertification(c.doc, c'.doc)
      && c.previous <= c'.previous
      && Pointers(c'.previous) + [CurrentPointer(c')]
         == Pointers(c.previous) + [CurrentPointer(c)]
            + (accepted + (if Refreshes(r, c.doc, p.evidence) then [ProbePointer(p)] else []))
  {
    var c' := Evaluation(r, mid, p, labels).1;
    EvaluateExactly(r, mid, p, labels);
    AcceptsSame(r, c.doc, mid.doc, p.evidence);
    if Refreshes(r, c.doc, p.evidence) {
      RefreshKeeps(r, mid, p, labels);
      SameCertificationTrans(c.doc, mid.doc, c'.doc);
      RefreshedPointers(r, mid, p, labels);
      var start, next := Pointers(c.previous) + [CurrentPointer(c)], [ProbePointer(p)];
      assert start + accepted + next == start + (accepted + next);
    } else {
      assert accepted + [] == accepted;
    }
  }

  lemma RefreshedPointers(r: Readers, c: Config, p: Probe, labels: Doc)
    ensures var c' := Refreshed(c, p, labels);
      Pointers(c'.previous) + [CurrentPointer(c')]
      == Pointers(c.previous) + [CurrentPointer(c)] + [ProbePointer(p)]
  {
    var c' := Refreshed(c, p, labels);
    RefreshKeeps(r, c, p, labels);
    assert Pointers(c'.previous) == Pointers(c.previous) + [CurrentPointer(c)];
  }

  lemma SameCertificationTrans(a: Doc, b: Doc, c: Doc)
    requires SameCertification(a, b) && SameCertification(b, c)
    ensures SameCertification(a, c)
  {
  }

  // ---- the refresh loop ----

  /** One run of the refresh script: evaluate only when the deadline is within the margin. */
  function Poll(r: Readers, c: Config, p: Probe, labels: Doc, margin: real): Config {
    if Due(r, c.doc, p.now, margin)
    then Evaluation(r, c, p, labels).1 else c
  }

  predicate Due(r: Readers, doc: Doc, now: real, margin: real) {
    Deadline(r, doc).Some? && now >= Deadline(r, doc).value - margin
  }

  /** Evidence that is accepted and at most `lag` older than its poll. */
  ghost predicate Good(r: Readers, doc: Doc, p: Probe, lag: real) {
    && Accepts(r, doc, p.evidence)
    && r.instant(PyStr(p.evidence[EvidenceRecordedAt])).value >= p.now - lag
  }

  /** Polls come at most `gap` apart, and every one that is due gets good evidence. */
  ghost predicate Regular(
    r: Readers, c: Config, polls: seq<(Probe, Doc)>, last: real, margin: real, gap: real, lag: real)
    decreases |polls|
  {
    polls == [] ||
    var p := polls[0].0;
    && last <= p.now <= last + gap
    && (Due(r, c.doc, p.now, margin) ==> Good(r, c.doc, p, lag))
    && Regular(r, Poll(r, c, p, polls[0].1, margin), polls[1..], p.now, margin, gap, lag)
  }

  /** Every poll finds the certification unexpired, and it stays so until the next poll. */
  ghost predicate AlwaysFresh(r: Readers, c: Config, polls: seq<(Probe, Doc)>, margin: real, gap: real)
    decreases |polls|
  {
    polls == [] ||
    var p := polls[0].0;
    var c' := Poll(r, c, p, polls[0].1, margin);
    && Deadline(r, c.doc).Some? && p.now < Deadline(r, c.doc).value
    && Deadline(r, c'.doc).Some? && p.now + gap < Deadline(r, c'.doc).value
    && AlwaysFresh(r, c', polls[1..], margin, gap)
  }

  /** If polls are at most the margin apart, poll gap plus evidence lag is less than the
      freshness, and every due poll's evidence is accepted, then a certification that is fresh
      at the first poll never reaches its deadline, and every refresh is proactive. */
  lemma {:induction false} NeverExpires(
    r: Readers, c: Config, polls: seq<(Probe, Doc)>, last: real, margin: real, gap: real, lag: real)
    requires WellFormed(r, c.doc) && (polls != [] ==> polls[0].0.now < Deadline(r, c.doc).value)
    requires 0.0 <= gap <= margin && gap + lag < Hours(r, c.doc).value * 3600.0
    requires Regular(r, c, polls, last, margin, gap, lag)
    ensures AlwaysFresh(r, c, polls, margin, gap)
    decreases |polls|
  {
    if polls != [] {
      var p, labels := polls[0].0, polls[0].1;
      PollStaysFresh(r, c, p, labels, margin, gap, lag);
      NeverExpires(r, Poll(r, c, p, labels, margin), polls[1..], p.now, margin, gap, lag);
    }
  }

  lemma PollStaysFresh(r: Readers, c: Config, p: Probe, labels: Doc, margin: real, gap: real, lag: real)
    requires WellFormed(r, c.doc) && p.now < Deadline(r, c.doc).value
    requires 0.0 <= gap <= margin && gap + lag < Hours(r, c.doc).value * 3600.0
    requires Due(r, c.doc, p.now, margin) ==> Good(r, c.doc, p, lag)
    ensures var c' := Poll(r, c, p, labels, margin);
      && WellFormed(r, c'.doc) && SameCertification(c.doc, c'.doc)
      && Hours(r, c'.doc) == Hours(r, c.doc)
      && p.now + gap < Deadline(r, c'.doc).value
      && (c' != c ==> Evaluation(r, c, p, labels).0.Recertified? && Evaluation(r, c, p, labels).0.proactive)
  {
    EvaluateExactly(r, c, p, labels);
    RefreshKeeps(r, c, p, labels);
  }
}
