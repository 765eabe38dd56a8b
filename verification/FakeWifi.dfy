/** The fake Wi-Fi device: access points driven by command lines and read back. */
module FakeWifi {
  import opened Prelude

  // ---- reading a command line ----

  function Lower(s: string): (r: string)
    ensures |r| == |s|
  {
    seq(|s|, i requires 0 <= i < |s| => if 'A' <= s[i] <= 'Z' then s[i] - 'A' + 'a' else s[i])
  }

  /** The maximal prefix without white space. */
  function Word(s: string): (r: string)
    ensures r <= s && forall c :: c in r ==> !IsSpace(c)
    ensures |r| < |s| ==> IsSpace(s[|r|])
  {
    if s == "" || IsSpace(s[0]) then "" else [s[0]] + Word(s[1..])
  }

  datatype Switch = Up | Encryption | Wpa2 | Wpa3 | Psk

  datatype Op = Turn(which: Switch, on: bool) | Named(ssid: string) | Unnamed | Ignored

  /** `authentication`, white space, `wpa-psk`, white space, and the start of a key. */
  predicate IsPskCommand(rest: string) {
    && |rest| > 14 && Lower(rest[..14]) == "authentication" && IsSpace(rest[14])
    && var tail := StripLeft(rest[14..]);
       |tail| > 7 && Lower(tail[..7]) == "wpa-psk" && IsSpace(tail[7]) && StripLeft(tail[7..]) != ""
  }

  /** The commands that are one fixed text; none of them begins like the two others. */
  function Fixed(lowered: string): Op {
    if lowered == "up" then Turn(Up, true)
    else if lowered == "down" then Turn(Up, false)
    else if lowered == "no ssid" then Unnamed
    else if lowered == "no authentication wpa-psk" then Turn(Psk, false)
    else if lowered == "encryption enable" then Turn(Encryption, true)
    else if lowered == "no encryption enable" then Turn(Encryption, false)
    else if lowered == "encryption wpa2" then Turn(Wpa2, true)
    else if lowered == "no encryption wpa2" then Turn(Wpa2, false)
    else if lowered == "encryption wpa3" then Turn(Wpa3, true)
    else if lowered == "no encryption wpa3" then Turn(Wpa3, false)
    else Ignored
  }

  function Classify(rest: string): Op {
    var lowered := Lower(rest);
    if |lowered| >= 5 && lowered[..5] == "ssid " then Named(Strip(rest[5..]))
    else if IsPskCommand(rest) then Turn(Psk, true)
    else Fixed(lowered)
  }

  datatype Addressed = Addressed(ap: string, op: Op)

  /** A command line as the device reads it; nothing if it is no interface command. */
  type Line = Option<Addressed>

  /** The access point and the rest of a command line. */
  datatype Parts = Parts(ap: string, rest: string)

  /** `interface`, white space, an access point, white space, and the rest on one line. */
  function PartsOf(cmd: string): Option<Parts> {
    if |cmd| <= 9 || Lower(cmd[..9]) != "interface" || !IsSpace(cmd[9]) then None
    else SplitTail(StripLeft(cmd[9..]))
  }

  function SplitTail(tail: string): Option<Parts> {
    var ap := Word(tail);
    var rest := StripLeft(tail[|ap|..]);
    if ap == "" || rest == "" || '\n' in rest then None else Some(Parts(ap, rest))
  }

  function Interpret(command: string): Line {
    var parts := PartsOf(Strip(command));
    if parts.None? then None
    else Some(Addressed(parts.value.ap, Classify(Strip(parts.value.rest))))
  }

  /** Text that `strip` leaves alone, on one line. */
  predicate Trimmed(s: string) {
    s != "" && !IsSpace(s[0]) && !IsSpace(s[|s| - 1]) && '\n' !in s
  }

  predicate IsWord(s: string) {
    s != "" && forall i :: 0 <= i < |s| ==> !IsSpace(s[i])
  }

  lemma {:induction false} WordOf(w: string, tail: string)
    requires forall i :: 0 <= i < |w| ==> !IsSpace(w[i])
    requires tail != "" && IsSpace(tail[0])
    ensures Word(w + tail) == w
  {
    if w == "" {
      assert w + tail == tail;
    } else {
      assert (w + tail)[1..] == w[1..] + tail;
      WordOf(w[1..], tail);
    }
  }

  lemma OneSpace(s: string)
    requires s != "" && !IsSpace(s[0])
    ensures StripLeft(" " + s) == s
  {
    assert (" " + s)[1..] == s;
  }

  lemma TailSplits(ap: string, rest: string)
    requires IsWord(ap) && Trimmed(rest)
    ensures SplitTail(ap + (" " + rest)) == Some(Parts(ap, rest))
  {
    WordOf(ap, " " + rest);
    assert (ap + (" " + rest))[|ap|..] == " " + rest;
    OneSpace(rest);
  }

  lemma LineSplits(word: string, ap: string, rest: string)
    requires Lower(word) == "interface" && IsWord(ap) && Trimmed(rest)
    ensures PartsOf(word + (" " + (ap + (" " + rest)))) == Some(Parts(ap, rest))
  {
    var tail := ap + (" " + rest);
    var cmd := word + (" " + tail);
    assert |word| == |Lower(word)| == 9;
    assert cmd[..9] == word;
    assert cmd[9..] == " " + tail;
    OneSpace(tail);
    TailSplits(ap, rest);
  }

  /** A command line is read as what was written, whatever the case of its first word. */
  lemma InterpretsAs(word: string, ap: string, rest: string)
    requires Lower(word) == "interface" && IsWord(ap) && Trimmed(rest)
    ensures Interpret(word + (" " + (ap + (" " + rest)))) == Some(Addressed(ap, Classify(rest)))
  {
    var cmd := word + (" " + (ap + (" " + rest)));
    assert |word| == |Lower(word)| == 9;
    assert Lower(word)[0] == "interface"[0] && cmd[0] == word[0] && cmd[|cmd| - 1] == rest[|rest| - 1];
    StripFixed(cmd);
    StripFixed(rest);
    LineSplits(word, ap, rest);
  }

  lemma CaseIgnored()
    ensures Lower("INTERFACE") == "interface" && Lower("Interface") == "interface"
  {
    assert Lower("INTERFACE")[0] == 'i' && Lower("INTERFACE")[8] == 'e';
  }

  /** A line that does not begin with that word, or that goes on after a line break, is no
      command. */
  lemma NotInterpreted(command: string)
    requires var cmd := Strip(command);
      || |cmd| < 9 || Lower(cmd[..9]) != "interface"
      || (exists word, ap, rest :: |word| == 9 && IsWord(ap) && rest != "" && !IsSpace(rest[0]) && '\n' in rest
            && cmd == word + (" " + (ap + (" " + rest))))
    ensures Interpret(command) == None
  {
    var cmd := Strip(command);
    if |cmd| >= 9 && Lower(cmd[..9]) == "interface" {
      var word, ap, rest :| |word| == 9 && IsWord(ap) && rest != "" && !IsSpace(rest[0]) && '\n' in rest
        && cmd == word + (" " + (ap + (" " + rest)));
      var tail := ap + (" " + rest);
      assert cmd[9..] == " " + tail;
      OneSpace(tail);
      WordOf(ap, " " + rest);
      assert tail[|ap|..] == " " + rest;
      OneSpace(rest);
    }
  }

  lemma ClassifySsid(ssid: string)
    requires Trimmed(ssid)
    ensures Trimmed("ssid " + ssid) && Classify("ssid " + ssid) == Named(ssid)
  {
    var rest := "ssid " + ssid;
    assert Lower(rest)[..5] == "ssid ";
    assert rest[5..] == ssid;
    StripFixed(ssid);
  }

  lemma LowerFixed(s: string)
    requires forall i :: 0 <= i < |s| ==> !('A' <= s[i] <= 'Z')
    ensures Lower(s) == s
  {
    assert forall i :: 0 <= i < |s| ==> Lower(s)[i] == s[i];
  }

  /** A lower-case command that begins with neither `s` nor `a` is one of the fixed texts. */
  lemma ClassifyFixed(rest: string)
    requires rest != "" && (forall i :: 0 <= i < |rest| ==> !('A' <= rest[i] <= 'Z')) && rest[0] != 's' && rest[0] != 'a'
    ensures Classify(rest) == Fixed(rest)
  {
    LowerFixed(rest);
    if |rest| >= 5 { assert rest[..5][0] == rest[0] && "ssid "[0] == 's'; }
    if |rest| > 14 {
      LowerFixed(rest[..14]);
      assert rest[..14][0] == rest[0] && "authentication"[0] == 'a';
    }
  }

  /** The fixed commands do what they say. */
  lemma FixedSwitches()
    ensures Fixed("up") == Turn(Up, true) && Fixed("down") == Turn(Up, false)
    ensures Fixed("encryption enable") == Turn(Encryption, true) && Fixed("no encryption enable") == Turn(Encryption, false)
    ensures Fixed("encryption wpa2") == Turn(Wpa2, true) && Fixed("no encryption wpa2") == Turn(Wpa2, false)
    ensures Fixed("encryption wpa3") == Turn(Wpa3, true) && Fixed("no encryption wpa3") == Turn(Wpa3, false)
    ensures Fixed("no ssid") == Unnamed && Fixed("no authentication wpa-psk") == Turn(Psk, false)
  {
    assert "encryption wpa3"[14] != "encryption wpa2"[14] && "no encryption wpa3"[17] != "no encryption wpa2"[17];
  }

  /** A key command, whatever the key. */
  lemma ClassifyKey(key: string)
    requires Trimmed(key)
    ensures Classify("authentication wpa-psk " + key) == Turn(Psk, true)
  {
    var rest := "authentication wpa-psk " + key;
    LowerFixed("authentication");
    LowerFixed("wpa-psk");
    assert rest[..14] == "authentication" && rest[14] == ' ';
    assert Lower(rest)[0] == 'a' && (Lower(rest)[..5])[0] == 'a' && "ssid "[0] == 's';
    var tail := "wpa-psk " + key;
    assert rest[14..] == " " + tail;
    OneSpace(tail);
    assert tail[..7] == "wpa-psk" && tail[7] == ' ' && tail[7..] == " " + key;
    OneSpace(key);
  }

  // ---- the device ----

  datatype ApState = ApState(
    everConfigured: bool, ssid: string, up: bool, encryption: bool, wpa2: bool, wpa3: bool, psk: bool)

  const FRESH := ApState(false, "", false, false, false, false, false)

  function Flip(s: ApState, which: Switch, on: bool): ApState {
    ApState(s.everConfigured, s.ssid,
            if which == Up then on else s.up, if which == Encryption then on else s.encryption,
            if which == Wpa2 then on else s.wpa2, if which == Wpa3 then on else s.wpa3,
            if which == Psk then on else s.psk)
  }

  function ApplyOp(s: ApState, op: Op): ApState {
    match op
    case Turn(which, on) =>
      var t := Flip(s, which, on);
      if on then t.(everConfigured := true) else t
    case Named(ssid) => s.(ssid := ssid, everConfigured := true)
    case Unnamed => s.(ssid := "")
    case Ignored => s
  }

  type Aps = map<string, ApState>

  function StateIn(aps: Aps, ap: string): ApState {
    if ap in aps then aps[ap] else FRESH
  }

  function Step(aps: Aps, line: Line): Aps {
    if line.None? then aps
    else aps[line.value.ap := ApplyOp(StateIn(aps, line.value.ap), line.value.op)]
  }

  function After(commands: seq<Line>): Aps {
    if commands == [] then map[]
    else Step(After(commands[..|commands| - 1]), commands[|commands| - 1])
  }

  /** What the device reports; `enabled`, `wpa2` and `wpa3` are the keys of its encryption
      object, and its state and link fields repeat `up`. */
  datatype Readback = Readback(ssid: Option<string>, enabled: bool, wpa2: bool, wpa3: bool, up: bool)

  const UNCONFIGURED := Readback(Some(""), false, false, false, false)

  function Report(s: ApState): Readback {
    if !s.everConfigured then UNCONFIGURED
    else if !s.up && s.ssid == "" && !s.encryption && !s.psk then Readback(None, false, false, false, false)
    else Readback(Some(s.ssid), s.encryption, s.encryption && s.wpa2, s.encryption && s.wpa3, s.up)
  }

  class FakeWifiDevice {
    var aps: Aps
    /** The commands received so far, as read. */
    ghost var received: seq<Line>

    ghost predicate Valid()
      reads this
    {
      aps == After(received)
    }

    constructor ()
      ensures Valid() && received == []
    {
      aps := map[];
      received := [];
    }

    method ApplyCommand(command: string)
      requires Valid()
      modifies this
      ensures Valid() && received == old(received) + [Interpret(command)]
    {
      var line := Interpret(command);
      Obey(line);
    }

    method Obey(line: Line)
      requires Valid()
      modifies this
      ensures Valid() && received == old(received) + [line]
    {
      if line.Some? {
        Perform(line.value.ap, line.value.op);
      }
      received := received + [line];
      AfterOneMore(old(received), line);
    }

    method Perform(ap: string, op: Op)
      modifies this`aps
      ensures aps == old(aps)[ap := ApplyOp(StateIn(old(aps), ap), op)]
    {
      if ap !in aps {
        aps := aps[ap := FRESH];
      }
      match op
      case Turn(which, on) =>
        aps := aps[ap := Flip(aps[ap], which, on)];
        if on {
          aps := aps[ap := aps[ap].(everConfigured := true)];
        }
      case Named(ssid) =>
        aps := aps[ap := aps[ap].(ssid := ssid, everConfigured := true)];
      case Unnamed =>
        aps := aps[ap := aps[ap].(ssid := "")];
      case Ignored =>
    }

    /** What is read back follows from the last commands for this access point alone. */
    method ReadbackFor(ap: string) returns (r: Readback)
      requires Valid()
      ensures r == Report(FromLast(OpsFor(received, ap)))
    {
      StateIsFromLast(received, ap);
      if ap !in aps { return UNCONFIGURED; }
      return Report(aps[ap]);
    }
  }

  // ---- the same from the last command per attribute ----

  datatype Attribute = Ssid | Of(which: Switch)

  predicate Touches(op: Op, a: Attribute) {
    match op
    case Turn(which, _) => a == Of(which)
    case Named(_) => a == Ssid
    case Unnamed => a == Ssid
    case Ignored => false
  }

  predicate Configures(op: Op) {
    op.Named? || (op.Turn? && op.on)
  }

  predicate EverConfigured(ops: seq<Op>) {
    exists i :: 0 <= i < |ops| && Configures(ops[i])
  }

  /** The last operation on an attribute; `Ignored` if there is none. */
  function LastOn(ops: seq<Op>, a: Attribute): Op {
    if ops == [] then Ignored
    else if Touches(ops[|ops| - 1], a) then ops[|ops| - 1]
    else LastOn(ops[..|ops| - 1], a)
  }

  predicate NoneAfter(ops: seq<Op>, i: int, a: Attribute) {
    forall j :: 0 <= j < |ops| && i < j ==> !Touches(ops[j], a)
  }

  lemma {:induction false} LastOnIsLast(ops: seq<Op>, a: Attribute)
    ensures var r := LastOn(ops, a);
      if r == Ignored then NoneAfter(ops, -1, a)
      else Touches(r, a) && exists i :: 0 <= i < |ops| && ops[i] == r && NoneAfter(ops, i, a)
  {
    if ops != [] {
      var n := |ops| - 1;
      if Touches(ops[n], a) {
        assert NoneAfter(ops, n, a);
      } else {
        LastOnIsLast(ops[..n], a);
        assert forall i :: NoneAfter(ops[..n], i, a) ==> NoneAfter(ops, i, a);
      }
    }
  }

  predicate IsOn(ops: seq<Op>, which: Switch) {
    LastOn(ops, Of(which)) == Turn(which, true)
  }

  function SsidOf(ops: seq<Op>): string {
    var last := LastOn(ops, Ssid);
    if last.Named? then last.ssid else ""
  }

  function FromLast(ops: seq<Op>): ApState {
    ApState(EverConfigured(ops), SsidOf(ops),
            IsOn(ops, Up), IsOn(ops, Encryption), IsOn(ops, Wpa2), IsOn(ops, Wpa3), IsOn(ops, Psk))
  }

  /** The operations addressed to one access point. */
  function OpsFor(commands: seq<Line>, ap: string): seq<Op> {
    if commands == [] then []
    else
      var n := |commands| - 1;
      var a := commands[n];
      OpsFor(commands[..n], ap) + if a.Some? && a.value.ap == ap then [a.value.op] else []
  }

  lemma AfterOneMore(commands: seq<Line>, command: Line)
    ensures After(commands + [command]) == Step(After(commands), command)
  {
    assert (commands + [command])[..|commands|] == commands;
  }

  lemma LastOnMore(ops: seq<Op>, op: Op, a: Attribute)
    ensures LastOn(ops + [op], a) == if Touches(op, a) then op else LastOn(ops, a)
  {
    assert (ops + [op])[..|ops|] == ops;
  }

  lemma EverMore(ops: seq<Op>, op: Op)
    ensures EverConfigured(ops + [op]) <==> EverConfigured(ops) || Configures(op)
  {
    var more := ops + [op];
    assert more[|ops|] == op;
    assert forall i :: 0 <= i < |ops| ==> more[i] == ops[i];
  }

  predicate OnAfter(op: Op, which: Switch, was: bool) {
    if op.Turn? && op.which == which then op.on else was
  }

  lemma IsOnMore(ops: seq<Op>, op: Op, which: Switch)
    ensures IsOn(ops + [op], which) == OnAfter(op, which, IsOn(ops, which))
  {
    LastOnMore(ops, op, Of(which));
  }

  lemma SsidMore(ops: seq<Op>, op: Op)
    ensures SsidOf(ops + [op]) == if op.Named? then op.ssid else if op.Unnamed? then "" else SsidOf(ops)
  {
    LastOnMore(ops, op, Ssid);
  }

  lemma FieldByField(s: ApState, t: ApState, op: Op)
    requires t.everConfigured == (s.everConfigured || Configures(op))
    requires t.ssid == if op.Named? then op.ssid else if op.Unnamed? then "" else s.ssid
    requires t.up == OnAfter(op, Up, s.up) && t.encryption == OnAfter(op, Encryption, s.encryption)
    requires t.wpa2 == OnAfter(op, Wpa2, s.wpa2) && t.wpa3 == OnAfter(op, Wpa3, s.wpa3)
    requires t.psk == OnAfter(op, Psk, s.psk)
    ensures t == ApplyOp(s, op)
  {
  }

  lemma OneMore(ops: seq<Op>, op: Op)
    ensures FromLast(ops + [op]) == ApplyOp(FromLast(ops), op)
  {
    EverMore(ops, op);
    SsidMore(ops, op);
    IsOnMore(ops, op, Up);
    IsOnMore(ops, op, Encryption);
    IsOnMore(ops, op, Wpa2);
    IsOnMore(ops, op, Wpa3);
    IsOnMore(ops, op, Psk);
    FieldByField(FromLast(ops), FromLast(ops + [op]), op);
  }

  /** After any commands, an access point's state is that of its last operations. */
  lemma {:induction false} StateIsFromLast(commands: seq<Line>, ap: string)
    ensures StateIn(After(commands), ap) == FromLast(OpsFor(commands, ap))
  {
    if commands != [] {
      var n := |commands| - 1;
      StateIsFromLast(commands[..n], ap);
      var a := commands[n];
      if a.Some? && a.value.ap == ap {
        OneMore(OpsFor(commands[..n], ap), a.value.op);
      } else {
        assert OpsFor(commands, ap) == OpsFor(commands[..n], ap);
      }
    }
  }

  function ReadbackAfter(commands: seq<Line>, ap: string): Readback {
    Report(StateIn(After(commands), ap))
  }

  /** Commands to other access points, and lines that are no commands, never matter. */
  lemma OthersNeverMatter(a: seq<Line>, b: seq<Line>, ap: string)
    requires OpsFor(a, ap) == OpsFor(b, ap)
    ensures ReadbackAfter(a, ap) == ReadbackAfter(b, ap)
  {
    StateIsFromLast(a, ap);
    StateIsFromLast(b, ap);
  }

  ghost predicate SameLast(a: seq<Op>, b: seq<Op>) {
    forall at: Attribute :: LastOn(a, at) == LastOn(b, at)
  }

  /** Without a configuring operation every attribute still has its first value. */
  lemma ClearedOnly(ops: seq<Op>)
    requires !EverConfigured(ops)
    ensures FromLast(ops) == FRESH
  {
    forall w: Switch ensures !IsOn(ops, w) {
      LastOnIsLast(ops, Of(w));
    }
    LastOnIsLast(ops, Ssid);
  }

  /** The last commands per attribute decide the readback exactly up to whether the access
      point was ever configured. */
  lemma LastCommandsDecideIff(a: seq<Line>, b: seq<Line>, ap: string)
    requires SameLast(OpsFor(a, ap), OpsFor(b, ap))
    ensures ReadbackAfter(a, ap) == ReadbackAfter(b, ap)
      <==> (EverConfigured(OpsFor(a, ap)) <==> EverConfigured(OpsFor(b, ap)))
  {
    var x, y := OpsFor(a, ap), OpsFor(b, ap);
    StateIsFromLast(a, ap);
    StateIsFromLast(b, ap);
    assert FromLast(x).(everConfigured := true) == FromLast(y).(everConfigured := true);
    if !EverConfigured(x) { ClearedOnly(x); }
    if !EverConfigured(y) { ClearedOnly(y); }
  }

  lemma OpsForMore(commands: seq<Line>, command: Line, ap: string, op: Op)
    requires command == Some(Addressed(ap, op))
    ensures OpsFor(commands + [command], ap) == OpsFor(commands, ap) + [op]
  {
    assert (commands + [command])[..|commands|] == commands;
  }

  lemma ClearingHidesName(none: seq<Op>, ssid: string)
    requires none == []
    ensures SameLast(none + [Named(ssid)] + [Unnamed], none + [Unnamed])
    ensures EverConfigured(none + [Named(ssid)] + [Unnamed]) && !EverConfigured(none + [Unnamed])
  {
    forall at: Attribute ensures LastOn(none + [Named(ssid)] + [Unnamed], at) == LastOn(none + [Unnamed], at) {
      LastOnMore(none + [Named(ssid)], Unnamed, at);
      LastOnMore(none, Named(ssid), at);
      LastOnMore(none, Unnamed, at);
    }
    EverMore(none, Unnamed);
    EverMore(none, Named(ssid));
    EverMore(none + [Named(ssid)], Unnamed);
  }

  /** A name that is cleared at once has the same last commands as the clearing alone, and
      another readback. */
  lemma NamedThenCleared(commands: seq<Line>, name: Line, clear: Line, ap: string, ssid: string)
    requires OpsFor(commands, ap) == []
    requires name == Some(Addressed(ap, Named(ssid))) && clear == Some(Addressed(ap, Unnamed))
    ensures SameLast(OpsFor(commands + [name] + [clear], ap), OpsFor(commands + [clear], ap))
    ensures ReadbackAfter(commands + [name] + [clear], ap) != ReadbackAfter(commands + [clear], ap)
  {
    OpsForMore(commands, name, ap, Named(ssid));
    OpsForMore(commands, clear, ap, Unnamed);
    OpsForMore(commands + [name], clear, ap, Unnamed);
    ClearingHidesName(OpsFor(commands, ap), ssid);
    LastCommandsDecideIff(commands + [name] + [clear], commands + [clear], ap);
  }

  /** What is read back, from the last command on each switch: whether it is up, whether
      encryption is enabled, and which of the two modes is shown, which needs encryption enabled.
      The name is that of the last naming command; it is missing altogether exactly if the
      access point was configured once and all but the modes is off now. */
  lemma ReadbackMeans(commands: seq<Line>, ap: string)
    ensures var r, ops := ReadbackAfter(commands, ap), OpsFor(commands, ap);
      var off := !IsOn(ops, Up) && SsidOf(ops) == "" && !IsOn(ops, Encryption) && !IsOn(ops, Psk);
      && r.up == IsOn(ops, Up)
      && r.enabled == IsOn(ops, Encryption)
      && r.wpa2 == (IsOn(ops, Encryption) && IsOn(ops, Wpa2))
      && r.wpa3 == (IsOn(ops, Encryption) && IsOn(ops, Wpa3))
      && r.ssid == if EverConfigured(ops) && off then None else Some(SsidOf(ops))
  {
    StateIsFromLast(commands, ap);
    if !EverConfigured(OpsFor(commands, ap)) { ClearedOnly(OpsFor(commands, ap)); }
  }

  /** An access point looks unconfigured exactly if nothing ever configured it, or only a key
      is set on it. In particular, clearing commands alone never make it look configured. */
  lemma LooksUnconfiguredIff(commands: seq<Line>, ap: string)
    ensures var ops := OpsFor(commands, ap);
      ReadbackAfter(commands, ap) == UNCONFIGURED <==>
        || !EverConfigured(ops)
        || (IsOn(ops, Psk) && !IsOn(ops, Up) && !IsOn(ops, Encryption) && SsidOf(ops) == "")
  {
    StateIsFromLast(commands, ap);
  }
}
