/** Secrets and the records about them: credential put and router enrolment. A handler writes
    the vault first and the store second, and takes the secret back on every failing exit.
    The outcome of every store call and of the live probe is arbitrary. */
module Credentials {
  import opened Prelude

  const MANAGEMENT_KIND := "RouterManagementPassword"

  datatype Secret = Secret(kind: string, value: string, revoked: bool)

  datatype Ref = Ref(kind: string, revoked: bool)

  /** The vault's entries and the store's credential rows, by reference id. */
  datatype Books = Books(vault: map<string, Secret>, refs: map<string, Ref>)

  datatype Reply = Refused(status: int) | Replied(ref: Option<string>) | Raised

  /** The reference in a stored response, as far as it names one. */
  datatype Stored = Stored(ref: Option<string>)

  datatype Peek = PeekConflict | PeekNone | PeekFound(response: Option<Stored>)

  datatype Write = WriteConflict | WriteRaised | WriteCreated | WriteExisting(response: Option<Stored>)

  function PriorRef(response: Option<Stored>): Option<string> {
    if response.Some? && response.value.ref.Some? && response.value.ref.value != ""
    then Some(Strip(response.value.ref.value)) else None
  }

  /** A stored response may be replayed while the reference it names is recorded and unrevoked. */
  predicate Usable(refs: map<string, Ref>, response: Option<Stored>) {
    var r := PriorRef(response);
    r.Some? && r.value != "" && r.value in refs && !refs[r.value].revoked
  }

  function WithSecret(b: Books, id: string, kind: string, value: string): Books {
    Books(b.vault[id := Secret(kind, value, false)], b.refs[id := Ref(kind, false)])
  }

  // ---- put ----

  /** A put request with the outcomes it will meet. `first` and `second` are the random ids
      that the vault would hand out. */
  datatype Put = Put(
    admitted: Option<int>, kind: string, secret: string,
    peek: Peek, write: Write, remintOk: bool, first: string, second: string)

  predicate FreshIds(b: Books, first: string, second: string) {
    && first != second
    && first !in b.vault && first !in b.refs && second !in b.vault && second !in b.refs
  }

  /** Net effect: at most one secret is added, and then exactly the one that is recorded and
      returned. */
  function PutSpec(b: Books, p: Put): (Books, Reply) {
    if p.admitted.Some? then (b, Refused(p.admitted.value))
    else if p.secret == "" then (b, Refused(400))
    else if p.peek.PeekConflict? then (b, Refused(409))
    else if p.peek.PeekFound? && Usable(b.refs, p.peek.response) then (b, Replied(p.peek.response.value.ref))
    else if p.peek.PeekFound? && PriorRef(p.peek.response).Some? then Remint(b, p, p.first)
    else match p.write
      case WriteConflict => (b, Refused(409))
      case WriteRaised => (b, Raised)
      case WriteCreated => (WithSecret(b, p.first, p.kind, p.secret), Replied(Some(p.first)))
      case WriteExisting(response) =>
        if Usable(b.refs, response) then (b, Replied(response.value.ref))
        else if PriorRef(response).Some? then Remint(b, p, p.second)
        else (b, Replied(None))
  }

  function Remint(b: Books, p: Put, id: string): (Books, Reply) {
    if p.remintOk then (WithSecret(b, id, p.kind, p.secret), Replied(Some(id))) else (b, Raised)
  }

  // ---- enrol ----

  datatype Probe = ProbeRaised | ProbeMismatch | ProbeMatch

  /** An enrolment request with the outcomes it meets before the live probe; `id` is the random
      id the vault would hand out. */
  datatype Enroll = Enroll(
    admitted: Option<int>, password: Option<string>, supplied: Option<string>, live: bool,
    peek: Peek, write: Write, id: string)

  /** What the probe finds, and whether the store call after it completes. */
  datatype Verdict = Verdict(probe: Probe, stored: bool)

  /** An enrolment that waits for its probe, with the reference it enrols; `made` says whether
      the request made the secret itself. */
  datatype Pending = Pending(id: string, made: bool)

  datatype Begun = Answered(reply: Reply) | Probing(pending: Pending)

  /** Whether a supplied reference may be used for enrolment, or the refusal. */
  function SuppliedRefusal(b: Books, supplied: string): Option<int> {
    var id := Strip(supplied);
    if id == "" then Some(400)
    else if id in b.refs && b.refs[id].revoked then Some(400)
    else if id !in b.refs && id !in b.vault then Some(404)
    else if (if id in b.refs then b.refs[id].kind else b.vault[id].kind) != MANAGEMENT_KIND then Some(422)
    else if id in b.vault && b.vault[id].revoked then Some(400)
    else if id !in b.vault then Some(404)
    else None
  }

  function NonEmpty(s: Option<string>): bool {
    s.Some? && s.value != ""
  }

  /** The part up to the live probe, or to the answer if there is none. */
  function BeginSpec(b: Books, e: Enroll): (Books, Begun) {
    if e.admitted.Some? then (b, Answered(Refused(e.admitted.value)))
    else if e.peek.PeekConflict? then (b, Answered(Refused(409)))
    else if e.peek.PeekFound? then (b, Answered(Replied(None)))
    else if NonEmpty(e.password) && NonEmpty(e.supplied) then (b, Answered(Refused(400)))
    else if NonEmpty(e.supplied) then
      if SuppliedRefusal(b, e.supplied.value).Some?
      then (b, Answered(Refused(SuppliedRefusal(b, e.supplied.value).value)))
      else WriteSpec(b, e, Pending(Strip(e.supplied.value), false))
    else if !NonEmpty(e.password) then (b, Answered(Refused(400)))
    else WriteSpec(b, e, Pending(e.id, true))
  }

  /** The part after a reference is at hand. A secret made for this request stays exactly if the
      router is written, and then its record is written with it. */
  function WriteSpec(b: Books, e: Enroll, p: Pending): (Books, Begun) {
    match e.write
    case WriteConflict => (b, Answered(Refused(409)))
    case WriteRaised => (b, Answered(Raised))
    case WriteExisting(_) => (b, Answered(Replied(None)))
    case WriteCreated =>
      // The store records a reference once; a second row for it is an error.
      if p.id in b.refs then (b, Answered(Raised))
      else
        (Books(if p.made then b.vault[p.id := MadeSecret(e)] else b.vault, b.refs[p.id := Ref(MANAGEMENT_KIND, false)]),
         if e.live then Probing(p) else Answered(Replied(Some(p.id))))
  }

  function MadeSecret(e: Enroll): Secret {
    Secret(MANAGEMENT_KIND, if e.password.Some? then e.password.value else "", false)
  }

  /** The part after the probe. If the probe fails, a secret made for this request is taken
      back, and its record too if the failure can be written down. */
  function FinishSpec(b: Books, p: Pending, v: Verdict): (Books, Reply) {
    if v.probe.ProbeMatch? then (b, if v.stored then Replied(Some(p.id)) else Raised)
    else
      (Books(if p.made then b.vault - {p.id} else b.vault, if p.made && v.stored then b.refs - {p.id} else b.refs),
       if v.stored then Refused(422) else Raised)
  }

  // ---- revoke ----

  /** The vault first, which fails for a secret it does not hold, then the store. Both keep the
      entry and mark it. */
  function RevokeSpec(b: Books, id: string): Books {
    if id !in b.refs || id !in b.vault then b
    else Books(b.vault[id := b.vault[id].(revoked := true)], b.refs[id := b.refs[id].(revoked := true)])
  }

  // ---- the handlers, step by step ----

  class CredentialHost {
    var vault: map<string, Secret>
    var refs: map<string, Ref>

    ghost function Now(): Books
      reads this
    {
      Books(vault, refs)
    }

    method VaultCreate(id: string, kind: string, value: string)
      modifies this`vault
      ensures vault == old(vault)[id := Secret(kind, value, false)]
    {
      vault := vault[id := Secret(kind, value, false)];
    }

    method VaultDelete(id: string)
      modifies this`vault
      ensures vault == old(vault) - {id}
    {
      vault := vault - {id};
    }

    method StoreRef(id: string, kind: string)
      modifies this`refs
      ensures refs == old(refs)[id := Ref(kind, false)]
    {
      refs := refs[id := Ref(kind, false)];
    }

    method RemintOrUndo(p: Put, id: string) returns (reply: Reply)
      requires id !in vault && id !in refs
      modifies this
      ensures (Now(), reply) == Remint(old(Now()), p, id)
    {
      VaultCreate(id, p.kind, p.secret);
      if p.remintOk {
        StoreRef(id, p.kind);
        return Replied(Some(id));
      }
      VaultDelete(id);
      Undone(old(vault), id, Secret(p.kind, p.secret, false));
      return Raised;
    }

    method PutCredential(p: Put) returns (reply: Reply)
      requires FreshIds(Now(), p.first, p.second)
      modifies this
      ensures (Now(), reply) == PutSpec(old(Now()), p)
    {
      if p.admitted.Some? { return Refused(p.admitted.value); }
      if p.secret == "" { return Refused(400); }
      if p.peek.PeekConflict? { return Refused(409); }
      if p.peek.PeekFound? && p.peek.response.Some? {
        if Usable(refs, p.peek.response) { return Replied(p.peek.response.value.ref); }
        if PriorRef(p.peek.response).Some? {
          reply := RemintOrUndo(p, p.first);
          return;
        }
      }
      VaultCreate(p.first, p.kind, p.secret);
      Undone(old(vault), p.first, Secret(p.kind, p.secret, false));
      if p.write.WriteConflict? {
        VaultDelete(p.first);
        return Refused(409);
      }
      if p.write.WriteRaised? {
        VaultDelete(p.first);
        return Raised;
      }
      if p.write.WriteExisting? {
        VaultDelete(p.first);
        if Usable(refs, p.write.response) { return Replied(p.write.response.value.ref); }
        if PriorRef(p.write.response).Some? {
          reply := RemintOrUndo(p, p.second);
          return;
        }
        return Replied(None);
      }
      StoreRef(p.first, p.kind);
      return Replied(Some(p.first));
    }

    method Rollback(id: string, made: bool)
      modifies this`vault
      ensures vault == if made then old(vault) - {id} else old(vault)
    {
      if made { VaultDelete(id); }
    }

    method RevokeCredential(id: string)
      modifies this
      ensures Now() == RevokeSpec(old(Now()), id)
    {
      if id !in refs || id !in vault { return; }
      vault := vault[id := vault[id].(revoked := true)];
      refs := refs[id := refs[id].(revoked := true)];
    }

    /** The enrolment handler up to its suspension at the live probe. */
    method BeginEnroll(e: Enroll) returns (begun: Begun)
      requires e.id !in vault && e.id !in refs
      modifies this
      ensures (Now(), begun) == BeginSpec(old(Now()), e)
    {
      if e.admitted.Some? { return Answered(Refused(e.admitted.value)); }
      if e.peek.PeekConflict? { return Answered(Refused(409)); }
      if e.peek.PeekFound? { return Answered(Replied(None)); }
      if NonEmpty(e.password) && NonEmpty(e.supplied) { return Answered(Refused(400)); }
      if NonEmpty(e.supplied) {
        var refusal := SuppliedRefusal(Books(vault, refs), e.supplied.value);
        if refusal.Some? { return Answered(Refused(refusal.value)); }
        begun := WriteRouter(e, Pending(Strip(e.supplied.value), false));
        return;
      }
      if !NonEmpty(e.password) { return Answered(Refused(400)); }
      VaultCreate(e.id, MANAGEMENT_KIND, e.password.value);
      Undone(old(vault), e.id, MadeSecret(e));
      begun := WriteRouter(e, Pending(e.id, true));
    }

    /** The vault already holds the secret when `p.made`. */
    method WriteRouter(e: Enroll, p: Pending) returns (begun: Begun)
      requires p.made ==> p.id in vault && vault[p.id] == MadeSecret(e)
      modifies this
      ensures (Now(), begun) == WriteSpec(Books(if p.made then old(vault) - {p.id} else old(vault), old(refs)), e, p)
    {
      if p.made { Redone(vault, p.id); }
      if e.write.WriteConflict? {
        Rollback(p.id, p.made);
        return Answered(Refused(409));
      }
      if e.write.WriteRaised? || (e.write.WriteCreated? && p.id in refs) {
        Rollback(p.id, p.made);
        return Answered(Raised);
      }
      if e.write.WriteExisting? {
        Rollback(p.id, p.made);
        return Answered(Replied(None));
      }
      StoreRef(p.id, MANAGEMENT_KIND);
      return if e.live then Probing(p) else Answered(Replied(Some(p.id)));
    }

    /** The enrolment handler from the probe's verdict on. */
    method FinishEnroll(p: Pending, v: Verdict) returns (reply: Reply)
      modifies this
      ensures (Now(), reply) == FinishSpec(old(Now()), p, v)
    {
      if !v.probe.ProbeMatch? {
        Rollback(p.id, p.made);
        if !v.stored { return Raised; }
        if p.made { refs := refs - {p.id}; }
        return Refused(422);
      }
      return if v.stored then Replied(Some(p.id)) else Raised;
    }
  }

  lemma Undone(vault: map<string, Secret>, id: string, s: Secret)
    requires id !in vault
    ensures vault[id := s] - {id} == vault
  {
  }

  lemma Redone(vault: map<string, Secret>, id: string)
    requires id in vault
    ensures (vault - {id})[id := vault[id]] == vault
  {
  }
}
