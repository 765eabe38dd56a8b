/** What credential put and router enrolment keep, at every exit and over every run. */
module CredentialTheorems {
  import opened Prelude
  import opened Credentials

  /** Nothing new, or exactly one new secret that is recorded under the same id. */
  ghost predicate Balanced(b: Books, b': Books) {
    || b'.vault == b.vault
    || exists id, s :: GainsOne(b, b', id, s)
  }

  predicate GainsOne(b: Books, b': Books, id: string, s: Secret) {
    && id !in b.vault && b'.vault == b.vault[id := s] && !s.revoked
    && id !in b.refs && b'.refs == b.refs[id := Ref(s.kind, false)]
  }

  /** At every exit of a put the vault is balanced, and a failing exit leaves no trace at all:
      if anything changed, it is the secret that was returned. */
  lemma PutIsBalanced(b: Books, p: Put)
    requires FreshIds(b, p.first, p.second)
    ensures var (b', reply) := PutSpec(b, p);
      && Balanced(b, b')
      && (b' == b || (reply.Replied? && reply.ref.Some?
                      && GainsOne(b, b', reply.ref.value, Secret(p.kind, p.secret, false))))
  {
    var (b', reply) := PutSpec(b, p);
    if b' != b {
      assert reply == Replied(Some(p.first)) || reply == Replied(Some(p.second));
      assert GainsOne(b, b', reply.ref.value, Secret(p.kind, p.secret, false));
    }
  }

  /** An id as the vault hands it out: nothing to strip. */
  predicate PlainId(id: string) {
    id != "" && Strip(id) == id
  }

  lemma RecordedIsUsable(b: Books, id: string, kind: string, value: string)
    requires PlainId(id)
    ensures Usable(WithSecret(b, id, kind, value).refs, Some(Stored(Some(id))))
  {
  }

  /** A put that names a reference either replays a usable response and changes nothing, or
      has just recorded the id it names. */
  lemma PutAnswers(b: Books, p: Put)
    ensures var (b', reply) := PutSpec(b, p);
      reply.Replied? && reply.ref.Some? ==>
        || (b' == b && Usable(b.refs, Some(Stored(reply.ref))))
        || (reply.ref.value in {p.first, p.second} && b' == WithSecret(b, reply.ref.value, p.kind, p.secret))
  {
    if p.peek.PeekFound? && Usable(b.refs, p.peek.response) {
      assert Some(Stored(p.peek.response.value.ref)) == p.peek.response;
    }
    if p.write.WriteExisting? && Usable(b.refs, p.write.response) {
      assert Some(Stored(p.write.response.value.ref)) == p.write.response;
    }
  }

  /** Every reference a put returns is recorded and unrevoked at that moment. */
  lemma PutReturnsUnrevoked(b: Books, p: Put)
    requires PlainId(p.first) && PlainId(p.second)
    ensures var (b', reply) := PutSpec(b, p);
      reply.Replied? && reply.ref.Some? ==> Usable(b'.refs, Some(Stored(reply.ref)))
  {
    PutAnswers(b, p);
    RecordedIsUsable(b, p.first, p.kind, p.secret);
    RecordedIsUsable(b, p.second, p.kind, p.secret);
  }

  /** A stored response is replayed exactly if it names a reference that, without the white space
      around it, is recorded and unrevoked. */
  lemma UsableMeans(refs: map<string, Ref>, ref: string)
    ensures Usable(refs, Some(Stored(Some(ref)))) <==> Strip(ref) in refs && Strip(ref) != "" && !refs[Strip(ref)].revoked
    ensures !Usable(refs, None) && !Usable(refs, Some(Stored(None)))
  {
  }

  /** The stored response a put comes upon, at its first look or when it writes. */
  function Found(p: Put): Option<Stored> {
    if p.peek.PeekFound? && PriorRef(p.peek.response).Some? then p.peek.response
    else if p.write.WriteExisting? then p.write.response
    else None
  }

  predicate Admitted(p: Put) {
    p.admitted.None? && p.secret != "" && !p.peek.PeekConflict?
  }

  /** The write of the new reference is reached unless the first look found one. */
  predicate ReachesWrite(p: Put) {
    Admitted(p) && !(p.peek.PeekFound? && PriorRef(p.peek.response).Some?)
  }

  /** How a put is answered: refused for what it brings or for a conflict, with the stored
      reference while that is unrevoked, with a new one if it could be stored, and otherwise it
      raises. */
  lemma PutAnswersExactly(b: Books, p: Put)
    ensures var reply := PutSpec(b, p).1;
      && (reply == Refused(409) && p.admitted.None? <==>
            p.admitted.None? && p.secret != "" && (p.peek.PeekConflict? || (ReachesWrite(p) && p.write.WriteConflict?)))
      && (p.admitted.Some? ==> reply == Refused(p.admitted.value))
      && (p.admitted.None? && p.secret == "" ==> reply == Refused(400))
      && (Admitted(p) && Usable(b.refs, Found(p)) ==> reply == Replied(Found(p).value.ref))
      && (Admitted(p) && PriorRef(Found(p)).Some? && !Usable(b.refs, Found(p)) ==>
            reply == if !p.remintOk then Raised else Replied(Some(if ReachesWrite(p) then p.second else p.first)))
      && (ReachesWrite(p) && p.write.WriteCreated? ==> reply == Replied(Some(p.first)))
      && (ReachesWrite(p) && p.write.WriteRaised? ==> reply == Raised)
      && (ReachesWrite(p) && p.write.WriteExisting? && PriorRef(p.write.response).None? ==> reply == Replied(None))
  {
  }

  // ---- enrolment ----

  /** The reference an enrolment would write. */
  function Reference(e: Enroll): Pending {
    if NonEmpty(e.supplied) then Pending(Strip(e.supplied.value), false) else Pending(e.id, true)
  }

  /** The router was written with reference `p`: its record is new, and so is its secret exactly
      if the request made it. */
  predicate Wrote(b: Books, b': Books, p: Pending, s: Secret) {
    && p.id !in b.refs && b'.refs == b.refs[p.id := Ref(MANAGEMENT_KIND, false)]
    && (p.made ==> p.id !in b.vault && b'.vault == b.vault[p.id := s] && !s.revoked && s.kind == MANAGEMENT_KIND)
    && (!p.made ==> p.id in b.vault && b'.vault == b.vault)
  }

  /** Up to the probe an enrolment has left no trace, or has written exactly its reference. */
  lemma BeginLeaves(b: Books, e: Enroll)
    requires e.id !in b.vault && e.id !in b.refs
    ensures var (b', begun) := BeginSpec(b, e);
      var p := Reference(e);
      if b' == b then begun.Answered?
      else Wrote(b, b', p, MadeSecret(e)) && begun == if e.live then Probing(p) else Answered(Replied(Some(p.id)))
  {
    if NonEmpty(e.supplied) {
      WriteLeaves(b, e, Pending(Strip(e.supplied.value), false));
    } else {
      WriteLeaves(b, e, Pending(e.id, true));
    }
  }

  lemma WriteLeaves(b: Books, e: Enroll, p: Pending)
    ensures var (b', begun) := WriteSpec(b, e, p);
      if b' == b then begun.Answered?
      else
        && p.id !in b.refs && b'.refs == b.refs[p.id := Ref(MANAGEMENT_KIND, false)]
        && b'.vault == (if p.made then b.vault[p.id := MadeSecret(e)] else b.vault)
        && begun == if e.live then Probing(p) else Answered(Replied(Some(p.id)))
  {
  }

  /** A whole enrolment during whose probe nothing else happens. */
  function EnrollAlone(b: Books, e: Enroll, v: Verdict): (Books, Reply) {
    var (b1, begun) := BeginSpec(b, e);
    if begun.Answered? then (b1, begun.reply) else FinishSpec(b1, begun.pending, v)
  }

  /** At every exit of an enrolment the vault is balanced; with a supplied reference it is not
      touched at all; and a new secret stays only with a written router and, if live, a
      matching probe. */
  lemma EnrollIsBalanced(b: Books, e: Enroll, v: Verdict)
    requires e.id !in b.vault && e.id !in b.refs
    ensures var (b', reply) := EnrollAlone(b, e, v);
      && Balanced(b, b')
      && (NonEmpty(e.supplied) ==> b'.vault == b.vault)
      && (b'.vault != b.vault ==> e.write.WriteCreated? && (e.live ==> v.probe.ProbeMatch?))
  {
    BeginLeaves(b, e);
    var (b1, begun) := BeginSpec(b, e);
    if b1 != b {
      var p := Reference(e);
      if p.made {
        assert GainsOne(b, b1, p.id, MadeSecret(e));
        assert b.vault[p.id := MadeSecret(e)] - {p.id} == b.vault;
      }
    }
  }

  /** An enrolment gets as far as the write of its router with reference `id`: it is admitted
      and new, it brings either a usable reference or a password, and not both. */
  predicate Brings(b: Books, e: Enroll, id: string) {
    && e.admitted.None? && e.peek.PeekNone?
    && ((NonEmpty(e.supplied) && !NonEmpty(e.password) && id == Strip(e.supplied.value) && UsableSupplied(b, id))
        || (NonEmpty(e.password) && !NonEmpty(e.supplied) && id == e.id))
  }

  /** A supplied reference may be used if the vault holds it as an unrevoked management password
      and no record says otherwise. */
  predicate UsableSupplied(b: Books, id: string) {
    && id != "" && id in b.vault && !b.vault[id].revoked
    && (if id in b.refs then b.refs[id] == Ref("RouterManagementPassword", false)
        else b.vault[id].kind == "RouterManagementPassword")
  }

  lemma SuppliedExactly(b: Books, supplied: string)
    ensures SuppliedRefusal(b, supplied).None? <==> UsableSupplied(b, Strip(supplied))
  {
    var id := Strip(supplied);
    if id in b.refs { assert b.refs[id] == Ref(b.refs[id].kind, b.refs[id].revoked); }
  }

  /** Why a supplied reference is refused: 400 for a blank or revoked one, 404 for one that is
      neither recorded nor held, 422 for one of another kind. */
  lemma SuppliedRefusals(b: Books, supplied: string)
    ensures var id, refusal := Strip(supplied), SuppliedRefusal(b, supplied);
      && (id == "" || (id in b.refs && b.refs[id].revoked) ==> refusal == Some(400))
      && (id != "" && id !in b.refs && id !in b.vault ==> refusal == Some(404))
      && (id != "" && id in b.refs && !b.refs[id].revoked && b.refs[id].kind != "RouterManagementPassword" ==> refusal == Some(422))
      && (id != "" && id !in b.refs && id in b.vault && b.vault[id].kind != "RouterManagementPassword" ==> refusal == Some(422))
      && (id != "" && id in b.refs && b.refs[id] == Ref("RouterManagementPassword", false) && id !in b.vault ==> refusal == Some(404))
      && (id != "" && id !in b.refs && id in b.vault && b.vault[id].kind == "RouterManagementPassword" && b.vault[id].revoked ==>
            refusal == Some(400))
  {
  }

  /** After a revocation neither a put nor an enrolment can use the reference, and everything else
      is as it was. */
  lemma RevokedIsUnusable(b: Books, id: string)
    requires PlainId(id) && id in b.refs && id in b.vault
    ensures var b' := RevokeSpec(b, id);
      && !Usable(b'.refs, Some(Stored(Some(id)))) && !UsableSupplied(b', id)
      && b'.vault[id].revoked && b'.refs[id].revoked
      && b'.vault == b.vault[id := b'.vault[id]] && b'.refs == b.refs[id := b'.refs[id]]
      && SameSecret(b.vault[id], b'.vault[id]) && SameRef(b.refs[id], b'.refs[id])
  {
  }

  /** The router is written with reference `id`; the store records a reference only once. */
  predicate Writes(b: Books, e: Enroll, id: string) {
    Brings(b, e, id) && e.write.WriteCreated? && id !in b.refs
  }

  /** An enrolment is answered with a reference exactly if its router was written with it and, if
      live, the probe matched and its result was stored. Then the reference is recorded and its
      secret is there. */
  lemma EnrollAnswers(b: Books, e: Enroll, v: Verdict, id: string)
    requires e.id !in b.vault && e.id !in b.refs
    ensures var (b', reply) := EnrollAlone(b, e, v);
      && (reply == Replied(Some(id)) <==> Writes(b, e, id) && (e.live ==> v.probe.ProbeMatch? && v.stored))
      && (reply == Replied(Some(id)) ==> HasBoth(b', id) && !b'.refs[id].revoked && b'.refs[id].kind == "RouterManagementPassword")
      && (reply == Replied(Some(id)) && NonEmpty(e.password) ==>
            b'.vault == b.vault[id := Secret("RouterManagementPassword", e.password.value, false)])
  {
    BeginExactly(b, e, id);
    var (b1, begun) := BeginSpec(b, e);
    if begun.Probing? { FinishAnswers(b1, begun.pending, v); }
  }

  lemma BeginExactly(b: Books, e: Enroll, id: string)
    requires e.id !in b.vault && e.id !in b.refs
    ensures var (b1, begun) := BeginSpec(b, e);
      && (begun.Probing? && begun.pending.id == id <==> Writes(b, e, id) && e.live)
      && (begun == Answered(Replied(Some(id))) <==> Writes(b, e, id) && !e.live)
      && (Writes(b, e, id) ==> HasBoth(b1, id) && b1.refs[id] == Ref("RouterManagementPassword", false))
      && (Writes(b, e, id) && NonEmpty(e.password) ==>
            b1.vault == b.vault[id := Secret("RouterManagementPassword", e.password.value, false)])
  {
    if NonEmpty(e.supplied) { SuppliedExactly(b, e.supplied.value); }
  }

  lemma FinishAnswers(b: Books, p: Pending, v: Verdict)
    ensures var (b', reply) := FinishSpec(b, p, v);
      && (!v.stored ==> reply == Raised)
      && (v.stored && v.probe.ProbeMatch? ==> reply == Replied(Some(p.id)))
      && (v.stored && !v.probe.ProbeMatch? ==> reply == Refused(422))
      && (v.probe.ProbeMatch? ==> b' == b)
  {
  }

  /** An enrolment that is refused or raises leaves the vault as it was, unless its probe matched
      and the result could not be stored. A live one whose probe failed is refused with 422 if
      that could be stored. */
  lemma EnrollFailures(b: Books, e: Enroll, v: Verdict)
    requires e.id !in b.vault && e.id !in b.refs
    ensures var (b', reply) := EnrollAlone(b, e, v);
      && (reply.Refused? || reply.Raised? ==>
            b'.vault == b.vault || (e.live && v.probe.ProbeMatch? && !v.stored && reply.Raised?))
      && (forall id :: Writes(b, e, id) && e.live && !v.probe.ProbeMatch? ==>
            reply == if v.stored then Refused(422) else Raised)
      && (forall id :: Writes(b, e, id) && e.live && v.probe.ProbeMatch? && !v.stored ==> reply == Raised)
  {
    BeginLeaves(b, e);
    var p := Reference(e);
    BeginExactly(b, e, p.id);
    FinishAnswers(BeginSpec(b, e).0, p, v);
    assert forall id :: Writes(b, e, id) ==> id == p.id;
    if p.made { Undone(b.vault, p.id, MadeSecret(e)); }
  }

  /** Why an enrolment is refused before its router is written, in the order of the checks. */
  lemma EnrollRefusals(b: Books, e: Enroll)
    requires e.id !in b.vault && e.id !in b.refs
    ensures var begun := BeginSpec(b, e).1;
      var bare := e.admitted.None? && e.peek.PeekNone?;
      && (e.admitted.Some? ==> begun == Answered(Refused(e.admitted.value)))
      && (e.admitted.None? && e.peek.PeekConflict? ==> begun == Answered(Refused(409)))
      && (e.admitted.None? && e.peek.PeekFound? ==> begun == Answered(Replied(None)))
      && (bare && (NonEmpty(e.password) <==> NonEmpty(e.supplied)) ==> begun == Answered(Refused(400)))
      && (forall id :: Brings(b, e, id) ==>
            && (e.write.WriteConflict? ==> begun == Answered(Refused(409)))
            && (e.write.WriteRaised? || (e.write.WriteCreated? && id in b.refs) ==> begun == Answered(Raised))
            && (e.write.WriteExisting? ==> begun == Answered(Replied(None))))
  {
    if NonEmpty(e.supplied) { SuppliedExactly(b, e.supplied.value); }
  }

  // ---- runs: puts, revocations, and enrolments that others overtake during their probes ----

  datatype Host = Host(books: Books, pending: map<nat, Pending>)

  /** A put or a revocation is one step; an enrolment is two, with any steps of others in
      between. */
  datatype Step = DoPut(p: Put) | DoRevoke(id: string) | Begin(t: nat, e: Enroll) | Finish(t: nat, v: Verdict)

  function Exec(h: Host, step: Step): Host {
    match step
    case DoPut(p) => h.(books := PutSpec(h.books, p).0)
    case DoRevoke(id) => h.(books := RevokeSpec(h.books, id))
    case Begin(t, e) =>
      if t in h.pending then h
      else
        var (b, begun) := BeginSpec(h.books, e);
        Host(b, if begun.Probing? then h.pending[t := begun.pending] else h.pending)
    case Finish(t, v) =>
      if t !in h.pending then h
      else Host(FinishSpec(h.books, h.pending[t], v).0, h.pending - {t})
  }

  function Run(b: Books, steps: seq<Step>): Host {
    if steps == [] then Host(b, map[]) else Exec(Run(b, steps[..|steps| - 1]), steps[|steps| - 1])
  }

  /** The vault hands out only ids that are not in use. */
  predicate FreshFor(h: Host, step: Step) {
    match step
    case DoPut(p) => FreshIds(h.books, p.first, p.second)
    case Begin(_, e) => e.id !in h.books.vault && e.id !in h.books.refs
    case _ => true
  }

  ghost predicate FreshRun(b: Books, steps: seq<Step>) {
    forall i :: 0 <= i < |steps| ==> FreshFor(Run(b, steps[..i]), steps[i])
  }

  lemma EarlierFresh(b: Books, steps: seq<Step>)
    requires FreshRun(b, steps) && steps != []
    ensures FreshRun(b, steps[..|steps| - 1])
    ensures FreshFor(Run(b, steps[..|steps| - 1]), steps[|steps| - 1])
  {
    var n := |steps| - 1;
    forall i | 0 <= i < n ensures FreshFor(Run(b, steps[..n][..i]), steps[..n][i]) {
      assert steps[..n][..i] == steps[..i];
    }
  }

  /** What a waiting enrolment relies on: its reference is recorded and its secret is there,
      and it shares them with no other. */
  ghost predicate PendingOk(h: Host) {
    && (forall t :: t in h.pending ==> HasBoth(h.books, h.pending[t].id))
    && (forall t, u :: t in h.pending && u in h.pending && t != u ==> h.pending[t].id != h.pending[u].id)
  }

  predicate HasBoth(b: Books, id: string) {
    id in b.vault && id in b.refs
  }

  /** The same secret, perhaps revoked since. */
  predicate SameSecret(was: Secret, now: Secret) {
    now.kind == was.kind && now.value == was.value && (was.revoked ==> now.revoked)
  }

  predicate SameRef(was: Ref, now: Ref) {
    now.kind == was.kind && (was.revoked ==> now.revoked)
  }

  /** What has become of the books `b0`: nothing that was there is lost or changed but for
      being revoked, what waiting enrolments made is none of it, and every new secret is
      recorded. */
  ghost predicate Grown(b0: Books, h: Host) {
    && (forall id :: id in b0.vault ==> id in h.books.vault && SameSecret(b0.vault[id], h.books.vault[id]))
    && (forall id :: id in b0.refs ==> id in h.books.refs && SameRef(b0.refs[id], h.books.refs[id]))
    && (forall t :: t in h.pending && h.pending[t].made ==> h.pending[t].id !in b0.vault && h.pending[t].id !in b0.refs)
    && (forall id :: id in h.books.vault && id !in b0.vault ==> HasBoth(h.books, id))
  }

  lemma PutKeeps(b0: Books, h: Host, p: Put)
    requires PendingOk(h) && Grown(b0, h) && FreshFor(h, DoPut(p))
    ensures PendingOk(Exec(h, DoPut(p))) && Grown(b0, Exec(h, DoPut(p)))
  {
    PutIsBalanced(h.books, p);
    var (b, reply) := PutSpec(h.books, p);
    if b != h.books { GainKeeps(b0, h, b, reply.ref.value, Secret(p.kind, p.secret, false)); }
  }

  lemma GainKeeps(b0: Books, h: Host, b: Books, id: string, s: Secret)
    requires PendingOk(h) && Grown(b0, h) && GainsOne(h.books, b, id, s)
    ensures PendingOk(h.(books := b)) && Grown(b0, h.(books := b))
  {
  }

  lemma BeginKeeps(b0: Books, h: Host, t: nat, e: Enroll)
    requires PendingOk(h) && Grown(b0, h) && FreshFor(h, Begin(t, e))
    ensures PendingOk(Exec(h, Begin(t, e))) && Grown(b0, Exec(h, Begin(t, e)))
  {
    BeginLeaves(h.books, e);
    var b := BeginSpec(h.books, e).0;
    if t !in h.pending && b != h.books { WroteKeeps(b0, h, b, t, Reference(e), MadeSecret(e)); }
  }

  lemma WroteKeeps(b0: Books, h: Host, b: Books, t: nat, p: Pending, s: Secret)
    requires PendingOk(h) && Grown(b0, h) && t !in h.pending && Wrote(h.books, b, p, s)
    ensures PendingOk(Host(b, h.pending)) && Grown(b0, Host(b, h.pending))
    ensures PendingOk(Host(b, h.pending[t := p])) && Grown(b0, Host(b, h.pending[t := p]))
  {
    forall u | u in h.pending ensures HasBoth(b, h.pending[u].id) && h.pending[u].id != p.id {
      assert HasBoth(h.books, h.pending[u].id);
    }
    WroteGrown(b0, h, b, p, s);
  }

  lemma WroteGrown(b0: Books, h: Host, b: Books, p: Pending, s: Secret)
    requires Grown(b0, h) && Wrote(h.books, b, p, s)
    ensures Grown(b0, Host(b, h.pending)) && (p.made ==> p.id !in b0.vault && p.id !in b0.refs)
  {
    forall id | id in b.vault && id !in b0.vault ensures HasBoth(b, id) {
      if id != p.id { assert HasBoth(h.books, id); }
    }
  }

  lemma FinishKeeps(b0: Books, h: Host, t: nat, v: Verdict)
    requires PendingOk(h) && Grown(b0, h)
    ensures PendingOk(Exec(h, Finish(t, v))) && Grown(b0, Exec(h, Finish(t, v)))
  {
    if t in h.pending { assert HasBoth(h.books, h.pending[t].id); }
  }

  lemma RevokeKeeps(b0: Books, h: Host, id: string)
    requires PendingOk(h) && Grown(b0, h)
    ensures PendingOk(Exec(h, DoRevoke(id))) && Grown(b0, Exec(h, DoRevoke(id)))
  {
    MarkKeeps(b0, h, RevokeSpec(h.books, id));
  }

  lemma MarkKeeps(b0: Books, h: Host, b: Books)
    requires PendingOk(h) && Grown(b0, h)
    requires b.vault.Keys == h.books.vault.Keys && b.refs.Keys == h.books.refs.Keys
    requires forall id :: id in b.vault ==> SameSecret(h.books.vault[id], b.vault[id])
    requires forall id :: id in b.refs ==> SameRef(h.books.refs[id], b.refs[id])
    ensures PendingOk(h.(books := b)) && Grown(b0, h.(books := b))
  {
    forall id | id in h.books.vault && HasBoth(h.books, id) ensures HasBoth(b, id) { }
  }

  /** Over every run, whatever fails and whoever overtakes whom during a probe: earlier secrets
      and records survive, unchanged but for being revoked, and there is never a new secret
      without a record, not even while enrolments wait. */
  lemma {:induction false} RunLeavesNoOrphans(b: Books, steps: seq<Step>)
    requires FreshRun(b, steps)
    ensures PendingOk(Run(b, steps)) && Grown(b, Run(b, steps))
  {
    if steps != [] {
      var before, step := Run(b, steps[..|steps| - 1]), steps[|steps| - 1];
      EarlierFresh(b, steps);
      RunLeavesNoOrphans(b, steps[..|steps| - 1]);
      match step
      case DoPut(p) => PutKeeps(b, before, p);
      case DoRevoke(id) => RevokeKeeps(b, before, id);
      case Begin(t, e) => BeginKeeps(b, before, t, e);
      case Finish(t, v) => FinishKeeps(b, before, t, v);
    }
  }

  // ---- records without secrets ----

  /** Every unrevoked record has its secret. */
  ghost predicate NoDangling(b: Books) {
    forall id :: id in b.refs && !b.refs[id].revoked ==> id in b.vault
  }

  /** The one step that leaves a record without its secret: a live enrolment with a password
      whose probe failed, so the secret was taken back, and whose failure could not be written
      down, unless the record has been revoked in the meantime. */
  predicate LosesSecret(h: Host, step: Step) {
    && step.Finish? && step.t in h.pending && h.pending[step.t].made
    && !step.v.probe.ProbeMatch? && !step.v.stored
    && var id := h.pending[step.t].id; id in h.books.refs && !h.books.refs[id].revoked
  }

  ghost predicate NoLoss(b: Books, steps: seq<Step>) {
    forall i :: 0 <= i < |steps| ==> !LosesSecret(Run(b, steps[..i]), steps[i])
  }

  lemma NoLossStep(b: Books, steps: seq<Step>)
    requires steps != []
    ensures var n := |steps| - 1;
      NoLoss(b, steps) <==> NoLoss(b, steps[..n]) && !LosesSecret(Run(b, steps[..n]), steps[n])
  {
    var n := |steps| - 1;
    forall i | 0 <= i < n
      ensures LosesSecret(Run(b, steps[..n][..i]), steps[..n][i]) <==> LosesSecret(Run(b, steps[..i]), steps[i])
    {
      assert steps[..n][..i] == steps[..i];
    }
  }

  lemma PutDangling(b: Books, p: Put)
    requires FreshIds(b, p.first, p.second)
    ensures NoDangling(PutSpec(b, p).0) <==> NoDangling(b)
  {
    PutIsBalanced(b, p);
    var (b', reply) := PutSpec(b, p);
    if b' != b { GainDangling(b, b', reply.ref.value); }
  }

  /** A record that comes with its secret changes nothing about the others. */
  lemma GainDangling(b: Books, b': Books, id: string)
    requires id !in b.refs && HasBoth(b', id)
    requires forall x :: x != id ==> (x in b.refs <==> x in b'.refs) && (x in b.vault <==> x in b'.vault)
    requires forall x :: x in b.refs ==> b'.refs[x] == b.refs[x]
    ensures NoDangling(b') <==> NoDangling(b)
  {
    forall x | x in b.refs && !b.refs[x].revoked && x !in b.vault ensures !NoDangling(b') {
      assert x in b'.refs && x !in b'.vault;
    }
  }

  lemma BeginDangling(b: Books, e: Enroll)
    requires e.id !in b.vault && e.id !in b.refs
    ensures NoDangling(BeginSpec(b, e).0) <==> NoDangling(b)
  {
    BeginLeaves(b, e);
    if BeginSpec(b, e).0 != b { GainDangling(b, BeginSpec(b, e).0, Reference(e).id); }
  }

  lemma FinishDangling(b: Books, p: Pending, v: Verdict)
    requires HasBoth(b, p.id)
    ensures NoDangling(FinishSpec(b, p, v).0) <==>
      NoDangling(b) && !(p.made && !v.probe.ProbeMatch? && !v.stored && !b.refs[p.id].revoked)
  {
    var b' := FinishSpec(b, p, v).0;
    if p.made && !v.probe.ProbeMatch? {
      if v.stored {
        GainDangling(b', b, p.id);
      } else if b.refs[p.id].revoked {
        assert forall x :: x in b.refs && x != p.id ==> (x in b'.vault <==> x in b.vault);
        forall x | x in b.refs && !b.refs[x].revoked && x !in b.vault ensures !NoDangling(b') {
          assert x in b'.refs && x !in b'.vault;
        }
      } else {
        assert p.id in b'.refs && !b'.refs[p.id].revoked && p.id !in b'.vault;
      }
    }
  }

  /** A record without its secret cannot be revoked, so revoking hides none. */
  lemma RevokeDangling(b: Books, id: string)
    ensures NoDangling(RevokeSpec(b, id)) <==> NoDangling(b)
  {
    var b' := RevokeSpec(b, id);
    forall x | x in b.refs && !b.refs[x].revoked && x !in b.vault ensures !NoDangling(b') {
      assert x in b'.refs && !b'.refs[x].revoked && x !in b'.vault;
    }
  }

  /** Over every run, records and secrets stay matched exactly if no step is that one: what is
      lost is lost for good, and nothing else loses a secret. */
  lemma {:induction false} DanglingExactlyWhenLost(b: Books, steps: seq<Step>)
    requires NoDangling(b) && FreshRun(b, steps)
    ensures NoDangling(Run(b, steps).books) <==> NoLoss(b, steps)
  {
    if steps != [] {
      var n := |steps| - 1;
      var before, step := Run(b, steps[..n]), steps[n];
      EarlierFresh(b, steps);
      DanglingExactlyWhenLost(b, steps[..n]);
      RunLeavesNoOrphans(b, steps[..n]);
      StepDangling(before, step);
      NoLossStep(b, steps);
    }
  }

  lemma StepDangling(h: Host, step: Step)
    requires PendingOk(h) && FreshFor(h, step)
    ensures NoDangling(Exec(h, step).books) <==> NoDangling(h.books) && !LosesSecret(h, step)
  {
    match step
    case DoPut(p) => PutDangling(h.books, p);
    case DoRevoke(id) => RevokeDangling(h.books, id);
    case Begin(t, e) => BeginDangling(h.books, e);
    case Finish(t, v) =>
      if t in h.pending { FinishDangling(h.books, h.pending[t], v); }
  }

  /** Such a step is possible from any books: the enrolment writes its router and record, its
      probe fails, the secret is taken back, and the failure is not written. */
  lemma SecretCanBeLost(b: Books, t: nat, e: Enroll)
    requires e.id !in b.vault && e.id !in b.refs
    requires e.admitted.None? && e.peek.PeekNone? && NonEmpty(e.password) && !NonEmpty(e.supplied)
    requires e.live && e.write.WriteCreated?
    ensures var steps := [Begin(t, e), Finish(t, Verdict(ProbeRaised, false))];
      FreshRun(b, steps) && !NoDangling(Run(b, steps).books)
  {
    var begin, finish := Begin(t, e), Finish(t, Verdict(ProbeRaised, false));
    var none: seq<Step> := [];
    RunMore(b, none, begin);
    RunMore(b, none + [begin], finish);
    var steps := [begin, finish];
    assert none + [begin] == [begin] == steps[..1] && none + [begin] + [finish] == steps && steps[..0] == none;
    var h := Run(b, [begin]);
    assert t in h.pending && h.pending[t] == Pending(e.id, true);
    var last := Run(b, steps).books;
    assert last == FinishSpec(h.books, Pending(e.id, true), finish.v).0;
    assert e.id in last.refs && !last.refs[e.id].revoked && e.id !in last.vault;
  }

  lemma RunMore(b: Books, steps: seq<Step>, step: Step)
    ensures Run(b, steps + [step]) == Exec(Run(b, steps), step)
  {
    assert (steps + [step])[..|steps|] == steps;
  }
}
