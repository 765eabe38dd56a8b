/** Credential put under idempotency keys: the stored answers are state, and what a put finds
    there follows from earlier puts. References may be revoked in between. */
module CredentialKeys {
  import opened Prelude
  import opened Credentials
  import opened CredentialTheorems

  /** The stored answer of a key: the digest of its request and the reference it returned. */
  datatype Entry = Entry(digest: string, ref: string)

  /** `mintedFor` remembers for which key each reference was made. */
  datatype Keyed = Keyed(books: Books, table: map<string, Entry>, mintedFor: map<string, string>)

  /** `ok` says whether the store call that follows the vault's completes. */
  datatype Call =
    | KeyedPut(key: string, digest: string, kind: string, secret: string, ok: bool, first: string, second: string)
    | Revoke(id: string)

  function Lookup(table: map<string, Entry>, key: string, digest: string): Peek {
    if key !in table then PeekNone
    else if table[key].digest != digest then PeekConflict
    else PeekFound(Some(Stored(Some(table[key].ref))))
  }

  /** The put with the lookup's result; nothing comes between the lookup and the write. */
  function AsPut(table: map<string, Entry>, c: Call): Put
    requires c.KeyedPut?
  {
    Put(None, c.kind, c.secret, Lookup(table, c.key, c.digest), if c.ok then WriteCreated else WriteRaised,
        c.ok, c.first, c.second)
  }

  function Answer(s: Keyed, c: Call): Reply
    requires c.KeyedPut?
  {
    PutSpec(s.books, AsPut(s.table, c)).1
  }

  /** A put that changes the books has minted the reference it answers with, and stores it. */
  function Exec(s: Keyed, c: Call): Keyed {
    match c
    case KeyedPut(key, digest, _, _, _, _, _) =>
      var (b, reply) := PutSpec(s.books, AsPut(s.table, c));
      if b == s.books || !reply.Replied? || reply.ref.None? then s.(books := b)
      else Keyed(b, s.table[key := Entry(digest, reply.ref.value)], s.mintedFor[reply.ref.value := key])
    case Revoke(id) => s.(books := RevokeSpec(s.books, id))
  }

  function Run(s: Keyed, calls: seq<Call>): Keyed {
    if calls == [] then s else Exec(Run(s, calls[..|calls| - 1]), calls[|calls| - 1])
  }

  predicate FreshCall(s: Keyed, c: Call) {
    c.KeyedPut? ==> FreshIds(s.books, c.first, c.second) && PlainId(c.first) && PlainId(c.second)
  }

  ghost predicate FreshCalls(s: Keyed, calls: seq<Call>) {
    forall i :: 0 <= i < |calls| ==> FreshCall(Run(s, calls[..i]), calls[i])
  }

  // ---- what every call keeps ----

  predicate Unrevoked(b: Books, id: string) {
    id in b.refs && !b.refs[id].revoked
  }

  /** Every stored answer is recorded, and an unrevoked reference made for a key is its answer. */
  ghost predicate Inv(s: Keyed) {
    && (forall key :: key in s.table ==> PlainId(s.table[key].ref) && s.table[key].ref in s.books.refs)
    && (forall id :: id in s.mintedFor ==>
          s.mintedFor[id] in s.table && (Unrevoked(s.books, id) ==> s.table[s.mintedFor[id]].ref == id))
  }

  lemma UsableIff(refs: map<string, Ref>, id: string)
    requires PlainId(id)
    ensures Usable(refs, Some(Stored(Some(id)))) <==> id in refs && !refs[id].revoked
    ensures PriorRef(Some(Stored(Some(id)))).Some?
  {
  }

  /** What a keyed put does, by what is stored under its key. */
  lemma PutByKey(s: Keyed, c: Call)
    requires Inv(s) && c.KeyedPut? && FreshCall(s, c)
    ensures var (b, reply) := PutSpec(s.books, AsPut(s.table, c));
      if c.secret == "" then b == s.books && reply.Refused?
      else if c.key in s.table && s.table[c.key].digest != c.digest then b == s.books && reply == Refused(409)
      else if c.key in s.table && Unrevoked(s.books, s.table[c.key].ref)
        then b == s.books && reply == Replied(Some(s.table[c.key].ref))
      else if !c.ok then b == s.books && reply == Raised
      else b == WithSecret(s.books, c.first, c.kind, c.secret) && reply == Replied(Some(c.first))
  {
    if c.key in s.table { UsableIff(s.books.refs, s.table[c.key].ref); }
  }

  lemma PutKeepsInv(s: Keyed, c: Call)
    requires Inv(s) && c.KeyedPut? && FreshCall(s, c)
    ensures Inv(Exec(s, c))
  {
    PutByKey(s, c);
    var b := PutSpec(s.books, AsPut(s.table, c)).0;
    if b != s.books { MintKeepsInv(s, c); }
  }

  lemma MintKeepsInv(s: Keyed, c: Call)
    requires Inv(s) && c.KeyedPut? && FreshCall(s, c)
    requires c.key !in s.table || !Unrevoked(s.books, s.table[c.key].ref)
    ensures Inv(Keyed(WithSecret(s.books, c.first, c.kind, c.secret), s.table[c.key := Entry(c.digest, c.first)],
                      s.mintedFor[c.first := c.key]))
  {
  }

  lemma RevokeKeepsInv(s: Keyed, id: string)
    requires Inv(s)
    ensures Inv(Exec(s, Revoke(id)))
  {
  }

  lemma EarlierFreshCalls(s: Keyed, calls: seq<Call>)
    requires FreshCalls(s, calls) && calls != []
    ensures FreshCalls(s, calls[..|calls| - 1])
    ensures FreshCall(Run(s, calls[..|calls| - 1]), calls[|calls| - 1])
  {
    var n := |calls| - 1;
    forall i | 0 <= i < n ensures FreshCall(Run(s, calls[..n][..i]), calls[..n][i]) {
      assert calls[..n][..i] == calls[..i];
    }
  }

  lemma {:induction false} RunKeepsInv(s: Keyed, calls: seq<Call>)
    requires Inv(s) && FreshCalls(s, calls)
    ensures Inv(Run(s, calls))
  {
    if calls != [] {
      var before, c := Run(s, calls[..|calls| - 1]), calls[|calls| - 1];
      EarlierFreshCalls(s, calls);
      RunKeepsInv(s, calls[..|calls| - 1]);
      if c.KeyedPut? { PutKeepsInv(before, c); } else { RevokeKeepsInv(before, c.id); }
    }
  }

  /** Over every run of puts and revocations there is at most one unrevoked reference per
      idempotency key. */
  lemma OneUnrevokedPerKey(s: Keyed, calls: seq<Call>, id: string, other: string)
    requires Inv(s) && FreshCalls(s, calls)
    requires var s' := Run(s, calls);
      && id in s'.mintedFor && other in s'.mintedFor && s'.mintedFor[id] == s'.mintedFor[other]
      && Unrevoked(s'.books, id) && Unrevoked(s'.books, other)
    ensures id == other
  {
    RunKeepsInv(s, calls);
  }

  // ---- retries ----

  /** A key keeps its digest for good, and its answer while the reference is unrevoked. */
  ghost predicate Remembers(s: Keyed, s': Keyed, key: string) {
    key in s.table ==>
      && key in s'.table && s'.table[key].digest == s.table[key].digest
      && (Unrevoked(s'.books, s.table[key].ref) ==> s'.table[key] == s.table[key])
  }

  lemma ExecRemembers(s0: Keyed, s: Keyed, c: Call, key: string)
    requires Inv(s) && FreshCall(s, c) && Remembers(s0, s, key)
    requires key in s0.table ==> s0.table[key].ref in s.books.refs
    ensures Remembers(s0, Exec(s, c), key)
    ensures key in s0.table ==> s0.table[key].ref in Exec(s, c).books.refs
  {
    if c.KeyedPut? { PutByKey(s, c); }
  }

  lemma {:induction false} RunRemembers(s: Keyed, calls: seq<Call>, key: string)
    requires Inv(s) && FreshCalls(s, calls)
    ensures Remembers(s, Run(s, calls), key)
    ensures key in s.table ==> s.table[key].ref in Run(s, calls).books.refs
  {
    if calls != [] {
      EarlierFreshCalls(s, calls);
      RunRemembers(s, calls[..|calls| - 1], key);
      RunKeepsInv(s, calls[..|calls| - 1]);
      ExecRemembers(s, Run(s, calls[..|calls| - 1]), calls[|calls| - 1], key);
    }
  }

  /** A put that was answered with a reference is answered with it again after any further
      calls that do not revoke it, and then nothing changes; the same key with another digest
      is refused. */
  lemma PutRetryIsIdempotent(s: Keyed, c: Call, calls: seq<Call>, again: Call)
    requires Inv(s) && c.KeyedPut? && FreshCall(s, c) && FreshCalls(Exec(s, c), calls)
    requires Answer(s, c).Replied? && Answer(s, c).ref.Some?
    requires again.KeyedPut? && again.key == c.key && again.secret != ""
    requires FreshCall(Run(Exec(s, c), calls), again)
    requires Unrevoked(Run(Exec(s, c), calls).books, Answer(s, c).ref.value)
    ensures var s' := Run(Exec(s, c), calls);
      && Exec(s', again) == s'
      && Answer(s', again) == if again.digest == c.digest then Answer(s, c) else Refused(409)
  {
    var s1 := Exec(s, c);
    var s' := Run(s1, calls);
    PutByKey(s, c);
    PutKeepsInv(s, c);
    assert c.key in s1.table && s1.table[c.key] == Entry(c.digest, Answer(s, c).ref.value);
    RunRemembers(s1, calls, c.key);
    RunKeepsInv(s1, calls);
    PutByKey(s', again);
  }
}
