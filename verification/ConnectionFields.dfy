/** The fields of a live connection: which are missing, what they resolve to, and the rule
    that a stored endpoint decides where a request connects. */
module ConnectionFields {
  import opened Prelude

  /** The endpoint row that binds a router's connections. */
  datatype Endpoint = Endpoint(
    host: Option<string>, source: Option<string>, username: Option<string>, pin: Option<string>)

  /** `routerAt` finds the router behind a management host; `fingerprint` normalizes a key
      fingerprint, or refuses it. */
  datatype Store = Store(
    endpoints: map<string, Endpoint>,
    routerAt: string -> Option<string>,
    fingerprint: string -> Option<string>)

  /** A source address argument may be left out altogether, which is not the same as `None`. */
  datatype Source = Unspecified | Given(address: Option<string>)

  datatype Request = Request(
    host: Option<string>, username: Option<string>, credential: Option<string>, pin: Option<string>,
    source: Source, router: Option<string>)

  datatype Field = Host | Username | Credential | HostKey | SourceAddress

  datatype Params = Params(host: string, username: string, credential: string, pin: string, source: string)

  /** The resolved fields; a field is usable if it is present and not empty. */
  datatype Resolved = Resolved(
    host: Option<string>, source: Option<string>, username: Option<string>, pin: Option<string>)

  datatype Outcome<+T> = Done(value: T) | HostKeyMismatch

  predicate Usable(s: Option<string>) {
    s.Some? && s.value != ""
  }

  predicate Blank(s: Option<string>) {
    s.None? || Strip(s.value) == ""
  }

  /** `str(value).strip() if value else None`: may be empty text. */
  function StripIfAny(s: Option<string>): Option<string> {
    if Usable(s) then Some(Strip(s.value)) else None
  }

  function Bound(store: Option<Store>, router: Option<string>): Option<Endpoint> {
    if store.Some? && !Blank(router) && Strip(router.value) in store.value.endpoints
    then Some(store.value.endpoints[Strip(router.value)]) else None
  }

  function GivenSource(s: Source): Option<string> {
    if s.Given? then s.address else None
  }

  // ---- resolution ----

  function ResolveHost(r: Request, store: Option<Store>): Option<string> {
    var ep := Bound(store, r.router);
    if ep.Some? then (var h := StripIfAny(ep.value.host); if Usable(h) then h else None)
    else Present(r.host)
  }

  function ResolveSource(r: Request, store: Option<Store>): Option<string> {
    var ep := Bound(store, r.router);
    if ep.Some? then StripIfAny(ep.value.source) else Present(GivenSource(r.source))
  }

  /** The store's own lookup trims the recorded name and takes a blank one for none. */
  function ResolveUsername(r: Request, store: Option<Store>): Option<string> {
    if !Blank(r.username) then Present(r.username)
    else var ep := Bound(store, r.router);
      if ep.Some? then Present(ep.value.username) else None
  }

  /** The router whose stored key counts: the named one, exactly as it is spelled, else the one
      behind the host. */
  function KeyOwner(r: Request, store: Store): Option<string> {
    if Usable(r.router) then r.router
    else if !Blank(r.host) then
      var found := store.routerAt(Strip(r.host.value));
      if Usable(found) then found else None
    else None
  }

  function StoredPin(store: Store, router: string): Option<string> {
    if router in store.endpoints && Usable(store.endpoints[router].pin) then store.endpoints[router].pin else None
  }

  function ResolvePin(r: Request, store: Option<Store>): Outcome<Option<string>> {
    if store.None? then Done(Present(r.pin))
    else
      var owner := KeyOwner(r, store.value);
      if owner.Some? then
        var stored := StoredPin(store.value, owner.value);
        if stored.None? || Blank(r.pin) then Done(stored)
        else
          var offered := store.value.fingerprint(r.pin.value);
          if offered.None? then Done(None)
          else if offered != stored then HostKeyMismatch
          else Done(stored)
      else if Blank(r.pin) then Done(None)
      else Done(store.value.fingerprint(r.pin.value))
  }

  function Resolve(r: Request, store: Option<Store>, pin: Option<string>): Resolved {
    Resolved(ResolveHost(r, store), ResolveSource(r, store), ResolveUsername(r, store), pin)
  }

  predicate NeedsSource(r: Request, store: Option<Store>) {
    r.source.Given? || (store.Some? && !Blank(r.router))
  }

  /** Which fields are missing. */
  datatype Gaps = Gaps(host: bool, username: bool, credential: bool, hostKey: bool, source: bool)

  function GapsIn(f: Resolved, credential: Option<string>, needsSource: bool): Gaps {
    Gaps(!Usable(f.host), !Usable(f.username), Blank(credential), Blank(f.pin),
         needsSource && !Usable(f.source))
  }

  predicate Lacks(g: Gaps, field: Field) {
    match field
    case Host => g.host
    case Username => g.username
    case Credential => g.credential
    case HostKey => g.hostKey
    case SourceAddress => g.source
  }

  /** What the list of missing fields is made from, unless the host key is refused. */
  function Missing(r: Request, store: Option<Store>): Outcome<Gaps> {
    var pin := ResolvePin(r, store);
    if pin.HostKeyMismatch? then HostKeyMismatch
    else Done(GapsIn(Resolve(r, store, pin.value), r.credential, NeedsSource(r, store)))
  }

  method MissingConnectionFields(r: Request, store: Option<Store>) returns (missing: Outcome<seq<Field>>)
    ensures missing.HostKeyMismatch? <==> Missing(r, store).HostKeyMismatch?
    ensures missing.Done? ==> forall field: Field :: field in missing.value <==> Lacks(Missing(r, store).value, field)
    ensures missing.Done? ==> (missing.value == [] <==> Missing(r, store).value == NO_GAPS)
  {
    var gaps := Missing(r, store);
    if gaps.HostKeyMismatch? {
      return HostKeyMismatch;
    }
    var fields := ListGaps(gaps.value);
    return Done(fields);
  }

  const NO_GAPS := Gaps(false, false, false, false, false)

  method ListGaps(g: Gaps) returns (fields: seq<Field>)
    ensures forall field: Field :: field in fields <==> Lacks(g, field)
    ensures fields == [] <==> g == NO_GAPS
  {
    fields := [];
    if g.host { fields := fields + [Host]; }
    if g.username { fields := fields + [Username]; }
    if g.credential { fields := fields + [Credential]; }
    if g.hostKey { fields := fields + [HostKey]; }
    if g.source { fields := fields + [SourceAddress]; }
  }

  predicate Complete(f: Resolved, credential: Option<string>) {
    !Blank(f.host) && !Blank(f.username) && !Blank(credential) && !Blank(f.pin) && !Blank(f.source)
  }

  function ParamsFrom(f: Resolved, credential: Option<string>): Option<Params> {
    if !Complete(f, credential) then None
    else Some(Params(Strip(f.host.value), Strip(f.username.value), Strip(credential.value),
                     Strip(f.pin.value), f.source.value))
  }

  /** The parameters of the connection, if every field resolves. */
  function ConnectionParams(r: Request, store: Option<Store>): Outcome<Option<Params>> {
    var pin := ResolvePin(r, store);
    if pin.HostKeyMismatch? then HostKeyMismatch
    else Done(ParamsFrom(Resolve(r, store, pin.value), r.credential))
  }

  // ---- what holds of every request ----

  predicate Trimmed(s: Option<string>) {
    s.Some? ==> Strip(s.value) == s.value
  }

  lemma StripIfAnyIsTrimmed(s: Option<string>)
    ensures Trimmed(StripIfAny(s))
  {
    if s.Some? { StripTwice(s.value); }
  }

  lemma HostIsTrimmed(r: Request, store: Option<Store>)
    ensures Trimmed(ResolveHost(r, store))
  {
    var ep := Bound(store, r.router);
    if ep.Some? { StripIfAnyIsTrimmed(ep.value.host); }
  }

  lemma SourceIsTrimmed(r: Request, store: Option<Store>)
    ensures Trimmed(ResolveSource(r, store))
  {
    var ep := Bound(store, r.router);
    if ep.Some? { StripIfAnyIsTrimmed(ep.value.source); }
  }

  lemma UsernameIsTrimmed(r: Request, store: Option<Store>)
    ensures Trimmed(ResolveUsername(r, store))
  {
  }

  lemma UsableIffNotBlank(s: Option<string>)
    requires Trimmed(s)
    ensures Usable(s) <==> !Blank(s)
  {
  }

  lemma CompleteIff(f: Resolved, credential: Option<string>, needsSource: bool)
    requires Trimmed(f.host) && Trimmed(f.source) && Trimmed(f.username)
    requires !needsSource ==> f.source.None?
    ensures Complete(f, credential) <==> GapsIn(f, credential, needsSource) == NO_GAPS && needsSource
  {
    UsableIffNotBlank(f.host);
    UsableIffNotBlank(f.source);
    UsableIffNotBlank(f.username);
  }

  /** Parameters resolve exactly when nothing is missing, except for a request that left the
      source address out and names no router: it is not asked for one and never resolves. */
  lemma CompleteExactlyWhenNothingMissing(r: Request, store: Option<Store>)
    ensures Missing(r, store).HostKeyMismatch? <==> ConnectionParams(r, store).HostKeyMismatch?
    ensures Missing(r, store).Done? ==>
      (ConnectionParams(r, store).value.Some? <==> Missing(r, store).value == NO_GAPS && NeedsSource(r, store))
  {
    HostIsTrimmed(r, store);
    SourceIsTrimmed(r, store);
    UsernameIsTrimmed(r, store);
    var pin := ResolvePin(r, store);
    if pin.Done? {
      CompleteIff(Resolve(r, store, pin.value), r.credential, NeedsSource(r, store));
    }
  }

  lemma SamePin(r: Request, r': Request, store: Option<Store>)
    requires r' == r.(host := r'.host, source := r'.source)
    requires Usable(r.router)
    ensures ResolvePin(r', store) == ResolvePin(r, store)
  {
  }

  lemma SameFields(r: Request, r': Request, store: Option<Store>, pin: Option<string>)
    requires r' == r.(host := r'.host, source := r'.source)
    requires Bound(store, r.router).Some?
    ensures Resolve(r', store, pin) == Resolve(r, store, pin)
  {
  }

  lemma BoundNeedsSource(r: Request, store: Option<Store>)
    requires Bound(store, r.router).Some?
    ensures NeedsSource(r, store) && Usable(r.router)
  {
  }

  /** With a stored endpoint the request's host and source address change nothing: not the
      parameters, and not what is missing. */
  lemma EndpointDecides(r: Request, store: Option<Store>, host: Option<string>, source: Source)
    requires Bound(store, r.router).Some?
    ensures var r' := r.(host := host, source := source);
      && ConnectionParams(r', store) == ConnectionParams(r, store)
      && Missing(r', store) == Missing(r, store)
  {
    var r' := r.(host := host, source := source);
    BoundNeedsSource(r, store);
    BoundNeedsSource(r', store);
    SamePin(r, r', store);
    var pin := ResolvePin(r, store);
    if pin.Done? {
      SameFields(r, r', store, pin.value);
    }
  }

  /** Where a bound request connects: the stored host from the stored source address. */
  lemma BoundConnectsToEndpoint(r: Request, store: Option<Store>)
    requires Bound(store, r.router).Some?
    requires ConnectionParams(r, store).Done? && ConnectionParams(r, store).value.Some?
    ensures var ep := Bound(store, r.router).value;
      var p := ConnectionParams(r, store).value.value;
      && ep.host.Some? && p.host == Strip(ep.host.value) != ""
      && ep.source.Some? && p.source == Strip(ep.source.value) != ""
  {
    HostIsTrimmed(r, store);
    SourceIsTrimmed(r, store);
  }

  lemma UnrecordedIdHasNoKey(r: Request, store: Option<Store>)
    requires store.Some? && Usable(r.router) && r.router.value !in store.value.endpoints
    ensures ResolvePin(r, store) == Done(None)
  {
  }

  /** A router id without a row of its own never connects. The key is looked up under the id as
      it was spelled and everything else under the trimmed id, so this holds of a padded id
      even if the trimmed one has a row. */
  lemma UnrecordedIdNeverConnects(r: Request, store: Option<Store>)
    requires store.Some? && Usable(r.router) && r.router.value !in store.value.endpoints
    ensures ConnectionParams(r, store) == Done(None)
    ensures Missing(r, store).Done? && Missing(r, store).value.hostKey
  {
    UnrecordedIdHasNoKey(r, store);
  }

  // ---- what the parameters are ----

  /** Text that is there and not blank, without the white space around it. */
  predicate Is(text: string, given: Option<string>) {
    given.Some? && text == Strip(given.value) && text != ""
  }

  lemma PresentIs(s: Option<string>)
    ensures Blank(s) ==> Present(s) == None
    ensures !Blank(s) ==> Present(s).Some? && Is(Present(s).value, s)
  {
  }

  lemma UsernameIs(r: Request, store: Option<Store>)
    ensures var name := ResolveUsername(r, store);
      && (!Blank(r.username) ==> name.Some? && Is(name.value, r.username))
      && (Blank(r.username) && name.Some? ==>
            Bound(store, r.router).Some? && Is(name.value, Bound(store, r.router).value.username))
  {
    PresentIs(r.username);
    var ep := Bound(store, r.router);
    if ep.Some? { PresentIs(ep.value.username); }
  }

  lemma ParamsAre(f: Resolved, credential: Option<string>)
    requires Complete(f, credential)
    ensures var p := ParamsFrom(f, credential).value;
      && Is(p.host, f.host) && Is(p.username, f.username) && Is(p.credential, credential) && Is(p.pin, f.pin)
      && Some(p.source) == f.source
  {
  }

  /** The key a router was pinned to, if the store knows the router and its key. */
  ghost predicate Pinned(r: Request, store: Option<Store>, pin: string) {
    && store.Some? && exists owner ::
         && OwnerIs(r, store.value, owner)
         && owner in store.value.endpoints && store.value.endpoints[owner].pin == Some(pin) && pin != ""
  }

  /** Whose key counts: the router that is named, as it is spelled; if none is, the one that the
      store finds behind the host. */
  predicate OwnerIs(r: Request, store: Store, owner: string) {
    && owner != ""
    && if r.router.Some? && r.router.value != "" then owner == r.router.value
       else !Blank(r.host) && store.routerAt(Strip(r.host.value)) == Some(owner)
  }

  lemma OwnerExactly(r: Request, store: Store, owner: string)
    ensures KeyOwner(r, store) == Some(owner) <==> OwnerIs(r, store, owner)
  {
  }

  /** A key offered for a router with another stored key is refused, and nothing else is: exactly
      if a key is stored and the offer, not blank and well formed, normalizes to another. */
  lemma MismatchIff(r: Request, store: Option<Store>)
    ensures ResolvePin(r, store).HostKeyMismatch? <==>
      exists pin :: Pinned(r, store, pin) && !Blank(r.pin)
        && store.value.fingerprint(r.pin.value).Some? && store.value.fingerprint(r.pin.value) != Some(pin)
  {
    if store.Some? {
      var owner := KeyOwner(r, store.value);
      if owner.Some? {
        OwnerExactly(r, store.value, owner.value);
        if StoredPin(store.value, owner.value).Some? {
          assert Pinned(r, store, StoredPin(store.value, owner.value).value);
        }
      }
      forall pin | Pinned(r, store, pin) ensures owner.Some? && StoredPin(store.value, owner.value) == Some(pin) {
        var o :| OwnerIs(r, store.value, o) && o in store.value.endpoints && store.value.endpoints[o].pin == Some(pin);
        OwnerExactly(r, store.value, o);
      }
    }
  }

  /** The key a request goes by: the stored one of the router if the store knows the router, and
      only if nothing else is offered; else the offered one, normalized if there is a store. */
  lemma KeyIff(r: Request, store: Option<Store>, pin: string)
    ensures ResolvePin(r, store) == Done(Some(pin)) <==> GoesBy(r, store, pin)
  {
    if store.None? {
      PresentIs(r.pin);
    } else {
      var owner := KeyOwner(r, store.value);
      forall o ensures OwnerIs(r, store.value, o) <==> owner == Some(o) { OwnerExactly(r, store.value, o); }
      if owner.Some? {
        var stored := StoredPin(store.value, owner.value);
        forall p ensures Pinned(r, store, p) <==> stored == Some(p) {
          if stored == Some(p) { assert OwnerIs(r, store.value, owner.value); }
        }
      } else {
        assert forall p :: !Pinned(r, store, p);
      }
    }
  }

  ghost predicate GoesBy(r: Request, store: Option<Store>, pin: string) {
    match store
    case None => Is(pin, r.pin)
    case Some(st) =>
      || (Pinned(r, store, pin) && (Blank(r.pin) || st.fingerprint(r.pin.value) == Some(pin)))
      || ((forall owner :: !OwnerIs(r, st, owner)) && !Blank(r.pin) && st.fingerprint(r.pin.value) == Some(pin))
  }

  // ---- when there is a connection ----

  /** Where each field of a connection comes from. */
  function HostOf(r: Request, store: Option<Store>): Option<string> {
    var ep := Bound(store, r.router);
    if ep.Some? then ep.value.host else r.host
  }

  function SourceOf(r: Request, store: Option<Store>): Option<string> {
    var ep := Bound(store, r.router);
    if ep.Some? then ep.value.source else if r.source.Given? then r.source.address else None
  }

  function UsernameOf(r: Request, store: Option<Store>): Option<string> {
    var ep := Bound(store, r.router);
    if !Blank(r.username) || ep.None? then r.username else ep.value.username
  }

  lemma HostExactly(r: Request, store: Option<Store>)
    ensures Blank(ResolveHost(r, store)) <==> Blank(HostOf(r, store))
    ensures !Blank(HostOf(r, store)) ==> Is(ResolveHost(r, store).value, HostOf(r, store))
  {
    PresentIs(r.host);
    HostIsTrimmed(r, store);
  }

  lemma SourceExactly(r: Request, store: Option<Store>)
    ensures Blank(ResolveSource(r, store)) <==> Blank(SourceOf(r, store))
    ensures !Blank(SourceOf(r, store)) ==> Is(ResolveSource(r, store).value, SourceOf(r, store))
  {
    PresentIs(GivenSource(r.source));
    SourceIsTrimmed(r, store);
  }

  lemma UsernameExactly(r: Request, store: Option<Store>)
    ensures Blank(ResolveUsername(r, store)) <==> Blank(UsernameOf(r, store))
    ensures !Blank(UsernameOf(r, store)) ==> Is(ResolveUsername(r, store).value, UsernameOf(r, store))
  {
    UsernameIs(r, store);
    UsernameIsTrimmed(r, store);
    var ep := Bound(store, r.router);
    if ep.Some? { PresentIs(ep.value.username); }
  }

  /** For every request and store: there are connection parameters exactly if host, source
      address, user name and credential are there where they come from and a key is at hand; and
      then the parameters are these, each in its place. */
  lemma ConnectsExactly(r: Request, store: Option<Store>)
    ensures var out := ConnectionParams(r, store);
      (out.Done? && out.value.Some? <==>
         && !Blank(HostOf(r, store)) && !Blank(SourceOf(r, store)) && !Blank(UsernameOf(r, store)) && !Blank(r.credential)
         && exists pin :: GoesBy(r, store, pin) && Strip(pin) != "")
    ensures var out := ConnectionParams(r, store);
      out.Done? && out.value.Some? ==>
        var p := out.value.value;
        && Is(p.host, HostOf(r, store)) && Is(p.source, SourceOf(r, store)) && Is(p.username, UsernameOf(r, store))
        && Is(p.credential, r.credential)
        && exists pin :: GoesBy(r, store, pin) && p.pin == Strip(pin)
  {
    HostExactly(r, store);
    SourceExactly(r, store);
    UsernameExactly(r, store);
    HostIsTrimmed(r, store);
    SourceIsTrimmed(r, store);
    UsernameIsTrimmed(r, store);
    KeyAtHand(r, store);
    var pin := ResolvePin(r, store);
    if pin.Done? {
      var f := Resolve(r, store, pin.value);
      if Complete(f, r.credential) { ParamsAre(f, r.credential); }
    }
  }

  lemma KeyAtHand(r: Request, store: Option<Store>)
    ensures var found := ResolvePin(r, store);
      && (found.Done? && !Blank(found.value) <==> exists pin :: GoesBy(r, store, pin) && Strip(pin) != "")
      && (found.Done? && found.value.Some? ==> GoesBy(r, store, found.value.value))
  {
    var found := ResolvePin(r, store);
    if found.Done? && found.value.Some? { KeyIff(r, store, found.value.value); }
    forall pin | GoesBy(r, store, pin) ensures found == Done(Some(pin)) { KeyIff(r, store, pin); }
  }

  /** What is missing, said of the request and the store alone: a field is missing exactly if it
      is blank where it comes from; a source address only if one was asked for; a key if there is
      none to go by. */
  lemma MissingExactly(r: Request, store: Option<Store>)
    requires Missing(r, store).Done?
    ensures var g := Missing(r, store).value;
      && (Lacks(g, Host) <==> Blank(HostOf(r, store)))
      && (Lacks(g, Username) <==> Blank(UsernameOf(r, store)))
      && (Lacks(g, Credential) <==> Blank(r.credential))
      && (Lacks(g, HostKey) <==> !exists pin :: GoesBy(r, store, pin) && Strip(pin) != "")
      && (Lacks(g, SourceAddress) <==>
            Blank(SourceOf(r, store)) && (r.source.Given? || (store.Some? && r.router.Some? && Strip(r.router.value) != "")))
  {
    HostExactly(r, store);
    SourceExactly(r, store);
    UsernameExactly(r, store);
    HostIsTrimmed(r, store);
    SourceIsTrimmed(r, store);
    UsernameIsTrimmed(r, store);
    UsableIffNotBlank(ResolveHost(r, store));
    UsableIffNotBlank(ResolveSource(r, store));
    UsableIffNotBlank(ResolveUsername(r, store));
    KeyAtHand(r, store);
  }
}
