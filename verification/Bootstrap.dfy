/**
 The first administrator: one-time capabilities and the three-phase claim that consumes one.

 A claim is authorized in one transaction, validated in a second and committed in a third,
 with the password derived in between; registrations, other claims and role grants may
 interleave. `slot` is the partial unique index on open capabilities. Digest 0 is the
 all-zero digest. Times are nanoseconds.
 */
module Bootstrap {
  import opened Base

  const DEFAULT_TTL: int := 15 * MINUTE
  const MINIMUM_TTL: int := MINUTE
  const MAXIMUM_TTL: int := 60 * MINUTE

  datatype Status = Open | Consumed(identity: Id) | Expired | Replaced
  datatype Capability = Capability(digest: Id, createdAt: int, expiresAt: int, status: Status)

  /** What a claim carries from phase to phase. */
  datatype Claim = Claim(capability: Id, digest: Id, validated: bool)
  datatype Consumption = Consumption(capability: Id, identity: Id, digest: Id, at: int)

  datatype State = State(
    capabilities: map<Id, Capability>,
    slot: Option<Id>,
    identities: set<Id>,
    emails: set<Id>,
    administrators: set<Id>,
    claims: map<Id, Claim>,
    consumptions: seq<Consumption>)

  const EMPTY := State(map[], None, {}, {}, {}, map[], [])

  // ----- Registration -----------------------------------------------------

  datatype Registration = Registered(id: Id, createdAt: int, expiresAt: int, already: bool) | Refused(error: Error)

  function EffectiveTtl(ttl: int): int {
    if ttl == 0 then DEFAULT_TTL else ttl
  }

  predicate DigestKnown(capabilities: map<Id, Capability>, digest: Id) {
    exists c :: c in capabilities && capabilities[c].digest == digest
  }

  function Close(s: State, status: Status): State {
    if s.slot.Some? && s.slot.value in s.capabilities
    then s.(capabilities := s.capabilities[s.slot.value := s.capabilities[s.slot.value].(status := status)],
      slot := None)
    else s
  }

  /** The insert of a new open capability; the unique digest and the slot can reject it. */
  function Insert(s: State, id: Id, digest: Id, ttl: int, now: int): State {
    s.(capabilities := s.capabilities[id := Capability(digest, now, now + EffectiveTtl(ttl), Open)], slot := Some(id))
  }

  /** `replace` is the create command's option, `replayActive` marks the import of a digest. */
  function Register(s: State, id: Id, digest: Id, ttl: int, replace: bool, replayActive: bool,
                    now: int): (State, Registration) {
    if !(MINIMUM_TTL <= EffectiveTtl(ttl) <= MAXIMUM_TTL) || digest == 0 || (replace && replayActive)
      then (s, Refused(InvalidInput))
    else if s.administrators != {} then (s, Refused(Disabled))
    else if s.slot.None? || s.slot.value !in s.capabilities then InsertFresh(s, s, id, digest, ttl, now)
    else
      var open := s.capabilities[s.slot.value];
      if replayActive && open.digest == digest then
        if open.expiresAt > now then (s, Registered(s.slot.value, open.createdAt, open.expiresAt, true))
        else (s, Refused(Conflict))
      else if open.expiresAt > now && !replace then (s, Refused(Conflict))
      else InsertFresh(s, Close(s, if open.expiresAt > now then Replaced else Expired), id, digest, ttl, now)
  }

  /** A rejected insert rolls back to `s`, undoing the invalidation made on the way to `s1`. */
  function InsertFresh(s: State, s1: State, id: Id, digest: Id, ttl: int, now: int): (State, Registration) {
    if id in s1.capabilities || DigestKnown(s1.capabilities, digest) || s1.slot.Some? then (s, Refused(Conflict))
    else (Insert(s1, id, digest, ttl, now), Registered(id, now, now + EffectiveTtl(ttl), false))
  }

  // ----- Claims -----------------------------------------------------------

  /** The capability named by a claim is open, unexpired and carries its digest. */
  predicate Usable(s: State, c: Claim, now: int) {
    && c.capability in s.capabilities && s.capabilities[c.capability].status == Open
    && s.capabilities[c.capability].expiresAt > now && s.capabilities[c.capability].digest == c.digest
  }

  /** `limited`: the rate limiter turned the attempt away. */
  function Authorize(s: State, client: Id, digest: Id, limited: bool, now: int): State {
    if s.administrators != {} || limited || s.slot.None? || s.slot.value !in s.capabilities
      then s.(claims := s.claims - {client})
    else
      var open := s.capabilities[s.slot.value];
      if !(open.expiresAt > now) then Close(s, Expired).(claims := s.claims - {client})
      else if open.digest != digest then s.(claims := s.claims - {client})
      else s.(claims := s.claims[client := Claim(s.slot.value, digest, false)])
  }

  function Validate(s: State, client: Id, now: int): State {
    if client !in s.claims then s
    else if s.administrators == {} && Usable(s, s.claims[client], now)
    then s.(claims := s.claims[client := s.claims[client].(validated := true)])
    else s.(claims := s.claims - {client})
  }

  /** Identity, role and consumption in one transaction. */
  function Commit(s: State, client: Id, identity: Id, email: Id, now: int): State {
    if !(client in s.claims && s.claims[client].validated) then s
    else
      var c := s.claims[client];
      if s.administrators != {} || !Usable(s, c, now) || identity in s.identities || email in s.emails
      then s.(claims := s.claims - {client})
      else State(
        s.capabilities[c.capability := s.capabilities[c.capability].(status := Consumed(identity))],
        if s.slot == Some(c.capability) then None else s.slot,
        s.identities + {identity}, s.emails + {email}, s.administrators + {identity},
        s.claims - {client}, s.consumptions + [Consumption(c.capability, identity, c.digest, now)])
  }

  datatype Step =
    | RegisterStep(id: Id, digest: Id, ttl: int, replace: bool, replayActive: bool, now: int)
    | AuthorizeStep(client: Id, digest: Id, limited: bool, now: int)
    | ValidateStep(client: Id, now: int)
    | CommitStep(client: Id, identity: Id, email: Id, now: int)
    | AddIdentity(identity: Id, email: Id)
    | GrantRole(identity: Id)

  function Next(s: State, step: Step): State {
    match step
    case RegisterStep(id, digest, ttl, replace, replayActive, now) =>
      Register(s, id, digest, ttl, replace, replayActive, now).0
    case AuthorizeStep(client, digest, limited, now) => Authorize(s, client, digest, limited, now)
    case ValidateStep(client, now) => Validate(s, client, now)
    case CommitStep(client, identity, email, now) => Commit(s, client, identity, email, now)
    case AddIdentity(identity, email) =>
      if identity in s.identities || email in s.emails then s
      else s.(identities := s.identities + {identity}, emails := s.emails + {email})
    case GrantRole(identity) =>
      if identity in s.identities then s.(administrators := s.administrators + {identity}) else s
  }

  function Run(steps: seq<Step>): State {
    if steps == [] then EMPTY else Next(Run(steps[..|steps| - 1]), steps[|steps| - 1])
  }

  // ----- Invariant --------------------------------------------------------

  /** The index names exactly the open capabilities, so there is at most one. */
  ghost predicate SlotExact(capabilities: map<Id, Capability>, slot: Option<Id>) {
    && (slot.Some? ==> slot.value in capabilities)
    && forall c :: c in capabilities ==> (capabilities[c].status == Open <==> slot == Some(c))
  }

  ghost predicate DigestsUnique(capabilities: map<Id, Capability>) {
    && (forall a, b :: a in capabilities && b in capabilities && capabilities[a].digest == capabilities[b].digest ==>
      a == b)
    && forall a :: a in capabilities ==>
         capabilities[a].digest != 0 &&
           MINIMUM_TTL <= capabilities[a].expiresAt - capabilities[a].createdAt <= MAXIMUM_TTL
  }

  /** Recorded consumptions agree with the capability they consumed. */
  predicate Genuine(capabilities: map<Id, Capability>, u: Consumption) {
    && u.capability in capabilities && capabilities[u.capability].status == Consumed(u.identity)
    && capabilities[u.capability].digest == u.digest && u.at < capabilities[u.capability].expiresAt
  }

  ghost predicate ConsumptionsOk(s: State) {
    && |s.consumptions| <= 1
    && (s.consumptions != [] ==>
          && s.consumptions[0].identity in s.administrators && s.consumptions[0].identity in s.identities
          && Genuine(s.capabilities, s.consumptions[0]))
    && (forall c :: c in s.capabilities && s.capabilities[c].status.Consumed? ==>
      s.consumptions != [] && s.consumptions[0].capability == c)
  }

  ghost predicate Inv(s: State) {
    SlotExact(s.capabilities, s.slot) && DigestsUnique(s.capabilities) && ConsumptionsOk(s)
  }

  lemma CloseKeepsInv(s: State, status: Status)
    requires Inv(s) && (status == Expired || status == Replaced)
    ensures Inv(Close(s, status)) && Close(s, status).slot.None?
  {
  }

  lemma InsertKeepsInv(s: State, id: Id, digest: Id, ttl: int, now: int)
    requires Inv(s) && id !in s.capabilities && !DigestKnown(s.capabilities, digest) && s.slot.None? && digest != 0
    requires MINIMUM_TTL <= EffectiveTtl(ttl) <= MAXIMUM_TTL
    ensures Inv(Insert(s, id, digest, ttl, now))
  {
  }

  lemma RegisterKeepsInv(s: State, id: Id, digest: Id, ttl: int, replace: bool, replayActive: bool, now: int)
    requires Inv(s)
    ensures Inv(Register(s, id, digest, ttl, replace, replayActive, now).0)
  {
    var s1 := if s.slot.None? || s.slot.value !in s.capabilities then s
              else Close(s, if s.capabilities[s.slot.value].expiresAt > now then Replaced else Expired);
    if s1 != s {
      CloseKeepsInv(s, if s.capabilities[s.slot.value].expiresAt > now then Replaced else Expired);
    }
    if digest != 0 && MINIMUM_TTL <= EffectiveTtl(ttl) <= MAXIMUM_TTL && id !in s1.capabilities &&
      !DigestKnown(s1.capabilities, digest) && s1.slot.None? {
      InsertKeepsInv(s1, id, digest, ttl, now);
    }
    hide Inv, Insert, Close, DigestKnown;
  }

  lemma CommitKeepsInv(s: State, client: Id, identity: Id, email: Id, now: int)
    requires Inv(s)
    ensures Inv(Commit(s, client, identity, email, now))
  {
  }

  lemma NextKeepsInv(s: State, step: Step)
    requires Inv(s)
    ensures Inv(Next(s, step))
  {
    hide Register, Commit, Close;
    match step
    case RegisterStep(id, digest, ttl, replace, replayActive, now) =>
      RegisterKeepsInv(s, id, digest, ttl, replace, replayActive, now);
    case AuthorizeStep(_, _, _, _) => CloseKeepsInv(s, Expired);
    case CommitStep(client, identity, email, now) => CommitKeepsInv(s, client, identity, email, now);
    case _ =>
  }

  /**
   Whatever interleaves: at most one open capability, every digest used for one capability
   only, and at most one successful claim, whose capability was unexpired and matching and whose
   identity is an administrator.
   */
  lemma {:induction false} ClaimedAtMostOnce(steps: seq<Step>)
    ensures Inv(Run(steps))
    ensures |Run(steps).consumptions| <= 1
  {
    hide Next;
    if steps != [] {
      ClaimedAtMostOnce(steps[..|steps| - 1]);
      NextKeepsInv(Run(steps[..|steps| - 1]), steps[|steps| - 1]);
    }
  }

  // ----- Lifetimes and replays --------------------------------------------

  /** Capabilities are never deleted, altered or reopened. */
  ghost predicate HistoryKept(before: map<Id, Capability>, after: map<Id, Capability>) {
    forall c :: c in before ==>
      && c in after && after[c].digest == before[c].digest
      && after[c].createdAt == before[c].createdAt && after[c].expiresAt == before[c].expiresAt
      && (before[c].status != Open ==> after[c].status == before[c].status)
  }

  lemma NextKeepsHistory(s: State, step: Step)
    requires Inv(s)
    ensures HistoryKept(s.capabilities, Next(s, step).capabilities)
  {
    hide DigestKnown, DigestsUnique, ConsumptionsOk;
  }

  /** A capability keeps its lifetime for ever and ends at most once. */
  lemma {:induction false} RunKeepsHistory(steps: seq<Step>, n: nat)
    requires n <= |steps|
    ensures HistoryKept(Run(steps[..n]).capabilities, Run(steps).capabilities)
    decreases |steps|
  {
    hide Next, Inv;
    if n == |steps| {
      assert steps[..n] == steps;
    } else {
      var front := steps[..|steps| - 1];
      assert front[..n] == steps[..n];
      RunKeepsHistory(front, n);
      ClaimedAtMostOnce(front);
      NextKeepsHistory(Run(front), steps[|steps| - 1]);
    }
  }

  /**
   Registering a digest that was ever registered changes nothing, whatever the options. The
   answer is a success only for the import of the digest that is open and unexpired, and then
   reports the original lifetime.
   */
  lemma KnownDigestChangesNothing(steps: seq<Step>, id: Id, digest: Id, ttl: int, replace: bool, replayActive: bool,
                                  now: int)
    requires DigestKnown(Run(steps).capabilities, digest)
    ensures var s := Run(steps);
      var (s', answer) := Register(s, id, digest, ttl, replace, replayActive, now);
      && s' == s
      && (answer.Registered? <==>
            && MINIMUM_TTL <= EffectiveTtl(ttl) <= MAXIMUM_TTL && replayActive && !replace && s.administrators == {}
            && s.slot.Some? && s.slot.value in s.capabilities
            && s.capabilities[s.slot.value].digest == digest && s.capabilities[s.slot.value].expiresAt > now)
      && (answer.Registered? ==>
            answer == Registered(s.slot.value, s.capabilities[s.slot.value].createdAt,
              s.capabilities[s.slot.value].expiresAt, true))
  {
    ClaimedAtMostOnce(steps);
    var s := Run(steps);
    hide Run;
    var c :| c in s.capabilities && s.capabilities[c].digest == digest;
    assert forall status :: c in Close(s, status).capabilities && Close(s, status).capabilities[c].digest == digest;
    assert forall status :: DigestKnown(Close(s, status).capabilities, digest);
  }

  /** After a successful claim, or once any administrator exists, nothing can be registered or claimed. */
  lemma {:induction false} AdministratorsEndBootstrap(steps: seq<Step>, n: nat)
    requires n <= |steps| && Run(steps[..n]).administrators != {}
    ensures Run(steps).administrators != {} && Run(steps).consumptions == Run(steps[..n]).consumptions
    ensures forall c :: c in Run(steps).capabilities <==> c in Run(steps[..n]).capabilities
    decreases |steps|
  {
    if n == |steps| {
      assert steps[..n] == steps;
    } else {
      var front, last := steps[..|steps| - 1], steps[|steps| - 1];
      assert front[..n] == steps[..n];
      AdministratorsEndBootstrap(front, n);
      AfterAdministrator(Run(front), last);
    }
  }

  lemma AfterAdministrator(s: State, step: Step)
    requires s.administrators != {}
    ensures var s' := Next(s, step);
      s'.administrators != {} && s'.consumptions == s.consumptions && s'.capabilities == s.capabilities
  {
    hide InsertFresh, Close, Usable;
  }

  // ----- What registrations and claims achieve ----------------------------

  /** The open capability, if there is one. */
  function OpenOf(s: State): Option<Id> {
    if s.slot.Some? && s.slot.value in s.capabilities then s.slot else None
  }

  /** The lifetime asked for; a quarter of an hour if none was. */
  function Lifetime(ttl: int): int {
    if ttl == 0 then 15 * MINUTE else ttl
  }

  /** A new digest can be registered: none is open, or the open one has expired or is to be replaced. */
  predicate Registrable(s: State, id: Id, digest: Id, ttl: int, replace: bool, replayActive: bool, now: int) {
    && MINUTE <= Lifetime(ttl) <= 60 * MINUTE && digest != 0 && !(replace && replayActive)
    && s.administrators == {} && id !in s.capabilities
    && (OpenOf(s).Some? ==> s.capabilities[OpenOf(s).value].expiresAt <= now || replace)
  }

  lemma CloseIsExact(s: State, status: Status, digest: Id)
    requires s.slot.Some? && s.slot.value in s.capabilities
    ensures var s', c := Close(s, status), s.slot.value;
      && s' == s.(capabilities := s.capabilities[c := s.capabilities[c].(status := status)], slot := None)
      && (DigestKnown(s'.capabilities, digest) <==> DigestKnown(s.capabilities, digest))
  {
    var s', c := Close(s, status), s.slot.value;
    assert s'.capabilities == s.capabilities[c := s.capabilities[c].(status := status)];
    if DigestKnown(s.capabilities, digest) {
      var x :| x in s.capabilities && s.capabilities[x].digest == digest;
      assert x in s'.capabilities && s'.capabilities[x].digest == digest;
    }
    if DigestKnown(s'.capabilities, digest) {
      var x :| x in s'.capabilities && s'.capabilities[x].digest == digest;
      assert x in s.capabilities && s.capabilities[x].digest == digest;
    }
  }

  /**
   After any run, a digest that was never registered is registered if and only if the request is
   valid, there is no administrator and no capability in the way. It is then the open one, with the
   lifetime asked for, and the one before it is closed for its reason; a refusal changes nothing.
   */
  lemma NewDigestIsExact(steps: seq<Step>, id: Id, digest: Id, ttl: int, replace: bool, replayActive: bool, now: int)
    requires !DigestKnown(Run(steps).capabilities, digest)
    ensures var s := Run(steps);
      var (s', answer) := Register(s, id, digest, ttl, replace, replayActive, now);
      && (answer.Registered? <==> Registrable(s, id, digest, ttl, replace, replayActive, now))
      && (answer.Refused? ==> s' == s)
      && (answer.Registered? ==>
            && answer == Registered(id, now, now + Lifetime(ttl), false)
            && s' == s.(capabilities := s'.capabilities, slot := Some(id))
            && id in s'.capabilities && s'.capabilities[id] == Capability(digest, now, now + Lifetime(ttl), Open)
            && (forall c :: c in s'.capabilities <==> c == id || c in s.capabilities)
            && (forall c :: c in s.capabilities && s.slot != Some(c) ==> s'.capabilities[c] == s.capabilities[c])
            && (s.slot.Some? && s.slot.value in s.capabilities ==>
                  s'.capabilities[s.slot.value] == s.capabilities[s.slot.value].(
                    status := if s.capabilities[s.slot.value].expiresAt > now then Replaced else Expired)))
  {
    ClaimedAtMostOnce(steps);
    var s := Run(steps);
    hide Run;
    assert !(exists c :: c in s.capabilities && s.capabilities[c].digest == digest);
    if s.slot.Some? && s.slot.value in s.capabilities {
      CloseIsExact(s, if s.capabilities[s.slot.value].expiresAt > now then Replaced else Expired, digest);
    }
    hide Inv, DigestKnown, Close;
  }

  /** The claim goes through: it was validated, its capability is still usable, and identity and address are free. */
  predicate Claimable(s: State, client: Id, identity: Id, email: Id, now: int) {
    && client in s.claims && s.claims[client].validated && s.administrators == {}
    && Usable(s, s.claims[client], now) && identity !in s.identities && email !in s.emails
  }

  /**
   In any state, a claim makes its identity the one administrator if and only if it goes through; the
   capability is then consumed in its name, and otherwise nothing but the claim itself is gone.
   */
  lemma ClaimIsExact(s: State, client: Id, identity: Id, email: Id, now: int)
    ensures var s' := Commit(s, client, identity, email, now);
      && (s'.consumptions != s.consumptions <==> Claimable(s, client, identity, email, now))
      && (Claimable(s, client, identity, email, now) ==>
            var c := s.claims[client];
            && s'.administrators == {identity} && s'.identities == s.identities + {identity}
            && s'.emails == s.emails + {email} && client !in s'.claims
            && s'.consumptions == s.consumptions + [Consumption(c.capability, identity, c.digest, now)]
            && s'.capabilities ==
               s.capabilities[c.capability := s.capabilities[c.capability].(status := Consumed(identity))])
      && (!Claimable(s, client, identity, email, now) ==> s' == s.(claims := s'.claims))
  {
  }

  /** The first two phases let a claim through exactly while its digest is that of the open, unexpired capability. */
  lemma ClaimPhasesAreExact(steps: seq<Step>, client: Id, digest: Id, limited: bool, now: int)
    ensures var s := Run(steps);
      var s' := Authorize(s, client, digest, limited, now);
      && (client in s'.claims <==>
            && s.administrators == {} && !limited && s.slot.Some? && s.slot.value in s.capabilities
            && s.capabilities[s.slot.value].expiresAt > now && s.capabilities[s.slot.value].digest == digest)
      && (client in s'.claims ==>
            s.slot.Some? && s'.claims[client] == Claim(s.slot.value, digest, false) && s' == s.(claims := s'.claims))
      && (s.administrators == {} && !limited && s.slot.Some? && s.slot.value in s.capabilities
          && s.capabilities[s.slot.value].expiresAt <= now ==>
            && s'.slot.None?
            && s'.capabilities ==
               s.capabilities[s.slot.value := s.capabilities[s.slot.value].(status := Expired)])
    ensures var s := Run(steps);
      var s' := Validate(s, client, now);
      && (client in s'.claims && s'.claims[client].validated && s' != s ==>
            client in s.claims && s.administrators == {} && Usable(s, s.claims[client], now))
      && (client in s.claims && s.administrators == {} && Usable(s, s.claims[client], now) ==>
            client in s'.claims && s'.claims[client] == s.claims[client].(validated := true))
  {
    ClaimedAtMostOnce(steps);
    hide Run, DigestsUnique, ConsumptionsOk;
  }

  /** Other ways to an identity and to the role: an identity needs a free address, the role an identity. */
  lemma IdentitiesAndRolesAreExact(s: State, identity: Id, email: Id)
    ensures var s' := Next(s, AddIdentity(identity, email));
      if identity !in s.identities && email !in s.emails
      then s' == s.(identities := s.identities + {identity}, emails := s.emails + {email}) else s' == s
    ensures var s' := Next(s, GrantRole(identity));
      if identity in s.identities then s' == s.(administrators := s.administrators + {identity}) else s' == s
  {
  }

  lemma RunMore(steps: seq<Step>, step: Step)
    ensures Run(steps + [step]) == Next(Run(steps), step)
  {
    hide Next;
    assert (steps + [step])[..|steps|] == steps;
  }

  /** The way it is meant to go: register, authorize, validate and commit. */
  function Claiming(id: Id, digest: Id, client: Id, identity: Id, email: Id): seq<Step> {
    [RegisterStep(id, digest, 0, false, false, 0)] + [AuthorizeStep(client, digest, false, 1)]
    + [ValidateStep(client, 2)] + [CommitStep(client, identity, email, 3)]
  }

  lemma BootstrapSucceeds(id: Id, digest: Id, client: Id, identity: Id, email: Id)
    requires digest != 0
    ensures Run(Claiming(id, digest, client, identity, email)).administrators == {identity}
  {
    var p1 := [RegisterStep(id, digest, 0, false, false, 0)];
    var p2 := p1 + [AuthorizeStep(client, digest, false, 1)];
    var p3 := p2 + [ValidateStep(client, 2)];
    RunMore([], RegisterStep(id, digest, 0, false, false, 0));
    assert [] + p1 == p1;
    RunMore(p1, AuthorizeStep(client, digest, false, 1));
    RunMore(p2, ValidateStep(client, 2));
    RunMore(p3, CommitStep(client, identity, email, 3));
    hide Run;
    assert Run(p1) == EMPTY.(capabilities := map[id := Capability(digest, 0, DEFAULT_TTL, Open)], slot := Some(id));
    assert Run(p2) == Run(p1).(claims := map[client := Claim(id, digest, false)]);
    assert Run(p3) == Run(p1).(claims := map[client := Claim(id, digest, true)]);
  }

  // ----- The registration transaction -------------------------------------

  class Repository {
    var tables: State

    constructor ()
      ensures tables == EMPTY
    {
      tables := EMPTY;
    }

    /** The shared registration transaction, statement by statement. */
    method RegisterDigest(id: Id, digest: Id, ttl: int, replace: bool, replayActive: bool, now: int)
                          returns (answer: Registration)
      modifies this
      ensures (tables, answer) == Register(old(tables), id, digest, ttl, replace, replayActive, now)
    {
      var lifetime := ttl;
      if lifetime == 0 {
        lifetime := DEFAULT_TTL;
      }
      if lifetime < MINIMUM_TTL || lifetime > MAXIMUM_TTL {
        return Refused(InvalidInput);
      }
      if digest == 0 || (replace && replayActive) {
        return Refused(InvalidInput);
      }
      if tables.administrators != {} {
        return Refused(Disabled);
      }
      var before := tables;
      if tables.slot.Some? && tables.slot.value in tables.capabilities {
        var activeId := tables.slot.value;
        var active := tables.capabilities[activeId];
        if replayActive && active.digest == digest {
          if !(active.expiresAt > now) {
            return Refused(Conflict);
          }
          return Registered(activeId, active.createdAt, active.expiresAt, true);
        }
        var reason := Expired;
        if active.expiresAt > now {
          if !replace {
            return Refused(Conflict);
          }
          reason := Replaced;
        }
        tables := tables.(capabilities := tables.capabilities[activeId := active.(status := reason)], slot := None);
      }
      if id in tables.capabilities || DigestKnown(tables.capabilities, digest) || tables.slot.Some? {
        tables := before;
        return Refused(Conflict);
      }
      tables := tables.(capabilities := tables.capabilities[id := Capability(digest, now, now + lifetime, Open)]);
      tables := tables.(slot := Some(id));
      answer := Registered(id, now, now + lifetime, false);
    }

    /** The first transaction of a claim; an expired capability is closed on the way. */
    method AuthorizeAttempt(client: Id, digest: Id, limited: bool, now: int) returns (ok: bool)
      modifies this
      ensures tables == Next(old(tables), AuthorizeStep(client, digest, limited, now))
      ensures ok <==> client in tables.claims
    {
      ok := false;
      tables := tables.(claims := tables.claims - {client});
      if tables.administrators != {} || limited || tables.slot.None? || tables.slot.value !in tables.capabilities {
        return;
      }
      var id := tables.slot.value;
      var stored := tables.capabilities[id];
      if !(stored.expiresAt > now) {
        tables := tables.(capabilities := tables.capabilities[id := stored.(status := Expired)], slot := None);
        return;
      }
      if stored.digest != digest {
        return;
      }
      tables := tables.(claims := tables.claims[client := Claim(id, digest, false)]);
      assert tables.claims == old(tables).claims[client := Claim(id, digest, false)];
      ok := true;
    }

    /** The committing transaction of a claim; true if it created the administrator. */
    method CommitClaim(client: Id, identity: Id, email: Id, now: int) returns (ok: bool)
      modifies this
      ensures tables == Next(old(tables), CommitStep(client, identity, email, now))
      ensures ok <==> tables.consumptions != old(tables).consumptions
    {
      ok := false;
      if client !in tables.claims || !tables.claims[client].validated {
        return;
      }
      var c := tables.claims[client];
      tables := tables.(claims := tables.claims - {client});
      if tables.administrators != {} || c.capability !in tables.capabilities {
        return;
      }
      var stored := tables.capabilities[c.capability];
      if stored.status != Open || !(stored.expiresAt > now) || stored.digest != c.digest {
        return;
      }
      if identity in tables.identities || email in tables.emails {
        return;
      }
      tables := tables.(identities := tables.identities + {identity}, emails := tables.emails + {email});
      tables := tables.(administrators := tables.administrators + {identity});
      tables := tables.(capabilities := tables.capabilities[c.capability := stored.(status := Consumed(identity))]);
      if tables.slot == Some(c.capability) {
        tables := tables.(slot := None);
      }
      tables := tables.(consumptions := tables.consumptions + [Consumption(c.capability, identity, c.digest, now)]);
      ok := true;
      assert |tables.consumptions| == |old(tables).consumptions| + 1;
    }
  }
}
