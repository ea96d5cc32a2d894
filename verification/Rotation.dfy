/**
 Database credentials: two-step rotation and single-use phpMyAdmin handoffs.

 A rotation stores its candidate beside the authoritative credential and is promoted later by
 a retrying worker. `pending` is the partial unique index on unapplied rotations. A user's
 `prepared` and `promoted` lists and a handoff's `generation` are kept only to state what
 happened; no transaction decides by them.
 */
module Rotation {
  import opened Base

  const HANDOFF_TTL: int := 30_000_000_000

  /** What is left of a credential after deletion. */
  const BLANK: Id := 0

  datatype UserStatus = UserPending | UserActive | UserDeleting | UserDeleted
  datatype User = User(envelope: Id, generation: nat, status: UserStatus)

  datatype RotationRow = RotationRow(user: Id, candidate: Id, applied: bool)

  /** The stored operation behind an idempotency key: the user it rotates, or none if it does something else. */
  datatype Request = Request(operation: Id, user: Option<Id>, actor: Id)

  datatype HandoffState = Issued | Consumed | Revoked
  datatype Handoff = Handoff(user: Id, session: Id, expiresAt: int, generation: nat, state: HandoffState)

  datatype Book = Book(initial: Id, prepared: seq<Id>, promoted: seq<Id>)

  /** What a redeemed handoff handed out. */
  datatype Redemption = Redemption(handoff: Id, envelope: Id, generation: nat, at: int)

  datatype State = State(
    users: map<Id, User>,
    rotations: map<Id, RotationRow>,
    pending: map<Id, Id>,
    requests: map<Id, Request>,
    handoffs: map<Id, Handoff>,
    books: map<Id, Book>,
    redemptions: seq<Redemption>)

  const EMPTY := State(map[], map[], map[], map[], map[], map[], [])

  // ----- Rotation ---------------------------------------------------------

  datatype Answer = Done(state: State, operation: Id) | Refused(error: Error)

  /** `key` is the optional idempotency key; a repeated key must repeat user and actor. */
  function Prepare(s: State, user: Id, operation: Id, key: Option<Id>, actor: Id, candidate: Id): Answer {
    if key.Some? && key.value in s.requests then
      if s.requests[key.value].user == Some(user) && s.requests[key.value].actor == actor
      then Done(s, s.requests[key.value].operation) else Refused(Conflict)
    else if user !in s.users || user !in s.books then Refused(NotFound)
    else if s.users[user].status != UserActive || operation in s.rotations || user in s.pending then Refused(Conflict)
    else Done(s.(
      rotations := s.rotations[operation := RotationRow(user, candidate, false)],
      pending := s.pending[user := operation],
      requests := if key.Some? then s.requests[key.value := Request(operation, Some(user), actor)] else s.requests,
      books := s.books[user := s.books[user].(prepared := s.books[user].prepared + [operation])]), operation)
  }

  function RevokeFor(handoffs: map<Id, Handoff>, user: Id): map<Id, Handoff> {
    map x | x in handoffs ::
      if handoffs[x].user == user && handoffs[x].state == Issued then handoffs[x].(state := Revoked) else handoffs[x]
  }

  /** Promotes the candidate, advances the generation and revokes outstanding handoffs together. */
  function Complete(s: State, operation: Id): Answer {
    if operation !in s.rotations then Refused(NotFound)
    else
      var r := s.rotations[operation];
      if r.applied then Done(s, operation)
      else if !(r.user in s.users && s.users[r.user].status == UserActive && r.user in s.books) then Refused(Conflict)
      else Done(s.(
        users :=
          s.users[r.user := s.users[r.user].(envelope := r.candidate, generation := s.users[r.user].generation + 1)],
        rotations := s.rotations[operation := r.(applied := true)],
        pending := s.pending - {r.user},
        handoffs := RevokeFor(s.handoffs, r.user),
        books := s.books[r.user := s.books[r.user].(promoted := s.books[r.user].promoted + [operation])]), operation)
  }

  // ----- Handoffs ---------------------------------------------------------

  function RevokeSession(handoffs: map<Id, Handoff>, session: Id, user: Id): map<Id, Handoff> {
    map x | x in handoffs ::
      if handoffs[x].session == session && handoffs[x].user == user && handoffs[x].state == Issued
      then handoffs[x].(state := Revoked) else handoffs[x]
  }

  /** `allowed`: the caller is authorized and the user has an active grant. */
  function Issue(handoffs: map<Id, Handoff>, users: map<Id, User>, h: Id, user: Id, session: Id, now: int,
                 allowed: bool): map<Id, Handoff> {
    if !(allowed && user in users && users[user].status == UserActive && h !in handoffs) then handoffs
    else RevokeSession(handoffs, session, user)
      [h := Handoff(user, session, now + HANDOFF_TTL, users[user].generation, Issued)]
  }

  predicate Redeemable(s: State, h: Id, now: int, allowed: bool) {
    && h in s.handoffs && s.handoffs[h].state == Issued && s.handoffs[h].expiresAt > now
    && s.handoffs[h].user in s.users && s.users[s.handoffs[h].user].status == UserActive && allowed
  }

  function Redeem(s: State, h: Id, now: int, allowed: bool): State {
    if !Redeemable(s, h, now, allowed) then s
    else
      var u := s.users[s.handoffs[h].user];
      s.(handoffs := s.handoffs[h := s.handoffs[h].(state := Consumed)],
         redemptions := s.redemptions + [Redemption(h, u.envelope, u.generation, now)])
  }

  // ----- Runs -------------------------------------------------------------

  datatype Step =
    | AddUser(user: Id, envelope: Id)
    | ActivateUser(user: Id)
    | PrepareDeletion(user: Id, granted: bool)
    | CompleteDeletion(user: Id)
    | PrepareStep(user: Id, operation: Id, key: Option<Id>, actor: Id, candidate: Id)
    | OtherRequest(otherKey: Id, operation: Id, actor: Id)
    | CompleteStep(operation: Id)
    | IssueStep(handoff: Id, user: Id, session: Id, now: int, allowed: bool)
    | RedeemStep(handoff: Id, now: int, allowed: bool)

  /** The user's row along its life; `granted`: it still has grants, which keep it from being deleted. */
  function Moved(s: State, user: User, step: Step): User {
    match step
    case ActivateUser(_) => if user.status == UserPending then user.(status := UserActive) else user
    case PrepareDeletion(u, granted) =>
      if user.status == UserActive && !granted && u !in s.pending then user.(status := UserDeleting) else user
    case CompleteDeletion(_) =>
      if user.status == UserDeleting then user.(status := UserDeleted, envelope := BLANK) else user
    case _ => user
  }

  function WithStatus(s: State, u: Id, step: Step): State {
    if u in s.users then s.(users := s.users[u := Moved(s, s.users[u], step)]) else s
  }

  function Settle(s: State, answer: Answer): State {
    match answer
    case Done(s', _) => s'
    case Refused(_) => s
  }

  function Next(s: State, step: Step): State {
    match step
    case AddUser(u, envelope) =>
      if u in s.users || u in s.books then s
      else s.(users := s.users[u := User(envelope, 1, UserPending)], books := s.books[u := Book(envelope, [], [])])
    case ActivateUser(u) => WithStatus(s, u, step)
    case PrepareDeletion(u, _) => WithStatus(s, u, step)
    case CompleteDeletion(u) => WithStatus(s, u, step)
    case PrepareStep(u, o, key, actor, candidate) => Settle(s, Prepare(s, u, o, key, actor, candidate))
    case OtherRequest(key, o, actor) =>
      s.(requests := if key in s.requests then s.requests else s.requests[key := Request(o, None, actor)])
    case CompleteStep(o) => Settle(s, Complete(s, o))
    case IssueStep(h, u, session, now, allowed) =>
      s.(handoffs := Issue(s.handoffs, s.users, h, u, session, now, allowed))
    case RedeemStep(h, now, allowed) => Redeem(s, h, now, allowed)
  }

  function Run(steps: seq<Step>): State {
    if steps == [] then EMPTY else Next(Run(steps[..|steps| - 1]), steps[|steps| - 1])
  }

  // ----- Credentials ------------------------------------------------------

  /** The credential a user should have according to the book. */
  function Owed(b: Book, rotations: map<Id, RotationRow>): Option<Id> {
    if b.promoted == [] then Some(b.initial)
    else if b.promoted[|b.promoted| - 1] in rotations then Some(rotations[b.promoted[|b.promoted| - 1]].candidate)
      else None
  }

  /**
   The user's generation counts the promotions, the credential is the candidate of the last one
   until deletion blanks it, and promotions follow the order of preparation with at most one
   outstanding, which only an active user has.
   */
  predicate AccountOk(u: Id, user: User, b: Book, rotations: map<Id, RotationRow>, pending: map<Id, Id>) {
    && user.generation == 1 + |b.promoted|
    && (if user.status == UserDeleted then user.envelope == BLANK else Owed(b, rotations) == Some(user.envelope))
    && (u in pending ==> user.status == UserActive)
    && b.prepared == b.promoted + if u in pending then [pending[u]] else []
  }

  ghost predicate AccountsOk(users: map<Id, User>, books: map<Id, Book>, rotations: map<Id, RotationRow>,
                             pending: map<Id, Id>) {
    && (forall u :: u in users <==> u in books) && (forall u :: u in pending ==> u in users)
    && (forall u :: u in users ==> AccountOk(u, users[u], books[u], rotations, pending))
  }

  /** The index names exactly the unapplied rotations. */
  ghost predicate PendingExact(rotations: map<Id, RotationRow>, pending: map<Id, Id>) {
    && (forall u :: u in pending ==>
      pending[u] in rotations && rotations[pending[u]].user == u && !rotations[pending[u]].applied)
    && (forall o :: o in rotations && !rotations[o].applied ==>
      rotations[o].user in pending && pending[rotations[o].user] == o)
  }

  /** Promoted operations are applied rotations of their user. */
  ghost predicate PromotedOk(books: map<Id, Book>, rotations: map<Id, RotationRow>) {
    forall u, o :: u in books && o in books[u].promoted ==>
      o in rotations && rotations[o].user == u && rotations[o].applied
  }

  /** A handoff that is still issued was issued for the present credential. */
  ghost predicate HandoffsFresh(users: map<Id, User>, handoffs: map<Id, Handoff>) {
    forall h :: h in handoffs && handoffs[h].state == Issued ==>
      handoffs[h].user in users && handoffs[h].generation == users[handoffs[h].user].generation
  }

  ghost predicate CredentialInv(s: State) {
    && AccountsOk(s.users, s.books, s.rotations, s.pending) && PendingExact(s.rotations, s.pending)
    && PromotedOk(s.books, s.rotations) && HandoffsFresh(s.users, s.handoffs)
  }

  lemma PreparePending(rotations: map<Id, RotationRow>, pending: map<Id, Id>, u: Id, o: Id, candidate: Id)
    requires PendingExact(rotations, pending) && o !in rotations && u !in pending
    ensures PendingExact(rotations[o := RotationRow(u, candidate, false)], pending[u := o])
  {
  }

  lemma PreparePromoted(books: map<Id, Book>, rotations: map<Id, RotationRow>, u: Id, o: Id, candidate: Id)
    requires PromotedOk(books, rotations) && u in books && o !in rotations
    ensures PromotedOk(books[u := books[u].(prepared := books[u].prepared + [o])],
      rotations[o := RotationRow(u, candidate, false)])
  {
  }

  /** Rows added elsewhere do not change what a user is owed. */
  lemma OwedStays(b: Book, u: Id, books: map<Id, Book>, rotations: map<Id, RotationRow>, o: Id, row: RotationRow)
    requires PromotedOk(books, rotations) && u in books && b.promoted == books[u].promoted
    requires b.initial == books[u].initial
    requires o !in rotations || row.candidate == rotations[o].candidate
    ensures Owed(b, rotations[o := row]) == Owed(b, rotations)
  {
    if b.promoted != [] {
      assert b.promoted[|b.promoted| - 1] in books[u].promoted;
    }
  }

  lemma PrepareAccounts(users: map<Id, User>, books: map<Id, Book>, rotations: map<Id, RotationRow>,
                        pending: map<Id, Id>, u: Id, o: Id, candidate: Id)
    requires AccountsOk(users, books, rotations, pending) && PromotedOk(books, rotations) && u in books
    requires o !in rotations && u !in pending && u in users && users[u].status == UserActive
    ensures AccountsOk(users, books[u := books[u].(prepared := books[u].prepared + [o])],
      rotations[o := RotationRow(u, candidate, false)], pending[u := o])
  {
    var books' := books[u := books[u].(prepared := books[u].prepared + [o])];
    var row := RotationRow(u, candidate, false);
    forall v | v in users ensures AccountOk(v, users[v], books'[v], rotations[o := row], pending[u := o]) {
      OwedStays(books'[v], v, books, rotations, o, row);
      hide Owed, PromotedOk;
      assert AccountOk(v, users[v], books[v], rotations, pending);
    }
  }

  lemma PrepareKeepsInv(s: State, u: Id, o: Id, key: Option<Id>, actor: Id, candidate: Id)
    requires CredentialInv(s)
    ensures CredentialInv(Settle(s, Prepare(s, u, o, key, actor, candidate)))
  {
    hide AccountsOk, PendingExact, PromotedOk, HandoffsFresh;
    if u in s.books && o !in s.rotations && u !in s.pending && u in s.users && s.users[u].status == UserActive {
      PreparePending(s.rotations, s.pending, u, o, candidate);
      PreparePromoted(s.books, s.rotations, u, o, candidate);
      PrepareAccounts(s.users, s.books, s.rotations, s.pending, u, o, candidate);
    }
  }

  lemma CompletePending(rotations: map<Id, RotationRow>, pending: map<Id, Id>, o: Id)
    requires PendingExact(rotations, pending) && o in rotations && !rotations[o].applied
    ensures PendingExact(rotations[o := rotations[o].(applied := true)], pending - {rotations[o].user})
  {
  }

  lemma CompletePromoted(books: map<Id, Book>, rotations: map<Id, RotationRow>, o: Id)
    requires PromotedOk(books, rotations) && o in rotations && rotations[o].user in books
    ensures var u := rotations[o].user;
      PromotedOk(books[u := books[u].(promoted := books[u].promoted + [o])],
        rotations[o := rotations[o].(applied := true)])
  {
  }

  /** Promoting a rotation of another user changes nothing for this one. */
  lemma OtherAccountStays(v: Id, user: User, books: map<Id, Book>, rotations: map<Id, RotationRow>,
                          pending: map<Id, Id>, o: Id, u: Id)
    requires PromotedOk(books, rotations) && v in books && v != u && o in rotations
    requires AccountOk(v, user, books[v], rotations, pending)
    ensures AccountOk(v, user, books[v], rotations[o := rotations[o].(applied := true)], pending - {u})
  {
    OwedStays(books[v], v, books, rotations, o, rotations[o].(applied := true));
    hide Owed, PromotedOk;
  }

  lemma CompleteAccounts(users: map<Id, User>, books: map<Id, Book>, rotations: map<Id, RotationRow>,
                         pending: map<Id, Id>, o: Id)
    requires AccountsOk(users, books, rotations, pending) && PromotedOk(books, rotations)
    requires PendingExact(rotations, pending)
    requires o in rotations && !rotations[o].applied && rotations[o].user in users
    ensures var r := rotations[o];
      AccountsOk(users[r.user := users[r.user].(envelope := r.candidate, generation := users[r.user].generation + 1)],
                 books[r.user := books[r.user].(promoted := books[r.user].promoted + [o])],
                 rotations[o := r.(applied := true)], pending - {r.user})
  {
    var r := rotations[o];
    var u := r.user;
    assert u in pending && pending[u] == o;
    hide PendingExact, PromotedOk;
    PromoteAccount(u, users[u], books[u], rotations, pending, o);
    hide AccountOk;
    forall v | v in users && v != u
      ensures AccountOk(v, users[v], books[v], rotations[o := r.(applied := true)], pending - {u})
    {
      OtherAccountStays(v, users[v], books, rotations, pending, o, u);
    }
  }

  lemma PromoteAccount(u: Id, user: User, b: Book, rotations: map<Id, RotationRow>, pending: map<Id, Id>, o: Id)
    requires AccountOk(u, user, b, rotations, pending) && u in pending && pending[u] == o && o in rotations
    requires rotations[o].user == u
    ensures AccountOk(u, user.(envelope := rotations[o].candidate, generation := user.generation + 1),
      b.(promoted := b.promoted + [o]),
                      rotations[o := rotations[o].(applied := true)], pending - {u})
  {
  }

  lemma CompleteHandoffs(users: map<Id, User>, handoffs: map<Id, Handoff>, u: Id, user: User)
    requires HandoffsFresh(users, handoffs)
    ensures HandoffsFresh(users[u := user], RevokeFor(handoffs, u))
  {
  }

  lemma CompleteKeepsInv(s: State, o: Id)
    requires CredentialInv(s)
    ensures CredentialInv(Settle(s, Complete(s, o)))
  {
    if o in s.rotations && !s.rotations[o].applied && s.rotations[o].user in s.users {
      var r := s.rotations[o];
      assert r.user in s.books;
      hide AccountsOk, PendingExact, PromotedOk, HandoffsFresh, RevokeFor;
      CompletePending(s.rotations, s.pending, o);
      CompletePromoted(s.books, s.rotations, o);
      CompleteAccounts(s.users, s.books, s.rotations, s.pending, o);
      CompleteHandoffs(s.users, s.handoffs, r.user,
        s.users[r.user].(envelope := r.candidate, generation := s.users[r.user].generation + 1));
    }
  }

  lemma AddAccounts(users: map<Id, User>, books: map<Id, Book>, rotations: map<Id, RotationRow>, pending: map<Id, Id>,
                    u: Id, envelope: Id)
    requires AccountsOk(users, books, rotations, pending) && u !in users
    ensures AccountsOk(users[u := User(envelope, 1, UserPending)], books[u := Book(envelope, [], [])],
                       rotations, pending)
  {
    hide Owed;
    assert AccountOk(u, User(envelope, 1, UserPending), Book(envelope, [], []), rotations, pending) by {
      NothingOwedYet(envelope, rotations);
    }
  }

  lemma NothingOwedYet(envelope: Id, rotations: map<Id, RotationRow>)
    ensures Owed(Book(envelope, [], []), rotations) == Some(envelope)
  {
  }

  lemma MoveAccounts(s: State, u: Id, step: Step)
    requires AccountsOk(s.users, s.books, s.rotations, s.pending) && u in s.users
    requires step.ActivateUser? || step.PrepareDeletion? || step.CompleteDeletion?
    requires step.user == u
    ensures AccountsOk(WithStatus(s, u, step).users, s.books, s.rotations, s.pending)
  {
    hide Owed;
    assert AccountOk(u, s.users[u], s.books[u], s.rotations, s.pending);
  }

  lemma UserStepKeepsInv(s: State, step: Step)
    requires CredentialInv(s)
    requires step.AddUser? || step.ActivateUser? || step.PrepareDeletion? || step.CompleteDeletion?
    ensures CredentialInv(Next(s, step))
  {
    hide AccountsOk, PendingExact, PromotedOk, HandoffsFresh;
    if step.AddUser? && step.user !in s.users && step.user !in s.books {
      AddAccounts(s.users, s.books, s.rotations, s.pending, step.user, step.envelope);
      AddUserKeepsOthers(s, step.user, User(step.envelope, 1, UserPending), Book(step.envelope, [], []));
    } else if !step.AddUser? && step.user in s.users {
      MoveAccounts(s, step.user, step);
      SameGenerationKeepsFresh(s.users, s.handoffs, step.user, Moved(s, s.users[step.user], step));
    }
  }

  lemma AddUserKeepsOthers(s: State, u: Id, user: User, b: Book)
    requires PromotedOk(s.books, s.rotations) && HandoffsFresh(s.users, s.handoffs) && u !in s.users && u !in s.books
    requires b.promoted == []
    ensures PromotedOk(s.books[u := b], s.rotations) && HandoffsFresh(s.users[u := user], s.handoffs)
  {
  }

  lemma SameGenerationKeepsFresh(users: map<Id, User>, handoffs: map<Id, Handoff>, u: Id, user: User)
    requires HandoffsFresh(users, handoffs) && u in users && user.generation == users[u].generation
    ensures HandoffsFresh(users[u := user], handoffs)
  {
  }

  lemma HandoffStepKeepsInv(s: State, step: Step)
    requires CredentialInv(s) && (step.IssueStep? || step.RedeemStep?)
    ensures CredentialInv(Next(s, step))
  {
    hide AccountsOk, PendingExact, PromotedOk;
  }

  lemma OtherRequestKeepsInv(s: State, step: Step)
    requires CredentialInv(s) && step.OtherRequest?
    ensures CredentialInv(Next(s, step))
  {
    hide AccountsOk, PendingExact, PromotedOk, HandoffsFresh;
  }

  lemma NextKeepsInv(s: State, step: Step)
    requires CredentialInv(s)
    ensures CredentialInv(Next(s, step))
  {
    hide CredentialInv, Prepare, Complete;
    match step
    case PrepareStep(u, o, key, actor, candidate) => PrepareKeepsInv(s, u, o, key, actor, candidate);
    case CompleteStep(o) => CompleteKeepsInv(s, o);
    case OtherRequest(_, _, _) => OtherRequestKeepsInv(s, step);
    case AddUser(_, _) => UserStepKeepsInv(s, step);
    case ActivateUser(_) => UserStepKeepsInv(s, step);
    case PrepareDeletion(_, _) => UserStepKeepsInv(s, step);
    case CompleteDeletion(_) => UserStepKeepsInv(s, step);
    case IssueStep(_, _, _, _, _) => HandoffStepKeepsInv(s, step);
    case RedeemStep(_, _, _) => HandoffStepKeepsInv(s, step);
  }

  /**
   In every reachable state a user's generation is one more than the promotions made, the
   credential is the last promoted candidate, or blank if the user was deleted, promotions happened
   in the order of preparation with at most one rotation outstanding, and issued handoffs belong to
   the present generation.
   */
  lemma {:induction false} CredentialsFollowTheBook(steps: seq<Step>)
    ensures CredentialInv(Run(steps))
  {
    hide Next;
    if steps != [] {
      hide CredentialInv;
      CredentialsFollowTheBook(steps[..|steps| - 1]);
      NextKeepsInv(Run(steps[..|steps| - 1]), steps[|steps| - 1]);
    }
  }

  /** A prepared rotation can always be promoted: its user is neither gone nor on the way. */
  lemma PreparedRotationsComplete(steps: seq<Step>, o: Id)
    requires o in Run(steps).rotations
    ensures Complete(Run(steps), o).Done?
  {
    CredentialsFollowTheBook(steps);
    var s := Run(steps);
    hide Run;
    if !s.rotations[o].applied {
      var u := s.rotations[o].user;
      assert AccountOk(u, s.users[u], s.books[u], s.rotations, s.pending);
    }
  }

  lemma NextKeepsDeleted(s: State, step: Step, u: Id)
    requires u in s.users && s.users[u].status == UserDeleted
    ensures u in Next(s, step).users && Next(s, step).users[u] == s.users[u]
  {
  }

  /** Over any run a deleted user stays deleted, and its credential blank. */
  lemma {:induction false} DeletionIsFinal(steps: seq<Step>, n: nat, u: Id)
    requires n <= |steps| && u in Run(steps[..n]).users && Run(steps[..n]).users[u].status == UserDeleted
    ensures u in Run(steps).users && Run(steps).users[u] == Run(steps[..n]).users[u]
    ensures Run(steps).users[u].envelope == BLANK
    decreases |steps|
  {
    hide Next;
    if n == |steps| {
      assert steps[..n] == steps;
      CredentialsFollowTheBook(steps);
      assert AccountOk(u, Run(steps).users[u], Run(steps).books[u], Run(steps).rotations, Run(steps).pending);
    } else {
      var front := steps[..|steps| - 1];
      assert front[..n] == steps[..n];
      DeletionIsFinal(front, n, u);
      NextKeepsDeleted(Run(front), steps[|steps| - 1], u);
    }
  }

  /** Preparing changes no credential and no generation, and leaves every handoff as it is. */
  lemma PreparingChangesNoCredential(s: State, u: Id, o: Id, key: Option<Id>, actor: Id, candidate: Id)
    ensures var s' := Settle(s, Prepare(s, u, o, key, actor, candidate));
      s'.users == s.users && s'.handoffs == s.handoffs
  {
  }

  // ----- Handoffs are single use ------------------------------------------

  /** The credential of a generation according to the book. */
  function OwedAt(b: Book, rotations: map<Id, RotationRow>, generation: int): Option<Id> {
    if 1 <= generation <= 1 + |b.promoted| then Owed(b.(promoted := b.promoted[..generation - 1]), rotations) else None
  }

  /** A redemption before the handoff expired, of the credential of the generation the handoff was issued for. */
  predicate Proper(s: State, r: Redemption) {
    && r.handoff in s.handoffs && s.handoffs[r.handoff].state == Consumed
    && s.handoffs[r.handoff].generation == r.generation && r.at < s.handoffs[r.handoff].expiresAt
    && s.handoffs[r.handoff].user in s.books
    && OwedAt(s.books[s.handoffs[r.handoff].user], s.rotations, r.generation) == Some(r.envelope)
  }

  /** All redemptions are proper, and there is one per handoff. */
  ghost predicate RedemptionsOk(s: State) {
    && (forall i :: 0 <= i < |s.redemptions| ==> Proper(s, s.redemptions[i]))
    && (forall i, j :: 0 <= i < j < |s.redemptions| ==> s.redemptions[i].handoff != s.redemptions[j].handoff)
  }

  ghost predicate ConsumedStay(handoffs: map<Id, Handoff>, handoffs': map<Id, Handoff>) {
    forall h :: h in handoffs && handoffs[h].state == Consumed ==> h in handoffs' && handoffs'[h] == handoffs[h]
  }

  ghost predicate BooksGrow(books: map<Id, Book>, books': map<Id, Book>) {
    forall u :: u in books ==>
      u in books' && books'[u].initial == books[u].initial && books[u].promoted <= books'[u].promoted
  }

  ghost predicate CandidatesStay(rotations: map<Id, RotationRow>, rotations': map<Id, RotationRow>) {
    forall o :: o in rotations ==> o in rotations' && rotations'[o].candidate == rotations[o].candidate
  }

  /** Later transactions leave consumed handoffs, past promotions and their candidates alone. */
  ghost predicate Grows(s: State, s': State) {
    && ConsumedStay(s.handoffs, s'.handoffs) && BooksGrow(s.books, s'.books)
    && CandidatesStay(s.rotations, s'.rotations)
  }

  lemma PrepareGrows(s: State, u: Id, o: Id, key: Option<Id>, actor: Id, candidate: Id)
    ensures Grows(s, Settle(s, Prepare(s, u, o, key, actor, candidate)))
  {
  }

  lemma CompleteGrows(s: State, o: Id)
    ensures Grows(s, Settle(s, Complete(s, o)))
  {
  }

  lemma HandoffGrows(s: State, step: Step)
    requires step.IssueStep? || step.RedeemStep?
    ensures Grows(s, Next(s, step))
  {
    hide Prepare, Complete, WithStatus;
  }

  lemma AddUserGrows(s: State, u: Id, envelope: Id)
    ensures Grows(s, Next(s, AddUser(u, envelope)))
  {
    hide Prepare, Complete, WithStatus, Issue, Redeem;
  }

  lemma SameGrows(s: State, s': State)
    requires s'.handoffs == s.handoffs && s'.books == s.books && s'.rotations == s.rotations
    ensures Grows(s, s')
  {
  }

  lemma NextGrows(s: State, step: Step)
    ensures Grows(s, Next(s, step))
  {
    hide Grows, Prepare, Complete, Moved, Issue, Redeem;
    match step
    case PrepareStep(u, o, key, actor, candidate) => PrepareGrows(s, u, o, key, actor, candidate);
    case CompleteStep(o) => CompleteGrows(s, o);
    case AddUser(u, envelope) => AddUserGrows(s, u, envelope);
    case IssueStep(_, _, _, _, _) => HandoffGrows(s, step);
    case RedeemStep(_, _, _) => HandoffGrows(s, step);
    case _ => SameGrows(s, Next(s, step));
  }

  lemma OnlyRedeemRedeems(s: State, step: Step)
    requires !step.RedeemStep?
    ensures Next(s, step).redemptions == s.redemptions
  {
    hide RevokeFor, Issue, Moved;
  }

  lemma GrowsKeepsProper(s: State, s': State, r: Redemption)
    requires Grows(s, s') && PromotedOk(s.books, s.rotations) && Proper(s, r)
    ensures Proper(s', r)
  {
    var u := s.handoffs[r.handoff].user;
    var b, b' := s.books[u], s'.books[u];
    var n := r.generation - 1;
    assert b.promoted[..n] == b'.promoted[..n];
    if n > 0 {
      assert b.promoted[n - 1] in b.promoted;
    }
  }

  lemma RedeemIsProper(s: State, h: Id, now: int, allowed: bool)
    requires CredentialInv(s) && Redeemable(s, h, now, allowed)
    ensures var s' := Redeem(s, h, now, allowed); Proper(s', s'.redemptions[|s.redemptions|])
  {
    var u := s.handoffs[h].user;
    assert AccountOk(u, s.users[u], s.books[u], s.rotations, s.pending);
    var b := s.books[u];
    assert b.(promoted := b.promoted[..|b.promoted|]) == b;
    hide Owed;
  }

  lemma GrowsKeepsRedemptions(s: State, s': State)
    requires RedemptionsOk(s) && Grows(s, s') && PromotedOk(s.books, s.rotations)
    ensures forall i :: 0 <= i < |s.redemptions| ==> Proper(s', s.redemptions[i])
  {
    forall i | 0 <= i < |s.redemptions| ensures Proper(s', s.redemptions[i]) {
      hide PromotedOk, Grows;
      GrowsKeepsProper(s, s', s.redemptions[i]);
    }
  }

  lemma RedeemKeepsRedemptions(s: State, h: Id, now: int, allowed: bool)
    requires RedemptionsOk(s) && CredentialInv(s) && Redeemable(s, h, now, allowed)
    requires Grows(s, Redeem(s, h, now, allowed))
    ensures RedemptionsOk(Redeem(s, h, now, allowed))
  {
    assert forall i :: 0 <= i < |s.redemptions| ==> s.redemptions[i].handoff != h by {
      assert forall i :: 0 <= i < |s.redemptions| ==> Proper(s, s.redemptions[i]);
    }
    hide AccountsOk, PendingExact, HandoffsFresh, PromotedOk, Grows, Proper, OwedAt;
    GrowsKeepsRedemptions(s, Redeem(s, h, now, allowed));
    RedeemIsProper(s, h, now, allowed);
  }

  lemma NextKeepsRedemptions(s: State, step: Step)
    requires RedemptionsOk(s) && CredentialInv(s)
    ensures RedemptionsOk(Next(s, step))
  {
    NextGrows(s, step);
    hide AccountsOk, PendingExact, HandoffsFresh, PromotedOk, Grows, Proper;
    if step.RedeemStep? {
      if Redeemable(s, step.handoff, step.now, step.allowed) {
        RedeemKeepsRedemptions(s, step.handoff, step.now, step.allowed);
      }
    } else {
      OnlyRedeemRedeems(s, step);
      GrowsKeepsRedemptions(s, Next(s, step));
      hide Next;
    }
  }

  /**
   Over any run each handoff is redeemed at most once and before it expires, and hands out the
   credential of the generation it was issued for.
   */
  lemma {:induction false} HandoffsAreSingleUse(steps: seq<Step>)
    ensures RedemptionsOk(Run(steps))
  {
    hide Next;
    if steps != [] {
      HandoffsAreSingleUse(steps[..|steps| - 1]);
      CredentialsFollowTheBook(steps[..|steps| - 1]);
      hide RedemptionsOk, CredentialInv;
      NextKeepsRedemptions(Run(steps[..|steps| - 1]), steps[|steps| - 1]);
    }
  }

  /** At most one handoff is outstanding per browser session and user. */
  ghost predicate OneIssued(handoffs: map<Id, Handoff>) {
    forall x, y | x in handoffs && y in handoffs && handoffs[x].state == Issued && handoffs[y].state == Issued ::
      handoffs[x].session == handoffs[y].session && handoffs[x].user == handoffs[y].user ==> x == y
  }

  /** Nothing but an issue makes a handoff outstanding. */
  lemma NextKeepsOneIssued(s: State, step: Step)
    requires OneIssued(s.handoffs)
    ensures OneIssued(Next(s, step).handoffs)
  {
  }

  lemma {:induction false} OneHandoffPerSession(steps: seq<Step>)
    ensures OneIssued(Run(steps).handoffs)
  {
    hide Next;
    if steps != [] {
      OneHandoffPerSession(steps[..|steps| - 1]);
      NextKeepsOneIssued(Run(steps[..|steps| - 1]), steps[|steps| - 1]);
    }
  }

  /** Repeating a completed rotation, or a preparation under its key, changes nothing and answers the same operation. */
  lemma RepeatsChangeNothing(s: State, u: Id, o: Id, o': Id, key: Id, actor: Id, candidate: Id, candidate': Id)
    ensures var first := Prepare(s, u, o, Some(key), actor, candidate);
      first.Done? ==> Prepare(first.state, u, o', Some(key), actor, candidate') == Done(first.state, first.operation)
    ensures Complete(s, o).Done? ==> Complete(Complete(s, o).state, o) == Done(Complete(s, o).state, o)
  {
  }

  // ----- When steps take effect -------------------------------------------

  /** Its key, if it has one, is new, and the user is active with no rotation outstanding. */
  predicate Preparable(s: State, u: Id, o: Id, key: Option<Id>) {
    && !(key.Some? && key.value in s.requests)
    && u in s.users && s.users[u].status == UserActive && u !in s.pending && o !in s.rotations
  }

  /**
   After any run, a preparation is answered as done if and only if it repeats a request of the same
   actor for the same user, which changes nothing, or the user is active with nothing outstanding. It
   then adds the candidate as the user's one outstanding rotation and remembers the key.
   */
  lemma PreparationIsExact(steps: seq<Step>, u: Id, o: Id, key: Option<Id>, actor: Id, candidate: Id)
    ensures var s := Run(steps);
      var answer := Prepare(s, u, o, key, actor, candidate);
      var repeated := key.Some? && key.value in s.requests
        && s.requests[key.value].user == Some(u) && s.requests[key.value].actor == actor;
      && (answer.Done? <==> repeated || Preparable(s, u, o, key))
      && (repeated ==> answer == Done(s, s.requests[key.value].operation))
      && (Preparable(s, u, o, key) ==>
            var s' := answer.state;
            && answer.operation == o && s'.users == s.users && s'.handoffs == s.handoffs
            && s'.rotations == s.rotations[o := RotationRow(u, candidate, false)]
            && s'.pending == s.pending[u := o]
            && s'.requests == if key.Some? then s.requests[key.value := Request(o, Some(u), actor)] else s.requests)
  {
    CredentialsFollowTheBook(steps);
    hide Run, PendingExact, PromotedOk, HandoffsFresh, AccountOk;
  }

  /** After any run, completing an outstanding rotation promotes its candidate and revokes the user's handoffs. */
  lemma PromotionIsExact(steps: seq<Step>, o: Id)
    requires o in Run(steps).rotations && !Run(steps).rotations[o].applied
    ensures Complete(Run(steps), o).Done?
    ensures var s := Run(steps);
      var s', r := Complete(s, o).state, s.rotations[o];
      && r.user in s.users
      && s'.users == s.users[r.user := User(r.candidate, s.users[r.user].generation + 1, UserActive)]
      && s'.rotations == s.rotations[o := r.(applied := true)] && r.user !in s'.pending
      && (forall h :: h in s.handoffs <==> h in s'.handoffs)
      && (forall h :: h in s.handoffs ==>
            s'.handoffs[h] == if s.handoffs[h].user == r.user && s.handoffs[h].state == Issued
                              then s.handoffs[h].(state := Revoked) else s.handoffs[h])
  {
    PreparedRotationsComplete(steps, o);
    hide Run;
  }

  /**
   A handoff is issued if and only if the caller may and the user is active, for half a minute and the
   present generation, in place of the session's others for the user; it is redeemed if and only if it
   is outstanding, unexpired and still allowed for an active user.
   */
  lemma HandoffsAreExact(s: State, h: Id, u: Id, session: Id, now: int, allowed: bool)
    requires h !in s.handoffs
    ensures var s' := Next(s, IssueStep(h, u, session, now, allowed));
      && (h in s'.handoffs <==> allowed && u in s.users && s.users[u].status == UserActive)
      && (h !in s'.handoffs ==> s' == s)
      && (h in s'.handoffs ==>
            && s'.handoffs[h] == Handoff(u, session, now + MINUTE / 2, s.users[u].generation, Issued)
            && forall x :: x in s.handoffs ==>
                 && x in s'.handoffs
                 && s'.handoffs[x] ==
                    if s.handoffs[x].session == session && s.handoffs[x].user == u && s.handoffs[x].state == Issued
                    then s.handoffs[x].(state := Revoked) else s.handoffs[x])
  {
  }

  lemma RedemptionIsExact(s: State, h: Id, now: int, allowed: bool)
    ensures var s' := Next(s, RedeemStep(h, now, allowed));
      var redeemable := allowed && h in s.handoffs && s.handoffs[h].state == Issued && now < s.handoffs[h].expiresAt
        && s.handoffs[h].user in s.users && s.users[s.handoffs[h].user].status == UserActive;
      if redeemable
      then var u := s.users[s.handoffs[h].user];
           s' == s.(handoffs := s.handoffs[h := s.handoffs[h].(state := Consumed)],
                    redemptions := s.redemptions + [Redemption(h, u.envelope, u.generation, now)])
      else s' == s
  {
  }

  /** The life of a user's row: each step moves it on from its own status, deletion only without grants or rotations. */
  lemma UserStepsAreExact(s: State, u: Id, granted: bool)
    requires u in s.users
    ensures Next(s, ActivateUser(u)).users ==
      if s.users[u].status == UserPending then s.users[u := s.users[u].(status := UserActive)] else s.users
    ensures Next(s, PrepareDeletion(u, granted)).users ==
      if s.users[u].status == UserActive && !granted && u !in s.pending
      then s.users[u := s.users[u].(status := UserDeleting)] else s.users
    ensures Next(s, CompleteDeletion(u)).users ==
      if s.users[u].status == UserDeleting
      then s.users[u := User(BLANK, s.users[u].generation, UserDeleted)] else s.users
  {
  }

  // ----- The promoting transaction ----------------------------------------

  class Repository {
    var tables: State

    constructor ()
      ensures tables == EMPTY
    {
      tables := EMPTY;
    }

    /** Stores a candidate beside the credential, or answers the operation a repeated key stands for. */
    method PrepareRotation(user: Id, operation: Id, key: Option<Id>, actor: Id, candidate: Id)
                           returns (answer: Option<Id>, error: Error)
      modifies this
      ensures tables == Settle(old(tables), Prepare(old(tables), user, operation, key, actor, candidate))
      ensures match Prepare(old(tables), user, operation, key, actor, candidate)
        case Done(_, o) => answer == Some(o)
        case Refused(e) => answer == None && error == e
    {
      answer, error := None, Conflict;
      if key.Some? && key.value in tables.requests {
        var existing := tables.requests[key.value];
        if existing.user == Some(user) && existing.actor == actor {
          answer := Some(existing.operation);
        }
        return;
      }
      if user !in tables.users || user !in tables.books {
        return None, NotFound;
      }
      if tables.users[user].status != UserActive || operation in tables.rotations || user in tables.pending {
        return;
      }
      tables := tables.(rotations := tables.rotations[operation := RotationRow(user, candidate, false)]);
      tables := tables.(pending := tables.pending[user := operation]);
      if key.Some? {
        tables := tables.(requests := tables.requests[key.value := Request(operation, Some(user), actor)]);
      }
      tables :=
        tables.(books :=
        tables.books[user := tables.books[user].(prepared := tables.books[user].prepared + [operation])]);
      answer := Some(operation);
    }

    /** Promotes a candidate after the host was changed; safe to call again. */
    method CompleteRotation(operation: Id) returns (error: Option<Error>)
      modifies this
      ensures tables == Settle(old(tables), Complete(old(tables), operation))
      ensures error == match Complete(old(tables), operation) case Done(_, _) => None case Refused(e) => Some(e)
    {
      if operation !in tables.rotations {
        return Some(NotFound);
      }
      var r := tables.rotations[operation];
      if r.applied {
        return None;
      }
      if r.user !in tables.users || tables.users[r.user].status != UserActive || r.user !in tables.books {
        return Some(Conflict);
      }
      var user := tables.users[r.user];
      tables :=
        tables.(users := tables.users[r.user := user.(envelope := r.candidate, generation := user.generation + 1)]);
      tables := tables.(handoffs := RevokeFor(tables.handoffs, r.user));
      tables :=
        tables.(rotations := tables.rotations[operation := r.(applied := true)], pending := tables.pending - {r.user});
      tables :=
        tables.(books :=
        tables.books[r.user := tables.books[r.user].(promoted := tables.books[r.user].promoted + [operation])]);
      error := None;
    }
  }
}
