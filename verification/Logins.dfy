/**
 Password and second-factor logins as interleaved transactions.

 A client loads a credential and checks the password against it outside any transaction;
 committing the login is a separate transaction that re-validates what was loaded. Password
 changes, factor changes and other logins may come in between.
 */
module Logins {
  import opened Base

  const MAX_ATTEMPTS := 5
  const CHALLENGE_TTL: int := 300_000_000_000

  /** `credential` stands for hash, salt and parameters together; `factor` is the active TOTP factor. */
  datatype IdentityRow = IdentityRow(active: bool, credential: Option<Id>, factor: Option<Id>)

  /** How a session came about; kept to state what it was verified with. */
  datatype Origin = ByPassword(credential: Id) | ByFactor(challenge: Id, factor: Id) | Direct

  datatype SessionRow = SessionRow(identity: Id, origin: Origin, revoked: bool)
  datatype Challenge = Challenge(identity: Id, expiresAt: int, attempts: nat, consumed: bool, previous: Option<Id>)
  datatype Factor = Factor(lastUsed: Option<int>, recovery: set<Id>)

  /** A code that matches the factor at some time step, one recovery code, or neither. */
  datatype Code = Totp(counter: int) | Recovery(code: Id) | NoMatch

  datatype Candidate = Candidate(identity: Id, credential: Id)

  /** `used` lists the codes that were accepted, oldest first. */
  datatype State = State(
    identities: map<Id, IdentityRow>,
    sessions: map<Id, SessionRow>,
    challenges: map<Id, Challenge>,
    factors: map<Id, Factor>,
    loaded: map<Id, Candidate>,
    used: seq<(Id, Code)>)

  const EMPTY := State(map[], map[], map[], map[], map[], [])

  // ----- Transactions -----------------------------------------------------

  function RevokeAll(sessions: map<Id, SessionRow>, identity: Id): map<Id, SessionRow> {
    map x | x in sessions :: if sessions[x].identity == identity then sessions[x].(revoked := true) else sessions[x]
  }

  function ConsumeAll(challenges: map<Id, Challenge>, identity: Id): map<Id, Challenge> {
    map x | x in challenges ::
      if challenges[x].identity == identity then challenges[x].(consumed := true) else challenges[x]
  }

  function RevokeOne(sessions: map<Id, SessionRow>, x: Option<Id>): map<Id, SessionRow> {
    if x.Some? && x.value in sessions then sessions[x.value := sessions[x.value].(revoked := true)] else sessions
  }

  predicate Revalidates(s: State, c: Candidate) {
    c.identity in s.identities && s.identities[c.identity].active &&
      s.identities[c.identity].credential == Some(c.credential)
  }

  /** The previous session, if it still is an unrevoked session of this identity. */
  function ResolvePrevious(s: State, identity: Id, previous: Option<Id>): Option<Id> {
    if previous.Some? && previous.value in s.sessions && s.sessions[previous.value].identity == identity &&
      !s.sessions[previous.value].revoked
    then previous else None
  }

  function CommitLogin(s: State, client: Id, sessionId: Id, challengeId: Id, previous: Option<Id>, now: int): State {
    if client !in s.loaded then s
    else
      var c := s.loaded[client];
      if !Revalidates(s, c) then s
      else if s.identities[c.identity].factor.Some? then
        if challengeId in s.challenges then s
        else s.(challenges := ConsumeAll(s.challenges, c.identity)
                  [challengeId :=
                    Challenge(c.identity, now + CHALLENGE_TTL, 0, false, ResolvePrevious(s, c.identity, previous))])
      else if sessionId in s.sessions then s
      else s.(sessions :=
        RevokeOne(s.sessions, previous)[sessionId := SessionRow(c.identity, ByPassword(c.credential), false)])
  }

  /** Whether the factor accepts the code, and the factor afterwards. */
  function Verify(f: Factor, code: Code): Option<Factor> {
    match code
    case Totp(n) => if f.lastUsed.None? || f.lastUsed.value < n then Some(f.(lastUsed := Some(n))) else None
    case Recovery(r) => if r in f.recovery then Some(f.(recovery := f.recovery - {r})) else None
    case NoMatch => None
  }

  function Consume(s: State, challenge: Id): State
    requires challenge in s.challenges
  {
    s.(challenges := s.challenges[challenge := s.challenges[challenge].(consumed := true)])
  }

  /** One more failed code; the fifth uses the challenge up. */
  function FailAttempt(s: State, challenge: Id): State
    requires challenge in s.challenges
  {
    var c := s.challenges[challenge];
    s.(challenges :=
      s.challenges[challenge :=
      c.(attempts := c.attempts + 1, consumed := c.consumed || c.attempts + 1 >= MAX_ATTEMPTS)])
  }

  /** `limited`: the identity's failure limiter refuses the attempt. */
  function CompleteLogin(s: State, challenge: Id, sessionId: Id, code: Code, limited: bool, now: int): State {
    if !(challenge in s.challenges && !s.challenges[challenge].consumed) then s
    else
      var c := s.challenges[challenge];
      if c.identity !in s.identities || limited then s
      else if !s.identities[c.identity].active || !(c.expiresAt > now) || c.attempts >= MAX_ATTEMPTS
        then Consume(s, challenge)
      else
        var factor := s.identities[c.identity].factor;
        if factor.None? || factor.value !in s.factors then Consume(s, challenge)
        else match Verify(s.factors[factor.value], code)
          case None => FailAttempt(s, challenge)
          case Some(f) =>
            if sessionId in s.sessions then s
            else s.(
              challenges := Consume(s, challenge).challenges,
              sessions := RevokeOne(s.sessions, ResolvePrevious(s, c.identity, c.previous))
                [sessionId := SessionRow(c.identity, ByFactor(challenge, factor.value), false)],
              factors := s.factors[factor.value := f],
              used := s.used + [(factor.value, code)])
  }

  datatype Step =
    | AddIdentity(identity: Id)
    | SetActive(identity: Id, active: bool)
    | SetCredential(identity: Id, credential: Id)
    | ActivateFactor(identity: Id, factor: Id, counter: int, recovery: set<Id>)
    | BeginEnrollment(identity: Id, code: Code)
    | DisableFactor(identity: Id, code: Code)
    | Load(client: Id, identity: Id)
    | Commit(client: Id, sessionId: Id, challengeId: Id, previous: Option<Id>, now: int)
    | Complete(challenge: Id, sessionId: Id, code: Code, limited: bool, now: int)
    | CreateSession(identity: Id, sessionId: Id)
    | Revoke(sessionId: Id)

  function SetFactor(s: State, identity: Id, factor: Option<Id>): State
    requires identity in s.identities
  {
    s.(identities := s.identities[identity := s.identities[identity].(factor := factor)],
       sessions := RevokeAll(s.sessions, identity))
  }

  /** Starting a replacement spends a code of the active factor; without one there is nothing to spend. */
  function Begin(s: State, identity: Id, code: Code): State {
    if !(identity in s.identities && s.identities[identity].factor.Some? &&
      s.identities[identity].factor.value in s.factors) then s
    else
      var factor := s.identities[identity].factor.value;
      match Verify(s.factors[factor], code)
      case None => s
      case Some(f) => s.(factors := s.factors[factor := f], used := s.used + [(factor, code)])
  }

  function Disable(s: State, identity: Id, code: Code): State {
    if !(identity in s.identities && s.identities[identity].factor.Some? &&
      s.identities[identity].factor.value in s.factors) then s
    else
      var factor := s.identities[identity].factor.value;
      match Verify(s.factors[factor], code)
      case None => s
      case Some(f) =>
        SetFactor(s, identity, None).(factors := s.factors[factor := f], used := s.used + [(factor, code)])
  }

  function Next(s: State, step: Step): State {
    match step
    case AddIdentity(i) =>
      if i in s.identities then s else s.(identities := s.identities[i := IdentityRow(true, None, None)])
    case SetActive(i, active) =>
      if i !in s.identities then s else s.(identities := s.identities[i := s.identities[i].(active := active)])
    case SetCredential(i, credential) =>
      if i !in s.identities then s
      else s.(identities := s.identities[i := s.identities[i].(credential := Some(credential))],
        sessions := RevokeAll(s.sessions, i))
    case ActivateFactor(i, factor, counter, recovery) =>
      if i !in s.identities || factor in s.factors then s
      else SetFactor(s, i, Some(factor)).(
        factors := s.factors[factor := Factor(Some(counter), recovery)], used := s.used + [(factor, Totp(counter))])
    case BeginEnrollment(i, code) => Begin(s, i, code)
    case DisableFactor(i, code) => Disable(s, i, code)
    case Load(client, i) =>
      if i in s.identities && s.identities[i].active && s.identities[i].credential.Some?
      then s.(loaded := s.loaded[client := Candidate(i, s.identities[i].credential.value)]) else s
    case Commit(client, sessionId, challengeId, previous, now) =>
      CommitLogin(s, client, sessionId, challengeId, previous, now)
    case Complete(challenge, sessionId, code, limited, now) =>
      CompleteLogin(s, challenge, sessionId, code, limited, now)
    case CreateSession(i, x) =>
      if i !in s.identities || x in s.sessions then s else s.(sessions := s.sessions[x := SessionRow(i, Direct, false)])
    case Revoke(x) => s.(sessions := RevokeOne(s.sessions, Some(x)))
  }

  function Run(steps: seq<Step>): State {
    if steps == [] then EMPTY else Next(Run(steps[..|steps| - 1]), steps[|steps| - 1])
  }

  // ----- Sessions rest on what is current ---------------------------------

  /**
   An unrevoked password session was verified with the identity's present credential and the
   identity has no second factor; an unrevoked second-factor session was verified with the
   present factor.
   */
  predicate Current(identities: map<Id, IdentityRow>, row: SessionRow) {
    !row.revoked ==>
      && row.identity in identities
      && match row.origin
         case ByPassword(credential) =>
           identities[row.identity].credential == Some(credential) && identities[row.identity].factor.None?
         case ByFactor(_, factor) => identities[row.identity].factor == Some(factor)
         case Direct => true
  }

  ghost predicate SessionsCurrent(identities: map<Id, IdentityRow>, sessions: map<Id, SessionRow>) {
    forall x :: x in sessions ==> Current(identities, sessions[x])
  }

  /** After changing an identity's row and revoking its sessions nothing stale is left. */
  lemma RevokeAllKeepsCurrent(identities: map<Id, IdentityRow>, sessions: map<Id, SessionRow>, identity: Id,
                              row: IdentityRow)
    requires SessionsCurrent(identities, sessions)
    ensures SessionsCurrent(identities[identity := row], RevokeAll(sessions, identity))
  {
  }

  lemma RevokeOneKeepsCurrent(identities: map<Id, IdentityRow>, sessions: map<Id, SessionRow>, x: Option<Id>)
    requires SessionsCurrent(identities, sessions)
    ensures SessionsCurrent(identities, RevokeOne(sessions, x))
  {
  }

  lemma NextKeepsCurrent(s: State, step: Step)
    requires SessionsCurrent(s.identities, s.sessions)
    ensures SessionsCurrent(Next(s, step).identities, Next(s, step).sessions)
  {
    match step
    case SetCredential(i, credential) =>
      if i in s.identities {
        RevokeAllKeepsCurrent(s.identities, s.sessions, i, s.identities[i].(credential := Some(credential)));
      }
    case ActivateFactor(i, factor, _, _) =>
      if i in s.identities {
        RevokeAllKeepsCurrent(s.identities, s.sessions, i, s.identities[i].(factor := Some(factor)));
      }
    case DisableFactor(i, _) =>
      if i in s.identities { RevokeAllKeepsCurrent(s.identities, s.sessions, i, s.identities[i].(factor := None)); }
    case Commit(_, _, _, previous, _) => RevokeOneKeepsCurrent(s.identities, s.sessions, previous);
    case Complete(challenge, _, _, _, _) =>
      if challenge in s.challenges {
        var c := s.challenges[challenge];
        RevokeOneKeepsCurrent(s.identities, s.sessions, ResolvePrevious(s, c.identity, c.previous));
      }
    case _ =>
  }

  /** No interleaving of logins, password changes and factor changes leaves a stale session behind. */
  lemma {:induction false} NoStaleSession(steps: seq<Step>)
    ensures SessionsCurrent(Run(steps).identities, Run(steps).sessions)
  {
    hide Next, Current;
    if steps != [] {
      NoStaleSession(steps[..|steps| - 1]);
      NextKeepsCurrent(Run(steps[..|steps| - 1]), steps[|steps| - 1]);
    }
  }

  // ----- Challenges -------------------------------------------------------

  ghost predicate OneOpen(challenges: map<Id, Challenge>) {
    forall x, y | x in challenges && y in challenges && !challenges[x].consumed && !challenges[y].consumed ::
      challenges[x].identity == challenges[y].identity ==> x == y
  }

  /** Five failures use a challenge up. */
  ghost predicate AttemptsBounded(challenges: map<Id, Challenge>) {
    forall x :: x in challenges ==>
      challenges[x].attempts <= MAX_ATTEMPTS && (challenges[x].attempts == MAX_ATTEMPTS ==> challenges[x].consumed)
  }

  predicate CameFrom(row: SessionRow, challenge: Id) {
    row.origin.ByFactor? && row.origin.challenge == challenge
  }

  /** A challenge that led to a session is used up, and led to no other. */
  ghost predicate OneSessionEach(sessions: map<Id, SessionRow>, challenges: map<Id, Challenge>) {
    && (forall x :: x in sessions && sessions[x].origin.ByFactor? ==>
          sessions[x].origin.challenge in challenges && challenges[sessions[x].origin.challenge].consumed)
    && (forall x, y, c :: x in sessions && y in sessions && CameFrom(sessions[x], c) && CameFrom(sessions[y], c) ==>
      x == y)
  }

  ghost predicate ChallengeInv(s: State) {
    OneOpen(s.challenges) && AttemptsBounded(s.challenges) && OneSessionEach(s.sessions, s.challenges)
  }

  lemma SameOriginsKeepOneEach(sessions: map<Id, SessionRow>, sessions': map<Id, SessionRow>,
                               challenges: map<Id, Challenge>)
    requires OneSessionEach(sessions, challenges)
    requires forall x :: x in sessions' ==>
      (x in sessions && sessions'[x].origin == sessions[x].origin) || !sessions'[x].origin.ByFactor?
    ensures OneSessionEach(sessions', challenges)
  {
    forall x, y, c | x in sessions' && y in sessions' && CameFrom(sessions'[x], c) &&
      CameFrom(sessions'[y], c) ensures x == y {
      assert CameFrom(sessions[x], c) && CameFrom(sessions[y], c);
    }
  }

  /** Consuming more and adding an open challenge under a new name keeps the count. */
  lemma MoreConsumedKeepsOneEach(sessions: map<Id, SessionRow>, challenges: map<Id, Challenge>,
                                 challenges': map<Id, Challenge>)
    requires OneSessionEach(sessions, challenges)
    requires forall x :: x in challenges ==> x in challenges' && (challenges[x].consumed ==> challenges'[x].consumed)
    ensures OneSessionEach(sessions, challenges')
  {
  }

  lemma IssueKeepsBounds(challenges: map<Id, Challenge>, c: Id, row: Challenge)
    requires OneOpen(challenges) && AttemptsBounded(challenges) && c !in challenges && row.attempts == 0
    ensures OneOpen(ConsumeAll(challenges, row.identity)[c := row])
    ensures AttemptsBounded(ConsumeAll(challenges, row.identity)[c := row])
  {
  }

  /** Counting an attempt or consuming a challenge. */
  lemma UpdateKeepsBounds(challenges: map<Id, Challenge>, c: Id, row: Challenge)
    requires OneOpen(challenges) && AttemptsBounded(challenges) && c in challenges
    requires row.identity == challenges[c].identity
    requires challenges[c].consumed ==> row.consumed
    requires row.attempts <= MAX_ATTEMPTS && (row.attempts == MAX_ATTEMPTS ==> row.consumed)
    ensures OneOpen(challenges[c := row]) && AttemptsBounded(challenges[c := row])
  {
  }

  lemma CommitKeepsChallenges(s: State, client: Id, sessionId: Id, challengeId: Id, previous: Option<Id>, now: int)
    requires ChallengeInv(s)
    ensures ChallengeInv(CommitLogin(s, client, sessionId, challengeId, previous, now))
  {
    var s' := CommitLogin(s, client, sessionId, challengeId, previous, now);
    hide OneOpen, AttemptsBounded, OneSessionEach, ResolvePrevious;
    if client in s.loaded && Revalidates(s, s.loaded[client]) {
      var c := s.loaded[client];
      if s.identities[c.identity].factor.Some? {
        if challengeId !in s.challenges {
          IssueKeepsBounds(s.challenges, challengeId,
            Challenge(c.identity, now + CHALLENGE_TTL, 0, false, ResolvePrevious(s, c.identity, previous)));
          MoreConsumedKeepsOneEach(s.sessions, s.challenges, s'.challenges);
        }
      } else if sessionId !in s.sessions {
        SameOriginsKeepOneEach(s.sessions, s'.sessions, s.challenges);
      }
    }
  }

  /** The accepted code: the session is new under a challenge that was still open. */
  lemma AcceptKeepsOneEach(sessions: map<Id, SessionRow>, challenges: map<Id, Challenge>, x: Id, row: SessionRow, c: Id)
    requires OneSessionEach(sessions, challenges) && c in challenges && !challenges[c].consumed
    requires x !in sessions && CameFrom(row, c)
    ensures OneSessionEach(sessions[x := row], challenges[c := challenges[c].(consumed := true)])
  {
  }

  lemma CompleteKeepsChallenges(s: State, challenge: Id, sessionId: Id, code: Code, limited: bool, now: int)
    requires ChallengeInv(s)
    ensures ChallengeInv(CompleteLogin(s, challenge, sessionId, code, limited, now))
  {
    var s' := CompleteLogin(s, challenge, sessionId, code, limited, now);
    assert AttemptsBounded(s.challenges);
    if challenge in s.challenges && s' != s {
      var c := s.challenges[challenge];
      assert s'.challenges == s.challenges[challenge := s'.challenges[challenge]];
      assert c.attempts < MAX_ATTEMPTS;
      hide OneOpen, AttemptsBounded, OneSessionEach, ResolvePrevious, Verify;
      UpdateKeepsBounds(s.challenges, challenge, s'.challenges[challenge]);
      if s'.sessions == s.sessions {
        MoreConsumedKeepsOneEach(s.sessions, s.challenges, s'.challenges);
      } else {
        var rotated := RevokeOne(s.sessions, ResolvePrevious(s, c.identity, c.previous));
        SameOriginsKeepOneEach(s.sessions, rotated, s.challenges);
        AcceptKeepsOneEach(rotated, s.challenges, sessionId, s'.sessions[sessionId], challenge);
      }
    }
  }

  lemma NextKeepsChallenges(s: State, step: Step)
    requires ChallengeInv(s)
    ensures ChallengeInv(Next(s, step))
  {
    hide OneOpen, AttemptsBounded, OneSessionEach;
    match step
    case Commit(client, sessionId, challengeId, previous, now) =>
      CommitKeepsChallenges(s, client, sessionId, challengeId, previous, now);
    case Complete(challenge, sessionId, code, limited, now) =>
      CompleteKeepsChallenges(s, challenge, sessionId, code, limited, now);
    case _ =>
      hide CommitLogin, CompleteLogin, Verify;
      SameOriginsKeepOneEach(s.sessions, Next(s, step).sessions, s.challenges);
  }

  /** At most one open challenge per identity, at most five attempts and at most one session each. */
  lemma {:induction false} ChallengesStayBounded(steps: seq<Step>)
    ensures ChallengeInv(Run(steps))
  {
    hide Next;
    if steps != [] {
      ChallengesStayBounded(steps[..|steps| - 1]);
      NextKeepsChallenges(Run(steps[..|steps| - 1]), steps[|steps| - 1]);
    }
  }

  // ----- Codes are good for one use ---------------------------------------

  /** The factor would no longer accept the code. */
  predicate Spent(factors: map<Id, Factor>, factor: Id, code: Code) {
    factor in factors && Verify(factors[factor], code).None?
  }

  ghost predicate CodesSpent(s: State) {
    && (forall k :: 0 <= k < |s.used| ==> Spent(s.factors, s.used[k].0, s.used[k].1))
    && (forall i, j :: 0 <= i < j < |s.used| ==> s.used[i] != s.used[j])
  }

  /** Accepting one code never revives another. */
  lemma VerifyKeepsSpent(f: Factor, code: Code, f': Factor, other: Code)
    requires Verify(f, code) == Some(f')
    ensures Verify(f', code).None? && (Verify(f, other).None? ==> Verify(f', other).None?)
  {
  }

  lemma UseKeepsSpent(s: State, s': State, factor: Id, code: Code)
    requires CodesSpent(s) && factor in s.factors && Verify(s.factors[factor], code).Some?
    requires s'.factors == s.factors[factor := Verify(s.factors[factor], code).value]
    requires s'.used == s.used + [(factor, code)]
    ensures CodesSpent(s')
  {
    var f, f' := s.factors[factor], Verify(s.factors[factor], code).value;
    forall k | 0 <= k < |s'.used| ensures Spent(s'.factors, s'.used[k].0, s'.used[k].1) {
      VerifyKeepsSpent(f, code, f', s'.used[k].1);
      assert k < |s.used| ==> Spent(s.factors, s.used[k].0, s.used[k].1);
    }
  }

  /** The code that activates a factor is spent with it. */
  lemma ActivationKeepsSpent(s: State, s': State, factor: Id, counter: int, recovery: set<Id>)
    requires CodesSpent(s) && factor !in s.factors
    requires s'.factors == s.factors[factor := Factor(Some(counter), recovery)]
    requires s'.used == s.used + [(factor, Totp(counter))]
    ensures CodesSpent(s')
  {
    forall k | 0 <= k < |s'.used| ensures Spent(s'.factors, s'.used[k].0, s'.used[k].1) {
      assert k < |s.used| ==> Spent(s.factors, s.used[k].0, s.used[k].1);
    }
  }

  lemma NextKeepsSpent(s: State, step: Step)
    requires CodesSpent(s)
    ensures CodesSpent(Next(s, step))
  {
    hide Verify, ResolvePrevious, ConsumeAll, RevokeAll, RevokeOne;
    var s' := Next(s, step);
    match step
    case BeginEnrollment(i, code) =>
      if s'.used != s.used { UseKeepsSpent(s, s', s.identities[i].factor.value, code); }
    case DisableFactor(i, code) =>
      if s' != s { UseKeepsSpent(s, s', s.identities[i].factor.value, code); }
    case ActivateFactor(i, factor, counter, recovery) =>
      if s'.used != s.used { ActivationKeepsSpent(s, s', factor, counter, recovery); }
    case Complete(challenge, _, code, _, _) =>
      if s'.used != s.used { UseKeepsSpent(s, s', s.identities[s.challenges[challenge].identity].factor.value, code); }
    case _ =>
  }

  /** Over any run each time step and each recovery code of a factor is accepted at most once. */
  lemma {:induction false} CodesAreSingleUse(steps: seq<Step>)
    ensures CodesSpent(Run(steps))
  {
    hide Next;
    if steps != [] {
      CodesAreSingleUse(steps[..|steps| - 1]);
      NextKeepsSpent(Run(steps[..|steps| - 1]), steps[|steps| - 1]);
    }
  }

  // ----- What is over stays over ------------------------------------------

  ghost predicate Settled(s: State, s': State) {
    && (forall c :: c in s.challenges ==>
          c in s'.challenges && (s.challenges[c].consumed ==> s'.challenges[c].consumed))
    && (forall x :: x in s.sessions ==>
          && x in s'.sessions && s'.sessions[x].identity == s.sessions[x].identity &&
            s'.sessions[x].origin == s.sessions[x].origin
          && (s.sessions[x].revoked ==> s'.sessions[x].revoked))
  }

  lemma CommitSettled(s: State, client: Id, sessionId: Id, challengeId: Id, previous: Option<Id>, now: int)
    ensures Settled(s, CommitLogin(s, client, sessionId, challengeId, previous, now))
  {
    hide ResolvePrevious;
  }

  lemma CompleteSettled(s: State, challenge: Id, sessionId: Id, code: Code, limited: bool, now: int)
    ensures Settled(s, CompleteLogin(s, challenge, sessionId, code, limited, now))
  {
    hide Verify;
  }

  lemma NextSettled(s: State, step: Step)
    ensures Settled(s, Next(s, step))
  {
    match step
    case Commit(client, sessionId, challengeId, previous, now) =>
      hide CommitLogin, Settled;
      CommitSettled(s, client, sessionId, challengeId, previous, now);
    case Complete(challenge, sessionId, code, limited, now) =>
      hide CompleteLogin, Settled;
      CompleteSettled(s, challenge, sessionId, code, limited, now);
    case _ =>
      hide CommitLogin, CompleteLogin, Verify, ResolvePrevious;
  }

  lemma {:induction false} RunSettled(steps: seq<Step>, n: nat)
    requires n <= |steps|
    ensures Settled(Run(steps[..n]), Run(steps))
    decreases |steps|
  {
    hide Next;
    if n == |steps| {
      assert steps[..n] == steps;
    } else {
      var front := steps[..|steps| - 1];
      assert front[..n] == steps[..n];
      RunSettled(front, n);
      NextSettled(Run(front), steps[|steps| - 1]);
    }
  }

  /** A challenge once consumed never again leads anywhere, whatever happened since. */
  lemma ConsumedIsFinal(steps: seq<Step>, n: nat, challenge: Id, sessionId: Id, code: Code, limited: bool, now: int)
    requires n <= |steps| && challenge in Run(steps[..n]).challenges && Run(steps[..n]).challenges[challenge].consumed
    ensures Next(Run(steps), Complete(challenge, sessionId, code, limited, now)) == Run(steps)
  {
    hide Run;
    RunSettled(steps, n);
  }

  // ----- Where sessions come from -----------------------------------------

  /** What the state before the step had to grant for a new session of this row. */
  predicate Earned(s: State, step: Step, row: SessionRow) {
    && row.identity in s.identities && !row.revoked
    && match step
       case Commit(client, _, _, _, _) =>
         && row.origin.ByPassword? && client in s.loaded &&
           s.loaded[client] == Candidate(row.identity, row.origin.credential)
         && Revalidates(s, s.loaded[client]) && s.identities[row.identity].factor.None?
       case Complete(challenge, _, code, limited, now) =>
         && row.origin.ByFactor? && row.origin.challenge == challenge && !limited
         && challenge in s.challenges && s.challenges[challenge].identity == row.identity &&
           !s.challenges[challenge].consumed
         && s.challenges[challenge].expiresAt > now && s.identities[row.identity].active
         && s.identities[row.identity].factor == Some(row.origin.factor)
         && row.origin.factor in s.factors && Verify(s.factors[row.origin.factor], code).Some?
       case CreateSession(i, _) => i == row.identity && row.origin.Direct?
       case _ => false
  }

  /** No step creates a session that was not earned in the state it found. */
  lemma NewSessionIsEarned(s: State, step: Step, x: Id)
    requires x in Next(s, step).sessions && x !in s.sessions
    ensures Earned(s, step, Next(s, step).sessions[x])
  {
    hide Verify;
  }

  /** Step `n` created the session, which it had earned. */
  predicate EarnedAt(steps: seq<Step>, n: nat, x: Id, row: SessionRow)
    requires n < |steps|
  {
    x !in Run(steps[..n]).sessions && Earned(Run(steps[..n]), steps[n], row.(revoked := false))
  }

  /** After any run every session goes back to a step that earned it, for the same identity and in the same way. */
  lemma {:induction false} SessionsAreEarned(steps: seq<Step>, x: Id)
    requires x in Run(steps).sessions
    ensures exists n :: 0 <= n < |steps| && EarnedAt(steps, n, x, Run(steps).sessions[x])
  {
    var front, last := steps[..|steps| - 1], steps[|steps| - 1];
    hide Next, Earned;
    if x in Run(front).sessions {
      SessionsAreEarned(front, x);
      NextSettled(Run(front), last);
      var n :| 0 <= n < |front| && EarnedAt(front, n, x, Run(front).sessions[x]);
      assert front[..n] == steps[..n];
      assert EarnedAt(steps, n, x, Run(steps).sessions[x]);
    } else {
      NewSessionIsEarned(Run(front), last, x);
      EarnedIsOpen(Run(front), last, Run(steps).sessions[x]);
      assert EarnedAt(steps, |front|, x, Run(steps).sessions[x]);
    }
  }

  lemma EarnedIsOpen(s: State, step: Step, row: SessionRow)
    requires Earned(s, step, row)
    ensures row.(revoked := false) == row
  {
  }

  // ----- A login takes the place of the previous session ------------------

  /** The session a login names as its predecessor, in its first step or by the challenge that step opened. */
  predicate Names(s: State, step: Step, previous: Id) {
    match step
    case Commit(_, _, _, p, _) => p == Some(previous)
    case Complete(c, _, _, _, _) => c in s.challenges && s.challenges[c].previous == Some(previous)
    case _ => false
  }

  /** Challenges remember only sessions of their own identity. */
  ghost predicate PreviousOk(s: State) {
    forall c :: c in s.challenges && s.challenges[c].previous.Some? ==>
      && s.challenges[c].previous.value in s.sessions
      && s.sessions[s.challenges[c].previous.value].identity == s.challenges[c].identity
  }

  /** A step keeps what a challenge remembers; a new one remembers a session of its identity or none. */
  lemma NextKeepsPrevious(s: State, step: Step, c: Id)
    requires c in Next(s, step).challenges
    ensures var row := Next(s, step).challenges[c];
      if c in s.challenges
      then row.identity == s.challenges[c].identity && row.previous == s.challenges[c].previous
      else step.Commit? && row.previous == ResolvePrevious(s, row.identity, step.previous)
  {
    hide Verify, ResolvePrevious, RevokeOne, RevokeAll;
  }

  lemma {:induction false} ReachablePrevious(steps: seq<Step>)
    ensures PreviousOk(Run(steps))
  {
    if steps != [] {
      var s, step := Run(steps[..|steps| - 1]), steps[|steps| - 1];
      ReachablePrevious(steps[..|steps| - 1]);
      NextSettled(s, step);
      forall c | c in Next(s, step).challenges && Next(s, step).challenges[c].previous.Some?
        ensures var row := Next(s, step).challenges[c];
          && row.previous.value in Next(s, step).sessions
          && Next(s, step).sessions[row.previous.value].identity == row.identity
      {
        NextKeepsPrevious(s, step, c);
        hide Next;
      }
      hide Next;
    }
  }

  lemma NewSessionRotates(s: State, step: Step, x: Id, previous: Id)
    requires PreviousOk(s) && previous in s.sessions && Names(s, step, previous)
    requires x in Next(s, step).sessions && x !in s.sessions
    ensures previous in Next(s, step).sessions && Next(s, step).sessions[previous].revoked
  {
    hide Verify;
  }

  /** Over any run, the session a login names is revoked for ever once that login has its own. */
  lemma LoginRotates(steps: seq<Step>, n: nat, x: Id, previous: Id)
    requires n < |steps| && Names(Run(steps[..n]), steps[n], previous) && previous in Run(steps[..n]).sessions
    requires x in Run(steps[..n + 1]).sessions && x !in Run(steps[..n]).sessions
    ensures previous in Run(steps).sessions && Run(steps).sessions[previous].revoked
  {
    ReachablePrevious(steps[..n]);
    assert steps[..n + 1][..n] == steps[..n];
    NewSessionRotates(Run(steps[..n]), steps[n], x, previous);
    RunSettled(steps, n + 1);
    hide Run, Next, Names, PreviousOk;
  }

  // ----- Credentials behind second-factor sessions ------------------------

  lemma NextKeepsCredential(s: State, step: Step, x: Id)
    requires x in s.sessions && s.sessions[x].identity in s.identities
    requires x in Next(s, step).sessions && !Next(s, step).sessions[x].revoked
    ensures var i := s.sessions[x].identity;
      i in Next(s, step).identities && Next(s, step).identities[i].credential == s.identities[i].credential
  {
    hide Verify, ResolvePrevious, ConsumeAll;
  }

  /** As long as a session lives, its identity's credential does not change. */
  lemma {:induction false} LiveSessionKeepsCredential(steps: seq<Step>, n: nat, x: Id)
    requires n <= |steps| && x in Run(steps[..n]).sessions
    requires Run(steps[..n]).sessions[x].identity in Run(steps[..n]).identities
    requires x in Run(steps).sessions && !Run(steps).sessions[x].revoked
    ensures var i := Run(steps[..n]).sessions[x].identity;
      && i in Run(steps).identities && Run(steps).sessions[x].identity == i
      && Run(steps).identities[i].credential == Run(steps[..n]).identities[i].credential
    decreases |steps|
  {
    hide Next;
    if n == |steps| {
      assert steps[..n] == steps;
    } else {
      var front := steps[..|steps| - 1];
      assert front[..n] == steps[..n];
      RunSettled(front, n);
      NextSettled(Run(front), steps[|steps| - 1]);
      LiveSessionKeepsCredential(front, n, x);
      NextKeepsCredential(Run(front), steps[|steps| - 1], x);
    }
  }

  /** Step `m` opened the challenge that step `n` completed with session `x`. */
  predicate TwoStepLogin(steps: seq<Step>, m: nat, n: nat, x: Id) {
    && m < n < |steps| && steps[m].Commit? && steps[n].Complete?
    && steps[n].challenge !in Run(steps[..m]).challenges && steps[n].challenge in Run(steps[..m + 1]).challenges
    && x !in Run(steps[..n]).sessions && x in Run(steps[..n + 1]).sessions
  }

  function CredentialOf(steps: seq<Step>, n: nat, identity: Id): Option<Id>
    requires n <= |steps|
  {
    if identity in Run(steps[..n]).identities then Run(steps[..n]).identities[identity].credential else None
  }

  /**
   An unrevoked session of a two-step login rests on the password its first step checked if and
   only if that was still the identity's password when the second step came.
   */
  lemma TwoStepSessionCurrentIff(steps: seq<Step>, m: nat, n: nat, x: Id)
    requires TwoStepLogin(steps, m, n, x) && x in Run(steps).sessions && !Run(steps).sessions[x].revoked
    ensures var i := Run(steps).sessions[x].identity;
      && i in Run(steps).identities && CredentialOf(steps, m, i).Some?
      && steps[m].client in Run(steps[..m]).loaded
      && Run(steps[..m]).loaded[steps[m].client] == Candidate(i, CredentialOf(steps, m, i).value)
      && (Run(steps).identities[i].credential == CredentialOf(steps, m, i) <==>
            CredentialOf(steps, n, i) == CredentialOf(steps, m, i))
  {
    hide Next, Verify;
    var s, step := Run(steps[..n]), steps[n];
    assert steps[..n + 1][..n] == steps[..n] && steps[..m + 1][..m] == steps[..m];
    NewSessionIsEarned(s, step, x);
    CompleteKeepsIdentities(s, step);
    OpeningIsVerified(Run(steps[..m]), steps[m], step.challenge);
    assert steps[..n][..m + 1] == steps[..m + 1];
    ChallengeKeepsIdentity(steps[..n], m + 1, step.challenge);
    LiveSessionKeepsCredential(steps, n + 1, x);
    hide Run;
  }

  lemma CompleteKeepsIdentities(s: State, step: Step)
    requires step.Complete?
    ensures Next(s, step).identities == s.identities
  {
    hide Verify, ResolvePrevious;
  }

  /** A challenge is opened for the loaded candidate, whose credential is still current. */
  lemma OpeningIsVerified(s: State, step: Step, c: Id)
    requires step.Commit? && c !in s.challenges && c in Next(s, step).challenges
    ensures step.client in s.loaded && s.loaded[step.client].identity == Next(s, step).challenges[c].identity
    ensures Revalidates(s, s.loaded[step.client])
  {
    hide ResolvePrevious;
  }

  lemma {:induction false} ChallengeKeepsIdentity(steps: seq<Step>, n: nat, c: Id)
    requires n <= |steps| && c in Run(steps[..n]).challenges
    ensures c in Run(steps).challenges && Run(steps).challenges[c].identity == Run(steps[..n]).challenges[c].identity
    decreases |steps|
  {
    hide Next;
    if n == |steps| {
      assert steps[..n] == steps;
    } else {
      var front := steps[..|steps| - 1];
      assert front[..n] == steps[..n];
      ChallengeKeepsIdentity(front, n, c);
      NextSettled(Run(front), steps[|steps| - 1]);
      NextKeepsPrevious(Run(front), steps[|steps| - 1], c);
    }
  }

  /** For example, whenever nothing sets the password in between. */
  lemma {:induction false} UnchangedMeanwhile(steps: seq<Step>, m: nat, n: nat, identity: Id)
    requires m <= n <= |steps| && identity in Run(steps[..m]).identities
    requires forall k :: m <= k < n ==> !(steps[k].SetCredential? && steps[k].identity == identity)
    ensures identity in Run(steps[..n]).identities
    ensures CredentialOf(steps, n, identity) == CredentialOf(steps, m, identity)
  {
    if m < n {
      assert steps[..n][..n - 1] == steps[..n - 1];
      UnchangedMeanwhile(steps, m, n - 1, identity);
      SetsNoOther(Run(steps[..n - 1]), steps[n - 1], identity);
      hide Next;
    }
  }

  lemma SetsNoOther(s: State, step: Step, identity: Id)
    requires identity in s.identities && !(step.SetCredential? && step.identity == identity)
    ensures identity in Next(s, step).identities
    ensures Next(s, step).identities[identity].credential == s.identities[identity].credential
  {
    hide Verify, ResolvePrevious, ConsumeAll, RevokeAll, RevokeOne;
  }

  /** An identity with a password and a factor starts a login, the password is changed, and the login completes. */
  function ChangedMeanwhile(i: Id, stored: Id, changed: Id, factor: Id, counter: int, code: int): seq<Step> {
    [AddIdentity(i)] + [SetCredential(i, stored)] + [ActivateFactor(i, factor, counter, {})] + [Load(0, i)]
    + [Commit(0, 0, 0, None, 0)] + [SetCredential(i, changed)] + [Complete(0, 0, Totp(code), false, 1)]
  }

  lemma RunMore(steps: seq<Step>, step: Step)
    ensures Run(steps + [step]) == Next(Run(steps), step)
  {
    hide Next;
    assert (steps + [step])[..|steps|] == steps;
  }

  lemma EnrolledFirst(i: Id, stored: Id, factor: Id, counter: int)
    ensures Run([AddIdentity(i)] + [SetCredential(i, stored)] + [ActivateFactor(i, factor, counter, {})]) ==
      EMPTY.(identities := map[i := IdentityRow(true, Some(stored), Some(factor))],
             factors := map[factor := Factor(Some(counter), {})], used := [(factor, Totp(counter))])
  {
    var p1 := [AddIdentity(i)];
    var p2 := p1 + [SetCredential(i, stored)];
    RunMore([], AddIdentity(i));
    assert [] + p1 == p1;
    RunMore(p1, SetCredential(i, stored));
    RunMore(p2, ActivateFactor(i, factor, counter, {}));
    hide Run;
    assert RevokeAll(map[], i) == map[];
    assert Run(p1) == EMPTY.(identities := map[i := IdentityRow(true, None, None)]);
    assert Run(p2) == EMPTY.(identities := map[i := IdentityRow(true, Some(stored), None)]);
  }

  lemma ChallengedNext(s: State, i: Id, stored: Id, factor: Id)
    requires s.identities == map[i := IdentityRow(true, Some(stored), Some(factor))]
    requires s.challenges == map[] && s.loaded == map[]
    ensures Next(Next(s, Load(0, i)), Commit(0, 0, 0, None, 0)) ==
      s.(loaded := map[0 := Candidate(i, stored)],
         challenges := map[0 := Challenge(i, CHALLENGE_TTL, 0, false, None)])
  {
    assert ConsumeAll(map[], i) == map[];
    assert Next(s, Load(0, i)) == s.(loaded := map[0 := Candidate(i, stored)]);
  }

  lemma CompletesAnyway(s: State, i: Id, stored: Id, changed: Id, factor: Id, counter: int, code: int)
    requires s.identities == map[i := IdentityRow(true, Some(stored), Some(factor))] && s.sessions == map[]
    requires s.challenges == map[0 := Challenge(i, CHALLENGE_TTL, 0, false, None)]
    requires s.factors == map[factor := Factor(Some(counter), {})] && counter < code
    ensures var s' := Next(Next(s, SetCredential(i, changed)), Complete(0, 0, Totp(code), false, 1));
      && s'.sessions == map[0 := SessionRow(i, ByFactor(0, factor), false)] && s'.loaded == s.loaded
      && s'.identities == map[i := IdentityRow(true, Some(changed), Some(factor))]
  {
    assert RevokeAll(map[], i) == map[];
    assert Next(s, SetCredential(i, changed)) ==
      s.(identities := map[i := IdentityRow(true, Some(changed), Some(factor))]);
    assert RevokeOne(map[], None) == map[];
  }

  /** The failing family: the session lives although its login never saw the present password. */
  lemma ChangedPasswordStillCompletes(i: Id, stored: Id, changed: Id, factor: Id, counter: int, code: int)
    requires counter < code
    ensures var s := Run(ChangedMeanwhile(i, stored, changed, factor, counter, code));
      && 0 in s.sessions && !s.sessions[0].revoked && s.sessions[0].identity == i
      && i in s.identities && s.identities[i].credential == Some(changed)
      && 0 in s.loaded && s.loaded[0] == Candidate(i, stored)
  {
    var p3 := [AddIdentity(i)] + [SetCredential(i, stored)] + [ActivateFactor(i, factor, counter, {})];
    var p4 := p3 + [Load(0, i)];
    var p5 := p4 + [Commit(0, 0, 0, None, 0)];
    EnrolledFirst(i, stored, factor, counter);
    RunMore(p3, Load(0, i));
    RunMore(p4, Commit(0, 0, 0, None, 0));
    RunMore(p5, SetCredential(i, changed));
    RunMore(p5 + [SetCredential(i, changed)], Complete(0, 0, Totp(code), false, 1));
    hide Run;
    hide Next;
    ChallengedNext(Run(p3), i, stored, factor);
    CompletesAnyway(Run(p5), i, stored, changed, factor, counter, code);
  }

  // ----- The repository's transactions ------------------------------------

  class Repository {
    var tables: State

    constructor ()
      ensures tables == EMPTY
    {
      tables := EMPTY;
    }

    /** Replaces the credential and revokes every session of the identity in one transaction. */
    method SetPasswordCredential(identity: Id, credential: Id)
      modifies this
      ensures tables == Next(old(tables), SetCredential(identity, credential))
    {
      if identity in tables.identities {
        tables :=
          tables.(identities :=
          tables.identities[identity := tables.identities[identity].(credential := Some(credential))]);
        tables := tables.(sessions := RevokeAll(tables.sessions, identity));
      }
    }

    /** The write transaction of a password login; the answer is the session or challenge created. */
    method CommitPasswordLogin(client: Id, sessionId: Id, challengeId: Id, previous: Option<Id>, now: int)
      returns (session: Option<Id>, challenge: Option<Id>)
      modifies this
      ensures tables == Next(old(tables), Commit(client, sessionId, challengeId, previous, now))
      ensures session.Some? ==> session.value in tables.sessions && session.value !in old(tables).sessions
      ensures challenge.Some? ==> challenge.value in tables.challenges && challenge.value !in old(tables).challenges
      ensures session.None? && challenge.None? ==> tables == old(tables)
    {
      session, challenge := None, None;
      if client !in tables.loaded {
        return;
      }
      var c := tables.loaded[client];
      if c.identity !in tables.identities {
        return;
      }
      var row := tables.identities[c.identity];
      if !row.active || row.credential != Some(c.credential) {
        return;
      }
      if row.factor.Some? {
        if challengeId in tables.challenges {
          return;
        }
        var resolved := ResolvePrevious(tables, c.identity, previous);
        tables := tables.(challenges := ConsumeAll(tables.challenges, c.identity));
        tables :=
          tables.(challenges :=
          tables.challenges[challengeId := Challenge(c.identity, now + CHALLENGE_TTL, 0, false, resolved)]);
        challenge := Some(challengeId);
        return;
      }
      if sessionId in tables.sessions {
        return;
      }
      if previous.Some? && previous.value in tables.sessions && !tables.sessions[previous.value].revoked {
        tables :=
          tables.(sessions := tables.sessions[previous.value := tables.sessions[previous.value].(revoked := true)]);
      }
      assert tables.sessions == RevokeOne(old(tables).sessions, previous);
      tables :=
        tables.(sessions := tables.sessions[sessionId := SessionRow(c.identity, ByPassword(c.credential), false)]);
      session := Some(sessionId);
    }

    /** The write transaction of the second step; true if it created the session. */
    method CompleteMfaLogin(challenge: Id, sessionId: Id, code: Code, limited: bool, now: int) returns (ok: bool)
      modifies this
      ensures tables == Next(old(tables), Complete(challenge, sessionId, code, limited, now))
      ensures ok <==> |tables.used| == |old(tables).used| + 1
    {
      ok := false;
      if challenge !in tables.challenges || tables.challenges[challenge].consumed {
        return;
      }
      var c := tables.challenges[challenge];
      if c.identity !in tables.identities || limited {
        return;
      }
      var identity := tables.identities[c.identity];
      if !identity.active || !(c.expiresAt > now) || c.attempts >= MAX_ATTEMPTS {
        tables := tables.(challenges := tables.challenges[challenge := c.(consumed := true)]);
        return;
      }
      if identity.factor.None? || identity.factor.value !in tables.factors {
        tables := tables.(challenges := tables.challenges[challenge := c.(consumed := true)]);
        return;
      }
      var verified := Verify(tables.factors[identity.factor.value], code);
      if verified.None? {
        var attempts := c.attempts + 1;
        if attempts >= MAX_ATTEMPTS {
          tables := tables.(challenges := tables.challenges[challenge := c.(attempts := attempts, consumed := true)]);
        } else {
          tables := tables.(challenges := tables.challenges[challenge := c.(attempts := attempts)]);
        }
        return;
      }
      if sessionId in tables.sessions {
        return;
      }
      tables :=
        tables.(factors := tables.factors[identity.factor.value := verified.value],
        used := tables.used + [(identity.factor.value, code)]);
      tables := tables.(challenges := tables.challenges[challenge := c.(consumed := true)]);
      var previous := ResolvePrevious(tables, c.identity, c.previous);
      tables := tables.(sessions := RevokeOne(tables.sessions, previous)
        [sessionId := SessionRow(c.identity, ByFactor(challenge, identity.factor.value), false)]);
      ok := true;
    }
  }
}
