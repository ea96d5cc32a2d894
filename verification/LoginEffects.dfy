/**
 What the steps of a login, and the changes to an identity, achieve: exactly when each takes effect
 and what it leaves behind, and how many codes a challenge can be tried with.
 */
module LoginEffects {
  import opened Base
  import opened Logins

  // ----- The second step --------------------------------------------------

  /** A time step later than the last one used, or a recovery code that is still there. */
  predicate Accepts(f: Factor, code: Code) {
    match code
    case Totp(n) => f.lastUsed.Some? ==> f.lastUsed.value < n
    case Recovery(r) => r in f.recovery
    case NoMatch => false
  }

  /** The challenge is open and its identity known; only then is anything done about a code. */
  predicate Answerable(s: State, challenge: Id, limited: bool) {
    && challenge in s.challenges && !s.challenges[challenge].consumed && !limited
    && s.challenges[challenge].identity in s.identities
  }

  /** The code is put to the factor: the identity is active and has one, and there are time and attempts left. */
  predicate Judged(s: State, challenge: Id, limited: bool, now: int) {
    && Answerable(s, challenge, limited)
    && var c := s.challenges[challenge];
      && s.identities[c.identity].active && now < c.expiresAt && c.attempts < MAX_ATTEMPTS
      && s.identities[c.identity].factor.Some? && s.identities[c.identity].factor.value in s.factors
  }

  function FactorOf(s: State, challenge: Id): Id
    requires challenge in s.challenges && s.challenges[challenge].identity in s.identities
    requires s.identities[s.challenges[challenge].identity].factor.Some?
  {
    s.identities[s.challenges[challenge].identity].factor.value
  }

  /** The second step succeeds. */
  predicate Completes(s: State, challenge: Id, code: Code, limited: bool, now: int) {
    Judged(s, challenge, limited, now) && Accepts(s.factors[FactorOf(s, challenge)], code)
  }

  /** The second step presents a code that the factor refuses. */
  predicate Refuses(s: State, challenge: Id, code: Code, limited: bool, now: int) {
    Judged(s, challenge, limited, now) && !Accepts(s.factors[FactorOf(s, challenge)], code)
  }

  /** Only the row of the challenge may differ. */
  ghost predicate OnlyChallenge(s: State, s': State, challenge: Id) {
    && challenge in s.challenges && challenge in s'.challenges
    && s' == s.(challenges := s.challenges[challenge := s'.challenges[challenge]])
  }

  lemma VerifiesIff(f: Factor, code: Code)
    ensures Verify(f, code).Some? <==> Accepts(f, code)
  {
  }

  /**
   The second step, in full. It creates the session if and only if the challenge is open with time and
   attempts left, the attempt not limited, the identity active, and the code good for its factor; a bad
   code costs an attempt, the fifth of which uses the challenge up; without time, attempts, activity or
   factor the challenge is used up; and otherwise nothing happens.
   */
  lemma SecondStepIsExact(s: State, challenge: Id, x: Id, code: Code, limited: bool, now: int)
    requires x !in s.sessions
    ensures var s' := CompleteLogin(s, challenge, x, code, limited, now);
      && (x in s'.sessions <==> Completes(s, challenge, code, limited, now))
      && (Completes(s, challenge, code, limited, now) ==>
            var c, factor := s.challenges[challenge], FactorOf(s, challenge);
            && s'.sessions[x] == SessionRow(c.identity, ByFactor(challenge, factor), false)
            && challenge in s'.challenges && s'.challenges[challenge].consumed
            && s'.used == s.used + [(factor, code)] && s'.identities == s.identities)
      && (Refuses(s, challenge, code, limited, now) ==>
            && OnlyChallenge(s, s', challenge)
            && s'.challenges[challenge].attempts == s.challenges[challenge].attempts + 1
            && s'.challenges[challenge].consumed == (s.challenges[challenge].attempts + 1 >= MAX_ATTEMPTS))
      && (Answerable(s, challenge, limited) && !Judged(s, challenge, limited, now) ==>
            && OnlyChallenge(s, s', challenge)
            && s'.challenges[challenge] == s.challenges[challenge].(consumed := true))
      && (!Answerable(s, challenge, limited) ==> s' == s)
  {
    if Judged(s, challenge, limited, now) {
      VerifiesIff(s.factors[FactorOf(s, challenge)], code);
    }
    hide Verify, Accepts, ResolvePrevious, RevokeOne;
  }

  // ----- Guesses ----------------------------------------------------------

  /** How often a run presented the challenge a code that its factor refused. */
  ghost function Refusals(steps: seq<Step>, challenge: Id): nat {
    if steps == [] then 0
    else
      var n := |steps| - 1;
      Refusals(steps[..n], challenge)
        + if RefusedAt(Run(steps[..n]), steps[n], challenge) then 1 else 0
  }

  predicate RefusedAt(s: State, step: Step, challenge: Id) {
    step.Complete? && step.challenge == challenge && Refuses(s, challenge, step.code, step.limited, step.now)
  }

  lemma StepCountsRefusal(s: State, step: Step, challenge: Id)
    requires challenge in Next(s, step).challenges
    ensures Next(s, step).challenges[challenge].attempts ==
      (if challenge in s.challenges then s.challenges[challenge].attempts else 0)
      + if RefusedAt(s, step, challenge) then 1 else 0
  {
    if step.Complete? {
      if Judged(s, step.challenge, step.limited, step.now) {
        VerifiesIff(s.factors[FactorOf(s, step.challenge)], step.code);
      }
      hide Verify, Accepts, ResolvePrevious, RevokeOne;
    } else {
      hide CompleteLogin, Verify, RefusedAt, ResolvePrevious, RevokeOne, RevokeAll;
    }
  }

  /** Over any run a challenge has counted exactly the codes that were refused. */
  lemma {:induction false} AttemptsCountRefusals(steps: seq<Step>, challenge: Id)
    ensures Refusals(steps, challenge) ==
      if challenge in Run(steps).challenges then Run(steps).challenges[challenge].attempts else 0
  {
    if steps != [] {
      var n := |steps| - 1;
      var s, step := Run(steps[..n]), steps[n];
      AttemptsCountRefusals(steps[..n], challenge);
      NextSettled(s, step);
      if challenge in Next(s, step).challenges {
        StepCountsRefusal(s, step, challenge);
      }
      hide Next, Judged;
    }
  }

  /** So a challenge stands at most five refused codes, and the fifth uses it up. */
  lemma FiveGuessesAtMost(steps: seq<Step>, challenge: Id)
    ensures Refusals(steps, challenge) <= 5
    ensures Refusals(steps, challenge) == 5 ==>
      challenge in Run(steps).challenges && Run(steps).challenges[challenge].consumed
  {
    AttemptsCountRefusals(steps, challenge);
    ChallengesStayBounded(steps);
    hide Run, Refusals;
  }

  // ----- The password step and the identity's own -------------------------

  /** The identity is active and its credential still the one that was loaded. */
  predicate Current(s: State, c: Candidate) {
    && c.identity in s.identities && s.identities[c.identity].active
    && s.identities[c.identity].credential == Some(c.credential)
  }

  /**
   The password step, in full: with a loaded credential that is still current it creates a session for
   an identity without a second factor, and otherwise a fresh challenge in place of all others.
   */
  lemma PasswordStepIsExact(s: State, client: Id, x: Id, challenge: Id, previous: Option<Id>, now: int)
    requires x !in s.sessions && challenge !in s.challenges
    ensures var s' := CommitLogin(s, client, x, challenge, previous, now);
      var current := client in s.loaded && Current(s, s.loaded[client]);
      var factor := current && s.identities[s.loaded[client].identity].factor.Some?;
      && (x in s'.sessions <==> current && !factor) && (challenge in s'.challenges <==> current && factor)
      && s'.identities == s.identities && s'.factors == s.factors && s'.used == s.used
      && (current && !factor ==>
            && s'.sessions[x] == SessionRow(s.loaded[client].identity, ByPassword(s.loaded[client].credential), false)
            && s'.challenges == s.challenges)
      && (current && factor ==>
            && s'.challenges[challenge].identity == s.loaded[client].identity
            && s'.challenges[challenge].expiresAt == now + 5 * MINUTE
            && s'.challenges[challenge].attempts == 0 && !s'.challenges[challenge].consumed
            && s'.sessions == s.sessions
            && forall c :: c in s.challenges ==>
                 c in s'.challenges
                 && s'.challenges[c] == if s.challenges[c].identity == s.loaded[client].identity
                                        then s.challenges[c].(consumed := true) else s.challenges[c])
  {
    hide ResolvePrevious;
  }

  /** Over any run: a session that was revoked, or whose identity's password or factor was changed, never revives. */
  lemma RevocationLasts(steps: seq<Step>, n: nat, x: Id)
    requires n < |steps| && x in Run(steps[..n]).sessions
    requires var s, step := Run(steps[..n]), steps[n];
      || step == Revoke(x)
      || (s.sessions[x].identity in s.identities
          && ((step.SetCredential? && step.identity == s.sessions[x].identity)
              || (step.ActivateFactor? && step.identity == s.sessions[x].identity && step.factor !in s.factors)))
    ensures x in Run(steps).sessions && Run(steps).sessions[x].revoked
  {
    assert steps[..n + 1][..n] == steps[..n];
    assert Run(steps[..n + 1]).sessions[x].revoked;
    RunSettled(steps, n + 1);
  }

  /** What an identity's own steps set. */
  lemma IdentityStepsAreExact(s: State, i: Id, active: bool, credential: Id, factor: Id, counter: int,
                              recovery: set<Id>)
    ensures Next(s, AddIdentity(i)) ==
      if i in s.identities then s else s.(identities := s.identities[i := IdentityRow(true, None, None)])
    ensures i in s.identities ==>
      && Next(s, SetActive(i, active)) == s.(identities := s.identities[i := s.identities[i].(active := active)])
      && Next(s, SetCredential(i, credential)).identities ==
         s.identities[i := s.identities[i].(credential := Some(credential))]
      && (factor !in s.factors ==>
            var s' := Next(s, ActivateFactor(i, factor, counter, recovery));
            && s'.identities == s.identities[i := s.identities[i].(factor := Some(factor))]
            && factor in s'.factors && !Accepts(s'.factors[factor], Totp(counter))
            && (forall r :: r in recovery ==> Accepts(s'.factors[factor], Recovery(r))))
  {
  }

  /** What a client is left with after loading, and what a session made directly is. */
  lemma LoadAndCreateAreExact(s: State, client: Id, i: Id, x: Id)
    ensures var s' := Next(s, Load(client, i));
      if i in s.identities && s.identities[i].active && s.identities[i].credential.Some?
      then s' == s.(loaded := s.loaded[client := Candidate(i, s.identities[i].credential.value)]) else s' == s
    ensures var s' := Next(s, CreateSession(i, x));
      if i in s.identities && x !in s.sessions
      then s' == s.(sessions := s.sessions[x := SessionRow(i, Direct, false)]) else s' == s
  {
  }

  /** Starting a replacement takes a code the factor accepts, and uses it up. */
  lemma BeginIsExact(s: State, i: Id, code: Code)
    requires i in s.identities && s.identities[i].factor.Some? && s.identities[i].factor.value in s.factors
    ensures var s', factor := Next(s, BeginEnrollment(i, code)), s.identities[i].factor.value;
      if Accepts(s.factors[factor], code)
      then && s' == s.(factors := s'.factors, used := s.used + [(factor, code)])
           && factor in s'.factors && !Accepts(s'.factors[factor], code)
      else s' == s
  {
  }

  /** A factor is removed only with a code it accepts, and then with every session of the identity. */
  lemma DisableIsExact(s: State, i: Id, code: Code)
    requires i in s.identities && s.identities[i].factor.Some? && s.identities[i].factor.value in s.factors
    ensures var s' := Next(s, DisableFactor(i, code));
      if Accepts(s.factors[s.identities[i].factor.value], code)
      then s'.identities == s.identities[i := s.identities[i].(factor := None)]
           && (forall x :: x in s.sessions && s.sessions[x].identity == i ==>
                 x in s'.sessions && s'.sessions[x].revoked)
      else s' == s
  {
    VerifiesIff(s.factors[s.identities[i].factor.value], code);
    hide Verify, Accepts;
  }
}
