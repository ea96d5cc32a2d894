/**
 What a request achieves: for each transaction, exactly when it commits in a reachable state, and
 that it then does what was asked and nothing else.
 */
module DomainEffects {
  import opened Base
  import opened HostNames
  import opened Domains
  import opened DomainRouting
  import opened DomainReplay
  import opened DomainTls
  import AppliedState

  // ----- Operations and their mutations -----------------------------------

  /** A recorded mutation belongs to the account of its operation. */
  ghost predicate MutationsOwned(s: State) {
    forall o :: o in s.mutations ==> o in s.operations && s.operations[o] == s.mutations[o].account
  }

  ghost predicate OperationsKept(s: State, s': State) {
    forall o :: o in s.operations ==> o in s'.operations && s'.operations[o] == s.operations[o]
  }

  lemma ReplaceKeepsOperations(s: State, d: Id, targetId: Id, raw: TargetSpec, env: Env)
    requires d in s.domains && env.limits.Some? && ReplaceTarget(s, d, targetId, raw, env).Done?
    ensures ReplaceTarget(s, d, targetId, raw, env).state.operations == s.operations
  {
    hide PrepareTarget, PackageAllows, WildcardConflict, RetireActive, RefreshedTls, IntentChanges;
  }

  lemma UpdateKeepsOperations(s: State, p: UpdateRequest, env: Env)
    requires UpdateDomain(s, p, env).Done?
    ensures UpdateDomain(s, p, env).state.operations == s.operations
  {
    hide ReplaceTarget, CacheFits, EditedRow;
    if p.target.Some? {
      ReplaceKeepsOperations(s, p.domain, p.targetId, p.target.value, env);
    }
  }

  lemma CreateKeepsOperations(s: State, p: CreateRequest, env: Env, d: Id, name: string, spec: TargetSpec)
    requires CreateDomain(s, p, env, d, name, spec).Done?
    ensures CreateDomain(s, p, env, d, name, spec).state.operations == s.operations
  {
    hide WildcardConflict, NameTaken, StorableName, LiveCount, PackageAllows, InitialTls;
  }

  lemma CertificateKeepsOperations(s: State, step: Step)
    requires (step.Order? || step.Stage? || step.Activate? || step.Fail?) && Effect(s, step).Done?
    ensures Effect(s, step).state.operations == s.operations
  {
    hide Sorted, Predecessor, OtherActive;
  }

  lemma EffectKeepsOperations(s: State, step: Step)
    requires WellFormed(step) && Effect(s, step).Done?
    ensures OperationsKept(s, Effect(s, step).state)
  {
    hide CreateDomain, UpdateDomain, ConfirmAll, OrderCertificate, ActivateCertificate, PrepareTarget, NewDomainId;
    hide BaseName, RetireActive, DisabledTls, AppliedState.RecordRevision;
    match step
    case Create(p, env) =>
      CreateKeepsOperations(s, p, env, NewDomainId(p), BaseName(p.name),
                            PrepareTarget(p.target, BaseName(p.name)).value);
    case Update(p, env) => UpdateKeepsOperations(s, p, env);
    case Confirm(p) => ConfirmAllExact(s, p.account, p.expected);
    case Order(_, _, _, _) => CertificateKeepsOperations(s, step);
    case Stage(_) => CertificateKeepsOperations(s, step);
    case Activate(_, _) => CertificateKeepsOperations(s, step);
    case Fail(_) => CertificateKeepsOperations(s, step);
    case _ =>
  }

  lemma RecordKeepsOwned(s: State, s1: State, k: Key)
    requires MutationsOwned(s1) && OperationsKept(s, s1) && s1.mutations == s.mutations
    ensures ReplayCheck(s, k).Fresh? && RecordMutation(s1, k).Done? ==> MutationsOwned(RecordMutation(s1, k).state)
  {
  }

  lemma NextKeepsOwned(s: State, step: Step)
    requires MutationsOwned(s)
    ensures MutationsOwned(Next(s, step))
  {
    hide Effect, WellFormed, KeyOf;
    if WellFormed(step) && Effect(s, step).Done? {
      EffectKeepsOperations(s, step);
      EffectKeepsHistory(s, step);
      var s1 := Effect(s, step).state;
      assert MutationsOwned(s1);
      if KeyOf(step).Some? {
        RecordKeepsOwned(s, s1, KeyOf(step).value);
        hide MutationsOwned, ReplayCheck, RecordMutation;
        assert Next(s, step) == s || Next(s, step) == s1
               || (ReplayCheck(s, KeyOf(step).value).Fresh? && RecordMutation(s1, KeyOf(step).value).Done?
                   && Next(s, step) == RecordMutation(s1, KeyOf(step).value).state);
      }
    }
  }

  lemma {:induction false} ReachableMutationsOwned(steps: seq<Step>)
    ensures MutationsOwned(Run(EMPTY, steps))
  {
    hide Next;
    if steps != [] {
      ReachableMutationsOwned(steps[..|steps| - 1]);
      NextKeepsOwned(Run(EMPTY, steps[..|steps| - 1]), steps[|steps| - 1]);
    }
  }

  /** The request repeats an operation that has already mutated something. */
  predicate Repeats(s: State, k: Key) {
    k.operation.Some? && k.operation.value in s.mutations
  }

  /** The operation the request names, if any, is one of its account. */
  predicate OwnOperation(s: State, k: Key) {
    k.operation.Some? ==> k.operation.value in s.operations && s.operations[k.operation.value] == k.account
  }

  function WithMutation(s: State, k: Key): map<Id, Mutation> {
    if k.operation.Some? then s.mutations[k.operation.value := Mutation(k.account, k.domain, k.action)] else s.mutations
  }

  lemma CorrelateFirst(s: State, k: Key, effect: Outcome)
    requires MutationsOwned(s) && !Repeats(s, k) && (effect.Done? ==> effect.state.mutations == s.mutations)
    ensures Correlate(s, k, effect).Done? <==> OwnOperation(s, k) && effect.Done?
    ensures Correlate(s, k, effect).Done? ==>
      Correlate(s, k, effect).state == effect.state.(mutations := WithMutation(s, k))
  {
  }

  /** A step that is not a repeat commits exactly if its operation is in order and its effect goes through. */
  lemma FirstDelivery(s: State, step: Step)
    requires MutationsOwned(s) && WellFormed(step) && KeyOf(step).Some? && !Repeats(s, KeyOf(step).value)
    ensures var k := KeyOf(step).value;
      && (Attempt(s, step).Done? <==> OwnOperation(s, k) && Effect(s, step).Done?)
      && (Attempt(s, step).Done? ==> Next(s, step) == Effect(s, step).state.(mutations := WithMutation(s, k)))
  {
    hide Effect, WellFormed, KeyOf, Correlate, OwnOperation, WithMutation, MutationsOwned;
    if Effect(s, step).Done? {
      EffectKeepsHistory(s, step);
    }
    CorrelateFirst(s, KeyOf(step).value, Effect(s, step));
  }

  // ----- Suspension, resumption, removal ----------------------------------

  predicate StatusStep(step: Step) {
    step.Suspend? || step.Resume? || step.Remove?
  }

  /** From which status the request may start. */
  function From(step: Step): set<Status>
    requires StatusStep(step)
  {
    match step
    case Suspend(_, _) => {Pending, Active}
    case Resume(_, _) => {Suspended}
    case Remove(_, _) => {Pending, Active, Suspended}
  }

  function To(step: Step): Status
    requires StatusStep(step)
  {
    match step
    case Suspend(_, _) => Suspended
    case Resume(_, _) => Pending
    case Remove(_, _) => Removed
  }

  predicate Movable(s: State, step: Step)
    requires StatusStep(step)
  {
    && step.env.limits.Some? && Owned(s, step.change.account, step.change.domain)
    && s.domains[step.change.domain].status in From(step)
  }

  /** The domain has the new status, and no other row or table that a request could not name is touched. */
  ghost predicate OnlyStatusMoved(s: State, s': State, d: Id, status: Status) {
    && d in s.domains && s'.domains == s.domains[d := s.domains[d].(status := status)]
    && s'.targets == s.targets && s'.live == s.live && s'.waf == s.waf && s'.cache == s.cache
    && s'.operations == s.operations && s'.applied == s.applied
  }

  /** TLS is off for the domain, and nothing else about any TLS row is changed. */
  ghost predicate TlsTurnedOff(tls: map<Id, Tls>, tls': map<Id, Tls>, d: Id) {
    && (forall o :: o in tls <==> o in tls') && d in tls
    && (forall o :: o in tls && o != d ==> tls'[o] == tls[o])
    && !tls'[d].enabled && tls'[d].issuance == TlsDisabled && tls'[d].activeRef.None?
    && tls'[d].names == tls[d].names && tls'[d].mode == tls[d].mode && tls'[d].challenge == tls[d].challenge
  }

  lemma RemoveEffect(s: State, p: StatusRequest, env: Env)
    requires RowsMatch(s) && RemoveDomain(s, p, env).Done?
    ensures var s' := RemoveDomain(s, p, env).state;
      && OnlyStatusMoved(s, s', p.domain, Removed)
      && TlsTurnedOff(s.tls, s'.tls, p.domain) && RetiresExactly(s.certificates, s'.certificates, p.domain, true)
  {
    assert p.domain in s.tls;
    hide RowsMatch;
  }

  lemma StatusEffect(s: State, step: Step)
    requires StatusStep(step) && Indexed(s)
    ensures Effect(s, step).Done? <==> Movable(s, step)
    ensures Movable(s, step) ==>
      var s', d := Effect(s, step).state, step.change.domain;
      && OnlyStatusMoved(s, s', d, To(step))
      && (step.Remove? ==> TlsTurnedOff(s.tls, s'.tls, d) && RetiresExactly(s.certificates, s'.certificates, d, true))
      && (!step.Remove? ==> s'.tls == s.tls && s'.certificates == s.certificates)
  {
    hide IndexExact;
    if step.Remove? && Movable(s, step) {
      RemoveEffect(s, step.change, step.env);
      hide RowsMatch, TlsTurnedOff, RetiresExactly, OnlyStatusMoved, RetireActive, DisabledTls;
    }
  }

  /**
   After any run, a suspension, resumption or removal that is not a repeat is answered as done if and
   only if the account has limits, owns the domain and the domain has a status to start from. Then the
   domain has the new status and every other domain its own; a removal also turns TLS off and retires
   the active certificate, and nothing else changes but the record of the operation.
   */
  lemma StatusRequestIsExact(steps: seq<Step>, step: Step)
    requires StatusStep(step) && !Repeats(Run(EMPTY, steps), KeyOf(step).value)
    ensures var s, k := Run(EMPTY, steps), KeyOf(step).value;
      Attempt(s, step).Done? <==> OwnOperation(s, k) && Movable(s, step)
    ensures var s := Run(EMPTY, steps);
      Attempt(s, step).Done? ==>
        var s', d := Next(s, step), step.change.domain;
        && OnlyStatusMoved(s, s', d, To(step)) && s'.mutations == WithMutation(s, KeyOf(step).value)
        && (step.Remove? ==> TlsTurnedOff(s.tls, s'.tls, d) && RetiresExactly(s.certificates, s'.certificates, d, true))
        && (!step.Remove? ==> s'.tls == s.tls && s'.certificates == s.certificates)
  {
    ReachableInv(steps);
    ReachableMutationsOwned(steps);
    var s := Run(EMPTY, steps);
    hide Run;
    FirstDelivery(s, step);
    StatusEffect(s, step);
    hide Effect, Attempt, Next, MutationsOwned, Inv;
  }

  lemma FreedName(s: State, s': State, d: Id)
    requires Indexed(s) && UniqueNames(RoutesOf(s)) && Live(s, d) && OnlyStatusMoved(s, s', d, Removed)
    ensures !NameTaken(s', s.domains[d].name)
  {
    forall o | o in s'.domains && Live(s', o) ensures s'.domains[o].name != s.domains[d].name {
      assert CurrentOf(s.targets, s.live[o], o) && CurrentOf(s.targets, s.live[d], d);
      assert o in RoutesOf(s) && d in RoutesOf(s);
    }
  }

  lemma NoneLeftActive(certificates: map<Id, Certificate>, certificates': map<Id, Certificate>, d: Id, c: Id)
    requires RetiresExactly(certificates, certificates', d, true)
    ensures !ActiveFor(certificates', c, d)
  {
  }

  /** A removed domain's name is free at once, and no certificate of it is active. */
  lemma RemovalFreesName(steps: seq<Step>, p: StatusRequest, env: Env, c: Id)
    requires var s := Run(EMPTY, steps);
      !Repeats(s, KeyOf(Remove(p, env)).value) && Attempt(s, Remove(p, env)).Done?
    ensures var s := Run(EMPTY, steps);
      && p.domain in s.domains && !NameTaken(Next(s, Remove(p, env)), s.domains[p.domain].name)
      && !ActiveFor(Next(s, Remove(p, env)).certificates, c, p.domain)
  {
    StatusRequestIsExact(steps, Remove(p, env));
    ReachableInv(steps);
    var s := Run(EMPTY, steps);
    hide Run, Attempt, Next, MutationsOwned, TlsTurnedOff, Indexed, RetiresExactly, OnlyStatusMoved, NameTaken,
      ActiveFor;
    FreedName(s, Next(s, Remove(p, env)), p.domain);
    NoneLeftActive(s.certificates, Next(s, Remove(p, env)).certificates, p.domain, c);
  }
}
