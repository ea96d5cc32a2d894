/**
 Redelivered mutations and late confirmations.

 An operation correlates with at most one committed mutation, however often and in whatever
 order its step is delivered; and a domain becomes active only through a confirmation of the
 target that is current at that moment.
 */
module DomainReplay {
  import opened Base
  import opened Domains
  import opened DomainRouting

  // ----- What no transaction undoes ---------------------------------------

  /** Target rows are never deleted, altered or revived. */
  ghost predicate TargetsKept(targets: map<Id, Target>, targets': map<Id, Target>) {
    forall t :: t in targets ==>
      && t in targets' && targets'[t].domain == targets[t].domain && targets'[t].spec == targets[t].spec
      && (targets[t].superseded ==> targets'[t].superseded)
  }

  /** No domain row disappears, and none is active that was not before. */
  ghost predicate NoneActivated(domains: map<Id, Domain>, domains': map<Id, Domain>) {
    && (forall d :: d in domains ==> d in domains')
    && (forall d :: d in domains' && domains'[d].status == Active ==> d in domains && domains[d].status == Active)
  }

  ghost predicate Kept(s: State, s': State) {
    s'.mutations == s.mutations && TargetsKept(s.targets, s'.targets) && NoneActivated(s.domains, s'.domains)
  }

  lemma CreateKept(s: State, p: CreateRequest, env: Env, d: Id, name: string, spec: TargetSpec)
    requires CreateDomain(s, p, env, d, name, spec).Done?
    ensures Kept(s, CreateDomain(s, p, env, d, name, spec).state)
  {
    CreateRows(s, p, env, d, name, spec);
    hide WildcardConflict, NameTaken, HostNames.StorableName, LiveCount, PackageAllows;
  }

  lemma ReplaceKept(s: State, d: Id, targetId: Id, raw: TargetSpec, env: Env)
    requires d in s.domains && env.limits.Some? && ReplaceTarget(s, d, targetId, raw, env).Done?
    ensures Kept(s, ReplaceTarget(s, d, targetId, raw, env).state)
  {
    hide ReplaceTarget, WildcardConflict, PrepareTarget;
    ReplaceRows(s, d, targetId, raw, env);
  }

  lemma FinishKept(s: State, p: UpdateRequest)
    requires FinishUpdate(s, p).Done?
    ensures Kept(s, FinishUpdate(s, p).state)
  {
    hide CacheFits, CurrentSpec;
  }

  lemma UpdateKept(s: State, p: UpdateRequest, env: Env)
    requires UpdateDomain(s, p, env).Done?
    ensures Kept(s, UpdateDomain(s, p, env).state)
  {
    hide FinishUpdate, ReplaceTarget;
    var s1 := if p.target.None? then s else ReplaceTarget(s, p.domain, p.targetId, p.target.value, env).state;
    if p.target.Some? {
      ReplaceKept(s, p.domain, p.targetId, p.target.value, env);
    }
    FinishKept(s1, p);
  }

  lemma StatusKept(s: State, p: StatusRequest, env: Env, status: Status, allowed: set<Status>)
    requires status != Active && ChangeStatus(s, p, env, status, allowed).Done?
    ensures Kept(s, ChangeStatus(s, p, env, status, allowed).state)
  {
  }

  lemma RemoveKept(s: State, p: StatusRequest, env: Env)
    requires RemoveDomain(s, p, env).Done?
    ensures Kept(s, RemoveDomain(s, p, env).state)
  {
    hide RetireActive, DisabledTls;
  }

  lemma SameDomainsKept(s: State, s': State)
    requires SameDomains(s, s')
    ensures Kept(s, s')
  {
  }

  lemma EffectKept(s: State, step: Step)
    requires WellFormed(step) && !step.Confirm? && Effect(s, step).Done?
    ensures Kept(s, Effect(s, step).state)
  {
    hide CreateDomain, UpdateDomain, ChangeStatus, RemoveDomain, Kept, PrepareTarget, NewDomainId;
    match step
    case Create(p, env) =>
      CreateKept(s, p, env, NewDomainId(p), BaseName(p.name), PrepareTarget(p.target, BaseName(p.name)).value);
    case Update(p, env) => UpdateKept(s, p, env);
    case Suspend(p, env) => StatusKept(s, p, env, Suspended, {Pending, Active});
    case Resume(p, env) => StatusKept(s, p, env, Pending, {Suspended});
    case Remove(p, env) => RemoveKept(s, p, env);
    case Confirm(_) =>
    case _ =>
      LateralSameDomains(s, step);
      assert Kept(s, Effect(s, step).state) by { SameDomainsKept(s, Effect(s, step).state); }
  }

  // ----- Confirmation -----------------------------------------------------

  /** The confirmation names the domain with the target that is current, and the domain is pending. */
  predicate Confirmed(s: State, account: Id, expected: seq<Expectation>, d: Id) {
    && Owned(s, account, d) && s.domains[d].status == Pending
    && d in s.live && Expectation(d, s.live[d]) in expected
  }

  ghost predicate ExactlyConfirmed(s: State, account: Id, expected: seq<Expectation>, domains: map<Id, Domain>) {
    && (forall d :: d in domains <==> d in s.domains)
    && (forall d :: d in domains ==>
          domains[d] == if Confirmed(s, account, expected, d) then s.domains[d].(status := Active) else s.domains[d])
  }

  lemma ConfirmedAppend(s: State, account: Id, expected: seq<Expectation>, e: Expectation, d: Id)
    ensures Confirmed(s, account, expected + [e], d) <==>
      Confirmed(s, account, expected, d) || (e.domain == d && Confirmable(s, account, e))
  {
  }

  lemma ConfirmOneRow(s: State, s1: State, account: Id, expected: seq<Expectation>, e: Expectation, d: Id)
    requires s1.live == s.live && d in s.domains && d in s1.domains
    requires s1.domains[d] == if Confirmed(s, account, expected, d) then s.domains[d].(status := Active)
      else s.domains[d]
    ensures d in ConfirmOne(s1, account, e).domains
    ensures ConfirmOne(s1, account, e).domains[d] ==
      if Confirmed(s, account, expected + [e], d) then s.domains[d].(status := Active) else s.domains[d]
  {
    ConfirmedAppend(s, account, expected, e, d);
    if d == e.domain {
      assert Confirmable(s1, account, e) <==> Confirmable(s, account, e) && !Confirmed(s, account, expected, d);
    }
  }

  lemma ConfirmOneExact(s: State, s1: State, account: Id, expected: seq<Expectation>, e: Expectation)
    requires s1 == s.(domains := s1.domains) && ExactlyConfirmed(s, account, expected, s1.domains)
    ensures ConfirmOne(s1, account, e) == s.(domains := ConfirmOne(s1, account, e).domains)
    ensures ExactlyConfirmed(s, account, expected + [e], ConfirmOne(s1, account, e).domains)
  {
    forall d | d in s.domains
      ensures ConfirmOne(s1, account, e).domains[d] ==
        if Confirmed(s, account, expected + [e], d) then s.domains[d].(status := Active) else s.domains[d]
    {
      ConfirmOneRow(s, s1, account, expected, e, d);
    }
    hide Confirmed;
  }

  /** The loop over expectations activates exactly the confirmed domains and touches nothing else. */
  lemma {:induction false} ConfirmAllExact(s: State, account: Id, expected: seq<Expectation>)
    ensures ConfirmAll(s, account, expected) == s.(domains := ConfirmAll(s, account, expected).domains)
    ensures ExactlyConfirmed(s, account, expected, ConfirmAll(s, account, expected).domains)
  {
    if expected != [] {
      var rest, e := expected[..|expected| - 1], expected[|expected| - 1];
      ConfirmAllExact(s, account, rest);
      hide ExactlyConfirmed, ConfirmOne;
      ConfirmOneExact(s, ConfirmAll(s, account, rest), account, rest, e);
      assert rest + [e] == expected;
    }
  }

  // ----- Operations commit once -------------------------------------------

  lemma EffectKeepsHistory(s: State, step: Step)
    requires WellFormed(step) && Effect(s, step).Done?
    ensures Effect(s, step).state.mutations == s.mutations && TargetsKept(s.targets, Effect(s, step).state.targets)
  {
    if step.Confirm? {
      ConfirmAllExact(s, step.confirm.account, step.confirm.expected);
    } else {
      hide Effect, TargetsKept;
      EffectKept(s, step);
    }
  }

  predicate Carries(step: Step, o: Id) {
    KeyOf(step).Some? && KeyOf(step).value.operation == Some(o)
  }

  function RowOf(step: Step): Mutation
    requires KeyOf(step).Some?
  {
    Mutation(KeyOf(step).value.account, KeyOf(step).value.domain, KeyOf(step).value.action)
  }

  /** Rows already recorded stay, and a step adds at most the row of its own operation. */
  lemma NextHistory(s: State, step: Step)
    ensures TargetsKept(s.targets, Next(s, step).targets)
    ensures Next(s, step).mutations == s.mutations
      || exists o :: Carries(step, o) && o !in s.mutations && Next(s, step).mutations == s.mutations[o := RowOf(step)]
  {
    hide Effect, WellFormed, KeyOf;
    NextShape(s, step);
    if Next(s, step) != s {
      EffectKeepsHistory(s, step);
      if KeyOf(step).Some? && KeyOf(step).value.operation.Some? {
        assert Carries(step, KeyOf(step).value.operation.value);
      }
    }
  }

  /**
   Once an operation has its row, any further delivery of any step carrying it changes
   nothing; it is answered as done if and only if it is the very mutation that was recorded.
   */
  lemma RecordedIsFinal(s: State, step: Step, o: Id)
    requires Carries(step, o) && o in s.mutations
    ensures Next(s, step) == s
    ensures WellFormed(step) ==> (Attempt(s, step).Done? <==> s.mutations[o] == RowOf(step))
  {
    hide Effect, WellFormed, KeyOf;
    if WellFormed(step) && Effect(s, step).Done? {
      EffectKeepsHistory(s, step);
    }
  }

  lemma {:induction false} RunHistory(s: State, steps: seq<Step>, o: Id)
    requires o in s.mutations
    ensures o in Run(s, steps).mutations && Run(s, steps).mutations[o] == s.mutations[o]
  {
    hide Next, Carries, RowOf;
    if steps != [] {
      RunHistory(s, steps[..|steps| - 1], o);
      NextHistory(Run(s, steps[..|steps| - 1]), steps[|steps| - 1]);
    }
  }

  lemma {:induction false} RunConcat(s: State, xs: seq<Step>, ys: seq<Step>)
    ensures Run(s, xs + ys) == Run(Run(s, xs), ys)
    decreases |ys|
  {
    hide Next;
    if ys == [] {
      assert xs + ys == xs;
    } else {
      var front := ys[..|ys| - 1];
      assert (xs + ys)[..|xs + ys| - 1] == xs + front;
      RunConcat(s, xs, front);
    }
  }

  /**
   Redelivery is invisible: a step whose operation was committed anywhere earlier can be
   inserted anywhere later, any number of other steps in between, without any effect.
   */
  lemma RedeliveryInvisible(s: State, xs: seq<Step>, ys: seq<Step>, again: Step, zs: seq<Step>, o: Id)
    requires Carries(again, o) && o in Run(s, xs).mutations
    ensures Run(s, xs + ys + [again] + zs) == Run(s, xs + ys + zs)
  {
    hide Next, Carries;
    RunConcat(s, xs, ys);
    RunHistory(Run(s, xs), ys, o);
    var s1 := Run(s, xs + ys);
    RecordedIsFinal(s1, again, o);
    RunOne(s1, again);
    hide Run;
    RunConcat(s, xs + ys, [again]);
    RunConcat(s, xs + ys + [again], zs);
    RunConcat(s, xs + ys, zs);
  }

  lemma RunOne(s: State, step: Step)
    ensures Run(s, [step]) == Next(s, step)
  {
    hide Next;
    assert [step][..0] == [];
  }

  /** A delivery that is refused or repeated leaves no trace; one that commits records its operation. */
  lemma CommitsIffRecords(s: State, step: Step, o: Id)
    requires Carries(step, o) && Next(s, step) != s
    ensures o !in s.mutations && o in Next(s, step).mutations
  {
    hide Effect, WellFormed, KeyOf;
    if o in s.mutations {
      RecordedIsFinal(s, step, o);
    }
  }

  /** Keeps uncorrelated steps and, of each operation's deliveries, only the one that commits. */
  ghost function Effective(s: State, steps: seq<Step>): seq<Step> {
    if steps == [] then []
    else
      var front, last := steps[..|steps| - 1], steps[|steps| - 1];
      if KeyOf(last).Some? && KeyOf(last).value.operation.Some? &&
        !Records(Run(s, front), last, KeyOf(last).value.operation.value)
      then Effective(s, front) else Effective(s, front) + [last]
  }

  ghost predicate Records(s: State, step: Step, o: Id) {
    o !in s.mutations && o in Next(s, step).mutations
  }

  /**
   At-least-once delivery: dropping every delivery but the first successful one of each operation
   gives the same final state.
   */
  lemma {:induction false} DeduplicationIsExact(s: State, steps: seq<Step>)
    ensures Run(s, Effective(s, steps)) == Run(s, steps)
  {
    if steps != [] {
      var front, last := steps[..|steps| - 1], steps[|steps| - 1];
      DeduplicationIsExact(s, front);
      hide Next, KeyOf;
      if KeyOf(last).Some? && KeyOf(last).value.operation.Some? &&
        !Records(Run(s, front), last, KeyOf(last).value.operation.value) {
        if Next(Run(s, front), last) != Run(s, front) {
          CommitsIffRecords(Run(s, front), last, KeyOf(last).value.operation.value);
        }
      } else {
        assert (Effective(s, front) + [last])[..|Effective(s, front)|] == Effective(s, front);
      }
    }
  }

  /** Each operation is left with at most one delivery. */
  lemma {:induction false} OneDeliveryEach(s: State, steps: seq<Step>, o: Id)
    ensures forall i, j | 0 <= i < j < |Effective(s, steps)| ::
      !(Carries(Effective(s, steps)[i], o) && Carries(Effective(s, steps)[j], o))
    ensures (exists i :: 0 <= i < |Effective(s, steps)| && Carries(Effective(s, steps)[i], o)) ==>
      o in Run(s, steps).mutations
  {
    if steps != [] {
      var front, last := steps[..|steps| - 1], steps[|steps| - 1];
      OneDeliveryEach(s, front, o);
      NextHistory(Run(s, front), last);
      hide Next, KeyOf, RowOf;
    }
  }

  // ----- Activation -------------------------------------------------------

  predicate IsActive(s: State, d: Id) {
    d in s.domains && s.domains[d].status == Active
  }

  /**
   A step activates a domain if and only if it is an admissible confirmation, for the revision
   that is active, naming the pending domain together with its current target.
   */
  lemma ActivationIffConfirmed(s: State, step: Step, d: Id)
    requires !IsActive(s, d)
    ensures IsActive(Next(s, step), d) <==>
      && step.Confirm? && ConfirmWellFormed(step.confirm)
      && AppliedState.ActiveMatch(s.applied, step.confirm.account, step.confirm.desired, step.confirm.operation)
      && Confirmed(s, step.confirm.account, step.confirm.expected, d)
  {
    if step.Confirm? {
      hide ConfirmWellFormed, AppliedState.ActiveMatch;
      ConfirmAllExact(s, step.confirm.account, step.confirm.expected);
    } else {
      hide Effect, WellFormed, KeyOf;
      NextShape(s, step);
      if Next(s, step) != s {
        EffectKept(s, step);
      }
    }
  }

  /** Confirmations in the trace mention `d` only with targets already superseded in `s`. */
  ghost predicate OnlyStale(s: State, steps: seq<Step>, d: Id) {
    forall i, e | 0 <= i < |steps| && steps[i].Confirm? && e in steps[i].confirm.expected && e.domain == d ::
      e.target in s.targets && s.targets[e.target].superseded
  }

  /** However late they arrive, confirmations of superseded targets never activate the domain. */
  lemma {:induction false} StaleNeverActivates(start: seq<Step>, steps: seq<Step>, d: Id)
    requires !IsActive(Run(EMPTY, start), d) && OnlyStale(Run(EMPTY, start), steps, d)
    ensures !IsActive(Run(EMPTY, start + steps), d)
    ensures TargetsKept(Run(EMPTY, start).targets, Run(EMPTY, start + steps).targets)
  {
    if steps == [] {
      assert start + steps == start;
    } else {
      var front, last := steps[..|steps| - 1], steps[|steps| - 1];
      assert (start + steps)[..|start + steps| - 1] == start + front;
      var s0, s := Run(EMPTY, start), Run(EMPTY, start + front);
      assert Run(EMPTY, start + steps) == Next(s, last);
      assert OnlyStale(s0, front, d);
      StaleNeverActivates(start, front, d);
      ReachableInv(start + front);
      NextHistory(s, last);
      if last.Confirm? {
        assert forall e | e in last.confirm.expected && e.domain == d ::
          e.target in s0.targets && s0.targets[e.target].superseded;
      }
      hide Run, Next, Carries, RowOf, Disjoint, RowsMatch;
      ActivationIffConfirmed(s, last, d);
    }
  }

  // ----- Applied revisions ------------------------------------------------

  lemma OnlyRecordingApplies(s: State, step: Step)
    requires WellFormed(step) && !step.RecordApplied? && Effect(s, step).Done?
    ensures Effect(s, step).state.applied == s.applied
  {
    match step
    case Create(p, env) =>
      hide WildcardConflict, NameTaken, HostNames.StorableName, LiveCount, PackageAllows, PrepareTarget, NewDomainId,
        BaseName, CacheFits;
    case Update(p, env) => UpdateSameApplied(s, p, env);
    case Confirm(p) => ConfirmAllExact(s, p.account, p.expected);
    case Activate(d, c) => hide Predecessor, OtherActive;
    case _ =>
      hide RetireActive, DisabledTls;
  }

  lemma UpdateSameApplied(s: State, p: UpdateRequest, env: Env)
    requires UpdateDomain(s, p, env).Done?
    ensures UpdateDomain(s, p, env).state.applied == s.applied
  {
    hide ReplaceTarget, FinishUpdate;
    var s1 := if p.target.None? then s else ReplaceTarget(s, p.domain, p.targetId, p.target.value, env).state;
    if p.target.Some? {
      ReplaceRows(s, p.domain, p.targetId, p.target.value, env);
    }
    FinishSameApplied(s1, p);
  }

  lemma FinishSameApplied(s: State, p: UpdateRequest)
    requires FinishUpdate(s, p).Done?
    ensures FinishUpdate(s, p).state.applied == s.applied
  {
    hide CacheFits, CurrentSpec, EditedRow;
  }

  lemma NextApplied(s: State, step: Step)
    requires AppliedState.Inv(s.applied)
    ensures AppliedState.Inv(Next(s, step).applied) && AppliedState.Extends(s.applied, Next(s, step).applied)
  {
    hide Effect, WellFormed, KeyOf, AppliedState.Inv;
    NextShape(s, step);
    if Next(s, step) != s {
      if step.RecordApplied? {
        RecordingStep(s, step);
      } else {
        OnlyRecordingApplies(s, step);
      }
    }
  }

  lemma RecordingStep(s: State, step: Step)
    requires AppliedState.Inv(s.applied) && step.RecordApplied? && Effect(s, step).Done?
    ensures AppliedState.Inv(Effect(s, step).state.applied)
    ensures AppliedState.Extends(s.applied, Effect(s, step).state.applied)
  {
    AppliedState.RecordingActivates(s.applied, s.operations, step.request);
    hide AppliedState.RecordRevision;
  }

  /** At most one active revision per account in every reachable state, and revisions only ever become inactive. */
  lemma {:induction false} ReachableApplied(steps: seq<Step>, n: nat)
    requires n <= |steps|
    ensures AppliedState.Inv(Run(EMPTY, steps).applied)
    ensures AppliedState.Extends(Run(EMPTY, steps[..n]).applied, Run(EMPTY, steps).applied)
    decreases |steps|
  {
    hide Next;
    if steps != [] {
      var front := steps[..|steps| - 1];
      ReachableApplied(front, if n < |steps| then n else 0);
      NextApplied(Run(EMPTY, front), steps[|steps| - 1]);
      hide AppliedState.Inv;
      if n == |steps| {
        assert steps[..n] == steps;
      } else {
        assert front[..n] == steps[..n];
        AppliedState.ExtendsTransitive(Run(EMPTY, steps[..n]).applied, Run(EMPTY, front).applied,
          Run(EMPTY, steps).applied);
      }
    }
  }

  /**
   Once an operation's revision was superseded, confirmations in its name change nothing for
   ever, whatever targets they list.
   */
  lemma SupersededRevisionConfirmsNothing(steps: seq<Step>, n: nat, id: Id, p: ConfirmRequest)
    requires n <= |steps| && AppliedState.Produced(Run(EMPTY, steps[..n]).applied, id, p.account, p.operation)
    requires !Run(EMPTY, steps[..n]).applied[id].active
    ensures Next(Run(EMPTY, steps), Confirm(p)) == Run(EMPTY, steps)
  {
    ReachableApplied(steps, n);
    ReachableApplied(steps[..n], 0);
    var s := Run(EMPTY, steps);
    hide Run, ConfirmAll;
    AppliedState.SupersededNeverMatches(Run(EMPTY, steps[..n]).applied, s.applied, id, p.account, p.desired,
      p.operation);
  }
}
