/**
 The status of a domain over its life: which transaction may change it, from what to what, and
 what a creation was allowed to do.
 */
module DomainLifecycle {
  import opened Base
  import opened Domains
  import opened DomainRouting
  import opened DomainReplay

  /** The status changes the lifecycle knows, by transaction. */
  predicate Legal(step: Step, d: Id, from: Status, to: Status) {
    match step
    case Update(p, _) => d == p.domain && from in {Pending, Active} && to == Pending
    case Suspend(p, _) => d == p.domain && from in {Pending, Active} && to == Suspended
    case Resume(p, _) => d == p.domain && from == Suspended && to == Pending
    case Remove(p, _) => d == p.domain && from != Removed && to == Removed
    case Confirm(p) => from == Pending && to == Active && exists i :: 0 <= i < |p.expected| && p.expected[i].domain == d
    case _ => false
  }

  /** The row keeps its owner and name, and its status changes only as the lifecycle allows. */
  ghost predicate RowMoves(domains: map<Id, Domain>, domains': map<Id, Domain>, step: Step, d: Id) {
    && d in domains && d in domains'
    && domains'[d].account == domains[d].account && domains'[d].name == domains[d].name
    && (domains'[d].status != domains[d].status ==> Legal(step, d, domains[d].status, domains'[d].status))
  }

  lemma UpdateDomains(s: State, p: UpdateRequest, env: Env)
    requires UpdateDomain(s, p, env).Done?
    ensures p.domain in s.domains && s.domains[p.domain].status != Removed
    ensures UpdateDomain(s, p, env).state.domains == s.domains[p.domain := EditedRow(s.domains[p.domain], p)]
  {
    hide ReplaceTarget, WildcardConflict, PrepareTarget, CacheFits, EditedRow;
    if p.target.Some? {
      ReplaceRows(s, p.domain, p.targetId, p.target.value, env);
    }
  }

  lemma ConfirmMoves(s: State, p: ConfirmRequest, d: Id)
    requires d in s.domains
    ensures RowMoves(s.domains, ConfirmAll(s, p.account, p.expected).domains, Confirm(p), d)
  {
    ConfirmAllExact(s, p.account, p.expected);
    hide ConfirmAll;
    if Confirmed(s, p.account, p.expected, d) {
      var i :| 0 <= i < |p.expected| && p.expected[i] == Expectation(d, s.live[d]);
    }
  }

  lemma EffectMoves(s: State, step: Step, d: Id)
    requires WellFormed(step) && Effect(s, step).Done? && d in s.domains
    ensures RowMoves(s.domains, Effect(s, step).state.domains, step, d)
  {
    match step
    case Create(p, env) =>
      hide CreateDomain, PrepareTarget, NewDomainId, WildcardConflict, NameTaken, HostNames.StorableName, BaseName,
        InitialTls;
      CreateRows(s, p, env, NewDomainId(p), BaseName(p.name), PrepareTarget(p.target, BaseName(p.name)).value);
    case Update(p, env) =>
      hide UpdateDomain;
      UpdateDomains(s, p, env);
    case Confirm(p) =>
      hide ConfirmAll, RowMoves;
      ConfirmMoves(s, p, d);
    case Suspend(_, _) =>
    case Resume(_, _) =>
    case Remove(_, _) => hide RetireActive, DisabledTls;
    case _ =>
      LateralSameDomains(s, step);
      hide Effect, Legal;
  }

  /** Every step of the system moves every existing row only as the lifecycle allows. */
  lemma StatusChangesAreLegal(s: State, step: Step, d: Id)
    requires d in s.domains
    ensures RowMoves(s.domains, Next(s, step).domains, step, d)
  {
    hide Next, Effect, WellFormed, KeyOf, Legal;
    NextShape(s, step);
    if Next(s, step) != s {
      EffectMoves(s, step, d);
    }
  }

  /** A domain keeps owner and name for ever, and once removed it stays removed. */
  lemma {:induction false} RemovalIsFinal(s: State, steps: seq<Step>, d: Id)
    requires d in s.domains
    ensures var s' := Run(s, steps);
      && d in s'.domains && s'.domains[d].account == s.domains[d].account && s'.domains[d].name == s.domains[d].name
      && (s.domains[d].status == Removed ==> s'.domains[d].status == Removed)
  {
    if steps != [] {
      hide Next;
      RemovalIsFinal(s, steps[..|steps| - 1], d);
      StatusChangesAreLegal(Run(s, steps[..|steps| - 1]), steps[|steps| - 1], d);
    }
  }

  // ----- Creation ---------------------------------------------------------

  ghost function LiveSet(s: State, account: Id): set<Id> {
    set d | d in s.domains && Live(s, d) && s.domains[d].account == account
  }

  /** A committed creation stays within the package: the number of domains, the target kind, the document root. */
  lemma CreateStaysWithinPackage(s: State, p: CreateRequest, env: Env, d: Id, name: string, spec: TargetSpec)
    requires CreateDomain(s, p, env, d, name, spec).Done?
    ensures var s' := CreateDomain(s, p, env, d, name, spec).state;
      && env.limits.Some? && LiveCount(s', p.account) == LiveCount(s, p.account) + 1 <= env.limits.value.maxDomains
      && PackageAllows(spec, env.limits.value, env) && !RootFails(spec, env)
  {
    hide WildcardConflict, NameTaken, HostNames.StorableName, PackageAllows, RootFails;
    var s' := CreateDomain(s, p, env, d, name, spec).state;
    CreateRows(s, p, env, d, name, spec);
    hide CreateDomain;
    assert LiveSet(s', p.account) == LiveSet(s, p.account) + {d};
  }
}
