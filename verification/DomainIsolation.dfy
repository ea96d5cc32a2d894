/**
 What a domain mutation may touch: the rows of its own domain, which must belong to the
 account it was requested for.
 */
module DomainIsolation {
  import opened Base
  import opened Domains
  import opened DomainRouting
  import opened DomainReplay

  /** The two tables agree on `k`. */
  ghost predicate SameAt<T(!new)>(m: map<Id, T>, m': map<Id, T>, k: Id) {
    (k in m <==> k in m') && (k in m ==> m'[k] == m[k])
  }

  ghost predicate SameCertificates(certificates: map<Id, Certificate>, certificates': map<Id, Certificate>, d: Id) {
    forall c :: c in certificates && certificates[c].domain == d ==>
      c in certificates' && certificates'[c] == certificates[c]
  }

  /** Every row of domain `d`, and the target it routes to, is as before. */
  ghost predicate Untouched(s: State, s': State, d: Id) {
    && SameAt(s.domains, s'.domains, d) && SameAt(s.live, s'.live, d)
    && (HasTarget(s, d) ==> HasTarget(s', d) && CurrentSpec(s', d) == CurrentSpec(s, d))
    && SameAt(s.tls, s'.tls, d) && SameAt(s.waf, s'.waf, d) && SameAt(s.cache, s'.cache, d)
    && SameCertificates(s.certificates, s'.certificates, d)
  }

  lemma UntouchedTransitive(s: State, s1: State, s2: State, d: Id)
    requires Untouched(s, s1, d) && Untouched(s1, s2, d)
    ensures Untouched(s, s2, d)
  {
  }

  lemma RetireUntouched(certificates: map<Id, Certificate>, d: Id, o: Id)
    requires o != d
    ensures SameCertificates(certificates, RetireActive(certificates, d), o)
  {
  }

  lemma CreateUntouched(s: State, p: CreateRequest, env: Env, d: Id, name: string, spec: TargetSpec, o: Id)
    requires CreateDomain(s, p, env, d, name, spec).Done? && o in s.domains
    ensures Untouched(s, CreateDomain(s, p, env, d, name, spec).state, o)
  {
    hide CreateDomain, WildcardConflict, NameTaken, HostNames.StorableName, InitialTls;
    CreateRows(s, p, env, d, name, spec);
  }

  lemma SwapUntouched(s: State, d: Id, targetId: Id, spec: TargetSpec, env: Env, o: Id)
    requires SwapTarget(s, d, targetId, spec, env).Done? && o != d && IndexExact(s.live, s.targets)
    ensures Untouched(s, SwapTarget(s, d, targetId, spec, env).state, o)
  {
    hide SwapTarget;
    SwapRows(s, d, targetId, spec, env);
    assert o in s.live ==> CurrentOf(s.targets, s.live[o], o);
    assert CurrentOf(s.targets, s.live[d], d);
  }

  lemma RefreshUntouched(s: State, d: Id, name: string, spec: TargetSpec, o: Id)
    requires o != d
    ensures Untouched(s, RefreshTls(s, d, name, spec), o)
  {
    RefreshRows(s, d, name, spec);
    RetireUntouched(s.certificates, d, o);
    hide IntentChanges, RetireActive, RefreshedTls;
    if !(d in s.tls && IntentChanges(s.tls[d], name, spec)) {
      assert RefreshTls(s, d, name, spec) == s;
    }
  }

  lemma ReplaceUntouched(s: State, d: Id, targetId: Id, raw: TargetSpec, env: Env, o: Id)
    requires d in s.domains && env.limits.Some? && ReplaceTarget(s, d, targetId, raw, env).Done?
    requires o != d && IndexExact(s.live, s.targets)
    ensures Untouched(s, ReplaceTarget(s, d, targetId, raw, env).state, o)
  {
    hide WildcardConflict, PackageAllows, SwapTarget, RefreshTls, PrepareTarget, Untouched, IndexExact;
    var name := s.domains[d].name;
    var spec := PrepareTarget(raw, name).value;
    var s1 := SwapTarget(s, d, targetId, spec, env).state;
    SwapUntouched(s, d, targetId, spec, env, o);
    RefreshUntouched(s1, d, name, spec, o);
    UntouchedTransitive(s, s1, RefreshTls(s1, d, name, spec), o);
  }

  lemma FinishUntouched(s: State, p: UpdateRequest, o: Id)
    requires FinishUpdate(s, p).Done? && o != p.domain
    ensures Untouched(s, FinishUpdate(s, p).state, o)
  {
    hide CacheFits, EditedRow;
  }

  lemma UpdateUntouched(s: State, p: UpdateRequest, env: Env, o: Id)
    requires UpdateDomain(s, p, env).Done? && o != p.domain && IndexExact(s.live, s.targets)
    ensures Untouched(s, UpdateDomain(s, p, env).state, o)
  {
    hide ReplaceTarget, FinishUpdate, Untouched, IndexExact;
    if p.target.Some? {
      var s1 := ReplaceTarget(s, p.domain, p.targetId, p.target.value, env).state;
      ReplaceUntouched(s, p.domain, p.targetId, p.target.value, env, o);
      FinishUntouched(s1, p, o);
      UntouchedTransitive(s, s1, FinishUpdate(s1, p).state, o);
    } else {
      FinishUntouched(s, p, o);
    }
  }

  lemma StatusUntouched(s: State, p: StatusRequest, env: Env, status: Status, allowed: set<Status>, o: Id)
    requires ChangeStatus(s, p, env, status, allowed).Done? && o != p.domain
    ensures Untouched(s, ChangeStatus(s, p, env, status, allowed).state, o)
  {
  }

  lemma RemoveUntouched(s: State, p: StatusRequest, env: Env, o: Id)
    requires RemoveDomain(s, p, env).Done? && o != p.domain
    ensures Untouched(s, RemoveDomain(s, p, env).state, o)
  {
    RetireUntouched(s.certificates, p.domain, o);
    hide RetireActive, DisabledTls;
  }

  lemma ConfirmUntouched(s: State, p: ConfirmRequest, o: Id)
    requires o in s.domains && s.domains[o].account != p.account
    ensures Untouched(s, ConfirmAll(s, p.account, p.expected), o)
  {
    ConfirmAllExact(s, p.account, p.expected);
    hide ConfirmAll;
  }

  /** The account in whose name a step runs. */
  function Requester(step: Step): Option<Id> {
    match step
    case Create(p, _) => Some(p.account)
    case Update(p, _) => Some(p.account)
    case Suspend(p, _) => Some(p.account)
    case Resume(p, _) => Some(p.account)
    case Remove(p, _) => Some(p.account)
    case Confirm(p) => Some(p.account)
    case _ => None
  }

  lemma EffectUntouched(s: State, step: Step, o: Id)
    requires IndexExact(s.live, s.targets) && WellFormed(step) && Effect(s, step).Done?
    requires Requester(step).Some? && o in s.domains && s.domains[o].account != Requester(step).value
    ensures Untouched(s, Effect(s, step).state, o)
  {
    match step
    case Create(p, env) =>
      hide CreateDomain, PrepareTarget, NewDomainId, Untouched, BaseName, IndexExact;
      CreateUntouched(s, p, env, NewDomainId(p), BaseName(p.name), PrepareTarget(p.target, BaseName(p.name)).value, o);
    case Update(p, env) =>
      assert o != p.domain;
      hide UpdateDomain, Untouched, IndexExact;
      UpdateUntouched(s, p, env, o);
    case Suspend(p, env) => StatusUntouched(s, p, env, Suspended, {Pending, Active}, o);
    case Resume(p, env) => StatusUntouched(s, p, env, Pending, {Suspended}, o);
    case Remove(p, env) =>
      assert o != p.domain;
      hide RemoveDomain, Untouched, IndexExact;
      RemoveUntouched(s, p, env, o);
    case Confirm(p) =>
      hide ConfirmAll, Untouched, IndexExact;
      ConfirmUntouched(s, p, o);
  }

  /** In every reachable state, nothing one account requests touches a domain of another account. */
  lemma AccountsAreIsolated(steps: seq<Step>, step: Step, o: Id)
    requires var s := Run(EMPTY, steps);
      Requester(step).Some? && o in s.domains && s.domains[o].account != Requester(step).value
    ensures Untouched(Run(EMPTY, steps), Next(Run(EMPTY, steps), step), o)
  {
    ReachableInv(steps);
    var s := Run(EMPTY, steps);
    hide Run, Effect, WellFormed, KeyOf, IndexExact, Disjoint, RoutesOf, RowsMatch;
    NextShape(s, step);
    if Next(s, step) != s {
      EffectUntouched(s, step, o);
    }
  }

  // ----- What an edit does to its own domain ------------------------------

  /**
   Every property that was named has the new value, every other keeps its own, the cache moves to
   the edit's namespace, a suspended domain stays suspended and any other becomes pending again.
   */
  ghost predicate Edited(s: State, s': State, p: UpdateRequest) {
    var d := p.domain;
    && d in s.domains && d in s.cache && HasTarget(s, d) && d in s'.domains && d in s'.cache && HasTarget(s', d)
    && s'.domains[d].account == s.domains[d].account && s'.domains[d].name == s.domains[d].name
    && s'.domains[d].canonical == (if p.canonical.Some? then p.canonical.value else s.domains[d].canonical)
    && s'.domains[d].status == (if s.domains[d].status == Suspended then Suspended else Pending)
    && s'.cache[d] == Cache(if p.preset.Some? then p.preset.value else s.cache[d].preset, p.targetId)
    && (p.waf.Some? ==> d in s'.waf && s'.waf[d] == p.waf.value) && (p.waf.None? ==> s'.waf == s.waf)
    && (p.target.Some? ==>
          Some(CurrentSpec(s', d)) == PrepareTarget(p.target.value, s.domains[d].name) && s'.live[d] == p.targetId)
    && (p.target.None? ==>
          s'.live == s.live && s'.targets == s.targets && s'.tls == s.tls && s'.certificates == s.certificates)
    && CacheFits(s'.cache[d].preset, CurrentSpec(s', d))
  }

  /** A committed edit does just that. */
  lemma EditIsExact(s: State, p: UpdateRequest, env: Env)
    requires UpdateDomain(s, p, env).Done?
    ensures Edited(s, UpdateDomain(s, p, env).state, p)
  {
    hide WildcardConflict, PackageAllows, PrepareTarget, ReplaceTarget, CacheFits;
    var d := p.domain;
    if p.target.Some? {
      ReplaceRows(s, d, p.targetId, p.target.value, env);
    }
  }
}
