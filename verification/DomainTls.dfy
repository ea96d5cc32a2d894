/**
 TLS intent and certificates: what every run of the lifecycle keeps between a domain's
 current target, its TLS row and its certificate rows.
 */
module DomainTls {
  import opened Base
  import opened HostNames
  import opened Domains
  import opened DomainRouting

  // ----- Invariant --------------------------------------------------------

  /** The issuance status agrees with whether TLS is on and a certificate is referenced. */
  predicate Consistent(tls: Tls) {
    && (!tls.enabled <==> tls.issuance == TlsDisabled)
    && (tls.issuance in {TlsDisabled, TlsPending, TlsIssuing} ==> tls.activeRef.None?)
    && (tls.issuance in {TlsActive, TlsRenewing} ==> tls.activeRef.Some?)
  }

  predicate RowOk(name: string, spec: TargetSpec, tls: Tls) {
    && tls.names == TlsNames(name, spec) && tls.challenge == TlsChallenge(tls.mode, spec)
    && Consistent(tls)
  }

  ghost predicate IntentOk(domains: map<Id, Domain>, live: map<Id, Id>, targets: map<Id, Target>, tls: map<Id, Tls>) {
    forall d :: d in domains ==>
      d in live && live[d] in targets && d in tls && RowOk(domains[d].name, targets[live[d]].spec, tls[d])
  }

  predicate ActiveFor(certificates: map<Id, Certificate>, c: Id, d: Id) {
    c in certificates && certificates[c].domain == d && certificates[c].status == CertificateActive
  }

  /** The certificates marked active are exactly those the TLS rows refer to, and they cover the row's names. */
  ghost predicate CertificatesOk(tls: map<Id, Tls>, certificates: map<Id, Certificate>) {
    && (forall c, d :: ActiveFor(certificates, c, d) ==>
          d in tls && tls[d].activeRef == Some(c) && certificates[c].names == tls[d].names)
    && (forall d :: d in tls && tls[d].activeRef.Some? ==> ActiveFor(certificates, tls[d].activeRef.value, d))
  }

  ghost predicate TlsInv(s: State) {
    IntentOk(s.domains, s.live, s.targets, s.tls) && CertificatesOk(s.tls, s.certificates)
  }

  // ----- Steps on the maps ------------------------------------------------

  lemma SameNamesKeepIntent(domains: map<Id, Domain>, domains': map<Id, Domain>, live: map<Id, Id>,
                            targets: map<Id, Target>, tls: map<Id, Tls>)
    requires IntentOk(domains, live, targets, tls)
    requires forall d :: d in domains' ==> d in domains && domains'[d].name == domains[d].name
    ensures IntentOk(domains', live, targets, tls)
  {
  }

  /** A TLS row may change as long as its names, challenge and mode stay and it stays consistent. */
  lemma RowChangeKeepsIntent(domains: map<Id, Domain>, live: map<Id, Id>, targets: map<Id, Target>, tls: map<Id, Tls>,
                             d: Id, row: Tls)
    requires IntentOk(domains, live, targets, tls) && d in tls && Consistent(row)
    requires row.names == tls[d].names && row.challenge == tls[d].challenge && row.mode == tls[d].mode
    ensures IntentOk(domains, live, targets, tls[d := row])
  {
    hide TlsNames, TlsChallenge, Consistent;
  }

  lemma RetireKeepsCertificates(tls: map<Id, Tls>, certificates: map<Id, Certificate>, d: Id, row: Tls)
    requires CertificatesOk(tls, certificates) && row.activeRef.None?
    ensures CertificatesOk(tls[d := row], RetireActive(certificates, d))
  {
    var certificates' := RetireActive(certificates, d);
    forall c, o | ActiveFor(certificates', c, o)
      ensures o in tls[d := row] && tls[d := row][o].activeRef == Some(c)
      ensures certificates'[c].names == tls[d := row][o].names
    {
      assert ActiveFor(certificates, c, o) && o != d;
    }
  }

  lemma FreshRowKeepsCertificates(tls: map<Id, Tls>, certificates: map<Id, Certificate>, d: Id, row: Tls)
    requires CertificatesOk(tls, certificates) && d !in tls && row.activeRef.None?
    ensures CertificatesOk(tls[d := row], certificates)
  {
  }

  lemma InsertKeepsIntent(domains: map<Id, Domain>, live: map<Id, Id>, targets: map<Id, Target>, tls: map<Id, Tls>,
                          d: Id, row: Domain, t: Id, spec: TargetSpec, tlsRow: Tls)
    requires IntentOk(domains, live, targets, tls) && t !in targets && RowOk(row.name, spec, tlsRow)
    ensures IntentOk(domains[d := row], live[d := t], targets[t := Target(d, spec, false)], tls[d := tlsRow])
  {
    hide RowOk;
  }

  lemma SwapKeepsIntent(domains: map<Id, Domain>, live: map<Id, Id>, targets: map<Id, Target>, tls: map<Id, Tls>,
                        d: Id, t: Id, spec: TargetSpec, tlsRow: Tls)
    requires IntentOk(domains, live, targets, tls) && IndexExact(live, targets)
    requires d in domains && t !in targets && RowOk(domains[d].name, spec, tlsRow)
    ensures IntentOk(domains, live[d := t],
      targets[live[d] := targets[live[d]].(superseded := true)][t := Target(d, spec, false)], tls[d := tlsRow])
  {
    hide RowOk;
  }

  lemma InactiveKeepsCertificates(tls: map<Id, Tls>, certificates: map<Id, Certificate>, c: Id, row: Certificate)
    requires CertificatesOk(tls, certificates) && row.status != CertificateActive
    requires c in certificates ==> certificates[c].status != CertificateActive
    ensures CertificatesOk(tls, certificates[c := row])
  {
    forall c', d | ActiveFor(certificates[c := row], c', d) ensures ActiveFor(certificates, c', d) && c' != c {}
  }

  lemma IssuanceKeepsCertificates(tls: map<Id, Tls>, certificates: map<Id, Certificate>, d: Id, row: Tls)
    requires CertificatesOk(tls, certificates) && d in tls && row.names == tls[d].names
    requires row.activeRef == tls[d].activeRef
    ensures CertificatesOk(tls[d := row], certificates)
  {
  }

  lemma ActivateKeepsCertificates(tls: map<Id, Tls>, certificates: map<Id, Certificate>, d: Id, c: Id,
                                  retired: map<Id, Certificate>, row: Tls)
    requires CertificatesOk(tls, certificates) && d in tls && c in certificates && certificates[c].domain == d
    requires certificates[c].names == tls[d].names && certificates[c].status != CertificateActive
    requires Predecessor(certificates, d, c, tls[d].activeRef) == Some(retired)
    requires row.names == tls[d].names && row.activeRef == Some(c)
    ensures CertificatesOk(tls[d := row], retired[c := certificates[c].(status := CertificateActive)])
  {
    var certificates' := retired[c := certificates[c].(status := CertificateActive)];
    forall c', o | ActiveFor(certificates', c', o)
      ensures o in tls[d := row] && tls[d := row][o].activeRef == Some(c')
      ensures certificates'[c'].names == tls[d := row][o].names
    {
      assert c' == c || ActiveFor(certificates, c', o);
    }
    forall o | o in tls && o != d && tls[o].activeRef.Some?
      ensures ActiveFor(certificates', tls[o].activeRef.value, o)
    {
      assert ActiveFor(certificates, tls[o].activeRef.value, o);
    }
  }

  // ----- One lemma per transaction ----------------------------------------

  lemma CreateKeepsTls(s: State, p: CreateRequest, env: Env, d: Id, name: string, spec: TargetSpec)
    requires RowsMatch(s) && TlsInv(s) && CreateDomain(s, p, env, d, name, spec).Done?
    ensures TlsInv(CreateDomain(s, p, env, d, name, spec).state)
  {
    var row := InitialTls(p, name, spec);
    assert RowOk(name, spec, row);
    assert d !in s.tls by { CreateRows(s, p, env, d, name, spec); }
    hide CreateDomain, RowOk, CertificatesOk, IntentOk, InitialTls, RowsMatch, WildcardConflict, NameTaken,
      StorableName;
    CreateRows(s, p, env, d, name, spec);
    InsertKeepsIntent(s.domains, s.live, s.targets, s.tls, d, Domain(p.account, name, Pending, p.canonical),
      p.targetId, spec, row);
    FreshRowKeepsCertificates(s.tls, s.certificates, d, row);
  }

  /** The row and certificates after the conditional refresh. */
  lemma RefreshKeepsTls(s: State, d: Id, name: string, spec: TargetSpec)
    requires d in s.tls && Consistent(s.tls[d]) && CertificatesOk(s.tls, s.certificates)
    ensures var s' := RefreshTls(s, d, name, spec);
      && d in s'.tls && s'.tls == s.tls[d := s'.tls[d]] && RowOk(name, spec, s'.tls[d]) &&
        CertificatesOk(s'.tls, s'.certificates)
  {
    var row := RefreshedTls(s.tls[d], name, spec);
    assert IntentChanges(s.tls[d], name, spec) || RowOk(name, spec, s.tls[d]);
    assert RowOk(name, spec, row);
    hide IntentChanges, RowOk, RefreshedTls, RetireActive, CertificatesOk;
    if IntentChanges(s.tls[d], name, spec) {
      RetireKeepsCertificates(s.tls, s.certificates, d, row);
      assert RefreshTls(s, d, name, spec).tls == s.tls[d := row];
    } else {
      assert RefreshTls(s, d, name, spec) == s && s.tls[d := s.tls[d]] == s.tls;
    }
  }

  lemma ReplaceKeepsTls(s: State, d: Id, targetId: Id, raw: TargetSpec, env: Env)
    requires Indexed(s) && TlsInv(s) && d in s.domains && env.limits.Some?
    requires ReplaceTarget(s, d, targetId, raw, env).Done?
    ensures TlsInv(ReplaceTarget(s, d, targetId, raw, env).state)
  {
    var name := s.domains[d].name;
    var spec := PrepareTarget(raw, name).value;
    var s1 := SwapTarget(s, d, targetId, spec, env).state;
    assert ReplaceTarget(s, d, targetId, raw, env).state == RefreshTls(s1, d, name, spec);
    assert Consistent(s.tls[d]);
    hide ReplaceTarget, PrepareTarget, SwapTarget, RefreshTls, RowOk, CertificatesOk, IntentOk, IndexExact, Consistent;
    SwapRows(s, d, targetId, spec, env);
    RefreshKeepsTls(s1, d, name, spec);
    RefreshRows(s1, d, name, spec);
    SwapKeepsIntent(s.domains, s.live, s.targets, s.tls, d, targetId, spec, RefreshTls(s1, d, name, spec).tls[d]);
  }

  lemma RemoveKeepsTls(s: State, p: StatusRequest, env: Env)
    requires TlsInv(s) && RemoveDomain(s, p, env).Done?
    ensures TlsInv(RemoveDomain(s, p, env).state)
  {
    var d := p.domain;
    var s' := RemoveDomain(s, p, env).state;
    var row := DisabledTls(s.tls[d]);
    assert Consistent(row);
    assert s'.tls == s.tls[d := row] && s'.certificates == RetireActive(s.certificates, d);
    assert forall o :: o in s'.domains ==> o in s.domains && s'.domains[o].name == s.domains[o].name;
    hide RemoveDomain, RetireActive, Consistent, IntentOk, CertificatesOk;
    RetireKeepsCertificates(s.tls, s.certificates, d, row);
    RowChangeKeepsIntent(s.domains, s.live, s.targets, s.tls, d, row);
    SameNamesKeepIntent(s.domains, s'.domains, s.live, s.targets, s'.tls);
  }

  lemma OrderKeepsTls(s: State, d: Id, c: Id, read: seq<string>, predecessor: Option<Id>)
    requires TlsInv(s) && OrderCertificate(s, d, c, read, predecessor).Done?
    ensures TlsInv(OrderCertificate(s, d, c, read, predecessor).state)
  {
    var s' := OrderCertificate(s, d, c, read, predecessor).state;
    var row := s.tls[d].(issuance := if predecessor.None? then TlsIssuing else TlsRenewing);
    assert Consistent(row) by { assert RowOk(s.domains[d].name, s.targets[s.live[d]].spec, s.tls[d]); }
    hide IntentOk, CertificatesOk, Consistent, Sorted;
    InactiveKeepsCertificates(s.tls, s.certificates, c, Certificate(d, Sorted(read), Ordering));
    IssuanceKeepsCertificates(s.tls, s'.certificates, d, row);
    RowChangeKeepsIntent(s.domains, s.live, s.targets, s.tls, d, row);
  }

  lemma ActivateKeepsTls(s: State, d: Id, c: Id)
    requires TlsInv(s) && ActivateCertificate(s, d, c).Done?
    ensures TlsInv(ActivateCertificate(s, d, c).state)
  {
    hide IntentOk, CertificatesOk, Predecessor, OtherActive;
    if s.certificates[c].status != CertificateActive {
      var row := s.tls[d].(issuance := TlsActive, activeRef := Some(c));
      ActivateKeepsCertificates(s.tls, s.certificates, d, c,
        Predecessor(s.certificates, d, c, s.tls[d].activeRef).value, row);
      RowChangeKeepsIntent(s.domains, s.live, s.targets, s.tls, d, row);
    }
  }

  lemma FailKeepsTls(s: State, d: Id)
    requires TlsInv(s) && FailOrder(s, d).Done?
    ensures TlsInv(FailOrder(s, d).state)
  {
    hide IntentOk, CertificatesOk;
    var row := s.tls[d].(issuance := TlsFailed);
    IssuanceKeepsCertificates(s.tls, s.certificates, d, row);
    RowChangeKeepsIntent(s.domains, s.live, s.targets, s.tls, d, row);
  }

  /** Steps that leave targets, TLS rows and certificates alone. */
  ghost predicate SameTls(s: State, s': State) {
    && s'.live == s.live && s'.targets == s.targets && s'.tls == s.tls && s'.certificates == s.certificates
    && forall d :: d in s'.domains ==> d in s.domains && s'.domains[d].name == s.domains[d].name
  }

  lemma SameTlsKeepsInv(s: State, s': State)
    requires TlsInv(s) && SameTls(s, s')
    ensures TlsInv(s')
  {
    hide IntentOk, CertificatesOk;
    SameNamesKeepIntent(s.domains, s'.domains, s.live, s.targets, s.tls);
  }

  lemma FinishSameTls(s: State, p: UpdateRequest)
    requires FinishUpdate(s, p).Done?
    ensures SameTls(s, FinishUpdate(s, p).state)
  {
    hide CacheFits, CurrentSpec;
  }

  lemma {:induction false} ConfirmSameTls(s: State, account: Id, expected: seq<Expectation>)
    ensures SameTls(s, ConfirmAll(s, account, expected))
  {
    if expected != [] {
      ConfirmSameTls(s, account, expected[..|expected| - 1]);
      ConfirmOneSameTls(ConfirmAll(s, account, expected[..|expected| - 1]), account, expected[|expected| - 1]);
    }
  }

  lemma ConfirmOneSameTls(s: State, account: Id, e: Expectation)
    ensures SameTls(s, ConfirmOne(s, account, e))
  {
  }

  lemma StatusSameTls(s: State, p: StatusRequest, env: Env, status: Status, allowed: set<Status>)
    requires ChangeStatus(s, p, env, status, allowed).Done?
    ensures SameTls(s, ChangeStatus(s, p, env, status, allowed).state)
  {
  }

  lemma UpdateKeepsTls(s: State, p: UpdateRequest, env: Env)
    requires Indexed(s) && TlsInv(s) && UpdateDomain(s, p, env).Done?
    ensures TlsInv(UpdateDomain(s, p, env).state)
  {
    hide FinishUpdate, ReplaceTarget, IntentOk, CertificatesOk, Indexed, SameTls;
    var s1 := if p.target.None? then s else ReplaceTarget(s, p.domain, p.targetId, p.target.value, env).state;
    if p.target.Some? {
      ReplaceKeepsTls(s, p.domain, p.targetId, p.target.value, env);
    }
    FinishSameTls(s1, p);
    SameTlsKeepsInv(s1, FinishUpdate(s1, p).state);
  }

  lemma EffectKeepsTls(s: State, step: Step)
    requires Indexed(s) && TlsInv(s) && WellFormed(step) && Effect(s, step).Done?
    ensures TlsInv(Effect(s, step).state)
  {
    hide CreateDomain, UpdateDomain, ChangeStatus, RemoveDomain, ConfirmAll, OrderCertificate, ActivateCertificate,
      FailOrder, IntentOk, CertificatesOk, IndexExact, PrepareTarget, NewDomainId, AppliedState.RecordRevision;
    var s' := Effect(s, step).state;
    match step
    case Create(p, env) =>
      CreateKeepsTls(s, p, env, NewDomainId(p), BaseName(p.name), PrepareTarget(p.target, BaseName(p.name)).value);
    case Update(p, env) => UpdateKeepsTls(s, p, env);
    case Suspend(p, env) =>
      StatusSameTls(s, p, env, Suspended, {Pending, Active});
      SameTlsKeepsInv(s, s');
    case Resume(p, env) =>
      StatusSameTls(s, p, env, Pending, {Suspended});
      SameTlsKeepsInv(s, s');
    case Remove(p, env) => RemoveKeepsTls(s, p, env);
    case Confirm(p) =>
      ConfirmSameTls(s, p.account, p.expected);
      SameTlsKeepsInv(s, s');
    case NewOperation(_, _) => SameTlsKeepsInv(s, s');
    case RecordApplied(_) => SameTlsKeepsInv(s, s');
    case Order(d, c, read, predecessor) => OrderKeepsTls(s, d, c, read, predecessor);
    case Stage(c) => InactiveKeepsCertificates(s.tls, s.certificates, c, s.certificates[c].(status := Staged));
    case Activate(d, c) => ActivateKeepsTls(s, d, c);
    case Fail(d) => FailKeepsTls(s, d);
  }

  lemma NextKeepsTls(s: State, step: Step)
    requires Indexed(s) && TlsInv(s)
    ensures TlsInv(Next(s, step))
  {
    hide Next, Effect, WellFormed, KeyOf, IntentOk, CertificatesOk, Indexed;
    NextShape(s, step);
    if Next(s, step) != s {
      EffectKeepsTls(s, step);
    }
  }

  /**
   In every reachable state each TLS row carries exactly the names and challenge its current
   target calls for, its status agrees with its certificate reference, and the active
   certificates are exactly the referenced ones.
   */
  lemma {:induction false} ReachableTls(steps: seq<Step>)
    ensures TlsInv(Run(EMPTY, steps))
  {
    hide Next, IntentOk, CertificatesOk, Indexed, Disjoint, RoutesOf;
    if steps == [] {
      assert TlsInv(EMPTY) by { EmptyTls(); }
    } else {
      ReachableTls(steps[..|steps| - 1]);
      ReachableInv(steps[..|steps| - 1]);
      NextKeepsTls(Run(EMPTY, steps[..|steps| - 1]), steps[|steps| - 1]);
    }
  }

  lemma EmptyTls()
    ensures TlsInv(EMPTY)
  {
  }

  // ----- What an edit does to certificates --------------------------------

  /** In consistent rows the stored intent changes exactly when the wildcard flag does. */
  lemma IntentChangesIffWildcard(name: string, before: TargetSpec, after: TargetSpec, tls: Tls)
    requires RowOk(name, before, tls)
    ensures IntentChanges(tls, name, after) <==> Wildcard(before) != Wildcard(after)
  {
    assert |TlsNames(name, before)| == if Wildcard(before) then 3 else 2;
    assert |TlsNames(name, after)| == if Wildcard(after) then 3 else 2;
  }

  /** How a transaction treats the certificates of one domain. */
  ghost predicate RetiresExactly(before: map<Id, Certificate>, after: map<Id, Certificate>, d: Id, retire: bool) {
    && (forall c :: c in before <==> c in after)
    && (forall c | c in before :: after[c] ==
          if retire && ActiveFor(before, c, d) then before[c].(status := Retired) else before[c])
  }

  lemma RefreshRetires(s: State, d: Id, name: string, spec: TargetSpec)
    requires d in s.tls
    ensures var s', changes := RefreshTls(s, d, name, spec), IntentChanges(s.tls[d], name, spec);
      && RetiresExactly(s.certificates, s'.certificates, d, changes)
      && d in s'.tls
      && (changes ==>
        s'.tls[d].activeRef.None? && s'.tls[d].issuance == if s.tls[d].enabled then TlsPending else TlsDisabled)
      && (!changes ==> s'.tls == s.tls)
  {
    hide IntentChanges;
    if IntentChanges(s.tls[d], name, spec) {
      assert RefreshTls(s, d, name, spec).certificates == RetireActive(s.certificates, d);
    } else {
      assert RefreshTls(s, d, name, spec) == s;
    }
  }

  /**
   A replaced target retires the domain's active certificate and resets issuance if and only
   if it turns a wildcard into a plain domain or back; certificates of other domains stay.
   */
  lemma ReplaceRetiresIffWildcardFlips(s: State, d: Id, targetId: Id, raw: TargetSpec, env: Env)
    requires TlsInv(s) && d in s.domains && env.limits.Some? && ReplaceTarget(s, d, targetId, raw, env).Done?
    ensures HasTarget(s, d) && HasTarget(ReplaceTarget(s, d, targetId, raw, env).state, d)
    ensures var s' := ReplaceTarget(s, d, targetId, raw, env).state;
      var flips := Wildcard(CurrentSpec(s, d)) != Wildcard(CurrentSpec(s', d));
      && RetiresExactly(s.certificates, s'.certificates, d, flips)
      && d in s'.tls
      && (flips ==>
        s'.tls[d].activeRef.None? && s'.tls[d].issuance == if s.tls[d].enabled then TlsPending else TlsDisabled)
      && (!flips ==> s'.tls == s.tls)
  {
    var name := s.domains[d].name;
    var spec := PrepareTarget(raw, name).value;
    var s1 := SwapTarget(s, d, targetId, spec, env).state;
    assert ReplaceTarget(s, d, targetId, raw, env).state == RefreshTls(s1, d, name, spec);
    IntentChangesIffWildcard(name, CurrentSpec(s, d), spec, s.tls[d]);
    hide ReplaceTarget, PrepareTarget, SwapTarget, RefreshTls, IntentChanges, TlsInv, RowOk, Wildcard, RetiresExactly;
    SwapRows(s, d, targetId, spec, env);
    RefreshRows(s1, d, name, spec);
    RefreshRetires(s1, d, name, spec);
  }
}
