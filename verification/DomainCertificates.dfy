/**
 Which waiting domains a certificate can be ordered for: the order sorts the names it read and
 compares them with the stored names, which are not sorted.
 */
module DomainCertificates {
  import opened Base
  import opened HostNames
  import opened Domains
  import opened DomainRouting
  import opened DomainReplay
  import opened DomainTls
  import opened DomainHosts
  import opened DomainLifecycle
  import AppliedState

  /** The domain awaits its first certificate over HTTP-01. */
  predicate AwaitsFirst(s: State, d: Id) {
    && d in s.domains && s.domains[d].status == Active && d in s.tls
    && s.tls[d].enabled && s.tls[d].mode == Acme && s.tls[d].challenge == Http01
    && s.tls[d].activeRef.None? && s.tls[d].issuance in {TlsPending, TlsFailed}
  }

  /**
   After any run, an order for a waiting domain can succeed, with whatever names were read, if and
   only if the domain's name sorts below its own alias.
   */
  lemma OrderableIffNameSortsFirst(steps: seq<Step>, d: Id, c: Id)
    requires AwaitsFirst(Run(EMPTY, steps), d) && c !in Run(EMPTY, steps).certificates
    ensures var s := Run(EMPTY, steps);
      (exists read :: OrderCertificate(s, d, c, read, None).Done?) <==> Below(s.domains[d].name, Www(s.domains[d].name))
  {
    ReachableTls(steps);
    var s := Run(EMPTY, steps);
    hide Run, CertificatesOk, Sorted;
    var name := s.domains[d].name;
    assert RowOk(name, s.targets[s.live[d]].spec, s.tls[d]);
    assert s.tls[d].names == [name, Www(name)];
    assert name != Www(name) by { assert |Www(name)| == |name| + 4; }
    PairSorted(name, Www(name));
    if Below(name, Www(name)) {
      assert OrderCertificate(s, d, c, [name, Www(name)], None).Done?;
    } else {
      forall read ensures !OrderCertificate(s, d, c, read, None).Done? {
        assert Sorted(read) != [name, Www(name)];
      }
    }
  }

  /** The failing family starts with every name whose first letter comes after "w". */
  lemma LateNamesAreNeverOrdered(steps: seq<Step>, d: Id, c: Id, read: seq<string>)
    requires AwaitsFirst(Run(EMPTY, steps), d) && c !in Run(EMPTY, steps).certificates
    requires Run(EMPTY, steps).domains[d].name != "" && Run(EMPTY, steps).domains[d].name[0] > 'w'
    ensures OrderCertificate(Run(EMPTY, steps), d, c, read, None).Refused?
  {
    OrderableIffNameSortsFirst(steps, d, c);
    var s := Run(EMPTY, steps);
    hide Run, OrderCertificate;
    assert !Below(s.domains[d].name, Www(s.domains[d].name));
  }

  // ----- Such states are reachable ----------------------------------------

  /** An operation, the revision it applied, a domain, and the confirmation that activates it. */
  function Activation(name: string): seq<Step> {
    [NewOperation(5, 0), RecordApplied(AppliedState.Request(7, 0, 8, Some(5), 9, true, true)),
     PlainCreate(0, name, Static), Confirm(ConfirmRequest(0, 8, 5, [Expectation(0, 0)]))]
  }

  lemma RunFour(a: Step, b: Step, c: Step, d: Step)
    ensures Run(EMPTY, [a, b, c, d]) == Next(Next(Next(Next(EMPTY, a), b), c), d)
  {
    hide Next;
    RunTwo(a, b);
    assert [a, b, c, d][..3] == [a, b, c] && [a, b, c][..2] == [a, b];
    assert Run(EMPTY, [a, b, c]) == Next(Run(EMPTY, [a, b]), c);
  }

  lemma RecordedFirst()
    ensures var s := Next(Next(EMPTY, Activation("")[0]), Activation("")[1]);
      && s == EMPTY.(operations := s.operations, applied := s.applied)
      && AppliedState.ActiveMatch(s.applied, 0, 8, 5)
  {
    var s1 := Next(EMPTY, NewOperation(5, 0));
    assert s1 == EMPTY.(operations := map[5 := 0]);
    var p := AppliedState.Request(7, 0, 8, Some(5), 9, true, true);
    assert !AppliedState.OperationRecorded(map[], 0, 5);
    var row := AppliedState.Revision(0, 8, Some(5), 9, true);
    assert AppliedState.SupersedeActive(map[], 0) == map[];
    assert AppliedState.RecordRevision(map[], map[5 := 0], p) == AppliedState.Recorded(7, map[7 := row]);
    var s := Next(s1, RecordApplied(p));
    assert s.applied == map[7 := row] && 7 in s.applied && s.applied[7] == row;
  }

  /** For every name a run ends with the domain active and waiting for its first certificate. */
  lemma WaitingIsReachable(name: string)
    requires StorableName(name) && '.' in name && BaseName(name) == name
    ensures var s := Run(EMPTY, Activation(name));
      AwaitsFirst(s, 0) && s.domains[0].name == name && s.certificates == map[]
  {
    var steps := Activation(name);
    RunFour(steps[0], steps[1], steps[2], steps[3]);
    RecordedFirst();
    var s2 := Next(Next(EMPTY, steps[0]), steps[1]);
    hide Run, StorableName, BaseName, AppliedState.ActiveMatch, Next;
    assert LiveCount(s2, 0) == 0;
    PlainCreateCommits(s2, 0, name, Static);
    var s3 := Next(s2, steps[2]);
    var p := steps[3].confirm;
    assert Confirmed(s3, 0, p.expected, 0) by { assert p.expected[0] == Expectation(0, 0); }
    ConfirmsActive(s3, p);
  }

  lemma ConfirmsActive(s: State, p: ConfirmRequest)
    requires ConfirmWellFormed(p) && AppliedState.ActiveMatch(s.applied, p.account, p.desired, p.operation)
    requires Confirmed(s, p.account, p.expected, 0)
    ensures var s' := Next(s, Confirm(p));
      && s' == s.(domains := s'.domains) && 0 in s'.domains && s'.domains[0] == s.domains[0].(status := Active)
  {
    hide AppliedState.ActiveMatch, ConfirmWellFormed;
    ConfirmAllExact(s, p.account, p.expected);
  }

  // ----- Certificates of reachable states ---------------------------------

  /** The certificate covers its domain's name and alias, in an order only early names have. */
  predicate InNameOrder(domains: map<Id, Domain>, c: Certificate) {
    && c.domain in domains
    && var name := domains[c.domain].name;
      c.names == [name, Www(name)] && Below(name, Www(name))
  }

  ghost predicate AllInNameOrder(s: State) {
    forall c :: c in s.certificates ==> InNameOrder(s.domains, s.certificates[c])
  }

  /** No certificate is new, and each keeps its domain and names. */
  ghost predicate NoneAdded(certificates: map<Id, Certificate>, certificates': map<Id, Certificate>) {
    forall c :: c in certificates' ==>
      c in certificates && certificates'[c].domain == certificates[c].domain
      && certificates'[c].names == certificates[c].names
  }

  lemma RefreshAddsNone(s: State, d: Id, name: string, spec: TargetSpec)
    ensures NoneAdded(s.certificates, RefreshTls(s, d, name, spec).certificates)
  {
    hide IntentChanges, RefreshedTls;
  }

  lemma ReplaceAddsNone(s: State, d: Id, targetId: Id, raw: TargetSpec, env: Env)
    requires d in s.domains && env.limits.Some? && ReplaceTarget(s, d, targetId, raw, env).Done?
    ensures NoneAdded(s.certificates, ReplaceTarget(s, d, targetId, raw, env).state.certificates)
  {
    var name := s.domains[d].name;
    var spec := PrepareTarget(raw, name).value;
    var s1 := SwapTarget(s, d, targetId, spec, env).state;
    assert s1.certificates == s.certificates;
    RefreshAddsNone(s1, d, name, spec);
    hide PrepareTarget, PackageAllows, WildcardConflict, SwapTarget, RefreshTls, NoneAdded;
  }

  lemma UpdateAddsNone(s: State, p: UpdateRequest, env: Env)
    requires UpdateDomain(s, p, env).Done?
    ensures NoneAdded(s.certificates, UpdateDomain(s, p, env).state.certificates)
  {
    hide FinishUpdate, ReplaceTarget, SameTls;
    var s1 := if p.target.None? then s else ReplaceTarget(s, p.domain, p.targetId, p.target.value, env).state;
    if p.target.Some? {
      ReplaceAddsNone(s, p.domain, p.targetId, p.target.value, env);
    }
    FinishSameTls(s1, p);
    SameCertificatesOf(s1, FinishUpdate(s1, p).state);
  }

  lemma SameCertificatesOf(s: State, s': State)
    requires SameTls(s, s')
    ensures s'.certificates == s.certificates
  {
  }

  lemma PredecessorAddsNone(certificates: map<Id, Certificate>, d: Id, c: Id, activeRef: Option<Id>)
    requires c in certificates && Predecessor(certificates, d, c, activeRef).Some?
    ensures var retired := Predecessor(certificates, d, c, activeRef).value;
      NoneAdded(certificates, retired[c := certificates[c].(status := CertificateActive)])
  {
  }

  lemma ActivateAddsNone(s: State, d: Id, c: Id)
    requires ActivateCertificate(s, d, c).Done?
    ensures NoneAdded(s.certificates, ActivateCertificate(s, d, c).state.certificates)
  {
    if s.certificates[c].status == CertificateActive {
      hide OtherActive, Predecessor;
    } else {
      hide OtherActive, Predecessor, NoneAdded;
      PredecessorAddsNone(s.certificates, d, c, s.tls[d].activeRef);
    }
  }

  lemma RemoveAddsNone(s: State, p: StatusRequest, env: Env)
    requires RemoveDomain(s, p, env).Done?
    ensures NoneAdded(s.certificates, RemoveDomain(s, p, env).state.certificates)
  {
    hide DisabledTls;
  }

  /** Only an order adds a certificate. */
  lemma OnlyOrdersAdd(s: State, step: Step)
    requires WellFormed(step) && Effect(s, step).Done? && !step.Order?
    ensures NoneAdded(s.certificates, Effect(s, step).state.certificates)
  {
    hide CreateDomain, UpdateDomain, RemoveDomain, ActivateCertificate, OrderCertificate, ConfirmAll;
    hide PrepareTarget, NewDomainId, StorableName, BaseName, AppliedState.RecordRevision;
    match step
    case Create(p, env) =>
      CreateRows(s, p, env, NewDomainId(p), BaseName(p.name), PrepareTarget(p.target, BaseName(p.name)).value);
    case Update(p, env) =>
      UpdateAddsNone(s, p, env);
    case Remove(p, env) =>
      RemoveAddsNone(s, p, env);
    case Confirm(p) =>
      ConfirmSameTls(s, p.account, p.expected);
    case Activate(d, c) =>
      ActivateAddsNone(s, d, c);
    case _ =>
  }

  lemma OrderIsInNameOrder(s: State, d: Id, c: Id, read: seq<string>, predecessor: Option<Id>)
    requires TlsInv(s) && OrderCertificate(s, d, c, read, predecessor).Done?
    ensures InNameOrder(s.domains, Certificate(d, Sorted(read), Ordering))
  {
    var name := s.domains[d].name;
    hide CertificatesOk, Sorted;
    assert RowOk(name, s.targets[s.live[d]].spec, s.tls[d]);
    assert Sorted(read) == [name, Www(name)];
    assert name != Www(name) by { assert |Www(name)| == |name| + 4; }
    PairSorted(name, Www(name));
  }

  lemma EffectKeepsNameOrder(s: State, step: Step)
    requires WellFormed(step) && Effect(s, step).Done? && TlsInv(s) && AllInNameOrder(s)
    ensures AllInNameOrder(Effect(s, step).state)
  {
    var s' := Effect(s, step).state;
    forall c | c in s'.certificates ensures InNameOrder(s'.domains, s'.certificates[c]) {
      if step.Order? && c !in s.certificates {
        hide TlsInv, Sorted;
        OrderIsInNameOrder(s, step.domain, step.certificate, step.read, step.predecessor);
      } else {
        hide TlsInv, Sorted;
        if !step.Order? {
          OnlyOrdersAdd(s, step);
        }
        hide Effect, WellFormed;
        assert InNameOrder(s.domains, s.certificates[c]);
        EffectMoves(s, step, s.certificates[c].domain);
      }
    }
  }

  /**
   After any run every certificate, ordered first or as a renewal and whatever became of it, belongs
   to a domain whose name sorts below its alias, and covers exactly the two.
   */
  lemma {:induction false} ReachableCertificatesAreInNameOrder(steps: seq<Step>)
    ensures AllInNameOrder(Run(EMPTY, steps))
  {
    hide Next, Effect, WellFormed, TlsInv, InNameOrder;
    if steps != [] {
      var front, last := steps[..|steps| - 1], steps[|steps| - 1];
      ReachableCertificatesAreInNameOrder(front);
      ReachableTls(front);
      var s := Run(EMPTY, front);
      NextShape(s, last);
      if Next(s, last) != s {
        EffectKeepsNameOrder(s, last);
      }
    }
  }
}
