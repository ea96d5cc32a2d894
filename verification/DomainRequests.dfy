/**
 When creations, edits and certificate transactions commit in a reachable state, and what they
 leave behind.
 */
module DomainRequests {
  import opened Base
  import opened HostNames
  import opened Domains
  import opened DomainRouting
  import opened DomainReplay
  import opened DomainTls
  import opened DomainIsolation
  import opened DomainEffects
  import opened DomainCertificates

  // ----- The wildcard queries ---------------------------------------------

  /** A route at `name` meets no other live route: neither is at or below a wildcard of the other. */
  ghost predicate Clear(r: Routes, name: string, wildcard: bool, excluded: Option<Id>) {
    forall o :: o in r && excluded != Some(o) ==>
      && (r[o].wildcard ==> name != r[o].name && !Under(name, r[o].name))
      && (wildcard ==> !Under(r[o].name, name))
  }

  /** The two queries find a conflict exactly when there is one. */
  lemma ConflictIffNotClear(s: State, name: string, excluded: Option<Id>, spec: TargetSpec)
    requires Inv(s) && AllNameChars(name)
    ensures WildcardConflict(s, name, excluded, spec) <==> !Clear(RoutesOf(s), name, Wildcard(spec), excluded)
  {
    var r := RoutesOf(s);
    if !WildcardConflict(s, name, excluded, spec) {
      NoConflictJoins(s, name, excluded, spec);
    } else if CoveredByWildcard(s, name, excluded) {
      var d :| d in s.domains && LiveWildcard(s, d) && excluded != Some(d)
        && (name == s.domains[d].name || Like(name, BelowPattern(s.domains[d].name)));
      assert d in r && r[d].wildcard;
      LikeDecidesUnder(name, r[d].name);
    } else {
      var d :| d in s.domains && Live(s, d) && excluded != Some(d) && Like(s.domains[d].name, BelowPattern(name));
      assert d in r;
      LikeDecidesUnder(r[d].name, name);
    }
  }

  lemma TakenIffRouted(s: State, name: string)
    requires Inv(s)
    ensures NameTaken(s, name) <==> exists o :: o in RoutesOf(s) && RoutesOf(s)[o].name == name
  {
    if NameTaken(s, name) {
      var o :| o in s.domains && Live(s, o) && s.domains[o].name == name;
      assert o in RoutesOf(s);
    }
  }

  /** For a new domain, the name check and the two queries together let exactly the joining routes in. */
  lemma AdmittedIffJoins(s: State, d: Id, name: string, spec: TargetSpec)
    requires Inv(s) && AllNameChars(name) && d !in s.domains
    ensures !NameTaken(s, name) && !WildcardConflict(s, name, None, spec) <==>
      Joins(RoutesOf(s), d, Route(name, Wildcard(spec)))
  {
    ConflictIffNotClear(s, name, None, spec);
    TakenIffRouted(s, name);
    hide WildcardConflict, NameTaken, Inv, Wildcard;
    assert d !in RoutesOf(s);
  }

  /** For a domain that is there, the two queries do. */
  lemma KeptIffJoins(s: State, d: Id, spec: TargetSpec)
    requires Inv(s) && Live(s, d)
    ensures !WildcardConflict(s, s.domains[d].name, Some(d), spec) <==>
      Joins(RoutesOf(s), d, Route(s.domains[d].name, Wildcard(spec)))
  {
    var r, name := RoutesOf(s), s.domains[d].name;
    assert d in r && r[d].name == name;
    assert StorableName(name);
    ConflictIffNotClear(s, name, Some(d), spec);
    hide WildcardConflict, Wildcard, Under, StorableName, RoutesOf, Indexed;
  }

  // ----- Packages and caches ----------------------------------------------

  /** What the account's package, its applications and its files allow. */
  predicate Permitted(spec: TargetSpec, limits: Limits, env: Env) {
    && (spec.Php? ==> spec.version in limits.phpVersions)
    && (spec.Redirect? ==> limits.redirects)
    && (spec.OciApplication? ==> limits.ociApplications && spec.application in env.applications)
    && (spec.Static? || spec.Php? ==> env.rootResolves)
  }

  /** Only what is computed on request can be cached. */
  predicate Cacheable(preset: Preset, spec: TargetSpec) {
    preset != CacheDisabled ==> spec.Php? || spec.OciApplication?
  }

  lemma PermittedIff(spec: TargetSpec, limits: Limits, env: Env, preset: Preset)
    ensures PackageAllows(spec, limits, env) && !RootFails(spec, env) <==> Permitted(spec, limits, env)
    ensures CacheFits(preset, spec) <==> Cacheable(preset, spec)
  {
  }

  // ----- Creation ---------------------------------------------------------

  /** What a creation needs of the request, the account and the tables. */
  ghost predicate Creatable(s: State, p: CreateRequest, env: Env, name: string, spec: TargetSpec) {
    && env.limits.Some? && LiveCount(s, p.account) < env.limits.value.maxDomains
    && Permitted(spec, env.limits.value, env)
    && StorableName(name) && NewDomainId(p) !in s.domains && p.targetId !in s.targets
    && Joins(RoutesOf(s), NewDomainId(p), Route(name, Wildcard(spec)))
  }

  /** The new domain with its one row in each table, and all other rows as they were. */
  ghost predicate Created(s: State, s': State, p: CreateRequest, name: string, spec: TargetSpec) {
    var d := NewDomainId(p);
    && s'.domains == s.domains[d := Domain(p.account, name, Pending, p.canonical)]
    && s'.targets == s.targets[p.targetId := Target(d, spec, false)] && s'.live == s.live[d := p.targetId]
    && s'.waf == s.waf[d := p.waf] && s'.cache == s.cache[d := Cache(p.preset, d)]
    && d in s'.tls && s'.tls == s.tls[d := s'.tls[d]]
    && s'.tls[d].enabled == !p.disableTls && s'.tls[d].mode == p.tlsMode && s'.tls[d].activeRef.None?
    && RowOk(name, spec, s'.tls[d]) && s'.tls[d].issuance in {TlsDisabled, TlsPending}
    && s'.certificates == s.certificates && s'.operations == s.operations && s'.applied == s.applied
  }

  lemma CreateCommitsIff(s: State, p: CreateRequest, env: Env, name: string, spec: TargetSpec)
    requires Inv(s)
    ensures CreateDomain(s, p, env, NewDomainId(p), name, spec).Done? <==> Creatable(s, p, env, name, spec)
  {
    var d := NewDomainId(p);
    if StorableName(name) && d !in s.domains {
      AdmittedIffJoins(s, d, name, spec);
    }
    if env.limits.Some? {
      PermittedIff(spec, env.limits.value, env, p.preset);
    }
    assert d in s.live <==> d in s.domains;
    hide WildcardConflict, NameTaken, StorableName, LiveCount, PackageAllows, RootFails, Permitted, Joins, RoutesOf,
      Inv, NewDomainId, Wildcard, InitialTls;
  }

  lemma CreateLeaves(s: State, p: CreateRequest, env: Env, name: string, spec: TargetSpec)
    requires CreateDomain(s, p, env, NewDomainId(p), name, spec).Done?
    ensures Created(s, CreateDomain(s, p, env, NewDomainId(p), name, spec).state, p, name, spec)
  {
    CreateRows(s, p, env, NewDomainId(p), name, spec);
    hide WildcardConflict, NameTaken, StorableName, LiveCount, PackageAllows, NewDomainId, TlsNames, TlsChallenge;
  }

  /** A dotted name, a target that can be prepared and cached as asked, and an identifier if redelivery is expected. */
  predicate WellPosed(p: CreateRequest) {
    && '.' in p.name && PrepareTarget(p.target, BaseName(p.name)).Some?
    && Cacheable(p.preset, PrepareTarget(p.target, BaseName(p.name)).value)
    && (p.domainId.None? ==> p.operation.None?)
  }

  /**
   After any run, a creation that is not a repeat commits if and only if the request is well formed,
   the account has room for it, its package allows the target, the identifiers are new and the route
   joins those of all live domains; and then exactly the requested rows are there.
   */
  lemma CreationIsExact(steps: seq<Step>, p: CreateRequest, env: Env)
    requires !Repeats(Run(EMPTY, steps), KeyOf(Create(p, env)).value)
    ensures var s, step, name := Run(EMPTY, steps), Create(p, env), BaseName(p.name);
      && (Attempt(s, step).Done? <==>
            && WellPosed(p) && OwnOperation(s, KeyOf(step).value)
            && Creatable(s, p, env, name, PrepareTarget(p.target, name).value))
      && (Attempt(s, step).Done? ==>
            && Created(s, Next(s, step), p, name, PrepareTarget(p.target, name).value)
            && Next(s, step).mutations == WithMutation(s, KeyOf(step).value))
  {
    ReachableInv(steps);
    ReachableMutationsOwned(steps);
    var s, step, name := Run(EMPTY, steps), Create(p, env), BaseName(p.name);
    hide Run, Creatable, Created, Inv, MutationsOwned, CreateDomain, BaseName, NewDomainId, PrepareTarget;
    assert CreateWellFormed(p) <==> WellPosed(p);
    if CreateWellFormed(p) {
      var spec := PrepareTarget(p.target, name).value;
      FirstDelivery(s, step);
      CreateCommitsIff(s, p, env, name, spec);
      if CreateDomain(s, p, env, NewDomainId(p), name, spec).Done? {
        CreateLeaves(s, p, env, name, spec);
        CreatedWithMutation(s, CreateDomain(s, p, env, NewDomainId(p), name, spec).state, p, name, spec,
                            WithMutation(s, KeyOf(step).value));
      }
      hide CreateWellFormed, WellPosed;
    }
  }

  lemma CreatedWithMutation(s: State, s': State, p: CreateRequest, name: string, spec: TargetSpec,
                            mutations: map<Id, Mutation>)
    requires Created(s, s', p, name, spec)
    ensures Created(s, s'.(mutations := mutations), p, name, spec)
  {
  }

  // ----- Edits ------------------------------------------------------------

  /** The target the domain would have after the edit. */
  function EditedSpec(s: State, p: UpdateRequest): Option<TargetSpec>
    requires p.domain in s.domains && HasTarget(s, p.domain)
  {
    if p.target.Some? then PrepareTarget(p.target.value, s.domains[p.domain].name) else Some(CurrentSpec(s, p.domain))
  }

  /** What a new target needs. */
  ghost predicate Replaceable(s: State, p: UpdateRequest, env: Env, spec: TargetSpec)
    requires p.domain in s.domains && env.limits.Some?
  {
    && Permitted(spec, env.limits.value, env) && p.targetId !in s.targets
    && Joins(RoutesOf(s), p.domain, Route(s.domains[p.domain].name, Wildcard(spec)))
  }

  ghost predicate Editable(s: State, p: UpdateRequest, env: Env) {
    var d := p.domain;
    && env.limits.Some? && Owned(s, p.account, d) && s.domains[d].status != Removed
    && HasTarget(s, d) && d in s.cache
    && (p.rotateCache ==>
          && s.cache[d].preset in {FastCgiRespectOrigin, FastCgiWordPress}
          && p.target.None? && p.canonical.None? && p.waf.None? && p.preset.None?)
    && EditedSpec(s, p).Some? && (p.target.Some? ==> Replaceable(s, p, env, EditedSpec(s, p).value))
    && Cacheable(if p.preset.Some? then p.preset.value else s.cache[d].preset, EditedSpec(s, p).value)
  }

  lemma ReplaceCommitsIff(s: State, p: UpdateRequest, env: Env)
    requires Inv(s) && Live(s, p.domain) && env.limits.Some? && p.target.Some?
    ensures HasTarget(s, p.domain)
    ensures ReplaceTarget(s, p.domain, p.targetId, p.target.value, env).Done? <==>
      EditedSpec(s, p).Some? && Replaceable(s, p, env, EditedSpec(s, p).value)
  {
    var d := p.domain;
    assert HasTarget(s, d) by { assert d in s.live && CurrentOf(s.targets, s.live[d], d); }
    if EditedSpec(s, p).Some? {
      var spec := EditedSpec(s, p).value;
      KeptIffJoins(s, d, spec);
      PermittedIff(spec, env.limits.value, env, CacheDisabled);
      hide WildcardConflict, PackageAllows, RootFails, Permitted, Joins, RoutesOf, Inv, Wildcard, PrepareTarget,
        RefreshTls;
    }
  }

  lemma FinishCommitsIff(s: State, p: UpdateRequest)
    requires RowsMatch(s) && p.domain in s.domains && HasTarget(s, p.domain)
    ensures FinishUpdate(s, p).Done? <==>
      Cacheable(if p.preset.Some? then p.preset.value else s.cache[p.domain].preset, CurrentSpec(s, p.domain))
  {
    hide EditedRow;
  }

  lemma HasCurrentTarget(s: State, d: Id)
    requires Inv(s) && d in s.domains
    ensures HasTarget(s, d) && d in s.cache && RowsMatch(s)
  {
    assert CurrentOf(s.targets, s.live[d], d);
  }

  lemma RetargetedRows(s: State, p: UpdateRequest, env: Env)
    requires RowsMatch(s) && p.domain in s.domains && HasTarget(s, p.domain) && env.limits.Some? && p.target.Some?
    requires ReplaceTarget(s, p.domain, p.targetId, p.target.value, env).Done?
    ensures var s1 := ReplaceTarget(s, p.domain, p.targetId, p.target.value, env).state;
      && RowsMatch(s1) && p.domain in s1.domains && HasTarget(s1, p.domain) && s1.cache == s.cache
      && EditedSpec(s, p) == Some(CurrentSpec(s1, p.domain))
  {
    hide ReplaceTarget, PrepareTarget, WildcardConflict;
    ReplaceRows(s, p.domain, p.targetId, p.target.value, env);
  }

  lemma RetargetCommitsIff(s: State, p: UpdateRequest, env: Env)
    requires Inv(s) && Live(s, p.domain) && HasTarget(s, p.domain) && p.domain in s.cache && RowsMatch(s)
    requires env.limits.Some? && p.target.Some?
    ensures (ReplaceTarget(s, p.domain, p.targetId, p.target.value, env).Done?
             && FinishUpdate(ReplaceTarget(s, p.domain, p.targetId, p.target.value, env).state, p).Done?) <==>
      && EditedSpec(s, p).Some? && Replaceable(s, p, env, EditedSpec(s, p).value)
      && Cacheable(if p.preset.Some? then p.preset.value else s.cache[p.domain].preset, EditedSpec(s, p).value)
  {
    var d := p.domain;
    ReplaceCommitsIff(s, p, env);
    hide Inv, ReplaceTarget, Replaceable, EditedSpec, FinishUpdate, Cacheable, RowsMatch;
    if ReplaceTarget(s, d, p.targetId, p.target.value, env).Done? {
      RetargetedRows(s, p, env);
      FinishCommitsIff(ReplaceTarget(s, d, p.targetId, p.target.value, env).state, p);
    }
  }

  lemma EditCommitsIff(s: State, p: UpdateRequest, env: Env)
    requires Inv(s)
    ensures UpdateDomain(s, p, env).Done? <==> Editable(s, p, env)
  {
    hide Inv, ReplaceTarget, FinishUpdate, Cacheable, Replaceable, PrepareTarget, RowsMatch;
    var d := p.domain;
    if env.limits.Some? && Owned(s, p.account, d) && s.domains[d].status != Removed {
      HasCurrentTarget(s, d);
      if p.target.Some? {
        RetargetCommitsIff(s, p, env);
      } else {
        FinishCommitsIff(s, p);
      }
    }
  }

  lemma UpdateKeepsApplied(s: State, p: UpdateRequest, env: Env)
    requires UpdateDomain(s, p, env).Done?
    ensures UpdateDomain(s, p, env).state.applied == s.applied
  {
    hide ReplaceTarget, CacheFits, EditedRow, WildcardConflict, PrepareTarget;
    if p.target.Some? {
      ReplaceRows(s, p.domain, p.targetId, p.target.value, env);
    }
  }

  lemma MutationsAside(s: State, s': State, p: UpdateRequest, mutations: map<Id, Mutation>, o: Id)
    ensures Edited(s, s', p) ==> Edited(s, s'.(mutations := mutations), p)
    ensures Untouched(s, s', o) ==> Untouched(s, s'.(mutations := mutations), o)
  {
  }

  predicate NamesSomething(p: UpdateRequest) {
    !(p.target.None? && p.canonical.None? && p.waf.None? && p.preset.None? && !p.rotateCache)
  }

  /**
   After any run, an edit that is not a repeat commits if and only if it names something, the account
   owns the domain and has limits, the domain is not removed, and what it names fits the package, the
   cache rules and the live routes; it then changes exactly what it names, of this domain only.
   */
  lemma EditTakesEffect(steps: seq<Step>, p: UpdateRequest, env: Env, o: Id)
    requires !Repeats(Run(EMPTY, steps), KeyOf(Update(p, env)).value) && o != p.domain
    ensures var s, step := Run(EMPTY, steps), Update(p, env);
      && (Attempt(s, step).Done? <==>
            NamesSomething(p) && OwnOperation(s, KeyOf(step).value) && Editable(s, p, env))
      && (Attempt(s, step).Done? ==>
            && Edited(s, Next(s, step), p) && Untouched(s, Next(s, step), o)
            && Next(s, step).operations == s.operations && Next(s, step).applied == s.applied
            && Next(s, step).mutations == WithMutation(s, KeyOf(step).value))
  {
    ReachableInv(steps);
    ReachableMutationsOwned(steps);
    var s, step := Run(EMPTY, steps), Update(p, env);
    assert IndexExact(s.live, s.targets);
    hide Run, Editable, Edited, Untouched, Inv, MutationsOwned, UpdateDomain, IndexExact;
    if UpdateWellFormed(p) {
      FirstDelivery(s, step);
      EditCommitsIff(s, p, env);
      if UpdateDomain(s, p, env).Done? {
        EditIsExact(s, p, env);
        UpdateUntouched(s, p, env, o);
        UpdateKeepsOperations(s, p, env);
        UpdateKeepsApplied(s, p, env);
        MutationsAside(s, UpdateDomain(s, p, env).state, p, WithMutation(s, KeyOf(step).value), o);
      }
      hide UpdateWellFormed;
    }
  }

  // ----- Certificates -----------------------------------------------------

  /** Only the certificate and the TLS row of its domain may differ. */
  ghost predicate OnlyTls(s: State, s': State, d: Id) {
    && s' == s.(tls := s'.tls, certificates := s'.certificates)
    && (forall o :: o in s.tls <==> o in s'.tls) && (forall o :: o in s.tls && o != d ==> s'.tls[o] == s.tls[o])
  }

  /** An order adds one certificate for the stored names and marks the issuance; nothing else changes. */
  lemma OrderLeaves(s: State, d: Id, c: Id, read: seq<string>, predecessor: Option<Id>)
    requires OrderCertificate(s, d, c, read, predecessor).Done?
    ensures var s' := OrderCertificate(s, d, c, read, predecessor).state;
      && OnlyTls(s, s', d) && d in s.tls && c !in s.certificates
      && s'.certificates == s.certificates[c := Certificate(d, s.tls[d].names, Ordering)]
      && s'.tls[d] == s.tls[d].(issuance := if predecessor.None? then TlsIssuing else TlsRenewing)
  {
    hide Sorted;
  }

  /** An order is due: a first certificate is waited for or failed, or the active one is to be renewed. */
  predicate OrderDue(tls: Tls, predecessor: Option<Id>) {
    && tls.activeRef == predecessor
    && (tls.issuance == TlsFailed || tls.issuance == if predecessor.Some? then TlsActive else TlsPending)
  }

  /** An order goes through exactly for an active domain with HTTP-01 issuance on, its stored names, and when due. */
  lemma OrderCommitsIff(s: State, d: Id, c: Id, read: seq<string>, predecessor: Option<Id>)
    ensures OrderCertificate(s, d, c, read, predecessor).Done? <==>
      && d in s.domains && s.domains[d].status == Active && d in s.tls && c !in s.certificates
      && s.tls[d].enabled && s.tls[d].mode == Acme && s.tls[d].challenge == Http01
      && Sorted(read) == s.tls[d].names && OrderDue(s.tls[d], predecessor)
  {
    hide Sorted;
  }

  /** The certificate can be put to use: it is staged, covers the names intended now, and TLS is on. */
  predicate Activatable(s: State, d: Id, c: Id) {
    && c in s.certificates && s.certificates[c].domain == d && s.certificates[c].status == Staged
    && d in s.tls && s.tls[d].enabled && s.tls[d].names == s.certificates[c].names
  }

  /** `c` is the domain's active certificate, the former one is retired, and no other certificate changed. */
  ghost predicate Replaced(s: State, s': State, d: Id, c: Id) {
    && c in s.certificates && (forall x :: x in s.certificates <==> x in s'.certificates)
    && s'.certificates[c] == s.certificates[c].(status := CertificateActive)
    && (forall x :: x in s.certificates && x != c ==>
          s'.certificates[x] ==
            if ActiveFor(s.certificates, x, d) then s.certificates[x].(status := Retired) else s.certificates[x])
    && d in s.tls && d in s'.tls && s'.tls[d] == s.tls[d].(issuance := TlsActive, activeRef := Some(c))
  }

  /** `activeRef` names the domain's active certificate, if it has one. */
  ghost predicate NamesActive(certificates: map<Id, Certificate>, d: Id, activeRef: Option<Id>) {
    && (activeRef.Some? ==> ActiveFor(certificates, activeRef.value, d))
    && forall x: Id :: ActiveFor(certificates, x, d) ==> activeRef == Some(x)
  }

  lemma PredecessorRetires(certificates: map<Id, Certificate>, d: Id, c: Id, activeRef: Option<Id>)
    requires NamesActive(certificates, d, activeRef) && c in certificates && certificates[c].status != CertificateActive
    ensures Predecessor(certificates, d, c, activeRef).Some?
    ensures var retired := Predecessor(certificates, d, c, activeRef).value;
      && !OtherActive(retired, d, c) && (forall x :: x in certificates <==> x in retired)
      && (forall x: Id :: x in certificates ==>
            retired[x] ==
              if ActiveFor(certificates, x, d) then certificates[x].(status := Retired) else certificates[x])
  {
    var retired := Predecessor(certificates, d, c, activeRef).value;
    forall x: Id | x in certificates
      ensures retired[x] ==
        if ActiveFor(certificates, x, d) then certificates[x].(status := Retired) else certificates[x]
    {
      assert activeRef == Some(x) <==> ActiveFor(certificates, x, d);
    }
  }

  lemma ActivateCommitsIff(s: State, d: Id, c: Id)
    requires d in s.tls && NamesActive(s.certificates, d, s.tls[d].activeRef)
    requires c in s.certificates && s.certificates[c].domain == d && s.certificates[c].status != CertificateActive
    ensures ActivateCertificate(s, d, c).Done? <==> Activatable(s, d, c)
    ensures Activatable(s, d, c) ==>
      OnlyTls(s, ActivateCertificate(s, d, c).state, d) && Replaced(s, ActivateCertificate(s, d, c).state, d, c)
  {
    PredecessorRetires(s.certificates, d, c, s.tls[d].activeRef);
    hide Predecessor, OtherActive, NamesActive;
  }

  /**
   After any run, an activation commits if and only if the certificate is the domain's and active
   already, which changes nothing, or staged for the names intended now with TLS on; it then replaces
   the former active certificate.
   */
  lemma ActivationIsExact(steps: seq<Step>, d: Id, c: Id)
    ensures var s := Run(EMPTY, steps);
      && (ActivateCertificate(s, d, c).Done? <==> ActiveFor(s.certificates, c, d) || Activatable(s, d, c))
      && (ActiveFor(s.certificates, c, d) ==> ActivateCertificate(s, d, c) == Done(s))
      && (Activatable(s, d, c) ==>
            var s' := ActivateCertificate(s, d, c).state; OnlyTls(s, s', d) && Replaced(s, s', d, c))
  {
    ReachableTls(steps);
    ReachableInv(steps);
    ReachableCertificatesAreInNameOrder(steps);
    var s := Run(EMPTY, steps);
    hide Run, IntentOk, Disjoint, RoutesOf, IndexExact;
    if c in s.certificates && s.certificates[c].domain == d {
      assert InNameOrder(s.domains, s.certificates[c]);
      assert d in s.tls;
      assert NamesActive(s.certificates, d, s.tls[d].activeRef);
      hide TlsInv, NamesActive, Inv, InNameOrder, OnlyTls, Replaced, AllInNameOrder;
      if s.certificates[c].status != CertificateActive {
        ActivateCommitsIff(s, d, c);
        hide ActivateCertificate;
      } else {
        hide Predecessor, OtherActive;
      }
    }
  }

  /** Staging and failing move one certificate or one issuance, from where they may. */
  lemma StageAndFailAreExact(s: State, d: Id, c: Id)
    ensures StageCertificate(s, c).Done? <==> c in s.certificates && s.certificates[c].status == Ordering
    ensures StageCertificate(s, c).Done? ==>
      var s' := StageCertificate(s, c).state;
      && s' == s.(certificates := s'.certificates)
      && s'.certificates == s.certificates[c := s.certificates[c].(status := Staged)]
    ensures FailOrder(s, d).Done? <==> d in s.tls && s.tls[d].enabled
    ensures FailOrder(s, d).Done? ==>
      var s' := FailOrder(s, d).state;
      && s'.certificates == s.certificates && OnlyTls(s, s', d)
      && s'.tls[d] == s.tls[d].(issuance := TlsFailed)
  {
  }
}
