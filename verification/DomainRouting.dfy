/**
 Which hosts a domain row claims, and what every run of the lifecycle keeps about them.
 */
module DomainRouting {
  import opened Base
  import opened HostNames
  import opened Domains

  /** The part of a live domain that decides routing: its name and whether it is a wildcard redirect. */
  datatype Route = Route(name: string, wildcard: bool)

  type Routes = map<Id, Route>

  // ----- Route tables -----------------------------------------------------

  ghost predicate GoodNames(r: Routes) {
    forall d :: d in r ==> StorableName(r[d].name) && '.' in r[d].name
  }

  ghost predicate UniqueNames(r: Routes) {
    forall a, b :: a in r && b in r && r[a].name == r[b].name ==> a == b
  }

  /** No domain is a proper subdomain of another domain with a wildcard redirect. */
  ghost predicate NoOverlap(r: Routes) {
    forall a, b :: a in r && b in r && a != b && r[b].wildcard ==> !Under(r[a].name, r[b].name)
  }

  ghost predicate Disjoint(r: Routes) {
    GoodNames(r) && UniqueNames(r) && NoOverlap(r)
  }

  ghost predicate Submap(r': Routes, r: Routes) {
    forall d :: d in r' ==> d in r && r'[d] == r[d]
  }

  /** The rows of `r'` are rows of `r` under the same names. */
  ghost predicate NamesFrom(r': Routes, r: Routes) {
    forall d :: d in r' ==> d in r && r'[d].name == r[d].name
  }

  /** `route` may join the other rows of `r`: neither is at or below the other's wildcard. */
  ghost predicate Joins(r: Routes, d: Id, route: Route) {
    forall o :: o in r && o != d ==>
      && r[o].name != route.name
      && (r[o].wildcard ==> !Under(route.name, r[o].name))
      && (route.wildcard ==> !Under(r[o].name, route.name))
  }

  lemma SubmapKeepsDisjoint(r': Routes, r: Routes)
    requires Disjoint(r) && Submap(r', r)
    ensures Disjoint(r')
  {
  }

  lemma JoinKeepsDisjoint(r: Routes, d: Id, route: Route)
    requires Disjoint(r) && Joins(r, d, route) && StorableName(route.name) && '.' in route.name
    ensures Disjoint(r[d := route])
  {
  }

  // ----- The route table of a state ---------------------------------------

  /** Every domain has its one TLS, WAF and cache row and one entry in the target index. */
  ghost predicate RowsMatch(s: State) {
    && (forall d :: d in s.domains <==> d in s.live)
    && (forall d :: d in s.domains <==> d in s.tls)
    && (forall d :: d in s.domains <==> d in s.waf)
    && (forall d :: d in s.domains <==> d in s.cache)
  }

  predicate CurrentOf(targets: map<Id, Target>, t: Id, d: Id) {
    t in targets && targets[t].domain == d && !targets[t].superseded
  }

  /** The index names a domain's unsuperseded target, and names every unsuperseded target. */
  ghost predicate IndexExact(live: map<Id, Id>, targets: map<Id, Target>) {
    && (forall d :: d in live ==> CurrentOf(targets, live[d], d))
    && (forall d, t :: CurrentOf(targets, t, d) ==> d in live && live[d] == t)
  }

  ghost predicate Indexed(s: State) {
    RowsMatch(s) && IndexExact(s.live, s.targets)
  }

  lemma IndexInsert(live: map<Id, Id>, targets: map<Id, Target>, d: Id, t: Id, spec: TargetSpec)
    requires IndexExact(live, targets) && d !in live && t !in targets
    ensures IndexExact(live[d := t], targets[t := Target(d, spec, false)])
  {
    var targets' := targets[t := Target(d, spec, false)];
    forall d', t' | CurrentOf(targets', t', d') ensures d' in live[d := t] && live[d := t][d'] == t' {
      assert t' == t || CurrentOf(targets, t', d');
    }
  }

  lemma IndexReplace(live: map<Id, Id>, targets: map<Id, Target>, d: Id, t: Id, spec: TargetSpec)
    requires IndexExact(live, targets) && d in live && t !in targets
    ensures IndexExact(live[d := t],
      targets[live[d] := targets[live[d]].(superseded := true)][t := Target(d, spec, false)])
  {
    var targets' := targets[live[d] := targets[live[d]].(superseded := true)][t := Target(d, spec, false)];
    forall d', t' | CurrentOf(targets', t', d') ensures d' in live[d := t] && live[d := t][d'] == t' {
      assert t' == t || CurrentOf(targets, t', d');
    }
    assert CurrentOf(targets, live[d], d);
  }

  ghost function RouteTable(domains: map<Id, Domain>, live: map<Id, Id>, targets: map<Id, Target>): Routes {
    map d | d in domains && domains[d].status != Removed && d in live && live[d] in targets ::
      Route(domains[d].name, Wildcard(targets[live[d]].spec))
  }

  ghost function RoutesOf(s: State): Routes {
    RouteTable(s.domains, s.live, s.targets)
  }

  ghost predicate Inv(s: State) {
    Indexed(s) && Disjoint(RoutesOf(s))
  }

  lemma TableInsert(domains: map<Id, Domain>, live: map<Id, Id>, targets: map<Id, Target>, d: Id, row: Domain, t: Id,
                    spec: TargetSpec)
    requires row.status != Removed && t !in targets && IndexExact(live, targets)
    ensures RouteTable(domains[d := row], live[d := t], targets[t := Target(d, spec, false)])
         == RouteTable(domains, live, targets)[d := Route(row.name, Wildcard(spec))]
  {
  }

  lemma TableReplace(domains: map<Id, Domain>, live: map<Id, Id>, targets: map<Id, Target>, d: Id, t: Id,
                     spec: TargetSpec)
    requires d in domains && domains[d].status != Removed && t !in targets && d in live && IndexExact(live, targets)
    ensures RouteTable(domains, live[d := t],
      targets[live[d] := targets[live[d]].(superseded := true)][t := Target(d, spec, false)])
         == RouteTable(domains, live, targets)[d := Route(domains[d].name, Wildcard(spec))]
  {
    forall o | o in live && o != d ensures live[o] != live[d] {
      assert CurrentOf(targets, live[o], o) && CurrentOf(targets, live[d], d);
    }
  }

  /** What passing the two wildcard queries means for the route table. */
  lemma NoConflictJoins(s: State, name: string, excluded: Option<Id>, spec: TargetSpec)
    requires Inv(s) && AllNameChars(name) && !WildcardConflict(s, name, excluded, spec)
    ensures forall o :: o in RoutesOf(s) && excluded != Some(o) ==>
      && (RoutesOf(s)[o].wildcard ==> name != RoutesOf(s)[o].name && !Under(name, RoutesOf(s)[o].name))
      && (Wildcard(spec) ==> !Under(RoutesOf(s)[o].name, name))
  {
    var r := RoutesOf(s);
    forall o | o in r && excluded != Some(o)
      ensures r[o].wildcard ==> name != r[o].name && !Under(name, r[o].name)
      ensures Wildcard(spec) ==> !Under(r[o].name, name)
    {
      LikeDecidesUnder(name, r[o].name);
      LikeDecidesUnder(r[o].name, name);
    }
  }

  // ----- One lemma per transaction ----------------------------------------

  /** Tables that decide routing are as before, except that domains may have been removed. */
  ghost predicate SameRouting(s: State, s': State) {
    && s'.live == s.live && s'.targets == s.targets
    && (forall d :: d in s'.domains <==> d in s.domains)
    && (forall d :: d in s'.tls <==> d in s.tls)
    && (forall d :: d in s'.waf <==> d in s.waf)
    && (forall d :: d in s'.cache <==> d in s.cache)
    && (forall d :: d in s.domains ==>
          && s'.domains[d].name == s.domains[d].name
          && (s.domains[d].status == Removed ==> s'.domains[d].status == Removed))
  }

  lemma SameRoutingKeepsIndex(s: State, s': State)
    requires Indexed(s) && SameRouting(s, s')
    ensures Indexed(s')
  {
  }

  lemma SameRoutingShrinksRoutes(s: State, s': State)
    requires SameRouting(s, s')
    ensures Submap(RoutesOf(s'), RoutesOf(s))
  {
  }

  lemma SameRoutingKeepsInv(s: State, s': State)
    requires Inv(s) && SameRouting(s, s')
    ensures Inv(s') && NamesFrom(RoutesOf(s'), RoutesOf(s))
  {
    SameRoutingKeepsIndex(s, s');
    SameRoutingShrinksRoutes(s, s');
    SubmapKeepsDisjoint(RoutesOf(s'), RoutesOf(s));
  }

  lemma {:induction false} ConfirmSameRouting(s: State, account: Id, expected: seq<Expectation>)
    ensures SameRouting(s, ConfirmAll(s, account, expected))
  {
    if expected != [] {
      var s1 := ConfirmAll(s, account, expected[..|expected| - 1]);
      ConfirmSameRouting(s, account, expected[..|expected| - 1]);
      ConfirmOneSameRouting(s1, account, expected[|expected| - 1]);
    }
  }

  lemma ConfirmOneSameRouting(s: State, account: Id, e: Expectation)
    ensures SameRouting(s, ConfirmOne(s, account, e))
  {
  }

  lemma BaseNameKeepsDot(name: string)
    requires '.' in name
    ensures '.' in BaseName(name)
  {
  }

  /** Effect of a committed creation on the tables that decide routing. */
  lemma CreateRows(s: State, p: CreateRequest, env: Env, d: Id, name: string, spec: TargetSpec)
    requires CreateDomain(s, p, env, d, name, spec).Done?
    ensures var s' := CreateDomain(s, p, env, d, name, spec).state;
      && d !in s.domains && StorableName(name) && !NameTaken(s, name) && !WildcardConflict(s, name, None, spec)
      && s'.domains == s.domains[d := Domain(p.account, name, Pending, p.canonical)]
      && s'.targets == s.targets[p.targetId := Target(d, spec, false)] && p.targetId !in s.targets && d !in s.live
      && s'.live == s.live[d := p.targetId]
      && s'.tls == s.tls[d := InitialTls(p, name, spec)] && s'.waf == s.waf[d := p.waf]
      && s'.cache == s.cache[d := Cache(p.preset, d)] && s'.certificates == s.certificates
  {
    hide WildcardConflict, NameTaken, StorableName, LiveCount, PackageAllows;
  }

  /** Adding a domain whose route joins the table keeps the invariant. */
  lemma InsertKeepsInv(s: State, s': State, d: Id, row: Domain, t: Id, spec: TargetSpec)
    requires Inv(s) && d !in s.domains && t !in s.targets && row.status != Removed
    requires StorableName(row.name) && '.' in row.name && Joins(RoutesOf(s), d, Route(row.name, Wildcard(spec)))
    requires s'.domains == s.domains[d := row] && s'.live == s.live[d := t]
    requires s'.targets == s.targets[t := Target(d, spec, false)]
    requires forall o :: (o in s'.tls <==> o == d || o in s.tls)
    requires forall o :: (o in s'.waf <==> o == d || o in s.waf)
    requires forall o :: (o in s'.cache <==> o == d || o in s.cache)
    ensures Inv(s') && RoutesOf(s') == RoutesOf(s)[d := Route(row.name, Wildcard(spec))]
  {
    hide StorableName, Wildcard, Joins, Disjoint, IndexExact, RouteTable;
    IndexInsert(s.live, s.targets, d, t, spec);
    TableInsert(s.domains, s.live, s.targets, d, row, t, spec);
    JoinKeepsDisjoint(RoutesOf(s), d, Route(row.name, Wildcard(spec)));
  }

  lemma CreateKeepsInv(s: State, p: CreateRequest, env: Env, d: Id, name: string, spec: TargetSpec)
    requires Inv(s) && '.' in name && CreateDomain(s, p, env, d, name, spec).Done?
    ensures var s' := CreateDomain(s, p, env, d, name, spec).state;
      Inv(s') && RoutesOf(s') == RoutesOf(s)[d := Route(name, Wildcard(spec))]
  {
    hide CreateDomain, Inv;
    CreateRows(s, p, env, d, name, spec);
    NoConflictJoins(s, name, None, spec);
    InsertKeepsInv(s, CreateDomain(s, p, env, d, name, spec).state, d, Domain(p.account, name, Pending, p.canonical),
      p.targetId, spec);
  }

  lemma SwapRows(s: State, d: Id, targetId: Id, spec: TargetSpec, env: Env)
    requires SwapTarget(s, d, targetId, spec, env).Done?
    ensures HasTarget(s, d) && targetId !in s.targets
    ensures SwapTarget(s, d, targetId, spec, env).state == s.(
      live := s.live[d := targetId],
      targets := s.targets[s.live[d] := s.targets[s.live[d]].(superseded := true)][targetId := Target(d, spec, false)])
  {
  }

  lemma RefreshRows(s: State, d: Id, name: string, spec: TargetSpec)
    ensures var s' := RefreshTls(s, d, name, spec);
      && s'.domains == s.domains && s'.waf == s.waf && s'.cache == s.cache && s'.live == s.live &&
        s'.targets == s.targets
      && s'.applied == s.applied && s'.mutations == s.mutations && forall o :: o in s'.tls <==> o in s.tls
  {
    hide IntentChanges, RefreshedTls, RetireActive;
    if d in s.tls && IntentChanges(s.tls[d], name, spec) {
      assert RefreshTls(s, d, name, spec).tls == s.tls[d := RefreshedTls(s.tls[d], name, spec)];
    } else {
      assert RefreshTls(s, d, name, spec) == s;
    }
  }

  /** Effect of a replaced target on the tables that decide routing. */
  lemma ReplaceRows(s: State, d: Id, targetId: Id, raw: TargetSpec, env: Env)
    requires d in s.domains && env.limits.Some? && ReplaceTarget(s, d, targetId, raw, env).Done?
    ensures var s' := ReplaceTarget(s, d, targetId, raw, env).state;
      && PrepareTarget(raw, s.domains[d].name).Some? && HasTarget(s, d)
      && var spec := PrepareTarget(raw, s.domains[d].name).value;
      && s'.domains == s.domains && s'.waf == s.waf && s'.cache == s.cache && s'.applied == s.applied &&
        s'.mutations == s.mutations
      && (forall o :: o in s'.tls <==> o in s.tls)
      && !WildcardConflict(s, s.domains[d].name, Some(d), spec)
      && s'.live == s.live[d := targetId] && targetId !in s.targets
      && s'.targets == s.targets[s.live[d] := s.targets[s.live[d]].(superseded := true)][targetId :=
        Target(d, spec, false)]
  {
    hide WildcardConflict, PackageAllows, SwapTarget, RefreshTls, PrepareTarget;
    var spec := PrepareTarget(raw, s.domains[d].name).value;
    SwapRows(s, d, targetId, spec, env);
    RefreshRows(SwapTarget(s, d, targetId, spec, env).state, d, s.domains[d].name, spec);
  }

  /** Giving a live domain a target whose route joins the table keeps the invariant. */
  lemma SwapKeepsInv(s: State, s': State, d: Id, t: Id, spec: TargetSpec)
    requires Inv(s) && Live(s, d) && HasTarget(s, d) && t !in s.targets
    requires Joins(RoutesOf(s), d, Route(s.domains[d].name, Wildcard(spec)))
    requires s'.domains == s.domains && s'.live == s.live[d := t] && s'.waf == s.waf && s'.cache == s.cache
    requires s'.targets == s.targets[s.live[d] := s.targets[s.live[d]].(superseded := true)][t :=
      Target(d, spec, false)]
    requires forall o :: o in s'.tls <==> o in s.tls
    ensures Inv(s') && RoutesOf(s') == RoutesOf(s)[d := Route(s.domains[d].name, Wildcard(spec))]
  {
    assert RoutesOf(s)[d].name == s.domains[d].name;
    assert StorableName(s.domains[d].name) && '.' in s.domains[d].name;
    hide StorableName, Wildcard, Joins, Disjoint, IndexExact, RouteTable;
    IndexReplace(s.live, s.targets, d, t, spec);
    TableReplace(s.domains, s.live, s.targets, d, t, spec);
    assert RoutesOf(s') == RoutesOf(s)[d := Route(s.domains[d].name, Wildcard(spec))];
    JoinKeepsDisjoint(RoutesOf(s), d, Route(s.domains[d].name, Wildcard(spec)));
    assert Disjoint(RoutesOf(s'));
    hide RoutesOf;
  }

  /** Passing the wildcard queries lets the domain's new route join the others. */
  lemma ReplaceJoins(s: State, d: Id, spec: TargetSpec)
    requires Inv(s) && Live(s, d) && HasTarget(s, d) && !WildcardConflict(s, s.domains[d].name, Some(d), spec)
    ensures Joins(RoutesOf(s), d, Route(s.domains[d].name, Wildcard(spec)))
  {
    var name := s.domains[d].name;
    assert RoutesOf(s)[d].name == name;
    NoConflictJoins(s, name, Some(d), spec);
  }

  lemma ReplaceKeepsInv(s: State, d: Id, targetId: Id, raw: TargetSpec, env: Env)
    requires Inv(s) && Live(s, d) && env.limits.Some? && ReplaceTarget(s, d, targetId, raw, env).Done?
    ensures var s' := ReplaceTarget(s, d, targetId, raw, env).state;
      && PrepareTarget(raw, s.domains[d].name).Some?
      && Inv(s') && Live(s', d) && HasTarget(s', d)
      && RoutesOf(s') == RoutesOf(s)[d :=
        Route(s.domains[d].name, Wildcard(PrepareTarget(raw, s.domains[d].name).value))]
  {
    hide ReplaceTarget, PrepareTarget, Inv, WildcardConflict;
    ReplaceRows(s, d, targetId, raw, env);
    var spec := PrepareTarget(raw, s.domains[d].name).value;
    ReplaceJoins(s, d, spec);
    SwapKeepsInv(s, ReplaceTarget(s, d, targetId, raw, env).state, d, targetId, spec);
  }

  /** The rest of an edit touches no name and no target. */
  lemma FinishSameRouting(s: State, p: UpdateRequest)
    requires Live(s, p.domain) && FinishUpdate(s, p).Done?
    ensures SameRouting(s, FinishUpdate(s, p).state)
  {
    hide CacheFits, CurrentSpec;
  }

  lemma UpdateKeepsInv(s: State, p: UpdateRequest, env: Env)
    requires Inv(s) && UpdateDomain(s, p, env).Done?
    ensures Inv(UpdateDomain(s, p, env).state)
    ensures NamesFrom(RoutesOf(UpdateDomain(s, p, env).state), RoutesOf(s))
  {
    hide FinishUpdate, ReplaceTarget, Disjoint, IndexExact, RowsMatch, SameRouting;
    var d := p.domain;
    var s1 := if p.target.None? then s else ReplaceTarget(s, d, p.targetId, p.target.value, env).state;
    if p.target.Some? {
      ReplaceKeepsInv(s, d, p.targetId, p.target.value, env);
    }
    FinishSameRouting(s1, p);
    SameRoutingKeepsInv(s1, FinishUpdate(s1, p).state);
  }

  lemma ChangeStatusSameRouting(s: State, p: StatusRequest, env: Env, status: Status, allowed: set<Status>)
    requires Removed !in allowed && ChangeStatus(s, p, env, status, allowed).Done?
    ensures SameRouting(s, ChangeStatus(s, p, env, status, allowed).state)
  {
  }

  lemma RemoveSameRouting(s: State, p: StatusRequest, env: Env)
    requires RemoveDomain(s, p, env).Done?
    ensures SameRouting(s, RemoveDomain(s, p, env).state)
  {
    hide RetireActive, DisabledTls;
  }

  /** Everything but TLS rows, certificates, operations and applied states is as before. */
  ghost predicate SameDomains(s: State, s': State) {
    && s'.domains == s.domains && s'.live == s.live && s'.targets == s.targets
    && s'.waf == s.waf && s'.cache == s.cache && s'.mutations == s.mutations
    && (forall d :: d in s'.tls <==> d in s.tls)
  }

  lemma ActivateSameDomains(s: State, d: Id, c: Id)
    requires ActivateCertificate(s, d, c).Done?
    ensures SameDomains(s, ActivateCertificate(s, d, c).state)
  {
    hide Predecessor, OtherActive;
    if s.certificates[c].status != CertificateActive {
      var row := s.tls[d].(issuance := TlsActive, activeRef := Some(c));
      assert ActivateCertificate(s, d, c).state.tls == s.tls[d := row];
    }
  }

  lemma OrderSameDomains(s: State, d: Id, c: Id, read: seq<string>, predecessor: Option<Id>)
    requires OrderCertificate(s, d, c, read, predecessor).Done?
    ensures SameDomains(s, OrderCertificate(s, d, c, read, predecessor).state)
  {
    hide Sorted;
  }

  predicate Lateral(step: Step) {
    step.NewOperation? || step.RecordApplied? || step.Order? || step.Stage? || step.Activate? || step.Fail?
  }

  /** Certificate, operation and applied-state steps do not touch routing tables. */
  lemma LateralSameDomains(s: State, step: Step)
    requires Lateral(step) && Effect(s, step).Done?
    ensures SameDomains(s, Effect(s, step).state)
  {
    hide AppliedState.RecordRevision, ActivateCertificate, OrderCertificate;
    match step
    case Order(d, c, read, predecessor) => OrderSameDomains(s, d, c, read, predecessor);
    case Activate(d, c) => ActivateSameDomains(s, d, c);
    case _ =>
  }

  lemma SameDomainsSameRouting(s: State, s': State)
    requires SameDomains(s, s')
    ensures SameRouting(s, s')
  {
  }

  lemma EffectKeepsInv(s: State, step: Step)
    requires Inv(s) && WellFormed(step) && Effect(s, step).Done?
    ensures Inv(Effect(s, step).state)
    ensures !step.Create? ==> NamesFrom(RoutesOf(Effect(s, step).state), RoutesOf(s))
  {
    hide RoutesOf, CreateDomain, UpdateDomain, ChangeStatus, RemoveDomain, ConfirmAll, SameRouting, Inv, PrepareTarget,
      NewDomainId;
    var s' := Effect(s, step).state;
    match step
    case Create(p, env) =>
      BaseNameKeepsDot(p.name);
      CreateKeepsInv(s, p, env, NewDomainId(p), BaseName(p.name), PrepareTarget(p.target, BaseName(p.name)).value);
    case Update(p, env) =>
      UpdateKeepsInv(s, p, env);
    case Suspend(p, env) =>
      ChangeStatusSameRouting(s, p, env, Suspended, {Pending, Active});
      SameRoutingKeepsInv(s, s');
    case Resume(p, env) =>
      ChangeStatusSameRouting(s, p, env, Pending, {Suspended});
      SameRoutingKeepsInv(s, s');
    case Remove(p, env) =>
      RemoveSameRouting(s, p, env);
      SameRoutingKeepsInv(s, s');
    case Confirm(p) =>
      ConfirmSameRouting(s, p.account, p.expected);
      SameRoutingKeepsInv(s, s');
    case _ =>
      LateralSameDomains(s, step);
      assert SameRouting(s, s') by { SameDomainsSameRouting(s, s'); }
      SameRoutingKeepsInv(s, s');
  }

  lemma NextKeepsInv(s: State, step: Step)
    requires Inv(s)
    ensures Inv(Next(s, step))
    ensures !step.Create? ==> NamesFrom(RoutesOf(Next(s, step)), RoutesOf(s))
  {
    hide Next, Effect, WellFormed, KeyOf, Disjoint, IndexExact, RouteTable;
    NextShape(s, step);
    if Next(s, step) != s {
      EffectKeepsInv(s, step);
    }
  }

  lemma {:induction false} RunKeepsInv(s: State, steps: seq<Step>)
    requires Inv(s)
    ensures Inv(Run(s, steps))
  {
    hide Inv;
    if steps != [] {
      RunKeepsInv(s, steps[..|steps| - 1]);
      NextKeepsInv(Run(s, steps[..|steps| - 1]), steps[|steps| - 1]);
    }
  }

  lemma EmptyInv()
    ensures Inv(EMPTY) && RoutesOf(EMPTY) == map[]
  {
  }

  /** In every reachable state the index is exact and the route table has no overlap. */
  lemma ReachableInv(steps: seq<Step>)
    ensures Inv(Run(EMPTY, steps))
  {
    hide Inv;
    EmptyInv();
    RunKeepsInv(EMPTY, steps);
  }
}
