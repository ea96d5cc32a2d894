/**
 The domain lifecycle as a transition system over the persisted tables.

 Every `Next` step is one serialized write transaction: it either commits a new state or
 is refused and changes nothing. `live` is the partial unique index on `domain_targets`
 (one row per domain with superseded_at NULL); the other maps are tables keyed by their
 primary key.
 */
module Domains {
  import opened Base
  import opened Decimal
  import opened HostNames
  import AppliedState

  datatype Status = Pending | Active | Suspended | Removed
  datatype CanonicalMode = PreferApex | PreferWww | ServeBoth
  datatype HostMode = ApexOnly | WwwOnly | Both
  datatype WafMode = WafOff | WafDetect | WafBlock
  datatype Preset = CacheDisabled | RespectOrigin | WordPress | FastCgiRespectOrigin | FastCgiWordPress
  datatype Action = CreateAction | EditAction | SuspendAction | ResumeAction | RemoveAction

  datatype RedirectSpec = RedirectSpec(
    permanent: bool, host: string, port: string, hostMode: Option<HostMode>, wildcard: bool)

  /**
   What a domain routes to. A redirect's host is that of its normalised target URL; its port is
   the port text of the URL as requested, and after preparation the text that is stored.
   */
  datatype TargetSpec =
    | Static
    | Php(version: string)
    | OciApplication(application: Id)
    | Redirect(redirect: RedirectSpec)

  datatype TlsMode = Acme | Imported
  datatype Challenge = Http01 | Dns01 | ImportedChallenge
  datatype Issuance = TlsDisabled | TlsPending | TlsIssuing | TlsActive | TlsRenewing | TlsFailed
  datatype CertificateStatus = Ordering | Staged | CertificateActive | Retired

  datatype Domain = Domain(account: Id, name: string, status: Status, canonical: CanonicalMode)
  datatype Target = Target(domain: Id, spec: TargetSpec, superseded: bool)
  datatype Tls = Tls(
    enabled: bool, mode: TlsMode, challenge: Challenge, issuance: Issuance,
    names: seq<string>, activeRef: Option<Id>)
  datatype Certificate = Certificate(domain: Id, names: seq<string>, status: CertificateStatus)
  datatype Cache = Cache(preset: Preset, generation: Id)
  datatype Mutation = Mutation(account: Id, domain: Id, action: Action)

  datatype State = State(
    domains: map<Id, Domain>,
    targets: map<Id, Target>,
    live: map<Id, Id>,
    tls: map<Id, Tls>,
    certificates: map<Id, Certificate>,
    waf: map<Id, WafMode>,
    cache: map<Id, Cache>,
    operations: map<Id, Id>,
    mutations: map<Id, Mutation>,
    applied: AppliedState.Table)

  const EMPTY := State(map[], map[], map[], map[], map[], map[], map[], map[], map[], map[])

  // ----- Requests ---------------------------------------------------------

  datatype Limits = Limits(maxDomains: int, phpVersions: set<string>, redirects: bool, ociApplications: bool)

  /**
   What the tables outside this model answered inside the same transaction: the limits of
   an active account (or none), its active OCI applications, and whether the document root
   of a static or PHP target could be resolved.
   */
  datatype Env = Env(limits: Option<Limits>, applications: set<Id>, rootResolves: bool)

  datatype CreateRequest = CreateRequest(
    account: Id, domainId: Option<Id>, freshId: Id, targetId: Id, operation: Option<Id>,
    name: string, canonical: CanonicalMode, tlsMode: TlsMode, disableTls: bool,
    waf: WafMode, preset: Preset, target: TargetSpec)

  datatype UpdateRequest = UpdateRequest(
    account: Id, domain: Id, targetId: Id, operation: Option<Id>,
    target: Option<TargetSpec>, canonical: Option<CanonicalMode>, waf: Option<WafMode>,
    preset: Option<Preset>, rotateCache: bool)

  datatype StatusRequest = StatusRequest(account: Id, domain: Id, operation: Option<Id>)

  datatype Expectation = Expectation(domain: Id, target: Id)

  datatype ConfirmRequest = ConfirmRequest(
    account: Id, desired: Id, operation: Id, expected: seq<Expectation>)

  datatype Outcome = Done(state: State) | Refused(error: Error)

  // ----- Pure validation --------------------------------------------------

  /** Reduces a normalised name to its base: one leading "www." label goes if a dotted name remains. */
  function BaseName(name: string): string {
    if |name| >= 4 && name[..4] == "www." && '.' in name[4..] then name[4..] else name
  }

  /** The port text to store: digits within range, and none at all if the text is the default port's. */
  function NormalizePort(text: string): Option<string> {
    if !AllDigits(text) || (text != "" && !(1 <= Value(text) <= 65_535)) then None
    else Some(if text == "443" then "" else text)
  }

  /** The redirect leads to a host of the source domain itself. */
  predicate OwnHost(r: RedirectSpec, source: string) {
    r.host == source || r.host == Www(source) || (r.wildcard && Under(r.host, source))
  }

  /** Redirect checks and defaults of target preparation. */
  function PrepareTarget(spec: TargetSpec, source: string): Option<TargetSpec> {
    match spec
    case Redirect(r) =>
      var mode := if r.hostMode.None? then Both else r.hostMode.value;
      var port := NormalizePort(r.port);
      if (r.wildcard && mode != Both) || port.None? || (port.value == "" && OwnHost(r, source)) then None
      else Some(Redirect(r.(hostMode := Some(mode), port := port.value)))
    case _ => Some(spec)
  }

  predicate Wildcard(spec: TargetSpec) {
    spec.Redirect? && spec.redirect.wildcard
  }

  predicate CacheFits(preset: Preset, spec: TargetSpec) {
    preset == CacheDisabled || spec.Php? || spec.OciApplication?
  }

  predicate FastCgi(preset: Preset) {
    preset == FastCgiRespectOrigin || preset == FastCgiWordPress
  }

  predicate PackageAllows(spec: TargetSpec, limits: Limits, env: Env) {
    match spec
    case Static => true
    case Php(version) => version in limits.phpVersions
    case Redirect(_) => limits.redirects
    case OciApplication(application) => limits.ociApplications && application in env.applications
  }

  predicate RootFails(spec: TargetSpec, env: Env) {
    (spec.Static? || spec.Php?) && !env.rootResolves
  }

  function TlsNames(name: string, spec: TargetSpec): seq<string> {
    if Wildcard(spec) then [name, Www(name), "*." + name] else [name, Www(name)]
  }

  function TlsChallenge(mode: TlsMode, spec: TargetSpec): Challenge {
    if mode == Imported then ImportedChallenge else if Wildcard(spec) then Dns01 else Http01
  }

  // ----- Queries ----------------------------------------------------------

  predicate Live(s: State, d: Id) {
    d in s.domains && s.domains[d].status != Removed
  }

  predicate Owned(s: State, account: Id, d: Id) {
    d in s.domains && s.domains[d].account == account
  }

  /** The domain's current target row, reached through the index. */
  predicate HasTarget(s: State, d: Id) {
    d in s.live && s.live[d] in s.targets
  }

  function CurrentSpec(s: State, d: Id): TargetSpec
    requires HasTarget(s, d)
  {
    s.targets[s.live[d]].spec
  }

  predicate LiveWildcard(s: State, d: Id) {
    Live(s, d) && HasTarget(s, d) && Wildcard(CurrentSpec(s, d))
  }

  /** First query of the wildcard check: `name` is at or below a live wildcard of another domain. */
  predicate CoveredByWildcard(s: State, name: string, excluded: Option<Id>) {
    exists d :: d in s.domains && LiveWildcard(s, d) && excluded != Some(d)
      && (name == s.domains[d].name || Like(name, BelowPattern(s.domains[d].name)))
  }

  /** Second query: another live domain lies below `name`. */
  predicate CoversDomain(s: State, name: string, excluded: Option<Id>) {
    exists d :: d in s.domains && Live(s, d) && excluded != Some(d) && Like(s.domains[d].name, BelowPattern(name))
  }

  predicate WildcardConflict(s: State, name: string, excluded: Option<Id>, spec: TargetSpec) {
    CoveredByWildcard(s, name, excluded) || (Wildcard(spec) && CoversDomain(s, name, excluded))
  }

  predicate NameTaken(s: State, name: string) {
    exists d :: d in s.domains && Live(s, d) && s.domains[d].name == name
  }

  function LiveCount(s: State, account: Id): nat {
    |set d | d in s.domains && Live(s, d) && s.domains[d].account == account|
  }

  // ----- Operation correlation --------------------------------------------

  /** The saga step a mutation belongs to: at most one committed mutation per operation. */
  datatype Key = Key(account: Id, operation: Option<Id>, action: Action, domain: Id)

  datatype Replay = Fresh | Repeated | Rejected(error: Error)

  function ReplayCheck(s: State, k: Key): Replay {
    match k.operation
    case None => Fresh
    case Some(o) =>
      if o in s.mutations && s.mutations[o].account == k.account then
        if s.mutations[o] == Mutation(k.account, k.domain, k.action) then Repeated else Rejected(Conflict)
      else if o in s.operations && s.operations[o] == k.account then Fresh
      else Rejected(NotFound)
  }

  /** Inserts the correlation row; its primary key is the operation. */
  function RecordMutation(s: State, k: Key): Outcome {
    match k.operation
    case None => Done(s)
    case Some(o) =>
      if o in s.mutations then Refused(Conflict)
      else Done(s.(mutations := s.mutations[o := Mutation(k.account, k.domain, k.action)]))
  }

  /** A mutation inside its correlation bracket. `effect` is what it does when it is not a repeat. */
  function Correlate(s: State, k: Key, effect: Outcome): Outcome {
    match ReplayCheck(s, k)
    case Rejected(e) => Refused(e)
    case Repeated => Done(s)
    case Fresh => if effect.Refused? then effect else RecordMutation(effect.state, k)
  }

  // ----- Transactions -----------------------------------------------------

  function InsertTarget(s: State, d: Id, targetId: Id, spec: TargetSpec, env: Env): Outcome {
    if RootFails(spec, env) then Refused(NotFound)
    else if targetId in s.targets || d in s.live then Refused(Conflict)
    else Done(s.(targets := s.targets[targetId := Target(d, spec, false)], live := s.live[d := targetId]))
  }

  function SupersedeTarget(s: State, d: Id): Outcome {
    if !HasTarget(s, d) then Refused(NotFound)
    else Done(s.(targets := s.targets[s.live[d] := s.targets[s.live[d]].(superseded := true)], live := s.live - {d}))
  }

  function SwapTarget(s: State, d: Id, targetId: Id, spec: TargetSpec, env: Env): Outcome {
    match SupersedeTarget(s, d)
    case Refused(e) => Refused(e)
    case Done(s1) => InsertTarget(s1, d, targetId, spec, env)
  }

  function NewDomainId(p: CreateRequest): Id {
    if p.domainId.Some? then p.domainId.value else p.freshId
  }

  /** Input checks made before the creation transaction starts. */
  predicate CreateWellFormed(p: CreateRequest) {
    && (p.operation.Some? ==> p.domainId.Some?)
    && '.' in p.name
    && PrepareTarget(p.target, BaseName(p.name)).Some?
    && CacheFits(p.preset, PrepareTarget(p.target, BaseName(p.name)).value)
  }

  function CreateDomain(s: State, p: CreateRequest, env: Env, d: Id, name: string, spec: TargetSpec): Outcome {
    if env.limits.None? then Refused(Conflict)
    else if LiveCount(s, p.account) >= env.limits.value.maxDomains then Refused(Conflict)
    else if !PackageAllows(spec, env.limits.value, env) then Refused(Conflict)
    else if WildcardConflict(s, name, None, spec) then Refused(Conflict)
    else if !StorableName(name) || d in s.domains || NameTaken(s, name) then Refused(Conflict)
    else
      match InsertTarget(s.(domains := s.domains[d := Domain(p.account, name, Pending, p.canonical)]), d, p.targetId,
        spec, env)
      case Refused(e) => Refused(e)
      case Done(s1) =>
        Done(s1.(tls := s1.tls[d := InitialTls(p, name, spec)],
                 waf := s1.waf[d := p.waf],
                 cache := s1.cache[d := Cache(p.preset, d)]))
  }

  function InitialTls(p: CreateRequest, name: string, spec: TargetSpec): Tls {
    Tls(!p.disableTls, p.tlsMode, TlsChallenge(p.tlsMode, spec),
        if p.disableTls then TlsDisabled else TlsPending, TlsNames(name, spec), None)
  }

  /** The stored names or challenge differ from what the new target calls for. */
  predicate IntentChanges(tls: Tls, name: string, spec: TargetSpec) {
    tls.names != TlsNames(name, spec) || tls.challenge != TlsChallenge(tls.mode, spec)
  }

  function RetireActive(certificates: map<Id, Certificate>, d: Id): map<Id, Certificate> {
    map c | c in certificates ::
      if certificates[c].domain == d && certificates[c].status == CertificateActive
      then certificates[c].(status := Retired) else certificates[c]
  }

  function RefreshedTls(tls: Tls, name: string, spec: TargetSpec): Tls {
    Tls(tls.enabled, tls.mode, TlsChallenge(tls.mode, spec),
        if tls.enabled then TlsPending else TlsDisabled, TlsNames(name, spec), None)
  }

  /** Two conditional updates guarded by the same comparison. */
  function RefreshTls(s: State, d: Id, name: string, spec: TargetSpec): State {
    if d in s.tls && IntentChanges(s.tls[d], name, spec) then
      s.(certificates := RetireActive(s.certificates, d), tls := s.tls[d := RefreshedTls(s.tls[d], name, spec)])
    else s
  }

  predicate UpdateWellFormed(p: UpdateRequest) {
    p.target.Some? || p.canonical.Some? || p.waf.Some? || p.preset.Some? || p.rotateCache
  }

  function UpdateDomain(s: State, p: UpdateRequest, env: Env): Outcome {
    var d := p.domain;
    if env.limits.None? then Refused(Conflict)
    else if !(Owned(s, p.account, d) && HasTarget(s, d) && d in s.cache) then Refused(NotFound)
    else if s.domains[d].status == Removed then Refused(Conflict)
    else if p.rotateCache && (!FastCgi(s.cache[d].preset) || p.target.Some? || p.canonical.Some? || p.waf.Some? ||
      p.preset.Some?) then
      Refused(Conflict)
    else if p.target.None? then FinishUpdate(s, p)
    else match ReplaceTarget(s, d, p.targetId, p.target.value, env)
      case Refused(e) => Refused(e)
      case Done(s1) => FinishUpdate(s1, p)
  }

  function ReplaceTarget(s: State, d: Id, targetId: Id, raw: TargetSpec, env: Env): Outcome
    requires d in s.domains && env.limits.Some?
  {
    var name := s.domains[d].name;
    match PrepareTarget(raw, name)
    case None => Refused(InvalidInput)
    case Some(spec) =>
      if !PackageAllows(spec, env.limits.value, env) then Refused(Conflict)
      else if WildcardConflict(s, name, Some(d), spec) then Refused(Conflict)
      else match SwapTarget(s, d, targetId, spec, env)
        case Refused(e) => Refused(e)
        case Done(s1) => Done(RefreshTls(s1, d, name, spec))
  }

  /** The part of an edit after the optional target replacement. */
  function FinishUpdate(s: State, p: UpdateRequest): Outcome {
    var d := p.domain;
    if !(d in s.domains && d in s.cache && HasTarget(s, d)) then Refused(NotFound)
    else
      var preset := if p.preset.Some? then p.preset.value else s.cache[d].preset;
      if !CacheFits(preset, CurrentSpec(s, d)) then Refused(InvalidInput)
      else if p.waf.Some? && d !in s.waf then Refused(NotFound)
      else Done(s.(
        domains := s.domains[d := EditedRow(s.domains[d], p)],
        waf := if p.waf.Some? then s.waf[d := p.waf.value] else s.waf,
        cache := s.cache[d := Cache(preset, p.targetId)]))
  }

  function EditedRow(row: Domain, p: UpdateRequest): Domain {
    row.(canonical := if p.canonical.Some? then p.canonical.value else row.canonical,
         status := if row.status == Suspended then Suspended else Pending)
  }

  function ChangeStatus(s: State, p: StatusRequest, env: Env, status: Status, allowed: set<Status>): Outcome {
    if env.limits.None? then Refused(Conflict)
    else if !(Owned(s, p.account, p.domain) && s.domains[p.domain].status in allowed) then Refused(NotFound)
    else Done(s.(domains := s.domains[p.domain := s.domains[p.domain].(status := status)]))
  }

  function DisabledTls(tls: Tls): Tls {
    tls.(enabled := false, issuance := TlsDisabled, activeRef := None)
  }

  function RemoveDomain(s: State, p: StatusRequest, env: Env): Outcome {
    var d := p.domain;
    if env.limits.None? then Refused(Conflict)
    else if !(Owned(s, p.account, d) && s.domains[d].status != Removed) then Refused(NotFound)
    else Done(s.(
      domains := s.domains[d := s.domains[d].(status := Removed)],
      certificates := RetireActive(s.certificates, d),
      tls := if d in s.tls then s.tls[d := DisabledTls(s.tls[d])] else s.tls))
  }

  /** The guarded update of one expectation: pending, and the expected target is still current. */
  predicate Confirmable(s: State, account: Id, e: Expectation) {
    && Owned(s, account, e.domain)
    && s.domains[e.domain].status == Pending
    && e.domain in s.live && s.live[e.domain] == e.target
  }

  function ConfirmOne(s: State, account: Id, e: Expectation): State {
    if Confirmable(s, account, e)
    then s.(domains := s.domains[e.domain := s.domains[e.domain].(status := Active)]) else s
  }

  function ConfirmAll(s: State, account: Id, expected: seq<Expectation>): State {
    if expected == [] then s
    else ConfirmOne(ConfirmAll(s, account, expected[..|expected| - 1]), account, expected[|expected| - 1])
  }

  predicate ConfirmWellFormed(p: ConfirmRequest) {
    |p.expected| <= 10_000 && forall i, j :: 0 <= i < j < |p.expected| ==> p.expected[i].domain != p.expected[j].domain
  }

  function ConfirmActivation(s: State, p: ConfirmRequest): Outcome {
    if !AppliedState.ActiveMatch(s.applied, p.account, p.desired, p.operation) then Refused(Conflict)
    else Done(ConfirmAll(s, p.account, p.expected))
  }

  // ----- Certificate transactions that touch the same rows ----------------

  /**
   A new order for the domain's current intent; only HTTP-01 names of an active domain qualify.
   `read` are the names read before the transaction; sorted, they must be the names still stored.
   */
  function OrderCertificate(s: State, d: Id, certificate: Id, read: seq<string>, predecessor: Option<Id>): Outcome {
    if !(d in s.domains && s.domains[d].status == Active && d in s.tls) then Refused(NotFound)
    else
      var tls, names := s.tls[d], Sorted(read);
      if tls.names != names || !tls.enabled || tls.mode != Acme || tls.challenge != Http01 then Refused(Conflict)
      else if tls.activeRef != predecessor then Refused(Conflict)
      else if predecessor.None? && tls.issuance !in {TlsPending, TlsFailed} then Refused(Conflict)
      else if predecessor.Some? && tls.issuance !in {TlsActive, TlsFailed} then Refused(Conflict)
      else if certificate in s.certificates then Refused(Conflict)
      else Done(s.(
        certificates := s.certificates[certificate := Certificate(d, names, Ordering)],
        tls := s.tls[d := tls.(issuance := if predecessor.None? then TlsIssuing else TlsRenewing)]))
  }

  function StageCertificate(s: State, certificate: Id): Outcome {
    if !(certificate in s.certificates && s.certificates[certificate].status == Ordering) then Refused(NotFound)
    else Done(s.(certificates := s.certificates[certificate := s.certificates[certificate].(status := Staged)]))
  }

  /** Another certificate of the domain is active: the partial unique index would reject a second one. */
  predicate OtherActive(certificates: map<Id, Certificate>, d: Id, certificate: Id) {
    exists c ::
      c in certificates && c != certificate && certificates[c].domain == d &&
      certificates[c].status == CertificateActive
  }

  function ActivateCertificate(s: State, d: Id, certificate: Id): Outcome {
    if !(certificate in s.certificates && s.certificates[certificate].domain == d && d in s.tls) then Refused(NotFound)
    else if s.certificates[certificate].status == CertificateActive then Done(s)
    else if s.certificates[certificate].status != Staged then Refused(Conflict)
    else
      var tls := s.tls[d];
      if tls.names != s.certificates[certificate].names then Refused(Conflict)
      else match Predecessor(s.certificates, d, certificate, tls.activeRef)
        case None => Refused(Conflict)
        case Some(retired) =>
          if OtherActive(retired, d, certificate) || !tls.enabled then Refused(Conflict)
          else Done(s.(
            certificates := retired[certificate := s.certificates[certificate].(status := CertificateActive)],
            tls := s.tls[d := tls.(issuance := TlsActive, activeRef := Some(certificate))]))
  }

  /** Retires the certificate the domain referred to, which must still be active. */
  function Predecessor(certificates: map<Id, Certificate>, d: Id, certificate: Id,
                       activeRef: Option<Id>): Option<map<Id, Certificate>> {
    match activeRef
    case None => Some(certificates)
    case Some(c) =>
      if c == certificate then Some(certificates)
      else if !(c in certificates && certificates[c].domain == d && certificates[c].status == CertificateActive)
        then None
      else Some(certificates[c := certificates[c].(status := Retired)])
  }

  /** A failed order; the row constraint keeps a disabled domain's status 'disabled'. */
  function FailOrder(s: State, d: Id): Outcome {
    if d !in s.tls then Refused(NotFound)
    else if !s.tls[d].enabled then Refused(Conflict)
    else Done(s.(tls := s.tls[d := s.tls[d].(issuance := TlsFailed)]))
  }

  // ----- Runs -------------------------------------------------------------

  datatype Step =
    | Create(create: CreateRequest, env: Env)
    | Update(update: UpdateRequest, env: Env)
    | Suspend(change: StatusRequest, env: Env)
    | Resume(change: StatusRequest, env: Env)
    | Remove(change: StatusRequest, env: Env)
    | Confirm(confirm: ConfirmRequest)
    | NewOperation(operation: Id, account: Id)
    | RecordApplied(request: AppliedState.Request)
    | Order(domain: Id, certificate: Id, read: seq<string>, predecessor: Option<Id>)
    | Stage(certificate: Id)
    | Activate(domain: Id, certificate: Id)
    | Fail(domain: Id)

  /** Checks on the request alone; they precede the transaction. */
  predicate WellFormed(step: Step) {
    match step
    case Create(p, _) => CreateWellFormed(p)
    case Update(p, _) => UpdateWellFormed(p)
    case Confirm(p) => ConfirmWellFormed(p)
    case _ => true
  }

  function KeyOf(step: Step): Option<Key> {
    match step
    case Create(p, _) => Some(Key(p.account, p.operation, CreateAction, NewDomainId(p)))
    case Update(p, _) => Some(Key(p.account, p.operation, EditAction, p.domain))
    case Suspend(p, _) => Some(Key(p.account, p.operation, SuspendAction, p.domain))
    case Resume(p, _) => Some(Key(p.account, p.operation, ResumeAction, p.domain))
    case Remove(p, _) => Some(Key(p.account, p.operation, RemoveAction, p.domain))
    case _ => None
  }

  /** What the step's transaction does when it is not a repeated delivery. */
  ghost function Effect(s: State, step: Step): Outcome
    requires WellFormed(step)
  {
    match step
    case Create(p, env) =>
      CreateDomain(s, p, env, NewDomainId(p), BaseName(p.name), PrepareTarget(p.target, BaseName(p.name)).value)
    case Update(p, env) => UpdateDomain(s, p, env)
    case Suspend(p, env) => ChangeStatus(s, p, env, Suspended, {Pending, Active})
    case Resume(p, env) => ChangeStatus(s, p, env, Pending, {Suspended})
    case Remove(p, env) => RemoveDomain(s, p, env)
    case Confirm(p) => ConfirmActivation(s, p)
    case NewOperation(o, account) =>
      if o in s.operations then Refused(Conflict) else Done(s.(operations := s.operations[o := account]))
    case RecordApplied(p) =>
      (match AppliedState.RecordRevision(s.applied, s.operations, p)
       case Refused(e) => Refused(e)
       case Recorded(_, t) => Done(s.(applied := t)))
    case Order(d, c, read, predecessor) => OrderCertificate(s, d, c, read, predecessor)
    case Stage(c) => StageCertificate(s, c)
    case Activate(d, c) => ActivateCertificate(s, d, c)
    case Fail(d) => FailOrder(s, d)
  }

  ghost function Attempt(s: State, step: Step): Outcome {
    if !WellFormed(step) then Refused(InvalidInput)
    else match KeyOf(step)
      case None => Effect(s, step)
      case Some(k) => Correlate(s, k, Effect(s, step))
  }

  ghost function Next(s: State, step: Step): State {
    match Attempt(s, step)
    case Done(s') => s'
    case Refused(_) => s
  }

  ghost function Run(s: State, steps: seq<Step>): State {
    if steps == [] then s else Next(Run(s, steps[..|steps| - 1]), steps[|steps| - 1])
  }

  /** A step either changes nothing or commits its effect, plus its correlation row. */
  lemma NextShape(s: State, step: Step)
    ensures Next(s, step) != s ==>
      && WellFormed(step) && Effect(s, step).Done?
      && var s1 := Effect(s, step).state;
      && Next(s, step) == s1.(mutations := Next(s, step).mutations)
      && (KeyOf(step).None? ==> Next(s, step) == s1)
  {
    hide Effect, WellFormed, KeyOf, ReplayCheck;
    if WellFormed(step) && KeyOf(step).Some? && Attempt(s, step).Done? {
      var k := KeyOf(step).value;
      if ReplayCheck(s, k).Fresh? {
        assert Next(s, step) == RecordMutation(Effect(s, step).state, k).state;
      }
    }
  }
}
