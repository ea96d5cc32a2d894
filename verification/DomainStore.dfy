/**
 The repository's domain transactions, statement by statement. Each method works on the
 tables in place, rolls back on an error, and is proved to commit exactly the outcome that
 the transition system prescribes for its step.
 */
module DomainStore {
  import opened Base
  import opened HostNames
  import opened Domains
  import opened DomainReplay
  import AppliedState

  /** The answer and the committed tables are those of `outcome`; a refusal leaves no trace. */
  predicate Settles(before: State, outcome: Outcome, after: State, answer: Option<Error>) {
    match outcome
    case Done(s) => answer.None? && after == s
    case Refused(e) => answer == Some(e) && after == before
  }

  class Repository {
    var tables: State

    constructor ()
      ensures tables == EMPTY
    {
      tables := EMPTY;
    }

    /** Two conditional statements; the second repeats the comparison of the first. */
    method RefreshTlsIntent(d: Id, name: string, spec: TargetSpec)
      modifies this
      ensures tables == RefreshTls(old(tables), d, name, spec)
    {
      if d in tables.tls && IntentChanges(tables.tls[d], name, spec) {
        tables := tables.(certificates := RetireActive(tables.certificates, d));
      }
      if d in tables.tls && IntentChanges(tables.tls[d], name, spec) {
        tables := tables.(tls := tables.tls[d := RefreshedTls(tables.tls[d], name, spec)]);
      }
    }

    /** Inserts the new current target; the partial unique index admits one per domain. */
    method InsertCurrentTarget(d: Id, targetId: Id, spec: TargetSpec, env: Env) returns (error: Option<Error>)
      modifies this
      ensures Settles(old(tables), InsertTarget(old(tables), d, targetId, spec, env), tables, error)
    {
      if RootFails(spec, env) {
        return Some(NotFound);
      }
      if targetId in tables.targets || d in tables.live {
        return Some(Conflict);
      }
      tables := tables.(targets := tables.targets[targetId := Target(d, spec, false)]);
      tables := tables.(live := tables.live[d := targetId]);
      error := None;
    }

    method RecordCorrelation(k: Key) returns (error: Option<Error>)
      modifies this
      ensures Settles(old(tables), RecordMutation(old(tables), k), tables, error)
    {
      error := None;
      if k.operation.Some? {
        if k.operation.value in tables.mutations {
          return Some(Conflict);
        }
        tables := tables.(mutations := tables.mutations[k.operation.value := Mutation(k.account, k.domain, k.action)]);
      }
    }

    method CreateDomain(p: CreateRequest, env: Env) returns (error: Option<Error>)
      modifies this
      ensures Settles(old(tables), Attempt(old(tables), Create(p, env)), tables, error)
    {
      if p.operation.Some? && p.domainId.None? {
        return Some(InvalidInput);
      }
      if '.' !in p.name {
        return Some(InvalidInput);
      }
      var name := BaseName(p.name);
      var prepared := PrepareTarget(p.target, name);
      if prepared.None? || !CacheFits(p.preset, prepared.value) {
        return Some(InvalidInput);
      }
      var spec := prepared.value;
      var d := NewDomainId(p);
      var before := tables;
      var k := Key(p.account, p.operation, CreateAction, d);
      match ReplayCheck(tables, k)
      case Rejected(e) => return Some(e);
      case Repeated => return None;
      case Fresh =>
      error := InsertDomainRows(p, env, d, name, spec);
      if error.None? {
        error := RecordCorrelation(k);
      }
      if error.Some? {
        tables := before;
      }
    }

    /** The statements between the replay check and the correlation row. */
    method InsertDomainRows(p: CreateRequest, env: Env, d: Id, name: string, spec: TargetSpec)
                            returns (error: Option<Error>)
      modifies this
      ensures var outcome := Domains.CreateDomain(old(tables), p, env, d, name, spec);
        if outcome.Done? then error.None? && tables == outcome.state else error == Some(outcome.error)
    {
      if env.limits.None? || LiveCount(tables, p.account) >= env.limits.value.maxDomains {
        return Some(Conflict);
      }
      if !PackageAllows(spec, env.limits.value, env) || WildcardConflict(tables, name, None, spec) {
        return Some(Conflict);
      }
      if !StorableName(name) || d in tables.domains || NameTaken(tables, name) {
        return Some(Conflict);
      }
      hide LiveCount, WildcardConflict, NameTaken, StorableName, PackageAllows;
      tables := tables.(domains := tables.domains[d := Domain(p.account, name, Pending, p.canonical)]);
      error := InsertCurrentTarget(d, p.targetId, spec, env);
      if error.Some? {
        return;
      }
      tables := tables.(tls := tables.tls[d := InitialTls(p, name, spec)]);
      tables := tables.(waf := tables.waf[d := p.waf]);
      tables := tables.(cache := tables.cache[d := Cache(p.preset, d)]);
    }

    method UpdateDomain(p: UpdateRequest, env: Env) returns (error: Option<Error>)
      modifies this
      ensures Settles(old(tables), Attempt(old(tables), Update(p, env)), tables, error)
    {
      if p.target.None? && p.canonical.None? && p.waf.None? && p.preset.None? && !p.rotateCache {
        return Some(InvalidInput);
      }
      var before := tables;
      var k := Key(p.account, p.operation, EditAction, p.domain);
      match ReplayCheck(tables, k)
      case Rejected(e) => return Some(e);
      case Repeated => return None;
      case Fresh =>
      error := EditDomainRows(p, env);
      if error.None? {
        error := RecordCorrelation(k);
      }
      if error.Some? {
        tables := before;
      }
    }

    method EditDomainRows(p: UpdateRequest, env: Env) returns (error: Option<Error>)
      modifies this
      ensures var outcome := Domains.UpdateDomain(old(tables), p, env);
        if outcome.Done? then error.None? && tables == outcome.state else error == Some(outcome.error)
    {
      var d := p.domain;
      if env.limits.None? {
        return Some(Conflict);
      }
      if !(Owned(tables, p.account, d) && HasTarget(tables, d) && d in tables.cache) {
        return Some(NotFound);
      }
      if tables.domains[d].status == Removed {
        return Some(Conflict);
      }
      if p.rotateCache && (!FastCgi(tables.cache[d].preset) || p.target.Some? || p.canonical.Some? || p.waf.Some? ||
        p.preset.Some?) {
        return Some(Conflict);
      }
      if p.target.Some? {
        error := ReplaceCurrentTarget(d, p.targetId, p.target.value, env);
        if error.Some? {
          return;
        }
      }
      hide ReplaceTarget;
      error := FinishEdit(p);
    }

    method ReplaceCurrentTarget(d: Id, targetId: Id, raw: TargetSpec, env: Env) returns (error: Option<Error>)
      requires d in tables.domains && env.limits.Some?
      modifies this
      ensures var outcome := ReplaceTarget(old(tables), d, targetId, raw, env);
        if outcome.Done? then error.None? && tables == outcome.state else error == Some(outcome.error)
    {
      var name := tables.domains[d].name;
      var prepared := PrepareTarget(raw, name);
      if prepared.None? {
        return Some(InvalidInput);
      }
      var spec := prepared.value;
      if !PackageAllows(spec, env.limits.value, env) || WildcardConflict(tables, name, Some(d), spec) {
        return Some(Conflict);
      }
      if !HasTarget(tables, d) {
        return Some(NotFound);
      }
      hide PrepareTarget, WildcardConflict, PackageAllows;
      var current := tables.live[d];
      tables := tables.(targets := tables.targets[current := tables.targets[current].(superseded := true)]);
      tables := tables.(live := tables.live - {d});
      error := InsertCurrentTarget(d, targetId, spec, env);
      if error.Some? {
        return;
      }
      RefreshTlsIntent(d, name, spec);
    }

    method FinishEdit(p: UpdateRequest) returns (error: Option<Error>)
      modifies this
      ensures var outcome := FinishUpdate(old(tables), p);
        if outcome.Done? then error.None? && tables == outcome.state else error == Some(outcome.error)
    {
      var d := p.domain;
      if !(d in tables.domains && d in tables.cache && HasTarget(tables, d)) {
        return Some(NotFound);
      }
      var preset := if p.preset.Some? then p.preset.value else tables.cache[d].preset;
      if !CacheFits(preset, CurrentSpec(tables, d)) {
        return Some(InvalidInput);
      }
      tables := tables.(domains := tables.domains[d := EditedRow(tables.domains[d], p)]);
      if p.waf.Some? {
        if d !in tables.waf {
          return Some(NotFound);
        }
        tables := tables.(waf := tables.waf[d := p.waf.value]);
      }
      tables := tables.(cache := tables.cache[d := Cache(preset, p.targetId)]);
      error := None;
    }

    method SuspendDomain(p: StatusRequest, env: Env) returns (error: Option<Error>)
      modifies this
      ensures Settles(old(tables), Attempt(old(tables), Suspend(p, env)), tables, error)
    {
      error := ChangeDomainStatus(p, env, SuspendAction, Suspended, {Pending, Active});
    }

    method ResumeDomain(p: StatusRequest, env: Env) returns (error: Option<Error>)
      modifies this
      ensures Settles(old(tables), Attempt(old(tables), Resume(p, env)), tables, error)
    {
      error := ChangeDomainStatus(p, env, ResumeAction, Pending, {Suspended});
    }

    method ChangeDomainStatus(p: StatusRequest, env: Env, action: Action, status: Status, allowed: set<Status>)
                              returns (error: Option<Error>)
      modifies this
      ensures Settles(old(tables),
        Correlate(old(tables), Key(p.account, p.operation, action, p.domain),
          ChangeStatus(old(tables), p, env, status, allowed)), tables, error)
    {
      var before := tables;
      var k := Key(p.account, p.operation, action, p.domain);
      match ReplayCheck(tables, k)
      case Rejected(e) => return Some(e);
      case Repeated => return None;
      case Fresh =>
      if env.limits.None? {
        return Some(Conflict);
      }
      if !(Owned(tables, p.account, p.domain) && tables.domains[p.domain].status in allowed) {
        return Some(NotFound);
      }
      tables := tables.(domains := tables.domains[p.domain := tables.domains[p.domain].(status := status)]);
      error := RecordCorrelation(k);
      if error.Some? {
        tables := before;
      }
    }

    /** The correlation row is written between the domain row and its TLS rows, as in the source. */
    method RemoveDomain(p: StatusRequest, env: Env) returns (error: Option<Error>)
      modifies this
      ensures Settles(old(tables), Attempt(old(tables), Remove(p, env)), tables, error)
    {
      var before, d := tables, p.domain;
      var k := Key(p.account, p.operation, RemoveAction, d);
      match ReplayCheck(tables, k)
      case Rejected(e) => return Some(e);
      case Repeated => return None;
      case Fresh =>
      if env.limits.None? {
        return Some(Conflict);
      }
      if !(Owned(tables, p.account, d) && tables.domains[d].status != Removed) {
        return Some(NotFound);
      }
      tables := tables.(domains := tables.domains[d := tables.domains[d].(status := Removed)]);
      error := RecordCorrelation(k);
      if error.Some? {
        tables := before;
        return;
      }
      tables := tables.(certificates := RetireActive(tables.certificates, d));
      if d in tables.tls {
        tables := tables.(tls := tables.tls[d := DisabledTls(tables.tls[d])]);
      }
    }

    /** Validates the expectations with a set of seen domains. */
    method ValidateExpectations(expected: seq<Expectation>) returns (ok: bool)
      ensures ok <==> |expected| <= 10_000 && forall i, j :: 0 <= i < j < |expected| ==>
        expected[i].domain != expected[j].domain
    {
      if |expected| > 10_000 {
        return false;
      }
      var seen: set<Id> := {};
      for n := 0 to |expected|
        invariant forall d :: d in seen <==> exists i :: 0 <= i < n && expected[i].domain == d
        invariant forall i, j :: 0 <= i < j < n ==> expected[i].domain != expected[j].domain
      {
        if expected[n].domain in seen {
          return false;
        }
        seen := seen + {expected[n].domain};
      }
      return true;
    }

    /** Activates the confirmed domains one guarded update at a time and counts them. */
    method ConfirmDomainActivation(p: ConfirmRequest) returns (error: Option<Error>, activated: nat)
      modifies this
      ensures Settles(old(tables), Attempt(old(tables), Confirm(p)), tables, error)
      ensures error.None? ==>
        activated == |set d | d in old(tables).domains && Confirmed(old(tables), p.account, p.expected, d)|
    {
      activated := 0;
      var valid := ValidateExpectations(p.expected);
      if !valid {
        return Some(InvalidInput), 0;
      }
      if !AppliedState.ActiveMatch(tables.applied, p.account, p.desired, p.operation) {
        return Some(Conflict), 0;
      }
      for n := 0 to |p.expected|
        invariant tables == ConfirmAll(old(tables), p.account, p.expected[..n])
        invariant activated == |ConfirmedSet(old(tables), p.account, p.expected[..n])|
      {
        var e := p.expected[n];
        assert p.expected[..n + 1] == p.expected[..n] + [e];
        ConfirmCounts(old(tables), p.account, p.expected[..n], e);
        if Confirmable(tables, p.account, e) {
          tables := tables.(domains := tables.domains[e.domain := tables.domains[e.domain].(status := Active)]);
          activated := activated + 1;
        }
      }
      assert p.expected[..|p.expected|] == p.expected;
      error := None;
    }
  }

  ghost function ConfirmedSet(s: State, account: Id, expected: seq<Expectation>): set<Id> {
    set d | d in s.domains && Confirmed(s, account, expected, d)
  }

  /** One more expectation adds its domain to the confirmed set exactly when its update hits a row. */
  lemma ConfirmCounts(s: State, account: Id, expected: seq<Expectation>, e: Expectation)
    ensures var s1 := ConfirmAll(s, account, expected);
      && ConfirmAll(s, account, expected + [e]) == ConfirmOne(s1, account, e)
      && |ConfirmedSet(s, account, expected + [e])|
         == |ConfirmedSet(s, account, expected)| + if Confirmable(s1, account, e) then 1 else 0
  {
    assert (expected + [e])[..|expected|] == expected;
    var s1 := ConfirmAll(s, account, expected);
    ConfirmAllExact(s, account, expected);
    forall d ensures Confirmed(s, account, expected + [e], d) <==>
      Confirmed(s, account, expected, d) || (e.domain == d && Confirmable(s, account, e))
    {
      ConfirmedAppend(s, account, expected, e, d);
    }
    var before, after := ConfirmedSet(s, account, expected), ConfirmedSet(s, account, expected + [e]);
    if Confirmable(s1, account, e) {
      assert e.domain !in before && after == before + {e.domain};
    } else {
      assert after == before;
    }
  }
}
