/**
 Redirects that lead back to their own domain: which ones target preparation lets through, and
 what that means for the targets of every reachable state.
 */
module DomainRedirects {
  import opened Base
  import opened Decimal
  import opened HostNames
  import opened Domains
  import opened DomainRouting
  import opened DomainReplay
  import opened DomainLifecycle
  import opened DomainHosts

  const HTTPS_PORT := 443

  /** The port a client connects to for a port text of an https URL. */
  function EffectivePort(text: string): nat
    requires AllDigits(text)
  {
    if text == "" then HTTPS_PORT else Value(text)
  }

  /** A redirect to a host of the domain itself on the port the domain is served on. */
  predicate Loops(name: string, spec: TargetSpec) {
    && spec.Redirect? && OwnHost(spec.redirect, name)
    && AllDigits(spec.redirect.port) && EffectivePort(spec.redirect.port) == HTTPS_PORT
  }

  /** A text for the default port that is not its usual one. */
  predicate Misspelled(text: string) {
    text !in {"", "443"} && AllDigits(text) && Value(text) == HTTPS_PORT
  }

  lemma FormatOfDefault()
    ensures FormatUint(HTTPS_PORT) == "443" && AllDigits("443") && Value("443") == HTTPS_PORT
  {
    assert FormatUint(4) == "4" && FormatUint(44) == "44";
    ValueOfFormat(HTTPS_PORT);
  }

  /** Such texts are exactly those with leading zeros. */
  lemma MisspelledIffPadded(text: string)
    ensures Misspelled(text) <==> exists n: nat :: n > 0 && text == Zeros(n) + "443"
  {
    FormatOfDefault();
    if Misspelled(text) {
      var n := LeadingZeros(text);
      assert n == 0 ==> Zeros(n) + "443" == "443";
      assert n > 0 && text == Zeros(n) + "443";
    }
    if n: nat :| n > 0 && text == Zeros(n) + "443" {
      ValueIgnoresZeros(n, "443");
      assert |text| == n + 3;
    }
  }

  /** No port, or one in digits between 1 and 65,535. */
  predicate ValidPort(text: string) {
    text == "" || (AllDigits(text) && 1 <= Value(text) < 0x1_0000)
  }

  /** The redirect is refused before its destination is looked at: a limited wildcard or an invalid port. */
  predicate Malformed(spec: TargetSpec) {
    spec.Redirect? &&
    ((spec.redirect.wildcard && spec.redirect.hostMode.Some? && spec.redirect.hostMode != Some(Both))
     || !ValidPort(spec.redirect.port))
  }

  /**
   Preparation refuses a target if and only if it is malformed, or would loop and spells its port
   the usual way; an accepted target loops exactly when the request did.
   */
  lemma LoopAdmittedIffMisspelled(raw: TargetSpec, name: string)
    ensures PrepareTarget(raw, name).None? <==> Malformed(raw) || (Loops(name, raw) && !Misspelled(raw.redirect.port))
    ensures PrepareTarget(raw, name).Some? ==>
      (Loops(name, PrepareTarget(raw, name).value) <==> Loops(name, raw))
  {
    FormatOfDefault();
  }

  // ----- Targets of reachable states --------------------------------------

  function Requested(step: Step): Option<TargetSpec> {
    match step
    case Create(p, _) => Some(p.target)
    case Update(p, _) => p.target
    case _ => None
  }

  /** A target row that a step adds is the prepared form of the requested target, under its domain's name. */
  ghost predicate PreparedFor(s: State, step: Step, t: Id)
    requires t in s.targets
  {
    && s.targets[t].domain in s.domains && Requested(step).Some?
    && PrepareTarget(Requested(step).value, s.domains[s.targets[t].domain].name) == Some(s.targets[t].spec)
  }

  lemma UpdateAddsPrepared(s: State, p: UpdateRequest, env: Env, t: Id)
    requires UpdateDomain(s, p, env).Done? && t in UpdateDomain(s, p, env).state.targets && t !in s.targets
    ensures PreparedFor(UpdateDomain(s, p, env).state, Update(p, env), t)
  {
    UpdateDomains(s, p, env);
    hide ReplaceTarget, WildcardConflict, PrepareTarget, CacheFits, EditedRow;
    if p.target.Some? {
      ReplaceRows(s, p.domain, p.targetId, p.target.value, env);
      var s1 := ReplaceTarget(s, p.domain, p.targetId, p.target.value, env).state;
      assert UpdateDomain(s, p, env).state.targets == s1.targets;
      EditKeepsName(s.domains[p.domain], p);
    }
  }

  lemma EditKeepsName(row: Domain, p: UpdateRequest)
    ensures EditedRow(row, p).name == row.name
  {
  }

  lemma EffectAddsPrepared(s: State, step: Step, t: Id)
    requires WellFormed(step) && Effect(s, step).Done? && t in Effect(s, step).state.targets && t !in s.targets
    ensures PreparedFor(Effect(s, step).state, step, t)
  {
    match step
    case Create(p, env) =>
      hide CreateDomain, PrepareTarget, NewDomainId, WildcardConflict, NameTaken, StorableName, BaseName, InitialTls;
      CreateRows(s, p, env, NewDomainId(p), BaseName(p.name), PrepareTarget(p.target, BaseName(p.name)).value);
    case Update(p, env) =>
      hide UpdateDomain, PreparedFor;
      UpdateAddsPrepared(s, p, env, t);
    case Suspend(_, _) =>
    case Resume(_, _) =>
    case Remove(_, _) =>
    case Confirm(p) =>
      hide ConfirmAll;
      ConfirmAllExact(s, p.account, p.expected);
    case _ =>
      LateralSameDomains(s, step);
  }

  /** What holds of a domain's name together with each of its targets. */
  type TargetLaw = (string, TargetSpec) -> bool

  ghost predicate AllTargets(s: State, law: TargetLaw) {
    forall t :: t in s.targets ==>
      s.targets[t].domain in s.domains && law(s.domains[s.targets[t].domain].name, s.targets[t].spec)
  }

  /** The law holds of whatever preparation makes of the requested targets. */
  ghost predicate Ensures(steps: seq<Step>, law: TargetLaw) {
    forall i, name | 0 <= i < |steps| && Requested(steps[i]).Some? ::
      PrepareTarget(Requested(steps[i]).value, name).Some? ==>
        law(name, PrepareTarget(Requested(steps[i]).value, name).value)
  }

  lemma EffectKeepsLaw(s: State, step: Step, law: TargetLaw)
    requires WellFormed(step) && Effect(s, step).Done? && AllTargets(s, law) && Ensures([step], law)
    ensures AllTargets(Effect(s, step).state, law)
  {
    var s' := Effect(s, step).state;
    EffectKeepsHistory(s, step);
    hide Effect, PrepareTarget, WellFormed;
    forall t | t in s'.targets
      ensures s'.targets[t].domain in s'.domains && law(s'.domains[s'.targets[t].domain].name, s'.targets[t].spec)
    {
      if t in s.targets {
        EffectMoves(s, step, s.targets[t].domain);
      } else {
        EffectAddsPrepared(s, step, t);
        assert [step][0] == step;
      }
    }
  }

  /** If preparation ensures the law for every request, every target of every reachable state obeys it. */
  lemma {:induction false} ReachableTargets(steps: seq<Step>, law: TargetLaw)
    requires Ensures(steps, law)
    ensures AllTargets(Run(EMPTY, steps), law)
  {
    hide Next, PrepareTarget, Effect, WellFormed, Requested, KeyOf;
    if steps != [] {
      var front, last := steps[..|steps| - 1], steps[|steps| - 1];
      assert Ensures(front, law) && Ensures([last], law) by { EnsuresParts(steps, law); }
      ReachableTargets(front, law);
      var s := Run(EMPTY, front);
      NextShape(s, last);
      if Next(s, last) != s {
        EffectKeepsLaw(s, last, law);
      }
    }
  }

  lemma EnsuresParts(steps: seq<Step>, law: TargetLaw)
    requires Ensures(steps, law) && steps != []
    ensures Ensures(steps[..|steps| - 1], law) && Ensures([steps[|steps| - 1]], law)
  {
    hide PrepareTarget, Requested;
    var front, last := steps[..|steps| - 1], steps[|steps| - 1];
    forall i, name | 0 <= i < |front| && Requested(front[i]).Some?
      ensures PrepareTarget(Requested(front[i]).value, name).Some? ==>
        law(name, PrepareTarget(Requested(front[i]).value, name).value)
    {
      assert front[i] == steps[i];
    }
    assert last == steps[|steps| - 1];
  }

  /** After any run a target that loops has a misspelled port. */
  lemma ReachableLoopsAreMisspelled(steps: seq<Step>)
    ensures AllTargets(Run(EMPTY, steps), (name, spec) => Loops(name, spec) ==> Misspelled(spec.redirect.port))
  {
    var law: TargetLaw := (name, spec) => Loops(name, spec) ==> Misspelled(spec.redirect.port);
    forall raw, name | PrepareTarget(raw, name).Some? ensures law(name, PrepareTarget(raw, name).value) {
      FormatOfDefault();
    }
    hide PrepareTarget, Run;
    ReachableTargets(steps, law);
  }

  /** If no request misspells the default port, no target of any reachable state loops. */
  lemma UsualSpellingNeverLoops(steps: seq<Step>)
    requires forall i :: 0 <= i < |steps| && Requested(steps[i]).Some? && Requested(steps[i]).value.Redirect? ==>
      !Misspelled(Requested(steps[i]).value.redirect.port)
    ensures AllTargets(Run(EMPTY, steps), (name, spec) => !Loops(name, spec))
  {
    var law: TargetLaw := (name, spec) => !Loops(name, spec);
    forall i, name | 0 <= i < |steps| && Requested(steps[i]).Some? &&
      PrepareTarget(Requested(steps[i]).value, name).Some?
      ensures law(name, PrepareTarget(Requested(steps[i]).value, name).value)
    {
      var raw := Requested(steps[i]).value;
      LoopAdmittedIffMisspelled(raw, name);
    }
    hide PrepareTarget, Run, Requested;
    ReachableTargets(steps, law);
  }

  /**
   The failing family: for every name, a redirect to itself on a zero-padded default port goes live.
   A URL has at most 2,048 characters, so there is room for a thousand zeros.
   */
  lemma PaddedPortLoops(name: string, zeros: nat)
    requires StorableName(name) && '.' in name && BaseName(name) == name && 0 < zeros <= 1_000
    ensures var target := Redirect(RedirectSpec(true, name, Zeros(zeros) + "443", None, false));
      var s := Run(EMPTY, [PlainCreate(0, name, target)]);
      0 in s.domains && s.domains[0].name == name && HasTarget(s, 0) && Loops(name, CurrentSpec(s, 0))
  {
    var target := Redirect(RedirectSpec(true, name, Zeros(zeros) + "443", None, false));
    MisspelledIffPadded(target.redirect.port);
    LoopAdmittedIffMisspelled(target, name);
    var spec := PrepareTarget(target, name).value;
    hide StorableName, BaseName, PrepareTarget, Loops, Zeros;
    RunOne(EMPTY, PlainCreate(0, name, target));
    assert LiveCount(EMPTY, 0) == 0;
    PlainCreateCommits(EMPTY, 0, name, target);
  }
}
