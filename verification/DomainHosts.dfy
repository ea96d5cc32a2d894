/**
 Host ownership: which hosts a domain row reserves, when two rows reserve the same host,
 and for which names the reservation promised for the "www" alias holds.
 */
module DomainHosts {
  import opened Base
  import opened HostNames
  import opened Domains
  import opened DomainRouting

  /** A row reserves its name, the "www" alias of its name and, as a wildcard, everything below. */
  predicate Claims(route: Route, host: string) {
    host == route.name || host == Www(route.name) || (route.wildcard && Under(host, route.name))
  }

  ghost predicate HostsExclusive(r: Routes) {
    forall a, b, host | a in r && b in r && Claims(r[a], host) && Claims(r[b], host) :: a == b
  }

  /** One row's name is another row's alias. */
  ghost predicate AliasClash(r: Routes) {
    exists a, b :: a in r && b in r && r[a].name == Www(r[b].name)
  }

  /** In every reachable state no live domain lies below a wildcard, and no host lies below two wildcards. */
  lemma WildcardsAreDisjoint(steps: seq<Step>)
    ensures var r := RoutesOf(Run(EMPTY, steps));
      && UniqueNames(r) && NoOverlap(r)
      && forall a, b, host | a in r && b in r && a != b && r[a].wildcard && r[b].wildcard && Under(host, r[a].name) ::
        !Under(host, r[b].name)
  {
    ReachableInv(steps);
    var r := RoutesOf(Run(EMPTY, steps));
    hide Run, RoutesOf, Indexed;
    forall a, b, host | a in r && b in r && a != b && r[a].wildcard && r[b].wildcard && Under(host, r[a].name)
      ensures !Under(host, r[b].name)
    {
      if Under(host, r[b].name) {
        AncestorsComparable(host, r[a].name, r[b].name);
      }
    }
  }

  /** Two rows that claim one host are an alias clash. */
  lemma SharedHostIsAlias(r: Routes, a: Id, b: Id, host: string)
    requires Disjoint(r) && a in r && b in r && a != b && Claims(r[a], host) && Claims(r[b], host)
    ensures r[a].name == Www(r[b].name) || r[b].name == Www(r[a].name)
  {
    var x, y := r[a].name, r[b].name;
    hide GoodNames, StorableName;
    if host == Www(x) && Under(host, y) { UnderWww(x, y); }
    if host == Www(y) && Under(host, x) { UnderWww(y, x); }
    if Under(host, x) && Under(host, y) { AncestorsComparable(host, x, y); }
  }

  lemma ExclusiveIffNoClash(r: Routes)
    requires Disjoint(r)
    ensures HostsExclusive(r) <==> !AliasClash(r)
  {
    if HostsExclusive(r) {
      forall a, b | a in r && b in r ensures r[a].name != Www(r[b].name) {
        if r[a].name == Www(r[b].name) {
          assert Claims(r[a], r[a].name) && Claims(r[b], r[a].name);
        }
      }
    } else {
      var a, b, host :| a in r && b in r && Claims(r[a], host) && Claims(r[b], host) && a != b;
      SharedHostIsAlias(r, a, b, host);
    }
  }

  /** Reachable states give each host at most one owner exactly when no row is named like another's alias. */
  lemma ExclusiveIffNoAliasClash(steps: seq<Step>)
    ensures HostsExclusive(RoutesOf(Run(EMPTY, steps))) <==> !AliasClash(RoutesOf(Run(EMPTY, steps)))
  {
    hide HostsExclusive, AliasClash;
    ReachableInv(steps);
    ExclusiveIffNoClash(RoutesOf(Run(EMPTY, steps)));
  }

  // ----- When a creation keeps hosts exclusive ----------------------------

  /** What the creation could query: a live row is the alias of the new name, or the other way round. */
  ghost predicate AliasTaken(r: Routes, name: string) {
    exists o :: o in r && (r[o].name == Www(name) || name == Www(r[o].name))
  }

  lemma JoinExclusiveIff(r: Routes, d: Id, route: Route)
    requires Disjoint(r) && Disjoint(r[d := route]) && d !in r && HostsExclusive(r)
    ensures HostsExclusive(r[d := route]) <==> !AliasTaken(r, route.name)
  {
    var r' := r[d := route];
    ExclusiveIffNoClash(r);
    ExclusiveIffNoClash(r');
    hide Disjoint, HostsExclusive;
    assert |Www(route.name)| > |route.name|;
    if AliasTaken(r, route.name) {
      var o :| o in r && (r[o].name == Www(route.name) || route.name == Www(r[o].name));
      assert r'[o] == r[o] && r'[d] == route;
    } else {
      forall a, b | a in r' && b in r' ensures r'[a].name != Www(r'[b].name) {
        assert a != d ==> r'[a] == r[a];
        assert b != d ==> r'[b] == r[b];
      }
    }
  }

  /** A committed creation keeps hosts exclusive if and only if the alias was free on both sides. */
  lemma CreateExclusiveIff(s: State, p: CreateRequest, env: Env, d: Id, name: string, spec: TargetSpec)
    requires Inv(s) && HostsExclusive(RoutesOf(s)) && '.' in name && CreateDomain(s, p, env, d, name, spec).Done?
    ensures HostsExclusive(RoutesOf(CreateDomain(s, p, env, d, name, spec).state)) <==> !AliasTaken(RoutesOf(s), name)
  {
    hide CreateDomain, HostsExclusive, Disjoint, AliasTaken, Indexed;
    CreateKeepsInv(s, p, env, d, name, spec);
    CreateRows(s, p, env, d, name, spec);
    JoinExclusiveIff(RoutesOf(s), d, Route(name, Wildcard(spec)));
  }

  /** No other step can take that away. */
  lemma OtherStepsKeepExclusive(s: State, step: Step)
    requires Inv(s) && HostsExclusive(RoutesOf(s)) && !step.Create?
    ensures HostsExclusive(RoutesOf(Next(s, step)))
  {
    NextKeepsInv(s, step);
    var r, r' := RoutesOf(s), RoutesOf(Next(s, step));
    hide Next, RoutesOf, Disjoint, HostsExclusive;
    ExclusiveIffNoClash(r);
    ExclusiveIffNoClash(r');
  }

  // ----- Names with at most one leading "www" -----------------------------

  predicate SingleWww(name: string) {
    BaseName(BaseName(name)) == BaseName(name)
  }

  predicate OnlySingleWww(steps: seq<Step>) {
    forall i :: 0 <= i < |steps| && steps[i].Create? ==> SingleWww(steps[i].create.name)
  }

  ghost predicate NamesAreBases(r: Routes) {
    forall d :: d in r ==> BaseName(r[d].name) == r[d].name
  }

  lemma StripOne(name: string)
    requires '.' in name
    ensures BaseName(Www(name)) == name
  {
    assert Www(name)[4..] == name;
  }

  lemma BasesNeverClash(r: Routes)
    requires GoodNames(r) && NamesAreBases(r)
    ensures !AliasClash(r)
  {
    forall b | b in r ensures BaseName(Www(r[b].name)) == r[b].name {
      StripOne(r[b].name);
    }
  }

  lemma {:induction false} SingleWwwKeepsBases(steps: seq<Step>)
    requires OnlySingleWww(steps)
    ensures NamesAreBases(RoutesOf(Run(EMPTY, steps)))
  {
    hide Inv, RoutesOf, SingleWww, BaseName, Next;
    EmptyInv();
    if steps != [] {
      var s, step := Run(EMPTY, steps[..|steps| - 1]), steps[|steps| - 1];
      SingleWwwKeepsBases(steps[..|steps| - 1]);
      ReachableInv(steps[..|steps| - 1]);
      StepKeepsBases(s, step);
    }
  }

  lemma StepKeepsBases(s: State, step: Step)
    requires Inv(s) && NamesAreBases(RoutesOf(s))
    requires step.Create? ==> SingleWww(step.create.name)
    ensures NamesAreBases(RoutesOf(Next(s, step)))
  {
    hide Next, Inv, CreateDomain, PrepareTarget, RouteTable;
    NextKeepsInv(s, step);
    NextShape(s, step);
    if step.Create? && Next(s, step) != s {
      var p, name := step.create, BaseName(step.create.name);
      BaseNameKeepsDot(p.name);
      CreateKeepsInv(s, p, step.env, NewDomainId(p), name, PrepareTarget(p.target, name).value);
    }
  }

  /** If no request doubles the "www" label, every host has at most one owner in every reachable state. */
  lemma SingleWwwMakesHostsExclusive(steps: seq<Step>)
    requires OnlySingleWww(steps)
    ensures HostsExclusive(RoutesOf(Run(EMPTY, steps)))
  {
    SingleWwwKeepsBases(steps);
    ReachableInv(steps);
    hide Run, RoutesOf, HostsExclusive;
    BasesNeverClash(RoutesOf(Run(EMPTY, steps)));
    ExclusiveIffNoClash(RoutesOf(Run(EMPTY, steps)));
  }

  // ----- The failing family -----------------------------------------------

  /** A creation by an account with room for it and every feature in its package. */
  function PlainCreate(d: Id, name: string, target: TargetSpec): Step {
    Create(CreateRequest(0, None, d, d, None, name, PreferApex, Acme, false, WafOff, CacheDisabled, target),
           Env(Some(Limits(10, {}, true, true)), {}, true))
  }

  lemma PlainCreateCommits(s: State, d: Id, name: string, target: TargetSpec)
    requires '.' in name && StorableName(BaseName(name)) && !NameTaken(s, BaseName(name))
    requires d !in s.domains && d !in s.targets && d !in s.live && LiveCount(s, 0) < 10
    requires forall o :: o in s.domains ==> !LiveWildcard(s, o)
    requires (target.Static? || target.Redirect?) && !Wildcard(target) && PrepareTarget(target, BaseName(name)).Some?
    ensures var s' := Next(s, PlainCreate(d, name, target));
      && s'.domains == s.domains[d := Domain(0, BaseName(name), Pending, PreferApex)]
      && s'.live == s.live[d := d]
      && s'.targets == s.targets[d := Target(d, PrepareTarget(target, BaseName(name)).value, false)]
      && s'.tls == s.tls[d :=
        InitialTls(PlainCreate(d, name, target).create, BaseName(name), PrepareTarget(target, BaseName(name)).value)]
      && s'.applied == s.applied && s'.certificates == s.certificates
  {
    var p, env := PlainCreate(d, name, target).create, PlainCreate(d, name, target).env;
    var spec := PrepareTarget(target, BaseName(name)).value;
    assert !Wildcard(spec) && (spec.Static? || spec.Redirect?);
    hide NameTaken, LiveCount, BaseName, StorableName, PrepareTarget;
    assert Next(s, PlainCreate(d, name, target)) == CreateDomain(s, p, env, d, BaseName(name), spec).state;
  }

  ghost predicate TwoRoutes(r: Routes, x: string, y: string) {
    0 in r && 1 in r && r[0] == Route(x, false) && r[1] == Route(y, false)
  }

  lemma RunTwo(a: Step, b: Step)
    ensures Run(EMPTY, [a, b]) == Next(Next(EMPTY, a), b)
  {
    hide Next;
    assert [a, b][..1] == [a] && [a][..0] == [];
    assert Run(EMPTY, [a]) == Next(EMPTY, a);
  }

  lemma OneLive(s: State, row: Domain)
    requires s.domains == map[0 := row]
    ensures LiveCount(s, 0) <= 1
  {
    var live := set d | d in s.domains && Live(s, d) && s.domains[d].account == 0;
    assert live == {} || live == {0};
  }

  /** A second plain creation commits beside the only other row. */
  lemma PlainSecond(s: State, x: string, y: string)
    requires s.domains == map[0 := Domain(0, x, Pending, PreferApex)]
    requires s.live == map[0 := 0] && s.targets == map[0 := Target(0, Static, false)]
    requires '.' in y && StorableName(BaseName(y)) && x != BaseName(y)
    ensures TwoRoutes(RoutesOf(Next(s, PlainCreate(1, y, Static))), x, BaseName(y))
  {
    hide Next, StorableName, BaseName, PlainCreate, InitialTls;
    hide LiveCount;
    OneLive(s, s.domains[0]);
    PlainCreateCommits(s, 1, y, Static);
  }

  /** Two plain creations with different base names both commit. */
  lemma PlainPair(x: string, y: string)
    requires '.' in x && '.' in y && StorableName(BaseName(x)) && StorableName(BaseName(y))
    requires BaseName(x) != BaseName(y)
    ensures var s := Run(EMPTY, [PlainCreate(0, x, Static), PlainCreate(1, y, Static)]);
      TwoRoutes(RoutesOf(s), BaseName(x), BaseName(y))
  {
    hide Run, Next, StorableName, BaseName, PlainCreate, RoutesOf;
    RunTwo(PlainCreate(0, x, Static), PlainCreate(1, y, Static));
    PlainCreateCommits(EMPTY, 0, x, Static);
    PlainSecond(Next(EMPTY, PlainCreate(0, x, Static)), BaseName(x), y);
  }

  /** For every base name, also registering it with a doubled "www" label gives its alias two owners. */
  lemma DoubledWwwSharesAlias(name: string)
    requires StorableName(name) && '.' in name && BaseName(name) == name && |name| <= 245
    ensures var r := RoutesOf(Run(EMPTY, [PlainCreate(0, name, Static), PlainCreate(1, Www(Www(name)), Static)]));
      && 0 in r && 1 in r && Claims(r[0], Www(name)) && Claims(r[1], Www(name)) && !HostsExclusive(r)
  {
    hide Run, RoutesOf, StorableName;
    AliasStorable(name);
    AliasStorable(Www(name));
    StripOne(Www(name));
    PlainPair(name, Www(Www(name)));
    assert Claims(Route(Www(name), false), Www(name));
  }

  lemma AliasStorable(name: string)
    requires StorableName(name) && |name| <= 249
    ensures StorableName(Www(name)) && '.' in Www(name) && Www(name) != name
  {
    assert forall i :: 4 <= i < |Www(name)| ==> Www(name)[i] == name[i - 4];
  }
}
