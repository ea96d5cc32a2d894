/**
 What the transactions on accounts and packages achieve: exactly when each takes effect in a
 reachable state, and what it leaves behind.
 */
module HostingEffects {
  import opened Base
  import opened Hosting

  // ----- Packages ---------------------------------------------------------

  function Publications(steps: seq<Step>, p: Id): nat {
    if steps == [] then 0
    else
      var n := |steps| - 1;
      Publications(steps[..n], p) + if steps[n].Publish? && steps[n].package == p then 1 else 0
  }

  lemma OnlyPublishesTouchPackages(s: State, step: Step)
    requires !step.Publish?
    ensures Next(s, step).packages == s.packages
  {
    hide IsNextUid, KnownOperation, Reassigned, Noted, Confirmed, BlockedIntent, HostKey;
  }

  /** Over any run a package's revision is the number of times it was published. */
  lemma {:induction false} RevisionsCountPublications(steps: seq<Step>, p: Id)
    ensures if Publications(steps, p) == 0 then p !in Run(steps).packages
            else p in Run(steps).packages && Run(steps).packages[p].revision == Publications(steps, p)
  {
    if steps != [] {
      var n := |steps| - 1;
      RevisionsCountPublications(steps[..n], p);
      if !steps[n].Publish? {
        OnlyPublishesTouchPackages(Run(steps[..n]), steps[n]);
        hide Next;
      } else {
        hide IsNextUid, KnownOperation, Create, Assign, Enqueued, StorageRead, ResourcesRead;
      }
    }
  }

  /** A publication sets the limits that are offered from then on, and nothing else. */
  lemma PublicationIsExact(s: State, p: Id, limits: Limits)
    ensures var s' := Next(s, Publish(p, limits));
      && s' == s.(packages := s'.packages) && p in s'.packages && s'.packages[p].limits == limits
      && forall o :: o != p ==> (o in s'.packages <==> o in s.packages)
                                && (o in s.packages ==> s'.packages[o] == s.packages[o])
  {
  }

  // ----- Accounts ---------------------------------------------------------

  /** The account is there, active, with the package's present limits asked for and none applied yet. */
  ghost predicate Opened(s: State, s': State, a: AccountId, x: Id, package: Id, uid: int)
    requires package in s.packages
  {
    var p := s.packages[package];
    && s'.accounts == s.accounts[a := Account(Active, x)]
    && s'.assignments == s.assignments[x := Assignment(a, package, p.revision, p.limits, false)]
    && s'.unix == s.unix[a := Unix(uid, false)]
    && s'.storage == s.storage[a := Intent(p.limits.storage, None, 1, Pending)]
    && s'.resources == s.resources[a := Intent(p.limits.resources, None, 1, Pending)]
    && s'.packages == s.packages && s'.operations == s.operations && s'.others == s.others
  }

  /** The rows an account is made of come and go together. */
  ghost predicate Together(s: State) {
    forall a :: (a in s.accounts <==> a in s.unix) && (a in s.accounts <==> a in s.storage)
                && (a in s.accounts <==> a in s.resources)
  }

  lemma NextKeepsTogether(s: State, step: Step)
    requires Together(s)
    ensures Together(Next(s, step))
  {
    hide IsNextUid, KnownOperation, Noted, HostKey;
  }

  lemma {:induction false} ReachableTogether(steps: seq<Step>)
    ensures Together(Run(steps))
  {
    hide Next;
    if steps != [] {
      ReachableTogether(steps[..|steps| - 1]);
      NextKeepsTogether(Run(steps[..|steps| - 1]), steps[|steps| - 1]);
    }
  }

  /**
   After any run, an account is opened with a number if and only if its package exists, its identifiers
   are new and the number is the next free one of the reserved range.
   */
  lemma OpeningIsExact(steps: seq<Step>, a: AccountId, x: Id, package: Id, uid: int)
    ensures var s := Run(steps);
      var s' := Next(s, CreateAccount(a, x, package, uid));
      if package in s.packages && a !in s.accounts && x !in s.assignments && IsNextUid(s.unix, uid) && uid <= 249_999
      then Opened(s, s', a, x, package, uid) else s' == s
  {
    ReachableTogether(steps);
    hide Run, IsNextUid;
  }

  /** The limits of the package's present revision are asked for, under new revisions of both intents. */
  ghost predicate Reassigns(s: State, s': State, a: AccountId, x: Id, package: Id)
    requires package in s.packages && a in s.accounts && a in s.storage && a in s.resources
  {
    var p := s.packages[package];
    && x in s'.assignments && s'.assignments[x] == Assignment(a, package, p.revision, p.limits, false)
    && s'.accounts == s.accounts[a := Account(s.accounts[a].status, x)]
    && (forall y :: y in s.assignments ==>
          && y in s'.assignments
          && s'.assignments[y] == if y == s.accounts[a].assignment then s.assignments[y].(superseded := true)
                                  else s.assignments[y])
    && s'.storage == s.storage[a := Intent(p.limits.storage, s.storage[a].applied, s.storage[a].revision + 1, Pending)]
    && s'.resources ==
       s.resources[a := Intent(p.limits.resources, s.resources[a].applied, s.resources[a].revision + 1, Pending)]
    && s'.packages == s.packages && s'.unix == s.unix && s'.operations == s.operations && s'.others == s.others
  }

  /** The account already has this very revision. */
  predicate AlreadyAssigned(s: State, a: AccountId, package: Id)
    requires package in s.packages && a in s.accounts
  {
    s.accounts[a].assignment in s.assignments && s.assignments[s.accounts[a].assignment].package == package
    && s.assignments[s.accounts[a].assignment].revision == s.packages[package].revision
  }

  lemma AssignLeaves(s: State, a: AccountId, x: Id, package: Id)
    requires Assignable(s, a, x, package)
    ensures Reassigns(s, Assign(s, a, x, package), a, x, package) && !HostReady(Assign(s, a, x, package), a)
  {
    hide Noted;
  }

  predicate MayAssign(s: State, a: AccountId, x: Id, package: Id) {
    && a in s.accounts && s.accounts[a].status != Archived && package in s.packages && x !in s.assignments
    && !AlreadyAssigned(s, a, package)
  }

  lemma AssignableIff(s: State, a: AccountId, x: Id, package: Id)
    requires AssignmentsOk(s.accounts, s.assignments) && Together(s)
    ensures Assignable(s, a, x, package) <==> MayAssign(s, a, x, package)
  {
  }

  /**
   After any run, an assignment takes effect if and only if the account exists and is not archived, the
   package exists, the account does not have its present revision already and the identifier is new;
   the account is then not ready until its host has caught up.
   */
  lemma AssignmentIsExact(steps: seq<Step>, a: AccountId, x: Id, package: Id)
    ensures var s := Run(steps);
      var s' := Next(s, AssignPackage(a, x, package));
      if MayAssign(s, a, x, package)
      then a in s.storage && a in s.resources && Reassigns(s, s', a, x, package) && !HostReady(s', a)
      else s' == s
  {
    ReachableCore(steps);
    ReachableTogether(steps);
    var s := Run(steps);
    AssignableIff(s, a, x, package);
    if MayAssign(s, a, x, package) {
      AssignLeaves(s, a, x, package);
    }
    hide Run, Core, Together, MayAssign, Reassigns, HostReady, Eligible, Moved, Revised;
  }

  /** A status is set on any account there is, and an operation is known to its account unless taken. */
  lemma StatusAndOperationsAreExact(s: State, a: AccountId, status: AccountStatus, o: Id)
    ensures var s' := Next(s, SetStatus(a, status));
      if a in s.accounts then s' == s.(accounts := s.accounts[a := Account(status, s.accounts[a].assignment)])
      else s' == s
    ensures KnownOperation(Next(s, OtherOperation(o, a)), a, o) || (o in s.others && s.others[o] != a)
  {
    hide IsNextUid, HostKey, Create, Assign, Confirmed, BlockedIntent;
  }

  /** A block is recorded exactly for the present revision and an operation of the account. */
  lemma BlocksAreExact(s: State, a: AccountId, revision: nat, o: Id)
    ensures var s' := Next(s, BlockStorage(a, revision, o));
      if a in s.storage && s.storage[a].revision == revision && KnownOperation(s, a, o)
      then s' == s.(storage := s.storage[a := s.storage[a].(status := Blocked)]) else s' == s
    ensures var s' := Next(s, BlockResources(a, revision, o));
      if a in s.resources && s.resources[a].revision == revision && KnownOperation(s, a, o)
      then s' == s.(resources := s.resources[a := s.resources[a].(status := Blocked)]) else s' == s
  {
    hide IsNextUid, HostKey, Create, Assign, Confirmed, KnownOperation;
  }

  /** A confirmation marks what is desired as applied, exactly for the present revision and a known operation. */
  lemma ConfirmationsAreExact(s: State, a: AccountId, revision: nat, o: Id)
    ensures var s' := Next(s, ConfirmStorage(a, revision, o));
      if a in s.storage && s.storage[a].revision == revision && KnownOperation(s, a, o)
      then var desired := s.storage[a].desired;
           s' == s.(storage := s.storage[a := Intent(desired, Some(desired), revision, Applied)])
      else s' == s
    ensures var s' := Next(s, ConfirmResources(a, revision, o));
      if a in s.resources && s.resources[a].revision == revision && KnownOperation(s, a, o)
      then var desired := s.resources[a].desired;
           s' == s.(resources := s.resources[a := Intent(desired, Some(desired), revision, Applied)])
      else s' == s
  {
    hide IsNextUid, HostKey, Create, Assign, BlockedIntent, KnownOperation;
  }

  /** The reserved numbers, in numbers. */
  lemma UidsInRange(steps: seq<Step>, a: AccountId)
    requires a in Run(steps).unix
    ensures 200_000 <= Run(steps).unix[a].uid <= 249_999
  {
    hide Run;
    UidsAreDistinct(steps);
  }
}
