/**
 The fixed-window limiter in front of password logins (and, with other constants, in front
 of the bootstrap form). Times are nanoseconds.
 */
module RateLimit {
  import opened Base

  const DAY: int := 1_440 * MINUTE

  datatype Policy = Policy(window: int, limit: int, block: int)

  /** One policy for all attempts together and one for each source address. */
  datatype Config = Config(global: Policy, source: Policy)

  const LOGIN := Config(Policy(MINUTE, 120, MINUTE), Policy(MINUTE, 10, 5 * MINUTE))
  const BOOTSTRAP := Config(Policy(MINUTE, 30, MINUTE), Policy(MINUTE, 5, 5 * MINUTE))
  const IDENTITY_WINDOW: int := 10 * MINUTE
  const IDENTITY_LIMIT: int := 5
  const IDENTITY_BLOCK: int := 15 * MINUTE

  predicate SanePolicy(p: Policy) {
    1 <= p.limit && 0 < p.window <= p.block && p.window <= IDENTITY_WINDOW && p.block <= IDENTITY_BLOCK
  }

  predicate Sane(c: Config) {
    SanePolicy(c.global) && SanePolicy(c.source)
  }

  lemma ConfigurationsAreSane()
    ensures Sane(LOGIN) && Sane(BOOTSTRAP)
  {
  }

  datatype Row = Row(start: int, count: int, blockedUntil: Option<int>, updated: int)

  // ----- One row ----------------------------------------------------------

  /** How long the row still blocks; not positive if it does not. */
  function BlockedFor(row: Option<Row>, now: int): int {
    if row.Some? && row.value.blockedUntil.Some? && row.value.blockedUntil.value > now
    then row.value.blockedUntil.value - now else 0
  }

  /** One attempt under a policy: the row afterwards and the time to wait, zero if admitted. */
  function Attempt(row: Option<Row>, policy: Policy, now: int): (Row, int) {
    if row.None? then (Row(now, 1, None, now), 0)
    else if BlockedFor(row, now) > 0 then (row.value, BlockedFor(row, now))
    else if now >= row.value.start + policy.window then (Row(now, 1, None, now), 0)
    else if row.value.count + 1 > policy.limit then
      (Row(row.value.start, row.value.count + 1, Some(now + policy.block), now), policy.block)
    else (Row(row.value.start, row.value.count + 1, None, now), 0)
  }

  /** A failed password for an identity. */
  function Failure(row: Option<Row>, now: int): Row {
    if row.None? || now >= row.value.start + IDENTITY_WINDOW then Row(now, 1, None, now)
    else Row(row.value.start, row.value.count + 1,
             if row.value.count + 1 >= IDENTITY_LIMIT then Some(now + IDENTITY_BLOCK) else None, now)
  }

  // ----- The table and its operations -------------------------------------

  datatype RateKey = Global | Source(address: Id) | Identity(name: Id)
  type Table = map<RateKey, Row>

  datatype Op = Authorize(source: Id, identity: Id) | Failed(identity: Id) | Succeeded(identity: Id)
  datatype Timed = Timed(op: Op, now: int)

  function Lookup(t: Table, k: RateKey): Option<Row> {
    if k in t then Some(t[k]) else None
  }

  function PolicyOf(c: Config, k: RateKey): Policy {
    if k.Global? then c.global else c.source
  }

  function Limit(c: Config, t: Table, k: RateKey, now: int): (Table, int) {
    (t[k := Attempt(Lookup(t, k), PolicyOf(c, k), now).0], Attempt(Lookup(t, k), PolicyOf(c, k), now).1)
  }

  function CleanedUp(t: Table, now: int): Table {
    map k | k in t && (k.Global? || t[k].updated >= now - DAY) :: t[k]
  }

  /** Global policy, then source policy, then the identity's block; only success tidies the table. */
  function AuthorizeStep(c: Config, t: Table, source: Id, identity: Id, now: int, cleanup: bool): (Table, int) {
    var (t1, wait1) := Limit(c, t, Global, now);
    if wait1 > 0 then (t1, wait1)
    else
      var (t2, wait2) := Limit(c, t1, Source(source), now);
      if wait2 > 0 then (t2, wait2)
      else if BlockedFor(Lookup(t2, Identity(identity)), now) > 0
        then (t2, BlockedFor(Lookup(t2, Identity(identity)), now))
      else (if cleanup then CleanedUp(t2, now) else t2, 0)
  }

  function Step(c: Config, t: Table, e: Timed, cleanup: bool): (Table, int) {
    match e.op
    case Authorize(source, identity) => AuthorizeStep(c, t, source, identity, e.now, cleanup)
    case Failed(identity) => (t[Identity(identity) := Failure(Lookup(t, Identity(identity)), e.now)], 0)
    case Succeeded(identity) => (t - {Identity(identity)}, 0)
  }

  function Run(c: Config, ops: seq<Timed>, cleanup: bool): Table {
    if ops == [] then map[] else Step(c, Run(c, ops[..|ops| - 1], cleanup), ops[|ops| - 1], cleanup).0
  }

  /** The answer to operation `i` of a run. */
  function Answer(c: Config, ops: seq<Timed>, i: nat, cleanup: bool): int
    requires i < |ops|
  {
    Step(c, Run(c, ops[..i], cleanup), ops[i], cleanup).1
  }

  ghost predicate ClockNeverGoesBack(ops: seq<Timed>) {
    forall i, j :: 0 <= i <= j < |ops| ==> ops[i].now <= ops[j].now
  }

  // ----- Tidying up is invisible ------------------------------------------

  /** From `now` on the row decides like no row at all. */
  predicate Dormant(row: Row, now: int) {
    row.start + IDENTITY_WINDOW <= now && (row.blockedUntil.Some? ==> row.blockedUntil.value <= now)
  }

  /** Rows written by the limiter up to `now`: they cannot outlast the longest window and block. */
  predicate Plausible(row: Row, now: int) {
    && row.start <= row.updated <= now
    && (row.blockedUntil.Some? ==> row.blockedUntil.value <= row.updated + IDENTITY_BLOCK)
  }

  /** `t` is `u` without some dormant rows. */
  ghost predicate Simulates(t: Table, u: Table, now: int) {
    && (forall k :: k in t ==> k in u && t[k] == u[k])
    && (forall k :: k in u ==> Plausible(u[k], now) && (k in t || Dormant(u[k], now)))
  }

  lemma LimitSimulates(c: Config, t: Table, u: Table, k: RateKey, now: int)
    requires Sane(c) && Simulates(t, u, now) && !k.Identity?
    ensures Simulates(Limit(c, t, k, now).0, Limit(c, u, k, now).0, now)
    ensures Limit(c, t, k, now).1 == Limit(c, u, k, now).1
  {
  }

  lemma CleanupSimulates(t: Table, u: Table, now: int)
    requires Simulates(t, u, now)
    ensures Simulates(CleanedUp(t, now), u, now)
  {
  }

  lemma AuthorizeSimulates(c: Config, t: Table, u: Table, source: Id, identity: Id, now: int)
    requires Sane(c) && Simulates(t, u, now)
    ensures Simulates(AuthorizeStep(c, t, source, identity, now, true).0,
      AuthorizeStep(c, u, source, identity, now, false).0, now)
    ensures AuthorizeStep(c, t, source, identity, now, true).1 == AuthorizeStep(c, u, source, identity, now, false).1
  {
    LimitSimulates(c, t, u, Global, now);
    var t1, u1 := Limit(c, t, Global, now).0, Limit(c, u, Global, now).0;
    LimitSimulates(c, t1, u1, Source(source), now);
    var t2, u2 := Limit(c, t1, Source(source), now).0, Limit(c, u1, Source(source), now).0;
    CleanupSimulates(t2, u2, now);
    assert BlockedFor(Lookup(t2, Identity(identity)), now) == BlockedFor(Lookup(u2, Identity(identity)), now);
    hide Limit, CleanedUp, Simulates;
  }

  lemma FailureSimulates(c: Config, t: Table, u: Table, identity: Id, now: int)
    requires Simulates(t, u, now)
    ensures Simulates(Step(c, t, Timed(Failed(identity), now), true).0,
      Step(c, u, Timed(Failed(identity), now), false).0, now)
  {
  }

  lemma SimulatesLater(t: Table, u: Table, now: int, later: int)
    requires Simulates(t, u, now) && now <= later
    ensures Simulates(t, u, later)
  {
  }

  lemma StepSimulates(c: Config, t: Table, u: Table, e: Timed)
    requires Sane(c) && Simulates(t, u, e.now)
    ensures Simulates(Step(c, t, e, true).0, Step(c, u, e, false).0, e.now)
    ensures Step(c, t, e, true).1 == Step(c, u, e, false).1
  {
    match e.op
    case Authorize(source, identity) => AuthorizeSimulates(c, t, u, source, identity, e.now);
    case Failed(identity) => FailureSimulates(c, t, u, identity, e.now);
    case Succeeded(_) =>
  }

  lemma {:induction false} RunSimulates(c: Config, ops: seq<Timed>, now: int)
    requires Sane(c) && ClockNeverGoesBack(ops) && (ops != [] ==> ops[|ops| - 1].now <= now)
    ensures Simulates(Run(c, ops, true), Run(c, ops, false), now)
  {
    if ops != [] {
      hide Step, Simulates;
      var front, last := ops[..|ops| - 1], ops[|ops| - 1];
      RunSimulates(c, front, last.now);
      var t, u := Run(c, front, true), Run(c, front, false);
      StepSimulates(c, t, u, last);
      SimulatesLater(Step(c, t, last, true).0, Step(c, u, last, false).0, last.now, now);
    }
  }

  /** Deleting day-old rows never changes an answer, now or later. */
  lemma CleanupIsInvisible(c: Config, ops: seq<Timed>, i: nat)
    requires Sane(c) && ClockNeverGoesBack(ops) && i < |ops|
    ensures Answer(c, ops, i, true) == Answer(c, ops, i, false)
  {
    hide Step, Run;
    RunSimulates(c, ops[..i], ops[i].now);
    StepSimulates(c, Run(c, ops[..i], true), Run(c, ops[..i], false), ops[i]);
  }

  /** After an authorized attempt no row but the global one is older than a day, and younger ones are all there. */
  lemma AuthorizationTidies(c: Config, ops: seq<Timed>)
    requires ops != [] && ops[|ops| - 1].op.Authorize? && Answer(c, ops, |ops| - 1, true) == 0
    ensures var t, now := Run(c, ops, true), ops[|ops| - 1].now;
      && (forall k :: k in t ==> k.Global? || t[k].updated >= now - 1_440 * MINUTE)
      && var u := Run(c, ops[..|ops| - 1], true);
        forall k :: k in u && k.Identity? && u[k].updated >= now - 1_440 * MINUTE ==> k in t && t[k] == u[k]
  {
    hide Attempt, BlockedFor;
  }

  // ----- How many attempts get through ------------------------------------

  /** Attempts made one after another on one row. */
  function Attempts(row: Option<Row>, policy: Policy, times: seq<int>): Option<Row> {
    if times == [] then row
    else Some(Attempt(Attempts(row, policy, times[..|times| - 1]), policy, times[|times| - 1]).0)
  }

  ghost predicate Ascending(times: seq<int>) {
    forall i, j :: 0 <= i <= j < |times| ==> times[i] <= times[j]
  }

  /** Attempts on a fresh row admitted at times in `[a, b)`. */
  ghost function RowAdmitted(policy: Policy, times: seq<int>, a: int, b: int): nat {
    if times == [] then 0
    else
      var n := |times| - 1;
      RowAdmitted(policy, times[..n], a, b)
        + if a <= times[n] < b && Attempt(Attempts(None, policy, times[..n]), policy, times[n]).1 == 0 then 1 else 0
  }

  /**
   Bounds the attempts admitted at or after `a`, as long as the clock is below `a + window`:
   a window opened before `a` has spent at least its first attempt before `a`.
   */
  ghost predicate Budget(row: Option<Row>, policy: Policy, a: int, admitted: int) {
    match row
    case None => admitted <= 0
    case Some(r) =>
      && 1 <= r.count
      && admitted <= (if r.start < a then -1 else policy.limit - 1)
                     + (if r.count < policy.limit then r.count else policy.limit)
  }

  lemma AttemptKeepsBudget(row: Option<Row>, policy: Policy, now: int, a: int, admitted: int)
    requires 1 <= policy.limit && 0 < policy.block && now < a + policy.window && Budget(row, policy, a, admitted)
    requires admitted > 0 ==> a <= now
    ensures var (row', wait) := Attempt(row, policy, now);
      Budget(Some(row'), policy, a, admitted + if wait == 0 && a <= now then 1 else 0)
  {
  }

  lemma {:induction false} RowAdmittedNeedsTime(policy: Policy, times: seq<int>, a: int, b: int)
    requires RowAdmitted(policy, times, a, b) > 0
    ensures exists i :: 0 <= i < |times| && a <= times[i]
  {
    var n := |times| - 1;
    if !(a <= times[n]) {
      RowAdmittedNeedsTime(policy, times[..n], a, b);
      var i :| 0 <= i < n && a <= times[..n][i];
      assert a <= times[i];
    }
  }

  lemma {:induction false} RowKeepsBudget(policy: Policy, times: seq<int>, a: int)
    requires 1 <= policy.limit && 0 < policy.block && Ascending(times)
    requires forall i :: 0 <= i < |times| ==> times[i] < a + policy.window
    ensures Budget(Attempts(None, policy, times), policy, a, RowAdmitted(policy, times, a, a + policy.window))
  {
    if times != [] {
      var n, b := |times| - 1, a + policy.window;
      RowKeepsBudget(policy, times[..n], a);
      if RowAdmitted(policy, times[..n], a, b) > 0 {
        RowAdmittedNeedsTime(policy, times[..n], a, b);
      }
      AttemptKeepsBudget(Attempts(None, policy, times[..n]), policy, times[n], a,
        RowAdmitted(policy, times[..n], a, b));
      hide Attempt, Budget;
    }
  }

  /** One policy admits at most `2 * limit - 1` attempts in any interval as long as its window. */
  lemma {:induction false} RowBound(policy: Policy, times: seq<int>, a: int)
    requires 1 <= policy.limit && 0 < policy.block && Ascending(times)
    ensures RowAdmitted(policy, times, a, a + policy.window) <= 2 * policy.limit - 1
  {
    hide Attempt;
    if times != [] {
      var n := |times| - 1;
      if times[n] >= a + policy.window {
        RowBound(policy, times[..n], a);
      } else {
        RowKeepsBudget(policy, times, a);
      }
    }
  }

  // ----- Policies inside a run --------------------------------------------

  /** The step makes an attempt under the policy of `k`: always for the global one, else if that admitted it. */
  predicate Reaches(c: Config, t: Table, e: Timed, k: RateKey) {
    && e.op.Authorize?
    && (k == Global || (k == Source(e.op.source) && Attempt(Lookup(t, Global), c.global, e.now).1 == 0))
  }

  /** That attempt is admitted by the policy, whatever later checks say. */
  predicate PolicyAdmits(c: Config, t: Table, e: Timed, k: RateKey) {
    Reaches(c, t, e, k) && Attempt(Lookup(t, k), PolicyOf(c, k), e.now).1 == 0
  }

  /** Attempts the policy of `k` admitted at times in `[a, b)` of a run. */
  ghost function PolicyAdmitted(c: Config, ops: seq<Timed>, k: RateKey, a: int, b: int, cleanup: bool): nat {
    if ops == [] then 0
    else
      var n := |ops| - 1;
      PolicyAdmitted(c, ops[..n], k, a, b, cleanup)
        + if PolicyAdmits(c, Run(c, ops[..n], cleanup), ops[n], k) && a <= ops[n].now < b then 1 else 0
  }

  /** The attempt is subject to the row under `k`. */
  predicate Concerns(op: Op, k: RateKey) {
    op.Authorize? && (k == Global || k == Source(op.source))
  }

  /** Attempts concerning `k` that passed every check, at times in `[a, b)`. */
  ghost function AdmittedIn(c: Config, ops: seq<Timed>, k: RateKey, a: int, b: int, cleanup: bool): nat {
    if ops == [] then 0
    else
      var n := |ops| - 1;
      AdmittedIn(c, ops[..n], k, a, b, cleanup)
        + if Concerns(ops[n].op, k) && a <= ops[n].now < b && Answer(c, ops, n, cleanup) == 0 then 1 else 0
  }

  lemma LimitRow(c: Config, t: Table, k: RateKey, other: RateKey, now: int)
    ensures Lookup(Limit(c, t, k, now).0, other) ==
      if other == k then Some(Attempt(Lookup(t, k), PolicyOf(c, k), now).0) else Lookup(t, other)
    ensures Limit(c, t, k, now).1 == Attempt(Lookup(t, k), PolicyOf(c, k), now).1
  {
  }

  lemma WaitIsNeverNegative(row: Option<Row>, policy: Policy, now: int)
    requires 0 < policy.block
    ensures Attempt(row, policy, now).1 >= 0
  {
  }

  /**
   A step changes the row under `k` exactly by the attempt it makes on it, and authorizes only what
   the policy admits.
   */
  lemma StepRow(c: Config, t: Table, e: Timed, k: RateKey)
    requires Sane(c) && !k.Identity?
    ensures Lookup(Step(c, t, e, false).0, k) ==
      if Reaches(c, t, e, k) then Some(Attempt(Lookup(t, k), PolicyOf(c, k), e.now).0) else Lookup(t, k)
    ensures Concerns(e.op, k) && Step(c, t, e, false).1 == 0 ==> PolicyAdmits(c, t, e, k)
  {
    if e.op.Authorize? {
      var t1 := Limit(c, t, Global, e.now).0;
      LimitRow(c, t, Global, k, e.now);
      LimitRow(c, t, Global, Source(e.op.source), e.now);
      LimitRow(c, t1, Source(e.op.source), k, e.now);
      WaitIsNeverNegative(Lookup(t, Global), c.global, e.now);
      WaitIsNeverNegative(Lookup(t, Source(e.op.source)), c.source, e.now);
      hide Attempt, Limit;
    }
  }

  /** The times at which a run makes attempts under the policy of `k`. */
  ghost function TimesAt(c: Config, ops: seq<Timed>, k: RateKey): seq<int> {
    if ops == [] then []
    else
      var n := |ops| - 1;
      TimesAt(c, ops[..n], k) + if Reaches(c, Run(c, ops[..n], false), ops[n], k) then [ops[n].now] else []
  }

  lemma {:induction false} TimesAscend(c: Config, ops: seq<Timed>, k: RateKey, now: int)
    requires ClockNeverGoesBack(ops) && forall i :: 0 <= i < |ops| ==> ops[i].now <= now
    ensures Ascending(TimesAt(c, ops, k)) && forall i :: 0 <= i < |TimesAt(c, ops, k)| ==> TimesAt(c, ops, k)[i] <= now
  {
    if ops != [] {
      TimesAscend(c, ops[..|ops| - 1], k, ops[|ops| - 1].now);
    }
  }

  lemma {:induction false} RowProjects(c: Config, ops: seq<Timed>, k: RateKey)
    requires Sane(c) && !k.Identity?
    ensures Lookup(Run(c, ops, false), k) == Attempts(None, PolicyOf(c, k), TimesAt(c, ops, k))
  {
    if ops != [] {
      var n := |ops| - 1;
      var times := TimesAt(c, ops[..n], k);
      RowProjects(c, ops[..n], k);
      StepRow(c, Run(c, ops[..n], false), ops[n], k);
      assert (times + [ops[n].now])[..|times|] == times && times + [] == times;
      hide Attempt, Step, Reaches, Lookup;
    }
  }

  lemma {:induction false} AuthorizedIsAdmitted(c: Config, ops: seq<Timed>, k: RateKey, a: int, b: int)
    requires Sane(c) && !k.Identity?
    ensures AdmittedIn(c, ops, k, a, b, false) <= PolicyAdmitted(c, ops, k, a, b, false)
  {
    if ops != [] {
      var n := |ops| - 1;
      AuthorizedIsAdmitted(c, ops[..n], k, a, b);
      StepRow(c, Run(c, ops[..n], false), ops[n], k);
      hide Step, PolicyAdmits, Lookup;
    }
  }

  lemma RowAdmittedMore(policy: Policy, times: seq<int>, now: int, a: int, b: int)
    ensures RowAdmitted(policy, times + [now], a, b) == RowAdmitted(policy, times, a, b)
      + if Attempt(Attempts(None, policy, times), policy, now).1 == 0 && a <= now < b then 1 else 0
  {
    hide Attempt, Attempts;
    assert (times + [now])[..|times|] == times;
  }

  /** Seen from one policy, a run is a sequence of attempts on one row. */
  lemma {:induction false} RunProjects(c: Config, ops: seq<Timed>, k: RateKey, a: int, b: int)
    requires Sane(c) && !k.Identity?
    ensures Lookup(Run(c, ops, false), k) == Attempts(None, PolicyOf(c, k), TimesAt(c, ops, k))
    ensures PolicyAdmitted(c, ops, k, a, b, false) == RowAdmitted(PolicyOf(c, k), TimesAt(c, ops, k), a, b)
  {
    RowProjects(c, ops, k);
    if ops != [] {
      var n := |ops| - 1;
      var times := TimesAt(c, ops[..n], k);
      RunProjects(c, ops[..n], k, a, b);
      RowAdmittedMore(PolicyOf(c, k), times, ops[n].now, a, b);
      assert times + [] == times;
      hide Attempt, Run, Attempts, Lookup, Reaches, RowAdmitted;
    }
  }

  lemma {:induction false} SamePolicyAdmissions(c: Config, ops: seq<Timed>, k: RateKey, a: int, b: int)
    requires Sane(c) && ClockNeverGoesBack(ops) && !k.Identity?
    ensures PolicyAdmitted(c, ops, k, a, b, true) == PolicyAdmitted(c, ops, k, a, b, false)
    ensures AdmittedIn(c, ops, k, a, b, true) == AdmittedIn(c, ops, k, a, b, false)
  {
    if ops != [] {
      var n := |ops| - 1;
      var t, u := Run(c, ops[..n], true), Run(c, ops[..n], false);
      SamePolicyAdmissions(c, ops[..n], k, a, b);
      CleanupIsInvisible(c, ops, n);
      RunSimulates(c, ops[..n], ops[n].now);
      LimitSimulates(c, t, u, Global, ops[n].now);
      LimitSimulates(c, t, u, k, ops[n].now);
      LimitRow(c, t, Global, k, ops[n].now);
      LimitRow(c, u, Global, k, ops[n].now);
      LimitRow(c, t, k, k, ops[n].now);
      LimitRow(c, u, k, k, ops[n].now);
      hide Attempt, Step, Run, Simulates, Limit, Answer;
    }
  }

  /**
   In any run, and in any interval as long as its window, each policy admits at most
   `2 * limit - 1` attempts, counting also those that a later check refuses.
   */
  lemma PolicyBound(c: Config, ops: seq<Timed>, k: RateKey, a: int)
    requires Sane(c) && ClockNeverGoesBack(ops) && !k.Identity?
    ensures PolicyAdmitted(c, ops, k, a, a + PolicyOf(c, k).window, true) <= 2 * PolicyOf(c, k).limit - 1
    ensures AdmittedIn(c, ops, k, a, a + PolicyOf(c, k).window, true) <= 2 * PolicyOf(c, k).limit - 1
  {
    hide Attempt, Step, Run, Attempts, RowAdmitted, PolicyAdmitted, AdmittedIn, TimesAt, Ascending;
    var b := a + PolicyOf(c, k).window;
    SamePolicyAdmissions(c, ops, k, a, b);
    RunProjects(c, ops, k, a, b);
    AuthorizedIsAdmitted(c, ops, k, a, b);
    TimesAscend(c, ops, k, if ops == [] then 0 else ops[|ops| - 1].now);
    RowBound(PolicyOf(c, k), TimesAt(c, ops, k), a);
  }

  // ----- The announced waiting time ---------------------------------------

  /** While the clock moves forward, a block set by a policy outlasts the window it closed. */
  predicate BlockCoversWindow(row: Option<Row>, policy: Policy, now: int) {
    row.Some? ==>
      && row.value.start <= now
      && (row.value.blockedUntil.Some? ==> row.value.start + policy.window <= row.value.blockedUntil.value)
  }

  lemma AttemptKeepsCover(row: Option<Row>, policy: Policy, now: int)
    requires BlockCoversWindow(row, policy, now) && 0 < policy.window <= policy.block
    ensures BlockCoversWindow(Some(Attempt(row, policy, now).0), policy, now)
  {
  }

  lemma {:induction false} AttemptsKeepCover(policy: Policy, times: seq<int>, now: int)
    requires 0 < policy.window <= policy.block && Ascending(times) && forall i :: 0 <= i < |times| ==> times[i] <= now
    ensures BlockCoversWindow(Attempts(None, policy, times), policy, now)
  {
    hide Attempt;
    if times != [] {
      var n := |times| - 1;
      AttemptsKeepCover(policy, times[..n], times[n]);
      AttemptKeepsCover(Attempts(None, policy, times[..n]), policy, times[n]);
    }
  }

  /** Attempts during the announced time leave the row as it is. */
  lemma {:induction false} WaitingChangesNothing(row: Option<Row>, policy: Policy, until: int, times: seq<int>)
    requires row.Some? && row.value.blockedUntil == Some(until) && forall i :: 0 <= i < |times| ==> times[i] < until
    ensures Attempts(row, policy, times) == row
  {
    if times != [] {
      WaitingChangesNothing(row, policy, until, times[..|times| - 1]);
    }
  }

  /**
   A refusal announces the exact waiting time: every earlier retry is refused and told the
   remainder, and the first retry at or after it is admitted, however often one retried before.
   */
  lemma WaitIsExact(policy: Policy, before: seq<int>, now: int, retries: seq<int>, retry: int)
    requires 0 < policy.window <= policy.block && Ascending(before)
    requires (forall i :: 0 <= i < |before| ==> before[i] <= now)
    requires var wait := Attempt(Attempts(None, policy, before), policy, now).1;
      wait > 0 && forall i :: 0 <= i < |retries| ==> now <= retries[i] < now + wait
    ensures var (row, wait) := Attempt(Attempts(None, policy, before), policy, now);
      var answer := Attempt(Attempts(Some(row), policy, retries), policy, retry).1;
      && (now <= retry < now + wait ==> answer == now + wait - retry)
      && (now + wait <= retry ==> answer == 0)
  {
    var row0 := Attempts(None, policy, before);
    AttemptsKeepCover(policy, before, now);
    AttemptKeepsCover(row0, policy, now);
    var (row, wait) := Attempt(row0, policy, now);
    assert row.blockedUntil == Some(now + wait);
    WaitingChangesNothing(Some(row), policy, now + wait, retries);
  }

  /** What the policy of `k` answers to operation `i`, if that reaches it. */
  function PolicyWait(c: Config, ops: seq<Timed>, k: RateKey, i: nat, cleanup: bool): int
    requires i < |ops|
  {
    Attempt(Lookup(Run(c, ops[..i], cleanup), k), PolicyOf(c, k), ops[i].now).1
  }

  predicate ReachesAt(c: Config, ops: seq<Timed>, k: RateKey, i: nat, cleanup: bool)
    requires i < |ops|
  {
    Reaches(c, Run(c, ops[..i], cleanup), ops[i], k)
  }

  lemma SameWait(c: Config, ops: seq<Timed>, k: RateKey, i: nat)
    requires Sane(c) && ClockNeverGoesBack(ops) && !k.Identity? && i < |ops|
    ensures PolicyWait(c, ops, k, i, true) == PolicyWait(c, ops, k, i, false)
    ensures ReachesAt(c, ops, k, i, true) == ReachesAt(c, ops, k, i, false)
  {
    var t, u, now := Run(c, ops[..i], true), Run(c, ops[..i], false), ops[i].now;
    RunSimulates(c, ops[..i], now);
    LimitSimulates(c, t, u, Global, now);
    LimitSimulates(c, t, u, k, now);
    LimitRow(c, t, Global, k, now);
    LimitRow(c, u, Global, k, now);
    LimitRow(c, t, k, k, now);
    LimitRow(c, u, k, k, now);
    hide Attempt, Step, Run, Simulates, Limit;
  }

  /** What the policy answers when it refuses is the answer to the attempt. */
  lemma RefusalIsTheAnswer(c: Config, ops: seq<Timed>, k: RateKey, i: nat, cleanup: bool)
    requires Sane(c) && !k.Identity? && i < |ops|
    requires ReachesAt(c, ops, k, i, cleanup) && PolicyWait(c, ops, k, i, cleanup) > 0
    ensures Answer(c, ops, i, cleanup) == PolicyWait(c, ops, k, i, cleanup)
  {
    var t, e := Run(c, ops[..i], cleanup), ops[i];
    LimitRow(c, t, Global, Source(e.op.source), e.now);
    LimitRow(c, Limit(c, t, Global, e.now).0, Source(e.op.source), k, e.now);
    hide Attempt, Run, Limit;
  }

  lemma {:induction false} AttemptsConcat(row: Option<Row>, policy: Policy, xs: seq<int>, ys: seq<int>)
    ensures Attempts(row, policy, xs + ys) == Attempts(Attempts(row, policy, xs), policy, ys)
    decreases |ys|
  {
    hide Attempt;
    if ys == [] {
      assert xs + ys == xs;
    } else {
      assert (xs + ys)[..|xs + ys| - 1] == xs + ys[..|ys| - 1];
      AttemptsConcat(row, policy, xs, ys[..|ys| - 1]);
    }
  }

  /** The attempts under the policy of `k` since operation `i`: what a run of `j` operations adds to one of `i`. */
  ghost function TimesSince(c: Config, ops: seq<Timed>, k: RateKey, i: nat, j: nat): seq<int>
    requires i <= j <= |ops|
  {
    if i == j then []
    else TimesSince(c, ops, k, i, j - 1) + if ReachesAt(c, ops, k, j - 1, false) then [ops[j - 1].now] else []
  }

  lemma {:induction false} TimesSplit(c: Config, ops: seq<Timed>, k: RateKey, i: nat, j: nat)
    requires i <= j <= |ops|
    ensures TimesAt(c, ops[..j], k) == TimesAt(c, ops[..i], k) + TimesSince(c, ops, k, i, j)
  {
    hide Reaches, Run;
    if i < j {
      TimesSplit(c, ops, k, i, j - 1);
      assert ops[..j][..j - 1] == ops[..j - 1];
    }
  }

  lemma {:induction false} TimesSinceWithin(c: Config, ops: seq<Timed>, k: RateKey, i: nat, j: nat, from: int, to: int)
    requires i <= j <= |ops|
    requires forall m :: i <= m < j && ReachesAt(c, ops, k, m, false) ==> from <= ops[m].now < to
    ensures forall n :: 0 <= n < |TimesSince(c, ops, k, i, j)| ==> from <= TimesSince(c, ops, k, i, j)[n] < to
  {
    hide ReachesAt;
    if i < j {
      TimesSinceWithin(c, ops, k, i, j - 1, from, to);
    }
  }

  /** The row under `k` before operation `j`, in terms of the refusal at operation `i`. */
  lemma RowSinceRefusal(c: Config, ops: seq<Timed>, k: RateKey, i: nat, j: nat)
    requires Sane(c) && !k.Identity? && i < j <= |ops| && ReachesAt(c, ops, k, i, false)
    ensures var policy, before := PolicyOf(c, k), TimesAt(c, ops[..i], k);
      && Lookup(Run(c, ops[..i], false), k) == Attempts(None, policy, before)
      && Lookup(Run(c, ops[..j], false), k) ==
         Attempts(Some(Attempt(Attempts(None, policy, before), policy, ops[i].now).0), policy,
                  TimesSince(c, ops, k, i + 1, j))
  {
    var policy, before := PolicyOf(c, k), TimesAt(c, ops[..i], k);
    RowProjects(c, ops[..i], k);
    RowProjects(c, ops[..j], k);
    TimesSplit(c, ops, k, i + 1, j);
    assert ops[..i + 1][..i] == ops[..i];
    assert TimesAt(c, ops[..i + 1], k) == before + [ops[i].now];
    assert (before + [ops[i].now])[..|before|] == before;
    AttemptsConcat(None, policy, before + [ops[i].now], TimesSince(c, ops, k, i + 1, j));
    hide Attempt, Run, Lookup, TimesAt, TimesSince;
  }

  lemma UntidiedWaitIsExact(c: Config, ops: seq<Timed>, k: RateKey, i: nat, j: nat)
    requires Sane(c) && ClockNeverGoesBack(ops) && !k.Identity? && i < j < |ops|
    requires ReachesAt(c, ops, k, i, false) && PolicyWait(c, ops, k, i, false) > 0
    requires var until := ops[i].now + PolicyWait(c, ops, k, i, false);
      forall m :: i < m < j && ReachesAt(c, ops, k, m, false) ==> ops[m].now < until
    ensures var until := ops[i].now + PolicyWait(c, ops, k, i, false);
      PolicyWait(c, ops, k, j, false) == if ops[j].now < until then until - ops[j].now else 0
  {
    hide Attempt, Run, Lookup, TimesAt, TimesSince, Attempts, ReachesAt;
    var policy, before, retries := PolicyOf(c, k), TimesAt(c, ops[..i], k), TimesSince(c, ops, k, i + 1, j);
    var until := ops[i].now + PolicyWait(c, ops, k, i, false);
    RowSinceRefusal(c, ops, k, i, j);
    TimesAscend(c, ops[..i], k, ops[i].now);
    TimesSinceWithin(c, ops, k, i + 1, j, ops[i].now, until);
    WaitIsExact(policy, before, ops[i].now, retries, ops[j].now);
  }

  /**
   In any run of the limiter, an attempt that a policy refuses is answered with its waiting time;
   until then every attempt that reaches the policy is refused with exactly the remaining time,
   and the first one to reach it afterwards is admitted by it.
   */
  lemma RunWaitIsExact(c: Config, ops: seq<Timed>, k: RateKey, i: nat, j: nat)
    requires Sane(c) && ClockNeverGoesBack(ops) && !k.Identity? && i < j < |ops|
    requires ReachesAt(c, ops, k, i, true) && PolicyWait(c, ops, k, i, true) > 0
    requires var until := ops[i].now + PolicyWait(c, ops, k, i, true);
      forall m :: i < m < j && ReachesAt(c, ops, k, m, true) ==> ops[m].now < until
    ensures Answer(c, ops, i, true) == PolicyWait(c, ops, k, i, true)
    ensures var until := ops[i].now + Answer(c, ops, i, true);
      ReachesAt(c, ops, k, j, true) ==>
        if ops[j].now < until then Answer(c, ops, j, true) == until - ops[j].now
        else PolicyWait(c, ops, k, j, true) == 0
  {
    RefusalIsTheAnswer(c, ops, k, i, true);
    hide Answer, ReachesAt, PolicyWait;
    SameWait(c, ops, k, i);
    SameWait(c, ops, k, j);
    forall m | i < m < j && ReachesAt(c, ops, k, m, false)
      ensures ops[m].now < ops[i].now + PolicyWait(c, ops, k, i, false)
    {
      SameWait(c, ops, k, m);
    }
    UntidiedWaitIsExact(c, ops, k, i, j);
    if ReachesAt(c, ops, k, j, true) && PolicyWait(c, ops, k, j, true) > 0 {
      RefusalIsTheAnswer(c, ops, k, j, true);
    }
  }

  // ----- Failed passwords -------------------------------------------------

  function Failures(times: seq<int>): Option<Row> {
    if times == [] then None else Some(Failure(Failures(times[..|times| - 1]), times[|times| - 1]))
  }

  /**
   Failures within one window, first to last: the identity is blocked exactly from the fifth on,
   and then for fifteen minutes after the last failure.
   */
  lemma {:induction false} FifthFailureBlocks(times: seq<int>, now: int)
    requires times != [] && Ascending(times) && times[|times| - 1] < times[0] + IDENTITY_WINDOW
    requires times[|times| - 1] <= now
    ensures var last := times[|times| - 1];
      && Failures(times).Some? && Failures(times).value.start == times[0] && Failures(times).value.count == |times|
      && BlockedFor(Failures(times), now) == if |times| >= 5 && now < last + 15 * MINUTE then last + 15 * MINUTE - now
        else 0
  {
    var n := |times| - 1;
    if n == 0 {
      assert times[..0] == [];
    } else {
      FifthFailureBlocks(times[..n], times[n]);
    }
  }

  /** The failures of an identity since its last success, oldest first. */
  function FailuresSince(ops: seq<Timed>, identity: Id): seq<int> {
    if ops == [] then []
    else
      var n := |ops| - 1;
      if ops[n].op == Succeeded(identity) then []
      else FailuresSince(ops[..n], identity) + if ops[n].op == Failed(identity) then [ops[n].now] else []
  }

  /** The failures of the present window: a failure outside the window of those before it starts a new one. */
  function WindowOf(times: seq<int>): seq<int> {
    if times == [] then []
    else
      var w, t := WindowOf(times[..|times| - 1]), times[|times| - 1];
      if w != [] && t < w[0] + IDENTITY_WINDOW then w + [t] else [t]
  }

  /** Earlier windows leave no trace. */
  lemma {:induction false} OnlyWindowCounts(times: seq<int>)
    requires Ascending(times)
    ensures var w := WindowOf(times);
      && Failures(times) == Failures(w) && Ascending(w)
      && (times != [] ==>
            w != [] && w[|w| - 1] == times[|times| - 1] && w[|w| - 1] < w[0] + IDENTITY_WINDOW)
  {
    if times != [] {
      var n := |times| - 1;
      OnlyWindowCounts(times[..n]);
      var w, t := WindowOf(times[..n]), times[n];
      if w != [] {
        FifthFailureBlocks(w, w[|w| - 1]);
        assert (w + [t])[..|w|] == w;
      }
      assert [t][..0] == [];
    }
  }

  lemma StepKeepsIdentity(c: Config, t: Table, e: Timed, identity: Id)
    ensures var row := Lookup(Step(c, t, e, false).0, Identity(identity));
      row == if e.op == Succeeded(identity) then None
             else if e.op == Failed(identity) then Some(Failure(Lookup(t, Identity(identity)), e.now))
             else Lookup(t, Identity(identity))
  {
    hide Attempt, Failure, BlockedFor;
  }

  /** An identity's row is what its failures since its last success make of it. */
  lemma {:induction false} IdentityProjects(c: Config, ops: seq<Timed>, identity: Id)
    ensures Lookup(Run(c, ops, false), Identity(identity)) == Failures(FailuresSince(ops, identity))
  {
    if ops != [] {
      var n := |ops| - 1;
      var times := FailuresSince(ops[..n], identity);
      IdentityProjects(c, ops[..n], identity);
      StepKeepsIdentity(c, Run(c, ops[..n], false), ops[n], identity);
      assert (times + [ops[n].now])[..|times|] == times && times + [] == times;
      hide Step, Failure;
    }
  }

  lemma {:induction false} FailuresAscend(ops: seq<Timed>, identity: Id, now: int)
    requires ClockNeverGoesBack(ops) && forall i :: 0 <= i < |ops| ==> ops[i].now <= now
    ensures Ascending(FailuresSince(ops, identity))
    ensures forall i :: 0 <= i < |FailuresSince(ops, identity)| ==> FailuresSince(ops, identity)[i] <= now
  {
    if ops != [] {
      FailuresAscend(ops[..|ops| - 1], identity, ops[|ops| - 1].now);
    }
  }

  /** How long the identity of the attempt is still blocked when the attempt comes. */
  function IdentityWait(c: Config, ops: seq<Timed>, i: nat, cleanup: bool): int
    requires i < |ops| && ops[i].op.Authorize?
  {
    BlockedFor(Lookup(Run(c, ops[..i], cleanup), Identity(ops[i].op.identity)), ops[i].now)
  }

  predicate BothAdmit(c: Config, ops: seq<Timed>, i: nat, cleanup: bool)
    requires i < |ops| && ops[i].op.Authorize?
  {
    && PolicyAdmits(c, Run(c, ops[..i], cleanup), ops[i], Global)
    && PolicyAdmits(c, Run(c, ops[..i], cleanup), ops[i], Source(ops[i].op.source))
  }

  lemma LimitKeepsIdentity(c: Config, t: Table, k: RateKey, now: int, identity: Id)
    requires !k.Identity?
    ensures Lookup(Limit(c, t, k, now).0, Identity(identity)) == Lookup(t, Identity(identity))
  {
  }

  /**
   In any run, an attempt is authorized if and only if both policies admit it and its identity is not
   blocked; if both admit it, the answer is exactly the identity's remaining block.
   */
  lemma AuthorizedIff(c: Config, ops: seq<Timed>, i: nat, cleanup: bool)
    requires Sane(c) && i < |ops| && ops[i].op.Authorize?
    ensures Answer(c, ops, i, cleanup) == 0 <==> BothAdmit(c, ops, i, cleanup) && IdentityWait(c, ops, i, cleanup) == 0
    ensures BothAdmit(c, ops, i, cleanup) ==> Answer(c, ops, i, cleanup) == IdentityWait(c, ops, i, cleanup)
  {
    var t, e := Run(c, ops[..i], cleanup), ops[i];
    var source := Source(e.op.source);
    var t1 := Limit(c, t, Global, e.now).0;
    LimitRow(c, t, Global, source, e.now);
    LimitRow(c, t, Global, Global, e.now);
    LimitRow(c, t1, source, source, e.now);
    LimitKeepsIdentity(c, t, Global, e.now, e.op.identity);
    LimitKeepsIdentity(c, t1, source, e.now, e.op.identity);
    WaitIsNeverNegative(Lookup(t, Global), c.global, e.now);
    WaitIsNeverNegative(Lookup(t, source), c.source, e.now);
    hide Attempt, Run, Limit, Lookup, CleanedUp;
  }

  lemma SameIdentityWait(c: Config, ops: seq<Timed>, i: nat)
    requires Sane(c) && ClockNeverGoesBack(ops) && i < |ops| && ops[i].op.Authorize?
    ensures IdentityWait(c, ops, i, true) == IdentityWait(c, ops, i, false)
  {
    RunSimulates(c, ops[..i], ops[i].now);
    hide Run;
  }

  /**
   In any run, cleanup included: an identity is blocked exactly from the fifth failure of a window on,
   counted since its last success, and until fifteen minutes after the last one. An attempt meanwhile
   is refused, and told exactly the remaining time if both policies admit it.
   */
  lemma FailuresBlockAttempts(c: Config, ops: seq<Timed>, i: nat)
    requires Sane(c) && ClockNeverGoesBack(ops) && i < |ops| && ops[i].op.Authorize?
    ensures var w, now := WindowOf(FailuresSince(ops[..i], ops[i].op.identity)), ops[i].now;
      var blocked := |w| >= 5 && now < w[|w| - 1] + 15 * MINUTE;
      && (blocked ==> Answer(c, ops, i, true) != 0)
      && (BothAdmit(c, ops, i, true) ==>
            Answer(c, ops, i, true) == if blocked then w[|w| - 1] + 15 * MINUTE - now else 0)
  {
    var identity, now := ops[i].op.identity, ops[i].now;
    var times := FailuresSince(ops[..i], identity);
    IdentityProjects(c, ops[..i], identity);
    FailuresAscend(ops[..i], identity, now);
    OnlyWindowCounts(times);
    if times != [] {
      FifthFailureBlocks(WindowOf(times), now);
    }
    SameIdentityWait(c, ops, i);
    AuthorizedIff(c, ops, i, true);
    hide Run, Answer, BothAdmit, FailuresSince, Failures, Ascending, Lookup, WindowOf;
  }

  /** A success forgets every failure before it. */
  lemma {:induction false} SuccessForgets(ops: seq<Timed>, m: nat, identity: Id)
    requires m < |ops| && ops[m].op == Succeeded(identity)
    requires forall k :: m < k < |ops| ==> ops[k].op != Failed(identity)
    ensures FailuresSince(ops, identity) == []
  {
    var n := |ops| - 1;
    if m < n {
      SuccessForgets(ops[..n], m, identity);
    }
  }

  /** A successful login ends the block: until the next failure the policies alone decide. */
  lemma SuccessEndsBlock(c: Config, ops: seq<Timed>, m: nat, i: nat)
    requires Sane(c) && ClockNeverGoesBack(ops) && m < i < |ops| && ops[i].op.Authorize?
    requires ops[m].op == Succeeded(ops[i].op.identity)
    requires forall k :: m < k < i ==> ops[k].op != Failed(ops[i].op.identity)
    ensures Answer(c, ops, i, true) == 0 <==> BothAdmit(c, ops, i, true)
  {
    SuccessForgets(ops[..i], m, ops[i].op.identity);
    IdentityProjects(c, ops[..i], ops[i].op.identity);
    SameIdentityWait(c, ops, i);
    AuthorizedIff(c, ops, i, true);
    hide Run, Answer, BothAdmit, FailuresSince;
  }

  // ----- Anchored windows -------------------------------------------------

  /** Attempts admitted by a row that starts as `row`. */
  ghost function AdmittedFrom(row: Option<Row>, policy: Policy, times: seq<int>): nat {
    if times == [] then 0
    else
      var n := |times| - 1;
      AdmittedFrom(row, policy, times[..n]) + if Attempt(Attempts(row, policy, times[..n]), policy, times[n]).1 == 0
        then 1 else 0
  }

  /** A window that was just opened by its first attempt admits at most `limit - 1` more before it ends. */
  lemma {:induction false} AnchoredWindowBound(policy: Policy, anchor: int, times: seq<int>)
    requires 1 <= policy.limit && 0 < policy.block && forall i :: 0 <= i < |times| ==> times[i] < anchor + policy.window
    ensures var row := Some(Row(anchor, 1, None, anchor));
      var last := Attempts(row, policy, times);
      && last.Some? && last.value.start == anchor && 1 + AdmittedFrom(row, policy, times) <= last.value.count
      && AdmittedFrom(row, policy, times) <= policy.limit - 1
  {
    if times != [] {
      AnchoredWindowBound(policy, anchor, times[..|times| - 1]);
    }
  }

  // ----- The bound is attained --------------------------------------------

  function Copies(time: int, n: nat): seq<int> {
    seq(n, _ => time)
  }

  /** One attempt opens the window, the rest of the budget is spent at its end, and the next window follows at once. */
  function Burst(policy: Policy): seq<int>
    requires 1 <= policy.limit
  {
    [0] + Copies(policy.window - 1, policy.limit - 1) + Copies(policy.window, policy.limit)
  }

  predicate OpenRow(row: Option<Row>, start: int, count: int) {
    row.Some? && row.value.start == start && row.value.count == count && row.value.blockedUntil.None?
  }

  lemma OpenRowAdmits(row: Option<Row>, policy: Policy, start: int, count: int, now: int)
    requires OpenRow(row, start, count)
    ensures now >= start + policy.window ==>
      OpenRow(Some(Attempt(row, policy, now).0), now, 1) && Attempt(row, policy, now).1 == 0
    ensures now < start + policy.window && count < policy.limit ==>
      OpenRow(Some(Attempt(row, policy, now).0), start, count + 1) && Attempt(row, policy, now).1 == 0
  {
  }

  lemma DropCopy(front: seq<int>, time: int, n: nat)
    requires n > 0
    ensures var times := front + Copies(time, n);
      times[..|times| - 1] == front + Copies(time, n - 1) && times[|times| - 1] == time
  {
  }

  /** One more attempt on an open row, at the end of a sequence. */
  lemma OneMore(policy: Policy, front: seq<int>, time: int, n: nat, start: int, count: int, a: int, b: int)
    requires n > 0 && OpenRow(Attempts(None, policy, front + Copies(time, n - 1)), start, count) && a <= time < b
    requires time >= start + policy.window || count < policy.limit
    ensures OpenRow(Attempts(None, policy, front + Copies(time, n)),
                    if time >= start + policy.window then time else start,
                    if time >= start + policy.window then 1 else count + 1)
    ensures RowAdmitted(policy, front + Copies(time, n), a, b) ==
      RowAdmitted(policy, front + Copies(time, n - 1), a, b) + 1
  {
    hide Attempt;
    DropCopy(front, time, n);
    OpenRowAdmits(Attempts(None, policy, front + Copies(time, n - 1)), policy, start, count, time);
  }

  lemma {:induction false} FirstWindow(policy: Policy, n: nat)
    requires 2 <= policy.window && n <= policy.limit - 1
    ensures OpenRow(Attempts(None, policy, [0] + Copies(policy.window - 1, n)), 0, 1 + n)
    ensures RowAdmitted(policy, [0] + Copies(policy.window - 1, n), 1, policy.window + 1) == n
  {
    if n == 0 {
      assert [0] + Copies(policy.window - 1, 0) == [0] && [0][..0] == [];
    } else {
      FirstWindow(policy, n - 1);
      hide RowAdmitted, OpenRow, Copies, Attempts;
      OneMore(policy, [0], policy.window - 1, n, 0, n, 1, policy.window + 1);
    }
  }

  lemma {:induction false} SecondWindow(policy: Policy, n: nat)
    requires 2 <= policy.window && 1 <= policy.limit && n <= policy.limit
    ensures var times := [0] + Copies(policy.window - 1, policy.limit - 1) + Copies(policy.window, n);
      && OpenRow(Attempts(None, policy, times), if n > 0 then policy.window else 0, if n > 0 then n else policy.limit)
      && RowAdmitted(policy, times, 1, policy.window + 1) == policy.limit - 1 + n
  {
    var first := [0] + Copies(policy.window - 1, policy.limit - 1);
    if n == 0 {
      assert first + Copies(policy.window, 0) == first;
      FirstWindow(policy, policy.limit - 1);
    } else {
      SecondWindow(policy, n - 1);
      hide RowAdmitted, OpenRow, Copies, Attempts;
      var start, count := if n > 1 then policy.window else 0, if n > 1 then n - 1 else policy.limit;
      OneMore(policy, first, policy.window, n, start, count, 1, policy.window + 1);
    }
  }

  /** For every policy there are attempts, in order, of which `2 * limit - 1` are admitted within one window length. */
  lemma RowBoundIsAttained(policy: Policy)
    requires 2 <= policy.window && 1 <= policy.limit
    ensures Ascending(Burst(policy)) && |Burst(policy)| == 2 * policy.limit
    ensures RowAdmitted(policy, Burst(policy), 1, 1 + policy.window) == 2 * policy.limit - 1
  {
    SecondWindow(policy, policy.limit);
  }

  /** Attempts at the given times, each from a source of its own. */
  function Spread(times: seq<int>): seq<Timed> {
    seq(|times|, i requires 0 <= i < |times| => Timed(Authorize(i, 0), times[i]))
  }

  /** Attempts at the given times, all from one source. */
  function OneSource(times: seq<int>): seq<Timed> {
    seq(|times|, i requires 0 <= i < |times| => Timed(Authorize(0, 0), times[i]))
  }

  ghost predicate NoIdentities(t: Table) {
    forall i :: Identity(i) !in t
  }

  /** With a fresh source and no failures, the global policy alone decides. */
  lemma FreshSourceStep(c: Config, t: Table, n: Id, now: int)
    requires Sane(c) && NoIdentities(t) && forall j :: j >= n ==> Source(j) !in t
    ensures var (t', wait) := Step(c, t, Timed(Authorize(n, 0), now), false);
      && (wait == 0 <==> Attempt(Lookup(t, Global), c.global, now).1 == 0)
      && Lookup(t', Global) == Some(Attempt(Lookup(t, Global), c.global, now).0)
      && NoIdentities(t') && forall j :: j >= n + 1 ==> Source(j) !in t'
  {
    WaitIsNeverNegative(Lookup(t, Global), c.global, now);
    assert Identity(0) !in t && Source(n) !in t;
  }

  lemma {:induction false} SpreadIsGlobal(c: Config, times: seq<int>, a: int, b: int)
    requires Sane(c)
    ensures var t := Run(c, Spread(times), false);
      && Lookup(t, Global) == Attempts(None, c.global, times)
      && NoIdentities(t) && (forall j :: j >= |times| ==> Source(j) !in t)
    ensures AdmittedIn(c, Spread(times), Global, a, b, false) == RowAdmitted(c.global, times, a, b)
  {
    if times != [] {
      var n := |times| - 1;
      assert Spread(times)[..n] == Spread(times[..n]);
      SpreadIsGlobal(c, times[..n], a, b);
      FreshSourceStep(c, Run(c, Spread(times[..n]), false), n, times[n]);
      hide Attempt, Step;
    }
  }

  /** The global row has room for another attempt. */
  predicate HasRoom(row: Option<Row>, n: nat) {
    row.Some? ==> row.value.count <= n && row.value.blockedUntil.None?
  }

  /** With room in the global row and no failures, the source policy alone decides. */
  lemma RoomyStep(c: Config, t: Table, n: nat, now: int)
    requires Sane(c) && NoIdentities(t) && HasRoom(Lookup(t, Global), n) && n + 1 <= c.global.limit
    ensures var (t', wait) := Step(c, t, Timed(Authorize(0, 0), now), false);
      && (wait == 0 <==> Attempt(Lookup(t, Source(0)), c.source, now).1 == 0)
      && Lookup(t', Source(0)) == Some(Attempt(Lookup(t, Source(0)), c.source, now).0)
      && NoIdentities(t') && HasRoom(Lookup(t', Global), n + 1)
  {
    WaitIsNeverNegative(Lookup(t, Source(0)), c.source, now);
    assert Identity(0) !in t;
    assert Attempt(Lookup(t, Global), c.global, now).1 == 0;
  }

  lemma {:induction false} OneSourceIsRow(c: Config, times: seq<int>, a: int, b: int)
    requires Sane(c) && |times| <= c.global.limit
    ensures var t := Run(c, OneSource(times), false);
      && Lookup(t, Source(0)) == Attempts(None, c.source, times)
      && NoIdentities(t) && HasRoom(Lookup(t, Global), |times|)
    ensures AdmittedIn(c, OneSource(times), Source(0), a, b, false) == RowAdmitted(c.source, times, a, b)
  {
    if times != [] {
      var n := |times| - 1;
      assert OneSource(times)[..n] == OneSource(times[..n]);
      OneSourceIsRow(c, times[..n], a, b);
      RoomyStep(c, Run(c, OneSource(times[..n]), false), n, times[n]);
      hide Attempt, Step;
    }
  }

  lemma AscendingRuns(times: seq<int>)
    requires Ascending(times)
    ensures ClockNeverGoesBack(Spread(times)) && ClockNeverGoesBack(OneSource(times))
  {
  }

  lemma SpreadAdmits(c: Config, times: seq<int>, a: int, b: int)
    requires Sane(c) && Ascending(times)
    ensures ClockNeverGoesBack(Spread(times))
    ensures AdmittedIn(c, Spread(times), Global, a, b, true) == RowAdmitted(c.global, times, a, b)
  {
    hide *;
    AscendingRuns(times);
    SpreadIsGlobal(c, times, a, b);
    SamePolicyAdmissions(c, Spread(times), Global, a, b);
  }

  lemma OneSourceAdmits(c: Config, times: seq<int>, a: int, b: int)
    requires Sane(c) && Ascending(times) && |times| <= c.global.limit
    ensures ClockNeverGoesBack(OneSource(times))
    ensures AdmittedIn(c, OneSource(times), Source(0), a, b, true) == RowAdmitted(c.source, times, a, b)
  {
    hide *;
    AscendingRuns(times);
    OneSourceIsRow(c, times, a, b);
    SamePolicyAdmissions(c, OneSource(times), Source(0), a, b);
  }

  /** The bound on runs is attained for all attempts together, whatever the configuration. */
  lemma GlobalBoundIsAttained(c: Config)
    requires Sane(c) && 2 <= c.global.window
    ensures ClockNeverGoesBack(Spread(Burst(c.global)))
    ensures AdmittedIn(c, Spread(Burst(c.global)), Global, 1, 1 + c.global.window, true) == 2 * c.global.limit - 1
  {
    assert c.global.limit >= 1;
    hide *;
    RowBoundIsAttained(c.global);
    SpreadAdmits(c, Burst(c.global), 1, 1 + c.global.window);
  }

  /** It is attained by one source whenever the global limit leaves room for the two windows of that source. */
  lemma SourceBoundIsAttained(c: Config)
    requires Sane(c) && 2 <= c.source.window && 2 * c.source.limit <= c.global.limit
    ensures ClockNeverGoesBack(OneSource(Burst(c.source)))
    ensures AdmittedIn(c, OneSource(Burst(c.source)), Source(0), 1, 1 + c.source.window, true) == 2 * c.source.limit - 1
  {
    assert c.source.limit >= 1;
    hide *;
    RowBoundIsAttained(c.source);
    OneSourceAdmits(c, Burst(c.source), 1, 1 + c.source.window);
  }

  /** In numbers: 239 logins a minute overall and 19 from one source, 59 and 9 for the bootstrap form. */
  lemma ConfiguredBoundsAreAttained()
    ensures AdmittedIn(LOGIN, Spread(Burst(LOGIN.global)), Global, 1, 1 + MINUTE, true) == 239
    ensures AdmittedIn(LOGIN, OneSource(Burst(LOGIN.source)), Source(0), 1, 1 + MINUTE, true) == 19
    ensures AdmittedIn(BOOTSTRAP, Spread(Burst(BOOTSTRAP.global)), Global, 1, 1 + MINUTE, true) == 59
    ensures AdmittedIn(BOOTSTRAP, OneSource(Burst(BOOTSTRAP.source)), Source(0), 1, 1 + MINUTE, true) == 9
  {
    hide AdmittedIn, Burst;
    GlobalBoundIsAttained(LOGIN);
    SourceBoundIsAttained(LOGIN);
    GlobalBoundIsAttained(BOOTSTRAP);
    SourceBoundIsAttained(BOOTSTRAP);
  }

  // ----- The limiter as the repository runs it ----------------------------

  class Limiter {
    const c: Config
    var rows: Table

    constructor (c: Config)
      ensures this.c == c && rows == map[]
    {
      this.c := c;
      rows := map[];
    }

    /** Applies one policy to its row. */
    method ApplyAttemptLimit(key: RateKey, now: int) returns (limitedFor: int)
      modifies this
      ensures (rows, limitedFor) == Limit(c, old(rows), key, now)
    {
      var policy := PolicyOf(c, key);
      if key !in rows {
        rows := rows[key := Row(now, 1, None, now)];
        return 0;
      }
      var row := rows[key];
      if row.blockedUntil.Some? && row.blockedUntil.value > now {
        assert rows[key := row] == rows;
        return row.blockedUntil.value - now;
      }
      if now >= row.start + policy.window {
        rows := rows[key := Row(now, 1, None, now)];
        return 0;
      }
      var attempts := row.count + 1;
      if attempts > policy.limit {
        rows := rows[key := Row(row.start, attempts, Some(now + policy.block), now)];
        return policy.block;
      }
      rows := rows[key := Row(row.start, attempts, None, now)];
      return 0;
    }

    /** The policies in turn, then the identity's block, then the tidy-up. */
    method AuthorizePasswordAttempt(source: Id, identity: Id, now: int) returns (retryAfter: int)
      modifies this
      ensures (rows, retryAfter) == Step(c, old(rows), Timed(Authorize(source, identity), now), true)
    {
      var policies := [Global, Source(source)];
      retryAfter := 0;
      var n := 0;
      while n < |policies|
        invariant 0 <= n <= 2
        invariant n >= 1 ==> Limit(c, old(rows), Global, now).1 <= 0
        invariant n == 0 ==> rows == old(rows)
        invariant n == 1 ==> rows == Limit(c, old(rows), Global, now).0
        invariant n == 2 ==> Limit(c, Limit(c, old(rows), Global, now).0, Source(source), now).1 <= 0
        invariant n == 2 ==> rows == Limit(c, Limit(c, old(rows), Global, now).0, Source(source), now).0
      {
        var limitedFor := ApplyAttemptLimit(policies[n], now);
        if limitedFor > 0 {
          return limitedFor;
        }
        n := n + 1;
      }
      var blocked := IdentityBlocked(identity, now);
      if blocked > 0 {
        return blocked;
      }
      ghost var limited := rows;
      rows := map k | k in rows && (k.Global? || !(rows[k].updated < now - DAY)) :: rows[k];
      assert rows == CleanedUp(limited, now);
      retryAfter := 0;
    }

    method IdentityBlocked(identity: Id, now: int) returns (limitedFor: int)
      ensures limitedFor == BlockedFor(Lookup(rows, Identity(identity)), now)
    {
      if Identity(identity) !in rows || rows[Identity(identity)].blockedUntil.None? {
        return 0;
      }
      var until := rows[Identity(identity)].blockedUntil.value;
      return if until > now then until - now else 0;
    }

    method RecordIdentityLoginFailure(identity: Id, now: int)
      modifies this
      ensures rows == Step(c, old(rows), Timed(Failed(identity), now), true).0
    {
      var key := Identity(identity);
      if key !in rows {
        rows := rows[key := Row(now, 1, None, now)];
        return;
      }
      var row := rows[key];
      if now >= row.start + IDENTITY_WINDOW {
        rows := rows[key := Row(now, 1, None, now)];
        return;
      }
      var attempts := row.count + 1;
      var blockedUntil := None;
      if attempts >= IDENTITY_LIMIT {
        blockedUntil := Some(now + IDENTITY_BLOCK);
      }
      rows := rows[key := Row(row.start, attempts, blockedUntil, now)];
    }
  }
}
