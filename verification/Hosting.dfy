/**
 Hosting accounts: package limits, the storage and resource intents derived from them, and
 the reconcile operations that carry snapshots of those intents to the host.

 A snapshot is read in two separate reads and enqueued later, so packages can be reassigned
 in between. `storageAt` and `resourcesAt` remember, for every account and revision, the
 intent that revision stood for; no transaction reads them.
 */
module Hosting {
  import opened Base
  import opened Decimal

  const MINIMUM_UID := 200_000
  const MAXIMUM_UID := 249_999

  /** Canonical identifiers have 36 characters. */
  type AccountId = x: string | |x| == 36 witness "00000000-0000-7000-8000-000000000000"

  datatype Storage = Storage(bytes: Option<nat>, inodes: Option<nat>)
  datatype Resources = Resources(
    cpuQuota: Option<nat>, cpuWeight: Option<nat>, memory: Option<nat>, swap: Option<nat>, processes: Option<nat>)
  datatype Limits = Limits(storage: Storage, resources: Resources)

  datatype Package = Package(revision: nat, limits: Limits)
  datatype AccountStatus = Active | Suspended | Archived
  datatype Account = Account(status: AccountStatus, assignment: Id)
  datatype Assignment = Assignment(account: AccountId, package: Id, revision: nat, limits: Limits, superseded: bool)
  datatype Unix = Unix(uid: int, reconciled: bool)

  datatype IntentStatus = Pending | Applied | Blocked
  datatype Intent<T> = Intent(desired: T, applied: Option<T>, revision: nat, status: IntentStatus)
  type Intents<T> = map<AccountId, Intent<T>>

  /** What is sent to the host; an absent storage limit is sent as zero. */
  datatype Payload = Payload(uid: int, storageRevision: nat, bytes: nat, inodes: nat, resourceRevision: nat,
    resources: Resources)
  datatype Operation = Operation(id: Id, actor: Option<Id>, payload: Payload)

  /** A queueing in progress: the storage row has been read, then the resource row as well. */
  datatype Snapshot =
    | HalfRead(account: AccountId, uid: int, storageRevision: nat, storage: Storage)
    | FullRead(account: AccountId, uid: int, storageRevision: nat, storage: Storage, resourceRevision: nat,
      resources: Resources)

  datatype State = State(
    packages: map<Id, Package>,
    accounts: map<AccountId, Account>,
    assignments: map<Id, Assignment>,
    unix: map<AccountId, Unix>,
    storage: Intents<Storage>,
    resources: Intents<Resources>,
    operations: map<(AccountId, string), Operation>,
    others: map<Id, AccountId>,
    snapshots: map<Id, Snapshot>,
    storageAt: map<(AccountId, nat), Storage>,
    resourcesAt: map<(AccountId, nat), Resources>)

  const EMPTY := State(map[], map[], map[], map[], map[], map[], map[], map[], map[], map[], map[])

  // ----- Intents ----------------------------------------------------------

  function Reassigned<T>(m: Intents<T>, a: AccountId, desired: T): Intents<T> {
    if a in m then m[a := Intent(desired, m[a].applied, m[a].revision + 1, Pending)] else m
  }

  function Confirmed<T>(m: Intents<T>, a: AccountId, revision: nat, known: bool): Intents<T> {
    if a in m && m[a].revision == revision && known
    then m[a := m[a].(applied := Some(m[a].desired), status := Applied)] else m
  }

  function BlockedIntent<T>(m: Intents<T>, a: AccountId, revision: nat, known: bool): Intents<T> {
    if a in m && m[a].revision == revision && known then m[a := m[a].(status := Blocked)] else m
  }

  function Noted<T>(at: map<(AccountId, nat), T>, m: Intents<T>, a: AccountId): map<(AccountId, nat), T> {
    if a in m then at[(a, m[a].revision) := m[a].desired] else at
  }

  // ----- Keys and payloads ------------------------------------------------

  /** The idempotency key of a reconcile operation. */
  function HostKey(a: string, storageRevision: nat, resourceRevision: nat): string {
    "account-host-" + a + "-" + FormatUint(storageRevision) + "-" + FormatUint(resourceRevision)
  }

  function OrZero(limit: Option<nat>): nat {
    if limit.Some? then limit.value else 0
  }

  function PayloadOf(x: Snapshot): Payload
    requires x.FullRead?
  {
    Payload(x.uid, x.storageRevision, OrZero(x.storage.bytes), OrZero(x.storage.inodes), x.resourceRevision,
      x.resources)
  }

  // ----- Transactions -----------------------------------------------------

  /** The number after the largest allocated one, or the first of the range. */
  ghost predicate IsNextUid(unix: map<AccountId, Unix>, uid: int) {
    if unix == map[] then uid == MINIMUM_UID
    else (exists a :: a in unix && unix[a].uid + 1 == uid) && forall a :: a in unix ==> unix[a].uid < uid
  }

  /** An operation of the account, of this kind or any other. */
  predicate KnownOperation(s: State, a: AccountId, operation: Id) {
    || (operation in s.others && s.others[operation] == a)
    || (exists k :: k in s.operations && k.0 == a && s.operations[k].id == operation)
  }

  datatype Step =
    | Publish(package: Id, limits: Limits)
    | CreateAccount(account: AccountId, assignmentId: Id, package: Id, uid: int)
    | AssignPackage(account: AccountId, assignmentId: Id, package: Id)
    | SetStatus(account: AccountId, status: AccountStatus)
    | ReconcileUnix(account: AccountId)
    | ConfirmStorage(account: AccountId, revision: nat, operation: Id)
    | BlockStorage(account: AccountId, revision: nat, operation: Id)
    | ConfirmResources(account: AccountId, revision: nat, operation: Id)
    | BlockResources(account: AccountId, revision: nat, operation: Id)
    | OtherOperation(operation: Id, account: AccountId)
    | ReadStorage(client: Id, account: AccountId)
    | ReadResources(client: Id)
    | Enqueue(client: Id, operation: Id, actor: Option<Id>)

  ghost function Create(s: State, a: AccountId, assignmentId: Id, package: Id, uid: int): State {
    if package !in s.packages || a in s.accounts || assignmentId in s.assignments || a in s.unix || a in s.storage ||
      a in s.resources then s
    else if !IsNextUid(s.unix, uid) || uid > MAXIMUM_UID then s
    else
      var p := s.packages[package];
      s.(accounts := s.accounts[a := Account(Active, assignmentId)],
         assignments := s.assignments[assignmentId := Assignment(a, package, p.revision, p.limits, false)],
         unix := s.unix[a := Unix(uid, false)],
         storage := s.storage[a := Intent(p.limits.storage, None, 1, Pending)],
         resources := s.resources[a := Intent(p.limits.resources, None, 1, Pending)],
         storageAt := s.storageAt[(a, 1) := p.limits.storage],
         resourcesAt := s.resourcesAt[(a, 1) := p.limits.resources])
  }

  /** The account is not archived and its present assignment is to another revision. */
  predicate Eligible(s: State, a: AccountId, assignmentId: Id, package: Id) {
    && a in s.accounts && package in s.packages && s.accounts[a].assignment in s.assignments
    && s.accounts[a].status != Archived && assignmentId !in s.assignments
    && var previous := s.assignments[s.accounts[a].assignment];
      && previous.account == a && !previous.superseded
      && !(previous.package == package && previous.revision == s.packages[package].revision)
  }

  predicate Assignable(s: State, a: AccountId, assignmentId: Id, package: Id) {
    Eligible(s, a, assignmentId, package) && a in s.storage && a in s.resources
  }

  function Moved(s: State, a: AccountId, assignmentId: Id, row: Assignment): State
    requires a in s.accounts && s.accounts[a].assignment in s.assignments
  {
    var current := s.accounts[a].assignment;
    var previous := s.assignments[current];
    s.(assignments := s.assignments[current := previous.(superseded := true)][assignmentId := row],
       accounts := s.accounts[a := s.accounts[a].(assignment := assignmentId)])
  }

  function Revised(s: State, a: AccountId, limits: Limits): State
    requires a in s.storage && a in s.resources
  {
    var storage, resources := Reassigned(s.storage, a, limits.storage), Reassigned(s.resources, a, limits.resources);
    s.(storage := storage, resources := resources,
       storageAt := Noted(s.storageAt, storage, a), resourcesAt := Noted(s.resourcesAt, resources, a))
  }

  function Assign(s: State, a: AccountId, assignmentId: Id, package: Id): State {
    if !Assignable(s, a, assignmentId, package) then s
    else
      var p := s.packages[package];
      Revised(Moved(s, a, assignmentId, Assignment(a, package, p.revision, p.limits, false)), a, p.limits)
  }

  type Operations = map<(AccountId, string), Operation>

  /** Creates the operation unless its key exists; an existing one must equal it, actor included. */
  function EnqueueSnapshot(operations: Operations, x: Snapshot, operation: Id, actor: Option<Id>): Option<Operations>
    requires x.FullRead?
  {
    var k := (x.account, HostKey(x.account, x.storageRevision, x.resourceRevision));
    if k in operations then
      if operations[k].actor == actor && operations[k].payload == PayloadOf(x) then Some(operations) else None
    else Some(operations[k := Operation(operation, actor, PayloadOf(x))])
  }

  function Published(packages: map<Id, Package>, p: Id, limits: Limits): map<Id, Package> {
    packages[p := Package(if p in packages then packages[p].revision + 1 else 1, limits)]
  }

  function WithStatus(accounts: map<AccountId, Account>, a: AccountId, status: AccountStatus): map<AccountId, Account> {
    if a in accounts then accounts[a := accounts[a].(status := status)] else accounts
  }

  function Reconciled(unix: map<AccountId, Unix>, a: AccountId): map<AccountId, Unix> {
    if a in unix then unix[a := unix[a].(reconciled := true)] else unix
  }

  function StorageRead(s: State, client: Id, a: AccountId): map<Id, Snapshot> {
    if a in s.accounts && a in s.unix && a in s.storage
    then s.snapshots[client := HalfRead(a, s.unix[a].uid, s.storage[a].revision, s.storage[a].desired)] else s.snapshots
  }

  function ResourcesRead(s: State, client: Id): map<Id, Snapshot> {
    if client in s.snapshots && s.snapshots[client].HalfRead? && s.snapshots[client].account in s.resources then
      var x := s.snapshots[client];
      s.snapshots[client := FullRead(x.account, x.uid, x.storageRevision, x.storage,
        s.resources[x.account].revision, s.resources[x.account].desired)]
    else s.snapshots
  }

  function Enqueued(s: State, client: Id, operation: Id, actor: Option<Id>): Operations {
    if client in s.snapshots && s.snapshots[client].FullRead? &&
      EnqueueSnapshot(s.operations, s.snapshots[client], operation, actor).Some?
    then EnqueueSnapshot(s.operations, s.snapshots[client], operation, actor).value else s.operations
  }

  ghost function Next(s: State, step: Step): State {
    match step
    case Publish(p, limits) => s.(packages := Published(s.packages, p, limits))
    case CreateAccount(a, assignmentId, package, uid) => Create(s, a, assignmentId, package, uid)
    case AssignPackage(a, assignmentId, package) => Assign(s, a, assignmentId, package)
    case SetStatus(a, status) => s.(accounts := WithStatus(s.accounts, a, status))
    case ReconcileUnix(a) => s.(unix := Reconciled(s.unix, a))
    case ConfirmStorage(a, r, o) => s.(storage := Confirmed(s.storage, a, r, KnownOperation(s, a, o)))
    case BlockStorage(a, r, o) => s.(storage := BlockedIntent(s.storage, a, r, KnownOperation(s, a, o)))
    case ConfirmResources(a, r, o) => s.(resources := Confirmed(s.resources, a, r, KnownOperation(s, a, o)))
    case BlockResources(a, r, o) => s.(resources := BlockedIntent(s.resources, a, r, KnownOperation(s, a, o)))
    case OtherOperation(o, a) => s.(others := if o in s.others then s.others else s.others[o := a])
    case ReadStorage(c, a) => s.(snapshots := StorageRead(s, c, a))
    case ReadResources(c) => s.(snapshots := ResourcesRead(s, c))
    case Enqueue(c, operation, actor) => s.(operations := Enqueued(s, c, operation, actor))
  }

  ghost function Run(steps: seq<Step>): State {
    if steps == [] then EMPTY else Next(Run(steps[..|steps| - 1]), steps[|steps| - 1])
  }

  // ----- What an account is entitled to -----------------------------------

  /** Every account has exactly one assignment that is not superseded: the one it refers to. */
  ghost predicate AssignmentsOk(accounts: map<AccountId, Account>, assignments: map<Id, Assignment>) {
    && (forall a :: a in accounts ==>
          accounts[a].assignment in assignments && assignments[accounts[a].assignment].account == a &&
            !assignments[accounts[a].assignment].superseded)
    && (forall x :: x in assignments && !assignments[x].superseded ==>
          assignments[x].account in accounts && accounts[assignments[x].account].assignment == x)
  }

  /** Both intents ask for the limits of that assignment. */
  ghost predicate DesiredOk(accounts: map<AccountId, Account>, assignments: map<Id, Assignment>,
                            storage: Intents<Storage>, resources: Intents<Resources>) {
    forall a :: a in accounts ==>
      && a in storage && a in resources && accounts[a].assignment in assignments
      && storage[a].desired == assignments[accounts[a].assignment].limits.storage
      && resources[a].desired == assignments[accounts[a].assignment].limits.resources
  }

  ghost predicate AppliedOk<T>(m: Intents<T>) {
    forall a :: a in m && m[a].status == Applied ==> m[a].applied == Some(m[a].desired)
  }

  /** The history knows every present revision and nothing beyond it. */
  ghost predicate HistoryOk<T>(m: Intents<T>, at: map<(AccountId, nat), T>) {
    && (forall a :: a in m ==> (a, m[a].revision) in at && at[(a, m[a].revision)] == m[a].desired)
    && (forall a, r :: (a, r) in at ==> a in m && r <= m[a].revision)
  }

  ghost predicate UidsOk(unix: map<AccountId, Unix>) {
    && (forall a :: a in unix ==> MINIMUM_UID <= unix[a].uid <= MAXIMUM_UID)
    && (forall a, b :: a in unix && b in unix && unix[a].uid == unix[b].uid ==> a == b)
  }

  /** What was read stays true of the revision it was read at. */
  ghost predicate SnapshotOk(s: State, x: Snapshot) {
    && x.account in s.unix && s.unix[x.account].uid == x.uid
    && (x.account, x.storageRevision) in s.storageAt && s.storageAt[(x.account, x.storageRevision)] == x.storage
    && (x.FullRead? ==>
      (x.account, x.resourceRevision) in s.resourcesAt && s.resourcesAt[(x.account, x.resourceRevision)] == x.resources)
  }

  /** The operation under `k` carries the key and the intents of its own revisions. */
  ghost predicate OperationOk(s: State, k: (AccountId, string)) {
    k in s.operations &&
    var p := s.operations[k].payload;
    && k.1 == HostKey(k.0, p.storageRevision, p.resourceRevision)
    && k.0 in s.unix && s.unix[k.0].uid == p.uid
    && (k.0, p.storageRevision) in s.storageAt && (k.0, p.resourceRevision) in s.resourcesAt
    && p.bytes == OrZero(s.storageAt[(k.0, p.storageRevision)].bytes) &&
      p.inodes == OrZero(s.storageAt[(k.0, p.storageRevision)].inodes)
    && p.resources == s.resourcesAt[(k.0, p.resourceRevision)]
  }

  ghost predicate QueueOk(s: State) {
    (forall c :: c in s.snapshots ==> SnapshotOk(s, s.snapshots[c])) &&
      (forall k :: k in s.operations ==> OperationOk(s, k))
  }

  ghost predicate EntitlementOk(s: State) {
    && AssignmentsOk(s.accounts, s.assignments) && DesiredOk(s.accounts, s.assignments, s.storage, s.resources)
    && AppliedOk(s.storage) && AppliedOk(s.resources)
  }

  ghost predicate HistoriesOk(s: State) {
    HistoryOk(s.storage, s.storageAt) && HistoryOk(s.resources, s.resourcesAt)
  }

  // ----- Entitlement ------------------------------------------------------

  lemma ReassignKeeps<T>(m: Intents<T>, at: map<(AccountId, nat), T>, a: AccountId, desired: T)
    requires HistoryOk(m, at) && AppliedOk(m)
    ensures HistoryOk(Reassigned(m, a, desired), Noted(at, Reassigned(m, a, desired), a))
    ensures AppliedOk(Reassigned(m, a, desired))
    ensures forall k :: k in at ==>
      k in Noted(at, Reassigned(m, a, desired), a) && Noted(at, Reassigned(m, a, desired), a)[k] == at[k]
  {
  }

  lemma AssignKeepsAssignments(accounts: map<AccountId, Account>, assignments: map<Id, Assignment>, a: AccountId,
                               x: Id, row: Assignment)
    requires AssignmentsOk(accounts, assignments) && a in accounts && x !in assignments && row.account == a
    requires !row.superseded
    ensures var current := accounts[a].assignment;
      AssignmentsOk(accounts[a := accounts[a].(assignment := x)],
        assignments[current := assignments[current].(superseded := true)][x := row])
  {
  }

  lemma CreateKeepsAssignments(accounts: map<AccountId, Account>, assignments: map<Id, Assignment>, a: AccountId,
                               x: Id, row: Assignment)
    requires AssignmentsOk(accounts, assignments) && a !in accounts && x !in assignments && row.account == a
    requires !row.superseded
    ensures AssignmentsOk(accounts[a := Account(Active, x)], assignments[x := row])
  {
  }

  ghost predicate Core(s: State) {
    EntitlementOk(s) && HistoriesOk(s) && UidsOk(s.unix)
  }

  /** Marking an intent applied or blocked changes neither what is desired nor its revision. */
  lemma SettleKeeps<T>(m: Intents<T>, at: map<(AccountId, nat), T>, a: AccountId, r: nat, known: bool)
    requires HistoryOk(m, at) && AppliedOk(m)
    ensures HistoryOk(Confirmed(m, a, r, known), at) && AppliedOk(Confirmed(m, a, r, known))
    ensures HistoryOk(BlockedIntent(m, a, r, known), at) && AppliedOk(BlockedIntent(m, a, r, known))
    ensures forall b :: b in m ==>
      b in Confirmed(m, a, r, known) && Confirmed(m, a, r, known)[b].desired == m[b].desired
    ensures forall b :: b in m ==>
      b in BlockedIntent(m, a, r, known) && BlockedIntent(m, a, r, known)[b].desired == m[b].desired
  {
  }

  lemma CreateIntent<T>(m: Intents<T>, at: map<(AccountId, nat), T>, a: AccountId, desired: T)
    requires HistoryOk(m, at) && AppliedOk(m) && a !in m
    ensures HistoryOk(m[a := Intent(desired, None, 1, Pending)], at[(a, 1) := desired])
    ensures AppliedOk(m[a := Intent(desired, None, 1, Pending)])
  {
  }

  lemma NextUidKeeps(unix: map<AccountId, Unix>, a: AccountId, uid: int)
    requires UidsOk(unix) && a !in unix && IsNextUid(unix, uid) && uid <= MAXIMUM_UID
    ensures UidsOk(unix[a := Unix(uid, false)])
  {
    if unix != map[] {
      var b :| b in unix && unix[b].uid + 1 == uid;
      assert MINIMUM_UID <= unix[b].uid;
    }
  }

  lemma CreateKeepsCore(s: State, a: AccountId, x: Id, package: Id, uid: int)
    requires Core(s)
    ensures Core(Create(s, a, x, package, uid))
  {
    var s' := Create(s, a, x, package, uid);
    if s' != s {
      var p := s.packages[package];
      CreateKeepsAssignments(s.accounts, s.assignments, a, x, Assignment(a, package, p.revision, p.limits, false));
      CreateIntent(s.storage, s.storageAt, a, p.limits.storage);
      CreateIntent(s.resources, s.resourcesAt, a, p.limits.resources);
      NextUidKeeps(s.unix, a, uid);
      CreateKeepsDesired(s, a, x, package, uid);
      hide AssignmentsOk, AppliedOk, HistoryOk, UidsOk, IsNextUid, DesiredOk;
    }
  }

  lemma CreateKeepsDesired(s: State, a: AccountId, x: Id, package: Id, uid: int)
    requires DesiredOk(s.accounts, s.assignments, s.storage, s.resources)
    ensures var s' := Create(s, a, x, package, uid); DesiredOk(s'.accounts, s'.assignments, s'.storage, s'.resources)
  {
    hide IsNextUid;
  }

  lemma AssignKeepsDesired(s: State, a: AccountId, x: Id, package: Id)
    requires AssignmentsOk(s.accounts, s.assignments) && DesiredOk(s.accounts, s.assignments, s.storage, s.resources)
    ensures var s' := Assign(s, a, x, package); DesiredOk(s'.accounts, s'.assignments, s'.storage, s'.resources)
  {
    hide Noted;
  }

  lemma AssignKeepsCore(s: State, a: AccountId, x: Id, package: Id)
    requires Core(s)
    ensures Core(Assign(s, a, x, package))
  {
    var s' := Assign(s, a, x, package);
    AssignKeepsDesired(s, a, x, package);
    if s' != s {
      var p := s.packages[package];
      AssignKeepsAssignments(s.accounts, s.assignments, a, x, Assignment(a, package, p.revision, p.limits, false));
      ReassignKeeps(s.storage, s.storageAt, a, p.limits.storage);
      ReassignKeeps(s.resources, s.resourcesAt, a, p.limits.resources);
      hide AssignmentsOk, DesiredOk, AppliedOk, HistoryOk, UidsOk, Reassigned, Noted;
    }
  }

  lemma SettledStorageKeepsCore(s: State, s': State)
    requires Core(s) && s' == s.(storage := s'.storage) && HistoryOk(s'.storage, s.storageAt) && AppliedOk(s'.storage)
    requires forall b :: b in s.storage ==> b in s'.storage && s'.storage[b].desired == s.storage[b].desired
    ensures Core(s')
  {
    hide AssignmentsOk, AppliedOk, HistoryOk, UidsOk;
  }

  lemma SettledResourcesKeepCore(s: State, s': State)
    requires Core(s) && s' == s.(resources := s'.resources) && HistoryOk(s'.resources, s.resourcesAt)
    requires AppliedOk(s'.resources)
    requires forall b :: b in s.resources ==> b in s'.resources && s'.resources[b].desired == s.resources[b].desired
    ensures Core(s')
  {
    hide AssignmentsOk, AppliedOk, HistoryOk, UidsOk;
  }

  lemma StatusKeepsCore(s: State, step: Step)
    requires Core(s) && (step.SetStatus? || step.ReconcileUnix?)
    ensures Core(Next(s, step))
  {
    hide AppliedOk, HistoryOk;
  }

  lemma NextKeepsCore(s: State, step: Step)
    requires Core(s)
    ensures Core(Next(s, step))
  {
    hide Core, Create, Assign;
    match step
    case CreateAccount(a, x, package, uid) => CreateKeepsCore(s, a, x, package, uid);
    case AssignPackage(a, x, package) => AssignKeepsCore(s, a, x, package);
    case SetStatus(_, _) => StatusKeepsCore(s, step);
    case ReconcileUnix(_) => StatusKeepsCore(s, step);
    case ConfirmStorage(a, r, o) => SettleStepKeepsCore(s, step);
    case BlockStorage(a, r, o) => SettleStepKeepsCore(s, step);
    case ConfirmResources(a, r, o) => SettleStepKeepsCore(s, step);
    case BlockResources(a, r, o) => SettleStepKeepsCore(s, step);
    case _ =>
      SidewaysKeepsCore(s, step);
  }

  lemma SidewaysKeepsCore(s: State, step: Step)
    requires Core(s)
    requires (step.Publish? || step.OtherOperation? || step.ReadStorage? || step.ReadResources? || step.Enqueue?)
    ensures Core(Next(s, step))
  {
    hide EntitlementOk, HistoriesOk, UidsOk, Published, StorageRead, ResourcesRead, Enqueued;
    var s' := Next(s, step);
    assert s'.accounts == s.accounts && s'.assignments == s.assignments && s'.unix == s.unix && s'.storage == s.storage
      && s'.resources == s.resources && s'.storageAt == s.storageAt && s'.resourcesAt == s.resourcesAt;
    assert EntitlementOk(s') && HistoriesOk(s') by { SameTablesKeepCore(s, s'); }
  }

  lemma SameTablesKeepCore(s: State, s': State)
    requires EntitlementOk(s) && HistoriesOk(s)
    requires s'.accounts == s.accounts && s'.assignments == s.assignments && s'.storage == s.storage
    requires s'.resources == s.resources
    requires s'.storageAt == s.storageAt && s'.resourcesAt == s.resourcesAt
    ensures EntitlementOk(s') && HistoriesOk(s')
  {
    hide AssignmentsOk, DesiredOk, AppliedOk, HistoryOk;
  }

  lemma SettleStepKeepsCore(s: State, step: Step)
    requires Core(s) && (step.ConfirmStorage? || step.BlockStorage? || step.ConfirmResources? || step.BlockResources?)
    ensures Core(Next(s, step))
  {
    var known := KnownOperation(s, step.account, step.operation);
    hide KnownOperation, Confirmed, BlockedIntent, AppliedOk, HistoryOk, DesiredOk, AssignmentsOk, UidsOk;
    if step.ConfirmStorage? || step.BlockStorage? {
      SettleKeeps(s.storage, s.storageAt, step.account, step.revision, known);
      SettledStorageKeepsCore(s, Next(s, step));
    } else {
      SettleKeeps(s.resources, s.resourcesAt, step.account, step.revision, known);
      SettledResourcesKeepCore(s, Next(s, step));
    }
  }

  lemma {:induction false} ReachableCore(steps: seq<Step>)
    ensures Core(Run(steps))
  {
    hide Next;
    if steps != [] {
      hide Core;
      ReachableCore(steps[..|steps| - 1]);
      NextKeepsCore(Run(steps[..|steps| - 1]), steps[|steps| - 1]);
    }
  }

  /** The gate before domain work may be queued. */
  predicate HostReady(s: State, a: AccountId) {
    && a in s.accounts && s.accounts[a].status == Active && a in s.unix && s.unix[a].reconciled
    && a in s.storage && s.storage[a].status == Applied && a in s.resources && s.resources[a].status == Applied
  }

  /**
   In every reachable state a ready account runs with exactly the limits of its one current
   package assignment, however assignments, confirmations and blocks were interleaved.
   */
  lemma ReadyMeansCurrentLimits(steps: seq<Step>, a: AccountId)
    requires HostReady(Run(steps), a)
    ensures var s := Run(steps);
      && s.accounts[a].assignment in s.assignments
      && (forall x :: x in s.assignments && s.assignments[x].account == a && !s.assignments[x].superseded <==>
        x == s.accounts[a].assignment)
      && s.storage[a].applied == Some(s.assignments[s.accounts[a].assignment].limits.storage)
      && s.resources[a].applied == Some(s.assignments[s.accounts[a].assignment].limits.resources)
  {
    ReachableCore(steps);
    hide Run;
  }

  /** Allocated numeric identities are distinct and inside the reserved range. */
  lemma UidsAreDistinct(steps: seq<Step>)
    ensures UidsOk(Run(steps).unix)
  {
    hide Run, UidsOk;
    ReachableCore(steps);
  }

  // ----- The repository's transactions ------------------------------------

  /** Some account holds the largest number. */
  lemma {:induction false} LargestUid(unix: map<AccountId, Unix>, keys: set<AccountId>)
    requires keys != {} && forall a :: a in keys ==> a in unix
    ensures exists a :: a in keys && forall b :: b in keys ==> unix[b].uid <= unix[a].uid
  {
    var x :| x in keys;
    if keys != {x} {
      LargestUid(unix, keys - {x});
      var y :| y in keys - {x} && forall b :: b in keys - {x} ==> unix[b].uid <= unix[y].uid;
      var z := if unix[x].uid <= unix[y].uid then y else x;
      assert z in keys && forall b :: b in keys ==> unix[b].uid <= unix[z].uid;
    }
  }

  class Repository {
    var tables: State

    constructor ()
      ensures tables == EMPTY
    {
      tables := EMPTY;
    }

    /** The number after the largest one in use. */
    method AllocateUid() returns (uid: int)
      ensures IsNextUid(tables.unix, uid)
    {
      if tables.unix == map[] {
        return MINIMUM_UID;
      }
      assert tables.unix.Keys != {};
      LargestUid(tables.unix, tables.unix.Keys);
      var a :| a in tables.unix && forall b :: b in tables.unix ==> tables.unix[b].uid <= tables.unix[a].uid;
      return tables.unix[a].uid + 1;
    }

    /** Account, numeric identity, both intents and the first assignment in one transaction. */
    method CreateHostingAccount(a: AccountId, assignmentId: Id, package: Id) returns (ok: bool)
      modifies this
      ensures exists uid ::
        IsNextUid(old(tables).unix, uid) && tables == Create(old(tables), a, assignmentId, package, uid)
      ensures ok <==> tables != old(tables)
    {
      ok := false;
      var uid := AllocateUid();
      var before := tables;
      if package in tables.packages && uid <= MAXIMUM_UID && a !in tables.accounts &&
        assignmentId !in tables.assignments
         && a !in tables.unix && a !in tables.storage && a !in tables.resources {
        var p := tables.packages[package];
        tables := tables.(accounts := tables.accounts[a := Account(Active, assignmentId)]);
        tables := tables.(unix := tables.unix[a := Unix(uid, false)]);
        tables := tables.(storage := tables.storage[a := Intent(p.limits.storage, None, 1, Pending)],
                          storageAt := tables.storageAt[(a, 1) := p.limits.storage]);
        tables := tables.(resources := tables.resources[a := Intent(p.limits.resources, None, 1, Pending)],
                          resourcesAt := tables.resourcesAt[(a, 1) := p.limits.resources]);
        tables :=
          tables.(assignments :=
          tables.assignments[assignmentId := Assignment(a, package, p.revision, p.limits, false)]);
        ok := true;
      }
      hide IsNextUid;
      assert tables == Create(before, a, assignmentId, package, uid);
    }

    /** The reads and checks that come before any write. */
    method CheckAssignment(a: AccountId, assignmentId: Id, package: Id) returns (ok: bool)
      ensures ok == Eligible(tables, a, assignmentId, package)
    {
      if a !in tables.accounts || tables.accounts[a].status == Archived || package !in tables.packages {
        return false;
      }
      var p, current := tables.packages[package], tables.accounts[a].assignment;
      if current !in tables.assignments {
        return false;
      }
      var previous := tables.assignments[current];
      if previous.package == package && previous.revision == p.revision {
        return false;
      }
      return previous.account == a && !previous.superseded && assignmentId !in tables.assignments;
    }

    /** Supersedes the current assignment and asks both intents for the new limits. */
    method AssignPackageRevision(a: AccountId, assignmentId: Id, package: Id) returns (ok: bool)
      modifies this
      ensures tables == Assign(old(tables), a, assignmentId, package)
      ensures ok == Assignable(old(tables), a, assignmentId, package)
    {
      hide Reassigned, Noted;
      ok := CheckAssignment(a, assignmentId, package);
      if !ok {
        return;
      }
      var before, p := tables, tables.packages[package];
      SupersedeAssignment(a, assignmentId, Assignment(a, package, p.revision, p.limits, false));
      if a !in tables.storage || a !in tables.resources {
        tables := before;
        return false;
      }
      ReviseIntents(a, p.limits);
    }

    /** Closes the current assignment row, inserts the new one and points the account at it. */
    method SupersedeAssignment(a: AccountId, assignmentId: Id, row: Assignment)
      requires a in tables.accounts && tables.accounts[a].assignment in tables.assignments
      modifies this
      ensures tables == Moved(old(tables), a, assignmentId, row)
    {
      var current := tables.accounts[a].assignment;
      var previous := tables.assignments[current];
      tables := tables.(assignments := tables.assignments[current := previous.(superseded := true)]);
      tables := tables.(assignments := tables.assignments[assignmentId := row]);
      tables := tables.(accounts := tables.accounts[a := tables.accounts[a].(assignment := assignmentId)]);
    }

    /** Raises both revisions and makes both intents pending. */
    method ReviseIntents(a: AccountId, limits: Limits)
      requires a in tables.storage && a in tables.resources
      modifies this
      ensures tables == Revised(old(tables), a, limits)
    {
      var storage, resources := tables.storage[a], tables.resources[a];
      tables :=
        tables.(storage := tables.storage[a := Intent(limits.storage, storage.applied, storage.revision + 1, Pending)]);
      tables :=
        tables.(resources :=
        tables.resources[a := Intent(limits.resources, resources.applied, resources.revision + 1, Pending)]);
      tables := tables.(storageAt := tables.storageAt[(a, storage.revision + 1) := limits.storage],
                        resourcesAt := tables.resourcesAt[(a, resources.revision + 1) := limits.resources]);
    }

    /** The guarded update: applied only if the revision is still the one that was sent to the host. */
    method ConfirmFilesystemApplied(a: AccountId, revision: nat, operation: Id) returns (ok: bool)
      modifies this
      ensures tables == Next(old(tables), ConfirmStorage(a, revision, operation))
      ensures ok <==>
        a in old(tables).storage && old(tables).storage[a].revision == revision &&
        KnownOperation(old(tables), a, operation)
    {
      hide KnownOperation, Create, Assign;
      ghost var before := tables.storage;
      ok := a in tables.storage && tables.storage[a].revision == revision && KnownOperation(tables, a, operation);
      if ok {
        var row := tables.storage[a];
        tables := tables.(storage := tables.storage[a := row.(applied := Some(row.desired), status := Applied)]);
      }
      assert tables.storage == Confirmed(before, a, revision, ok);
    }

    method ConfirmResourcesApplied(a: AccountId, revision: nat, operation: Id) returns (ok: bool)
      modifies this
      ensures tables == Next(old(tables), ConfirmResources(a, revision, operation))
      ensures ok <==>
        a in old(tables).resources && old(tables).resources[a].revision == revision &&
        KnownOperation(old(tables), a, operation)
    {
      hide KnownOperation, Create, Assign;
      ghost var before := tables.resources;
      ok := a in tables.resources && tables.resources[a].revision == revision && KnownOperation(tables, a, operation);
      if ok {
        var row := tables.resources[a];
        tables := tables.(resources := tables.resources[a := row.(applied := Some(row.desired), status := Applied)]);
      }
      assert tables.resources == Confirmed(before, a, revision, ok);
    }
  }
}
