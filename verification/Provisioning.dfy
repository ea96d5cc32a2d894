/**
 Queueing host reconciliation: what a queued snapshot means, when its idempotency key
 collides, and how far the repair scan gets.
 */
module Provisioning {
  import opened Base
  import opened Decimal
  import opened Hosting

  // ----- Keys -------------------------------------------------------------

  lemma DigitsHaveNoDash(n: nat)
    ensures '-' !in FormatUint(n)
  {
  }

  /** The key determines the account and both revisions. */
  lemma HostKeyInjective(a: string, m: nat, n: nat, a': string, m': nat, n': nat)
    requires |a| == |a'| && HostKey(a, m, n) == HostKey(a', m', n')
    ensures a == a' && m == m' && n == n'
  {
    var x, y, x', y' := FormatUint(m), FormatUint(n), FormatUint(m'), FormatUint(n');
    var tag := "account-host-";
    assert HostKey(a, m, n) == tag + (a + ("-" + (x + "-" + y)));
    assert HostKey(a', m', n') == tag + (a' + ("-" + (x' + "-" + y')));
    SplitFixed(tag, a + ("-" + (x + "-" + y)), tag, a' + ("-" + (x' + "-" + y')));
    SplitFixed(a, "-" + (x + "-" + y), a', "-" + (x' + "-" + y'));
    SplitFixed("-", x + "-" + y, "-", x' + "-" + y');
    DigitsHaveNoDash(m);
    DigitsHaveNoDash(m');
    SplitAtSeparator(x, y, x', y', '-');
    FormatInjective(m, m');
    FormatInjective(n, n');
  }

  // ----- Snapshots stay true ----------------------------------------------

  /** Numeric identities stay, and revisions keep the intents they stood for. */
  ghost predicate Grows(s: State, s': State) {
    && (forall a :: a in s.unix ==> a in s'.unix && s'.unix[a].uid == s.unix[a].uid)
    && Extends(s.storageAt, s'.storageAt) && Extends(s.resourcesAt, s'.resourcesAt)
  }

  ghost predicate Extends<T(!new)>(at: map<(AccountId, nat), T>, at': map<(AccountId, nat), T>) {
    forall k :: k in at ==> k in at' && at'[k] == at[k]
  }

  lemma CreateGrows(s: State, a: AccountId, x: Id, package: Id, uid: int)
    requires HistoriesOk(s)
    ensures Grows(s, Create(s, a, x, package, uid))
  {
    hide IsNextUid;
    var s' := Create(s, a, x, package, uid);
    if s' != s {
      assert (a, 1) !in s.storageAt && (a, 1) !in s.resourcesAt;
      assert s'.storageAt == s.storageAt[(a, 1) := s.packages[package].limits.storage];
      assert s'.resourcesAt == s.resourcesAt[(a, 1) := s.packages[package].limits.resources];
    }
  }

  lemma AssignGrows(s: State, a: AccountId, x: Id, package: Id)
    requires Core(s)
    ensures Grows(s, Assign(s, a, x, package))
  {
    var s' := Assign(s, a, x, package);
    if s' != s {
      var p := s.packages[package];
      assert Extends(s.storageAt, s'.storageAt) by { ReassignKeeps(s.storage, s.storageAt, a, p.limits.storage); }
      assert Extends(s.resourcesAt, s'.resourcesAt) by {
        ReassignKeeps(s.resources, s.resourcesAt, a, p.limits.resources);
      }
      hide Extends;
    }
  }

  lemma NextGrows(s: State, step: Step)
    requires Core(s)
    ensures Grows(s, Next(s, step))
  {
    hide Create, Assign, Extends, HistoryOk, AppliedOk, Published, WithStatus, Reconciled, Confirmed, BlockedIntent,
      StorageRead, ResourcesRead, Enqueued, KnownOperation;
    match step
    case CreateAccount(a, x, package, uid) => CreateGrows(s, a, x, package, uid);
    case AssignPackage(a, x, package) => AssignGrows(s, a, x, package);
    case _ =>
      SidewaysSameHistory(s, step);
      SelfExtends(s);
      hide Next;
  }

  lemma SelfExtends(s: State)
    ensures Extends(s.storageAt, s.storageAt) && Extends(s.resourcesAt, s.resourcesAt)
  {
  }

  lemma SidewaysSameHistory(s: State, step: Step)
    requires !step.CreateAccount? && !step.AssignPackage?
    ensures Next(s, step).storageAt == s.storageAt && Next(s, step).resourcesAt == s.resourcesAt
    ensures forall a :: a in s.unix ==> a in Next(s, step).unix && Next(s, step).unix[a].uid == s.unix[a].uid
  {
    hide KnownOperation, Confirmed, BlockedIntent, Create, Assign, Published, WithStatus, StorageRead, ResourcesRead,
      Enqueued;
  }

  lemma GrowsKeepsSnapshot(s: State, s': State, x: Snapshot)
    requires Grows(s, s') && SnapshotOk(s, x)
    ensures SnapshotOk(s', x)
  {
  }

  lemma GrowsKeepsOperation(s: State, s': State, k: (AccountId, string))
    requires Grows(s, s') && OperationOk(s, k) && k in s'.operations && s'.operations[k] == s.operations[k]
    ensures OperationOk(s', k)
  {
    hide HostKey, OrZero;
  }

  lemma StorageReadIsTrue(s: State, client: Id, a: AccountId)
    requires HistoriesOk(s) && forall c :: c in s.snapshots ==> SnapshotOk(s, s.snapshots[c])
    ensures forall c :: c in StorageRead(s, client, a) ==> SnapshotOk(s, StorageRead(s, client, a)[c])
  {
  }

  lemma ResourcesReadIsTrue(s: State, client: Id)
    requires HistoriesOk(s) && forall c :: c in s.snapshots ==> SnapshotOk(s, s.snapshots[c])
    ensures forall c :: c in ResourcesRead(s, client) ==> SnapshotOk(s, ResourcesRead(s, client)[c])
  {
  }

  lemma EnqueuedIsOk(s: State, x: Snapshot, operation: Id, actor: Option<Id>, k: (AccountId, string))
    requires QueueOk(s) && x.FullRead? && SnapshotOk(s, x) && EnqueueSnapshot(s.operations, x, operation, actor).Some?
    requires k in EnqueueSnapshot(s.operations, x, operation, actor).value
    ensures OperationOk(s.(operations := EnqueueSnapshot(s.operations, x, operation, actor).value), k)
  {
    assert k in s.operations ==> OperationOk(s, k);
  }

  /** Snapshots of the next state were true before the step. */
  lemma SnapshotsWereTrue(s: State, step: Step, c: Id)
    requires HistoriesOk(s) && QueueOk(s) && c in Next(s, step).snapshots
    ensures SnapshotOk(s, Next(s, step).snapshots[c])
  {
    hide SnapshotOk, OperationOk, HistoriesOk, StorageRead, ResourcesRead;
    match step
    case ReadStorage(client, a) => StorageReadIsTrue(s, client, a);
    case ReadResources(client) => ResourcesReadIsTrue(s, client);
    case _ => OnlyReadsRead(s, step);
  }

  lemma OperationsAreOk(s: State, step: Step, k: (AccountId, string))
    requires QueueOk(s) && Grows(s, Next(s, step)) && k in Next(s, step).operations
    ensures OperationOk(Next(s, step), k)
  {
    hide OperationOk, SnapshotOk, EnqueueSnapshot;
    if step.Enqueue? && Next(s, step).operations != s.operations {
      EnqueuedIsOk(s, s.snapshots[step.client], step.operation, step.actor, k);
    } else {
      assert Next(s, step).operations == s.operations by { if !step.Enqueue? { OnlyEnqueueQueues(s, step); } }
      hide Next, Grows;
      GrowsKeepsOperation(s, Next(s, step), k);
    }
  }

  lemma NextKeepsQueue(s: State, step: Step)
    requires Core(s) && QueueOk(s)
    ensures QueueOk(Next(s, step))
  {
    hide Next, Grows, SnapshotOk, OperationOk, EntitlementOk, HistoriesOk;
    var s' := Next(s, step);
    NextGrows(s, step);
    forall c | c in s'.snapshots ensures SnapshotOk(s', s'.snapshots[c]) {
      SnapshotsWereTrue(s, step, c);
      GrowsKeepsSnapshot(s, s', s'.snapshots[c]);
    }
    forall k | k in s'.operations ensures OperationOk(s', k) {
      OperationsAreOk(s, step, k);
    }
  }

  lemma OnlyReadsRead(s: State, step: Step)
    requires !step.ReadStorage? && !step.ReadResources?
    ensures Next(s, step).snapshots == s.snapshots
  {
    hide KnownOperation, Confirmed, BlockedIntent, Published, WithStatus, Reconciled, Enqueued, IsNextUid, Reassigned,
      Noted;
  }

  lemma OnlyEnqueueQueues(s: State, step: Step)
    requires !step.Enqueue?
    ensures Next(s, step).operations == s.operations
  {
    hide KnownOperation, Confirmed, BlockedIntent, Published, WithStatus, Reconciled, StorageRead, ResourcesRead,
      IsNextUid, Reassigned, Noted;
  }

  /** Every snapshot and queued operation of a reachable state tells the truth about its own revisions. */
  lemma {:induction false} ReachableQueue(steps: seq<Step>)
    ensures QueueOk(Run(steps))
  {
    hide Next, Core;
    if steps != [] {
      hide QueueOk;
      ReachableQueue(steps[..|steps| - 1]);
      ReachableCore(steps[..|steps| - 1]);
      NextKeepsQueue(Run(steps[..|steps| - 1]), steps[|steps| - 1]);
    }
  }

  lemma {:induction false} RunGrows(steps: seq<Step>, n: nat)
    requires n <= |steps|
    ensures Grows(Run(steps[..n]), Run(steps))
    decreases |steps|
  {
    hide Next, Core;
    if n == |steps| {
      assert steps[..n] == steps;
    } else {
      var front := steps[..|steps| - 1];
      assert front[..n] == steps[..n];
      RunGrows(front, n);
      ReachableCore(front);
      NextGrows(Run(front), steps[|steps| - 1]);
    }
  }

  // ----- Collisions -------------------------------------------------------

  /** The key under which a complete snapshot is queued. */
  function KeyOf(x: Snapshot): (AccountId, string)
    requires x.FullRead?
  {
    (x.account, HostKey(x.account, x.storageRevision, x.resourceRevision))
  }

  /** Equal keys mean equal payloads, even for snapshots whose two halves were read at different times. */
  lemma KeyDeterminesPayload(s: State, x: Snapshot)
    requires QueueOk(s) && x.FullRead? && SnapshotOk(s, x) && KeyOf(x) in s.operations
    ensures s.operations[KeyOf(x)].payload == PayloadOf(x)
  {
    var k := KeyOf(x);
    var p := s.operations[k].payload;
    assert OperationOk(s, k);
    HostKeyInjective(k.0, p.storageRevision, p.resourceRevision, x.account, x.storageRevision, x.resourceRevision);
  }

  /** The client's snapshot is complete after the first `n` steps. */
  ghost predicate FullAt(steps: seq<Step>, n: nat, client: Id, x: Snapshot) {
    n <= |steps| && client in Run(steps[..n]).snapshots && Run(steps[..n]).snapshots[client] == x && x.FullRead?
  }

  /**
   Two snapshots with equal keys are equal, in all intents and not just in what is sent: whichever
   clients hold them, at whatever points of a run, and whenever their halves were read.
   */
  lemma EqualKeysEqualSnapshots(steps: seq<Step>, m: nat, n: nat, c: Id, d: Id, x: Snapshot, y: Snapshot)
    requires FullAt(steps, m, c, x) && FullAt(steps, n, d, y) && KeyOf(x) == KeyOf(y)
    ensures x == y
  {
    HostKeyInjective(x.account, x.storageRevision, x.resourceRevision, y.account, y.storageRevision,
      y.resourceRevision);
    ReachableQueue(steps[..m]);
    ReachableQueue(steps[..n]);
    RunGrows(steps, m);
    RunGrows(steps, n);
    hide Run, Grows, HostKey, OperationOk;
    GrowsKeepsSnapshot(Run(steps[..m]), Run(steps), x);
    GrowsKeepsSnapshot(Run(steps[..n]), Run(steps), y);
  }

  /** Queueing is refused if and only if the key is taken by an operation of another actor. */
  lemma RefusedIffOtherActor(s: State, x: Snapshot, operation: Id, actor: Option<Id>)
    requires QueueOk(s) && x.FullRead? && SnapshotOk(s, x)
    ensures EnqueueSnapshot(s.operations, x, operation, actor).None? <==>
      KeyOf(x) in s.operations && s.operations[KeyOf(x)].actor != actor
  {
    hide QueueOk, SnapshotOk, HostKey;
    if KeyOf(x) in s.operations {
      KeyDeterminesPayload(s, x);
    }
  }

  /** The same for every client of every run, whatever happened between its two reads and its insert. */
  lemma EnqueueRefusedIffOtherActor(steps: seq<Step>, client: Id, operation: Id, actor: Option<Id>)
    requires client in Run(steps).snapshots && Run(steps).snapshots[client].FullRead?
    ensures var s := Run(steps);
      var x := s.snapshots[client];
      EnqueueSnapshot(s.operations, x, operation, actor).None? <==>
        KeyOf(x) in s.operations && s.operations[KeyOf(x)].actor != actor
  {
    ReachableQueue(steps);
    hide Run, SnapshotOk, OperationOk, EnqueueSnapshot;
    RefusedIffOtherActor(Run(steps), Run(steps).snapshots[client], operation, actor);
  }

  predicate Sends(p: Payload, storage: Option<Storage>) {
    storage.Some? && OrZero(storage.value.bytes) == p.bytes && OrZero(storage.value.inodes) == p.inodes
  }

  lemma ConfirmedWasSent(s: State, k: (AccountId, string), known: bool)
    requires HistoriesOk(s) && OperationOk(s, k)
    ensures var p := s.operations[k].payload;
      && (known && k.0 in s.storage && s.storage[k.0].revision == p.storageRevision ==>
            Sends(p, Confirmed(s.storage, k.0, p.storageRevision, known)[k.0].applied))
      && (known && k.0 in s.resources && s.resources[k.0].revision == p.resourceRevision ==>
            Confirmed(s.resources, k.0, p.resourceRevision, known)[k.0].applied == Some(p.resources))
  {
    hide HostKey;
  }

  /**
   A confirmation for the revisions of a queued operation records as applied exactly what that
   operation sent to the host; for any other revision it changes nothing.
   */
  lemma AppliedIsWhatWasSent(steps: seq<Step>, k: (AccountId, string), known: bool)
    requires k in Run(steps).operations
    ensures var s, p := Run(steps), Run(steps).operations[k].payload;
      && (if known && k.0 in s.storage && s.storage[k.0].revision == p.storageRevision
          then Sends(p, Confirmed(s.storage, k.0, p.storageRevision, known)[k.0].applied)
          else Confirmed(s.storage, k.0, p.storageRevision, known) == s.storage)
      && (if known && k.0 in s.resources && s.resources[k.0].revision == p.resourceRevision
          then Confirmed(s.resources, k.0, p.resourceRevision, known)[k.0].applied == Some(p.resources)
          else Confirmed(s.resources, k.0, p.resourceRevision, known) == s.resources)
  {
    ReachableQueue(steps);
    ReachableCore(steps);
    var s := Run(steps);
    assert OperationOk(s, k);
    hide Run, QueueOk, OperationOk, HistoriesOk, Sends;
    ConfirmedWasSent(s, k, known);
  }

  // ----- The repair scan --------------------------------------------------

  type FullSnapshot = x: Snapshot | x.FullRead?
    witness FullRead("00000000-0000-7000-8000-000000000000", MINIMUM_UID, 1, Storage(None, None), 1,
      Resources(None, None, None, None, None))

  /** Queues snapshots in order under the system's name and stops at the first refusal. */
  function Scan(operations: Operations, xs: seq<FullSnapshot>, id: Id): (Operations, nat)
    decreases |xs|
  {
    if xs == [] then (operations, 0)
    else match EnqueueSnapshot(operations, xs[0], id, None)
      case None => (operations, 0)
      case Some(more) => (Scan(more, xs[1..], id + 1).0, Scan(more, xs[1..], id + 1).1 + 1)
  }

  /** The snapshot's key belongs to an operation that somebody asked for. */
  predicate Claimed(operations: Operations, x: FullSnapshot) {
    KeyOf(x) in operations && operations[KeyOf(x)].actor.Some?
  }

  predicate Queued(operations: Operations, x: FullSnapshot) {
    KeyOf(x) in operations && operations[KeyOf(x)].actor.None?
  }

  /** Equal keys carry equal payloads, among the snapshots and in the table. */
  ghost predicate Coherent(operations: Operations, xs: seq<FullSnapshot>) {
    && (forall x :: x in xs && KeyOf(x) in operations ==> operations[KeyOf(x)].payload == PayloadOf(x))
    && (forall x, y :: x in xs && y in xs && KeyOf(x) == KeyOf(y) ==> PayloadOf(x) == PayloadOf(y))
  }

  /** Queueing one snapshot claims no other and keeps what is queued. */
  lemma OneQueued(operations: Operations, xs: seq<FullSnapshot>, x: FullSnapshot, id: Id)
    requires Coherent(operations, xs) && x in xs && !Claimed(operations, x)
    ensures EnqueueSnapshot(operations, x, id, None).Some?
    ensures var more := EnqueueSnapshot(operations, x, id, None).value;
      && Coherent(more, xs) && Queued(more, x) && (Queued(operations, x) ==> more == operations)
      && (forall y: FullSnapshot ::
        (Claimed(more, y) <==> Claimed(operations, y)) && (Queued(operations, y) ==> Queued(more, y)))
  {
    hide HostKey;
  }

  lemma CoherentTail(operations: Operations, xs: seq<FullSnapshot>)
    requires Coherent(operations, xs) && xs != []
    ensures Coherent(operations, xs[1..])
  {
    hide KeyOf, PayloadOf;
  }

  /** The scan gets exactly as far as the first snapshot whose key is claimed. */
  lemma {:induction false} ScanStopsAtFirstClaimed(operations: Operations, xs: seq<FullSnapshot>, id: Id)
    requires Coherent(operations, xs)
    ensures var n := Scan(operations, xs, id).1;
      && n <= |xs| && (forall i :: 0 <= i < n ==> !Claimed(operations, xs[i]))
      && (n < |xs| ==> Claimed(operations, xs[n]))
    decreases |xs|
  {
    if xs != [] {
      if !Claimed(operations, xs[0]) {
        OneQueued(operations, xs, xs[0], id);
        var more := EnqueueSnapshot(operations, xs[0], id, None).value;
        CoherentTail(more, xs);
        hide Coherent, Claimed, EnqueueSnapshot;
        ScanStopsAtFirstClaimed(more, xs[1..], id + 1);
      }
    }
  }

  lemma {:induction false} ScanQueuesAll(operations: Operations, xs: seq<FullSnapshot>, id: Id)
    requires Coherent(operations, xs) && forall x :: x in xs ==> !Claimed(operations, x)
    ensures var all := Scan(operations, xs, id).0;
      && (forall x :: x in xs ==> Queued(all, x))
      && (forall y: FullSnapshot :: Queued(operations, y) ==> Queued(all, y))
    decreases |xs|
  {
    if xs != [] {
      hide Coherent, Claimed, Queued, KeyOf, EnqueueSnapshot;
      assert forall x :: x in xs ==> x == xs[0] || x in xs[1..];
      OneQueued(operations, xs, xs[0], id);
      var more := EnqueueSnapshot(operations, xs[0], id, None).value;
      CoherentTail(more, xs);
      ScanQueuesAll(more, xs[1..], id + 1);
    }
  }

  lemma {:induction false} ScanOfQueuedIsIdle(operations: Operations, xs: seq<FullSnapshot>, id: Id)
    requires Coherent(operations, xs) && forall x :: x in xs ==> Queued(operations, x)
    ensures Scan(operations, xs, id) == (operations, |xs|)
    decreases |xs|
  {
    if xs != [] {
      OneQueued(operations, xs, xs[0], id);
      CoherentTail(operations, xs);
      hide Coherent, Queued, EnqueueSnapshot;
      ScanOfQueuedIsIdle(operations, xs[1..], id + 1);
    }
  }

  lemma {:induction false} ScanKeepsCoherent(operations: Operations, xs: seq<FullSnapshot>, ys: seq<FullSnapshot>,
      id: Id)
    requires Coherent(operations, ys) && forall x :: x in xs ==> x in ys
    ensures Coherent(Scan(operations, xs, id).0, ys)
    decreases |xs|
  {
    if xs != [] && EnqueueSnapshot(operations, xs[0], id, None).Some? {
      if !Claimed(operations, xs[0]) {
        OneQueued(operations, ys, xs[0], id);
      }
      var more := EnqueueSnapshot(operations, xs[0], id, None).value;
      assert Coherent(more, ys);
      hide Coherent, EnqueueSnapshot;
      ScanKeepsCoherent(more, xs[1..], ys, id + 1);
    }
  }

  // ----- Scans of reachable states ----------------------------------------

  /** The rows a snapshot is read from. */
  datatype Rows = Rows(unix: map<AccountId, Unix>, storage: Intents<Storage>, resources: Intents<Resources>)

  function RowsOf(s: State): Rows {
    Rows(s.unix, s.storage, s.resources)
  }

  predicate HasRows(r: Rows, a: AccountId) {
    a in r.unix && a in r.storage && a in r.resources
  }

  function ReadRows(r: Rows, a: AccountId): FullSnapshot
    requires HasRows(r, a)
  {
    FullRead(a, r.unix[a].uid, r.storage[a].revision, r.storage[a].desired, r.resources[a].revision,
      r.resources[a].desired)
  }

  predicate Complete(s: State, a: AccountId) {
    HasRows(RowsOf(s), a)
  }

  function CurrentSnapshot(s: State, a: AccountId): FullSnapshot
    requires Complete(s, a)
  {
    ReadRows(RowsOf(s), a)
  }

  /** The present snapshots of the listed accounts. */
  ghost predicate ReadFrom(s: State, xs: seq<FullSnapshot>) {
    forall x :: x in xs ==> Complete(s, x.account) && x == CurrentSnapshot(s, x.account)
  }

  lemma PresentIsCoherent(s: State, xs: seq<FullSnapshot>)
    requires HistoriesOk(s) && QueueOk(s) && ReadFrom(s, xs)
    ensures Coherent(s.operations, xs)
  {
    forall x | x in xs && KeyOf(x) in s.operations ensures s.operations[KeyOf(x)].payload == PayloadOf(x) {
      assert SnapshotOk(s, x);
      KeyDeterminesPayload(s, x);
    }
  }

  /**
   Repeated scans are safe exactly when no listed account is claimed: then the first scan
   queues every account and a second one adds nothing; otherwise the scan ends at the first
   claimed account and nothing behind it is queued.
   */
  lemma RepeatedScan(steps: seq<Step>, accounts: seq<AccountId>, id: Id, id': Id)
    requires AllHaveRows(RowsOf(Run(steps)), accounts)
    ensures var operations, xs := Run(steps).operations, SnapshotsOf(RowsOf(Run(steps)), accounts);
      var (all, n) := Scan(operations, xs, id);
      && n <= |xs| && (forall i :: 0 <= i < n ==> !Claimed(operations, xs[i])) &&
        (n < |xs| ==> Claimed(operations, xs[n]))
      && (n == |xs| <==> forall x :: x in xs ==> !Claimed(operations, x))
      && (n == |xs| ==> (forall x :: x in xs ==> Queued(all, x)) && Scan(all, xs, id') == (all, |xs|))
  {
    ReachableQueue(steps);
    ReachableCore(steps);
    SnapshotsAreReadFrom(Run(steps), accounts);
    var operations, xs := Run(steps).operations, SnapshotsOf(RowsOf(Run(steps)), accounts);
    PresentIsCoherent(Run(steps), xs);
    hide Run, QueueOk, ReadFrom, Core, Coherent, Claimed, Queued, SnapshotsOf, AllHaveRows;
    ScanStopsAtFirstClaimed(operations, xs, id);
    var (all, n) := Scan(operations, xs, id);
    if n == |xs| {
      ScanQueuesAll(operations, xs, id);
      ScanKeepsCoherent(operations, xs, xs, id);
      ScanOfQueuedIsIdle(all, xs, id');
    }
  }

  /** Queued operations are never altered. */
  lemma NextKeepsOperations(s: State, step: Step, k: (AccountId, string))
    requires k in s.operations
    ensures k in Next(s, step).operations && Next(s, step).operations[k] == s.operations[k]
  {
    if !step.Enqueue? {
      OnlyEnqueueQueues(s, step);
      hide Next;
    } else {
      hide HostKey;
    }
  }

  lemma {:induction false} RunKeepsOperations(steps: seq<Step>, n: nat, k: (AccountId, string))
    requires n <= |steps| && k in Run(steps[..n]).operations
    ensures k in Run(steps).operations && Run(steps).operations[k] == Run(steps[..n]).operations[k]
    decreases |steps|
  {
    hide Next;
    if n == |steps| {
      assert steps[..n] == steps;
    } else {
      var front := steps[..|steps| - 1];
      assert front[..n] == steps[..n];
      RunKeepsOperations(front, n, k);
      NextKeepsOperations(Run(front), steps[|steps| - 1], k);
    }
  }

  /**
   The same for scans that interleave with anything: once a key was queued by the system, every
   later attempt of the system to queue it, by whatever client, succeeds and adds nothing.
   */
  lemma SystemRequeueIsIdle(steps: seq<Step>, n: nat, client: Id, id: Id)
    requires n <= |steps| && client in Run(steps).snapshots && Run(steps).snapshots[client].FullRead?
    requires Queued(Run(steps[..n]).operations, Run(steps).snapshots[client])
    ensures var s := Run(steps);
      EnqueueSnapshot(s.operations, s.snapshots[client], id, None) == Some(s.operations)
  {
    var x := Run(steps).snapshots[client];
    RunKeepsOperations(steps, n, KeyOf(x));
    ReachableQueue(steps);
    hide Run, SnapshotOk, OperationOk, HostKey;
    KeyDeterminesPayload(Run(steps), x);
  }

  /**
   The failing family: once an account's snapshot was queued on behalf of an actor, a scan that
   finds the account still pending is refused there and queues nothing from there on.
   */
  lemma RequestedAccountStopsScan(operations: Operations, x: FullSnapshot, o: Id, actor: Id, rest: seq<FullSnapshot>,
                                  id: Id)
    requires KeyOf(x) !in operations
    ensures var queued := EnqueueSnapshot(operations, x, o, Some(actor));
      queued.Some? && Scan(queued.value, [x] + rest, id) == (queued.value, 0)
  {
    hide HostKey;
    assert ([x] + rest)[0] == x;
  }

  // ----- A run that ends in such a state ----------------------------------

  /** A package, an account, its snapshot, and the operation queued on behalf of the actor who asked for it. */
  function Request(a: AccountId, limits: Limits, actor: Id): seq<Step> {
    [Publish(0, limits), CreateAccount(a, 0, 0, MINIMUM_UID), ReadStorage(0, a), ReadResources(0),
      Enqueue(0, 1, Some(actor))]
  }

  lemma RunFive(a: Step, b: Step, c: Step, d: Step, e: Step)
    ensures Run([a, b, c, d, e]) == Next(Next(Next(Next(Next(EMPTY, a), b), c), d), e)
  {
    hide Next;
    assert [a][..0] == [] && [a, b][..1] == [a] && [a, b, c][..2] == [a, b];
    assert [a, b, c, d][..3] == [a, b, c] && [a, b, c, d, e][..4] == [a, b, c, d];
    assert Run([a]) == Next(EMPTY, a);
    assert Run([a, b]) == Next(Run([a]), b);
    assert Run([a, b, c]) == Next(Run([a, b]), c);
    assert Run([a, b, c, d]) == Next(Run([a, b, c]), d);
  }

  lemma CreatedFirst(a: AccountId, limits: Limits)
    ensures var s := Next(Next(EMPTY, Publish(0, limits)), CreateAccount(a, 0, 0, MINIMUM_UID));
      && s.accounts == map[a := Account(Active, 0)] && s.unix == map[a := Unix(MINIMUM_UID, false)]
      && s.storage == map[a := Intent(limits.storage, None, 1, Pending)]
      && s.resources == map[a := Intent(limits.resources, None, 1, Pending)]
      && s.operations == map[] && s.snapshots == map[]
  {
    var s1 := Next(EMPTY, Publish(0, limits));
    assert 0 in s1.packages && s1.packages[0].limits == limits;
    assert IsNextUid(s1.unix, MINIMUM_UID);
  }

  /** The two reads of one client, with nothing in between. */
  lemma ReadsBoth(s: State, a: AccountId)
    requires a in s.accounts && Complete(s, a)
    ensures Next(Next(s, ReadStorage(0, a)), ReadResources(0)) ==
      s.(snapshots := s.snapshots[0 := CurrentSnapshot(s, a)])
  {
    var s1 := Next(s, ReadStorage(0, a));
    assert s1 == s.(snapshots :=
      s.snapshots[0 := HalfRead(a, s.unix[a].uid, s.storage[a].revision, s.storage[a].desired)]);
    var s2 := Next(s1, ReadResources(0));
    assert s2.snapshots == s1.snapshots[0 := CurrentSnapshot(s, a)];
    assert s2.snapshots == s.snapshots[0 := CurrentSnapshot(s, a)];
  }

  lemma EnqueuesFirst(s: State, x: FullSnapshot, actor: Id)
    requires s.operations == map[] && 0 in s.snapshots && s.snapshots[0] == x
    ensures Next(s, Enqueue(0, 1, Some(actor))) == s.(operations := EnqueueSnapshot(map[], x, 1, Some(actor)).value)
  {
    hide HostKey;
  }

  /**
   After this run the account still needs its host reconciled, and every scan that starts with it is
   refused there.
   */
  lemma RequestedAccountIsReachable(a: AccountId, limits: Limits, actor: Id, rest: seq<FullSnapshot>, id: Id)
    ensures var s := Run(Request(a, limits, actor));
      && NeedsReconcile(s, a) && Scan(s.operations, [CurrentSnapshot(s, a)] + rest, id) == (s.operations, 0)
  {
    var steps := Request(a, limits, actor);
    RunFive(steps[0], steps[1], steps[2], steps[3], steps[4]);
    hide Run, Next, EnqueueSnapshot, Scan;
    CreatedFirst(a, limits);
    var s2 := Next(Next(EMPTY, steps[0]), steps[1]);
    var x := CurrentSnapshot(s2, a);
    ReadsBoth(s2, a);
    EnqueuesFirst(s2.(snapshots := s2.snapshots[0 := x]), x, actor);
    RequestedAccountStopsScan(map[], x, 1, actor, rest, id);
  }

  // ----- The service ------------------------------------------------------

  /** What the list of pending accounts selects. */
  predicate NeedsReconcile(s: State, a: AccountId) {
    && a in s.accounts && s.accounts[a].status == Active && Complete(s, a)
    && (!s.unix[a].reconciled || s.storage[a].status == Pending || s.resources[a].status == Pending)
  }

  /** Something about the account cannot be applied on this host. */
  predicate IsBlocked(s: State, a: AccountId) {
    (a in s.storage && s.storage[a].status == Blocked) || (a in s.resources && s.resources[a].status == Blocked)
  }

  /** In any state the gate is open exactly for active accounts with all rows, nothing blocked and nothing to do. */
  lemma ReadyIffNothingToDo(s: State, a: AccountId)
    ensures HostReady(s, a) <==>
      && a in s.accounts && s.accounts[a].status == Active && Complete(s, a)
      && !IsBlocked(s, a) && !NeedsReconcile(s, a)
  {
  }

  /** Doing what there is to do opens it: both confirmations of the present revisions and the host identity. */
  lemma ReconcilingMakesReady(s: State, a: AccountId, o: Id)
    requires a in s.accounts && s.accounts[a].status == Active && Complete(s, a) && KnownOperation(s, a, o)
    ensures var s1 := Next(s, ReconcileUnix(a));
      var s2 := Next(s1, ConfirmStorage(a, s.storage[a].revision, o));
      var s3 := Next(s2, ConfirmResources(a, s.resources[a].revision, o));
      HostReady(s3, a) && !NeedsReconcile(s3, a)
  {
    var s1 := Next(s, ReconcileUnix(a));
    assert s1 == s.(unix := s1.unix) && KnownOperation(s1, a, o);
    var s2 := Next(s1, ConfirmStorage(a, s.storage[a].revision, o));
    assert s2 == s1.(storage := s2.storage) && KnownOperation(s2, a, o);
    hide KnownOperation;
  }

  predicate AllHaveRows(r: Rows, accounts: seq<AccountId>) {
    forall i :: 0 <= i < |accounts| ==> HasRows(r, accounts[i])
  }

  /** The snapshots of the listed accounts, read in order. */
  function SnapshotsOf(r: Rows, accounts: seq<AccountId>): seq<FullSnapshot>
    requires AllHaveRows(r, accounts)
  {
    seq(|accounts|, i requires 0 <= i < |accounts| => ReadRows(r, accounts[i]))
  }

  lemma SnapshotAt(r: Rows, accounts: seq<AccountId>, i: nat)
    requires AllHaveRows(r, accounts) && i < |accounts|
    ensures |SnapshotsOf(r, accounts)| == |accounts|
    ensures HasRows(r, accounts[i]) && SnapshotsOf(r, accounts)[i] == ReadRows(r, accounts[i])
  {
  }

  /** Read one after the other from one state, they are the present snapshots the scan theorem is about. */
  lemma SnapshotsAreReadFrom(s: State, accounts: seq<AccountId>)
    requires AllHaveRows(RowsOf(s), accounts)
    ensures ReadFrom(s, SnapshotsOf(RowsOf(s), accounts))
  {
    var xs := SnapshotsOf(RowsOf(s), accounts);
    forall x | x in xs ensures Complete(s, x.account) && x == CurrentSnapshot(s, x.account) {
      var i :| 0 <= i < |xs| && xs[i] == x;
      assert HasRows(RowsOf(s), accounts[i]);
    }
  }

  /** A scan from `before` that has queued the first `n` snapshots and reached `now`. */
  ghost predicate Reached(before: Operations, now: Operations, xs: seq<FullSnapshot>, n: nat, id: Id)
    requires n <= |xs|
  {
    Scan(before, xs, id) == (Scan(now, xs[n..], id + n).0, n + Scan(now, xs[n..], id + n).1)
  }

  lemma ScanStarts(before: Operations, xs: seq<FullSnapshot>, id: Id)
    ensures Reached(before, before, xs, 0, id)
  {
    hide Scan;
    assert xs[0..] == xs;
  }

  /** One more iteration: the next snapshot is queued, or the scan is over. */
  lemma ScanContinues(before: Operations, now: Operations, xs: seq<FullSnapshot>, n: nat, id: Id)
    requires n < |xs| && Reached(before, now, xs, n, id)
    ensures match EnqueueSnapshot(now, xs[n], id + n, None)
      case None => Scan(before, xs, id) == (now, n)
      case Some(more) => Reached(before, more, xs, n + 1, id)
  {
    hide EnqueueSnapshot;
    assert xs[n..][0] == xs[n] && xs[n..][1..] == xs[n + 1..];
  }

  lemma ScanEnds(before: Operations, now: Operations, xs: seq<FullSnapshot>, id: Id)
    requires Reached(before, now, xs, |xs|, id)
    ensures Scan(before, xs, id) == (now, |xs|)
  {
  }

  class Service {
    var rows: Rows
    var operations: Operations

    constructor (rows: Rows)
      ensures this.rows == rows && operations == map[]
    {
      this.rows, operations := rows, map[];
    }

    /** Reads the account's rows, builds key and payload and creates the operation; false on a refused key. */
    method QueueSnapshot(a: AccountId, id: Id, actor: Option<Id>) returns (ok: bool)
      modifies this`operations
      ensures !HasRows(rows, a) ==> !ok && operations == old(operations)
      ensures HasRows(rows, a) ==>
        var outcome := EnqueueSnapshot(old(operations), ReadRows(rows, a), id, actor);
        ok == outcome.Some? && operations == if ok then outcome.value else old(operations)
    {
      if a !in rows.unix || a !in rows.storage || a !in rows.resources {
        return false;
      }
      var uid, storage, resources := rows.unix[a].uid, rows.storage[a], rows.resources[a];
      var bytes, inodes := 0, 0;
      if storage.desired.bytes.Some? {
        bytes := storage.desired.bytes.value;
      }
      if storage.desired.inodes.Some? {
        inodes := storage.desired.inodes.value;
      }
      var payload := Payload(uid, storage.revision, bytes, inodes, resources.revision, resources.desired);
      var key := (a, HostKey(a, storage.revision, resources.revision));
      if key in operations {
        var existing := operations[key];
        return existing.actor == actor && existing.payload == payload;
      }
      operations := operations[key := Operation(id, actor, payload)];
      return true;
    }

    /** The repair scan: reads and queues one listed account after the other, and stops at a refusal. */
    method QueuePending(accounts: seq<AccountId>, id: Id) returns (queued: nat, failed: bool)
      requires AllHaveRows(rows, accounts)
      modifies this`operations
      ensures (operations, queued) == Scan(old(operations), SnapshotsOf(rows, accounts), id)
      ensures failed <==> queued < |accounts|
    {
      queued, failed := 0, false;
      ghost var xs := SnapshotsOf(rows, accounts);
      assert |xs| == |accounts|;
      hide Scan, EnqueueSnapshot, SnapshotsOf, AllHaveRows, ReadRows, HasRows, Reached;
      ScanStarts(operations, xs, id);
      while queued < |accounts|
        invariant queued <= |accounts| && Reached(old(operations), operations, xs, queued, id)
      {
        ScanContinues(old(operations), operations, xs, queued, id);
        SnapshotAt(rows, accounts, queued);
        var ok := QueueSnapshot(accounts[queued], id + queued, None);
        if !ok {
          failed := true;
          return;
        }
        queued := queued + 1;
      }
      ScanEnds(old(operations), operations, xs, id);
    }
  }
}
