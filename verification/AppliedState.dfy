/**
 Applied-state revisions: which desired configuration an account's host currently runs,
 and the operation that put it there.
 */
module AppliedState {
  import opened Base

  datatype Revision = Revision(account: Id, desired: Id, operation: Option<Id>, digest: Id, active: bool)

  type Table = map<Id, Revision>

  /** One recording request. The two flags are what the account and desired-state tables answered. */
  datatype Request = Request(
    id: Id, account: Id, desired: Id, operation: Option<Id>, digest: Id,
    accountExists: bool, desiredExists: bool)

  datatype Outcome = Recorded(id: Id, table: Table) | Refused(error: Error)

  /** Row `id` is the one an operation of the account produced. */
  predicate Produced(t: Table, id: Id, account: Id, operation: Id) {
    id in t && t[id].account == account && t[id].operation == Some(operation)
  }

  predicate OperationRecorded(t: Table, account: Id, operation: Id) {
    exists id :: id in t && Produced(t, id, account, operation)
  }

  /** UPDATE ... SET status = 'superseded' WHERE account_id = ? AND status = 'active'. */
  function SupersedeActive(t: Table, account: Id): (t': Table)
    ensures t'.Keys == t.Keys
  {
    map id | id in t :: if t[id].account == account then t[id].(active := false) else t[id]
  }

  ghost function RecordRevision(t: Table, operations: map<Id, Id>, p: Request): Outcome {
    if !p.accountExists || !p.desiredExists then Refused(NotFound)
    else match p.operation
      case Some(operation) =>
        if !(operation in operations && operations[operation] == p.account) then Refused(NotFound)
        else if OperationRecorded(t, p.account, operation) then
          var id :| id in t && Produced(t, id, p.account, operation);
          if t[id].desired != p.desired || t[id].digest != p.digest then Refused(Conflict)
          else if !t[id].active then Refused(Conflict)
          else Recorded(id, t)
        else Insert(t, p)
      case None => Insert(t, p)
  }

  function Insert(t: Table, p: Request): Outcome {
    if p.id in t then Refused(Conflict)
    else Recorded(p.id,
      SupersedeActive(t, p.account)[p.id := Revision(p.account, p.desired, p.operation, p.digest, true)])
  }

  /** The confirmation queries' test: this operation's revision is the account's active one. */
  predicate ActiveMatch(t: Table, account: Id, desired: Id, operation: Id) {
    exists id :: id in t && t[id] == Revision(account, desired, Some(operation), t[id].digest, true)
  }

  ghost predicate OneActive(t: Table) {
    forall i, j :: i in t && j in t && t[i].active && t[j].active && t[i].account == t[j].account ==> i == j
  }

  ghost predicate OneRowPerOperation(t: Table) {
    forall i, j | i in t && j in t && t[i].operation.Some? ::
      t[i].operation == t[j].operation && t[i].account == t[j].account ==> i == j
  }

  ghost predicate Inv(t: Table) {
    OneActive(t) && OneRowPerOperation(t)
  }

  /** History is kept: no row disappears or is rewritten, and an inactive row stays inactive. */
  ghost predicate Extends(t: Table, t': Table) {
    forall id :: id in t ==> id in t' && (t'[id] == t[id] || t'[id] == t[id].(active := false))
  }

  /** What a successful recording means: one active row for the account, holding the request. */
  lemma RecordingActivates(t: Table, operations: map<Id, Id>, p: Request)
    requires Inv(t)
    ensures match RecordRevision(t, operations, p)
      case Refused(_) => true
      case Recorded(id, t') =>
        && Inv(t') && Extends(t, t')
        && id in t'
        && t'[id] == Revision(p.account, p.desired, p.operation, p.digest, true)
        && (forall i :: i in t' && t'[i].account == p.account && t'[i].active ==> i == id)
        && (forall i :: i in t' && t'[i].account != p.account ==> i in t && t'[i] == t[i])
  {
  }

  /**
   Re-recording an operation: an exact repeat of the active one changes nothing, a repeat
   of a superseded one or with different content is a conflict.
   */
  lemma ReplayIsExact(t: Table, operations: map<Id, Id>, p: Request, id: Id)
    requires Inv(t)
    requires p.accountExists && p.desiredExists
    requires p.operation.Some? && p.operation.value in operations && operations[p.operation.value] == p.account
    requires Produced(t, id, p.account, p.operation.value)
    ensures RecordRevision(t, operations, p) ==
      if t[id].desired == p.desired && t[id].digest == p.digest && t[id].active then Recorded(id, t)
      else Refused(Conflict)
  {
  }

  /** Row `id` is what the operation produced before, with the content asked for, and still active. */
  predicate StillStands(t: Table, id: Id, p: Request) {
    && p.operation.Some? && Produced(t, id, p.account, p.operation.value)
    && t[id].desired == p.desired && t[id].digest == p.digest && t[id].active
  }

  /**
   A recording is answered if and only if account and desired state exist, the operation, if one is
   named, is the account's, and it has either produced this very revision, still active, or nothing yet
   while the identifier is new.
   */
  lemma RecordingIff(t: Table, operations: map<Id, Id>, p: Request)
    requires Inv(t)
    ensures RecordRevision(t, operations, p).Recorded? <==>
      && p.accountExists && p.desiredExists
      && (p.operation.Some? ==> p.operation.value in operations && operations[p.operation.value] == p.account)
      && if p.operation.Some? && OperationRecorded(t, p.account, p.operation.value)
         then exists id :: id in t && StillStands(t, id, p) else p.id !in t
  {
    if p.operation.Some? && OperationRecorded(t, p.account, p.operation.value) {
      var id :| id in t && Produced(t, id, p.account, p.operation.value);
      assert forall i :: i in t && Produced(t, i, p.account, p.operation.value) ==> i == id;
    }
  }

  lemma ExtendsTransitive(a: Table, b: Table, c: Table)
    requires Extends(a, b) && Extends(b, c)
    ensures Extends(a, c)
  {
  }

  /** A row that stopped being active can no longer justify any confirmation. */
  lemma SupersededNeverMatches(t: Table, t': Table, id: Id, account: Id, desired: Id, operation: Id)
    requires Inv(t) && Inv(t') && Extends(t, t')
    requires Produced(t, id, account, operation) && !t[id].active
    ensures !ActiveMatch(t', account, desired, operation)
  {
  }

  /** The repository object whose table the recording transaction updates. */
  class Store {
    var rows: Table
    var operations: map<Id, Id>

    constructor ()
      ensures rows == map[] && operations == map[]
      ensures Inv(rows)
    {
      rows, operations := map[], map[];
    }

    method Record(p: Request) returns (result: Option<Id>, error: Error)
      requires Inv(rows)
      modifies this`rows
      ensures Inv(rows) && Extends(old(rows), rows)
      ensures match RecordRevision(old(rows), operations, p)
        case Recorded(id, t) => result == Some(id) && rows == t
        case Refused(e) => result == None && error == e && rows == old(rows)
    {
      RecordingActivates(rows, operations, p);
      error := NotFound;
      if !p.accountExists || !p.desiredExists {
        return None, NotFound;
      }
      if p.operation.Some? {
        var operation := p.operation.value;
        if !(operation in operations && operations[operation] == p.account) {
          return None, NotFound;
        }
        if OperationRecorded(rows, p.account, operation) {
          var id :| id in rows && Produced(rows, id, p.account, operation);
          ReplayIsExact(rows, operations, p, id);
          if rows[id].desired != p.desired || rows[id].digest != p.digest {
            return None, Conflict;
          }
          if !rows[id].active {
            return None, Conflict;
          }
          return Some(id), error;
        }
      }
      var saved := rows;
      rows := SupersedeActive(rows, p.account);
      if p.id in rows {
        rows := saved;
        return None, Conflict;
      }
      rows := rows[p.id := Revision(p.account, p.desired, p.operation, p.digest, true)];
      return Some(p.id), error;
    }
  }
}
