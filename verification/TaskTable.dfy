/** The `tasks` table: each SQL statement as a function of the table, and the repository that runs them.
    Timestamps are whole seconds, as the columns hold them. */
module TaskTable {
  import opened Options
  import opened Sets
  import opened Text
  import Rfc3339

  datatype Status =
    | Pending | Queued | Running | Paused | Interrupted
    | Success | Failed | Cancelled | Timeout
    | Other(name: string)

  /** The statuses of the partial unique index on the idempotency key. */
  predicate Active(s: Status) {
    s in {Pending, Queued, Running, Paused, Interrupted}
  }

  /** The statuses whose update sets `finished_at`. */
  predicate Finished(s: Status) {
    s in {Success, Failed, Cancelled, Timeout}
  }

  datatype Row = Row(
    taskNo: string, taskType: string, status: Status, progress: int,
    parameters: string, result: string, agentId: Option<int>, key: Option<string>,
    createdAt: int, queuedAt: int, startedAt: Option<int>, finishedAt: Option<int>,
    leaseOwner: Option<string>, leaseExpires: Option<int>, error: Option<string>)

  datatype Table = Table(rows: map<int, Row>, lastId: int)

  const EMPTY_TABLE := Table(map[], 0)

  datatype NewTask = NewTask(taskNo: string, taskType: string, parameters: string, agentId: Option<int>, key: Option<string>)

  // ---------------------------------------------------------------------------
  // Statements
  // ---------------------------------------------------------------------------

  function OrEmptyObject(json: string): string {
    if json == "" then "{}" else json
  }

  function NullIfEmpty(s: string): Option<string> {
    if s == "" then None else Some(s)
  }

  function TaskNoFor(n: NewTask, nanos: nat): string {
    if n.taskNo == "" then "TASK-" + Decimal(nanos) else n.taskNo
  }

  function QueuedRow(n: NewTask, now: int, nanos: nat): Row {
    Row(TaskNoFor(n, nanos), n.taskType, Queued, 0, OrEmptyObject(n.parameters), "{}", n.agentId, n.key,
        now, now, None, None, None, None, None)
  }

  predicate TaskNoTaken(t: Table, taskNo: string) {
    exists id | id in t.rows :: t.rows[id].taskNo == taskNo
  }

  /** Some row other than `except` holds `key` in an active status. */
  predicate KeyHeld(t: Table, key: Option<string>, except: int) {
    key.Some? && exists id | id in t.rows :: id != except && t.rows[id].key == key && Active(t.rows[id].status)
  }

  predicate CanCreate(t: Table, n: NewTask, nanos: nat) {
    !TaskNoTaken(t, TaskNoFor(n, nanos)) && !KeyHeld(t, n.key, 0)
  }

  function Created(t: Table, n: NewTask, now: int, nanos: nat): Table {
    if CanCreate(t, n, nanos) then Table(t.rows[t.lastId + 1 := QueuedRow(n, now, nanos)], t.lastId + 1) else t
  }

  /** Row `id` exists and is queued. */
  predicate IsQueued(t: Table, id: int) {
    id in t.rows && t.rows[id].status == Queued
  }

  /** What the claim's SELECT may return: the least queued id, or nothing when no row is queued. */
  ghost predicate IsNext(t: Table, next: Option<int>) {
    match next
    case Some(id) => IsQueued(t, id) && forall j :: IsQueued(t, j) ==> id <= j
    case None => forall j :: !IsQueued(t, j)
  }

  function ClaimedRow(r: Row, owner: string, expires: int, now: int): Row {
    r.(status := Running,
       startedAt := if r.startedAt.Some? then r.startedAt else Some(now),
       leaseOwner := Some(owner), leaseExpires := Some(expires))
  }

  /** The claim's UPDATE, guarded by the status it expects. */
  function Claimed(t: Table, id: int, owner: string, leaseSeconds: int, now: int): Table {
    if IsQueued(t, id) then t.(rows := t.rows[id := ClaimedRow(t.rows[id], owner, now + leaseSeconds, now)]) else t
  }

  predicate InPercent(p: int) { 0 <= p <= 100 }

  /** The schema's CHECK on progress and its partial unique index on the key accept the update. */
  predicate StatusAccepted(t: Table, id: int, status: Status, progress: int) {
    id in t.rows ==> InPercent(progress) && !(Active(status) && KeyHeld(t, t.rows[id].key, id))
  }

  function StatusUpdated(t: Table, id: int, status: Status, progress: int, result: string, error: string, now: int): Table {
    if id in t.rows && StatusAccepted(t, id, status, progress) then
      var r := t.rows[id];
      t.(rows := t.rows[id := r.(
        status := status, progress := progress, result := OrEmptyObject(result), error := NullIfEmpty(error),
        finishedAt := if Finished(status) then Some(now) else r.finishedAt,
        leaseOwner := None, leaseExpires := None)])
    else t
  }

  function Clamp(p: int): int {
    if p < 0 then 0 else if p > 100 then 100 else p
  }

  function ProgressUpdated(t: Table, id: int, progress: int): Table {
    if id in t.rows then t.(rows := t.rows[id := t.rows[id].(progress := Clamp(progress))]) else t
  }

  predicate Expired(r: Row, now: int) {
    r.status == Running && r.leaseExpires.Some? && r.leaseExpires.value < now
  }

  function InterruptedRow(r: Row): Row {
    r.(status := Interrupted, leaseOwner := None, leaseExpires := None)
  }

  function Recovered(t: Table, now: int): Table {
    t.(rows := map id | id in t.rows :: if Expired(t.rows[id], now) then InterruptedRow(t.rows[id]) else t.rows[id])
  }

  /** The column comparison is textual; on formatted timestamps it is the comparison of the instants. */
  lemma ExpiryComparedAsText(expires: nat, now: nat)
    requires Rfc3339.InTextRange(expires) && Rfc3339.InTextRange(now)
    ensures Rfc3339.TextLess(Rfc3339.Stamp(expires), Rfc3339.Stamp(now)) <==> expires < now
  {
    Rfc3339.StampOrder(expires, now);
  }

  // ---------------------------------------------------------------------------
  // The repository
  // ---------------------------------------------------------------------------

  class TaskRepo {
    var rows: map<int, Row>
    var lastId: int

    ghost function View(): Table
      reads this
    {
      Table(rows, lastId)
    }

    constructor ()
      ensures View() == EMPTY_TABLE
    {
      rows, lastId := map[], 0;
    }

    /** INSERT; the unique task number and the partial unique key index may refuse it. */
    method Create(n: NewTask, now: int, nanos: nat) returns (id: Option<int>)
      modifies this
      ensures View() == Created(old(View()), n, now, nanos)
      ensures id == if CanCreate(old(View()), n, nanos) then Some(old(lastId) + 1) else None
      ensures id.Some? ==>
                rows == old(rows)[id.value := Row(if n.taskNo == "" then "TASK-" + Decimal(nanos) else n.taskNo, n.taskType, Queued, 0,
                                                  if n.parameters == "" then "{}" else n.parameters, "{}", n.agentId, n.key,
                                                  now, now, None, None, None, None, None)]
      ensures id.None? <==> exists j | j in old(rows) ::
                old(rows)[j].taskNo == (if n.taskNo == "" then "TASK-" + Decimal(nanos) else n.taskNo)
                || (j != 0 && n.key.Some? && old(rows)[j].key == n.key && old(rows)[j].status in {Pending, Queued, Running, Paused, Interrupted})
    {
      var taskNo := if n.taskNo == "" then "TASK-" + Decimal(nanos) else n.taskNo;
      var duplicate := TaskNoTaken(Table(rows, lastId), taskNo);
      var held := KeyHeld(Table(rows, lastId), n.key, 0);
      if duplicate || held {
        return None;
      }
      var parameters := if n.parameters == "" then "{}" else n.parameters;
      lastId := lastId + 1;
      rows := rows[lastId := Row(taskNo, n.taskType, Queued, 0, parameters, "{}", n.agentId, n.key,
                                 now, now, None, None, None, None, None)];
      return Some(lastId);
    }

    /** SELECT id ... WHERE status='queued' ORDER BY id LIMIT 1. */
    method SelectNext() returns (next: Option<int>)
      ensures IsNext(View(), next)
      ensures next.None? <==> forall j | j in rows :: rows[j].status != Queued
      ensures next.Some? ==> next.value in rows && rows[next.value].status == Queued
      ensures next.Some? ==> forall j | j in rows :: rows[j].status == Queued ==> next.value <= j
    {
      var queued := set id | id in rows && rows[id].status == Queued;
      assert forall j :: j in queued <==> IsQueued(View(), j);
      assert forall j | j in rows :: rows[j].status == Queued ==> j in queued;
      if queued == {} {
        return None;
      }
      LeastExists(queued);
      var id :| id in queued && forall j :: j in queued ==> id <= j;
      return Some(id);
    }

    /** The guarded UPDATE; `claimed` says whether exactly one row was affected. */
    method GuardedClaim(id: int, owner: string, leaseSeconds: int, now: int) returns (claimed: bool)
      modifies this
      ensures View() == Claimed(old(View()), id, owner, leaseSeconds, now)
      ensures claimed <==> id in old(rows) && old(rows)[id].status == Queued
      ensures claimed ==> rows == old(rows)[id := old(rows)[id].(
                status := Running, startedAt := if old(rows)[id].startedAt.Some? then old(rows)[id].startedAt else Some(now),
                leaseOwner := Some(owner), leaseExpires := Some(now + leaseSeconds))]
    {
      claimed := id in rows && rows[id].status == Queued;
      if claimed {
        var r := rows[id];
        var startedAt := if r.startedAt.Some? then r.startedAt else Some(now);
        rows := rows[id := r.(status := Running, startedAt := startedAt,
                              leaseOwner := Some(owner), leaseExpires := Some(now + leaseSeconds))];
      }
    }

    /** One claim transaction: at most one row changes, the least queued one, and it is reported. */
    method ClaimNext(owner: string, leaseSeconds: int, now: int) returns (claimed: Option<int>)
      modifies this
      ensures IsNext(old(View()), claimed)
      ensures claimed.None? <==> forall j | j in old(rows) :: old(rows)[j].status != Queued
      ensures claimed.None? ==> rows == old(rows)
      ensures claimed.Some? ==> forall j | j in old(rows) :: old(rows)[j].status == Queued ==> claimed.value <= j
      ensures View() == if claimed.Some? then Claimed(old(View()), claimed.value, owner, leaseSeconds, now) else old(View())
      ensures claimed.Some? ==> claimed.value in old(rows) && old(rows)[claimed.value].status == Queued
      ensures claimed.Some? ==>
                rows == old(rows)[claimed.value := old(rows)[claimed.value].(
                  status := Running,
                  startedAt := if old(rows)[claimed.value].startedAt.Some? then old(rows)[claimed.value].startedAt else Some(now),
                  leaseOwner := Some(owner), leaseExpires := Some(now + leaseSeconds))]
    {
      var next := SelectNext();
      if next == None {
        return None;
      }
      var ok := GuardedClaim(next.value, owner, leaseSeconds, now);
      if !ok {
        return None;
      }
      return next;
    }

    /** `accepted` is false when a schema constraint refuses the statement. */
    method UpdateStatus(id: int, status: Status, progress: int, result: string, error: string, now: int)
      returns (accepted: bool)
      modifies this
      ensures View() == StatusUpdated(old(View()), id, status, progress, result, error, now)
      ensures accepted <==> StatusAccepted(old(View()), id, status, progress)
      ensures id in old(rows) && !(0 <= progress <= 100) ==> !accepted
      ensures rows == if id in old(rows) && accepted
                      then old(rows)[id := old(rows)[id].(
                             status := status, progress := progress, result := if result == "" then "{}" else result,
                             error := if error == "" then None else Some(error),
                             finishedAt := if status in {Success, Failed, Cancelled, Timeout} then Some(now) else old(rows)[id].finishedAt,
                             leaseOwner := None, leaseExpires := None)]
                      else old(rows)
    {
      if id !in rows {
        return true;
      }
      var r := rows[id];
      if progress < 0 || progress > 100 {
        return false;
      }
      if Active(status) && KeyHeld(Table(rows, lastId), r.key, id) {
        return false;
      }
      var json := if result == "" then "{}" else result;
      var message := if error == "" then None else Some(error);
      var finishedAt := if Finished(status) then Some(now) else r.finishedAt;
      rows := rows[id := r.(status := status, progress := progress, result := json, error := message,
                            finishedAt := finishedAt, leaseOwner := None, leaseExpires := None)];
      return true;
    }

    method UpdateProgress(id: int, progress: int)
      modifies this
      ensures View() == ProgressUpdated(old(View()), id, progress)
      ensures rows == if id in old(rows)
                      then old(rows)[id := old(rows)[id].(progress := if progress < 0 then 0 else if progress > 100 then 100 else progress)]
                      else old(rows)
    {
      var p := progress;
      if p < 0 {
        p := 0;
      }
      if p > 100 {
        p := 100;
      }
      if id in rows {
        rows := rows[id := rows[id].(progress := p)];
      }
    }

    /** Marks the rows whose lease has run out; returns how many. */
    method RecoverExpired(now: int) returns (n: nat)
      modifies this
      ensures View() == Recovered(old(View()), now)
      ensures n == |set id | id in old(rows) && Expired(old(rows)[id], now)|
      ensures forall id :: id in rows ==> !Expired(rows[id], now)
      ensures rows.Keys == old(rows).Keys
      ensures forall id :: id in rows ==>
                rows[id] == if old(rows)[id].status == Running && old(rows)[id].leaseExpires.Some? && old(rows)[id].leaseExpires.value < now
                            then old(rows)[id].(status := Interrupted, leaseOwner := None, leaseExpires := None) else old(rows)[id]
    {
      n := |set id | id in rows && Expired(rows[id], now)|;
      rows := map id | id in rows ::
        if Expired(rows[id], now) then rows[id].(status := Interrupted, leaseOwner := None, leaseExpires := None)
        else rows[id];
      ghost var expected := Recovered(old(View()), now).rows;
      assert forall id :: id in old(rows) ==> id in rows && id in expected && rows[id] == expected[id];
      assert rows.Keys == old(rows).Keys && expected.Keys == old(rows).Keys;
      assert rows == expected;
    }
  }
}
