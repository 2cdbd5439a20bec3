/** The server_id allocator: the `mysql_server_ids` table, every run of its statements, and the
    repository. */
module ServerIds {
  import opened Options
  import opened Sets

  const FIRST_BASE := 1000
  const MAX_SERVER_ID := 4294967295

  datatype Status = Reserved | Bound | Failed

  datatype Row = Row(serverId: int, hostId: int, port: int, taskId: int, instanceId: Option<int>, status: Status)

  datatype Table = Table(rows: map<int, Row>, lastId: int)

  const EMPTY := Table(map[], 0)

  // ---------------------------------------------------------------------------
  // Statements
  // ---------------------------------------------------------------------------

  predicate HasSlot(r: Row, hostId: int, port: int) {
    r.hostId == hostId && r.port == port
  }

  /** SELECT ... WHERE host_id=? AND port=?. */
  ghost predicate IsSlot(t: Table, hostId: int, port: int, found: Option<int>) {
    match found
    case Some(id) => id in t.rows && HasSlot(t.rows[id], hostId, port)
    case None => forall id :: id in t.rows ==> !HasSlot(t.rows[id], hostId, port)
  }

  /** SELECT COALESCE(MAX(server_id),1000). */
  ghost predicate IsMax(t: Table, max: int) {
    if t.rows == map[] then max == FIRST_BASE
    else
      && (exists id :: id in t.rows && t.rows[id].serverId == max)
      && forall id :: id in t.rows ==> t.rows[id].serverId <= max
  }

  /** `known`: host and task exist, as the foreign keys demand. */
  predicate Inserts(found: Option<int>, max: int, known: bool) {
    found.None? && max + 1 <= MAX_SERVER_ID && known
  }

  function AfterReserve(t: Table, taskId: int, hostId: int, port: int, known: bool, found: Option<int>, max: int): Table {
    if Inserts(found, max, known) then
      Table(t.rows[t.lastId + 1 := Row(max + 1, hostId, port, taskId, None, Reserved)], t.lastId + 1)
    else t
  }

  /** The unique instance column refuses an instance bound elsewhere. */
  predicate BindAccepted(t: Table, id: int, instanceId: int) {
    id in t.rows ==> forall j | j in t.rows :: j != id ==> t.rows[j].instanceId != Some(instanceId)
  }

  function AfterBind(t: Table, id: int, instanceId: int): Table {
    if id in t.rows && BindAccepted(t, id, instanceId)
    then t.(rows := t.rows[id := t.rows[id].(instanceId := Some(instanceId), status := Bound)])
    else t
  }

  function AfterMarkFailed(t: Table, id: int): Table {
    if id in t.rows && t.rows[id].status == Reserved then t.(rows := t.rows[id := t.rows[id].(status := Failed)]) else t
  }

  // ---------------------------------------------------------------------------
  // Runs
  // ---------------------------------------------------------------------------

  datatype Action =
    | Reserve(taskId: int, hostId: int, port: int, known: bool, found: Option<int>, max: int)
    | Bind(id: int, instanceId: int)
    | MarkFailed(id: int)

  ghost predicate Enabled(t: Table, a: Action) {
    a.Reserve? ==> IsSlot(t, a.hostId, a.port, a.found) && IsMax(t, a.max)
  }

  function Apply(t: Table, a: Action): Table {
    match a
    case Reserve(taskId, hostId, port, known, found, max) => AfterReserve(t, taskId, hostId, port, known, found, max)
    case Bind(id, instanceId) => AfterBind(t, id, instanceId)
    case MarkFailed(id) => AfterMarkFailed(t, id)
  }

  ghost predicate ValidRun(t: Table, acts: seq<Action>)
    decreases |acts|
  {
    acts == [] || (Enabled(t, acts[0]) && ValidRun(Apply(t, acts[0]), acts[1..]))
  }

  ghost function After(t: Table, acts: seq<Action>): Table
    decreases |acts|
  {
    if acts == [] then t else After(Apply(t, acts[0]), acts[1..])
  }

  /** Row i, in order of insertion, holds server_id 1000 + i. */
  ghost predicate Consecutive(t: Table) {
    && 0 <= t.lastId && FIRST_BASE + t.lastId <= MAX_SERVER_ID
    && (forall id :: id in t.rows <==> 1 <= id <= t.lastId)
    && forall id :: id in t.rows ==> t.rows[id].serverId == FIRST_BASE + id
  }

  ghost predicate SlotsDistinct(t: Table) {
    forall a, b :: a in t.rows && b in t.rows && HasSlot(t.rows[a], t.rows[b].hostId, t.rows[b].port) ==> a == b
  }

  ghost predicate InstancesDistinct(t: Table) {
    && (forall id :: id in t.rows ==> (t.rows[id].instanceId.Some? <==> t.rows[id].status == Bound))
    && forall a, b :: a in t.rows && b in t.rows && t.rows[a].instanceId.Some? && t.rows[a].instanceId == t.rows[b].instanceId ==> a == b
  }

  ghost predicate Inv(t: Table) {
    Consecutive(t) && SlotsDistinct(t) && InstancesDistinct(t)
  }

  lemma MaxIsLast(t: Table, max: int)
    requires Consecutive(t) && IsMax(t, max)
    ensures max == FIRST_BASE + t.lastId
  {
    if t.rows == map[] {
      assert t.lastId in t.rows <==> 1 <= t.lastId;
    } else {
      var id :| id in t.rows && t.rows[id].serverId == max;
      assert t.lastId in t.rows;
    }
  }

  lemma StepKeeps(t: Table, a: Action)
    requires Inv(t) && Enabled(t, a)
    ensures Inv(Apply(t, a))
  {
    if a.Reserve? {
      MaxIsLast(t, a.max);
    }
  }

  lemma {:induction false} RunKeeps(t: Table, acts: seq<Action>)
    requires Inv(t) && ValidRun(t, acts)
    ensures Inv(After(t, acts))
    decreases |acts|
  {
    if acts != [] {
      StepKeeps(t, acts[0]);
      RunKeeps(Apply(t, acts[0]), acts[1..]);
    }
  }

  // ---------------------------------------------------------------------------
  // What holds of every run
  // ---------------------------------------------------------------------------

  /** After any run the allocated ids are exactly 1001, 1002, ... in order of allocation, none exceeds
      the largest server_id, and host and port determine the server_id and are determined by it. */
  lemma IdsAreConsecutive(acts: seq<Action>)
    requires ValidRun(EMPTY, acts)
    ensures var t := After(EMPTY, acts);
            && (forall id :: id in t.rows <==> 1 <= id <= t.lastId)
            && (forall id :: id in t.rows ==> t.rows[id].serverId == 1000 + id && t.rows[id].serverId <= 4294967295)
            && forall a, b :: a in t.rows && b in t.rows ==>
                 (t.rows[a].serverId == t.rows[b].serverId <==> HasSlot(t.rows[a], t.rows[b].hostId, t.rows[b].port))
  {
    RunKeeps(EMPTY, acts);
  }

  predicate Advances(from: Status, to: Status) {
    from == to || from == Reserved || (from == Failed && to == Bound)
  }

  predicate LaterRow(r: Row, r': Row) {
    && (r'.serverId, r'.hostId, r'.port, r'.taskId) == (r.serverId, r.hostId, r.port, r.taskId)
    && Advances(r.status, r'.status)
  }

  ghost predicate LaterTable(t: Table, t': Table) {
    forall id :: id in t.rows ==> id in t'.rows && LaterRow(t.rows[id], t'.rows[id])
  }

  /** An allocation is for good: server_id, host, port and task never change, and a bound one is never
      demoted. */
  lemma {:induction false} AllocationsAreStable(t: Table, acts: seq<Action>)
    requires Inv(t) && ValidRun(t, acts)
    ensures LaterTable(t, After(t, acts))
    decreases |acts|
  {
    if acts != [] {
      var t' := Apply(t, acts[0]);
      StepKeeps(t, acts[0]);
      assert LaterTable(t, t');
      AllocationsAreStable(t', acts[1..]);
    }
  }

  /** Whatever other handlers do, of the slot or not: once marked failed or bound, a reservation is never
      reserved again; once bound, it stays bound. */
  lemma NeverReservedAgain(t: Table, acts: seq<Action>, id: int)
    requires Inv(t) && ValidRun(t, acts) && id in t.rows && t.rows[id].status != Reserved
    ensures id in After(t, acts).rows && After(t, acts).rows[id].status != Reserved
    ensures t.rows[id].status == Bound ==> After(t, acts).rows[id].status == Bound
  {
    AllocationsAreStable(t, acts);
    assert LaterRow(t.rows[id], After(t, acts).rows[id]);
  }

  /** Some step of the run binds the row and is accepted. */
  ghost predicate GetsBound(t: Table, acts: seq<Action>, id: int)
    decreases |acts|
  {
    acts != [] &&
    ((acts[0].Bind? && acts[0].id == id && BindAccepted(t, id, acts[0].instanceId)) || GetsBound(Apply(t, acts[0]), acts[1..], id))
  }

  lemma {:induction false} StatusFrom(t: Table, acts: seq<Action>, id: int)
    requires Inv(t) && ValidRun(t, acts) && id in t.rows
    ensures id in After(t, acts).rows
    ensures After(t, acts).rows[id].status == Bound <==> t.rows[id].status == Bound || GetsBound(t, acts, id)
    ensures After(t, acts).rows[id].status == Reserved <==>
            t.rows[id].status == Reserved && !GetsBound(t, acts, id) && MarkFailed(id) !in acts
    decreases |acts|
  {
    if acts != [] {
      StepKeeps(t, acts[0]);
      StatusFrom(Apply(t, acts[0]), acts[1..], id);
      assert MarkFailed(id) in acts <==> acts[0] == MarkFailed(id) || MarkFailed(id) in acts[1..];
    }
  }

  /** What becomes of a reservation: it is bound if and only if some bind of it was accepted, and failed if
      and only if none was and it was marked. */
  lemma StatusIff(t: Table, acts: seq<Action>, id: int)
    requires Inv(t) && ValidRun(t, acts) && id in t.rows && t.rows[id].status == Reserved
    ensures id in After(t, acts).rows
    ensures After(t, acts).rows[id].status == Bound <==> GetsBound(t, acts, id)
    ensures After(t, acts).rows[id].status == Failed <==> !GetsBound(t, acts, id) && MarkFailed(id) in acts
  {
    StatusFrom(t, acts, id);
  }

  /** Asking again for a host and port, however much later, finds the first allocation. */
  lemma ReserveIsStable(t: Table, acts: seq<Action>, hostId: int, port: int, id: int, found: Option<int>)
    requires Inv(t) && ValidRun(t, acts)
    requires IsSlot(t, hostId, port, Some(id)) && IsSlot(After(t, acts), hostId, port, found)
    ensures found == Some(id) && After(t, acts).rows[id].serverId == t.rows[id].serverId
  {
    AllocationsAreStable(t, acts);
    RunKeeps(t, acts);
    assert LaterRow(t.rows[id], After(t, acts).rows[id]);
  }

  /** A request for a new slot is refused only when the whole range is used up or host or task is unknown. */
  lemma ExhaustedOnlyAtTheEnd(t: Table, max: int)
    requires Inv(t) && IsMax(t, max)
    ensures Inserts(None, max, true) <==> t.lastId < 4294966295
  {
    MaxIsLast(t, max);
  }

  // ---------------------------------------------------------------------------
  // The repository
  // ---------------------------------------------------------------------------

  datatype Reservation = Reservation(id: int, serverId: int)

  /** The slot is new and cannot be reserved: host or task is unknown, or the last id is in use. */
  ghost predicate NoRoom(t: Table, hostId: int, port: int, known: bool) {
    && (forall id :: id in t.rows ==> !(t.rows[id].hostId == hostId && t.rows[id].port == port))
    && (!known || exists id :: id in t.rows && t.rows[id].serverId >= 4294967295)
  }

  class ServerIdRepo {
    var rows: map<int, Row>
    var lastId: int

    ghost function View(): Table
      reads this
    {
      Table(rows, lastId)
    }

    /** The key sequence is ahead of every row. */
    ghost predicate Valid()
      reads this
    {
      forall id :: id in rows ==> id <= lastId
    }

    constructor ()
      ensures Valid() && View() == EMPTY
    {
      rows, lastId := map[], 0;
    }

    method FindSlot(hostId: int, port: int) returns (found: Option<int>)
      ensures IsSlot(View(), hostId, port, found)
    {
      var ids := set id | id in rows && HasSlot(rows[id], hostId, port);
      if ids == {} {
        assert forall id :: id in rows && HasSlot(rows[id], hostId, port) ==> id in ids;
        return None;
      }
      ghost var member := SomeMember(ids);
      var id :| id in ids;
      return Some(id);
    }

    method MaxServerId() returns (max: int)
      ensures IsMax(View(), max)
    {
      if rows == map[] {
        return FIRST_BASE;
      }
      var ids := set id | id in rows :: rows[id].serverId;
      ghost var member := SomeMember(rows.Keys);
      assert rows[member].serverId in ids;
      assert forall id :: id in rows ==> rows[id].serverId in ids;
      GreatestExists(ids);
      max :| max in ids && forall j :: j in ids ==> j <= max;
    }

    /** One transaction: the existing reservation whatever its status, or the next free id. */
    method Reserve(taskId: int, hostId: int, port: int, known: bool) returns (r: Option<Reservation>)
      requires Valid()
      modifies this
      ensures Valid()
      ensures exists found, max :: IsSlot(old(View()), hostId, port, found) && IsMax(old(View()), max)
                && View() == AfterReserve(old(View()), taskId, hostId, port, known, found, max)
                && (r.Some? <==> found.Some? || Inserts(found, max, known))
                && (r.Some? && found.Some? ==> r.value.id == found.value)
      ensures r.Some? ==> IsSlot(View(), hostId, port, Some(r.value.id)) && rows[r.value.id].serverId == r.value.serverId
      ensures r.None? ==> View() == old(View())
      ensures r.None? <==> NoRoom(old(View()), hostId, port, known)
      ensures r.Some? && (forall id :: id in old(rows) ==> !(old(rows)[id].hostId == hostId && old(rows)[id].port == port)) ==>
                && rows == old(rows)[r.value.id := Row(r.value.serverId, hostId, port, taskId, None, Reserved)]
                && (old(rows) == map[] ==> r.value.serverId == 1001)
                && (forall id :: id in old(rows) ==> old(rows)[id].serverId < r.value.serverId)
      ensures r.Some? && (exists id :: id in old(rows) && old(rows)[id].hostId == hostId && old(rows)[id].port == port) ==> rows == old(rows)
    {
      var found := FindSlot(hostId, port);
      var max := MaxServerId();
      if found.Some? {
        assert View() == AfterReserve(old(View()), taskId, hostId, port, known, found, max);
        return Some(Reservation(found.value, rows[found.value].serverId));
      }
      var next := max + 1;
      if next > MAX_SERVER_ID || !known {
        assert View() == AfterReserve(old(View()), taskId, hostId, port, known, found, max);
        return None;
      }
      lastId := lastId + 1;
      rows := rows[lastId := Row(next, hostId, port, taskId, None, Reserved)];
      assert View() == AfterReserve(old(View()), taskId, hostId, port, known, found, max);
      return Some(Reservation(lastId, next));
    }

    method BindInstance(id: int, instanceId: int) returns (ok: bool)
      requires Valid()
      modifies this
      ensures Valid()
      ensures View() == AfterBind(old(View()), id, instanceId)
      ensures ok <==> BindAccepted(old(View()), id, instanceId)
      ensures ok <==> id !in old(rows) || forall j | j in old(rows) :: j != id ==> old(rows)[j].instanceId != Some(instanceId)
      ensures rows == if ok && id in old(rows)
                      then old(rows)[id := old(rows)[id].(instanceId := Some(instanceId), status := Bound)] else old(rows)
    {
      if id !in rows {
        return true;
      }
      if exists j | j in rows :: j != id && rows[j].instanceId == Some(instanceId) {
        return false;
      }
      rows := rows[id := rows[id].(instanceId := Some(instanceId), status := Bound)];
      return true;
    }

    method MarkFailed(id: int)
      requires Valid()
      modifies this
      ensures Valid()
      ensures View() == AfterMarkFailed(old(View()), id)
      ensures rows == if id in old(rows) && old(rows)[id].status == Reserved
                      then old(rows)[id := old(rows)[id].(status := Failed)] else old(rows)
    {
      if id in rows && rows[id].status == Reserved {
        rows := rows[id := rows[id].(status := Failed)];
      }
    }
  }
}
