/** The worker pool over the task table: any number of workers whose SELECT, guarded UPDATE,
    handler and final write interleave freely, with crashes and restarts. */
module TaskEngine {
  import opened Options
  import opened TaskTable

  /** Where a worker is between its statements. `Committed` follows a successful claim, `Loaded` the
      read-back of the row, `Executing` the start of the handler. */
  datatype Worker =
    | Idle
    | Selected(id: int)
    | Committed(id: int)
    | Loaded(id: int, progress: int)
    | Executing(id: int, progress: int)

  datatype Outcome = HandlerError(message: string) | Done(json: string)

  /** `claims` and `starts` record every successful claim and every handler start, in order. */
  datatype System = System(
    table: Table, handlers: set<string>, workers: Workers, claims: seq<int>, starts: seq<int>)

  datatype Action =
    | Create(task: NewTask, now: int, nanos: nat)
    | Spawn(w: nat)
    | Select(w: nat, next: Option<int>)
    | Claim(w: nat, owner: string, leaseSeconds: int, now: int)
    | Load(w: nat)
    | LoadFails(w: nat)
    | Begin(w: nat)
    | Refuse(w: nat, written: bool, now: int)
    | Finish(w: nat, outcome: Outcome, written: bool, now: int)
    | Progress(id: int, progress: int)
    | Crash(w: nat)
    | Recover(now: int)

  function Initial(handlers: set<string>): System {
    System(EMPTY_TABLE, handlers, map[], [], [])
  }

  type Workers = map<nat, Worker>

  /** Worker `w` has claimed a task and not yet let it go. */
  predicate Holds(ws: Workers, w: nat) {
    w in ws && (ws[w].Committed? || ws[w].Loaded? || ws[w].Executing?)
  }

  function Held(ws: Workers, w: nat): int
    requires Holds(ws, w)
  {
    ws[w].id
  }

  predicate Known(s: System, w: nat)
    requires w in s.workers && s.workers[w].Loaded?
  {
    s.workers[w].id in s.table.rows && s.table.rows[s.workers[w].id].taskType in s.handlers
  }

  ghost predicate Enabled(s: System, a: Action) {
    match a
    case Create(_, _, _) => true
    case Spawn(w) => w !in s.workers
    case Select(w, next) => w in s.workers && s.workers[w].Idle? && IsNext(s.table, next)
    case Claim(w, _, _, _) => w in s.workers && s.workers[w].Selected?
    case Load(w) => w in s.workers && s.workers[w].Committed? && s.workers[w].id in s.table.rows
    case LoadFails(w) => w in s.workers && s.workers[w].Committed?
    case Begin(w) => w in s.workers && s.workers[w].Loaded? && Known(s, w)
    case Refuse(w, _, _) => w in s.workers && s.workers[w].Loaded? && !Known(s, w)
    case Finish(w, _, _, _) => w in s.workers && s.workers[w].Executing?
    case Progress(_, _) => true
    case Crash(w) => w in s.workers
    case Recover(_) => true
  }

  /** The final write of `execute`, or nothing when the database refused and the error was ignored. */
  function FinalWrite(t: Table, id: int, progress: int, outcome: Outcome, written: bool, now: int): Table {
    if !written then t
    else match outcome
      case HandlerError(message) => StatusUpdated(t, id, Failed, progress, "{}", message, now)
      case Done(json) => StatusUpdated(t, id, Success, 100, json, "", now)
  }

  const NO_HANDLER := HandlerError("no handler registered")

  ghost function Apply(s: System, a: Action): System
    requires Enabled(s, a)
  {
    match a
    case Create(task, now, nanos) => s.(table := Created(s.table, task, now, nanos))
    case Spawn(w) => s.(workers := s.workers[w := Idle])
    case Select(w, next) =>
      s.(workers := s.workers[w := match next case Some(id) => Selected(id) case None => Idle])
    case Claim(w, owner, leaseSeconds, now) =>
      var id := s.workers[w].id;
      if IsQueued(s.table, id) then
        s.(table := Claimed(s.table, id, owner, leaseSeconds, now),
           workers := s.workers[w := Committed(id)],
           claims := s.claims + [id])
      else s.(workers := s.workers[w := Idle])
    case Load(w) =>
      var id := s.workers[w].id;
      s.(workers := s.workers[w := Loaded(id, s.table.rows[id].progress)])
    case LoadFails(w) => s.(workers := s.workers[w := Idle])
    case Begin(w) =>
      var id := s.workers[w].id;
      s.(workers := s.workers[w := Executing(id, s.workers[w].progress)], starts := s.starts + [id])
    case Refuse(w, written, now) =>
      s.(table := FinalWrite(s.table, s.workers[w].id, s.workers[w].progress, NO_HANDLER, written, now),
         workers := s.workers[w := Idle])
    case Finish(w, outcome, written, now) =>
      s.(table := FinalWrite(s.table, s.workers[w].id, s.workers[w].progress, outcome, written, now),
         workers := s.workers[w := Idle])
    case Progress(id, progress) => s.(table := ProgressUpdated(s.table, id, progress))
    case Crash(w) => s.(workers := s.workers - {w})
    case Recover(now) => s.(table := Recovered(s.table, now))
  }

  ghost predicate ValidRun(s: System, acts: seq<Action>)
    decreases |acts|
  {
    acts == [] || (Enabled(s, acts[0]) && ValidRun(Apply(s, acts[0]), acts[1..]))
  }

  ghost function After(s: System, acts: seq<Action>): System
    requires ValidRun(s, acts)
    decreases |acts|
  {
    if acts == [] then s else After(Apply(s, acts[0]), acts[1..])
  }

  /** A run is its first step and the run after it. */
  lemma FirstStep(s: System, a: Action, rest: seq<Action>)
    requires Enabled(s, a) && ValidRun(Apply(s, a), rest)
    ensures ValidRun(s, [a] + rest) && After(s, [a] + rest) == After(Apply(s, a), rest)
  {
    assert ([a] + rest)[1..] == rest;
  }

  lemma {:induction false} RunsCompose(s: System, a: seq<Action>, b: seq<Action>)
    requires ValidRun(s, a) && ValidRun(After(s, a), b)
    ensures ValidRun(s, a + b) && After(s, a + b) == After(After(s, a), b)
    decreases |a|
  {
    if a == [] {
      assert a + b == b;
    } else {
      RunsCompose(Apply(s, a[0]), a[1..], b);
      assert a + b == [a[0]] + (a[1..] + b);
      FirstStep(s, a[0], a[1..] + b);
    }
  }

  // ---------------------------------------------------------------------------
  // What every reachable state keeps
  // ---------------------------------------------------------------------------

  /** How the columns of one row fit together. */
  predicate RowOk(r: Row) {
    && r.status in {Queued, Running, Success, Failed, Interrupted}
    && (r.leaseOwner.Some? <==> r.status == Running)
    && (r.leaseExpires.Some? <==> r.status == Running)
    && (r.finishedAt.Some? <==> r.status in {Success, Failed})
    && (r.startedAt.Some? <==> r.status != Queued)
    && InPercent(r.progress)
  }

  /** Ids are dense, the claimed ids are 1..k in claim order, and the queued rows are exactly the rest. */
  ghost predicate QueueOk(t: Table, claims: seq<int>) {
    && 0 <= |claims| <= t.lastId
    && (forall id :: id in t.rows <==> 1 <= id <= t.lastId)
    && (forall i :: 0 <= i < |claims| ==> claims[i] == i + 1)
    && (forall id :: id in t.rows ==> (t.rows[id].status == Queued <==> id > |claims|))
  }

  ghost predicate KeysOk(t: Table) {
    forall a, b :: a in t.rows && b in t.rows && a != b && t.rows[a].key.Some? && t.rows[a].key == t.rows[b].key
      ==> !(Active(t.rows[a].status) && Active(t.rows[b].status))
  }

  ghost predicate NoDuplicates(q: seq<int>) {
    forall i, j :: 0 <= i < j < |q| ==> q[i] != q[j]
  }

  predicate InProgress(t: Table, id: int) {
    id in t.rows && t.rows[id].status in {Running, Interrupted}
  }

  ghost predicate TableOk(t: Table, claims: seq<int>) {
    && QueueOk(t, claims)
    && (forall id :: id in t.rows ==> RowOk(t.rows[id]))
    && KeysOk(t)
  }

  /** No two workers hold the same task. */
  ghost predicate HeldOnce(ws: Workers) {
    forall v, w :: Holds(ws, v) && Holds(ws, w) && v != w ==> Held(ws, v) != Held(ws, w)
  }

  /** A selected id exists and is at most the next in line. */
  ghost predicate SelectedOk(ws: Workers, t: Table, k: nat) {
    forall w :: w in ws && ws[w].Selected? ==> 1 <= ws[w].id <= t.lastId && ws[w].id <= k + 1
  }

  /** A held task was claimed, is not finished, and is among the started ones once its worker executes it. */
  ghost predicate HeldOk(ws: Workers, t: Table, k: nat, starts: seq<int>) {
    forall w :: Holds(ws, w) ==>
      && 1 <= Held(ws, w) <= k
      && InProgress(t, Held(ws, w))
      && (Held(ws, w) in starts <==> ws[w].Executing?)
      && (!ws[w].Committed? ==> InPercent(ws[w].progress))
  }

  ghost predicate WorkersOk(s: System) {
    && HeldOnce(s.workers)
    && SelectedOk(s.workers, s.table, |s.claims|)
    && HeldOk(s.workers, s.table, |s.claims|, s.starts)
  }

  ghost predicate StartsOk(s: System) {
    && NoDuplicates(s.starts)
    && (forall id :: id in s.starts ==> 1 <= id <= |s.claims|)
  }

  ghost predicate Inv(s: System) {
    && TableOk(s.table, s.claims)
    && WorkersOk(s)
    && StartsOk(s)
  }

  lemma InitialInv(handlers: set<string>)
    ensures Inv(Initial(handlers))
  {
  }

  // Each statement keeps the table's part.

  lemma CreatedOk(t: Table, claims: seq<int>, n: NewTask, now: int, nanos: nat)
    requires TableOk(t, claims)
    ensures TableOk(Created(t, n, now, nanos), claims)
  {
  }

  lemma ClaimedOk(t: Table, claims: seq<int>, id: int, owner: string, leaseSeconds: int, now: int)
    requires TableOk(t, claims) && IsQueued(t, id) && id <= |claims| + 1
    ensures TableOk(Claimed(t, id, owner, leaseSeconds, now), claims + [id])
  {
  }

  lemma StatusUpdatedOk(t: Table, claims: seq<int>, id: int, status: Status, progress: int, result: string, error: string, now: int)
    requires TableOk(t, claims) && InProgress(t, id) && status in {Success, Failed}
    ensures TableOk(StatusUpdated(t, id, status, progress, result, error, now), claims)
  {
  }

  lemma ProgressUpdatedOk(t: Table, claims: seq<int>, id: int, progress: int)
    requires TableOk(t, claims)
    ensures TableOk(ProgressUpdated(t, id, progress), claims)
  {
  }

  lemma RecoveredOk(t: Table, claims: seq<int>, now: int)
    requires TableOk(t, claims)
    ensures TableOk(Recovered(t, now), claims)
  {
  }

  // Each action keeps the whole invariant.

  /** Changes of rows that no worker's hold depends on. */
  lemma TableChangeKeeps(s: System, t: Table)
    requires Inv(s) && TableOk(t, s.claims) && s.table.lastId <= t.lastId
    requires forall w :: Holds(s.workers, w) ==> InProgress(t, Held(s.workers, w))
    ensures Inv(s.(table := t))
  {
  }

  /** Workers that let go, or never held anything. */
  lemma FewerHoldsKeep(s: System, ws: Workers)
    requires Inv(s)
    requires forall w :: w in ws && !ws[w].Idle? ==> w in s.workers && ws[w] == s.workers[w]
    ensures Inv(s.(workers := ws))
  {
    assert forall w :: Holds(ws, w) ==> Holds(s.workers, w) && Held(ws, w) == Held(s.workers, w);
    assert HeldOnce(ws);
    assert HeldOk(ws, s.table, |s.claims|, s.starts);
  }

  lemma SelectKeeps(s: System, a: Action)
    requires Inv(s) && a.Select? && Enabled(s, a)
    ensures Inv(Apply(s, a))
  {
    var ws := Apply(s, a).workers;
    FewerHoldsKeep(s, s.workers[a.w := Idle]);
    if a.next.Some? {
      if |s.claims| < s.table.lastId {
        assert IsQueued(s.table, |s.claims| + 1);
      }
      assert SelectedOk(ws, s.table, |s.claims|);
      assert forall w :: Holds(ws, w) ==> Holds(s.workers, w) && ws[w] == s.workers[w];
      assert HeldOnce(ws);
    }
  }

  lemma HoldFresh(ws: Workers, w: nat, held: Worker)
    requires HeldOnce(ws) && !held.Idle? && !held.Selected?
    requires forall v :: v != w && Holds(ws, v) ==> Held(ws, v) != held.id
    ensures HeldOnce(ws[w := held])
  {
    var ws' := ws[w := held];
    assert forall v :: v != w ==> (Holds(ws', v) <==> Holds(ws, v));
    assert forall v :: v != w && Holds(ws', v) ==> Held(ws', v) == Held(ws, v);
  }

  lemma ClaimKeeps(s: System, a: Action)
    requires Inv(s) && a.Claim? && Enabled(s, a)
    ensures Inv(Apply(s, a))
  {
    var id := s.workers[a.w].id;
    if IsQueued(s.table, id) {
      ClaimedOk(s.table, s.claims, id, a.owner, a.leaseSeconds, a.now);
      HoldFresh(s.workers, a.w, Committed(id));
      var s' := Apply(s, a);
      assert SelectedOk(s'.workers, s'.table, |s'.claims|);
      assert HeldOk(s'.workers, s'.table, |s'.claims|, s'.starts);
    } else {
      FewerHoldsKeep(s, s.workers[a.w := Idle]);
    }
  }

  lemma LoadKeeps(s: System, a: Action)
    requires Inv(s) && a.Load? && Enabled(s, a)
    ensures Inv(Apply(s, a))
  {
    assert Holds(s.workers, a.w);
    HoldFresh(s.workers, a.w, Apply(s, a).workers[a.w]);
  }

  lemma BeginKeeps(s: System, a: Action)
    requires Inv(s) && a.Begin? && Enabled(s, a)
    ensures Inv(Apply(s, a))
  {
    var s' := Apply(s, a);
    var id := s.workers[a.w].id;
    assert Holds(s.workers, a.w) && Held(s.workers, a.w) == id && id !in s.starts;
    HoldFresh(s.workers, a.w, s'.workers[a.w]);
    assert StartsOk(s');
    assert HeldOk(s'.workers, s'.table, |s'.claims|, s'.starts);
  }

  lemma FinalWriteOk(t: Table, claims: seq<int>, id: int, progress: int, outcome: Outcome, written: bool, now: int)
    requires TableOk(t, claims) && InProgress(t, id)
    ensures var t' := FinalWrite(t, id, progress, outcome, written, now);
            && TableOk(t', claims) && t'.lastId == t.lastId
            && forall j :: j != id && InProgress(t, j) ==> InProgress(t', j)
  {
    match outcome {
      case HandlerError(message) => StatusUpdatedOk(t, claims, id, Failed, progress, "{}", message, now);
      case Done(json) => StatusUpdatedOk(t, claims, id, Success, 100, json, "", now);
    }
  }

  lemma FinishKeeps(s: System, w: nat, outcome: Outcome, written: bool, now: int)
    requires Inv(s) && w in s.workers && (s.workers[w].Loaded? || s.workers[w].Executing?)
    ensures var t := FinalWrite(s.table, s.workers[w].id, s.workers[w].progress, outcome, written, now);
            Inv(s.(table := t, workers := s.workers[w := Idle]))
  {
    var id, progress := s.workers[w].id, s.workers[w].progress;
    assert Holds(s.workers, w) && Held(s.workers, w) == id;
    FinalWriteOk(s.table, s.claims, id, progress, outcome, written, now);
    var idle := s.(workers := s.workers[w := Idle]);
    FewerHoldsKeep(s, idle.workers);
    assert forall v :: Holds(idle.workers, v) ==> Holds(s.workers, v) && v != w && Held(idle.workers, v) == Held(s.workers, v);
    TableChangeKeeps(idle, FinalWrite(s.table, id, progress, outcome, written, now));
  }

  lemma StepKeeps(s: System, a: Action)
    requires Inv(s) && Enabled(s, a)
    ensures Inv(Apply(s, a))
  {
    match a {
      case Create(task, now, nanos) =>
        CreatedOk(s.table, s.claims, task, now, nanos);
        TableChangeKeeps(s, Created(s.table, task, now, nanos));
      case Spawn(w) => FewerHoldsKeep(s, s.workers[w := Idle]);
      case Select(_, _) => SelectKeeps(s, a);
      case Claim(_, _, _, _) => ClaimKeeps(s, a);
      case Load(_) => LoadKeeps(s, a);
      case LoadFails(w) => FewerHoldsKeep(s, s.workers[w := Idle]);
      case Begin(_) => BeginKeeps(s, a);
      case Refuse(w, written, now) => FinishKeeps(s, w, NO_HANDLER, written, now);
      case Finish(w, outcome, written, now) => FinishKeeps(s, w, outcome, written, now);
      case Progress(id, progress) =>
        ProgressUpdatedOk(s.table, s.claims, id, progress);
        TableChangeKeeps(s, ProgressUpdated(s.table, id, progress));
      case Crash(w) => FewerHoldsKeep(s, s.workers - {w});
      case Recover(now) =>
        RecoveredOk(s.table, s.claims, now);
        TableChangeKeeps(s, Recovered(s.table, now));
    }
  }

  lemma {:induction false} RunKeeps(s: System, acts: seq<Action>)
    requires Inv(s) && ValidRun(s, acts)
    ensures Inv(After(s, acts))
    decreases |acts|
  {
    if acts != [] {
      StepKeeps(s, acts[0]);
      RunKeeps(Apply(s, acts[0]), acts[1..]);
    }
  }
}
