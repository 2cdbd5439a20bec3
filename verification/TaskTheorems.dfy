/** What holds of every run of the task system, from an empty table. */
module TaskTheorems {
  import opened Options
  import opened TaskTable
  import opened TaskEngine

  /** The state after a run that starts with an empty database. */
  ghost function Reached(handlers: set<string>, acts: seq<Action>): System
    requires ValidRun(Initial(handlers), acts)
  {
    After(Initial(handlers), acts)
  }

  lemma ReachedInv(handlers: set<string>, acts: seq<Action>)
    requires ValidRun(Initial(handlers), acts)
    ensures Inv(Reached(handlers, acts))
  {
    InitialInv(handlers);
    RunKeeps(Initial(handlers), acts);
  }

  /** Whatever the interleaving, crashes and restarts, no task is claimed twice and no handler starts
      twice; claims happen in strictly increasing id order, and a handler starts only for a claimed task. */
  lemma AtMostOnce(handlers: set<string>, acts: seq<Action>)
    requires ValidRun(Initial(handlers), acts)
    ensures var s := Reached(handlers, acts);
            && (forall i, j :: 0 <= i < j < |s.claims| ==> s.claims[i] < s.claims[j])
            && NoDuplicates(s.starts)
            && forall id :: id in s.starts ==> id in s.claims
  {
    ReachedInv(handlers, acts);
    var s := Reached(handlers, acts);
    forall id | id in s.starts
      ensures id in s.claims
    {
      assert s.claims[id - 1] == id;
    }
  }

  /** A worker has claimed the task and not yet started its handler. */
  predicate WaitsWith(ws: Workers, w: nat, id: int) {
    w in ws && (ws[w].Committed? || ws[w].Loaded?) && ws[w].id == id
  }

  ghost predicate Awaited(s: System, id: int) {
    exists w :: WaitsWith(s.workers, w, id)
  }

  /** The step takes the claimed task from a worker that has not started it: its row cannot be read
      back, its type has no handler, or the worker crashes. */
  predicate LetsGo(s: System, a: Action, id: int) {
    (a.LoadFails? || a.Refuse? || a.Crash?) && WaitsWith(s.workers, a.w, id)
  }

  /** Some step of the run lets the task go. */
  ghost predicate Abandoned(s: System, acts: seq<Action>, id: int)
    requires ValidRun(s, acts)
    decreases |acts|
  {
    acts != [] && (LetsGo(s, acts[0], id) || Abandoned(Apply(s, acts[0]), acts[1..], id))
  }

  /** A claimed task is started, awaited or `gone`, and only one of these. */
  ghost predicate Fate(s: System, id: int, gone: bool) {
    id in s.claims ==>
      (id in s.starts <==> !gone && !Awaited(s, id)) && !(gone && Awaited(s, id))
  }

  lemma NewlyClaimed(s: System, a: Action)
    requires Inv(s) && a.Claim? && Enabled(s, a) && IsQueued(s.table, s.workers[a.w].id)
    ensures var id := s.workers[a.w].id;
            id !in s.claims && id !in s.starts && Awaited(Apply(s, a), id)
  {
    assert WaitsWith(Apply(s, a).workers, a.w, s.workers[a.w].id);
  }

  /** What one step does to the wait for a task. */
  lemma StepAwaits(s: System, a: Action, id: int)
    requires Inv(s) && Enabled(s, a) && id in s.claims
    ensures Awaited(Apply(s, a), id) <==> Awaited(s, id) && !LetsGo(s, a, id) && !(a.Begin? && s.workers[a.w].id == id)
  {
    var s' := Apply(s, a);
    forall w | WaitsWith(s'.workers, w, id)
      ensures WaitsWith(s.workers, w, id) && !LetsGo(s, a, id) && !(a.Begin? && s.workers[a.w].id == id)
    {
      if LetsGo(s, a, id) || (a.Begin? && s.workers[a.w].id == id) {
        assert Holds(s.workers, a.w) && Holds(s.workers, w);
      }
    }
    if Awaited(s, id) && !LetsGo(s, a, id) && !(a.Begin? && s.workers[a.w].id == id) {
      var w :| WaitsWith(s.workers, w, id);
      assert WaitsWith(s'.workers, w, id);
    }
  }

  lemma StepFate(s: System, a: Action, id: int, gone: bool)
    requires Inv(s) && Enabled(s, a) && Fate(s, id, gone) && (gone ==> id in s.claims)
    ensures Fate(Apply(s, a), id, gone || LetsGo(s, a, id))
    ensures gone || LetsGo(s, a, id) ==> id in Apply(s, a).claims
  {
    var s' := Apply(s, a);
    if LetsGo(s, a, id) {
      assert Holds(s.workers, a.w);
      assert s.claims[id - 1] == id;
      assert WaitsWith(s.workers, a.w, id);
    }
    if id in s.claims {
      StepAwaits(s, a, id);
      if a.Begin? {
        assert WaitsWith(s.workers, a.w, s.workers[a.w].id);
      }
    } else if id in s'.claims {
      NewlyClaimed(s, a);
    }
  }

  lemma {:induction false} RunFate(s: System, acts: seq<Action>, id: int, gone: bool)
    requires Inv(s) && ValidRun(s, acts) && Fate(s, id, gone) && (gone ==> id in s.claims)
    ensures Fate(After(s, acts), id, gone || Abandoned(s, acts, id))
    decreases |acts|
  {
    if acts != [] {
      StepKeeps(s, acts[0]);
      StepFate(s, acts[0], id, gone);
      RunFate(Apply(s, acts[0]), acts[1..], id, gone || LetsGo(s, acts[0], id));
    }
  }

  /** Which claimed tasks are started: once no worker is about to start it, a claimed task has been
      started if and only if no step of the run let it go before. */
  lemma StartedUnlessAbandoned(handlers: set<string>, acts: seq<Action>, id: int)
    requires ValidRun(Initial(handlers), acts)
    requires id in Reached(handlers, acts).claims && !Awaited(Reached(handlers, acts), id)
    ensures id in Reached(handlers, acts).starts <==> !Abandoned(Initial(handlers), acts, id)
  {
    InitialInv(handlers);
    RunFate(Initial(handlers), acts, id, false);
  }

  /** In every reachable state the queued rows are exactly the ids after the last claimed one. */
  lemma QueueIsSuffix(handlers: set<string>, acts: seq<Action>)
    requires ValidRun(Initial(handlers), acts)
    ensures var s := Reached(handlers, acts);
            var last := if s.claims == [] then 0 else s.claims[|s.claims| - 1];
            forall id :: IsQueued(s.table, id) <==> last < id <= s.table.lastId
  {
    ReachedInv(handlers, acts);
  }

  /** A claim step succeeds exactly when the selected id is still the first in the queue. */
  lemma ClaimTakesFirst(s: System, a: Action)
    requires Inv(s) && a.Claim? && Enabled(s, a)
    ensures Apply(s, a).claims == s.claims + [s.workers[a.w].id] <==> IsNext(s.table, Some(s.workers[a.w].id))
    ensures Apply(s, a).claims == s.claims || Apply(s, a).claims == s.claims + [s.workers[a.w].id]
  {
    var id := s.workers[a.w].id;
    assert |s.claims + [id]| == |s.claims| + 1;
    if IsQueued(s.table, id) {
      assert id == |s.claims| + 1;
    }
  }

  predicate SameKey(t: Table, a: int, b: int) {
    a in t.rows && b in t.rows && t.rows[a].key.Some? && t.rows[a].key == t.rows[b].key
  }

  /** Tasks with one idempotency key: at most one is active, and two workers never hold two of them. */
  lemma KeyExclusion(handlers: set<string>, acts: seq<Action>)
    requires ValidRun(Initial(handlers), acts)
    ensures var s := Reached(handlers, acts);
            && KeysOk(s.table)
            && forall v, w :: Holds(s.workers, v) && Holds(s.workers, w) && v != w
                 ==> !SameKey(s.table, Held(s.workers, v), Held(s.workers, w))
  {
    ReachedInv(handlers, acts);
  }

  /** Neither the progress CHECK nor the key index ever refuses the final write of a task. */
  lemma FinalWriteAccepted(handlers: set<string>, acts: seq<Action>, w: nat)
    requires ValidRun(Initial(handlers), acts)
    requires var ws := Reached(handlers, acts).workers; w in ws && (ws[w].Loaded? || ws[w].Executing?)
    ensures var s := Reached(handlers, acts);
            && StatusAccepted(s.table, s.workers[w].id, Failed, s.workers[w].progress)
            && StatusAccepted(s.table, s.workers[w].id, Success, 100)
  {
    ReachedInv(handlers, acts);
    assert Holds(Reached(handlers, acts).workers, w);
  }

  /** Column consistency of every row in every reachable state. */
  lemma RowsConsistent(handlers: set<string>, acts: seq<Action>, id: int)
    requires ValidRun(Initial(handlers), acts)
    requires id in Reached(handlers, acts).table.rows
    ensures RowOk(Reached(handlers, acts).table.rows[id])
  {
    ReachedInv(handlers, acts);
  }

  // ---------------------------------------------------------------------------
  // Lifecycle of one row
  // ---------------------------------------------------------------------------

  /** The order in which a status may move. */
  predicate Advances(from: Status, to: Status) {
    || from == to
    || from == Queued
    || (from == Running && to in {Success, Failed, Interrupted})
    || (from == Interrupted && to in {Success, Failed})
  }

  /** A later version of the same row: identity columns kept, status only forward, end time final. */
  predicate LaterVersion(r: Row, r': Row) {
    && (r'.taskNo, r'.taskType, r'.parameters, r'.agentId, r'.key, r'.createdAt, r'.queuedAt)
       == (r.taskNo, r.taskType, r.parameters, r.agentId, r.key, r.createdAt, r.queuedAt)
    && Advances(r.status, r'.status)
    && (r.startedAt.Some? ==> r'.startedAt == r.startedAt)
    && (r.status in {Success, Failed} ==> r' == r.(progress := r'.progress))
  }

  ghost predicate LaterTable(t: Table, t': Table) {
    forall id :: id in t.rows ==> id in t'.rows && LaterVersion(t.rows[id], t'.rows[id])
  }

  lemma FinalWriteAdvances(t: Table, id: int, progress: int, outcome: Outcome, written: bool, now: int)
    requires InProgress(t, id)
    ensures LaterTable(t, FinalWrite(t, id, progress, outcome, written, now))
  {
  }

  lemma StepAdvances(s: System, a: Action)
    requires Inv(s) && Enabled(s, a)
    ensures LaterTable(s.table, Apply(s, a).table)
  {
    match a {
      case Refuse(w, written, now) =>
        assert Holds(s.workers, w);
        FinalWriteAdvances(s.table, s.workers[w].id, s.workers[w].progress, NO_HANDLER, written, now);
      case Finish(w, outcome, written, now) =>
        assert Holds(s.workers, w);
        FinalWriteAdvances(s.table, s.workers[w].id, s.workers[w].progress, outcome, written, now);
      case _ =>
    }
  }

  lemma LaterTransitive(r: Row, r': Row, r'': Row)
    requires LaterVersion(r, r') && LaterVersion(r', r'')
    requires RowOk(r) && RowOk(r') && RowOk(r'')
    requires r''.status == Queued ==> r'.status == Queued
    ensures LaterVersion(r, r'')
  {
  }

  /** Over any run no row disappears, its identity never changes, its status only moves forward, and
      once it is finished nothing but its progress changes. */
  lemma {:induction false} RunAdvances(s: System, acts: seq<Action>)
    requires Inv(s) && ValidRun(s, acts)
    ensures LaterTable(s.table, After(s, acts).table)
    decreases |acts|
  {
    if acts != [] {
      var s' := Apply(s, acts[0]);
      StepKeeps(s, acts[0]);
      StepAdvances(s, acts[0]);
      RunAdvances(s', acts[1..]);
      RunKeeps(s', acts[1..]);
      var t'' := After(s', acts[1..]).table;
      forall id | id in s.table.rows
        ensures id in t''.rows && LaterVersion(s.table.rows[id], t''.rows[id])
      {
        LaterTransitive(s.table.rows[id], s'.table.rows[id], t''.rows[id]);
      }
    }
  }

  // ---------------------------------------------------------------------------
  // One server process: recovery runs before any worker
  // ---------------------------------------------------------------------------

  ghost predicate NobodyHolds(s: System) {
    forall w :: !Holds(s.workers, w)
  }

  /** A run in which recovery happens only while no worker holds a task. */
  ghost predicate QuietRun(s: System, acts: seq<Action>)
    requires ValidRun(s, acts)
    decreases |acts|
  {
    acts == [] || ((acts[0].Recover? ==> NobodyHolds(s)) && QuietRun(Apply(s, acts[0]), acts[1..]))
  }

  ghost predicate HeldRunning(s: System) {
    forall w :: Holds(s.workers, w) ==> Held(s.workers, w) in s.table.rows && s.table.rows[Held(s.workers, w)].status == Running
  }

  ghost predicate StaysInterrupted(t: Table, t': Table) {
    forall id :: id in t.rows && t.rows[id].status == Interrupted ==> id in t'.rows && t'.rows[id].status == Interrupted
  }

  lemma QuietInterrupted(s: System, a: Action)
    requires Inv(s) && HeldRunning(s) && Enabled(s, a)
    ensures StaysInterrupted(s.table, Apply(s, a).table)
  {
    if a.Finish? || a.Refuse? {
      assert Holds(s.workers, a.w);
    }
  }

  lemma QuietStep(s: System, a: Action)
    requires Inv(s) && HeldRunning(s) && Enabled(s, a)
    requires a.Recover? ==> NobodyHolds(s)
    ensures HeldRunning(Apply(s, a)) && StaysInterrupted(s.table, Apply(s, a).table)
  {
    QuietInterrupted(s, a);
    var s' := Apply(s, a);
    if a.Finish? || a.Refuse? || a.Load? || a.Begin? {
      assert Holds(s.workers, a.w);
    }
    forall w | Holds(s'.workers, w)
      ensures Held(s'.workers, w) in s'.table.rows && s'.table.rows[Held(s'.workers, w)].status == Running
    {
      if a.Claim? && w == a.w {
      } else {
        assert Holds(s.workers, w) && Held(s.workers, w) == Held(s'.workers, w);
      }
    }
  }

  /** With recovery only at start-up, an executing task is always still `running`, and an interrupted
      task stays interrupted whatever happens later: no step of the engine retries it. */
  lemma {:induction false} InterruptedIsFinal(s: System, acts: seq<Action>)
    requires Inv(s) && HeldRunning(s) && ValidRun(s, acts) && QuietRun(s, acts)
    ensures HeldRunning(After(s, acts)) && StaysInterrupted(s.table, After(s, acts).table)
    decreases |acts|
  {
    if acts != [] {
      StepKeeps(s, acts[0]);
      QuietStep(s, acts[0]);
      InterruptedIsFinal(Apply(s, acts[0]), acts[1..]);
    }
  }

  /** Hence the idempotency key of an interrupted task is never free again. */
  lemma InterruptedKeyIsLost(s: System, acts: seq<Action>, id: int, task: NewTask, nanos: nat)
    requires Inv(s) && HeldRunning(s) && ValidRun(s, acts) && QuietRun(s, acts)
    requires id in s.table.rows && s.table.rows[id].status == Interrupted && s.table.rows[id].key.Some?
    requires task.key == s.table.rows[id].key
    ensures !CanCreate(After(s, acts).table, task, nanos)
  {
    InterruptedIsFinal(s, acts);
    RunAdvances(s, acts);
    RunKeeps(s, acts);
    var t := After(s, acts).table;
    assert t.rows[id].key == task.key && Active(t.rows[id].status) && id != 0;
  }

  /** A restart after every lease has run out leaves no row running. */
  lemma RestartClearsRunning(s: System, now: int)
    requires Inv(s)
    requires forall id :: id in s.table.rows && s.table.rows[id].leaseExpires.Some? ==> s.table.rows[id].leaseExpires.value < now
    ensures forall id :: id in s.table.rows ==> Recovered(s.table, now).rows[id].status != Running
  {
  }

  lemma FirstCreated(task: NewTask, now: int)
    requires task.taskNo != ""
    ensures Created(EMPTY_TABLE, task, now, 0) == Table(map[1 := QueuedRow(task, now, 0)], 1)
    ensures IsNext(Created(EMPTY_TABLE, task, now, 0), Some(1))
  {
  }

  /** Execution is not exactly-once: if reading the claimed row back fails, the task stays running
      with nobody to execute it. */
  lemma ClaimedButNeverStarted(task: NewTask, owner: string, leaseSeconds: int, now: int)
    requires task.taskNo != ""
    ensures var acts := [Create(task, now, 0), Spawn(0), Select(0, Some(1)), Claim(0, owner, leaseSeconds, now), LoadFails(0)];
            && ValidRun(Initial({}), acts)
            && var s := Reached({}, acts);
               s.claims == [1] && s.starts == [] && NobodyHolds(s) && 1 in s.table.rows && s.table.rows[1].status == Running
  {
    FirstCreated(task, now);
    var s0 := Initial({});
    var s1 := Apply(s0, Create(task, now, 0));
    var s2 := Apply(s1, Spawn(0));
    var s3 := Apply(s2, Select(0, Some(1)));
    var s4 := Apply(s3, Claim(0, owner, leaseSeconds, now));
    var s5 := Apply(s4, LoadFails(0));
    var rest4 := [LoadFails(0)];
    var rest3 := [Claim(0, owner, leaseSeconds, now)] + rest4;
    var rest2 := [Select(0, Some(1))] + rest3;
    var rest1 := [Spawn(0)] + rest2;
    var rest0 := [Create(task, now, 0)] + rest1;
    FirstStep(s4, LoadFails(0), []);
    FirstStep(s3, Claim(0, owner, leaseSeconds, now), rest4);
    FirstStep(s2, Select(0, Some(1)), rest3);
    FirstStep(s1, Spawn(0), rest2);
    FirstStep(s0, Create(task, now, 0), rest1);
    assert rest4 == [LoadFails(0)] + [];
    assert rest0 == [Create(task, now, 0), Spawn(0), Select(0, Some(1)), Claim(0, owner, leaseSeconds, now), LoadFails(0)];
  }
}
