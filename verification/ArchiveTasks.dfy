/** Archive handlers under the task engine: the type of a task picks the handler, its parameters name the
    job, and its idempotency key plays no part once it is created. */
module ArchiveTasks {
  import opened Options
  import opened TaskTable
  import opened Text
  import T = TaskEngine
  import Theorems = TaskTheorems
  import A = ArchiveJobs
  import S = ArchiveService

  const RUN_TYPE := "mysql.archive.run"
  const CONTROL_TYPE := "mysql.archive.control"

  /** What the handlers read from a task's parameters, and how they decode them. */
  datatype Params = Params(job: int, action: string)

  type Decoder = string -> Option<Params>

  datatype Work = Work(kind: A.Kind, job: int)

  function WorkOf(taskType: string, parameters: string, decode: Decoder): Option<Work> {
    match decode(parameters)
    case None => None
    case Some(ps) =>
      if taskType == RUN_TYPE then Some(Work(A.Running, ps.job))
      else if taskType == CONTROL_TYPE then Some(Work(A.Controlling(ps.action), ps.job))
      else None
  }

  /** The worker executes a task that calls for this work. */
  predicate Does(s: T.System, decode: Decoder, w: nat, work: Work) {
    && w in s.workers && s.workers[w].Executing? && s.workers[w].id in s.table.rows
    && WorkOf(s.table.rows[s.workers[w].id].taskType, s.table.rows[s.workers[w].id].parameters, decode) == Some(work)
  }

  datatype Product = Product(tasks: T.System, jobs: A.System)

  function Start(handlers: set<string>): Product {
    Product(T.Initial(handlers), A.INITIAL)
  }

  datatype Action = Task(t: T.Action) | Archive(a: A.Action)

  /** A handler starts whenever its worker executes a task of its type; a worker finishes its task only
      after its handler has returned. Processes end by crashing worker by worker. */
  ghost predicate Enabled(p: Product, decode: Decoder, act: Action) {
    match act
    case Task(t) => T.Enabled(p.tasks, t) && (t.Finish? ==> t.w !in p.jobs.handlers)
    case Archive(a) =>
      A.Enabled(p.jobs, a) && !a.Crash? && (a.Reads? ==> Does(p.tasks, decode, a.w, Work(a.kind, a.job)))
  }

  /** What the step does to the job rows and their handlers: a crash ends the handler of its worker. */
  function JobStep(p: Product, act: Action): Option<A.Action> {
    match act
    case Task(t) => if t.Crash? && t.w in p.jobs.handlers then Some(A.Aborts(t.w)) else None
    case Archive(a) => Some(a)
  }

  ghost function Apply(p: Product, decode: Decoder, act: Action): Product
    requires Enabled(p, decode, act)
  {
    Product(if act.Task? then T.Apply(p.tasks, act.t) else p.tasks,
            match JobStep(p, act) case Some(a) => A.Apply(p.jobs, a) case None => p.jobs)
  }

  ghost predicate ValidRun(p: Product, decode: Decoder, acts: seq<Action>)
    decreases |acts|
  {
    acts == [] || (Enabled(p, decode, acts[0]) && ValidRun(Apply(p, decode, acts[0]), decode, acts[1..]))
  }

  ghost function After(p: Product, decode: Decoder, acts: seq<Action>): Product
    requires ValidRun(p, decode, acts)
    decreases |acts|
  {
    if acts == [] then p else After(Apply(p, decode, acts[0]), decode, acts[1..])
  }

  // ---------------------------------------------------------------------------
  // The totals, whatever tasks there are
  // ---------------------------------------------------------------------------

  ghost predicate ExactThroughout(p: Product, decode: Decoder, acts: seq<Action>)
    requires ValidRun(p, decode, acts)
    decreases |acts|
  {
    A.JobsExact(p.jobs) && (acts == [] || ExactThroughout(Apply(p, decode, acts[0]), decode, acts[1..]))
  }

  predicate UpToDate(p: Product, act: Action) {
    act.Archive? ==> A.UpToDate(p.jobs, act.a)
  }

  ghost predicate UpToDateThroughout(p: Product, decode: Decoder, acts: seq<Action>)
    requires ValidRun(p, decode, acts)
    decreases |acts|
  {
    acts == [] || (UpToDate(p, acts[0]) && UpToDateThroughout(Apply(p, decode, acts[0]), decode, acts[1..]))
  }

  lemma JobsStep(p: Product, decode: Decoder, act: Action)
    requires A.KeysOk(p.jobs) && Enabled(p, decode, act)
    ensures A.KeysOk(Apply(p, decode, act).jobs)
    ensures A.JobsExact(p.jobs) && A.AllTrace(p.jobs) ==>
              A.AllTrace(Apply(p, decode, act).jobs) && (A.JobsExact(Apply(p, decode, act).jobs) <==> UpToDate(p, act))
  {
    match JobStep(p, act) {
      case Some(a) =>
        A.KeysKept(p.jobs, a);
        if A.JobsExact(p.jobs) && A.AllTrace(p.jobs) {
          A.TracesKept(p.jobs, a);
          A.StepExactIff(p.jobs, a);
        }
      case None =>
    }
  }

  lemma {:induction false} ThroughoutIff(p: Product, decode: Decoder, acts: seq<Action>)
    requires A.KeysOk(p.jobs) && A.JobsExact(p.jobs) && A.AllTrace(p.jobs) && ValidRun(p, decode, acts)
    ensures ExactThroughout(p, decode, acts) <==> UpToDateThroughout(p, decode, acts)
    decreases |acts|
  {
    if acts != [] {
      JobsStep(p, decode, acts[0]);
      var p' := Apply(p, decode, acts[0]);
      if A.JobsExact(p'.jobs) {
        ThroughoutIff(p', decode, acts[1..]);
      } else {
        assert !ExactThroughout(p', decode, acts[1..]);
      }
    }
  }

  /** Under any interleaving of the task engine's workers, crashes and restarts with the handlers they
      run, whatever tasks were created and with whatever keys: in every state each job's counters are the
      sums of the deltas of the runs whose final write happened, if and only if every write of a run or
      control handler is up to date. */
  lemma TotalsConservedIff(handlers: set<string>, decode: Decoder, acts: seq<Action>)
    requires ValidRun(Start(handlers), decode, acts)
    ensures ExactThroughout(Start(handlers), decode, acts) <==> UpToDateThroughout(Start(handlers), decode, acts)
  {
    ThroughoutIff(Start(handlers), decode, acts);
  }

  // ---------------------------------------------------------------------------
  // Tasks that carry their job's key
  // ---------------------------------------------------------------------------

  function KeyOf(work: Work): string
    requires work.job >= 0
  {
    match work.kind
    case Running => S.RunKey(work.job)
    case Controlling(action) => S.ControlKey(action, work.job)
  }

  /** What can be checked when a task is created: if it calls for archive work, it carries the job's key. */
  predicate Keyed(decode: Decoder, taskType: string, parameters: string, key: Option<string>) {
    var work := WorkOf(taskType, parameters, decode);
    work.Some? && work.value.job >= 0 ==> key == Some(KeyOf(work.value))
  }

  predicate KeyedTask(decode: Decoder, n: NewTask) {
    Keyed(decode, n.taskType, OrEmptyObject(n.parameters), n.key)
  }

  /** Tasks created by the archive service are such tasks. */
  lemma ServiceTasksAreKeyed(decode: Decoder, parameters: string, agentId: int, job: nat, action: string)
    requires parameters != ""
    ensures decode(parameters) == Some(Params(job, action)) ==>
              && WorkOf("mysql.archive.run", parameters, decode) == Some(Work(A.Running, job))
              && WorkOf("mysql.archive.control", parameters, decode) == Some(Work(A.Controlling(action), job))
              && KeyedTask(decode, NewTask("", "mysql.archive.run", parameters, Some(agentId), Some("mysql.archive.run:" + Decimal(job))))
              && KeyedTask(decode, NewTask("", "mysql.archive.control", parameters, Some(agentId), Some(action + ":" + Decimal(job))))
  {
    assert RUN_TYPE[14] == 'r' && CONTROL_TYPE[14] == 'c';
  }

  predicate CreatesKeyed(decode: Decoder, act: Action) {
    act.Task? && act.t.Create? ==> KeyedTask(decode, act.t.task)
  }

  ghost predicate RowsKeyed(t: Table, decode: Decoder) {
    forall id :: id in t.rows ==> Keyed(decode, t.rows[id].taskType, t.rows[id].parameters, t.rows[id].key)
  }

  /** Every handler is inside a worker that executes a task calling for it. */
  ghost predicate HandlersWork(p: Product, decode: Decoder) {
    forall w :: w in p.jobs.handlers ==> Does(p.tasks, decode, w, Work(p.jobs.handlers[w].kind, p.jobs.handlers[w].job))
  }

  predicate SameWork(h: A.Handler, h': A.Handler) {
    h.kind == h'.kind && h.job == h'.job
  }

  /** No two handlers of one kind work on one job. */
  ghost predicate Exclusive(s: A.System) {
    forall v, w :: v in s.handlers && w in s.handlers && SameWork(s.handlers[v], s.handlers[w]) ==> v == w
  }

  ghost predicate RunsFresh(s: A.System) {
    forall w :: w in s.handlers && s.handlers[w].kind.Running? ==> s.handlers[w].since == A.ZERO
  }

  ghost predicate Inv(p: Product, decode: Decoder) {
    && T.Inv(p.tasks) && RowsKeyed(p.tasks.table, decode)
    && A.KeysOk(p.jobs) && HandlersWork(p, decode) && RunsFresh(p.jobs)
  }

  lemma TwoWorkersTwoKeys(s: T.System, decode: Decoder, v: nat, w: nat, work: Work)
    requires T.Inv(s) && RowsKeyed(s.table, decode) && work.job >= 0
    requires Does(s, decode, v, work) && Does(s, decode, w, work)
    ensures v == w
  {
    assert T.Holds(s.workers, v) && T.Holds(s.workers, w);
    assert s.table.rows[s.workers[v].id].key == s.table.rows[s.workers[w].id].key == Some(KeyOf(work));
  }

  lemma HandlersExclude(p: Product, decode: Decoder)
    requires Inv(p, decode)
    ensures Exclusive(p.jobs)
  {
    var hs := p.jobs.handlers;
    forall v, w | v in hs && w in hs && SameWork(hs[v], hs[w])
      ensures v == w
    {
      assert hs[v].job in p.jobs.jobs;
      TwoWorkersTwoKeys(p.tasks, decode, v, w, Work(hs[v].kind, hs[v].job));
    }
  }

  lemma RowsStayKeyed(s: T.System, t: T.Action, decode: Decoder)
    requires T.Inv(s) && T.Enabled(s, t) && RowsKeyed(s.table, decode)
    requires t.Create? ==> KeyedTask(decode, t.task)
    ensures RowsKeyed(T.Apply(s, t).table, decode)
  {
    Theorems.StepAdvances(s, t);
    var s' := T.Apply(s, t);
    forall id | id in s'.table.rows
      ensures Keyed(decode, s'.table.rows[id].taskType, s'.table.rows[id].parameters, s'.table.rows[id].key)
    {
      if id in s.table.rows {
        assert Theorems.LaterVersion(s.table.rows[id], s'.table.rows[id]);
      }
    }
  }

  /** A worker keeps executing its task until it finishes or crashes. */
  lemma StillDoes(s: T.System, t: T.Action, decode: Decoder, w: nat, work: Work)
    requires T.Inv(s) && T.Enabled(s, t) && Does(s, decode, w, work)
    requires (t.Finish? || t.Crash?) ==> t.w != w
    ensures Does(T.Apply(s, t), decode, w, work)
  {
    Theorems.StepAdvances(s, t);
    assert Theorems.LaterVersion(s.table.rows[s.workers[w].id], T.Apply(s, t).table.rows[s.workers[w].id]);
  }

  lemma TaskKeepsWork(p: Product, decode: Decoder, t: T.Action)
    requires T.Inv(p.tasks) && HandlersWork(p, decode) && Enabled(p, decode, Task(t))
    ensures HandlersWork(Apply(p, decode, Task(t)), decode)
  {
    var p' := Apply(p, decode, Task(t));
    forall w | w in p'.jobs.handlers
      ensures Does(p'.tasks, decode, w, Work(p'.jobs.handlers[w].kind, p'.jobs.handlers[w].job))
    {
      StillDoes(p.tasks, t, decode, w, Work(p.jobs.handlers[w].kind, p.jobs.handlers[w].job));
    }
  }

  lemma ArchiveKeepsWork(p: Product, decode: Decoder, a: A.Action)
    requires HandlersWork(p, decode) && Enabled(p, decode, Archive(a))
    ensures HandlersWork(Apply(p, decode, Archive(a)), decode)
  {
    var p' := Apply(p, decode, Archive(a));
    forall w | w in p'.jobs.handlers
      ensures Does(p'.tasks, decode, w, Work(p'.jobs.handlers[w].kind, p'.jobs.handlers[w].job))
    {
      if !(a.Reads? && a.w == w) {
        assert Does(p.tasks, decode, w, Work(p.jobs.handlers[w].kind, p.jobs.handlers[w].job));
      }
    }
  }

  /** What a step does to a handler that goes on: it only ages, by the delta of another handler's write. */
  lemma HandlerAges(s: A.System, a: A.Action, w: nat)
    requires A.Enabled(s, a) && w in s.handlers && w in A.Apply(s, a).handlers && !(a.Reads? && a.w == w)
    ensures var h, h' := s.handlers[w], A.Apply(s, a).handlers[w];
            && SameWork(h, h')
            && (h'.since == h.since
                || (a.Writes? && s.handlers[a.w].job == h.job && h'.since == A.Plus(h.since, A.DeltaOf(a.update))))
  {
  }

  /** Only a run's final write has a delta, and then no other run of the job is under way. */
  lemma NoneAges(s: A.System, a: A.Action, w: nat)
    requires A.Enabled(s, a) && Exclusive(s) && a.Writes? && w in s.handlers && w in A.Apply(s, a).handlers
    requires s.handlers[w].kind.Running? && s.handlers[a.w].job == s.handlers[w].job
    ensures A.DeltaOf(a.update) == A.ZERO
  {
    if a.update.Finish? {
      assert SameWork(s.handlers[a.w], s.handlers[w]);
    }
  }

  lemma StaysFresh(s: A.System, a: A.Action)
    requires A.Enabled(s, a) && RunsFresh(s) && Exclusive(s)
    ensures RunsFresh(A.Apply(s, a))
  {
    var hs := A.Apply(s, a).handlers;
    forall w | w in hs && hs[w].kind.Running?
      ensures hs[w].since == A.ZERO
    {
      if !(a.Reads? && a.w == w) {
        HandlerAges(s, a, w);
        if hs[w].since != s.handlers[w].since {
          NoneAges(s, a, w);
        }
      }
    }
  }

  lemma StepKeeps(p: Product, decode: Decoder, act: Action)
    requires Inv(p, decode) && Enabled(p, decode, act) && CreatesKeyed(decode, act)
    ensures Inv(Apply(p, decode, act), decode)
  {
    HandlersExclude(p, decode);
    JobsStep(p, decode, act);
    match JobStep(p, act) {
      case Some(a) => StaysFresh(p.jobs, a);
      case None =>
    }
    match act {
      case Task(t) =>
        T.StepKeeps(p.tasks, t);
        RowsStayKeyed(p.tasks, t, decode);
        TaskKeepsWork(p, decode, t);
      case Archive(a) => ArchiveKeepsWork(p, decode, a);
    }
  }

  predicate AllKeyed(decode: Decoder, acts: seq<Action>) {
    forall i :: 0 <= i < |acts| ==> CreatesKeyed(decode, acts[i])
  }

  lemma {:induction false} RunKeeps(p: Product, decode: Decoder, acts: seq<Action>)
    requires Inv(p, decode) && ValidRun(p, decode, acts) && AllKeyed(decode, acts)
    ensures Inv(After(p, decode, acts), decode)
    decreases |acts|
  {
    if acts != [] {
      assert CreatesKeyed(decode, acts[0]);
      StepKeeps(p, decode, acts[0]);
      RestKeyed(decode, acts);
      RunKeeps(Apply(p, decode, acts[0]), decode, acts[1..]);
    }
  }

  lemma RestKeyed(decode: Decoder, acts: seq<Action>)
    requires acts != [] && AllKeyed(decode, acts)
    ensures AllKeyed(decode, acts[1..])
  {
    forall i | 0 <= i < |acts[1..]|
      ensures CreatesKeyed(decode, acts[1..][i])
    {
      assert acts[1..][i] == acts[i + 1];
    }
  }

  lemma StartOk(handlers: set<string>, decode: Decoder)
    ensures Inv(Start(handlers), decode)
  {
    T.InitialInv(handlers);
  }

  /** If every created task that calls for archive work carries its job's key, no two runs of a job and no
      two control handlers of one action for a job are ever under way together. */
  lemma KeyedHandlersExclude(handlers: set<string>, decode: Decoder, acts: seq<Action>)
    requires ValidRun(Start(handlers), decode, acts) && AllKeyed(decode, acts)
    ensures Exclusive(After(Start(handlers), decode, acts).jobs)
  {
    StartOk(handlers, decode);
    RunKeeps(Start(handlers), decode, acts);
    HandlersExclude(After(Start(handlers), decode, acts), decode);
  }

  predicate ControlWrite(act: Action) {
    act.Archive? && act.a.Writes? && act.a.update.Request?
  }

  /** The control writes of the run are up to date. */
  ghost predicate ControlsUpToDate(p: Product, decode: Decoder, acts: seq<Action>)
    requires ValidRun(p, decode, acts)
    decreases |acts|
  {
    acts == [] || ((ControlWrite(acts[0]) ==> UpToDate(p, acts[0]))
                   && ControlsUpToDate(Apply(p, decode, acts[0]), decode, acts[1..]))
  }

  lemma OnlyControlsAge(p: Product, decode: Decoder, act: Action)
    requires Enabled(p, decode, act) && RunsFresh(p.jobs) && !ControlWrite(act)
    ensures UpToDate(p, act)
  {
  }

  lemma {:induction false} RunWritesUpToDate(p: Product, decode: Decoder, acts: seq<Action>)
    requires Inv(p, decode) && ValidRun(p, decode, acts) && AllKeyed(decode, acts)
    ensures ControlsUpToDate(p, decode, acts) <==> UpToDateThroughout(p, decode, acts)
    decreases |acts|
  {
    if acts != [] {
      assert CreatesKeyed(decode, acts[0]);
      StepKeeps(p, decode, acts[0]);
      RestKeyed(decode, acts);
      if !ControlWrite(acts[0]) {
        OnlyControlsAge(p, decode, acts[0]);
      }
      RunWritesUpToDate(Apply(p, decode, acts[0]), decode, acts[1..]);
    }
  }

  /** With such tasks only control writes can spoil the totals: they are exact in every state if and only
      if no run of a job writes rows, on balance, between a control handler's read and its write. */
  lemma KeyedTotalsConservedIff(handlers: set<string>, decode: Decoder, acts: seq<Action>)
    requires ValidRun(Start(handlers), decode, acts) && AllKeyed(decode, acts)
    ensures ExactThroughout(Start(handlers), decode, acts) <==> ControlsUpToDate(Start(handlers), decode, acts)
  {
    StartOk(handlers, decode);
    TotalsConservedIff(handlers, decode, acts);
    RunWritesUpToDate(Start(handlers), decode, acts);
  }

  // ---------------------------------------------------------------------------
  // Tasks without a key
  // ---------------------------------------------------------------------------

  function Tasks(ts: seq<T.Action>): seq<Action> {
    seq(|ts|, i requires 0 <= i < |ts| => Task(ts[i]))
  }

  function Archives(steps: seq<A.Action>): seq<Action> {
    seq(|steps|, i requires 0 <= i < |steps| => Archive(steps[i]))
  }

  /** Without handlers a run of the task engine is a run of the product. */
  lemma {:induction false} TasksLift(p: Product, decode: Decoder, ts: seq<T.Action>, rest: seq<Action>)
    requires p.jobs.handlers == map[] && T.ValidRun(p.tasks, ts)
    requires ValidRun(p.(tasks := T.After(p.tasks, ts)), decode, rest)
    ensures ValidRun(p, decode, Tasks(ts) + rest)
    ensures After(p, decode, Tasks(ts) + rest) == After(p.(tasks := T.After(p.tasks, ts)), decode, rest)
    decreases |ts|
  {
    if ts == [] {
      assert Tasks(ts) + rest == rest;
    } else {
      var p' := p.(tasks := T.Apply(p.tasks, ts[0]));
      assert Apply(p, decode, Task(ts[0])) == p';
      TasksLift(p', decode, ts[1..], rest);
      assert Tasks(ts) + rest == [Task(ts[0])] + (Tasks(ts[1..]) + rest);
      assert ([Task(ts[0])] + (Tasks(ts[1..]) + rest))[1..] == Tasks(ts[1..]) + rest;
    }
  }

  ghost predicate Called(s: T.System, decode: Decoder, steps: seq<A.Action>) {
    forall i :: 0 <= i < |steps| ==>
      !steps[i].Crash? && (steps[i].Reads? ==> Does(s, decode, steps[i].w, Work(steps[i].kind, steps[i].job)))
  }

  /** While the workers execute tasks that call for its handlers, a run of the archive is a run of the product. */
  lemma {:induction false} ArchiveLifts(p: Product, decode: Decoder, steps: seq<A.Action>)
    requires A.ValidRun(p.jobs, steps) && Called(p.tasks, decode, steps)
    ensures ValidRun(p, decode, Archives(steps))
    ensures After(p, decode, Archives(steps)) == p.(jobs := A.After(p.jobs, steps))
    decreases |steps|
  {
    if steps != [] {
      var p' := p.(jobs := A.Apply(p.jobs, steps[0]));
      assert Called(p.tasks, decode, [steps[0]] + steps[1..]);
      assert Enabled(p, decode, Archive(steps[0])) && Apply(p, decode, Archive(steps[0])) == p';
      forall i | 0 <= i < |steps[1..]|
        ensures !steps[1..][i].Crash?
        ensures steps[1..][i].Reads? ==> Does(p.tasks, decode, steps[1..][i].w, Work(steps[1..][i].kind, steps[1..][i].job))
      {
        assert steps[1..][i] == steps[i + 1];
      }
      ArchiveLifts(p', decode, steps[1..]);
      assert Archives(steps)[1..] == Archives(steps[1..]);
    }
  }

  /** A claim, the read-back and the start of the handler. */
  function Executing(w: nat, id: int): seq<T.Action> {
    [T.Select(w, Some(id)), T.Claim(w, "", 60, 0), T.Load(w), T.Begin(w)]
  }

  lemma OneExecutes(s: T.System, w: nat, id: int)
    requires w in s.workers && s.workers[w].Idle? && IsNext(s.table, Some(id)) && s.table.rows[id].taskType in s.handlers
    ensures T.ValidRun(s, Executing(w, id))
    ensures var s' := T.After(s, Executing(w, id));
            && s'.table == Claimed(s.table, id, "", 60, 0) && s'.handlers == s.handlers
            && s'.workers == s.workers[w := T.Executing(id, s.table.rows[id].progress)]
  {
    var s1 := T.Apply(s, T.Select(w, Some(id)));
    var s2 := T.Apply(s1, T.Claim(w, "", 60, 0));
    var s3 := T.Apply(s2, T.Load(w));
    T.FirstStep(s3, T.Begin(w), []);
    T.FirstStep(s2, T.Load(w), [T.Begin(w)] + []);
    T.FirstStep(s1, T.Claim(w, "", 60, 0), [T.Load(w)] + ([T.Begin(w)] + []));
    T.FirstStep(s, T.Select(w, Some(id)), [T.Claim(w, "", 60, 0)] + ([T.Load(w)] + ([T.Begin(w)] + [])));
    assert Executing(w, id) == [T.Select(w, Some(id))] + ([T.Claim(w, "", 60, 0)] + ([T.Load(w)] + ([T.Begin(w)] + [])));
    assert s2.workers == s.workers[w := T.Committed(id)];
  }

  /** A task as it can be posted: archive work without a key. */
  function Posted(taskNo: string, parameters: string): NewTask {
    NewTask(taskNo, "mysql.archive.run", parameters, None, None)
  }

  function Setup(a: string, b: string, parameters: string): seq<T.Action> {
    [T.Create(Posted(a, parameters), 0, 0), T.Create(Posted(b, parameters), 0, 0), T.Spawn(0), T.Spawn(1)]
  }

  lemma BothQueued(a: string, b: string, parameters: string)
    requires a != "" && b != "" && a != b
    ensures var t := Created(Created(EMPTY_TABLE, Posted(a, parameters), 0, 0), Posted(b, parameters), 0, 0);
            && t == Table(map[1 := QueuedRow(Posted(a, parameters), 0, 0), 2 := QueuedRow(Posted(b, parameters), 0, 0)], 2)
            && IsNext(t, Some(1)) && IsNext(Claimed(t, 1, "", 60, 0), Some(2))
  {
    var t1 := Created(EMPTY_TABLE, Posted(a, parameters), 0, 0);
    assert t1 == Table(map[1 := QueuedRow(Posted(a, parameters), 0, 0)], 1);
  }

  lemma SetupRun(handlers: set<string>, a: string, b: string, parameters: string)
    requires a != "" && b != "" && a != b
    ensures T.ValidRun(T.Initial(handlers), Setup(a, b, parameters))
    ensures var s := T.After(T.Initial(handlers), Setup(a, b, parameters));
            && s.table == Created(Created(EMPTY_TABLE, Posted(a, parameters), 0, 0), Posted(b, parameters), 0, 0)
            && s.workers == map[0 := T.Idle, 1 := T.Idle] && s.handlers == handlers
  {
    var s0 := T.Initial(handlers);
    var s1 := T.Apply(s0, T.Create(Posted(a, parameters), 0, 0));
    var s2 := T.Apply(s1, T.Create(Posted(b, parameters), 0, 0));
    var s3 := T.Apply(s2, T.Spawn(0));
    T.FirstStep(s3, T.Spawn(1), []);
    T.FirstStep(s2, T.Spawn(0), [T.Spawn(1)] + []);
    T.FirstStep(s1, T.Create(Posted(b, parameters), 0, 0), [T.Spawn(0)] + ([T.Spawn(1)] + []));
    T.FirstStep(s0, T.Create(Posted(a, parameters), 0, 0),
                [T.Create(Posted(b, parameters), 0, 0)] + ([T.Spawn(0)] + ([T.Spawn(1)] + [])));
    assert Setup(a, b, parameters) == [T.Create(Posted(a, parameters), 0, 0)]
        + ([T.Create(Posted(b, parameters), 0, 0)] + ([T.Spawn(0)] + ([T.Spawn(1)] + [])));
  }

  /** Two posted tasks with the same parameters and no key: two workers execute both. */
  lemma BothExecute(handlers: set<string>, decode: Decoder, a: string, b: string, parameters: string, job: int) returns (ts: seq<T.Action>)
    requires a != "" && b != "" && a != b && parameters != "" && "mysql.archive.run" in handlers
    requires decode(parameters).Some? && decode(parameters).value.job == job
    ensures ts == Setup(a, b, parameters) + (Executing(0, 1) + Executing(1, 2)) && T.ValidRun(T.Initial(handlers), ts)
    ensures var s := T.After(T.Initial(handlers), ts);
            Does(s, decode, 0, Work(A.Running, job)) && Does(s, decode, 1, Work(A.Running, job))
  {
    BothQueued(a, b, parameters);
    SetupRun(handlers, a, b, parameters);
    var s := T.After(T.Initial(handlers), Setup(a, b, parameters));
    OneExecutes(s, 0, 1);
    var s' := T.After(s, Executing(0, 1));
    OneExecutes(s', 1, 2);
    T.RunsCompose(s, Executing(0, 1), Executing(1, 2));
    T.RunsCompose(T.Initial(handlers), Setup(a, b, parameters), Executing(0, 1) + Executing(1, 2));
    ts := Setup(a, b, parameters) + (Executing(0, 1) + Executing(1, 2));
  }

  /** Then both handlers read the job before either writes, and the second final write forgets the rows
      of the first: the totals are wrong for every delta of the first run but the empty one. */
  lemma KeylessTasksLose(handlers: set<string>, decode: Decoder, a: string, b: string, parameters: string, policyId: int,
                         delta: A.Counters, second: A.Counters, now: int) returns (acts: seq<Action>)
    requires a != "" && b != "" && a != b && parameters != "" && "mysql.archive.run" in handlers
    requires decode(parameters).Some? && decode(parameters).value.job == 1 && delta != A.ZERO
    ensures ValidRun(Start(handlers), decode, acts)
    ensures var s := After(Start(handlers), decode, acts).jobs;
            && 1 in s.jobs && s.jobs[1].counters == second && A.Total(s, 1) == A.Plus(delta, second) && !A.Exact(s, 1)
  {
    var ts := BothExecute(handlers, decode, a, b, parameters, 1);
    var update := A.Finish("completed", second, "");
    var steps := A.Straddled(policyId, A.Running, delta, update, now);
    A.StraddledWriteLoses(policyId, A.Running, delta, update, now);
    var p := Start(handlers).(tasks := T.After(T.Initial(handlers), ts));
    ArchiveLifts(p, decode, steps);
    TasksLift(Start(handlers), decode, ts, Archives(steps));
    acts := Tasks(ts) + Archives(steps);
  }
}
