/** The archive objects: the job repository, the requests that create tasks, and the two handlers. */
module ArchiveService {
  import opened Options
  import opened Text
  import opened ArchiveJobs
  import ArchiveWhere
  import TaskEngine
  import TaskTable
  import TaskTheorems

  // ---------------------------------------------------------------------------
  // Idempotency keys
  // ---------------------------------------------------------------------------

  function RunKey(job: nat): string {
    "mysql.archive.run:" + Decimal(job)
  }

  function ControlKey(action: string, job: nat): string {
    action + ":" + Decimal(job)
  }

  lemma RunKeyInjective(a: nat, b: nat)
    requires RunKey(a) == RunKey(b)
    ensures a == b
  {
    var n := |"mysql.archive.run:"|;
    assert RunKey(a)[n..] == Decimal(a) && RunKey(b)[n..] == Decimal(b);
    DecimalInverse(a);
    DecimalInverse(b);
  }

  lemma ControlKeyInjective(action: string, a: nat, b: nat)
    requires ControlKey(action, a) == ControlKey(action, b)
    ensures a == b
  {
    var n := |action| + 1;
    assert ControlKey(action, a)[n..] == Decimal(a) && ControlKey(action, b)[n..] == Decimal(b);
    DecimalInverse(a);
    DecimalInverse(b);
  }

  predicate WorksOn(s: TaskEngine.System, w: nat, key: string) {
    && TaskEngine.Holds(s.workers, w) && TaskEngine.Held(s.workers, w) in s.table.rows
    && s.table.rows[TaskEngine.Held(s.workers, w)].key == Some(key)
  }

  /** In no reachable state of the task engine do two workers hold tasks with one key. What a task does
      depends on its type and parameters, not on its key. */
  lemma WorkersOfOneKeyExclude(handlers: set<string>, acts: seq<TaskEngine.Action>, v: nat, w: nat, key: string)
    requires TaskEngine.ValidRun(TaskEngine.Initial(handlers), acts)
    requires var s := TaskTheorems.Reached(handlers, acts); WorksOn(s, v, key) && WorksOn(s, w, key)
    ensures v == w
  {
    TaskTheorems.KeyExclusion(handlers, acts);
    var s := TaskTheorems.Reached(handlers, acts);
    assert TaskTheorems.SameKey(s.table, TaskEngine.Held(s.workers, v), TaskEngine.Held(s.workers, w));
  }

  /** A run that a crash interrupted keeps its key for good, so a resume of the job is always refused. */
  lemma InterruptedJobCannotResume(s: TaskEngine.System, acts: seq<TaskEngine.Action>, id: int, job: nat, task: TaskTable.NewTask, nanos: nat)
    requires TaskEngine.Inv(s) && TaskTheorems.HeldRunning(s) && TaskEngine.ValidRun(s, acts) && TaskTheorems.QuietRun(s, acts)
    requires id in s.table.rows && s.table.rows[id].status == TaskTable.Interrupted && s.table.rows[id].key == Some(RunKey(job))
    requires task.key == Some(RunKey(job))
    ensures !TaskTable.CanCreate(TaskEngine.After(s, acts).table, task, nanos)
  {
    TaskTheorems.InterruptedKeyIsLost(s, acts, id, task, nanos);
  }

  // ---------------------------------------------------------------------------
  // The repository
  // ---------------------------------------------------------------------------

  predicate SameExcept(t: map<int, Job>, t': map<int, Job>, id: int) {
    && (forall j | j in t :: j != id ==> j in t' && t'[j] == t[j])
    && (forall j | j in t' :: j in t)
    && (id in t ==> id in t')
  }

  class ArchiveJobRepo {
    var jobs: map<int, Job>
    var lastId: int

    ghost predicate Valid()
      reads this
    {
      0 <= lastId && forall id :: id in jobs ==> 1 <= id <= lastId
    }

    constructor ()
      ensures Valid() && jobs == map[]
    {
      jobs, lastId := map[], 0;
    }

    /** The status passed in is ignored: a new job is pending. */
    method Create(policyId: int) returns (id: int)
      requires Valid()
      modifies this
      ensures Valid()
      ensures id !in old(jobs) && id > 0
      ensures jobs == old(jobs)[id := Job(policyId, None, "pending", None, None, Counters(0, 0, 0, 0), 0, "", "", "", "")]
    {
      lastId := lastId + 1;
      jobs := jobs[lastId := NewJob(policyId)];
      id := lastId;
    }

    method AttachTask(id: int, taskId: int)
      requires Valid()
      modifies this`jobs
      ensures Valid()
      ensures jobs == if id in old(jobs) then old(jobs)[id := old(jobs)[id].(taskId := Some(taskId))] else old(jobs)
    {
      if id in jobs {
        jobs := jobs[id := jobs[id].(taskId := Some(taskId))];
      }
    }

    /** `accepted` is the database's answer. */
    method UpdateState(id: int, status: string, c: Counters, speed: int, lastKey: string, reason: string, error: string,
                       now: int, accepted: bool)
      requires Valid()
      modifies this`jobs
      ensures Valid()
      ensures jobs == if accepted && id in old(jobs)
                      then old(jobs)[id := StateUpdated(old(jobs)[id], status, c, speed, lastKey, reason, error, now)]
                      else old(jobs)
      ensures accepted && id in old(jobs) ==>
                var j, ends := old(jobs)[id], status == "success" || status == "failed" || status == "stopped";
                jobs[id] == Job(j.policyId, j.taskId, status, if j.startedAt.Some? then j.startedAt else Some(now),
                                if ends then Some(now) else j.finishedAt, c, speed, lastKey, reason,
                                if status == "success" then "verified" else if status == "failed" then "failed"
                                else if status == "stopped" then "" else j.verification, error)
    {
      if !accepted || id !in jobs {
        return;
      }
      var j := jobs[id];
      var startedAt := if j.startedAt.Some? then j.startedAt else Some(now);
      if status == "success" || status == "failed" || status == "stopped" {
        j := j.(finishedAt := Some(now), verification := VerificationStatus(status));
      }
      jobs := jobs[id := j.(status := status, startedAt := startedAt, counters := c, speed := speed, lastKey := lastKey,
                            pauseReason := reason, error := error)];
    }
  }

  // ---------------------------------------------------------------------------
  // Requests and handlers
  // ---------------------------------------------------------------------------

  predicate Resumable(status: string) {
    status == "paused" || status == "pause_requested" || status == "interrupted"
  }

  /** Answers of the agent and the other repositories to one run. */
  datatype RunInputs = RunInputs(
    ready: bool, resume: bool, resumeOk: bool, template: string, retentionDays: int, cutoff: string, paramsOk: bool,
    precheckOk: bool, precheckError: string, startOk: bool, startError: string, wellFormed: bool,
    state: string, delta: Counters, reason: string, time: int, later: int, firstWrite: bool, lastWrite: bool)

  datatype RunOutcome =
    | NoJob | NotReady | ResumeRefused | BadWhere(where: ArchiveWhere.Where) | BadParams
    | PrecheckFailed | StartFailed | BadResponse | NotWritten | Finished

  /** Everything before the precheck succeeded. */
  ghost predicate Prepared(input: RunInputs) {
    && input.ready && (input.resume ==> input.resumeOk)
    && ArchiveWhere.Materialize(input.template, input.retentionDays, input.cutoff).Ok? && input.paramsOk
  }

  /** The end of a run from the precheck on. */
  predicate IsEnd(input: RunInputs, r: RunOutcome) {
    && (r.PrecheckFailed? <==> !input.precheckOk)
    && (r.StartFailed? <==> input.precheckOk && !input.startOk)
    && (r.BadResponse? <==> input.precheckOk && input.startOk && !input.wellFormed)
    && (r.NotWritten? <==> input.precheckOk && input.startOk && input.wellFormed && !input.lastWrite)
    && (r.Finished? <==> input.precheckOk && input.startOk && input.wellFormed && input.lastWrite)
  }

  /** Which outcome the inputs of a run bring about; `found` says whether the job exists. */
  ghost predicate IsOutcome(found: bool, input: RunInputs, r: RunOutcome) {
    var where := ArchiveWhere.Materialize(input.template, input.retentionDays, input.cutoff);
    var resumed := found && input.ready && (input.resume ==> input.resumeOk);
    && (r.NoJob? <==> !found)
    && (r.NotReady? <==> found && !input.ready)
    && (r.ResumeRefused? <==> found && input.ready && input.resume && !input.resumeOk)
    && (r.BadWhere? <==> resumed && !where.Ok?)
    && (r.BadWhere? ==> r.where == where)
    && (r.BadParams? <==> resumed && where.Ok? && !input.paramsOk)
    && (if found && Prepared(input) then IsEnd(input, r)
        else !r.PrecheckFailed? && !r.StartFailed? && !r.BadResponse? && !r.NotWritten? && !r.Finished?)
  }

  /** The row after the first write of a run. */
  function Marked(j: Job, input: RunInputs): Job {
    if input.firstWrite then RunUpdate(j, j, "running", "", "", input.time) else j
  }

  /** The row a run leaves behind. */
  function RunLeaves(j: Job, input: RunInputs, r: RunOutcome): Job {
    match r
    case PrecheckFailed => if input.firstWrite then RunUpdate(j, j, "failed", j.pauseReason, input.precheckError, input.time) else j
    case StartFailed =>
      if input.lastWrite then RunUpdate(Marked(j, input), j, "failed", j.pauseReason, input.startError, input.later)
      else Marked(j, input)
    case BadResponse => Marked(j, input)
    case NotWritten => Marked(j, input)
    case Finished => FinalUpdate(Marked(j, input), j, input.state, input.delta, input.reason, input.later)
    case _ => j
  }

  /** Whatever the inputs, a run leaves the counters it found, plus the reported rows if and only if it
      got through every stage and its last write happened. */
  lemma RunAddsItsDelta(j: Job, input: RunInputs, r: RunOutcome)
    requires IsOutcome(true, input, r)
    ensures RunLeaves(j, input, r).counters ==
            if Prepared(input) && input.precheckOk && input.startOk && input.wellFormed && input.lastWrite
            then Plus(j.counters, input.delta) else j.counters
  {
  }

  lemma JobStateRunning(state: string)
    ensures JobState(state) == "running" <==> state == "running"
  {
    assert "success"[0] == 's' && "paused"[0] == 'p' && "stopped"[0] == 's' && "running"[0] == 'r';
  }

  lemma NotRunning()
    ensures "failed" != "running"
  {
    assert |"failed"| == 6;
  }

  /** A job that was not running is left `running` by its run if and only if the precheck passed and
      either the agent itself reported that state or the first write happened and no later one did: the
      start was refused and that could not be written, or it was not and the response was malformed or
      could not be written. */
  lemma LeftRunningIff(j: Job, input: RunInputs, r: RunOutcome)
    requires IsOutcome(true, input, r) && j.status != "running"
    ensures RunLeaves(j, input, r).status == "running" <==>
            Prepared(input) && input.precheckOk &&
            ((r.Finished? && input.state == "running")
             || (input.firstWrite && (if input.startOk then !input.wellFormed || !input.lastWrite else !input.lastWrite)))
  {
    JobStateRunning(input.state);
    NotRunning();
  }

  /** In particular a malformed response does: the run is over, and the job cannot be resumed directly; a
      pause request, which a running job accepts, makes it resumable. */
  lemma MalformedResponseLeavesRunning(policyId: int, input: RunInputs)
    requires Prepared(input) && input.precheckOk && input.startOk && !input.wellFormed && input.firstWrite
    ensures IsOutcome(true, input, BadResponse)
    ensures RunLeaves(NewJob(policyId), input, BadResponse).status == "running"
    ensures !Resumable(RunLeaves(NewJob(policyId), input, BadResponse).status)
    ensures forall j: Job, now: int :: Resumable(ControlUpdate(j, RunLeaves(NewJob(policyId), input, BadResponse), PAUSE, now).status)
  {
    assert PAUSE != STOP by {
      assert |PAUSE| == 19 && |STOP| == 18;
    }
    assert "running"[0] == 'r' && "paused"[0] == 'p' && "pause_requested"[0] == 'p' && "interrupted"[0] == 'i';
  }

  /** Column by column, what a run leaves of the row j, by its outcome. */
  predicate LeavesRow(j: Job, input: RunInputs, r: RunOutcome, j': Job) {
    match r
    case PrecheckFailed =>
      if input.firstWrite then
        j' == j.(status := "failed", startedAt := if j.startedAt.Some? then j.startedAt else Some(input.time),
                 finishedAt := Some(input.time), verification := "failed", error := input.precheckError)
      else j' == j
    case StartFailed =>
      if input.lastWrite then
        && j'.(startedAt := j.startedAt) == j.(status := "failed", finishedAt := Some(input.later), verification := "failed", error := input.startError)
        && j'.startedAt == StartedBy(j, input)
      else IsMarked(j, input, j')
    case BadResponse => IsMarked(j, input, j')
    case NotWritten => IsMarked(j, input, j')
    case Finished =>
      && j'.status == (if input.state == "" || input.state == "completed" then "success" else input.state)
      && j'.counters == Counters(j.counters.scanned + input.delta.scanned, j.counters.archived + input.delta.archived,
                                 j.counters.deleted + input.delta.deleted, j.counters.failed + input.delta.failed)
      && j'.speed == 0 && j'.lastKey == "" && j'.pauseReason == input.reason && j'.error == ""
      && j'.policyId == j.policyId && j'.taskId == j.taskId && j'.startedAt == StartedBy(j, input)
      && (j'.status == "success" || j'.status == "failed" || j'.status == "stopped" ==> j'.finishedAt == Some(input.later))
      && (j'.status == "success" ==> j'.verification == "verified")
    case _ => j' == j
  }

  /** The first write of a run that happens sets the start, unless there is one. */
  function StartedBy(j: Job, input: RunInputs): Option<int> {
    if j.startedAt.Some? then j.startedAt else if input.firstWrite then Some(input.time) else Some(input.later)
  }

  predicate IsMarked(j: Job, input: RunInputs, j': Job) {
    if input.firstWrite then
      j' == j.(status := "running", startedAt := if j.startedAt.Some? then j.startedAt else Some(input.time), pauseReason := "", error := "")
    else j' == j
  }

  lemma FailedRow()
    ensures Terminal("failed") && !Terminal("running") && VerificationStatus("failed") == "failed" && VerificationStatus("success") == "verified"
  {
    RequestsAreNotTerminal();
  }

  lemma MarkedRow(j: Job, input: RunInputs)
    ensures IsMarked(j, input, Marked(j, input))
  {
    FailedRow();
  }

  lemma FinishedRow(j: Job, input: RunInputs)
    ensures LeavesRow(j, input, Finished, RunLeaves(j, input, Finished))
  {
    FailedRow();
    var status := JobState(input.state);
    assert status == if input.state == "" || input.state == "completed" then "success" else input.state;
  }

  lemma RefusedStartRow(j: Job, input: RunInputs)
    ensures LeavesRow(j, input, StartFailed, RunLeaves(j, input, StartFailed))
  {
    FailedRow();
    MarkedRow(j, input);
  }

  /** The row of each outcome in plain columns. */
  lemma RunLeavesRow(j: Job, input: RunInputs, r: RunOutcome)
    ensures LeavesRow(j, input, r, RunLeaves(j, input, r))
  {
    match r {
      case Finished => FinishedRow(j, input);
      case StartFailed => RefusedStartRow(j, input);
      case PrecheckFailed => FailedRow();
      case _ => MarkedRow(j, input);
    }
  }

  class Service {
    const jobs: ArchiveJobRepo
    const tasks: TaskTable.TaskRepo

    constructor (jobs: ArchiveJobRepo, tasks: TaskTable.TaskRepo)
      ensures this.jobs == jobs && this.tasks == tasks
    {
      this.jobs, this.tasks := jobs, tasks;
    }

    /** A run task exists for the job afterwards, or nothing has changed. */
    method CreateRunTask(job: nat, parameters: string, agentId: int, now: int, nanos: nat) returns (task: Option<int>)
      requires jobs.Valid()
      modifies jobs`jobs, tasks
      ensures jobs.Valid()
      ensures var n := TaskTable.NewTask("", "mysql.archive.run", parameters, Some(agentId), Some("mysql.archive.run:" + Decimal(job)));
              && tasks.View() == TaskTable.Created(old(tasks.View()), n, now, nanos)
              && task == (if TaskTable.CanCreate(old(tasks.View()), n, nanos) then Some(old(tasks.lastId) + 1) else None)
      ensures jobs.jobs == if task.Some? && job in old(jobs.jobs)
                           then old(jobs.jobs)[job := old(jobs.jobs)[job].(taskId := task)] else old(jobs.jobs)
    {
      var key := "mysql.archive.run:" + Decimal(job);
      task := tasks.Create(TaskTable.NewTask("", "mysql.archive.run", parameters, Some(agentId), Some(key)), now, nanos);
      if task.Some? {
        jobs.AttachTask(job, task.value);
      }
    }

    /** A start adds a pending job even if its task is then refused. */
    method Start(confirmed: bool, enabled: bool, ready: bool, policyId: int, parameters: string, agentId: int, now: int, nanos: nat)
      returns (task: Option<int>)
      requires jobs.Valid()
      modifies jobs, tasks
      ensures jobs.Valid()
      ensures !(confirmed && enabled && ready) ==>
                task.None? && jobs.jobs == old(jobs.jobs) && tasks.View() == old(tasks.View())
      ensures confirmed && enabled && ready ==>
                exists id :: id > 0 && id !in old(jobs.jobs)
                  && jobs.jobs == old(jobs.jobs)[id := NewJob(policyId).(taskId := task)]
                  && (task.Some? ==> task.value in tasks.rows && tasks.rows[task.value].key == Some("mysql.archive.run:" + Decimal(id)))
    {
      if !confirmed || !enabled || !ready {
        return None;
      }
      var id := jobs.Create(policyId);
      task := CreateRunTask(id, parameters, agentId, now, nanos);
      assert task.Some? ==> tasks.rows[task.value].key == Some("mysql.archive.run:" + Decimal(id));
      assert jobs.jobs == old(jobs.jobs)[id := NewJob(policyId).(taskId := task)];
    }

    /** A resume is accepted only from a paused, pause-requested or interrupted job whose key is free. */
    method Resume(job: nat, ready: bool, parameters: string, agentId: int, now: int, nanos: nat) returns (task: Option<int>)
      requires jobs.Valid()
      modifies jobs`jobs, tasks
      ensures jobs.Valid()
      ensures var n := TaskTable.NewTask("", "mysql.archive.run", parameters, Some(agentId), Some("mysql.archive.run:" + Decimal(job)));
              task.Some? <==> job in old(jobs.jobs) && ready
                              && (old(jobs.jobs)[job].status == "paused" || old(jobs.jobs)[job].status == "pause_requested"
                                  || old(jobs.jobs)[job].status == "interrupted")
                              && TaskTable.CanCreate(old(tasks.View()), n, nanos)
      ensures task.None? ==> jobs.jobs == old(jobs.jobs) && tasks.View() == old(tasks.View())
      ensures task.Some? ==> jobs.jobs == old(jobs.jobs)[job := old(jobs.jobs)[job].(taskId := task)]
    {
      if job !in jobs.jobs {
        return None;
      }
      var status := jobs.jobs[job].status;
      if status != "paused" && status != "pause_requested" && status != "interrupted" {
        return None;
      }
      if !ready {
        return None;
      }
      task := CreateRunTask(job, parameters, agentId, now, nanos);
    }

    /** A control request is accepted only for a pause or stop of a running or pause-requested job whose
        control key is free. */
    method Control(job: nat, action: string, policyOk: bool, ready: bool, parameters: string, agentId: int, now: int, nanos: nat)
      returns (task: Option<int>)
      modifies tasks
      ensures var n := TaskTable.NewTask("", "mysql.archive.control", parameters, Some(agentId), Some(action + ":" + Decimal(job)));
              var accepted := (action == "mysql.archive.pause" || action == "mysql.archive.stop") && policyOk && job in jobs.jobs && ready
                              && (jobs.jobs[job].status == "running" || jobs.jobs[job].status == "pause_requested");
              && (task.Some? <==> accepted && TaskTable.CanCreate(old(tasks.View()), n, nanos))
              && tasks.View() == if accepted then TaskTable.Created(old(tasks.View()), n, now, nanos) else old(tasks.View())
    {
      if action != "mysql.archive.pause" && action != "mysql.archive.stop" {
        return None;
      }
      if !policyOk || job !in jobs.jobs {
        return None;
      }
      var status := jobs.jobs[job].status;
      if status != "running" && status != "pause_requested" {
        return None;
      }
      if !ready {
        return None;
      }
      task := tasks.Create(TaskTable.NewTask("", "mysql.archive.control", parameters, Some(agentId), Some(action + ":" + Decimal(job))), now, nanos);
    }

    /** One run with no other handler of the job in between. */
    method RunHandler(job: int, input: RunInputs) returns (r: RunOutcome)
      requires jobs.Valid()
      modifies jobs`jobs
      ensures jobs.Valid() && SameExcept(old(jobs.jobs), jobs.jobs, job)
      ensures IsOutcome(job in old(jobs.jobs), input, r)
      ensures job in old(jobs.jobs) ==> jobs.jobs[job] == RunLeaves(old(jobs.jobs)[job], input, r)
      ensures job in old(jobs.jobs) ==> LeavesRow(old(jobs.jobs)[job], input, r, jobs.jobs[job])
    {
      if job !in jobs.jobs {
        return NoJob;
      }
      var read := jobs.jobs[job];
      if !input.ready {
        return NotReady;
      }
      if input.resume && !input.resumeOk {
        return ResumeRefused;
      }
      var where := ArchiveWhere.MaterializeWhere(input.template, input.retentionDays, input.cutoff);
      if !where.Ok? {
        return BadWhere(where);
      }
      if !input.paramsOk {
        return BadParams;
      }
      r := Execute(job, read, input);
      RunLeavesRow(read, input, r);
    }

    static method JobStateFor(state: string) returns (jobState: string)
      ensures jobState == JobState(state)
      ensures jobState == if state == "" || state == "completed" then "success" else state
    {
      jobState := "success";
      match state {
        case "paused" => jobState := "paused";
        case "stopped" => jobState := "stopped";
        case "completed" => jobState := "success";
        case "" => jobState := "success";
        case _ => jobState := state;
      }
    }

    /** From the precheck on. */
    method Execute(job: int, read: Job, input: RunInputs) returns (r: RunOutcome)
      requires jobs.Valid() && job in jobs.jobs && jobs.jobs[job] == read
      modifies jobs`jobs
      ensures jobs.Valid() && SameExcept(old(jobs.jobs), jobs.jobs, job)
      ensures jobs.jobs[job] == RunLeaves(read, input, r)
      ensures IsEnd(input, r)
    {
      if !input.precheckOk {
        jobs.UpdateState(job, "failed", read.counters, read.speed, read.lastKey, read.pauseReason, input.precheckError, input.time, input.firstWrite);
        return PrecheckFailed;
      }
      jobs.UpdateState(job, "running", read.counters, read.speed, read.lastKey, "", "", input.time, input.firstWrite);
      assert jobs.jobs[job] == Marked(read, input);
      r := Conclude(job, read, input);
    }

    /** From the start of the archiver on; the row may have been marked running. */
    method Conclude(job: int, read: Job, input: RunInputs) returns (r: RunOutcome)
      requires jobs.Valid() && job in jobs.jobs && jobs.jobs[job] == Marked(read, input) && input.precheckOk
      modifies jobs`jobs
      ensures jobs.Valid() && SameExcept(old(jobs.jobs), jobs.jobs, job)
      ensures jobs.jobs[job] == RunLeaves(read, input, r)
      ensures IsEnd(input, r)
    {
      if !input.startOk {
        jobs.UpdateState(job, "failed", read.counters, read.speed, read.lastKey, read.pauseReason, input.startError, input.later, input.lastWrite);
        return StartFailed;
      }
      if !input.wellFormed {
        return BadResponse;
      }
      var total := Counters(read.counters.scanned + input.delta.scanned, read.counters.archived + input.delta.archived,
                            read.counters.deleted + input.delta.deleted, read.counters.failed + input.delta.failed);
      var jobState := JobStateFor(input.state);
      jobs.UpdateState(job, jobState, total, 0, "", input.reason, "", input.later, input.lastWrite);
      if !input.lastWrite {
        return NotWritten;
      }
      return Finished;
    }

    /** One control handler, for whatever action its task names, with no other handler of the job in
        between. `policyOk` says whether the action is known and confirmed as it must be. */
    method ControlHandler(job: int, action: string, ready: bool, policyOk: bool, dispatchOk: bool, now: int, accepted: bool) returns (ok: bool)
      requires jobs.Valid()
      modifies jobs`jobs
      ensures jobs.Valid() && SameExcept(old(jobs.jobs), jobs.jobs, job)
      ensures ok <==> job in old(jobs.jobs) && ready && policyOk && dispatchOk
      ensures job in old(jobs.jobs) ==>
                jobs.jobs[job] == if ok && accepted then ControlUpdate(old(jobs.jobs)[job], old(jobs.jobs)[job], action, now) else old(jobs.jobs)[job]
      ensures job in old(jobs.jobs) && !(ok && accepted) ==> jobs.jobs[job] == old(jobs.jobs)[job]
      ensures job in old(jobs.jobs) && ok && accepted ==>
                var j, j' := old(jobs.jobs)[job], jobs.jobs[job];
                && j'.status == (if action == "mysql.archive.pause" then "pause_requested"
                                 else if action == "mysql.archive.stop" then "stop_requested" else j.status)
                && j'.pauseReason == (if action == "mysql.archive.pause" then "operator requested pause"
                                      else if action == "mysql.archive.stop" then "operator requested stop" else j.pauseReason)
                && j'.counters == j.counters && j'.speed == j.speed && j'.lastKey == j.lastKey && j'.error == ""
    {
      if job !in jobs.jobs {
        return false;
      }
      var read := jobs.jobs[job];
      if !ready || !policyOk || !dispatchOk {
        return false;
      }
      var next, reason := read.status, read.pauseReason;
      if action == "mysql.archive.pause" {
        next, reason := "pause_requested", "operator requested pause";
      }
      if action == "mysql.archive.stop" {
        next, reason := "stop_requested", "operator requested stop";
      }
      jobs.UpdateState(job, next, read.counters, read.speed, read.lastKey, reason, "", now, accepted);
      return true;
    }
  }

  // ---------------------------------------------------------------------------
  // The handlers as runs of the step system
  // ---------------------------------------------------------------------------

  /** The steps an undisturbed run takes after reading the job, by its outcome. */
  function RunSteps(w: nat, input: RunInputs, r: RunOutcome): seq<Action> {
    var mark := Writes(w, MarkRunning, input.time, input.firstWrite);
    var finish := Finish(input.state, input.delta, input.reason);
    match r
    case PrecheckFailed => [Writes(w, Fail(input.precheckError), input.time, input.firstWrite)]
    case StartFailed => [mark, Writes(w, Fail(input.startError), input.later, input.lastWrite)]
    case BadResponse => [mark, Aborts(w)]
    case NotWritten => [mark, Writes(w, finish, input.later, false)]
    case Finished => [mark, Writes(w, finish, input.later, true)]
    case _ => [Aborts(w)]
  }

  lemma OneStep(s: System, a: Action)
    requires Enabled(s, a)
    ensures ValidRun(s, [a]) && After(s, [a]) == Apply(s, a)
  {
    assert [a] == [a] + [];
    FirstStep(s, a, []);
  }

  lemma TwoSteps(s: System, a: Action, b: Action)
    requires Enabled(s, a) && Enabled(Apply(s, a), b)
    ensures ValidRun(s, [a, b]) && After(s, [a, b]) == Apply(Apply(s, a), b)
  {
    OneStep(Apply(s, a), b);
    assert [a, b] == [a] + [b];
    FirstStep(s, a, [b]);
  }

  /** The first write leaves the handler as it was, with the row it read. */
  lemma MarkStep(s: System, w: nat, input: RunInputs)
    requires w in s.handlers && s.handlers[w].kind.Running? && s.handlers[w].job in s.jobs
    requires s.handlers[w].read == s.jobs[s.handlers[w].job]
    ensures var mark := Writes(w, MarkRunning, input.time, input.firstWrite);
            && Enabled(s, mark)
            && w in Apply(s, mark).handlers && s.handlers[w].job in Apply(s, mark).jobs
            && Apply(s, mark).handlers[w].kind == Running && Apply(s, mark).handlers[w].job == s.handlers[w].job
            && Apply(s, mark).handlers[w].read == s.handlers[w].read
            && Apply(s, mark).jobs[s.handlers[w].job] == Marked(s.handlers[w].read, input)
  {
  }

  /** What the handler object leaves behind is what its steps leave behind. */
  lemma RunIsSteps(s: System, w: nat, input: RunInputs, r: RunOutcome)
    requires w in s.handlers && s.handlers[w].kind.Running? && s.handlers[w].job in s.jobs
    requires s.handlers[w].read == s.jobs[s.handlers[w].job]
    requires IsOutcome(true, input, r)
    ensures ValidRun(s, RunSteps(w, input, r))
    ensures s.handlers[w].job in After(s, RunSteps(w, input, r)).jobs
    ensures After(s, RunSteps(w, input, r)).jobs[s.handlers[w].job] == RunLeaves(s.handlers[w].read, input, r)
  {
    var steps := RunSteps(w, input, r);
    if |steps| == 1 {
      OneStep(s, steps[0]);
    } else {
      MarkStep(s, w, input);
      TwoSteps(s, steps[0], steps[1]);
    }
  }
}
