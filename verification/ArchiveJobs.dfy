/** Archive job totals: the job row, the handlers that read it and write it back, and what their
    interleavings do to the counters. Times are whole seconds. */
module ArchiveJobs {
  import opened Options

  datatype Counters = Counters(scanned: int, archived: int, deleted: int, failed: int)

  const ZERO := Counters(0, 0, 0, 0)

  function Plus(a: Counters, b: Counters): Counters {
    Counters(a.scanned + b.scanned, a.archived + b.archived, a.deleted + b.deleted, a.failed + b.failed)
  }

  predicate AtMost(a: Counters, b: Counters) {
    a.scanned <= b.scanned && a.archived <= b.archived && a.deleted <= b.deleted && a.failed <= b.failed
  }

  datatype Job = Job(
    policyId: int, taskId: Option<int>, status: string, startedAt: Option<int>, finishedAt: Option<int>,
    counters: Counters, speed: int, lastKey: string, pauseReason: string, verification: string, error: string)

  function NewJob(policyId: int): Job {
    Job(policyId, None, "pending", None, None, ZERO, 0, "", "", "", "")
  }

  // ---------------------------------------------------------------------------
  // The row update
  // ---------------------------------------------------------------------------

  predicate Terminal(status: string) {
    status == "success" || status == "failed" || status == "stopped"
  }

  function VerificationStatus(status: string): string {
    if status == "success" then "verified" else if status == "failed" then "failed" else ""
  }

  /** UPDATE of one row: a terminal status also sets the end time and the verification. */
  function StateUpdated(j: Job, status: string, c: Counters, speed: int, lastKey: string, reason: string, error: string, now: int): Job {
    var j' := j.(status := status, startedAt := if j.startedAt.Some? then j.startedAt else Some(now),
                 counters := c, speed := speed, lastKey := lastKey, pauseReason := reason, error := error);
    if Terminal(status) then j'.(finishedAt := Some(now), verification := VerificationStatus(status)) else j'
  }

  /** The job status for the state an agent reports. */
  function JobState(state: string): string {
    match state
    case "paused" => "paused"
    case "stopped" => "stopped"
    case "completed" => "success"
    case "" => "success"
    case _ => state
  }

  const PAUSE := "mysql.archive.pause"
  const STOP := "mysql.archive.stop"

  /** A control handler requests a pause or a stop, and writes back the status it read for any other action. */
  function ControlStatus(action: string, read: Job): string {
    if action == STOP then "stop_requested" else if action == PAUSE then "pause_requested" else read.status
  }

  function ControlReason(action: string, read: Job): string {
    if action == STOP then "operator requested stop" else if action == PAUSE then "operator requested pause" else read.pauseReason
  }

  // ---------------------------------------------------------------------------
  // Interleaved handlers
  // ---------------------------------------------------------------------------

  datatype Kind = Running | Controlling(action: string)

  /** A handler under way: the job it works on, the row it read, and the deltas that other handlers of
      the job have written since. */
  datatype Handler = Handler(kind: Kind, job: int, read: Job, since: Counters)

  /** Any number of handlers, each inside its own worker; nothing here keeps two off one job. `totals`
      adds up the deltas of the runs whose final write happened; neither it nor `since` is read by any step. */
  datatype System = System(jobs: map<int, Job>, lastId: int, handlers: map<nat, Handler>, totals: map<int, Counters>)

  const INITIAL := System(map[], 0, map[], map[])

  /** The row updates of a run, and that of a control handler. */
  datatype Update =
    | MarkRunning
    | Fail(error: string)
    | Finish(state: string, delta: Counters, reason: string)
    | Request

  /** `written` is false when the database refuses a write whose error the handler ignores or returns. */
  datatype Action =
    | CreateJob(policyId: int)
    | Attach(job: int, taskId: int)
    | Reads(w: nat, kind: Kind, job: int)
    | Writes(w: nat, update: Update, now: int, written: bool)
    | Aborts(w: nat)
    | Crash

  predicate Enabled(s: System, a: Action) {
    match a
    case CreateJob(_) => true
    case Attach(job, _) => job in s.jobs
    case Reads(w, _, job) => w !in s.handlers && job in s.jobs
    case Writes(w, update, _, _) => w in s.handlers && (update.Request? <==> s.handlers[w].kind.Controlling?)
    case Aborts(w) => w in s.handlers
    case Crash => true
  }

  function RunUpdate(j: Job, read: Job, status: string, reason: string, error: string, now: int): Job {
    StateUpdated(j, status, read.counters, read.speed, read.lastKey, reason, error, now)
  }

  function FinalUpdate(j: Job, read: Job, state: string, delta: Counters, reason: string, now: int): Job {
    StateUpdated(j, JobState(state), Plus(read.counters, delta), 0, "", reason, "", now)
  }

  function ControlUpdate(j: Job, read: Job, action: string, now: int): Job {
    StateUpdated(j, ControlStatus(action, read), read.counters, read.speed, read.lastKey, ControlReason(action, read), "", now)
  }

  function Updated(j: Job, h: Handler, update: Update, now: int): Job {
    match update
    case MarkRunning => RunUpdate(j, h.read, "running", "", "", now)
    case Fail(error) => RunUpdate(j, h.read, "failed", h.read.pauseReason, error, now)
    case Finish(state, delta, reason) => FinalUpdate(j, h.read, state, delta, reason, now)
    case Request => ControlUpdate(j, h.read, if h.kind.Controlling? then h.kind.action else "", now)
  }

  function DeltaOf(update: Update): Counters {
    if update.Finish? then update.delta else ZERO
  }

  /** Every handler of the job that has read the row now lacks this delta. */
  function Aged(handlers: map<nat, Handler>, job: int, delta: Counters): map<nat, Handler> {
    map w | w in handlers ::
      if handlers[w].job == job then handlers[w].(since := Plus(handlers[w].since, delta)) else handlers[w]
  }

  function Total(s: System, job: int): Counters {
    if job in s.totals then s.totals[job] else ZERO
  }

  /** Only marking the job running leaves the handler under way. */
  function Left(handlers: map<nat, Handler>, w: nat, update: Update): map<nat, Handler> {
    if update.MarkRunning? then handlers else handlers - {w}
  }

  function Apply(s: System, a: Action): System
    requires Enabled(s, a)
  {
    match a
    case CreateJob(policyId) =>
      s.(jobs := s.jobs[s.lastId + 1 := NewJob(policyId)], lastId := s.lastId + 1, totals := s.totals[s.lastId + 1 := ZERO])
    case Attach(job, taskId) => s.(jobs := s.jobs[job := s.jobs[job].(taskId := Some(taskId))])
    case Reads(w, kind, job) => s.(handlers := s.handlers[w := Handler(kind, job, s.jobs[job], ZERO)])
    case Writes(w, update, now, written) =>
      var h := s.handlers[w];
      var left := Left(s.handlers, w, update);
      if written && h.job in s.jobs then
        s.(jobs := s.jobs[h.job := Updated(s.jobs[h.job], h, update, now)],
           totals := s.totals[h.job := Plus(Total(s, h.job), DeltaOf(update))],
           handlers := Aged(left, h.job, DeltaOf(update)))
      else s.(handlers := left)
    case Aborts(w) => s.(handlers := s.handlers - {w})
    case Crash => s.(handlers := map[])
  }

  ghost predicate ValidRun(s: System, acts: seq<Action>)
    decreases |acts|
  {
    acts == [] || (Enabled(s, acts[0]) && ValidRun(Apply(s, acts[0]), acts[1..]))
  }

  ghost function After(s: System, acts: seq<Action>): System
    requires ValidRun(s, acts)
    decreases |acts|
  {
    if acts == [] then s else After(Apply(s, acts[0]), acts[1..])
  }

  /** A run is its first step and the run after it. */
  lemma FirstStep(s: System, a: Action, rest: seq<Action>)
    requires Enabled(s, a) && ValidRun(Apply(s, a), rest)
    ensures ValidRun(s, [a] + rest) && After(s, [a] + rest) == After(Apply(s, a), rest)
  {
    assert ([a] + rest)[1..] == rest;
  }

  // ---------------------------------------------------------------------------
  // When a write is exact
  // ---------------------------------------------------------------------------

  ghost predicate KeysOk(s: System) {
    && s.jobs.Keys == s.totals.Keys && s.lastId >= 0
    && (forall job :: job in s.jobs ==> 1 <= job <= s.lastId)
    && forall w :: w in s.handlers ==> s.handlers[w].job in s.jobs
  }

  /** The stored counters are the sum of the written deltas. */
  predicate Exact(s: System, job: int) {
    job in s.jobs && s.jobs[job].counters == Total(s, job)
  }

  /** The handler lacks exactly the deltas written since it read; so it is if it read exact counters. */
  predicate Traces(s: System, w: nat) {
    w in s.handlers && Plus(s.handlers[w].read.counters, s.handlers[w].since) == Total(s, s.handlers[w].job)
  }

  lemma KeysKept(s: System, a: Action)
    requires KeysOk(s) && Enabled(s, a)
    ensures KeysOk(Apply(s, a))
  {
    var s' := Apply(s, a);
    assert forall job :: job in s.jobs <==> job in s.totals.Keys;
    if a.Writes? && a.written && s.handlers[a.w].job in s.jobs {
      assert s'.jobs.Keys == s.jobs.Keys && s'.totals.Keys == s.totals.Keys;
    }
  }

  lemma UpdatedCounters(j: Job, h: Handler, update: Update, now: int)
    ensures Updated(j, h, update, now).counters == Plus(h.read.counters, DeltaOf(update))
  {
  }

  /** Whatever the state: a write makes the job's counters exact if and only if the deltas written since
      its handler read sum to nothing. This holds of runs and of control handlers alike. */
  lemma WriteExactIff(s: System, w: nat, update: Update, now: int)
    requires KeysOk(s) && Enabled(s, Writes(w, update, now, true)) && Traces(s, w)
    ensures Exact(Apply(s, Writes(w, update, now, true)), s.handlers[w].job) <==> s.handlers[w].since == ZERO
  {
    var h := s.handlers[w];
    UpdatedCounters(s.jobs[h.job], h, update, now);
  }

  /** The handler neither ends nor is ended by the step. */
  predicate GoesOn(a: Action, w: nat) {
    !a.Crash? && (a.Aborts? ==> a.w != w) && (a.Writes? ==> a.w != w || a.update.MarkRunning?)
  }

  lemma StepTraces(s: System, a: Action, w: nat)
    requires KeysOk(s) && Enabled(s, a) && Traces(s, w) && GoesOn(a, w)
    ensures Traces(Apply(s, a), w) && Apply(s, a).handlers[w].job == s.handlers[w].job
    ensures Apply(s, a).handlers[w].kind == s.handlers[w].kind && Apply(s, a).handlers[w].read == s.handlers[w].read
  {
    assert s.handlers[w].job in s.jobs && s.lastId + 1 !in s.jobs;
  }

  /** A handler that read exact counters keeps track of the total, whatever is written meanwhile. */
  lemma {:induction false} RunTraces(s: System, acts: seq<Action>, w: nat)
    requires KeysOk(s) && ValidRun(s, acts) && Traces(s, w)
    requires forall i :: 0 <= i < |acts| ==> GoesOn(acts[i], w)
    ensures KeysOk(After(s, acts)) && Traces(After(s, acts), w)
    ensures After(s, acts).handlers[w].job == s.handlers[w].job && After(s, acts).handlers[w].kind == s.handlers[w].kind
    decreases |acts|
  {
    if acts != [] {
      assert GoesOn(acts[0], w);
      KeysKept(s, acts[0]);
      StepTraces(s, acts[0], w);
      forall i | 0 <= i < |acts[1..]|
        ensures GoesOn(acts[1..][i], w)
      {
        assert acts[1..][i] == acts[i + 1];
      }
      RunTraces(Apply(s, acts[0]), acts[1..], w);
    }
  }

  /** So a handler that read exact counters leaves exact ones, even if others spoiled them meanwhile, if
      and only if no rows were written, on balance, between its read and its write. */
  lemma HandlerLeavesExactIff(s: System, read: Action, acts: seq<Action>, write: Action)
    requires KeysOk(s) && read.Reads? && Enabled(s, read) && Exact(s, read.job)
    requires ValidRun(Apply(s, read), acts) && forall i :: 0 <= i < |acts| ==> GoesOn(acts[i], read.w)
    requires write.Writes? && write.w == read.w && write.written && (write.update.Request? <==> read.kind.Controlling?)
    ensures var s' := After(Apply(s, read), acts);
            && read.w in s'.handlers && Enabled(s', write)
            && (Exact(Apply(s', write), read.job) <==> s'.handlers[read.w].since == ZERO)
  {
    KeysKept(s, read);
    assert Traces(Apply(s, read), read.w);
    RunTraces(Apply(s, read), acts, read.w);
    WriteExactIff(After(Apply(s, read), acts), write.w, write.update, write.now);
  }

  // ---------------------------------------------------------------------------
  // Conservation over runs
  // ---------------------------------------------------------------------------

  ghost predicate JobsExact(s: System) {
    forall job :: job in s.jobs ==> Exact(s, job)
  }

  ghost predicate AllTrace(s: System) {
    forall w :: w in s.handlers ==> Traces(s, w)
  }

  /** A write that happens is up to date: nothing was written since its handler read. */
  predicate UpToDate(s: System, a: Action) {
    a.Writes? && a.written && a.w in s.handlers ==> s.handlers[a.w].since == ZERO
  }

  lemma TracesKept(s: System, a: Action)
    requires KeysOk(s) && JobsExact(s) && AllTrace(s) && Enabled(s, a)
    ensures AllTrace(Apply(s, a))
  {
    var s' := Apply(s, a);
    forall w | w in s'.handlers
      ensures Traces(s', w)
    {
      if a.Reads? && a.w == w {
        assert Exact(s, a.job);
      } else {
        assert w in s.handlers && Traces(s, w);
        StepTraces(s, a, w);
      }
    }
  }

  /** From an exact state, a step keeps all jobs exact if and only if the write it makes is up to date. */
  lemma StepExactIff(s: System, a: Action)
    requires KeysOk(s) && JobsExact(s) && AllTrace(s) && Enabled(s, a)
    ensures JobsExact(Apply(s, a)) <==> UpToDate(s, a)
  {
    var s' := Apply(s, a);
    assert s.lastId + 1 !in s.jobs;
    var written := a.Writes? && a.written;
    if written {
      assert Traces(s, a.w);
      WriteExactIff(s, a.w, a.update, a.now);
      assert s.handlers[a.w].job in s'.jobs;
    }
    forall job | job in s'.jobs && !(written && job == s.handlers[a.w].job)
      ensures Exact(s', job)
    {
      if job in s.jobs {
        assert Exact(s, job);
      }
    }
  }

  ghost predicate ExactThroughout(s: System, acts: seq<Action>)
    requires ValidRun(s, acts)
    decreases |acts|
  {
    JobsExact(s) && (acts == [] || ExactThroughout(Apply(s, acts[0]), acts[1..]))
  }

  ghost predicate UpToDateThroughout(s: System, acts: seq<Action>)
    requires ValidRun(s, acts)
    decreases |acts|
  {
    acts == [] || (UpToDate(s, acts[0]) && UpToDateThroughout(Apply(s, acts[0]), acts[1..]))
  }

  lemma {:induction false} ThroughoutIff(s: System, acts: seq<Action>)
    requires KeysOk(s) && JobsExact(s) && AllTrace(s) && ValidRun(s, acts)
    ensures ExactThroughout(s, acts) <==> UpToDateThroughout(s, acts)
    decreases |acts|
  {
    if acts != [] {
      KeysKept(s, acts[0]);
      TracesKept(s, acts[0]);
      StepExactIff(s, acts[0]);
      var s' := Apply(s, acts[0]);
      if JobsExact(s') {
        ThroughoutIff(s', acts[1..]);
      } else {
        assert !ExactThroughout(s', acts[1..]);
      }
    }
  }

  /** Over any interleaving of runs and control handlers, overlapping or not, with failures and crashes:
      each job's stored counters are the sums of the deltas of the runs whose final write happened, in
      every state, if and only if every write that happens is up to date. */
  lemma TotalsConservedIff(acts: seq<Action>)
    requires ValidRun(INITIAL, acts)
    ensures ExactThroughout(INITIAL, acts) <==> UpToDateThroughout(INITIAL, acts)
  {
    ThroughoutIff(INITIAL, acts);
  }

  lemma {:induction false} ExactAtTheEnd(s: System, acts: seq<Action>)
    requires ValidRun(s, acts) && ExactThroughout(s, acts)
    ensures JobsExact(After(s, acts))
    decreases |acts|
  {
    if acts != [] {
      ExactAtTheEnd(Apply(s, acts[0]), acts[1..]);
    }
  }

  lemma TotalsConserved(acts: seq<Action>, job: int)
    requires ValidRun(INITIAL, acts) && UpToDateThroughout(INITIAL, acts) && job in After(INITIAL, acts).jobs
    ensures Exact(After(INITIAL, acts), job)
  {
    TotalsConservedIff(acts);
    ExactAtTheEnd(INITIAL, acts);
  }

  // ---------------------------------------------------------------------------
  // Runs that lose rows
  // ---------------------------------------------------------------------------

  /** The steps of a run that finishes while another handler of the job is between its read and its write. */
  function Straddled(policyId: int, kind: Kind, delta: Counters, update: Update, now: int): seq<Action> {
    [CreateJob(policyId), Reads(0, Running, 1), Reads(1, kind, 1), Writes(0, Finish("completed", delta, ""), now, true),
     Writes(1, update, now, true)]
  }

  /** Two handlers of a new job have read it. */
  function BothRead(policyId: int, kind: Kind): System {
    var j := NewJob(policyId);
    System(map[1 := j], 1, map[0 := Handler(Running, 1, j, ZERO), 1 := Handler(kind, 1, j, ZERO)], map[1 := ZERO])
  }

  lemma BothReadReached(policyId: int, kind: Kind, rest: seq<Action>)
    requires ValidRun(BothRead(policyId, kind), rest)
    ensures var acts := [CreateJob(policyId), Reads(0, Running, 1), Reads(1, kind, 1)] + rest;
            ValidRun(INITIAL, acts) && After(INITIAL, acts) == After(BothRead(policyId, kind), rest)
  {
    var s1 := Apply(INITIAL, CreateJob(policyId));
    var s2 := Apply(s1, Reads(0, Running, 1));
    assert Apply(s2, Reads(1, kind, 1)) == BothRead(policyId, kind);
    FirstStep(s2, Reads(1, kind, 1), rest);
    FirstStep(s1, Reads(0, Running, 1), [Reads(1, kind, 1)] + rest);
    FirstStep(INITIAL, CreateJob(policyId), [Reads(0, Running, 1)] + ([Reads(1, kind, 1)] + rest));
    assert [CreateJob(policyId), Reads(0, Running, 1), Reads(1, kind, 1)] + rest
        == [CreateJob(policyId)] + ([Reads(0, Running, 1)] + ([Reads(1, kind, 1)] + rest));
  }

  /** What a write that happens changes. */
  lemma WriteEffect(s: System, w: nat, update: Update, now: int)
    requires Enabled(s, Writes(w, update, now, true)) && s.handlers[w].job in s.jobs
    ensures var s' := Apply(s, Writes(w, update, now, true));
            var job := s.handlers[w].job;
            && job in s'.jobs && s'.jobs[job] == Updated(s.jobs[job], s.handlers[w], update, now)
            && job in s'.totals && s'.totals[job] == Plus(Total(s, job), DeltaOf(update))
            && forall v :: v in s.handlers && v != w && s.handlers[v].job == job ==>
                 v in s'.handlers && s'.handlers[v] == s.handlers[v].(since := Plus(s.handlers[v].since, DeltaOf(update)))
  {
  }

  lemma KeepsEnd(j: Job, h: Handler, update: Update, now: int)
    requires j.finishedAt == Some(now)
    ensures Updated(j, h, update, now).finishedAt == Some(now)
  {
  }

  /** A control write on a job read as pending keeps the end and the verification, whatever its action. */
  lemma RequestReopens(j: Job, action: string, read: Job, now: int)
    requires read.status == "pending"
    ensures var j' := ControlUpdate(j, read, action, now);
            j'.status == ControlStatus(action, read) && j'.finishedAt == j.finishedAt && j'.verification == j.verification
  {
    RequestsAreNotTerminal();
    assert |"pending"| == 7 && "pending"[0] == 'p';
  }

  lemma FinishEnds(j: Job, h: Handler, delta: Counters, now: int)
    ensures Updated(j, h, Finish("completed", delta, ""), now).finishedAt == Some(now)
    ensures Updated(j, h, Finish("completed", delta, ""), now).verification == "verified"
  {
    CompletedIsTerminal();
  }

  /** The other handler's write forgets the run's rows, every delta but the empty one: whether it is a
      control handler or a second run of the job. */
  lemma StraddledWriteLoses(policyId: int, kind: Kind, delta: Counters, update: Update, now: int)
    requires delta != ZERO && (update.Request? <==> kind.Controlling?)
    ensures var acts := Straddled(policyId, kind, delta, update, now);
            && ValidRun(INITIAL, acts)
            && var s := After(INITIAL, acts);
               && 1 in s.totals && s.totals[1] == Plus(delta, DeltaOf(update))
               && 1 in s.jobs && s.jobs[1].counters == DeltaOf(update) && !Exact(s, 1)
               && s.jobs[1].finishedAt == Some(now)
               && (update.Request? ==>
                     s.jobs[1].status == ControlStatus(kind.action, NewJob(policyId)) && s.jobs[1].verification == "verified")
  {
    var finish := Writes(0, Finish("completed", delta, ""), now, true);
    var last := Writes(1, update, now, true);
    var s3 := BothRead(policyId, kind);
    FinishEnds(s3.jobs[1], s3.handlers[0], delta, now);
    FirstWrite(s3, finish.update, now);
    SecondWrite(Apply(s3, finish), update, now);
    if update.Request? {
      WriteEffect(Apply(s3, finish), 1, update, now);
      RequestReopens(Apply(s3, finish).jobs[1], kind.action, NewJob(policyId), now);
    }
    FirstStep(Apply(s3, finish), last, []);
    FirstStep(s3, finish, [last] + []);
    BothReadReached(policyId, kind, [finish] + ([last] + []));
    assert Straddled(policyId, kind, delta, update, now)
        == [CreateJob(policyId), Reads(0, Running, 1), Reads(1, kind, 1)] + ([finish] + ([last] + []));
  }

  /** The effect on the other handler, on the job and on the total, of one handler's write. */
  lemma FirstWrite(s: System, finish: Update, now: int)
    requires finish.Finish? && 1 in s.jobs && Total(s, 1) == ZERO
    requires 0 in s.handlers && s.handlers[0].kind == Running && s.handlers[0].job == 1
    requires 1 in s.handlers && s.handlers[1].job == 1 && s.handlers[1].since == ZERO
    requires Updated(s.jobs[1], s.handlers[0], finish, now).finishedAt == Some(now)
    requires Updated(s.jobs[1], s.handlers[0], finish, now).verification == "verified"
    ensures var s4 := Apply(s, Writes(0, finish, now, true));
            && 1 in s4.handlers && s4.handlers[1] == s.handlers[1].(since := finish.delta)
            && 1 in s4.jobs && s4.jobs[1].finishedAt == Some(now) && s4.jobs[1].verification == "verified"
            && Total(s4, 1) == finish.delta
  {
    WriteEffect(s, 0, finish, now);
  }

  lemma SecondWrite(s: System, update: Update, now: int)
    requires 1 in s.jobs && 1 in s.handlers && s.handlers[1].job == 1 && s.handlers[1].read.counters == ZERO
    requires Enabled(s, Writes(1, update, now, true))
    requires Total(s, 1) != ZERO && s.jobs[1].finishedAt == Some(now)
    ensures var s5 := Apply(s, Writes(1, update, now, true));
            && 1 in s5.totals && s5.totals[1] == Plus(Total(s, 1), DeltaOf(update))
            && 1 in s5.jobs && s5.jobs[1].counters == DeltaOf(update) && !Exact(s5, 1)
            && s5.jobs[1].finishedAt == Some(now)
  {
    WriteEffect(s, 1, update, now);
    UpdatedCounters(s.jobs[1], s.handlers[1], update, now);
    KeepsEnd(s.jobs[1], s.handlers[1], update, now);
    PlusZero(DeltaOf(update));
    PlusOther(Total(s, 1), DeltaOf(update));
  }

  lemma PlusZero(c: Counters)
    ensures Plus(ZERO, c) == c
  {
  }

  lemma PlusOther(total: Counters, c: Counters)
    requires total != ZERO
    ensures Plus(total, c) != c
  {
  }

  lemma CompletedIsTerminal()
    ensures JobState("completed") == "success" && Terminal("success")
  {
  }

  // ---------------------------------------------------------------------------
  // Counters never decrease
  // ---------------------------------------------------------------------------

  predicate Gains(a: Action) {
    a.Writes? ==> AtMost(ZERO, DeltaOf(a.update))
  }

  lemma {:induction false} TotalsGrow(s: System, acts: seq<Action>, job: int)
    requires KeysOk(s) && ValidRun(s, acts) && job in s.jobs
    requires forall i :: 0 <= i < |acts| ==> Gains(acts[i])
    ensures job in After(s, acts).jobs && AtMost(Total(s, job), Total(After(s, acts), job))
    decreases |acts|
  {
    if acts != [] {
      assert Gains(acts[0]);
      KeysKept(s, acts[0]);
      assert s.lastId + 1 !in s.jobs;
      forall i | 0 <= i < |acts[1..]|
        ensures Gains(acts[1..][i])
      {
        assert acts[1..][i] == acts[i + 1];
      }
      TotalsGrow(Apply(s, acts[0]), acts[1..], job);
    }
  }

  /** With agents that report no negative numbers, stored counters never go down over a run whose writes
      are up to date. */
  lemma CountersNeverDecrease(s: System, acts: seq<Action>, job: int)
    requires KeysOk(s) && JobsExact(s) && AllTrace(s) && ValidRun(s, acts) && UpToDateThroughout(s, acts) && job in s.jobs
    requires forall i :: 0 <= i < |acts| ==> Gains(acts[i])
    ensures job in After(s, acts).jobs && AtMost(s.jobs[job].counters, After(s, acts).jobs[job].counters)
  {
    ThroughoutIff(s, acts);
    ExactAtTheEnd(s, acts);
    TotalsGrow(s, acts, job);
    assert Exact(s, job) && Exact(After(s, acts), job);
  }

  // ---------------------------------------------------------------------------
  // Columns of a job row
  // ---------------------------------------------------------------------------

  predicate JobOk(j: Job) {
    && (j.startedAt.None? ==> j.status == "pending" && j.counters == ZERO && j.finishedAt.None?)
    && (Terminal(j.status) ==> j.finishedAt.Some? && j.verification == VerificationStatus(j.status))
    && (j.finishedAt.None? ==> j.verification == "")
  }

  ghost predicate JobsOk(s: System) {
    forall job :: job in s.jobs ==> JobOk(s.jobs[job])
  }

  /** Identity and first start never change, and an end time is never taken back. */
  predicate LaterJob(j: Job, j': Job) {
    && j'.policyId == j.policyId
    && (j.startedAt.Some? ==> j'.startedAt == j.startedAt)
    && (j.finishedAt.Some? ==> j'.finishedAt.Some?)
    && (j.taskId.Some? ==> j'.taskId.Some?)
  }

  ghost predicate LaterJobs(s: System, s': System) {
    forall job :: job in s.jobs ==> job in s'.jobs && LaterJob(s.jobs[job], s'.jobs[job])
  }

  lemma UpdateKeepsJob(j: Job, status: string, c: Counters, speed: int, lastKey: string, reason: string, error: string, now: int)
    requires JobOk(j)
    ensures var j' := StateUpdated(j, status, c, speed, lastKey, reason, error, now);
            JobOk(j') && LaterJob(j, j')
  {
  }

  lemma UpdatedKeepsJob(j: Job, h: Handler, update: Update, now: int)
    requires JobOk(j)
    ensures JobOk(Updated(j, h, update, now)) && LaterJob(j, Updated(j, h, update, now))
  {
    var read := h.read;
    match update {
      case MarkRunning => UpdateKeepsJob(j, "running", read.counters, read.speed, read.lastKey, "", "", now);
      case Fail(error) => UpdateKeepsJob(j, "failed", read.counters, read.speed, read.lastKey, read.pauseReason, error, now);
      case Finish(state, delta, reason) =>
        UpdateKeepsJob(j, JobState(state), Plus(read.counters, delta), 0, "", reason, "", now);
      case Request =>
        var action := if h.kind.Controlling? then h.kind.action else "";
        UpdateKeepsJob(j, ControlStatus(action, read), read.counters, read.speed, read.lastKey, ControlReason(action, read), "", now);
    }
  }

  lemma StepKeepsJobs(s: System, a: Action)
    requires KeysOk(s) && JobsOk(s) && Enabled(s, a)
    ensures JobsOk(Apply(s, a)) && LaterJobs(s, Apply(s, a))
  {
    assert s.lastId + 1 !in s.jobs;
    if a.Writes? && s.handlers[a.w].job in s.jobs {
      UpdatedKeepsJob(s.jobs[s.handlers[a.w].job], s.handlers[a.w], a.update, a.now);
    }
  }

  lemma {:induction false} RunKeepsJobs(s: System, acts: seq<Action>)
    requires KeysOk(s) && JobsOk(s) && ValidRun(s, acts)
    ensures JobsOk(After(s, acts)) && LaterJobs(s, After(s, acts))
    decreases |acts|
  {
    if acts != [] {
      KeysKept(s, acts[0]);
      StepKeepsJobs(s, acts[0]);
      RunKeepsJobs(Apply(s, acts[0]), acts[1..]);
    }
  }

  /** In every reachable state a job that never started is pending and empty, and a finished one carries
      its end time and the verification its status implies. */
  lemma JobRowsConsistent(acts: seq<Action>, job: int)
    requires ValidRun(INITIAL, acts) && job in After(INITIAL, acts).jobs
    ensures JobOk(After(INITIAL, acts).jobs[job])
  {
    RunKeepsJobs(INITIAL, acts);
  }

  lemma RequestsAreNotTerminal()
    ensures !Terminal("pause_requested") && !Terminal("stop_requested") && !Terminal("running") && Terminal("failed")
  {
    assert |"success"| == 7 && |"failed"| == 6 && |"stopped"| == 7 && |"running"| == 7;
    assert |"pause_requested"| == 15 && |"stop_requested"| == 14;
    assert "running"[0] == 'r' && "success"[0] == 's' && "stopped"[0] == 's';
  }

  /** A terminal status is left by exactly these writes, none of which looks at it: a pause or stop
      request, the write-back of another control action that read a status that was not terminal, a run
      that marks the job running, and a run that finishes in a state that is not terminal. */
  lemma TerminalLeftIff(s: System, a: Action, job: int)
    requires KeysOk(s) && Enabled(s, a) && job in s.jobs && Terminal(s.jobs[job].status)
    ensures job in Apply(s, a).jobs
    ensures !Terminal(Apply(s, a).jobs[job].status) <==>
            a.Writes? && a.written && s.handlers[a.w].job == job &&
            match a.update
            case MarkRunning => true
            case Fail(_) => false
            case Finish(state, _, _) => !Terminal(JobState(state))
            case Request =>
              var action := s.handlers[a.w].kind.action;
              action == PAUSE || action == STOP || !Terminal(s.handlers[a.w].read.status)
  {
    RequestsAreNotTerminal();
    assert s.lastId + 1 !in s.jobs;
  }
}
