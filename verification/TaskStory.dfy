/** What a task row says: every column that changes is told by the steps that concern the task. */
module TaskStory {
  import opened Options
  import opened TaskTable
  import opened TaskEngine
  import Theorems = TaskTheorems

  datatype Lease = Lease(owner: string, at: int, until: int)

  datatype End = End(outcome: Outcome, at: int)

  /** The claim of a task, whether a recovery found its lease expired, its final write, and the last
      progress reported. */
  datatype Story = Story(claim: Option<Lease>, cut: bool, end: Option<End>, progress: int)

  const NOTHING_YET := Story(None, false, None, 0)

  /** The worker of the step has the task in hand, or is about to claim it. */
  predicate Concerns(s: System, a: Action, id: int) {
    match a
    case Claim(w, _, _, _) => w in s.workers && s.workers[w].Selected? && s.workers[w].id == id
    case Refuse(w, _, _) => Holds(s.workers, w) && s.workers[w].id == id
    case Finish(w, _, _, _) => Holds(s.workers, w) && s.workers[w].id == id
    case _ => false
  }

  function Ended(st: Story, outcome: Outcome, now: int, progress: int): Story {
    st.(end := Some(End(outcome, now)), progress := if outcome.Done? then 100 else progress)
  }

  /** The story after one more step; nothing is looked up in the table but whether the row exists. */
  ghost function Told(s: System, a: Action, id: int, st: Story): Story
    requires Enabled(s, a)
  {
    match a
    case Claim(_, owner, leaseSeconds, now) =>
      if Concerns(s, a, id) && st.claim.None? then st.(claim := Some(Lease(owner, now, now + leaseSeconds))) else st
    case Refuse(_, written, now) =>
      if Concerns(s, a, id) && written then Ended(st, HandlerError("no handler registered"), now, s.workers[a.w].progress) else st
    case Finish(_, outcome, written, now) =>
      if Concerns(s, a, id) && written then Ended(st, outcome, now, s.workers[a.w].progress) else st
    case Progress(row, progress) =>
      if row == id && id in s.table.rows then st.(progress := if progress < 0 then 0 else if progress > 100 then 100 else progress) else st
    case Recover(now) =>
      if st.claim.Some? && st.end.None? && st.claim.value.until < now then st.(cut := true) else st
    case _ => st
  }

  ghost function StoryOf(s: System, acts: seq<Action>, id: int, st: Story): Story
    requires ValidRun(s, acts)
    decreases |acts|
  {
    if acts == [] then st else StoryOf(Apply(s, acts[0]), acts[1..], id, Told(s, acts[0], id, st))
  }

  /** The row as the story tells it. */
  predicate Tells(st: Story, r: Row) {
    && r.progress == st.progress
    && (r.status == if st.end.Some? then (if st.end.value.outcome.Done? then Success else Failed)
                    else if st.cut then Interrupted
                    else if st.claim.Some? then Running
                    else Queued)
    && (r.startedAt == if st.claim.Some? then Some(st.claim.value.at) else None)
    && (r.leaseOwner == if r.status == Running && st.claim.Some? then Some(st.claim.value.owner) else None)
    && (r.leaseExpires == if r.status == Running && st.claim.Some? then Some(st.claim.value.until) else None)
    && (r.finishedAt == if st.end.Some? then Some(st.end.value.at) else None)
    && (r.result == if st.end.Some? && st.end.value.outcome.Done? && st.end.value.outcome.json != ""
                    then st.end.value.outcome.json else "{}")
    && (r.error == if st.end.Some? && st.end.value.outcome.HandlerError? && st.end.value.outcome.message != ""
                   then Some(st.end.value.outcome.message) else None)
  }

  /** A row that does not exist yet has no story. */
  predicate Agrees(s: System, id: int, st: Story) {
    if id in s.table.rows then Tells(st, s.table.rows[id]) else st == NOTHING_YET
  }

  lemma EndTold(t: Table, id: int, progress: int, outcome: Outcome, now: int, st: Story)
    requires id in t.rows && Tells(st, t.rows[id]) && StatusAccepted(t, id, Success, 100) && StatusAccepted(t, id, Failed, progress)
    requires st.end.None?
    ensures id in FinalWrite(t, id, progress, outcome, true, now).rows
    ensures Tells(Ended(st, outcome, now, progress), FinalWrite(t, id, progress, outcome, true, now).rows[id])
  {
  }

  lemma WriteTold(s: System, a: Action, id: int, st: Story)
    requires Inv(s) && Enabled(s, a) && (a.Finish? || a.Refuse?) && Agrees(s, id, st)
    ensures Agrees(Apply(s, a), id, Told(s, a, id, st))
  {
    assert Holds(s.workers, a.w);
    if Concerns(s, a, id) {
      assert InProgress(s.table, id);
      var outcome := if a.Finish? then a.outcome else HandlerError("no handler registered");
      if a.written {
        EndTold(s.table, id, s.workers[a.w].progress, outcome, a.now, st);
      }
    }
  }

  lemma ClaimTold(s: System, a: Action, id: int, st: Story)
    requires Inv(s) && Enabled(s, a) && a.Claim? && Agrees(s, id, st)
    ensures Agrees(Apply(s, a), id, Told(s, a, id, st))
  {
    if Concerns(s, a, id) {
      assert id in s.table.rows;
      assert IsQueued(s.table, id) <==> st.claim.None?;
    }
  }

  lemma StepTold(s: System, a: Action, id: int, st: Story)
    requires Inv(s) && Enabled(s, a) && Agrees(s, id, st)
    ensures Agrees(Apply(s, a), id, Told(s, a, id, st))
  {
    if a.Finish? || a.Refuse? {
      WriteTold(s, a, id, st);
    } else if a.Claim? {
      ClaimTold(s, a, id, st);
    }
  }

  lemma {:induction false} RunTold(s: System, acts: seq<Action>, id: int, st: Story)
    requires Inv(s) && ValidRun(s, acts) && Agrees(s, id, st)
    ensures Agrees(After(s, acts), id, StoryOf(s, acts, id, st))
    decreases |acts|
  {
    if acts != [] {
      StepKeeps(s, acts[0]);
      StepTold(s, acts[0], id, st);
      RunTold(Apply(s, acts[0]), acts[1..], id, Told(s, acts[0], id, st));
    }
  }

  /** In every reachable state each row is what its claim, the recoveries, its final write and the progress
      reports make of it. */
  lemma RowIsItsStory(handlers: set<string>, acts: seq<Action>, id: int)
    requires ValidRun(Initial(handlers), acts) && id in Theorems.Reached(handlers, acts).table.rows
    ensures Tells(StoryOf(Initial(handlers), acts, id, NOTHING_YET), Theorems.Reached(handlers, acts).table.rows[id])
  {
    InitialInv(handlers);
    RunTold(Initial(handlers), acts, id, NOTHING_YET);
  }

  /** Some step of the run writes that the task's handler returned without an error. */
  ghost predicate Succeeds(s: System, acts: seq<Action>, id: int)
    requires ValidRun(s, acts)
    decreases |acts|
  {
    acts != [] &&
    (WritesDone(s, acts[0], id) || Succeeds(Apply(s, acts[0]), acts[1..], id))
  }

  predicate WritesDone(s: System, a: Action, id: int) {
    a.Finish? && a.written && a.outcome.Done? && Concerns(s, a, id)
  }

  predicate EndedWell(st: Story) {
    st.end.Some? && st.end.value.outcome.Done?
  }

  lemma StepSucceeds(s: System, a: Action, id: int, st: Story)
    requires Inv(s) && Enabled(s, a) && Agrees(s, id, st)
    ensures EndedWell(Told(s, a, id, st)) <==> EndedWell(st) || WritesDone(s, a, id)
  {
    if Concerns(s, a, id) && !a.Claim? {
      assert InProgress(s.table, id);
    }
  }

  lemma {:induction false} RunSucceeds(s: System, acts: seq<Action>, id: int, st: Story)
    requires Inv(s) && ValidRun(s, acts) && Agrees(s, id, st)
    ensures EndedWell(StoryOf(s, acts, id, st)) <==> EndedWell(st) || Succeeds(s, acts, id)
    decreases |acts|
  {
    if acts != [] {
      StepKeeps(s, acts[0]);
      StepTold(s, acts[0], id, st);
      StepSucceeds(s, acts[0], id, st);
      RunSucceeds(Apply(s, acts[0]), acts[1..], id, Told(s, acts[0], id, st));
    }
  }

  /** A row is `success` if and only if a written final write of its task carried a result, and not an
      error or the lack of a handler. */
  lemma SuccessIff(handlers: set<string>, acts: seq<Action>, id: int)
    requires ValidRun(Initial(handlers), acts) && id in Theorems.Reached(handlers, acts).table.rows
    ensures Theorems.Reached(handlers, acts).table.rows[id].status == Success <==> Succeeds(Initial(handlers), acts, id)
  {
    RowIsItsStory(handlers, acts, id);
    InitialInv(handlers);
    RunSucceeds(Initial(handlers), acts, id, NOTHING_YET);
  }
}
