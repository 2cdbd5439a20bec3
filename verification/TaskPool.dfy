/** The task engine object: its handler table, its start-up recovery and one round of a worker. */
module TaskPool {
  import opened Options
  import opened TaskTable
  import opened TaskEngine

  /** The defaults are 4 workers, a lease of 60 seconds and a scan every 2. */
  class Engine {
    const repo: TaskRepo
    const workers: nat
    const leaseSeconds: int
    const scanSeconds: int
    var handlers: set<string>

    constructor (repo: TaskRepo, workers: int, leaseSeconds: int, scanSeconds: int)
      ensures this.repo == repo && handlers == {}
      ensures this.workers == if workers > 0 then workers else 4
      ensures this.leaseSeconds == if leaseSeconds > 0 then leaseSeconds else 60
      ensures this.scanSeconds == if scanSeconds > 0 then scanSeconds else 2
    {
      this.repo := repo;
      this.workers := if workers <= 0 then 4 else workers;
      this.leaseSeconds := if leaseSeconds <= 0 then 60 else leaseSeconds;
      this.scanSeconds := if scanSeconds <= 0 then 2 else scanSeconds;
      this.handlers := {};
    }

    method Register(taskType: string)
      modifies this
      ensures handlers == old(handlers) + {taskType}
    {
      handlers := handlers + {taskType};
    }

    /** Recovery, before any worker exists; returns one idle worker per slot. */
    method Start(now: int) returns (recovered: nat, pool: seq<Worker>)
      modifies repo
      ensures repo.View() == Recovered(old(repo.View()), now)
      ensures forall id :: id in repo.rows ==> !Expired(repo.rows[id], now)
      ensures |pool| == workers && forall w :: w in pool ==> w == Idle
    {
      recovered := repo.RecoverExpired(now);
      pool := [];
      for i := 0 to workers
        invariant |pool| == i
        invariant forall w :: w in pool ==> w == Idle
      {
        pool := pool + [Idle];
      }
    }

    /** `outcome` is what the registered handler returns; the error of the final write is ignored. */
    method Execute(id: int, taskType: string, progress: int, outcome: Outcome, now: int)
      modifies repo
      ensures repo.View() == FinalWrite(old(repo.View()), id, progress,
                                        if taskType in handlers then outcome else NO_HANDLER, true, now)
      ensures id !in old(repo.rows) ==> repo.rows == old(repo.rows)
      ensures id in old(repo.rows) && taskType in handlers && outcome.Done? ==>
                repo.rows == old(repo.rows)[id := old(repo.rows)[id].(
                  status := Success, progress := 100, result := if outcome.json == "" then "{}" else outcome.json, error := None,
                  finishedAt := Some(now), leaseOwner := None, leaseExpires := None)]
      ensures id in old(repo.rows) && !(taskType in handlers && outcome.Done?) ==>
                var message := if taskType in handlers then outcome.message else "no handler registered";
                repo.rows == if 0 <= progress <= 100
                             then old(repo.rows)[id := old(repo.rows)[id].(
                                    status := Failed, progress := progress, result := "{}",
                                    error := if message == "" then None else Some(message),
                                    finishedAt := Some(now), leaseOwner := None, leaseExpires := None)]
                             else old(repo.rows)
    {
      if taskType !in handlers {
        var _ := repo.UpdateStatus(id, Failed, progress, "{}", "no handler registered", now);
        return;
      }
      match outcome {
        case HandlerError(message) =>
          var _ := repo.UpdateStatus(id, Failed, progress, "{}", message, now);
        case Done(json) =>
          var _ := repo.UpdateStatus(id, Success, 100, json, "", now);
      }
    }

    /** One round of a worker with nobody else in between: claim, read back, execute, write. */
    method Tick(owner: string, now: int, outcome: Outcome, later: int) returns (claimed: Option<int>)
      modifies repo
      ensures IsNext(old(repo.View()), claimed)
      ensures claimed == None ==> repo.View() == old(repo.View())
      ensures claimed == None <==> forall j | j in old(repo.rows) :: old(repo.rows)[j].status != Queued
      ensures claimed.Some? ==>
                var row := old(repo.rows)[claimed.value];
                repo.View() == FinalWrite(Claimed(old(repo.View()), claimed.value, owner, leaseSeconds, now),
                                          claimed.value, row.progress,
                                          if row.taskType in handlers then outcome else NO_HANDLER, true, later)
      ensures claimed.Some? && old(repo.rows)[claimed.value].taskType in handlers && outcome.Done? ==>
                var row := old(repo.rows)[claimed.value];
                repo.rows == old(repo.rows)[claimed.value := row.(
                  status := Success, progress := 100, result := if outcome.json == "" then "{}" else outcome.json, error := None,
                  startedAt := if row.startedAt.Some? then row.startedAt else Some(now),
                  finishedAt := Some(later), leaseOwner := None, leaseExpires := None)]
      ensures claimed.Some? && !(old(repo.rows)[claimed.value].taskType in handlers && outcome.Done?)
              && 0 <= old(repo.rows)[claimed.value].progress <= 100 ==>
                var row := old(repo.rows)[claimed.value];
                var message := if row.taskType in handlers then outcome.message else "no handler registered";
                repo.rows == old(repo.rows)[claimed.value := row.(
                  status := Failed, result := "{}", error := if message == "" then None else Some(message),
                  startedAt := if row.startedAt.Some? then row.startedAt else Some(now),
                  finishedAt := Some(later), leaseOwner := None, leaseExpires := None)]
    {
      claimed := repo.ClaimNext(owner, leaseSeconds, now);
      if claimed.Some? {
        var row := repo.rows[claimed.value];
        Execute(claimed.value, row.taskType, row.progress, outcome, later);
      }
    }
  }

  /** A round of a worker is a run of the step system: the same table results from the worker's five
      steps taken one after another. */
  lemma TickIsARun(s: System, w: nat, id: int, owner: string, leaseSeconds: int, now: int, outcome: Outcome, later: int)
    requires w in s.workers && s.workers[w].Idle? && IsNext(s.table, Some(id)) && s.table.rows[id].taskType in s.handlers
    ensures var acts := [Select(w, Some(id)), Claim(w, owner, leaseSeconds, now), Load(w), Begin(w), Finish(w, outcome, true, later)];
            && ValidRun(s, acts)
            && After(s, acts).table
               == FinalWrite(Claimed(s.table, id, owner, leaseSeconds, now), id, s.table.rows[id].progress, outcome, true, later)
            && After(s, acts).claims == s.claims + [id] && After(s, acts).starts == s.starts + [id]
  {
    var s1 := Apply(s, Select(w, Some(id)));
    var s2 := Apply(s1, Claim(w, owner, leaseSeconds, now));
    var s3 := Apply(s2, Load(w));
    var s4 := Apply(s3, Begin(w));
    var s5 := Apply(s4, Finish(w, outcome, true, later));
    var r4 := [Finish(w, outcome, true, later)];
    var r3 := [Begin(w)] + r4;
    var r2 := [Load(w)] + r3;
    var r1 := [Claim(w, owner, leaseSeconds, now)] + r2;
    var r0 := [Select(w, Some(id))] + r1;
    assert r4 == [Finish(w, outcome, true, later)] + [];
    FirstStep(s4, Finish(w, outcome, true, later), []);
    FirstStep(s3, Begin(w), r4);
    FirstStep(s2, Load(w), r3);
    FirstStep(s1, Claim(w, owner, leaseSeconds, now), r2);
    FirstStep(s, Select(w, Some(id)), r1);
    assert r0 == [Select(w, Some(id)), Claim(w, owner, leaseSeconds, now), Load(w), Begin(w), Finish(w, outcome, true, later)];
  }
}
