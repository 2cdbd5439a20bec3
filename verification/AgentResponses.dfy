/** How many responses an agent sends for one action, and when that many always fit through the
    gateway's bounded channel. */
module AgentResponses {
  import opened Options
  import opened GatewayDispatch
  import opened Gateway
  import R = GatewayRegistry

  const INSTALL := "mysql.install"
  const INSTALL_STEPS := 18

  function Started(requestId: string): Response {
    Response(requestId, Progress, "action started")
  }

  function Ended(requestId: string, ok: bool, body: string): Response {
    if ok then Response(requestId, Success, body) else Response(requestId, Failed, body)
  }

  /** The reports of an installation whose step `failing` fails (no step fails if it is beyond the last). */
  function InstallReports(step: nat, failing: nat): seq<string>
    requires 1 <= step
    decreases INSTALL_STEPS + 1 - step
  {
    if step > INSTALL_STEPS then []
    else if step == failing then ["started", "failed"]
    else ["started", "completed"] + InstallReports(step + 1, failing)
  }

  /** The installation ends in error at step `failing`, before the first step if that is 0, and
      succeeds if there is no such step. */
  method Install(failing: nat) returns (reports: seq<string>, ok: bool)
    ensures reports == if failing == 0 then [] else InstallReports(1, failing)
    ensures ok <==> failing > 18
    ensures |reports| == if failing <= 18 then 2 * failing else 36
    ensures forall k :: 0 <= 2 * k < |reports| ==> reports[2 * k] == "started"
    ensures forall k :: 0 < 2 * k + 1 < |reports| ==> reports[2 * k + 1] == if k + 1 == failing then "failed" else "completed"
  {
    if failing == 0 {
      return [], false;
    }
    reports, ok := InstallFrom(1, failing);
    ReportCount(1, failing);
    forall k | 0 <= 2 * k < |reports|
      ensures reports[2 * k] == "started" && reports[2 * k + 1] == if k + 1 == failing then "failed" else "completed"
    {
      ReportAt(1, failing, k);
    }
  }

  /** The two reports of the k-th step from `step` on. */
  lemma {:induction false} ReportAt(step: nat, failing: nat, k: nat)
    requires 1 <= step <= failing && 2 * k < |InstallReports(step, failing)|
    ensures 2 * k + 1 < |InstallReports(step, failing)|
    ensures InstallReports(step, failing)[2 * k] == "started"
    ensures InstallReports(step, failing)[2 * k + 1] == if step + k == failing then "failed" else "completed"
    decreases k
  {
    if k > 0 {
      ReportAt(step + 1, failing, k - 1);
    }
  }

  method InstallFrom(first: nat, failing: nat) returns (reports: seq<string>, ok: bool)
    requires 1 <= first <= failing && first <= INSTALL_STEPS
    ensures reports == InstallReports(first, failing)
    ensures ok <==> failing > INSTALL_STEPS
  {
    reports := [];
    for step := first to INSTALL_STEPS + 1
      invariant failing >= step
      invariant reports + InstallReports(step, failing) == InstallReports(first, failing)
    {
      reports := reports + ["started"];
      if step == failing {
        return reports + ["failed"], false;
      }
      reports := reports + ["completed"];
    }
    ok := true;
  }

  /** Only an installation that is really executed reports steps. */
  function ReportsOf(action: string, execute: bool, failing: nat): seq<string> {
    if action == INSTALL && execute && failing > 0 then InstallReports(1, failing) else []
  }

  function AsProgress(requestId: string, reports: seq<string>): seq<Response> {
    if reports == [] then [] else [Response(requestId, Progress, reports[0])] + AsProgress(requestId, reports[1..])
  }

  /** Everything the agent sends for one action. */
  function Emitted(action: string, requestId: string, reports: seq<string>, ok: bool, body: string): seq<Response> {
    (if action == INSTALL then [] else [Started(requestId)]) + AsProgress(requestId, reports) + [Ended(requestId, ok, body)]
  }

  /** Control actions do not wait for a slot. */
  predicate IsControl(action: string) {
    action == "mysql.archive.pause" || action == "mysql.archive.resume" || action == "mysql.archive.stop"
  }

  /** `slot` is false when the agent's context ends before a slot is free: then nothing is sent. */
  method HandleAction(action: string, requestId: string, slot: bool, reports: seq<string>, ok: bool, body: string)
    returns (sent: seq<Response>)
    ensures sent == if slot || IsControl(action) then Emitted(action, requestId, reports, ok, body) else []
    ensures sent == [] <==>
            !slot && action != "mysql.archive.pause" && action != "mysql.archive.resume" && action != "mysql.archive.stop"
    ensures sent != [] ==> sent[|sent| - 1] == Response(requestId, if ok then Success else Failed, body)
    ensures sent != [] && action != "mysql.install" ==>
              |sent| == |reports| + 2 && sent[0] == Response(requestId, Progress, "action started")
              && forall i :: 0 <= i < |reports| ==> sent[i + 1] == Response(requestId, Progress, reports[i])
    ensures sent != [] && action == "mysql.install" ==>
              |sent| == |reports| + 1 && forall i :: 0 <= i < |reports| ==> sent[i] == Response(requestId, Progress, reports[i])
  {
    if !IsControl(action) {
      if !slot {
        return [];
      }
    }
    sent := Respond(action, requestId, reports, ok, body);
    ProgressCount(requestId, reports);
  }

  method Respond(action: string, requestId: string, reports: seq<string>, ok: bool, body: string) returns (sent: seq<Response>)
    ensures sent == Emitted(action, requestId, reports, ok, body)
  {
    sent := [];
    if action != INSTALL {
      sent := sent + [Response(requestId, Progress, "action started")];
    }
    ghost var first := sent;
    for i := 0 to |reports|
      invariant sent + AsProgress(requestId, reports[i..]) == first + AsProgress(requestId, reports)
    {
      assert reports[i..][1..] == reports[i + 1..];
      sent := sent + [Response(requestId, Progress, reports[i])];
    }
    assert reports[|reports|..] == [];
    assert sent == first + AsProgress(requestId, reports);
    if !ok {
      return sent + [Response(requestId, Failed, body)];
    }
    return sent + [Response(requestId, Success, body)];
  }

  lemma {:induction false} ProgressCount(requestId: string, reports: seq<string>)
    ensures |AsProgress(requestId, reports)| == |reports| && NotFinal(AsProgress(requestId, reports))
    ensures forall i :: 0 <= i < |reports| ==> AsProgress(requestId, reports)[i] == Response(requestId, Progress, reports[i])
  {
    if reports != [] {
      ProgressCount(requestId, reports[1..]);
    }
  }

  lemma {:induction false} ReportCount(step: nat, failing: nat)
    requires 1 <= step <= failing
    ensures |InstallReports(step, failing)| ==
            if step > INSTALL_STEPS then 0
            else if failing <= INSTALL_STEPS then 2 * (failing - step + 1) else 2 * (INSTALL_STEPS - step + 1)
    decreases INSTALL_STEPS + 1 - step
  {
    if step <= INSTALL_STEPS && step != failing {
      ReportCount(step + 1, failing);
    }
  }

  /** Every action sends exactly one final response, its last; every action other than an executed
      installation sends at most two in all; an installation sends two per step it reaches, plus one. */
  lemma EmittedCount(action: string, requestId: string, execute: bool, failing: nat, ok: bool, body: string)
    ensures var e := Emitted(action, requestId, ReportsOf(action, execute, failing), ok, body);
            && |e| == (if action != INSTALL then 2 else if !execute then 1
                       else if failing <= INSTALL_STEPS then 2 * failing + 1 else 37)
            && NotFinal(e[..|e| - 1]) && Verdict(e[|e| - 1]).Some?
            && forall i :: 0 <= i < |e| ==> e[i].requestId == requestId
  {
    var reports := ReportsOf(action, execute, failing);
    ProgressCount(requestId, reports);
    if failing > 0 {
      ReportCount(1, failing);
    }
    var e := Emitted(action, requestId, reports, ok, body);
    assert e[..|e| - 1] == (if action == INSTALL then [] else [Started(requestId)]) + AsProgress(requestId, reports);
  }

  // ---------------------------------------------------------------------------
  // When the channel drops, on runs of the gateway
  // ---------------------------------------------------------------------------

  /** Dispatch d of the run has been offered exactly these responses. */
  ghost predicate Offers(acts: seq<Gateway.Action>, d: nat, rs: seq<Response>) {
    && Gateway.ValidRun(START, acts) && d in Gateway.After(START, acts).exchange.dispatches
    && Gateway.After(START, acts).exchange.dispatches[d].routed == rs
  }

  /** The responses its channel has taken. */
  ghost function Taken(acts: seq<Gateway.Action>, d: nat): seq<Response>
    requires Gateway.ValidRun(START, acts) && d in Gateway.After(START, acts).exchange.dispatches
  {
    Gateway.After(START, acts).exchange.dispatches[d].sent
  }

  lemma FewAllTaken(acts: seq<Gateway.Action>, d: nat, rs: seq<Response>)
    requires Offers(acts, d, rs) && |rs| <= CAPACITY
    ensures Taken(acts, d) == rs
  {
    Gateway.RunKeeps(START, acts);
    assert LogOk(Gateway.After(START, acts).exchange.dispatches[d]);
  }

  /** The answer of an ordinary action is never dropped: whatever else happens at the gateway, if what a
      dispatch was offered is what the agent sends for an action other than an installation, or part of
      it, its channel has taken all of it, and what the dispatch has not consumed is waiting for it. */
  lemma OrdinaryAnswerNotDropped(acts: seq<Gateway.Action>, d: nat, action: string, requestId: string, reports: seq<string>,
                                 ok: bool, body: string, rs: seq<Response>)
    requires action != INSTALL && reports == ReportsOf(action, true, 0)
    requires rs <= Emitted(action, requestId, reports, ok, body) && Offers(acts, d, rs)
    ensures var v := Gateway.After(START, acts).exchange.dispatches[d];
            v.consumed + v.buffer == rs
  {
    EmittedCount(action, requestId, true, 0, ok, body);
    FewAllTaken(acts, d, rs);
    Gateway.RunKeeps(START, acts);
    assert LogOk(Gateway.After(START, acts).exchange.dispatches[d]);
  }

  /** Dispatch 0 waits on the live connection 0, whose reader is between two responses. */
  predicate Waits(s: Gateway.System, v: Dispatch) {
    && 0 in s.exchange.dispatches && s.exchange.dispatches[0] == v
    && v.conn == 0 && v.stage.Waiting?
    && KeyOf(v) in s.exchange.pending && s.exchange.pending[KeyOf(v)] == 0
    && 0 !in s.exchange.reading && 0 in s.registry.links && s.registry.links[0].phase.Live?
  }

  function OneResponse(r: Response): seq<Gateway.Action> {
    [Request(Read(0, r)), Request(Route(0))]
  }

  function AllResponses(rs: seq<Response>): seq<Gateway.Action> {
    if rs == [] then [] else OneResponse(rs[0]) + AllResponses(rs[1..])
  }

  function RoutedAll(v: Dispatch, rs: seq<Response>): Dispatch
    decreases |rs|
  {
    if rs == [] then v else RoutedAll(Routed(v, rs[0]), rs[1..])
  }

  lemma ReadAndRoute(s: Gateway.System, v: Dispatch, r: Response)
    requires Waits(s, v) && r.requestId == v.requestId
    ensures Gateway.ValidRun(s, OneResponse(r)) && Waits(Gateway.After(s, OneResponse(r)), Routed(v, r))
  {
    var s1 := Gateway.Apply(s, Request(Read(0, r)));
    var s2 := Gateway.Apply(s1, Request(Route(0)));
    Gateway.FirstStep(s1, Request(Route(0)), []);
    assert OneResponse(r) == [Request(Read(0, r))] + ([Request(Route(0))] + []);
    Gateway.FirstStep(s, Request(Read(0, r)), [Request(Route(0))] + []);
  }

  lemma {:induction false} ReadAll(s: Gateway.System, v: Dispatch, rs: seq<Response>)
    requires Waits(s, v) && forall i :: 0 <= i < |rs| ==> rs[i].requestId == v.requestId
    ensures Gateway.ValidRun(s, AllResponses(rs)) && Waits(Gateway.After(s, AllResponses(rs)), RoutedAll(v, rs))
    decreases |rs|
  {
    if rs != [] {
      ReadAndRoute(s, v, rs[0]);
      ReadAll(Gateway.After(s, OneResponse(rs[0])), Routed(v, rs[0]), rs[1..]);
      Gateway.RunsCompose(s, OneResponse(rs[0]), AllResponses(rs[1..]));
    }
  }

  /** As many as fit. */
  function Kept(rs: seq<Response>, room: nat): seq<Response> {
    if |rs| <= room then rs else rs[..room]
  }

  lemma KeptStep(before: seq<Response>, rs: seq<Response>, room: nat)
    requires rs != [] && room > 0
    ensures before + [rs[0]] + Kept(rs[1..], room - 1) == before + Kept(rs, room)
  {
    assert [rs[0]] + Kept(rs[1..], room - 1) == Kept(rs, room);
    assert before + [rs[0]] + Kept(rs[1..], room - 1) == before + ([rs[0]] + Kept(rs[1..], room - 1));
  }

  lemma KeptNone(before: seq<Response>, rs: seq<Response>)
    ensures before + Kept(rs, 0) == before
  {
  }

  /** A dispatcher that receives nothing in between keeps as many as still fit, the first ones. */
  lemma {:induction false} SlowDispatcher(v: Dispatch, rs: seq<Response>)
    requires |v.buffer| <= CAPACITY
    ensures var kept := Kept(rs, CAPACITY - |v.buffer|);
            RoutedAll(v, rs) == v.(routed := v.routed + rs, buffer := v.buffer + kept, sent := v.sent + kept)
    decreases |rs|
  {
    var room := CAPACITY - |v.buffer|;
    if rs == [] {
      assert v.routed + rs == v.routed && v.buffer + Kept(rs, room) == v.buffer && v.sent + Kept(rs, room) == v.sent;
    } else {
      SlowDispatcher(Routed(v, rs[0]), rs[1..]);
      assert v.routed + [rs[0]] + rs[1..] == v.routed + rs;
      if room > 0 {
        KeptStep(v.buffer, rs, room);
        KeptStep(v.sent, rs, room);
      } else {
        KeptNone(v.buffer, rs);
        KeptNone(v.sent, rs);
        KeptNone(v.buffer, rs[1..]);
        KeptNone(v.sent, rs[1..]);
      }
    }
  }

  function Asking(requestId: string): seq<Gateway.Action> {
    [Connection(R.Register(0, 0)), Connection(R.CloseOld(0)),
     Request(Begin(0, 0, requestId)), Request(Enter(0)), Request(Write(0, true))]
  }

  lemma AskingWaits(requestId: string)
    ensures Gateway.ValidRun(START, Asking(requestId))
    ensures Waits(Gateway.After(START, Asking(requestId)), Asked(requestId))
  {
    var s1 := Gateway.Apply(START, Connection(R.Register(0, 0)));
    var s2 := Gateway.Apply(s1, Connection(R.CloseOld(0)));
    assert R.Current(s2.registry, 0) == Some(0);
    var s3 := Gateway.Apply(s2, Request(Begin(0, 0, requestId)));
    var s4 := Gateway.Apply(s3, Request(Enter(0)));
    var s5 := Gateway.Apply(s4, Request(Write(0, true)));
    var r4 := [Request(Write(0, true))];
    var r3 := [Request(Enter(0))] + r4;
    var r2 := [Request(Begin(0, 0, requestId))] + r3;
    var r1 := [Connection(R.CloseOld(0))] + r2;
    assert r4 == [Request(Write(0, true))] + [];
    Gateway.FirstStep(s4, Request(Write(0, true)), []);
    Gateway.FirstStep(s3, Request(Enter(0)), r4);
    Gateway.FirstStep(s2, Request(Begin(0, 0, requestId)), r3);
    Gateway.FirstStep(s1, Connection(R.CloseOld(0)), r2);
    Gateway.FirstStep(START, Connection(R.Register(0, 0)), r1);
    assert Asking(requestId) == [Connection(R.Register(0, 0))] + r1;
  }

  /** The run of the gateway in which the responses to one request arrive while its dispatcher receives
      nothing: the channel keeps the first 32. */
  lemma UnattendedRun(requestId: string, rs: seq<Response>) returns (acts: seq<Gateway.Action>)
    requires forall i :: 0 <= i < |rs| ==> rs[i].requestId == requestId
    ensures Offers(acts, 0, rs) && Taken(acts, 0) == Kept(rs, CAPACITY)
  {
    AskingWaits(requestId);
    ReadAll(Gateway.After(START, Asking(requestId)), Asked(requestId), rs);
    Gateway.RunsCompose(START, Asking(requestId), AllResponses(rs));
    acts := Asking(requestId) + AllResponses(rs);
    SlowDispatcher(Asked(requestId), rs);
  }

  /** The responses to one request are all taken in every run of the gateway that offers them if and
      only if there are at most 32. */
  lemma NothingDroppedIff(requestId: string, rs: seq<Response>)
    requires forall i :: 0 <= i < |rs| ==> rs[i].requestId == requestId
    ensures (forall acts, d | Offers(acts, d, rs) :: Taken(acts, d) == rs) <==> |rs| <= CAPACITY
  {
    if |rs| <= CAPACITY {
      forall acts, d | Offers(acts, d, rs)
        ensures Taken(acts, d) == rs
      {
        FewAllTaken(acts, d, rs);
      }
    } else {
      var acts := UnattendedRun(requestId, rs);
      assert Offers(acts, 0, rs) && |Taken(acts, 0)| < |rs|;
    }
  }

  lemma FinalCanBeDropped(requestId: string, rs: seq<Response>) returns (acts: seq<Gateway.Action>)
    requires |rs| > CAPACITY && NotFinal(rs[..|rs| - 1]) && forall i :: 0 <= i < |rs| ==> rs[i].requestId == requestId
    ensures Offers(acts, 0, rs) && NotFinal(Taken(acts, 0))
  {
    acts := UnattendedRun(requestId, rs);
    assert forall i :: 0 <= i < CAPACITY ==> rs[..CAPACITY][i] == rs[..|rs| - 1][i];
  }

  /** For an installation that succeeds or fails at step 16 or later there is a run of the gateway that
      drops the final response: the dispatch is offered all of them and keeps no final one. */
  lemma InstallResultCanBeDropped(requestId: string, failing: nat, ok: bool, body: string) returns (acts: seq<Gateway.Action>)
    requires failing >= 16
    ensures Offers(acts, 0, Emitted(INSTALL, requestId, ReportsOf(INSTALL, true, failing), ok, body))
    ensures NotFinal(Taken(acts, 0))
  {
    EmittedCount(INSTALL, requestId, true, failing, ok, body);
    acts := FinalCanBeDropped(requestId, Emitted(INSTALL, requestId, ReportsOf(INSTALL, true, failing), ok, body));
  }

  /** And these are the only ones: the final response of an installation can be dropped if and only if
      it succeeds or fails at step 16 or later. */
  lemma InstallResultDroppableIff(requestId: string, failing: nat, ok: bool, body: string)
    ensures (exists acts, d :: Offers(acts, d, Emitted(INSTALL, requestId, ReportsOf(INSTALL, true, failing), ok, body))
                               && NotFinal(Taken(acts, d)))
       <==> failing >= 16
  {
    var rs := Emitted(INSTALL, requestId, ReportsOf(INSTALL, true, failing), ok, body);
    EmittedCount(INSTALL, requestId, true, failing, ok, body);
    if failing >= 16 {
      var acts := FinalCanBeDropped(requestId, rs);
    } else {
      forall acts, d | Offers(acts, d, rs)
        ensures !NotFinal(Taken(acts, d))
      {
        FewAllTaken(acts, d, rs);
        assert Verdict(rs[|rs| - 1]) != None;
      }
    }
  }
}
