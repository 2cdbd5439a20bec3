/** The gateway as a whole: the connection registry and the request exchange side by side, what every
    run of both guarantees to a dispatcher, and the objects that perform the steps. */
module Gateway {
  import opened Options
  import R = GatewayRegistry
  import D = GatewayDispatch

  datatype System = System(registry: R.Registry, exchange: D.Exchange)

  datatype Action = Connection(r: R.Action) | Request(x: D.Action)

  const START := System(R.NO_AGENTS, D.QUIET)

  /** Where the two parts meet: a dispatch begins on the connection the table holds for some agent, it is
      told of a disconnect only once the connection is done, only a live connection reads, and its
      read loop ends only between two responses. */
  ghost predicate Enabled(s: System, a: Action) {
    match a
    case Connection(r) =>
      R.Enabled(s.registry, r) && (r.EndRead? ==> r.c !in s.exchange.reading)
    case Request(x) =>
      D.Enabled(s.exchange, x) &&
      match x
      case Begin(_, c, _) => exists agent :: R.Current(s.registry, agent) == Some(c)
      case Abort(d, result) => result.Disconnected? ==> Closed(s, s.exchange.dispatches[d].conn)
      case Read(c, _) => c in s.registry.links && s.registry.links[c].phase.Live?
      case _ => true
  }

  predicate Closed(s: System, c: nat) {
    c in s.registry.links && s.registry.links[c].done
  }

  ghost function Apply(s: System, a: Action): System
    requires Enabled(s, a)
  {
    match a
    case Connection(r) => s.(registry := R.Apply(s.registry, r))
    case Request(x) => s.(exchange := D.Apply(s.exchange, x))
  }

  ghost predicate ValidRun(s: System, acts: seq<Action>)
    decreases |acts|
  {
    acts == [] || (Enabled(s, acts[0]) && ValidRun(Apply(s, acts[0]), acts[1..]))
  }

  ghost function After(s: System, acts: seq<Action>): System
    requires ValidRun(s, acts)
    decreases |acts|
  {
    if acts == [] then s else After(Apply(s, acts[0]), acts[1..])
  }

  /** A run is its first step and the run after it. */
  lemma FirstStep(s: System, a: Action, rest: seq<Action>)
    requires Enabled(s, a) && ValidRun(Apply(s, a), rest)
    ensures ValidRun(s, [a] + rest) && After(s, [a] + rest) == After(Apply(s, a), rest)
  {
    assert ([a] + rest)[1..] == rest;
  }

  lemma {:induction false} RunsCompose(s: System, a: seq<Action>, b: seq<Action>)
    requires ValidRun(s, a) && ValidRun(After(s, a), b)
    ensures ValidRun(s, a + b) && After(s, a + b) == After(After(s, a), b)
    decreases |a|
  {
    if a == [] {
      assert a + b == b;
    } else {
      RunsCompose(Apply(s, a[0]), a[1..], b);
      assert a + b == [a[0]] + (a[1..] + b);
      FirstStep(s, a[0], a[1..] + b);
    }
  }

  predicate LeftWith(v: D.Dispatch, result: D.Result) {
    v.stage == D.Leaving(result) || v.stage == D.Returned(result)
  }

  /** A dispatch that reports a disconnect has a closed connection. */
  ghost predicate DisconnectsOk(s: System) {
    forall d :: d in s.exchange.dispatches && LeftWith(s.exchange.dispatches[d], D.Disconnected) ==>
      Closed(s, s.exchange.dispatches[d].conn)
  }

  ghost predicate Inv(s: System) {
    R.Inv(s.registry) && D.Inv(s.exchange) && DisconnectsOk(s)
  }

  lemma DisconnectsKept(s: System, a: Action)
    requires DisconnectsOk(s) && D.LogsOk(s.exchange) && Enabled(s, a)
    ensures DisconnectsOk(Apply(s, a))
  {
    var s' := Apply(s, a);
    forall d | d in s'.exchange.dispatches && LeftWith(s'.exchange.dispatches[d], D.Disconnected)
      ensures Closed(s', s'.exchange.dispatches[d].conn)
    {
      if a.Connection? {
        R.DoneIsFinal(s.registry, [a.r], s.exchange.dispatches[d].conn);
        assert [a.r][1..] == [];
        assert R.After(s.registry, [a.r]) == R.After(s'.registry, []) == s'.registry;
      } else if a.x.Abort? && a.x.d == d {
        assert Closed(s, s.exchange.dispatches[d].conn);
      } else {
        assert d in s.exchange.dispatches && LeftWith(s.exchange.dispatches[d], D.Disconnected);
      }
    }
  }

  lemma {:induction false} RunKeeps(s: System, acts: seq<Action>)
    requires Inv(s) && ValidRun(s, acts)
    ensures Inv(After(s, acts))
    decreases |acts|
  {
    if acts != [] {
      match acts[0] {
        case Connection(r) => R.StepKeeps(s.registry, r);
        case Request(x) => D.StepKeeps(s.exchange, x);
      }
      DisconnectsKept(s, acts[0]);
      RunKeeps(Apply(s, acts[0]), acts[1..]);
    }
  }

  // ---------------------------------------------------------------------------
  // What a dispatcher may rely on
  // ---------------------------------------------------------------------------

  /** The responses that arrived on the dispatch's connection, bearing its id, while it was pending. */
  ghost function Arrived(x: D.Exchange, v: D.Dispatch): seq<D.Response>
    requires v.from <= D.WindowEnd(v, D.InboxOf(x, v.conn)) <= |D.InboxOf(x, v.conn)|
  {
    D.Bearing(D.InboxOf(x, v.conn)[v.from..D.WindowEnd(v, D.InboxOf(x, v.conn))], v.requestId)
  }

  lemma WindowExists(x: D.Exchange, d: nat)
    requires D.Inv(x) && d in x.dispatches && !x.dispatches[d].stage.Looked?
    ensures var v := x.dispatches[d];
            && v.from <= D.WindowEnd(v, D.InboxOf(x, v.conn)) <= |D.InboxOf(x, v.conn)|
            && v.routed <= Arrived(x, v)
            && D.LogOk(v)
  {
    assert D.FlowOk(x, d) && D.LogOk(x.dispatches[d]);
    var v := x.dispatches[d];
    var flying := D.Flying(x, d, v.conn);
    assert (v.routed + flying)[..|v.routed|] == v.routed;
  }

  lemma {:induction false} BearingMember(s: seq<D.Response>, id: string, r: D.Response)
    requires r in D.Bearing(s, id)
    ensures r in s && r.requestId == id
  {
    if s[|s| - 1] != r || r.requestId != id {
      BearingMember(s[..|s| - 1], id, r);
    }
  }

  /** A consumed response arrived on the dispatch's connection, with its id, while it was pending. */
  lemma ConsumedArrived(x: D.Exchange, d: nat, r: D.Response)
    requires D.Inv(x) && d in x.dispatches && !x.dispatches[d].stage.Looked? && r in x.dispatches[d].consumed
    ensures var v := x.dispatches[d];
            var inbox := D.InboxOf(x, v.conn);
            && r.requestId == v.requestId
            && v.from <= D.WindowEnd(v, inbox) <= |inbox| && r in inbox[v.from..D.WindowEnd(v, inbox)]
  {
    WindowExists(x, d);
    var v := x.dispatches[d];
    var i :| 0 <= i < |v.consumed| && v.consumed[i] == r;
    assert v.sent[i] == r;
    D.SubsequenceMember(v.sent, v.routed, r);
    assert r in Arrived(x, v);
    BearingMember(D.InboxOf(x, v.conn)[v.from..D.WindowEnd(v, D.InboxOf(x, v.conn))], v.requestId, r);
  }

  lemma AnsweredLast(v: D.Dispatch, r: D.Response)
    requires D.LogOk(v) && LeftWith(v, D.Answered(r))
    ensures r.kind.Success? && !v.stage.Looked?
    ensures v.consumed != [] && v.consumed[|v.consumed| - 1] == r && D.NotFinal(v.consumed[..|v.consumed| - 1])
  {
  }

  /** `r` is a success response with the dispatch's own id, arrived on its own connection while it was
      pending, and the last and only final response it consumed. */
  ghost predicate OwnSuccess(v: D.Dispatch, inbox: seq<D.Response>, r: D.Response) {
    && r.kind.Success? && r.requestId == v.requestId
    && v.from <= D.WindowEnd(v, inbox) <= |inbox|
    && r in inbox[v.from..D.WindowEnd(v, inbox)]
    && v.consumed != [] && v.consumed[|v.consumed| - 1] == r && D.NotFinal(v.consumed[..|v.consumed| - 1])
  }

  lemma AnsweredIsOwn(x: D.Exchange, d: nat, r: D.Response)
    requires D.Inv(x) && d in x.dispatches && LeftWith(x.dispatches[d], D.Answered(r))
    ensures OwnSuccess(x.dispatches[d], D.InboxOf(x, x.dispatches[d].conn), r)
  {
    var v := x.dispatches[d];
    assert D.LogOk(v);
    AnsweredLast(v, r);
    assert r in v.consumed;
    ConsumedArrived(x, d, r);
  }

  /** A dispatch succeeds only with a success response that bears its own request id and arrived on its
      own connection while it was pending; every response it consumed before was not final. */
  lemma SuccessIsOwn(acts: seq<Action>, d: nat, r: D.Response)
    requires ValidRun(START, acts)
    requires d in After(START, acts).exchange.dispatches && LeftWith(After(START, acts).exchange.dispatches[d], D.Answered(r))
    ensures var x := After(START, acts).exchange;
            OwnSuccess(x.dispatches[d], D.InboxOf(x, x.dispatches[d].conn), r)
  {
    RunKeeps(START, acts);
    AnsweredIsOwn(After(START, acts).exchange, d, r);
  }

  /** What a dispatch consumes, followed by what waits in its channel, is an in-order selection of the
      arrivals; and with at most 32 arrivals, it is a prefix of them: nothing is dropped. */
  lemma DeliveryInOrder(acts: seq<Action>, d: nat)
    requires ValidRun(START, acts)
    requires d in After(START, acts).exchange.dispatches && !After(START, acts).exchange.dispatches[d].stage.Looked?
    ensures var x := After(START, acts).exchange;
            var v := x.dispatches[d];
            && v.from <= D.WindowEnd(v, D.InboxOf(x, v.conn)) <= |D.InboxOf(x, v.conn)|
            && v.routed <= Arrived(x, v)
            && D.Subsequence(v.consumed + v.buffer, v.routed)
            && (|Arrived(x, v)| <= D.CAPACITY ==> v.consumed + v.buffer <= Arrived(x, v))
  {
    RunKeeps(START, acts);
    WindowExists(After(START, acts).exchange, d);
  }

  /** The pending table of a connection holds exactly its dispatches that have entered and not returned. */
  lemma PendingIsExact(acts: seq<Action>, key: D.Key, d: nat)
    requires ValidRun(START, acts)
    ensures var x := After(START, acts).exchange;
            (key in x.pending && x.pending[key] == d) <==>
            (d in x.dispatches && D.KeyOf(x.dispatches[d]) == key && D.InFlightStage(x.dispatches[d].stage))
  {
    RunKeeps(START, acts);
    var x := After(START, acts).exchange;
    if key in x.pending {
      assert D.Owned(x, key);
    }
    if d in x.dispatches && D.InFlightStage(x.dispatches[d].stage) {
      assert D.Listed(x, d);
    }
  }

  /** A dispatch that reports "disconnected" does so on a connection that is closed for good. */
  lemma DisconnectIsReal(acts: seq<Action>, d: nat)
    requires ValidRun(START, acts)
    requires d in After(START, acts).exchange.dispatches
    requires LeftWith(After(START, acts).exchange.dispatches[d], D.Disconnected)
    ensures Closed(After(START, acts), After(START, acts).exchange.dispatches[d].conn)
  {
    RunKeeps(START, acts);
  }

  // ---------------------------------------------------------------------------
  // Why a dispatch gives up
  // ---------------------------------------------------------------------------

  /** The step that makes dispatch d leave with a result that is no response. */
  function CauseOf(d: nat, result: D.Result): D.Action {
    if result.WriteError? then D.Write(d, false) else D.Abort(d, result)
  }

  predicate LeftIff(x: D.Exchange, d: nat, result: D.Result, caused: bool) {
    if d in x.dispatches then LeftWith(x.dispatches[d], result) <==> caused else !caused
  }

  lemma StepCause(x: D.Exchange, a: D.Action, d: nat, result: D.Result, caused: bool)
    requires D.Enabled(x, a) && LeftIff(x, d, result, caused)
    requires result.WriteError? || result.Disconnected? || result.TimedOut? || result.ContextDone?
    ensures LeftIff(D.Apply(x, a), d, result, caused || a == CauseOf(d, result))
  {
  }

  lemma {:induction false} RunCause(s: System, acts: seq<Action>, d: nat, result: D.Result, caused: bool)
    requires ValidRun(s, acts) && LeftIff(s.exchange, d, result, caused)
    requires result.WriteError? || result.Disconnected? || result.TimedOut? || result.ContextDone?
    ensures LeftIff(After(s, acts).exchange, d, result, caused || Request(CauseOf(d, result)) in acts)
    decreases |acts|
  {
    if acts != [] {
      if acts[0].Request? {
        StepCause(s.exchange, acts[0].x, d, result, caused);
      }
      var caused' := caused || acts[0] == Request(CauseOf(d, result));
      RunCause(Apply(s, acts[0]), acts[1..], d, result, caused');
      assert Request(CauseOf(d, result)) in acts <==> acts[0] == Request(CauseOf(d, result)) || Request(CauseOf(d, result)) in acts[1..];
    }
  }

  /** A write error, a disconnect, a timeout or the end of the context is what a dispatch leaves with if
      and only if just that has happened to it: its write failed, or it was told so while it waited. */
  lemma GivesUpIff(acts: seq<Action>, d: nat, result: D.Result)
    requires ValidRun(START, acts) && d in After(START, acts).exchange.dispatches
    ensures LeftWith(After(START, acts).exchange.dispatches[d], D.WriteError) <==> Request(D.Write(d, false)) in acts
    ensures result.Disconnected? || result.TimedOut? || result.ContextDone? ==>
              (LeftWith(After(START, acts).exchange.dispatches[d], result) <==> Request(D.Abort(d, result)) in acts)
  {
    RunCause(START, acts, d, D.WriteError, false);
    if result.Disconnected? || result.TimedOut? || result.ContextDone? {
      RunCause(START, acts, d, result, false);
    }
  }
}
