/** Requests and responses on agent connections: the pending table, the bounded response channel that
    drops when full, and the dispatcher that consumes it. Lock sections, channel operations and the
    read loop interleave freely. */
module GatewayDispatch {
  import opened Options

  const CAPACITY := 32

  datatype Kind = Success | Failed | Cancelled | Timeout | Progress

  datatype Response = Response(requestId: string, kind: Kind, body: string)

  /** What a dispatch returns to its caller. */
  datatype Result =
    | Answered(response: Response)
    | Rejected(response: Response)
    | WriteError
    | Disconnected
    | TimedOut
    | ContextDone

  /** Where a dispatch is: it has looked its connection up, has entered the pending table, has sent the
      request and waits, leaves with a result, or has removed its entry and returned. */
  datatype Stage = Looked | Entered | Waiting | Leaving(result: Result) | Returned(result: Result)

  /** `routed` lists the responses the read loop offered to this dispatch, `sent` those its channel took,
      `consumed` those it received. `from` and `upto` delimit, in the connection's inbox, the time it was pending. */
  datatype Dispatch = Dispatch(
    conn: nat, requestId: string, stage: Stage,
    buffer: seq<Response>, routed: seq<Response>, sent: seq<Response>, consumed: seq<Response>,
    from: nat, upto: Option<nat>)

  /** The read loop between its lookup of the channel and its send. */
  datatype InFlight = InFlight(response: Response, target: Option<nat>)

  datatype Key = Key(conn: nat, requestId: string)

  function KeyOf(v: Dispatch): Key {
    Key(v.conn, v.requestId)
  }

  datatype Exchange = Exchange(
    pending: map<Key, nat>, reading: map<nat, InFlight>,
    inbox: map<nat, seq<Response>>, dispatches: map<nat, Dispatch>)

  const QUIET := Exchange(map[], map[], map[], map[])

  function InboxOf(x: Exchange, c: nat): seq<Response> {
    if c in x.inbox then x.inbox[c] else []
  }

  /** A dispatch on connection 0 that has just sent its request. */
  function Asked(requestId: string): Dispatch {
    Dispatch(0, requestId, Waiting, [], [], [], [], 0, None)
  }

  /** The verdict of the dispatcher's switch on a response, if it ends the dispatch. */
  function Verdict(r: Response): Option<Result> {
    match r.kind
    case Success => Some(Answered(r))
    case Failed => Some(Rejected(r))
    case Cancelled => Some(Rejected(r))
    case Timeout => Some(Rejected(r))
    case Progress => None
  }

  /** A non-blocking send. */
  function Offer(buffer: seq<Response>, r: Response): seq<Response> {
    if |buffer| < CAPACITY then buffer + [r] else buffer
  }

  datatype Action =
    | Begin(d: nat, conn: nat, requestId: string)
    | Enter(d: nat)
    | Write(d: nat, ok: bool)
    | Receive(d: nat)
    | Abort(d: nat, result: Result)
    | Finish(d: nat)
    | Read(conn: nat, response: Response)
    | Route(conn: nat)

  predicate Fresh(x: Exchange, requestId: string) {
    forall d | d in x.dispatches :: x.dispatches[d].requestId != requestId
  }

  predicate Enabled(x: Exchange, a: Action) {
    match a
    case Begin(d, _, r) => d !in x.dispatches && Fresh(x, r)
    case Enter(d) => d in x.dispatches && x.dispatches[d].stage.Looked?
    case Write(d, _) => d in x.dispatches && x.dispatches[d].stage.Entered?
    case Receive(d) => d in x.dispatches && x.dispatches[d].stage.Waiting? && x.dispatches[d].buffer != []
    case Abort(d, result) =>
      d in x.dispatches && x.dispatches[d].stage.Waiting? && (result.Disconnected? || result.TimedOut? || result.ContextDone?)
    case Finish(d) => d in x.dispatches && x.dispatches[d].stage.Leaving?
    case Read(c, _) => c !in x.reading
    case Route(c) => c in x.reading && (x.reading[c].target.Some? ==> x.reading[c].target.value in x.dispatches)
  }

  function Received(v: Dispatch): Dispatch
    requires v.buffer != []
  {
    var r := v.buffer[0];
    v.(buffer := v.buffer[1..], consumed := v.consumed + [r],
       stage := match Verdict(r) case Some(result) => Leaving(result) case None => v.stage)
  }

  function Routed(v: Dispatch, r: Response): Dispatch {
    v.(routed := v.routed + [r],
       buffer := Offer(v.buffer, r),
       sent := if |v.buffer| < CAPACITY then v.sent + [r] else v.sent)
  }

  function Apply(x: Exchange, a: Action): Exchange
    requires Enabled(x, a)
  {
    match a
    case Begin(d, c, r) => x.(dispatches := x.dispatches[d := Dispatch(c, r, Looked, [], [], [], [], 0, None)])
    case Enter(d) =>
      var v := x.dispatches[d];
      x.(pending := x.pending[KeyOf(v) := d],
         dispatches := x.dispatches[d := v.(stage := Entered, from := |InboxOf(x, v.conn)|)])
    case Write(d, ok) =>
      x.(dispatches := x.dispatches[d := x.dispatches[d].(stage := if ok then Waiting else Leaving(WriteError))])
    case Receive(d) => x.(dispatches := x.dispatches[d := Received(x.dispatches[d])])
    case Abort(d, result) => x.(dispatches := x.dispatches[d := x.dispatches[d].(stage := Leaving(result))])
    case Finish(d) =>
      var v := x.dispatches[d];
      x.(pending := x.pending - {KeyOf(v)},
         dispatches := x.dispatches[d := v.(stage := Returned(v.stage.result), upto := Some(|InboxOf(x, v.conn)|))])
    case Read(c, r) =>
      var key := Key(c, r.requestId);
      x.(inbox := x.inbox[c := InboxOf(x, c) + [r]],
         reading := x.reading[c := InFlight(r, if key in x.pending then Some(x.pending[key]) else None)])
    case Route(c) =>
      var f := x.reading[c];
      var y := x.(reading := x.reading - {c});
      match f.target
      case None => y
      case Some(d) => y.(dispatches := x.dispatches[d := Routed(x.dispatches[d], f.response)])
  }

  // ---------------------------------------------------------------------------
  // Logs of one dispatch
  // ---------------------------------------------------------------------------

  /** `a` is `b` with some elements left out. */
  ghost predicate Subsequence(a: seq<Response>, b: seq<Response>)
    decreases |b|
  {
    a == [] ||
    (b != [] &&
     ((a[|a| - 1] == b[|b| - 1] && Subsequence(a[..|a| - 1], b[..|b| - 1])) || Subsequence(a, b[..|b| - 1])))
  }

  lemma SubsequenceGrows(a: seq<Response>, b: seq<Response>, r: Response)
    requires Subsequence(a, b)
    ensures Subsequence(a, b + [r]) && Subsequence(a + [r], b + [r])
  {
    assert (b + [r])[..|b|] == b && (a + [r])[..|a|] == a;
  }

  /** The elements that bear a request id, in order. */
  function Bearing(s: seq<Response>, requestId: string): seq<Response> {
    if s == [] then []
    else
      var rest := Bearing(s[..|s| - 1], requestId);
      if s[|s| - 1].requestId == requestId then rest + [s[|s| - 1]] else rest
  }

  lemma BearingGrows(s: seq<Response>, r: Response, requestId: string)
    ensures Bearing(s + [r], requestId)
         == if r.requestId == requestId then Bearing(s, requestId) + [r] else Bearing(s, requestId)
  {
    assert (s + [r])[..|s|] == s;
  }

  ghost predicate NotFinal(s: seq<Response>) {
    forall i :: 0 <= i < |s| ==> Verdict(s[i]) == None
  }

  /** The responses consumed so far, against the stage: only the one that ended the dispatch is final. */
  ghost predicate ConsumedOk(v: Dispatch) {
    var n := |v.consumed|;
    match v.stage
    case Leaving(result) => EndedBy(v.consumed, result)
    case Returned(result) => EndedBy(v.consumed, result)
    case _ => NotFinal(v.consumed)
  }

  ghost predicate EndedBy(consumed: seq<Response>, result: Result) {
    if result.Answered? || result.Rejected? then
      consumed != [] && NotFinal(consumed[..|consumed| - 1]) && Verdict(consumed[|consumed| - 1]) == Some(result)
    else NotFinal(consumed)
  }

  ghost predicate LogOk(v: Dispatch) {
    && v.consumed + v.buffer == v.sent
    && |v.buffer| <= CAPACITY
    && Subsequence(v.sent, v.routed)
    && (|v.routed| <= CAPACITY ==> v.sent == v.routed)
    && ConsumedOk(v)
    && ((v.stage.Looked? || v.stage.Entered?) ==> v.consumed == [])
    && (v.stage.Looked? ==> v.routed == [])
    && (v.stage.Returned? <==> v.upto.Some?)
  }

  lemma SubsequenceShorter(a: seq<Response>, b: seq<Response>)
    requires Subsequence(a, b)
    ensures |a| <= |b|
    decreases |b|
  {
    if a != [] {
      if Subsequence(a, b[..|b| - 1]) {
        SubsequenceShorter(a, b[..|b| - 1]);
      } else {
        SubsequenceShorter(a[..|a| - 1], b[..|b| - 1]);
      }
    }
  }

  lemma {:induction false} SubsequenceMember(a: seq<Response>, b: seq<Response>, r: Response)
    requires Subsequence(a, b) && r in a
    ensures r in b
    decreases |b|
  {
    if Subsequence(a, b[..|b| - 1]) {
      SubsequenceMember(a, b[..|b| - 1], r);
    } else if r != a[|a| - 1] {
      SubsequenceMember(a[..|a| - 1], b[..|b| - 1], r);
    }
  }

  lemma RoutedLogOk(v: Dispatch, r: Response)
    requires LogOk(v) && !v.stage.Looked?
    ensures LogOk(Routed(v, r))
  {
    SubsequenceGrows(v.sent, v.routed, r);
    SubsequenceShorter(v.sent, v.routed);
  }

  lemma ReceivedLogOk(v: Dispatch)
    requires LogOk(v) && v.stage.Waiting? && v.buffer != []
    ensures LogOk(Received(v))
  {
    var w := Received(v);
    assert w.consumed + w.buffer == v.consumed + v.buffer;
    assert w.consumed[..|w.consumed| - 1] == v.consumed;
  }

  // ---------------------------------------------------------------------------
  // The pending table and the flow from inbox to dispatch
  // ---------------------------------------------------------------------------

  predicate InFlightStage(s: Stage) {
    s.Entered? || s.Waiting? || s.Leaving?
  }

  predicate Owned(x: Exchange, k: Key) {
    k in x.pending && x.pending[k] in x.dispatches
    && KeyOf(x.dispatches[x.pending[k]]) == k && InFlightStage(x.dispatches[x.pending[k]].stage)
  }

  predicate Listed(x: Exchange, d: nat) {
    d in x.dispatches && KeyOf(x.dispatches[d]) in x.pending && x.pending[KeyOf(x.dispatches[d])] == d
  }

  /** The pending table holds exactly the dispatches between their entry and their return. */
  ghost predicate PendingOk(x: Exchange) {
    && (forall k :: k in x.pending ==> Owned(x, k))
    && (forall d :: d in x.dispatches && InFlightStage(x.dispatches[d].stage) ==> Listed(x, d))
  }

  ghost predicate IdsOk(x: Exchange) {
    forall d, e :: d in x.dispatches && e in x.dispatches && d != e ==>
      x.dispatches[d].requestId != x.dispatches[e].requestId
  }

  predicate Addressed(x: Exchange, c: nat, d: nat) {
    c in x.reading && d in x.dispatches && x.dispatches[d].conn == c
    && x.dispatches[d].requestId == x.reading[c].response.requestId && !x.dispatches[d].stage.Looked?
  }

  /** A response in the read loop's hands belongs to the dispatch it is about to be offered to. */
  ghost predicate ReadingOk(x: Exchange) {
    forall c :: c in x.reading && x.reading[c].target.Some? ==> Addressed(x, c, x.reading[c].target.value)
  }

  /** The response the read loop of `c` is about to offer to `d`, if any. */
  function Flying(x: Exchange, d: nat, c: nat): seq<Response> {
    if c in x.reading && x.reading[c].target == Some(d) then [x.reading[c].response] else []
  }

  function WindowEnd(v: Dispatch, inbox: seq<Response>): int {
    if v.upto.Some? then v.upto.value else |inbox|
  }

  /** Offered so far, plus in flight, is what arrived with the request id while the dispatch was pending. */
  predicate Flow(v: Dispatch, inbox: seq<Response>, flying: seq<Response>) {
    !v.stage.Looked? ==>
      && v.from <= WindowEnd(v, inbox) <= |inbox|
      && v.routed + flying == Bearing(inbox[v.from..WindowEnd(v, inbox)], v.requestId)
  }

  predicate FlowOk(x: Exchange, d: nat)
    requires d in x.dispatches
  {
    Flow(x.dispatches[d], InboxOf(x, x.dispatches[d].conn), Flying(x, d, x.dispatches[d].conn))
  }

  ghost predicate TableOk(x: Exchange) {
    PendingOk(x) && IdsOk(x) && ReadingOk(x)
  }

  ghost predicate LogsOk(x: Exchange) {
    forall d :: d in x.dispatches ==> LogOk(x.dispatches[d])
  }

  ghost predicate FlowsOk(x: Exchange) {
    forall d :: d in x.dispatches ==> FlowOk(x, d)
  }

  ghost predicate Inv(x: Exchange) {
    TableOk(x) && LogsOk(x) && FlowsOk(x)
  }

  // The table part.

  /** Same identities and the same dispatches in flight. */
  lemma SameTable(x: Exchange, y: Exchange)
    requires TableOk(x) && y.pending == x.pending && y.dispatches.Keys == x.dispatches.Keys
    requires forall c :: c in y.reading ==> c in x.reading && y.reading[c] == x.reading[c]
    requires forall d :: d in x.dispatches ==> SameIdentity(x.dispatches[d], y.dispatches[d])
    ensures TableOk(y)
  {
    forall k | k in y.pending
      ensures Owned(y, k)
    {
      assert Owned(x, k);
    }
    forall e | e in y.dispatches && InFlightStage(y.dispatches[e].stage)
      ensures Listed(y, e)
    {
      assert Listed(x, e);
    }
    forall c | c in y.reading && y.reading[c].target.Some?
      ensures Addressed(y, c, y.reading[c].target.value)
    {
      assert Addressed(x, c, x.reading[c].target.value);
    }
  }

  predicate SameIdentity(v: Dispatch, w: Dispatch) {
    && KeyOf(w) == KeyOf(v)
    && (InFlightStage(w.stage) <==> InFlightStage(v.stage))
    && (w.stage.Looked? <==> v.stage.Looked?)
  }

  lemma StageChangeTable(x: Exchange, d: nat, w: Dispatch)
    requires TableOk(x) && d in x.dispatches && SameIdentity(x.dispatches[d], w)
    ensures TableOk(x.(dispatches := x.dispatches[d := w]))
  {
    SameTable(x, x.(dispatches := x.dispatches[d := w]));
  }

  lemma StageChangeLogs(x: Exchange, d: nat, w: Dispatch)
    requires LogsOk(x) && LogOk(w)
    ensures LogsOk(x.(dispatches := x.dispatches[d := w]))
  {
  }

  lemma BeginTable(x: Exchange, d: nat, c: nat, r: string)
    requires TableOk(x) && Enabled(x, Begin(d, c, r))
    ensures TableOk(Apply(x, Begin(d, c, r)))
  {
    var y := Apply(x, Begin(d, c, r));
    assert forall k :: k in y.pending ==> Owned(x, k);
    assert forall e :: e in y.dispatches && InFlightStage(y.dispatches[e].stage) ==> Listed(x, e);
    assert forall k :: k in y.reading && y.reading[k].target.Some? ==> Addressed(x, k, x.reading[k].target.value);
  }

  lemma EnterTable(x: Exchange, d: nat)
    requires TableOk(x) && Enabled(x, Enter(d))
    ensures TableOk(Apply(x, Enter(d)))
  {
    var y := Apply(x, Enter(d));
    var key := KeyOf(x.dispatches[d]);
    forall k | k in y.pending
      ensures Owned(y, k)
    {
      if k != key {
        assert Owned(x, k);
      }
    }
    forall e | e in y.dispatches && InFlightStage(y.dispatches[e].stage)
      ensures Listed(y, e)
    {
      if e != d {
        assert Listed(x, e) && x.dispatches[e].requestId != key.requestId;
      }
    }
    assert forall c :: c in y.reading && y.reading[c].target.Some? ==> Addressed(x, c, x.reading[c].target.value);
  }

  lemma FinishTable(x: Exchange, d: nat)
    requires TableOk(x) && Enabled(x, Finish(d))
    ensures TableOk(Apply(x, Finish(d)))
  {
    var y := Apply(x, Finish(d));
    var key := KeyOf(x.dispatches[d]);
    assert Listed(x, d);
    forall k | k in y.pending
      ensures Owned(y, k)
    {
      assert Owned(x, k) && k != key;
    }
    forall e | e in y.dispatches && InFlightStage(y.dispatches[e].stage)
      ensures Listed(y, e)
    {
      assert Listed(x, e) && x.dispatches[e].requestId != key.requestId;
    }
    assert forall c :: c in y.reading && y.reading[c].target.Some? ==> Addressed(x, c, x.reading[c].target.value);
  }

  lemma ReadTable(x: Exchange, c: nat, r: Response)
    requires TableOk(x) && Enabled(x, Read(c, r))
    ensures TableOk(Apply(x, Read(c, r)))
  {
    var y := Apply(x, Read(c, r));
    assert forall k :: k in y.pending ==> Owned(x, k);
    assert forall e :: e in y.dispatches && InFlightStage(y.dispatches[e].stage) ==> Listed(x, e);
    forall b | b in y.reading && y.reading[b].target.Some?
      ensures Addressed(y, b, y.reading[b].target.value)
    {
      if b == c {
        assert Owned(x, Key(c, r.requestId));
      } else {
        assert Addressed(x, b, x.reading[b].target.value);
      }
    }
  }

  lemma RouteTable(x: Exchange, c: nat)
    requires TableOk(x) && Enabled(x, Route(c))
    ensures TableOk(Apply(x, Route(c)))
  {
    SameTable(x, Apply(x, Route(c)));
  }

  // The flow part.

  lemma StageChangeFlow(x: Exchange, d: nat, w: Dispatch)
    requires FlowsOk(x) && d in x.dispatches
    requires var v := x.dispatches[d];
             (w.conn, w.requestId, w.from, w.upto, w.routed) == (v.conn, v.requestId, v.from, v.upto, v.routed)
             && !v.stage.Looked?
    ensures FlowsOk(x.(dispatches := x.dispatches[d := w]))
  {
    var y := x.(dispatches := x.dispatches[d := w]);
    forall e | e in y.dispatches
      ensures FlowOk(y, e)
    {
      assert FlowOk(x, e);
    }
  }

  lemma EnterFlow(x: Exchange, d: nat)
    requires ReadingOk(x) && LogsOk(x) && FlowsOk(x) && Enabled(x, Enter(d))
    ensures FlowsOk(Apply(x, Enter(d)))
  {
    var y := Apply(x, Enter(d));
    var c := x.dispatches[d].conn;
    forall e | e in y.dispatches
      ensures FlowOk(y, e)
    {
      assert FlowOk(x, e);
      if e == d {
        assert LogOk(x.dispatches[d]);
        var inbox := InboxOf(x, c);
        assert inbox[|inbox|..|inbox|] == [];
        assert !Addressed(x, c, d);
        assert Flying(x, d, c) == [];
      }
    }
  }

  lemma FinishFlow(x: Exchange, d: nat)
    requires LogsOk(x) && FlowsOk(x) && Enabled(x, Finish(d))
    ensures FlowsOk(Apply(x, Finish(d)))
  {
    var y := Apply(x, Finish(d));
    forall e | e in y.dispatches
      ensures FlowOk(y, e)
    {
      assert FlowOk(x, e) && LogOk(x.dispatches[e]);
    }
  }

  lemma FlowGrows(v: Dispatch, inbox: seq<Response>, r: Response)
    requires Flow(v, inbox, []) && !v.stage.Looked?
    ensures v.upto.Some? ==> Flow(v, inbox + [r], [])
    ensures v.upto.None? ==> Flow(v, inbox + [r], if r.requestId == v.requestId then [r] else [])
  {
    if v.upto.Some? {
      assert (inbox + [r])[v.from..v.upto.value] == inbox[v.from..v.upto.value];
    } else {
      assert (inbox + [r])[v.from..|inbox| + 1] == inbox[v.from..|inbox|] + [r];
      BearingGrows(inbox[v.from..|inbox|], r, v.requestId);
      assert v.routed + [] == v.routed;
    }
  }

  /** The lookup of a response finds the in-flight dispatch that bears its id, and no other. */
  lemma LookupFinds(x: Exchange, c: nat, r: Response, e: nat)
    requires PendingOk(x) && e in x.dispatches && x.dispatches[e].conn == c
    ensures (Key(c, r.requestId) in x.pending && x.pending[Key(c, r.requestId)] == e)
       <==> InFlightStage(x.dispatches[e].stage) && r.requestId == x.dispatches[e].requestId
  {
    var key := Key(c, r.requestId);
    if key in x.pending {
      assert Owned(x, key);
    }
    if InFlightStage(x.dispatches[e].stage) {
      assert Listed(x, e);
    }
  }

  /** What reading one response changes. */
  lemma ReadEffect(x: Exchange, c: nat, r: Response, e: nat, b: nat)
    requires Enabled(x, Read(c, r))
    ensures Apply(x, Read(c, r)).dispatches == x.dispatches
    ensures InboxOf(Apply(x, Read(c, r)), b) == if b == c then InboxOf(x, c) + [r] else InboxOf(x, b)
    ensures Flying(x, e, c) == []
    ensures Flying(Apply(x, Read(c, r)), e, b) ==
              if b != c then Flying(x, e, b)
              else if Key(c, r.requestId) in x.pending && x.pending[Key(c, r.requestId)] == e then [r]
              else []
  {
  }

  lemma ReadFlow(x: Exchange, c: nat, r: Response, e: nat)
    requires PendingOk(x) && LogsOk(x) && FlowsOk(x) && Enabled(x, Read(c, r)) && e in x.dispatches
    ensures FlowOk(Apply(x, Read(c, r)), e)
  {
    var v := x.dispatches[e];
    assert FlowOk(x, e) && LogOk(v);
    ReadEffect(x, c, r, e, v.conn);
    if v.conn == c {
      LookupFinds(x, c, r, e);
      if !v.stage.Looked? {
        FlowGrows(v, InboxOf(x, c), r);
      }
    }
  }

  lemma RouteFlow(x: Exchange, c: nat)
    requires ReadingOk(x) && FlowsOk(x) && Enabled(x, Route(c))
    ensures FlowsOk(Apply(x, Route(c)))
  {
    var y := Apply(x, Route(c));
    var f := x.reading[c];
    forall e | e in y.dispatches
      ensures FlowOk(y, e)
    {
      assert FlowOk(x, e);
      var v := x.dispatches[e];
      if f.target == Some(e) {
        assert Addressed(x, c, e);
        assert v.routed + [f.response] == (v.routed + [f.response]) + [];
      }
    }
  }

  // All parts together.

  lemma StageChangeKeeps(x: Exchange, d: nat, w: Dispatch)
    requires Inv(x) && d in x.dispatches && LogOk(w)
    requires var v := x.dispatches[d];
             (w.conn, w.requestId, w.from, w.upto, w.routed) == (v.conn, v.requestId, v.from, v.upto, v.routed)
             && InFlightStage(v.stage) && InFlightStage(w.stage)
    ensures Inv(x.(dispatches := x.dispatches[d := w]))
  {
    StageChangeTable(x, d, w);
    StageChangeLogs(x, d, w);
    StageChangeFlow(x, d, w);
  }

  lemma BeginKeeps(x: Exchange, d: nat, c: nat, r: string)
    requires Inv(x) && Enabled(x, Begin(d, c, r))
    ensures Inv(Apply(x, Begin(d, c, r)))
  {
    BeginTable(x, d, c, r);
    var y := Apply(x, Begin(d, c, r));
    forall e | e in y.dispatches
      ensures FlowOk(y, e)
    {
      assert e != d ==> FlowOk(x, e);
    }
  }

  lemma RouteLogs(x: Exchange, c: nat)
    requires ReadingOk(x) && LogsOk(x) && Enabled(x, Route(c))
    ensures LogsOk(Apply(x, Route(c)))
  {
    var f := x.reading[c];
    if f.target.Some? {
      assert Addressed(x, c, f.target.value);
      RoutedLogOk(x.dispatches[f.target.value], f.response);
    }
  }

  lemma RouteKeeps(x: Exchange, c: nat)
    requires Inv(x) && Enabled(x, Route(c))
    ensures Inv(Apply(x, Route(c)))
  {
    RouteTable(x, c);
    RouteFlow(x, c);
    RouteLogs(x, c);
  }

  lemma ReadKeeps(x: Exchange, c: nat, r: Response)
    requires Inv(x) && Enabled(x, Read(c, r))
    ensures Inv(Apply(x, Read(c, r)))
  {
    ReadTable(x, c, r);
    var y := Apply(x, Read(c, r));
    forall e | e in y.dispatches
      ensures FlowOk(y, e)
    {
      ReadFlow(x, c, r, e);
    }
  }

  lemma EnterKeeps(x: Exchange, d: nat)
    requires Inv(x) && Enabled(x, Enter(d))
    ensures Inv(Apply(x, Enter(d)))
  {
    EnterTable(x, d);
    EnterFlow(x, d);
  }

  lemma FinishLogs(x: Exchange, d: nat)
    requires LogsOk(x) && Enabled(x, Finish(d))
    ensures LogsOk(Apply(x, Finish(d)))
  {
    assert LogOk(x.dispatches[d]);
  }

  lemma FinishKeeps(x: Exchange, d: nat)
    requires Inv(x) && Enabled(x, Finish(d))
    ensures Inv(Apply(x, Finish(d)))
  {
    FinishTable(x, d);
    FinishFlow(x, d);
    FinishLogs(x, d);
  }

  lemma WaitKeeps(x: Exchange, a: Action)
    requires Inv(x) && Enabled(x, a) && (a.Write? || a.Abort? || a.Receive?)
    ensures Inv(Apply(x, a))
  {
    var v := x.dispatches[a.d];
    assert LogOk(v);
    if a.Receive? {
      ReceivedLogOk(v);
    }
    StageChangeKeeps(x, a.d, Apply(x, a).dispatches[a.d]);
  }

  lemma StepKeeps(x: Exchange, a: Action)
    requires Inv(x) && Enabled(x, a)
    ensures Inv(Apply(x, a))
  {
    match a {
      case Begin(d, c, r) => BeginKeeps(x, d, c, r);
      case Enter(d) => EnterKeeps(x, d);
      case Write(_, _) => WaitKeeps(x, a);
      case Receive(_) => WaitKeeps(x, a);
      case Abort(_, _) => WaitKeeps(x, a);
      case Finish(d) => FinishKeeps(x, d);
      case Read(c, r) => ReadKeeps(x, c, r);
      case Route(c) => RouteKeeps(x, c);
    }
  }

  ghost predicate ValidRun(x: Exchange, acts: seq<Action>)
    decreases |acts|
  {
    acts == [] || (Enabled(x, acts[0]) && ValidRun(Apply(x, acts[0]), acts[1..]))
  }

  ghost function After(x: Exchange, acts: seq<Action>): Exchange
    requires ValidRun(x, acts)
    decreases |acts|
  {
    if acts == [] then x else After(Apply(x, acts[0]), acts[1..])
  }

  lemma {:induction false} RunKeeps(x: Exchange, acts: seq<Action>)
    requires Inv(x) && ValidRun(x, acts)
    ensures Inv(After(x, acts))
    decreases |acts|
  {
    if acts != [] {
      StepKeeps(x, acts[0]);
      RunKeeps(Apply(x, acts[0]), acts[1..]);
    }
  }
}
