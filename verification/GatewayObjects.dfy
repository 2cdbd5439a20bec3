/** The gateway's objects: a bounded response channel, a connected client with its pending table and
    `done` signal, and the table of clients. */
module GatewayObjects {
  import opened Options
  import opened GatewayDispatch

  class Channel {
    var buffer: seq<Response>

    constructor ()
      ensures buffer == []
    {
      buffer := [];
    }

    /** A send that gives up when the channel is full. */
    method TrySend(r: Response) returns (taken: bool)
      modifies this
      ensures buffer == Offer(old(buffer), r)
      ensures taken <==> |old(buffer)| < CAPACITY
    {
      taken := |buffer| < 32;
      if taken {
        buffer := buffer + [r];
      }
    }
  }

  class Client {
    const agent: int
    var pending: map<string, Channel>
    var done: bool

    constructor (agent: int)
      ensures this.agent == agent && pending == map[] && !done
    {
      this.agent := agent;
      this.pending := map[];
      this.done := false;
    }

    /** Enters a dispatch in the pending table with a fresh, empty channel. */
    method Enter(requestId: string) returns (ch: Channel)
      modifies this`pending
      ensures fresh(ch) && ch.buffer == []
      ensures pending == old(pending)[requestId := ch]
    {
      ch := new Channel();
      pending := pending[requestId := ch];
    }

    method Leave(requestId: string)
      modifies this`pending
      ensures pending == old(pending) - {requestId}
    {
      pending := pending - {requestId};
    }

    /** One round of the read loop on a response: offered to the channel pending under its id, if any,
        and to no other. */
    method Route(r: Response) returns (taken: bool)
      modifies set id | id in pending :: pending[id]
      ensures r.requestId in pending ==> pending[r.requestId].buffer == Offer(old(pending[r.requestId].buffer), r)
      ensures taken <==> r.requestId in pending && |old(pending[r.requestId].buffer)| < CAPACITY
      ensures forall id :: id in pending && (r.requestId !in pending || pending[id] != pending[r.requestId]) ==>
                pending[id].buffer == old(pending[id].buffer)
    {
      taken := false;
      if r.requestId in pending {
        var ch := pending[r.requestId];
        taken := ch.TrySend(r);
      }
    }

    /** Closing again changes nothing. */
    method Close()
      modifies this`done
      ensures done
    {
      done := true;
    }
  }

  /** What may happen next while a dispatch waits: one of its three signals, the read loop offering a
      response to the client, or the dispatcher receiving from its channel. */
  datatype Event = ContextEnds | DoneCloses | TimerFires | Offers(response: Response) | Receives

  /** The dispatch after one event; a receive from an empty channel does not happen. */
  function Advance(v: Dispatch, e: Event): Dispatch {
    match e
    case ContextEnds => v.(stage := Leaving(ContextDone))
    case DoneCloses => v.(stage := Leaving(Disconnected))
    case TimerFires => v.(stage := Leaving(TimedOut))
    case Offers(r) => if r.requestId == v.requestId then Routed(v, r) else v
    case Receives => if v.buffer == [] then v else Received(v)
  }

  /** The dispatch after the events, up to the one that ends its wait. */
  function Play(v: Dispatch, events: seq<Event>): Dispatch
    decreases |events|
  {
    if events == [] || v.stage.Leaving? then v else Play(Advance(v, events[0]), events[1..])
  }

  function OutcomeOf(v: Dispatch): Option<Result> {
    if v.stage.Leaving? then Some(v.stage.result) else None
  }

  /** The events keep the logs of the dispatch in order, and only responses with its id are offered to it. */
  lemma {:induction false} PlayKeeps(v: Dispatch, events: seq<Event>)
    requires LogOk(v) && (v.stage.Waiting? || v.stage.Leaving?)
    requires forall r :: r in v.routed ==> r.requestId == v.requestId
    ensures var w := Play(v, events);
            && LogOk(w) && (w.stage.Waiting? || w.stage.Leaving?) && w.requestId == v.requestId
            && forall r :: r in w.routed ==> r.requestId == v.requestId && (r in v.routed || Event.Offers(r) in events)
    decreases |events|
  {
    if events != [] && v.stage.Waiting? {
      match events[0] {
        case Offers(r) => RoutedLogOk(v, r);
        case Receives => if v.buffer != [] { ReceivedLogOk(v); }
        case _ =>
      }
      PlayKeeps(Advance(v, events[0]), events[1..]);
    }
  }

  /** What the outcome of a dispatch means: a success response of its own that the read loop offered to
      it, received from its channel after responses none of which was final. */
  lemma AnswerIsOwn(requestId: string, events: seq<Event>, r: Response)
    requires OutcomeOf(Play(Asked(requestId), events)) == Some(Answered(r))
    ensures r.kind.Success? && r.requestId == requestId && Event.Offers(r) in events
    ensures var w := Play(Asked(requestId), events);
            w.consumed != [] && w.consumed[|w.consumed| - 1] == r && NotFinal(w.consumed[..|w.consumed| - 1])
  {
    PlayKeeps(Asked(requestId), events);
    var w := Play(Asked(requestId), events);
    assert w.sent[|w.consumed| - 1] == r;
    SubsequenceMember(w.sent, w.routed, r);
  }

  // ---------------------------------------------------------------------------
  // The outcome, read off the events
  // ---------------------------------------------------------------------------

  /** A first-in first-out queue of at most 32 places: what waits in it and what has left it. */
  datatype Queue = Queue(waiting: seq<Response>, left: seq<Response>)

  /** The queue that offers with the id fill and receives empty; the signals do not touch it. */
  function Queued(requestId: string, events: seq<Event>): Queue
    decreases |events|
  {
    if events == [] then Queue([], [])
    else
      var q := Queued(requestId, events[..|events| - 1]);
      match events[|events| - 1]
      case Offers(r) => if r.requestId == requestId && |q.waiting| < 32 then q.(waiting := q.waiting + [r]) else q
      case Receives => if q.waiting == [] then q else Queue(q.waiting[1..], q.left + [q.waiting[0]])
      case _ => q
  }

  /** Event i receives this response from the queue. */
  predicate Gets(requestId: string, events: seq<Event>, i: int, r: Response) {
    && 0 <= i < |events| && events[i].Receives?
    && Queued(requestId, events[..i]).waiting != [] && Queued(requestId, events[..i]).waiting[0] == r
  }

  /** Event i is one after which a dispatch does not wait any longer: a signal, or the receipt of a
      response that is not a progress report. */
  predicate Decides(requestId: string, events: seq<Event>, i: int) {
    && 0 <= i < |events|
    && (events[i].ContextEnds? || events[i].DoneCloses? || events[i].TimerFires?
        || (Queued(requestId, events[..i]).waiting != [] && events[i].Receives?
            && Queued(requestId, events[..i]).waiting[0].kind != Progress))
  }

  ghost predicate FirstDecision(requestId: string, events: seq<Event>, i: int) {
    Decides(requestId, events, i) && forall j :: 0 <= j < i ==> !Decides(requestId, events, j)
  }

  /** Each outcome and exactly when it comes about. */
  ghost predicate IsOutcome(requestId: string, events: seq<Event>, outcome: Option<Result>) {
    && (outcome == None <==> forall i :: !Decides(requestId, events, i))
    && (outcome == Some(ContextDone) <==> exists i :: FirstDecision(requestId, events, i) && events[i] == ContextEnds)
    && (outcome == Some(Disconnected) <==> exists i :: FirstDecision(requestId, events, i) && events[i] == DoneCloses)
    && (outcome == Some(TimedOut) <==> exists i :: FirstDecision(requestId, events, i) && events[i] == TimerFires)
    && (forall r :: outcome == Some(Answered(r)) <==>
          r.kind == Success && exists i :: FirstDecision(requestId, events, i) && Gets(requestId, events, i, r))
    && (forall r :: outcome == Some(Rejected(r)) <==>
          r.kind in {Failed, Cancelled, Timeout} && exists i :: FirstDecision(requestId, events, i) && Gets(requestId, events, i, r))
    && outcome != Some(WriteError)
  }

  lemma QueuedStep(requestId: string, events: seq<Event>, i: nat)
    requires i < |events|
    ensures events[..i + 1][..i] == events[..i] && events[..i + 1][i] == events[i]
  {
  }

  lemma OneFirst(requestId: string, events: seq<Event>, i: int, j: int)
    requires FirstDecision(requestId, events, i) && FirstDecision(requestId, events, j)
    ensures i == j
  {
  }

  /** The outcome that belongs to the deciding event. */
  lemma DecidedOutcome(requestId: string, events: seq<Event>, i: int, result: Result)
    requires FirstDecision(requestId, events, i)
    requires match events[i]
             case ContextEnds => result == ContextDone
             case DoneCloses => result == Disconnected
             case TimerFires => result == TimedOut
             case Offers(_) => false
             case Receives =>
               var r := Queued(requestId, events[..i]).waiting[0];
               result == if r.kind == Success then Answered(r) else Rejected(r)
    ensures IsOutcome(requestId, events, Some(result))
  {
    forall j | FirstDecision(requestId, events, j)
      ensures j == i
    {
      OneFirst(requestId, events, i, j);
    }
  }

  /** What the queue hands out was offered to it under its id. */
  lemma {:induction false} QueuedIsOffered(requestId: string, events: seq<Event>, r: Response)
    requires r in Queued(requestId, events).waiting
    ensures r.requestId == requestId && Event.Offers(r) in events
    decreases |events|
  {
    var n := |events| - 1;
    if r in Queued(requestId, events[..n]).waiting {
      QueuedIsOffered(requestId, events[..n], r);
    }
  }

  /** A rejection is the counterpart of an answer: a failed, cancelled or timed-out response of its own
      that the read loop offered, and the first final one received. */
  lemma RejectionIsOwn(requestId: string, events: seq<Event>, outcome: Option<Result>, r: Response)
    requires IsOutcome(requestId, events, outcome) && outcome == Some(Rejected(r))
    ensures r.kind in {Failed, Cancelled, Timeout} && r.requestId == requestId && Event.Offers(r) in events
    ensures exists i :: Gets(requestId, events, i, r)
              && forall j, earlier :: j < i && Gets(requestId, events, j, earlier) ==> earlier.kind == Progress
  {
    var i :| FirstDecision(requestId, events, i) && Gets(requestId, events, i, r);
    QueuedIsOffered(requestId, events[..i], r);
    forall j, earlier | j < i && Gets(requestId, events, j, earlier)
      ensures earlier.kind == Progress
    {
      assert !Decides(requestId, events, j);
    }
  }

  class Gateway {
    var clients: map<int, Client>

    constructor ()
      ensures clients == map[]
    {
      clients := map[];
    }

    /** The newcomer takes the agent's place; the one it replaces is closed. */
    method Register(c: Client)
      modifies this, set a | a in clients :: clients[a]`done
      ensures clients == old(clients)[c.agent := c]
      ensures c.agent in old(clients) ==> old(clients)[c.agent].done
      ensures forall a :: a in old(clients) && (c.agent !in old(clients) || old(clients)[a] != old(clients)[c.agent]) ==>
                old(clients)[a].done == old(clients[a].done)
    {
      var previous := if c.agent in clients then Some(clients[c.agent]) else None;
      clients := clients[c.agent := c];
      if previous.Some? {
        previous.value.Close();
      }
    }

    /** Removes the client only if it is still the agent's current one, and closes it. */
    method Unregister(c: Client)
      modifies this, c`done
      ensures clients == if c.agent in old(clients) && old(clients)[c.agent] == c then old(clients) - {c.agent} else old(clients)
      ensures c.done
    {
      if c.agent in clients && clients[c.agent] == c {
        clients := clients - {c.agent};
      }
      c.Close();
    }

    method Get(agent: int) returns (c: Option<Client>)
      ensures c == if agent in clients then Some(clients[agent]) else None
    {
      if agent in clients {
        return Some(clients[agent]);
      }
      return None;
    }

    /** One dispatch: look the client up, enter the pending table, write the request, await the
        verdict, and leave the table whatever happened. `None` as outcome means still waiting. */
    method Dispatch(agent: int, requestId: string, writeOk: bool, events: seq<Event>)
      returns (offline: bool, outcome: Option<Result>)
      modifies set a | a in clients :: clients[a]`pending
      modifies set a, id | a in clients && id in clients[a].pending :: clients[a].pending[id]
      ensures offline <==> agent !in clients
      ensures offline ==> outcome == None
      ensures !offline ==> clients[agent].pending == old(clients[agent].pending) - {requestId}
      ensures !offline && !writeOk ==> outcome == Some(WriteError)
      ensures !offline && writeOk ==> outcome == OutcomeOf(Play(Asked(requestId), events))
      ensures !offline && writeOk ==> IsOutcome(requestId, events, outcome)
    {
      var found := Get(agent);
      if found == None {
        return true, None;
      }
      var c := found.value;
      var ch := c.Enter(requestId);
      if !writeOk {
        c.Leave(requestId);
        return false, Some(WriteError);
      }
      var result := Await(c, requestId, ch, events);
      c.Leave(requestId);
      assert c.pending == old(clients[agent].pending) - {requestId};
      return false, result;
    }

    /** The dispatcher's receive loop, with the read loop's sends in between; None while it still waits. */
    static method Await(c: Client, requestId: string, ch: Channel, events: seq<Event>) returns (result: Option<Result>)
      requires requestId in c.pending && c.pending[requestId] == ch && ch.buffer == []
      requires forall id :: id in c.pending && id != requestId ==> c.pending[id] != ch
      modifies set id | id in c.pending :: c.pending[id]
      ensures result == OutcomeOf(Play(Asked(requestId), events))
      ensures IsOutcome(requestId, events, result)
    {
      ghost var v := Asked(requestId);
      assert events[0..] == events;
      for i := 0 to |events|
        invariant v.stage == Waiting && v.requestId == requestId && ch.buffer == v.buffer
        invariant Play(v, events[i..]) == Play(Asked(requestId), events)
        invariant ch.buffer == Queued(requestId, events[..i]).waiting
        invariant forall j :: 0 <= j < i ==> !Decides(requestId, events, j)
      {
        QueuedStep(requestId, events, i);
        assert events[i..][1..] == events[i + 1..];
        ghost var before := v;
        v := Advance(v, events[i]);
        assert Play(before, events[i..]) == Play(v, events[i + 1..]);
        match events[i] {
          case ContextEnds =>
            DecidedOutcome(requestId, events, i, ContextDone);
            return Some(ContextDone);
          case DoneCloses =>
            DecidedOutcome(requestId, events, i, Disconnected);
            return Some(Disconnected);
          case TimerFires =>
            DecidedOutcome(requestId, events, i, TimedOut);
            return Some(TimedOut);
          case Offers(r) =>
            var _ := c.Route(r);
          case Receives =>
            if ch.buffer != [] {
              var r := ch.buffer[0];
              ch.buffer := ch.buffer[1..];
              if r.kind == Success {
                DecidedOutcome(requestId, events, i, Answered(r));
                return Some(Answered(r));
              }
              if r.kind == Failed || r.kind == Cancelled || r.kind == Timeout {
                DecidedOutcome(requestId, events, i, Rejected(r));
                return Some(Rejected(r));
              }
            }
        }
      }
      return None;
    }
  }
}
