/** Agent connections at the gateway: the `clients` table, replacement by a newer connection, and
    the once-only `done` signal. Every lock section is one step; the rest interleaves. */
module GatewayRegistry {
  import opened Options

  /** Where the goroutine serving a connection is. `Registering(previous)` lies between the table swap and
      the close of the connection it replaced; `Ended` between the end of the read loop and `unregister`. */
  datatype Phase = Registering(previous: Option<nat>) | Live | Ended | Gone

  datatype Link = Link(agent: int, phase: Phase, done: bool)

  /** `newest[a]` records which connection of agent `a` registered last. */
  datatype Registry = Registry(clients: map<int, nat>, links: map<nat, Link>, newest: map<int, nat>)

  const NO_AGENTS := Registry(map[], map[], map[])

  datatype Action =
    | Register(c: nat, agent: int)
    | CloseOld(c: nat)
    | EndRead(c: nat)
    | Unregister(c: nat)

  predicate Enabled(g: Registry, act: Action) {
    match act
    case Register(c, _) => c !in g.links
    case CloseOld(c) => c in g.links && g.links[c].phase.Registering?
    case EndRead(c) => c in g.links && g.links[c].phase.Live?
    case Unregister(c) => c in g.links && g.links[c].phase.Ended?
  }

  function Current(g: Registry, a: int): Option<nat> {
    if a in g.clients then Some(g.clients[a]) else None
  }

  function Close(links: map<nat, Link>, c: nat): map<nat, Link> {
    if c in links then links[c := links[c].(done := true)] else links
  }

  function Apply(g: Registry, act: Action): Registry
    requires Enabled(g, act)
  {
    match act
    case Register(c, a) =>
      Registry(g.clients[a := c],
               g.links[c := Link(a, Registering(Current(g, a)), false)],
               g.newest[a := c])
    case CloseOld(c) =>
      var links := match g.links[c].phase.previous case Some(o) => Close(g.links, o) case None => g.links;
      g.(links := links[c := links[c].(phase := Live)])
    case EndRead(c) =>
      g.(links := Close(g.links, c)[c := g.links[c].(phase := Ended, done := true)])
    case Unregister(c) =>
      var a := g.links[c].agent;
      g.(clients := if Current(g, a) == Some(c) then g.clients - {a} else g.clients,
         links := g.links[c := g.links[c].(phase := Gone, done := true)])
  }

  // ---------------------------------------------------------------------------
  // Invariant
  // ---------------------------------------------------------------------------

  ghost predicate NewestOk(g: Registry) {
    && (forall a :: a in g.newest ==> g.newest[a] in g.links && g.links[g.newest[a]].agent == a)
    && (forall c :: c in g.links ==> g.links[c].agent in g.newest)
  }

  /** The table holds the newest connection of each agent, unless that one has unregistered. */
  ghost predicate ClientsOk(g: Registry) {
    && (forall a :: a in g.clients ==> a in g.newest && g.clients[a] == g.newest[a])
    && (forall a :: a in g.newest && g.newest[a] in g.links ==>
          (a in g.clients <==> g.links[g.newest[a]].phase != Gone))
  }

  predicate IsNewest(g: Registry, c: nat) {
    c in g.links && Newest(g, g.links[c].agent) == Some(c)
  }

  function Newest(g: Registry, a: int): Option<nat> {
    if a in g.newest then Some(g.newest[a]) else None
  }

  /** Connection `d` is about to close `c`. */
  predicate Replaces(g: Registry, d: nat, c: nat) {
    d in g.links && g.links[d].phase == Registering(Some(c))
  }

  /** An open connection is the newest of its agent, or a newer one of the agent is about to close it. */
  ghost predicate OpenOk(g: Registry) {
    forall c :: c in g.links && !g.links[c].done ==> IsNewest(g, c) || exists d :: Replaces(g, d, c)
  }

  ghost predicate PhasesOk(g: Registry) {
    && (forall c :: c in g.links && (g.links[c].phase.Ended? || g.links[c].phase.Gone?) ==> g.links[c].done)
    && (forall c, d :: Replaces(g, d, c) ==> c in g.links && c != d && g.links[c].agent == g.links[d].agent)
  }

  ghost predicate Inv(g: Registry) {
    NewestOk(g) && ClientsOk(g) && OpenOk(g) && PhasesOk(g)
  }

  lemma RegisterKeeps(g: Registry, c: nat, a: int)
    requires Inv(g) && Enabled(g, Register(c, a))
    ensures Inv(Apply(g, Register(c, a)))
  {
    var g' := Apply(g, Register(c, a));
    forall x | x in g'.links && !g'.links[x].done && x != c
      ensures IsNewest(g', x) || exists d :: Replaces(g', d, x)
    {
      if IsNewest(g, x) {
        if g.links[x].agent == a {
          assert Replaces(g', c, x);
        }
      } else {
        var d :| Replaces(g, d, x);
        assert Replaces(g', d, x);
      }
    }
    assert PhasesOk(g') by {
      forall x, d | Replaces(g', d, x)
        ensures x in g'.links && x != d && g'.links[x].agent == g'.links[d].agent
      {
        assert d == c || Replaces(g, d, x);
      }
    }
  }

  /** Closing connections and moving phases on keeps the registrations; only a finished replacement
      may have its target closed. */
  lemma PhaseChangeKeepsOpen(g: Registry, g': Registry)
    requires OpenOk(g) && g'.newest == g.newest && g'.links.Keys == g.links.Keys
    requires forall c :: c in g.links ==> g'.links[c].agent == g.links[c].agent
    requires forall c :: c in g.links && !g'.links[c].done ==> !g.links[c].done
    requires forall c, d :: Replaces(g, d, c) ==> c in g.links
    requires forall c, d :: Replaces(g, d, c) && !g'.links[c].done ==> Replaces(g', d, c)
    ensures OpenOk(g')
  {
    forall x | x in g'.links && !g'.links[x].done
      ensures IsNewest(g', x) || exists d :: Replaces(g', d, x)
    {
      if IsNewest(g, x) {
        assert IsNewest(g', x);
      } else {
        var d :| Replaces(g, d, x);
        assert Replaces(g', d, x);
      }
    }
  }

  lemma CloseOldPhases(g: Registry, c: nat)
    requires PhasesOk(g) && Enabled(g, CloseOld(c))
    ensures PhasesOk(Apply(g, CloseOld(c)))
    ensures forall x, d :: Replaces(Apply(g, CloseOld(c)), d, x) <==> Replaces(g, d, x) && d != c
  {
  }

  lemma CloseOldTables(g: Registry, c: nat)
    requires NewestOk(g) && ClientsOk(g) && PhasesOk(g) && Enabled(g, CloseOld(c))
    ensures NewestOk(Apply(g, CloseOld(c))) && ClientsOk(Apply(g, CloseOld(c)))
  {
  }

  lemma CloseOldKeeps(g: Registry, c: nat)
    requires Inv(g) && Enabled(g, CloseOld(c))
    ensures Inv(Apply(g, CloseOld(c)))
  {
    CloseOldPhases(g, c);
    CloseOldTables(g, c);
    PhaseChangeKeepsOpen(g, Apply(g, CloseOld(c)));
  }

  lemma EndPhases(g: Registry, act: Action)
    requires PhasesOk(g) && (act.EndRead? || act.Unregister?) && Enabled(g, act)
    ensures PhasesOk(Apply(g, act))
    ensures forall x, d :: Replaces(Apply(g, act), d, x) <==> Replaces(g, d, x)
  {
  }

  lemma EndTables(g: Registry, act: Action)
    requires NewestOk(g) && ClientsOk(g) && (act.EndRead? || act.Unregister?) && Enabled(g, act)
    ensures NewestOk(Apply(g, act)) && ClientsOk(Apply(g, act))
  {
  }

  lemma EndKeeps(g: Registry, act: Action)
    requires Inv(g) && (act.EndRead? || act.Unregister?) && Enabled(g, act)
    ensures Inv(Apply(g, act))
  {
    EndPhases(g, act);
    EndTables(g, act);
    PhaseChangeKeepsOpen(g, Apply(g, act));
  }

  lemma StepKeeps(g: Registry, act: Action)
    requires Inv(g) && Enabled(g, act)
    ensures Inv(Apply(g, act))
  {
    match act {
      case Register(c, a) => RegisterKeeps(g, c, a);
      case CloseOld(c) => CloseOldKeeps(g, c);
      case EndRead(_) => EndKeeps(g, act);
      case Unregister(_) => EndKeeps(g, act);
    }
  }

  ghost predicate ValidRun(g: Registry, acts: seq<Action>)
    decreases |acts|
  {
    acts == [] || (Enabled(g, acts[0]) && ValidRun(Apply(g, acts[0]), acts[1..]))
  }

  ghost function After(g: Registry, acts: seq<Action>): Registry
    requires ValidRun(g, acts)
    decreases |acts|
  {
    if acts == [] then g else After(Apply(g, acts[0]), acts[1..])
  }

  lemma {:induction false} RunKeeps(g: Registry, acts: seq<Action>)
    requires Inv(g) && ValidRun(g, acts)
    ensures Inv(After(g, acts))
    decreases |acts|
  {
    if acts != [] {
      StepKeeps(g, acts[0]);
      RunKeeps(Apply(g, acts[0]), acts[1..]);
    }
  }

  // ---------------------------------------------------------------------------
  // What it means
  // ---------------------------------------------------------------------------

  /** After any run, looking an agent up yields its most recently registered connection, or nothing
      exactly when there is none or that one has unregistered. */
  lemma LookupIsNewest(acts: seq<Action>, a: int)
    requires ValidRun(NO_AGENTS, acts)
    ensures var g := After(NO_AGENTS, acts);
            match Newest(g, a)
            case None => Current(g, a) == None
            case Some(c) => c in g.links && Current(g, a) == if g.links[c].phase == Gone then None else Some(c)
  {
    RunKeeps(NO_AGENTS, acts);
  }

  /** The late unregister of a superseded connection leaves its successor in the table. */
  lemma LateUnregisterHarmless(acts: seq<Action>, c: nat)
    requires ValidRun(NO_AGENTS, acts)
    requires Enabled(After(NO_AGENTS, acts), Unregister(c))
    ensures var g := After(NO_AGENTS, acts);
            var g' := Apply(g, Unregister(c));
            forall a :: Current(g', a) == if Newest(g, a) == Some(c) then None else Current(g, a)
  {
    RunKeeps(NO_AGENTS, acts);
  }

  predicate NoneRegistering(g: Registry, a: int) {
    forall e | e in g.links :: g.links[e].agent == a ==> !g.links[e].phase.Registering?
  }

  lemma OpenIsNewest(g: Registry, c: nat)
    requires Inv(g) && c in g.links && !g.links[c].done && NoneRegistering(g, g.links[c].agent)
    ensures IsNewest(g, c)
  {
    assert forall d :: Replaces(g, d, c) ==> d in g.links && g.links[c].agent == g.links[d].agent;
    assert forall d :: !Replaces(g, d, c);
  }

  /** While no registration of the agent is under way, at most one of its connections is open,
      and it is the newest. */
  lemma AtMostOneOpen(acts: seq<Action>, a: int)
    requires ValidRun(NO_AGENTS, acts) && NoneRegistering(After(NO_AGENTS, acts), a)
    ensures var g := After(NO_AGENTS, acts);
            forall c :: c in g.links && g.links[c].agent == a && !g.links[c].done ==> Newest(g, a) == Some(c)
  {
    RunKeeps(NO_AGENTS, acts);
    var g := After(NO_AGENTS, acts);
    forall c | c in g.links && g.links[c].agent == a && !g.links[c].done
      ensures IsNewest(g, c)
    {
      OpenIsNewest(g, c);
    }
  }

  /** A closed connection stays closed. */
  lemma {:induction false} DoneIsFinal(g: Registry, acts: seq<Action>, c: nat)
    requires ValidRun(g, acts) && c in g.links && g.links[c].done
    ensures c in After(g, acts).links && After(g, acts).links[c].done
    decreases |acts|
  {
    if acts != [] {
      DoneIsFinal(Apply(g, acts[0]), acts[1..], c);
    }
  }
}
