/** The alert engine refines its history specification, and every event has an orderly life. */
module AlertTheorems {
  import opened Options
  import opened AlertEngine
  import opened Sets

  // ---------------------------------------------------------------------------
  // What every reachable state keeps
  // ---------------------------------------------------------------------------

  predicate Clash(e: Event, e': Event) {
    IsOpen(e) && IsOpen(e') && e.fingerprint == e'.fingerprint
  }

  ghost predicate EventsOk(s: State) {
    && (forall id :: id in s.events ==> 1 <= id <= s.lastId)
    && (forall id :: id in s.events ==> (s.events[id].resolvedAt.Some? <==> s.events[id].status == Resolved))
    && (forall a, b :: a in s.events && b in s.events && Clash(s.events[a], s.events[b]) ==> a == b)
  }

  lemma UpsertOk(s: State, o: Op)
    requires EventsOk(s) && o.Observe? && s.lastId >= 0
    ensures EventsOk(Upserted(s, o)) && Upserted(s, o).lastId >= s.lastId
  {
    var found := LatestOpen(s.events, o.fingerprint);
    if found == None {
      var open, fingerprint := OpenIds(s.events, o.fingerprint), o.fingerprint;
      assert forall id :: id in s.events && s.events[id].fingerprint == fingerprint ==> (IsOpen(s.events[id]) <==> id in open);
    }
  }

  lemma StepOk(s: State, o: Op)
    requires EventsOk(s) && s.lastId >= 0
    ensures EventsOk(Apply(s, o)) && Apply(s, o).lastId >= s.lastId
  {
    if o.Observe? && o.holds {
      UpsertOk(s.(firstTrue := Noted(s.firstTrue, o.fingerprint, o.now, o.duration)), o);
    }
  }

  lemma {:induction false} RunOk(ops: seq<Op>)
    ensures EventsOk(Run(FRESH, ops)) && Run(FRESH, ops).lastId >= 0
    decreases |ops|
  {
    if ops != [] {
      RunOk(ops[..|ops| - 1]);
      StepOk(Run(FRESH, ops[..|ops| - 1]), ops[|ops| - 1]);
    }
  }

  /** Although the table has no unique index, a fingerprint never has two open events, and an event
      carries a resolution time exactly when it is resolved. */
  lemma OneOpenEvent(ops: seq<Op>, fingerprint: string)
    ensures |OpenIds(Run(FRESH, ops).events, fingerprint)| <= 1
    ensures forall id :: id in Run(FRESH, ops).events ==>
              (Run(FRESH, ops).events[id].resolvedAt.Some? <==> Run(FRESH, ops).events[id].status == Resolved)
  {
    RunOk(ops);
    var open := OpenIds(Run(FRESH, ops).events, fingerprint);
    if open != {} {
      var id := SomeMember(open);
      forall j
        ensures j in open <==> j == id
      {
        assert j in open ==> Clash(Run(FRESH, ops).events[j], Run(FRESH, ops).events[id]);
      }
      assert open == {id};
    }
  }

  // ---------------------------------------------------------------------------
  // The detector refines the specification
  // ---------------------------------------------------------------------------

  predicate HasOpen(s: State, fingerprint: string) {
    OpenIds(s.events, fingerprint) != {}
  }

  /** The rule behind a fingerprint has one duration. */
  predicate Uniform(ops: seq<Op>, fingerprint: string, duration: int) {
    forall i :: 0 <= i < |ops| && ops[i].Observe? && ops[i].fingerprint == fingerprint ==> ops[i].duration == duration
  }

  /** The remembered start time is the start of the current run. */
  predicate Remembers(s: State, fingerprint: string, h: seq<Mark>, duration: int) {
    if duration > 0 && RunStart(h).Some? then fingerprint in s.firstTrue && s.firstTrue[fingerprint] == RunStart(h).value
    else fingerprint !in s.firstTrue
  }

  lemma UpsertOpens(s: State, o: Op, fingerprint: string)
    requires EventsOk(s) && o.Observe?
    ensures HasOpen(Upserted(s, o), fingerprint) <==> HasOpen(s, fingerprint) || fingerprint == o.fingerprint
  {
    var s' := Upserted(s, o);
    var found := LatestOpen(s.events, o.fingerprint);
    var id := if found.Some? then found.value else s.lastId + 1;
    assert id in OpenIds(s'.events, o.fingerprint);
    assert forall j :: j != id ==> (j in OpenIds(s'.events, fingerprint) <==> j in OpenIds(s.events, fingerprint));
    if fingerprint != o.fingerprint {
      assert OpenIds(s'.events, fingerprint) == OpenIds(s.events, fingerprint);
    }
  }

  lemma ResolveCloses(s: State, fp: string, now: int, fingerprint: string)
    ensures HasOpen(ResolvedAll(s, fp, now), fingerprint) <==> HasOpen(s, fingerprint) && fingerprint != fp
  {
    var after, before := OpenIds(ResolvedAll(s, fp, now).events, fingerprint), OpenIds(s.events, fingerprint);
    forall id
      ensures id in after <==> id in before && fingerprint != fp
    {
      assert id in s.events ==> ResolvedAll(s, fp, now).events[id].fingerprint == s.events[id].fingerprint;
    }
    assert after == if fingerprint == fp then {} else before;
  }

  lemma AcknowledgeKeepsOpen(s: State, id: int, fingerprint: string)
    ensures OpenIds(AcknowledgedEvent(s, id).events, fingerprint) == OpenIds(s.events, fingerprint)
  {
  }

  ghost predicate Tracks(s: State, fingerprint: string, h: seq<Mark>, duration: int) {
    Remembers(s, fingerprint, h, duration) && (HasOpen(s, fingerprint) <==> OpenNow(h, duration))
  }

  /** What one more mark does to the two ways the specification is read. */
  lemma OneMore(h: seq<Mark>, m: Mark, duration: int)
    ensures RunStart(h + [m]) ==
            if !JudgedTrue(m) then None else if RunStart(h).Some? then RunStart(h) else Some(m.at)
    ensures OpenNow(h + [m], duration) <==>
            match m
            case Boot => OpenNow(h, duration)
            case Judged(at, holds) =>
              holds && (OpenNow(h, duration) || duration <= 0 || (RunStart(h).Some? && at - RunStart(h).value >= duration))
  {
    assert (h + [m])[..|h|] == h;
  }

  lemma TrueTracks(s: State, o: Op, h: seq<Mark>)
    requires EventsOk(s) && o.Observe? && o.holds && Tracks(s, o.fingerprint, h, o.duration)
    ensures Tracks(Apply(s, o), o.fingerprint, h + [Judged(o.now, true)], o.duration)
  {
    OneMore(h, Judged(o.now, true), o.duration);
    UpsertOpens(s.(firstTrue := Noted(s.firstTrue, o.fingerprint, o.now, o.duration)), o, o.fingerprint);
  }

  lemma FalseTracks(s: State, o: Op, h: seq<Mark>)
    requires o.Observe? && !o.holds
    ensures Tracks(Apply(s, o), o.fingerprint, h + [Judged(o.now, false)], o.duration)
  {
    OneMore(h, Judged(o.now, false), o.duration);
    ResolveCloses(s.(firstTrue := s.firstTrue - {o.fingerprint}), o.fingerprint, o.now, o.fingerprint);
  }

  lemma OtherTracks(s: State, o: Op, fingerprint: string, h: seq<Mark>, duration: int)
    requires EventsOk(s) && Tracks(s, fingerprint, h, duration) && o.Observe? && o.fingerprint != fingerprint
    ensures Tracks(Apply(s, o), fingerprint, h, duration)
  {
    if o.holds {
      UpsertOpens(s.(firstTrue := Noted(s.firstTrue, o.fingerprint, o.now, o.duration)), o, fingerprint);
    } else {
      ResolveCloses(s.(firstTrue := s.firstTrue - {o.fingerprint}), o.fingerprint, o.now, fingerprint);
    }
  }

  lemma StepTracks(s: State, o: Op, fingerprint: string, h: seq<Mark>, duration: int)
    requires EventsOk(s) && Tracks(s, fingerprint, h, duration)
    requires o.Observe? && o.fingerprint == fingerprint ==> o.duration == duration
    ensures Tracks(Apply(s, o), fingerprint, h + Marks(o, fingerprint), duration)
  {
    assert h + [] == h;
    match o {
      case Observe(fp, now, holds, _, _, _) =>
        if fp != fingerprint {
          OtherTracks(s, o, fingerprint, h, duration);
        } else if holds {
          TrueTracks(s, o, h);
        } else {
          FalseTracks(s, o, h);
        }
      case Acknowledge(id) => AcknowledgeKeepsOpen(s, id, fingerprint);
      case Restart => OneMore(h, Boot, duration);
    }
  }

  lemma {:induction false} RunTracks(ops: seq<Op>, fingerprint: string, duration: int)
    requires Uniform(ops, fingerprint, duration)
    ensures Tracks(Run(FRESH, ops), fingerprint, History(ops, fingerprint), duration)
    decreases |ops|
  {
    if ops != [] {
      var n := |ops| - 1;
      assert Uniform(ops[..n], fingerprint, duration);
      RunTracks(ops[..n], fingerprint, duration);
      RunOk(ops[..n]);
      StepTracks(Run(FRESH, ops[..n]), ops[n], fingerprint, History(ops[..n], fingerprint), duration);
    }
  }

  /** After any interleaving of evaluations, acknowledgements and restarts, a fingerprint has an open
      event exactly when some evaluation found its condition true for the rule's duration within one
      process, and no evaluation has found it false since. */
  lemma OpenIffSpecified(ops: seq<Op>, fingerprint: string, duration: int)
    requires Uniform(ops, fingerprint, duration)
    ensures HasOpen(Run(FRESH, ops), fingerprint) <==> ShouldBeOpen(History(ops, fingerprint), duration)
  {
    RunTracks(ops, fingerprint, duration);
    OpenNowIsSpec(History(ops, fingerprint), duration);
  }

  predicate OneProcess(h: seq<Mark>) {
    && (forall i :: 0 <= i < |h| ==> h[i].Judged?)
    && (forall i, j :: 0 <= i < j < |h| ==> h[i].Judged? && h[j].Judged? && h[i].at <= h[j].at)
  }

  lemma {:induction false} OneProcessOpen(h: seq<Mark>, duration: int)
    requires OneProcess(h)
    ensures OpenNow(h, duration) <==>
            RunStart(h).Some? && (duration <= 0 || h[|h| - 1].at - RunStart(h).value >= duration)
    decreases |h|
  {
    if h != [] {
      var past := h[..|h| - 1];
      assert forall k :: 0 <= k < |past| ==> past[k] == h[k];
      OneProcessOpen(past, duration);
    }
  }

  /** Within one process and a clock that does not go back: open exactly when the last evaluation was
      true and the time from the start of the trailing run of true evaluations to it reaches the duration. */
  lemma OneProcessSpec(ops: seq<Op>, fingerprint: string, duration: int, i: int)
    requires Uniform(ops, fingerprint, duration) && OneProcess(History(ops, fingerprint))
    requires var h := History(ops, fingerprint);
             h != [] && (JudgedTrue(h[|h| - 1]) ==> RunOfTrue(h, i, |h| - 1))
    ensures var h := History(ops, fingerprint);
            HasOpen(Run(FRESH, ops), fingerprint) <==>
            JudgedTrue(h[|h| - 1]) && (duration <= 0 || h[|h| - 1].at - h[i].at >= duration)
  {
    var h := History(ops, fingerprint);
    RunTracks(ops, fingerprint, duration);
    OneProcessOpen(h, duration);
    if RunStart(h).Some? {
      var start := RunStartIsRun(h);
      RunIsUnique(h, start, i, |h| - 1);
    }
  }

  /** An observation changes no event of another fingerprint. */
  lemma OthersUnaffected(s: State, o: Op, id: int)
    requires EventsOk(s) && o.Observe? && id in s.events && s.events[id].fingerprint != o.fingerprint
    ensures id in Apply(s, o).events && Apply(s, o).events[id] == s.events[id]
    ensures forall fp :: fp != o.fingerprint ==>
              (fp in Apply(s, o).firstTrue <==> fp in s.firstTrue)
              && (fp in s.firstTrue ==> Apply(s, o).firstTrue[fp] == s.firstTrue[fp])
  {
    if o.holds {
      var found := LatestOpen(s.events, o.fingerprint);
    }
  }

  // ---------------------------------------------------------------------------
  // The life of an event
  // ---------------------------------------------------------------------------

  predicate StatusAdvances(from: Status, to: Status) {
    from == to || from == Firing || (from == Acknowledged && to == Resolved)
  }

  /** A later version of an event: same fingerprint and start, status only forward, final once resolved. */
  predicate LaterEvent(e: Event, e': Event) {
    && e'.fingerprint == e.fingerprint && e'.startedAt == e.startedAt
    && StatusAdvances(e.status, e'.status)
    && (e.status == Resolved ==> e' == e)
  }

  ghost predicate LaterState(s: State, s': State) {
    forall id :: id in s.events ==> id in s'.events && LaterEvent(s.events[id], s'.events[id])
  }

  lemma StepLater(s: State, o: Op)
    requires EventsOk(s)
    ensures LaterState(s, Apply(s, o))
  {
    if o.Observe? && o.holds {
      var found := LatestOpen(s.events, o.fingerprint);
    }
  }

  /** From any moment of a run to any later one, no event disappears or moves backwards. */
  lemma {:induction false} EventsAdvance(ops: seq<Op>, n: nat)
    requires n <= |ops|
    ensures LaterState(Run(FRESH, ops[..n]), Run(FRESH, ops))
    decreases |ops| - n
  {
    if n == |ops| {
      assert ops[..n] == ops;
    } else {
      assert ops[..n + 1][..n] == ops[..n];
      RunOk(ops[..n]);
      StepLater(Run(FRESH, ops[..n]), ops[n]);
      EventsAdvance(ops, n + 1);
    }
  }

  /** An acknowledgement that falls between the SELECT and the write of an upsert has the same effect
      as one just before it. */
  lemma AcknowledgeCommutes(s: State, o: Op, id: int)
    requires EventsOk(s) && s.lastId >= 0 && o.Observe? && id != s.lastId + 1
    ensures Written(AcknowledgedEvent(s, id), o, LatestOpen(s.events, o.fingerprint))
         == Upserted(AcknowledgedEvent(s, id), o)
  {
    AcknowledgeKeepsOpen(s, id, o.fingerprint);
    var before := LatestOpen(s.events, o.fingerprint);
    var after := LatestOpen(AcknowledgedEvent(s, id).events, o.fingerprint);
    assert before == after;
  }

  // ---------------------------------------------------------------------------
  // One event per episode
  // ---------------------------------------------------------------------------

  function EventsOf(s: State, fingerprint: string): set<int> {
    set id | id in s.events && s.events[id].fingerprint == fingerprint
  }

  /** How often the specification turned from closed to open. */
  ghost function Episodes(h: seq<Mark>, duration: int): nat
    decreases |h|
  {
    if h == [] then 0
    else
      var past := h[..|h| - 1];
      Episodes(past, duration) + if OpenNow(h, duration) && !OpenNow(past, duration) then 1 else 0
  }

  lemma InsertAdds(s: State, o: Op)
    requires EventsOk(s) && s.lastId >= 0 && o.Observe?
    ensures |EventsOf(Written(s, o, None), o.fingerprint)| == |EventsOf(s, o.fingerprint)| + 1
  {
    var before, after := EventsOf(s, o.fingerprint), EventsOf(Written(s, o, None), o.fingerprint);
    assert s.lastId + 1 !in s.events;
    assert after == before + {s.lastId + 1};
  }

  lemma UpsertCounts(s: State, o: Op, fingerprint: string)
    requires EventsOk(s) && s.lastId >= 0 && o.Observe?
    ensures |EventsOf(Upserted(s, o), fingerprint)| == |EventsOf(s, fingerprint)| +
            if o.fingerprint == fingerprint && !HasOpen(s, fingerprint) then 1 else 0
  {
    var found := LatestOpen(s.events, o.fingerprint);
    if found.None? && o.fingerprint == fingerprint {
      InsertAdds(s, o);
    } else {
      assert forall id :: id in EventsOf(Upserted(s, o), fingerprint) <==> id in EventsOf(s, fingerprint);
      assert EventsOf(Upserted(s, o), fingerprint) == EventsOf(s, fingerprint);
    }
  }

  lemma SameEvents(s: State, s': State, fingerprint: string)
    requires s'.events.Keys == s.events.Keys
    requires forall id :: id in s.events ==> s'.events[id].fingerprint == s.events[id].fingerprint
    ensures EventsOf(s', fingerprint) == EventsOf(s, fingerprint)
  {
    assert forall id :: id in s'.events <==> id in s'.events.Keys;
    assert forall id :: id in EventsOf(s', fingerprint) <==> id in EventsOf(s, fingerprint);
  }

  lemma StepCounts(s: State, o: Op, fingerprint: string)
    requires EventsOk(s) && s.lastId >= 0
    ensures |EventsOf(Apply(s, o), fingerprint)| == |EventsOf(s, fingerprint)| +
            if o.Observe? && !HasOpen(s, fingerprint) && HasOpen(Apply(s, o), fingerprint) then 1 else 0
  {
    var s' := Apply(s, o);
    if o.Observe? && o.holds && DurationSatisfied(s.firstTrue, o.fingerprint, o.now, o.duration) {
      var t := s.(firstTrue := Noted(s.firstTrue, o.fingerprint, o.now, o.duration));
      UpsertOpens(t, o, fingerprint);
      UpsertCounts(t, o, fingerprint);
    } else {
      SameEvents(s, s', fingerprint);
      if o.Observe? && !o.holds {
        ResolveCloses(s.(firstTrue := s.firstTrue - {o.fingerprint}), o.fingerprint, o.now, fingerprint);
      }
    }
  }

  /** A fingerprint has exactly one event per episode of its condition: a continuing condition is
      never reported twice, and a recurring one is reported anew. */
  lemma {:induction false} OneEventPerEpisode(ops: seq<Op>, fingerprint: string, duration: int)
    requires Uniform(ops, fingerprint, duration)
    ensures |EventsOf(Run(FRESH, ops), fingerprint)| == Episodes(History(ops, fingerprint), duration)
    decreases |ops|
  {
    if ops != [] {
      var n := |ops| - 1;
      var s, o := Run(FRESH, ops[..n]), ops[n];
      var h := History(ops[..n], fingerprint);
      assert Uniform(ops[..n], fingerprint, duration);
      OneEventPerEpisode(ops[..n], fingerprint, duration);
      RunOk(ops[..n]);
      RunTracks(ops[..n], fingerprint, duration);
      RunTracks(ops, fingerprint, duration);
      StepCounts(s, o, fingerprint);
      if Marks(o, fingerprint) != [] {
        assert (h + Marks(o, fingerprint))[..|h|] == h;
      } else {
        assert h + [] == h;
      }
    }
  }
}
